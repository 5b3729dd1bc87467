/** JavaScript values as the relay's handlers see them: optional fields, message
    fields that may arrive as text or as a number, the string form of an integer,
    `parseInt`, and `Array.prototype.join`. */
module Values {

  datatype Option<+T> = None | Some(value: T)

  /** Opaque payloads (descriptions, media, candidates, caller identities) that the
      relay forwards without looking inside. */
  type Blob = string

  /** A message field that the decoder may hand over as a string or as a number. */
  datatype Scalar = Str(text: string) | Num(n: int)

  predicate IsDigit(c: char) {
    '0' <= c <= '9'
  }

  predicate AllDigits(s: string) {
    forall i :: 0 <= i < |s| ==> IsDigit(s[i])
  }

  function DigitChar(d: nat): (c: char)
    requires d < 10
    ensures IsDigit(c) && DigitValue(c) == d
  {
    (48 + d) as char
  }

  function DigitValue(c: char): nat
    requires IsDigit(c)
  {
    c as int - 48
  }

  /** The decimal numeral of a natural number, most significant digit first and
      without leading zeros (what `String(n)` gives for a non-negative integer). */
  function NatToDecimal(n: nat): (r: string)
    ensures 1 <= |r| && AllDigits(r)
    ensures |r| == 1 <==> n < 10
    ensures |r| == 2 <==> 10 <= n < 100
    decreases n
  {
    if n < 10 then [DigitChar(n)] else NatToDecimal(n / 10) + [DigitChar(n % 10)]
  }

  /** The number a string of decimal digits denotes (leading zeros allowed). */
  function DigitsValue(s: string): nat
    requires AllDigits(s)
  {
    if s == [] then 0 else DigitsValue(s[..|s| - 1]) * 10 + DigitValue(s[|s| - 1])
  }

  lemma {:induction false} DecimalRoundTrip(n: nat)
    ensures DigitsValue(NatToDecimal(n)) == n
    decreases n
  {
    if n >= 10 {
      var r := NatToDecimal(n);
      assert r[..|r| - 1] == NatToDecimal(n / 10);
      DecimalRoundTrip(n / 10);
    }
  }

  /** `"" + n` for an integer `n`. */
  function IntToDecimal(n: int): (r: string)
    ensures 1 <= |r|
  {
    if n < 0 then "-" + NatToDecimal(-n) else NatToDecimal(n)
  }

  /** The longest prefix of `s` made of decimal digits. */
  function LeadingDigits(s: string): (r: string)
    ensures AllDigits(r) && r <= s
    ensures |r| < |s| ==> !IsDigit(s[|r|])
  {
    if s == [] || !IsDigit(s[0]) then [] else [s[0]] + LeadingDigits(s[1..])
  }

  /** `parseInt(s, 10)`: an optional sign followed by the longest run of digits;
      `None` stands for `NaN` (no digit after the sign). */
  function ParseInt(s: string): (r: Option<int>)
    ensures r.Some? ==> exists k :: 0 <= k <= 1 && k < |s| && IsDigit(s[k])
  {
    var negative := |s| > 0 && s[0] == '-';
    var body := if |s| > 0 && (s[0] == '-' || s[0] == '+') then s[1..] else s;
    var digits := LeadingDigits(body);
    if digits == [] then None
    else Some(if negative then -(DigitsValue(digits) as int) else DigitsValue(digits))
  }

  lemma AllDigitsAreLeading(s: string)
    requires AllDigits(s)
    ensures LeadingDigits(s) == s
  {
  }

  /** `parseInt` reads back the string form of every integer. */
  lemma ParseIntRoundTrip(n: int)
    ensures ParseInt(IntToDecimal(n)) == Some(n)
  {
    var m: nat := if n < 0 then -n else n;
    var digits := NatToDecimal(m);
    AllDigitsAreLeading(digits);
    DecimalRoundTrip(m);
    if n < 0 {
      assert IntToDecimal(n)[1..] == digits;
    } else {
      assert IsDigit(digits[0]);
    }
  }

  /** `"" + v`: the string form of a scalar message field. */
  function Coerce(v: Scalar): (r: string)
    ensures v.Str? ==> r == v.text
  {
    match v
    case Str(t) => t
    case Num(n) => IntToDecimal(n)
  }

  /** `s === v`: strict equality never equates a string with a number. */
  predicate StrictEquals(s: string, v: Scalar) {
    v == Str(s)
  }

  /** `s == v`: loose equality compares a string with a number after converting
      the string to a number; here that conversion is taken to accept exactly
      the canonical decimal form of the number. */
  predicate LooseEquals(s: string, v: Scalar) {
    s == Coerce(v)
  }

  /** `parts.join()`: the parts separated by commas. */
  function Join(parts: seq<string>): (r: string)
    ensures |parts| == 0 ==> r == ""
    ensures |parts| == 1 ==> r == parts[0]
  {
    if |parts| == 0 then ""
    else if |parts| == 1 then parts[0]
    else Join(parts[..|parts| - 1]) + "," + parts[|parts| - 1]
  }

  /** The number of commas in a string. */
  function Commas(s: string): nat {
    if s == [] then 0 else Commas(s[..|s| - 1]) + (if s[|s| - 1] == ',' then 1 else 0)
  }

  lemma CommasAppend(a: string, b: string)
    ensures Commas(a + b) == Commas(a) + Commas(b)
    decreases |b|
  {
    if b != [] {
      assert (a + b)[..|a + b| - 1] == a + b[..|b| - 1];
      assert (a + b)[|a + b| - 1] == b[|b| - 1];
      CommasAppend(a, b[..|b| - 1]);
    } else {
      assert a + b == a;
    }
  }

  /** Joining comma-free parts yields one comma fewer than there are parts, so the
      parts can be told apart again. */
  lemma {:induction false} JoinSeparators(parts: seq<string>)
    requires |parts| >= 1
    requires forall i :: 0 <= i < |parts| ==> Commas(parts[i]) == 0
    ensures Commas(Join(parts)) == |parts| - 1
  {
    if |parts| > 1 {
      var init := parts[..|parts| - 1];
      JoinSeparators(init);
      CommasAppend(Join(init), ",");
      CommasAppend(Join(init) + ",", parts[|parts| - 1]);
    }
  }
  /** `s.split(",")`: the pieces between commas, in order; a string without a
      comma is one piece. */
  function Split(s: string): (r: seq<string>)
    ensures |r| == Commas(s) + 1
  {
    if s == [] then [""]
    else
      var rest := Split(s[1..]);
      CommasFront(s);
      if s[0] == ',' then [""] + rest else [[s[0]] + rest[0]] + rest[1..]
  }

  lemma CommasFront(s: string)
    requires s != []
    ensures Commas(s) == (if s[0] == ',' then 1 else 0) + Commas(s[1..])
  {
    assert s == [s[0]] + s[1..];
    CommasAppend([s[0]], s[1..]);
  }

  /** Splitting at a comma that is followed by comma-free text. */
  lemma {:induction false} SplitSnoc(a: string, b: string)
    requires Commas(b) == 0
    ensures Split(a + "," + b) == Split(a) + [b]
    decreases |a|
  {
    if a == [] {
      assert a + "," + b == [','] + b;
      assert ([','] + b)[1..] == b;
      SplitNoComma(b);
    } else {
      assert (a + "," + b)[0] == a[0];
      assert (a + "," + b)[1..] == a[1..] + "," + b;
      SplitSnoc(a[1..], b);
    }
  }

  /** A comma-free string is a single piece. */
  lemma {:induction false} SplitNoComma(b: string)
    requires Commas(b) == 0
    ensures Split(b) == [b]
    decreases |b|
  {
    if b != [] {
      CommasFront(b);
      SplitNoComma(b[1..]);
      assert [b[0]] + b[1..] == b;
    }
  }

  /** Splitting the join of comma-free parts gives the parts back. */
  lemma {:induction false} SplitJoin(parts: seq<string>)
    requires |parts| >= 1
    requires forall i :: 0 <= i < |parts| ==> Commas(parts[i]) == 0
    ensures Split(Join(parts)) == parts
  {
    if |parts| == 1 {
      SplitNoComma(parts[0]);
    } else {
      var init := parts[..|parts| - 1];
      SplitJoin(init);
      SplitSnoc(Join(init), parts[|parts| - 1]);
      assert init + [parts[|parts| - 1]] == parts;
    }
  }
}
