/** The uptime formatter `toHHMMSS`: a number of seconds shown as hours, minutes
    and seconds, each of the three zero-padded to at least two characters. */
module Clock {
  import opened Values

  /** `Math.floor(secs / 3600)`: for a positive divisor Dafny's `/` rounds down. */
  function Hours(secs: int): int {
    secs / 3600
  }

  function Minutes(secs: int): int {
    (secs - Hours(secs) * 3600) / 60
  }

  function Seconds(secs: int): int {
    secs - Hours(secs) * 3600 - Minutes(secs) * 60
  }

  /** A field below ten gets a "0" in front of its string form. */
  function Pad(n: int): string {
    if n < 10 then "0" + IntToDecimal(n) else IntToDecimal(n)
  }

  function ToHHMMSS(secs: int): string {
    Pad(Hours(secs)) + ":" + Pad(Minutes(secs)) + ":" + Pad(Seconds(secs))
  }

  /** The three fields add back up to the input, and minutes and seconds are
      proper remainders; this holds for negative inputs too, as floor division
      is used. */
  lemma Decomposition(secs: int)
    ensures Hours(secs) * 3600 + Minutes(secs) * 60 + Seconds(secs) == secs
    ensures 0 <= Minutes(secs) < 60 && 0 <= Seconds(secs) < 60
    ensures secs >= 0 ==> Hours(secs) >= 0
  {
    var h := Hours(secs);
    assert 0 <= secs - h * 3600 < 3600;
  }

  /** A non-negative field is written as at least two digits denoting it, and as
      exactly two when it is below 100. */
  lemma PadDigits(n: nat)
    ensures AllDigits(Pad(n)) && DigitsValue(Pad(n)) == n
    ensures |Pad(n)| >= 2 && (n < 100 ==> |Pad(n)| == 2)
    ensures n < 10 ==> Pad(n)[0] == '0'
  {
    DecimalRoundTrip(n);
    var d := NatToDecimal(n);
    if n < 10 {
      var p := "0" + d;
      assert p[..|p| - 1] == "0";
      assert DigitsValue("0") == 0 by {
        assert "0"[..0] == [];
      }
    }
  }

  /** Reads an `H:MM:SS` string back: an hours field of digits, then two-digit
      minutes and seconds. */
  function ParseHHMMSS(s: string): Option<int> {
    if |s| < 8 || s[|s| - 3] != ':' || s[|s| - 6] != ':' then None
    else
      var h, m, sec := s[..|s| - 6], s[|s| - 5..|s| - 3], s[|s| - 2..];
      if AllDigits(h) && AllDigits(m) && AllDigits(sec)
      then Some(DigitsValue(h) * 3600 + DigitsValue(m) * 60 + DigitsValue(sec))
      else None
  }

  /** For every non-negative number of seconds the formatted string reads back as
      that number, so the format loses nothing. */
  lemma RoundTrip(secs: nat)
    ensures ParseHHMMSS(ToHHMMSS(secs)) == Some(secs)
  {
    Decomposition(secs);
    var h, m, s := Hours(secs), Minutes(secs), Seconds(secs);
    PadDigits(h);
    PadDigits(m);
    PadDigits(s);
    var ph, pm, ps := Pad(h), Pad(m), Pad(s);
    var r := ToHHMMSS(secs);
    assert r == ph + ":" + pm + ":" + ps;
    assert r[..|r| - 6] == ph;
    assert r[|r| - 5..|r| - 3] == pm;
    assert r[|r| - 2..] == ps;
  }

  /** Each field of the output is zero-padded: the string is at least eight
      characters, with colons before the last two two-digit fields. */
  lemma Layout(secs: nat)
    ensures var r := ToHHMMSS(secs);
      |r| >= 8 && r[|r| - 3] == ':' && r[|r| - 6] == ':'
      && (Minutes(secs) < 10 ==> r[|r| - 5] == '0')
      && (Seconds(secs) < 10 ==> r[|r| - 2] == '0')
      && (Hours(secs) < 10 ==> |r| == 8 && r[0] == '0')
  {
    Decomposition(secs);
    PadDigits(Hours(secs));
    PadDigits(Minutes(secs));
    PadDigits(Seconds(secs));
  }

  /** The toHHMMSS of src/Server.js: the input goes through `parseInt(secs, 10)`
      first, that is its string form read back; `NaN` would print as `NaN` in
      each field. */
  function LegacyToHHMMSS(secs: int): string {
    match ParseInt(IntToDecimal(secs))
    case Some(n) => ToHHMMSS(n)
    case None => "NaN:NaN:NaN"
  }

  /** For an integer number of seconds `parseInt` gives the number back, so the
      two revisions print the same. */
  lemma LegacyAgrees(secs: int)
    ensures LegacyToHHMMSS(secs) == ToHHMMSS(secs)
  {
    ParseIntRoundTrip(secs);
  }
}
