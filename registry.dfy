/** The relay's registry of live connections, as values: an insertion-ordered
    set of connections (a JavaScript `Set` iterates in insertion order, and
    `delete` followed by `add` moves an element to the end), each paired with
    the value of its fields, and the messages handed to `_send`. */
module Registry {

  /** One registered connection together with the value of its fields. */
  datatype Entry<C, A> = Entry(conn: C, attrs: A)

  /** One call of `_send`: the connection written to and the message. */
  datatype Delivery<C, M> = Delivery(to: C, msg: M)

  predicate Distinct<T(==)>(s: seq<T>) {
    forall i, j :: 0 <= i < j < |s| ==> s[i] != s[j]
  }

  function Conns<C, A>(reg: seq<Entry<C, A>>): (r: seq<C>)
    ensures |r| == |reg| && forall i :: 0 <= i < |reg| ==> r[i] == reg[i].conn
  {
    seq(|reg|, i requires 0 <= i < |reg| => reg[i].conn)
  }

  function Recipients<C, M>(sent: seq<Delivery<C, M>>): (r: seq<C>)
    ensures |r| == |sent| && forall i :: 0 <= i < |sent| ==> r[i] == sent[i].to
  {
    seq(|sent|, i requires 0 <= i < |sent| => sent[i].to)
  }

  /** Regrouping the outbox: what was sent before, then two batches. */
  lemma AppendAssoc<T>(a: seq<T>, b: seq<T>, c: seq<T>)
    ensures a + b + c == a + (b + c)
  {
  }

  /** `set.delete(x)` on the set's elements in iteration order. */
  function Delete<T(==)>(s: seq<T>, x: T): (r: seq<T>)
    ensures x !in r && |r| <= |s|
    ensures x !in s ==> r == s
  {
    if s == [] then []
    else
      var init, last := s[..|s| - 1], s[|s| - 1];
      assert s == init + [last];
      Delete(init, x) + (if last == x then [] else [last])
  }

  lemma {:induction false} DeleteMembers<T>(s: seq<T>, x: T)
    ensures forall y :: y in Delete(s, x) <==> y in s && y != x
  {
    if s != [] {
      var init, last := s[..|s| - 1], s[|s| - 1];
      assert s == init + [last];
      DeleteMembers(init, x);
    }
  }

  /** `set.add(x)`: an element already present keeps its place. */
  function Add<T(==)>(s: seq<T>, x: T): (r: seq<T>)
    ensures x in r
  {
    if x in s then s else s + [x]
  }

  /** The entries that satisfy `p`, in their order (what `Array.filter` keeps). */
  function Keep<C, A>(reg: seq<Entry<C, A>>, p: Entry<C, A> -> bool): (r: seq<Entry<C, A>>)
    ensures |r| <= |reg|
  {
    if reg == [] then []
    else
      Keep(reg[..|reg| - 1], p) + (if p(reg[|reg| - 1]) then [reg[|reg| - 1]] else [])
  }

  /** Every kept entry is an entry of `reg` that satisfies `p`. */
  lemma {:induction false} KeepSound<C, A>(reg: seq<Entry<C, A>>, p: Entry<C, A> -> bool)
    ensures forall i :: 0 <= i < |Keep(reg, p)| ==> Keep(reg, p)[i] in reg && p(Keep(reg, p)[i])
  {
    if reg != [] {
      var init, last := reg[..|reg| - 1], reg[|reg| - 1];
      assert reg == init + [last];
      KeepSound(init, p);
    }
  }

  lemma {:induction false} KeepMembers<C, A>(reg: seq<Entry<C, A>>, p: Entry<C, A> -> bool)
    ensures forall e :: e in Keep(reg, p) <==> e in reg && p(e)
  {
    if reg != [] {
      var init, last := reg[..|reg| - 1], reg[|reg| - 1];
      assert reg == init + [last];
      KeepMembers(init, p);
    }
  }

  /** The entries of every connection other than `c`. */
  function Other<C(==), A>(c: C): Entry<C, A> -> bool {
    (e: Entry<C, A>) => e.conn != c
  }

  lemma ConnsAppend<C, A>(a: seq<Entry<C, A>>, b: seq<Entry<C, A>>)
    ensures Conns(a + b) == Conns(a) + Conns(b)
  {
  }

  /** Removing the entry of `c` is deleting `c` from the set of connections. */
  lemma {:induction false} ConnsOfOther<C, A>(reg: seq<Entry<C, A>>, c: C)
    ensures Conns(Keep(reg, Other(c))) == Delete(Conns(reg), c)
  {
    if reg != [] {
      var init, last := reg[..|reg| - 1], reg[|reg| - 1];
      ConnsOfOther(init, c);
      var cs := Conns(reg);
      assert cs[..|cs| - 1] == Conns(init) && cs[|cs| - 1] == last.conn;
      assert Delete(cs, c) == Delete(Conns(init), c) + (if last.conn == c then [] else [last.conn]);
      ConnsAppend(Keep(init, Other(c)), if last.conn == c then [] else [last]);
    }
  }

  /** Keeping some entries keeps the connections distinct. */
  lemma {:induction false} KeepDistinct<C, A>(reg: seq<Entry<C, A>>, p: Entry<C, A> -> bool)
    requires Distinct(Conns(reg))
    ensures Distinct(Conns(Keep(reg, p)))
  {
    if reg != [] {
      var init, last := reg[..|reg| - 1], reg[|reg| - 1];
      assert Conns(init) == Conns(reg)[..|reg| - 1];
      KeepDistinct(init, p);
      var k := Keep(init, p);
      KeepSound(init, p);
      if p(last) {
        forall i | 0 <= i < |k| ensures k[i].conn != last.conn {
          assert k[i] in init;
        }
        assert Conns(k + [last]) == Conns(k) + [last.conn];
      }
    }
  }

  /** Filtering never brings back a connection that was not registered. */
  lemma KeepExcludes<C, A>(reg: seq<Entry<C, A>>, p: Entry<C, A> -> bool, c: C)
    requires c !in Conns(reg)
    ensures c !in Conns(Keep(reg, p))
  {
    var k := Keep(reg, p);
    KeepSound(reg, p);
    forall i | 0 <= i < |k| ensures k[i].conn != c {
      var j :| 0 <= j < |reg| && reg[j] == k[i];
      assert Conns(reg)[j] == k[i].conn;
    }
  }

  /** The entries other than `c`'s do not mention `c`. */
  lemma OtherExcludes<C, A>(reg: seq<Entry<C, A>>, c: C)
    ensures c !in Conns(Keep(reg, Other(c)))
  {
    KeepSound(reg, Other(c));
  }

  lemma DistinctSnoc<T>(s: seq<T>, x: T)
    requires Distinct(s) && x !in s
    ensures Distinct(s + [x])
  {
  }

  lemma KeepSnoc<C, A>(reg: seq<Entry<C, A>>, e: Entry<C, A>, p: Entry<C, A> -> bool)
    ensures Keep(reg + [e], p) == Keep(reg, p) + (if p(e) then [e] else [])
  {
    assert (reg + [e])[..|reg|] == reg;
  }

  /** `xs` is `ys` with some elements left out and the rest in their order. */
  predicate IsSubsequence<T(==)>(xs: seq<T>, ys: seq<T>) {
    if xs == [] then true
    else if ys == [] then false
    else if xs[|xs| - 1] == ys[|ys| - 1] then IsSubsequence(xs[..|xs| - 1], ys[..|ys| - 1])
    else IsSubsequence(xs, ys[..|ys| - 1])
  }

  lemma {:induction false} SubsequenceDropLast<T>(xs: seq<T>, ys: seq<T>)
    requires xs != [] && IsSubsequence(xs, ys)
    ensures IsSubsequence(xs[..|xs| - 1], ys)
    decreases |ys|, 0
  {
    var xi, yi := xs[..|xs| - 1], ys[..|ys| - 1];
    if xs[|xs| - 1] == ys[|ys| - 1] {
      SubsequenceExtend(xi, yi, ys[|ys| - 1]);
      assert yi + [ys[|ys| - 1]] == ys;
    } else {
      SubsequenceDropLast(xs, yi);
      SubsequenceExtend(xi, yi, ys[|ys| - 1]);
      assert yi + [ys[|ys| - 1]] == ys;
    }
  }

  lemma {:induction false} SubsequenceExtend<T>(xs: seq<T>, ys: seq<T>, z: T)
    requires IsSubsequence(xs, ys)
    ensures IsSubsequence(xs, ys + [z])
    decreases |ys|, 1
  {
    assert (ys + [z])[..|ys|] == ys;
    if xs != [] && xs[|xs| - 1] == z {
      SubsequenceDropLast(xs, ys);
    }
  }

  lemma {:induction false} KeepIsSubsequence<C, A>(reg: seq<Entry<C, A>>, p: Entry<C, A> -> bool)
    ensures IsSubsequence(Keep(reg, p), reg)
  {
    if reg != [] {
      var init, last := reg[..|reg| - 1], reg[|reg| - 1];
      KeepIsSubsequence(init, p);
      var k := Keep(init, p);
      assert reg == init + [last];
      if p(last) {
        assert (k + [last])[..|k|] == k;
      } else {
        assert Keep(reg, p) == k;
        SubsequenceExtend(k, init, last);
      }
    }
  }

  /** `set.delete(x1); set.delete(x2); set.add(x1).add(x2)` on the entries: both
      connections move to the end, `e1`'s first; when both are one connection
      the second `add` finds it present. */
  function Reinsert<C(==), A>(reg: seq<Entry<C, A>>, e1: Entry<C, A>, e2: Entry<C, A>): seq<Entry<C, A>> {
    Keep(Keep(reg, Other(e1.conn)), Other(e2.conn)) + [e1] + (if e2.conn == e1.conn then [] else [e2])
  }

  /** The entries after reinserting: the two new ones and every entry of another
      connection. */
  lemma ReinsertEntries<C, A>(reg: seq<Entry<C, A>>, e1: Entry<C, A>, e2: Entry<C, A>)
    ensures forall e :: e in Reinsert(reg, e1, e2) <==>
      (e in reg && e.conn != e1.conn && e.conn != e2.conn) || e == e1 || (e2.conn != e1.conn && e == e2)
  {
    KeepMembers(reg, Other(e1.conn));
    KeepMembers(Keep(reg, Other(e1.conn)), Other(e2.conn));
  }

  /** The connections after reinserting: the two reinserted ones and the others
      that were registered. */
  lemma ReinsertConns<C, A>(reg: seq<Entry<C, A>>, e1: Entry<C, A>, e2: Entry<C, A>)
    ensures forall c :: c in Conns(Reinsert(reg, e1, e2)) <==>
      (c in Conns(reg) && c != e1.conn && c != e2.conn) || c == e1.conn || c == e2.conn
  {
    var k1 := Keep(reg, Other(e1.conn));
    var k := Keep(k1, Other(e2.conn));
    OtherConns(reg, e1.conn);
    OtherConns(k1, e2.conn);
    var tail := if e2.conn == e1.conn then [e1] else [e1, e2];
    assert Reinsert(reg, e1, e2) == k + tail;
    ConnsAppend(k, tail);
    assert Conns(tail) == if e2.conn == e1.conn then [e1.conn] else [e1.conn, e2.conn];
  }

  /** The connections left once the entry of `c` is removed. */
  lemma OtherConns<C, A>(reg: seq<Entry<C, A>>, c: C)
    ensures forall x :: x in Conns(Keep(reg, Other(c))) <==> x in Conns(reg) && x != c
  {
    ConnsOfOther(reg, c);
    DeleteMembers(Conns(reg), c);
  }

  /** Reinserting leaves each connection once. */
  lemma ReinsertDistinct<C, A>(reg: seq<Entry<C, A>>, e1: Entry<C, A>, e2: Entry<C, A>)
    requires Distinct(Conns(reg))
    ensures Distinct(Conns(Reinsert(reg, e1, e2)))
  {
    var k1 := Keep(reg, Other(e1.conn));
    var k := Keep(k1, Other(e2.conn));
    KeepDistinct(reg, Other(e1.conn));
    KeepDistinct(k1, Other(e2.conn));
    OtherExcludes(reg, e1.conn);
    KeepExcludes(k1, Other(e2.conn), e1.conn);
    OtherExcludes(k1, e2.conn);
    ConnsAppend(k, [e1]);
    DistinctSnoc(Conns(k), e1.conn);
    if e2.conn != e1.conn {
      ConnsAppend(k + [e1], [e2]);
      DistinctSnoc(Conns(k) + [e1.conn], e2.conn);
    }
  }

  /** `m` sent to every entry, in registry order. */
  function Broadcast<C, A, M>(reg: seq<Entry<C, A>>, m: M): (r: seq<Delivery<C, M>>)
    ensures |r| == |reg|
  {
    if reg == [] then []
    else Broadcast(reg[..|reg| - 1], m) + [Delivery(reg[|reg| - 1].conn, m)]
  }

  lemma BroadcastSnoc<C, A, M>(reg: seq<Entry<C, A>>, e: Entry<C, A>, m: M)
    ensures Broadcast(reg + [e], m) == Broadcast(reg, m) + [Delivery(e.conn, m)]
  {
    assert (reg + [e])[..|reg|] == reg;
  }

  /** One more entry visited by a loop that writes `m` to every entry. */
  lemma BroadcastStep<C, A, M>(reg: seq<Entry<C, A>>, i: nat, m: M)
    requires i < |reg|
    ensures Broadcast(reg[..i + 1], m) == Broadcast(reg[..i], m) + [Delivery(reg[i].conn, m)]
  {
    assert reg[..i + 1] == reg[..i] + [reg[i]];
    BroadcastSnoc(reg[..i], reg[i], m);
  }

  /** One more entry visited by a loop that writes `m` to the entries satisfying `p`. */
  lemma FilteredBroadcastStep<C, A, M>(reg: seq<Entry<C, A>>, i: nat, p: Entry<C, A> -> bool, m: M)
    requires i < |reg|
    ensures p(reg[i]) ==> Broadcast(Keep(reg[..i + 1], p), m) == Broadcast(Keep(reg[..i], p), m) + [Delivery(reg[i].conn, m)]
    ensures !p(reg[i]) ==> Broadcast(Keep(reg[..i + 1], p), m) == Broadcast(Keep(reg[..i], p), m)
  {
    var kept := Keep(reg[..i], p);
    assert reg[..i + 1] == reg[..i] + [reg[i]];
    KeepSnoc(reg[..i], reg[i], p);
    if p(reg[i]) {
      assert Keep(reg[..i + 1], p) == kept + [reg[i]];
      BroadcastSnoc(kept, reg[i], m);
    } else {
      assert Keep(reg[..i + 1], p) == kept;
    }
  }

  /** A broadcast writes `m` once to each connection, in registry order, and to
      nobody else. */
  lemma {:induction false} BroadcastReaches<C, A, M>(reg: seq<Entry<C, A>>, m: M)
    ensures Recipients(Broadcast(reg, m)) == Conns(reg)
    ensures forall d :: d in Broadcast(reg, m) ==> d.msg == m
  {
    if reg != [] {
      var init := reg[..|reg| - 1];
      BroadcastReaches(init, m);
      assert Conns(reg) == Conns(init) + [reg[|reg| - 1].conn];
    }
  }

  /** A broadcast never writes to a connection that is not registered. */
  lemma BroadcastAvoids<C, A, M>(reg: seq<Entry<C, A>>, m: M, c: C)
    requires c !in Conns(reg)
    ensures forall d :: d in Broadcast(reg, m) ==> d.to != c
  {
    var sent := Broadcast(reg, m);
    BroadcastReaches(reg, m);
    forall d | d in sent ensures d.to != c {
      var i :| 0 <= i < |sent| && sent[i] == d;
      assert Recipients(sent)[i] == d.to;
    }
  }

  /** In a sequence without repetitions each element occurs exactly once. */
  lemma {:induction false} DistinctOnce<T>(s: seq<T>, x: T)
    requires Distinct(s) && x in s
    ensures multiset(s)[x] == 1
  {
    var init, last := s[..|s| - 1], s[|s| - 1];
    assert s == init + [last];
    assert Distinct(init);
    if last == x {
      assert x !in init;
    } else {
      DistinctOnce(init, x);
    }
  }

  /** A broadcast writes `m` to each connection as many times as it is registered. */
  lemma {:induction false} BroadcastCount<C, A, M>(reg: seq<Entry<C, A>>, m: M, c: C)
    ensures multiset(Broadcast(reg, m))[Delivery(c, m)] == multiset(Conns(reg))[c]
  {
    if reg != [] {
      var init, last := reg[..|reg| - 1], reg[|reg| - 1];
      BroadcastCount(init, m, c);
      assert Conns(reg) == Conns(init) + [last.conn];
    }
  }

  /** When every message sent is `m`, a connection is sent `m` exactly when it
      is among the recipients. */
  lemma DeliveredIff<C, M>(sent: seq<Delivery<C, M>>, c: C, m: M)
    requires forall d :: d in sent ==> d.msg == m
    ensures Delivery(c, m) in sent <==> c in Recipients(sent)
  {
    if c in Recipients(sent) {
      var i :| 0 <= i < |sent| && Recipients(sent)[i] == c;
      assert sent[i] == Delivery(c, m);
    }
  }

  /** A kept entry's connection is among those of the kept entries. */
  lemma KeptConnIn<C, A>(reg: seq<Entry<C, A>>, p: Entry<C, A> -> bool, k: nat)
    requires k < |reg| && p(reg[k])
    ensures reg[k].conn in Conns(Keep(reg, p))
  {
    var kept := Keep(reg, p);
    KeepMembers(reg, p);
    var n :| 0 <= n < |kept| && kept[n] == reg[k];
    assert Conns(kept)[n] == reg[k].conn;
  }

  /** A connection none of whose entries is kept is not among those of the kept
      entries. */
  lemma {:induction false} KeptConnOut<C, A>(reg: seq<Entry<C, A>>, p: Entry<C, A> -> bool, c: C)
    requires forall j :: 0 <= j < |reg| && reg[j].conn == c ==> !p(reg[j])
    ensures c !in Conns(Keep(reg, p))
  {
    if reg != [] {
      var init, last := reg[..|reg| - 1], reg[|reg| - 1];
      assert forall j :: 0 <= j < |init| ==> init[j] == reg[j];
      KeptConnOut(init, p, c);
      ConnsAppend(Keep(init, p), if p(last) then [last] else []);
    }
  }

  /** In a registry without repetitions, no other entry has the connection of
      the entry at `k`. */
  lemma DistinctUnique<C, A>(reg: seq<Entry<C, A>>, k: nat)
    requires Distinct(Conns(reg)) && k < |reg|
    ensures forall j :: 0 <= j < |reg| && reg[j].conn == reg[k].conn ==> j == k
  {
    var cs := Conns(reg);
    forall j | 0 <= j < |reg| && reg[j].conn == reg[k].conn ensures j == k {
      assert cs[j] == cs[k];
    }
  }

  /** Writing `m` to the entries that satisfy `p` writes only `m`, to the
      connections of those entries in their order. */
  lemma FilteredRecipients<C, A, M>(reg: seq<Entry<C, A>>, p: Entry<C, A> -> bool, m: M)
    ensures Recipients(Broadcast(Keep(reg, p), m)) == Conns(Keep(reg, p))
    ensures forall d :: d in Broadcast(Keep(reg, p), m) ==> d.msg == m
  {
    BroadcastReaches(Keep(reg, p), m);
  }

  /** ... and, with each connection registered once, to each of them once. */
  lemma FilteredOnce<C, A, M>(reg: seq<Entry<C, A>>, p: Entry<C, A> -> bool, m: M)
    requires Distinct(Conns(reg))
    ensures Distinct(Recipients(Broadcast(Keep(reg, p), m)))
  {
    FilteredRecipients(reg, p, m);
    KeepDistinct(reg, p);
  }

  /** The connection of an entry no other entry shares is written to exactly
      when the entry satisfies `p`. */
  lemma FilteredReachOne<C, A, M>(reg: seq<Entry<C, A>>, p: Entry<C, A> -> bool, m: M, k: nat)
    requires k < |reg|
    requires forall j :: 0 <= j < |reg| && reg[j].conn == reg[k].conn ==> j == k
    ensures reg[k].conn in Recipients(Broadcast(Keep(reg, p), m)) <==> p(reg[k])
  {
    if p(reg[k]) {
      KeptConnIn(reg, p, k);
    } else {
      KeptConnOut(reg, p, reg[k].conn);
    }
    BroadcastReaches(Keep(reg, p), m);
  }

  /** ... and reaches a registered connection exactly when its entry satisfies `p`. */
  lemma FilteredReach<C, A, M>(reg: seq<Entry<C, A>>, p: Entry<C, A> -> bool, m: M)
    requires Distinct(Conns(reg))
    ensures forall k :: 0 <= k < |reg| ==> (reg[k].conn in Recipients(Broadcast(Keep(reg, p), m)) <==> p(reg[k]))
  {
    forall k | 0 <= k < |reg| ensures reg[k].conn in Recipients(Broadcast(Keep(reg, p), m)) <==> p(reg[k]) {
      DistinctUnique(reg, k);
      FilteredReachOne(reg, p, m, k);
    }
  }

  /** What follows the messages of `pre` is reached exactly as it is in `sent`. */
  lemma AppendReach<T>(pre: seq<T>, sent: seq<T>, x: T)
    requires x !in pre
    ensures x in pre + sent <==> x in sent
  {
    if x in pre + sent {
      var i :| 0 <= i < |pre + sent| && (pre + sent)[i] == x;
      assert i >= |pre| && sent[i - |pre|] == x;
    }
    if x in sent {
      var i :| 0 <= i < |sent| && sent[i] == x;
      assert (pre + sent)[|pre| + i] == x;
    }
  }

  /** Messages other than `m` followed by a restricted broadcast of `m`: all
      that is not among the first is `m`. */
  lemma TrailingKinds<C, A, M>(pre: seq<Delivery<C, M>>, reg: seq<Entry<C, A>>, p: Entry<C, A> -> bool, m: M)
    ensures forall d :: d in pre + Broadcast(Keep(reg, p), m) ==> d in pre || d.msg == m
  {
    var sent := Broadcast(Keep(reg, p), m);
    FilteredRecipients(reg, p, m);
    forall d | d in pre + sent ensures d in pre || d.msg == m {
      if d !in pre {
        AppendReach(pre, sent, d);
      }
    }
  }

  /** ... and `m` reaches a registered client exactly when it passes the test. */
  lemma TrailingReach<C, A, M>(pre: seq<Delivery<C, M>>, reg: seq<Entry<C, A>>, p: Entry<C, A> -> bool, m: M)
    requires Distinct(Conns(reg))
    requires forall d :: d in pre ==> d.msg != m
    ensures forall k :: 0 <= k < |reg| ==> (Delivery(reg[k].conn, m) in pre + Broadcast(Keep(reg, p), m) <==> p(reg[k]))
  {
    forall k | 0 <= k < |reg| ensures Delivery(reg[k].conn, m) in pre + Broadcast(Keep(reg, p), m) <==> p(reg[k]) {
      TrailingReachOne(pre, reg, p, m, k);
    }
  }

  lemma TrailingReachOne<C, A, M>(pre: seq<Delivery<C, M>>, reg: seq<Entry<C, A>>, p: Entry<C, A> -> bool, m: M, k: nat)
    requires Distinct(Conns(reg)) && k < |reg|
    requires Delivery(reg[k].conn, m) !in pre
    ensures Delivery(reg[k].conn, m) in pre + Broadcast(Keep(reg, p), m) <==> p(reg[k])
  {
    FilteredDelivered(reg, p, m, reg[k].conn);
    DistinctUnique(reg, k);
    FilteredReachOne(reg, p, m, k);
    AppendReach(pre, Broadcast(Keep(reg, p), m), Delivery(reg[k].conn, m));
  }

  /** A restricted broadcast of `m` writes `m` to exactly its recipients. */
  lemma FilteredDelivered<C, A, M>(reg: seq<Entry<C, A>>, p: Entry<C, A> -> bool, m: M, c: C)
    ensures Delivery(c, m) in Broadcast(Keep(reg, p), m) <==> c in Recipients(Broadcast(Keep(reg, p), m))
  {
    FilteredRecipients(reg, p, m);
    DeliveredIff(Broadcast(Keep(reg, p), m), c, m);
  }
}
