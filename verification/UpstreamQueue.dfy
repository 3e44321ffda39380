/** The durable, bounded, ordered upstream buffer. */
module UpstreamQueue {
  // ----- what is buffered -----

  /** Anything but the three named classes is kept but never sacrificed. */
  datatype Class = Bulk | Latest | Critical | Other(name: string)

  datatype Entry = Entry(seqNo: nat, topic: string, payload: seq<char>, kind: Class, at: int, key: string)

  /** A stored value: an encoded entry and its length, or bytes that no longer decode. */
  datatype Record = Encoded(e: Entry, size: nat) | Torn

  type Store = map<string, Record>

  /** The in-memory index entry. */
  datatype Queued = Queued(seqNo: nat, kind: Class, size: nat, topic: string, at: int)

  function IndexOf(e: Entry, size: nat): Queued {
    Queued(e.seqNo, e.kind, size, e.topic, e.at)
  }

  function Bytes(order: seq<Queued>): nat {
    if |order| == 0 then 0 else Bytes(order[..|order| - 1]) + order[|order| - 1].size
  }

  predicate Increasing(order: seq<Queued>) {
    forall i, j :: 0 <= i < j < |order| ==> order[i].seqNo < order[j].seqNo
  }

  function DropAt(order: seq<Queued>, i: nat): (r: seq<Queued>)
    requires i < |order|
    ensures |r| == |order| - 1
  {
    order[..i] + order[i + 1..]
  }

  lemma {:induction false} BytesDropAt(order: seq<Queued>, i: nat)
    requires i < |order|
    ensures Bytes(DropAt(order, i)) == Bytes(order) - order[i].size
    decreases |order|
  {
    var n := |order| - 1;
    var d := DropAt(order, i);
    if i == n {
      assert d == order[..n];
    } else {
      assert d[..|d| - 1] == DropAt(order[..n], i) && d[|d| - 1] == order[n];
      BytesDropAt(order[..n], i);
    }
  }

  lemma DropAtIncreasing(order: seq<Queued>, i: nat)
    requires i < |order| && Increasing(order)
    ensures Increasing(DropAt(order, i))
    ensures forall q :: q in DropAt(order, i) <==> q in order && q != order[i]
  {
    var r := DropAt(order, i);
    forall k | 0 <= k < |r|
      ensures r[k] == order[if k < i then k else k + 1]
    {
    }
    forall q | q in order && q != order[i]
      ensures q in r
    {
      var k :| 0 <= k < |order| && order[k] == q;
      assert q == r[if k < i then k else k - 1];
    }
  }

  /** Position of a sequence number in the order, or its length. */
  function Find(order: seq<Queued>, s: nat): (i: nat)
    ensures i <= |order|
    ensures i < |order| ==> order[i].seqNo == s
    ensures forall k :: 0 <= k < i ==> order[k].seqNo != s
  {
    if |order| == 0 || order[0].seqNo == s then 0 else 1 + Find(order[1..], s)
  }

  function Without(order: seq<Queued>, s: nat): (r: seq<Queued>) {
    var i := Find(order, s);
    if i < |order| then DropAt(order, i) else order
  }

  // ----- the overflow policy -----

  datatype Limits = Limits(maxEntries: int, maxBytes: int)

  predicate Over(order: seq<Queued>, lim: Limits) {
    |order| > lim.maxEntries || Bytes(order) > lim.maxBytes
  }

  /** The order of sacrifice; rank 3 is never sacrificed. */
  function Rank(c: Class): int {
    match c
    case Bulk => 0
    case Latest => 1
    case Critical => 2
    case Other(_) => 3
  }

  /** Position of the first entry of a rank, or the length. */
  function FirstOfRank(order: seq<Queued>, r: int): (i: nat)
    ensures i <= |order|
    ensures i < |order| ==> Rank(order[i].kind) == r
    ensures forall k :: 0 <= k < i ==> Rank(order[k].kind) != r
  {
    if |order| == 0 || Rank(order[0].kind) == r then 0 else 1 + FirstOfRank(order[1..], r)
  }

  /** The entry sacrificed next: the oldest of the lowest rank present. */
  function NextVictim(order: seq<Queued>): (i: nat)
    ensures i <= |order|
    ensures i < |order| ==>
              && Rank(order[i].kind) < 3
              && forall k :: 0 <= k < |order| && Rank(order[k].kind) < 3 ==>
                   || Rank(order[i].kind) < Rank(order[k].kind)
                   || (Rank(order[i].kind) == Rank(order[k].kind) && i <= k)
    ensures i == |order| ==> forall k :: 0 <= k < |order| ==> Rank(order[k].kind) == 3
  {
    var a, b := FirstOfRank(order, 0), FirstOfRank(order, 1);
    if a < |order| then a else if b < |order| then b else FirstOfRank(order, 2)
  }

  /** The entries given up, in order, until the bounds hold or nothing may go. */
  function Victims(order: seq<Queued>, lim: Limits): (v: seq<Queued>)
    decreases |order|
  {
    var i := NextVictim(order);
    if Over(order, lim) && i < |order| then [order[i]] + Victims(DropAt(order, i), lim) else []
  }

  function Survivors(order: seq<Queued>, lim: Limits): (s: seq<Queued>)
    decreases |order|
  {
    var i := NextVictim(order);
    if Over(order, lim) && i < |order| then Survivors(DropAt(order, i), lim) else order
  }

  /** (rank, age) order of sacrifice. */
  predicate SacrificedBefore(a: Queued, b: Queued) {
    Rank(a.kind) < Rank(b.kind) || (Rank(a.kind) == Rank(b.kind) && a.seqNo < b.seqNo)
  }

  /** `order` without the entries in `gone`, the rest in place. */
  function Keep(order: seq<Queued>, gone: seq<Queued>): seq<Queued> {
    if |order| == 0 then []
    else Keep(order[..|order| - 1], gone) + (if order[|order| - 1] in gone then [] else [order[|order| - 1]])
  }

  lemma {:induction false} KeepIgnoresAbsent(order: seq<Queued>, x: Queued, gone: seq<Queued>)
    requires x !in order
    ensures Keep(order, [x] + gone) == Keep(order, gone)
    decreases |order|
  {
    if |order| > 0 {
      KeepIgnoresAbsent(order[..|order| - 1], x, gone);
      assert order[|order| - 1] in order;
    }
  }

  lemma {:induction false} KeepDropped(order: seq<Queued>, i: nat, gone: seq<Queued>)
    requires i < |order| && Increasing(order)
    ensures Keep(order, [order[i]] + gone) == Keep(DropAt(order, i), gone)
    decreases |order|
  {
    var n, x := |order| - 1, order[i];
    var rest, last := order[..n], order[n];
    KeepLast(rest, last, [x] + gone);
    assert order == rest + [last];
    if i == n {
      assert DropAt(order, i) == rest;
      assert x !in rest;
      hide Keep;
      KeepIgnoresAbsent(rest, x, gone);
    } else {
      assert DropAt(order, i) == DropAt(rest, i) + [last];
      hide Keep;
      KeepLast(DropAt(rest, i), last, gone);
      KeepDropped(rest, i, gone);
      assert last != x;
    }
  }

  lemma KeepLast(order: seq<Queued>, last: Queued, gone: seq<Queued>)
    ensures Keep(order + [last], gone) == Keep(order, gone) + (if last in gone then [] else [last])
  {
    assert (order + [last])[..|order|] == order;
  }

  lemma {:induction false} KeepAll(order: seq<Queued>)
    ensures Keep(order, []) == order
    decreases |order|
  {
    if |order| > 0 { KeepAll(order[..|order| - 1]); }
  }

  /** `v` is the shortest prefix of the order of sacrifice whose removal meets the
      bounds, or all that may be sacrificed, and `s` is what remains, in order. */
  ghost predicate ShortestSacrifice(order: seq<Queued>, lim: Limits, v: seq<Queued>, s: seq<Queued>) {
    && s == Keep(order, v) && |v| + |s| == |order|
    && (forall x :: x in v ==> x in order && Rank(x.kind) < 3)
    && (forall y :: y in s ==> y in order)
    && (forall i, j :: 0 <= i < j < |v| ==> SacrificedBefore(v[i], v[j]))
    && (forall x, y :: x in v && y in s ==> SacrificedBefore(x, y))
    && (forall k :: 0 <= k < |v| ==> Over(Keep(order, v[..k]), lim))
    && (Over(s, lim) ==> forall y :: y in s ==> Rank(y.kind) == 3)
  }

  lemma VictimFirst(order: seq<Queued>)
    requires Increasing(order) && NextVictim(order) < |order|
    ensures forall y :: y in DropAt(order, NextVictim(order)) ==> SacrificedBefore(order[NextVictim(order)], y)
  {
    var i := NextVictim(order);
    var d := DropAt(order, i);
    forall y | y in d
      ensures SacrificedBefore(order[i], y)
    {
      var k :| 0 <= k < |d| && d[k] == y;
      var k' := if k < i then k else k + 1;
      assert order[k'] == y;
    }
  }

  /** Adding the first victim in front keeps the sacrifice shortest. */
  lemma SacrificeOneMore(order: seq<Queued>, lim: Limits, v: seq<Queued>, s: seq<Queued>)
    requires Increasing(order) && Over(order, lim) && NextVictim(order) < |order|
    requires ShortestSacrifice(DropAt(order, NextVictim(order)), lim, v, s)
    ensures ShortestSacrifice(order, lim, [order[NextVictim(order)]] + v, s)
  {
    hide NextVictim, Over, Keep;
    var i := NextVictim(order);
    var x := order[i];
    var d := DropAt(order, i);
    var w := [x] + v;
    VictimFirst(order);
    DropAtIncreasing(order, i);
    KeepDropped(order, i, v);
    forall k | 0 <= k < |w|
      ensures Over(Keep(order, w[..k]), lim)
    {
      if k == 0 {
        assert w[..0] == [];
        KeepAll(order);
      } else {
        assert w[..k] == [x] + v[..k - 1];
        KeepDropped(order, i, v[..k - 1]);
      }
    }
  }

  lemma {:induction false} EvictionExact(order: seq<Queued>, lim: Limits)
    requires Increasing(order)
    ensures ShortestSacrifice(order, lim, Victims(order, lim), Survivors(order, lim))
    decreases |order|
  {
    var i := NextVictim(order);
    if Over(order, lim) && i < |order| {
      DropAtIncreasing(order, i);
      EvictionExact(DropAt(order, i), lim);
      SacrificeOneMore(order, lim, Victims(DropAt(order, i), lim), Survivors(DropAt(order, i), lim));
    } else {
      KeepAll(order);
    }
  }

  /** When only the three classes occur, eviction always meets both bounds. */
  lemma BoundsHold(order: seq<Queued>, lim: Limits)
    requires Increasing(order) && lim.maxEntries >= 0 && lim.maxBytes >= 0
    requires forall q :: q in order ==> Rank(q.kind) < 3
    ensures !Over(Survivors(order, lim), lim)
  {
    EvictionExact(order, lim);
    var s := Survivors(order, lim);
    assert |s| > 0 ==> s[0] in s;
  }

  // ----- the overflow policy, class by class -----

  /** The sizes added up. */
  function TotalSize(order: seq<Queued>): nat {
    if |order| == 0 then 0 else order[0].size + TotalSize(order[1..])
  }

  lemma {:induction false} BytesAreTotal(order: seq<Queued>)
    ensures Bytes(order) == TotalSize(order)
    decreases |order|
  {
    if |order| > 0 {
      var n := |order| - 1;
      BytesAreTotal(order[..n]);
      TotalLast(order);
    }
  }

  lemma {:induction false} TotalLast(order: seq<Queued>)
    requires |order| > 0
    ensures TotalSize(order) == TotalSize(order[..|order| - 1]) + order[|order| - 1].size
    decreases |order|
  {
    if |order| > 1 {
      TotalLast(order[1..]);
      assert order[1..][..|order| - 2] == order[..|order| - 1][1..];
    } else {
      assert order[1..] == [] && order[..0] == [];
    }
  }

  /** Bulk goes before latest values, and these before critical entries; within a class the
      older goes first. */
  predicate GoesBefore(x: Queued, y: Queued) {
    || (x.kind == Bulk && (y.kind == Latest || y.kind == Critical || y.kind.Other?))
    || (x.kind == Latest && (y.kind == Critical || y.kind.Other?))
    || (x.kind == Critical && y.kind.Other?)
    || (x.kind == y.kind && x.seqNo < y.seqNo)
  }

  predicate TooMuch(order: seq<Queued>, lim: Limits) {
    |order| > lim.maxEntries || TotalSize(order) > lim.maxBytes
  }

  /** What eviction gives up, said by class, age and size: bulk first, then latest values, then
      critical entries, each class oldest first, and nothing else ever; while a bulk entry
      survives only bulk goes, and while a latest value survives no critical entry does. Each
      one goes because there is still too much, and in the end there is not, unless only entries
      of other classes are left. */
  lemma SacrificeByClass(order: seq<Queued>, lim: Limits)
    requires Increasing(order)
    ensures var v, s := Victims(order, lim), Survivors(order, lim);
            && |v| + |s| == |order|
            && (forall x :: x in order <==> x in v || x in s) && (forall x :: x in v ==> x !in s)
            && (forall x :: x in v ==> x.kind == Bulk || x.kind == Latest || x.kind == Critical)
            && (forall i, j :: 0 <= i < j < |v| ==> GoesBefore(v[i], v[j]))
            && (forall x, y :: x in v && y in s ==> GoesBefore(x, y))
            && (forall k :: 0 <= k < |v| ==> TooMuch(Keep(order, v[..k]), lim))
            && (TooMuch(s, lim) ==> forall y :: y in s ==> y.kind.Other?)
  {
    hide Over, Keep, Survivors, Victims;
    var v, s := Victims(order, lim), Survivors(order, lim);
    EvictionExact(order, lim);
    forall x
      ensures x in order <==> x in v || x in s
      ensures x in v ==> x !in s
    {
      KeptExactly(order, v, x);
    }
    forall o: seq<Queued>
      ensures Over(o, lim) <==> TooMuch(o, lim)
    {
      OverIsTooMuch(o, lim);
    }
  }

  lemma OverIsTooMuch(order: seq<Queued>, lim: Limits)
    ensures Over(order, lim) <==> TooMuch(order, lim)
  {
    BytesAreTotal(order);
  }

  lemma {:induction false} KeptExactly(order: seq<Queued>, gone: seq<Queued>, y: Queued)
    ensures y in Keep(order, gone) <==> y in order && y !in gone
    decreases |order|
  {
    if |order| > 0 {
      var n := |order| - 1;
      KeptExactly(order[..n], gone, y);
      assert order == order[..n] + [order[n]];
    }
  }

  /** So critical evidence is given up only once no bulk entry and no latest value is left. */
  lemma CriticalGoesLast(order: seq<Queued>, lim: Limits, x: Queued)
    requires Increasing(order) && x in Victims(order, lim) && x.kind == Critical
    ensures forall y :: y in Survivors(order, lim) ==> y.kind != Bulk && y.kind != Latest
  {
    hide Victims, Survivors;
    SacrificeByClass(order, lim);
  }
}
