/** The buffer over its durable store: every operation keeps index and store in step,
    and reopening the store rebuilds the index. */
module BufferStore {
  import opened Common
  import opened Ordering
  import opened QueueKeys
  import opened UpstreamQueue

  // ----- store and index agree -----

  /** The stored records are exactly those of the indexed entries. */
  ghost predicate Agrees(store: Store, order: seq<Queued>) {
    && (forall q :: q in order ==> HasRecord(store, q))
    && (forall k :: k in store ==> HasEntry(order, k))
  }

  predicate HasRecord(store: Store, q: Queued) {
    var k := QueueKey(q.seqNo);
    k in store && store[k].Encoded? && IndexOf(store[k].e, store[k].size) == q
  }

  ghost predicate HasEntry(order: seq<Queued>, k: string) {
    exists q :: q in order && k == QueueKey(q.seqNo)
  }

  /** So the index tells the truth about each entry: the record filed under its number says its
      number, class, topic, time and size. */
  lemma IndexTells(store: Store, order: seq<Queued>, q: Queued)
    requires Agrees(store, order) && q in order
    ensures var k := QueueKey(q.seqNo);
            && k in store && store[k].Encoded? && store[k].size == q.size
            && var e := store[k].e;
            e.seqNo == q.seqNo && e.kind == q.kind && e.topic == q.topic && e.at == q.at
  {
    hide QueueKey;
    assert HasRecord(store, q);
  }

  predicate Numbered(order: seq<Queued>, next: nat) {
    next <= TWO_TO_64 && forall q :: q in order ==> q.seqNo < next
  }

  datatype Op = Put(k: string, r: Record) | Delete(k: string)

  function ApplyOp(store: Store, op: Op): Store {
    match op
    case Put(k, r) => store[k := r]
    case Delete(k) => store - {k}
  }

  /** A batch, applied in order and as a whole. */
  function Apply(store: Store, batch: seq<Op>): Store {
    if |batch| == 0 then store else ApplyOp(Apply(store, batch[..|batch| - 1]), batch[|batch| - 1])
  }

  lemma ApplyAppend(store: Store, batch: seq<Op>, op: Op)
    ensures Apply(store, batch + [op]) == ApplyOp(Apply(store, batch), op)
  {
    assert (batch + [op])[..|batch|] == batch;
  }

  lemma PutAgrees(store: Store, order: seq<Queued>, next: nat, e: Entry, size: nat)
    requires Agrees(store, order) && Numbered(order, next) && next < TWO_TO_64 && e.seqNo == next
    ensures Agrees(ApplyOp(store, Put(QueueKey(next), Encoded(e, size))), order + [IndexOf(e, size)])
  {
    hide QueueKey;
    var s := store[QueueKey(next) := Encoded(e, size)];
    var o := order + [IndexOf(e, size)];
    forall q | q in o
      ensures HasRecord(s, q)
    {
      if q in order { KeyOrder(q.seqNo, next); }
    }
    forall k | k in s
      ensures HasEntry(o, k)
    {
      if k == QueueKey(next) {
        assert IndexOf(e, size) in o;
      } else {
        var q :| q in order && k == QueueKey(q.seqNo);
        assert q in o;
      }
    }
  }

  lemma DeleteAgrees(store: Store, order: seq<Queued>, next: nat, i: nat)
    requires Agrees(store, order) && Numbered(order, next) && Increasing(order) && i < |order|
    ensures Agrees(ApplyOp(store, Delete(QueueKey(order[i].seqNo))), DropAt(order, i))
  {
    hide QueueKey, DropAt;
    var x, s, o := order[i], store - {QueueKey(order[i].seqNo)}, DropAt(order, i);
    DropAtIncreasing(order, i);
    forall q | q in o
      ensures HasRecord(s, q)
    {
      KeyOrder(q.seqNo, x.seqNo);
      DistinctNumbers(order, q, i);
    }
    forall k | k in s
      ensures HasEntry(o, k)
    {
      var q :| q in order && k == QueueKey(q.seqNo);
      assert q in o;
    }
  }

  lemma DistinctNumbers(order: seq<Queued>, q: Queued, i: nat)
    requires Increasing(order) && i < |order| && q in order && q != order[i]
    ensures q.seqNo != order[i].seqNo
  {
    var k :| 0 <= k < |order| && order[k] == q;
  }

  /** Deleting a sequence number's record follows removing it from the index, present or not. */
  lemma DeleteWithoutAgrees(store: Store, order: seq<Queued>, next: nat, s: nat)
    requires Agrees(store, order) && Numbered(order, next) && Increasing(order) && s < TWO_TO_64
    ensures Agrees(ApplyOp(store, Delete(QueueKey(s))), Without(order, s))
  {
    hide QueueKey, Find;
    var i := Find(order, s);
    if i < |order| {
      DeleteAgrees(store, order, next, i);
    } else {
      forall k | k in store
        ensures k != QueueKey(s)
      {
        var q :| q in order && k == QueueKey(q.seqNo);
        KeyOrder(q.seqNo, s);
      }
      assert store - {QueueKey(s)} == store;
    }
  }

  // ----- reopening -----

  datatype Row = Row(k: string, r: Record)

  /** What iterating the store under the prefix yields: every binding once, in byte order. */
  ghost predicate IsScan(store: Store, rows: seq<Row>) {
    && SortedKeys(Keys(rows))
    && (forall k :: k in store <==> k in Keys(rows))
    && forall i :: 0 <= i < |rows| ==> rows[i].k in store && store[rows[i].k] == rows[i].r
  }

  function Keys(rows: seq<Row>): (ks: seq<string>)
    ensures |ks| == |rows|
  {
    seq(|rows|, i requires 0 <= i < |rows| => rows[i].k)
  }

  /** Where a key goes among sorted rows. */
  function Spot(rows: seq<Row>, k: string): (i: nat)
    ensures i <= |rows|
    ensures forall j :: 0 <= j < i ==> Less(rows[j].k, k)
    ensures i < |rows| ==> !Less(rows[i].k, k)
  {
    if |rows| == 0 || !Less(rows[0].k, k) then 0 else 1 + Spot(rows[1..], k)
  }

  lemma InsertSorted(rows: seq<Row>, row: Row)
    requires SortedKeys(Keys(rows)) && row.k !in Keys(rows)
    ensures var t := rows[..Spot(rows, row.k)] + [row] + rows[Spot(rows, row.k)..];
            && SortedKeys(Keys(t)) && (forall r :: r in t <==> r in rows || r == row)
            && forall k :: k in Keys(t) <==> k in Keys(rows) || k == row.k
  {
    hide Less, Spot;
    var i := Spot(rows, row.k);
    var t := rows[..i] + [row] + rows[i..];
    SortedAt(rows);
    forall j | i <= j < |rows|
      ensures Less(row.k, rows[j].k)
    {
      assert Keys(rows)[j] == rows[j].k && Keys(rows)[i] == rows[i].k;
      LessTotal(row.k, rows[i].k);
      if i < j { LessTransitive(row.k, rows[i].k, rows[j].k); }
    }
    forall x, y | 0 <= x < y < |t|
      ensures Less(Keys(t)[x], Keys(t)[y])
    {
    }
    assert rows == rows[..i] + rows[i..];
    forall k
      ensures k in Keys(t) <==> k in Keys(rows) || k == row.k
    {
      KeysOf(t, k);
      KeysOf(rows, k);
    }
  }

  lemma SortedAt(rows: seq<Row>)
    requires SortedKeys(Keys(rows))
    ensures forall i, j :: 0 <= i < j < |rows| ==> Less(rows[i].k, rows[j].k)
  {
    hide Less;
    forall i, j | 0 <= i < j < |rows|
      ensures Less(rows[i].k, rows[j].k)
    {
      assert Keys(rows)[i] == rows[i].k && Keys(rows)[j] == rows[j].k;
    }
  }

  lemma KeysOf(rows: seq<Row>, k: string)
    ensures k in Keys(rows) <==> exists r :: r in rows && r.k == k
  {
    if k in Keys(rows) {
      var i :| 0 <= i < |rows| && Keys(rows)[i] == k;
      assert rows[i] in rows;
    }
    if exists r :: r in rows && r.k == k {
      var r :| r in rows && r.k == k;
      var i :| 0 <= i < |rows| && rows[i] == r;
      assert Keys(rows)[i] == k;
    }
  }

  /** The bindings of a store in byte order of their keys, whatever order it yields them in. */
  method Scan(store: Store) returns (rows: seq<Row>)
    ensures IsScan(store, rows)
  {
    hide Less, Keys;
    rows := [];
    NoKeys();
    var rest := store.Keys;
    while rest != {}
      invariant rest <= store.Keys && SortedKeys(Keys(rows))
      invariant forall k :: k in Keys(rows) <==> k in store && k !in rest
      invariant forall r :: r in rows ==> r.k in store && store[r.k] == r.r
      decreases |rest|
    {
      var k :| k in rest;
      InsertSorted(rows, Row(k, store[k]));
      rows := rows[..Spot(rows, k)] + [Row(k, store[k])] + rows[Spot(rows, k)..];
      rest := rest - {k};
    }
    assert forall i :: 0 <= i < |rows| ==> rows[i] in rows;
  }

  lemma NoKeys()
    ensures SortedKeys(Keys([])) && Keys([]) == []
  {
  }

  /** The index rebuilt from a scan; torn records are dropped. */
  function Restored(rows: seq<Row>): seq<Queued> {
    if |rows| == 0 then []
    else
      var r := rows[|rows| - 1].r;
      Restored(rows[..|rows| - 1]) + (if r.Encoded? then [IndexOf(r.e, r.size)] else [])
  }

  function NextAfter(order: seq<Queued>): nat {
    if |order| == 0 then 0
    else
      var n, s := NextAfter(order[..|order| - 1]), order[|order| - 1].seqNo;
      if s >= n then s + 1 else n
  }

  function OrderKeys(order: seq<Queued>): (ks: seq<string>)
    ensures |ks| == |order|
  {
    seq(|order|, i requires 0 <= i < |order| => QueueKey(order[i].seqNo))
  }

  lemma OrderKeysSorted(order: seq<Queued>, next: nat)
    requires Increasing(order) && Numbered(order, next)
    ensures SortedKeys(OrderKeys(order))
  {
    hide QueueKey;
    forall i, j | 0 <= i < j < |order|
      ensures Less(OrderKeys(order)[i], OrderKeys(order)[j])
    {
      KeyOrder(order[i].seqNo, order[j].seqNo);
    }
  }

  lemma {:induction false} RestoredRows(rows: seq<Row>, order: seq<Queued>)
    requires |rows| == |order|
    requires forall i :: 0 <= i < |rows| ==> rows[i].r.Encoded? && IndexOf(rows[i].r.e, rows[i].r.size) == order[i]
    ensures Restored(rows) == order
    decreases |rows|
  {
    if |rows| > 0 {
      RestoredRows(rows[..|rows| - 1], order[..|order| - 1]);
      assert order == order[..|order| - 1] + [order[|order| - 1]];
    }
  }

  /** Reopening a store in step with an index rebuilds that very index, in order. */
  lemma ReopenRestores(store: Store, order: seq<Queued>, next: nat, rows: seq<Row>)
    requires Agrees(store, order) && Increasing(order) && Numbered(order, next) && IsScan(store, rows)
    ensures Restored(rows) == order
  {
    hide QueueKey;
    OrderKeysSorted(order, next);
    var a, b := Keys(rows), OrderKeys(order);
    forall k
      ensures k in a <==> k in b
    {
      if k in a {
        assert k in store;
        var q :| q in order && k == QueueKey(q.seqNo);
        var i :| 0 <= i < |order| && order[i] == q;
        assert b[i] == k;
      }
      if k in b {
        var i :| 0 <= i < |b| && b[i] == k;
        assert HasRecord(store, order[i]);
      }
    }
    SortedUnique(a, b);
    forall i | 0 <= i < |rows|
      ensures rows[i].r.Encoded? && IndexOf(rows[i].r.e, rows[i].r.size) == order[i]
    {
      assert a[i] == b[i];
      assert HasRecord(store, order[i]);
    }
    RestoredRows(rows, order);
  }

  /** Every record is filed under its own number, and no number is yet to be given out. */
  ghost predicate Filed(store: Store, next: nat) {
    forall k :: k in store && store[k].Encoded? ==> k == QueueKey(store[k].e.seqNo) && store[k].e.seqNo < next
  }

  ghost predicate NoneTorn(store: Store) {
    forall k :: k in store ==> store[k].Encoded?
  }

  lemma InStepIsFiled(store: Store, order: seq<Queued>, next: nat)
    requires Agrees(store, order) && Numbered(order, next)
    ensures Filed(store, next) && NoneTorn(store)
  {
    hide QueueKey;
    forall k | k in store
      ensures store[k].Encoded? && k == QueueKey(store[k].e.seqNo) && store[k].e.seqNo < next
    {
      assert HasEntry(order, k);
      var q :| q in order && k == QueueKey(q.seqNo);
      assert HasRecord(store, q);
    }
  }

  /** A row yields the index entry `y`. */
  predicate Yields(rows: seq<Row>, i: nat, y: Queued)
    requires i < |rows|
  {
    rows[i].r.Encoded? && IndexOf(rows[i].r.e, rows[i].r.size) == y
  }

  lemma {:induction false} RestoredMembers(rows: seq<Row>, y: Queued)
    ensures y in Restored(rows) <==> exists i :: 0 <= i < |rows| && Yields(rows, i, y)
    decreases |rows|
  {
    if |rows| > 0 {
      var n := |rows| - 1;
      RestoredMembers(rows[..n], y);
      if y in Restored(rows[..n]) {
        var i :| 0 <= i < n && Yields(rows[..n], i, y);
        assert Yields(rows, i, y);
      } else if y in Restored(rows) {
        assert Yields(rows, n, y);
      }
      if exists i :: 0 <= i < |rows| && Yields(rows, i, y) {
        var i :| 0 <= i < |rows| && Yields(rows, i, y);
        if i < n { assert Yields(rows[..n], i, y); } else { assert y in [IndexOf(rows[n].r.e, rows[n].r.size)]; }
      }
    }
  }

  lemma {:induction false} RestoredIncreasing(rows: seq<Row>)
    requires forall i, j :: 0 <= i < j < |rows| && rows[i].r.Encoded? && rows[j].r.Encoded? ==>
               rows[i].r.e.seqNo < rows[j].r.e.seqNo
    ensures Increasing(Restored(rows))
    decreases |rows|
  {
    if |rows| > 0 {
      var n := |rows| - 1;
      RestoredIncreasing(rows[..n]);
      forall y | y in Restored(rows[..n]) && rows[n].r.Encoded?
        ensures y.seqNo < rows[n].r.e.seqNo
      {
        RestoredMembers(rows[..n], y);
        var i :| 0 <= i < n && Yields(rows[..n], i, y);
        assert rows[i].r.Encoded?;
      }
      var before := Restored(rows[..n]);
      assert forall i :: 0 <= i < |before| ==> before[i] in before;
    }
  }

  /** Whatever its history, a store whose records are filed under their numbers is reopened to
      an exact index of its readable records. */
  lemma ReopenedIndex(store: Store, next: nat, rows: seq<Row>)
    requires Filed(store, next) && next <= TWO_TO_64 && IsScan(store, rows)
    ensures Increasing(Restored(rows)) && Numbered(Restored(rows), next) && NextAfter(Restored(rows)) <= next
    ensures forall y :: y in Restored(rows) <==> HasRecord(store, y)
    ensures NoneTorn(store) ==> Agrees(store, Restored(rows))
  {
    hide QueueKey, Restored, NextAfter;
    forall i, j | 0 <= i < j < |rows| && rows[i].r.Encoded? && rows[j].r.Encoded?
      ensures rows[i].r.e.seqNo < rows[j].r.e.seqNo
    {
      assert Keys(rows)[i] == rows[i].k && Keys(rows)[j] == rows[j].k;
      KeyOrder(rows[i].r.e.seqNo, rows[j].r.e.seqNo);
    }
    RestoredIncreasing(rows);
    forall y
      ensures y in Restored(rows) <==> HasRecord(store, y)
    {
      RestoredMembers(rows, y);
      ScanRecords(store, next, rows, y);
    }
    NextIsAbove(Restored(rows));
    NextOfNone();
    RecordsAgree(store, next, Restored(rows));
  }

  lemma NextOfNone()
    ensures NextAfter([]) == 0
  {
  }

  lemma NextOfLast(order: seq<Queued>)
    ensures NextAfter(order) ==
            if |order| == 0 then 0
            else if order[|order| - 1].seqNo >= NextAfter(order[..|order| - 1]) then order[|order| - 1].seqNo + 1
            else NextAfter(order[..|order| - 1])
  {
  }

  lemma ScanRecords(store: Store, next: nat, rows: seq<Row>, y: Queued)
    requires Filed(store, next) && IsScan(store, rows)
    ensures HasRecord(store, y) <==> exists i :: 0 <= i < |rows| && Yields(rows, i, y)
    ensures HasRecord(store, y) ==> y.seqNo < next
  {
    hide QueueKey;
    if HasRecord(store, y) {
      var k := QueueKey(y.seqNo);
      assert k in Keys(rows);
      var i :| 0 <= i < |rows| && Keys(rows)[i] == k;
      assert Yields(rows, i, y);
    }
    if exists i :: 0 <= i < |rows| && Yields(rows, i, y) {
      var i :| 0 <= i < |rows| && Yields(rows, i, y);
      assert store[rows[i].k] == rows[i].r;
    }
  }

  lemma RecordsAgree(store: Store, next: nat, order: seq<Queued>)
    requires Filed(store, next) && forall y :: y in order <==> HasRecord(store, y)
    ensures NoneTorn(store) ==> Agrees(store, order)
  {
    hide QueueKey;
    forall k | k in store && store[k].Encoded?
      ensures HasEntry(order, k)
    {
      var y := IndexOf(store[k].e, store[k].size);
      assert HasRecord(store, y) && y in order;
    }
  }

  /** The restored counter is above every queued sequence and no higher than needed. */
  lemma {:induction false} NextIsAbove(order: seq<Queued>)
    ensures forall q :: q in order ==> q.seqNo < NextAfter(order)
    ensures |order| > 0 ==> exists q :: q in order && q.seqNo + 1 == NextAfter(order)
    decreases |order|
  {
    hide NextAfter;
    NextOfLast(order);
    if |order| > 0 {
      var rest, last := order[..|order| - 1], order[|order| - 1];
      assert order == rest + [last];
      NextIsAbove(rest);
      NextOfLast(rest);
      assert last in order;
      if last.seqNo >= NextAfter(rest) {
        assert last.seqNo + 1 == NextAfter(order);
      } else if |rest| > 0 {
        var q :| q in rest && q.seqNo + 1 == NextAfter(rest);
        assert q in order;
      }
    }
  }

  lemma AgreesElements(store: Store, order: seq<Queued>, other: seq<Queued>, q: Queued)
    requires Agrees(store, order) && Agrees(store, other) && q in order
    ensures q in other
  {
    hide QueueKey;
    assert HasRecord(store, q) && HasEntry(other, QueueKey(q.seqNo));
    var p :| p in other && QueueKey(q.seqNo) == QueueKey(p.seqNo);
    assert HasRecord(store, p);
  }

  lemma KeyListed(order: seq<Queued>, k: string)
    ensures k in OrderKeys(order) <==> HasEntry(order, k)
  {
    hide QueueKey;
    if k in OrderKeys(order) {
      var i :| 0 <= i < |order| && OrderKeys(order)[i] == k;
      assert order[i] in order;
    }
    if HasEntry(order, k) {
      var q :| q in order && k == QueueKey(q.seqNo);
      var i :| 0 <= i < |order| && order[i] == q;
      assert OrderKeys(order)[i] == k;
    }
  }

  /** A store is in step with one order only. */
  lemma AgreesUnique(store: Store, order: seq<Queued>, other: seq<Queued>, next: nat)
    requires Agrees(store, order) && Agrees(store, other) && Increasing(order) && Increasing(other)
    requires Numbered(order, next) && Numbered(other, next)
    ensures order == other
  {
    hide QueueKey, Agrees;
    OrderKeysSorted(order, next);
    OrderKeysSorted(other, next);
    forall q
      ensures q in order <==> q in other
    {
      if q in order { AgreesElements(store, order, other, q); }
      if q in other { AgreesElements(store, other, order, q); }
    }
    forall k
      ensures k in OrderKeys(order) <==> k in OrderKeys(other)
    {
      KeyListed(order, k);
      KeyListed(other, k);
    }
    SortedUnique(OrderKeys(order), OrderKeys(other));
    forall i | 0 <= i < |order|
      ensures order[i] == other[i]
    {
      assert order[i] in order && order[i] in other && other[i] in other;
      assert OrderKeys(order)[i] == OrderKeys(other)[i];
      KeyOrder(order[i].seqNo, other[i].seqNo);
    }
  }
}
