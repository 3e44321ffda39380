/** What a failed write leaves behind, said from the state before it, and when reopening the
    store then finds two versions of one topic. */
module BufferFailures {
  import opened Common
  import opened QueueKeys
  import opened UpstreamQueue
  import opened BufferStore
  import opened Buffer
  import opened BufferSlots

  /** A record that can be read, of an entry that is not queued. */
  predicate Orphan(store: Store, order: seq<Queued>, x: Entry) {
    && QueueKey(x.seqNo) in store && store[QueueKey(x.seqNo)].Encoded? && store[QueueKey(x.seqNo)].e == x
    && x !in Filled(Slots(store, order))
  }

  predicate IndexExact(order: seq<Queued>, latest: map<string, nat>, next: nat) {
    Increasing(order) && Numbered(order, next) && TopicsBelow(latest, next)
  }

  /** The index after an enqueue, written or not. */
  function IndexAfterwards(order: seq<Queued>, latest: map<string, nat>, e: Entry, size: nat, lim: Limits): seq<Queued>
  {
    Survivors(Appended(order, latest, IndexOf(e, size)), lim)
  }

  /** A failed write orphans exactly the queued records whose numbers the enqueue takes out. */
  lemma FailedWriteOrphans(store: Store, order: seq<Queued>, latest: map<string, nat>, next: nat, e: Entry, size: nat,
                           lim: Limits, x: Entry)
    requires IndexExact(order, latest, next) && e.seqNo == next < TWO_TO_64 && Filed(store, next)
    ensures Orphan(store, IndexAfterwards(order, latest, e, size, lim), x) <==>
            || Orphan(store, order, x)
            || (x in Filled(Slots(store, order)) && x.seqNo in Gone(order, latest, IndexOf(e, size), lim))
  {
    hide QueueKey, Filled, Slots, Filed, Gone, Survivors, Appended, Increasing, Numbered, TopicsBelow;
    HeldAfter(store, order, latest, next, e, size, lim, false, x);
    if x in Filled(Slots(store, order)) { HeldHasRecord(store, order, next, x); }
  }

  lemma HeldHasRecord(store: Store, order: seq<Queued>, next: nat, x: Entry)
    requires Increasing(order) && Numbered(order, next) && Filed(store, next) && x in Filled(Slots(store, order))
    ensures QueueKey(x.seqNo) in store && store[QueueKey(x.seqNo)].Encoded? && store[QueueKey(x.seqNo)].e == x
  {
    hide QueueKey, Filled, Slots;
    HeldAt(store, order, next, x);
  }

  /** The enqueue takes a queued entry out: the topic's version that is still queued, or a
      victim other than the new entry. */
  predicate TakesOut(order: seq<Queued>, latest: map<string, nat>, q: Queued, lim: Limits) {
    || (q.kind == Latest && q.topic in latest && !StaleTopic(order, latest, q))
    || exists v :: v in Victims(Appended(order, latest, q), lim) && v != q
  }

  lemma TakesOutExactly(order: seq<Queued>, latest: map<string, nat>, next: nat, q: Queued, lim: Limits)
    requires IndexExact(order, latest, next) && q.seqNo == next < TWO_TO_64
    ensures TakesOut(order, latest, q, lim) <==> exists y :: y in order && y.seqNo in Gone(order, latest, q, lim)
  {
    hide Survivors, Victims, Appended, Increasing, TopicsBelow;
    var full := Appended(order, latest, q);
    AppendKeepsIndex(order, latest, next, q);
    EvictionExact(full, lim);
    if TakesOut(order, latest, q, lim) {
      if q.kind == Latest && q.topic in latest && !StaleTopic(order, latest, q) {
        var y := order[Find(order, latest[q.topic])];
        assert y in order && y.seqNo in Gone(order, latest, q, lim);
      } else {
        var v :| v in Victims(full, lim) && v != q;
        AppendedMembers(order, latest, next, q, v);
        assert v in order && v.seqNo in Gone(order, latest, q, lim);
      }
    }
    if exists y :: y in order && y.seqNo in Gone(order, latest, q, lim) {
      var y :| y in order && y.seqNo in Gone(order, latest, q, lim);
      if y.seqNo in Superseded(latest, q) {
        FindQueued(order, y);
      } else {
        var v :| v in Victims(full, lim) && v.seqNo == y.seqNo;
        assert v != q;
      }
    }
  }

  lemma FindQueued(order: seq<Queued>, y: Queued)
    requires y in order
    ensures Find(order, y.seqNo) < |order|
  {
    var k :| 0 <= k < |order| && order[k] == y;
  }

  /** From a buffer in step: a failed write orphans a record exactly when the enqueue takes a
      queued entry out, and no other failure of it does. */
  lemma OrphansExactly(store: Store, order: seq<Queued>, latest: map<string, nat>, next: nat, e: Entry, size: nat,
                       lim: Limits)
    requires IndexExact(order, latest, next) && e.seqNo == next < TWO_TO_64 && Agrees(store, order)
    ensures (exists x :: Orphan(store, IndexAfterwards(order, latest, e, size, lim), x)) <==>
            TakesOut(order, latest, IndexOf(e, size), lim)
  {
    hide QueueKey, Filled, Slots, Gone, Increasing, TopicsBelow, IndexAfterwards, Orphan, TakesOut, Agrees, Filed;
    var q, after := IndexOf(e, size), IndexAfterwards(order, latest, e, size, lim);
    InStepIsFiled(store, order, next);
    TakesOutExactly(order, latest, next, q, lim);
    if exists x :: Orphan(store, after, x) {
      var x :| Orphan(store, after, x);
      FailedWriteOrphans(store, order, latest, next, e, size, lim, x);
      NoOrphans(store, order, next, x);
      HeldAt(store, order, next, x);
    }
    if TakesOut(order, latest, q, lim) {
      var y :| y in order && y.seqNo in Gone(order, latest, q, lim);
      var x := EntryOf(store, order, next, y);
      FailedWriteOrphans(store, order, latest, next, e, size, lim, x);
    }
  }

  lemma EntryOf(store: Store, order: seq<Queued>, next: nat, y: Queued) returns (x: Entry)
    requires Increasing(order) && Numbered(order, next) && Agrees(store, order) && y in order
    ensures x.seqNo == y.seqNo && x in Filled(Slots(store, order))
  {
    hide QueueKey, Filled, Slots;
    InStepIsFiled(store, order, next);
    assert HasRecord(store, y);
    x := store[QueueKey(y.seqNo)].e;
    HeldAt(store, order, next, x);
  }

  lemma NoOrphans(store: Store, order: seq<Queued>, next: nat, x: Entry)
    requires Increasing(order) && Numbered(order, next) && Agrees(store, order)
    ensures !Orphan(store, order, x)
  {
    hide QueueKey, Filled, Slots;
    InStepIsFiled(store, order, next);
    var k := QueueKey(x.seqNo);
    if k in store && store[k].Encoded? && store[k].e == x {
      assert HasEntry(order, k);
      var y :| y in order && k == QueueKey(y.seqNo);
      assert HasRecord(store, y);
      HeldAt(store, order, next, x);
    }
  }

  // ----- two versions of one topic -----

  predicate IsVersion(store: Store, k: string, topic: string) {
    k in store && store[k].Encoded? && store[k].e.kind == Latest && store[k].e.topic == topic
  }

  /** The store holds two versions of a topic. */
  ghost predicate TwoStored(store: Store, topic: string) {
    exists j, k :: j != k && IsVersion(store, j, topic) && IsVersion(store, k, topic)
  }

  /** Reopening finds two queued versions of a topic exactly when the store holds two. */
  lemma ReopenedTwice(store: Store, next: nat, rows: seq<Row>)
    requires Filed(store, next) && next <= TWO_TO_64 && IsScan(store, rows)
    ensures DistinctTopics(Restored(rows)) <==> forall topic :: !TwoStored(store, topic)
  {
    hide QueueKey, Restored, IsScan;
    var order := Restored(rows);
    ReopenedIndex(store, next, rows);
    if !DistinctTopics(order) {
      var i, j :| 0 <= i < j < |order| && order[i].kind == Latest && order[j].kind == Latest
                  && order[i].topic == order[j].topic;
      assert order[i] in order && order[j] in order;
      KeyOrder(order[i].seqNo, order[j].seqNo);
      assert IsVersion(store, QueueKey(order[i].seqNo), order[i].topic);
      assert IsVersion(store, QueueKey(order[j].seqNo), order[i].topic);
      assert TwoStored(store, order[i].topic);
    }
    if topic :| TwoStored(store, topic) {
      var j, k :| j != k && IsVersion(store, j, topic) && IsVersion(store, k, topic);
      var y, z := IndexOf(store[j].e, store[j].size), IndexOf(store[k].e, store[k].size);
      assert HasRecord(store, y) && HasRecord(store, z);
      var a :| 0 <= a < |order| && order[a] == y;
      var b :| 0 <= b < |order| && order[b] == z;
      assert a != b;
      assert a < b || b < a;
    }
  }

  lemma {:induction false} DeletedStays(store: Store, batch: seq<Op>, k: string, i: nat)
    requires i < |batch| && batch[i] == Delete(k) && forall j :: i < j < |batch| ==> batch[j].Delete?
    ensures k !in Apply(store, batch)
    decreases |batch|
  {
    if i < |batch| - 1 { DeletedStays(store, batch[..|batch| - 1], k, i); }
  }

  lemma OpAt(order: seq<Queued>, latest: map<string, nat>, e: Entry, size: nat, lim: Limits, n: nat) returns (i: nat)
    requires n in Gone(order, latest, IndexOf(e, size), lim)
    ensures 0 < i < |Batch(order, latest, e, size, lim)|
    ensures Batch(order, latest, e, size, lim)[i] == Delete(QueueKey(n))
  {
    hide QueueKey, Victims, Appended;
    var q := IndexOf(e, size);
    var v := Victims(Appended(order, latest, q), lim);
    if n in Superseded(latest, q) {
      i := 1;
    } else {
      var x :| x in v && x.seqNo == n;
      var j :| 0 <= j < |v| && v[j] == x;
      i := |FirstOps(latest, e, size)| + j;
    }
  }

  /** The store after an enqueue that is written: a number's record is deleted if it is taken
      out, is the new one, or is as it was. */
  lemma StoreAfter(store: Store, order: seq<Queued>, latest: map<string, nat>, next: nat, e: Entry, size: nat,
                   lim: Limits, n: nat)
    requires IndexExact(order, latest, next) && e.seqNo == next < TWO_TO_64 && n < TWO_TO_64
    ensures var now, k := Apply(store, Batch(order, latest, e, size, lim)), QueueKey(n);
            if n in Gone(order, latest, IndexOf(e, size), lim) then k !in now
            else if n == next then k in now && now[k] == Encoded(e, size)
            else (k in now <==> k in store) && (k in store ==> now[k] == store[k])
  {
    hide QueueKey, Apply, Gone, Batch;
    var batch, k, q := Batch(order, latest, e, size, lim), QueueKey(n), IndexOf(e, size);
    forall i | 0 <= i < |batch|
      ensures if i == 0 then batch[i] == Put(QueueKey(next), Encoded(e, size)) else batch[i].Delete?
      ensures i > 0 && n !in Gone(order, latest, q, lim) ==> batch[i].k != k
    {
      BatchOps(order, latest, e, size, lim, i);
      if i > 0 {
        var g :| g in Gone(order, latest, q, lim) && batch[i] == Delete(QueueKey(g));
        GoneBelow(order, latest, next, q, lim, g);
        KeyOrder(g, n);
      }
    }
    KeyOrder(next, n);
    BatchNotEmpty(order, latest, e, size, lim);
    if n in Gone(order, latest, q, lim) {
      var i := OpAt(order, latest, e, size, lim, n);
      DeletedStays(store, batch, k, i);
    } else if n == next {
      PutStays(store, batch, k, Encoded(e, size));
    } else {
      Untouched(store, batch, k);
    }
  }

  lemma OnlyOne(store: Store, topic: string, j: string, k: string)
    requires !TwoStored(store, topic) && j != k
    ensures !IsVersion(store, j, topic) || !IsVersion(store, k, topic)
  {
  }

  /** Before the enqueue: the new entry is a version that will stay, and the store holds another
      of its topic that will stay too. */
  ghost predicate Doubles(store: Store, order: seq<Queued>, latest: map<string, nat>, q: Queued, lim: Limits) {
    && q.kind == Latest && q.seqNo !in Gone(order, latest, q, lim)
    && exists k :: IsVersion(store, k, q.topic) && store[k].e.seqNo !in Gone(order, latest, q, lim)
  }

  /** From a store with at most one version of each topic, an enqueue that is written leaves two
      of some topic exactly then. */
  lemma DoublesExactly(store: Store, order: seq<Queued>, latest: map<string, nat>, next: nat, e: Entry, size: nat,
                       lim: Limits)
    requires IndexExact(order, latest, next) && e.seqNo == next < TWO_TO_64 && Filed(store, next)
    requires forall topic :: !TwoStored(store, topic)
    ensures (exists topic :: TwoStored(Apply(store, Batch(order, latest, e, size, lim)), topic)) <==>
            Doubles(store, order, latest, IndexOf(e, size), lim)
  {
    hide QueueKey, Apply, Gone, Batch;
    var q, now := IndexOf(e, size), Apply(store, Batch(order, latest, e, size, lim));
    var own := QueueKey(next);
    FiledAfter(store, order, latest, next, e, size, lim);
    StoreAfter(store, order, latest, next, e, size, lim, next);
    if Doubles(store, order, latest, q, lim) {
      var k :| IsVersion(store, k, q.topic) && store[k].e.seqNo !in Gone(order, latest, q, lim);
      StoreAfter(store, order, latest, next, e, size, lim, store[k].e.seqNo);
      KeyOrder(store[k].e.seqNo, next);
      assert IsVersion(now, k, q.topic) && IsVersion(now, own, q.topic) && k != own;
      assert TwoStored(now, q.topic);
    }
    if topic :| TwoStored(now, topic) {
      var j, k :| j != k && IsVersion(now, j, topic) && IsVersion(now, k, topic);
      StoreAfter(store, order, latest, next, e, size, lim, now[j].e.seqNo);
      StoreAfter(store, order, latest, next, e, size, lim, now[k].e.seqNo);
      KeyOrder(now[j].e.seqNo, next);
      KeyOrder(now[k].e.seqNo, next);
      if j != own && k != own {
        OnlyOne(store, topic, j, k);
      } else if k == own {
        assert IsVersion(store, j, q.topic);
      } else {
        assert IsVersion(store, k, q.topic);
      }
    }
  }
}
