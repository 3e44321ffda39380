/** The upstream buffer object: enqueue with coalescing and eviction, peek, remove,
    restore. Whether a store write succeeds is the store's decision and an input. */
module Buffer {
  import opened Common
  import opened QueueKeys
  import opened UpstreamQueue
  import opened BufferStore

  datatype Stats = Stats(enqueued: nat, flushed: nat, coalesced: nat, droppedBulk: nat,
                         droppedOther: nat, deduplicated: nat, lossy: bool)

  // ----- what eviction does to the rest of the state -----

  function BulkCount(v: seq<Queued>): (n: nat)
    ensures n <= |v|
  {
    if |v| == 0 then 0 else (if v[0].kind == Bulk then 1 else 0) + BulkCount(v[1..])
  }

  predicate AnyCritical(v: seq<Queued>) {
    exists i :: 0 <= i < |v| && v[i].kind == Critical
  }

  /** Bulk victims, other victims and the loss of critical evidence are counted apart. */
  function CountVictims(s: Stats, v: seq<Queued>): Stats {
    s.(droppedBulk := s.droppedBulk + BulkCount(v),
       droppedOther := s.droppedOther + (|v| - BulkCount(v)),
       lossy := s.lossy || AnyCritical(v))
  }

  /** Each topic's coalescable entry is the one the topic map names. */
  predicate LatestOk(latest: map<string, nat>, order: seq<Queued>) {
    forall q :: q in order && q.kind == Latest ==> q.topic in latest && latest[q.topic] == q.seqNo
  }

  /** A number the map names, if it is queued, is a version of that topic. */
  predicate TopicsName(latest: map<string, nat>, order: seq<Queued>) {
    forall t, q :: t in latest && q in order && latest[t] == q.seqNo ==> q.kind == Latest && q.topic == t
  }

  /** So at most one coalescable entry per topic is queued. */
  lemma OneLatestPerTopic(latest: map<string, nat>, order: seq<Queued>, i: nat, j: nat)
    requires LatestOk(latest, order) && Increasing(order) && i < |order| && j < |order|
    requires order[i].kind == Latest && order[j].kind == Latest && order[i].topic == order[j].topic
    ensures i == j
  {
    assert order[i] in order && order[j] in order;
    assert order[i].seqNo == order[j].seqNo;
  }

  predicate DistinctTopics(order: seq<Queued>) {
    forall i, j :: 0 <= i < j < |order| && order[i].kind == Latest && order[j].kind == Latest ==>
      order[i].topic != order[j].topic
  }

  /** The topic map rebuilt from an order: the last entry of a topic wins. */
  function TopicsOf(order: seq<Queued>): map<string, nat> {
    if |order| == 0 then map[]
    else
      var m, q := TopicsOf(order[..|order| - 1]), order[|order| - 1];
      if q.kind == Latest then m[q.topic := q.seqNo] else m
  }

  lemma {:induction false} TopicsOfOk(order: seq<Queued>)
    ensures forall t :: t in TopicsOf(order) ==> TopicsOf(order)[t] < NextAfter(order)
    ensures DistinctTopics(order) ==> LatestOk(TopicsOf(order), order)
    decreases |order|
  {
    if |order| > 0 {
      var rest, last := order[..|order| - 1], order[|order| - 1];
      TopicsOfOk(rest);
      assert DistinctTopics(order) ==> DistinctTopics(rest);
      forall q | DistinctTopics(order) && q in order && q.kind == Latest
        ensures q.topic in TopicsOf(order) && TopicsOf(order)[q.topic] == q.seqNo
      {
        var i :| 0 <= i < |order| && order[i] == q;
        if i < |rest| { assert rest[i] == q && q in rest; }
      }
    }
  }

  function WithoutVictim(latest: map<string, nat>, x: Queued): map<string, nat> {
    if x.kind == Latest && x.topic in latest && latest[x.topic] == x.seqNo then latest - {x.topic} else latest
  }

  function WithoutVictims(latest: map<string, nat>, v: seq<Queued>): map<string, nat>
    decreases |v|
  {
    if |v| == 0 then latest else WithoutVictims(WithoutVictim(latest, v[0]), v[1..])
  }

  lemma DropKeepsLatest(latest: map<string, nat>, order: seq<Queued>, i: nat)
    requires LatestOk(latest, order) && Increasing(order) && i < |order|
    ensures LatestOk(WithoutVictim(latest, order[i]), DropAt(order, i))
  {
    DropAtIncreasing(order, i);
    forall q | q in DropAt(order, i) && q.kind == Latest
      ensures q.topic in WithoutVictim(latest, order[i]) && WithoutVictim(latest, order[i])[q.topic] == q.seqNo
    {
      DistinctNumbers(order, q, i);
    }
  }

  // ----- one enqueue, as a whole -----

  datatype Encoding = Size(size: nat) | Fails

  /** The entry as it is stored: numbered, and critical unless it says otherwise. */
  function Stamped(e: Entry, n: nat): Entry {
    e.(seqNo := n, kind := if e.kind == Other("") then Critical else e.kind)
  }

  function Accepted(s: Stats, latest: map<string, nat>, q: Queued): Stats {
    s.(enqueued := s.enqueued + 1,
       coalesced := s.coalesced + (if q.kind == Latest && q.topic in latest then 1 else 0))
  }

  function Claimed(latest: map<string, nat>, q: Queued): map<string, nat> {
    if q.kind == Latest then latest[q.topic := q.seqNo] else latest
  }

  /** The order once a coalesced predecessor is out and the new entry in. */
  function Appended(order: seq<Queued>, latest: map<string, nat>, q: Queued): seq<Queued> {
    Coalesced(order, latest, q) + [q]
  }

  class Queue {
    const lim: Limits
    var next: nat
    var depth: int
    var bytes: int
    var latest: map<string, nat>
    var order: seq<Queued>
    var stats: Stats
    var store: Store
    var sent: set<string>
    /** Entries found in the store when the queue was opened. */
    ghost var restored: nat

    /** The index is exact. */
    ghost predicate Indexed()
      reads this
    {
      && depth == |order| && bytes == Bytes(order)
      && Increasing(order) && Numbered(order, next) && TopicsBelow(latest, next)
    }

    /** Entries that came in beyond those still here or counted out. */
    ghost function Unaccounted(): int
      reads this
    {
      restored + stats.enqueued - |order| - stats.flushed - stats.coalesced - stats.droppedBulk - stats.droppedOther
    }

    /** The index is exact and every entry it ever held is accounted for. */
    ghost predicate Valid()
      reads this
    {
      Indexed() && Unaccounted() <= 0
    }

    /** The topic map names each topic's queued version, so that there is at most one. */
    ghost predicate OnePerTopic()
      reads this`latest, this`order
    {
      LatestOk(latest, order) && TopicsName(latest, order)
    }

    /** The stored records are exactly those of the index. */
    ghost predicate InStep()
      reads this
    {
      Agrees(store, order)
    }

    /** Opens the buffer over what a previous process left behind. */
    constructor (lim: Limits, store: Store, sent: set<string>, rows: seq<Row>)
      requires IsScan(store, rows)
      ensures this.lim == lim && this.store == store && this.sent == sent
      ensures order == Restored(rows) && depth == |order| && bytes == Bytes(order)
      ensures next == NextAfter(order) && latest == TopicsOf(order)
      ensures stats == NO_STATS && restored == |order|
    {
      hide *;
      this.lim, this.store, this.sent := lim, store, sent;
      order, bytes, next, latest := [], 0, 0, map[];
      depth := 0;
      stats := NO_STATS;
      new;
      RestoreNone(rows);
      for i := 0 to |rows|
        modifies this`order, this`bytes, this`next, this`latest, this`depth
        invariant order == Restored(rows[..i]) && bytes == Bytes(order) && next == NextAfter(order)
        invariant depth == |order| && latest == TopicsOf(order)
      {
        RestoreOne(rows, i);
        if rows[i].r.Encoded? {
          var q := IndexOf(rows[i].r.e, rows[i].r.size);
          IndexOne(order, q);
          order := order + [q];
          depth, bytes := depth + 1, bytes + q.size;
          if q.seqNo >= next { next := q.seqNo + 1; }
          if q.kind == Latest { latest := latest[q.topic := q.seqNo]; }
        }
      }
      assert rows[..|rows|] == rows;
      restored := |order|;
    }

    /** Drops a sequence from the index. */
    method RemoveIndexed(s: nat)
      requires Indexed()
      modifies this`order, this`depth, this`bytes
      ensures Indexed() && order == Without(old(order), s)
    {
      hide Bytes, Find, Increasing, Numbered, DropAt;
      FindUnique(order, s);
      WithoutKeepsIndex(order, next, s);
      var i := 0;
      while i < |order|
        invariant 0 <= i <= |order|
        invariant forall k :: 0 <= k < i ==> order[k].seqNo != s
      {
        if order[i].seqNo == s {
          BytesDropAt(order, i);
          bytes := bytes - order[i].size;
          order := DropAt(order, i);
          depth := depth - 1;
          return;
        }
        i := i + 1;
      }
    }

    predicate IsOver()
      reads this
    {
      depth > lim.maxEntries || bytes > lim.maxBytes
    }

    /** Position of the oldest entry of one class, or the length. */
    method Oldest(kind: Class) returns (i: nat)
      ensures i == FirstOfRank(order, Rank(kind)) || kind.Other?
    {
      hide FirstOfRank;
      i := 0;
      while i < |order| && order[i].kind != kind
        invariant 0 <= i <= |order|
        invariant forall k :: 0 <= k < i ==> order[k].kind != kind
      {
        i := i + 1;
      }
      if !kind.Other? { FirstOfRankUnique(order, Rank(kind), i); }
    }

    /** Gives up one entry: its record, its place, and its topic if it held one. */
    method Sacrifice(i: nat, batch: seq<Op>) returns (out: seq<Op>)
      requires Indexed() && i < |order| && Rank(order[i].kind) < 3
      modifies this`order, this`depth, this`bytes, this`latest, this`stats
      ensures Indexed() && order == DropAt(old(order), i)
      ensures latest == WithoutVictim(old(latest), old(order)[i])
      ensures stats == CountVictim(old(stats), old(order)[i])
      ensures out == batch + [Delete(QueueKey(old(order)[i].seqNo))]
    {
      hide Bytes, Increasing, Numbered, QueueKey;
      DropKeepsIndex(order, next, latest, i);
      BytesDropAt(order, i);
      var victim := order[i];
      out := batch + [Delete(QueueKey(victim.seqNo))];
      order := order[..i] + order[i + 1..];
      depth, bytes := depth - 1, bytes - victim.size;
      if victim.kind == Latest && victim.topic in latest && latest[victim.topic] == victim.seqNo {
        latest := latest - {victim.topic};
      }
      if victim.kind == Bulk {
        stats := stats.(droppedBulk := stats.droppedBulk + 1);
      } else {
        stats := stats.(droppedOther := stats.droppedOther + 1);
        if victim.kind == Critical { stats := stats.(lossy := true); }
      }
    }

    /** Enforces the bounds, class by class, oldest first. */
    method Evict(batch: seq<Op>) returns (out: seq<Op>)
      requires Indexed()
      modifies this`order, this`depth, this`bytes, this`latest, this`stats
      ensures Indexed()
      ensures order == Survivors(old(order), lim)
      ensures stats == CountVictims(old(stats), Victims(old(order), lim))
      ensures latest == WithoutVictims(old(latest), Victims(old(order), lim))
      ensures out == batch + Deletions(Victims(old(order), lim))
    {
      var classes := [Bulk, Latest, Critical];
      assert forall c :: 0 <= c < 3 ==> Rank(classes[c]) == c;
      hide *;
      ghost var order0, stats0, latest0, gone := order, stats, latest, [];
      out := batch;
      NothingGone(stats, latest, batch, lim, order);
      for c := 0 to 3
        invariant Indexed() && Evicting(lim, order0, order, gone) && NoneBelow(order, c)
        invariant stats == CountVictims(stats0, gone) && latest == WithoutVictims(latest0, gone)
        invariant out == batch + Deletions(gone)
      {
        OverMeans();
        while IsOver()
          invariant Indexed() && Evicting(lim, order0, order, gone) && NoneBelow(order, c)
          invariant stats == CountVictims(stats0, gone) && latest == WithoutVictims(latest0, gone)
          invariant out == batch + Deletions(gone)
          invariant IsOver() <==> Over(order, lim)
          decreases |order|
        {
          var idx := Oldest(classes[c]);
          VictimIs(order, c, classes[c]);
          if idx == |order| { break; }
          EvictOne(lim, order0, order, gone, idx);
          GoneOne(stats0, latest0, batch, gone, order[idx]);
          gone := gone + [order[idx]];
          DropKeepsNone(order, c, idx);
          out := Sacrifice(idx, out);
          OverMeans();
        }
        if !IsOver() {
          EvictDone(lim, order0, order, gone);
          return;
        }
        NoneBelowNext(order, c, classes[c]);
      }
      NothingLeft(order);
      EvictDone(lim, order0, order, gone);
    }

    /** Takes a coalesced predecessor out and the new entry in. */
    method Append(e: Entry, size: nat) returns (batch: seq<Op>)
      requires Indexed() && e.seqNo == next < TWO_TO_64
      modifies this`next, this`order, this`depth, this`bytes, this`latest, this`stats
      ensures Indexed() && next == old(next) + 1
      ensures order == Appended(old(order), old(latest), IndexOf(e, size))
      ensures stats == Accepted(old(stats), old(latest), IndexOf(e, size))
      ensures latest == Claimed(old(latest), IndexOf(e, size))
      ensures batch == FirstOps(old(latest), e, size)
    {
      hide Bytes, Increasing, Numbered, TopicsBelow, QueueKey, Without;
      var q := IndexOf(e, size);
      AppendKeepsIndex(order, latest, next, q);
      batch := [Put(QueueKey(e.seqNo), Encoded(e, size))];
      if q.kind == Latest {
        if q.topic in latest {
          var prev := latest[q.topic];
          batch := batch + [Delete(QueueKey(prev))];
          RemoveIndexed(prev);
          stats := stats.(coalesced := stats.coalesced + 1);
        }
        latest := latest[q.topic := q.seqNo];
      }
      next := next + 1;
      IndexOne(order, q);
      order := order + [q];
      depth, bytes := depth + 1, bytes + q.size;
      stats := stats.(enqueued := stats.enqueued + 1);
    }

    /** Appends a message, coalescing and evicting as needed. `encoding` is the length
        of the encoded entry, or says that it cannot be encoded; `written` is the
        store's answer to the batch. */
    method Enqueue(e: Entry, encoding: Encoding, written: bool) returns (ok: bool)
      requires Valid() && next < TWO_TO_64
      modifies this
      ensures Valid() && next == old(next) + 1 && sent == old(sent) && restored == old(restored)
      ensures ok == (encoding.Size? && written)
      ensures encoding.Fails? ==>
                order == old(order) && latest == old(latest) && stats == old(stats) && store == old(store)
      ensures encoding.Size? ==>
                var q := IndexOf(Stamped(e, old(next)), encoding.size);
                var full := Appended(old(order), old(latest), q);
                && order == Survivors(full, lim)
                && stats == CountVictims(Accepted(old(stats), old(latest), q), Victims(full, lim))
                && latest == WithoutVictims(Claimed(old(latest), q), Victims(full, lim))
      ensures store ==
              if ok then Apply(old(store), Batch(old(order), old(latest), Stamped(e, old(next)), encoding.size, lim))
              else old(store)
      ensures old(OnePerTopic()) ==> OnePerTopic()
      ensures stats.lossy && !old(stats.lossy) ==> forall y :: y in order ==> y.kind != Bulk && y.kind != Latest
      ensures ok && old(InStep()) ==> InStep()
      ensures !ok && old(InStep()) ==> (InStep() <==> order == old(order))
      ensures var stale := encoding.Size?
                           && StaleTopic(old(order), old(latest), IndexOf(Stamped(e, old(next)), encoding.size));
              Unaccounted() == old(Unaccounted()) - if stale then 1 else 0
    {
      hide Bytes, LatestOk, Increasing, Numbered, TopicsBelow, Apply, Survivors, Victims, BulkCount, AnyCritical,
        WithoutVictims, Agrees, Appended, Deletions, FirstOps, Claimed, Find, TopicsName;
      var entry := Stamped(e, next);
      if encoding.Size? { TopicsStay(order, latest, next, IndexOf(entry, encoding.size), lim); }
      if encoding.Fails? {
        NumberedLater(order, latest, next);
        next := next + 1;
        return false;
      }
      ghost var order0, latest0, q := order, latest, IndexOf(entry, encoding.size);
      AppendedLength(order, latest, next, q);
      NumberedLater(order, latest, next);
      var batch := Append(entry, encoding.size);
      ghost var full := order;
      EvictionAccounts(full, lim);
      LossyMeans(stats, full, lim);
      batch := Evict(batch);
      if old(InStep()) { BatchAgrees(store, order0, next - 1, latest0, entry, encoding.size, full, lim); }
      if !written {
        if old(InStep()) && InStep() { AgreesUnique(store, order, order0, next); }
        return false;
      }
      store := Apply(store, batch);
      return true;
    }

    /** Up to `n` entries from the head, in order; a missing or torn record is skipped,
        a read that fails ends it. */
    method Peek(n: nat, readable: nat -> bool) returns (out: seq<Entry>, ok: bool)
      ensures var m := if n < |order| then n else |order|;
              && (ok <==> forall k :: 0 <= k < m ==> readable(order[k].seqNo))
              && (ok ==> out == Entries(store, order[..m]))
              && (!ok ==> exists j :: 0 <= j < m && !readable(order[j].seqNo) && out == Entries(store, order[..j]))
    {
      hide QueueKey, Entries;
      NoEntries(store);
      var seqs := [];
      var i := 0;
      while i < |order| && |seqs| < n
        invariant i == |seqs| <= |order| && i <= n
        invariant forall k :: 0 <= k < i ==> seqs[k] == order[k].seqNo
      {
        seqs := seqs + [order[i].seqNo];
        i := i + 1;
      }
      out := [];
      for j := 0 to |seqs|
        invariant out == Entries(store, order[..j])
        invariant forall k :: 0 <= k < j ==> readable(order[k].seqNo)
      {
        if !readable(seqs[j]) { return out, false; }
        EntriesOne(store, order, j);
        var k := QueueKey(seqs[j]);
        if k in store && store[k].Encoded? {
          out := out + [store[k].e];
        }
      }
      ok := true;
    }

    /** Deletes a published entry; `deleted` is the store's answer. */
    method Remove(s: nat, deleted: bool) returns (ok: bool)
      requires Valid() && s < TWO_TO_64
      modifies this`order, this`depth, this`bytes, this`stats, this`store
      ensures Valid() && ok == deleted && order == Without(old(order), s)
      ensures stats == old(stats).(flushed := old(stats).flushed + 1)
      ensures store == if ok then old(store) - {QueueKey(s)} else old(store)
      ensures old(OnePerTopic()) ==> OnePerTopic()
      ensures ok && old(InStep()) ==> InStep()
      ensures Unaccounted() == old(Unaccounted()) - (if Find(old(order), s) == |old(order)| then 1 else 0)
    {
      hide Bytes, LatestOk, Increasing, Numbered, TopicsBelow, QueueKey, Agrees, TopicsName;
      if InStep() { DeleteWithoutAgrees(store, order, next, s); }
      if OnePerTopic() { WithoutKeepsLatest(order, latest, s); }
      WithoutLength(order, s);
      RemoveIndexed(s);
      stats := stats.(flushed := stats.flushed + 1);
      if deleted { store := store - {QueueKey(s)}; }
      ok := deleted;
    }

    /** Remembers a delivered idempotency key, if there is one; `written` is the store's answer. */
    method MarkSent(key: string, written: bool) returns (ok: bool)
      modifies this`sent
      ensures ok == (key == "" || written)
      ensures sent == if key == "" || !written then old(sent) else old(sent) + {key}
    {
      if key == "" { return true; }
      if written { sent := sent + {key}; }
      return written;
    }

    /** A look-up that fails reads as "not sent". */
    predicate AlreadySent(key: string, readable: bool)
      reads this`sent
    {
      key != "" && key in sent && readable
    }

    /** The mark of a key runs out. */
    method Expire(key: string)
      modifies this`sent
      ensures sent == old(sent) - {key}
    {
      sent := sent - {key};
    }

    method NoteDeduplicated()
      modifies this`stats
      ensures stats == old(stats).(deduplicated := old(stats).deduplicated + 1)
    {
      stats := stats.(deduplicated := stats.deduplicated + 1);
    }

    lemma OverMeans()
      requires Indexed()
      ensures IsOver() <==> Over(order, lim)
    {
    }
  }

  predicate TopicsBelow(latest: map<string, nat>, next: nat) {
    forall t :: t in latest ==> latest[t] < next
  }

  // ----- eviction bookkeeping -----

  function CountVictim(s: Stats, x: Queued): Stats {
    if x.kind == Bulk then s.(droppedBulk := s.droppedBulk + 1)
    else s.(droppedOther := s.droppedOther + 1, lossy := s.lossy || x.kind == Critical)
  }

  function Deletions(v: seq<Queued>): (ops: seq<Op>)
    ensures |ops| == |v|
  {
    seq(|v|, i requires 0 <= i < |v| => Delete(QueueKey(v[i].seqNo)))
  }

  /** `gone` has been given up so far; what is still to go completes the victims. */
  ghost predicate Evicting(lim: Limits, order0: seq<Queued>, order: seq<Queued>, gone: seq<Queued>) {
    && Survivors(order0, lim) == Survivors(order, lim)
    && Victims(order0, lim) == gone + Victims(order, lim)
  }

  predicate NoneBelow(order: seq<Queued>, r: int) {
    forall q :: q in order ==> Rank(q.kind) >= r
  }

  lemma NothingGone(s: Stats, latest: map<string, nat>, batch: seq<Op>, lim: Limits, order: seq<Queued>)
    ensures CountVictims(s, []) == s && WithoutVictims(latest, []) == latest && batch + Deletions([]) == batch
    ensures Evicting(lim, order, order, []) && NoneBelow(order, 0)
  {
    assert [] + Victims(order, lim) == Victims(order, lim);
  }

  lemma EvictOne(lim: Limits, order0: seq<Queued>, order: seq<Queued>, gone: seq<Queued>, i: nat)
    requires Evicting(lim, order0, order, gone) && Over(order, lim) && i == NextVictim(order) < |order|
    ensures Evicting(lim, order0, DropAt(order, i), gone + [order[i]])
  {
    var d := DropAt(order, i);
    assert Victims(order, lim) == [order[i]] + Victims(d, lim);
    assert gone + ([order[i]] + Victims(d, lim)) == gone + [order[i]] + Victims(d, lim);
  }

  lemma EvictDone(lim: Limits, order0: seq<Queued>, order: seq<Queued>, gone: seq<Queued>)
    requires Evicting(lim, order0, order, gone) && (!Over(order, lim) || NextVictim(order) == |order|)
    ensures order == Survivors(order0, lim) && gone == Victims(order0, lim)
  {
    assert gone + [] == gone;
  }

  lemma {:induction false} BulkCountAppend(v: seq<Queued>, x: Queued)
    ensures BulkCount(v + [x]) == BulkCount(v) + (if x.kind == Bulk then 1 else 0)
    decreases |v|
  {
    if |v| == 0 {
      assert [x][1..] == [];
    } else {
      assert (v + [x])[1..] == v[1..] + [x];
      BulkCountAppend(v[1..], x);
    }
  }

  lemma {:induction false} WithoutVictimsAppend(latest: map<string, nat>, v: seq<Queued>, x: Queued)
    ensures WithoutVictims(latest, v + [x]) == WithoutVictim(WithoutVictims(latest, v), x)
    decreases |v|
  {
    if |v| == 0 {
      assert [x][1..] == [];
    } else {
      assert (v + [x])[1..] == v[1..] + [x];
      WithoutVictimsAppend(WithoutVictim(latest, v[0]), v[1..], x);
    }
  }

  lemma GoneOne(s: Stats, latest: map<string, nat>, batch: seq<Op>, gone: seq<Queued>, x: Queued)
    ensures CountVictims(s, gone + [x]) == CountVictim(CountVictims(s, gone), x)
    ensures WithoutVictims(latest, gone + [x]) == WithoutVictim(WithoutVictims(latest, gone), x)
    ensures batch + Deletions(gone + [x]) == batch + Deletions(gone) + [Delete(QueueKey(x.seqNo))]
  {
    BulkCountAppend(gone, x);
    WithoutVictimsAppend(latest, gone, x);
    var g := gone + [x];
    assert AnyCritical(g) <==> AnyCritical(gone) || x.kind == Critical by {
      if AnyCritical(gone) {
        var i :| 0 <= i < |gone| && gone[i].kind == Critical;
        assert g[i] == gone[i];
      }
      if x.kind == Critical { assert g[|gone|] == x; }
    }
    assert Deletions(g) == Deletions(gone) + [Delete(QueueKey(x.seqNo))];
  }

  /** With no lower rank left, the next victim is the oldest entry of this one. */
  lemma VictimIs(order: seq<Queued>, c: int, kind: Class)
    requires 0 <= c < 3 && Rank(kind) == c && NoneBelow(order, c)
    ensures FirstOfRank(order, c) < |order| ==>
              NextVictim(order) == FirstOfRank(order, c) && Rank(order[FirstOfRank(order, c)].kind) == c
    ensures !kind.Other?
  {
    assert forall k :: 0 <= k < |order| ==> order[k] in order;
  }

  lemma DropKeepsNone(order: seq<Queued>, c: int, i: nat)
    requires NoneBelow(order, c) && i < |order|
    ensures NoneBelow(DropAt(order, i), c)
  {
    assert forall q :: q in DropAt(order, i) ==> q in order;
  }

  lemma NoneBelowNext(order: seq<Queued>, c: int, kind: Class)
    requires NoneBelow(order, c) && FirstOfRank(order, c) == |order|
    ensures NoneBelow(order, c + 1)
  {
  }

  lemma NothingLeft(order: seq<Queued>)
    requires NoneBelow(order, 3)
    ensures NextVictim(order) == |order|
  {
    assert forall k :: 0 <= k < |order| ==> order[k] in order;
  }

  lemma FirstOfRankUnique(order: seq<Queued>, r: int, i: nat)
    requires i <= |order| && forall k :: 0 <= k < i ==> Rank(order[k].kind) != r
    requires i < |order| ==> Rank(order[i].kind) == r
    ensures FirstOfRank(order, r) == i
  {
  }

  lemma DropKeepsIndex(order: seq<Queued>, next: nat, latest: map<string, nat>, i: nat)
    requires Increasing(order) && Numbered(order, next) && TopicsBelow(latest, next) && i < |order|
    ensures Increasing(DropAt(order, i)) && Numbered(DropAt(order, i), next)
    ensures TopicsBelow(WithoutVictim(latest, order[i]), next)
  {
    DropAtIncreasing(order, i);
  }

  lemma WithoutKeepsIndex(order: seq<Queued>, next: nat, s: nat)
    requires Increasing(order) && Numbered(order, next)
    ensures Increasing(Without(order, s)) && Numbered(Without(order, s), next)
  {
    hide Find;
    var i := Find(order, s);
    if i < |order| { DropKeepsIndex(order, next, map[], i); }
  }

  lemma WithoutKeepsLatest(order: seq<Queued>, latest: map<string, nat>, s: nat)
    requires Increasing(order) && LatestOk(latest, order)
    ensures LatestOk(latest, Without(order, s))
    ensures TopicsName(latest, order) ==> TopicsName(latest, Without(order, s))
  {
    WithoutDrops(order, s);
  }

  const NO_STATS := Stats(0, 0, 0, 0, 0, 0, false)

  lemma RestoreNone(rows: seq<Row>)
    ensures Restored(rows[..0]) == [] && Bytes([]) == 0 && NextAfter([]) == 0 && TopicsOf([]) == map[]
  {
  }

  /** What indexing one more entry does to the totals. */
  lemma IndexOne(order: seq<Queued>, q: Queued)
    ensures Bytes(order + [q]) == Bytes(order) + q.size
    ensures NextAfter(order + [q]) == if q.seqNo >= NextAfter(order) then q.seqNo + 1 else NextAfter(order)
    ensures TopicsOf(order + [q]) == if q.kind == Latest then TopicsOf(order)[q.topic := q.seqNo] else TopicsOf(order)
  {
    assert (order + [q])[..|order|] == order;
  }

  lemma RestoreOne(rows: seq<Row>, i: nat)
    requires i < |rows|
    ensures var r := rows[i].r;
            Restored(rows[..i + 1]) ==
                if r.Encoded? then Restored(rows[..i]) + [IndexOf(r.e, r.size)] else Restored(rows[..i])
  {
    assert rows[..i + 1][..i] == rows[..i];
  }

  lemma NumberedLater(order: seq<Queued>, latest: map<string, nat>, next: nat)
    requires Numbered(order, next) && TopicsBelow(latest, next) && next < TWO_TO_64
    ensures Numbered(order, next + 1) && TopicsBelow(latest, next + 1)
  {
  }

  /** The order before the new entry goes in. */
  function Coalesced(order: seq<Queued>, latest: map<string, nat>, q: Queued): seq<Queued> {
    if q.kind == Latest && q.topic in latest then Without(order, latest[q.topic]) else order
  }

  lemma CoalescedKeepsIndex(order: seq<Queued>, latest: map<string, nat>, next: nat, q: Queued)
    requires Increasing(order) && Numbered(order, next)
    ensures var base := Coalesced(order, latest, q);
            && Increasing(base) && Numbered(base, next)
            && |base| >= |order| - (if q.kind == Latest && q.topic in latest then 1 else 0)
  {
    if q.kind == Latest && q.topic in latest {
      WithoutKeepsIndex(order, next, latest[q.topic]);
      WithoutDrops(order, latest[q.topic]);
    }
  }

  /** Indexing the new entry keeps the index exact. */
  lemma AppendKeepsIndex(order: seq<Queued>, latest: map<string, nat>, next: nat, q: Queued)
    requires Increasing(order) && Numbered(order, next) && TopicsBelow(latest, next)
    requires q.seqNo == next < TWO_TO_64
    ensures var full := Appended(order, latest, q);
            Increasing(full) && Numbered(full, next + 1) && TopicsBelow(Claimed(latest, q), next + 1)
  {
    CoalescedKeepsIndex(order, latest, next, q);
    hide Coalesced;
    AppendNumbered(Coalesced(order, latest, q), next, q);
  }

  /** The topic map keeps up with the new entry: its predecessor is out. */
  lemma AppendKeepsLatest(order: seq<Queued>, latest: map<string, nat>, q: Queued)
    requires Increasing(order) && LatestOk(latest, order)
    ensures LatestOk(Claimed(latest, q), Appended(order, latest, q))
  {
    var base := Coalesced(order, latest, q);
    if q.kind == Latest && q.topic in latest { WithoutDrops(order, latest[q.topic]); }
    assert forall x :: x in base ==> x in order;
    assert forall x :: x in base + [q] ==> x in base || x == q;
  }

  lemma {:induction false} EvictionKeepsLatest(order: seq<Queued>, latest: map<string, nat>, lim: Limits)
    requires Increasing(order) && LatestOk(latest, order)
    ensures LatestOk(WithoutVictims(latest, Victims(order, lim)), Survivors(order, lim))
    decreases |order|
  {
    hide LatestOk, Increasing, NextVictim, Over, WithoutVictim;
    var i := NextVictim(order);
    if Over(order, lim) && i < |order| {
      var d := DropAt(order, i);
      DropAtIncreasing(order, i);
      DropKeepsLatest(latest, order, i);
      EvictionKeepsLatest(d, WithoutVictim(latest, order[i]), lim);
      assert ([order[i]] + Victims(d, lim))[1..] == Victims(d, lim);
    }
  }

  lemma AppendKeepsNames(order: seq<Queued>, latest: map<string, nat>, next: nat, q: Queued)
    requires Increasing(order) && Numbered(order, next) && TopicsBelow(latest, next) && q.seqNo == next
    requires TopicsName(latest, order)
    ensures TopicsName(Claimed(latest, q), Appended(order, latest, q))
  {
    hide Without, Increasing;
    forall t, y | t in Claimed(latest, q) && y in Appended(order, latest, q) && Claimed(latest, q)[t] == y.seqNo
      ensures y.kind == Latest && y.topic == t
    {
      if q.kind == Latest && q.topic in latest { WithoutMembers(order, latest[q.topic], y); }
      assert y == q || y in order;
    }
  }

  lemma {:induction false} VictimsLeaveTopics(latest: map<string, nat>, v: seq<Queued>)
    ensures forall t :: t in WithoutVictims(latest, v) ==> t in latest && WithoutVictims(latest, v)[t] == latest[t]
    decreases |v|
  {
    if |v| > 0 { VictimsLeaveTopics(WithoutVictim(latest, v[0]), v[1..]); }
  }

  lemma EvictionKeepsNames(order: seq<Queued>, latest: map<string, nat>, lim: Limits)
    requires Increasing(order) && TopicsName(latest, order)
    ensures TopicsName(WithoutVictims(latest, Victims(order, lim)), Survivors(order, lim))
  {
    hide Increasing, Victims, Survivors, WithoutVictims;
    SacrificeByClass(order, lim);
    VictimsLeaveTopics(latest, Victims(order, lim));
  }

  /** One enqueue leaves at most one queued version of each topic. */
  lemma TopicsStay(order: seq<Queued>, latest: map<string, nat>, next: nat, q: Queued, lim: Limits)
    requires Increasing(order) && Numbered(order, next) && TopicsBelow(latest, next) && q.seqNo == next < TWO_TO_64
    ensures var full := Appended(order, latest, q);
            var now := WithoutVictims(Claimed(latest, q), Victims(full, lim));
            LatestOk(latest, order) && TopicsName(latest, order) ==>
              LatestOk(now, Survivors(full, lim)) && TopicsName(now, Survivors(full, lim))
  {
    hide LatestOk, Increasing, Appended, Claimed, Victims, Survivors, WithoutVictims, Numbered, TopicsBelow, TopicsName;
    if LatestOk(latest, order) && TopicsName(latest, order) {
      AppendKeepsIndex(order, latest, next, q);
      AppendKeepsLatest(order, latest, q);
      AppendKeepsNames(order, latest, next, q);
      EvictionKeepsLatest(Appended(order, latest, q), Claimed(latest, q), lim);
      EvictionKeepsNames(Appended(order, latest, q), Claimed(latest, q), lim);
    }
  }

  /** So an enqueue takes the queued version of its own topic out, appends the new entry, and
      leaves every other entry to the overflow policy. */
  lemma AppendedByTopic(order: seq<Queued>, latest: map<string, nat>, next: nat, q: Queued, y: Queued)
    requires Increasing(order) && Numbered(order, next) && TopicsBelow(latest, next) && q.seqNo == next
    requires LatestOk(latest, order) && TopicsName(latest, order)
    ensures y in Appended(order, latest, q) <==>
            y == q || (y in order && !(q.kind == Latest && y.kind == Latest && y.topic == q.topic))
  {
    hide Without;
    if q.kind == Latest && q.topic in latest { WithoutMembers(order, latest[q.topic], y); }
  }

  lemma WithoutMembers(order: seq<Queued>, s: nat, y: Queued)
    requires Increasing(order)
    ensures y in Without(order, s) <==> y in order && y.seqNo != s
  {
    hide DropAt;
    var i := Find(order, s);
    if i < |order| {
      DropAtIncreasing(order, i);
      if y in order && y != order[i] { DistinctNumbers(order, y, i); }
    } else if y in order {
      var k :| 0 <= k < |order| && order[k] == y;
    }
  }

  /** The topic map rebuilt from an order names versions of that order. */
  lemma {:induction false} TopicsOfNumbers(order: seq<Queued>)
    ensures forall t :: t in TopicsOf(order) ==>
              exists q :: q in order && q.kind == Latest && q.topic == t && q.seqNo == TopicsOf(order)[t]
    decreases |order|
  {
    if |order| > 0 {
      var rest, last := order[..|order| - 1], order[|order| - 1];
      TopicsOfNumbers(rest);
      assert order == rest + [last];
      assert forall q :: q in rest ==> q in order;
      assert last in order;
    }
  }

  lemma TopicsOfName(order: seq<Queued>)
    requires Increasing(order)
    ensures TopicsName(TopicsOf(order), order)
  {
    hide TopicsOf;
    TopicsOfNumbers(order);
    forall t, q | t in TopicsOf(order) && q in order && TopicsOf(order)[t] == q.seqNo
      ensures q.kind == Latest && q.topic == t
    {
      var p :| p in order && p.kind == Latest && p.topic == t && p.seqNo == TopicsOf(order)[t];
      SameNumber(order, p, q);
    }
  }

  lemma SameNumber(order: seq<Queued>, p: Queued, q: Queued)
    requires Increasing(order) && p in order && q in order && p.seqNo == q.seqNo
    ensures p == q
  {
    var i :| 0 <= i < |order| && order[i] == p;
    var j :| 0 <= j < |order| && order[j] == q;
    assert i < j || j < i || i == j;
  }

  /** Newly lost critical evidence means that nothing of a lower class is left. */
  lemma LossyMeans(s: Stats, full: seq<Queued>, lim: Limits)
    requires Increasing(full)
    ensures CountVictims(s, Victims(full, lim)).lossy <==>
            s.lossy || exists x :: x in Victims(full, lim) && x.kind == Critical
    ensures CountVictims(s, Victims(full, lim)).lossy && !s.lossy ==>
              forall y :: y in Survivors(full, lim) ==> y.kind != Bulk && y.kind != Latest
  {
    hide Victims, Survivors, BulkCount;
    var v := Victims(full, lim);
    if AnyCritical(v) {
      var i :| 0 <= i < |v| && v[i].kind == Critical;
      CriticalGoesLast(full, lim, v[i]);
    }
  }

  /** An entry of no stated class is evidence: it takes out no other version of its topic, and is
      given up only once no bulk entry and no latest value is left. A stated class stands. */
  lemma UnstatedIsEvidence(order: seq<Queued>, latest: map<string, nat>, e: Entry, next: nat, size: nat, lim: Limits)
    requires Increasing(order) && Numbered(order, next)
    ensures var q := IndexOf(Stamped(e, next), size);
            var full := Appended(order, latest, q);
            && q.seqNo == next && q.topic == e.topic && q.at == e.at && q.size == size
            && (e.kind != Other("") ==> q.kind == e.kind)
            && (e.kind == Other("") ==>
                  && full == order + [q]
                  && (q in Victims(full, lim) ==>
                        forall y :: y in Survivors(full, lim) ==> y.kind != Bulk && y.kind != Latest)
                  && (forall y :: y in full && y.kind.Other? ==> y in Survivors(full, lim)))
  {
    hide Victims, Survivors;
    if e.kind == Other("") {
      var q := IndexOf(Stamped(e, next), size);
      SacrificeByClass(order + [q], lim);
      if q in Victims(order + [q], lim) { CriticalGoesLast(order + [q], lim, q); }
    }
  }

  /** Victims are counted by class. */
  lemma VictimsCounted(s: Stats, v: seq<Queued>)
    ensures var t := CountVictims(s, v);
            && t.droppedBulk == s.droppedBulk + |set i | 0 <= i < |v| && v[i].kind == Bulk|
            && t.droppedOther == s.droppedOther + |set i | 0 <= i < |v| && v[i].kind != Bulk|
  {
    hide BulkCount;
    var bulk, others := (set i | 0 <= i < |v| && v[i].kind == Bulk), (set i | 0 <= i < |v| && v[i].kind != Bulk);
    BulkIs(v, bulk, others);
  }

  lemma {:induction false} BulkIs(v: seq<Queued>, bulk: set<int>, others: set<int>)
    requires forall i :: i in bulk <==> 0 <= i < |v| && v[i].kind == Bulk
    requires forall i :: i in others <==> 0 <= i < |v| && v[i].kind != Bulk
    ensures |bulk| == BulkCount(v) && |others| == |v| - BulkCount(v)
    decreases |v|
  {
    if |v| > 0 {
      var n := |v| - 1;
      BulkIs(v[..n], bulk - {n}, others - {n});
      assert v == v[..n] + [v[n]];
      BulkCountAppend(v[..n], v[n]);
      hide BulkCount;
      assert n in bulk <==> n !in others;
    } else {
      assert forall i :: i !in bulk && i !in others;
      assert bulk == {} && others == {};
    }
  }

  /** The topic map names an entry that is no longer queued. */
  predicate StaleTopic(order: seq<Queued>, latest: map<string, nat>, q: Queued) {
    q.kind == Latest && q.topic in latest && Find(order, latest[q.topic]) == |order|
  }

  lemma AppendedLength(order: seq<Queued>, latest: map<string, nat>, next: nat, q: Queued)
    requires Increasing(order) && Numbered(order, next) && TopicsBelow(latest, next)
    ensures |Appended(order, latest, q)| == |order| + 1
              - (if q.kind == Latest && q.topic in latest && !StaleTopic(order, latest, q) then 1 else 0)
  {
  }

  /** The store writes of one enqueue. */
  function Batch(order: seq<Queued>, latest: map<string, nat>, e: Entry, size: nat, lim: Limits): seq<Op> {
    FirstOps(latest, e, size) + Deletions(Victims(Appended(order, latest, IndexOf(e, size)), lim))
  }

  lemma AppendNumbered(order: seq<Queued>, next: nat, q: Queued)
    requires Increasing(order) && Numbered(order, next) && q.seqNo == next < TWO_TO_64
    ensures Increasing(order + [q]) && Numbered(order + [q], next + 1)
  {
    var full := order + [q];
    assert forall k :: 0 <= k < |order| ==> full[k] == order[k] && order[k] in order;
  }

  lemma WithoutDrops(order: seq<Queued>, s: nat)
    requires Increasing(order)
    ensures forall x :: x in Without(order, s) ==> x in order && x.seqNo != s
    ensures |Without(order, s)| >= |order| - 1
  {
    var i := Find(order, s);
    if i < |order| {
      DropAtIncreasing(order, i);
      forall x | x in DropAt(order, i)
        ensures x.seqNo != s
      {
        DistinctNumbers(order, x, i);
      }
    }
  }

  /** Victims and survivors make up the whole order. */
  lemma EvictionAccounts(full: seq<Queued>, lim: Limits)
    requires Increasing(full)
    ensures |Survivors(full, lim)| + |Victims(full, lim)| == |full|
  {
    EvictionExact(full, lim);
  }

  lemma DropNumbered(order: seq<Queued>, next: nat, i: nat)
    requires Increasing(order) && Numbered(order, next) && i < |order|
    ensures Increasing(DropAt(order, i)) && Numbered(DropAt(order, i), next)
  {
    DropAtIncreasing(order, i);
  }

  lemma {:induction false} DeletionsAgree(store: Store, order: seq<Queued>, next: nat, lim: Limits, batch: seq<Op>)
    requires Agrees(Apply(store, batch), order) && Increasing(order) && Numbered(order, next)
    ensures Agrees(Apply(store, batch + Deletions(Victims(order, lim))), Survivors(order, lim))
    decreases |order|
  {
    hide Agrees, QueueKey, NextVictim, Over, Increasing, Numbered, DropAt, Apply;
    var i := NextVictim(order);
    var v := Victims(order, lim);
    if Over(order, lim) && i < |order| {
      var d, op := DropAt(order, i), Delete(QueueKey(order[i].seqNo));
      DeleteAgrees(Apply(store, batch), order, next, i);
      ApplyAppend(store, batch, op);
      DropNumbered(order, next, i);
      DeletionsAgree(store, d, next, lim, batch + [op]);
      assert Deletions(v) == [op] + Deletions(Victims(d, lim));
      assert batch + ([op] + Deletions(Victims(d, lim))) == batch + [op] + Deletions(Victims(d, lim));
    } else {
      assert batch + Deletions(v) == batch;
    }
  }

  /** The whole batch of one enqueue leaves store and index in step. */
  lemma BatchAgrees(store: Store, order: seq<Queued>, next: nat, latest: map<string, nat>, e: Entry, size: nat,
                    full: seq<Queued>, lim: Limits)
    requires Agrees(store, order) && Increasing(order) && Numbered(order, next)
    requires TopicsBelow(latest, next) && e.seqNo == next < TWO_TO_64
             && full == Appended(order, latest, IndexOf(e, size))
    ensures Agrees(Apply(store, FirstOps(latest, e, size) + Deletions(Victims(full, lim))), Survivors(full, lim))
  {
    hide Agrees, QueueKey, Increasing, Numbered, TopicsBelow, Without, Survivors, Victims, Appended, FirstOps, Apply;
    hide Deletions;
    AppendKeepsIndex(order, latest, next, IndexOf(e, size));
    FirstOpsAgree(store, order, next, latest, e, size);
    DeletionsAgree(store, full, next + 1, lim, FirstOps(latest, e, size));
  }

  /** So do the put and the coalescing delete. */
  lemma FirstOpsAgree(store: Store, order: seq<Queued>, next: nat, latest: map<string, nat>, e: Entry, size: nat)
    requires Agrees(store, order) && Increasing(order) && Numbered(order, next)
    requires TopicsBelow(latest, next) && e.seqNo == next < TWO_TO_64
    ensures Agrees(Apply(store, FirstOps(latest, e, size)), Appended(order, latest, IndexOf(e, size)))
  {
    hide Agrees, QueueKey, Increasing, Numbered, Without, Apply;
    var q := IndexOf(e, size);
    var put := Put(QueueKey(next), Encoded(e, size));
    PutAgrees(store, order, next, e, size);
    OneOp(store, put);
    if q.kind == Latest && q.topic in latest {
      var prev := latest[q.topic];
      AppendNumbered(order, next, q);
      DeleteWithoutAgrees(Apply(store, [put]), order + [q], next + 1, prev);
      ApplyAppend(store, [put], Delete(QueueKey(prev)));
      WithoutAppend(order, q, prev);
      assert [put] + [Delete(QueueKey(prev))] == [put, Delete(QueueKey(prev))];
    }
  }

  /** The put, and the deletion of a coalesced predecessor. */
  function FirstOps(latest: map<string, nat>, e: Entry, size: nat): seq<Op> {
    var put := Put(QueueKey(e.seqNo), Encoded(e, size));
    if e.kind == Latest && e.topic in latest then [put, Delete(QueueKey(latest[e.topic]))] else [put]
  }

  lemma WithoutAppend(order: seq<Queued>, q: Queued, s: nat)
    requires q.seqNo != s
    ensures Without(order + [q], s) == Without(order, s) + [q]
  {
    var i, j := Find(order, s), Find(order + [q], s);
    assert forall k :: 0 <= k < |order| ==> (order + [q])[k] == order[k];
    if i < |order| {
      assert j == i;
      assert DropAt(order + [q], i) == DropAt(order, i) + [q];
    }
  }

  /** The entries behind part of the index. */
  function Entries(store: Store, order: seq<Queued>): seq<Entry> {
    if |order| == 0 then []
    else
      var k := QueueKey(order[|order| - 1].seqNo);
      Entries(store, order[..|order| - 1]) + (if k in store && store[k].Encoded? then [store[k].e] else [])
  }

  lemma NoEntries(store: Store)
    ensures Entries(store, []) == []
  {
  }

  lemma EntriesOne(store: Store, order: seq<Queued>, j: nat)
    requires j < |order|
    ensures var k := QueueKey(order[j].seqNo);
            Entries(store, order[..j + 1]) ==
            if k in store && store[k].Encoded? then Entries(store, order[..j]) + [store[k].e]
                else Entries(store, order[..j])
  {
    hide QueueKey;
    assert order[..j + 1][..j] == order[..j];
  }

  lemma WithoutLength(order: seq<Queued>, s: nat)
    ensures |Without(order, s)| == |order| - (if Find(order, s) == |order| then 0 else 1)
  {
  }

  /** A store in step yields one entry per index entry, in order. */
  lemma {:induction false} EntriesInStep(store: Store, order: seq<Queued>)
    requires forall q :: q in order ==> HasRecord(store, q)
    ensures |Entries(store, order)| == |order|
    ensures forall i :: 0 <= i < |order| ==>
              && HasRecord(store, order[i])
              && Entries(store, order)[i] == store[QueueKey(order[i].seqNo)].e
              && Entries(store, order)[i].seqNo == order[i].seqNo
    decreases |order|
  {
    hide QueueKey;
    if |order| > 0 {
      var n := |order| - 1;
      assert order[n] in order && forall q :: q in order[..n] ==> q in order;
      EntriesInStep(store, order[..n]);
    }
  }

  /** Reopening the store gives an exact index of its readable records, with the counter just
      above them; if the queue was in step, the same order, depth and bytes. There is one
      queued version of each topic exactly when the store holds one. */
  method Reopen(q: Queue, rows: seq<Row>) returns (r: Queue)
    requires q.Valid() && Filed(q.store, q.next) && IsScan(q.store, rows)
    ensures fresh(r) && r.Valid() && r.store == q.store && r.sent == q.sent && r.lim == q.lim
    ensures r.order == Restored(rows) && r.latest == TopicsOf(r.order) && r.next == NextAfter(r.order) <= q.next
    ensures Filed(r.store, r.next) && (NoneTorn(q.store) ==> r.InStep())
    ensures forall x :: x in r.order ==> x.seqNo < r.next
    ensures DistinctTopics(r.order) <==> r.OnePerTopic()
    ensures q.InStep() ==> r.InStep() && r.order == q.order && r.depth == q.depth && r.bytes == q.bytes
  {
    hide Bytes, Agrees, QueueKey, IsScan, Filed, NextAfter, Restored, TopicsOf, LatestOk, DistinctTopics;
    hide Increasing, NoneTorn, HasRecord, TopicsName;
    ReopenedIndex(q.store, q.next, rows);
    r := new Queue(q.lim, q.store, q.sent, rows);
    NextIsAbove(r.order);
    FiledBelow(q.store, q.next, r.order);
    TopicsOfOk(r.order);
    TopicsOfName(r.order);
    if r.OnePerTopic() { LatestIsDistinct(r.latest, r.order); }
    if q.InStep() {
      ReopenRestores(q.store, q.order, q.next, rows);
      InStepIsFiled(q.store, q.order, q.next);
    }
  }

  lemma FiledBelow(store: Store, next: nat, order: seq<Queued>)
    requires Filed(store, next) && forall y :: y in order <==> HasRecord(store, y)
    ensures Filed(store, NextAfter(order))
  {
    hide QueueKey, NextAfter;
    NextIsAbove(order);
    forall k | k in store && store[k].Encoded?
      ensures store[k].e.seqNo < NextAfter(order)
    {
      assert HasRecord(store, IndexOf(store[k].e, store[k].size));
    }
  }

  lemma LatestIsDistinct(latest: map<string, nat>, order: seq<Queued>)
    requires LatestOk(latest, order) && Increasing(order)
    ensures DistinctTopics(order)
  {
    forall i, j | 0 <= i < j < |order| && order[i].kind == Latest && order[j].kind == Latest
      ensures order[i].topic != order[j].topic
    {
      if order[i].topic == order[j].topic {
        OneLatestPerTopic(latest, order, i, j);
      }
    }
  }

  lemma FindUnique(order: seq<Queued>, s: nat)
    ensures forall i :: 0 <= i < |order| && order[i].seqNo == s && (forall k :: 0 <= k < i ==> order[k].seqNo != s) ==>
              Find(order, s) == i
  {
  }

  // ----- a write that fails -----

  lemma RoomForAll(order: seq<Queued>, lim: Limits)
    requires !Over(order, lim)
    ensures Survivors(order, lim) == order && Victims(order, lim) == []
  {
  }

  function Tick(topic: string, at: int): Entry { Entry(0, topic, "", Latest, at, "") }

  /** Version `n` of a topic, as stored and as indexed. */
  function Version(topic: string, at: int, n: nat): Entry { Tick(topic, at).(seqNo := n) }

  function VersionIndex(topic: string, at: int, n: nat): Queued { IndexOf(Version(topic, at, n), 1) }

  /** The index holds the last of the `n` versions offered, and no other entry. */
  predicate HoldsLast(order: seq<Queued>, latest: map<string, nat>, topic: string, at: int, n: nat) {
    if n == 0 then order == [] && latest == map[]
    else order == [VersionIndex(topic, at, n - 1)] && latest == map[topic := n - 1]
  }

  lemma NextVersion(order: seq<Queued>, latest: map<string, nat>, topic: string, at: int, n: nat)
    requires HoldsLast(order, latest, topic, at, n)
    ensures var q := VersionIndex(topic, at, n);
            && Appended(order, latest, q) == [q] && Claimed(latest, q) == map[topic := n]
            && Stamped(Tick(topic, at), n) == Version(topic, at, n)
            && !Over([q], ROOM) && Deletions([]) == []
  {
    var q := VersionIndex(topic, at, n);
    assert [q][..0] == [] && Bytes([q][..0]) == 0;
    if n > 0 { assert Without(order, n - 1) == []; }
  }

  const ROOM := Limits(10, 100)

  method OfferVersion(q: Queue, topic: string, at: int, written: bool)
    requires q.Valid() && q.lim == ROOM && q.next < TWO_TO_64 && HoldsLast(q.order, q.latest, topic, at, q.next)
    modifies q
    ensures q.Valid() && q.next == old(q.next) + 1 && HoldsLast(q.order, q.latest, topic, at, q.next)
    ensures q.store ==
            if written then Apply(old(q.store), FirstOps(old(q.latest), Version(topic, at, old(q.next)), 1))
            else old(q.store)
  {
    hide Over, Survivors, Victims, Appended, Claimed, Stamped, Deletions, FirstOps, Apply, Agrees, Tick, VersionIndex;
    hide Bytes, LatestOk, Increasing, Numbered, TopicsBelow;
    ghost var n, x := q.next, VersionIndex(topic, at, q.next);
    NextVersion(q.order, q.latest, topic, at, n);
    IndexOfVersion(topic, at, n);
    RoomForAll([x], ROOM);
    NothingAdded(FirstOps(q.latest, Version(topic, at, n), 1));
    var _ := q.Enqueue(Tick(topic, at), Size(1), written);
  }

  lemma IndexOfVersion(topic: string, at: int, n: nat)
    ensures IndexOf(Version(topic, at, n), 1) == VersionIndex(topic, at, n)
  {
  }

  /** Two versions of one topic in the store, though the index has let go of the first. */
  lemma TwoVersions(topic: string, at: int)
    ensures var first := Apply(map[], FirstOps(map[], Version(topic, at, 0), 1));
            var store := Apply(first, FirstOps(map[topic := 1], Version(topic, at, 2), 1));
            && Agrees(store, [VersionIndex(topic, at, 0), VersionIndex(topic, at, 2)])
  {
    hide QueueKey, Agrees, Version, Apply;
    var a, c := Version(topic, at, 0), Version(topic, at, 2);
    var x, z := VersionIndex(topic, at, 0), VersionIndex(topic, at, 2);
    VersionNumbers(topic, at);
    NothingStored();
    PutAgrees(map[], [], 0, a, 1);
    assert [] + [x] == [x] && [x] + [z] == [x, z];
    var first := Apply(map[], FirstOps(map[], a, 1));
    OneOp(map[], Put(QueueKey(0), Encoded(a, 1)));
    PutAgrees(first, [x], 2, c, 1);
    OneOp(first, Put(QueueKey(2), Encoded(c, 1)));
    ApplyAppend(first, [Put(QueueKey(2), Encoded(c, 1))], Delete(QueueKey(1)));
    assert [Put(QueueKey(2), Encoded(c, 1))] + [Delete(QueueKey(1))] ==
        [Put(QueueKey(2), Encoded(c, 1)), Delete(QueueKey(1))];
    DeleteWithoutAgrees(Apply(first, [Put(QueueKey(2), Encoded(c, 1))]), [x, z], 3, 1);
  }

  lemma NothingStored()
    ensures Agrees(map[], [])
  {
  }

  lemma VersionNumbers(topic: string, at: int)
    ensures var x, z := VersionIndex(topic, at, 0), VersionIndex(topic, at, 2);
            && Version(topic, at, 0).seqNo == 0 && Version(topic, at, 2).seqNo == 2
            && Version(topic, at, 2).kind == Latest && Version(topic, at, 0).kind == Latest
            && Version(topic, at, 2).topic == topic
            && Increasing([x, z]) && Numbered([x], 2) && Numbered([x, z], 3) && Without([x, z], 1) == [x, z]
            && !DistinctTopics([x, z]) && Increasing([z]) && Numbered([z], 3) && [z] != [x, z]
  {
    var s := [VersionIndex(topic, at, 0), VersionIndex(topic, at, 2)];
    assert s[0].topic == s[1].topic;
  }

  lemma OneOp(store: Store, op: Op)
    ensures Apply(store, [op]) == ApplyOp(store, op)
  {
    assert [op][..0] == [];
  }

  /** Three versions of one topic are offered, and the write of the second fails. The
      first stays in the store, though the index no longer knows it, and the third does
      not delete it: the buffer is out of step, and reopening it finds two entries of
      the topic. */
  method FailedWriteLeavesTwo(topic: string, at: int) returns (q: Queue)
    ensures fresh(q) && q.Valid() && !q.InStep() && q.order == [VersionIndex(topic, at, 2)]
    ensures forall rows :: IsScan(q.store, rows) ==>
              Restored(rows) == [VersionIndex(topic, at, 0), VersionIndex(topic, at, 2)]
                && !DistinctTopics(Restored(rows))
  {
    hide QueueKey, IsScan, Agrees, FirstOps, Apply, VersionIndex, DistinctTopics, Increasing, Numbered;
    EmptyScan();
    VersionNumbers(topic, at);
    q := new Queue(ROOM, map[], {}, []);
    OfferVersion(q, topic, at, true);
    OfferVersion(q, topic, at, false);
    OfferVersion(q, topic, at, true);
    TwoVersions(topic, at);
    ghost var both := [VersionIndex(topic, at, 0), VersionIndex(topic, at, 2)];
    if q.InStep() {
      AgreesUnique(q.store, q.order, both, 3);
      assert false;
    }
    forall rows | IsScan(q.store, rows)
      ensures Restored(rows) == both && !DistinctTopics(Restored(rows))
    {
      ReopenRestores(q.store, both, 3, rows);
    }
  }

  lemma EmptyScan()
    ensures IsScan(map[], []) && Restored([]) == [] && TopicsOf([]) == map[] && NextAfter([]) == 0
    ensures Increasing([]) && Numbered([], 0)
  {
  }
}
