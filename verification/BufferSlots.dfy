/** The index seen together with the records behind it. A write that failed leaves an
    indexed entry with no record: a blank, which a flush cannot send and does not remove. */
module BufferSlots {
  import opened Common
  import opened QueueKeys
  import opened UpstreamQueue
  import opened BufferStore
  import opened Buffer

  datatype Slot = Slot(q: Queued, e: Option<Entry>)

  function SlotAt(store: Store, q: Queued): Slot {
    var k := QueueKey(q.seqNo);
    Slot(q, if k in store && store[k].Encoded? then Some(store[k].e) else None)
  }

  function Slots(store: Store, order: seq<Queued>): (s: seq<Slot>)
    ensures |s| == |order|
  {
    seq(|order|, i requires 0 <= i < |order| => SlotAt(store, order[i]))
  }

  /** The entries that can be read, in order. */
  function Filled(s: seq<Slot>): (es: seq<Entry>)
    ensures |es| <= |s|
  {
    if |s| == 0 then [] else (if s[0].e.Some? then [s[0].e.value] else []) + Filled(s[1..])
  }

  /** What remains once the first `k` readable entries are gone. */
  function Rest(s: seq<Slot>, k: nat): seq<Slot> {
    if k == 0 || |s| == 0 then s
    else if s[0].e.Some? then Rest(s[1..], k - 1)
    else [s[0]] + Rest(s[1..], k)
  }

  /** How many readable entries have fewer than `room` blanks before them. */
  function Within(s: seq<Slot>, room: nat): nat {
    if |s| == 0 || room == 0 then 0
    else if s[0].e.Some? then 1 + Within(s[1..], room)
    else Within(s[1..], room - 1)
  }

  // ----- entries and slots -----

  lemma {:induction false} FilledSplit(s: seq<Slot>, n: nat)
    requires n <= |s|
    ensures Filled(s) == Filled(s[..n]) + Filled(s[n..])
    decreases n
  {
    if n == 0 {
      assert s[..0] == [] && s[0..] == s;
      NothingAdded(Filled(s));
    } else {
      FilledSplit(s[1..], n - 1);
      assert s[..n][1..] == s[1..][..n - 1] && s[1..][n - 1..] == s[n..] && s[..n][0] == s[0];
      hide Filled;
      var head := if s[0].e.Some? then [s[0].e.value] else [];
      FilledHead(s);
      FilledHead(s[..n]);
      Associative(head, Filled(s[..n][1..]), Filled(s[n..]));
    }
  }

  lemma FilledHead(s: seq<Slot>)
    requires |s| > 0
    ensures Filled(s) == (if s[0].e.Some? then [s[0].e.value] else []) + Filled(s[1..])
  {
  }

  /** What peeking finds is what the slots hold. */
  lemma {:induction false} EntriesAreFilled(store: Store, order: seq<Queued>)
    ensures Entries(store, order) == Filled(Slots(store, order))
    decreases |order|
  {
    hide QueueKey;
    if |order| > 0 {
      var n := |order| - 1;
      var s := Slots(store, order);
      EntriesAreFilled(store, order[..n]);
      assert s[..n] == Slots(store, order[..n]) && s[n..] == [SlotAt(store, order[n])];
      FilledSplit(s, n);
      assert [SlotAt(store, order[n])][1..] == [];
      var last := [SlotAt(store, order[n])];
      FilledHead(last);
      NothingAdded(if last[0].e.Some? then [last[0].e.value] else []);
    }
  }

  lemma PrefixOfSlots(store: Store, order: seq<Queued>, n: nat)
    requires n <= |order|
    ensures Slots(store, order[..n]) == Slots(store, order)[..n]
  {
    hide QueueKey;
  }

  // ----- order -----

  predicate InOrder(entries: seq<Entry>) {
    forall i, j :: 0 <= i < j < |entries| ==> entries[i].seqNo < entries[j].seqNo
  }

  /** Slots carry their own entries, in increasing order. */
  predicate Tidy(s: seq<Slot>) {
    && (forall i, j :: 0 <= i < j < |s| ==> s[i].q.seqNo < s[j].q.seqNo)
    && (forall i :: 0 <= i < |s| && s[i].e.Some? ==> s[i].e.value.seqNo == s[i].q.seqNo)
  }

  lemma SlotsAreTidy(store: Store, order: seq<Queued>, next: nat)
    requires Increasing(order) && Numbered(order, next) && Filed(store, next)
    ensures Tidy(Slots(store, order))
  {
    hide QueueKey;
    forall i | 0 <= i < |order| && SlotAt(store, order[i]).e.Some?
      ensures SlotAt(store, order[i]).e.value.seqNo == order[i].seqNo
    {
      assert order[i] in order;
      KeyOrder(order[i].seqNo, SlotAt(store, order[i]).e.value.seqNo);
    }
  }

  lemma {:induction false} FilledInOrder(s: seq<Slot>)
    requires Tidy(s)
    ensures InOrder(Filled(s))
    ensures forall e :: e in Filled(s) ==> exists i :: 0 <= i < |s| && s[i].e == Some(e)
    decreases |s|
  {
    if |s| > 0 {
      FilledInOrder(s[1..]);
      forall e | e in Filled(s[1..])
        ensures exists i :: 1 <= i < |s| && s[i].e == Some(e)
      {
        var i :| 0 <= i < |s[1..]| && s[1..][i].e == Some(e);
        assert s[i + 1].e == Some(e);
      }
      forall j | 0 <= j < |Filled(s[1..])|
        ensures Filled(s[1..])[j].seqNo > s[0].q.seqNo
      {
        assert Filled(s[1..])[j] in Filled(s[1..]);
      }
      if s[0].e.Some? { assert s[0].e == Some(s[0].e.value); }
    }
  }

  lemma {:induction false} FilledMember(s: seq<Slot>, i: nat)
    requires i < |s| && s[i].e.Some?
    ensures s[i].e.value in Filled(s)
    decreases i
  {
    if i > 0 {
      FilledMember(s[1..], i - 1);
      assert s[1..][i - 1] == s[i];
    }
  }

  // ----- taking the first readable entry out -----

  lemma {:induction false} FirstFilled(s: seq<Slot>) returns (p: nat)
    requires |Filled(s)| > 0
    ensures p < |s| && s[p].e == Some(Filled(s)[0]) && Rest(s, 1) == s[..p] + s[p + 1..]
    decreases |s|
  {
    hide Filled, Rest;
    FilledHead(s);
    RestHead(s);
    if s[0].e.Some? {
      p := 0;
      NothingAdded(s[1..]);
    } else {
      NothingAdded(Filled(s[1..]));
      var q := FirstFilled(s[1..]);
      p := q + 1;
      CutBehind(s, q);
    }
  }

  lemma RestHead(s: seq<Slot>)
    requires |s| > 0
    ensures Rest(s, 1) == if s[0].e.Some? then s[1..] else [s[0]] + Rest(s[1..], 1)
  {
  }

  lemma CutBehind(s: seq<Slot>, q: nat)
    requires q + 1 < |s|
    ensures [s[0]] + (s[1..][..q] + s[1..][q + 1..]) == s[..q + 1] + s[q + 2..]
  {
  }

  /** Removing the first readable entry from index and store leaves the other slots alone. */
  lemma RemoveFirst(store: Store, order: seq<Queued>, next: nat)
    requires Increasing(order) && Numbered(order, next) && Filed(store, next)
    requires |Filled(Slots(store, order))| > 0
    ensures var n := Filled(Slots(store, order))[0].seqNo;
            && n < TWO_TO_64
            && Slots(store - {QueueKey(n)}, Without(order, n)) == Rest(Slots(store, order), 1)
            && Slots(store, Without(order, n)) == Rest(Slots(store, order), 1)
            && Filed(store - {QueueKey(n)}, next)
  {
    hide QueueKey, Filled, Rest, DropAt, Increasing, Slots;
    var s := Slots(store, order);
    SlotsAreTidy(store, order, next);
    var p := FirstFilled(s);
    SlotsDropAt(store, order, next, p);
    assert order[p] in order;
    FindAt(order, p);
  }

  lemma SlotsDropAt(store: Store, order: seq<Queued>, next: nat, p: nat)
    requires Increasing(order) && Numbered(order, next) && p < |order|
    ensures var s := Slots(store, order);
            && s[p].q == order[p]
            && Slots(store - {QueueKey(order[p].seqNo)}, DropAt(order, p)) == s[..p] + s[p + 1..]
            && Slots(store, DropAt(order, p)) == s[..p] + s[p + 1..]
  {
    hide QueueKey;
    var r, k := DropAt(order, p), QueueKey(order[p].seqNo);
    forall i | 0 <= i < |r|
      ensures SlotAt(store - {k}, r[i]) == SlotAt(store, r[i])
    {
      var j := if i < p then i else i + 1;
      assert r[i] == order[j] && order[j] in order && order[p] in order;
      KeyOrder(order[j].seqNo, order[p].seqNo);
    }
    assert Slots(store - {k}, r) == Slots(store, r);
  }

  lemma FindAt(order: seq<Queued>, p: nat)
    requires Increasing(order) && p < |order|
    ensures Find(order, order[p].seqNo) == p
  {
  }

  lemma {:induction false} RestOne(s: seq<Slot>, k: nat)
    requires k < |Filled(s)|
    ensures Rest(Rest(s, k), 1) == Rest(s, k + 1)
    decreases |s|
  {
    if k > 0 { RestOne(s[1..], if s[0].e.Some? then k - 1 else k); }
    if k > 0 && s[0].e.None? {
      var t := Rest(s[1..], k);
      assert Rest(s, k) == [s[0]] + t && ([s[0]] + t)[1..] == t;
    }
  }

  lemma {:induction false} FilledRest(s: seq<Slot>, k: nat)
    requires k <= |Filled(s)|
    ensures Filled(Rest(s, k)) == Filled(s)[k..]
    decreases |s|
  {
    if k > 0 {
      FilledRest(s[1..], if s[0].e.Some? then k - 1 else k);
      if s[0].e.None? {
        var t := Rest(s[1..], k);
        assert ([s[0]] + t)[1..] == t;
      }
    }
  }

  // ----- how far a flush can get -----

  lemma {:induction false} MoreRoom(s: seq<Slot>, room: nat)
    ensures Within(s, room) <= Within(s, room + 1) <= |Filled(s)|
    decreases |s|
  {
    if |s| > 0 {
      MoreRoom(s[1..], room);
      if room > 0 { MoreRoom(s[1..], room - 1); }
    }
  }

  /** Taking out entries within reach brings no other within reach. */
  lemma {:induction false} WithinRest(s: seq<Slot>, k: nat, room: nat)
    requires k <= Within(s, room)
    ensures Within(Rest(s, k), room) == Within(s, room) - k
    decreases |s|
  {
    if k > 0 {
      WithinRest(s[1..], if s[0].e.Some? then k - 1 else k, if s[0].e.Some? then room else room - 1);
      if s[0].e.None? {
        var t := Rest(s[1..], k);
        assert ([s[0]] + t)[1..] == t;
      }
    }
  }

  /** A peek at the first `n` slots finds only entries with fewer than `n` blanks before
      them, and nothing exactly when there are none. */
  lemma {:induction false} PeekWithin(s: seq<Slot>, n: nat)
    ensures var size := if n < |s| then n else |s|;
            && |Filled(s[..size])| <= Within(s, n) <= |Filled(s)|
            && (Filled(s[..size]) == [] <==> Within(s, n) == 0)
    decreases |s|
  {
    MoreRoom(s, n);
    if |s| > 0 && n > 0 {
      var size := if n < |s| then n else |s|;
      assert s[..size][1..] == s[1..][..size - 1] && s[..size][0] == s[0];
      PeekWithin(s[1..], n - 1);
      MoreRoom(s[1..], n - 1);
    }
  }

  /** Nothing is within reach exactly when the first `n` slots are blank. */
  lemma {:induction false} StalledExactly(s: seq<Slot>, n: nat)
    ensures Within(s, n) == 0 <==> forall i :: 0 <= i < |s| && i < n ==> s[i].e.None?
    decreases |s|
  {
    if |s| > 0 && n > 0 {
      StalledExactly(s[1..], n - 1);
      if s[0].e.None? {
        if Within(s, n) == 0 {
          forall i | 0 <= i < |s| && i < n
            ensures s[i].e.None?
          {
            if i > 0 { assert s[1..][i - 1].e.None?; }
          }
        } else {
          var i :| 0 <= i < |s[1..]| && i < n - 1 && !s[1..][i].e.None?;
          assert s[i + 1] == s[1..][i];
        }
      }
    }
  }

  /** Blanks before a position. */
  function BlanksBefore(s: seq<Slot>, i: nat): nat
    requires i <= |s|
  {
    if i == 0 then 0 else BlanksBefore(s, i - 1) + (if s[i - 1].e.None? then 1 else 0)
  }

  lemma {:induction false} BlanksShift(s: seq<Slot>, i: nat)
    requires 0 < i <= |s|
    ensures BlanksBefore(s, i) == (if s[0].e.None? then 1 else 0) + BlanksBefore(s[1..], i - 1)
    decreases i
  {
    if i > 1 { BlanksShift(s, i - 1); }
  }

  /** What remains once everything within reach is gone is exactly what had `room` blanks
      before it: an entry read from slot `i` is among the first `Within` entries if and
      only if fewer than `room` blanks precede it. */
  lemma {:induction false} WithinMeans(s: seq<Slot>, i: nat, room: nat)
    requires Tidy(s) && i < |s| && s[i].e.Some?
    ensures Within(s, room) <= |Filled(s)|
    ensures s[i].e.value in Filled(s)[..Within(s, room)] <==> BlanksBefore(s, i) < room
    decreases |s|
  {
    PeekWithin(s, room);
    if room > 0 {
      var t, head := s[1..], s[0];
      var less := if head.e.Some? then room else room - 1;
      PeekWithin(t, less);
      assert Tidy(t) by { assert forall j :: 0 <= j < |t| ==> t[j] == s[j + 1]; }
      if i > 0 {
        BlanksShift(s, i);
        WithinMeans(t, i - 1, less);
        if head.e.Some? {
          assert Filled(s)[..Within(s, room)] == [head.e.value] + Filled(t)[..Within(t, less)];
          assert s[i].q.seqNo > s[0].q.seqNo;
        } else {
          NothingAdded(Filled(t));
        }
      } else {
        assert Filled(s)[0] == s[0].e.value;
      }
    }
  }

  // ----- with store and index in step there are no blanks -----

  predicate NoBlanks(s: seq<Slot>) { forall i :: 0 <= i < |s| ==> s[i].e.Some? }

  lemma InStepHasNoBlanks(store: Store, order: seq<Queued>)
    requires Agrees(store, order)
    ensures NoBlanks(Slots(store, order))
  {
    hide QueueKey;
    forall i | 0 <= i < |order|
      ensures SlotAt(store, order[i]).e.Some?
    {
      assert HasRecord(store, order[i]);
    }
  }

  lemma {:induction false} NoBlanksAllWithin(s: seq<Slot>, room: nat, k: nat)
    requires NoBlanks(s) && room > 0 && k <= |s|
    ensures Within(s, room) == |Filled(s)| == |s| && Rest(s, k) == s[k..]
    decreases |s|
  {
    if |s| > 0 { NoBlanksAllWithin(s[1..], room, if k > 0 then k - 1 else 0); }
  }

  // ----- what an enqueue does to the slots -----

  /** The numbers an enqueue takes out: the topic's previous version and the victims. */
  function Gone(order: seq<Queued>, latest: map<string, nat>, q: Queued, lim: Limits): set<nat> {
    Superseded(latest, q) + set v | v in Victims(Appended(order, latest, q), lim) :: v.seqNo
  }

  function Superseded(latest: map<string, nat>, q: Queued): set<nat> {
    if q.kind == Latest && q.topic in latest then {latest[q.topic]} else {}
  }

  lemma AppendedMembers(order: seq<Queued>, latest: map<string, nat>, next: nat, q: Queued, y: Queued)
    requires Increasing(order) && TopicsBelow(latest, next) && q.seqNo == next
    ensures y in Appended(order, latest, q) <==> (y in order || y == q) && y.seqNo !in Superseded(latest, q)
  {
    hide Without;
    if q.kind == Latest && q.topic in latest { WithoutMembers(order, latest[q.topic], y); }
  }

  /** The index keeps exactly the old entries and the new one, less the numbers taken out. */
  lemma SurvivorsExactly(order: seq<Queued>, latest: map<string, nat>, next: nat, q: Queued, lim: Limits, y: Queued)
    requires Increasing(order) && Numbered(order, next) && TopicsBelow(latest, next)
    requires q.seqNo == next < TWO_TO_64
    ensures y in Survivors(Appended(order, latest, q), lim) <==>
            (y in order || y == q) && y.seqNo !in Gone(order, latest, q, lim)
  {
    hide Survivors, Victims, Appended, Keep, Numbered, TopicsBelow, Superseded;
    var full := Appended(order, latest, q);
    var v := Victims(full, lim);
    AppendKeepsIndex(order, latest, next, q);
    AppendedMembers(order, latest, next, q, y);
    EvictionExact(full, lim);
    KeptExactly(full, v, y);
    if y in full && y !in v {
      forall x | x in v
        ensures x.seqNo != y.seqNo
      {
        var i :| 0 <= i < |full| && full[i] == x;
        DistinctNumbers(full, y, i);
      }
    }
  }

  lemma GoneBelow(order: seq<Queued>, latest: map<string, nat>, next: nat, q: Queued, lim: Limits, n: nat)
    requires Increasing(order) && Numbered(order, next) && TopicsBelow(latest, next)
    requires q.seqNo == next < TWO_TO_64 && n in Gone(order, latest, q, lim)
    ensures n < TWO_TO_64
  {
    hide Survivors, Victims, Appended, Keep;
    AppendKeepsIndex(order, latest, next, q);
    EvictionExact(Appended(order, latest, q), lim);
  }

  lemma BatchOps(order: seq<Queued>, latest: map<string, nat>, e: Entry, size: nat, lim: Limits, i: nat)
    requires i < |Batch(order, latest, e, size, lim)|
    ensures var op := Batch(order, latest, e, size, lim)[i];
            if i == 0 then op == Put(QueueKey(e.seqNo), Encoded(e, size))
            else exists n :: n in Gone(order, latest, IndexOf(e, size), lim) && op == Delete(QueueKey(n))
  {
    hide QueueKey, Victims, Appended;
    var q := IndexOf(e, size);
    var v := Victims(Appended(order, latest, q), lim);
    var first := FirstOps(latest, e, size);
    if i == 1 && |first| == 2 {
      assert latest[q.topic] in Gone(order, latest, q, lim);
    } else if i > 0 {
      assert v[i - |first|].seqNo in Gone(order, latest, q, lim);
    }
  }

  lemma {:induction false} Untouched(store: Store, batch: seq<Op>, k: string)
    requires forall i :: 0 <= i < |batch| ==> batch[i].k != k
    ensures k in Apply(store, batch) <==> k in store
    ensures k in store ==> Apply(store, batch)[k] == store[k]
    decreases |batch|
  {
    if |batch| > 0 { Untouched(store, batch[..|batch| - 1], k); }
  }

  lemma {:induction false} PutStays(store: Store, batch: seq<Op>, k: string, r: Record)
    requires |batch| > 0 && batch[0] == Put(k, r) && forall i :: 0 < i < |batch| ==> batch[i].k != k
    ensures k in Apply(store, batch) && Apply(store, batch)[k] == r
    decreases |batch|
  {
    if |batch| > 1 { PutStays(store, batch[..|batch| - 1], k, r); }
  }

  /** The store after an enqueue, at a number that is not taken out. */
  lemma SlotAfter(store: Store, order: seq<Queued>, latest: map<string, nat>, next: nat, e: Entry, size: nat,
                  lim: Limits, y: Queued)
    requires Increasing(order) && Numbered(order, next) && TopicsBelow(latest, next)
    requires e.seqNo == next < TWO_TO_64 && y.seqNo !in Gone(order, latest, IndexOf(e, size), lim)
    requires y.seqNo < TWO_TO_64
    ensures SlotAt(Apply(store, Batch(order, latest, e, size, lim)), y) ==
            if y.seqNo == next then Slot(y, Some(e)) else SlotAt(store, y)
  {
    hide QueueKey, Apply, Gone, Batch, Increasing, Numbered, TopicsBelow;
    var batch, k := Batch(order, latest, e, size, lim), QueueKey(y.seqNo);
    forall i | 0 <= i < |batch|
      ensures if i == 0 then batch[i] == Put(QueueKey(next), Encoded(e, size)) else batch[i].k != k
    {
      BatchOps(order, latest, e, size, lim, i);
      if i > 0 {
        var n :| n in Gone(order, latest, IndexOf(e, size), lim) && batch[i] == Delete(QueueKey(n));
        GoneBelow(order, latest, next, IndexOf(e, size), lim, n);
        KeyOrder(n, y.seqNo);
      }
    }
    KeyOrder(next, y.seqNo);
    if y.seqNo == next {
      BatchNotEmpty(order, latest, e, size, lim);
      PutStays(store, batch, k, Encoded(e, size));
    } else {
      Untouched(store, batch, k);
    }
  }

  lemma BatchNotEmpty(order: seq<Queued>, latest: map<string, nat>, e: Entry, size: nat, lim: Limits)
    ensures |Batch(order, latest, e, size, lim)| > 0
  {
    hide QueueKey, Victims, Appended;
  }

  lemma HeldAt(store: Store, order: seq<Queued>, next: nat, x: Entry)
    requires Increasing(order) && Numbered(order, next) && Filed(store, next)
    ensures x in Filled(Slots(store, order)) <==>
            exists y :: y in order && y.seqNo == x.seqNo && SlotAt(store, y).e == Some(x)
  {
    hide QueueKey, Filled;
    var s := Slots(store, order);
    SlotsAreTidy(store, order, next);
    FilledInOrder(s);
    if x in Filled(s) {
      var i :| 0 <= i < |s| && s[i].e == Some(x);
      assert order[i] in order && SlotAt(store, order[i]) == s[i];
    }
    if exists y :: y in order && y.seqNo == x.seqNo && SlotAt(store, y).e == Some(x) {
      var y :| y in order && y.seqNo == x.seqNo && SlotAt(store, y).e == Some(x);
      var i :| 0 <= i < |order| && order[i] == y;
      assert s[i] == SlotAt(store, y);
      FilledMember(s, i);
    }
  }

  lemma FiledAfter(store: Store, order: seq<Queued>, latest: map<string, nat>, next: nat, e: Entry, size: nat,
                   lim: Limits)
    requires Filed(store, next) && e.seqNo == next
    ensures Filed(Apply(store, Batch(order, latest, e, size, lim)), next + 1) && Filed(store, next + 1)
  {
    hide QueueKey, Apply, Gone, Batch;
    var batch := Batch(order, latest, e, size, lim);
    var now := Apply(store, batch);
    forall i | 0 <= i < |batch|
      ensures batch[i] == Put(QueueKey(next), Encoded(e, size)) || batch[i].Delete?
    {
      BatchOps(order, latest, e, size, lim, i);
    }
    forall k | k in now && now[k].Encoded?
      ensures k == QueueKey(now[k].e.seqNo) && now[k].e.seqNo < next + 1
    {
      OnlyOnePut(store, batch, QueueKey(next), Encoded(e, size), k);
    }
  }

  /** A batch with one put leaves every other record as it was or deletes it. */
  lemma {:induction false} OnlyOnePut(store: Store, batch: seq<Op>, key: string, r: Record, k: string)
    requires forall i :: 0 <= i < |batch| ==> batch[i] == Put(key, r) || batch[i].Delete?
    requires k in Apply(store, batch)
    ensures if k in store && store[k] == Apply(store, batch)[k] then true else k == key && Apply(store, batch)[k] == r
    decreases |batch|
  {
    if |batch| > 0 && !(batch[|batch| - 1] == Put(key, r) && k == key) {
      OnlyOnePut(store, batch[..|batch| - 1], key, r, k);
    }
  }

  /** The store once the answer to the batch is known. */
  function Written(store: Store, order: seq<Queued>, latest: map<string, nat>, e: Entry, size: nat, lim: Limits,
                   written: bool): Store
  {
    if written then Apply(store, Batch(order, latest, e, size, lim)) else store
  }

  /** What can be read after an enqueue is what could be read before and, if it was written,
      the new entry, less the numbers taken out. */
  lemma HeldAfter(store: Store, order: seq<Queued>, latest: map<string, nat>, next: nat, e: Entry, size: nat,
                  lim: Limits, written: bool, x: Entry)
    requires Increasing(order) && Numbered(order, next) && TopicsBelow(latest, next)
    requires e.seqNo == next < TWO_TO_64 && Filed(store, next)
    ensures var q := IndexOf(e, size);
            var after := Survivors(Appended(order, latest, q), lim);
            x in Filled(Slots(Written(store, order, latest, e, size, lim, written), after)) <==>
            && x.seqNo !in Gone(order, latest, q, lim)
            && (x in Filled(Slots(store, order)) || (written && x == e))
  {
    hide Apply, Gone, Batch, Increasing, Numbered, TopicsBelow, Survivors, Appended, Filled, Slots, SlotAt;
    var q, now := IndexOf(e, size), Written(store, order, latest, e, size, lim, written);
    var after := Survivors(Appended(order, latest, q), lim);
    IndexAfter(order, latest, next, q, lim);
    FiledAfter(store, order, latest, next, e, size, lim);
    HeldAt(store, order, next, x);
    HeldAt(now, after, next + 1, x);
    forall y: Queued | y.seqNo == x.seqNo && x.seqNo !in Gone(order, latest, q, lim) && (y in order || y == q)
      ensures y in order ==> SlotAt(now, y).e == SlotAt(store, y).e
      ensures y == q ==> SlotAt(now, y).e == if written then Some(e) else None
    {
      NumberedBoth(order, next, q, y);
      NewNumber(store, next, q);
      if written { SlotAfter(store, order, latest, next, e, size, lim, y); }
    }
    if x.seqNo !in Gone(order, latest, q, lim) {
      assert forall y: Queued :: y.seqNo == x.seqNo ==> (y in after <==> y in order || y == q);
      if x in Filled(Slots(store, order)) {
        var y :| y in order && y.seqNo == x.seqNo && SlotAt(store, y).e == Some(x);
        assert y in after && SlotAt(now, y).e == Some(x);
      }
      if written && x == e {
        assert q in after && q.seqNo == x.seqNo && SlotAt(now, q).e == Some(x);
      }
    }
  }

  lemma IndexAfter(order: seq<Queued>, latest: map<string, nat>, next: nat, q: Queued, lim: Limits)
    requires Increasing(order) && Numbered(order, next) && TopicsBelow(latest, next)
    requires q.seqNo == next < TWO_TO_64
    ensures var after := Survivors(Appended(order, latest, q), lim);
            && Increasing(after) && Numbered(after, next + 1)
            && forall y :: y in after <==> (y in order || y == q) && y.seqNo !in Gone(order, latest, q, lim)
  {
    hide TopicsBelow, Survivors, Appended, Gone, Increasing;
    var after := Survivors(Appended(order, latest, q), lim);
    forall y
      ensures y in after <==> (y in order || y == q) && y.seqNo !in Gone(order, latest, q, lim)
    {
      SurvivorsExactly(order, latest, next, q, lim, y);
    }
    AppendKeepsIndex(order, latest, next, q);
    SurvivorsIncreasing(Appended(order, latest, q), lim);
  }

  lemma {:induction false} SurvivorsIncreasing(order: seq<Queued>, lim: Limits)
    requires Increasing(order)
    ensures Increasing(Survivors(order, lim))
    decreases |order|
  {
    hide Increasing, NextVictim, Over;
    var i := NextVictim(order);
    if Over(order, lim) && i < |order| {
      DropAtIncreasing(order, i);
      SurvivorsIncreasing(DropAt(order, i), lim);
    }
  }

  lemma NumberedBoth(order: seq<Queued>, next: nat, q: Queued, y: Queued)
    requires Numbered(order, next) && q.seqNo == next < TWO_TO_64 && (y in order || y == q)
    ensures y.seqNo < TWO_TO_64 && (y in order <==> y.seqNo < next) && (y == q <==> y.seqNo == next)
  {
  }

  /** Nothing is filed under a number not yet given out. */
  lemma NewNumber(store: Store, next: nat, q: Queued)
    requires Filed(store, next) && q.seqNo == next < TWO_TO_64
    ensures SlotAt(store, q).e == None
  {
    hide QueueKey;
    var k := QueueKey(next);
    if k in store && store[k].Encoded? { KeyOrder(store[k].e.seqNo, next); }
  }
}
