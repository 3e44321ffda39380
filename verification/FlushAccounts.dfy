/** Where every entry is: over all runs of the machine, what was offered is queued, was given
    up, or has left for the cloud; and when nothing need be given up. */
module FlushAccounts {
  import opened Common
  import opened QueueKeys
  import opened UpstreamQueue
  import opened BufferStore
  import opened Buffer
  import opened BufferSlots
  import opened FlushMachine

  predicate IndexOk(order: seq<Queued>, latest: map<string, nat>, next: nat) {
    Increasing(order) && Numbered(order, next) && TopicsBelow(latest, next)
  }

  /** Every record is readable and of an entry that was offered. */
  ghost predicate StoredOffered(store: Store, offered: set<Entry>) {
    forall k :: k in store ==> store[k].Encoded? && store[k].e in offered
  }

  /** The number of an entry in hand is not used for another. */
  predicate InHand(e: Entry, store: Store, next: nat) {
    e.seqNo < next && (QueueKey(e.seqNo) in store && store[QueueKey(e.seqNo)].Encoded? ==>
      store[QueueKey(e.seqNo)].e == e)
  }

  ghost predicate HandsOk(batch: seq<Entry>, phase: Phase, store: Store, next: nat) {
    (forall e :: e in batch ==> InHand(e, store, next)) && (!phase.Idle? ==> InHand(phase.e, store, next))
  }

  /** A topic's number belongs to a version of that topic, if its record is there. */
  ghost predicate TopicNumbers(latest: map<string, nat>, store: Store) {
    forall t :: t in latest ==> OfTopic(store, t, latest[t])
  }

  predicate OfTopic(store: Store, topic: string, n: nat) {
    QueueKey(n) in store && store[QueueKey(n)].Encoded? ==>
      store[QueueKey(n)].e.kind == Latest && store[QueueKey(n)].e.topic == topic
  }

  /** What was offered is queued, given up or gone to the cloud. */
  ghost predicate Accounted(m: Machine) {
    m.offered == Held(m.store, m.order) + m.given + m.left
  }

  ghost predicate Sound(m: Machine) {
    && IndexOk(m.order, m.latest, m.next) && Filed(m.store, m.next) && StoredOffered(m.store, m.offered)
    && HandsOk(m.batch, m.phase, m.store, m.next) && TopicNumbers(m.latest, m.store) && Accounted(m)
  }

  // ----- an enqueue -----

  lemma {:induction false} VictimsBelow(latest: map<string, nat>, v: seq<Queued>, next: nat)
    requires TopicsBelow(latest, next)
    ensures TopicsBelow(WithoutVictims(latest, v), next)
    ensures forall t :: t in WithoutVictims(latest, v) ==> t in latest && WithoutVictims(latest, v)[t] == latest[t]
    decreases |v|
  {
    if |v| > 0 { VictimsBelow(WithoutVictim(latest, v[0]), v[1..], next); }
  }

  lemma EnteredIndex(lim: Limits, m: Machine, e: Entry, size: nat, written: bool)
    requires IndexOk(m.order, m.latest, m.next) && e.seqNo == m.next < TWO_TO_64
    ensures var u := Entered(lim, m, e, size, written); IndexOk(u.order, u.latest, u.next)
  {
    hide Increasing, Numbered, TopicsBelow, Appended, Survivors, Victims, WithoutVictims, Claimed, Written, Gone;
    var q := IndexOf(e, size);
    AppendKeepsIndex(m.order, m.latest, m.next, q);
    IndexAfter(m.order, m.latest, m.next, q, lim);
    VictimsBelow(Claimed(m.latest, q), Victims(Appended(m.order, m.latest, q), lim), m.next + 1);
  }

  /** What the batch of an enqueue leaves in the store. */
  lemma WrittenRecord(store: Store, order: seq<Queued>, latest: map<string, nat>, next: nat, e: Entry, size: nat,
                      lim: Limits, written: bool, k: string)
    requires k in Written(store, order, latest, e, size, lim, written)
    ensures var now := Written(store, order, latest, e, size, lim, written);
            (k in store && store[k] == now[k]) || (written && k == QueueKey(e.seqNo) && now[k] == Encoded(e, size))
  {
    hide QueueKey, Apply, Batch, Gone;
    if written {
      var batch := Batch(order, latest, e, size, lim);
      forall i | 0 <= i < |batch|
        ensures batch[i] == Put(QueueKey(e.seqNo), Encoded(e, size)) || batch[i].Delete?
      {
        BatchOps(order, latest, e, size, lim, i);
      }
      OnlyOnePut(store, batch, QueueKey(e.seqNo), Encoded(e, size), k);
    }
  }

  lemma EnteredStore(lim: Limits, m: Machine, e: Entry, size: nat, written: bool)
    requires Filed(m.store, m.next) && StoredOffered(m.store, m.offered) && e.seqNo == m.next < TWO_TO_64
    ensures var u := Entered(lim, m, e, size, written);
            Filed(u.store, u.next) && StoredOffered(u.store, u.offered)
  {
    hide QueueKey, Filed, Batch, Apply, Appended, Survivors, Victims, WithoutVictims, Claimed, Gone, Dropped, Held;
    hide Written;
    var u := Entered(lim, m, e, size, written);
    FiledWritten(m.store, m.order, m.latest, m.next, e, size, lim, written);
    forall k | k in u.store
      ensures u.store[k].Encoded? && u.store[k].e in u.offered
    {
      WrittenRecord(m.store, m.order, m.latest, m.next, e, size, lim, written, k);
    }
  }

  lemma FiledWritten(store: Store, order: seq<Queued>, latest: map<string, nat>, next: nat, e: Entry, size: nat,
                     lim: Limits, written: bool)
    requires Filed(store, next) && e.seqNo == next
    ensures Filed(Written(store, order, latest, e, size, lim, written), next + 1)
  {
    hide Filed, Batch, Apply, QueueKey;
    FiledAfter(store, order, latest, next, e, size, lim);
  }

  /** A number given out before is still not used for another entry. */
  lemma StillInHand(lim: Limits, m: Machine, e: Entry, size: nat, written: bool, x: Entry)
    requires InHand(x, m.store, m.next) && e.seqNo == m.next < TWO_TO_64
    ensures var u := Entered(lim, m, e, size, written); InHand(x, u.store, u.next)
  {
    hide QueueKey, Written;
    var u := Entered(lim, m, e, size, written);
    var k := QueueKey(x.seqNo);
    KeyOrder(x.seqNo, m.next);
    if k in u.store { WrittenRecord(m.store, m.order, m.latest, m.next, e, size, lim, written, k); }
  }

  lemma EnteredHands(lim: Limits, m: Machine, e: Entry, size: nat, written: bool)
    requires HandsOk(m.batch, m.phase, m.store, m.next) && e.seqNo == m.next < TWO_TO_64
    ensures var u := Entered(lim, m, e, size, written); HandsOk(u.batch, u.phase, u.store, u.next)
  {
    hide InHand, Entered;
    EnteredFrame(lim, m, e, size, written);
    forall x | InHand(x, m.store, m.next)
      ensures var u := Entered(lim, m, e, size, written); InHand(x, u.store, u.next)
    {
      StillInHand(lim, m, e, size, written, x);
    }
  }

  lemma EnteredTopics(lim: Limits, m: Machine, e: Entry, size: nat, written: bool)
    requires TopicNumbers(m.latest, m.store) && IndexOk(m.order, m.latest, m.next) && Filed(m.store, m.next)
    requires e.seqNo == m.next < TWO_TO_64
    ensures var u := Entered(lim, m, e, size, written); TopicNumbers(u.latest, u.store)
  {
    hide QueueKey, Written, Appended, Survivors, Victims, WithoutVictims, Gone, Dropped, Held, Numbered, Increasing;
    hide Filed, OfTopic;
    var q, u := IndexOf(e, size), Entered(lim, m, e, size, written);
    VictimsBelow(Claimed(m.latest, q), Victims(Appended(m.order, m.latest, q), lim), m.next + 1);
    forall t | t in u.latest
      ensures OfTopic(u.store, t, u.latest[t])
    {
      VersionStays(lim, m, e, size, written, t, u.latest[t]);
    }
  }

  lemma VersionStays(lim: Limits, m: Machine, e: Entry, size: nat, written: bool, t: string, n: nat)
    requires n == m.next < TWO_TO_64 || (n < m.next < TWO_TO_64 && OfTopic(m.store, t, n))
    requires e.seqNo == m.next && Filed(m.store, m.next) && (n == m.next ==> e.kind == Latest && e.topic == t)
    ensures OfTopic(Written(m.store, m.order, m.latest, e, size, lim, written), t, n)
  {
    hide QueueKey, Written;
    var now := Written(m.store, m.order, m.latest, e, size, lim, written);
    var k := QueueKey(n);
    KeyOrder(n, m.next);
    if k in now && now[k].Encoded? {
      WrittenRecord(m.store, m.order, m.latest, m.next, e, size, lim, written, k);
      if k in m.store && m.store[k] == now[k] && n == m.next { KeyOrder(m.store[k].e.seqNo, n); }
    }
  }

  lemma EnteredAccounts(lim: Limits, m: Machine, e: Entry, size: nat, written: bool)
    requires Accounted(m) && IndexOk(m.order, m.latest, m.next) && Filed(m.store, m.next)
    requires e.seqNo == m.next < TWO_TO_64
    ensures Accounted(Entered(lim, m, e, size, written))
  {
    hide QueueKey, Filed, Filled, Slots, Written, Gone, Survivors, Appended, Increasing, Numbered, TopicsBelow;
    hide WithoutVictims, Claimed, Victims;
    var u := Entered(lim, m, e, size, written);
    forall x
      ensures x in Filled(Slots(u.store, u.order)) <==>
              && x.seqNo !in Gone(m.order, m.latest, IndexOf(e, size), lim)
              && (x in Filled(Slots(m.store, m.order)) || (written && x == e))
    {
      HeldAfter(m.store, m.order, m.latest, m.next, e, size, lim, written, x);
    }
    assert forall x :: x in Held(m.store, m.order) <==> x in Filled(Slots(m.store, m.order));
    assert forall x :: x in Held(u.store, u.order) <==> x in Filled(Slots(u.store, u.order));
  }

  // ----- a removal -----

  /** Removing an entry in hand takes that entry out of what can be read, and no other. */
  lemma HeldWithout(m: Machine, e: Entry, deleted: bool, x: Entry)
    requires Increasing(m.order) && Numbered(m.order, m.next) && Filed(m.store, m.next) && InHand(e, m.store, m.next)
    ensures var u := Taken(m, e, deleted);
            && Increasing(u.order) && Numbered(u.order, m.next) && Filed(u.store, m.next)
            && (x in Filled(Slots(u.store, u.order)) <==> x in Filled(Slots(m.store, m.order)) && x != e)
  {
    hide QueueKey, Filled, Slots, Increasing, Without;
    var u := Taken(m, e, deleted);
    WithoutKeepsIndex(m.order, m.next, e.seqNo);
    HeldAt(m.store, m.order, m.next, x);
    HeldAt(u.store, u.order, m.next, x);
    forall y: Queued | y.seqNo == x.seqNo
      ensures y in u.order <==> y in m.order && y.seqNo != e.seqNo
      ensures y in m.order && y.seqNo != e.seqNo ==> SlotAt(u.store, y) == SlotAt(m.store, y)
      ensures y in m.order && y.seqNo == e.seqNo && SlotAt(m.store, y).e == Some(x) ==> x == e
    {
      WithoutMembers(m.order, e.seqNo, y);
      if y in m.order { KeyOrder(y.seqNo, e.seqNo); }
    }
  }

  lemma TakenSound(m: Machine, e: Entry, deleted: bool)
    requires Sound(m) && InHand(e, m.store, m.next)
    ensures Sound(Taken(m, e, deleted).(phase := Idle))
  {
    hide QueueKey, Filled, Slots, Increasing, Without, Filed, InHand, OfTopic, Numbered;
    var u := Taken(m, e, deleted);
    forall x
      ensures x in Filled(Slots(u.store, u.order)) <==> x in Filled(Slots(m.store, m.order)) && x != e
      ensures IndexOk(u.order, u.latest, u.next) && Filed(u.store, m.next)
    {
      HeldWithout(m, e, deleted, x);
    }
    HeldWithout(m, e, deleted, e);
    assert forall x :: x in Held(m.store, m.order) <==> x in Filled(Slots(m.store, m.order));
    assert forall x :: x in Held(u.store, u.order) <==> x in Filled(Slots(u.store, u.order));
    forall x | InHand(x, m.store, m.next)
      ensures InHand(x, u.store, u.next)
    {
      FewerRecords(m, e, deleted, x);
    }
    forall t | t in m.latest
      ensures OfTopic(u.store, t, m.latest[t])
    {
      FewerVersions(m, e, deleted, t, m.latest[t]);
    }
  }

  lemma FewerRecords(m: Machine, e: Entry, deleted: bool, x: Entry)
    requires InHand(x, m.store, m.next)
    ensures InHand(x, Taken(m, e, deleted).store, m.next)
  {
    hide QueueKey, Held, Without;
  }

  lemma FewerVersions(m: Machine, e: Entry, deleted: bool, t: string, n: nat)
    requires OfTopic(m.store, t, n)
    ensures OfTopic(Taken(m, e, deleted).store, t, n)
  {
    hide QueueKey, Held, Without;
  }

  // ----- a crash -----

  /** What can be read after reopening is every record. */
  lemma HeldReopened(store: Store, next: nat, rows: seq<Row>, x: Entry)
    requires Filed(store, next) && NoneTorn(store) && next <= TWO_TO_64 && IsScan(store, rows)
    ensures x in Filled(Slots(store, Restored(rows))) <==> exists k :: k in store && store[k].e == x
  {
    hide QueueKey, Filled, Slots, Restored, IsScan;
    ReopenedIndex(store, next, rows);
    HeldAt(store, Restored(rows), next, x);
    if x in Filled(Slots(store, Restored(rows))) {
      var y :| y in Restored(rows) && y.seqNo == x.seqNo && SlotAt(store, y).e == Some(x);
      assert QueueKey(y.seqNo) in store;
    }
    if exists k :: k in store && store[k].e == x {
      var k :| k in store && store[k].e == x;
      var y := IndexOf(x, store[k].size);
      assert HasRecord(store, y) && y in Restored(rows) && SlotAt(store, y).e == Some(x);
    }
  }

  lemma HeldIsStored(store: Store, order: seq<Queued>, next: nat, x: Entry)
    requires Increasing(order) && Numbered(order, next) && Filed(store, next) && x in Filled(Slots(store, order))
    ensures QueueKey(x.seqNo) in store && store[QueueKey(x.seqNo)].Encoded? && store[QueueKey(x.seqNo)].e == x
  {
    hide QueueKey, Filled, Slots;
    HeldAt(store, order, next, x);
  }

  lemma ReopenedTopics(store: Store, next: nat, rows: seq<Row>)
    requires Filed(store, next) && next <= TWO_TO_64 && IsScan(store, rows)
    ensures TopicNumbers(TopicsOf(Restored(rows)), store)
  {
    hide QueueKey, Restored, IsScan, TopicsOf;
    var order := Restored(rows);
    ReopenedIndex(store, next, rows);
    TopicsOfNumbers(order);
    forall t | t in TopicsOf(order)
      ensures OfTopic(store, t, TopicsOf(order)[t])
    {
      var q :| q in order && q.kind == Latest && q.topic == t && q.seqNo == TopicsOf(order)[t];
      assert HasRecord(store, q);
    }
  }

  lemma ReopenedSound(m: Machine, rows: seq<Row>)
    requires Sound(m) && IsScan(m.store, rows)
    ensures Sound(Reopened(m, rows))
  {
    hide QueueKey, Filled, Slots, Restored, IsScan, TopicsOf, NextAfter, Filed, OfTopic, HasRecord;
    var u := Reopened(m, rows);
    ReopenedIndex(m.store, m.next, rows);
    ReopenedTopics(m.store, m.next, rows);
    FiledBelow(m.store, m.next, u.order);
    TopicsOfOk(u.order);
    NextIsAbove(u.order);
    forall x
      ensures x in Held(u.store, u.order) <==> exists k :: k in m.store && m.store[k].e == x
      ensures x in Held(m.store, m.order) ==> x in Held(u.store, u.order)
    {
      HeldReopened(m.store, m.next, rows, x);
      if x in Filled(Slots(m.store, m.order)) { HeldIsStored(m.store, m.order, m.next, x); }
    }
  }

  // ----- every run -----

  lemma PeekSound(m: Machine)
    requires Sound(m)
    ensures forall e :: e in Head(m.store, m.order) ==> InHand(e, m.store, m.next) && e in Held(m.store, m.order)
  {
    hide QueueKey, Filled, Slots, Filed, Entries;
    var size := if BATCH < |m.order| then BATCH else |m.order|;
    EntriesAreFilled(m.store, m.order[..size]);
    PrefixOfSlots(m.store, m.order, size);
    FilledSplit(Slots(m.store, m.order), size);
    forall e | e in Head(m.store, m.order)
      ensures InHand(e, m.store, m.next) && e in Held(m.store, m.order)
    {
      assert e in Filled(Slots(m.store, m.order));
      HeldIsStored(m.store, m.order, m.next, e);
      HeldAt(m.store, m.order, m.next, e);
    }
  }

  lemma LaterSound(m: Machine)
    requires Sound(m) && m.next < TWO_TO_64
    ensures Sound(m.(next := m.next + 1))
  {
    hide QueueKey, Filled, Slots;
  }

  lemma EnteredSound(lim: Limits, m: Machine, e: Entry, size: nat, written: bool)
    requires Sound(m) && e.seqNo == m.next < TWO_TO_64
    ensures Sound(Entered(lim, m, e, size, written))
  {
    hide IndexOk, Filed, StoredOffered, HandsOk, TopicNumbers, Accounted, Entered;
    EnteredIndex(lim, m, e, size, written);
    EnteredStore(lim, m, e, size, written);
    EnteredHands(lim, m, e, size, written);
    EnteredTopics(lim, m, e, size, written);
    EnteredAccounts(lim, m, e, size, written);
  }

  lemma StampedNumber(e: Entry, n: nat)
    ensures Stamped(e, n).seqNo == n && (Stamped(e, n).kind == Latest <==> e.kind == Latest)
  {
  }

  lemma StepSound(lim: Limits, m: Machine, a: Action)
    requires Sound(m) && Enabled(m, a)
    ensures Sound(Act(lim, m, a))
  {
    hide IndexOk, Filed, StoredOffered, TopicNumbers, Entered, Taken, Restored, TopicsOf, NextAfter, IsScan, Head;
    hide Stamped, InHand, Held;
    match a
    case Enqueue(e, encoding, written) =>
      StampedNumber(e, m.next);
      if encoding.Size? { EnteredSound(lim, m, Stamped(e, m.next), encoding.size, written); } else { LaterSound(m); }
    case Peek => PeekSound(m);
    case Remove(deleted) => TakenSound(m, m.phase.e, deleted);
    case Crash(rows) => ReopenedSound(Lapse(m, m.phase.Sent?, if m.phase.Sent? then m.phase.e.key else ""), rows);
    case _ =>
  }

  lemma {:induction false} RunSound(lim: Limits, actions: seq<Action>, m: Machine)
    requires After(lim, actions) == Some(m)
    ensures Sound(m)
    decreases |actions|
  {
    hide Sound, Enabled, Act;
    if |actions| > 0 {
      var before := actions[..|actions| - 1];
      RunSound(lim, before, After(lim, before).value);
      StepSound(lim, After(lim, before).value, actions[|actions| - 1]);
    } else {
      FreshSound();
    }
  }

  lemma FreshSound()
    ensures Sound(FRESH)
  {
  }

  /** Over every run, failing writes and crashes included: each entry offered is still queued,
      was given up on an enqueue, or is at the cloud, itself or its key. */
  lemma NothingLost(lim: Limits, actions: seq<Action>, m: Machine, e: Entry)
    requires After(lim, actions) == Some(m) && e in m.offered
    ensures e in Held(m.store, m.order) || e in m.given || Received(m.log, e)
  {
    hide After, Held, Received;
    RunSound(lim, actions, m);
    NothingLeavesUnpublished(lim, actions, m);
  }

  // ----- when writes succeed -----

  /** Every store write an action asks for succeeds. */
  predicate Writes(a: Action) {
    (a.Enqueue? && a.encoding.Size? ==> a.written) && (a.Remove? ==> a.deleted)
  }

  /** Store and index then stay in step, and a crash brings them back in step in any case. */
  lemma StepInStep(lim: Limits, m: Machine, a: Action)
    requires Sound(m) && Enabled(m, a)
    ensures (Agrees(m.store, m.order) && Writes(a)) || a.Crash? ==>
              Agrees(Act(lim, m, a).store, Act(lim, m, a).order)
  {
    hide Agrees, QueueKey, Filled, Slots, Restored, TopicsOf, NextAfter, IsScan, Head, Filed, Without, Increasing;
    hide Numbered, TopicsBelow, Survivors, Victims, WithoutVictims, Claimed, Gone, Dropped, Held, Appended, Apply;
    hide FirstOps, Deletions, Stamped, IndexOf;
    match a
    case Enqueue(e, encoding, written) =>
      if encoding.Size? && written && Agrees(m.store, m.order) {
        var x := Stamped(e, m.next);
        StampedNumber(e, m.next);
        var full := Appended(m.order, m.latest, IndexOf(x, encoding.size));
        BatchAgrees(m.store, m.order, m.next, m.latest, x, encoding.size, full, lim);
      }
    case Remove(deleted) =>
      if deleted && Agrees(m.store, m.order) {
        HandBelow(m);
        DeleteWithoutAgrees(m.store, m.order, m.next, m.phase.e.seqNo);
      }
    case Crash(rows) =>
      NothingTorn(m);
      ReopenedIndex(m.store, m.next, rows);
    case _ =>
  }

  lemma NothingTorn(m: Machine)
    requires Sound(m)
    ensures NoneTorn(m.store) && m.next <= TWO_TO_64
  {
  }

  lemma HandBelow(m: Machine)
    requires Sound(m) && !m.phase.Idle?
    ensures m.phase.e.seqNo < TWO_TO_64
  {
  }

  // ----- when nothing need be given up -----

  /** How many entries came in, and how many bytes. */
  function Arrived(actions: seq<Action>): nat {
    if |actions| == 0 then 0
    else Arrived(actions[..|actions| - 1]) + (if actions[|actions| - 1].Enqueue? then 1 else 0)
  }

  function Volume(actions: seq<Action>): nat {
    if |actions| == 0 then 0
    else
      var a := actions[|actions| - 1];
      Volume(actions[..|actions| - 1]) + (if a.Enqueue? && a.encoding.Size? then a.encoding.size else 0)
  }

  /** A newer version of the entry's topic has been offered. */
  predicate Outdated(x: Entry, offered: set<Entry>) {
    exists y :: y in offered && Replaces(y, x)
  }

  predicate Replaces(y: Entry, x: Entry) {
    x.kind == Latest && y.kind == Latest && y.topic == x.topic && x.seqNo < y.seqNo
  }

  ghost predicate OnlySuperseded(given: set<Entry>, offered: set<Entry>) {
    forall x :: x in given ==> Outdated(x, offered)
  }

  lemma {:induction false} BytesWithout(order: seq<Queued>, s: nat)
    ensures Bytes(Without(order, s)) <= Bytes(order) && |Without(order, s)| <= |order|
  {
    if Find(order, s) < |order| { BytesDropAt(order, Find(order, s)); }
  }

  lemma AppendedSize(order: seq<Queued>, latest: map<string, nat>, q: Queued)
    ensures |Appended(order, latest, q)| <= |order| + 1 && Bytes(Appended(order, latest, q)) <= Bytes(order) + q.size
  {
    hide Bytes, Without;
    if q.kind == Latest && q.topic in latest { BytesWithout(order, latest[q.topic]); }
    IndexOne(Coalesced(order, latest, q), q);
  }

  /** With room for the new entry, only its topic's previous version goes. */
  lemma RoomEnters(lim: Limits, m: Machine, e: Entry, size: nat)
    requires Sound(m) && e.seqNo == m.next < TWO_TO_64
    requires |m.order| + 1 <= lim.maxEntries && Bytes(m.order) + size <= lim.maxBytes
    ensures var u := Entered(lim, m, e, size, true);
            && |u.order| <= |m.order| + 1 && Bytes(u.order) <= Bytes(m.order) + size
            && forall x :: x in u.given ==> x in m.given || Replaces(e, x)
  {
    hide QueueKey, Filled, Slots, Bytes, Appended, Filed, Increasing, WithoutVictims, Claimed, Written;
    var q := IndexOf(e, size);
    var u, full := Entered(lim, m, e, size, true), Appended(m.order, m.latest, q);
    AppendedSize(m.order, m.latest, q);
    RoomForAll(full, lim);
    forall x | x in u.given && x !in m.given
      ensures Replaces(e, x)
    {
      NotYetHeld(m.store, m.order, m.next, e);
      assert x.seqNo in Superseded(m.latest, q);
      assert e.seqNo != m.latest[q.topic];
      HeldIsStored(m.store, m.order, m.next, x);
      assert OfTopic(m.store, q.topic, x.seqNo);
    }
  }

  lemma NotYetHeld(store: Store, order: seq<Queued>, next: nat, e: Entry)
    requires Increasing(order) && Numbered(order, next) && Filed(store, next) && e.seqNo == next
    ensures e !in Filled(Slots(store, order))
  {
    hide QueueKey, Filled, Slots, Filed, Increasing, SlotAt;
    HeldAt(store, order, next, e);
  }

  /** One step under limits with room for all that came in. */
  lemma StepRoom(lim: Limits, m: Machine, a: Action, count: nat, volume: nat)
    requires Sound(m) && Enabled(m, a) && Agrees(m.store, m.order) && Writes(a) && (a.Enqueue? ==> a.encoding.Size?)
    requires |m.order| <= count && Bytes(m.order) <= volume && OnlySuperseded(m.given, m.offered)
    requires a.Enqueue? ==> count + 1 <= lim.maxEntries && volume + a.encoding.size <= lim.maxBytes
    ensures var u := Act(lim, m, a);
            && OnlySuperseded(u.given, u.offered)
            && |u.order| <= count + (if a.Enqueue? then 1 else 0)
            && Bytes(u.order) <= volume + (if a.Enqueue? then a.encoding.size else 0)
  {
    hide Agrees, QueueKey, Filled, Slots, Restored, TopicsOf, NextAfter, IsScan, Head, Filed, Without, Increasing;
    hide Numbered, TopicsBelow, Bytes, Entered, Held, Stamped;
    match a
    case Enqueue(e, encoding, _) =>
      var x := Stamped(e, m.next);
      StampedNumber(e, m.next);
      RoomEnters(lim, m, x, encoding.size);
      EnteredOffers(lim, m, x, encoding.size);
    case Remove(_) => BytesWithout(m.order, m.phase.e.seqNo);
    case Crash(rows) => ReopenRestores(m.store, m.order, m.next, rows);
    case _ =>
  }

  lemma EnteredOffers(lim: Limits, m: Machine, e: Entry, size: nat)
    ensures Entered(lim, m, e, size, true).offered == m.offered + {e}
  {
  }

  /** Every message is encoded and every write succeeds. */
  ghost predicate Smooth(actions: seq<Action>) {
    forall i :: 0 <= i < |actions| ==> Writes(actions[i]) && (actions[i].Enqueue? ==> actions[i].encoding.Size?)
  }

  /** Over every run whose writes succeed, under limits with room for all that came in: nothing
      is given up but versions of which a newer one was offered. */
  lemma {:induction false} RoomGivesUpNothing(lim: Limits, actions: seq<Action>, m: Machine)
    requires After(lim, actions) == Some(m) && Smooth(actions)
    requires Arrived(actions) <= lim.maxEntries && Volume(actions) <= lim.maxBytes
    ensures OnlySuperseded(m.given, m.offered) && Agrees(m.store, m.order)
    ensures |m.order| <= Arrived(actions) && Bytes(m.order) <= Volume(actions)
    decreases |actions|
  {
    hide Enabled, Act, Sound, OnlySuperseded, Agrees, Bytes;
    if |actions| > 0 {
      var before, last := actions[..|actions| - 1], actions[|actions| - 1];
      assert forall i :: 0 <= i < |before| ==> before[i] == actions[i];
      var p := After(lim, before).value;
      RoomGivesUpNothing(lim, before, p);
      RunSound(lim, before, p);
      StepInStep(lim, p, last);
      StepRoom(lim, p, last, Arrived(before), Volume(before));
    } else {
      FreshRoom();
    }
  }

  lemma FreshRoom()
    ensures OnlySuperseded(FRESH.given, FRESH.offered) && Agrees(FRESH.store, FRESH.order) && Bytes(FRESH.order) == 0
  {
  }
}
