/** What a flush adds to a history, and what one that nothing interrupts does: it deals with
    the entries in order, as far as it gets. */
module FlushPass {
  import opened Common
  import opened QueueKeys
  import opened UpstreamQueue
  import opened BufferStore
  import opened Buffer
  import opened BufferSlots
  import opened FlushMachine
  import opened FlushAccounts

  /** What the store does with the reads, look-ups, marks and deletions of one flush, by
      sequence number. */
  datatype Disk = Disk(readable: nat -> bool, finds: nat -> bool, marks: nat -> bool, deletes: nat -> bool)

  /** A step of a flush over this store. */
  predicate Flushing(m: Machine, a: Action, disk: Disk) {
    match a
    case Peek => true
    case Quit => true
    case Skip => |m.batch| > 0 && disk.finds(m.batch[0].seqNo)
    case Publish => |m.batch| > 0 && (Duplicate(m.batch[0], m.sent) ==> !disk.finds(m.batch[0].seqNo))
    case MarkKey(ok) => m.phase.Sent? && ok == (m.phase.e.key == "" || disk.marks(m.phase.e.seqNo))
    case Remove(deleted) => !m.phase.Idle? && deleted == disk.deletes(m.phase.e.seqNo)
    case _ => false
  }

  /** What may happen meanwhile: a message comes in, or a mark runs out. */
  predicate Interrupts(a: Action) { a.Enqueue? || a.Expire? }

  ghost predicate FlushStep(lim: Limits, h: seq<Action>, i: nat, disk: Disk, mail: bool)
    requires i < |h|
  {
    After(lim, h[..i]).Some? && ((mail && Interrupts(h[i])) || Flushing(After(lim, h[..i]).value, h[i], disk))
  }

  /** `h` is `h0` and then a flush, with interruptions if `mail` says so. */
  ghost predicate Extends(lim: Limits, h0: seq<Action>, h: seq<Action>, disk: Disk, mail: bool) {
    h0 <= h && forall i :: |h0| <= i < |h| ==> FlushStep(lim, h, i, disk, mail)
  }

  lemma ExtendsItself(lim: Limits, h: seq<Action>, disk: Disk, mail: bool)
    ensures Extends(lim, h, h, disk, mail)
  {
  }

  lemma ExtendsOne(lim: Limits, h0: seq<Action>, h: seq<Action>, m: Machine, a: Action, disk: Disk, mail: bool)
    requires Extends(lim, h0, h, disk, mail) && After(lim, h) == Some(m)
    requires (mail && Interrupts(a)) || Flushing(m, a, disk)
    ensures Extends(lim, h0, h + [a], disk, mail)
  {
    hide After, Flushing, Interrupts;
    var t := h + [a];
    forall i | |h0| <= i < |t|
      ensures FlushStep(lim, t, i, disk, mail)
    {
      if i < |h| {
        assert FlushStep(lim, h, i, disk, mail) && t[..i] == h[..i];
      } else {
        assert t[..i] == h;
      }
    }
  }

  lemma ExtendsBefore(lim: Limits, h0: seq<Action>, h: seq<Action>, disk: Disk, mail: bool)
    requires Extends(lim, h0, h, disk, mail) && |h| > |h0|
    ensures Extends(lim, h0, h[..|h| - 1], disk, mail) && FlushStep(lim, h, |h| - 1, disk, mail)
  {
    hide After, Flushing, Interrupts;
    var t := h[..|h| - 1];
    forall i | |h0| <= i < |t|
      ensures FlushStep(lim, t, i, disk, mail)
    {
      assert FlushStep(lim, h, i, disk, mail) && t[..i] == h[..i];
    }
  }

  /** Interruptions continue the flush. */
  lemma {:induction false} ExtendsAll(lim: Limits, h0: seq<Action>, h: seq<Action>, tail: seq<Action>, disk: Disk,
                                      mail: bool)
    requires Extends(lim, h0, h, disk, mail) && After(lim, h + tail).Some? && (mail || tail == [])
    requires forall i :: 0 <= i < |tail| ==> Interrupts(tail[i])
    ensures Extends(lim, h0, h + tail, disk, mail)
    decreases |tail|
  {
    hide Extends, Interrupts, Flushing, Enabled, Act;
    if |tail| == 0 {
      NothingAdded(h);
    } else {
      var n := |tail| - 1;
      assert tail == tail[..n] + [tail[n]];
      Associative(h, tail[..n], [tail[n]]);
      assert (h + tail)[..|h + tail| - 1] == h + tail[..n];
      ExtendsAll(lim, h0, h, tail[..n], disk, mail);
      ExtendsOne(lim, h0, h + tail[..n], After(lim, h + tail[..n]).value, tail[n], disk, mail);
    }
  }

  // ----- the flush's own actions and the interruptions -----

  function Own(h: seq<Action>): seq<Action> {
    if |h| == 0 then [] else Own(h[..|h| - 1]) + (if Interrupts(h[|h| - 1]) then [] else [h[|h| - 1]])
  }

  function Mail(h: seq<Action>): seq<Action> {
    if |h| == 0 then [] else Mail(h[..|h| - 1]) + (if Interrupts(h[|h| - 1]) then [h[|h| - 1]] else [])
  }

  lemma OwnOne(h: seq<Action>, a: Action)
    ensures Own(h + [a]) == if Interrupts(a) then Own(h) else Own(h) + [a]
    ensures Mail(h + [a]) == if Interrupts(a) then Mail(h) + [a] else Mail(h)
  {
    assert (h + [a])[..|h|] == h;
  }

  lemma {:induction false} OwnAll(h: seq<Action>, tail: seq<Action>)
    requires forall i :: 0 <= i < |tail| ==> Interrupts(tail[i])
    ensures Own(h + tail) == Own(h) && Mail(h + tail) == Mail(h) + tail
    ensures Ops(h + tail) == Ops(h) && Skipped(h + tail) == Skipped(h)
    decreases |tail|
  {
    hide Own, Mail, Ops, Skipped;
    if |tail| == 0 {
      NothingAdded(h);
      NothingAdded(Mail(h));
    } else {
      var n := |tail| - 1;
      OwnAll(h, tail[..n]);
      OwnOne(h + tail[..n], tail[n]);
      OpsOne(h + tail[..n], tail[n]);
      assert tail == tail[..n] + [tail[n]];
      Associative(h, tail[..n], [tail[n]]);
      Associative(Mail(h), tail[..n], [tail[n]]);
    }
  }

  /** The operations on buffer and link among them. */
  function Ops(h: seq<Action>): nat {
    if |h| == 0 then 0
    else
      var a := h[|h| - 1];
      Ops(h[..|h| - 1]) + (if a.Skip? || a.Publish? || a.MarkKey? || a.Remove? then 1 else 0)
  }

  /** The entries among them that the cloud was found to have. */
  function Skipped(h: seq<Action>): nat {
    if |h| == 0 then 0 else Skipped(h[..|h| - 1]) + (if h[|h| - 1].Skip? then 1 else 0)
  }

  lemma OpsOne(h: seq<Action>, a: Action)
    ensures Ops(h + [a]) == Ops(h) + (if a.Skip? || a.Publish? || a.MarkKey? || a.Remove? then 1 else 0)
    ensures Skipped(h + [a]) == Skipped(h) + (if a.Skip? then 1 else 0)
  {
    assert (h + [a])[..|h|] == h;
  }

  /** Marks are written and found again, by this store and in this stretch. */
  ghost predicate MarksKept(disk: Disk, h0: seq<Action>, h: seq<Action>) {
    && (forall n :: disk.marks(n) && disk.finds(n))
    && (forall i :: |h0| <= i < |h| ==> !h[i].Expire?)
  }

  /** What a flush does to the machine: what the cloud has, it keeps, and nothing lapses while
      marks are kept. */
  lemma {:induction false} FlushLapsesNothing(lim: Limits, h0: seq<Action>, m0: Machine, h: seq<Action>, m: Machine,
                                              disk: Disk, mail: bool)
    requires Extends(lim, h0, h, disk, mail) && After(lim, h0) == Some(m0) && After(lim, h) == Some(m)
    ensures m0.log <= m.log
    ensures MarksKept(disk, h0, h) ==> m.lapses == m0.lapses
    decreases |h|
  {
    hide Enabled, Act;
    if |h| > |h0| {
      var n := |h| - 1;
      ExtendsBefore(lim, h0, h, disk, mail);
      FlushLapsesNothing(lim, h0, m0, h[..n], After(lim, h[..n]).value, disk, mail);
      StepLapsesNothing(lim, After(lim, h[..n]).value, h[n], disk);
    } else {
      assert h == h0;
    }
  }

  lemma StepLapsesNothing(lim: Limits, m: Machine, a: Action, disk: Disk)
    requires Enabled(m, a) && (Interrupts(a) || Flushing(m, a, disk))
    ensures m.log <= Act(lim, m, a).log
    ensures (forall n :: disk.marks(n) && disk.finds(n)) && !a.Expire? ==> Act(lim, m, a).lapses == m.lapses
  {
    hide Entered, Taken, IsScan, Head, Stamped;
    match a
    case Enqueue(e, encoding, written) =>
      if encoding.Size? { EnteredFrame(lim, m, Stamped(e, m.next), encoding.size, written); }
    case Remove(deleted) => TakenFrame(m, m.phase.e, deleted);
    case MarkKey(_) => assert disk.marks(m.phase.e.seqNo) || !disk.marks(m.phase.e.seqNo);
    case _ =>
  }

  // ----- what a pass publishes -----

  /** The entry is skipped: its key is marked, and the mark is found. */
  predicate Skips(e: Entry, sent: set<string>, disk: Disk) { Duplicate(e, sent) && disk.finds(e.seqNo) }

  /** The keys marked once `entries` have been dealt with. */
  function SentAfter(entries: seq<Entry>, sent: set<string>, disk: Disk): set<string> {
    if |entries| == 0 then sent
    else
      var s, e := SentAfter(entries[..|entries| - 1], sent, disk), entries[|entries| - 1];
      if Skips(e, s, disk) || !disk.marks(e.seqNo) then s else Mark(s, e)
  }

  /** Those of `entries` that are published, in order. */
  function Published(entries: seq<Entry>, sent: set<string>, disk: Disk): seq<Entry> {
    if |entries| == 0 then []
    else
      var before, e := entries[..|entries| - 1], entries[|entries| - 1];
      Published(before, sent, disk) + (if Skips(e, SentAfter(before, sent, disk), disk) then [] else [e])
  }

  lemma {:induction false} PublishedInOrder(entries: seq<Entry>, sent: set<string>, disk: Disk)
    requires InOrder(entries)
    ensures InOrder(Published(entries, sent, disk))
    ensures forall e :: e in Published(entries, sent, disk) ==> e in entries
    decreases |entries|
  {
    if |entries| > 0 {
      var n := |entries| - 1;
      var before := entries[..n];
      PublishedInOrder(before, sent, disk);
      var p := Published(before, sent, disk);
      forall i | 0 <= i < |p|
        ensures p[i].seqNo < entries[n].seqNo
      {
        assert p[i] in p && p[i] in before;
        var k :| 0 <= k < n && before[k] == p[i];
      }
      assert forall e :: e in before ==> e in entries;
    }
  }

  /** What a pass publishes is in queue order. */
  lemma PassInOrder(store: Store, order: seq<Queued>, next: nat, sent: set<string>, disk: Disk, k: nat)
    requires Increasing(order) && Numbered(order, next) && Filed(store, next)
    requires k <= |Filled(Slots(store, order))|
    ensures InOrder(Published(Filled(Slots(store, order))[..k], sent, disk))
  {
    hide QueueKey, Published, Filled, Slots;
    SlotsAreTidy(store, order, next);
    FilledInOrder(Slots(store, order));
    PublishedInOrder(Filled(Slots(store, order))[..k], sent, disk);
  }

  /** Where a flush began. */
  datatype Start = Start(slots: seq<Slot>, sent: set<string>, log: seq<Entry>, disk: Disk) {
    function Entries(): seq<Entry> { Filled(slots) }
    function Marked(k: nat): set<string>
      requires k <= |Entries()|
    {
      SentAfter(Entries()[..k], sent, disk)
    }
    function Sent(k: nat): seq<Entry>
      requires k <= |Entries()|
    {
      Published(Entries()[..k], sent, disk)
    }
  }

  function StartOf(m: Machine, disk: Disk): Start { Start(Slots(m.store, m.order), m.sent, m.log, disk) }

  /** `k` entries have left the queue, `s` have been marked and `l` published or skipped. */
  predicate Stands(m: Machine, st: Start, k: nat, s: nat, l: nat) {
    && k <= |st.Entries()| && s <= |st.Entries()| && l <= |st.Entries()|
    && Slots(m.store, m.order) == Rest(st.slots, k) && m.sent == st.Marked(s) && m.log == st.log + st.Sent(l)
  }

  /** The first `k` entries have been dealt with, the next may be in hand, and the rest of the
      batch follows; all of them have fewer than a batch of blanks before them. */
  predicate At(m: Machine, st: Start, k: nat) {
    var b := if m.phase.Idle? then k else k + 1;
    && b + |m.batch| <= Within(st.slots, BATCH) && b + |m.batch| <= |st.Entries()|
    && m.batch == st.Entries()[b..b + |m.batch|]
    && (!m.phase.Idle? ==> m.phase.e == st.Entries()[k])
    && (match m.phase
        case Idle => Stands(m, st, k, k, k)
        case Sent(_) => Stands(m, st, k, k, k + 1)
        case Known(_) => Stands(m, st, k, k + 1, k + 1)
        case Marked(_) => Stands(m, st, k, k + 1, k + 1))
  }

  /** What dealing with entry `k` adds to what is published and marked. */
  lemma OneMore(st: Start, k: nat)
    requires k < |st.Entries()|
    ensures var e, s := st.Entries()[k], st.Marked(k);
            && st.Marked(k + 1) == (if Skips(e, s, st.disk) || !st.disk.marks(e.seqNo) then s else Mark(s, e))
            && st.Sent(k + 1) == (if Skips(e, s, st.disk) then st.Sent(k) else st.Sent(k) + [e])
  {
    hide Filled;
    assert st.Entries()[..k + 1][..k] == st.Entries()[..k];
  }

  /** What a peek finds once `k` entries have gone. */
  lemma PeekedPrefix(store: Store, order: seq<Queued>, slots: seq<Slot>, k: nat)
    requires Slots(store, order) == Rest(slots, k) && k <= Within(slots, BATCH)
    ensures var es, all := Head(store, order), Filled(slots);
            && k + |es| <= Within(slots, BATCH) <= |all| && es == all[k..k + |es|]
            && (es == [] <==> k == Within(slots, BATCH))
  {
    hide QueueKey, Filled, Rest, Slots, Within, Entries;
    var size := if BATCH < |order| then BATCH else |order|;
    var s := Slots(store, order);
    EntriesAreFilled(store, order[..size]);
    PrefixOfSlots(store, order, size);
    FilledSplit(s, size);
    MoreRoom(slots, BATCH);
    FilledRest(slots, k);
    WithinRest(slots, k, BATCH);
    PeekWithin(s, BATCH);
    assert Filled(s)[..|Filled(s[..size])|] == Filled(s[..size]);
  }

  lemma PeekAt(m: Machine, st: Start, k: nat)
    requires At(m, st, k) && m.phase == Idle
    ensures At(m.(batch := Head(m.store, m.order)), st, k) && At(m.(batch := []), st, k)
  {
    hide QueueKey, Filled, Rest, Slots, Within, Head, Start.Marked, Start.Sent;
    PeekedPrefix(m.store, m.order, st.slots, k);
  }

  /** Removing the entry in hand, whether or not its record goes too. */
  lemma RemoveAt(m: Machine, st: Start, k: nat, deleted: bool)
    requires Sound(m) && At(m, st, k) && (m.phase.Known? || m.phase.Marked?)
    ensures At(Taken(m, m.phase.e, deleted).(phase := Idle), st, k + 1)
  {
    hide QueueKey, Filled, Rest, Slots, Within, Start.Marked, Start.Sent, Without, StoredOffered, Held, TopicNumbers;
    hide Filed, Increasing, Numbered, InHand, TopicsBelow;
    FilledRest(st.slots, k);
    RemoveFirst(m.store, m.order, m.next);
    RestOne(st.slots, k);
  }

  /** One step of a flush that nothing interrupts. */
  lemma StepAt(lim: Limits, m: Machine, a: Action, st: Start, k: nat)
    requires Sound(m) && At(m, st, k) && Enabled(m, a) && Flushing(m, a, st.disk)
    ensures At(Act(lim, m, a), st, if a.Remove? then k + 1 else k)
  {
    hide QueueKey, Filled, Rest, Slots, Within, Head, Sound, Taken, At, Stands, Mark;
    match a
    case Peek => PeekAt(m, st, k);
    case Quit => PeekAt(m, st, k);
    case Skip => HandAt(m, st, k);
    case Publish => HandAt(m, st, k);
    case MarkKey(ok) => MarkAt(m, st, k);
    case Remove(deleted) => RemoveAt(m, st, k, deleted);
  }

  /** Marking the published entry in hand, or failing to. */
  lemma MarkAt(m: Machine, st: Start, k: nat)
    requires At(m, st, k) && m.phase.Sent?
    ensures var e := m.phase.e;
            var u := m.(phase := FlushMachine.Marked(e));
            && (e.key == "" || st.disk.marks(e.seqNo) ==> At(u.(sent := Mark(m.sent, e)), st, k))
            && (!(e.key == "" || st.disk.marks(e.seqNo)) ==> At(Lapse(u, true, e.key), st, k))
  {
    hide QueueKey, Filled, Rest, Slots, Within, Start.Marked, Start.Sent;
    OneMore(st, k);
  }

  /** Taking the next entry of the batch in hand. */
  lemma HandAt(m: Machine, st: Start, k: nat)
    requires At(m, st, k) && m.phase == Idle && |m.batch| > 0
    ensures k < |st.Entries()| && m.batch[0] == st.Entries()[k]
    ensures var e, u := m.batch[0], m.(batch := m.batch[1..]);
            && (Skips(e, m.sent, st.disk) ==> At(u.(phase := Known(e)), st, k))
            && (!Skips(e, m.sent, st.disk) ==>
                  At(Lapse(u, Duplicate(e, m.sent), e.key).(phase := FlushMachine.Sent(e), log := m.log + [e]), st, k))
  {
    hide QueueKey, Filled, Rest, Slots, Within, Start.Marked, Start.Sent;
    OneMore(st, k);
    Associative(st.log, st.Sent(k), [m.batch[0]]);
  }

  /** A flush that nothing interrupts stands, at every moment, behind some number of entries,
      all dealt with in order. Wherever it stops, or its process dies, this is what it has
      published, marked and removed. */
  lemma {:induction false} QuietFlush(lim: Limits, h0: seq<Action>, m0: Machine, h: seq<Action>, m: Machine, disk: Disk)
    returns (k: nat)
    requires Extends(lim, h0, h, disk, false) && After(lim, h0) == Some(m0) && After(lim, h) == Some(m)
    requires m0.phase == Idle && m0.batch == []
    ensures At(m, StartOf(m0, disk), k)
    decreases |h|
  {
    hide Enabled, Act, At, Sound;
    if |h| > |h0| {
      var n := |h| - 1;
      var p := After(lim, h[..n]).value;
      ExtendsBefore(lim, h0, h, disk, false);
      k := QuietFlush(lim, h0, m0, h[..n], p, disk);
      RunSound(lim, h[..n], p);
      StepAt(lim, p, h[n], StartOf(m0, disk), k);
      k := if h[n].Remove? then k + 1 else k;
    } else {
      assert h == h0;
      k := 0;
      BeginsAt(m0, disk);
    }
  }

  lemma BeginsAt(m: Machine, disk: Disk)
    requires m.phase == Idle && m.batch == []
    ensures At(m, StartOf(m, disk), 0)
  {
    hide Filled, Slots, Within;
    NothingAdded(m.log);
    MoreRoom(Slots(m.store, m.order), BATCH);
  }

  /** Once nothing is within reach, exactly what was within reach at the start has gone. */
  lemma AllWithinReach(m: Machine, st: Start, k: nat)
    requires At(m, st, k) && m.phase == Idle && Within(Slots(m.store, m.order), BATCH) == 0
    ensures k == Within(st.slots, BATCH)
  {
    hide Filled, Slots, Rest;
    WithinRest(st.slots, k, BATCH);
  }

  /** Nothing is within reach of a flush exactly when none of the first 128 entries of the index has
      a readable record. */
  lemma StalledAt128(m: Machine)
    ensures Within(Slots(m.store, m.order), BATCH) == 0 <==>
            forall i :: 0 <= i < |m.order| && i < 128 ==>
              var k := QueueKey(m.order[i].seqNo); k !in m.store || m.store[k].Torn?
  {
    hide QueueKey, Within;
    var s := Slots(m.store, m.order);
    StalledExactly(s, BATCH);
    forall i | 0 <= i < |m.order|
      ensures s[i].e.None? <==> var k := QueueKey(m.order[i].seqNo); k !in m.store || m.store[k].Torn?
    {
      assert s[i] == SlotAt(m.store, m.order[i]);
    }
  }
}
