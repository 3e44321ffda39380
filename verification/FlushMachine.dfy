/** The gateway's buffer and its flush as a state machine: every interleaving of enqueueing,
    peeking, publishing, marking, removing, expiring marks, failing writes and crashing. */
module FlushMachine {
  import opened Common
  import opened QueueKeys
  import opened UpstreamQueue
  import opened BufferStore
  import opened Buffer
  import opened BufferSlots

  predicate Duplicate(e: Entry, sent: set<string>) { e.key != "" && e.key in sent }

  function Mark(sent: set<string>, e: Entry): set<string> {
    if e.key == "" then sent else sent + {e.key}
  }

  /** Where the flush stands with the entry at hand: found to be at the cloud already, or
      published, or marked as well. */
  datatype Phase = Idle | Known(e: Entry) | Sent(e: Entry) | Marked(e: Entry)

  /** Store and marked keys survive a crash; index, batch and phase do not. `log` is what the
      cloud received. The rest is bookkeeping: `lapses` holds a key each time one of its
      publications ended up without a mark that is found again, `offered` what was accepted
      into the buffer, `given` what the overflow policy, or a failed write, took out or kept
      out, `left` what the flush removed. */
  datatype Machine = Machine(order: seq<Queued>, latest: map<string, nat>, next: nat, store: Store, sent: set<string>,
                             batch: seq<Entry>, phase: Phase, log: seq<Entry>,
                             lapses: seq<string>, offered: set<Entry>, given: set<Entry>, left: set<Entry>)

  datatype Action =
    | Enqueue(e: Entry, encoding: Encoding, written: bool)
    | Peek
    | Skip
    | Publish
    | MarkKey(ok: bool)
    | Remove(deleted: bool)
    | Quit
    | Expire(key: string)
    | Crash(rows: seq<Row>)

  const FRESH := Machine([], map[], 0, map[], {}, [], Idle, [], [], {}, {}, {})

  const BATCH := 128

  /** The queued entries that can be read. */
  function Held(store: Store, order: seq<Queued>): set<Entry> {
    set e | e in Filled(Slots(store, order))
  }

  /** What a peek at the head yields. */
  function Head(store: Store, order: seq<Queued>): seq<Entry> {
    Entries(store, order[..if BATCH < |order| then BATCH else |order|])
  }

  ghost predicate Enabled(m: Machine, a: Action) {
    match a
    case Enqueue(_, _, _) => m.next < TWO_TO_64
    case Peek => m.phase == Idle
    case Skip => m.phase == Idle && |m.batch| > 0 && Duplicate(m.batch[0], m.sent)
    case Publish => m.phase == Idle && |m.batch| > 0
    case MarkKey(_) => m.phase.Sent?
    case Remove(_) => m.phase.Known? || m.phase.Marked?
    case Quit => m.phase == Idle
    case Expire(_) => true
    case Crash(rows) => IsScan(m.store, rows)
  }

  /** What the overflow policy and a failed write keep from the queue: of the entries there
      and the new one, those whose numbers are taken out, and the new one if not written. */
  function Dropped(held: set<Entry>, e: Entry, gone: set<nat>, written: bool): set<Entry> {
    set x | x in held + {e} && (x.seqNo in gone || (x == e && !written))
  }

  function Entered(lim: Limits, m: Machine, e: Entry, size: nat, written: bool): Machine {
    var q := IndexOf(e, size);
    var full := Appended(m.order, m.latest, q);
    m.(next := m.next + 1,
       order := Survivors(full, lim),
       latest := WithoutVictims(Claimed(m.latest, q), Victims(full, lim)),
       store := Written(m.store, m.order, m.latest, e, size, lim, written),
       offered := m.offered + {e},
       given := m.given + Dropped(Held(m.store, m.order), e, Gone(m.order, m.latest, q, lim), written))
  }

  function Taken(m: Machine, e: Entry, deleted: bool): Machine {
    m.(order := Without(m.order, e.seqNo),
       store := if deleted then m.store - {QueueKey(e.seqNo)} else m.store,
       left := m.left + Held(m.store, m.order) * {e})
  }

  function Reopened(m: Machine, rows: seq<Row>): Machine {
    m.(order := Restored(rows), latest := TopicsOf(Restored(rows)), next := NextAfter(Restored(rows)),
       batch := [], phase := Idle)
  }

  function Lapse(m: Machine, lapsed: bool, key: string): Machine {
    if lapsed then m.(lapses := m.lapses + [key]) else m
  }

  ghost function Act(lim: Limits, m: Machine, a: Action): Machine
    requires Enabled(m, a)
  {
    match a
    case Enqueue(e, encoding, written) =>
      if encoding.Fails? then m.(next := m.next + 1) else Entered(lim, m, Stamped(e, m.next), encoding.size, written)
    case Peek => m.(batch := Head(m.store, m.order))
    case Skip => m.(phase := Known(m.batch[0]), batch := m.batch[1..])
    case Publish =>
      var e := m.batch[0];
      Lapse(m, Duplicate(e, m.sent), e.key).(phase := Sent(e), batch := m.batch[1..], log := m.log + [e])
    case MarkKey(ok) =>
      var e := m.phase.e;
      Lapse(m, !ok, e.key).(phase := Marked(e), sent := if ok then Mark(m.sent, e) else m.sent)
    case Remove(deleted) => Taken(m, m.phase.e, deleted).(phase := Idle)
    case Quit => m.(batch := [])
    case Expire(key) => Lapse(m, key in m.sent, key).(sent := m.sent - {key})
    case Crash(rows) => Reopened(Lapse(m, m.phase.Sent?, if m.phase.Sent? then m.phase.e.key else ""), rows)
  }

  /** Where a sequence of actions leads from an empty gateway, if each is possible in turn. */
  ghost function After(lim: Limits, actions: seq<Action>): Option<Machine> {
    if |actions| == 0 then Some(FRESH)
    else
      match After(lim, actions[..|actions| - 1])
      case None => None
      case Some(m) =>
        var a := actions[|actions| - 1];
        if Enabled(m, a) then Some(Act(lim, m, a)) else None
  }

  lemma AfterOne(lim: Limits, actions: seq<Action>, m: Machine, a: Action)
    requires After(lim, actions) == Some(m) && Enabled(m, a)
    ensures After(lim, actions + [a]) == Some(Act(lim, m, a))
  {
    hide Enabled, Act;
    assert (actions + [a])[..|actions|] == actions;
  }

  /** An enqueue leaves the flush alone. */
  lemma EnteredFrame(lim: Limits, m: Machine, e: Entry, size: nat, written: bool)
    ensures var u := Entered(lim, m, e, size, written);
            && u.sent == m.sent && u.batch == m.batch && u.phase == m.phase && u.log == m.log
            && u.lapses == m.lapses && u.left == m.left
  {
  }

  lemma TakenFrame(m: Machine, e: Entry, deleted: bool)
    ensures var u := Taken(m, e, deleted);
            && u.sent == m.sent && u.batch == m.batch && u.phase == m.phase && u.log == m.log && u.lapses == m.lapses
            && u.latest == m.latest && u.next == m.next && u.offered == m.offered && u.given == m.given
  {
  }

  // ----- how often a key is published -----

  function CountKey(log: seq<Entry>, key: string): nat {
    if |log| == 0 then 0
    else CountKey(log[..|log| - 1], key) + (if log[|log| - 1].key == key then 1 else 0)
  }

  lemma CountKeyAppend(log: seq<Entry>, e: Entry, key: string)
    ensures CountKey(log + [e], key) == CountKey(log, key) + (if e.key == key then 1 else 0)
  {
    assert (log + [e])[..|log|] == log;
  }

  function CountOf(keys: seq<string>, key: string): nat {
    if |keys| == 0 then 0
    else CountOf(keys[..|keys| - 1], key) + (if keys[|keys| - 1] == key then 1 else 0)
  }

  lemma CountOfAppend(keys: seq<string>, k: string, key: string)
    ensures CountOf(keys + [k], key) == CountOf(keys, key) + (if k == key then 1 else 0)
  {
    assert (keys + [k])[..|keys|] == keys;
  }

  lemma {:induction false} CountAtMostAll(keys: seq<string>, key: string)
    ensures CountOf(keys, key) <= |keys|
    decreases |keys|
  {
    if |keys| > 0 { CountAtMostAll(keys[..|keys| - 1], key); }
  }

  /** A step by which a publication under `key` comes to have no mark that is found again: a
      crash or a failed write between the two, a mark that runs out, or one that is there
      and is not found. */
  ghost predicate Lapses(m: Machine, a: Action, key: string) {
    match a
    case Publish => |m.batch| > 0 && Duplicate(m.batch[0], m.sent) && m.batch[0].key == key
    case MarkKey(ok) => m.phase.Sent? && !ok && m.phase.e.key == key
    case Expire(k) => k == key && k in m.sent
    case Crash(_) => m.phase.Sent? && m.phase.e.key == key
    case _ => false
  }

  /** How often that happened to a key. */
  ghost function Lapsed(lim: Limits, actions: seq<Action>, key: string): nat {
    if |actions| == 0 then 0
    else
      var before, m := actions[..|actions| - 1], After(lim, actions[..|actions| - 1]);
      Lapsed(lim, before, key) + (if m.Some? && Lapses(m.value, actions[|actions| - 1], key) then 1 else 0)
  }

  lemma StepLapses(lim: Limits, m: Machine, a: Action, key: string)
    requires key != "" && Enabled(m, a)
    ensures CountOf(Act(lim, m, a).lapses, key) == CountOf(m.lapses, key) + (if Lapses(m, a, key) then 1 else 0)
    ensures |Act(lim, m, a).lapses| <= |m.lapses| + 1
  {
    hide Entered, Taken, Restored, TopicsOf, NextAfter, IsScan, CountOf, Head, Stamped;
    match a
    case Enqueue(e, encoding, written) =>
      if encoding.Size? { EnteredFrame(lim, m, Stamped(e, m.next), encoding.size, written); }
    case Publish => CountOfAppend(m.lapses, m.batch[0].key, key);
    case MarkKey(_) => CountOfAppend(m.lapses, m.phase.e.key, key);
    case Remove(deleted) => TakenFrame(m, m.phase.e, deleted);
    case Expire(k) => CountOfAppend(m.lapses, k, key);
    case Crash(_) => if m.phase.Sent? { CountOfAppend(m.lapses, m.phase.e.key, key); }
    case _ =>
  }

  lemma {:induction false} LapsesCounted(lim: Limits, actions: seq<Action>, m: Machine, key: string)
    requires After(lim, actions) == Some(m) && key != ""
    ensures CountOf(m.lapses, key) == Lapsed(lim, actions, key)
    decreases |actions|
  {
    hide Enabled, Act, Lapses;
    if |actions| > 0 {
      var before := actions[..|actions| - 1];
      LapsesCounted(lim, before, After(lim, before).value, key);
      StepLapses(lim, After(lim, before).value, actions[|actions| - 1], key);
    }
  }

  /** Publications of a key beyond its lapses are excused by its mark or by being in hand. */
  predicate PublishedOnce(m: Machine, key: string) {
    CountKey(m.log, key) <= CountOf(m.lapses, key)
      + (if key in m.sent || (m.phase.Sent? && m.phase.e.key == key) then 1 else 0)
  }

  lemma StepPublishesOnce(lim: Limits, m: Machine, a: Action, key: string)
    requires key != "" && Enabled(m, a) && PublishedOnce(m, key)
    ensures PublishedOnce(Act(lim, m, a), key)
  {
    hide Entered, Taken, Restored, TopicsOf, NextAfter, IsScan, CountOf, Head, CountKey, Stamped, Mark;
    StepLapses(lim, m, a, key);
    match a
    case Enqueue(e, encoding, written) =>
      if encoding.Size? { EnteredFrame(lim, m, Stamped(e, m.next), encoding.size, written); }
    case Publish => CountKeyAppend(m.log, m.batch[0], key);
    case MarkKey(_) => MarkHas(m.sent, m.phase.e);
    case Remove(deleted) => TakenFrame(m, m.phase.e, deleted);
    case _ =>
  }

  lemma MarkHas(sent: set<string>, e: Entry)
    ensures e.key != "" ==> e.key in Mark(sent, e)
    ensures forall k :: k in sent ==> k in Mark(sent, e)
    ensures forall k :: k in Mark(sent, e) ==> k in sent || k == e.key
  {
  }

  /** Over every run: a key reaches the cloud at most once, plus once for each lapse. */
  lemma {:induction false} AtMostOncePerLapse(lim: Limits, actions: seq<Action>, m: Machine, key: string)
    requires After(lim, actions) == Some(m) && key != ""
    ensures CountKey(m.log, key) <= 1 + Lapsed(lim, actions, key)
    ensures PublishedOnce(m, key)
    decreases |actions|
  {
    hide Enabled, Act, PublishedOnce;
    LapsesCounted(lim, actions, m, key);
    if |actions| > 0 {
      var before, last := actions[..|actions| - 1], actions[|actions| - 1];
      AtMostOncePerLapse(lim, before, After(lim, before).value, key);
      StepPublishesOnce(lim, After(lim, before).value, last, key);
    } else {
      FreshOnce(key);
    }
    OnceMeans(m, key);
  }

  lemma FreshOnce(key: string)
    ensures PublishedOnce(FRESH, key)
  {
  }

  lemma OnceMeans(m: Machine, key: string)
    requires PublishedOnce(m, key)
    ensures CountKey(m.log, key) <= 1 + CountOf(m.lapses, key)
  {
  }

  // ----- what leaves the queue -----

  /** The cloud has the entry, or another with its key. */
  predicate Received(log: seq<Entry>, e: Entry) {
    e in log || (e.key != "" && CountKey(log, e.key) > 0)
  }

  lemma {:induction false} LogCounts(log: seq<Entry>, e: Entry)
    requires e in log
    ensures CountKey(log, e.key) > 0
    decreases |log|
  {
    if log[|log| - 1] != e { LogCounts(log[..|log| - 1], e); }
  }

  ghost predicate MarksReceived(sent: set<string>, log: seq<Entry>) {
    "" !in sent && forall k :: k in sent ==> CountKey(log, k) > 0
  }

  predicate HandReceived(phase: Phase, log: seq<Entry>) {
    && ((phase.Sent? || phase.Marked?) ==> phase.e in log)
    && (phase.Known? ==> Received(log, phase.e))
  }

  ghost predicate AllReceived(left: set<Entry>, log: seq<Entry>) {
    forall e :: e in left ==> Received(log, e)
  }

  /** Whatever is marked, in hand or removed by the flush reached the cloud. */
  ghost predicate Delivered(m: Machine) {
    MarksReceived(m.sent, m.log) && HandReceived(m.phase, m.log) && AllReceived(m.left, m.log)
  }

  lemma PublishDelivers(m: Machine, e: Entry)
    requires Delivered(m)
    ensures MarksReceived(m.sent, m.log + [e]) && AllReceived(m.left, m.log + [e])
    ensures HandReceived(Sent(e), m.log + [e])
  {
    hide CountKey;
    forall k
      ensures CountKey(m.log, k) <= CountKey(m.log + [e], k)
    {
      CountKeyAppend(m.log, e, k);
    }
  }

  lemma MarkDelivers(m: Machine)
    requires Delivered(m) && m.phase.Sent?
    ensures MarksReceived(Mark(m.sent, m.phase.e), m.log)
  {
    LogCounts(m.log, m.phase.e);
  }

  lemma StepDelivers(lim: Limits, m: Machine, a: Action)
    requires Enabled(m, a) && Delivered(m)
    ensures Delivered(Act(lim, m, a))
  {
    hide Entered, Taken, Restored, TopicsOf, NextAfter, IsScan, Head, MarksReceived, AllReceived, Mark, Stamped;
    match a
    case Enqueue(e, encoding, written) =>
      if encoding.Size? { EnteredFrame(lim, m, Stamped(e, m.next), encoding.size, written); }
    case Skip => SkipDelivers(m);
    case Publish => PublishDelivers(m, m.batch[0]);
    case MarkKey(_) => MarkDelivers(m);
    case Remove(deleted) => TakenDelivers(m, m.phase.e, deleted);
    case Expire(key) => ExpiryDelivers(m, key);
    case _ =>
  }

  lemma SkipDelivers(m: Machine)
    requires Delivered(m) && |m.batch| > 0 && Duplicate(m.batch[0], m.sent)
    ensures Received(m.log, m.batch[0])
  {
  }

  lemma ExpiryDelivers(m: Machine, key: string)
    requires Delivered(m)
    ensures MarksReceived(m.sent - {key}, m.log)
  {
  }

  lemma TakenDelivers(m: Machine, e: Entry, deleted: bool)
    requires Delivered(m) && Received(m.log, e)
    ensures AllReceived(Taken(m, e, deleted).left, m.log)
    ensures Taken(m, e, deleted).sent == m.sent && Taken(m, e, deleted).log == m.log
  {
    hide Held, Without, QueueKey;
  }

  /** Over every run: an entry leaves the queue, other than by the overflow policy,
      only once it or another entry with its key has reached the cloud. */
  lemma {:induction false} NothingLeavesUnpublished(lim: Limits, actions: seq<Action>, m: Machine)
    requires After(lim, actions) == Some(m)
    ensures Delivered(m)
    decreases |actions|
  {
    hide Enabled, Act, Delivered;
    if |actions| > 0 {
      var before := actions[..|actions| - 1];
      NothingLeavesUnpublished(lim, before, After(lim, before).value);
      StepDelivers(lim, After(lim, before).value, actions[|actions| - 1]);
    } else {
      FreshDelivered();
    }
  }

  lemma FreshDelivered()
    ensures Delivered(FRESH)
  {
  }
}
