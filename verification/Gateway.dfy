/** A gateway through whatever befalls its buffer: messages, flushes over a link that comes and
    goes, failing writes, marks that run out, deaths and restarts, and the recovery after it. */
module Gateway {
  import opened Common
  import opened QueueKeys
  import opened UpstreamQueue
  import opened BufferStore
  import opened Buffer
  import opened BufferSlots
  import opened FlushMachine
  import opened FlushAccounts
  import opened FlushPass
  import opened Flush

  /** A message comes in, the mark of a key runs out, the buffer is flushed by a process that
      has `life` operations left and meets the interruptions `due`, or it is started again. */
  datatype Event =
    | Message(e: Entry, encoding: Encoding, written: bool)
    | MarkExpires(key: string)
    | Flushes(disk: Disk, stop: nat -> bool, life: nat, due: seq<seq<Action>>)
    | Reboot

  /** How things stand: what happened, and how often the link was polled and called. */
  datatype Moment = Moment(h: seq<Action>, polls: nat, calls: nat, died: bool)

  /** The cloud link, as it will behave at each poll and each call. */
  datatype Weather = Weather(up: nat -> bool, takes: nat -> bool)

  /** Between two moments the link was up at every poll, took every message and nothing else
      ended the flush. */
  ghost predicate KeptUp(w: Weather, disk: Disk, stop: nat -> bool, a: Moment, b: Moment, turns: nat, next: nat) {
    && (forall n :: a.polls <= n < b.polls ==> w.up(n)) && (forall n :: a.calls <= n < b.calls ==> w.takes(n))
    && (forall n :: 0 <= n < next ==> disk.readable(n)) && (forall n :: 0 <= n < turns ==> !stop(n))
  }

  /** No entry is in hand. */
  ghost predicate Settled(m: Machine) { m.phase == Idle && m.batch == [] }

  /** `h` is what a flush from `a` to `b` did, before a new start if it died. */
  ghost predicate Flushed(lim: Limits, w: Weather, c: Event, a: Moment, b: Moment, h: seq<Action>, gap: nat, turns: nat)
    requires c.Flushes?
  {
    && After(lim, h).Some? && Extends(lim, a.h, h, c.disk, |c.due| > 0) && Mail(h) == Mail(a.h) + Due(c.due, 0, gap)
    && a.polls <= b.polls && a.calls <= b.calls && Ops(h) <= Ops(a.h) + c.life
    && var m := After(lim, h).value;
    && (if b.died then Ops(h) == Ops(a.h) + c.life && Restarted(h, b.h) else b.h == h && Settled(m))
    && (!b.died && KeptUp(w, c.disk, c.stop, a, b, turns, m.next) ==> Within(Slots(m.store, m.order), BATCH) == 0)
  }

  ghost predicate Restarted(h0: seq<Action>, h: seq<Action>) {
    exists rows :: h == h0 + [Crash(rows)]
  }

  /** What an event makes of one moment is the next. */
  ghost predicate Happened(lim: Limits, w: Weather, c: Event, a: Moment, b: Moment) {
    match c
    case Message(e, encoding, written) => b == Moment(a.h + [Enqueue(e, encoding, written)], a.polls, a.calls, false)
    case MarkExpires(key) => b == Moment(a.h + [Expire(key)], a.polls, a.calls, false)
    case Flushes(_, _, _, _) => exists h, gap, turns :: Flushed(lim, w, c, a, b, h, gap, turns)
    case Reboot => Restarted(a.h, b.h) && b == Moment(b.h, a.polls, a.calls, false)
  }

  /** The moments of a life, one for each event and one before them. */
  ghost predicate Lived(lim: Limits, w: Weather, plan: seq<Event>, trace: seq<Moment>) {
    && |trace| == |plan| + 1 && trace[0] == Moment([], 0, 0, false)
    && forall i :: 0 <= i < |plan| ==> Happened(lim, w, plan[i], trace[i], trace[i + 1])
  }

  function DeathsIn(trace: seq<Moment>): nat {
    if |trace| == 0 then 0 else DeathsIn(trace[..|trace| - 1]) + (if trace[|trace| - 1].died then 1 else 0)
  }

  /** Interruptions are interruptions, and sequence numbers suffice. */
  ghost predicate Possible(plan: seq<Event>) {
    && (forall i :: 0 <= i < |plan| && plan[i].Flushes? ==> Interruptions(plan[i].due))
    && Numbers(plan) <= TWO_TO_64
  }

  function NumbersFor(c: Event): nat {
    match c
    case Message(_, _, _) => 1
    case Flushes(_, _, _, due) => Left(due, 0)
    case _ => 0
  }

  function Numbers(plan: seq<Event>): nat {
    if |plan| == 0 then 0 else Numbers(plan[..|plan| - 1]) + NumbersFor(plan[|plan| - 1])
  }

  lemma {:induction false} NumbersGrow(plan: seq<Event>, i: nat)
    requires i <= |plan|
    ensures Numbers(plan[..i]) <= Numbers(plan)
    decreases |plan|
  {
    if i < |plan| {
      NumbersGrow(plan[..|plan| - 1], i);
      assert plan[..|plan| - 1][..i] == plan[..i];
    } else {
      assert plan[..i] == plan;
    }
  }

  lemma NumbersOne(plan: seq<Event>, i: nat)
    requires i < |plan|
    ensures Numbers(plan[..i + 1]) == Numbers(plan[..i]) + NumbersFor(plan[i])
  {
    assert plan[..i + 1][..i] == plan[..i];
  }

  // ----- the objects live it -----

  method StartAgain(q: Queue, link: Uplink, ghost h0: seq<Action>, ghost m0: Machine)
    returns (r: Queue, ghost h: seq<Action>, ghost m: Machine)
    requires Reached(q, link, h0, m0)
    ensures fresh(r) && r.lim == q.lim && r.next <= q.next && r.InStep() && Reached(r, link, h, m)
    ensures Restarted(h0, h) && Settled(m) && |m.lapses| <= |m0.lapses| + 1
  {
    hide Agrees, IsScan, Reached, Restored, TopicsOf, NextAfter, QueueKey;
    var rows := Scan(q.store);
    r, h, m := Restart(q, link, rows, h0, m0);
  }

  /** One thing befalls the gateway; a flush that dies is followed by a new start. */
  method Happen(q: Queue, link: Uplink, c: Event, ghost a: Moment, ghost m0: Machine)
    returns (r: Queue, ghost b: Moment, ghost m: Machine)
    requires Reached(q, link, a.h, m0) && Settled(m0) && a.polls == link.polls && a.calls == link.calls
    requires q.next + NumbersFor(c) <= TWO_TO_64 && (c.Flushes? ==> Interruptions(c.due))
    modifies q, link
    ensures (r == q || fresh(r)) && r.lim == q.lim && r.next <= old(q.next) + NumbersFor(c)
    ensures Reached(r, link, b.h, m) && Settled(m) && b.polls == link.polls && b.calls == link.calls
    ensures Happened(q.lim, Weather(link.up, link.takes), c, a, b)
  {
    hide After, Bytes, Increasing, Numbered, TopicsBelow, Agrees, LatestOk, Held, Gone, Stamped, Entered, Within;
    hide Slots, Extends, Mail, Due, Ops, Skipped, Interruptions, Left, Restarted, QueueKey;
    r := q;
    match c
    case Message(e, encoding, written) =>
      ghost var h;
      var taken;
      MessageSettles(q.lim, m0, e, encoding, written);
      taken, h, m := Offer(q, link, e, encoding, written, a.h, m0);
      b := Moment(h, a.polls, a.calls, false);
    case MarkExpires(key) =>
      AfterOne(q.lim, a.h, m0, Expire(key));
      q.Expire(key);
      b, m := Moment(a.h + [Expire(key)], a.polls, a.calls, false), Act(q.lim, m0, Expire(key));
    case Flushes(disk, stop, life, due) =>
      var died;
      ghost var h, turns, gap;
      r, died, h, gap, turns, b, m := FlushAndRestart(q, link, c, a, m0);
      assert Flushed(q.lim, Weather(link.up, link.takes), c, a, b, h, gap, turns);
    case Reboot =>
      ghost var h;
      r, h, m := StartAgain(q, link, a.h, m0);
      b := Moment(h, a.polls, a.calls, false);
  }

  lemma MessageSettles(lim: Limits, m: Machine, e: Entry, encoding: Encoding, written: bool)
    requires m.next < TWO_TO_64 && Settled(m)
    ensures Settled(Act(lim, m, Enqueue(e, encoding, written)))
  {
    hide Entered, Stamped;
    if encoding.Size? { EnteredFrame(lim, m, Stamped(e, m.next), encoding.size, written); }
  }

  /** A flush, and a new start if the process died over it. */
  method FlushAndRestart(q: Queue, link: Uplink, c: Event, ghost a: Moment, ghost m0: Machine)
    returns (r: Queue, died: bool, ghost h: seq<Action>, ghost gap: nat, ghost turns: nat, ghost b: Moment,
             ghost m: Machine)
    requires c.Flushes? && Reached(q, link, a.h, m0) && Settled(m0) && a.polls == link.polls && a.calls == link.calls
    requires q.next + NumbersFor(c) <= TWO_TO_64 && Interruptions(c.due)
    modifies q, link
    ensures (r == q || fresh(r)) && r.lim == q.lim && r.next <= old(q.next) + NumbersFor(c)
    ensures Reached(r, link, b.h, m) && Settled(m) && b.polls == link.polls && b.calls == link.calls
    ensures Flushed(q.lim, Weather(link.up, link.takes), c, a, b, h, gap, turns) && (died ==> r.InStep())
    ensures died == b.died
  {
    hide Bytes, Increasing, Numbered, TopicsBelow, Agrees, LatestOk, Within, After, Restarted;
    hide Slots, Extends, Mail, Due, Ops, Skipped, Interruptions, Left, QueueKey;
    var inbox := new Inbox(c.due, q.next + Left(c.due, 0));
    var report;
    report, died, turns, h, m := Drain(q, link, inbox, c.disk, c.stop, c.life, a.h, m0);
    r, gap := q, inbox.gap;
    b := Moment(h, link.polls, link.calls, died);
    if died {
      ghost var h1;
      r, h1, m := StartAgain(q, link, h, m);
      b := Moment(h1, link.polls, link.calls, died);
    }
  }

  /** A gateway from its first start through whatever befalls it, in any order. */
  method Live(lim: Limits, w: Weather, plan: seq<Event>)
    returns (q: Queue, link: Uplink, ghost trace: seq<Moment>, ghost m: Machine)
    requires Possible(plan)
    ensures fresh(q) && fresh(link) && q.lim == lim && link.up == w.up && link.takes == w.takes
    ensures Lived(lim, w, plan, trace)
    ensures var last := trace[|plan|];
            Reached(q, link, last.h, m) && Settled(m) && last.polls == link.polls && last.calls == link.calls
  {
    hide Reached, Happened, Numbers, NumbersFor;
    q, link := Open(lim, w.up, w.takes);
    m, trace := FRESH, [Moment([], 0, 0, false)];
    NumbersGrow(plan, 0);
    for i := 0 to |plan|
      invariant fresh(q) && fresh(link) && q.lim == lim && link.up == w.up && link.takes == w.takes
      invariant q.next <= Numbers(plan[..i]) && |trace| == i + 1 && trace[0] == Moment([], 0, 0, false)
      invariant forall j :: 0 <= j < i ==> Happened(lim, w, plan[j], trace[j], trace[j + 1])
      invariant Reached(q, link, trace[i].h, m) && Settled(m)
      invariant trace[i].polls == link.polls && trace[i].calls == link.calls
    {
      NumbersOne(plan, i);
      NumbersGrow(plan, i + 1);
      ghost var b;
      q, b, m := Happen(q, link, plan[i], trace[i], m);
      trace := trace + [b];
    }
  }

  // ----- what every life keeps -----

  lemma {:induction false} AfterPrefix(lim: Limits, h0: seq<Action>, h: seq<Action>)
    requires After(lim, h).Some? && h0 <= h
    ensures After(lim, h0).Some? && After(lim, h0).value.offered <= After(lim, h).value.offered
    decreases |h|
  {
    hide Enabled, Act;
    if |h0| < |h| {
      AfterPrefix(lim, h0, h[..|h| - 1]);
      OffersStay(lim, After(lim, h[..|h| - 1]).value, h[|h| - 1]);
    } else {
      assert h0 == h;
    }
  }

  lemma OffersStay(lim: Limits, m: Machine, a: Action)
    requires Enabled(m, a)
    ensures m.offered <= Act(lim, m, a).offered
    ensures a.Enqueue? && a.encoding.Size? ==> Stamped(a.e, m.next) in Act(lim, m, a).offered
  {
    hide Stamped, Held, Gone, Appended, Survivors, Victims, Claimed, WithoutVictims, Written, IndexOf, Dropped;
    hide Restored, TopicsOf, NextAfter, IsScan, Head, Without, QueueKey;
  }

  lemma HappenedGrows(lim: Limits, w: Weather, c: Event, a: Moment, b: Moment)
    requires Happened(lim, w, c, a, b)
    ensures a.h <= b.h
  {
    hide After, Within, Slots, Mail, Due, Ops, KeptUp;
  }

  lemma {:induction false} LifeGrows(lim: Limits, w: Weather, plan: seq<Event>, trace: seq<Moment>, i: nat, j: nat)
    requires Lived(lim, w, plan, trace) && i <= j <= |plan|
    ensures trace[i].h <= trace[j].h
    decreases j
  {
    hide Happened;
    if i < j {
      LifeGrows(lim, w, plan, trace, i, j - 1);
      HappenedGrows(lim, w, plan[j - 1], trace[j - 1], trace[j]);
    }
  }

  /** At every moment of a life the machine is in some state, and no entry is in hand. */
  lemma {:induction false} AlwaysSettled(lim: Limits, w: Weather, plan: seq<Event>, trace: seq<Moment>, i: nat)
    requires Lived(lim, w, plan, trace) && After(lim, trace[|plan|].h).Some? && i <= |plan|
    ensures After(lim, trace[i].h).Some? && Settled(After(lim, trace[i].h).value)
    decreases i
  {
    hide After, Happened;
    LifeGrows(lim, w, plan, trace, i, |plan|);
    AfterPrefix(lim, trace[i].h, trace[|plan|].h);
    if i > 0 {
      AlwaysSettled(lim, w, plan, trace, i - 1);
      EventSettles(lim, w, plan[i - 1], trace[i - 1], trace[i]);
    } else {
      FreshSettled(lim);
    }
  }

  lemma FreshSettled(lim: Limits)
    ensures After(lim, []) == Some(FRESH) && Settled(FRESH)
  {
  }

  lemma EventSettles(lim: Limits, w: Weather, c: Event, a: Moment, b: Moment)
    requires Happened(lim, w, c, a, b) && After(lim, a.h).Some? && After(lim, b.h).Some?
    requires Settled(After(lim, a.h).value)
    ensures Settled(After(lim, b.h).value)
  {
    hide Within, Slots, Mail, Due, Ops, KeptUp, Extends, Act, Enabled;
    match c
    case Message(e, encoding, written) => LastAction(lim, a.h, Enqueue(e, encoding, written));
    case MarkExpires(key) => LastAction(lim, a.h, Expire(key));
    case Reboot =>
      var rows :| b.h == a.h + [Crash(rows)];
      LastAction(lim, a.h, Crash(rows));
    case Flushes(_, _, _, _) =>
      var h, gap, turns :| Flushed(lim, w, c, a, b, h, gap, turns);
      if b.died {
        var rows :| b.h == h + [Crash(rows)];
        LastAction(lim, h, Crash(rows));
      }
  }

  /** The state before the last action, and what it makes of it. */
  lemma LastAction(lim: Limits, h: seq<Action>, a: Action)
    requires After(lim, h + [a]).Some?
    ensures After(lim, h).Some? && Enabled(After(lim, h).value, a)
    ensures After(lim, h + [a]).value == Act(lim, After(lim, h).value, a)
    ensures a.Crash? || ((a.Expire? || a.Enqueue?) && Settled(After(lim, h).value)) ==>
              Settled(After(lim, h + [a]).value)
  {
    hide Entered, Restored, TopicsOf, NextAfter, IsScan, Stamped;
    assert (h + [a])[..|h|] == h;
    var m := After(lim, h).value;
    if a.Enqueue? && a.encoding.Size? { EnteredFrame(lim, m, Stamped(a.e, m.next), a.encoding.size, a.written); }
  }

  // ----- lapses and deaths -----

  /** No mark fails, is missed or runs out during this event. */
  ghost predicate KeepsMarks(c: Event) {
    && !c.MarkExpires?
    && (c.Flushes? ==> (forall n :: c.disk.marks(n) && c.disk.finds(n)) && NoExpiry(c.due))
  }

  ghost predicate NoExpiry(due: seq<seq<Action>>) {
    forall g, i :: 0 <= g < |due| && 0 <= i < |due[g]| ==> !due[g][i].Expire?
  }

  lemma {:induction false} DueElements(due: seq<seq<Action>>, a: nat, b: nat, x: Action)
    requires x in Due(due, a, b)
    ensures exists g, i :: 0 <= g < |due| && 0 <= i < |due[g]| && due[g][i] == x
    decreases b
  {
    if b > a {
      if x in Due(due, a, b - 1) {
        DueElements(due, a, b - 1, x);
      } else {
        var i :| 0 <= i < |Now(due, b - 1)| && Now(due, b - 1)[i] == x;
        assert due[b - 1][i] == x;
      }
    }
  }

  lemma {:induction false} MailGrows(h0: seq<Action>, h: seq<Action>)
    requires h0 <= h
    ensures Mail(h0) <= Mail(h)
    ensures forall i :: |h0| <= i < |h| && Interrupts(h[i]) ==> h[i] in Mail(h)[|Mail(h0)|..]
    decreases |h|
  {
    hide Interrupts;
    if |h0| < |h| {
      var t, k := h[..|h| - 1], |Mail(h0)|;
      MailGrows(h0, t);
      assert Mail(h)[k..] == Mail(t)[k..] + (if Interrupts(h[|h| - 1]) then [h[|h| - 1]] else []);
    } else {
      assert h0 == h;
    }
  }

  /** While marks are kept, only a death makes a key lapse. */
  lemma EventLapses(lim: Limits, w: Weather, c: Event, a: Moment, b: Moment)
    requires Happened(lim, w, c, a, b) && After(lim, a.h).Some? && After(lim, b.h).Some?
    requires Settled(After(lim, a.h).value) && KeepsMarks(c)
    ensures |After(lim, b.h).value.lapses| <= |After(lim, a.h).value.lapses| + if b.died then 1 else 0
  {
    hide Within, Slots, Mail, Due, Ops, KeptUp, Extends, Act, Enabled, After;
    match c
    case Message(e, encoding, written) =>
      LastAction(lim, a.h, Enqueue(e, encoding, written));
      LapsesOf(lim, After(lim, a.h).value, Enqueue(e, encoding, written));
    case Reboot =>
      var rows :| b.h == a.h + [Crash(rows)];
      LastAction(lim, a.h, Crash(rows));
      LapsesOf(lim, After(lim, a.h).value, Crash(rows));
    case Flushes(_, _, _, _) =>
      var h, gap, turns :| Flushed(lim, w, c, a, b, h, gap, turns);
      FlushKeeps(lim, a.h, h, c.disk, c.due, gap);
      if b.died {
        var rows :| b.h == h + [Crash(rows)];
        LastAction(lim, h, Crash(rows));
        LapsesOf(lim, After(lim, h).value, Crash(rows));
      }
  }

  lemma LapsesOf(lim: Limits, m: Machine, a: Action)
    requires Enabled(m, a)
    ensures |Act(lim, m, a).lapses| <= |m.lapses| + 1
    ensures a.Enqueue? || (a.Crash? && Settled(m)) ==> Act(lim, m, a).lapses == m.lapses
  {
    hide Entered, Restored, TopicsOf, NextAfter, IsScan, Stamped, Head, Taken;
    if a.Enqueue? && a.encoding.Size? { EnteredFrame(lim, m, Stamped(a.e, m.next), a.encoding.size, a.written); }
    if a.Remove? && (m.phase.Known? || m.phase.Marked?) { TakenFrame(m, m.phase.e, a.deleted); }
  }

  lemma FlushKeeps(lim: Limits, h0: seq<Action>, h: seq<Action>, disk: Disk, due: seq<seq<Action>>, gap: nat)
    requires After(lim, h0).Some? && After(lim, h).Some? && Extends(lim, h0, h, disk, |due| > 0)
    requires Mail(h) == Mail(h0) + Due(due, 0, gap) && NoExpiry(due) && forall n :: disk.marks(n) && disk.finds(n)
    ensures After(lim, h).value.lapses == After(lim, h0).value.lapses
  {
    hide After, Mail, Due, FlushStep, Interrupts;
    MailGrows(h0, h);
    forall i | |h0| <= i < |h|
      ensures !h[i].Expire?
    {
      ExpiryInterrupts(h[i]);
      if h[i].Expire? {
        assert h[i] in Mail(h)[|Mail(h0)|..];
        DueElements(due, 0, gap, h[i]);
      }
    }
    FlushLapsesNothing(lim, h0, After(lim, h0).value, h, After(lim, h).value, disk, |due| > 0);
  }

  lemma ExpiryInterrupts(a: Action)
    ensures a.Expire? ==> Interrupts(a)
  {
  }

  lemma DeathsOne(trace: seq<Moment>, i: nat)
    requires i < |trace|
    ensures DeathsIn(trace[..i + 1]) == DeathsIn(trace[..i]) + (if trace[i].died then 1 else 0)
  {
    assert trace[..i + 1][..i] == trace[..i];
  }

  lemma {:induction false} LapsesAreDeaths(lim: Limits, w: Weather, plan: seq<Event>, trace: seq<Moment>, i: nat)
    requires Lived(lim, w, plan, trace) && After(lim, trace[|plan|].h).Some? && i <= |plan|
    requires forall j :: 0 <= j < i ==> KeepsMarks(plan[j])
    ensures After(lim, trace[i].h).Some?
    ensures |After(lim, trace[i].h).value.lapses| <= DeathsIn(trace[..i + 1])
    decreases i
  {
    hide After, Happened, KeepsMarks, DeathsIn;
    AlwaysSettled(lim, w, plan, trace, i);
    DeathsOne(trace, i);
    if i > 0 {
      AlwaysSettled(lim, w, plan, trace, i - 1);
      LapsesAreDeaths(lim, w, plan, trace, i - 1);
      EventLapses(lim, w, plan[i - 1], trace[i - 1], trace[i]);
    } else {
      FreshSettled(lim);
    }
  }

  /** In every life: while marks are kept, a key is published at most once, plus once for each
      flush that died. */
  lemma OncePlusDeaths(lim: Limits, w: Weather, plan: seq<Event>, trace: seq<Moment>, m: Machine, key: string)
    requires Lived(lim, w, plan, trace) && After(lim, trace[|plan|].h) == Some(m) && key != ""
    requires forall j :: 0 <= j < |plan| ==> KeepsMarks(plan[j])
    ensures CountKey(m.log, key) <= 1 + DeathsIn(trace)
  {
    hide After, Happened, KeepsMarks, DeathsIn, Lapsed, CountKey, CountOf;
    LapsesAreDeaths(lim, w, plan, trace, |plan|);
    assert trace[..|plan| + 1] == trace;
    AtMostOncePerLapse(lim, trace[|plan|].h, m, key);
    LapsesCounted(lim, trace[|plan|].h, m, key);
    CountAtMostAll(m.lapses, key);
  }

  /** In every life: each message that could be encoded was offered under some number. */
  lemma MessagesOffered(lim: Limits, w: Weather, plan: seq<Event>, trace: seq<Moment>, m: Machine, i: nat)
    requires Lived(lim, w, plan, trace) && After(lim, trace[|plan|].h) == Some(m) && i < |plan|
    requires plan[i].Message? && plan[i].encoding.Size?
    ensures exists n :: Stamped(plan[i].e, n) in m.offered
  {
    hide After, Stamped;
    var a, b := trace[i], trace[i + 1];
    assert Happened(lim, w, plan[i], a, b);
    LifeGrows(lim, w, plan, trace, i + 1, |plan|);
    AfterPrefix(lim, b.h, trace[|plan|].h);
    var x := Enqueue(plan[i].e, plan[i].encoding, plan[i].written);
    LastAction(lim, a.h, x);
    OffersStay(lim, After(lim, a.h).value, x);
  }

  // ----- recovery -----

  predicate Never(n: nat) { false }

  /** A restart, and a flush that nothing interrupts. */
  function RecoveryWith(disk: Disk, life: nat): seq<Event> {
    [Reboot, Flushes(disk, Never, life, [])]
  }

  /** The link kept up during the recovery, and the flush did not die. */
  ghost predicate Recovers(w: Weather, disk: Disk, a: Moment, b: Moment, next: nat) {
    !b.died && KeptUp(w, disk, Never, a, b, 0, next)
  }

  /** A flush from an index in step, if nothing interrupts it and nothing is left in reach,
      leaves nothing queued. */
  lemma EmptiesAll(lim: Limits, h0: seq<Action>, m0: Machine, h: seq<Action>, m: Machine, disk: Disk)
    requires Extends(lim, h0, h, disk, false) && After(lim, h0) == Some(m0) && After(lim, h) == Some(m)
    requires Settled(m0) && Settled(m) && Agrees(m0.store, m0.order)
    requires Within(Slots(m.store, m.order), BATCH) == 0
    ensures m.order == []
  {
    hide After, Extends, Within, Agrees, QueueKey;
    var k := QuietFlush(lim, h0, m0, h, m, disk);
    AllWithinReach(m, StartOf(m0, disk), k);
    InStepHasNoBlanks(m0.store, m0.order);
    NoBlanksAllWithin(StartOf(m0, disk).slots, BATCH, 0);
    NoBlanksAllWithin(StartOf(m0, disk).slots, BATCH, k);
    assert |Slots(m.store, m.order)| == 0;
  }

  /** After any life: once the gateway has started again and flushed over a link and a store
      that kept up meanwhile, nothing is queued. Whatever was offered is at the cloud, itself
      or its key, or was given up on an enqueue. */
  lemma RecoveryEmpties(lim: Limits, w: Weather, plan: seq<Event>, trace: seq<Moment>, m: Machine, disk: Disk,
                        life: nat)
    requires Lived(lim, w, plan + RecoveryWith(disk, life), trace)
    requires After(lim, trace[|plan| + 2].h) == Some(m)
    requires Recovers(w, disk, trace[|plan| + 1], trace[|plan| + 2], m.next)
    ensures m.order == [] && forall e :: e in m.offered ==> e in m.given || Received(m.log, e)
  {
    hide After, Within, Extends, Mail, Due, Ops, Agrees, Received, Held;
    var all, n := plan + RecoveryWith(disk, life), |plan|;
    var a, b, c := trace[n], trace[n + 1], trace[n + 2];
    assert all[n] == Reboot && all[n + 1] == Flushes(disk, Never, life, []);
    AlwaysSettled(lim, w, all, trace, n);
    AlwaysSettled(lim, w, all, trace, n + 1);
    AlwaysSettled(lim, w, all, trace, n + 2);
    assert Happened(lim, w, all[n], a, b) && Happened(lim, w, all[n + 1], b, c);
    InStepAgain(lim, a, b);
    var h, gap, turns :| Flushed(lim, w, all[n + 1], b, c, h, gap, turns);
    EmptiesAll(lim, b.h, After(lim, b.h).value, c.h, m, disk);
    forall e | e in m.offered
      ensures e in m.given || Received(m.log, e)
    {
      NothingLost(lim, c.h, m, e);
      HeldNone(m.store, e);
    }
  }

  lemma HeldNone(store: Store, e: Entry)
    ensures e !in Held(store, [])
  {
  }

  lemma InStepAgain(lim: Limits, a: Moment, b: Moment)
    requires Restarted(a.h, b.h) && After(lim, b.h).Some?
    ensures Agrees(After(lim, b.h).value.store, After(lim, b.h).value.order)
  {
    hide After, Act, Agrees, Enabled;
    var rows :| b.h == a.h + [Crash(rows)];
    LastAction(lim, a.h, Crash(rows));
    RunSound(lim, a.h, After(lim, a.h).value);
    StepInStep(lim, After(lim, a.h).value, Crash(rows));
  }

  // ----- when nothing need be given up -----

  /** Every message is encoded and every write succeeds. */
  ghost predicate SmoothEvent(c: Event) {
    && (c.Message? ==> c.encoding.Size? && c.written)
    && (c.Flushes? ==> (forall n :: c.disk.deletes(n)) && SmoothMail(c.due))
  }

  ghost predicate SmoothMail(due: seq<seq<Action>>) {
    forall g, i :: 0 <= g < |due| && 0 <= i < |due[g]| ==> SmoothAction(due[g][i])
  }

  predicate SmoothAction(a: Action) { Writes(a) && (a.Enqueue? ==> a.encoding.Size?) }

  /** How many bytes come in with an event, at most. */
  function LoadOf(c: Event): nat {
    match c
    case Message(_, encoding, _) => if encoding.Size? then encoding.size else 0
    case Flushes(_, _, _, due) => Weight(due, |due|)
    case _ => 0
  }

  function Weight(due: seq<seq<Action>>, g: nat): nat
    requires g <= |due|
  {
    if g == 0 then 0 else Weight(due, g - 1) + Volume(due[g - 1])
  }

  function Load(plan: seq<Event>): nat {
    if |plan| == 0 then 0 else Load(plan[..|plan| - 1]) + LoadOf(plan[|plan| - 1])
  }

  lemma {:induction false} VolumeAppend(a: seq<Action>, b: seq<Action>)
    ensures Volume(a + b) == Volume(a) + Volume(b) && Arrived(a + b) == Arrived(a) + Arrived(b)
    decreases |b|
  {
    if |b| == 0 {
      NothingAdded(a);
    } else {
      assert (a + b)[..|a + b| - 1] == a + b[..|b| - 1];
      VolumeAppend(a, b[..|b| - 1]);
    }
  }

  /** Only interruptions bring anything in. */
  lemma {:induction false} MailBrings(h: seq<Action>)
    ensures Arrived(h) == Arrived(Mail(h)) && Volume(h) == Volume(Mail(h))
    decreases |h|
  {
    if |h| > 0 {
      var n := |h| - 1;
      MailBrings(h[..n]);
      if Interrupts(h[n]) {
        VolumeAppend(Mail(h[..n]), [h[n]]);
        OneArrival(h[n]);
      } else {
        NothingAdded(Mail(h[..n]));
      }
    }
  }

  lemma OneArrival(a: Action)
    ensures Arrived([a]) == (if a.Enqueue? then 1 else 0)
    ensures Volume([a]) == (if a.Enqueue? && a.encoding.Size? then a.encoding.size else 0)
  {
    assert [a][..0] == [];
  }

  lemma {:induction false} ArrivedAtMost(s: seq<Action>)
    ensures Arrived(s) <= |s|
    decreases |s|
  {
    if |s| > 0 { ArrivedAtMost(s[..|s| - 1]); }
  }

  /** How many interruptions the first `g` gaps hold. */
  function Width(due: seq<seq<Action>>, g: nat): nat
    requires g <= |due|
  {
    if g == 0 then 0 else Width(due, g - 1) + |due[g - 1]|
  }

  lemma {:induction false} WidthIsLeft(due: seq<seq<Action>>, g: nat)
    requires g <= |due|
    ensures Width(due, |due|) == Width(due, g) + Left(due, g)
    decreases |due| - g
  {
    if g < |due| { WidthIsLeft(due, g + 1); }
  }

  lemma {:induction false} SumsGrow(due: seq<seq<Action>>, g: nat, k: nat)
    requires g <= k <= |due|
    ensures Width(due, g) <= Width(due, k) && Weight(due, g) <= Weight(due, k)
    decreases k
  {
    if g < k { SumsGrow(due, g, k - 1); }
  }

  lemma {:induction false} DueBrings(due: seq<seq<Action>>, gap: nat)
    ensures var g := if gap < |due| then gap else |due|;
            Arrived(Due(due, 0, gap)) <= Width(due, g) && Volume(Due(due, 0, gap)) == Weight(due, g)
    decreases gap
  {
    if gap > 0 {
      DueBrings(due, gap - 1);
      VolumeAppend(Due(due, 0, gap - 1), Now(due, gap - 1));
      ArrivedAtMost(Now(due, gap - 1));
    }
  }

  /** An event brings in no more than its numbers and its load. */
  lemma EventBrings(lim: Limits, w: Weather, c: Event, a: Moment, b: Moment)
    requires Happened(lim, w, c, a, b)
    ensures Arrived(b.h) <= Arrived(a.h) + NumbersFor(c) && Volume(b.h) <= Volume(a.h) + LoadOf(c)
  {
    hide After, Within, Slots, Ops, Extends, KeptUp, Mail, Due, Arrived, Volume, Left, Weight;
    match c
    case Message(e, encoding, written) =>
      VolumeAppend(a.h, [Enqueue(e, encoding, written)]);
      OneArrival(Enqueue(e, encoding, written));
    case MarkExpires(key) =>
      VolumeAppend(a.h, [Expire(key)]);
      OneArrival(Expire(key));
    case Reboot => RestartBrings(a.h, b.h);
    case Flushes(_, _, _, due) =>
      var h, gap, turns :| Flushed(lim, w, c, a, b, h, gap, turns);
      FlushBrings(a.h, h, due, gap);
      if b.died { RestartBrings(h, b.h); }
  }

  lemma RestartBrings(h0: seq<Action>, h: seq<Action>)
    requires Restarted(h0, h)
    ensures Arrived(h) == Arrived(h0) && Volume(h) == Volume(h0)
  {
    hide Arrived, Volume;
    var rows :| h == h0 + [Crash(rows)];
    VolumeAppend(h0, [Crash(rows)]);
    OneArrival(Crash(rows));
  }

  lemma FlushBrings(h0: seq<Action>, h: seq<Action>, due: seq<seq<Action>>, gap: nat)
    requires Mail(h) == Mail(h0) + Due(due, 0, gap)
    ensures Arrived(h) <= Arrived(h0) + Left(due, 0) && Volume(h) <= Volume(h0) + Weight(due, |due|)
  {
    hide Mail, Due, Arrived, Volume, Left;
    MailBrings(h);
    MailBrings(h0);
    VolumeAppend(Mail(h0), Due(due, 0, gap));
    DueBrings(due, gap);
    WidthIsLeft(due, 0);
    SumsGrow(due, if gap < |due| then gap else |due|, |due|);
  }

  lemma {:induction false} LifeBrings(lim: Limits, w: Weather, plan: seq<Event>, trace: seq<Moment>, i: nat)
    requires Lived(lim, w, plan, trace) && i <= |plan|
    ensures Arrived(trace[i].h) <= Numbers(plan[..i]) && Volume(trace[i].h) <= Load(plan[..i])
    decreases i
  {
    hide Happened, NumbersFor, LoadOf;
    if i > 0 {
      LifeBrings(lim, w, plan, trace, i - 1);
      EventBrings(lim, w, plan[i - 1], trace[i - 1], trace[i]);
      assert plan[..i][..i - 1] == plan[..i - 1];
    }
  }

  /** A smooth event adds smooth actions. */
  lemma EventSmooth(lim: Limits, w: Weather, c: Event, a: Moment, b: Moment)
    requires Happened(lim, w, c, a, b) && SmoothEvent(c) && Smooth(a.h)
    ensures Smooth(b.h)
  {
    hide After, Within, Slots, Ops, KeptUp, Mail, Due, Extends;
    match c
    case Reboot => RestartSmooth(a.h, b.h);
    case Flushes(disk, _, _, due) =>
      var h, gap, turns :| Flushed(lim, w, c, a, b, h, gap, turns);
      FlushSmooth(lim, a.h, h, disk, due, gap);
      if b.died { RestartSmooth(h, b.h); }
    case _ =>
  }

  lemma RestartSmooth(h0: seq<Action>, h: seq<Action>)
    requires Restarted(h0, h) && Smooth(h0)
    ensures Smooth(h)
  {
  }

  lemma FlushSmooth(lim: Limits, h0: seq<Action>, h: seq<Action>, disk: Disk, due: seq<seq<Action>>, gap: nat)
    requires Extends(lim, h0, h, disk, |due| > 0) && Mail(h) == Mail(h0) + Due(due, 0, gap)
    requires Smooth(h0) && SmoothMail(due) && forall n :: disk.deletes(n)
    ensures Smooth(h)
  {
    hide After, Mail, Due, SmoothAction;
    MailGrows(h0, h);
    forall i | 0 <= i < |h|
      ensures SmoothAction(h[i])
    {
      if i < |h0| {
        SmoothMeans(h0, i);
      } else {
        assert FlushStep(lim, h, i, disk, |due| > 0);
        if Interrupts(h[i]) {
          assert h[i] in Mail(h)[|Mail(h0)|..];
          DueElements(due, 0, gap, h[i]);
        } else {
          StepSmooth(After(lim, h[..i]).value, h[i], disk);
        }
      }
    }
    AllSmooth(h);
  }

  lemma SmoothMeans(h: seq<Action>, i: nat)
    requires Smooth(h) && i < |h|
    ensures SmoothAction(h[i])
  {
  }

  lemma AllSmooth(h: seq<Action>)
    requires forall i :: 0 <= i < |h| ==> SmoothAction(h[i])
    ensures Smooth(h)
  {
    forall i | 0 <= i < |h|
      ensures Writes(h[i]) && (h[i].Enqueue? ==> h[i].encoding.Size?)
    {
      assert SmoothAction(h[i]);
    }
  }

  lemma StepSmooth(m: Machine, a: Action, disk: Disk)
    requires Flushing(m, a, disk) && forall n :: disk.deletes(n)
    ensures SmoothAction(a)
  {
    if a.Remove? { assert disk.deletes(m.phase.e.seqNo); }
  }

  lemma {:induction false} LifeSmooth(lim: Limits, w: Weather, plan: seq<Event>, trace: seq<Moment>, i: nat)
    requires Lived(lim, w, plan, trace) && i <= |plan| && forall j :: 0 <= j < i ==> SmoothEvent(plan[j])
    ensures Smooth(trace[i].h)
    decreases i
  {
    hide Happened, SmoothEvent;
    if i > 0 {
      LifeSmooth(lim, w, plan, trace, i - 1);
      EventSmooth(lim, w, plan[i - 1], trace[i - 1], trace[i]);
    }
  }

  /** The limits have room for all that comes in, and every write succeeds. */
  ghost predicate RoomForAll(lim: Limits, plan: seq<Event>) {
    && (forall i :: 0 <= i < |plan| ==> SmoothEvent(plan[i]))
    && Numbers(plan) <= lim.maxEntries && Load(plan) <= lim.maxBytes
  }

  /** In such a life nothing is given up but versions of which a newer one was offered. */
  lemma RoomyLife(lim: Limits, w: Weather, plan: seq<Event>, trace: seq<Moment>, m: Machine)
    requires Lived(lim, w, plan, trace) && After(lim, trace[|plan|].h) == Some(m) && RoomForAll(lim, plan)
    ensures OnlySuperseded(m.given, m.offered)
  {
    hide After, Happened, SmoothEvent, Numbers, Load;
    LifeBrings(lim, w, plan, trace, |plan|);
    LifeSmooth(lim, w, plan, trace, |plan|);
    assert plan[..|plan|] == plan;
    RoomGivesUpNothing(lim, trace[|plan|].h, m);
  }

  /** A gateway through any life, a restart and one more flush. If the link and the store kept up
      during that flush, and it did not die: nothing is queued, and every message is at the
      cloud, itself or its key, or was given up on an enqueue; with room for all, only versions
      of which a newer one was offered were. While marks are kept, no key is there more often
      than once plus once for each flush that died. */
  method Recover(lim: Limits, w: Weather, plan: seq<Event>, disk: Disk, life: nat)
    returns (q: Queue, link: Uplink, ghost trace: seq<Moment>, ghost m: Machine)
    requires Possible(plan)
    ensures Lived(lim, w, plan + RecoveryWith(disk, life), trace)
    ensures Reached(q, link, trace[|plan| + 2].h, m) && q.lim == lim && link.up == w.up && link.takes == w.takes
    ensures forall i :: 0 <= i < |plan| && plan[i].Message? && plan[i].encoding.Size? ==>
              exists n :: Stamped(plan[i].e, n) in m.offered
    ensures Recovers(w, disk, trace[|plan| + 1], trace[|plan| + 2], q.next) ==>
              q.order == [] && forall e :: e in m.offered ==> e in m.given || Received(link.log, e)
    ensures RoomForAll(lim, plan + RecoveryWith(disk, life)) ==> OnlySuperseded(m.given, m.offered)
    ensures (forall i :: 0 <= i < |plan| + 2 ==> KeepsMarks((plan + RecoveryWith(disk, life))[i])) ==>
              forall key :: key != "" ==> CountKey(link.log, key) <= 1 + DeathsIn(trace)
  {
    hide Happened, After, KeepsMarks, DeathsIn, CountKey, RoomForAll, Received, OnlySuperseded, Stamped, Possible;
    hide Recovers;
    ghost var all := plan + RecoveryWith(disk, life);
    StillPossible(plan, disk, life);
    q, link, trace, m := Live(lim, w, plan + RecoveryWith(disk, life));
    forall i | 0 <= i < |plan| && plan[i].Message? && plan[i].encoding.Size?
      ensures exists n :: Stamped(plan[i].e, n) in m.offered
    {
      assert all[i] == plan[i];
      MessagesOffered(lim, w, all, trace, m, i);
    }
    if Recovers(w, disk, trace[|plan| + 1], trace[|plan| + 2], q.next) {
      RecoveryEmpties(lim, w, plan, trace, m, disk, life);
    }
    if RoomForAll(lim, all) { RoomyLife(lim, w, all, trace, m); }
    if forall i :: 0 <= i < |plan| + 2 ==> KeepsMarks(all[i]) {
      forall key | key != ""
        ensures CountKey(link.log, key) <= 1 + DeathsIn(trace)
      {
        OncePlusDeaths(lim, w, all, trace, m, key);
      }
    }
  }

  lemma StillPossible(plan: seq<Event>, disk: Disk, life: nat)
    requires Possible(plan)
    ensures Possible(plan + RecoveryWith(disk, life))
  {
    var all := plan + RecoveryWith(disk, life);
    assert all[..|all| - 1] == plan + [Reboot] && (plan + [Reboot])[..|plan|] == plan;
    assert Numbers(all) == Numbers(plan);
  }
}
