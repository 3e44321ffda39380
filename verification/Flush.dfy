/** Draining the upstream buffer to the cloud, as the gateway runs it, while messages come in
    and marks run out between any two of its operations, and with a process that may die there
    too. Whatever the objects do continues the run of FlushMachine so far. */
module Flush {
  import opened Common
  import opened QueueKeys
  import opened UpstreamQueue
  import opened BufferStore
  import opened Buffer
  import opened BufferSlots
  import opened FlushMachine
  import opened FlushAccounts
  import opened FlushPass

  /** The cloud link: whether it is up at a poll and whether it takes a message are its own affair. */
  class Uplink {
    const up: nat -> bool
    const takes: nat -> bool
    var polls: nat
    var calls: nat
    var log: seq<Entry>

    constructor (up: nat -> bool, takes: nat -> bool)
      ensures this.up == up && this.takes == takes && polls == 0 && calls == 0 && log == []
    {
      this.up, this.takes := up, takes;
      polls, calls, log := 0, 0, [];
    }

    method Poll() returns (connected: bool)
      modifies this`polls
      ensures connected == up(old(polls)) && polls == old(polls) + 1
    {
      connected := up(polls);
      polls := polls + 1;
    }

    method Publish(e: Entry) returns (ok: bool)
      modifies this`calls, this`log
      ensures ok == takes(old(calls)) && calls == old(calls) + 1
      ensures log == if ok then old(log) + [e] else old(log)
    {
      ok := takes(calls);
      calls := calls + 1;
      if ok { log := log + [e]; }
    }
  }

  /** What the rest of the gateway does meanwhile: the interruptions of each gap between two
      operations of a flush. They need no sequence number from `bound` on. */
  class Inbox {
    const due: seq<seq<Action>>
    const bound: nat
    var gap: nat

    constructor (due: seq<seq<Action>>, bound: nat)
      ensures this.due == due && this.bound == bound && gap == 0
    {
      this.due, this.bound := due, bound;
      gap := 0;
    }
  }

  function Now(due: seq<seq<Action>>, g: nat): seq<Action> { if g < |due| then due[g] else [] }

  /** Those of the gaps from `a` up to `b`. */
  function Due(due: seq<seq<Action>>, a: nat, b: nat): seq<Action>
    decreases b
  {
    if b <= a then [] else Due(due, a, b - 1) + Now(due, b - 1)
  }

  /** How many are still to come. */
  function Left(due: seq<seq<Action>>, g: nat): nat
    decreases |due| - g
  {
    if g >= |due| then 0 else |due[g]| + Left(due, g + 1)
  }

  ghost predicate Interruptions(due: seq<seq<Action>>) {
    forall g :: 0 <= g < |due| ==> AllInterrupt(due[g])
  }

  predicate AllInterrupt(s: seq<Action>) { forall i :: 0 <= i < |s| ==> Interrupts(s[i]) }

  lemma DueOn(due: seq<seq<Action>>, a: nat, b: nat)
    requires a <= b
    ensures Due(due, a, b + 1) == Due(due, a, b) + Now(due, b)
    ensures Due(due, a, a) == []
  {
  }

  lemma {:induction false} DueJoins(due: seq<seq<Action>>, a: nat, b: nat, c: nat)
    requires a <= b <= c
    ensures Due(due, a, c) == Due(due, a, b) + Due(due, b, c)
    decreases c
  {
    if b < c {
      DueJoins(due, a, b, c - 1);
      Associative(Due(due, a, b), Due(due, b, c - 1), Now(due, c - 1));
    } else {
      NothingAdded(Due(due, a, b));
    }
  }

  // ----- the objects as a state of the machine -----

  /** The objects are where the actions `h` lead, and the machine is then in `m`. */
  ghost predicate Reached(q: Queue, link: Uplink, h: seq<Action>, m: Machine)
    reads q, link`log
  {
    && After(q.lim, h) == Some(m) && q.Valid()
    && q.order == m.order && q.latest == m.latest && q.next == m.next && q.store == m.store && q.sent == m.sent
    && link.log == m.log
  }

  /** The sequence counter has room for what is still to come in. */
  ghost predicate HasRoom(q: Queue, inbox: Inbox)
    reads q`next, inbox`gap
  {
    Interruptions(inbox.due) && q.next + Left(inbox.due, inbox.gap) <= inbox.bound <= TWO_TO_64
  }

  /** No interruption is still to come. */
  ghost predicate Quiet(inbox: Inbox)
    reads inbox`gap
  {
    inbox.gap >= |inbox.due|
  }

  /** A message is buffered, or refused if it cannot be encoded: one step of the machine. */
  method Offer(q: Queue, link: Uplink, e: Entry, encoding: Encoding, written: bool, ghost h0: seq<Action>,
               ghost m0: Machine)
    returns (ok: bool, ghost h: seq<Action>, ghost m: Machine)
    requires Reached(q, link, h0, m0) && q.next < TWO_TO_64
    modifies q
    ensures Reached(q, link, h, m) && h == h0 + [Enqueue(e, encoding, written)]
    ensures m == Act(q.lim, m0, Enqueue(e, encoding, written)) && ok == (encoding.Size? && written)
    ensures q.next == old(q.next) + 1
  {
    hide After, Bytes, Increasing, Numbered, TopicsBelow, Agrees, LatestOk, StaleTopic, Held, Gone, Stamped;
    ghost var a := Enqueue(e, encoding, written);
    AfterOne(q.lim, h0, m0, a);
    ok := q.Enqueue(e, encoding, written);
    h, m := h0 + [a], Act(q.lim, m0, a);
  }

  /** The interruptions of one gap. */
  method Interrupt(q: Queue, link: Uplink, inbox: Inbox, ghost h0: seq<Action>, ghost m0: Machine)
    returns (ghost h: seq<Action>, ghost m: Machine)
    requires Reached(q, link, h0, m0) && HasRoom(q, inbox)
    modifies q, inbox`gap
    ensures Reached(q, link, h, m) && HasRoom(q, inbox) && inbox.gap == old(inbox.gap) + 1
    ensures h == h0 + Now(inbox.due, old(inbox.gap)) && q.next >= old(q.next)
    ensures m.phase == m0.phase && m.batch == m0.batch && m.log == m0.log && m.sent <= m0.sent
    ensures old(Quiet(inbox)) ==> m == m0
  {
    hide After, Bytes, Increasing, Numbered, TopicsBelow, Agrees, LatestOk, Held, Gone, Stamped, Entered;
    h, m := h0, m0;
    NothingAdded(h0);
    var now := Now(inbox.due, inbox.gap);
    for i := 0 to |now|
      modifies q
      invariant Reached(q, link, h, m) && h == h0 + now[..i] && q.next + |now| - i <= old(q.next) + |now|
      invariant old(q.next) <= q.next && m.phase == m0.phase && m.batch == m0.batch && m.log == m0.log
      invariant m.sent <= m0.sent && (i == 0 ==> m == m0)
    {
      assert Interrupts(now[i]);
      ghost var p := m;
      assert now[..i + 1] == now[..i] + [now[i]];
      Associative(h0, now[..i], [now[i]]);
      match now[i]
      case Enqueue(e, encoding, written) =>
        if encoding.Size? { EnteredFrame(q.lim, m, Stamped(e, m.next), encoding.size, written); }
        var taken;
        taken, h, m := Offer(q, link, e, encoding, written, h, m);
      case Expire(key) =>
        AfterOne(q.lim, h, m, now[i]);
        q.Expire(key);
        h, m := h + [now[i]], Act(q.lim, m, now[i]);
    }
    assert now[..|now|] == now;
    inbox.gap := inbox.gap + 1;
  }

  // ----- what a flush adds to the history -----

  /** A flush in progress: its buffer's limits, the history it started from, its store, the
      interruptions still to come then, and whether there are any. */
  datatype Run = Run(lim: Limits, start: seq<Action>, disk: Disk, due: seq<seq<Action>>, gap: nat, mail: bool)

  /** The history `h` is that of the start, the flush's own steps and the interruptions of the
      gaps up to `g`. */
  ghost predicate Flows(run: Run, h: seq<Action>, g: nat) {
    && Extends(run.lim, run.start, h, run.disk, run.mail)
    && Mail(h) == Mail(run.start) + Due(run.due, run.gap, g)
    && run.gap <= g && (run.mail || run.gap >= |run.due|)
  }

  lemma FlowsOne(run: Run, h: seq<Action>, m: Machine, g: nat, a: Action)
    requires Flows(run, h, g) && After(run.lim, h) == Some(m) && Flushing(m, a, run.disk)
    ensures Flows(run, h + [a], g) && Own(h + [a]) == Own(h) + [a]
    ensures Ops(h + [a]) == Ops(h) + (if a.Skip? || a.Publish? || a.MarkKey? || a.Remove? then 1 else 0)
    ensures Skipped(h + [a]) == Skipped(h) + (if a.Skip? then 1 else 0)
  {
    hide Extends, After, Own, Mail, Ops, Skipped, Due;
    ExtendsOne(run.lim, run.start, h, m, a, run.disk, run.mail);
    OwnOne(h, a);
    OpsOne(h, a);
  }

  lemma FlowsOn(run: Run, h: seq<Action>, g: nat)
    requires Flows(run, h, g) && After(run.lim, h + Now(run.due, g)).Some? && Interruptions(run.due)
    ensures var t := h + Now(run.due, g);
            Flows(run, t, g + 1) && Own(t) == Own(h) && Ops(t) == Ops(h) && Skipped(t) == Skipped(h)
  {
    hide Extends, After, Own, Mail, Ops, Skipped, Due, Interrupts;
    var now := Now(run.due, g);
    assert AllInterrupt(now);
    ExtendsAll(run.lim, run.start, h, now, run.disk, run.mail);
    OwnAll(h, now);
    DueOn(run.due, run.gap, g);
    Associative(Mail(run.start), Due(run.due, run.gap, g), now);
  }

  lemma FlowsFrom(run: Run)
    requires run.mail || run.gap >= |run.due|
    ensures Flows(run, run.start, run.gap)
  {
    hide Mail, After;
    ExtendsItself(run.lim, run.start, run.disk, run.mail);
    NothingAdded(Mail(run.start));
  }

  /** The objects have got this far with the flush. */
  ghost predicate Along(q: Queue, link: Uplink, inbox: Inbox, run: Run, h: seq<Action>, m: Machine)
    reads q, link`log, inbox`gap
  {
    && Reached(q, link, h, m) && HasRoom(q, inbox) && Flows(run, h, inbox.gap)
    && run.lim == q.lim && run.due == inbox.due
  }

  /** The gap before an operation of the flush. */
  method Pause(q: Queue, link: Uplink, inbox: Inbox, ghost run: Run, ghost h0: seq<Action>, ghost m0: Machine)
    returns (ghost h: seq<Action>, ghost m: Machine)
    requires Along(q, link, inbox, run, h0, m0)
    modifies q, inbox`gap
    ensures Along(q, link, inbox, run, h, m) && inbox.gap == old(inbox.gap) + 1
    ensures h == h0 + Now(inbox.due, old(inbox.gap))
    ensures Own(h) == Own(h0) && Ops(h) == Ops(h0) && Skipped(h) == Skipped(h0)
    ensures m.phase == m0.phase && m.batch == m0.batch && m.log == m0.log && m.sent <= m0.sent
    ensures old(Quiet(inbox)) ==> m == m0
    ensures q.next >= old(q.next)
  {
    hide After, Bytes, Increasing, Numbered, TopicsBelow, Flows, Own, Ops, Skipped, Interruptions;
    h, m := Interrupt(q, link, inbox, h0, m0);
    FlowsOn(run, h0, inbox.gap - 1);
  }

  /** What became of an entry: it was dealt with, the link did not take it, or the
      process died on the way. */
  datatype Progress = Handled(duplicate: bool) | LinkFailed | Died

  /** The actions that deal with one entry. */
  function Course(duplicate: bool, marked: bool, deleted: bool): seq<Action> {
    if duplicate then [Skip, Remove(deleted)] else [Publish, MarkKey(marked), Remove(deleted)]
  }

  function CourseOf(e: Entry, sent: set<string>, disk: Disk): seq<Action> {
    Course(Skips(e, sent, disk), e.key == "" || disk.marks(e.seqNo), disk.deletes(e.seqNo))
  }

  /** The operations performed are the course, as far as it got. */
  ghost predicate Went(course: seq<Action>, life: nat, left: nat, h0: seq<Action>, h: seq<Action>) {
    && left <= life <= left + |course|
    && Own(h) == Own(h0) + course[..life - left] && Ops(h) + left == Ops(h0) + life
  }

  lemma WentNowhere(course: seq<Action>, life: nat, h0: seq<Action>, h: seq<Action>)
    requires Own(h) == Own(h0) && Ops(h) == Ops(h0)
    ensures Went(course, life, life, h0, h)
  {
    NothingAdded(Own(h0));
  }

  /** One operation, and then the rest of the course. */
  lemma WentOn(course: seq<Action>, life: nat, left: nat, h0: seq<Action>, h1: seq<Action>, h: seq<Action>)
    requires |course| > 0 && life > 0 && Own(h1) == Own(h0) + [course[0]] && Ops(h1) == Ops(h0) + 1
    requires Went(course[1..], life - 1, left, h1, h)
    ensures Went(course, life, left, h0, h)
  {
    Associative(Own(h0), [course[0]], course[1..][..life - 1 - left]);
    assert course[..life - left] == [course[0]] + course[1..][..life - 1 - left];
  }

  /** Deals with one entry: skip it if the cloud has it, else publish, mark, remove. The
      process survives `life` more operations. */
  method FlushOne(q: Queue, link: Uplink, inbox: Inbox, e: Entry, disk: Disk, life: nat, ghost run: Run,
                  ghost h0: seq<Action>, ghost m0: Machine)
    returns (r: Progress, left: nat, ghost h: seq<Action>, ghost m: Machine)
    requires Along(q, link, inbox, run, h0, m0) && run.disk == disk
    requires m0.phase == Idle && |m0.batch| > 0 && m0.batch[0] == e && e.seqNo < TWO_TO_64
    modifies q, link`calls, link`log, inbox`gap
    ensures Along(q, link, inbox, run, h, m) && q.next >= old(q.next) && inbox.gap > old(inbox.gap)
    ensures exists sent: set<string> :: sent <= old(q.sent) && Went(CourseOf(e, sent, disk), life, left, h0, h)
              && (r.Handled? ==> r.duplicate == Skips(e, sent, disk) && life - left == |CourseOf(e, sent, disk)|)
              && (r.Died? ==> left == 0 && life < |CourseOf(e, sent, disk)|)
    ensures Ops(h) + left == Ops(h0) + life && (r.Died? ==> left == 0)
    ensures r.Handled? ==> Skipped(h) == Skipped(h0) + if r.duplicate then 1 else 0
    ensures r.LinkFailed? ==> Skipped(h) == Skipped(h0)
    ensures r.Handled? ==> m.phase == Idle && m.batch == m0.batch[1..]
    ensures r.LinkFailed? ==> m.phase == Idle && left == life
    ensures (r.Handled? && r.duplicate) || r.LinkFailed? ==> link.log == old(link.log)
    ensures r.Handled? && !r.duplicate ==> link.log == old(link.log) + [e]
    ensures old(link.calls) <= link.calls <= old(link.calls) + 1
    ensures r.LinkFailed? <==> link.calls > old(link.calls) && !link.takes(old(link.calls))
    ensures r.Handled? && old(Quiet(inbox)) ==> q.order == Without(old(q.order), e.seqNo)
  {
    hide After, Bytes, Increasing, Numbered, TopicsBelow, Flows, Own, Ops, Skipped, Without, Went, HasRoom;
    hide Held, QueueKey, LatestOk, Agrees;
    h, m := Pause(q, link, inbox, run, h0, m0);
    ghost var sent, h1 := q.sent, h;
    ghost var course := CourseOf(e, sent, disk);
    left := life;
    WentNowhere(course, life, h0, h);
    if left == 0 { return Died, left, h, m; }
    if q.AlreadySent(e.key, disk.finds(e.seqNo)) {
      q.NoteDeduplicated();
      AfterOne(q.lim, h, m, Skip);
      FlowsOne(run, h, m, inbox.gap, Skip);
      ghost var h2 := h + [Skip];
      var died;
      died, left, h, m := RemoveOne(q, link, inbox, e, disk, life - 1, run, h2, Act(q.lim, m, Skip));
      assert course[1..] == [Remove(disk.deletes(e.seqNo))];
      WentOn(course, life, left, h0, h2, h);
      WentMeans(course, life, left, h0, h);
      return if died then Died else Handled(true), left, h, m;
    }
    r, left, h, m := PublishOne(q, link, inbox, e, disk, life, run, sent, h, m);
    WentSince(course, life, left, h0, h1, h);
    WentMeans(course, life, left, h0, h);
  }

  lemma WentMeans(course: seq<Action>, life: nat, left: nat, h0: seq<Action>, h: seq<Action>)
    requires Went(course, life, left, h0, h)
    ensures Ops(h) + left == Ops(h0) + life
  {
  }

  lemma WentSince(course: seq<Action>, life: nat, left: nat, h0: seq<Action>, h1: seq<Action>, h: seq<Action>)
    requires Own(h1) == Own(h0) && Ops(h1) == Ops(h0) && Went(course, life, left, h1, h)
    ensures Went(course, life, left, h0, h)
  {
  }

  /** Publishes an entry whose mark was not found. */
  method PublishOne(q: Queue, link: Uplink, inbox: Inbox, e: Entry, disk: Disk, life: nat, ghost run: Run,
                    ghost sent: set<string>, ghost h0: seq<Action>, ghost m0: Machine)
    returns (r: Progress, left: nat, ghost h: seq<Action>, ghost m: Machine)
    requires Along(q, link, inbox, run, h0, m0) && run.disk == disk
    requires m0.phase == Idle && |m0.batch| > 0 && m0.batch[0] == e && e.seqNo < TWO_TO_64
    requires life > 0 && q.sent <= sent && !Skips(e, sent, disk)
    modifies q, link`calls, link`log, inbox`gap
    ensures Along(q, link, inbox, run, h, m) && q.next >= old(q.next) && inbox.gap > old(inbox.gap)
    ensures Skipped(h) == Skipped(h0)
    ensures Went(CourseOf(e, sent, disk), life, left, h0, h)
    ensures r.Handled? ==> !r.duplicate && life - left == |CourseOf(e, sent, disk)|
    ensures r.Died? ==> left == 0 && life < |CourseOf(e, sent, disk)|
    ensures r.Handled? ==> m.phase == Idle && m.batch == m0.batch[1..]
    ensures r.LinkFailed? ==> m.phase == Idle && left == life
    ensures link.log == if r.LinkFailed? then old(link.log) else old(link.log) + [e]
    ensures link.calls == old(link.calls) + 1 && (r.LinkFailed? <==> !link.takes(old(link.calls)))
    ensures r.Handled? && old(Quiet(inbox)) ==> q.order == Without(old(q.order), e.seqNo)
  {
    hide After, Bytes, Increasing, Numbered, TopicsBelow, Flows, Own, Ops, Skipped, Without, Went, HasRoom;
    hide Held, QueueKey, LatestOk, Agrees;
    h, m := Pause(q, link, inbox, run, h0, m0);
    ghost var course := CourseOf(e, sent, disk);
    WentNowhere(course, life, h0, h);
    var ok := link.Publish(e);
    if !ok { return LinkFailed, life, h, m; }
    AfterOne(q.lim, h, m, Publish);
    FlowsOne(run, h, m, inbox.gap, Publish);
    ghost var h2 := h + [Publish];
    var died;
    died, left, h, m := SettleOne(q, link, inbox, e, disk, life - 1, run, h2, Act(q.lim, m, Publish));
    assert course[1..] == Settling(e, disk);
    WentOn(course, life, left, h0, h2, h);
    r := if died then Died else Handled(false);
  }

  function Settling(e: Entry, disk: Disk): seq<Action> {
    [MarkKey(e.key == "" || disk.marks(e.seqNo)), Remove(disk.deletes(e.seqNo))]
  }

  /** Marks a published entry and removes it. */
  method SettleOne(q: Queue, link: Uplink, inbox: Inbox, e: Entry, disk: Disk, life: nat, ghost run: Run,
                   ghost h0: seq<Action>, ghost m0: Machine)
    returns (died: bool, left: nat, ghost h: seq<Action>, ghost m: Machine)
    requires Along(q, link, inbox, run, h0, m0) && run.disk == disk && m0.phase == Sent(e) && e.seqNo < TWO_TO_64
    modifies q, inbox`gap
    ensures Along(q, link, inbox, run, h, m) && q.next >= old(q.next) && inbox.gap > old(inbox.gap)
    ensures Skipped(h) == Skipped(h0)
    ensures Went(Settling(e, disk), life, left, h0, h)
    ensures if died then left == 0 && life < 2 else life - left == 2
    ensures m.batch == m0.batch && (!died ==> m.phase == Idle)
    ensures !died && old(Quiet(inbox)) ==> q.order == Without(old(q.order), e.seqNo)
  {
    hide After, Bytes, Increasing, Numbered, TopicsBelow, Flows, Own, Ops, Skipped, Without, Went, HasRoom;
    hide Held, QueueKey, LatestOk, Agrees;
    h, m := Pause(q, link, inbox, run, h0, m0);
    ghost var course := Settling(e, disk);
    left := life;
    WentNowhere(course, life, h0, h);
    if left == 0 { return true, left, h, m; }
    var ok := q.MarkSent(e.key, disk.marks(e.seqNo));
    AfterOne(q.lim, h, m, MarkKey(ok));
    FlowsOne(run, h, m, inbox.gap, MarkKey(ok));
    ghost var h2 := h + [MarkKey(ok)];
    died, left, h, m := RemoveOne(q, link, inbox, e, disk, life - 1, run, h2, Act(q.lim, m, MarkKey(ok)));
    assert course[1..] == [Remove(disk.deletes(e.seqNo))];
    WentOn(course, life, left, h0, h2, h);
  }

  /** Removes an entry that the cloud has. */
  method RemoveOne(q: Queue, link: Uplink, inbox: Inbox, e: Entry, disk: Disk, life: nat, ghost run: Run,
                   ghost h0: seq<Action>, ghost m0: Machine)
    returns (died: bool, left: nat, ghost h: seq<Action>, ghost m: Machine)
    requires Along(q, link, inbox, run, h0, m0) && run.disk == disk && e.seqNo < TWO_TO_64
    requires (m0.phase.Known? || m0.phase.Marked?) && m0.phase.e == e
    modifies q, inbox`gap
    ensures Along(q, link, inbox, run, h, m) && q.next >= old(q.next) && inbox.gap > old(inbox.gap)
    ensures Skipped(h) == Skipped(h0)
    ensures Went([Remove(disk.deletes(e.seqNo))], life, left, h0, h)
    ensures if died then left == life == 0 else life - left == 1
    ensures m.batch == m0.batch && (!died ==> m.phase == Idle)
    ensures !died && old(Quiet(inbox)) ==> q.order == Without(old(q.order), e.seqNo)
  {
    hide After, Bytes, Increasing, Numbered, TopicsBelow, Flows, Own, Ops, Skipped, Without, Went, HasRoom;
    hide Held, QueueKey, LatestOk, Agrees;
    h, m := Pause(q, link, inbox, run, h0, m0);
    ghost var a := Remove(disk.deletes(e.seqNo));
    left := life;
    WentNowhere([a], life, h0, h);
    if left == 0 { return true, left, h, m; }
    var deleted := q.Remove(e.seqNo, disk.deletes(e.seqNo));
    AfterOne(q.lim, h, m, a);
    FlowsOne(run, h, m, inbox.gap, a);
    ghost var h2 := h + [a];
    WentNowhere([a][1..], life - 1, h2, h2);
    WentOn([a], life, life - 1, h0, h2, h2);
    return false, life - 1, h2, Act(q.lim, m, a);
  }

  // ----- a batch, and a whole flush -----

  lemma Shrinks(order: seq<Queued>, s: nat)
    ensures |Without(order, s)| <= |order| && (Find(order, s) < |order| ==> |Without(order, s)| < |order|)
  {
  }

  /** Deals with a peeked batch, stopping at the first message the link does not take. */
  method FlushBatch(q: Queue, link: Uplink, inbox: Inbox, batch: seq<Entry>, disk: Disk, life: nat, ghost run: Run,
                    ghost h0: seq<Action>, ghost m0: Machine)
    returns (flushed: nat, deduped: nat, failed: bool, died: bool, left: nat, ghost h: seq<Action>, ghost m: Machine)
    requires Along(q, link, inbox, run, h0, m0) && run.disk == disk && m0.phase == Idle && m0.batch == batch
    requires forall e :: e in batch ==> e.seqNo < TWO_TO_64
    requires |batch| > 0 ==> Find(q.order, batch[0].seqNo) < |q.order|
    modifies q, link`calls, link`log, inbox`gap
    ensures Along(q, link, inbox, run, h, m) && q.next >= old(q.next)
    ensures Ops(h) + left == Ops(h0) + life && (died ==> left == 0) && (!died ==> m.phase == Idle)
    ensures !died ==> Skipped(h) == Skipped(h0) + deduped && |link.log| == |old(link.log)| + flushed
    ensures !failed && !died ==> flushed + deduped == |batch|
    ensures link.calls >= old(link.calls)
    ensures failed <==> exists n :: old(link.calls) <= n < link.calls && !link.takes(n)
    ensures |batch| > 0 ==> inbox.gap > old(inbox.gap)
    ensures inbox.gap >= old(inbox.gap)
    ensures old(Quiet(inbox)) && !died && !failed && |batch| > 0 ==> |q.order| < |old(q.order)|
  {
    hide After, Bytes, Increasing, Numbered, TopicsBelow, Flows, Own, Ops, Skipped, Without, Went, HasRoom, Reached;
    hide CourseOf, Skips, Find, LatestOk, Agrees, QueueKey;
    flushed, deduped, left, h, m := 0, 0, life, h0, m0;
    for i := 0 to |batch|
      invariant flushed + deduped == i && Along(q, link, inbox, run, h, m) && q.next >= old(q.next)
      invariant m.phase == Idle && m.batch == batch[i..] && Ops(h) + left == Ops(h0) + life
      invariant Skipped(h) == Skipped(h0) + deduped && |link.log| == |old(link.log)| + flushed
      invariant link.calls >= old(link.calls) && forall n :: old(link.calls) <= n < link.calls ==> link.takes(n)
      invariant inbox.gap >= old(inbox.gap) && (i > 0 ==> inbox.gap > old(inbox.gap))
      invariant if i == 0 then q.order == old(q.order) else old(Quiet(inbox)) ==> |q.order| < |old(q.order)|
    {
      assert batch[i] in batch && batch[i..][0] == batch[i] && batch[i..][1..] == batch[i + 1..];
      Shrinks(q.order, batch[i].seqNo);
      ghost var calls := link.calls;
      var r;
      r, left, h, m := FlushOne(q, link, inbox, batch[i], disk, left, run, h, m);
      if r.Died? { return flushed, deduped, false, true, left, h, m; }
      if r.LinkFailed? {
        assert !link.takes(calls);
        return flushed, deduped, true, false, left, h, m;
      }
      if r.duplicate { deduped := deduped + 1; } else { flushed := flushed + 1; }
    }
    failed, died := false, false;
  }

  /** What a peek finds: entries of the queue, and none exactly when none is within reach. */
  lemma PeekFinds(m: Machine)
    requires Sound(m)
    ensures var es := Head(m.store, m.order);
            && (forall e :: e in es ==> e.seqNo < TWO_TO_64)
            && (|es| > 0 ==> Find(m.order, es[0].seqNo) < |m.order|)
            && (es == [] <==> Within(Slots(m.store, m.order), BATCH) == 0)
  {
    hide QueueKey, Filled, Slots, Filed, Entries, Within, Find;
    var es := Head(m.store, m.order);
    PeekSound(m);
    RestNone(Slots(m.store, m.order));
    PeekedPrefix(m.store, m.order, Slots(m.store, m.order), 0);
    if |es| > 0 {
      assert es[0] in es;
      HeldAt(m.store, m.order, m.next, es[0]);
      var y :| y in m.order && y.seqNo == es[0].seqNo;
      FindHit(m.order, y);
    }
  }

  lemma FindHit(order: seq<Queued>, y: Queued)
    requires y in order
    ensures Find(order, y.seqNo) < |order|
  {
    var k :| 0 <= k < |order| && order[k] == y;
  }

  lemma RestNone(s: seq<Slot>)
    ensures Rest(s, 0) == s
  {
  }

  /** The next batch from the head. */
  method PeekBatch(q: Queue, link: Uplink, inbox: Inbox, disk: Disk, ghost run: Run, ghost h0: seq<Action>,
                   ghost m0: Machine)
    returns (entries: seq<Entry>, ok: bool, ghost h: seq<Action>, ghost m: Machine)
    requires Along(q, link, inbox, run, h0, m0) && run.disk == disk && m0.phase == Idle
    modifies q, inbox`gap
    ensures Along(q, link, inbox, run, h, m) && q.next >= old(q.next) && inbox.gap == old(inbox.gap) + 1
    ensures m.phase == Idle && Ops(h) == Ops(h0) && Skipped(h) == Skipped(h0)
    ensures ok ==>
              && m.batch == entries && (forall e :: e in entries ==> e.seqNo < TWO_TO_64)
              && (|entries| > 0 ==> Find(q.order, entries[0].seqNo) < |q.order|)
              && (entries == [] <==> Within(Slots(q.store, q.order), BATCH) == 0)
    ensures !ok ==> exists n :: 0 <= n < q.next && !disk.readable(n)
    ensures old(Quiet(inbox)) ==> q.order == old(q.order)
  {
    hide After, Bytes, Increasing, TopicsBelow, Flows, Own, Ops, Skipped, HasRoom, Sound, Entries, Within, Slots;
    hide Find, LatestOk, Agrees, QueueKey;
    h, m := Pause(q, link, inbox, run, h0, m0);
    entries, ok := q.Peek(BATCH, disk.readable);
    if !ok {
      OrderBelow(q.order, q.next);
      return entries, ok, h, m;
    }
    RunSound(q.lim, h, m);
    PeekFinds(m);
    AfterOne(q.lim, h, m, Peek);
    FlowsOne(run, h, m, inbox.gap, Peek);
    h, m := h + [Peek], Act(q.lim, m, Peek);
  }

  lemma OrderBelow(order: seq<Queued>, next: nat)
    requires Numbered(order, next)
    ensures forall j :: 0 <= j < |order| ==> order[j].seqNo < next
  {
  }

  datatype Report = Report(flushed: nat, deduped: nat, failed: nat)

  /** Drains the buffer until nothing readable is within a batch of the head, a read fails, the
      link drops, a publish fails, `stop` says so or the process dies. If the link and the store
      kept up while it ran, nothing within reach is left, and it performed `life` operations if
      it died. Whatever happened meanwhile, the history continues. */
  method Drain(q: Queue, link: Uplink, inbox: Inbox, disk: Disk, stop: nat -> bool, life: nat, ghost h0: seq<Action>,
               ghost m0: Machine)
    returns (r: Report, died: bool, ghost turns: nat, ghost h: seq<Action>, ghost m: Machine)
    requires Reached(q, link, h0, m0) && HasRoom(q, inbox) && m0.phase == Idle && m0.batch == []
    modifies q, link, inbox`gap
    ensures Reached(q, link, h, m) && HasRoom(q, inbox)
    ensures Extends(q.lim, h0, h, disk, !old(Quiet(inbox)))
    ensures inbox.gap >= old(inbox.gap) && Mail(h) == Mail(h0) + Due(inbox.due, old(inbox.gap), inbox.gap)
    ensures Ops(h) <= Ops(h0) + life && (died ==> Ops(h) == Ops(h0) + life)
    ensures !died ==> m.phase == Idle && m.batch == []
    ensures !died ==> r.flushed == |link.log| - |old(link.log)| && r.deduped == Skipped(h) - Skipped(h0)
    ensures r.failed <= 1
    ensures link.polls >= old(link.polls) && link.calls >= old(link.calls)
    ensures !died && (forall n :: old(link.polls) <= n < link.polls ==> link.up(n))
            && (forall n :: old(link.calls) <= n < link.calls ==> link.takes(n))
            && (forall n :: 0 <= n < q.next ==> disk.readable(n)) && (forall n :: 0 <= n < turns ==> !stop(n)) ==>
              Within(Slots(q.store, q.order), BATCH) == 0
  {
    hide After, Bytes, Increasing, Numbered, TopicsBelow, Flows, Own, Ops, Skipped, HasRoom, Reached, Within, Slots;
    hide Find, LatestOk, Agrees, QueueKey, Extends, Mail, Due;
    ghost var run := Run(q.lim, h0, disk, inbox.due, inbox.gap, !Quiet(inbox));
    FlowsFrom(run);
    h, m, died, turns := h0, m0, false, 0;
    r := Report(0, 0, 0);
    var left, turn: nat := life, 0;
    while true
      invariant Along(q, link, inbox, run, h, m) && m.phase == Idle && !died && turn == turns
      invariant Ops(h) + left == Ops(h0) + life && inbox.gap >= old(inbox.gap)
      invariant r.flushed == |link.log| - |old(link.log)| && r.deduped == Skipped(h) - Skipped(h0) && r.failed == 0
      invariant link.polls >= old(link.polls) && link.calls >= old(link.calls)
      decreases if inbox.gap < |inbox.due| then |inbox.due| - inbox.gap else 0, |q.order|
    {
      turns := turns + 1;
      if stop(turn) { break; }
      turn := turn + 1;
      var entries;
      var read;
      entries, read, h, m := PeekBatch(q, link, inbox, disk, run, h, m);
      if !read { break; }
      if |entries| == 0 { break; }
      var connected := link.Poll();
      if !connected { break; }
      var flushed, deduped, failed;
      flushed, deduped, failed, died, left, h, m := FlushBatch(q, link, inbox, entries, disk, left, run, h, m);
      if died {
        AlongMeans(q, link, inbox, run, h, m);
        return;
      }
      r := Report(r.flushed + flushed, r.deduped + deduped, if failed then 1 else 0);
      if failed { break; }
    }
    h, m := LeaveOff(q, link, inbox, run, h, m);
  }

  lemma AlongMeans(q: Queue, link: Uplink, inbox: Inbox, run: Run, h: seq<Action>, m: Machine)
    requires Along(q, link, inbox, run, h, m)
    ensures Extends(run.lim, run.start, h, run.disk, run.mail)
    ensures Mail(h) == Mail(run.start) + Due(run.due, run.gap, inbox.gap)
  {
  }

  /** The flush returns, and its batch is forgotten. */
  lemma LeaveOff(q: Queue, link: Uplink, inbox: Inbox, run: Run, h0: seq<Action>, m0: Machine)
    returns (h: seq<Action>, m: Machine)
    requires Along(q, link, inbox, run, h0, m0) && m0.phase == Idle
    ensures Along(q, link, inbox, run, h, m) && m.phase == Idle && m.batch == []
    ensures Ops(h) == Ops(h0) && Skipped(h) == Skipped(h0)
    ensures Extends(run.lim, run.start, h, run.disk, run.mail)
    ensures Mail(h) == Mail(run.start) + Due(run.due, run.gap, inbox.gap)
  {
    hide After, Flows, Own, Ops, Skipped, Mail, Due, Extends, HasRoom;
    AfterOne(run.lim, h0, m0, Quit);
    FlowsOne(run, h0, m0, inbox.gap, Quit);
    h, m := h0 + [Quit], Act(run.lim, m0, Quit);
    AlongMeans(q, link, inbox, run, h, m);
  }

  // ----- starting, dying and starting again -----

  /** A new buffer and a new link are where the machine starts. */
  method Open(lim: Limits, up: nat -> bool, takes: nat -> bool) returns (q: Queue, link: Uplink)
    ensures fresh(q) && fresh(link) && Reached(q, link, [], FRESH)
    ensures q.lim == lim && q.next == 0 && q.order == [] && link.up == up && link.takes == takes
    ensures link.polls == 0 && link.calls == 0
  {
    EmptyScan();
    q := new Queue(lim, map[], {}, []);
    link := new Uplink(up, takes);
  }

  /** The process starts again over what it left in the store: a crash of the machine, at
      whatever point it was, and whatever writes had failed before. */
  method Restart(q: Queue, link: Uplink, rows: seq<Row>, ghost h0: seq<Action>, ghost m0: Machine)
    returns (r: Queue, ghost h: seq<Action>, ghost m: Machine)
    requires IsScan(q.store, rows) && Reached(q, link, h0, m0)
    ensures fresh(r) && r.lim == q.lim && r.next <= q.next && r.InStep()
    ensures h == h0 + [Crash(rows)] && m == Act(q.lim, m0, Crash(rows)) && Reached(r, link, h, m)
  {
    hide Agrees, QueueKey, IsScan, After, Restored, TopicsOf, NextAfter, Increasing, Bytes, LatestOk, NoneTorn;
    RunSound(q.lim, h0, m0);
    NothingTorn(m0);
    r := Reopen(q, rows);
    AfterOne(q.lim, h0, m0, Crash(rows));
    h, m := h0 + [Crash(rows)], Act(q.lim, m0, Crash(rows));
  }

  /** The theorems of the machine therefore hold of the objects, whatever sequence of
      offers, flushes, failures, deaths and restarts led to them: a key is published at most
      once, plus once for each lapse of its mark; and every entry offered is still queued, was
      given up on an enqueue, or is at the cloud, itself or its key. */
  lemma ObjectsKeepPromises(q: Queue, link: Uplink, h: seq<Action>, m: Machine, key: string)
    requires Reached(q, link, h, m) && key != ""
    ensures CountKey(link.log, key) <= 1 + Lapsed(q.lim, h, key)
    ensures forall e :: e in m.offered ==>
              e in Filled(Slots(q.store, q.order)) || e in m.given || Received(link.log, e)
  {
    hide After, Slots, Filled, Lapsed, CountKey;
    AtMostOncePerLapse(q.lim, h, m, key);
    forall e | e in m.offered
      ensures e in Held(m.store, m.order) || e in m.given || Received(m.log, e)
    {
      NothingLost(q.lim, h, m, e);
    }
  }
}
