/** What the scheduler does with a delivery, said by what happened to it: how often it went on
    the air, what was reported and acknowledged, and whether the coordinator was stopped. */
module SchedulingLaws {
  import opened Common
  import opened Scheduling

  /** A job's attempts are all made: the limit is positive and it went on the air that often. */
  predicate SpentAll(c: Config, air: seq<nat>, id: nat) {
    c.maxAttempts > 0 && Count(air, id) >= c.maxAttempts
  }

  /** The label is known to display attested frames only, and the delivery is not attested. */
  predicate Unwelcome(s: State, id: nat)
    requires id in s.jobs
  {
    s.jobs[id].del.labelId in s.strict && !s.jobs[id].del.attested
  }

  /** The outcome `e` gives the unfinished delivery `id`, if it gives one. */
  ghost predicate Finishes(c: Config, s: State, e: Event, id: nat, o: Outcome) {
    match e
    case Submitted(_, _, _, _) => id == s.next && s.stopped && o == Abandoned
    case Transmitted(x) => x == id && Pending(s.jobs, s.pending, id) && Unwelcome(s, id) && o == NeedsAttestation
    case Reported(x, delivered) =>
      x == id && Pending(s.jobs, s.pending, id) && !delivered && (s.stopped || SpentAll(c, s.air, id)) && o == Abandoned
    case TimedOut(x) =>
      x == id && Pending(s.jobs, s.pending, id) && (s.stopped || SpentAll(c, s.air, id)) && o == Abandoned
    case AckReceived(a, _) =>
      && Pending(s.jobs, s.pending, id) && s.jobs[id].del.labelId == a.labelId && s.jobs[id].del.sequence == a.sequence
      && o == Acknowledged(a.status)
    case _ => false
  }

  lemma AttemptsAreAir(c: Config, s: State, id: nat)
    requires Inv(c, s) && id in s.jobs
    ensures s.jobs[id].attempt == Count(s.air, id) && (id in s.tokens ==> TokenOk(c, s.jobs[id], s.tokens[id]))
  {
    hide QueueOk, JobsOk, Accounted, OrderOk, DoneOk, SlotsOk, NoneMissed, Count, Pending, AttemptsOk;
  }

  /** A delivery is finished, with its outcome, by exactly those events. */
  lemma FinishedExactly(c: Config, s: State, e: Event, id: nat, o: Outcome)
    requires Inv(c, s) && Enabled(s, e) && id !in s.finished
    ensures var t := Step(c, s, e);
            (id in t.finished && t.finished[id] == o) <==> Finishes(c, s, e, id, o)
  {
    hide Inv, Submit, Pump, Transmit, Report, AckTimeout, HandleAck, Finishes;
    match e
    case Submitted(l, n, att, p) => SubmittedExactly(c, s, e, id, o);
    case Transmitted(x) => TransmittedExactly(c, s, x, id, o);
    case Reported(x, delivered) => ReportedExactly(c, s, x, delivered, id, o);
    case TimedOut(x) => TimedOutExactly(c, s, x, id, o);
    case AckReceived(a, stopped) => AcknowledgedExactly(c, s, a, stopped, id, o);
    case _ => OthersFinishNone(c, s, e, id, o);
  }

  lemma OthersFinishNone(c: Config, s: State, e: Event, id: nat, o: Outcome)
    requires Enabled(s, e) && (e == Pumped || e == Halted)
    ensures Step(c, s, e).finished == s.finished && !Finishes(c, s, e, id, o)
  {
    hide FirstFree;
  }

  lemma SubmittedExactly(c: Config, s: State, e: Event, id: nat, o: Outcome)
    requires e.Submitted? && id !in s.finished
    ensures var t := Step(c, s, e); (id in t.finished && t.finished[id] == o) <==> Finishes(c, s, e, id, o)
  {
  }

  /** Completing a job finishes it if it holds its label's slot, and no other. */
  lemma CompletesExactly(s: State, x: nat, o: Outcome)
    requires x in s.jobs
    ensures var t := Complete(s, x, o);
            && t.finished == (if Pending(s.jobs, s.pending, x) then s.finished[x := o] else s.finished)
            && t.jobs == s.jobs && t.tokens == s.tokens && t.air == s.air && t.strict == s.strict
            && t.pending == (if Pending(s.jobs, s.pending, x) then s.pending - {s.jobs[x].del.labelId} else s.pending)
  {
  }

  lemma TransmittedExactly(c: Config, s: State, x: nat, id: nat, o: Outcome)
    requires Enabled(s, Transmitted(x)) && id !in s.finished
    ensures var t := Transmit(s, x);
            (id in t.finished && t.finished[id] == o) <==> Finishes(c, s, Transmitted(x), id, o)
  {
    hide Complete;
    CompletesExactly(s.(tokens := s.tokens - {x}), x, NeedsAttestation);
  }

  lemma ReportedExactly(c: Config, s: State, x: nat, delivered: bool, id: nat, o: Outcome)
    requires Inv(c, s) && Enabled(s, Reported(x, delivered)) && id !in s.finished
    ensures var t := Report(c, s, x, delivered);
            (id in t.finished && t.finished[id] == o) <==> Finishes(c, s, Reported(x, delivered), id, o)
  {
    hide Inv, Complete, Count;
    AttemptsAreAir(c, s, x);
    CompletesExactly(s.(tokens := s.tokens - {x}), x, Abandoned);
  }

  lemma TimedOutExactly(c: Config, s: State, x: nat, id: nat, o: Outcome)
    requires Inv(c, s) && Enabled(s, TimedOut(x)) && id !in s.finished
    ensures var t := AckTimeout(c, s, x);
            (id in t.finished && t.finished[id] == o) <==> Finishes(c, s, TimedOut(x), id, o)
  {
    hide Inv, Complete, Count;
    AttemptsAreAir(c, s, x);
    CompletesExactly(s.(tokens := s.tokens - {x}), x, Abandoned);
  }

  /** The label's slot holds the job that is pending for it. */
  lemma SlotHolds(c: Config, s: State, l: LabelId, id: nat)
    requires Inv(c, s)
    ensures l in s.pending && s.pending[l] == id <==> Pending(s.jobs, s.pending, id) && s.jobs[id].del.labelId == l
  {
    hide QueueOk, Accounted, TokensOk, AirOk, OrderOk, DoneOk, SlotsOk, NoneMissed, AttemptsOk;
  }

  lemma AcknowledgedExactly(c: Config, s: State, a: Ack, stopped: bool, id: nat, o: Outcome)
    requires Inv(c, s) && id !in s.finished
    ensures var t := HandleAck(c, s, a, stopped);
            (id in t.finished && t.finished[id] == o) <==> Finishes(c, s, AckReceived(a, stopped), id, o)
  {
    hide Inv, Answers, Complete, Pending;
    AnswersExactly(c, s, a, id);
    if Answers(s, a) {
      AnsweredFinishes(c, s, a, stopped);
    }
  }

  /** An acknowledgement answers the job that is pending for its label and carries its sequence. */
  lemma AnswersExactly(c: Config, s: State, a: Ack, id: nat)
    requires Inv(c, s)
    ensures Answers(s, a) && s.pending[a.labelId] == id <==>
            Pending(s.jobs, s.pending, id) && s.jobs[id].del.labelId == a.labelId
              && s.jobs[id].del.sequence == a.sequence
  {
    hide Inv;
    SlotHolds(c, s, a.labelId, id);
  }

  lemma AnsweredFinishes(c: Config, s: State, a: Ack, stopped: bool)
    requires Inv(c, s) && Answers(s, a)
    ensures HandleAck(c, s, a, stopped).finished == s.finished[s.pending[a.labelId] := Acknowledged(a.status)]
  {
    hide Inv, Complete;
    var x, t := s.pending[a.labelId], Note(c, s, a);
    SlotHolds(c, s, a.labelId, x);
    CompletesExactly(t, x, Acknowledged(a.status));
    CompletesExactly(t.(tokens := t.tokens - {x}), x, Acknowledged(a.status));
  }

  /** A submission joins the end of the queue as it was given, unless the coordinator is stopped. */
  lemma SubmissionQueues(c: Config, s: State, e: Event)
    requires e.Submitted?
    ensures var d := Delivery(s.next, e.labelId, e.sequence, e.attested, e.price);
            Step(c, s, e).queue == (if s.stopped then s.queue else s.queue + [d]) && Step(c, s, e).next == s.next + 1
  {
  }

  // ----- attempts -----

  /** A delivery goes on the air exactly when its transmission comes up and the label has not
      said that it refuses such frames. */
  lemma AirsExactly(c: Config, s: State, e: Event, id: nat)
    requires Inv(c, s) && Enabled(s, e)
    ensures Count(Step(c, s, e).air, id) == Count(s.air, id)
                                            + (if e == Transmitted(id) && !Unwelcome(s, id) then 1 else 0)
  {
    hide Inv, Submit, Pump, Report, AckTimeout, HandleAck, Count, Complete;
    match e
    case Transmitted(x) =>
      CompletesExactly(s.(tokens := s.tokens - {x}), x, NeedsAttestation);
      CountAppend(s.air, x, id);
    case _ => OnlyTransmissionsAir(c, s, e);
  }

  lemma TransmitAirs(s: State, x: nat)
    requires Enabled(s, Transmitted(x))
    ensures Transmit(s, x).air == if Unwelcome(s, x) then s.air else s.air + [x]
  {
    hide Complete;
    CompletesExactly(s.(tokens := s.tokens - {x}), x, NeedsAttestation);
  }

  lemma OnlyTransmissionsAir(c: Config, s: State, e: Event)
    requires Enabled(s, e) && !e.Transmitted?
    ensures Step(c, s, e).air == s.air
  {
    hide FirstFree, Complete;
    match e
    case Reported(x, _) => CompletesExactly(s.(tokens := s.tokens - {x}), x, Abandoned);
    case TimedOut(x) => CompletesExactly(s.(tokens := s.tokens - {x}), x, Abandoned);
    case AckReceived(a, _) => AcksFrame(c, s, a);
    case _ =>
  }

  /** What an acknowledgement leaves alone. */
  lemma AcksFrame(c: Config, s: State, a: Ack)
    ensures forall stopped :: var t := HandleAck(c, s, a, stopped);
            t.air == s.air && t.stopped == s.stopped && t.jobs == s.jobs && t.strict == Note(c, s, a).strict
  {
    hide Complete;
    if Answers(s, a) {
      var x, t := s.pending[a.labelId], Note(c, s, a);
      CompletesExactly(t, x, Acknowledged(a.status));
      CompletesExactly(t.(tokens := t.tokens - {x}), x, Acknowledged(a.status));
      CompletesFrame(t, x, Acknowledged(a.status));
      CompletesFrame(t.(tokens := t.tokens - {x}), x, Acknowledged(a.status));
    }
  }

  /** What a job waits for next, if its own event did not finish it: after a transmission the
      radio's report, after a good report the acknowledgement or its time-out, and after a
      failed report or a time-out another transmission. */
  lemma WaitsNext(c: Config, s: State, e: Event, id: nat)
    requires Enabled(s, e) && Own(e, id) && Pending(s.jobs, s.pending, id)
    ensures var t := Step(c, s, e);
            id !in t.finished ==>
              && Pending(t.jobs, t.pending, id)
              && (e.Transmitted? ==> Enabled(t, Reported(id, true)) && Enabled(t, Reported(id, false)))
              && (e == Reported(id, true) ==> Enabled(t, TimedOut(id)))
              && (e == Reported(id, false) || e.TimedOut? ==> Enabled(t, Transmitted(id)))
  {
    hide Pending, Transmit, Report, AckTimeout;
    match e
    case Transmitted(_) => WaitsForReport(s, id);
    case Reported(_, delivered) => WaitsAfterReport(c, s, id, delivered);
    case TimedOut(_) => WaitsAfterTimeout(c, s, id);
  }

  lemma WaitsForReport(s: State, id: nat)
    requires Enabled(s, Transmitted(id)) && Pending(s.jobs, s.pending, id)
    ensures var t := Transmit(s, id);
            id !in t.finished ==> Pending(t.jobs, t.pending, id) && Waits(t, id) && t.tokens[id].Sending?
  {
    hide Complete;
    CompletesExactly(s.(tokens := s.tokens - {id}), id, NeedsAttestation);
  }

  lemma WaitsAfterReport(c: Config, s: State, id: nat, delivered: bool)
    requires Enabled(s, Reported(id, delivered)) && Pending(s.jobs, s.pending, id)
    ensures var t := Report(c, s, id, delivered);
            id !in t.finished ==>
              Pending(t.jobs, t.pending, id) && Waits(t, id)
                && t.tokens[id] == if delivered then AwaitingAck else Retrying
  {
    hide Complete, Exhausted;
    CompletesExactly(s.(tokens := s.tokens - {id}), id, Abandoned);
  }

  lemma WaitsAfterTimeout(c: Config, s: State, id: nat)
    requires Enabled(s, TimedOut(id)) && Pending(s.jobs, s.pending, id)
    ensures var t := AckTimeout(c, s, id);
            id !in t.finished ==> Pending(t.jobs, t.pending, id) && Waits(t, id) && t.tokens[id] == Retrying
  {
    hide Complete, Exhausted;
    CompletesExactly(s.(tokens := s.tokens - {id}), id, Abandoned);
  }

  /** A failed report or a time-out of a pending job, below the limit and not stopped, leaves it
      pending, with a transmission still to come. */
  lemma FailureIsRetried(c: Config, s: State, e: Event, id: nat)
    requires Inv(c, s) && Enabled(s, e) && (e == Reported(id, false) || e == TimedOut(id))
    requires Pending(s.jobs, s.pending, id) && !s.stopped && !SpentAll(c, s.air, id)
    ensures var t := Step(c, s, e);
            && id !in t.finished && Pending(t.jobs, t.pending, id) && Enabled(t, Transmitted(id))
            && Count(t.air, id) == Count(s.air, id)
  {
    hide Inv, Step, Enabled, Count, Pending;
    PendingUnfinished(c, s, id);
    NotAbandoned(c, s, e, id);
    WaitsNext(c, s, e, id);
    AirsExactly(c, s, e, id);
  }

  /** After a failed report another transmission comes exactly if the coordinator is not stopped and
      attempts are left; after a time-out exactly if, besides, some delivery of the label is
      pending. Whether the job itself is still unfinished does not matter. */
  lemma RetriedExactly(c: Config, s: State, e: Event, id: nat)
    requires Inv(c, s) && Enabled(s, e) && (e == Reported(id, false) || e == TimedOut(id))
    ensures Enabled(Step(c, s, e), Transmitted(id)) <==>
            !s.stopped && !SpentAll(c, s.air, id) && (e.TimedOut? ==> s.jobs[id].del.labelId in s.pending)
  {
    hide Inv, Complete, Count;
    AttemptsAreAir(c, s, id);
    CompletesExactly(s.(tokens := s.tokens - {id}), id, Abandoned);
  }

  /** So a delivery may go on the air again although its label has applied it: the acknowledgement
      overtakes the radio's report. */
  function Overtaken(): seq<Event> {
    [Submitted("e", 1, true, 0), Pumped, Transmitted(0), AckReceived(Ack("e", 1, Applied), false), Reported(0, false)]
  }

  lemma FinishedMayAir(c: Config)
    requires c.maxInflight >= 1 && c.maxAttempts != 1
    ensures After(c, Overtaken()).Some?
    ensures var s := After(c, Overtaken()).value;
            0 in s.finished && s.finished[0] == Acknowledged(Applied)
              && Enabled(s, Transmitted(0)) && Step(c, s, Transmitted(0)).air == [0, 0]
  {
    hide After;
    var all := Overtaken();
    FirstFlight(c);
    assert all[..4][..3] == all[..3];
    AfterLast(c, all[..4]);
    AfterLast(c, all);
    assert all[..|all| - 1] == all[..4];
  }

  /** One frame on the air, not reported yet. */
  function Flying(): State {
    INITIAL.(pending := map["e" := 0], jobs := map[0 := Job(Delivery(0, "e", 1, true, 0), 1)],
             tokens := map[0 := Sending(1)], next := 1, air := [0], pumping := 1)
  }

  lemma FirstFlight(c: Config)
    requires c.maxInflight >= 1
    ensures After(c, Overtaken()[..3]) == Some(Flying())
  {
    hide After;
    var all := Overtaken()[..3];
    var d := Delivery(0, "e", 1, true, 0);
    var queued := INITIAL.(next := 1, queue := [d], pumping := 1);
    var begun := queued.(queue := [], pending := map["e" := 0], jobs := map[0 := Job(d, 0)], tokens := map[0 := Fresh]);
    assert FirstFree([d], map[]) == 0 && [d][..0] + [d][1..] == [];
    AfterNothing(c);
    AfterLast(c, all[..1]);
    assert all[..1][..0] == [] && all[..1][0] == Submitted("e", 1, true, 0);
    assert Submit(INITIAL, "e", 1, true, 0) == queued;
    assert After(c, all[..1]) == Some(queued);
    AfterLast(c, all[..2]);
    assert all[..2][..1] == all[..1];
    assert After(c, all[..2]) == Some(begun);
    AfterLast(c, all);
    assert all[..|all| - 1] == all[..2] && all[2] == Transmitted(0);
    assert begun.jobs[0 := Job(d, 1)] == Flying().jobs && begun.tokens[0 := Sending(1)] == Flying().tokens;
    assert Transmit(begun, 0) == Flying();
  }

  lemma AfterNothing(c: Config)
    ensures After(c, []) == Some(INITIAL)
  {
  }

  lemma AfterLast(c: Config, events: seq<Event>)
    requires |events| > 0
    ensures var n := |events| - 1;
            var before := After(c, events[..n]);
            before.Some? && Enabled(before.value, events[n]) ==>
              After(c, events) == Some(Step(c, before.value, events[n]))
  {
    hide Step, Enabled;
  }

  lemma PendingUnfinished(c: Config, s: State, id: nat)
    requires Inv(c, s) && Pending(s.jobs, s.pending, id)
    ensures id !in s.finished
  {
    hide QueueOk, Accounted, TokensOk, AirOk, OrderOk, DoneOk, SlotsOk, NoneMissed, AttemptsOk;
  }

  lemma NotAbandoned(c: Config, s: State, e: Event, id: nat)
    requires Inv(c, s) && Enabled(s, e) && (e == Reported(id, false) || e == TimedOut(id)) && id !in s.finished
    requires !s.stopped && !SpentAll(c, s.air, id)
    ensures id !in Step(c, s, e).finished
  {
    hide Inv, Step, Enabled, Count, Pending;
    if id in Step(c, s, e).finished { FinishedExactly(c, s, e, id, Step(c, s, e).finished[id]); }
  }

  /** A pending job is never stuck: a transmission, a report or a time-out of its own is due. */
  lemma NeverStuck(c: Config, s: State, id: nat)
    requires Inv(c, s) && Pending(s.jobs, s.pending, id)
    ensures exists e :: Own(e, id) && Enabled(s, e)
  {
    hide QueueOk, JobsOk, Accounted, AirOk, OrderOk, DoneOk, SlotsOk, NoneMissed, AttemptsOk;
    match s.tokens[id]
    case Sending(_) => assert Own(Reported(id, true), id) && Enabled(s, Reported(id, true));
    case AwaitingAck => assert Own(TimedOut(id), id) && Enabled(s, TimedOut(id));
    case _ => assert Own(Transmitted(id), id) && Enabled(s, Transmitted(id));
  }

  // ----- over every run -----

  /** Why a delivery ended as it did. */
  ghost predicate Reasons(c: Config, s: State) {
    forall id :: id in s.finished ==> Reason(c, s, id)
  }

  predicate Reason(c: Config, s: State, id: nat)
    requires id in s.finished
  {
    match s.finished[id]
    case Abandoned => s.stopped || SpentAll(c, s.air, id)
    case NeedsAttestation => id in s.jobs && Unwelcome(s, id)
    case Acknowledged(_) => id in s.jobs
  }

  lemma StepKeepsReasons(c: Config, s: State, e: Event)
    requires Inv(c, s) && Enabled(s, e) && Reasons(c, s)
    ensures Reasons(c, Step(c, s, e))
  {
    hide Inv, Step, Enabled, Count, Unwelcome, Reason, Keeps, Finishes;
    var t := Step(c, s, e);
    forall id | id in t.finished
      ensures Reason(c, t, id)
    {
      AirsExactly(c, s, e, id);
      StepFrame(c, s, e, id);
      if id in s.finished {
        DoneFiresOnce(c, s, e, id);
        ReasonStays(c, s, t, id);
      } else {
        FinishedExactly(c, s, e, id, t.finished[id]);
        ReasonGiven(c, s, t, e, id);
      }
    }
  }

  /** Nothing a reason rests on is taken back. */
  predicate Keeps(s: State, t: State, id: nat) {
    && (s.stopped ==> t.stopped) && s.strict <= t.strict
    && (id in s.jobs ==> id in t.jobs && t.jobs[id].del == s.jobs[id].del)
  }

  lemma StepFrame(c: Config, s: State, e: Event, id: nat)
    requires Inv(c, s) && Enabled(s, e)
    ensures Keeps(s, Step(c, s, e), id)
  {
    hide Inv, Pump, Transmit, Report, AckTimeout, HandleAck;
    match e
    case Pumped => PumpFrame(c, s, id);
    case Transmitted(x) => TransmitFrame(s, x, id);
    case Reported(x, delivered) => ReportFrame(c, s, x, delivered, id);
    case TimedOut(x) => TimeoutFrame(c, s, x, id);
    case AckReceived(a, stopped) => AcksFrame(c, s, a);
    case _ =>
  }

  lemma PumpFrame(c: Config, s: State, id: nat)
    requires Inv(c, s) && s.pumping > 0
    ensures Keeps(s, Pump(c, s), id)
  {
    hide Accounted, TokensOk, AirOk, OrderOk, DoneOk, SlotsOk, NoneMissed, AttemptsOk, JobsOk, FirstFree;
  }

  lemma TransmitFrame(s: State, x: nat, id: nat)
    requires Enabled(s, Transmitted(x))
    ensures Keeps(s, Transmit(s, x), id)
  {
    hide Complete;
    CompletesFrame(s.(tokens := s.tokens - {x}), x, NeedsAttestation);
  }

  lemma ReportFrame(c: Config, s: State, x: nat, delivered: bool, id: nat)
    requires Enabled(s, Reported(x, delivered))
    ensures Keeps(s, Report(c, s, x, delivered), id)
  {
    hide Complete;
    CompletesFrame(s.(tokens := s.tokens - {x}), x, Abandoned);
  }

  lemma TimeoutFrame(c: Config, s: State, x: nat, id: nat)
    requires Enabled(s, TimedOut(x))
    ensures Keeps(s, AckTimeout(c, s, x), id)
  {
    hide Complete;
    CompletesFrame(s.(tokens := s.tokens - {x}), x, Abandoned);
  }

  lemma CompletesFrame(s: State, x: nat, o: Outcome)
    requires x in s.jobs
    ensures var t := Complete(s, x, o); t.stopped == s.stopped && t.strict == s.strict && t.jobs == s.jobs
  {
  }

  lemma ReasonStays(c: Config, s: State, t: State, id: nat)
    requires id in s.finished && id in t.finished && t.finished[id] == s.finished[id] && Reason(c, s, id)
    requires Keeps(s, t, id) && Count(s.air, id) <= Count(t.air, id)
    ensures Reason(c, t, id)
  {
    hide Count;
  }

  lemma ReasonGiven(c: Config, s: State, t: State, e: Event, id: nat)
    requires id in t.finished && Finishes(c, s, e, id, t.finished[id])
    requires Keeps(s, t, id) && Count(s.air, id) <= Count(t.air, id)
    ensures Reason(c, t, id)
  {
    hide Count;
  }

  /** In every run: a delivery was abandoned only because the coordinator was stopped or all its
      attempts went on the air; and one was refused for want of an attestation only for a label
      that had refused such a frame. */
  lemma {:induction false} EveryOutcomeHasItsReason(c: Config, events: seq<Event>)
    requires After(c, events).Some?
    ensures Reasons(c, After(c, events).value)
    decreases |events|
  {
    hide Inv, Step, Enabled, Reasons;
    if |events| > 0 {
      var before := events[..|events| - 1];
      EveryOutcomeHasItsReason(c, before);
      RunKeeps(c, before);
      StepKeepsReasons(c, After(c, before).value, events[|events| - 1]);
    } else {
      NoOutcomes(c);
    }
  }

  lemma NoOutcomes(c: Config)
    ensures Reasons(c, INITIAL)
  {
  }

  /** A label is known to refuse unattested frames once one of its acknowledgements said so, if
      it is on the roster. */
  lemma StrictExactly(c: Config, s: State, e: Event, l: LabelId)
    requires Inv(c, s) && Enabled(s, e)
    ensures l in Step(c, s, e).strict <==>
            || l in s.strict
            || (e.AckReceived? && e.ack.labelId == l && e.ack.status == RefusedUnattested && l in c.roster)
  {
    hide Inv, Complete, FirstFree, HandleAck;
    match e
    case Transmitted(x) => CompletesFrame(s.(tokens := s.tokens - {x}), x, NeedsAttestation);
    case Reported(x, _) => CompletesFrame(s.(tokens := s.tokens - {x}), x, Abandoned);
    case TimedOut(x) => CompletesFrame(s.(tokens := s.tokens - {x}), x, Abandoned);
    case AckReceived(a, _) => AcksFrame(c, s, a);
    case _ =>
  }

  /** The coordinator stops when it is told to, for good, and nothing else changes then. */
  lemma StoppedExactly(c: Config, s: State, e: Event)
    requires Enabled(s, e)
    ensures Step(c, s, e).stopped <==> s.stopped || e == Halted
    ensures e == Halted ==> Step(c, s, e) == s.(stopped := true)
  {
    hide Complete, FirstFree, HandleAck;
    match e
    case Transmitted(x) => CompletesFrame(s.(tokens := s.tokens - {x}), x, NeedsAttestation);
    case Reported(x, _) => CompletesFrame(s.(tokens := s.tokens - {x}), x, Abandoned);
    case TimedOut(x) => CompletesFrame(s.(tokens := s.tokens - {x}), x, Abandoned);
    case AckReceived(a, _) => AcksFrame(c, s, a);
    case _ =>
  }
}
