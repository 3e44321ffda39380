/** When the network's `formed` flag can be believed: a deadline left over from an earlier
    round is the only event that spoils it, and there is none to come while every round is
    announced before the next is called. */
module FormedFlag {
  import opened Common
  import opened MeshModel
  import opened Formation

  /** The flag, if up, speaks of the current round. */
  predicate Trusted(s: State) { s.formed ==> s.round in s.fired }

  /** The deadline of an unannounced earlier round, in a round not yet announced. */
  predicate Spoils(s: State, e: Event) {
    e.DeadlinePassed? && e.round < s.round && e.round !in s.fired && s.round !in s.fired
  }

  /** A step keeps the flag right exactly when it is not such a deadline. */
  lemma TrustLostExactly(c: Config, s: State, e: Event)
    requires Inv(c, s) && Enabled(s, e) && Trusted(s)
    ensures Trusted(Step(c, s, e)) <==> !Spoils(s, e)
  {
    hide TreeOk, CallsOk, Callable, BestParent, Joined, Accepts, Attempts;
    hide NT.TablesOk, NT.Trimmed, NT.MetAll, NT.Candidates, NT.Add, Reset;
    match e
    case CoordinatorReset => ResetLowers(s);
    case DeadlinePassed(round) => assert round <= s.round;
    case _ =>
  }

  lemma ResetLowers(s: State)
    ensures !Reset(s).formed && Reset(s).round == s.round && Reset(s).fired == s.fired
    ensures Reset(s).deadlines == s.deadlines && Reset(s).t.coord == s.t.coord
  {
  }

  /** A round may be called once the last has been announced. */
  predicate Prudent(s: State, e: Event) {
    e.FormCalled? ==> s.round == 0 || s.round in s.fired || s.t.coord == ""
  }

  ghost predicate AllPrudent(c: Config, events: seq<Event>) {
    |events| > 0 ==>
      var before := events[..|events| - 1];
      AllPrudent(c, before) && (After(c, before).Some? ==> Prudent(After(c, before).value, events[|events| - 1]))
  }

  /** Deadlines belong to rounds there have been, and a round not announced has its own to come. */
  ghost predicate DeadlinesDue(s: State) {
    && (forall r :: r in s.deadlines ==> 1 <= r <= s.round)
    && (s.round >= 1 ==> s.t.coord != "" && (s.round in s.fired || s.round in s.deadlines))
  }

  /** No unannounced earlier round has a deadline to come. */
  ghost predicate NoneLeftOver(s: State) {
    forall r :: r in s.deadlines && r < s.round ==> r in s.fired
  }

  lemma StepDue(c: Config, s: State, e: Event)
    requires Enabled(s, e) && DeadlinesDue(s)
    ensures DeadlinesDue(Step(c, s, e))
    ensures NoneLeftOver(s) && Prudent(s, e) ==> NoneLeftOver(Step(c, s, e))
    ensures NoneLeftOver(s) ==> !Spoils(s, e)
  {
    hide Form, Fire, Reset, Deadline, Recharged, Prudent, NT.Add;
    match e
    case FormCalled => FormDue(s);
    case CoordinatorReset => ResetLowers(s);
    case Fired(call) => FireDue(c, s, call);
    case DeadlinePassed(round) => DeadlineDue(s, round);
    case Register(spec, lqi) => CoordStays(s.t, c.range, spec, lqi);
    case LinksChange(_) =>
    case BatteryChange(id, charge) => RechargedCoord(s.t, id, charge);
  }

  lemma RechargedCoord(t: Topology, id: NodeId, charge: real)
    ensures Recharged(t, id, charge).coord == t.coord
  {
  }

  lemma CoordStays(t: Topology, range: real, spec: NT.NodeSpec, lqi: NodeId -> int)
    ensures t.coord != "" ==> NT.Add(t, range, spec, lqi).0.coord == t.coord
  {
    hide NT.Trimmed, NT.MetAll, NT.Candidates;
  }

  lemma FormDue(s: State)
    requires DeadlinesDue(s)
    ensures DeadlinesDue(Form(s)) && (NoneLeftOver(s) && Prudent(s, FormCalled) ==> NoneLeftOver(Form(s)))
  {
    hide Callable, WithAttempts;
    if s.t.coord != "" {
      var u := Form(s);
      assert forall r :: r in u.deadlines <==> r in s.deadlines || r == u.round;
    }
  }

  lemma FireDue(c: Config, s: State, call: Call)
    requires DeadlinesDue(s)
    ensures DeadlinesDue(Fire(c, s, call)) && (NoneLeftOver(s) ==> NoneLeftOver(Fire(c, s, call)))
  {
    hide Callable, BestParent, Joined, Accepts, Used, Again;
  }

  lemma DeadlineDue(s: State, round: nat)
    requires round in s.deadlines && DeadlinesDue(s)
    ensures DeadlinesDue(Deadline(s, round)) && (NoneLeftOver(s) ==> NoneLeftOver(Deadline(s, round)))
  {
    var u := s.deadlines - multiset{round};
    assert forall r :: r in u ==> r in s.deadlines;
    assert forall r :: r in s.deadlines && r != round ==> r in u;
  }

  lemma {:induction false} RunDue(c: Config, events: seq<Event>)
    requires After(c, events).Some?
    ensures DeadlinesDue(After(c, events).value)
    decreases |events|
  {
    hide DeadlinesDue, Step, Enabled;
    if |events| == 0 {
      StartDue();
    } else {
      RunDue(c, events[..|events| - 1]);
      StepDue(c, After(c, events[..|events| - 1]).value, events[|events| - 1]);
    }
  }

  lemma StartDue()
    ensures DeadlinesDue(START) && NoneLeftOver(START) && Trusted(START)
  {
  }

  /** In every run in which a round is called only once the last has been announced, the flag
      is right at every moment, whatever resets, registrations and stale callbacks come between. */
  lemma {:induction false} PrudentRunsTrusted(c: Config, events: seq<Event>)
    requires After(c, events).Some? && AllPrudent(c, events)
    ensures Trusted(After(c, events).value) && NoneLeftOver(After(c, events).value)
    decreases |events|
  {
    hide DeadlinesDue, NoneLeftOver, Step, Enabled, Inv, Spoils, Trusted, Prudent;
    if |events| == 0 {
      StartDue();
    } else {
      var before, e := events[..|events| - 1], events[|events| - 1];
      PrudentRunsTrusted(c, before);
      RunDue(c, before);
      RunKeeps(c, before);
      var s := After(c, before).value;
      StepDue(c, s, e);
      TrustLostExactly(c, s, e);
    }
  }

  /** And no less will do: after any history whose round is not announced, calling another
      round lets the first one's deadline put the flag up wrongly. */
  lemma ImprudentCallMisleads(c: Config, events: seq<Event>, s: State)
    requires After(c, events) == Some(s) && !Prudent(s, FormCalled)
    ensures var end := After(c, events + [FormCalled] + [DeadlinePassed(s.round)]);
            end.Some? && end.value.formed && end.value.round == s.round + 1 && !Trusted(end.value)
  {
    hide After, Callable, Attempts, Fire, NT.Add, Reset;
    RunDue(c, events);
    RunKeeps(c, events);
    NotYetFired(c, s);
    var u := Form(s);
    AfterOne(c, events, FormCalled, s);
    assert s.round in u.deadlines;
    AfterOne(c, events + [FormCalled], DeadlinePassed(s.round), u);
  }

  lemma NotYetFired(c: Config, s: State)
    requires Inv(c, s)
    ensures s.round + 1 !in s.fired
  {
    hide TreeOk, CallsOk, NT.TablesOk;
  }
}
