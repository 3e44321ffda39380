/** What formation does with a radio, said by the fields of the radios and links concerned. */
module FormationLaws {
  import opened Common
  import opened MeshModel
  import opened Formation
  import NT = NeighbourTables

  // ----- the choice of a parent -----

  /** `p` is a listed, live, joined relay with room below it, near enough to the coordinator and
      heard well enough. */
  predicate CanTake(c: Config, t: Topology, id: NodeId, p: NodeId) {
    && p in Peers(t.neighbours, id) && p in t.nodes
    && t.nodes[p].alive && t.nodes[p].joined && t.nodes[p].kind != EndDevice
    && t.nodes[p].kids < c.maxChildren && t.nodes[p].depth < c.maxDepth
    && MakeLinkKey(id, p) in t.links && !t.links[MakeLinkKey(id, p)].cut && t.links[MakeLinkKey(id, p)].lqi >= 40
  }

  /** Link quality less twelve for each level below the coordinator. */
  function Worth(t: Topology, id: NodeId, p: NodeId): int
    requires p in t.nodes && MakeLinkKey(id, p) in t.links
  {
    t.links[MakeLinkKey(id, p)].lqi - 12 * t.nodes[p].depth
  }

  /** `p` can take the child, and no radio that can is worth more. */
  ghost predicate BestToTake(c: Config, t: Topology, id: NodeId, p: NodeId) {
    CanTake(c, t, id, p) && forall q :: CanTake(c, t, id, q) ==> Worth(t, id, q) <= Worth(t, id, p)
  }

  /** A parent is chosen exactly if some radio can take the child; it can, nobody listed that can
      is worth more, and nobody listed before it is worth as much. */
  lemma ParentChosenExactly(c: Config, t: Topology, id: NodeId)
    ensures BestParent(c, t, id).Some? <==> exists p :: CanTake(c, t, id, p)
    ensures BestParent(c, t, id).Some? ==> BestToTake(c, t, id, BestParent(c, t, id).value)
  {
    var peers, best := Peers(t.neighbours, id), BestParent(c, t, id);
    forall p
      ensures CanTake(c, t, id, p) <==> p in peers && Eligible(c, t, id, p)
      ensures CanTake(c, t, id, p) ==> best.Some? && Worth(t, id, p) <= Worth(t, id, best.value)
    {
      if p in peers && Eligible(c, t, id, p) {
        var i :| 0 <= i < |peers| && peers[i] == p;
        BestIsFirstBest(c, t, id, peers, i);
      }
    }
  }

  lemma FirstOfEquals(c: Config, t: Topology, id: NodeId, i: nat)
    requires i < |Peers(t.neighbours, id)| && CanTake(c, t, id, Peers(t.neighbours, id)[i])
    ensures BestParent(c, t, id).Some?
    ensures var b := BestParent(c, t, id).value;
            CanTake(c, t, id, b) && (Worth(t, id, Peers(t.neighbours, id)[i]) == Worth(t, id, b) ==>
              b in Peers(t.neighbours, id)[..i + 1])
  {
    ParentChosenExactly(c, t, id);
    BestIsFirstBest(c, t, id, Peers(t.neighbours, id), i);
  }

  // ----- an attempt -----

  predicate Waiting(s: State, id: NodeId) {
    id in s.t.nodes && s.t.nodes[id].alive && !s.t.nodes[id].joined
  }

  /** An attempt changes no radio. If it is of the round and the radio still wants to join, it
      leads to an exchange with a radio that can take it, or, if there is none, to another
      attempt; else to nothing. */
  lemma AttemptLeadsTo(c: Config, s: State, id: NodeId, round: nat)
    requires Attempt(id, round) in s.calls
    ensures var call := Attempt(id, round);
            var u := Step(c, s, Fired(call));
            && u == s.(calls := u.calls)
            && (round != s.round || !Waiting(s, id) ==> u.calls == s.calls - multiset{call})
            && (round == s.round && Waiting(s, id) ==>
                  if exists p :: CanTake(c, s.t, id, p)
                  then exists p :: BestToTake(c, s.t, id, p)
                         && u.calls == s.calls - multiset{call} + multiset{Exchange(id, p, round)}
                  else u.calls == s.calls - multiset{call} + multiset{call})
  {
    hide BestParent, CanTake, BestToTake;
    ParentChosenExactly(c, s.t, id);
    if exists p :: CanTake(c, s.t, id, p) { assert BestToTake(c, s.t, id, BestParent(c, s.t, id).value); }
  }

  // ----- the end of an exchange -----

  /** The round is current, both radios live, the parent joined, and there is room below it. */
  predicate CanEnd(c: Config, s: State, id: NodeId, p: NodeId, round: nat) {
    && round == s.round && id in s.t.nodes && p in s.t.nodes
    && s.t.nodes[id].alive && s.t.nodes[p].alive && s.t.nodes[p].joined && s.t.nodes[p].kids < c.maxChildren
  }

  /** Somebody called is still to join. */
  predicate SomebodyWaits(t: Topology) {
    exists x :: x in t.nodes && x != t.coord && t.nodes[x].alive && !t.nodes[x].joined
  }

  /** If it can end in an association, it does: the radio is joined below that parent, one
      deeper, the parent has one child more, and nothing else about any radio changes. If not,
      no radio changes, and one of the current round has another attempt coming. */
  lemma ExchangeEnds(c: Config, s: State, id: NodeId, p: NodeId, round: nat)
    requires Inv(c, s) && Exchange(id, p, round) in s.calls
    ensures var call := Exchange(id, p, round);
            var u := Step(c, s, Fired(call));
            var before, after := s.t.nodes, u.t.nodes;
            && u.t.coord == s.t.coord && u.t.links == s.t.links && u.t.neighbours == s.t.neighbours
            && u.round == s.round && u.enrolled == s.enrolled && u.deadlines == s.deadlines
            && (CanEnd(c, s, id, p, round) ==>
                  && id != p && after.Keys == before.Keys
                  && after[id] == before[id].(joined := true, parent := p, depth := before[p].depth + 1)
                  && after[p] == before[p].(kids := before[p].kids + 1)
                  && (forall x :: x in before && x != id && x != p ==> after[x] == before[x])
                  && u.calls == s.calls - multiset{call})
            && (!CanEnd(c, s, id, p, round) ==>
                  && after == before
                  && u.calls == if round == s.round then s.calls - multiset{call} + multiset{Attempt(id, round)}
                                else s.calls - multiset{call})
  {
    hide Inv, Callable, Joined, Fire;
    if round == s.round { NotItself(c, s, id, p); }
    ExchangeRadios(c, s, id, p, round);
    ExchangeRest(c, s, id, p, round);
    if CanEnd(c, s, id, p, round) { JoinedFields(s.t.nodes, id, p); }
  }

  lemma ExchangeRadios(c: Config, s: State, id: NodeId, p: NodeId, round: nat)
    ensures Fire(c, s, Exchange(id, p, round)).t ==
            if CanEnd(c, s, id, p, round) then s.t.(nodes := Joined(s.t.nodes, id, p)) else s.t
  {
    hide Callable, Joined;
  }

  lemma ExchangeRest(c: Config, s: State, id: NodeId, p: NodeId, round: nat)
    ensures var call := Exchange(id, p, round);
            var u := Fire(c, s, call);
            && u.round == s.round && u.enrolled == s.enrolled && u.deadlines == s.deadlines
            && u.calls == if round == s.round && !CanEnd(c, s, id, p, round)
                          then Again(Used(s.calls, call), Attempt(id, round)) else Used(s.calls, call)
  {
    hide Callable, Joined, Used, Again;
  }

  /** A radio that exchanges is not joined yet, and so is not its own parent. */
  lemma NotItself(c: Config, s: State, id: NodeId, p: NodeId)
    requires Inv(c, s) && Exchange(id, p, s.round) in s.calls
    ensures id in s.t.nodes && !s.t.nodes[id].joined
  {
    hide NT.TablesOk, TreeOk, FinishOk, CallsOnce, ParentsSettled, NobodyStranded;
    assert CallOk(c, s.t.coord, s.t.nodes, Exchange(id, p, s.round));
  }

  lemma JoinedFields(nodes: map<NodeId, Node>, id: NodeId, p: NodeId)
    requires id in nodes && p in nodes && id != p
    ensures var after := Joined(nodes, id, p);
            && after.Keys == nodes.Keys
            && after[id] == nodes[id].(joined := true, parent := p, depth := nodes[p].depth + 1)
            && after[p] == nodes[p].(kids := nodes[p].kids + 1)
            && (forall x :: x in nodes && x != id && x != p ==> after[x] == nodes[x])
  {
  }

  // ----- a run law -----

  /** A callback waits until it fires. */
  lemma CallWaits(c: Config, s: State, e: Event, call: Call)
    requires Inv(c, s) && Enabled(s, e) && call in s.calls && e != Fired(call)
    ensures call in Step(c, s, e).calls
  {
    hide Inv, Form, Fire, NT.Add, Recharged, Reset, Deadline;
    match e
    case FormCalled => FormAdds(s, call);
    case CoordinatorReset => ResetFrame(s);
    case Fired(other) => FireUses(c, s, other, call);
    case DeadlinePassed(round) => DeadlineFrame(s, round);
    case _ =>
  }

  lemma FormAdds(s: State, call: Call)
    requires call in s.calls
    ensures call in Form(s).calls
  {
    hide Callable, Attempts;
  }

  lemma FireUses(c: Config, s: State, other: Call, call: Call)
    requires other in s.calls && call in s.calls && other != call
    ensures call in Fire(c, s, other).calls
  {
    hide Callable, Joined, Accepts, BestParent;
  }

  lemma DeadlineFrame(s: State, round: nat)
    ensures Deadline(s, round).calls == s.calls
  {
  }

  lemma ResetFrame(s: State)
    ensures Reset(s).calls == s.calls && Reset(s).round == s.round && Reset(s).fired == s.fired
    ensures Reset(s).deadlines == s.deadlines && !Reset(s).formed
  {
  }

  /** No event of `mid` fires this callback. */
  predicate NotYet(mid: seq<Event>, call: Call) { forall i :: 0 <= i < |mid| ==> mid[i] != Fired(call) }

  lemma {:induction false} CallWaitsThrough(c: Config, events: seq<Event>, mid: seq<Event>, call: Call)
    requires After(c, events + mid).Some? && NotYet(mid, call)
    requires After(c, events).Some? ==> call in After(c, events).value.calls
    ensures After(c, events).Some? && call in After(c, events + mid).value.calls
    decreases |mid|
  {
    hide Inv, Step, Enabled;
    if |mid| == 0 {
      NothingAdded(events);
    } else {
      var n := |mid| - 1;
      assert (events + mid)[..|events + mid| - 1] == events + mid[..n] && (events + mid)[|events + mid| - 1] == mid[n];
      CallWaitsThrough(c, events, mid[..n], call);
      RunKeeps(c, events + mid[..n]);
      CallWaits(c, After(c, events + mid[..n]).value, mid[n], call);
    }
  }

  /** In every run: a current attempt of a live radio that some radio can take is followed by an
      exchange with the best of those; and whatever happens in between, if that exchange can end in
      an association when it ends, the radio is then joined below that parent. */
  lemma AttemptJoins(c: Config, events: seq<Event>, id: NodeId) returns (p: NodeId)
    requires After(c, events).Some?
    requires var s := After(c, events).value;
             Attempt(id, s.round) in s.calls && Waiting(s, id) && exists q :: CanTake(c, s.t, id, q)
    ensures var s := After(c, events).value;
            BestToTake(c, s.t, id, p)
    ensures var s := After(c, events).value;
            var tried := events + [Fired(Attempt(id, s.round))];
            forall mid ::
              After(c, tried + mid).Some? && NotYet(mid, Exchange(id, p, s.round))
              && CanEnd(c, After(c, tried + mid).value, id, p, s.round) ==>
                JoinsAfter(c, tried + mid, id, p, s.round)
  {
    hide After, Step, Inv, CanTake, BestToTake, CanEnd, Enabled;
    var s := After(c, events).value;
    var call := Attempt(id, s.round);
    CallEnabled(s, call);
    AttemptLeadsTo(c, s, id, s.round);
    var u := Step(c, s, Fired(call));
    p :| BestToTake(c, s.t, id, p) && u.calls == s.calls - multiset{call} + multiset{Exchange(id, p, s.round)};
    AfterOne(c, events, Fired(call), s);
    var tried := events + [Fired(call)];
    forall mid | After(c, tried + mid).Some? && NotYet(mid, Exchange(id, p, s.round))
                 && CanEnd(c, After(c, tried + mid).value, id, p, s.round)
      ensures JoinsAfter(c, tried + mid, id, p, s.round)
    {
      CallWaitsThrough(c, tried, mid, Exchange(id, p, s.round));
      ExchangeJoins(c, tried + mid, id, p, s.round);
    }
  }

  lemma CallEnabled(s: State, call: Call)
    requires call in s.calls
    ensures Enabled(s, Fired(call))
  {
  }

  /** Let the exchange end after this history, and the radio is joined below that parent. */
  ghost predicate JoinsAfter(c: Config, events: seq<Event>, id: NodeId, p: NodeId, round: nat) {
    var end := After(c, events + [Fired(Exchange(id, p, round))]);
    && end.Some? && id in end.value.t.nodes && p in end.value.t.nodes
    && end.value.t.nodes[id].joined && end.value.t.nodes[id].parent == p
    && end.value.t.nodes[id].depth == end.value.t.nodes[p].depth + 1
  }

  lemma ExchangeJoins(c: Config, events: seq<Event>, id: NodeId, p: NodeId, round: nat)
    requires After(c, events).Some? && Exchange(id, p, round) in After(c, events).value.calls
    requires CanEnd(c, After(c, events).value, id, p, round)
    ensures JoinsAfter(c, events, id, p, round)
  {
    hide After, Step, Inv;
    var s := After(c, events).value;
    RunKeeps(c, events);
    ExchangeEnds(c, s, id, p, round);
    AfterOne(c, events, Fired(Exchange(id, p, round)), s);
  }

  // ----- a round begins, a coordinator restarts, a round ends -----

  /** A new round calls exactly the live radios still to join, each once, and takes back nothing. */
  lemma RoundCalls(c: Config, s: State)
    requires Inv(c, s)
    ensures var u := Step(c, s, FormCalled);
            if s.t.coord == "" then u == s
            else
              && u.t == s.t && u.round == s.round + 1 && !u.formed && u.fired == s.fired
              && (forall id :: id in u.enrolled <==> Waiting(s, id) && id != s.t.coord)
              && (forall k :: u.calls[k] == s.calls[k] +
                    if k.Attempt? && k.round == u.round && Waiting(s, k.id) && k.id != s.t.coord then 1 else 0)
              && (forall r :: u.deadlines[r] == s.deadlines[r] +
                    if r != u.round then 0 else if u.enrolled == {} then 2 else 1)
  {
    hide Inv;
    if s.t.coord != "" {
      var ids := Callable(s.t);
      forall k: Call
        ensures k in (set id | id in ids :: Attempt(id, s.round + 1)) <==>
                k.Attempt? && k.round == s.round + 1 && k.id in ids
      {
      }
    }
  }

  /** After a restart nobody but the coordinator is joined, and nobody has a child. */
  lemma RestartForgets(c: Config, s: State)
    ensures var u := Step(c, s, CoordinatorReset);
            && u == s.(t := u.t, enrolled := {}, formed := false)
            && u.t == s.t.(nodes := u.t.nodes) && u.t.nodes.Keys == s.t.nodes.Keys
            && forall x :: x in s.t.nodes ==>
                 u.t.nodes[x] == if x == s.t.coord then s.t.nodes[x].(kids := 0)
                                 else s.t.nodes[x].(joined := false, parent := "", depth := 0, kids := 0)
  {
  }

  /** A round is announced exactly when its deadline passes or the last radio still to join has
      joined, and no round twice; and exactly an announcement puts the flag up. */
  lemma AnnouncedExactly(c: Config, s: State, e: Event, r: nat)
    requires Inv(c, s) && Enabled(s, e)
    ensures r in Step(c, s, e).fired <==>
            || r in s.fired
            || e == DeadlinePassed(r)
            || (e.Fired? && e.call.Exchange? && e.call.round == r && CanEnd(c, s, e.call.id, e.call.parent, r)
                && !SomebodyWaits(Step(c, s, e).t))
    ensures Step(c, s, e).formed <==>
            if e == CoordinatorReset || (e == FormCalled && s.t.coord != "") then false
            else s.formed || Step(c, s, e).fired != s.fired
  {
    hide NT.TablesOk, TreeOk, FinishOk, CallsOk, BestParent, Joined, NT.Add, Recharged, Reset, Callable, SomebodyWaits;
    match e
    case CoordinatorReset => ResetFrame(s);
    case Fired(call) => FiredAnnounces(c, s, call, r);
    case _ =>
  }

  lemma FiredAnnounces(c: Config, s: State, call: Call, r: nat)
    requires call in s.calls
    ensures var u := Fire(c, s, call);
            && (r in u.fired <==>
                || r in s.fired
                || (call.Exchange? && call.round == r && CanEnd(c, s, call.id, call.parent, r) && !SomebodyWaits(u.t)))
            && (u.formed <==> s.formed || u.fired != s.fired)
  {
    hide BestParent, Joined, Callable, SomebodyWaits;
    WaitersAreCallable(Fire(c, s, call).t);
  }

  lemma WaitersAreCallable(t: Topology)
    ensures SomebodyWaits(t) <==> Callable(t) != {}
  {
    if SomebodyWaits(t) {
      var x :| x in t.nodes && x != t.coord && t.nodes[x].alive && !t.nodes[x].joined;
      assert x in Callable(t);
    }
    if Callable(t) != {} {
      var x :| x in Callable(t);
      assert x in t.nodes;
    }
  }
}
