/** Network formation as a state machine: a coordinator calls for joins, every other
    radio tries, exchanges and retries, and the callbacks fire in any order, stale ones
    included, while radios are added and links change. */
module Formation {
  import opened Common
  import opened MeshModel
  import NT = NeighbourTables

  datatype Config = Config(maxChildren: int, maxDepth: int, range: real)

  /** A scheduled callback: an association attempt, or the end of an exchange with a
      chosen parent. `round` is the formation that scheduled it. */
  datatype Call = Attempt(id: NodeId, round: nat) | Exchange(id: NodeId, parent: NodeId, round: nat)

  /** `enrolled` holds the radios the latest formation called for. `formed` is the
      network's flag, `fired` the rounds whose completion has been announced, `deadlines`
      the scheduled announcements, each by its round. */
  datatype State = State(t: Topology, round: nat, calls: multiset<Call>, enrolled: set<NodeId>,
                         formed: bool, fired: set<nat>, deadlines: multiset<nat>)

  const START := State(Topology("", map[], map[], map[]), 0, multiset{}, {}, false, {}, multiset{})

  // ----- choosing a parent -----

  const JOIN_LQI := 40

  /** Could `id` associate with `p` now? */
  predicate Eligible(c: Config, t: Topology, id: NodeId, p: NodeId) {
    && p in t.nodes && t.nodes[p].alive && t.nodes[p].joined
    && t.nodes[p].kind != EndDevice
    && t.nodes[p].kids < c.maxChildren && t.nodes[p].depth + 1 <= c.maxDepth
    && var key := MakeLinkKey(id, p);
    && key in t.links && !t.links[key].cut && t.links[key].lqi >= JOIN_LQI
  }

  function Score(c: Config, t: Topology, id: NodeId, p: NodeId): int
    requires Eligible(c, t, id, p)
  {
    t.links[MakeLinkKey(id, p)].lqi - 12 * t.nodes[p].depth
  }

  /** The first peer of the highest score among those listed. */
  function BestOf(c: Config, t: Topology, id: NodeId, peers: seq<NodeId>): (best: Option<NodeId>)
    ensures best.Some? ==> best.value in peers && Eligible(c, t, id, best.value)
    ensures best.None? ==> forall p :: p in peers ==> !Eligible(c, t, id, p)
  {
    if |peers| == 0 then None
    else
      var p, b := peers[|peers| - 1], BestOf(c, t, id, peers[..|peers| - 1]);
      if Eligible(c, t, id, p) && (b.None? || Score(c, t, id, p) > Score(c, t, id, b.value)) then Some(p) else b
  }

  function BestParent(c: Config, t: Topology, id: NodeId): Option<NodeId> {
    BestOf(c, t, id, Peers(t.neighbours, id))
  }

  /** The parent chosen scores no less than any eligible peer, and more than any listed before it. */
  lemma {:induction false} BestIsFirstBest(c: Config, t: Topology, id: NodeId, peers: seq<NodeId>, i: nat)
    requires i < |peers| && Eligible(c, t, id, peers[i])
    ensures BestOf(c, t, id, peers).Some?
    ensures var b := BestOf(c, t, id, peers).value;
            && Score(c, t, id, peers[i]) <= Score(c, t, id, b)
            && (Score(c, t, id, peers[i]) == Score(c, t, id, b) ==> b in peers[..i + 1])
    decreases |peers|
  {
    var init := peers[..|peers| - 1];
    if i < |init| {
      assert init[i] == peers[i] && init[..i + 1] == peers[..i + 1];
      BestIsFirstBest(c, t, id, init, i);
    } else {
      assert peers[..i + 1] == peers;
      if BestOf(c, t, id, init).Some? { assert BestOf(c, t, id, init).value in init; }
    }
  }

  // ----- the steps -----

  function Callable(t: Topology): set<NodeId> {
    set id | id in t.nodes && id != t.coord && t.nodes[id].alive && !t.nodes[id].joined
  }

  function Attempts(ids: set<NodeId>, round: nat): multiset<Call> {
    multiset(set id | id in ids :: Attempt(id, round))
  }

  /** A new formation round; callbacks of earlier rounds become stale. Its deadline is
      set, and so is an immediate end if there is nobody to call. */
  function Form(s: State): State {
    if s.t.coord == "" then s
    else
      var r, ids := s.round + 1, Callable(s.t);
      s.(round := r, calls := WithAttempts(s.calls, ids, r), enrolled := ids, formed := false,
         deadlines := WithDeadlines(s.deadlines, r, ids))
  }

  function WithAttempts(calls: multiset<Call>, ids: set<NodeId>, round: nat): multiset<Call> {
    calls + Attempts(ids, round)
  }

  /** The deadline of a round, and its immediate end if it calls nobody. */
  function WithDeadlines(deadlines: multiset<nat>, round: nat, ids: set<NodeId>): multiset<nat> {
    if ids == {} then deadlines + multiset{round, round} else deadlines + multiset{round}
  }

  /** Announces the completion of a round, once. The round need not be the current one. */
  function Finish(s: State, round: nat): State {
    if round in s.fired then s else s.(formed := true, fired := s.fired + {round})
  }

  function Deadline(s: State, round: nat): State {
    Finish(s.(deadlines := s.deadlines - multiset{round}), round)
  }

  function Forgotten(coord: NodeId, id: NodeId, n: Node): Node {
    if id == coord then n.(kids := 0) else n.(joined := false, parent := "", depth := 0, kids := 0)
  }

  /** The coordinator reboots: every association is lost. A new round follows. */
  function Reset(s: State): State {
    s.(t := s.t.(nodes := map id | id in s.t.nodes :: Forgotten(s.t.coord, id, s.t.nodes[id])),
       enrolled := {}, formed := false)
  }

  function Joined(nodes: map<NodeId, Node>, id: NodeId, p: NodeId): map<NodeId, Node>
    requires id in nodes && p in nodes
  {
    var m := nodes[id := nodes[id].(joined := true, parent := p, depth := nodes[p].depth + 1)];
    m[p := m[p].(kids := m[p].kids + 1)]
  }

  /** May the exchange end in an association? */
  predicate Accepts(c: Config, nodes: map<NodeId, Node>, id: NodeId, p: NodeId) {
    && id in nodes && p in nodes && nodes[id].alive && nodes[p].alive && nodes[p].joined
    && nodes[p].kids < c.maxChildren
  }

  function Used(calls: multiset<Call>, call: Call): multiset<Call> { calls - multiset{call} }

  function Again(calls: multiset<Call>, call: Call): multiset<Call> { calls + multiset{call} }

  function Fire(c: Config, s: State, call: Call): State {
    var u := s.(calls := Used(s.calls, call));
    if call.round != s.round then u
    else
      match call
      case Attempt(id, round) =>
        if id !in s.t.nodes || !s.t.nodes[id].alive || s.t.nodes[id].joined then u
        else
          var next := match BestParent(c, s.t, id) case None => call case Some(p) => Exchange(id, p, round);
          u.(calls := Again(u.calls, next))
      case Exchange(id, p, round) =>
        if !Accepts(c, s.t.nodes, id, p) then u.(calls := Again(u.calls, Attempt(id, round)))
        else
          var v := u.(t := u.t.(nodes := Joined(u.t.nodes, id, p)));
          if Callable(v.t) == {} then Finish(v, round) else v
  }

  datatype Event =
    | FormCalled
    | CoordinatorReset
    | Fired(call: Call)
    | DeadlinePassed(round: nat)
    | Register(spec: NT.NodeSpec, lqi: NodeId -> int)
    /** Links fade, are cut, restored or avoided. */
    | LinksChange(links: map<LinkKey, Link>)
    | BatteryChange(id: NodeId, charge: real)

  predicate Enabled(s: State, e: Event) {
    match e
    case Fired(call) => call in s.calls
    case DeadlinePassed(round) => round in s.deadlines
    case LinksChange(links) => links.Keys == s.t.links.Keys
    case _ => true
  }

  ghost function Step(c: Config, s: State, e: Event): State
    requires Enabled(s, e)
  {
    match e
    case FormCalled => Form(s)
    case CoordinatorReset => Reset(s)
    case Fired(call) => Fire(c, s, call)
    case DeadlinePassed(round) => Deadline(s, round)
    case Register(spec, lqi) => s.(t := NT.Add(s.t, c.range, spec, lqi).0)
    case LinksChange(links) => s.(t := s.t.(links := links))
    case BatteryChange(id, charge) => s.(t := Recharged(s.t, id, charge))
  }

  function Recharged(t: Topology, id: NodeId, charge: real): Topology {
    if id in t.nodes then t.(nodes := t.nodes[id := t.nodes[id].(battery := charge)]) else t
  }

  // ----- the tree -----

  function Children(coord: NodeId, nodes: map<NodeId, Node>, p: NodeId): set<NodeId> {
    set id | id in nodes && id != coord && nodes[id].joined && nodes[id].parent == p
  }

  predicate RootOk(coord: NodeId, nodes: map<NodeId, Node>) {
    && "" !in nodes
    && (coord != "" ==>
          coord in nodes && nodes[coord].joined && nodes[coord].depth == 0 && nodes[coord].kind == Coordinator)
  }

  /** A joined radio hangs below a joined relay, one deeper, within the depth limit. */
  predicate HangsOk(c: Config, nodes: map<NodeId, Node>, n: Node) {
    && n.parent in nodes && nodes[n.parent].joined && nodes[n.parent].kind != EndDevice
    && n.depth == nodes[n.parent].depth + 1 && 1 <= n.depth <= c.maxDepth
  }

  ghost predicate ParentsOk(c: Config, coord: NodeId, nodes: map<NodeId, Node>) {
    forall id :: id in nodes && id != coord && nodes[id].joined ==> HangsOk(c, nodes, nodes[id])
  }

  /** Child counters are exact and within the limit. */
  ghost predicate KidsOk(c: Config, coord: NodeId, nodes: map<NodeId, Node>) {
    forall p :: p in nodes ==>
      nodes[p].kids == |Children(coord, nodes, p)| && (nodes[p].kids == 0 || nodes[p].kids <= c.maxChildren)
  }

  ghost predicate TreeOk(c: Config, coord: NodeId, nodes: map<NodeId, Node>) {
    RootOk(coord, nodes) && ParentsOk(c, coord, nodes) && KidsOk(c, coord, nodes)
  }

  /** The node `k` associations above `id`. */
  function Ancestor(nodes: map<NodeId, Node>, id: NodeId, k: nat): NodeId
    decreases k
  {
    if k == 0 || id !in nodes then id else Ancestor(nodes, nodes[id].parent, k - 1)
  }

  /** From any joined radio, following parents reaches the coordinator in exactly as
      many steps as its depth says, and no sooner. */
  lemma {:induction false} ParentsReachCoordinator(c: Config, coord: NodeId, nodes: map<NodeId, Node>, id: NodeId)
    requires TreeOk(c, coord, nodes) && coord != "" && id in nodes && (id == coord || nodes[id].joined)
    ensures 0 <= nodes[id].depth && Ancestor(nodes, id, nodes[id].depth) == coord
    ensures forall k :: 0 <= k < nodes[id].depth ==> Ancestor(nodes, id, k) != coord
    decreases if id in nodes && id != coord then nodes[id].depth else 0
  {
    hide KidsOk;
    if id != coord {
      assert HangsOk(c, nodes, nodes[id]);
      ParentsReachCoordinator(c, coord, nodes, nodes[id].parent);
      forall k | 0 <= k < nodes[id].depth
        ensures Ancestor(nodes, id, k) != coord
      {
        if k > 0 { assert Ancestor(nodes, id, k) == Ancestor(nodes, nodes[id].parent, k - 1); }
      }
    }
  }

  lemma JoinParents(c: Config, coord: NodeId, nodes: map<NodeId, Node>, id: NodeId, p: NodeId)
    requires ParentsOk(c, coord, nodes) && RootOk(coord, nodes) && coord != ""
    requires id in nodes && p in nodes && id != coord && !nodes[id].joined && nodes[p].joined
             && nodes[p].kind != EndDevice
    requires nodes[p].depth + 1 <= c.maxDepth
    ensures ParentsOk(c, coord, Joined(nodes, id, p)) && RootOk(coord, Joined(nodes, id, p))
  {
    var after := Joined(nodes, id, p);
    assert p != coord ==> HangsOk(c, nodes, nodes[p]);
    forall x | x in after && x != coord && after[x].joined
      ensures HangsOk(c, after, after[x])
    {
      if x != id { assert HangsOk(c, nodes, nodes[x]); }
    }
  }

  lemma JoinChildren(coord: NodeId, nodes: map<NodeId, Node>, id: NodeId, p: NodeId, q: NodeId)
    requires id in nodes && p in nodes && id != coord && id != p && !nodes[id].joined
    ensures Children(coord, Joined(nodes, id, p), q) == Children(coord, nodes, q) + (if q == p then {id} else {})
    ensures id !in Children(coord, nodes, q)
  {
  }

  lemma JoinKids(c: Config, coord: NodeId, nodes: map<NodeId, Node>, id: NodeId, p: NodeId)
    requires KidsOk(c, coord, nodes) && id in nodes && p in nodes && id != coord && id != p && !nodes[id].joined
    requires nodes[p].kids < c.maxChildren
    ensures KidsOk(c, coord, Joined(nodes, id, p))
  {
    hide Children;
    var after := Joined(nodes, id, p);
    forall q | q in after
      ensures after[q].kids == |Children(coord, after, q)| && (after[q].kids == 0 || after[q].kids <= c.maxChildren)
    {
      JoinChildren(coord, nodes, id, p, q);
      if q != p { assert Children(coord, nodes, q) + {} == Children(coord, nodes, q); }
    }
  }

  lemma ResetTree(c: Config, coord: NodeId, nodes: map<NodeId, Node>)
    requires TreeOk(c, coord, nodes)
    ensures TreeOk(c, coord, map id | id in nodes :: Forgotten(coord, id, nodes[id]))
  {
    var after := map id | id in nodes :: Forgotten(coord, id, nodes[id]);
    forall p | p in after
      ensures Children(coord, after, p) == {}
    {
    }
  }

  lemma RegisterParents(c: Config, coord: NodeId, nodes: map<NodeId, Node>, id: NodeId, n: Node, root: NodeId)
    requires ParentsOk(c, coord, nodes) && id !in nodes
    requires if root == id then coord == "" && "" !in nodes else root == coord && !n.joined
    ensures ParentsOk(c, root, nodes[id := n])
  {
    var after := nodes[id := n];
    forall x | x in after && x != root && after[x].joined
      ensures HangsOk(c, after, after[x])
    {
      assert HangsOk(c, nodes, nodes[x]);
    }
  }

  lemma RegisterChildren(c: Config, coord: NodeId, nodes: map<NodeId, Node>, id: NodeId, n: Node, root: NodeId,
                         p: NodeId)
    requires ParentsOk(c, coord, nodes) && id !in nodes
    requires if root == id then coord == "" && "" !in nodes else root == coord && !n.joined
    ensures Children(root, nodes[id := n], p) == if p == id then {} else Children(coord, nodes, p)
  {
    hide HangsOk;
    assert Children(root, nodes[id := n], p) == Children(coord, nodes, p);
    NobodyBelow(c, coord, nodes, id);
  }

  lemma NobodyBelow(c: Config, coord: NodeId, nodes: map<NodeId, Node>, id: NodeId)
    requires ParentsOk(c, coord, nodes) && (id !in nodes || !nodes[id].joined)
    ensures Children(coord, nodes, id) == {}
  {
    forall x | x in Children(coord, nodes, id)
      ensures HangsOk(c, nodes, nodes[x])
    {
    }
  }

  lemma RegisterTree(c: Config, coord: NodeId, nodes: map<NodeId, Node>, id: NodeId, n: Node, root: NodeId)
    requires TreeOk(c, coord, nodes) && id !in nodes && id != "" && n.kids == 0 && n.depth == 0
             && (root == id || root == coord)
    requires if root == id then coord == "" && n.joined && n.kind == Coordinator else !n.joined
    ensures TreeOk(c, root, nodes[id := n])
  {
    hide ParentsOk, Children;
    RegisterParents(c, coord, nodes, id, n, root);
    var after := nodes[id := n];
    forall p | p in after
      ensures after[p].kids == |Children(root, after, p)| && (after[p].kids == 0 || after[p].kids <= c.maxChildren)
    {
      RegisterChildren(c, coord, nodes, id, n, root, p);
    }
  }

  // ----- the callbacks -----

  predicate Current(calls: multiset<Call>, round: nat, k: Call) { k in calls && k.round == round }

  /** No callback is ahead of the round, and a radio has at most one of the round. */
  ghost predicate CallsOnce(calls: multiset<Call>, round: nat) {
    && (forall k :: k in calls ==> k.round <= round)
    && (forall k :: Current(calls, round, k) ==> calls[k] == 1)
    && (forall j, k :: Current(calls, round, j) && Current(calls, round, k) && j.id == k.id ==> j == k)
  }

  /** A callback of the round is for a live radio still to join; an exchange is with a
      relay that, if still joined, leaves room below it. */
  predicate CallOk(c: Config, coord: NodeId, nodes: map<NodeId, Node>, k: Call) {
    && coord != "" && k.id != coord && k.id in nodes && nodes[k.id].alive && !nodes[k.id].joined
    && (k.Exchange? ==> k.parent in nodes && nodes[k.parent].kind != EndDevice
                        && (nodes[k.parent].joined ==> nodes[k.parent].depth + 1 <= c.maxDepth))
  }

  ghost predicate CallsFit(c: Config, coord: NodeId, nodes: map<NodeId, Node>, calls: multiset<Call>, round: nat) {
    forall k :: Current(calls, round, k) ==> CallOk(c, coord, nodes, k)
  }

  /** A relay chosen as parent does not itself join later in the round. */
  ghost predicate ParentsSettled(calls: multiset<Call>, round: nat) {
    forall j, k :: Current(calls, round, j) && Current(calls, round, k) && k.Exchange? ==> j.id != k.parent
  }

  ghost predicate HasCall(calls: multiset<Call>, round: nat, id: NodeId) {
    exists k :: Current(calls, round, k) && k.id == id
  }

  /** Every radio the round called for has joined or has a callback coming. */
  ghost predicate NobodyStranded(nodes: map<NodeId, Node>, calls: multiset<Call>, round: nat, enrolled: set<NodeId>) {
    forall id :: id in enrolled ==> id in nodes && (nodes[id].joined || HasCall(calls, round, id))
  }

  ghost predicate CallsOk(c: Config, s: State) {
    && CallsOnce(s.calls, s.round)
    && CallsFit(c, s.t.coord, s.t.nodes, s.calls, s.round)
    && ParentsSettled(s.calls, s.round)
    && NobodyStranded(s.t.nodes, s.calls, s.round, s.enrolled)
  }

  predicate AllJoined(nodes: map<NodeId, Node>, ids: set<NodeId>) {
    forall id :: id in ids ==> id in nodes && nodes[id].joined
  }

  /** A round has one deadline, unless it called nobody; and if its completion has been
      announced before it passed, everybody it called for has joined. */
  ghost predicate FinishOk(nodes: map<NodeId, Node>, round: nat, enrolled: set<NodeId>, fired: set<nat>,
                           deadlines: multiset<nat>) {
    && (forall r :: r in fired ==> r <= round)
    && (forall r :: r in deadlines ==> r <= round)
    && (enrolled != {} ==> deadlines[round] <= 1)
    && (round in fired && round in deadlines ==> AllJoined(nodes, enrolled))
  }

  ghost predicate Inv(c: Config, s: State) {
    && NT.TablesOk(s.t, c.range, {})
    && TreeOk(c, s.t.coord, s.t.nodes)
    && CallsOk(c, s)
    && FinishOk(s.t.nodes, s.round, s.enrolled, s.fired, s.deadlines)
  }

  // ----- every step keeps them -----

  lemma FormKeeps(c: Config, s: State)
    requires CallsOk(c, s)
    ensures CallsOk(c, Form(s))
  {
    hide CallsOnce, Attempts;
    var u := Form(s);
    CallsAfterForm(s);
    if s.t.coord != "" {
      forall id | id in u.enrolled
        ensures HasCall(u.calls, u.round, id)
      {
        assert Current(u.calls, u.round, Attempt(id, u.round));
      }
    }
  }

  lemma CallsAfterForm(s: State)
    requires CallsOnce(s.calls, s.round)
    ensures CallsOnce(Form(s).calls, Form(s).round)
    ensures s.t.coord != "" ==>
              forall k ::
                Current(Form(s).calls, Form(s).round, k) <==>
                k.Attempt? && k.round == s.round + 1 && k.id in Callable(s.t)
  {
    hide Callable;
  }

  lemma ResetKeeps(c: Config, s: State)
    requires CallsOk(c, s)
    ensures CallsOk(c, Reset(s))
  {
  }

  lemma DropKeeps(c: Config, s: State, call: Call)
    requires CallsOk(c, s) && call in s.calls && call.round != s.round
    ensures CallsOk(c, s.(calls := s.calls - multiset{call}))
  {
    var u := s.calls - multiset{call};
    assert forall k :: Current(u, s.round, k) <==> Current(s.calls, s.round, k);
    forall id | id in s.enrolled
      ensures s.t.nodes[id].joined || HasCall(u, s.round, id)
    {
      if !s.t.nodes[id].joined {
        var k :| Current(s.calls, s.round, k) && k.id == id;
        assert Current(u, s.round, k);
      }
    }
  }

  lemma Replaced(calls: multiset<Call>, round: nat, call: Call, next: Call)
    requires CallsOnce(calls, round) && Current(calls, round, call) && next.round == round && next.id == call.id
    ensures var u := calls - multiset{call} + multiset{next};
            && CallsOnce(u, round)
            && forall k :: Current(u, round, k) <==> k == next || (Current(calls, round, k) && k != call)
  {
    var rest := calls - multiset{call};
    assert call !in rest;
    assert next !in rest;
  }

  lemma ReplaceKeeps(c: Config, s: State, call: Call, next: Call)
    requires CallsOk(c, s) && Current(s.calls, s.round, call) && next.round == s.round && next.id == call.id
    requires next.Exchange? ==> next.parent in s.t.nodes && s.t.nodes[next.parent].kind != EndDevice
                                && s.t.nodes[next.parent].joined && s.t.nodes[next.parent].depth + 1 <= c.maxDepth
    ensures CallsOk(c, s.(calls := s.calls - multiset{call} + multiset{next}))
  {
    var u := s.calls - multiset{call} + multiset{next};
    Replaced(s.calls, s.round, call, next);
    hide CallsOnce;
    forall id | id in s.enrolled && !s.t.nodes[id].joined
      ensures HasCall(u, s.round, id)
    {
      var k :| Current(s.calls, s.round, k) && k.id == id;
      assert Current(u, s.round, if k == call then next else k);
    }
  }

  lemma Removed(calls: multiset<Call>, round: nat, call: Call)
    requires CallsOnce(calls, round) && Current(calls, round, call)
    ensures var u := calls - multiset{call};
            CallsOnce(u, round) && forall k :: Current(u, round, k) <==> Current(calls, round, k) && k != call
  {
    assert call !in calls - multiset{call};
  }

  lemma JoinCalls(c: Config, s: State, call: Call)
    requires CallsOk(c, s) && Current(s.calls, s.round, call) && call.Exchange?
             && Accepts(c, s.t.nodes, call.id, call.parent)
    ensures var nodes := Joined(s.t.nodes, call.id, call.parent);
            CallsOk(c, s.(calls := s.calls - multiset{call}, t := s.t.(nodes := nodes)))
  {
    var u, after := s.calls - multiset{call}, Joined(s.t.nodes, call.id, call.parent);
    assert CallOk(c, s.t.coord, s.t.nodes, call);
    Removed(s.calls, s.round, call);
    forall k | Current(u, s.round, k)
      ensures CallOk(c, s.t.coord, after, k)
    {
      assert CallOk(c, s.t.coord, s.t.nodes, k) && k.id != call.id && (k.Exchange? ==> k.parent != call.id);
    }
    hide CallsOnce, CallOk;
    forall id | id in s.enrolled
      ensures id in after && (after[id].joined || HasCall(u, s.round, id))
    {
      if !s.t.nodes[id].joined && id != call.id {
        var k :| Current(s.calls, s.round, k) && k.id == id;
        assert Current(u, s.round, k);
      }
    }
  }

  lemma ExchangeKeeps(c: Config, s: State, call: Call)
    requires TreeOk(c, s.t.coord, s.t.nodes) && CallsOk(c, s) && Current(s.calls, s.round, call) && call.Exchange?
    ensures TreeOk(c, s.t.coord, Fire(c, s, call).t.nodes) && CallsOk(c, Fire(c, s, call))
  {
    hide CallsOnce, ParentsSettled, NobodyStranded, ParentsOk, KidsOk, RootOk, Joined;
    assert CallOk(c, s.t.coord, s.t.nodes, call);
    if Accepts(c, s.t.nodes, call.id, call.parent) {
      JoinCalls(c, s, call);
      hide CallsFit, CallOk;
      JoinParents(c, s.t.coord, s.t.nodes, call.id, call.parent);
      JoinKids(c, s.t.coord, s.t.nodes, call.id, call.parent);
    } else {
      ReplaceKeeps(c, s, call, Attempt(call.id, call.round));
    }
  }

  lemma AttemptKeeps(c: Config, s: State, call: Call)
    requires CallsOk(c, s) && Current(s.calls, s.round, call) && call.Attempt?
    ensures Fire(c, s, call).t == s.t && CallsOk(c, Fire(c, s, call))
  {
    hide CallsOnce, ParentsSettled, NobodyStranded, BestParent;
    assert CallOk(c, s.t.coord, s.t.nodes, call);
    ReplaceKeeps(c, s, call, call);
    if BestParent(c, s.t, call.id).Some? {
      ParentIsEligible(c, s.t, call.id);
      ReplaceKeeps(c, s, call, Exchange(call.id, BestParent(c, s.t, call.id).value, call.round));
    }
  }

  lemma ParentIsEligible(c: Config, t: Topology, id: NodeId)
    requires BestParent(c, t, id).Some?
    ensures Eligible(c, t, id, BestParent(c, t, id).value)
  {
  }

  lemma FireKeeps(c: Config, s: State, call: Call)
    requires TreeOk(c, s.t.coord, s.t.nodes) && CallsOk(c, s) && call in s.calls
    ensures TreeOk(c, s.t.coord, Fire(c, s, call).t.nodes) && CallsOk(c, Fire(c, s, call))
  {
    hide TreeOk, CallsOk, Callable, BestParent, Joined;
    if call.round != s.round {
      DropKeeps(c, s, call);
    } else if call.Attempt? {
      AttemptKeeps(c, s, call);
    } else {
      ExchangeKeeps(c, s, call);
    }
  }

  lemma FirePlaces(c: Config, s: State, call: Call)
    ensures Fire(c, s, call).t.(nodes := s.t.nodes) == s.t && Fire(c, s, call).round == s.round
    ensures NT.SamePlaces(s.t.nodes, Fire(c, s, call).t.nodes)
  {
    hide Callable, BestParent, Joined, NT.SamePlaces;
    StillThere(s.t.nodes);
    if call.Exchange? && Accepts(c, s.t.nodes, call.id, call.parent) { JoinedPlaces(s.t.nodes, call.id, call.parent); }
  }

  lemma StillThere(nodes: map<NodeId, Node>)
    ensures NT.SamePlaces(nodes, nodes)
  {
  }

  lemma JoinedPlaces(nodes: map<NodeId, Node>, id: NodeId, p: NodeId)
    requires id in nodes && p in nodes
    ensures NT.SamePlaces(nodes, Joined(nodes, id, p))
  {
  }

  lemma FireFinish(c: Config, s: State, call: Call)
    requires FinishOk(s.t.nodes, s.round, s.enrolled, s.fired, s.deadlines)
    requires CallsOk(c, Fire(c, s, call))
    ensures var u := Fire(c, s, call); FinishOk(u.t.nodes, u.round, u.enrolled, u.fired, u.deadlines)
  {
    hide CallsOk, BestParent, Callable, FinishOk, Joined;
    var u := Fire(c, s, call);
    NobodyLeft(c, u);
    if call.round == s.round && call.Exchange? && Accepts(c, s.t.nodes, call.id, call.parent) {
      JoinFinish(s, call.id, call.parent);
      FinishKeeps(s.(t := u.t));
    }
  }

  lemma JoinFinish(s: State, id: NodeId, p: NodeId)
    requires FinishOk(s.t.nodes, s.round, s.enrolled, s.fired, s.deadlines) && id in s.t.nodes && p in s.t.nodes
    ensures FinishOk(Joined(s.t.nodes, id, p), s.round, s.enrolled, s.fired, s.deadlines)
  {
  }

  lemma FinishKeeps(s: State)
    requires FinishOk(s.t.nodes, s.round, s.enrolled, s.fired, s.deadlines)
    ensures AllJoined(s.t.nodes, s.enrolled) ==>
              FinishOk(s.t.nodes, s.round, s.enrolled, s.fired + {s.round}, s.deadlines)
  {
  }

  lemma UnjoinedIsCallable(c: Config, s: State, id: NodeId)
    requires CallsOk(c, s) && id in s.enrolled && !s.t.nodes[id].joined
    ensures id in Callable(s.t)
  {
    var k :| Current(s.calls, s.round, k) && k.id == id;
    assert CallOk(c, s.t.coord, s.t.nodes, k);
  }

  /** With nobody left to call, nobody who was called is still to join. */
  lemma NobodyLeft(c: Config, s: State)
    requires CallsOk(c, s)
    ensures Callable(s.t) == {} ==> AllJoined(s.t.nodes, s.enrolled)
  {
    hide Callable, CallsOnce, CallsFit, ParentsSettled;
    forall id | id in s.enrolled && !s.t.nodes[id].joined
      ensures id in Callable(s.t)
    {
      UnjoinedIsCallable(c, s, id);
    }
  }

  lemma DeadlineKeeps(c: Config, s: State, round: nat)
    requires Inv(c, s) && round in s.deadlines
    ensures Inv(c, Deadline(s, round))
  {
    hide NT.TablesOk, TreeOk, CallsOnce, CallsFit, ParentsSettled, NobodyStranded;
    var u := s.deadlines - multiset{round};
    assert forall r :: r in u ==> r in s.deadlines;
  }

  lemma RechargeKeeps(c: Config, s: State, id: NodeId, charge: real)
    requires Inv(c, s)
    ensures Inv(c, s.(t := Recharged(s.t, id, charge)))
  {
    hide TreeOk, CallsOk, NT.TablesOk;
    if id in s.t.nodes {
      var nodes := s.t.nodes[id := s.t.nodes[id].(battery := charge)];
      RechargeTree(c, s.t.coord, s.t.nodes, id, charge);
      RechargeCalls(c, s, id, charge);
      NT.SameTables(s.t, s.t.(nodes := nodes), c.range);
    }
  }

  lemma RechargeTree(c: Config, coord: NodeId, nodes: map<NodeId, Node>, id: NodeId, charge: real)
    requires TreeOk(c, coord, nodes) && id in nodes
    ensures TreeOk(c, coord, nodes[id := nodes[id].(battery := charge)])
  {
    hide ParentsOk, Children;
    var after := nodes[id := nodes[id].(battery := charge)];
    RechargeParents(c, coord, nodes, id, charge);
    forall p | p in after
      ensures after[p].kids == |Children(coord, after, p)| && (after[p].kids == 0 || after[p].kids <= c.maxChildren)
    {
      RechargeChildren(coord, nodes, id, charge, p);
    }
  }

  lemma RechargeParents(c: Config, coord: NodeId, nodes: map<NodeId, Node>, id: NodeId, charge: real)
    requires ParentsOk(c, coord, nodes) && id in nodes
    ensures ParentsOk(c, coord, nodes[id := nodes[id].(battery := charge)])
  {
    var after := nodes[id := nodes[id].(battery := charge)];
    forall x | x in after && x != coord && after[x].joined
      ensures HangsOk(c, after, after[x])
    {
      assert HangsOk(c, nodes, nodes[x]);
    }
  }

  lemma RechargeChildren(coord: NodeId, nodes: map<NodeId, Node>, id: NodeId, charge: real, p: NodeId)
    requires id in nodes
    ensures Children(coord, nodes[id := nodes[id].(battery := charge)], p) == Children(coord, nodes, p)
  {
  }

  lemma RechargeCalls(c: Config, s: State, id: NodeId, charge: real)
    requires CallsOk(c, s) && id in s.t.nodes
    ensures CallsOk(c, s.(t := Recharged(s.t, id, charge)))
  {
    hide CallsOnce, ParentsSettled, HasCall;
    forall k | Current(s.calls, s.round, k)
      ensures CallOk(c, s.t.coord, Recharged(s.t, id, charge).nodes, k)
    {
      assert CallOk(c, s.t.coord, s.t.nodes, k);
    }
  }

  lemma RegisterCalls(c: Config, s: State, t: Topology, id: NodeId, n: Node)
    requires CallsOk(c, s) && id !in s.t.nodes && id != "" && t.nodes == s.t.nodes[id := n]
    requires t.coord == s.t.coord || s.t.coord == ""
    ensures CallsOk(c, s.(t := t))
  {
    forall k | Current(s.calls, s.round, k)
      ensures CallOk(c, t.coord, t.nodes, k)
    {
      assert CallOk(c, s.t.coord, s.t.nodes, k);
    }
    hide CallsOnce, CallOk, ParentsSettled, HasCall;
  }

  lemma RegisterKeeps(c: Config, s: State, spec: NT.NodeSpec, lqi: NodeId -> int)
    requires Inv(c, s)
    ensures Inv(c, s.(t := NT.Add(s.t, c.range, spec, lqi).0))
  {
    hide NT.TablesOk, ParentsOk, KidsOk, CallsOk, NT.Trimmed, NT.MetAll, NT.Candidates;
    NT.AddKeeps(s.t, c.range, spec, lqi);
    if spec.id != "" && spec.id !in s.t.nodes {
      var t := NT.Add(s.t, c.range, spec, lqi).0;
      var root := spec.kind == Coordinator && s.t.coord == "";
      var n := NT.Fresh(spec, root);
      assert t.nodes == s.t.nodes[spec.id := n] && t.coord == if root then spec.id else s.t.coord;
      RegisterTree(c, s.t.coord, s.t.nodes, spec.id, n, t.coord);
      RegisterCalls(c, s, t, spec.id, n);
    }
  }

  lemma StepKeeps(c: Config, s: State, e: Event)
    requires Inv(c, s) && Enabled(s, e)
    ensures Inv(c, Step(c, s, e))
  {
    hide NT.TablesOk, TreeOk, CallsOk, NT.SamePlaces, Callable, Attempts;
    match e
    case FormCalled =>
      FormKeeps(c, s);
      hide Form;
    case DeadlinePassed(round) =>
      DeadlineKeeps(c, s, round);
    case BatteryChange(id, charge) =>
      RechargeKeeps(c, s, id, charge);
    case CoordinatorReset =>
      ResetKeeps(c, s);
      ResetTree(c, s.t.coord, s.t.nodes);
      ResetPlaces(s);
      NT.SameTables(s.t, Reset(s).t, c.range);
    case Fired(call) =>
      FireKeeps(c, s, call);
      FirePlaces(c, s, call);
      FireFinish(c, s, call);
      NT.SameTables(s.t, Fire(c, s, call).t, c.range);
    case Register(spec, lqi) =>
      RegisterKeeps(c, s, spec, lqi);
    case LinksChange(links) =>
      LinksKeepCalls(c, s, links);
      NT.RelinkKeeps(s.t, links, c.range);
  }

  lemma ResetPlaces(s: State)
    ensures NT.SamePlaces(s.t.nodes, Reset(s).t.nodes)
  {
  }

  lemma LinksKeepCalls(c: Config, s: State, links: map<LinkKey, Link>)
    requires CallsOk(c, s)
    ensures CallsOk(c, s.(t := s.t.(links := links)))
  {
  }

  // ----- over every run -----

  /** Where a history leads, if each event is possible in turn. */
  ghost function After(c: Config, events: seq<Event>): Option<State> {
    if |events| == 0 then Some(START)
    else
      match After(c, events[..|events| - 1])
      case None => None
      case Some(s) => if Enabled(s, events[|events| - 1]) then Some(Step(c, s, events[|events| - 1])) else None
  }

  lemma {:induction false} RunKeeps(c: Config, events: seq<Event>)
    requires After(c, events).Some?
    ensures Inv(c, After(c, events).value)
    decreases |events|
  {
    if |events| > 0 {
      hide Inv, Step, Enabled;
      RunKeeps(c, events[..|events| - 1]);
      StepKeeps(c, After(c, events[..|events| - 1]).value, events[|events| - 1]);
    }
  }

  /** In every run: a joined radio's parent is a joined relay, one step nearer; its
      depth is within the limit and is its distance from the coordinator along
      parents; every child counter is exact and within the limit; and every radio the
      round called for has joined or will try again. */
  lemma FormationInvariant(c: Config, events: seq<Event>, id: NodeId)
    requires After(c, events).Some? && id in After(c, events).value.t.nodes
    ensures var s := After(c, events).value;
            var nodes := s.t.nodes;
            && (nodes[id].joined && id != s.t.coord && s.t.coord != "" ==>
                  && nodes[id].parent in nodes && nodes[nodes[id].parent].joined
                    && nodes[nodes[id].parent].kind != EndDevice
                  && 1 <= nodes[id].depth <= c.maxDepth && Ancestor(nodes, id, nodes[id].depth) == s.t.coord)
            && nodes[id].kids == |Children(s.t.coord, nodes, id)|
              && (nodes[id].kids == 0 || nodes[id].kids <= c.maxChildren)
            && (id in s.enrolled ==> nodes[id].joined || HasCall(s.calls, s.round, id))
  {
    hide After, NT.TablesOk, CallsOnce, CallsFit, ParentsSettled, HasCall, Children;
    RunKeeps(c, events);
    var s := After(c, events).value;
    if s.t.nodes[id].joined && id != s.t.coord && s.t.coord != "" {
      assert HangsOk(c, s.t.nodes, s.t.nodes[id]);
      ParentsReachCoordinator(c, s.t.coord, s.t.nodes, id);
    }
  }

  /** Until the coordinator restarts, an association once made is never changed: the
      end of an exchange does not look whether the radio has joined already, and need not. */
  lemma AssociationStands(c: Config, s: State, e: Event, id: NodeId)
    requires Inv(c, s) && Enabled(s, e) && e != CoordinatorReset && id in s.t.nodes && s.t.nodes[id].joined
    ensures var n, m := s.t.nodes[id], Step(c, s, e).t.nodes;
            id in m && m[id].joined && m[id].parent == n.parent && m[id].depth == n.depth
  {
    hide Inv, Fire, Callable, Attempts, NT.Trimmed, NT.MetAll, NT.Candidates;
    if e.Fired? { FireStands(c, s, e.call, id); }
  }

  lemma FireStands(c: Config, s: State, call: Call, id: NodeId)
    requires Inv(c, s) && call in s.calls && id in s.t.nodes && s.t.nodes[id].joined
    ensures var n, m := s.t.nodes[id], Fire(c, s, call).t.nodes;
            id in m && m[id].joined && m[id].parent == n.parent && m[id].depth == n.depth
  {
    hide NT.TablesOk, TreeOk, CallsOnce, ParentsSettled, NobodyStranded, FinishOk, Callable, BestParent;
    if call.round == s.round {
      assert CallOk(c, s.t.coord, s.t.nodes, call);
    }
  }

  /** In every run, if a round's completion has been announced before its deadline, every
      radio it called for has joined. */
  lemma EarlyFinishMeansAllJoined(c: Config, events: seq<Event>)
    requires After(c, events).Some?
    ensures var s := After(c, events).value;
            s.round in s.fired && s.round in s.deadlines ==> AllJoined(s.t.nodes, s.enrolled)
  {
    hide After, NT.TablesOk, TreeOk, CallsOk;
    RunKeeps(c, events);
  }

  // ----- stale callbacks -----

  /** A callback or a deadline of an earlier round. */
  predicate Stale(s: State, e: Event) {
    (e.Fired? && e.call.round < s.round) || (e.DeadlinePassed? && e.round < s.round)
  }

  /** A history without the stale callbacks and deadlines. */
  ghost function Erased(c: Config, events: seq<Event>): seq<Event> {
    if |events| == 0 then []
    else
      var before, e := events[..|events| - 1], events[|events| - 1];
      Erased(c, before) + if After(c, before).Some? && Stale(After(c, before).value, e) then [] else [e]
  }

  /** `u` is `s`, but for callbacks of earlier rounds not yet used up and for what their
      deadlines announced. */
  ghost predicate Alike(s: State, u: State) {
    && u.t == s.t && u.round == s.round && u.enrolled == s.enrolled
    && CallsAlike(s.calls, u.calls, s.round) && DeadlinesAlike(s.deadlines, u.deadlines, s.round)
    && FiredAlike(s.fired, u.fired, s.round)
    && (u.formed ==> s.formed)
  }

  ghost predicate CallsAlike(a: multiset<Call>, b: multiset<Call>, round: nat) {
    forall k: Call :: a[k] <= b[k] && (k.round >= round ==> a[k] == b[k])
  }

  ghost predicate DeadlinesAlike(a: multiset<nat>, b: multiset<nat>, round: nat) {
    forall r: nat :: a[r] <= b[r] && (r >= round ==> a[r] == b[r])
  }

  ghost predicate FiredAlike(a: set<nat>, b: set<nat>, round: nat) {
    forall r: nat :: r >= round ==> (r in a <==> r in b)
  }

  lemma UsedUp(a: multiset<Call>, b: multiset<Call>, round: nat, k: Call)
    requires CallsAlike(a, b, round) && k in a
    ensures k.round >= round ==> k in b && CallsAlike(Used(a, k), Used(b, k), round)
    ensures k.round < round ==> CallsAlike(Used(a, k), b, round)
  {
  }

  lemma OneMoreCall(a: multiset<Call>, b: multiset<Call>, round: nat, k: Call)
    requires CallsAlike(a, b, round)
    ensures CallsAlike(Again(a, k), Again(b, k), round)
  {
  }

  lemma DeadlineUsedUp(a: multiset<nat>, b: multiset<nat>, round: nat, r: nat)
    requires DeadlinesAlike(a, b, round) && r in a
    ensures r >= round ==> r in b && DeadlinesAlike(a - multiset{r}, b - multiset{r}, round)
    ensures r < round ==> DeadlinesAlike(a - multiset{r}, b, round)
  {
  }

  lemma FiredOnce(a: set<nat>, b: set<nat>, round: nat, r: nat)
    requires FiredAlike(a, b, round)
    ensures FiredAlike(a + {r}, b + {r}, round)
    ensures r >= round ==> (r in a <==> r in b)
    ensures r < round ==> FiredAlike(a + {r}, b, round)
  {
  }

  lemma FireAlike(c: Config, s: State, u: State, call: Call)
    requires Alike(s, u) && call in s.calls && call.round >= s.round
    ensures call in u.calls && Alike(Fire(c, s, call), Fire(c, u, call))
  {
    UsedUp(s.calls, u.calls, s.round, call);
    hide BestParent, Callable, Accepts, Joined, CallsAlike, DeadlinesAlike, FiredAlike;
    if call.Attempt? { AttemptAlike(c, s, u, call); } else { ExchangeAlike(c, s, u, call); }
  }

  lemma AttemptAlike(c: Config, s: State, u: State, call: Call)
    requires Alike(s, u) && call in s.calls && call.round >= s.round && call.Attempt?
    ensures Alike(Fire(c, s, call), Fire(c, u, call))
  {
    hide BestParent, CallsAlike, DeadlinesAlike, FiredAlike, Used, Again;
    UsedUp(s.calls, u.calls, s.round, call);
    var next := match BestParent(c, s.t, call.id) case None => call case Some(p) => Exchange(call.id, p, call.round);
    OneMoreCall(Used(s.calls, call), Used(u.calls, call), s.round, next);
  }

  lemma ExchangeAlike(c: Config, s: State, u: State, call: Call)
    requires Alike(s, u) && call in s.calls && call.round >= s.round && call.Exchange?
    ensures Alike(Fire(c, s, call), Fire(c, u, call))
  {
    hide Callable, Accepts, Joined, CallsAlike, DeadlinesAlike, FiredAlike, Used, Again;
    UsedUp(s.calls, u.calls, s.round, call);
    FiredOnce(s.fired, u.fired, s.round, call.round);
    OneMoreCall(Used(s.calls, call), Used(u.calls, call), s.round, Attempt(call.id, call.round));
  }

  lemma FormAlike(s: State, u: State)
    requires Alike(s, u)
    ensures Alike(Form(s), Form(u))
  {
    hide Callable, CallsAlike, DeadlinesAlike, FiredAlike, WithAttempts, WithDeadlines;
    if s.t.coord != "" {
      var r, ids := s.round + 1, Callable(s.t);
      AttemptsAlike(s.calls, u.calls, s.round, ids);
      DeadlinesAlikeLater(s.deadlines, u.deadlines, s.round, ids);
      FiredAlikeLater(s.fired, u.fired, s.round);
    }
  }

  lemma AttemptsAlike(a: multiset<Call>, b: multiset<Call>, round: nat, ids: set<NodeId>)
    requires CallsAlike(a, b, round)
    ensures CallsAlike(WithAttempts(a, ids, round + 1), WithAttempts(b, ids, round + 1), round + 1)
  {
    hide Attempts;
  }

  lemma DeadlinesAlikeLater(a: multiset<nat>, b: multiset<nat>, round: nat, ids: set<NodeId>)
    requires DeadlinesAlike(a, b, round)
    ensures DeadlinesAlike(WithDeadlines(a, round + 1, ids), WithDeadlines(b, round + 1, ids), round + 1)
  {
  }

  lemma FiredAlikeLater(a: set<nat>, b: set<nat>, round: nat)
    requires FiredAlike(a, b, round)
    ensures FiredAlike(a, b, round + 1)
  {
  }

  lemma StepAlike(c: Config, s: State, u: State, e: Event)
    requires Alike(s, u) && Enabled(s, e) && !Stale(s, e)
    ensures Enabled(u, e) && Alike(Step(c, s, e), Step(c, u, e))
  {
    hide Fire, Form, CallsAlike, DeadlinesAlike, FiredAlike;
    match e
    case Fired(call) => FireAlike(c, s, u, call);
    case FormCalled => FormAlike(s, u);
    case DeadlinePassed(round) =>
      DeadlineUsedUp(s.deadlines, u.deadlines, s.round, round);
      FiredOnce(s.fired, u.fired, s.round, round);
    case _ =>
  }

  lemma StaleAlike(c: Config, s: State, u: State, e: Event)
    requires Alike(s, u) && Enabled(s, e) && Stale(s, e)
    ensures Alike(Step(c, s, e), u)
  {
    hide CallsAlike, DeadlinesAlike, FiredAlike;
    if e.Fired? {
      UsedUp(s.calls, u.calls, s.round, e.call);
    } else {
      DeadlineUsedUp(s.deadlines, u.deadlines, s.round, e.round);
      FiredOnce(s.fired, u.fired, s.round, e.round);
    }
  }

  /** Stale callbacks change nothing: erase every one of them from any history, and the
      zone, the round, the radios called for and all that is still to come of the round
      are the same. What a stale deadline can do is set the flag `formed`. */
  lemma {:induction false} StaleChangesNothing(c: Config, events: seq<Event>)
    requires After(c, events).Some?
    ensures After(c, Erased(c, events)).Some?
    ensures Alike(After(c, events).value, After(c, Erased(c, events)).value)
    decreases |events|
  {
    hide Step, Enabled, Alike, Stale;
    if |events| == 0 {
      AlikeItself(START);
    } else {
      var before, e := events[..|events| - 1], events[|events| - 1];
      StaleChangesNothing(c, before);
      var s, u := After(c, before).value, After(c, Erased(c, before)).value;
      if Stale(s, e) {
        StaleAlike(c, s, u, e);
        NothingAdded(Erased(c, before));
      } else {
        StepAlike(c, s, u, e);
        assert (Erased(c, before) + [e])[..|Erased(c, before)|] == Erased(c, before);
      }
    }
  }

  lemma AlikeItself(s: State)
    ensures Alike(s, s)
  {
  }

  /** A coordinator and a label are registered, a round starts, the coordinator restarts,
      a second round starts, and the deadline of the first passes. */
  function Misleading(lqi: NodeId -> int): seq<Event> {
    [Register(NT.NodeSpec("c", Coordinator, Point(0.0, 0.0), 1.0), lqi),
     Register(NT.NodeSpec("e", EndDevice, Point(1.0, 0.0), 1.0), lqi),
     FormCalled, CoordinatorReset, FormCalled, DeadlinePassed(1)]
  }

  lemma {:induction false} AfterOne(c: Config, events: seq<Event>, e: Event, s: State)
    requires After(c, events) == Some(s) && Enabled(s, e)
    ensures After(c, events + [e]) == Some(Step(c, s, e))
  {
    hide Step, Enabled;
    assert (events + [e])[..|events|] == events;
  }

  lemma RegisterNodes(c: Config, s: State, spec: NT.NodeSpec, lqi: NodeId -> int)
    requires spec.id != "" && spec.id !in s.t.nodes && (spec.kind == Coordinator ==> s.t.coord == "")
    ensures var u := Step(c, s, Register(spec, lqi));
            && u == s.(t := u.t) && u.t.nodes == s.t.nodes[spec.id := NT.Fresh(spec, spec.kind == Coordinator)]
            && u.t.coord == if spec.kind == Coordinator then spec.id else s.t.coord
  {
    hide NT.Trimmed, NT.MetAll, NT.Candidates;
  }

  lemma Misled(c: Config, s: State)
    requires s.t.coord == "c" && s.t.nodes.Keys == {"c", "e"} && s.t.nodes["e"].alive && !s.t.nodes["e"].joined
    requires s.round == 0 && s.fired == {}
    ensures var u := Form(Reset(Form(s)));
            && Enabled(u, DeadlinePassed(1)) && var v := Step(c, u, DeadlinePassed(1));
            && v.formed && v.round == 2 && 2 !in v.fired
            && "e" in v.enrolled && "e" in v.t.nodes && !v.t.nodes["e"].joined
  {
    hide Attempts, Callable, Fire, NT.Add, Forgotten;
    OneLabel(s.t);
    ResetLabel(Form(s));
    OneLabel(Reset(Form(s)).t);
  }

  lemma OneLabel(t: Topology)
    requires t.coord == "c" && t.nodes.Keys == {"c", "e"} && t.nodes["e"].alive && !t.nodes["e"].joined
    ensures Callable(t) == {"e"}
  {
  }

  lemma ResetLabel(s: State)
    requires s.t.coord == "c" && s.t.nodes.Keys == {"c", "e"} && s.t.nodes["e"].alive
    ensures var t := Reset(s).t;
            t.coord == "c" && t.nodes.Keys == {"c", "e"} && t.nodes["e"].alive && !t.nodes["e"].joined
  {
  }

  /** And it does set it: a deadline left over from before a restart declares the network
      formed while a radio the new round called for has still to join. */
  lemma StaleDeadlineMisleads(c: Config, lqi: NodeId -> int)
    ensures var end := After(c, Misleading(lqi));
            && end.Some? && end.value.formed && end.value.round == 2 && 2 !in end.value.fired
            && "e" in end.value.enrolled && "e" in end.value.t.nodes && !end.value.t.nodes["e"].joined
  {
    hide After, NT.Add, Form, Reset, Deadline, Fire;
    var v := Misleading(lqi);
    RegisterNodes(c, START, v[0].spec, lqi);
    var s1 := Step(c, START, v[0]);
    RegisterNodes(c, s1, v[1].spec, lqi);
    var s2 := Step(c, s1, v[1]);
    assert s2.t.nodes.Keys == {"c", "e"};
    Misled(c, s2);
    AfterNone(c);
    assert v[..1] == [] + [v[0]] && v[..2] == v[..1] + [v[1]] && v[..3] == v[..2] + [v[2]];
    assert v[..4] == v[..3] + [v[3]] && v[..5] == v[..4] + [v[4]] && v == v[..5] + [v[5]];
    AfterOne(c, [], v[0], START);
    AfterOne(c, v[..1], v[1], s1);
    AfterOne(c, v[..2], v[2], s2);
    AfterOne(c, v[..3], v[3], Form(s2));
    AfterOne(c, v[..4], v[4], Reset(Form(s2)));
    AfterOne(c, v[..5], v[5], Form(Reset(Form(s2))));
  }

  lemma AfterNone(c: Config)
    ensures After(c, []) == Some(START)
  {
  }
}
