/** From the tree that formation builds to the routes that are computed over it: a joined
    radio whose associations still stand on usable links has a path along its ancestors. */
module FormationRoutes {
  import opened Common
  import opened MeshModel
  import opened Formation
  import R = MeshRoutes
  import L = MeshRouteLaws

  /** `id` is live, and the link to its parent is there, not cut and good enough to carry a frame. */
  predicate Holds(t: Topology, id: NodeId) {
    && id in t.nodes && t.nodes[id].alive
    && var key := MakeLinkKey(t.nodes[id].parent, id);
    && key in t.links && !t.links[key].cut && t.links[key].lqi >= 20
  }

  /** So do all the associations from `id` up to the coordinator. */
  predicate HoldsUp(t: Topology, id: NodeId, k: int)
    decreases k
  {
    k > 0 ==> Holds(t, id) && HoldsUp(t, t.nodes[id].parent, k - 1)
  }

  /** The chain of `k` associations that ends in `id`. */
  function Chain(nodes: map<NodeId, Node>, id: NodeId, k: int): (p: seq<NodeId>)
    ensures |p| >= 1 && p[|p| - 1] == id
    decreases k
  {
    if k <= 0 || id !in nodes then [id] else Chain(nodes, nodes[id].parent, k - 1) + [id]
  }

  /** A link is there only between radios that list each other. */
  lemma LinkedPeers(t: Topology, a: NodeId, b: NodeId)
    requires NT.LinksMatch(t.links, t.neighbours) && NT.Symmetric(t.neighbours) && MakeLinkKey(a, b) in t.links
    ensures b in Peers(t.neighbours, a)
  {
    var k := MakeLinkKey(a, b);
    assert k.b in Peers(t.neighbours, k.a);
  }

  /** One association whose link still holds is a hop a frame can take down. */
  lemma AssociationIsAHop(c: Config, t: Topology, id: NodeId)
    requires NT.TablesOk(t, c.range, {}) && TreeOk(c, t.coord, t.nodes)
    requires id in t.nodes && id != t.coord && t.nodes[id].joined && Holds(t, id)
    ensures Usable(t, t.nodes[id].parent, id)
  {
    hide KidsOk, NT.Simple, NT.Known, NT.Within, MakeLinkKey;
    assert HangsOk(c, t.nodes, t.nodes[id]);
    LinkedPeers(t, t.nodes[id].parent, id);
  }

  /** A joined radio whose associations all hold has a path along its ancestors, as many
      hops long as it is deep and so within the depth limit. */
  lemma {:induction false} ChainIsAPath(c: Config, t: Topology, id: NodeId)
    requires NT.TablesOk(t, c.range, {}) && TreeOk(c, t.coord, t.nodes) && t.coord != ""
    requires id in t.nodes && (id == t.coord || t.nodes[id].joined)
    requires HoldsUp(t, id, t.nodes[id].depth)
    ensures 0 <= t.nodes[id].depth && IsPath(t, Chain(t.nodes, id, t.nodes[id].depth), id)
    ensures Hops(Chain(t.nodes, id, t.nodes[id].depth)) == t.nodes[id].depth
    ensures id != t.coord ==> t.nodes[id].depth <= c.maxDepth
    decreases if id in t.nodes then t.nodes[id].depth else 0
  {
    hide KidsOk, NT.TablesOk, Usable;
    RootIsFlat(c, t.coord, t.nodes, id);
    if id != t.coord {
      assert HangsOk(c, t.nodes, t.nodes[id]);
      var parent := t.nodes[id].parent;
      RootIsFlat(c, t.coord, t.nodes, parent);
      ChainIsAPath(c, t, parent);
      hide Holds, HoldsUp;
      AssociationHop(c, t, id);
    }
  }

  lemma RootIsFlat(c: Config, coord: NodeId, nodes: map<NodeId, Node>, id: NodeId)
    requires TreeOk(c, coord, nodes) && coord != "" && id in nodes && nodes[id].joined
    ensures nodes[id].depth >= 0 && (id == coord ==> nodes[id].depth == 0)
  {
    hide KidsOk;
    if id != coord { assert HangsOk(c, nodes, nodes[id]); }
  }

  lemma AssociationHop(c: Config, t: Topology, id: NodeId)
    requires NT.TablesOk(t, c.range, {}) && TreeOk(c, t.coord, t.nodes) && t.coord != ""
    requires id in t.nodes && id != t.coord && t.nodes[id].joined
    requires HoldsUp(t, id, t.nodes[id].depth)
    ensures Usable(t, t.nodes[id].parent, id)
  {
    hide KidsOk, NT.TablesOk, Usable;
    assert HangsOk(c, t.nodes, t.nodes[id]);
    AssociationIsAHop(c, t, id);
  }

  /** Therefore any routing table of the zone leaves such a radio out only because a best path
      is longer than the limit, which it never is when the chain costs no more than the limit;
      and where it has a route, the route costs no more than the chain. */
  lemma JoinedRadiosAreRouted(c: Config, s: State, routes: map<NodeId, seq<NodeId>>, id: NodeId)
    requires Inv(c, s) && s.t.coord != "" && R.IsRouteTable(s.t, c.maxDepth, routes)
    requires id in s.t.nodes && id != s.t.coord && s.t.nodes[id].joined
    requires HoldsUp(s.t, id, s.t.nodes[id].depth)
    ensures var p := Chain(s.t.nodes, id, s.t.nodes[id].depth);
            && IsPath(s.t, p, id) && Hops(p) <= c.maxDepth
            && (id !in routes ==> R.HasLongLeastPath(s.t, c.maxDepth, id) && PathCost(s.t, p) > c.maxDepth)
            && (id in routes ==> PathCost(s.t, routes[id]) <= PathCost(s.t, p))
  {
    hide NT.TablesOk, TreeOk, CallsOk, Usable, HopCost, PathCost, FinishOk;
    ChainIsAPath(c, s.t, id);
    if id !in routes {
      assert R.HasLongLeastPath(s.t, c.maxDepth, id);
      var q :| IsLeastPath(s.t, q, id) && Hops(q) > c.maxDepth;
      L.HopsCost(s.t, q);
    }
  }

  /** In every run, then: when formation has placed a radio and the links it was placed over
      still hold, a message from the coordinator has a way to it within the depth limit. */
  lemma FormedRadiosAreReachable(c: Config, events: seq<Event>, id: NodeId)
    requires After(c, events).Some?
    requires var t := After(c, events).value.t;
             && t.coord != "" && id in t.nodes && id != t.coord && t.nodes[id].joined
             && HoldsUp(t, id, t.nodes[id].depth)
    ensures var t := After(c, events).value.t;
            exists p :: IsPath(t, p, id) && Hops(p) == t.nodes[id].depth <= c.maxDepth
  {
    hide After, NT.TablesOk, TreeOk, CallsOk, Usable, FinishOk;
    RunKeeps(c, events);
    ChainIsAPath(c, After(c, events).value.t, id);
  }
}
