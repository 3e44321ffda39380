/** What the routing table guarantees to a reader who never saw the search. */
module MeshRouteLaws {
  import opened MeshModel
  import opened MeshRoutes

  /** The hop into `p[i + 1]` uses a link the controller asked to route around. */
  predicate AvoidedHop(t: Topology, p: seq<NodeId>, i: int) {
    0 <= i < |p| - 1 && Avoided(t, p[i], p[i + 1])
  }

  predicate Clean(t: Topology, p: seq<NodeId>) {
    forall i :: 0 <= i < |p| - 1 ==> !AvoidedHop(t, p, i)
  }

  ghost predicate Connected(t: Topology, p: seq<NodeId>) {
    forall i :: 0 <= i < |p| - 1 ==> Usable(t, p[i], p[i + 1])
  }

  lemma {:induction false} CleanCost(t: Topology, p: seq<NodeId>)
    requires |p| >= 1 && Connected(t, p) && Clean(t, p)
    ensures PathCost(t, p) <= (MAX_LINK_COST + LOW_BATTERY_PENALTY) * Hops(p)
    decreases |p|
  {
    if |p| > 1 {
      var shorter := p[..|p| - 1];
      assert forall i :: 0 <= i < |shorter| - 1 ==> AvoidedHop(t, shorter, i) == AvoidedHop(t, p, i);
      CleanCost(t, shorter);
      assert !AvoidedHop(t, p, |p| - 2);
    }
  }

  /** Every hop costs something. */
  lemma {:induction false} HopsCost(t: Topology, p: seq<NodeId>)
    requires |p| >= 1 && Connected(t, p)
    ensures PathCost(t, p) >= Hops(p)
    decreases |p|
  {
    if |p| > 1 { HopsCost(t, p[..|p| - 1]); }
  }

  /** A path over an avoided link costs the penalty on top of its hops. */
  lemma {:induction false} AvoidedCost(t: Topology, p: seq<NodeId>, i: int)
    requires Connected(t, p) && AvoidedHop(t, p, i)
    ensures PathCost(t, p) >= AVOID_PENALTY + Hops(p)
    decreases |p|
  {
    if i < |p| - 2 {
      AvoidedCost(t, p[..|p| - 1], i);
    } else {
      HopsCost(t, p[..|p| - 1]);
    }
  }

  /** A node reachable in at most seven hops without an avoided link is never
      routed to over one: seven worst-case hops cost 63, one avoided hop 65. */
  lemma AvoidanceDominates(t: Topology, maxDepth: int, routes: map<NodeId, seq<NodeId>>, v: NodeId, clean: seq<NodeId>)
    requires IsRouteTable(t, maxDepth, routes) && v in routes
    requires IsPath(t, clean, v) && Clean(t, clean) && Hops(clean) <= 7
    ensures Clean(t, routes[v])
  {
    assert Connected(t, clean) && Connected(t, routes[v]);
    CleanCost(t, clean);
    forall i | 0 <= i < |routes[v]| - 1
      ensures !AvoidedHop(t, routes[v], i)
    {
      if AvoidedHop(t, routes[v], i) {
        AvoidedCost(t, routes[v], i);
        assert false;
      }
    }
  }

  lemma {:induction false} CostSplits(t: Topology, p: seq<NodeId>, k: nat)
    requires Connected(t, p) && k < |p|
    ensures Connected(t, p[..k + 1]) && Connected(t, p[k..])
    ensures PathCost(t, p) == PathCost(t, p[..k + 1]) + PathCost(t, p[k..])
    decreases |p|
  {
    hide Usable, HopCost, PathCost;
    if k == |p| - 1 {
      assert p[..k + 1] == p;
      NoHops(t, p[k..]);
    } else {
      var shorter, tail := p[..|p| - 1], p[k..];
      assert shorter[..k + 1] == p[..k + 1] && shorter[k..] == tail[..|tail| - 1];
      CostSplits(t, shorter, k);
      assert Connected(t, tail);
      LastHop(t, p);
      LastHop(t, tail);
    }
  }

  lemma NoHops(t: Topology, p: seq<NodeId>)
    requires |p| <= 1
    ensures Connected(t, p) && PathCost(t, p) == 0
  {
  }

  lemma LastHop(t: Topology, p: seq<NodeId>)
    requires Connected(t, p) && |p| > 1
    ensures Connected(t, p[..|p| - 1])
    ensures PathCost(t, p) == PathCost(t, p[..|p| - 1]) + HopCost(t, p[|p| - 2], p[|p| - 1])
  {
    hide Usable;
  }

  lemma PositiveCost(t: Topology, p: seq<NodeId>)
    requires Connected(t, p) && |p| > 1
    ensures PathCost(t, p) >= 1
  {
  }

  /** A path with the loop between two visits to one node left out. */
  function CutLoop(p: seq<NodeId>, i: nat, j: nat): seq<NodeId>
    requires i < j < |p|
  {
    p[..i + 1] + p[j + 1..]
  }

  lemma CutLoopIsPath(t: Topology, p: seq<NodeId>, v: NodeId, i: nat, j: nat)
    requires IsPath(t, p, v) && i < j < |p| && p[i] == p[j]
    ensures IsPath(t, CutLoop(p, i, j), v)
  {
    hide Usable;
    var q := CutLoop(p, i, j);
    forall k | 0 <= k < |q| - 1
      ensures Usable(t, q[k], q[k + 1])
    {
      if k < i {
        assert q[k] == p[k] && q[k + 1] == p[k + 1];
      } else {
        assert q[k] == p[k - i + j] && q[k + 1] == p[k + 1 - i + j];
      }
    }
  }

  lemma CutLoopIsCheaper(t: Topology, p: seq<NodeId>, i: nat, j: nat)
    requires Connected(t, p) && i < j < |p| && p[i] == p[j]
    requires Connected(t, CutLoop(p, i, j))
    ensures PathCost(t, CutLoop(p, i, j)) < PathCost(t, p)
  {
    hide Usable, HopCost, PathCost;
    var q, rest := CutLoop(p, i, j), p[i..];
    CostSplits(t, p, i);
    CostSplits(t, rest, j - i);
    assert rest[j - i..] == p[j..];
    PositiveCost(t, rest[..j - i + 1]);
    CostSplits(t, q, i);
    assert q[..i + 1] == p[..i + 1] && q[i..] == p[j..];
  }

  /** A least-cost path visits no node twice: cutting out the loop would undercut it. */
  lemma LeastPathIsSimple(t: Topology, p: seq<NodeId>, v: NodeId, i: nat, j: nat)
    requires IsLeastPath(t, p, v) && i < j < |p|
    ensures p[i] != p[j]
  {
    if p[i] == p[j] {
      CutLoopIsPath(t, p, v, i, j);
      CutLoopIsCheaper(t, p, i, j);
      assert false;
    }
  }

  /** Everything between the ends of a table entry is a live, joined relay other
      than the coordinator, and the destination is live and joined. */
  lemma RouteRelays(t: Topology, maxDepth: int, routes: map<NodeId, seq<NodeId>>, v: NodeId, i: nat)
    requires IsRouteTable(t, maxDepth, routes) && v in routes && 0 < i < |routes[v]|
    ensures var u := routes[v][i];
            && u in t.nodes && u != t.coord && t.nodes[u].alive && t.nodes[u].joined
            && (i < |routes[v]| - 1 ==> t.nodes[u].kind != EndDevice)
  {
    var p := routes[v];
    LeastPathIsSimple(t, p, v, 0, i);
    assert Usable(t, p[i - 1], p[i]);
    if i < |p| - 1 {
      assert Usable(t, p[i], p[i + 1]);
    }
  }

  /** The two zones offer the same hops at the same cost. */
  ghost predicate SameHops(t: Topology, u: Topology) {
    && u.coord == t.coord
    && (forall a, b :: Usable(t, a, b) <==> Usable(u, a, b))
    && (forall a, b :: Usable(t, a, b) ==> HopCost(t, a, b) == HopCost(u, a, b))
  }

  lemma {:induction false} SameHopsSamePaths(t: Topology, u: Topology, p: seq<NodeId>)
    requires SameHops(t, u) && Connected(t, p)
    ensures Connected(u, p) && PathCost(u, p) == PathCost(t, p)
    decreases |p|
  {
    hide HopCost, Usable;
    if |p| > 1 { SameHopsSamePaths(t, u, p[..|p| - 1]); }
  }

  lemma SameHopsSameLeast(t: Topology, u: Topology, p: seq<NodeId>, v: NodeId)
    requires SameHops(t, u) && IsLeastPath(t, p, v)
    ensures IsLeastPath(u, p, v)
  {
    hide HopCost, Usable, PathCost;
    SameHopsSamePaths(t, u, p);
    forall q | IsPath(u, q, v)
      ensures PathCost(u, p) <= PathCost(u, q)
    {
      SameHopsSamePaths(u, t, q);
    }
  }

  /** A routing table depends on the hops alone. */
  lemma RoutesFollowHops(t: Topology, u: Topology, maxDepth: int, routes: map<NodeId, seq<NodeId>>)
    requires SameHops(t, u) && IsRouteTable(t, maxDepth, routes)
    ensures IsRouteTable(u, maxDepth, routes)
  {
    hide HopCost, Usable, IsLeastPath;
    forall v | v in routes
      ensures IsLeastPath(u, routes[v], v)
    {
      SameHopsSameLeast(t, u, routes[v], v);
    }
    forall v, p | v != u.coord && v !in routes && IsPath(u, p, v)
      ensures HasLongLeastPath(u, maxDepth, v)
    {
      assert IsPath(t, p, v);
      assert HasLongLeastPath(t, maxDepth, v);
      var q :| IsLeastPath(t, q, v) && Hops(q) > maxDepth;
      SameHopsSameLeast(t, u, q, v);
    }
  }

  // ----- a route, hop by hop -----

  /** A frame can go from `u` to `v`: `u` relays, lists `v` and shares with it a link that is not
      cut and of quality 20 at least; and `v` is live and joined. */
  predicate CanCarry(t: Topology, u: NodeId, v: NodeId) {
    && u in t.nodes && v in t.nodes && v in Peers(t.neighbours, u)
    && (u == t.coord || t.nodes[u].kind == Coordinator || t.nodes[u].kind == Router)
    && t.nodes[v].alive && (v == t.coord || t.nodes[v].joined)
    && MakeLinkKey(u, v) in t.links && !t.links[MakeLinkKey(u, v)].cut && t.links[MakeLinkKey(u, v)].lqi >= 20
  }

  /** What a hop costs: the link's Zigbee cost, 64 if it is to be avoided, and 2 if it leads to a
      router with less than a fifth of its charge. */
  function Toll(t: Topology, u: NodeId, v: NodeId): int
    requires CanCarry(t, u, v)
  {
    ZigbeeFormula(t.links[MakeLinkKey(u, v)].lqi)
    + (if t.links[MakeLinkKey(u, v)].avoided then 64 else 0)
    + (if t.nodes[v].kind == Router && t.nodes[v].battery < 0.2 then 2 else 0)
  }

  /** A chain of such hops from the coordinator to `v`. */
  predicate Leads(t: Topology, p: seq<NodeId>, v: NodeId) {
    && |p| >= 1 && p[0] == t.coord && p[|p| - 1] == v
    && forall i :: 0 <= i < |p| - 1 ==> CanCarry(t, p[i], p[i + 1])
  }

  function TollOf(t: Topology, p: seq<NodeId>): int
    requires forall i :: 0 <= i < |p| - 1 ==> CanCarry(t, p[i], p[i + 1])
  {
    if |p| <= 1 then 0
    else TollOf(t, p[..|p| - 1]) + Toll(t, p[|p| - 2], p[|p| - 1])
  }

  lemma TollIsCost(t: Topology, u: NodeId, v: NodeId)
    ensures CanCarry(t, u, v) <==> Usable(t, u, v)
    ensures CanCarry(t, u, v) ==> Toll(t, u, v) == HopCost(t, u, v)
  {
    hide ZigbeeFormula, LinkCost;
    if CanCarry(t, u, v) { LinkCostIsZigbee(t.links[MakeLinkKey(u, v)].lqi); }
  }

  lemma {:induction false} TollsAreCosts(t: Topology, p: seq<NodeId>)
    ensures Connected(t, p) <==> forall i :: 0 <= i < |p| - 1 ==> CanCarry(t, p[i], p[i + 1])
    ensures Connected(t, p) ==> TollOf(t, p) == PathCost(t, p)
    decreases |p|
  {
    hide CanCarry, Toll, Usable, HopCost;
    forall i | 0 <= i < |p| - 1
      ensures CanCarry(t, p[i], p[i + 1]) <==> Usable(t, p[i], p[i + 1])
    {
      TollIsCost(t, p[i], p[i + 1]);
    }
    if |p| > 1 && Connected(t, p) {
      TollsAreCosts(t, p[..|p| - 1]);
      TollIsCost(t, p[|p| - 2], p[|p| - 1]);
    }
  }

  lemma LeadsIsPath(t: Topology, p: seq<NodeId>, v: NodeId)
    ensures Leads(t, p, v) <==> IsPath(t, p, v)
    ensures Leads(t, p, v) ==> TollOf(t, p) == PathCost(t, p)
  {
    hide CanCarry, Usable, TollOf, PathCost;
    TollsAreCosts(t, p);
  }

  /** A table entry leads to its radio within the radius, and no other chain costs less; a radio
      that some chain leads to has none only if a cheapest chain to it exceeds the radius. */
  lemma RoutesAreCheapest(t: Topology, maxDepth: int, routes: map<NodeId, seq<NodeId>>, v: NodeId)
    requires IsRouteTable(t, maxDepth, routes)
    ensures v in routes ==>
              && v != t.coord && Leads(t, routes[v], v) && |routes[v]| - 1 <= maxDepth
              && forall q :: Leads(t, q, v) ==> TollOf(t, routes[v]) <= TollOf(t, q)
    ensures v !in routes && v != t.coord && (exists q :: Leads(t, q, v)) ==>
              exists p :: Leads(t, p, v) && |p| - 1 > maxDepth
                && forall q :: Leads(t, q, v) ==> TollOf(t, p) <= TollOf(t, q)
  {
    hide CanCarry, Usable, TollOf, PathCost;
    forall q
      ensures Leads(t, q, v) <==> IsPath(t, q, v)
      ensures Leads(t, q, v) ==> TollOf(t, q) == PathCost(t, q)
    {
      LeadsIsPath(t, q, v);
    }
    if v !in routes && v != t.coord && exists q :: Leads(t, q, v) {
      var q :| Leads(t, q, v);
      assert IsPath(t, q, v) && HasLongLeastPath(t, maxDepth, v);
      var p :| IsLeastPath(t, p, v) && Hops(p) > maxDepth;
      assert Leads(t, p, v);
    }
  }
}
