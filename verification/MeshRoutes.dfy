/** Route computation: Dijkstra with lazy deletion from the coordinator, and the
    table read off its predecessor map. */
module MeshRoutes {
  import opened Common
  import opened Ordering
  import opened MeshModel

  type Distances = map<NodeId, int>
  type Predecessors = map<NodeId, NodeId>

  /** A priority-queue entry. Superseded entries stay queued and are skipped when popped. */
  datatype Item = Item(id: NodeId, cost: int)

  predicate ItemLess(x: Item, y: Item) {
    x.cost < y.cost || (x.cost == y.cost && Less(x.id, y.id))
  }

  // ----- invariants of the search -----

  /** Every reached node but the coordinator hangs off a settled one by a usable
      hop, and its distance is that node's distance plus the hop. */
  ghost predicate TreeOk(t: Topology, dist: Distances, prev: Predecessors, settled: set<NodeId>) {
    && t.coord in dist && dist[t.coord] == 0
    && settled <= dist.Keys <= t.nodes.Keys + {t.coord}
    && prev.Keys == dist.Keys - {t.coord}
    && forall v :: v in prev ==>
         && prev[v] in settled && Usable(t, prev[v], v)
         && dist[v] == dist[prev[v]] + HopCost(t, prev[v], v)
  }

  ghost predicate NonNegative(dist: Distances) {
    forall v :: v in dist ==> dist[v] >= 0
  }

  /** Every unsettled reached node is queued at its current distance, and no queued
      entry is cheaper than a settled node or than its own node's distance. */
  ghost predicate QueueOk(dist: Distances, q: seq<Item>, settled: set<NodeId>) {
    && settled <= dist.Keys
    && (forall x :: x in q ==> x.id in dist && dist[x.id] <= x.cost)
    && (forall x, u :: x in q && u in settled ==> dist[u] <= x.cost)
    && (forall v :: v in dist && v !in settled ==> Item(v, dist[v]) in q)
  }

  /** No usable hop out of `u` undercuts the distance of its far end. */
  ghost predicate Relaxed(t: Topology, dist: Distances, u: NodeId)
    requires u in dist
  {
    forall v :: Usable(t, u, v) ==> v in dist && dist[v] <= dist[u] + HopCost(t, u, v)
  }

  ghost predicate SearchOk(t: Topology, dist: Distances, prev: Predecessors, q: seq<Item>, settled: set<NodeId>) {
    && TreeOk(t, dist, prev, settled)
    && NonNegative(dist)
    && QueueOk(dist, q, settled)
    && forall u :: u in settled ==> Relaxed(t, dist, u)
  }

  /** What the search computes: exact distances with a predecessor tree behind them. */
  ghost predicate IsDistanceMap(t: Topology, dist: Distances, prev: Predecessors) {
    && TreeOk(t, dist, prev, dist.Keys)
    && NonNegative(dist)
    && forall u :: u in dist ==> Relaxed(t, dist, u)
  }

  // ----- what exact distances mean for paths -----

  /** Every node a path reaches has a distance, and the path costs at least that. */
  lemma {:induction false} PathsCostAtLeastDistance(t: Topology, dist: Distances, prev: Predecessors, p: seq<NodeId>,
                                                    v: NodeId)
    requires IsDistanceMap(t, dist, prev)
    requires IsPath(t, p, v)
    ensures v in dist && dist[v] <= PathCost(t, p)
    decreases |p|
  {
    if |p| > 1 {
      var shorter := p[..|p| - 1];
      var u := p[|p| - 2];
      assert IsPath(t, shorter, u);
      PathsCostAtLeastDistance(t, dist, prev, shorter, u);
      assert Usable(t, u, v);
    }
  }

  /** Appending a hop appends its cost. */
  lemma ExtendPath(t: Topology, p: seq<NodeId>, u: NodeId, v: NodeId)
    requires IsPath(t, p, u) && Usable(t, u, v)
    ensures IsPath(t, p + [v], v)
    ensures PathCost(t, p + [v]) == PathCost(t, p) + HopCost(t, u, v)
  {
    assert (p + [v])[..|p|] == p;
  }

  /** Distance strictly falls from a node to its predecessor, down to the coordinator. */
  ghost predicate DistanceFalls(coord: NodeId, dist: Distances, prev: Predecessors) {
    && prev.Keys == dist.Keys - {coord}
    && forall v :: v in prev ==> prev[v] in dist && 0 <= dist[prev[v]] < dist[v]
  }

  lemma DistanceMapFalls(t: Topology, dist: Distances, prev: Predecessors)
    requires IsDistanceMap(t, dist, prev)
    ensures DistanceFalls(t.coord, dist, prev)
  {
    forall v | v in prev
      ensures prev[v] in dist && 0 <= dist[prev[v]] < dist[v]
    {
      assert Usable(t, prev[v], v);
    }
  }

  /** The predecessor walk from `v`, coordinator first. */
  ghost function TreePath(coord: NodeId, dist: Distances, prev: Predecessors, v: NodeId): (p: seq<NodeId>)
    requires DistanceFalls(coord, dist, prev) && v in dist
    decreases if v == coord then 0 else 1 + dist[v]
  {
    if v == coord then [v] else TreePath(coord, dist, prev, prev[v]) + [v]
  }

  /** The predecessor walk is a path that costs exactly the distance. */
  lemma {:induction false} TreePathCost(t: Topology, dist: Distances, prev: Predecessors, v: NodeId)
    requires IsDistanceMap(t, dist, prev) && DistanceFalls(t.coord, dist, prev) && v in dist
    ensures IsPath(t, TreePath(t.coord, dist, prev, v), v)
    ensures PathCost(t, TreePath(t.coord, dist, prev, v)) == dist[v]
    decreases dist[v]
  {
    if v != t.coord {
      TreePathCost(t, dist, prev, prev[v]);
      ExtendPath(t, TreePath(t.coord, dist, prev, prev[v]), prev[v], v);
    }
  }

  lemma TreePathIsLeast(t: Topology, dist: Distances, prev: Predecessors, v: NodeId)
    requires IsDistanceMap(t, dist, prev) && DistanceFalls(t.coord, dist, prev) && v in dist
    ensures IsLeastPath(t, TreePath(t.coord, dist, prev, v), v)
  {
    TreePathCost(t, dist, prev, v);
    forall q | IsPath(t, q, v)
      ensures dist[v] <= PathCost(t, q)
    {
      PathsCostAtLeastDistance(t, dist, prev, q, v);
    }
  }

  // ----- the search -----

  method LeastIndex(q: seq<Item>) returns (k: nat)
    requires |q| > 0
    ensures k < |q|
    ensures forall j :: 0 <= j < |q| ==> !ItemLess(q[j], q[k])
  {
    k := 0;
    LessIrreflexive(q[0].id);
    for i := 1 to |q|
      invariant k < i
      invariant forall j :: 0 <= j < i ==> !ItemLess(q[j], q[k])
    {
      LessIrreflexive(q[i].id);
      if ItemLess(q[i], q[k]) {
        forall j | 0 <= j < i
          ensures !ItemLess(q[j], q[i])
        {
          LessTotal(q[j].id, q[i].id);
          if ItemLess(q[j], q[i]) && q[j].cost == q[i].cost == q[k].cost {
            LessTransitive(q[j].id, q[i].id, q[k].id);
          }
        }
        k := i;
      }
    }
  }

  /** A cheaper hop out of a settled node re-hangs its far end and keeps every invariant. */
  lemma ImproveKeepsSearch(t: Topology, dist: Distances, prev: Predecessors, q: seq<Item>, done: set<NodeId>,
                           u: NodeId, v: NodeId)
    requires TreeOk(t, dist, prev, done) && NonNegative(dist) && QueueOk(dist, q, done)
    requires u in done && Usable(t, u, v)
    requires forall w :: w in done ==> dist[w] <= dist[u]
    requires v !in dist || dist[u] + HopCost(t, u, v) < dist[v]
    ensures v !in done
    ensures var cost := dist[u] + HopCost(t, u, v);
            && TreeOk(t, dist[v := cost], prev[v := u], done)
            && NonNegative(dist[v := cost])
            && QueueOk(dist[v := cost], q + [Item(v, cost)], done)
  {
    ImproveKeepsTree(t, dist, prev, done, u, v);
    hide TreeOk, Usable, HopCost;
  }

  lemma ImproveKeepsTree(t: Topology, dist: Distances, prev: Predecessors, done: set<NodeId>, u: NodeId, v: NodeId)
    requires TreeOk(t, dist, prev, done) && NonNegative(dist) && u in done && Usable(t, u, v)
    requires forall w :: w in done ==> dist[w] <= dist[u]
    requires v !in dist || dist[u] + HopCost(t, u, v) < dist[v]
    ensures v !in done && TreeOk(t, dist[v := dist[u] + HopCost(t, u, v)], prev[v := u], done)
  {
  }

  /** Lowering the distance of an unsettled node keeps settled nodes relaxed. */
  lemma ImproveKeepsRelaxed(t: Topology, dist: Distances, w: NodeId, v: NodeId, cost: int)
    requires w in dist && Relaxed(t, dist, w) && w != v
    requires v !in dist || cost < dist[v]
    ensures Relaxed(t, dist[v := cost], w)
  {
  }

  lemma ImproveKeepsAllRelaxed(t: Topology, dist: Distances, settled: set<NodeId>, v: NodeId, cost: int)
    requires settled <= dist.Keys && v !in settled
    requires forall u :: u in settled ==> Relaxed(t, dist, u)
    requires v !in dist || cost < dist[v]
    ensures forall u :: u in settled ==> Relaxed(t, dist[v := cost], u)
  {
    forall u | u in settled
      ensures Relaxed(t, dist[v := cost], u)
    {
      ImproveKeepsRelaxed(t, dist, u, v, cost);
    }
  }

  /** Popping `cur` at its current distance settles it. */
  lemma SettleKeepsQueue(dist: Distances, cur: Item, q: seq<Item>, settled: set<NodeId>)
    requires QueueOk(dist, [cur] + q, settled)
    requires cur.cost == dist[cur.id]
    requires forall x :: x in q ==> cur.cost <= x.cost
    ensures QueueOk(dist, q, settled + {cur.id})
    ensures forall u :: u in settled + {cur.id} ==> dist[u] <= cur.cost
  {
    assert cur in [cur] + q;
    assert forall x :: x in q ==> x in [cur] + q;
    forall v | v in dist && v !in settled + {cur.id}
      ensures Item(v, dist[v]) in q
    {
      assert Item(v, dist[v]) in [cur] + q;
    }
  }

  /** `cur` is being settled and its first `i` peers have been offered a hop. */
  ghost predicate Relaxing(t: Topology, cur: Item, dist: Distances, prev: Predecessors, q: seq<Item>,
                           settled: set<NodeId>, peers: seq<NodeId>, i: nat) {
    && TreeOk(t, dist, prev, settled + {cur.id}) && NonNegative(dist) && QueueOk(dist, q, settled + {cur.id})
    && cur.cost == dist[cur.id]
    && (forall u :: u in settled + {cur.id} ==> dist[u] <= cur.cost)
    && (forall u :: u in settled ==> Relaxed(t, dist, u))
    && Offered(t, cur, dist, peers, i)
  }

  ghost predicate Offered(t: Topology, cur: Item, dist: Distances, peers: seq<NodeId>, i: nat) {
    && i <= |peers|
    && forall j :: 0 <= j < i && Usable(t, cur.id, peers[j]) ==>
         peers[j] in dist && dist[peers[j]] <= cur.cost + HopCost(t, cur.id, peers[j])
  }

  lemma ImproveKeepsOffered(t: Topology, cur: Item, dist: Distances, peers: seq<NodeId>, i: nat)
    requires Offered(t, cur, dist, peers, i)
    requires i < |peers| && Usable(t, cur.id, peers[i])
    requires peers[i] !in dist || cur.cost + HopCost(t, cur.id, peers[i]) < dist[peers[i]]
    ensures Offered(t, cur, dist[peers[i] := cur.cost + HopCost(t, cur.id, peers[i])], peers, i + 1)
  {
  }

  lemma ImproveKeepsRelaxing(t: Topology, cur: Item, dist: Distances, prev: Predecessors, q: seq<Item>,
                             settled: set<NodeId>, peers: seq<NodeId>, i: nat)
    requires Relaxing(t, cur, dist, prev, q, settled, peers, i)
    requires i < |peers| && Usable(t, cur.id, peers[i])
    requires peers[i] !in dist || cur.cost + HopCost(t, cur.id, peers[i]) < dist[peers[i]]
    ensures cur.id !in settled
    ensures var cost := cur.cost + HopCost(t, cur.id, peers[i]);
            Relaxing(t, cur, dist[peers[i] := cost], prev[peers[i] := cur.id], q + [Item(peers[i], cost)], settled,
                peers, i + 1)
  {
    hide TreeOk, NonNegative, Offered, HopCost, Usable;
    var v, cost := peers[i], cur.cost + HopCost(t, cur.id, peers[i]);
    ImproveKeepsSearch(t, dist, prev, q, settled + {cur.id}, cur.id, v);
    ImproveKeepsOffered(t, cur, dist, peers, i);
    ImproveKeepsAllRelaxed(t, dist, settled, v, cost);
  }

  lemma RelaxingDone(t: Topology, cur: Item, dist: Distances, prev: Predecessors, q: seq<Item>, settled: set<NodeId>)
    requires Relaxing(t, cur, dist, prev, q, settled, Peers(t.neighbours, cur.id), |Peers(t.neighbours, cur.id)|)
    ensures SearchOk(t, dist, prev, q, settled + {cur.id})
  {
    assert Relaxed(t, dist, cur.id);
  }

  lemma EndDeviceRelaysNothing(t: Topology, cur: Item, dist: Distances, prev: Predecessors, q: seq<Item>,
                               settled: set<NodeId>)
    requires Relaxing(t, cur, dist, prev, q, settled, [], 0)
    requires cur.id in t.nodes && cur.id != t.coord && t.nodes[cur.id].kind == EndDevice
    ensures SearchOk(t, dist, prev, q, settled + {cur.id})
  {
    assert Relaxed(t, dist, cur.id);
  }

  lemma NoImprovement(t: Topology, cur: Item, dist: Distances, prev: Predecessors, q: seq<Item>,
                      settled: set<NodeId>, peers: seq<NodeId>, i: nat)
    requires Relaxing(t, cur, dist, prev, q, settled, peers, i) && i < |peers|
    requires Usable(t, cur.id, peers[i]) ==>
               peers[i] in dist && dist[peers[i]] <= cur.cost + HopCost(t, cur.id, peers[i])
    ensures Relaxing(t, cur, dist, prev, q, settled, peers, i + 1)
  {
  }

  /** Offers peer `i` a hop from `cur`. */
  method OfferHop(t: Topology, cur: Item, dist0: Distances, prev0: Predecessors, q0: seq<Item>,
                  ghost settled: set<NodeId>, peers: seq<NodeId>, i: nat)
    returns (dist: Distances, prev: Predecessors, q: seq<Item>)
    requires Relaxing(t, cur, dist0, prev0, q0, settled, peers, i) && i < |peers|
    ensures Relaxing(t, cur, dist, prev, q, settled, peers, i + 1)
    ensures cur.id in settled ==> q == q0
  {
    hide Relaxing;
    dist, prev, q := dist0, prev0, q0;
    var peer := peers[i];
    if Usable(t, cur.id, peer) {
      var cost := cur.cost + HopCost(t, cur.id, peer);
      if peer !in dist || cost < dist[peer] {
        ImproveKeepsRelaxing(t, cur, dist, prev, q, settled, peers, i);
        dist := dist[peer := cost];
        prev := prev[peer := cur.id];
        q := q + [Item(peer, cost)];
        return;
      }
    }
    NoImprovement(t, cur, dist, prev, q, settled, peers, i);
  }

  /** Settles `cur`: offers every usable hop out of it to its far end. */
  method Relax(t: Topology, cur: Item, dist0: Distances, prev0: Predecessors, q0: seq<Item>, ghost settled: set<NodeId>)
    returns (dist: Distances, prev: Predecessors, q: seq<Item>)
    requires Relaxing(t, cur, dist0, prev0, q0, settled, [], 0)
    ensures SearchOk(t, dist, prev, q, settled + {cur.id})
    ensures cur.id in settled ==> q == q0
  {
    dist, prev, q := dist0, prev0, q0;
    if cur.id != t.coord && t.nodes[cur.id].kind == EndDevice {
      EndDeviceRelaysNothing(t, cur, dist, prev, q, settled);
      return;
    }
    var peers := Peers(t.neighbours, cur.id);
    for i := 0 to |peers|
      invariant Relaxing(t, cur, dist, prev, q, settled, peers, i)
      invariant cur.id in settled ==> q == q0
    {
      dist, prev, q := OfferHop(t, cur, dist, prev, q, settled, peers, i);
    }
    RelaxingDone(t, cur, dist, prev, q, settled);
  }

  /** Taking entry `k` out of the queue leaves it at the front of the rest. */
  lemma PopKeepsQueue(dist: Distances, q: seq<Item>, k: nat, rest: seq<Item>, settled: set<NodeId>)
    requires k < |q| && rest == q[..k] + q[k + 1..]
    requires QueueOk(dist, q, settled)
    requires forall j :: 0 <= j < |q| ==> !ItemLess(q[j], q[k])
    ensures QueueOk(dist, [q[k]] + rest, settled)
    ensures forall x :: x in rest ==> q[k].cost <= x.cost
    ensures dist[q[k].id] < q[k].cost ==> QueueOk(dist, rest, settled)
  {
    assert q == q[..k] + [q[k]] + q[k + 1..];
    assert forall x :: x in q <==> x in [q[k]] + rest;
    forall x | x in q
      ensures q[k].cost <= x.cost
    {
      var j :| 0 <= j < |q| && q[j] == x;
      assert !ItemLess(q[j], q[k]);
    }
    assert forall x :: x in rest ==> x in q;
    if dist[q[k].id] < q[k].cost {
      forall v | v in dist && v !in settled
        ensures Item(v, dist[v]) in rest
      {
        assert Item(v, dist[v]) in [q[k]] + rest;
      }
    }
  }

  lemma EmptyQueueSettlesAll(t: Topology, dist: Distances, prev: Predecessors, settled: set<NodeId>)
    requires SearchOk(t, dist, prev, [], settled)
    ensures IsDistanceMap(t, dist, prev)
  {
    assert forall v :: v in dist && v !in settled ==> Item(v, dist[v]) !in [];
    assert settled == dist.Keys;
  }

  /** Single-source least distances with lazy deletion of superseded entries. */
  method ShortestDistances(t: Topology) returns (dist: Distances, prev: Predecessors)
    ensures IsDistanceMap(t, dist, prev)
  {
    dist, prev := map[t.coord := 0], map[];
    var q := [Item(t.coord, 0)];
    ghost var settled: set<NodeId> := {};
    ghost var universe := t.nodes.Keys + {t.coord};
    while |q| > 0
      invariant SearchOk(t, dist, prev, q, settled)
      decreases universe - settled, |q|
    {
      var k := LeastIndex(q);
      var cur := q[k];
      var rest := q[..k] + q[k + 1..];
      PopKeepsQueue(dist, q, k, rest, settled);
      assert cur in q;
      if dist[cur.id] < cur.cost {
        q := rest;
      } else {
        ghost var before := settled;
        SettleKeepsQueue(dist, cur, rest, settled);
        dist, prev, q := Relax(t, cur, dist, prev, rest, settled);
        settled := settled + {cur.id};
        assert cur.id in universe - before || q == rest;
      }
    }
    EmptyQueueSettlesAll(t, dist, prev, settled);
  }

  /** Turns a walk round by swapping from both ends. */
  method Reverse(s: seq<NodeId>) returns (r: seq<NodeId>)
    ensures r == Reversed(s)
  {
    r := s;
    var i, j := 0, |s| - 1;
    while i < j
      invariant 0 <= i && j == |s| - 1 - i && i <= j + 1 && |r| == |s|
      invariant forall k :: 0 <= k < i || j < k < |s| ==> r[k] == s[|s| - 1 - k]
      invariant forall k :: i <= k <= j ==> r[k] == s[k]
    {
      r := r[i := r[j]][j := r[i]];
      i, j := i + 1, j - 1;
    }
  }

  /** Walks predecessors from `v` back to the coordinator and turns the walk round. */
  method WalkBack(coord: NodeId, ghost dist: Distances, prev: Predecessors, v: NodeId) returns (path: seq<NodeId>)
    requires DistanceFalls(coord, dist, prev) && v in dist
    ensures path == TreePath(coord, dist, prev, v)
  {
    var back := [v];
    var cur := v;
    assert TreePath(coord, dist, prev, v) == TreePath(coord, dist, prev, cur) + Reversed(back[..0]);
    while cur != coord
      invariant cur in dist && |back| >= 1 && back[|back| - 1] == cur
      invariant TreePath(coord, dist, prev, v) == TreePath(coord, dist, prev, cur) + Reversed(back[..|back| - 1])
      decreases if cur == coord then 0 else 1 + dist[cur]
    {
      var p := prev[cur];
      ghost var tail := back[..|back| - 1];
      assert back == tail + [cur];
      assert Reversed(back) == [cur] + Reversed(tail);
      assert TreePath(coord, dist, prev, cur) == TreePath(coord, dist, prev, p) + [cur];
      back := back + [p];
      assert back[..|back| - 1] == tail + [cur];
      cur := p;
    }
    assert Reversed(back) == [coord] + Reversed(back[..|back| - 1]);
    path := Reverse(back);
  }

  /** What the routing table promises for a topology and a network radius: each
      entry is a path no other undercuts and fits the radius; a reachable node is
      missing only because a least-cost path to it exceeds the radius. */
  ghost predicate IsRouteTable(t: Topology, maxDepth: int, routes: map<NodeId, seq<NodeId>>) {
    && (forall v :: v in routes ==> v != t.coord && IsLeastPath(t, routes[v], v) && Hops(routes[v]) <= maxDepth)
    && (forall v, p :: v != t.coord && v !in routes && IsPath(t, p, v) ==> HasLongLeastPath(t, maxDepth, v))
  }

  ghost predicate HasLongLeastPath(t: Topology, maxDepth: int, v: NodeId) {
    exists q :: IsLeastPath(t, q, v) && Hops(q) > maxDepth
  }

  /** The walks that fit the radius, for the nodes in `done`. */
  ghost predicate HoldsTreePaths(coord: NodeId, dist: Distances, prev: Predecessors, maxDepth: int,
                                 done: set<NodeId>, routes: map<NodeId, seq<NodeId>>)
    requires DistanceFalls(coord, dist, prev) && done <= dist.Keys
  {
    && routes.Keys <= done - {coord}
    && forall v :: v in done && v != coord ==>
         var p := TreePath(coord, dist, prev, v);
         if Hops(p) <= maxDepth then v in routes && routes[v] == p else v !in routes
  }

  lemma TreePathsFormRouteTable(t: Topology, dist: Distances, prev: Predecessors, maxDepth: int,
                                routes: map<NodeId, seq<NodeId>>)
    requires IsDistanceMap(t, dist, prev) && DistanceFalls(t.coord, dist, prev)
    requires HoldsTreePaths(t.coord, dist, prev, maxDepth, dist.Keys, routes)
    ensures IsRouteTable(t, maxDepth, routes)
  {
    forall v | v in routes
      ensures v != t.coord && IsLeastPath(t, routes[v], v) && Hops(routes[v]) <= maxDepth
    {
      TreePathIsLeast(t, dist, prev, v);
    }
    forall v, p | v != t.coord && v !in routes && IsPath(t, p, v)
      ensures HasLongLeastPath(t, maxDepth, v)
    {
      PathsCostAtLeastDistance(t, dist, prev, p, v);
      TreePathIsLeast(t, dist, prev, v);
    }
  }

  /** Rebuilds the whole table: distances first, then one walk per reached node. */
  method ComputeRoutes(t: Topology, maxDepth: int) returns (routes: map<NodeId, seq<NodeId>>)
    ensures t.coord != "" ==> IsRouteTable(t, maxDepth, routes)
    ensures t.coord == "" ==> routes == map[]
  {
    routes := map[];
    if t.coord == "" { return; }
    var dist, prev := ShortestDistances(t);
    DistanceMapFalls(t, dist, prev);
    routes := CollectRoutes(t.coord, dist, prev, maxDepth);
    TreePathsFormRouteTable(t, dist, prev, maxDepth, routes);
  }

  method CollectRoutes(coord: NodeId, dist: Distances, prev: Predecessors, maxDepth: int)
    returns (routes: map<NodeId, seq<NodeId>>)
    requires DistanceFalls(coord, dist, prev)
    ensures HoldsTreePaths(coord, dist, prev, maxDepth, dist.Keys, routes)
  {
    routes := map[];
    var todo := dist.Keys;
    while todo != {}
      invariant todo <= dist.Keys
      invariant HoldsTreePaths(coord, dist, prev, maxDepth, dist.Keys - todo, routes)
      decreases todo
    {
      var id :| id in todo;
      if id != coord {
        var path := WalkBack(coord, dist, prev, id);
        if |path| - 1 <= maxDepth {
          routes := routes[id := path];
        }
      }
      todo := todo - {id};
    }
    assert dist.Keys - todo == dist.Keys;
  }
}
