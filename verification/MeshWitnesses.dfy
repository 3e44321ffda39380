/** Zones that show where the guarantees of routing end. Each of them satisfies every
    invariant of registration and formation. */
module MeshWitnesses {
  import opened MeshModel
  import opened MeshRoutes
  import opened MeshRouteLaws
  import NT = NeighbourTables
  import F = Formation
  import N = Network

  // ----- a ring of nine radios -----

  function Name(i: nat): NodeId
    requires i <= 8
  {
    [('0' as int + i) as char]
  }

  predicate IsName(u: NodeId) { |u| == 1 && '0' <= u[0] <= '8' }

  function Names(): set<NodeId> { set i: nat | i <= 8 :: Name(i) }

  function Place(u: NodeId): int {
    if |u| == 1 then u[0] as int - '0' as int else 0
  }

  lemma NamesAre(u: NodeId)
    ensures u in Names() <==> IsName(u)
    ensures IsName(u) ==> 0 <= Place(u) <= 8 && u == Name(Place(u))
  {
    if IsName(u) { assert u == Name(Place(u)); }
  }

  /** A ring on the shop floor, each radio in range of its two neighbours only. */
  function RingAt(i: int): Point {
    if i == 0 then Point(0.0, 4.5)
    else if i <= 3 then Point(10.0 * i as real, 0.0)
    else if i == 4 then Point(30.0, 10.0)
    else if i <= 7 then Point(10.0 * (8 - i) as real, 20.0)
    else Point(0.0, 15.5)
  }

  const RANGE := 12.0

  /** The coordinator, seven relays with flat batteries hanging off each other, and a
      label hanging off the coordinator. */
  function RingNode(i: int): Node {
    Node(if i == 0 then Coordinator else if i == 8 then EndDevice else Router, RingAt(i),
         if i == 0 || i == 8 then 1.0 else 0.1, true, true,
         if i == 8 then Name(0) else if 1 <= i < 8 then Name(i - 1) else "",
         if i == 8 then 1 else i, if i == 0 then 2 else if i < 7 then 1 else 0)
  }

  function RingPeers(u: NodeId): seq<NodeId> {
    if u == "0" then ["1", "8"]
    else if u == "8" then ["0", "7"]
    else if IsName(u) then [Name(Place(u) - 1), Name(Place(u) + 1)]
    else []
  }

  const SHORT_CUT := LinkKey("0", "8")

  function RingKey(i: nat): LinkKey
    requires i < 8
  {
    LinkKey(Name(i), Name(i + 1))
  }

  function RingKeys(): set<LinkKey> { (set i: nat | i < 8 :: RingKey(i)) + {SHORT_CUT} }

  predicate IsRingKey(k: LinkKey) {
    k == SHORT_CUT || (IsName(k.a) && IsName(k.b) && Place(k.b) == Place(k.a) + 1)
  }

  lemma RingKeysAre(k: LinkKey)
    ensures k in RingKeys() <==> IsRingKey(k)
  {
    NamesAre(k.a);
    NamesAre(k.b);
    if IsRingKey(k) && k != SHORT_CUT {
      var i: nat := Place(k.a);
      assert k == RingKey(i);
    }
  }

  /** Weak links round the ring, and a strong one to be avoided across its gap. */
  function RingLink(k: LinkKey): Link {
    if k == SHORT_CUT then Link(false, true, 255) else Link(false, false, 100)
  }

  function Ring(): Topology {
    Topology("0", map u | u in Names() :: RingNode(Place(u)), map k | k in RingKeys() :: RingLink(k),
             map u | u in Names() :: RingPeers(u))
  }

  lemma RingNodes(u: NodeId)
    ensures Ring().coord == "0" && (u in Ring().nodes <==> IsName(u))
    ensures IsName(u) ==> 0 <= Place(u) <= 8 && u == Name(Place(u)) && Ring().nodes[u] == RingNode(Place(u))
  {
    NamesAre(u);
    hide Names, RingKeys;
  }

  lemma RingLinks(k: LinkKey)
    ensures k in Ring().links <==> IsRingKey(k)
    ensures IsRingKey(k) ==> Ring().links[k] == RingLink(k)
  {
    RingKeysAre(k);
    hide Names, RingKeys;
  }

  lemma RingTable(u: NodeId)
    ensures Peers(Ring().neighbours, u) == RingPeers(u)
  {
    NamesAre(u);
    hide Names, RingKeys;
  }

  predicate Beside(i: int, j: int) { j == i + 1 || i == j + 1 || (i == 0 && j == 8) || (i == 8 && j == 0) }

  lemma RingPeersAre(a: NodeId, b: NodeId)
    ensures b in RingPeers(a) <==> IsName(a) && IsName(b) && Beside(Place(a), Place(b))
  {
    NamesAre(a);
    NamesAre(b);
    hide Names;
  }

  /** One-character names are ordered by their place. */
  lemma KeyOf(a: NodeId, b: NodeId)
    requires IsName(a) && IsName(b)
    ensures MakeLinkKey(a, b) == if Place(b) < Place(a) then LinkKey(b, a) else LinkKey(a, b)
  {
    assert b[1..] == [] && a[1..] == [];
  }

  // ----- eight hops -----

  /** The cost of the way round to a place on the ring. */
  function Round(i: int): int { if i == 8 then 70 else 9 * i }

  lemma RingHop(u: NodeId, v: NodeId)
    requires Usable(Ring(), u, v)
    ensures IsName(u) && IsName(v) && Beside(Place(u), Place(v))
    ensures Avoided(Ring(), u, v) <==> MakeLinkKey(u, v) == SHORT_CUT
    ensures HopCost(Ring(), u, v) ==
            if MakeLinkKey(u, v) == SHORT_CUT then 65 else if v == "0" || v == "8" then 7 else 9
  {
    RingNodes(u);
    RingNodes(v);
    RingTable(u);
    RingPeersAre(u, v);
    RingLinks(MakeLinkKey(u, v));
    KeyOf(u, v);
    hide Ring, MakeLinkKey, RingPeers;
  }

  /** No hop that is not avoided gets further round than it costs. */
  lemma HopGetsRound(u: NodeId, v: NodeId)
    requires Usable(Ring(), u, v) && !Avoided(Ring(), u, v)
    ensures Round(Place(v)) <= Round(Place(u)) + HopCost(Ring(), u, v)
  {
    hide Usable, Avoided, HopCost, MakeLinkKey, Ring;
    RingHop(u, v);
    KeyOf(u, v);
    NamesAre(u);
    NamesAre(v);
  }

  lemma RingStep(u: NodeId, v: NodeId)
    requires IsName(u) && IsName(v) && Beside(Place(u), Place(v)) && u != "8"
    ensures Usable(Ring(), u, v)
  {
    RingNodes(u);
    RingNodes(v);
    RingTable(u);
    RingPeersAre(u, v);
    RingLinks(MakeLinkKey(u, v));
    KeyOf(u, v);
    hide Ring, MakeLinkKey, RingPeers;
  }

  lemma {:induction false} RingCost(p: seq<NodeId>)
    requires |p| >= 1 && p[0] == "0" && Connected(Ring(), p) && Clean(Ring(), p)
    ensures PathCost(Ring(), p) >= Round(Place(p[|p| - 1]))
    decreases |p|
  {
    hide Usable, HopCost, Ring;
    if |p| > 1 {
      var shorter := p[..|p| - 1];
      assert forall i :: 0 <= i < |shorter| - 1 ==> AvoidedHop(Ring(), shorter, i) == AvoidedHop(Ring(), p, i);
      RingCost(shorter);
      assert !AvoidedHop(Ring(), p, |p| - 2);
      HopGetsRound(p[|p| - 2], p[|p| - 1]);
    }
  }

  const WAY_ROUND: seq<NodeId> := seq(9, i requires 0 <= i <= 8 => Name(i))

  lemma WayRoundIsClean()
    ensures IsPath(Ring(), WAY_ROUND, "8") && Clean(Ring(), WAY_ROUND) && Hops(WAY_ROUND) == 8
  {
    hide Usable, Avoided, Ring, MakeLinkKey;
    forall i | 0 <= i < 8
      ensures Usable(Ring(), WAY_ROUND[i], WAY_ROUND[i + 1]) && !Avoided(Ring(), WAY_ROUND[i], WAY_ROUND[i + 1])
    {
      RingStep(Name(i), Name(i + 1));
      RingHop(Name(i), Name(i + 1));
      KeyOf(Name(i), Name(i + 1));
    }
    RingNodes("0");
  }

  lemma ShortCutCost()
    ensures IsPath(Ring(), ["0", "8"], "8") && PathCost(Ring(), ["0", "8"]) == 65
  {
    hide Usable, HopCost, Ring, MakeLinkKey;
    RingNodes("0");
    RingStep("0", "8");
    RingHop("0", "8");
    KeyOf("0", "8");
    assert PathCost(Ring(), ["0", "8"][..1]) == 0;
  }

  /** Nothing undercuts the short cut. */
  lemma ShortCutIsShort(q: seq<NodeId>)
    requires IsLeastPath(Ring(), q, "8")
    ensures Hops(q) == 1 && !Clean(Ring(), q)
  {
    hide Usable, Avoided, HopCost, PathCost, Clean, Ring;
    ShortCutCost();
    RingNodes("0");
    assert Connected(Ring(), q) && Place("8") == 8;
    if Clean(Ring(), q) {
      RingCost(q);
      assert false;
    }
    var i := AnAvoidedHop(Ring(), q);
    AvoidedCost(Ring(), q, i);
  }

  lemma AnAvoidedHop(t: Topology, p: seq<NodeId>) returns (i: int)
    requires !Clean(t, p)
    ensures AvoidedHop(t, p, i)
  {
    i :| 0 <= i < |p| - 1 && AvoidedHop(t, p, i);
  }

  /** At eight hops the penalty no longer dominates: there is a path of eight hops to
      "8" with no avoided link, yet every routing table reaches "8" over the avoided one. */
  lemma EightHopsMayLose(maxDepth: int, routes: map<NodeId, seq<NodeId>>)
    requires IsRouteTable(Ring(), maxDepth, routes) && maxDepth >= 1
    ensures IsPath(Ring(), WAY_ROUND, "8") && Clean(Ring(), WAY_ROUND) && Hops(WAY_ROUND) == 8
    ensures "8" in routes && !Clean(Ring(), routes["8"])
  {
    hide Usable, Avoided, HopCost, PathCost, Clean, Ring, IsLeastPath;
    WayRoundIsClean();
    RingNodes("0");
    if "8" !in routes {
      assert HasLongLeastPath(Ring(), maxDepth, "8");
      var q :| IsLeastPath(Ring(), q, "8") && Hops(q) > maxDepth;
      ShortCutIsShort(q);
      assert false;
    }
    ShortCutIsShort(routes["8"]);
  }

  // ----- the ring can be built and formed -----

  lemma RingRange(i: int, j: int)
    requires 0 <= i <= 8 && 0 <= j <= 8 && i != j
    ensures NT.InRange(RingAt(i), RingAt(j), RANGE) <==> Beside(i, j)
  {
  }

  /** Every radio hears exactly those in range. */
  lemma RingIsComplete(a: NodeId, b: NodeId)
    requires a in Ring().nodes && b in Ring().nodes && a != b
    ensures b in Peers(Ring().neighbours, a) <==> NT.InRange(Ring().nodes[a].pos, Ring().nodes[b].pos, RANGE)
  {
    hide Ring, NT.InRange, RingPeers, Peers;
    RingNodes(a);
    RingNodes(b);
    RingTable(a);
    RingPeersAre(a, b);
    RingRange(Place(a), Place(b));
  }

  lemma RingPair(a: NodeId, b: NodeId)
    requires b in Peers(Ring().neighbours, a)
    ensures a in Peers(Ring().neighbours, b) && NT.Near(Ring().nodes, a, b, RANGE) && MakeLinkKey(a, b) in Ring().links
  {
    hide Ring, NT.InRange, RingPeers, Peers, MakeLinkKey, RingAt;
    RingTable(a);
    RingTable(b);
    RingPeersAre(a, b);
    RingPeersAre(b, a);
    RingNodes(a);
    RingNodes(b);
    RingRange(Place(a), Place(b));
    KeyOf(a, b);
    RingLinks(MakeLinkKey(a, b));
  }

  lemma RingLinkPair(k: LinkKey)
    requires k in Ring().links
    ensures k == MakeLinkKey(k.a, k.b) && k.b in Peers(Ring().neighbours, k.a)
  {
    hide Ring, RingPeers, Peers, MakeLinkKey;
    RingLinks(k);
    KeyOf(k.a, k.b);
    RingTable(k.a);
    RingPeersAre(k.a, k.b);
  }

  lemma RingTablesSmall()
    ensures NT.Simple(Ring().neighbours) && NT.Within(Ring().nodes, Ring().neighbours, {})
  {
    hide Ring, RingPeers, Peers, NT.Distinct;
    forall a
      ensures var p := Peers(Ring().neighbours, a); NT.Distinct(p) && a !in p && |p| <= 2
    {
      RingTable(a);
      TwoPeers(a);
    }
  }

  lemma RingTablesOk()
    ensures NT.TablesOk(Ring(), RANGE, {})
  {
    hide Ring, RingPeers, Peers, MakeLinkKey, NT.Near, NT.Distinct, NT.Simple, NT.Within;
    RingTablesSmall();
    var t := Ring();
    forall a, b | b in Peers(t.neighbours, a)
      ensures a in Peers(t.neighbours, b) && NT.Near(t.nodes, a, b, RANGE) && MakeLinkKey(a, b) in t.links
    {
      RingPair(a, b);
    }
    forall k | k in t.links
      ensures k == MakeLinkKey(k.a, k.b) && k.b in Peers(t.neighbours, k.a)
    {
      RingLinkPair(k);
    }
  }

  lemma TwoPeers(a: NodeId)
    ensures NT.Distinct(RingPeers(a)) && a !in RingPeers(a) && |RingPeers(a)| <= 2
  {
  }

  predicate HangsBelow(x: NodeId, p: NodeId) {
    IsName(x) && x != "0" && if x == "8" then p == "0" else Place(x) == Place(p) + 1
  }

  lemma RingChild(p: NodeId, x: NodeId)
    requires IsName(p)
    ensures x in F.Children("0", Ring().nodes, p) <==> HangsBelow(x, p)
  {
    hide Ring, RingAt;
    RingNodes(x);
    NamesAre(p);
  }

  lemma RingChildren(p: NodeId)
    requires IsName(p)
    ensures F.Children("0", Ring().nodes, p) ==
            if p == "0" then {"1", "8"} else if p == "7" || p == "8" then {} else {Name(Place(p) + 1)}
  {
    hide Ring, F.Children;
    var kids := F.Children("0", Ring().nodes, p);
    NamesAre(p);
    forall x
      ensures x in kids <==> HangsBelow(x, p)
      ensures IsName(x) ==> x == Name(Place(x))
    {
      RingChild(p, x);
      NamesAre(x);
    }
    hide Names;
    assert p == "0" ==> HangsBelow("1", p) && HangsBelow("8", p);
    assert p != "0" && p != "7" && p != "8" ==> HangsBelow(Name(Place(p) + 1), p);
  }

  lemma RingTreeOk(c: F.Config)
    requires c.maxChildren >= 2 && c.maxDepth >= 7
    ensures F.TreeOk(c, "0", Ring().nodes)
  {
    hide Ring, F.Children;
    RingNodes("0");
    RingNodes("");
    var nodes := Ring().nodes;
    forall x | x in nodes
      ensures x != "0" && nodes[x].joined ==> F.HangsOk(c, nodes, nodes[x])
      ensures nodes[x].kids == |F.Children("0", nodes, x)| && (nodes[x].kids == 0 || nodes[x].kids <= c.maxChildren)
    {
      RingRadioOk(c, x);
    }
  }

  lemma RingRadioOk(c: F.Config, x: NodeId)
    requires c.maxChildren >= 2 && c.maxDepth >= 7 && x in Ring().nodes
    ensures var nodes := Ring().nodes;
            && (x != "0" && nodes[x].joined ==> F.HangsOk(c, nodes, nodes[x]))
            && nodes[x].kids == |F.Children("0", nodes, x)| && (nodes[x].kids == 0 || nodes[x].kids <= c.maxChildren)
  {
    hide Ring, F.Children;
    RingNodes(x);
    RingNodes(RingNode(Place(x)).parent);
    RingChildren(x);
  }

  /** The ring, with no callback outstanding, is a state like those every run stays in:
      the tables are complete and in order, and the tree is formed. */
  lemma RingIsSound(c: F.Config)
    requires c.maxChildren >= 2 && c.maxDepth >= 7 && c.range == RANGE
    ensures F.Inv(c, F.State(Ring(), 0, multiset{}, {}, true, {}, multiset{}))
  {
    hide NT.TablesOk, F.TreeOk, Ring;
    RingTablesOk();
    RingTreeOk(c);
    RingNodes("0");
  }

  // ----- a route that has faded -----

  /** A coordinator, a relay and a label, all in range of each other. The direct link to
      the label has the quality `direct`, the two over the relay are as good as can be. */
  function Triangle(direct: int): Topology {
    Topology("c",
             map["c" := Node(Coordinator, Point(0.0, 0.0), 1.0, true, true, "", 0, 2),
                 "r" := Node(Router, Point(5.0, 0.0), 1.0, true, true, "c", 1, 0),
                 "e" := Node(EndDevice, Point(5.0, 5.0), 1.0, true, true, "c", 1, 0)],
             map[LinkKey("c", "e") := Link(false, false, direct), LinkKey("c", "r") := Link(false, false, 255),
                 LinkKey("e", "r") := Link(false, false, 255)],
             map["c" := ["r", "e"], "r" := ["c", "e"], "e" := ["r", "c"]])
  }

  lemma TriangleKeys()
    ensures MakeLinkKey("c", "e") == LinkKey("c", "e") == MakeLinkKey("e", "c")
    ensures MakeLinkKey("c", "r") == LinkKey("c", "r") == MakeLinkKey("r", "c")
    ensures MakeLinkKey("r", "e") == LinkKey("e", "r") == MakeLinkKey("e", "r")
  {
  }

  lemma TriangleHops(direct: int)
    requires direct >= 20
    ensures var t := Triangle(direct);
            && Usable(t, "c", "e") && HopCost(t, "c", "e") == LinkCost(direct)
            && Usable(t, "c", "r") && HopCost(t, "c", "r") == 1
            && Usable(t, "r", "e") && HopCost(t, "r", "e") == 1
  {
    hide MakeLinkKey;
    TriangleKeys();
  }

  lemma TrianglePaths(direct: int)
    requires direct >= 20
    ensures var t := Triangle(direct);
            && IsPath(t, ["c", "e"], "e") && PathCost(t, ["c", "e"]) == LinkCost(direct)
            && IsPath(t, ["c", "r", "e"], "e") && PathCost(t, ["c", "r", "e"]) == 2
  {
    hide Usable, HopCost, LinkCost;
    TriangleHops(direct);
    var t := Triangle(direct);
    assert t.coord == "c";
    hide Triangle;
    assert ["c", "e"][..1] == ["c"] && ["c", "r", "e"][..2] == ["c", "r"] && ["c", "r"][..1] == ["c"];
    assert PathCost(t, ["c"]) == 0 && PathCost(t, ["c", "r"]) == 1;
  }

  /** While the direct link is good, every table routes over it; once it has faded, that
      route is no longer the best, and nothing marks it stale. */
  lemma FadedRouteIsNotLeast(maxDepth: int, routes: map<NodeId, seq<NodeId>>)
    requires IsRouteTable(Triangle(255), maxDepth, routes) && maxDepth >= 1
    ensures N.Drifted(Triangle(255), Triangle(100))
    ensures "e" in routes && routes["e"] == ["c", "e"] && IsPath(Triangle(100), routes["e"], "e")
    ensures !IsLeastPath(Triangle(100), routes["e"], "e")
  {
    hide Triangle, Usable, HopCost, PathCost;
    var t := Triangle(255);
    TriangleDrifts();
    TrianglePaths(255);
    TrianglePaths(100);
    if "e" !in routes {
      assert HasLongLeastPath(t, maxDepth, "e");
      var q :| IsLeastPath(t, q, "e") && Hops(q) > maxDepth;
      HopsCost(t, q);
      assert false;
    }
    var p := routes["e"];
    HopsCost(t, p);
    assert |p| == 2 && p == [p[0], p[1]];
  }

  lemma TriangleDrifts()
    ensures N.Drifted(Triangle(255), Triangle(100)) && Triangle(255).coord == "c"
  {
  }

  lemma TriangleTable(direct: int, a: NodeId)
    ensures Peers(Triangle(direct).neighbours, a) ==
            if a == "c" then ["r", "e"] else if a == "r" then ["c", "e"] else if a == "e" then ["r", "c"] else []
  {
  }

  lemma TrianglePeers(direct: int, a: NodeId)
    ensures var p := Peers(Triangle(direct).neighbours, a); NT.Distinct(p) && a !in p && |p| <= 2
  {
    hide Triangle;
    TriangleTable(direct, a);
  }

  lemma TrianglePair(direct: int, a: NodeId, b: NodeId)
    requires b in Peers(Triangle(direct).neighbours, a)
    ensures var t := Triangle(direct);
            a in Peers(t.neighbours, b) && NT.Near(t.nodes, a, b, RANGE) && MakeLinkKey(a, b) in t.links
  {
    TriangleKeys();
    TriangleTable(direct, a);
    TriangleTable(direct, b);
    hide MakeLinkKey, Peers;
  }

  lemma TriangleLink(direct: int, k: LinkKey)
    requires k in Triangle(direct).links
    ensures k == MakeLinkKey(k.a, k.b) && k.b in Peers(Triangle(direct).neighbours, k.a)
  {
    TriangleKeys();
    TriangleTable(direct, k.a);
    hide MakeLinkKey, Peers;
  }

  lemma TriangleTablesOk(direct: int)
    ensures NT.TablesOk(Triangle(direct), RANGE, {})
  {
    hide Triangle, Peers, MakeLinkKey, NT.Near, NT.Distinct;
    var t := Triangle(direct);
    forall a
      ensures NT.Distinct(Peers(t.neighbours, a)) && a !in Peers(t.neighbours, a) && |Peers(t.neighbours, a)| <= 2
    {
      TrianglePeers(direct, a);
    }
    forall a, b | b in Peers(t.neighbours, a)
      ensures a in Peers(t.neighbours, b) && NT.Near(t.nodes, a, b, RANGE) && MakeLinkKey(a, b) in t.links
    {
      TrianglePair(direct, a, b);
    }
    forall k | k in t.links
      ensures k == MakeLinkKey(k.a, k.b) && k.b in Peers(t.neighbours, k.a)
    {
      TriangleLink(direct, k);
    }
  }

  lemma TriangleTreeOk(c: F.Config, direct: int)
    requires c.maxChildren >= 2 && c.maxDepth >= 1
    ensures F.TreeOk(c, "c", Triangle(direct).nodes)
  {
    var nodes := Triangle(direct).nodes;
    assert F.Children("c", nodes, "c") == {"r", "e"};
    assert F.Children("c", nodes, "r") == {} && F.Children("c", nodes, "e") == {};
  }

  /** Before and after the fade, the triangle is a state like those every run stays in. */
  lemma TriangleIsSound(c: F.Config, direct: int)
    requires c.maxChildren >= 2 && c.maxDepth >= 1 && c.range == RANGE
    ensures F.Inv(c, F.State(Triangle(direct), 0, multiset{}, {}, true, {}, multiset{}))
  {
    hide NT.TablesOk, F.TreeOk;
    TriangleTablesOk(direct);
    TriangleTreeOk(c, direct);
  }
}
