/** The radio zone as values: nodes, links, neighbour tables, and what a
    downstream path over them is and costs. */
module MeshModel {
  import opened Ordering

  /** A radio's name; "" stands for "no node", as in the source. */
  type NodeId = string

  datatype Kind = Coordinator | Router | EndDevice

  /** A position on the shop floor in metres. */
  datatype Point = Point(x: real, y: real)

  datatype Node = Node(kind: Kind, pos: Point, battery: real, alive: bool,
                       joined: bool, parent: NodeId, depth: int, kids: int)

  /** An unordered pair of nodes, smaller name first. */
  datatype LinkKey = LinkKey(a: NodeId, b: NodeId)

  function MakeLinkKey(a: NodeId, b: NodeId): LinkKey {
    if Less(b, a) then LinkKey(b, a) else LinkKey(a, b)
  }

  /** `lqi` is the link quality the pair measures at the instant of the operation. */
  datatype Link = Link(cut: bool, avoided: bool, lqi: int)

  datatype Topology = Topology(coord: NodeId,
                               nodes: map<NodeId, Node>,
                               links: map<LinkKey, Link>,
                               neighbours: map<NodeId, seq<NodeId>>)

  /** A node with no table entry has an empty neighbour table. */
  function Peers(neighbours: map<NodeId, seq<NodeId>>, id: NodeId): seq<NodeId> {
    if id in neighbours then neighbours[id] else []
  }

  const AVOID_PENALTY := 64
  const LOW_BATTERY_PENALTY := 2
  const MAX_LINK_COST := 7

  /** The Zigbee cost of a link, as the steps at which the rounded reciprocal of
      the fourth power of the delivery probability changes. */
  function LinkCost(lqi: int): (c: int)
    ensures 1 <= c <= MAX_LINK_COST
  {
    if lqi < 160 then 7
    else if lqi < 167 then 6
    else if lqi < 176 then 5
    else if lqi < 187 then 4
    else if lqi < 203 then 3
    else if lqi < 231 then 2
    else 1
  }

  /** May a frame go from `u` straight to `v`? */
  predicate Usable(t: Topology, u: NodeId, v: NodeId) {
    && u in t.nodes
    && (u == t.coord || t.nodes[u].kind != EndDevice)
    && v in Peers(t.neighbours, u)
    && v in t.nodes && t.nodes[v].alive
    && (v == t.coord || t.nodes[v].joined)
    && var key := MakeLinkKey(u, v);
    && key in t.links && !t.links[key].cut && t.links[key].lqi >= 20
  }

  predicate Avoided(t: Topology, u: NodeId, v: NodeId) {
    MakeLinkKey(u, v) in t.links && t.links[MakeLinkKey(u, v)].avoided
  }

  function HopCost(t: Topology, u: NodeId, v: NodeId): (c: int)
    requires Usable(t, u, v)
    ensures 1 <= c
    ensures Avoided(t, u, v) ==> AVOID_PENALTY + 1 <= c
    ensures !Avoided(t, u, v) ==> c <= MAX_LINK_COST + LOW_BATTERY_PENALTY
  {
    var link := t.links[MakeLinkKey(u, v)];
    LinkCost(link.lqi)
    + (if link.avoided then AVOID_PENALTY else 0)
    + (if t.nodes[v].kind == Router && t.nodes[v].battery < 0.2 then LOW_BATTERY_PENALTY else 0)
  }

  /** `p` leads from the coordinator to `v`, every hop usable. */
  predicate IsPath(t: Topology, p: seq<NodeId>, v: NodeId) {
    && |p| >= 1 && p[0] == t.coord && p[|p| - 1] == v
    && forall i :: 0 <= i < |p| - 1 ==> Usable(t, p[i], p[i + 1])
  }

  function PathCost(t: Topology, p: seq<NodeId>): (c: int)
    requires forall i :: 0 <= i < |p| - 1 ==> Usable(t, p[i], p[i + 1])
    ensures c >= 0
  {
    if |p| <= 1 then 0
    else PathCost(t, p[..|p| - 1]) + HopCost(t, p[|p| - 2], p[|p| - 1])
  }

  function Hops(p: seq<NodeId>): int { |p| - 1 }

  /** `p` is a path to `v` that no other path to `v` undercuts. */
  ghost predicate IsLeastPath(t: Topology, p: seq<NodeId>, v: NodeId) {
    && IsPath(t, p, v)
    && forall q :: IsPath(t, q, v) ==> PathCost(t, p) <= PathCost(t, q)
  }

  // ----- the link-cost steps are the Zigbee formula -----

  function Fourth(x: int): int { x * x * x * x }

  /** Round half up of 1/p^4 with p = lqi/255, clamped to 1..7: the formula itself. */
  function ZigbeeFormula(lqi: int): int {
    if lqi <= 0 then 7
    else
      FourthPositive(lqi);
      var c := (Fourth(255) as real / Fourth(lqi) as real + 0.5).Floor;
      if c < 1 then 1 else if c > 7 then 7 else c
  }

  lemma FourthPositive(x: int)
    requires x > 0
    ensures Fourth(x) > 0
  {
    assert x * x > 0;
    assert x * x * x > 0;
  }

  lemma ProductMonotone(a: int, b: int, c: int, d: int)
    requires 0 < a <= b && 0 < c <= d
    ensures 0 < a * c <= b * d
  {
    assert 0 < a * c <= b * c;
    assert b * c <= b * d;
  }

  lemma FourthMonotone(x: int, y: int)
    requires 0 < x <= y
    ensures 0 < Fourth(x) <= Fourth(y)
  {
    ProductMonotone(x, y, x, y);
    ProductMonotone(x * x, y * y, x, y);
    ProductMonotone(x * x * x, y * y * y, x, y);
  }

  lemma QuotientBounds(n: int, d: int, lo: int, hi: int)
    requires d > 0
    requires (2 * lo - 1) * d <= 2 * n < (2 * hi + 1) * d
    ensures lo <= (n as real / d as real + 0.5).Floor <= hi
  {
    var q := n as real / d as real;
    assert q * d as real == n as real;
    assert (2 * lo - 1) as real * d as real <= 2.0 * q * d as real;
    assert 2.0 * q * d as real < (2 * hi + 1) as real * d as real;
    assert (2 * lo - 1) as real <= 2.0 * q < (2 * hi + 1) as real;
  }

  lemma QuotientAtLeast(n: int, d: int, lo: int)
    requires d > 0 && (2 * lo - 1) * d <= 2 * n
    ensures lo <= (n as real / d as real + 0.5).Floor
  {
    var q := n as real / d as real;
    assert q * d as real == n as real;
    assert (2 * lo - 1) as real * d as real <= 2.0 * q * d as real;
    assert (2 * lo - 1) as real <= 2.0 * q;
  }

  /** The step table is the specification's rounded, clamped formula at every LQI. */
  lemma LinkCostIsZigbee(lqi: int)
    ensures LinkCost(lqi) == ZigbeeFormula(lqi)
  {
    if lqi > 0 {
      FourthPositive(lqi);
      if lqi < 160 {
        FourthMonotone(lqi, 159);
        QuotientAtLeast(Fourth(255), Fourth(lqi), 7);
      } else if lqi < 167 {
        FourthMonotone(160, lqi); FourthMonotone(lqi, 166);
        QuotientBounds(Fourth(255), Fourth(lqi), 6, 6);
      } else if lqi < 176 {
        FourthMonotone(167, lqi); FourthMonotone(lqi, 175);
        QuotientBounds(Fourth(255), Fourth(lqi), 5, 5);
      } else if lqi < 187 {
        FourthMonotone(176, lqi); FourthMonotone(lqi, 186);
        QuotientBounds(Fourth(255), Fourth(lqi), 4, 4);
      } else if lqi < 203 {
        FourthMonotone(187, lqi); FourthMonotone(lqi, 202);
        QuotientBounds(Fourth(255), Fourth(lqi), 3, 3);
      } else if lqi < 231 {
        FourthMonotone(203, lqi); FourthMonotone(lqi, 230);
        QuotientBounds(Fourth(255), Fourth(lqi), 2, 2);
      } else {
        FourthMonotone(231, lqi);
        QuotientBounds(Fourth(255), Fourth(lqi), 0, 1);
      }
    }
  }
}
