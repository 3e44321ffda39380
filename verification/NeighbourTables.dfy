/** Neighbour tables: who hears whom, kept symmetric and within each role's capacity
    while a new radio is introduced to its peers one at a time. */
module NeighbourTables {
  import opened Ordering
  import opened MeshModel

  function Capacity(k: Kind): nat {
    match k
    case Coordinator => 1024
    case Router => 64
    case EndDevice => 24
  }

  function Dist2(p: Point, q: Point): real {
    (p.x - q.x) * (p.x - q.x) + (p.y - q.y) * (p.y - q.y)
  }

  /** Is the distance at most `range`? */
  predicate InRange(p: Point, q: Point, range: real) { range >= 0.0 && Dist2(p, q) <= range * range }

  // ----- the order in which peers are preferred -----

  /** Peers of the radio at `at`: by role first if `byRole`, then nearest first, then by name. */
  datatype Preference = Preference(nodes: map<NodeId, Node>, at: Point, byRole: bool)

  function Rank(o: Preference, x: NodeId): int {
    if !o.byRole || x !in o.nodes then 2
    else match o.nodes[x].kind case Coordinator => 0 case Router => 1 case EndDevice => 2
  }

  function Away(o: Preference, x: NodeId): real {
    if x in o.nodes then Dist2(o.at, o.nodes[x].pos) else 0.0
  }

  predicate Before(o: Preference, x: NodeId, y: NodeId) {
    if Rank(o, x) != Rank(o, y) then Rank(o, x) < Rank(o, y)
    else if Away(o, x) != Away(o, y) then Away(o, x) < Away(o, y)
    else Less(x, y)
  }

  lemma BeforeIsTotal(o: Preference, x: NodeId, y: NodeId)
    ensures Before(o, x, y) || x == y || Before(o, y, x)
    ensures !(Before(o, x, y) && Before(o, y, x)) && !Before(o, x, x)
  {
    LessTotal(x, y);
    LessIrreflexive(x);
  }

  lemma BeforeTransitive(o: Preference, x: NodeId, y: NodeId, z: NodeId)
    requires Before(o, x, y) && Before(o, y, z)
    ensures Before(o, x, z)
  {
    hide Rank, Away;
    if Less(x, y) && Less(y, z) { LessTransitive(x, y, z); }
  }

  ghost predicate Ascending(o: Preference, s: seq<NodeId>) {
    forall i, j :: 0 <= i < j < |s| ==> Before(o, s[i], s[j])
  }

  function Elements(s: seq<NodeId>): set<NodeId> { set x | x in s }

  ghost predicate Distinct(s: seq<NodeId>) {
    forall i, j :: 0 <= i < j < |s| ==> s[i] != s[j]
  }

  /** Sorting has one answer: two ascending lists of the same peers are equal. */
  lemma {:induction false} AscendingUnique(o: Preference, s: seq<NodeId>, t: seq<NodeId>)
    requires Ascending(o, s) && Ascending(o, t) && Elements(s) == Elements(t)
    ensures s == t
  {
    assert |t| > 0 ==> t[0] in Elements(t);
    if |s| > 0 {
      assert s[0] in Elements(s);
      var j :| 0 <= j < |t| && t[j] == s[0];
      assert t[0] in Elements(t);
      var i :| 0 <= i < |s| && s[i] == t[0];
      BeforeIsTotal(o, s[0], t[0]);
      assert s[0] == t[0];
      TailElements(o, s);
      TailElements(o, t);
      AscendingUnique(o, s[1..], t[1..]);
      assert s == [s[0]] + s[1..] && t == [t[0]] + t[1..];
    }
  }

  lemma TailElements(o: Preference, s: seq<NodeId>)
    requires Ascending(o, s) && |s| > 0
    ensures Ascending(o, s[1..]) && Elements(s[1..]) == Elements(s) - {s[0]}
  {
    BeforeIsTotal(o, s[0], s[0]);
    forall x | x in Elements(s) - {s[0]}
      ensures x in s[1..]
    {
      var i :| 0 <= i < |s| && s[i] == x;
      assert s[1..][i - 1] == x;
    }
    forall x | x in s[1..]
      ensures x in s && x != s[0]
    {
      var i :| 0 <= i < |s| - 1 && s[1..][i] == x;
      assert s[i + 1] == x && Before(o, s[0], s[i + 1]);
    }
  }

  /** Where `x` belongs in an ascending list. */
  function Place(o: Preference, s: seq<NodeId>, x: NodeId): (k: nat)
    ensures k <= |s|
    ensures forall i :: 0 <= i < k ==> !Before(o, x, s[i])
    ensures k < |s| ==> Before(o, x, s[k])
  {
    if |s| == 0 || Before(o, x, s[0]) then 0 else 1 + Place(o, s[1..], x)
  }

  /** Insertion sort of a list of distinct peers. */
  function Sorted(o: Preference, s: seq<NodeId>): (r: seq<NodeId>)
    ensures |r| == |s|
  {
    if |s| == 0 then []
    else
      var r := Sorted(o, s[..|s| - 1]);
      var k := Place(o, r, s[|s| - 1]);
      r[..k] + [s[|s| - 1]] + r[k..]
  }

  lemma InsertAscending(o: Preference, r: seq<NodeId>, x: NodeId)
    requires Ascending(o, r) && x !in r
    ensures var k := Place(o, r, x); Ascending(o, r[..k] + [x] + r[k..])
  {
    var k := Place(o, r, x);
    var t := r[..k] + [x] + r[k..];
    forall i | 0 <= i < |r|
      ensures (i < k ==> Before(o, r[i], x)) && (i >= k ==> Before(o, x, r[i]))
    {
      BeforeIsTotal(o, x, r[i]);
      if i > k { BeforeTransitive(o, x, r[k], r[i]); }
    }
    forall i, j | 0 <= i < j < |t|
      ensures Before(o, t[i], t[j])
    {
      assert t[i] == if i < k then r[i] else if i == k then x else r[i - 1];
      assert t[j] == if j < k then r[j] else if j == k then x else r[j - 1];
    }
  }

  /** Sorting rearranges, and leaves the preferred first. */
  lemma {:induction false} SortedAscending(o: Preference, s: seq<NodeId>)
    requires Distinct(s)
    ensures Ascending(o, Sorted(o, s)) && Elements(Sorted(o, s)) == Elements(s)
  {
    if |s| > 0 {
      var init, x := s[..|s| - 1], s[|s| - 1];
      SortedAscending(o, init);
      var r := Sorted(o, init);
      assert s == init + [x] && x !in init;
      InsertElements(init, x, |init|);
      InsertElements(r, x, Place(o, r, x));
      assert init[..|init|] + [x] + init[|init|..] == s;
      assert x !in Elements(init);
      InsertAscending(o, r, x);
    }
  }

  lemma InsertElements(r: seq<NodeId>, x: NodeId, k: nat)
    requires k <= |r|
    ensures Elements(r[..k] + [x] + r[k..]) == Elements(r) + {x}
  {
    assert r == r[..k] + r[k..];
  }

  // ----- the steps -----

  /** The list without the first `x` in it. */
  function Without(s: seq<NodeId>, x: NodeId): seq<NodeId> {
    if |s| == 0 then [] else if s[0] == x then s[1..] else [s[0]] + Without(s[1..], x)
  }

  /** The pair's link goes, and `id` leaves `peer`'s table. */
  function Forget(t: Topology, id: NodeId, peer: NodeId): Topology {
    t.(links := t.links - {MakeLinkKey(id, peer)},
       neighbours := if id in Peers(t.neighbours, peer)
                     then t.neighbours[peer := Without(Peers(t.neighbours, peer), id)] else t.neighbours)
  }

  function ForgetAll(t: Topology, id: NodeId, evicted: seq<NodeId>): (r: Topology)
    ensures r.nodes == t.nodes && r.coord == t.coord
    decreases |evicted|
  {
    if |evicted| == 0 then t else ForgetAll(Forget(t, id, evicted[0]), id, evicted[1..])
  }

  /** Cuts the table of `id` to its capacity, keeping the preferred peers. */
  function Trimmed(t: Topology, id: NodeId): (r: Topology)
    requires id in t.nodes
    ensures r.nodes == t.nodes && r.coord == t.coord
  {
    var list, capacity := Peers(t.neighbours, id), Capacity(t.nodes[id].kind);
    if |list| <= capacity then t
    else
      var s := Sorted(Preference(t.nodes, t.nodes[id].pos, true), list);
      ForgetAll(t.(neighbours := t.neighbours[id := s[..capacity]]), id, s[capacity..])
  }

  /** The pair enter each other's tables. */
  function Met(t: Topology, id: NodeId, peer: NodeId, lqi: int): Topology {
    var mine := t.neighbours[id := Peers(t.neighbours, id) + [peer]];
    t.(neighbours := mine[peer := Peers(mine, peer) + [id]],
       links := t.links[MakeLinkKey(id, peer) := Link(false, false, lqi)])
  }

  /** The new radio meets its candidates in turn, and each cuts its own table at once. */
  function MetAll(t: Topology, id: NodeId, candidates: seq<NodeId>, lqi: NodeId -> int): (r: Topology)
    requires forall x :: x in candidates ==> x in t.nodes
    ensures r.nodes == t.nodes && r.coord == t.coord
    decreases |candidates|
  {
    if |candidates| == 0 then t
    else
      var met := Met(t, id, candidates[0], lqi(candidates[0]));
      MetAll(Trimmed(met, candidates[0]), id, candidates[1..], lqi)
  }

  datatype NodeSpec = NodeSpec(id: NodeId, kind: Kind, pos: Point, battery: real)

  datatype Added = Added | EmptyName | AlreadyPresent | SecondCoordinator

  /** The radios a new one can hear. */
  function Audible(nodes: map<NodeId, Node>, spec: NodeSpec, range: real): set<NodeId> {
    set x | x in nodes && x != spec.id && InRange(nodes[x].pos, spec.pos, range)
  }

  /** Some listing of a set. */
  ghost function Listed(s: set<NodeId>): (r: seq<NodeId>)
    ensures Distinct(r) && Elements(r) == s
  {
    if s == {} then []
    else
      var x :| x in s;
      var r := Listed(s - {x});
      assert Elements([x] + r) == {x} + Elements(r);
      assert forall i :: 0 <= i < |r| ==> r[i] in Elements(r);
      [x] + r
  }

  ghost function Candidates(nodes: map<NodeId, Node>, spec: NodeSpec, range: real): (r: seq<NodeId>)
    ensures forall x :: x in r ==> x in Audible(nodes, spec, range)
  {
    var o, list := Preference(nodes, spec.pos, false), Listed(Audible(nodes, spec, range));
    SortedAscending(o, list);
    assert forall x :: x in Sorted(o, list) ==> x in Elements(Sorted(o, list));
    Sorted(o, list)
  }

  function Fresh(spec: NodeSpec, root: bool): Node {
    Node(spec.kind, spec.pos, if spec.battery <= 0.0 then 1.0 else spec.battery, true, root, "", 0, 0)
  }

  /** Registers a radio. A second coordinator is refused, yet stays registered: its table
      is empty until a later radio in range meets it like any other. */
  ghost function Add(t: Topology, range: real, spec: NodeSpec, lqi: NodeId -> int): (Topology, Added) {
    if spec.id == "" then (t, EmptyName)
    else if spec.id in t.nodes then (t, AlreadyPresent)
    else if spec.kind == Coordinator && t.coord != "" then
      (t.(nodes := t.nodes[spec.id := Fresh(spec, false)]), SecondCoordinator)
    else
      var root := spec.kind == Coordinator;
      var u := t.(nodes := t.nodes[spec.id := Fresh(spec, root)], coord := if root then spec.id else t.coord);
      (Trimmed(MetAll(u, spec.id, Candidates(u.nodes, spec, range), lqi), spec.id), Added.Added)
  }

  lemma CandidatesAre(nodes: map<NodeId, Node>, spec: NodeSpec, range: real)
    ensures var c := Candidates(nodes, spec, range);
            && Ascending(Preference(nodes, spec.pos, false), c) && Elements(c) == Audible(nodes, spec, range)
            && Distinct(c)
  {
    var o, c := Preference(nodes, spec.pos, false), Candidates(nodes, spec, range);
    SortedAscending(o, Listed(Audible(nodes, spec, range)));
    SliceDistinct(o, c, 0);
  }

  // ----- the invariants -----

  ghost predicate Simple(neighbours: map<NodeId, seq<NodeId>>) {
    forall a :: Distinct(Peers(neighbours, a)) && a !in Peers(neighbours, a)
  }

  ghost predicate Symmetric(neighbours: map<NodeId, seq<NodeId>>) {
    forall a, b :: b in Peers(neighbours, a) ==> a in Peers(neighbours, b)
  }

  /** The links are exactly those of the neighbour pairs. */
  ghost predicate LinksMatch(links: map<LinkKey, Link>, neighbours: map<NodeId, seq<NodeId>>) {
    && (forall k :: k in links ==> k == MakeLinkKey(k.a, k.b) && k.b in Peers(neighbours, k.a))
    && (forall a, b :: b in Peers(neighbours, a) ==> MakeLinkKey(a, b) in links)
  }

  ghost predicate Known(nodes: map<NodeId, Node>, neighbours: map<NodeId, seq<NodeId>>, range: real) {
    forall a, b :: b in Peers(neighbours, a) ==> Near(nodes, a, b, range)
  }

  predicate Near(nodes: map<NodeId, Node>, a: NodeId, b: NodeId, range: real) {
    a in nodes && b in nodes && InRange(nodes[a].pos, nodes[b].pos, range)
  }

  /** Every table is within its role's capacity, save those in `loose`. */
  ghost predicate Within(nodes: map<NodeId, Node>, neighbours: map<NodeId, seq<NodeId>>, loose: set<NodeId>) {
    forall a :: a in nodes && a !in loose ==> |Peers(neighbours, a)| <= Capacity(nodes[a].kind)
  }

  ghost predicate TablesOk(t: Topology, range: real, loose: set<NodeId>) {
    && Simple(t.neighbours)
    && Symmetric(t.neighbours)
    && LinksMatch(t.links, t.neighbours)
    && Known(t.nodes, t.neighbours, range)
    && Within(t.nodes, t.neighbours, loose)
  }

  // ----- what the steps do -----

  lemma KeySymmetric(a: NodeId, b: NodeId)
    ensures MakeLinkKey(a, b) == MakeLinkKey(b, a)
  {
    LessTotal(a, b);
  }

  lemma {:induction false} WithoutExact(s: seq<NodeId>, x: NodeId)
    requires Distinct(s)
    ensures Distinct(Without(s, x)) && Elements(Without(s, x)) == Elements(s) - {x} && |Without(s, x)| <= |s|
  {
    if |s| > 0 {
      assert s == [s[0]] + s[1..] && Elements(s) == {s[0]} + Elements(s[1..]);
      assert s[0] !in s[1..];
      WithoutExact(s[1..], x);
      var w := Without(s[1..], x);
      assert Elements([s[0]] + w) == {s[0]} + Elements(w);
      assert s[0] !in Elements(w);
    }
  }

  /** Evicting a list of peers rewrites exactly their tables and drops exactly their links. */
  lemma {:induction false} ForgetAllExact(t: Topology, id: NodeId, evicted: seq<NodeId>)
    requires Distinct(evicted) && id !in evicted && forall p :: p in evicted ==> id in Peers(t.neighbours, p)
    ensures var r := ForgetAll(t, id, evicted);
            && (forall p ::
                  Peers(r.neighbours, p) ==
                  if p in evicted then Without(Peers(t.neighbours, p), id) else Peers(t.neighbours, p))
            && r.links.Keys == t.links.Keys - set p | p in evicted :: MakeLinkKey(id, p)
    decreases |evicted|
  {
    if |evicted| > 0 {
      var x, rest := evicted[0], evicted[1..];
      assert evicted == [x] + rest && x !in rest;
      var u := Forget(t, id, x);
      assert forall p ::
          Peers(u.neighbours, p) ==
          if p == x then Without(Peers(t.neighbours, p), id) else Peers(t.neighbours, p);
      ForgetAllExact(u, id, rest);
    }
  }

  /** Are `a` and `b` the node `id` and one of the peers in `gone`? */
  predicate Cut(id: NodeId, gone: set<NodeId>, a: NodeId, b: NodeId) {
    (a == id && b in gone) || (b == id && a in gone)
  }

  /** Tables only shrink, and lose exactly the pairs of `id` and a peer in `gone`. */
  ghost predicate PartedTables(before: map<NodeId, seq<NodeId>>, after: map<NodeId, seq<NodeId>>, id: NodeId,
                               gone: set<NodeId>) {
    && (forall p :: Distinct(Peers(after, p)) && |Peers(after, p)| <= |Peers(before, p)|)
    && (forall a, b :: b in Peers(after, a) <==> b in Peers(before, a) && !Cut(id, gone, a, b))
  }

  ghost predicate PartedLinks(before: map<LinkKey, Link>, after: map<LinkKey, Link>, id: NodeId, gone: set<NodeId>) {
    forall k :: k in after <==> k in before && !Cut(id, gone, k.a, k.b)
  }

  lemma SliceDistinct(o: Preference, s: seq<NodeId>, n: nat)
    requires Ascending(o, s) && n <= |s|
    ensures Distinct(s) && Distinct(s[..n]) && Distinct(s[n..])
    ensures Elements(s[..n]) == Elements(s) - Elements(s[n..]) && Elements(s[n..]) <= Elements(s)
    ensures forall x, y :: x in s[..n] && y in s[n..] ==> Before(o, x, y)
  {
    forall i, j | 0 <= i < j < |s|
      ensures s[i] != s[j]
    {
      BeforeIsTotal(o, s[i], s[j]);
    }
    assert s == s[..n] + s[n..];
    forall x | x in s[..n]
      ensures x !in s[n..]
    {
    }
  }

  /** Sorted, a table's first `n` peers are kept and the rest listed apart. */
  lemma Ranked(neighbours: map<NodeId, seq<NodeId>>, o: Preference, id: NodeId, n: nat)
    requires Simple(neighbours) && Symmetric(neighbours) && n <= |Peers(neighbours, id)|
    ensures var s := Sorted(o, Peers(neighbours, id));
            && Distinct(s[..n]) && Distinct(s[n..]) && Elements(s[..n]) == Elements(s) - Elements(s[n..])
            && Elements(s) == Elements(Peers(neighbours, id))
            && (forall x, y :: x in s[..n] && y in s[n..] ==> Before(o, x, y))
            && id !in s[n..] && forall p :: p in s[n..] ==> id in Peers(neighbours, p)
  {
    hide Before;
    var list := Peers(neighbours, id);
    SortedAscending(o, list);
    var s := Sorted(o, list);
    SliceDistinct(o, s, n);
    assert forall p :: p in s[n..] ==> p in Elements(s[n..]) && p in Elements(list);
  }

  /** Trimming keeps the capacity's worth of most preferred peers and parts from the
      rest, which part from it. */
  lemma TrimExact(t: Topology, id: NodeId, range: real, loose: set<NodeId>) returns (gone: set<NodeId>)
    requires id in t.nodes && TablesOk(t, range, loose)
    ensures var r, o := Trimmed(t, id), Preference(t.nodes, t.nodes[id].pos, true);
            var list, capacity := Peers(t.neighbours, id), Capacity(t.nodes[id].kind);
            && PartedTables(t.neighbours, r.neighbours, id, gone) && PartedLinks(t.links, r.links, id, gone)
            && |Peers(r.neighbours, id)| == (if |list| <= capacity then |list| else capacity)
            && forall x, y :: x in Peers(r.neighbours, id) && y in gone ==> Before(o, x, y)
  {
    hide Known, Within, Before, Simple, Symmetric, Distinct, PartedTables, PartedLinks, Capacity, LinksMatch;
    var list, capacity := Peers(t.neighbours, id), Capacity(t.nodes[id].kind);
    var o := Preference(t.nodes, t.nodes[id].pos, true);
    if |list| <= capacity {
      gone := {};
      NobodyParts(t, id);
    } else {
      Ranked(t.neighbours, o, id, capacity);
      var s := Sorted(o, list);
      gone := Elements(s[capacity..]);
      var u := t.(neighbours := t.neighbours[id := s[..capacity]]);
      ForgetAllExact(u, id, s[capacity..]);
      ForgottenTables(t.neighbours, id, s, capacity, ForgetAll(u, id, s[capacity..]).neighbours);
      ForgottenLinks(t.links, id, s[capacity..], t.neighbours, ForgetAll(u, id, s[capacity..]).links);
    }
  }

  lemma NobodyParts(t: Topology, id: NodeId)
    requires Simple(t.neighbours)
    ensures PartedTables(t.neighbours, t.neighbours, id, {}) && PartedLinks(t.links, t.links, id, {})
  {
  }

  lemma ForgottenTables(before: map<NodeId, seq<NodeId>>, id: NodeId, s: seq<NodeId>, n: nat,
                        after: map<NodeId, seq<NodeId>>)
    requires Simple(before) && Symmetric(before) && n <= |s| && Elements(s) == Elements(Peers(before, id))
             && n <= |Peers(before, id)|
    requires Distinct(s[..n]) && Elements(s[..n]) == Elements(s) - Elements(s[n..])
    requires forall p :: Peers(after, p) ==
               if p == id then s[..n] else if p in s[n..] then Without(Peers(before, p), id) else Peers(before, p)
    ensures PartedTables(before, after, id, Elements(s[n..]))
  {
    var gone := Elements(s[n..]);
    forall p
      ensures Distinct(Peers(after, p)) && |Peers(after, p)| <= |Peers(before, p)|
      ensures Elements(Peers(after, p)) ==
              Elements(Peers(before, p)) - if p == id then gone else if p in gone then {id} else {}
    {
      WithoutExact(Peers(before, p), id);
    }
    hide Distinct, Symmetric;
    forall a, b
      ensures b in Peers(after, a) <==> b in Peers(before, a) && !Cut(id, gone, a, b)
    {
      assert b in Elements(Peers(after, a)) <==> b in Peers(after, a);
    }
  }

  lemma ForgottenLinks(before: map<LinkKey, Link>, id: NodeId, evicted: seq<NodeId>,
                       neighbours: map<NodeId, seq<NodeId>>, after: map<LinkKey, Link>)
    requires LinksMatch(before, neighbours)
    requires after.Keys == before.Keys - set p | p in evicted :: MakeLinkKey(id, p)
    ensures PartedLinks(before, after, id, Elements(evicted))
  {
    var gone := Elements(evicted);
    forall k | k in before
      ensures k in after <==> !Cut(id, gone, k.a, k.b)
    {
      KeySymmetric(k.a, k.b);
    }
  }

  lemma PartingKeepsTables(t: Topology, r: Topology, id: NodeId, gone: set<NodeId>, loose: set<NodeId>)
    requires r.nodes == t.nodes && PartedTables(t.neighbours, r.neighbours, id, gone)
    requires Simple(t.neighbours) && Symmetric(t.neighbours) && Within(t.nodes, t.neighbours, loose)
    ensures Simple(r.neighbours) && Symmetric(r.neighbours) && Within(r.nodes, r.neighbours, loose)
  {
    hide Distinct, Peers, Capacity;
  }

  lemma PartingKeepsKnown(t: Topology, r: Topology, id: NodeId, gone: set<NodeId>, range: real)
    requires r.nodes == t.nodes && PartedTables(t.neighbours, r.neighbours, id, gone)
             && Known(t.nodes, t.neighbours, range)
    ensures Known(r.nodes, r.neighbours, range)
  {
    hide Distinct, Peers;
    forall a, b | b in Peers(r.neighbours, a)
      ensures Near(r.nodes, a, b, range)
    {
      assert b in Peers(t.neighbours, a);
    }
  }

  lemma PartingKeepsLinks(t: Topology, r: Topology, id: NodeId, gone: set<NodeId>)
    requires PartedTables(t.neighbours, r.neighbours, id, gone) && PartedLinks(t.links, r.links, id, gone)
    requires LinksMatch(t.links, t.neighbours)
    ensures LinksMatch(r.links, r.neighbours)
  {
    hide Distinct, Peers, Less;
  }

  lemma PartingKeeps(t: Topology, r: Topology, id: NodeId, gone: set<NodeId>, range: real, loose: set<NodeId>)
    requires r.nodes == t.nodes && PartedTables(t.neighbours, r.neighbours, id, gone)
             && PartedLinks(t.links, r.links, id, gone)
    requires TablesOk(t, range, loose)
    ensures TablesOk(r, range, loose)
  {
    hide PartedTables, PartedLinks, Simple, Symmetric, LinksMatch, Known, Within;
    PartingKeepsTables(t, r, id, gone, loose);
    PartingKeepsKnown(t, r, id, gone, range);
    PartingKeepsLinks(t, r, id, gone);
  }

  lemma TrimKeeps(t: Topology, id: NodeId, range: real, loose: set<NodeId>)
    requires id in t.nodes && TablesOk(t, range, loose)
    ensures TablesOk(Trimmed(t, id), range, loose - {id})
    ensures forall a, b :: b in Peers(Trimmed(t, id).neighbours, a) ==> b in Peers(t.neighbours, a)
  {
    hide Simple, Symmetric, LinksMatch, Known, Trimmed, PartedLinks, Distinct, Capacity, Before, Peers;
    var gone := TrimExact(t, id, range, loose);
    PartingKeeps(t, Trimmed(t, id), id, gone, range, loose);
  }

  /** Do `a` and `b` make up the pair? */
  predicate Pair(id: NodeId, peer: NodeId, a: NodeId, b: NodeId) { (a == id && b == peer) || (a == peer && b == id) }

  lemma MetPeers(t: Topology, id: NodeId, peer: NodeId, lqi: int)
    requires id != peer
    ensures forall a :: Peers(Met(t, id, peer, lqi).neighbours, a) ==
                        Peers(t.neighbours, a) + (if a == id then [peer] else if a == peer then [id] else [])
    ensures forall a, b ::
              b in Peers(Met(t, id, peer, lqi).neighbours, a) <==>
              b in Peers(t.neighbours, a) || Pair(id, peer, a, b)
  {
  }

  lemma MetTables(t: Topology, id: NodeId, peer: NodeId, lqi: int)
    requires Simple(t.neighbours) && Symmetric(t.neighbours) && id != peer && peer !in Peers(t.neighbours, id)
    ensures Simple(Met(t, id, peer, lqi).neighbours) && Symmetric(Met(t, id, peer, lqi).neighbours)
  {
    hide Peers, Met;
    MetPeers(t, id, peer, lqi);
    var r := Met(t, id, peer, lqi);
    assert id !in Peers(t.neighbours, peer);
    forall a
      ensures Distinct(Peers(r.neighbours, a)) && a !in Peers(r.neighbours, a)
    {
      assert Distinct(Peers(t.neighbours, a));
    }
    hide Distinct;
    assert Symmetric(r.neighbours);
  }

  lemma MetLinks(t: Topology, id: NodeId, peer: NodeId, lqi: int)
    requires id != peer && LinksMatch(t.links, t.neighbours)
    ensures LinksMatch(Met(t, id, peer, lqi).links, Met(t, id, peer, lqi).neighbours)
  {
    hide Peers, Less;
    MetPeers(t, id, peer, lqi);
    KeySymmetric(id, peer);
    var r, key := Met(t, id, peer, lqi), MakeLinkKey(id, peer);
    assert r.links.Keys == t.links.Keys + {key} && Pair(id, peer, key.a, key.b);
    assert key == MakeLinkKey(key.a, key.b);
    hide Met;
    forall k | k in r.links
      ensures k == MakeLinkKey(k.a, k.b) && k.b in Peers(r.neighbours, k.a)
    {
      assert k in t.links || k == key;
    }
    forall a, b | b in Peers(r.neighbours, a)
      ensures MakeLinkKey(a, b) in r.links
    {
      assert b in Peers(t.neighbours, a) || MakeLinkKey(a, b) == key;
    }
  }

  lemma InRangeSymmetric(p: Point, q: Point, range: real)
    ensures InRange(p, q, range) == InRange(q, p, range)
  {
    assert Dist2(p, q) == Dist2(q, p);
  }

  lemma MetKnown(t: Topology, id: NodeId, peer: NodeId, lqi: int, range: real)
    requires Known(t.nodes, t.neighbours, range) && Within(t.nodes, t.neighbours, {id})
    requires id in t.nodes && peer in t.nodes && id != peer && InRange(t.nodes[peer].pos, t.nodes[id].pos, range)
    ensures var r := Met(t, id, peer, lqi);
            Known(r.nodes, r.neighbours, range) && Within(r.nodes, r.neighbours, {id, peer})
  {
    hide Peers, Capacity;
    MetPeers(t, id, peer, lqi);
    InRangeSymmetric(t.nodes[peer].pos, t.nodes[id].pos, range);
    var r := Met(t, id, peer, lqi);
    assert r.nodes == t.nodes;
    hide Met;
    forall a, b | b in Peers(r.neighbours, a)
      ensures Near(r.nodes, a, b, range)
    {
      assert b in Peers(t.neighbours, a) || Pair(id, peer, a, b);
    }
  }

  lemma MetKeeps(t: Topology, id: NodeId, peer: NodeId, lqi: int, range: real)
    requires TablesOk(t, range, {id}) && id in t.nodes && peer in t.nodes && id != peer
             && peer !in Peers(t.neighbours, id)
    requires InRange(t.nodes[peer].pos, t.nodes[id].pos, range)
    ensures TablesOk(Met(t, id, peer, lqi), range, {id, peer})
  {
    hide Simple, Symmetric, LinksMatch, Known, Within, Met;
    MetTables(t, id, peer, lqi);
    MetLinks(t, id, peer, lqi);
    MetKnown(t, id, peer, lqi, range);
  }

  /** Meeting every candidate in turn keeps all tables in order, though each meeting
      may cut a table and so rewrite others; only the new radio's is cut last. */
  lemma {:induction false} MetAllKeeps(t: Topology, id: NodeId, candidates: seq<NodeId>, lqi: NodeId -> int,
                                       range: real)
    requires TablesOk(t, range, {id}) && id in t.nodes && Distinct(candidates)
    requires forall x :: x in candidates ==> x in t.nodes && x != id && InRange(t.nodes[x].pos, t.nodes[id].pos, range)
                                             && x !in Peers(t.neighbours, id)
    ensures TablesOk(MetAll(t, id, candidates, lqi), range, {id})
    decreases |candidates|
  {
    hide TablesOk, Trimmed, Peers;
    if |candidates| > 0 {
      var x, rest := candidates[0], candidates[1..];
      var met := Met(t, id, x, lqi(x));
      MetKeeps(t, id, x, lqi(x), range);
      MetPeers(t, id, x, lqi(x));
      TrimKeeps(met, x, range, {id, x});
      assert {id, x} - {x} == {id};
      assert candidates == [x] + rest && x !in rest;
      MetAllKeeps(Trimmed(met, x), id, rest, lqi, range);
    }
  }

  lemma RegisterKeeps(t: Topology, id: NodeId, n: Node, coord: NodeId, range: real)
    requires TablesOk(t, range, {}) && id !in t.nodes
    ensures TablesOk(t.(nodes := t.nodes[id := n], coord := coord), range, {}) && Peers(t.neighbours, id) == []
    ensures TablesOk(t.(nodes := t.nodes[id := n], coord := coord), range, {id})
  {
    hide Simple, Symmetric, LinksMatch, Peers, Capacity;
    NoTableYet(t, id, range);
    var u := t.nodes[id := n];
    assert Within(u, t.neighbours, {}) && Within(u, t.neighbours, {id});
    hide Within;
    forall a, b | b in Peers(t.neighbours, a)
      ensures Near(u, a, b, range)
    {
      assert Near(t.nodes, a, b, range);
    }
  }

  lemma NoTableYet(t: Topology, id: NodeId, range: real)
    requires Known(t.nodes, t.neighbours, range) && id !in t.nodes
    ensures Peers(t.neighbours, id) == []
  {
    hide Peers;
    var s := Peers(t.neighbours, id);
    assert |s| > 0 ==> s[0] in s && Near(t.nodes, id, s[0], range);
  }

  /** Registering a radio keeps every table in order, whatever the outcome. */
  lemma AddKeeps(t: Topology, range: real, spec: NodeSpec, lqi: NodeId -> int)
    requires TablesOk(t, range, {})
    ensures TablesOk(Add(t, range, spec, lqi).0, range, {})
  {
    hide TablesOk, Trimmed, MetAll, Candidates;
    if spec.id != "" && spec.id !in t.nodes {
      var root := spec.kind == Coordinator;
      var u := t.(nodes := t.nodes[spec.id := Fresh(spec, root)], coord := if root then spec.id else t.coord);
      RegisterKeeps(t, spec.id, Fresh(spec, root), u.coord, range);
      RegisterKeeps(t, spec.id, Fresh(spec, false), t.coord, range);
      if !(spec.kind == Coordinator && t.coord != "") {
        CandidatesAre(u.nodes, spec, range);
        var c := Candidates(u.nodes, spec, range);
        MetAllKeeps(u, spec.id, c, lqi, range);
        TrimKeeps(MetAll(u, spec.id, c, lqi), spec.id, range, {spec.id});
        assert {spec.id} - {spec.id} == {};
      }
    }
  }

  /** A call of AddNode: the radio, and the quality of each link it might get. */
  datatype Introduction = Introduction(spec: NodeSpec, lqi: NodeId -> int)

  ghost function Built(range: real, calls: seq<Introduction>): Topology {
    if |calls| == 0 then Topology("", map[], map[], map[])
    else Add(Built(range, calls[..|calls| - 1]), range, calls[|calls| - 1].spec, calls[|calls| - 1].lqi).0
  }

  /** After any sequence of registrations, refused ones included: the neighbour
      relation is symmetric, irreflexive and free of duplicates, there is a link
      exactly for each pair of neighbours, every pair is in range, and every table is
      within its role's capacity. */
  lemma {:induction false} TablesAlwaysOk(range: real, calls: seq<Introduction>)
    ensures TablesOk(Built(range, calls), range, {})
  {
    hide Add;
    if |calls| > 0 {
      hide TablesOk;
      TablesAlwaysOk(range, calls[..|calls| - 1]);
      AddKeeps(Built(range, calls[..|calls| - 1]), range, calls[|calls| - 1].spec, calls[|calls| - 1].lqi);
    }
  }

  /** A table that is cut keeps a possible parent if it held one. */
  lemma TrimKeepsAParent(t: Topology, id: NodeId, range: real, loose: set<NodeId>, parent: NodeId)
    requires id in t.nodes && TablesOk(t, range, loose) && parent in Peers(t.neighbours, id)
             && parent in t.nodes && t.nodes[parent].kind != EndDevice
    ensures exists p :: p in Peers(Trimmed(t, id).neighbours, id) && p in t.nodes && t.nodes[p].kind != EndDevice
  {
    hide Simple, Symmetric, LinksMatch, Trimmed, PartedLinks, Distinct, Peers, Dist2;
    var gone := TrimExact(t, id, range, loose);
    var kept := Peers(Trimmed(t, id).neighbours, id);
    if parent !in kept {
      assert parent in gone && kept[0] in kept;
      assert Before(Preference(t.nodes, t.nodes[id].pos, true), kept[0], parent);
      assert kept[0] in Peers(t.neighbours, id);
    }
  }

  /** The same radios, of the same kinds, in the same places. */
  ghost predicate SamePlaces(nodes: map<NodeId, Node>, later: map<NodeId, Node>) {
    && later.Keys == nodes.Keys
    && forall x :: x in nodes ==> later[x].kind == nodes[x].kind && later[x].pos == nodes[x].pos
  }

  /** Tables stay in order whatever else becomes of the radios. */
  lemma SameTables(t: Topology, u: Topology, range: real)
    requires TablesOk(t, range, {}) && u.links == t.links && u.neighbours == t.neighbours
             && SamePlaces(t.nodes, u.nodes)
    ensures TablesOk(u, range, {})
  {
    hide Simple, Symmetric, LinksMatch, Peers, Capacity;
    forall a, b | b in Peers(t.neighbours, a)
      ensures Near(u.nodes, a, b, range)
    {
      assert Near(t.nodes, a, b, range);
    }
  }

  lemma RelinkKeeps(t: Topology, links: map<LinkKey, Link>, range: real)
    requires TablesOk(t, range, {}) && links.Keys == t.links.Keys
    ensures TablesOk(t.(links := links), range, {})
  {
    hide Simple, Symmetric, Known, Within, Peers, Less;
    assert forall k :: k in links <==> k in t.links;
  }
}
