/** Who becomes whose neighbour, said by roles and distances. */
module RegistrationLaws {
  import opened Common
  import opened Ordering
  import opened MeshModel
  import opened NeighbourTables

  /** At most `range` apart. */
  predicate Close(p: Point, q: Point, range: real) {
    range >= 0.0 && (p.x - q.x) * (p.x - q.x) + (p.y - q.y) * (p.y - q.y) <= range * range
  }

  /** How many peers a radio of this kind can list. */
  function Room(k: Kind): nat {
    match k
    case Coordinator => 1024
    case Router => 64
    case EndDevice => 24
  }

  // ----- the outcome of a registration -----

  /** A name can be registered once; the second coordinator is registered and refused. */
  lemma RegisteredExactly(t: Topology, range: real, spec: NodeSpec, lqi: NodeId -> int)
    ensures var (u, outcome) := Add(t, range, spec, lqi);
            var node := Node(spec.kind, spec.pos, if spec.battery <= 0.0 then 1.0 else spec.battery, true,
                             outcome == Added.Added && spec.kind == Coordinator, "", 0, 0);
            && (outcome == EmptyName <==> spec.id == "")
            && (outcome == AlreadyPresent <==> spec.id != "" && spec.id in t.nodes)
            && (outcome == SecondCoordinator <==>
                spec.id != "" && spec.id !in t.nodes && spec.kind == Coordinator && t.coord != "")
            && u.nodes == (if spec.id == "" || spec.id in t.nodes then t.nodes else t.nodes[spec.id := node])
            && u.coord == (if outcome == Added.Added && spec.kind == Coordinator then spec.id else t.coord)
            && (outcome != Added.Added ==> u.links == t.links && u.neighbours == t.neighbours)
  {
    hide MetAll, Trimmed, Candidates;
  }

  // ----- when no table is full -----

  /** The radios within range of a place. */
  function Around(nodes: map<NodeId, Node>, at: Point, range: real): set<NodeId> {
    set x | x in nodes && Close(nodes[x].pos, at, range)
  }

  /** No table involved would exceed its capacity. */
  ghost predicate Roomy(t: Topology, range: real, spec: NodeSpec) {
    && |Around(t.nodes, spec.pos, range)| <= Room(spec.kind)
    && forall x :: x in Around(t.nodes, spec.pos, range) ==> |Peers(t.neighbours, x)| < Room(t.nodes[x].kind)
  }

  /** Each candidate's table has room for one more. */
  ghost predicate RoomForOne(t: Topology, candidates: seq<NodeId>) {
    forall x :: x in candidates ==> x in t.nodes && |Peers(t.neighbours, x)| < Room(t.nodes[x].kind)
  }

  /** The first of such meetings cuts no table and leaves room for the others. */
  lemma FirstMeeting(t: Topology, id: NodeId, candidates: seq<NodeId>, lqi: NodeId -> int)
    requires Distinct(candidates) && id !in candidates && RoomForOne(t, candidates) && |candidates| > 0
    ensures var x, rest := candidates[0], candidates[1..];
            var met := Met(t, id, x, lqi(x));
            && Trimmed(met, x) == met && met.nodes == t.nodes && Distinct(rest) && RoomForOne(met, rest)
            && MetAll(t, id, candidates, lqi) == MetAll(met, id, rest, lqi)
  {
    hide Peers, Distinct, Met, MetAll, Trimmed;
    var x, rest := candidates[0], candidates[1..];
    FirstOf(candidates);
    MetPeers(t, id, x, lqi(x));
    MetNodes(t, id, x, lqi(x));
    Uncut(Met(t, id, x, lqi(x)), x);
    MetAllFirst(t, id, candidates, lqi);
  }

  lemma MetNodes(t: Topology, id: NodeId, peer: NodeId, lqi: int)
    ensures Met(t, id, peer, lqi).nodes == t.nodes
  {
  }

  lemma MetAllFirst(t: Topology, id: NodeId, candidates: seq<NodeId>, lqi: NodeId -> int)
    requires |candidates| > 0 && forall x :: x in candidates ==> x in t.nodes
    ensures var x := candidates[0];
            MetAll(t, id, candidates, lqi) == MetAll(Trimmed(Met(t, id, x, lqi(x)), x), id, candidates[1..], lqi)
  {
    hide Trimmed;
  }

  lemma MetAllNone(t: Topology, id: NodeId, candidates: seq<NodeId>, lqi: NodeId -> int)
    requires candidates == []
    ensures MetAll(t, id, candidates, lqi) == t
  {
  }

  /** Meetings that cut no table append the newcomer to each and each to the newcomer. */
  lemma {:induction false} MeetsAll(t: Topology, id: NodeId, candidates: seq<NodeId>, lqi: NodeId -> int, a: NodeId)
    requires Distinct(candidates) && id !in candidates && RoomForOne(t, candidates)
    ensures Peers(MetAll(t, id, candidates, lqi).neighbours, a) ==
              if a == id then Peers(t.neighbours, id) + candidates
              else if a in candidates then Peers(t.neighbours, a) + [id] else Peers(t.neighbours, a)
    decreases |candidates|
  {
    hide Peers, Distinct, Met, MetAll, Trimmed;
    if |candidates| == 0 {
      MetAllNone(t, id, candidates, lqi);
      assert Peers(t.neighbours, id) + candidates == Peers(t.neighbours, id);
    } else {
      var x, rest := candidates[0], candidates[1..];
      var met := Met(t, id, x, lqi(x));
      FirstOf(candidates);
      FirstMeeting(t, id, candidates, lqi);
      MetPeers(t, id, x, lqi(x));
      MeetsAll(met, id, rest, lqi, a);
      assert Peers(t.neighbours, id) + [x] + rest == Peers(t.neighbours, id) + candidates;
    }
  }

  /** And each meeting makes a link of the quality measured; the others are left alone. */
  lemma {:induction false} MeetsLinks(t: Topology, id: NodeId, candidates: seq<NodeId>, lqi: NodeId -> int, k: LinkKey)
    requires Distinct(candidates) && id !in candidates && RoomForOne(t, candidates)
    ensures var links := MetAll(t, id, candidates, lqi).links;
            && (!MeetingOf(id, candidates, k) ==> LinkAt(links, k) == LinkAt(t.links, k))
            && forall x :: x in candidates && k == MakeLinkKey(id, x) ==>
                 LinkAt(links, k) == Some(Link(false, false, lqi(x)))
    decreases |candidates|
  {
    hide Peers, Distinct, Met, MetAll, Trimmed, MakeLinkKey, MeetingOf;
    if |candidates| == 0 {
      MetAllNone(t, id, candidates, lqi);
    } else {
      var x, rest := candidates[0], candidates[1..];
      FirstOf(candidates);
      FirstMeeting(t, id, candidates, lqi);
      MeetsLinks(Met(t, id, x, lqi(x)), id, rest, lqi, k);
      MeetingLinks(t, id, candidates, lqi, k);
    }
  }

  function LinkAt(links: map<LinkKey, Link>, k: LinkKey): Option<Link> {
    if k in links then Some(links[k]) else None
  }

  /** The pair `k` is `id` and one of the candidates. */
  ghost predicate MeetingOf(id: NodeId, candidates: seq<NodeId>, k: LinkKey) {
    exists x :: x in candidates && k == MakeLinkKey(id, x)
  }

  lemma FirstOf(s: seq<NodeId>)
    requires |s| > 0 && Distinct(s)
    ensures Distinct(s[1..]) && s[0] !in s[1..] && forall x :: x in s <==> x == s[0] || x in s[1..]
  {
    assert s == [s[0]] + s[1..];
  }

  lemma Uncut(t: Topology, id: NodeId)
    requires id in t.nodes && |Peers(t.neighbours, id)| <= Room(t.nodes[id].kind)
    ensures Trimmed(t, id) == t
  {
  }

  lemma KeyNames(id: NodeId, x: NodeId, y: NodeId)
    ensures MakeLinkKey(id, x) == MakeLinkKey(id, y) ==> x == y
  {
  }

  /** The links after the first meeting and the rest of them. */
  lemma MeetingLinks(t: Topology, id: NodeId, candidates: seq<NodeId>, lqi: NodeId -> int, k: LinkKey)
    requires |candidates| > 0 && Distinct(candidates)
    ensures var x, rest := candidates[0], candidates[1..];
            var met := Met(t, id, x, lqi(x));
            && (MeetingOf(id, candidates, k) <==> k == MakeLinkKey(id, x) || MeetingOf(id, rest, k))
            && (k == MakeLinkKey(id, x) ==>
                  !MeetingOf(id, rest, k) && LinkAt(met.links, k) == Some(Link(false, false, lqi(x))))
            && (forall y :: y in rest && k == MakeLinkKey(id, y) ==> k != MakeLinkKey(id, x))
            && (forall y :: y in candidates && k == MakeLinkKey(id, x) && k == MakeLinkKey(id, y) ==> y == x)
            && (k != MakeLinkKey(id, x) ==> LinkAt(met.links, k) == LinkAt(t.links, k))
  {
    hide Distinct, MakeLinkKey, Peers;
    FirstOf(candidates);
    var x := candidates[0];
    forall y
      ensures MakeLinkKey(id, y) == MakeLinkKey(id, x) ==> y == x
    {
      KeyNames(id, x, y);
    }
  }

  /** A list of distinct members of a set is no longer than the set, and as long if it has all. */
  lemma {:induction false} DistinctFits(s: seq<NodeId>, all: set<NodeId>)
    requires Distinct(s) && forall x :: x in s ==> x in all
    ensures |s| <= |all| && (Elements(s) == all ==> |s| == |all|)
    decreases |s|
  {
    if |s| > 0 {
      FirstOf(s);
      DistinctFits(s[1..], all - {s[0]});
      assert Elements(s) == all ==> Elements(s[1..]) == all - {s[0]};
    }
  }

  /** The nearer of two peers comes first, and of equally near ones the lesser name. */
  ghost predicate NearestFirst(nodes: map<NodeId, Node>, at: Point, s: seq<NodeId>) {
    forall i, j :: 0 <= i < j < |s| && s[i] in nodes && s[j] in nodes ==>
      Nearer(at, s[i], nodes[s[i]].pos, s[j], nodes[s[j]].pos)
  }

  predicate Nearer(at: Point, x: NodeId, p: Point, y: NodeId, q: Point) {
    var dx, dy := (at.x - p.x) * (at.x - p.x) + (at.y - p.y) * (at.y - p.y),
                  (at.x - q.x) * (at.x - q.x) + (at.y - q.y) * (at.y - q.y);
    dx < dy || (dx == dy && Less(x, y))
  }

  lemma CandidatesNearestFirst(nodes: map<NodeId, Node>, spec: NodeSpec, range: real)
    ensures NearestFirst(nodes, spec.pos, Candidates(nodes, spec, range))
    ensures forall x :: x in Candidates(nodes, spec, range) <==>
              x in nodes && x != spec.id && Close(nodes[x].pos, spec.pos, range)
    ensures Distinct(Candidates(nodes, spec, range))
  {
    hide Candidates, Distinct, Less;
    CandidatesAre(nodes, spec, range);
    var s := Candidates(nodes, spec, range);
    assert forall x :: x in s <==> x in Elements(s);
  }

  /** A registration that fills no table: every older pair is as before, the new radio's table
      holds exactly the radios within range, nearest first, and each of them holds it. */
  lemma AddMeetsAllInRange(t: Topology, range: real, spec: NodeSpec, lqi: NodeId -> int)
    requires TablesOk(t, range, {}) && Add(t, range, spec, lqi).1 == Added.Added && Roomy(t, range, spec)
    ensures var u := Add(t, range, spec, lqi).0;
            && (forall a, b :: b in Peers(u.neighbours, a) <==>
                  if a == spec.id then b in t.nodes && Close(t.nodes[b].pos, spec.pos, range)
                  else if b == spec.id then a in t.nodes && Close(t.nodes[a].pos, spec.pos, range)
                  else b in Peers(t.neighbours, a))
            && NearestFirst(t.nodes, spec.pos, Peers(u.neighbours, spec.id))
  {
    hide Peers, MakeLinkKey, Distinct, MetAll, Trimmed, Candidates, Close, NearestFirst, Add, TablesOk, Roomy;
    var c := RoomyMeetings(t, range, spec, lqi);
    NotListedYet(t, range, spec.id);
    NothingAdded(c);
    forall a
      ensures Peers(Add(t, range, spec, lqi).0.neighbours, a) ==
              if a == spec.id then c
              else if a in c then Peers(t.neighbours, a) + [spec.id] else Peers(t.neighbours, a)
    {
      MeetsAll(Enrolled(t, spec), spec.id, c, lqi, a);
      PlacedAt(t, spec);
    }
  }

  /** And every such pair has a new link of the quality measured; the other links are as before. */
  lemma AddLinksAllInRange(t: Topology, range: real, spec: NodeSpec, lqi: NodeId -> int, k: LinkKey)
    requires TablesOk(t, range, {}) && Add(t, range, spec, lqi).1 == Added.Added && Roomy(t, range, spec)
    ensures var u := Add(t, range, spec, lqi).0;
            && (!Meets(t, range, spec, k) ==> LinkAt(u.links, k) == LinkAt(t.links, k))
            && (forall x :: x in t.nodes && Close(t.nodes[x].pos, spec.pos, range) && k == MakeLinkKey(spec.id, x) ==>
                  LinkAt(u.links, k) == Some(Link(false, false, lqi(x))))
  {
    hide Peers, MakeLinkKey, Distinct, MetAll, Trimmed, Candidates, Close, NearestFirst, Add, TablesOk, Roomy, LinkAt;
    hide MeetingOf, Meets;
    var c := RoomyMeetings(t, range, spec, lqi);
    MeetsLinks(Enrolled(t, spec), spec.id, c, lqi, k);
    MeetingsAre(t, range, spec, c, k);
  }

  /** The zone with the new radio in it and nobody met. */
  function Enrolled(t: Topology, spec: NodeSpec): Topology {
    var root := spec.kind == Coordinator;
    t.(nodes := t.nodes[spec.id := Fresh(spec, root)], coord := if root then spec.id else t.coord)
  }

  /** With room everywhere, registering is meeting all radios within range, nearest first. */
  lemma RoomyMeetings(t: Topology, range: real, spec: NodeSpec, lqi: NodeId -> int) returns (c: seq<NodeId>)
    requires TablesOk(t, range, {}) && Add(t, range, spec, lqi).1 == Added.Added && Roomy(t, range, spec)
    ensures Distinct(c) && spec.id !in c && RoomForOne(Enrolled(t, spec), c) && spec.id !in t.nodes
    ensures forall x :: x in c <==> x in t.nodes && Close(t.nodes[x].pos, spec.pos, range)
    ensures NearestFirst(t.nodes, spec.pos, c)
    ensures Add(t, range, spec, lqi).0 == MetAll(Enrolled(t, spec), spec.id, c, lqi)
  {
    hide Peers, Distinct, MetAll, Trimmed, Candidates, Close, NearestFirst, TablesOk, Fresh;
    RegisteredExactly(t, range, spec, lqi);
    var before := Enrolled(t, spec);
    c := Candidates(before.nodes, spec, range);
    CandidatesNearestFirst(before.nodes, spec, range);
    AddIs(t, range, spec, lqi);
    PlacedAt(t, spec);
    assert forall x :: x in c <==> x in t.nodes && Close(t.nodes[x].pos, spec.pos, range);
    DistinctFits(c, Around(t.nodes, spec.pos, range));
    NearestAmong(t.nodes, spec, Fresh(spec, spec.kind == Coordinator), c);
    NotListedYet(t, range, spec.id);
    MeetsAll(before, spec.id, c, lqi, spec.id);
    NothingAdded(c);
    Uncut(MetAll(before, spec.id, c, lqi), spec.id);
  }

  lemma PlacedAt(t: Topology, spec: NodeSpec)
    requires spec.id !in t.nodes
    ensures var n := Enrolled(t, spec).nodes;
            && spec.id in n && n[spec.id].kind == spec.kind
            && (forall x :: x in t.nodes ==> x in n && n[x] == t.nodes[x])
            && (forall x :: x in n <==> x in t.nodes || x == spec.id) && Enrolled(t, spec).neighbours == t.neighbours
            && n == t.nodes[spec.id := Fresh(spec, spec.kind == Coordinator)]
  {
  }

  lemma AddIs(t: Topology, range: real, spec: NodeSpec, lqi: NodeId -> int)
    requires Add(t, range, spec, lqi).1 == Added.Added
    ensures var u := Enrolled(t, spec);
            && (forall x :: x in Candidates(u.nodes, spec, range) ==> x in u.nodes) && spec.id in u.nodes
            && Add(t, range, spec, lqi).0 ==
               Trimmed(MetAll(u, spec.id, Candidates(u.nodes, spec, range), lqi), spec.id)
  {
    hide Trimmed, MetAll, Candidates;
  }

  /** The pair `k` is the new radio and one within range of it. */
  ghost predicate Meets(t: Topology, range: real, spec: NodeSpec, k: LinkKey) {
    exists x :: x in t.nodes && Close(t.nodes[x].pos, spec.pos, range) && k == MakeLinkKey(spec.id, x)
  }

  lemma NearestAmong(nodes: map<NodeId, Node>, spec: NodeSpec, n: Node, s: seq<NodeId>)
    requires spec.id !in s && NearestFirst(nodes[spec.id := n], spec.pos, s)
    ensures NearestFirst(nodes, spec.pos, s)
  {
    hide Nearer;
    forall i, j | 0 <= i < j < |s| && s[i] in nodes && s[j] in nodes
      ensures Nearer(spec.pos, s[i], nodes[s[i]].pos, s[j], nodes[s[j]].pos)
    {
      assert s[i] != spec.id && s[j] != spec.id;
    }
  }

  lemma MeetingsAre(t: Topology, range: real, spec: NodeSpec, c: seq<NodeId>, k: LinkKey)
    requires spec.id !in t.nodes && TablesOk(t, range, {})
    requires forall x :: x in c <==> x in t.nodes && Close(t.nodes[x].pos, spec.pos, range)
    ensures MeetingOf(spec.id, c, k) <==> Meets(t, range, spec, k)
    ensures k in t.links ==> !MeetingOf(spec.id, c, k)
  {
    hide Close, Simple, Symmetric, Within, Peers, Less;
    if k in t.links { assert Near(t.nodes, k.a, k.b, range); }
  }

  lemma NotListedYet(t: Topology, range: real, id: NodeId)
    requires TablesOk(t, range, {}) && id !in t.nodes
    ensures forall a :: id !in Peers(t.neighbours, a)
    ensures forall a :: a !in t.nodes ==> Peers(t.neighbours, a) == []
  {
    hide Simple, Symmetric, LinksMatch, Within, Peers;
    forall a, b | b in Peers(t.neighbours, a)
      ensures a in t.nodes && b in t.nodes
    {
      assert Near(t.nodes, a, b, range);
    }
    forall a | a !in t.nodes
      ensures Peers(t.neighbours, a) == []
    {
      NoTableYet(t, a, range);
    }
  }

  // ----- when a table is full -----

  /** The coordinator comes before routers, and these before end devices. */
  function Standing(k: Kind): int {
    match k
    case Coordinator => 0
    case Router => 1
    case EndDevice => 2
  }

  /** A full table keeps as many peers as it has room for, and whoever it keeps is preferred to
      whoever it drops: of a better standing, or of the same and nearer, or as near and of a
      lesser name. Both sides forget a dropped pair, and nobody else is touched. */
  lemma FullTableKeepsTheBest(t: Topology, id: NodeId, range: real) returns (gone: set<NodeId>)
    requires id in t.nodes && TablesOk(t, range, {id})
    ensures var r := Trimmed(t, id);
            var kept, room := Peers(r.neighbours, id), Room(t.nodes[id].kind);
            && |kept| == (if |Peers(t.neighbours, id)| <= room then |Peers(t.neighbours, id)| else room)
            && (forall a, b :: b in Peers(r.neighbours, a) <==>
                  b in Peers(t.neighbours, a) && !(a == id && b in gone) && !(b == id && a in gone))
            && (forall x, y :: x in kept && y in gone && x in t.nodes && y in t.nodes ==>
                  var j, k := Standing(t.nodes[x].kind), Standing(t.nodes[y].kind);
                  j < k || (j == k && Nearer(t.nodes[id].pos, x, t.nodes[x].pos, y, t.nodes[y].pos)))
  {
    hide TablesOk, Trimmed, Peers, PartedLinks, Distinct, Less;
    gone := TrimExact(t, id, range, {id});
  }

  // ----- a run law -----

  /** The call registers a radio: it has a name, and no call before it had. */
  predicate Registers(calls: seq<Introduction>, i: nat)
    requires i < |calls|
  {
    calls[i].spec.id != "" && forall j :: 0 <= j < i ==> calls[j].spec.id != calls[i].spec.id
  }

  predicate RegistersCoordinator(calls: seq<Introduction>, i: nat)
    requires i < |calls|
  {
    Registers(calls, i) && calls[i].spec.kind == Coordinator
  }

  /** A coordinator is registered by one of the first `n` calls. */
  predicate HasCoordinator(calls: seq<Introduction>, n: nat)
    requires n <= |calls|
  {
    exists j :: 0 <= j < n && RegistersCoordinator(calls, j)
  }

  /** Both calls register radios, within range of each other, and the later one is not a second
      coordinator. */
  predicate InTouch(range: real, calls: seq<Introduction>, i: nat, j: nat)
    requires i < j < |calls|
  {
    && Registers(calls, i) && Registers(calls, j)
    && !(calls[j].spec.kind == Coordinator && HasCoordinator(calls, j))
    && Close(calls[i].spec.pos, calls[j].spec.pos, range)
  }

  lemma RegistersBefore(calls: seq<Introduction>, n: nat, i: nat)
    requires i < n <= |calls|
    ensures Registers(calls[..n], i) <==> Registers(calls, i)
    ensures RegistersCoordinator(calls[..n], i) <==> RegistersCoordinator(calls, i)
  {
    assert forall j :: 0 <= j < n ==> calls[..n][j] == calls[j];
  }

  lemma HasCoordinatorBefore(calls: seq<Introduction>, n: nat)
    requires n <= |calls|
    ensures HasCoordinator(calls[..n], n) <==> HasCoordinator(calls, n)
  {
    hide RegistersCoordinator;
    forall j | 0 <= j < n
      ensures RegistersCoordinator(calls[..n], j) <==> RegistersCoordinator(calls, j)
    {
      RegistersBefore(calls, n, j);
    }
  }

  lemma InTouchBefore(range: real, calls: seq<Introduction>, n: nat, i: nat, j: nat)
    requires i < j < n <= |calls|
    ensures InTouch(range, calls[..n], i, j) <==> InTouch(range, calls, i, j)
  {
    hide Registers, HasCoordinator, Close;
    RegistersBefore(calls, n, i);
    RegistersBefore(calls, n, j);
    HasCoordinatorBefore(calls, j);
    HasCoordinatorBefore(calls[..n], j);
    assert calls[..n][..j] == calls[..j];
  }

  /** A name is known after a run exactly if some call registered it. */
  lemma {:induction false} KnownNames(range: real, calls: seq<Introduction>, x: NodeId)
    ensures x in Built(range, calls).nodes <==>
            exists i :: 0 <= i < |calls| && Registers(calls, i) && calls[i].spec.id == x
    decreases |calls|
  {
    hide Add, Registers;
    if |calls| > 0 {
      var n := |calls| - 1;
      KnownNames(range, calls[..n], x);
      KnownNames(range, calls[..n], calls[n].spec.id);
      RegisteredExactly(Built(range, calls[..n]), range, calls[n].spec, calls[n].lqi);
      forall i | 0 <= i < n
        ensures Registers(calls[..n], i) <==> Registers(calls, i)
      {
        RegistersBefore(calls, n, i);
      }
      RegistersLast(calls);
      if exists i :: 0 <= i < n && Registers(calls[..n], i) && calls[..n][i].spec.id == x {
        var i :| 0 <= i < n && Registers(calls[..n], i) && calls[..n][i].spec.id == x;
        assert Registers(calls, i) && calls[i].spec.id == x;
      }
    }
  }

  /** The last call registers its radio exactly if the name is none registered before. */
  lemma RegistersLast(calls: seq<Introduction>)
    requires |calls| > 0
    ensures var n := |calls| - 1;
            Registers(calls, n) <==>
            && calls[n].spec.id != ""
            && !exists i :: 0 <= i < n && Registers(calls[..n], i) && calls[..n][i].spec.id == calls[n].spec.id
  {
    var n := |calls| - 1;
    if calls[n].spec.id != "" && !Registers(calls, n) {
      var i := FirstWith(calls, n);
      RegistersBefore(calls, n, i);
      assert calls[..n][i] == calls[i];
    }
    if i :| 0 <= i < n && Registers(calls[..n], i) && calls[..n][i].spec.id == calls[n].spec.id {
      assert calls[i].spec.id == calls[n].spec.id;
    }
  }

  /** The first of the calls before `n` with its name. */
  lemma {:induction false} FirstWith(calls: seq<Introduction>, n: nat) returns (i: nat)
    requires n < |calls| && calls[n].spec.id != "" && !Registers(calls, n)
    ensures i < n && calls[i].spec.id == calls[n].spec.id && Registers(calls, i)
    decreases n
  {
    var j :| 0 <= j < n && calls[j].spec.id == calls[n].spec.id;
    if Registers(calls, j) { i := j; } else { i := FirstWith(calls, j); }
  }

  /** A registered radio is where and what it was registered as. */
  lemma {:induction false} KnownPlaces(range: real, calls: seq<Introduction>, i: nat)
    requires i < |calls| && Registers(calls, i)
    ensures var nodes := Built(range, calls).nodes;
            && calls[i].spec.id in nodes && nodes[calls[i].spec.id].pos == calls[i].spec.pos
            && nodes[calls[i].spec.id].kind == calls[i].spec.kind
    decreases |calls|
  {
    hide Add, Registers;
    var n := |calls| - 1;
    var t := Built(range, calls[..n]);
    RegisteredExactly(t, range, calls[n].spec, calls[n].lqi);
    KnownNames(range, calls[..n], calls[n].spec.id);
    RegistersLast(calls);
    if i < n {
      RegistersBefore(calls, n, i);
      KnownPlaces(range, calls[..n], i);
    }
  }

  lemma {:induction false} CoordinatorKnown(range: real, calls: seq<Introduction>)
    ensures Built(range, calls).coord != "" <==> HasCoordinator(calls, |calls|)
    decreases |calls|
  {
    hide Add, Registers, RegistersCoordinator;
    if |calls| > 0 {
      var n := |calls| - 1;
      CoordinatorKnown(range, calls[..n]);
      HasCoordinatorBefore(calls, n);
      RegisteredExactly(Built(range, calls[..n]), range, calls[n].spec, calls[n].lqi);
      KnownNames(range, calls[..n], calls[n].spec.id);
      RegistersLast(calls);
      LastCoordinator(calls);
    }
  }

  lemma LastCoordinator(calls: seq<Introduction>)
    requires |calls| > 0
    ensures var n := |calls| - 1;
            && (RegistersCoordinator(calls, n) <==> Registers(calls, n) && calls[n].spec.kind == Coordinator)
            && (HasCoordinator(calls, n + 1) <==> HasCoordinator(calls, n) || RegistersCoordinator(calls, n))
  {
    hide Registers;
    var n := |calls| - 1;
    if HasCoordinator(calls, n + 1) {
      var j :| 0 <= j < n + 1 && RegistersCoordinator(calls, j);
      assert j == n || j < n;
    }
  }

  /** The other registered radios within range of the one that call `i` introduces. */
  function Crowd(range: real, calls: seq<Introduction>, i: nat): set<nat>
    requires i < |calls|
  {
    set j: nat | j < |calls| && j != i && Registers(calls, j) && Close(calls[j].spec.pos, calls[i].spec.pos, range)
  }

  /** No radio has more others within range than its table has room for. */
  ghost predicate Sparse(range: real, calls: seq<Introduction>) {
    forall i :: 0 <= i < |calls| && Registers(calls, i) ==> |Crowd(range, calls, i)| <= Room(calls[i].spec.kind)
  }

  lemma SparseBefore(range: real, calls: seq<Introduction>, n: nat)
    requires n <= |calls| && Sparse(range, calls)
    ensures Sparse(range, calls[..n])
  {
    hide Registers, Close;
    var before := calls[..n];
    forall i | 0 <= i < n && Registers(before, i)
      ensures |Crowd(range, before, i)| <= Room(before[i].spec.kind)
    {
      forall j | 0 <= j < n
        ensures Registers(before, j) <==> Registers(calls, j)
      {
        RegistersBefore(calls, n, j);
      }
      SubsetFits(Crowd(range, before, i), Crowd(range, calls, i));
    }
  }

  function Names(calls: seq<Introduction>, js: set<nat>): set<NodeId> {
    set j | j in js && j < |calls| :: calls[j].spec.id
  }

  lemma {:induction false} NamesFit(calls: seq<Introduction>, js: set<nat>)
    ensures |Names(calls, js)| <= |js|
    decreases |js|
  {
    if j :| j in js {
      NamesFit(calls, js - {j});
      var rest := Names(calls, js - {j});
      assert Names(calls, js) == if j < |calls| then rest + {calls[j].spec.id} else rest;
    } else {
      assert Names(calls, js) == {};
    }
  }

  /** Who is known after all calls but the last, and where and what it is. */
  lemma IntroducedBy(range: real, calls: seq<Introduction>, x: NodeId) returns (i: nat)
    requires |calls| > 0 && x in Built(range, calls[..|calls| - 1]).nodes
    ensures i < |calls| - 1 && Registers(calls, i) && calls[i].spec.id == x
    ensures var node := Built(range, calls[..|calls| - 1]).nodes[x];
            node.pos == calls[i].spec.pos && node.kind == calls[i].spec.kind
  {
    hide Add, Registers;
    var n := |calls| - 1;
    KnownNames(range, calls[..n], x);
    i :| 0 <= i < n && Registers(calls[..n], i) && calls[..n][i].spec.id == x;
    RegistersBefore(calls, n, i);
    KnownPlaces(range, calls[..n], i);
  }

  /** Among few enough radios the next registration fills no table. */
  lemma SparseIsRoomy(range: real, calls: seq<Introduction>)
    requires |calls| > 0 && Sparse(range, calls) && Registers(calls, |calls| - 1)
    ensures Roomy(Built(range, calls[..|calls| - 1]), range, calls[|calls| - 1].spec)
  {
    hide Add, Registers, Close, Peers, Built;
    var n := |calls| - 1;
    var t, spec := Built(range, calls[..n]), calls[n].spec;
    forall x | x in Around(t.nodes, spec.pos, range)
      ensures x in Names(calls, Crowd(range, calls, n)) && |Peers(t.neighbours, x)| < Room(t.nodes[x].kind)
    {
      var i := IntroducedBy(range, calls, x);
      CloseBothWays(calls[i].spec.pos, spec.pos, range);
      assert i in Crowd(range, calls, n) && n in Crowd(range, calls, i);
      PeersFit(range, calls, x, i);
    }
    NamesFit(calls, Crowd(range, calls, n));
    SubsetFits(Around(t.nodes, spec.pos, range), Names(calls, Crowd(range, calls, n)));
  }

  lemma CloseBothWays(p: Point, q: Point, range: real)
    ensures Close(p, q, range) <==> Close(q, p, range)
  {
  }

  /** A table lists only radios within range, and not yet the one to be registered. */
  lemma PeersFit(range: real, calls: seq<Introduction>, x: NodeId, i: nat)
    requires |calls| > 0 && x in Built(range, calls[..|calls| - 1]).nodes && i < |calls| && calls[i].spec.id == x
    requires Built(range, calls[..|calls| - 1]).nodes[x].pos == calls[i].spec.pos
    requires |calls| - 1 in Crowd(range, calls, i)
    ensures |Peers(Built(range, calls[..|calls| - 1]).neighbours, x)| < |Crowd(range, calls, i)|
  {
    hide Built, Symmetric, LinksMatch, Within, Peers, Distinct, Registers, Close, Crowd;
    var n := |calls| - 1;
    var t := Built(range, calls[..n]);
    TablesAlwaysOk(range, calls[..n]);
    var rest := Crowd(range, calls, i) - {n};
    var s := Peers(t.neighbours, x);
    forall y | y in s
      ensures y in Names(calls, rest)
    {
      assert Near(t.nodes, x, y, range);
      var j := IntroducedBy(range, calls, y);
      InCrowd(range, calls, i, j, t.nodes[x].pos, t.nodes[y].pos);
    }
    DistinctFits(s, Names(calls, rest));
    NamesFit(calls, rest);
  }

  lemma InCrowd(range: real, calls: seq<Introduction>, i: nat, j: nat, p: Point, q: Point)
    requires i < |calls| && j < |calls| && i != j && Registers(calls, j)
    requires calls[i].spec.pos == p && calls[j].spec.pos == q && InRange(p, q, range)
    ensures j in Crowd(range, calls, i)
  {
    hide Registers;
  }

  lemma SubsetFits<T>(a: set<T>, b: set<T>)
    requires a <= b
    ensures |a| <= |b|
  {
    assert b == a + (b - a);
  }

  /** At most 25 calls cannot fill a table. */
  lemma FewAreSparse(range: real, calls: seq<Introduction>)
    requires |calls| <= 25
    ensures Sparse(range, calls)
  {
    hide Registers, Close;
    forall i | 0 <= i < |calls| && Registers(calls, i)
      ensures |Crowd(range, calls, i)| <= Room(calls[i].spec.kind)
    {
      NumbersFit(Crowd(range, calls, i) + {i}, |calls|);
    }
  }

  lemma {:induction false} NumbersFit(s: set<nat>, n: nat)
    requires forall j :: j in s ==> j < n
    ensures |s| <= n
    decreases n
  {
    if n > 0 {
      NumbersFit(s - {n - 1}, n - 1);
    } else {
      assert forall j :: j !in s;
      assert s == {};
    }
  }

  /** After any run that brings no radio more others within range than its table has room for: two
      registered radios are neighbours exactly if they are within range of each other and the
      later was not refused as a second coordinator. */
  lemma {:induction false} NeighboursInRange(range: real, calls: seq<Introduction>, i: nat, j: nat)
    requires Sparse(range, calls) && i < j < |calls| && Registers(calls, i) && Registers(calls, j)
    ensures var neighbours := Built(range, calls).neighbours;
            && (calls[j].spec.id in Peers(neighbours, calls[i].spec.id) <==> InTouch(range, calls, i, j))
            && (calls[i].spec.id in Peers(neighbours, calls[j].spec.id) <==> InTouch(range, calls, i, j))
    decreases |calls|
  {
    hide Add, Registers, Peers, TablesOk, HasCoordinator, Close, Roomy, Sparse;
    var n := |calls| - 1;
    var before, spec, lqi := calls[..n], calls[n].spec, calls[n].lqi;
    var t := Built(range, before);
    TablesAlwaysOk(range, before);
    SparseBefore(range, calls, n);
    RegisteredExactly(t, range, spec, lqi);
    RegistersBefore(calls, n, i);
    KnownPlaces(range, before, i);
    RegistersLast(calls);
    KnownNames(range, before, spec.id);
    CoordinatorKnown(range, before);
    HasCoordinatorBefore(calls, n);
    if Add(t, range, spec, lqi).1 == Added.Added {
      SparseIsRoomy(range, calls);
      AddMeetsAllInRange(t, range, spec, lqi);
    }
    if j < n {
      RegistersBefore(calls, n, j);
      InTouchBefore(range, calls, n, i, j);
      NeighboursInRange(range, before, i, j);
      KnownPlaces(range, before, j);
    } else {
      NotListedYet(t, range, spec.id);
    }
  }
}
