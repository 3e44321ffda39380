/** The network object. Its methods walk tables and callbacks as the source does, and
    move its state by the functions of NeighbourTables and Formation. */
module Network {
  import opened Common
  import opened Ordering
  import opened MeshModel
  import NT = NeighbourTables
  import F = Formation
  import R = MeshRoutes
  import L = MeshRouteLaws
  import D = RouteDrift

  class Network {
    const cfg: F.Config
    var coord: NodeId
    var nodes: map<NodeId, Node>
    var links: map<LinkKey, Link>
    var neighbours: map<NodeId, seq<NodeId>>
    var round: nat
    /** Callbacks handed to the engine. */
    var calls: multiset<F.Call>
    ghost var enrolled: set<NodeId>
    var formed: bool
    /** The rounds whose completion has been announced, and the announcements scheduled. */
    var fired: set<nat>
    var deadlines: multiset<nat>
    var routes: map<NodeId, seq<NodeId>>
    var routesDirty: bool
    /** The zone the routes were computed for. */
    ghost var asOf: Topology

    function Zone(): Topology
      reads this`coord, this`nodes, this`links, this`neighbours
    {
      Topology(coord, nodes, links, neighbours)
    }

    ghost function View(): F.State
      reads this
    {
      F.State(Zone(), round, calls, enrolled, formed, fired, deadlines)
    }

    /** The state is one every run keeps. Routes not marked stale are the best there were
        for a zone that has only drifted since. */
    ghost predicate Valid()
      reads this
    {
      F.Inv(cfg, View()) && RoutesFresh()
    }

    ghost predicate RoutesFresh()
      reads this`coord, this`nodes, this`links, this`neighbours, this`routes, this`routesDirty, this`asOf
    {
      !routesDirty ==>
        if coord == "" then routes == map[]
        else R.IsRouteTable(asOf, cfg.maxDepth, routes) && Drifted(asOf, Zone())
    }

    constructor (cfg: F.Config)
      ensures this.cfg == cfg && View() == F.START && Valid()
    {
      this.cfg := cfg;
      coord, nodes, links, neighbours := "", map[], map[], map[];
      round, calls, enrolled := 0, multiset{}, {};
      formed, fired, deadlines := false, {}, multiset{};
      routes, routesDirty := map[], false;
    }

    /** Cuts one table to its capacity, symmetrically. */
    method TrimNeighbours(id: NodeId)
      requires id in nodes
      modifies this`neighbours, this`links
      ensures Zone() == NT.Trimmed(old(Zone()), id)
    {
      var capacity := NT.Capacity(nodes[id].kind);
      var list := if id in neighbours then neighbours[id] else [];
      if |list| <= capacity { return; }
      list := SortPeers(NT.Preference(nodes, nodes[id].pos, true), list);
      var evicted := list[capacity..];
      neighbours := neighbours[id := list[..capacity]];
      ghost var cut := Zone();
      var i := 0;
      while i < |evicted|
        invariant 0 <= i <= |evicted|
        invariant NT.ForgetAll(Zone(), id, evicted[i..]) == NT.ForgetAll(cut, id, evicted)
      {
        var peer := evicted[i];
        links := links - {MakeLinkKey(id, peer)};
        if peer in neighbours && id in neighbours[peer] {
          var rest := RemoveFirst(neighbours[peer], id);
          neighbours := neighbours[peer := rest];
        }
        assert evicted[i..][0] == peer && evicted[i..][1..] == evicted[i + 1..];
        i := i + 1;
      }
    }

    /** The radios in range of a new one, nearest first. */
    method FindCandidates(spec: NT.NodeSpec) returns (candidates: seq<NodeId>)
      ensures candidates == NT.Candidates(nodes, spec, cfg.range)
    {
      var list: seq<NodeId> := [];
      var rest := nodes.Keys;
      while rest != {}
        invariant rest <= nodes.Keys
        invariant NT.Distinct(list) && NT.Elements(list) == NT.Audible(nodes, spec, cfg.range) - rest
        decreases rest
      {
        var id :| id in rest;
        rest := rest - {id};
        if id != spec.id && NT.InRange(nodes[id].pos, spec.pos, cfg.range) {
          assert id !in NT.Elements(list);
          assert NT.Elements(list + [id]) == NT.Elements(list) + {id};
          list := list + [id];
        }
      }
      var o := NT.Preference(nodes, spec.pos, false);
      candidates := SortPeers(o, list);
      NT.SortedAscending(o, list);
      NT.CandidatesAre(nodes, spec, cfg.range);
      NT.AscendingUnique(o, candidates, NT.Candidates(nodes, spec, cfg.range));
    }

    /** Both enter each other's tables. */
    method Meet(id: NodeId, peer: NodeId, lqi: int)
      modifies this`neighbours, this`links
      ensures Zone() == NT.Met(old(Zone()), id, peer, lqi)
    {
      neighbours := neighbours[id := Peers(neighbours, id) + [peer]];
      neighbours := neighbours[peer := Peers(neighbours, peer) + [id]];
      links := links[MakeLinkKey(id, peer) := Link(false, false, lqi)];
    }

    /** The new radio meets its candidates one at a time. */
    method MeetAll(id: NodeId, candidates: seq<NodeId>, lqi: NodeId -> int)
      requires forall x :: x in candidates ==> x in nodes
      modifies this`neighbours, this`links
      ensures Zone() == NT.MetAll(old(Zone()), id, candidates, lqi)
    {
      hide NT.MetAll, NT.Trimmed, NT.Met;
      var i := 0;
      assert candidates[0..] == candidates;
      while i < |candidates|
        invariant 0 <= i <= |candidates|
        invariant NT.MetAll(Zone(), id, candidates[i..], lqi) == NT.MetAll(old(Zone()), id, candidates, lqi)
      {
        var x := candidates[i];
        MeetsFirst(Zone(), id, candidates, i, lqi);
        Meet(id, x, lqi(x));
        TrimNeighbours(x);
        i := i + 1;
      }
      MeetsNone(Zone(), id, candidates[i..], lqi);
    }

    /** A registered radio finds its peers, meets them, and cuts its own table last. */
    method Introduce(spec: NT.NodeSpec, lqi: NodeId -> int)
      requires spec.id in nodes
      modifies this`links, this`neighbours
      ensures Zone() == NT.Trimmed(NT.MetAll(old(Zone()), spec.id, NT.Candidates(nodes, spec, cfg.range), lqi), spec.id)
    {
      hide NT.Trimmed, NT.MetAll, NT.Candidates;
      var candidates := FindCandidates(spec);
      MeetAll(spec.id, candidates, lqi);
      TrimNeighbours(spec.id);
    }

    /** Registers a radio. Its first meetings may push other pairs out of full tables. */
    method AddNode(spec: NT.NodeSpec, lqi: NodeId -> int) returns (r: NT.Added)
      requires Valid()
      modifies this`coord, this`nodes, this`links, this`neighbours, this`routesDirty
      ensures View() == F.Step(cfg, old(View()), F.Register(spec, lqi))
              && r == NT.Add(old(Zone()), cfg.range, spec, lqi).1
      ensures Valid()
    {
      hide F.Inv, NT.Add, R.IsRouteTable, Drifted;
      F.StepKeeps(cfg, View(), F.Register(spec, lqi));
      OneMoreRadio(asOf, Zone(), spec.id, NT.Fresh(spec, false));
      r := Enter(spec, lqi);
    }

    method Enter(spec: NT.NodeSpec, lqi: NodeId -> int) returns (r: NT.Added)
      modifies this`coord, this`nodes, this`links, this`neighbours, this`routesDirty
      ensures (Zone(), r) == NT.Add(old(Zone()), cfg.range, spec, lqi)
      ensures var entered := old(nodes)[spec.id := NT.Fresh(spec, false)];
              if r == NT.Added.Added then routesDirty
              else
                && routesDirty == old(routesDirty) && coord == old(coord) && links == old(links)
                && neighbours == old(neighbours) && nodes == if r == NT.SecondCoordinator then entered else old(nodes)
      ensures r == NT.SecondCoordinator ==> spec.id !in old(nodes)
    {
      hide NT.Trimmed, NT.MetAll, NT.Candidates;
      if spec.id == "" { return NT.EmptyName; }
      if spec.id in nodes { return NT.AlreadyPresent; }
      nodes := nodes[spec.id := NT.Fresh(spec, false)];
      if spec.kind == Coordinator {
        if coord != "" { return NT.SecondCoordinator; }
        coord := spec.id;
        nodes := nodes[spec.id := NT.Fresh(spec, true)];
        assert nodes == old(nodes)[spec.id := NT.Fresh(spec, true)];
      }
      Introduce(spec, lqi);
      routesDirty := true;
      return NT.Added.Added;
    }

    /** Scans the table for the parent of highest score, the first of equals. */
    method BestParent(id: NodeId) returns (best: Option<NodeId>)
      ensures best == F.BestParent(cfg, Zone(), id)
    {
      best := None;
      var peers := Peers(neighbours, id);
      var i := 0;
      while i < |peers|
        invariant 0 <= i <= |peers|
        invariant best == F.BestOf(cfg, Zone(), id, peers[..i])
      {
        assert peers[..i + 1][..i] == peers[..i];
        if F.Eligible(cfg, Zone(), id, peers[i])
           && (best.None? || F.Score(cfg, Zone(), id, peers[i]) > F.Score(cfg, Zone(), id, best.value)) {
          best := Some(peers[i]);
        }
        i := i + 1;
      }
      assert peers[..i] == peers;
    }

    /** Calls every live radio that has not joined to a new round. */
    method Form()
      requires Valid()
      modifies this`round, this`calls, this`enrolled, this`formed, this`deadlines
      ensures View() == F.Step(cfg, old(View()), F.FormCalled) && Valid()
    {
      hide F.Inv, F.Form, RoutesFresh;
      F.StepKeeps(cfg, View(), F.FormCalled);
      StartRound();
    }

    method StartRound()
      modifies this`round, this`calls, this`enrolled, this`formed, this`deadlines
      ensures View() == F.Form(old(View()))
    {
      hide F.Callable, F.WithAttempts, F.WithDeadlines;
      if coord == "" { return; }
      var ids := F.Callable(Zone());
      round := round + 1;
      formed := false;
      enrolled := ids;
      calls := F.WithAttempts(calls, ids, round);
      deadlines := F.WithDeadlines(deadlines, round, ids);
    }

    /** Announces the completion of a round, unless that was done before. */
    method Finish(forRound: nat)
      modifies this`formed, this`fired, this`routesDirty
      ensures View() == F.Finish(old(View()), forRound)
      ensures routesDirty == (old(routesDirty) || forRound !in old(fired))
    {
      if forRound in fired { return; }
      fired := fired + {forRound};
      formed := true;
      routesDirty := true;
    }

    /** A scheduled announcement comes due. It does not look which round it is. */
    method PassDeadline(forRound: nat)
      requires Valid() && forRound in deadlines
      modifies this`deadlines, this`formed, this`fired, this`routesDirty
      ensures View() == F.Step(cfg, old(View()), F.DeadlinePassed(forRound)) && Valid()
    {
      hide F.Inv, R.IsRouteTable, Drifted;
      F.StepKeeps(cfg, View(), F.DeadlinePassed(forRound));
      deadlines := deadlines - multiset{forRound};
      Finish(forRound);
    }

    /** The controller reboots: every association is lost, and so are the routes. */
    method ResetAssociations()
      requires Valid()
      modifies this`nodes, this`routes, this`routesDirty, this`enrolled, this`formed
      ensures View() == F.Step(cfg, old(View()), F.CoordinatorReset) && Valid() && routesDirty
    {
      hide F.Inv, R.IsRouteTable, Drifted, F.Fire, F.Form, F.Deadline, NT.Add;
      F.StepKeeps(cfg, View(), F.CoordinatorReset);
      nodes := map id | id in nodes :: F.Forgotten(coord, id, nodes[id]);
      routes, routesDirty := map[], true;
      enrolled, formed := {}, false;
    }

    method RestartCoordinator()
      requires Valid()
      modifies this
      ensures View() == F.Form(F.Reset(old(View()))) && Valid()
    {
      ResetAssociations();
      Form();
    }

    /** One association attempt. */
    method AttemptJoin(id: NodeId, forRound: nat)
      requires Valid() && F.Attempt(id, forRound) in calls
      modifies this`calls
      ensures View() == F.Step(cfg, old(View()), F.Fired(F.Attempt(id, forRound))) && Valid()
    {
      hide F.Inv, R.IsRouteTable, Drifted, F.BestParent, F.Used, F.Again;
      F.StepKeeps(cfg, View(), F.Fired(F.Attempt(id, forRound)));
      calls := F.Used(calls, F.Attempt(id, forRound));
      if forRound != round { return; }
      if id !in nodes || !nodes[id].alive || nodes[id].joined { return; }
      var parent := BestParent(id);
      if parent.None? {
        calls := F.Again(calls, F.Attempt(id, forRound));
        return;
      }
      calls := F.Again(calls, F.Exchange(id, parent.value, forRound));
    }

    /** The end of an association exchange. */
    method EndExchange(id: NodeId, parent: NodeId, forRound: nat)
      requires Valid() && F.Exchange(id, parent, forRound) in calls
      modifies this`calls, this`nodes, this`formed, this`fired, this`routesDirty
      ensures View() == F.Step(cfg, old(View()), F.Fired(F.Exchange(id, parent, forRound))) && Valid()
    {
      hide F.Inv, F.Fire, R.IsRouteTable, Drifted;
      F.StepKeeps(cfg, View(), F.Fired(F.Exchange(id, parent, forRound)));
      Associate(id, parent, forRound);
    }

    method Associate(id: NodeId, parent: NodeId, forRound: nat)
      modifies this`calls, this`nodes, this`formed, this`fired, this`routesDirty
      ensures View() == F.Fire(cfg, old(View()), F.Exchange(id, parent, forRound))
      ensures routesDirty || (!old(routesDirty) && Zone() == old(Zone()))
    {
      hide F.Callable, F.Joined, F.Used, F.Again;
      calls := F.Used(calls, F.Exchange(id, parent, forRound));
      if forRound != round { return; }
      if id !in nodes || parent !in nodes || !nodes[id].alive || !nodes[parent].alive || !nodes[parent].joined
         || nodes[parent].kids >= cfg.maxChildren {
        calls := F.Again(calls, F.Attempt(id, forRound));
        return;
      }
      Join(id, parent);
      routesDirty := true;
      var remaining := F.Callable(Zone());
      if remaining == {} { Finish(forRound); }
    }

    method Join(id: NodeId, parent: NodeId)
      requires id in nodes && parent in nodes
      modifies this`nodes
      ensures nodes == F.Joined(old(nodes), id, parent)
    {
      nodes := nodes[id := nodes[id].(joined := true, parent := parent, depth := nodes[parent].depth + 1)];
      nodes := nodes[parent := nodes[parent].(kids := nodes[parent].kids + 1)];
    }

    method RecomputeRoutes()
      modifies this`routes, this`routesDirty, this`asOf
      ensures !routesDirty && RoutesFresh() && asOf == Zone()
    {
      routesDirty := false;
      routes := R.ComputeRoutes(Zone(), cfg.maxDepth);
      asOf := Zone();
    }

    /** Puts one link, if there is one, in a new condition, and the routes with it. */
    method SetLink(a: NodeId, b: NodeId, link: Link)
      requires Valid()
      modifies this`links, this`routes, this`routesDirty, this`asOf
      ensures View() == old(View()).(t := old(Zone()).(links := Relinked(old(links), MakeLinkKey(a, b), link)))
      ensures Valid() && !routesDirty && asOf == Zone()
    {
      hide F.Inv, R.IsRouteTable, Drifted, Relinked;
      var changed := Relinked(links, MakeLinkKey(a, b), link);
      F.StepKeeps(cfg, View(), F.LinksChange(changed));
      links := changed;
      RecomputeRoutes();
    }

    /** Ramps and fades change the quality of links as time goes by. No route is recomputed. */
    method Fade(quality: LinkKey -> int)
      requires Valid()
      modifies this`links
      ensures View() == F.Step(cfg, old(View()), F.LinksChange(Faded(old(links), quality))) && Valid()
    {
      hide F.Inv, R.IsRouteTable, Drifted;
      F.StepKeeps(cfg, View(), F.LinksChange(Faded(links, quality)));
      FadingDrifts(asOf, Zone(), quality);
      links := Faded(links, quality);
    }

    /** A battery runs down. No route is recomputed. */
    method SetBattery(id: NodeId, charge: real)
      requires Valid()
      modifies this`nodes
      ensures View() == F.Step(cfg, old(View()), F.BatteryChange(id, charge)) && Valid()
    {
      hide F.Inv, R.IsRouteTable, Drifted;
      F.StepKeeps(cfg, View(), F.BatteryChange(id, charge));
      RechargingDrifts(asOf, Zone(), id, charge);
      if id in nodes { nodes := nodes[id := nodes[id].(battery := charge)]; }
    }

    /** The route the next frame to `dst` takes. It is a least-cost one for the zone as it
        was when routes were last computed, which is now if they were marked stale; none
        only if there was none, or a least-cost one was too long. It is the best for the
        zone as it is now if the zone still offers the same hops at the same cost, or if
        what has drifted since favours it. */
    method Route(dst: NodeId) returns (path: seq<NodeId>, ok: bool)
      requires Valid()
      modifies this`routes, this`routesDirty, this`asOf
      ensures Valid() && View() == old(View()) && !routesDirty
      ensures asOf == if old(routesDirty) then Zone() else old(asOf)
      ensures coord == "" ==> !ok
      ensures coord != "" ==> Drifted(asOf, Zone()) && Promised(asOf, cfg.maxDepth, dst, path, ok)
      ensures coord != "" && L.SameHops(asOf, Zone()) ==> Promised(Zone(), cfg.maxDepth, dst, path, ok)
      ensures coord != "" && ok && D.Favours(asOf, Zone(), path) ==> IsLeastPath(Zone(), path, dst)
    {
      hide F.Inv, Drifted;
      if routesDirty {
        RecomputeRoutes();
        NoDrift(Zone());
      }
      ok := dst in routes;
      path := if ok then routes[dst] else [];
      if coord != "" && L.SameHops(asOf, Zone()) { L.RoutesFollowHops(asOf, Zone(), cfg.maxDepth, routes); }
      if coord != "" && ok && D.Favours(asOf, Zone(), path) { D.FavouredStaysLeast(asOf, Zone(), path, dst); }
    }
  }

  /** What a look-up in a routing table of `t` promises. */
  ghost predicate Promised(t: Topology, maxDepth: int, dst: NodeId, path: seq<NodeId>, ok: bool) {
    && (ok ==> dst != t.coord && IsLeastPath(t, path, dst) && Hops(path) <= maxDepth)
    && (!ok && dst != t.coord ==> (forall p :: !IsPath(t, p, dst)) || R.HasLongLeastPath(t, maxDepth, dst))
  }

  /** Since `t`, links have changed in quality and batteries in charge, and radios may
      have been registered that nobody hears; nothing else. */
  ghost predicate Drifted(t: Topology, u: Topology) {
    && u.coord == t.coord && u.neighbours == t.neighbours && u.links.Keys == t.links.Keys
    && (forall k :: k in t.links ==> u.links[k].cut == t.links[k].cut && u.links[k].avoided == t.links[k].avoided)
    && (forall x :: x in t.nodes ==> x in u.nodes && u.nodes[x] == t.nodes[x].(battery := u.nodes[x].battery))
  }

  lemma NoDrift(t: Topology)
    ensures Drifted(t, t)
  {
  }

  lemma OneMoreRadio(t: Topology, u: Topology, id: NodeId, n: Node)
    ensures Drifted(t, u) && id !in u.nodes ==> Drifted(t, u.(nodes := u.nodes[id := n]))
  {
  }

  lemma FadingDrifts(t: Topology, u: Topology, quality: LinkKey -> int)
    ensures Drifted(t, u) ==> Drifted(t, u.(links := Faded(u.links, quality)))
  {
  }

  lemma RechargingDrifts(t: Topology, u: Topology, id: NodeId, charge: real)
    ensures Drifted(t, u) ==> Drifted(t, F.Recharged(u, id, charge))
  {
  }

  function Faded(links: map<LinkKey, Link>, quality: LinkKey -> int): (r: map<LinkKey, Link>)
    ensures r.Keys == links.Keys
  {
    map k | k in links :: links[k].(lqi := quality(k))
  }

  function Relinked(links: map<LinkKey, Link>, key: LinkKey, link: Link): (r: map<LinkKey, Link>)
    ensures r.Keys == links.Keys && (key !in links ==> r == links)
  {
    if key in links then links[key := link] else links
  }

  /** Drift that moves no link to another cost step or across the usable limit, and no
      relay across the low-battery limit, leaves every hop and its cost as they were, so
      the routes are still the best. */
  lemma HarmlessDrift(cfg: F.Config, t: Topology, u: Topology)
    requires Drifted(t, u) && NT.TablesOk(t, cfg.range, {}) && t.coord in t.nodes
    requires forall k :: k in t.links ==> LinkCost(u.links[k].lqi) == LinkCost(t.links[k].lqi)
                                          && (u.links[k].lqi >= 20 <==> t.links[k].lqi >= 20)
    requires forall x :: x in t.nodes ==> (u.nodes[x].battery < 0.2 <==> t.nodes[x].battery < 0.2)
    ensures L.SameHops(t, u)
  {
    hide NT.Simple, NT.Symmetric, NT.LinksMatch, NT.Within, LinkCost, Less;
    forall a, b
      ensures Usable(t, a, b) <==> Usable(u, a, b)
      ensures Usable(t, a, b) ==> HopCost(t, a, b) == HopCost(u, a, b)
    {
      assert b in Peers(t.neighbours, a) ==> NT.Near(t.nodes, a, b, cfg.range);
    }
  }

  lemma MeetsFirst(t: Topology, id: NodeId, candidates: seq<NodeId>, i: nat, lqi: NodeId -> int)
    requires i < |candidates| && forall x :: x in candidates ==> x in t.nodes
    ensures var x := candidates[i];
            NT.MetAll(t, id, candidates[i..], lqi) ==
            NT.MetAll(NT.Trimmed(NT.Met(t, id, x, lqi(x)), x), id, candidates[i + 1..], lqi)
  {
    hide NT.Trimmed, NT.Met;
    assert candidates[i..][0] == candidates[i] && candidates[i..][1..] == candidates[i + 1..];
  }

  lemma MeetsNone(t: Topology, id: NodeId, candidates: seq<NodeId>, lqi: NodeId -> int)
    requires candidates == []
    ensures NT.MetAll(t, id, candidates, lqi) == t
  {
  }

  /** The link `k` carries a hop of `p`. */
  predicate Carries(p: seq<NodeId>, k: LinkKey) {
    exists i :: 0 <= i < |p| - 1 && HopKey(p, i) == k
  }

  function HopKey(p: seq<NodeId>, i: nat): LinkKey
    requires i + 1 < |p|
  {
    MakeLinkKey(p[i], p[i + 1])
  }

  /** On the links of `p` quality has not fallen by a cost step or below the usable limit; on
      the others it has not risen so; no relay of `p` has run low and none anywhere has recovered. */
  ghost predicate DriftsAside(t: Topology, u: Topology, p: seq<NodeId>)
    requires Drifted(t, u)
  {
    && (forall i :: 0 <= i < |p| - 1 && HopKey(p, i) in t.links ==>
          && u.links[HopKey(p, i)].lqi >= 20
          && LinkCost(u.links[HopKey(p, i)].lqi) <= LinkCost(t.links[HopKey(p, i)].lqi))
    && (forall k :: k in t.links && !Carries(p, k) ==>
          LinkCost(t.links[k].lqi) <= LinkCost(u.links[k].lqi) && (u.links[k].lqi >= 20 ==> t.links[k].lqi >= 20))
    && (forall x :: x in t.nodes && t.nodes[x].battery < 0.2 ==> u.nodes[x].battery < 0.2)
    && (forall x :: x in p && x in t.nodes && u.nodes[x].battery < 0.2 ==> t.nodes[x].battery < 0.2)
  }

  /** Such drift favours `p`, so a route that was the best still is. */
  lemma DriftAsideFavours(cfg: F.Config, t: Topology, u: Topology, p: seq<NodeId>, v: NodeId)
    requires Drifted(t, u) && NT.TablesOk(t, cfg.range, {}) && t.coord in t.nodes
    requires IsPath(t, p, v) && DriftsAside(t, u, p)
    ensures D.Favours(t, u, p)
  {
    hide NT.Simple, NT.Symmetric, NT.LinksMatch, NT.Within, LinkCost, MakeLinkKey;
    forall i | 0 <= i < |p| - 1
      ensures D.NoDearer(t, u, p[i], p[i + 1])
    {
      assert Usable(t, p[i], p[i + 1]) && HopKey(p, i) in t.links;
      assert p[i + 1] in p && NT.Near(t.nodes, p[i], p[i + 1], cfg.range);
    }
    forall a, b | Usable(u, a, b) && !D.Along(p, a, b)
      ensures D.NoDearer(u, t, a, b)
    {
      NotCarried(p, a, b);
      assert b in Peers(t.neighbours, a) && NT.Near(t.nodes, a, b, cfg.range);
    }
  }

  lemma NotCarried(p: seq<NodeId>, a: NodeId, b: NodeId)
    requires !D.Along(p, a, b)
    ensures !Carries(p, MakeLinkKey(a, b))
  {
    forall i | 0 <= i < |p| - 1
      ensures HopKey(p, i) != MakeLinkKey(a, b)
    {
      assert !D.Joins(p, i, a, b);
    }
  }

  method RemoveFirst(s: seq<NodeId>, x: NodeId) returns (r: seq<NodeId>)
    ensures r == NT.Without(s, x)
  {
    var i := 0;
    while i < |s| && s[i] != x
      invariant 0 <= i <= |s|
      invariant NT.Without(s, x) == s[..i] + NT.Without(s[i..], x)
    {
      i := i + 1;
    }
    r := if i < |s| then s[..i] + s[i + 1..] else s;
  }

  lemma SortedNone(o: NT.Preference, s: seq<NodeId>)
    requires s == []
    ensures NT.Sorted(o, s) == []
  {
  }

  lemma SortedOne(o: NT.Preference, s: seq<NodeId>, i: nat)
    requires i < |s|
    ensures var r := NT.Sorted(o, s[..i]);
            var k := NT.Place(o, r, s[i]);
            NT.Sorted(o, s[..i + 1]) == r[..k] + [s[i]] + r[k..]
  {
    assert s[..i + 1][..i] == s[..i];
  }

  method SortPeers(o: NT.Preference, s: seq<NodeId>) returns (r: seq<NodeId>)
    ensures r == NT.Sorted(o, s)
  {
    hide NT.Sorted;
    r := [];
    var i := 0;
    SortedNone(o, s[..0]);
    while i < |s|
      invariant 0 <= i <= |s|
      invariant r == NT.Sorted(o, s[..i])
    {
      var k := 0;
      while k < |r| && !NT.Before(o, s[i], r[k])
        invariant 0 <= k <= |r|
        invariant forall j :: 0 <= j < k ==> !NT.Before(o, s[i], r[j])
      {
        k := k + 1;
      }
      SortedOne(o, s, i);
      r := r[..k] + [s[i]] + r[k..];
      i := i + 1;
    }
    assert s[..i] == s;
  }
}
