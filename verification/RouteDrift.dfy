/** When a route stays best although the zone has drifted since it was computed: its own
    hops may improve, in either direction, and every other hop may worsen or vanish. */
module RouteDrift {
  import opened MeshModel
  import opened MeshRoutes
  import opened MeshRouteLaws

  /** A hop of `p`, or the same hop the other way. */
  predicate Along(p: seq<NodeId>, a: NodeId, b: NodeId) {
    exists i :: 0 <= i < |p| - 1 && Joins(p, i, a, b)
  }

  predicate Joins(p: seq<NodeId>, i: nat, a: NodeId, b: NodeId)
    requires i + 1 < |p|
  {
    (a == p[i] && b == p[i + 1]) || (a == p[i + 1] && b == p[i])
  }

  predicate NoDearer(t: Topology, u: Topology, a: NodeId, b: NodeId) {
    Usable(t, a, b) && Usable(u, a, b) && HopCost(u, a, b) <= HopCost(t, a, b)
  }

  /** From `t` to `u` no hop of `p` became dearer or unusable, and no hop apart from `p`
      became cheaper or newly usable. */
  ghost predicate Favours(t: Topology, u: Topology, p: seq<NodeId>) {
    && u.coord == t.coord
    && (forall i :: 0 <= i < |p| - 1 ==> NoDearer(t, u, p[i], p[i + 1]))
    && (forall a, b :: Usable(u, a, b) && !Along(p, a, b) ==> NoDearer(u, t, a, b))
  }

  /** Every hop of `s` is no dearer in `u`. */
  ghost predicate AllNoDearer(t: Topology, u: Topology, s: seq<NodeId>) {
    forall i :: 0 <= i < |s| - 1 ==> NoDearer(t, u, s[i], s[i + 1])
  }

  lemma {:induction false} NoDearerCost(t: Topology, u: Topology, s: seq<NodeId>)
    requires AllNoDearer(t, u, s)
    ensures Connected(t, s) && Connected(u, s) && PathCost(u, s) <= PathCost(t, s)
    decreases |s|
  {
    hide Usable, HopCost;
    if |s| > 1 {
      NoDearerCost(t, u, s[..|s| - 1]);
      assert NoDearer(t, u, s[|s| - 2], s[|s| - 1]);
    }
  }

  /** Two stretches that meet. */
  lemma Concat(t: Topology, a: seq<NodeId>, b: seq<NodeId>)
    requires |a| >= 1 && |b| >= 1 && a[|a| - 1] == b[0] && Connected(t, a) && Connected(t, b)
    ensures Connected(t, a + b[1..]) && PathCost(t, a + b[1..]) == PathCost(t, a) + PathCost(t, b)
  {
    hide Usable, HopCost, PathCost;
    var c := a + b[1..];
    forall k | 0 <= k < |c| - 1
      ensures Usable(t, c[k], c[k + 1])
    {
      if k < |a| - 1 {
        assert c[k] == a[k] && c[k + 1] == a[k + 1];
      } else {
        assert c[k] == b[k - |a| + 1] && c[k + 1] == b[k - |a| + 2];
      }
    }
    CostSplits(t, c, |a| - 1);
    assert c[..|a|] == a && c[|a| - 1..] == b;
  }

  /** Between two of its nodes a least path is as cheap as any stretch. */
  lemma StretchIsLeast(t: Topology, p: seq<NodeId>, v: NodeId, i: nat, j: nat, s: seq<NodeId>)
    requires IsLeastPath(t, p, v) && i <= j < |p|
    requires |s| >= 1 && Connected(t, s) && s[0] == p[i] && s[|s| - 1] == p[j]
    ensures Connected(t, p[i..j + 1]) && PathCost(t, p[i..j + 1]) <= PathCost(t, s)
  {
    hide Usable, HopCost, PathCost, Connected, IsLeastPath;
    PathsConnect(t, p, v);
    ThreeParts(t, p, i, j);
    Concat(t, p[..i + 1], s);
    var q := p[..i + 1] + s[1..];
    Concat(t, q, p[j..]);
    Undercut(t, p, v, q + p[j..][1..]);
  }

  lemma PathsConnect(t: Topology, p: seq<NodeId>, v: NodeId)
    requires IsLeastPath(t, p, v)
    ensures Connected(t, p) && |p| >= 1
  {
  }

  lemma Undercut(t: Topology, p: seq<NodeId>, v: NodeId, q: seq<NodeId>)
    requires IsLeastPath(t, p, v) && Connected(t, q) && |q| >= 1 && q[0] == p[0] && q[|q| - 1] == p[|p| - 1]
    ensures Connected(t, p) && PathCost(t, p) <= PathCost(t, q)
  {
    hide Usable, HopCost, PathCost;
    assert IsPath(t, q, v);
  }

  lemma ThreeParts(t: Topology, p: seq<NodeId>, i: nat, j: nat)
    requires Connected(t, p) && i <= j < |p|
    ensures Connected(t, p[..i + 1]) && Connected(t, p[i..j + 1]) && Connected(t, p[j..])
    ensures PathCost(t, p) == PathCost(t, p[..i + 1]) + PathCost(t, p[i..j + 1]) + PathCost(t, p[j..])
  {
    hide Usable, HopCost, PathCost, Connected;
    var tail := p[i..];
    CostSplits(t, p, i);
    CostSplits(t, tail, j - i);
    assert tail[..j - i + 1] == p[i..j + 1] && tail[j - i..] == p[j..];
  }

  /** A stretch of `q` with no hop along `p`, in the drifted zone. */
  lemma ApartIsNoCheaper(t: Topology, u: Topology, p: seq<NodeId>, s: seq<NodeId>)
    requires Favours(t, u, p) && Connected(u, s)
    requires forall k :: 0 <= k < |s| - 1 ==> !Along(p, s[k], s[k + 1])
    ensures Connected(t, s) && PathCost(t, s) <= PathCost(u, s)
  {
    hide Usable, HopCost, PathCost, Along;
    assert AllNoDearer(u, t, s);
    NoDearerCost(u, t, s);
  }

  /** Once at a node of `p` for no less than `p` itself pays, a stretch apart from `p` gains
      nothing. */
  lemma ApartGainsNothing(t: Topology, u: Topology, p: seq<NodeId>, v: NodeId, i: nat, j: nat, s: seq<NodeId>)
    requires IsLeastPath(t, p, v) && Favours(t, u, p) && i < |p| && j < |p|
    requires |s| >= 1 && Connected(u, s) && s[0] == p[i] && s[|s| - 1] == p[j]
    requires forall k :: 0 <= k < |s| - 1 ==> !Along(p, s[k], s[k + 1])
    ensures Connected(u, p[..i + 1]) && Connected(u, p[..j + 1])
    ensures PathCost(u, p[..j + 1]) <= PathCost(u, p[..i + 1]) + PathCost(u, s)
  {
    hide Usable, HopCost, PathCost, Along;
    assert AllNoDearer(t, u, p);
    NoDearerCost(t, u, p);
    if i <= j {
      ApartIsNoCheaper(t, u, p, s);
      StretchIsLeast(t, p, v, i, j, s);
      NoDearerCost(t, u, p[i..j + 1]);
      CostSplits(u, p[..j + 1], i);
      assert p[..j + 1][..i + 1] == p[..i + 1] && p[..j + 1][i..] == p[i..j + 1];
    } else {
      CostSplits(u, p[..i + 1], j);
      assert p[..i + 1][..j + 1] == p[..j + 1];
    }
  }

  /** The last hop of `q` along `p`, if there is one. */
  lemma {:induction false} LastAlong(p: seq<NodeId>, q: seq<NodeId>, from: nat) returns (m: nat)
    requires from < |q|
    requires forall k :: from <= k < |q| - 1 ==> !Along(p, q[k], q[k + 1])
    ensures m <= from && (m > 0 ==> Along(p, q[m - 1], q[m]))
    ensures forall k :: m <= k < |q| - 1 ==> !Along(p, q[k], q[k + 1])
    decreases from
  {
    hide Along;
    if from == 0 || Along(p, q[from - 1], q[from]) { m := from; } else { m := LastAlong(p, q, from - 1); }
  }

  /** In the drifted zone nothing reaches a node of `p` for less than `p` does. */
  lemma {:induction false} StillLeastAt(t: Topology, u: Topology, p: seq<NodeId>, v: NodeId, q: seq<NodeId>, j: nat)
    requires IsLeastPath(t, p, v) && Favours(t, u, p) && j < |p| && IsPath(u, q, p[j])
    ensures Connected(u, p[..j + 1]) && PathCost(u, p[..j + 1]) <= PathCost(u, q)
    decreases |q|
  {
    hide Usable, HopCost, PathCost, Along, IsLeastPath, Favours;
    Ends(t, u, p, v);
    var m := LastAlong(p, q, |q| - 1);
    var s := q[m..];
    forall k | 0 <= k < |s| - 1
      ensures !Along(p, s[k], s[k + 1])
    {
      assert s[k] == q[k + m] && s[k + 1] == q[k + m + 1];
    }
    CostSplits(u, q, m);
    if m == 0 {
      ApartGainsNothing(t, u, p, v, 0, j, s);
      NoHops(u, p[..1]);
      NoHops(u, q[..1]);
    } else {
      var i, l := AlongAt(p, q[m - 1], q[m]);
      var before := q[..m];
      StillLeastAt(t, u, p, v, before, i);
      assert q[..m + 1][..m] == before;
      LastHop(u, q[..m + 1]);
      OneHopOn(t, u, p, i, l);
      ApartGainsNothing(t, u, p, v, l, j, s);
    }
  }

  lemma Ends(t: Topology, u: Topology, p: seq<NodeId>, v: NodeId)
    requires IsLeastPath(t, p, v) && Favours(t, u, p)
    ensures |p| >= 1 && p[0] == t.coord == u.coord && p[|p| - 1] == v
  {
  }

  lemma AlongAt(p: seq<NodeId>, a: NodeId, b: NodeId) returns (i: nat, l: nat)
    requires Along(p, a, b)
    ensures i < |p| && l < |p| && a == p[i] && b == p[l] && (l == i + 1 || l + 1 == i)
  {
    var k :| 0 <= k < |p| - 1 && Joins(p, k, a, b);
    if a == p[k] && b == p[k + 1] { i, l := k, k + 1; } else { i, l := k + 1, k; }
  }

  /** One hop along `p`, either way, takes it at most as far as `p` pays. */
  lemma OneHopOn(t: Topology, u: Topology, p: seq<NodeId>, i: nat, l: nat)
    requires Favours(t, u, p) && i < |p| && l < |p| && (l == i + 1 || l + 1 == i) && Usable(u, p[i], p[l])
    ensures Connected(u, p[..i + 1]) && Connected(u, p[..l + 1])
    ensures PathCost(u, p[..l + 1]) <= PathCost(u, p[..i + 1]) + HopCost(u, p[i], p[l])
  {
    hide Usable, PathCost, Along;
    assert AllNoDearer(t, u, p);
    NoDearerCost(t, u, p);
    if l == i + 1 {
      LastHop(u, p[..l + 1]);
      assert p[..l + 1][..l] == p[..i + 1];
    } else {
      LastHop(u, p[..i + 1]);
      assert p[..i + 1][..i] == p[..l + 1];
    }
  }

  /** A least path that the drift favours is still a least path. */
  lemma FavouredStaysLeast(t: Topology, u: Topology, p: seq<NodeId>, v: NodeId)
    requires IsLeastPath(t, p, v) && Favours(t, u, p)
    ensures IsLeastPath(u, p, v)
  {
    hide Usable, HopCost, PathCost, Along;
    var n := |p| - 1;
    assert AllNoDearer(t, u, p);
    NoDearerCost(t, u, p);
    assert p[..n + 1] == p;
    forall q | IsPath(u, q, v)
      ensures PathCost(u, p) <= PathCost(u, q)
    {
      StillLeastAt(t, u, p, v, q, n);
    }
  }
}
