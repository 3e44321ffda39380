/** The gateway's hybrid logical clock. */
module HybridClock {
  import opened Common
  import opened Ordering

  const MAX_LOGICAL := 0xffff_ffff
  const NANOS_PER_MILLI := 1_000_000
  const DEFAULT_MAX_SKEW := 600_000_000_000

  type Logical = n: int | 0 <= n <= MAX_LOGICAL

  /** `wall` is Unix milliseconds. */
  datatype Stamp = Stamp(wall: int, logical: Logical, node: string)

  function Compare(a: Stamp, b: Stamp): int {
    if a.wall != b.wall then (if a.wall < b.wall then -1 else 1)
    else if a.logical != b.logical then (if a.logical < b.logical then -1 else 1)
    else if a.node != b.node then (if Less(a.node, b.node) then -1 else 1)
    else 0
  }

  predicate Before(a: Stamp, b: Stamp) { Compare(a, b) < 0 }

  /** Stamps are totally ordered: equality is the only tie, swapping the operands
      flips the sign, and the order is transitive. */
  lemma CompareIsTotalOrder(a: Stamp, b: Stamp, c: Stamp)
    ensures Compare(a, b) == 0 <==> a == b
    ensures Compare(b, a) == -Compare(a, b)
    ensures Before(a, b) && Before(b, c) ==> Before(a, c)
  {
    LessTotal(a.node, b.node);
    LessTotal(b.node, c.node);
    if Less(a.node, b.node) && Less(b.node, c.node) { LessTransitive(a.node, b.node, c.node); }
    if Less(c.node, b.node) && Less(b.node, a.node) { LessTransitive(c.node, b.node, a.node); }
    LessTotal(a.node, c.node);
  }

  /** The earlier wall time comes first, then the lesser counter, then the lesser name. */
  lemma BeforeExactly(a: Stamp, b: Stamp)
    ensures Before(a, b) <==>
            || a.wall < b.wall
            || (a.wall == b.wall && a.logical < b.logical)
            || (a.wall == b.wall && a.logical == b.logical && Less(a.node, b.node))
  {
    LessTotal(a.node, b.node);
  }

  // ----- one step -----

  /** A 32-bit increment. */
  function Next(n: Logical): Logical { (n + 1) % TWO_TO_32 }

  /** Advances without a peer: physical time if it moved on, the counter if not. */
  function Tick(last: Stamp, node: string, pt: int): Stamp {
    if pt > last.wall then Stamp(pt, 0, node) else Stamp(last.wall, Next(last.logical), node)
  }

  /** How far the peer's physical clock is ahead, as a 64-bit count of nanoseconds. */
  function Skew(remote: Stamp, pt: int): int {
    ToInt64(ToInt64(remote.wall - pt) * NANOS_PER_MILLI)
  }

  predicate Refused(remote: Stamp, pt: int, maxSkew: int) { Skew(remote, pt) > maxSkew }

  function Max(a: int, b: int): int { if a < b then b else a }

  /** Merges an accepted peer stamp. */
  function Merge(last: Stamp, node: string, pt: int, remote: Stamp): Stamp {
    var wall := Max(Max(pt, remote.wall), last.wall);
    if wall == last.wall && wall == remote.wall then
      Stamp(wall, Next(if remote.logical > last.logical then remote.logical else last.logical), node)
    else if wall == last.wall then Stamp(wall, Next(last.logical), node)
    else if wall == remote.wall then Stamp(wall, Next(remote.logical), node)
    else Stamp(wall, 0, node)
  }

  datatype Event = Now(pt: int) | Observe(pt: int, remote: Stamp)

  /** The stamp an event issues, which is also the clock's new reading. */
  function Issue(last: Stamp, node: string, maxSkew: int, e: Event): Stamp {
    match e
    case Now(pt) => Tick(last, node, pt)
    case Observe(pt, remote) =>
      if Refused(remote, pt, maxSkew) then Tick(last, node, pt) else Merge(last, node, pt, remote)
  }

  predicate Adopted(maxSkew: int, e: Event) {
    e.Observe? && !Refused(e.remote, e.pt, maxSkew)
  }

  class Clock {
    const node: string
    const maxSkew: int
    var last: Stamp
    var skew: int
    var worst: int
    var rejected: nat
    var adopted: nat

    /** A limit that is not positive means ten minutes. */
    constructor (node: string, maxSkew: int)
      ensures this.node == node && last == Stamp(0, 0, "")
      ensures this.maxSkew == (if maxSkew <= 0 then 10 * 60 * 1000 * NANOS_PER_MILLI else maxSkew) && this.maxSkew > 0
      ensures skew == 0 && worst == 0 && rejected == 0 && adopted == 0
    {
      this.node, this.maxSkew := node, if maxSkew <= 0 then DEFAULT_MAX_SKEW else maxSkew;
      last := Stamp(0, 0, "");
      skew, worst, rejected, adopted := 0, 0, 0, 0;
    }

    method Now(pt: int) returns (s: Stamp)
      modifies this`last
      ensures s == last == Issue(old(last), node, maxSkew, Event.Now(pt))
    {
      if pt > last.wall {
        last := Stamp(pt, 0, node);
      } else {
        last := Stamp(last.wall, (last.logical + 1) % TWO_TO_32, node);
      }
      return last;
    }

    method Observe(pt: int, remote: Stamp) returns (s: Stamp, ok: bool)
      modifies this
      ensures s == last == Issue(old(last), node, maxSkew, Event.Observe(pt, remote))
      ensures ok == Adopted(maxSkew, Event.Observe(pt, remote))
      ensures skew == Skew(remote, pt)
      ensures worst == Max(old(worst), if skew < 0 then ToInt64(-skew) else skew)
      ensures rejected == old(rejected) + (if ok then 0 else 1)
      ensures adopted == old(adopted) + (if ok then 1 else 0)
    {
      skew := Skew(remote, pt);
      var abs := if skew < 0 then ToInt64(-skew) else skew;
      if abs > worst { worst := abs; }
      if skew > maxSkew {
        rejected := rejected + 1;
        s := Now(pt);
        return s, false;
      }
      adopted := adopted + 1;
      var maxWall := pt;
      if remote.wall > maxWall { maxWall := remote.wall; }
      if last.wall > maxWall { maxWall := last.wall; }
      if maxWall == last.wall && maxWall == remote.wall {
        if remote.logical > last.logical { last := last.(logical := remote.logical); }
        last := last.(logical := (last.logical + 1) % TWO_TO_32);
      } else if maxWall == last.wall {
        last := last.(logical := (last.logical + 1) % TWO_TO_32);
      } else if maxWall == remote.wall {
        last := last.(wall := remote.wall, logical := (remote.logical + 1) % TWO_TO_32);
      } else {
        last := last.(wall := maxWall, logical := 0);
      }
      last := last.(node := node);
      return last, true;
    }
  }

  /** The counter of a stamp, if its wall time is `wall`, and -1 if not. */
  function CounterAt(s: Stamp, wall: int): int { if s.wall == wall then s.logical else -1 }

  /** The stamp issued bears the greatest of the physical time, the last wall time and, if the
      peer's stamp was adopted, its wall time; and a counter one above the greater of those that
      bear that time already, modulo 2^32, or 0 if none does. */
  lemma IssuedExactly(last: Stamp, node: string, maxSkew: int, e: Event)
    ensures var s, adopted := Issue(last, node, maxSkew, e), Adopted(maxSkew, e);
            && s.node == node
            && s.wall >= e.pt && s.wall >= last.wall && (adopted ==> s.wall >= e.remote.wall)
            && (s.wall == e.pt || s.wall == last.wall || (adopted && s.wall == e.remote.wall))
            && var l, r := CounterAt(last, s.wall), if adopted then CounterAt(e.remote, s.wall) else -1;
            && s.logical == ((if l > r then l else r) + 1) % TWO_TO_32
  {
    hide Refused;
  }

  // ----- when the 32-bit counter is the limit -----

  /** The event increments no counter that is already full. */
  predicate CounterHasRoom(last: Stamp, maxSkew: int, e: Event) {
    if Adopted(maxSkew, e) then
      var wall := Max(Max(e.pt, e.remote.wall), last.wall);
      && (wall == last.wall ==> last.logical < MAX_LOGICAL)
      && (wall == e.remote.wall ==> e.remote.logical < MAX_LOGICAL)
    else
      e.pt > last.wall || last.logical < MAX_LOGICAL
  }

  /** A stamp exceeds the previous one, and an adopted peer's, exactly when the
      counter it would increment is not full. */
  lemma IssueAdvances(last: Stamp, node: string, maxSkew: int, e: Event)
    ensures CounterHasRoom(last, maxSkew, e) <==>
            && Before(last, Issue(last, node, maxSkew, e))
            && (Adopted(maxSkew, e) ==> Before(e.remote, Issue(last, node, maxSkew, e)))
  {
    hide Refused;
  }

  // ----- runs -----

  /** The stamps a run of events issues. */
  function Stamps(last: Stamp, node: string, maxSkew: int, events: seq<Event>): (s: seq<Stamp>)
    ensures |s| == |events|
  {
    if |events| == 0 then []
    else
      var rest := Stamps(last, node, maxSkew, events[..|events| - 1]);
      rest + [Issue(Reading(last, rest), node, maxSkew, events[|events| - 1])]
  }

  /** The clock's reading after issuing `stamps`. */
  function Reading(last: Stamp, stamps: seq<Stamp>): Stamp {
    if |stamps| == 0 then last else stamps[|stamps| - 1]
  }

  predicate RoomThroughout(last: Stamp, node: string, maxSkew: int, events: seq<Event>) {
    |events| == 0 ||
    (var before := events[..|events| - 1];
     && RoomThroughout(last, node, maxSkew, before)
     && CounterHasRoom(Reading(last, Stamps(last, node, maxSkew, before)), maxSkew, events[|events| - 1]))
  }

  /** Every stamp exceeds `last` and all the stamps before it. */
  predicate Increasing(last: Stamp, s: seq<Stamp>) {
    && (forall i :: 0 <= i < |s| ==> Before(last, s[i]))
    && (forall i, j :: 0 <= i < j < |s| ==> Before(s[i], s[j]))
  }

  lemma AppendIncreasing(last: Stamp, s: seq<Stamp>, next: Stamp)
    requires Increasing(last, s) && Before(Reading(last, s), next)
    ensures Increasing(last, s + [next])
  {
    if |s| > 0 {
      CompareIsTotalOrder(last, s[|s| - 1], next);
      forall i | 0 <= i < |s|
        ensures Before(s[i], next)
      {
        CompareIsTotalOrder(s[i], s[|s| - 1], next);
      }
    }
  }

  /** In every run each stamp exceeds the initial reading and all earlier stamps,
      and an adopted peer's stamp, however the physical clock jumps. */
  lemma {:induction false} StampsIncrease(last: Stamp, node: string, maxSkew: int, events: seq<Event>)
    requires RoomThroughout(last, node, maxSkew, events)
    ensures var s := Stamps(last, node, maxSkew, events);
            && Increasing(last, s)
            && forall i :: 0 <= i < |s| && Adopted(maxSkew, events[i]) ==> Before(events[i].remote, s[i])
    decreases |events|
  {
    if |events| > 0 {
      var n := |events| - 1;
      var before := events[..n];
      StampsIncrease(last, node, maxSkew, before);
      var s := Stamps(last, node, maxSkew, before);
      var now := Reading(last, s);
      IssueAdvances(now, node, maxSkew, events[n]);
      hide CounterHasRoom, Issue, Compare, Adopted, Increasing;
      AppendIncreasing(last, s, Issue(now, node, maxSkew, events[n]));
    }
  }

  /** The peer's lead in nanoseconds fits a 64-bit count. */
  predicate SkewFits(e: Event) {
    e.Observe? ==> -TWO_TO_63 <= (e.remote.wall - e.pt) * NANOS_PER_MILLI < TWO_TO_63
  }

  lemma WrapIsIdentity(x: int)
    requires -TWO_TO_63 <= x < TWO_TO_63
    ensures ToInt64(x) == x
  {
  }

  /** Without wrap-around a peer is refused exactly when it is more than `maxSkew` ahead. */
  lemma RefusedExactly(remote: Stamp, pt: int, maxSkew: int)
    requires SkewFits(Observe(pt, remote))
    ensures Refused(remote, pt, maxSkew) <==> (remote.wall - pt) * NANOS_PER_MILLI > maxSkew
  {
    WrapIsIdentity(remote.wall - pt);
    WrapIsIdentity((remote.wall - pt) * NANOS_PER_MILLI);
  }

  /** The peer's lead over the physical clock, in nanoseconds. */
  function Lead(remote: Stamp, pt: int): int { (remote.wall - pt) * NANOS_PER_MILLI }

  predicate InWindow(lead: int, maxSkew: int, k: int) {
    maxSkew + k * TWO_TO_64 < lead < TWO_TO_63 + k * TWO_TO_64
  }

  /** In general the refused leads are those in one of the windows from `maxSkew` up that
      recur every 2^64 nanoseconds, about 584 years. */
  lemma RefusedInWindows(remote: Stamp, pt: int, maxSkew: int)
    requires 0 <= maxSkew < TWO_TO_63
    ensures Refused(remote, pt, maxSkew) <==> exists k: int :: InWindow(Lead(remote, pt), maxSkew, k)
  {
    var lead := Lead(remote, pt);
    WrappedFactor(remote.wall - pt);
    if Refused(remote, pt, maxSkew) { assert InWindow(lead, maxSkew, lead / TWO_TO_64); }
    if exists k: int :: InWindow(lead, maxSkew, k) {
      var k: int :| InWindow(lead, maxSkew, k);
      assert lead / TWO_TO_64 == k;
    }
  }

  lemma WrapTurns(x: int, k: int)
    ensures ToInt64(x + k * TWO_TO_64) == ToInt64(x)
  {
    assert (x + k * TWO_TO_64) % TWO_TO_64 == x % TWO_TO_64;
  }

  /** Wrapping the difference before it is scaled makes no difference. */
  lemma WrappedFactor(d: int)
    ensures ToInt64(ToInt64(d) * NANOS_PER_MILLI) == ToInt64(d * NANOS_PER_MILLI)
  {
    var j := (d - ToInt64(d)) / TWO_TO_64;
    assert ToInt64(d) == d - j * TWO_TO_64;
    WrapTurns(d * NANOS_PER_MILLI, -j * NANOS_PER_MILLI);
  }

  /** So within 2^64 nanoseconds of the limit, either way, the guard is right exactly when
      the lead fits. */
  lemma RefusalRightExactly(remote: Stamp, pt: int, maxSkew: int)
    requires 0 <= maxSkew < TWO_TO_63 && -TWO_TO_64 + maxSkew < Lead(remote, pt) <= TWO_TO_64 + maxSkew
    ensures (Refused(remote, pt, maxSkew) <==> Lead(remote, pt) > maxSkew) <==> SkewFits(Observe(pt, remote))
  {
    assert ToInt64(remote.wall - pt) == remote.wall - pt;
  }

  /** With it, a peer centuries ahead can read as less than a millisecond ahead and be adopted. */
  lemma SkewWrapAdmits()
    ensures !Refused(Stamp(18_446_744_073_710, 0, "peer"), 0, 600_000_000_000)
  {
  }

  /** The greatest wall time the physical readings so far can justify. */
  function Horizon(start: int, maxSkew: int, events: seq<Event>): int {
    if |events| == 0 then start
    else Max(Horizon(start, maxSkew, events[..|events| - 1]), events[|events| - 1].pt + maxSkew / NANOS_PER_MILLI)
  }

  /** No run drags the clock more than `maxSkew` past the greatest physical reading. */
  lemma {:induction false} WallIsBounded(last: Stamp, node: string, maxSkew: int, events: seq<Event>)
    requires maxSkew >= 0
    requires forall i :: 0 <= i < |events| ==> SkewFits(events[i])
    ensures Reading(last, Stamps(last, node, maxSkew, events)).wall <= Horizon(last.wall, maxSkew, events)
    decreases |events|
  {
    if |events| > 0 {
      var e := events[|events| - 1];
      WallIsBounded(last, node, maxSkew, events[..|events| - 1]);
      assert SkewFits(e);
      if e.Observe? { RefusedExactly(e.remote, e.pt, maxSkew); }
      hide Refused;
    }
  }
}
