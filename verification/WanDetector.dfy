/** The gateway's WAN detector: mode changes with hysteresis. */
module WanDetector {

  datatype Mode = Connected | Autonomous

  /** Times are nanoseconds. The threshold counts and spans are the detector's configuration. */
  datatype Config = Config(failThreshold: int, failFor: int, recoverThreshold: int, recoverFor: int)

  datatype State = State(mode: Mode, consecFail: nat, consecOk: nat, firstFail: int, firstOk: int,
                         lastChange: int, probesRun: nat, probesFailed: nat, transitions: nat)

  const START := State(Connected, 0, 0, 0, 0, 0, 0, 0, 0)

  function Transition(s: State, to: Mode, now: int): State {
    s.(mode := to, lastChange := now, transitions := s.transitions + 1, consecFail := 0, consecOk := 0)
  }

  function Failure(s: State, now: int): State {
    s.(probesRun := s.probesRun + 1, probesFailed := s.probesFailed + 1, consecOk := 0, firstOk := 0,
       firstFail := if s.consecFail == 0 then now else s.firstFail, consecFail := s.consecFail + 1)
  }

  function Success(s: State, now: int): State {
    s.(probesRun := s.probesRun + 1, consecFail := 0, firstFail := 0,
       firstOk := if s.consecOk == 0 then now else s.firstOk, consecOk := s.consecOk + 1)
  }

  function Check(c: Config, s: State, now: int, ok: bool): State {
    if !ok then
      var f := Failure(s, now);
      if f.mode == Connected && f.consecFail >= c.failThreshold && now - f.firstFail >= c.failFor
      then Transition(f, Autonomous, now) else f
    else
      var g := Success(s, now);
      if g.mode == Autonomous && g.consecOk >= c.recoverThreshold && now - g.firstOk >= c.recoverFor
      then Transition(g, Connected, now) else g
  }

  function Force(s: State, to: Mode, now: int): State {
    if s.mode == to then s else Transition(s, to, now)
  }

  /** The detector itself; the probe's outcome and the clock reading are inputs. */
  class Detector {
    const cfg: Config
    var mode: Mode
    var consecFail: nat
    var consecOk: nat
    var firstFail: int
    var firstOk: int
    var lastChange: int
    var probesRun: nat
    var probesFailed: nat
    var transitions: nat

    ghost function View(): State
      reads this
    {
      State(mode, consecFail, consecOk, firstFail, firstOk, lastChange, probesRun, probesFailed, transitions)
    }

    constructor (cfg: Config)
      ensures this.cfg == cfg && View() == START
    {
      this.cfg := cfg;
      mode, consecFail, consecOk, firstFail, firstOk := Connected, 0, 0, 0, 0;
      lastChange, probesRun, probesFailed, transitions := 0, 0, 0, 0;
    }

    method ChangeTo(to: Mode, now: int)
      modifies this
      ensures View() == Transition(old(View()), to, now)
    {
      mode, lastChange, transitions := to, now, transitions + 1;
      consecFail, consecOk := 0, 0;
    }

    method Probe(now: int, linkUp: bool, probeOk: bool) returns (m: Mode)
      modifies this
      ensures View() == Check(cfg, old(View()), now, linkUp && probeOk) && m == mode
    {
      probesRun := probesRun + 1;
      if !(linkUp && probeOk) {
        probesFailed := probesFailed + 1;
        consecOk, firstOk := 0, 0;
        if consecFail == 0 { firstFail := now; }
        consecFail := consecFail + 1;
        if mode == Connected && consecFail >= cfg.failThreshold && now - firstFail >= cfg.failFor {
          ChangeTo(Autonomous, now);
        }
      } else {
        consecFail, firstFail := 0, 0;
        if consecOk == 0 { firstOk := now; }
        consecOk := consecOk + 1;
        if mode == Autonomous && consecOk >= cfg.recoverThreshold && now - firstOk >= cfg.recoverFor {
          ChangeTo(Connected, now);
        }
      }
      m := mode;
    }

    method ForceMode(to: Mode, now: int)
      modifies this
      ensures View() == Force(old(View()), to, now)
    {
      if mode != to { ChangeTo(to, now); }
    }
  }

  // ----- histories -----

  datatype Event = Probe(at: int, ok: bool) | Forced(at: int, to: Mode)

  function Step(c: Config, s: State, e: Event): State {
    match e
    case Probe(at, ok) => Check(c, s, at, ok)
    case Forced(at, to) => Force(s, to, at)
  }

  function Run(c: Config, events: seq<Event>): State {
    if |events| == 0 then START
    else Step(c, Run(c, events[..|events| - 1]), events[|events| - 1])
  }

  /** Clock readings never go back along a history. */
  predicate Monotone(events: seq<Event>) {
    forall i, j :: 0 <= i <= j < |events| ==> events[i].at <= events[j].at
  }

  // ----- what the counters count -----

  function Probes(events: seq<Event>): nat {
    if |events| == 0 then 0
    else Probes(events[..|events| - 1]) + (if events[|events| - 1].Probe? then 1 else 0)
  }

  /** `tail` holds only probes with this outcome, and forced changes. */
  predicate OnlyOutcome(tail: seq<Event>, ok: bool) {
    forall i :: 0 <= i < |tail| && tail[i].Probe? ==> tail[i].ok == ok
  }

  ghost predicate FirstProbeAt(tail: seq<Event>, at: int) {
    exists i :: 0 <= i < |tail| && tail[i].Probe? && tail[i].at == at && forall j :: 0 <= j < i ==> !tail[j].Probe?
  }

  function Count(s: State, ok: bool): nat { if ok then s.consecOk else s.consecFail }
  function First(s: State, ok: bool): int { if ok then s.firstOk else s.firstFail }

  /** The history from `k` on is the current run of one outcome: no mode change and
      no opposite probe in it, one of the two right before it, its probes counted
      and the first of them timed. */
  ghost predicate IsRun(c: Config, events: seq<Event>, ok: bool, k: nat) {
    && k <= |events|
    && OnlyOutcome(events[k..], ok)
    && Run(c, events[..k]).transitions == Run(c, events).transitions
    && (k > 0 ==>
          || events[k - 1] == Probe(events[k - 1].at, !ok)
          || Run(c, events[..k - 1]).transitions < Run(c, events[..k]).transitions)
    && Count(Run(c, events), ok) == Probes(events[k..])
    && (Count(Run(c, events), ok) > 0 ==> FirstProbeAt(events[k..], First(Run(c, events), ok)))
  }

  lemma FirstProbeKept(tail: seq<Event>, e: Event, at: int)
    requires FirstProbeAt(tail, at)
    ensures FirstProbeAt(tail + [e], at)
  {
    var i :| 0 <= i < |tail| && tail[i].Probe? && tail[i].at == at && forall j :: 0 <= j < i ==> !tail[j].Probe?;
    var t := tail + [e];
    assert t[i] == tail[i] && forall j :: 0 <= j < i ==> t[j] == tail[j];
  }

  lemma {:induction false} NoProbes(tail: seq<Event>)
    requires Probes(tail) == 0
    ensures forall i :: 0 <= i < |tail| ==> !tail[i].Probe?
    decreases |tail|
  {
    if |tail| > 0 { NoProbes(tail[..|tail| - 1]); }
  }

  /** `e` continues a run of this outcome: it neither changes the mode nor is an opposite probe. */
  predicate Continues(c: Config, s: State, e: Event, ok: bool) {
    Step(c, s, e).transitions == s.transitions && !(e.Probe? && e.ok != ok)
  }

  lemma CounterStep(c: Config, s: State, e: Event, ok: bool)
    ensures var t := Step(c, s, e);
            if Continues(c, s, e, ok) then
              && Count(t, ok) == Count(s, ok) + (if e.Probe? then 1 else 0)
              && (Count(s, ok) > 0 ==> First(t, ok) == First(s, ok))
              && (Count(s, ok) == 0 && e.Probe? ==> First(t, ok) == e.at)
            else
              && Count(t, ok) == 0
              && (s.transitions < t.transitions || (t.transitions == s.transitions && e == Probe(e.at, !ok)))
  {
  }

  lemma RunContinues(c: Config, before: seq<Event>, e: Event, ok: bool, k: nat)
    requires IsRun(c, before, ok, k) && Continues(c, Run(c, before), e, ok)
    ensures IsRun(c, before + [e], ok, k)
  {
    hide Step;
    var events, s, tail := before + [e], Run(c, before), before[k..];
    CounterStep(c, s, e, ok);
    assert events[..|before|] == before;
    assert Run(c, events).transitions == s.transitions;
    assert before[..k] == events[..k];
    assert k > 0 ==> before[..k - 1] == events[..k - 1] && before[k - 1] == events[k - 1];
    assert events[k..] == tail + [e];
    if Count(s, ok) > 0 {
      FirstProbeKept(tail, e, First(s, ok));
    } else if e.Probe? {
      NoProbes(tail);
      assert (tail + [e])[|tail|] == e;
      assert FirstProbeAt(tail + [e], e.at);
    }
  }

  lemma RunRestarts(c: Config, before: seq<Event>, e: Event, ok: bool)
    requires !Continues(c, Run(c, before), e, ok)
    ensures IsRun(c, before + [e], ok, |before| + 1)
  {
    var events := before + [e];
    CounterStep(c, Run(c, before), e, ok);
    hide Step, Continues;
    assert events[..|before|] == before && events[..|events|] == events && events[|events|..] == [];
  }

  /** After every history, each counter is the length of the current run of its
      outcome since the last mode change, whoever caused it. */
  lemma {:induction false} CountersMeasureRuns(c: Config, events: seq<Event>, ok: bool) returns (k: nat)
    ensures IsRun(c, events, ok, k)
    decreases |events|
  {
    k := |events|;
    if |events| > 0 {
      var before, e := events[..|events| - 1], events[|events| - 1];
      assert events == before + [e];
      if Continues(c, Run(c, before), e, ok) {
        k := CountersMeasureRuns(c, before, ok);
        RunContinues(c, before, e, ok, k);
      } else {
        RunRestarts(c, before, e, ok);
      }
    } else {
      assert events[..0] == events && events[0..] == events;
    }
  }

  // ----- when the mode may change -----

  /** The last event is a probe that changed the mode. */
  predicate EndsDriven(c: Config, events: seq<Event>) {
    && |events| > 0 && events[|events| - 1].Probe?
    && Run(c, events).mode != Run(c, events[..|events| - 1]).mode
  }

  /** A probe changes the mode only at the end of a run of its own outcome that has
      the threshold count, spans the threshold time and follows the last change. */
  lemma ChangeNeedsRun(c: Config, events: seq<Event>) returns (k: nat, first: int)
    requires EndsDriven(c, events)
    ensures var ok := Run(c, events).mode == Connected;
            && k <= |events| - 1 && OnlyOutcome(events[k..], ok)
            && Probes(events[k..]) >= (if ok then c.recoverThreshold else c.failThreshold)
            && FirstProbeAt(events[k..], first)
            && events[|events| - 1].at - first >= (if ok then c.recoverFor else c.failFor)
            && Run(c, events[..k]).transitions == Run(c, events[..|events| - 1]).transitions
  {
    var n := |events| - 1;
    var before, e := events[..n], events[n];
    var ok := e.ok;
    k := CountersMeasureRuns(c, before, ok);
    var s := Run(c, before);
    first := if Count(s, ok) == 0 then e.at else First(s, ok);
    var tail := before[k..];
    assert before[..k] == events[..k];
    assert events[k..] == tail + [e] && (tail + [e])[..|tail|] == tail;
    if Count(s, ok) == 0 {
      NoProbes(tail);
      assert (tail + [e])[|tail|] == e;
    } else {
      FirstProbeKept(tail, e, first);
    }
  }

  /** The evidence is fresh after every history whose clock does not go back. */
  lemma {:induction false} AlwaysFresh(c: Config, events: seq<Event>)
    requires Monotone(events) && |events| > 0
    ensures EvidenceFresh(Run(c, events), events[|events| - 1].at)
    decreases |events|
  {
    hide Step, EvidenceFresh;
    var n := |events| - 1;
    assert Monotone(events[..n]);
    if n > 0 {
      AlwaysFresh(c, events[..n]);
      EvidenceAges(Run(c, events[..n]), events[n - 1].at, events[n].at);
    } else {
      StartsFresh(events[n].at);
    }
    EvidenceStep(c, Run(c, events[..n]), events[n]);
  }

  lemma StartsFresh(at: int)
    ensures EvidenceFresh(START, at)
  {
  }

  lemma {:induction false} TransitionsGrow(c: Config, events: seq<Event>, k: nat)
    requires k <= |events|
    ensures Run(c, events[..k]).transitions <= Run(c, events).transitions
    decreases |events|
  {
    if k < |events| {
      var n := |events| - 1;
      TransitionsGrow(c, events[..n], k);
      assert events[..n][..k] == events[..k];
    } else {
      assert events[..k] == events;
    }
  }

  /** A stretch of one outcome with no mode change in it is counted and timed in full. */
  lemma {:induction false} StretchCounted(c: Config, events: seq<Event>, ok: bool, k: nat, first: int)
    requires Monotone(events) && k <= |events| && OnlyOutcome(events[k..], ok)
    requires Run(c, events[..k]).transitions == Run(c, events).transitions
    ensures Count(Run(c, events), ok) >= Probes(events[k..])
    ensures FirstProbeAt(events[k..], first) ==>
              Count(Run(c, events), ok) > 0 && First(Run(c, events), ok) <= first
    decreases |events|
  {
    hide Run, Step, EvidenceFresh, Monotone, OnlyOutcome, Probes, FirstProbeAt;
    if k < |events| {
      var n := |events| - 1;
      var before, e := events[..n], events[n];
      TailParts(c, events, k);
      TransitionsGrow(c, events, n);
      TransitionsGrow(c, before, k);
      LastOutcome(events, ok, k);
      CounterStep(c, Run(c, before), e, ok);
      StretchCounted(c, before, ok, k, first);
      if FirstProbeAt(events[k..], first) { StretchTimed(c, before, e, ok, k, first); }
    } else {
      NoStretch(events, k, first);
    }
  }

  lemma LastOutcome(events: seq<Event>, ok: bool, k: nat)
    requires k < |events| && OnlyOutcome(events[k..], ok)
    ensures events[|events| - 1].Probe? ==> events[|events| - 1].ok == ok
  {
    assert events[k..][|events| - 1 - k] == events[|events| - 1];
  }

  lemma NoStretch(events: seq<Event>, k: nat, first: int)
    requires k == |events|
    ensures Probes(events[k..]) == 0 && !FirstProbeAt(events[k..], first)
  {
  }

  lemma StretchTimed(c: Config, before: seq<Event>, e: Event, ok: bool, k: nat, first: int)
    requires k <= |before| && Monotone(before + [e]) && FirstProbeAt(before[k..] + [e], first)
    requires Continues(c, Run(c, before), e, ok)
    requires FirstProbeAt(before[k..], first) ==>
               Count(Run(c, before), ok) > 0 && First(Run(c, before), ok) <= first
    ensures Count(Step(c, Run(c, before), e), ok) > 0 && First(Step(c, Run(c, before), e), ok) <= first
  {
    hide Step, EvidenceFresh;
    var s, tail := Run(c, before), before[k..];
    CounterStep(c, s, e, ok);
    var i :| 0 <= i < |tail| + 1 && (tail + [e])[i].Probe? && (tail + [e])[i].at == first
             && forall j :: 0 <= j < i ==> !(tail + [e])[j].Probe?;
    if i < |tail| {
      assert tail[i] == (tail + [e])[i] && forall j :: 0 <= j < i ==> tail[j] == (tail + [e])[j];
      assert FirstProbeAt(tail, first);
    } else {
      assert e.Probe? && e.at == first;
      if Count(s, ok) > 0 { TimedBefore(c, before, e, ok); }
    }
  }

  lemma TimedBefore(c: Config, before: seq<Event>, e: Event, ok: bool)
    requires Monotone(before + [e]) && Count(Run(c, before), ok) > 0
    ensures First(Run(c, before), ok) <= e.at
  {
    if |before| > 0 {
      assert forall i :: 0 <= i < |before| ==> (before + [e])[i] == before[i];
      assert (before + [e])[|before|] == e;
      AlwaysFresh(c, before);
    }
  }

  /** A run of probes of one outcome with no mode change in it, as many as the threshold and over
      as long a span, does change the mode: to autonomous if they failed, to connected if not. */
  lemma RunChangesMode(c: Config, events: seq<Event>, k: nat, first: int)
    requires |events| > 0 && k < |events| && Monotone(events) && events[|events| - 1].Probe?
    requires var n, ok := |events| - 1, events[|events| - 1].ok;
             && OnlyOutcome(events[k..], ok)
             && Run(c, events[..k]).transitions == Run(c, events[..n]).transitions
             && Run(c, events[..n]).mode == (if ok then Autonomous else Connected)
             && Probes(events[k..]) >= (if ok then c.recoverThreshold else c.failThreshold)
             && FirstProbeAt(events[k..], first)
             && events[n].at - first >= (if ok then c.recoverFor else c.failFor)
    ensures Run(c, events).mode == (if events[|events| - 1].ok then Connected else Autonomous)
    ensures Run(c, events).transitions == Run(c, events[..|events| - 1]).transitions + 1
    ensures Run(c, events).lastChange == events[|events| - 1].at
  {
    hide Run, Step, EvidenceFresh, FirstProbeAt, OnlyOutcome, Monotone, Probes;
    var n := |events| - 1;
    var before, e := events[..n], events[n];
    TailParts(c, events, k);
    StretchCounted(c, before, e.ok, k, first);
    RunFirst(c, before, e, k, first);
    ProbeChanges(c, Run(c, before), e);
  }

  /** A stretch of probes and the last one of it. */
  lemma TailParts(c: Config, events: seq<Event>, k: nat)
    requires k < |events|
    ensures var n := |events| - 1;
            var before, e := events[..n], events[n];
            && before + [e] == events && before[..k] == events[..k] && before[k..] + [e] == events[k..]
            && (Monotone(events) ==> Monotone(before))
            && (forall ok :: OnlyOutcome(events[k..], ok) ==> OnlyOutcome(before[k..], ok))
            && Probes(events[k..]) == Probes(before[k..]) + (if e.Probe? then 1 else 0)
            && Run(c, events) == Step(c, Run(c, before), e)
  {
    hide Step;
    var n := |events| - 1;
    var before, e := events[..n], events[n];
    assert events[k..] == before[k..] + [e] && (before[k..] + [e])[..|before[k..]|] == before[k..];
    assert (before[k..] + [e])[|before[k..]|] == e;
    forall i | 0 <= i < |before[k..]|
      ensures before[k..][i] == events[k..][i]
    {
    }
  }

  /** The probe that completes the count and the span changes the mode. */
  lemma ProbeChanges(c: Config, s: State, e: Event)
    requires e.Probe? && s.mode == (if e.ok then Autonomous else Connected)
    requires Count(s, e.ok) + 1 >= (if e.ok then c.recoverThreshold else c.failThreshold)
    requires e.at - (if Count(s, e.ok) > 0 then First(s, e.ok) else e.at) >= (if e.ok then c.recoverFor else c.failFor)
    ensures var t := Step(c, s, e);
            && t.mode == (if e.ok then Connected else Autonomous)
            && t.transitions == s.transitions + 1 && t.lastChange == e.at
  {
  }

  lemma RunFirst(c: Config, before: seq<Event>, e: Event, k: nat, first: int)
    requires k <= |before| && Monotone(before + [e]) && e.Probe? && FirstProbeAt(before[k..] + [e], first)
    requires FirstProbeAt(before[k..], first) ==>
               Count(Run(c, before), e.ok) > 0 && First(Run(c, before), e.ok) <= first
    ensures if Count(Run(c, before), e.ok) > 0 then First(Run(c, before), e.ok) <= first else first == e.at
  {
    hide Step, EvidenceFresh, Run;
    var tail := before[k..];
    var i :| 0 <= i < |tail| + 1 && (tail + [e])[i].Probe? && (tail + [e])[i].at == first
             && forall j :: 0 <= j < i ==> !(tail + [e])[j].Probe?;
    if i < |tail| {
      assert tail[i] == (tail + [e])[i] && forall j :: 0 <= j < i ==> tail[j] == (tail + [e])[j];
      assert FirstProbeAt(tail, first);
    } else if Count(Run(c, before), e.ok) > 0 {
      TimedBefore(c, before, e, e.ok);
    }
  }

  /** A forced change takes effect at once, and is none if the mode is in force already. */
  lemma ForcedExactly(c: Config, s: State, to: Mode, at: int)
    ensures var t := Step(c, s, Forced(at, to));
            && t.mode == to && t.transitions == s.transitions + (if s.mode == to then 0 else 1)
            && (s.mode == to ==> t == s) && (s.mode != to ==> t.lastChange == at)
  {
  }

  // ----- how often the mode may change -----

  /** The instants at which a probe changed the mode. */
  function Driven(c: Config, events: seq<Event>): seq<int> {
    if |events| == 0 then []
    else Driven(c, events[..|events| - 1]) + (if EndsDriven(c, events) then [events[|events| - 1].at] else [])
  }

  function Min(a: int, b: int): int { if a < b then a else b }

  /** Evidence in hand was all gathered after the last change, and nothing lies in the future. */
  ghost predicate EvidenceFresh(s: State, now: int) {
    && (s.transitions > 0 ==> s.lastChange <= now)
    && (s.consecFail > 0 ==> s.firstFail <= now && (s.transitions > 0 ==> s.lastChange <= s.firstFail))
    && (s.consecOk > 0 ==> s.firstOk <= now && (s.transitions > 0 ==> s.lastChange <= s.firstOk))
  }

  /** One event keeps the evidence fresh, and a probe-driven change comes no sooner
      than the shorter span after the change before it. */
  lemma EvidenceStep(c: Config, s: State, e: Event)
    requires EvidenceFresh(s, e.at)
    ensures var t := Step(c, s, e);
            && EvidenceFresh(t, e.at)
            && s.transitions <= t.transitions
            && (s.transitions > 0 ==> s.lastChange <= t.lastChange)
            && (t.mode != s.mode ==> t.transitions > 0 && t.lastChange == e.at)
            && (t.mode != s.mode && e.Probe? && s.transitions > 0 ==>
                  e.at - s.lastChange >= Min(c.failFor, c.recoverFor))
  {
  }

  lemma EvidenceAges(s: State, t: int, u: int)
    requires EvidenceFresh(s, t) && t <= u
    ensures EvidenceFresh(s, u)
  {
  }

  predicate Spaced(d: seq<int>, m: int) {
    forall i, j :: 0 <= i <= j < |d| ==> d[j] - d[i] >= (j - i) * m
  }

  lemma AppendSpaced(d: seq<int>, m: int, x: int)
    requires Spaced(d, m) && m >= 0 && (|d| > 0 ==> x - d[|d| - 1] >= m)
    ensures Spaced(d + [x], m)
  {
    forall i | 0 <= i < |d|
      ensures x - d[i] >= (|d| - i) * m
    {
      assert d[|d| - 1] - d[i] >= (|d| - 1 - i) * m;
      assert (|d| - i) * m == (|d| - 1 - i) * m + m;
    }
  }

  lemma {:induction false} DrivenSpacing(c: Config, events: seq<Event>)
    requires Monotone(events) && Min(c.failFor, c.recoverFor) >= 0
    ensures |events| > 0 ==> EvidenceFresh(Run(c, events), events[|events| - 1].at)
    ensures var d := Driven(c, events);
            && (|d| > 0 ==> Run(c, events).transitions > 0 && d[|d| - 1] <= Run(c, events).lastChange)
            && Spaced(d, Min(c.failFor, c.recoverFor))
    decreases |events|
  {
    if |events| > 0 {
      var n := |events| - 1;
      var before, e := events[..n], events[n];
      assert Monotone(before);
      DrivenSpacing(c, before);
      var s, d := Run(c, before), Driven(c, before);
      if n > 0 { EvidenceAges(s, before[n - 1].at, e.at); }
      EvidenceStep(c, s, e);
      hide Step, Spaced, EvidenceFresh;
      if EndsDriven(c, events) {
        AppendSpaced(d, Min(c.failFor, c.recoverFor), e.at);
      } else {
        assert d + [] == d;
      }
    }
  }

  /** However probes and forced changes interleave, a span of length T holds at most
      1 + T / min(FailFor, RecoverFor) probe-driven mode changes. */
  lemma FlappingBounded(c: Config, events: seq<Event>, i: nat, j: nat, span: int)
    requires Monotone(events) && Min(c.failFor, c.recoverFor) > 0
    requires i <= j < |Driven(c, events)| && Driven(c, events)[j] - Driven(c, events)[i] <= span
    ensures j - i + 1 <= 1 + span / Min(c.failFor, c.recoverFor)
  {
    DrivenSpacing(c, events);
    hide Run, EvidenceFresh, Driven;
    Quotient(j - i, Min(c.failFor, c.recoverFor), span);
  }

  lemma Quotient(k: int, m: int, span: int)
    requires m > 0 && k * m <= span
    ensures k <= span / m
  {
    var q := span / m;
    assert (k - q - 1) * m == k * m - q * m - m;
    NegativeFactor(k - q - 1, m);
  }

  lemma NegativeFactor(a: int, m: int)
    requires m > 0 && a * m < 0
    ensures a < 0
  {
  }
}
