/** Price delivery end to end: the controller reserves a sequence durably, the
    coordinator schedules and retries, the radio loses, repeats and delays, the label
    obeys its sequence rule, and the controller may crash at any point. */
module Delivery {
  import opened Common
  import S = Scheduling

  type LabelId = S.LabelId

  /** The controller's record of a label: the sequence reserved, the one acknowledged
      as displayed, and the price reserved. */
  datatype Record = Record(sequence: int, displayed: int, price: int)

  function RecordOf(records: map<LabelId, Record>, l: LabelId): Record {
    if l in records then records[l] else Record(0, 0, 0)
  }

  datatype Shown = Shown(sequence: int, price: int)

  /** A label: what is on the glass, and everything it has ever shown, in order. */
  datatype Label = Label(sequence: int, price: int, shown: seq<Shown>, dead: bool)

  datatype Frame = Frame(labelId: LabelId, sequence: int, price: int, attested: bool)

  /** `attests`: does the controller send attested frames? `strict`: which labels
      display nothing else. */
  datatype Config = Config(sched: S.Config, attests: bool, strict: set<LabelId>)

  /** `memory` is lost in a crash, `disk` is not. `air` and `acks` hold every frame and
      acknowledgement ever sent: one that is never received was lost, one received
      again was repeated or late. `accepted` is the price of every update put on its
      way, by label and sequence. */
  datatype System = System(memory: map<LabelId, Record>, disk: map<LabelId, Record>, sched: S.State,
                           labels: map<LabelId, Label>, air: set<Frame>, acks: set<S.Ack>,
                           accepted: map<(LabelId, int), int>)

  datatype Event =
    /** An update arrives: does it verify, render and fit a frame, and does the reservation reach the disk? */
    | Update(labelId: LabelId, sequence: int, price: int, verified: bool, renders: bool, written: bool)
    /** A pump turn, a transmission, a radio report or a timer. */
    | Internal(e: S.Event)
    /** A frame reaches its label; the label may die of the refresh. */
    | Receive(f: Frame, verifies: bool, dies: bool)
    /** An acknowledgement reaches the controller; does its record reach the disk? */
    | Acknowledge(a: S.Ack, timerStopped: bool, written: bool)
    | Die(labelId: LabelId)
    | Crash

  predicate Enabled(s: System, e: Event) {
    match e
    case Update(_, _, _, _, _, _) => true
    case Internal(x) => !x.Submitted? && !x.AckReceived? && S.Enabled(s.sched, x)
    case Receive(f, _, _) => f in s.air && f.labelId in s.labels && !s.labels[f.labelId].dead
    case Acknowledge(a, _, _) => a in s.acks
    case Die(l) => l in s.labels
    case Crash => true
  }

  // ----- the steps -----

  /** Verify, check the sequence, render, reserve durably, submit: in that order. */
  function Apply(c: Config, s: System, l: LabelId, n: int, p: int, verified: bool, renders: bool,
                 written: bool): System {
    if l !in s.labels || !verified || n <= RecordOf(s.memory, l).sequence || !renders then s
    else
      var r := RecordOf(s.memory, l).(sequence := n, price := p);
      if !written then s.(memory := s.memory[l := r])
      else s.(memory := s.memory[l := r], disk := s.disk[l := r],
              sched := S.Submit(s.sched, l, n, c.attests, p), accepted := s.accepted[(l, n) := p])
  }

  function FrameOf(d: S.Delivery): Frame { Frame(d.labelId, d.sequence, d.price, d.attested) }

  /** A transmission puts the job's frame on the air. */
  function Work(c: Config, s: System, x: S.Event): System
    requires Enabled(s, Internal(x))
  {
    var t := S.Step(c.sched, s.sched, x);
    var sent := if x.Transmitted? && |t.air| > |s.sched.air| then {FrameOf(s.sched.jobs[x.id].del)} else {};
    s.(sched := t, air := s.air + sent)
  }

  /** The label's rule: attestation mode, then sequence, then signature, then the glass. */
  function LabelStatus(c: Config, lab: Label, f: Frame, verifies: bool): S.AckStatus {
    if !f.attested && f.labelId in c.strict then S.RefusedUnattested
    else if f.sequence <= lab.sequence then S.StaleSequence
    else if f.attested && !verifies then S.RefusedAttestation
    else S.Applied
  }

  function Show(lab: Label, f: Frame, dies: bool): Label {
    Label(f.sequence, f.price, lab.shown + [Shown(f.sequence, f.price)], dies)
  }

  function Deliver(c: Config, s: System, f: Frame, verifies: bool, dies: bool): System
    requires Enabled(s, Receive(f, verifies, dies))
  {
    var lab := s.labels[f.labelId];
    var st := LabelStatus(c, lab, f, verifies);
    var t := if st == S.Applied then s.(labels := s.labels[f.labelId := Show(lab, f, dies)]) else s;
    if st == S.Applied && dies then t else t.(acks := t.acks + {S.Ack(f.labelId, f.sequence, st)})
  }

  /** Does this acknowledgement complete a delivery as displayed? */
  predicate Displays(s: System, a: S.Ack) { S.Answers(s.sched, a) && a.status == S.Applied }

  function Hear(c: Config, s: System, a: S.Ack, timerStopped: bool, written: bool): System {
    var t := s.(sched := S.HandleAck(c.sched, s.sched, a, timerStopped));
    if !Displays(s, a) then t
    else
      var r := RecordOf(s.memory, a.labelId).(displayed := a.sequence);
      t.(memory := s.memory[a.labelId := r], disk := if written then s.disk[a.labelId := r] else s.disk)
  }

  function Step(c: Config, s: System, e: Event): System
    requires Enabled(s, e)
  {
    match e
    case Update(l, n, p, v, r, w) => Apply(c, s, l, n, p, v, r, w)
    case Internal(x) => Work(c, s, x)
    case Receive(f, v, d) => Deliver(c, s, f, v, d)
    case Acknowledge(a, t, w) => Hear(c, s, a, t, w)
    case Die(l) => s.(labels := s.labels[l := s.labels[l].(dead := true)])
    case Crash => s.(memory := s.disk, sched := S.INITIAL)
  }

  function Start(zone: set<LabelId>): System {
    System(map[], map[], S.INITIAL, map l | l in zone :: Label(0, 0, [], false), {}, {}, map[])
  }

  // ----- the invariants -----

  /** Acknowledged as displayed <= on the glass <= durably reserved. */
  ghost predicate Sandwich(memory: map<LabelId, Record>, disk: map<LabelId, Record>, labels: map<LabelId, Label>) {
    && memory.Keys <= labels.Keys && disk.Keys <= labels.Keys
    && forall l :: l in labels ==> Between(RecordOf(memory, l), RecordOf(disk, l), labels[l])
  }

  predicate Between(m: Record, d: Record, lab: Label) {
    d.displayed <= m.displayed <= lab.sequence <= d.sequence <= m.sequence
  }

  /** Every accepted update is for a label of the zone and was reserved first. */
  ghost predicate AcceptedOk(accepted: map<(LabelId, int), int>, disk: map<LabelId, Record>,
                             labels: map<LabelId, Label>) {
    forall l, n :: (l, n) in accepted ==> l in labels && 0 < n <= RecordOf(disk, l).sequence
  }

  ghost predicate FramesOk(air: set<Frame>, accepted: map<(LabelId, int), int>) {
    forall f :: f in air ==> (f.labelId, f.sequence) in accepted && accepted[(f.labelId, f.sequence)] == f.price
  }

  predicate Carries(d: S.Delivery, accepted: map<(LabelId, int), int>) {
    (d.labelId, d.sequence) in accepted && accepted[(d.labelId, d.sequence)] == d.price
  }

  /** Everything the coordinator handles is an accepted update. */
  ghost predicate WorkOk(queue: seq<S.Delivery>, jobs: map<nat, S.Job>, accepted: map<(LabelId, int), int>) {
    && (forall i :: 0 <= i < |queue| ==> Carries(queue[i], accepted))
    && (forall id :: id in jobs ==> Carries(jobs[id].del, accepted))
  }

  /** A label has shown accepted updates only, in strictly rising sequence, and shows the last. */
  ghost predicate LabelOk(l: LabelId, lab: Label, accepted: map<(LabelId, int), int>) {
    && (forall i :: 0 <= i < |lab.shown| ==>
          (l, lab.shown[i].sequence) in accepted && accepted[(l, lab.shown[i].sequence)] == lab.shown[i].price)
    && (forall i, j :: 0 <= i < j < |lab.shown| ==> lab.shown[i].sequence < lab.shown[j].sequence)
    && (if |lab.shown| == 0 then lab.sequence == 0 else lab.shown[|lab.shown| - 1] == Shown(lab.sequence, lab.price))
  }

  ghost predicate GlassOk(labels: map<LabelId, Label>, accepted: map<(LabelId, int), int>) {
    forall l :: l in labels ==> LabelOk(l, labels[l], accepted)
  }

  /** Was this sequence ever on the label's glass? */
  ghost predicate WasShown(lab: Label, n: int) {
    exists i :: 0 <= i < |lab.shown| && lab.shown[i].sequence == n
  }

  /** An acknowledgement says "applied" only of what the label has shown. */
  ghost predicate AcksOk(acks: set<S.Ack>, labels: map<LabelId, Label>) {
    forall a :: a in acks ==> a.labelId in labels && (a.status == S.Applied ==> WasShown(labels[a.labelId], a.sequence))
  }

  /** What is still to be delivered to a label rises in submission order, from above
      what is acknowledged as displayed. */
  ghost predicate AheadOk(queue: seq<S.Delivery>, jobs: map<nat, S.Job>, pending: map<LabelId, nat>,
                          memory: map<LabelId, Record>) {
    && (forall i :: 0 <= i < |queue| ==>
          var r := RecordOf(memory, queue[i].labelId);
          r.displayed < queue[i].sequence <= r.sequence)
    && (forall i, j :: 0 <= i < j < |queue| && queue[i].labelId == queue[j].labelId ==>
        queue[i].sequence < queue[j].sequence)
    && (forall l :: l in pending && pending[l] in jobs ==>
          RecordOf(memory, l).displayed < jobs[pending[l]].del.sequence <= RecordOf(memory, l).sequence)
    && (forall l, i :: l in pending && pending[l] in jobs && 0 <= i < |queue| && queue[i].labelId == l ==>
          jobs[pending[l]].del.sequence < queue[i].sequence)
  }

  ghost predicate Inv(c: Config, s: System) {
    && Sandwich(s.memory, s.disk, s.labels)
    && AcceptedOk(s.accepted, s.disk, s.labels)
    && FramesOk(s.air, s.accepted)
    && WorkOk(s.sched.queue, s.sched.jobs, s.accepted)
    && GlassOk(s.labels, s.accepted)
    && AcksOk(s.acks, s.labels)
    && AheadOk(s.sched.queue, s.sched.jobs, s.sched.pending, s.memory)
    && S.Inv(c.sched, s.sched)
  }

  // ----- every step keeps them -----

  ghost predicate Extends(a: map<(LabelId, int), int>, b: map<(LabelId, int), int>) {
    forall k :: k in a ==> k in b && b[k] == a[k]
  }

  lemma ExtendingKeeps(air: set<Frame>, queue: seq<S.Delivery>, jobs: map<nat, S.Job>, labels: map<LabelId, Label>,
                       a: map<(LabelId, int), int>, b: map<(LabelId, int), int>)
    requires Extends(a, b) && FramesOk(air, a) && WorkOk(queue, jobs, a) && GlassOk(labels, a)
    ensures FramesOk(air, b) && WorkOk(queue, jobs, b) && GlassOk(labels, b)
  {
    forall l | l in labels
      ensures LabelOk(l, labels[l], b)
    {
      assert LabelOk(l, labels[l], a);
    }
  }

  /** Replacing one label's records keeps the sandwich if that label stays between. */
  lemma RecordsKeep(memory: map<LabelId, Record>, disk: map<LabelId, Record>, labels: map<LabelId, Label>,
                    l: LabelId, m: Record, d: Record)
    requires Sandwich(memory, disk, labels) && l in labels && Between(m, d, labels[l])
    ensures Sandwich(memory[l := m], disk[l := d], labels)
    ensures d == RecordOf(disk, l) ==> Sandwich(memory[l := m], disk, labels)
  {
  }

  lemma ReservedIsAbove(c: Config, s: System, l: LabelId)
    requires Inv(c, s) && l in s.labels
    ensures 0 <= s.labels[l].sequence && Between(RecordOf(s.memory, l), RecordOf(s.disk, l), s.labels[l])
    ensures forall n :: (l, n) in s.accepted ==> n <= RecordOf(s.memory, l).sequence
  {
    hide S.Inv, WorkOk, AcksOk, AheadOk, FramesOk;
    assert LabelOk(l, s.labels[l], s.accepted);
  }

  lemma AcceptKeeps(c: Config, s: System, l: LabelId, n: int, p: int)
    requires Inv(c, s) && l in s.labels && n > RecordOf(s.memory, l).sequence
    ensures var r := RecordOf(s.memory, l).(sequence := n, price := p);
            AcceptedOk(s.accepted[(l, n) := p], s.disk[l := r], s.labels)
              && Extends(s.accepted, s.accepted[(l, n) := p])
  {
    hide S.Inv, Sandwich, WorkOk, AcksOk, AheadOk, FramesOk, GlassOk;
    ReservedIsAbove(c, s, l);
    var r := RecordOf(s.memory, l).(sequence := n, price := p);
    forall k, m | (k, m) in s.accepted[(l, n) := p]
      ensures k in s.labels && 0 < m <= RecordOf(s.disk[l := r], k).sequence
    {
      assert (k, m) != (l, n) ==> (k, m) in s.accepted;
    }
  }

  /** Reserving a greater sequence leaves everything still to be delivered in place. */
  lemma ReserveAhead(s: System, l: LabelId, n: int, p: int)
    requires AheadOk(s.sched.queue, s.sched.jobs, s.sched.pending, s.memory) && n > RecordOf(s.memory, l).sequence
    ensures AheadOk(s.sched.queue, s.sched.jobs, s.sched.pending,
                    s.memory[l := RecordOf(s.memory, l).(sequence := n, price := p)])
  {
  }

  lemma SubmitAhead(queue: seq<S.Delivery>, jobs: map<nat, S.Job>, pending: map<LabelId, nat>,
                    memory: map<LabelId, Record>,
                    r: Record, d: S.Delivery)
    requires AheadOk(queue, jobs, pending, memory) && RecordOf(memory, d.labelId).sequence < d.sequence
    requires r.displayed == RecordOf(memory, d.labelId).displayed < d.sequence == r.sequence
    ensures AheadOk(queue + [d], jobs, pending, memory[d.labelId := r])
  {
    var q := queue + [d];
    assert q[|queue|] == d && forall i :: 0 <= i < |queue| ==> q[i] == queue[i];
  }

  lemma SubmitWork(queue: seq<S.Delivery>, jobs: map<nat, S.Job>, accepted: map<(LabelId, int), int>, d: S.Delivery)
    requires WorkOk(queue, jobs, accepted) && Carries(d, accepted)
    ensures WorkOk(queue + [d], jobs, accepted)
  {
  }

  lemma ApplyKeeps(c: Config, s: System, l: LabelId, n: int, p: int, v: bool, r: bool, w: bool)
    requires Inv(c, s)
    ensures Inv(c, Apply(c, s, l, n, p, v, r, w))
  {
    hide S.Inv, Sandwich, AcceptedOk, FramesOk, WorkOk, GlassOk, AcksOk, AheadOk, Extends;
    if l in s.labels && n > RecordOf(s.memory, l).sequence {
      var m := RecordOf(s.memory, l).(sequence := n, price := p);
      ReservedIsAbove(c, s, l);
      ReserveAhead(s, l, n, p);
      if w {
        AcceptKeeps(c, s, l, n, p);
        RecordsKeep(s.memory, s.disk, s.labels, l, m, m);
        ExtendingKeeps(s.air, s.sched.queue, s.sched.jobs, s.labels, s.accepted, s.accepted[(l, n) := p]);
        S.StepKeeps(c.sched, s.sched, S.Submitted(l, n, c.attests, p));
        var d := S.Delivery(s.sched.next, l, n, c.attests, p);
        SubmitAhead(s.sched.queue, s.sched.jobs, s.sched.pending, s.memory, m, d);
        SubmitWork(s.sched.queue, s.sched.jobs, s.accepted[(l, n) := p], d);
      } else {
        RecordsKeep(s.memory, s.disk, s.labels, l, m, RecordOf(s.disk, l));
      }
    }
  }

  predicate SameDeliveries(jobs: map<nat, S.Job>, later: map<nat, S.Job>) {
    later.Keys == jobs.Keys && forall id :: id in jobs ==> later[id].del == jobs[id].del
  }

  predicate Released(pending: map<LabelId, nat>, later: map<LabelId, nat>) {
    forall l :: l in later ==> l in pending && later[l] == pending[l]
  }

  /** The queue and every job's delivery stay; slots are only released. */
  predicate OnlyReleases(s: S.State, t: S.State) {
    t.queue == s.queue && SameDeliveries(s.jobs, t.jobs) && Released(s.pending, t.pending)
  }

  lemma AttemptReleases(jobs: map<nat, S.Job>, id: nat)
    requires id in jobs
    ensures SameDeliveries(jobs, jobs[id := jobs[id].(attempt := jobs[id].attempt + 1)])
  {
  }

  lemma FinishReleases(pending: map<LabelId, nat>, l: LabelId)
    ensures Released(pending, pending - {l})
  {
  }

  lemma NothingReleased(jobs: map<nat, S.Job>, pending: map<LabelId, nat>)
    ensures SameDeliveries(jobs, jobs) && Released(pending, pending)
  {
  }

  lemma CompletionReleases(s: S.State, u: S.State, id: nat, o: S.Outcome)
    requires id in s.jobs && u.queue == s.queue && u.jobs == s.jobs && u.pending == s.pending
    ensures OnlyReleases(s, u) && OnlyReleases(s, S.Complete(u, id, o))
  {
    hide SameDeliveries, Released;
    NothingReleased(s.jobs, s.pending);
    FinishReleases(s.pending, s.jobs[id].del.labelId);
  }

  lemma Releases(c: S.Config, s: S.State, x: S.Event)
    requires S.Enabled(s, x) && !x.Submitted? && !x.Pumped?
    ensures OnlyReleases(s, S.Step(c, s, x))
  {
    NothingReleased(s.jobs, s.pending);
    hide S.Complete, SameDeliveries, Released;
    match x
    case Transmitted(id) =>
      AttemptReleases(s.jobs, id);
      CompletionReleases(s, s.(tokens := s.tokens - {id}), id, S.NeedsAttestation);
    case Reported(id, _) =>
      CompletionReleases(s, s.(tokens := s.tokens - {id}), id, S.Abandoned);
    case TimedOut(id) =>
      CompletionReleases(s, s.(tokens := s.tokens - {id}), id, S.Abandoned);
    case AckReceived(a, _) =>
      if S.Answers(s, a) {
        var t, id := S.Note(c, s, a), s.pending[a.labelId];
        CompletionReleases(s, t, id, S.Acknowledged(a.status));
        CompletionReleases(s, t.(tokens := t.tokens - {id}), id, S.Acknowledged(a.status));
      }
    case Halted =>
  }

  lemma ReleasingKeeps(s: S.State, t: S.State, accepted: map<(LabelId, int), int>, memory: map<LabelId, Record>)
    requires OnlyReleases(s, t) && WorkOk(s.queue, s.jobs, accepted) && AheadOk(s.queue, s.jobs, s.pending, memory)
    ensures WorkOk(t.queue, t.jobs, accepted) && AheadOk(t.queue, t.jobs, t.pending, memory)
  {
  }

  lemma StartAhead(queue: seq<S.Delivery>, jobs: map<nat, S.Job>, pending: map<LabelId, nat>,
                   memory: map<LabelId, Record>, i: nat)
    requires AheadOk(queue, jobs, pending, memory) && i < |queue| && queue[i].labelId !in pending
             && queue[i].id !in jobs
    requires (forall k :: 0 <= k < i ==> queue[k].labelId in pending) && forall l :: l in pending ==> pending[l] in jobs
    ensures AheadOk(queue[..i] + queue[i + 1..], jobs[queue[i].id := S.Job(queue[i], 0)],
                    pending[queue[i].labelId := queue[i].id], memory)
  {
    var q := queue[..i] + queue[i + 1..];
    forall k | 0 <= k < |q|
      ensures q[k] == queue[if k < i then k else k + 1]
    {
    }
  }

  lemma StartWork(queue: seq<S.Delivery>, jobs: map<nat, S.Job>, accepted: map<(LabelId, int), int>, i: nat)
    requires WorkOk(queue, jobs, accepted) && i < |queue|
    ensures WorkOk(queue[..i] + queue[i + 1..], jobs[queue[i].id := S.Job(queue[i], 0)], accepted)
  {
  }

  lemma StartKeeps(c: S.Config, s: S.State, accepted: map<(LabelId, int), int>, memory: map<LabelId, Record>)
    requires WorkOk(s.queue, s.jobs, accepted) && AheadOk(s.queue, s.jobs, s.pending, memory)
    requires s.pumping > 0 && S.Inv(c, s)
    ensures WorkOk(S.Pump(c, s).queue, S.Pump(c, s).jobs, accepted)
    ensures AheadOk(S.Pump(c, s).queue, S.Pump(c, s).jobs, S.Pump(c, s).pending, memory)
  {
    hide WorkOk, AheadOk, S.Accounted, S.TokensOk, S.AttemptsOk, S.AirOk, S.DoneOk, S.OrderOk, S.SlotsOk, S.NoneMissed;
    if S.CanStart(c, s) {
      var i := S.FirstFree(s.queue, s.pending);
      StartAhead(s.queue, s.jobs, s.pending, memory, i);
      StartWork(s.queue, s.jobs, accepted, i);
    }
  }

  lemma SendKeeps(c: Config, s: System, x: S.Event)
    requires Inv(c, s) && Enabled(s, Internal(x))
    ensures FramesOk(Work(c, s, x).air, s.accepted)
  {
    hide S.Inv, Sandwich, AcceptedOk, GlassOk, AcksOk, AheadOk;
    hide S.Step;
  }

  lemma WorkKeeps(c: Config, s: System, x: S.Event)
    requires Inv(c, s) && Enabled(s, Internal(x))
    ensures Inv(c, Work(c, s, x))
  {
    hide S.Inv, Sandwich, AcceptedOk, FramesOk, WorkOk, GlassOk, AcksOk, AheadOk, OnlyReleases, S.Pump;
    SendKeeps(c, s, x);
    S.StepKeeps(c.sched, s.sched, x);
    if x.Pumped? {
      StartKeeps(c.sched, s.sched, s.accepted, s.memory);
    } else {
      Releases(c.sched, s.sched, x);
      hide S.Step;
      ReleasingKeeps(s.sched, S.Step(c.sched, s.sched, x), s.accepted, s.memory);
    }
  }

  lemma ShowKeeps(l: LabelId, lab: Label, f: Frame, dies: bool, accepted: map<(LabelId, int), int>)
    requires LabelOk(l, lab, accepted) && f.labelId == l && f.sequence > lab.sequence
    requires (l, f.sequence) in accepted && accepted[(l, f.sequence)] == f.price
    ensures LabelOk(l, Show(lab, f, dies), accepted)
    ensures WasShown(Show(lab, f, dies), f.sequence)
    ensures forall n :: WasShown(lab, n) ==> WasShown(Show(lab, f, dies), n)
  {
    var t := Show(lab, f, dies);
    assert t.shown[|lab.shown|].sequence == f.sequence && t.shown[..|lab.shown|] == lab.shown;
    forall n | WasShown(lab, n)
      ensures WasShown(t, n)
    {
      var i :| 0 <= i < |lab.shown| && lab.shown[i].sequence == n;
      assert t.shown[i].sequence == n;
    }
  }

  lemma AcksKeep(acks: set<S.Ack>, labels: map<LabelId, Label>, l: LabelId, lab: Label, a: S.Ack)
    requires AcksOk(acks, labels) && l in labels && forall n :: WasShown(labels[l], n) ==> WasShown(lab, n)
    requires a.labelId == l && (a.status == S.Applied ==> WasShown(lab, a.sequence))
    ensures AcksOk(acks, labels[l := lab]) && AcksOk(acks + {a}, labels[l := lab])
  {
    hide WasShown;
  }

  lemma DeliverKeeps(c: Config, s: System, f: Frame, v: bool, dies: bool)
    requires Inv(c, s) && Enabled(s, Receive(f, v, dies))
    ensures Inv(c, Deliver(c, s, f, v, dies))
  {
    hide S.Inv, WorkOk, AheadOk, LabelOk, WasShown, AcksOk;
    var lab, st := s.labels[f.labelId], LabelStatus(c, s.labels[f.labelId], f, v);
    var a := S.Ack(f.labelId, f.sequence, st);
    if st == S.Applied {
      ShowKeeps(f.labelId, lab, f, dies, s.accepted);
      AcksKeep(s.acks, s.labels, f.labelId, Show(lab, f, dies), a);
    } else {
      AcksKeep(s.acks, s.labels, f.labelId, lab, a);
      assert s.labels[f.labelId := lab] == s.labels;
    }
  }

  lemma ShownIsBelow(l: LabelId, lab: Label, accepted: map<(LabelId, int), int>, n: int)
    requires LabelOk(l, lab, accepted) && WasShown(lab, n)
    ensures n <= lab.sequence
  {
  }

  /** The delivery an applied acknowledgement completes is the next one displayed. */
  lemma DisplayedNext(c: Config, s: System, a: S.Ack)
    requires Inv(c, s) && a in s.acks && Displays(s, a)
    ensures a.labelId in s.labels && WasShown(s.labels[a.labelId], a.sequence)
    ensures RecordOf(s.memory, a.labelId).displayed < a.sequence <= s.labels[a.labelId].sequence
  {
    hide S.Inv, WorkOk, FramesOk, AcceptedOk, Sandwich;
    ShownIsBelow(a.labelId, s.labels[a.labelId], s.accepted, a.sequence);
  }

  /** Once a label's slot is released, its displayed sequence may rise to that of the job it held. */
  lemma DisplayAhead(s: S.State, t: S.State, memory: map<LabelId, Record>, l: LabelId, r: Record)
    requires AheadOk(s.queue, s.jobs, s.pending, memory) && OnlyReleases(s, t)
    requires l in s.pending && s.pending[l] in s.jobs && l !in t.pending
    requires r == RecordOf(memory, l).(displayed := s.jobs[s.pending[l]].del.sequence)
    ensures AheadOk(t.queue, t.jobs, t.pending, memory[l := r])
  {
  }

  lemma AnswerReleases(c: S.Config, s: S.State, a: S.Ack, timerStopped: bool)
    requires S.Inv(c, s) && S.Answers(s, a)
    ensures a.labelId !in S.HandleAck(c, s, a, timerStopped).pending
  {
    hide S.QueueOk, S.Accounted, S.TokensOk, S.AttemptsOk, S.AirOk, S.DoneOk, S.OrderOk, S.SlotsOk, S.NoneMissed;
  }

  lemma HigherAccepted(accepted: map<(LabelId, int), int>, disk: map<LabelId, Record>, labels: map<LabelId, Label>,
                       l: LabelId, r: Record)
    requires AcceptedOk(accepted, disk, labels) && RecordOf(disk, l).sequence <= r.sequence
    ensures AcceptedOk(accepted, disk[l := r], labels)
  {
  }

  lemma HearKeeps(c: Config, s: System, a: S.Ack, timerStopped: bool, w: bool)
    requires Inv(c, s) && a in s.acks
    ensures Inv(c, Hear(c, s, a, timerStopped, w))
  {
    hide S.Inv, Sandwich, AcceptedOk, FramesOk, WorkOk, GlassOk, AcksOk, AheadOk, OnlyReleases, S.HandleAck;
    var e := S.AckReceived(a, timerStopped);
    S.StepKeeps(c.sched, s.sched, e);
    Releases(c.sched, s.sched, e);
    var t := S.HandleAck(c.sched, s.sched, a, timerStopped);
    ReleasingKeeps(s.sched, t, s.accepted, s.memory);
    if Displays(s, a) {
      var l, r := a.labelId, RecordOf(s.memory, a.labelId).(displayed := a.sequence);
      DisplayedNext(c, s, a);
      ReservedIsAbove(c, s, l);
      AnswerReleases(c.sched, s.sched, a, timerStopped);
      DisplayAhead(s.sched, t, s.memory, l, r);
      RecordsKeep(s.memory, s.disk, s.labels, l, r, if w then r else RecordOf(s.disk, l));
      HigherAccepted(s.accepted, s.disk, s.labels, l, r);
    }
  }

  lemma HearKeepsLabels(c: Config, s: System, a: S.Ack, timerStopped: bool, w: bool)
    ensures Hear(c, s, a, timerStopped, w).labels == s.labels
    ensures Hear(c, s, a, timerStopped, w).air == s.air && Hear(c, s, a, timerStopped, w).acks == s.acks
  {
  }

  lemma DieKeeps(c: Config, s: System, l: LabelId)
    requires Inv(c, s) && l in s.labels
    ensures Inv(c, Step(c, s, Die(l)))
  {
    hide S.Inv, FramesOk, WorkOk, AheadOk, LabelOk, AcksOk, WasShown;
    var lab := s.labels[l].(dead := true);
    DeathShowsNothing(l, s.labels[l], s.accepted);
    assert Between(RecordOf(s.memory, l), RecordOf(s.disk, l), s.labels[l]);
    AcksKeep(s.acks, s.labels, l, lab, S.Ack(l, 0, S.BadFrame));
  }

  lemma DeathShowsNothing(l: LabelId, lab: Label, accepted: map<(LabelId, int), int>)
    requires LabelOk(l, lab, accepted)
    ensures LabelOk(l, lab.(dead := true), accepted)
    ensures forall n :: WasShown(lab, n) ==> WasShown(lab.(dead := true), n)
  {
    forall n | WasShown(lab, n)
      ensures WasShown(lab.(dead := true), n)
    {
      var i :| 0 <= i < |lab.shown| && lab.shown[i].sequence == n;
      assert lab.(dead := true).shown[i].sequence == n;
    }
  }

  lemma CrashKeeps(c: Config, s: System)
    requires Inv(c, s)
    ensures Inv(c, Step(c, s, Crash))
  {
    S.InitialInv(c.sched);
    hide S.Inv, FramesOk, GlassOk, AcksOk;
  }

  lemma StepKeeps(c: Config, s: System, e: Event)
    requires Inv(c, s) && Enabled(s, e)
    ensures Inv(c, Step(c, s, e))
  {
    hide Inv, Apply, Work, Deliver, Hear;
    match e
    case Update(l, n, p, v, r, w) => ApplyKeeps(c, s, l, n, p, v, r, w);
    case Internal(x) => WorkKeeps(c, s, x);
    case Receive(f, v, d) => DeliverKeeps(c, s, f, v, d);
    case Acknowledge(a, t, w) => HearKeeps(c, s, a, t, w);
    case Die(l) => DieKeeps(c, s, l);
    case Crash => CrashKeeps(c, s);
  }

  // ----- over every run -----

  /** Where a history leads, if each event is possible in turn. */
  function After(c: Config, zone: set<LabelId>, events: seq<Event>): Option<System> {
    if |events| == 0 then Some(Start(zone))
    else
      match After(c, zone, events[..|events| - 1])
      case None => None
      case Some(s) => if Enabled(s, events[|events| - 1]) then Some(Step(c, s, events[|events| - 1])) else None
  }

  lemma {:induction false} RunKeeps(c: Config, zone: set<LabelId>, events: seq<Event>)
    requires After(c, zone, events).Some?
    ensures Inv(c, After(c, zone, events).value)
    decreases |events|
  {
    hide Step, Enabled, S.Inv;
    if |events| == 0 {
      S.InitialInv(c.sched);
    } else {
      hide Inv;
      RunKeeps(c, zone, events[..|events| - 1]);
      StepKeeps(c, After(c, zone, events[..|events| - 1]).value, events[|events| - 1]);
    }
  }

  /** The sequence sandwich, in every run, whatever is lost, repeated, delayed or
      crashes: acknowledged as displayed <= on the glass <= durably reserved; and what
      is on the glass is the one accepted update of that sequence. */
  lemma SequenceSandwich(c: Config, zone: set<LabelId>, events: seq<Event>, l: LabelId)
    requires After(c, zone, events).Some? && l in After(c, zone, events).value.labels
    ensures var s := After(c, zone, events).value;
            && RecordOf(s.disk, l).displayed <= RecordOf(s.memory, l).displayed <= s.labels[l].sequence
            && s.labels[l].sequence <= RecordOf(s.disk, l).sequence <= RecordOf(s.memory, l).sequence
            && (s.labels[l].sequence == 0 || ((l, s.labels[l].sequence) in s.accepted
                                              && s.labels[l].price == s.accepted[(l, s.labels[l].sequence)]))
  {
    hide After, S.Inv;
    RunKeeps(c, zone, events);
    var s := After(c, zone, events).value;
    assert LabelOk(l, s.labels[l], s.accepted) && Between(RecordOf(s.memory, l), RecordOf(s.disk, l), s.labels[l]);
  }

  /** No step lowers a label's sequence, what is durably reserved or what is durably
      displayed; only a crash lowers what memory holds as displayed. */
  lemma NothingFalls(c: Config, s: System, e: Event, l: LabelId)
    requires Inv(c, s) && Enabled(s, e) && l in s.labels
    ensures var t := Step(c, s, e);
            && l in t.labels && t.labels[l].sequence >= s.labels[l].sequence
            && RecordOf(t.disk, l).sequence >= RecordOf(s.disk, l).sequence
            && RecordOf(t.disk, l).displayed >= RecordOf(s.disk, l).displayed
            && (e != Crash ==> RecordOf(t.memory, l).displayed >= RecordOf(s.memory, l).displayed)
  {
    hide Inv, S.Step, S.Submit, S.HandleAck, Displays;
    ReservedIsAbove(c, s, l);
    if e.Acknowledge? && Displays(s, e.a) {
      DisplayedNext(c, s, e.a);
    }
  }

  /** No step takes back or alters an accepted update. */
  lemma AcceptedStands(c: Config, s: System, e: Event)
    requires Inv(c, s) && Enabled(s, e)
    ensures Extends(s.accepted, Step(c, s, e).accepted)
  {
    hide Inv, S.Step, S.Submit, S.HandleAck, Displays;
    if e.Update? && e.labelId in s.labels && e.sequence > RecordOf(s.memory, e.labelId).sequence {
      AcceptKeeps(c, s, e.labelId, e.sequence, e.price);
    }
  }

  /** Between any two moments of any run, a label's sequence and its durable records
      do not fall, and every update accepted at the first is accepted, at the same
      price, at the second. */
  lemma {:induction false} RunNeverFalls(c: Config, zone: set<LabelId>, events: seq<Event>, k: nat, l: LabelId)
    requires After(c, zone, events).Some? && k <= |events| && l in zone
    ensures After(c, zone, events[..k]).Some?
    ensures var s, t := After(c, zone, events[..k]).value, After(c, zone, events).value;
            && l in s.labels && l in t.labels && s.labels[l].sequence <= t.labels[l].sequence
            && RecordOf(s.disk, l).sequence <= RecordOf(t.disk, l).sequence
            && RecordOf(s.disk, l).displayed <= RecordOf(t.disk, l).displayed
            && Extends(s.accepted, t.accepted)
    decreases |events|
  {
    hide Inv, Step, Enabled, RecordOf;
    if |events| == 0 {
      assert events[..k] == events;
    } else {
      var before := events[..|events| - 1];
      RunNeverFalls(c, zone, before, if k < |events| then k else k - 1, l);
      if k == |events| {
        assert events[..k] == events && before[..k - 1] == before;
      } else {
        assert before[..k] == events[..k];
      }
      RunKeeps(c, zone, before);
      NothingFalls(c, After(c, zone, before).value, events[|events| - 1], l);
      AcceptedStands(c, After(c, zone, before).value, events[|events| - 1]);
    }
  }

  /** A delivery reported as delivered was on the glass: its label showed exactly its
      sequence and its price. */
  lemma DeliveredWasShown(c: Config, s: System, e: Event, id: nat)
    requires Inv(c, s) && Enabled(s, e) && e != Crash && id !in s.sched.finished
    requires id in Step(c, s, e).sched.finished && Step(c, s, e).sched.finished[id] == S.Acknowledged(S.Applied)
    ensures id in s.sched.jobs
    ensures var d := s.sched.jobs[id].del;
            && d.labelId in s.labels
            && Shown(d.sequence, d.price) in s.labels[d.labelId].shown
            && RecordOf(Step(c, s, e).memory, d.labelId).displayed == d.sequence
  {
    hide S.Inv, S.Submit, S.Pump, S.Transmit, S.Report, S.AckTimeout, S.HandleAck, Sandwich, AcceptedOk;
    hide FramesOk, AheadOk, GlassOk, AcksOk, WorkOk;
    var x := SchedulerEvent(c, e);
    SchedulerMoves(c, s, e);
    S.DeliveredMeansAcknowledged(c.sched, s.sched, x, id);
    AppliedAnswers(c.sched, s.sched, e.a, e.timerStopped, id);
    ShownCarries(c, s, id);
  }

  function SchedulerEvent(c: Config, e: Event): S.Event {
    match e
    case Update(l, n, p, _, _, _) => S.Submitted(l, n, c.attests, p)
    case Internal(x) => x
    case Acknowledge(a, t, _) => S.AckReceived(a, t)
    case _ => S.Halted
  }

  /** Short of a crash, the coordinator moves by its own steps only. */
  lemma SchedulerMoves(c: Config, s: System, e: Event)
    requires Enabled(s, e) && e != Crash
    ensures S.Enabled(s.sched, SchedulerEvent(c, e))
    ensures Step(c, s, e).sched == s.sched || Step(c, s, e).sched == S.Step(c.sched, s.sched, SchedulerEvent(c, e))
  {
    hide S.Submit, S.Pump, S.Transmit, S.Report, S.AckTimeout, S.HandleAck, Displays;
  }

  lemma AppliedAnswers(c: S.Config, s: S.State, a: S.Ack, timerStopped: bool, id: nat)
    requires id !in s.finished && id in S.HandleAck(c, s, a, timerStopped).finished
    ensures S.Answers(s, a)
  {
  }

  lemma ShownCarries(c: Config, s: System, id: nat)
    requires Inv(c, s) && id in s.sched.jobs
    requires S.Ack(s.sched.jobs[id].del.labelId, s.sched.jobs[id].del.sequence, S.Applied) in s.acks
    ensures var d := s.sched.jobs[id].del;
            d.labelId in s.labels && Shown(d.sequence, d.price) in s.labels[d.labelId].shown
  {
    hide S.Inv, Sandwich, AcceptedOk, FramesOk, AheadOk;
    var d := s.sched.jobs[id].del;
    var lab := s.labels[d.labelId];
    assert WasShown(lab, d.sequence) && LabelOk(d.labelId, lab, s.accepted) && Carries(d, s.accepted);
    var i :| 0 <= i < |lab.shown| && lab.shown[i].sequence == d.sequence;
    assert lab.shown[i] == Shown(d.sequence, d.price);
  }

  predicate Unverified(e: Event) { e.Update? && !e.verified }

  /** A history without the updates that did not verify. */
  function Erased(events: seq<Event>): seq<Event> {
    if |events| == 0 then []
    else
      var e := events[|events| - 1];
      Erased(events[..|events| - 1]) + if Unverified(e) then [] else [e]
  }

  /** Updates that do not verify leave no trace: whatever else happens, the system is
      at every moment exactly where it would be had they never arrived. */
  lemma {:induction false} UnverifiedLeavesNoTrace(c: Config, zone: set<LabelId>, events: seq<Event>)
    ensures After(c, zone, Erased(events)) == After(c, zone, events)
    decreases |events|
  {
    hide Work, Deliver, Hear;
    if |events| > 0 {
      var before, e := events[..|events| - 1], events[|events| - 1];
      UnverifiedLeavesNoTrace(c, zone, before);
      assert (Erased(before) + [e])[..|Erased(before)|] == Erased(before);
      NothingAdded(Erased(before));
    }
  }

  /** Every delivery the coordinator has reported as delivered was on its label's glass. */
  ghost predicate DeliveredOk(finished: map<nat, S.Outcome>, jobs: map<nat, S.Job>, labels: map<LabelId, Label>) {
    forall id :: id in finished && finished[id] == S.Acknowledged(S.Applied) ==>
      id in jobs && jobs[id].del.labelId in labels
      && Shown(jobs[id].del.sequence, jobs[id].del.price) in labels[jobs[id].del.labelId].shown
  }

  /** No step forgets a started delivery, or what a label has shown. */
  lemma HistoryStays(c: Config, s: System, e: Event, id: nat)
    requires Inv(c, s) && Enabled(s, e) && e != Crash && id in s.sched.jobs && s.sched.jobs[id].del.labelId in s.labels
    ensures var t := Step(c, s, e);
            && id in t.sched.jobs && t.sched.jobs[id].del == s.sched.jobs[id].del
            && s.sched.jobs[id].del.labelId in t.labels
            && forall x :: x in s.labels[s.sched.jobs[id].del.labelId].shown ==>
                x in t.labels[s.sched.jobs[id].del.labelId].shown
  {
    hide S.Inv, S.Step, S.Enabled, Step, Enabled, SchedulerEvent;
    SchedulerMoves(c, s, e);
    JobStays(c.sched, s.sched, SchedulerEvent(c, e), id);
    ShownStays(c, s, e, s.sched.jobs[id].del.labelId);
  }

  lemma ShownStays(c: Config, s: System, e: Event, l: LabelId)
    requires Enabled(s, e) && l in s.labels
    ensures l in Step(c, s, e).labels && forall x :: x in s.labels[l].shown ==> x in Step(c, s, e).labels[l].shown
  {
    hide S.Enabled, S.Step, S.HandleAck, S.Submit, Displays;
  }

  lemma JobStays(c: S.Config, s: S.State, x: S.Event, id: nat)
    requires S.Enabled(s, x) && S.Inv(c, s) && id in s.jobs
    ensures id in S.Step(c, s, x).jobs && S.Step(c, s, x).jobs[id].del == s.jobs[id].del
  {
    hide S.JobsOk, S.Accounted, S.TokensOk, S.AttemptsOk, S.AirOk, S.DoneOk, S.OrderOk, S.SlotsOk, S.NoneMissed;
    if !x.Submitted? && !x.Pumped? {
      Releases(c, s, x);
    }
  }

  /** In every run, a delivery reported as delivered was applied by its label. */
  lemma {:induction false} DeliveredMeansShown(c: Config, zone: set<LabelId>, events: seq<Event>)
    requires After(c, zone, events).Some?
    ensures var s := After(c, zone, events).value; DeliveredOk(s.sched.finished, s.sched.jobs, s.labels)
    decreases |events|
  {
    hide Inv, Step, Enabled, S.Inv;
    if |events| > 0 {
      var before, e := events[..|events| - 1], events[|events| - 1];
      DeliveredMeansShown(c, zone, before);
      RunKeeps(c, zone, before);
      StepKeepsDelivered(c, After(c, zone, before).value, e);
    }
  }

  lemma StepKeepsDelivered(c: Config, s: System, e: Event)
    requires Inv(c, s) && Enabled(s, e) && DeliveredOk(s.sched.finished, s.sched.jobs, s.labels)
    ensures var t := Step(c, s, e); DeliveredOk(t.sched.finished, t.sched.jobs, t.labels)
  {
    hide Inv, Apply, Work, Deliver, Hear;
    var t := Step(c, s, e);
    if e == Crash { return; }
    hide Step, Enabled;
    forall id | id in t.sched.finished && t.sched.finished[id] == S.Acknowledged(S.Applied)
      ensures id in t.sched.jobs && t.sched.jobs[id].del.labelId in t.labels
              && var d := t.sched.jobs[id].del; Shown(d.sequence, d.price) in t.labels[d.labelId].shown
    {
      if id in s.sched.finished {
        OutcomeStays(c, s, e, id);
      } else {
        DeliveredWasShown(c, s, e, id);
      }
      HistoryStays(c, s, e, id);
    }
  }

  lemma OutcomeStays(c: Config, s: System, e: Event, id: nat)
    requires Inv(c, s) && Enabled(s, e) && e != Crash && id in s.sched.finished
    ensures id in Step(c, s, e).sched.finished && Step(c, s, e).sched.finished[id] == s.sched.finished[id]
  {
    hide S.Inv, S.Step, S.Enabled, Step, Enabled, SchedulerEvent;
    SchedulerMoves(c, s, e);
    S.DoneFiresOnce(c.sched, s.sched, SchedulerEvent(c, e), id);
  }
}
