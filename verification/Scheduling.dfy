/** The zone coordinator's delivery scheduling as a state machine: one step per
    critical section, in any order the radio and the timers allow. */
module Scheduling {
  import opened Common

  type LabelId = string

  /** `id` is the delivery's submission number; it identifies its job. */
  datatype Delivery = Delivery(id: nat, labelId: LabelId, sequence: int, attested: bool, price: int)

  datatype Job = Job(del: Delivery, attempt: nat)

  /** What the job is waiting for: its first transmission, the radio's report on
      attempt `n`, the label's acknowledgement, or the end of a back-off. */
  datatype Token = Fresh | Sending(n: nat) | AwaitingAck | Retrying

  datatype AckStatus = Applied | StaleSequence | BadFrame | RefusedAttestation | RefusedUnattested

  datatype Ack = Ack(labelId: LabelId, sequence: int, status: AckStatus)

  datatype Outcome = Acknowledged(status: AckStatus) | Abandoned | NeedsAttestation

  datatype Config = Config(maxInflight: int, maxAttempts: int, roster: set<LabelId>)

  /** `strict` holds the labels that said they refuse unattested frames. `pumping` is
      the number of running pump loops, `finished` the outcomes reported, `done` every
      call of a submitter's callback and `air` every transmission, in order. */
  datatype State = State(queue: seq<Delivery>, pending: map<LabelId, nat>, jobs: map<nat, Job>,
                         tokens: map<nat, Token>, strict: set<LabelId>, stopped: bool, next: nat,
                         finished: map<nat, Outcome>, done: seq<nat>, air: seq<nat>, pumping: nat)

  const INITIAL := State([], map[], map[], map[], {}, false, 0, map[], [], [], 0)

  // ----- the steps -----

  function Submit(s: State, labelId: LabelId, sequence: int, attested: bool, price: int): State {
    var d := Delivery(s.next, labelId, sequence, attested, price);
    if s.stopped then s.(next := s.next + 1, finished := s.finished[d.id := Abandoned], done := s.done + [d.id])
    else s.(next := s.next + 1, queue := s.queue + [d], pumping := s.pumping + 1)
  }

  /** Position of the first queued delivery whose label is free, or the length. */
  function FirstFree(queue: seq<Delivery>, pending: map<LabelId, nat>): (i: nat)
    ensures i <= |queue|
    ensures i < |queue| ==> queue[i].labelId !in pending
    ensures forall k :: 0 <= k < i ==> queue[k].labelId in pending
  {
    if |queue| == 0 || queue[0].labelId !in pending then 0 else 1 + FirstFree(queue[1..], pending)
  }

  predicate CanStart(c: Config, s: State) {
    !s.stopped && |s.pending| < c.maxInflight && FirstFree(s.queue, s.pending) < |s.queue|
  }

  /** One turn of a pump loop: start a delivery, or leave the loop. */
  function Pump(c: Config, s: State): State
    requires s.pumping > 0
  {
    if CanStart(c, s) then
      var i := FirstFree(s.queue, s.pending);
      var d := s.queue[i];
      s.(queue := s.queue[..i] + s.queue[i + 1..], pending := s.pending[d.labelId := d.id],
         jobs := s.jobs[d.id := Job(d, 0)], tokens := s.tokens[d.id := Fresh])
    else s.(pumping := s.pumping - 1)
  }

  /** Finishes a job that still holds its label's slot; any other job is left alone. */
  function Complete(s: State, id: nat, o: Outcome): State
    requires id in s.jobs
  {
    var l := s.jobs[id].del.labelId;
    if l in s.pending && s.pending[l] == id then
      s.(pending := s.pending - {l}, finished := s.finished[id := o], done := s.done + [id], pumping := s.pumping + 1)
    else s
  }

  predicate Waits(s: State, id: nat) { id in s.tokens && id in s.jobs }

  function Transmit(s: State, id: nat): State
    requires Waits(s, id) && (s.tokens[id] == Fresh || s.tokens[id] == Retrying)
  {
    var job := s.jobs[id];
    if job.del.labelId in s.strict && !job.del.attested then
      Complete(s.(tokens := s.tokens - {id}), id, NeedsAttestation)
    else
      s.(jobs := s.jobs[id := job.(attempt := job.attempt + 1)],
         tokens := s.tokens[id := Sending(job.attempt + 1)], air := s.air + [id])
  }

  predicate Exhausted(c: Config, attempt: nat) { c.maxAttempts > 0 && attempt >= c.maxAttempts }

  /** The radio's report on a transmission. */
  function Report(c: Config, s: State, id: nat, delivered: bool): State
    requires Waits(s, id) && s.tokens[id].Sending?
  {
    if delivered then s.(tokens := s.tokens[id := AwaitingAck])
    else if Exhausted(c, s.tokens[id].n) || s.stopped then
      Complete(s.(tokens := s.tokens - {id}), id, Abandoned)
    else s.(tokens := s.tokens[id := Retrying])
  }

  function AckTimeout(c: Config, s: State, id: nat): State
    requires Waits(s, id) && s.tokens[id] == AwaitingAck
  {
    var job := s.jobs[id];
    if job.del.labelId !in s.pending then s.(tokens := s.tokens - {id})
    else if s.stopped || Exhausted(c, job.attempt) then
      Complete(s.(tokens := s.tokens - {id}), id, Abandoned)
    else s.(tokens := s.tokens[id := Retrying])
  }

  /** Does this acknowledgement answer the label's pending job? */
  predicate Answers(s: State, a: Ack) {
    a.labelId in s.pending && s.pending[a.labelId] in s.jobs
    && s.jobs[s.pending[a.labelId]].del.sequence == a.sequence
  }

  function Note(c: Config, s: State, a: Ack): State {
    if a.status == RefusedUnattested && a.labelId in c.roster then s.(strict := s.strict + {a.labelId}) else s
  }

  /** `stopped` says whether stopping the acknowledgement timer beat its firing. */
  function HandleAck(c: Config, s: State, a: Ack, stopped: bool): State {
    var t := Note(c, s, a);
    if !Answers(s, a) then t
    else
      var id := s.pending[a.labelId];
      var u := if stopped && id in s.tokens && s.tokens[id] == AwaitingAck then t.(tokens := t.tokens - {id}) else t;
      Complete(u, id, Acknowledged(a.status))
  }

  function Stop(s: State): State { s.(stopped := true) }

  datatype Event =
    | Submitted(labelId: LabelId, sequence: int, attested: bool, price: int)
    | Pumped
    | Transmitted(id: nat)
    | Reported(id: nat, delivered: bool)
    | TimedOut(id: nat)
    | AckReceived(ack: Ack, timerStopped: bool)
    | Halted

  predicate Enabled(s: State, e: Event) {
    match e
    case Submitted(_, _, _, _) => true
    case Pumped => s.pumping > 0
    case Transmitted(id) => Waits(s, id) && (s.tokens[id] == Fresh || s.tokens[id] == Retrying)
    case Reported(id, _) => Waits(s, id) && s.tokens[id].Sending?
    case TimedOut(id) => Waits(s, id) && s.tokens[id] == AwaitingAck
    case AckReceived(_, _) => true
    case Halted => true
  }

  function Step(c: Config, s: State, e: Event): State
    requires Enabled(s, e)
  {
    match e
    case Submitted(l, n, att, p) => Submit(s, l, n, att, p)
    case Pumped => Pump(c, s)
    case Transmitted(id) => Transmit(s, id)
    case Reported(id, ok) => Report(c, s, id, ok)
    case TimedOut(id) => AckTimeout(c, s, id)
    case AckReceived(a, b) => HandleAck(c, s, a, b)
    case Halted => Stop(s)
  }

  // ----- the invariants -----

  ghost predicate Queued(queue: seq<Delivery>, id: nat) {
    exists i :: 0 <= i < |queue| && queue[i].id == id
  }

  predicate Pending(jobs: map<nat, Job>, pending: map<LabelId, nat>, id: nat) {
    id in jobs && jobs[id].del.labelId in pending && pending[jobs[id].del.labelId] == id
  }

  /** Queued deliveries are numbered in order and neither started nor finished. */
  ghost predicate QueueOk(queue: seq<Delivery>, next: nat, started: set<nat>, finished: set<nat>) {
    && (forall i, j :: 0 <= i < j < |queue| ==> queue[i].id < queue[j].id)
    && (forall i :: 0 <= i < |queue| ==> queue[i].id < next && queue[i].id !in started && queue[i].id !in finished)
  }

  /** Every job is pending or finished, never both; a label's slot holds its own job. */
  ghost predicate JobsOk(jobs: map<nat, Job>, pending: map<LabelId, nat>, finished: set<nat>, next: nat) {
    && (forall id :: id in jobs ==>
          id < next && jobs[id].del.id == id && (Pending(jobs, pending, id) <==> id !in finished))
    && (forall l :: l in pending ==> pending[l] in jobs && jobs[pending[l]].del.labelId == l)
    && (forall id :: id in finished ==> id < next)
  }

  /** No submission is lost. */
  ghost predicate Accounted(queue: seq<Delivery>, next: nat, started: set<nat>, finished: set<nat>) {
    forall id :: 0 <= id < next ==> id in started || id in finished || Queued(queue, id)
  }

  /** The token agrees with the attempts made, and a pending job always has one,
      save those in `loose`. */
  ghost predicate TokensOk(c: Config, jobs: map<nat, Job>, pending: map<LabelId, nat>, tokens: map<nat, Token>,
                           loose: set<nat>) {
    && (forall id :: id in tokens ==> id in jobs && TokenOk(c, jobs[id], tokens[id]))
    && (forall id :: id in jobs && Pending(jobs, pending, id) && id !in loose ==> id in tokens)
  }

  predicate TokenOk(c: Config, job: Job, t: Token) {
    match t
    case Fresh => job.attempt == 0
    case Sending(n) => n == job.attempt >= 1
    case AwaitingAck => job.attempt >= 1
    case Retrying => job.attempt >= 1 && !Exhausted(c, job.attempt)
  }

  predicate AttemptsOk(c: Config, jobs: map<nat, Job>) {
    c.maxAttempts > 0 ==> forall id :: id in jobs ==> jobs[id].attempt <= c.maxAttempts
  }

  function Count(air: seq<nat>, id: nat): nat {
    if |air| == 0 then 0 else Count(air[..|air| - 1], id) + (if air[|air| - 1] == id then 1 else 0)
  }

  /** A job's attempt counter is the number of times it went on the air. */
  ghost predicate AirOk(air: seq<nat>, jobs: map<nat, Job>) {
    forall id: nat :: Count(air, id) == if id in jobs then jobs[id].attempt else 0
  }

  /** Every finished delivery's callback was called exactly once, and no other's. */
  ghost predicate DoneOk(done: seq<nat>, finished: set<nat>) {
    forall id: nat :: Count(done, id) == if id in finished then 1 else 0
  }

  /** Started deliveries of a label precede its queued ones. */
  ghost predicate OrderOk(queue: seq<Delivery>, jobs: map<nat, Job>) {
    forall id, i :: id in jobs && 0 <= i < |queue| && jobs[id].del.labelId == queue[i].labelId ==> id < queue[i].id
  }

  predicate SlotsOk(c: Config, pending: map<LabelId, nat>) {
    |pending| <= if c.maxInflight < 0 then 0 else c.maxInflight
  }

  /** With no pump running, slots are full or every queued label is busy. */
  ghost predicate NoneMissed(c: Config, s: State) {
    s.pumping == 0 && !s.stopped ==>
      |s.pending| >= c.maxInflight || forall i :: 0 <= i < |s.queue| ==> s.queue[i].labelId in s.pending
  }

  ghost predicate InvBut(c: Config, s: State, loose: set<nat>) {
    && QueueOk(s.queue, s.next, s.jobs.Keys, s.finished.Keys)
    && JobsOk(s.jobs, s.pending, s.finished.Keys, s.next)
    && Accounted(s.queue, s.next, s.jobs.Keys, s.finished.Keys)
    && TokensOk(c, s.jobs, s.pending, s.tokens, loose)
    && AttemptsOk(c, s.jobs)
    && AirOk(s.air, s.jobs)
    && DoneOk(s.done, s.finished.Keys)
    && OrderOk(s.queue, s.jobs)
    && SlotsOk(c, s.pending)
    && NoneMissed(c, s)
  }

  ghost predicate Inv(c: Config, s: State) { InvBut(c, s, {}) }

  lemma InitialInv(c: Config)
    ensures Inv(c, INITIAL)
  {
  }

  // ----- every step keeps them -----

  lemma EnqueueKeeps(queue: seq<Delivery>, d: Delivery, next: nat, jobs: map<nat, Job>, finished: set<nat>)
    requires QueueOk(queue, next, jobs.Keys, finished) && Accounted(queue, next, jobs.Keys, finished)
             && OrderOk(queue, jobs)
    requires d.id == next && (forall id :: id in jobs ==> id < next) && (forall id :: id in finished ==> id < next)
    ensures QueueOk(queue + [d], next + 1, jobs.Keys, finished) && Accounted(queue + [d], next + 1, jobs.Keys, finished)
    ensures OrderOk(queue + [d], jobs)
  {
    var q := queue + [d];
    assert q[|queue|] == d && forall i :: 0 <= i < |queue| ==> q[i] == queue[i];
    forall id | 0 <= id < next + 1
      ensures id in jobs.Keys || id in finished || Queued(q, id)
    {
      if id == next {
        assert q[|queue|].id == id;
      } else if Queued(queue, id) {
        var i :| 0 <= i < |queue| && queue[i].id == id;
        assert q[i].id == id;
      }
    }
  }

  lemma JobsOkLater(jobs: map<nat, Job>, pending: map<LabelId, nat>, finished: set<nat>, next: nat)
    requires JobsOk(jobs, pending, finished, next)
    ensures JobsOk(jobs, pending, finished, next + 1)
    ensures JobsOk(jobs, pending, finished + {next}, next + 1)
  {
  }

  lemma SubmitKeeps(c: Config, s: State, l: LabelId, n: int, att: bool, p: int)
    requires Inv(c, s)
    ensures Inv(c, Submit(s, l, n, att, p))
  {
    hide QueueOk, JobsOk, Accounted, TokensOk, AirOk, OrderOk, AttemptsOk, DoneOk, Pending;
    NumbersBelow(s);
    var t := Submit(s, l, n, att, p);
    JobsOkLater(s.jobs, s.pending, s.finished.Keys, s.next);
    if s.stopped {
      assert t.finished.Keys == s.finished.Keys + {s.next};
      RefuseKeeps(s.queue, s.next, s.jobs.Keys, s.finished.Keys);
      DoneOnceMore(s.done, s.finished.Keys, s.next);
    } else {
      EnqueueKeeps(s.queue, Delivery(s.next, l, n, att, p), s.next, s.jobs, s.finished.Keys);
    }
  }

  lemma NumbersBelow(s: State)
    requires JobsOk(s.jobs, s.pending, s.finished.Keys, s.next)
    ensures (forall id :: id in s.jobs ==> id < s.next) && (forall id :: id in s.finished ==> id < s.next)
  {
  }

  lemma RefuseKeeps(queue: seq<Delivery>, next: nat, started: set<nat>, finished: set<nat>)
    requires QueueOk(queue, next, started, finished) && Accounted(queue, next, started, finished)
    ensures QueueOk(queue, next + 1, started, finished + {next})
            && Accounted(queue, next + 1, started, finished + {next})
  {
  }

  lemma DequeueOrder(queue: seq<Delivery>, i: nat, next: nat, jobs: map<nat, Job>, finished: set<nat>)
    requires QueueOk(queue, next, jobs.Keys, finished) && OrderOk(queue, jobs)
    requires i < |queue| && forall k :: 0 <= k < i ==> queue[k].labelId != queue[i].labelId
    ensures var q := queue[..i] + queue[i + 1..];
            var js := jobs[queue[i].id := Job(queue[i], 0)];
            QueueOk(q, next, js.Keys, finished) && OrderOk(q, js)
  {
    var q := queue[..i] + queue[i + 1..];
    forall k | 0 <= k < |q|
      ensures q[k] == queue[if k < i then k else k + 1]
    {
    }
  }

  lemma DequeueKeeps(queue: seq<Delivery>, i: nat, next: nat, jobs: map<nat, Job>, finished: set<nat>)
    requires QueueOk(queue, next, jobs.Keys, finished) && Accounted(queue, next, jobs.Keys, finished)
             && OrderOk(queue, jobs)
    requires i < |queue| && forall k :: 0 <= k < i ==> queue[k].labelId != queue[i].labelId
    ensures var q := queue[..i] + queue[i + 1..];
            var js := jobs[queue[i].id := Job(queue[i], 0)];
            QueueOk(q, next, js.Keys, finished) && Accounted(q, next, js.Keys, finished) && OrderOk(q, js)
  {
    var q := queue[..i] + queue[i + 1..];
    var js := jobs[queue[i].id := Job(queue[i], 0)];
    DequeueOrder(queue, i, next, jobs, finished);
    assert js.Keys == jobs.Keys + {queue[i].id};
    hide QueueOk, OrderOk;
    forall id | 0 <= id < next
      ensures id in js.Keys || id in finished || Queued(q, id)
    {
      if Queued(queue, id) && id != queue[i].id {
        var k :| 0 <= k < |queue| && queue[k].id == id;
        assert q[if k < i then k else k - 1].id == id;
      }
    }
  }

  lemma StartJobsOk(jobs: map<nat, Job>, pending: map<LabelId, nat>, finished: set<nat>, next: nat, d: Delivery)
    requires JobsOk(jobs, pending, finished, next) && d.labelId !in pending && d.id !in jobs
             && d.id !in finished && d.id < next
    ensures JobsOk(jobs[d.id := Job(d, 0)], pending[d.labelId := d.id], finished, next)
    ensures forall id :: id in jobs ==>
              (Pending(jobs, pending, id) <==> Pending(jobs[d.id := Job(d, 0)], pending[d.labelId := d.id], id))
  {
  }

  lemma StartTokensOk(c: Config, s: State, d: Delivery)
    requires Inv(c, s) && d.labelId !in s.pending && d.id !in s.jobs && d.id !in s.finished && d.id < s.next
    ensures TokensOk(c, s.jobs[d.id := Job(d, 0)], s.pending[d.labelId := d.id], s.tokens[d.id := Fresh], {})
    ensures AttemptsOk(c, s.jobs[d.id := Job(d, 0)]) && AirOk(s.air, s.jobs[d.id := Job(d, 0)])
  {
    hide QueueOk, JobsOk, Accounted, OrderOk, DoneOk, SlotsOk, NoneMissed;
    StartJobsOk(s.jobs, s.pending, s.finished.Keys, s.next, d);
    assert Count(s.air, d.id) == 0;
  }

  lemma StartKeeps(c: Config, s: State)
    requires Inv(c, s) && s.pumping > 0 && CanStart(c, s)
    ensures Inv(c, Pump(c, s))
  {
    hide QueueOk, JobsOk, Accounted, TokensOk, AirOk, OrderOk, AttemptsOk, DoneOk, FirstFree;
    var i := FirstFree(s.queue, s.pending);
    var d := s.queue[i];
    NotStarted(s, i);
    DequeueKeeps(s.queue, i, s.next, s.jobs, s.finished.Keys);
    StartJobsOk(s.jobs, s.pending, s.finished.Keys, s.next, d);
    StartTokensOk(c, s, d);
    StartAirOk(c, s.air, s.jobs, d);
    assert |s.pending[d.labelId := d.id]| == |s.pending| + 1;
  }

  lemma NotStarted(s: State, i: nat)
    requires QueueOk(s.queue, s.next, s.jobs.Keys, s.finished.Keys) && i < |s.queue|
    ensures s.queue[i].id !in s.jobs && s.queue[i].id !in s.finished && s.queue[i].id < s.next
  {
  }

  lemma StartAirOk(c: Config, air: seq<nat>, jobs: map<nat, Job>, d: Delivery)
    requires AirOk(air, jobs) && AttemptsOk(c, jobs) && d.id !in jobs
    ensures AirOk(air, jobs[d.id := Job(d, 0)]) && AttemptsOk(c, jobs[d.id := Job(d, 0)])
  {
  }

  lemma PumpKeeps(c: Config, s: State)
    requires Inv(c, s) && s.pumping > 0
    ensures Inv(c, Pump(c, s))
  {
    if CanStart(c, s) {
      StartKeeps(c, s);
    } else {
      hide QueueOk, JobsOk, Accounted, TokensOk, AirOk, OrderOk, AttemptsOk, DoneOk;
    }
  }

  /** Dropping a job's token loosens only that job. */
  lemma DropTokenKeeps(c: Config, s: State, id: nat)
    requires Inv(c, s)
    ensures InvBut(c, s.(tokens := s.tokens - {id}), {id})
  {
    assert TokensOk(c, s.jobs, s.pending, s.tokens - {id}, {id});
    hide QueueOk, JobsOk, Accounted, TokensOk, AirOk, OrderOk, AttemptsOk, DoneOk;
  }

  lemma FinishJobsOk(jobs: map<nat, Job>, pending: map<LabelId, nat>, finished: set<nat>, next: nat, id: nat)
    requires JobsOk(jobs, pending, finished, next) && Pending(jobs, pending, id)
    ensures JobsOk(jobs, pending - {jobs[id].del.labelId}, finished + {id}, next)
    ensures forall k :: k in jobs && Pending(jobs, pending - {jobs[id].del.labelId}, k) ==>
              Pending(jobs, pending, k) && k != id
  {
  }

  lemma FinishQueueOk(queue: seq<Delivery>, next: nat, started: set<nat>, finished: set<nat>, id: nat)
    requires QueueOk(queue, next, started, finished) && Accounted(queue, next, started, finished) && id in started
    ensures QueueOk(queue, next, started, finished + {id}) && Accounted(queue, next, started, finished + {id})
  {
  }

  lemma PendingIsUnfinished(jobs: map<nat, Job>, pending: map<LabelId, nat>, finished: set<nat>, next: nat, id: nat)
    requires JobsOk(jobs, pending, finished, next) && Pending(jobs, pending, id)
    ensures id !in finished
  {
  }

  lemma CompleteKeeps(c: Config, s: State, id: nat, o: Outcome)
    requires InvBut(c, s, {id}) && id in s.jobs
    ensures Inv(c, Complete(s, id, o))
  {
    hide QueueOk, JobsOk, Accounted, TokensOk, AirOk, OrderOk, AttemptsOk, DoneOk;
    FinishTokensOk(c, s, id);
    if Pending(s.jobs, s.pending, id) {
      var l := s.jobs[id].del.labelId;
      FinishJobsOk(s.jobs, s.pending, s.finished.Keys, s.next, id);
      FinishQueueOk(s.queue, s.next, s.jobs.Keys, s.finished.Keys, id);
      PendingIsUnfinished(s.jobs, s.pending, s.finished.Keys, s.next, id);
      DoneOnceMore(s.done, s.finished.Keys, id);
      assert s.finished[id := o].Keys == s.finished.Keys + {id};
      assert |s.pending - {l}| == |s.pending| - 1;
    }
  }

  /** Once the loosened job is out of its slot, every pending job has its token. */
  lemma FinishTokensOk(c: Config, s: State, id: nat)
    requires InvBut(c, s, {id}) && id in s.jobs
    ensures TokensOk(c, s.jobs, if Pending(s.jobs, s.pending, id) then s.pending - {s.jobs[id].del.labelId}
              else s.pending, s.tokens, {})
  {
    hide QueueOk, JobsOk, Accounted, AirOk, OrderOk, AttemptsOk, DoneOk;
  }

  lemma CountAppend(air: seq<nat>, x: nat, id: nat)
    ensures Count(air + [x], id) == Count(air, id) + (if x == id then 1 else 0)
  {
    assert (air + [x])[..|air|] == air;
  }

  lemma DoneOnceMore(done: seq<nat>, finished: set<nat>, id: nat)
    requires DoneOk(done, finished) && id !in finished
    ensures DoneOk(done + [id], finished + {id})
  {
    forall k: nat
      ensures Count(done + [id], k) == Count(done, k) + (if id == k then 1 else 0)
    {
      CountAppend(done, id, k);
    }
  }

  lemma AttemptJobsOk(jobs: map<nat, Job>, pending: map<LabelId, nat>, finished: set<nat>, next: nat,
                      queue: seq<Delivery>, id: nat)
    requires JobsOk(jobs, pending, finished, next) && OrderOk(queue, jobs) && id in jobs
    ensures var js := jobs[id := jobs[id].(attempt := jobs[id].attempt + 1)];
            && js.Keys == jobs.Keys && JobsOk(js, pending, finished, next) && OrderOk(queue, js)
            && forall k :: k in jobs ==> (Pending(js, pending, k) <==> Pending(jobs, pending, k))
  {
  }

  lemma AttemptAirOk(air: seq<nat>, jobs: map<nat, Job>, id: nat)
    requires AirOk(air, jobs) && id in jobs
    ensures AirOk(air + [id], jobs[id := jobs[id].(attempt := jobs[id].attempt + 1)])
  {
    forall k: nat
      ensures Count(air + [id], k) == Count(air, k) + (if id == k then 1 else 0)
    {
      CountAppend(air, id, k);
    }
  }

  lemma AttemptTokensOk(c: Config, s: State, id: nat)
    requires Inv(c, s) && Enabled(s, Transmitted(id))
    ensures var js := s.jobs[id := s.jobs[id].(attempt := s.jobs[id].attempt + 1)];
            && TokensOk(c, js, s.pending, s.tokens[id := Sending(s.jobs[id].attempt + 1)], {}) && AttemptsOk(c, js)
  {
    hide QueueOk, JobsOk, Accounted, AirOk, OrderOk, DoneOk, Pending, SlotsOk, NoneMissed;
    AttemptJobsOk(s.jobs, s.pending, s.finished.Keys, s.next, s.queue, id);
    assert TokenOk(c, s.jobs[id], s.tokens[id]);
  }

  lemma TransmitKeeps(c: Config, s: State, id: nat)
    requires Inv(c, s) && Enabled(s, Transmitted(id))
    ensures Inv(c, Transmit(s, id))
  {
    hide QueueOk, JobsOk, Accounted, TokensOk, AirOk, OrderOk, AttemptsOk, DoneOk, Pending, TokenOk, Complete;
    var job := s.jobs[id];
    if job.del.labelId in s.strict && !job.del.attested {
      DropTokenKeeps(c, s, id);
      CompleteKeeps(c, s.(tokens := s.tokens - {id}), id, NeedsAttestation);
    } else {
      AttemptJobsOk(s.jobs, s.pending, s.finished.Keys, s.next, s.queue, id);
      AttemptAirOk(s.air, s.jobs, id);
      AttemptTokensOk(c, s, id);
    }
  }

  /** Replacing a job's token by one that fits keeps everything. */
  lemma SetTokenKeeps(c: Config, s: State, id: nat, t: Token)
    requires Inv(c, s) && id in s.jobs && TokenOk(c, s.jobs[id], t)
    ensures Inv(c, s.(tokens := s.tokens[id := t]))
  {
    assert TokensOk(c, s.jobs, s.pending, s.tokens[id := t], {});
    hide QueueOk, JobsOk, Accounted, TokensOk, AirOk, OrderOk, AttemptsOk, DoneOk;
  }

  lemma TokenFits(c: Config, s: State, id: nat)
    requires Inv(c, s) && Waits(s, id)
    ensures TokenOk(c, s.jobs[id], s.tokens[id])
  {
  }

  lemma ReportKeeps(c: Config, s: State, id: nat, delivered: bool)
    requires Inv(c, s) && Enabled(s, Reported(id, delivered))
    ensures Inv(c, Report(c, s, id, delivered))
  {
    TokenFits(c, s, id);
    hide InvBut;
    if delivered {
      SetTokenKeeps(c, s, id, AwaitingAck);
    } else if Exhausted(c, s.tokens[id].n) || s.stopped {
      DropTokenKeeps(c, s, id);
      CompleteKeeps(c, s.(tokens := s.tokens - {id}), id, Abandoned);
    } else {
      SetTokenKeeps(c, s, id, Retrying);
    }
  }

  lemma TimeoutKeeps(c: Config, s: State, id: nat)
    requires Inv(c, s) && Enabled(s, TimedOut(id))
    ensures Inv(c, AckTimeout(c, s, id))
  {
    TokenFits(c, s, id);
    var job, t := s.jobs[id], s.(tokens := s.tokens - {id});
    DropTokenKeeps(c, s, id);
    if job.del.labelId !in s.pending {
      assert TokensOk(c, s.jobs, s.pending, t.tokens, {});
      hide QueueOk, JobsOk, Accounted, TokensOk, AirOk, OrderOk, AttemptsOk, DoneOk;
    } else if s.stopped || Exhausted(c, job.attempt) {
      hide InvBut;
      CompleteKeeps(c, t, id, Abandoned);
    } else {
      hide InvBut;
      SetTokenKeeps(c, s, id, Retrying);
    }
  }

  lemma NoteKeeps(c: Config, s: State, a: Ack)
    requires Inv(c, s)
    ensures Inv(c, Note(c, s, a))
  {
    hide QueueOk, JobsOk, Accounted, TokensOk, AirOk, OrderOk, AttemptsOk, DoneOk;
  }

  lemma Loosen(c: Config, s: State, id: nat)
    requires Inv(c, s)
    ensures InvBut(c, s, {id})
  {
    assert TokensOk(c, s.jobs, s.pending, s.tokens, {id});
    hide QueueOk, JobsOk, Accounted, TokensOk, AirOk, OrderOk, AttemptsOk, DoneOk;
  }

  lemma AckKeeps(c: Config, s: State, a: Ack, stopped: bool)
    requires Inv(c, s)
    ensures Inv(c, HandleAck(c, s, a, stopped))
  {
    hide InvBut;
    NoteKeeps(c, s, a);
    var t := Note(c, s, a);
    if Answers(s, a) {
      var id := s.pending[a.labelId];
      DropTokenKeeps(c, t, id);
      Loosen(c, t, id);
      var u := if stopped && id in s.tokens && s.tokens[id] == AwaitingAck then t.(tokens := t.tokens - {id}) else t;
      CompleteKeeps(c, u, id, Acknowledged(a.status));
    }
  }

  lemma StopKeeps(c: Config, s: State)
    requires Inv(c, s)
    ensures Inv(c, Stop(s))
  {
    hide QueueOk, JobsOk, Accounted, TokensOk, AirOk, OrderOk, AttemptsOk, DoneOk;
  }

  /** Every step keeps every invariant. */
  lemma StepKeeps(c: Config, s: State, e: Event)
    requires Inv(c, s) && Enabled(s, e)
    ensures Inv(c, Step(c, s, e))
  {
    hide InvBut, Submit, Pump, Transmit, Report, AckTimeout, HandleAck, Stop;
    match e
    case Submitted(l, n, att, p) => SubmitKeeps(c, s, l, n, att, p);
    case Pumped => PumpKeeps(c, s);
    case Transmitted(id) => TransmitKeeps(c, s, id);
    case Reported(id, ok) => ReportKeeps(c, s, id, ok);
    case TimedOut(id) => TimeoutKeeps(c, s, id);
    case AckReceived(a, b) => AckKeeps(c, s, a, b);
    case Halted => StopKeeps(c, s);
  }

  // ----- over every run -----

  /** Where a history leads, if each event is possible in turn. */
  function After(c: Config, events: seq<Event>): Option<State> {
    if |events| == 0 then Some(INITIAL)
    else
      match After(c, events[..|events| - 1])
      case None => None
      case Some(s) => if Enabled(s, events[|events| - 1]) then Some(Step(c, s, events[|events| - 1])) else None
  }

  lemma {:induction false} RunKeeps(c: Config, events: seq<Event>)
    requires After(c, events).Some?
    ensures Inv(c, After(c, events).value)
    decreases |events|
  {
    hide Inv, Step, Enabled;
    if |events| == 0 {
      InitialInv(c);
    } else {
      RunKeeps(c, events[..|events| - 1]);
      StepKeeps(c, After(c, events[..|events| - 1]).value, events[|events| - 1]);
    }
  }

  ghost function Places(s: State, id: nat): nat {
    (if Queued(s.queue, id) then 1 else 0) + (if Pending(s.jobs, s.pending, id) then 1 else 0)
    + (if id in s.finished then 1 else 0)
  }

  ghost predicate Guaranteed(c: Config, s: State, id: nat) {
    && Places(s, id) == 1
    && (Pending(s.jobs, s.pending, id) ==> id in s.tokens)
    && |s.pending| <= (if c.maxInflight < 0 then 0 else c.maxInflight)
    && (c.maxAttempts > 0 ==> Count(s.air, id) <= c.maxAttempts)
    && Count(s.done, id) == (if id in s.finished then 1 else 0)
    && NoneMissed(c, s)
  }

  lemma InvGuarantees(c: Config, s: State, id: nat)
    requires Inv(c, s) && id < s.next
    ensures Guaranteed(c, s, id)
  {
    if Queued(s.queue, id) {
      var i :| 0 <= i < |s.queue| && s.queue[i].id == id;
    }
  }

  /** In every run: each submitted delivery is in exactly one of queued, pending and
      finished; a label has at most one pending delivery and all labels together no
      more than the limit; a pending delivery always has an event coming; no delivery
      goes on the air more often than allowed; its callback is called exactly once if it
      is finished and never before; idle slots leave no free label waiting. */
  lemma SchedulerGuarantees(c: Config, events: seq<Event>, id: nat)
    requires After(c, events).Some? && id < After(c, events).value.next
    ensures Guaranteed(c, After(c, events).value, id)
  {
    hide Guaranteed;
    RunKeeps(c, events);
    InvGuarantees(c, After(c, events).value, id);
  }

  /** `t` reports nothing new, or one outcome of a job that had none. */
  predicate ReportsAtMost(s: State, t: State, o: Outcome) {
    || (t.finished == s.finished && t.done == s.done)
    || exists id ::
         id in t.finished && id !in s.finished && t.finished == s.finished[id := o] && t.done == s.done + [id]
  }

  lemma CompleteReports(s: State, u: State, id: nat, o: Outcome)
    requires JobsOk(s.jobs, s.pending, s.finished.Keys, s.next) && id in s.jobs
    requires u.jobs == s.jobs && u.pending == s.pending && u.finished == s.finished && u.done == s.done
    ensures ReportsAtMost(s, Complete(u, id, o), o)
    ensures Complete(u, id, o).finished == s.finished || Complete(u, id, o).finished == s.finished[id := o]
  {
    if Pending(s.jobs, s.pending, id) {
      assert id in Complete(u, id, o).finished;
    }
  }

  /** The outcome an event can report. */
  function Reportable(e: Event): Outcome {
    match e
    case Transmitted(_) => NeedsAttestation
    case AckReceived(a, _) => Acknowledged(a.status)
    case _ => Abandoned
  }

  lemma StepReports(c: Config, s: State, e: Event)
    requires Inv(c, s) && Enabled(s, e)
    ensures ReportsAtMost(s, Step(c, s, e), Reportable(e))
  {
    hide QueueOk, JobsOk, Accounted, AirOk, OrderOk, AttemptsOk, DoneOk, TokensOk, SlotsOk, NoneMissed;
    hide Complete, ReportsAtMost, Submit, HandleAck;
    NothingReported(s, Step(c, s, e), Reportable(e));
    match e
    case Submitted(_, _, _, _) => SubmitReports(s, e);
    case Transmitted(id) => CompleteReports(s, s.(tokens := s.tokens - {id}), id, NeedsAttestation);
    case Reported(id, _) => CompleteReports(s, s.(tokens := s.tokens - {id}), id, Abandoned);
    case TimedOut(id) => CompleteReports(s, s.(tokens := s.tokens - {id}), id, Abandoned);
    case AckReceived(a, b) => AckReports(c, s, a, b);
    case _ =>
  }

  lemma AckReports(c: Config, s: State, a: Ack, stopped: bool)
    requires JobsOk(s.jobs, s.pending, s.finished.Keys, s.next)
    ensures ReportsAtMost(s, HandleAck(c, s, a, stopped), Acknowledged(a.status))
  {
    hide JobsOk, Complete, ReportsAtMost;
    if Answers(s, a) {
      var t, id := Note(c, s, a), s.pending[a.labelId];
      CompleteReports(s, t, id, Acknowledged(a.status));
      CompleteReports(s, t.(tokens := t.tokens - {id}), id, Acknowledged(a.status));
    } else {
      NothingReported(s, HandleAck(c, s, a, stopped), Acknowledged(a.status));
    }
  }

  lemma NothingReported(s: State, t: State, o: Outcome)
    ensures t.finished == s.finished && t.done == s.done ==> ReportsAtMost(s, t, o)
  {
  }

  lemma SubmitReports(s: State, e: Event)
    requires JobsOk(s.jobs, s.pending, s.finished.Keys, s.next) && e.Submitted?
    ensures ReportsAtMost(s, Submit(s, e.labelId, e.sequence, e.attested, e.price), Abandoned)
  {
    assert s.next !in s.finished;
    assert s.stopped ==> s.next in Submit(s, e.labelId, e.sequence, e.attested, e.price).finished;
  }

  /** A reported outcome never changes, and a step calls at most one callback, that of a
      delivery whose callback has never been called. */
  lemma DoneFiresOnce(c: Config, s: State, e: Event, id: nat)
    requires Inv(c, s) && Enabled(s, e)
    ensures id in s.finished ==> id in Step(c, s, e).finished && Step(c, s, e).finished[id] == s.finished[id]
    ensures |Step(c, s, e).finished| <= |s.finished| + 1
    ensures Count(s.done, id) <= Count(Step(c, s, e).done, id) <= 1
    ensures Count(s.done, id) < Count(Step(c, s, e).done, id) <==> id in Step(c, s, e).finished && id !in s.finished
    ensures s.done <= Step(c, s, e).done && |Step(c, s, e).done| <= |s.done| + 1
  {
    StepKeeps(c, s, e);
    StepReports(c, s, e);
    hide Step, QueueOk, JobsOk, Accounted, AirOk, OrderOk, AttemptsOk, TokensOk, SlotsOk, NoneMissed, Count;
  }

  /** A delivery counts as delivered only on an acknowledgement that says so and
      carries its own label and sequence. */
  lemma DeliveredMeansAcknowledged(c: Config, s: State, e: Event, id: nat)
    requires Inv(c, s) && Enabled(s, e) && id !in s.finished
    requires id in Step(c, s, e).finished && Step(c, s, e).finished[id] == Acknowledged(Applied)
    ensures e.AckReceived? && id in s.jobs
            && e.ack == Ack(s.jobs[id].del.labelId, s.jobs[id].del.sequence, Applied)
  {
    hide QueueOk, Accounted, AirOk, OrderOk, AttemptsOk, DoneOk, TokensOk, Submit, Pump, Transmit, Report, AckTimeout;
    StepReports(c, s, e);
    if e.AckReceived? && Answers(s, e.ack) {
      CompleteReports(s, Note(c, s, e.ack), s.pending[e.ack.labelId], Acknowledged(e.ack.status));
    }
  }

  /** A start takes the earliest delivery whose label is free, so a label's deliveries
      start in submission order. */
  lemma StartsInOrder(c: Config, s: State)
    requires Inv(c, s) && s.pumping > 0 && CanStart(c, s)
    ensures var i := FirstFree(s.queue, s.pending);
            var d := s.queue[i];
            && Pending(Pump(c, s).jobs, Pump(c, s).pending, d.id)
            && (forall k :: 0 <= k < i ==> s.queue[k].labelId in s.pending)
            && (forall id :: id in s.jobs && s.jobs[id].del.labelId == d.labelId ==> id < d.id && id in s.finished)
            && (forall k :: 0 <= k < |s.queue| && k != i && s.queue[k].labelId == d.labelId ==> d.id < s.queue[k].id)
  {
    hide Accounted, AirOk, AttemptsOk, DoneOk, TokensOk;
  }

  /** How many more of its own events a job can see. */
  function Remaining(c: Config, s: State, id: nat): int
    requires Waits(s, id)
  {
    3 * (c.maxAttempts - s.jobs[id].attempt)
    + (match s.tokens[id] case Sending(_) => 2 case AwaitingAck => 1 case _ => 0)
  }

  /** With a positive attempt limit, each event of a job releases its token or brings
      it strictly closer to the end, so retrying always ends. */
  lemma RetryingEnds(c: Config, s: State, e: Event, id: nat)
    requires Inv(c, s) && Enabled(s, e) && c.maxAttempts > 0
    requires e == Transmitted(id) || e == Reported(id, true) || e == Reported(id, false) || e == TimedOut(id)
    ensures Remaining(c, s, id) >= 0
    ensures var t := Step(c, s, e);
            Waits(t, id) ==> 0 <= Remaining(c, t, id) < Remaining(c, s, id)
  {
    hide QueueOk, JobsOk, Accounted, AirOk, OrderOk, DoneOk;
    TokenFits(c, s, id);
  }

  /** An event of the delivery's own job: a transmission, a report or a time-out. */
  predicate Own(e: Event, id: nat) {
    e == Transmitted(id) || e == Reported(id, true) || e == Reported(id, false) || e == TimedOut(id)
  }

  /** How many such events a delivery can still see: all of them before it starts, none once
      its job waits for nothing. */
  function StillToCome(c: Config, s: State, id: nat): int {
    if id !in s.jobs then 3 * c.maxAttempts else if id in s.tokens then Remaining(c, s, id) else 0
  }

  /** No other event gives a job more to come. */
  lemma StepComesCloser(c: Config, s: State, e: Event, id: nat)
    requires Inv(c, s) && Enabled(s, e) && c.maxAttempts > 0
    ensures 0 <= StillToCome(c, Step(c, s, e), id)
    ensures StillToCome(c, Step(c, s, e), id) + (if Own(e, id) then 1 else 0) <= StillToCome(c, s, id)
  {
    if Own(e, id) {
      OwnStep(c, s, e, id);
    } else {
      hide Accounted, AirOk, OrderOk, AttemptsOk, DoneOk, SlotsOk, NoneMissed, Step;
      if id in s.tokens { RemainingFits(c, s, id); }
      OtherStep(c, s, e, id);
    }
  }

  lemma OwnStep(c: Config, s: State, e: Event, id: nat)
    requires Inv(c, s) && Enabled(s, e) && c.maxAttempts > 0 && Own(e, id)
    ensures 0 <= StillToCome(c, Step(c, s, e), id) < StillToCome(c, s, id)
  {
    hide Inv, Remaining;
    RetryingEnds(c, s, e, id);
    OwnLeavesSome(c, s, e, id);
  }

  lemma OwnLeavesSome(c: Config, s: State, e: Event, id: nat)
    requires Inv(c, s) && Enabled(s, e) && c.maxAttempts > 0 && Own(e, id)
    ensures id in s.jobs && id in s.tokens && id in Step(c, s, e).jobs && Remaining(c, s, id) > 0
  {
    hide QueueOk, JobsOk, Accounted, AirOk, OrderOk, DoneOk;
    TokenFits(c, s, id);
  }

  lemma RemainingFits(c: Config, s: State, id: nat)
    requires Inv(c, s) && c.maxAttempts > 0 && Waits(s, id)
    ensures 0 <= Remaining(c, s, id) <= 3 * c.maxAttempts
  {
    hide QueueOk, JobsOk, Accounted, AirOk, OrderOk, DoneOk;
    TokenFits(c, s, id);
  }

  /** The delivery's job is as it was, its token too unless it is gone, or it has just started. */
  predicate Undisturbed(s: State, t: State, id: nat) {
    && (id in s.jobs ==> id in t.jobs && t.jobs[id] == s.jobs[id])
    && (id in s.jobs && id in t.tokens ==> id in s.tokens && t.tokens[id] == s.tokens[id])
    && (id !in s.jobs && id in t.jobs ==> t.jobs[id].attempt == 0 && id in t.tokens && t.tokens[id] == Fresh)
  }

  lemma OtherStep(c: Config, s: State, e: Event, id: nat)
    requires Inv(c, s) && Enabled(s, e) && !Own(e, id)
    ensures Undisturbed(s, Step(c, s, e), id)
  {
    hide Inv, InvBut, Pump, Transmit, Report, AckTimeout, HandleAck;
    match e
    case Pumped => PumpLeaves(c, s, id);
    case Transmitted(x) => TransmitLeaves(c, s, x, id);
    case Reported(x, delivered) => ReportLeaves(c, s, x, delivered, id);
    case TimedOut(x) => TimeoutLeaves(c, s, x, id);
    case AckReceived(a, stopped) => AckLeaves(c, s, a, stopped, id);
    case _ =>
  }

  lemma PumpLeaves(c: Config, s: State, id: nat)
    requires Inv(c, s) && s.pumping > 0
    ensures Undisturbed(s, Pump(c, s), id)
  {
    hide JobsOk, Accounted, AirOk, OrderOk, AttemptsOk, DoneOk, SlotsOk, NoneMissed, FirstFree, TokensOk;
  }

  lemma CompleteLeaves(s: State, x: nat, o: Outcome)
    requires x in s.jobs
    ensures Complete(s, x, o).jobs == s.jobs && Complete(s, x, o).tokens == s.tokens
  {
  }

  lemma TransmitLeaves(c: Config, s: State, x: nat, id: nat)
    requires Enabled(s, Transmitted(x)) && x != id
    ensures Undisturbed(s, Transmit(s, x), id)
  {
    hide Complete;
    CompleteLeaves(s.(tokens := s.tokens - {x}), x, NeedsAttestation);
  }

  lemma ReportLeaves(c: Config, s: State, x: nat, delivered: bool, id: nat)
    requires Enabled(s, Reported(x, delivered)) && x != id
    ensures Undisturbed(s, Report(c, s, x, delivered), id)
  {
    hide Complete;
    CompleteLeaves(s.(tokens := s.tokens - {x}), x, Abandoned);
  }

  lemma TimeoutLeaves(c: Config, s: State, x: nat, id: nat)
    requires Enabled(s, TimedOut(x)) && x != id
    ensures Undisturbed(s, AckTimeout(c, s, x), id)
  {
    hide Complete;
    CompleteLeaves(s.(tokens := s.tokens - {x}), x, Abandoned);
  }

  lemma AckLeaves(c: Config, s: State, a: Ack, stopped: bool, id: nat)
    ensures Undisturbed(s, HandleAck(c, s, a, stopped), id)
  {
    hide Complete;
    if Answers(s, a) {
      var x, t := s.pending[a.labelId], Note(c, s, a);
      CompleteLeaves(t, x, Acknowledged(a.status));
      CompleteLeaves(t.(tokens := t.tokens - {x}), x, Acknowledged(a.status));
    }
  }

  /** The events of its own that a delivery has seen in a history. */
  function OwnEvents(events: seq<Event>, id: nat): nat {
    if |events| == 0 then 0
    else OwnEvents(events[..|events| - 1], id) + (if Own(events[|events| - 1], id) then 1 else 0)
  }

  /** Over every run: with a positive attempt limit a delivery sees at most three events of
      its own per attempt allowed, however they interleave with everything else. */
  lemma {:induction false} RetriesAreBounded(c: Config, events: seq<Event>, id: nat)
    requires After(c, events).Some? && c.maxAttempts > 0
    ensures OwnEvents(events, id) <= 3 * c.maxAttempts
    ensures OwnEvents(events, id) + StillToCome(c, After(c, events).value, id) <= 3 * c.maxAttempts
    ensures 0 <= StillToCome(c, After(c, events).value, id)
    decreases |events|
  {
    hide Inv, Step, Enabled, Own, Remaining;
    if |events| > 0 {
      var before := events[..|events| - 1];
      RetriesAreBounded(c, before, id);
      RunKeeps(c, before);
      StepComesCloser(c, After(c, before).value, events[|events| - 1], id);
    }
  }
}
