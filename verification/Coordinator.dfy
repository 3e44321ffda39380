/** The zone coordinator object. Each method is one critical section of the source:
    it moves the object's state by the matching step of Scheduling and keeps the
    invariant of every run. */
module Coordinator {
  import opened Scheduling

  class Coordinator {
    const cfg: Config
    var queue: seq<Delivery>
    var pending: map<LabelId, nat>
    var jobs: map<nat, Job>
    var strict: set<LabelId>
    var stopped: bool
    var next: nat
    /** Outcomes handed to the submitters' callbacks, and the calls made. */
    var finished: map<nat, Outcome>
    var done: seq<nat>
    /** Transmissions handed to the radio. */
    var air: seq<nat>
    /** The timer or report each job waits for, and the pump loops running. */
    ghost var tokens: map<nat, Token>
    ghost var pumping: nat

    ghost function View(): State
      reads this
    {
      State(queue, pending, jobs, tokens, strict, stopped, next, finished, done, air, pumping)
    }

    /** The object is in a state that keeps every promise of the scheduler. */
    ghost predicate Valid()
      reads this
    {
      Inv(cfg, View())
    }

    constructor (cfg: Config)
      ensures this.cfg == cfg && View() == INITIAL && Valid()
    {
      this.cfg := cfg;
      queue, pending, jobs, strict := [], map[], map[], {};
      stopped, next, finished, done, air := false, 0, map[], [], [];
      tokens, pumping := map[], 0;
      new;
      InitialInv(cfg);
    }

    /** Of every delivery submitted to this object: it is in exactly one of queued,
        pending and finished, its callback was called once if it is finished and not
        otherwise, and it went on the air no more often than allowed. */
    lemma Guarantees(id: nat)
      requires Valid() && id < next
      ensures Guaranteed(cfg, View(), id)
    {
      InvGuarantees(cfg, View(), id);
    }

    method SubmitDelivery(labelId: LabelId, sequence: int, attested: bool, price: int)
      requires Valid()
      modifies this
      ensures Valid() && View() == Submit(old(View()), labelId, sequence, attested, price) && next == old(next) + 1
    {
      hide InvBut;
      StepKeeps(cfg, View(), Submitted(labelId, sequence, attested, price));
      var d := Delivery(next, labelId, sequence, attested, price);
      next := next + 1;
      if stopped {
        finished := finished[d.id := Abandoned];
        done := done + [d.id];
        return;
      }
      queue := queue + [d];
      pumping := pumping + 1;
    }

    /** Scans for the first delivery whose label is free. */
    method FindFree() returns (i: nat)
      ensures i == FirstFree(queue, pending)
    {
      i := 0;
      while i < |queue| && queue[i].labelId in pending
        invariant 0 <= i <= |queue|
        invariant forall k :: 0 <= k < i ==> queue[k].labelId in pending
      {
        i := i + 1;
      }
      FirstFreeUnique(queue, pending, i);
    }

    /** One turn of the pump: start the first delivery whose label is free. */
    method PumpTurn() returns (again: bool)
      requires Valid() && pumping > 0
      modifies this
      ensures Valid() && View() == Pump(cfg, old(View())) && again == old(CanStart(cfg, View()))
    {
      hide InvBut, FirstFree;
      StepKeeps(cfg, View(), Pumped);
      if stopped || |pending| >= cfg.maxInflight {
        pumping := pumping - 1;
        return false;
      }
      var i := FindFree();
      if i == |queue| {
        pumping := pumping - 1;
        return false;
      }
      var d := queue[i];
      queue := queue[..i] + queue[i + 1..];
      jobs := jobs[d.id := Job(d, 0)];
      pending := pending[d.labelId := d.id];
      tokens := tokens[d.id := Fresh];
      return true;
    }

    /** Releases a job's slot and reports its outcome, if the slot is still its own.
        Mid-step the job may already have lost its token. */
    method CompleteJob(id: nat, o: Outcome)
      requires id in jobs
      modifies this`pending, this`finished, this`done, this`pumping
      ensures View() == Complete(old(View()), id, o)
      ensures old(InvBut(cfg, View(), {id})) ==> Valid()
    {
      hide InvBut;
      if InvBut(cfg, View(), {id}) { CompleteKeeps(cfg, View(), id, o); }
      var l := jobs[id].del.labelId;
      if l !in pending || pending[l] != id { return; }
      pending := pending - {l};
      finished := finished[id := o];
      done := done + [id];
      pumping := pumping + 1;
    }

    method TransmitJob(id: nat)
      requires Valid() && Enabled(View(), Transmitted(id))
      modifies this
      ensures Valid() && View() == Transmit(old(View()), id)
    {
      hide InvBut;
      StepKeeps(cfg, View(), Transmitted(id));
      var job := jobs[id];
      if job.del.labelId in strict && !job.del.attested {
        tokens := tokens - {id};
        CompleteJob(id, NeedsAttestation);
        return;
      }
      jobs := jobs[id := job.(attempt := job.attempt + 1)];
      air := air + [id];
      tokens := tokens[id := Sending(job.attempt + 1)];
    }

    /** The radio reports on attempt `n` of a job. */
    method TxDone(id: nat, n: nat, delivered: bool)
      requires Valid() && Enabled(View(), Reported(id, delivered)) && tokens[id] == Sending(n)
      modifies this
      ensures Valid() && View() == Report(cfg, old(View()), id, delivered)
    {
      hide InvBut;
      StepKeeps(cfg, View(), Reported(id, delivered));
      if delivered {
        tokens := tokens[id := AwaitingAck];
      } else if cfg.maxAttempts > 0 && n >= cfg.maxAttempts {
        tokens := tokens - {id};
        CompleteJob(id, Abandoned);
      } else if stopped {
        tokens := tokens - {id};
        CompleteJob(id, Abandoned);
      } else {
        tokens := tokens[id := Retrying];
      }
    }

    method HandleAckTimeout(id: nat)
      requires Valid() && Enabled(View(), TimedOut(id))
      modifies this
      ensures Valid() && View() == AckTimeout(cfg, old(View()), id)
    {
      hide InvBut;
      StepKeeps(cfg, View(), TimedOut(id));
      var job := jobs[id];
      if job.del.labelId !in pending {
        tokens := tokens - {id};
        return;
      }
      if stopped || (cfg.maxAttempts > 0 && job.attempt >= cfg.maxAttempts) {
        tokens := tokens - {id};
        CompleteJob(id, Abandoned);
        return;
      }
      tokens := tokens[id := Retrying];
    }

    method ReceiveAck(a: Ack, timerStopped: bool)
      requires Valid()
      modifies this
      ensures Valid() && View() == HandleAck(cfg, old(View()), a, timerStopped)
    {
      hide InvBut, Complete;
      SlotsHoldJobs(cfg, View());
      StepKeeps(cfg, View(), AckReceived(a, timerStopped));
      if a.labelId !in pending || jobs[pending[a.labelId]].del.sequence != a.sequence {
        NoteStatus(a);
        return;
      }
      var id := pending[a.labelId];
      if timerStopped && id in tokens && tokens[id] == AwaitingAck { tokens := tokens - {id}; }
      NoteStatus(a);
      CompleteJob(id, Acknowledged(a.status));
    }

    method NoteStatus(a: Ack)
      modifies this`strict
      ensures View() == Note(cfg, old(View()), a)
    {
      if a.status == RefusedUnattested && a.labelId in cfg.roster { strict := strict + {a.labelId}; }
    }

    method Halt()
      requires Valid()
      modifies this`stopped
      ensures Valid() && View() == Stop(old(View()))
    {
      hide InvBut;
      StepKeeps(cfg, View(), Halted);
      stopped := true;
    }
  }

  lemma FirstFreeUnique(queue: seq<Delivery>, pending: map<LabelId, nat>, i: nat)
    requires i <= |queue| && (forall k :: 0 <= k < i ==> queue[k].labelId in pending)
    requires i < |queue| ==> queue[i].labelId !in pending
    ensures FirstFree(queue, pending) == i
  {
  }

  lemma SlotsHoldJobs(c: Config, s: State)
    requires Inv(c, s)
    ensures forall l :: l in s.pending ==> s.pending[l] in s.jobs
  {
  }
}
