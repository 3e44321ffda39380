/** The two ends of price delivery as objects: the zone controller with its durable
    store, and the shelf label. Each method moves its object by the matching step of
    Delivery, and what it leaves behind is again part of a sound system. */
module Endpoints {
  import opened Common
  import S = Scheduling
  import D = Delivery
  import C = Coordinator

  datatype Refusal = UnknownLabel | AttestationRejected | SequenceRegression | RenderFailed | PersistFailed

  datatype Reply = NoReply | Reply(ack: S.Ack)

  class ShelfLabel {
    const id: S.LabelId
    const strict: bool
    var sequence: int
    var priceMinor: int
    var dead: bool
    /** Everything shown so far. */
    ghost var shown: seq<D.Shown>

    ghost function View(): D.Label
      reads this
    {
      D.Label(sequence, priceMinor, shown, dead)
    }

    /** This object is the label of its name in the sound system `s`. */
    ghost predicate Valid(c: D.Config, s: D.System)
      reads this
    {
      D.Inv(c, s) && id in s.labels && s.labels[id] == View() && strict == (id in c.strict)
    }

    constructor (id: S.LabelId, strict: bool)
      ensures this.id == id && this.strict == strict && View() == D.Label(0, 0, [], false)
    {
      this.id, this.strict := id, strict;
      sequence, priceMinor, dead, shown := 0, 0, false, [];
    }

    /** A price frame arrives at the living label. If it was on the air of a sound system,
        the system stays sound. */
    method Receive(ghost c: D.Config, ghost s: D.System, f: D.Frame, verifies: bool, dies: bool) returns (reply: Reply)
      requires !dead && f.labelId == id && strict == (id in c.strict)
      modifies this`sequence, this`priceMinor, this`dead, this`shown
      ensures var st := D.LabelStatus(c, old(View()), f, verifies);
              && View() == (if st == S.Applied then D.Show(old(View()), f, dies) else old(View()))
              && reply == if dead then NoReply else Reply(S.Ack(id, f.sequence, st))
      ensures old(Valid(c, s)) && f in s.air ==>
                var t := D.Step(c, s, D.Receive(f, verifies, dies));
                Valid(c, t) && t.acks == if reply == NoReply then s.acks else s.acks + {reply.ack}
      ensures sequence >= old(sequence)
      ensures var shows := f.sequence > old(sequence) && (f.attested ==> verifies) && (strict ==> f.attested);
              && View() == (if !shows then old(View())
                            else D.Label(f.sequence, f.price, old(shown) + [D.Shown(f.sequence, f.price)], dies))
              && (reply == NoReply <==> shows && dies)
              && (reply != NoReply ==> reply.ack == S.Ack(id, f.sequence, reply.ack.status))
              && (reply != NoReply && shows ==> reply.ack.status == S.Applied)
              && (!shows ==> reply.ack.status == if strict && !f.attested then S.RefusedUnattested
                                                 else if f.sequence <= old(sequence) then S.StaleSequence
                                                 else S.RefusedAttestation)
    {
      hide D.Inv;
      if Valid(c, s) && f in s.air { D.StepKeeps(c, s, D.Receive(f, verifies, dies)); }
      if !f.attested && strict {
        return Reply(S.Ack(id, f.sequence, S.RefusedUnattested));
      }
      if f.sequence <= sequence {
        return Reply(S.Ack(id, f.sequence, S.StaleSequence));
      }
      if f.attested && !verifies {
        return Reply(S.Ack(id, f.sequence, S.RefusedAttestation));
      }
      sequence, priceMinor, dead := f.sequence, f.price, dies;
      shown := shown + [D.Shown(f.sequence, f.price)];
      reply := if dead then NoReply else Reply(S.Ack(id, f.sequence, S.Applied));
    }
  }

  class Controller {
    const cfg: D.Config
    const labels: set<S.LabelId>
    const coordinator: C.Coordinator
    var records: map<S.LabelId, D.Record>
    /** The durable store. */
    var store: map<S.LabelId, D.Record>
    /** The price of every update put on its way. */
    ghost var accepted: map<(S.LabelId, int), int>

    /** `s` with this controller's part of it replaced by the controller's own state. */
    ghost function In(s: D.System): D.System
      reads this, coordinator
    {
      s.(memory := records, disk := store, sched := coordinator.View(), accepted := accepted)
    }

    /** This object is the controller of the sound system `s`. */
    ghost predicate Valid(s: D.System)
      reads this, coordinator
    {
      s == In(s) && s.labels.Keys == labels && coordinator.cfg == cfg.sched && D.Inv(cfg, s)
    }

    /** Then the coordinator keeps its promises, and every label is between what is
        acknowledged as displayed and what is durably reserved. */
    lemma Sound(s: D.System, l: S.LabelId)
      requires Valid(s) && l in labels
      ensures coordinator.Valid()
      ensures D.RecordOf(records, l).displayed <= s.labels[l].sequence <= D.RecordOf(store, l).sequence
    {
      hide S.Inv;
      assert D.Between(D.RecordOf(s.memory, l), D.RecordOf(s.disk, l), s.labels[l]);
    }

    /** Opening on a durable store restores every record: a crash and restart of the
        system whose store it was. */
    constructor (cfg: D.Config, labels: set<S.LabelId>, coordinator: C.Coordinator, store: map<S.LabelId, D.Record>,
                 ghost s: D.System)
      requires coordinator.cfg == cfg.sched && coordinator.View() == S.INITIAL && s.disk == store
      ensures this.cfg == cfg && this.labels == labels && this.coordinator == coordinator
      ensures In(s) == D.Step(cfg, s, D.Crash)
      ensures D.Inv(cfg, s) && s.labels.Keys == labels ==> Valid(D.Step(cfg, s, D.Crash))
    {
      this.cfg, this.labels, this.coordinator, this.store := cfg, labels, coordinator, store;
      this.records := store;
      this.accepted := s.accepted;
      new;
      hide D.Inv;
      if D.Inv(cfg, s) { D.StepKeeps(cfg, s, D.Crash); }
    }

    /** The whole update path: verify, check the sequence, render, reserve durably,
        submit. Whether an outside step succeeds is a parameter. */
    method Apply(l: S.LabelId, n: int, p: int, verified: bool, renders: bool, written: bool, ghost s: D.System)
      returns (refusal: Option<Refusal>)
      requires Valid(s)
      modifies this`records, this`store, this`accepted, coordinator
      ensures Valid(D.Step(cfg, s, D.Update(l, n, p, verified, renders, written)))
      ensures refusal == None <==> coordinator.next == old(coordinator.next) + 1
      ensures refusal == None ==> l in store && store[l].sequence == n > D.RecordOf(s.memory, l).sequence && verified
      ensures refusal == if l !in labels then Some(UnknownLabel)
                         else if !verified then Some(AttestationRejected)
                         else if n <= D.RecordOf(old(records), l).sequence then Some(SequenceRegression)
                         else if !renders then Some(RenderFailed)
                         else if !written then Some(PersistFailed) else None
      ensures refusal.Some? && refusal.value != PersistFailed ==> In(s) == s
      ensures refusal == Some(PersistFailed) ==> In(s).disk == s.disk && In(s).sched == s.sched
    {
      hide D.Inv, S.Inv, S.Submit, D.Work, D.Deliver, D.Hear;
      CoordinatorIsValid(s);
      D.StepKeeps(cfg, s, D.Update(l, n, p, verified, renders, written));
      if l !in labels { return Some(UnknownLabel); }
      if !verified { return Some(AttestationRejected); }
      var r := D.RecordOf(records, l);
      if n <= r.sequence { return Some(SequenceRegression); }
      if !renders { return Some(RenderFailed); }
      r := r.(sequence := n, price := p);
      records := records[l := r];
      if !written { return Some(PersistFailed); }
      store := store[l := r];
      accepted := accepted[(l, n) := p];
      coordinator.SubmitDelivery(l, n, cfg.attests, p);
      return None;
    }

    /** An acknowledgement arrives: the coordinator completes the delivery it answers,
        and a delivery that was applied is recorded as displayed. */
    method Acknowledge(a: S.Ack, timerStopped: bool, written: bool, ghost s: D.System)
      requires Valid(s) && a in s.acks
      modifies this`records, this`store, coordinator
      ensures Valid(D.Step(cfg, s, D.Acknowledge(a, timerStopped, written)))
    {
      hide D.Inv, S.Inv, D.Hear, D.Apply, D.Work, D.Deliver;
      CoordinatorIsValid(s);
      D.StepKeeps(cfg, s, D.Acknowledge(a, timerStopped, written));
      D.HearKeepsLabels(cfg, s, a, timerStopped, written);
      HearAck(a, timerStopped, written, s);
    }

    method HearAck(a: S.Ack, timerStopped: bool, written: bool, ghost s: D.System)
      requires s == In(s) && coordinator.cfg == cfg.sched && coordinator.Valid()
      modifies this`records, this`store, coordinator
      ensures In(s) == D.Hear(cfg, s, a, timerStopped, written)
      ensures coordinator.Valid()
    {
      hide S.Inv, S.HandleAck, D.RecordOf;
      C.SlotsHoldJobs(cfg.sched, coordinator.View());
      var answers := a.labelId in coordinator.pending
                     && coordinator.jobs[coordinator.pending[a.labelId]].del.sequence == a.sequence;
      coordinator.ReceiveAck(a, timerStopped);
      if answers && a.status == S.Applied { OnDelivered(a.labelId, a.sequence, written); }
    }

    /** Records a sequence as displayed, in memory and, if the write succeeds, durably. */
    method OnDelivered(l: S.LabelId, n: int, written: bool)
      modifies this`records, this`store
      ensures var r := D.RecordOf(old(records), l).(displayed := n);
              records == old(records)[l := r] && store == if written then old(store)[l := r] else old(store)
    {
      var r := D.RecordOf(records, l).(displayed := n);
      records := records[l := r];
      if written { store := store[l := r]; }
    }

    lemma CoordinatorIsValid(s: D.System)
      requires Valid(s)
      ensures coordinator.Valid()
    {
      hide S.Inv;
    }
  }
}
