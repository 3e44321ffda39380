/** What a label shows and what a controller puts on its way, said by the frames and updates
    that arrive. */
module DeliveryLaws {
  import opened Common
  import opened Delivery
  import S = Scheduling
  import L = SchedulingLaws

  // ----- the label -----

  /** A frame a label may display: it verifies if it is attested, and it is attested if the
      label displays nothing else. */
  predicate Welcome(c: Config, f: Frame, verifies: bool) {
    (f.attested ==> verifies) && (f.labelId in c.strict ==> f.attested)
  }

  /** A welcome frame reaches this label with a sequence greater than the one it shows. */
  predicate Shows(c: Config, s: System, e: Event, l: LabelId)
    requires l in s.labels
  {
    e.Receive? && e.f.labelId == l && e.f.sequence > s.labels[l].sequence && Welcome(c, e.f, e.verifies)
  }

  /** A step changes what a label shows exactly in that case, and then to what the frame says. */
  lemma ShownExactly(c: Config, s: System, e: Event, l: LabelId)
    requires Enabled(s, e) && l in s.labels
    ensures var t := Step(c, s, e);
            && l in t.labels
            && t.labels[l] ==
               if Shows(c, s, e, l)
               then Label(e.f.sequence, e.f.price, s.labels[l].shown + [Shown(e.f.sequence, e.f.price)], e.dies)
               else s.labels[l].(dead := s.labels[l].dead || e == Die(l))
  {
    hide S.Step, S.Submit, S.HandleAck, Displays, S.Enabled;
  }

  /** What a label answers: that it refuses unattested frames, else that the sequence is stale,
      else that the attestation fails, else that the price is shown, unless showing it was the
      last thing it did. */
  function Answer(c: Config, lab: Label, f: Frame, verifies: bool, dies: bool): set<S.Ack> {
    if f.labelId in c.strict && !f.attested then {S.Ack(f.labelId, f.sequence, S.RefusedUnattested)}
    else if f.sequence <= lab.sequence then {S.Ack(f.labelId, f.sequence, S.StaleSequence)}
    else if f.attested && !verifies then {S.Ack(f.labelId, f.sequence, S.RefusedAttestation)}
    else if dies then {}
    else {S.Ack(f.labelId, f.sequence, S.Applied)}
  }

  /** Only the label a frame reaches answers, and the frame changes nothing else. */
  lemma AnsweredExactly(c: Config, s: System, e: Event)
    requires Enabled(s, e)
    ensures Step(c, s, e).acks ==
            s.acks + if e.Receive? then Answer(c, s.labels[e.f.labelId], e.f, e.verifies, e.dies) else {}
    ensures e.Receive? ==> Step(c, s, e) == s.(labels := Step(c, s, e).labels, acks := Step(c, s, e).acks)
  {
    hide S.Step, S.Submit, S.HandleAck, Displays, S.Enabled;
  }

  /** The welcome frames that reached a label, in order. */
  function WelcomeFrames(c: Config, events: seq<Event>, l: LabelId): seq<Frame> {
    if |events| == 0 then []
    else
      var e := events[|events| - 1];
      WelcomeFrames(c, events[..|events| - 1], l)
      + (if e.Receive? && e.f.labelId == l && Welcome(c, e.f, e.verifies) then [e.f] else [])
  }

  /** Those of the frames whose sequence exceeds all before them, and 0. */
  function Rising(frames: seq<Frame>): seq<Shown> {
    if |frames| == 0 then []
    else
      var f, r := frames[|frames| - 1], Rising(frames[..|frames| - 1]);
      if f.sequence > Top(r) then r + [Shown(f.sequence, f.price)] else r
  }

  function Top(shown: seq<Shown>): int { if |shown| == 0 then 0 else shown[|shown| - 1].sequence }

  /** In every run, whatever is lost, repeated, delayed, refused or crashes: what a label has
      shown is exactly what the welcome frames that reached it say, each that exceeds those
      before it. */
  lemma {:induction false} GlassIsRising(c: Config, zone: set<LabelId>, events: seq<Event>, l: LabelId)
    requires After(c, zone, events).Some? && l in zone
    ensures l in After(c, zone, events).value.labels
    ensures var lab := After(c, zone, events).value.labels[l];
            lab.shown == Rising(WelcomeFrames(c, events, l)) && lab.sequence == Top(lab.shown)
    decreases |events|
  {
    hide Step, Enabled;
    if |events| > 0 {
      var before, e := events[..|events| - 1], events[|events| - 1];
      GlassIsRising(c, zone, before, l);
      var s := After(c, zone, before).value;
      ShownExactly(c, s, e, l);
      var frames := WelcomeFrames(c, before, l);
      NothingAdded(frames);
      if e.Receive? && e.f.labelId == l && Welcome(c, e.f, e.verifies) { RisingOne(frames, e.f); }
    }
  }

  lemma RisingOne(frames: seq<Frame>, f: Frame)
    ensures Rising(frames + [f]) ==
            if f.sequence > Top(Rising(frames)) then Rising(frames) + [Shown(f.sequence, f.price)] else Rising(frames)
  {
    assert (frames + [f])[..|frames|] == frames;
  }

  /** A history without the frames that do not verify. */
  function Verified(events: seq<Event>): seq<Event> {
    if |events| == 0 then []
    else
      var e := events[|events| - 1];
      Verified(events[..|events| - 1]) + if e.Receive? && e.f.attested && !e.verifies then [] else [e]
  }

  lemma {:induction false} VerifiedFrames(c: Config, events: seq<Event>, l: LabelId)
    ensures WelcomeFrames(c, Verified(events), l) == WelcomeFrames(c, events, l)
    decreases |events|
  {
    if |events| > 0 {
      var before, e := events[..|events| - 1], events[|events| - 1];
      VerifiedFrames(c, before, l);
      NothingAdded(WelcomeFrames(c, before, l));
      NothingAdded(Verified(before));
      assert (Verified(before) + [e])[..|Verified(before)|] == Verified(before);
    }
  }

  /** Erase from any history the frames that do not verify: every label has shown what the rest
      says, and in any other history with the same rest it has shown the same. */
  lemma UnverifiedFramesShowNothing(c: Config, zone: set<LabelId>, events: seq<Event>, other: seq<Event>, l: LabelId)
    requires After(c, zone, events).Some? && l in zone
    ensures l in After(c, zone, events).value.labels
    ensures After(c, zone, events).value.labels[l].shown == Rising(WelcomeFrames(c, Verified(events), l))
    ensures After(c, zone, other).Some? && WelcomeFrames(c, other, l) == WelcomeFrames(c, Verified(events), l) ==>
              && l in After(c, zone, other).value.labels
              && After(c, zone, other).value.labels[l].shown == After(c, zone, events).value.labels[l].shown
              && After(c, zone, other).value.labels[l].sequence == After(c, zone, events).value.labels[l].sequence
  {
    hide After, Rising;
    VerifiedFrames(c, events, l);
    GlassIsRising(c, zone, events, l);
    if After(c, zone, other).Some? { GlassIsRising(c, zone, other, l); }
  }

  lemma {:induction false} RisingCame(frames: seq<Frame>, x: Shown)
    requires x in Rising(frames)
    ensures exists f :: f in frames && f.sequence == x.sequence && f.price == x.price
    decreases |frames|
  {
    var before, f := frames[..|frames| - 1], frames[|frames| - 1];
    assert frames == before + [f];
    if x in Rising(before) {
      RisingCame(before, x);
      var g :| g in before && g.sequence == x.sequence && g.price == x.price;
      assert g in frames;
    } else {
      assert f in frames;
    }
  }

  /** The frame `f` reached its label at position `k` and was welcome. */
  predicate CameAt(c: Config, events: seq<Event>, k: nat, f: Frame) {
    k < |events| && events[k].Receive? && events[k].f == f && Welcome(c, f, events[k].verifies)
  }

  lemma {:induction false} WelcomeCame(c: Config, events: seq<Event>, l: LabelId, f: Frame)
    requires f in WelcomeFrames(c, events, l)
    ensures f.labelId == l && exists k :: CameAt(c, events, k, f)
    decreases |events|
  {
    var n := |events| - 1;
    if f in WelcomeFrames(c, events[..n], l) {
      WelcomeCame(c, events[..n], l, f);
      var k :| CameAt(c, events[..n], k, f);
      assert CameAt(c, events, k, f);
    } else {
      assert CameAt(c, events, n, f);
    }
  }

  /** Everything a label ever showed came in a frame for it that was welcome: it verified if it
      was attested, and it was attested if the label displays nothing else. */
  lemma ShownCameWelcome(c: Config, zone: set<LabelId>, events: seq<Event>, l: LabelId, x: Shown)
    requires After(c, zone, events).Some? && l in zone && l in After(c, zone, events).value.labels
    requires x in After(c, zone, events).value.labels[l].shown
    ensures exists k, f :: CameAt(c, events, k, f) && f.labelId == l && f.sequence == x.sequence && f.price == x.price
  {
    hide After, CameAt;
    GlassIsRising(c, zone, events, l);
    RisingCame(WelcomeFrames(c, events, l), x);
    var f :| f in WelcomeFrames(c, events, l) && f.sequence == x.sequence && f.price == x.price;
    WelcomeCame(c, events, l, f);
  }

  // ----- the controller -----

  /** The update is for a label of the zone, verifies, is newer than all before it, renders and
      is reserved. A gap in the sequence is no reason to refuse. */
  predicate Accepts(s: System, e: Event) { Reserves(s, e) && e.written }

  predicate Reserves(s: System, e: Event) {
    && e.Update? && e.labelId in s.labels && e.verified && e.renders
    && e.sequence > RecordOf(s.memory, e.labelId).sequence
  }

  /** An update is put on its way exactly then: reserved in memory and on disk, and submitted with
      its price. One that could not be reserved on disk is known to memory only; any other leaves
      no trace. Nothing else puts an update on its way. */
  lemma AcceptedExactly(c: Config, s: System, e: Event)
    requires Enabled(s, e)
    ensures var t := Step(c, s, e);
            && (!Accepts(s, e) ==> t.accepted == s.accepted)
            && (e.Update? ==>
                  var r := RecordOf(s.memory, e.labelId).(sequence := e.sequence, price := e.price);
                  if Accepts(s, e) then
                    t == s.(memory := s.memory[e.labelId := r], disk := s.disk[e.labelId := r],
                            accepted := s.accepted[(e.labelId, e.sequence) := e.price], sched := t.sched)
                    && Submits(c, s.sched, t.sched, e)
                  else if Reserves(s, e) then t == s.(memory := s.memory[e.labelId := r])
                  else t == s)
  {
    hide S.Step, S.HandleAck, Displays, S.Enabled;
  }

  /** The update's delivery joins the queue, unless the coordinator is stopped. */
  predicate Submits(c: Config, s: S.State, t: S.State, e: Event)
    requires e.Update?
  {
    && t.next == s.next + 1
    && t.queue == if s.stopped then s.queue
                  else s.queue + [S.Delivery(s.next, e.labelId, e.sequence, c.attests, e.price)]
  }

  /** The acknowledgement says "applied" and answers the pending job of its label and sequence. */
  ghost predicate Confirms(s: System, e: Event, l: LabelId) {
    && e.Acknowledge? && e.a.labelId == l && e.a.status == S.Applied
    && exists id :: S.Pending(s.sched.jobs, s.sched.pending, id) && s.sched.jobs[id].del.labelId == l
                    && s.sched.jobs[id].del.sequence == e.a.sequence
  }

  /** What is recorded as displayed moves exactly then, to the sequence acknowledged; on disk only
      if the write succeeds. */
  lemma DisplayedExactly(c: Config, s: System, e: Event, l: LabelId)
    requires Inv(c, s) && Enabled(s, e) && e != Crash
    ensures RecordOf(Step(c, s, e).memory, l).displayed ==
            if Confirms(s, e, l) then e.a.sequence else RecordOf(s.memory, l).displayed
    ensures !e.Update? ==>
              RecordOf(Step(c, s, e).disk, l).displayed ==
              if Confirms(s, e, l) && e.written then e.a.sequence else RecordOf(s.disk, l).displayed
  {
    hide Inv, S.Step, S.HandleAck, S.Submit, S.Enabled, Displays;
    if e.Acknowledge? && e.a.labelId == l { ConfirmsExactly(c, s, e, l); }
  }

  lemma ConfirmsExactly(c: Config, s: System, e: Event, l: LabelId)
    requires Inv(c, s) && e.Acknowledge? && e.a.labelId == l
    ensures Displays(s, e.a) <==> Confirms(s, e, l)
  {
    hide S.Inv, Sandwich, AcceptedOk, FramesOk, WorkOk, GlassOk, AcksOk, AheadOk;
    if Confirms(s, e, l) {
      var id :| S.Pending(s.sched.jobs, s.sched.pending, id) && s.sched.jobs[id].del.labelId == l
                && s.sched.jobs[id].del.sequence == e.a.sequence;
      L.AnswersExactly(c.sched, s.sched, e.a, id);
    }
    if Displays(s, e.a) { L.AnswersExactly(c.sched, s.sched, e.a, s.sched.pending[l]); }
  }

  /** A frame goes on the air exactly when its delivery's transmission comes up and the label has
      not said that it refuses such frames; and it carries the delivery as submitted. */
  lemma AirExactly(c: Config, s: System, e: Event)
    requires Enabled(s, e)
    ensures Step(c, s, e).air ==
            s.air + if e.Internal? && e.e.Transmitted? && !L.Unwelcome(s.sched, e.e.id)
                    then var d := s.sched.jobs[e.e.id].del; {Frame(d.labelId, d.sequence, d.price, d.attested)} else {}
  {
    hide Inv, S.Transmit, S.Submit, S.Pump, S.Report, S.AckTimeout, S.HandleAck, Displays;
    if e.Internal? && e.e.Transmitted? { L.TransmitAirs(s.sched, e.e.id); }
  }
}
