/** The telemetry pipeline from CAN frames to accepted packets: what an accumulator emits, and
    that a matching session accepts any in-order selection of it delivered on time. */
module EndToEnd {
  import opened Common
  import opened Bytes
  import opened Wire
  import opened Encoder
  import opened MotorFeedback
  import opened Measurement
  import Session = FeedbackSession

  // ----- what an accumulator emits

  datatype Input = Receive(frame: Frame) | Poll(now: nat) | Invalidate

  function Stepped(c: Limits, s: MotorFeedback.State, e: Input): (MotorFeedback.State, Option<Batch>)
    requires |c.specs| == 8
  {
    match e
    case Receive(frame) => (Ingest(c, s, frame).0, None)
    case Poll(now) => var (t, r) := Take(c, s, now); (t, if r.Emitted? then Some(r.batch) else None)
    case Invalidate => (s.(faulted := true), None)
  }

  function Collected(c: Limits, inputs: seq<Input>): (MotorFeedback.State, seq<Batch>)
    requires |c.specs| == 8
    decreases |inputs|
  {
    if inputs == [] then (MotorFeedback.INITIAL, [])
    else
      var n := |inputs| - 1;
      var (s, batches) := Collected(c, inputs[..n]);
      var (t, batch) := Stepped(c, s, inputs[n]);
      (t, if batch.Some? then batches + [batch.value] else batches)
  }

  /** One motor of a batch is what its frame decodes to, received recently and not in the future. */
  predicate GoodMotor(c: Limits, m: Decoded, i: nat, assembledNs: nat)
    requires |c.specs| == 8 && i < 8
  {
    && DecodeFeedback(c.specs[i], m.raw) == Some(m)
    && 0 < m.raw.stampNs <= assembledNs <= m.raw.stampNs + c.maxAgeNs
  }

  predicate GoodBatch(c: Limits, b: Batch)
    requires |c.specs| == 8
  {
    && EightMotors(b) && b.sequence > 0 && b.assembledNs > 0
    && (forall i :: 0 <= i < 8 ==> b.names[i] == c.specs[i].name)
    && (forall i :: 0 <= i < 8 ==> GoodMotor(c, b.motors[i], i, b.assembledNs))
    && !Skewed(StampsOf(b.motors), c.maxSkewNs)
  }

  /** A later batch has a frame of every motor that is newer than the one before used. */
  predicate Later(a: Batch, b: Batch) {
    && |a.motors| == |b.motors| == 8 && a.sequence < b.sequence && a.assembledNs < b.assembledNs
    && forall i :: 0 <= i < 8 ==> a.motors[i].raw.stampNs < b.motors[i].raw.stampNs
  }

  predicate AllGood(c: Limits, batches: seq<Batch>)
    requires |c.specs| == 8
  {
    forall k :: 0 <= k < |batches| ==> GoodBatch(c, batches[k])
  }

  predicate AllLater(batches: seq<Batch>) {
    forall j, k :: 0 <= j < k < |batches| ==> Later(batches[j], batches[k])
  }

  /** Batches are numbered from one. */
  predicate Numbered(batches: seq<Batch>) {
    forall k :: 0 <= k < |batches| ==> batches[k].sequence == k + 1
  }

  /** Each held frame decodes to what is held, and the state remembers the last batch. */
  predicate Held(c: Limits, s: MotorFeedback.State, batches: seq<Batch>)
    requires |c.specs| == 8
  {
    && (forall i :: 0 <= i < 8 && s.latest[i].Some? ==> DecodeFeedback(c.specs[i], s.latest[i].value.raw) == s.latest[i])
    && s.sequence == |batches|
    && (batches != [] ==> Remembered(s, batches[|batches| - 1]))
  }

  predicate Remembered(s: MotorFeedback.State, b: Batch) {
    |b.motors| == 8 && b.assembledNs <= s.lastNow && s.emitted == StampsOf(b.motors)
  }

  /** The batch a poll emits is good, and newer than what was emitted before. */
  lemma EmittedIsGood(c: Limits, s: MotorFeedback.State, batches: seq<Batch>, now: nat)
    requires |c.specs| == 8 && Held(c, s, batches) && Take(c, s, now).1.Emitted?
    ensures var b := Take(c, s, now).1.batch;
      && GoodBatch(c, b) && b.sequence == |batches| + 1
      && Held(c, Take(c, s, now).0, batches + [b])
  {
    hide Skewed;
    var b := Take(c, s, now).1.batch;
    forall i | 0 <= i < 8 ensures GoodMotor(c, b.motors[i], i, b.assembledNs) {
      assert b.motors[i] == s.latest[i].value;
      AddressedStamp(c.specs[i], b.motors[i].raw);
      assert !Future(s, now);
    }
    hide DecodeFeedback, GoodMotor;
  }

  lemma AddressedStamp(spec: FeedbackSpec, f: Frame)
    ensures DecodeFeedback(spec, f).Some? ==> f.stampNs > 0
  {}

  lemma EmittedIsLater(c: Limits, s: MotorFeedback.State, batches: seq<Batch>, now: nat)
    requires |c.specs| == 8 && Held(c, s, batches) && Take(c, s, now).1.Emitted? && batches != []
    requires batches[|batches| - 1].sequence == |batches|
    ensures Later(batches[|batches| - 1], Take(c, s, now).1.batch)
  {
    hide Skewed, DecodeFeedback;
    var a := batches[|batches| - 1];
    var b := Take(c, s, now).1.batch;
    assert Remembered(s, a);
    forall i | 0 <= i < 8 ensures a.motors[i].raw.stampNs < b.motors[i].raw.stampNs {
      assert s.emitted[i] == StampsOf(a.motors)[i];
    }
  }

  lemma LaterGrows(batches: seq<Batch>, b: Batch)
    requires AllLater(batches) && (batches != [] ==> Later(batches[|batches| - 1], b))
    ensures AllLater(batches + [b])
  {
    forall j | 0 <= j < |batches| ensures Later(batches[j], b) {
      var last := |batches| - 1;
      assert j < last ==> Later(batches[j], batches[last]);
    }
    hide Later;
  }

  /** A step that emits nothing keeps the account. */
  lemma StepKeepsHeld(c: Limits, s: MotorFeedback.State, batches: seq<Batch>, e: Input)
    requires |c.specs| == 8 && Held(c, s, batches) && Stepped(c, s, e).1 == None
    ensures Held(c, Stepped(c, s, e).0, batches)
  {
    hide Skewed, StampsOf;
    if e.Receive? && Ingest(c, s, e.frame).1 == Related {
      var k := Owner(c.specs, e.frame.canId, 0);
      var d := DecodeFeedback(c.specs[k], e.frame);
      assert d.value.raw == e.frame;
      hide DecodeFeedback;
    } else {
      hide DecodeFeedback;
    }
  }

  /** Whatever frames and polls an accumulator sees, its batches are numbered from one, each is
      consistent, recent and within the skew, and every later one is newer in every motor. */
  lemma {:induction false} BatchesProgress(c: Limits, inputs: seq<Input>)
    requires |c.specs| == 8
    ensures var (s, batches) := Collected(c, inputs);
      Held(c, s, batches) && AllGood(c, batches) && Numbered(batches) && AllLater(batches)
    decreases |inputs|
  {
    if inputs != [] {
      var n := |inputs| - 1;
      BatchesProgress(c, inputs[..n]);
      var (s, batches) := Collected(c, inputs[..n]);
      var (t, batch) := Stepped(c, s, inputs[n]);
      if batch == None {
        StepKeepsHeld(c, s, batches, inputs[n]);
      } else {
        EmittedIsGood(c, s, batches, inputs[n].now);
        if batches != [] { EmittedIsLater(c, s, batches, inputs[n].now); }
        LaterGrows(batches, batch.value);
        hide AllLater, Held, GoodBatch, Take;
      }
    }
  }

  // ----- what the values of a batch mean

  /** In every batch of every run, motor i carries a frame of motor i, and its position, velocity and
      torque are the motor's own three scales of the fields of that very frame; so are the status, the
      two temperatures and the flag for a saturated field. */
  lemma BatchesMeasure(c: Limits, inputs: seq<Input>, k: nat, i: nat)
    requires |c.specs| == 8 && k < |Collected(c, inputs).1| && i < 8
    ensures |Collected(c, inputs).1[k].motors| == 8
    ensures var m := Collected(c, inputs).1[k].motors[i];
      && m.raw.canId == c.specs[i].responseId && m.raw.payload[0] % 0x10 == c.specs[i].slaveId
      && Measures(c.specs[i], m.raw.payload, m.position, m.velocity, m.torque)
      && m.status == (m.raw.payload[0] as nat) / 0x10
      && m.mosTemperature == m.raw.payload[6] && m.rotorTemperature == m.raw.payload[7]
      && (m.endpoint <==> Saturated(m.raw.payload))
  {
    hide Collected, Skewed, Held, AllLater, Numbered, DecodeFeedback, Measures, Saturated;
    BatchesProgress(c, inputs);
    var b := Collected(c, inputs).1[k];
    assert GoodBatch(c, b);
    assert GoodMotor(c, b.motors[i], i, b.assembledNs);
    DecodedMeasures(c.specs[i], b.motors[i].raw);
  }

  // ----- exactly when a batch comes

  /** The last frame received under this identifier. */
  function Newest(inputs: seq<Input>, id: nat): Option<Frame>
    decreases |inputs|
  {
    if inputs == [] then None
    else
      var e := inputs[|inputs| - 1];
      if e.Receive? && e.frame.canId == id then Some(e.frame) else Newest(inputs[..|inputs| - 1], id)
  }

  /** The time of the last poll. */
  function LastPoll(inputs: seq<Input>): nat
    decreases |inputs|
  {
    if inputs == [] then 0
    else if inputs[|inputs| - 1].Poll? then inputs[|inputs| - 1].now
    else LastPoll(inputs[..|inputs| - 1])
  }

  /** The receive time of motor i in the last batch. */
  function LastUsed(batches: seq<Batch>, i: nat): nat {
    if batches != [] && i < |batches[|batches| - 1].motors| then batches[|batches| - 1].motors[i].raw.stampNs else 0
  }

  /** A healthy accumulator holds the newest frame of each motor, and remembers its last poll and batch. */
  predicate Mirrors(c: Limits, s: MotorFeedback.State, batches: seq<Batch>, inputs: seq<Input>)
    requires |c.specs| == 8
  {
    && s.lastNow == LastPoll(inputs)
    && forall i :: 0 <= i < 8 ==> MirrorsMotor(c, s, batches, inputs, i)
  }

  predicate MirrorsMotor(c: Limits, s: MotorFeedback.State, batches: seq<Batch>, inputs: seq<Input>, i: nat)
    requires |c.specs| == 8 && i < 8
  {
    var f := Newest(inputs, c.specs[i].responseId);
    && (s.latest[i].Some? <==> f.Some?) && (f.Some? ==> s.latest[i].value.raw == f.value)
    && s.emitted[i] == LastUsed(batches, i)
  }

  lemma FrameMirrors(c: Limits, s: MotorFeedback.State, batches: seq<Batch>, inputs: seq<Input>, f: Frame, i: nat)
    requires |c.specs| == 8 && ValidSpecs(c.specs) && i < 8 && MirrorsMotor(c, s, batches, inputs, i)
    requires !Ingest(c, s, f).0.faulted
    ensures MirrorsMotor(c, Ingest(c, s, f).0, batches, inputs + [Receive(f)], i)
  {
    hide DecodeFeedback, ValidSpecs, LastUsed;
    assert (inputs + [Receive(f)])[..|inputs|] == inputs;
    OwnerIsUnique(c, f, i);
    DecodedRaw(c, f);
  }

  lemma PollMirrors(c: Limits, s: MotorFeedback.State, batches: seq<Batch>, inputs: seq<Input>, now: nat, i: nat)
    requires |c.specs| == 8 && i < 8 && MirrorsMotor(c, s, batches, inputs, i)
    ensures var (t, r) := Take(c, s, now);
      MirrorsMotor(c, t, if r.Emitted? then batches + [r.batch] else batches, inputs + [Poll(now)], i)
  {
    hide Skewed, Future, Complete;
    assert (inputs + [Poll(now)])[..|inputs|] == inputs;
  }

  lemma StepMirrors(c: Limits, s: MotorFeedback.State, batches: seq<Batch>, inputs: seq<Input>, e: Input)
    requires |c.specs| == 8 && ValidSpecs(c.specs) && Mirrors(c, s, batches, inputs) && !Stepped(c, s, e).0.faulted
    ensures var (t, batch) := Stepped(c, s, e);
      Mirrors(c, t, if batch.Some? then batches + [batch.value] else batches, inputs + [e])
  {
    hide MirrorsMotor, Ingest, Take, ValidSpecs;
    PolledMirrors(c, s, inputs, e);
    var (t, batch) := Stepped(c, s, e);
    var after, longer := if batch.Some? then batches + [batch.value] else batches, inputs + [e];
    forall i | 0 <= i < 8 ensures MirrorsMotor(c, t, after, longer, i) {
      assert MirrorsMotor(c, s, batches, inputs, i);
      if e.Receive? { FrameMirrors(c, s, batches, inputs, e.frame, i); }
      if e.Poll? { PollMirrors(c, s, batches, inputs, e.now, i); }
    }
  }

  lemma PolledMirrors(c: Limits, s: MotorFeedback.State, inputs: seq<Input>, e: Input)
    requires |c.specs| == 8 && s.lastNow == LastPoll(inputs) && !Stepped(c, s, e).0.faulted
    ensures Stepped(c, s, e).0.lastNow == LastPoll(inputs + [e])
  {
    hide Skewed, Future, Complete, DecodeFeedback;
    assert (inputs + [e])[..|inputs|] == inputs;
  }

  lemma OwnerIsUnique(c: Limits, f: Frame, i: nat)
    requires ValidSpecs(c.specs) && i < 8
    ensures f.canId == c.specs[i].responseId <==> Owner(c.specs, f.canId, 0) == i
  {}

  lemma DecodedRaw(c: Limits, f: Frame)
    requires |c.specs| == 8
    ensures forall k :: 0 <= k < 8 && DecodeFeedback(c.specs[k], f).Some? ==> DecodeFeedback(c.specs[k], f).value.raw == f
  {}

  lemma {:induction false} HealthyMirrors(c: Limits, inputs: seq<Input>)
    requires |c.specs| == 8 && ValidSpecs(c.specs) && !Collected(c, inputs).0.faulted
    ensures Mirrors(c, Collected(c, inputs).0, Collected(c, inputs).1, inputs)
    decreases |inputs|
  {
    hide Mirrors, Stepped, ValidSpecs, Collected;
    if inputs == [] {
      NothingMirrored(c);
    } else {
      var front, e := inputs[..|inputs| - 1], inputs[|inputs| - 1];
      assert front + [e] == inputs;
      CollectedOneMore(c, front, e);
      if Collected(c, front).0.faulted { FaultsStay(c, Collected(c, front).0, e); }
      HealthyMirrors(c, front);
      StepMirrors(c, Collected(c, front).0, Collected(c, front).1, front, e);
    }
  }

  lemma NothingMirrored(c: Limits)
    requires |c.specs| == 8
    ensures Mirrors(c, Collected(c, []).0, Collected(c, []).1, [])
  {}

  lemma FaultsStay(c: Limits, s: MotorFeedback.State, e: Input)
    requires |c.specs| == 8 && s.faulted
    ensures Stepped(c, s, e).0.faulted && Stepped(c, s, e).1 == None
  {}

  /** A frame that a healthy accumulator refuses: no standard data frame, or one of a motor that is of
      another size, unstamped, from another slave, or not newer than the last of that motor. */
  predicate Refusable(c: Limits, inputs: seq<Input>, f: Frame)
    requires |c.specs| == 8
  {
    || f.canId > 0x7FF
    || exists i :: 0 <= i < 8 && Misfit(c.specs[i], inputs, f)
  }

  predicate Misfit(spec: FeedbackSpec, inputs: seq<Input>, f: Frame) {
    var last := Newest(inputs, spec.responseId);
    && f.canId == spec.responseId
    && (f.payloadSize != 8 || f.stampNs == 0 || f.payload[0] % 0x10 != spec.slaveId
        || (last.Some? && f.stampNs <= last.value.stampNs))
  }

  /** After any healthy run a frame makes the accumulator fault exactly if it is refusable. */
  lemma FrameFaultsExactly(c: Limits, inputs: seq<Input>, f: Frame)
    requires |c.specs| == 8 && ValidSpecs(c.specs) && !Collected(c, inputs).0.faulted
    ensures Collected(c, inputs + [Receive(f)]).0.faulted <==> Refusable(c, inputs, f)
    ensures Collected(c, inputs + [Receive(f)]).1 == Collected(c, inputs).1
  {
    HealthyMirrors(c, inputs);
    hide Collected, ValidSpecs, Newest;
    var s := Collected(c, inputs).0;
    CollectedOneMore(c, inputs, Receive(f));
    var k := Owner(c.specs, f.canId, 0);
    forall i | 0 <= i < 8 ensures Misfit(c.specs[i], inputs, f) ==> i == k {
      OwnerIsUnique(c, f, i);
    }
    if k < 8 {
      assert MirrorsMotor(c, s, Collected(c, inputs).1, inputs, k);
      assert Misfit(c.specs[k], inputs, f) <==> DecodeFeedback(c.specs[k], f) == None || !Newer(s.latest[k], f);
    }
  }

  lemma CollectedOneMore(c: Limits, inputs: seq<Input>, e: Input)
    requires |c.specs| == 8
    ensures var (s, batches) := Collected(c, inputs); var (t, batch) := Stepped(c, s, e);
      Collected(c, inputs + [e]) == (t, if batch.Some? then batches + [batch.value] else batches)
  {
    assert (inputs + [e])[..|inputs|] == inputs;
  }

  /** Motor i has a frame, newer than the one it last contributed and not too old. */
  predicate Ripe(c: Limits, inputs: seq<Input>, batches: seq<Batch>, now: nat, i: nat)
    requires |c.specs| == 8 && i < 8
  {
    var f := Newest(inputs, c.specs[i].responseId);
    f.Some? && f.value.stampNs > LastUsed(batches, i) && now - f.value.stampNs <= c.maxAgeNs
  }

  predicate Ahead(c: Limits, inputs: seq<Input>, now: nat, i: nat)
    requires |c.specs| == 8 && i < 8
  {
    var f := Newest(inputs, c.specs[i].responseId);
    f.Some? && f.value.stampNs > now
  }

  predicate Apart(c: Limits, inputs: seq<Input>, i: nat, j: nat)
    requires |c.specs| == 8 && i < 8 && j < 8
  {
    var f, g := Newest(inputs, c.specs[i].responseId), Newest(inputs, c.specs[j].responseId);
    f.Some? && g.Some? && f.value.stampNs - g.value.stampNs > c.maxSkewNs
  }

  /** What a poll of a healthy accumulator is due: every motor ripe, no two receive times too far apart. */
  predicate BatchIsDue(c: Limits, inputs: seq<Input>, batches: seq<Batch>, now: nat)
    requires |c.specs| == 8
  {
    && (forall i :: 0 <= i < 8 ==> Ripe(c, inputs, batches, now, i))
    && (forall i, j :: 0 <= i < 8 && 0 <= j < 8 ==> !Apart(c, inputs, i, j))
  }

  /** A poll that must fault: the clock does not advance, a frame is from the future, or the sequence
      numbers have run out. */
  predicate PollFails(c: Limits, inputs: seq<Input>, batches: seq<Batch>, now: nat)
    requires |c.specs| == 8
  {
    || now == 0 || now > MAX_UINT64 || now <= LastPoll(inputs)
    || (exists i :: 0 <= i < 8 && Ahead(c, inputs, now, i))
    || (BatchIsDue(c, inputs, batches, now) && |batches| >= MAX_UINT64)
  }

  /** Every motor of the batch carries the newest frame received under its identifier. */
  predicate CarriesNewest(c: Limits, inputs: seq<Input>, b: Batch)
    requires |c.specs| == 8
  {
    |b.motors| == 8 && forall i :: 0 <= i < 8 ==> Some(b.motors[i].raw) == Newest(inputs, c.specs[i].responseId)
  }

  /** After any healthy run a poll faults exactly if it must, and otherwise a batch comes exactly when
      one is due; it carries the newest frame of every motor. */
  lemma PollEmitsExactly(c: Limits, inputs: seq<Input>, now: nat)
    requires |c.specs| == 8 && ValidSpecs(c.specs) && !Collected(c, inputs).0.faulted
    ensures var batches := Collected(c, inputs).1; var (t, after) := Collected(c, inputs + [Poll(now)]);
      && (t.faulted <==> PollFails(c, inputs, batches, now))
      && |after| == (if !t.faulted && BatchIsDue(c, inputs, batches, now) then |batches| + 1 else |batches|)
      && after[..|batches|] == batches
      && (|after| > |batches| ==> after[|batches|].assembledNs == now && CarriesNewest(c, inputs, after[|batches|]))
  {
    HealthyMirrors(c, inputs);
    BatchesProgress(c, inputs);
    CollectedOneMore(c, inputs, Poll(now));
    TakeExactly(c, Collected(c, inputs).0, Collected(c, inputs).1, inputs, now);
  }

  lemma TakeExactly(c: Limits, s: MotorFeedback.State, batches: seq<Batch>, inputs: seq<Input>, now: nat)
    requires |c.specs| == 8 && !s.faulted && Mirrors(c, s, batches, inputs) && s.sequence == |batches|
    ensures var (t, r) := Take(c, s, now);
      && (t.faulted <==> PollFails(c, inputs, batches, now))
      && (r.Emitted? <==> !t.faulted && BatchIsDue(c, inputs, batches, now))
      && (r.Emitted? ==> r.batch.assembledNs == now && CarriesNewest(c, inputs, r.batch))
  {
    hide Newest, LastUsed;
    forall i | 0 <= i < 8 ensures MirrorsMotor(c, s, batches, inputs, i) {}
    FutureExactly(c, s, batches, inputs, now);
    CompleteExactly(c, s, batches, inputs, now);
    if Complete(c, s, now) { SkewedExactly(c, s, batches, inputs); }
    if Take(c, s, now).1.Emitted? { EmittedFrames(c, s, batches, inputs, now); }
    hide Future, Complete, Skewed, Ripe, Ahead, Apart, Mirrors, Motors, StampsOf;
  }

  lemma EmittedFrames(c: Limits, s: MotorFeedback.State, batches: seq<Batch>, inputs: seq<Input>, now: nat)
    requires |c.specs| == 8 && Mirrors(c, s, batches, inputs) && Take(c, s, now).1.Emitted?
    ensures CarriesNewest(c, inputs, Take(c, s, now).1.batch)
  {
    hide Newest, LastUsed, Skewed, Future;
    forall i | 0 <= i < 8 ensures Some(Take(c, s, now).1.batch.motors[i].raw) == Newest(inputs, c.specs[i].responseId) {
      assert MirrorsMotor(c, s, batches, inputs, i);
    }
  }

  lemma FutureExactly(c: Limits, s: MotorFeedback.State, batches: seq<Batch>, inputs: seq<Input>, now: nat)
    requires |c.specs| == 8 && Mirrors(c, s, batches, inputs)
    ensures Future(s, now) <==> exists i :: 0 <= i < 8 && Ahead(c, inputs, now, i)
  {
    hide Newest, LastUsed;
    forall i | 0 <= i < 8
      ensures Ahead(c, inputs, now, i) <==> s.latest[i].Some? && s.latest[i].value.raw.stampNs > now
    {
      assert MirrorsMotor(c, s, batches, inputs, i);
    }
    hide Ahead;
  }

  lemma CompleteExactly(c: Limits, s: MotorFeedback.State, batches: seq<Batch>, inputs: seq<Input>, now: nat)
    requires |c.specs| == 8 && Mirrors(c, s, batches, inputs)
    ensures Complete(c, s, now) <==> forall i :: 0 <= i < 8 ==> Ripe(c, inputs, batches, now, i)
  {
    hide Newest, LastUsed;
    forall i | 0 <= i < 8
      ensures Ripe(c, inputs, batches, now, i) <==>
        s.latest[i].Some? && s.emitted[i] < s.latest[i].value.raw.stampNs && now <= s.latest[i].value.raw.stampNs + c.maxAgeNs
    {
      assert MirrorsMotor(c, s, batches, inputs, i);
    }
    hide Ripe;
  }

  lemma SkewedExactly(c: Limits, s: MotorFeedback.State, batches: seq<Batch>, inputs: seq<Input>)
    requires |c.specs| == 8 && Mirrors(c, s, batches, inputs) && forall i :: 0 <= i < 8 ==> s.latest[i].Some?
    ensures Skewed(StampsOf(Motors(s)), c.maxSkewNs) <==> exists i, j :: 0 <= i < 8 && 0 <= j < 8 && Apart(c, inputs, i, j)
  {
    hide Newest, LastUsed;
    var stamps := StampsOf(Motors(s));
    forall i, j | 0 <= i < 8 && 0 <= j < 8
      ensures Apart(c, inputs, i, j) <==> stamps[i] > stamps[j] + c.maxSkewNs
    {
      assert MirrorsMotor(c, s, batches, inputs, i) && MirrorsMotor(c, s, batches, inputs, j);
    }
    hide Apart;
  }

  // ----- every batch is encoded

  lemma SameAsItself(spec: FeedbackSpec, m: Decoded)
    requires DecodeFeedback(spec, m.raw) == Some(m)
    ensures SameFloat(m.position, m.position) && SameFloat(m.velocity, m.velocity) && SameFloat(m.torque, m.torque)
  {
    assert FiniteEverywhere(spec.position) && FiniteEverywhere(spec.velocity) && FiniteEverywhere(spec.torque);
    hide Finite, AtEndpoint;
  }

  lemma GoodIsEncodable(c: Limits, b: Batch, source: Source)
    requires c.Valid() && GoodBatch(c, b) && source.side <= 1 && NonZero(source.session) && NonZero(source.digest)
    ensures Encodable(source, b, c.specs) && PacketOf(source, b).Valid()
  {
    forall i | 0 <= i < 8 ensures Consistent(c.specs[i], b.names[i], b.motors[i], b.assembledNs) {
      assert GoodMotor(c, b.motors[i], i, b.assembledNs);
      SameAsItself(c.specs[i], b.motors[i]);
    }
    hide Consistent, GoodMotor, ValidSpecs, NonZero, Skewed, Packet.Valid;
    assert ConsistentMotors(b, c.specs, 8);
    EncodedIsAccepted(source, b, c.specs);
  }

  /** A motor of a batch is what its frame measures, in plain terms. */
  predicate Truthful(spec: FeedbackSpec, name: string, m: Decoded, assembledNs: nat) {
    var b := m.raw.payload;
    && name == spec.name && m.raw.canId == spec.responseId && m.raw.payloadSize == 8 && b[0] % 0x10 == spec.slaveId
    && 0 < m.raw.stampNs <= assembledNs
    && Equal(m.position, spec.position(0x100 * (b[1] as nat) + (b[2] as nat)))
    && Equal(m.velocity, spec.velocity((0x1000 * (b[3] as nat) + 0x10 * (b[4] as nat)) / 0x100))
    && Equal(m.torque, spec.torque((0x100 * (b[4] as nat) + (b[5] as nat)) % 0x1000))
    && m.status == (b[0] as nat) / 0x10 && m.mosTemperature == b[6] && m.rotorTemperature == b[7]
    && (m.endpoint <==> Saturated(b))
  }

  predicate Equal(a: nat, b: nat) { !IsNaN(a) && !IsNaN(b) && (a == b || (IsZero(a) && IsZero(b))) }

  /** The encoder accepts exactly a source with side, session and configuration, a numbered and timed batch,
      proper specifications, and eight truthful motors. */
  lemma EncodableExactly(source: Source, batch: Batch, specs: seq<FeedbackSpec>)
    requires EightMotors(batch) && |specs| == 8
    ensures Encodable(source, batch, specs) <==>
      && source.side < 2 && batch.sequence > 0 && batch.assembledNs > 0
      && (exists i :: 0 <= i < 16 && source.session[i] > 0) && (exists i :: 0 <= i < 32 && source.digest[i] > 0)
      && ProperSpecs(specs)
      && forall i :: 0 <= i < 8 ==> Truthful(specs[i], batch.names[i], batch.motors[i], batch.assembledNs)
  {
    SpecsExactly(specs);
    hide ValidSpecs, ProperSpecs, Consistent, Truthful;
    forall i | 0 <= i < 8
      ensures Consistent(specs[i], batch.names[i], batch.motors[i], batch.assembledNs)
         <==> Truthful(specs[i], batch.names[i], batch.motors[i], batch.assembledNs)
    {
      ConsistentExactly(specs[i], batch.names[i], batch.motors[i], batch.assembledNs);
    }
  }

  lemma ConsistentExactly(spec: FeedbackSpec, name: string, m: Decoded, assembledNs: nat)
    ensures Consistent(spec, name, m, assembledNs) <==> Truthful(spec, name, m, assembledNs)
  {
    hide SameFloat, IsNaN, IsZero, Saturated, AtEndpoint;
    var b := m.raw.payload;
    SameFloatExactly(m.position, spec.position(0x100 * (b[1] as nat) + (b[2] as nat)));
    SameFloatExactly(m.velocity, spec.velocity((0x1000 * (b[3] as nat) + 0x10 * (b[4] as nat)) / 0x100));
    SameFloatExactly(m.torque, spec.torque((0x100 * (b[4] as nat) + (b[5] as nat)) % 0x1000));
    if DecodeFeedback(spec, m.raw).Some? { DecodedMeasures(spec, m.raw); }
  }

  // ----- a session that fits the accumulator

  /** The session expects this source and these motors, and is no stricter about skew. */
  predicate Fits(p: Session.Policy, source: Source, c: Limits) {
    && p.Sized() && |c.specs| == 8 && source.side <= 1 && NonZero(source.session) && NonZero(source.digest)
    && p.side == source.side && p.session == source.session && p.digest == source.digest
    && (forall i :: 0 <= i < 8 ==> p.responseIds[i] == c.specs[i].responseId && p.slaveIds[i] == c.specs[i].slaveId)
    && c.maxSkewNs <= p.maxSkewNs
  }

  /** No motor reports a status the policy does not list, or a value at the end of its range. */
  predicate Clean(p: Session.Policy, b: Batch)
    requires p.Sized()
  {
    |b.motors| == 8 && forall i :: 0 <= i < 8 ==> b.motors[i].status in p.allowedStatuses[i] && !b.motors[i].endpoint
  }

  /** Received by the session while its frames are recent, and made after the session began. */
  predicate Recent(p: Session.Policy, b: Batch, now: int) {
    && |b.motors| == 8 && b.assembledNs <= now
    && forall i :: 0 <= i < 8 ==> p.startedNs <= b.motors[i].raw.stampNs && now - b.motors[i].raw.stampNs <= p.maxAgeNs
  }

  lemma MotorIsOk(p: Session.Policy, source: Source, c: Limits, b: Batch, i: nat, now: int)
    requires Fits(p, source, c) && GoodBatch(c, b) && Clean(p, b) && Recent(p, b, now) && i < 8
    ensures Session.MotorOk(p, MotorOf(b.motors[i]), i, now) && p.startedNs <= b.assembledNs
  {
    assert GoodMotor(c, b.motors[i], i, b.assembledNs);
    hide AtEndpoint, Skewed, NonZero;
  }

  lemma GoodIsAdmitted(p: Session.Policy, source: Source, c: Limits, b: Batch, now: int, at: nat)
    requires c.Valid() && Fits(p, source, c) && GoodBatch(c, b) && Clean(p, b) && Recent(p, b, now)
    ensures Session.Admitted(p, Session.Reception(PacketOf(source, b), now, at)) && PacketOf(source, b).Valid()
  {
    GoodIsEncodable(c, b, source);
    var q := PacketOf(source, b);
    forall i | 0 <= i < 8 ensures Session.MotorOk(p, q.motors[i], i, now) {
      MotorIsOk(p, source, c, b, i, now);
    }
    MotorIsOk(p, source, c, b, 0, now);
    assert Session.StampsIn(q) == StampsOf(b.motors);
    hide Session.MotorOk, Packet.Valid, GoodMotor, Clean, Recent, NonZero, Encodable;
  }

  lemma LaterIsFresher(source: Source, a: Batch, b: Batch)
    requires Later(a, b)
    ensures Session.Fresher(PacketOf(source, a), PacketOf(source, b))
  {}

  // ----- delivery

  /** What happens at one moment at the receiving side: the deadline is polled, or a batch arrives. */
  datatype Slot = Slot(now: int, sent: Option<nat>)

  predicate InRange(batches: seq<Batch>, schedule: seq<Slot>) {
    forall k :: 0 <= k < |schedule| && schedule[k].sent.Some? ==> schedule[k].sent.value < |batches|
  }

  /** The events a session sees when the scheduled batches are encoded and delivered. */
  function Transcript(source: Source, batches: seq<Batch>, schedule: seq<Slot>): (e: seq<Session.Event>)
    requires InRange(batches, schedule)
    ensures |e| == |schedule|
  {
    seq(|schedule|, k requires 0 <= k < |schedule| => EventOf(source, batches, schedule, k))
  }

  function EventOf(source: Source, batches: seq<Batch>, schedule: seq<Slot>, k: nat): Session.Event
    requires InRange(batches, schedule) && k < |schedule|
  {
    match schedule[k].sent
    case None => Session.Poll(schedule[k].now)
    case Some(i) => Session.Deliver(Serialize(PacketOf(source, batches[i])), schedule[k].now)
  }

  /** All scheduled batches, as received. */
  function Expected(source: Source, batches: seq<Batch>, schedule: seq<Slot>): (log: seq<Session.Reception>)
    requires InRange(batches, schedule)
    ensures log != [] <==> LastSent(schedule).Some?
    ensures log != [] ==> LastSent(schedule).value < |batches| && log[|log| - 1].packet == PacketOf(source, batches[LastSent(schedule).value])
    decreases |schedule|
  {
    if schedule == [] then []
    else
      var n := |schedule| - 1;
      var before := Expected(source, batches, schedule[..n]);
      match schedule[n].sent
      case None => before
      case Some(i) => before + [Session.Reception(PacketOf(source, batches[i]), schedule[n].now, n)]
  }

  /** The batch scheduled last. */
  function LastSent(schedule: seq<Slot>): Option<nat>
    decreases |schedule|
  {
    if schedule == [] then None
    else if schedule[|schedule| - 1].sent.Some? then schedule[|schedule| - 1].sent
    else LastSent(schedule[..|schedule| - 1])
  }

  /** The receiver's clock after a schedule. */
  function Clock(p: Session.Policy, schedule: seq<Slot>): int {
    if schedule == [] then p.startedNs else schedule[|schedule| - 1].now
  }

  /** The deliveries skip batches but never go back, and keep the deadlines of the policy. */
  predicate Timely(p: Session.Policy, source: Source, batches: seq<Batch>, schedule: seq<Slot>)
    requires InRange(batches, schedule)
    decreases |schedule|
  {
    schedule != [] ==>
      var n := |schedule| - 1;
      var slot, before := schedule[n], schedule[..n];
      && Timely(p, source, batches, before)
      && Session.Positive(slot.now) && slot.now >= Clock(p, before)
      && Session.Punctual(p, Expected(source, batches, before), slot.now)
      && (slot.sent.Some? ==> NextInOrder(LastSent(before), slot.sent.value) && Recent(p, batches[slot.sent.value], slot.now))
  }

  predicate NextInOrder(last: Option<nat>, i: nat) { last.Some? ==> last.value < i }

  /** Every delivered batch is clean. */
  predicate AllClean(p: Session.Policy, batches: seq<Batch>, schedule: seq<Slot>)
    requires p.Sized() && InRange(batches, schedule)
  {
    forall k :: 0 <= k < |schedule| && schedule[k].sent.Some? ==> Clean(p, batches[schedule[k].sent.value])
  }

  /** Every scheduled packet is accepted. */
  predicate Delivered(p: Session.Policy, source: Source, batches: seq<Batch>, schedule: seq<Slot>)
    requires InRange(batches, schedule) && p.Sized()
  {
    var (s, log) := Session.Run(p, Transcript(source, batches, schedule));
    !s.faulted && log == Expected(source, batches, schedule) && s.lastNow == Clock(p, schedule)
  }

  /** What the schedule promises about its last slot. */
  lemma LastSlotIsTimely(p: Session.Policy, source: Source, batches: seq<Batch>, before: seq<Slot>, slot: Slot)
    requires InRange(batches, before) && InRange(batches, before + [slot])
    requires Timely(p, source, batches, before + [slot])
    ensures Session.Positive(slot.now) && slot.now >= Clock(p, before) && Clock(p, before + [slot]) == slot.now
    ensures Session.Punctual(p, Expected(source, batches, before), slot.now)
    ensures slot.sent.Some? ==> slot.sent.value < |batches|
    ensures slot.sent.Some? ==> NextInOrder(LastSent(before), slot.sent.value) && Recent(p, batches[slot.sent.value], slot.now)
    ensures Transcript(source, batches, before + [slot])
         == Transcript(source, batches, before) + [EventOf(source, batches, before + [slot], |before|)]
    ensures Expected(source, batches, before + [slot]) == if slot.sent == None then Expected(source, batches, before)
      else Expected(source, batches, before) + [Session.Reception(PacketOf(source, batches[slot.sent.value]), slot.now, |before|)]
  {
    hide Session.Punctual, Recent, PacketOf, Serialize;
    var schedule := before + [slot];
    assert schedule[..|before|] == before && slot == schedule[|before|];
    assert slot.sent.Some? ==> schedule[|before|].sent.value < |batches|;
  }

  lemma NextIsFresher(source: Source, batches: seq<Batch>, before: seq<Slot>, i: nat)
    requires InRange(batches, before) && AllLater(batches) && i < |batches| && NextInOrder(LastSent(before), i)
    ensures var log := Expected(source, batches, before);
      log != [] ==> Session.Fresher(log[|log| - 1].packet, PacketOf(source, batches[i]))
  {
    var log := Expected(source, batches, before);
    if log != [] {
      LaterIsFresher(source, batches[LastSent(before).value], batches[i]);
    }
  }

  lemma SentIsAccepted(p: Session.Policy, source: Source, c: Limits, batches: seq<Batch>, before: seq<Slot>, slot: Slot)
    requires c.Valid() && Fits(p, source, c) && AllGood(c, batches) && AllLater(batches)
    requires InRange(batches, before) && InRange(batches, before + [slot]) && slot.sent.Some?
    requires slot.sent.value < |batches| && Clean(p, batches[slot.sent.value])
    requires Delivered(p, source, batches, before) && Timely(p, source, batches, before + [slot])
    ensures Delivered(p, source, batches, before + [slot])
  {
    var i := slot.sent.value;
    assert GoodBatch(c, batches[i]) && p.Sized();
    LastSlotIsTimely(p, source, batches, before, slot);
    hide Session.Run, Session.Admitted, Session.Punctual, Session.Fresher, Session.Policy.Sized, Packet.Valid, Transcript,
      Expected, Timely, Clock, Serialize, PacketOf, AllLater, AllGood, Clean, Recent, Fits, GoodBatch, NextInOrder, InRange;
    NextIsFresher(source, batches, before, i);
    GoodIsAdmitted(p, source, c, batches[i], slot.now, |before|);
    Session.DeliveryIsExact(p, Transcript(source, batches, before), PacketOf(source, batches[i]), slot.now);
  }

  lemma PollPasses(p: Session.Policy, source: Source, batches: seq<Batch>, before: seq<Slot>, slot: Slot)
    requires p.Sized() && InRange(batches, before) && InRange(batches, before + [slot]) && slot.sent == None
    requires Delivered(p, source, batches, before) && Timely(p, source, batches, before + [slot])
    ensures Delivered(p, source, batches, before + [slot])
  {
    LastSlotIsTimely(p, source, batches, before, slot);
    hide Session.Run, Session.Punctual, Transcript, Expected, Timely, Clock, Serialize, PacketOf, Recent;
    Session.PollIsExact(p, Transcript(source, batches, before), slot.now);
  }

  lemma NothingScheduled(p: Session.Policy, source: Source, batches: seq<Batch>)
    requires p.Sized()
    ensures Delivered(p, source, batches, [])
  {
    assert Transcript(source, batches, []) == [];
  }

  lemma {:induction false} ScheduleIsAccepted(
    p: Session.Policy, source: Source, c: Limits, batches: seq<Batch>, schedule: seq<Slot>)
    requires c.Valid() && Fits(p, source, c) && AllGood(c, batches) && AllLater(batches)
    requires InRange(batches, schedule) && AllClean(p, batches, schedule) && Timely(p, source, batches, schedule)
    ensures Delivered(p, source, batches, schedule)
    decreases |schedule|
  {
    hide Delivered, AllGood, AllLater, Clean, Expected, Session.Punctual, Session.Run, Transcript, Recent;
    if schedule == [] {
      NothingScheduled(p, source, batches);
    } else {
      var before, slot := schedule[..|schedule| - 1], schedule[|schedule| - 1];
      assert schedule == before + [slot];
      ScheduleIsAccepted(p, source, c, batches, before);
      if slot.sent == None {
        PollPasses(p, source, batches, before, slot);
      } else {
        SentIsAccepted(p, source, c, batches, before, slot);
      }
    }
  }

  /** End to end: take any run of an accumulator. Encode its batches and deliver any of them in
      order and on time to a session that expects this source; as long as the motors report
      allowed statuses and no value at the end of its range, every delivery is accepted. */
  lemma TimelyDeliveryIsAccepted(
    p: Session.Policy, source: Source, c: Limits, inputs: seq<Input>, schedule: seq<Slot>)
    requires c.Valid() && Fits(p, source, c)
    requires InRange(Collected(c, inputs).1, schedule) && AllClean(p, Collected(c, inputs).1, schedule)
    requires Timely(p, source, Collected(c, inputs).1, schedule)
    ensures Delivered(p, source, Collected(c, inputs).1, schedule)
  {
    BatchesProgress(c, inputs);
    hide Delivered, Timely, AllGood, AllLater, AllClean, Collected;
    ScheduleIsAccepted(p, source, c, Collected(c, inputs).1, schedule);
  }

  /** And in every packet that such a delivery leads to acceptance: the values of motor i are its own
      three scales of the fields of the payload beside them, and no field is saturated. */
  lemma DeliveredMeasures(
    p: Session.Policy, source: Source, c: Limits, inputs: seq<Input>, schedule: seq<Slot>, k: nat, i: nat)
    requires c.Valid() && Fits(p, source, c)
    requires InRange(Collected(c, inputs).1, schedule) && AllClean(p, Collected(c, inputs).1, schedule)
    requires Timely(p, source, Collected(c, inputs).1, schedule)
    requires k < |Session.Run(p, Transcript(source, Collected(c, inputs).1, schedule)).1| && i < 8
    ensures var q := Session.Run(p, Transcript(source, Collected(c, inputs).1, schedule)).1[k].packet;
      && |q.motors| == 8 && |q.motors[i].payload| == 8 && q.motors[i].responseId == c.specs[i].responseId
      && Measures(c.specs[i], q.motors[i].payload, q.motors[i].position, q.motors[i].velocity, q.motors[i].torque)
      && !Saturated(q.motors[i].payload)
  {
    hide Collected, Timely, Session.Run, Transcript, Expected, Measures, Saturated, Clean, Fits, Session.Policy.Sized;
    var batches := Collected(c, inputs).1;
    TimelyDeliveryIsAccepted(p, source, c, inputs, schedule);
    FitsSized(p, source, c);
    var j := ExpectedIsSent(source, batches, schedule, k);
    BatchesMeasure(c, inputs, schedule[j].sent.value, i);
    CleanMotor(p, batches[schedule[j].sent.value], i);
  }

  lemma FitsSized(p: Session.Policy, source: Source, c: Limits)
    requires Fits(p, source, c)
    ensures p.Sized() && |c.specs| == 8
  {}

  lemma CleanMotor(p: Session.Policy, b: Batch, i: nat)
    requires p.Sized() && Clean(p, b) && i < 8
    ensures |b.motors| == 8 && !b.motors[i].endpoint
  {}

  /** Every expected packet was sent in some slot. */
  lemma {:induction false} ExpectedIsSent(source: Source, batches: seq<Batch>, schedule: seq<Slot>, k: nat) returns (j: nat)
    requires InRange(batches, schedule) && k < |Expected(source, batches, schedule)|
    ensures j < |schedule| && schedule[j].sent.Some?
    ensures Expected(source, batches, schedule)[k].packet == PacketOf(source, batches[schedule[j].sent.value])
    decreases |schedule|
  {
    hide PacketOf;
    var n := |schedule| - 1;
    var before := Expected(source, batches, schedule[..n]);
    if k < |before| { j := ExpectedIsSent(source, batches, schedule[..n], k); } else { j := n; }
  }
}
