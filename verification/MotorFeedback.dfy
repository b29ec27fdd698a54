/** Raw motor feedback: decoding one CAN frame, and the accumulator that assembles complete
    batches of one fresh frame per motor. */
module MotorFeedback {
  import opened Common

  const MOTOR_NAMES: seq<string> := ["joint_1", "joint_2", "joint_3", "joint_4", "joint_5", "joint_6", "joint_7", "gripper"]

  type Bytes8 = b: seq<byte> | |b| == 8 witness [0, 0, 0, 0, 0, 0, 0, 0]

  /** Equality of float32 values: no NaN, and the two zeros are equal. */
  predicate SameFloat(a: bits32, b: bits32) {
    (a == b && Finite(a)) || (a == b && a % 0x80_0000 == 0) || (a % 0x8000_0000 == 0 && b % 0x8000_0000 == 0)
  }

  /** The conversion of a raw integer to float32 within a configured range, which is positive and
      representable: the values are finite. */
  type Scale = f: nat -> bits32 | FiniteEverywhere(f) witness (v: nat) => 0

  ghost predicate FiniteEverywhere(f: nat -> bits32) { forall v: nat :: Finite(f(v)) }

  /** How one motor's frames are recognised and scaled. */
  datatype FeedbackSpec = FeedbackSpec(
    name: string, responseId: nat, slaveId: nat, position: Scale, velocity: Scale, torque: Scale)
  {
    predicate Valid() { name in MOTOR_NAMES && responseId <= 0x7FF && 1 <= slaveId <= 15 }
  }

  /** A received frame; the stamp is the host dequeue time. */
  datatype Frame = Frame(canId: nat, payload: Bytes8, payloadSize: nat, stampNs: u64, canFd: bool)

  datatype Decoded = Decoded(
    raw: Frame, position: bits32, velocity: bits32, torque: bits32,
    status: nat, mosTemperature: byte, rotorTemperature: byte, endpoint: bool)

  function PositionField(b: Bytes8): nat { 256 * (b[1] as nat) + (b[2] as nat) }
  function VelocityField(b: Bytes8): nat { 16 * (b[3] as nat) + (b[4] as nat) / 16 }
  function TorqueField(b: Bytes8): nat { 256 * ((b[4] as nat) % 16) + (b[5] as nat) }

  /** The three integers take up bytes one to five, bit for bit: 16, 12 and 12 bits. */
  lemma FieldsCoverPayload(b: Bytes8)
    ensures PositionField(b) < 0x1_0000 && VelocityField(b) < 0x1000 && TorqueField(b) < 0x1000
    ensures b[1..6] == [PositionField(b) / 256, PositionField(b) % 256, VelocityField(b) / 16,
                        16 * (VelocityField(b) % 16) + TorqueField(b) / 256, TorqueField(b) % 256]
  {
    assert b[1] as nat == PositionField(b) / 256 && b[3] as nat == VelocityField(b) / 16;
  }

  /** Some integer field is at the end of its range. */
  predicate AtEndpoint(b: Bytes8) {
    || PositionField(b) == 0 || PositionField(b) == 65535
    || VelocityField(b) == 0 || VelocityField(b) == 4095
    || TorqueField(b) == 0 || TorqueField(b) == 4095
  }

  predicate Addressed(spec: FeedbackSpec, f: Frame) {
    f.canId == spec.responseId && f.payloadSize == 8 && f.stampNs > 0 && f.payload[0] % 16 == spec.slaveId
  }

  function DecodeFeedback(spec: FeedbackSpec, f: Frame): Option<Decoded> {
    if !Addressed(spec, f) then None
    else
      var b := f.payload;
      Some(Decoded(f, spec.position(PositionField(b)), spec.velocity(VelocityField(b)), spec.torque(TorqueField(b)),
                   (b[0] as nat) / 16, b[6], b[7], AtEndpoint(b)))
  }

  // ----- the accumulator

  datatype Batch = Batch(sequence: u64, assembledNs: u64, names: seq<string>, motors: seq<Decoded>)

  type Slots = s: seq<Option<Decoded>> | |s| == 8 witness [None, None, None, None, None, None, None, None]
  type Stamps = s: seq<nat> | |s| == 8 witness [0, 0, 0, 0, 0, 0, 0, 0]

  datatype Limits = Limits(specs: seq<FeedbackSpec>, maxAgeNs: nat, maxSkewNs: nat) {
    predicate Valid() { 0 < maxSkewNs <= maxAgeNs && ValidSpecs(specs) }
  }

  /** Eight valid specs, in motor order, with distinct response and slave ids. */
  predicate ValidSpecs(specs: seq<FeedbackSpec>) {
    && |specs| == 8 && (forall i :: 0 <= i < 8 ==> specs[i].Valid() && specs[i].name == MOTOR_NAMES[i])
    && (forall i, j :: 0 <= i < j < 8 ==> specs[i].responseId != specs[j].responseId && specs[i].slaveId != specs[j].slaveId)
  }

  datatype State = State(latest: Slots, emitted: Stamps, lastNow: nat, sequence: nat, faulted: bool)

  const INITIAL := State([None, None, None, None, None, None, None, None], [0, 0, 0, 0, 0, 0, 0, 0], 0, 0, false)

  /** The first motor at or after i that answers to this id, or 8. */
  function Owner(specs: seq<FeedbackSpec>, canId: nat, i: nat): (k: nat)
    requires |specs| == 8 && i <= 8
    ensures i <= k <= 8 && (k < 8 ==> specs[k].responseId == canId)
    ensures forall j :: i <= j < k ==> specs[j].responseId != canId
    decreases 8 - i
  {
    if i == 8 || specs[i].responseId == canId then i else Owner(specs, canId, i + 1)
  }

  datatype Ingested = Related | Unrelated | Refused

  predicate Newer(slot: Option<Decoded>, f: Frame) { slot.Some? ==> f.stampNs > slot.value.raw.stampNs }

  function Ingest(c: Limits, s: State, f: Frame): (State, Ingested)
    requires |c.specs| == 8
  {
    if s.faulted || f.canId > 0x7FF then (s.(faulted := true), Refused)
    else
      var k := Owner(c.specs, f.canId, 0);
      if k == 8 then (s, Unrelated)
      else
        var d := DecodeFeedback(c.specs[k], f);
        if d == None || !Newer(s.latest[k], f) then (s.(faulted := true), Refused)
        else (s.(latest := s.latest[k := d]), Related)
  }

  datatype Taken = Nothing | Emitted(batch: Batch) | Broken

  predicate Future(s: State, now: nat) {
    exists i :: 0 <= i < 8 && s.latest[i].Some? && s.latest[i].value.raw.stampNs > now
  }

  /** Every motor has a frame newer than the one it last contributed, and not too old. */
  predicate Complete(c: Limits, s: State, now: nat) {
    forall i :: 0 <= i < 8 ==> s.latest[i].Some? && s.emitted[i] < s.latest[i].value.raw.stampNs
                               && now <= s.latest[i].value.raw.stampNs + c.maxAgeNs
  }

  /** No two stamps differ by more than the skew. */
  predicate Skewed(stamps: Stamps, skew: nat) {
    exists i, j :: 0 <= i < 8 && 0 <= j < 8 && stamps[i] > stamps[j] + skew
  }

  function StampsOf(motors: seq<Decoded>): Stamps
    requires |motors| == 8
  {
    seq(8, i requires 0 <= i < 8 => motors[i].raw.stampNs as nat)
  }

  function Motors(s: State): (m: seq<Decoded>)
    requires forall i :: 0 <= i < 8 ==> s.latest[i].Some?
    ensures |m| == 8 && forall i :: 0 <= i < 8 ==> m[i] == s.latest[i].value
  {
    seq(8, i requires 0 <= i < 8 => s.latest[i].value)
  }

  function Take(c: Limits, s: State, now: nat): (State, Taken)
    requires |c.specs| == 8
  {
    if s.faulted || now == 0 || now <= s.lastNow || now > MAX_UINT64 then (s.(faulted := true), Broken)
    else
      var t := s.(lastNow := now);
      if Future(s, now) then (t.(faulted := true), Broken)
      else if !Complete(c, s, now) || Skewed(StampsOf(Motors(s)), c.maxSkewNs) then (t, Nothing)
      else if s.sequence >= MAX_UINT64 then (t.(faulted := true), Broken)
      else
        var motors := Motors(s);
        var batch := Batch(s.sequence + 1, now, seq(8, i requires 0 <= i < 8 => c.specs[i].name), motors);
        (t.(sequence := s.sequence + 1, emitted := StampsOf(motors)), Emitted(batch))
  }

  /** Comparing the newest stamp with the oldest is comparing all of them. */
  lemma SkewFromExtremes(stamps: Stamps, a: nat, b: nat, skew: nat)
    requires a < 8 && b < 8 && forall j :: 0 <= j < 8 ==> stamps[a] <= stamps[j] <= stamps[b]
    ensures Skewed(stamps, skew) <==> stamps[b] - stamps[a] > skew
  {
    if stamps[b] - stamps[a] > skew { assert stamps[b] > stamps[a] + skew; }
  }

  /** Stamps of the first i motors, each of which has a frame, run from `oldest` to `newest`; before
      the first one they are what the scan starts from. */
  ghost predicate Spread(latest: Slots, i: nat, now: nat, oldest: nat, newest: nat)
    requires i <= 8
  {
    && (forall j :: 0 <= j < i ==> latest[j].Some? && oldest <= latest[j].value.raw.stampNs <= newest)
    && (if i == 0 then oldest == now && newest == 0
        else (exists a :: 0 <= a < i && latest[a].value.raw.stampNs == oldest)
             && exists b :: 0 <= b < i && latest[b].value.raw.stampNs == newest)
  }

  lemma NothingScanned(latest: Slots, now: nat)
    ensures Spread(latest, 0, now, now, 0)
  {}

  lemma SpreadGrows(latest: Slots, i: nat, now: nat, oldest: nat, newest: nat)
    requires i < 8 && Spread(latest, i, now, oldest, newest) && latest[i].Some? && latest[i].value.raw.stampNs <= now
    ensures var stamp := latest[i].value.raw.stampNs;
      Spread(latest, i + 1, now, if stamp < oldest then stamp else oldest, if stamp > newest then stamp else newest)
  {}

  lemma SpreadDecides(s: State, now: nat, oldest: nat, newest: nat, skew: nat)
    requires Spread(s.latest, 8, now, oldest, newest)
    ensures oldest <= newest && (forall i :: 0 <= i < 8 ==> s.latest[i].Some?)
    ensures Skewed(StampsOf(Motors(s)), skew) <==> newest - oldest > skew
  {
    hide Skewed;
    var a :| 0 <= a < 8 && s.latest[a].value.raw.stampNs == oldest;
    var b :| 0 <= b < 8 && s.latest[b].value.raw.stampNs == newest;
    SkewFromExtremes(StampsOf(Motors(s)), a, b, skew);
  }

  class Accumulator {
    const limits: Limits
    var latest: Slots
    var emitted: Stamps
    var lastNow: nat
    var sequence: nat
    var faulted: bool

    constructor (limits: Limits)
      requires limits.Valid()
      ensures this.limits == limits && View() == INITIAL
    {
      this.limits := limits;
      latest, emitted := [None, None, None, None, None, None, None, None], [0, 0, 0, 0, 0, 0, 0, 0];
      lastNow, sequence, faulted := 0, 0, false;
    }

    function View(): State
      reads this
    {
      State(latest, emitted, lastNow, sequence, faulted)
    }

    method Invalidate()
      modifies `faulted
      ensures faulted
    {
      faulted := true;
    }

    method IngestFrame(f: Frame) returns (r: Ingested)
      requires |limits.specs| == 8
      modifies this
      ensures (View(), r) == Ingest(limits, old(View()), f)
    {
      hide DecodeFeedback;
      if faulted { return Refused; }
      if f.canId > 0x7FF { faulted := true; return Refused; }
      for i := 0 to 8
        invariant View() == old(View())
        invariant Owner(limits.specs, f.canId, 0) == Owner(limits.specs, f.canId, i)
      {
        if f.canId != limits.specs[i].responseId { continue; }
        var decoded := DecodeFeedback(limits.specs[i], f);
        if decoded == None || (latest[i].Some? && f.stampNs <= latest[i].value.raw.stampNs) {
          faulted := true;
          return Refused;
        }
        latest := latest[i := decoded];
        return Related;
      }
      return Unrelated;
    }

    method TakeBatch(now: u64) returns (r: Taken)
      requires |limits.specs| == 8
      modifies this
      ensures (View(), r) == Take(limits, old(View()), now)
    {
      hide Skewed, Spread;
      if faulted || now == 0 || now <= lastNow { faulted := true; return Broken; }
      lastNow := now;
      var complete := true;
      var oldest: nat, newest: nat := now, 0;
      NothingScanned(latest, now);
      for i := 0 to 8
        invariant View() == old(View()).(lastNow := now)
        invariant forall j :: 0 <= j < i && latest[j].Some? ==> latest[j].value.raw.stampNs <= now
        invariant complete <==> forall j :: 0 <= j < i ==>
          latest[j].Some? && emitted[j] < latest[j].value.raw.stampNs && now <= latest[j].value.raw.stampNs + limits.maxAgeNs
        invariant complete ==> Spread(latest, i, now, oldest, newest)
      {
        if latest[i] == None { complete := false; continue; }
        var stamp := latest[i].value.raw.stampNs;
        if stamp > now { faulted := true; return Broken; }
        if complete { SpreadGrows(latest, i, now, oldest, newest); }
        if stamp <= emitted[i] || now - stamp > limits.maxAgeNs { complete := false; }
        oldest := if stamp < oldest then stamp else oldest;
        newest := if stamp > newest then stamp else newest;
      }
      if complete { SpreadDecides(View(), now, oldest, newest, limits.maxSkewNs); }
      if !complete || newest - oldest > limits.maxSkewNs { return Nothing; }
      if sequence >= MAX_UINT64 { faulted := true; return Broken; }
      sequence := sequence + 1;
      var motors := Motors(View());
      emitted := StampsOf(motors);
      return Emitted(Batch(sequence, now, seq(8, i requires 0 <= i < 8 => limits.specs[i].name), motors));
    }
  }
}
