/** The native encoder of the VL1T/1 telemetry packet, writing through a moving offset. */
module Encoder {
  import opened Common
  import opened Bytes
  import opened MotorFeedback
  import opened Wire

  type Bytes16 = b: seq<byte> | |b| == 16 witness [0, 0, 0, 0, 0, 0, 0, 0, 0, 0, 0, 0, 0, 0, 0, 0]
  type Bytes32 = b: seq<byte> | |b| == 32
    witness [0, 0, 0, 0, 0, 0, 0, 0, 0, 0, 0, 0, 0, 0, 0, 0, 0, 0, 0, 0, 0, 0, 0, 0, 0, 0, 0, 0, 0, 0, 0, 0]

  datatype Source = Source(side: byte, session: Bytes16, digest: Bytes32)

  // ----- what is encodable, and as what

  /** The decoded values are those the raw frame stands for. */
  predicate Consistent(spec: FeedbackSpec, name: string, m: Decoded, assembledNs: nat) {
    var d := DecodeFeedback(spec, m.raw);
    && d.Some? && name == spec.name && m.raw.stampNs <= assembledNs
    && SameFloat(m.position, d.value.position) && SameFloat(m.velocity, d.value.velocity)
    && SameFloat(m.torque, d.value.torque) && m.status == d.value.status
    && m.mosTemperature == d.value.mosTemperature && m.rotorTemperature == d.value.rotorTemperature
    && m.endpoint == d.value.endpoint
  }

  predicate HeaderOk(source: Source, batch: Batch) {
    source.side <= 1 && NonZero(source.session) && NonZero(source.digest) && batch.sequence != 0 && batch.assembledNs != 0
  }

  predicate EightMotors(batch: Batch) { |batch.names| == 8 && |batch.motors| == 8 }

  /** The first n motors are consistent. */
  predicate ConsistentMotors(batch: Batch, specs: seq<FeedbackSpec>, n: nat)
    requires EightMotors(batch) && |specs| == 8 && n <= 8
  {
    forall i :: 0 <= i < n ==> Consistent(specs[i], batch.names[i], batch.motors[i], batch.assembledNs)
  }

  predicate Encodable(source: Source, batch: Batch, specs: seq<FeedbackSpec>)
    requires EightMotors(batch) && |specs| == 8
  {
    HeaderOk(source, batch) && ValidSpecs(specs) && ConsistentMotors(batch, specs, 8)
  }

  function MotorOf(m: Decoded): WireMotor {
    WireMotor(m.raw.canId, m.raw.canFd, m.endpoint, m.raw.stampNs, m.raw.payload, m.position, m.velocity, m.torque)
  }

  function MotorsOf(motors: seq<Decoded>): (w: seq<WireMotor>)
    ensures |w| == |motors| && forall i :: 0 <= i < |w| ==> w[i] == MotorOf(motors[i])
  {
    if motors == [] then [] else MotorsOf(motors[..|motors| - 1]) + [MotorOf(motors[|motors| - 1])]
  }

  /** The packet a batch is sent as. */
  function PacketOf(source: Source, batch: Batch): Packet {
    Packet(source.side, source.session, source.digest, batch.sequence, batch.assembledNs, MotorsOf(batch.motors))
  }

  // ----- the writer

  lemma NestedDivision(v: nat, p: nat)
    requires p > 0
    ensures v / 256 / p == v / (256 * p)
  {
    var q, r := v / 256 / p, v / 256 % p;
    assert v / 256 == q * p + r;
    assert v == 256 * (q * p + r) + v % 256;
    assert 256 * (q * p + r) == 256 * p * q + 256 * r;
    var low := 256 * r + v % 256;
    assert 0 <= low < 256 * p;
    Quotient(v, 256 * p, q, low);
  }

  lemma Quotient(v: nat, d: nat, q: nat, r: nat)
    requires v == d * q + r && r < d
    ensures v / d == q
  {
    var e := v / d;
    assert v == d * e + v % d;
    assert e < q ==> d * q >= d * (e + 1);
    assert e > q ==> d * e >= d * (q + 1);
  }

  lemma {:induction false} PowerPositive(n: nat)
    ensures Power256(n) > 0
  {
    if n > 0 { PowerPositive(n - 1); }
  }

  /** The next byte of a little-endian integer is its next shift. */
  lemma {:induction false} LittleEndianGrows(value: nat, count: nat)
    ensures Power256(count) > 0
    ensures LittleEndian(value, count + 1) == LittleEndian(value, count) + [value / Power256(count) % 256]
  {
    PowerPositive(count);
    if count > 0 {
      LittleEndianGrows(value / 256, count - 1);
      NestedDivision(value, Power256(count - 1));
      assert LittleEndian(value, count + 1)
          == [value % 256] + (LittleEndian(value / 256, count - 1) + [value / Power256(count) % 256]);
    } else {
      assert LittleEndian(value, 1) == [value % 256] + LittleEndian(value / 256, 0);
    }
  }

  class Writer {
    const bytes: array<byte>
    var offset: nat

    ghost predicate Valid()
      reads this
    {
      bytes.Length == PACKET_SIZE && offset <= PACKET_SIZE
    }

    ghost function Written(): (s: seq<byte>)
      reads this, bytes
      requires Valid()
      ensures |s| == offset
    {
      bytes[..offset]
    }

    constructor ()
      ensures Valid() && Written() == [] && fresh(bytes)
    {
      bytes := new byte[PACKET_SIZE](i => 0);
      offset := 0;
    }

    method Integer(value: nat, count: nat)
      requires Valid() && offset + count <= PACKET_SIZE
      modifies `offset, bytes
      ensures Valid() && Written() == old(Written()) + LittleEndian(value, count)
    {
      ghost var start := offset;
      ghost var before := Written();
      for i := 0 to count
        invariant Valid() && offset == start + i && start == old(offset) && Power256(i) > 0
        invariant Written() == before + LittleEndian(value, i)
      {
        LittleEndianGrows(value, i);
        ghost var written := Written();
        bytes[offset] := value / Power256(i) % 256;
        offset := offset + 1;
        assert Written() == written + [value / Power256(i) % 256];
      }
    }

    method Append(values: seq<byte>)
      requires Valid() && offset + |values| <= PACKET_SIZE
      modifies `offset, bytes
      ensures Valid() && Written() == old(Written()) + values
    {
      ghost var before := Written();
      for i := 0 to |values|
        invariant Valid() && offset == old(offset) + i
        invariant Written() == before + values[..i]
      {
        OneByte(values[i]);
        Integer(values[i], 1);
        assert values[..i + 1] == values[..i] + [values[i]];
      }
      assert values[..|values|] == values;
    }

    method Real(bits: bits32)
      requires Valid() && offset + 4 <= PACKET_SIZE
      modifies `offset, bytes
      ensures Valid() && Written() == old(Written()) + LittleEndian(bits, 4)
    {
      Integer(bits, 4);
    }
  }

  // ----- the encoder

  method WriteMotor(w: Writer, m: Decoded)
    requires w.Valid() && w.offset + MOTOR_SIZE <= PACKET_SIZE
    modifies w`offset, w.bytes
    ensures w.Valid() && w.Written() == old(w.Written()) + MotorBytes(MotorOf(m))
  {
    hide LittleEndian;
    ghost var before, sent := w.Written(), LittleEndian(m.raw.canId, 2);
    w.Integer(m.raw.canId, 2);
    var flags := (if m.raw.canFd then 1 else 0) + (if m.endpoint then 2 else 0);
    w.Integer(flags, 1);
    sent := Sent(before, sent, LittleEndian(flags, 1));
    w.Integer(0, 1);
    sent := Sent(before, sent, LittleEndian(0, 1));
    w.Integer(m.raw.stampNs, 8);
    sent := Sent(before, sent, LittleEndian(m.raw.stampNs, 8));
    w.Append(m.raw.payload);
    sent := Sent(before, sent, m.raw.payload);
    w.Real(m.position);
    sent := Sent(before, sent, LittleEndian(m.position, 4));
    w.Real(m.velocity);
    sent := Sent(before, sent, LittleEndian(m.velocity, 4));
    w.Real(m.torque);
    sent := Sent(before, sent, LittleEndian(m.torque, 4));
  }

  /** Sending c after b after a is sending b + c after a. */
  lemma Sent(a: seq<byte>, b: seq<byte>, c: seq<byte>) returns (s: seq<byte>)
    ensures s == b + c && a + b + c == a + s
  {
    s := b + c;
    assert a + b + c == a + s;
  }

  method WriteHeader(w: Writer, source: Source, batch: Batch)
    requires w.Valid() && w.Written() == []
    modifies w`offset, w.bytes
    ensures w.Valid() && w.Written() == HeaderBytes(PacketOf(source, batch)) && w.offset == HEADER_SIZE
  {
    hide LittleEndian;
    w.Append(MAGIC);
    w.Integer(1, 2);
    w.Integer(source.side, 1);
    w.Integer(0, 1);
    assert w.Written() == MAGIC + LittleEndian(1, 2) + LittleEndian(source.side, 1) + LittleEndian(0, 1);
    w.Append(source.session);
    w.Append(source.digest);
    w.Integer(batch.sequence, 8);
    w.Integer(batch.assembledNs, 8);
    HeaderLayout(PacketOf(source, batch));
  }

  /** Write the motors in order, stopping at the first inconsistent one. */
  method WriteMotors(w: Writer, batch: Batch, specs: seq<FeedbackSpec>) returns (ok: bool)
    requires EightMotors(batch) && |specs| == 8 && w.Valid() && w.offset == HEADER_SIZE
    modifies w`offset, w.bytes
    ensures ok == ConsistentMotors(batch, specs, 8)
    ensures ok ==> w.Valid() && w.offset == PACKET_SIZE && w.Written() == old(w.Written()) + Sending(batch, 8)
  {
    hide ConsistentMotors, Consistent, Sending, MotorBytes, MotorOf;
    ghost var header := w.Written();
    NothingSent(batch, specs, header);
    for i := 0 to 8
      invariant w.Valid() && w.offset == HEADER_SIZE + MOTOR_SIZE * i
      invariant w.Written() == header + Sending(batch, i) && ConsistentMotors(batch, specs, i)
    {
      NextMotor(batch, specs, i);
      if !Consistent(specs[i], batch.names[i], batch.motors[i], batch.assembledNs) { return false; }
      WriteMotor(w, batch.motors[i]);
      ghost var _ := Sent(header, Sending(batch, i), MotorBytes(MotorOf(batch.motors[i])));
    }
    return true;
  }

  /** `encode_feedback_packet`: None if the input is refused. */
  method EncodeFeedbackPacket(source: Source, batch: Batch, specs: seq<FeedbackSpec>) returns (r: Option<seq<byte>>)
    requires EightMotors(batch) && |specs| == 8
    ensures r == if Encodable(source, batch, specs) then Some(Serialize(PacketOf(source, batch))) else None
  {
    hide ConsistentMotors, HeaderBytes, MotorsBytes, MotorsOf, ValidSpecs, HeaderOk;
    if !HeaderOk(source, batch) || !ValidSpecs(specs) { return None; }
    var w := new Writer();
    WriteHeader(w, source, batch);
    var consistent := WriteMotors(w, batch, specs);
    if !consistent { return None; }
    assert batch.motors[..8] == batch.motors;
    assert w.bytes[..w.offset] == w.bytes[..];
    return Some(w.bytes[..]);
  }

  /** The bytes of the first n motors. */
  ghost function Sending(batch: Batch, n: nat): seq<byte>
    requires EightMotors(batch) && n <= 8
  {
    MotorsBytes(MotorsOf(batch.motors[..n]))
  }

  lemma NothingSent(batch: Batch, specs: seq<FeedbackSpec>, header: seq<byte>)
    requires EightMotors(batch) && |specs| == 8
    ensures header == header + Sending(batch, 0) && ConsistentMotors(batch, specs, 0)
  {}

  lemma NextMotor(batch: Batch, specs: seq<FeedbackSpec>, n: nat)
    requires EightMotors(batch) && |specs| == 8 && n < 8 && ConsistentMotors(batch, specs, n)
    ensures Sending(batch, n + 1) == Sending(batch, n) + MotorBytes(MotorOf(batch.motors[n]))
    ensures |MotorBytes(MotorOf(batch.motors[n]))| == MOTOR_SIZE
    ensures Consistent(specs[n], batch.names[n], batch.motors[n], batch.assembledNs)
      ==> ConsistentMotors(batch, specs, n + 1)
    ensures !Consistent(specs[n], batch.names[n], batch.motors[n], batch.assembledNs)
      ==> !ConsistentMotors(batch, specs, 8)
  {
    NextBytes(batch.motors, n);
    hide MotorBytes, Consistent, MotorsBytes, MotorsOf, MotorOf;
  }

  lemma NextBytes(motors: seq<Decoded>, n: nat)
    requires n < |motors|
    ensures MotorsBytes(MotorsOf(motors[..n + 1])) == MotorsBytes(MotorsOf(motors[..n])) + MotorBytes(MotorOf(motors[n]))
    ensures |MotorBytes(MotorOf(motors[n]))| == MOTOR_SIZE
  {
    MotorLayout(MotorOf(motors[n]));
    hide MotorBytes, MotorOf;
    var front := motors[..n + 1];
    assert front[..n] == motors[..n] && front[n] == motors[n];
    var w := MotorsOf(front);
    assert w[..n] == MotorsOf(motors[..n]) && w[n] == MotorOf(motors[n]);
  }

  // ----- every encoded packet is one the receiver accepts

  lemma MotorsAreValid(source: Source, batch: Batch, specs: seq<FeedbackSpec>)
    requires EightMotors(batch) && |specs| == 8 && Encodable(source, batch, specs)
    ensures forall i :: 0 <= i < 8 ==> MotorOf(batch.motors[i]).Valid()
    ensures forall i, j :: 0 <= i < j < 8 ==> batch.motors[i].raw.canId != batch.motors[j].raw.canId
  {
    forall i | 0 <= i < 8
      ensures MotorOf(batch.motors[i]).Valid() && batch.motors[i].raw.canId == specs[i].responseId
    {
      assert Consistent(specs[i], batch.names[i], batch.motors[i], batch.assembledNs);
      MotorIsValid(specs[i], batch.names[i], batch.motors[i], batch.assembledNs);
    }
  }

  lemma MotorIsValid(spec: FeedbackSpec, name: string, m: Decoded, assembledNs: nat)
    requires spec.Valid() && Consistent(spec, name, m, assembledNs)
    ensures MotorOf(m).Valid() && m.raw.canId == spec.responseId
  {
    hide AtEndpoint, Finite;
    var d := DecodeFeedback(spec, m.raw).value;
    assert FiniteEverywhere(spec.position) && FiniteEverywhere(spec.velocity) && FiniteEverywhere(spec.torque);
    SameIsFinite(m.position, d.position);
    SameIsFinite(m.velocity, d.velocity);
    SameIsFinite(m.torque, d.torque);
  }

  lemma SameIsFinite(a: bits32, b: bits32)
    requires SameFloat(a, b) && Finite(b)
    ensures Finite(a)
  {}

  /** Whatever the encoder emits, the decoder accepts, and it returns the identity, the times,
      the payloads, the flags and the float bit patterns that were sent. */
  lemma EncodedIsAccepted(source: Source, batch: Batch, specs: seq<FeedbackSpec>)
    requires EightMotors(batch) && |specs| == 8 && Encodable(source, batch, specs)
    ensures PacketOf(source, batch).Valid() && |Serialize(PacketOf(source, batch))| == PACKET_SIZE
    ensures Decode(Serialize(PacketOf(source, batch))) == Some(PacketOf(source, batch))
  {
    MotorsAreValid(source, batch, specs);
    assert forall i :: 0 <= i < 8 ==> Consistent(specs[i], batch.names[i], batch.motors[i], batch.assembledNs);
    hide Encodable, Serialize, Decode;
    DecodeOfSerialize(PacketOf(source, batch));
  }
}
