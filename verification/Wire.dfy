/** The VL1T/1 telemetry packet: the native encoder, the Python decoder, and the exact
    correspondence between accepted byte strings and packets. */
module Wire {
  import opened Common
  import opened Bytes
  import opened MotorFeedback
  import opened Measurement

  const PACKET_SIZE := 328
  const HEADER_SIZE := 72
  const MOTOR_SIZE := 32
  const MAGIC: seq<byte> := [0x56, 0x4C, 0x31, 0x54]

  /** What a packet says about one motor. */
  datatype WireMotor = WireMotor(
    responseId: nat, canFd: bool, endpoint: bool, stampNs: nat, payload: seq<byte>,
    position: nat, velocity: nat, torque: nat)
  {
    predicate Valid() {
      && responseId <= 0x7FF && 0 < stampNs <= MAX_UINT64 && |payload| == 8
      && position < 0x1_0000_0000 && velocity < 0x1_0000_0000 && torque < 0x1_0000_0000
      && Finite(position) && Finite(velocity) && Finite(torque) && endpoint == AtEndpoint(payload)
    }
  }

  datatype Packet = Packet(
    side: nat, session: seq<byte>, digest: seq<byte>, sequence: nat, assembledNs: nat, motors: seq<WireMotor>)
  {
    /** What the receiving side demands of every packet. */
    predicate Valid() {
      && side <= 1 && Identity(session, 16) && Identity(digest, 32)
      && 0 < sequence <= MAX_UINT64 && 0 < assembledNs <= MAX_UINT64
      && |motors| == 8 && (forall i :: 0 <= i < 8 ==> motors[i].Valid() && motors[i].stampNs <= assembledNs)
      && forall i, j :: 0 <= i < j < 8 ==> motors[i].responseId != motors[j].responseId
    }
  }

  predicate NonZero(b: seq<byte>) { exists i :: 0 <= i < |b| && b[i] != 0 }

  predicate Identity(b: seq<byte>, size: nat) { |b| == size && NonZero(b) }

  // ----- the layout

  function Flags(m: WireMotor): nat { (if m.canFd then 1 else 0) + (if m.endpoint then 2 else 0) }

  function MotorBytes(m: WireMotor): seq<byte> {
    LittleEndian(m.responseId, 2) + LittleEndian(Flags(m), 1) + LittleEndian(0, 1) + LittleEndian(m.stampNs, 8)
    + m.payload + LittleEndian(m.position, 4) + LittleEndian(m.velocity, 4) + LittleEndian(m.torque, 4)
  }

  function HeaderBytes(p: Packet): seq<byte> {
    MAGIC + LittleEndian(1, 2) + LittleEndian(p.side, 1) + LittleEndian(0, 1) + p.session + p.digest
    + LittleEndian(p.sequence, 8) + LittleEndian(p.assembledNs, 8)
  }

  function MotorsBytes(motors: seq<WireMotor>): seq<byte> {
    if motors == [] then [] else MotorsBytes(motors[..|motors| - 1]) + MotorBytes(motors[|motors| - 1])
  }

  function Serialize(p: Packet): seq<byte> { HeaderBytes(p) + MotorsBytes(p.motors) }

  // ----- the decoder

  function DecodeMotor(b: seq<byte>): WireMotor
    requires |b| == MOTOR_SIZE
  {
    WireMotor(Value(b[0..2]), b[2] % 2 == 1, b[2] / 2 % 2 == 1, Value(b[4..12]), b[12..20],
              Value(b[20..24]), Value(b[24..28]), Value(b[28..32]))
  }

  /** Unknown flag bits and reserved bytes are refused. */
  predicate MotorFormatOk(b: seq<byte>)
    requires |b| == MOTOR_SIZE
  {
    b[2] < 4 && b[3] == 0
  }

  predicate HeaderFormatOk(b: seq<byte>)
    requires |b| == PACKET_SIZE
  {
    b[0..4] == MAGIC && Value(b[4..6]) == 1 && b[6] <= 1 && b[7] == 0
  }

  function Slot(b: seq<byte>, i: nat): (s: seq<byte>)
    requires |b| == PACKET_SIZE && i < 8
    ensures |s| == MOTOR_SIZE
  {
    b[HEADER_SIZE + MOTOR_SIZE * i..HEADER_SIZE + MOTOR_SIZE * i + MOTOR_SIZE]
  }

  function Unpacked(b: seq<byte>): Packet
    requires |b| == PACKET_SIZE
  {
    Packet(b[6], b[8..24], b[24..56], Value(b[56..64]), Value(b[64..72]),
           seq(8, i requires 0 <= i < 8 => DecodeMotor(Slot(b, i))))
  }

  /** `FeedbackTelemetryPacket.decode`. */
  function Decode(b: seq<byte>): Option<Packet> {
    if |b| == PACKET_SIZE && HeaderFormatOk(b) && (forall i :: 0 <= i < 8 ==> MotorFormatOk(Slot(b, i))) && Unpacked(b).Valid()
    then Some(Unpacked(b))
    else None
  }

  // ----- both directions

  lemma MotorLayout(m: WireMotor)
    requires |m.payload| == 8
    ensures var b := MotorBytes(m);
      && |b| == MOTOR_SIZE && b[0..2] == LittleEndian(m.responseId, 2) && b[2..3] == LittleEndian(Flags(m), 1)
      && b[3..4] == LittleEndian(0, 1) && b[4..12] == LittleEndian(m.stampNs, 8) && b[12..20] == m.payload
      && b[20..24] == LittleEndian(m.position, 4) && b[24..28] == LittleEndian(m.velocity, 4)
      && b[28..32] == LittleEndian(m.torque, 4)
  {
    hide LittleEndian;
  }

  /** Decoding the bytes of a motor returns the motor. */
  lemma MotorRoundTrip(m: WireMotor)
    requires m.Valid()
    ensures |MotorBytes(m)| == MOTOR_SIZE && MotorFormatOk(MotorBytes(m)) && DecodeMotor(MotorBytes(m)) == m
  {
    var b := MotorBytes(m);
    MotorLayout(m);
    Widths();
    OneByte(Flags(m));
    OneByte(0);
    ValueOfLittleEndian(m.responseId, 2);
    ValueOfLittleEndian(m.stampNs, 8);
    ValueOfLittleEndian(m.position, 4);
    ValueOfLittleEndian(m.velocity, 4);
    ValueOfLittleEndian(m.torque, 4);
    assert b[2] == b[2..3][0] && b[3] == b[3..4][0];
  }

  lemma MotorSplit(b: seq<byte>)
    requires |b| == MOTOR_SIZE
    ensures b == b[0..2] + [b[2]] + [b[3]] + b[4..12] + b[12..20] + b[20..24] + b[24..28] + b[28..32]
  {}

  /** The bytes of a well-formed motor slot are the bytes of the motor they decode to. */
  lemma MotorBytesRoundTrip(b: seq<byte>)
    requires |b| == MOTOR_SIZE && MotorFormatOk(b)
    ensures MotorBytes(DecodeMotor(b)) == b
  {
    LittleEndianOfValue(b[0..2]);
    LittleEndianOfValue(b[4..12]);
    LittleEndianOfValue(b[20..24]);
    LittleEndianOfValue(b[24..28]);
    LittleEndianOfValue(b[28..32]);
    OneByte(b[2]);
    OneByte(0);
    hide LittleEndian, Value, Power256;
    MotorSplit(b);
    FlagBits(b[2]);
  }

  lemma FlagBits(f: byte)
    requires f < 4
    ensures (if f % 2 == 1 then 1 else 0) + (if f / 2 % 2 == 1 then 2 else 0) == f as nat
  {}

  lemma HeaderLayout(p: Packet)
    requires |p.session| == 16 && |p.digest| == 32
    ensures var b := HeaderBytes(p);
      && |b| == HEADER_SIZE && b[0..4] == MAGIC && b[4..6] == LittleEndian(1, 2) && b[6..7] == LittleEndian(p.side, 1)
      && b[7..8] == LittleEndian(0, 1) && b[8..24] == p.session && b[24..56] == p.digest
      && b[56..64] == LittleEndian(p.sequence, 8) && b[64..72] == LittleEndian(p.assembledNs, 8)
  {
    hide LittleEndian;
  }

  lemma {:induction false} MotorsSize(motors: seq<WireMotor>)
    requires forall k :: 0 <= k < |motors| ==> |motors[k].payload| == 8
    ensures |MotorsBytes(motors)| == MOTOR_SIZE * |motors|
    decreases |motors|
  {
    if motors != [] {
      MotorsSize(motors[..|motors| - 1]);
      MotorLayout(motors[|motors| - 1]);
      hide MotorBytes;
    }
  }

  /** Motor i sits in its own 32 bytes. */
  lemma {:induction false} MotorsLayout(motors: seq<WireMotor>, i: nat)
    requires i < |motors| && forall k :: 0 <= k < |motors| ==> |motors[k].payload| == 8
    ensures |MotorsBytes(motors)| == MOTOR_SIZE * |motors|
    ensures MotorsBytes(motors)[MOTOR_SIZE * i..MOTOR_SIZE * i + MOTOR_SIZE] == MotorBytes(motors[i])
    decreases |motors|
  {
    hide MotorBytes, MotorsBytes;
    var n := |motors| - 1;
    MotorsSize(motors);
    MotorsSize(motors[..n]);
    MotorLayout(motors[n]);
    LastMotor(motors);
    if i < n { MotorsLayout(motors[..n], i); }
    SliceOfJoin(MotorsBytes(motors[..n]), MotorBytes(motors[n]), MOTOR_SIZE * i, MOTOR_SIZE);
  }

  lemma LastMotor(motors: seq<WireMotor>)
    requires motors != []
    ensures MotorsBytes(motors) == MotorsBytes(motors[..|motors| - 1]) + MotorBytes(motors[|motors| - 1])
  {}

  lemma SliceOfJoin(a: seq<byte>, b: seq<byte>, o: nat, n: nat)
    requires |b| == n
    ensures o + n <= |a| ==> (a + b)[o..o + n] == a[o..o + n]
    ensures o == |a| ==> (a + b)[o..o + n] == b
  {}

  lemma SerializeLayout(p: Packet, i: nat)
    requires |p.session| == 16 && |p.digest| == 32 && |p.motors| == 8 && i < 8
    requires forall k :: 0 <= k < 8 ==> |p.motors[k].payload| == 8
    ensures |Serialize(p)| == PACKET_SIZE
    ensures Serialize(p)[..HEADER_SIZE] == HeaderBytes(p) && Serialize(p)[HEADER_SIZE..] == MotorsBytes(p.motors)
    ensures Slot(Serialize(p), i) == MotorBytes(p.motors[i])
  {
    hide HeaderBytes, MotorsBytes, MotorBytes;
    HeaderLayout(p);
    MotorsLayout(p.motors, i);
    var b := Serialize(p);
    assert Slot(b, i) == b[HEADER_SIZE..][MOTOR_SIZE * i..MOTOR_SIZE * i + MOTOR_SIZE];
  }

  /** The header fields read back. */
  lemma HeaderRoundTrip(p: Packet, b: seq<byte>)
    requires p.Valid() && |b| == PACKET_SIZE && b[..HEADER_SIZE] == HeaderBytes(p)
    ensures HeaderFormatOk(b) && b[6] as nat == p.side && b[8..24] == p.session && b[24..56] == p.digest
    ensures Value(b[56..64]) == p.sequence && Value(b[64..72]) == p.assembledNs
  {
    var h := HeaderBytes(p);
    HeaderLayout(p);
    Widths();
    OneByte(p.side);
    OneByte(0);
    ValueOfLittleEndian(1, 2);
    ValueOfLittleEndian(p.sequence, 8);
    ValueOfLittleEndian(p.assembledNs, 8);
    hide LittleEndian, Value, HeaderBytes;
    assert b[0..4] == h[0..4] && b[4..6] == h[4..6] && b[8..24] == h[8..24] && b[24..56] == h[24..56];
    assert b[56..64] == h[56..64] && b[64..72] == h[64..72];
    assert b[6] == h[6..7][0] && b[7] == h[7..8][0];
  }

  /** Every valid packet survives the wire. */
  lemma DecodeOfSerialize(p: Packet)
    requires p.Valid()
    ensures |Serialize(p)| == PACKET_SIZE && Decode(Serialize(p)) == Some(p)
  {
    var b := Serialize(p);
    SerializeLayout(p, 0);
    HeaderRoundTrip(p, b);
    hide Serialize, HeaderBytes, MotorsBytes, HeaderFormatOk;
    forall i | 0 <= i < 8 ensures MotorFormatOk(Slot(b, i)) && DecodeMotor(Slot(b, i)) == p.motors[i] {
      SerializeLayout(p, i);
      MotorRoundTrip(p.motors[i]);
    }
    hide MotorFormatOk, DecodeMotor, Slot;
    assert Unpacked(b).motors == p.motors;
    assert Unpacked(b) == p;
  }

  lemma HeaderBytesRoundTrip(b: seq<byte>)
    requires |b| == PACKET_SIZE && HeaderFormatOk(b)
    ensures HeaderBytes(Unpacked(b)) == b[..HEADER_SIZE]
  {
    LittleEndianOfValue(b[4..6]);
    LittleEndianOfValue(b[56..64]);
    LittleEndianOfValue(b[64..72]);
    OneByte(b[6]);
    OneByte(0);
    hide LittleEndian, Value, Power256;
    HeaderSplit(b);
  }

  lemma HeaderSplit(b: seq<byte>)
    requires |b| == PACKET_SIZE
    ensures b[..HEADER_SIZE] == b[0..4] + b[4..6] + [b[6]] + [b[7]] + b[8..24] + b[24..56] + b[56..64] + b[64..72]
  {}

  lemma {:induction false} SlotsRoundTrip(b: seq<byte>, motors: seq<WireMotor>)
    requires |b| == PACKET_SIZE && |motors| <= 8
    requires forall i :: 0 <= i < |motors| ==> MotorBytes(motors[i]) == Slot(b, i)
    ensures MotorsBytes(motors) == b[HEADER_SIZE..HEADER_SIZE + MOTOR_SIZE * |motors|]
    decreases |motors|
  {
    hide MotorBytes;
    if motors != [] {
      var n := |motors| - 1;
      SlotsRoundTrip(b, motors[..n]);
      assert b[HEADER_SIZE..HEADER_SIZE + MOTOR_SIZE * n] + Slot(b, n) == b[HEADER_SIZE..HEADER_SIZE + MOTOR_SIZE * (n + 1)];
    }
  }

  /** Only the bytes a packet serializes to decode to it: decoding is injective. */
  lemma SerializeOfDecode(b: seq<byte>)
    requires Decode(b).Some?
    ensures Decode(b).value.Valid() && Serialize(Decode(b).value) == b
  {
    hide HeaderBytes, MotorsBytes, MotorBytes, HeaderFormatOk, MotorFormatOk, Slot, DecodeMotor, Value;
    var p := Unpacked(b);
    HeaderBytesRoundTrip(b);
    forall i | 0 <= i < 8 ensures MotorBytes(p.motors[i]) == Slot(b, i) {
      MotorBytesRoundTrip(Slot(b, i));
    }
    SlotsRoundTrip(b, p.motors);
    assert b == b[..HEADER_SIZE] + b[HEADER_SIZE..HEADER_SIZE + MOTOR_SIZE * 8];
  }

  /** The decoder accepts exactly the serializations of valid packets. */
  lemma DecodeIsExact(b: seq<byte>, p: Packet)
    ensures Decode(b) == Some(p) <==> p.Valid() && b == Serialize(p)
  {
    if Decode(b) == Some(p) { SerializeOfDecode(b); }
    if p.Valid() { DecodeOfSerialize(p); }
  }

  // ----- the layout, field by field

  /** Where the fields of one motor lie in its thirty-two bytes. */
  predicate MotorLies(m: WireMotor, b: seq<byte>)
    requires |b| == 32
  {
    && b[0..2] == LittleEndian(m.responseId, 2)
    && b[2] == (if m.canFd then 1 else 0) + (if m.endpoint then 2 else 0) && b[3] == 0
    && b[4..12] == LittleEndian(m.stampNs, 8) && b[12..20] == m.payload
    && b[20..24] == LittleEndian(m.position, 4) && b[24..28] == LittleEndian(m.velocity, 4)
    && b[28..32] == LittleEndian(m.torque, 4)
  }

  /** An accepted packet has 328 bytes: "VL1T", version 1, side, a zero, the session, the digest, the
      sequence and the assembly time, and then its eight motors, all integers little-endian. */
  lemma AcceptedLayout(b: seq<byte>)
    requires Decode(b).Some?
    ensures var p := Decode(b).value;
      && |b| == 328 && |p.motors| == 8
      && b[0..4] == [0x56, 0x4C, 0x31, 0x54] && b[4..6] == [1, 0] && b[6] as nat == p.side && b[7] == 0
      && b[8..24] == p.session && b[24..56] == p.digest
      && b[56..64] == LittleEndian(p.sequence, 8) && b[64..72] == LittleEndian(p.assembledNs, 8)
      && forall i :: 0 <= i < 8 ==> MotorLies(p.motors[i], b[72 + 32 * i..104 + 32 * i])
  {
    hide LittleEndian, Value, MotorLies, MotorFormatOk, DecodeMotor, WireMotor.Valid;
    LittleEndianOfValue(b[4..6]);
    LittleEndianOfValue(b[56..64]);
    LittleEndianOfValue(b[64..72]);
    VersionOne();
    forall i | 0 <= i < 8 ensures MotorLies(Decode(b).value.motors[i], b[72 + 32 * i..104 + 32 * i]) {
      MotorIsLaidOut(Slot(b, i));
    }
  }

  lemma VersionOne()
    ensures LittleEndian(1, 2) == [1, 0]
  {
    OneByte(0);
  }

  lemma MotorIsLaidOut(b: seq<byte>)
    requires |b| == MOTOR_SIZE && MotorFormatOk(b)
    ensures MotorLies(DecodeMotor(b), b)
  {
    LittleEndianOfValue(b[0..2]);
    LittleEndianOfValue(b[4..12]);
    LittleEndianOfValue(b[20..24]);
    LittleEndianOfValue(b[24..28]);
    LittleEndianOfValue(b[28..32]);
    FlagBits(b[2]);
    hide LittleEndian, Value, Power256;
  }

  // ----- what is accepted, byte by byte

  /** A finite float32, low byte first: not all of the eight exponent bits are set. */
  predicate SpellsFinite(b: seq<byte>)
    requires |b| == 4
  {
    b[3] % 0x80 != 0x7F || b[2] < 0x80
  }

  lemma FiniteBySpelling(b: seq<byte>)
    requires |b| == 4
    ensures Finite(Value(b)) <==> SpellsFinite(b)
  {
    BytesSpelled(b);
    ExponentBits((b[0] as nat) + 0x100 * (b[1] as nat), b[2], b[3]);
    hide Value;
  }

  lemma ExponentBits(low: nat, b2: nat, b3: nat)
    requires low < 0x1_0000 && b2 < 0x100 && b3 < 0x100
    ensures Finite(low + 0x1_0000 * b2 + 0x100_0000 * b3) <==> b3 % 0x80 != 0x7F || b2 < 0x80
  {
    hide Finite;
    FiniteByExponent(b3 / 0x80, 2 * (b3 % 0x80) + b2 / 0x80, low + 0x1_0000 * (b2 % 0x80));
    assert low + 0x1_0000 * b2 + 0x100_0000 * b3
      == 0x8000_0000 * (b3 / 0x80) + 0x80_0000 * (2 * (b3 % 0x80) + b2 / 0x80) + (low + 0x1_0000 * (b2 % 0x80));
  }

  /** Thirty-two bytes that may stand for a motor: an eleven-bit identifier, two flags and nothing beside
      them, a reception time, finite values, and the second flag telling whether the payload saturates. */
  predicate MotorAcceptable(b: seq<byte>)
    requires |b| == 32
  {
    && b[1] < 8 && b[2] < 4 && b[3] == 0 && Value(b[4..12]) > 0 && (b[2] >= 2 <==> Saturated(b[12..20]))
    && SpellsFinite(b[20..24]) && SpellsFinite(b[24..28]) && SpellsFinite(b[28..32])
  }

  lemma MotorAcceptableExactly(b: seq<byte>)
    requires |b| == 32
    ensures MotorFormatOk(b) && DecodeMotor(b).Valid() <==> MotorAcceptable(b)
  {
    hide Value, LittleEndian, Power256, AtEndpoint, Saturated, Finite, SpellsFinite;
    BytesSpelled(b[0..2]);
    LittleEndianOfValue(b[4..12]);
    LittleEndianOfValue(b[20..24]);
    LittleEndianOfValue(b[24..28]);
    LittleEndianOfValue(b[28..32]);
    Widths();
    FiniteBySpelling(b[20..24]);
    FiniteBySpelling(b[24..28]);
    FiniteBySpelling(b[28..32]);
    EndpointIsSaturated(b[12..20]);
  }

  /** Bytes of the i-th motor of a packet. */
  function Part(b: seq<byte>, i: nat, from: nat, end: nat): (s: seq<byte>)
    requires |b| == 328 && i < 8 && from <= end <= 32
    ensures |s| == end - from
  {
    b[72 + 32 * i + from..72 + 32 * i + end]
  }

  /** Eight acceptable motors with different identifiers, none received after the assembly. */
  predicate MotorsAcceptable(b: seq<byte>)
    requires |b| == 328
  {
    && (forall i :: 0 <= i < 8 ==> MotorAcceptable(Part(b, i, 0, 32)) && Value(Part(b, i, 4, 12)) <= Value(b[64..72]))
    && forall i, j :: 0 <= i < j < 8 ==> Part(b, i, 0, 2) != Part(b, j, 0, 2)
  }

  lemma MotorsAcceptableExactly(b: seq<byte>)
    requires |b| == 328
    ensures MotorsAcceptable(b) <==>
      var p := Unpacked(b);
      && (forall i :: 0 <= i < 8 ==> MotorFormatOk(Slot(b, i)) && p.motors[i].Valid() && p.motors[i].stampNs <= p.assembledNs)
      && forall i, j :: 0 <= i < j < 8 ==> p.motors[i].responseId != p.motors[j].responseId
  {
    hide Value, MotorAcceptable, MotorFormatOk, DecodeMotor, WireMotor.Valid, Part, Slot;
    var p := Unpacked(b);
    forall i | 0 <= i < 8
      ensures MotorFormatOk(Slot(b, i)) && p.motors[i].Valid() <==> MotorAcceptable(Part(b, i, 0, 32))
      ensures p.motors[i].stampNs == Value(Part(b, i, 4, 12)) && p.motors[i].responseId == Value(Part(b, i, 0, 2))
    {
      MotorAcceptableExactly(Slot(b, i));
      SlotFields(b, i);
    }
    forall i, j | 0 <= i < j < 8 ensures Value(Part(b, i, 0, 2)) == Value(Part(b, j, 0, 2)) <==> Part(b, i, 0, 2) == Part(b, j, 0, 2) {
      SlotFields(b, i);
      SlotFields(b, j);
      LittleEndianOfValue(Part(b, i, 0, 2));
      LittleEndianOfValue(Part(b, j, 0, 2));
    }
  }

  /** Which bytes are accepted: the header as it must be, no all-zero identity, a sequence number and an
      assembly time, and acceptable motors. */
  lemma DecodableExactly(b: seq<byte>)
    ensures Decode(b).Some? <==>
      && |b| == 328 && b[0..4] == [0x56, 0x4C, 0x31, 0x54] && b[4] == 1 && b[5] == 0 && b[6] <= 1 && b[7] == 0
      && (exists k :: 8 <= k < 24 && b[k] != 0) && (exists k :: 24 <= k < 56 && b[k] != 0)
      && Value(b[56..64]) > 0 && Value(b[64..72]) > 0 && MotorsAcceptable(b)
  {
    hide Value, LittleEndian, Power256, MotorsAcceptable, MotorFormatOk, DecodeMotor, WireMotor.Valid, NonZero, Slot;
    if |b| == 328 {
      BytesSpelled(b[4..6]);
      LittleEndianOfValue(b[56..64]);
      LittleEndianOfValue(b[64..72]);
      Widths();
      NonZeroPart(b, 8, 24);
      NonZeroPart(b, 24, 56);
      MotorsAcceptableExactly(b);
    }
  }

  lemma NonZeroPart(b: seq<byte>, from: nat, end: nat)
    requires from <= end <= |b|
    ensures NonZero(b[from..end]) <==> exists k :: from <= k < end && b[k] != 0
  {
    if k :| from <= k < end && b[k] != 0 { assert b[from..end][k - from] != 0; }
  }

  lemma SlotFields(b: seq<byte>, i: nat)
    requires |b| == PACKET_SIZE && i < 8
    ensures Slot(b, i) == Part(b, i, 0, 32)
    ensures DecodeMotor(Slot(b, i)).stampNs == Value(Part(b, i, 4, 12))
    ensures DecodeMotor(Slot(b, i)).responseId == Value(Part(b, i, 0, 2))
  {
    hide Value;
    SliceOfSlice(b, 72 + 32 * i, 4, 12);
    SliceOfSlice(b, 72 + 32 * i, 0, 2);
  }

  lemma SliceOfSlice(b: seq<byte>, o: nat, from: nat, end: nat)
    requires from <= end <= 32 && o + 32 <= |b|
    ensures b[o..o + 32][from..end] == b[o + from..o + end]
  {
    var s, t := b[o..o + 32][from..end], b[o + from..o + end];
    assert |s| == |t| && forall k :: 0 <= k < |s| ==> s[k] == t[k];
  }
}
