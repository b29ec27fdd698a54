/** What the bytes of one feedback frame measure, in plain arithmetic. */
module Measurement {
  import opened Common
  import opened MotorFeedback

  /** The value is the motor's own scale of this many-bit field of the payload beside it. Position is the
      16 bits of bytes 1 and 2; velocity the 12 bits of byte 3 and the high half of byte 4; torque the 12
      bits of the low half of byte 4 and byte 5. */
  predicate Measures(spec: FeedbackSpec, payload: seq<byte>, position: nat, velocity: nat, torque: nat)
    requires |payload| == 8
  {
    && position == spec.position(0x100 * (payload[1] as nat) + (payload[2] as nat))
    && velocity == spec.velocity((0x1000 * (payload[3] as nat) + 0x10 * (payload[4] as nat)) / 0x100)
    && torque == spec.torque((0x100 * (payload[4] as nat) + (payload[5] as nat)) % 0x1000)
  }

  /** One of the three fields is all zeros or all ones. */
  predicate Saturated(payload: seq<byte>)
    requires |payload| == 8
  {
    || (payload[1] == 0 && payload[2] == 0) || (payload[1] == 0xFF && payload[2] == 0xFF)
    || (payload[3] == 0 && payload[4] < 0x10) || (payload[3] == 0xFF && payload[4] >= 0xF0)
    || (payload[4] % 0x10 == 0 && payload[5] == 0) || (payload[4] % 0x10 == 0xF && payload[5] == 0xFF)
  }

  lemma DecodedMeasures(spec: FeedbackSpec, f: Frame)
    requires DecodeFeedback(spec, f).Some?
    ensures var m := DecodeFeedback(spec, f).value;
      && m.raw == f && Measures(spec, f.payload, m.position, m.velocity, m.torque)
      && m.status == (f.payload[0] as nat) / 0x10 && m.mosTemperature == f.payload[6] && m.rotorTemperature == f.payload[7]
      && (m.endpoint <==> Saturated(f.payload))
    ensures f.canId == spec.responseId && f.payloadSize == 8 && f.payload[0] % 0x10 == spec.slaveId && f.stampNs > 0
  {
    var b := f.payload;
    assert VelocityField(b) == (0x1000 * (b[3] as nat) + 0x10 * (b[4] as nat)) / 0x100;
    assert TorqueField(b) == (0x100 * (b[4] as nat) + (b[5] as nat)) % 0x1000;
    EndpointIsSaturated(b);
    hide AtEndpoint, Saturated;
  }

  lemma EndpointIsSaturated(b: Bytes8)
    ensures AtEndpoint(b) <==> Saturated(b)
  {
    assert PositionField(b) == 0 <==> b[1] == 0 && b[2] == 0;
    assert PositionField(b) == 0xFFFF <==> b[1] == 0xFF && b[2] == 0xFF;
    assert VelocityField(b) == 0 <==> b[3] == 0 && b[4] < 0x10;
    assert VelocityField(b) == 0xFFF <==> b[3] == 0xFF && b[4] >= 0xF0;
    assert TorqueField(b) == 0 <==> b[4] % 0x10 == 0 && b[5] == 0;
    assert TorqueField(b) == 0xFFF <==> b[4] % 0x10 == 0xF && b[5] == 0xFF;
  }

  // ----- float32 by its bits

  /** Not a number: the highest exponent and a fraction. */
  predicate IsNaN(bits: nat) { bits % 0x8000_0000 > 0x7F80_0000 }

  predicate IsZero(bits: nat) { bits == 0 || bits == 0x8000_0000 }

  /** Equal as numbers: no NaN equals anything, and the two zeros are equal. */
  lemma SameFloatExactly(a: bits32, b: bits32)
    ensures SameFloat(a, b) <==> !IsNaN(a) && !IsNaN(b) && (a == b || (IsZero(a) && IsZero(b)))
  {
    var exponent, fraction := a / 0x80_0000 % 256, a % 0x80_0000;
    assert a % 0x8000_0000 == 0x80_0000 * exponent + fraction;
  }

  // ----- specifications

  /** Eight motors in their order, each with an 11-bit identifier and a slave nibble of its own. */
  predicate ProperSpecs(specs: seq<FeedbackSpec>)
  {
    && |specs| == 8
    && (forall i :: 0 <= i < 8 ==>
          specs[i].name == ["joint_1", "joint_2", "joint_3", "joint_4", "joint_5", "joint_6", "joint_7", "gripper"][i])
    && (forall i :: 0 <= i < 8 ==> specs[i].responseId < 0x800 && 0 < specs[i].slaveId < 0x10)
    && (forall i, j :: 0 <= i < 8 && 0 <= j < 8 && specs[i].responseId == specs[j].responseId ==> i == j)
    && (forall i, j :: 0 <= i < 8 && 0 <= j < 8 && specs[i].slaveId == specs[j].slaveId ==> i == j)
  }

  lemma SpecsExactly(specs: seq<FeedbackSpec>)
    ensures ValidSpecs(specs) <==> ProperSpecs(specs)
  {
    if ProperSpecs(specs) {
      forall i | 0 <= i < 8 ensures specs[i].Valid() && specs[i].name == MOTOR_NAMES[i] {
        assert MOTOR_NAMES[i] in MOTOR_NAMES;
      }
      forall i, j | 0 <= i < j < 8 ensures specs[i].responseId != specs[j].responseId && specs[i].slaveId != specs[j].slaveId {}
    }
  }
}
