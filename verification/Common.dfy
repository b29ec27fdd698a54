/** Result types and the fixed-width vectors shared by the model. */
module Common {

  datatype Option<+T> = None | Some(value: T)

  datatype Result<+T, +E> = Ok(value: T) | Err(error: E)

  /** One value per motor: seven arm joints in order, then the gripper. */
  type Vec8 = v: seq<real> | |v| == 8 witness [0.0, 0.0, 0.0, 0.0, 0.0, 0.0, 0.0, 0.0]

  type byte = x: nat | x < 256

  /** The width of the C++ counters and clocks. */
  const MAX_UINT64: nat := 0xFFFF_FFFF_FFFF_FFFF

  type u64 = x: nat | x <= MAX_UINT64

  /** A float32 as its bit pattern. */
  type bits32 = x: nat | x < 0x1_0000_0000

  /** A float32 is finite unless all its exponent bits are set. */
  predicate Finite(bits: nat) { (bits / 0x80_0000) % 256 != 255 }

  /** In terms of the three fields of a float32: exactly the highest exponent is not finite. */
  lemma FiniteByExponent(sign: nat, exponent: nat, fraction: nat)
    requires sign <= 1 && exponent <= 255 && fraction < 0x80_0000
    ensures Finite(0x8000_0000 * sign + 0x80_0000 * exponent + fraction) <==> exponent < 255
  {
    assert (0x8000_0000 * sign + 0x80_0000 * exponent + fraction) / 0x80_0000 == 256 * sign + exponent;
  }

  function Abs(x: real): real { if x < 0.0 then -x else x }
}
