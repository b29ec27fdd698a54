/** CRC16/MODBUS as the HKVL serial decoder computes it (MODBUS over Serial Line
    Specification and Implementation Guide V1.02, section 6.2.2): its algebra, and that
    a message followed by its own CRC has residue zero.
    Registers are non-negative integers, as in Python: `>> 1` is `/ 2`, `& 1` is `% 2`. */
module Crc {
  import opened Common

  const POLYNOMIAL := 0xA001

  /** Exclusive or of two non-negative integers, bit by bit from the low end. */
  function Xor(a: nat, b: nat): nat
    decreases a + b
  {
    if a == 0 && b == 0 then 0
    else (if a % 2 == b % 2 then 0 else 1) + 2 * Xor(a / 2, b / 2)
  }

  /** What the shift mixes in when the outgoing bit is set. */
  function Feedback(c: nat): nat { if c % 2 == 1 then POLYNOMIAL else 0 }

  /** One right shift of the register with the reflected polynomial. */
  function Shift(c: nat): nat {
    Xor(c / 2, Feedback(c))
  }

  function Shifts(c: nat, n: nat): nat {
    if n == 0 then c else Shift(Shifts(c, n - 1))
  }

  /** The register after absorbing one byte. */
  function Update(c: nat, b: byte): nat {
    Shifts(Xor(c, b), 8)
  }

  /** The register after absorbing `data`, starting from `init`. */
  function Absorb(init: nat, data: seq<byte>): nat {
    if data == [] then init
    else Update(Absorb(init, data[..|data| - 1]), data[|data| - 1])
  }

  function Checksum(data: seq<byte>): nat {
    Absorb(0xFFFF, data)
  }

  /** Two bytes as a little-endian word. */
  function Word(lo: byte, hi: byte): nat { (lo as nat) + 256 * (hi as nat) }

  /** A frame of at least two bytes ends in the CRC of what precedes it, low byte first. */
  predicate Checked(frame: seq<byte>)
    requires |frame| >= 2
  {
    var n := |frame|;
    Checksum(frame[..n - 2]) == Word(frame[n - 2], frame[n - 1])
  }

  /** The nested loops of `crc16_modbus`. */
  method Crc16Modbus(data: seq<byte>) returns (crc: nat)
    ensures crc == Checksum(data)
  {
    crc := 0xFFFF;
    for i := 0 to |data|
      invariant crc == Absorb(0xFFFF, data[..i])
    {
      assert data[..i + 1][..i] == data[..i];
      crc := Xor(crc, data[i]);
      ghost var mixed := crc;
      for k := 0 to 8
        invariant crc == Shifts(mixed, k)
      {
        crc := Xor(crc / 2, if crc % 2 == 1 then POLYNOMIAL else 0);
      }
    }
    assert data[..|data|] == data;
  }

  // ----- exclusive or

  lemma {:induction false} XorCommutes(a: nat, b: nat)
    ensures Xor(a, b) == Xor(b, a)
    decreases a + b
  {
    if a + b > 0 { XorCommutes(a / 2, b / 2); }
  }

  lemma {:induction false} XorZero(a: nat)
    ensures Xor(a, 0) == a
  {
    if a > 0 { XorZero(a / 2); }
  }

  lemma {:induction false} XorEqualsZero(a: nat, b: nat)
    ensures Xor(a, b) == 0 <==> a == b
    decreases a + b
  {
    if a + b > 0 { XorEqualsZero(a / 2, b / 2); }
  }

  lemma {:induction false} XorAssociates(a: nat, b: nat, c: nat)
    ensures Xor(Xor(a, b), c) == Xor(a, Xor(b, c))
    decreases a + b + c
  {
    if a + b + c > 0 {
      XorHalf(a, b);
      XorHalf(b, c);
      XorAssociates(a / 2, b / 2, c / 2);
    }
  }

  lemma XorHalf(a: nat, b: nat)
    ensures Xor(a, b) / 2 == Xor(a / 2, b / 2)
    ensures Xor(a, b) % 2 == if a % 2 == b % 2 then 0 else 1
  {}

  lemma {:induction false} XorBounded(a: nat, b: nat, bits: nat)
    requires a < Power2(bits) && b < Power2(bits)
    ensures Xor(a, b) < Power2(bits)
    decreases bits
  {
    if bits > 0 {
      XorBounded(a / 2, b / 2, bits - 1);
      if a + b > 0 { XorHalf(a, b); }
    }
  }

  lemma Sixteen()
    ensures Power2(8) == 256 && Power2(16) == 0x10000
  {
    assert Power2(4) == 16 && Power2(8) == 256 && Power2(12) == 4096;
  }

  function Power2(n: nat): nat { if n == 0 then 1 else 2 * Power2(n - 1) }

  /** `(a ^ p) ^ (b ^ q) == (a ^ b) ^ (p ^ q)` */
  lemma XorInterchange(a: nat, b: nat, p: nat, q: nat)
    ensures Xor(Xor(a, p), Xor(b, q)) == Xor(Xor(a, b), Xor(p, q))
  {
    XorAssociates(a, p, Xor(b, q));
    XorAssociates(p, b, q);
    XorCommutes(p, b);
    XorAssociates(b, p, q);
    XorAssociates(a, b, Xor(p, q));
  }

  /** A byte shifted clear of another byte does not interact with it. */
  lemma XorHighByte(lo: byte, hi: byte)
    ensures Xor(lo, 256 * (hi as nat)) == Word(lo, hi)
  {
    XorDisjoint(lo, hi, 8);
  }

  lemma {:induction false} XorDisjoint(lo: nat, hi: nat, bits: nat)
    requires lo < Power2(bits)
    ensures Xor(lo, Power2(bits) * hi) == lo + Power2(bits) * hi
  {
    if bits == 0 {
      XorCommutes(0, hi);
      XorZero(hi);
    } else {
      hide Xor;
      XorDisjoint(lo / 2, hi, bits - 1);
      DoublePower(bits, hi);
      hide Power2;
      XorDoubled(lo, Power2(bits - 1) * hi);
    }
  }

  lemma DoublePower(bits: nat, hi: nat)
    requires bits > 0
    ensures Power2(bits) * hi == 2 * (Power2(bits - 1) * hi)
  {
    assert Power2(bits) == 2 * Power2(bits - 1);
    hide Power2;
  }

  lemma XorDoubled(lo: nat, high: nat)
    requires Xor(lo / 2, high) == lo / 2 + high
    ensures Xor(lo, 2 * high) == lo + 2 * high
  {
    XorHalf(lo, 2 * high);
    assert 2 * high / 2 == high && 2 * high % 2 == 0;
    hide Xor;
  }

  // ----- the shift step is linear over XOR and injective on 16-bit registers

  lemma FeedbackLinear(a: nat, b: nat)
    ensures Feedback(Xor(a, b)) == Xor(Feedback(a), Feedback(b))
  {
    if a + b > 0 { XorHalf(a, b); }
    XorEqualsZero(POLYNOMIAL, POLYNOMIAL);
    XorZero(POLYNOMIAL);
    XorCommutes(0, POLYNOMIAL);
  }

  lemma ShiftLinear(a: nat, b: nat)
    ensures Shift(Xor(a, b)) == Xor(Shift(a), Shift(b))
  {
    XorHalf(a, b);
    FeedbackLinear(a, b);
    XorInterchange(a / 2, b / 2, Feedback(a), Feedback(b));
  }

  lemma ShiftInjective(a: nat)
    requires a < 0x10000
    ensures Shift(a) == 0 <==> a == 0
  {
    XorEqualsZero(a / 2, Feedback(a));
  }

  lemma ShiftBounded(a: nat)
    requires a < 0x10000
    ensures Shift(a) < 0x10000
  {
    Sixteen();
    XorBounded(a / 2, Feedback(a), 16);
  }

  lemma {:induction false} ShiftsLinear(a: nat, b: nat, n: nat)
    ensures Shifts(Xor(a, b), n) == Xor(Shifts(a, n), Shifts(b, n))
  {
    if n > 0 {
      ShiftsLinear(a, b, n - 1);
      ShiftLinear(Shifts(a, n - 1), Shifts(b, n - 1));
    }
  }

  lemma {:induction false} ShiftsInjective(a: nat, n: nat)
    requires a < 0x10000
    ensures Shifts(a, n) < 0x10000
    ensures Shifts(a, n) == 0 <==> a == 0
  {
    if n > 0 {
      ShiftsInjective(a, n - 1);
      ShiftInjective(Shifts(a, n - 1));
      ShiftBounded(Shifts(a, n - 1));
    }
  }

  lemma ShiftsDistinct(p: nat, q: nat, n: nat)
    requires p < 0x10000 && q < 0x10000
    ensures Shifts(p, n) == Shifts(q, n) <==> p == q
  {
    RegisterXor(p, q);
    ShiftsLinear(p, q, n);
    ShiftsInjective(Xor(p, q), n);
    XorEqualsZero(p, q);
    XorEqualsZero(Shifts(p, n), Shifts(q, n));
  }

  lemma RegisterXor(p: nat, q: nat)
    requires p < 0x10000 && q < 0x10000
    ensures Xor(p, q) < 0x10000
  {
    Sixteen();
    XorBounded(p, q, 16);
  }

  /** Shifting a register whose low bits are clear only moves the high bits down. */
  lemma {:induction false} ShiftsOfHighBits(b: nat, n: nat)
    ensures Shifts(Power2(n) * b, n) == b
    decreases n
  {
    hide Power2, Shift;
    if n > 0 {
      PowerMoves(n, b);
      ShiftsOfHighBits(2 * b, n - 1);
      ShiftEven(b);
    } else {
      PowerZero(b);
    }
  }

  lemma PowerZero(b: nat)
    ensures Power2(0) * b == b
  {}

  lemma PowerMoves(n: nat, b: nat)
    requires n > 0
    ensures Power2(n) * b == Power2(n - 1) * (2 * b)
  {
    assert Power2(n) == 2 * Power2(n - 1);
    hide Power2;
  }

  lemma ShiftEven(b: nat)
    ensures Shift(2 * b) == b
  {
    XorZero(b);
    assert 2 * b / 2 == b && 2 * b % 2 == 0;
  }

  // ----- two bytes at a time

  /** Absorbing two bytes is sixteen shifts of the register XORed with them as one word. */
  lemma TwoBytesAreOneWord(c: nat, lo: byte, hi: byte)
    ensures Update(Update(c, lo), hi) == Shifts(Shifts(Xor(c, Word(lo, hi)), 8), 8)
  {
    XorHighByte(lo, hi);
    XorAssociates(c, lo, 256 * (hi as nat));
    ShiftsLinear(Xor(c, lo), 256 * (hi as nat), 8);
    assert Power2(8) == 256;
    ShiftsOfHighBits(hi, 8);
  }

  /** Two byte pairs absorbed by one 16-bit register lead to the same register only if
      they are the same pair. */
  lemma PairSeparates(c: nat, x: byte, y: byte, x': byte, y': byte)
    requires c < 0x10000
    ensures Update(Update(c, x), y) == Update(Update(c, x'), y') <==> x == x' && y == y'
  {
    var w, w' := Word(x, y), Word(x', y');
    TwoBytesAreOneWord(c, x, y);
    TwoBytesAreOneWord(c, x', y');
    RegisterXor(c, w);
    RegisterXor(c, w');
    ShiftsInjective(Xor(c, w), 8);
    ShiftsInjective(Xor(c, w'), 8);
    ShiftsDistinct(Shifts(Xor(c, w), 8), Shifts(Xor(c, w'), 8), 8);
    ShiftsDistinct(Xor(c, w), Xor(c, w'), 8);
    XorCancels(c, w, w');
  }

  lemma XorCancels(c: nat, w: nat, w': nat)
    ensures Xor(c, w) == Xor(c, w') <==> w == w'
  {
    XorInterchange(c, c, w, w');
    XorEqualsZero(c, c);
    XorCommutes(0, Xor(w, w'));
    XorZero(Xor(w, w'));
    XorEqualsZero(w, w');
    XorEqualsZero(Xor(c, w), Xor(c, w'));
  }

  /** Absorbing two bytes clears the register exactly when they spell its own value. */
  lemma TwoByteResidue(c: nat, lo: byte, hi: byte)
    requires c < 0x10000
    ensures Update(Update(c, lo), hi) == 0 <==> c == Word(lo, hi)
  {
    var w := Word(lo, hi);
    TwoBytesAreOneWord(c, lo, hi);
    RegisterXor(c, w);
    ShiftsInjective(Xor(c, w), 8);
    ShiftsInjective(Shifts(Xor(c, w), 8), 8);
    XorEqualsZero(c, w);
  }

  // ----- whole messages

  lemma {:induction false} AbsorbBounded(init: nat, data: seq<byte>)
    requires init < 0x10000
    ensures Absorb(init, data) < 0x10000
  {
    if data != [] {
      var front := Absorb(init, data[..|data| - 1]);
      AbsorbBounded(init, data[..|data| - 1]);
      RegisterXor(front, data[|data| - 1]);
      ShiftsInjective(Xor(front, data[|data| - 1]), 8);
    }
  }

  lemma {:induction false} AbsorbSplit(init: nat, a: seq<byte>, b: seq<byte>)
    ensures Absorb(init, a + b) == Absorb(Absorb(init, a), b)
    decreases |b|
  {
    if b == [] {
      assert a + b == a;
    } else {
      assert (a + b)[..|a + b| - 1] == a + b[..|b| - 1];
      AbsorbSplit(init, a, b[..|b| - 1]);
    }
  }

  lemma AbsorbTwo(c: nat, x: byte, y: byte)
    ensures Absorb(c, [x, y]) == Update(Update(c, x), y)
  {
    assert [x, y][..1] == [x];
    assert [x][..0] == [];
    assert Absorb(c, [x]) == Update(c, x);
  }

  lemma CheckedIffResidueZero(frame: seq<byte>)
    requires |frame| >= 2
    ensures Checked(frame) <==> Checksum(frame) == 0
  {
    var n := |frame|;
    var body := frame[..n - 2];
    assert frame == body + [frame[n - 2], frame[n - 1]];
    AbsorbTwo(Checksum(body), frame[n - 2], frame[n - 1]);
    AbsorbSplit(0xFFFF, body, [frame[n - 2], frame[n - 1]]);
    AbsorbBounded(0xFFFF, body);
    TwoByteResidue(Checksum(body), frame[n - 2], frame[n - 1]);
  }

  /** The CRC fits two bytes; appending it, low byte first, leaves residue zero, and
      appending any other two bytes does not. */
  lemma AppendedCrcHasZeroResidue(message: seq<byte>, lo: byte, hi: byte)
    ensures Checksum(message) < 0x10000
    ensures Checksum(message + [lo, hi]) == 0
       <==> lo == Checksum(message) % 256 && hi == Checksum(message) / 256
  {
    hide Absorb, Xor;
    var frame := message + [lo, hi];
    AbsorbBounded(0xFFFF, message);
    CheckedIffResidueZero(frame);
    assert frame[..|frame| - 2] == message;
    hide Checksum;
  }
}
