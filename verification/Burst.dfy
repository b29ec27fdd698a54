/** What the CRC detects: a change confined to sixteen consecutive bits of a checked frame, wherever they
    lie. A message is one number, low byte first, that is shifted through the register; a burst is a
    small number moved up by some places, and shifting it through does not make it vanish. */
module Burst {
  import opened Common
  import opened Bytes
  import opened Crc

  // ----- a message as one number

  lemma {:induction false} ShiftsCompose(c: nat, m: nat, n: nat)
    ensures Shifts(Shifts(c, m), n) == Shifts(c, m + n)
    decreases n
  {
    hide Shift;
    if n > 0 { ShiftsCompose(c, m, n - 1); }
  }

  /** Absorbing a message is XORing it, as one number, into the register and shifting it through. */
  lemma {:induction false} AbsorbIsShifts(c: nat, data: seq<byte>)
    ensures Absorb(c, data) == Shifts(Xor(c, Value(data)), 8 * |data|)
    decreases |data|
  {
    hide Xor, Shift, Shifts;
    if data == [] {
      XorZero(c);
      NoShifts(c);
    } else {
      var b, rest := data[0], data[1..];
      assert data == [b] + rest;
      AbsorbSplit(c, [b], rest);
      AbsorbOne(c, b);
      AbsorbIsShifts(Update(c, b), rest);
      OneByteMore(c, b, Value(rest));
      ShiftsCompose(Xor(c, Value(data)), 8, 8 * |rest|);
    }
  }

  lemma NoShifts(c: nat)
    ensures Shifts(c, 0) == c
  {}

  lemma AbsorbOne(c: nat, b: byte)
    ensures Absorb(c, [b]) == Update(c, b)
  {
    assert [b][..0] == [];
  }

  lemma OneByteMore(c: nat, b: byte, rest: nat)
    ensures Xor(Update(c, b), rest) == Shifts(Xor(c, (b as nat) + 256 * rest), 8)
  {
    hide Xor, Shift, Shifts;
    Sixteen();
    XorDisjoint(b, rest, 8);
    XorAssociates(c, b, 256 * rest);
    ShiftsLinear(Xor(c, b), 256 * rest, 8);
    ShiftsOfHighBits(rest, 8);
  }

  /** The residues of two messages of one length differ by their difference, shifted through. */
  lemma ResidueDifference(a: seq<byte>, b: seq<byte>)
    requires |a| == |b|
    ensures Xor(Checksum(a), Checksum(b)) == Shifts(Xor(Value(a), Value(b)), 8 * |a|)
  {
    hide Xor, Shifts;
    AbsorbIsShifts(0xFFFF, a);
    AbsorbIsShifts(0xFFFF, b);
    ShiftsLinear(Xor(0xFFFF, Value(a)), Xor(0xFFFF, Value(b)), 8 * |a|);
    XorInterchange(0xFFFF, 0xFFFF, Value(a), Value(b));
    XorEqualsZero(0xFFFF, 0xFFFF);
    XorCommutes(0, Xor(Value(a), Value(b)));
    XorZero(Xor(Value(a), Value(b)));
  }

  // ----- bits

  function BitOf(x: nat, k: nat): nat {
    if k == 0 then x % 2 else BitOf(x / 2, k - 1)
  }

  /** Bit k of a message in the order of transmission, each byte from its low end. */
  function Bit(data: seq<byte>, k: nat): nat
    requires k < 8 * |data|
  {
    BitOf(data[k / 8], k % 8)
  }

  lemma {:induction false} BitOfXor(a: nat, b: nat, k: nat)
    ensures BitOf(Xor(a, b), k) == 0 <==> BitOf(a, k) == BitOf(b, k)
    decreases k
  {
    XorHalf(a, b);
    hide Xor;
    if k > 0 { BitOfXor(a / 2, b / 2, k - 1); }
  }

  /** The low n bits of a number are those of what is left when the rest is cut off. */
  lemma {:induction false} BitOfSum(lo: nat, hi: nat, n: nat, k: nat)
    requires lo < Power2(n)
    ensures BitOf(lo + Power2(n) * hi, k) == if k < n then BitOf(lo, k) else BitOf(hi, k - n)
    decreases n
  {
    if n == 0 {
      assert Power2(0) * hi == hi;
    } else {
      DoublePower(n, hi);
      HalfOfSum(lo, Power2(n - 1) * hi);
      if k > 0 { BitOfSum(lo / 2, hi, n - 1, k - 1); }
    }
  }

  lemma HalfOfSum(lo: nat, high: nat)
    ensures (lo + 2 * high) % 2 == lo % 2 && (lo + 2 * high) / 2 == lo / 2 + high
  {}

  lemma {:induction false} ValueBit(data: seq<byte>, k: nat)
    ensures BitOf(Value(data), k) == if k < 8 * |data| then Bit(data, k) else 0
    decreases |data|
  {
    hide Power2, BitOf;
    if data == [] {
      ZeroBits(k);
    } else {
      Sixteen();
      BitOfSum(data[0], Value(data[1..]), 8, k);
      if k >= 8 {
        ValueBit(data[1..], k - 8);
        assert (k - 8) / 8 == k / 8 - 1 && (k - 8) % 8 == k % 8;
      } else {
        assert k / 8 == 0 && k % 8 == k;
      }
    }
  }

  lemma {:induction false} ZeroBits(k: nat)
    ensures BitOf(0, k) == 0
  {
    if k > 0 { ZeroBits(k - 1); }
  }

  ghost predicate ZeroFrom(x: nat, n: nat) { forall k: nat :: n <= k ==> BitOf(x, k) == 0 }

  ghost predicate ZeroBelow(x: nat, n: nat) { forall k: nat :: k < n ==> BitOf(x, k) == 0 }

  /** A number without bits from n on is below 2^n. */
  lemma {:induction false} FewBits(x: nat, n: nat)
    requires ZeroFrom(x, n)
    ensures x < Power2(n)
    decreases n, x
  {
    if x == 0 {
      PowerPositive(n);
    } else {
      HalfZeroFrom(x, n);
      if n == 0 {
        assert BitOf(x, 0) == 0;
        FewBits(x / 2, 0);
      } else {
        FewBits(x / 2, n - 1);
      }
    }
  }

  lemma {:induction false} PowerPositive(n: nat)
    ensures Power2(n) >= 1
  {
    if n > 0 { PowerPositive(n - 1); }
  }

  lemma HalfZeroFrom(x: nat, n: nat)
    requires ZeroFrom(x, n)
    ensures ZeroFrom(x / 2, if n == 0 then 0 else n - 1)
  {
    forall k: nat | n <= k + 1 ensures BitOf(x / 2, k) == 0 {
      assert BitOf(x, k + 1) == 0;
    }
  }

  /** A number whose bits all lie in n consecutive places from o is a small one moved up by o. */
  lemma {:induction false} BitsInPlace(x: nat, o: nat, n: nat) returns (d: nat)
    requires ZeroBelow(x, o) && ZeroFrom(x, o + n)
    ensures d < Power2(n) && x == Power2(o) * d
    decreases o
  {
    if o == 0 {
      d := x;
      FewBits(x, n);
      PowerZero(d);
    } else {
      HalfZeroFrom(x, o + n);
      HalfZeroBelow(x, o);
      d := BitsInPlace(x / 2, o - 1, n);
      DoublePower(o, d);
    }
  }

  lemma HalfZeroBelow(x: nat, n: nat)
    requires ZeroBelow(x, n) && n > 0
    ensures ZeroBelow(x / 2, n - 1) && x % 2 == 0
  {
    assert BitOf(x, 0) == 0;
    forall k: nat | k < n - 1 ensures BitOf(x / 2, k) == 0 {
      assert BitOf(x, k + 1) == 0;
    }
  }

  // ----- bursts

  /** The two messages differ at most in the sixteen bits from bit o on. */
  ghost predicate WithinBurst(a: seq<byte>, b: seq<byte>, o: nat) {
    |a| == |b| && forall k: nat :: k < 8 * |a| && (k < o || k >= o + 16) ==> Bit(a, k) == Bit(b, k)
  }

  lemma BurstInPlace(a: seq<byte>, b: seq<byte>, o: nat) returns (d: nat)
    requires WithinBurst(a, b, o)
    ensures d < 0x10000 && Xor(Value(a), Value(b)) == Power2(o) * d
  {
    hide Xor, Value, BitOf, Bit;
    var x := Xor(Value(a), Value(b));
    forall k: nat | k < o || k >= o + 16 ensures BitOf(x, k) == 0 {
      BitOfXor(Value(a), Value(b), k);
      ValueBit(a, k);
      ValueBit(b, k);
    }
    Sixteen();
    d := BitsInPlace(x, o, 16);
  }

  /** A difference of sixteen consecutive bits is not shifted away. */
  lemma BurstPersists(d: nat, o: nat, n: nat)
    requires d < 0x10000 && o <= n
    ensures Shifts(Power2(o) * d, n) == 0 <==> d == 0
  {
    hide Shifts, Power2;
    ShiftsOfHighBits(d, o);
    ShiftsCompose(Power2(o) * d, o, n - o);
    ShiftsInjective(d, n - o);
  }

  lemma ValueSeparates(a: seq<byte>, b: seq<byte>)
    requires |a| == |b|
    ensures Value(a) == Value(b) <==> a == b
  {
    if |a| > 0 {
      ValueSeparates(a[1..], b[1..]);
      assert a == [a[0]] + a[1..] && b == [b[0]] + b[1..];
    }
  }

  /** Any corruption confined to sixteen consecutive bits of a checked frame, at any bit, across up to
      three bytes and the CRC field included, is caught. */
  lemma BurstDetected(frame: seq<byte>, corrupt: seq<byte>, o: nat)
    requires |frame| >= 2 && WithinBurst(frame, corrupt, o) && Checked(frame)
    ensures Checked(corrupt) <==> corrupt == frame
  {
    hide Xor, Shifts, Value, Absorb, WithinBurst, Power2;
    SameLength(frame, corrupt, o);
    CheckedIffResidueZero(frame);
    CheckedIffResidueZero(corrupt);
    hide Checked, Checksum;
    ResidueDifference(frame, corrupt);
    XorEqualsZero(Checksum(frame), Checksum(corrupt));
    XorEqualsZero(Value(frame), Value(corrupt));
    ValueSeparates(frame, corrupt);
    var start := if o <= 8 * |frame| then o else 8 * |frame|;
    var d := BurstInPlace(frame, corrupt, start);
    BurstPersists(d, start, 8 * |frame|);
    PowerZeroOnly(start, d);
  }

  lemma SameLength(a: seq<byte>, b: seq<byte>, o: nat)
    requires WithinBurst(a, b, o)
    ensures |a| == |b| && (o > 8 * |a| ==> WithinBurst(a, b, 8 * |a|))
  {}

  lemma {:induction false} PowerZeroOnly(o: nat, d: nat)
    ensures Power2(o) * d == 0 <==> d == 0
  {
    if o > 0 {
      DoublePower(o, d);
      PowerZeroOnly(o - 1, d);
    }
  }

  /** Any corruption confined to bytes i and i+1 of a checked frame, its CRC bytes
      included, is caught. */
  lemma TwoByteBurstDetected(frame: seq<byte>, corrupt: seq<byte>, i: nat)
    requires |frame| == |corrupt| && i + 2 <= |frame|
    requires forall k :: 0 <= k < |frame| && k != i && k != i + 1 ==> corrupt[k] == frame[k]
    requires Checked(frame)
    ensures Checked(corrupt) <==> corrupt == frame
  {
    forall k: nat | k < 8 * |frame| && (k < 8 * i || k >= 8 * i + 16) ensures Bit(frame, k) == Bit(corrupt, k) {
      assert k / 8 != i && k / 8 != i + 1;
    }
    hide Checked, Bit;
    BurstDetected(frame, corrupt, 8 * i);
  }
}
