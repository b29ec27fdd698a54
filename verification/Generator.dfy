/** Which CRC the checksum is: polynomial division by the generator of CRC16/MODBUS (MODBUS over Serial
    Line Specification and Implementation Guide V1.02, section 6.2.2), and its start value. */
module Generator {
  import opened Common
  import opened Bytes
  import opened Crc
  import opened Burst

  // Polynomials over the bits are numbers whose bit k is the k-th bit transmitted, which is the
  // coefficient of the k-th highest power: both the message and the generator begin with bit 0.

  /** x^16 + x^15 + x^2 + 1: the powers 16, 15, 2 and 0 at the places 0, 1, 14 and 16. */
  const GENERATOR := 0x1 + 0x2 + 0x4000 + 0x1_0000

  /** The product without carries. */
  function Product(q: nat, g: nat): nat {
    if q == 0 then 0 else Xor(if q % 2 == 1 then g else 0, 2 * Product(q / 2, g))
  }

  ghost predicate IsMultiple(x: nat) { exists q: nat :: Product(q, GENERATOR) == x }

  // ----- one shift is one step of the division

  /** Shifting once subtracts the generator if the first coefficient is there, and drops that place. */
  lemma ShiftDivides(c: nat)
    ensures 2 * Shift(c) == Xor(c, if c % 2 == 1 then GENERATOR else 0)
  {
    if c % 2 == 1 {
      XorHalf(c, GENERATOR);
    } else {
      XorZero(c);
      XorZero(c / 2);
    }
  }

  lemma XorUndone(g: nat, x: nat)
    ensures Xor(g, Xor(g, x)) == x
  {
    XorAssociates(g, g, x);
    XorEqualsZero(g, g);
    XorCommutes(0, x);
    XorZero(x);
  }

  lemma ProductUnfolds(q: nat)
    ensures Product(q, GENERATOR) == Xor(if q % 2 == 1 then GENERATOR else 0, 2 * Product(q / 2, GENERATOR))
  {
    hide Xor;
    XorZero(0);
  }

  lemma ProductStep(q: nat)
    ensures Product(q, GENERATOR) % 2 == q % 2
    ensures Shift(Product(q, GENERATOR)) == Product(q / 2, GENERATOR)
  {
    hide Shift, Xor, Product;
    var p, half := Product(q, GENERATOR), 2 * Product(q / 2, GENERATOR);
    var g := if q % 2 == 1 then GENERATOR else 0;
    ProductUnfolds(q);
    XorHalf(g, half);
    ShiftDivides(p);
    XorCommutes(p, g);
    XorUndone(g, half);
  }

  lemma ShiftsFirst(c: nat, n: nat)
    requires n > 0
    ensures Shifts(c, n) == Shifts(Shift(c), n - 1)
  {
    ShiftsCompose(c, 1, n - 1);
    assert Shifts(c, 1) == Shift(Shifts(c, 0));
  }

  /** What is shifted away entirely is a multiple. */
  lemma {:induction false} VanishesMeansMultiple(x: nat, n: nat)
    requires Shifts(x, n) == 0
    ensures IsMultiple(x)
    decreases n
  {
    hide Shift, Xor;
    if n == 0 {
      assert Product(0, GENERATOR) == x;
    } else {
      ShiftsFirst(x, n);
      VanishesMeansMultiple(Shift(x), n - 1);
      var q: nat :| Product(q, GENERATOR) == Shift(x);
      DivisionUndone(x, q);
    }
  }

  lemma DivisionUndone(x: nat, q: nat)
    requires Product(q, GENERATOR) == Shift(x)
    ensures IsMultiple(x)
  {
    hide Shift, Xor;
    var g := if x % 2 == 1 then GENERATOR else 0;
    var longer := 2 * q + x % 2;
    ShiftDivides(x);
    XorCommutes(x, g);
    XorUndone(g, x);
    assert Xor(g, 2 * Shift(x)) == x;
    if longer == 0 {
      assert Product(0, GENERATOR) == 0;
      XorZero(0);
    }
    assert longer % 2 == x % 2 && longer / 2 == q;
    assert Product(longer, GENERATOR) == x;
  }

  /** A multiple is shifted away in as many steps as its quotient has places. */
  lemma {:induction false} MultipleVanishes(q: nat, n: nat)
    requires q < Power2(n)
    ensures Shifts(Product(q, GENERATOR), n) == 0
    decreases n
  {
    hide Shift, Xor;
    if n > 0 {
      ShiftsFirst(Product(q, GENERATOR), n);
      ProductStep(q);
      MultipleVanishes(q / 2, n - 1);
    }
  }

  // ----- a multiple has more places than its quotient

  /** The highest place of a quotient with k + 1 places moves up by sixteen. */
  lemma {:induction false} HighestPlace(q: nat, k: nat)
    requires Power2(k) <= q < Power2(k + 1)
    ensures Power2(k + 16) <= Product(q, GENERATOR) < Power2(k + 17)
    decreases k
  {
    hide Xor;
    Sixteen();
    if k == 0 {
      assert Power2(1) == 2 && Power2(17) == 0x20000;
      assert q == 1 && Product(0, GENERATOR) == 0;
      XorZero(GENERATOR);
    } else {
      HighestPlace(q / 2, k - 1);
      var r := Product(q / 2, GENERATOR);
      PowerOrder(17, k + 16);
      assert Power2(17) == 0x20000;
      TopBitStays(if q % 2 == 1 then GENERATOR else 0, 2 * r, k + 16);
    }
  }

  lemma {:induction false} PowerOrder(m: nat, n: nat)
    requires m <= n
    ensures Power2(m) <= Power2(n)
    decreases n
  {
    if m < n { PowerOrder(m, n - 1); }
  }

  lemma TopBitStays(low: nat, x: nat, m: nat)
    requires low < Power2(m) <= x < Power2(m + 1)
    ensures Power2(m) <= Xor(low, x) < Power2(m + 1)
  {
    hide Xor;
    var y := Xor(low, x);
    XorBounded(low, x, m + 1);
    XorUndone(low, x);
    if y < Power2(m) { XorBounded(low, y, m); }
  }

  lemma {:induction false} Places(q: nat) returns (k: nat)
    requires q > 0
    ensures Power2(k) <= q < Power2(k + 1)
  {
    if q == 1 {
      k := 0;
      assert Power2(1) == 2 * Power2(0);
    } else {
      var half := Places(q / 2);
      k := half + 1;
    }
  }

  lemma QuotientIsSmaller(q: nat, n: nat)
    requires Product(q, GENERATOR) < Power2(n)
    ensures q < Power2(n)
  {
    if q == 0 {
      PowerPositive(n);
    } else {
      var k := Places(q);
      HighestPlace(q, k);
      PowerOrder(k + 1, k + 16);
    }
  }

  // ----- the checksum

  lemma ValueBounded(data: seq<byte>)
    ensures Value(data) < Power2(8 * |data|)
  {
    forall k: nat | 8 * |data| <= k ensures BitOf(Value(data), k) == 0 {
      ValueBit(data, k);
    }
    FewBits(Value(data), 8 * |data|);
  }

  /** A number of n places is shifted away in n steps if and only if it is a multiple. */
  lemma VanishesExactly(x: nat, n: nat)
    requires x < Power2(n)
    ensures Shifts(x, n) == 0 <==> IsMultiple(x)
  {
    hide Xor, Shifts, Power2, Product;
    if Shifts(x, n) == 0 { VanishesMeansMultiple(x, n); }
    if IsMultiple(x) {
      var q: nat :| Product(q, GENERATOR) == x;
      QuotientIsSmaller(q, n);
      MultipleVanishes(q, n);
    }
  }

  /** Two messages of one length have the same checksum if and only if their difference, as a polynomial
      in the order of transmission, is a multiple of x^16 + x^15 + x^2 + 1. */
  lemma SameChecksumExactly(a: seq<byte>, b: seq<byte>)
    requires |a| == |b|
    ensures Checksum(a) == Checksum(b) <==> IsMultiple(Xor(Value(a), Value(b)))
  {
    hide Xor, Shifts, Value, Checksum, Power2;
    ResidueDifference(a, b);
    XorEqualsZero(Checksum(a), Checksum(b));
    ValueBounded(a);
    ValueBounded(b);
    XorBounded(Value(a), Value(b), 8 * |a|);
    VanishesExactly(Xor(Value(a), Value(b)), 8 * |a|);
  }

  /** A frame is checked if and only if, its first sixteen bits inverted, it is a multiple of the
      generator: this fixes the start value and the place and order of the CRC bytes as well. */
  lemma CheckedExactly(frame: seq<byte>)
    requires |frame| >= 2
    ensures Checked(frame) <==> IsMultiple(Xor(0xFFFF, Value(frame)))
  {
    hide Xor, Shifts, Value, Checked, Absorb, Power2;
    var n := 8 * |frame|;
    CheckedIffResidueZero(frame);
    AbsorbIsShifts(0xFFFF, frame);
    ValueBounded(frame);
    Sixteen();
    PowerOrder(16, n);
    XorBounded(0xFFFF, Value(frame), n);
    VanishesExactly(Xor(0xFFFF, Value(frame)), n);
  }

  // ----- the check value

  /** Place p of x inverted. */
  function Flipped(x: int, p: int): int
    requires p > 0
  {
    if x / p % 2 == 0 then x + p else x - p
  }

  lemma {:induction false} XorMovesUp(a: nat, b: nat, n: nat)
    ensures Xor(Power2(n) * a, Power2(n) * b) == Power2(n) * Xor(a, b)
    decreases n
  {
    hide Xor;
    if n == 0 {
      PowerZero(a);
      PowerZero(b);
      PowerZero(Xor(a, b));
    } else {
      DoublePower(n, a);
      DoublePower(n, b);
      DoublePower(n, Xor(a, b));
      XorMovesUp(a, b, n - 1);
      XorHalf(Power2(n) * a, Power2(n) * b);
    }
  }

  lemma XorSmall(t: nat)
    requires t < 8
    ensures Xor(t, 10) == 8 + if t / 2 % 2 == 0 then t + 2 else t - 2
  {
    hide Xor;
    XorFour(t, 10);
    XorZero(0);
    assert t in {0, 1, 2, 3, 4, 5, 6, 7};
  }

  lemma XorOne(x: nat)
    ensures Xor(x, 1) == if x % 2 == 0 then x + 1 else x - 1
  {
    XorHalf(x, 1);
    XorZero(x / 2);
  }

  /** The feedback inverts places 15, 13 and 0. */
  lemma FeedbackFlips(h: nat)
    requires h < 0x8000
    ensures Xor(h, 0xA001) == Flipped(Flipped(h + 0x8000, 0x2000), 1)
  {
    hide Xor, Power2;
    var low, t := h % 4096, h / 4096;
    TwelvePlaces();
    XorDisjoint(low, t, 12);
    XorDisjoint(1, 10, 12);
    XorInterchange(low, 1, 4096 * t, 40960);
    XorMovesUp(t, 10, 12);
    XorSmall(t);
    XorOne(low);
    XorCommutes(low, 4096 * t);
    XorDisjoint(Xor(low, 1), Xor(t, 10), 12);
    PlaceThirteen(h, low, t);
  }

  lemma PlaceThirteen(h: nat, low: nat, t: nat)
    requires h == low + 4096 * t && low < 4096 && t < 8
    ensures (h + 0x8000) / 0x2000 % 2 == t / 2 % 2 && h % 2 == low % 2
  {}

  /** One shift in plain arithmetic. */
  lemma ShiftOf(c: nat, next: nat)
    requires c < 0x10000
    requires next == if c % 2 == 0 then c / 2 else Flipped(Flipped(c / 2 + 0x8000, 0x2000), 1)
    ensures Shift(c) == next
  {
    hide Xor, Flipped;
    XorZero(c / 2);
    FeedbackFlips(c / 2);
  }

  lemma TwelvePlaces()
    ensures Power2(12) == 4096
  {
    assert Power2(6) == 64;
  }

  lemma XorByte(c: nat, b: nat, high: nat, low: nat)
    requires b < 256 && high == Low4(c / 16, b / 16) && low == Low4(c, b)
    ensures Xor(c, b) == 256 * (c / 256) + 16 * high + low
  {
    XorFour(c, b);
    XorFour(c / 16, b / 16);
    XorZero(c / 256);
    hide Xor, Low4;
    assert b / 16 / 16 == 0 && c / 16 / 16 == c / 256;
  }

  function Differ(a: nat, b: nat): nat { if a % 2 == b % 2 then 0 else 1 }

  function Low4(a: nat, b: nat): nat {
    Differ(a, b) + 2 * Differ(a / 2, b / 2) + 4 * Differ(a / 4, b / 4) + 8 * Differ(a / 8, b / 8)
  }

  /** Four places of an exclusive or. */
  lemma XorFour(a: nat, b: nat)
    ensures Xor(a, b) == Low4(a, b) + 16 * Xor(a / 16, b / 16)
  {
    XorHalf(a, b);
    XorHalf(a / 2, b / 2);
    XorHalf(a / 4, b / 4);
    XorHalf(a / 8, b / 8);
    hide Xor;
    assert a / 2 / 2 == a / 4 && a / 4 / 2 == a / 8 && a / 8 / 2 == a / 16;
    assert b / 2 / 2 == b / 4 && b / 4 / 2 == b / 8 && b / 8 / 2 == b / 16;
  }

  /** The standard's check value: the digits from 1 to 9 have checksum 0x4B37. */
  lemma CheckValue()
    ensures Checksum([0x31, 0x32, 0x33, 0x34, 0x35, 0x36, 0x37, 0x38, 0x39]) == 0x4B37
  {
    FourDigits();
    hide Update, Absorb;
    Digit5();
    NextByte(0xFFFF, [0x31, 0x32, 0x33, 0x34], 0x35, [0x31, 0x32, 0x33, 0x34, 0x35]);
    Digit6();
    NextByte(0xFFFF, [0x31, 0x32, 0x33, 0x34, 0x35], 0x36, [0x31, 0x32, 0x33, 0x34, 0x35, 0x36]);
    Digit7();
    NextByte(0xFFFF, [0x31, 0x32, 0x33, 0x34, 0x35, 0x36], 0x37, [0x31, 0x32, 0x33, 0x34, 0x35, 0x36, 0x37]);
    Digit8();
    NextByte(0xFFFF, [0x31, 0x32, 0x33, 0x34, 0x35, 0x36, 0x37], 0x38, [0x31, 0x32, 0x33, 0x34, 0x35, 0x36, 0x37, 0x38]);
    Digit9();
    NextByte(0xFFFF, [0x31, 0x32, 0x33, 0x34, 0x35, 0x36, 0x37, 0x38], 0x39, [0x31, 0x32, 0x33, 0x34, 0x35, 0x36, 0x37, 0x38, 0x39]);
  }

  lemma FourDigits()
    ensures Checksum([0x31, 0x32, 0x33, 0x34]) == 0x30BA
  {
    hide Update, Absorb;
    NoBytes(0xFFFF);
    Digit1();
    NextByte(0xFFFF, [], 0x31, [0x31]);
    Digit2();
    NextByte(0xFFFF, [0x31], 0x32, [0x31, 0x32]);
    Digit3();
    NextByte(0xFFFF, [0x31, 0x32], 0x33, [0x31, 0x32, 0x33]);
    Digit4();
    NextByte(0xFFFF, [0x31, 0x32, 0x33], 0x34, [0x31, 0x32, 0x33, 0x34]);
  }

  lemma NoBytes(c: nat)
    ensures Absorb(c, []) == c
  {}

  lemma NextByte(init: nat, data: seq<byte>, b: byte, longer: seq<byte>)
    requires longer == data + [b]
    ensures Absorb(init, longer) == Update(Absorb(init, data), b)
  {
    assert longer[..|data|] == data;
  }

  lemma EightShifts(c: nat)
    ensures Shifts(c, 8) == Shift(Shift(Shift(Shift(Shift(Shift(Shift(Shift(c))))))))
  {
    hide Shift;
    assert Shifts(c, 1) == Shift(Shifts(c, 0));
    assert Shifts(c, 2) == Shift(Shifts(c, 1));
    assert Shifts(c, 3) == Shift(Shifts(c, 2));
    assert Shifts(c, 4) == Shift(Shifts(c, 3));
    assert Shifts(c, 5) == Shift(Shifts(c, 4));
    assert Shifts(c, 6) == Shift(Shifts(c, 5));
    assert Shifts(c, 7) == Shift(Shifts(c, 6));
  }

  lemma Digit1()
    ensures Update(0xFFFF, 0x31) == 0x947E
  {
    hide Xor, Shift, Shifts;
    XorByte(0xFFFF, 0x31, 12, 14);
    EightShifts(0xFFCE);
    ShiftOf(0xFFCE, 0x7FE7);
    ShiftOf(0x7FE7, 0x9FF2);
    ShiftOf(0x9FF2, 0x4FF9);
    ShiftOf(0x4FF9, 0x87FD);
    ShiftOf(0x87FD, 0xE3FF);
    ShiftOf(0xE3FF, 0xD1FE);
    ShiftOf(0xD1FE, 0x68FF);
    ShiftOf(0x68FF, 0x947E);
  }

  lemma Digit2()
    ensures Update(0x947E, 0x32) == 0xF595
  {
    hide Xor, Shift, Shifts;
    XorByte(0x947E, 0x32, 4, 12);
    EightShifts(0x944C);
    ShiftOf(0x944C, 0x4A26);
    ShiftOf(0x4A26, 0x2513);
    ShiftOf(0x2513, 0xB288);
    ShiftOf(0xB288, 0x5944);
    ShiftOf(0x5944, 0x2CA2);
    ShiftOf(0x2CA2, 0x1651);
    ShiftOf(0x1651, 0xAB29);
    ShiftOf(0xAB29, 0xF595);
  }

  lemma Digit3()
    ensures Update(0xF595, 0x33) == 0x7A75
  {
    hide Xor, Shift, Shifts;
    XorByte(0xF595, 0x33, 10, 6);
    EightShifts(0xF5A6);
    ShiftOf(0xF5A6, 0x7AD3);
    ShiftOf(0x7AD3, 0x9D68);
    ShiftOf(0x9D68, 0x4EB4);
    ShiftOf(0x4EB4, 0x275A);
    ShiftOf(0x275A, 0x13AD);
    ShiftOf(0x13AD, 0xA9D7);
    ShiftOf(0xA9D7, 0xF4EA);
    ShiftOf(0xF4EA, 0x7A75);
  }

  lemma Digit4()
    ensures Update(0x7A75, 0x34) == 0x30BA
  {
    hide Xor, Shift, Shifts;
    XorByte(0x7A75, 0x34, 4, 1);
    EightShifts(0x7A41);
    ShiftOf(0x7A41, 0x9D21);
    ShiftOf(0x9D21, 0xEE91);
    ShiftOf(0xEE91, 0xD749);
    ShiftOf(0xD749, 0xCBA5);
    ShiftOf(0xCBA5, 0xC5D3);
    ShiftOf(0xC5D3, 0xC2E8);
    ShiftOf(0xC2E8, 0x6174);
    ShiftOf(0x6174, 0x30BA);
  }

  lemma Digit5()
    ensures Update(0x30BA, 0x35) == 0xA471
  {
    hide Xor, Shift, Shifts;
    XorByte(0x30BA, 0x35, 8, 15);
    EightShifts(0x308F);
    ShiftOf(0x308F, 0xB846);
    ShiftOf(0xB846, 0x5C23);
    ShiftOf(0x5C23, 0x8E10);
    ShiftOf(0x8E10, 0x4708);
    ShiftOf(0x4708, 0x2384);
    ShiftOf(0x2384, 0x11C2);
    ShiftOf(0x11C2, 0x8E1);
    ShiftOf(0x8E1, 0xA471);
  }

  lemma Digit6()
    ensures Update(0xA471, 0x36) == 0x32E4
  {
    hide Xor, Shift, Shifts;
    XorByte(0xA471, 0x36, 4, 7);
    EightShifts(0xA447);
    ShiftOf(0xA447, 0xF222);
    ShiftOf(0xF222, 0x7911);
    ShiftOf(0x7911, 0x9C89);
    ShiftOf(0x9C89, 0xEE45);
    ShiftOf(0xEE45, 0xD723);
    ShiftOf(0xD723, 0xCB90);
    ShiftOf(0xCB90, 0x65C8);
    ShiftOf(0x65C8, 0x32E4);
  }

  lemma Digit7()
    ensures Update(0x32E4, 0x37) == 0x9D73
  {
    hide Xor, Shift, Shifts;
    XorByte(0x32E4, 0x37, 13, 3);
    EightShifts(0x32D3);
    ShiftOf(0x32D3, 0xB968);
    ShiftOf(0xB968, 0x5CB4);
    ShiftOf(0x5CB4, 0x2E5A);
    ShiftOf(0x2E5A, 0x172D);
    ShiftOf(0x172D, 0xAB97);
    ShiftOf(0xAB97, 0xF5CA);
    ShiftOf(0xF5CA, 0x7AE5);
    ShiftOf(0x7AE5, 0x9D73);
  }

  lemma Digit8()
    ensures Update(0x9D73, 0x38) == 0x37DD
  {
    hide Xor, Shift, Shifts;
    XorByte(0x9D73, 0x38, 4, 11);
    EightShifts(0x9D4B);
    ShiftOf(0x9D4B, 0xEEA4);
    ShiftOf(0xEEA4, 0x7752);
    ShiftOf(0x7752, 0x3BA9);
    ShiftOf(0x3BA9, 0xBDD5);
    ShiftOf(0xBDD5, 0xFEEB);
    ShiftOf(0xFEEB, 0xDF74);
    ShiftOf(0xDF74, 0x6FBA);
    ShiftOf(0x6FBA, 0x37DD);
  }

  lemma Digit9()
    ensures Update(0x37DD, 0x39) == 0x4B37
  {
    hide Xor, Shift, Shifts;
    XorByte(0x37DD, 0x39, 14, 4);
    EightShifts(0x37E4);
    ShiftOf(0x37E4, 0x1BF2);
    ShiftOf(0x1BF2, 0xDF9);
    ShiftOf(0xDF9, 0xA6FD);
    ShiftOf(0xA6FD, 0xF37F);
    ShiftOf(0xF37F, 0xD9BE);
    ShiftOf(0xD9BE, 0x6CDF);
    ShiftOf(0x6CDF, 0x966E);
    ShiftOf(0x966E, 0x4B37);
  }
}
