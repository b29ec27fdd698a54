/** Little-endian integers. */
module Bytes {
  import opened Common

  /** The number that bytes spell, low byte first. */
  function Value(b: seq<byte>): nat {
    if b == [] then 0 else (b[0] as nat) + 256 * Value(b[1..])
  }

  function Power256(n: nat): nat { if n == 0 then 1 else 256 * Power256(n - 1) }

  function LittleEndian(value: nat, count: nat): (b: seq<byte>)
    ensures |b| == count
  {
    if count == 0 then [] else [value % 256] + LittleEndian(value / 256, count - 1)
  }

  lemma {:induction false} ValueOfLittleEndian(value: nat, count: nat)
    requires value < Power256(count)
    ensures Value(LittleEndian(value, count)) == value
  {
    if count > 0 {
      ValueOfLittleEndian(value / 256, count - 1);
      assert LittleEndian(value, count)[1..] == LittleEndian(value / 256, count - 1);
    }
  }

  lemma {:induction false} LittleEndianOfValue(b: seq<byte>)
    ensures Value(b) < Power256(|b|) && LittleEndian(Value(b), |b|) == b
  {
    if b != [] {
      LittleEndianOfValue(b[1..]);
      assert Value(b) / 256 == Value(b[1..]) && Value(b) % 256 == b[0] as nat;
    }
  }

  lemma Widths()
    ensures Power256(1) == 0x100 && Power256(2) == 0x1_0000 && Power256(4) == 0x1_0000_0000 && Power256(8) == MAX_UINT64 + 1
  {
    assert Power256(3) == 0x100_0000 && Power256(6) == 0x1_0000_0000_0000;
  }

  lemma OneByte(value: nat)
    requires value < 256
    ensures LittleEndian(value, 1) == [value]
  {
    assert LittleEndian(value / 256, 0) == [];
  }

  /** Two and four bytes, written out. */
  lemma BytesSpelled(b: seq<byte>)
    ensures |b| == 2 ==> Value(b) == (b[0] as nat) + 0x100 * (b[1] as nat)
    ensures |b| == 4 ==> Value(b) == (b[0] as nat) + 0x100 * (b[1] as nat) + 0x1_0000 * (b[2] as nat) + 0x100_0000 * (b[3] as nat)
  {
    if |b| == 2 { assert b[1..][1..] == []; }
    if |b| == 4 { assert b[1..][1..] == b[2..] && b[2..][1..] == b[3..] && b[3..][1..] == []; }
  }
}
