/** Checksums of given buffers, by evaluation on 16-bit words. */
module CrcValues {
  import opened Bytes
  import opened Crc

  /** Bit j of a word. */
  predicate Masked(c: bv16, j: nat) {
    if j == 0 then c & 1 != 0 else if j == 1 then c & 2 != 0 else if j == 2 then c & 4 != 0
    else if j == 3 then c & 8 != 0 else if j == 4 then c & 0x10 != 0 else if j == 5 then c & 0x20 != 0
    else if j == 6 then c & 0x40 != 0 else if j == 7 then c & 0x80 != 0 else if j == 8 then c & 0x100 != 0
    else if j == 9 then c & 0x200 != 0 else if j == 10 then c & 0x400 != 0 else if j == 11 then c & 0x800 != 0
    else if j == 12 then c & 0x1000 != 0 else if j == 13 then c & 0x2000 != 0
    else if j == 14 then c & 0x4000 != 0 else c & 0x8000 != 0
  }

  /** A word and the register with the same bits. */
  predicate Holds(c: bv16, r: Register) {
    && r[0] == (c & 1 != 0) && r[1] == (c & 2 != 0) && r[2] == (c & 4 != 0)
    && r[3] == (c & 8 != 0) && r[4] == (c & 0x10 != 0) && r[5] == (c & 0x20 != 0)
    && r[6] == (c & 0x40 != 0) && r[7] == (c & 0x80 != 0) && r[8] == (c & 0x100 != 0)
    && r[9] == (c & 0x200 != 0) && r[10] == (c & 0x400 != 0) && r[11] == (c & 0x800 != 0)
    && r[12] == (c & 0x1000 != 0) && r[13] == (c & 0x2000 != 0) && r[14] == (c & 0x4000 != 0)
    && r[15] == (c & 0x8000 != 0)
  }

  /** That register. */
  function Held(c: bv16): Register { seq(16, j requires 0 <= j < 16 => Masked(c, j)) }

  lemma HeldHolds(c: bv16)
    ensures Holds(c, Held(c))
  {
  }

  function Shift(c: bv16, bit: bool): bv16 {
    if (c & 0x8000 != 0) == bit then c << 1 else (c << 1) ^ 0x1021
  }

  /** The first n bits of a byte. */
  function ShiftBits(c: bv16, b: Byte, n: nat): bv16
    requires n <= 8
  {
    if n == 0 then c else Shift(ShiftBits(c, b, n - 1), BitSet(b, 8 - n))
  }

  /** All bits of a byte. */
  function Shifts(c: bv16, b: Byte): bv16 {
    Shift(Shift(Shift(Shift(Shift(Shift(Shift(Shift(c,
      BitSet(b, 7)), BitSet(b, 6)), BitSet(b, 5)), BitSet(b, 4)),
      BitSet(b, 3)), BitSet(b, 2)), BitSet(b, 1)), BitSet(b, 0))
  }

  lemma Unrolled(c: bv16, b: Byte)
    ensures ShiftBits(c, b, 8) == Shifts(c, b)
  {
    assert ShiftBits(c, b, 0) == c;
    assert ShiftBits(c, b, 2) == Shift(Shift(ShiftBits(c, b, 0), BitSet(b, 7)), BitSet(b, 6));
    assert ShiftBits(c, b, 4) == Shift(Shift(ShiftBits(c, b, 2), BitSet(b, 5)), BitSet(b, 4));
    assert ShiftBits(c, b, 6) == Shift(Shift(ShiftBits(c, b, 4), BitSet(b, 3)), BitSet(b, 2));
    assert ShiftBits(c, b, 8) == Shift(Shift(ShiftBits(c, b, 6), BitSet(b, 1)), BitSet(b, 0));
  }

  lemma DoubledBits(c: bv16)
    ensures (c << 1) & 1 == 0 && ((c << 1) & 2 != 0) == (c & 1 != 0)
    ensures ((c << 1) & 4 != 0) == (c & 2 != 0) && ((c << 1) & 8 != 0) == (c & 4 != 0)
    ensures ((c << 1) & 0x10 != 0) == (c & 8 != 0) && ((c << 1) & 0x20 != 0) == (c & 0x10 != 0)
    ensures ((c << 1) & 0x40 != 0) == (c & 0x20 != 0) && ((c << 1) & 0x80 != 0) == (c & 0x40 != 0)
    ensures ((c << 1) & 0x100 != 0) == (c & 0x80 != 0) && ((c << 1) & 0x200 != 0) == (c & 0x100 != 0)
    ensures ((c << 1) & 0x400 != 0) == (c & 0x200 != 0) && ((c << 1) & 0x800 != 0) == (c & 0x400 != 0)
    ensures ((c << 1) & 0x1000 != 0) == (c & 0x800 != 0) && ((c << 1) & 0x2000 != 0) == (c & 0x1000 != 0)
    ensures ((c << 1) & 0x4000 != 0) == (c & 0x2000 != 0) && ((c << 1) & 0x8000 != 0) == (c & 0x4000 != 0)
  {
  }

  lemma FlippedBits(c: bv16)
    ensures ((c ^ 0x1021) & 1 != 0) == (c & 1 == 0) && ((c ^ 0x1021) & 2 != 0) == (c & 2 != 0)
    ensures ((c ^ 0x1021) & 4 != 0) == (c & 4 != 0) && ((c ^ 0x1021) & 8 != 0) == (c & 8 != 0)
    ensures ((c ^ 0x1021) & 0x10 != 0) == (c & 0x10 != 0) && ((c ^ 0x1021) & 0x20 != 0) == (c & 0x20 == 0)
    ensures ((c ^ 0x1021) & 0x40 != 0) == (c & 0x40 != 0) && ((c ^ 0x1021) & 0x80 != 0) == (c & 0x80 != 0)
    ensures ((c ^ 0x1021) & 0x100 != 0) == (c & 0x100 != 0) && ((c ^ 0x1021) & 0x200 != 0) == (c & 0x200 != 0)
    ensures ((c ^ 0x1021) & 0x400 != 0) == (c & 0x400 != 0) && ((c ^ 0x1021) & 0x800 != 0) == (c & 0x800 != 0)
    ensures ((c ^ 0x1021) & 0x1000 != 0) == (c & 0x1000 == 0) && ((c ^ 0x1021) & 0x2000 != 0) == (c & 0x2000 != 0)
    ensures ((c ^ 0x1021) & 0x4000 != 0) == (c & 0x4000 != 0) && ((c ^ 0x1021) & 0x8000 != 0) == (c & 0x8000 != 0)
  {
  }

  function Doubling(r: Register): (d: Register)
    ensures !d[0] && forall j :: 0 <= j < 15 ==> d[j + 1] == r[j]
  {
    seq(16, j requires 0 <= j < 16 => j > 0 && r[j - 1])
  }

  lemma HoldsDoubled(c: bv16, r: Register, s: bv16, d: Register)
    requires Holds(c, r) && s == c << 1 && d == Doubling(r)
    ensures Holds(s, d)
  {
    DoubledBits(c);
    assert d[0 + 1] == r[0] && d[1 + 1] == r[1] && d[2 + 1] == r[2] && d[3 + 1] == r[3] && d[4 + 1] == r[4];
    assert d[5 + 1] == r[5] && d[6 + 1] == r[6] && d[7 + 1] == r[7] && d[8 + 1] == r[8] && d[9 + 1] == r[9];
    assert d[10 + 1] == r[10] && d[11 + 1] == r[11] && d[12 + 1] == r[12] && d[13 + 1] == r[13] && d[14 + 1] == r[14];
  }

  lemma HoldsFlipped(c: bv16, r: Register, s: bv16, d: Register)
    requires Holds(c, r) && s == c ^ 0x1021 && forall j :: 0 <= j < 16 ==> d[j] == (r[j] != Poly(j))
    ensures Holds(s, d)
  {
    FlippedBits(c);
  }

  lemma StepParts(r: Register, bit: bool, d: Register, t: Register)
    requires d == Doubling(r) && t == Step(r, bit)
    ensures r[15] == bit ==> t == d
    ensures r[15] != bit ==> forall j :: 0 <= j < 16 ==> t[j] == (d[j] != Poly(j))
  {
    forall j | 0 <= j < 16 ensures d[j] == (j > 0 && r[j - 1]) {
      if j > 0 { assert d[(j - 1) + 1] == r[j - 1]; }
    }
  }

  lemma ShiftKept(c: bv16, r: Register, bit: bool)
    requires Holds(c, r) && r[15] == bit
    ensures Shift(c, bit) == c << 1
  {
  }

  lemma ShiftFlips(c: bv16, r: Register, bit: bool)
    requires Holds(c, r) && r[15] != bit
    ensures Shift(c, bit) == (c << 1) ^ 0x1021
  {
  }

  lemma TwoShifts(c: bv16, r: Register, s: bv16, t: Register, d: Register)
    requires Holds(c, r) && s == (c << 1) ^ 0x1021
    requires d == Doubling(r) && forall j :: 0 <= j < 16 ==> t[j] == (d[j] != Poly(j))
    ensures Holds(s, t)
  {
    var e := c << 1;
    HoldsDoubled(c, r, e, d);
    HoldsFlipped(e, d, s, t);
  }

  lemma ShiftIsStep(c: bv16, r: Register, bit: bool, s: bv16, t: Register)
    requires Holds(c, r) && s == Shift(c, bit) && t == Step(r, bit)
    ensures Holds(s, t)
  {
    var d := Doubling(r);
    StepParts(r, bit, d, t);
    if r[15] == bit {
      ShiftKept(c, r, bit);
      HoldsDoubled(c, r, s, d);
    } else {
      ShiftFlips(c, r, bit);
      TwoShifts(c, r, s, t, d);
    }
  }

  lemma NextBit(c: bv16, r: Register, bits: seq<bool>, n: nat, bit: bool)
    requires n < |bits| && Holds(c, Feed(r, bits[..n])) && bit == bits[n]
    ensures Holds(Shift(c, bit), Feed(r, bits[..n + 1]))
  {
    assert bits[..n + 1][..n] == bits[..n];
    ShiftIsStep(c, Feed(r, bits[..n]), bit, Shift(c, bit), Feed(r, bits[..n + 1]));
  }

  lemma {:induction false} BitsHeld(c: bv16, r: Register, b: Byte, bits: seq<bool>, n: nat)
    requires n <= 8 && Holds(c, r) && |bits| == 8 && forall k :: 0 <= k < 8 ==> bits[k] == BitSet(b, 7 - k)
    ensures Holds(ShiftBits(c, b, n), Feed(r, bits[..n]))
  {
    if n == 0 {
      assert bits[..0] == [];
    } else {
      BitsHeld(c, r, b, bits, n - 1);
      assert bits[n - 1] == BitSet(b, 8 - n);
      NextBit(ShiftBits(c, b, n - 1), r, bits, n - 1, BitSet(b, 8 - n));
    }
  }

  /** A word determines the register that it holds. */
  lemma HeldOnce(c: bv16, r: Register, t: Register)
    requires Holds(c, r) && Holds(c, t)
    ensures r == t
  {
  }

  /** One more byte takes the checksum from one word to the next. */
  lemma ByteHeld(m: Memory, c: bv16, b: Byte, d: bv16)
    requires Checksum(m) == Held(c) && d == Shifts(c, b)
    ensures Checksum(m + [b]) == Held(d)
  {
    Unrolled(c, b);
    HeldHolds(c);
    BitsHeld(c, Checksum(m), b, Bits([b]), 8);
    assert Bits([b])[..8] == Bits([b]);
    BitsSplit(m + [b], |m|);
    assert (m + [b])[..|m|] == m && (m + [b])[|m|..] == [b];
    FeedAppend(RegisterOf(0xFFFF), Bits(m), Bits([b]));
    HeldHolds(d);
    HeldOnce(d, Checksum(m + [b]), Held(d));
  }

  lemma FourHeld(m: Memory, w: Byte, x: Byte, y: Byte, z: Byte, c: bv16, c1: bv16, c2: bv16, c3: bv16, c4: bv16)
    requires Checksum(m) == Held(c) && c1 == Shifts(c, w) && c2 == Shifts(c1, x) && c3 == Shifts(c2, y)
    requires c4 == Shifts(c3, z)
    ensures Checksum(m + [w, x, y, z]) == Held(c4)
  {
    ByteHeld(m, c, w, c1);
    ByteHeld(m + [w], c1, x, c2);
    ByteHeld(m + [w] + [x], c2, y, c3);
    ByteHeld(m + [w] + [x] + [y], c3, z, c4);
    assert m + [w] + [x] + [y] + [z] == m + [w, x, y, z];
  }

  lemma Start()
    ensures Checksum([]) == Held(0xFFFF)
  {
    var r := RegisterOf(0xFFFF);
    assert Bits([]) == [];
    Power32();
    HeldHolds(0xFFFF);
    forall j | 0 <= j < 16 ensures r[j] {
      MaskBit(16, j);
    }
    HeldOnce(0xFFFF, r, Held(0xFFFF));
  }

  /** A message that leads to zero is intact. */
  lemma EndsInZero(m: Memory)
    requires |m| >= 2 && Checksum(m) == Held(0)
    ensures Intact(m)
  {
    HeldOnce(0, Held(0), ZERO);
    IntactIsZero(m);
  }

  lemma FourDigits()
    ensures Checksum([0x31, 0x32, 0x33, 0x34]) == Held(0x5349)
  {
    Start();
    FourHeld([], 0x31, 0x32, 0x33, 0x34, 0xFFFF, 0xC782, 0x3DBA, 0x5BCE, 0x5349);
    assert [] + [0x31, 0x32, 0x33, 0x34] == [0x31, 0x32, 0x33, 0x34];
  }

  lemma EightDigits()
    ensures Checksum([0x31, 0x32, 0x33, 0x34, 0x35, 0x36, 0x37, 0x38]) == Held(0xA12B)
  {
    FourDigits();
    FourHeld([0x31, 0x32, 0x33, 0x34], 0x35, 0x36, 0x37, 0x38, 0x5349, 0x4560, 0x2EF4, 0x7718, 0xA12B);
    assert [0x31, 0x32, 0x33, 0x34] + [0x35, 0x36, 0x37, 0x38] == [0x31, 0x32, 0x33, 0x34, 0x35, 0x36, 0x37, 0x38];
  }

  /** The published check value for this polynomial and initial value: 0x29B1 is the checksum of the
      digits 1 to 9. */
  lemma CheckValue()
    ensures Checksum([0x31, 0x32, 0x33, 0x34, 0x35, 0x36, 0x37, 0x38, 0x39]) == Held(0x29B1)
  {
    var m := [0x31, 0x32, 0x33, 0x34, 0x35, 0x36, 0x37, 0x38];
    EightDigits();
    ByteHeld(m, 0xA12B, 0x39, 0x29B1);
    assert m + [0x39] == [0x31, 0x32, 0x33, 0x34, 0x35, 0x36, 0x37, 0x38, 0x39];
  }
}
