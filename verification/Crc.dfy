/** The bit-serial CRC of the RCT Power protocol, and the errors it always detects. */
module Crc {
  import opened Bytes

  // ---- The shift register ----

  /** Sixteen bits, the least significant one first. */
  type Register = r: seq<bool> | |r| == 16 witness seq(16, _ => false)

  const ZERO: Register := seq(16, _ => false)

  /** The bits of the polynomial 0x1021. */
  predicate Poly(j: nat) { j == 0 || j == 5 || j == 12 }

  /** Shifts one bit of data in. */
  function Step(r: Register, bit: bool): (t: Register)
    ensures forall j :: 0 <= j < 16 ==> t[j] == ((j > 0 && r[j - 1]) != (r[15] != bit && Poly(j)))
  {
    seq(16, j requires 0 <= j < 16 => (j > 0 && r[j - 1]) != (r[15] != bit && Poly(j)))
  }

  /** The register after a row of bits. */
  function Feed(r: Register, bits: seq<bool>): Register {
    if bits == [] then r else Step(Feed(r, bits[..|bits| - 1]), bits[|bits| - 1])
  }

  /** The bits of a buffer, most significant bit of each byte first. */
  function Bits(m: Memory): (bits: seq<bool>)
    ensures |bits| == 8 * |m|
  {
    seq(8 * |m|, i requires 0 <= i < 8 * |m| => BitSet(m[i / 8], 7 - i % 8))
  }

  /** The low 16 bits of a number as a register. */
  function RegisterOf(c: nat): (r: Register)
    ensures forall j :: 0 <= j < 16 ==> r[j] == BitSet(c, j)
  {
    seq(16, j requires 0 <= j < 16 => BitSet(c, j))
  }

  function Checksum(m: Memory): Register { Feed(RegisterOf(0xFFFF), Bits(m)) }

  // ---- The loop over a 32-bit word ----

  const UINT32_MAX: nat := 0xFFFF_FFFF

  /** `checksum <<= 1` on a 32-bit word. */
  function ShiftLeft(c: nat): nat { And(2 * c, UINT32_MAX) }

  lemma ShiftBit(c: nat, j: nat)
    requires j < 16
    ensures BitSet(ShiftLeft(c), j) == (j > 0 && BitSet(c, j - 1))
  {
    assert UINT32_MAX == Pow2(32) - 1 by { Power32(); }
    MaskedBit(2 * c, 32, UINT32_MAX, j);
    assert BitSet(2 * c, j) == (j > 0 && BitSet(c, j - 1));
  }

  /** A mask of n ones keeps the low n bits. */
  lemma MaskedBit(x: nat, n: nat, mask: nat, j: nat)
    requires mask == Pow2(n) - 1 && j < n
    ensures BitSet(And(x, mask), j) == BitSet(x, j)
  {
    AndBit(x, mask, j);
    MaskBit(n, j);
  }

  lemma Power32()
    ensures Pow2(32) == 0x1_0000_0000 && Pow2(16) == 0x1_0000
  {
    SmallPowers();
    assert Pow2(12) == 4096;
    assert Pow2(16) == 65536;
    assert Pow2(20) == 1048576;
    assert Pow2(24) == 16777216;
    assert Pow2(28) == 268435456;
  }

  lemma NibbleDown(x: nat, j: nat)
    requires j >= 4
    ensures BitSet(x, j) == BitSet(x / 16, j - 4)
  {
    assert BitSet(x, j) == BitSet(x / 2, j - 1);
    assert BitSet(x / 2, j - 1) == BitSet(x / 2 / 2, j - 2);
    assert BitSet(x / 2 / 2, j - 2) == BitSet(x / 2 / 2 / 2, j - 3);
    assert BitSet(x / 2 / 2 / 2, j - 3) == BitSet(x / 2 / 2 / 2 / 2, j - 4);
  }

  lemma NibbleBits(j: nat)
    requires j < 4
    ensures BitSet(1, j) == (j == 0) && !BitSet(0, j) && BitSet(2, j) == (j == 1)
    ensures BitSet(0x1021, j) == (j == 0) && BitSet(0x102, j) == (j == 1) && !BitSet(0x10, j)
  {
    ZeroBits(j);
    assert BitSet(0x1021, 1) == BitSet(2064, 0) && BitSet(0x102, 1) == BitSet(129, 0);
    if j >= 2 {
      assert BitSet(0x1021, j) == BitSet(2064, j - 1) && BitSet(2064, j - 1) == BitSet(1032, j - 2);
      assert BitSet(0x102, j) == BitSet(129, j - 1) && BitSet(129, j - 1) == BitSet(64, j - 2);
      assert BitSet(0x10, j) == BitSet(8, j - 1) && BitSet(8, j - 1) == BitSet(4, j - 2);
      if j == 3 {
        assert BitSet(1032, 1) == BitSet(516, 0) && BitSet(64, 1) == BitSet(32, 0) && BitSet(4, 1) == BitSet(2, 0);
      }
    }
  }

  lemma PolynomialBits(j: nat)
    requires j < 16
    ensures BitSet(0x1021, j) == Poly(j)
  {
    NibbleBits(j % 4);
    if j >= 4 { NibbleDown(0x1021, j); }
    if j >= 8 { NibbleDown(0x102, j - 4); }
    if j >= 12 { NibbleDown(0x10, j - 8); }
  }

  /** One turn of the inner loop is one step of the register, whatever the bits above are. */
  lemma TurnIsStep(c: nat, bit: bool)
    ensures var d := ShiftLeft(c);
            RegisterOf(if BitSet(c, 15) != bit then Xor(d, 0x1021) else d) == Step(RegisterOf(c), bit)
  {
    var d := ShiftLeft(c);
    var e := if BitSet(c, 15) != bit then Xor(d, 0x1021) else d;
    forall j | 0 <= j < 16 ensures RegisterOf(e)[j] == Step(RegisterOf(c), bit)[j] {
      ShiftBit(c, j);
      XorBit(d, 0x1021, j);
      PolynomialBits(j);
    }
  }

  /** `checksum & 0xFFFF` */
  lemma MaskKeepsRegister(c: nat)
    ensures RegisterOf(And(c, 0xFFFF)) == RegisterOf(c)
  {
    Power32();
    forall j | 0 <= j < 16 ensures BitSet(And(c, 0xFFFF), j) == BitSet(c, j) {
      AndBit(c, 0xFFFF, j);
      MaskBit(16, j);
    }
  }

  lemma TurnFeeds(c: nat, bits: seq<bool>, n: nat)
    requires n < |bits| && RegisterOf(c) == Feed(RegisterOf(0xFFFF), bits[..n])
    ensures var d := ShiftLeft(c);
            RegisterOf(if BitSet(c, 15) != bits[n] then Xor(d, 0x1021) else d) ==
            Feed(RegisterOf(0xFFFF), bits[..n + 1])
  {
    TurnIsStep(c, bits[n]);
    assert bits[..n + 1][..n] == bits[..n];
  }

  lemma ByteBits(m: Memory, i: nat, k: nat)
    requires i < |m| && k < 8
    ensures Bits(m)[8 * i + k] == BitSet(m[i], 7 - k)
  {
  }

  method Crc16Ccitt(buffer: array<Byte>, length: nat) returns (r: Word)
    requires length <= buffer.Length
    ensures RegisterOf(r) == Checksum(buffer[..length])
  {
    ghost var bits := Bits(buffer[..length]);
    var checksum: nat := 0xFFFF;
    for i := 0 to length
      invariant RegisterOf(checksum) == Feed(RegisterOf(0xFFFF), bits[..8 * i])
    {
      for k := 0 to 8
        invariant RegisterOf(checksum) == Feed(RegisterOf(0xFFFF), bits[..8 * i + k])
      {
        var bit := BitSet(buffer[i], 7 - k);
        var c15 := BitSet(checksum, 15);
        ByteBits(buffer[..length], i, k);
        TurnFeeds(checksum, bits, 8 * i + k);
        checksum := ShiftLeft(checksum);
        if c15 != bit {
          checksum := Xor(checksum, 0x1021);
        }
      }
      MaskKeepsRegister(checksum);
      checksum := And(checksum, 0xFFFF);
    }
    assert bits[..8 * length] == bits;
    MaskKeepsRegister(checksum);
    return And(checksum, 0xFFFF);
  }

  // ---- Linearity ----

  function XorBits(a: seq<bool>, b: seq<bool>): (x: seq<bool>)
    requires |a| == |b|
    ensures |x| == |a| && forall i :: 0 <= i < |a| ==> x[i] == (a[i] != b[i])
  {
    seq(|a|, i requires 0 <= i < |a| => a[i] != b[i])
  }

  lemma StepLinear(r: Register, s: Register, a: bool, b: bool)
    ensures Step(XorBits(r, s), a != b) == XorBits(Step(r, a), Step(s, b))
  {
  }

  lemma {:induction false} FeedLinear(r: Register, s: Register, a: seq<bool>, b: seq<bool>)
    requires |a| == |b|
    ensures Feed(XorBits(r, s), XorBits(a, b)) == XorBits(Feed(r, a), Feed(s, b))
    decreases |a|
  {
    if a == [] {
    } else {
      var n := |a| - 1;
      assert XorBits(a, b)[..n] == XorBits(a[..n], b[..n]);
      FeedLinear(r, s, a[..n], b[..n]);
      StepLinear(Feed(r, a[..n]), Feed(s, b[..n]), a[n], b[n]);
    }
  }

  lemma {:induction false} FeedAppend(r: Register, a: seq<bool>, b: seq<bool>)
    ensures Feed(r, a + b) == Feed(Feed(r, a), b)
    decreases |b|
  {
    if b == [] {
      assert a + b == a;
    } else {
      assert (a + b)[..|a + b| - 1] == a + b[..|b| - 1];
      FeedAppend(r, a, b[..|b| - 1]);
    }
  }

  // ---- Bursts ----

  /** A row of at most 16 bits as the top bits of a register. */
  function Align(w: seq<bool>): (r: Register)
    requires |w| <= 16
    ensures forall j :: 0 <= j < 16 ==> r[j] == (15 - j < |w| && w[15 - j])
  {
    seq(16, j requires 0 <= j < 16 => 15 - j < |w| && w[15 - j])
  }

  /** The lowest bit after a step is the bit that the polynomial was added for, so the step can be
      undone: the only register that a step takes to an even y is y / 2 with the bit on top. */
  lemma StepBack(r: Register, bit: bool, y: Register)
    requires !y[0]
    ensures Step(r, bit) == y <==> r[15] == bit && forall j :: 0 <= j < 15 ==> r[j] == y[j + 1]
  {
    if Step(r, bit) == y {
      assert Step(r, bit)[0] == (r[15] != bit);
      forall j | 0 <= j < 15 ensures r[j] == y[j + 1] {
        assert Step(r, bit)[j + 1] == r[j];
      }
    } else if r[15] == bit && forall j :: 0 <= j < 15 ==> r[j] == y[j + 1] {
      forall j | 0 <= j < 16 ensures Step(r, bit)[j] == y[j] {
        if j > 0 { assert r[j - 1] == y[j]; }
      }
    }
  }

  /** Feeding up to 16 bits leads to zero from exactly one register: the one that holds these bits. */
  lemma {:induction false} FeedToZero(r: Register, w: seq<bool>)
    requires |w| <= 16
    ensures Feed(r, w) == ZERO <==> r == Align(w)
    decreases |w|
  {
    if w == [] {
      assert Align(w) == ZERO;
    } else {
      FeedAppend(r, w[..1], w[1..]);
      assert w == w[..1] + w[1..];
      assert Feed(r, w[..1]) == Step(r, w[0]) by { assert w[..1][..0] == []; }
      var y := Align(w[1..]);
      FeedToZero(Step(r, w[0]), w[1..]);
      StepBack(r, w[0], y);
      if r == Align(w) {
        forall j | 0 <= j < 15 ensures r[j] == y[j + 1] {}
      } else if r[15] == w[0] && forall j :: 0 <= j < 15 ==> r[j] == y[j + 1] {
        forall j | 0 <= j < 16 ensures r[j] == Align(w)[j] {
          if j < 15 { assert r[j] == y[j + 1]; }
        }
      }
    }
  }

  /** Zeros never lead from or to the zero register except from itself. */
  lemma {:induction false} FeedZeros(r: Register, bits: seq<bool>)
    requires forall i :: 0 <= i < |bits| ==> !bits[i]
    ensures Feed(r, bits) == ZERO <==> r == ZERO
    decreases |bits|
  {
    if bits == [] {
    } else {
      var n := |bits| - 1;
      FeedZeros(r, bits[..n]);
      var s := Feed(r, bits[..n]);
      StepBack(s, false, ZERO);
      if Step(s, false) == ZERO {
        assert s == ZERO;
      }
    }
  }

  /** Rows of bits that differ, and only within 16 consecutive positions. */
  ghost predicate Burst(a: seq<bool>, b: seq<bool>, p: nat) {
    && |a| == |b| && a != b
    && forall i :: 0 <= i < |a| && a[i] != b[i] ==> p <= i < p + 16
  }

  lemma FeedAround(before: seq<bool>, w: seq<bool>, after: seq<bool>, i: nat)
    requires |w| <= 16 && i < |w| && w[i]
    requires (forall k :: 0 <= k < |before| ==> !before[k]) && (forall k :: 0 <= k < |after| ==> !after[k])
    ensures Feed(ZERO, before + (w + after)) != ZERO
  {
    FeedAppend(ZERO, before, w + after);
    FeedZeros(ZERO, before);
    FeedAppend(ZERO, w, after);
    FeedToZero(ZERO, w);
    assert Align(w)[15 - i];
    FeedZeros(Feed(ZERO, w), after);
  }

  lemma BurstFromZero(x: seq<bool>, p: nat, i: nat)
    requires i < |x| && x[i] && forall k :: 0 <= k < |x| && x[k] ==> p <= k < p + 16
    ensures Feed(ZERO, x) != ZERO
  {
    var e := if p + 16 <= |x| then p + 16 else |x|;
    assert x == x[..p] + (x[p..e] + x[e..]);
    FeedAround(x[..p], x[p..e], x[e..], i - p);
  }

  lemma BurstDetected(r: Register, a: seq<bool>, b: seq<bool>, p: nat)
    requires Burst(a, b, p)
    ensures Feed(r, a) != Feed(r, b)
  {
    var i :| 0 <= i < |a| && a[i] != b[i];
    BurstFromZero(XorBits(a, b), p, i);
    FeedLinear(r, r, a, b);
    XorSame(r);
    XorSame(Feed(r, a));
  }

  lemma XorSame(r: Register)
    ensures XorBits(r, r) == ZERO
  {
  }

  /** Two buffers of equal length that differ only within 16 consecutive bits have different
      checksums. */
  lemma ChecksumDetectsBursts(m: Memory, n: Memory, p: nat)
    requires |m| == |n| && Burst(Bits(m), Bits(n), p)
    ensures Checksum(m) != Checksum(n)
  {
    BurstDetected(RegisterOf(0xFFFF), Bits(m), Bits(n), p);
  }

  // ---- Messages that carry their checksum ----

  /** The acceptance test of the receiver: the last two bytes are the checksum of the others. */
  predicate Intact(m: Memory)
    requires |m| >= 2
  {
    Checksum(m[..|m| - 2]) == RegisterOf(Big(m[|m| - 2], m[|m| - 1]))
  }

  lemma BigBits(hi: Byte, lo: Byte, j: nat)
    requires j < 16
    ensures BitSet(Big(hi, lo), j) == if j < 8 then BitSet(lo, j) else BitSet(hi, j - 8)
  {
    assert Big(hi, lo) == hi * 256 + lo;
    HighPart(hi, lo, 8, j);
  }

  lemma {:induction false} HighPart(hi: nat, lo: nat, k: nat, j: nat)
    requires lo < Pow2(k)
    ensures BitSet(hi * Pow2(k) + lo, j) == if j < k then BitSet(lo, j) else BitSet(hi, j - k)
  {
    var x := hi * Pow2(k) + lo;
    if k == 0 {
    } else {
      var y := hi * Pow2(k - 1) + lo / 2;
      assert x == 2 * (hi * Pow2(k - 1)) + lo;
      assert x / 2 == y && x % 2 == lo % 2;
      if j > 0 {
        HighPart(hi, lo / 2, k - 1, j - 1);
      }
    }
  }

  /** A message is intact exactly when all its bits, checksum included, lead to zero. */
  lemma IntactIsZero(m: Memory)
    requires |m| >= 2
    ensures Intact(m) <==> Feed(RegisterOf(0xFFFF), Bits(m)) == ZERO
  {
    var n := |m| - 2;
    var body, tail := m[..n], m[n..];
    BitsSplit(m, n);
    FeedAppend(RegisterOf(0xFFFF), Bits(body), Bits(tail));
    FeedToZero(Checksum(body), Bits(tail));
    TailAligned(tail);
  }

  lemma BitsSplit(m: Memory, n: nat)
    requires n <= |m|
    ensures Bits(m) == Bits(m[..n]) + Bits(m[n..])
  {
  }

  lemma TailAligned(m: Memory)
    requires |m| == 2
    ensures Align(Bits(m)) == RegisterOf(Big(m[0], m[1]))
  {
    var a, r := Align(Bits(m)), RegisterOf(Big(m[0], m[1]));
    forall j | 0 <= j < 16 ensures a[j] == r[j] {
      TailBit(m, j);
    }
  }

  lemma TailBit(m: Memory, j: nat)
    requires |m| == 2 && j < 16
    ensures Align(Bits(m))[j] == BitSet(Big(m[0], m[1]), j)
  {
    BigBits(m[0], m[1], j);
    var bits := Bits(m);
    assert Align(bits)[j] == bits[15 - j];
    assert bits[15 - j] == if j < 8 then BitSet(m[1], j) else BitSet(m[0], j - 8);
  }

  /** An intact message that is hit by a burst of up to 16 bits, anywhere, is not intact. */
  lemma CorruptionDetected(m: Memory, n: Memory, p: nat)
    requires |m| == |n| >= 2 && Burst(Bits(m), Bits(n), p) && Intact(m)
    ensures !Intact(n)
  {
    IntactIsZero(m);
    IntactIsZero(n);
    BurstDetected(RegisterOf(0xFFFF), Bits(m), Bits(n), p);
  }
}
