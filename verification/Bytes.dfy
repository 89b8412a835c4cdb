/** Bytes, 16-bit words and the raw memory behind a C pointer.

    The firmware runs on little-endian machines, so a `uint16_t` in memory is stored low byte
    first and `htons`/`ntohs` swap its two bytes.  Bit masks of the form `(1u << k) - 1` are
    written as remainders by a power of two. */
module Bytes {
  type Byte = x: int | 0 <= x < 0x100
  type Word = x: int | 0 <= x < 0x1_0000
  type Memory = seq<Byte>

  datatype Option<+T> = None | Some(value: T)

  function Hi(w: Word): Byte { w / 256 }

  function Lo(w: Word): Byte { w % 256 }

  /** The word whose network-order bytes are `hi`, `lo`. */
  function Big(hi: Byte, lo: Byte): Word { hi * 256 + lo }

  /** The two wire bytes of a word. */
  function Wire(w: Word): (m: Memory)
    ensures |m| == 2 && Big(m[0], m[1]) == w
  {
    [Hi(w), Lo(w)]
  }

  /** 1u << k. */
  function Pow2(k: nat): (p: nat)
    ensures p > 0
  {
    if k == 0 then 1 else 2 * Pow2(k - 1)
  }

  lemma SmallPowers()
    ensures Pow2(0) == 1 && Pow2(1) == 2 && Pow2(2) == 4 && Pow2(3) == 8
    ensures Pow2(4) == 16 && Pow2(5) == 32 && Pow2(6) == 64 && Pow2(7) == 128 && Pow2(8) == 256
  {
  }

  /** The bitwise `x & m`. */
  function And(x: nat, m: nat): (r: nat)
    ensures r <= x && r <= m
  {
    if x == 0 || m == 0 then 0
    else (if x % 2 == 1 && m % 2 == 1 then 1 else 0) + 2 * And(x / 2, m / 2)
  }

  /** Bit j of x, counted from the least significant one. */
  predicate BitSet(x: nat, j: nat) { if j == 0 then x % 2 == 1 else BitSet(x / 2, j - 1) }

  /** The lowest bit of a number and the others. */
  lemma BitStep(r: nat, low: nat, rest: nat, j: nat)
    requires r == low + 2 * rest && low < 2
    ensures BitSet(r, j) == if j == 0 then low == 1 else BitSet(rest, j - 1)
  {
    assert r % 2 == low && r / 2 == rest;
  }

  /** A bit of `x & m` is set exactly when it is set in both. */
  lemma {:induction false} AndBit(x: nat, m: nat, j: nat)
    ensures BitSet(And(x, m), j) <==> BitSet(x, j) && BitSet(m, j)
  {
    if x == 0 || m == 0 {
      ZeroBits(j);
    } else {
      BitStep(And(x, m), if x % 2 == 1 && m % 2 == 1 then 1 else 0, And(x / 2, m / 2), j);
      if j > 0 { AndBit(x / 2, m / 2, j - 1); }
    }
  }

  lemma {:induction false} ZeroBits(j: nat)
    ensures !BitSet(0, j)
  {
    if j == 0 {
    } else {
      ZeroBits(j - 1);
    }
  }

  /** The bitwise `x ^ y`. */
  function Xor(x: nat, y: nat): nat
    decreases x + y
  {
    if x == 0 then y else if y == 0 then x
    else (if x % 2 != y % 2 then 1 else 0) + 2 * Xor(x / 2, y / 2)
  }

  /** A bit of `x ^ y` is set exactly when it is set in one of them. */
  lemma {:induction false} XorBit(x: nat, y: nat, j: nat)
    ensures BitSet(Xor(x, y), j) <==> BitSet(x, j) != BitSet(y, j)
  {
    if x == 0 || y == 0 {
      ZeroBits(j);
    } else {
      BitStep(Xor(x, y), if x % 2 != y % 2 then 1 else 0, Xor(x / 2, y / 2), j);
      if j > 0 { XorBit(x / 2, y / 2, j - 1); }
    }
  }

  /** Numbers below 2^k with the same low k bits are equal. */
  lemma {:induction false} BitsDetermine(x: nat, y: nat, k: nat)
    requires x < Pow2(k) && y < Pow2(k) && forall j :: 0 <= j < k ==> BitSet(x, j) == BitSet(y, j)
    ensures x == y
  {
    if k == 0 {
    } else {
      assert BitSet(x, 0) == BitSet(y, 0);
      forall j | 0 <= j < k - 1 ensures BitSet(x / 2, j) == BitSet(y / 2, j) {
        assert BitSet(x, j + 1) == BitSet(y, j + 1);
      }
      BitsDetermine(x / 2, y / 2, k - 1);
    }
  }

  /** The mask `(1u << k) - 1` has exactly its low k bits set. */
  lemma {:induction false} MaskBit(k: nat, j: nat)
    ensures BitSet(Pow2(k) - 1, j) <==> j < k
  {
    if k == 0 {
      ZeroBits(j);
    } else {
      assert (Pow2(k) - 1) % 2 == 1 && (Pow2(k) - 1) / 2 == Pow2(k - 1) - 1;
      if j > 0 {
        MaskBit(k - 1, j - 1);
      }
    }
  }

  /** Masking with `(1u << k) - 1` is the remainder by 2^k. */
  lemma {:induction false} AndMask(x: nat, k: nat)
    ensures And(x, Pow2(k) - 1) == x % Pow2(k)
  {
    if k == 0 {
      assert Pow2(k) == 1;
    } else {
      AndMask(x / 2, k - 1);
      AndMaskStep(x, Pow2(k - 1));
    }
  }

  /** One more bit in the mask. */
  lemma AndMaskStep(x: nat, p: nat)
    requires p > 0 && And(x / 2, p - 1) == x / 2 % p
    ensures And(x, 2 * p - 1) == x % (2 * p)
  {
    AndOdd(x, p);
    HalfMod(x, p);
  }

  lemma AndOdd(x: nat, p: nat)
    requires p > 0
    ensures And(x, 2 * p - 1) == x % 2 + 2 * And(x / 2, p - 1)
  {
    assert (2 * p - 1) % 2 == 1 && (2 * p - 1) / 2 == p - 1;
  }

  lemma HalfMod(x: nat, p: nat)
    requires p > 0
    ensures x % (2 * p) == x % 2 + 2 * (x / 2 % p)
  {
    var q, r := x / 2 / p, x / 2 % p;
    assert x == (2 * p) * q + (x % 2 + 2 * r);
    ModUnique(x, 2 * p, q, x % 2 + 2 * r);
  }

  lemma ModUnique(x: nat, m: nat, q: int, r: nat)
    requires m > 0 && x == m * q + r && r < m
    ensures x % m == r
  {
    var q' := x / m;
    assert x == m * q' + x % m;
    assert m * (q - q') == x % m - r;
    if q != q' {
      if q > q' { Grows(m, q - q'); } else { Grows(m, q' - q); }
    }
  }

  lemma Grows(m: nat, d: nat)
    requires d > 0
    ensures m * d >= m
  {
  }
}
