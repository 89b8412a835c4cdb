/** In-place work on byte buffers. */
module Buffers {
  import opened Bytes
  import opened ModbusCommon

  /** `ntohs` of the word stored at an offset. */
  function WordAt(a: array<Byte>, at: nat): Word
    reads a
    requires at + 1 < a.Length
  {
    Big(a[at], a[at + 1])
  }

  /** `memcpy` of a run of bytes to an offset. */
  method Put(a: array<Byte>, at: nat, data: Memory)
    requires at + |data| <= a.Length
    modifies a
    ensures a[..at] == old(a[..at]) && a[at..at + |data|] == data && a[at + |data|..] == old(a[at + |data|..])
  {
    for i := 0 to |data|
      invariant forall k :: 0 <= k < a.Length ==>
        a[k] == if at <= k < at + i then data[k - at] else old(a[k])
    {
      a[at + i] := data[i];
    }
  }

  /** The next word of a memory in Host order. */
  lemma NextWord(m: Memory, a: Byte, b: Byte)
    requires |m| % 2 == 0
    ensures Reorder(Host, m + [a, b]) == Reorder(Host, m) + [b, a]
  {
  }

  /** Swaps the two bytes of each of n words in place. */
  method SwapWords(a: array<Byte>, at: nat, n: nat)
    requires at + 2 * n <= a.Length
    modifies a
    ensures a[..at] == old(a[..at]) && a[at + 2 * n..] == old(a[at + 2 * n..])
    ensures a[at..at + 2 * n] == Reorder(Host, old(a[at..at + 2 * n]))
  {
    ghost var m := a[at..at + 2 * n];
    for i := 0 to n
      invariant a[..at] == old(a[..at]) && a[at + 2 * i..] == old(a[at + 2 * i..])
      invariant a[at..at + 2 * i] == Reorder(Host, m[..2 * i])
    {
      ghost var rest := a[at + 2 * i..];
      assert m[2 * i] == rest[0] && m[2 * i + 1] == rest[1];
      SwapNext(a, at, i, m);
      assert a[at + 2 * (i + 1)..] == rest[2..] == old(a[at + 2 * i..])[2..] == old(a[at + 2 * (i + 1)..]);
    }
    assert m[..2 * n] == m;
  }

  /** One more word of a memory m of which i words are swapped. */
  method SwapNext(a: array<Byte>, at: nat, i: nat, ghost m: Memory)
    requires at + 2 * i + 2 <= a.Length && 2 * i + 2 <= |m|
    requires a[at..at + 2 * i] == Reorder(Host, m[..2 * i])
    requires a[at + 2 * i] == m[2 * i] && a[at + 2 * i + 1] == m[2 * i + 1]
    modifies a
    ensures a[..at] == old(a[..at]) && a[at + 2 * (i + 1)..] == old(a[at + 2 * (i + 1)..])
    ensures a[at..at + 2 * (i + 1)] == Reorder(Host, m[..2 * (i + 1)])
  {
    NextWord(m[..2 * i], m[2 * i], m[2 * i + 1]);
    assert m[..2 * (i + 1)] == m[..2 * i] + [m[2 * i], m[2 * i + 1]];
    ghost var before := a[..at + 2 * i];
    assert before[..at] == a[..at] && before[at..] == a[at..at + 2 * i];
    SwapWord(a, at + 2 * i);
    assert a[..at] == before[..at] && a[at..at + 2 * i] == before[at..];
    assert a[at..at + 2 * (i + 1)] == a[at..at + 2 * i] + [a[at + 2 * i], a[at + 2 * i + 1]];
  }

  method SwapWord(a: array<Byte>, at: nat)
    requires at + 2 <= a.Length
    modifies a
    ensures a[..at] == old(a[..at]) && a[at + 2..] == old(a[at + 2..])
    ensures a[at] == old(a[at + 1]) && a[at + 1] == old(a[at])
  {
    a[at], a[at + 1] := a[at + 1], a[at];
  }
}
