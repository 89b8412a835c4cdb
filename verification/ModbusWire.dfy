/** The Modbus TCP client on the wire, byte by byte: which requests it accepts, what it sends for them, and
    how it judges what comes back. */
module ModbusWire {
  import opened Bytes
  import opened ModbusCommon
  import opened ModbusRules
  import opened ServerAnswers

  // ---- What is accepted ----

  /** The limits of sections 6.1-6.6, 6.11, 6.12 and 6.16 of the Modbus application protocol; a mask write has
      two values. */
  predicate WithinLimits(fc: Byte, count: Word) {
    || (fc in {1, 2} && 1 <= count <= 2000)
    || (fc in {3, 4} && 1 <= count <= 125)
    || (fc in {5, 6} && count == 1)
    || (fc == 15 && 1 <= count <= 1968)
    || (fc == 16 && 1 <= count <= 123)
    || (fc == 22 && count == 2)
  }

  /** A request is accepted exactly if its function code and count are within the limits, a single coil is
      0 or 1, and no coil is set behind the last one. */
  lemma AcceptedExactly(q: Request, mem: Memory)
    requires Fits(q, mem)
    ensures CountInRange(q.fc, q.count) <==> WithinLimits(q.fc, q.count)
    ensures Accepts(q, mem) <==>
            && WithinLimits(q.fc, q.count) && (q.fc == 5 ==> mem[0] in {0, 1})
            && (q.fc == 15 ==> NoCoilFrom(mem, q.count, (q.count + 7) / 8))
  {
    assert CountInRange(q.fc, q.count) <==> WithinLimits(q.fc, q.count);
    if q.fc == 15 && WithinLimits(q.fc, q.count) && q.count % 8 != 0 {
      NoStrayCoils(mem, q.count);
    }
  }

  ghost predicate ClearFrom(b: Byte, k: nat) { forall j :: k <= j < 8 ==> !BitSet(b, j) }

  /** No coil from `count` on is set in the first n bytes. */
  ghost predicate NoCoilFrom(mem: Memory, count: nat, n: nat)
    requires n <= |mem|
  {
    forall i :: count <= i < 8 * n ==> !Coil(mem, i)
  }

  /** A byte is below 2^k exactly if its bits from k on are clear. */
  lemma SmallByte(b: Byte, k: nat)
    requires k < 8
    ensures b < Pow2(k) <==> ClearFrom(b, k)
  {
    var m := And(b, Pow2(k) - 1);
    AndMask(b, k);
    SmallPowers();
    forall j | 0 <= j < 8 ensures BitSet(m, j) <==> BitSet(b, j) && j < k {
      AndBit(b, Pow2(k) - 1, j);
      MaskBit(k, j);
    }
    if b < Pow2(k) {
      BelowPower(b, Pow2(k));
      forall j | k <= j < 8 ensures !BitSet(b, j) {
        assert BitSet(m, j) <==> BitSet(b, j) && j < k;
      }
    }
    if ClearFrom(b, k) { BitsDetermine(m, b, 8); }
  }

  lemma BelowPower(b: nat, p: nat)
    requires b < p
    ensures b % p == b
  {
  }

  lemma NoStrayCoils(mem: Memory, count: Word)
    requires 1 <= count && count % 8 != 0 && (count + 7) / 8 <= |mem|
    ensures mem[(count + 7) / 8 - 1] < Pow2(count % 8) <==>
            NoCoilFrom(mem, count, (count + 7) / 8)
  {
    var n := (count + 7) / 8 - 1;
    SmallByte(mem[n], count % 8);
    StrayCoils(mem, count, n);
  }

  lemma StrayCoils(mem: Memory, count: Word, n: nat)
    requires count % 8 != 0 && n == count / 8 && n < |mem|
    ensures ClearFrom(mem[n], count % 8) <==> NoCoilFrom(mem, count, n + 1)
  {
    if NoCoilFrom(mem, count, n + 1) {
      forall j | count % 8 <= j < 8 ensures !BitSet(mem[n], j) {
        assert (8 * n + j) / 8 == n && (8 * n + j) % 8 == j && !Coil(mem, 8 * n + j);
      }
    }
    if ClearFrom(mem[n], count % 8) {
      forall i | count <= i < 8 * (n + 1) ensures !Coil(mem, i) {
        assert i / 8 == n && !BitSet(mem[n], i % 8);
      }
    }
  }

  // ---- What is sent ----

  /** The bytes of a frame: transaction ID, protocol 0, length, unit, payload; all numbers with their high byte
      in front. */
  lemma FrameOnWire(f: Frame)
    requires Sendable(f)
    ensures var m := FrameBytes(f);
            && |m| == 7 + |f.payload| && At(m, 0) == f.transaction && m[2] == 0 && m[3] == 0
            && At(m, 4) == 1 + |f.payload| && m[6] == f.unit && m[7..] == f.payload
    ensures Wire(0x1234) == [0x12, 0x34]
  {
  }

  /** What follows the start address, by function code: the count, the value, the count with a byte count and
      the values, or the two masks. */
  ghost predicate DataOnWire(order: ByteOrder, q: Request, mem: Memory, p: Memory)
    requires Fits(q, mem) && CountInRange(q.fc, q.count) && |p| >= 5
  {
    if q.fc in {1, 2, 3, 4} then |p| == 5 && At(p, 3) == q.count
    else if q.fc == 5 then |p| == 5 && At(p, 3) == if mem[0] != 0 then 0xFF00 else 0
    else if q.fc == 6 then |p| == 5 && At(p, 3) == Register(order, mem, 0)
    else if q.fc == 22 then |p| == 7 && At(p, 3) == Register(order, mem, 0) && At(p, 5) == Register(order, mem, 1)
    else
      && At(p, 3) == q.count && |p| > 5 && |p| - 6 == p[5]
      && (if q.fc == 15 then p[6..] == mem[..(q.count + 7) / 8]
          else p[5] == 2 * q.count && forall i :: 0 <= i < q.count ==> At(p, 6 + 2 * i) == Register(order, mem, i))
  }

  lemma MultipleOnWire(p: Memory, d: Memory, count: Word, values: Memory)
    requires |p| >= 3 && p[3..] == d && |values| < 0x100 && d == MultipleData(count, values)
    ensures |p| == 6 + |values| && At(p, 3) == count && p[5] == |values| && p[6..] == values
  {
    assert d[0] == Hi(count) && d[1] == Lo(count) && d[2] == |values| && d[3..] == values;
    assert p[3] == d[0] && p[4] == d[1] && p[5] == d[2];
    assert p[6..] == d[3..];
  }

  /** Register i among the first n bytes, found in a payload behind `from` bytes. */
  lemma RegisterOnWire(order: ByteOrder, mem: Memory, n: nat, i: nat, p: Memory, from: nat)
    requires n % 2 == 0 && 2 * i + 1 < n <= |mem| && |p| == from + n && p[from..] == Reorder(order, mem[..n])
    ensures At(p, from + 2 * i) == Register(order, mem, i)
  {
    var k := 2 * i;
    ReorderedRegister(order, mem[..n], k);
    assert p[from + k] == p[from..][k] && p[from + k + 1] == p[from..][k + 1];
  }

  lemma WordOnWire(p: Memory, w: Word)
    requires |p| >= 3 && p[3..] == Wire(w)
    ensures |p| == 5 && At(p, 3) == w
  {
    assert p[3] == p[3..][0] && p[4] == p[3..][1];
  }

  lemma RegistersOnWire(order: ByteOrder, q: Request, mem: Memory, p: Memory)
    requires Fits(q, mem) && CountInRange(q.fc, q.count) && q.fc in {6, 22}
    requires |p| >= 3 && p[3..] == Reorder(order, mem[..2 * q.count])
    ensures DataOnWire(order, q, mem, p)
  {
    RegisterOnWire(order, mem, 2 * q.count, 0, p, 3);
    if q.fc == 22 { RegisterOnWire(order, mem, 4, 1, p, 3); }
  }

  lemma MultipleRegistersOnWire(order: ByteOrder, q: Request, mem: Memory, p: Memory)
    requires Fits(q, mem) && CountInRange(q.fc, q.count) && q.fc == 16
    requires |p| >= 3 && p[3..] == MultipleData(q.count, Reorder(order, mem[..2 * q.count]))
    ensures |p| >= 5 && DataOnWire(order, q, mem, p)
  {
    MultipleOnWire(p, p[3..], q.count, Reorder(order, mem[..2 * q.count]));
    forall i | 0 <= i < q.count ensures At(p, 6 + 2 * i) == Register(order, mem, i) {
      RegisterOnWire(order, mem, 2 * q.count, i, p, 6);
    }
  }

  /** The bytes of the payload of a request: function code, start address and data. */
  lemma RequestOnWire(order: ByteOrder, q: Request, mem: Memory, p: Memory)
    requires Fits(q, mem) && CountInRange(q.fc, q.count) && p == RequestPayload(order, q, mem)
    ensures p[0] == q.fc && At(p, 1) == q.start && DataOnWire(order, q, mem, p)
  {
    assert p[3..] == RequestData(order, q, mem);
    if Reads(q.fc) {
      WordOnWire(p, q.count);
    } else if q.fc == 5 {
      WordOnWire(p, CoilWord(mem[0]));
    } else if q.fc == 15 {
      MultipleOnWire(p, p[3..], q.count, mem[..(q.count + 7) / 8]);
    } else if q.fc == 16 {
      MultipleRegistersOnWire(order, q, mem, p);
    } else {
      RegistersOnWire(order, q, mem, p);
    }
  }

  // ---- How a response is judged ----

  /** How many bytes a response to this request has to have. */
  function Needed(fc: Byte, count: Word): nat {
    if fc in {1, 2} then 2 + (count + 7) / 8 else if fc in {3, 4} then 2 + 2 * count else if fc == 22 then 7 else 5
  }

  /** The result for a response: 266 for another unit, 267 for another function, the code of an exception, 275 if
      it is too short, 269 for another byte count; for a write, 270 for another address, 271, 272 or 273 for
      another value, count or AND mask, 274 for another OR mask; 0 otherwise. */
  lemma ResultExactly(order: ByteOrder, q: Request, unit: Byte, p: Memory, mem: Memory)
    requires Fits(q, mem) && WithinLimits(q.fc, q.count) && CountInRange(q.fc, q.count) && |p| >= 2
    ensures Check(order, q, unit, p, mem).result ==
            if unit != q.unit then 266
            else if p[0] != q.fc && p[0] != q.fc + 128 then 267
            else if p[0] == q.fc + 128 then p[1]
            else if |p| < Needed(q.fc, q.count) then 275
            else if q.fc in {1, 2, 3, 4} then if p[1] != Needed(q.fc, q.count) - 2 then 269 else 0
            else if At(p, 1) != q.start then 270
            else if q.fc == 5 then if At(p, 3) != (if mem[0] != 0 then 0xFF00 else 0) then 271 else 0
            else if q.fc == 6 then if At(p, 3) != Register(order, mem, 0) then 271 else 0
            else if q.fc in {15, 16} then if At(p, 3) != q.count then 272 else 0
            else if At(p, 3) != Register(order, mem, 0) then 273
            else if At(p, 5) != Register(order, mem, 1) then 274 else 0
  {
    assert q.fc < 128;
  }

  /** A register on its way from the wire. */
  lemma RegisterTaken(order: ByteOrder, wire: Memory, got: Memory, i: nat)
    requires |wire| % 2 == 0 && got == Reorder(order, wire) && 2 * i + 1 < |wire|
    ensures Register(order, got, i) == At(wire, 2 * i)
  {
    var k := 2 * i;
    assert k % 2 == 0 && (k + 1) % 2 == 1;
  }

  lemma RegistersTaken(order: ByteOrder, p: Memory, n: nat, got: Memory, mem: Memory)
    requires n % 2 == 0 && 2 + n <= |p| && n <= |mem| && got == Reorder(order, p[2..2 + n])
    ensures forall i :: 0 <= 2 * i < n ==> Register(order, got + mem[n..], i) == At(p, 2 + 2 * i)
  {
    forall i | 0 <= 2 * i < n ensures Register(order, got + mem[n..], i) == At(p, 2 + 2 * i) {
      RegisterTaken(order, p[2..2 + n], got, i);
      assert p[2..2 + n][2 * i] == p[2 + 2 * i] && p[2..2 + n][2 * i + 1] == p[2 + 2 * i + 1];
    }
  }

  /** The buffer behind a judgement: only a good response to a read writes to it, the coils or registers of the
      response, and nothing behind them. */
  lemma DataExactly(order: ByteOrder, q: Request, unit: Byte, p: Memory, mem: Memory)
    requires Fits(q, mem) && WithinLimits(q.fc, q.count) && CountInRange(q.fc, q.count) && |p| >= 2
    ensures var j, n := Check(order, q, unit, p, mem), Needed(q.fc, q.count) - 2;
            if !(j.result == 0 && p[0] == q.fc && q.fc in {1, 2, 3, 4}) then j.mem == mem
            else
              && |j.mem| == |mem| && j.mem[n..] == mem[n..] && |p| >= 2 + n
              && (if q.fc in {1, 2} then CoilsReplied(q.count, p[2..2 + n], j.mem[..n])
                  else forall i :: 0 <= i < q.count ==> Register(order, j.mem, i) == At(p, 2 + 2 * i))
  {
    var j, n := Check(order, q, unit, p, mem), Needed(q.fc, q.count) - 2;
    if j.result == 0 && p[0] == q.fc && q.fc in {1, 2, 3, 4} {
      ResultExactly(order, q, unit, p, mem);
      var got := if q.fc in {1, 2} then MaskLast(p[2..2 + n], q.count) else Reorder(order, p[2..2 + n]);
      assert j.mem == got + mem[n..] && j.mem[..n] == got;
      if q.fc in {1, 2} {
        CoilsReturned(q.count, p[2..2 + n], got);
      } else {
        RegistersTaken(order, p, n, got, mem);
      }
    }
  }
}
