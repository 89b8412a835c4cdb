/** What the caller of `transact` asked is what the server's callback sees, and what the callback
    answers is what the caller gets, for every pairing of register byte orders. */
module ModbusEndToEnd {
  import opened Bytes
  import opened ModbusCommon
  import opened ModbusRules

  /** Two memories stand for the same `count` coils or registers. */
  ghost predicate SameValues(coils: bool, count: nat, a: ByteOrder, m: Memory, b: ByteOrder, n: Memory)
    requires coils ==> CoilBytes(count) <= |m| && CoilBytes(count) <= |n|
    requires !coils ==> 2 * count <= |m| && 2 * count <= |n|
  {
    forall i :: 0 <= i < count ==>
      if coils then Coil(m, i) == Coil(n, i) else Register(a, m, i) == Register(b, n, i)
  }

  /** The callback of the server is asked for what the caller of `transact` asked for. */
  ghost predicate Conveys(oc: ByteOrder, q: Request, mem: Memory, os: ByteOrder, c: Call)
    requires Fits(q, mem) && CountInRange(q.fc, q.count)
  {
    && c.unit == q.unit
    && c.fc == (if q.fc == WRITE_SINGLE_COIL then WRITE_MULTIPLE_COILS
                else if q.fc == WRITE_SINGLE_REGISTER then WRITE_MULTIPLE_REGISTERS else q.fc)
    && c.start == q.start
    && c.count == q.count
    && |c.data| == (if Reads(q.fc) then 0 else BufferBytes(q.fc, q.count))
    && (!Reads(q.fc) ==> SameValues(OnCoils(q.fc), q.count, oc, mem, os, c.data))
  }

  lemma RegistersCross(oc: ByteOrder, os: ByteOrder, mem: Memory, n: nat)
    requires 2 * n <= |mem|
    ensures SameValues(false, n, oc, mem, os, Reorder(os, Reorder(oc, mem[..2 * n])))
  {
    forall i | 0 <= i < n
      ensures Register(oc, mem, i) == Register(os, Reorder(os, Reorder(oc, mem[..2 * n])), i)
    {
      ReorderKeepsRegisters(oc, os, mem[..2 * n], i);
    }
  }

  /** A last byte without stray bits survives the server's mask. */
  lemma MaskKeeps(m: Memory, count: Word)
    requires |m| > 0 && m[|m| - 1] < Pow2(count % 8)
    ensures MaskLast(m, count) == m
  {
    var b := m[|m| - 1];
    AndMask(b, count % 8);
    SmallMod(b, Pow2(count % 8));
  }

  lemma SmallMod(b: nat, p: nat)
    requires b < p
    ensures b % p == b
  {
  }

  ghost predicate Reaches(oc: ByteOrder, os: ByteOrder, q: Request, mem: Memory)
    requires Fits(q, mem) && CountInRange(q.fc, q.count)
  {
    var v := Judge(os, q.unit, RequestPayload(oc, q, mem));
    v.Ask? && Conveys(oc, q, mem, os, v.call)
  }

  lemma PayloadFields(oc: ByteOrder, q: Request, mem: Memory)
    requires Fits(q, mem) && CountInRange(q.fc, q.count)
    ensures var p := RequestPayload(oc, q, mem);
            p[0] == q.fc && StartOf(p) == q.start && p[3..] == RequestData(oc, q, mem)
  {
  }

  lemma ReadReachesCallback(oc: ByteOrder, os: ByteOrder, q: Request, mem: Memory)
    requires Fits(q, mem) && CountInRange(q.fc, q.count) && Reads(q.fc)
    ensures Reaches(oc, os, q, mem)
  {
    var p := RequestPayload(oc, q, mem);
    assert p[0] == q.fc && |p| == 5 && StartOf(p) == q.start && CountOf(p) == q.count by {
      PayloadFields(oc, q, mem);
      OneWord(p, q.count);
    }
    assert JudgeRead(q.unit, p) == Ask(Call(q.unit, q.fc, q.start, q.count, []));
  }

  lemma OneWord(p: Memory, w: Word)
    requires |p| >= 3 && p[3..] == Wire(w)
    ensures |p| == 5 && CountOf(p) == w
  {
    assert p[3] == p[3..][0] && p[4] == p[3..][1];
  }

  lemma SingleCoilReachesCallback(oc: ByteOrder, os: ByteOrder, q: Request, mem: Memory)
    requires Fits(q, mem) && Accepts(q, mem) && q.fc == WRITE_SINGLE_COIL
    ensures Reaches(oc, os, q, mem)
  {
    var p := RequestPayload(oc, q, mem);
    assert p[0] == q.fc && |p| == 5 && StartOf(p) == q.start && CountOf(p) == CoilWord(mem[0]) by {
      PayloadFields(oc, q, mem);
      OneWord(p, CoilWord(mem[0]));
    }
    SingleCoilAsked(os, q.unit, p, mem[0]);
    SingleCoilConveyed(oc, os, q, mem, Call(q.unit, WRITE_MULTIPLE_COILS, q.start, 1, [mem[0]]));
  }

  lemma SingleCoilConveyed(oc: ByteOrder, os: ByteOrder, q: Request, mem: Memory, c: Call)
    requires Fits(q, mem) && CountInRange(q.fc, q.count) && q.fc == WRITE_SINGLE_COIL
    requires c == Call(q.unit, WRITE_MULTIPLE_COILS, q.start, 1, [mem[0]])
    ensures Conveys(oc, q, mem, os, c)
  {
    assert SameValues(true, 1, oc, mem, os, c.data);
  }

  lemma SingleCoilAsked(os: ByteOrder, unit: Byte, p: Memory, b: Byte)
    requires |p| == 5 && p[0] == WRITE_SINGLE_COIL && CountOf(p) == CoilWord(b) && b <= 1
    ensures Judge(os, unit, p) == Ask(Call(unit, WRITE_MULTIPLE_COILS, StartOf(p), 1, [b]))
  {
  }

  lemma CoilsReachCallback(oc: ByteOrder, os: ByteOrder, q: Request, mem: Memory)
    requires Fits(q, mem) && Accepts(q, mem) && q.fc == WRITE_MULTIPLE_COILS
    ensures Reaches(oc, os, q, mem)
  {
    PayloadFields(oc, q, mem);
    var p, n := RequestPayload(oc, q, mem), CoilBytes(q.count);
    MultipleFields(p, q.count, mem[..n]);
    if q.count % 8 != 0 {
      MaskKeeps(mem[..n], q.count);
    }
  }

  lemma MultipleFields(p: Memory, count: Word, values: Memory)
    requires |p| >= 3 && |values| < 0x100 && p[3..] == MultipleData(count, values)
    ensures |p| == 6 + |values| && CountOf(p) == count && p[5] == |values| && p[6..] == values
  {
    var d := MultipleData(count, values);
    assert p[3] == d[0] && p[4] == d[1] && p[5] == d[2];
    assert p[6..] == d[3..];
  }

  lemma RegistersReachCallback(oc: ByteOrder, os: ByteOrder, q: Request, mem: Memory)
    requires Fits(q, mem) && CountInRange(q.fc, q.count) && !Reads(q.fc) && !OnCoils(q.fc)
    ensures Reaches(oc, os, q, mem)
  {
    PayloadFields(oc, q, mem);
    var p, n := RequestPayload(oc, q, mem), 2 * q.count;
    RegistersCross(oc, os, mem, q.count);
    var wire := Reorder(oc, mem[..n]);
    if q.fc == WRITE_MULTIPLE_REGISTERS {
      MultipleFields(p, q.count, wire);
    } else {
      assert p[3..3 + n] == wire;
    }
  }

  /** Every accepted request is well formed for the server, and its callback is asked exactly what
      the caller asked. */
  lemma RequestReachesCallback(oc: ByteOrder, os: ByteOrder, q: Request, mem: Memory)
    requires Fits(q, mem) && Accepts(q, mem)
    ensures var v := Judge(os, q.unit, RequestPayload(oc, q, mem));
            v.Ask? && Conveys(oc, q, mem, os, v.call)
  {
    if Reads(q.fc) {
      ReadReachesCallback(oc, os, q, mem);
    } else if q.fc == WRITE_SINGLE_COIL {
      SingleCoilReachesCallback(oc, os, q, mem);
    } else if q.fc == WRITE_MULTIPLE_COILS {
      CoilsReachCallback(oc, os, q, mem);
    } else {
      RegistersReachCallback(oc, os, q, mem);
    }
  }

  // ---- The way back ----

  /** The last byte is masked by the server and by the client; masking twice is masking once. */
  lemma MaskTwice(m: Memory, count: Word)
    requires |m| > 0
    ensures MaskLast(MaskLast(m, count), count) == MaskLast(m, count)
  {
    AndMask(m[|m| - 1], count % 8);
    MaskKeeps(MaskLast(m, count), count);
  }

  /** Coils come back as the callback left them, except that a count divisible by 8 loses the last
      eight: they come back as off. */
  lemma MaskedCoils(data: Memory, got: Memory, count: Word)
    requires 0 < count && |data| == CoilBytes(count) <= |got|
    requires got[..|data|] == MaskLast(data, count)
    ensures SameValues(true, count, Host, got, Host, data) <==> count % 8 != 0 || data[|data| - 1] == 0
  {
    var last, k := |data| - 1, count % 8;
    forall i | 0 <= i < count ensures i / 8 < last || k == 0 || i % 8 < k {}
    forall i | 0 <= i < count && (k != 0 || i / 8 < last) ensures Coil(got, i) == Coil(data, i) {
      assert got[i / 8] == got[..|data|][i / 8];
      if i / 8 == last {
        AndBit(data[last], Pow2(k) - 1, i % 8);
        MaskBit(k, i % 8);
      }
    }
    if k == 0 {
      assert got[last] == got[..|data|][last] == 0;
      forall j: nat { ZeroBits(j); }
      if SameValues(true, count, Host, got, Host, data) {
        forall j | 0 <= j < 8 ensures !BitSet(data[last], j) {
          assert (8 * last + j) / 8 == last && (8 * last + j) % 8 == j;
          assert Coil(got, 8 * last + j) == Coil(data, 8 * last + j);
        }
        SmallPowers();
        BitsDetermine(data[last], 0, 8);
      }
    }
  }

  /** Eight coils that are on arrive as eight coils that are off. */
  lemma EightCoilsLost()
    ensures MaskLast([0xFF], 8) == [0] && !SameValues(true, 8, Host, [0], Host, [0xFF])
  {
    SmallPowers();
    MaskedCoils([0xFF], [0], 8);
  }

  /** The caller gets the exception code as result; only a successful read touches the buffer, in
      exactly the bytes the read covers.  Coils arrive as answered if and only if the last byte is
      not lost to the mask. */
  ghost predicate Delivers(oc: ByteOrder, q: Request, mem: Memory, os: ByteOrder, a: Answer, j: Judgement)
    requires Fits(q, mem) && CountInRange(q.fc, q.count) && |a.data| == ReadBytes(q.fc, q.count)
  {
    var n := |a.data|;
    && j.result == a.code
    && |j.mem| == |mem|
    && (if a.code == SUCCESS && Reads(q.fc) then
          && j.mem[n..] == mem[n..]
          && (SameValues(ReadsCoils(q.fc), q.count, oc, j.mem, os, a.data) <==>
              ReadsRegisters(q.fc) || q.count % 8 != 0 || a.data[n - 1] == 0)
        else j.mem == mem)
  }

  /** The parts of an accepted request `p` that the server's reply and the client's checks rest on. */
  ghost predicate Echoes(oc: ByteOrder, q: Request, mem: Memory, p: Memory)
    requires Fits(q, mem) && CountInRange(q.fc, q.count)
  {
    && |p| >= 5 && p[0] == q.fc && StartOf(p) == q.start
    && CountOf(p) == (if Reads(q.fc) then q.count else EchoedValue(oc, q, mem))
    && (q.fc == MASK_WRITE_REGISTER ==> |p| == 7 && Big(p[5], p[6]) == Register(oc, mem, 1))
  }

  lemma MultipleEchoes(oc: ByteOrder, q: Request, mem: Memory, p: Memory, values: Memory)
    requires Fits(q, mem) && CountInRange(q.fc, q.count)
    requires q.fc == WRITE_MULTIPLE_COILS || q.fc == WRITE_MULTIPLE_REGISTERS
    requires |p| >= 5 && p[0] == q.fc && StartOf(p) == q.start
    requires |values| < 0x100 && p[3..] == MultipleData(q.count, values)
    ensures Echoes(oc, q, mem, p)
  {
    MultipleFields(p, q.count, values);
  }

  lemma RegisterEchoes(oc: ByteOrder, q: Request, mem: Memory, p: Memory)
    requires Fits(q, mem) && CountInRange(q.fc, q.count)
    requires q.fc == WRITE_SINGLE_REGISTER || q.fc == MASK_WRITE_REGISTER
    requires |p| >= 5 && p[0] == q.fc && StartOf(p) == q.start
    requires p[3..] == Reorder(oc, mem[..2 * q.count])
    ensures Echoes(oc, q, mem, p)
  {
    var wire := Reorder(oc, mem[..2 * q.count]);
    assert p[3] == wire[0] && p[4] == wire[1];
    if q.fc == MASK_WRITE_REGISTER {
      assert p[5] == wire[2] && p[6] == wire[3];
    }
  }

  lemma RequestEchoes(oc: ByteOrder, q: Request, mem: Memory, p: Memory)
    requires Fits(q, mem) && CountInRange(q.fc, q.count) && p == RequestPayload(oc, q, mem)
    ensures Echoes(oc, q, mem, p)
  {
    PayloadFields(oc, q, mem);
    if Reads(q.fc) {
      OneWord(p, q.count);
    } else if q.fc == WRITE_SINGLE_COIL {
      OneWord(p, CoilWord(mem[0]));
    } else if q.fc == WRITE_MULTIPLE_COILS {
      MultipleEchoes(oc, q, mem, p, mem[..CoilBytes(q.count)]);
    } else if q.fc == WRITE_MULTIPLE_REGISTERS {
      MultipleEchoes(oc, q, mem, p, Reorder(oc, mem[..2 * q.count]));
    } else {
      RegisterEchoes(oc, q, mem, p);
    }
  }

  lemma EchoJudged(oc: ByteOrder, q: Request, mem: Memory, r: Memory)
    requires Fits(q, mem) && CountInRange(q.fc, q.count) && !Reads(q.fc)
    requires Echoes(oc, q, mem, r)
    ensures Check(oc, q, q.unit, r, mem) == Judgement(0, mem)
  {
  }

  lemma CoilsJudged(oc: ByteOrder, q: Request, mem: Memory, data: Memory, r: Memory)
    requires Fits(q, mem) && CountInRange(q.fc, q.count) && ReadsCoils(q.fc)
    requires |data| == CoilBytes(q.count) && |r| == 2 + |data| && r[0] == q.fc && r[1] == |data|
    requires r[2..] == MaskLast(data, q.count)
    ensures Check(oc, q, q.unit, r, mem) == Judgement(0, MaskLast(data, q.count) + mem[|data|..])
  {
    MaskTwice(data, q.count);
    assert r[2..2 + |data|] == r[2..];
  }

  lemma RegistersJudged(oc: ByteOrder, q: Request, mem: Memory, wire: Memory, r: Memory)
    requires Fits(q, mem) && CountInRange(q.fc, q.count) && ReadsRegisters(q.fc)
    requires |wire| == 2 * q.count && |r| == 2 + |wire| && r[0] == q.fc && r[1] == |wire| && r[2..] == wire
    ensures Check(oc, q, q.unit, r, mem) == Judgement(0, Reorder(oc, wire) + mem[|wire|..])
  {
    assert r[2..2 + |wire|] == r[2..];
  }

  /** The reply to a request `p` as the client judges it. */
  ghost predicate Returns(oc: ByteOrder, os: ByteOrder, q: Request, mem: Memory, p: Memory, a: Answer)
    requires Fits(q, mem) && CountInRange(q.fc, q.count) && |a.data| == ReadBytes(q.fc, q.count)
    requires 5 <= |p| <= MAX_PAYLOAD_LENGTH && Echoes(oc, q, mem, p) && Judge(os, 0, p).Ask?
  {
    Delivers(oc, q, mem, os, a, Check(oc, q, q.unit, ReplyPayload(os, p, a.code, a.data), mem))
  }

  lemma CoilsReturn(oc: ByteOrder, os: ByteOrder, q: Request, mem: Memory, p: Memory, a: Answer)
    requires Fits(q, mem) && CountInRange(q.fc, q.count) && |a.data| == ReadBytes(q.fc, q.count)
    requires 5 <= |p| <= MAX_PAYLOAD_LENGTH && Echoes(oc, q, mem, p) && Judge(os, 0, p).Ask?
    requires ReadsCoils(q.fc) && a.code == SUCCESS
    ensures Returns(oc, os, q, mem, p, a)
  {
    var masked := MaskLast(a.data, q.count);
    var r := ReplyPayload(os, p, a.code, a.data);
    assert r == [q.fc, |a.data|] + masked;
    CoilsJudged(oc, q, mem, a.data, r);
    var got := masked + mem[|a.data|..];
    assert got[..|a.data|] == masked && got[|a.data|..] == mem[|a.data|..];
    MaskedCoils(a.data, got, q.count);
    OrderOfCoils(oc, got, os, a.data, q.count);
  }

  /** The register byte order says nothing about coils. */
  lemma OrderOfCoils(a: ByteOrder, m: Memory, b: ByteOrder, n: Memory, count: nat)
    requires CoilBytes(count) <= |m| && CoilBytes(count) <= |n|
    ensures SameValues(true, count, a, m, b, n) == SameValues(true, count, Host, m, Host, n)
  {
  }

  lemma RegistersReturn(oc: ByteOrder, os: ByteOrder, q: Request, mem: Memory, p: Memory, a: Answer)
    requires Fits(q, mem) && CountInRange(q.fc, q.count) && |a.data| == ReadBytes(q.fc, q.count)
    requires 5 <= |p| <= MAX_PAYLOAD_LENGTH && Echoes(oc, q, mem, p) && Judge(os, 0, p).Ask?
    requires ReadsRegisters(q.fc) && a.code == SUCCESS
    ensures Returns(oc, os, q, mem, p, a)
  {
    var wire := Reorder(os, a.data);
    var r := ReplyPayload(os, p, a.code, a.data);
    assert r == [q.fc, |a.data|] + wire;
    RegistersJudged(oc, q, mem, wire, r);
    var got := Reorder(oc, wire) + mem[|wire|..];
    assert got[|wire|..] == mem[|wire|..];
    forall i | 0 <= i < q.count ensures Register(oc, got, i) == Register(os, a.data, i) {
      ReorderKeepsRegisters(os, oc, a.data, i);
      assert Register(oc, got, i) == Register(oc, Reorder(oc, wire), i);
    }
  }

  lemma WriteReturns(oc: ByteOrder, os: ByteOrder, q: Request, mem: Memory, p: Memory, a: Answer)
    requires Fits(q, mem) && CountInRange(q.fc, q.count) && a.data == []
    requires 5 <= |p| <= MAX_PAYLOAD_LENGTH && Echoes(oc, q, mem, p) && Judge(os, 0, p).Ask?
    requires !Reads(q.fc) && a.code == SUCCESS
    ensures Returns(oc, os, q, mem, p, a)
  {
    var r := ReplyPayload(os, p, a.code, a.data);
    assert Echoes(oc, q, mem, r);
    EchoJudged(oc, q, mem, r);
  }

  lemma ExceptionReturns(oc: ByteOrder, os: ByteOrder, q: Request, mem: Memory, p: Memory, a: Answer)
    requires Fits(q, mem) && CountInRange(q.fc, q.count) && |a.data| == ReadBytes(q.fc, q.count)
    requires 5 <= |p| <= MAX_PAYLOAD_LENGTH && Echoes(oc, q, mem, p) && Judge(os, 0, p).Ask?
    requires a.code != SUCCESS
    ensures Returns(oc, os, q, mem, p, a)
  {
    assert q.fc < 0x80;
  }

  lemma AnswerReachesCaller(oc: ByteOrder, os: ByteOrder, q: Request, mem: Memory, p: Memory, a: Answer)
    requires Fits(q, mem) && CountInRange(q.fc, q.count) && |a.data| == ReadBytes(q.fc, q.count)
    requires 5 <= |p| <= MAX_PAYLOAD_LENGTH && Echoes(oc, q, mem, p) && Judge(os, 0, p).Ask?
    ensures Returns(oc, os, q, mem, p, a)
  {
    if a.code != SUCCESS {
      ExceptionReturns(oc, os, q, mem, p, a);
    } else if ReadsCoils(q.fc) {
      CoilsReturn(oc, os, q, mem, p, a);
    } else if ReadsRegisters(q.fc) {
      RegistersReturn(oc, os, q, mem, p, a);
    } else {
      WriteReturns(oc, os, q, mem, p, a);
    }
  }

  /** The whole exchange: the server never drops the connection over an accepted request, its
      callback is asked what the caller asked, and its answer is what the caller gets. */
  ghost predicate Exchanges(oc: ByteOrder, os: ByteOrder, transaction: Word, q: Request, mem: Memory, a: Answer,
                            s: Served)
    requires Fits(q, mem) && CountInRange(q.fc, q.count) && |a.data| == ReadBytes(q.fc, q.count)
  {
    && s.Done? && s.call.Some? && Conveys(oc, q, mem, os, s.call.value)
    && (if a.code == FORCE_TIMEOUT then s.reply.None?
        else
          && s.reply.Some? && s.reply.value.transaction == transaction && s.reply.value.unit == q.unit
          && MIN_RESPONSE_FRAME_LENGTH <= 1 + |s.reply.value.payload| <= MAX_RESPONSE_FRAME_LENGTH
          && Delivers(oc, q, mem, os, a, Check(oc, q, q.unit, s.reply.value.payload, mem)))
  }

  /** For any request payload that asks what the caller asked. */
  lemma AnswerExchanged(oc: ByteOrder, os: ByteOrder, transaction: Word, q: Request, mem: Memory, p: Memory, a: Answer)
    requires Fits(q, mem) && CountInRange(q.fc, q.count) && |a.data| == ReadBytes(q.fc, q.count)
    requires 5 <= |p| <= MAX_PAYLOAD_LENGTH && Echoes(oc, q, mem, p)
    requires var v := Judge(os, q.unit, p); v.Ask? && Conveys(oc, q, mem, os, v.call)
    ensures Filled(Judge(os, q.unit, p).call, a)
    ensures Exchanges(oc, os, transaction, q, mem, a, Serve(os, Frame(transaction, q.unit, p), a))
  {
    UnitIsFree(os, q.unit, p);
    AnswerReachesCaller(oc, os, q, mem, p, a);
  }

  lemma Exchange(oc: ByteOrder, os: ByteOrder, transaction: Word, q: Request, mem: Memory, a: Answer)
    requires Fits(q, mem) && Accepts(q, mem) && |a.data| == ReadBytes(q.fc, q.count)
    ensures var f := Frame(transaction, q.unit, RequestPayload(oc, q, mem));
            && Judge(os, q.unit, f.payload).Ask? && Filled(Judge(os, q.unit, f.payload).call, a)
            && Exchanges(oc, os, transaction, q, mem, a, Serve(os, f, a))
  {
    RequestReachesCallback(oc, os, q, mem);
    RequestEchoes(oc, q, mem, RequestPayload(oc, q, mem));
    AnswerExchanged(oc, os, transaction, q, mem, RequestPayload(oc, q, mem), a);
  }

  /** The unit does not decide whether a payload is well formed. */
  lemma UnitIsFree(os: ByteOrder, unit: Byte, p: Memory)
    requires |p| >= 5
    ensures Judge(os, 0, p).Ask? == Judge(os, unit, p).Ask?
  {
  }
}
