/** The in-place work of the Modbus TCP client on its buffers: building a request from the caller's
    buffer, and checking a response and copying its data into the caller's buffer. */
module ClientCodec {
  import opened Bytes
  import opened ModbusCommon
  import opened ModbusRules
  import opened Buffers

  /** `memcpy` of the next bytes of a message that is built up in an array. */
  method Append(a: array<Byte>, at: nat, data: Memory)
    requires at + |data| <= a.Length
    modifies a
    ensures a[..at + |data|] == old(a[..at]) + data
  {
    Put(a, at, data);
    assert a[..at + |data|] == a[..at] + a[at..at + |data|];
  }

  /** The next n words of a message, taken from the caller's buffer, word by word for Host order. */
  method AppendWords(order: ByteOrder, a: array<Byte>, at: nat, from: array<Byte>, n: nat)
    requires a != from && at + 2 * n <= a.Length && 2 * n <= from.Length
    modifies a
    ensures a[..at + 2 * n] == old(a[..at]) + Reorder(order, from[..2 * n])
  {
    if order == Network {
      Append(a, at, from[..2 * n]);
      return;
    }
    for i := 0 to n
      invariant a[..at + 2 * i] == old(a[..at]) + Reorder(Host, from[..2 * i])
    {
      var word := [from[2 * i + 1], from[2 * i]];
      NextWord(from[..2 * i], from[2 * i], from[2 * i + 1]);
      assert from[..2 * (i + 1)] == from[..2 * i] + [from[2 * i], from[2 * i + 1]];
      Append(a, at + 2 * i, word);
    }
  }

  // ---- Requests ----

  /** What the data of a request is, kind by kind. */
  ghost predicate IsData(order: ByteOrder, q: Request, mem: Memory, data: Memory)
    requires Fits(q, mem) && CountInRange(q.fc, q.count)
  {
    var n := BufferBytes(q.fc, q.count);
    if Reads(q.fc) then data == Wire(q.count)
    else if q.fc == WRITE_SINGLE_COIL then data == Wire(CoilWord(mem[0]))
    else if q.fc == WRITE_MULTIPLE_COILS then data == Wire(q.count) + [n] + mem[..n]
    else if q.fc == WRITE_MULTIPLE_REGISTERS then data == Wire(q.count) + [n] + Reorder(order, mem[..n])
    else data == Reorder(order, mem[..n])
  }

  lemma DataOf(order: ByteOrder, q: Request, mem: Memory)
    requires Fits(q, mem) && CountInRange(q.fc, q.count)
    ensures IsData(order, q, mem, RequestData(order, q, mem))
  {
  }

  /** Builds the part of a request behind the start address; returns its length. */
  method EncodeData(order: ByteOrder, q: Request, buffer: array<Byte>, frame: array<Byte>, ghost mem: Memory,
                    ghost data: Memory)
    returns (length: nat)
    requires Fits(q, mem) && CountInRange(q.fc, q.count) && mem == buffer[..] && frame != buffer && frame.Length == 259
    requires IsData(order, q, mem, data)
    modifies frame
    ensures length == |data| && frame[..10 + length] == old(frame[..10]) + data
  {
    if Reads(q.fc) {
      length := EncodeWord(q.count, frame, data);
    } else if q.fc == WRITE_SINGLE_COIL {
      var b := buffer[0];
      assert b == mem[0];
      length := EncodeWord(CoilWord(b), frame, data);
    } else {
      length := EncodeBuffer(order, q, buffer, frame, mem, data);
    }
  }

  /** The same for the requests that carry words or coils of the caller's buffer. */
  method EncodeBuffer(order: ByteOrder, q: Request, buffer: array<Byte>, frame: array<Byte>, ghost mem: Memory,
                      ghost data: Memory)
    returns (length: nat)
    requires Fits(q, mem) && CountInRange(q.fc, q.count) && mem == buffer[..] && frame != buffer && frame.Length == 259
    requires IsData(order, q, mem, data) && !Reads(q.fc) && q.fc != WRITE_SINGLE_COIL
    modifies frame
    ensures length == |data| && frame[..10 + length] == old(frame[..10]) + data
  {
    if q.fc == WRITE_MULTIPLE_COILS {
      length := EncodeCoils(q.count, buffer, frame, mem, data);
    } else if q.fc == WRITE_MULTIPLE_REGISTERS {
      length := EncodeRegisters(order, q.count, buffer, frame, mem, data);
    } else {
      length := EncodeWords(order, q.count, buffer, frame, mem, data);
    }
  }

  method EncodeWord(w: Word, frame: array<Byte>, ghost data: Memory) returns (length: nat)
    requires frame.Length == 259 && data == Wire(w)
    modifies frame
    ensures length == |data| && frame[..10 + length] == old(frame[..10]) + data
  {
    Append(frame, 10, Wire(w));
    length := 2;
  }

  method EncodeWords(order: ByteOrder, count: Word, buffer: array<Byte>, frame: array<Byte>, ghost mem: Memory,
                     ghost data: Memory)
    returns (length: nat)
    requires 1 <= count <= 2 && 2 * count <= buffer.Length && frame != buffer && frame.Length == 259
    requires mem == buffer[..] && data == Reorder(order, mem[..2 * count])
    modifies frame
    ensures length == |data| && frame[..10 + length] == old(frame[..10]) + data
  {
    length := 2 * count;
    AppendWords(order, frame, 10, buffer, count);
  }

  method EncodeCoils(count: Word, buffer: array<Byte>, frame: array<Byte>, ghost mem: Memory, ghost data: Memory)
    returns (length: nat)
    requires 1 <= count <= 1968 && CoilBytes(count) <= buffer.Length && frame != buffer && frame.Length == 259
    requires mem == buffer[..] && data == Wire(count) + [CoilBytes(count)] + mem[..CoilBytes(count)]
    modifies frame
    ensures length == |data| && frame[..10 + length] == old(frame[..10]) + data
  {
    var n := (count + 7) / 8;
    ghost var head, word := frame[..10], Wire(count);
    Append(frame, 10, Wire(count));
    Append(frame, 12, [n]);
    Append(frame, 13, buffer[..n]);
    Regroup(head, word, [n], mem[..n]);
    length := 3 + n;
  }

  method EncodeRegisters(order: ByteOrder, count: Word, buffer: array<Byte>, frame: array<Byte>, ghost mem: Memory,
                         ghost data: Memory)
    returns (length: nat)
    requires 1 <= count <= 123 && 2 * count <= buffer.Length && frame != buffer && frame.Length == 259
    requires mem == buffer[..] && data == Wire(count) + [2 * count] + Reorder(order, mem[..2 * count])
    modifies frame
    ensures length == |data| && frame[..10 + length] == old(frame[..10]) + data
  {
    ghost var head, word, values := frame[..10], Wire(count), Reorder(order, mem[..2 * count]);
    Append(frame, 10, Wire(count));
    Append(frame, 12, [2 * count]);
    ghost var start := frame[..13];
    assert start == head + word + [2 * count];
    AppendWords(order, frame, 13, buffer, count);
    Regroup(head, word, [2 * count], values);
    length := 3 + 2 * count;
  }

  lemma Regroup(a: Memory, b: Memory, c: Memory, d: Memory)
    ensures a + b + c + d == a + (b + c + d)
  {
  }

  /** The request frame that tick_hook sends. */
  method EncodeRequest(order: ByteOrder, q: Request, wireId: Word, buffer: array<Byte>)
    returns (frame: array<Byte>, length: nat)
    requires Fits(q, buffer[..]) && CountInRange(q.fc, q.count)
    ensures fresh(frame) && length <= frame.Length
    ensures frame[..length] == FrameBytes(Frame(wireId, q.unit, RequestPayload(order, q, buffer[..])))
  {
    ghost var mem := buffer[..];
    ghost var data := RequestData(order, q, mem);
    DataOf(order, q, mem);
    FrameOf(wireId, q.unit, RequestPayload(order, q, mem), q.fc, Wire(q.start), data);
    frame, length := EncodeParts(order, q, wireId, buffer, mem, data);
  }

  method EncodeParts(order: ByteOrder, q: Request, wireId: Word, buffer: array<Byte>, ghost mem: Memory,
                     ghost data: Memory)
    returns (frame: array<Byte>, length: nat)
    requires Fits(q, mem) && CountInRange(q.fc, q.count) && mem == buffer[..] && |data| <= 249
    requires IsData(order, q, mem, data)
    ensures fresh(frame) && length <= frame.Length
    ensures frame[..length] == Wire(wireId) + [0, 0] + Wire(4 + |data|) + [q.unit] + ([q.fc] + Wire(q.start) + data)
  {
    frame := new Byte[259];
    ghost var head := EncodeHead(q, wireId, frame);
    var dataLength := EncodeData(order, q, buffer, frame, mem, data);
    length := 10 + dataLength;
    Finish(frame, length, Wire(wireId), q.unit, q.fc, Wire(q.start), data);
  }

  /** Fills in the frame length. */
  method Finish(frame: array<Byte>, length: nat, ghost id: Memory, ghost unit: Byte, ghost fc: Byte,
                ghost start: Memory, ghost data: Memory)
    requires |id| == |start| == 2 && length == 10 + |data| <= frame.Length && |data| <= 249
    requires frame[..length] == id + [0, 0] + [0, 0] + [unit] + ([fc] + start) + data
    modifies frame
    ensures frame[..length] == id + [0, 0] + Wire(4 + |data|) + [unit] + ([fc] + start + data)
  {
    ghost var m := frame[..length];
    FillLength(frame, length, length - 6);
    Assembled(id, [0, 0], Wire(4 + |data|), unit, fc, start, data, m, frame[..length]);
  }

  method FillLength(frame: array<Byte>, length: nat, frameLength: Word)
    requires 10 <= length <= frame.Length
    modifies frame
    ensures frame[..length][..4] == old(frame[..length][..4]) && frame[..length][6..] == old(frame[..length][6..])
    ensures frame[..length][4..6] == Wire(frameLength)
  {
    frame[4], frame[5] := Hi(frameLength), Lo(frameLength);
  }

  /** Header and start address, with the frame length still to be filled in. */
  method EncodeHead(q: Request, wireId: Word, frame: array<Byte>) returns (ghost head: Memory)
    requires frame.Length == 259
    modifies frame
    ensures head == frame[..10] == Wire(wireId) + [0, 0] + [0, 0] + [q.unit] + ([q.fc] + Wire(q.start))
  {
    Append(frame, 0, Wire(wireId));
    Append(frame, 2, [0, 0]);
    Append(frame, 4, [0, 0]);
    Append(frame, 6, [q.unit]);
    Append(frame, 7, [q.fc] + Wire(q.start));
    head := frame[..10];
  }

  /** The frame length is filled in at last. */
  lemma Assembled(id: Memory, zeros: Memory, length: Memory, unit: Byte, fc: Byte, start: Memory, data: Memory,
                  m: Memory, r: Memory)
    requires |id| == |zeros| == |length| == |start| == 2
    requires m == id + zeros + zeros + [unit] + ([fc] + start) + data
    requires |r| == |m| && r[..4] == m[..4] && r[4..6] == length && r[6..] == m[6..]
    ensures r == id + zeros + length + [unit] + ([fc] + start + data)
  {
    assert r == r[..4] + r[4..6] + r[6..];
    assert m[..4] == id + zeros;
    assert m[6..] == [unit] + ([fc] + start) + data;
  }

  lemma FrameOf(wireId: Word, unit: Byte, payload: Memory, fc: Byte, start: Memory, data: Memory)
    requires payload == [fc] + start + data && |start| == 2 && |payload| <= MAX_PAYLOAD_LENGTH
    ensures FrameBytes(Frame(wireId, unit, payload)) == Wire(wireId) + [0, 0] + Wire(4 + |data|) + [unit]
            + ([fc] + start + data)
    ensures 3 + |data| == 1 + |payload| - 1 && |data| <= 249
  {
  }

  // ---- Responses ----

  lemma SubSlice(m: Memory, used: nat, a: nat, b: nat)
    requires a <= b <= used <= |m|
    ensures m[..used][a..b] == m[a..b]
  {
  }

  /** The data of a coil response; the last byte is masked whatever the count is. */
  method CopyCoils(q: Request, payload: array<Byte>, buffer: array<Byte>)
    requires ReadsCoils(q.fc) && CountInRange(q.fc, q.count) && payload != buffer
    requires CoilBytes(q.count) <= buffer.Length && 2 + CoilBytes(q.count) <= payload.Length
    requires payload[1] == CoilBytes(q.count)
    modifies buffer
    ensures var n := CoilBytes(q.count);
            buffer[..] == MaskLast(payload[2..2 + n], q.count) + old(buffer[..])[n..]
  {
    var n := payload[1];
    ghost var was, copied := buffer[..], payload[2..2 + n];
    Put(buffer, 0, payload[2..2 + n]);
    assert buffer[..n] == copied && buffer[n..] == was[n..];
    buffer[n - 1] := And(buffer[n - 1], Pow2(q.count % 8) - 1);
    assert buffer[..n] == MaskLast(copied, q.count) && buffer[n..] == was[n..];
    assert buffer[..] == buffer[..n] + buffer[n..];
  }

  /** The data of a register response, word by word for Host order. */
  method CopyRegisters(order: ByteOrder, q: Request, payload: array<Byte>, buffer: array<Byte>)
    requires ReadsRegisters(q.fc) && CountInRange(q.fc, q.count) && payload != buffer
    requires 2 * q.count <= buffer.Length && 2 + 2 * q.count <= payload.Length
    modifies buffer
    ensures var n := 2 * q.count;
            buffer[..] == Reorder(order, payload[2..2 + n]) + old(buffer[..])[n..]
  {
    var n := 2 * q.count;
    if order == Network {
      Put(buffer, 0, payload[2..2 + n]);
      assert buffer[..] == buffer[..n] + buffer[n..];
    } else {
      SwapInto(q.count, payload, buffer, payload[2..2 + n], buffer[..]);
      assert buffer[..] == buffer[..n] + buffer[n..];
    }
  }

  method SwapInto(count: nat, payload: array<Byte>, buffer: array<Byte>, ghost wire: Memory, ghost was: Memory)
    requires payload != buffer && 2 * count <= buffer.Length && 2 + 2 * count <= payload.Length
    requires wire == payload[2..2 + 2 * count] && was == buffer[..]
    modifies buffer
    ensures buffer[..2 * count] == Reorder(Host, wire) && buffer[2 * count..] == was[2 * count..]
  {
    for i := 0 to count
      invariant buffer[..2 * i] == Reorder(Host, wire[..2 * i]) && buffer[2 * i..] == was[2 * i..]
    {
      var word := [payload[2 + 2 * i + 1], payload[2 + 2 * i]];
      NextWord(wire[..2 * i], wire[2 * i], wire[2 * i + 1]);
      assert wire[..2 * (i + 1)] == wire[..2 * i] + [wire[2 * i], wire[2 * i + 1]];
      CopyWord(buffer, 2 * i, word, was);
    }
    assert wire[..2 * count] == wire;
  }

  method CopyWord(buffer: array<Byte>, at: nat, word: Memory, ghost was: Memory)
    requires at + 2 <= buffer.Length == |was| && |word| == 2 && buffer[at..] == was[at..]
    modifies buffer
    ensures buffer[..at + 2] == old(buffer[..at]) + word && buffer[at + 2..] == was[at + 2..]
  {
    assert was[at + 2..] == was[at..][2..];
    buffer[at], buffer[at + 1] := word[0], word[1];
  }

  /** The checks of a write response, which has to echo the request. */
  method CheckEcho(order: ByteOrder, q: Request, payload: array<Byte>, used: nat, buffer: array<Byte>)
    returns (result: Result)
    requires Fits(q, buffer[..]) && CountInRange(q.fc, q.count) && !Reads(q.fc)
    requires ExpectedLength(q) <= used <= payload.Length && payload[0] == q.fc
    ensures Judgement(result, buffer[..]) == Check(order, q, q.unit, payload[..used], buffer[..])
  {
    ghost var p, mem := payload[..used], buffer[..];
    assert q.fc < 0x80 && p[1] == payload[1] && p[2] == payload[2] && p[3] == payload[3] && p[4] == payload[4];
    if WordAt(payload, 1) != q.start { return RESPONSE_START_ADDRESS_MISMATCH; }
    if WritesSingle(q.fc) {
      var expected := if q.fc == WRITE_SINGLE_REGISTER then Register(order, buffer[..], 0)
                      else if buffer[0] != 0 then 0xFF00 else 0;
      return if WordAt(payload, 3) != expected then RESPONSE_DATA_VALUE_MISMATCH else 0;
    }
    if q.fc != MASK_WRITE_REGISTER {
      return if WordAt(payload, 3) != q.count then RESPONSE_DATA_COUNT_MISMATCH else 0;
    }
    if WordAt(payload, 3) != Register(order, buffer[..], 0) { return RESPONSE_AND_MASK_MISMATCH; }
    assert p[5] == payload[5] && p[6] == payload[6];
    if WordAt(payload, 5) != Register(order, buffer[..], 1) { return RESPONSE_OR_MASK_MISMATCH; }
    return 0;
  }

  /** The checks of a read response, and the copying. */
  method CheckRead(order: ByteOrder, q: Request, payload: array<Byte>, used: nat, buffer: array<Byte>)
    returns (result: Result)
    requires Fits(q, buffer[..]) && CountInRange(q.fc, q.count) && payload != buffer && Reads(q.fc)
    requires ExpectedLength(q) <= used <= payload.Length && payload[0] == q.fc
    modifies buffer
    ensures Judgement(result, buffer[..]) == Check(order, q, q.unit, payload[..used], old(buffer[..]))
  {
    var n := if ReadsCoils(q.fc) then (q.count + 7) / 8 else 2 * q.count;
    ghost var p, mem := payload[..used], buffer[..];
    ghost var wire := p[2..2 + n];
    assert p[0] == payload[0] && p[1] == payload[1];
    ReadChecked(order, q, p, mem, n, wire);
    SubSlice(payload[..], used, 2, 2 + n);
    if payload[1] != n { return RESPONSE_BYTE_COUNT_MISMATCH; }
    CopyData(order, q, payload, n, wire, buffer);
    return 0;
  }

  /** Copies what was read. */
  method CopyData(order: ByteOrder, q: Request, payload: array<Byte>, n: nat, ghost wire: Memory, buffer: array<Byte>)
    requires Fits(q, buffer[..]) && CountInRange(q.fc, q.count) && payload != buffer && Reads(q.fc)
    requires n == ReadBytes(q.fc, q.count) && 2 + n <= payload.Length && wire == payload[2..2 + n]
    requires ReadsCoils(q.fc) ==> payload[1] == n
    modifies buffer
    ensures buffer[..] == (if ReadsCoils(q.fc) then MaskLast(wire, q.count)
                           else Reorder(order, wire)) + old(buffer[..])[n..]
  {
    if ReadsCoils(q.fc) {
      CopyCoils(q, payload, buffer);
    } else {
      CopyRegisters(order, q, payload, buffer);
    }
  }

  lemma ReadChecked(order: ByteOrder, q: Request, p: Memory, mem: Memory, n: nat, wire: Memory)
    requires Fits(q, mem) && CountInRange(q.fc, q.count) && Reads(q.fc) && n == ReadBytes(q.fc, q.count)
    requires |p| >= 2 + n && p[0] == q.fc && wire == p[2..2 + n]
    ensures Check(order, q, q.unit, p, mem) ==
            if p[1] != n then Judgement(RESPONSE_BYTE_COUNT_MISMATCH, mem)
            else Judgement(0, (if ReadsCoils(q.fc) then MaskLast(wire, q.count) else Reorder(order, wire)) + mem[n..])
  {
    assert q.fc < 0x80;
  }

  /** How the client judges a response for its pending transaction, and what it copies. */
  method CheckResponse(order: ByteOrder, q: Request, unit: Byte, payload: array<Byte>, used: nat, buffer: array<Byte>)
    returns (result: Result)
    requires Fits(q, buffer[..]) && CountInRange(q.fc, q.count) && payload != buffer
    requires 2 <= used <= payload.Length
    modifies buffer
    ensures Judgement(result, buffer[..]) == Check(order, q, unit, payload[..used], old(buffer[..]))
  {
    ghost var p := payload[..used];
    assert p[0] == payload[0] && p[1] == payload[1];
    if unit != q.unit { return RESPONSE_UNIT_ID_MISMATCH; }
    if payload[0] % 0x80 != q.fc { return RESPONSE_FUNCTION_CODE_MISMATCH; }
    if payload[0] >= 0x80 { return payload[1]; }
    var expectedLength := if Reads(q.fc) then 2 + ReadBytes(q.fc, q.count)
                          else if q.fc == MASK_WRITE_REGISTER then 7 else 5;
    if used < expectedLength { return RESPONSE_SHORTER_THAN_EXPECTED; }
    if Reads(q.fc) {
      result := CheckRead(order, q, payload, used, buffer);
    } else {
      result := CheckEcho(order, q, payload, used, buffer);
    }
  }
}
