/** What the Modbus TCP client and server compute on complete frames: which transactions the
    client accepts, how it encodes them, how the server answers, how the client judges an answer. */
module ModbusRules {
  import opened Bytes
  import opened ModbusCommon

  // ---- The request side of the client ----

  /** The arguments of `transact` that end up on the wire. */
  datatype Request = Request(unit: Byte, fc: Byte, start: Word, count: Word)

  predicate CountInRange(fc: Byte, count: Word) {
    if ReadsCoils(fc) then 1 <= count <= 2000
    else if ReadsRegisters(fc) then 1 <= count <= 125
    else if WritesSingle(fc) then count == 1
    else if fc == WRITE_MULTIPLE_COILS then 1 <= count <= 1968
    else if fc == WRITE_MULTIPLE_REGISTERS then 1 <= count <= 123
    else fc == MASK_WRITE_REGISTER && count == 2
  }

  /** How many bytes of the caller's buffer the transaction reads or fills. */
  function BufferBytes(fc: Byte, count: Word): nat {
    if OnCoils(fc) then CoilBytes(count) else 2 * count
  }

  /** The caller's buffer is large enough for the request. */
  predicate Fits(q: Request, mem: Memory) {
    CountInRange(q.fc, q.count) ==> BufferBytes(q.fc, q.count) <= |mem|
  }

  /** The argument check of `transact`: counts within the limits and no stray coil bits. */
  predicate Accepts(q: Request, mem: Memory)
    requires Fits(q, mem)
  {
    && CountInRange(q.fc, q.count)
    && (q.fc == WRITE_SINGLE_COIL ==> mem[0] <= 1)
    && (q.fc == WRITE_MULTIPLE_COILS && q.count % 8 != 0 ==>
          mem[CoilBytes(q.count) - 1] < Pow2(q.count % 8))
  }

  /** The data value of a single coil. */
  function CoilWord(b: Byte): Word { if b != 0 then 0xFF00 else 0 }

  /** The data of a multiple write: count, byte count and values. */
  function MultipleData(count: Word, values: Memory): (d: Memory)
    requires |values| < 0x100
    ensures |d| == 3 + |values|
  {
    Wire(count) + [|values|] + values
  }

  /** What follows the start address in the request that `tick_hook` sends. */
  function RequestData(order: ByteOrder, q: Request, mem: Memory): (d: Memory)
    requires Fits(q, mem) && CountInRange(q.fc, q.count)
    ensures 2 <= |d| <= 249
  {
    var n := BufferBytes(q.fc, q.count);
    if Reads(q.fc) then Wire(q.count)
    else if q.fc == WRITE_SINGLE_COIL then Wire(CoilWord(mem[0]))
    else if q.fc == WRITE_MULTIPLE_COILS then MultipleData(q.count, mem[..n])
    else if q.fc == WRITE_MULTIPLE_REGISTERS then MultipleData(q.count, Reorder(order, mem[..n]))
    else Reorder(order, mem[..n])
  }

  /** The payload that `tick_hook` sends. */
  function RequestPayload(order: ByteOrder, q: Request, mem: Memory): (p: Memory)
    requires Fits(q, mem) && CountInRange(q.fc, q.count)
    ensures 5 <= |p| <= MAX_PAYLOAD_LENGTH
  {
    [q.fc] + Wire(q.start) + RequestData(order, q, mem)
  }

  // ---- The server ----

  /** The arguments of the request callback; `data` is the memory behind `data_values`, left out
      for reads, where the callback fills it. */
  datatype Call = Call(unit: Byte, fc: Byte, start: Word, count: Word, data: Memory)

  /** What the callback returns, and the memory behind `data_values` afterwards. */
  datatype Answer = Answer(code: Byte, data: Memory)

  /** What the server makes of a payload before it involves the callback. */
  datatype Verdict = Malformed | Refuse(code: Byte) | Ask(call: Call)

  /** How many bytes the callback of a read has to fill. */
  function ReadBytes(fc: Byte, count: Word): nat {
    if ReadsCoils(fc) then CoilBytes(count) else if ReadsRegisters(fc) then 2 * count else 0
  }

  function StartOf(p: Memory): Word requires |p| >= 5 { Big(p[1], p[2]) }

  function CountOf(p: Memory): Word requires |p| >= 5 { Big(p[3], p[4]) }

  /** Clears the bits of the last byte from bit `count % 8` on; with nothing to keep when the
      count is a multiple of 8. */
  function MaskLast(m: Memory, count: Word): (r: Memory)
    requires |m| > 0
    ensures |r| == |m|
  {
    m[|m| - 1 := And(m[|m| - 1], Pow2(count % 8) - 1)]
  }

  function JudgeRead(unit: Byte, p: Memory): Verdict
    requires |p| >= 5
  {
    if |p| != 5 then Malformed
    else if !(1 <= CountOf(p) <= if ReadsCoils(p[0]) then 2000 else 125) then Refuse(ILLEGAL_DATA_VALUE)
    else Ask(Call(unit, p[0], StartOf(p), CountOf(p), []))
  }

  function JudgeWriteSingleCoil(unit: Byte, p: Memory): Verdict
    requires |p| >= 5
  {
    var value := CountOf(p);
    if |p| != 5 then Malformed
    else if value != 0 && value != 0xFF00 then Refuse(ILLEGAL_DATA_VALUE)
    else Ask(Call(unit, WRITE_MULTIPLE_COILS, StartOf(p), 1, if value == 0xFF00 then [1] else [0]))
  }

  function JudgeWriteSingleRegister(order: ByteOrder, unit: Byte, p: Memory): Verdict
    requires |p| >= 5
  {
    if |p| != 5 then Malformed
    else Ask(Call(unit, WRITE_MULTIPLE_REGISTERS, StartOf(p), 1, Reorder(order, p[3..5])))
  }

  function JudgeWriteCoils(unit: Byte, p: Memory): Verdict
    requires |p| >= 5
  {
    var count := CountOf(p);
    if |p| < 7 then Malformed
    else if !(1 <= count <= 1968) || p[5] != CoilBytes(count) then Refuse(ILLEGAL_DATA_VALUE)
    else if |p| != 6 + p[5] then Malformed
    else Ask(Call(unit, p[0], StartOf(p), count, if count % 8 != 0 then MaskLast(p[6..], count) else p[6..]))
  }

  function JudgeWriteRegisters(order: ByteOrder, unit: Byte, p: Memory): Verdict
    requires |p| >= 5
  {
    var count := CountOf(p);
    if |p| < 8 then Malformed
    else if !(1 <= count <= 123) || p[5] != 2 * count then Refuse(ILLEGAL_DATA_VALUE)
    else if |p| != 6 + p[5] then Malformed
    else Ask(Call(unit, p[0], StartOf(p), count, Reorder(order, p[6..])))
  }

  function JudgeMaskWrite(order: ByteOrder, unit: Byte, p: Memory): Verdict
    requires |p| >= 5
  {
    if |p| != 7 then Malformed
    else Ask(Call(unit, p[0], StartOf(p), 2, Reorder(order, p[3..7])))
  }

  function Judge(order: ByteOrder, unit: Byte, p: Memory): Verdict
    requires |p| >= 5
  {
    if Reads(p[0]) then JudgeRead(unit, p)
    else if p[0] == WRITE_SINGLE_COIL then JudgeWriteSingleCoil(unit, p)
    else if p[0] == WRITE_SINGLE_REGISTER then JudgeWriteSingleRegister(order, unit, p)
    else if p[0] == WRITE_MULTIPLE_COILS then JudgeWriteCoils(unit, p)
    else if p[0] == WRITE_MULTIPLE_REGISTERS then JudgeWriteRegisters(order, unit, p)
    else if p[0] == MASK_WRITE_REGISTER then JudgeMaskWrite(order, unit, p)
    else Refuse(ILLEGAL_FUNCTION)
  }

  /** The function code of an exception response: `fc | 0x80`. */
  function Flagged(fc: Byte): Byte { if fc < 0x80 then fc + 0x80 else fc }

  /** The response payload for a request that was not malformed, given the exception code and,
      for a read, the bytes that the callback left. */
  function ReplyPayload(order: ByteOrder, p: Memory, code: Byte, data: Memory): (r: Memory)
    requires 5 <= |p| <= MAX_PAYLOAD_LENGTH
    requires code == SUCCESS ==> Judge(order, 0, p).Ask? && |data| == ReadBytes(p[0], CountOf(p))
    ensures 2 <= |r| <= MAX_PAYLOAD_LENGTH
  {
    if code != SUCCESS then [Flagged(p[0]), code]
    else if ReadsCoils(p[0]) then [p[0], |data|] + MaskLast(data, CountOf(p))
    else if ReadsRegisters(p[0]) then [p[0], |data|] + Reorder(order, data)
    else if p[0] == MASK_WRITE_REGISTER then p[..7]
    else p[..5]
  }

  /** What one complete request frame leads to. */
  datatype Served = Disconnect | Done(call: Option<Call>, reply: Option<Frame>)

  /** The answers of a callback fill exactly the memory of a read. */
  predicate Filled(c: Call, a: Answer) { |a.data| == ReadBytes(c.fc, c.count) }

  function Finish(order: ByteOrder, f: Frame, code: Byte, data: Memory): (reply: Option<Frame>)
    requires 5 <= |f.payload| <= MAX_PAYLOAD_LENGTH
    requires code == SUCCESS ==>
      Judge(order, 0, f.payload).Ask? && |data| == ReadBytes(f.payload[0], CountOf(f.payload))
  {
    if code == FORCE_TIMEOUT then None
    else Some(Frame(f.transaction, f.unit, ReplyPayload(order, f.payload, code, data)))
  }

  function Serve(order: ByteOrder, f: Frame, answer: Answer): Served
    requires 5 <= |f.payload| <= MAX_PAYLOAD_LENGTH
    requires Judge(order, f.unit, f.payload).Ask? ==> Filled(Judge(order, f.unit, f.payload).call, answer)
  {
    match Judge(order, f.unit, f.payload)
    case Malformed => Disconnect
    case Refuse(code) => Done(None, Finish(order, f, code, []))
    case Ask(call) => Done(Some(call), Finish(order, f, answer.code, answer.data))
  }

  // ---- The response side of the client ----

  /** Transaction results; below 256 they are the exception code of the response. */
  type Result = nat

  const INVALID_ARGUMENT: Result := 256
  const ABORTED: Result := 257
  const NO_TRANSACTION_AVAILABLE: Result := 258
  const NOT_CONNECTED: Result := 259
  const DISCONNECTED_BY_PEER: Result := 260
  const SEND_FAILED: Result := 261
  const RECEIVE_FAILED: Result := 262
  const TIMEOUT: Result := 263
  const RESPONSE_FRAME_SHORTER_THAN_MINIMUM: Result := 264
  const RESPONSE_FRAME_LONGER_THAN_MAXIMUM: Result := 265
  const RESPONSE_UNIT_ID_MISMATCH: Result := 266
  const RESPONSE_FUNCTION_CODE_MISMATCH: Result := 267
  const RESPONSE_FUNCTION_CODE_NOT_SUPPORTED: Result := 268
  const RESPONSE_BYTE_COUNT_MISMATCH: Result := 269
  const RESPONSE_START_ADDRESS_MISMATCH: Result := 270
  const RESPONSE_DATA_VALUE_MISMATCH: Result := 271
  const RESPONSE_DATA_COUNT_MISMATCH: Result := 272
  const RESPONSE_AND_MASK_MISMATCH: Result := 273
  const RESPONSE_OR_MASK_MISMATCH: Result := 274
  const RESPONSE_SHORTER_THAN_EXPECTED: Result := 275

  /** The result of a transaction and the caller's buffer afterwards. */
  datatype Judgement = Judgement(result: Result, mem: Memory)

  /** How long the payload of a success response has to be at least. */
  function ExpectedLength(q: Request): nat {
    if Reads(q.fc) then 2 + ReadBytes(q.fc, q.count) else if q.fc == MASK_WRITE_REGISTER then 7 else 5
  }

  /** The word that a single write expects to see echoed. */
  function EchoedValue(order: ByteOrder, q: Request, mem: Memory): Word
    requires Fits(q, mem) && CountInRange(q.fc, q.count)
    requires !Reads(q.fc)
  {
    if q.fc == WRITE_SINGLE_COIL then CoilWord(mem[0])
    else if WRITE_MULTIPLE_COILS <= q.fc <= WRITE_MULTIPLE_REGISTERS then q.count
    else Register(order, mem, 0)
  }

  /** How the client judges a response payload for its pending transaction. */
  function Check(order: ByteOrder, q: Request, unit: Byte, p: Memory, mem: Memory): (j: Judgement)
    requires Fits(q, mem) && CountInRange(q.fc, q.count) && |p| >= 2
    ensures |j.mem| == |mem|
  {
    var n := ReadBytes(q.fc, q.count);
    if unit != q.unit then Judgement(RESPONSE_UNIT_ID_MISMATCH, mem)
    else if p[0] % 0x80 != q.fc then Judgement(RESPONSE_FUNCTION_CODE_MISMATCH, mem)
    else if p[0] >= 0x80 then Judgement(p[1], mem)
    else if |p| < ExpectedLength(q) then Judgement(RESPONSE_SHORTER_THAN_EXPECTED, mem)
    else if Reads(q.fc) then
      if p[1] != n then Judgement(RESPONSE_BYTE_COUNT_MISMATCH, mem)
      else if ReadsCoils(q.fc) then Judgement(0, MaskLast(p[2..2 + n], q.count) + mem[n..])
      else Judgement(0, Reorder(order, p[2..2 + n]) + mem[n..])
    else if StartOf(p) != q.start then Judgement(RESPONSE_START_ADDRESS_MISMATCH, mem)
    else if CountOf(p) != EchoedValue(order, q, mem) then
      Judgement(if WritesSingle(q.fc) then RESPONSE_DATA_VALUE_MISMATCH
                else if q.fc == MASK_WRITE_REGISTER then RESPONSE_AND_MASK_MISMATCH
                else RESPONSE_DATA_COUNT_MISMATCH, mem)
    else if q.fc == MASK_WRITE_REGISTER && Big(p[5], p[6]) != Register(order, mem, 1) then
      Judgement(RESPONSE_OR_MASK_MISMATCH, mem)
    else Judgement(0, mem)
  }
}
