/** Constants, frame layout and register memory shared by the Modbus TCP server and client.

    Payload offsets, as the packed request and response unions lay them out:
    function code 0, start address 1-2, data count / data value / AND mask 3-4, OR mask 5-6,
    request byte count 5, request values 6.., response byte count / exception code 1,
    response values 2... */
module ModbusCommon {
  import opened Bytes

  const HEADER_LENGTH: nat := 7
  const MIN_REQUEST_FRAME_LENGTH: nat := 6
  const MAX_REQUEST_FRAME_LENGTH: nat := 253
  const MIN_RESPONSE_FRAME_LENGTH: nat := 3
  const MAX_RESPONSE_FRAME_LENGTH: nat := 253
  const MAX_PAYLOAD_LENGTH: nat := 252

  const READ_COILS: Byte := 1
  const READ_DISCRETE_INPUTS: Byte := 2
  const READ_HOLDING_REGISTERS: Byte := 3
  const READ_INPUT_REGISTERS: Byte := 4
  const WRITE_SINGLE_COIL: Byte := 5
  const WRITE_SINGLE_REGISTER: Byte := 6
  const WRITE_MULTIPLE_COILS: Byte := 15
  const WRITE_MULTIPLE_REGISTERS: Byte := 16
  const MASK_WRITE_REGISTER: Byte := 22

  const SUCCESS: Byte := 0
  const ILLEGAL_FUNCTION: Byte := 1
  const ILLEGAL_DATA_VALUE: Byte := 3
  const FORCE_TIMEOUT: Byte := 255

  predicate ReadsCoils(fc: Byte) { fc == READ_COILS || fc == READ_DISCRETE_INPUTS }

  predicate ReadsRegisters(fc: Byte) { fc == READ_HOLDING_REGISTERS || fc == READ_INPUT_REGISTERS }

  predicate Reads(fc: Byte) { ReadsCoils(fc) || ReadsRegisters(fc) }

  /** The single writes, which the server hands to its callback as multiple writes of count 1. */
  predicate WritesSingle(fc: Byte) { fc == WRITE_SINGLE_COIL || fc == WRITE_SINGLE_REGISTER }

  predicate OnCoils(fc: Byte) { ReadsCoils(fc) || fc == WRITE_SINGLE_COIL || fc == WRITE_MULTIPLE_COILS }

  /** How `uint16_t` values lie in the memory that application code shares with the library. */
  datatype ByteOrder = Host | Network

  /** The conversion between that memory and the wire, in either direction: `htons` on every
      word for Host order, a plain copy for Network order. */
  function Reorder(order: ByteOrder, m: Memory): (r: Memory)
    requires |m| % 2 == 0
    ensures |r| == |m|
  {
    if order == Network then m
    else seq(|m|, k requires 0 <= k < |m| => if k % 2 == 0 then m[k + 1] else m[k - 1])
  }

  /** The number that register i of the memory stands for. */
  function Register(order: ByteOrder, m: Memory, i: nat): Word
    requires 2 * i + 1 < |m|
  {
    if order == Host then Big(m[2 * i + 1], m[2 * i]) else Big(m[2 * i], m[2 * i + 1])
  }

  /** The state of coil i of the memory. */
  predicate Coil(m: Memory, i: nat)
    requires i / 8 < |m|
  {
    BitSet(m[i / 8], i % 8)
  }

  function CoilBytes(count: nat): nat { (count + 7) / 8 }

  /** Modbus data of one frame: what follows the length field of the MBAP header. */
  datatype Frame = Frame(transaction: Word, unit: Byte, payload: Memory)

  predicate Sendable(f: Frame) { |f.payload| <= MAX_PAYLOAD_LENGTH }

  /** The seven header bytes. */
  function Header(f: Frame): (h: Memory)
    requires Sendable(f)
    ensures |h| == HEADER_LENGTH
  {
    Wire(f.transaction) + [0, 0] + Wire(1 + |f.payload|) + [f.unit]
  }

  /** A frame as it travels on the connection. */
  function FrameBytes(f: Frame): (m: Memory)
    requires Sendable(f)
    ensures |m| == HEADER_LENGTH + |f.payload|
  {
    Header(f) + f.payload
  }

  function TransactionOf(h: Memory): Word requires |h| == HEADER_LENGTH { Big(h[0], h[1]) }

  function ProtocolOf(h: Memory): Word requires |h| == HEADER_LENGTH { Big(h[2], h[3]) }

  function LengthOf(h: Memory): Word requires |h| == HEADER_LENGTH { Big(h[4], h[5]) }

  function UnitOf(h: Memory): Byte requires |h| == HEADER_LENGTH { h[6] }

  /** The header fields of a frame read back. */
  lemma HeaderFields(f: Frame)
    requires Sendable(f)
    ensures TransactionOf(Header(f)) == f.transaction
    ensures ProtocolOf(Header(f)) == 0
    ensures LengthOf(Header(f)) == 1 + |f.payload|
    ensures UnitOf(Header(f)) == f.unit
  {
  }

  /** Whatever the two orders are, memory of one end carried over the wire into memory of the
      other end stands for the same registers. */
  lemma ReorderKeepsRegisters(from: ByteOrder, to: ByteOrder, m: Memory, i: nat)
    requires |m| % 2 == 0 && 2 * i + 1 < |m|
    ensures Register(to, Reorder(to, Reorder(from, m)), i) == Register(from, m, i)
  {
    assert (2 * i) % 2 == 0 && (2 * i + 1) % 2 == 1;
  }

  /** The 16-bit number at this place of a header or payload. */
  function At(p: Memory, i: nat): Word
    requires i + 1 < |p|
  {
    var hi: int, lo: int := p[i], p[i + 1];
    hi * 256 + lo
  }

  lemma ZeroWord(hi: Byte, lo: Byte)
    ensures Big(hi, lo) == 0 <==> hi == 0 && lo == 0
  {
  }
}
