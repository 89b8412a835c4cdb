/** One accepted connection of the Modbus TCP server: its buffers, filled in place. */
module ServerConnection {
  import opened Bytes
  import opened ModbusCommon
  import opened ModbusRules
  import opened ServerFraming
  import opened Buffers
  import Sending

  datatype Peer = Peer(address: int, port: Word)

  /** How far a visit got with the request. */
  datatype Progress = Waiting | Whole | Gone(reason: Reason, errno: int)

  /** What the dispatch of a complete request came to. */
  datatype Dispatched = Bad | Answered(code: Byte, length: Word, call: Option<Call>)

  /** The dispatch did what the rules say, short of the reply's header and function code. */
  ghost predicate Prepares(order: ByteOrder, f: Frame, h: Handler, d: Dispatched, response: Memory)
    requires 5 <= |f.payload| <= MAX_PAYLOAD_LENGTH
  {
    match Judge(order, f.unit, f.payload)
    case Malformed => d.Bad?
    case Refuse(code) => d.Answered? && d.code == code && d.call == None
    case Ask(call) =>
      && d.Answered? && d.code == h(call).code && d.call == Some(call)
      && (d.code == SUCCESS ==>
            var r := ReplyPayload(order, f.payload, SUCCESS, h(call).data);
            d.length == 1 + |r| && |response| == 259 && response[8..7 + |r|] == r[1..])
  }

  /** The dispatch agrees with what the rules make of the request. */
  ghost predicate Concludes(f: Frame, d: Dispatched, response: Memory, served: Served)
    requires 5 <= |f.payload| <= MAX_PAYLOAD_LENGTH
  {
    if d.Bad? then served == Disconnect
    else if d.code == FORCE_TIMEOUT then served == Done(d.call, None)
    else
      && served.Done? && served.call == d.call && served.reply.Some?
      && var r := served.reply.value;
      && r == Frame(f.transaction, f.unit, r.payload)
      && 2 <= |r.payload| <= MAX_PAYLOAD_LENGTH
      && if d.code == SUCCESS then
           && d.length == 1 + |r.payload| && r.payload[0] == f.payload[0]
           && |response| == 259 && response[8..7 + |r.payload|] == r.payload[1..]
         else r.payload == [Flagged(f.payload[0]), d.code]
  }

  lemma PreparedConcludes(order: ByteOrder, f: Frame, h: Handler, d: Dispatched, response: Memory)
    requires 5 <= |f.payload| <= MAX_PAYLOAD_LENGTH && Prepares(order, f, h, d, response)
    ensures Concludes(f, d, response, Respond(order, f, h))
  {
  }

  /** What becomes of the connection, what the callback was asked and what went out. */
  function AnswerOutcome(served: Served, sends: Sending.Script): (Progress, Option<Call>, Memory)
    requires served.Done? && served.reply.Some? ==> Sendable(served.reply.value)
  {
    match served
    case Disconnect => (Gone(ProtocolError, -1), None, [])
    case Done(c, None) => (Waiting, c, [])
    case Done(c, Some(reply)) =>
      var s := Sending.SendAll(|FrameBytes(reply)|, sends);
      (if s.ok then Waiting else Gone(SocketSendFailed, s.errno), c, FrameBytes(reply)[..s.offset])
  }

  /** The buffer starts with a complete request: header in network order, and payload. */
  ghost predicate Lies(m: Memory, f: Frame) {
    && |m| == 259 && 5 <= |f.payload| <= MAX_PAYLOAD_LENGTH
    && m[..4] == Wire(f.transaction) + [0, 0] && Big(m[4], m[5]) == 1 + |f.payload| && m[6] == f.unit
    && m[HEADER_LENGTH..HEADER_LENGTH + |f.payload|] == f.payload
  }

  /** What the response takes over from the first bytes of the request. */
  ghost predicate Heads(m: Memory, f: Frame) {
    |m| == 8 && 5 <= |f.payload| && m[..4] == Wire(f.transaction) + [0, 0] && m[6] == f.unit && m[7] == f.payload[0]
  }

  /** The payload of a request, read field by field. */
  lemma Fields(m: Memory, f: Frame)
    requires |m| == 259 && 5 <= |f.payload| <= MAX_PAYLOAD_LENGTH
    requires m[HEADER_LENGTH..HEADER_LENGTH + |f.payload|] == f.payload
    ensures m[7] == f.payload[0] && Big(m[8], m[9]) == StartOf(f.payload) && Big(m[10], m[11]) == CountOf(f.payload)
  {
    var p := m[HEADER_LENGTH..HEADER_LENGTH + |f.payload|];
    assert p[0] == m[7] && p[1] == m[8] && p[2] == m[9] && p[3] == m[10] && p[4] == m[11];
  }

  lemma HeadsOf(m: Memory, f: Frame)
    requires Lies(m, f)
    ensures Heads(m[..8], f)
  {
    Fields(m, f);
    assert m[..8][..4] == m[..4];
  }

  lemma CoilsPrepared(order: ByteOrder, f: Frame, h: Handler, call: Call, response: Memory)
    requires 5 <= |f.payload| <= MAX_PAYLOAD_LENGTH && |response| == 259
    requires ReadsCoils(f.payload[0]) && JudgeRead(f.unit, f.payload) == Ask(call)
    requires response[8] == |h(call).data| && response[9..9 + |h(call).data|] == MaskLast(h(call).data, call.count)
    ensures Prepares(order, f, h, Answered(h(call).code, 3 + |h(call).data|, Some(call)), response)
  {
    var data := h(call).data;
    assert response[8..9 + |data|] == [|data|] + MaskLast(data, call.count);
  }

  lemma RegistersPrepared(order: ByteOrder, f: Frame, h: Handler, call: Call, response: Memory)
    requires 5 <= |f.payload| <= MAX_PAYLOAD_LENGTH && |response| == 259
    requires ReadsRegisters(f.payload[0]) && JudgeRead(f.unit, f.payload) == Ask(call)
    requires response[8] == |h(call).data| && response[9..9 + |h(call).data|] == Reorder(order, h(call).data)
    ensures Prepares(order, f, h, Answered(h(call).code, 3 + |h(call).data|, Some(call)), response)
  {
    var data := h(call).data;
    assert response[8..9 + |data|] == [|data|] + Reorder(order, data);
  }

  /** A write is answered with the beginning of the request. */
  lemma EchoPrepared(order: ByteOrder, f: Frame, h: Handler, call: Call, n: nat, response: Memory)
    requires 5 <= |f.payload| <= MAX_PAYLOAD_LENGTH && |response| == 259
    requires !Reads(f.payload[0]) && Judge(order, f.unit, f.payload) == Ask(call)
    requires n == (if f.payload[0] == MASK_WRITE_REGISTER then 7 else 5) && n <= |f.payload|
    requires response[8..7 + n] == f.payload[1..n]
    ensures Prepares(order, f, h, Answered(h(call).code, 1 + n, Some(call)), response)
  {
    assert f.payload[..n][1..] == f.payload[1..n];
  }

  lemma Assembled(m: Memory, f: Frame, reply: Memory)
    requires |m| == 259 && |reply| <= MAX_PAYLOAD_LENGTH
    requires m[..7] == Wire(f.transaction) + [0, 0] + Wire(1 + |reply|) + [f.unit] && m[7..7 + |reply|] == reply
    ensures m[..7 + |reply|] == FrameBytes(Frame(f.transaction, f.unit, reply))
  {
    assert m[..7 + |reply|] == m[..7] + m[7..7 + |reply|];
  }

  class Client {
    var next: Client?
    const fd: int
    const peer: Peer
    var lastAlive: int
    /** Header bytes 0-6, payload from 7 on; the response likewise. */
    const request: array<Byte>
    const response: array<Byte>
    var headerUsed: nat
    var headerChecked: bool
    var payloadUsed: nat

    constructor (fd: int, peer: Peer, now: int)
      ensures fresh(request) && fresh(response) && Valid()
      ensures this.fd == fd && this.peer == peer && lastAlive == now && next == null
      ensures Pend() == FRESH
    {
      this.fd, this.peer, this.lastAlive, this.next := fd, peer, now, null;
      this.request := new Byte[259](_ => 0);
      this.response := new Byte[259](_ => 0);
      this.headerUsed, this.headerChecked, this.payloadUsed := 0, false, 0;
    }

    ghost predicate Shape()
      reads this`headerUsed, this`payloadUsed
    {
      && request.Length == 259 && response.Length == 259 && request != response
      && headerUsed <= HEADER_LENGTH && payloadUsed <= MAX_PAYLOAD_LENGTH
    }

    /** The partly received request. */
    ghost function Pend(): Conn
      reads this`headerUsed, this`headerChecked, this`payloadUsed, request
      requires Shape()
    {
      Conn(request[..headerUsed], headerChecked, request[HEADER_LENGTH..HEADER_LENGTH + payloadUsed])
    }

    ghost predicate Valid()
      reads this`headerUsed, this`headerChecked, this`payloadUsed, request
    {
      Shape() && Pending(Pend())
    }

    /** A complete request lies in the buffer. */
    ghost predicate Holds(f: Frame)
      reads this`headerUsed, this`payloadUsed, request
    {
      Shape() && Lies(request[..], f)
    }

    /** Fetches missing header bytes; true to go on with the request. */
    method FetchHeader(header: Recv) returns (progress: Progress, goOn: bool)
      requires Valid() && !headerChecked
      modifies this`headerUsed, request
      ensures Shape()
      ensures match header
              case Again => !goOn && progress == Waiting && Pend() == old(Pend())
              case Failed(e) => !goOn && progress == Gone(SocketReceiveFailed, e)
              case Closed => !goOn && progress == Gone(DisconnectedByPeer, -1)
              case Data(_, _) =>
                var got := Granted(header, HEADER_LENGTH - |old(Pend()).header|);
                && Pend() == old(Pend()).(header := old(Pend()).header + got)
                && progress == Waiting && goOn == (headerUsed == HEADER_LENGTH)
    {
      var headerMissing := HEADER_LENGTH - headerUsed;
      match header {
        case Again => return Waiting, false;
        case Failed(e) => return Gone(SocketReceiveFailed, e), false;
        case Closed => return Gone(DisconnectedByPeer, -1), false;
        case Data(_, _) =>
          var got := Granted(header, headerMissing);
          StoreHeader(got);
          headerMissing := headerMissing - |got|;
          return Waiting, headerMissing == 0;
      }
    }

    /** Appends to the header. */
    method StoreHeader(got: Memory)
      requires Valid() && !headerChecked && headerUsed + |got| <= HEADER_LENGTH
      modifies this`headerUsed, request
      ensures Shape() && headerUsed == old(headerUsed) + |got|
      ensures Pend() == old(Pend()).(header := old(Pend()).header + got)
    {
      ghost var before := request[..headerUsed];
      Put(request, headerUsed, got);
      headerUsed := headerUsed + |got|;
      assert request[..headerUsed] == before + got;
    }

    /** Checks a complete header once. */
    method CheckHeader() returns (good: bool)
      requires Shape() && headerUsed == HEADER_LENGTH
      modifies this`headerChecked
      ensures good == (old(headerChecked) || GoodHeader(request[..HEADER_LENGTH]))
      ensures headerChecked == good
    {
      var frameLength := WordAt(request, 4);
      if !headerChecked {
        if WordAt(request, 2) != 0 { return false; }
        if frameLength < MIN_REQUEST_FRAME_LENGTH { return false; }
        if frameLength > MAX_REQUEST_FRAME_LENGTH { return false; }
        headerChecked := true;
      }
      return true;
    }

    /** Fetches missing payload bytes. */
    method FetchPayload(payload: Recv) returns (progress: Progress)
      requires Valid() && headerChecked
      modifies this`payloadUsed, request
      ensures Shape()
      ensures match ReceivePayload(old(Pend()), payload).outcome
              case Wait(c) => progress == Waiting && Pend() == c
              case Complete(f) => progress == Whole && Holds(f)
              case Lost(reason, errno) => progress == Gone(reason, errno)
    {
      ghost var c := Pend();
      var payloadMissing := WordAt(request, 4) - 1 - payloadUsed;
      match payload {
        case Again => return Waiting;
        case Failed(e) => return Gone(SocketReceiveFailed, e);
        case Closed => return Gone(DisconnectedByPeer, -1);
        case Data(_, _) =>
          var got := Granted(payload, payloadMissing);
          StorePayload(got);
          payloadMissing := payloadMissing - |got|;
          if payloadMissing > 0 { return Waiting; }
          FrameLies(request[..], c.header, c.payload + got);
          return Whole;
      }
    }

    /** Appends to the payload. */
    method StorePayload(got: Memory)
      requires Valid() && headerChecked && payloadUsed + |got| <= MAX_PAYLOAD_LENGTH
      modifies this`payloadUsed, request
      ensures Shape() && payloadUsed == old(payloadUsed) + |got|
      ensures Pend() == old(Pend()).(payload := old(Pend()).payload + got)
      ensures request[..HEADER_LENGTH] == Pend().header
              && request[HEADER_LENGTH..HEADER_LENGTH + payloadUsed] == Pend().payload
    {
      ghost var c := Pend();
      Put(request, HEADER_LENGTH + payloadUsed, got);
      payloadUsed := payloadUsed + |got|;
      Grown(c.header, c.payload, got, request[..]);
    }

    /** The receiving part of a visit. */
    method ReceiveRequest(header: Recv, payload: Recv) returns (progress: Progress)
      requires Valid()
      modifies this`headerUsed, this`headerChecked, this`payloadUsed, request
      ensures Shape()
      ensures match Receive(old(Pend()), header, payload).outcome
              case Wait(c) => progress == Waiting && Pend() == c
              case Complete(f) => progress == Whole && Holds(f)
              case Lost(reason, errno) => progress == Gone(reason, errno)
    {
      if HEADER_LENGTH - headerUsed > 0 {
        var goOn;
        progress, goOn := FetchHeader(header);
        if !goOn { return; }
        assert Pend().header == request[..HEADER_LENGTH];
      }
      var good := CheckHeader();
      if !good { return Gone(ProtocolError, -1); }
      progress := FetchPayload(payload);
    }
  
    /** Read Coils and Read Discrete Inputs. */
    method ServeReadCoils(order: ByteOrder, h: Handler, ghost f: Frame) returns (d: Dispatched)
      requires Holds(f) && ReadsCoils(f.payload[0])
      modifies response
      ensures Prepares(order, f, h, d, response[..])
    {
      Fields(request[..], f);
      if WordAt(request, 4) != 6 { return Bad; }
      var dataCount := WordAt(request, 10);
      if dataCount < 1 || dataCount > 2000 { return Answered(ILLEGAL_DATA_VALUE, 0, None); }
      response[8] := (dataCount + 7) / 8;
      var call := Call(request[6], request[7], WordAt(request, 8), dataCount, []);
      assert JudgeRead(f.unit, f.payload) == Ask(call);
      var answer := h(call);
      assert |answer.data| == CoilBytes(dataCount) by { assert Filled(call, answer); }
      Put(response, 9, answer.data);
      assert response[8] == response[..9][8];
      ClearTail(response, 9, answer.data, dataCount);
      CoilsPrepared(order, f, h, call, response[..]);
      return Answered(answer.code, 1 + 2 + response[8], Some(call));
    }

    /** Read Holding Registers and Read Input Registers. */
    method ServeReadRegisters(order: ByteOrder, h: Handler, ghost f: Frame) returns (d: Dispatched)
      requires Holds(f) && ReadsRegisters(f.payload[0])
      modifies response
      ensures Prepares(order, f, h, d, response[..])
    {
      Fields(request[..], f);
      if WordAt(request, 4) != 6 { return Bad; }
      var dataCount := WordAt(request, 10);
      if dataCount < 1 || dataCount > 125 { return Answered(ILLEGAL_DATA_VALUE, 0, None); }
      response[8] := dataCount * 2;
      var call := Call(request[6], request[7], WordAt(request, 8), dataCount, []);
      assert JudgeRead(f.unit, f.payload) == Ask(call);
      var answer := h(call);
      assert |answer.data| == 2 * dataCount by { assert Filled(call, answer); }
      Put(response, 9, answer.data);
      assert response[8] == response[..9][8];
      if order == Host {
        SwapWords(response, 9, dataCount);
        assert response[8] == response[..9][8];
      }
      RegistersPrepared(order, f, h, call, response[..]);
      return Answered(answer.code, 1 + 2 + response[8], Some(call));
    }

    /** Copies start address and data value (or count) of the request into the response. */
    method EchoAddressAndValue(ghost f: Frame)
      requires Holds(f)
      modifies response
      ensures response[8..12] == f.payload[1..5]
    {
      Fields(request[..], f);
      response[8], response[9] := request[8], request[9];
      response[10], response[11] := request[10], request[11];
      assert request[7..12] == request[7..7 + |f.payload|][..5];
      assert response[8..12] == request[7..12][1..5];
    }

    /** The n words from the data value on, in the order that the callback expects. */
    method ValueWords(order: ByteOrder, n: nat) returns (values: Memory)
      requires Shape() && n <= 2
      ensures values == Reorder(order, request[10..10 + 2 * n])
    {
      var registerValues := new Byte[2 * n](_ => 0);
      Put(registerValues, 0, request[10..10 + 2 * n]);
      if order == Host {
        SwapWords(registerValues, 0, n);
      }
      return registerValues[..];
    }

    /** Puts the n register values of a multiple write into the order that the callback expects. */
    method ConvertValues(order: ByteOrder, n: nat)
      requires Shape() && 13 + 2 * n <= 259
      modifies request
      ensures request[..13] == old(request[..13])
      ensures request[13..13 + 2 * n] == Reorder(order, old(request[13..13 + 2 * n]))
    {
      if order == Host {
        SwapWords(request, 13, n);
      }
    }

    /** Copies start address, AND mask and OR mask of the request into the response. */
    method EchoMasks()
      requires Shape()
      modifies response
      ensures response[8..14] == request[8..14]
    {
      response[8], response[9] := request[8], request[9];
      response[10], response[11] := request[10], request[11];
      response[12], response[13] := request[12], request[13];
    }

    /** Write Single Coil, handed on as a multiple write of one coil. */
    method ServeWriteSingleCoil(order: ByteOrder, h: Handler, ghost f: Frame) returns (d: Dispatched)
      requires Holds(f) && f.payload[0] == WRITE_SINGLE_COIL
      modifies response
      ensures Prepares(order, f, h, d, response[..])
    {
      Fields(request[..], f);
      if WordAt(request, 4) != 6 { return Bad; }
      var dataValue := WordAt(request, 10);
      if dataValue != 0x0000 && dataValue != 0xFF00 { return Answered(ILLEGAL_DATA_VALUE, 0, None); }
      EchoAddressAndValue(f);
      var coilValues: Memory := if dataValue == 0xFF00 then [1] else [0];
      var call := Call(request[6], WRITE_MULTIPLE_COILS, WordAt(request, 8), 1, coilValues);
      assert JudgeWriteSingleCoil(f.unit, f.payload) == Ask(call);
      EchoPrepared(order, f, h, call, 5, response[..]);
      return Answered(h(call).code, 6, Some(call));
    }

    /** Write Single Register, handed on as a multiple write of one register. */
    method ServeWriteSingleRegister(order: ByteOrder, h: Handler, ghost f: Frame) returns (d: Dispatched)
      requires Holds(f) && f.payload[0] == WRITE_SINGLE_REGISTER
      modifies response
      ensures Prepares(order, f, h, d, response[..])
    {
      Fields(request[..], f);
      if WordAt(request, 4) != 6 { return Bad; }
      EchoAddressAndValue(f);
      assert request[10..12] == f.payload[3..5];
      var registerValues := ValueWords(order, 1);
      var call := Call(request[6], WRITE_MULTIPLE_REGISTERS, WordAt(request, 8), 1, registerValues);
      assert JudgeWriteSingleRegister(order, f.unit, f.payload) == Ask(call);
      EchoPrepared(order, f, h, call, 5, response[..]);
      return Answered(h(call).code, 6, Some(call));
    }

    /** Write Multiple Coils; stray bits of the last byte are cleared in the request. */
    method ServeWriteCoils(order: ByteOrder, h: Handler, ghost f: Frame) returns (d: Dispatched)
      requires Holds(f) && f.payload[0] == WRITE_MULTIPLE_COILS
      modifies request, response
      ensures Prepares(order, f, h, d, response[..]) && request[..8] == old(request[..8])
    {
      Fields(request[..], f);
      if WordAt(request, 4) < 8 { return Bad; }
      var dataCount := WordAt(request, 10);
      if dataCount < 1 || dataCount > 1968 || request[12] != (dataCount + 7) / 8 {
        return Answered(ILLEGAL_DATA_VALUE, 0, None);
      }
      if WordAt(request, 4) != 7 + request[12] { return Bad; }
      EchoAddressAndValue(f);
      var byteCount := request[12];
      assert request[13..13 + byteCount] == f.payload[6..];
      ghost var before := request[..13];
      if dataCount % 8 != 0 {
        ClearTail(request, 13, f.payload[6..], dataCount);
      }
      assert request[..13] == before && before[6] == f.unit;
      assert request[6] == before[6] && request[7] == before[7] && request[8] == before[8] && request[9] == before[9];
      var call := Call(request[6], request[7], WordAt(request, 8), dataCount, request[13..13 + byteCount]);
      assert JudgeWriteCoils(f.unit, f.payload) == Ask(call);
      EchoPrepared(order, f, h, call, 5, response[..]);
      assert request[..8] == before[..8];
      return Answered(h(call).code, 6, Some(call));
    }

    /** Write Multiple Registers; values in Host order are swapped in the request. */
    method ServeWriteRegisters(order: ByteOrder, h: Handler, ghost f: Frame) returns (d: Dispatched)
      requires Holds(f) && f.payload[0] == WRITE_MULTIPLE_REGISTERS
      modifies request, response
      ensures Prepares(order, f, h, d, response[..]) && request[..8] == old(request[..8])
    {
      Fields(request[..], f);
      if WordAt(request, 4) < 9 { return Bad; }
      var dataCount := WordAt(request, 10);
      if dataCount < 1 || dataCount > 123 || request[12] != dataCount * 2 {
        return Answered(ILLEGAL_DATA_VALUE, 0, None);
      }
      if WordAt(request, 4) != 7 + request[12] { return Bad; }
      EchoAddressAndValue(f);
      var byteCount := request[12];
      assert request[13..13 + byteCount] == f.payload[6..];
      var call := TakeRegisters(order, dataCount, f.payload[6..]);
      assert JudgeWriteRegisters(order, f.unit, f.payload) == Ask(call);
      EchoPrepared(order, f, h, call, 5, response[..]);
      return Answered(h(call).code, 6, Some(call));
    }

    /** The arguments of the callback for registers that lie in the request. */
    method TakeRegisters(order: ByteOrder, dataCount: Word, ghost data: Memory) returns (call: Call)
      requires Shape() && 13 + 2 * dataCount <= 259 && data == request[13..13 + 2 * dataCount]
      modifies request
      ensures request[..13] == old(request[..13]) && request[..8] == old(request[..8])
      ensures call == Call(old(request[6]), old(request[7]), Big(old(request[8]), old(request[9])), dataCount,
                           Reorder(order, data))
    {
      ghost var before := request[..13];
      ConvertValues(order, dataCount);
      assert request[..13] == before && request[..8] == before[..8];
      assert request[6] == before[6] && request[7] == before[7] && request[8] == before[8] && request[9] == before[9];
      call := Call(request[6], request[7], WordAt(request, 8), dataCount, request[13..13 + 2 * dataCount]);
    }

    /** Mask Write Register: AND mask and OR mask, handed on as two values. */
    method ServeMaskWrite(order: ByteOrder, h: Handler, ghost f: Frame) returns (d: Dispatched)
      requires Holds(f) && f.payload[0] == MASK_WRITE_REGISTER
      modifies response
      ensures Prepares(order, f, h, d, response[..])
    {
      Fields(request[..], f);
      if WordAt(request, 4) != 8 { return Bad; }
      EchoMasks();
      assert request[8..14] == request[7..14][1..7] && request[10..14] == request[7..14][3..7];
      var registerValues := ValueWords(order, 2);
      var call := Call(request[6], MASK_WRITE_REGISTER, WordAt(request, 8), 2, registerValues);
      assert JudgeMaskWrite(order, f.unit, f.payload) == Ask(call);
      EchoPrepared(order, f, h, call, 7, response[..]);
      return Answered(h(call).code, 8, Some(call));
    }

    /** Runs the request callback on a complete request. */
    method Dispatch(order: ByteOrder, h: Handler, ghost f: Frame) returns (d: Dispatched)
      requires Holds(f)
      modifies request, response
      ensures Prepares(order, f, h, d, response[..]) && request[..8] == old(request[..8])
    {
      Fields(request[..], f);
      var fc := request[7];
      if ReadsCoils(fc) {
        d := ServeReadCoils(order, h, f);
      } else if ReadsRegisters(fc) {
        d := ServeReadRegisters(order, h, f);
      } else if fc == WRITE_SINGLE_COIL {
        d := ServeWriteSingleCoil(order, h, f);
      } else if fc == WRITE_SINGLE_REGISTER {
        d := ServeWriteSingleRegister(order, h, f);
      } else if fc == WRITE_MULTIPLE_COILS {
        d := ServeWriteCoils(order, h, f);
      } else if fc == WRITE_MULTIPLE_REGISTERS {
        d := ServeWriteRegisters(order, h, f);
      } else if fc == MASK_WRITE_REGISTER {
        d := ServeMaskWrite(order, h, f);
      } else {
        d := Answered(ILLEGAL_FUNCTION, 0, None);
      }
    }

    /** Sets function code and exception code of the response. */
    method SetResult(code: Byte, length: Word, ghost reply: Memory) returns (frameLength: Word)
      requires Shape() && 2 <= |reply| <= MAX_PAYLOAD_LENGTH
      requires if code == SUCCESS then
                 length == 1 + |reply| && reply[0] == request[7] && response[8..7 + |reply|] == reply[1..]
               else reply == [Flagged(request[7]), code]
      modifies response
      ensures frameLength == 1 + |reply| && response[7..7 + |reply|] == reply
    {
      ghost var before := response[8..7 + |reply|];
      frameLength := length;
      response[7] := request[7];
      assert response[8..7 + |reply|] == before;
      if code != SUCCESS {
        frameLength := 3;
        response[7] := Flagged(response[7]);
        response[8] := code;
      }
    }

    /** Fills the header of the response: IDs from the request, length in network order. */
    method SetHeader(frameLength: Word)
      requires Shape()
      modifies response
      ensures response[..7] == request[..4] + Wire(frameLength) + [request[6]]
      ensures response[7..] == old(response[7..])
    {
      response[0], response[1], response[2], response[3] := request[0], request[1], request[2], request[3];
      response[4], response[5] := Hi(frameLength), Lo(frameLength);
      response[6] := request[6];
    }

    /** Completes the response: function code or exception, and header. */
    method CompleteResponse(code: Byte, length: Word, ghost f: Frame, ghost reply: Memory) returns (frameLength: Word)
      requires Shape() && 5 <= |f.payload| <= MAX_PAYLOAD_LENGTH && 2 <= |reply| <= MAX_PAYLOAD_LENGTH
      requires Heads(request[..8], f)
      requires if code == SUCCESS then length == 1 + |reply| && reply[0] == f.payload[0]
               && response[8..7 + |reply|] == reply[1..]
               else reply == [Flagged(f.payload[0]), code]
      modifies response
      ensures frameLength == 1 + |reply|
      ensures response[..6 + frameLength] == FrameBytes(Frame(f.transaction, f.unit, reply))
    {
      assert request[..4] == request[..8][..4] && request[6] == request[..8][6] && request[7] == request[..8][7];
      frameLength := SetResult(code, length, reply);
      ghost var after := response[7..];
      assert after[..|reply|] == response[7..7 + |reply|];
      SetHeader(frameLength);
      assert response[7..7 + |reply|] == response[7..][..|reply|];
      Assembled(response[..], f, reply);
    }

    /** Sends the response: how the bounded send loop ended, and what went out. */
    method SendResponse(frameLength: Word, sends: Sending.Script, ghost bytes: Memory)
      returns (ok: bool, errno: int, sent: Memory)
      requires Shape() && 6 + frameLength <= 259 && bytes == response[..6 + frameLength]
      ensures var s := Sending.SendAll(|bytes|, sends);
              ok == s.ok && errno == s.errno && sent == bytes[..s.offset]
    {
      var offset;
      ok, offset, errno := Sending.RunSendLoop(6 + frameLength, sends);
      sent := response[..offset];
    }

    /** Completes and sends the response. */
    method Reply(d: Dispatched, sends: Sending.Script, ghost f: Frame, ghost reply: Frame)
      returns (ok: bool, errno: int, sent: Memory)
      requires Shape() && 5 <= |f.payload| <= MAX_PAYLOAD_LENGTH && d.Answered?
      requires Heads(request[..8], f)
      requires reply == Frame(f.transaction, f.unit, reply.payload) && 2 <= |reply.payload| <= MAX_PAYLOAD_LENGTH
      requires if d.code == SUCCESS then
                 && d.length == 1 + |reply.payload| && reply.payload[0] == f.payload[0]
                 && response[8..7 + |reply.payload|] == reply.payload[1..]
               else reply.payload == [Flagged(f.payload[0]), d.code]
      modifies response
      ensures var s := Sending.SendAll(|FrameBytes(reply)|, sends);
              ok == s.ok && errno == s.errno && sent == FrameBytes(reply)[..s.offset]
    {
      ghost var bytes := FrameBytes(reply);
      var frameLength := CompleteResponse(d.code, d.length, f, reply.payload);
      ok, errno, sent := SendResponse(frameLength, sends, bytes);
    }

    method ForgetRequest()
      requires Shape()
      modifies this`headerUsed, this`headerChecked, this`payloadUsed
      ensures Shape() && Pend() == FRESH
    {
      headerUsed, headerChecked, payloadUsed := 0, false, 0;
    }

    /** Sends the reply, if there is one, and makes room for the next request. */
    method Conclude(d: Dispatched, sends: Sending.Script, ghost f: Frame, ghost served: Served)
      returns (status: Progress, call: Option<Call>, sent: Memory)
      requires Shape() && 5 <= |f.payload| <= MAX_PAYLOAD_LENGTH
      requires Heads(request[..8], f) && Concludes(f, d, response[..], served)
      modifies this`headerUsed, this`headerChecked, this`payloadUsed, response
      ensures Shape() && (served.Done? && served.reply.Some? ==> Sendable(served.reply.value))
      ensures (status, call, sent) == AnswerOutcome(served, sends)
      ensures status == Waiting ==> Pend() == FRESH
    {
      call, sent, status := None, [], Waiting;
      if d.Bad? { return Gone(ProtocolError, -1), None, []; }
      call := d.call;
      if d.code != FORCE_TIMEOUT {
        var ok, errno;
        ok, errno, sent := Reply(d, sends, f, served.reply.value);
        if !ok { return Gone(SocketSendFailed, errno), call, sent; }
      }
      ForgetRequest();
    }

    /** Answers a complete request. */
    method Answer(order: ByteOrder, v: Visit, ghost f: Frame)
      returns (status: Progress, call: Option<Call>, sent: Memory)
      requires Holds(f)
      modifies this`headerUsed, this`headerChecked, this`payloadUsed, request, response
      ensures Shape()
      ensures (status, call, sent) == AnswerOutcome(Respond(order, f, v.handler), v.sends)
      ensures status == Waiting ==> Pend() == FRESH
    {
      HeadsOf(request[..], f);
      assert request[..8] == request[..][..8];
      var d := Dispatch(order, v.handler, f);
      PreparedConcludes(order, f, v.handler, d, response[..]);
      status, call, sent := Conclude(d, v.sends, f, Respond(order, f, v.handler));
    }

    /** One visit of `tick` to this connection. */
    method Serve(order: ByteOrder, v: Visit) returns (status: Progress, call: Option<Call>, sent: Memory)
      requires Valid()
      modifies this`headerUsed, this`headerChecked, this`payloadUsed, request, response
      ensures Shape() && !status.Whole?
      ensures var e := ServeVisit(order, old(Pend()), v);
              && call == e.call && sent == e.sent
              && match e.status
                 case Open(c) => status == Waiting && Pend() == c
                 case Ended(reason, errno) => status == Gone(reason, errno)
    {
      ghost var got := Receive(Pend(), v.header, v.payload);
      status := ReceiveRequest(v.header, v.payload);
      status, call, sent := Finish(order, v, status, got);
    }

    /** The visit behind its receiving part. */
    method Finish(order: ByteOrder, v: Visit, progress: Progress, ghost got: Received)
      returns (status: Progress, call: Option<Call>, sent: Memory)
      requires Shape() && (got.outcome.Complete? ==> 5 <= |got.outcome.frame.payload| <= MAX_PAYLOAD_LENGTH)
      requires match got.outcome
               case Wait(c) => progress == Waiting && Pend() == c
               case Complete(f) => progress == Whole && Holds(f)
               case Lost(reason, errno) => progress == Gone(reason, errno)
      modifies this`headerUsed, this`headerChecked, this`payloadUsed, request, response
      ensures Shape() && !status.Whole?
      ensures var e := Settle(order, got, v);
              && call == e.call && sent == e.sent
              && match e.status
                 case Open(c) => status == Waiting && Pend() == c
                 case Ended(reason, errno) => status == Gone(reason, errno)
    {
      if !progress.Whole? { return progress, None, []; }
      status, call, sent := Answer(order, v, got.outcome.frame);
    }

    /** Masks the last of the coil bytes stored from `at` on. */
    static method ClearTail(a: array<Byte>, at: nat, ghost coils: Memory, dataCount: Word)
      requires 0 < |coils| == CoilBytes(dataCount) && at + |coils| <= a.Length
      requires a[at..at + |coils|] == coils
      modifies a
      ensures a[..at] == old(a[..at]) && a[at..at + |coils|] == MaskLast(coils, dataCount)
      ensures a[at + |coils|..] == old(a[at + |coils|..])
    {
      var last := at + (dataCount + 7) / 8 - 1;
      a[last] := And(a[last], Pow2(dataCount % 8) - 1);
    }
  }

  lemma Grown(h: Memory, p: Memory, got: Memory, m: Memory)
    requires |h| == HEADER_LENGTH && |m| == 259 && |p| + |got| <= MAX_PAYLOAD_LENGTH
    requires m[..HEADER_LENGTH + |p|] == h + p
    requires m[HEADER_LENGTH + |p|..HEADER_LENGTH + |p| + |got|] == got
    ensures m[..HEADER_LENGTH] == h && m[HEADER_LENGTH..HEADER_LENGTH + |p + got|] == p + got
  {
    assert m[..HEADER_LENGTH] == m[..HEADER_LENGTH + |p|][..HEADER_LENGTH];
    assert m[HEADER_LENGTH..HEADER_LENGTH + |p|] == m[..HEADER_LENGTH + |p|][HEADER_LENGTH..];
  }

  /** A good header and the payload it announces are the frame they form. */
  lemma FrameLies(m: Memory, h: Memory, p: Memory)
    requires |h| == HEADER_LENGTH && GoodHeader(h) && |p| == LengthOf(h) - 1 && |m| == 259
    requires m[..HEADER_LENGTH] == h && m[HEADER_LENGTH..HEADER_LENGTH + |p|] == p
    ensures Lies(m, Frame(TransactionOf(h), UnitOf(h), p))
  {
    assert forall k :: 0 <= k < HEADER_LENGTH ==> m[k] == h[k];
    assert m[..4] == h[..4] == Wire(TransactionOf(h)) + [0, 0];
  }
}
