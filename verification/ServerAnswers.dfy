/** What the Modbus TCP server answers to a request, told from the bytes of the request alone. */
module ServerAnswers {
  import opened Bytes
  import opened ModbusCommon
  import opened ModbusRules
  import opened ServerFraming
  import Sending

  // ---- Requests, after sections 6.1-6.6, 6.11, 6.12 and 6.16 of the Modbus application protocol ----

  predicate Supported(fc: Byte) { fc in {1, 2, 3, 4, 5, 6, 15, 16, 22} }

  /** A count, byte count or coil value that the protocol does not allow. */
  predicate OutOfRange(p: Memory)
    requires |p| >= 6 || (|p| == 5 && p[0] !in {15, 16})
  {
    if p[0] in {1, 2} then At(p, 3) == 0 || At(p, 3) > 2000
    else if p[0] in {3, 4} then At(p, 3) == 0 || At(p, 3) > 125
    else if p[0] == 5 then At(p, 3) != 0x0000 && At(p, 3) != 0xFF00
    else if p[0] == 15 then At(p, 3) == 0 || At(p, 3) > 1968 || p[5] != (At(p, 3) + 7) / 8
    else if p[0] == 16 then At(p, 3) == 0 || At(p, 3) > 123 || p[5] != 2 * At(p, 3)
    else false
  }

  /** The length is not the one that the function code calls for; multiple writes are measured by their
      byte count, if that is in range, and have one value at least. */
  predicate Misfits(p: Memory)
    requires |p| >= 5
  {
    if p[0] in {1, 2, 3, 4, 5, 6} then |p| != 5
    else if p[0] == 22 then |p| != 7
    else if p[0] == 15 then |p| < 7 || (!OutOfRange(p) && |p| != 6 + p[5])
    else if p[0] == 16 then |p| < 8 || (!OutOfRange(p) && |p| != 6 + p[5])
    else false
  }

  /** The question that the callback is asked about a request: single writes as multiple writes of one
      value; the coils and registers that were sent, and no coil beyond them. */
  ghost predicate Puts(order: ByteOrder, unit: Byte, p: Memory, c: Call)
    requires |p| >= 5 && Supported(p[0]) && !Misfits(p) && !OutOfRange(p)
  {
    && c.unit == unit && c.start == At(p, 1)
    && c.fc == (if p[0] == 5 then 15 else if p[0] == 6 then 16 else p[0])
    && c.count == (if p[0] in {5, 6} then 1 else if p[0] == 22 then 2 else At(p, 3))
    && (if p[0] in {1, 2, 3, 4} then c.data == []
        else if p[0] == 5 then c.data == [if At(p, 3) == 0xFF00 then 1 else 0]
        else if p[0] == 15 then CoilsSent(p, c.count, c.data)
        else RegistersSent(order, p, if p[0] == 16 then 6 else 3, c.count, c.data))
  }

  /** The coils below the count are those of the request, and all others are off. */
  ghost predicate CoilsSent(p: Memory, count: nat, data: Memory)
    requires |p| >= 6
  {
    && |data| == (count + 7) / 8 && |p| == 6 + |data|
    && (forall i :: 0 <= i < count ==> (Coil(data, i) <==> BitSet(p[6 + i / 8], i % 8)))
    && (forall i :: count <= i < 8 * |data| ==> !Coil(data, i))
  }

  ghost predicate RegistersSent(order: ByteOrder, p: Memory, from: nat, count: nat, data: Memory) {
    && |data| == 2 * count && |p| == from + |data|
    && (forall i :: 0 <= i < count ==> Register(order, data, i) == At(p, from + 2 * i))
  }

  /** The payload of the reply to a request that the callback has answered with success. */
  ghost predicate Replies(order: ByteOrder, p: Memory, data: Memory, r: Memory)
    requires |p| >= 5 && Supported(p[0]) && !Misfits(p) && !OutOfRange(p)
  {
    if p[0] in {1, 2} then |r| == 2 + |data| && r[0] == p[0] && r[1] == |data| && CoilsReplied(At(p, 3), data, r[2..])
    else if p[0] in {3, 4} then
      && |r| == 2 + |data| && r[0] == p[0] && r[1] == |data|
      && (forall i :: 0 <= i < At(p, 3) && 2 * i + 1 < |data| ==> At(r, 2 + 2 * i) == Register(order, data, i))
    else r == p[..if p[0] == 22 then 7 else 5]
  }

  /** The coils below the count are those of the callback, but those of the last byte are off if the count
      is a multiple of 8; all others are off. */
  ghost predicate CoilsReplied(count: nat, data: Memory, r: Memory) {
    && |r| == |data| == (count + 7) / 8
    && forall i :: 0 <= i < 8 * |data| ==>
         (Coil(r, i) <==> Coil(data, i) && i < if count % 8 == 0 then count - 8 else count)
  }

  // ---- The bits behind the masks ----

  lemma MaskedCoil(m: Memory, count: Word, i: nat)
    requires |m| > 0 && i < 8 * |m|
    ensures Coil(MaskLast(m, count), i) <==> Coil(m, i) && (i < 8 * (|m| - 1) || i % 8 < count % 8)
  {
    if i / 8 == |m| - 1 {
      AndBit(m[|m| - 1], Pow2(count % 8) - 1, i % 8);
      MaskBit(count % 8, i % 8);
    }
  }

  lemma CoilsPut(p: Memory, count: Word, data: Memory)
    requires 1 <= count && |p| == 6 + (count + 7) / 8
    requires data == if count % 8 != 0 then MaskLast(p[6..], count) else p[6..]
    ensures CoilsSent(p, count, data)
  {
    forall i | 0 <= i < 8 * |data| ensures Coil(data, i) <==> BitSet(p[6 + i / 8], i % 8) && i < count {
      assert p[6..][i / 8] == p[6 + i / 8];
      if count % 8 != 0 { MaskedCoil(p[6..], count, i); }
    }
  }

  lemma RegistersPut(order: ByteOrder, p: Memory, from: nat, count: nat, data: Memory)
    requires |p| == from + 2 * count && data == Reorder(order, p[from..])
    ensures RegistersSent(order, p, from, count, data)
  {
    forall i | 0 <= i < count ensures Register(order, data, i) == At(p, from + 2 * i) {
      assert p[from..][2 * i] == p[from + 2 * i] && p[from..][2 * i + 1] == p[from + 2 * i + 1];
    }
  }

  lemma CoilsReturned(count: Word, data: Memory, r: Memory)
    requires 1 <= count && |data| == (count + 7) / 8 && r == MaskLast(data, count)
    ensures CoilsReplied(count, data, r)
  {
    forall i | 0 <= i < 8 * |data|
      ensures Coil(r, i) <==> Coil(data, i) && i < if count % 8 == 0 then count - 8 else count
    {
      MaskedCoil(data, count, i);
    }
  }

  // ---- The verdict ----

  lemma JudgedExactly(order: ByteOrder, unit: Byte, p: Memory)
    requires |p| >= 5
    ensures Judge(order, unit, p).Malformed? <==> Misfits(p)
    ensures !Supported(p[0]) ==> Judge(order, unit, p) == Refuse(1)
    ensures Supported(p[0]) && !Misfits(p) ==>
              if OutOfRange(p) then Judge(order, unit, p) == Refuse(3) else Judge(order, unit, p).Ask?
  {
  }

  lemma JudgedPuts(order: ByteOrder, unit: Byte, p: Memory)
    requires |p| >= 5 && Supported(p[0]) && !Misfits(p) && !OutOfRange(p)
    ensures var v := Judge(order, unit, p); v.Ask? && Puts(order, unit, p, v.call)
  {
    JudgedExactly(order, unit, p);
    var c := Judge(order, unit, p).call;
    if p[0] == 15 {
      CoilsPut(p, At(p, 3), c.data);
    } else if p[0] == 16 {
      RegistersPut(order, p, 6, At(p, 3), c.data);
    } else if p[0] == 6 {
      assert p[3..5] == p[3..];
      RegistersPut(order, p, 3, 1, c.data);
    } else if p[0] == 22 {
      assert p[3..7] == p[3..];
      RegistersPut(order, p, 3, 2, c.data);
    }
  }

  // ---- What the server does with a request ----

  /** An exception response: the function code with its highest bit set, and the code. */
  function Exception(f: Frame, code: Byte): Frame
    requires |f.payload| > 0
  {
    Frame(f.transaction, f.unit, [f.payload[0] % 128 + 128, code])
  }

  /** The whole treatment of one request: a misfit is not answered, the connection ends; an unsupported
      function code is refused with 1, a value out of range with 3, and nobody is asked; otherwise the
      callback is asked, and its answer is the reply: none for a forced timeout (255), an exception for
      any other code but 0. */
  ghost predicate Treats(order: ByteOrder, f: Frame, h: Handler, s: Served)
    requires 5 <= |f.payload| <= MAX_PAYLOAD_LENGTH
  {
    var p := f.payload;
    if !Supported(p[0]) then s == Done(None, Some(Exception(f, 1)))
    else if Misfits(p) then s == Disconnect
    else if OutOfRange(p) then s == Done(None, Some(Exception(f, 3)))
    else
      && s.Done? && s.call.Some? && Puts(order, f.unit, p, s.call.value)
      && var a := h(s.call.value);
      if a.code == 255 then s.reply == None
      else if a.code != 0 then s.reply == Some(Exception(f, a.code))
      else
        && s.reply.Some? && s.reply.value.transaction == f.transaction && s.reply.value.unit == f.unit
        && Replies(order, p, a.data, s.reply.value.payload)
  }

  lemma ReplyReplies(order: ByteOrder, p: Memory, data: Memory)
    requires 5 <= |p| <= MAX_PAYLOAD_LENGTH && Supported(p[0]) && !Misfits(p) && !OutOfRange(p)
    requires Judge(order, 0, p).Ask? && |data| == ReadBytes(p[0], CountOf(p))
    ensures Replies(order, p, data, ReplyPayload(order, p, SUCCESS, data))
  {
    var r := ReplyPayload(order, p, SUCCESS, data);
    if p[0] in {1, 2} {
      assert r[2..] == MaskLast(data, At(p, 3));
      CoilsReturned(At(p, 3), data, r[2..]);
    } else if p[0] in {3, 4} {
      assert r[2..] == Reorder(order, data);
      forall i | 0 <= i < At(p, 3) && 2 * i + 1 < |data| ensures At(r, 2 + 2 * i) == Register(order, data, i) {
        RegisterReturned(order, data, r, i);
      }
    }
  }

  /** A register on its way to the wire. */
  lemma ReorderedRegister(order: ByteOrder, data: Memory, k: nat)
    requires |data| % 2 == 0 && k % 2 == 0 && k + 1 < |data|
    ensures At(Reorder(order, data), k) ==
            if order == Host then Big(data[k + 1], data[k]) else Big(data[k], data[k + 1])
  {
    assert (k + 1) % 2 == 1;
  }

  lemma RegisterReturned(order: ByteOrder, data: Memory, r: Memory, i: nat)
    requires |data| % 2 == 0 && 2 * i + 1 < |data| && |r| == 2 + |data| && r[2..] == Reorder(order, data)
    ensures At(r, 2 + 2 * i) == Register(order, data, i)
  {
    var k := 2 * i;
    ReorderedRegister(order, data, k);
    assert r[2 + k] == r[2..][k] && r[2 + k + 1] == r[2..][k + 1];
  }

  lemma AnswerTreated(order: ByteOrder, f: Frame, a: Answer)
    requires 5 <= |f.payload| <= MAX_PAYLOAD_LENGTH
    requires var p := f.payload; Supported(p[0]) && !Misfits(p) && !OutOfRange(p)
    requires a.code == 0 ==>
      Judge(order, 0, f.payload).Ask? && |a.data| == ReadBytes(f.payload[0], CountOf(f.payload))
    ensures var reply := Finish(order, f, a.code, a.data);
            if a.code == 255 then reply == None
            else if a.code != 0 then reply == Some(Exception(f, a.code))
            else
              && reply.Some? && reply.value.transaction == f.transaction && reply.value.unit == f.unit
              && Replies(order, f.payload, a.data, reply.value.payload)
  {
    if a.code == 0 { ReplyReplies(order, f.payload, a.data); }
  }

  /** Every request is treated like that, in both byte orders and for every callback. */
  lemma RequestTreated(order: ByteOrder, f: Frame, h: Handler, s: Served)
    requires 5 <= |f.payload| <= MAX_PAYLOAD_LENGTH && s == Respond(order, f, h)
    ensures Treats(order, f, h, s)
  {
    var p := f.payload;
    JudgedExactly(order, f.unit, p);
    if Supported(p[0]) && !Misfits(p) && !OutOfRange(p) {
      JudgedPuts(order, f.unit, p);
      var call := Judge(order, f.unit, p).call;
      assert Filled(call, h(call));
      JudgedExactly(order, 0, p);
      AnswerTreated(order, f, h(call));
    }
  }

  // ---- Visits and runs ----

  /** As much of a reply as the send loop gets rid of. */
  function Gone(reply: Option<Frame>, sends: Sending.Script): Memory
    requires reply.Some? ==> Sendable(reply.value)
  {
    match reply
    case None => []
    case Some(r) => FrameBytes(r)[..Sending.SendAll(|FrameBytes(r)|, sends).offset]
  }

  /** The connection stays open for the next request, unless the send loop reports a failure. */
  function Afterwards(reply: Option<Frame>, sends: Sending.Script): Status
    requires reply.Some? ==> Sendable(reply.value)
  {
    match reply
    case None => Open(Conn([], false, []))
    case Some(r) =>
      var s := Sending.SendAll(|FrameBytes(r)|, sends);
      if s.ok then Open(Conn([], false, [])) else Ended(SocketSendFailed, s.errno)
  }

  /** What a visit that has completed the request f shows of its treatment. */
  ghost predicate Concludes(f: Frame, v: Visit, t: Served, r: Visited) {
    match t
    case Disconnect => r.call.None? && r.sent == [] && r.frame.None? && r.status == Ended(ProtocolError, -1)
    case Done(call, reply) =>
      && r.call == call && r.frame == Some(f)
      && (reply.Some? ==> Sendable(reply.value)) && r.sent == Gone(reply, v.sends)
      && r.status == Afterwards(reply, v.sends)
  }

  lemma SettleConcludes(order: ByteOrder, f: Frame, took: Memory, v: Visit, t: Served, r: Visited)
    requires 5 <= |f.payload| <= MAX_PAYLOAD_LENGTH
    requires t == Respond(order, f, v.handler) && r == Settle(order, Received(Complete(f), took), v)
    ensures Concludes(f, v, t, r)
  {
    match t
    case Disconnect =>
    case Done(call, None) =>
    case Done(call, Some(reply)) => RepliedConcludes(f, took, v, call, reply, r);
  }

  lemma RepliedConcludes(f: Frame, took: Memory, v: Visit, call: Option<Call>, reply: Frame, r: Visited)
    requires Sendable(reply)
    requires var s := Sending.SendAll(|FrameBytes(reply)|, v.sends);
             r == Visited(if s.ok then Open(FRESH) else Ended(SocketSendFailed, s.errno), took, Some(f), call,
                          FrameBytes(reply)[..s.offset])
    ensures Concludes(f, v, Done(call, Some(reply)), r)
  {
  }

  /** Nothing else completes a request. */
  lemma NotComplete(c: Conn, header: Recv, payload: Recv)
    requires Pending(c) && !Receive(c, header, payload).outcome.Complete?
    ensures !StartsFrame(c.header + c.payload + Receive(c, header, payload).took)
  {
    ReceiveContinues(c, header, payload);
    var o, s := Receive(c, header, payload).outcome, c.header + c.payload + Receive(c, header, payload).took;
    if o.Lost? && o.reason == ProtocolError {
      BrokenHeader(c, header, payload);
    } else {
      NoFrame(s);
    }
  }

  lemma NoFrame(s: Memory)
    requires Parse(s) == Parsed([], Partial(s))
    ensures !StartsFrame(s)
  {
  }

  lemma BrokenHeader(c: Conn, header: Recv, payload: Recv)
    requires Pending(c)
    requires var o := Receive(c, header, payload).outcome; o.Lost? && o.reason == ProtocolError
    ensures !StartsFrame(c.header + c.payload + Receive(c, header, payload).took)
  {
    var h := c.header + Receive(c, header, payload).took;
    assert !c.checked && c.payload == [] && |h| == HEADER_LENGTH && !GoodHeader(h);
    assert c.header + c.payload == c.header && h[..HEADER_LENGTH] == h;
  }

  /** Nothing was complete, nobody was asked. */
  function Unfinished(s: Status, took: Memory): Visited { Visited(s, took, None, None, []) }

  /** How a visit ends if recv has nothing: it waits, or the connection is lost. */
  ghost predicate Nothing(r: Visited, recv: Recv, c: Conn, took: Memory)
    requires !recv.Data?
  {
    match recv
    case Again => r == Unfinished(Open(c), took)
    case Failed(errno) => r == Unfinished(Ended(SocketReceiveFailed, errno), took)
    case Closed => r == Unfinished(Ended(DisconnectedByPeer, -1), took)
  }

  /** The payload part of a visit: it takes what it is handed, up to what the header announces. */
  ghost predicate TakesPayload(r: Visited, header: Memory, held: Memory, recv: Recv, first: Memory)
    requires |header| == 7 && |held| < At(header, 4) - 1
  {
    if !recv.Data? then Nothing(r, recv, Conn(header, true, held), first)
    else
      var got := Granted(recv, At(header, 4) - 1 - |held|);
      && r.took == first + got
      && (|held| + |got| < At(header, 4) - 1 ==> r == Unfinished(Open(Conn(header, true, held + got)), first + got))
  }

  /** The header part of a visit. */
  ghost predicate TakesHeader(r: Visited, c: Conn, v: Visit)
    requires |c.header| < 7
  {
    if !v.header.Data? then Nothing(r, v.header, c, [])
    else
      var first := Granted(v.header, 7 - |c.header|);
      var h := c.header + first;
      if |h| < 7 then r == Unfinished(Open(Conn(h, false, [])), first)
      else if h[2] != 0 || h[3] != 0 || At(h, 4) < 6 || At(h, 4) > 253 then
        r == Unfinished(Ended(ProtocolError, -1), first)
      else TakesPayload(r, h, [], v.payload, first)
  }

  lemma PayloadReceives(order: ByteOrder, c: Conn, v: Visit, first: Memory)
    requires Pending(c) && c.checked
    ensures |c.payload| < At(c.header, 4) - 1
    ensures var p := ReceivePayload(c, v.payload);
            TakesPayload(Settle(order, Received(p.outcome, first + p.took), v), c.header, c.payload, v.payload, first)
  {
    var p := ReceivePayload(c, v.payload);
    SettleFollows(order, Received(p.outcome, first + p.took), v);
    assert first + [] == first;
  }

  lemma SettlesUnfinished(order: ByteOrder, v: Visit, conn: Conn, reason: Reason, errno: int, took: Memory)
    ensures Settle(order, Received(Wait(conn), took), v) == Unfinished(Open(conn), took)
    ensures Settle(order, Received(Lost(reason, errno), took), v) == Unfinished(Ended(reason, errno), took)
  {
  }

  lemma NoHeaderReceived(order: ByteOrder, c: Conn, v: Visit, got: Received)
    requires Pending(c) && !c.checked && got == Receive(c, v.header, v.payload) && !v.header.Data?
    ensures TakesHeader(Settle(order, got, v), c, v)
  {
    match v.header
    case Again => SettlesUnfinished(order, v, c, Idle, 0, []);
    case Failed(errno) => SettlesUnfinished(order, v, c, SocketReceiveFailed, errno, []);
    case Closed => SettlesUnfinished(order, v, c, DisconnectedByPeer, -1, []);
  }

  lemma PartReceived(order: ByteOrder, c: Conn, v: Visit, got: Received, first: Memory, h: Memory)
    requires Pending(c) && !c.checked && got == Receive(c, v.header, v.payload) && v.header.Data?
    requires first == Granted(v.header, 7 - |c.header|) && h == c.header + first && (|h| < 7 || !GoodHeader(h))
    ensures Settle(order, got, v) ==
            if |h| < 7 then Unfinished(Open(Conn(h, false, [])), first)
            else Unfinished(Ended(ProtocolError, -1), first)
  {
    SettlesUnfinished(order, v, Conn(h, false, []), ProtocolError, -1, first);
  }

  lemma HeaderGood(h: Memory)
    requires |h| == 7
    ensures GoodHeader(h) <==> h[2] == 0 && h[3] == 0 && 6 <= At(h, 4) <= 253
  {
    ZeroWord(h[2], h[3]);
    assert LengthOf(h) == At(h, 4);
  }

  lemma RestReceived(order: ByteOrder, c: Conn, v: Visit, got: Received, first: Memory, h: Memory, r: Visited)
    requires Pending(c) && !c.checked && got == Receive(c, v.header, v.payload) && v.header.Data?
    requires first == Granted(v.header, 7 - |c.header|) && h == c.header + first && |h| == 7 && GoodHeader(h)
    requires r == Settle(order, got, v)
    ensures 0 < At(h, 4) - 1 && TakesPayload(r, h, [], v.payload, first)
  {
    PayloadReceives(order, Conn(h, true, []), v, first);
  }

  lemma HeaderReceives(order: ByteOrder, c: Conn, v: Visit, got: Received, r: Visited)
    requires Pending(c) && !c.checked && got == Receive(c, v.header, v.payload) && r == Settle(order, got, v)
    ensures TakesHeader(r, c, v)
  {
    if v.header.Data? {
      var first := Granted(v.header, 7 - |c.header|);
      var h := c.header + first;
      if |h| == 7 { HeaderGood(h); }
      if |h| == 7 && GoodHeader(h) {
        RestReceived(order, c, v, got, first, h, r);
      } else {
        PartReceived(order, c, v, got, first, h);
      }
    } else {
      NoHeaderReceived(order, c, v, got);
    }
  }

  /** What a visit receives: up to the seven header bytes, which have to announce protocol 0 and a length
      of 6 to 253, and in the same visit, once they are complete, as much as there is of the payload. */
  lemma VisitReceives(order: ByteOrder, c: Conn, v: Visit)
    requires Pending(c)
    ensures var r := ServeVisit(order, c, v);
            if |c.header| == 7 then
              |c.payload| < At(c.header, 4) - 1 && TakesPayload(r, c.header, c.payload, v.payload, [])
            else TakesHeader(r, c, v)
  {
    if |c.header| == 7 {
      PayloadReceives(order, c, v, []);
      assert [] + ReceivePayload(c, v.payload).took == ReceivePayload(c, v.payload).took;
    } else {
      HeaderReceives(order, c, v, Receive(c, v.header, v.payload), ServeVisit(order, c, v));
    }
  }

  /** A visit in which a request becomes complete treats it as said; in any other visit nobody is asked and
      nothing is sent. */
  lemma VisitAnswers(order: ByteOrder, c: Conn, v: Visit)
    requires Pending(c)
    ensures var r := ServeVisit(order, c, v);
            var s := c.header + c.payload + r.took;
            if StartsFrame(s) then
              var t := Respond(order, FirstFrame(s), v.handler);
              Treats(order, FirstFrame(s), v.handler, t) && Concludes(FirstFrame(s), v, t, r)
            else r.call.None? && r.sent == [] && r.frame.None?
  {
    var got := Receive(c, v.header, v.payload);
    var s := c.header + c.payload + got.took;
    assert ServeVisit(order, c, v).took == got.took by { SettleFollows(order, got, v); }
    match got.outcome
    case Complete(f) =>
      ReceiveContinues(c, v.header, v.payload);
      RequestTreated(order, f, v.handler, Respond(order, f, v.handler));
      SettleConcludes(order, f, got.took, v, Respond(order, f, v.handler), ServeVisit(order, c, v));
    case _ => NotComplete(c, v.header, v.payload);
  }

  /** What a turn shows, if its request is treated as s says. */
  ghost predicate Shows(s: Served, sends: Sending.Script, acts: seq<Act>) {
    match s
    case Disconnect => acts == []
    case Done(call, reply) =>
      (reply.Some? ==> Sendable(reply.value)) && acts == ActsOf(call, Gone(reply, sends))
  }

  lemma TurnShows(order: ByteOrder, t: Turn, s: Served)
    requires s == Respond(order, t.frame, t.visit.handler)
    ensures Shows(s, t.visit.sends, TurnActs(order, t))
  {
  }

  /** Over any run, what the connection has asked and sent is, turn by turn, what the treatment of the
      dispatched requests says. */
  lemma RunAnswers(order: ByteOrder, visits: seq<Visit>, k: nat)
    requires k < |Turns(order, visits)|
    ensures AllActs(order, Turns(order, visits)) == Run(order, visits).acts
    ensures var t := Turns(order, visits)[k];
            var s := Respond(order, t.frame, t.visit.handler);
            Treats(order, t.frame, t.visit.handler, s) && Shows(s, t.visit.sends, TurnActs(order, t))
  {
    var t := Turns(order, visits)[k];
    RunTurns(order, visits);
    RequestTreated(order, t.frame, t.visit.handler, Respond(order, t.frame, t.visit.handler));
    TurnShows(order, t, Respond(order, t.frame, t.visit.handler));
  }
}
