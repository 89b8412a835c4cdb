/** How the server cuts the byte stream of one connection into request frames, one `tick` at a
    time, and the batch parser that this incremental form refines. */
module ServerFraming {
  import opened Bytes
  import opened ModbusCommon
  import opened ModbusRules
  import Sending

  /** What `recv` reports: would block, an error, the end of the stream, or buffered bytes. */
  datatype Recv = Again | Failed(errno: int) | Closed | Data(first: Byte, more: Memory)

  /** The bytes that `recv` hands over when asked for at most n of them. */
  function Granted(r: Recv, n: nat): (m: Memory)
    requires r.Data?
    ensures |m| <= n && (n > 0 ==> |m| > 0)
  {
    var all := [r.first] + r.more;
    if n < |all| then all[..n] else all
  }

  datatype Reason =
    | NoFreeClient | SocketReceiveFailed | SocketSendFailed | DisconnectedByPeer
    | ProtocolError | Displaced | Idle | ServerStopped

  /** The partly received request of a connection. */
  datatype Conn = Conn(header: Memory, checked: bool, payload: Memory)

  const FRESH := Conn([], false, [])

  predicate GoodHeader(h: Memory)
    requires |h| == HEADER_LENGTH
  {
    ProtocolOf(h) == 0 && MIN_REQUEST_FRAME_LENGTH <= LengthOf(h) <= MAX_REQUEST_FRAME_LENGTH
  }

  /** What holds between ticks: the header is complete exactly when it has been checked, and a
      checked request still misses payload. */
  predicate Pending(c: Conn) {
    && |c.header| <= HEADER_LENGTH
    && (c.checked <==> |c.header| == HEADER_LENGTH)
    && (if c.checked then GoodHeader(c.header) && |c.payload| < LengthOf(c.header) - 1 else c.payload == [])
  }

  datatype Outcome =
    | Wait(conn: Conn)
    | Complete(frame: Frame)
    | Lost(reason: Reason, errno: int)

  /** The outcome of one visit, and the bytes it took from the stream. */
  datatype Received = Received(outcome: Outcome, took: Memory)

  /** The header part of a visit. */
  function ReceiveHeader(c: Conn, r: Recv): Received
    requires Pending(c) && !c.checked
  {
    match r
    case Again => Received(Wait(c), [])
    case Failed(e) => Received(Lost(SocketReceiveFailed, e), [])
    case Closed => Received(Lost(DisconnectedByPeer, -1), [])
    case Data(_, _) =>
      var got := Granted(r, HEADER_LENGTH - |c.header|);
      var header := c.header + got;
      if |header| < HEADER_LENGTH then Received(Wait(c.(header := header)), got)
      else if !GoodHeader(header) then Received(Lost(ProtocolError, -1), got)
      else Received(Wait(Conn(header, true, [])), got)
  }

  /** The payload part of a visit. */
  function ReceivePayload(c: Conn, r: Recv): Received
    requires Pending(c) && c.checked
  {
    match r
    case Again => Received(Wait(c), [])
    case Failed(e) => Received(Lost(SocketReceiveFailed, e), [])
    case Closed => Received(Lost(DisconnectedByPeer, -1), [])
    case Data(_, _) =>
      var got := Granted(r, LengthOf(c.header) - 1 - |c.payload|);
      var payload := c.payload + got;
      if |payload| < LengthOf(c.header) - 1 then Received(Wait(c.(payload := payload)), got)
      else Received(Complete(Frame(TransactionOf(c.header), UnitOf(c.header), payload)), got)
  }

  /** One visit of `tick` to a readable connection: at most one `recv` for the header and, once
      the header is complete, one for the payload. */
  function Receive(c: Conn, header: Recv, payload: Recv): (r: Received)
    requires Pending(c)
    ensures r.outcome.Wait? ==> Pending(r.outcome.conn)
    ensures r.outcome.Complete? ==> 5 <= |r.outcome.frame.payload| <= MAX_PAYLOAD_LENGTH
  {
    if c.checked then ReceivePayload(c, payload)
    else
      var h := ReceiveHeader(c, header);
      if h.outcome.Wait? && h.outcome.conn.checked then
        var p := ReceivePayload(h.outcome.conn, payload);
        Received(p.outcome, h.took + p.took)
      else h
  }

  // ---- The batch parser ----

  /** What is left after the complete requests of a stream: the beginning of another one, or a
      protocol error after `at` bytes. */
  datatype Rest = Partial(bytes: Memory) | Broken(at: nat)

  datatype Parsed = Parsed(frames: seq<Frame>, rest: Rest)

  /** Puts a frame of n bytes in front of what was parsed after it. */
  function Prepend(f: Frame, n: nat, p: Parsed): Parsed {
    Parsed([f] + p.frames, if p.rest.Broken? then Broken(n + p.rest.at) else p.rest)
  }

  /** The first frame of a stream that starts with a good header and is long enough. */
  function FirstFrame(s: Memory): (f: Frame)
    requires |s| >= HEADER_LENGTH && GoodHeader(s[..HEADER_LENGTH])
    requires |s| >= 6 + LengthOf(s[..HEADER_LENGTH])
    ensures 5 <= |f.payload| <= MAX_PAYLOAD_LENGTH
  {
    var h := s[..HEADER_LENGTH];
    Frame(TransactionOf(h), UnitOf(h), s[HEADER_LENGTH..6 + LengthOf(h)])
  }

  /** The payload does not have the length that its function code, count and byte count call for. */
  predicate Rejected(f: Frame)
    requires |f.payload| >= 5
  {
    var p := f.payload;
    if Reads(p[0]) || WritesSingle(p[0]) then |p| != 5
    else if p[0] == WRITE_MULTIPLE_COILS then
      |p| < 7 || (1 <= CountOf(p) <= 1968 && p[5] == CoilBytes(CountOf(p)) && |p| != 6 + p[5])
    else if p[0] == WRITE_MULTIPLE_REGISTERS then
      |p| < 8 || (1 <= CountOf(p) <= 123 && p[5] == 2 * CountOf(p) && |p| != 6 + p[5])
    else p[0] == MASK_WRITE_REGISTER && |p| != 7
  }

  /** The stream starts with a complete frame under a good header. */
  predicate StartsFrame(s: Memory) {
    && |s| >= HEADER_LENGTH && GoodHeader(s[..HEADER_LENGTH])
    && |s| >= 6 + LengthOf(s[..HEADER_LENGTH])
  }

  function Parse(s: Memory): (p: Parsed)
    ensures if p.rest.Partial? then |p.rest.bytes| <= |s| else p.rest.at <= |s|
  {
    if |s| >= HEADER_LENGTH && !GoodHeader(s[..HEADER_LENGTH]) then Parsed([], Broken(HEADER_LENGTH))
    else if !StartsFrame(s) then Parsed([], Partial(s))
    else
      var n := 6 + LengthOf(s[..HEADER_LENGTH]);
      if Rejected(FirstFrame(s)) then Parsed([], Broken(n))
      else Prepend(FirstFrame(s), n, Parse(s[n..]))
  }

  /** A first frame does not depend on what follows it. */
  lemma FirstFrameExtends(s: Memory, t: Memory)
    requires StartsFrame(s)
    ensures StartsFrame(s + t) && FirstFrame(s + t) == FirstFrame(s)
    ensures (s + t)[..HEADER_LENGTH] == s[..HEADER_LENGTH]
    ensures var n := 6 + LengthOf(s[..HEADER_LENGTH]); (s + t)[n..] == s[n..] + t
  {
    var h := s[..HEADER_LENGTH];
    assert (s + t)[..HEADER_LENGTH] == h;
    assert (s + t)[HEADER_LENGTH..6 + LengthOf(h)] == s[HEADER_LENGTH..6 + LengthOf(h)];
  }

  /** What `q` adds to a stream of which n bytes were parsed as `p`. */
  function Then(p: Parsed, n: nat, q: Parsed): Parsed {
    if p.rest.Broken? then p
    else Parsed(p.frames + q.frames, if q.rest.Broken? then Broken(n + q.rest.at) else q.rest)
  }

  lemma PrependThen(f: Frame, n: nat, p: Parsed, k: nat, q: Parsed)
    ensures Prepend(f, n, Then(p, k, q)) == Then(Prepend(f, n, p), n + k, q)
  {
    assert [f] + (p.frames + q.frames) == [f] + p.frames + q.frames;
  }

  lemma ParseFirst(s: Memory)
    requires StartsFrame(s) && !Rejected(FirstFrame(s))
    ensures var n := 6 + LengthOf(s[..HEADER_LENGTH]);
            Parse(s) == Prepend(FirstFrame(s), n, Parse(s[n..]))
  {
  }

  lemma ParseFirstThen(s: Memory, t: Memory)
    requires StartsFrame(s) && !Rejected(FirstFrame(s))
    ensures var n := 6 + LengthOf(s[..HEADER_LENGTH]);
            Parse(s + t) == Prepend(FirstFrame(s), n, Parse(s[n..] + t))
  {
    FirstFrameExtends(s, t);
    ParseFirst(s + t);
  }

  /** The parse p of a stream of this size, taken further. */
  function Further(p: Parsed, size: nat, t: Memory): Parsed
    requires p.rest.Partial? ==> |p.rest.bytes| <= size
  {
    if p.rest.Broken? then p else Then(p, size - |p.rest.bytes|, Parse(p.rest.bytes + t))
  }

  /** The parse of a stream after s, given the parse of s. */
  function Resume(s: Memory, t: Memory): Parsed { Further(Parse(s), |s|, t) }

  lemma FurtherPrepends(f: Frame, n: nat, p: Parsed, size: nat, t: Memory, q: Parsed, whole: nat)
    requires (p.rest.Partial? ==> |p.rest.bytes| <= size) && q == Prepend(f, n, p) && whole == n + size
    ensures Prepend(f, n, Further(p, size, t)) == Further(q, whole, t)
  {
    if p.rest.Partial? { PrependThen(f, n, p, size - |p.rest.bytes|, Parse(p.rest.bytes + t)); }
  }

  /** More bytes after a protocol error change nothing; more bytes after a partial request
      continue that request. */
  lemma {:induction false} ParseExtends(s: Memory, t: Memory)
    ensures Parse(s + t) == Resume(s, t)
    decreases |s|
  {
    if StartsFrame(s) {
      FirstFrameExtends(s, t);
      if Rejected(FirstFrame(s)) {
        BrokenExtends(s, t);
      } else {
        ParseExtends(s[6 + LengthOf(s[..HEADER_LENGTH])..], t);
        FrameExtends(s, t);
      }
    } else if |s| >= HEADER_LENGTH && !GoodHeader(s[..HEADER_LENGTH]) {
      assert (s + t)[..HEADER_LENGTH] == s[..HEADER_LENGTH];
    } else {
      assert Parse(s) == Parsed([], Partial(s));
    }
  }

  lemma BrokenExtends(s: Memory, t: Memory)
    requires StartsFrame(s) && Rejected(FirstFrame(s))
    ensures Parse(s + t) == Resume(s, t)
  {
    FirstFrameExtends(s, t);
  }

  lemma FrameExtends(s: Memory, t: Memory)
    requires StartsFrame(s) && !Rejected(FirstFrame(s))
    requires var n := 6 + LengthOf(s[..HEADER_LENGTH]); Parse(s[n..] + t) == Resume(s[n..], t)
    ensures Parse(s + t) == Resume(s, t)
  {
    var f, n := FirstFrame(s), 6 + LengthOf(s[..HEADER_LENGTH]);
    var tail := Parse(s[n..]);
    ParseFirst(s);
    ParseFirstThen(s, t);
    FurtherPrepends(f, n, tail, |s[n..]|, t, Parse(s), |s|);
  }

  // ---- Whole runs of one connection ----

  /** A request callback, as a function of its arguments; it fills the memory of a read. */
  type Handler = h: Call -> Answer | forall c :: Filled(c, h(c))
    witness Zeros

  function Zeros(c: Call): (a: Answer)
    ensures Filled(c, a)
  {
    Answer(SUCCESS, seq(ReadBytes(c.fc, c.count), _ => 0))
  }

  /** What the environment does during one visit. */
  datatype Visit = Visit(header: Recv, payload: Recv, handler: Handler, sends: Sending.Script)

  datatype Status = Open(conn: Conn) | Ended(reason: Reason, errno: int)

  /** What a complete frame leads to. */
  function Respond(order: ByteOrder, f: Frame, h: Handler): Served
    requires 5 <= |f.payload| <= MAX_PAYLOAD_LENGTH
  {
    var v := Judge(order, f.unit, f.payload);
    Serve(order, f, if v.Ask? then h(v.call) else Answer(SUCCESS, []))
  }

  /** The effects of one visit: bytes taken, the request dispatched, what the callback was asked,
      the reply and how much of it went out, and the connection afterwards. */
  datatype Visited = Visited(status: Status, took: Memory, frame: Option<Frame>, call: Option<Call>, sent: Memory)

  function ServeVisit(order: ByteOrder, c: Conn, v: Visit): (r: Visited)
    requires Pending(c)
    ensures r.status.Open? ==> Pending(r.status.conn)
    ensures r.frame.Some? ==> 5 <= |r.frame.value.payload| <= MAX_PAYLOAD_LENGTH
  {
    Settle(order, Receive(c, v.header, v.payload), v)
  }

  /** The visit behind its receiving part. */
  function Settle(order: ByteOrder, got: Received, v: Visit): Visited
    requires got.outcome.Complete? ==> 5 <= |got.outcome.frame.payload| <= MAX_PAYLOAD_LENGTH
  {
    match got.outcome
    case Wait(conn) => Visited(Open(conn), got.took, None, None, [])
    case Lost(reason, errno) => Visited(Ended(reason, errno), got.took, None, None, [])
    case Complete(f) =>
      match Respond(order, f, v.handler)
      case Disconnect => Visited(Ended(ProtocolError, -1), got.took, None, None, [])
      case Done(call, None) => Visited(Open(FRESH), got.took, Some(f), call, [])
      case Done(call, Some(reply)) =>
        var bytes := FrameBytes(reply);
        var s := Sending.SendAll(|bytes|, v.sends);
        Visited(if s.ok then Open(FRESH)
                else Ended(SocketSendFailed, s.errno), got.took, Some(f), call, bytes[..s.offset])
  }

  /** What a connection shows to the outside: a question to the callback, bytes handed to the socket. */
  datatype Act = Asks(call: Call) | Sends(bytes: Memory)

  function ActsOf(call: Option<Call>, sent: Memory): seq<Act> {
    (if call.Some? then [Asks(call.value)] else []) + if sent != [] then [Sends(sent)] else []
  }

  datatype History = History(status: Status, took: Memory, frames: seq<Frame>, acts: seq<Act>)

  function Extend(h: History, r: Visited): History {
    History(r.status, h.took + r.took, h.frames + (if r.frame.Some? then [r.frame.value] else []),
            h.acts + ActsOf(r.call, r.sent))
  }

  /** A connection from its acceptance through all visits; nothing happens after it ended. */
  function Run(order: ByteOrder, visits: seq<Visit>): (h: History)
    ensures h.status.Open? ==> Pending(h.status.conn)
  {
    if visits == [] then History(Open(FRESH), [], [], [])
    else
      var h := Run(order, visits[..|visits| - 1]);
      if h.status.Ended? then h else Extend(h, ServeVisit(order, h.status.conn, visits[|visits| - 1]))
  }

  /** How an outcome relates to the bytes s that belong to the current request so far. */
  ghost predicate Continues(s: Memory, o: Outcome) {
    match o
    case Wait(d) => Pending(d) && d.header + d.payload == s && Parse(s) == Parsed([], Partial(s))
    case Complete(f) => StartsFrame(s) && |s| == 6 + LengthOf(s[..HEADER_LENGTH]) && FirstFrame(s) == f
    case Lost(ProtocolError, _) => Parse(s) == Parsed([], Broken(|s|))
    case Lost(_, _) => Parse(s) == Parsed([], Partial(s))
  }

  /** Too little for a header, or a good header and too little payload. */
  lemma ParsesPartial(s: Memory)
    requires |s| >= HEADER_LENGTH ==>
      GoodHeader(s[..HEADER_LENGTH]) && |s| < 6 + LengthOf(s[..HEADER_LENGTH])
    ensures Parse(s) == Parsed([], Partial(s))
  {
  }

  lemma HeaderInFront(h: Memory, p: Memory)
    requires |h| == HEADER_LENGTH
    ensures (h + p)[..HEADER_LENGTH] == h && (h + p)[HEADER_LENGTH..] == p && |h + p| == HEADER_LENGTH + |p|
  {
  }

  /** A good header and the payload that it announces. */
  lemma StartsWhole(h: Memory, p: Memory)
    requires |h| == HEADER_LENGTH && GoodHeader(h) && |p| == LengthOf(h) - 1
    ensures StartsFrame(h + p) && |h + p| == 6 + LengthOf(h) && (h + p)[..HEADER_LENGTH] == h
    ensures FirstFrame(h + p) == Frame(TransactionOf(h), UnitOf(h), p)
  {
    HeaderInFront(h, p);
    assert (h + p)[HEADER_LENGTH..6 + LengthOf(h)] == p;
  }

  lemma PayloadContinues(c: Conn, payload: Recv)
    requires Pending(c) && c.checked
    ensures var r := ReceivePayload(c, payload); Continues(c.header + c.payload + r.took, r.outcome)
  {
    var r := ReceivePayload(c, payload);
    var p := c.payload + r.took;
    assert c.header + c.payload + r.took == c.header + p;
    if r.outcome.Complete? {
      StartsWhole(c.header, p);
    } else {
      assert |p| < LengthOf(c.header) - 1;
      HeaderInFront(c.header, p);
      ParsesPartial(c.header + p);
    }
  }

  /** So many bytes of a header. */
  lemma ParsesHeader(s: Memory)
    requires |s| <= HEADER_LENGTH
    ensures Parse(s) == if |s| == HEADER_LENGTH && !GoodHeader(s) then Parsed([], Broken(HEADER_LENGTH))
                        else Parsed([], Partial(s))
  {
    if |s| == HEADER_LENGTH { assert s[..HEADER_LENGTH] == s; }
  }

  lemma HeaderContinues(c: Conn, header: Recv)
    requires Pending(c) && !c.checked
    ensures var r := ReceiveHeader(c, header); Continues(c.header + c.payload + r.took, r.outcome)
  {
    var r := ReceiveHeader(c, header);
    var s := c.header + r.took;
    assert c.header + c.payload + r.took == s;
    ParsesHeader(s);
    if r.outcome.Wait? {
      assert r.outcome.conn.header + r.outcome.conn.payload == s;
    }
  }

  /** What a visit takes continues the partial request that the connection holds. */
  lemma ReceiveContinues(c: Conn, header: Recv, payload: Recv)
    requires Pending(c)
    ensures var r := Receive(c, header, payload); Continues(c.header + c.payload + r.took, r.outcome)
  {
    if c.checked {
      PayloadContinues(c, payload);
    } else {
      HeaderContinues(c, header);
      var h := ReceiveHeader(c, header);
      if h.outcome.Wait? && h.outcome.conn.checked {
        var d := h.outcome.conn;
        PayloadContinues(d, payload);
        OneStream(c.header + c.payload, h.took, d.header + d.payload, ReceivePayload(d, payload).took);
      }
    }
  }

  lemma OneStream(held: Memory, first: Memory, both: Memory, second: Memory)
    requires both == held + first
    ensures held + (first + second) == both + second
  {
  }

  /** A connection with `total` bytes taken and these requests dispatched is where the parse p of
      those bytes says it should be. */
  ghost predicate Agrees(status: Status, total: nat, frames: seq<Frame>, p: Parsed) {
    && p.frames == frames
    && match status
       case Open(c) => Pending(c) && p.rest == Partial(c.header + c.payload)
       case Ended(ProtocolError, _) => p.rest == Broken(total)
       case Ended(_, _) => p.rest.Partial?
  }

  /** The run has seen exactly what the batch parser finds in the bytes it took. */
  ghost predicate Tracks(h: History) { Agrees(h.status, |h.took|, h.frames, Parse(h.took)) }

  /** The server disconnects exactly for a length that does not fit, whatever its byte order is. */
  lemma RejectionIgnoresOrder(order: ByteOrder, f: Frame)
    requires |f.payload| >= 5
    ensures Rejected(f) <==> Judge(order, f.unit, f.payload).Malformed?
  {
  }

  /** The incremental receiver refines the batch parser: however the stream is cut into visits and
      `recv` results, the dispatched requests and the protocol error are those of the stream. */
  lemma {:induction false} RunIsParse(order: ByteOrder, visits: seq<Visit>)
    ensures Tracks(Run(order, visits))
    decreases |visits|
  {
    if visits == [] {
    } else {
      RunIsParse(order, visits[..|visits| - 1]);
      var h := Run(order, visits[..|visits| - 1]);
      if h.status.Open? {
        VisitTracks(order, h, visits[|visits| - 1]);
      }
    }
  }

  /** One more visit, in terms of the batch parser only. */
  lemma FrameTracks(f: Frame, s: Memory)
    requires Continues(s, Complete(f))
    ensures Parse(s) == if Rejected(f) then Parsed([], Broken(|s|)) else Parsed([f], Partial([]))
  {
    assert s[|s|..] == [];
    assert Parse([]) == Parsed([], Partial([]));
  }

  /** What a visit makes of what it received. */
  ghost predicate Follows(got: Received, r: Visited) {
    && r.took == got.took
    && match got.outcome
       case Wait(d) => r.status == Open(d) && r.frame.None?
       case Lost(reason, errno) => r.status == Ended(reason, errno) && r.frame.None?
       case Complete(f) =>
         |f.payload| >= 5 &&
         if Rejected(f) then r.status == Ended(ProtocolError, -1) && r.frame.None?
         else
           && r.frame == Some(f)
           && (r.status == Open(FRESH) || (r.status.Ended? && r.status.reason == SocketSendFailed))
  }

  lemma SettleFollows(order: ByteOrder, got: Received, v: Visit)
    requires got.outcome.Complete? ==> 5 <= |got.outcome.frame.payload| <= MAX_PAYLOAD_LENGTH
    ensures Follows(got, Settle(order, got, v))
  {
    if got.outcome.Complete? {
      RejectionIgnoresOrder(order, got.outcome.frame);
    }
  }

  /** The parse of the current request's bytes after a visit, as its outcome says. */
  function OutcomeParse(o: Outcome, s: Memory): Parsed
    requires o.Complete? ==> |o.frame.payload| >= 5
  {
    match o
    case Complete(f) => if Rejected(f) then Parsed([], Broken(|s|)) else Parsed([f], Partial([]))
    case Lost(ProtocolError, _) => Parsed([], Broken(|s|))
    case _ => Parsed([], Partial(s))
  }

  lemma FollowAgrees(c: Conn, total: nat, frames: seq<Frame>, p: Parsed, got: Received, r: Visited)
    requires Agrees(Open(c), total, frames, p) && Follows(got, r)
    requires |c.header + c.payload| <= total
    requires got.outcome.Wait? ==>
      Pending(got.outcome.conn) && got.outcome.conn.header + got.outcome.conn.payload == c.header + c.payload + got.took
    requires got.outcome.Complete? ==> |got.outcome.frame.payload| >= 5
    ensures var q := OutcomeParse(got.outcome, c.header + c.payload + got.took);
            Agrees(r.status, total + |got.took|, frames + if r.frame.Some? then [r.frame.value] else [],
                   Then(p, total - |c.header + c.payload|, q))
  {
  }

  lemma VisitTracks(order: ByteOrder, h: History, v: Visit)
    requires h.status.Open? && Tracks(h)
    ensures Tracks(Extend(h, ServeVisit(order, h.status.conn, v)))
  {
    var c := h.status.conn;
    var got := Receive(c, v.header, v.payload);
    var s := c.header + c.payload + got.took;
    SettleFollows(order, got, v);
    ReceiveContinues(c, v.header, v.payload);
    if got.outcome.Complete? {
      FrameTracks(got.outcome.frame, s);
    }
    assert Parse(s) == OutcomeParse(got.outcome, s);
    ParseExtends(h.took, got.took);
    FollowAgrees(c, |h.took|, h.frames, Parse(h.took), got, ServeVisit(order, c, v));
  }

  /** Two connections whose streams agree as far as the shorter one goes: the one that took less
      dispatched a prefix of the other's requests, and a protocol error comes at the same byte. */
  lemma CutsDoNotMatter(order: ByteOrder, v: seq<Visit>, w: seq<Visit>, more: Memory)
    requires Run(order, w).took == Run(order, v).took + more
    ensures Run(order, v).frames <= Run(order, w).frames
    ensures more == [] ==> Run(order, v).frames == Run(order, w).frames
    ensures Run(order, v).status.Ended? && Run(order, v).status.reason == ProtocolError ==>
      more == [] && Run(order, w).status.Ended? && Run(order, w).status.reason == ProtocolError
  {
    RunIsParse(order, v);
    RunIsParse(order, w);
    var h, i := Run(order, v), Run(order, w);
    ParseExtends(h.took, more);
    if more == [] {
      assert h.took + more == h.took;
    }
  }

  /** Frames sent back to back. */
  function Stream(frames: seq<Frame>): Memory
    requires forall f <- frames :: Sendable(f)
  {
    if frames == [] then [] else FrameBytes(frames[0]) + Stream(frames[1..])
  }

  lemma FrameStarts(f: Frame, t: Memory)
    requires 5 <= |f.payload| <= MAX_PAYLOAD_LENGTH
    ensures var s := FrameBytes(f) + t;
            && StartsFrame(s) && FirstFrame(s) == f
            && 6 + LengthOf(s[..HEADER_LENGTH]) == |FrameBytes(f)| && s[|FrameBytes(f)|..] == t
  {
    var s := FrameBytes(f) + t;
    HeaderFields(f);
    assert s[..HEADER_LENGTH] == Header(f);
    assert s[HEADER_LENGTH..HEADER_LENGTH + |f.payload|] == f.payload;
  }

  /** The batch parser reads back any sequence of well-formed requests. */
  lemma {:induction false} StreamParses(frames: seq<Frame>)
    requires forall f <- frames :: 5 <= |f.payload| <= MAX_PAYLOAD_LENGTH && !Rejected(f)
    ensures Parse(Stream(frames)) == Parsed(frames, Partial([]))
  {
    if frames == [] {
      assert Parse([]) == Parsed([], Partial([]));
    } else {
      StreamParses(frames[1..]);
      FrameParses(frames[0], Stream(frames[1..]));
      assert [frames[0]] + frames[1..] == frames;
    }
  }

  /** A well-formed request in front of a stream. */
  lemma FrameParses(f: Frame, rest: Memory)
    requires 5 <= |f.payload| <= MAX_PAYLOAD_LENGTH && !Rejected(f)
    ensures Parse(FrameBytes(f) + rest) == Prepend(f, |FrameBytes(f)|, Parse(rest))
  {
    FrameStarts(f, rest);
    ParseFirst(FrameBytes(f) + rest);
  }

  /** A connection that took the bytes of well-formed requests dispatched exactly these. */
  lemma StreamDispatched(order: ByteOrder, visits: seq<Visit>, frames: seq<Frame>)
    requires forall f <- frames :: 5 <= |f.payload| <= MAX_PAYLOAD_LENGTH && !Rejected(f)
    requires Run(order, visits).took == Stream(frames)
    ensures Run(order, visits).frames == frames
  {
    StreamParses(frames);
    RunIsParse(order, visits);
  }

  // ---- What a connection did ----

  /** A dispatched request, and the visit in which it was complete. */
  datatype AnyTurn = Turn(frame: Frame, visit: Visit)

  predicate Sized(t: AnyTurn) { 5 <= |t.frame.payload| <= MAX_PAYLOAD_LENGTH }

  type Turn = t: AnyTurn | Sized(t)
    witness Turn(Frame(0, 0, [0, 0, 0, 0, 0]),
                 Visit(Again, Again, Zeros, _ => Sending.Again))

  /** What the connection did in a turn: it asked the callback of that visit, and sent as much of the
      reply to its answer as the send loop of that visit got rid of. */
  function TurnActs(order: ByteOrder, t: Turn): seq<Act> {
    match Respond(order, t.frame, t.visit.handler)
    case Disconnect => []
    case Done(call, None) => ActsOf(call, [])
    case Done(call, Some(reply)) =>
      var bytes := FrameBytes(reply);
      ActsOf(call, bytes[..Sending.SendAll(|bytes|, t.visit.sends).offset])
  }

  /** What a visit did is what its turn did, if there was one. */
  lemma VisitActs(order: ByteOrder, c: Conn, v: Visit)
    requires Pending(c)
    ensures var r := ServeVisit(order, c, v);
            if r.frame.None? then ActsOf(r.call, r.sent) == []
            else Sized(Turn(r.frame.value, v)) && ActsOf(r.call, r.sent) == TurnActs(order, Turn(r.frame.value, v))
  {
  }

  function NewTurns(frame: Option<Frame>, v: Visit): seq<Turn>
    requires frame.Some? ==> Sized(Turn(frame.value, v))
  {
    match frame
    case None => []
    case Some(f) => [Turn(f, v)]
  }

  /** The turns of a run, one for each dispatched request. */
  function Turns(order: ByteOrder, visits: seq<Visit>): seq<Turn> {
    if visits == [] then []
    else
      var n := |visits| - 1;
      var h := Run(order, visits[..n]);
      if h.status.Ended? then Turns(order, visits[..n])
      else Turns(order, visits[..n]) + NewTurns(ServeVisit(order, h.status.conn, visits[n]).frame, visits[n])
  }

  function FramesOf(turns: seq<Turn>): seq<Frame> {
    if turns == [] then [] else FramesOf(turns[..|turns| - 1]) + [turns[|turns| - 1].frame]
  }

  function AllActs(order: ByteOrder, turns: seq<Turn>): seq<Act> {
    if turns == [] then []
    else AllActs(order, turns[..|turns| - 1]) + TurnActs(order, turns[|turns| - 1])
  }

  /** Over any run, what a connection dispatches, asks and sends is what its turns say, one after the
      other. */
  lemma {:induction false} RunTurns(order: ByteOrder, visits: seq<Visit>)
    ensures FramesOf(Turns(order, visits)) == Run(order, visits).frames
    ensures AllActs(order, Turns(order, visits)) == Run(order, visits).acts
    decreases |visits|
  {
    if visits == [] {
      assert Turns(order, visits) == [];
    } else {
      var before, v := visits[..|visits| - 1], visits[|visits| - 1];
      var h := Run(order, before);
      RunTurns(order, before);
      if h.status.Open? { NextTurn(order, Turns(order, before), h, v); }
    }
  }

  lemma NextTurn(order: ByteOrder, turns: seq<Turn>, h: History, v: Visit)
    requires FramesOf(turns) == h.frames && AllActs(order, turns) == h.acts
    requires h.status.Open? && Pending(h.status.conn)
    ensures var r := ServeVisit(order, h.status.conn, v);
            var more := turns + NewTurns(r.frame, v);
            FramesOf(more) == Extend(h, r).frames && AllActs(order, more) == Extend(h, r).acts
  {
    VisitActs(order, h.status.conn, v);
    var r := ServeVisit(order, h.status.conn, v);
    match r.frame
    case None => assert turns + [] == turns && h.acts + [] == h.acts && h.frames + [] == h.frames;
    case Some(f) => assert (turns + [Turn(f, v)])[..|turns|] == turns;
  }

  /** A turn happens in one of the visits. */
  lemma {:induction false} TurnVisit(order: ByteOrder, visits: seq<Visit>, k: nat)
    requires k < |Turns(order, visits)|
    ensures Turns(order, visits)[k].visit in visits
    decreases |visits|
  {
    if visits == [] {
      assert false;
    } else {
      var before := visits[..|visits| - 1];
      if k < |Turns(order, before)| {
        TurnVisit(order, before, k);
        assert Turns(order, visits)[k] == Turns(order, before)[k];
      }
    }
  }
}
