/** The frames that the Modbus TCP client finds in its byte stream. */
module ClientFraming {
  import opened Bytes
  import opened ModbusCommon
  import opened ModbusRules
  import opened ClientRules
  import opened ClientRuns
  import opened ClientSafety
  import SF = ServerFraming

  // ---- The batch parser ----

  /** What is left after the complete responses of a stream: the beginning of another one, or
      something that cannot be one. */
  datatype Rest = Partial(bytes: Memory) | Broken

  datatype Parsed = Parsed(frames: seq<Frame>, rest: Rest)

  predicate HeaderComplete(m: Memory) { |m| >= HEADER_LENGTH }

  /** The stream starts with a good header and all that it announces. */
  predicate StartsFrame(m: Memory) {
    HeaderComplete(m) && CheckHeader(m[..HEADER_LENGTH]) == Good && |m| >= 6 + LengthOf(m[..HEADER_LENGTH])
  }

  function FirstFrame(m: Memory): Frame
    requires StartsFrame(m)
  {
    var h := m[..HEADER_LENGTH];
    Frame(TransactionOf(h), UnitOf(h), m[HEADER_LENGTH..6 + LengthOf(h)])
  }

  /** A frame too short to be a response. */
  predicate TooLittle(f: Frame) { 1 + |f.payload| < MIN_RESPONSE_FRAME_LENGTH }

  function After(frames: seq<Frame>, p: Parsed): Parsed { Parsed(frames + p.frames, p.rest) }

  function Parse(m: Memory): (p: Parsed)
    ensures p.rest.Partial? ==> |p.rest.bytes| <= |m|
  {
    if !HeaderComplete(m) then Parsed([], Partial(m))
    else if CheckHeader(m[..HEADER_LENGTH]) != Good then Parsed([], Broken)
    else if !StartsFrame(m) then Parsed([], Partial(m))
    else if TooLittle(FirstFrame(m)) then Parsed([], Broken)
    else After([FirstFrame(m)], Parse(m[6 + LengthOf(m[..HEADER_LENGTH])..]))
  }

  /** A complete frame, followed by anything. */
  lemma ParseFrame(m: Memory, t: Memory)
    requires StartsFrame(m) && |m| == 6 + LengthOf(m[..HEADER_LENGTH]) && !TooLittle(FirstFrame(m))
    ensures Parse(m + t) == After([FirstFrame(m)], Parse(t))
  {
    assert (m + t)[..HEADER_LENGTH] == m[..HEADER_LENGTH];
    assert (m + t)[HEADER_LENGTH..|m|] == m[HEADER_LENGTH..|m|];
    assert (m + t)[|m|..] == t;
  }

  /** A response as it is sent parses to itself. */
  lemma ResponseParses(f: Frame)
    requires 2 <= |f.payload| <= MAX_PAYLOAD_LENGTH
    ensures Parse(FrameBytes(f)) == Parsed([f], Partial([]))
  {
    var m := FrameBytes(f);
    HeaderFields(f);
    assert m[..HEADER_LENGTH] == Header(f) && m[HEADER_LENGTH..] == f.payload;
    ParseFrame(m, []);
    assert m + [] == m && [f] + Parse([]).frames == [f];
  }

  // ---- What the hook does with the stream ----

  function Held(rx: Rx): Memory { rx.header + rx.payload }

  /** All that a good header announces is held. */
  predicate Whole(rx: Rx) {
    StartsFrame(Held(rx)) && |Held(rx)| == 6 + LengthOf(Held(rx)[..HEADER_LENGTH])
  }

  /** One to six readable bytes behind a frame are taken for a part of it, if they fit. */
  predicate Trails(rx: Rx, e: RecvEnv) {
    && e.readable.Readable? && 0 < e.readable.count < HEADER_LENGTH
    && |rx.payload| + e.readable.count <= MAX_PAYLOAD_LENGTH
  }

  /** The next call of the hook takes trailing bytes for a part of the frame that is held. */
  predicate Swallows(rx: Rx, e: RecvEnv) { Whole(rx) && Trails(rx, e) && e.trailing.Data? }

  function Swallowed(rx: Rx, e: RecvEnv): Memory {
    if Swallows(rx, e) then SF.Granted(e.trailing, e.readable.count) else []
  }

  /** The frame that the next call of the hook resolves, if it leaves the client connected: the one that
      is held, with the trailing bytes; none if these are announced but do not come. */
  function Resolved(rx: Rx, e: RecvEnv): Option<Frame> {
    if !Whole(rx) || (Trails(rx, e) && !e.trailing.Data?) then None
    else
      var f := FirstFrame(Held(rx));
      var g := f.(payload := f.payload + Swallowed(rx, e));
      if TooLittle(g) then None else Some(g)
  }

  lemma HeldParts(rx: Rx)
    requires RxOk(rx) && |rx.header| == HEADER_LENGTH
    ensures Held(rx)[..HEADER_LENGTH] == rx.header && Held(rx)[HEADER_LENGTH..] == rx.payload
    ensures |Held(rx)| == HEADER_LENGTH + |rx.payload|
  {
  }

  /** What resolving a frame means to the client: the pending transaction with its ID is completed. */
  function ForFrame(order: ByteOrder, s: State, f: Frame, mem: Memory, calls: seq<Args>): State
    requires |f.payload| >= 2 && Resolvable(s, mem)
  {
    var t := s.(rx := NO_RX);
    if s.pending.None? || s.pending.value.wireId != f.transaction then t
    else
      var p := s.pending.value;
      var j := Check(order, p.tx.req, f.unit, f.payload, mem);
      FinishPending(t.(log := t.log + Writes(p, f.payload, j)), j.result, calls)
  }

  /** A call of the hook that leaves the client connected has either resolved a frame, with what it took,
      or it has resolved nothing and holds what it took in addition. */
  ghost predicate Takes(order: ByteOrder, s: State, mem: Memory, e: RecvEnv, r: Hooked)
    requires Resolvable(s, mem)
  {
    var f := Resolved(s.rx, e);
    if f.Some? then
      r.state.rx == NO_RX && r.took == Swallowed(s.rx, e) && r.more
      && r.state == ForFrame(order, s, f.value, mem, e.calls(1))
    else !Swallows(s.rx, e) && Held(r.state.rx) == Held(s.rx) + r.took && r.state.log == s.log
  }

  lemma HookTakes(order: ByteOrder, s: State, mem: Memory, e: RecvEnv)
    requires RxOk(s.rx) && Resolvable(s, mem) && s.connected
    requires Continue(order, s, mem, e).state.connected
    ensures Takes(order, s, mem, e, Continue(order, s, mem, e))
  {
    CloseDisconnects(s, e.calls, 2);
    if |s.rx.header| < HEADER_LENGTH {
      assert s.rx.payload == [];
    } else {
      HeldParts(s.rx);
      if s.rx.checked || CheckHeader(s.rx.header) == Good {
        WithHeaderTakes(order, s, mem, e);
      } else {
        FinishAndCloseDisconnects(s, RESPONSE_FRAME_SHORTER_THAN_MINIMUM, e.calls);
        FinishAndCloseDisconnects(s, RESPONSE_FRAME_LONGER_THAN_MAXIMUM, e.calls);
      }
    }
  }

  lemma WithHeaderTakes(order: ByteOrder, s: State, mem: Memory, e: RecvEnv)
    requires RxOk(s.rx) && Resolvable(s, mem) && s.connected
    requires |s.rx.header| == HEADER_LENGTH && CheckHeader(s.rx.header) == Good
    requires WithHeader(order, s, mem, e).state.connected
    ensures Takes(order, s, mem, e, WithHeader(order, s, mem, e))
  {
    HeldParts(s.rx);
    var u := s.(rx := s.rx.(checked := true, length := LengthOf(s.rx.header)));
    FinishAndCloseDisconnects(u, RECEIVE_FAILED, e.calls);
    FinishAndCloseDisconnects(u, DISCONNECTED_BY_PEER, e.calls);
    if u.rx.length - 1 > |u.rx.payload| {
      if e.recv.Data? { TakenIsHeld(s.rx, SF.Granted(e.recv, u.rx.length - 1 - |u.rx.payload|)); }
    } else {
      CompleteFrameTakes(order, u, mem, e);
      assert Held(u.rx) == Held(s.rx);
    }
  }

  /** What a receive buffer says about the frame in it. */
  function FrameIn(rx: Rx): Frame
    requires |rx.header| == HEADER_LENGTH
  {
    Frame(TransactionOf(rx.header), UnitOf(rx.header), rx.payload)
  }

  lemma AfterTrailingTakes(order: ByteOrder, s: State, mem: Memory, e: RecvEnv)
    requires |s.rx.header| == HEADER_LENGTH && |s.rx.payload| + 1 == s.rx.length && Resolvable(s, mem) && s.connected
    requires AfterTrailing(order, s, mem, e).state.connected
    ensures !TooLittle(FrameIn(s.rx))
    ensures AfterTrailing(order, s, mem, e) == Hooked(ForFrame(order, s, FrameIn(s.rx), mem, e.calls(1)), true, [])
    ensures AfterTrailing(order, s, mem, e).state.rx == NO_RX
  {
    FinishAndCloseDisconnects(s, RESPONSE_FRAME_SHORTER_THAN_MINIMUM, e.calls);
    ResolveResets(order, s, mem, e.calls(1));
  }

  /** A complete frame behind a checked header. */
  lemma CompleteFrameTakes(order: ByteOrder, s: State, mem: Memory, e: RecvEnv)
    requires RxOk(s.rx) && s.rx.checked && |s.rx.payload| + 1 == s.rx.length && Resolvable(s, mem) && s.connected
    requires CompleteFrame(order, s, mem, e).state.connected
    ensures Whole(s.rx) && Takes(order, s, mem, e, CompleteFrame(order, s, mem, e))
  {
    CompleteIsWhole(s.rx);
    FinishAndCloseDisconnects(s, RECEIVE_FAILED, e.calls);
    FinishAndCloseDisconnects(s, DISCONNECTED_BY_PEER, e.calls);
    if Trails(s.rx, e) && e.trailing.Data? {
      TrailingTakes(order, s, mem, e);
    } else if !Trails(s.rx, e) {
      AfterTrailingTakes(order, s, mem, e);
      assert s.rx.payload + [] == s.rx.payload;
    }
  }

  lemma TrailingTakes(order: ByteOrder, s: State, mem: Memory, e: RecvEnv)
    requires RxOk(s.rx) && s.rx.checked && |s.rx.payload| + 1 == s.rx.length && Resolvable(s, mem) && s.connected
    requires Whole(s.rx) && Swallows(s.rx, e) && CompleteFrame(order, s, mem, e).state.connected
    requires FirstFrame(Held(s.rx)) == FrameIn(s.rx)
    ensures Takes(order, s, mem, e, CompleteFrame(order, s, mem, e))
  {
    var got := SF.Granted(e.trailing, e.readable.count);
    var t := ReceivePayload(s, e.readable.count, e.trailing, true, e.calls).state;
    AfterTrailingTakes(order, t, mem, e);
    assert FrameIn(t.rx) == FrameIn(s.rx).(payload := s.rx.payload + got);
  }

  lemma CompleteIsWhole(rx: Rx)
    requires RxOk(rx) && rx.checked && |rx.payload| + 1 == rx.length
    ensures Whole(rx) && FirstFrame(Held(rx)) == FrameIn(rx)
  {
    HeldParts(rx);
    assert Held(rx)[HEADER_LENGTH..6 + rx.length] == rx.payload;
  }

  lemma TakenIsHeld(rx: Rx, got: Memory)
    ensures rx.header + (rx.payload + got) == Held(rx) + got
  {
  }

  lemma CloseDisconnects(s: State, calls: Calls, k: nat)
    ensures !Close(s, calls, k).connected
  {
    var u := s.(connected := false, rx := NO_RX);
    FinishStays(u, ABORTED, calls(k));
    var v := FinishPending(u, ABORTED, calls(k));
    EachStays(v.(queue := []), v.queue, ABORTED, calls, k + 1);
  }

  lemma FinishStays(s: State, result: Result, calls: seq<Args>)
    ensures FinishPending(s, result, calls).connected == s.connected && FinishPending(s, result, calls).rx == s.rx
  {
    if s.pending.Some? {
      var t := Log(s.(pending := None), Completed(s.pending.value.tx.id, result));
      ClientRules.TransactAllKeeps(t, calls);
    }
  }

  lemma {:induction false} EachStays(s: State, txs: seq<Tx>, result: Result, calls: Calls, k: nat)
    ensures FinishEach(s, txs, result, calls, k).connected == s.connected
    decreases |txs|
  {
    if txs == [] {
    } else {
      var t := Log(s, Completed(txs[0].id, result));
      ClientRules.TransactAllKeeps(t, calls(k));
      EachStays(TransactAll(t, calls(k)), txs[1..], result, calls, k + 1);
    }
  }

  lemma FinishAndCloseDisconnects(s: State, result: Result, calls: Calls)
    requires |s.rx.header| == HEADER_LENGTH
    ensures !FinishAndClose(s, result, calls).state.connected
  {
    CloseDisconnects(FinishIf(s, TransactionId(s.rx), result, calls(1)), calls, 2);
  }

  // ---- Runs ----

  /** A run on one connection: the state, the bytes that were taken from the stream, and the frames
      that were resolved. */
  datatype Track = Track(state: State, took: Memory, frames: seq<Frame>)

  /** One step of the client; a receive hook may resolve the frame that is held. */
  ghost function Advance(order: ByteOrder, t: Track, op: Op): Track
    requires Inv(t.state)
  {
    var next := Apply(order, t.state, op);
    if !op.Recv? || !t.state.connected then t.(state := next)
    else
      var r := RecvHook(order, t.state, Content(op.memory, t.state), op.recv);
      var f := if next.connected then Resolved(t.state.rx, op.recv) else None;
      Track(next, t.took + r.took, if f.Some? then t.frames + [f.value] else t.frames)
  }

  ghost function Follow(order: ByteOrder, s: State, ops: seq<Op>): (t: Track)
    requires Inv(s)
    ensures Inv(t.state)
  {
    if ops == [] then Track(s, [], [])
    else
      var t := Follow(order, s, ops[..|ops| - 1]);
      ApplyKeeps(order, t.state, ops[|ops| - 1]);
      Advance(order, t, ops[|ops| - 1])
  }

  /** The connection holds throughout the run. */
  ghost predicate Lasting(order: ByteOrder, s: State, ops: seq<Op>)
    requires Inv(s)
  {
    Follow(order, s, ops).state.connected && (ops != [] ==> Lasting(order, s, ops[..|ops| - 1]))
  }

  /** No step of the run takes trailing bytes for a part of the frame in front of them. */
  ghost predicate NoneSwallows(order: ByteOrder, s: State, ops: seq<Op>)
    requires Inv(s)
  {
    ops != [] ==>
      var n := |ops| - 1;
      && (ops[n].Recv? ==> !Swallows(Follow(order, s, ops[..n]).state.rx, ops[n].recv))
      && NoneSwallows(order, s, ops[..n])
  }

  ghost predicate Undisturbed(order: ByteOrder, s: State, ops: seq<Op>)
    requires Inv(s)
  {
    Lasting(order, s, ops) && NoneSwallows(order, s, ops)
  }

  /** The resolved frames and the parse of what is held make up the parse of all bytes taken. */
  ghost predicate Agrees(t: Track) { Parse(t.took) == After(t.frames, Parse(Held(t.state.rx))) }

  /** They do so after every step of the run. */
  ghost predicate AgreesThroughout(order: ByteOrder, s: State, ops: seq<Op>)
    requires Inv(s)
  {
    Agrees(Follow(order, s, ops)) && (ops != [] ==> AgreesThroughout(order, s, ops[..|ops| - 1]))
  }

  /** However the stream goes on, its parse is the resolved frames and the parse of what is held. */
  ghost predicate Splits(took: Memory, frames: seq<Frame>, held: Memory) {
    forall t: Memory :: Parse(took + t) == After(frames, Parse(held + t))
  }

  lemma SplitsNothing()
    ensures Splits([], [], [])
  {
    forall t: Memory ensures Parse([] + t) == After([], Parse([] + t)) {
      assert [] + Parse([] + t).frames == Parse([] + t).frames;
    }
  }

  lemma SplitsTake(took: Memory, frames: seq<Frame>, held: Memory, got: Memory)
    requires Splits(took, frames, held)
    ensures Splits(took + got, frames, held + got)
  {
    forall t: Memory ensures Parse(took + got + t) == After(frames, Parse(held + got + t)) {
      Regroup(took, got, t);
      Regroup(held, got, t);
    }
  }

  lemma Regroup(a: Memory, b: Memory, c: Memory)
    ensures a + b + c == a + (b + c)
  {
  }

  lemma SplitsResolve(took: Memory, frames: seq<Frame>, rx: Rx)
    requires Splits(took, frames, Held(rx)) && Whole(rx) && !TooLittle(FirstFrame(Held(rx)))
    ensures Splits(took, frames + [FirstFrame(Held(rx))], [])
  {
    var f := FirstFrame(Held(rx));
    forall t: Memory ensures Parse(took + t) == After(frames + [f], Parse([] + t)) {
      ParseFrame(Held(rx), t);
      assert [] + t == t && frames + ([f] + Parse(t).frames) == frames + [f] + Parse(t).frames;
    }
  }

  /** Steps other than the receive hook leave the stream alone while the connection holds. */
  lemma OthersKeepRx(order: ByteOrder, s: State, op: Op)
    requires Inv(s) && !op.Recv? && s.connected && Apply(order, s, op).connected
    ensures Apply(order, s, op).rx == s.rx
  {
    match op
    case Connected =>
    case Recv(_, _) =>
    case Transact(a) =>
    case Tick(e) =>
      ClientRules.CheckTimeoutKeeps(s, e.now, e.calls(0));
      var t := CheckTimeout(s, e.now, e.calls(0));
      if t.pending.None? && t.queue != [] && !e.sent {
        CloseDisconnects(FinishPending(Start(t, e.startedAt), SEND_FAILED, e.calls(1)), e.calls, 2);
      }
    case Closing(calls) => CloseDisconnects(s, calls, 0);
  }

  /** A step of a lasting connection on the bytes taken, the frames and what is held. */
  lemma AdvanceTakes(order: ByteOrder, t: Track, op: Op)
    requires Inv(t.state) && t.state.connected && Apply(order, t.state, op).connected
    ensures var u, f := Advance(order, t, op), if op.Recv? then Resolved(t.state.rx, op.recv) else None;
            if f.Some? then
              && u.state.rx == NO_RX && u.took == t.took + Swallowed(t.state.rx, op.recv)
              && u.frames == t.frames + [f.value]
            else
              && (op.Recv? ==> !Swallows(t.state.rx, op.recv)) && u.frames == t.frames
              && exists got: Memory :: u.took == t.took + got && Held(u.state.rx) == Held(t.state.rx) + got
  {
    var s, u := t.state, Advance(order, t, op);
    if !op.Recv? {
      OthersKeepRx(order, s, op);
      assert u.took == t.took + [] && Held(u.state.rx) == Held(s.rx) + [];
    } else {
      var e, mem := op.recv, Content(op.memory, s);
      TimeoutKeeps(s, e.now, e.calls(0));
      var r := RecvHook(order, s, mem, e);
      HookTakes(order, CheckTimeout(s, e.now, e.calls(0)), mem, e);
      assert u.took == t.took + r.took;
    }
  }

  lemma AdvanceSplits(order: ByteOrder, t: Track, op: Op)
    requires Inv(t.state) && t.state.connected && Splits(t.took, t.frames, Held(t.state.rx))
    requires Apply(order, t.state, op).connected && (op.Recv? ==> !Swallows(t.state.rx, op.recv))
    ensures var u := Advance(order, t, op); Splits(u.took, u.frames, Held(u.state.rx))
  {
    var u := Advance(order, t, op);
    AdvanceTakes(order, t, op);
    if op.Recv? && Resolved(t.state.rx, op.recv).Some? {
      var f := FirstFrame(Held(t.state.rx));
      assert f.(payload := f.payload + []) == f && t.took + [] == t.took;
      SplitsResolve(t.took, t.frames, t.state.rx);
    } else {
      var got: Memory :| u.took == t.took + got && Held(u.state.rx) == Held(t.state.rx) + got;
      SplitsTake(t.took, t.frames, Held(t.state.rx), got);
    }
  }

  /** Trailing bytes that are taken for a part of a frame, of any length, would have begun the next
      response: the frames then differ from those of the batch parser. */
  lemma SwallowingDisagrees(order: ByteOrder, t: Track, op: Op)
    requires Inv(t.state) && t.state.connected && Splits(t.took, t.frames, Held(t.state.rx))
    requires op.Recv? && Swallows(t.state.rx, op.recv) && Apply(order, t.state, op).connected
    ensures !Agrees(Advance(order, t, op))
  {
    var held, got := Held(t.state.rx), Swallowed(t.state.rx, op.recv);
    AdvanceTakes(order, t, op);
    assert Parse(t.took + got) == After(t.frames, Parse(held + got));
    if TooLittle(FirstFrame(held)) {
      assert (held + got)[..HEADER_LENGTH] == held[..HEADER_LENGTH];
      assert (held + got)[HEADER_LENGTH..|held|] == held[HEADER_LENGTH..|held|];
      assert Parse(held + got).rest.Broken?;
    } else {
      ParseFrame(held, got);
      assert Parse(held + got).rest == Partial(got);
    }
  }

  /** Framing refines the batch parser: over any run of an undisturbed connection that starts with an
      empty receive buffer, however the stream is cut into what recv returns, the frames that were
      resolved and the parse of the bytes that are held make up the parse of all bytes taken. */
  lemma {:induction false} RunIsParse(order: ByteOrder, s: State, ops: seq<Op>)
    requires Inv(s) && s.rx == NO_RX && Undisturbed(order, s, ops)
    ensures var t := Follow(order, s, ops);
            && Splits(t.took, t.frames, Held(t.state.rx))
            && Parse(t.took) == After(t.frames, Parse(Held(t.state.rx)))
            && |Parse(Held(t.state.rx)).frames| <= 1
  {
    var t := Follow(order, s, ops);
    if ops == [] {
      SplitsNothing();
    } else {
      var n := |ops| - 1;
      RunIsParse(order, s, ops[..n]);
      AdvanceSplits(order, Follow(order, s, ops[..n]), ops[n]);
    }
    HeldIsShort(t.state.rx);
    SplitsNow(t.took, t.frames, Held(t.state.rx));
  }

  lemma SplitsNow(took: Memory, frames: seq<Frame>, held: Memory)
    requires Splits(took, frames, held)
    ensures Parse(took) == After(frames, Parse(held))
  {
    assert took + [] == took && held + [] == held;
  }

  /** At most one frame is held. */
  lemma HeldIsShort(rx: Rx)
    requires RxOk(rx)
    ensures |Parse(Held(rx)).frames| <= 1
  {
    if |rx.header| == HEADER_LENGTH {
      HeldParts(rx);
      if StartsFrame(Held(rx)) {
        assert Held(rx)[6 + LengthOf(rx.header)..] == [];
      }
    }
  }

  /** The exact condition: over any run of a lasting connection that starts with an empty receive
      buffer, framing agrees with the batch parser after every step if and only if no step takes
      trailing bytes for a part of a complete frame. */
  lemma {:induction false} FramingExactly(order: ByteOrder, s: State, ops: seq<Op>)
    requires Inv(s) && s.rx == NO_RX && Lasting(order, s, ops)
    ensures AgreesThroughout(order, s, ops) <==> NoneSwallows(order, s, ops)
  {
    if ops == [] {
      RunIsParse(order, s, ops);
    } else {
      var n := |ops| - 1;
      FramingExactly(order, s, ops[..n]);
      if NoneSwallows(order, s, ops[..n]) {
        if NoneSwallows(order, s, ops) {
          RunIsParse(order, s, ops);
        } else {
          RunIsParse(order, s, ops[..n]);
          SwallowingDisagrees(order, Follow(order, s, ops[..n]), ops[n]);
        }
      }
    }
  }

  /** Two undisturbed connections that have taken the same bytes have resolved the same frames, up to
      one that still lies complete in a receive buffer. */
  lemma CutsDoNotMatter(order: ByteOrder, s: State, ops: seq<Op>, s': State, ops': seq<Op>)
    requires Inv(s) && s.rx == NO_RX && Undisturbed(order, s, ops)
    requires Inv(s') && s'.rx == NO_RX && Undisturbed(order, s', ops')
    requires Follow(order, s, ops).took == Follow(order, s', ops').took
    ensures var t, t' := Follow(order, s, ops), Follow(order, s', ops');
            t.frames + Parse(Held(t.state.rx)).frames == t'.frames + Parse(Held(t'.state.rx)).frames
  {
    RunIsParse(order, s, ops);
    RunIsParse(order, s', ops');
  }

  /** A frame too short to be a response is held, but trailing bytes are announced that will make up for
      what it lacks, or do not come yet. */
  predicate Repaired(rx: Rx, e: RecvEnv) {
    && Whole(rx) && TooLittle(FirstFrame(Held(rx))) && Trails(rx, e)
    && (e.trailing.Data? ==> 1 + |rx.payload| + |SF.Granted(e.trailing, e.readable.count)| >= MIN_RESPONSE_FRAME_LENGTH)
  }

  /** While the receiving system calls neither fail nor report the end, the next call of the hook keeps
      the connection exactly if what is held can be the beginning of a response, or is a frame too
      short to be one that trailing bytes repair. */
  lemma ProtocolErrorExactly(order: ByteOrder, s: State, mem: Memory, e: RecvEnv)
    requires RxOk(s.rx) && Resolvable(s, mem) && s.connected
    requires e.readable.Readable? && (e.recv.Data? || e.recv.Again?) && (e.trailing.Data? || e.trailing.Again?)
    ensures Continue(order, s, mem, e).state.connected <==> Parse(Held(s.rx)).rest.Partial? || Repaired(s.rx, e)
  {
    CloseDisconnects(s, e.calls, 2);
    if |s.rx.header| == HEADER_LENGTH {
      HeldParts(s.rx);
      if CheckHeader(s.rx.header) == Good {
        WithHeaderExactly(order, s, mem, e);
      } else {
        FinishAndCloseDisconnects(s, RESPONSE_FRAME_SHORTER_THAN_MINIMUM, e.calls);
        FinishAndCloseDisconnects(s, RESPONSE_FRAME_LONGER_THAN_MAXIMUM, e.calls);
      }
    }
  }

  lemma WithHeaderExactly(order: ByteOrder, s: State, mem: Memory, e: RecvEnv)
    requires RxOk(s.rx) && Resolvable(s, mem) && s.connected
    requires e.readable.Readable? && (e.recv.Data? || e.recv.Again?) && (e.trailing.Data? || e.trailing.Again?)
    requires |s.rx.header| == HEADER_LENGTH && CheckHeader(s.rx.header) == Good
    ensures WithHeader(order, s, mem, e).state.connected <==> Parse(Held(s.rx)).rest.Partial? || Repaired(s.rx, e)
  {
    HeldParts(s.rx);
    var u := s.(rx := s.rx.(checked := true, length := LengthOf(s.rx.header)));
    if StartsFrame(Held(s.rx)) {
      assert Held(s.rx)[6 + LengthOf(s.rx.header)..] == [];
      assert Held(u.rx) == Held(s.rx);
      CompleteFrameExactly(order, u, mem, e);
    }
  }

  lemma CompleteFrameExactly(order: ByteOrder, s: State, mem: Memory, e: RecvEnv)
    requires RxOk(s.rx) && s.rx.checked && |s.rx.payload| + 1 == s.rx.length && Resolvable(s, mem) && s.connected
    requires e.readable.Readable? && (e.trailing.Data? || e.trailing.Again?)
    ensures Whole(s.rx)
    ensures CompleteFrame(order, s, mem, e).state.connected <==> !TooLittle(FirstFrame(Held(s.rx))) || Repaired(s.rx, e)
  {
    CompleteIsWhole(s.rx);
    if Trails(s.rx, e) {
      var t := ReceivePayload(s, e.readable.count, e.trailing, true, e.calls).state;
      if e.trailing.Data? { AfterTrailingExactly(order, t, mem, e); }
    } else {
      AfterTrailingExactly(order, s, mem, e);
    }
  }

  lemma AfterTrailingExactly(order: ByteOrder, s: State, mem: Memory, e: RecvEnv)
    requires |s.rx.header| == HEADER_LENGTH && |s.rx.payload| + 1 == s.rx.length && Resolvable(s, mem) && s.connected
    ensures AfterTrailing(order, s, mem, e).state.connected <==> s.rx.length >= MIN_RESPONSE_FRAME_LENGTH
  {
    if s.rx.length >= MIN_RESPONSE_FRAME_LENGTH {
      ResolveStays(order, s, mem, e.calls(1));
    } else {
      FinishAndCloseDisconnects(s, RESPONSE_FRAME_SHORTER_THAN_MINIMUM, e.calls);
    }
  }

  lemma ResolveStays(order: ByteOrder, s: State, mem: Memory, calls: seq<Args>)
    requires |s.rx.header| == HEADER_LENGTH && |s.rx.payload| >= 2 && Resolvable(s, mem)
    ensures Resolve(order, s, mem, calls).connected == s.connected
  {
    if s.pending.Some? && s.pending.value.wireId == TransactionId(s.rx) {
      var p := s.pending.value;
      var j := Check(order, p.tx.req, UnitOf(s.rx.header), s.rx.payload, mem);
      FinishStays(s.(rx := NO_RX, log := s.log + Writes(p, s.rx.payload, j)), j.result, calls);
    }
  }

  /** In every state of every run, what a call of the receive hook takes fits into the receive buffer,
      trailing bytes included. */
  lemma BuffersSuffice(order: ByteOrder, firstId: Word, ops: seq<Op>, memory: nat -> Byte, e: RecvEnv)
    requires Exec(order, firstId, ops).connected
    ensures var s := Exec(order, firstId, ops);
            var took := RecvHook(order, s, Content(memory, s), e).took;
            && |s.rx.header| <= HEADER_LENGTH && |s.rx.payload| <= MAX_PAYLOAD_LENGTH
            && (if |s.rx.header| < HEADER_LENGTH then |s.rx.header| + |took| <= HEADER_LENGTH
                else |s.rx.payload| + |took| <= MAX_PAYLOAD_LENGTH)
  {
    var s := Exec(order, firstId, ops);
    TimeoutKeeps(s, e.now, e.calls(0));
    ContinueFits(order, CheckTimeout(s, e.now, e.calls(0)), Content(memory, s), e);
  }

  lemma ContinueFits(order: ByteOrder, s: State, mem: Memory, e: RecvEnv)
    requires RxOk(s.rx) && Resolvable(s, mem)
    ensures var took := Continue(order, s, mem, e).took;
            if |s.rx.header| < HEADER_LENGTH then |s.rx.header| + |took| <= HEADER_LENGTH
            else |s.rx.payload| + |took| <= MAX_PAYLOAD_LENGTH
  {
  }

  // ---- Inputs on which trailing bytes matter ----

  /** The next call of the hook appends to the header. */
  lemma HeaderGrows(order: ByteOrder, s: State, mem: Memory, e: RecvEnv)
    requires Wired(s) && s.pending.None? && |s.rx.header| < HEADER_LENGTH && e.recv.Data?
    ensures var got := SF.Granted(e.recv, HEADER_LENGTH - |s.rx.header|);
            RecvHook(order, s, mem, e) == Hooked(s.(rx := s.rx.(header := s.rx.header + got)), true, got)
  {
  }

  /** The next call of the hook appends to the payload of a frame of n bytes. */
  lemma PayloadGrows(order: ByteOrder, s: State, mem: Memory, e: RecvEnv, n: nat)
    requires Wired(s) && s.pending.None? && |s.rx.header| == HEADER_LENGTH && CheckHeader(s.rx.header) == Good
    requires LengthOf(s.rx.header) == n && 1 + |s.rx.payload| < n && e.recv.Data?
    ensures var got := SF.Granted(e.recv, n - 1 - |s.rx.payload|);
            RecvHook(order, s, mem, e) ==
            Hooked(s.(rx := Rx(s.rx.header, true, n, s.rx.payload + got)), true, got)
  {
  }

  /** The next call of the hook takes trailing bytes and resolves the frame with them, for nobody. */
  lemma TrailingTaken(order: ByteOrder, s: State, mem: Memory, e: RecvEnv)
    requires Wired(s) && s.pending.None? && s.rx.checked && 1 + |s.rx.payload| == s.rx.length
    requires Trails(s.rx, e) && e.trailing.Data?
    requires var got := SF.Granted(e.trailing, e.readable.count); s.rx.length + |got| >= MIN_RESPONSE_FRAME_LENGTH
    ensures RecvHook(order, s, mem, e) ==
            Hooked(s.(rx := NO_RX), true, SF.Granted(e.trailing, e.readable.count))
  {
  }

  /** A call of the hook in which nothing but the receiving of bytes happens. */
  function Feed(recv: SF.Recv, count: int, trailing: SF.Recv): RecvEnv {
    RecvEnv(0, recv, Readable(count), trailing, (k: nat) => [])
  }

  /** A new connection with this in its receive buffer. */
  function Holding(rx: Rx): State { State(true, 0, None, [], rx, 0, []) }

  // A frame of two bytes behind its length field, and two bytes more.
  const TWO_RX := Rx([0, 1, 0, 0, 0, 2, 1], true, 2, [3])
  const REPAIR_CALL := Feed(SF.Again, 2, SF.Data(2, [0]))

  /** A frame too short to be a response, which the batch parser refuses: two bytes behind it are taken
      for a part of it, and the client goes on with an empty buffer. */
  lemma ShortFrameRepaired(order: ByteOrder, mem: Memory)
    ensures Inv(Holding(TWO_RX)) && Parse(Held(TWO_RX)).rest.Broken? && Repaired(TWO_RX, REPAIR_CALL)
    ensures RecvHook(order, Holding(TWO_RX), mem, REPAIR_CALL) == Hooked(Holding(NO_RX), true, [2, 0])
  {
    var s := Holding(TWO_RX);
    assert RxOk(s.rx) && s.rx.checked && 1 + |s.rx.payload| == s.rx.length;
    assert SF.Granted(REPAIR_CALL.trailing, REPAIR_CALL.readable.count) == [2, 0];
    TrailingTaken(order, s, mem, REPAIR_CALL);
    ShortIsBroken(s.rx);
  }

  lemma ShortIsBroken(rx: Rx)
    requires RxOk(rx) && rx.checked && |rx.payload| + 1 == rx.length && rx.length < MIN_RESPONSE_FRAME_LENGTH
    ensures Whole(rx) && TooLittle(FirstFrame(Held(rx))) && Parse(Held(rx)).rest.Broken?
  {
    CompleteIsWhole(rx);
  }

  // A response of three bytes behind its length field, and one byte more.
  const SHORT_RX := Rx([0, 1, 0, 0, 0, 3, 1], false, 0, [])
  const FULL_RX := Rx([0, 1, 0, 0, 0, 3, 1], true, 3, [3, 0])
  const HEADER_CALL := Feed(SF.Data(0, [1, 0, 0, 0, 3, 1]), 0, SF.Again)
  const PAYLOAD_CALL := Feed(SF.Data(3, [0]), 0, SF.Again)
  const TRAILING_CALL := Feed(SF.Again, 1, SF.Data(9, []))

  lemma HeaderCall(order: ByteOrder, mem: Memory)
    ensures Inv(Holding(NO_RX))
    ensures RecvHook(order, Holding(NO_RX), mem, HEADER_CALL) == Hooked(Holding(SHORT_RX), true, SHORT_RX.header)
  {
    HeaderGrows(order, Holding(NO_RX), mem, HEADER_CALL);
  }

  lemma PayloadCall(order: ByteOrder, mem: Memory)
    ensures Inv(Holding(SHORT_RX))
    ensures RecvHook(order, Holding(SHORT_RX), mem, PAYLOAD_CALL) == Hooked(Holding(FULL_RX), true, [3, 0])
  {
    PayloadGrows(order, Holding(SHORT_RX), mem, PAYLOAD_CALL, 3);
  }

  lemma TrailingCall(order: ByteOrder, mem: Memory)
    ensures Inv(Holding(FULL_RX))
    ensures RecvHook(order, Holding(FULL_RX), mem, TRAILING_CALL) == Hooked(Holding(NO_RX), true, [9])
  {
    var s := Holding(FULL_RX);
    assert RxOk(s.rx) && s.rx.checked && 1 + |s.rx.payload| == s.rx.length;
    assert SF.Granted(TRAILING_CALL.trailing, TRAILING_CALL.readable.count) == [9];
    TrailingTaken(order, s, mem, TRAILING_CALL);
  }

  lemma ThirdResolves()
    ensures Swallows(FULL_RX, TRAILING_CALL) && Resolved(FULL_RX, TRAILING_CALL) == Some(Frame(1, 1, [3, 0, 9]))
  {
    CompleteIsWhole(FULL_RX);
    assert Swallowed(FULL_RX, TRAILING_CALL) == [9] && FULL_RX.payload + [9] == [3, 0, 9];
  }

  lemma BatchResolves()
    ensures Parse(Held(FULL_RX) + [9]) == Parsed([Frame(1, 1, [3, 0])], Partial([9]))
  {
    CompleteIsWhole(FULL_RX);
    ParseFrame(Held(FULL_RX), [9]);
    assert [Frame(1, 1, [3, 0])] + Parse([9]).frames == [Frame(1, 1, [3, 0])];
  }

  /** A call that leaves the client connected. */
  lemma AdvanceBy(order: ByteOrder, t: Track, memory: nat -> Byte, e: RecvEnv, r: Hooked)
    requires Inv(t.state) && t.state.connected && r.state.connected
    requires r == RecvHook(order, t.state, Content(memory, t.state), e)
    ensures var f := Resolved(t.state.rx, e);
            Advance(order, t, Recv(memory, e)) ==
            Track(r.state, t.took + r.took, if f.Some? then t.frames + [f.value] else t.frames)
  {
  }

  /** The last step of a run that keeps the client connected. */
  lemma FollowLast(order: ByteOrder, s: State, before: seq<Op>, ops: seq<Op>, t: Track, u: Track)
    requires Inv(s) && ops != [] && before == ops[..|ops| - 1] && Follow(order, s, before) == t
    requires Inv(t.state) && Advance(order, t, ops[|ops| - 1]) == u && u.state.connected
    ensures Follow(order, s, ops) == u && (Lasting(order, s, before) ==> Lasting(order, s, ops))
    ensures ops[|ops| - 1].Recv? && Swallows(t.state.rx, ops[|ops| - 1].recv) ==> !NoneSwallows(order, s, ops)
  {
  }

  lemma FirstCall(order: ByteOrder, memory: nat -> Byte, s: State, ops: seq<Op>)
    requires s == Holding(NO_RX) && ops == [Recv(memory, HEADER_CALL)]
    ensures Inv(s) && Follow(order, s, ops) == Track(Holding(SHORT_RX), SHORT_RX.header, []) && Lasting(order, s, ops)
  {
    var t, u := Track(s, [], []), Track(Holding(SHORT_RX), SHORT_RX.header, []);
    HeaderCall(order, Content(memory, s));
    assert !Whole(NO_RX) && [] + SHORT_RX.header == SHORT_RX.header;
    assert Follow(order, s, []) == t && Lasting(order, s, []);
    AdvanceBy(order, t, memory, HEADER_CALL, Hooked(u.state, true, SHORT_RX.header));
    FollowLast(order, s, [], ops, t, u);
  }

  lemma SecondCall(order: ByteOrder, memory: nat -> Byte, s: State, ops: seq<Op>)
    requires s == Holding(NO_RX) && ops == [Recv(memory, HEADER_CALL), Recv(memory, PAYLOAD_CALL)]
    ensures Inv(s) && Follow(order, s, ops) == Track(Holding(FULL_RX), Held(FULL_RX), []) && Lasting(order, s, ops)
  {
    var t, u := Track(Holding(SHORT_RX), SHORT_RX.header, []), Track(Holding(FULL_RX), Held(FULL_RX), []);
    FirstCall(order, memory, s, ops[..1]);
    PayloadCall(order, Content(memory, t.state));
    assert !Whole(SHORT_RX);
    AdvanceBy(order, t, memory, PAYLOAD_CALL, Hooked(u.state, true, [3, 0]));
    FollowLast(order, s, ops[..1], ops, t, u);
  }

  lemma ThirdCall(order: ByteOrder, memory: nat -> Byte, s: State, ops: seq<Op>)
    requires s == Holding(NO_RX)
    requires ops == [Recv(memory, HEADER_CALL), Recv(memory, PAYLOAD_CALL), Recv(memory, TRAILING_CALL)]
    ensures Inv(s) && Follow(order, s, ops) == Track(s, Held(FULL_RX) + [9], [Frame(1, 1, [3, 0, 9])])
    ensures Lasting(order, s, ops) && !NoneSwallows(order, s, ops)
  {
    var t, u := Track(Holding(FULL_RX), Held(FULL_RX), []), Track(s, Held(FULL_RX) + [9], [Frame(1, 1, [3, 0, 9])]);
    SecondCall(order, memory, s, ops[..2]);
    TrailingCall(order, Content(memory, t.state));
    ThirdResolves();
    AdvanceBy(order, t, memory, TRAILING_CALL, Hooked(s, true, [9]));
    FollowLast(order, s, ops[..2], ops, t, u);
  }

  /** The first byte of the next response arrives behind a complete one: over this run the client
      resolves a frame that holds it, where the batch parser finds a shorter frame and the beginning
      of the next. */
  lemma NextResponseLosesByte(order: ByteOrder, memory: nat -> Byte)
    ensures var s, ops := Holding(NO_RX), [Recv(memory, HEADER_CALL), Recv(memory, PAYLOAD_CALL),
                                           Recv(memory, TRAILING_CALL)];
            && Inv(s) && Lasting(order, s, ops) && !NoneSwallows(order, s, ops)
            && Follow(order, s, ops) == Track(s, Held(FULL_RX) + [9], [Frame(1, 1, [3, 0, 9])])
    ensures Parse(Held(FULL_RX) + [9]) == Parsed([Frame(1, 1, [3, 0])], Partial([9]))
  {
    var s := Holding(NO_RX);
    var ops := [Recv(memory, HEADER_CALL), Recv(memory, PAYLOAD_CALL), Recv(memory, TRAILING_CALL)];
    ThirdCall(order, memory, s, ops);
    BatchResolves();
  }
}
