/** The receive loop of the Modbus TCP client over the bytes that have arrived. */
module ClientLoop {
  import opened Bytes
  import opened ModbusCommon
  import opened ModbusRules
  import opened ClientRules
  import opened ClientRuns
  import opened ClientSafety
  import opened ClientFraming
  import CA = ClientAnswers
  import SF = ServerFraming

  /** What one round of the loop finds besides the bytes that have arrived: how many of them a call of
      recv hands over at most (one, and so many more), and whether the time of the tick is up then. */
  datatype Round = Round(now: int, more: nat, late: bool, memory: nat -> Byte, calls: Calls)

  /** The system calls of one round: they work, and FIONREAD tells how many bytes there are. */
  function Offer(unread: Memory, r: Round): RecvEnv {
    var n := if 1 + r.more < |unread| then 1 + r.more else |unread|;
    var recv := if unread == [] then SF.Again else SF.Data(unread[0], unread[1..n]);
    RecvEnv(r.now, recv, Readable(|unread|), recv, r.calls)
  }

  lemma OfferTakes(order: ByteOrder, s: State, mem: Memory, unread: Memory, r: Round)
    requires Wired(s) && MemOk(s, mem)
    ensures RecvHook(order, s, mem, Offer(unread, r)).took <= unread
  {
    var e := Offer(unread, r);
    CheckTimeoutKeeps(s, e.now, e.calls(0));
    var t := CheckTimeout(s, e.now, e.calls(0));
    if unread != [] {
      forall n: nat ensures SF.Granted(e.recv, n) <= unread {
        GrantedPrefix(unread, r, n);
      }
    }
    ContinueTakes(order, t, mem, e, unread);
  }

  lemma GrantedPrefix(unread: Memory, r: Round, n: nat)
    requires unread != []
    ensures SF.Granted(Offer(unread, r).recv, n) <= unread
  {
    var k := if 1 + r.more < |unread| then 1 + r.more else |unread|;
    assert [unread[0]] + unread[1..k] == unread[..k];
  }

  lemma ContinueTakes(order: ByteOrder, s: State, mem: Memory, e: RecvEnv, unread: Memory)
    requires RxOk(s.rx) && Resolvable(s, mem) && e.trailing == e.recv
    requires e.recv.Data? ==> forall n: nat :: SF.Granted(e.recv, n) <= unread
    ensures Continue(order, s, mem, e).took <= unread
  {
  }

  // ---- Streams that leave nothing to be swallowed ----

  /** Nothing in the stream contradicts the protocol, and what follows its last whole response is nothing,
      or a whole header at least. */
  ghost predicate Clear(stream: Memory) {
    var rest := Parse(stream).rest;
    rest.Partial? && !(0 < |rest.bytes| < HEADER_LENGTH)
  }

  /** What the next round sees of such a stream. */
  lemma ClearStep(rx: Rx, unread: Memory, e: RecvEnv)
    requires RxOk(rx) && Clear(Held(rx) + unread) && e.readable == Readable(|unread|)
    ensures !Swallows(rx, e) && Parse(Held(rx)).rest.Partial?
  {
    var held := Held(rx);
    if HeaderComplete(held) {
      HeldParts(rx);
      assert (held + unread)[..HEADER_LENGTH] == held[..HEADER_LENGTH];
      if StartsFrame(held) {
        assert (held + unread)[HEADER_LENGTH..|held|] == held[HEADER_LENGTH..|held|];
        FrameThenRest(held, unread);
      }
    }
  }

  lemma FrameThenRest(held: Memory, unread: Memory)
    requires StartsFrame(held) && |held| == 6 + LengthOf(held[..HEADER_LENGTH]) && Clear(held + unread)
    requires StartsFrame(held + unread) && FirstFrame(held + unread) == FirstFrame(held)
    ensures !(0 < |unread| < HEADER_LENGTH) && Parse(held).rest.Partial?
  {
    assert held[|held|..] == [];
    if !TooLittle(FirstFrame(held)) {
      ParseFrame(held, unread);
    }
  }

  /** A round of the loop on such a stream keeps the connection and swallows nothing. */
  lemma RoundClear(order: ByteOrder, t: Track, r: Round, unread: Memory, u: Track)
    requires Inv(t.state) && t.state.connected && Splits(t.took, t.frames, Held(t.state.rx))
    requires Clear(t.took + unread) && u == Advance(order, t, Recv(r.memory, Offer(unread, r)))
    ensures u.state.connected && !Swallows(t.state.rx, Offer(unread, r))
    ensures Splits(u.took, u.frames, Held(u.state.rx))
  {
    var s, e, mem := t.state, Offer(unread, r), Content(r.memory, t.state);
    assert Parse(t.took + unread) == After(t.frames, Parse(Held(s.rx) + unread));
    ClearStep(s.rx, unread, e);
    TimeoutKeeps(s, e.now, e.calls(0));
    ProtocolErrorExactly(order, CheckTimeout(s, e.now, e.calls(0)), mem, e);
    AdvanceSplits(order, t, Recv(r.memory, e));
  }

  /** The loop stops on its own only when all bytes are read and no whole frame is held. */
  lemma StopsAtEnd(order: ByteOrder, s: State, mem: Memory, unread: Memory, r: Round)
    requires Inv(s) && s.connected && MemOk(s, mem)
    requires var h := RecvHook(order, s, mem, Offer(unread, r)); h.state.connected && !h.more
    ensures unread == [] && !Whole(s.rx) && Held(RecvHook(order, s, mem, Offer(unread, r)).state.rx) == Held(s.rx)
  {
    var e := Offer(unread, r);
    TimeoutKeeps(s, e.now, e.calls(0));
    var t := CheckTimeout(s, e.now, e.calls(0));
    HookTakes(order, t, mem, e);
    ContinueStops(order, t, mem, e);
    if Whole(s.rx) {
      HeldParts(s.rx);
      ProtocolErrorExactly(order, t, mem, e);
      HeldAlone(s.rx);
    }
    assert Held(s.rx) + [] == Held(s.rx);
  }

  lemma ContinueStops(order: ByteOrder, s: State, mem: Memory, e: RecvEnv)
    requires RxOk(s.rx) && Resolvable(s, mem) && s.connected && e.recv == e.trailing && e.readable.Readable?
    requires var h := Continue(order, s, mem, e); h.state.connected && !h.more
    ensures !e.recv.Data? && Continue(order, s, mem, e).took == []
  {
    CloseDisconnects(s, e.calls, 2);
    if |s.rx.header| == HEADER_LENGTH {
      if s.rx.checked || CheckHeader(s.rx.header) == Good {
        WithHeaderStops(order, s, mem, e);
      } else {
        FinishAndCloseDisconnects(s, RESPONSE_FRAME_SHORTER_THAN_MINIMUM, e.calls);
        FinishAndCloseDisconnects(s, RESPONSE_FRAME_LONGER_THAN_MAXIMUM, e.calls);
      }
    }
  }

  lemma WithHeaderStops(order: ByteOrder, s: State, mem: Memory, e: RecvEnv)
    requires RxOk(s.rx) && Resolvable(s, mem) && s.connected && e.recv == e.trailing && e.readable.Readable?
    requires |s.rx.header| == HEADER_LENGTH && CheckHeader(s.rx.header) == Good
    requires var h := WithHeader(order, s, mem, e); h.state.connected && !h.more
    ensures !e.recv.Data? && WithHeader(order, s, mem, e).took == []
  {
    var u := s.(rx := s.rx.(checked := true, length := LengthOf(s.rx.header)));
    FinishAndCloseDisconnects(u, RECEIVE_FAILED, e.calls);
    FinishAndCloseDisconnects(u, DISCONNECTED_BY_PEER, e.calls);
    if u.rx.length - 1 == |u.rx.payload| {
      FinishAndCloseDisconnects(u, RESPONSE_FRAME_SHORTER_THAN_MINIMUM, e.calls);
      if e.recv.Data? && e.readable.count > 0 {
        var t := ReceivePayload(u, e.readable.count, e.trailing, true, e.calls).state;
        FinishAndCloseDisconnects(t, RESPONSE_FRAME_SHORTER_THAN_MINIMUM, e.calls);
      }
    }
  }

  lemma HeldAlone(rx: Rx)
    requires RxOk(rx) && Whole(rx)
    ensures Parse(Held(rx)).rest.Partial? <==> !TooLittle(FirstFrame(Held(rx)))
  {
    assert Held(rx)[|Held(rx)|..] == [];
  }

  // ---- The loop ----

  /** Where the loop is: the steps that it made are a run of the client, and what that run took and what is
      unread make up the stream; on a clear stream nothing was swallowed, and the connection holds. */
  ghost predicate Reading(order: ByteOrder, s0: State, ops: seq<Op>, t: Track, stream: Memory, unread: Memory)
    requires Inv(s0)
  {
    && t == Follow(order, s0, ops) && t.took + unread == stream
    && (s0.connected && s0.rx == NO_RX && Clear(stream) ==>
          t.state.connected && Undisturbed(order, s0, ops) && Splits(t.took, t.frames, Held(t.state.rx)))
  }

  lemma ReadingStarts(order: ByteOrder, s0: State, stream: Memory)
    requires Inv(s0)
    ensures Reading(order, s0, [], Track(s0, [], []), stream, stream)
  {
    SplitsNothing();
    assert [] + stream == stream;
  }

  lemma LastingGoesOn(order: ByteOrder, s0: State, ops: seq<Op>, more: seq<Op>, u: Track)
    requires Inv(s0) && more != [] && ops == more[..|more| - 1] && u == Follow(order, s0, more) && u.state.connected
    ensures Lasting(order, s0, ops) ==> Lasting(order, s0, more)
  {
  }

  lemma SwallowingGoesOn(order: ByteOrder, s0: State, ops: seq<Op>, more: seq<Op>, op: Op, t: Track)
    requires Inv(s0) && more != [] && ops == more[..|more| - 1] && op == more[|more| - 1] && t == Follow(order, s0, ops)
    requires op.Recv? ==> !Swallows(t.state.rx, op.recv)
    ensures NoneSwallows(order, s0, ops) ==> NoneSwallows(order, s0, more)
  {
  }

  lemma Reread(took: Memory, more: Memory, unread: Memory)
    requires more <= unread
    ensures took + more + unread[|more|..] == took + unread
  {
  }

  /** What one round reads. */
  lemma RoundReads(order: ByteOrder, t: Track, unread: Memory, r: Round, h: Hooked, u: Track)
    requires Inv(t.state) && t.state.connected && u == Advance(order, t, Recv(r.memory, Offer(unread, r)))
    requires h == RecvHook(order, t.state, Content(r.memory, t.state), Offer(unread, r))
    ensures h.took <= unread && u.state == h.state && Inv(h.state)
    ensures u.took + unread[|h.took|..] == t.took + unread
  {
    RecvKeeps(order, t.state, Content(r.memory, t.state), Offer(unread, r));
    OfferTakes(order, t.state, Content(r.memory, t.state), unread, r);
    Reread(t.took, h.took, unread);
  }

  /** One round. */
  lemma RoundMade(order: ByteOrder, s0: State, ops: seq<Op>, t: Track, stream: Memory, unread: Memory, r: Round,
                  left: Memory, op: Op, u: Track, more: seq<Op>)
    requires Inv(s0) && Reading(order, s0, ops, t, stream, unread) && Inv(t.state) && t.state.connected
    requires op == Recv(r.memory, Offer(unread, r)) && u == Advance(order, t, op) && u.took + left == t.took + unread
    requires more == ops + [op]
    ensures Reading(order, s0, more, u, stream, left)
  {
    assert more[..|more| - 1] == ops && more[|more| - 1] == op;
    CA.FollowLastStep(order, s0, more, t, Follow(order, s0, more));
    if s0.connected && s0.rx == NO_RX && Clear(stream) {
      RoundClear(order, t, r, unread, u);
      LastingGoesOn(order, s0, ops, more, u);
      SwallowingGoesOn(order, s0, ops, more, op, t);
    }
  }

  /** A round after which the loop goes on, or stops on its own. */
  lemma RoundEnds(order: ByteOrder, s: State, unread: Memory, r: Round, h: Hooked)
    requires Inv(s) && s.connected && h == RecvHook(order, s, Content(r.memory, s), Offer(unread, r))
    requires h.took <= unread
    ensures h.more ==> Measure(h.state, |unread[|h.took|..]|) < Measure(s, |unread|)
    ensures !h.more && h.state.connected ==> unread == [] && !Whole(h.state.rx)
  {
    if h.more {
      ReceiveLoopProgresses(order, s, Content(r.memory, s), Offer(unread, r), |unread|);
    } else if h.state.connected {
      RecvKeeps(order, s, Content(r.memory, s), Offer(unread, r));
      StopsAtEnd(order, s, Content(r.memory, s), unread, r);
    }
  }

  /** What the loop made of a clear stream, once it has read everything. */
  lemma StreamResolved(order: ByteOrder, s0: State, ops: seq<Op>, t: Track, stream: Memory, unread: Memory)
    requires Inv(s0) && Reading(order, s0, ops, t, stream, unread) && Inv(t.state)
    requires t.state.connected ==> unread == [] && !Whole(t.state.rx)
    ensures s0.connected && s0.rx == NO_RX && Clear(stream) ==>
              Parse(stream) == Parsed(t.frames, Partial(Held(t.state.rx)))
  {
    if s0.connected && s0.rx == NO_RX && Clear(stream) {
      assert t.took + [] == t.took;
      SplitsNow(t.took, t.frames, Held(t.state.rx));
      UnwholeIsPartial(t.state.rx);
      assert t.frames + [] == t.frames;
    }
  }

  lemma UnwholeIsPartial(rx: Rx)
    requires RxOk(rx) && !Whole(rx)
    ensures Parse(Held(rx)).rest.Partial? ==> Parse(Held(rx)) == Parsed([], Partial(Held(rx)))
  {
    if |rx.header| == HEADER_LENGTH { HeldParts(rx); }
  }

  /** The receive loop of tick.  It ends, since each round takes bytes or throws away a whole frame; what
      it did is a run of the client.  If time was not up, everything is read and no whole frame is held;
      a clear stream was resolved response by response then, and the connection holds. */
  method ReceiveLoop(order: ByteOrder, s0: State, stream: Memory, rounds: nat -> Round)
    returns (s: State, unread: Memory, late: bool, ghost ops: seq<Op>)
    requires Inv(s0)
    ensures Inv(s) && s == Follow(order, s0, ops).state
    ensures Reading(order, s0, ops, Follow(order, s0, ops), stream, unread)
    ensures s.connected && !late ==> unread == [] && !Whole(s.rx)
    ensures s0.connected && s0.rx == NO_RX && Clear(stream) ==> s.connected
    ensures s0.connected && s0.rx == NO_RX && Clear(stream) && !late ==>
              Parse(stream) == Parsed(Follow(order, s0, ops).frames, Partial(Held(s.rx)))
  {
    s, unread, late, ops := s0, stream, false, [];
    ghost var t := Track(s, [], []);
    var n := 0;
    ReadingStarts(order, s0, stream);
    while s.connected && !late
      invariant Inv(s) && t.state == s && Reading(order, s0, ops, t, stream, unread)
      decreases Measure(s, |unread|)
    {
      var r := rounds(n);
      var h := RecvHook(order, s, Content(r.memory, s), Offer(unread, r));
      ghost var op := Recv(r.memory, Offer(unread, r));
      ghost var u := Advance(order, t, op);
      RoundReads(order, t, unread, r, h, u);
      RoundMade(order, s0, ops, t, stream, unread, r, unread[|h.took|..], op, u, ops + [op]);
      RoundEnds(order, s, unread, r, h);
      t, ops := u, ops + [op];
      s, unread := h.state, unread[|h.took|..];
      if !h.more {
        StreamResolved(order, s0, ops, t, stream, unread);
        return;
      }
      late, n := r.late, n + 1;
    }
  }
}
