/** With which result the transactions of the Modbus TCP client complete, and why. */
module ClientResults {
  import opened Bytes
  import opened ModbusCommon
  import opened ModbusRules
  import opened ClientRules
  import opened ClientRuns
  import opened ClientSafety
  import ClientLog
  import ModbusWire
  import SF = ServerFraming

  // ---- The results in the log ----

  /** The results of the completed transactions; the k-th belongs to the transaction with ID k. */
  function Results(log: seq<Event>): seq<Result> {
    if log == [] then []
    else
      var e := log[|log| - 1];
      Results(log[..|log| - 1]) + if e.Completed? then [e.result] else []
  }

  lemma ResultsOne(log: seq<Event>, e: Event)
    ensures Results(log + [e]) == Results(log) + if e.Completed? then [e.result] else []
  {
    assert (log + [e])[..|log|] == log;
  }

  /** Between two states exactly these results were logged. */
  ghost predicate Adds(s: State, t: State, more: seq<Result>) { Results(t.log) == Results(s.log) + more }

  function Aborted(n: nat): (r: seq<Result>)
    ensures |r| == n && forall i :: 0 <= i < n ==> r[i] == 257
  {
    seq(n, i => 257)
  }

  /** Between two states the client was closed: these results were logged first, and then nothing but
      aborted transactions. */
  ghost predicate Closes(s: State, t: State, first: seq<Result>) {
    var n := |Results(t.log)| - |Results(s.log)| - |first|;
    !t.connected && n >= 0 && Adds(s, t, first + Aborted(n))
  }

  lemma TransactAdds(s: State, a: Args)
    ensures Adds(s, ClientRules.Transact(s, a), [])
  {
    ResultsOne(s.log, ClientRules.Transact(s, a).log[|s.log|]);
  }

  lemma {:induction false} CallsAdd(s: State, calls: seq<Args>)
    ensures Adds(s, TransactAll(s, calls), []) && TransactAll(s, calls).connected == s.connected
  {
    if calls == [] {
    } else {
      var t := TransactAll(s, calls[..|calls| - 1]);
      CallsAdd(s, calls[..|calls| - 1]);
      TransactAdds(t, calls[|calls| - 1]);
    }
  }

  lemma FinishAdds(s: State, result: Result, calls: seq<Args>)
    ensures Adds(s, FinishPending(s, result, calls), if s.pending.Some? then [result] else [])
    ensures FinishPending(s, result, calls).connected == s.connected
  {
    if s.pending.Some? {
      var e := Completed(s.pending.value.tx.id, result);
      ResultsOne(s.log, e);
      CallsAdd(Log(s.(pending := None), e), calls);
    }
  }

  lemma AddsTwice(s: State, t: State, u: State, a: seq<Result>, b: seq<Result>)
    requires Adds(s, t, a) && Adds(t, u, b)
    ensures Adds(s, u, a + b)
  {
    assert Results(s.log) + a + b == Results(s.log) + (a + b);
  }

  lemma AbortedOne(n: nat)
    requires n > 0
    ensures [257] + Aborted(n - 1) == Aborted(n)
  {
  }

  lemma {:induction false} EachAdds(s: State, txs: seq<Tx>, calls: Calls, k: nat, t: State)
    requires t == FinishEach(s, txs, ABORTED, calls, k)
    ensures Adds(s, t, Aborted(|txs|)) && t.connected == s.connected
    decreases |txs|
  {
    if txs == [] {
      assert Results(s.log) + Aborted(0) == Results(s.log);
    } else {
      var e := Completed(txs[0].id, ABORTED);
      var u := TransactAll(Log(s, e), calls(k));
      ResultsOne(s.log, e);
      CallsAdd(Log(s, e), calls(k));
      EachAdds(u, txs[1..], calls, k + 1, t);
      AddsTwice(s, u, t, [257], Aborted(|txs| - 1));
      AbortedOne(|txs|);
    }
  }

  lemma CloseAborts(s: State, calls: Calls, k: nat)
    ensures Closes(s, Close(s, calls, k), [])
  {
    var u := s.(connected := false, rx := NO_RX);
    FinishAdds(u, ABORTED, calls(k));
    var v := FinishPending(u, ABORTED, calls(k));
    EachAdds(v.(queue := []), v.queue, calls, k + 1, Close(s, calls, k));
    var n := |v.queue| + InFlight(s);
    assert (if s.pending.Some? then [257] else []) + Aborted(|v.queue|) == Aborted(n);
    assert Results(s.log) + (if s.pending.Some? then [257] else []) + Aborted(|v.queue|) == Results(s.log) + Aborted(n);
    assert [] + Aborted(n) == Aborted(n);
  }

  /** First some results, then the closing. */
  lemma ThenCloses(s: State, t: State, u: State, first: seq<Result>)
    requires Adds(s, t, first) && Closes(t, u, [])
    ensures Closes(s, u, first)
  {
    var n := |Results(u.log)| - |Results(t.log)|;
    assert [] + Aborted(n) == Aborted(n);
    assert Results(s.log) + first + Aborted(n) == Results(s.log) + (first + Aborted(n));
  }

  lemma AddsCloses(s: State, t: State, u: State, a: seq<Result>, b: seq<Result>)
    requires Adds(s, t, a) && Closes(t, u, b)
    ensures Closes(s, u, a + b)
  {
    var n := |Results(u.log)| - |Results(t.log)| - |b|;
    assert Results(s.log) + a + (b + Aborted(n)) == Results(s.log) + (a + b + Aborted(n));
  }

  // ---- What transact does ----

  /** A transaction is accepted, and waits behind the others, exactly if its request is within the limits and
      has no stray coils, its timeout is not negative, the client is connected, and less than 16 wait;
      otherwise its callback is told 256, 259 or 258, in this order, and nothing else changes. */
  lemma TransactExactly(s: State, a: Args)
    ensures var t, good := ClientRules.Transact(s, a), Accepts(a.req, a.mem) && a.timeout >= 0;
            if good && s.connected && |s.queue| < 16 then
              t == s.(queue := s.queue + [Tx(s.accepted, a.req, |a.mem|, a.timeout, a.mask)],
                      accepted := s.accepted + 1, log := s.log + [Accepted(s.accepted)])
            else t == Log(s, Rejected(if !good then 256 else if !s.connected then 259 else 258))
    ensures Accepts(a.req, a.mem) <==>
            && ModbusWire.WithinLimits(a.req.fc, a.req.count) && (a.req.fc == 5 ==> a.mem[0] in {0, 1})
            && (a.req.fc == 15 ==> ModbusWire.NoCoilFrom(a.mem, a.req.count, (a.req.count + 7) / 8))
  {
    ModbusWire.AcceptedExactly(a.req, a.mem);
  }

  // ---- What a call of the receive hook brings, told from the bytes ----

  /** Nothing yet, the end of the connection, with a result for the transaction whose response broke, or a
      complete response. */
  datatype Reception = Waits | Breaks(own: Option<Result>) | Brings(frame: Frame)

  /** A broken recv: 262 for an error, 260 for the end of the stream. */
  function Broken(r: SF.Recv): Reception {
    match r
    case Failed(_) => Breaks(Some(262))
    case Closed => Breaks(Some(260))
    case _ => Waits
  }

  /** The whole reception: seven header bytes with protocol 0 and a length of 1 to 253, so many bytes, and
      up to six readable bytes behind them, if they fit; two bytes of payload at least. */
  function ReceptionOf(rx: Rx, e: RecvEnv): Reception {
    var h, p := rx.header, rx.payload;
    if |h| < 7 then if e.recv.Failed? || e.recv.Closed? then Breaks(None) else Waits
    else if h[2] != 0 || h[3] != 0 then Breaks(None)
    else if At(h, 4) < 1 then Breaks(Some(264))
    else if At(h, 4) > 253 then Breaks(Some(265))
    else if |p| < At(h, 4) - 1 then Broken(e.recv)
    else if e.readable.IoctlFailed? then Breaks(Some(262))
    else if !(0 < e.readable.count < 7 && |p| + e.readable.count <= 252) then EndOf(h, p)
    else if e.trailing.Data? then EndOf(h, p + SF.Granted(e.trailing, e.readable.count))
    else Broken(e.trailing)
  }

  function EndOf(h: Memory, p: Memory): Reception
    requires |h| >= 7
  {
    if |p| < 2 then Breaks(Some(264)) else Brings(Frame(At(h, 0), h[6], p))
  }

  /** The result for the pending transaction, if it waits for this transaction ID. */
  function Own(s: State, id: Word, result: Result): seq<Result> {
    if s.pending.Some? && s.pending.value.wireId == id then [result] else []
  }

  /** What a reception means to the pending transaction: nothing, the result of a broken response, or the
      judgement of a complete one. */
  function Meaning(order: ByteOrder, s: State, mem: Memory, r: Reception): seq<Result>
    requires MemOk(s, mem) && (s.pending.Some? ==> TxOk(s.pending.value.tx))
  {
    match r
    case Waits => []
    case Breaks(own) => if own.Some? && |s.rx.header| >= 7 then Own(s, At(s.rx.header, 0), own.value) else []
    case Brings(f) =>
      if s.pending.None? || |f.payload| < 2 then []
      else Own(s, f.transaction, Check(order, s.pending.value.tx.req, f.unit, f.payload, mem).result)
  }

  /** These results were logged, and the client was closed exactly if the reception broke. */
  ghost predicate Receives(r: Reception, s: State, t: State, results: seq<Result>) {
    if r.Breaks? then Closes(s, t, results) else t.connected && Adds(s, t, results)
  }

  lemma FinishAndCloseResults(s: State, result: Result, calls: Calls)
    requires |s.rx.header| == 7
    ensures Closes(s, FinishAndClose(s, result, calls).state, Own(s, At(s.rx.header, 0), result))
  {
    var own := Own(s, At(s.rx.header, 0), result);
    var t := FinishIf(s, TransactionId(s.rx), result, calls(1));
    FinishAdds(s, result, calls(1));
    assert Adds(s, t, own);
    CloseAborts(t, calls, 2);
    AddsCloses(s, t, Close(t, calls, 2), own, []);
    assert own + [] == own;
  }

  lemma ResolveResults(order: ByteOrder, s: State, mem: Memory, calls: seq<Args>)
    requires |s.rx.header| == 7 && |s.rx.payload| >= 2 && Resolvable(s, mem) && s.connected
    ensures var t, r := Resolve(order, s, mem, calls), EndOf(s.rx.header, s.rx.payload);
            Receives(r, s, t, Meaning(order, s, mem, r))
  {
    if s.pending.Some? && s.pending.value.wireId == TransactionId(s.rx) {
      var p := s.pending.value;
      var j := Check(order, p.tx.req, UnitOf(s.rx.header), s.rx.payload, mem);
      var writes := Writes(p, s.rx.payload, j);
      var t := s.(rx := NO_RX, log := s.log + writes);
      if writes == [] { assert t.log == s.log; } else { ResultsOne(s.log, writes[0]); }
      FinishAdds(t, j.result, calls);
    }
  }

  lemma AfterTrailingResults(order: ByteOrder, s: State, mem: Memory, e: RecvEnv)
    requires |s.rx.header| == 7 && |s.rx.payload| + 1 == s.rx.length && Resolvable(s, mem) && s.connected
    ensures var t, r := AfterTrailing(order, s, mem, e).state, EndOf(s.rx.header, s.rx.payload);
            Receives(r, s, t, Meaning(order, s, mem, r))
  {
    if s.rx.length < MIN_RESPONSE_FRAME_LENGTH {
      FinishAndCloseResults(s, RESPONSE_FRAME_SHORTER_THAN_MINIMUM, e.calls);
    } else {
      ResolveResults(order, s, mem, e.calls(1));
    }
  }

  lemma PayloadResults(order: ByteOrder, s: State, mem: Memory, n: nat, r: SF.Recv, grow: bool, calls: Calls)
    requires |s.rx.header| == 7 && Resolvable(s, mem) && s.connected && !r.Data?
    ensures Receives(Broken(r), s, ReceivePayload(s, n, r, grow, calls).state, Meaning(order, s, mem, Broken(r)))
  {
    match r
    case Again => assert Results(s.log) + [] == Results(s.log);
    case Failed(_) => FinishAndCloseResults(s, RECEIVE_FAILED, calls);
    case Closed => FinishAndCloseResults(s, DISCONNECTED_BY_PEER, calls);
  }

  /** The reception of a frame of the announced length. */
  function CompleteReception(rx: Rx, e: RecvEnv): Reception
    requires |rx.header| == 7
  {
    var h, p := rx.header, rx.payload;
    if e.readable.IoctlFailed? then Breaks(Some(262))
    else if !(0 < e.readable.count < 7 && |p| + e.readable.count <= 252) then EndOf(h, p)
    else if e.trailing.Data? then EndOf(h, p + SF.Granted(e.trailing, e.readable.count))
    else Broken(e.trailing)
  }

  /** A frame that has grown means the same to whoever waits. */
  lemma GrownSame(order: ByteOrder, s: State, u: State, mem: Memory, r: Reception, t: State)
    requires MemOk(s, mem) && (s.pending.Some? ==> TxOk(s.pending.value.tx))
    requires u.log == s.log && u.pending == s.pending && u.rx.header == s.rx.header
    requires Receives(r, u, t, Meaning(order, u, mem, r))
    ensures Receives(r, s, t, Meaning(order, s, mem, r))
  {
  }

  lemma TrailingResults(order: ByteOrder, s: State, mem: Memory, e: RecvEnv, u: State)
    requires |s.rx.header| == 7 && |s.rx.payload| + 1 == s.rx.length && Resolvable(s, mem) && s.connected
    requires e.trailing.Data? && e.readable.Readable? && e.readable.count > 0
    requires u == ReceivePayload(s, e.readable.count, e.trailing, true, e.calls).state
    ensures var r := EndOf(s.rx.header, s.rx.payload + SF.Granted(e.trailing, e.readable.count));
            Receives(r, s, AfterTrailing(order, u, mem, e).state, Meaning(order, s, mem, r))
  {
    AfterTrailingResults(order, u, mem, e);
    GrownSame(order, s, u, mem, EndOf(u.rx.header, u.rx.payload), AfterTrailing(order, u, mem, e).state);
  }

  lemma CompleteFrameResults(order: ByteOrder, s: State, mem: Memory, e: RecvEnv, t: State)
    requires |s.rx.header| == 7 && |s.rx.payload| + 1 == s.rx.length && Resolvable(s, mem) && s.connected
    requires t == CompleteFrame(order, s, mem, e).state
    ensures var r := CompleteReception(s.rx, e); Receives(r, s, t, Meaning(order, s, mem, r))
  {
    if e.readable.IoctlFailed? {
      FinishAndCloseResults(s, RECEIVE_FAILED, e.calls);
    } else if 0 < e.readable.count < 7 && |s.rx.payload| + e.readable.count <= 252 {
      if e.trailing.Data? {
        TrailingResults(order, s, mem, e, ReceivePayload(s, e.readable.count, e.trailing, true, e.calls).state);
      } else {
        PayloadResults(order, s, mem, e.readable.count, e.trailing, true, e.calls);
      }
    } else {
      AfterTrailingResults(order, s, mem, e);
    }
  }

  lemma WithHeaderResults(order: ByteOrder, s: State, mem: Memory, e: RecvEnv, t: State)
    requires RxOk(s.rx) && |s.rx.header| == 7 && CheckHeader(s.rx.header) == Good && Resolvable(s, mem) && s.connected
    requires t == WithHeader(order, s, mem, e).state
    ensures var r := ReceptionOf(s.rx, e); Receives(r, s, t, Meaning(order, s, mem, r))
  {
    var u := s.(rx := s.rx.(checked := true, length := LengthOf(s.rx.header)));
    HeaderGood(s.rx.header);
    if |u.rx.payload| < u.rx.length - 1 {
      if e.recv.Data? {
        assert Results(s.log) + [] == Results(s.log);
      } else {
        PayloadResults(order, u, mem, u.rx.length - 1 - |u.rx.payload|, e.recv, false, e.calls);
        GrownSame(order, s, u, mem, Broken(e.recv), t);
      }
    } else {
      CompleteFrameResults(order, u, mem, e, t);
      GrownSame(order, s, u, mem, CompleteReception(u.rx, e), t);
    }
  }

  lemma HeaderGood(h: Memory)
    requires |h| == 7
    ensures CheckHeader(h) == if h[2] != 0 || h[3] != 0 then WrongProtocol else if At(h, 4) < 1 then TooShort
                              else if At(h, 4) > 253 then TooLong else Good
    ensures LengthOf(h) == At(h, 4)
  {
    ZeroWord(h[2], h[3]);
  }

  lemma BadHeaderResults(order: ByteOrder, s: State, mem: Memory, e: RecvEnv)
    requires RxOk(s.rx) && |s.rx.header| == 7 && CheckHeader(s.rx.header) != Good && Resolvable(s, mem) && s.connected
    ensures var t, r := Continue(order, s, mem, e).state, ReceptionOf(s.rx, e);
            Receives(r, s, t, Meaning(order, s, mem, r))
  {
    HeaderGood(s.rx.header);
    match CheckHeader(s.rx.header)
    case WrongProtocol => CloseAborts(s, e.calls, 2);
    case TooShort => FinishAndCloseResults(s, RESPONSE_FRAME_SHORTER_THAN_MINIMUM, e.calls);
    case TooLong => FinishAndCloseResults(s, RESPONSE_FRAME_LONGER_THAN_MAXIMUM, e.calls);
  }

  lemma ContinueResults(order: ByteOrder, s: State, mem: Memory, e: RecvEnv)
    requires RxOk(s.rx) && Resolvable(s, mem) && s.connected
    ensures var t, r := Continue(order, s, mem, e).state, ReceptionOf(s.rx, e);
            Receives(r, s, t, Meaning(order, s, mem, r))
  {
    if |s.rx.header| < 7 {
      CloseAborts(s, e.calls, 2);
      assert Results(s.log) + [] == Results(s.log);
    } else if CheckHeader(s.rx.header) == Good {
      WithHeaderResults(order, s, mem, e, WithHeader(order, s, mem, e).state);
    } else {
      BadHeaderResults(order, s, mem, e);
    }
  }

  // ---- The steps ----

  /** The deadline of the pending transaction has come: it completes with 263, and none is pending. */
  predicate Expired(s: State, now: int) { s.pending.Some? && now >= s.pending.value.deadline }

  function Late(s: State, now: int): seq<Result> { if Expired(s, now) then [263] else [] }

  function Left(s: State, now: int): State { if Expired(s, now) then s.(pending := None) else s }

  lemma TimeoutResults(s: State, now: int, calls: seq<Args>, t: State)
    requires Inv(s) && t == CheckTimeout(s, now, calls)
    ensures Adds(s, t, Late(s, now)) && Inv(t) && t.pending == Left(s, now).pending && t.rx == s.rx
    ensures t.connected == s.connected && t.nextId == s.nextId
    ensures s.queue <= t.queue && (!Expired(s, now) ==> t == s)
  {
    TimeoutKeeps(s, now, calls);
    FinishAdds(s, TIMEOUT, calls);
    if Expired(s, now) {
      CallsAppend(Log(s.(pending := None), Completed(s.pending.value.tx.id, TIMEOUT)), calls);
    } else {
      assert Results(s.log) + [] == Results(s.log);
    }
  }

  lemma {:induction false} CallsAppend(s: State, calls: seq<Args>)
    ensures s.queue <= TransactAll(s, calls).queue && TransactAll(s, calls).pending == s.pending
  {
    if calls == [] {
    } else {
      CallsAppend(s, calls[..|calls| - 1]);
    }
  }

  lemma ReceivesLater(r: Reception, s: State, v: State, t: State, first: seq<Result>, results: seq<Result>)
    requires Adds(s, v, first) && Receives(r, v, t, results)
    ensures Receives(r, s, t, first + results)
  {
    if r.Breaks? { AddsCloses(s, v, t, first, results); } else { AddsTwice(s, v, t, first, results); }
  }

  /** The results of a call of the receive hook: the timeout first, then what the reception means. */
  lemma RecvResults(order: ByteOrder, s: State, mem: Memory, e: RecvEnv, t: State)
    requires Inv(s) && s.connected && MemOk(s, mem) && t == RecvHook(order, s, mem, e).state
    ensures var r := ReceptionOf(s.rx, e);
            Receives(r, s, t, Late(s, e.now) + Meaning(order, Left(s, e.now), mem, r))
  {
    var v := CheckTimeout(s, e.now, e.calls(0));
    TimeoutResults(s, e.now, e.calls(0), v);
    ContinueResults(order, v, mem, e);
    var r := ReceptionOf(s.rx, e);
    ReceivesLater(r, s, v, t, Late(s, e.now), Meaning(order, v, mem, r));
  }

  /** A transaction that is started gets the next ID under its mask, and its start time plus its timeout as
      deadline. */
  ghost predicate Begins(s: State, tx: Tx, at: int, t: State) {
    && t.pending == Some(Pending(tx, And(s.nextId, tx.mask), at + tx.timeout))
    && t.nextId == (s.nextId + 1) % 65536 && t.connected == s.connected
  }

  /** The results of a call of the tick hook, and what it starts: the first transaction of the queue behind
      the timeout, if none is pending; if it cannot be sent it completes with 261 and the client is closed. */
  lemma TickResults(s: State, e: TickEnv, t: State) returns (queue: seq<Tx>)
    requires Inv(s) && t == TickHook(s, e)
    ensures s.queue <= queue && (!Expired(s, e.now) ==> queue == s.queue)
    ensures if s.pending.Some? && !Expired(s, e.now) then t == s
            else if queue == [] then
              Adds(s, t, Late(s, e.now)) && t.pending.None? && t.queue == [] && t.connected == s.connected
            else if e.sent then
              Adds(s, t, Late(s, e.now)) && Begins(s, queue[0], e.startedAt, t) && t.queue == queue[1..]
            else Closes(s, t, Late(s, e.now) + [261])
  {
    var v := CheckTimeout(s, e.now, e.calls(0));
    TimeoutResults(s, e.now, e.calls(0), v);
    queue := v.queue;
    if v.pending.None? && queue != [] {
      var u := Start(v, e.startedAt);
      StartAdds(s, v, Late(s, e.now), e.startedAt, u);
      if !e.sent {
        UnsentCloses(s, u, Late(s, e.now), e, t);
      }
    }
  }

  lemma StartAdds(s: State, v: State, first: seq<Result>, at: int, u: State)
    requires Adds(s, v, first) && v.queue != [] && u == Start(v, at)
    ensures Adds(s, u, first)
  {
    ResultsOne(v.log, u.log[|v.log|]);
  }

  lemma UnsentCloses(s: State, u: State, first: seq<Result>, e: TickEnv, t: State)
    requires Adds(s, u, first) && u.pending.Some?
    requires t == Close(FinishPending(u, SEND_FAILED, e.calls(1)), e.calls, 2)
    ensures Closes(s, t, first + [261])
  {
    var w := FinishPending(u, SEND_FAILED, e.calls(1));
    FinishAdds(u, SEND_FAILED, e.calls(1));
    AddsTwice(s, u, w, first, [261]);
    CloseAborts(w, e.calls, 2);
    ThenCloses(s, w, t, first + [261]);
  }

  // ---- Runs ----

  /** Transaction k is the pending one. */
  predicate Pends(s: State, k: nat) { s.pending.Some? && s.pending.value.tx.id == k }

  /** The clock that a step reads first, if it reads one. */
  function Clock(op: Op): Option<int> {
    match op
    case Tick(e) => Some(e.now)
    case Recv(_, e) => Some(e.now)
    case _ => None
  }

  /** Why transaction k completes with this result in a step: with 263 since its deadline has come, with 257
      since the client is closed, with 261 since its request cannot be sent; with what the broken response to
      it calls for; or with the judgement of the complete response to it. */
  ghost predicate Caused(order: ByteOrder, s: State, op: Op, k: nat, r: Result)
    requires Inv(s)
  {
    || (r == 263 && Pends(s, k) && Clock(op).Some? && Clock(op).value >= s.pending.value.deadline)
    || (r == 257 && !Apply(order, s, op).connected)
    || (r == 261 && op.Tick? && !op.tick.sent && !Pends(s, k) && !Apply(order, s, op).connected)
    || (op.Recv? && s.connected && Pends(s, k) && op.recv.now < s.pending.value.deadline
        && Answers(order, s, Content(op.memory, s), ReceptionOf(s.rx, op.recv), r))
  }

  /** A reception gives the pending transaction this result. */
  ghost predicate Answers(order: ByteOrder, s: State, mem: Memory, rec: Reception, r: Result)
    requires s.pending.Some? && TxOk(s.pending.value.tx) && MemOk(s, mem)
  {
    match rec
    case Waits => false
    case Breaks(own) => own == Some(r) && |s.rx.header| >= 7 && s.pending.value.wireId == At(s.rx.header, 0)
    case Brings(f) =>
      && |f.payload| >= 2 && s.pending.value.wireId == f.transaction
      && r == Check(order, s.pending.value.tx.req, f.unit, f.payload, mem).result
  }

  lemma {:induction false} ResultsCount(log: seq<Event>)
    ensures |Results(log)| == |Completions(log)|
  {
    if log == [] {
    } else {
      ResultsCount(log[..|log| - 1]);
    }
  }

  /** The new results of a step, behind those before it. */
  lemma NewResult(s: State, t: State, more: seq<Result>, i: nat)
    requires Adds(s, t, more) && |Results(s.log)| <= i < |Results(t.log)|
    ensures i - |Results(s.log)| < |more| && Results(t.log)[i] == more[i - |Results(s.log)|]
  {
  }

  /** The pending transaction is the next to complete. */
  lemma PendsNext(s: State)
    requires Inv(s)
    ensures s.pending.Some? ==> Pends(s, |Results(s.log)|)
  {
    ResultsCount(s.log);
  }

  /** The own result of a reception, behind the timeout. */
  lemma OwnCaused(order: ByteOrder, s: State, op: Op, r: Reception, own: seq<Result>)
    requires Inv(s) && op.Recv? && s.connected && r == ReceptionOf(s.rx, op.recv)
    requires own == Late(s, op.recv.now) + Meaning(order, Left(s, op.recv.now), Content(op.memory, s), r)
    ensures |own| <= 1
    ensures own != [] ==> Caused(order, s, op, |Results(s.log)|, own[0])
  {
    PendsNext(s);
  }

  lemma RecvCaused(order: ByteOrder, s: State, op: Op, i: nat, t: State, result: Result)
    requires Inv(s) && op.Recv? && s.connected && t == Apply(order, s, op)
    requires |Results(s.log)| <= i < |Results(t.log)| && result == Results(t.log)[i]
    ensures Caused(order, s, op, i, result)
  {
    var mem, e := Content(op.memory, s), op.recv;
    var r := ReceptionOf(s.rx, e);
    var d, own := |Results(s.log)|, Late(s, e.now) + Meaning(order, Left(s, e.now), mem, r);
    RecvResults(order, s, mem, e, t);
    OwnCaused(order, s, op, r, own);
    if r.Breaks? {
      NewResult(s, t, own + Aborted(|Results(t.log)| - d - |own|), i);
    } else {
      NewResult(s, t, own, i);
    }
  }

  lemma TickCaused(order: ByteOrder, s: State, op: Op, i: nat, t: State)
    requires Inv(s) && op.Tick? && t == Apply(order, s, op) && |Results(s.log)| <= i < |Results(t.log)|
    ensures Caused(order, s, op, i, Results(t.log)[i])
  {
    var e, late := op.tick, Late(s, op.tick.now);
    var queue := TickResults(s, e, t);
    PendsNext(s);
    if (s.pending.None? || Expired(s, e.now)) && queue != [] && !e.sent {
      NewResult(s, t, late + [261] + Aborted(|Results(t.log)| - |Results(s.log)| - |late| - 1), i);
    } else if s.pending.None? || Expired(s, e.now) {
      NewResult(s, t, late, i);
    }
  }

  /** Whatever completes in a step has its cause there. */
  lemma StepCaused(order: ByteOrder, s: State, op: Op, i: nat, t: State)
    requires Inv(s) && t == Apply(order, s, op) && |Results(s.log)| <= i < |Results(t.log)|
    ensures Caused(order, s, op, i, Results(t.log)[i])
  {
    match op
    case Connected =>
    case Transact(a) => TransactAdds(s, a);
    case Tick(e) => TickCaused(order, s, op, i, t);
    case Recv(memory, e) => if s.connected { RecvCaused(order, s, op, i, t, Results(t.log)[i]); }
    case Closing(calls) =>
      CloseAborts(s, calls, 0);
      NewResult(s, t, [] + Aborted(|Results(t.log)| - |Results(s.log)|), i);
  }

  /** Over every run, transaction k has completed with its result in one of the steps, for the cause that
      the result names. */
  lemma {:induction false} RunCaused(order: ByteOrder, firstId: Word, ops: seq<Op>, k: nat, r: Result) returns (n: nat)
    requires var s := Exec(order, firstId, ops); k < |Results(s.log)| && r == Results(s.log)[k]
    ensures n < |ops| && Caused(order, Exec(order, firstId, ops[..n]), ops[n], k, r)
  {
    if ops == [] {
      assert false;
    } else {
      var m := |ops| - 1;
      var s := Exec(order, firstId, ops[..m]);
      if k < |Results(s.log)| {
        ResultsKept(order, s, ops[m], Exec(order, firstId, ops));
        n := RunCaused(order, firstId, ops[..m], k, r);
        CausedEarlier(order, firstId, ops, m, n, k, r);
      } else {
        StepCaused(order, s, ops[m], k, Exec(order, firstId, ops));
        n := m;
      }
    }
  }

  lemma CausedEarlier(order: ByteOrder, firstId: Word, ops: seq<Op>, m: nat, n: nat, k: nat, r: Result)
    requires n < m <= |ops| && Caused(order, Exec(order, firstId, ops[..m][..n]), ops[..m][n], k, r)
    ensures Caused(order, Exec(order, firstId, ops[..n]), ops[n], k, r)
  {
    assert ops[..m][..n] == ops[..n];
  }

  /** A step keeps the results so far. */
  lemma ResultsKept(order: ByteOrder, s: State, op: Op, t: State)
    requires Inv(s) && t == Apply(order, s, op)
    ensures Results(s.log) <= Results(t.log)
  {
    ClientLog.ApplyGrows(order, s, op);
    ResultsPrefix(s.log, t.log);
  }

  lemma {:induction false} ResultsPrefix(a: seq<Event>, b: seq<Event>)
    requires a <= b
    ensures Results(a) <= Results(b)
    decreases |b|
  {
    if a == b {
    } else {
      assert a <= b[..|b| - 1];
      ResultsPrefix(a, b[..|b| - 1]);
    }
  }

  /** The completion of transaction k in the log of a run carries result k. */
  lemma ResultLogged(order: ByteOrder, firstId: Word, ops: seq<Op>, i: nat)
    requires var log := Exec(order, firstId, ops).log; i < |log| && log[i].Completed?
    ensures var log := Exec(order, firstId, ops).log;
            log[i].id < |Results(log)| && Results(log)[log[i].id] == log[i].result
  {
    var log := Exec(order, firstId, ops).log;
    ResultAt(log, i);
    CompletionAt(log, i);
    TransactionsConserved(order, firstId, ops);
    ResultsCount(log);
    ResultsCount(log[..i]);
  }

  lemma {:induction false} ResultAt(log: seq<Event>, i: nat)
    requires i < |log| && log[i].Completed?
    ensures var n := |Results(log[..i])|; n < |Results(log)| && Results(log)[n] == log[i].result
    decreases |log|
  {
    var n := |log| - 1;
    if i == n {
      assert Results(log) == Results(log[..n]) + [log[i].result];
    } else {
      ResultAt(log[..n], i);
      assert log[..n][..i] == log[..i];
    }
  }

  /** Success needs a response: every transaction that completes with 0 does so in a receive step, before its
      deadline, in which the bytes received make up a response with its transaction ID that matches its
      request. */
  lemma SuccessNeedsResponse(order: ByteOrder, firstId: Word, ops: seq<Op>, i: nat) returns (n: nat, f: Frame)
    requires var log := Exec(order, firstId, ops).log; i < |log| && log[i].Completed? && log[i].result == 0
    ensures n < |ops| && ops[n].Recv? && |f.payload| >= 2
    ensures var s := Exec(order, firstId, ops[..n]);
            && s.connected && Pends(s, Exec(order, firstId, ops).log[i].id)
            && ops[n].recv.now < s.pending.value.deadline
            && ReceptionOf(s.rx, ops[n].recv) == Brings(f) && s.pending.value.wireId == f.transaction
            && Matches(order, s.pending.value.tx.req, f.unit, f.payload, Content(ops[n].memory, s))
  {
    var id := Exec(order, firstId, ops).log[i].id;
    ResultLogged(order, firstId, ops, i);
    n := RunCaused(order, firstId, ops, id, 0);
    var s := Exec(order, firstId, ops[..n]);
    var mem := Content(ops[n].memory, s);
    NeverZero(s.rx, ops[n].recv);
    f := ReceptionOf(s.rx, ops[n].recv).frame;
    SuccessExactly(order, s.pending.value.tx.req, f.unit, f.payload, mem);
  }

  lemma NeverZero(rx: Rx, e: RecvEnv)
    ensures ReceptionOf(rx, e) != Breaks(Some(0))
  {
  }
}
