/** What holds over whole runs of the Modbus TCP client. */
module ClientRuns {
  import opened Bytes
  import opened ModbusCommon
  import opened ModbusRules
  import opened ClientRules
  import SF = ServerFraming

  // ---- The ledger of transactions ----

  function Range(n: nat): (r: seq<nat>)
    ensures |r| == n && forall i :: 0 <= i < n ==> r[i] == i
  {
    seq(n, i requires 0 <= i < n => i)
  }

  /** The completed transactions, in the order of their callbacks. */
  function Completions(log: seq<Event>): seq<nat> {
    if log == [] then []
    else
      var e := log[|log| - 1];
      Completions(log[..|log| - 1]) + if e.Completed? then [e.id] else []
  }

  /** The transactions that were sent, in order. */
  function Starts(log: seq<Event>): seq<nat> {
    if log == [] then []
    else
      var e := log[|log| - 1];
      Starts(log[..|log| - 1]) + if e.Started? then [e.id] else []
  }

  ghost predicate Increasing(s: seq<nat>) { forall i, j :: 0 <= i < j < |s| ==> s[i] < s[j] }

  /** Every copy into a caller's buffer is directly followed by the successful completion of the
      same transaction. */
  ghost predicate WritesComplete(log: seq<Event>) {
    forall i :: 0 <= i < |log| && log[i].Wrote? ==> i + 1 < |log| && log[i + 1] == Completed(log[i].id, 0)
  }

  function InFlight(s: State): nat { if s.pending.Some? then 1 else 0 }

  /** Counting the accepted transactions from 0: those below d are completed, each once and in this
      order, d is pending (if any is), and the rest waits in the queue; `detached` is a part of the
      queue that is being aborted. */
  ghost predicate Ledger(s: State, detached: seq<Tx>) {
    var d := |Completions(s.log)|;
    var waiting := detached + s.queue;
    && Completions(s.log) == Range(d)
    && (s.pending.Some? ==> s.pending.value.tx.id == d)
    && (forall i :: 0 <= i < |waiting| ==> waiting[i].id == d + InFlight(s) + i)
    && s.accepted == d + InFlight(s) + |waiting|
    && Increasing(Starts(s.log)) && (forall id <- Starts(s.log) :: id < d + InFlight(s))
    && WritesComplete(s.log)
  }

  /** A state between two steps. */
  ghost predicate Inv(s: State) {
    && Ledger(s, []) && Wired(s) && |s.queue| <= MAX_SCHEDULED
    && (!s.connected ==> s.pending == None && s.queue == [] && s.rx == NO_RX)
  }

  lemma LogOne(log: seq<Event>, e: Event)
    ensures Completions(log + [e]) == Completions(log) + (if e.Completed? then [e.id] else [])
    ensures Starts(log + [e]) == Starts(log) + (if e.Started? then [e.id] else [])
    ensures WritesComplete(log) && !e.Wrote? ==> WritesComplete(log + [e])
  {
    assert (log + [e])[..|log|] == log;
  }

  lemma RangeGrows(n: nat)
    ensures Range(n) + [n] == Range(n + 1)
  {
  }

  /** Parts of the state that calls of `transact` leave alone, and what they do to the queue. */
  ghost predicate Called(s: State, t: State) {
    && t == s.(queue := t.queue, accepted := t.accepted, log := t.log)
    && (s.connected || t.queue == s.queue)
    && |s.queue| <= |t.queue| && (|s.queue| <= MAX_SCHEDULED ==> |t.queue| <= MAX_SCHEDULED)
    && ((forall tx <- s.queue :: TxOk(tx)) ==> forall tx <- t.queue :: TxOk(tx))
    && s.log <= t.log
  }

  /** Events that neither start, write nor complete anything. */
  lemma QuietEventKeeps(s: State, detached: seq<Tx>, e: Event)
    requires Ledger(s, detached) && (e.Rejected? || e.Accepted?)
    ensures Ledger(Log(s, e), detached) && Completions(s.log + [e]) == Completions(s.log)
  {
    LogOne(s.log, e);
  }

  lemma AcceptKeeps(s: State, tx: Tx)
    requires Ledger(s, []) && tx.id == s.accepted
    ensures Ledger(s.(queue := s.queue + [tx], accepted := s.accepted + 1), [])
  {
    var t := s.(queue := s.queue + [tx], accepted := s.accepted + 1);
    assert [] + t.queue == t.queue && [] + s.queue == s.queue;
  }

  lemma TransactLedger(s: State, detached: seq<Tx>, a: Args)
    requires Ledger(s, detached) && (s.connected ==> detached == [])
    ensures Ledger(Transact(s, a), detached)
  {
    var t := Transact(s, a);
    var e := t.log[|s.log|];
    QuietEventKeeps(s, detached, e);
    if e.Accepted? {
      AcceptKeeps(Log(s, e), Tx(s.accepted, a.req, |a.mem|, a.timeout, a.mask));
    }
  }

  lemma TransactCalled(s: State, a: Args)
    ensures Called(s, Transact(s, a))
  {
    var t := Transact(s, a);
    var tx := Tx(s.accepted, a.req, |a.mem|, a.timeout, a.mask);
    assert Accepts(a.req, a.mem) ==> TxOk(tx);
  }

  lemma TransactKeeps(s: State, detached: seq<Tx>, a: Args)
    requires Ledger(s, detached) && (s.connected ==> detached == [])
    ensures Ledger(Transact(s, a), detached) && Called(s, Transact(s, a))
  {
    TransactLedger(s, detached, a);
    TransactCalled(s, a);
  }

  lemma {:induction false} TransactAllKeeps(s: State, detached: seq<Tx>, calls: seq<Args>)
    requires Ledger(s, detached) && (s.connected ==> detached == [])
    ensures Ledger(TransactAll(s, calls), detached) && Called(s, TransactAll(s, calls))
  {
    if calls == [] {
    } else {
      var n := |calls| - 1;
      TransactAllKeeps(s, detached, calls[..n]);
      TransactKeeps(TransactAll(s, calls[..n]), detached, calls[n]);
    }
  }

  /** Completing the transaction whose turn it is. */
  lemma CompleteKeeps(s: State, t: State, detached: seq<Tx>, rest: seq<Tx>, id: nat, result: Result)
    requires Ledger(s, detached) && t.log == s.log + [Completed(id, result)] && t.accepted == s.accepted
    requires if s.pending.Some? then s.pending.value.tx.id == id && rest == detached && t.queue == s.queue
             else detached != [] && detached[0].id == id && rest == detached[1..] && t.queue == s.queue
    requires t.pending == None
    ensures Ledger(t, rest)
  {
    LogOne(s.log, Completed(id, result));
    RangeGrows(id);
    if s.pending.None? {
      var waiting := detached + s.queue;
      assert rest + t.queue == waiting[1..] && waiting[0].id == id;
      forall i | 0 <= i < |waiting| - 1 ensures waiting[1..][i].id == id + 1 + i {
        assert waiting[i + 1].id == id + (i + 1);
      }
    }
  }

  lemma FinishKeeps(s: State, result: Result, calls: seq<Args>)
    requires Ledger(s, [])
    ensures var t := FinishPending(s, result, calls);
            Ledger(t, []) && t.pending == None && Called(s.(pending := None), t)
  {
    if s.pending.Some? {
      var id := s.pending.value.tx.id;
      var u := Log(s.(pending := None), Completed(id, result));
      CompleteKeeps(s, u, [], [], id, result);
      TransactAllKeeps(u, [], calls);
    }
  }

  lemma {:induction false} FinishEachKeeps(s: State, txs: seq<Tx>, result: Result, calls: Calls, k: nat)
    requires Ledger(s, txs) && !s.connected && s.pending == None && s.queue == []
    ensures var t := FinishEach(s, txs, result, calls, k);
            && Ledger(t, []) && t == s.(log := t.log)
            && |Completions(t.log)| == |Completions(s.log)| + |txs|
    decreases |txs|
  {
    if txs == [] {
    } else {
      var u := Log(s, Completed(txs[0].id, result));
      LogOne(s.log, Completed(txs[0].id, result));
      CompleteKeeps(s, u, txs, txs[1..], txs[0].id, result);
      TransactAllKeeps(u, txs[1..], calls(k));
      RejectedOnly(u, calls(k));
      FinishEachKeeps(TransactAll(u, calls(k)), txs[1..], result, calls, k + 1);
    }
  }

  /** A closed client accepts nothing. */
  lemma {:induction false} RejectedOnly(s: State, calls: seq<Args>)
    requires !s.connected
    ensures var t := TransactAll(s, calls);
            t == s.(log := t.log) && Completions(t.log) == Completions(s.log)
  {
    if calls == [] {
    } else {
      var n := |calls| - 1;
      RejectedOnly(s, calls[..n]);
      var u := TransactAll(s, calls[..n]);
      LogOne(u.log, TransactAll(s, calls).log[|u.log|]);
    }
  }

  /** Closing completes everything: what was pending or queued is aborted, in order. */
  lemma CloseKeeps(s: State, calls: Calls, k: nat)
    requires Ledger(s, [])
    ensures var t := Close(s, calls, k);
            && Inv(t) && !t.connected && t.pending == None && t.queue == []
            && |Completions(t.log)| == t.accepted
  {
    var u := s.(connected := false, rx := NO_RX);
    FinishKeeps(u, ABORTED, calls(k));
    var v := FinishPending(u, ABORTED, calls(k));
    DetachAll(v);
    FinishEachKeeps(v.(queue := []), v.queue, ABORTED, calls, k + 1);
    assert [] + Close(s, calls, k).queue == [];
  }

  lemma DetachAll(s: State)
    requires Ledger(s, [])
    ensures Ledger(s.(queue := []), s.queue)
  {
    assert s.queue + [] == [] + s.queue;
  }

  // ---- Each step ----

  lemma TimeoutKeeps(s: State, now: int, calls: seq<Args>)
    requires Inv(s)
    ensures var t := CheckTimeout(s, now, calls);
            && Inv(t) && t == s.(pending := t.pending, queue := t.queue, accepted := t.accepted, log := t.log)
            && (t.pending == None || t.pending == s.pending)
  {
    FinishKeeps(s, TIMEOUT, calls);
  }

  lemma StartLedger(s: State, now: int)
    requires Ledger(s, []) && s.pending == None && s.queue != []
    ensures Ledger(Start(s, now), [])
  {
    var t := Start(s, now);
    var tx := s.queue[0];
    LogOne(s.log, Started(tx.id, t.pending.value.wireId, tx.mask));
    assert [] + s.queue == s.queue && [] + t.queue == t.queue;
    assert s.queue[0].id == |Completions(s.log)|;
    var starts := Starts(s.log);
    assert forall i :: 0 <= i < |starts| ==> starts[i] in starts;
    forall i | 0 <= i < |t.queue| ensures t.queue[i].id == |Completions(s.log)| + 1 + i {
      assert s.queue[i + 1].id == |Completions(s.log)| + (i + 1);
    }
  }

  lemma StartKeeps(s: State, now: int)
    requires Inv(s) && s.pending == None && s.queue != []
    ensures Inv(Start(s, now))
  {
    StartLedger(s, now);
    assert s.queue[0] in s.queue && forall u <- s.queue[1..] :: u in s.queue;
  }

  lemma TickKeeps(s: State, e: TickEnv)
    requires Inv(s)
    ensures Inv(TickHook(s, e))
  {
    TimeoutKeeps(s, e.now, e.calls(0));
    var t := CheckTimeout(s, e.now, e.calls(0));
    if t.pending.None? && t.queue != [] {
      StartKeeps(t, e.startedAt);
      if !e.sent {
        FinishKeeps(Start(t, e.startedAt), SEND_FAILED, e.calls(1));
        CloseKeeps(FinishPending(Start(t, e.startedAt), SEND_FAILED, e.calls(1)), e.calls, 2);
      }
    }
  }

  lemma FinishAndCloseKeeps(s: State, result: Result, calls: Calls)
    requires Ledger(s, []) && |s.rx.header| == HEADER_LENGTH
    ensures Inv(FinishAndClose(s, result, calls).state)
  {
    FinishKeeps(s, result, calls(1));
    CloseKeeps(FinishIf(s, TransactionId(s.rx), result, calls(1)), calls, 2);
  }

  lemma ResolveKeeps(order: ByteOrder, s: State, mem: Memory, calls: seq<Args>)
    requires Inv(s.(rx := NO_RX)) && |s.rx.header| == HEADER_LENGTH && |s.rx.payload| >= 2
    requires MemOk(s, mem) && s.connected
    ensures Inv(Resolve(order, s, mem, calls))
  {
    var t := s.(rx := NO_RX);
    if s.pending.Some? && s.pending.value.wireId == TransactionId(s.rx) {
      var p := s.pending.value;
      var j := Check(order, p.tx.req, UnitOf(s.rx.header), s.rx.payload, mem);
      var writes := Writes(p, s.rx.payload, j);
      if writes == [] {
        assert t.log + writes == t.log;
        FinishKeeps(t, j.result, calls);
      } else {
        WriteKeeps(t, writes[0], calls);
      }
    }
  }

  /** Copying into the buffer and completing with success. */
  lemma WriteKeeps(t: State, w: Event, calls: seq<Args>)
    requires Inv(t) && t.connected && t.pending.Some? && w.Wrote? && w.id == t.pending.value.tx.id
    ensures Inv(FinishPending(t.(log := t.log + [w]), 0, calls))
  {
    var id := w.id;
    var u := t.(pending := None, log := t.log + [w] + [Completed(id, 0)]);
    LogOne(t.log, w);
    LogOne(t.log + [w], Completed(id, 0));
    RangeGrows(id);
    assert Ledger(u, []);
    TransactAllKeeps(u, [], calls);
  }

  lemma PayloadKeeps(s: State, n: nat, r: SF.Recv, calls: Calls)
    requires Inv(s) && s.connected && s.rx.checked && n == s.rx.length - 1 - |s.rx.payload|
    ensures Inv(ReceivePayload(s, n, r, false, calls).state)
  {
    FinishAndCloseKeeps(s, RECEIVE_FAILED, calls);
    FinishAndCloseKeeps(s, DISCONNECTED_BY_PEER, calls);
  }

  lemma AfterTrailingKeeps(order: ByteOrder, s: State, mem: Memory, e: RecvEnv)
    requires Inv(s.(rx := NO_RX)) && s.connected && MemOk(s, mem)
    requires |s.rx.header| == HEADER_LENGTH && |s.rx.payload| + 1 == s.rx.length
    ensures Inv(AfterTrailing(order, s, mem, e).state)
  {
    if s.rx.length < MIN_RESPONSE_FRAME_LENGTH {
      FinishAndCloseKeeps(s, RESPONSE_FRAME_SHORTER_THAN_MINIMUM, e.calls);
    } else {
      ResolveKeeps(order, s, mem, e.calls(1));
    }
  }

  lemma CompleteFrameKeeps(order: ByteOrder, s: State, mem: Memory, e: RecvEnv)
    requires Inv(s) && s.connected && MemOk(s, mem) && s.rx.checked && |s.rx.payload| + 1 == s.rx.length
    ensures Inv(CompleteFrame(order, s, mem, e).state)
  {
    if e.readable.IoctlFailed? {
      FinishAndCloseKeeps(s, RECEIVE_FAILED, e.calls);
    } else if 0 < e.readable.count < HEADER_LENGTH && |s.rx.payload| + e.readable.count <= MAX_PAYLOAD_LENGTH {
      if e.trailing.Data? {
        TrailingKeeps(order, s, mem, e, e.readable.count);
      } else {
        NoTrailingKeeps(s, e.readable.count, e.trailing, e.calls);
      }
    } else {
      AfterTrailingKeeps(order, s, mem, e);
    }
  }

  lemma NoTrailingKeeps(s: State, n: nat, r: SF.Recv, calls: Calls)
    requires Inv(s) && |s.rx.header| == HEADER_LENGTH && !r.Data?
    ensures Inv(ReceivePayload(s, n, r, true, calls).state)
  {
    FinishAndCloseKeeps(s, RECEIVE_FAILED, calls);
    FinishAndCloseKeeps(s, DISCONNECTED_BY_PEER, calls);
  }

  lemma TrailingKeeps(order: ByteOrder, s: State, mem: Memory, e: RecvEnv, n: nat)
    requires Inv(s) && s.connected && MemOk(s, mem) && s.rx.checked && |s.rx.payload| + 1 == s.rx.length
             && e.trailing.Data?
    ensures Inv(AfterTrailing(order, ReceivePayload(s, n, e.trailing, true, e.calls).state, mem, e).state)
  {
    var t := ReceivePayload(s, n, e.trailing, true, e.calls);
    assert t.state.(rx := NO_RX) == s.(rx := NO_RX);
    AfterTrailingKeeps(order, t.state, mem, e);
  }

  lemma WithHeaderKeeps(order: ByteOrder, s: State, mem: Memory, e: RecvEnv)
    requires Inv(s) && s.connected && MemOk(s, mem) && |s.rx.header| == HEADER_LENGTH
             && CheckHeader(s.rx.header) == Good
    ensures Inv(WithHeader(order, s, mem, e).state)
  {
    var u := s.(rx := s.rx.(checked := true, length := LengthOf(s.rx.header)));
    assert Inv(u);
    var missing := u.rx.length - 1 - |u.rx.payload|;
    if missing > 0 {
      PayloadKeeps(u, missing, e.recv, e.calls);
    } else {
      CompleteFrameKeeps(order, u, mem, e);
    }
  }

  lemma ContinueKeeps(order: ByteOrder, s: State, mem: Memory, e: RecvEnv)
    requires Inv(s) && MemOk(s, mem) && s.connected
    ensures Inv(Continue(order, s, mem, e).state)
  {
    if |s.rx.header| < HEADER_LENGTH {
      CloseKeeps(s, e.calls, 2);
    } else {
      match (if s.rx.checked then Good else CheckHeader(s.rx.header))
      case WrongProtocol => CloseKeeps(s, e.calls, 2);
      case TooShort => FinishAndCloseKeeps(s, RESPONSE_FRAME_SHORTER_THAN_MINIMUM, e.calls);
      case TooLong => FinishAndCloseKeeps(s, RESPONSE_FRAME_LONGER_THAN_MAXIMUM, e.calls);
      case Good => WithHeaderKeeps(order, s, mem, e);
    }
  }

  lemma RecvKeeps(order: ByteOrder, s: State, mem: Memory, e: RecvEnv)
    requires Inv(s) && MemOk(s, mem) && s.connected
    ensures Inv(RecvHook(order, s, mem, e).state)
  {
    TimeoutKeeps(s, e.now, e.calls(0));
    ContinueKeeps(order, CheckTimeout(s, e.now, e.calls(0)), mem, e);
  }
}
