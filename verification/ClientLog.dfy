/** The log of the Modbus TCP client only grows, and it holds every accepted transaction. */
module ClientLog {
  import opened Bytes
  import opened ModbusCommon
  import opened ModbusRules
  import opened ClientRules
  import opened ClientRuns
  import opened ClientSafety

  /** The accepted transactions, in order. */
  function Acceptances(log: seq<Event>): seq<nat> {
    if log == [] then []
    else
      var e := log[|log| - 1];
      Acceptances(log[..|log| - 1]) + if e.Accepted? then [e.id] else []
  }

  /** The log shows the accepted transactions in the order of their numbers. */
  ghost predicate Tallied(s: State) { Acceptances(s.log) == Range(s.accepted) }

  /** A step adds to the log, and to its tally of accepted transactions. */
  ghost predicate Grows(s: State, t: State) { s.log <= t.log && (Tallied(s) ==> Tallied(t)) }

  lemma AcceptancesOne(log: seq<Event>, e: Event)
    ensures Acceptances(log + [e]) == Acceptances(log) + if e.Accepted? then [e.id] else []
  {
    assert (log + [e])[..|log|] == log;
  }

  /** An event that accepts nothing. */
  lemma LogGrows(s: State, t: State, e: Event)
    requires t.log == s.log + [e] && !e.Accepted? && t.accepted == s.accepted
    ensures Grows(s, t)
  {
    AcceptancesOne(s.log, e);
  }

  lemma TransactGrows(s: State, a: Args)
    ensures Grows(s, ClientRules.Transact(s, a))
  {
    var t := ClientRules.Transact(s, a);
    AcceptancesOne(s.log, t.log[|s.log|]);
    RangeGrows(s.accepted);
  }

  lemma {:induction false} CallsGrow(s: State, calls: seq<Args>)
    ensures Grows(s, TransactAll(s, calls))
  {
    if calls == [] {
    } else {
      CallsGrow(s, calls[..|calls| - 1]);
      TransactGrows(TransactAll(s, calls[..|calls| - 1]), calls[|calls| - 1]);
    }
  }

  lemma FinishGrows(s: State, result: Result, calls: seq<Args>)
    ensures Grows(s, FinishPending(s, result, calls))
  {
    if s.pending.Some? {
      var t := Log(s.(pending := None), Completed(s.pending.value.tx.id, result));
      LogGrows(s, t, Completed(s.pending.value.tx.id, result));
      CallsGrow(t, calls);
    }
  }

  lemma {:induction false} EachGrows(s: State, txs: seq<Tx>, result: Result, calls: Calls, k: nat)
    ensures Grows(s, FinishEach(s, txs, result, calls, k))
    decreases |txs|
  {
    if txs == [] {
    } else {
      var t := Log(s, Completed(txs[0].id, result));
      LogGrows(s, t, Completed(txs[0].id, result));
      CallsGrow(t, calls(k));
      EachGrows(TransactAll(t, calls(k)), txs[1..], result, calls, k + 1);
    }
  }

  lemma CloseGrows(s: State, calls: Calls, k: nat)
    ensures Grows(s, Close(s, calls, k))
  {
    var u := s.(connected := false, rx := NO_RX);
    FinishGrows(u, ABORTED, calls(k));
    var v := FinishPending(u, ABORTED, calls(k));
    EachGrows(v.(queue := []), v.queue, ABORTED, calls, k + 1);
  }

  lemma FinishAndCloseGrows(s: State, result: Result, calls: Calls)
    requires |s.rx.header| == HEADER_LENGTH
    ensures Grows(s, FinishAndClose(s, result, calls).state)
  {
    FinishGrows(s, result, calls(1));
    CloseGrows(FinishIf(s, TransactionId(s.rx), result, calls(1)), calls, 2);
  }

  lemma ResolveGrows(order: ByteOrder, s: State, mem: Memory, calls: seq<Args>)
    requires |s.rx.header| == HEADER_LENGTH && |s.rx.payload| >= 2 && Resolvable(s, mem)
    ensures Grows(s, Resolve(order, s, mem, calls))
  {
    if s.pending.Some? && s.pending.value.wireId == TransactionId(s.rx) {
      var p := s.pending.value;
      var j := Check(order, p.tx.req, UnitOf(s.rx.header), s.rx.payload, mem);
      var writes := Writes(p, s.rx.payload, j);
      var t := s.(rx := NO_RX, log := s.log + writes);
      if writes == [] { assert t.log == s.log; } else { LogGrows(s, t, writes[0]); }
      FinishGrows(t, j.result, calls);
    }
  }

  lemma AfterTrailingGrows(order: ByteOrder, s: State, mem: Memory, e: RecvEnv)
    requires |s.rx.header| == HEADER_LENGTH && |s.rx.payload| + 1 == s.rx.length && Resolvable(s, mem)
    ensures Grows(s, AfterTrailing(order, s, mem, e).state)
  {
    FinishAndCloseGrows(s, RESPONSE_FRAME_SHORTER_THAN_MINIMUM, e.calls);
    if s.rx.length >= MIN_RESPONSE_FRAME_LENGTH {
      ResolveGrows(order, s, mem, e.calls(1));
    }
  }

  lemma CompleteFrameGrows(order: ByteOrder, s: State, mem: Memory, e: RecvEnv)
    requires |s.rx.header| == HEADER_LENGTH && |s.rx.payload| + 1 == s.rx.length && Resolvable(s, mem)
    ensures Grows(s, CompleteFrame(order, s, mem, e).state)
  {
    if e.readable.IoctlFailed? {
      FinishAndCloseGrows(s, RECEIVE_FAILED, e.calls);
    } else if 0 < e.readable.count < HEADER_LENGTH && |s.rx.payload| + e.readable.count <= MAX_PAYLOAD_LENGTH {
      if e.trailing.Data? {
        AfterTrailingGrows(order, ReceivePayload(s, e.readable.count, e.trailing, true, e.calls).state, mem, e);
      } else {
        FinishAndCloseGrows(s, RECEIVE_FAILED, e.calls);
        FinishAndCloseGrows(s, DISCONNECTED_BY_PEER, e.calls);
      }
    } else {
      AfterTrailingGrows(order, s, mem, e);
    }
  }

  lemma WithHeaderGrows(order: ByteOrder, s: State, mem: Memory, e: RecvEnv)
    requires RxOk(s.rx) && Resolvable(s, mem) && |s.rx.header| == HEADER_LENGTH && CheckHeader(s.rx.header) == Good
    ensures Grows(s, WithHeader(order, s, mem, e).state)
  {
    var u := s.(rx := s.rx.(checked := true, length := LengthOf(s.rx.header)));
    FinishAndCloseGrows(u, RECEIVE_FAILED, e.calls);
    FinishAndCloseGrows(u, DISCONNECTED_BY_PEER, e.calls);
    if u.rx.length - 1 == |u.rx.payload| {
      CompleteFrameGrows(order, u, mem, e);
    }
  }

  lemma ContinueGrows(order: ByteOrder, s: State, mem: Memory, e: RecvEnv)
    requires RxOk(s.rx) && Resolvable(s, mem)
    ensures Grows(s, Continue(order, s, mem, e).state)
  {
    CloseGrows(s, e.calls, 2);
    if |s.rx.header| == HEADER_LENGTH {
      FinishAndCloseGrows(s, RESPONSE_FRAME_SHORTER_THAN_MINIMUM, e.calls);
      FinishAndCloseGrows(s, RESPONSE_FRAME_LONGER_THAN_MAXIMUM, e.calls);
      if s.rx.checked || CheckHeader(s.rx.header) == Good {
        WithHeaderGrows(order, s, mem, e);
      }
    }
  }

  lemma RecvGrows(order: ByteOrder, s: State, mem: Memory, e: RecvEnv)
    requires Wired(s) && MemOk(s, mem)
    ensures Grows(s, RecvHook(order, s, mem, e).state)
  {
    FinishGrows(s, TIMEOUT, e.calls(0));
    CheckTimeoutKeeps(s, e.now, e.calls(0));
    ContinueGrows(order, CheckTimeout(s, e.now, e.calls(0)), mem, e);
  }

  lemma StartGrows(s: State, now: int)
    requires s.queue != []
    ensures Grows(s, Start(s, now))
  {
    var t := Start(s, now);
    LogGrows(s, t, t.log[|s.log|]);
  }

  lemma TickGrows(s: State, e: TickEnv)
    ensures Grows(s, TickHook(s, e))
  {
    FinishGrows(s, TIMEOUT, e.calls(0));
    var t := CheckTimeout(s, e.now, e.calls(0));
    if t.pending.None? && t.queue != [] {
      var u := Start(t, e.startedAt);
      StartGrows(t, e.startedAt);
      if !e.sent {
        FinishGrows(u, SEND_FAILED, e.calls(1));
        CloseGrows(FinishPending(u, SEND_FAILED, e.calls(1)), e.calls, 2);
      }
    }
  }

  /** Every step of the client adds to its log. */
  lemma ApplyGrows(order: ByteOrder, s: State, op: Op)
    requires Inv(s)
    ensures Grows(s, Apply(order, s, op))
  {
    match op
    case Connected =>
    case Transact(a) => TransactGrows(s, a);
    case Tick(e) => TickGrows(s, e);
    case Recv(memory, e) => RecvGrows(order, s, Content(memory, s), e);
    case Closing(calls) => CloseGrows(s, calls, 0);
  }

  /** In every state between two steps whose log is tallied, the completed transactions are the accepted
      ones, in order, without those that are pending or queued; so after the client was closed all
      are completed. */
  lemma SettledExactly(s: State)
    requires Inv(s) && Tallied(s)
    ensures Completions(s.log) <= Acceptances(s.log)
    ensures |Acceptances(s.log)| == |Completions(s.log)| + InFlight(s) + |s.queue|
    ensures !s.connected ==> Completions(s.log) == Acceptances(s.log)
  {
    assert [] + s.queue == s.queue;
  }

  /** Over every run, the transactions that were accepted complete in the order of their acceptance; those
      that have not are pending or queued, and none is left over when the client is not connected. */
  lemma {:induction false} RunSettles(order: ByteOrder, firstId: Word, ops: seq<Op>)
    ensures var s := Exec(order, firstId, ops);
            && Tallied(s) && Completions(s.log) <= Acceptances(s.log)
            && |Acceptances(s.log)| == |Completions(s.log)| + InFlight(s) + |s.queue|
            && (!s.connected ==> Completions(s.log) == Acceptances(s.log))
  {
    var s := Exec(order, firstId, ops);
    if ops == [] {
      assert Range(0) == [];
    } else {
      var before := ops[..|ops| - 1];
      RunSettles(order, firstId, before);
      ApplyGrows(order, Exec(order, firstId, before), ops[|ops| - 1]);
    }
    SettledExactly(s);
  }
}
