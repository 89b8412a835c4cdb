/** Safety of the Modbus TCP client over whole runs: conservation and order of transactions, when a
    caller's buffer is written, immunity to stale responses, and progress of the receive loop. */
module ClientSafety {
  import opened Bytes
  import opened ModbusCommon
  import opened ModbusRules
  import opened ClientRules
  import opened ClientRuns

  /** One step of the client; `memory` is what the step finds in the pending transaction's buffer. */
  datatype Op =
    | Connected
    | Transact(args: Args)
    | Tick(tick: TickEnv)
    | Recv(memory: nat -> Byte, recv: RecvEnv)
    | Closing(calls: Calls)

  function Content(memory: nat -> Byte, s: State): (m: Memory)
    ensures MemOk(s, m)
  {
    if s.pending.None? then [] else seq(s.pending.value.tx.size, i requires 0 <= i => memory(i))
  }

  function Apply(order: ByteOrder, s: State, op: Op): State
    requires Inv(s)
  {
    match op
    case Connected => s.(connected := true)
    case Transact(a) => ClientRules.Transact(s, a)
    case Tick(e) => TickHook(s, e)
    case Recv(memory, e) => if s.connected then RecvHook(order, s, Content(memory, s), e).state else s
    case Closing(calls) => Close(s, calls, 0)
  }

  lemma ApplyKeeps(order: ByteOrder, s: State, op: Op)
    requires Inv(s)
    ensures Inv(Apply(order, s, op))
  {
    match op
    case Connected =>
    case Transact(a) => TransactKeeps(s, [], a);
    case Tick(e) => TickKeeps(s, e);
    case Recv(memory, e) => if s.connected { RecvKeeps(order, s, Content(memory, s), e); }
    case Closing(calls) => CloseKeeps(s, calls, 0);
  }

  function Initial(firstId: Word): State { State(false, firstId, None, [], NO_RX, 0, []) }

  ghost function Exec(order: ByteOrder, firstId: Word, ops: seq<Op>): (s: State)
    ensures Inv(s)
  {
    if ops == [] then Initial(firstId)
    else
      var s := Exec(order, firstId, ops[..|ops| - 1]);
      ApplyKeeps(order, s, ops[|ops| - 1]);
      Apply(order, s, ops[|ops| - 1])
  }

  /** Over any run, with callbacks that call `transact` as they like: the transactions complete
      exactly once each and in the order of their acceptance, they are sent in that order, and
      accepted ones are either completed, pending or queued.  A closed client has none of the
      latter two. */
  lemma TransactionsConserved(order: ByteOrder, firstId: Word, ops: seq<Op>)
    ensures var s := Exec(order, firstId, ops);
            var done := Completions(s.log);
            && done == Range(|done|)
            && s.accepted == |done| + InFlight(s) + |s.queue|
            && Increasing(Starts(s.log))
            && (forall i :: 0 <= i < |s.queue| ==> s.queue[i].id == |done| + InFlight(s) + i)
            && (!s.connected ==> s.pending == None && s.queue == [] && |done| == s.accepted)
            && WritesComplete(s.log)
  {
    var s := Exec(order, firstId, ops);
    assert [] + s.queue == s.queue;
  }

  // ---- When a buffer is written ----

  /** An exception response with code 0: success for the caller, whose buffer holds what it held. */
  lemma ExceptionZeroSucceeds()
    ensures Check(Host, Request(1, READ_HOLDING_REGISTERS, 0, 1), 1, [0x83, 0], [7, 7]) == Judgement(0, [7, 7])
  {
  }

  /** What makes a response a success: it is the exception 0, or long enough and with the right byte count
      or echo. */
  predicate Matches(order: ByteOrder, q: Request, unit: Byte, p: Memory, mem: Memory)
    requires Fits(q, mem) && CountInRange(q.fc, q.count) && |p| >= 2
  {
    && unit == q.unit
    && (|| (p[0] == q.fc + 0x80 && p[1] == 0)
        || (&& p[0] == q.fc && |p| >= ExpectedLength(q)
            && (if Reads(q.fc) then p[1] == ReadBytes(q.fc, q.count)
                else
                  && StartOf(p) == q.start && CountOf(p) == EchoedValue(order, q, mem)
                  && (q.fc == MASK_WRITE_REGISTER ==> Big(p[5], p[6]) == Register(order, mem, 1)))))
  }

  /** Success is reported exactly for a matching response. */
  lemma SuccessExactly(order: ByteOrder, q: Request, unit: Byte, p: Memory, mem: Memory)
    requires Fits(q, mem) && CountInRange(q.fc, q.count) && |p| >= 2
    ensures Check(order, q, unit, p, mem).result == 0 <==> Matches(order, q, unit, p, mem)
    ensures Check(order, q, unit, p, mem).mem != mem ==>
            Check(order, q, unit, p, mem).result == 0 && Reads(q.fc) && p[0] == q.fc
  {
    assert q.fc < 0x80;
  }

  /** The writes in a log. */
  function Wrotes(log: seq<Event>): seq<Event> {
    if log == [] then []
    else
      var e := log[|log| - 1];
      Wrotes(log[..|log| - 1]) + if e.Wrote? then [e] else []
  }

  lemma WrotesOne(log: seq<Event>, e: Event)
    ensures Wrotes(log + [e]) == Wrotes(log) + if e.Wrote? then [e] else []
  {
    assert (log + [e])[..|log|] == log;
  }

  lemma {:induction false} CallsWriteNothing(s: State, calls: seq<Args>)
    ensures Wrotes(TransactAll(s, calls).log) == Wrotes(s.log)
  {
    if calls == [] {
    } else {
      var t := TransactAll(s, calls[..|calls| - 1]);
      CallsWriteNothing(s, calls[..|calls| - 1]);
      WrotesOne(t.log, TransactAll(s, calls).log[|t.log|]);
    }
  }

  lemma FinishWritesNothing(s: State, result: Result, calls: seq<Args>)
    ensures Wrotes(FinishPending(s, result, calls).log) == Wrotes(s.log)
  {
    if s.pending.Some? {
      var e := Completed(s.pending.value.tx.id, result);
      WrotesOne(s.log, e);
      CallsWriteNothing(Log(s.(pending := None), e), calls);
    }
  }

  lemma {:induction false} EachWritesNothing(s: State, txs: seq<Tx>, result: Result, calls: Calls, k: nat)
    ensures Wrotes(FinishEach(s, txs, result, calls, k).log) == Wrotes(s.log)
    decreases |txs|
  {
    if txs == [] {
    } else {
      var t := Log(s, Completed(txs[0].id, result));
      WrotesOne(s.log, Completed(txs[0].id, result));
      CallsWriteNothing(t, calls(k));
      EachWritesNothing(TransactAll(t, calls(k)), txs[1..], result, calls, k + 1);
    }
  }

  lemma CloseWritesNothing(s: State, calls: Calls, k: nat)
    ensures Wrotes(Close(s, calls, k).log) == Wrotes(s.log)
  {
    var u := s.(connected := false, rx := NO_RX);
    FinishWritesNothing(u, ABORTED, calls(k));
    var v := FinishPending(u, ABORTED, calls(k));
    EachWritesNothing(v.(queue := []), v.queue, ABORTED, calls, k + 1);
  }

  lemma FinishAndCloseWritesNothing(s: State, result: Result, calls: Calls)
    requires |s.rx.header| == HEADER_LENGTH
    ensures Wrotes(FinishAndClose(s, result, calls).state.log) == Wrotes(s.log)
  {
    FinishWritesNothing(s, result, calls(1));
    CloseWritesNothing(FinishIf(s, TransactionId(s.rx), result, calls(1)), calls, 2);
  }

  /** Why these bytes may go into the buffer of the pending transaction: the frame carries its
      transaction ID, unit, function code and byte count, and is long enough. */
  ghost predicate Justified(order: ByteOrder, p: Pending, header: Memory, payload: Memory, mem: Memory, bytes: Memory)
    requires TxOk(p.tx) && |mem| == p.tx.size
  {
    var q := p.tx.req;
    var n := ReadBytes(q.fc, q.count);
    && Reads(q.fc) && |header| == HEADER_LENGTH
    && TransactionOf(header) == p.wireId && UnitOf(header) == q.unit
    && |payload| >= 2 + n && payload[0] == q.fc && payload[1] == n
    && |bytes| == |mem| && bytes[n..] == mem[n..]
    && bytes[..n] == (if ReadsCoils(q.fc) then MaskLast(payload[2..2 + n], q.count)
                      else Reorder(order, payload[2..2 + n]))
  }

  /** The writes w after a step from s: none is new, or one, by the transaction that was pending. */
  ghost predicate AtMostOneWrite(order: ByteOrder, s: State, mem: Memory, payload: Memory, w: seq<Event>)
    requires Resolvable(s, mem)
  {
    var v := Wrotes(s.log);
    w == v ||
    (s.pending.Some? && |w| == |v| + 1 && w[..|v|] == v && w[|v|].Wrote? && w[|v|].id == s.pending.value.tx.id
     && Justified(order, s.pending.value, s.rx.header, payload, mem, w[|v|].bytes))
  }

  lemma GoodReadJustified(order: ByteOrder, p: Pending, header: Memory, payload: Memory, mem: Memory)
    requires TxOk(p.tx) && |mem| == p.tx.size && |header| == HEADER_LENGTH && |payload| >= 2
    requires TransactionOf(header) == p.wireId
    requires Writes(p, payload, Check(order, p.tx.req, UnitOf(header), payload, mem)) != []
    ensures Justified(order, p, header, payload, mem, Check(order, p.tx.req, UnitOf(header), payload, mem).mem)
  {
    var q := p.tx.req;
    var n := ReadBytes(q.fc, q.count);
    SuccessExactly(order, q, UnitOf(header), payload, mem);
    assert q.fc < 0x80;
    var copied := if ReadsCoils(q.fc) then MaskLast(payload[2..2 + n], q.count) else Reorder(order, payload[2..2 + n]);
    assert Check(order, q, UnitOf(header), payload, mem) == Judgement(0, copied + mem[n..]);
  }

  lemma ResolveWrites(order: ByteOrder, s: State, mem: Memory, calls: seq<Args>)
    requires |s.rx.header| == HEADER_LENGTH && |s.rx.payload| >= 2
    requires Resolvable(s, mem)
    ensures AtMostOneWrite(order, s, mem, s.rx.payload, Wrotes(Resolve(order, s, mem, calls).log))
  {
    var t := s.(rx := NO_RX);
    if s.pending.Some? && s.pending.value.wireId == TransactionId(s.rx) {
      var p := s.pending.value;
      var j := Check(order, p.tx.req, UnitOf(s.rx.header), s.rx.payload, mem);
      var writes := Writes(p, s.rx.payload, j);
      FinishWritesNothing(t.(log := t.log + writes), j.result, calls);
      if writes == [] {
        assert t.log + writes == t.log;
      } else {
        WrotesOne(t.log, writes[0]);
        GoodReadJustified(order, p, s.rx.header, s.rx.payload, mem);
      }
    }
  }

  lemma AfterTrailingWrites(order: ByteOrder, s: State, mem: Memory, e: RecvEnv)
    requires |s.rx.header| == HEADER_LENGTH && |s.rx.payload| + 1 == s.rx.length && Resolvable(s, mem)
    ensures AtMostOneWrite(order, s, mem, s.rx.payload, Wrotes(AfterTrailing(order, s, mem, e).state.log))
  {
    FinishAndCloseWritesNothing(s, RESPONSE_FRAME_SHORTER_THAN_MINIMUM, e.calls);
    if s.rx.length >= MIN_RESPONSE_FRAME_LENGTH {
      ResolveWrites(order, s, mem, e.calls(1));
    }
  }

  lemma CompleteFrameWrites(order: ByteOrder, s: State, mem: Memory, e: RecvEnv)
    requires |s.rx.header| == HEADER_LENGTH && |s.rx.payload| + 1 == s.rx.length && Resolvable(s, mem)
    ensures var r := CompleteFrame(order, s, mem, e);
            AtMostOneWrite(order, s, mem, s.rx.payload + r.took, Wrotes(r.state.log))
  {
    if e.readable.IoctlFailed? {
      FinishAndCloseWritesNothing(s, RECEIVE_FAILED, e.calls);
    } else if 0 < e.readable.count < HEADER_LENGTH && |s.rx.payload| + e.readable.count <= MAX_PAYLOAD_LENGTH {
      if e.trailing.Data? {
        TrailingWrites(order, s, e.readable.count, mem, e);
      } else {
        FinishAndCloseWritesNothing(s, RECEIVE_FAILED, e.calls);
        FinishAndCloseWritesNothing(s, DISCONNECTED_BY_PEER, e.calls);
      }
    } else {
      AfterTrailingWrites(order, s, mem, e);
      assert s.rx.payload + [] == s.rx.payload;
    }
  }

  lemma TrailingWrites(order: ByteOrder, s: State, n: nat, mem: Memory, e: RecvEnv)
    requires |s.rx.header| == HEADER_LENGTH && |s.rx.payload| + 1 == s.rx.length && Resolvable(s, mem)
    requires e.trailing.Data?
    ensures var t := ReceivePayload(s, n, e.trailing, true, e.calls);
            AtMostOneWrite(order, s, mem, s.rx.payload + t.took,
                           Wrotes(AfterTrailing(order, t.state, mem, e).state.log))
  {
    var t := ReceivePayload(s, n, e.trailing, true, e.calls);
    AfterTrailingWrites(order, t.state, mem, e);
  }

  lemma WithHeaderWrites(order: ByteOrder, s: State, mem: Memory, e: RecvEnv)
    requires RxOk(s.rx) && Resolvable(s, mem) && |s.rx.header| == HEADER_LENGTH && CheckHeader(s.rx.header) == Good
    ensures var r := WithHeader(order, s, mem, e);
            AtMostOneWrite(order, s, mem, s.rx.payload + r.took, Wrotes(r.state.log))
  {
    var u := s.(rx := s.rx.(checked := true, length := LengthOf(s.rx.header)));
    FinishAndCloseWritesNothing(u, RECEIVE_FAILED, e.calls);
    FinishAndCloseWritesNothing(u, DISCONNECTED_BY_PEER, e.calls);
    if u.rx.length - 1 == |u.rx.payload| {
      CompleteFrameWrites(order, u, mem, e);
    }
  }

  lemma ContinueWrites(order: ByteOrder, s: State, mem: Memory, e: RecvEnv)
    requires RxOk(s.rx) && Resolvable(s, mem)
    ensures var r := Continue(order, s, mem, e);
            AtMostOneWrite(order, s, mem, s.rx.payload + r.took, Wrotes(r.state.log))
  {
    CloseWritesNothing(s, e.calls, 2);
    if |s.rx.header| == HEADER_LENGTH {
      FinishAndCloseWritesNothing(s, RESPONSE_FRAME_SHORTER_THAN_MINIMUM, e.calls);
      FinishAndCloseWritesNothing(s, RESPONSE_FRAME_LONGER_THAN_MAXIMUM, e.calls);
      if s.rx.checked || CheckHeader(s.rx.header) == Good {
        WithHeaderWrites(order, s, mem, e);
      }
    }
  }

  /** A step of the receive hook writes at most once, and then into the buffer of the transaction
      that was pending before the step, with the bytes that a matching frame carries; the frame is
      what the client held before the step and what it took in this step. */
  lemma RecvWrites(order: ByteOrder, s: State, mem: Memory, e: RecvEnv)
    requires Inv(s) && MemOk(s, mem)
    ensures var r := RecvHook(order, s, mem, e);
            AtMostOneWrite(order, s, mem, s.rx.payload + r.took, Wrotes(r.state.log))
  {
    FinishWritesNothing(s, TIMEOUT, e.calls(0));
    TimeoutKeeps(s, e.now, e.calls(0));
    ContinueWrites(order, CheckTimeout(s, e.now, e.calls(0)), mem, e);
  }

  lemma TickWritesNothing(s: State, e: TickEnv)
    ensures Wrotes(TickHook(s, e).log) == Wrotes(s.log)
  {
    FinishWritesNothing(s, TIMEOUT, e.calls(0));
    var t := CheckTimeout(s, e.now, e.calls(0));
    if t.pending.None? && t.queue != [] {
      StartWritesNothing(t, e.startedAt);
      if !e.sent {
        var u := Start(t, e.startedAt);
        FinishWritesNothing(u, SEND_FAILED, e.calls(1));
        CloseWritesNothing(FinishPending(u, SEND_FAILED, e.calls(1)), e.calls, 2);
      }
    }
  }

  lemma StartWritesNothing(s: State, now: int)
    requires s.queue != []
    ensures Wrotes(Start(s, now).log) == Wrotes(s.log)
  {
    var t := Start(s, now);
    WrotesOne(s.log, t.log[|s.log|]);
  }

  /** No step but the receive hook writes into a buffer. */
  lemma OthersWriteNothing(order: ByteOrder, s: State, op: Op)
    requires Inv(s) && !op.Recv?
    ensures Wrotes(Apply(order, s, op).log) == Wrotes(s.log)
  {
    match op
    case Connected =>
    case Transact(a) =>
      CallsWriteNothing(s, [a]);
      assert [a][..0] == [];
    case Tick(e) => TickWritesNothing(s, e);
    case Closing(calls) => CloseWritesNothing(s, calls, 0);
  }

  /** The write w was made by a step of the receive hook on a connection in state s, for the pending
      transaction, with what the frame carried that the hook held or took. */
  ghost predicate WrittenFrom(order: ByteOrder, s: State, op: Op, w: Event)
    requires Inv(s)
  {
    && op.Recv? && s.connected && s.pending.Some?
    && w.Wrote? && w.id == s.pending.value.tx.id
    && var mem := Content(op.memory, s);
       Justified(order, s.pending.value, s.rx.header, s.rx.payload + RecvHook(order, s, mem, op.recv).took, mem,
                 w.bytes)
  }

  /** One step adds at most one write, and that for a reason. */
  lemma StepWrites(order: ByteOrder, s: State, op: Op)
    requires Inv(s)
    ensures var v, w := Wrotes(s.log), Wrotes(Apply(order, s, op).log);
            w == v || (|w| == |v| + 1 && w[..|v|] == v && WrittenFrom(order, s, op, w[|v|]))
  {
    if !op.Recv? {
      OthersWriteNothing(order, s, op);
    } else if s.connected {
      RecvWrites(order, s, Content(op.memory, s), op.recv);
    }
  }

  /** Some step of a run made the write w. */
  ghost predicate Made(order: ByteOrder, firstId: Word, ops: seq<Op>, w: Event)
    decreases |ops|
  {
    ops != [] &&
    var n := |ops| - 1;
    (WrittenFrom(order, Exec(order, firstId, ops[..n]), ops[n], w) || Made(order, firstId, ops[..n], w))
  }

  lemma MadeLater(order: ByteOrder, firstId: Word, ops: seq<Op>, s: State, w: Event)
    requires ops != [] && s == Exec(order, firstId, ops[..|ops| - 1])
    requires WrittenFrom(order, s, ops[|ops| - 1], w) || Made(order, firstId, ops[..|ops| - 1], w)
    ensures Made(order, firstId, ops, w)
  {
  }

  lemma StepMade(order: ByteOrder, firstId: Word, ops: seq<Op>, s: State, v: seq<Event>, w: seq<Event>, k: nat)
    requires ops != [] && s == Exec(order, firstId, ops[..|ops| - 1])
    requires v == Wrotes(s.log) && w == Wrotes(Apply(order, s, ops[|ops| - 1]).log) && k < |w|
    requires k < |v| ==> Made(order, firstId, ops[..|ops| - 1], v[k])
    ensures Made(order, firstId, ops, w[k])
  {
    StepWrites(order, s, ops[|ops| - 1]);
    if k < |v| {
      assert w[..|v|] == v;
      assert w[k] == v[k];
    } else {
      assert k == |v|;
    }
    MadeLater(order, firstId, ops, s, w[k]);
  }

  /** Over any run, every write into a caller's buffer was made by a step of the receive hook, for the
      transaction that was pending then, with the bytes of a matching frame. */
  lemma {:induction false} EveryWriteJustified(order: ByteOrder, firstId: Word, ops: seq<Op>, w: seq<Event>, k: nat)
    requires w == Wrotes(Exec(order, firstId, ops).log) && k < |w|
    ensures Made(order, firstId, ops, w[k])
    decreases |ops|
  {
    if ops == [] {
      assert false;
    } else {
      var s := Exec(order, firstId, ops[..|ops| - 1]);
      var v := Wrotes(s.log);
      if k < |v| { EveryWriteJustified(order, firstId, ops[..|ops| - 1], v, k); }
      StepMade(order, firstId, ops, s, v, w, k);
    }
  }

  // ---- Failed transactions ----

  /** A completion in the log is one of its completions, behind those in front of it. */
  lemma {:induction false} CompletionAt(log: seq<Event>, i: nat)
    requires i < |log| && log[i].Completed?
    ensures var n := |Completions(log[..i])|; n < |Completions(log)| && Completions(log)[n] == log[i].id
    decreases |log|
  {
    var n := |log| - 1;
    if i == n {
      assert Completions(log) == Completions(log[..n]) + [log[i].id];
    } else {
      CompletionAt(log[..n], i);
      assert log[..n][..i] == log[..i];
    }
  }

  lemma {:induction false} CompletionsGrow(log: seq<Event>, i: nat, j: nat)
    requires i < j <= |log| && log[i].Completed?
    ensures |Completions(log[..i])| < |Completions(log[..j])|
  {
    CompletionAt(log[..j], i);
    assert log[..j][..i] == log[..i];
  }

  /** No transaction completes twice. */
  lemma CompletedOnce(log: seq<Event>, i: nat, j: nat)
    requires i < |log| && j < |log| && log[i].Completed? && log[j].Completed? && log[i].id == log[j].id
    requires Completions(log) == Range(|Completions(log)|)
    ensures i == j
  {
    CompletionAt(log, i);
    CompletionAt(log, j);
    if i < j { CompletionsGrow(log, i, j); }
    if j < i { CompletionsGrow(log, j, i); }
  }

  /** Over any run, the buffer of a transaction that timed out, was aborted or failed otherwise is
      never written, neither before nor after its completion. */
  lemma FailedNeverWritten(order: ByteOrder, firstId: Word, ops: seq<Op>, i: nat, j: nat)
    requires var log := Exec(order, firstId, ops).log;
             i < |log| && j < |log| && log[i].Completed? && log[i].result != 0 && log[j].Wrote?
    ensures var log := Exec(order, firstId, ops).log; log[j].id != log[i].id
  {
    var log := Exec(order, firstId, ops).log;
    TransactionsConserved(order, firstId, ops);
    assert log[j + 1] == Completed(log[j].id, 0);
    if log[j].id == log[i].id { CompletedOnce(log, i, j + 1); }
  }

  /** Over any run, the buffer of a transaction is written at most once, right before the transaction
      completes with success. */
  lemma WrittenOnce(order: ByteOrder, firstId: Word, ops: seq<Op>, i: nat, j: nat)
    requires var log := Exec(order, firstId, ops).log;
             i < |log| && j < |log| && log[i].Wrote? && log[j].Wrote? && log[i].id == log[j].id
    ensures var log := Exec(order, firstId, ops).log;
            i == j && i + 1 < |log| && log[i + 1] == Completed(log[i].id, 0)
  {
    TransactionsConserved(order, firstId, ops);
    CompletedOnce(Exec(order, firstId, ops).log, i + 1, j + 1);
  }

  // ---- Stale responses ----

  /** The transactions that were sent, with their IDs on the wire. */
  function Sent(log: seq<Event>): seq<Event> {
    if log == [] then []
    else
      var e := log[|log| - 1];
      Sent(log[..|log| - 1]) + if e.Started? then [e] else []
  }

  /** The k-th transaction that is sent gets the k-th ID, masked. */
  ghost predicate Numbered(firstId: Word, sent: seq<Event>) {
    forall k :: 0 <= k < |sent| ==> NumberedAt(firstId, k, sent[k])
  }

  predicate NumberedAt(firstId: Word, k: nat, e: Event) {
    e.Started? && e.wireId == And((firstId + k) % 0x1_0000, e.mask)
  }

  /** The pending transaction is the one that was sent last. */
  ghost predicate Counted(firstId: Word, s: State) {
    var sent := Sent(s.log);
    && Numbered(firstId, sent) && s.nextId == (firstId + |sent|) % 0x1_0000
    && (s.pending.Some? ==> sent != [] && sent[|sent| - 1].wireId == s.pending.value.wireId)
  }

  lemma SentOne(log: seq<Event>, e: Event)
    ensures Sent(log + [e]) == Sent(log) + if e.Started? then [e] else []
  {
    assert (log + [e])[..|log|] == log;
  }

  /** Nothing but the start of a transaction sends, and nothing sets the pending one but a start. */
  ghost predicate Unsent(s: State, t: State) {
    Sent(t.log) == Sent(s.log) && t.nextId == s.nextId && (t.pending == None || t.pending == s.pending)
  }

  lemma {:induction false} CallsUnsent(s: State, calls: seq<Args>)
    ensures Unsent(s, TransactAll(s, calls)) && TransactAll(s, calls).pending == s.pending
  {
    if calls == [] {
    } else {
      var t := TransactAll(s, calls[..|calls| - 1]);
      CallsUnsent(s, calls[..|calls| - 1]);
      SentOne(t.log, TransactAll(s, calls).log[|t.log|]);
    }
  }

  lemma FinishUnsent(s: State, result: Result, calls: seq<Args>)
    ensures Unsent(s, FinishPending(s, result, calls))
  {
    if s.pending.Some? {
      var e := Completed(s.pending.value.tx.id, result);
      SentOne(s.log, e);
      CallsUnsent(Log(s.(pending := None), e), calls);
    }
  }

  lemma {:induction false} EachUnsent(s: State, txs: seq<Tx>, result: Result, calls: Calls, k: nat)
    ensures Unsent(s, FinishEach(s, txs, result, calls, k))
    decreases |txs|
  {
    if txs == [] {
    } else {
      var t := Log(s, Completed(txs[0].id, result));
      SentOne(s.log, Completed(txs[0].id, result));
      CallsUnsent(t, calls(k));
      EachUnsent(TransactAll(t, calls(k)), txs[1..], result, calls, k + 1);
    }
  }

  lemma CloseUnsent(s: State, calls: Calls, k: nat)
    ensures Unsent(s, Close(s, calls, k))
  {
    var u := s.(connected := false, rx := NO_RX);
    FinishUnsent(u, ABORTED, calls(k));
    var v := FinishPending(u, ABORTED, calls(k));
    EachUnsent(v.(queue := []), v.queue, ABORTED, calls, k + 1);
  }

  lemma FinishAndCloseUnsent(s: State, result: Result, calls: Calls)
    requires |s.rx.header| == HEADER_LENGTH
    ensures Unsent(s, FinishAndClose(s, result, calls).state)
  {
    FinishUnsent(s, result, calls(1));
    CloseUnsent(FinishIf(s, TransactionId(s.rx), result, calls(1)), calls, 2);
  }

  lemma ResolveUnsent(order: ByteOrder, s: State, mem: Memory, calls: seq<Args>)
    requires |s.rx.header| == HEADER_LENGTH && |s.rx.payload| >= 2
    requires Resolvable(s, mem)
    ensures Unsent(s, Resolve(order, s, mem, calls))
  {
    var t := s.(rx := NO_RX);
    if s.pending.Some? && s.pending.value.wireId == TransactionId(s.rx) {
      var p := s.pending.value;
      var j := Check(order, p.tx.req, UnitOf(s.rx.header), s.rx.payload, mem);
      var writes := Writes(p, s.rx.payload, j);
      if writes == [] {
        assert t.log + writes == t.log;
      } else {
        SentOne(t.log, writes[0]);
      }
      FinishUnsent(t.(log := t.log + writes), j.result, calls);
    }
  }

  lemma AfterTrailingUnsent(order: ByteOrder, s: State, mem: Memory, e: RecvEnv)
    requires |s.rx.header| == HEADER_LENGTH && |s.rx.payload| + 1 == s.rx.length && Resolvable(s, mem)
    ensures Unsent(s, AfterTrailing(order, s, mem, e).state)
  {
    FinishAndCloseUnsent(s, RESPONSE_FRAME_SHORTER_THAN_MINIMUM, e.calls);
    if s.rx.length >= MIN_RESPONSE_FRAME_LENGTH {
      ResolveUnsent(order, s, mem, e.calls(1));
    }
  }

  lemma CompleteFrameUnsent(order: ByteOrder, s: State, mem: Memory, e: RecvEnv)
    requires |s.rx.header| == HEADER_LENGTH && |s.rx.payload| + 1 == s.rx.length && Resolvable(s, mem)
    ensures Unsent(s, CompleteFrame(order, s, mem, e).state)
  {
    if e.readable.IoctlFailed? {
      FinishAndCloseUnsent(s, RECEIVE_FAILED, e.calls);
    } else if 0 < e.readable.count < HEADER_LENGTH && |s.rx.payload| + e.readable.count <= MAX_PAYLOAD_LENGTH {
      if e.trailing.Data? {
        AfterTrailingUnsent(order, ReceivePayload(s, e.readable.count, e.trailing, true, e.calls).state, mem, e);
      } else {
        FinishAndCloseUnsent(s, RECEIVE_FAILED, e.calls);
        FinishAndCloseUnsent(s, DISCONNECTED_BY_PEER, e.calls);
      }
    } else {
      AfterTrailingUnsent(order, s, mem, e);
    }
  }

  lemma WithHeaderUnsent(order: ByteOrder, s: State, mem: Memory, e: RecvEnv)
    requires RxOk(s.rx) && Resolvable(s, mem) && |s.rx.header| == HEADER_LENGTH && CheckHeader(s.rx.header) == Good
    ensures Unsent(s, WithHeader(order, s, mem, e).state)
  {
    var u := s.(rx := s.rx.(checked := true, length := LengthOf(s.rx.header)));
    FinishAndCloseUnsent(u, RECEIVE_FAILED, e.calls);
    FinishAndCloseUnsent(u, DISCONNECTED_BY_PEER, e.calls);
    if u.rx.length - 1 == |u.rx.payload| {
      CompleteFrameUnsent(order, u, mem, e);
    }
  }

  lemma RecvUnsent(order: ByteOrder, s: State, mem: Memory, e: RecvEnv)
    requires Inv(s) && MemOk(s, mem)
    ensures Unsent(s, RecvHook(order, s, mem, e).state)
  {
    FinishUnsent(s, TIMEOUT, e.calls(0));
    TimeoutKeeps(s, e.now, e.calls(0));
    ContinueUnsent(order, CheckTimeout(s, e.now, e.calls(0)), mem, e);
  }

  lemma ContinueUnsent(order: ByteOrder, s: State, mem: Memory, e: RecvEnv)
    requires RxOk(s.rx) && Resolvable(s, mem)
    ensures Unsent(s, Continue(order, s, mem, e).state)
  {
    CloseUnsent(s, e.calls, 2);
    if |s.rx.header| == HEADER_LENGTH {
      FinishAndCloseUnsent(s, RESPONSE_FRAME_SHORTER_THAN_MINIMUM, e.calls);
      FinishAndCloseUnsent(s, RESPONSE_FRAME_LONGER_THAN_MAXIMUM, e.calls);
      if s.rx.checked || CheckHeader(s.rx.header) == Good {
        WithHeaderUnsent(order, s, mem, e);
      }
    }
  }

  lemma UnsentCounted(firstId: Word, s: State, t: State)
    requires Counted(firstId, s) && Unsent(s, t)
    ensures Counted(firstId, t)
  {
  }

  lemma StartCounted(firstId: Word, s: State, now: int)
    requires Counted(firstId, s) && s.queue != []
    ensures Counted(firstId, Start(s, now))
  {
    var sent, t := Sent(s.log), Start(s, now);
    SentOne(s.log, t.log[|s.log|]);
    NextId(firstId, |sent|);
    assert Sent(t.log)[..|sent|] == sent;
  }

  lemma NextId(firstId: Word, n: nat)
    ensures ((firstId + n) % 0x1_0000 + 1) % 0x1_0000 == (firstId + (n + 1)) % 0x1_0000
  {
  }

  lemma TickCounted(firstId: Word, s: State, e: TickEnv)
    requires Counted(firstId, s)
    ensures Counted(firstId, TickHook(s, e))
  {
    FinishUnsent(s, TIMEOUT, e.calls(0));
    var t := CheckTimeout(s, e.now, e.calls(0));
    UnsentCounted(firstId, s, t);
    if t.pending.None? && t.queue != [] {
      var u := Start(t, e.startedAt);
      StartCounted(firstId, t, e.startedAt);
      if !e.sent {
        var v := FinishPending(u, SEND_FAILED, e.calls(1));
        FinishUnsent(u, SEND_FAILED, e.calls(1));
        CloseUnsent(v, e.calls, 2);
        UnsentCounted(firstId, u, Close(v, e.calls, 2));
      }
    }
  }

  lemma ApplyCounted(order: ByteOrder, firstId: Word, s: State, op: Op)
    requires Inv(s) && Counted(firstId, s)
    ensures Counted(firstId, Apply(order, s, op))
  {
    match op
    case Connected =>
    case Transact(a) =>
      CallsUnsent(s, [a]);
      assert [a][..0] == [];
      UnsentCounted(firstId, s, TransactAll(s, [a]));
    case Tick(e) => TickCounted(firstId, s, e);
    case Recv(memory, e) =>
      RecvUnsent(order, s, Content(memory, s), e);
      UnsentCounted(firstId, s, RecvHook(order, s, Content(memory, s), e).state);
    case Closing(calls) =>
      CloseUnsent(s, calls, 0);
      UnsentCounted(firstId, s, Close(s, calls, 0));
  }

  lemma {:induction false} RunCounted(order: ByteOrder, firstId: Word, ops: seq<Op>)
    ensures Counted(firstId, Exec(order, firstId, ops))
  {
    if ops == [] {
    } else {
      RunCounted(order, firstId, ops[..|ops| - 1]);
      ApplyCounted(order, firstId, Exec(order, firstId, ops[..|ops| - 1]), ops[|ops| - 1]);
    }
  }

  /** The mask 2^m - 1 keeps any 2^m consecutive IDs apart, also where the counter wraps around. */
  lemma MaskedIdsDiffer(firstId: Word, i: nat, j: nat, m: nat)
    requires m <= 16 && i < j < i + Pow2(m)
    ensures And((firstId + i) % 0x1_0000, Pow2(m) - 1) != And((firstId + j) % 0x1_0000, Pow2(m) - 1)
  {
    AndMask((firstId + i) % 0x1_0000, m);
    AndMask((firstId + j) % 0x1_0000, m);
    var q := Pow2(16 - m);
    PowerSplit(m, 16 - m);
    assert Pow2(m) * q == 0x1_0000 by { PowerSixteen(); }
    ModMod(firstId + i, Pow2(m), q);
    ModMod(firstId + j, Pow2(m), q);
    ModApart(firstId + i, firstId + j, Pow2(m));
  }

  lemma PowerSixteen()
    ensures Pow2(16) == 0x1_0000
  {
    SmallPowers();
    assert Pow2(12) == 4096;
  }

  lemma {:induction false} PowerSplit(a: nat, b: nat)
    ensures Pow2(a + b) == Pow2(a) * Pow2(b)
  {
    if a == 0 {
    } else {
      PowerSplit(a - 1, b);
      assert Pow2(a + b) == 2 * Pow2(a - 1 + b);
      assert 2 * (Pow2(a - 1) * Pow2(b)) == (2 * Pow2(a - 1)) * Pow2(b);
    }
  }

  lemma ModMod(x: nat, p: nat, q: nat)
    requires p > 0 && q > 0
    ensures x % (p * q) % p == x % p
  {
    var r := x % (p * q);
    var d := x / (p * q);
    assert x == (p * q) * d + r;
    assert (p * q) * d == p * (q * d);
    ModUnique(x, p, q * d + r / p, r % p);
  }

  lemma ModApart(x: nat, y: nat, p: nat)
    requires x < y < x + p
    ensures x % p != y % p
  {
    if x % p == y % p {
      var a, b := x / p, y / p;
      assert x == p * a + x % p && y == p * b + y % p;
      assert y - x == p * (b - a);
      if b > a { Grows(p, b - a); } else { Grows(p, a - b + 1); }
    }
  }

  /** A correctly framed, complete response lies in the receive buffer, and only another complete
      header or nothing at all (or trailing bytes that arrive) follows it. */
  ghost predicate CompleteResponse(s: State, e: RecvEnv) {
    && |s.rx.header| == HEADER_LENGTH && CheckHeader(s.rx.header) == Good
    && LengthOf(s.rx.header) >= MIN_RESPONSE_FRAME_LENGTH && |s.rx.payload| + 1 == LengthOf(s.rx.header)
    && e.readable.Readable? && (0 < e.readable.count < HEADER_LENGTH ==> e.trailing.Data?)
  }

  /** A correctly framed response with another transaction ID is thrown away: no transaction
      completes, nothing is written, and the client goes on receiving. */
  lemma ForeignResponseIgnored(order: ByteOrder, s: State, mem: Memory, e: RecvEnv)
    requires Inv(s) && s.connected && MemOk(s, mem) && CompleteResponse(s, e)
    requires s.pending.Some? && e.now < s.pending.value.deadline && s.pending.value.wireId != TransactionId(s.rx)
    ensures var r := RecvHook(order, s, mem, e); r.more && r.state == s.(rx := NO_RX)
  {
  }

  /** Stale-response immunity over any run: when the masks are 2^m - 1, a late response to a
      transaction that was sent up to 2^m - 1 transactions before the pending one completes
      nothing. */
  lemma StaleResponseIgnored(order: ByteOrder, firstId: Word, ops: seq<Op>, s: State, sent: seq<Event>, i: nat, m: nat,
                             mem: Memory, e: RecvEnv)
    requires s == Exec(order, firstId, ops) && sent == Sent(s.log) && m <= 16
    requires s.connected && MemOk(s, mem) && s.pending.Some? && e.now < s.pending.value.deadline
    requires i < |sent| - 1 < i + Pow2(m) && sent[i].Started? && sent[|sent| - 1].Started?
    requires sent[i].mask == Pow2(m) - 1 && sent[|sent| - 1].mask == Pow2(m) - 1
    requires CompleteResponse(s, e) && TransactionId(s.rx) == sent[i].wireId
    ensures var r := RecvHook(order, s, mem, e); r.more && r.state == s.(rx := NO_RX)
  {
    RunCounted(order, firstId, ops);
    LastIsPending(firstId, s, sent);
    PendingIdDiffers(firstId, sent, s.pending.value.wireId, i, m);
    ForeignResponseIgnored(order, s, mem, e);
  }

  lemma LastIsPending(firstId: Word, s: State, sent: seq<Event>)
    requires Counted(firstId, s) && sent == Sent(s.log) && s.pending.Some?
    ensures Numbered(firstId, sent) && sent != []
    ensures sent[|sent| - 1].Started? && sent[|sent| - 1].wireId == s.pending.value.wireId
  {
    assert NumberedAt(firstId, |sent| - 1, sent[|sent| - 1]);
  }

  lemma PendingIdDiffers(firstId: Word, sent: seq<Event>, wireId: Word, i: nat, m: nat)
    requires m <= 16 && Numbered(firstId, sent) && i < |sent| - 1 < i + Pow2(m)
    requires sent[i].Started? && sent[|sent| - 1].Started? && sent[|sent| - 1].wireId == wireId
    requires sent[i].mask == Pow2(m) - 1 && sent[|sent| - 1].mask == Pow2(m) - 1
    ensures sent[i].wireId != wireId
  {
    OlderIdDiffers(firstId, sent, i, |sent| - 1, m);
  }

  lemma OlderIdDiffers(firstId: Word, sent: seq<Event>, i: nat, j: nat, m: nat)
    requires m <= 16 && Numbered(firstId, sent) && i < j < |sent| && j < i + Pow2(m)
    requires sent[i].Started? && sent[j].Started? && sent[i].mask == Pow2(m) - 1 && sent[j].mask == Pow2(m) - 1
    ensures sent[i].wireId != sent[j].wireId
  {
    assert NumberedAt(firstId, i, sent[i]) && NumberedAt(firstId, j, sent[j]);
    MaskedIdsDiffer(firstId, i, j, m);
  }

  // ---- Progress ----

  function Measure(s: State, unread: nat): nat { 2 * unread + if |s.rx.header| == HEADER_LENGTH then 1 else 0 }

  lemma ResolveResets(order: ByteOrder, s: State, mem: Memory, calls: seq<Args>)
    requires |s.rx.header| == HEADER_LENGTH && |s.rx.payload| >= 2 && Resolvable(s, mem)
    ensures Resolve(order, s, mem, calls).rx == NO_RX
  {
    if s.pending.Some? && s.pending.value.wireId == TransactionId(s.rx) {
      var p := s.pending.value;
      var j := Check(order, p.tx.req, UnitOf(s.rx.header), s.rx.payload, mem);
      var t := s.(rx := NO_RX, log := s.log + Writes(p, s.rx.payload, j));
      ClientRules.TransactAllKeeps(Log(t.(pending := None), Completed(p.tx.id, j.result)), calls);
    }
  }

  lemma CompleteFrameResets(order: ByteOrder, s: State, mem: Memory, e: RecvEnv)
    requires |s.rx.header| == HEADER_LENGTH && |s.rx.payload| + 1 == s.rx.length && Resolvable(s, mem)
    ensures var r := CompleteFrame(order, s, mem, e); r.more ==> r.state.rx == NO_RX
  {
    if s.rx.length >= MIN_RESPONSE_FRAME_LENGTH {
      ResolveResets(order, s, mem, e.calls(1));
    }
    if e.readable.Readable? && 0 < e.readable.count < HEADER_LENGTH && e.trailing.Data? {
      var t := ReceivePayload(s, e.readable.count, e.trailing, true, e.calls).state;
      if t.rx.length >= MIN_RESPONSE_FRAME_LENGTH {
        ResolveResets(order, t, mem, e.calls(1));
      }
    }
  }

  lemma ContinueProgresses(order: ByteOrder, s: State, mem: Memory, e: RecvEnv, unread: nat)
    requires RxOk(s.rx) && Resolvable(s, mem)
    requires var r := Continue(order, s, mem, e); r.more && |r.took| <= unread
    ensures var r := Continue(order, s, mem, e);
            Measure(r.state, unread - |r.took|) < Measure(s, unread)
  {
    if |s.rx.header| == HEADER_LENGTH {
      var u := s.(rx := s.rx.(checked := true, length := LengthOf(s.rx.header)));
      if CheckHeader(s.rx.header) == Good && u.rx.length - 1 == |u.rx.payload| {
        CompleteFrameResets(order, u, mem, e);
      }
    }
  }

  /** Whenever the hook asks to be called again it took bytes or threw away a complete frame, so the
      receive loop over finitely many readable bytes ends. */
  lemma ReceiveLoopProgresses(order: ByteOrder, s: State, mem: Memory, e: RecvEnv, unread: nat)
    requires Inv(s) && MemOk(s, mem)
    requires var r := RecvHook(order, s, mem, e); r.more && |r.took| <= unread
    ensures var r := RecvHook(order, s, mem, e);
            Measure(r.state, unread - |r.took|) < Measure(s, unread)
  {
    TimeoutKeeps(s, e.now, e.calls(0));
    ContinueProgresses(order, CheckTimeout(s, e.now, e.calls(0)), mem, e, unread);
  }
}
