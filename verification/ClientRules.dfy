/** The Modbus TCP client on values: its transaction queue, the pending transaction, the partly
    received response, and what every step does to them.  Callbacks are entries of the log; what a
    callback does with the client is the list of `transact` calls it makes. */
module ClientRules {
  import opened Bytes
  import opened ModbusCommon
  import opened ModbusRules
  import SF = ServerFraming

  const MAX_SCHEDULED: nat := 16

  /** The arguments of `transact`; `mem` is the content of the caller's buffer. */
  datatype RawArgs = Args(req: Request, mem: Memory, timeout: int, mask: Word)

  type Args = a: RawArgs | Fits(a.req, a.mem)
    witness Args(Request(0, READ_HOLDING_REGISTERS, 0, 1), [0, 0], 0, 0)

  /** An accepted transaction; `id` counts the accepted ones, `size` is the length of the buffer. */
  datatype Tx = Tx(id: nat, req: Request, size: nat, timeout: int, mask: Word)

  datatype Pending = Pending(tx: Tx, wireId: Word, deadline: int)

  /** The partly received response; `length` is the frame length of a checked header. */
  datatype Rx = Rx(header: Memory, checked: bool, length: nat, payload: Memory)

  const NO_RX := Rx([], false, 0, [])

  datatype Event =
    | Rejected(result: Result)
    | Accepted(id: nat)
    | Started(id: nat, wireId: Word, mask: Word)
    | Wrote(id: nat, bytes: Memory)
    | Completed(id: nat, result: Result)

  datatype State = State(connected: bool, nextId: Word, pending: Option<Pending>, queue: seq<Tx>, rx: Rx,
                         accepted: nat, log: seq<Event>)

  /** What the callbacks of one step do, callback by callback. */
  type Calls = nat -> seq<Args>

  // ---- transact ----

  function Log(s: State, e: Event): State { s.(log := s.log + [e]) }

  function Transact(s: State, a: Args): State {
    if !Accepts(a.req, a.mem) then Log(s, Rejected(INVALID_ARGUMENT))
    else if a.timeout < 0 then Log(s, Rejected(INVALID_ARGUMENT))
    else if !s.connected then Log(s, Rejected(NOT_CONNECTED))
    else if |s.queue| >= MAX_SCHEDULED then Log(s, Rejected(NO_TRANSACTION_AVAILABLE))
    else
      Log(s.(queue := s.queue + [Tx(s.accepted, a.req, |a.mem|, a.timeout, a.mask)], accepted := s.accepted + 1),
          Accepted(s.accepted))
  }

  function TransactAll(s: State, calls: seq<Args>): State {
    if calls == [] then s else Transact(TransactAll(s, calls[..|calls| - 1]), calls[|calls| - 1])
  }

  // ---- Finishing ----

  /** finish_pending_transaction: the transaction is gone before its callback runs. */
  function FinishPending(s: State, result: Result, calls: seq<Args>): State {
    match s.pending
    case None => s
    case Some(p) => TransactAll(Log(s.(pending := None), Completed(p.tx.id, result)), calls)
  }

  /** The variant that looks at the transaction ID of the response. */
  function FinishIf(s: State, wireId: Word, result: Result, calls: seq<Args>): State {
    if s.pending.Some? && s.pending.value.wireId == wireId then FinishPending(s, result, calls) else s
  }

  /** Completes detached transactions one after the other. */
  function FinishEach(s: State, txs: seq<Tx>, result: Result, calls: Calls, k: nat): State
    decreases |txs|
  {
    if txs == [] then s
    else FinishEach(TransactAll(Log(s, Completed(txs[0].id, result)), calls(k)), txs[1..], result, calls, k + 1)
  }

  function FinishAll(s: State, result: Result, calls: Calls, k: nat): State {
    var t := FinishPending(s, result, calls(k));
    FinishEach(t.(queue := []), t.queue, result, calls, k + 1)
  }

  /** close: the socket is gone before the hook aborts all transactions. */
  function Close(s: State, calls: Calls, k: nat): State {
    FinishAll(s.(connected := false, rx := NO_RX), ABORTED, calls, k)
  }

  function CheckTimeout(s: State, now: int, calls: seq<Args>): State {
    if s.pending.Some? && now >= s.pending.value.deadline then FinishPending(s, TIMEOUT, calls) else s
  }

  // ---- tick_hook ----

  datatype TickEnv = TickEnv(now: int, startedAt: int, sent: bool, calls: Calls)

  function Start(s: State, now: int): State
    requires s.queue != []
  {
    var tx := s.queue[0];
    var wireId := And(s.nextId, tx.mask);
    Log(s.(pending := Some(Pending(tx, wireId, now + tx.timeout)), queue := s.queue[1..],
           nextId := (s.nextId + 1) % 0x1_0000),
        Started(tx.id, wireId, tx.mask))
  }

  /** The hook behind its timeout check: it starts the next transaction if none is pending. */
  function StartIfIdle(s: State, e: TickEnv): State {
    if s.pending.Some? || s.queue == [] then s
    else
      var u := Start(s, e.startedAt);
      if e.sent then u else Close(FinishPending(u, SEND_FAILED, e.calls(1)), e.calls, 2)
  }

  function TickHook(s: State, e: TickEnv): State { StartIfIdle(CheckTimeout(s, e.now, e.calls(0)), e) }

  // ---- recv_hook ----

  datatype Readable = IoctlFailed | Readable(count: int)

  datatype RecvEnv = RecvEnv(now: int, recv: SF.Recv, readable: Readable, trailing: SF.Recv, calls: Calls)

  /** The state after a call of the hook, whether to call it again, and the bytes it took. */
  datatype Hooked = Hooked(state: State, more: bool, took: Memory)

  function TransactionId(rx: Rx): Word
    requires |rx.header| == HEADER_LENGTH
  {
    TransactionOf(rx.header)
  }

  function FinishAndClose(s: State, result: Result, calls: Calls): Hooked
    requires |s.rx.header| == HEADER_LENGTH
  {
    Hooked(Close(FinishIf(s, TransactionId(s.rx), result, calls(1)), calls, 2), false, [])
  }

  function Drop(s: State, calls: Calls): Hooked { Hooked(Close(s, calls, 2), false, []) }

  /** receive_response_payload, with the frame length grown by what is appended to a complete frame. */
  function ReceivePayload(s: State, n: nat, r: SF.Recv, grow: bool, calls: Calls): Hooked
    requires |s.rx.header| == HEADER_LENGTH
  {
    match r
    case Again => Hooked(s, false, [])
    case Failed(_) => FinishAndClose(s, RECEIVE_FAILED, calls)
    case Closed => FinishAndClose(s, DISCONNECTED_BY_PEER, calls)
    case Data(_, _) =>
      var got := SF.Granted(r, n);
      Hooked(s.(rx := s.rx.(payload := s.rx.payload + got, length := s.rx.length + if grow then |got| else 0)), true,
             got)
  }

  function ReceiveHeader(s: State, r: SF.Recv, calls: Calls): Hooked
    requires |s.rx.header| < HEADER_LENGTH
  {
    match r
    case Again => Hooked(s, false, [])
    case Failed(_) => Drop(s, calls)
    case Closed => Drop(s, calls)
    case Data(_, _) =>
      var got := SF.Granted(r, HEADER_LENGTH - |s.rx.header|);
      Hooked(s.(rx := s.rx.(header := s.rx.header + got)), true, got)
  }

  /** What a judgement leaves in the log before the completion: the bytes copied by a good read. */
  function Writes(p: Pending, payload: Memory, j: Judgement): seq<Event> {
    if Reads(p.tx.req.fc) && payload != [] && payload[0] < 0x80 && j.result == 0 then [Wrote(p.tx.id, j.mem)] else []
  }

  /** A complete frame for the pending transaction, or for nobody. */
  function Resolve(order: ByteOrder, s: State, mem: Memory, calls: seq<Args>): State
    requires |s.rx.header| == HEADER_LENGTH && |s.rx.payload| >= 2
    requires Resolvable(s, mem)
  {
    var t := s.(rx := NO_RX);
    if s.pending.None? || s.pending.value.wireId != TransactionId(s.rx) then t
    else
      var p := s.pending.value;
      var j := Check(order, p.tx.req, UnitOf(s.rx.header), s.rx.payload, mem);
      FinishPending(t.(log := t.log + Writes(p, s.rx.payload, j)), j.result, calls)
  }

  /** The pending transaction can be resolved with this memory. */
  predicate Resolvable(s: State, mem: Memory) {
    s.pending.Some? ==> TxOk(s.pending.value.tx) && |mem| == s.pending.value.tx.size
  }

  /** A frame that is complete, with or without trailing bytes. */
  function AfterTrailing(order: ByteOrder, s: State, mem: Memory, e: RecvEnv): Hooked
    requires |s.rx.header| == HEADER_LENGTH && |s.rx.payload| + 1 == s.rx.length && Resolvable(s, mem)
  {
    if s.rx.length < MIN_RESPONSE_FRAME_LENGTH then
      FinishAndClose(s, RESPONSE_FRAME_SHORTER_THAN_MINIMUM, e.calls)
    else Hooked(Resolve(order, s, mem, e.calls(1)), true, [])
  }

  /** The part of the hook for a frame of the announced length: up to six more readable bytes cannot
      be another response and are taken for a trailing part of this one. */
  function CompleteFrame(order: ByteOrder, s: State, mem: Memory, e: RecvEnv): Hooked
    requires |s.rx.header| == HEADER_LENGTH && |s.rx.payload| + 1 == s.rx.length && Resolvable(s, mem)
  {
    if e.readable.IoctlFailed? then FinishAndClose(s, RECEIVE_FAILED, e.calls)
    else
      var n := e.readable.count;
      if 0 < n < HEADER_LENGTH && |s.rx.payload| + n <= MAX_PAYLOAD_LENGTH then
        var t := ReceivePayload(s, n, e.trailing, true, e.calls);
        if t.more then AfterTrailing(order, t.state, mem, e).(took := t.took) else t
      else AfterTrailing(order, s, mem, e)
  }

  /** The header checks. */
  datatype HeaderCheck = WrongProtocol | TooShort | TooLong | Good

  function CheckHeader(h: Memory): HeaderCheck
    requires |h| == HEADER_LENGTH
  {
    if ProtocolOf(h) != 0 then WrongProtocol
    else if LengthOf(h) < 1 then TooShort
    else if LengthOf(h) > MAX_RESPONSE_FRAME_LENGTH then TooLong
    else Good
  }

  predicate RxOk(rx: Rx) {
    && |rx.header| <= HEADER_LENGTH
    && (if rx.checked then
          |rx.header| == HEADER_LENGTH && CheckHeader(rx.header) == Good
          && rx.length == LengthOf(rx.header) && |rx.payload| < rx.length
        else rx.length == 0 && rx.payload == [])
  }

  /** A buffer that can hold what the transaction reads or fills. */
  predicate TxOk(tx: Tx) { CountInRange(tx.req.fc, tx.req.count) && BufferBytes(tx.req.fc, tx.req.count) <= tx.size }

  predicate Wired(s: State) {
    && RxOk(s.rx)
    && (s.pending.Some? ==> TxOk(s.pending.value.tx))
    && (forall tx <- s.queue :: TxOk(tx))
  }

  /** The memory that a step finds in the buffer of the pending transaction. */
  predicate MemOk(s: State, mem: Memory) { s.pending.Some? ==> |mem| == s.pending.value.tx.size }

  lemma CheckTimeoutKeeps(s: State, now: int, calls: seq<Args>)
    ensures var t := CheckTimeout(s, now, calls);
            t.rx == s.rx && (t.pending == s.pending || t.pending == None)
  {
    if s.pending.Some? { TransactAllKeeps(Log(s.(pending := None), Completed(s.pending.value.tx.id, TIMEOUT)), calls); }
  }

  lemma {:induction false} TransactAllKeeps(s: State, calls: seq<Args>)
    ensures var t := TransactAll(s, calls);
            t.rx == s.rx && t.pending == s.pending && t.connected == s.connected && t.nextId == s.nextId
  {
    if calls == [] {
    } else {
      TransactAllKeeps(s, calls[..|calls| - 1]);
    }
  }

  /** The hook behind a good header. */
  function WithHeader(order: ByteOrder, s: State, mem: Memory, e: RecvEnv): Hooked
    requires RxOk(s.rx) && |s.rx.header| == HEADER_LENGTH && CheckHeader(s.rx.header) == Good && Resolvable(s, mem)
  {
    var u := s.(rx := s.rx.(checked := true, length := LengthOf(s.rx.header)));
    var missing := u.rx.length - 1 - |u.rx.payload|;
    if missing > 0 then ReceivePayload(u, missing, e.recv, false, e.calls) else CompleteFrame(order, u, mem, e)
  }

  /** The hook behind its timeout check. */
  function Continue(order: ByteOrder, s: State, mem: Memory, e: RecvEnv): Hooked
    requires RxOk(s.rx) && Resolvable(s, mem)
  {
    if |s.rx.header| < HEADER_LENGTH then ReceiveHeader(s, e.recv, e.calls)
    else
      match (if s.rx.checked then Good else CheckHeader(s.rx.header))
      case WrongProtocol => Drop(s, e.calls)
      case TooShort => FinishAndClose(s, RESPONSE_FRAME_SHORTER_THAN_MINIMUM, e.calls)
      case TooLong => FinishAndClose(s, RESPONSE_FRAME_LONGER_THAN_MAXIMUM, e.calls)
      case Good => WithHeader(order, s, mem, e)
  }

  function RecvHook(order: ByteOrder, s: State, mem: Memory, e: RecvEnv): Hooked
    requires Wired(s) && MemOk(s, mem)
  {
    CheckTimeoutKeeps(s, e.now, e.calls(0));
    Continue(order, CheckTimeout(s, e.now, e.calls(0)), mem, e)
  }
}
