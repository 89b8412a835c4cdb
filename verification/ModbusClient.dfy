/** The Modbus TCP client object: its queue of transactions, the buffers that responses are
    collected in, and the copying into the caller's buffer. */
module ModbusClient {
  import opened Bytes
  import opened ModbusCommon
  import opened ModbusRules
  import opened Buffers
  import opened ClientRules
  import opened ClientRuns
  import opened ClientCodec
  import SF = ServerFraming

  /** A scheduled transaction; `id` only keeps the books. */
  datatype Transaction = Transaction(req: Request, buffer: array<Byte>, timeout: int, mask: Word, id: nat) {
    /** What the rules see of it. */
    function Seen(): Tx { Tx(id, req, buffer.Length, timeout, mask) }
  }

  /** A call of `transact` that a callback makes, having filled its buffer. */
  datatype Invocation = Invocation(args: Args, buffer: array<Byte>)

  function ArgsOf(calls: seq<Invocation>): (a: seq<Args>)
    ensures |a| == |calls| && forall i :: 0 <= i < |calls| ==> a[i] == calls[i].args
  {
    seq(|calls|, i requires 0 <= i < |calls| => calls[i].args)
  }

  function CallsOf(calls: nat -> seq<Invocation>): Calls { k => ArgsOf(calls(k)) }

  /** The buffers that callbacks use. */
  ghost predicate Uses(calls: seq<Invocation>, pool: set<array<Byte>>) {
    forall c <- calls :: c.buffer in pool && |c.args.mem| == c.buffer.Length
  }

  ghost predicate AllUse(calls: nat -> seq<Invocation>, pool: set<array<Byte>>) { forall k :: Uses(calls(k), pool) }

  /** What a buffer holds once callbacks have filled their buffers one after the other. */
  ghost function Refill(b: array<Byte>, was: Memory, calls: seq<Invocation>): Memory {
    if calls == [] then was
    else
      var c := calls[|calls| - 1];
      if c.buffer == b then c.args.mem else Refill(b, was, calls[..|calls| - 1])
  }

  lemma {:induction false} RefillElsewhere(b: array<Byte>, was: Memory, calls: seq<Invocation>, pool: set<array<Byte>>)
    requires Uses(calls, pool) && b !in pool
    ensures Refill(b, was, calls) == was
    decreases |calls|
  {
    if calls == [] {
    } else {
      assert calls[|calls| - 1] in calls;
      RefillElsewhere(b, was, calls[..|calls| - 1], pool);
    }
  }

  twostate predicate Refilled(calls: seq<Invocation>, pool: set<array<Byte>>)
    reads pool
  {
    forall b <- pool :: b[..] == Refill(b, old(b[..]), calls)
  }

  function TxsOf(s: seq<Transaction>): (t: seq<Tx>)
    ensures |t| == |s| && forall i :: 0 <= i < |s| ==> t[i] == s[i].Seen()
  {
    seq(|s|, i requires 0 <= i < |s| => s[i].Seen())
  }

  /** The argument check of transact looks into the buffer. */
  predicate LooksInside(q: Request) {
    CountInRange(q.fc, q.count) &&
    (q.fc == WRITE_SINGLE_COIL || (q.fc == WRITE_MULTIPLE_COILS && q.count % 8 != 0))
  }

  /** The argument check of transact, up to the check for a missing buffer. */
  method CheckArguments(q: Request, buffer: array?<Byte>) returns (ok: bool)
    requires if buffer == null then !LooksInside(q) else Fits(q, buffer[..])
    ensures ok == if buffer == null then CountInRange(q.fc, q.count) else Accepts(q, buffer[..])
  {
    SmallPowers();
    if ReadsCoils(q.fc) {
      ok := 1 <= q.count <= 2000;
    } else if ReadsRegisters(q.fc) {
      ok := 1 <= q.count <= 125;
    } else if q.fc == WRITE_SINGLE_COIL {
      ok := q.count == 1 && buffer[0] <= 1;
    } else if q.fc == WRITE_SINGLE_REGISTER {
      ok := q.count == 1;
    } else if q.fc == WRITE_MULTIPLE_COILS {
      ok := 1 <= q.count <= 1968 && (q.count % 8 != 0 ==> buffer[CoilBytes(q.count) - 1] < Pow2(q.count % 8));
    } else if q.fc == WRITE_MULTIPLE_REGISTERS {
      ok := 1 <= q.count <= 123;
    } else {
      ok := q.fc == MASK_WRITE_REGISTER && q.count == 2;
    }
  }

  class Client {
    const order: ByteOrder
    const header: array<Byte>
    const payload: array<Byte>
    var connected: bool
    var nextTransactionId: Word
    var pendingTransaction: Option<Transaction>
    var pendingTransactionId: Word
    var pendingTransactionDeadline: int
    var scheduled: seq<Transaction>
    var headerUsed: nat
    var headerChecked: bool
    var frameLength: nat
    var payloadUsed: nat

    // The books: the number of accepted transactions, and what has happened.
    var accepted: nat
    ghost var log: seq<Event>

    ghost predicate Bounded()
      reads this`headerUsed, this`payloadUsed
    {
      header.Length == HEADER_LENGTH && payload.Length == MAX_PAYLOAD_LENGTH && header != payload
      && headerUsed <= HEADER_LENGTH && payloadUsed <= MAX_PAYLOAD_LENGTH
    }

    predicate Foreign(buffer: array<Byte>) { buffer != header && buffer != payload }

    /** The fields are in order, and no transaction uses the client's own buffers. */
    ghost predicate Shape()
      reads this`headerUsed, this`payloadUsed, this`scheduled, this`pendingTransaction
    {
      && Bounded()
      && (pendingTransaction.Some? ==> Foreign(pendingTransaction.value.buffer))
      && (forall t <- scheduled :: Foreign(t.buffer))
    }

    ghost function Response(): Rx
      reads this, header, payload
      requires Bounded()
    {
      Rx(header[..headerUsed], headerChecked, frameLength, payload[..payloadUsed])
    }

    ghost function Waiting(): Option<Pending>
      reads this
    {
      match pendingTransaction
      case None => None
      case Some(t) => Some(Pending(t.Seen(), pendingTransactionId, pendingTransactionDeadline))
    }

    /** The client as the rules see it. */
    ghost function State(): ClientRules.State
      reads this, header, payload
      requires Bounded()
    {
      ClientRules.State(connected, nextTransactionId, Waiting(), TxsOf(scheduled), Response(), accepted, log)
    }

    /** Buffers that are not the client's own. */
    ghost predicate Outside(pool: set<array<Byte>>) { header !in pool && payload !in pool }

    constructor (order: ByteOrder, firstId: Word)
      ensures Shape() && State() == ClientRules.State(false, firstId, None, [], NO_RX, 0, []) && fresh(header)
              && fresh(payload)
      ensures this.order == order
    {
      this.order := order;
      header, payload := new Byte[HEADER_LENGTH], new Byte[MAX_PAYLOAD_LENGTH];
      connected, nextTransactionId := false, firstId;
      pendingTransaction, pendingTransactionId, pendingTransactionDeadline, scheduled := None, 0, 0, [];
      headerUsed, headerChecked, frameLength, payloadUsed := 0, false, 0, 0;
      accepted, log := 0, [];
    }

    /** The socket is connected. */
    method BecomeConnected()
      requires Shape() && Inv(State())
      modifies this`connected
      ensures Shape() && Inv(State()) && State() == old(State()).(connected := true)
    {
      assert [] + State().queue == State().queue;
      connected := true;
    }

    // ---- transact ----

    method Reject(result: Result)
      requires Bounded()
      modifies this`log
      ensures State() == Log(old(State()), Rejected(result))
    {
      log := log + [Rejected(result)];
    }

    /** A call of transact: without a callback nothing happens, and a missing buffer is an invalid
        argument like those that the rules name.  A caller that leaves out the buffer must not ask for
        an argument check that looks into it. */
    method Transact(req: Request, buffer: array?<Byte>, timeout: int, callback: bool, mask: Word)
      requires Shape()
      requires callback ==> if buffer == null then !LooksInside(req) else Foreign(buffer) && Fits(req, buffer[..])
      modifies this`scheduled, this`accepted, this`log
      ensures Shape()
      ensures State() == if !callback then old(State())
                         else if buffer == null then Log(old(State()), Rejected(INVALID_ARGUMENT))
                         else ClientRules.Transact(old(State()), Args(req, buffer[..], timeout, mask))
      ensures forall t <- scheduled :: t in old(scheduled) || t.buffer == buffer
    {
      if !callback { return; }
      var ok := CheckArguments(req, buffer);
      if !ok || buffer == null || timeout < 0 {
        Reject(INVALID_ARGUMENT);
        return;
      }
      if !connected {
        Reject(NOT_CONNECTED);
        return;
      }
      if |scheduled| >= MAX_SCHEDULED {
        Reject(NO_TRANSACTION_AVAILABLE);
        return;
      }
      ghost var txs := TxsOf(scheduled);
      scheduled := scheduled + [Transaction(req, buffer, timeout, mask, accepted)];
      assert TxsOf(scheduled) == txs + [Tx(accepted, req, buffer.Length, timeout, mask)];
      log := log + [Accepted(accepted)];
      accepted := accepted + 1;
    }

    /** The queued transactions use buffers of this pool. */
    ghost predicate Pooled(pool: set<array<Byte>>)
      reads this`scheduled
    {
      forall t <- scheduled :: t.buffer in pool
    }

    /** One call of transact that a callback makes. */
    method Invoke(c: Invocation, ghost pool: set<array<Byte>>)
      requires Shape() && c.buffer in pool && |c.args.mem| == c.buffer.Length && Outside(pool)
      modifies this`scheduled, this`accepted, this`log, c.buffer
      ensures Shape() && State() == ClientRules.Transact(old(State()), c.args)
      ensures c.buffer[..] == c.args.mem && (old(Pooled(pool)) ==> Pooled(pool))
    {
      Put(c.buffer, 0, c.args.mem);
      assert c.buffer[..] == c.args.mem;
      Transact(c.args.req, c.buffer, c.args.timeout, true, c.args.mask);
    }

    /** Runs a callback that fills buffers and calls transact with them. */
    method CallBack(calls: seq<Invocation>, ghost pool: set<array<Byte>>)
      requires Shape() && Uses(calls, pool) && Outside(pool)
      modifies this`scheduled, this`accepted, this`log, pool
      ensures Shape() && State() == TransactAll(old(State()), ArgsOf(calls))
      ensures Refilled(calls, pool) && (old(Pooled(pool)) ==> Pooled(pool))
    {
      ghost var all := ArgsOf(calls);
      for i := 0 to |calls|
        invariant Shape() && State() == TransactAll(old(State()), all[..i])
        invariant Refilled(calls[..i], pool) && (old(Pooled(pool)) ==> Pooled(pool))
      {
        assert calls[i] in calls && all[..i + 1][..i] == all[..i] && calls[..i + 1][..i] == calls[..i];
        Invoke(calls[i], pool);
      }
      assert all[..|calls|] == all && calls[..|calls|] == calls;
    }

    // ---- Finishing ----

    /** The pending transaction is gone before its callback runs. */
    method FinishPending(result: Result, calls: seq<Invocation>, ghost pool: set<array<Byte>>)
      requires Shape() && Uses(calls, pool) && Outside(pool)
      modifies this`pendingTransaction, this`pendingTransactionId, this`pendingTransactionDeadline,
        this`scheduled, this`accepted, this`log, pool
      ensures Shape() && State() == ClientRules.FinishPending(old(State()), result, ArgsOf(calls))
      ensures pendingTransaction == None
      ensures Refilled(if old(pendingTransaction).Some? then calls else [], pool)
              && (old(Pooled(pool)) ==> Pooled(pool))
    {
      if pendingTransaction.Some? {
        log := log + [Completed(pendingTransaction.value.id, result)];
        pendingTransaction := None;
        pendingTransactionId := 0;
        pendingTransactionDeadline := 0;
        CallBack(calls, pool);
      }
    }

    /** The variant that looks at the transaction ID of the response. */
    method FinishIf(transactionId: Word, result: Result, calls: seq<Invocation>, ghost pool: set<array<Byte>>)
      requires Shape() && Uses(calls, pool) && Outside(pool)
      modifies this`pendingTransaction, this`pendingTransactionId, this`pendingTransactionDeadline,
        this`scheduled, this`accepted, this`log, pool
      ensures Shape() && State() == ClientRules.FinishIf(old(State()), transactionId, result, ArgsOf(calls))
    {
      if pendingTransaction.Some? && pendingTransactionId == transactionId {
        FinishPending(result, calls, pool);
      }
    }

    predicate TimesOut(now: int)
      reads this`pendingTransaction, this`pendingTransactionDeadline
    {
      pendingTransaction.Some? && now >= pendingTransactionDeadline
    }

    method CheckTimeout(now: int, calls: seq<Invocation>, ghost pool: set<array<Byte>>)
      requires Shape() && Uses(calls, pool) && Outside(pool)
      modifies this`pendingTransaction, this`pendingTransactionId, this`pendingTransactionDeadline,
        this`scheduled, this`accepted, this`log, pool
      ensures Shape() && State() == ClientRules.CheckTimeout(old(State()), now, ArgsOf(calls))
      ensures old(pendingTransaction).Some? && now >= old(pendingTransactionDeadline) ==> pendingTransaction == None
      ensures Refilled(if old(TimesOut(now)) then calls else [], pool) && (old(Pooled(pool)) ==> Pooled(pool))
    {
      if pendingTransaction.Some? && now >= pendingTransactionDeadline {
        FinishPending(TIMEOUT, calls, pool);
      }
    }

    /** One detached transaction's turn. */
    method FinishOne(t: Transaction, result: Result, calls: seq<Invocation>, ghost pool: set<array<Byte>>)
      requires Shape() && Uses(calls, pool) && Outside(pool)
      modifies this`scheduled, this`accepted, this`log, pool
      ensures Shape() && State() == TransactAll(Log(old(State()), Completed(t.id, result)), ArgsOf(calls))
    {
      log := log + [Completed(t.id, result)];
      CallBack(calls, pool);
    }

    /** Completes the transactions of a detached queue one after the other. */
    method FinishEach(detached: seq<Transaction>, result: Result, calls: nat -> seq<Invocation>, k: nat,
                      ghost pool: set<array<Byte>>)
      requires Shape() && AllUse(calls, pool) && Outside(pool)
      modifies this`scheduled, this`accepted, this`log, pool
      ensures Shape() && State() == ClientRules.FinishEach(old(State()), TxsOf(detached), result, CallsOf(calls), k)
    {
      var left, n := detached, k;
      ghost var s := State();
      ghost var after := ClientRules.FinishEach(s, TxsOf(left), result, CallsOf(calls), k);
      while left != []
        invariant Shape() && State() == s && ClientRules.FinishEach(s, TxsOf(left), result, CallsOf(calls), n) == after
        decreases |left|
      {
        FinishOne(left[0], result, calls(n), pool);
        NextDetached(s, left, result, calls, n);
        s := TransactAll(Log(s, Completed(left[0].id, result)), ArgsOf(calls(n)));
        left, n := left[1..], n + 1;
      }
    }

    /** Aborts everything. */
    method FinishAll(result: Result, calls: nat -> seq<Invocation>, k: nat, ghost pool: set<array<Byte>>)
      requires Shape() && AllUse(calls, pool) && Outside(pool)
      modifies this`pendingTransaction, this`pendingTransactionId, this`pendingTransactionDeadline,
        this`scheduled, this`accepted, this`log, pool
      ensures Shape() && State() == ClientRules.FinishAll(old(State()), result, CallsOf(calls), k)
    {
      FinishPending(result, calls(k), pool);
      var detached := scheduled;
      scheduled := [];
      FinishEach(detached, result, calls, k + 1, pool);
    }

    method ResetResponse()
      requires Bounded()
      modifies this`headerUsed, this`headerChecked, this`frameLength, this`payloadUsed
      ensures Bounded() && State() == old(State()).(rx := NO_RX)
    {
      headerUsed, headerChecked, frameLength, payloadUsed := 0, false, 0, 0;
    }

    /** The socket is closed and forgotten before the close hook aborts everything. */
    method Close(calls: nat -> seq<Invocation>, k: nat, ghost pool: set<array<Byte>>)
      requires Shape() && AllUse(calls, pool) && Outside(pool)
      modifies this, pool
      ensures Shape() && State() == ClientRules.Close(old(State()), CallsOf(calls), k)
    {
      connected := false;
      ResetResponse();
      FinishAll(ABORTED, calls, k, pool);
    }

    // ---- tick_hook ----

    /** The first transaction of the queue becomes the pending one. */
    method StartNext(startedAt: int)
      requires Shape() && pendingTransaction.None? && scheduled != []
      modifies this`pendingTransaction, this`pendingTransactionId, this`pendingTransactionDeadline,
          this`nextTransactionId,
        this`scheduled, this`log
      ensures Shape() && State() == Start(old(State()), startedAt)
      ensures pendingTransaction == Some(old(scheduled)[0])
    {
      var t := scheduled[0];
      TxsTail(scheduled);
      pendingTransaction := Some(t);
      scheduled := scheduled[1..];
      pendingTransactionId := And(nextTransactionId, t.mask);
      nextTransactionId := (nextTransactionId + 1) % 0x1_0000;
      pendingTransactionDeadline := startedAt + t.timeout;
      log := log + [Started(t.id, pendingTransactionId, t.mask)];
    }

    /** Starts the first transaction of the queue; returns the frame that it gives to `send`. */
    method SendNext(startedAt: int, ghost mem: Memory) returns (sent: Memory)
      requires Shape() && pendingTransaction.None? && scheduled != [] && TxOk(scheduled[0].Seen())
      requires mem == scheduled[0].buffer[..]
      modifies this`pendingTransaction, this`pendingTransactionId, this`pendingTransactionDeadline,
          this`nextTransactionId,
        this`scheduled, this`log
      ensures Shape() && State() == Start(old(State()), startedAt)
      ensures sent == RequestOf(old(scheduled)[0], old(nextTransactionId), mem)
    {
      var t := scheduled[0];
      StartNext(startedAt);
      var frame, length := EncodeRequest(order, t.req, pendingTransactionId, t.buffer);
      sent := frame[..length];
    }

    /** The frame of a transaction that is started with this counter and this buffer. */
    ghost function RequestOf(t: Transaction, nextId: Word, mem: Memory): Memory
      requires TxOk(t.Seen()) && |mem| == t.buffer.Length
    {
      FrameBytes(Frame(And(nextId, t.mask), t.req.unit, RequestPayload(order, t.req, mem)))
    }

    /** What follows a failed send. */
    method GiveUp(calls: nat -> seq<Invocation>, ghost pool: set<array<Byte>>)
      requires Shape() && AllUse(calls, pool) && Outside(pool)
      modifies this, pool
      ensures Shape()
      ensures State() == ClientRules.Close(ClientRules.FinishPending(old(State()), SEND_FAILED, ArgsOf(calls(1))),
                                           CallsOf(calls), 2)
    {
      FinishPending(SEND_FAILED, calls(1), pool);
      Close(calls, 2, pool);
    }

    /** Starts the first transaction of the queue, and gives up if `send` fails. */
    method StartFirst(startedAt: int, ok: bool, calls: nat -> seq<Invocation>, ghost pool: set<array<Byte>>,
                      ghost mem: Memory)
      returns (sent: Memory)
      requires Shape() && AllUse(calls, pool) && Outside(pool)
      requires pendingTransaction.None? && scheduled != [] && TxOk(scheduled[0].Seen())
               && mem == scheduled[0].buffer[..]
      modifies this, pool
      ensures Shape()
      ensures var u := Start(old(State()), startedAt);
              State() ==
              if ok then u
              else ClientRules.Close(ClientRules.FinishPending(u, SEND_FAILED, ArgsOf(calls(1))), CallsOf(calls), 2)
      ensures sent == RequestOf(old(scheduled)[0], old(nextTransactionId), mem)
    {
      sent := SendNext(startedAt, mem);
      if !ok {
        GiveUp(calls, pool);
      }
    }

    /** The tick hook behind its timeout check. */
    method StartIfIdle(startedAt: int, ok: bool, calls: nat -> seq<Invocation>, ghost pool: set<array<Byte>>,
                       ghost e: TickEnv)
      returns (sent: Option<Memory>)
      requires Shape() && AllUse(calls, pool) && Outside(pool)
      requires scheduled != [] ==> TxOk(scheduled[0].Seen())
      requires e.startedAt == startedAt && e.sent == ok && e.calls == CallsOf(calls)
      modifies this, pool
      ensures Shape() && State() == ClientRules.StartIfIdle(old(State()), e)
      ensures sent == if old(pendingTransaction).Some? || old(scheduled) == [] then None
                      else Some(RequestOf(old(scheduled)[0], old(nextTransactionId), old(scheduled[0].buffer[..])))
    {
      if pendingTransaction.Some? || scheduled == [] {
        return None;
      }
      ghost var mem := scheduled[0].buffer[..];
      var frame := StartFirst(startedAt, ok, calls, pool, mem);
      return Some(frame);
    }

    /** The tick hook; `ok` is what `send` says, and the frame is what it is given. */
    method TickHook(now: int, startedAt: int, ok: bool, calls: nat -> seq<Invocation>, ghost pool: set<array<Byte>>)
      returns (sent: Option<Memory>, ghost started: Option<Transaction>)
      requires Shape() && Inv(State()) && AllUse(calls, pool) && Outside(pool) && Pooled(pool)
      modifies this, pool
      ensures Shape() && Inv(State())
      ensures State() == ClientRules.TickHook(old(State()), TickEnv(now, startedAt, ok, CallsOf(calls)))
      ensures var s := ClientRules.CheckTimeout(old(State()), now, ArgsOf(calls(0)));
              if s.pending.Some? || s.queue == [] then sent == None && started == None
              else started.Some? && started.value.Seen() == s.queue[0] && started.value.buffer in pool
      ensures started.Some? ==>
        var t := started.value;
        var mem := Refill(t.buffer, old(t.buffer[..]), if old(TimesOut(now)) then calls(0) else []);
        TxOk(t.Seen()) && |mem| == t.buffer.Length && sent == Some(RequestOf(t, old(nextTransactionId), mem))
    {
      ghost var e := TickEnv(now, startedAt, ok, CallsOf(calls));
      TickKeeps(State(), e);
      TimeoutKeeps(State(), now, ArgsOf(calls(0)));
      CheckTimeout(now, calls(0), pool);
      assert scheduled != [] ==> State().queue[0] in State().queue && State().queue[0] == scheduled[0].Seen();
      started := if pendingTransaction.Some? || scheduled == [] then None else Some(scheduled[0]);
      sent := StartIfIdle(startedAt, ok, calls, pool, e);
    }

    // ---- recv_hook ----

    /** Fetches missing header bytes. */
    method ReceiveHeader(r: SF.Recv, calls: nat -> seq<Invocation>, ghost pool: set<array<Byte>>)
      returns (more: bool, ghost took: Memory)
      requires Shape() && headerUsed < HEADER_LENGTH && AllUse(calls, pool) && Outside(pool)
      modifies this, header, pool
      ensures Shape() && Hooked(State(), more, took) == ClientRules.ReceiveHeader(old(State()), r, CallsOf(calls))
    {
      match r {
        case Again => return false, [];
        case Failed(_) =>
          Close(calls, 2, pool);
          return false, [];
        case Closed =>
          Close(calls, 2, pool);
          return false, [];
        case Data(_, _) =>
          var got := SF.Granted(r, HEADER_LENGTH - headerUsed);
          Append(header, headerUsed, got);
          headerUsed := headerUsed + |got|;
          return true, got;
      }
    }

    /** Completes the transaction that the response is for, and closes. */
    method FinishAndClose(result: Result, calls: nat -> seq<Invocation>, ghost pool: set<array<Byte>>)
      requires Shape() && headerUsed == HEADER_LENGTH && AllUse(calls, pool) && Outside(pool)
      modifies this, pool
      ensures Shape() && Hooked(State(), false, []) == ClientRules.FinishAndClose(old(State()), result, CallsOf(calls))
    {
      assert header[..headerUsed] == header[..];
      FinishIf(WordAt(header, 0), result, calls(1), pool);
      Close(calls, 2, pool);
    }

    /** Fetches payload bytes, of the frame or trailing it. */
    method ReceivePayload(n: nat, r: SF.Recv, grow: bool, calls: nat -> seq<Invocation>, ghost pool: set<array<Byte>>)
      returns (more: bool, ghost took: Memory)
      requires Shape() && headerUsed == HEADER_LENGTH && payloadUsed + n <= MAX_PAYLOAD_LENGTH
      requires AllUse(calls, pool) && Outside(pool)
      modifies this, payload, pool
      ensures Shape() && Hooked(State(), more, took) ==
              ClientRules.ReceivePayload(old(State()), n, r, grow, CallsOf(calls))
    {
      match r {
        case Again => return false, [];
        case Failed(_) =>
          FinishAndClose(RECEIVE_FAILED, calls, pool);
          return false, [];
        case Closed =>
          FinishAndClose(DISCONNECTED_BY_PEER, calls, pool);
          return false, [];
        case Data(_, _) =>
          var got := SF.Granted(r, n);
          Append(payload, payloadUsed, got);
          payloadUsed := payloadUsed + |got|;
          if grow { frameLength := frameLength + |got|; }
          return true, got;
      }
    }

    /** Checks a response and copies its data; the caller's buffer changes only here. */
    method Judge(t: Transaction, ghost p: Pending, ghost mem: Memory) returns (result: Result)
      requires Bounded() && payloadUsed >= 2 && headerUsed == HEADER_LENGTH && Foreign(t.buffer)
      requires p.tx == t.Seen() && TxOk(p.tx) && mem == t.buffer[..]
      modifies t.buffer, this`log
      ensures var j := Check(order, t.req, header[6], payload[..payloadUsed], mem);
              && result == j.result && t.buffer[..] == j.mem
              && log == old(log) + Writes(p, payload[..payloadUsed], j)
    {
      result := CheckResponse(order, t.req, header[6], payload, payloadUsed, t.buffer);
      assert payload[..payloadUsed][0] == payload[0];
      if Reads(t.req.fc) && payload[0] < 0x80 && result == 0 {
        log := log + [Wrote(t.id, t.buffer[..])];
      }
    }

    /** A complete frame for the pending transaction, or for nobody.  The buffer of the transaction holds
        what the check left in it, unless the callback has filled it again. */
    method Resolve(calls: seq<Invocation>, ghost pool: set<array<Byte>>, ghost buffers: set<array<Byte>>,
                   ghost mem: Memory)
      requires Shape() && headerUsed == HEADER_LENGTH && payloadUsed >= 2 && Uses(calls, pool) && Outside(pool)
      requires Resolvable(State(), mem) && Filled(buffers, mem)
      modifies this, pool, buffers
      ensures Shape() && State() == ClientRules.Resolve(order, old(State()), mem, ArgsOf(calls))
      ensures old(pendingTransaction).Some? ==>
        var t := old(pendingTransaction).value;
        if old(pendingTransactionId) == WordAt(header, 0) then
          t.buffer[..] == Refill(t.buffer, Check(order, t.req, header[6], payload[..old(payloadUsed)], mem).mem, calls)
        else t.buffer[..] == mem
    {
      var id := WordAt(header, 0);
      assert header[..headerUsed] == header[..];
      if pendingTransaction.None? || pendingTransactionId != id {
        ResetResponse();
        return;
      }
      ghost var p := Waiting().value;
      var t := pendingTransaction.value;
      ghost var j := Check(order, t.req, header[6], payload[..payloadUsed], mem);
      var result := Judge(t, p, mem);
      ResetResponse();
      FinishKeepsBuffer(result, calls, pool, t.buffer, j.mem);
    }

    /** Completes the pending transaction; what that makes of a buffer. */
    method FinishKeepsBuffer(result: Result, calls: seq<Invocation>, ghost pool: set<array<Byte>>,
                             ghost b: array<Byte>, ghost was: Memory)
      requires Shape() && Uses(calls, pool) && Outside(pool) && pendingTransaction.Some? && b[..] == was
      modifies this`pendingTransaction, this`pendingTransactionId, this`pendingTransactionDeadline,
        this`scheduled, this`accepted, this`log, pool
      ensures Shape() && State() == ClientRules.FinishPending(old(State()), result, ArgsOf(calls))
      ensures b[..] == Refill(b, was, calls)
    {
      FinishPending(result, calls, pool);
      if b !in pool { RefillElsewhere(b, was, calls, pool); }
    }

    /** The buffer of the pending transaction, if there is one, and its content. */
    ghost predicate Filled(buffers: set<array<Byte>>, mem: Memory)
      reads this`pendingTransaction, buffers
    {
      && header !in buffers && payload !in buffers
      && (pendingTransaction.Some? ==>
            pendingTransaction.value.buffer in buffers && pendingTransaction.value.buffer[..] == mem)
    }

    /** A frame that is complete, with or without trailing bytes. */
    method AfterTrailing(calls: nat -> seq<Invocation>, ghost pool: set<array<Byte>>, ghost buffers: set<array<Byte>>,
                         ghost mem: Memory, ghost e: RecvEnv) returns (more: bool)
      requires Shape() && headerUsed == HEADER_LENGTH && payloadUsed + 1 == frameLength && AllUse(calls, pool)
               && Outside(pool)
      requires Resolvable(State(), mem) && Filled(buffers, mem) && e.calls == CallsOf(calls)
      modifies this, pool, buffers
      ensures Shape() && Hooked(State(), more, []) == ClientRules.AfterTrailing(order, old(State()), mem, e)
    {
      if frameLength < MIN_RESPONSE_FRAME_LENGTH {
        FinishAndClose(RESPONSE_FRAME_SHORTER_THAN_MINIMUM, calls, pool);
        return false;
      }
      Resolve(calls(1), pool, buffers, mem);
      return true;
    }

    /** A frame of the announced length, with a look at what else is readable. */
    method CompleteFrame(readable: Readable, trailing: SF.Recv, calls: nat -> seq<Invocation>,
                         ghost pool: set<array<Byte>>,
                         ghost buffers: set<array<Byte>>, ghost mem: Memory, ghost e: RecvEnv)
      returns (more: bool, ghost took: Memory)
      requires Shape() && headerUsed == HEADER_LENGTH && payloadUsed + 1 == frameLength && AllUse(calls, pool)
               && Outside(pool)
      requires Resolvable(State(), mem) && Filled(buffers, mem)
      requires e.calls == CallsOf(calls) && e.readable == readable && e.trailing == trailing
      modifies this, payload, pool, buffers
      ensures Shape() && Hooked(State(), more, took) == ClientRules.CompleteFrame(order, old(State()), mem, e)
    {
      if readable.IoctlFailed? {
        FinishAndClose(RECEIVE_FAILED, calls, pool);
        return false, [];
      }
      if 0 < readable.count < HEADER_LENGTH && payloadUsed + readable.count <= MAX_PAYLOAD_LENGTH {
        more, took := TakeTrailing(readable.count, trailing, calls, pool, buffers, mem, e);
      } else {
        more := AfterTrailing(calls, pool, buffers, mem, e);
        took := [];
      }
    }

    /** A few more readable bytes are taken for a part of the frame. */
    method TakeTrailing(n: nat, trailing: SF.Recv, calls: nat -> seq<Invocation>, ghost pool: set<array<Byte>>,
                        ghost buffers: set<array<Byte>>, ghost mem: Memory, ghost e: RecvEnv)
      returns (more: bool, ghost took: Memory)
      requires Shape() && headerUsed == HEADER_LENGTH && payloadUsed + 1 == frameLength && AllUse(calls, pool)
               && Outside(pool)
      requires Resolvable(State(), mem) && Filled(buffers, mem) && payloadUsed + n <= MAX_PAYLOAD_LENGTH
      requires e.calls == CallsOf(calls)
      modifies this, payload, pool, buffers
      ensures Shape()
      ensures var t := ClientRules.ReceivePayload(old(State()), n, trailing, true, e.calls);
              Hooked(State(), more, took) ==
              if t.more then ClientRules.AfterTrailing(order, t.state, mem, e).(took := t.took) else t
    {
      if trailing.Data? {
        took := AppendTrailing(n, trailing);
        more := AfterTrailing(calls, pool, buffers, mem, e);
      } else {
        more, took := ReceivePayload(n, trailing, true, calls, pool);
      }
    }

    /** Trailing bytes that have arrived. */
    method AppendTrailing(n: nat, trailing: SF.Recv) returns (ghost took: Memory)
      requires Shape() && payloadUsed + n <= MAX_PAYLOAD_LENGTH && trailing.Data?
      modifies this`payloadUsed, this`frameLength, payload
      ensures Shape() && took == SF.Granted(trailing, n)
      ensures payloadUsed == old(payloadUsed) + |took| && frameLength == old(frameLength) + |took|
      ensures State() == var s := old(State());
              s.(rx := s.rx.(payload := s.rx.payload + took, length := s.rx.length + |took|))
    {
      var got := SF.Granted(trailing, n);
      Append(payload, payloadUsed, got);
      payloadUsed := payloadUsed + |got|;
      frameLength := frameLength + |got|;
      took := got;
    }

    /** The header fields that are checked once. */
    method JudgeHeader() returns (c: HeaderCheck)
      requires Bounded() && headerUsed == HEADER_LENGTH
      ensures c == ClientRules.CheckHeader(header[..])
    {
      if WordAt(header, 2) != 0 { return WrongProtocol; }
      if WordAt(header, 4) < 1 { return TooShort; }
      if WordAt(header, 4) > MAX_RESPONSE_FRAME_LENGTH { return TooLong; }
      return Good;
    }

    method AcceptHeader()
      requires Shape() && headerUsed == HEADER_LENGTH
      modifies this`headerChecked, this`frameLength
      ensures Shape() && State() == var s := old(State());
              s.(rx := s.rx.(checked := true, length := LengthOf(s.rx.header)))
      ensures frameLength == LengthOf(header[..])
    {
      assert header[..headerUsed] == header[..];
      headerChecked := true;
      frameLength := WordAt(header, 4);
    }

    /** The hook behind a good header. */
    method WithHeader(recv: SF.Recv, readable: Readable, trailing: SF.Recv, calls: nat -> seq<Invocation>,
                      ghost pool: set<array<Byte>>,
                      ghost buffers: set<array<Byte>>, ghost mem: Memory, ghost e: RecvEnv)
      returns (more: bool, ghost took: Memory)
      requires Shape() && headerUsed == HEADER_LENGTH && AllUse(calls, pool) && Outside(pool)
      requires RxOk(Response()) && ClientRules.CheckHeader(header[..]) == Good && Resolvable(State(), mem)
               && Filled(buffers, mem)
      requires e.calls == CallsOf(calls) && e.recv == recv && e.readable == readable && e.trailing == trailing
      modifies this, payload, pool, buffers
      ensures Shape() && Hooked(State(), more, took) == ClientRules.WithHeader(order, old(State()), mem, e)
    {
      AcceptHeader();
      var missing := frameLength - 1 - payloadUsed;
      if missing > 0 {
        more, took := ReceivePayload(missing, recv, false, calls, pool);
      } else {
        more, took := CompleteFrame(readable, trailing, calls, pool, buffers, mem, e);
      }
    }

    /** The hook behind its timeout check. */
    method Continue(recv: SF.Recv, readable: Readable, trailing: SF.Recv, calls: nat -> seq<Invocation>,
                    ghost pool: set<array<Byte>>,
                    ghost buffers: set<array<Byte>>, ghost mem: Memory, ghost e: RecvEnv)
      returns (more: bool, ghost took: Memory)
      requires Shape() && AllUse(calls, pool) && Outside(pool)
      requires RxOk(Response()) && Resolvable(State(), mem) && Filled(buffers, mem)
      requires e.calls == CallsOf(calls) && e.recv == recv && e.readable == readable && e.trailing == trailing
      modifies this, header, payload, pool, buffers
      ensures Shape() && Hooked(State(), more, took) == ClientRules.Continue(order, old(State()), mem, e)
    {
      if headerUsed < HEADER_LENGTH {
        more, took := ReceiveHeader(recv, calls, pool);
        return;
      }
      assert header[..headerUsed] == header[..];
      var check := Good;
      if !headerChecked { check := JudgeHeader(); }
      if check == Good {
        more, took := WithHeader(recv, readable, trailing, calls, pool, buffers, mem, e);
      } else {
        RefuseHeader(check, calls, pool);
        return false, [];
      }
    }

    /** A header that cannot be right. */
    method RefuseHeader(check: HeaderCheck, calls: nat -> seq<Invocation>, ghost pool: set<array<Byte>>)
      requires Shape() && headerUsed == HEADER_LENGTH && check != Good && AllUse(calls, pool) && Outside(pool)
      modifies this, pool
      ensures Shape()
      ensures Hooked(State(), false, []) ==
              if check == WrongProtocol then Drop(old(State()), CallsOf(calls))
              else ClientRules.FinishAndClose(old(State()),
                                              if check == TooShort then RESPONSE_FRAME_SHORTER_THAN_MINIMUM
                                              else RESPONSE_FRAME_LONGER_THAN_MAXIMUM,
                                              CallsOf(calls))
    {
      if check == WrongProtocol {
        Close(calls, 2, pool);
      } else {
        FinishAndClose(if check == TooShort then RESPONSE_FRAME_SHORTER_THAN_MINIMUM
                       else RESPONSE_FRAME_LONGER_THAN_MAXIMUM,
                       calls, pool);
      }
    }

    /** The receive hook; tells whether to call it again.  `mem` is what the buffer of the pending
        transaction holds. */
    method RecvHook(now: int, recv: SF.Recv, readable: Readable, trailing: SF.Recv, calls: nat -> seq<Invocation>,
                    ghost pool: set<array<Byte>>, ghost buffers: set<array<Byte>>, ghost mem: Memory)
      returns (more: bool, ghost took: Memory)
      requires Shape() && connected && Inv(State()) && AllUse(calls, pool) && Outside(pool)
      requires MemOk(State(), mem) && Filled(buffers, mem)
      modifies this, header, payload, pool, buffers
      ensures Shape() && Inv(State())
      ensures Hooked(State(), more, took) ==
              ClientRules.RecvHook(order, old(State()), mem, RecvEnv(now, recv, readable, trailing, CallsOf(calls)))
    {
      ghost var e := RecvEnv(now, recv, readable, trailing, CallsOf(calls));
      RecvKeeps(order, State(), mem, e);
      more, took := CheckAndContinue(now, recv, readable, trailing, calls, pool, buffers, mem, e);
    }

    method CheckAndContinue(now: int, recv: SF.Recv, readable: Readable, trailing: SF.Recv,
                            calls: nat -> seq<Invocation>, ghost pool: set<array<Byte>>,
                            ghost buffers: set<array<Byte>>, ghost mem: Memory, ghost e: RecvEnv)
      returns (more: bool, ghost took: Memory)
      requires Shape() && Wired(State()) && AllUse(calls, pool) && Outside(pool)
      requires MemOk(State(), mem) && Filled(buffers, mem)
               && e == RecvEnv(now, recv, readable, trailing, CallsOf(calls))
      modifies this, header, payload, pool, buffers
      ensures Shape() && Hooked(State(), more, took) == ClientRules.RecvHook(order, old(State()), mem, e)
    {
      CheckTimeoutKeeps(State(), now, ArgsOf(calls(0)));
      if pendingTransaction.Some? && now >= pendingTransactionDeadline {
        CheckTimeout(now, calls(0), pool);
      }
      more, took := Continue(recv, readable, trailing, calls, pool, buffers, mem, e);
    }
  }

  lemma TxsTail(s: seq<Transaction>)
    requires s != []
    ensures TxsOf(s) != [] && TxsOf(s)[1..] == TxsOf(s[1..]) && TxsOf(s)[0] == s[0].Seen()
  {
  }

  lemma NextDetached(s: State, left: seq<Transaction>, result: Result, calls: nat -> seq<Invocation>, k: nat)
    requires left != []
    ensures ClientRules.FinishEach(s, TxsOf(left), result, CallsOf(calls), k) ==
            ClientRules.FinishEach(TransactAll(Log(s, Completed(left[0].id, result)), ArgsOf(calls(k))),
                                   TxsOf(left[1..]), result, CallsOf(calls), k + 1)
  {
    TxsTail(left);
  }
}
