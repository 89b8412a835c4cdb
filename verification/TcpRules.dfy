/** The generic TCP client on values: resolving, connecting, being connected, being closed.  Every
    call of the operating system is an argument of the step that makes it; callbacks and system
    calls are entries of the log. */
module TcpRules {
  import opened Bytes

  const CONNECT_TIMEOUT: int := 3_000_000
  const RESOLVE_IDS: nat := 0x1_0000_0000

  datatype ConnectResult =
    | InvalidArgument | NoFreePoolSlot | NoFreePoolShare | NonReentrant | AlreadyConnected | AbortRequested
    | ResolveFailed | InvalidAddressType | SocketCreateFailed | SocketGetFlagsFailed | SocketSetFlagsFailed
    | SocketConnectFailed | SocketSelectFailed | SocketGetOptionFailed | SocketConnectAsyncFailed | Timeout
    | Connected

  datatype DisconnectResult = Reentrant | NotConnected | Disconnected

  datatype Reason =
    | Requested | Forced | SelectBroken | ReceiveBroken | IoctlBroken | SendBroken | DisconnectedByPeer | ProtocolError

  datatype Family = V4 | V6 | OtherFamily

  datatype Address = Address(family: Family, bits: nat)

  /** Calls of `connect` are numbered by tickets, calls of the resolver by serials; Accepted and
      Refused are the two fates of a call of `connect`, a refusal being its connect callback. */
  datatype Event =
    | Accepted(ticket: nat)
    | Refused(ticket: nat, result: ConnectResult)
    | Told(ticket: nat, result: ConnectResult)
    | Lost(ticket: nat, reason: Reason)
    | Asked(serial: nat, ticket: nat)
    | Answered(serial: nat, found: Option<Address>)
    | Opened(fd: nat)
    | Dialed(ticket: nat, address: Address)
    | Closed(fd: nat)

  /** The fields of the client.  The callbacks are the tickets of the calls that passed them;
      `tickets`, `resolves` and `log` only keep the books. */
  datatype Conn = Conn(host: Option<string>, port: Word,
                       connectCallback: Option<nat>, pendingDisconnectCallback: Option<nat>,
                       disconnectCallback: Option<nat>,
                       resolvePending: bool, resolveId: nat, address: Option<Address>,
                       pendingFd: Option<nat>, deadline: int, fd: Option<nat>,
                       tickets: nat, resolves: nat, log: seq<Event>)

  const NEW: Conn := Conn(None, 0, None, None, None, false, 0, None, None, 0, None, 0, 0, [])

  datatype Phase = Idle | Fresh | Resolving | Resolved | Dialing | Up

  /** What the fields are in each phase. */
  predicate InPhase(s: Conn, p: Phase) {
    && (s.host.Some? <==> p != Idle) && (s.host == None ==> s.port == 0)
    && (s.connectCallback.Some? <==> p != Idle && p != Up) && s.pendingDisconnectCallback == s.connectCallback
    && (s.disconnectCallback.Some? <==> p == Up)
    && (s.resolvePending <==> p == Resolving) && (s.address.Some? <==> p == Resolved)
    && (s.pendingFd.Some? <==> p == Dialing) && (s.fd.Some? <==> p == Up)
  }

  /** The phase as `get_connection_status` and `tick` tell it from the fields they look at. */
  function PhaseOf(s: Conn): Phase {
    if s.fd.Some? then Up
    else if s.host.None? then Idle
    else if s.pendingFd.Some? then Dialing
    else if s.address.Some? then Resolved
    else if s.resolvePending then Resolving
    else Fresh
  }

  /** What every state between two calls satisfies. */
  predicate Ok(s: Conn) {
    && InPhase(s, PhaseOf(s))
    && (s.host.Some? ==> s.host.value != "" && s.port > 0)
    && s.resolveId == s.resolves % RESOLVE_IDS
  }

  // ---- Callbacks and their guarded calls ----

  function Log(s: Conn, e: Event): Conn { s.(log := s.log + [e]) }

  function Refuse(s: Conn, result: ConnectResult): Conn {
    s.(tickets := s.tickets + 1, log := s.log + [Refused(s.tickets, result)])
  }

  /** What a callback can do to a guarded client: n refused calls of `connect`. */
  function Reenter(s: Conn, n: nat): Conn {
    if n == 0 then s else Refuse(Reenter(s, n - 1), NonReentrant)
  }

  function Notify(s: Conn, e: Event, n: nat): Conn { Reenter(Log(s, e), n) }

  // ---- close, abort_connect, the two disconnects ----

  function ClosedOf(fd: Option<nat>): seq<Event> { if fd.Some? then [Closed(fd.value)] else [] }

  function Close(s: Conn): Conn {
    s.(host := None, port := 0,
       connectCallback := None, pendingDisconnectCallback := None, disconnectCallback := None,
       resolvePending := false, address := None, pendingFd := None, fd := None,
       log := s.log + ClosedOf(s.pendingFd) + ClosedOf(s.fd))
  }

  function Abort(s: Conn, result: ConnectResult, n: nat): Conn
    requires s.connectCallback.Some?
  {
    Notify(Close(s), Told(s.connectCallback.value, result), n)
  }

  function Drop(s: Conn, reason: Reason, n: nat): Conn
    requires s.disconnectCallback.Some?
  {
    Notify(Close(s), Lost(s.disconnectCallback.value, reason), n)
  }

  /** The public `disconnect`; n and m count the guarded calls of its two callbacks. */
  function Disconnect(s: Conn, guarded: bool, n: nat, m: nat): Conn {
    if guarded || s.host.None? then s
    else
      var t := Close(s);
      var u := if s.connectCallback.Some? then Notify(t, Told(s.connectCallback.value, AbortRequested), n) else t;
      if s.disconnectCallback.Some? then Notify(u, Lost(s.disconnectCallback.value, Requested), m) else u
  }

  // ---- connect ----

  datatype ConnectArgs = ConnectArgs(callback: bool, host: Option<string>, port: Word, disconnectCallback: bool)

  predicate Usable(a: ConnectArgs) { a.host.Some? && a.host.value != "" && a.port != 0 && a.disconnectCallback }

  function Connect(s: Conn, guarded: bool, a: ConnectArgs, n: nat): Conn {
    if !a.callback then s
    else if guarded then Refuse(s, NonReentrant)
    else if !Usable(a) then Reenter(Refuse(s, InvalidArgument), n)
    else if s.host.Some? then Reenter(Refuse(s, AlreadyConnected), n)
    else
      Log(s.(host := a.host, port := a.port, connectCallback := Some(s.tickets),
             pendingDisconnectCallback := Some(s.tickets), tickets := s.tickets + 1),
          Accepted(s.tickets))
  }

  // ---- The resolver ----

  /** A call of the resolve callback, for the question that was asked `age` questions before the
      latest one. */
  datatype Answer = Answer(age: nat, found: Option<Address>)

  /** The filter of the resolve callback: it has kept 32 bits of the serial of its question. */
  predicate Takes(s: Conn, a: Answer)
    requires a.age < s.resolves
  {
    s.resolvePending && (s.resolves - a.age) % RESOLVE_IDS == s.resolveId
  }

  function Deliver(s: Conn, a: Answer, n: nat): Conn
    requires s.resolvePending ==> s.connectCallback.Some?
  {
    if a.age >= s.resolves then s // there was no such question
    else
      var t := Log(s, Answered(s.resolves - a.age, a.found));
      if !Takes(s, a) then t
      else if a.found.None? then Abort(t, ResolveFailed, n)
      else t.(resolvePending := false, address := a.found)
  }

  function DeliverAll(s: Conn, answers: seq<Answer>, n: nat): (t: Conn)
    requires s.resolvePending ==> s.connectCallback.Some?
    ensures t.resolvePending ==> t.connectCallback.Some?
  {
    if answers == [] then s
    else
      var t := DeliverAll(s, answers[..|answers| - 1], n);
      DeliverAnswers(t, answers[|answers| - 1], n);
      Deliver(t, answers[|answers| - 1], n)
  }

  lemma DeliverAnswers(s: Conn, a: Answer, n: nat)
    requires s.resolvePending ==> s.connectCallback.Some?
    ensures var t := Deliver(s, a, n); t.resolvePending ==> t.connectCallback.Some?
  {
    if a.age < s.resolves && Takes(s, a) && a.found.None? {
      ReenterKeeps(Log(Close(Log(s, Answered(s.resolves - a.age, a.found))),
                       Told(s.connectCallback.value, ResolveFailed)), n);
    }
  }

  lemma {:induction false} ReenterKeeps(s: Conn, n: nat)
    ensures Reenter(s, n) == s.(tickets := s.tickets + n, log := Reenter(s, n).log)
  {
    if n > 0 { ReenterKeeps(s, n - 1); }
  }

  // ---- tick ----

  /** What the calls of the operating system return while a connection is dialed. */
  datatype Dial = Dial(socket: Option<nat>, getFlags: bool, setFlags: bool, connect: bool)

  /** What select and getsockopt say about the connection. */
  datatype Wait = SelectFailed | InProgress | OptionFailed | Broken | Ready

  /** What one call of the receive hook leads to. */
  datatype Received = Continue | Stop | Dropped(reason: Reason)

  /** The oracles of one tick: `hook` is the reason for which the tick hook drops a connection,
      `answers` are the calls of resolve callbacks inside of `resolve`, `told` and `lost` count
      the guarded calls of the connect and the disconnect callback. */
  datatype TickEnv = TickEnv(hook: Option<Reason>, answers: seq<Answer>, dial: Dial, dialedAt: int, now: int,
                             wait: Wait, first: Received, more: seq<Received>, told: nat, lost: nat)

  /** A state, and whether the tick goes on. */
  datatype Stepped = Stepped(conn: Conn, go: bool)

  /** The next question to the resolver. */
  function Asking(s: Conn): Conn
    requires s.connectCallback.Some?
  {
    s.(resolvePending := true, resolveId := (s.resolveId + 1) % RESOLVE_IDS, resolves := s.resolves + 1,
       log := s.log + [Asked(s.resolves + 1, s.connectCallback.value)])
  }

  function Ask(s: Conn, answers: seq<Answer>, n: nat): Conn
    requires Ok(s) && s.connectCallback.Some?
  {
    if PhaseOf(s) != Fresh then s else DeliverAll(Asking(s), answers, n)
  }

  function DialNow(s: Conn, d: Dial, at: int, n: nat): Stepped
    requires s.connectCallback.Some? && s.address.Some?
  {
    if s.address.value.family == OtherFamily then Stepped(Abort(s, InvalidAddressType, n), false)
    else if d.socket.None? then Stepped(Abort(s, SocketCreateFailed, n), false)
    else
      var t := Log(s.(pendingFd := d.socket), Opened(d.socket.value));
      if !d.getFlags then Stepped(Abort(t, SocketGetFlagsFailed, n), false)
      else if !d.setFlags then Stepped(Abort(t, SocketSetFlagsFailed, n), false)
      else
        var u := Log(t, Dialed(s.connectCallback.value, s.address.value));
        if !d.connect then Stepped(Abort(u, SocketConnectFailed, n), false)
        else Stepped(u.(address := None, deadline := at + CONNECT_TIMEOUT), true)
  }

  function AwaitConnection(s: Conn, w: Wait, now: int, n: nat): Stepped
    requires s.connectCallback.Some?
  {
    if now >= s.deadline then Stepped(Abort(s, Timeout, n), false)
    else
      match w
      case SelectFailed => Stepped(Abort(s, SocketSelectFailed, n), false)
      case InProgress => Stepped(s, false)
      case OptionFailed => Stepped(Abort(s, SocketGetOptionFailed, n), false)
      case Broken => Stepped(Abort(s, SocketConnectAsyncFailed, n), false)
      case Ready =>
        Stepped(Notify(s.(fd := s.pendingFd, pendingFd := None, connectCallback := None,
                          disconnectCallback := s.pendingDisconnectCallback, pendingDisconnectCallback := None),
                       Told(s.connectCallback.value, Connected), n), true)
  }

  /** The part of the tick that works on a connection that is not there yet. */
  function Advance(s: Conn, e: TickEnv): Stepped
    requires Ok(s) && s.connectCallback.Some?
  {
    var t := Ask(s, e.answers, e.told);
    if t.pendingFd.None? && t.address.None? then Stepped(t, false)
    else
      AskKeeps(s, e.answers, e.told);
      var u := if t.pendingFd.None? then DialNow(t, e.dial, e.dialedAt, e.told) else Stepped(t, true);
      if u.go then AwaitConnection(u.conn, e.wait, e.now, e.told) else u
  }

  function ReceiveOnce(s: Conn, r: Received, n: nat): Stepped {
    match r
    case Continue => Stepped(s, true)
    case Stop => Stepped(s, false)
    case Dropped(reason) => Stepped(if s.disconnectCallback.Some? then Drop(s, reason, n) else s, false)
  }

  /** The receive loop, which runs until the hook stops it, the connection is gone, or time is up. */
  function ReceiveLoop(s: Conn, rs: seq<Received>, n: nat): Conn
    decreases |rs|
  {
    if rs == [] || s.fd.None? then s
    else
      var t := ReceiveOnce(s, rs[0], n);
      if t.go then ReceiveLoop(t.conn, rs[1..], n) else t.conn
  }

  function Tick(s: Conn, guarded: bool, e: TickEnv): Conn
    requires Ok(s)
  {
    if guarded || s.host.None? then s
    else
      var t := if e.hook.Some? && s.disconnectCallback.Some? then Drop(s, e.hook.value, e.lost) else s;
      HookKeeps(s, e);
      var u := if t.host.Some? && t.fd.None? then Advance(t, e) else Stepped(t, true);
      if u.go then ReceiveLoop(u.conn, [e.first] + e.more, e.lost) else u.conn
  }

  // ---- The phases are kept ----

  lemma HookKeeps(s: Conn, e: TickEnv)
    requires Ok(s) && s.host.Some?
    ensures var t := if e.hook.Some? && s.disconnectCallback.Some? then Drop(s, e.hook.value, e.lost) else s;
            Ok(t) && (t.host.Some? && t.fd.None? ==> t.connectCallback.Some?)
  {
    if s.disconnectCallback.Some? && e.hook.Some? {
      ReenterKeeps(Log(Close(s), Lost(s.disconnectCallback.value, e.hook.value)), e.lost);
    }
  }

  lemma AbortKeeps(s: Conn, result: ConnectResult, n: nat)
    requires s.connectCallback.Some? && s.resolveId == s.resolves % RESOLVE_IDS
    ensures Ok(Abort(s, result, n)) && PhaseOf(Abort(s, result, n)) == Idle
    ensures Abort(s, result, n).resolves == s.resolves
  {
    ReenterKeeps(Log(Close(s), Told(s.connectCallback.value, result)), n);
  }

  lemma DropKeeps(s: Conn, reason: Reason, n: nat)
    requires s.disconnectCallback.Some? && s.resolveId == s.resolves % RESOLVE_IDS
    ensures Ok(Drop(s, reason, n)) && PhaseOf(Drop(s, reason, n)) == Idle
    ensures Drop(s, reason, n).resolves == s.resolves
  {
    ReenterKeeps(Log(Close(s), Lost(s.disconnectCallback.value, reason)), n);
  }

  lemma DeliverKeeps(s: Conn, a: Answer, n: nat)
    requires Ok(s) && PhaseOf(s) in {Idle, Resolving, Resolved}
    ensures var t := Deliver(s, a, n);
            Ok(t) && PhaseOf(t) in {Idle, Resolving, Resolved} && t.resolves == s.resolves
  {
    if a.age < s.resolves && Takes(s, a) && a.found.None? {
      AbortKeeps(Log(s, Answered(s.resolves - a.age, a.found)), ResolveFailed, n);
    }
  }

  lemma {:induction false} DeliverAllKeeps(s: Conn, answers: seq<Answer>, n: nat)
    requires Ok(s) && PhaseOf(s) in {Idle, Resolving, Resolved}
    ensures var t := DeliverAll(s, answers, n);
            Ok(t) && PhaseOf(t) in {Idle, Resolving, Resolved} && t.resolves == s.resolves
  {
    if answers == [] {
    } else {
      DeliverAllKeeps(s, answers[..|answers| - 1], n);
      DeliverKeeps(DeliverAll(s, answers[..|answers| - 1], n), answers[|answers| - 1], n);
    }
  }

  lemma AskKeeps(s: Conn, answers: seq<Answer>, n: nat)
    requires Ok(s) && s.connectCallback.Some?
    ensures Ok(Ask(s, answers, n)) && PhaseOf(Ask(s, answers, n)) in {Idle, Resolving, Resolved, Dialing}
  {
    if PhaseOf(s) == Fresh {
      AskingOk(s);
      DeliverAllKeeps(Asking(s), answers, n);
    }
  }

  lemma AskingOk(s: Conn)
    requires Ok(s) && PhaseOf(s) == Fresh
    ensures Ok(Asking(s)) && PhaseOf(Asking(s)) == Resolving
  {
    NextResolveId(s.resolves);
  }

  lemma NextResolveId(n: nat)
    ensures (n % RESOLVE_IDS + 1) % RESOLVE_IDS == (n + 1) % RESOLVE_IDS
  {
  }

  lemma ConnectKeeps(s: Conn, guarded: bool, a: ConnectArgs, n: nat)
    requires Ok(s)
    ensures Ok(Connect(s, guarded, a, n))
  {
    ReenterKeeps(Refuse(s, InvalidArgument), n);
    ReenterKeeps(Refuse(s, AlreadyConnected), n);
  }

  lemma DisconnectKeeps(s: Conn, guarded: bool, n: nat, m: nat)
    requires Ok(s)
    ensures Ok(Disconnect(s, guarded, n, m))
  {
    if s.connectCallback.Some? { AbortKeeps(s, AbortRequested, n); }
    if s.disconnectCallback.Some? { DropKeeps(s, Requested, m); }
  }

  lemma DialKeeps(s: Conn, d: Dial, at: int, n: nat)
    requires Ok(s) && PhaseOf(s) == Resolved
    ensures var t := DialNow(s, d, at, n); Ok(t.conn) && PhaseOf(t.conn) == if t.go then Dialing else Idle
  {
    var t := s.(pendingFd := d.socket);
    AbortKeeps(s, InvalidAddressType, n);
    AbortKeeps(s, SocketCreateFailed, n);
    if d.socket.Some? {
      var u := Log(t, Opened(d.socket.value));
      AbortKeeps(u, SocketGetFlagsFailed, n);
      AbortKeeps(u, SocketSetFlagsFailed, n);
      AbortKeeps(Log(u, Dialed(s.connectCallback.value, s.address.value)), SocketConnectFailed, n);
    }
  }

  lemma AwaitKeeps(s: Conn, w: Wait, now: int, n: nat)
    requires Ok(s) && PhaseOf(s) == Dialing
    ensures Ok(AwaitConnection(s, w, now, n).conn)
  {
    if now >= s.deadline {
      AbortKeeps(s, Timeout, n);
    } else {
      match w
      case SelectFailed => AbortKeeps(s, SocketSelectFailed, n);
      case InProgress =>
      case OptionFailed => AbortKeeps(s, SocketGetOptionFailed, n);
      case Broken => AbortKeeps(s, SocketConnectAsyncFailed, n);
      case Ready =>
        ReenterKeeps(Log(s.(fd := s.pendingFd, pendingFd := None, connectCallback := None,
                            disconnectCallback := s.pendingDisconnectCallback, pendingDisconnectCallback := None),
                         Told(s.connectCallback.value, Connected)), n);
    }
  }

  lemma AdvanceKeeps(s: Conn, e: TickEnv)
    requires Ok(s) && s.connectCallback.Some?
    ensures Ok(Advance(s, e).conn)
  {
    AskKeeps(s, e.answers, e.told);
    var t := Ask(s, e.answers, e.told);
    if t.pendingFd.Some? || t.address.Some? {
      if t.pendingFd.None? { DialKeeps(t, e.dial, e.dialedAt, e.told); }
      var u := if t.pendingFd.None? then DialNow(t, e.dial, e.dialedAt, e.told) else Stepped(t, true);
      if u.go { AwaitKeeps(u.conn, e.wait, e.now, e.told); }
    }
  }

  lemma {:induction false} ReceiveKeeps(s: Conn, rs: seq<Received>, n: nat)
    requires Ok(s)
    ensures Ok(ReceiveLoop(s, rs, n))
    decreases |rs|
  {
    if rs != [] && s.fd.Some? {
      match rs[0]
      case Continue => ReceiveKeeps(s, rs[1..], n);
      case Stop =>
      case Dropped(reason) => DropKeeps(s, reason, n);
    }
  }

  lemma TickKeeps(s: Conn, guarded: bool, e: TickEnv)
    requires Ok(s)
    ensures Ok(Tick(s, guarded, e))
  {
    if !guarded && s.host.Some? {
      HookKeeps(s, e);
      var t := if e.hook.Some? && s.disconnectCallback.Some? then Drop(s, e.hook.value, e.lost) else s;
      if t.host.Some? && t.fd.None? { AdvanceKeeps(t, e); }
      var u := if t.host.Some? && t.fd.None? then Advance(t, e) else Stepped(t, true);
      if u.go { ReceiveKeeps(u.conn, [e.first] + e.more, e.lost); }
    }
  }

  lemma AnswerKeeps(s: Conn, a: Answer, n: nat)
    requires Ok(s)
    ensures Ok(Deliver(s, a, n))
  {
    if a.age < s.resolves && Takes(s, a) && a.found.None? {
      AbortKeeps(Log(s, Answered(s.resolves - a.age, a.found)), ResolveFailed, n);
    }
  }
}
