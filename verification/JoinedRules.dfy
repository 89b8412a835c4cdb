/** The Modbus TCP client with both of its halves: the generic client that connects, ticks and closes, and
    the hooks by which the Modbus half sends requests and resolves responses. */
module JoinedRules {
  import opened Bytes
  import opened ModbusCommon
  import opened ModbusRules
  import opened TcpCallbacks
  import T = TcpRules
  import CR = ClientRules
  import CS = ClientSafety
  import ClientRuns
  import CF = ClientFraming
  import SF = ServerFraming

  /** What a connect or disconnect callback finds: the event that it is told, and the Modbus half. */
  datatype View = View(event: T.Event, modbus: CR.State)

  datatype Client = Client(tcp: T.Conn, modbus: CR.State, views: seq<View>)

  /** The Modbus half takes the client for connected exactly while there is a connected socket. */
  ghost predicate Ok(c: Client) {
    T.Ok(c.tcp) && ClientRuns.Inv(c.modbus) && (c.modbus.connected <==> c.tcp.fd.Some?)
  }

  /** What a callback does with the client: it calls `connect`, in vain, and `transact`. */
  datatype Doing = Doing(connects: nat, transacts: seq<CR.Args>)

  function Tell(views: seq<View>, e: T.Event, modbus: CR.State): seq<View> { views + [View(e, modbus)] }

  lemma {:induction false} CallsKeep(s: CR.State, calls: seq<CR.Args>)
    requires ClientRuns.Inv(s)
    ensures var t := CR.TransactAll(s, calls); ClientRuns.Inv(t) && t.connected == s.connected
  {
    if calls == [] {
    } else {
      var n := |calls| - 1;
      CallsKeep(s, calls[..n]);
      CS.ApplyKeeps(Host, CR.TransactAll(s, calls[..n]), CS.Transact(calls[n]));
    }
  }

  /** The private `disconnect`: the socket is closed and the Modbus half is aborted, as its state already
      shows; then the disconnect callback runs. */
  function Lose(c: Client, modbus: CR.State, reason: T.Reason, d: Doing): Client
    requires c.tcp.disconnectCallback.Some?
  {
    Client(T.Drop(c.tcp, reason, d.connects), CR.TransactAll(modbus, d.transacts),
           Tell(c.views, T.Lost(c.tcp.disconnectCallback.value, reason), modbus))
  }

  lemma LoseKeeps(c: Client, modbus: CR.State, reason: T.Reason, d: Doing)
    requires T.Ok(c.tcp) && c.tcp.disconnectCallback.Some? && ClientRuns.Inv(modbus) && !modbus.connected
    ensures Ok(Lose(c, modbus, reason, d)) && Lose(c, modbus, reason, d).tcp.host.None?
  {
    T.DropKeeps(c.tcp, reason, d.connects);
    CallsKeep(modbus, d.transacts);
  }

  // ---- tick ----

  /** One call of the receive hook: the memory of the pending transaction, and what its calls find. */
  datatype Round = Round(memory: nat -> Byte, recv: CR.RecvEnv)

  /** The oracles of one tick; `dialing` are those of the generic client, `closing` the calls of
      `transact` while a failed attempt is closed. */
  datatype TickEnv = TickEnv(tick: CR.TickEnv, dialing: T.TickEnv, first: Round, more: seq<Round>,
                             told: Doing, lost: Doing, closing: CR.Calls)

  lemma TickHookStays(s: CR.State, e: CR.TickEnv)
    requires ClientRuns.Inv(s)
    ensures ClientRuns.Inv(CR.TickHook(s, e)) && (CR.TickHook(s, e).connected ==> s.connected)
  {
    ClientRuns.TickKeeps(s, e);
    CF.FinishStays(s, TIMEOUT, e.calls(0));
    var t := CR.CheckTimeout(s, e.now, e.calls(0));
    if t.pending.None? && t.queue != [] && !e.sent {
      CF.CloseDisconnects(CR.FinishPending(CR.Start(t, e.startedAt), SEND_FAILED, e.calls(1)), e.calls, 2);
    }
  }

  /** The tick hook; a send that fails drops the connection. */
  function Hook(c: Client, e: TickEnv): Client
    requires Ok(c)
  {
    var m := CR.TickHook(c.modbus, e.tick);
    if c.modbus.connected && !m.connected then Lose(c, m, T.SendBroken, e.lost) else c.(modbus := m)
  }

  lemma HookKeeps(c: Client, e: TickEnv)
    requires Ok(c)
    ensures Ok(Hook(c, e))
  {
    var m := CR.TickHook(c.modbus, e.tick);
    TickHookStays(c.modbus, e.tick);
    if c.modbus.connected && !m.connected { LoseKeeps(c, m, T.SendBroken, e.lost); }
  }

  /** The connect callback, if there was one between two states of the generic client: it finds the Modbus
      half connected, or closed after a failure. */
  function Inform(c: Client, tcp: T.Conn, closing: CR.Calls, d: Doing): Client {
    var calls := Callbacks(tcp.log);
    if |calls| <= |Callbacks(c.tcp.log)| then c.(tcp := tcp)
    else
      var m := if tcp.fd.Some? then c.modbus.(connected := true) else CR.Close(c.modbus, closing, 0);
      Client(tcp, CR.TransactAll(m, d.transacts), Tell(c.views, calls[|calls| - 1], m))
  }

  /** One call of the receive hook may stop the loop or drop the connection. */
  function ReasonOf(s: CR.State, e: CR.RecvEnv): T.Reason {
    if |s.rx.header| < HEADER_LENGTH then ReceiveReason(e.recv)
    else if |s.rx.header| > HEADER_LENGTH || CR.CheckHeader(s.rx.header) != CR.Good then T.ProtocolError
    else if 1 + |s.rx.payload| < LengthOf(s.rx.header) then ReceiveReason(e.recv)
    else if e.readable.IoctlFailed? then T.IoctlBroken
    else if CF.Trails(s.rx, e) && !e.trailing.Data? then ReceiveReason(e.trailing)
    else T.ProtocolError
  }

  function ReceiveReason(r: SF.Recv): T.Reason { if r.Closed? then T.DisconnectedByPeer else T.ReceiveBroken }

  function Hooked(order: ByteOrder, c: Client, r: Round): CR.Hooked
    requires Ok(c)
  {
    CR.RecvHook(order, c.modbus, CS.Content(r.memory, c.modbus), r.recv)
  }

  /** The receive loop over the calls for which there is time. */
  function Receive(order: ByteOrder, c: Client, rounds: seq<Round>, lost: Doing): Client
    requires Ok(c)
    decreases |rounds|
  {
    if rounds == [] || c.tcp.fd.None? then c
    else
      var h := Hooked(order, c, rounds[0]);
      ClientRuns.RecvKeeps(order, c.modbus, CS.Content(rounds[0].memory, c.modbus), rounds[0].recv);
      if !h.state.connected then Lose(c, h.state, ReasonOf(c.modbus, rounds[0].recv), lost)
      else if h.more then Receive(order, c.(modbus := h.state), rounds[1..], lost)
      else c.(modbus := h.state)
  }

  lemma {:induction false} ReceiveKeeps(order: ByteOrder, c: Client, rounds: seq<Round>, lost: Doing)
    requires Ok(c)
    ensures Ok(Receive(order, c, rounds, lost))
    decreases |rounds|
  {
    if rounds == [] || c.tcp.fd.None? {
    } else {
      var h := Hooked(order, c, rounds[0]);
      ClientRuns.RecvKeeps(order, c.modbus, CS.Content(rounds[0].memory, c.modbus), rounds[0].recv);
      if !h.state.connected {
        LoseKeeps(c, h.state, ReasonOf(c.modbus, rounds[0].recv), lost);
      } else if h.more {
        ReceiveKeeps(order, c.(modbus := h.state), rounds[1..], lost);
      }
    }
  }

  /** The part of the tick that works on a connection that is not there yet. */
  function Dial(c: Client, e: TickEnv): Client
    requires Ok(c) && c.tcp.connectCallback.Some?
  {
    Inform(c, T.Advance(c.tcp, e.dialing.(told := e.told.connects)).conn, e.closing, e.told)
  }

  lemma InformKeeps(c: Client, tcp: T.Conn, closing: CR.Calls, d: Doing)
    requires Ok(c) && T.Ok(tcp) && Tells(c.tcp, tcp)
    ensures Ok(Inform(c, tcp, closing, d))
  {
    if |Callbacks(tcp.log)| > |Callbacks(c.tcp.log)| {
      if tcp.fd.Some? {
        CallsKeep(c.modbus.(connected := true), d.transacts);
      } else {
        ClientRuns.CloseKeeps(c.modbus, closing, 0);
        CallsKeep(CR.Close(c.modbus, closing, 0), d.transacts);
      }
    }
  }

  lemma DialKeeps(c: Client, e: TickEnv)
    requires Ok(c) && c.tcp.connectCallback.Some?
    ensures Ok(Dial(c, e))
  {
    var env := e.dialing.(told := e.told.connects);
    T.AdvanceKeeps(c.tcp, env);
    AdvanceTells(c.tcp, env);
    InformKeeps(c, T.Advance(c.tcp, env).conn, e.closing, e.told);
  }

  /** Whether there is a connection to wait for. */
  predicate Attempts(c: Client) { c.tcp.host.Some? && c.tcp.fd.None? }

  /** The client when the receive loop begins. */
  function Dialed(c: Client, e: TickEnv): (t: Client)
    requires Ok(c)
    ensures Ok(t)
  {
    HookKeeps(c, e);
    var t := Hook(c, e);
    if Attempts(t) then
      DialKeeps(t, e);
      Dial(t, e)
    else t
  }

  function Tick(order: ByteOrder, c: Client, guarded: bool, e: TickEnv): Client
    requires Ok(c)
  {
    if guarded || c.tcp.host.None? then c else Receive(order, Dialed(c, e), [e.first] + e.more, e.lost)
  }

  // ---- The other calls ----

  /** A call of `connect`; a refused one runs its connect callback at once. */
  function Connect(c: Client, guarded: bool, a: T.ConnectArgs, told: Doing): Client {
    var refused := a.callback && (guarded || !T.Usable(a) || c.tcp.host.Some?);
    c.(tcp := T.Connect(c.tcp, guarded, a, told.connects),
       modbus := if refused then CR.TransactAll(c.modbus, told.transacts) else c.modbus)
  }

  /** The public `disconnect`. */
  function Disconnect(c: Client, guarded: bool, told: Doing, lost: Doing, closing: CR.Calls): Client {
    var tcp := T.Disconnect(c.tcp, guarded, told.connects, lost.connects);
    if guarded || c.tcp.host.None? then c
    else
      var m := CR.Close(c.modbus, closing, 0);
      if c.tcp.connectCallback.Some? then
        Client(tcp, CR.TransactAll(m, told.transacts),
               Tell(c.views, T.Told(c.tcp.connectCallback.value, T.AbortRequested), m))
      else if c.tcp.disconnectCallback.Some? then
        Client(tcp, CR.TransactAll(m, lost.transacts),
               Tell(c.views, T.Lost(c.tcp.disconnectCallback.value, T.Requested), m))
      else c.(tcp := tcp, modbus := m)
  }

  datatype Op =
    | Connecting(guarded: bool, args: T.ConnectArgs, told: Doing)
    | Disconnecting(guarded: bool, told: Doing, lost: Doing, closing: CR.Calls)
    | Ticking(guarded: bool, env: TickEnv)
    | Answering(answer: T.Answer, told: Doing, closing: CR.Calls)
    | Transacting(transaction: CR.Args)

  function Apply(order: ByteOrder, c: Client, op: Op): Client
    requires Ok(c)
  {
    match op
    case Connecting(g, a, told) => Connect(c, g, a, told)
    case Disconnecting(g, told, lost, closing) => Disconnect(c, g, told, lost, closing)
    case Ticking(g, e) => Tick(order, c, g, e)
    case Answering(a, told, closing) => Inform(c, T.Deliver(c.tcp, a, told.connects), closing, told)
    case Transacting(a) => c.(modbus := CR.Transact(c.modbus, a))
  }

  lemma DisconnectKeeps(c: Client, guarded: bool, told: Doing, lost: Doing, closing: CR.Calls)
    requires Ok(c)
    ensures Ok(Disconnect(c, guarded, told, lost, closing))
  {
    T.DisconnectKeeps(c.tcp, guarded, told.connects, lost.connects);
    if !guarded && c.tcp.host.Some? {
      var m := CR.Close(c.modbus, closing, 0);
      ClientRuns.CloseKeeps(c.modbus, closing, 0);
      CallsKeep(m, told.transacts);
      CallsKeep(m, lost.transacts);
      DisconnectIdles(c.tcp, told.connects, lost.connects);
    }
  }

  lemma DisconnectIdles(s: T.Conn, n: nat, m: nat)
    requires T.Ok(s) && s.host.Some?
    ensures T.Disconnect(s, false, n, m).fd.None?
  {
    if s.connectCallback.Some? { T.AbortKeeps(s, T.AbortRequested, n); }
    if s.disconnectCallback.Some? { T.DropKeeps(s, T.Requested, m); }
  }

  lemma ConnectKeepsSocket(s: T.Conn, guarded: bool, a: T.ConnectArgs, n: nat)
    ensures T.Connect(s, guarded, a, n).fd == s.fd
  {
    T.ReenterKeeps(T.Refuse(s, T.InvalidArgument), n);
    T.ReenterKeeps(T.Refuse(s, T.AlreadyConnected), n);
  }

  lemma ApplyKeeps(order: ByteOrder, c: Client, op: Op)
    requires Ok(c)
    ensures Ok(Apply(order, c, op))
  {
    match op
    case Connecting(g, a, told) =>
      T.ConnectKeeps(c.tcp, g, a, told.connects);
      ConnectKeepsSocket(c.tcp, g, a, told.connects);
      CallsKeep(c.modbus, told.transacts);
    case Disconnecting(g, told, lost, closing) => DisconnectKeeps(c, g, told, lost, closing);
    case Ticking(g, e) =>
      if !g && c.tcp.host.Some? { ReceiveKeeps(order, Dialed(c, e), [e.first] + e.more, e.lost); }
    case Answering(a, told, closing) =>
      T.AnswerKeeps(c.tcp, a, told.connects);
      DeliverTells(c.tcp, a, told.connects, T.Deliver(c.tcp, a, told.connects));
      InformKeeps(c, T.Deliver(c.tcp, a, told.connects), closing, told);
    case Transacting(a) => CS.ApplyKeeps(order, c.modbus, CS.Transact(a));
  }
}
