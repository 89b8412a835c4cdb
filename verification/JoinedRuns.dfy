/** What holds over whole runs of the joined Modbus TCP client. */
module JoinedRuns {
  import opened Bytes
  import opened ModbusCommon
  import opened ModbusRules
  import opened TcpCallbacks
  import opened JoinedRules
  import T = TcpRules
  import TR = TcpRuns
  import CR = ClientRules
  import CS = ClientSafety
  import CL = ClientLog
  import ClientRuns

  ghost function Exec(order: ByteOrder, firstId: Word, ops: seq<Op>): (c: Client)
    ensures Ok(c)
  {
    if ops == [] then Client(T.NEW, CS.Initial(firstId), [])
    else
      var c := Exec(order, firstId, ops[..|ops| - 1]);
      ApplyKeeps(order, c, ops[|ops| - 1]);
      Apply(order, c, ops[|ops| - 1])
  }

  // ---- The generic client of a joined run is the generic client ----

  /** What the calls of the receive hook lead to, up to the first that ends the loop. */
  function Outcomes(order: ByteOrder, c: Client, rounds: seq<Round>): (rs: seq<T.Received>)
    requires Ok(c)
    ensures rs != []
    decreases |rounds|
  {
    if rounds == [] || c.tcp.fd.None? then [T.Stop]
    else
      var h := Hooked(order, c, rounds[0]);
      ClientRuns.RecvKeeps(order, c.modbus, CS.Content(rounds[0].memory, c.modbus), rounds[0].recv);
      if !h.state.connected then [T.Dropped(ReasonOf(c.modbus, rounds[0].recv))]
      else if h.more then [T.Continue] + Outcomes(order, c.(modbus := h.state), rounds[1..])
      else [T.Stop]
  }

  lemma {:induction false} ReceiveRefines(order: ByteOrder, c: Client, rounds: seq<Round>, lost: Doing)
    requires Ok(c)
    ensures Receive(order, c, rounds, lost).tcp == T.ReceiveLoop(c.tcp, Outcomes(order, c, rounds), lost.connects)
    decreases |rounds|
  {
    if rounds == [] || c.tcp.fd.None? {
    } else {
      var h := Hooked(order, c, rounds[0]);
      ClientRuns.RecvKeeps(order, c.modbus, CS.Content(rounds[0].memory, c.modbus), rounds[0].recv);
      if h.state.connected && h.more {
        var d := c.(modbus := h.state);
        ReceiveRefines(order, d, rounds[1..], lost);
        assert Outcomes(order, c, rounds)[1..] == Outcomes(order, d, rounds[1..]);
      }
    }
  }

  /** The oracles that the hooks are to the generic client in one tick. */
  function TcpEnv(order: ByteOrder, c: Client, e: TickEnv): T.TickEnv
    requires Ok(c)
  {
    var drops := c.modbus.connected && !CR.TickHook(c.modbus, e.tick).connected;
    var rs := Outcomes(order, Dialed(c, e), [e.first] + e.more);
    e.dialing.(hook := if drops then Some(T.SendBroken) else None, first := rs[0], more := rs[1..],
               told := e.told.connects, lost := e.lost.connects)
  }

  lemma HookRefines(order: ByteOrder, c: Client, e: TickEnv)
    requires Ok(c)
    ensures var env := TcpEnv(order, c, e);
            Hook(c, e).tcp ==
            if env.hook.Some? && c.tcp.disconnectCallback.Some? then T.Drop(c.tcp, env.hook.value, env.lost) else c.tcp
  {
  }

  lemma AdvanceSame(s: T.Conn, e: T.TickEnv, f: T.TickEnv)
    requires T.Ok(s) && s.connectCallback.Some?
    requires f == e.(hook := f.hook, first := f.first, more := f.more, lost := f.lost)
    ensures T.Advance(s, e) == T.Advance(s, f)
  {
  }

  /** A tick of the joined client is, for the generic client, a tick in which the hooks do what the Modbus
      half does. */
  lemma TickRefines(order: ByteOrder, c: Client, guarded: bool, e: TickEnv)
    requires Ok(c)
    ensures Tick(order, c, guarded, e).tcp == T.Tick(c.tcp, guarded, TcpEnv(order, c, e))
  {
    if !guarded && c.tcp.host.Some? {
      var env := TcpEnv(order, c, e);
      var t, u := Hook(c, e), Dialed(c, e);
      HookKeeps(c, e);
      HookRefines(order, c, e);
      ReceiveRefines(order, u, [e.first] + e.more, e.lost);
      assert [env.first] + env.more == Outcomes(order, u, [e.first] + e.more);
      if Attempts(t) {
        AdvanceSame(t.tcp, e.dialing.(told := e.told.connects), env);
        AdvanceTells(t.tcp, env);
      }
    }
  }

  /** The call of the generic client that a call of the joined client is, if it is one. */
  function TcpOp(order: ByteOrder, c: Client, op: Op): Option<TR.Op>
    requires Ok(c)
  {
    match op
    case Connecting(g, a, told) => Some(TR.Connecting(g, a, told.connects))
    case Disconnecting(g, told, lost, _) => Some(TR.Disconnecting(g, told.connects, lost.connects))
    case Ticking(g, e) => Some(TR.Ticking(g, TcpEnv(order, c, e)))
    case Answering(a, told, _) => Some(TR.Answering(a, told.connects))
    case Transacting(_) => None
  }

  lemma ApplyRefines(order: ByteOrder, c: Client, op: Op)
    requires Ok(c)
    ensures var o := TcpOp(order, c, op);
            Apply(order, c, op).tcp == if o.Some? then TR.Apply(c.tcp, o.value) else c.tcp
  {
    if op.Ticking? { TickRefines(order, c, op.guarded, op.env); }
  }

  /** The generic client of every run of the joined client goes through a run of its own, so all that holds
      over those holds here. */
  lemma {:induction false} TcpRefines(order: ByteOrder, firstId: Word, ops: seq<Op>) returns (tcpOps: seq<TR.Op>)
    ensures Exec(order, firstId, ops).tcp == TR.Exec(tcpOps)
  {
    if ops == [] {
      tcpOps := [];
    } else {
      var n := |ops| - 1;
      var before := TcpRefines(order, firstId, ops[..n]);
      var c := Exec(order, firstId, ops[..n]);
      var o := TcpOp(order, c, ops[n]);
      ApplyRefines(order, c, ops[n]);
      tcpOps := if o.Some? then before + [o.value] else before;
      if o.Some? { TR.ExecLast(before, o.value); }
    }
  }

  // ---- The Modbus half of a joined run is the Modbus client ----

  /** A state that the Modbus client comes to in some run of its own. */
  ghost predicate Reached(order: ByteOrder, firstId: Word, m: CR.State) {
    exists ops: seq<CS.Op> :: m == CS.Exec(order, firstId, ops)
  }

  /** From one state to a later one. */
  ghost predicate Goes(order: ByteOrder, firstId: Word, m: CR.State, n: CR.State) {
    ClientRuns.Inv(n) && Reached(order, firstId, n) && CL.Grows(m, n)
  }

  lemma ExecOne(order: ByteOrder, firstId: Word, ops: seq<CS.Op>, op: CS.Op, more: seq<CS.Op>, n: CR.State, o: CR.State)
    requires more == ops + [op] && n == CS.Exec(order, firstId, ops) && o == CS.Apply(order, n, op)
    ensures o == CS.Exec(order, firstId, more)
  {
    assert more[..|more| - 1] == ops;
  }

  lemma ReachedOn(order: ByteOrder, firstId: Word, n: CR.State, op: CS.Op, o: CR.State)
    requires Reached(order, firstId, n) && ClientRuns.Inv(n) && o == CS.Apply(order, n, op)
    ensures Reached(order, firstId, o)
  {
    var ops: seq<CS.Op> :| n == CS.Exec(order, firstId, ops);
    ExecOne(order, firstId, ops, op, ops + [op], n, o);
  }

  lemma StepGrows(order: ByteOrder, n: CR.State, op: CS.Op, o: CR.State)
    requires ClientRuns.Inv(n) && o == CS.Apply(order, n, op)
    ensures ClientRuns.Inv(o) && CL.Grows(n, o)
  {
    CS.ApplyKeeps(order, n, op);
    CL.ApplyGrows(order, n, op);
  }

  lemma GrowsTwice(m: CR.State, n: CR.State, o: CR.State)
    requires CL.Grows(m, n) && CL.Grows(n, o)
    ensures CL.Grows(m, o)
  {
  }

  lemma GoesOn(order: ByteOrder, firstId: Word, m: CR.State, n: CR.State, op: CS.Op, o: CR.State)
    requires Goes(order, firstId, m, n) && o == CS.Apply(order, n, op)
    ensures Goes(order, firstId, m, o)
  {
    ReachedOn(order, firstId, n, op, o);
    StepGrows(order, n, op, o);
    GrowsTwice(m, n, o);
  }

  lemma {:induction false} CallsGo(order: ByteOrder, firstId: Word, m: CR.State, n: CR.State, calls: seq<CR.Args>)
    requires Goes(order, firstId, m, n)
    ensures Goes(order, firstId, m, CR.TransactAll(n, calls))
  {
    if calls == [] {
    } else {
      var k := |calls| - 1;
      CallsGo(order, firstId, m, n, calls[..k]);
      GoesOn(order, firstId, m, CR.TransactAll(n, calls[..k]), CS.Transact(calls[k]), CR.TransactAll(n, calls));
    }
  }

  // ---- What the callbacks of the connection find ----

  /** Every transaction that was accepted so far has completed, in the order of acceptance. */
  ghost predicate Settled(m: CR.State) {
    && !m.connected && m.pending.None? && m.queue == []
    && ClientRuns.Completions(m.log) == CL.Acceptances(m.log)
  }

  /** The callback found an earlier state of the Modbus half, connected exactly if it was told Connected;
      every other callback found it settled. */
  ghost predicate Found(v: View, log: seq<CR.Event>) {
    && v.modbus.log <= log
    && (if v.event.Told? && v.event.result == T.Connected then v.modbus.connected else Settled(v.modbus))
  }

  function Events(views: seq<View>): seq<T.Event> { seq(|views|, i requires 0 <= i < |views| => views[i].event) }

  /** The callbacks that were recorded are those in the log, and found what they should. */
  ghost predicate Recorded(c: Client) {
    && Events(c.views) == Callbacks(c.tcp.log)
    && (forall i :: 0 <= i < |c.views| ==> Found(c.views[i], c.modbus.log))
    && (forall i, j :: 0 <= i < j < |c.views| ==> c.views[i].modbus.log <= c.views[j].modbus.log)
  }

  ghost predicate Good(order: ByteOrder, firstId: Word, c: Client) {
    Ok(c) && Reached(order, firstId, c.modbus) && CL.Tallied(c.modbus) && Recorded(c)
  }

  lemma GoodGoes(order: ByteOrder, firstId: Word, c: Client)
    requires Good(order, firstId, c)
    ensures Goes(order, firstId, c.modbus, c.modbus)
  {
  }

  /** A step without a callback. */
  lemma RecordsNothing(c: Client, tcp: T.Conn, n: CR.State)
    requires Recorded(c) && Callbacks(tcp.log) == Callbacks(c.tcp.log) && c.modbus.log <= n.log
    ensures Recorded(c.(tcp := tcp, modbus := n))
  {
    forall i | 0 <= i < |c.views| ensures Found(c.views[i], n.log) {
      assert Found(c.views[i], c.modbus.log);
    }
  }

  /** A step with one callback, which found the Modbus half in the state m. */
  lemma RecordsOne(c: Client, e: T.Event, tcp: T.Conn, m: CR.State, n: CR.State)
    requires Recorded(c) && Callbacks(tcp.log) == Callbacks(c.tcp.log) + [e]
    requires c.modbus.log <= m.log <= n.log && Found(View(e, m), n.log)
    ensures Recorded(Client(tcp, n, Tell(c.views, e, m)))
  {
    var views := Tell(c.views, e, m);
    assert Events(views) == Events(c.views) + [e];
    forall i | 0 <= i < |views| ensures Found(views[i], n.log) {
      if i < |c.views| { assert views[i] == c.views[i] && Found(c.views[i], c.modbus.log); }
    }
  }

  /** The end of a connection or of an attempt: the Modbus half is closed in the state m. */
  lemma EndGood(order: ByteOrder, firstId: Word, c: Client, e: T.Event, tcp: T.Conn, m: CR.State, calls: seq<CR.Args>)
    requires Good(order, firstId, c) && Goes(order, firstId, c.modbus, m) && !m.connected
    requires T.Ok(tcp) && tcp.fd.None? && Callbacks(tcp.log) == Callbacks(c.tcp.log) + [e]
    requires e.Lost? || (e.Told? && e.result != T.Connected)
    ensures Good(order, firstId, Client(tcp, CR.TransactAll(m, calls), Tell(c.views, e, m)))
  {
    var n := CR.TransactAll(m, calls);
    CL.SettledExactly(m);
    CL.CallsGrow(m, calls);
    CallsGo(order, firstId, c.modbus, m, calls);
    CallsKeep(m, calls);
    RecordsOne(c, e, tcp, m, n);
  }

  lemma LoseGood(order: ByteOrder, firstId: Word, c: Client, m: CR.State, reason: T.Reason, d: Doing)
    requires Good(order, firstId, c) && Goes(order, firstId, c.modbus, m) && !m.connected
    requires c.tcp.disconnectCallback.Some?
    ensures Good(order, firstId, Lose(c, m, reason, d))
  {
    T.DropKeeps(c.tcp, reason, d.connects);
    DropCalls(c.tcp, reason, d.connects);
    EndGood(order, firstId, c, T.Lost(c.tcp.disconnectCallback.value, reason), T.Drop(c.tcp, reason, d.connects), m,
            d.transacts);
  }

  lemma HookGood(order: ByteOrder, firstId: Word, c: Client, e: TickEnv)
    requires Good(order, firstId, c)
    ensures Good(order, firstId, Hook(c, e))
  {
    var m := CR.TickHook(c.modbus, e.tick);
    GoodGoes(order, firstId, c);
    GoesOn(order, firstId, c.modbus, c.modbus, CS.Tick(e.tick), m);
    TickHookStays(c.modbus, e.tick);
    if c.modbus.connected && !m.connected {
      LoseGood(order, firstId, c, m, T.SendBroken, e.lost);
    } else {
      RecordsNothing(c, c.tcp, m);
    }
  }

  /** The connect callback that is told Connected. */
  lemma ConnectedGood(order: ByteOrder, firstId: Word, c: Client, e: T.Event, tcp: T.Conn, calls: seq<CR.Args>)
    requires Good(order, firstId, c) && T.Ok(tcp) && tcp.fd.Some?
    requires Callbacks(tcp.log) == Callbacks(c.tcp.log) + [e] && e.Told? && e.result == T.Connected
    ensures var m := c.modbus.(connected := true);
            Good(order, firstId, Client(tcp, CR.TransactAll(m, calls), Tell(c.views, e, m)))
  {
    var m := c.modbus.(connected := true);
    var n := CR.TransactAll(m, calls);
    GoodGoes(order, firstId, c);
    GoesOn(order, firstId, c.modbus, c.modbus, CS.Connected, m);
    CallsGo(order, firstId, c.modbus, m, calls);
    CL.CallsGrow(m, calls);
    CallsKeep(m, calls);
    RecordsOne(c, e, tcp, m, n);
  }

  lemma InformGood(order: ByteOrder, firstId: Word, c: Client, tcp: T.Conn, closing: CR.Calls, d: Doing)
    requires Good(order, firstId, c) && T.Ok(tcp) && Tells(c.tcp, tcp)
    ensures Good(order, firstId, Inform(c, tcp, closing, d))
  {
    var before, calls := Callbacks(c.tcp.log), Callbacks(tcp.log);
    if |calls| <= |before| {
      RecordsNothing(c, tcp, c.modbus);
    } else if tcp.fd.Some? {
      ConnectedGood(order, firstId, c, calls[|calls| - 1], tcp, d.transacts);
    } else {
      var m := CR.Close(c.modbus, closing, 0);
      GoodGoes(order, firstId, c);
      GoesOn(order, firstId, c.modbus, c.modbus, CS.Closing(closing), m);
      ClientRuns.CloseKeeps(c.modbus, closing, 0);
      EndGood(order, firstId, c, calls[|calls| - 1], tcp, m, d.transacts);
    }
  }

  lemma DialedGood(order: ByteOrder, firstId: Word, c: Client, e: TickEnv)
    requires Good(order, firstId, c)
    ensures Good(order, firstId, Dialed(c, e))
  {
    var t := Hook(c, e);
    HookGood(order, firstId, c, e);
    if Attempts(t) {
      var env := e.dialing.(told := e.told.connects);
      T.AdvanceKeeps(t.tcp, env);
      AdvanceTells(t.tcp, env);
      InformGood(order, firstId, t, T.Advance(t.tcp, env).conn, e.closing, e.told);
    }
  }

  lemma RoundGood(order: ByteOrder, firstId: Word, c: Client, r: Round, m: CR.State, lost: Doing)
    requires Good(order, firstId, c) && c.tcp.fd.Some? && m == Hooked(order, c, r).state
    ensures if m.connected then Good(order, firstId, c.(modbus := m))
            else Good(order, firstId, Lose(c, m, ReasonOf(c.modbus, r.recv), lost))
  {
    GoodGoes(order, firstId, c);
    GoesOn(order, firstId, c.modbus, c.modbus, CS.Recv(r.memory, r.recv), m);
    if m.connected {
      RecordsNothing(c, c.tcp, m);
    } else {
      LoseGood(order, firstId, c, m, ReasonOf(c.modbus, r.recv), lost);
    }
  }

  lemma {:induction false} ReceiveGood(order: ByteOrder, firstId: Word, c: Client, rounds: seq<Round>, lost: Doing)
    requires Good(order, firstId, c)
    ensures Good(order, firstId, Receive(order, c, rounds, lost))
    decreases |rounds|
  {
    if rounds == [] || c.tcp.fd.None? {
    } else {
      var h := Hooked(order, c, rounds[0]);
      RoundGood(order, firstId, c, rounds[0], h.state, lost);
      if h.state.connected && h.more {
        ReceiveGood(order, firstId, c.(modbus := h.state), rounds[1..], lost);
      }
    }
  }

  lemma DisconnectGood(order: ByteOrder, firstId: Word, c: Client, guarded: bool, told: Doing, lost: Doing,
                       closing: CR.Calls)
    requires Good(order, firstId, c)
    ensures Good(order, firstId, JoinedRules.Disconnect(c, guarded, told, lost, closing))
  {
    if !guarded && c.tcp.host.Some? {
      var m := CR.Close(c.modbus, closing, 0);
      var tcp := T.Disconnect(c.tcp, guarded, told.connects, lost.connects);
      GoodGoes(order, firstId, c);
      GoesOn(order, firstId, c.modbus, c.modbus, CS.Closing(closing), m);
      ClientRuns.CloseKeeps(c.modbus, closing, 0);
      T.DisconnectKeeps(c.tcp, guarded, told.connects, lost.connects);
      DisconnectIdles(c.tcp, told.connects, lost.connects);
      if c.tcp.connectCallback.Some? {
        AbortCalls(c.tcp, T.AbortRequested, told.connects);
        EndGood(order, firstId, c, T.Told(c.tcp.connectCallback.value, T.AbortRequested), tcp, m, told.transacts);
      } else {
        DropCalls(c.tcp, T.Requested, lost.connects);
        EndGood(order, firstId, c, T.Lost(c.tcp.disconnectCallback.value, T.Requested), tcp, m, lost.transacts);
      }
    }
  }

  lemma ConnectCalls(s: T.Conn, guarded: bool, a: T.ConnectArgs, n: nat)
    ensures Callbacks(T.Connect(s, guarded, a, n).log) == Callbacks(s.log)
  {
    CallbacksOne(s.log, T.Refused(s.tickets, T.NonReentrant));
    CallbacksOne(s.log, T.Refused(s.tickets, T.InvalidArgument));
    CallbacksOne(s.log, T.Refused(s.tickets, T.AlreadyConnected));
    CallbacksOne(s.log, T.Accepted(s.tickets));
    ReenterCalls(T.Refuse(s, T.InvalidArgument), n);
    ReenterCalls(T.Refuse(s, T.AlreadyConnected), n);
  }

  lemma ApplyGood(order: ByteOrder, firstId: Word, c: Client, op: Op)
    requires Good(order, firstId, c)
    ensures Good(order, firstId, Apply(order, c, op))
  {
    GoodGoes(order, firstId, c);
    ApplyKeeps(order, c, op);
    match op
    case Connecting(g, a, told) =>
      ConnectCalls(c.tcp, g, a, told.connects);
      CallsGo(order, firstId, c.modbus, c.modbus, told.transacts);
      RecordsNothing(c, Apply(order, c, op).tcp, Apply(order, c, op).modbus);
    case Disconnecting(g, told, lost, closing) => DisconnectGood(order, firstId, c, g, told, lost, closing);
    case Ticking(g, e) =>
      if !g && c.tcp.host.Some? {
        DialedGood(order, firstId, c, e);
        ReceiveGood(order, firstId, Dialed(c, e), [e.first] + e.more, e.lost);
      }
    case Answering(a, told, closing) =>
      var tcp := T.Deliver(c.tcp, a, told.connects);
      T.AnswerKeeps(c.tcp, a, told.connects);
      DeliverTells(c.tcp, a, told.connects, tcp);
      InformGood(order, firstId, c, tcp, closing, told);
    case Transacting(a) =>
      var m := CR.Transact(c.modbus, a);
      GoesOn(order, firstId, c.modbus, c.modbus, CS.Transact(a), m);
      RecordsNothing(c, c.tcp, m);
  }

  lemma {:induction false} RunGood(order: ByteOrder, firstId: Word, ops: seq<Op>)
    ensures Good(order, firstId, Exec(order, firstId, ops))
  {
    if ops == [] {
      assert CS.Initial(firstId) == CS.Exec(order, firstId, []);
    } else {
      RunGood(order, firstId, ops[..|ops| - 1]);
      ApplyGood(order, firstId, Exec(order, firstId, ops[..|ops| - 1]), ops[|ops| - 1]);
    }
  }

  /** The Modbus half of every run of the joined client is in a state of a run of the Modbus client. */
  lemma ModbusRefines(order: ByteOrder, firstId: Word, ops: seq<Op>) returns (modbusOps: seq<CS.Op>)
    ensures Exec(order, firstId, ops).modbus == CS.Exec(order, firstId, modbusOps)
  {
    RunGood(order, firstId, ops);
    modbusOps :| Exec(order, firstId, ops).modbus == CS.Exec(order, firstId, modbusOps);
  }

  /** Over every run of the joined client, each disconnect callback, and each connect callback that tells a
      failure, finds all transactions completed that were accepted until then: those of a connection
      are completed before its disconnect callback runs.  Callback i of the log is the one that found
      state i, and later callbacks find longer logs. */
  lemma SettledBeforeLost(order: ByteOrder, firstId: Word, ops: seq<Op>, i: nat)
    requires i < |Callbacks(Exec(order, firstId, ops).tcp.log)|
    ensures var c := Exec(order, firstId, ops);
            && i < |c.views| && c.views[i].event == Callbacks(c.tcp.log)[i]
            && c.views[i].modbus.log <= c.modbus.log
            && (forall j :: i < j < |c.views| ==> c.views[i].modbus.log <= c.views[j].modbus.log)
            && (c.views[i].event.Lost? ==> Settled(c.views[i].modbus))
            && (c.views[i].event.Told? ==>
                  if c.views[i].event.result == T.Connected then c.views[i].modbus.connected
                  else Settled(c.views[i].modbus))
  {
    RunGood(order, firstId, ops);
    var c := Exec(order, firstId, ops);
    assert c.views[i].event == Events(c.views)[i];
    assert Found(c.views[i], c.modbus.log);
  }
}
