/** What each call of the generic TCP client leads to, by the phase that it finds the client in. */
module TcpOutcomes {
  import opened Bytes
  import opened TcpRules
  import opened TcpRuns

  // ---- Ends ----

  /** The refused calls of `connect` that a callback makes. */
  function Refusals(ticket: nat, n: nat): seq<Event> {
    if n == 0 then [] else Refusals(ticket, n - 1) + [Refused(ticket + n - 1, NonReentrant)]
  }

  lemma {:induction false} ReenterLogs(s: Conn, n: nat)
    ensures Reenter(s, n) == s.(tickets := s.tickets + n, log := s.log + Refusals(s.tickets, n))
  {
    if n == 0 {
      assert s.log + [] == s.log;
    } else {
      ReenterLogs(s, n - 1);
      assert s.log + Refusals(s.tickets, n - 1) + [Refused(s.tickets + n - 1, NonReentrant)] ==
             s.log + Refusals(s.tickets, n);
    }
  }

  /** The client is idle again: its socket, if it had one, is closed, then the callback runs. */
  ghost predicate Ends(s: Conn, t: Conn, e: Event, n: nat) {
    && PhaseOf(t) == Idle && Ok(t) && t.resolves == s.resolves && t.tickets == s.tickets + n
    && t.log == s.log + (if s.pendingFd.Some? then [Closed(s.pendingFd.value)] else [])
                + (if s.fd.Some? then [Closed(s.fd.value)] else []) + [e] + Refusals(s.tickets, n)
  }

  lemma AbortEnds(s: Conn, result: ConnectResult, n: nat)
    requires s.connectCallback.Some? && s.resolveId == s.resolves % RESOLVE_IDS
    ensures Ends(s, Abort(s, result, n), Told(s.connectCallback.value, result), n)
  {
    AbortKeeps(s, result, n);
    ReenterLogs(Log(Close(s), Told(s.connectCallback.value, result)), n);
  }

  lemma DropEnds(s: Conn, reason: Reason, n: nat)
    requires s.disconnectCallback.Some? && s.resolveId == s.resolves % RESOLVE_IDS
    ensures Ends(s, Drop(s, reason, n), Lost(s.disconnectCallback.value, reason), n)
  {
    DropKeeps(s, reason, n);
    ReenterLogs(Log(Close(s), Lost(s.disconnectCallback.value, reason)), n);
  }

  // ---- Waiting for the connection ----

  /** What a tick makes of an attempt: it waits, the attempt has failed, or there is a connection. */
  datatype Verdict = Waits | Fails(result: ConnectResult) | Connects

  /** Three seconds are the limit, whatever select says; before that, nothing reported means waiting. */
  function VerdictOf(deadline: int, now: int, w: Wait): Verdict {
    if now >= deadline then Fails(Timeout)
    else if w == SelectFailed then Fails(SocketSelectFailed)
    else if w == OptionFailed then Fails(SocketGetOptionFailed)
    else if w == Broken then Fails(SocketConnectAsyncFailed)
    else if w == Ready then Connects
    else Waits
  }

  /** The attempt has become a connection: the socket is the same, the connect callback is told, and the
      disconnect callback is kept. */
  function Established(s: Conn, n: nat): Conn
    requires s.connectCallback.Some?
  {
    s.(fd := s.pendingFd, pendingFd := None, connectCallback := None, pendingDisconnectCallback := None,
       disconnectCallback := s.pendingDisconnectCallback, tickets := s.tickets + n,
       log := s.log + [Told(s.connectCallback.value, Connected)] + Refusals(s.tickets, n))
  }

  lemma AwaitOutcome(s: Conn, w: Wait, now: int, n: nat)
    requires Ok(s) && PhaseOf(s) == Dialing
    ensures var t := AwaitConnection(s, w, now, n);
            match VerdictOf(s.deadline, now, w)
            case Waits => t == Stepped(s, false)
            case Fails(result) => !t.go && Ends(s, t.conn, Told(s.connectCallback.value, result), n)
            case Connects => t.go && t.conn == Established(s, n) && Ok(t.conn) && PhaseOf(t.conn) == Up
  {
    match VerdictOf(s.deadline, now, w)
    case Waits =>
    case Fails(result) => AbortEnds(s, result, n);
    case Connects =>
      ReenterLogs(Log(s.(fd := s.pendingFd, pendingFd := None, connectCallback := None,
                         disconnectCallback := s.pendingDisconnectCallback, pendingDisconnectCallback := None),
                      Told(s.connectCallback.value, Connected)), n);
  }

  // ---- A connection ----

  /** How the receive loop ends: the first call of the hook that does not ask for more decides. */
  function LossOf(rs: seq<Received>): Option<Reason> {
    if rs == [] || rs[0] == Stop then None
    else if rs[0].Dropped? then Some(rs[0].reason)
    else LossOf(rs[1..])
  }

  lemma {:induction false} ReceiveOutcome(s: Conn, rs: seq<Received>, n: nat)
    requires Ok(s) && PhaseOf(s) == Up
    ensures var t := ReceiveLoop(s, rs, n);
            if LossOf(rs).None? then t == s else Ends(s, t, Lost(s.disconnectCallback.value, LossOf(rs).value), n)
    decreases |rs|
  {
    if rs == [] {
    } else {
      match rs[0]
      case Continue => ReceiveOutcome(s, rs[1..], n);
      case Stop =>
      case Dropped(reason) => DropEnds(s, reason, n);
    }
  }

  /** A tick of a connected client: the connection is lost for the reason that the tick hook gives, else for
      the one that the receive hook gives, or it stays as it is. */
  lemma UpTick(s: Conn, e: TickEnv)
    requires Ok(s) && PhaseOf(s) == Up
    ensures var t := Tick(s, false, e);
            var loss := if e.hook.Some? then e.hook else LossOf([e.first] + e.more);
            if loss.None? then t == s else Ends(s, t, Lost(s.disconnectCallback.value, loss.value), e.lost)
  {
    if e.hook.Some? {
      DropEnds(s, e.hook.value, e.lost);
    } else {
      ReceiveOutcome(s, [e.first] + e.more, e.lost);
    }
  }

  /** What a tick makes of a client that dials. */
  ghost predicate DialingFate(s: Conn, e: TickEnv, t: Conn)
    requires s.connectCallback.Some? && s.pendingDisconnectCallback.Some?
  {
    match VerdictOf(s.deadline, e.now, e.wait)
    case Waits => t == s
    case Fails(result) => Ends(s, t, Told(s.connectCallback.value, result), e.told)
    case Connects =>
      var u, loss := Established(s, e.told), LossOf([e.first] + e.more);
      if loss.None? then t == u && PhaseOf(t) == Up
      else Ends(u, t, Lost(s.pendingDisconnectCallback.value, loss.value), e.lost)
  }

  /** The tick behind the dialing. */
  function BehindDialing(s: Conn, e: TickEnv): Conn
    requires s.connectCallback.Some?
  {
    var u := AwaitConnection(s, e.wait, e.now, e.told);
    if u.go then ReceiveLoop(u.conn, [e.first] + e.more, e.lost) else u.conn
  }

  lemma AwaitFate(s: Conn, e: TickEnv)
    requires Ok(s) && PhaseOf(s) == Dialing
    ensures DialingFate(s, e, BehindDialing(s, e))
  {
    AwaitOutcome(s, e.wait, e.now, e.told);
    if VerdictOf(s.deadline, e.now, e.wait) == Connects {
      ReceiveOutcome(Established(s, e.told), [e.first] + e.more, e.lost);
    }
  }

  lemma DialingTick(s: Conn, e: TickEnv)
    requires Ok(s) && PhaseOf(s) == Dialing
    ensures DialingFate(s, e, Tick(s, false, e))
  {
    AwaitFate(s, e);
    assert Tick(s, false, e) == BehindDialing(s, e);
  }

  // ---- Dialing ----

  /** The first thing that goes wrong while an address is dialed. */
  function DialFailure(a: Address, d: Dial): Option<ConnectResult> {
    if a.family == OtherFamily then Some(InvalidAddressType)
    else if d.socket.None? then Some(SocketCreateFailed)
    else if !d.getFlags then Some(SocketGetFlagsFailed)
    else if !d.setFlags then Some(SocketSetFlagsFailed)
    else if !d.connect then Some(SocketConnectFailed)
    else None
  }

  /** The client with the socket that dialing has opened, and what was done with it. */
  function WithSocket(s: Conn, d: Dial): Conn
    requires s.connectCallback.Some? && s.address.Some?
  {
    if s.address.value.family == OtherFamily || d.socket.None? then s
    else
      s.(pendingFd := d.socket,
         log := s.log + [Opened(d.socket.value)]
                + if d.getFlags && d.setFlags then [Dialed(s.connectCallback.value, s.address.value)] else [])
  }

  /** The client that dials: the address is used up, and three seconds are left. */
  function InDialing(s: Conn, d: Dial, at: int): Conn
    requires s.connectCallback.Some? && s.address.Some?
  {
    WithSocket(s, d).(address := None, deadline := at + 3_000_000)
  }

  lemma DialOutcome(s: Conn, d: Dial, at: int, n: nat, t: Stepped)
    requires Ok(s) && PhaseOf(s) == Resolved && t == DialNow(s, d, at, n)
    ensures var failure := DialFailure(s.address.value, d);
            if failure.Some? then
              !t.go && Ends(WithSocket(s, d), t.conn, Told(s.connectCallback.value, failure.value), n)
            else t.go && t.conn == InDialing(s, d, at) && Ok(t.conn) && PhaseOf(t.conn) == Dialing
  {
    var failure, u := DialFailure(s.address.value, d), WithSocket(s, d);
    DialKeeps(s, d, at, n);
    assert s.log + [] == s.log;
    if failure.Some? {
      AbortEnds(u, failure.value, n);
      DialAborts(s, d, at, n, u, failure.value, t);
    } else {
      var fd, e := d.socket.value, Dialed(s.connectCallback.value, s.address.value);
      assert s.log + [Opened(fd)] + [e] == u.log;
    }
  }

  lemma DialAborts(s: Conn, d: Dial, at: int, n: nat, u: Conn, failure: ConnectResult, t: Stepped)
    requires s.connectCallback.Some? && s.address.Some? && DialFailure(s.address.value, d) == Some(failure)
    requires u == WithSocket(s, d) && t == DialNow(s, d, at, n)
    ensures t == Stepped(Abort(u, failure, n), false)
  {
    if s.address.value.family != OtherFamily && d.socket.Some? {
      assert s.log + [Opened(d.socket.value)] + [] == s.log + [Opened(d.socket.value)];
    }
  }

  /** What a tick makes of a client that knows its address. */
  ghost predicate ResolvedFate(s: Conn, e: TickEnv, t: Conn)
    requires Ok(s) && PhaseOf(s) == Resolved
  {
    var failure := DialFailure(s.address.value, e.dial);
    if failure.Some? then Ends(WithSocket(s, e.dial), t, Told(s.connectCallback.value, failure.value), e.told)
    else DialingFate(InDialing(s, e.dial, e.dialedAt), e, t)
  }

  function BehindResolving(s: Conn, e: TickEnv): Conn
    requires Ok(s) && PhaseOf(s) == Resolved
  {
    var d := DialNow(s, e.dial, e.dialedAt, e.told);
    DialKeeps(s, e.dial, e.dialedAt, e.told);
    if d.go then BehindDialing(d.conn, e) else d.conn
  }

  lemma DialFate(s: Conn, e: TickEnv)
    requires Ok(s) && PhaseOf(s) == Resolved
    ensures ResolvedFate(s, e, BehindResolving(s, e))
  {
    DialOutcome(s, e.dial, e.dialedAt, e.told, DialNow(s, e.dial, e.dialedAt, e.told));
    if DialFailure(s.address.value, e.dial).None? { AwaitFate(InDialing(s, e.dial, e.dialedAt), e); }
  }

  lemma ResolvedTick(s: Conn, e: TickEnv)
    requires Ok(s) && PhaseOf(s) == Resolved
    ensures ResolvedFate(s, e, Tick(s, false, e))
  {
    DialFate(s, e);
    DialKeeps(s, e.dial, e.dialedAt, e.told);
    assert Tick(s, false, e) == BehindResolving(s, e);
  }

  // ---- The resolver ----

  /** An answer to the question that the client waits for, as far as 32 bits tell. */
  predicate Heard(s: Conn, a: Answer) { a.age < s.resolves && PhaseOf(s) == Resolving && a.age % 0x1_0000_0000 == 0 }

  /** The client with the answer in its log. */
  function Noted(s: Conn, a: Answer): Conn {
    if a.age < s.resolves then s.(log := s.log + [Answered(s.resolves - a.age, a.found)]) else s
  }

  /** An answer is only noted, unless the client waits for it: then a failure ends the attempt, and an
      address is kept to be dialed. */
  ghost predicate AnswerFate(s: Conn, a: Answer, n: nat, t: Conn) {
    if !Heard(s, a) then t == Noted(s, a)
    else if a.found.None? then
      s.connectCallback.Some? && Ends(Noted(s, a), t, Told(s.connectCallback.value, ResolveFailed), n)
    else t == Noted(s, a).(resolvePending := false, address := a.found)
  }

  lemma AnswerOutcome(s: Conn, a: Answer, n: nat)
    requires Ok(s)
    ensures AnswerFate(s, a, n, Deliver(s, a, n))
  {
    if a.age < s.resolves {
      OldAnswer(s.resolves, a.age);
      if Takes(s, a) && a.found.None? { AbortEnds(Noted(s, a), ResolveFailed, n); }
    }
  }

  /** The answers that arrive inside of the call of the resolver, one after the other. */
  ghost predicate AnswersFate(s: Conn, answers: seq<Answer>, n: nat, t: Conn)
    decreases |answers|
  {
    if answers == [] then t == s
    else
      var k := |answers| - 1;
      exists u: Conn :: AnswersFate(s, answers[..k], n, u) && AnswerFate(u, answers[k], n, t)
  }

  lemma {:induction false} AnswersOutcome(s: Conn, answers: seq<Answer>, n: nat)
    requires Ok(s) && PhaseOf(s) in {Idle, Resolving, Resolved}
    ensures AnswersFate(s, answers, n, DeliverAll(s, answers, n))
  {
    if answers == [] {
    } else {
      var k := |answers| - 1;
      AnswersOutcome(s, answers[..k], n);
      DeliverAllKeeps(s, answers[..k], n);
      AnswerOutcome(DeliverAll(s, answers[..k], n), answers[k], n);
    }
  }

  /** The client that has asked the resolver for its host. */
  function Asks(s: Conn): Conn
    requires s.connectCallback.Some?
  {
    s.(resolvePending := true, resolveId := (s.resolves + 1) % 0x1_0000_0000, resolves := s.resolves + 1,
       log := s.log + [Asked(s.resolves + 1, s.connectCallback.value)])
  }

  /** What a tick makes of a client that was just told to connect: it asks the resolver, and if an address is
      already there afterwards it dials. */
  ghost predicate FreshFate(s: Conn, e: TickEnv, t: Conn)
    requires s.connectCallback.Some?
  {
    exists u: Conn :: AnswersFate(Asks(s), e.answers, e.told, u)
                      && if Ok(u) && PhaseOf(u) == Resolved then ResolvedFate(u, e, t) else t == u
  }

  lemma FreshTick(s: Conn, e: TickEnv, u: Conn)
    requires Ok(s) && PhaseOf(s) == Fresh && u == Ask(s, e.answers, e.told)
    ensures AnswersFate(Asks(s), e.answers, e.told, u) && Ok(u)
    ensures if PhaseOf(u) == Resolved then ResolvedFate(u, e, Tick(s, false, e)) else Tick(s, false, e) == u
  {
    AskingOk(s);
    AnswersOutcome(Asking(s), e.answers, e.told);
    NextResolveId(s.resolves);
    assert Asking(s) == Asks(s);
    DeliverAllKeeps(Asking(s), e.answers, e.told);
    if PhaseOf(u) == Resolved {
      DialFate(u, e);
      DialKeeps(u, e.dial, e.dialedAt, e.told);
      assert Tick(s, false, e) == BehindResolving(u, e);
    }
  }

  // ---- Every tick, and every other call ----

  /** What a tick makes of the client, by its phase. */
  ghost predicate TickFate(s: Conn, e: TickEnv, t: Conn)
    requires Ok(s)
  {
    match PhaseOf(s)
    case Idle => t == s
    case Fresh => FreshFate(s, e, t)
    case Resolving => t == s
    case Resolved => ResolvedFate(s, e, t)
    case Dialing => DialingFate(s, e, t)
    case Up =>
      var loss := if e.hook.Some? then e.hook else LossOf([e.first] + e.more);
      if loss.None? then t == s else Ends(s, t, Lost(s.disconnectCallback.value, loss.value), e.lost)
  }

  /** Every tick of every run; a guarded one does nothing. */
  lemma TickExactly(ops: seq<Op>, e: TickEnv)
    ensures TickFate(Exec(ops), e, Apply(Exec(ops), Ticking(false, e)))
    ensures Apply(Exec(ops), Ticking(true, e)) == Exec(ops)
  {
    TickOutcome(Exec(ops), e);
  }

  lemma TickOutcome(s: Conn, e: TickEnv)
    requires Ok(s)
    ensures TickFate(s, e, Tick(s, false, e))
  {
    match PhaseOf(s)
    case Idle =>
    case Fresh => FreshTick(s, e, Ask(s, e.answers, e.told));
    case Resolving =>
    case Resolved => ResolvedTick(s, e);
    case Dialing => DialingTick(s, e);
    case Up => UpTick(s, e);
  }

  /** What a call of `connect` makes of the client: without a callback nothing happens; it is refused while a
      callback runs, without host, port or disconnect callback, and while the client is not idle; otherwise
      the client holds its callbacks and waits for a tick. */
  ghost predicate ConnectFate(s: Conn, guarded: bool, a: ConnectArgs, n: nat, t: Conn) {
    var usable := a.host.Some? && a.host.value != "" && a.port != 0 && a.disconnectCallback;
    if !a.callback then t == s
    else if guarded then t == s.(tickets := s.tickets + 1, log := s.log + [Refused(s.tickets, NonReentrant)])
    else if !usable || PhaseOf(s) != Idle then
      t == s.(tickets := s.tickets + 1 + n,
              log := s.log + [Refused(s.tickets, if usable then AlreadyConnected else InvalidArgument)]
                     + Refusals(s.tickets + 1, n))
    else
      && PhaseOf(t) == Fresh && t.host == a.host && t.port == a.port
      && t.connectCallback == t.pendingDisconnectCallback == Some(s.tickets)
      && t.tickets == s.tickets + 1 && t.resolves == s.resolves && t.log == s.log + [Accepted(s.tickets)]
  }

  lemma ConnectOutcome(s: Conn, guarded: bool, a: ConnectArgs, n: nat)
    requires Ok(s)
    ensures ConnectFate(s, guarded, a, n, Connect(s, guarded, a, n))
  {
    if !Usable(a) {
      ReenterLogs(Refuse(s, InvalidArgument), n);
    } else if s.host.Some? {
      ReenterLogs(Refuse(s, AlreadyConnected), n);
    }
  }

  /** Every call of `connect` of every run. */
  lemma ConnectExactly(ops: seq<Op>, guarded: bool, a: ConnectArgs, n: nat)
    ensures ConnectFate(Exec(ops), guarded, a, n, Apply(Exec(ops), Connecting(guarded, a, n)))
  {
    ConnectOutcome(Exec(ops), guarded, a, n);
  }

  /** Every call of `disconnect` of every run: an attempt is told AbortRequested, a connection is lost as
      requested. */
  lemma DisconnectExactly(ops: seq<Op>, guarded: bool, n: nat, m: nat)
    ensures var s, t := Exec(ops), Apply(Exec(ops), Disconnecting(guarded, n, m));
            if guarded || PhaseOf(s) == Idle then t == s
            else if PhaseOf(s) == Up then Ends(s, t, Lost(s.disconnectCallback.value, Requested), m)
            else s.connectCallback.Some? && Ends(s, t, Told(s.connectCallback.value, AbortRequested), n)
  {
    var s := Exec(ops);
    if s.connectCallback.Some? { AbortEnds(s, AbortRequested, n); }
    if s.disconnectCallback.Some? { DropEnds(s, Requested, m); }
  }

  /** Every answer of the resolver between two ticks of every run. */
  lemma AnswerExactly(ops: seq<Op>, a: Answer, n: nat)
    ensures AnswerFate(Exec(ops), a, n, Apply(Exec(ops), Answering(a, n)))
  {
    AnswerOutcome(Exec(ops), a, n);
  }

  // ---- A whole attempt ----

  /** A tick in time in which select reports nothing. */
  predicate Silent(deadline: int, op: Op) {
    op.Ticking? && (op.guarded || (op.env.wait == InProgress && op.env.now < deadline))
  }

  predicate AllSilent(deadline: int, ops: seq<Op>) { forall i :: 0 <= i < |ops| ==> Silent(deadline, ops[i]) }

  lemma SilentParts(deadline: int, ops: seq<Op>)
    requires ops != [] && AllSilent(deadline, ops)
    ensures AllSilent(deadline, ops[..|ops| - 1]) && Silent(deadline, ops[|ops| - 1])
  {
  }

  lemma SilentTick(s: Conn, op: Op)
    requires Ok(s) && PhaseOf(s) == Dialing && Silent(s.deadline, op)
    ensures Apply(s, op) == s
  {
    TickOutcome(s, op.env);
  }

  lemma SilentLast(front: seq<Op>, last: Op, s: Conn, all: seq<Op>)
    requires s == Exec(front) && PhaseOf(s) == Dialing && Silent(s.deadline, last) && all == front + [last]
    ensures Exec(all) == s
  {
    ExecLast(front, last);
    SilentTick(s, last);
  }

  lemma AllButLast(before: seq<Op>, silent: seq<Op>) returns (front: seq<Op>, last: Op)
    requires silent != []
    ensures front == silent[..|silent| - 1] && last == silent[|silent| - 1]
    ensures before + silent == before + front + [last]
  {
    front, last := silent[..|silent| - 1], silent[|silent| - 1];
  }

  /** Any number of such ticks leaves a client that dials as it is. */
  lemma {:induction false} SilenceWaits(before: seq<Op>, silent: seq<Op>, all: seq<Op>, s: Conn)
    requires s == Exec(before) && PhaseOf(s) == Dialing && AllSilent(s.deadline, silent) && all == before + silent
    ensures Exec(all) == s
    decreases |silent|
  {
    if silent == [] {
      assert all == before;
    } else {
      var front, last := AllButLast(before, silent);
      SilentParts(s.deadline, silent);
      SilenceWaits(before, front, before + front, s);
      SilentLast(before + front, last, s, all);
    }
  }

  /** The tick that ends the waiting: in time and with success reported, or too late. */
  ghost predicate Decides(s: Conn, e: TickEnv, t: Conn)
    requires s.connectCallback.Some?
  {
    && (e.wait == Ready && e.now < s.deadline ==>
          && s.log + [Told(s.connectCallback.value, Connected)] <= t.log
          && (LossOf([e.first] + e.more).None? ==> PhaseOf(t) == Up && t.fd == s.pendingFd))
    && (e.now >= s.deadline ==> Ends(s, t, Told(s.connectCallback.value, Timeout), e.told))
  }

  lemma DialingDecides(s: Conn, e: TickEnv)
    requires Ok(s) && PhaseOf(s) == Dialing
    ensures Decides(s, e, Tick(s, false, e))
  {
    DialingTick(s, e);
  }

  /** However long select has been silent, an attempt that dials is told Connected if it reports success in
      time, and Timeout from the deadline on. */
  lemma SilenceThenDecided(before: seq<Op>, silent: seq<Op>, e: TickEnv)
    requires PhaseOf(Exec(before)) == Dialing && AllSilent(Exec(before).deadline, silent)
    ensures Exec(before).connectCallback.Some?
    ensures Decides(Exec(before), e, Exec(before + silent + [Ticking(false, e)]))
  {
    SilenceWaits(before, silent, before + silent, Exec(before));
    ExecLast(before + silent, Ticking(false, e));
    DialingDecides(Exec(before), e);
  }

  lemma DialTick(s: Conn, e: TickEnv)
    requires Ok(s) && PhaseOf(s) == Resolved && DialFailure(s.address.value, e.dial).None?
    requires e.wait == InProgress && e.now < e.dialedAt + 3_000_000
    ensures var t := Tick(s, false, e);
            t == InDialing(s, e.dial, e.dialedAt) && PhaseOf(t) == Dialing && t.deadline == e.dialedAt + 3_000_000
  {
    ResolvedTick(s, e);
    DialOutcome(s, e.dial, e.dialedAt, e.told, DialNow(s, e.dial, e.dialedAt, e.told));
  }

  /** A whole attempt from the call of connect(2) on: three seconds are the limit, counted from there, and any
      number of silent ticks before do no harm. */
  lemma AttemptDecided(before: seq<Op>, d: TickEnv, silent: seq<Op>, e: TickEnv)
    requires PhaseOf(Exec(before)) == Resolved && DialFailure(Exec(before).address.value, d.dial).None?
    requires d.wait == InProgress && d.now < d.dialedAt + 3_000_000
    requires AllSilent(d.dialedAt + 3_000_000, silent)
    ensures Exec(before).connectCallback.Some?
    ensures var s := InDialing(Exec(before), d.dial, d.dialedAt);
            s.connectCallback.Some? && s.deadline == d.dialedAt + 3_000_000
            && Decides(s, e, Exec(before + [Ticking(false, d)] + silent + [Ticking(false, e)]))
  {
    ExecLast(before, Ticking(false, d));
    DialTick(Exec(before), d);
    SilenceThenDecided(before + [Ticking(false, d)], silent, e);
  }
}
