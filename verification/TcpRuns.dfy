/** What holds over whole runs of the generic TCP client. */
module TcpRuns {
  import opened Bytes
  import opened TcpRules

  // ---- The protocol of callbacks and sockets, told from the log alone ----

  /** Where a log stands: between sessions, waiting for the connection that the ticket asked for
      (perhaps with a socket), connected, or connected a moment ago with the socket closed. */
  datatype Session =
    | NoSession
    | Waiting(ticket: nat, dialing: Option<nat>)
    | Connection(ticket: nat, socket: nat)
    | Ending(ticket: nat)
    | Violated

  /** The open question to the resolver, or its answer. */
  datatype Question = NoQuestion | Open(serial: nat, ticket: nat) | Found(ticket: nat, address: Address) | Misused

  /** What can be told from a log alone; it is `late` when a question was answered 2^32 questions
      after it was asked, or later. */
  datatype Record = Record(session: Session, question: Question, tickets: nat, resolves: nat, late: bool)

  const EMPTY: Record := Record(NoSession, NoQuestion, 0, 0, false)

  /** Refusals come from outside of a session, verdicts end the waiting of one. */
  predicate Refusal(r: ConnectResult) { r in {NonReentrant, InvalidArgument, AlreadyConnected} }

  predicate Failure(r: ConnectResult) { !Refusal(r) && r !in {NoFreePoolSlot, NoFreePoolShare, Connected} }

  /** A session starts when `connect` is accepted.  It ends with a connect callback that tells a
      failure, or with the disconnect callback that follows a connect callback that told Connected.
      It has one socket at a time, a connection has one, and no socket is open at its end. */
  function Next(s: Session, e: Event): Session {
    match s
    case NoSession => if e.Accepted? then Waiting(e.ticket, None) else Violated
    case Waiting(t, None) =>
      if e.Opened? then Waiting(t, Some(e.fd))
      else if e.Told? && e.ticket == t && Failure(e.result) then NoSession
      else Violated
    case Waiting(t, Some(fd)) =>
      if e == Closed(fd) then Waiting(t, None)
      else if e == Told(t, Connected) then Connection(t, fd)
      else if e.Dialed? && e.ticket == t then s
      else Violated
    case Connection(t, fd) => if e == Closed(fd) then Ending(t) else Violated
    case Ending(t) => if e.Lost? && e.ticket == t then NoSession else Violated
    case Violated => Violated
  }

  /** An address is dialed for the ticket it was asked for, once, and only if it answers the latest
      question; a question does not outlive its session. */
  function Track(q: Question, e: Event): Question {
    if q == Misused then q
    else if e.Asked? then Open(e.serial, e.ticket)
    else if e.Answered? then
      if q.Open? && q.serial == e.serial && e.found.Some? then Found(q.ticket, e.found.value) else q
    else if e.Dialed? then if q == Found(e.ticket, e.address) then NoQuestion else Misused
    else if e.Told? then NoQuestion
    else q
  }

  /** One event.  Tickets and serials are given out in order. */
  function Follow(r: Record, e: Event): Record {
    if e.Refused? then
      if e.ticket == r.tickets && Refusal(e.result) then r.(tickets := r.tickets + 1) else r.(session := Violated)
    else if e.Asked? then
      if e.serial == r.resolves + 1 then r.(question := Track(r.question, e), resolves := r.resolves + 1)
      else r.(session := Violated)
    else if e.Answered? then
      r.(question := Track(r.question, e), late := r.late || !(e.serial <= r.resolves < e.serial + RESOLVE_IDS))
    else
      r.(session := if e.Accepted? && e.ticket != r.tickets then Violated else Next(r.session, e),
         question := Track(r.question, e), tickets := r.tickets + if e.Accepted? then 1 else 0)
  }

  function FollowAll(r: Record, log: seq<Event>): Record {
    if log == [] then r else Follow(FollowAll(r, log[..|log| - 1]), log[|log| - 1])
  }

  lemma FollowOne(r: Record, log: seq<Event>, e: Event)
    ensures FollowAll(r, log + [e]) == Follow(FollowAll(r, log), e)
  {
    assert (log + [e])[..|log|] == log;
  }

  /** What the fields of the client say about its session and its question. */
  function SessionOf(s: Conn): Session {
    if s.connectCallback.Some? then Waiting(s.connectCallback.value, s.pendingFd)
    else if s.disconnectCallback.Some? && s.fd.Some? then Connection(s.disconnectCallback.value, s.fd.value)
    else NoSession
  }

  function QuestionOf(s: Conn): Question {
    if s.connectCallback.None? then NoQuestion
    else if s.resolvePending then Open(s.resolves, s.connectCallback.value)
    else if s.address.Some? then Found(s.connectCallback.value, s.address.value)
    else NoQuestion
  }

  /** A record says the same as the fields, about questions as long as no answer was late. */
  ghost predicate Says(r: Record, s: Conn) {
    && r.session == SessionOf(s) && r.tickets == s.tickets && r.resolves == s.resolves
    && (!r.late ==> r.question == QuestionOf(s)) && (r.late ==> s.resolves > RESOLVE_IDS)
  }

  /** The log of the client, read on from a first record, says the same as the fields. */
  ghost predicate Faithful(first: Record, s: Conn) { Says(FollowAll(first, s.log), s) }

  lemma RefusalCounts(r: Record, result: ConnectResult)
    requires Refusal(result)
    ensures Follow(r, Refused(r.tickets, result)) == r.(tickets := r.tickets + 1)
  {
  }

  lemma {:induction false} ReenterFollows(first: Record, s: Conn, n: nat)
    requires FollowAll(first, s.log).tickets == s.tickets
    ensures FollowAll(first, Reenter(s, n).log) == FollowAll(first, s.log).(tickets := s.tickets + n)
    ensures Reenter(s, n) == s.(tickets := s.tickets + n, log := Reenter(s, n).log)
  {
    ReenterKeeps(s, n);
    if n == 0 {
    } else {
      ReenterFollows(first, s, n - 1);
      var t := Reenter(s, n - 1);
      RefusalCounts(FollowAll(first, t.log), NonReentrant);
      FollowOne(first, t.log, Refused(t.tickets, NonReentrant));
    }
  }

  /** A callback, with the refused calls that it makes. */
  lemma NotifyFollows(first: Record, s: Conn, e: Event, n: nat)
    requires FollowAll(first, s.log).tickets == s.tickets && (e.Told? || e.Lost?)
    ensures FollowAll(first, Notify(s, e, n).log) == Follow(FollowAll(first, s.log), e).(tickets := s.tickets + n)
    ensures Notify(s, e, n) == s.(tickets := s.tickets + n, log := Notify(s, e, n).log)
  {
    FollowOne(first, s.log, e);
    ReenterFollows(first, Log(s, e), n);
  }

  /** What a record says after the socket, if there is one, was closed. */
  function AfterClose(r: Record, fd: Option<nat>): Record { if fd.Some? then Follow(r, Closed(fd.value)) else r }

  lemma CloseFollows(first: Record, s: Conn, fd: Option<nat>)
    requires if s.pendingFd.Some? then s.fd.None? && fd == s.pendingFd else fd == s.fd
    ensures FollowAll(first, Close(s).log) == AfterClose(FollowAll(first, s.log), fd)
  {
    assert Close(s).log == s.log + ClosedOf(fd);
    if fd.Some? { FollowOne(first, s.log, Closed(fd.value)); } else { assert s.log + [] == s.log; }
  }

  /** The end of a session that waited: its socket is closed, its connect callback is told. */
  lemma FailEnds(r: Record, t: nat, fd: Option<nat>, result: ConnectResult)
    requires r.session == Waiting(t, fd) && Failure(result)
    ensures Follow(AfterClose(r, fd), Told(t, result)) ==
            r.(session := NoSession, question := if r.question == Misused then Misused else NoQuestion)
  {
  }

  /** The end of a connection. */
  lemma LossEnds(r: Record, t: nat, fd: nat, reason: Reason)
    requires r.session == Connection(t, fd)
    ensures Follow(AfterClose(r, Some(fd)), Lost(t, reason)) == r.(session := NoSession)
  {
  }

  lemma AbortFollows(first: Record, s: Conn, result: ConnectResult, n: nat)
    requires FollowAll(first, s.log).session == SessionOf(s) && s.connectCallback.Some? && s.fd.None?
    requires FollowAll(first, s.log).tickets == s.tickets && FollowAll(first, s.log).resolves == s.resolves
    requires if FollowAll(first, s.log).late then s.resolves > RESOLVE_IDS
             else FollowAll(first, s.log).question != Misused
    requires Failure(result)
    ensures Faithful(first, Abort(s, result, n))
  {
    var r := FollowAll(first, s.log);
    CloseFollows(first, s, s.pendingFd);
    FailEnds(r, s.connectCallback.value, s.pendingFd, result);
    CloseCounts(r, s.pendingFd);
    NotifyFollows(first, Close(s), Told(s.connectCallback.value, result), n);
  }

  lemma CloseCounts(r: Record, fd: Option<nat>)
    ensures AfterClose(r, fd) == r.(session := AfterClose(r, fd).session)
  {
  }

  lemma DropFollows(first: Record, s: Conn, reason: Reason, n: nat)
    requires Faithful(first, s) && s.connectCallback.None? && s.pendingFd.None?
    requires s.disconnectCallback.Some? && s.fd.Some?
    ensures Faithful(first, Drop(s, reason, n))
  {
    var r, e := FollowAll(first, s.log), Lost(s.disconnectCallback.value, reason);
    CloseFollows(first, s, s.fd);
    LossEnds(r, s.disconnectCallback.value, s.fd.value, reason);
    CloseCounts(r, s.fd);
    NotifyFollows(first, Close(s), e, n);
    var t := Drop(s, reason, n);
    LossSays(r, s, FollowAll(first, t.log), t, n);
  }

  /** What a record says after a loss. */
  lemma LossSays(r: Record, s: Conn, u: Record, t: Conn, n: nat)
    requires Says(r, s) && s.connectCallback.None?
    requires u == r.(session := NoSession, tickets := s.tickets + n)
    requires t == Close(s).(tickets := s.tickets + n, log := t.log)
    ensures Says(u, t)
  {
  }

  /** An abort between two states that the outside can see. */
  lemma AbortMidway(first: Record, s: Conn, result: ConnectResult, n: nat)
    requires FollowAll(first, s.log).session == SessionOf(s) && s.connectCallback.Some? && s.fd.None?
    requires FollowAll(first, s.log).tickets == s.tickets && FollowAll(first, s.log).resolves == s.resolves
    requires if FollowAll(first, s.log).late then s.resolves > RESOLVE_IDS
             else FollowAll(first, s.log).question != Misused
    requires Failure(result) && s.resolveId == s.resolves % RESOLVE_IDS
    ensures Faithful(first, Abort(s, result, n)) && Ok(Abort(s, result, n)) && PhaseOf(Abort(s, result, n)) == Idle
  {
    AbortFollows(first, s, result, n);
    AbortKeeps(s, result, n);
  }

  lemma DisconnectFollows(first: Record, s: Conn, guarded: bool, n: nat, m: nat)
    requires Faithful(first, s) && Ok(s)
    ensures var t := Disconnect(s, guarded, n, m);
            Faithful(first, t) && Ok(t) && (!guarded ==> PhaseOf(t) == Idle)
  {
    if !guarded && s.connectCallback.Some? {
      AbortFollows(first, s, AbortRequested, n);
      AbortKeeps(s, AbortRequested, n);
    }
    if !guarded && s.disconnectCallback.Some? {
      DropFollows(first, s, Requested, m);
      DropKeeps(s, Requested, m);
    }
  }

  lemma RefuseFollows(first: Record, s: Conn, result: ConnectResult, n: nat)
    requires Faithful(first, s) && Ok(s) && Refusal(result)
    ensures Faithful(first, Reenter(Refuse(s, result), n)) && Ok(Reenter(Refuse(s, result), n))
  {
    FollowOne(first, s.log, Refused(s.tickets, result));
    ReenterFollows(first, Refuse(s, result), n);
  }

  lemma ConnectFollows(first: Record, s: Conn, guarded: bool, a: ConnectArgs, n: nat)
    requires Faithful(first, s) && Ok(s)
    ensures Faithful(first, Connect(s, guarded, a, n)) && Ok(Connect(s, guarded, a, n))
  {
    if a.callback {
      if guarded {
        RefuseFollows(first, s, NonReentrant, 0);
      } else if !Usable(a) {
        RefuseFollows(first, s, InvalidArgument, n);
      } else if s.host.Some? {
        RefuseFollows(first, s, AlreadyConnected, n);
      } else {
        FollowOne(first, s.log, Accepted(s.tickets));
      }
    }
  }

  /** What an answer does to a record. */
  lemma AnswerCounts(r: Record, s: Conn, a: Answer, u: Record, t: Conn)
    requires Says(r, s) && Ok(s) && a.age < s.resolves
    requires u == Follow(r, Answered(s.resolves - a.age, a.found)) && t == AfterAnswer(s, a)
    ensures Says(u, t)
  {
    if a.age < RESOLVE_IDS { YoungAnswer(s.resolves, a.age); }
  }

  lemma DeliverFollows(first: Record, s: Conn, a: Answer, n: nat, u: Conn)
    requires Faithful(first, s) && Ok(s) && u == Deliver(s, a, n)
    ensures Faithful(first, u) && Ok(u)
  {
    if a.age < s.resolves {
      if Takes(s, a) && a.found.None? {
        AnswerFails(first, s, a, n, u);
      } else {
        AnswerOk(s, a, n, u);
        AnswerLogged(first, s, a, u);
      }
    }
  }

  /** The log has the answer, and an address that is taken is kept. */
  function AfterAnswer(s: Conn, a: Answer): Conn
    requires a.age < s.resolves
  {
    var t := Log(s, Answered(s.resolves - a.age, a.found));
    if Takes(s, a) && a.found.Some? then t.(resolvePending := false, address := a.found) else t
  }

  lemma AnswerOk(s: Conn, a: Answer, n: nat, u: Conn)
    requires Ok(s) && a.age < s.resolves && (Takes(s, a) ==> a.found.Some?) && u == Deliver(s, a, n)
    ensures u == AfterAnswer(s, a) && Ok(u)
  {
  }

  lemma AnswerLogged(first: Record, s: Conn, a: Answer, t: Conn)
    requires Faithful(first, s) && Ok(s) && a.age < s.resolves && t == AfterAnswer(s, a)
    ensures Faithful(first, t)
  {
    var e := Answered(s.resolves - a.age, a.found);
    FollowOne(first, s.log, e);
    AnswerCounts(FollowAll(first, s.log), s, a, FollowAll(first, t.log), t);
  }

  /** A failed question ends the attempt. */
  lemma AnswerFails(first: Record, s: Conn, a: Answer, n: nat, u: Conn)
    requires Faithful(first, s) && Ok(s) && a.age < s.resolves && Takes(s, a) && a.found.None? && u == Deliver(s, a, n)
    ensures Faithful(first, u) && Ok(u)
  {
    var t := Log(s, Answered(s.resolves - a.age, a.found));
    AnswerLogged(first, s, a, t);
    assert u == Abort(t, ResolveFailed, n);
    AbortMidway(first, t, ResolveFailed, n);
  }

  /** Within 2^32 questions the kept 32 bits identify the question. */
  lemma YoungAnswer(resolves: nat, age: nat)
    requires age <= resolves && age < RESOLVE_IDS
    ensures (resolves - age) % RESOLVE_IDS == resolves % RESOLVE_IDS <==> age == 0
  {
  }

  lemma {:induction false} DeliverAllFollows(first: Record, s: Conn, answers: seq<Answer>, n: nat)
    requires Faithful(first, s) && Ok(s)
    ensures Faithful(first, DeliverAll(s, answers, n)) && Ok(DeliverAll(s, answers, n))
  {
    if answers == [] {
    } else {
      DeliverAllFollows(first, s, answers[..|answers| - 1], n);
      DeliverFollows(first, DeliverAll(s, answers[..|answers| - 1], n), answers[|answers| - 1], n,
                     DeliverAll(s, answers, n));
    }
  }

  lemma AskingFollows(first: Record, s: Conn, t: Conn)
    requires Faithful(first, s) && Ok(s) && PhaseOf(s) == Fresh && t == Asking(s)
    ensures Faithful(first, t)
  {
    FollowOne(first, s.log, Asked(s.resolves + 1, s.connectCallback.value));
  }

  lemma AskFollows(first: Record, s: Conn, answers: seq<Answer>, n: nat)
    requires Faithful(first, s) && Ok(s) && s.connectCallback.Some?
    ensures Faithful(first, Ask(s, answers, n))
  {
    if PhaseOf(s) == Fresh {
      AskingOk(s);
      AskingFollows(first, s, Asking(s));
      DeliverAllFollows(first, Asking(s), answers, n);
    }
  }

  /** The socket is open: what is left of dialing. */
  lemma OpenedFollows(first: Record, s: Conn, d: Dial, t: Conn, u: Conn, n: nat)
    requires Faithful(first, s) && Ok(s) && PhaseOf(s) == Resolved && d.socket.Some?
    requires t == Log(s.(pendingFd := d.socket), Opened(d.socket.value))
    requires u == Log(t, Dialed(s.connectCallback.value, s.address.value))
    ensures Faithful(first, Abort(t, SocketGetFlagsFailed, n)) && Faithful(first, Abort(t, SocketSetFlagsFailed, n))
    ensures Faithful(first, Abort(u, SocketConnectFailed, n))
    ensures forall deadline :: Faithful(first, u.(address := None, deadline := deadline))
  {
    OpenFollows(first, s, d.socket.value);
    AbortMidway(first, t, SocketGetFlagsFailed, n);
    AbortMidway(first, t, SocketSetFlagsFailed, n);
    AbortMidway(first, u, SocketConnectFailed, n);
  }

  lemma DialFollows(first: Record, s: Conn, d: Dial, at: int, n: nat)
    requires Faithful(first, s) && Ok(s) && PhaseOf(s) == Resolved
    ensures var t := DialNow(s, d, at, n);
            && Faithful(first, t.conn) && Ok(t.conn)
            && PhaseOf(t.conn) == if t.go then Dialing else Idle
  {
    DialKeeps(s, d, at, n);
    if s.address.value.family == OtherFamily {
      AbortMidway(first, s, InvalidAddressType, n);
    } else if d.socket.None? {
      AbortMidway(first, s, SocketCreateFailed, n);
    } else {
      var t := Log(s.(pendingFd := d.socket), Opened(d.socket.value));
      OpenedFollows(first, s, d, t, Log(t, Dialed(s.connectCallback.value, s.address.value)), n);
    }
  }

  lemma OpenFollows(first: Record, s: Conn, fd: nat)
    requires Faithful(first, s) && Ok(s) && PhaseOf(s) == Resolved
    ensures var ticket := s.connectCallback.value;
            var r := FollowAll(first, s.log);
            var t := Log(s.(pendingFd := Some(fd)), Opened(fd));
            && FollowAll(first, t.log) == r.(session := Waiting(ticket, Some(fd)))
            && FollowAll(first, Log(t, Dialed(ticket, s.address.value)).log) ==
               r.(session := Waiting(ticket, Some(fd)), question := Track(r.question, Dialed(ticket, s.address.value)))
  {
    var t := Log(s.(pendingFd := Some(fd)), Opened(fd));
    FollowOne(first, s.log, Opened(fd));
    FollowOne(first, t.log, Dialed(s.connectCallback.value, s.address.value));
  }

  lemma AwaitFollows(first: Record, s: Conn, w: Wait, now: int, n: nat)
    requires Faithful(first, s) && Ok(s) && PhaseOf(s) == Dialing
    ensures Faithful(first, AwaitConnection(s, w, now, n).conn) && Ok(AwaitConnection(s, w, now, n).conn)
  {
    if now >= s.deadline {
      AbortFollows(first, s, Timeout, n);
      AbortKeeps(s, Timeout, n);
    } else if w == Ready {
      var t := s.(fd := s.pendingFd, pendingFd := None, connectCallback := None,
                  disconnectCallback := s.pendingDisconnectCallback, pendingDisconnectCallback := None);
      NotifyFollows(first, t, Told(s.connectCallback.value, Connected), n);
    } else if w != InProgress {
      var r := match w case SelectFailed => SocketSelectFailed case OptionFailed => SocketGetOptionFailed
                       case _ => SocketConnectAsyncFailed;
      AbortFollows(first, s, r, n);
      AbortKeeps(s, r, n);
    }
  }

  lemma AdvanceFollows(first: Record, s: Conn, e: TickEnv)
    requires Faithful(first, s) && Ok(s) && s.connectCallback.Some?
    ensures Faithful(first, Advance(s, e).conn) && Ok(Advance(s, e).conn)
  {
    AskKeeps(s, e.answers, e.told);
    AskFollows(first, s, e.answers, e.told);
    var t := Ask(s, e.answers, e.told);
    if t.pendingFd.Some? || t.address.Some? {
      if t.pendingFd.None? { DialFollows(first, t, e.dial, e.dialedAt, e.told); }
      var u := if t.pendingFd.None? then DialNow(t, e.dial, e.dialedAt, e.told) else Stepped(t, true);
      if u.go { AwaitFollows(first, u.conn, e.wait, e.now, e.told); }
    }
  }

  lemma {:induction false} ReceiveFollows(first: Record, s: Conn, rs: seq<Received>, n: nat)
    requires Faithful(first, s) && Ok(s)
    ensures Faithful(first, ReceiveLoop(s, rs, n)) && Ok(ReceiveLoop(s, rs, n))
    decreases |rs|
  {
    if rs != [] && s.fd.Some? {
      match rs[0]
      case Continue => ReceiveFollows(first, s, rs[1..], n);
      case Stop =>
      case Dropped(reason) =>
        DropFollows(first, s, reason, n);
        DropKeeps(s, reason, n);
    }
  }

  lemma TickFollows(first: Record, s: Conn, guarded: bool, e: TickEnv)
    requires Faithful(first, s) && Ok(s)
    ensures Faithful(first, Tick(s, guarded, e)) && Ok(Tick(s, guarded, e))
  {
    if !guarded && s.host.Some? {
      HookKeeps(s, e);
      var t := if e.hook.Some? && s.disconnectCallback.Some? then Drop(s, e.hook.value, e.lost) else s;
      if t != s { DropFollows(first, s, e.hook.value, e.lost); }
      var u := if t.host.Some? && t.fd.None? then Advance(t, e) else Stepped(t, true);
      if t.host.Some? && t.fd.None? { AdvanceFollows(first, t, e); }
      if u.go { ReceiveFollows(first, u.conn, [e.first] + e.more, e.lost); }
    }
  }

  // ---- Runs ----

  /** The calls that the outside makes; `guarded` ones come from callbacks.  An answer arrives for a
      question that was asked. */
  datatype Op =
    | Connecting(guarded: bool, args: ConnectArgs, told: nat)
    | Disconnecting(guarded: bool, told: nat, lost: nat)
    | Ticking(guarded: bool, env: TickEnv)
    | Answering(answer: Answer, told: nat)

  function Apply(s: Conn, op: Op): Conn
    requires Ok(s)
  {
    match op
    case Connecting(g, a, n) => Connect(s, g, a, n)
    case Disconnecting(g, n, m) => Disconnect(s, g, n, m)
    case Ticking(g, e) => Tick(s, g, e)
    case Answering(a, n) => Deliver(s, a, n)
  }

  lemma ApplyFollows(first: Record, s: Conn, op: Op)
    requires Faithful(first, s) && Ok(s)
    ensures Faithful(first, Apply(s, op)) && Ok(Apply(s, op))
  {
    match op
    case Connecting(g, a, n) => ConnectFollows(first, s, g, a, n);
    case Disconnecting(g, n, m) => DisconnectFollows(first, s, g, n, m);
    case Ticking(g, e) => TickFollows(first, s, g, e);
    case Answering(a, n) => DeliverFollows(first, s, a, n, Deliver(s, a, n));
  }

  ghost function Exec(ops: seq<Op>): (s: Conn)
    ensures Ok(s) && Faithful(EMPTY, s)
  {
    if ops == [] then NEW
    else
      ApplyFollows(EMPTY, Exec(ops[..|ops| - 1]), ops[|ops| - 1]);
      Apply(Exec(ops[..|ops| - 1]), ops[|ops| - 1])
  }

  // ---- What the log of a run shows ----

  /** Every reachable state is in exactly one phase; the connect callback is held while a host is
      set and no socket is connected, the disconnect callback while one is. */
  lemma OnePhase(ops: seq<Op>)
    ensures forall p :: InPhase(Exec(ops), p) <==> p == PhaseOf(Exec(ops))
    ensures var s := Exec(ops);
            && (s.connectCallback.Some? <==> s.host.Some? && s.fd.None?)
            && (s.disconnectCallback.Some? <==> s.fd.Some?)
  {
    var s := Exec(ops);
    forall p | InPhase(s, p) ensures p == PhaseOf(s) {
      match p
      case Idle => case Fresh => case Resolving => case Resolved => case Dialing => case Up =>
    }
  }

  /** The life of one call of `connect`, as its caller sees it. */
  datatype Life = Uncalled | Pending | Live | Over | Wrong

  function Live1(l: Life, ticket: nat, e: Event): Life {
    if e.Accepted? && e.ticket == ticket then if l == Uncalled then Pending else Wrong
    else if e.Refused? && e.ticket == ticket then if l == Uncalled then Over else Wrong
    else if e.Told? && e.ticket == ticket then
      if l == Pending then if e.result == Connected then Live else Over else Wrong
    else if e.Lost? && e.ticket == ticket then if l == Live then Over else Wrong
    else l
  }

  function LifeOf(log: seq<Event>, ticket: nat): Life {
    if log == [] then Uncalled else Live1(LifeOf(log[..|log| - 1], ticket), ticket, log[|log| - 1])
  }

  function LifeIn(r: Record, ticket: nat): Life {
    if ticket >= r.tickets then Uncalled
    else if r.session.Waiting? && r.session.ticket == ticket then Pending
    else if (r.session.Connection? || r.session.Ending?) && r.session.ticket == ticket then Live
    else Over
  }

  predicate Known(r: Record) { r.session.NoSession? || r.session.Violated? || r.session.ticket < r.tickets }

  lemma LifeStep(r: Record, e: Event, ticket: nat)
    requires Known(r) && Follow(r, e).session != Violated
    ensures Known(Follow(r, e)) && r.session != Violated
    ensures LifeIn(Follow(r, e), ticket) == Live1(LifeIn(r, ticket), ticket, e)
  {
  }

  lemma StaysViolated(r: Record, e: Event)
    ensures r.session == Violated ==> Follow(r, e).session == Violated
  {
  }

  lemma {:induction false} LifeFollows(log: seq<Event>, ticket: nat)
    requires FollowAll(EMPTY, log).session != Violated
    ensures Known(FollowAll(EMPTY, log)) && LifeOf(log, ticket) == LifeIn(FollowAll(EMPTY, log), ticket)
  {
    if log == [] {
    } else {
      var rest := log[..|log| - 1];
      StaysViolated(FollowAll(EMPTY, rest), log[|log| - 1]);
      LifeFollows(rest, ticket);
      LifeStep(FollowAll(EMPTY, rest), log[|log| - 1], ticket);
    }
  }

  /** Over every run, each call of `connect` gets its connect callback exactly once, and its
      disconnect callback exactly once if that told Connected and never otherwise; it still waits
      for the former exactly while the client holds its connect callback, for the latter exactly
      while the client holds its disconnect callback.  An idle client owes nobody anything. */
  lemma CallbacksExactlyOnce(ops: seq<Op>, ticket: nat)
    ensures var s := Exec(ops);
            LifeOf(s.log, ticket) ==
              if ticket >= s.tickets then Uncalled
              else if s.connectCallback == Some(ticket) then Pending
              else if s.disconnectCallback == Some(ticket) then Live
              else Over
  {
    LifeFollows(Exec(ops).log, ticket);
  }

  /** The open socket of a log in which sockets are opened one at a time. */
  datatype Sockets = AllClosed | OneOpen(fd: nat) | Mishandled

  function SocketsOf(log: seq<Event>): Sockets {
    if log == [] then AllClosed
    else
      var s, e := SocketsOf(log[..|log| - 1]), log[|log| - 1];
      if e.Opened? then if s == AllClosed then OneOpen(e.fd) else Mishandled
      else if e.Closed? then if s == OneOpen(e.fd) then AllClosed else Mishandled
      else s
  }

  function SocketsIn(s: Session): Sockets {
    match s
    case Waiting(_, Some(fd)) => OneOpen(fd)
    case Connection(_, fd) => OneOpen(fd)
    case _ => AllClosed
  }

  lemma {:induction false} SocketsFollow(log: seq<Event>)
    requires FollowAll(EMPTY, log).session != Violated
    ensures SocketsOf(log) == SocketsIn(FollowAll(EMPTY, log).session)
  {
    if log == [] {
    } else {
      var rest := log[..|log| - 1];
      StaysViolated(FollowAll(EMPTY, rest), log[|log| - 1]);
      SocketsFollow(rest);
    }
  }

  /** Every socket that was opened is closed exactly once, except the one that the client holds. */
  lemma SocketsClosedOnce(ops: seq<Op>)
    ensures var s := Exec(ops);
            SocketsOf(s.log) == if s.pendingFd.Some? then OneOpen(s.pendingFd.value)
                                else if s.fd.Some? then OneOpen(s.fd.value) else AllClosed
  {
    SocketsFollow(Exec(ops).log);
  }

  // ---- Addresses ----

  /** Before entry k, the resolver was asked for this ticket and answered with this address. */
  ghost predicate ResolvedFor(log: seq<Event>, k: nat, ticket: nat, address: Address) {
    exists i, j :: 0 <= i < j < k <= |log| && log[i].Asked? && log[i].ticket == ticket
                   && log[j] == Answered(log[i].serial, Some(address))
  }

  ghost predicate AskedFor(log: seq<Event>, serial: nat, ticket: nat) {
    exists i :: 0 <= i < |log| && log[i] == Asked(serial, ticket)
  }

  lemma {:induction false} QuestionsFollow(log: seq<Event>)
    requires FollowAll(EMPTY, log).question != Misused
    ensures var q := FollowAll(EMPTY, log).question;
            && (q.Open? ==> AskedFor(log, q.serial, q.ticket))
            && (q.Found? ==> ResolvedFor(log, |log|, q.ticket, q.address))
    ensures forall k :: 0 <= k < |log| && log[k].Dialed? ==> ResolvedFor(log, k, log[k].ticket, log[k].address)
  {
    if log == [] {
    } else {
      var rest, e := log[..|log| - 1], log[|log| - 1];
      QuestionsFollow(rest);
      var q := FollowAll(EMPTY, rest).question;
      assert log == rest + [e];
      if e.Asked? { assert AskedFor(rest + [e], e.serial, e.ticket) by { assert (rest + [e])[|rest|] == e; } }
      if q.Open? { QuestionStays(rest, e, q.serial, q.ticket); }
      if q.Found? { Prefixed(rest, e, |rest|, q.ticket, q.address); }
      forall k | 0 <= k < |rest| && log[k].Dialed? ensures ResolvedFor(log, k, log[k].ticket, log[k].address) {
        assert log[k] == rest[k];
        Prefixed(rest, e, k, log[k].ticket, log[k].address);
      }
    }
  }

  /** A question that was asked, and perhaps its answer. */
  lemma QuestionStays(log: seq<Event>, e: Event, serial: nat, ticket: nat)
    requires AskedFor(log, serial, ticket)
    ensures AskedFor(log + [e], serial, ticket)
    ensures e.Answered? && e.serial == serial && e.found.Some? ==>
      ResolvedFor(log + [e], |log| + 1, ticket, e.found.value)
  {
    var i :| 0 <= i < |log| && log[i] == Asked(serial, ticket);
    assert (log + [e])[i] == log[i] && (log + [e])[|log|] == e;
  }

  lemma Prefixed(log: seq<Event>, e: Event, k: nat, ticket: nat, address: Address)
    requires ResolvedFor(log, k, ticket, address)
    ensures ResolvedFor(log + [e], k, ticket, address) && ResolvedFor(log + [e], |log| + 1, ticket, address)
  {
    var i, j :| 0 <= i < j < k <= |log| && log[i].Asked? && log[i].ticket == ticket
                && log[j] == Answered(log[i].serial, Some(address));
    assert (log + [e])[i] == log[i] && (log + [e])[j] == log[j];
  }

  /** Over every run with at most 2^32 questions to the resolver, each connection attempt dials an
      address that the resolver gave in answer to a question asked for this very attempt. */
  lemma AttemptUsesItsOwnAddress(ops: seq<Op>, k: nat)
    requires Exec(ops).resolves <= RESOLVE_IDS
    requires k < |Exec(ops).log| && Exec(ops).log[k].Dialed?
    ensures ResolvedFor(Exec(ops).log, k, Exec(ops).log[k].ticket, Exec(ops).log[k].address)
  {
    QuestionsFollow(Exec(ops).log);
  }

  /** Exactly when an answer has any effect: the client waits for one, and the answer is as old as
      a multiple of 2^32 questions.  So the answer to an earlier question is a no-op, until the
      serials have wrapped around. */
  lemma AnswerTakenExactly(ops: seq<Op>, a: Answer, n: nat)
    requires a.age < Exec(ops).resolves
    ensures var s := Exec(ops);
            Deliver(s, a, n) != Log(s, Answered(s.resolves - a.age, a.found))
            <==> PhaseOf(s) == Resolving && a.age % RESOLVE_IDS == 0
  {
    AnswerTaken(Exec(ops), a, n);
  }

  lemma AnswerTaken(s: Conn, a: Answer, n: nat)
    requires Ok(s) && a.age < s.resolves
    ensures Deliver(s, a, n) != Log(s, Answered(s.resolves - a.age, a.found))
            <==> PhaseOf(s) == Resolving && a.age % RESOLVE_IDS == 0
  {
    OldAnswer(s.resolves, a.age);
    if Takes(s, a) && a.found.None? { AbortKeeps(Log(s, Answered(s.resolves - a.age, a.found)), ResolveFailed, n); }
  }

  lemma OldAnswer(resolves: nat, age: nat)
    requires age <= resolves
    ensures (resolves - age) % RESOLVE_IDS == resolves % RESOLVE_IDS <==> age % RESOLVE_IDS == 0
  {
    var m := RESOLVE_IDS;
    var x, y := resolves - age, resolves;
    assert x == m * (x / m) + x % m && y == m * (y / m) + y % m && age == m * (age / m) + age % m;
    if x % m == y % m {
      ModUnique(age, m, y / m - x / m, 0);
    }
    if age % m == 0 {
      ModUnique(y, m, x / m + age / m, x % m);
    }
  }

  // ---- A run in which an old answer is taken ----

  const CONNECTING := Connecting(false, ConnectArgs(true, Some("h"), 502, true), 0)
  const ASKING := Ticking(false, TickEnv(None, [], Dial(None, false, false, false), 0, 0, InProgress, Stop, [], 0, 0))
  const GIVING_UP := Disconnecting(false, 0, 0)

  /** The last step of a run. */
  lemma ExecLast(ops: seq<Op>, op: Op)
    ensures Exec(ops + [op]) == Apply(Exec(ops), op)
  {
    assert (ops + [op])[..|ops|] == ops;
  }

  /** An idle client that connects and asks the resolver, which stays silent. */
  lemma AsksOnce(s: Conn)
    requires Ok(s) && PhaseOf(s) == Idle
    ensures var t := Apply(s, CONNECTING);
            Ok(t) && var u := Apply(t, ASKING);
            && Ok(u) && PhaseOf(u) == Resolving && u.resolves == s.resolves + 1
            && u.log == s.log + [Accepted(s.tickets), Asked(s.resolves + 1, s.tickets)]
  {
    ConnectKeeps(s, false, CONNECTING.args, 0);
    var t := Apply(s, CONNECTING);
    TickKeeps(t, false, ASKING.env);
    NextResolveId(s.resolves);
  }

  /** The client connects, asks and is disconnected before an answer, n times; then it asks once more. */
  function Rounds(n: nat): seq<Op> {
    if n == 0 then [] else Rounds(n - 1) + [CONNECTING] + [ASKING] + [GIVING_UP]
  }

  function AskingRun(n: nat): seq<Op> { Rounds(n) + [CONNECTING] + [ASKING] }

  lemma AskingAgain(n: nat)
    requires PhaseOf(Exec(Rounds(n))) == Idle && Exec(Rounds(n)).resolves == n
    ensures PhaseOf(Exec(AskingRun(n))) == Resolving && Exec(AskingRun(n)).resolves == n + 1
  {
    ExecLast(Rounds(n), CONNECTING);
    ExecLast(Rounds(n) + [CONNECTING], ASKING);
    AsksOnce(Exec(Rounds(n)));
  }

  lemma GivesUp(s: Conn)
    requires Ok(s) && PhaseOf(s) == Resolving
    ensures PhaseOf(Apply(s, GIVING_UP)) == Idle && Apply(s, GIVING_UP).resolves == s.resolves
  {
    AbortKeeps(s, AbortRequested, 0);
  }

  lemma {:induction false} RoundsAsk(n: nat)
    ensures PhaseOf(Exec(Rounds(n))) == Idle && Exec(Rounds(n)).resolves == n
  {
    if n == 0 {
    } else {
      RoundsAsk(n - 1);
      AskingAgain(n - 1);
      ExecLast(AskingRun(n - 1), GIVING_UP);
      assert Rounds(n) == AskingRun(n - 1) + [GIVING_UP];
      GivesUp(Exec(AskingRun(n - 1)));
    }
  }

  /** The wrap-around happens: for every multiple of 2^32 there is a run after which the answer to a
      question asked so many questions ago, for a connection attempt that was given up, is taken for
      the answer to the latest one. */
  lemma OldAnswerTaken(n: nat, address: Address)
    requires n % RESOLVE_IDS == 0
    ensures var s := Exec(AskingRun(n));
            s.resolves == n + 1 && s.address.None? && Deliver(s, Answer(n, Some(address)), 0).address == Some(address)
  {
    RoundsAsk(n);
    AskingAgain(n);
    OldAnswer(n + 1, n);
  }
}
