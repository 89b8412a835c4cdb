/** The generic TCP client object, whose methods update its fields as the rules say. */
module TcpClient {
  import opened Bytes
  import opened TcpRules

  class Client {
    var nonReentrant: bool
    var host: Option<string>
    var port: Word
    var connectCallback: Option<nat>
    var pendingDisconnectCallback: Option<nat>
    var disconnectCallback: Option<nat>
    var resolvePending: bool
    var resolveId: nat
    var pendingHostAddress: Option<Address>
    var pendingSocketFd: Option<nat>
    var connectDeadline: int
    var socketFd: Option<nat>

    // The books: calls of `connect` and questions so far, and what has happened.
    var tickets: nat
    var resolves: nat
    var log: seq<Event>

    ghost function State(): Conn
      reads this
    {
      Conn(host, port, connectCallback, pendingDisconnectCallback, disconnectCallback, resolvePending, resolveId,
           pendingHostAddress, pendingSocketFd, connectDeadline, socketFd, tickets, resolves, log)
    }

    ghost predicate Valid()
      reads this
    {
      Ok(State())
    }

    constructor ()
      ensures Valid() && State() == NEW && !nonReentrant
    {
      nonReentrant, host, port := false, None, 0;
      connectCallback, pendingDisconnectCallback, disconnectCallback := None, None, None;
      resolvePending, resolveId, pendingHostAddress := false, 0, None;
      pendingSocketFd, connectDeadline, socketFd := None, 0, None;
      tickets, resolves, log := 0, 0, [];
    }

    /** The connect callback of a refused call. */
    method Refuse(result: ConnectResult)
      modifies this`tickets, this`log
      ensures State() == TcpRules.Refuse(old(State()), result)
    {
      log := log + [Refused(tickets, result)];
      tickets := tickets + 1;
    }

    /** Calls back, and runs into the n calls of `connect` that the callback makes while the client
        is guarded. */
    method Reenter(n: nat)
      modifies this`tickets, this`log
      ensures State() == TcpRules.Reenter(old(State()), n)
    {
      for i := 0 to n
        invariant State() == TcpRules.Reenter(old(State()), i)
      {
        Refuse(NonReentrant);
      }
    }

    method CallBack(e: Event, n: nat)
      modifies this`tickets, this`log
      ensures State() == Notify(old(State()), e, n)
    {
      log := log + [e];
      Reenter(n);
    }

    method Close()
      modifies this`host, this`port, this`connectCallback, this`pendingDisconnectCallback, this`disconnectCallback,
        this`resolvePending, this`pendingHostAddress, this`pendingSocketFd, this`socketFd, this`log
      ensures host == None && port == 0
      ensures connectCallback == None && pendingDisconnectCallback == None && disconnectCallback == None
      ensures !resolvePending && pendingHostAddress == None && pendingSocketFd == None && socketFd == None
      ensures log == old(log) + ClosedOf(old(pendingSocketFd)) + ClosedOf(old(socketFd))
    {
      log := log + ClosedOf(pendingSocketFd) + ClosedOf(socketFd);
      pendingSocketFd := None;
      socketFd := None;
      host := None;
      port := 0;
      connectCallback := None;
      pendingDisconnectCallback := None;
      disconnectCallback := None;
      resolvePending := false;
      pendingHostAddress := None;
    }

    method AbortConnect(result: ConnectResult, n: nat)
      requires connectCallback.Some?
      modifies this
      ensures State() == Abort(old(State()), result, n)
      ensures nonReentrant == old(nonReentrant)
    {
      var callback := connectCallback.value;
      connectCallback := None;
      Close();
      CallBack(Told(callback, result), n);
    }

    method DropConnection(reason: Reason, n: nat)
      requires disconnectCallback.Some?
      modifies this
      ensures State() == Drop(old(State()), reason, n)
      ensures nonReentrant == old(nonReentrant)
    {
      var callback := disconnectCallback.value;
      disconnectCallback := None;
      Close();
      CallBack(Lost(callback, reason), n);
    }

    /** The public connect. */
    method Connect(a: ConnectArgs, n: nat)
      requires Valid()
      modifies this
      ensures Valid() && State() == TcpRules.Connect(old(State()), nonReentrant, a, n)
      ensures nonReentrant == old(nonReentrant)
    {
      ConnectKeeps(State(), nonReentrant, a, n);
      if !a.callback {
        return;
      }
      if nonReentrant {
        Refuse(NonReentrant);
        return;
      }
      nonReentrant := true;
      ConnectGuarded(a, n);
      nonReentrant := false;
    }

    method ConnectGuarded(a: ConnectArgs, n: nat)
      requires a.callback
      modifies this`host, this`port, this`connectCallback, this`pendingDisconnectCallback, this`tickets, this`log
      ensures State() == TcpRules.Connect(old(State()), false, a, n)
    {
      if a.host.None? || a.host.value == "" || a.port == 0 || !a.disconnectCallback {
        Refuse(InvalidArgument);
        Reenter(n);
        return;
      }
      if host.Some? {
        Refuse(AlreadyConnected);
        Reenter(n);
        return;
      }
      host, port := a.host, a.port;
      connectCallback, pendingDisconnectCallback := Some(tickets), Some(tickets);
      log := log + [Accepted(tickets)];
      tickets := tickets + 1;
    }

    /** The public disconnect. */
    method Disconnect(n: nat, m: nat) returns (result: DisconnectResult)
      requires Valid()
      modifies this
      ensures Valid() && State() == TcpRules.Disconnect(old(State()), nonReentrant, n, m)
      ensures result == if nonReentrant then Reentrant else if old(host).None? then NotConnected else Disconnected
      ensures nonReentrant == old(nonReentrant)
    {
      DisconnectKeeps(State(), nonReentrant, n, m);
      if nonReentrant {
        return Reentrant;
      }
      if host.None? {
        return NotConnected;
      }
      nonReentrant := true;
      DisconnectGuarded(n, m);
      nonReentrant := false;
      result := Disconnected;
    }

    method DisconnectGuarded(n: nat, m: nat)
      requires host.Some?
      modifies this
      ensures State() == TcpRules.Disconnect(old(State()), false, n, m)
      ensures nonReentrant == old(nonReentrant)
    {
      var connected, disconnected := connectCallback, disconnectCallback;
      Close();
      if connected.Some? {
        CallBack(Told(connected.value, AbortRequested), n);
      }
      if disconnected.Some? {
        CallBack(Lost(disconnected.value, Requested), m);
      }
    }

    /** The resolve callback that was made with the ID of its question. */
    method Resolved(currentResolveId: nat, found: Option<Address>, age: nat, n: nat)
      requires Ok(State()) && age < resolves && currentResolveId == (resolves - age) % RESOLVE_IDS
      modifies this
      ensures State() == Deliver(old(State()), Answer(age, found), n)
      ensures nonReentrant == old(nonReentrant)
    {
      log := log + [Answered(resolves - age, found)];
      if !resolvePending || currentResolveId != resolveId {
        return;
      }
      if found.None? {
        pendingHostAddress := None;
        AbortConnect(ResolveFailed, n);
        return;
      }
      resolvePending := false;
      pendingHostAddress := found;
    }

    /** Asks the resolver, which may call back before it returns. */
    method Resolve(answers: seq<Answer>, n: nat)
      requires Ok(State()) && PhaseOf(State()) == Fresh
      modifies this
      ensures State() == Ask(old(State()), answers, n)
      ensures nonReentrant == old(nonReentrant)
    {
      PutQuestion();
      ReceiveAnswers(answers, n);
    }

    /** A new question with its ID. */
    method PutQuestion()
      requires Ok(State()) && PhaseOf(State()) == Fresh
      modifies this`resolvePending, this`resolveId, this`resolves, this`log
      ensures Ok(State()) && PhaseOf(State()) == Resolving
      ensures State() == Asking(old(State()))
    {
      AskingOk(State());
      resolvePending := true;
      resolveId := (resolveId + 1) % RESOLVE_IDS;
      resolves := resolves + 1;
      log := log + [Asked(resolves, connectCallback.value)];
    }

    method ReceiveAnswers(answers: seq<Answer>, n: nat)
      requires Ok(State()) && PhaseOf(State()) == Resolving
      modifies this
      ensures State() == DeliverAll(old(State()), answers, n)
      ensures nonReentrant == old(nonReentrant)
    {
      ghost var s := State();
      for i := 0 to |answers|
        invariant State() == DeliverAll(s, answers[..i], n) && Ok(State())
        invariant nonReentrant == old(nonReentrant)
      {
        DeliverAllKeeps(s, answers[..i], n);
        DeliverKeeps(State(), answers[i], n);
        assert answers[..i + 1][..i] == answers[..i];
        if answers[i].age < resolves {
          Resolved((resolves - answers[i].age) % RESOLVE_IDS, answers[i].found, answers[i].age, n);
        }
      }
      assert answers[..|answers|] == answers;
    }

    /** Opens a socket and starts to connect it; tells whether the attempt is on its way. */
    method DialAddress(d: Dial, at: int, n: nat) returns (go: bool)
      requires connectCallback.Some? && pendingHostAddress.Some?
      modifies this
      ensures Stepped(State(), go) == DialNow(old(State()), d, at, n)
      ensures nonReentrant == old(nonReentrant)
    {
      if pendingHostAddress.value.family == OtherFamily {
        AbortConnect(InvalidAddressType, n);
        return false;
      }
      if d.socket.None? {
        AbortConnect(SocketCreateFailed, n);
        return false;
      }
      pendingSocketFd := d.socket;
      log := log + [Opened(pendingSocketFd.value)];
      if !d.getFlags {
        AbortConnect(SocketGetFlagsFailed, n);
        return false;
      }
      if !d.setFlags {
        AbortConnect(SocketSetFlagsFailed, n);
        return false;
      }
      log := log + [Dialed(connectCallback.value, pendingHostAddress.value)];
      if !d.connect {
        AbortConnect(SocketConnectFailed, n);
        return false;
      }
      pendingHostAddress := None;
      connectDeadline := at + CONNECT_TIMEOUT;
      go := true;
    }

    /** Looks whether the attempt has succeeded or failed. */
    method Await(w: Wait, now: int, n: nat) returns (go: bool)
      requires connectCallback.Some?
      modifies this
      ensures Stepped(State(), go) == AwaitConnection(old(State()), w, now, n)
      ensures nonReentrant == old(nonReentrant)
    {
      if now >= connectDeadline {
        AbortConnect(Timeout, n);
        return false;
      }
      match w {
        case SelectFailed => AbortConnect(SocketSelectFailed, n);
        case InProgress =>
        case OptionFailed => AbortConnect(SocketGetOptionFailed, n);
        case Broken => AbortConnect(SocketConnectAsyncFailed, n);
        case Ready =>
          var callback := connectCallback.value;
          socketFd, pendingSocketFd := pendingSocketFd, None;
          connectCallback := None;
          disconnectCallback := pendingDisconnectCallback;
          pendingDisconnectCallback := None;
          CallBack(Told(callback, Connected), n);
          return true;
      }
      go := false;
    }

    /** The receive loop of a tick. */
    method Receive(rs: seq<Received>, n: nat)
      requires Ok(State())
      modifies this
      ensures State() == ReceiveLoop(old(State()), rs, n)
      ensures nonReentrant == old(nonReentrant)
    {
      var i := 0;
      while socketFd.Some? && i < |rs|
        invariant i <= |rs| && Ok(State())
        invariant ReceiveLoop(State(), rs[i..], n) == ReceiveLoop(old(State()), rs, n)
        invariant nonReentrant == old(nonReentrant)
      {
        match rs[i] {
          case Continue => assert rs[i..][1..] == rs[i + 1..];
          case Stop => return;
          case Dropped(reason) =>
            if disconnectCallback.Some? { DropConnection(reason, n); }
            return;
        }
        i := i + 1;
      }
    }

    method Tick(e: TickEnv)
      requires Valid()
      modifies this
      ensures Valid() && State() == TcpRules.Tick(old(State()), nonReentrant, e)
      ensures nonReentrant == old(nonReentrant)
    {
      TickKeeps(State(), nonReentrant, e);
      if nonReentrant {
        return;
      }
      nonReentrant := true;
      if host.Some? {
        RunTick(e);
      }
      nonReentrant := false;
    }

    method RunTick(e: TickEnv)
      requires Valid() && host.Some?
      modifies this
      ensures State() == TcpRules.Tick(old(State()), false, e)
      ensures nonReentrant == old(nonReentrant)
    {
      HookKeeps(State(), e);
      if e.hook.Some? && disconnectCallback.Some? {
        DropConnection(e.hook.value, e.lost);
      }
      if host.Some? && socketFd.None? {
        AdvanceKeeps(State(), e);
        var go := AdvanceConnection(e);
        if !go { return; }
      }
      Receive([e.first] + e.more, e.lost);
    }

    /** The part of a tick that works on a connection that is not there yet. */
    method AdvanceConnection(e: TickEnv) returns (go: bool)
      requires Ok(State()) && connectCallback.Some?
      modifies this
      ensures Stepped(State(), go) == Advance(old(State()), e)
      ensures nonReentrant == old(nonReentrant)
    {
      AskKeeps(State(), e.answers, e.told);
      if !resolvePending && pendingHostAddress.None? && pendingSocketFd.None? {
        Resolve(e.answers, e.told);
      }
      if pendingSocketFd.None? {
        if pendingHostAddress.None? { return false; }
        go := DialAddress(e.dial, e.dialedAt, e.told);
        if !go { return; }
      }
      go := Await(e.wait, e.now, e.told);
    }

    /** An answer of the resolver that arrives between two calls. */
    method ReceiveAnswer(a: Answer, n: nat)
      requires Valid()
      modifies this
      ensures Valid() && State() == Deliver(old(State()), a, n)
      ensures nonReentrant == old(nonReentrant)
    {
      AnswerKeeps(State(), a, n);
      if a.age < resolves {
        Resolved((resolves - a.age) % RESOLVE_IDS, a.found, a.age, n);
      }
    }

    /** Closes the books, to read the log of the next step alone. */
    method Forget()
      modifies this`log
      ensures State() == old(State()).(log := [])
    {
      log := [];
    }
  }
}
