/** The callbacks in the log of the generic TCP client: a tick tells one connect callback at most. */
module TcpCallbacks {
  import opened Bytes
  import opened TcpRules

  /** The calls of connect and disconnect callbacks of accepted calls of `connect`, in order. */
  function Callbacks(log: seq<Event>): seq<Event> {
    if log == [] then []
    else
      var e := log[|log| - 1];
      Callbacks(log[..|log| - 1]) + if e.Told? || e.Lost? then [e] else []
  }

  lemma CallbacksOne(log: seq<Event>, e: Event)
    ensures Callbacks(log + [e]) == Callbacks(log) + if e.Told? || e.Lost? then [e] else []
  {
    assert (log + [e])[..|log|] == log;
  }

  lemma {:induction false} ReenterCalls(s: Conn, n: nat)
    ensures Callbacks(Reenter(s, n).log) == Callbacks(s.log)
  {
    if n == 0 {
    } else {
      ReenterCalls(s, n - 1);
      CallbacksOne(Reenter(s, n - 1).log, Refused(Reenter(s, n - 1).tickets, NonReentrant));
    }
  }

  lemma NotifyCalls(s: Conn, e: Event, n: nat)
    requires e.Told? || e.Lost?
    ensures Callbacks(Notify(s, e, n).log) == Callbacks(s.log) + [e]
  {
    CallbacksOne(s.log, e);
    ReenterCalls(Log(s, e), n);
  }

  lemma CloseCalls(s: Conn)
    ensures Callbacks(Close(s).log) == Callbacks(s.log)
  {
    if s.pendingFd.Some? { CallbacksOne(s.log, Closed(s.pendingFd.value)); }
    var log := s.log + ClosedOf(s.pendingFd);
    if s.fd.Some? { CallbacksOne(log, Closed(s.fd.value)); }
    assert s.log + [] == s.log && log + [] == log;
  }

  lemma AbortCalls(s: Conn, result: ConnectResult, n: nat)
    requires s.connectCallback.Some?
    ensures Callbacks(Abort(s, result, n).log) == Callbacks(s.log) + [Told(s.connectCallback.value, result)]
  {
    CloseCalls(s);
    NotifyCalls(Close(s), Told(s.connectCallback.value, result), n);
  }

  lemma DropCalls(s: Conn, reason: Reason, n: nat)
    requires s.disconnectCallback.Some?
    ensures Callbacks(Drop(s, reason, n).log) == Callbacks(s.log) + [Lost(s.disconnectCallback.value, reason)]
  {
    CloseCalls(s);
    NotifyCalls(Close(s), Lost(s.disconnectCallback.value, reason), n);
  }

  /** From a state s on, no callback was told and the socket is the same, or one connect callback was told:
      the client is connected if that told Connected, and idle otherwise. */
  ghost predicate Tells(s: Conn, t: Conn) {
    var before, calls := Callbacks(s.log), Callbacks(t.log);
    || (calls == before && t.fd == s.fd)
    || (&& calls != [] && calls == before + [calls[|calls| - 1]] && calls[|calls| - 1].Told?
        && (if calls[|calls| - 1].result == Connected then t.fd.Some? else PhaseOf(t) == Idle))
  }

  lemma AbortTells(first: Conn, s: Conn, result: ConnectResult, n: nat)
    requires s.connectCallback.Some? && s.resolveId == s.resolves % RESOLVE_IDS && result != Connected
    requires Callbacks(s.log) == Callbacks(first.log)
    ensures Tells(first, Abort(s, result, n)) && PhaseOf(Abort(s, result, n)) == Idle
  {
    AbortCalls(s, result, n);
    AbortKeeps(s, result, n);
  }

  /** An answer tells the connect callback only if it ends the attempt. */
  lemma DeliverTells(s: Conn, a: Answer, n: nat, t: Conn)
    requires Ok(s) && t == Deliver(s, a, n)
    ensures Tells(s, t) && (Callbacks(t.log) != Callbacks(s.log) ==> PhaseOf(t) == Idle)
    ensures PhaseOf(s) == Idle ==> PhaseOf(t) == Idle && Callbacks(t.log) == Callbacks(s.log)
  {
    if a.age < s.resolves {
      var u := Log(s, Answered(s.resolves - a.age, a.found));
      CallbacksOne(s.log, Answered(s.resolves - a.age, a.found));
      if Takes(s, a) && a.found.None? {
        AbortTells(s, u, ResolveFailed, n);
        assert t == Abort(u, ResolveFailed, n);
      } else {
        assert t.log == u.log && t.fd == s.fd;
      }
    }
  }

  lemma {:induction false} DeliverAllTells(s: Conn, answers: seq<Answer>, n: nat)
    requires Ok(s) && PhaseOf(s) in {Idle, Resolving, Resolved}
    ensures var t := DeliverAll(s, answers, n);
            Tells(s, t) && (Callbacks(t.log) != Callbacks(s.log) ==> PhaseOf(t) == Idle)
  {
    if answers == [] {
    } else {
      var k := |answers| - 1;
      DeliverAllKeeps(s, answers[..k], n);
      DeliverAllTells(s, answers[..k], n);
      DeliverTells(DeliverAll(s, answers[..k], n), answers[k], n, DeliverAll(s, answers, n));
    }
  }

  lemma TellsFrom(s: Conn, v: Conn, t: Conn)
    requires Tells(v, t) && Callbacks(v.log) == Callbacks(s.log) && v.fd == s.fd
    ensures Tells(s, t)
  {
  }

  lemma AskingTells(s: Conn)
    requires Ok(s) && PhaseOf(s) == Fresh
    ensures Callbacks(Asking(s).log) == Callbacks(s.log)
  {
    CallbacksOne(s.log, Asked(s.resolves + 1, s.connectCallback.value));
  }

  lemma AskTells(s: Conn, answers: seq<Answer>, n: nat, t: Conn)
    requires Ok(s) && s.connectCallback.Some? && t == Ask(s, answers, n)
    ensures Tells(s, t) && (Callbacks(t.log) != Callbacks(s.log) ==> PhaseOf(t) == Idle)
  {
    if PhaseOf(s) == Fresh {
      AskingOk(s);
      AskingTells(s);
      DeliverAllTells(Asking(s), answers, n);
      TellsFrom(s, Asking(s), t);
    }
  }

  lemma DialTells(s: Conn, d: Dial, at: int, n: nat)
    requires Ok(s) && PhaseOf(s) == Resolved
    ensures var t := DialNow(s, d, at, n);
            Tells(s, t.conn) && (t.go ==> Callbacks(t.conn.log) == Callbacks(s.log)) && t.conn.fd.None?
  {
    if s.address.value.family == OtherFamily {
      AbortTells(s, s, InvalidAddressType, n);
    } else if d.socket.None? {
      AbortTells(s, s, SocketCreateFailed, n);
    } else {
      var t := Log(s.(pendingFd := d.socket), Opened(d.socket.value));
      CallbacksOne(s.log, Opened(d.socket.value));
      if !d.getFlags {
        AbortTells(s, t, SocketGetFlagsFailed, n);
      } else if !d.setFlags {
        AbortTells(s, t, SocketSetFlagsFailed, n);
      } else {
        var e := Dialed(s.connectCallback.value, s.address.value);
        CallbacksOne(t.log, e);
        if !d.connect { AbortTells(s, Log(t, e), SocketConnectFailed, n); }
      }
    }
  }

  lemma AwaitTells(s: Conn, w: Wait, now: int, n: nat)
    requires Ok(s) && PhaseOf(s) == Dialing
    ensures var t := AwaitConnection(s, w, now, n); Tells(s, t.conn) && (t.go <==> t.conn.fd.Some?)
  {
    if now >= s.deadline {
      AbortTells(s, s, Timeout, n);
    } else {
      match w
      case SelectFailed => AbortTells(s, s, SocketSelectFailed, n);
      case InProgress =>
      case OptionFailed => AbortTells(s, s, SocketGetOptionFailed, n);
      case Broken => AbortTells(s, s, SocketConnectAsyncFailed, n);
      case Ready => ReadyTells(s, now, n);
    }
  }

  lemma ReadyTells(s: Conn, now: int, n: nat)
    requires Ok(s) && PhaseOf(s) == Dialing && now < s.deadline
    ensures var t := AwaitConnection(s, Ready, now, n); Tells(s, t.conn) && t.go && t.conn.fd.Some?
  {
    var t := s.(fd := s.pendingFd, pendingFd := None, connectCallback := None,
                disconnectCallback := s.pendingDisconnectCallback, pendingDisconnectCallback := None);
    NotifyCalls(t, Told(s.connectCallback.value, Connected), n);
    ReenterKeeps(Log(t, Told(s.connectCallback.value, Connected)), n);
  }

  /** The connecting part of a tick tells one connect callback at most, and goes on only with a socket. */
  lemma AdvanceTells(s: Conn, e: TickEnv)
    requires Ok(s) && s.connectCallback.Some?
    ensures Tells(s, Advance(s, e).conn) && (Advance(s, e).go <==> Advance(s, e).conn.fd.Some?)
  {
    AskKeeps(s, e.answers, e.told);
    var t := Ask(s, e.answers, e.told);
    AskTells(s, e.answers, e.told, t);
    if t.pendingFd.Some? || t.address.Some? {
      if t.pendingFd.None? {
        DialTells(t, e.dial, e.dialedAt, e.told);
        DialKeeps(t, e.dial, e.dialedAt, e.told);
      }
      var u := if t.pendingFd.None? then DialNow(t, e.dial, e.dialedAt, e.told) else Stepped(t, true);
      if u.go { AwaitTells(u.conn, e.wait, e.now, e.told); }
    }
  }
}
