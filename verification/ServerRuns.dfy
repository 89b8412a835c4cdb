/** What holds over whole runs of the server. */
module ServerRuns {
  import opened ModbusCommon
  import opened ServerFraming
  import opened ServerConnection
  import opened ServerRules

  datatype Op = Start | Stop | Tick(env: Env)

  const OFF := Server(false, 0, [], [])

  function Apply(order: ByteOrder, s: Server, op: Op): (t: Server)
    requires Healthy(s)
  {
    match op
    case Start => s.(running := true)
    case Stop => StopServer(s)
    case Tick(env) => ServerRules.Tick(order, s, env)
  }

  // ---- The list stays healthy ----

  lemma {:induction false} RebuiltParts(os: seq<Treatment>)
    ensures |WokenOf(os)| + |QuietOf(os)| <= |os|
    ensures forall v <- WokenOf(os) :: exists o <- os :: o.fate == Woken(v)
    ensures forall v <- QuietOf(os) :: exists o <- os :: o.fate == Quiet(v)
  {
    if os == [] {
    } else {
      RebuiltParts(os[..|os| - 1]);
    }
  }

  lemma VisitAllHealthy(order: ByteOrder, s: Server, ready: set<int>, env: Env)
    requires Healthy(s) && s.running
    ensures Healthy(VisitAll(order, s, ready, env))
  {
    var os := Treatments(order, s.views, ready, env.stops);
    RebuiltParts(os);
    forall o <- os ensures !o.fate.Dropped? ==> Sound(o.fate.view) {
      var i :| 0 <= i < |os| && os[i] == o;
      assert o == VisitClient(order, s.views[i], s.views[i].fd in ready, env.stops(i));
    }
    forall v <- Rebuilt(os) ensures Sound(v) {
      assert v in WokenOf(os) || v in QuietOf(os);
      var o :| o in os && (o.fate == Woken(v) || o.fate == Quiet(v));
    }
  }

  lemma ApplyHealthy(order: ByteOrder, s: Server, op: Op)
    requires Healthy(s)
    ensures Healthy(Apply(order, s, op))
  {
    if op.Tick? && s.running && op.env.select.Selected? {
      var env := op.env;
      var ready := env.select.ready * Fds(s.views);
      if env.select.serverReady && env.accept.Accepted? {
        var a := Admit(s.views, env.accept.fd, env.accept.peer, env.displaceCheck, env.accepted);
        VisitAllHealthy(order, s.(views := a.views, log := s.log + a.events), ready, env);
      } else {
        VisitAllHealthy(order, s, ready, env);
      }
    }
  }

  function Exec(order: ByteOrder, ops: seq<Op>): (s: Server)
    ensures Healthy(s)
  {
    if ops == [] then OFF
    else
      var s := Exec(order, ops[..|ops| - 1]);
      ApplyHealthy(order, s, ops[|ops| - 1]);
      Apply(order, s, ops[|ops| - 1])
  }

  // ---- Conservation of connections ----

  /** A connection as its peer and its socket name it. */
  datatype Id = Id(fd: int, peer: Peer)

  function One(b: bool): nat { if b then 1 else 0 }

  /** How many clients of the list are this connection. */
  function Listed(views: seq<View>, id: Id): nat {
    if views == [] then 0
    else
      var v := views[|views| - 1];
      Listed(views[..|views| - 1], id) + One(Id(v.fd, v.peer) == id)
  }

  /** How often the connection was accepted, each time with a connect callback. */
  function Opened(log: seq<Event>, id: Id): nat {
    if log == [] then 0
    else
      var e := log[|log| - 1];
      Opened(log[..|log| - 1], id) + One(e.Connect? && Id(e.fd, e.peer) == id)
  }

  /** How often it was closed, each time with a disconnect callback. */
  function Closed(log: seq<Event>, id: Id): nat {
    if log == [] then 0
    else
      var e := log[|log| - 1];
      Closed(log[..|log| - 1], id) + One(e.Hangup? && Id(e.fd, e.peer) == id)
  }

  /** Every accepted connection is either in the list or was closed, exactly once. */
  ghost predicate Balanced(s: Server) {
    forall id :: Opened(s.log, id) == Closed(s.log, id) + Listed(s.views, id)
  }

  lemma {:induction false} LogSplits(a: seq<Event>, b: seq<Event>, id: Id)
    ensures Opened(a + b, id) == Opened(a, id) + Opened(b, id) && Closed(a + b, id) == Closed(a, id) + Closed(b, id)
  {
    if b == [] {
      assert a + b == a;
    } else {
      assert (a + b)[..|a + b| - 1] == a + b[..|b| - 1];
      LogSplits(a, b[..|b| - 1], id);
    }
  }

  lemma {:induction false} ListedSplits(a: seq<View>, b: seq<View>, id: Id)
    ensures Listed(a + b, id) == Listed(a, id) + Listed(b, id)
  {
    if b == [] {
      assert a + b == a;
    } else {
      assert (a + b)[..|a + b| - 1] == a + b[..|b| - 1];
      ListedSplits(a, b[..|b| - 1], id);
    }
  }

  lemma {:induction false} ListedReverse(a: seq<View>, id: Id)
    ensures Listed(Reverse(a), id) == Listed(a, id)
  {
    if a == [] {
    } else {
      var n := |a| - 1;
      assert Reverse(a) == [a[n]] + Reverse(a[..n]);
      ListedSplits([a[n]], Reverse(a[..n]), id);
      assert [a[n]][..0] == [];
      ListedReverse(a[..n], id);
    }
  }

  lemma OneEvent(e: Event, id: Id)
    ensures Opened([e], id) == One(e.Connect? && Id(e.fd, e.peer) == id)
    ensures Closed([e], id) == One(e.Hangup? && Id(e.fd, e.peer) == id)
  {
    assert [e][..0] == [];
  }

  lemma ServedLog(fd: int, r: Visited, id: Id)
    ensures Opened(ServedEvents(fd, r), id) == 0 && Closed(ServedEvents(fd, r), id) == 0
  {
    var asked := if r.call.Some? then [Asked(fd, r.call.value)] else [];
    var sent := if r.sent != [] then [Send(fd, r.sent)] else [];
    LogSplits(asked, sent, id);
    if r.call.Some? { OneEvent(asked[0], id); }
    if r.sent != [] { OneEvent(sent[0], id); }
  }

  /** The log of one visit accounts for the client. */
  ghost predicate Accounts(v: View, o: Treatment, id: Id) {
    && Opened(o.events, id) == 0
    && Closed(o.events, id) == One(o.fate.Dropped? && Id(v.fd, v.peer) == id)
    && (!o.fate.Dropped? ==> o.fate.view.fd == v.fd && o.fate.view.peer == v.peer)
  }

  lemma TreatmentAccounts(order: ByteOrder, v: View, ready: bool, s: Moment, id: Id)
    requires Sound(v)
    ensures Accounts(v, VisitClient(order, v, ready, s), id)
  {
    if IsIdle(v, s.checked) {
      OneEvent(Hangup(v.fd, v.peer, Idle, -1), id);
    } else if ready {
      var r := ServeVisit(order, v.conn, s.visit);
      ServedLog(v.fd, r, id);
      if r.status.Ended? {
        var e := Hangup(v.fd, v.peer, r.status.reason, r.status.errno);
        OneEvent(e, id);
        LogSplits(ServedEvents(v.fd, r), [e], id);
      }
    }
  }

  lemma ListedOne(v: View, id: Id)
    ensures Listed([v], id) == One(Id(v.fd, v.peer) == id)
  {
    assert [v][..0] == [];
  }

  lemma {:induction false} VisitsBalance(views: seq<View>, os: seq<Treatment>, id: Id)
    requires |os| == |views| && forall i :: 0 <= i < |os| ==> Accounts(views[i], os[i], id)
    ensures Opened(EventsOf(os), id) == 0
    ensures Listed(views, id) == Closed(EventsOf(os), id) + Listed(WokenOf(os), id) + Listed(QuietOf(os), id)
  {
    if os == [] {
    } else {
      var n := |os| - 1;
      var o, v := os[n], views[n];
      assert Accounts(v, o, id);
      VisitsBalance(views[..n], os[..n], id);
      LogSplits(EventsOf(os[..n]), o.events, id);
      var w := if o.fate.Woken? then [o.fate.view] else [];
      var q := if o.fate.Quiet? then [o.fate.view] else [];
      ListedSplits(WokenOf(os[..n]), w, id);
      ListedSplits(QuietOf(os[..n]), q, id);
      if !o.fate.Dropped? {
        ListedOne(o.fate.view, id);
      }
    }
  }

  lemma VisitAllBalanced(order: ByteOrder, s: Server, ready: set<int>, env: Env)
    requires Healthy(s) && Balanced(s)
    ensures Balanced(VisitAll(order, s, ready, env))
  {
    var os := Treatments(order, s.views, ready, env.stops);
    var t := VisitAll(order, s, ready, env);
    forall id ensures Opened(t.log, id) == Closed(t.log, id) + Listed(t.views, id) {
      forall i | 0 <= i < |os| ensures Accounts(s.views[i], os[i], id) {
        TreatmentAccounts(order, s.views[i], s.views[i].fd in ready, env.stops(i), id);
      }
      VisitsBalance(s.views, os, id);
      ListedSplits(Reverse(WokenOf(os)), QuietOf(os), id);
      ListedReverse(WokenOf(os), id);
      LogSplits(s.log, EventsOf(os), id);
    }
  }

  lemma AdmitAccounts(views: seq<View>, fd: int, peer: Peer, displaceCheck: int, now: int, id: Id)
    ensures var a := Admit(views, fd, peer, displaceCheck, now);
            Opened(a.events, id) + Listed(views, id) == Closed(a.events, id) + Listed(a.views, id)
  {
    var a := Admit(views, fd, peer, displaceCheck, now);
    var n := |views|;
    var displaced := n >= MAX_CLIENT_COUNT && Displaceable(views[n - 1], displaceCheck);
    var kept := if displaced then views[..n - 1] else views;
    var out := if displaced then [Hangup(views[n - 1].fd, views[n - 1].peer, Displaced, -1)] else [];
    var refused := [Hangup(fd, peer, NoFreeClient, -1)];
    if displaced { OneEvent(out[0], id); }
    OneEvent(Connect(fd, peer), id);
    OneEvent(refused[0], id);
    if |kept| >= MAX_CLIENT_COUNT {
      LogSplits(out, refused, id);
      LogSplits([Connect(fd, peer)], out + refused, id);
    } else {
      LogSplits([Connect(fd, peer)], out, id);
      ListedOne(View(fd, peer, now, FRESH), id);
      ListedSplits([View(fd, peer, now, FRESH)], kept, id);
    }
  }

  lemma AdmitBalanced(s: Server, fd: int, peer: Peer, displaceCheck: int, now: int)
    requires Balanced(s)
    ensures var a := Admit(s.views, fd, peer, displaceCheck, now);
            Balanced(s.(views := a.views, log := s.log + a.events))
  {
    var a := Admit(s.views, fd, peer, displaceCheck, now);
    forall id ensures Opened(s.log + a.events, id) == Closed(s.log + a.events, id) + Listed(a.views, id) {
      AdmitAccounts(s.views, fd, peer, displaceCheck, now, id);
      LogSplits(s.log, a.events, id);
    }
  }

  lemma {:induction false} HangupAllAccounts(views: seq<View>, id: Id)
    ensures Opened(HangupAll(views), id) == 0 && Closed(HangupAll(views), id) == Listed(views, id)
  {
    if views == [] {
    } else {
      HangupAllAccounts(views[..|views| - 1], id);
    }
  }

  lemma StopBalanced(s: Server)
    requires Balanced(s)
    ensures Balanced(StopServer(s))
  {
    var log := HangupAll(s.views);
    forall id ensures Opened(s.log + log, id) == Closed(s.log + log, id) {
      HangupAllAccounts(s.views, id);
      LogSplits(s.log, log, id);
    }
  }

  lemma TickBalanced(order: ByteOrder, s: Server, env: Env)
    requires Healthy(s) && Balanced(s)
    ensures Balanced(ServerRules.Tick(order, s, env))
  {
    if s.running && env.select.Selected? {
      var ready := env.select.ready * Fds(s.views);
      if env.select.serverReady && env.accept.Accepted? {
        var a := Admit(s.views, env.accept.fd, env.accept.peer, env.displaceCheck, env.accepted);
        var s' := s.(views := a.views, log := s.log + a.events);
        AdmitBalanced(s, env.accept.fd, env.accept.peer, env.displaceCheck, env.accepted);
        assert Healthy(s');
        VisitAllBalanced(order, s', ready, env);
      } else {
        VisitAllBalanced(order, s, ready, env);
      }
    }
  }

  /** Over any run, every accepted connection gets exactly one disconnect callback and one close,
      except those still in the list; after `stop` there are none of these left. */
  lemma {:induction false} RunBalanced(order: ByteOrder, ops: seq<Op>)
    ensures Balanced(Exec(order, ops))
    ensures ops != [] && ops[|ops| - 1].Stop? ==>
      forall id :: Opened(Exec(order, ops).log, id) == Closed(Exec(order, ops).log, id)
  {
    if ops == [] {
    } else {
      RunBalanced(order, ops[..|ops| - 1]);
      var s := Exec(order, ops[..|ops| - 1]);
      match ops[|ops| - 1]
      case Start =>
      case Stop => StopBalanced(s);
      case Tick(env) => TickBalanced(order, s, env);
    }
  }
}
