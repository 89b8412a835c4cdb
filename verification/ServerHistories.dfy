/** Every connection of a run of the server is a run of the framing of one connection: it has its own
    bytes, requests and answers, whatever the server does with its other clients meanwhile. */
module ServerHistories {
  import opened ModbusCommon
  import opened ServerFraming
  import opened ServerConnection
  import opened ServerRules
  import opened ServerRuns

  // ---- What the log says about a socket ----

  /** A socket is unused, connected, or hung up; events out of order would tear its line. */
  datatype Line = Unused | Up(peer: Peer) | Down(reason: Reason, errno: int) | Torn

  /** The line of a socket, and what its connection has asked and sent since it was accepted. */
  datatype Story = Story(line: Line, acts: seq<Act>)

  const NOTHING := Story(Unused, [])

  function Tell(t: Story, fd: int, e: Event): Story {
    if e.fd != fd then t
    else
      match e
      case Connect(_, peer) => Story(if t.line.Up? || t.line.Torn? then Torn else Up(peer), [])
      case Hangup(_, peer, reason, errno) => t.(line := if t.line == Up(peer) then Down(reason, errno) else Torn)
      case Asked(_, call) => Story(if t.line.Up? then t.line else Torn, t.acts + [Asks(call)])
      case Send(_, bytes) => Story(if t.line.Up? then t.line else Torn, t.acts + [Sends(bytes)])
  }

  function TellAll(t: Story, fd: int, events: seq<Event>): Story {
    if events == [] then t else Tell(TellAll(t, fd, events[..|events| - 1]), fd, events[|events| - 1])
  }

  lemma {:induction false} TellTwice(t: Story, fd: int, a: seq<Event>, b: seq<Event>)
    ensures TellAll(t, fd, a + b) == TellAll(TellAll(t, fd, a), fd, b)
    decreases |b|
  {
    if b == [] {
      assert a + b == a;
    } else {
      assert (a + b)[..|a + b| - 1] == a + b[..|b| - 1];
      TellTwice(t, fd, a, b[..|b| - 1]);
    }
  }

  lemma TellOne(t: Story, fd: int, e: Event)
    ensures TellAll(t, fd, [e]) == Tell(t, fd, e)
  {
    assert [e][..0] == [];
    assert TellAll(t, fd, []) == t;
  }

  /** Events of other sockets do not count. */
  lemma {:induction false} OthersTell(t: Story, fd: int, events: seq<Event>)
    requires forall e <- events :: e.fd != fd
    ensures TellAll(t, fd, events) == t
    decreases |events|
  {
    if events == [] {
    } else {
      OthersTell(t, fd, events[..|events| - 1]);
    }
  }

  // ---- The visits of a connection ----

  function Ready(s: Server, env: Env): set<int>
    requires env.select.Selected?
  {
    env.select.ready * Fds(s.views)
  }

  /** The tick gets to visiting clients. */
  predicate Goes(s: Server, env: Env) {
    s.running && env.select.Selected? &&
    if env.select.serverReady then env.accept.Accepted?
    else Ready(s, env) != {} || env.intervalCheck >= s.lastIdleCheck + IDLE_CHECK_INTERVAL
  }

  /** The server when the visits begin. */
  function Arrived(s: Server, env: Env): Server
    requires Goes(s, env)
  {
    if env.select.serverReady then
      var a := Admit(s.views, env.accept.fd, env.accept.peer, env.displaceCheck, env.accepted);
      s.(views := a.views, log := s.log + a.events)
    else s
  }

  lemma TickVisitsAll(order: ByteOrder, s: Server, env: Env)
    requires Healthy(s)
    ensures if Goes(s, env) then
              Healthy(Arrived(s, env)) &&
              ServerRules.Tick(order, s, env) == VisitAll(order, Arrived(s, env), Ready(s, env), env)
            else ServerRules.Tick(order, s, env) == s
  {
  }

  /** The visit of one client: it is made if the client is neither idle nor silent. */
  function VisitOf(v: View, ready: set<int>, m: Moment): seq<Visit> {
    if v.fd in ready && !IsIdle(v, m.checked) then [m.visit] else []
  }

  /** The visits of one tick to a socket. */
  function VisitsTo(fd: int, views: seq<View>, ready: set<int>, stops: nat -> Moment): seq<Visit> {
    if views == [] then []
    else
      var n := |views| - 1;
      VisitsTo(fd, views[..n], ready, stops) + if views[n].fd == fd then VisitOf(views[n], ready, stops(n)) else []
  }

  /** All visits to the connection on a socket since it was accepted, given those before a tick. */
  function MoreVisits(s: Server, env: Env, fd: int, visits: seq<Visit>): seq<Visit> {
    if !Goes(s, env) then visits
    else
      (if env.select.serverReady && env.accept.fd == fd then [] else visits) +
      VisitsTo(fd, Arrived(s, env).views, Ready(s, env), env.stops)
  }

  /** All visits to the last connection on a socket. */
  function VisitsOf(order: ByteOrder, ops: seq<Op>, fd: int): seq<Visit> {
    if ops == [] then []
    else
      var n := |ops| - 1;
      var before := VisitsOf(order, ops[..n], fd);
      if ops[n].Tick? then MoreVisits(Exec(order, ops[..n]), ops[n].env, fd, before) else before
  }

  // ---- The socket numbers of the list ----

  /** How many clients of the list have this socket. */
  function Count(views: seq<View>, fd: int): nat {
    if views == [] then 0 else Count(views[..|views| - 1], fd) + One(views[|views| - 1].fd == fd)
  }

  ghost predicate AtMostOne(views: seq<View>) { forall fd :: Count(views, fd) <= 1 }

  lemma {:induction false} CountSplits(a: seq<View>, b: seq<View>, fd: int)
    ensures Count(a + b, fd) == Count(a, fd) + Count(b, fd)
    decreases |b|
  {
    if b == [] {
      assert a + b == a;
    } else {
      assert (a + b)[..|a + b| - 1] == a + b[..|b| - 1];
      CountSplits(a, b[..|b| - 1], fd);
    }
  }

  lemma CountFirst(v: View, a: seq<View>, fd: int)
    ensures Count([v] + a, fd) == One(v.fd == fd) + Count(a, fd)
  {
    CountSplits([v], a, fd);
    assert [v][..0] == [];
  }

  lemma {:induction false} CountReverse(a: seq<View>, fd: int)
    ensures Count(Reverse(a), fd) == Count(a, fd)
    decreases |a|
  {
    if a == [] {
    } else {
      var n := |a| - 1;
      assert Reverse(a) == [a[n]] + Reverse(a[..n]);
      CountFirst(a[n], Reverse(a[..n]), fd);
      CountReverse(a[..n], fd);
    }
  }

  lemma {:induction false} Counted(views: seq<View>, i: nat)
    requires i < |views|
    ensures Count(views, views[i].fd) >= 1
    decreases |views|
  {
    if i < |views| - 1 { Counted(views[..|views| - 1], i); }
  }

  /** A socket belongs to one client. */
  lemma CountedOnce(views: seq<View>, i: nat, j: nat)
    requires i < j < |views| && Count(views, views[i].fd) <= 1
    ensures views[i].fd != views[j].fd
  {
    if views[i].fd == views[j].fd {
      assert views == views[..j] + views[j..];
      CountSplits(views[..j], views[j..], views[i].fd);
      Counted(views[..j], i);
      Counted(views[j..], 0);
    }
  }

  /** The client with this socket. */
  lemma {:induction false} Locate(views: seq<View>, fd: int) returns (i: nat)
    requires Count(views, fd) >= 1
    ensures i < |views| && views[i].fd == fd
    decreases |views|
  {
    if views == [] {
      assert false;
    } else if views[|views| - 1].fd == fd {
      i := |views| - 1;
    } else {
      i := Locate(views[..|views| - 1], fd);
    }
  }

  // ---- The visits of one tick ----

  /** The treatment of a client concerns its own socket only. */
  ghost predicate Own(v: View, o: Treatment) {
    (forall e <- o.events :: e.fd == v.fd) && (!o.fate.Dropped? ==> o.fate.view.fd == v.fd)
  }

  ghost predicate AllOwn(views: seq<View>, os: seq<Treatment>) {
    |os| == |views| && forall i :: 0 <= i < |os| ==> Own(views[i], os[i])
  }

  lemma TreatmentOwn(order: ByteOrder, v: View, ready: bool, m: Moment)
    requires Sound(v)
    ensures Own(v, VisitClient(order, v, ready, m))
  {
  }

  lemma {:induction false} KeptCount(views: seq<View>, os: seq<Treatment>, fd: int)
    requires AllOwn(views, os)
    ensures Count(WokenOf(os), fd) + Count(QuietOf(os), fd) <= Count(views, fd)
    decreases |os|
  {
    if os == [] {
    } else {
      var n := |os| - 1;
      var o := os[n];
      assert Own(views[n], o);
      KeptCount(views[..n], os[..n], fd);
      var w := if o.fate.Woken? then [o.fate.view] else [];
      var q := if o.fate.Quiet? then [o.fate.view] else [];
      CountSplits(WokenOf(os[..n]), w, fd);
      CountSplits(QuietOf(os[..n]), q, fd);
      if !o.fate.Dropped? {
        assert [o.fate.view] == [o.fate.view] + [];
        CountFirst(o.fate.view, [], fd);
      }
    }
  }

  lemma RebuiltCount(views: seq<View>, os: seq<Treatment>, fd: int)
    requires AllOwn(views, os)
    ensures Count(Rebuilt(os), fd) <= Count(views, fd)
  {
    KeptCount(views, os, fd);
    CountReverse(WokenOf(os), fd);
    CountSplits(Reverse(WokenOf(os)), QuietOf(os), fd);
  }

  lemma {:induction false} KeptIsThere(os: seq<Treatment>, i: nat)
    requires i < |os|
    ensures os[i].fate.Woken? ==> os[i].fate.view in WokenOf(os)
    ensures os[i].fate.Quiet? ==> os[i].fate.view in QuietOf(os)
    decreases |os|
  {
    if i < |os| - 1 { KeptIsThere(os[..|os| - 1], i); }
  }

  lemma RebuiltHas(os: seq<Treatment>, i: nat)
    requires i < |os| && !os[i].fate.Dropped?
    ensures os[i].fate.view in Rebuilt(os)
  {
    KeptIsThere(os, i);
    var w := WokenOf(os);
    if os[i].fate.Woken? {
      var k :| 0 <= k < |w| && w[k] == os[i].fate.view;
      assert Reverse(w)[|w| - 1 - k] == w[k];
    }
  }

  /** A socket that is not in the list has no part in the tick. */
  lemma {:induction false} Absent(views: seq<View>, os: seq<Treatment>, ready: set<int>, stops: nat -> Moment, fd: int,
                                  t: Story)
    requires AllOwn(views, os) && Count(views, fd) == 0
    ensures TellAll(t, fd, EventsOf(os)) == t && VisitsTo(fd, views, ready, stops) == []
    decreases |os|
  {
    if os == [] {
    } else {
      var n := |os| - 1;
      assert Own(views[n], os[n]);
      Absent(views[..n], os[..n], ready, stops, fd, t);
      OthersTell(t, fd, os[n].events);
      TellTwice(t, fd, EventsOf(os[..n]), os[n].events);
    }
  }

  /** A socket of the list has the part of its client. */
  lemma {:induction false} Present(views: seq<View>, os: seq<Treatment>, ready: set<int>, stops: nat -> Moment,
                                   i: nat, t: Story)
    requires AllOwn(views, os) && i < |views| && Count(views, views[i].fd) <= 1
    ensures TellAll(t, views[i].fd, EventsOf(os)) == TellAll(t, views[i].fd, os[i].events)
    ensures VisitsTo(views[i].fd, views, ready, stops) == VisitOf(views[i], ready, stops(i))
    decreases |os|
  {
    var n, fd := |os| - 1, views[i].fd;
    assert Own(views[n], os[n]);
    TellTwice(t, fd, EventsOf(os[..n]), os[n].events);
    if i == n {
      Absent(views[..n], os[..n], ready, stops, fd, t);
    } else {
      CountedOnce(views, i, n);
      Present(views[..n], os[..n], ready, stops, i, t);
      OthersTell(TellAll(t, fd, EventsOf(os[..n])), fd, os[n].events);
    }
  }

  // ---- The connection on a socket ----

  /** How a connection ends: on its own, or because the server wants it to. */
  predicate Closes(status: Status, reason: Reason, errno: int) {
    if reason in {NoFreeClient, Displaced, Idle, ServerStopped} then status.Open? && errno == -1
    else status == Ended(reason, errno)
  }

  /** Where the connection on a socket stands, in the list and in the framing. */
  ghost predicate Stands(views: seq<View>, fd: int, line: Line, status: Status) {
    match line
    case Unused => Count(views, fd) == 0
    case Up(peer) => exists v <- views :: v.fd == fd && v.peer == peer && status == Open(v.conn)
    case Down(reason, errno) => Count(views, fd) == 0 && Closes(status, reason, errno)
    case Torn => false
  }

  /** The connection on a socket is the run over these visits. */
  ghost predicate Lives(order: ByteOrder, s: Server, fd: int, visits: seq<Visit>) {
    var t, h := TellAll(NOTHING, fd, s.log), Run(order, visits);
    t.acts == h.acts && Stands(s.views, fd, t.line, h.status)
  }

  /** After the treatment of a client its connection is this run, in the log and in the list. */
  ghost predicate GoesOn(v: View, t: Story, o: Treatment, h: History) {
    var u := TellAll(t, v.fd, o.events);
    && u.acts == h.acts
    && match o.fate
       case Dropped(reason, errno) => u.line == Down(reason, errno) && Closes(h.status, reason, errno)
       case Woken(w) => u.line == Up(v.peer) && w.peer == v.peer && h.status == Open(w.conn)
       case Quiet(w) => u.line == Up(v.peer) && w.peer == v.peer && h.status == Open(w.conn)
  }

  lemma ServedGoesOn(order: ByteOrder, v: View, m: Moment, t: Story, h: History)
    requires Sound(v) && !IsIdle(v, m.checked) && t == Story(Up(v.peer), h.acts) && h.status == Open(v.conn)
    ensures GoesOn(v, t, VisitClient(order, v, true, m), Extend(h, ServeVisit(order, v.conn, m.visit)))
  {
    var r := ServeVisit(order, v.conn, m.visit);
    ServedTold(v, r, t);
    if r.status.Ended? { EndReasons(order, v.conn, m.visit); }
  }

  /** A connection does not end on its own for the reasons of the server. */
  lemma EndReasons(order: ByteOrder, c: Conn, v: Visit)
    requires Pending(c)
    ensures var r := ServeVisit(order, c, v);
            r.status.Ended? ==> r.status.reason !in {NoFreeClient, Displaced, Idle, ServerStopped}
  {
  }

  lemma UnservedGoesOn(order: ByteOrder, v: View, ready: bool, m: Moment, t: Story, h: History)
    requires Sound(v) && (IsIdle(v, m.checked) || !ready) && t == Story(Up(v.peer), h.acts) && h.status == Open(v.conn)
    ensures GoesOn(v, t, VisitClient(order, v, ready, m), h)
  {
    if IsIdle(v, m.checked) {
      TellOne(t, v.fd, Hangup(v.fd, v.peer, Idle, -1));
    } else {
      assert TellAll(t, v.fd, []) == t;
    }
  }

  /** A client's treatment goes on with its connection. */
  lemma ClientLives(order: ByteOrder, v: View, ready: set<int>, m: Moment, t: Story, visits: seq<Visit>)
    requires Sound(v)
    requires t == Story(Up(v.peer), Run(order, visits).acts) && Run(order, visits).status == Open(v.conn)
    ensures GoesOn(v, t, VisitClient(order, v, v.fd in ready, m), Run(order, visits + VisitOf(v, ready, m)))
  {
    if v.fd in ready && !IsIdle(v, m.checked) {
      RunVisit(order, visits, m.visit);
      ServedGoesOn(order, v, m, t, Run(order, visits));
    } else {
      assert visits + [] == visits;
      UnservedGoesOn(order, v, v.fd in ready, m, t, Run(order, visits));
    }
  }

  lemma RunVisit(order: ByteOrder, visits: seq<Visit>, v: Visit)
    requires Run(order, visits).status.Open?
    ensures var h := Run(order, visits); Run(order, visits + [v]) == Extend(h, ServeVisit(order, h.status.conn, v))
  {
    assert (visits + [v])[..|visits|] == visits;
  }

  /** The events of a visit tell what the connection did, and how it ended if it did. */
  lemma ServedTold(v: View, r: Visited, t: Story)
    requires t.line == Up(v.peer)
    ensures var u := t.(acts := t.acts + ActsOf(r.call, r.sent));
            && TellAll(t, v.fd, ServedEvents(v.fd, r)) == u
            && (r.status.Ended? ==>
                  TellAll(t, v.fd, ServedEvents(v.fd, r) + [Hangup(v.fd, v.peer, r.status.reason, r.status.errno)]) ==
                  u.(line := Down(r.status.reason, r.status.errno)))
  {
    var asked := if r.call.Some? then [Asked(v.fd, r.call.value)] else [];
    var sent := if r.sent != [] then [Send(v.fd, r.sent)] else [];
    TellTwice(t, v.fd, asked, sent);
    assert TellAll(t, v.fd, []) == t;
    if r.call.Some? { TellOne(t, v.fd, asked[0]); }
    var a := TellAll(t, v.fd, asked);
    assert a == t.(acts := t.acts + if r.call.Some? then [Asks(r.call.value)] else []);
    assert TellAll(a, v.fd, []) == a;
    if r.sent != [] { TellOne(a, v.fd, sent[0]); }
    if r.status.Ended? {
      var e := Hangup(v.fd, v.peer, r.status.reason, r.status.errno);
      TellTwice(t, v.fd, ServedEvents(v.fd, r), [e]);
      TellOne(TellAll(t, v.fd, ServedEvents(v.fd, r)), v.fd, e);
    }
  }

  lemma AllTreatmentsOwn(order: ByteOrder, views: seq<View>, ready: set<int>, stops: nat -> Moment)
    requires forall v <- views :: Sound(v)
    ensures AllOwn(views, Treatments(order, views, ready, stops))
  {
    var os := Treatments(order, views, ready, stops);
    forall i | 0 <= i < |os| ensures Own(views[i], os[i]) {
      TreatmentOwn(order, views[i], views[i].fd in ready, stops(i));
      assert os[i] == VisitClient(order, views[i], views[i].fd in ready, stops(i));
    }
  }

  /** The visits of a tick go on with every connection. */
  lemma VisitAllLives(order: ByteOrder, s: Server, ready: set<int>, env: Env, fd: int, visits: seq<Visit>)
    requires Healthy(s) && AtMostOne(s.views) && Lives(order, s, fd, visits)
    ensures Lives(order, VisitAll(order, s, ready, env), fd, visits + VisitsTo(fd, s.views, ready, env.stops))
  {
    var os := Treatments(order, s.views, ready, env.stops);
    AllTreatmentsOwn(order, s.views, ready, env.stops);
    RebuiltCount(s.views, os, fd);
    TellTwice(NOTHING, fd, s.log, EventsOf(os));
    if Count(s.views, fd) == 0 {
      Absent(s.views, os, ready, env.stops, fd, TellAll(NOTHING, fd, s.log));
      assert visits + [] == visits;
      NotUp(s.views, fd, TellAll(NOTHING, fd, s.log).line, Run(order, visits).status);
    } else {
      PresentLives(order, s, ready, env, fd, visits, os);
    }
  }

  lemma NotUp(views: seq<View>, fd: int, line: Line, status: Status)
    requires Stands(views, fd, line, status) && Count(views, fd) == 0
    ensures !line.Up?
  {
    if line.Up? {
      var v :| v in views && v.fd == fd;
      var i :| 0 <= i < |views| && views[i] == v;
      Counted(views, i);
    }
  }

  lemma PresentLives(order: ByteOrder, s: Server, ready: set<int>, env: Env, fd: int, visits: seq<Visit>,
                     os: seq<Treatment>)
    requires Healthy(s) && AtMostOne(s.views) && Lives(order, s, fd, visits) && Count(s.views, fd) > 0
    requires os == Treatments(order, s.views, ready, env.stops) && AllOwn(s.views, os)
    ensures Lives(order, VisitAll(order, s, ready, env), fd, visits + VisitsTo(fd, s.views, ready, env.stops))
  {
    var t := TellAll(NOTHING, fd, s.log);
    var v :| v in s.views && v.fd == fd && t.line == Up(v.peer) && Run(order, visits).status == Open(v.conn);
    var i :| 0 <= i < |s.views| && s.views[i] == v;
    var o := os[i];
    assert o == VisitClient(order, v, fd in ready, env.stops(i)) && Own(v, o);
    Present(s.views, os, ready, env.stops, i, t);
    ClientLives(order, v, ready, env.stops(i), t, visits);
    TellTwice(NOTHING, fd, s.log, EventsOf(os));
    if o.fate.Dropped? {
      DroppedIsGone(s.views, os, i);
    } else {
      RebuiltHas(os, i);
    }
  }

  /** A dropped client is not in the list any more. */
  lemma DroppedIsGone(views: seq<View>, os: seq<Treatment>, i: nat)
    requires AllOwn(views, os) && i < |os| && os[i].fate.Dropped? && Count(views, views[i].fd) <= 1
    ensures Count(Rebuilt(os), views[i].fd) == 0
  {
    var fd := views[i].fd;
    GoneCount(views, os, i);
    CountReverse(WokenOf(os), fd);
    CountSplits(Reverse(WokenOf(os)), QuietOf(os), fd);
  }

  lemma {:induction false} GoneCount(views: seq<View>, os: seq<Treatment>, i: nat)
    requires AllOwn(views, os) && i < |os| && os[i].fate.Dropped? && Count(views, views[i].fd) <= 1
    ensures Count(WokenOf(os), views[i].fd) == 0 && Count(QuietOf(os), views[i].fd) == 0
    decreases |os|
  {
    var n, fd := |os| - 1, views[i].fd;
    assert Own(views[n], os[n]);
    if i == n {
      KeptCount(views[..n], os[..n], fd);
      assert WokenOf(os[..n]) + [] == WokenOf(os[..n]) && QuietOf(os[..n]) + [] == QuietOf(os[..n]);
    } else {
      CountedOnce(views, i, n);
      GoneCount(views[..n], os[..n], i);
      var o := os[n];
      CountSplits(WokenOf(os[..n]), if o.fate.Woken? then [o.fate.view] else [], fd);
      CountSplits(QuietOf(os[..n]), if o.fate.Quiet? then [o.fate.view] else [], fd);
      if !o.fate.Dropped? {
        assert [o.fate.view] == [o.fate.view] + [];
        CountFirst(o.fate.view, [], fd);
      }
    }
  }

  // ---- Arrivals ----

  /** `accept` never returns a socket number that is still open. */
  predicate FreshStep(s: Server, op: Op) {
    op.Tick? && Goes(s, op.env) && op.env.select.serverReady ==> Count(s.views, op.env.accept.fd) == 0
  }

  /** The list and the log after an arrival. */
  lemma ArrivedCount(s: Server, env: Env, fd: int)
    requires Goes(s, env) && FreshStep(s, Tick(env)) && AtMostOne(s.views)
    ensures Count(Arrived(s, env).views, fd) <= 1
  {
    if env.select.serverReady {
      var n := |s.views|;
      if n > 0 {
        assert s.views == s.views[..n - 1] + s.views[n - 1..];
        CountSplits(s.views[..n - 1], s.views[n - 1..], fd);
        assert Count(s.views[..n - 1], env.accept.fd) <= Count(s.views, env.accept.fd) by {
          CountSplits(s.views[..n - 1], s.views[n - 1..], env.accept.fd);
        }
        CountFirst(View(env.accept.fd, env.accept.peer, env.accepted, FRESH), s.views[..n - 1], fd);
      }
      CountFirst(View(env.accept.fd, env.accept.peer, env.accepted, FRESH), s.views, fd);
    }
  }

  /** The client that makes room for an arrival, if one has to. */
  predicate MakesRoom(s: Server, env: Env) {
    |s.views| >= MAX_CLIENT_COUNT && Displaceable(s.views[|s.views| - 1], env.displaceCheck)
  }

  function Kept(s: Server, env: Env): seq<View> {
    if MakesRoom(s, env) then s.views[..|s.views| - 1] else s.views
  }

  function Farewell(s: Server, env: Env): seq<Event> {
    if MakesRoom(s, env) then
      var last := s.views[|s.views| - 1];
      [Hangup(last.fd, last.peer, Displaced, -1)]
    else []
  }

  /** The log after an arrival, in the order of its events. */
  lemma ArrivalTold(s: Server, env: Env, fd: int, t: Story)
    requires Goes(s, env) && env.select.serverReady && t == TellAll(NOTHING, fd, s.log)
    ensures var f := TellAll(Tell(t, fd, Connect(env.accept.fd, env.accept.peer)), fd, Farewell(s, env));
            TellAll(NOTHING, fd, Arrived(s, env).log) ==
            if |Kept(s, env)| >= MAX_CLIENT_COUNT
            then Tell(f, fd, Hangup(env.accept.fd, env.accept.peer, NoFreeClient, -1))
            else f
  {
    var a := Admit(s.views, env.accept.fd, env.accept.peer, env.displaceCheck, env.accepted);
    var connect := [Connect(env.accept.fd, env.accept.peer)];
    var out := Farewell(s, env);
    var refused := [Hangup(env.accept.fd, env.accept.peer, NoFreeClient, -1)];
    TellTwice(NOTHING, fd, s.log, a.events);
    TellOne(t, fd, connect[0]);
    var e := TellAll(t, fd, connect);
    TellOne(TellAll(e, fd, out), fd, refused[0]);
    TellTwice(e, fd, out, refused);
    TellTwice(t, fd, connect, out + refused);
    TellTwice(t, fd, connect, out);
  }

  /** The list without the client that made room. */
  lemma KeptOnly(s: Server, env: Env, fd: int)
    requires AtMostOne(s.views)
    ensures var gone := MakesRoom(s, env) && s.views[|s.views| - 1].fd == fd;
            && Count(Kept(s, env), fd) == (if gone then 0 else Count(s.views, fd))
            && (forall v <- s.views :: v.fd == fd ==> if gone then v == s.views[|s.views| - 1] else v in Kept(s, env))
  {
    var n := |s.views| - 1;
    assert Count(s.views, fd) <= 1;
    if MakesRoom(s, env) {
      if s.views[n].fd == fd {
        forall i | 0 <= i < n ensures s.views[i].fd != fd { CountedOnce(s.views, i, n); }
      } else {
        forall v | v in s.views && v.fd == fd ensures v in Kept(s, env) {
          var i :| 0 <= i <= n && s.views[i] == v;
          assert Kept(s, env)[i] == v;
        }
      }
    }
  }

  /** The socket of the arrival itself. */
  lemma NewcomerLives(order: ByteOrder, s: Server, env: Env, visits: seq<Visit>)
    requires Goes(s, env) && env.select.serverReady && AtMostOne(s.views) && Count(s.views, env.accept.fd) == 0
    requires Lives(order, s, env.accept.fd, visits)
    ensures Lives(order, Arrived(s, env), env.accept.fd, [])
  {
    var fd, peer := env.accept.fd, env.accept.peer;
    var t := TellAll(NOTHING, fd, s.log);
    NotUp(s.views, fd, t.line, Run(order, visits).status);
    ArrivalTold(s, env, fd, t);
    KeptOnly(s, env, fd);
    var e := Tell(t, fd, Connect(fd, peer));
    assert e == Story(Up(peer), []);
    if MakesRoom(s, env) { Counted(s.views, |s.views| - 1); }
    OthersTell(e, fd, Farewell(s, env));
    var v := View(fd, peer, env.accepted, FRESH);
    if |Kept(s, env)| < MAX_CLIENT_COUNT {
      assert Arrived(s, env).views == [v] + Kept(s, env);
      assert v in Arrived(s, env).views;
    }
  }

  /** Any other socket. */
  lemma BystanderLives(order: ByteOrder, s: Server, env: Env, fd: int, visits: seq<Visit>)
    requires Goes(s, env) && env.select.serverReady && AtMostOne(s.views) && fd != env.accept.fd
    requires Lives(order, s, fd, visits)
    ensures Lives(order, Arrived(s, env), fd, visits)
  {
    var t := TellAll(NOTHING, fd, s.log);
    ArrivalTold(s, env, fd, t);
    KeptOnly(s, env, fd);
    ArrivedViews(s, env, fd);
    var out := Farewell(s, env);
    if MakesRoom(s, env) && s.views[|s.views| - 1].fd == fd {
      TellOne(t, fd, out[0]);
      Counted(s.views, |s.views| - 1);
    } else {
      OthersTell(t, fd, out);
    }
  }

  lemma ArrivedViews(s: Server, env: Env, fd: int)
    requires Goes(s, env) && env.select.serverReady && fd != env.accept.fd
    ensures Count(Arrived(s, env).views, fd) == Count(Kept(s, env), fd)
    ensures forall v <- Kept(s, env) :: v in Arrived(s, env).views
  {
    var v := View(env.accept.fd, env.accept.peer, env.accepted, FRESH);
    CountFirst(v, Kept(s, env), fd);
    if |Kept(s, env)| < MAX_CLIENT_COUNT {
      assert Arrived(s, env).views == [v] + Kept(s, env);
    }
  }

  // ---- stop ----

  lemma {:induction false} HangupAllTold(views: seq<View>, fd: int, t: Story)
    requires Count(views, fd) <= 1
    requires Count(views, fd) == 1 ==> exists v <- views :: v.fd == fd && t.line == Up(v.peer)
    ensures TellAll(t, fd, HangupAll(views)) == if Count(views, fd) == 0 then t else t.(line := Down(ServerStopped, -1))
    decreases |views|
  {
    if views == [] {
    } else {
      var n := |views| - 1;
      var v, rest := views[n], views[..n];
      if v.fd == fd {
        forall i | 0 <= i < n ensures views[i].fd != fd {
          if views[i].fd == fd { CountedOnce(views, i, n); }
        }
        if Count(rest, fd) > 0 { var i := Locate(rest, fd); }
      } else if Count(views, fd) == 1 {
        var w :| w in views && w.fd == fd && t.line == Up(w.peer);
        assert w in rest;
      }
      HangupAllTold(rest, fd, t);
    }
  }

  lemma StopLives(order: ByteOrder, s: Server, fd: int, visits: seq<Visit>)
    requires Healthy(s) && AtMostOne(s.views) && Lives(order, s, fd, visits)
    ensures Lives(order, StopServer(s), fd, visits)
  {
    var t := TellAll(NOTHING, fd, s.log);
    if Count(s.views, fd) == 0 {
      NotUp(s.views, fd, t.line, Run(order, visits).status);
    }
    HangupAllTold(s.views, fd, t);
    TellTwice(NOTHING, fd, s.log, HangupAll(s.views));
  }

  // ---- Runs ----

  /** Over the run, `accept` never returns a socket number that is still open. */
  predicate FreshRun(order: ByteOrder, ops: seq<Op>) {
    ops == [] ||
    (FreshRun(order, ops[..|ops| - 1]) && FreshStep(Exec(order, ops[..|ops| - 1]), ops[|ops| - 1]))
  }

  lemma TickLives(order: ByteOrder, s: Server, env: Env, fd: int, visits: seq<Visit>)
    requires Healthy(s) && AtMostOne(s.views) && Lives(order, s, fd, visits) && FreshStep(s, Tick(env))
    ensures Lives(order, ServerRules.Tick(order, s, env), fd, MoreVisits(s, env, fd, visits))
  {
    TickVisitsAll(order, s, env);
    if Goes(s, env) {
      forall f ensures Count(Arrived(s, env).views, f) <= 1 { ArrivedCount(s, env, f); }
      var started := if env.select.serverReady && env.accept.fd == fd then [] else visits;
      if env.select.serverReady {
        if env.accept.fd == fd {
          NewcomerLives(order, s, env, visits);
        } else {
          BystanderLives(order, s, env, fd, visits);
        }
      }
      VisitAllLives(order, Arrived(s, env), Ready(s, env), env, fd, started);
    }
  }

  lemma ApplyOne(order: ByteOrder, s: Server, op: Op, fd: int)
    requires Healthy(s) && AtMostOne(s.views) && FreshStep(s, op)
    ensures Count(Apply(order, s, op).views, fd) <= 1
  {
    if op.Tick? {
      TickVisitsAll(order, s, op.env);
      if Goes(s, op.env) {
        var t, ready := Arrived(s, op.env), Ready(s, op.env);
        ArrivedCount(s, op.env, fd);
        AllTreatmentsOwn(order, t.views, ready, op.env.stops);
        RebuiltCount(t.views, Treatments(order, t.views, ready, op.env.stops), fd);
      }
    }
  }

  lemma {:induction false} SocketsUnique(order: ByteOrder, ops: seq<Op>)
    requires FreshRun(order, ops)
    ensures AtMostOne(Exec(order, ops).views)
    decreases |ops|
  {
    if ops == [] {
    } else {
      var n := |ops| - 1;
      SocketsUnique(order, ops[..n]);
      forall fd ensures Count(Exec(order, ops).views, fd) <= 1 { ApplyOne(order, Exec(order, ops[..n]), ops[n], fd); }
    }
  }

  /** Over any run, the connection on a socket is the run of the framing over exactly the visits that it
      has had since its acceptance: what it asked and sent is what the log says, a connection in the
      list has the partial request of that run, and a connection that is gone ended as the run ended,
      or was open when the server closed it.  Every acceptance is followed by one hang-up before the
      socket is accepted again. */
  lemma {:induction false} ConnectionsLive(order: ByteOrder, ops: seq<Op>, fd: int)
    requires FreshRun(order, ops)
    ensures Lives(order, Exec(order, ops), fd, VisitsOf(order, ops, fd))
    decreases |ops|
  {
    if ops == [] {
      assert Run(order, []) == History(Open(FRESH), [], [], []);
    } else {
      var n := |ops| - 1;
      var s, visits := Exec(order, ops[..n]), VisitsOf(order, ops[..n], fd);
      ConnectionsLive(order, ops[..n], fd);
      SocketsUnique(order, ops[..n]);
      match ops[n]
      case Start =>
      case Stop => StopLives(order, s, fd, visits);
      case Tick(env) => TickLives(order, s, env, fd, visits);
    }
  }

  /** Each listed client in particular. */
  lemma ListedClientsLive(order: ByteOrder, ops: seq<Op>, v: View)
    requires FreshRun(order, ops) && v in Exec(order, ops).views
    ensures var h := Run(order, VisitsOf(order, ops, v.fd));
            && h.status == Open(v.conn)
            && TellAll(NOTHING, v.fd, Exec(order, ops).log) == Story(Up(v.peer), h.acts)
  {
    ConnectionsLive(order, ops, v.fd);
    SocketsUnique(order, ops);
    ListedStands(Exec(order, ops).views, v, TellAll(NOTHING, v.fd, Exec(order, ops).log).line,
                 Run(order, VisitsOf(order, ops, v.fd)).status);
  }

  lemma ListedStands(views: seq<View>, v: View, line: Line, status: Status)
    requires AtMostOne(views) && v in views && Stands(views, v.fd, line, status)
    ensures line == Up(v.peer) && status == Open(v.conn)
  {
    var i :| 0 <= i < |views| && views[i] == v;
    Counted(views, i);
    var w :| w in views && w.fd == v.fd && line == Up(w.peer) && status == Open(w.conn);
    var j :| 0 <= j < |views| && views[j] == w;
    assert Count(views, v.fd) <= 1;
    if i < j { CountedOnce(views, i, j); }
    if j < i { CountedOnce(views, j, i); }
  }
}
