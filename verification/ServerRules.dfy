/** What one `tick` of the server does to its list of clients, and what holds over whole runs:
    least-recently-used order, displacement, idle eviction and conservation of connections. */
module ServerRules {
  import opened Bytes
  import opened ModbusCommon
  import opened ModbusRules
  import opened ServerFraming
  import opened ServerConnection

  const MAX_CLIENT_COUNT: nat := 8
  const MIN_DISPLACE_DELAY: int := 30_000_000
  const MAX_IDLE_DURATION: int := 7_200_000_000
  const IDLE_CHECK_INTERVAL: int := 1_000_000

  /** A client of the list. */
  datatype View = View(fd: int, peer: Peer, lastAlive: int, conn: Conn)

  /** What the outside sees: an accepted connection with its connect callback, a closed one with
      its disconnect callback, a request callback, bytes sent. */
  datatype Event =
    | Connect(fd: int, peer: Peer)
    | Hangup(fd: int, peer: Peer, reason: Reason, errno: int)
    | Asked(fd: int, call: Call)
    | Send(fd: int, bytes: Memory)

  /** What happens during the visit of one client: the clock at the idle check and at the
      `last_alive` update, and the sockets. */
  datatype Moment = Moment(checked: int, alive: int, visit: Visit)

  datatype Select = SelectFailed | Selected(serverReady: bool, ready: set<int>)

  datatype Accept = AcceptFailed | Accepted(fd: int, peer: Peer)

  /** The environment of one tick; its clock readings in the order in which
      `tick` takes them, and `stops(i)`, the visit of the i-th client of the list. */
  datatype Env = Env(select: Select, intervalCheck: int, accept: Accept, displaceCheck: int, accepted: int,
                     idleCheck: int, stops: nat -> Moment, finished: int)

  // ---- One client ----

  datatype Fate = Quiet(view: View) | Woken(view: View) | Dropped(reason: Reason, errno: int)

  datatype Treatment = Treatment(fate: Fate, events: seq<Event>)

  function IsIdle(v: View, now: int): bool { now >= v.lastAlive + MAX_IDLE_DURATION }

  predicate Sound(v: View) { Pending(v.conn) }

  /** What a readable client's visit shows to the outside before a possible hang-up. */
  function ServedEvents(fd: int, r: Visited): seq<Event> {
    (if r.call.Some? then [Asked(fd, r.call.value)] else []) + (if r.sent != [] then [Send(fd, r.sent)] else [])
  }

  function VisitClient(order: ByteOrder, v: View, ready: bool, s: Moment): (o: Treatment)
    requires Sound(v)
    ensures !o.fate.Dropped? ==> Sound(o.fate.view)
  {
    if IsIdle(v, s.checked) then Treatment(Dropped(Idle, -1), [Hangup(v.fd, v.peer, Idle, -1)])
    else if !ready then Treatment(Quiet(v), [])
    else
      var r := ServeVisit(order, v.conn, s.visit);
      var served := ServedEvents(v.fd, r);
      match r.status
      case Open(c) => Treatment(Woken(v.(lastAlive := s.alive, conn := c)), served)
      case Ended(reason, errno) =>
        Treatment(Dropped(reason, errno), served + [Hangup(v.fd, v.peer, reason, errno)])
  }

  // ---- The whole list ----

  function Treatments(order: ByteOrder, views: seq<View>, ready: set<int>, stops: nat -> Moment): (os: seq<Treatment>)
    requires forall v <- views :: Sound(v)
    ensures |os| == |views|
  {
    seq(|views|, i requires 0 <= i < |views| => VisitClient(order, views[i], views[i].fd in ready, stops(i)))
  }

  /** The clients that were read from and stay, in the order of their visits. */
  function WokenOf(os: seq<Treatment>): seq<View> {
    if os == [] then []
    else
      var o := os[|os| - 1];
      WokenOf(os[..|os| - 1]) + if o.fate.Woken? then [o.fate.view] else []
  }

  /** The clients that were not readable and stay. */
  function QuietOf(os: seq<Treatment>): seq<View> {
    if os == [] then []
    else
      var o := os[|os| - 1];
      QuietOf(os[..|os| - 1]) + if o.fate.Quiet? then [o.fate.view] else []
  }

  function EventsOf(os: seq<Treatment>): seq<Event> {
    if os == [] then [] else EventsOf(os[..|os| - 1]) + os[|os| - 1].events
  }

  function Reverse<T>(s: seq<T>): (r: seq<T>)
    ensures |r| == |s| && forall i :: 0 <= i < |s| ==> r[i] == s[|s| - 1 - i]
  {
    seq(|s|, i requires 0 <= i < |s| => s[|s| - 1 - i])
  }

  /** The list after all visits: the clients read from, latest first, then the others in their old
      order. */
  function Rebuilt(os: seq<Treatment>): seq<View> { Reverse(WokenOf(os)) + QuietOf(os) }

  datatype Listed = Listed(views: seq<View>, events: seq<Event>)

  predicate Displaceable(v: View, now: int) { now >= v.lastAlive + MIN_DISPLACE_DELAY }

  /** Admits a connection to the list: the last client of a full list makes room if it has not been
      alive for long enough, otherwise the new connection is turned away. */
  function Admit(views: seq<View>, fd: int, peer: Peer, displaceCheck: int, now: int): Listed {
    var n := |views|;
    var displaced := n >= MAX_CLIENT_COUNT && Displaceable(views[n - 1], displaceCheck);
    var kept := if displaced then views[..n - 1] else views;
    var out := if displaced then [Hangup(views[n - 1].fd, views[n - 1].peer, Displaced, -1)] else [];
    if |kept| >= MAX_CLIENT_COUNT then
      Listed(kept, [Connect(fd, peer)] + (out + [Hangup(fd, peer, NoFreeClient, -1)]))
    else Listed([View(fd, peer, now, FRESH)] + kept, [Connect(fd, peer)] + out)
  }

  // ---- The server ----

  datatype Server = Server(running: bool, lastIdleCheck: int, views: seq<View>, log: seq<Event>)

  predicate Healthy(s: Server) {
    && |s.views| <= MAX_CLIENT_COUNT
    && (forall v <- s.views :: Sound(v))
    && (!s.running ==> s.views == [])
  }

  function Fds(views: seq<View>): set<int> { set v <- views :: v.fd }

  /** Visits every client. */
  function VisitAll(order: ByteOrder, s: Server, ready: set<int>, env: Env): (t: Server)
    requires Healthy(s)
  {
    var os := Treatments(order, s.views, ready, env.stops);
    s.(lastIdleCheck := env.idleCheck, views := Rebuilt(os), log := s.log + EventsOf(os))
  }

  function Tick(order: ByteOrder, s: Server, env: Env): Server
    requires Healthy(s)
  {
    if !s.running || env.select.SelectFailed? then s
    else
      var ready := env.select.ready * Fds(s.views);
      if !env.select.serverReady && ready == {} && env.intervalCheck < s.lastIdleCheck + IDLE_CHECK_INTERVAL then s
      else if !env.select.serverReady then VisitAll(order, s, ready, env)
      else if env.accept.AcceptFailed? then s
      else
        var a := Admit(s.views, env.accept.fd, env.accept.peer, env.displaceCheck, env.accepted);
        VisitAll(order, s.(views := a.views, log := s.log + a.events), ready, env)
  }

  function HangupAll(views: seq<View>): seq<Event> {
    if views == [] then []
    else
      var v := views[|views| - 1];
      HangupAll(views[..|views| - 1]) + [Hangup(v.fd, v.peer, ServerStopped, -1)]
  }

  function StopServer(s: Server): Server {
    if !s.running then s else s.(running := false, views := [], log := s.log + HangupAll(s.views))
  }
}
