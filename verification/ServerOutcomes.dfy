/** What a tick of the server does and tells, from the clock, the sockets and the list alone. */
module ServerOutcomes {
  import opened Bytes
  import opened ModbusCommon
  import opened ModbusRules
  import opened ServerFraming
  import opened ServerConnection
  import opened ServerRules
  import opened ServerRuns
  import SH = ServerHistories

  /** There is nothing to do: the server is stopped, a system call has failed, or nobody is there and the
      last look at the clients is less than a second old. */
  ghost predicate Resting(s: Server, env: Env) {
    || !s.running || env.select.SelectFailed?
    || (if env.select.serverReady then env.accept.AcceptFailed?
        else (forall v <- s.views :: v.fd !in env.select.ready) && env.intervalCheck < s.lastIdleCheck + 1_000_000)
  }

  /** A connection arrives: it is put in front of up to seven others; of eight clients the last one makes
      room if it has not been alive for 30 seconds, otherwise the new one is turned away. */
  ghost predicate Arrives(s: Server, env: Env, views: seq<View>, told: seq<Event>)
    requires env.accept.Accepted?
  {
    var fd, peer, n := env.accept.fd, env.accept.peer, |s.views|;
    var newcomer := View(fd, peer, env.accepted, FRESH);
    if n < 8 then views == [newcomer] + s.views && told == [Connect(fd, peer)]
    else
      var last := s.views[n - 1];
      if env.displaceCheck >= last.lastAlive + 30_000_000 then
        && views == [newcomer] + s.views[..n - 1]
        && told == [Connect(fd, peer), Hangup(last.fd, last.peer, Displaced, -1)]
      else views == s.views && told == [Connect(fd, peer), Hangup(fd, peer, NoFreeClient, -1)]
  }

  /** `select` was asked about this socket and has found it readable. */
  ghost predicate Readable(s: Server, env: Env, fd: int)
    requires env.select.Selected?
  {
    fd in env.select.ready && exists v <- s.views :: v.fd == fd
  }

  /** What becomes of a client in its turn, and what is told: after two hours of silence it is dropped,
      otherwise it stays as it is if nothing can be read, or it is visited. */
  ghost predicate Treated(order: ByteOrder, v: View, readable: bool, m: Moment, after: Option<View>, told: seq<Event>)
    requires Sound(v)
  {
    if m.checked >= v.lastAlive + 7_200_000_000 then after == None && told == [Hangup(v.fd, v.peer, Idle, -1)]
    else if !readable then after == Some(v) && told == []
    else Visits(v, m, ServeVisit(order, v.conn, m.visit), after, told)
  }

  /** A visited client has been alive at that moment. */
  ghost predicate Visits(v: View, m: Moment, r: Visited, after: Option<View>, told: seq<Event>) {
    var asked := if r.call.Some? then [Asked(v.fd, r.call.value)] else [];
    var sent := if r.sent != [] then [Send(v.fd, r.sent)] else [];
    match r.status
    case Open(c) => after == Some(View(v.fd, v.peer, m.alive, c)) && told == asked + sent
    case Ended(reason, errno) => after == None && told == asked + sent + [Hangup(v.fd, v.peer, reason, errno)]
  }

  lemma VisitTreats(order: ByteOrder, v: View, readable: bool, m: Moment)
    requires Sound(v)
    ensures var o := VisitClient(order, v, readable, m); Treated(order, v, readable, m, Remains(o), o.events)
  {
  }

  function Remains(o: Treatment): Option<View> {
    if o.fate.Dropped? then None else Some(o.fate.view)
  }

  /** Everything that is told in the turns of the clients. */
  function Joined(parts: seq<seq<Event>>): seq<Event> {
    if parts == [] then [] else Joined(parts[..|parts| - 1]) + parts[|parts| - 1]
  }

  /** The clients that stay after they were visited, or after they were not. */
  function Kept(afters: seq<Option<View>>, visited: seq<bool>, which: bool): seq<View>
    requires |afters| == |visited|
  {
    if afters == [] then []
    else
      var n := |afters| - 1;
      Kept(afters[..n], visited[..n], which) + if afters[n].Some? && visited[n] == which then [afters[n].value] else []
  }

  function Afters(os: seq<Treatment>): (r: seq<Option<View>>)
    ensures |r| == |os|
  {
    seq(|os|, i requires 0 <= i < |os| => Remains(os[i]))
  }

  function Parts(os: seq<Treatment>): (r: seq<seq<Event>>)
    ensures |r| == |os|
  {
    seq(|os|, i requires 0 <= i < |os| => os[i].events)
  }

  function Wakes(os: seq<Treatment>): (r: seq<bool>)
    ensures |r| == |os|
  {
    seq(|os|, i requires 0 <= i < |os| => os[i].fate.Woken?)
  }

  lemma {:induction false} PartsJoined(os: seq<Treatment>)
    ensures EventsOf(os) == Joined(Parts(os))
  {
    if os == [] {
    } else {
      var n := |os| - 1;
      PartsJoined(os[..n]);
      assert Parts(os)[..n] == Parts(os[..n]);
    }
  }

  lemma {:induction false} AllKept(os: seq<Treatment>)
    ensures WokenOf(os) == Kept(Afters(os), Wakes(os), true) && QuietOf(os) == Kept(Afters(os), Wakes(os), false)
  {
    if os == [] {
    } else {
      var n := |os| - 1;
      AllKept(os[..n]);
      assert Afters(os)[..n] == Afters(os[..n]) && Wakes(os)[..n] == Wakes(os[..n]);
    }
  }

  /** Whether a client that stays was visited can be told from its turn. */
  lemma SameKept(afters: seq<Option<View>>, x: seq<bool>, y: seq<bool>, which: bool)
    requires |afters| == |x| == |y| && forall i :: 0 <= i < |x| && afters[i].Some? ==> x[i] == y[i]
    ensures Kept(afters, x, which) == Kept(afters, y, which)
  {
    if afters == [] {
    } else {
      var n := |afters| - 1;
      SameKept(afters[..n], x[..n], y[..n], which);
    }
  }

  /** The turns of a list of clients: what becomes of each and what is told, and the list afterwards; those
      that were visited come first, the latest one in front, the others follow in their old order. */
  ghost predicate Turns(order: ByteOrder, views: seq<View>, visited: seq<bool>, stops: nat -> Moment,
                        afters: seq<Option<View>>, parts: seq<seq<Event>>, list: seq<View>)
    requires forall v <- views :: Sound(v)
  {
    && |afters| == |parts| == |visited| == |views|
    && (forall i :: 0 <= i < |views| ==> Treated(order, views[i], visited[i], stops(i), afters[i], parts[i]))
    && list == Reverse(Kept(afters, visited, true)) + Kept(afters, visited, false)
  }

  /** Which clients can be read from. */
  ghost function Flags(s: Server, env: Env, views: seq<View>): (r: seq<bool>)
    requires env.select.Selected?
    ensures |r| == |views|
  {
    seq(|views|, i requires 0 <= i < |views| => Readable(s, env, views[i].fd))
  }

  lemma ListTreated(order: ByteOrder, s: Server, env: Env, views: seq<View>, os: seq<Treatment>)
    requires env.select.Selected? && (forall v <- views :: Sound(v))
    requires os == Treatments(order, views, SH.Ready(s, env), env.stops)
    ensures Turns(order, views, Flags(s, env, views), env.stops, Afters(os), Parts(os), Rebuilt(os))
  {
    var flags := Flags(s, env, views);
    forall i | 0 <= i < |views|
      ensures Treated(order, views[i], flags[i], env.stops(i), Afters(os)[i], Parts(os)[i])
      ensures Afters(os)[i].Some? ==> Wakes(os)[i] == flags[i]
    {
      assert flags[i] == (views[i].fd in SH.Ready(s, env));
      assert os[i] == VisitClient(order, views[i], flags[i], env.stops(i));
      VisitTreats(order, views[i], flags[i], env.stops(i));
    }
    AllKept(os);
    SameKept(Afters(os), Wakes(os), flags, true);
    SameKept(Afters(os), Wakes(os), flags, false);
  }

  lemma RestsExactly(s: Server, env: Env)
    ensures SH.Goes(s, env) <==> !Resting(s, env)
  {
    if env.select.Selected? {
      if v :| v in s.views && v.fd in env.select.ready {
        assert v.fd in SH.Ready(s, env);
      } else {
        assert SH.Ready(s, env) == {};
      }
    }
  }

  /** The arrival, told by the server when the visits begin. */
  lemma AdmitArrives(s: Server, env: Env) returns (told: seq<Event>)
    requires Healthy(s) && SH.Goes(s, env)
    ensures var a := SH.Arrived(s, env);
            && a == s.(views := a.views, log := s.log + told)
            && (if env.select.serverReady then Arrives(s, env, a.views, told) else a.views == s.views && told == [])
  {
    told := if env.select.serverReady
            then Admit(s.views, env.accept.fd, env.accept.peer, env.displaceCheck, env.accepted).events else [];
    assert env.select.serverReady || s.log + told == s.log;
  }

  /** Every tick of every run that finds something to do: first a connection may arrive, then each client
      has its turn. */
  lemma TickExactly(order: ByteOrder, ops: seq<Op>, env: Env)
    returns (views: seq<View>, told: seq<Event>, afters: seq<Option<View>>, parts: seq<seq<Event>>)
    requires !Resting(Exec(order, ops), env)
    ensures var s, t := Exec(order, ops), Apply(order, Exec(order, ops), Tick(env));
            && (if env.select.serverReady then Arrives(s, env, views, told) else views == s.views && told == [])
            && (forall v <- views :: Sound(v))
            && Turns(order, views, Flags(s, env, views), env.stops, afters, parts, t.views)
            && t == s.(lastIdleCheck := env.idleCheck, views := t.views, log := s.log + told + Joined(parts))
  {
    var s := Exec(order, ops);
    RestsExactly(s, env);
    SH.TickVisitsAll(order, s, env);
    told := AdmitArrives(s, env);
    views := SH.Arrived(s, env).views;
    var os := Treatments(order, views, SH.Ready(s, env), env.stops);
    afters, parts := Afters(os), Parts(os);
    ListTreated(order, s, env, views, os);
    PartsJoined(os);
  }

  /** Every other tick of every run does nothing. */
  lemma TickRests(order: ByteOrder, ops: seq<Op>, env: Env)
    requires Resting(Exec(order, ops), env)
    ensures Apply(order, Exec(order, ops), Tick(env)) == Exec(order, ops)
  {
    var s := Exec(order, ops);
    RestsExactly(s, env);
    SH.TickVisitsAll(order, s, env);
  }

  /** Stopping a running server hangs up on its clients, in the order of the list. */
  lemma StopTells(order: ByteOrder, ops: seq<Op>) returns (told: seq<Event>)
    requires Exec(order, ops).running
    ensures var s, t := Exec(order, ops), Apply(order, Exec(order, ops), Stop);
            && !t.running && t.views == [] && t.log == s.log + told && |told| == |s.views|
            && forall i :: 0 <= i < |told| ==> told[i] == Hangup(s.views[i].fd, s.views[i].peer, ServerStopped, -1)
  {
    told := HangupAll(Exec(order, ops).views);
    HangupEach(Exec(order, ops).views);
  }

  lemma {:induction false} HangupEach(views: seq<View>)
    ensures |HangupAll(views)| == |views|
    ensures forall i :: 0 <= i < |views| ==>
              HangupAll(views)[i] == Hangup(views[i].fd, views[i].peer, ServerStopped, -1)
  {
    if views == [] {
    } else {
      HangupEach(views[..|views| - 1]);
    }
  }
}
