/** The client list is ordered by last activity: why displacement hits the least recently alive
    client and idle eviction cuts off the end of the list. */
module ServerOrder {
  import opened ModbusCommon
  import opened ServerFraming
  import opened ServerConnection
  import opened ServerRules
  import opened ServerRuns
  import SH = ServerHistories

  ghost predicate Sorted(views: seq<View>) {
    forall i, j :: 0 <= i < j < |views| ==> views[i].lastAlive >= views[j].lastAlive
  }

  ghost predicate NotAfter(views: seq<View>, t: int) { forall v <- views :: v.lastAlive <= t }

  /** The clock readings of one tick never go back. */
  ghost predicate Monotone(env: Env) {
    && env.intervalCheck <= env.displaceCheck <= env.accepted <= env.idleCheck <= env.finished
    && (forall i: nat :: env.idleCheck <= env.stops(i).checked <= env.stops(i).alive <= env.finished)
    && (forall i: nat, j: nat :: i < j ==> env.stops(i).alive <= env.stops(j).checked)
  }

  /** In ascending order of their time stamps, which lie between lo and hi. */
  ghost predicate Ascends(w: seq<View>, lo: int, hi: int) {
    && (forall i, j :: 0 <= i < j < |w| ==> w[i].lastAlive <= w[j].lastAlive)
    && (forall i :: 0 <= i < |w| ==> lo <= w[i].lastAlive <= hi)
  }

  lemma AscendsOne(w: seq<View>, v: View, lo: int, hi: int)
    requires Ascends(w, lo, hi) && lo <= v.lastAlive && hi <= v.lastAlive
    ensures Ascends(w + [v], lo, v.lastAlive)
  {
  }

  lemma AscendsLater(w: seq<View>, lo: int, hi: int, later: int)
    requires Ascends(w, lo, hi) && hi <= later
    ensures Ascends(w, lo, later)
  {
  }

  /** A client that was read from gets the time of its visit; one that was left alone stays as it is. */
  lemma TreatmentTimes(order: ByteOrder, views: seq<View>, ready: set<int>, stops: nat -> Moment, k: nat)
    requires (forall v <- views :: Sound(v)) && k < |views|
    ensures var f := Treatments(order, views, ready, stops)[k].fate;
            (f.Woken? ==> f.view.lastAlive == stops(k).alive) && (f.Quiet? ==> f.view == views[k])
  {
    assert Treatments(order, views, ready, stops)[k] == VisitClient(order, views[k], views[k].fd in ready, stops(k));
  }

  /** Clients read from, in visiting order, are in ascending order of their new time stamps. */
  lemma {:induction false} WokenAscends(order: ByteOrder, views: seq<View>, ready: set<int>, env: Env, n: nat)
    requires (forall v <- views :: Sound(v)) && Monotone(env) && n <= |views|
    ensures Ascends(WokenOf(Treatments(order, views, ready, env.stops)[..n]), env.idleCheck,
                    if n == 0 then env.idleCheck else env.stops(n - 1).alive)
  {
    if n == 0 {
    } else {
      var os := Treatments(order, views, ready, env.stops);
      var lo, now := env.idleCheck, env.stops(n - 1).alive;
      var hi := if n == 1 then env.idleCheck else env.stops(n - 2).alive;
      WokenAscends(order, views, ready, env, n - 1);
      LaterStop(env, n, hi);
      TreatmentTimes(order, views, ready, env.stops, n - 1);
      AscendsWith(os, n - 1, lo, hi, now);
    }
  }

  lemma LaterStop(env: Env, n: nat, hi: int)
    requires Monotone(env) && n > 0 && hi == if n == 1 then env.idleCheck else env.stops(n - 2).alive
    ensures env.idleCheck <= hi <= env.stops(n - 1).alive
  {
    assert env.stops(n - 1).checked <= env.stops(n - 1).alive;
    if n > 1 { assert env.stops(n - 2).checked <= env.stops(n - 2).alive; }
  }

  lemma AscendsWith(os: seq<Treatment>, k: nat, lo: int, hi: int, now: int)
    requires k < |os| && Ascends(WokenOf(os[..k]), lo, hi) && lo <= hi <= now
    requires os[k].fate.Woken? ==> os[k].fate.view.lastAlive == now
    ensures Ascends(WokenOf(os[..k + 1]), lo, now)
  {
    WokenOne(os, k);
    if os[k].fate.Woken? {
      AscendsOne(WokenOf(os[..k]), os[k].fate.view, lo, hi);
    } else {
      AscendsLater(WokenOf(os[..k]), lo, hi, now);
    }
  }

  lemma WokenOne(os: seq<Treatment>, k: nat)
    requires k < |os|
    ensures WokenOf(os[..k + 1]) == WokenOf(os[..k]) + if os[k].fate.Woken? then [os[k].fate.view] else []
  {
    assert os[..k + 1][..k] == os[..k];
  }

  /** Clients left alone keep their order. */
  lemma {:induction false} QuietSorted(order: ByteOrder, views: seq<View>, ready: set<int>, env: Env, n: nat)
    requires (forall v <- views :: Sound(v)) && Sorted(views) && n <= |views|
    ensures var q := QuietOf(Treatments(order, views, ready, env.stops)[..n]);
            && Sorted(q)
            && (forall v <- q :: v in views)
            && (forall v <- q :: forall i :: n <= i < |views| ==> v.lastAlive >= views[i].lastAlive)
  {
    if n == 0 {
    } else {
      var os := Treatments(order, views, ready, env.stops);
      QuietSorted(order, views, ready, env, n - 1);
      assert os[..n][..n - 1] == os[..n - 1];
      TreatmentTimes(order, views, ready, env.stops, n - 1);
    }
  }

  lemma VisitAllSorted(order: ByteOrder, s: Server, ready: set<int>, env: Env)
    requires Healthy(s) && Sorted(s.views) && Monotone(env) && NotAfter(s.views, env.idleCheck)
    ensures var t := VisitAll(order, s, ready, env); Sorted(t.views) && NotAfter(t.views, env.finished)
  {
    var os := Treatments(order, s.views, ready, env.stops);
    var n := |os|;
    assert os[..n] == os;
    WokenAscends(order, s.views, ready, env, n);
    QuietSorted(order, s.views, ready, env, n);
    var w, q := WokenOf(os), QuietOf(os);
    assert forall v <- q :: v.lastAlive <= env.idleCheck;
    assert forall i :: 0 <= i < |w| ==> Reverse(w)[i].lastAlive == w[|w| - 1 - i].lastAlive;
    if n > 0 { assert env.stops(n - 1).alive <= env.finished; }
  }

  lemma AdmitSorted(views: seq<View>, fd: int, peer: Peer, displaceCheck: int, now: int)
    requires Sorted(views) && NotAfter(views, now)
    ensures var a := Admit(views, fd, peer, displaceCheck, now); Sorted(a.views) && NotAfter(a.views, now)
  {
  }

  lemma AdmitHealthy(s: Server, fd: int, peer: Peer, displaceCheck: int, now: int)
    requires Healthy(s) && s.running
    ensures var a := Admit(s.views, fd, peer, displaceCheck, now);
            Healthy(s.(views := a.views, log := s.log + a.events))
  {
  }

  /** One tick of a monotone clock keeps the list in least-recently-used order. */
  lemma TickSorted(order: ByteOrder, s: Server, env: Env)
    requires Healthy(s) && Sorted(s.views) && Monotone(env) && NotAfter(s.views, env.intervalCheck)
    ensures var t := ServerRules.Tick(order, s, env); Sorted(t.views) && NotAfter(t.views, env.finished)
  {
    if s.running && env.select.Selected? {
      var ready := env.select.ready * Fds(s.views);
      if env.select.serverReady && env.accept.Accepted? {
        var a := Admit(s.views, env.accept.fd, env.accept.peer, env.displaceCheck, env.accepted);
        AdmitSorted(s.views, env.accept.fd, env.accept.peer, env.displaceCheck, env.accepted);
        AdmitHealthy(s, env.accept.fd, env.accept.peer, env.displaceCheck, env.accepted);
        VisitAllSorted(order, s.(views := a.views, log := s.log + a.events), ready, env);
      } else {
        VisitAllSorted(order, s, ready, env);
      }
    }
  }

  /** The clock goes on from tick to tick. */
  ghost predicate Clocked(ops: seq<Op>) {
    && (forall i :: 0 <= i < |ops| && ops[i].Tick? ==> Monotone(ops[i].env))
    && (forall i, j :: 0 <= i < j < |ops| && ops[i].Tick? && ops[j].Tick? ==>
          ops[i].env.finished <= ops[j].env.intervalCheck)
  }

  /** Over any run under a monotone clock the list is in order. */
  lemma {:induction false} RunSorted(order: ByteOrder, ops: seq<Op>)
    requires Clocked(ops)
    ensures Sorted(Exec(order, ops).views)
    ensures forall t :: (forall i :: 0 <= i < |ops| && ops[i].Tick? ==> ops[i].env.finished <= t) ==>
              NotAfter(Exec(order, ops).views, t)
  {
    if ops == [] {
    } else {
      var n := |ops| - 1;
      RunSorted(order, ops[..n]);
      var s := Exec(order, ops[..n]);
      if ops[n].Tick? {
        var env := ops[n].env;
        assert NotAfter(s.views, env.intervalCheck);
        TickSorted(order, s, env);
        assert Monotone(env);
      }
    }
  }

  /** When a connection arrives at a full list, after any run under a monotone clock, the last client is
      a least recently alive one; it makes room if it has not been alive for long enough.  Otherwise
      no client has been silent for that long, and the new connection is turned away. */
  lemma DisplacesOldest(order: ByteOrder, ops: seq<Op>, env: Env)
    requires Clocked(ops) && SH.Goes(Exec(order, ops), env) && env.select.serverReady
    requires |Exec(order, ops).views| == MAX_CLIENT_COUNT
    ensures var s, t, fd, peer := Exec(order, ops), SH.Arrived(Exec(order, ops), env), env.accept.fd, env.accept.peer;
            var last := s.views[|s.views| - 1];
            && (forall v <- s.views :: last.lastAlive <= v.lastAlive)
            && (if exists v <- s.views :: Displaceable(v, env.displaceCheck)
                then t.views == [View(fd, peer, env.accepted, FRESH)] + s.views[..|s.views| - 1]
                     && t.log == s.log + [Connect(fd, peer), Hangup(last.fd, last.peer, Displaced, -1)]
                else t.views == s.views && t.log == s.log + [Connect(fd, peer), Hangup(fd, peer, NoFreeClient, -1)])
  {
    var s := Exec(order, ops);
    RunSorted(order, ops);
    LastIsOldest(s.views);
    var last := s.views[|s.views| - 1];
    if v :| v in s.views && Displaceable(v, env.displaceCheck) {
      assert Displaceable(last, env.displaceCheck);
    }
  }

  lemma LastIsOldest(views: seq<View>)
    requires Sorted(views) && views != []
    ensures forall v <- views :: views[|views| - 1].lastAlive <= v.lastAlive
  {
  }

  /** In a sorted list all clients behind an idle one are idle when their turn comes. */
  lemma IdleLater(views: seq<View>, env: Env, i: nat, j: nat)
    requires Sorted(views) && Monotone(env) && i < j < |views|
    ensures IsIdle(views[i], env.stops(i).checked) ==> IsIdle(views[j], env.stops(j).checked)
  {
    assert env.stops(i).alive <= env.stops(j).checked;
    assert env.stops(i).checked <= env.stops(i).alive;
  }

  /** In any tick after any run under a monotone clock, the clients that are dropped as idle form a
      suffix of the list that is visited. */
  lemma IdleSuffix(order: ByteOrder, ops: seq<Op>, env: Env)
    returns (k: nat)
    requires Clocked(ops + [Tick(env)]) && SH.Goes(Exec(order, ops), env)
    ensures var views := SH.Arrived(Exec(order, ops), env).views;
            k <= |views| && forall i :: 0 <= i < |views| ==> (IsIdle(views[i], env.stops(i).checked) <==> k <= i)
  {
    var views := SH.Arrived(Exec(order, ops), env).views;
    ArrivedSorted(order, ops, env);
    k := |views|;
    while k > 0 && IsIdle(views[k - 1], env.stops(k - 1).checked)
      invariant k <= |views| && forall i :: k <= i < |views| ==> IsIdle(views[i], env.stops(i).checked)
    {
      k := k - 1;
    }
    forall i | 0 <= i < k ensures !IsIdle(views[i], env.stops(i).checked) {
      if i < k - 1 { IdleLater(views, env, i, k - 1); }
    }
  }

  lemma ArrivedSorted(order: ByteOrder, ops: seq<Op>, env: Env)
    requires Clocked(ops + [Tick(env)]) && SH.Goes(Exec(order, ops), env)
    ensures Monotone(env) && Sorted(SH.Arrived(Exec(order, ops), env).views)
  {
    var all, s := ops + [Tick(env)], Exec(order, ops);
    assert all[|ops|] == Tick(env) && forall i :: 0 <= i < |ops| ==> all[i] == ops[i];
    RunSorted(order, ops);
    assert NotAfter(s.views, env.intervalCheck);
    if env.select.serverReady {
      AdmitSorted(s.views, env.accept.fd, env.accept.peer, env.displaceCheck, env.accepted);
    }
  }
}
