/** What a whole step of the pool, or of a slot's client, does to a slot. */
module PoolSteps {
  import opened Bytes
  import opened TcpRules
  import opened TcpRuns
  import opened PoolRules
  import opened PoolSlots

  // ---- The client of a slot ----

  /** A client that nobody else calls gives out no tickets, and keeps its host or loses it. */
  ghost predicate Settles(s: Conn, t: Conn) {
    t.tickets == s.tickets && (t.host.None? || (t.host == s.host && t.port == s.port))
  }

  lemma DeliverSettles(s: Conn, a: TcpRules.Answer)
    requires Ok(s)
    ensures Settles(s, Deliver(s, a, 0))
  {
  }

  lemma {:induction false} DeliverAllSettles(s: Conn, answers: seq<TcpRules.Answer>)
    requires Ok(s) && PhaseOf(s) in {Idle, Resolving, Resolved}
    ensures Settles(s, DeliverAll(s, answers, 0))
  {
    if answers == [] {
    } else {
      DeliverAllKeeps(s, answers[..|answers| - 1], 0);
      DeliverAllSettles(s, answers[..|answers| - 1]);
      DeliverSettles(DeliverAll(s, answers[..|answers| - 1], 0), answers[|answers| - 1]);
    }
  }

  lemma AskSettles(s: Conn, answers: seq<TcpRules.Answer>)
    requires Ok(s) && s.connectCallback.Some?
    ensures Settles(s, Ask(s, answers, 0))
  {
    if PhaseOf(s) == Fresh {
      AskingOk(s);
      DeliverAllSettles(Asking(s), answers);
    }
  }

  lemma AdvanceSettles(s: Conn, e: TickEnv)
    requires Ok(s) && s.connectCallback.Some? && e.told == 0
    ensures Settles(s, Advance(s, e).conn)
  {
    AskSettles(s, e.answers);
    AskKeeps(s, e.answers, 0);
  }

  lemma {:induction false} ReceiveSettles(s: Conn, rs: seq<Received>)
    ensures Settles(s, ReceiveLoop(s, rs, 0))
    decreases |rs|
  {
    if rs != [] && s.fd.Some? && rs[0].Continue? { ReceiveSettles(s, rs[1..]); }
  }

  lemma TickSettles(s: Conn, e: TickEnv)
    requires Ok(s) && e.told == 0 && e.lost == 0
    ensures Settles(s, TcpRules.Tick(s, false, e))
  {
    if s.host.Some? {
      HookKeeps(s, e);
      var t := if e.hook.Some? && s.disconnectCallback.Some? then Drop(s, e.hook.value, 0) else s;
      if t.host.Some? && t.fd.None? { AdvanceSettles(t, e); }
      var u := if t.host.Some? && t.fd.None? then Advance(t, e) else Stepped(t, true);
      if u.go { ReceiveSettles(u.conn, [e.first] + e.more); }
    }
  }

  // ---- Slots between steps ----

  /** A slot between two steps: the count counts its shares, the slot is live exactly while it has
      shares and its client has a host, and the callbacks of its shares fit the client. */
  ghost predicate SlotOk(s: Slot) {
    && |s.shares| == MAX_SHARES && Distinct(s.shares) && s.shareCount == Size(s.shares)
    && (s.deletePending <==> s.shareCount == 0) && (s.deletePending <==> s.client.host.None?)
    && Ok(s.client) && s.client.log == [] && AllAre(s.shares, s.client.fd.None?)
  }

  /** What is known of a life of a slot from the outside. */
  ghost predicate Fits(g: SlotLife, s: Slot) {
    if s.deletePending then g == Quiet || g == Finished else g == if s.client.fd.Some? then Active else Quiet
  }

  /** A step of a slot. */
  ghost predicate SlotStep(s: Slot, events: seq<PoolEvent>, t: Slot) {
    && SlotOk(t) && Moves(s, events, t) && Settles(s.client, t.client)
    && (forall g :: Fits(g, s) ==> Fits(LevelAll(g, s.life, events), t))
  }

  lemma SlotStepTwice(s: Slot, a: seq<PoolEvent>, t: Slot, b: seq<PoolEvent>, u: Slot)
    requires SlotStep(s, a, t) && SlotStep(t, b, u)
    ensures SlotStep(s, a + b, u)
  {
    MovesTwice(s, a, t, b, u);
    forall g | Fits(g, s) ensures Fits(LevelAll(g, s.life, a + b), u) {
      LevelConcat(g, s.life, a, b);
    }
  }

  lemma SlotStepNot(s: Slot)
    requires SlotOk(s)
    ensures SlotStep(s, [], s)
  {
    MovesNot(s);
  }

  // ---- Handling the callbacks of the client ----

  /** A slot while the log of its client has got to a session. */
  ghost predicate During(s: Slot, session: Session) {
    && |s.shares| == MAX_SHARES && Distinct(s.shares) && s.shareCount == Size(s.shares)
    && (s.deletePending <==> s.shareCount == 0)
    && match session
       case NoSession => s.deletePending
       case Waiting(_, _) => !s.deletePending && AllAre(s.shares, true)
       case Connection(_, _) => !s.deletePending && AllAre(s.shares, false)
       case Ending(_) => !s.deletePending && AllAre(s.shares, false)
       case Violated => false
  }

  ghost predicate Stage(session: Session, g: SlotLife) {
    match session
    case NoSession => g == Quiet || g == Finished
    case Waiting(_, _) => g == Quiet
    case Connection(_, _) => g == Active
    case Ending(_) => g == Active
    case Violated => false
  }

  /** What handling callbacks comes to. */
  ghost predicate Handles(s: Slot, session: Session, o: Out, after: Session) {
    && During(o.slot, after) && Moves(s, o.events, o.slot) && o.slot.client == s.client
    && (forall g :: Stage(session, g) ==> Stage(after, LevelAll(g, s.life, o.events)))
  }

  lemma HandleConnected(s: Slot, t: nat, fd: nat)
    requires During(s, Waiting(t, Some(fd)))
    ensures Handles(s, Waiting(t, Some(fd)), OnConnect(s, Connected, 0, Primary), Connection(t, fd))
  {
    ConnectAll(s, 0, Primary);
    ConnectLevels(s, 0, Primary);
    SizeZero(s.shares);
  }

  lemma HandleFailure(s: Slot, t: nat, result: ConnectResult)
    requires During(s, Waiting(t, None)) && result != Connected
    ensures Handles(s, Waiting(t, None), OnConnect(s, result, 0, Primary), NoSession)
  {
    FailAll(s, result, 0, Primary);
    FailMoves(s, result, 0, Primary);
  }

  lemma HandleLoss(s: Slot, t: nat, reason: Reason)
    requires During(s, Ending(t))
    ensures Handles(s, Ending(t), OnDisconnect(s, reason, 0), NoSession)
  {
    LoseAll(s, reason, 0);
    LoseMoves(s, reason, 0);
  }

  lemma HandleOne(s: Slot, r: Record, e: Event)
    requires During(s, r.session) && Follow(r, e).session != Violated && !e.Refused? && !e.Accepted?
    ensures Handles(s, r.session, Handle(s, e), Follow(r, e).session)
  {
    if e.Told? {
      if e.result == Connected {
        HandleConnected(s, r.session.ticket, r.session.dialing.value);
      } else {
        HandleFailure(s, r.session.ticket, e.result);
      }
    } else if e.Lost? {
      HandleLoss(s, r.session.ticket, e.reason);
    } else {
      MovesNot(s);
    }
  }

  lemma TicketsGrow(r: Record, e: Event)
    ensures Follow(r, e).tickets >= r.tickets
    ensures Follow(r, e).tickets == r.tickets && Follow(r, e).session != Violated ==> !e.Refused? && !e.Accepted?
    ensures r.session == Violated ==> Follow(r, e).session == Violated
  {
  }

  lemma {:induction false} TicketsGrowAll(r: Record, log: seq<Event>)
    ensures FollowAll(r, log).tickets >= r.tickets
  {
    if log == [] {
    } else {
      TicketsGrowAll(r, log[..|log| - 1]);
      TicketsGrow(FollowAll(r, log[..|log| - 1]), log[|log| - 1]);
    }
  }

  lemma {:induction false} HandleLog(s: Slot, r: Record, log: seq<Event>)
    requires During(s, r.session)
    requires FollowAll(r, log).session != Violated && FollowAll(r, log).tickets == r.tickets
    ensures Handles(s, r.session, HandleAll(s, log), FollowAll(r, log).session)
  {
    if log == [] {
      MovesNot(s);
    } else {
      var rest, e := log[..|log| - 1], log[|log| - 1];
      var q := FollowAll(r, rest);
      TicketsGrowAll(r, rest);
      TicketsGrow(q, e);
      HandleLog(s, r, rest);
      HandleOne(HandleAll(s, rest).slot, q, e);
      HandlesTwice(s, r.session, HandleAll(s, rest), q.session, Handle(HandleAll(s, rest).slot, e),
                   Follow(q, e).session);
    }
  }

  lemma HandlesTwice(s: Slot, a: Session, o: Out, b: Session, p: Out, c: Session)
    requires Handles(s, a, o, b) && Handles(o.slot, b, p, c)
    ensures Handles(s, a, Out(p.slot, o.events + p.events), c)
  {
    MovesTwice(s, o.events, o.slot, p.events, p.slot);
    forall g | Stage(a, g) ensures Stage(c, LevelAll(g, s.life, o.events + p.events)) {
      LevelConcat(g, s.life, o.events, p.events);
    }
  }

  /** The record that the fields of a client make up. */
  function RecordOf(c: Conn): Record { Record(SessionOf(c), QuestionOf(c), c.tickets, c.resolves, false) }

  /** A step of the client of a slot is a step of the slot. */
  lemma StepClientSteps(s: Slot, after: Conn)
    requires SlotOk(s) && Ok(after) && Faithful(RecordOf(s.client), after) && Settles(s.client, after)
    ensures SlotStep(s, StepClient(s, after).events, StepClient(s, after).slot)
  {
    var r := RecordOf(s.client);
    var t := s.(client := after.(log := []));
    assert During(t, r.session);
    HandleLog(t, r, after.log);
    var o := HandleAll(t, after.log);
    StageFits(s, o, after);
    MovesOfShares(t, o.events, o.slot, s, o.slot);
    forall g | Fits(g, s) ensures Fits(LevelAll(g, s.life, o.events), o.slot) {
      assert Stage(r.session, g);
    }
  }

  lemma StageFits(s: Slot, o: Out, after: Conn)
    requires Ok(after) && During(o.slot, SessionOf(after)) && o.slot.client == after.(log := [])
    ensures SlotOk(o.slot)
    ensures forall g :: Stage(SessionOf(after), g) ==> Fits(g, o.slot)
  {
    SizeZero(o.slot.shares);
  }

  /** A slot without shares has nobody to tell. */
  lemma {:induction false} NobodyToTell(s: Slot, log: seq<Event>)
    requires forall j :: 0 <= j < |s.shares| ==> s.shares[j].None?
    ensures HandleAll(s, log) == Out(s, [])
  {
    if log == [] {
    } else {
      NobodyToTell(s, log[..|log| - 1]);
      var e := log[|log| - 1];
      if e.Told? || e.Refused? { NoneWaiting(s, e.result, 0, Primary); }
      if e.Lost? { NoneLeft(s, e.reason, 0); }
    }
  }

  /** What the release of a share comes to: without other shares the client is disconnected, and its
      callbacks find nobody to tell. */
  lemma ReleaseResult(s: Slot, k: nat, reason: Reason, r: Out, after: Conn)
    requires k < |s.shares| && s.shares[k].Some? && r == ReleaseShare(s, k, reason)
    requires r.slot.shareCount == Size(r.slot.shares) && after == Disconnect(s.client, false, 0, 0)
    ensures ReleaseAndDisconnect(s, k, reason) ==
            if r.slot.shareCount != 0 then r else Out(r.slot.(client := after.(log := [])), r.events)
  {
    NobodyLeft(r.slot, after);
    assert r.events + [] == r.events;
  }

  /** The release of a share is a step of its slot. */
  lemma ReleaseSteps(s: Slot, k: nat, reason: Reason)
    requires SlotOk(s) && k < |s.shares|
    ensures SlotStep(s, ReleaseAndDisconnect(s, k, reason).events, ReleaseAndDisconnect(s, k, reason).slot)
  {
    if s.shares[k].None? {
      SlotStepNot(s);
    } else {
      var r, after := ReleaseShare(s, k, reason), Disconnect(s.client, false, 0, 0);
      SizeZero(s.shares);
      ReleaseOne(s, k, reason, s.client.fd.None?);
      ReleaseResult(s, k, reason, r, after);
      if r.slot.shareCount != 0 {
        StillShared(s, k, r);
      } else {
        DisconnectIdles(s.client);
        Abandoned(s, k, r, after);
      }
    }
  }

  /** What a released slot with other shares is. */
  lemma StillShared(s: Slot, k: nat, r: Out)
    requires SlotOk(s) && !s.deletePending && k < |s.shares|
             && r.slot.shareCount == Size(r.slot.shares) == s.shareCount - 1 > 0
    requires Moves(s, r.events, r.slot) && r.slot == s.(shares := s.shares[k := None], shareCount := s.shareCount - 1)
    requires var g := if s.client.fd.None? then Quiet else Active; LevelAll(g, s.life, r.events) == g
    ensures SlotStep(s, r.events, r.slot)
  {
  }

  /** What a slot without shares is after its client was disconnected. */
  lemma Abandoned(s: Slot, k: nat, r: Out, after: Conn)
    requires SlotOk(s) && !s.deletePending && k < |s.shares|
             && r.slot.shareCount == Size(r.slot.shares) == s.shareCount - 1 == 0
    requires Moves(s, r.events, r.slot)
             && r.slot == s.(shares := s.shares[k := None], shareCount := 0, deletePending := true)
    requires var g := if s.client.fd.None? then Quiet else Active;
             LevelAll(g, s.life, r.events) == if s.client.fd.None? then g else Finished
    requires Ok(after.(log := [])) && PhaseOf(after) == Idle && Settles(s.client, after)
    ensures SlotStep(s, r.events, r.slot.(client := after.(log := [])))
  {
    SizeZero(r.slot.shares);
    MovesOfShares(s, r.events, r.slot, s, r.slot.(client := after.(log := [])));
  }

  lemma NobodyLeft(s: Slot, after: Conn)
    ensures s.shareCount == Size(s.shares) == 0 ==> StepClient(s, after) == Out(s.(client := after.(log := [])), [])
  {
    if s.shareCount == Size(s.shares) == 0 {
      SizeZero(s.shares);
      NobodyToTell(s.(client := after.(log := [])), after.log);
    }
  }

  lemma DisconnectIdles(s: Conn)
    requires Ok(s)
    ensures var t := Disconnect(s, false, 0, 0); Ok(t.(log := [])) && PhaseOf(t) == Idle && Settles(s, t)
  {
  }

  lemma OneMoreStep(s: Slot, first: Out, k: nat)
    requires SlotStep(s, first.events, first.slot) && k < |first.slot.shares|
    ensures var last := ReleaseAndDisconnect(first.slot, k, Forced); SlotStep(s, first.events + last.events, last.slot)
  {
    var last := ReleaseAndDisconnect(first.slot, k, Forced);
    ReleaseSteps(first.slot, k, Forced);
    SlotStepTwice(s, first.events, first.slot, last.events, last.slot);
  }

  lemma {:induction false} ReleaseOthersSteps(s: Slot, k: nat, n: nat, all: Out)
    requires SlotOk(s) && n <= |s.shares| && all == ReleaseOthers(s, k, n)
    ensures SlotStep(s, all.events, all.slot)
  {
    if n == 0 {
      SlotStepNot(s);
    } else {
      var first := ReleaseOthers(s, k, n - 1);
      ReleaseOthersSteps(s, k, n - 1, first);
      if n - 1 != k { OneMoreStep(s, first, n - 1); }
    }
  }

  lemma ReleaseFromSteps(s: Slot, k: nat, force: bool)
    requires SlotOk(s) && k < |s.shares|
    ensures SlotStep(s, ReleaseFrom(s, k, force).events, ReleaseFrom(s, k, force).slot)
  {
    var r := ReleaseAndDisconnect(s, k, Requested);
    ReleaseSteps(s, k, Requested);
    var f := ReleaseOthers(r.slot, k, |s.shares|);
    ReleaseOthersSteps(r.slot, k, |s.shares|, f);
    SlotStepTwice(s, r.events, r.slot, f.events, f.slot);
  }

  /** A tick of the client of a slot. */
  lemma TickSteps(s: Slot, e: TickEnv)
    requires SlotOk(s)
    ensures SlotStep(s, TickedSlot(s, e).events, TickedSlot(s, e).slot)
  {
    TickFollows(RecordOf(s.client), s.client, false, Undisturbed(e));
    TickSettles(s.client, Undisturbed(e));
    StepClientSteps(s, TcpRules.Tick(s.client, false, Undisturbed(e)));
  }

  /** An answer of the resolver for the client of a slot. */
  lemma AnswerSteps(s: Slot, a: TcpRules.Answer)
    requires SlotOk(s)
    ensures SlotStep(s, AnsweredSlot(s, a).events, AnsweredSlot(s, a).slot)
  {
    DeliverFollows(RecordOf(s.client), s.client, a, 0, Deliver(s.client, a, 0));
    DeliverSettles(s.client, a);
    StepClientSteps(s, Deliver(s.client, a, 0));
  }
}
