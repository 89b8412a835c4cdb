/** What each step does to one slot of the pool: the shares and their callbacks, the levels that the
    callbacks are told, and the client. */
module PoolSlots {
  import opened Bytes
  import opened TcpRules
  import opened PoolRules

  // ---- What the users of a pool see ----

  /** One call of `acquire`: before its connect callback, connected, over. */
  datatype ShareLife = Silent | Served | Done | Confused

  function ShareStep(l: ShareLife, id: nat, e: PoolEvent): ShareLife {
    if e.id != id then l
    else
      match e
      case Denied(_, _) => if l == Silent then Done else Confused
      case Informed(_, _, result, _) => if l != Silent then Confused else if result == Connected then Served else Done
      case Released(_, _, _, _) => if l == Served then Done else Confused
  }

  function ShareAll(l: ShareLife, id: nat, events: seq<PoolEvent>): ShareLife {
    if events == [] then l
    else ShareStep(ShareAll(l, id, events[..|events| - 1]), id, events[|events| - 1])
  }

  lemma {:induction false} ShareConcat(l: ShareLife, id: nat, a: seq<PoolEvent>, b: seq<PoolEvent>)
    ensures ShareAll(l, id, a + b) == ShareAll(ShareAll(l, id, a), id, b)
  {
    if b == [] {
      assert a + b == a;
    } else {
      ShareConcat(l, id, a, b[..|b| - 1]);
      assert (a + b)[..|a + b| - 1] == a + b[..|b| - 1];
    }
  }

  /** One life of a slot: nobody is connected yet, the primary share is and the primary disconnect
      is still to come, or that has come. */
  datatype SlotLife = Quiet | Active | Finished | Broke

  function LevelStep(g: SlotLife, life: nat, e: PoolEvent): SlotLife {
    if e.Denied? || e.life != life then g
    else
      match e
      case Informed(_, _, result, level) =>
        if result != Connected then if g == Quiet then Quiet else Broke
        else if (g == Quiet && level == Primary) || (g == Active && level == Secondary) then Active
        else Broke
      case Released(_, _, _, level) =>
        if g != Active || level == Undefined then Broke else if level == Primary then Finished else Active
  }

  function LevelAll(g: SlotLife, life: nat, events: seq<PoolEvent>): SlotLife {
    if events == [] then g
    else LevelStep(LevelAll(g, life, events[..|events| - 1]), life, events[|events| - 1])
  }

  lemma {:induction false} LevelConcat(g: SlotLife, life: nat, a: seq<PoolEvent>, b: seq<PoolEvent>)
    ensures LevelAll(g, life, a + b) == LevelAll(LevelAll(g, life, a), life, b)
  {
    if b == [] {
      assert a + b == a;
    } else {
      LevelConcat(g, life, a, b[..|b| - 1]);
      assert (a + b)[..|a + b| - 1] == a + b[..|b| - 1];
    }
  }

  // ---- Shares ----

  ghost predicate Distinct(shares: Shares) {
    forall i, j :: 0 <= i < j < |shares| && shares[i].Some? && shares[j].Some? ==>
      shares[i].value.id != shares[j].value.id
  }

  function Size(shares: Shares): nat {
    if shares == [] then 0 else Size(shares[..|shares| - 1]) + if shares[|shares| - 1].Some? then 1 else 0
  }

  lemma {:induction false} SizeSet(shares: Shares, k: nat, now: Option<Share>)
    requires k < |shares|
    ensures Size(shares[k := now]) ==
            Size(shares) - (if shares[k].Some? then 1 else 0) + if now.Some? then 1 else 0
  {
    var n := |shares| - 1;
    var t := shares[k := now];
    if k < n {
      SizeSet(shares[..n], k, now);
      assert t[..n] == shares[..n][k := now];
    } else {
      assert t[..n] == shares[..n];
    }
  }

  lemma {:induction false} SizeZero(shares: Shares)
    ensures Size(shares) == 0 <==> forall k :: 0 <= k < |shares| ==> shares[k].None?
  {
    if shares == [] {
    } else {
      var n := |shares| - 1;
      SizeZero(shares[..n]);
      if forall k :: 0 <= k < n ==> shares[..n][k].None? {
        assert forall k :: 0 <= k < n ==> shares[k] == shares[..n][k];
      } else {
        var k :| 0 <= k < n && shares[..n][k].Some?;
        assert shares[k].Some?;
      }
    }
  }

  /** What a share's callbacks say about its life. */
  function LifeOfShare(share: Option<Share>): ShareLife {
    if share.None? then Done
    else if share.value.connectCallback then Silent
    else if share.value.disconnectCallback then Served
    else Done
  }

  function View(shares: Shares, id: nat): ShareLife {
    LifeOfShare(if Held(shares, id) then shares[Find(shares, id)] else None)
  }

  lemma ViewSet(shares: Shares, k: nat, now: Option<Share>, id: nat)
    requires Distinct(shares) && k < |shares| && shares[k].Some?
    requires now.Some? ==> now.value.id == shares[k].value.id
    ensures Distinct(shares[k := now])
    ensures View(shares[k := now], id) == if id == shares[k].value.id then LifeOfShare(now) else View(shares, id)
  {
    var t := shares[k := now];
    var i, j := Find(shares, id), Find(t, id);
    if id == shares[k].value.id {
      assert forall i :: 0 <= i < |t| && i != k ==> t[i] == shares[i];
      if now.Some? { assert t[k] == now; }
    } else {
      if i < |shares| { assert t[i] == shares[i]; }
      if j < |t| { assert shares[j] == t[j]; }
      assert i == j;
    }
  }

  // ---- Steps ----

  /** For one ID: it does not come back, and the callbacks lead from the life that s shows to the one
      that t shows. */
  ghost predicate MovesId(s: Slot, events: seq<PoolEvent>, t: Slot, id: nat) {
    (Held(t.shares, id) ==> Held(s.shares, id)) && ShareAll(View(s.shares, id), id, events) == View(t.shares, id)
  }

  ghost predicate OfLife(events: seq<PoolEvent>, life: nat) { forall e <- events :: !e.Denied? && e.life == life }

  /** From s to t by a step with these callbacks. */
  ghost predicate Moves(s: Slot, events: seq<PoolEvent>, t: Slot) {
    && t.life == s.life && |t.shares| == |s.shares| && Distinct(t.shares)
    && (forall id: nat :: MovesId(s, events, t, id))
    && OfLife(events, s.life)
  }

  lemma MovesTwice(s: Slot, a: seq<PoolEvent>, t: Slot, b: seq<PoolEvent>, u: Slot)
    requires Moves(s, a, t) && Moves(t, b, u)
    ensures Moves(s, a + b, u)
  {
    forall id: nat ensures MovesId(s, a + b, u, id) {
      assert MovesId(s, a, t, id) && MovesId(t, b, u, id);
      ShareConcat(View(s.shares, id), id, a, b);
    }
  }

  lemma MovesNot(s: Slot)
    requires Distinct(s.shares)
    ensures Moves(s, [], s)
  {
  }

  lemma ShareOne(l: ShareLife, id: nat, e: PoolEvent)
    ensures ShareAll(l, id, [e]) == ShareStep(l, id, e)
  {
    assert [e][..0] == [];
  }

  lemma LevelOne(g: SlotLife, life: nat, e: PoolEvent)
    ensures LevelAll(g, life, [e]) == LevelStep(g, life, e)
  {
    assert [e][..0] == [];
  }

  /** A single callback that changes or removes a single share. */
  lemma MovesOne(s: Slot, k: nat, now: Option<Share>, e: PoolEvent, t: Slot)
    requires Distinct(s.shares) && k < |s.shares| && s.shares[k].Some?
    requires now.Some? ==> now.value.id == s.shares[k].value.id
    requires t.life == s.life && t.shares == s.shares[k := now]
    requires !e.Denied? && e.life == s.life && e.id == s.shares[k].value.id
    requires ShareStep(LifeOfShare(s.shares[k]), e.id, e) == LifeOfShare(now)
    ensures Moves(s, [e], t)
  {
    ViewSet(s.shares, k, now, e.id);
    ViewSet(s.shares, k, s.shares[k], e.id);
    assert s.shares[k := s.shares[k]] == s.shares;
    forall id: nat ensures MovesId(s, [e], t, id) {
      ShareOne(View(s.shares, id), id, e);
      ViewSet(s.shares, k, now, id);
      HeldBefore(s.shares, k, now, id);
    }
  }

  lemma HeldBefore(shares: Shares, k: nat, now: Option<Share>, id: nat)
    requires k < |shares| && shares[k].Some? && (now.Some? ==> now.value.id == shares[k].value.id)
    ensures Held(shares[k := now], id) ==> Held(shares, id)
  {
    var t := shares[k := now];
    if Held(t, id) {
      var j := Find(t, id);
      assert shares[j].Some? && shares[j].value.id == id;
    }
  }

  /** The client of a slot has no part in this. */
  lemma MovesOfShares(s: Slot, events: seq<PoolEvent>, t: Slot, s': Slot, t': Slot)
    requires Moves(s, events, t) && s'.shares == s.shares && t'.shares == t.shares && s'.life == s.life
             && t'.life == t.life
    ensures Moves(s', events, t')
  {
    forall id: nat ensures MovesId(s', events, t', id) {
      assert MovesId(s, events, t, id);
    }
  }

  // ---- The callbacks of the client ----

  /** All shares wait for their connect callback, or all for their disconnect callback. */
  ghost predicate AllAre(shares: Shares, waiting: bool) { AllFrom(shares, 0, waiting) }

  ghost predicate AllFrom(shares: Shares, k: nat, waiting: bool) {
    forall j :: k <= j < |shares| && shares[j].Some? ==>
      shares[j].value == Share(shares[j].value.id, waiting, waiting, !waiting)
  }

  /** One share gets its connect callback and stays. */
  lemma ConnectOne(s: Slot, k: nat, level: Level)
    requires k < |s.shares| && s.shares[k].Some? && Distinct(s.shares) && AllFrom(s.shares, k, true)
    ensures var share := s.shares[k].value;
            var t := s.(shares := s.shares[k := Some(Settled(share, Connected))]);
            && Moves(s, [Informed(share.id, s.life, Connected, level)], t)
            && AllFrom(t.shares, k + 1, true) && Size(t.shares) == Size(s.shares)
            && Settled(share, Connected) == Share(share.id, false, false, true)
  {
    var share := s.shares[k].value;
    var t := s.(shares := s.shares[k := Some(Settled(share, Connected))]);
    MovesOne(s, k, Some(Settled(share, Connected)), Informed(share.id, s.life, Connected, level), t);
    SizeSet(s.shares, k, Some(Settled(share, Connected)));
  }

  ghost predicate AllUntil(shares: Shares, k: nat) {
    forall j :: 0 <= j < k && j < |shares| && shares[j].Some? ==>
      shares[j].value == Share(shares[j].value.id, false, false, true)
  }

  ghost predicate Empty(shares: Shares, from: nat, to: nat) {
    forall j :: from <= j < to && j < |shares| ==> shares[j].None?
  }

  /** A connection: every share gets its connect callback. */
  lemma {:induction false} ConnectAll(s: Slot, k: nat, level: Level)
    requires k <= |s.shares| && Distinct(s.shares) && AllFrom(s.shares, k, true) && AllUntil(s.shares, k)
    ensures var o := OnConnect(s, Connected, k, level);
            && o.slot == s.(shares := o.slot.shares) && AllAre(o.slot.shares, false)
            && Size(o.slot.shares) == Size(s.shares)
            && Moves(s, o.events, o.slot)
    decreases |s.shares| - k
  {
    if k == |s.shares| {
      MovesNot(s);
    } else if s.shares[k].None? {
      ConnectAll(s, k + 1, level);
    } else {
      var e := Informed(s.shares[k].value.id, s.life, Connected, level);
      var t := s.(shares := s.shares[k := Some(Settled(s.shares[k].value, Connected))]);
      ConnectOne(s, k, level);
      ConnectAll(t, k + 1, Secondary);
      var rest := OnConnect(t, Connected, k + 1, Secondary);
      MovesTwice(s, [e], t, rest.events, rest.slot);
      assert [e] + [] + rest.events == [e] + rest.events;
    }
  }

  /** The first share that gets its connect callback is the primary one. */
  lemma {:induction false} ConnectLevels(s: Slot, k: nat, level: Level)
    requires k <= |s.shares| && level != Undefined
    ensures LevelAll(if level == Primary then Quiet else Active, s.life, OnConnect(s, Connected, k, level).events) ==
            if level == Primary && Empty(s.shares, k, |s.shares|) then Quiet else Active
    decreases |s.shares| - k
  {
    if k < |s.shares| && s.shares[k].None? {
      ConnectLevels(s, k + 1, level);
    }
    if k < |s.shares| && s.shares[k].Some? {
      var e := Informed(s.shares[k].value.id, s.life, Connected, level);
      var t := s.(shares := s.shares[k := Some(Settled(s.shares[k].value, Connected))]);
      ConnectLevels(t, k + 1, Secondary);
      var rest := OnConnect(t, Connected, k + 1, Secondary);
      assert [e] + [] + rest.events == [e] + rest.events;
      var g := if level == Primary then Quiet else Active;
      LevelOne(g, s.life, e);
      LevelConcat(g, s.life, [e], rest.events);
    }
  }

  /** One share is told that the attempt failed, and goes. */
  lemma FailOne(s: Slot, k: nat, result: ConnectResult, level: Level)
    requires k < |s.shares| && s.shares[k].Some? && Distinct(s.shares) && AllFrom(s.shares, k, true)
    requires result != Connected && s.shareCount == Size(s.shares)
    ensures var share := s.shares[k].value;
            var r := ReleaseShare(s.(shares := s.shares[k := Some(Settled(share, result))]), k, Requested);
            && r.events == [] && Moves(s, [Informed(share.id, s.life, result, level)], r.slot)
            && r.slot.shares == s.shares[k := None] && r.slot.shareCount == Size(r.slot.shares) == s.shareCount - 1
            && r.slot == s.(shares := r.slot.shares, shareCount := s.shareCount - 1,
                            deletePending := s.deletePending || s.shareCount == 1)
  {
    var share := s.shares[k].value;
    var t := s.(shares := s.shares[k := Some(Settled(share, result))]);
    var r := ReleaseShare(t, k, Requested);
    assert r.slot.shares == s.shares[k := None];
    SizeSet(s.shares, k, None);
    MovesOne(s, k, None, Informed(share.id, s.life, result, level), r.slot);
  }

  /** A failed attempt: every share is told, and the slot is left to be deleted. */
  lemma {:induction false} FailAll(s: Slot, result: ConnectResult, k: nat, level: Level)
    requires k <= |s.shares| && Distinct(s.shares) && AllFrom(s.shares, k, true) && result != Connected
    requires s.shareCount == Size(s.shares) && Empty(s.shares, 0, k)
    ensures var o := OnConnect(s, result, k, level);
            && Size(o.slot.shares) == o.slot.shareCount == 0
            && o.slot == s.(shares := o.slot.shares, shareCount := 0,
                            deletePending := s.deletePending || s.shareCount > 0)
    decreases |s.shares| - k
  {
    if k == |s.shares| {
      SizeZero(s.shares);
    } else if s.shares[k].None? {
      FailAll(s, result, k + 1, level);
    } else {
      var r := ReleaseShare(s.(shares := s.shares[k := Some(Settled(s.shares[k].value, result))]), k, Requested);
      FailOne(s, k, result, level);
      FailAll(r.slot, result, k + 1, Secondary);
    }
  }

  lemma {:induction false} FailMoves(s: Slot, result: ConnectResult, k: nat, level: Level)
    requires k <= |s.shares| && Distinct(s.shares) && AllFrom(s.shares, k, true) && result != Connected
    requires s.shareCount == Size(s.shares) && Empty(s.shares, 0, k)
    ensures Moves(s, OnConnect(s, result, k, level).events, OnConnect(s, result, k, level).slot)
    ensures LevelAll(Quiet, s.life, OnConnect(s, result, k, level).events) == Quiet
    decreases |s.shares| - k, 1
  {
    if k == |s.shares| {
      MovesNot(s);
    } else if s.shares[k].None? {
      FailMoves(s, result, k + 1, level);
    } else {
      FailOne(s, k, result, level);
      FailRest(s, result, k, level, ReleaseShare(s.(shares := s.shares[k := Some(Settled(s.shares[k].value, result))]),
                                                 k, Requested));
    }
  }

  /** How a failed attempt goes on behind share k. */
  lemma FailStep(s: Slot, result: ConnectResult, k: nat, level: Level, r: Out)
    requires k < |s.shares| && s.shares[k].Some? && result != Connected
    requires r == ReleaseShare(s.(shares := s.shares[k := Some(Settled(s.shares[k].value, result))]), k, Requested)
             && r.events == []
    ensures var rest := OnConnect(r.slot, result, k + 1, Secondary);
            OnConnect(s, result, k, level) == Out(rest.slot,
                                                  [Informed(s.shares[k].value.id, s.life, result, level)] + rest.events)
  {
    var e := Informed(s.shares[k].value.id, s.life, result, level);
    var rest := OnConnect(r.slot, result, k + 1, Secondary);
    assert [e] + r.events + rest.events == [e] + rest.events;
  }

  lemma FailRest(s: Slot, result: ConnectResult, k: nat, level: Level, r: Out)
    requires k < |s.shares| == |r.slot.shares| && s.shares[k].Some? && result != Connected
    requires r == ReleaseShare(s.(shares := s.shares[k := Some(Settled(s.shares[k].value, result))]), k, Requested)
             && r.events == []
    requires Moves(s, [Informed(s.shares[k].value.id, s.life, result, level)], r.slot)
    requires AllFrom(r.slot.shares, k + 1, true) && r.slot.shareCount == Size(r.slot.shares)
             && Empty(r.slot.shares, 0, k + 1)
    ensures Moves(s, OnConnect(s, result, k, level).events, OnConnect(s, result, k, level).slot)
    ensures LevelAll(Quiet, s.life, OnConnect(s, result, k, level).events) == Quiet
    decreases |s.shares| - k, 0
  {
    var rest := OnConnect(r.slot, result, k + 1, Secondary);
    FailStep(s, result, k, level, r);
    FailMoves(r.slot, result, k + 1, Secondary);
    FailTwice(s, Informed(s.shares[k].value.id, s.life, result, level), r.slot, rest.events, rest.slot);
  }

  lemma FailTwice(s: Slot, e: PoolEvent, t: Slot, events: seq<PoolEvent>, u: Slot)
    requires e.Informed? && e.result != Connected && Moves(s, [e], t)
    requires Moves(t, events, u) && LevelAll(Quiet, s.life, events) == Quiet
    ensures Moves(s, [e] + events, u) && LevelAll(Quiet, s.life, [e] + events) == Quiet
  {
    MovesTwice(s, [e], t, events, u);
    LevelOne(Quiet, s.life, e);
    LevelConcat(Quiet, s.life, [e], events);
  }

  /** The callback of a share that is released, with the level that it is told. */
  function Farewell(s: Slot, k: nat, reason: Reason, waiting: bool): PoolEvent
    requires k < |s.shares| && s.shares[k].Some?
  {
    var id, level := s.shares[k].value.id, if s.shareCount - 1 == 0 then Primary else Secondary;
    if waiting then Informed(id, s.life, AbortRequested, level) else Released(id, s.life, reason, level)
  }

  lemma ReleaseShape(s: Slot, k: nat, reason: Reason, waiting: bool)
    requires k < |s.shares| && s.shares[k].Some?
    requires s.shares[k].value == Share(s.shares[k].value.id, waiting, waiting, !waiting)
    requires s.shareCount == Size(s.shares)
    ensures var r := ReleaseShare(s, k, reason);
            && r.events == [Farewell(s, k, reason, waiting)]
            && r.slot.shares == s.shares[k := None] && r.slot.shareCount == Size(r.slot.shares) == s.shareCount - 1
            && r.slot == s.(shares := r.slot.shares, shareCount := s.shareCount - 1,
                            deletePending := s.deletePending || s.shareCount == 1)
  {
    SizeSet(s.shares, k, None);
  }

  /** The release of one share, up to the mark for deletion. */
  lemma ReleaseOne(s: Slot, k: nat, reason: Reason, waiting: bool)
    requires k < |s.shares| && s.shares[k].Some? && Distinct(s.shares)
    requires s.shares[k].value == Share(s.shares[k].value.id, waiting, waiting, !waiting)
    requires s.shareCount == Size(s.shares)
    ensures var r := ReleaseShare(s, k, reason);
            var g := if waiting then Quiet else Active;
            && Moves(s, r.events, r.slot)
            && r.slot.shares == s.shares[k := None] && r.slot.shareCount == Size(r.slot.shares) == s.shareCount - 1
            && r.slot == s.(shares := r.slot.shares, shareCount := s.shareCount - 1,
                            deletePending := s.deletePending || s.shareCount == 1)
            && LevelAll(g, s.life, r.events) == if !waiting && s.shareCount == 1 then Finished else g
  {
    var r := ReleaseShare(s, k, reason);
    var e := Farewell(s, k, reason, waiting);
    ReleaseShape(s, k, reason, waiting);
    MovesOne(s, k, None, e, r.slot);
    LevelOne(if waiting then Quiet else Active, s.life, e);
  }

  /** A lost connection: every share gets its disconnect callback and goes. */
  lemma {:induction false} LoseAll(s: Slot, reason: Reason, k: nat)
    requires k <= |s.shares| && Distinct(s.shares) && AllFrom(s.shares, k, false)
    requires s.shareCount == Size(s.shares) && Empty(s.shares, 0, k)
    ensures var o := OnDisconnect(s, reason, k);
            && Size(o.slot.shares) == o.slot.shareCount == 0
            && o.slot == s.(shares := o.slot.shares, shareCount := 0,
                            deletePending := s.deletePending || s.shareCount > 0)
    decreases |s.shares| - k
  {
    if k == |s.shares| {
      SizeZero(s.shares);
    } else {
      if s.shares[k].Some? { ReleaseOne(s, k, reason, false); }
      LoseAll(ReleaseShare(s, k, reason).slot, reason, k + 1);
    }
  }

  /** The last share that loses its connection is the primary one. */
  lemma {:induction false} LoseMoves(s: Slot, reason: Reason, k: nat)
    requires k <= |s.shares| && Distinct(s.shares) && AllFrom(s.shares, k, false)
    requires s.shareCount == Size(s.shares) && Empty(s.shares, 0, k)
    ensures Moves(s, OnDisconnect(s, reason, k).events, OnDisconnect(s, reason, k).slot)
    ensures LevelAll(Active, s.life, OnDisconnect(s, reason, k).events) == if s.shareCount > 0 then Finished else Active
    decreases |s.shares| - k, 0
  {
    if k == |s.shares| {
      SizeZero(s.shares);
      MovesNot(s);
    } else if s.shares[k].None? {
      LoseSkip(s, reason, k);
      LoseMoves(s, reason, k + 1);
    } else {
      SizeZero(s.shares);
      ReleaseOne(s, k, reason, false);
      LoseTwice(s, ReleaseShare(s, k, reason), reason, k + 1);
    }
  }

  lemma LoseSkip(s: Slot, reason: Reason, k: nat)
    requires k < |s.shares| && s.shares[k].None?
    ensures OnDisconnect(s, reason, k) == OnDisconnect(s, reason, k + 1)
  {
    var rest := OnDisconnect(s, reason, k + 1);
    assert [] + rest.events == rest.events;
  }

  lemma LoseTwice(s: Slot, r: Out, reason: Reason, k: nat)
    requires k <= |s.shares| && Moves(s, r.events, r.slot) && AllFrom(r.slot.shares, k, false)
    requires r.slot.shareCount == Size(r.slot.shares) && Empty(r.slot.shares, 0, k)
    requires LevelAll(Active, s.life, r.events) == if r.slot.shareCount == 0 then Finished else Active
    ensures var rest := OnDisconnect(r.slot, reason, k);
            && Moves(s, r.events + rest.events, rest.slot)
            && LevelAll(Active, s.life, r.events + rest.events) == Finished
    decreases |s.shares| - k, 1
  {
    var rest := OnDisconnect(r.slot, reason, k);
    LoseMoves(r.slot, reason, k);
    MovesTwice(s, r.events, r.slot, rest.events, rest.slot);
    LevelConcat(Active, s.life, r.events, rest.events);
    if r.slot.shareCount == 0 {
      SizeZero(r.slot.shares);
      NoneLeft(r.slot, reason, k);
    }
  }

  /** Nothing happens to a slot without shares. */
  lemma {:induction false} NoneLeft(s: Slot, reason: Reason, k: nat)
    requires forall j :: 0 <= j < |s.shares| ==> s.shares[j].None?
    ensures OnDisconnect(s, reason, k) == Out(s, [])
    decreases |s.shares| - k
  {
    if k < |s.shares| { NoneLeft(s, reason, k + 1); }
  }

  lemma {:induction false} NoneWaiting(s: Slot, result: ConnectResult, k: nat, level: Level)
    requires forall j :: 0 <= j < |s.shares| ==> s.shares[j].None?
    ensures OnConnect(s, result, k, level) == Out(s, [])
    decreases |s.shares| - k
  {
    if k < |s.shares| { NoneWaiting(s, result, k + 1, level); }
  }
}
