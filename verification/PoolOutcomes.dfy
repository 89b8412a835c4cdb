/** What releasing does to a slot and tells the users of its shares. */
module PoolOutcomes {
  import opened Bytes
  import opened TcpRules
  import opened PoolRules
  import opened PoolSlots
  import opened PoolSteps
  import opened PoolRuns

  // ---- One share ----

  /** What the user of a share is told: a connection is lost for the reason, an attempt is aborted. */
  function Goodbye(up: bool, life: nat, share: Share, reason: Reason, last: bool): PoolEvent {
    var level := if last then Primary else Secondary;
    if up then Released(share.id, life, reason, level) else Informed(share.id, life, AbortRequested, level)
  }

  /** Nobody is left: the slot waits for its deletion, and its client is idle. */
  ghost predicate Deserted(t: Slot) {
    && (forall j :: 0 <= j < |t.shares| ==> t.shares[j].None?)
    && t.shareCount == 0 && t.deletePending && t.client.host.None? && t.client.fd.None?
  }

  /** One share leaves a slot: it is gone, its user is told, and everything else stays as it is, unless it
      was the last. */
  ghost predicate Leaves(s: Slot, k: nat, reason: Reason, o: Out)
    requires k < |s.shares| && s.shares[k].Some?
  {
    var t, last := o.slot, s.shareCount == 1;
    && o.events == [Goodbye(s.client.fd.Some?, s.life, s.shares[k].value, reason, last)]
    && t.shares == s.shares[k := None] && t.life == s.life
    && (if last then Deserted(t)
        else t.shareCount == s.shareCount - 1 && t.deletePending == s.deletePending && t.client == s.client)
  }

  lemma StaysOk(s: Slot, k: nat, reason: Reason, o: Out)
    requires SlotOk(s) && k < |s.shares| && o == ReleaseAndDisconnect(s, k, reason)
    ensures SlotOk(o.slot)
  {
    ReleaseSteps(s, k, reason);
  }

  lemma ShareLeaves(s: Slot, k: nat, reason: Reason)
    requires SlotOk(s) && k < |s.shares| && s.shares[k].Some?
    ensures Leaves(s, k, reason, ReleaseAndDisconnect(s, k, reason))
    ensures SlotOk(ReleaseAndDisconnect(s, k, reason).slot)
  {
    var r, after := ReleaseShare(s, k, reason), Disconnect(s.client, false, 0, 0);
    ReleaseOne(s, k, reason, s.client.fd.None?);
    ReleaseResult(s, k, reason, r, after);
    SizeZero(r.slot.shares);
    DisconnectIdles(s.client);
    StaysOk(s, k, reason, ReleaseAndDisconnect(s, k, reason));
  }

  // ---- All shares ----

  /** The shares that are held among the first n, in order. */
  function Users(shares: Shares, n: nat): seq<Share>
    requires n <= |shares|
  {
    if n == 0 then [] else Users(shares, n - 1) + if shares[n - 1].Some? then [shares[n - 1].value] else []
  }

  lemma {:induction false} UsersCounted(shares: Shares, n: nat)
    requires n <= |shares|
    ensures |Users(shares, n)| == Size(shares[..n])
  {
    if n > 0 {
      UsersCounted(shares, n - 1);
      assert shares[..n][..n - 1] == shares[..n - 1];
    }
  }

  lemma {:induction false} UsersGrow(shares: Shares, n: nat, m: nat)
    requires n <= m <= |shares|
    ensures |Users(shares, n)| <= |Users(shares, m)|
    ensures |Users(shares, n)| == |Users(shares, m)| ==> forall j :: n <= j < m ==> shares[j].None?
    decreases m
  {
    if n < m { UsersGrow(shares, n, m - 1); }
  }

  lemma AllUsers(shares: Shares, n: nat)
    requires n <= |shares|
    ensures |Users(shares, n)| <= Size(shares)
    ensures |Users(shares, n)| == Size(shares) ==> forall j :: n <= j < |shares| ==> shares[j].None?
  {
    UsersCounted(shares, |shares|);
    assert shares[..|shares|] == shares;
    UsersGrow(shares, n, |shares|);
  }

  /** What forced users are told; `total` counts those who are still there to be told. */
  function Goodbyes(up: bool, life: nat, users: seq<Share>, total: nat): (events: seq<PoolEvent>)
    ensures |events| == |users|
  {
    seq(|users|, i requires 0 <= i < |users| => Goodbye(up, life, users[i], Forced, i == total - 1))
  }

  /** The forced release has got to share n. */
  ghost predicate Forcing(s: Slot, n: nat, o: Out)
    requires n <= |s.shares|
  {
    var t, users, total := o.slot, Users(s.shares, n), Size(s.shares);
    && SlotOk(t) && t.life == s.life && o.events == Goodbyes(s.client.fd.Some?, s.life, users, total)
    && |t.shares| == |s.shares| && t.shareCount == total - |users|
    && (forall j :: 0 <= j < |s.shares| ==> t.shares[j] == if j < n then None else s.shares[j])
    && (if |users| == total then Deserted(t) else t.client == s.client && !t.deletePending)
  }

  lemma OneLeaves(s: Slot, n: nat, first: Out, last: Out, o: Out)
    requires 0 < n <= |s.shares| && Forcing(s, n - 1, first) && s.shares[n - 1].Some?
    requires |Users(s.shares, n)| <= Size(s.shares)
    requires Leaves(first.slot, n - 1, Forced, last) && SlotOk(last.slot)
    requires o == Out(last.slot, first.events + last.events)
    ensures Forcing(s, n, o)
  {
    var users, total := Users(s.shares, n), Size(s.shares);
    assert users == Users(s.shares, n - 1) + [s.shares[n - 1].value];
    var up := s.client.fd.Some?;
    assert Goodbyes(up, s.life, users, total) ==
           Goodbyes(up, s.life, Users(s.shares, n - 1), total)
           + [Goodbye(up, s.life, s.shares[n - 1].value, Forced, |users| == total)];
  }

  lemma NobodyLeaves(s: Slot, n: nat, first: Out)
    requires 0 < n <= |s.shares| && Forcing(s, n - 1, first) && s.shares[n - 1].None?
    ensures Forcing(s, n, first)
  {
    assert Users(s.shares, n) == Users(s.shares, n - 1);
  }

  lemma ForcingStarts(s: Slot)
    requires SlotOk(s)
    ensures Forcing(s, 0, Out(s, []))
  {
    SizeZero(s.shares);
  }

  lemma OthersStep(s: Slot, k: nat, n: nat, first: Out, o: Out)
    requires k < |s.shares| && s.shares[k].None? && 0 < n <= |s.shares|
    requires first == ReleaseOthers(s, k, n - 1) && o == ReleaseOthers(s, k, n)
    requires |first.slot.shares| == |s.shares| && first.slot.shares[n - 1] == s.shares[n - 1]
    ensures if s.shares[n - 1].None? then o == first
            else var last := ReleaseAndDisconnect(first.slot, n - 1, Forced);
                 o == Out(last.slot, first.events + last.events)
  {
    assert first.events + [] == first.events;
  }

  lemma {:induction false} OthersLeave(s: Slot, k: nat, n: nat, o: Out)
    requires SlotOk(s) && k < |s.shares| && s.shares[k].None? && n <= |s.shares| && o == ReleaseOthers(s, k, n)
    ensures Forcing(s, n, o)
    decreases n
  {
    if n == 0 {
      ForcingStarts(s);
    } else {
      var first := ReleaseOthers(s, k, n - 1);
      OthersLeave(s, k, n - 1, first);
      OtherLeaves(s, k, n, first, o);
    }
  }

  lemma OtherLeaves(s: Slot, k: nat, n: nat, first: Out, o: Out)
    requires k < |s.shares| && s.shares[k].None? && 0 < n <= |s.shares|
    requires first == ReleaseOthers(s, k, n - 1) && o == ReleaseOthers(s, k, n) && Forcing(s, n - 1, first)
    ensures Forcing(s, n, o)
  {
    OthersStep(s, k, n, first, o);
    if s.shares[n - 1].Some? {
      AllUsers(s.shares, n);
      ShareLeaves(first.slot, n - 1, Forced);
      OneLeaves(s, n, first, ReleaseAndDisconnect(first.slot, n - 1, Forced), o);
    } else {
      NobodyLeaves(s, n, first);
    }
  }

  // ---- release ----

  /** A release of share k: with force, everybody else has to leave behind its user, in the order of the
      shares, and the slot is deserted; without force, only this share is gone. */
  ghost predicate Releases(s: Slot, k: nat, force: bool, o: Out)
    requires k < |s.shares| && s.shares[k].Some?
  {
    if !force then Leaves(s, k, Requested, o)
    else
      var others := Users(s.shares[k := None], |s.shares|);
      var up := s.client.fd.Some?;
      && Deserted(o.slot) && |o.slot.shares| == |s.shares| && o.slot.life == s.life
      && o.events == [Goodbye(up, s.life, s.shares[k].value, Requested, others == [])]
                     + Goodbyes(up, s.life, others, |others|)
  }

  lemma SlotReleases(s: Slot, k: nat, force: bool)
    requires SlotOk(s) && k < |s.shares| && s.shares[k].Some?
    ensures Releases(s, k, force, ReleaseFrom(s, k, force))
  {
    var r := ReleaseAndDisconnect(s, k, Requested);
    ShareLeaves(s, k, Requested);
    if force {
      var others, f := Users(r.slot.shares, |s.shares|), ReleaseOthers(r.slot, k, |s.shares|);
      SizeSet(s.shares, k, None);
      UsersCounted(r.slot.shares, |s.shares|);
      assert r.slot.shares[..|s.shares|] == r.slot.shares;
      OthersLeave(r.slot, k, |s.shares|, f);
      assert forall j :: 0 <= j < |s.shares| ==> f.slot.shares[j].None?;
    }
  }

  /** Every release of every run: a guarded one does nothing, nor does one with an ID that nobody holds;
      otherwise the slot that holds the ID is released, and all others stay as they are. */
  lemma ReleaseExactly(ops: seq<Op>, guarded: bool, id: nat, force: bool)
    ensures var p, q := Exec(ops), PoolRuns.Apply(Exec(ops), Releasing(guarded, id, force));
            if guarded || (forall i :: 0 <= i < |p.slots| ==> !HeldIn(p.slots[i], id)) then q == p
            else
              exists i, o :: ReleasesAt(p, q, i, id, force, o)
  {
    var p := Exec(ops);
    var i := Holder(p.slots, id);
    if !guarded && i < |p.slots| {
      var s := p.slots[i].value;
      SlotReleases(s, Find(s.shares, id), force);
      assert ReleasesAt(p, PoolRuns.Apply(p, Releasing(guarded, id, force)), i, id, force,
                        ReleaseFrom(s, Find(s.shares, id), force));
    }
  }

  ghost predicate ReleasesAt(p: Pool, q: Pool, i: nat, id: nat, force: bool, o: Out) {
    && i < |p.slots| && HeldIn(p.slots[i], id)
    && Releases(p.slots[i].value, Find(p.slots[i].value.shares, id), force, o)
    && q == p.(slots := p.slots[i := Some(o.slot)], log := p.log + o.events)
  }

  // ---- The callbacks of the client of a slot ----

  /** The shares that are held from k on, in order. */
  function UsersFrom(shares: Shares, k: nat): seq<Share>
    decreases |shares| - k
  {
    if k >= |shares| then [] else (if shares[k].Some? then [shares[k].value] else []) + UsersFrom(shares, k + 1)
  }

  /** Every user is told the same result; the first one is the primary one. */
  function Tellings(life: nat, users: seq<Share>, result: ConnectResult, level: Level): seq<PoolEvent> {
    if users == [] then []
    else [Informed(users[0].id, life, result, level)] + Tellings(life, users[1..], result, Secondary)
  }

  /** Every user is told the same reason; the last one is the primary one. */
  function Losses(life: nat, users: seq<Share>, reason: Reason): seq<PoolEvent> {
    if users == [] then []
    else [Released(users[0].id, life, reason, if |users| == 1 then Primary else Secondary)]
         + Losses(life, users[1..], reason)
  }

  lemma UsersOne(shares: Shares, k: nat)
    requires k < |shares|
    ensures UsersFrom(shares, k) ==
            if shares[k].Some? then [shares[k].value] + UsersFrom(shares, k + 1) else UsersFrom(shares, k + 1)
  {
  }

  lemma {:induction false} UsersSet(shares: Shares, k: nat, now: Option<Share>, j: nat)
    requires k < j && k < |shares|
    ensures UsersFrom(shares[k := now], j) == UsersFrom(shares, j)
    decreases |shares| - j
  {
    if j < |shares| { UsersSet(shares, k, now, j + 1); }
  }

  lemma TellingsOne(life: nat, share: Share, users: seq<Share>, result: ConnectResult, level: Level)
    ensures Tellings(life, [share] + users, result, level) ==
            [Informed(share.id, life, result, level)] + Tellings(life, users, result, Secondary)
  {
    assert ([share] + users)[1..] == users;
  }

  /** One user is told, then the others, whatever becomes of the share of the first. */
  lemma UserTold(life: nat, shares: Shares, k: nat, now: Option<Share>, result: ConnectResult, level: Level)
    requires k < |shares| && shares[k].Some?
    ensures Tellings(life, UsersFrom(shares, k), result, level) ==
            [Informed(shares[k].value.id, life, result, level)]
            + Tellings(life, UsersFrom(shares[k := now], k + 1), result, Secondary)
  {
    UsersOne(shares, k);
    UsersSet(shares, k, now, k + 1);
    TellingsOne(life, shares[k].value, UsersFrom(shares, k + 1), result, level);
  }

  lemma NobodyTold(s: Slot, result: ConnectResult, k: nat, level: Level)
    requires k < |s.shares| && s.shares[k].None?
    ensures OnConnect(s, result, k, level) == OnConnect(s, result, k + 1, level)
    ensures UsersFrom(s.shares, k) == UsersFrom(s.shares, k + 1)
  {
    UsersOne(s.shares, k);
  }

  /** The user of a share learns of the connection, and the share stays. */
  lemma SuccessStep(s: Slot, k: nat, level: Level) returns (t: Slot)
    requires k < |s.shares| && s.shares[k].Some?
    ensures t == s.(shares := s.shares[k := Some(Settled(s.shares[k].value, Connected))])
    ensures OnConnect(s, Connected, k, level).events ==
            [Informed(s.shares[k].value.id, s.life, Connected, level)]
            + OnConnect(t, Connected, k + 1, Secondary).events
  {
    t := s.(shares := s.shares[k := Some(Settled(s.shares[k].value, Connected))]);
    var e, rest := Informed(s.shares[k].value.id, s.life, Connected, level), OnConnect(t, Connected, k + 1, Secondary);
    assert [e] + [] + rest.events == [e] + rest.events;
  }

  lemma {:induction false} ConnectTells(s: Slot, k: nat, level: Level)
    requires k <= |s.shares|
    ensures OnConnect(s, Connected, k, level).events == Tellings(s.life, UsersFrom(s.shares, k), Connected, level)
    decreases |s.shares| - k
  {
    if k == |s.shares| {
    } else if s.shares[k].None? {
      ConnectTells(s, k + 1, level);
      NobodyTold(s, Connected, k, level);
    } else {
      var t := SuccessStep(s, k, level);
      ConnectTells(t, k + 1, Secondary);
      UserTold(s.life, s.shares, k, Some(Settled(s.shares[k].value, Connected)), Connected, level);
    }
  }

  /** The user of a share learns of the failure, and the share is gone. */
  lemma FailureStep(s: Slot, result: ConnectResult, k: nat, level: Level) returns (t: Slot)
    requires k < |s.shares| && s.shares[k].Some? && Distinct(s.shares) && AllFrom(s.shares, k, true)
    requires result != Connected && s.shareCount == Size(s.shares)
    ensures t.life == s.life && t.shares == s.shares[k := None] && t.shareCount == Size(t.shares)
    ensures Distinct(t.shares) && AllFrom(t.shares, k + 1, true)
    ensures OnConnect(s, result, k, level).events ==
            [Informed(s.shares[k].value.id, s.life, result, level)] + OnConnect(t, result, k + 1, Secondary).events
  {
    var r := ReleaseShare(s.(shares := s.shares[k := Some(Settled(s.shares[k].value, result))]), k, Requested);
    FailOne(s, k, result, level);
    FailStep(s, result, k, level, r);
    t := r.slot;
  }

  lemma {:induction false} FailTells(s: Slot, result: ConnectResult, k: nat, level: Level)
    requires k <= |s.shares| && Distinct(s.shares) && AllFrom(s.shares, k, true) && result != Connected
    requires s.shareCount == Size(s.shares)
    ensures OnConnect(s, result, k, level).events == Tellings(s.life, UsersFrom(s.shares, k), result, level)
    decreases |s.shares| - k
  {
    if k == |s.shares| {
    } else if s.shares[k].None? {
      FailTells(s, result, k + 1, level);
      NobodyTold(s, result, k, level);
    } else {
      var t := FailureStep(s, result, k, level);
      FailTells(t, result, k + 1, Secondary);
      UserTold(s.life, s.shares, k, None, result, level);
    }
  }

  lemma {:induction false} UsersLeft(shares: Shares, k: nat)
    requires k <= |shares|
    ensures |UsersFrom(shares, k)| == Size(shares) - Size(shares[..k])
    decreases |shares| - k
  {
    if k == |shares| {
      assert shares[..k] == shares;
    } else {
      UsersLeft(shares, k + 1);
      assert shares[..k + 1][..k] == shares[..k];
    }
  }

  /** The last user is the one whose going leaves no share. */
  lemma LastUser(s: Slot, k: nat)
    requires k < |s.shares| && s.shares[k].Some? && s.shareCount == Size(s.shares) && Empty(s.shares, 0, k)
    ensures s.shareCount == 1 + |UsersFrom(s.shares, k + 1)|
  {
    SizeZero(s.shares[..k]);
    assert s.shares[..k + 1][..k] == s.shares[..k];
    UsersLeft(s.shares, k + 1);
  }

  lemma LossesOne(life: nat, share: Share, users: seq<Share>, reason: Reason)
    ensures Losses(life, [share] + users, reason) ==
            [Released(share.id, life, reason, if users == [] then Primary else Secondary)] + Losses(life, users, reason)
  {
    assert ([share] + users)[1..] == users;
  }

  /** One user loses the connection, then the others. */
  lemma UserLoses(life: nat, shares: Shares, k: nat, reason: Reason)
    requires k < |shares| && shares[k].Some?
    ensures Losses(life, UsersFrom(shares, k), reason) ==
            [Released(shares[k].value.id, life, reason, if UsersFrom(shares, k + 1) == [] then Primary else Secondary)]
            + Losses(life, UsersFrom(shares[k := None], k + 1), reason)
  {
    UsersOne(shares, k);
    UsersSet(shares, k, None, k + 1);
    LossesOne(life, shares[k].value, UsersFrom(shares, k + 1), reason);
  }

  /** The user of a share learns of the loss, and the share is gone. */
  lemma LossStep(s: Slot, reason: Reason, k: nat) returns (t: Slot)
    requires k < |s.shares| && s.shares[k].Some? && Distinct(s.shares) && AllFrom(s.shares, k, false)
    requires s.shareCount == Size(s.shares) && Empty(s.shares, 0, k)
    ensures t.life == s.life && t.shares == s.shares[k := None] && t.shareCount == Size(t.shares)
    ensures Distinct(t.shares) && AllFrom(t.shares, k + 1, false) && Empty(t.shares, 0, k + 1)
    ensures var last := UsersFrom(s.shares, k + 1) == [];
            OnDisconnect(s, reason, k).events ==
            [Released(s.shares[k].value.id, s.life, reason, if last then Primary else Secondary)]
            + OnDisconnect(t, reason, k + 1).events
  {
    ReleaseShape(s, k, reason, false);
    LastUser(s, k);
    t := ReleaseShare(s, k, reason).slot;
  }

  lemma {:induction false} LoseTells(s: Slot, reason: Reason, k: nat)
    requires k <= |s.shares| && Distinct(s.shares) && AllFrom(s.shares, k, false)
    requires s.shareCount == Size(s.shares) && Empty(s.shares, 0, k)
    ensures OnDisconnect(s, reason, k).events == Losses(s.life, UsersFrom(s.shares, k), reason)
    decreases |s.shares| - k
  {
    if k == |s.shares| {
    } else if s.shares[k].None? {
      LoseSkip(s, reason, k);
      LoseTells(s, reason, k + 1);
      UsersOne(s.shares, k);
    } else {
      var t := LossStep(s, reason, k);
      LoseTells(t, reason, k + 1);
      UserLoses(s.life, s.shares, k, reason);
    }
  }

  /** What a slot makes of a callback of its client: a connection and a failure are told to every user, with
      the result of the client, a loss with its reason; after a failure or a loss nobody is left. */
  lemma CallbackTold(s: Slot, e: Event)
    requires Distinct(s.shares) && s.shareCount == Size(s.shares)
    requires (e.Told? && AllAre(s.shares, true)) || (e.Lost? && AllAre(s.shares, false))
    ensures var o, users := Handle(s, e), UsersFrom(s.shares, 0);
            && o.events == (if e.Told? then Tellings(s.life, users, e.result, Primary)
                            else Losses(s.life, users, e.reason))
            && (if e.Told? && e.result == Connected then
                  AllAre(o.slot.shares, false) && Size(o.slot.shares) == Size(s.shares)
                else Size(o.slot.shares) == 0 && (s.shareCount > 0 ==> o.slot.deletePending))
  {
    if e.Lost? {
      LoseTells(s, e.reason, 0);
      LoseAll(s, e.reason, 0);
    } else if e.result == Connected {
      ConnectTells(s, 0, Primary);
      ConnectAll(s, 0, Primary);
    } else {
      FailTells(s, e.result, 0, Primary);
      FailAll(s, e.result, 0, Primary);
    }
  }

  // ---- tick ----

  predicate Sound(slot: Option<Slot>) { slot.Some? ==> Ok(slot.value.client) }

  /** What a slot becomes in a tick, and what its users are told: it is gone if it waited for its deletion,
      otherwise its client has ticked. */
  function Turn(slot: Option<Slot>, e: TickEnv): (Option<Slot>, seq<PoolEvent>)
    requires Sound(slot)
  {
    if slot.None? || slot.value.deletePending then (None, [])
    else (Some(TickedSlot(slot.value, e).slot), TickedSlot(slot.value, e).events)
  }

  ghost predicate AllSound(p: Pool) { forall i :: 0 <= i < |p.slots| ==> Sound(p.slots[i]) }

  /** What is told in a tick by the slots below n. */
  ghost function TurnsTell(p: Pool, envs: nat -> TickEnv, n: nat): seq<PoolEvent>
    requires AllSound(p) && n <= |p.slots|
  {
    if n == 0 then [] else TurnsTell(p, envs, n - 1) + Turn(p.slots[n - 1], envs(n - 1)).1
  }

  lemma OneTurn(p: Pool, i: nat, e: TickEnv, q: Pool)
    requires i < |p.slots| && Sound(p.slots[i]) && q == TickOne(p, i, e)
    ensures q == p.(slots := p.slots[i := Turn(p.slots[i], e).0], log := p.log + Turn(p.slots[i], e).1)
  {
    assert p.log + [] == p.log;
    if p.slots[i].None? { assert p.slots == p.slots[i := None]; }
  }

  /** Slot i has had its turn, if it is below n. */
  ghost predicate TurnedAt(p: Pool, envs: nat -> TickEnv, n: nat, slots: seq<Option<Slot>>, i: nat)
    requires i < |p.slots| == |slots| && Sound(p.slots[i])
  {
    slots[i] == if i < n then Turn(p.slots[i], envs(i)).0 else p.slots[i]
  }

  ghost predicate Turned(p: Pool, envs: nat -> TickEnv, n: nat, slots: seq<Option<Slot>>)
    requires AllSound(p)
  {
    |slots| == |p.slots| && forall i :: 0 <= i < |p.slots| ==> TurnedAt(p, envs, n, slots, i)
  }

  lemma TurnedNext(p: Pool, envs: nat -> TickEnv, n: nat, m: nat, slots: seq<Option<Slot>>, later: seq<Option<Slot>>)
    requires AllSound(p) && n < |p.slots| && m == n + 1 && Turned(p, envs, n, slots)
    requires later == slots[n := Turn(p.slots[n], envs(n)).0]
    ensures Turned(p, envs, m, later)
  {
    forall i | 0 <= i < |p.slots| ensures TurnedAt(p, envs, m, later, i) {
      assert TurnedAt(p, envs, n, slots, i);
    }
  }

  lemma ShapedSound(p: Pool)
    requires Shaped(p)
    ensures AllSound(p)
  {
    forall i | 0 <= i < |p.slots| ensures Sound(p.slots[i]) {
      assert p.slots[i] in p.slots;
    }
  }

  lemma TurnTaken(p: Pool, envs: nat -> TickEnv, n: nat, m: nat, q: Pool, r: Pool)
    requires AllSound(p) && n < |p.slots| && m == n + 1 && Turned(p, envs, n, q.slots) && Sound(q.slots[n])
    requires q == p.(slots := q.slots, log := p.log + TurnsTell(p, envs, n)) && r == TickOne(q, n, envs(n))
    ensures Turned(p, envs, m, r.slots) && r == p.(slots := r.slots, log := p.log + TurnsTell(p, envs, m))
  {
    assert TurnedAt(p, envs, n, q.slots, n);
    OneTurn(q, n, envs(n), r);
    TurnedNext(p, envs, n, m, q.slots, r.slots);
    TellsNext(p, envs, n, m, Turn(p.slots[n], envs(n)).1);
  }

  lemma TellsNext(p: Pool, envs: nat -> TickEnv, n: nat, m: nat, events: seq<PoolEvent>)
    requires AllSound(p) && n < |p.slots| && m == n + 1 && events == Turn(p.slots[n], envs(n)).1
    ensures p.log + TurnsTell(p, envs, n) + events == p.log + TurnsTell(p, envs, m)
  {
    assert TurnsTell(p, envs, m) == TurnsTell(p, envs, n) + events;
  }

  lemma TickStep(p: Pool, envs: nat -> TickEnv, n: nat, q: Pool) returns (r: Pool)
    requires Shaped(p) && AllSound(p) && 0 < n <= |p.slots| && q == TickTo(p, envs, n - 1)
    ensures |q.slots| == |p.slots| && q.slots[n - 1] == p.slots[n - 1]
    ensures r == TickOne(q, n - 1, envs(n - 1)) && r == TickTo(p, envs, n)
  {
    r := TickOne(q, n - 1, envs(n - 1));
  }

  /** The slots below n have had their turns, and their users have been told. */
  ghost predicate Ticked(p: Pool, envs: nat -> TickEnv, n: nat, r: Pool)
    requires AllSound(p) && n <= |p.slots|
  {
    Turned(p, envs, n, r.slots) && r == p.(slots := r.slots, log := p.log + TurnsTell(p, envs, n))
  }

  lemma NoneTicked(p: Pool, envs: nat -> TickEnv)
    requires AllSound(p)
    ensures Ticked(p, envs, 0, p)
  {
    var n := 0;
    assert p.log + [] == p.log;
    assert forall i :: 0 <= i < |p.slots| ==> TurnedAt(p, envs, n, p.slots, i);
  }

  lemma OneTicked(p: Pool, envs: nat -> TickEnv, n: nat, q: Pool, r: Pool)
    requires AllSound(p) && 0 < n <= |p.slots| && Ticked(p, envs, n - 1, q) && q.slots[n - 1] == p.slots[n - 1]
    requires r == TickOne(q, n - 1, envs(n - 1))
    ensures Ticked(p, envs, n, r)
  {
    TurnTaken(p, envs, n - 1, n, q, r);
  }

  /** In a tick every slot has its turn, in order. */
  lemma {:induction false} TicksEach(p: Pool, envs: nat -> TickEnv, n: nat) returns (r: Pool)
    requires Shaped(p) && n <= |p.slots|
    ensures r == TickTo(p, envs, n)
    ensures AllSound(p) && Ticked(p, envs, n, r)
    decreases n
  {
    ShapedSound(p);
    if n == 0 {
      NoneTicked(p, envs);
      r := p;
    } else {
      var q := TicksEach(p, envs, n - 1);
      r := TickStep(p, envs, n, q);
      OneTicked(p, envs, n, q, r);
    }
  }
}
