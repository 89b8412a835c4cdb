/** What acquiring a share does to the pool and tells its user. */
module PoolAcquire {
  import opened Bytes
  import opened TcpRules
  import opened PoolRules
  import opened PoolSlots
  import opened PoolSteps
  import opened PoolRuns

  /** The call is refused: its user is told why, and nothing else happens. */
  ghost predicate Denies(p: Pool, q: Pool, why: ConnectResult) {
    q == p.(tickets := p.tickets + 1, log := p.log + [Denied(p.tickets, why)])
  }

  /** The share of a user who is told at once that the connection is up, or has to wait for it. */
  function Newcomer(id: nat, up: bool): Share {
    if up then Share(id, false, false, true) else Share(id, true, true, false)
  }

  /** The user gets the first free share of slot i.  If the connection is up, that is told at once, and
      only the loss of the connection is left to be told; otherwise nothing is told yet. */
  ghost predicate Joins(p: Pool, q: Pool, i: nat)
    requires i < |p.slots| && p.slots[i].Some?
  {
    var s := p.slots[i].value;
    var up := s.client.fd.Some?;
    && (exists k :: TakesShare(s, k, Newcomer(p.tickets, up), p, q, i))
    && q.log == p.log + if up then [Informed(p.tickets, s.life, Connected, Secondary)] else []
  }

  ghost predicate TakesShare(s: Slot, k: nat, share: Share, p: Pool, q: Pool, i: nat)
    requires i < |p.slots|
  {
    && k < |s.shares| && s.shares[k].None? && (forall j :: 0 <= j < k ==> s.shares[j].Some?)
    && q.slots == p.slots[i := Some(s.(shares := s.shares[k := Some(share)], shareCount := s.shareCount + 1))]
    && q.tickets == p.tickets + 1 && q.lives == p.lives
  }

  /** Slot i starts a new life: its client tries to connect, and the user has its only share.  It is the
      first of the slots that wait for their deletion, or, if there is none, the first unused one. */
  ghost predicate Opens(p: Pool, q: Pool, i: nat, host: string, port: Word)
    requires i < |p.slots|
  {
    && (forall j :: 0 <= j < i && p.slots[i].Some? ==> p.slots[j].None? || Live(p.slots[j]))
    && (forall j :: 0 <= j < |p.slots| && p.slots[i].None? ==> Live(p.slots[j]) || (p.slots[j].None? && i <= j))
    && (exists t :: Begins(t, p.lives, p.tickets, host, port) && q.slots == p.slots[i := Some(t)])
    && q.tickets == p.tickets + 1 && q.lives == p.lives + 1 && q.log == p.log
  }

  ghost predicate Begins(t: Slot, life: nat, id: nat, host: string, port: Word) {
    && t.life == life && !t.deletePending && t.shareCount == 1 && |t.shares| == MAX_SHARES
    && t.shares[0] == Some(Share(id, true, true, false)) && (forall k :: 0 < k < |t.shares| ==> t.shares[k].None?)
    && t.client.host == Some(host) && t.client.port == port && t.client.fd.None?
  }

  lemma SlotBegins(slot: Option<Slot>, life: nat, id: nat, host: string, port: Word)
    requires slot.None? || (SlotOk(slot.value) && slot.value.deletePending)
    requires host != "" && port > 0
    ensures var o := OpenedSlot(slot, life, id, host, port);
            o.events == [] && Begins(o.slot, life, id, host, port)
  {
    var s := Revived(slot, life);
    OpenSlot(slot, life, id, host, port);
    RevivedSlot(slot, life);
    var c := OpenedIs(slot, life, id, host, port);
  }

  /** What a call of `acquire` does. */
  ghost predicate AcquireFate(p: Pool, guarded: bool, a: AcquireArgs, q: Pool) {
    if !a.callback then q == p
    else if guarded then Denies(p, q, NonReentrant)
    else if a.host.None? || a.host.value == "" || a.port == 0 || a.pointerSet || !a.disconnectCallback then
      Denies(p, q, InvalidArgument)
    else if forall i :: 0 <= i < |p.slots| ==> !Matches(p.slots[i], a.host.value, a.port) then
      if forall i :: 0 <= i < |p.slots| ==> Live(p.slots[i]) then Denies(p, q, NoFreePoolSlot)
      else exists i :: 0 <= i < |p.slots| && Opens(p, q, i, a.host.value, a.port)
    else
      exists i :: 0 <= i < |p.slots| && Matches(p.slots[i], a.host.value, a.port) &&
        if Full(p.slots, i, a.host.value, a.port) then Denies(p, q, NoFreePoolShare) else Joins(p, q, i)
  }

  lemma JoinExactly(p: Pool, i: nat, host: string, port: Word)
    requires Inv(p) && i < |p.slots| && Matches(p.slots[i], host, port)
    ensures if Full(p.slots, i, host, port) then Denies(p, Join(p, i), NoFreePoolShare) else Joins(p, Join(p, i), i)
  {
    var s := p.slots[i].value;
    var k, up := FreeShare(s.shares), s.client.fd.Some?;
    if k < |s.shares| {
      assert TakesShare(s, k, Newcomer(p.tickets, up), p, Join(p, i), i);
    }
  }

  lemma OpenExactly(p: Pool, i: nat, host: string, port: Word)
    requires Inv(p) && i < |p.slots| && i == FreeSlot(p.slots) && host != "" && port > 0
    ensures Opens(p, Open(p, i, host, port), i, host, port)
  {
    SlotBegins(p.slots[i], p.lives, p.tickets, host, port);
    var o := OpenedSlot(p.slots[i], p.lives, p.tickets, host, port);
    assert Begins(o.slot, p.lives, p.tickets, host, port);
    assert p.log + [] == p.log;
  }

  /** Every call of `acquire` of every run. */
  lemma AcquireExactly(ops: seq<Op>, guarded: bool, a: AcquireArgs)
    ensures AcquireFate(Exec(ops), guarded, a, PoolRuns.Apply(Exec(ops), Acquiring(guarded, a)))
  {
    var p := Exec(ops);
    if a.callback && !guarded && Sensible(a) {
      var host, port := a.host.value, a.port;
      var i, j := MatchingSlot(p.slots, host, port), FreeSlot(p.slots);
      if i < |p.slots| {
        JoinExactly(p, i, host, port);
      } else if j < |p.slots| {
        OpenExactly(p, j, host, port);
      }
    }
  }
}
