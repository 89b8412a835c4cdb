/** What holds over whole runs of the pool. */
module PoolRuns {
  import opened Bytes
  import opened TcpRules
  import opened PoolRules
  import opened PoolSlots
  import opened PoolSteps

  // ---- The invariant ----

  predicate SameEndpoint(a: Slot, b: Slot) { a.client.host == b.client.host && a.client.port == b.client.port }

  /** Slots are as they have to be, and no two live ones share host and port. */
  ghost predicate Structured(slots: seq<Option<Slot>>) {
    && |slots| == MAX_SLOTS
    && (forall i :: 0 <= i < |slots| && slots[i].Some? ==> SlotOk(slots[i].value))
    && (forall i, j :: 0 <= i < j < |slots| && Live(slots[i]) && Live(slots[j]) ==>
          !SameEndpoint(slots[i].value, slots[j].value))
  }

  predicate HeldIn(slot: Option<Slot>, id: nat) { slot.Some? && Held(slot.value.shares, id) }

  /** No ID is held twice, or before it is given out. */
  ghost predicate Owned(slots: seq<Option<Slot>>, tickets: nat) {
    && (forall i, id: nat :: 0 <= i < |slots| && HeldIn(slots[i], id) ==> id < tickets)
    && (forall i, j, id: nat :: 0 <= i < j < |slots| && HeldIn(slots[i], id) ==> !HeldIn(slots[j], id))
  }

  /** What the pool owes to a call of `acquire`. */
  function Owed(slots: seq<Option<Slot>>, tickets: nat, id: nat): ShareLife {
    if id >= tickets then Silent
    else if Holder(slots, id) < |slots| then View(slots[Holder(slots, id)].value.shares, id)
    else Done
  }

  ghost predicate Booked(p: Pool) { forall id :: ShareAll(Silent, id, p.log) == Owed(p.slots, p.tickets, id) }

  predicate Lives(slot: Option<Slot>, life: nat) { slot.Some? && slot.value.life == life }

  ghost predicate Numbered(slots: seq<Option<Slot>>, lives: nat) {
    && (forall i :: 0 <= i < |slots| && slots[i].Some? ==> slots[i].value.life < lives)
    && (forall i, j :: 0 <= i < j < |slots| && slots[i].Some? && slots[j].Some? ==>
          slots[i].value.life != slots[j].value.life)
  }

  /** The callbacks of one life of a slot fit the slot, or are finished. */
  ghost predicate Levelled(slots: seq<Option<Slot>>, lives: nat, life: nat, g: SlotLife) {
    && (life >= lives ==> g == Quiet) && (g == Quiet || g == Active || g == Finished)
    && (forall i :: 0 <= i < |slots| && Lives(slots[i], life) ==> Fits(g, slots[i].value))
    && (g == Active ==> exists i :: 0 <= i < |slots| && Lives(slots[i], life))
  }

  ghost predicate AllLevelled(p: Pool) { forall life :: Levelled(p.slots, p.lives, life, LevelAll(Quiet, life, p.log)) }

  ghost predicate Inv(p: Pool) {
    match p
    case Pool(slots, tickets, lives, _) =>
      Structured(slots) && Owned(slots, tickets) && Numbered(slots, lives) && Booked(p) && AllLevelled(p)
  }

  // ---- Small facts ----

  lemma {:induction false} Untouched(l: ShareLife, id: nat, events: seq<PoolEvent>)
    requires ShareAll(Done, id, events) == Done
    ensures ShareAll(l, id, events) == l
  {
    if events == [] {
    } else {
      StaysDone(id, events[..|events| - 1]);
      Untouched(l, id, events[..|events| - 1]);
    }
  }

  lemma {:induction false} StaysDone(id: nat, events: seq<PoolEvent>)
    ensures ShareAll(Done, id, events) in {Done, Confused}
  {
    if events == [] {
    } else {
      StaysDone(id, events[..|events| - 1]);
    }
  }

  lemma {:induction false} OtherLife(g: SlotLife, life: nat, events: seq<PoolEvent>)
    requires forall e <- events :: !e.Denied? && e.life != life
    ensures LevelAll(g, life, events) == g
  {
    if events == [] {
    } else {
      assert events[|events| - 1] in events;
      OtherLife(g, life, events[..|events| - 1]);
    }
  }

  lemma HolderIs(slots: seq<Option<Slot>>, tickets: nat, id: nat, i: nat)
    requires Owned(slots, tickets) && i < |slots| && HeldIn(slots[i], id)
    ensures Holder(slots, id) == i
  {
    var h := Holder(slots, id);
    assert h <= i;
    if h < i { assert HeldIn(slots[h], id); }
  }

  lemma NobodyHolds(slots: seq<Option<Slot>>, id: nat)
    requires forall i :: 0 <= i < |slots| ==> !HeldIn(slots[i], id)
    ensures Holder(slots, id) == |slots|
  {
    forall i | 0 <= i < |slots| && slots[i].Some? ensures !Held(slots[i].value.shares, id) {
      assert !HeldIn(slots[i], id);
    }
  }

  // ---- A step of one slot ----

  lemma PutStructured(p: Pool, i: nat, o: Out)
    requires Structured(p.slots) && i < |p.slots| && p.slots[i].Some? && SlotStep(p.slots[i].value, o.events, o.slot)
    ensures Structured(Put(p, i, o).slots)
  {
  }

  lemma PutOwned(p: Pool, i: nat, o: Out)
    requires Owned(p.slots, p.tickets) && i < |p.slots| && p.slots[i].Some?
    requires Moves(p.slots[i].value, o.events, o.slot)
    ensures Owned(Put(p, i, o).slots, p.tickets)
  {
    var q := Put(p, i, o);
    forall j, id: nat | 0 <= j < |q.slots| && HeldIn(q.slots[j], id) ensures HeldIn(p.slots[j], id) {
      assert j == i ==> MovesId(p.slots[i].value, o.events, o.slot, id);
    }
  }

  lemma PutBooked(p: Pool, i: nat, o: Out)
    requires Owned(p.slots, p.tickets) && Booked(p) && i < |p.slots| && p.slots[i].Some?
    requires Moves(p.slots[i].value, o.events, o.slot)
    ensures Booked(Put(p, i, o))
  {
    var s, t, q := p.slots[i].value, o.slot, Put(p, i, o);
    PutOwned(p, i, o);
    forall id ensures ShareAll(Silent, id, q.log) == Owed(q.slots, q.tickets, id) {
      ShareConcat(Silent, id, p.log, o.events);
      assert MovesId(s, o.events, t, id);
      if Held(s.shares, id) {
        HeldBooked(p, i, o, id);
      } else {
        Untouched(ShareAll(Silent, id, p.log), id, o.events);
        NotHeldBooked(p, i, t, id);
      }
    }
  }

  lemma HeldBooked(p: Pool, i: nat, o: Out, id: nat)
    requires Owned(p.slots, p.tickets) && i < |p.slots| && p.slots[i].Some? && Held(p.slots[i].value.shares, id)
    requires Moves(p.slots[i].value, o.events, o.slot)
    ensures Owed(p.slots, p.tickets, id) == View(p.slots[i].value.shares, id)
    ensures Owed(Put(p, i, o).slots, p.tickets, id) == View(o.slot.shares, id)
  {
    var q := Put(p, i, o);
    PutOwned(p, i, o);
    assert HeldIn(p.slots[i], id);
    HolderIs(p.slots, p.tickets, id, i);
    if Held(o.slot.shares, id) {
      assert HeldIn(q.slots[i], id);
      HolderIs(q.slots, p.tickets, id, i);
    } else {
      forall j | 0 <= j < |q.slots| ensures !HeldIn(q.slots[j], id) {
        if j != i { assert q.slots[j] == p.slots[j]; }
      }
      NobodyHolds(q.slots, id);
    }
  }

  /** A slot that does not hold the ID may change into another one that does not. */
  lemma NotHeldBooked(p: Pool, i: nat, t: Slot, id: nat)
    requires Owned(p.slots, p.tickets) && i < |p.slots| && !HeldIn(p.slots[i], id) && !Held(t.shares, id)
    ensures Owed(p.slots[i := Some(t)], p.tickets, id) == Owed(p.slots, p.tickets, id)
    ensures Owed(p.slots[i := None], p.tickets, id) == Owed(p.slots, p.tickets, id)
  {
    SameHolder(p.slots, p.slots[i := Some(t)], i, id);
    SameHolder(p.slots, p.slots[i := None], i, id);
  }

  lemma SameHolder(a: seq<Option<Slot>>, b: seq<Option<Slot>>, i: nat, id: nat)
    requires |a| == |b| && i < |a| && b == a[i := b[i]] && !HeldIn(a[i], id) && !HeldIn(b[i], id)
    ensures Holder(a, id) == Holder(b, id) && Holder(a, id) != i
  {
    var h, k := Holder(a, id), Holder(b, id);
    if h < |a| { assert HeldIn(a[h], id) && HeldIn(b[h], id); }
    if k < |b| { assert HeldIn(b[k], id) && HeldIn(a[k], id); }
  }

  lemma PutLevelled(p: Pool, i: nat, o: Out)
    requires Numbered(p.slots, p.lives) && AllLevelled(p) && i < |p.slots| && p.slots[i].Some?
    requires SlotStep(p.slots[i].value, o.events, o.slot)
    ensures Numbered(Put(p, i, o).slots, p.lives) && AllLevelled(Put(p, i, o))
  {
    var s, q := p.slots[i].value, Put(p, i, o);
    forall life ensures Levelled(q.slots, q.lives, life, LevelAll(Quiet, life, q.log)) {
      var g := LevelAll(Quiet, life, p.log);
      assert Levelled(p.slots, p.lives, life, g);
      LevelConcat(Quiet, life, p.log, o.events);
      if life == s.life {
        assert Lives(p.slots[i], life) && Lives(q.slots[i], life);
        assert Fits(LevelAll(g, life, o.events), o.slot);
      } else {
        OtherLife(g, life, o.events);
        assert forall j :: 0 <= j < |q.slots| ==> Lives(q.slots[j], life) == Lives(p.slots[j], life);
      }
    }
  }

  lemma PutKeeps(p: Pool, i: nat, o: Out)
    requires Inv(p) && i < |p.slots| && p.slots[i].Some? && SlotStep(p.slots[i].value, o.events, o.slot)
    ensures Inv(Put(p, i, o))
  {
    PutStructured(p, i, o);
    PutOwned(p, i, o);
    PutBooked(p, i, o);
    PutLevelled(p, i, o);
  }

  /** A slot without shares is deleted. */
  lemma RemoveKeeps(p: Pool, i: nat)
    requires Inv(p) && i < |p.slots| && p.slots[i].Some? && p.slots[i].value.deletePending
    ensures Inv(p.(slots := p.slots[i := None]))
  {
    RemoveBooked(p, i);
    RemoveLevelled(p, i);
  }

  lemma RemoveBooked(p: Pool, i: nat)
    requires Structured(p.slots) && Owned(p.slots, p.tickets) && Booked(p)
    requires i < |p.slots| && p.slots[i].Some? && p.slots[i].value.deletePending
    ensures Structured(p.slots[i := None]) && Owned(p.slots[i := None], p.tickets)
            && Booked(p.(slots := p.slots[i := None]))
  {
    var s, q := p.slots[i].value, p.(slots := p.slots[i := None]);
    NobodyHeld(p.slots, i);
    assert forall j, id: nat :: 0 <= j < |q.slots| && HeldIn(q.slots[j], id) ==> HeldIn(p.slots[j], id);
    forall id ensures ShareAll(Silent, id, q.log) == Owed(q.slots, q.tickets, id) {
      assert !HeldIn(p.slots[i], id);
      NotHeldBooked(p, i, s, id);
    }
  }

  lemma RemoveLevelled(p: Pool, i: nat)
    requires Numbered(p.slots, p.lives) && AllLevelled(p)
    requires i < |p.slots| && p.slots[i].Some? && p.slots[i].value.deletePending
    ensures Numbered(p.slots[i := None], p.lives) && AllLevelled(p.(slots := p.slots[i := None]))
  {
    var q := p.(slots := p.slots[i := None]);
    forall life ensures Levelled(q.slots, q.lives, life, LevelAll(Quiet, life, q.log)) {
      var g := LevelAll(Quiet, life, p.log);
      assert Levelled(p.slots, p.lives, life, g);
      if g == Active {
        var j :| 0 <= j < |p.slots| && Lives(p.slots[j], life);
        assert Lives(q.slots[j], life);
      }
    }
  }

  // ---- Acquiring ----

  lemma DenyKeeps(p: Pool, result: ConnectResult)
    requires Inv(p)
    ensures Inv(Deny(p, result))
  {
    var q, e := Deny(p, result), Denied(p.tickets, result);
    assert (p.log + [e])[..|p.log|] == p.log;
    forall id ensures ShareAll(Silent, id, q.log) == Owed(q.slots, q.tickets, id) {
      if id == p.tickets { NobodyHolds(p.slots, id); }
    }
    forall life ensures Levelled(q.slots, q.lives, life, LevelAll(Quiet, life, q.log)) {
      assert Levelled(p.slots, p.lives, life, LevelAll(Quiet, life, p.log));
    }
  }

  /** A new share at a free place. */
  lemma ViewAdd(shares: Shares, k: nat, share: Share)
    requires Distinct(shares) && k < |shares| && shares[k].None? && !Held(shares, share.id)
    ensures var t := shares[k := Some(share)];
            && Distinct(t) && Held(t, share.id) && View(t, share.id) == LifeOfShare(Some(share))
            && Size(t) == Size(shares) + 1
            && (forall id :: id != share.id ==> Held(t, id) == Held(shares, id) && View(t, id) == View(shares, id))
  {
    var t := shares[k := Some(share)];
    SizeSet(shares, k, Some(share));
    assert t[k] == Some(share);
    forall id | id != share.id ensures Held(t, id) == Held(shares, id) && View(t, id) == View(shares, id) {
      var i, j := Find(shares, id), Find(t, id);
      if i < |shares| { assert t[i] == shares[i]; }
      if j < |t| { assert shares[j] == t[j]; }
      assert i == j;
    }
  }

  /** A slot gets a share with the next ID, and its new callbacks concern that ID alone. */
  ghost predicate Adds(s: Slot, id: nat, events: seq<PoolEvent>, t: Slot) {
    && Held(t.shares, id) && !Held(s.shares, id) && ShareAll(Silent, id, events) == View(t.shares, id)
    && (forall x :: x != id ==> Held(t.shares, x) == Held(s.shares, x) && View(t.shares, x) == View(s.shares, x))
    && (forall e <- events :: e.id == id)
  }

  lemma {:induction false} OtherId(l: ShareLife, id: nat, events: seq<PoolEvent>)
    requires forall e <- events :: e.id != id
    ensures ShareAll(l, id, events) == l
  {
    if events == [] {
    } else {
      assert events[|events| - 1] in events;
      OtherId(l, id, events[..|events| - 1]);
    }
  }

  /** The books after a slot got the next ID; `s` is the slot before, or an empty one. */
  lemma AddBooked(p: Pool, i: nat, s: Slot, events: seq<PoolEvent>, t: Slot)
    requires Owned(p.slots, p.tickets) && Booked(p) && i < |p.slots| && Adds(s, p.tickets, events, t)
    requires forall id :: HeldIn(p.slots[i], id) == Held(s.shares, id)
    requires p.slots[i].Some? ==> forall id :: Held(s.shares, id) ==>
             View(s.shares, id) == View(p.slots[i].value.shares, id)
    ensures var q := p.(slots := p.slots[i := Some(t)], tickets := p.tickets + 1, log := p.log + events);
            Owned(q.slots, q.tickets) && Booked(q)
  {
    var q := p.(slots := p.slots[i := Some(t)], tickets := p.tickets + 1, log := p.log + events);
    forall j, id: nat | 0 <= j < |q.slots|
        && HeldIn(q.slots[j], id) ensures (id == p.tickets && j == i) || HeldIn(p.slots[j], id) {
      if j != i { assert q.slots[j] == p.slots[j]; }
    }
    assert Owned(q.slots, q.tickets);
    forall id ensures ShareAll(Silent, id, q.log) == Owed(q.slots, q.tickets, id) {
      ShareConcat(Silent, id, p.log, events);
      if id == p.tickets {
        assert HeldIn(q.slots[i], id);
        HolderIs(q.slots, q.tickets, id, i);
      } else {
        OtherId(Owed(p.slots, p.tickets, id), id, events);
        if Held(s.shares, id) {
          assert HeldIn(p.slots[i], id) && HeldIn(q.slots[i], id);
          HolderIs(p.slots, p.tickets, id, i);
          HolderIs(q.slots, q.tickets, id, i);
        } else {
          SameHolder(p.slots, q.slots, i, id);
        }
      }
    }
  }

  /** What joining a slot makes of it. */
  lemma JoinSlot(s: Slot, id: nat, k: nat)
    requires SlotOk(s) && !s.deletePending && !Held(s.shares, id) && k < |s.shares| && s.shares[k].None?
    ensures var up := s.client.fd.Some?;
            var t := s.(shares := s.shares[k := Some(Share(id, !up, !up, up))], shareCount := s.shareCount + 1);
            var events := if up then [Informed(id, s.life, Connected, Secondary)] else [];
            && SlotOk(t) && Adds(s, id, events, t)
            && (forall g :: Fits(g, s) ==> LevelAll(g, s.life, events) == g && Fits(g, t))
  {
    var up := s.client.fd.Some?;
    var share := Share(id, !up, !up, up);
    var t := s.(shares := s.shares[k := Some(share)], shareCount := s.shareCount + 1);
    ViewAdd(s.shares, k, share);
    var e := Informed(id, s.life, Connected, Secondary);
    ShareOne(Silent, id, e);
    LevelOne(Active, s.life, e);
    assert AllAre(t.shares, s.client.fd.None?);
  }

  lemma JoinKeeps(p: Pool, i: nat)
    requires Inv(p) && i < |p.slots| && Live(p.slots[i])
    ensures Inv(Join(p, i))
  {
    var s := p.slots[i].value;
    var k := FreeShare(s.shares);
    if k == |s.shares| {
      DenyKeeps(p, NoFreePoolShare);
    } else {
      var up := s.client.fd.Some?;
      var t := s.(shares := s.shares[k := Some(Share(p.tickets, !up, !up, up))], shareCount := s.shareCount + 1);
      var events := if up then [Informed(p.tickets, s.life, Connected, Secondary)] else [];
      assert Held(s.shares, p.tickets) ==> HeldIn(p.slots[i], p.tickets);
      JoinSlot(s, p.tickets, k);
      AddBooked(p, i, s, events, t);
      JoinLevelled(p, i, events, t);
      var q := Join(p, i);
      assert q.slots == p.slots[i := Some(t)] && q.log == p.log + events;
      JoinStructured(p, i, t);
    }
  }

  lemma JoinStructured(p: Pool, i: nat, t: Slot)
    requires Structured(p.slots) && i < |p.slots| && Live(p.slots[i])
    requires SlotOk(t) && SameEndpoint(p.slots[i].value, t)
    ensures Structured(p.slots[i := Some(t)])
  {
  }

  lemma JoinLevelled(p: Pool, i: nat, events: seq<PoolEvent>, t: Slot)
    requires Numbered(p.slots, p.lives) && AllLevelled(p) && i < |p.slots| && p.slots[i].Some?
    requires t.life == p.slots[i].value.life && forall e <- events :: !e.Denied? && e.life == t.life
    requires forall g :: Fits(g, p.slots[i].value) ==> LevelAll(g, t.life, events) == g && Fits(g, t)
    ensures var q := p.(slots := p.slots[i := Some(t)], log := p.log + events);
            Numbered(q.slots, q.lives) && AllLevelled(q)
  {
    var q := p.(slots := p.slots[i := Some(t)], log := p.log + events);
    forall life ensures Levelled(q.slots, q.lives, life, LevelAll(Quiet, life, q.log)) {
      var g := LevelAll(Quiet, life, p.log);
      assert Levelled(p.slots, p.lives, life, g);
      LevelConcat(Quiet, life, p.log, events);
      assert forall j :: 0 <= j < |q.slots| ==> Lives(q.slots[j], life) == Lives(p.slots[j], life);
      if life == t.life {
        assert Lives(p.slots[i], life);
      } else {
        OtherLife(g, life, events);
      }
    }
  }

  /** What a new life starts with: no shares, and a client without a host. */
  lemma RevivedSlot(slot: Option<Slot>, life: nat)
    requires slot.Some? ==> SlotOk(slot.value) && slot.value.deletePending
    ensures var s := Revived(slot, life);
            && |s.shares| == MAX_SHARES && Distinct(s.shares) && s.shareCount == Size(s.shares) == 0
            && (forall k :: 0 <= k < |s.shares| ==> s.shares[k].None?) && (forall x :: !Held(s.shares, x))
            && s.life == life && !s.deletePending && Ok(s.client) && s.client.host.None? && s.client.log == []
  {
    var s := Revived(slot, life);
    EmptyShares();
    SizeZero(s.shares);
  }

  lemma ConnectLive(c: Conn, host: string, port: Word)
    requires Ok(c) && c.host.None? && c.log == [] && host != "" && port > 0
    ensures var t := Connect(c, false, ConnectArgs(true, Some(host), port, true), 0);
            && t.log == [Accepted(c.tickets)] && Ok(t.(log := [])) && t.host == Some(host) && t.port == port
                && t.fd.None?
  {
  }

  /** Opening a slot in terms of its client and its shares. */
  lemma OpenedIs(slot: Option<Slot>, life: nat, id: nat, host: string, port: Word) returns (c: Conn)
    requires (slot.Some? ==> SlotOk(slot.value) && slot.value.deletePending) && host != "" && port > 0
    ensures var s := Revived(slot, life);
            && |s.shares| > 0 && s.shareCount == 0
            && OpenedSlot(slot, life, id, host, port) ==
               Out(s.(shares := s.shares[0 := Some(Share(id, true, true, false))], shareCount := 1, client := c), [])
    ensures Ok(c) && c.host == Some(host) && c.port == port && c.fd.None? && c.log == []
  {
    var s := Revived(slot, life);
    RevivedSlot(slot, life);
    ConnectLive(s.client, host, port);
    var after := Connect(s.client, false, ConnectArgs(true, Some(host), port, true), 0);
    OpenAccepted(s.(shares := s.shares[0 := Some(Share(id, true, true, false))], shareCount := s.shareCount + 1),
                 after);
    c := after.(log := []);
    assert c.host == after.host && c.port == after.port && PhaseOf(c) == PhaseOf(after) == Fresh;
  }

  /** The slot that opening makes: one share, and the client with its host. */
  lemma OpenSlot(slot: Option<Slot>, life: nat, id: nat, host: string, port: Word)
    requires (slot.Some? ==> SlotOk(slot.value) && slot.value.deletePending) && host != "" && port > 0
    ensures var s, o := Revived(slot, life), OpenedSlot(slot, life, id, host, port);
            && o.events == [] && SlotOk(o.slot) && o.slot.life == life && !o.slot.deletePending
            && o.slot.client.host == Some(host) && o.slot.client.port == port && o.slot.client.fd.None?
            && (forall x :: !Held(s.shares, x)) && Adds(s, id, [], o.slot)
  {
    var s := Revived(slot, life);
    var c := OpenedIs(slot, life, id, host, port);
    RevivedSlot(slot, life);
    FirstShare(s, c, id);
  }

  lemma FirstShare(s: Slot, c: Conn, id: nat)
    requires |s.shares| == MAX_SHARES && Distinct(s.shares) && s.shareCount == Size(s.shares) == 0 && !s.deletePending
    requires (forall k :: 0 <= k < |s.shares| ==> s.shares[k].None?) && (forall x :: !Held(s.shares, x))
    requires Ok(c) && c.host.Some? && c.fd.None? && c.log == []
    ensures var t := s.(shares := s.shares[0 := Some(Share(id, true, true, false))], shareCount := 1, client := c);
            SlotOk(t) && Adds(s, id, [], t)
  {
    ViewAdd(s.shares, 0, Share(id, true, true, false));
    assert AllAre(s.shares[0 := Some(Share(id, true, true, false))], true);
  }

  lemma OpenAccepted(t: Slot, after: Conn)
    requires |after.log| == 1 && after.log[0].Accepted?
    ensures StepClient(t, after) == Out(t.(client := after.(log := [])), [])
  {
    assert after.log[..0] == [];
    assert HandleAll(t.(client := after.(log := [])), []) == Out(t.(client := after.(log := [])), []);
  }

  lemma EmptyShares()
    ensures |NO_SHARES| == MAX_SHARES && forall k :: 0 <= k < |NO_SHARES| ==> NO_SHARES[k].None?
  {
  }

  lemma OpenKeeps(p: Pool, i: nat, host: string, port: Word)
    requires Inv(p) && i < |p.slots| && !Live(p.slots[i]) && host != "" && port > 0
    requires forall j :: 0 <= j < |p.slots| ==> !Matches(p.slots[j], host, port)
    ensures Inv(Open(p, i, host, port))
  {
    var slot := p.slots[i];
    var s := Revived(slot, p.lives);
    var q := Open(p, i, host, port);
    OpenSlot(slot, p.lives, p.tickets, host, port);
    var t := q.slots[i].value;
    assert q == p.(slots := p.slots[i := Some(t)], tickets := p.tickets + 1, lives := p.lives + 1, log := p.log + []);
    NobodyHeld(p.slots, i);
    AddBooked(p, i, s, [], t);
    OpenStructured(p, i, t);
    OpenLevelled(p, i, t);
    assert p.log + [] == p.log;
  }

  lemma NobodyHeld(slots: seq<Option<Slot>>, i: nat)
    requires Structured(slots) && i < |slots| && !Live(slots[i])
    ensures forall id :: !HeldIn(slots[i], id)
  {
    if slots[i].Some? { SizeZero(slots[i].value.shares); }
  }

  lemma OpenStructured(p: Pool, i: nat, t: Slot)
    requires Structured(p.slots) && i < |p.slots| && !Live(p.slots[i]) && SlotOk(t) && t.client.host.Some?
    requires forall j :: 0 <= j < |p.slots| ==> !Matches(p.slots[j], t.client.host.value, t.client.port)
    ensures Structured(p.slots[i := Some(t)])
  {
  }

  lemma OpenLevelled(p: Pool, i: nat, t: Slot)
    requires Numbered(p.slots, p.lives) && AllLevelled(p) && i < |p.slots| && !Live(p.slots[i])
    requires t.life == p.lives && !t.deletePending && t.client.fd.None?
    ensures var q := p.(slots := p.slots[i := Some(t)], lives := p.lives + 1);
            Numbered(q.slots, q.lives) && AllLevelled(q)
  {
    var q := p.(slots := p.slots[i := Some(t)], lives := p.lives + 1);
    forall life ensures Levelled(q.slots, q.lives, life, LevelAll(Quiet, life, q.log)) {
      var g := LevelAll(Quiet, life, p.log);
      assert Levelled(p.slots, p.lives, life, g);
      if g == Active {
        var j :| 0 <= j < |p.slots| && Lives(p.slots[j], life);
        assert Lives(q.slots[j], life);
      }
    }
  }

  lemma InvShaped(p: Pool)
    requires Inv(p)
    ensures Shaped(p)
  {
    forall s <- p.slots | s.Some? ensures |s.value.shares| == MAX_SHARES && Ok(s.value.client) {
      var i :| 0 <= i < |p.slots| && p.slots[i] == s;
    }
  }

  lemma AcquireKeeps(p: Pool, guarded: bool, a: AcquireArgs)
    requires Inv(p) && Shaped(p)
    ensures Inv(Acquire(p, guarded, a))
  {
    if a.callback {
      if guarded {
        DenyKeeps(p, NonReentrant);
      } else if !Sensible(a) {
        DenyKeeps(p, InvalidArgument);
      } else {
        var i := MatchingSlot(p.slots, a.host.value, a.port);
        var j := FreeSlot(p.slots);
        if i < |p.slots| {
          JoinKeeps(p, i);
        } else if j == |p.slots| {
          DenyKeeps(p, NoFreePoolSlot);
        } else {
          OpenKeeps(p, j, a.host.value, a.port);
        }
      }
    }
  }

  // ---- The other operations ----

  lemma ReleaseKeeps(p: Pool, guarded: bool, id: nat, force: bool)
    requires Inv(p)
    ensures Inv(Release(p, guarded, id, force))
  {
    var i := Holder(p.slots, id);
    if !guarded && i < |p.slots| {
      var s := p.slots[i].value;
      ReleaseFromSteps(s, Find(s.shares, id), force);
      PutKeeps(p, i, ReleaseFrom(s, Find(s.shares, id), force));
    }
  }

  lemma TickOneKeeps(p: Pool, i: nat, e: TickEnv, q: Pool)
    requires Inv(p) && i < |p.slots| && (p.slots[i].Some? ==> Ok(p.slots[i].value.client)) && q == TickOne(p, i, e)
    ensures Inv(q)
  {
    if p.slots[i].Some? {
      var s := p.slots[i].value;
      if s.deletePending {
        RemoveKeeps(p, i);
      } else {
        TickSteps(s, e);
        PutKeeps(p, i, TickedSlot(s, e));
      }
    }
  }

  lemma {:induction false} TickToKeeps(p: Pool, envs: nat -> TickEnv, n: nat)
    requires Inv(p) && Shaped(p) && n <= |p.slots|
    ensures Inv(TickTo(p, envs, n))
  {
    if n == 0 {
    } else {
      TickToKeeps(p, envs, n - 1);
      var q, t := TickToOne(p, envs, n);
      TickOneKeeps(q, n - 1, envs(n - 1), t);
    }
  }

  lemma TickToOne(p: Pool, envs: nat -> TickEnv, n: nat) returns (q: Pool, t: Pool)
    requires Shaped(p) && 0 < n <= |p.slots|
    ensures q == TickTo(p, envs, n - 1) && t == TickTo(p, envs, n)
    ensures |q.slots| == |p.slots| && (q.slots[n - 1].Some? ==> Ok(q.slots[n - 1].value.client))
    ensures t == TickOne(q, n - 1, envs(n - 1))
  {
    assert p.slots[n - 1] in p.slots;
    q, t := TickTo(p, envs, n - 1), TickTo(p, envs, n);
  }

  lemma AnswerKeeps(p: Pool, i: nat, a: TcpRules.Answer)
    requires Inv(p) && Shaped(p)
    ensures Inv(PoolRules.Answer(p, i, a))
  {
    if i < |p.slots| && p.slots[i].Some? {
      var s := p.slots[i].value;
      AnswerSteps(s, a);
      PutKeeps(p, i, AnsweredSlot(s, a));
    }
  }

  // ---- Runs ----

  /** The calls that the outside makes; guarded ones come from callbacks. */
  datatype Op =
    | Acquiring(guarded: bool, args: AcquireArgs)
    | Releasing(guarded: bool, id: nat, force: bool)
    | Ticking(guarded: bool, envs: nat -> TickEnv)
    | Answering(slot: nat, answer: TcpRules.Answer)

  function Apply(p: Pool, op: Op): Pool
    requires Shaped(p)
  {
    match op
    case Acquiring(g, a) => Acquire(p, g, a)
    case Releasing(g, id, force) => Release(p, g, id, force)
    case Ticking(g, envs) => PoolRules.Tick(p, g, envs)
    case Answering(i, a) => PoolRules.Answer(p, i, a)
  }

  lemma ApplyKeeps(p: Pool, op: Op)
    requires Inv(p) && Shaped(p)
    ensures Inv(Apply(p, op)) && Shaped(Apply(p, op))
  {
    match op
    case Acquiring(g, a) => AcquireKeeps(p, g, a);
    case Releasing(g, id, force) => ReleaseKeeps(p, g, id, force);
    case Ticking(g, envs) => TickToKeeps(p, envs, |p.slots|);
    case Answering(i, a) => AnswerKeeps(p, i, a);
    InvShaped(Apply(p, op));
  }

  lemma EmptyInv()
    ensures Inv(EMPTY_POOL) && Shaped(EMPTY_POOL)
  {
    EmptySlots();
    UnusedInv(EMPTY_POOL);
    InvShaped(EMPTY_POOL);
  }

  lemma UnusedInv(p: Pool)
    requires |p.slots| == MAX_SLOTS && p.tickets == p.lives == 0 && p.log == []
    requires forall i :: 0 <= i < |p.slots| ==> p.slots[i].None?
    ensures Inv(p)
  {
    forall id ensures Holder(p.slots, id) == |p.slots| { NobodyHolds(p.slots, id); }
  }

  lemma EmptySlots()
    ensures |NO_SLOTS| == MAX_SLOTS && forall i :: 0 <= i < |NO_SLOTS| ==> NO_SLOTS[i].None?
  {
  }

  ghost function Exec(ops: seq<Op>): (p: Pool)
    ensures Inv(p) && Shaped(p)
  {
    if ops == [] then EmptyInv(); EMPTY_POOL
    else
      ApplyKeeps(Exec(ops[..|ops| - 1]), ops[|ops| - 1]);
      Apply(Exec(ops[..|ops| - 1]), ops[|ops| - 1])
  }

  // ---- What a run keeps ----

  /** In every reachable state: a slot is live exactly while it has shares, exactly while it is not
      marked for deletion, and exactly while its client has a host; its count is the number of its
      shares; they wait for their connect callback until the client is connected and hold their
      disconnect callback from then on; and no two live slots are for the same host and port. */
  lemma PoolStructure(ops: seq<Op>, i: nat, j: nat)
    requires i < j < MAX_SLOTS
    ensures var slots := Exec(ops).slots;
            && |slots| == MAX_SLOTS
            && (slots[i].Some? ==>
                  var s := slots[i].value;
                  && s.shareCount == Size(s.shares)
                  && (!s.deletePending <==> s.shareCount > 0) && (!s.deletePending <==> s.client.host.Some?)
                  && (forall k :: 0 <= k < |s.shares| && s.shares[k].Some? ==>
                        && (s.shares[k].value.disconnectCallback <==> s.client.fd.Some?)
                        && (s.shares[k].value.connectCallback <==> s.client.fd.None?)))
            && (Live(slots[i]) && Live(slots[j]) ==>
                  slots[i].value.client.host != slots[j].value.client.host
                  || slots[i].value.client.port != slots[j].value.client.port)
  {
  }

  /** A slot of this index is live and for this host and port, and full. */
  predicate Full(slots: seq<Option<Slot>>, i: nat, host: string, port: Word) {
    i < |slots| && Matches(slots[i], host, port)
    && forall k :: 0 <= k < |slots[i].value.shares| ==> slots[i].value.shares[k].Some?
  }

  /** The caller got a share of this slot, of a live slot that was for this host and port already,
      or, if there was none, of a slot that was not live, and that waited for its deletion if any
      slot did. */
  ghost predicate Granted(p: Pool, q: Pool, i: nat, host: string, port: Word) {
    && i < |p.slots| == |q.slots| && Matches(q.slots[i], host, port)
    && HeldIn(q.slots[i], p.tickets) && q.tickets == p.tickets + 1
    && (forall j :: 0 <= j < |p.slots| && j != i ==> q.slots[j] == p.slots[j])
    && if Live(p.slots[i]) then Matches(p.slots[i], host, port)
       else
         && (forall j :: 0 <= j < |p.slots| ==> !Matches(p.slots[j], host, port))
         && (p.slots[i].None? ==> forall j :: 0 <= j < |p.slots| ==> p.slots[j].None? || Live(p.slots[j]))
  }

  /** What `acquire` does with valid arguments: the pool has no free slot exactly if all slots are
      live and none is for this host and port, and no free share exactly if the slot for them is
      full; otherwise the caller gets a share. */
  lemma AcquireOutcome(ops: seq<Op>, a: AcquireArgs)
    requires a.callback && Sensible(a)
    ensures var p := Exec(ops);
            var q := Acquire(p, false, a);
            if (forall i :: 0 <= i < MAX_SLOTS ==> Live(p.slots[i]) && !Matches(p.slots[i], a.host.value, a.port))
            then q == Deny(p, NoFreePoolSlot)
            else if exists i :: Full(p.slots, i, a.host.value, a.port) then q == Deny(p, NoFreePoolShare)
            else exists i :: Granted(p, q, i, a.host.value, a.port)
  {
    var p := Exec(ops);
    var host, port := a.host.value, a.port;
    var i, j := MatchingSlot(p.slots, host, port), FreeSlot(p.slots);
    if i < |p.slots| {
      JoinOutcome(p, i, host, port);
    } else if j < |p.slots| {
      OpenOutcome(p, j, host, port);
    }
  }

  lemma JoinOutcome(p: Pool, i: nat, host: string, port: Word)
    requires Inv(p) && i < |p.slots| && Matches(p.slots[i], host, port)
    ensures if Full(p.slots, i, host, port) then Join(p, i) == Deny(p, NoFreePoolShare)
            else Granted(p, Join(p, i), i, host, port) && forall j :: !Full(p.slots, j, host, port)
  {
    var s := p.slots[i].value;
    var k := FreeShare(s.shares);
    if k < |s.shares| {
      var up := s.client.fd.Some?;
      assert !HeldIn(p.slots[i], p.tickets);
      ViewAdd(s.shares, k, Share(p.tickets, !up, !up, up));
    }
  }

  lemma OpenOutcome(p: Pool, i: nat, host: string, port: Word)
    requires Inv(p) && i < |p.slots| && i == FreeSlot(p.slots) && host != "" && port > 0
    requires forall j :: 0 <= j < |p.slots| ==> !Matches(p.slots[j], host, port)
    ensures Granted(p, Open(p, i, host, port), i, host, port)
  {
    var t := OpenResult(p, i, host, port);
  }

  lemma OpenResult(p: Pool, i: nat, host: string, port: Word) returns (t: Slot)
    requires Inv(p) && i < |p.slots| && !Live(p.slots[i]) && host != "" && port > 0
    ensures Open(p, i, host, port).slots == p.slots[i := Some(t)] && Open(p, i, host, port).tickets == p.tickets + 1
    ensures !t.deletePending && t.client.host == Some(host) && t.client.port == port && Held(t.shares, p.tickets)
  {
    OpenSlot(p.slots[i], p.lives, p.tickets, host, port);
    t := OpenedSlot(p.slots[i], p.lives, p.tickets, host, port).slot;
  }

  /** Over every run, each call of `acquire` gets its connect callback exactly once, and its
      disconnect callback exactly once if that told Connected and never otherwise.  A share that is
      held still waits for the former while the slot's client is not connected, and has had it but
      not the latter while it is; a share that is not held any more has had all of its callbacks. */
  lemma ShareCallbacksExactlyOnce(ops: seq<Op>, id: nat)
    ensures var p := Exec(ops);
            var h := Holder(p.slots, id);
            ShareAll(Silent, id, p.log) ==
              if id >= p.tickets then Silent
              else if h == MAX_SLOTS then Done
              else if p.slots[h].value.client.fd.Some? then Served
              else Silent
  {
    var p := Exec(ops);
    var h := Holder(p.slots, id);
    if id < p.tickets && h < MAX_SLOTS {
      var s := p.slots[h].value;
      assert s.shares[Find(s.shares, id)].Some?;
    }
  }

  /** How many shares of a life of a slot were told to be the primary one, when they connected and
      when they disconnected, and how many were told that they are connected at all. */
  function PrimaryConnects(log: seq<PoolEvent>, life: nat): nat {
    if log == [] then 0
    else
      var e := log[|log| - 1];
      PrimaryConnects(log[..|log| - 1], life)
      + if e.Informed? && e.life == life && e.result == Connected && e.level == Primary then 1 else 0
  }

  function Connects(log: seq<PoolEvent>, life: nat): nat {
    if log == [] then 0
    else
      var e := log[|log| - 1];
      Connects(log[..|log| - 1], life) + if e.Informed? && e.life == life && e.result == Connected then 1 else 0
  }

  function PrimaryDisconnects(log: seq<PoolEvent>, life: nat): nat {
    if log == [] then 0
    else
      var e := log[|log| - 1];
      PrimaryDisconnects(log[..|log| - 1], life) + if e.Released? && e.life == life && e.level == Primary then 1 else 0
  }

  lemma {:induction false} LevelsCount(log: seq<PoolEvent>, life: nat)
    requires LevelAll(Quiet, life, log) != Broke
    ensures var g := LevelAll(Quiet, life, log);
            && PrimaryConnects(log, life) == (if g == Quiet then 0 else 1)
            && PrimaryDisconnects(log, life) == (if g == Finished then 1 else 0)
            && (Connects(log, life) > 0 <==> g != Quiet)
  {
    if log == [] {
    } else {
      LevelsCount(log[..|log| - 1], life);
    }
  }

  /** Over every run and for each life of a slot: as long as nobody was told Connected there is no
      primary share; else exactly one connect callback was told to be the primary one, and exactly
      one disconnect callback was or will be: none yet while the slot lives connected, and one once
      it does not. */
  lemma PrimaryExactlyOnce(ops: seq<Op>, life: nat)
    ensures var p := Exec(ops);
            var connected :=
              exists i :: 0 <= i < MAX_SLOTS && Lives(p.slots[i], life) && p.slots[i].value.client.fd.Some?;
            && PrimaryConnects(p.log, life) == (if Connects(p.log, life) > 0 then 1 else 0)
            && PrimaryConnects(p.log, life) == PrimaryDisconnects(p.log, life) + (if connected then 1 else 0)
            && LevelAll(Quiet, life, p.log) != Broke
  {
    var p := Exec(ops);
    var g := LevelAll(Quiet, life, p.log);
    assert Levelled(p.slots, p.lives, life, g);
    LevelsCount(p.log, life);
    if g == Active {
      var i :| 0 <= i < |p.slots| && Lives(p.slots[i], life);
      assert Fits(g, p.slots[i].value);
    } else {
      forall i | 0 <= i < MAX_SLOTS && Lives(p.slots[i], life) ensures p.slots[i].value.client.fd.None? {
        assert Fits(g, p.slots[i].value) && SlotOk(p.slots[i].value);
      }
    }
  }

  /** Over every run, the disconnect callback of the primary share is the last callback of its slot's
      life. */
  lemma PrimaryDisconnectIsLast(ops: seq<Op>, life: nat, k: nat, j: nat)
    requires k < j < |Exec(ops).log|
    requires var e := Exec(ops).log[k]; e.Released? && e.life == life && e.level == Primary
    ensures var f := Exec(ops).log[j]; f.Denied? || f.life != life
  {
    PrimaryExactlyOnce(ops, life);
    NothingBehindPrimary(Exec(ops).log, life, k, j);
  }

  lemma {:induction false} NothingBehindPrimary(log: seq<PoolEvent>, life: nat, k: nat, j: nat)
    requires LevelAll(Quiet, life, log) != Broke && k < j < |log|
    requires log[k].Released? && log[k].life == life && log[k].level == Primary
    ensures log[j].Denied? || log[j].life != life
  {
    var n := |log| - 1;
    var rest := log[..n];
    StaysBroke(rest, life, log[n]);
    if j < n {
      NothingBehindPrimary(rest, life, k, j);
    } else {
      FinishedAfter(rest, life, k);
    }
  }

  lemma StaysBroke(rest: seq<PoolEvent>, life: nat, e: PoolEvent)
    ensures LevelAll(Quiet, life, rest) == Broke ==> LevelStep(LevelAll(Quiet, life, rest), life, e) == Broke
  {
  }

  lemma {:induction false} FinishedAfter(log: seq<PoolEvent>, life: nat, k: nat)
    requires LevelAll(Quiet, life, log) != Broke && k < |log|
    requires log[k].Released? && log[k].life == life && log[k].level == Primary
    ensures LevelAll(Quiet, life, log) == Finished
  {
    var n := |log| - 1;
    StaysBroke(log[..n], life, log[n]);
    if k < n { FinishedAfter(log[..n], life, k); }
  }
}
