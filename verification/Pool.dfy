/** The pool object: an array of slots, each with its client and its array of shares, updated in
    place as the rules say. */
module Pool {
  import opened Bytes
  import opened TcpRules
  import opened TcpClient
  import opened PoolRules
  import opened PoolSteps
  import opened PoolRuns

  /** One share's turn of a loop over the shares, behind the events of those in front. */
  lemma TurnJoined(all: Out, events: seq<PoolEvent>, rest: Out, more: seq<PoolEvent>, next: Out)
    requires all == Out(rest.slot, events + rest.events) && rest == Out(next.slot, more + next.events)
    ensures all == Out(next.slot, (events + more) + next.events)
  {
    assert events + (more + next.events) == (events + more) + next.events;
  }

  class SharedSlot {
    const client: Client
    const shares: array<Option<Share>>
    var deletePending: bool
    var shareCount: int
    ghost var life: nat

    ghost function State(): Slot
      reads this, client, shares
    {
      Slot(life, deletePending, client.State(), shares[..], shareCount)
    }

    /** A slot that no method is working on. */
    ghost predicate Valid()
      reads this, client, shares
    {
      client.Valid() && !client.nonReentrant && SlotOk(State())
    }

    constructor (ghost life: nat)
      ensures State() == Slot(life, false, NEW, NO_SHARES, 0) && client.Valid() && !client.nonReentrant
      ensures fresh(client) && fresh(shares)
    {
      client := new Client();
      shares := new Option<Share>[MAX_SHARES](_ => None);
      deletePending, shareCount, this.life := false, 0, life;
      new;
      assert shares[..] == NO_SHARES;
    }

    /** The private release, up to the mark for deletion.  The level is told to the callback, of which
        the events keep the record. */
    method ReleaseShare(k: nat, reason: Reason) returns (ghost events: seq<PoolEvent>)
      requires k < shares.Length
      modifies this`deletePending, this`shareCount, shares
      ensures Out(State(), events) == PoolRules.ReleaseShare(old(State()), k, reason)
    {
      if shares[k].None? {
        return [];
      }
      var share := shares[k].value;
      shares[k] := None;
      shareCount := shareCount - 1;
      var level := if shareCount == 0 then Primary else Secondary;
      events := (if share.connectCallback then [Informed(share.id, life, AbortRequested, level)] else [])
                + if share.disconnectCallback then [Released(share.id, life, reason, level)] else [];
      if shareCount == 0 {
        deletePending := true;
      }
    }

    /** The connect callback that the pool gives to the client. */
    method OnConnect(result: ConnectResult) returns (ghost events: seq<PoolEvent>)
      modifies this`deletePending, this`shareCount, shares
      ensures Out(State(), events) == PoolRules.OnConnect(old(State()), result, 0, Primary)
    {
      var level := Primary;
      ghost var all := PoolRules.OnConnect(State(), result, 0, Primary);
      ghost var rest := all;
      events := [];
      for k := 0 to shares.Length
        invariant rest == PoolRules.OnConnect(State(), result, k, level) && all == Out(rest.slot, events + rest.events)
      {
        if shares[k].Some? {
          ghost var more := ConnectShare(k, result, level);
          ghost var next := PoolRules.OnConnect(State(), result, k + 1, Secondary);
          TurnJoined(all, events, rest, more, next);
          events, level, rest := events + more, Secondary, next;
        }
      }
      assert events + [] == events;
    }

    /** One share's turn. */
    method ConnectShare(k: nat, result: ConnectResult, level: Level) returns (ghost events: seq<PoolEvent>)
      requires k < shares.Length && shares[k].Some?
      modifies this`deletePending, this`shareCount, shares
      ensures var rest := PoolRules.OnConnect(State(), result, k + 1, Secondary);
              PoolRules.OnConnect(old(State()), result, k, level) == Out(rest.slot, events + rest.events)
    {
      var share := shares[k].value;
      events := [Informed(share.id, life, result, level)];
      shares[k] := Some(Settled(share, result));
      if result != Connected {
        ghost var more := ReleaseShare(k, Requested);
        events := events + more;
      } else {
        assert events + [] == events;
      }
    }

    /** The disconnect callback that the pool gives to the client. */
    method OnDisconnect(reason: Reason) returns (ghost events: seq<PoolEvent>)
      modifies this`deletePending, this`shareCount, shares
      ensures Out(State(), events) == PoolRules.OnDisconnect(old(State()), reason, 0)
    {
      ghost var all := PoolRules.OnDisconnect(State(), reason, 0);
      ghost var rest := all;
      events := [];
      for k := 0 to shares.Length
        invariant rest == PoolRules.OnDisconnect(State(), reason, k) && all == Out(rest.slot, events + rest.events)
      {
        ghost var more := DisconnectShare(k, reason);
        ghost var next := PoolRules.OnDisconnect(State(), reason, k + 1);
        TurnJoined(all, events, rest, more, next);
        events, rest := events + more, next;
      }
      assert events + [] == events;
    }

    method DisconnectShare(k: nat, reason: Reason) returns (ghost events: seq<PoolEvent>)
      requires k < shares.Length
      modifies this`deletePending, this`shareCount, shares
      ensures var next := PoolRules.OnDisconnect(State(), reason, k + 1);
              PoolRules.OnDisconnect(old(State()), reason, k) == Out(next.slot, events + next.events)
    {
      events := ReleaseShare(k, reason);
    }

    method Handle(e: Event) returns (ghost events: seq<PoolEvent>)
      modifies this`deletePending, this`shareCount, shares
      ensures Out(State(), events) == PoolRules.Handle(old(State()), e)
    {
      match e {
        case Refused(_, result) => events := OnConnect(result);
        case Told(_, result) => events := OnConnect(result);
        case Lost(_, reason) => events := OnDisconnect(reason);
        case _ => events := [];
      }
    }

    method HandleAll(log: seq<Event>) returns (ghost events: seq<PoolEvent>)
      modifies this`deletePending, this`shareCount, shares
      ensures Out(State(), events) == PoolRules.HandleAll(old(State()), log)
    {
      ghost var s := State();
      events := [];
      for i := 0 to |log|
        invariant Out(State(), events) == PoolRules.HandleAll(s, log[..i])
      {
        assert log[..i + 1][..i] == log[..i];
        ghost var more := Handle(log[i]);
        events := events + more;
      }
      assert log[..|log|] == log;
    }

    /** Handles the callbacks that the client has made in its last step. */
    method HandleCallbacks() returns (ghost events: seq<PoolEvent>)
      requires client.Valid()
      modifies this`deletePending, this`shareCount, shares, client`log
      ensures Out(State(), events) == StepClient(old(State()), old(client.State()))
      ensures client.Valid() && client.nonReentrant == old(client.nonReentrant)
    {
      var log := client.log;
      client.Forget();
      label forgotten:
      events := HandleAll(log);
      assert client.State() == old@forgotten(client.State());
    }

    /** A tick of the client of a live slot. */
    method Tick(e: TickEnv) returns (ghost events: seq<PoolEvent>)
      requires Valid()
      modifies this`deletePending, this`shareCount, shares, client
      ensures Valid()
      ensures Out(State(), events) == TickedSlot(old(State()), e)
    {
      TickSteps(State(), e);
      client.Tick(Undisturbed(e));
      events := HandleCallbacks();
    }

    /** An answer of the resolver for the client. */
    method Answer(a: TcpRules.Answer) returns (ghost events: seq<PoolEvent>)
      requires Valid()
      modifies this`deletePending, this`shareCount, shares, client
      ensures Valid()
      ensures Out(State(), events) == AnsweredSlot(old(State()), a)
    {
      AnswerSteps(State(), a);
      client.ReceiveAnswer(a, 0);
      events := HandleCallbacks();
    }

    /** The private release that disconnects the client of an abandoned slot. */
    method ReleaseAndDisconnect(k: nat, reason: Reason) returns (ghost events: seq<PoolEvent>)
      requires Valid() && k < shares.Length
      modifies this`deletePending, this`shareCount, shares, client
      ensures Valid()
      ensures Out(State(), events) == PoolRules.ReleaseAndDisconnect(old(State()), k, reason)
    {
      ReleaseSteps(State(), k, reason);
      if shares[k].None? {
        return [];
      }
      events := ReleaseShare(k, reason);
      if shareCount == 0 {
        var _ := client.Disconnect(0, 0);
        ghost var more := HandleCallbacks();
        events := events + more;
      }
    }

    /** The forced release of all shares except one. */
    method ReleaseOthers(k: nat) returns (ghost events: seq<PoolEvent>)
      requires Valid()
      modifies this`deletePending, this`shareCount, shares, client
      ensures Valid() && Out(State(), events) == PoolRules.ReleaseOthers(old(State()), k, shares.Length)
    {
      events := [];
      for n := 0 to shares.Length
        invariant Valid() && Out(State(), events) == PoolRules.ReleaseOthers(old(State()), k, n)
      {
        if n != k {
          ghost var more := ReleaseAndDisconnect(n, Forced);
          events := events + more;
        }
      }
    }

    method Release(k: nat, force: bool) returns (ghost events: seq<PoolEvent>)
      requires Valid() && k < shares.Length
      modifies this`deletePending, this`shareCount, shares, client
      ensures Valid()
      ensures Out(State(), events) == ReleaseFrom(old(State()), k, force)
    {
      ReleaseFromSteps(State(), k, force);
      events := ReleaseAndDisconnect(k, Requested);
      if force {
        ghost var more := ReleaseOthers(k);
        events := events + more;
      }
    }

    /** The first free place for a share, or the number of places. */
    method FreePlace() returns (k: nat)
      ensures k == FreeShare(shares[..])
    {
      k := 0;
      while k < shares.Length && shares[k].Some?
        invariant k <= shares.Length && forall j :: 0 <= j < k ==> shares[j].Some?
      {
        k := k + 1;
      }
      ghost var free := FreeShare(shares[..]);
      assert free < shares.Length ==> shares[..][free] == shares[free];
      assert k < shares.Length ==> shares[..][k] == shares[k];
    }

    /** Gives a free place of a live slot to the caller. */
    method Join(k: nat, id: nat) returns (ghost events: seq<PoolEvent>)
      requires Valid() && !deletePending && !Held(shares[..], id) && k < shares.Length && shares[k].None?
      modifies this`shareCount, shares
      ensures Valid()
      ensures var s := old(State());
              var up := s.client.fd.Some?;
              && State() == s.(shares := s.shares[k := Some(Share(id, !up, !up, up))], shareCount := s.shareCount + 1)
              && events == if up then [Informed(id, life, Connected, Secondary)] else []
    {
      JoinSlot(State(), id, k);
      var up := client.socketFd.Some?;
      shares[k] := Some(Share(id, !up, !up, up));
      shareCount := shareCount + 1;
      events := if up then [Informed(id, life, Connected, Secondary)] else [];
    }

    /** Starts a life of the slot: its first share, and the host to connect to. */
    method Open(id: nat, host: string, port: Word, ghost life: nat)
      requires client.Valid() && !client.nonReentrant && shares.Length == MAX_SHARES && host != "" && port > 0
      requires deletePending ==> SlotOk(State())
      requires !deletePending ==> State() == Slot(this.life, false, NEW, NO_SHARES, 0)
      modifies this, shares, client
      ensures Valid()
      ensures var s := old(State()).(life := life, deletePending := false);
              var t := s.(shares := s.shares[0 := Some(Share(id, true, true, false))], shareCount := s.shareCount + 1);
              Out(State(), []) == StepClient(t, Connect(t.client, false, ConnectArgs(true, Some(host), port, true), 0))
    {
      ghost var slot := if deletePending then Some(State()) else None;
      OpenSlot(slot, life, id, host, port);
      this.life := life;
      deletePending := false;
      shares[0] := Some(Share(id, true, true, false));
      shareCount := shareCount + 1;
      client.Connect(ConnectArgs(true, Some(host), port, true), 0);
      ghost var events := HandleCallbacks();
    }

    /** The place of a share, or the number of places. */
    method Find(id: nat) returns (k: nat)
      ensures k == PoolRules.Find(shares[..], id)
    {
      k := 0;
      while k < shares.Length && !(shares[k].Some? && shares[k].value.id == id)
        invariant k <= shares.Length
        invariant forall j :: 0 <= j < k && shares[j].Some? ==> shares[j].value.id != id
      {
        k := k + 1;
      }
      ghost var first := PoolRules.Find(shares[..], id);
      assert first < shares.Length ==> shares[..][first] == shares[first];
      assert k < shares.Length ==> shares[..][k] == shares[k];
    }
  }

  /** What the rules see of an entry of the array. */
  ghost function Seen(s: SharedSlot?): Option<Slot>
    reads s, if s == null then {} else {s.client, s.shares}
  {
    if s == null then None else Some(s.State())
  }

  /** An entry is in order, and the rules see it as this. */
  ghost predicate SlotAs(s: SharedSlot?, v: Option<Slot>)
    reads s, if s == null then {} else {s.client, s.shares}
  {
    Seen(s) == v && (s != null ==> s.Valid())
  }

  ghost predicate Apart(a: SharedSlot?, b: SharedSlot?) {
    a != null && b != null ==> a != b && a.client != b.client && a.shares != b.shares
  }

  class ClientPool {
    const slots: array<SharedSlot?>
    var nonReentrant: bool
    var tickets: nat

    /** The pool as the rules see it, and the objects that belong to it. */
    ghost var abs: PoolRules.Pool
    ghost var repr: set<object>

    /** Every slot has its own client and its own shares. */
    ghost predicate Closed()
      reads this`repr, slots
    {
      && this !in repr && slots !in repr && slots.Length == MAX_SLOTS
      && (forall i :: 0 <= i < slots.Length && slots[i] != null ==>
            slots[i] in repr && slots[i].client in repr && slots[i].shares in repr)
      && (forall i, j :: 0 <= i < j < slots.Length ==> Apart(slots[i], slots[j]))
    }

    /** The array and its objects are what the rules see as these slots. */
    ghost predicate SeenAs(p: seq<Option<Slot>>)
      reads this`repr, slots, repr
    {
      Closed() && |p| == MAX_SLOTS && forall i :: 0 <= i < slots.Length ==> SlotAs(slots[i], p[i])
    }

    /** All entries but one are what the rules see as these slots. */
    ghost predicate OthersSeenAs(p: seq<Option<Slot>>, i: nat)
      reads this`repr, slots, repr
    {
      Closed() && |p| == MAX_SLOTS && forall j :: 0 <= j < slots.Length && j != i ==> SlotAs(slots[j], p[j])
    }

    ghost predicate Shown()
      reads this`repr, this`abs, this`tickets, slots, repr
    {
      SeenAs(abs.slots) && tickets == abs.tickets
    }

    ghost predicate Valid()
      reads this`repr, this`abs, this`tickets, slots, repr
    {
      Shown() && Inv(abs)
    }

    constructor ()
      ensures Valid() && fresh(repr) && fresh(slots) && abs == EMPTY_POOL && !nonReentrant
    {
      slots := new SharedSlot?[MAX_SLOTS](_ => null);
      nonReentrant, tickets, abs, repr := false, 0, EMPTY_POOL, {};
      new;
      EmptyInv();
      EmptySlots();
    }

    // ---- release ----

    /** The slot and the place of a share. */
    method Locate(id: nat) returns (i: nat, k: nat)
      requires Shown()
      ensures i == Holder(abs.slots, id)
      ensures i < slots.Length ==> slots[i] != null && k == Find(slots[i].shares[..], id) < slots[i].shares.Length
    {
      i, k := 0, 0;
      while i < slots.Length
        invariant i <= slots.Length
        invariant forall j :: 0 <= j < i && abs.slots[j].Some? ==> !Held(abs.slots[j].value.shares, id)
      {
        assert SlotAs(slots[i], abs.slots[i]);
        if slots[i] != null {
          k := slots[i].Find(id);
          if k < slots[i].shares.Length { return; }
        }
        i := i + 1;
      }
    }

    /** The public release. */
    method Release(id: nat, force: bool) returns (result: DisconnectResult)
      requires Valid()
      modifies this`abs, this`nonReentrant, repr
      ensures Valid() && abs == PoolRules.Release(old(abs), nonReentrant, id, force)
      ensures nonReentrant == old(nonReentrant)
      ensures result == if nonReentrant then Reentrant
                        else if Holder(old(abs).slots, id) == MAX_SLOTS then NotConnected else Disconnected
    {
      ReleaseKeeps(abs, nonReentrant, id, force);
      result := TryRelease(id, force);
    }

    method TryRelease(id: nat, force: bool) returns (result: DisconnectResult)
      requires Shown()
      modifies this`abs, this`nonReentrant, repr
      ensures Shown() && abs == PoolRules.Release(old(abs), nonReentrant, id, force)
      ensures nonReentrant == old(nonReentrant)
      ensures result == if nonReentrant then Reentrant
                        else if Holder(old(abs).slots, id) == MAX_SLOTS then NotConnected else Disconnected
    {
      if nonReentrant {
        return Reentrant;
      }
      ghost var p := abs;
      nonReentrant := true;
      result := ReleaseGuarded(id, force);
      nonReentrant := false;
      assert PoolRules.Release(p, false, id, force) == ReleaseId(p, id, force);
    }

    method ReleaseGuarded(id: nat, force: bool) returns (result: DisconnectResult)
      requires Shown()
      modifies this`abs, repr
      ensures Shown() && abs == ReleaseId(old(abs), id, force)
      ensures result == if Holder(old(abs).slots, id) == MAX_SLOTS then NotConnected else Disconnected
    {
      var i, k := Locate(id);
      if i == slots.Length {
        return NotConnected;
      }
      assert SlotAs(slots[i], abs.slots[i]);
      ReleaseAt(i, k, force);
      result := Disconnected;
    }

    /** A slot has done this, and nothing else that belongs to the pool has changed. */
    ghost method Note(i: nat, o: Out)
      requires OthersSeenAs(abs.slots, i) && tickets == abs.tickets
      requires i < slots.Length && slots[i] != null && slots[i].Valid() && slots[i].State() == o.slot
      modifies this`abs
      ensures Shown() && abs == Put(old(abs), i, o)
    {
      abs := Put(abs, i, o);
      assert SlotAs(slots[i], abs.slots[i]);
    }

    method ReleaseAt(i: nat, k: nat, force: bool)
      requires Shown() && i < slots.Length && slots[i] != null && k < slots[i].shares.Length
      modifies this`abs, slots[i], slots[i].client, slots[i].shares
      ensures Shown() && abs == Put(old(abs), i, ReleaseFrom(old(slots[i].State()), k, force))
    {
      ghost var events := slots[i].Release(k, force);
      Note(i, Out(slots[i].State(), events));
    }

    // ---- tick ----

    method Tick(envs: nat -> TickEnv)
      requires Valid()
      modifies this`abs, this`nonReentrant, slots, repr
      ensures Shaped(old(abs)) && Valid() && abs == PoolRules.Tick(old(abs), nonReentrant, envs)
      ensures nonReentrant == old(nonReentrant)
    {
      InvShaped(abs);
      if nonReentrant {
        return;
      }
      TickToKeeps(abs, envs, MAX_SLOTS);
      nonReentrant := true;
      TickSlots(envs);
      nonReentrant := false;
    }

    method TickSlots(envs: nat -> TickEnv)
      requires Shown() && Shaped(abs)
      modifies this`abs, slots, repr
      ensures Shown() && abs == TickTo(old(abs), envs, MAX_SLOTS)
    {
      for i := 0 to slots.Length
        invariant Shown() && abs == TickTo(old(abs), envs, i)
      {
        assert SlotAs(slots[i], abs.slots[i]) && abs.slots[i] == old(abs).slots[i];
        TickSlot(i, envs(i));
      }
    }

    /** One slot's turn: it is deleted, or its client ticks. */
    method TickSlot(i: nat, e: TickEnv)
      requires Shown() && i < slots.Length && (abs.slots[i].Some? ==> Ok(abs.slots[i].value.client))
      modifies this`abs, slots, repr
      ensures Shown() && abs == TickOne(old(abs), i, e)
    {
      assert SlotAs(slots[i], abs.slots[i]);
      if slots[i] != null {
        if slots[i].deletePending {
          slots[i] := null;
          abs := abs.(slots := abs.slots[i := None]);
        } else {
          TickAt(i, e);
        }
      }
    }

    method TickAt(i: nat, e: TickEnv)
      requires Shown() && i < slots.Length && slots[i] != null
      modifies this`abs, slots[i], slots[i].client, slots[i].shares
      ensures Shown()
      ensures abs == Put(old(abs), i, TickedSlot(old(slots[i].State()), e))
    {
      ghost var events := slots[i].Tick(e);
      Note(i, Out(slots[i].State(), events));
    }

    /** An answer of the resolver that arrives for the client of a slot. */
    method Answer(i: nat, a: TcpRules.Answer)
      requires Valid() && i < slots.Length && slots[i] != null
      modifies this`abs, slots[i], slots[i].client, slots[i].shares
      ensures Shaped(old(abs)) && Valid() && abs == PoolRules.Answer(old(abs), i, a)
    {
      InvShaped(abs);
      PoolRuns.AnswerKeeps(abs, i, a);
      AnswerAt(i, a);
    }

    method AnswerAt(i: nat, a: TcpRules.Answer)
      requires Shown() && i < slots.Length && slots[i] != null && Shaped(abs)
      modifies this`abs, slots[i], slots[i].client, slots[i].shares
      ensures Shown() && abs == PoolRules.Answer(old(abs), i, a)
    {
      assert SlotAs(slots[i], abs.slots[i]);
      ghost var events := slots[i].Answer(a);
      Note(i, Out(slots[i].State(), events));
    }

    // ---- acquire ----

    /** A refused call. */
    method Deny(result: ConnectResult)
      requires Shown()
      modifies this`abs, this`tickets
      ensures Shown() && abs == PoolRules.Deny(old(abs), result)
    {
      abs := PoolRules.Deny(abs, result);
      tickets := tickets + 1;
    }

    /** The search of acquire: a live slot for this host and port ends it; otherwise it has found the
        first slot that waits for its deletion, or else the first unused one, or none. */
    method Search(host: string, port: Word) returns (matching: nat, free: nat)
      requires Shown()
      ensures matching == MatchingSlot(abs.slots, host, port)
      ensures matching == slots.Length ==> free == FreeSlot(abs.slots)
    {
      free := slots.Length;
      matching := 0;
      while matching < slots.Length
        invariant matching <= slots.Length && MatchingSlot(abs.slots[..matching], host, port) == matching
        invariant free == FoundIn(abs.slots, matching)
      {
        var slot := slots[matching];
        assert SlotAs(slot, abs.slots[matching]);
        SearchStep(abs.slots, matching, host, port);
        if slot == null {
          if free == slots.Length { free := matching; }
        } else if slot.deletePending {
          assert free < slots.Length ==> SlotAs(slots[free], abs.slots[free]);
          if free == slots.Length || slots[free] == null { free := matching; }
        } else if slot.client.host == Some(host) && slot.client.port == port {
          return;
        }
        matching := matching + 1;
      }
      assert abs.slots[..slots.Length] == abs.slots;
    }

    /** The public acquire. */
    method Acquire(a: AcquireArgs)
      requires Valid()
      modifies this`abs, this`repr, this`tickets, this`nonReentrant, slots, repr
      ensures Shaped(old(abs)) && Valid() && abs == PoolRules.Acquire(old(abs), nonReentrant, a)
      ensures nonReentrant == old(nonReentrant) && fresh(repr - old(repr))
    {
      InvShaped(abs);
      AcquireKeeps(abs, nonReentrant, a);
      if !a.callback {
        return;
      }
      if nonReentrant {
        Deny(NonReentrant);
        return;
      }
      nonReentrant := true;
      if a.host.None? || a.host.value == "" || a.port == 0 || a.pointerSet || !a.disconnectCallback {
        Deny(InvalidArgument);
      } else {
        AcquireShare(a.host.value, a.port);
      }
      nonReentrant := false;
    }

    method AcquireShare(host: string, port: Word)
      requires Shown() && Shaped(abs) && host != "" && port > 0
      requires forall i :: 0 <= i < slots.Length ==> !HeldIn(abs.slots[i], tickets)
      modifies this`abs, this`repr, this`tickets, slots, repr
      ensures Shown() && abs == AcquireFor(old(abs), host, port) && fresh(repr - old(repr))
    {
      var matching, free := Search(host, port);
      if matching < slots.Length {
        JoinAt(matching);
      } else if free == slots.Length {
        Deny(NoFreePoolSlot);
      } else {
        OpenAt(free, host, port);
      }
    }

    method JoinAt(i: nat)
      requires Shown() && i < slots.Length && Live(abs.slots[i]) && !HeldIn(abs.slots[i], tickets)
      modifies this`abs, this`tickets, slots, repr
      ensures Shown() && abs == Join(old(abs), i)
    {
      assert SlotAs(slots[i], abs.slots[i]);
      var k := slots[i].FreePlace();
      if k == slots[i].shares.Length {
        Deny(NoFreePoolShare);
      } else {
        JoinPlace(i, k);
      }
    }

    method JoinPlace(i: nat, k: nat)
      requires Shown() && i < slots.Length && Live(abs.slots[i]) && !HeldIn(abs.slots[i], tickets)
      requires slots[i] != null && k == FreeShare(slots[i].shares[..]) < slots[i].shares.Length
      modifies this`abs, this`tickets, slots[i], slots[i].shares
      ensures Shown() && abs == Join(old(abs), i)
    {
      assert SlotAs(slots[i], abs.slots[i]);
      ghost var events := slots[i].Join(k, tickets);
      Note(i, Out(slots[i].State(), events));
      TakeTicket();
    }

    method TakeTicket()
      requires Shown()
      modifies this`abs, this`tickets
      ensures Shown() && abs == old(abs).(tickets := old(abs).tickets + 1)
    {
      abs := abs.(tickets := abs.tickets + 1);
      tickets := tickets + 1;
    }

    /** Starts a life of a slot that is unused or waits for its deletion. */
    method OpenAt(i: nat, host: string, port: Word)
      requires Shown() && Shaped(abs) && i < slots.Length && !Live(abs.slots[i]) && host != "" && port > 0
      modifies this`abs, this`repr, this`tickets, slots, repr
      ensures Shown() && abs == Open(old(abs), i, host, port) && fresh(repr - old(repr))
    {
      assert SlotAs(slots[i], abs.slots[i]);
      if slots[i] == null {
        OpenUnused(i, host, port);
      } else {
        Revive(i, host, port);
      }
    }

    method OpenUnused(i: nat, host: string, port: Word)
      requires Shown() && Shaped(abs) && i < slots.Length && slots[i] == null && host != "" && port > 0
      requires abs.slots[i].None?
      modifies this`abs, this`repr, this`tickets, slots
      ensures Shown() && abs == Open(old(abs), i, host, port) && fresh(repr - old(repr))
    {
      var slot := new SharedSlot(abs.lives);
      slot.Open(tickets, host, port, abs.lives);
      Place(i, slot);
      Begin(i, host, port);
    }

    method Place(i: nat, slot: SharedSlot)
      requires SeenAs(abs.slots) && i < slots.Length && slots[i] == null && slot.Valid()
      requires {slot, slot.client, slot.shares} !! repr && slot.shares as object != slots
               && this !in {slot as object, slot.client, slot.shares}
      modifies this`repr, slots
      ensures OthersSeenAs(abs.slots, i) && slots[i] == slot && repr == old(repr) + {slot, slot.client, slot.shares}
    {
      slots[i] := slot;
      repr := repr + {slot, slot.client, slot.shares};
    }

    method Revive(i: nat, host: string, port: Word)
      requires Shown() && Shaped(abs) && i < slots.Length && slots[i] != null && slots[i].deletePending
      requires host != "" && port > 0
      modifies this`abs, this`tickets, slots[i], slots[i].client, slots[i].shares
      ensures Shown() && abs == Open(old(abs), i, host, port)
    {
      ReviveSlot(i, host, port);
      Begin(i, host, port);
    }

    method ReviveSlot(i: nat, host: string, port: Word)
      requires Shown() && Shaped(abs) && i < slots.Length && slots[i] != null && slots[i].deletePending
      requires host != "" && port > 0
      modifies slots[i], slots[i].client, slots[i].shares
      ensures OthersSeenAs(abs.slots, i) && slots[i].Valid()
      ensures Out(slots[i].State(), []) == OpenedSlot(abs.slots[i], abs.lives, tickets, host, port)
    {
      assert SlotAs(slots[i], abs.slots[i]);
      slots[i].Open(tickets, host, port, abs.lives);
    }

    /** A slot has begun a new life, and nothing else that belongs to the pool has changed. */
    method Begin(i: nat, ghost host: string, ghost port: Word)
      requires OthersSeenAs(abs.slots, i) && tickets == abs.tickets && Shaped(abs)
      requires i < slots.Length && slots[i] != null && slots[i].Valid()
      requires Out(slots[i].State(), []) == OpenedSlot(abs.slots[i], abs.lives, tickets, host, port)
      modifies this`abs, this`tickets
      ensures Shown() && abs == Open(old(abs), i, host, port)
    {
      ghost var p := abs;
      Note(i, Out(slots[i].State(), []));
      TakeTicket();
      abs := abs.(lives := p.lives + 1);
    }
  }

  /** What the search has found among the first n slots; the number of slots if nothing yet. */
  ghost function FoundIn(slots: seq<Option<Slot>>, n: nat): nat
    requires n <= |slots|
  {
    var i := FreeSlot(slots[..n]);
    if i < n then i else |slots|
  }

  lemma SearchStep(slots: seq<Option<Slot>>, n: nat, host: string, port: Word)
    requires n < |slots| && MatchingSlot(slots[..n], host, port) == n
    ensures !Matches(slots[n], host, port) ==> MatchingSlot(slots[..n + 1], host, port) == n + 1
    ensures Matches(slots[n], host, port) ==> MatchingSlot(slots, host, port) == n
    ensures FoundIn(slots, n + 1) ==
            if Live(slots[n]) then FoundIn(slots, n)
            else if FoundIn(slots, n) == |slots| || (slots[n].Some? && slots[FoundIn(slots, n)].None?) then n
            else FoundIn(slots, n)
  {
    assert slots[..n + 1][..n] == slots[..n];
    var i := MatchingSlot(slots, host, port);
    assert forall j :: 0 <= j < n ==> slots[..n][j] == slots[j];
  }
}
