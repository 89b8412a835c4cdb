/** The pool of shared TCP clients on values: slots with a client each, shares of a slot, and what
    acquiring, releasing and ticking do to them and tell the users of the shares. */
module PoolRules {
  import opened Bytes
  import opened TcpRules

  const MAX_SLOTS: nat := 16
  const MAX_SHARES: nat := 16

  datatype Level = Undefined | Primary | Secondary

  /** A share; its ID stands for the call of `acquire` that got it and for its shared client, the
      rest tells which callbacks it holds. */
  datatype Share = Share(id: nat, connectCallback: bool, pendingDisconnectCallback: bool, disconnectCallback: bool)

  type Shares = seq<Option<Share>>

  /** A slot; it starts a new life each time that it gets a host to connect to. */
  datatype Slot = Slot(life: nat, deletePending: bool, client: Conn, shares: Shares, shareCount: int)

  /** The callbacks of the users: of a refused call, of a share that gets its connect result, of a
      share that loses its connection. */
  datatype PoolEvent =
    | Denied(id: nat, result: ConnectResult)
    | Informed(id: nat, life: nat, result: ConnectResult, level: Level)
    | Released(id: nat, life: nat, reason: Reason, level: Level)

  datatype Pool = Pool(slots: seq<Option<Slot>>, tickets: nat, lives: nat, log: seq<PoolEvent>)

  const NO_SLOTS: seq<Option<Slot>> := [None, None, None, None, None, None, None, None, None, None, None, None, None,
                                        None, None, None]

  const EMPTY_POOL: Pool := Pool(NO_SLOTS, 0, 0, [])

  /** A slot after a step, and the callbacks of the step. */
  datatype Out = Out(slot: Slot, events: seq<PoolEvent>)

  // ---- Inside of a slot ----

  /** The private release, up to the mark for deletion. */
  function ReleaseShare(s: Slot, k: nat, reason: Reason): Out
    requires k < |s.shares|
  {
    match s.shares[k]
    case None => Out(s, [])
    case Some(share) =>
      var t := s.(shares := s.shares[k := None], shareCount := s.shareCount - 1);
      var level := if t.shareCount == 0 then Primary else Secondary;
      Out(if t.shareCount == 0 then t.(deletePending := true) else t,
          (if share.connectCallback then [Informed(share.id, s.life, AbortRequested, level)] else [])
          + if share.disconnectCallback then [Released(share.id, s.life, reason, level)] else [])
  }

  /** A share after its connect callback has run. */
  function Settled(share: Share, result: ConnectResult): Share {
    Share(share.id, false, false, if result == Connected then share.pendingDisconnectCallback
          else share.disconnectCallback)
  }

  /** The connect callback of the slot's client, for the shares from k on. */
  function OnConnect(s: Slot, result: ConnectResult, k: nat, level: Level): (o: Out)
    ensures |o.slot.shares| == |s.shares|
    decreases |s.shares| - k
  {
    if k >= |s.shares| then Out(s, [])
    else
      match s.shares[k]
      case None => OnConnect(s, result, k + 1, level)
      case Some(share) =>
        var t := s.(shares := s.shares[k := Some(Settled(share, result))]);
        var r := if result == Connected then Out(t, []) else ReleaseShare(t, k, Requested);
        var rest := OnConnect(r.slot, result, k + 1, Secondary);
        Out(rest.slot, [Informed(share.id, s.life, result, level)] + r.events + rest.events)
  }

  /** The disconnect callback of the slot's client, for the shares from k on. */
  function OnDisconnect(s: Slot, reason: Reason, k: nat): (o: Out)
    ensures |o.slot.shares| == |s.shares|
    decreases |s.shares| - k
  {
    if k >= |s.shares| then Out(s, [])
    else
      var r := ReleaseShare(s, k, reason);
      var rest := OnDisconnect(r.slot, reason, k + 1);
      Out(rest.slot, r.events + rest.events)
  }

  function Handle(s: Slot, e: Event): (o: Out)
    ensures |o.slot.shares| == |s.shares|
  {
    match e
    case Refused(_, result) => OnConnect(s, result, 0, Primary)
    case Told(_, result) => OnConnect(s, result, 0, Primary)
    case Lost(_, reason) => OnDisconnect(s, reason, 0)
    case _ => Out(s, [])
  }

  function HandleAll(s: Slot, log: seq<Event>): (o: Out)
    ensures |o.slot.shares| == |s.shares|
  {
    if log == [] then Out(s, [])
    else
      var first := HandleAll(s, log[..|log| - 1]);
      var last := Handle(first.slot, log[|log| - 1]);
      Out(last.slot, first.events + last.events)
  }

  /** A step of the slot's client; its callbacks do not touch the client, so they may as well be
      handled after the step. */
  function StepClient(s: Slot, after: Conn): (o: Out)
    ensures |o.slot.shares| == |s.shares|
  {
    HandleAll(s.(client := after.(log := [])), after.log)
  }

  /** The private release that disconnects the client of an abandoned slot. */
  function ReleaseAndDisconnect(s: Slot, k: nat, reason: Reason): (o: Out)
    requires k < |s.shares|
    ensures |o.slot.shares| == |s.shares|
  {
    var r := ReleaseShare(s, k, reason);
    if s.shares[k].None? || r.slot.shareCount != 0 then r
    else
      var d := StepClient(r.slot, Disconnect(r.slot.client, false, 0, 0));
      Out(d.slot, r.events + d.events)
  }

  /** The forced release of the shares below n, except k. */
  function ReleaseOthers(s: Slot, k: nat, n: nat): (o: Out)
    requires n <= |s.shares|
    ensures |o.slot.shares| == |s.shares|
  {
    if n == 0 then Out(s, [])
    else
      var first := ReleaseOthers(s, k, n - 1);
      if n - 1 == k then first
      else
        var last := ReleaseAndDisconnect(first.slot, n - 1, Forced);
        Out(last.slot, first.events + last.events)
  }

  // ---- Searching ----

  /** The first share with this ID, or the number of shares. */
  function Find(shares: Shares, id: nat): (k: nat)
    ensures k <= |shares| && (k < |shares| ==> shares[k].Some? && shares[k].value.id == id)
    ensures forall j :: 0 <= j < k && shares[j].Some? ==> shares[j].value.id != id
  {
    if shares == [] then 0
    else
      var k := Find(shares[..|shares| - 1], id);
      if k < |shares| - 1 || (shares[|shares| - 1].Some? && shares[|shares| - 1].value.id == id) then k else |shares|
  }

  predicate Held(shares: Shares, id: nat) { Find(shares, id) < |shares| }

  /** The first free share, or the number of shares. */
  function FreeShare(shares: Shares): (k: nat)
    ensures k <= |shares| && (k < |shares| ==> shares[k].None?)
    ensures forall j :: 0 <= j < k ==> shares[j].Some?
  {
    if shares == [] then 0
    else
      var k := FreeShare(shares[..|shares| - 1]);
      if k < |shares| - 1 || shares[|shares| - 1].None? then k else |shares|
  }

  predicate Live(slot: Option<Slot>) { slot.Some? && !slot.value.deletePending }

  predicate Matches(slot: Option<Slot>, host: string, port: Word) {
    Live(slot) && slot.value.client.host == Some(host) && slot.value.client.port == port
  }

  /** The first live slot for this host and port. */
  function MatchingSlot(slots: seq<Option<Slot>>, host: string, port: Word): (i: nat)
    ensures i <= |slots| && (i < |slots| ==> Matches(slots[i], host, port))
    ensures forall j :: 0 <= j < i ==> !Matches(slots[j], host, port)
  {
    if slots == [] then 0
    else
      var i := MatchingSlot(slots[..|slots| - 1], host, port);
      if i < |slots| - 1 || Matches(slots[|slots| - 1], host, port) then i else |slots|
  }

  /** The first slot that waits for its deletion, else the first unused one. */
  function FreeSlot(slots: seq<Option<Slot>>): (i: nat)
    ensures i <= |slots| && (i < |slots| ==> !Live(slots[i]))
    ensures i == |slots| ==> forall j :: 0 <= j < |slots| ==> Live(slots[j])
    ensures i < |slots| && slots[i].None? ==>
      forall j :: 0 <= j < |slots| && !Live(slots[j]) ==> slots[j].None? && i <= j
    ensures i < |slots| && slots[i].Some? ==> forall j :: 0 <= j < i ==> slots[j].None? || Live(slots[j])
  {
    if slots == [] then 0
    else
      var n := |slots| - 1;
      var i := FreeSlot(slots[..n]);
      if i == n then (if Live(slots[n]) then n + 1 else n)
      else if slots[i].None? && slots[n].Some? && !Live(slots[n]) then n
      else i
  }

  /** The slot that holds the share, or the number of slots. */
  function Holder(slots: seq<Option<Slot>>, id: nat): (i: nat)
    ensures i <= |slots| && (i < |slots| ==> slots[i].Some? && Held(slots[i].value.shares, id))
    ensures forall j :: 0 <= j < i && slots[j].Some? ==> !Held(slots[j].value.shares, id)
  {
    if slots == [] then 0
    else
      var n := |slots| - 1;
      var i := Holder(slots[..n], id);
      if i < n || (slots[n].Some? && Held(slots[n].value.shares, id)) then i else |slots|
  }

  // ---- The public operations ----

  datatype AcquireArgs = AcquireArgs(callback: bool, host: Option<string>, port: Word, pointerSet: bool,
                                     disconnectCallback: bool)

  predicate Sensible(a: AcquireArgs) {
    a.host.Some? && a.host.value != "" && a.port != 0 && !a.pointerSet && a.disconnectCallback
  }

  function Deny(p: Pool, result: ConnectResult): Pool {
    p.(tickets := p.tickets + 1, log := p.log + [Denied(p.tickets, result)])
  }

  /** Adds a share to a live slot. */
  function Join(p: Pool, i: nat): Pool
    requires i < |p.slots| && p.slots[i].Some?
  {
    var s := p.slots[i].value;
    var k := FreeShare(s.shares);
    if k == |s.shares| then Deny(p, NoFreePoolShare)
    else
      var up := s.client.fd.Some?;
      p.(slots := p.slots[i := Some(s.(shares := s.shares[k := Some(Share(p.tickets, !up, !up, up))],
                                       shareCount := s.shareCount + 1))],
         tickets := p.tickets + 1,
         log := p.log + if up then [Informed(p.tickets, s.life, Connected, Secondary)] else [])
  }

  const NO_SHARES: Shares := [None, None, None, None, None, None, None, None, None, None, None, None, None, None, None,
                              None]

  /** The slot that a new or revived slot starts from. */
  function Revived(slot: Option<Slot>, life: nat): Slot {
    match slot
    case None => Slot(life, false, NEW, NO_SHARES, 0)
    case Some(s) => s.(life := life, deletePending := false)
  }

  /** Connects an unused slot and gives it its first share. */
  function Open(p: Pool, i: nat, host: string, port: Word): Pool
    requires i < |p.slots| && (p.slots[i].Some? ==> |p.slots[i].value.shares| > 0)
  {
    Put(p, i, OpenedSlot(p.slots[i], p.lives, p.tickets, host, port)).(tickets := p.tickets + 1, lives := p.lives + 1)
  }

  /** The first share of a new life of a slot, and the call of connect. */
  function OpenedSlot(slot: Option<Slot>, life: nat, id: nat, host: string, port: Word): Out
    requires slot.Some? ==> |slot.value.shares| > 0
  {
    var s := Revived(slot, life);
    var t := s.(shares := s.shares[0 := Some(Share(id, true, true, false))], shareCount := s.shareCount + 1);
    StepClient(t, Connect(t.client, false, ConnectArgs(true, Some(host), port, true), 0))
  }

  predicate Shaped(p: Pool) { forall s <- p.slots :: s.Some? ==> |s.value.shares| == MAX_SHARES && Ok(s.value.client) }

  function AcquireFor(p: Pool, host: string, port: Word): Pool
    requires Shaped(p)
  {
    var i := MatchingSlot(p.slots, host, port);
    var j := FreeSlot(p.slots);
    if i < |p.slots| then Join(p, i)
    else if j == |p.slots| then Deny(p, NoFreePoolSlot)
    else Open(p, j, host, port)
  }

  function Acquire(p: Pool, guarded: bool, a: AcquireArgs): Pool
    requires Shaped(p)
  {
    if !a.callback then p
    else if guarded then Deny(p, NonReentrant)
    else if !Sensible(a) then Deny(p, InvalidArgument)
    else AcquireFor(p, a.host.value, a.port)
  }

  /** One slot after a step, in its pool. */
  function Put(p: Pool, i: nat, o: Out): Pool
    requires i < |p.slots|
  {
    p.(slots := p.slots[i := Some(o.slot)], log := p.log + o.events)
  }

  /** Releases a share of a slot, and with force all others, too. */
  function ReleaseFrom(s: Slot, k: nat, force: bool): Out
    requires k < |s.shares|
  {
    var r := ReleaseAndDisconnect(s, k, Requested);
    if !force then r
    else
      var f := ReleaseOthers(r.slot, k, |s.shares|);
      Out(f.slot, r.events + f.events)
  }

  function ReleaseId(p: Pool, id: nat, force: bool): Pool {
    var i := Holder(p.slots, id);
    if i == |p.slots| then p
    else Put(p, i, ReleaseFrom(p.slots[i].value, Find(p.slots[i].value.shares, id), force))
  }

  function Release(p: Pool, guarded: bool, id: nat, force: bool): Pool {
    if guarded then p else ReleaseId(p, id, force)
  }

  /** Nobody but the pool calls the slot's client. */
  function Undisturbed(e: TickEnv): TickEnv { e.(told := 0, lost := 0) }

  /** A slot whose client ticks. */
  function TickedSlot(s: Slot, e: TickEnv): Out
    requires Ok(s.client)
  {
    StepClient(s, TcpRules.Tick(s.client, false, Undisturbed(e)))
  }

  /** A slot whose client gets an answer of the resolver. */
  function AnsweredSlot(s: Slot, a: TcpRules.Answer): Out
    requires Ok(s.client)
  {
    StepClient(s, Deliver(s.client, a, 0))
  }

  /** One slot's turn in a tick: it is deleted, or its client ticks. */
  function TickOne(p: Pool, i: nat, e: TickEnv): Pool
    requires i < |p.slots| && (p.slots[i].Some? ==> Ok(p.slots[i].value.client))
  {
    match p.slots[i]
    case None => p
    case Some(s) =>
      if s.deletePending then p.(slots := p.slots[i := None])
      else Put(p, i, TickedSlot(s, e))
  }

  /** A tick of the slots below n. */
  function TickTo(p: Pool, envs: nat -> TickEnv, n: nat): (q: Pool)
    requires n <= |p.slots| && Shaped(p)
    ensures |q.slots| == |p.slots| && forall j :: n <= j < |p.slots| ==> q.slots[j] == p.slots[j]
  {
    if n == 0 then p
    else
      assert p.slots[n - 1] in p.slots;
      TickOne(TickTo(p, envs, n - 1), n - 1, envs(n - 1))
  }

  function Tick(p: Pool, guarded: bool, envs: nat -> TickEnv): Pool
    requires Shaped(p)
  {
    if guarded then p else TickTo(p, envs, |p.slots|)
  }

  /** An answer of the resolver for the client of a slot. */
  function Answer(p: Pool, i: nat, a: TcpRules.Answer): Pool
    requires Shaped(p)
  {
    if i >= |p.slots| || p.slots[i].None? then p
    else
      assert p.slots[i] in p.slots;
      Put(p, i, AnsweredSlot(p.slots[i].value, a))
  }
}
