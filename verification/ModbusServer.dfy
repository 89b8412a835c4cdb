/** The server object: its linked list of clients, relinked in place by every `tick`. */
module ModbusServer {
  import opened ModbusCommon
  import opened ServerFraming
  import opened ServerConnection
  import opened ServerRules
  import opened ServerRuns

  /** The i-th client, or null behind the end. */
  ghost function At(s: seq<Client>, i: nat): Client? { if i < |s| then s[i] else null }

  /** The clients are linked in this order. */
  ghost predicate Linked(s: seq<Client>, repr: set<object>)
    reads repr
  {
    && (forall i :: 0 <= i < |s| ==> s[i] in repr)
    && (forall i {:trigger s[i].next} :: 0 <= i < |s| ==> s[i].next == At(s, i + 1))
  }

  ghost predicate Apart(a: Client, b: Client) {
    && a != b && a.request != b.request && a.request != b.response
    && a.response != b.request && a.response != b.response
  }

  /** Different clients, with buffers of their own. */
  ghost predicate Separate(s: seq<Client>) {
    forall i, j :: 0 <= i < j < |s| ==> Apart(s[i], s[j])
  }

  ghost function ViewOf(c: Client): View
    reads c`headerUsed, c`headerChecked, c`payloadUsed, c`lastAlive, c.request
    requires c.Shape()
  {
    View(c.fd, c.peer, c.lastAlive, c.Pend())
  }

  /** The clients are in order and look like this. */
  ghost predicate Shows(s: seq<Client>, views: seq<View>, repr: set<object>)
    reads repr
  {
    && |views| == |s|
    && forall i {:trigger s[i]} {:trigger views[i]} :: 0 <= i < |s| ==> Seen(s[i], views[i], repr)
  }

  ghost predicate Seen(c: Client, v: View, repr: set<object>)
    reads repr
  {
    c in repr && c.request in repr && c.response in repr && c.Valid() && ViewOf(c) == v
  }

  lemma SeparateFirst(c: Client, s: seq<Client>)
    requires Separate(s) && forall i :: 0 <= i < |s| ==> Apart(c, s[i])
    ensures Separate([c] + s)
  {
  }

  lemma Widen(s: seq<Client>, views: seq<View>, repr: set<object>, wider: set<object>)
    requires Linked(s, repr) && Shows(s, views, repr) && repr <= wider
    ensures Linked(s, wider) && Shows(s, views, wider)
  {
    forall i | 0 <= i < |s| ensures Seen(s[i], views[i], wider) {
      assert Seen(s[i], views[i], repr);
    }
  }

  lemma ShowsFirst(c: Client, v: View, s: seq<Client>, views: seq<View>, repr: set<object>)
    requires Shows(s, views, repr) && Seen(c, v, repr)
    ensures Shows([c] + s, [v] + views, repr)
  {
    forall i | 0 <= i < |s| + 1 ensures Seen(([c] + s)[i], ([v] + views)[i], repr) {
      if i > 0 { assert Seen(s[i - 1], views[i - 1], repr); }
    }
  }

  lemma ShowsLast(c: Client, v: View, s: seq<Client>, views: seq<View>, repr: set<object>)
    requires Shows(s, views, repr) && Seen(c, v, repr)
    ensures Shows(s + [c], views + [v], repr)
  {
    forall i | 0 <= i < |s| + 1 ensures Seen((s + [c])[i], (views + [v])[i], repr) {
      if i < |s| { assert Seen(s[i], views[i], repr); }
    }
  }

  lemma LinkFirst(c: Client, s: seq<Client>, repr: set<object>)
    requires Linked(s, repr) && c in repr && c.next == At(s, 0)
    ensures Linked([c] + s, repr)
  {
    var t := [c] + s;
    forall i | 0 <= i < |t| ensures t[i] in repr && t[i].next == At(t, i + 1) {
      if i > 0 { assert t[i] == s[i - 1] && At(t, i + 1) == At(s, i); }
    }
  }

  /** A list of clients starting at `first`, with buffers of their own, that looks like `views`. */
  ghost predicate IsList(first: Client?, s: seq<Client>, views: seq<View>, repr: set<object>)
    reads repr
  {
    first == At(s, 0) && Linked(s, repr) && Separate(s) && Shows(s, views, repr)
  }

  /** Walks to the end of the list. */
  method FindLast(first: Client?, ghost s: seq<Client>, ghost views: seq<View>, ghost repr: set<object>)
    returns (nodePrev: Client?, node: Client?, clientCount: nat)
    requires IsList(first, s, views, repr)
    ensures clientCount == |s|
    ensures node == if clientCount == 0 then null else s[clientCount - 1]
    ensures nodePrev == if clientCount < 2 then null else s[clientCount - 2]
  {
    var next := first;
    nodePrev, node, clientCount := null, null, 0;
    while next != null
      invariant clientCount <= |s| && next == At(s, clientCount)
      invariant node == if clientCount == 0 then null else s[clientCount - 1]
      invariant nodePrev == if clientCount < 2 then null else s[clientCount - 2]
      decreases |s| - clientCount
    {
      nodePrev := node;
      node := next;
      next := node.next;
      clientCount := clientCount + 1;
    }
  }

  /** Unlinks the last client of the list. */
  method UnlinkLast(nodePrev: Client, ghost first: Client?, ghost s: seq<Client>, ghost views: seq<View>,
                    ghost repr: set<object>)
    requires IsList(first, s, views, repr) && |s| >= 2 && nodePrev == s[|s| - 2]
    modifies nodePrev`next
    ensures IsList(first, s[..|s| - 1], views[..|views| - 1], repr)
  {
    nodePrev.next := null;
    ghost var n := |s| - 1;
    var t := s[..n];
    forall i | 0 <= i < n ensures t[i] in repr && t[i].next == At(t, i + 1) {
      assert s[i] == t[i] && (i < n - 1 ==> Apart(s[i], s[n - 1]));
    }
    forall i | 0 <= i < n ensures Seen(t[i], views[..n][i], repr) {
      assert Seen(s[i], views[i], repr);
    }
  }

  /** Puts a new client at the head of the list. */
  method AddFirst(first: Client?, fd: int, peer: Peer, now: int,
                  ghost s: seq<Client>, ghost views: seq<View>, ghost repr: set<object>)
    returns (client: Client, ghost wider: set<object>)
    requires IsList(first, s, views, repr)
    ensures fresh(wider - repr) && repr <= wider
    ensures IsList(client, [client] + s, [View(fd, peer, now, FRESH)] + views, wider)
  {
    ghost var v := View(fd, peer, now, FRESH);
    client := new Client(fd, peer, now);
    client.next := first;
    wider := repr + {client, client.request, client.response};
    Widen(s, views, repr, wider);
    forall i | 0 <= i < |s| ensures Apart(client, s[i]) {
      assert Seen(s[i], views[i], repr);
    }
    SeparateFirst(client, s);
    LinkFirst(client, s, wider);
    assert Seen(client, v, wider);
    ShowsFirst(client, v, s, views, wider);
  }

  /** Displaces the last client of a full list if it has not been alive for long enough. */
  method MakeRoom(first: Client?, displaceCheck: int, ghost s: seq<Client>, ghost views: seq<View>,
                  ghost repr: set<object>)
    returns (clientCount: nat, ghost t: seq<Client>, ghost kept: seq<View>, ghost out: seq<Event>)
    requires IsList(first, s, views, repr)
    modifies repr
    ensures clientCount == |kept| && IsList(first, t, kept, repr)
    ensures var n := |views|;
            if n >= MAX_CLIENT_COUNT && Displaceable(views[n - 1], displaceCheck) then
              kept == views[..n - 1] && out == [Hangup(views[n - 1].fd, views[n - 1].peer, Displaced, -1)]
            else kept == views && out == []
  {
    t, kept, out := s, views, [];
    var nodePrev, node;
    nodePrev, node, clientCount := FindLast(first, s, views, repr);
    if clientCount >= MAX_CLIENT_COUNT && node != null {
      assert Seen(node, views[|views| - 1], repr);
      if displaceCheck >= node.lastAlive + MIN_DISPLACE_DELAY {
        UnlinkLast(nodePrev, first, s, views, repr);
        clientCount := clientCount - 1;
        t, kept := s[..|s| - 1], views[..|views| - 1];
        out := [Hangup(node.fd, node.peer, Displaced, -1)];
      }
    }
  }

  /** Takes a new connection into the list, displaces the last client for it, or turns it away. */
  method AdmitNode(first: Client?, fd: int, peer: Peer, displaceCheck: int, now: int,
                   ghost s: seq<Client>, ghost views: seq<View>, ghost repr: set<object>)
    returns (head: Client?, ghost t: seq<Client>, ghost wider: set<object>, ghost events: seq<Event>)
    requires IsList(first, s, views, repr)
    modifies repr
    ensures repr <= wider && fresh(wider - repr)
    ensures ServerRules.Admit(views, fd, peer, displaceCheck, now).events == events
    ensures IsList(head, t, ServerRules.Admit(views, fd, peer, displaceCheck, now).views, wider)
  {
    head, wider := first, repr;
    var clientCount;
    ghost var kept, out;
    clientCount, t, kept, out := MakeRoom(first, displaceCheck, s, views, repr);
    events := [Connect(fd, peer)] + out;
    if clientCount >= MAX_CLIENT_COUNT {
      events := [Connect(fd, peer)] + (out + [Hangup(fd, peer, NoFreeClient, -1)]);
    } else {
      ghost var u := t;
      head, wider := AddFirst(first, fd, peer, now, t, kept, repr);
      t := [head] + u;
    }
  }

  /** The visit of one client: dropped, left alone or read from. */
  method VisitNode(order: ByteOrder, client: Client, ready: bool, m: Moment, ghost v: View, ghost repr: set<object>)
    returns (kept: bool, woken: bool, ghost events: seq<Event>)
    requires Seen(client, v, repr) && Sound(v)
    modifies client`lastAlive, client`headerUsed, client`headerChecked, client`payloadUsed, client.request,
        client.response
    ensures var o := VisitClient(order, v, ready, m);
            && events == o.events
            && kept == !o.fate.Dropped? && woken == o.fate.Woken?
            && (kept ==> Seen(client, o.fate.view, repr))
  {
    if m.checked >= client.lastAlive + MAX_IDLE_DURATION {
      return false, false, [Hangup(client.fd, client.peer, Idle, -1)];
    }
    if !ready {
      return true, false, [];
    }
    client.lastAlive := m.alive;
    var status, call, sent := client.Serve(order, m.visit);
    events := (if call.Some? then [Asked(client.fd, call.value)] else []) +
              (if sent != [] then [Send(client.fd, sent)] else []);
    match status {
      case Waiting => return true, true, events;
      case Gone(reason, errno) => return false, false, events + [Hangup(client.fd, client.peer, reason, errno)];
    }
  }

  /** The finished part of the list, with its last node. */
  ghost predicate Finished(head: Client?, tail: Client?, f: seq<Client>, views: seq<View>, repr: set<object>)
    reads repr
  {
    IsList(head, f, views, repr) && tail == (if f == [] then null else f[|f| - 1])
  }

  /** Puts a visited node in front of the finished part. */
  method Prepend(node: Client, finishedHead: Client?, finishedTail: Client?,
                 ghost v: View, ghost f: seq<Client>, ghost views: seq<View>, ghost repr: set<object>)
    returns (head: Client, tail: Client)
    requires Finished(finishedHead, finishedTail, f, views, repr)
    requires Seen(node, v, repr) && node.next == null && forall i :: 0 <= i < |f| ==> Apart(node, f[i])
    modifies node`next
    ensures Finished(head, tail, [node] + f, [v] + views, repr)
  {
    if finishedHead == null {
      head := node;
      tail := node;
    } else {
      node.next := finishedHead;
      head := node;
      tail := finishedTail;
    }
    forall i | 0 <= i < |f| ensures Seen(f[i], views[i], repr) && Apart(node, f[i]) {
      assert old(Seen(f[i], views[i], repr));
    }
    SeparateFirst(node, f);
    LinkFirst(node, f, repr);
    ShowsFirst(node, v, f, views, repr);
  }

  lemma SeparateLast(c: Client, s: seq<Client>)
    requires Separate(s) && forall i :: 0 <= i < |s| ==> Apart(c, s[i])
    ensures Separate(s + [c])
  {
  }

  lemma LinkLast(c: Client, s: seq<Client>, repr: set<object>)
    requires c in repr && c.next == null && forall i :: 0 <= i < |s| ==> s[i] in repr
    requires forall i {:trigger s[i].next} :: 0 <= i < |s| ==> s[i].next == if i + 1 < |s| then s[i + 1] else c
    ensures Linked(s + [c], repr)
  {
    var t := s + [c];
    forall i | 0 <= i < |t| ensures t[i] in repr && t[i].next == At(t, i + 1) {
      if i < |s| { assert t[i] == s[i] && s[i].next == if i + 1 < |s| then s[i + 1] else c; }
    }
  }

  /** Puts a node that was left alone behind the finished part. */
  method Append(node: Client, finishedHead: Client?, finishedTail: Client?,
                ghost v: View, ghost f: seq<Client>, ghost views: seq<View>, ghost repr: set<object>)
    returns (head: Client, tail: Client)
    requires Finished(finishedHead, finishedTail, f, views, repr)
    requires Seen(node, v, repr) && node.next == null && forall i :: 0 <= i < |f| ==> Apart(node, f[i])
    modifies (if finishedTail == null then {} else {finishedTail})`next
    ensures Finished(head, tail, f + [node], views + [v], repr)
  {
    if finishedTail == null {
      head := node;
      tail := node;
    } else {
      finishedTail.next := node;
      head := finishedHead;
      tail := node;
    }
    forall i | 0 <= i < |f| ensures Seen(f[i], views[i], repr) && Apart(node, f[i]) {
      assert old(Seen(f[i], views[i], repr));
    }
    forall i | 0 <= i < |f| ensures f[i].next == if i + 1 < |f| then f[i + 1] else node {
      assert old(f[i].next) == At(f, i + 1);
      if i + 1 < |f| { assert Apart(f[i], f[|f| - 1]); }
    }
    SeparateLast(node, f);
    LinkLast(node, f, repr);
    ShowsLast(node, v, f, views, repr);
  }

  /** The clients from position i on still wait for their visit. */
  ghost predicate Waits(s: seq<Client>, views: seq<View>, i: nat, repr: set<object>)
    reads repr
  {
    && |s| == |views|
    && (forall k :: i <= k < |s| ==> Seen(s[k], views[k], repr))
    && (forall k {:trigger s[k].next} :: i <= k < |s| ==> s[k].next == At(s, k + 1))
  }

  /** None of these clients is among those that still wait. */
  ghost predicate Behind(f: seq<Client>, s: seq<Client>, i: nat) {
    forall g, k :: 0 <= g < |f| && i <= k < |s| ==> Apart(f[g], s[k])
  }

  /** The rebuild has come to position i: f is finished, the rest of s still waits. */
  ghost predicate Midway(head: Client?, tail: Client?, f: seq<Client>, fv: seq<View>,
                         s: seq<Client>, sv: seq<View>, i: nat, repr: set<object>)
    reads repr
  {
    Finished(head, tail, f, fv, repr) && Waits(s, sv, i, repr) && Behind(f, s, i)
  }

  /** A visited node that is not part of either list. */
  ghost predicate Loose(node: Client, v: View, f: seq<Client>, s: seq<Client>, i: nat, repr: set<object>)
    reads repr
  {
    && Seen(node, v, repr) && node.next == null
    && (forall g :: 0 <= g < |f| ==> Apart(node, f[g]))
    && (forall k :: i <= k < |s| ==> Apart(node, s[k]))
  }

  /** Takes the next client off the pending part. */
  method DetachNext(pendingHead: Client, ghost finishedHead: Client?, ghost finishedTail: Client?,
                    ghost s: seq<Client>, ghost views: seq<View>, ghost i: nat,
                    ghost f: seq<Client>, ghost fv: seq<View>, ghost repr: set<object>)
    returns (next: Client?)
    requires i < |s| && pendingHead == s[i] && Separate(s)
    requires Midway(finishedHead, finishedTail, f, fv, s, views, i, repr)
    modifies pendingHead`next
    ensures next == At(s, i + 1) && Midway(finishedHead, finishedTail, f, fv, s, views, i + 1, repr)
    ensures Loose(pendingHead, views[i], f, s, i + 1, repr)
  {
    assert Seen(s[i], views[i], repr);
    next := pendingHead.next;
    pendingHead.next := null;
    forall k | i + 1 <= k < |s| ensures Seen(s[k], views[k], repr) {
      assert old(Seen(s[k], views[k], repr));
    }
    forall k {:trigger s[k].next} | i + 1 <= k < |s| ensures s[k].next == At(s, k + 1) {
      assert old(s[k].next) == At(s, k + 1) && Apart(s[i], s[k]);
    }
    forall g | 0 <= g < |f| ensures Seen(f[g], fv[g], repr) {
      assert old(Seen(f[g], fv[g], repr));
    }
    forall g {:trigger f[g].next} | 0 <= g < |f| ensures f[g] in repr && f[g].next == At(f, g + 1) {
      assert old(f[g].next) == At(f, g + 1) && Apart(f[g], s[i]);
    }
  }

  /** Visits a client that is not part of either list. */
  method VisitLoose(order: ByteOrder, node: Client, ready: bool, m: Moment, ghost finishedHead: Client?,
                    ghost finishedTail: Client?,
                    ghost v: View, ghost s: seq<Client>, ghost views: seq<View>, ghost i: nat,
                    ghost f: seq<Client>, ghost fv: seq<View>, ghost repr: set<object>)
    returns (kept: bool, woken: bool, ghost events: seq<Event>)
    requires Midway(finishedHead, finishedTail, f, fv, s, views, i, repr) && Loose(node, v, f, s, i, repr) && Sound(v)
    modifies node`lastAlive, node`headerUsed, node`headerChecked, node`payloadUsed, node.request, node.response
    ensures Midway(finishedHead, finishedTail, f, fv, s, views, i, repr)
    ensures var o := VisitClient(order, v, ready, m);
            && events == o.events && kept == !o.fate.Dropped? && woken == o.fate.Woken?
            && (kept ==> Loose(node, o.fate.view, f, s, i, repr))
  {
    kept, woken, events := VisitNode(order, node, ready, m, v, repr);
    forall k | i <= k < |s| ensures Seen(s[k], views[k], repr) {
      assert old(Seen(s[k], views[k], repr)) && Apart(node, s[k]);
    }
    forall g | 0 <= g < |f| ensures Seen(f[g], fv[g], repr) {
      assert old(Seen(f[g], fv[g], repr)) && Apart(node, f[g]);
    }
  }

  /** Takes the next client off the pending part and visits it. */
  method VisitNext(order: ByteOrder, pendingHead: Client, ready: set<int>, m: Moment, finishedHead: Client?,
                   finishedTail: Client?,
                   ghost s: seq<Client>, ghost views: seq<View>, ghost i: nat,
                   ghost f: seq<Client>, ghost fv: seq<View>, ghost repr: set<object>)
    returns (next: Client?, kept: bool, woken: bool, ghost events: seq<Event>)
    requires i < |s| && pendingHead == s[i] && Separate(s)
    requires Midway(finishedHead, finishedTail, f, fv, s, views, i, repr) && Sound(views[i])
    modifies repr
    ensures next == At(s, i + 1) && Midway(finishedHead, finishedTail, f, fv, s, views, i + 1, repr)
    ensures var o := VisitClient(order, views[i], views[i].fd in ready, m);
            && events == o.events && kept == !o.fate.Dropped? && woken == o.fate.Woken?
            && (kept ==> Loose(pendingHead, o.fate.view, f, s, i + 1, repr))
  {
    assert Seen(s[i], views[i], repr);
    next := DetachNext(pendingHead, finishedHead, finishedTail, s, views, i, f, fv, repr);
    kept, woken, events := VisitLoose(order, pendingHead, pendingHead.fd in ready, m, finishedHead, finishedTail,
                                      views[i], s, views, i + 1, f, fv, repr);
  }

  lemma RebuiltStep(os: seq<Treatment>, i: nat)
    requires i < |os|
    ensures EventsOf(os[..i + 1]) == EventsOf(os[..i]) + os[i].events
    ensures Rebuilt(os[..i + 1]) == Joined(os[i], Rebuilt(os[..i]))
  {
    var a, b, o := os[..i + 1], os[..i], os[i];
    assert a[..i] == b && a[i] == o;
    match o.fate
    case Woken(v) =>
      assert WokenOf(a) == WokenOf(b) + [v] && QuietOf(a) == QuietOf(b);
      assert Reverse(WokenOf(b) + [v]) == [v] + Reverse(WokenOf(b));
    case Quiet(v) =>
      assert WokenOf(a) == WokenOf(b) && QuietOf(a) == QuietOf(b) + [v];
    case Dropped(_, _) =>
      assert WokenOf(a) == WokenOf(b) && QuietOf(a) == QuietOf(b);
  }

  lemma AtEnd(s: seq<Client>, i: nat, os: seq<Treatment>)
    requires i <= |s| == |os| && At(s, i) == null
    ensures os[..i] == os
  {
  }

  /** Moves a node that was read from to the front. */
  method MoveToFront(node: Client, finishedHead: Client?, finishedTail: Client?, ghost v: View, ghost f: seq<Client>,
                     ghost fv: seq<View>, ghost s: seq<Client>, ghost sv: seq<View>, ghost i: nat,
                     ghost repr: set<object>)
    returns (head: Client, tail: Client)
    requires Midway(finishedHead, finishedTail, f, fv, s, sv, i, repr) && Loose(node, v, f, s, i, repr)
    modifies node`next
    ensures Midway(head, tail, [node] + f, [v] + fv, s, sv, i, repr)
  {
    head, tail := Prepend(node, finishedHead, finishedTail, v, f, fv, repr);
    forall k | i <= k < |s| ensures Seen(s[k], sv[k], repr) {
      assert old(Seen(s[k], sv[k], repr));
    }
    forall k {:trigger s[k].next} | i <= k < |s| ensures s[k].next == At(s, k + 1) {
      assert old(s[k].next) == At(s, k + 1) && Apart(node, s[k]);
    }
  }

  /** Moves a node that was left alone to the end. */
  method MoveToBack(node: Client, finishedHead: Client?, finishedTail: Client?, ghost v: View, ghost f: seq<Client>,
                    ghost fv: seq<View>, ghost s: seq<Client>, ghost sv: seq<View>, ghost i: nat,
                    ghost repr: set<object>)
    returns (head: Client, tail: Client)
    requires Midway(finishedHead, finishedTail, f, fv, s, sv, i, repr) && Loose(node, v, f, s, i, repr)
    modifies (if finishedTail == null then {} else {finishedTail})`next
    ensures Midway(head, tail, f + [node], fv + [v], s, sv, i, repr)
  {
    head, tail := Append(node, finishedHead, finishedTail, v, f, fv, repr);
    forall k | i <= k < |s| ensures Seen(s[k], sv[k], repr) {
      assert old(Seen(s[k], sv[k], repr));
    }
    forall k {:trigger s[k].next} | i <= k < |s| ensures s[k].next == At(s, k + 1) {
      assert old(s[k].next) == At(s, k + 1);
      assert finishedTail != null ==> Apart(f[|f| - 1], s[k]);
    }
  }

  /** What the finished part and the node read from become with one more treatment. */
  function Joined(o: Treatment, fv: seq<View>): seq<View> {
    match o.fate
    case Woken(v) => [v] + fv
    case Quiet(v) => fv + [v]
    case Dropped(_, _) => fv
  }

  /** Visits the next client; one that was left alone goes to the end of the finished part, one
      that was read from is returned. */
  method VisitStep(order: ByteOrder, pendingHead: Client, ready: set<int>, m: Moment, finishedHead: Client?,
                   finishedTail: Client?,
                   ghost s: seq<Client>, ghost views: seq<View>, ghost i: nat,
                   ghost f: seq<Client>, ghost fv: seq<View>, ghost repr: set<object>)
    returns (next: Client?, node: Client?, head: Client?, tail: Client?,
             ghost nv: View, ghost f': seq<Client>, ghost fv': seq<View>, ghost events: seq<Event>)
    requires i < |s| && pendingHead == s[i] && Separate(s)
    requires Midway(finishedHead, finishedTail, f, fv, s, views, i, repr) && Sound(views[i])
    modifies repr
    ensures next == At(s, i + 1) && Midway(head, tail, f', fv', s, views, i + 1, repr)
    ensures node != null ==> Loose(node, nv, f', s, i + 1, repr)
    ensures var o := VisitClient(order, views[i], views[i].fd in ready, m);
            events == o.events && Joined(o, fv) == if node == null then fv' else [nv] + fv'
  {
    ghost var o := VisitClient(order, views[i], views[i].fd in ready, m);
    var kept, woken;
    next, kept, woken, events := VisitNext(order, pendingHead, ready, m, finishedHead, finishedTail, s, views, i, f,
                                           fv, repr);
    node, head, tail, f', fv', nv := null, finishedHead, finishedTail, f, fv, views[i];
    if kept {
      nv := o.fate.view;
      if woken {
        node := pendingHead;
      } else {
        assert finishedTail != null ==> finishedTail in repr;
        head, tail := MoveToBack(pendingHead, finishedHead, finishedTail, nv, f, fv, s, views, i + 1, repr);
        f', fv' := f + [pendingHead], fv + [nv];
      }
    }
  }

  /** Puts the node that was read from last, if any, in front. */
  method Settle(node: Client?, finishedHead: Client?, finishedTail: Client?, ghost v: View, ghost f: seq<Client>,
                ghost fv: seq<View>, ghost s: seq<Client>, ghost sv: seq<View>, ghost i: nat, ghost repr: set<object>)
    returns (head: Client?, tail: Client?, ghost f': seq<Client>, ghost fv': seq<View>)
    requires Midway(finishedHead, finishedTail, f, fv, s, sv, i, repr)
             && (node != null ==> Loose(node, v, f, s, i, repr))
    modifies repr
    ensures Midway(head, tail, f', fv', s, sv, i, repr) && fv' == if node == null then fv else [v] + fv
  {
    head, tail, f', fv' := finishedHead, finishedTail, f, fv;
    if node != null {
      head, tail := MoveToFront(node, finishedHead, finishedTail, v, f, fv, s, sv, i, repr);
      f', fv' := [node] + f, [v] + fv;
    }
  }

  /** Visits every client once and relinks the list: clients that were read from come to the front,
      one by one, the others stay behind them in their old order. */
  method VisitAllNodes(order: ByteOrder, first: Client?, ready: set<int>, stops: nat -> Moment,
                       ghost s: seq<Client>, ghost views: seq<View>, ghost repr: set<object>)
    returns (finishedHead: Client?, ghost f: seq<Client>, ghost events: seq<Event>)
    requires IsList(first, s, views, repr) && forall v <- views :: Sound(v)
    modifies repr
    ensures var os := Treatments(order, views, ready, stops);
            IsList(finishedHead, f, Rebuilt(os), repr) && events == EventsOf(os)
  {
    ghost var os := Treatments(order, views, ready, stops);
    ghost var fv, nv := [], View(0, Peer(0, 0), 0, FRESH);
    var pendingHead := first;
    var finishedTail: Client?, node: Client? := null, null;
    finishedHead, f, events := null, [], [];
    var i := 0;
    assert os[..0] == [];
    while true
      invariant i <= |s| && pendingHead == At(s, i)
      invariant Midway(finishedHead, finishedTail, f, fv, s, views, i, repr)
      invariant node != null ==> Loose(node, nv, f, s, i, repr)
      invariant (if node == null then fv else [nv] + fv) == Rebuilt(os[..i]) && events == EventsOf(os[..i])
      decreases |s| - i
    {
      finishedHead, finishedTail, f, fv := Settle(node, finishedHead, finishedTail, nv, f, fv, s, views, i, repr);
      if pendingHead == null {
        AtEnd(s, i, os);
        break;
      }
      ghost var es;
      RebuiltStep(os, i);
      pendingHead, node, finishedHead, finishedTail, nv, f, fv, es :=
        VisitStep(order, pendingHead, ready, stops(i), finishedHead, finishedTail, s, views, i, f, fv, repr);
      events := events + es;
      i := i + 1;
    }
  }

  /** Hangs up on every client of a list that is being thrown away. */
  method HangUpAll(head: Client?, ghost s: seq<Client>, ghost views: seq<View>, ghost repr: set<object>)
    returns (ghost events: seq<Event>)
    requires IsList(head, s, views, repr)
    ensures events == HangupAll(views)
  {
    var node := head;
    ghost var done := 0;
    events := [];
    while node != null
      invariant 0 <= done <= |s| && node == At(s, done)
      invariant events == HangupAll(views[..done])
      decreases |s| - done
    {
      assert Seen(s[done], views[done], repr);
      assert views[..done + 1][..done] == views[..done];
      var nodeNext := node.next;
      events := events + [Hangup(node.fd, node.peer, ServerStopped, -1)];
      node := nodeNext;
      done := done + 1;
    }
    assert views[..done] == views;
  }

  /** The descriptors that `select` watches besides the server's own. */
  method WatchedFds(first: Client?, ghost s: seq<Client>, ghost views: seq<View>, ghost repr: set<object>)
    returns (fds: set<int>)
    requires IsList(first, s, views, repr)
    ensures fds == Fds(views)
  {
    var node := first;
    ghost var done := 0;
    fds := {};
    while node != null
      invariant 0 <= done <= |s| && node == At(s, done)
      invariant fds == Fds(views[..done])
      decreases |s| - done
    {
      assert Seen(s[done], views[done], repr);
      assert views[..done + 1] == views[..done] + [views[done]];
      fds := fds + {node.fd};
      node := node.next;
      done := done + 1;
    }
    assert views[..done] == views;
  }

  /** The type of the address to bind to. */
  datatype Family = IPv4 | IPv6 | OtherFamily

  /** How `start` ends: with a listening socket, or with this `errno`. */
  datatype Started = Listening | WouldBlock | Invalid | Busy | SystemError

  class Server {
    const order: ByteOrder
    var nonReentrant: bool
    var serverFd: int
    var lastIdleCheck: int
    /** The node behind the sentinel. */
    var first: Client?
    ghost var clients: seq<Client>
    ghost var Repr: set<object>
    /** The server as the rules see it. */
    ghost var abs: ServerRules.Server

    constructor (order: ByteOrder)
      ensures Valid() && abs == ServerRules.Server(false, 0, [], []) && !nonReentrant && this.order == order
    {
      this.order := order;
      nonReentrant, serverFd, lastIdleCheck, first := false, -1, 0, null;
      clients, Repr, abs := [], {}, ServerRules.Server(false, 0, [], []);
    }

    ghost predicate Valid()
      reads this, Repr
    {
      && this !in Repr && IsList(first, clients, abs.views, Repr) && Healthy(abs)
      && abs.running == (serverFd >= 0) && abs.lastIdleCheck == lastIdleCheck
    }

    /** Starts listening; `fd` is what `socket`, `setsockopt`, `fcntl`, `bind` and `listen` come to: a
        non-negative descriptor if all of them succeed. */
    method Start(port: nat, family: Family, callbacks: bool, fd: int) returns (started: Started)
      requires Valid()
      modifies this
      ensures Valid() && nonReentrant == old(nonReentrant) && Repr == old(Repr)
      ensures started == if old(nonReentrant) then WouldBlock
                         else if port == 0 || !callbacks then Invalid
                         else if old(serverFd) >= 0 then Busy
                         else if family == OtherFamily then Invalid
                         else if fd < 0 then SystemError else Listening
      ensures abs == if started == Listening then old(abs).(running := true) else old(abs)
    {
      if nonReentrant { return WouldBlock; }
      nonReentrant := true;
      started := Listen(port, family, callbacks, fd);
      nonReentrant := false;
    }

    /** `start` under its guard. */
    method Listen(port: nat, family: Family, callbacks: bool, fd: int) returns (started: Started)
      requires Valid()
      modifies this`serverFd, this`abs
      ensures Valid()
      ensures started == if port == 0 || !callbacks then Invalid
                         else if old(serverFd) >= 0 then Busy
                         else if family == OtherFamily then Invalid
                         else if fd < 0 then SystemError else Listening
      ensures abs == if started == Listening then old(abs).(running := true) else old(abs)
    {
      if port == 0 || !callbacks { return Invalid; }
      if serverFd >= 0 { return Busy; }
      if family == OtherFamily { return Invalid; }
      if fd < 0 { return SystemError; }
      serverFd := fd;
      abs := abs.(running := true);
      return Listening;
    }

    method Stop() returns (ok: bool)
      requires Valid()
      modifies this
      ensures Valid() && nonReentrant == old(nonReentrant) && Repr == old(Repr)
      ensures ok == (!old(nonReentrant) && old(serverFd) >= 0)
      ensures abs == if ok then StopServer(old(abs)) else old(abs)
    {
      if nonReentrant { return false; }
      nonReentrant := true;
      ok := serverFd >= 0;
      if ok {
        serverFd := -1;
        var node := first;
        ghost var events := HangUpAll(node, clients, abs.views, Repr);
        first := null;
        clients, abs := [], abs.(running := false, views := [], log := abs.log + events);
      }
      nonReentrant := false;
    }

    method Tick(env: Env)
      requires Valid()
      modifies this, Repr
      ensures Valid() && nonReentrant == old(nonReentrant) && fresh(Repr - old(Repr))
      ensures abs == if old(nonReentrant) then old(abs) else ServerRules.Tick(order, old(abs), env)
    {
      if nonReentrant { return; }
      nonReentrant := true;
      RunTick(env);
      nonReentrant := false;
    }

    method RunTick(env: Env)
      requires Valid()
      modifies this, Repr
      ensures Valid() && unchanged(this`nonReentrant) && fresh(Repr - old(Repr))
      ensures abs == ServerRules.Tick(order, old(abs), env)
    {
      if serverFd < 0 || env.select.SelectFailed? { return; }
      var watched := WatchedFds(first, clients, abs.views, Repr);
      var ready := env.select.ready * watched;
      if !env.select.serverReady && ready == {} && env.intervalCheck < lastIdleCheck + IDLE_CHECK_INTERVAL { return; }
      if env.select.serverReady {
        if env.accept.AcceptFailed? { return; }
        AdmitConnection(env.accept.fd, env.accept.peer, env.displaceCheck, env.accepted);
      }
      VisitClients(ready, env);
    }

    /** Makes a relinked list the server's list. */
    method Install(head: Client?, now: int, ghost f: seq<Client>, ghost repr: set<object>, ghost s: ServerRules.Server)
      requires this !in repr && IsList(head, f, s.views, repr) && Healthy(s)
      requires s.running == (serverFd >= 0) && s.lastIdleCheck == now
      modifies this`first, this`lastIdleCheck, this`clients, this`Repr, this`abs
      ensures Valid() && Repr == repr && abs == s
    {
      first, lastIdleCheck := head, now;
      clients, Repr, abs := f, repr, s;
    }

    method AdmitConnection(fd: int, peer: Peer, displaceCheck: int, now: int)
      requires Valid() && serverFd >= 0
      modifies this, Repr
      ensures Valid() && unchanged(this`nonReentrant, this`serverFd) && fresh(Repr - old(Repr))
      ensures var a := ServerRules.Admit(old(abs).views, fd, peer, displaceCheck, now);
              abs == old(abs).(views := a.views, log := old(abs).log + a.events)
    {
      ghost var a := ServerRules.Admit(abs.views, fd, peer, displaceCheck, now);
      var head;
      ghost var t, wider, events;
      head, t, wider, events := AdmitNode(first, fd, peer, displaceCheck, now, clients, abs.views, Repr);
      Install(head, lastIdleCheck, t, wider, abs.(views := a.views, log := abs.log + events));
    }

    method VisitClients(ready: set<int>, env: Env)
      requires Valid() && serverFd >= 0
      modifies this, Repr
      ensures Valid() && unchanged(this`nonReentrant, this`serverFd, this`Repr)
      ensures abs == VisitAll(order, old(abs), ready, env)
    {
      ghost var os := Treatments(order, abs.views, ready, env.stops);
      VisitAllHealthy(order, abs, ready, env);
      var head;
      ghost var f, events;
      head, f, events := VisitAllNodes(order, first, ready, env.stops, clients, abs.views, Repr);
      Install(head, env.idleCheck, f, Repr,
              abs.(lastIdleCheck := env.idleCheck, views := Rebuilt(os), log := abs.log + events));
    }
  }
}
