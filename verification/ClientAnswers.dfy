/** From the frames that a run of the Modbus TCP client has resolved to the transactions in its log. */
module ClientAnswers {
  import opened Bytes
  import opened ModbusCommon
  import opened ModbusRules
  import opened ClientRules
  import opened ClientRuns
  import opened ClientSafety
  import opened ClientFraming
  import ClientLog

  /** What a run has resolved and logged after some of its steps it still has at its end. */
  lemma {:induction false} FollowGrows(order: ByteOrder, s: State, ops: seq<Op>, n: nat)
    requires Inv(s) && n <= |ops|
    ensures Follow(order, s, ops[..n]).state.log <= Follow(order, s, ops).state.log
    ensures Follow(order, s, ops[..n]).frames <= Follow(order, s, ops).frames
    decreases |ops|
  {
    if n == |ops| {
      assert ops[..n] == ops;
    } else {
      var before := ops[..|ops| - 1];
      assert ops[..n] == before[..n];
      FollowGrows(order, s, before, n);
      AdvanceGrows(order, Follow(order, s, before), ops[|ops| - 1]);
    }
  }

  lemma AdvanceGrows(order: ByteOrder, t: Track, op: Op)
    requires Inv(t.state)
    ensures t.state.log <= Advance(order, t, op).state.log && t.frames <= Advance(order, t, op).frames
  {
    ClientLog.ApplyGrows(order, t.state, op);
  }

  /** The step resolves the frame f. */
  ghost predicate Resolves(t: Track, op: Op, f: Frame) {
    op.Recv? && t.state.connected && Resolved(t.state.rx, op.recv) == Some(f)
  }

  lemma AdvanceResolves(order: ByteOrder, t: Track, op: Op, u: Track)
    requires Inv(t.state) && u == Advance(order, t, op) && |t.frames| < |u.frames|
    ensures u.state.connected && Resolves(t, op, u.frames[|t.frames|])
  {
  }

  /** Frame k of the run was resolved in step n. */
  ghost predicate ResolvesAt(order: ByteOrder, s: State, ops: seq<Op>, n: nat, k: nat, f: Frame)
    requires Inv(s) && n < |ops|
  {
    var t := Follow(order, s, ops[..n]);
    |t.frames| == k && Resolves(t, ops[n], f) && Follow(order, s, ops[..n + 1]).state.connected
  }

  /** A step resolves one frame at most. */
  lemma AdvanceOne(order: ByteOrder, t: Track, op: Op, u: Track)
    requires Inv(t.state) && u == Advance(order, t, op)
    ensures |t.frames| <= |u.frames| <= |t.frames| + 1
  {
  }

  lemma PrefixOfPrefix(ops: seq<Op>, m: nat, n: nat)
    requires n <= m <= |ops|
    ensures ops[..m][..n] == ops[..n]
  {
  }

  lemma ResolvedEarlier(order: ByteOrder, s: State, ops: seq<Op>, m: nat, n: nat, k: nat, f: Frame)
    requires Inv(s) && n < m <= |ops| && ResolvesAt(order, s, ops[..m], n, k, f)
    ensures ResolvesAt(order, s, ops, n, k, f)
  {
    PrefixOfPrefix(ops, m, n);
    PrefixOfPrefix(ops, m, n + 1);
  }

  lemma FollowLastStep(order: ByteOrder, s: State, ops: seq<Op>, t: Track, u: Track)
    requires Inv(s) && ops != [] && t == Follow(order, s, ops[..|ops| - 1]) && u == Follow(order, s, ops)
    ensures Inv(t.state) && u == Advance(order, t, ops[|ops| - 1]) && t.frames <= u.frames
  {
  }

  lemma ResolvedLast(order: ByteOrder, s: State, ops: seq<Op>, t: Track, u: Track)
    requires Inv(s) && ops != [] && t == Follow(order, s, ops[..|ops| - 1]) && u == Follow(order, s, ops)
    requires |t.frames| < |u.frames|
    ensures |u.frames| == |t.frames| + 1 && ResolvesAt(order, s, ops, |ops| - 1, |t.frames|, u.frames[|t.frames|])
  {
    FollowLastStep(order, s, ops, t, u);
    AdvanceOne(order, t, ops[|ops| - 1], u);
    AdvanceResolves(order, t, ops[|ops| - 1], u);
    assert ops[..|ops|] == ops;
  }

  /** Every frame was resolved in one of the steps. */
  lemma {:induction false} ResolvedBy(order: ByteOrder, s: State, ops: seq<Op>, k: nat, frames: seq<Frame>)
    returns (n: nat)
    requires Inv(s) && frames == Follow(order, s, ops).frames && k < |frames|
    ensures n < |ops| && ResolvesAt(order, s, ops, n, k, frames[k])
    decreases |ops|
  {
    if ops == [] {
      assert false;
    } else {
      var m := |ops| - 1;
      var t, u := Follow(order, s, ops[..m]), Follow(order, s, ops);
      FollowLastStep(order, s, ops, t, u);
      if k < |t.frames| {
        n := ResolvedBy(order, s, ops[..m], k, t.frames);
        ResolvedEarlier(order, s, ops, m, n, k, frames[k]);
      } else {
        n := m;
        ResolvedLast(order, s, ops, t, u);
      }
    }
  }

  /** The client waits for the frame f in this state, and the step does not come too late for it. */
  ghost predicate Awaits(s: State, op: Op, f: Frame, p: Pending) {
    op.Recv? && s.pending == Some(p) && op.recv.now < p.deadline && p.wireId == f.transaction
  }

  /** A frame that is resolved while its transaction is pending completes it, over any run: the log holds
      what the judgement of the frame copies, directly followed by the completion. */
  lemma ResolvedCompletes(order: ByteOrder, s: State, ops: seq<Op>, n: nat, k: nat, p: Pending, f: Frame, mem: Memory)
    requires Inv(s) && n < |ops| && ResolvesAt(order, s, ops, n, k, f)
    requires var u := Follow(order, s, ops[..n]).state; Awaits(u, ops[n], f, p) && mem == Content(ops[n].memory, u)
    ensures TxOk(p.tx) && |mem| == p.tx.size && |f.payload| >= 2
    ensures var j := Check(order, p.tx.req, f.unit, f.payload, mem);
            Follow(order, s, ops[..n]).state.log + Writes(p, f.payload, j) + [Completed(p.tx.id, j.result)]
            <= Follow(order, s, ops).state.log
  {
    var t, u := Follow(order, s, ops[..n]), Follow(order, s, ops[..n + 1]);
    assert ops[..n + 1][..n] == ops[..n];
    FollowLastStep(order, s, ops[..n + 1], t, u);
    AdvanceCompletes(order, t, ops[n], u, p, f, mem);
    FollowGrows(order, s, ops, n + 1);
  }

  lemma AdvanceCompletes(order: ByteOrder, t: Track, op: Op, u: Track, p: Pending, f: Frame, mem: Memory)
    requires Inv(t.state) && u == Advance(order, t, op) && Resolves(t, op, f) && u.state.connected
    requires Awaits(t.state, op, f, p) && mem == Content(op.memory, t.state)
    ensures TxOk(p.tx) && |mem| == p.tx.size && |f.payload| >= 2
    ensures var j := Check(order, p.tx.req, f.unit, f.payload, mem);
            t.state.log + Writes(p, f.payload, j) + [Completed(p.tx.id, j.result)] <= u.state.log
  {
    StepCompletes(order, t.state, op.recv, p, f, mem);
  }

  lemma StepCompletes(order: ByteOrder, s: State, e: RecvEnv, p: Pending, f: Frame, mem: Memory)
    requires Inv(s) && s.connected && MemOk(s, mem) && RecvHook(order, s, mem, e).state.connected
    requires Resolved(s.rx, e) == Some(f)
    requires s.pending == Some(p) && e.now < p.deadline && p.wireId == f.transaction
    ensures TxOk(p.tx) && |mem| == p.tx.size && |f.payload| >= 2
    ensures var j := Check(order, p.tx.req, f.unit, f.payload, mem);
            s.log + Writes(p, f.payload, j) + [Completed(p.tx.id, j.result)] <= RecvHook(order, s, mem, e).state.log
  {
    HookTakes(order, s, mem, e);
    var j := Check(order, p.tx.req, f.unit, f.payload, mem);
    var t := s.(rx := NO_RX, log := s.log + Writes(p, f.payload, j));
    ClientLog.CallsGrow(Log(t.(pending := None), Completed(p.tx.id, j.result)), e.calls(1));
  }
}
