/** Whole conversations over the wire: any number of requests that the client sends, whatever pieces they
    arrive in, and the replies that the server sends, whatever pieces these arrive in. */
module ModbusRoundTrip {
  import opened Bytes
  import opened ModbusCommon
  import opened ModbusRules
  import opened ModbusEndToEnd
  import SF = ServerFraming
  import CF = ClientFraming
  import CR = ClientRules
  import CS = ClientSafety
  import CA = ClientAnswers
  import ClientRuns
  import Sending

  // ---- The requests ----

  /** An accepted request of a caller, with its buffer, and the transaction ID that it was sent with. */
  datatype AnyAsked = Asked(transaction: Word, q: Request, mem: Memory)

  type Asked = a: AnyAsked | Fits(a.q, a.mem) && Accepts(a.q, a.mem)
    witness Asked(0, Request(0, READ_HOLDING_REGISTERS, 0, 1), [0, 0])

  /** A frame that the server dispatches. */
  type WellFormed = f: Frame | 5 <= |f.payload| <= MAX_PAYLOAD_LENGTH && !SF.Rejected(f)
    witness Frame(0, 0, [READ_HOLDING_REGISTERS, 0, 0, 0, 1])

  function FrameOf(oc: ByteOrder, a: Asked): WellFormed {
    AskingWellFormed(oc, Host, a);
    Frame(a.transaction, a.q.unit, RequestPayload(oc, a.q, a.mem))
  }

  lemma AskingWellFormed(oc: ByteOrder, os: ByteOrder, a: Asked)
    ensures var f := Frame(a.transaction, a.q.unit, RequestPayload(oc, a.q, a.mem));
            && 5 <= |f.payload| <= MAX_PAYLOAD_LENGTH && !SF.Rejected(f)
            && Judge(os, f.unit, f.payload).Ask? && Conveys(oc, a.q, a.mem, os, Judge(os, f.unit, f.payload).call)
  {
    RequestReachesCallback(oc, os, a.q, a.mem);
    SF.RejectionIgnoresOrder(os, Frame(a.transaction, a.q.unit, RequestPayload(oc, a.q, a.mem)));
  }

  /** The frames of requests sent one after the other. */
  function Frames(oc: ByteOrder, asked: seq<Asked>): (fs: seq<WellFormed>)
    ensures |fs| == |asked| && forall k :: 0 <= k < |fs| ==> fs[k] == FrameOf(oc, asked[k])
  {
    seq(|asked|, k requires 0 <= k < |asked| => FrameOf(oc, asked[k]))
  }

  // ---- What the server makes of them ----

  /** The answer of the callback in a turn that asks it. */
  function AnswerOf(os: ByteOrder, t: SF.Turn): Answer
    requires Judge(os, t.frame.unit, t.frame.payload).Ask?
  {
    t.visit.handler(Judge(os, t.frame.unit, t.frame.payload).call)
  }

  /** A frame that the client can resolve. */
  type Reply = f: Frame | 2 <= |f.payload| <= MAX_PAYLOAD_LENGTH
    witness Frame(0, 0, [0, 0])

  function ReplyOf(os: ByteOrder, t: SF.Turn): Option<Reply> {
    match SF.Respond(os, t.frame, t.visit.handler)
    case Disconnect => None
    case Done(_, reply) => reply
  }

  /** In this turn the callback is asked what the caller asked, and the reply tells the caller, under
      its own transaction ID, what the callback answered; there is none for a forced timeout. */
  ghost predicate Answered(oc: ByteOrder, os: ByteOrder, a: Asked, t: SF.Turn) {
    && t.frame == FrameOf(oc, a)
    && var v := Judge(os, t.frame.unit, t.frame.payload);
    && v.Ask? && Conveys(oc, a.q, a.mem, os, v.call) && |AnswerOf(os, t).data| == ReadBytes(a.q.fc, a.q.count)
    && match ReplyOf(os, t)
       case None => AnswerOf(os, t).code == FORCE_TIMEOUT
       case Some(r) =>
         && AnswerOf(os, t).code != FORCE_TIMEOUT && r.transaction == a.transaction
         && Delivers(oc, a.q, a.mem, os, AnswerOf(os, t), Check(oc, a.q, r.unit, r.payload, a.mem))
  }

  lemma TurnAnswers(oc: ByteOrder, os: ByteOrder, a: Asked, t: SF.Turn)
    requires t.frame == FrameOf(oc, a)
    ensures Answered(oc, os, a, t)
  {
    AskingWellFormed(oc, os, a);
    AnswerFits(oc, os, a.q, a.mem, Judge(os, t.frame.unit, t.frame.payload).call, AnswerOf(os, t));
    Exchange(oc, os, a.transaction, a.q, a.mem, AnswerOf(os, t));
  }

  /** What a callback fills for the question is what the request reads. */
  lemma AnswerFits(oc: ByteOrder, os: ByteOrder, q: Request, mem: Memory, call: Call, a: Answer)
    requires Fits(q, mem) && CountInRange(q.fc, q.count) && Conveys(oc, q, mem, os, call) && Filled(call, a)
    ensures |a.data| == ReadBytes(q.fc, q.count)
  {
  }

  lemma {:induction false} FramesCounted(turns: seq<SF.Turn>, k: nat)
    ensures |SF.FramesOf(turns)| == |turns| && (k < |turns| ==> SF.FramesOf(turns)[k] == turns[k].frame)
  {
    if turns == [] {
    } else {
      FramesCounted(turns[..|turns| - 1], k);
    }
  }

  /** A server connection that has taken the bytes of any number of requests, in any pieces and over any
      number of visits, has dispatched exactly these, one in each of its turns, and has answered each. */
  lemma RequestsCross(oc: ByteOrder, os: ByteOrder, asked: seq<Asked>, visits: seq<SF.Visit>)
    requires SF.Run(os, visits).took == SF.Stream(Frames(oc, asked))
    ensures SF.Run(os, visits).frames == Frames(oc, asked)
    ensures var turns := SF.Turns(os, visits);
            && |turns| == |asked| && SF.Run(os, visits).acts == SF.AllActs(os, turns)
            && forall k :: 0 <= k < |turns| ==> Answered(oc, os, asked[k], turns[k]) && turns[k].visit in visits
  {
    var turns := SF.Turns(os, visits);
    SF.StreamDispatched(os, visits, Frames(oc, asked));
    SF.RunTurns(os, visits);
    FramesCounted(turns, 0);
    forall k | 0 <= k < |turns|
      ensures Answered(oc, os, asked[k], turns[k]) && turns[k].visit in visits
    {
      FramesCounted(turns, k);
      TurnAnswers(oc, os, asked[k], turns[k]);
      SF.TurnVisit(os, visits, k);
    }
  }

  // ---- The replies ----

  /** The bytes that a connection has sent. */
  function Output(acts: seq<SF.Act>): Memory {
    if acts == [] then []
    else Output(acts[..|acts| - 1]) + if acts[|acts| - 1].Sends? then acts[|acts| - 1].bytes else []
  }

  lemma {:induction false} OutputTwice(a: seq<SF.Act>, b: seq<SF.Act>)
    ensures Output(a + b) == Output(a) + Output(b)
    decreases |b|
  {
    if b == [] {
      assert a + b == a;
    } else {
      var front, last := b[..|b| - 1], b[|b| - 1];
      OutputTwice(a, front);
      OutputLast(a + b, a + front, last);
      OutputLast(b, front, last);
      Regroup(Output(a), Output(front), BytesOf(last));
    }
  }

  function BytesOf(act: SF.Act): Memory { if act.Sends? then act.bytes else [] }

  lemma OutputLast(acts: seq<SF.Act>, front: seq<SF.Act>, last: SF.Act)
    requires acts == front + [last]
    ensures Output(acts) == Output(front) + BytesOf(last)
  {
    assert acts[..|front|] == front;
  }

  /** As much of the reply of a turn as its send loop got rid of. */
  function Out(os: ByteOrder, t: SF.Turn): Memory {
    match ReplyOf(os, t)
    case None => []
    case Some(r) => FrameBytes(r)[..Sending.SendAll(|FrameBytes(r)|, t.visit.sends).offset]
  }

  lemma OutputOfTurn(os: ByteOrder, t: SF.Turn)
    ensures Output(SF.TurnActs(os, t)) == Out(os, t)
  {
    match SF.Respond(os, t.frame, t.visit.handler)
    case Disconnect =>
    case Done(call, reply) =>
      assert SF.TurnActs(os, t) == SF.ActsOf(call, Out(os, t));
      OutputOfActs(call, Out(os, t));
  }

  lemma OutputOfActs(call: Option<Call>, sent: Memory)
    ensures Output(SF.ActsOf(call, sent)) == sent
  {
    var asks := if call.Some? then [SF.Asks(call.value)] else [];
    assert Output(asks) == [] by {
      if call.Some? { assert asks[..0] == []; }
    }
    if sent != [] {
      var acts := asks + [SF.Sends(sent)];
      assert acts[..|asks|] == asks && [] + sent == sent;
    } else {
      assert asks + [] == asks;
    }
  }

  function OwnReply(os: ByteOrder, t: SF.Turn): seq<Reply> {
    match ReplyOf(os, t)
    case None => []
    case Some(r) => [r]
  }

  /** The replies of some turns, in order. */
  function Replies(os: ByteOrder, turns: seq<SF.Turn>): seq<Reply> {
    if turns == [] then []
    else Replies(os, turns[..|turns| - 1]) + OwnReply(os, turns[|turns| - 1])
  }

  /** The whole reply of the turn went out. */
  predicate WentOut(os: ByteOrder, t: SF.Turn) {
    ReplyOf(os, t).Some? ==> Out(os, t) == FrameBytes(ReplyOf(os, t).value)
  }

  /** How many turns there are before the first one that did not get rid of its whole reply. */
  function Unbroken(os: ByteOrder, turns: seq<SF.Turn>): (m: nat)
    ensures m <= |turns|
    ensures m < |turns| ==> !WentOut(os, turns[m])
  {
    if turns == [] then 0
    else
      var n := |turns| - 1;
      var m := Unbroken(os, turns[..n]);
      if m == n && WentOut(os, turns[n]) then n + 1 else m
  }

  lemma {:induction false} StreamOne(fs: seq<Reply>, f: Reply)
    ensures SF.Stream(fs + [f]) == SF.Stream(fs) + FrameBytes(f)
  {
    if fs == [] {
      assert [f][1..] == [] && [] + [f] == [f];
    } else {
      var first, rest := fs[0], fs[1..];
      StreamOne(rest, f);
      assert fs + [f] == [first] + (rest + [f]);
      StreamFirst(first, rest + [f]);
      Regroup(FrameBytes(first), SF.Stream(rest), FrameBytes(f));
    }
  }

  lemma StreamFirst(f: Reply, rest: seq<Reply>)
    ensures SF.Stream([f] + rest) == FrameBytes(f) + SF.Stream(rest)
  {
    assert ([f] + rest)[1..] == rest;
  }

  /** What went out behind the replies of the first m turns: nothing, or as much as the only other turn
      got rid of. */
  ghost predicate Behind(os: ByteOrder, turns: seq<SF.Turn>, m: nat, tail: Memory)
    requires m <= |turns|
  {
    (m == |turns| ==> tail == []) && (m + 1 == |turns| ==> tail == Out(os, turns[m]))
  }

  /** The output of some turns: what went out with the replies of the first m of them, and a tail. */
  ghost predicate Splits(os: ByteOrder, turns: seq<SF.Turn>, m: nat, sent: Memory, output: Memory, tail: Memory)
    requires m <= |turns|
  {
    sent == SF.Stream(Replies(os, turns[..m])) && output == sent + tail && Behind(os, turns, m, tail)
  }

  lemma Regroup(a: Memory, b: Memory, c: Memory)
    ensures a + b + c == a + (b + c)
  {
  }

  lemma PrefixOfPrefix(turns: seq<SF.Turn>, n: nat, m: nat)
    requires m <= n <= |turns|
    ensures turns[..n][..m] == turns[..m]
  {
  }

  lemma UnbrokenGrows(os: ByteOrder, turns: seq<SF.Turn>, output: Memory, before: Memory)
    requires turns != [] && Splits(os, turns[..|turns| - 1], |turns| - 1, output, output, before)
    requires WentOut(os, turns[|turns| - 1])
    ensures var out := Out(os, turns[|turns| - 1]); Splits(os, turns, |turns|, output + out, output + out, [])
  {
    var n := |turns| - 1;
    PrefixOfPrefix(turns, n, n);
    assert turns[..n + 1] == turns && OwnReply(os, turns[n]) == [] ==> Replies(os, turns) == Replies(os, turns[..n]);
    if ReplyOf(os, turns[n]).Some? { StreamOne(Replies(os, turns[..n]), ReplyOf(os, turns[n]).value); }
  }

  lemma TailGrows(os: ByteOrder, turns: seq<SF.Turn>, m: nat, before: Memory, out: Memory)
    requires turns != [] && m < |turns| && Behind(os, turns[..|turns| - 1], m, before)
    requires out == Out(os, turns[|turns| - 1])
    ensures Behind(os, turns, m, before + out)
  {
    assert [] + out == out;
  }

  lemma BrokenGrows(os: ByteOrder, turns: seq<SF.Turn>, m: nat, sent: Memory, output: Memory, before: Memory,
                    out: Memory)
    requires turns != [] && m < |turns| && Splits(os, turns[..|turns| - 1], m, sent, output, before)
    requires Behind(os, turns, m, before + out)
    ensures Splits(os, turns, m, sent, output + out, before + out)
  {
    PrefixOfPrefix(turns, |turns| - 1, m);
    Regroup(sent, before, out);
  }

  /** What a server sends starts with the stream of the replies that went out before the first broken
      one, which may follow in part. */
  lemma {:induction false} OutputStarts(os: ByteOrder, turns: seq<SF.Turn>)
    returns (sent: Memory, tail: Memory)
    ensures Splits(os, turns, Unbroken(os, turns), sent, Output(SF.AllActs(os, turns)), tail)
  {
    if turns == [] {
      sent, tail := [], [];
    } else {
      var n := |turns| - 1;
      var m, output, out := Unbroken(os, turns[..n]), Output(SF.AllActs(os, turns[..n])), Out(os, turns[n]);
      sent, tail := OutputStarts(os, turns[..n]);
      OutputTwice(SF.AllActs(os, turns[..n]), SF.TurnActs(os, turns[n]));
      OutputOfTurn(os, turns[n]);
      if m == n && WentOut(os, turns[n]) {
        assert output == sent + tail == sent;
        UnbrokenGrows(os, turns, output, tail);
        sent, tail := output + out, [];
      } else {
        TailGrows(os, turns, m, tail, out);
        BrokenGrows(os, turns, m, sent, output, tail, out);
        tail := tail + out;
      }
    }
  }

  // ---- What the client makes of them ----

  /** Replies back to back parse to themselves, followed by what comes after them. */
  lemma {:induction false} RepliesParse(fs: seq<Reply>, t: Memory)
    ensures CF.Parse(SF.Stream(fs) + t) == CF.After(fs, CF.Parse(t))
  {
    if fs == [] {
      assert SF.Stream(fs) + t == t && fs + CF.Parse(t).frames == CF.Parse(t).frames;
    } else {
      RepliesParse(fs[1..], t);
      FirstParses(fs, SF.Stream(fs[1..]), t, CF.Parse(t));
    }
  }

  lemma FirstParses(fs: seq<Reply>, stream: Memory, t: Memory, p: CF.Parsed)
    requires fs != [] && CF.Parse(stream + t) == CF.After(fs[1..], p)
    ensures CF.Parse(FrameBytes(fs[0]) + stream + t) == CF.After(fs, p)
  {
    Regroup(FrameBytes(fs[0]), stream, t);
    ReplyParses(fs[0], stream + t);
    AfterFirst(fs, p);
  }

  lemma AfterFirst(fs: seq<Reply>, p: CF.Parsed)
    requires fs != []
    ensures CF.After([fs[0]], CF.After(fs[1..], p)) == CF.After(fs, p)
  {
    assert [fs[0]] + (fs[1..] + p.frames) == fs + p.frames;
  }

  lemma ReplyParses(f: Reply, t: Memory)
    ensures CF.Parse(FrameBytes(f) + t) == CF.After([f], CF.Parse(t))
  {
    var m := FrameBytes(f);
    HeaderFields(f);
    assert m[..HEADER_LENGTH] == Header(f) && m[HEADER_LENGTH..] == f.payload;
    CF.ParseFrame(m, t);
  }

  /** A part of a response holds no frame. */
  lemma PartHasNoFrame(reply: Reply, n: nat)
    requires n < |FrameBytes(reply)|
    ensures CF.Parse(FrameBytes(reply)[..n]).frames == []
  {
    var m := FrameBytes(reply)[..n];
    HeaderFields(reply);
    if n >= HEADER_LENGTH {
      assert m[..HEADER_LENGTH] == Header(reply);
    }
  }

  lemma BrokenTail(os: ByteOrder, t: SF.Turn)
    requires !WentOut(os, t)
    ensures CF.Parse(Out(os, t)).frames == []
  {
    var r := ReplyOf(os, t).value;
    var n := Sending.SendAll(|FrameBytes(r)|, t.visit.sends).offset;
    assert FrameBytes(r)[..|FrameBytes(r)|] == FrameBytes(r);
    PartHasNoFrame(r, n);
  }

  /** What a client has, resolved or still in its receive buffer. */
  ghost function Received(t: CF.Track): seq<Frame> { t.frames + CF.Parse(CF.Held(t.state.rx)).frames }

  /** The frames in what a server sends. */
  lemma OutputParses(os: ByteOrder, turns: seq<SF.Turn>, output: Memory)
    requires output == Output(SF.AllActs(os, turns))
    ensures var m := Unbroken(os, turns);
            var sent := Replies(os, turns[..m]);
            sent <= CF.Parse(output).frames && (|turns| <= m + 1 ==> CF.Parse(output).frames == sent)
  {
    var m := Unbroken(os, turns);
    var _, tail := OutputStarts(os, turns);
    RepliesParse(Replies(os, turns[..m]), tail);
    if m + 1 == |turns| { BrokenTail(os, turns[m]); }
  }

  /** A server connection that has taken the bytes of these requests, and a client connection that has
      taken the bytes that it sent, both in any pieces. */
  ghost predicate Connects(oc: ByteOrder, os: ByteOrder, asked: seq<Asked>, visits: seq<SF.Visit>,
                           s: CR.State, ops: seq<CS.Op>)
    requires ClientRuns.Inv(s)
  {
    && SF.Run(os, visits).took == SF.Stream(Frames(oc, asked))
    && s.rx == CR.NO_RX && CF.Undisturbed(oc, s, ops)
    && CF.Follow(oc, s, ops).took == Output(SF.Run(os, visits).acts)
  }

  /** A whole conversation: a server takes the bytes of any number of requests, in any pieces; the client
      takes the bytes that the server sends, in any pieces.  Each request has its turn, in which the
      callback is asked what its caller asked.  The client has, in this order, the replies of all turns
      before the first that did not get rid of its whole reply, and nothing else if that is the last. */
  lemma Conversation(oc: ByteOrder, os: ByteOrder, asked: seq<Asked>, visits: seq<SF.Visit>,
                     s: CR.State, ops: seq<CS.Op>)
    requires ClientRuns.Inv(s) && Connects(oc, os, asked, visits, s, ops)
    ensures var turns, got := SF.Turns(os, visits), Received(CF.Follow(oc, s, ops));
            var m := Unbroken(os, turns);
            && |turns| == |asked| && (forall k :: 0 <= k < |turns| ==> Answered(oc, os, asked[k], turns[k]))
            && Replies(os, turns[..m]) <= got && (|turns| <= m + 1 ==> got == Replies(os, turns[..m]))
  {
    RequestsCross(oc, os, asked, visits);
    CF.RunIsParse(oc, s, ops);
    OutputParses(os, SF.Turns(os, visits), CF.Follow(oc, s, ops).took);
  }

  /** The request is pending in this state, under its transaction ID and with its buffer untouched, and
      the step does not come too late for its reply. */
  ghost predicate Waits(s: CR.State, op: CS.Op, a: Asked, p: CR.Pending) {
    && op.Recv? && s.pending == Some(p) && op.recv.now < p.deadline
    && p.wireId == a.transaction && p.tx.req == a.q && CS.Content(op.memory, s) == a.mem
  }

  /** What the caller of a request gets: after so many entries of the log, what its reply writes to the
      buffer and, directly behind it, the completion with the code that the callback answered. */
  ghost predicate Completes(oc: ByteOrder, a: Asked, code: Byte, r: Reply, p: CR.Pending,
                            before: seq<CR.Event>, log: seq<CR.Event>)
  {
    var j := Check(oc, a.q, r.unit, r.payload, a.mem);
    j.result == code && before + CR.Writes(p, r.payload, j) + [CR.Completed(p.tx.id, code)] <= log
  }

  /** Over the run of the client in a conversation, every reply that it has resolved was resolved in one of
      its steps; if the request was still pending in this step, it was completed there with the code
      that the callback of the server answered. */
  lemma AnswersComplete(oc: ByteOrder, os: ByteOrder, asked: seq<Asked>, visits: seq<SF.Visit>,
                        s: CR.State, ops: seq<CS.Op>, k: nat, p: CR.Pending)
    returns (n: nat)
    requires ClientRuns.Inv(s) && Connects(oc, os, asked, visits, s, ops)
    requires k < Unbroken(os, SF.Turns(os, visits)) && ReplyOf(os, SF.Turns(os, visits)[k]).Some?
    requires |Replies(os, SF.Turns(os, visits)[..k])| < |CF.Follow(oc, s, ops).frames|
    ensures n < |ops| && k < |asked|
    ensures var t, r := SF.Turns(os, visits)[k], ReplyOf(os, SF.Turns(os, visits)[k]).value;
            && Answered(oc, os, asked[k], t)
            && CA.ResolvesAt(oc, s, ops, n, |Replies(os, SF.Turns(os, visits)[..k])|, r)
            && (Waits(CF.Follow(oc, s, ops[..n]).state, ops[n], asked[k], p) ==>
                  Completes(oc, asked[k], AnswerOf(os, t).code, r, p, CF.Follow(oc, s, ops[..n]).state.log,
                            CF.Follow(oc, s, ops).state.log))
  {
    var turns, t := SF.Turns(os, visits), CF.Follow(oc, s, ops);
    var i, r := |Replies(os, turns[..k])|, ReplyOf(os, turns[k]).value;
    Conversation(oc, os, asked, visits, s, ops);
    ReceivedAt(os, turns, k, Received(t), r);
    n := CA.ResolvedBy(oc, s, ops, i, t.frames);
    assert t.frames[i] == Received(t)[i];
    if Waits(CF.Follow(oc, s, ops[..n]).state, ops[n], asked[k], p) {
      AnswerCompletes(oc, os, asked[k], turns[k], s, ops, n, i, p, r);
    }
  }

  lemma AnswerCompletes(oc: ByteOrder, os: ByteOrder, a: Asked, t: SF.Turn,
                        s: CR.State, ops: seq<CS.Op>, n: nat, i: nat, p: CR.Pending, r: Reply)
    requires Answered(oc, os, a, t) && ReplyOf(os, t) == Some(r)
    requires ClientRuns.Inv(s) && n < |ops| && CA.ResolvesAt(oc, s, ops, n, i, r)
    requires Waits(CF.Follow(oc, s, ops[..n]).state, ops[n], a, p)
    ensures Completes(oc, a, AnswerOf(os, t).code, r, p, CF.Follow(oc, s, ops[..n]).state.log,
                      CF.Follow(oc, s, ops).state.log)
  {
    CA.ResolvedCompletes(oc, s, ops, n, i, p, r, a.mem);
  }

  lemma RepliesGrow(os: ByteOrder, turns: seq<SF.Turn>, m: nat, before: seq<Reply>, more: seq<Reply>)
    requires 0 < m <= |turns| && before == Replies(os, turns[..m - 1]) && more == Replies(os, turns[..m])
    ensures more == before + OwnReply(os, turns[m - 1])
  {
    PrefixOfPrefix(turns, m, m - 1);
  }

  lemma {:induction false} RepliesPrefix(os: ByteOrder, turns: seq<SF.Turn>, k: nat)
    requires k <= |turns|
    ensures Replies(os, turns[..k]) <= Replies(os, turns)
    decreases |turns|
  {
    if k == |turns| {
      assert turns[..k] == turns;
    } else {
      PrefixOfPrefix(turns, |turns| - 1, k);
      RepliesPrefix(os, turns[..|turns| - 1], k);
    }
  }

  lemma EarlierReplies(os: ByteOrder, turns: seq<SF.Turn>, k: nat, m: nat, with: seq<Reply>, all: seq<Reply>)
    requires k <= m <= |turns| && with == Replies(os, turns[..k]) && all == Replies(os, turns[..m])
    ensures with <= all
  {
    PrefixOfPrefix(turns, m, k);
    RepliesPrefix(os, turns[..m], k);
  }

  lemma NextInFront(before: seq<Reply>, r: Reply, all: seq<Reply>, got: seq<Frame>)
    requires before + [r] <= all <= got
    ensures |before| < |got| && got[|before|] == r
  {
    assert (before + [r])[|before|] == r;
  }

  lemma ReceivedAt(os: ByteOrder, turns: seq<SF.Turn>, k: nat, got: seq<Frame>, r: Reply)
    requires k < Unbroken(os, turns) && ReplyOf(os, turns[k]) == Some(r)
    requires Replies(os, turns[..Unbroken(os, turns)]) <= got
    ensures |Replies(os, turns[..k])| < |got| && got[|Replies(os, turns[..k])|] == r
  {
    var m := Unbroken(os, turns);
    var before, with, all := Replies(os, turns[..k]), Replies(os, turns[..k + 1]), Replies(os, turns[..m]);
    RepliesGrow(os, turns, k + 1, before, with);
    EarlierReplies(os, turns, k + 1, m, with, all);
    NextInFront(before, r, all, got);
  }
}
