/** Framing of the RCT Power protocol: byte stuffing, the decoder that resynchronises on start
    bytes, and exactly which messages survive the two. */
module RctFraming {
  import opened Bytes

  const PLUS: Byte := 0x2B
  const MINUS: Byte := 0x2D
  const MESSAGE_LENGTH: nat := 12

  predicate Special(b: Byte) { b == PLUS || b == MINUS }

  // ---- Sender ----

  function Escape(m: Memory): Memory {
    if m == [] then [] else (if Special(m[0]) then [MINUS, m[0]] else [m[0]]) + Escape(m[1..])
  }

  function Framed(m: Memory): Memory { [PLUS] + Escape(m) }

  // ---- Decoder ----

  /** The decoder between two bytes. */
  datatype Decoder = Decoder(waiting: bool, last: Byte, response: Memory)

  /** What a response has to start with: command 5, length 8. */
  predicate Plausible(r: Memory) {
    (|r| >= 1 ==> r[0] == 5) && (|r| >= 2 ==> r[1] == 8)
  }

  predicate Sane(d: Decoder) {
    |d.response| < MESSAGE_LENGTH && Plausible(d.response) && (d.waiting ==> d.response == [])
  }

  /** What a byte makes of the response collected so far, before it is looked at. */
  function Collect(d: Decoder, b: Byte): Decoder {
    if d.waiting then d.(waiting := !(b == PLUS && d.last != MINUS))
    else if b == PLUS then
      if d.last == MINUS then d.(response := d.response + [b]) else d.(response := [])
    else if b == MINUS then
      if d.last == MINUS then d.(response := d.response + [b]) else d
    else d.(response := d.response + [b])
  }

  /** Drops a response with an unexpected command or length. */
  function Inspect(d: Decoder): Decoder {
    if |d.response| == 1 && d.response[0] != 5 then d.(waiting := true, response := [])
    else if |d.response| == 2 && d.response[1] != 8 then d.(waiting := true, response := [])
    else d
  }

  function Receive(d: Decoder, b: Byte): Decoder { Inspect(Collect(d, b).(last := b)) }

  /** A complete response is taken out. */
  function Deliver(d: Decoder): Decoder { d.(waiting := true, response := []) }

  datatype Decoded = Decoded(decoder: Decoder, messages: seq<Memory>)

  function Decode(d: Decoder, s: Memory): Decoded
    decreases |s|
  {
    if s == [] then Decoded(d, [])
    else
      var e := Receive(d, s[0]);
      if |e.response| >= MESSAGE_LENGTH then
        var r := Decode(Deliver(e), s[1..]);
        r.(messages := [e.response] + r.messages)
      else Decode(e, s[1..])
  }

  // ---- What the decoder takes from stuffed bytes ----

  /** Every start byte is escaped. */
  predicate Stuffed(last: Byte, s: Memory)
    decreases |s|
  {
    s == [] || ((s[0] == PLUS ==> last == MINUS) && Stuffed(s[0], s[1..]))
  }

  /** The bytes that the receiving decoder takes from stuffed ones. */
  function Taken(last: Byte, s: Memory): Memory
    decreases |s|
  {
    if s == [] then []
    else (if s[0] == MINUS && last != MINUS then [] else [s[0]]) + Taken(s[0], s[1..])
  }

  function LastOf(last: Byte, s: Memory): Byte { if s == [] then last else s[|s| - 1] }

  lemma {:induction false} DecodeSplits(d: Decoder, a: Memory, b: Memory)
    ensures var r := Decode(d, a);
            Decode(d, a + b) == Decoded(Decode(r.decoder, b).decoder, r.messages + Decode(r.decoder, b).messages)
    decreases |a|
  {
    if a == [] {
      assert a + b == b;
    } else {
      assert (a + b)[1..] == a[1..] + b;
      var e := Receive(d, a[0]);
      DecodeSplits(if |e.response| >= MESSAGE_LENGTH then Deliver(e) else e, a[1..], b);
    }
  }

  /** While it waits for a start byte, the decoder takes nothing from stuffed bytes. */
  lemma {:induction false} WaitingTakesNothing(d: Decoder, s: Memory)
    requires d.waiting && d.response == [] && Stuffed(d.last, s)
    ensures Decode(d, s) == Decoded(d.(last := LastOf(d.last, s)), [])
    decreases |s|
  {
    if s == [] {
    } else {
      WaitingTakesNothing(d.(last := s[0]), s[1..]);
    }
  }

  /** One stuffed byte for a receiving decoder: it collects the byte, unless it escapes the next one. */
  lemma CollectsOne(d: Decoder, b: Byte, r: Memory)
    requires !d.waiting && (b == PLUS ==> d.last == MINUS)
    requires r == d.response + (if b == MINUS && d.last != MINUS then [] else [b]) && Plausible(r)
    ensures Receive(d, b) == Decoder(false, b, r)
  {
    assert d.response + [] == d.response;
  }

  /** What a receiving decoder makes of stuffed bytes, if `all` is what it has with them. */
  function Collected(last: Byte, all: Memory): Decoded {
    if |all| < MESSAGE_LENGTH then Decoded(Decoder(false, last, all), [])
    else Decoded(Decoder(true, last, []), [all[..MESSAGE_LENGTH]])
  }

  /** A receiving decoder collects what is taken until the message is complete. */
  lemma {:induction false} ReceivingCollects(d: Decoder, s: Memory, all: Memory)
    requires !d.waiting && |d.response| < MESSAGE_LENGTH && Stuffed(d.last, s)
    requires all == d.response + Taken(d.last, s) && Plausible(all)
    ensures Decode(d, s) == Collected(LastOf(d.last, s), all)
    decreases |s|
  {
    if s == [] {
      assert all == d.response;
    } else {
      var r := d.response + if s[0] == MINUS && d.last != MINUS then [] else [s[0]];
      var rest := Taken(s[0], s[1..]);
      assert all == r + rest;
      assert forall i :: 0 <= i < |r| ==> r[i] == all[i];
      CollectsOne(d, s[0], r);
      ReceivingMore(d, s, Decoder(false, s[0], r), all, rest);
      if |r| < MESSAGE_LENGTH {
        ReceivingCollects(Decoder(false, s[0], r), s[1..], all);
      }
    }
  }

  /** The step from the first stuffed byte to the others. */
  lemma ReceivingMore(d: Decoder, s: Memory, e: Decoder, all: Memory, rest: Memory)
    requires s != [] && Stuffed(d.last, s) && Receive(d, s[0]) == e && e.last == s[0] && all == e.response + rest
    requires |e.response| <= MESSAGE_LENGTH
    ensures if |e.response| < MESSAGE_LENGTH then Decode(d, s) == Decode(e, s[1..])
            else Decode(d, s) == Collected(LastOf(d.last, s), all)
    ensures LastOf(d.last, s) == LastOf(s[0], s[1..])
  {
    if |e.response| == MESSAGE_LENGTH {
      assert all[..MESSAGE_LENGTH] == e.response;
      WaitingTakesNothing(Deliver(e), s[1..]);
    }
  }

  // ---- What is taken from an escaped message ----

  /** The same, in terms of the message: after a '-' the escape of a special byte is taken too. */
  function Doubled(afterMinus: bool, m: Memory): (r: Memory)
    ensures |r| >= |m|
    decreases |m|
  {
    if m == [] then []
    else if Special(m[0]) && afterMinus then [MINUS, m[0]] + Doubled(m[0] == MINUS, m[1..])
    else [m[0]] + Doubled(m[0] == MINUS, m[1..])
  }

  lemma OneMore(last: Byte, b: Byte, s: Memory)
    ensures Stuffed(last, [b] + s) == ((b == PLUS ==> last == MINUS) && Stuffed(b, s))
    ensures Taken(last, [b] + s) == (if b == MINUS && last != MINUS then [] else [b]) + Taken(b, s)
    ensures LastOf(last, [b] + s) == LastOf(b, s)
  {
    assert ([b] + s)[1..] == s;
  }

  lemma TwoMore(last: Byte, b: Byte, s: Memory)
    requires Special(b)
    ensures Stuffed(last, [MINUS, b] + s) == Stuffed(b, s)
    ensures Taken(last, [MINUS, b] + s) == (if last == MINUS then [MINUS, b] else [b]) + Taken(b, s)
    ensures LastOf(last, [MINUS, b] + s) == LastOf(b, s)
  {
    assert [MINUS, b] + s == [MINUS] + ([b] + s);
    OneMore(last, MINUS, [b] + s);
    OneMore(MINUS, b, s);
    assert [MINUS] + ([b] + Taken(b, s)) == [MINUS, b] + Taken(b, s);
    assert [] + ([b] + Taken(b, s)) == [b] + Taken(b, s);
  }

  lemma {:induction false} EscapedTaken(last: Byte, m: Memory)
    ensures Stuffed(last, Escape(m)) && Taken(last, Escape(m)) == Doubled(last == MINUS, m)
    ensures LastOf(last, Escape(m)) == LastOf(last, m)
    decreases |m|
  {
    if m == [] {
    } else {
      EscapedTaken(m[0], m[1..]);
      if Special(m[0]) {
        assert Escape(m) == [MINUS, m[0]] + Escape(m[1..]);
        TwoMore(last, m[0], Escape(m[1..]));
      } else {
        assert Escape(m) == [m[0]] + Escape(m[1..]);
        OneMore(last, m[0], Escape(m[1..]));
      }
    }
  }

  ghost predicate AllMinus(m: Memory) { forall i :: 0 <= i < |m| ==> m[i] == MINUS }

  /** A special byte right after a '-' is only tolerable in a row of '-' that ends the message. */
  ghost predicate Tolerable(afterMinus: bool, m: Memory) {
    forall i :: 0 <= i < |m| && Risky(afterMinus, m, i) ==> AllMinus(m[i..])
  }

  predicate Risky(afterMinus: bool, m: Memory, i: nat)
    requires i < |m|
  {
    Special(m[i]) && (if i == 0 then afterMinus else m[i - 1] == MINUS)
  }

  lemma {:induction false} RowOfMinus(m: Memory)
    requires AllMinus(m)
    ensures AllMinus(Doubled(true, m))
  {
    if m == [] {
    } else {
      RowOfMinus(m[1..]);
    }
  }

  /** Once a '-' too many has been taken, only further '-' fit. */
  lemma {:induction false} OnlyMinusFits(extra: Memory, m: Memory)
    requires |extra| >= 1 && AllMinus(extra) && (extra + Doubled(true, m))[..|m|] == m
    ensures AllMinus(m)
    decreases |m|
  {
    if m == [] {
    } else {
      assert m[0] == MINUS;
      var longer := extra + [MINUS];
      assert (extra + Doubled(true, m))[1..] == longer + Doubled(true, m[1..]);
      assert m[1..] == (extra + Doubled(true, m))[..|m|][1..];
      assert (longer + Doubled(true, m[1..]))[..|m| - 1] == m[1..];
      OnlyMinusFits(longer, m[1..]);
    }
  }

  lemma TooManyFits(m: Memory, t: Memory)
    requires m != [] && Special(m[0]) && t == Doubled(m[0] == MINUS, m[1..]) && ([MINUS, m[0]] + t)[..|m|] == m
    ensures Tolerable(true, m)
  {
    assert m[0] == MINUS;
    assert ([MINUS, m[0]] + t)[..|m|][1..] == ([MINUS] + t)[..|m| - 1];
    OnlyMinusFits([MINUS], m[1..]);
    assert forall i :: 0 < i < |m| ==> m[i] == m[1..][i - 1];
  }

  lemma TolerableStep(afterMinus: bool, m: Memory)
    requires m != [] && !(Special(m[0]) && afterMinus)
    ensures Tolerable(afterMinus, m) <==> Tolerable(m[0] == MINUS, m[1..])
  {
    var t := m[1..];
    if Tolerable(afterMinus, m) {
      forall i | 0 <= i < |t| && Risky(m[0] == MINUS, t, i) ensures AllMinus(t[i..]) {
        assert Risky(afterMinus, m, i + 1);
        assert t[i..] == m[i + 1..];
      }
    }
    if Tolerable(m[0] == MINUS, t) {
      forall i | 0 <= i < |m| && Risky(afterMinus, m, i) ensures AllMinus(m[i..]) {
        assert Risky(m[0] == MINUS, t, i - 1);
        assert t[i - 1..] == m[i..];
      }
    }
  }

  /** The message comes out in front exactly when it is tolerable. */
  lemma {:induction false} TakenInFront(afterMinus: bool, m: Memory)
    ensures Doubled(afterMinus, m)[..|m|] == m <==> Tolerable(afterMinus, m)
    decreases |m|
  {
    if m == [] {
    } else if Special(m[0]) && afterMinus {
      var t := Doubled(m[0] == MINUS, m[1..]);
      if Doubled(afterMinus, m)[..|m|] == m {
        TooManyFits(m, t);
      }
      if Tolerable(afterMinus, m) {
        assert Risky(afterMinus, m, 0);
        assert m[0..] == m;
        RowOfMinus(m);
        assert Doubled(afterMinus, m)[..|m|] == m;
      }
    } else {
      var t := Doubled(m[0] == MINUS, m[1..]);
      TakenInFront(m[0] == MINUS, m[1..]);
      TolerableStep(afterMinus, m);
      assert ([m[0]] + t)[..|m|] == [m[0]] + t[..|m| - 1];
    }
  }

  // ---- Messages ----

  /** A response message. */
  predicate IsMessage(m: Memory) { |m| == MESSAGE_LENGTH && m[0] == 5 && m[1] == 8 }

  type Message = m: Memory | IsMessage(m)
    witness [5, 8, 0, 0, 0, 0, 0, 0, 0, 0, 0, 0]

  function End(m: Message): Byte { m[MESSAGE_LENGTH - 1] }

  /** What comes out of the frame of a message: the message, up to '-' that are taken too often. */
  function Copy(m: Message): (r: Memory)
    ensures |r| == MESSAGE_LENGTH
  {
    Doubled(false, m)[..MESSAGE_LENGTH]
  }

  /** The copy starts like a message, and is exact if and only if the message is tolerable. */
  lemma CopyExact(m: Message)
    ensures Copy(m) == m <==> Tolerable(false, m)
    ensures Plausible(Doubled(false, m))
  {
    TakenInFront(false, m);
    var t := m[1..];
    assert Doubled(false, m) == [m[0]] + Doubled(false, t);
    assert Doubled(false, t) == [t[0]] + Doubled(false, t[1..]);
  }

  /** From any state whose last byte is not '-', a frame yields one message. */
  lemma FrameYields(d: Decoder, m: Message)
    requires Sane(d) && d.last != MINUS
    ensures Decode(d, Framed(m)) == Decoded(Decoder(true, End(m), []), [Copy(m)])
  {
    StartByteTaken(d, Escape(m));
    EscapedTaken(PLUS, m);
    CopyExact(m);
    var taken := Doubled(false, m);
    assert [] + taken == taken;
    ReceivingCollects(Decoder(false, PLUS, []), Escape(m), taken);
  }

  /** A start byte that is not escaped begins a new response. */
  lemma StartByteTaken(d: Decoder, s: Memory)
    requires Sane(d) && d.last != MINUS
    ensures Decode(d, [PLUS] + s) == Decode(Decoder(false, PLUS, []), s)
  {
    assert Receive(d, PLUS) == Decoder(false, PLUS, []);
    assert ([PLUS] + s)[1..] == s;
  }

  /** From any state whose last byte is not '-', a framed message comes out as itself, and as the
      only one, if and only if it is tolerable. */
  lemma FrameDecodes(d: Decoder, m: Message)
    requires Sane(d) && d.last != MINUS
    ensures var r := Decode(d, Framed(m));
            && r.decoder == Decoder(true, End(m), [])
            && (r.messages == [m] <==> Tolerable(false, m))
  {
    FrameYields(d, m);
    CopyExact(m);
  }

  /** Behind a '-' the start byte counts as escaped, and the whole frame is lost. */
  lemma FrameLost(d: Decoder, m: Message)
    requires d.waiting && d.response == [] && d.last == MINUS
    ensures Decode(d, Framed(m)) == Decoded(Decoder(true, End(m), []), [])
  {
    assert Framed(m)[1..] == Escape(m);
    EscapedTaken(PLUS, m);
    WaitingTakesNothing(d, Framed(m));
  }

  /** A '-' and a '+' side by side in a message: the message does not come out. */
  lemma MinusPlusLost(d: Decoder)
    requires Sane(d) && d.last != MINUS
    ensures var m := [5, 8, 0, 0, 0, 0, MINUS, PLUS, 0, 0, 0, 0]; Decode(d, Framed(m)).messages != [m]
  {
    var m: Message := [5, 8, 0, 0, 0, 0, MINUS, PLUS, 0, 0, 0, 0];
    FrameDecodes(d, m);
    assert Risky(false, m, 7) && m[7..][0] == PLUS;
  }

  function FramedAll(ms: seq<Memory>): Memory {
    if ms == [] then [] else Framed(ms[0]) + FramedAll(ms[1..])
  }

  /** What comes out of a stream of frames behind a byte: the copies of the messages, except those
      behind a message (or a first byte) that ends in '-'. */
  function Survivors(last: Byte, ms: seq<Message>): (r: seq<Memory>)
    ensures |r| <= |ms|
    decreases |ms|
  {
    if ms == [] then []
    else (if last == MINUS then [] else [Copy(ms[0])]) + Survivors(End(ms[0]), ms[1..])
  }

  /** A decoder that a stream of frames can reach: the next '+' starts a frame, or is lost. */
  predicate Between(d: Decoder) { Sane(d) && (d.waiting || d.last != MINUS) }

  /** Back-to-back frames of any messages: exactly which messages come out, in order. */
  lemma {:induction false} StreamYields(d: Decoder, ms: seq<Message>)
    requires Between(d)
    ensures Decode(d, FramedAll(ms)).messages == Survivors(d.last, ms)
    decreases |ms|
  {
    if ms == [] {
      assert FramedAll(ms) == [];
    } else {
      if d.last == MINUS { FrameLost(d, ms[0]); } else { FrameYields(d, ms[0]); }
      DecodeSplits(d, Framed(ms[0]), FramedAll(ms[1..]));
      StreamYields(Decoder(true, End(ms[0]), []), ms[1..]);
    }
  }

  /** Every message is tolerable, and none but the last ends in '-'; nor does the byte in front. */
  ghost predicate AllSurvive(last: Byte, ms: seq<Message>)
  {
    && (ms != [] ==> last != MINUS)
    && (forall i :: 0 <= i < |ms| ==> Tolerable(false, ms[i]))
    && (forall i :: 0 <= i < |ms| - 1 ==> End(ms[i]) != MINUS)
  }

  lemma AllSurviveStep(last: Byte, ms: seq<Message>)
    requires ms != []
    ensures AllSurvive(last, ms) <==>
            last != MINUS && Tolerable(false, ms[0]) && AllSurvive(End(ms[0]), ms[1..])
  {
    var t := ms[1..];
    if AllSurvive(End(ms[0]), t) && Tolerable(false, ms[0]) {
      forall i | 0 <= i < |ms| ensures Tolerable(false, ms[i]) {
        if i > 0 { assert ms[i] == t[i - 1]; }
      }
      forall i | 0 <= i < |ms| - 1 ensures End(ms[i]) != MINUS {
        if i > 0 { assert ms[i] == t[i - 1]; }
      }
    }
    if AllSurvive(last, ms) {
      forall i | 0 <= i < |t| ensures Tolerable(false, t[i]) {
        assert t[i] == ms[i + 1];
      }
      forall i | 0 <= i < |t| - 1 ensures End(t[i]) != MINUS {
        assert t[i] == ms[i + 1];
      }
    }
  }

  lemma {:induction false} SurvivorsExact(last: Byte, ms: seq<Message>)
    ensures Survivors(last, ms) == ms <==> AllSurvive(last, ms)
    decreases |ms|
  {
    if ms == [] {
      assert AllSurvive(last, ms);
    } else {
      var after := Survivors(End(ms[0]), ms[1..]);
      AllSurviveStep(last, ms);
      SurvivorsExact(End(ms[0]), ms[1..]);
      CopyExact(ms[0]);
      if last != MINUS {
        assert ([Copy(ms[0])] + after)[1..] == after;
        assert [ms[0]] + ms[1..] == ms;
      }
    }
  }

  /** Back-to-back frames are all decoded, whatever the decoder saw before, if and only if every
      message is tolerable and no '-' comes right before one of the start bytes. */
  lemma StreamDecodes(d: Decoder, ms: seq<Message>)
    requires Between(d)
    ensures Decode(d, FramedAll(ms)).messages == ms <==> AllSurvive(d.last, ms)
  {
    StreamYields(d, ms);
    SurvivorsExact(d.last, ms);
  }

  /** No '-' is directly followed by a special byte, nor does the message end in one. */
  predicate Clean(m: Message) {
    End(m) != MINUS && forall i :: 0 <= i < |m| - 1 && m[i] == MINUS ==> !Special(m[i + 1])
  }

  /** Clean messages survive in any number. */
  lemma CleanSurvive(last: Byte, ms: seq<Message>)
    requires last != MINUS && forall i :: 0 <= i < |ms| ==> Clean(ms[i])
    ensures AllSurvive(last, ms)
  {
    forall k | 0 <= k < |ms| ensures Tolerable(false, ms[k]) {
      var m := ms[k];
      forall i | 0 <= i < |m| ensures !Risky(false, m, i) {
        assert i > 0 && m[i - 1] == MINUS ==> !Special(m[(i - 1) + 1]);
      }
    }
  }

  lemma {:induction false} StaysSane(d: Decoder, s: Memory)
    requires Sane(d)
    ensures Sane(Decode(d, s).decoder) && Decode(d, s).decoder.last == LastOf(d.last, s)
    ensures forall m <- Decode(d, s).messages :: IsMessage(m)
    decreases |s|
  {
    if s == [] {
      assert Decode(d, s) == Decoded(d, []);
    } else {
      var e := Receive(d, s[0]);
      StaysSane(if |e.response| >= MESSAGE_LENGTH then Deliver(e) else e, s[1..]);
    }
  }

  /** Resynchronisation: after any garbage that leaves the decoder between frames, and that is any
      garbage that does not end in '-', the same messages come out as without it. */
  lemma Resynchronises(d: Decoder, garbage: Memory, ms: seq<Message>)
    requires Sane(d)
    requires LastOf(d.last, garbage) != MINUS || Decode(d, garbage).decoder.waiting
    ensures var r := Decode(d, garbage + FramedAll(ms)).messages;
            && r == Decode(d, garbage).messages + Survivors(LastOf(d.last, garbage), ms)
            && (r == Decode(d, garbage).messages + ms <==> AllSurvive(LastOf(d.last, garbage), ms))
  {
    var before, last := Decode(d, garbage), LastOf(d.last, garbage);
    StaysSane(d, garbage);
    DecodeSplits(d, garbage, FramedAll(ms));
    StreamYields(before.decoder, ms);
    SurvivorsExact(last, ms);
    assert (before.messages + ms)[|before.messages|..] == ms;
    assert (before.messages + Survivors(last, ms))[|before.messages|..] == Survivors(last, ms);
  }

  /** A message that ends in '-' comes out, but the next frame is lost with its start byte. */
  lemma EndingInMinusLosesNext(d: Decoder, m: Message, next: Message)
    requires Sane(d) && d.last != MINUS && Tolerable(false, m) && End(m) == MINUS
    ensures Decode(d, Framed(m) + Framed(next)).messages == [m]
  {
    FrameDecodes(d, m);
    DecodeSplits(d, Framed(m), Framed(next));
    FrameLost(Decode(d, Framed(m)).decoder, next);
  }
}
