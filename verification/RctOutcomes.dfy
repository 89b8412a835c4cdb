/** What the RCT Power client makes of a response on the wire, from the bytes of the response alone. */
module RctOutcomes {
  import opened Bytes
  import opened Crc
  import opened CrcValues
  import opened RctFraming
  import opened RctPowerClient

  // ---- Requests and responses, by their bytes ----

  /** A request reads (command 1, four bytes of data) the ID that its bytes name. */
  lemma RequestNamesId(id: nat, request: Memory)
    requires id < 0x1_0000_0000 && Completes(RequestBody(id), request)
    ensures |request| == 8 && request[0] == 1 && request[1] == 4
    ensures Number(request[2], request[3], request[4], request[5]) == id
  {
    var q := RequestBody(id);
    assert forall i :: 0 <= i < 6 ==> request[i] == request[..6][i] == q[i];
    BodyNamesId(id, q);
  }

  lemma BodyNamesId(id: nat, q: Memory)
    requires id < 0x1_0000_0000 && q == RequestBody(id)
    ensures Number(q[2], q[3], q[4], q[5]) == id
  {
    var x := id / 0x100;
    var y := x / 0x100;
    assert id / 0x1_0000 == y && id / 0x100_0000 == y / 0x100;
    assert y / 0x100 < 0x100;
  }

  lemma NumberUnique(a: Byte, b: Byte, c: Byte, d: Byte, w: Byte, x: Byte, y: Byte, z: Byte)
    requires Number(a, b, c, d) == Number(w, x, y, z)
    ensures a == w && b == x && c == y && d == z
  {
  }

  /** The response has the ID bytes of the request that is pending. */
  predicate Asked(pending: Option<nat>, m: Message) {
    pending.Some? && m[2..6] == RequestBody(pending.value)[2..6]
  }

  /** The number in four bytes of a little-endian memory is the one that the response carries. */
  predicate Carries(m: Message, v: Memory) {
    |v| == 4 && Number(v[3], v[2], v[1], v[0]) == Number(m[6], m[7], m[8], m[9])
  }

  /** How a complete response has to be judged. */
  predicate Judged(pending: Option<nat>, m: Message, verdict: Verdict) {
    match verdict
    case Ignored => !Asked(pending, m)
    case ChecksumMismatch => Asked(pending, m) && !Intact(m)
    case Success(v) => Asked(pending, m) && Intact(m) && Carries(m, v)
  }

  /** An ID that a `uint32_t` can hold. */
  predicate Storable(pending: Option<nat>) { pending.Some? ==> pending.value < 0x1_0000_0000 }

  lemma AskedExactly(id: nat, m: Message)
    requires id < 0x1_0000_0000
    ensures Asked(Some(id), m) <==> IdOf(m) == id
  {
    var q := RequestBody(id);
    BodyNamesId(id, q);
    assert m[2..6] == [m[2], m[3], m[4], m[5]];
    assert q[2..6] == [q[2], q[3], q[4], q[5]];
    if m[2..6] == q[2..6] {
      assert m[2..6][0] == m[2] && m[2..6][1] == m[3] && m[2..6][2] == m[4] && m[2..6][3] == m[5];
    }
    if IdOf(m) == id {
      NumberUnique(m[2], m[3], m[4], m[5], q[2], q[3], q[4], q[5]);
    }
  }

  lemma VerdictExactly(pending: Option<nat>, m: Message)
    requires Storable(pending)
    ensures Judged(pending, m, JudgeResponse(pending, m))
  {
    if pending.Some? {
      AskedExactly(pending.value, m);
    }
  }

  // ---- A framed response ----

  /** From a decoder whose last byte is not '-', and with time enough, the receive hook completes a
      framed response: it judges what the decoder makes of it. */
  lemma FrameCompletes(d: Decoder, e: Decoder, m: Message, ending: Ending, allowed: nat, pending: Option<nat>,
                       consumed: nat, outcome: Outcome, message: Option<Memory>)
    requires Sane(d) && d.last != MINUS && allowed >= |Framed(m)| && Storable(pending)
    requires Hooked(d, e, Framed(m), ending, allowed, pending, consumed, outcome, message)
    ensures IsMessage(Copy(m)) && outcome.Complete? && Judged(pending, Copy(m), outcome.verdict)
  {
    var s := Framed(m);
    var r := Decode(d, s[..consumed]);
    FrameYields(d, m);
    assert consumed == |s| ==> s[..consumed] == s;
    assert s == s[..consumed] + s[consumed..];
    DecodeSplits(d, s[..consumed], s[consumed..]);
    assert ([message.value] + Decode(r.decoder, s[consumed..]).messages)[0] == message.value;
    VerdictExactly(pending, Copy(m));
  }

  /** Behind a '-' a framed response is not even heard. */
  lemma BehindMinusUnheard(d: Decoder, e: Decoder, m: Message, ending: Ending, allowed: nat, pending: Option<nat>,
                           consumed: nat, outcome: Outcome, message: Option<Memory>)
    requires d.waiting && d.response == [] && d.last == MINUS
    requires Hooked(d, e, Framed(m), ending, allowed, pending, consumed, outcome, message)
    ensures !outcome.Complete?
  {
    var s := Framed(m);
    FrameLost(d, m);
    assert s == s[..consumed] + s[consumed..];
    DecodeSplits(d, s[..consumed], s[consumed..]);
  }

  lemma BigUnique(a: Byte, b: Byte, c: Byte, d: Byte)
    requires Big(a, b) == Big(c, d)
    ensures a == c && b == d
  {
  }

  /** Two intact responses with the same body are the same. */
  lemma SameChecksum(m: Message, n: Message)
    requires Intact(m) && Intact(n) && m[..10] == n[..10]
    ensures m == n
  {
    assert RegisterOf(Big(m[10], m[11])) == RegisterOf(Big(n[10], n[11]));
    SameWord(Big(m[10], m[11]), Big(n[10], n[11]));
    BigUnique(m[10], m[11], n[10], n[11]);
    forall i | 0 <= i < 10 ensures m[i] == n[i] {
      assert m[i] == m[..10][i] && n[i] == n[..10][i];
    }
  }

  lemma SameContents(m: Message, n: Message, v: Memory)
    requires m[2..6] == n[2..6] && Carries(m, v) && Carries(n, v)
    ensures m[..10] == n[..10]
  {
    NumberUnique(m[6], m[7], m[8], m[9], n[6], n[7], n[8], n[9]);
    assert m[..10] == [5, 8] + m[2..6] + [m[6], m[7], m[8], m[9]];
    assert n[..10] == [5, 8] + n[2..6] + [n[6], n[7], n[8], n[9]];
  }

  /** Exactly when a response completes the pending transaction with the value it carries, when
      it is ignored and when its checksum does not match. */
  lemma ResponseOutcome(d: Decoder, e: Decoder, m: Message, ending: Ending, allowed: nat, pending: Option<nat>,
                        consumed: nat, outcome: Outcome, message: Option<Memory>)
    requires Sane(d) && d.last != MINUS && allowed >= |Framed(m)| && Storable(pending)
    requires Hooked(d, e, Framed(m), ending, allowed, pending, consumed, outcome, message)
    ensures IsMessage(Copy(m)) && outcome.Complete?
    ensures Tolerable(false, m) ==> Judged(pending, m, outcome.verdict)
    ensures Intact(m) ==>
            (outcome.verdict.Success? && Asked(pending, m) && Carries(m, outcome.verdict.value) <==>
             Asked(pending, m) && Tolerable(false, m))
    ensures (outcome.verdict.Success? <==> Tolerable(false, m) && Asked(pending, m) && Intact(m)) <==>
            Tolerable(false, m) || !Asked(pending, Copy(m)) || !Intact(Copy(m))
  {
    FrameCompletes(d, e, m, ending, allowed, pending, consumed, outcome, message);
    CopyExact(m);
    if outcome.verdict.Success? && Asked(pending, m) && Carries(m, outcome.verdict.value) && Intact(m) {
      SameContents(m, Copy(m), outcome.verdict.value);
      SameChecksum(m, Copy(m));
    }
  }

  // ---- A wrong value ----

  /** An intact response for ID 0x1793 whose value starts with '-', '+'. */
  const MISREAD: Message := [5, 8, 0, 0, 0x17, 0x93, MINUS, PLUS, 0, 0, 0x68, 0xD4]

  lemma HeadHeld()
    ensures Checksum([5, 8, 0, 0]) == Held(0x9124)
  {
    Start();
    FourHeld([], 5, 8, 0, 0, 0xFFFF, 0xB155, 0x63F2, 0xAEC5, 0x9124);
    assert [] + [5, 8, 0, 0] == [5, 8, 0, 0];
  }

  lemma MisreadPart()
    ensures Checksum([5, 8, 0, 0, 0x17, 0x93, 0x2D, 0x2B]) == Held(0x647D)
  {
    HeadHeld();
    FourHeld([5, 8, 0, 0], 0x17, 0x93, 0x2D, 0x2B, 0x9124, 0xD54E, 0x6602, 0xFBAF, 0x647D);
    assert [5, 8, 0, 0] + [0x17, 0x93, 0x2D, 0x2B] == [5, 8, 0, 0, 0x17, 0x93, 0x2D, 0x2B];
  }

  lemma MisreadHeld(m: Memory)
    requires m == [5, 8, 0, 0, 0x17, 0x93, 0x2D, 0x2B, 0, 0, 0x68, 0xD4]
    ensures Checksum(m) == Held(0)
  {
    MisreadPart();
    FourHeld([5, 8, 0, 0, 0x17, 0x93, 0x2D, 0x2B], 0, 0, 0x68, 0xD4, 0x647D, 0x5122, 0x68D4, 0xD400, 0);
    assert [5, 8, 0, 0, 0x17, 0x93, 0x2D, 0x2B] + [0, 0, 0x68, 0xD4] == m;
  }

  lemma LongerPart()
    ensures Checksum([5, 8, 0, 0, 0x17, 0x93, 0x2D, 0x2D]) == Held(0x04BB)
  {
    HeadHeld();
    FourHeld([5, 8, 0, 0], 0x17, 0x93, 0x2D, 0x2D, 0x9124, 0xD54E, 0x6602, 0xFBAF, 0x04BB);
    assert [5, 8, 0, 0] + [0x17, 0x93, 0x2D, 0x2D] == [5, 8, 0, 0, 0x17, 0x93, 0x2D, 0x2D];
  }

  lemma LongerHeld(m: Memory)
    requires m == [5, 8, 0, 0, 0x17, 0x93, 0x2D, 0x2D, 0x2B, 0, 0, 0x68]
    ensures Checksum(m) == Held(0)
  {
    LongerPart();
    FourHeld([5, 8, 0, 0, 0x17, 0x93, 0x2D, 0x2D], 0x2B, 0, 0, 0x68, 0x04BB, 0x6E8D, 0x0068, 0x6800, 0);
    assert [5, 8, 0, 0, 0x17, 0x93, 0x2D, 0x2D] + [0x2B, 0, 0, 0x68] == m;
  }

  /** Ordinary bytes in front stay as they are. */
  lemma {:induction false} DoubledHead(head: Memory, tail: Memory)
    requires forall i :: 0 <= i < |head| ==> !Special(head[i])
    ensures Doubled(false, head + tail) == head + Doubled(false, tail)
    decreases |head|
  {
    if head == [] {
      assert head + tail == tail;
    } else {
      assert (head + tail)[1..] == head[1..] + tail;
      DoubledHead(head[1..], tail);
    }
  }

  lemma MisreadDoubled()
    ensures Doubled(false, MISREAD) == [5, 8, 0, 0, 0x17, 0x93, MINUS, MINUS, PLUS, 0, 0, 0x68, 0xD4]
  {
    var head, tail, rest := [5, 8, 0, 0, 0x17, 0x93], MISREAD[6..], [0, 0, 0x68, 0xD4];
    assert MISREAD == head + tail;
    DoubledHead(head, tail);
    assert tail[1..][1..] == rest;
    assert Doubled(false, tail) == [MINUS] + ([MINUS, PLUS] + Doubled(false, rest));
    DoubledHead(rest, []);
    assert rest + [] == rest;
  }

  /** What the decoder makes of it has one '-' more, and is intact as well. */
  lemma MisreadCopy()
    ensures Copy(MISREAD) == [5, 8, 0, 0, 0x17, 0x93, 0x2D, 0x2D, 0x2B, 0, 0, 0x68] && Intact(Copy(MISREAD))
  {
    MisreadDoubled();
    LongerHeld(Copy(MISREAD));
    EndsInZero(Copy(MISREAD));
  }

  lemma MisreadVerdict(verdict: Verdict)
    requires IsMessage(Copy(MISREAD)) && Judged(Some(0x1793), Copy(MISREAD), verdict)
    ensures verdict == Success([0, PLUS, MINUS, MINUS])
  {
    MisreadCopy();
    AskedExactly(0x1793, Copy(MISREAD));
    var v := verdict.value;
    NumberUnique(v[3], v[2], v[1], v[0], MINUS, MINUS, PLUS, 0);
    assert v == [v[0], v[1], v[2], v[3]];
  }

  /** The client reads this response without an error and delivers a value that it does not carry. */
  lemma WrongValueDelivered(d: Decoder, e: Decoder, ending: Ending, allowed: nat,
                            consumed: nat, outcome: Outcome, message: Option<Memory>)
    requires Sane(d) && d.last != MINUS && allowed >= |Framed(MISREAD)|
    requires Hooked(d, e, Framed(MISREAD), ending, allowed, Some(0x1793), consumed, outcome, message)
    ensures Intact(MISREAD) && Asked(Some(0x1793), MISREAD)
    ensures outcome == Complete(Success([0, PLUS, MINUS, MINUS])) && !Carries(MISREAD, [0, PLUS, MINUS, MINUS])
  {
    FrameCompletes(d, e, MISREAD, ending, allowed, Some(0x1793), consumed, outcome, message);
    MisreadVerdict(outcome.verdict);
    MisreadHeld(MISREAD);
    EndsInZero(MISREAD);
    AskedExactly(0x1793, MISREAD);
  }
}
