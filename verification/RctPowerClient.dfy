/** The RCT Power client: the request it sends, and the response buffer that it fills byte by byte. */
module RctPowerClient {
  import opened Bytes
  import opened Crc
  import opened RctFraming

  /** A read command for an ID, without its checksum. */
  function RequestBody(id: nat): (m: Memory)
    ensures |m| == 6
  {
    [1, 4, id / 0x100_0000 % 0x100, id / 0x1_0000 % 0x100, id / 0x100 % 0x100, id % 0x100]
  }

  /** Four bytes as a number, most significant first. */
  function Number(a: nat, b: nat, c: nat, d: nat): nat { a * 0x100_0000 + b * 0x1_0000 + c * 0x100 + d }

  /** The ID that a response is for. */
  function IdOf(m: Memory): nat
    requires |m| == MESSAGE_LENGTH
  {
    Number(m[2], m[3], m[4], m[5])
  }

  /** How a complete response ends. */
  datatype Verdict = Ignored | ChecksumMismatch | Success(value: Memory)

  /** What `recv` reports when no byte is left: would block, an error, or the end of the stream. */
  datatype Ending = Again | Failed(errno: int) | Closed

  /** How a call of the receive hook ends; it asks to be called again if its time has elapsed or a
      response was complete. */
  datatype Outcome = Elapsed | Drained | Disconnected(reason: Ending) | Complete(verdict: Verdict)

  /** What the client makes of a complete response while it waits for the given ID. */
  function JudgeResponse(pending: Option<nat>, m: Memory): Verdict
    requires |m| == MESSAGE_LENGTH
  {
    if pending != Some(IdOf(m)) then Ignored
    else if !Intact(m) then ChecksumMismatch
    else Success([m[9], m[8], m[7], m[6]])
  }

  /** The checksum of a body, as the two bytes that follow it. */
  predicate Completes(body: Memory, m: Memory) {
    |m| == |body| + 2 && m[..|body|] == body && Intact(m)
  }

  /** Builds the request in place. */
  method BuildRequest(id: nat) returns (request: array<Byte>)
    requires id < 0x1_0000_0000
    ensures fresh(request) && Completes(RequestBody(id), request[..])
  {
    request := new Byte[8](_ => 0);
    ghost var body := RequestBody(id);
    PutBody(request, id, body);
    var checksum := Crc16Ccitt(request, 6);
    request[6], request[7] := Hi(checksum), Lo(checksum);
    assert request[..6] == body;
    Completed(body, checksum, request[..]);
  }

  method PutBody(request: array<Byte>, id: nat, ghost body: Memory)
    requires request.Length == 8 && body == RequestBody(id)
    modifies request
    ensures request[..6] == body
  {
    request[0], request[1] := 1, 4;
    request[2] := id / 0x100_0000 % 0x100;
    request[3] := id / 0x1_0000 % 0x100;
    request[4] := id / 0x100 % 0x100;
    request[5] := id % 0x100;
  }

  lemma Completed(body: Memory, checksum: Word, m: Memory)
    requires |m| == |body| + 2 && m[..|body|] == body && RegisterOf(checksum) == Checksum(body)
    requires m[|body|] == Hi(checksum) && m[|body| + 1] == Lo(checksum)
    ensures Completes(body, m)
  {
    assert Big(m[|body|], m[|body| + 1]) == checksum;
  }

  /** Escapes a message in place and frames it. */
  method EscapeRequest(request: array<Byte>) returns (sent: Memory)
    ensures sent == Framed(request[..]) && |sent| <= 1 + 2 * request.Length
  {
    ghost var m := request[..];
    var escaped := new Byte[1 + request.Length * 2](_ => 0);
    escaped[0] := PLUS;
    var length := 1;
    for i := 0 to request.Length
      invariant 1 <= length <= 1 + 2 * i && request[..] == m
      invariant escaped[..length] + Escape(m[i..]) == Framed(m)
    {
      ghost var before := escaped[..length];
      if request[i] == PLUS || request[i] == MINUS {
        escaped[length] := MINUS;
        length := length + 1;
      }
      escaped[length] := request[i];
      length := length + 1;
      assert escaped[..length] == before + (if Special(m[i]) then [MINUS, m[i]] else [m[i]]);
      EscapeStep(before, m, i);
    }
    assert m[request.Length..] == [];
    return escaped[..length];
  }

  lemma EscapeStep(before: Memory, m: Memory, i: nat)
    requires i < |m|
    ensures before + Escape(m[i..]) == before + (if Special(m[i]) then [MINUS, m[i]] else [m[i]]) + Escape(m[i + 1..])
  {
    assert m[i..][1..] == m[i + 1..];
  }

  /** What a call of the receive hook did: it went through the first `consumed` of the available bytes
      with the decoder d and left e, and reports why it stopped; `message` is the response it
      completed, if any. */
  ghost predicate Hooked(d: Decoder, e: Decoder, available: Memory, ending: Ending, allowed: nat, pending: Option<nat>,
                         consumed: nat, outcome: Outcome, message: Option<Memory>)
  {
    && consumed <= |available|
    && (var r := Decode(d, available[..consumed]);
        && r.messages == (if message == None then [] else [message.value])
        && e == if outcome.Disconnected? then Decoder(true, 0, []) else r.decoder)
    && match outcome
       case Elapsed => message == None && consumed >= allowed
       case Drained => message == None && consumed == |available| && consumed < allowed && ending == Again
       case Disconnected(reason) =>
         message == None && consumed == |available| && consumed < allowed && ending != Again && reason == ending
       case Complete(verdict) =>
         message.Some? && IsMessage(message.value) && verdict == JudgeResponse(pending, message.value)
  }

  class Receiver {
    var waitForStart: bool
    var lastReceivedByte: Byte
    const pendingResponse: array<Byte>
    var pendingResponseUsed: nat

    constructor ()
      ensures Valid() && State() == Decoder(true, 0, []) && fresh(pendingResponse)
    {
      waitForStart, lastReceivedByte, pendingResponseUsed := true, 0, 0;
      pendingResponse := new Byte[12](_ => 0);
    }

    ghost predicate Shape()
      reads this
    {
      pendingResponse.Length == 12 && pendingResponseUsed <= 12
    }

    ghost function State(): Decoder
      reads this, pendingResponse
      requires Shape()
    {
      Decoder(waitForStart, lastReceivedByte, pendingResponse[..pendingResponseUsed])
    }

    ghost predicate Valid()
      reads this, pendingResponse
    {
      Shape() && Sane(State())
    }

    method Reset()
      requires Shape()
      modifies this`waitForStart, this`pendingResponseUsed
      ensures Shape() && State() == Deliver(old(State()))
    {
      waitForStart := true;
      pendingResponseUsed := 0;
    }

    method Push(b: Byte)
      requires Shape() && pendingResponseUsed < 12
      modifies this`pendingResponseUsed, pendingResponse
      ensures Shape() && State() == old(State()).(response := old(State()).response + [b])
    {
      pendingResponse[pendingResponseUsed] := b;
      pendingResponseUsed := pendingResponseUsed + 1;
    }

    /** The body of the receive loop for one byte. */
    method ReceiveByte(receivedByte: Byte)
      requires Valid()
      modifies this, pendingResponse
      ensures Shape() && State() == Receive(old(State()), receivedByte)
      ensures pendingResponseUsed < 12 ==> Valid()
    {
      ghost var d := State();
      if waitForStart {
        if receivedByte == PLUS && lastReceivedByte != MINUS {
          waitForStart := false;
        }
      } else if receivedByte == PLUS {
        if lastReceivedByte == MINUS {
          Push(receivedByte);
        } else {
          pendingResponseUsed := 0;
        }
      } else if receivedByte == MINUS {
        if lastReceivedByte == MINUS {
          Push(receivedByte);
        }
      } else {
        Push(receivedByte);
      }
      assert State() == Collect(d, receivedByte);
      lastReceivedByte := receivedByte;
      assert State() == Collect(d, receivedByte).(last := receivedByte);
      if pendingResponseUsed == 1 && pendingResponse[0] != 5 {
        Reset();
      } else if pendingResponseUsed == 2 && pendingResponse[1] != 8 {
        Reset();
      }
    }

    /** The close hook forgets what has been received. */
    method Forget()
      requires Shape()
      modifies this`waitForStart, this`lastReceivedByte, this`pendingResponseUsed
      ensures Valid() && State() == Decoder(true, 0, [])
    {
      lastReceivedByte := 0;
      waitForStart := true;
      pendingResponseUsed := 0;
    }

    /** One call of the receive hook: it reads until the response is complete, nothing is readable
        any more or the deadline has elapsed (after `allowed` bytes), and judges a complete response
        for the pending ID.  `ending` is what `recv` reports behind the available bytes; an error and
        the end of the stream disconnect the client. */
    method ReceiveHook(available: Memory, ending: Ending, allowed: nat, pending: Option<nat>)
      returns (consumed: nat, outcome: Outcome, ghost message: Option<Memory>)
      requires Valid()
      modifies this, pendingResponse
      ensures Valid()
      ensures Hooked(old(State()), State(), available, ending, allowed, pending, consumed, outcome, message)
    {
      consumed, message := 0, None;
      while 12 - pendingResponseUsed > 0
        invariant consumed <= |available|
        invariant Shape() && (pendingResponseUsed < 12 ==> Valid())
        invariant pendingResponseUsed < 12 ==> Decode(old(State()), available[..consumed]) == Decoded(State(), [])
        invariant pendingResponseUsed == 12 ==>
          IsMessage(State().response) &&
          Decode(old(State()), available[..consumed]) == Decoded(Deliver(State()), [State().response])
        decreases |available| - consumed
      {
        if consumed >= allowed { return consumed, Elapsed, None; }
        if consumed == |available| {
          if ending == Again { return consumed, Drained, None; }
          Forget();
          return consumed, Disconnected(ending), None;
        }
        ghost var d := State();
        ReceiveByte(available[consumed]);
        assert available[..consumed + 1] == available[..consumed] + [available[consumed]];
        DecodeNext(old(State()), available[..consumed], d, available[consumed]);
        consumed := consumed + 1;
      }
      message := Some(State().response);
      assert pendingResponse[..] == State().response;
      var verdict := JudgeBuffer(pending);
      Reset();
      return consumed, Complete(verdict), message;
    }

    /** Looks at ID and checksum of a complete response. */
    method JudgeBuffer(pending: Option<nat>) returns (verdict: Verdict)
      requires Shape() && pendingResponseUsed == 12
      ensures verdict == JudgeResponse(pending, pendingResponse[..])
    {
      var id := Number(pendingResponse[2], pendingResponse[3], pendingResponse[4], pendingResponse[5]);
      if pending == None || pending != Some(id) { return Ignored; }
      var actualChecksum := Crc16Ccitt(pendingResponse, pendingResponseUsed - 2);
      var expectedChecksum := Big(pendingResponse[pendingResponseUsed - 2], pendingResponse[pendingResponseUsed - 1]);
      SameWord(actualChecksum, expectedChecksum);
      assert pendingResponse[..][..10] == pendingResponse[..10];
      if actualChecksum != expectedChecksum { return ChecksumMismatch; }
      return Success([pendingResponse[9], pendingResponse[8], pendingResponse[7], pendingResponse[6]]);
    }
  }

  lemma DecodeOne(d: Decoder, b: Byte)
    ensures var e := Receive(d, b);
            Decode(d, [b]) ==
            if |e.response| >= MESSAGE_LENGTH then Decoded(Deliver(e), [e.response]) else Decoded(e, [])
  {
    assert [b][1..] == [];
  }

  /** One more byte. */
  lemma DecodeNext(first: Decoder, m: Memory, d: Decoder, b: Byte)
    requires Decode(first, m) == Decoded(d, [])
    ensures var e := Receive(d, b);
            Decode(first, m + [b]) ==
            if |e.response| >= MESSAGE_LENGTH then Decoded(Deliver(e), [e.response]) else Decoded(e, [])
  {
    DecodeSplits(first, m, [b]);
    DecodeOne(d, b);
  }

  /** Words are equal exactly when their registers are. */
  lemma SameWord(x: Word, y: Word)
    ensures x == y <==> RegisterOf(x) == RegisterOf(y)
  {
    if RegisterOf(x) == RegisterOf(y) {
      Power32();
      forall j | 0 <= j < 16 ensures BitSet(x, j) == BitSet(y, j) {
        assert RegisterOf(x)[j] == RegisterOf(y)[j];
      }
      BitsDetermine(x, y, 16);
    }
  }

  /** A response that was intact when it was sent and is hit by a burst of up to 16 bits on its way
      through the buffer never completes the transaction with success. */
  lemma CorruptedNeverSucceeds(pending: Option<nat>, sent: Memory, received: Memory, p: nat)
    requires IsMessage(sent) && Intact(sent) && IsMessage(received) && Burst(Bits(sent), Bits(received), p)
    ensures !JudgeResponse(pending, received).Success?
  {
    CorruptionDetected(sent, received, p);
  }
}
