/** The bounded send loop that the server and the generic client share. */
module Sending {
  const MAX_SEND_TRIES: nat := 10

  /** What one call of `send` reports. */
  datatype SendAnswer = Again | Failed(errno: int) | Sent(count: nat)

  /** What the k-th call of `send` reports. */
  type Script = nat -> SendAnswer

  datatype Sending = Sending(ok: bool, offset: nat, errno: int)

  /** `send` never reports more bytes than it was given. */
  function Advanced(offset: nat, n: nat, length: nat): nat {
    if offset + n <= length then offset + n else length
  }

  /** The result of the loop (`errno` is 0 unless it fails) from its k-th try on, with `offset` bytes
      gone out so far. */
  function SendFrom(length: nat, script: Script, k: nat, offset: nat): (s: Sending)
    requires k <= MAX_SEND_TRIES && offset <= length
    ensures offset <= s.offset <= length
    decreases MAX_SEND_TRIES - k, length
  {
    if k == MAX_SEND_TRIES || offset == length then Sending(true, offset, 0)
    else
      match script(k)
      case Again => SendFrom(length, script, k + 1, offset)
      case Failed(e) => Sending(false, offset, e)
      case Sent(n) => SendFrom(length, script, k + 1, Advanced(offset, n, length))
  }

  function SendAll(length: nat, script: Script): Sending { SendFrom(length, script, 0, 0) }

  method RunSendLoop(length: nat, script: Script) returns (ok: bool, offset: nat, errno: int)
    ensures Sending(ok, offset, errno) == SendAll(length, script)
  {
    offset := 0;
    var triesRemaining: nat := MAX_SEND_TRIES;
    while triesRemaining > 0 && offset < length
      invariant triesRemaining <= MAX_SEND_TRIES && offset <= length
      invariant SendFrom(length, script, MAX_SEND_TRIES - triesRemaining, offset) == SendAll(length, script)
    {
      triesRemaining := triesRemaining - 1;
      match script(MAX_SEND_TRIES - 1 - triesRemaining) {
        case Again =>
        case Failed(e) => return false, offset, e;
        case Sent(n) => offset := Advanced(offset, n, length);
      }
    }
    return true, offset, 0;
  }

  /** What the calls from the k-th on report as sent, all together. */
  function Total(script: Script, k: nat): nat
    requires k <= MAX_SEND_TRIES
    decreases MAX_SEND_TRIES - k
  {
    if k == MAX_SEND_TRIES then 0 else (if script(k).Sent? then script(k).count else 0) + Total(script, k + 1)
  }

  /** Success does not mean that everything went out: it is reported with bytes left behind if and
      only if no try failed and all ten together sent too little. */
  lemma {:induction false} LeftBehind(length: nat, script: Script, k: nat, offset: nat)
    requires k <= MAX_SEND_TRIES && offset <= length
    ensures var s := SendFrom(length, script, k, offset);
            s.ok && s.offset < length <==>
            (forall i :: k <= i < MAX_SEND_TRIES ==> !script(i).Failed?) && offset + Total(script, k) < length
    decreases MAX_SEND_TRIES - k
  {
    if k == MAX_SEND_TRIES || offset == length {
      assert SendFrom(length, script, k, offset) == Sending(true, offset, 0);
    } else {
      match script(k)
      case Again => LeftBehind(length, script, k + 1, offset);
      case Failed(_) =>
      case Sent(n) => LeftBehind(length, script, k + 1, Advanced(offset, n, length));
    }
  }

  /** What the calls from the k-th up to the j-th report as sent, all together. */
  function Sum(script: Script, k: nat, j: nat): nat
    requires k <= j
    decreases j - k
  {
    if k == j then 0 else (if script(k).Sent? then script(k).count else 0) + Sum(script, k + 1, j)
  }

  /** The first try that fails ends the loop, unless everything has gone out before it; up to there, what
      the tries report goes out, but never more than there is. */
  lemma {:induction false} SendExactly(length: nat, script: Script, k: nat, offset: nat, j: nat)
    requires k <= j <= 10 && offset <= length && (j < 10 ==> script(j).Failed?)
    requires forall i :: k <= i < j ==> !script(i).Failed?
    ensures var s, reach := SendFrom(length, script, k, offset), offset + Sum(script, k, j);
            && s.offset == (if reach < length then reach else length)
            && (s.ok <==> j == 10 || reach >= length) && (!s.ok ==> script(j) == Failed(s.errno))
    decreases j - k
  {
    if k == j || offset == length {
    } else {
      var next := if script(k).Sent? then Advanced(offset, script(k).count, length) else offset;
      SendExactly(length, script, k + 1, next, j);
    }
  }

  /** Eleven bytes that go out one by one: success is reported, and the last one stays behind. */
  lemma EleventhByteStays()
    ensures SendAll(11, _ => Sent(1)) == Sending(true, 10, 0)
  {
    LeftBehind(11, _ => Sent(1), 0, 0);
  }
}
