/** Why a stalled client, or the server, may simply send its last datagram again. */
module Resend {
  import opened Common
  import opened Packets
  import opened Session

  /** The receiver never waits for a message it already holds. */
  predicate Good(r: Receiver) {
    r.counter !in r.pending
  }

  /** Message n has been delivered, with `slack` numbers to go before it could look new again, or is pending. */
  predicate OldNews(r: Receiver, n: U16, slack: nat) {
    n in r.pending || 1 <= Distance(r.counter, n) <= 32769 - slack
  }

  /** Message n is at most 32000 numbers ahead, or behind with `slack` numbers to go. */
  predicate Near(r: Receiver, n: U16, slack: nat) {
    Distance(n, r.counter) <= 32000 || 1 <= Distance(r.counter, n) <= 32769 - slack
  }

  // ---- reachable receivers are good ----

  lemma {:induction false} DrainIsGood(r: Receiver)
    ensures Good(DrainPending(r))
    decreases |r.pending|
  {
    if r.counter in r.pending {
      var rest := r.pending - {r.counter};
      assert rest.Keys == r.pending.Keys - {r.counter};
      DrainIsGood(Deliver(r.(pending := rest), r.pending[r.counter]));
    }
  }

  lemma AcceptIsGood(r: Receiver, m: ParsedMessage)
    requires Good(r)
    ensures Good(Accept(r, m))
  {
    if m.number == r.counter {
      DrainIsGood(Deliver(r, m));
    }
  }

  lemma {:induction false} AcceptAllIsGood(r: Receiver, ms: seq<ParsedMessage>)
    requires Good(r)
    ensures Good(AcceptAll(r, ms))
    decreases |ms|
  {
    if ms != [] {
      AcceptIsGood(r, ms[0]);
      AcceptAllIsGood(Accept(r, ms[0]), ms[1..]);
    }
  }

  /** Whatever datagrams arrive, parseable or not, the receiver stays good. */
  lemma ProcessIsGood(r: Receiver, data: Bytes)
    requires Good(r)
    ensures Good(Process(r, data))
  {
    match Parse(data)
    case Err(_) =>
    case Ok(ms) => AcceptAllIsGood(ResetOnLoneZero(r, ms), ms);
  }

  // ---- how far one message can move the receiver ----

  lemma BackwardShift(c: U16, n: U16, a: nat)
    requires Distance(c, n) + a < 0x1_0000
    ensures Distance((c + a) % 0x1_0000, n) == Distance(c, n) + a
  {
  }

  lemma ForwardShift(c: U16, n: U16, a: nat)
    requires a < 0x8000 && Distance(n, c) <= 32000
    ensures var c' := (c + a) % 0x1_0000;
            if a <= Distance(n, c) then Distance(n, c') == Distance(n, c) - a else Distance(c', n) == a - Distance(n, c)
  {
  }

  lemma BehindIsNotFuture(c: U16, n: U16)
    requires 1 <= Distance(c, n) <= 32769
    ensures n != c && !IsFuture(n, c)
  {
  }

  /** r' is r moved on by `advance` numbers, and what was pending is still pending or has been passed. */
  ghost predicate MovedOn(r: Receiver, r': Receiver, advance: nat) {
    && r'.counter == (r.counter + advance) % 0x1_0000
    && (forall k <- r.pending :: k in r'.pending || 1 <= Distance(r'.counter, k) <= advance)
    && Good(r')
  }

  lemma OneFurther(c: U16, a: nat)
    ensures ((c + 1) % 0x1_0000 + a) % 0x1_0000 == (c + (a + 1)) % 0x1_0000
  {
  }

  /** Delivering the expected message from pending and then moving on by a moves on by a + 1. */
  lemma OneMoreMoved(r: Receiver, r1: Receiver, r': Receiver, a: nat)
    requires r1.counter == (r.counter + 1) % 0x1_0000 && r1.pending == r.pending - {r.counter}
    requires MovedOn(r1, r', a) && a < 0xFFFF
    ensures MovedOn(r, r', a + 1)
  {
    OneFurther(r.counter, a);
    BackwardShift(r.counter, r.counter, a + 1);
    forall k | k in r.pending && k !in r'.pending
      ensures 1 <= Distance(r'.counter, k) <= a + 1
    {
      if k != r.counter {
        assert k in r1.pending;
      }
    }
  }

  lemma StaysPut(r: Receiver)
    requires Good(r)
    ensures MovedOn(r, r, 0)
  {
  }

  lemma {:induction false} DrainMovesOn(r: Receiver)
    requires |r.pending| <= MAX_PENDING
    ensures |DrainPending(r).pending| <= |r.pending|
    ensures MovedOn(r, DrainPending(r), |r.pending| - |DrainPending(r).pending|)
    decreases |r.pending|
  {
    hide MovedOn;
    if r.counter in r.pending {
      var rest := r.pending - {r.counter};
      assert rest.Keys == r.pending.Keys - {r.counter};
      var r1 := Deliver(r.(pending := rest), r.pending[r.counter]);
      DrainMovesOn(r1);
      OneMoreMoved(r, r1, DrainPending(r1), |rest| - |DrainPending(r1).pending|);
    } else {
      StaysPut(r);
    }
  }

  /** One message moves the receiver on by some amount, paid for out of its pending messages and itself. */
  lemma AcceptMovesOn(r: Receiver, m: ParsedMessage) returns (advance: nat)
    requires Good(r) && |r.pending| < MAX_PENDING
    ensures MovedOn(r, Accept(r, m), advance)
    ensures |Accept(r, m).pending| + advance <= |r.pending| + 1
    ensures m.number == r.counter ==> advance >= 1
    ensures m.number != r.counter ==> advance == 0
    ensures m.number != r.counter && IsFuture(m.number, r.counter) ==> m.number in Accept(r, m).pending
  {
    if m.number == r.counter {
      var r1 := Deliver(r, m);
      DrainMovesOn(r1);
      advance := |r1.pending| - |DrainPending(r1).pending| + 1;
      OneFurther(r.counter, advance - 1);
    } else {
      advance := 0;
    }
  }

  /** Old news stays old news as the receiver moves on. */
  lemma StaysHandled(r: Receiver, r': Receiver, advance: nat, n: U16, slack: nat, slack': nat)
    requires MovedOn(r, r', advance) && slack' + advance <= slack <= MAX_PENDING
    requires OldNews(r, n, slack)
    ensures OldNews(r', n, slack')
  {
    if n !in r.pending {
      BackwardShift(r.counter, n, advance);
    }
  }

  /** Near messages stay near as the receiver moves on. */
  lemma StaysNear(r: Receiver, r': Receiver, advance: nat, n: U16, slack: nat, slack': nat)
    requires MovedOn(r, r', advance) && slack' + advance <= slack <= MAX_PENDING
    requires Near(r, n, slack)
    ensures Near(r', n, slack')
  {
    if Distance(n, r.counter) <= 32000 {
      ForwardShift(r.counter, n, advance);
    } else {
      BackwardShift(r.counter, n, advance);
    }
  }

  /** A near message is handled once it has been accepted. */
  lemma BecomesHandled(r: Receiver, m: ParsedMessage, later: nat)
    requires Good(r) && |r.pending| + 1 + later <= MAX_PENDING && Near(r, m.number, |r.pending| + 1 + later)
    ensures OldNews(Accept(r, m), m.number, |Accept(r, m).pending| + later)
  {
    var advance := AcceptMovesOn(r, m);
    if m.number == r.counter {
      BackwardShift(r.counter, r.counter, advance);
    } else if Distance(m.number, r.counter) > 32000 {
      BehindIsNotFuture(r.counter, m.number);
    }
  }

  // ---- a whole datagram ----

  ghost predicate AllNear(r: Receiver, ms: seq<ParsedMessage>, slack: nat) {
    forall i | 0 <= i < |ms| :: Near(r, ms[i].number, slack)
  }

  lemma {:induction false} DatagramKeepsHandled(r: Receiver, ms: seq<ParsedMessage>, n: U16)
    requires Good(r) && |r.pending| + |ms| <= MAX_PENDING && OldNews(r, n, |r.pending| + |ms|)
    ensures OldNews(AcceptAll(r, ms), n, |AcceptAll(r, ms).pending|)
    ensures |AcceptAll(r, ms).pending| <= |r.pending| + |ms|
    decreases |ms|
  {
    if ms != [] {
      var r1 := Accept(r, ms[0]);
      var advance := AcceptMovesOn(r, ms[0]);
      StaysHandled(r, r1, advance, n, |r.pending| + |ms|, |r1.pending| + |ms| - 1);
      DatagramKeepsHandled(r1, ms[1..], n);
    }
  }

  /** After a datagram every message in it is handled. */
  lemma {:induction false} DatagramHandlesAll(r: Receiver, ms: seq<ParsedMessage>, i: nat)
    requires Good(r) && |r.pending| + |ms| <= MAX_PENDING && AllNear(r, ms, |r.pending| + |ms|)
    requires i < |ms|
    ensures var r' := AcceptAll(r, ms); OldNews(r', ms[i].number, |r'.pending|)
    decreases |ms|
  {
    var r1, w := Accept(r, ms[0]), |r.pending| + |ms|;
    var advance := AcceptMovesOn(r, ms[0]);
    var w1 := |r1.pending| + |ms| - 1;
    if i == 0 {
      BecomesHandled(r, ms[0], |ms| - 1);
      DatagramKeepsHandled(r1, ms[1..], ms[0].number);
    } else {
      forall j | 0 <= j < |ms[1..]|
        ensures Near(r1, ms[1..][j].number, w1)
      {
        StaysNear(r, r1, advance, ms[j + 1].number, w, w1);
      }
      DatagramHandlesAll(r1, ms[1..], i - 1);
    }
  }

  // ---- once more ----

  lemma HandledIsInert(r: Receiver, m: ParsedMessage)
    requires Good(r) && OldNews(r, m.number, |r.pending|)
    ensures Accept(r, m) == r
  {
    if m.number !in r.pending {
      BehindIsNotFuture(r.counter, m.number);
    }
  }

  lemma {:induction false} AllHandledIsInert(r: Receiver, ms: seq<ParsedMessage>)
    requires Good(r) && forall i | 0 <= i < |ms| :: OldNews(r, ms[i].number, |r.pending|)
    ensures AcceptAll(r, ms) == r
    decreases |ms|
  {
    if ms != [] {
      HandledIsInert(r, ms[0]);
      forall i | 0 <= i < |ms[1..]|
        ensures OldNews(r, ms[1..][i].number, |r.pending|)
      {
        assert ms[1..][i] == ms[i + 1];
      }
      AllHandledIsInert(r, ms[1..]);
    }
  }

  /** Every number in the datagram is within 32000 of the expected one, and pending has room for all of it. */
  ghost predicate Resendable(r: Receiver, ms: seq<ParsedMessage>) {
    && |r.pending| + |ms| <= MAX_PENDING
    && (forall i | 0 <= i < |ms| ::
          Distance(ms[i].number, r.counter) <= 32000 || Distance(r.counter, ms[i].number) <= 32000)
  }

  /** Sending the same datagram again changes nothing: not the counter, not pending, not the delivered log. */
  lemma ResendIsNoOp(r: Receiver, data: Bytes)
    requires Good(r) && Parse(data).Ok? && Resendable(r, Parse(data).value)
    ensures Process(Process(r, data), data) == Process(r, data)
  {
    var ms := Parse(data).value;
    MessagesAgain(r, ms);
  }

  lemma MessagesAgain(r: Receiver, ms: seq<ParsedMessage>)
    requires Good(r) && Resendable(r, ms)
    ensures var r' := AcceptAll(ResetOnLoneZero(r, ms), ms);
            AcceptAll(ResetOnLoneZero(r', ms), ms) == r'
  {
    hide AcceptAll, OldNews;
    var r0 := ResetOnLoneZero(r, ms);
    ResetIsResendable(r, ms);
    AgainAfter(r0, ms);
    AllHandledIsInert(AcceptAll(r0, ms), ms);
  }

  lemma ResetIsResendable(r: Receiver, ms: seq<ParsedMessage>)
    requires Good(r) && Resendable(r, ms)
    ensures Good(ResetOnLoneZero(r, ms)) && Resendable(ResetOnLoneZero(r, ms), ms)
  {
  }

  /** After the messages, all of them are old news, and the reset does not apply. */
  lemma AgainAfter(r0: Receiver, ms: seq<ParsedMessage>)
    requires Good(r0) && Resendable(r0, ms)
    ensures var r' := AcceptAll(r0, ms);
            && Good(r') && (forall i | 0 <= i < |ms| :: OldNews(r', ms[i].number, |r'.pending|))
            && ResetOnLoneZero(r', ms) == r'
  {
    hide AcceptAll, OldNews;
    var r' := AcceptAll(r0, ms);
    AcceptAllIsGood(r0, ms);
    forall i | 0 <= i < |ms|
      ensures OldNews(r', ms[i].number, |r'.pending|)
    {
      DatagramHandlesAll(r0, ms, i);
    }
    if |ms| == 1 {
      NotExpectedAgain(r', ms[0].number);
    }
  }

  lemma NotExpectedAgain(r: Receiver, n: U16)
    requires Good(r) && OldNews(r, n, |r.pending|)
    ensures n != r.counter
  {
  }
}
