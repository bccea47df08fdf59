/**
 Sessions behind a network that loses, repeats and reorders datagrams: what is handled for a
 client is a prefix of what that client sent.
 */
module Network {
  import opened Common
  import opened Packets
  import opened Session
  import opened SessionRuns
  import opened Rooms

  /** Everything each client has sent on its session, in order. */
  type Histories = map<Address, seq<Payload>>

  /** The k-th datagram of a client arrives. */
  datatype Arrival = Arrival(addr: Address, k: nat)

  /** A message handed to its handler. */
  datatype Handled = Handled(addr: Address, message: ParsedMessage)

  /** One receiver per session, and all messages handled so far, in order. */
  datatype Sessions = Sessions(receivers: map<Address, Receiver>, log: seq<Handled>)

  /** Only what has been sent can arrive. */
  ghost predicate Possible(histories: Histories, arrivals: seq<Arrival>) {
    forall i | 0 <= i < |arrivals| ::
      arrivals[i].addr in histories && arrivals[i].k < |histories[arrivals[i].addr]|
  }

  ghost predicate AllHistoriesPrintable(histories: Histories) {
    forall a <- histories :: AllPrintable(histories[a])
  }

  function HandledFrom(a: Address, ms: seq<ParsedMessage>): seq<Handled> {
    seq(|ms|, i requires 0 <= i < |ms| => Handled(a, ms[i]))
  }

  /** What processing adds to the delivered log is handled, in that order. */
  function TakeIn(s: Sessions, a: Address, datagram: Bytes): Sessions
    requires a in s.receivers
  {
    var r := s.receivers[a];
    ProcessDelivers(r, datagram);
    var r' := Process(r, datagram);
    Sessions(s.receivers[a := r'], s.log + HandledFrom(a, r'.delivered[|r.delivered|..]))
  }

  /** Delivered messages are never taken back. */
  lemma {:induction false} DrainDelivers(r: Receiver)
    ensures r.delivered <= DrainPending(r).delivered
    decreases |r.pending|
  {
    if r.counter in r.pending {
      var rest := r.pending - {r.counter};
      assert rest.Keys == r.pending.Keys - {r.counter};
      DrainDelivers(Deliver(r.(pending := rest), r.pending[r.counter]));
    }
  }

  lemma {:induction false} AcceptAllDelivers(r: Receiver, ms: seq<ParsedMessage>)
    ensures r.delivered <= AcceptAll(r, ms).delivered
    decreases |ms|
  {
    if ms != [] {
      if ms[0].number == r.counter {
        DrainDelivers(Deliver(r, ms[0]));
      }
      AcceptAllDelivers(Accept(r, ms[0]), ms[1..]);
    }
  }

  lemma ProcessDelivers(r: Receiver, datagram: Bytes)
    ensures r.delivered <= Process(r, datagram).delivered
  {
    match Parse(datagram)
    case Err(_) =>
    case Ok(ms) => AcceptAllDelivers(ResetOnLoneZero(r, ms), ms);
  }

  ghost function SessionsAfter(histories: Histories, arrivals: seq<Arrival>): (s: Sessions)
    requires Possible(histories, arrivals)
    ensures s.receivers.Keys == histories.Keys
  {
    if arrivals == [] then Sessions(map a | a in histories :: Receiver(0, map[], []), [])
    else
      var last := arrivals[|arrivals| - 1];
      TakeIn(SessionsAfter(histories, arrivals[..|arrivals| - 1]), last.addr, Bundle(histories[last.addr], last.k))
  }

  // ---- one client's view ----

  ghost function OwnArrivals(arrivals: seq<Arrival>, a: Address): seq<nat> {
    if arrivals == [] then []
    else
      var last := arrivals[|arrivals| - 1];
      OwnArrivals(arrivals[..|arrivals| - 1], a) + (if last.addr == a then [last.k] else [])
  }

  /** What has been handled for one client. */
  ghost function HandledFor(a: Address, log: seq<Handled>): seq<ParsedMessage> {
    if log == [] then []
    else
      var last := log[|log| - 1];
      HandledFor(a, log[..|log| - 1]) + (if last.addr == a then [last.message] else [])
  }

  lemma {:induction false} HandledForAppend(a: Address, x: seq<Handled>, y: seq<Handled>)
    ensures HandledFor(a, x + y) == HandledFor(a, x) + HandledFor(a, y)
  {
    if y == [] {
      assert x + y == x;
    } else {
      HandledForAppend(a, x, y[..|y| - 1]);
      assert (x + y)[..|x + y| - 1] == x + y[..|y| - 1];
    }
  }

  lemma {:induction false} HandledForTagged(a: Address, b: Address, ms: seq<ParsedMessage>)
    ensures HandledFor(a, HandledFrom(b, ms)) == if a == b then ms else []
  {
    if ms != [] {
      var before := ms[..|ms| - 1];
      HandledForTagged(a, b, before);
      assert HandledFrom(b, ms)[..|ms| - 1] == HandledFrom(b, before);
    }
  }

  lemma {:induction false} OwnArrivalsSent(histories: Histories, arrivals: seq<Arrival>, a: Address)
    requires Possible(histories, arrivals) && a in histories
    ensures AllSent(histories[a], OwnArrivals(arrivals, a))
  {
    if arrivals != [] {
      OwnArrivalsSent(histories, arrivals[..|arrivals| - 1], a);
    }
  }

  lemma SeparateStep(histories: Histories, s: Sessions, last: Arrival, a: Address)
    requires last.addr in histories && last.k < |histories[last.addr]|
    requires s.receivers.Keys == histories.Keys && a in histories && HandledFor(a, s.log) == s.receivers[a].delivered
    ensures var datagram := Bundle(histories[last.addr], last.k);
            var s' := TakeIn(s, last.addr, datagram);
            && s'.receivers[a] == (if last.addr == a then Process(s.receivers[a], datagram) else s.receivers[a])
            && HandledFor(a, s'.log) == s'.receivers[a].delivered
  {
    hide Process, Bundle;
    var r := s.receivers[last.addr];
    var r' := Process(r, Bundle(histories[last.addr], last.k));
    ProcessDelivers(r, Bundle(histories[last.addr], last.k));
    var fresh' := r'.delivered[|r.delivered|..];
    HandledForAppend(a, s.log, HandledFrom(last.addr, fresh'));
    HandledForTagged(a, last.addr, fresh');
  }

  lemma ReceiverAfterOne(history: seq<Payload>, arrivals: seq<nat>, k: nat)
    requires AllSent(history, arrivals) && k < |history|
    ensures AllSent(history, arrivals + [k])
    ensures ReceiverAfter(history, arrivals + [k]) == Arrive(ReceiverAfter(history, arrivals), history, k)
  {
    assert (arrivals + [k])[..|arrivals|] == arrivals;
  }

  /** A client's session depends on its own datagrams alone, and what is handled for it is what its session delivers. */
  lemma {:induction false} SessionsAreSeparate(histories: Histories, arrivals: seq<Arrival>, a: Address)
    requires Possible(histories, arrivals) && AllHistoriesPrintable(histories) && a in histories
    ensures AllSent(histories[a], OwnArrivals(arrivals, a))
    ensures var s := SessionsAfter(histories, arrivals);
            && s.receivers[a] == ReceiverAfter(histories[a], OwnArrivals(arrivals, a))
            && HandledFor(a, s.log) == s.receivers[a].delivered
  {
    hide TakeIn, Process, Arrive, Bundle, HandledFor, ReceiverAfter, AllSent;
    OwnArrivalsSent(histories, arrivals, a);
    if arrivals == [] {
      NothingYet(histories, a);
    } else {
      var before, last := arrivals[..|arrivals| - 1], arrivals[|arrivals| - 1];
      var s := SessionsAfter(histories, before);
      SessionsAreSeparate(histories, before, a);
      SeparateStep(histories, s, last, a);
      var own := OwnArrivals(before, a);
      assert OwnArrivals(arrivals, a) == if last.addr == a then own + [last.k] else own;
      if last.addr == a {
        ReceiverAfterOne(histories[a], own, last.k);
        DatagramArrives(s.receivers[a], histories[a], last.k);
      }
    }
  }

  lemma NothingYet(histories: Histories, a: Address)
    requires a in histories
    ensures ReceiverAfter(histories[a], []) == Receiver(0, map[], []) && HandledFor(a, []) == []
  {
  }

  ghost predicate TimelyFor(histories: Histories, arrivals: seq<Arrival>, a: Address)
    requires Possible(histories, arrivals) && a in histories
  {
    OwnArrivalsSent(histories, arrivals, a);
    AllTimely(histories[a], OwnArrivals(arrivals, a))
  }

  /** c is the first number of the client's that has not been received. */
  ghost predicate FirstMissing(arrivals: seq<Arrival>, a: Address, c: nat) {
    var got := Received(OwnArrivals(arrivals, a));
    c !in got && forall i: nat | i < c :: i in got
  }

  /** What has been handled for a client is what it sent, up to the first message not received. */
  ghost predicate HandledInOrder(histories: Histories, arrivals: seq<Arrival>, a: Address)
    requires Possible(histories, arrivals) && a in histories
  {
    exists c: nat | c <= |histories[a]| && FirstMissing(arrivals, a, c) ::
      HandledFor(a, SessionsAfter(histories, arrivals).log) == WirePrefix(histories[a], c)
  }

  /**
   After any loss, repetition and reordering in the window, what is handled for a client is what it
   sent, up to the first loss.
   */
  lemma HandledIsAPrefix(histories: Histories, arrivals: seq<Arrival>, a: Address)
    requires Possible(histories, arrivals) && AllHistoriesPrintable(histories)
    requires a in histories && TimelyFor(histories, arrivals, a)
    ensures HandledInOrder(histories, arrivals, a)
  {
    SessionsAreSeparate(histories, arrivals, a);
    ReceiverIsASet(histories[a], OwnArrivals(arrivals, a));
    var c := |ReceiverAfter(histories[a], OwnArrivals(arrivals, a)).delivered|;
    assert FirstMissing(arrivals, a, c);
  }

  lemma {:induction false} HandledGrows(log: seq<Handled>, n: nat, a: Address)
    requires n <= |log|
    ensures HandledFor(a, log[..n]) <= HandledFor(a, log)
    decreases |log|
  {
    if n == |log| {
      assert log[..n] == log;
    } else {
      var before := log[..|log| - 1];
      HandledGrows(before, n, a);
      assert before[..n] == log[..n];
    }
  }

  // ---- any address ----

  /** What a client has sent; nothing if it has no session. */
  function History(histories: Histories, a: Address): seq<Payload> {
    if a in histories then histories[a] else []
  }

  lemma {:induction false} StrangersAreNotHandled(log: seq<Handled>, a: Address)
    requires forall i | 0 <= i < |log| :: log[i].addr != a
    ensures HandledFor(a, log) == []
    decreases |log|
  {
    if log != [] {
      StrangersAreNotHandled(log[..|log| - 1], a);
    }
  }

  lemma {:induction false} HandledAreClients(histories: Histories, arrivals: seq<Arrival>)
    requires Possible(histories, arrivals)
    ensures forall i | 0 <= i < |SessionsAfter(histories, arrivals).log| ::
              SessionsAfter(histories, arrivals).log[i].addr in histories
    decreases |arrivals|
  {
    hide Process, Bundle;
    if arrivals != [] {
      HandledAreClients(histories, arrivals[..|arrivals| - 1]);
    }
  }

  /** For any address, what is handled is a prefix of what was sent. */
  lemma HandledIsSent(histories: Histories, arrivals: seq<Arrival>, a: Address)
    requires Possible(histories, arrivals) && AllHistoriesPrintable(histories)
    requires a in histories ==> TimelyFor(histories, arrivals, a)
    ensures var handled := HandledFor(a, SessionsAfter(histories, arrivals).log);
            |handled| <= |History(histories, a)| && handled == WirePrefix(History(histories, a), |handled|)
  {
    if a in histories {
      HandledIsAPrefix(histories, arrivals, a);
    } else {
      HandledAreClients(histories, arrivals);
      StrangersAreNotHandled(SessionsAfter(histories, arrivals).log, a);
    }
  }
}
