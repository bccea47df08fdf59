/** What the receiver makes of a sender's bundles under loss, duplication and reordering. */
module SessionRuns {
  import opened Common
  import opened Packets
  import opened Session

  // ---- numbers ----

  /** The absolute number at or after c that a 16-bit number stands for. */
  function Absolute(number: U16, c: nat): (m: nat)
    ensures c <= m < c + 0x1_0000
  {
    c + (number - c) % 0x1_0000
  }

  lemma AbsoluteWraps(number: U16, c: nat)
    ensures Absolute(number, c) % 0x1_0000 == number
  {
  }

  lemma AbsoluteUnique(m: nat, c: nat)
    requires c <= m < c + 0x1_0000
    ensures Absolute(m % 0x1_0000, c) == m
  {
  }

  lemma AbsoluteShift(number: U16, c: nat)
    requires number != c % 0x1_0000
    ensures Absolute(number, c + 1) == Absolute(number, c)
    ensures Absolute(number, c) > c
  {
  }

  /** The numbers c+1 .. c+span are few, so are keys confined to them. */
  lemma {:induction false} FewKeys(keys: set<U16>, c: nat, span: nat)
    requires span < 0x1_0000
    requires forall k <- keys :: c < Absolute(k, c) <= c + span
    ensures |keys| <= span
  {
    if keys != {} {
      var k :| k in keys;
      assert c < Absolute(k, c) <= c + span;
      var last: U16 := (c + span) % 0x1_0000;
      AbsoluteUnique(c + span, c);
      var rest := keys - {last};
      forall k <- rest
        ensures c < Absolute(k, c) <= c + span - 1
      {
        AbsoluteWraps(k, c);
      }
      FewKeys(rest, c, span - 1);
      assert |keys| <= |rest| + 1;
    }
  }

  // ---- the set the receiver stands for ----

  /** How far ahead of the expected number a message may run. */
  const WINDOW_AHEAD: nat := 255

  /** How far behind it may lag. */
  const WINDOW_BEHIND: nat := 32769

  /** The first c messages on the wire. */
  ghost function WirePrefix(history: seq<Payload>, c: nat): (ms: seq<ParsedMessage>)
    requires c <= |history|
    ensures |ms| == c
  {
    seq(c, i requires 0 <= i < c => WireMessage(history, i))
  }

  /** Pending holds exactly the numbers of `got` from c on, under their 16-bit names. */
  ghost predicate PendingIs(pending: map<U16, ParsedMessage>, history: seq<Payload>, got: set<nat>, c: nat) {
    && (forall k <- pending ::
          && Absolute(k, c) in got
          && Absolute(k, c) < |history| && Absolute(k, c) <= c + WINDOW_AHEAD
          && pending[k] == WireMessage(history, Absolute(k, c)))
    && (forall m <- got :: m >= c ==> m % 0x1_0000 in pending)
  }

  /** `got` has everything below c, and nothing unsent or too far above. */
  ghost predicate GotIs(got: set<nat>, c: nat, sent: nat) {
    && (forall i: nat | i < c :: i in got)
    && (forall m <- got :: m < sent && m <= c + WINDOW_AHEAD)
  }

  /** The receiver has delivered the first c messages and buffers the rest of `got`. */
  ghost predicate Represents(r: Receiver, history: seq<Payload>, got: set<nat>) {
    var c := |r.delivered|;
    && c <= |history|
    && r.counter == c % 0x1_0000
    && r.delivered == WirePrefix(history, c)
    && GotIs(got, c, |history|)
    && PendingIs(r.pending, history, got, c)
  }

  /** Nothing deliverable is left undelivered: the expected number is the least one missing. */
  ghost predicate Settled(r: Receiver, got: set<nat>) {
    |r.delivered| !in got
  }

  /**
   Delivering c takes its key out of pending, if it was there, and leaves the other keys standing for
   what they did.
   */
  lemma PendingMovesOn(pending: map<U16, ParsedMessage>, history: seq<Payload>, got: set<nat>, c: nat)
    requires PendingIs(pending, history, got, c)
    requires forall m <- got :: m <= c + WINDOW_AHEAD
    ensures PendingIs(pending - {c % 0x1_0000}, history, got + {c}, c + 1)
  {
    var pending' := pending - {c % 0x1_0000};
    forall k <- pending'
      ensures Absolute(k, c + 1) == Absolute(k, c)
    {
      AbsoluteShift(k, c);
    }
    forall m <- got + {c} | m >= c + 1
      ensures m % 0x1_0000 in pending'
    {
      AbsoluteUnique(m, c);
      AbsoluteUnique(c, c);
    }
  }

  lemma DeliverRepresents(r: Receiver, history: seq<Payload>, got: set<nat>)
    requires Represents(r, history, got) && |r.delivered| < |history|
    ensures var c := |r.delivered|;
            Represents(Deliver(r.(pending := r.pending - {r.counter}), WireMessage(history, c)), history, got + {c})
  {
    var c := |r.delivered|;
    PendingMovesOn(r.pending, history, got, c);
    WirePrefixOne(history, c);
    NextNumber(c);
    GotMovesOn(got, c, |history|);
  }

  lemma GotMovesOn(got: set<nat>, c: nat, sent: nat)
    requires GotIs(got, c, sent) && c < sent
    ensures GotIs(got + {c}, c + 1, sent)
  {
  }

  lemma WirePrefixOne(history: seq<Payload>, c: nat)
    requires c < |history|
    ensures WirePrefix(history, c + 1) == WirePrefix(history, c) + [WireMessage(history, c)]
  {
  }

  /** The expected message is pending exactly when it has been received, and then it can be delivered as it was sent. */
  lemma ExpectedIsPending(r: Receiver, history: seq<Payload>, got: set<nat>)
    requires Represents(r, history, got)
    ensures var c := |r.delivered|;
            && (r.counter in r.pending <==> c in got)
            && (c in got ==> c < |history| && r.pending[r.counter] == WireMessage(history, c))
  {
    var c := |r.delivered|;
    AbsoluteUnique(c, c);
  }

  lemma DeliveredWithinWindow(r: Receiver, r': Receiver, history: seq<Payload>, got: set<nat>)
    requires Represents(r, history, got) && Represents(r', history, got) && |r.delivered| <= |r'.delivered|
    ensures |r'.delivered| <= |r.delivered| + WINDOW_AHEAD + 1
  {
    if |r'.delivered| > |r.delivered| {
      assert |r'.delivered| - 1 in got;
    }
  }

  /** Draining reaches the least missing number and leaves exactly the rest pending. */
  lemma {:induction false} DrainRepresents(r: Receiver, history: seq<Payload>, got: set<nat>)
    requires Represents(r, history, got)
    ensures var r' := DrainPending(r);
            && Represents(r', history, got) && Settled(r', got)
            && |r.delivered| <= |r'.delivered| <= |r.delivered| + WINDOW_AHEAD + 1
    decreases |r.pending|
  {
    hide Represents;
    ExpectedIsPending(r, history, got);
    if r.counter in r.pending {
      var rest := r.pending - {r.counter};
      assert rest.Keys == r.pending.Keys - {r.counter};
      DeliverRepresents(r, history, got);
      assert got + {|r.delivered|} == got;
      DrainRepresents(Deliver(r.(pending := rest), r.pending[r.counter]), history, got);
    }
    DeliveredWithinWindow(r, DrainPending(r), history, got);
  }

  /** Message m arrives at a time when c is expected and m is within the window around c. */
  ghost predicate Timely(c: nat, m: nat) {
    c <= m + WINDOW_BEHIND && m <= c + WINDOW_AHEAD
  }

  lemma OldIsNotFuture(c: nat, m: nat)
    requires m < c <= m + WINDOW_BEHIND
    ensures m % 0x1_0000 != c % 0x1_0000 && !IsFuture(m % 0x1_0000, c % 0x1_0000)
  {
  }

  lemma AheadIsFuture(c: nat, m: nat)
    requires c < m <= c + WINDOW_AHEAD
    ensures m % 0x1_0000 != c % 0x1_0000 && IsFuture(m % 0x1_0000, c % 0x1_0000)
  {
  }

  /** The test is exact from 32769 behind to 32766 ahead, and no further on either side. */
  lemma FutureWindow(c: nat, m: nat)
    ensures c <= m + 32769 && m <= c + 32766 ==> (IsFuture(m % 0x1_0000, c % 0x1_0000) <==> m > c)
    ensures m == c + 32767 ==> !IsFuture(m % 0x1_0000, c % 0x1_0000)
    ensures c == m + 32770 ==> IsFuture(m % 0x1_0000, c % 0x1_0000)
  {
    if m > c {
      var a := m - c;
      assert m % 0x1_0000 == (c % 0x1_0000 + a) % 0x1_0000;
    } else {
      var a := c - m;
      assert c % 0x1_0000 == (m % 0x1_0000 + a) % 0x1_0000;
    }
  }

  lemma RoomForOneMore(pending: map<U16, ParsedMessage>, history: seq<Payload>, got: set<nat>, c: nat)
    requires PendingIs(pending, history, got, c) && c !in got
    ensures |pending| < MAX_PENDING
  {
    FewKeys(pending.Keys, c, WINDOW_AHEAD);
    assert |pending.Keys| == |pending|;
  }

  /** A timely message joins the set, and everything it makes deliverable is delivered. */
  lemma AcceptRepresents(r: Receiver, history: seq<Payload>, got: set<nat>, m: nat)
    requires Represents(r, history, got) && Settled(r, got)
    requires m < |history| && Timely(|r.delivered|, m)
    ensures var r' := Accept(r, WireMessage(history, m));
            && Represents(r', history, got + {m}) && Settled(r', got + {m})
            && (if m == |r.delivered| then |r.delivered| <= |r'.delivered| <= |r.delivered| + 257
                else r'.delivered == r.delivered)
  {
    hide DrainPending, IsFuture, PendingIs, WirePrefix;
    var c := |r.delivered|;
    if m == c {
      NextRepresents(r, history, got);
    } else if m < c {
      OldIsNotFuture(c, m);
      assert got + {m} == got;
    } else {
      AheadIsFuture(c, m);
      RoomForOneMore(r.pending, history, got, c);
      InsertRepresents(r, history, got, m);
    }
  }

  lemma NextRepresents(r: Receiver, history: seq<Payload>, got: set<nat>)
    requires Represents(r, history, got) && Settled(r, got) && |r.delivered| < |history|
    ensures var m := |r.delivered|;
            var r' := DrainPending(Deliver(r, WireMessage(history, m)));
            && Represents(r', history, got + {m}) && Settled(r', got + {m})
            && m <= |r'.delivered| <= m + 257
  {
    hide DrainPending, WirePrefix;
    var m := |r.delivered|;
    assert r.pending - {r.counter} == r.pending by {
      AbsoluteUnique(m, m);
    }
    DeliverRepresents(r, history, got);
    DrainRepresents(Deliver(r, WireMessage(history, m)), history, got + {m});
  }

  lemma InsertRepresents(r: Receiver, history: seq<Payload>, got: set<nat>, m: nat)
    requires Represents(r, history, got) && m < |history|
    requires |r.delivered| < m <= |r.delivered| + WINDOW_AHEAD
    ensures var k := m % 0x1_0000;
            Represents(if k in r.pending then r
                else r.(pending := r.pending[k := WireMessage(history, m)]), history, got + {m})
  {
    hide WirePrefix;
    InsertPending(r.pending, history, got, |r.delivered|, m);
  }

  lemma InsertPending(pending: map<U16, ParsedMessage>, history: seq<Payload>, got: set<nat>, c: nat, m: nat)
    requires PendingIs(pending, history, got, c) && m < |history| && c < m <= c + WINDOW_AHEAD
    ensures var k := m % 0x1_0000;
            PendingIs(if k in pending then pending else pending[k := WireMessage(history, m)], history, got + {m}, c)
  {
    hide Absolute;
    AbsoluteUnique(m, c);
  }

  // ---- bundles ----

  function BundleNumbers(k: nat): set<nat> {
    {k} + (if k >= 1 then {k - 1} else {}) + (if k >= 2 then {k - 2} else {})
  }

  /** A bundle's numbers all lie in the window around the number expected when it arrives. */
  ghost predicate BundleTimely(c: nat, k: nat) {
    Timely(c, k) && Timely(c, Oldest(k + 1))
  }

  lemma AcceptAllOne(r: Receiver, a: ParsedMessage)
    ensures AcceptAll(r, [a]) == Accept(r, a)
  {
    assert [a][1..] == [];
  }

  ghost predicate AllBelow(ns: seq<nat>, n: nat) {
    forall i | 0 <= i < |ns| :: ns[i] < n
  }

  function WireMessages(history: seq<Payload>, ns: seq<nat>): seq<ParsedMessage>
    requires AllBelow(ns, |history|)
  {
    seq(|ns|, i requires 0 <= i < |ns| => WireMessage(history, ns[i]))
  }

  ghost function Joined(got: set<nat>, ns: seq<nat>): set<nat>
    decreases |ns|
  {
    if ns == [] then got else Joined(got + {ns[0]}, ns[1..])
  }

  /** Every number is close below `first` and within the window around c. */
  ghost predicate AllClose(ns: seq<nat>, first: nat, c: nat) {
    forall i | 0 <= i < |ns| :: ns[i] <= first <= ns[i] + 2 && Timely(c, ns[i])
  }

  /**
   A run of close, timely messages joins the set one by one: delivering one cannot push the next out of
   the window.
   */
  lemma {:induction false} RunRepresents(r: Receiver, history: seq<Payload>, got: set<nat>, ns: seq<nat>, first: nat,
      c: nat)
    requires Represents(r, history, got) && Settled(r, got)
    requires AllBelow(ns, |history|) && AllClose(ns, first, c)
    requires |r.delivered| == c || c <= |r.delivered| <= first + 257
    ensures var r' := AcceptAll(r, WireMessages(history, ns));
            Represents(r', history, Joined(got, ns)) && Settled(r', Joined(got, ns))
    decreases |ns|
  {
    if ns != [] {
      AcceptRepresents(r, history, got, ns[0]);
      assert WireMessages(history, ns)[1..] == WireMessages(history, ns[1..]);
      RunRepresents(Accept(r, WireMessage(history, ns[0])), history, got + {ns[0]}, ns[1..], first, c);
    }
  }

  /** k, k-1, k-2 as far as they exist. */
  function BundleOrder(k: nat): (ns: seq<nat>)
    ensures AllBelow(ns, k + 1)
  {
    if k == 0 then [0] else if k == 1 then [1, 0] else [k, k - 1, k - 2]
  }

  lemma BundleMessagesInOrder(history: seq<Payload>, k: nat)
    requires k < |history|
    ensures BundleMessages(history, k) == WireMessages(history, BundleOrder(k))
  {
  }

  lemma JoinedBundle(got: set<nat>, k: nat)
    ensures Joined(got, BundleOrder(k)) == got + BundleNumbers(k)
  {
    if k == 0 {
      assert [0][1..] == [];
    } else if k == 1 {
      assert [1, 0][1..] == [0] && [0][1..] == [];
    } else {
      assert [k, k - 1, k - 2][1..] == [k - 1, k - 2] && [k - 1, k - 2][1..] == [k - 2] && [k - 2][1..] == [];
      assert Joined(got + {k}, [k - 1, k - 2]) == Joined(got + {k} + {k - 1}, [k - 2]);
    }
  }

  lemma BundleRepresents(r: Receiver, history: seq<Payload>, got: set<nat>, k: nat)
    requires Represents(r, history, got) && Settled(r, got)
    requires k < |history| && BundleTimely(|r.delivered|, k)
    ensures var r' := AcceptAll(r, BundleMessages(history, k));
            Represents(r', history, got + BundleNumbers(k)) && Settled(r', got + BundleNumbers(k))
  {
    BundleMessagesInOrder(history, k);
    JoinedBundle(got, k);
    RunRepresents(r, history, got, BundleOrder(k), k, |r.delivered|);
  }

  lemma BundleMessagesCases(history: seq<Payload>, k: nat)
    requires k < |history|
    ensures k == 0 ==> BundleMessages(history, k) == [WireMessage(history, 0)]
    ensures k > 0 ==> |BundleMessages(history, k)| > 1
  {
  }

  lemma BundleNumbersCases(k: nat)
    ensures k == 0 ==> BundleNumbers(k) == {0}
    ensures k == 1 ==> BundleNumbers(k) == {1} + {0}
    ensures k >= 2 ==> BundleNumbers(k) == {k} + {k - 1} + {k - 2}
  {
  }

  /** Among this sender's bundles only the very first can trigger the reset, and only before anything is delivered. */
  lemma OnlyFirstBundleResets(r: Receiver, history: seq<Payload>, got: set<nat>, k: nat)
    requires Represents(r, history, got) && k < |history| && BundleTimely(|r.delivered|, k)
    ensures ResetOnLoneZero(r, BundleMessages(history, k)) ==
            if k == 0 && |r.delivered| == 0 then r.(pending := map[]) else r
  {
    BundleMessagesCases(history, k);
    if k == 0 {
      SmallNumber(|r.delivered|);
    }
  }

  lemma SmallNumber(c: nat)
    requires c < 0x1_0000
    ensures c % 0x1_0000 == c
  {
  }

  // ---- arrivals ----

  /** Only bundles that have been sent can arrive. */
  ghost predicate AllSent(history: seq<Payload>, arrivals: seq<nat>) {
    forall i | 0 <= i < |arrivals| :: arrivals[i] < |history|
  }

  /** What one bundle's messages do to the receiver. */
  function Arrive(r: Receiver, history: seq<Payload>, k: nat): Receiver
    requires k < |history|
  {
    AcceptAll(ResetOnLoneZero(r, BundleMessages(history, k)), BundleMessages(history, k))
  }

  /** Nothing is lost between the sender's messages and the receiver's bytes. */
  lemma DatagramArrives(r: Receiver, history: seq<Payload>, k: nat)
    requires k < |history| && AllPrintable(history)
    ensures Process(r, Bundle(history, k)) == Arrive(r, history, k)
  {
    BundleParses(history, k);
  }

  /** The receiver after the given bundles arrive in the given order; `arrivals` may skip, repeat and reorder. */
  ghost function ReceiverAfter(history: seq<Payload>, arrivals: seq<nat>): Receiver
    requires AllSent(history, arrivals)
  {
    if arrivals == [] then Receiver(0, map[], [])
    else Arrive(ReceiverAfter(history, arrivals[..|arrivals| - 1]), history, arrivals[|arrivals| - 1])
  }

  /** The same, datagram by datagram. */
  ghost function ReceiverAfterDatagrams(datagrams: seq<Bytes>): Receiver {
    if datagrams == [] then Receiver(0, map[], [])
    else Process(ReceiverAfterDatagrams(datagrams[..|datagrams| - 1]), datagrams[|datagrams| - 1])
  }

  /** Sender's bytes in, receiver's state out: the datagrams of a sender have the effect of its bundles. */
  lemma {:induction false} WireRun(history: seq<Payload>, arrivals: seq<nat>, datagrams: seq<Bytes>)
    requires AllPrintable(history) && AllSent(history, arrivals) && |datagrams| == |arrivals|
    requires forall i | 0 <= i < |arrivals| :: datagrams[i] == Bundle(history, arrivals[i])
    ensures ReceiverAfterDatagrams(datagrams) == ReceiverAfter(history, arrivals)
  {
    if arrivals != [] {
      var n := |arrivals| - 1;
      WireRun(history, arrivals[..n], datagrams[..n]);
      DatagramArrives(ReceiverAfter(history, arrivals[..n]), history, arrivals[n]);
    }
  }

  /** Every bundle arrives while its numbers are in the window. */
  ghost predicate AllTimely(history: seq<Payload>, arrivals: seq<nat>)
    requires AllSent(history, arrivals)
  {
    arrivals == [] ||
    (var before := arrivals[..|arrivals| - 1];
     AllTimely(history, before) && BundleTimely(|ReceiverAfter(history, before).delivered|, arrivals[|arrivals| - 1]))
  }

  /** The numbers received, forgetting what was buffered when the first bundle came late. */
  ghost function Received(arrivals: seq<nat>): set<nat> {
    if arrivals == [] then {}
    else
      var before, k := Received(arrivals[..|arrivals| - 1]), arrivals[|arrivals| - 1];
      (if k == 0 && 0 !in before then {} else before) + BundleNumbers(k)
  }

  lemma FreshReceiver(history: seq<Payload>)
    ensures Represents(Receiver(0, map[], []), history, {}) && Settled(Receiver(0, map[], []), {})
  {
  }

  lemma BundleArrives(r: Receiver, history: seq<Payload>, got: set<nat>, k: nat)
    requires Represents(r, history, got) && Settled(r, got)
    requires k < |history| && BundleTimely(|r.delivered|, k)
    ensures var got' := (if k == 0 && 0 !in got then {} else got) + BundleNumbers(k);
            Represents(Arrive(r, history, k), history, got') && Settled(Arrive(r, history, k), got')
  {
    OnlyFirstBundleResets(r, history, got, k);
    if k == 0 && 0 !in got {
      assert r.(pending := map[]) == Receiver(0, map[], []);
      FreshReceiver(history);
      BundleRepresents(Receiver(0, map[], []), history, {}, k);
    } else {
      BundleRepresents(r, history, got, k);
    }
  }

  lemma {:induction false} ArrivalsRepresented(history: seq<Payload>, arrivals: seq<nat>)
    requires AllSent(history, arrivals) && AllTimely(history, arrivals)
    ensures var r, got := ReceiverAfter(history, arrivals), Received(arrivals);
            Represents(r, history, got) && Settled(r, got)
  {
    if arrivals == [] {
      FreshReceiver(history);
    } else {
      var before, k := arrivals[..|arrivals| - 1], arrivals[|arrivals| - 1];
      ArrivalsRepresented(history, before);
      BundleArrives(ReceiverAfter(history, before), history, Received(before), k);
    }
  }

  /**
   The receiver is a set with a least missing element: after any loss, duplication and
   reordering within the window, the delivered log is the sender's messages up to the first
   number not received, and pending is exactly the received numbers above it. The counter
   and the keys are 16-bit; the statement is about absolute numbers, so wrap-around is covered.
   */
  lemma ReceiverIsASet(history: seq<Payload>, arrivals: seq<nat>)
    requires AllSent(history, arrivals) && AllTimely(history, arrivals)
    ensures var r, got := ReceiverAfter(history, arrivals), Received(arrivals);
            var c := |r.delivered|;
            && c <= |history| && r.delivered == WirePrefix(history, c) && r.counter == c % 0x1_0000
            && c !in got && (forall i: nat | i < c :: i in got)
            && (forall m: nat :: m in got && m > c <==>
                  m > c && m < c + 0x1_0000 && m % 0x1_0000 in r.pending)
            && (forall m <- got :: m > c ==> m < |history| && m % 0x1_0000 in r.pending
                                             && r.pending[m % 0x1_0000] == WireMessage(history, m))
  {
    ArrivalsRepresented(history, arrivals);
    var r, got := ReceiverAfter(history, arrivals), Received(arrivals);
    var c := |r.delivered|;
    forall m: nat | c <= m < c + 0x1_0000
      ensures Absolute(m % 0x1_0000, c) == m
    {
      AbsoluteUnique(m, c);
    }
  }

  function UnionOf(arrivals: seq<nat>): set<nat> {
    if arrivals == [] then {} else UnionOf(arrivals[..|arrivals| - 1]) + BundleNumbers(arrivals[|arrivals| - 1])
  }

  /** Once message 0 is in, nothing received is ever forgotten. */
  lemma {:induction false} ReceivedIsTheUnion(first: seq<nat>, later: seq<nat>)
    requires 0 in Received(first)
    ensures Received(first + later) == Received(first) + UnionOf(later)
  {
    if later == [] {
      assert first + later == first;
    } else {
      ReceivedIsTheUnion(first, later[..|later| - 1]);
      assert (first + later)[..|first + later| - 1] == first + later[..|later| - 1];
    }
  }

  /**
   The reset, exactly: when the first bundle arrives and nothing has been delivered, the
   receiver still stands for everything received iff nothing was pending.
   */
  lemma LateFirstBundleForgets(r: Receiver, history: seq<Payload>, got: set<nat>)
    requires Represents(r, history, got) && Settled(r, got) && |r.delivered| == 0
    requires history != []
    ensures Represents(Arrive(r, history, 0), history, got + BundleNumbers(0)) <==> r.pending == map[]
  {
    ResetThenFirst(r, history);
    BundleNumbersCases(0);
    PendingEmptyIff(r, history, got);
    OnlyFirstIsLeft(history, got);
  }

  lemma PendingEmptyIff(r: Receiver, history: seq<Payload>, got: set<nat>)
    requires Represents(r, history, got) && |r.delivered| == 0
    ensures r.pending == map[] <==> got == {}
  {
    if r.pending != map[] {
      var k :| k in r.pending;
      assert Absolute(k, 0) in got;
    }
    if got != {} {
      var m :| m in got;
      assert m % 0x1_0000 in r.pending;
    }
  }

  /** With only message 0 delivered and nothing pending, the receiver stands for {0}. */
  lemma OnlyFirstIsLeft(history: seq<Payload>, got: set<nat>)
    requires history != [] && 0 !in got
    ensures Represents(Receiver(1, map[], [WireMessage(history, 0)]), history, got + {0}) <==> got == {}
  {
    var r := Receiver(1, map[], [WireMessage(history, 0)]);
    if got == {} {
      assert r.delivered == WirePrefix(history, 1);
    } else {
      var m :| m in got;
      assert m in got + {0} && m >= 1;
    }
  }

  lemma ResetThenFirst(r: Receiver, history: seq<Payload>)
    requires r.counter == 0 && r.delivered == [] && history != []
    ensures Arrive(r, history, 0) == Receiver(1, map[], [WireMessage(history, 0)])
  {
    var m, r1 := WireMessage(history, 0), r.(pending := map[]);
    BundleMessagesCases(history, 0);
    assert ResetOnLoneZero(r, [m]) == r1;
    AcceptAllOne(r1, m);
    assert DrainPending(Deliver(r1, m)) == Deliver(r1, m);
  }

  /** For instance: bundle 3 overtakes bundle 0, and messages 1 to 3 have to be sent again. */
  lemma OvertakenFirstBundle(history: seq<Payload>)
    requires |history| >= 4
    ensures ReceiverAfter(history, [3, 0]).delivered == WirePrefix(history, 1)
    ensures UnionOf([3, 0]) == {0, 1, 2, 3}
  {
    var arrivals := [3, 0];
    assert arrivals[..1] == [3];
    ThirdFirst(history);
    ResetThenFirst(ReceiverAfter(history, [3]), history);
    assert ReceiverAfter(history, arrivals) == Arrive(ReceiverAfter(history, [3]), history, 0);
    assert WirePrefix(history, 1) == [WireMessage(history, 0)];
    UnionOfThreeZero();
  }

  lemma UnionOfThreeZero()
    ensures UnionOf([3, 0]) == {0, 1, 2, 3}
  {
    assert [3, 0][..1] == [3] && [3][..0] == [];
    assert UnionOf([3]) == UnionOf([]) + BundleNumbers(3);
  }

  lemma ThirdFirst(history: seq<Payload>)
    requires |history| >= 4
    ensures var r := ReceiverAfter(history, [3]); r.counter == 0 && r.delivered == []
  {
    assert [3][..0] == [];
    BundleNumbersCases(3);
    FreshReceiver(history);
    BundleArrives(Receiver(0, map[], []), history, {}, 3);
    NothingDeliveredYet(Arrive(Receiver(0, map[], []), history, 3), history, {} + BundleNumbers(3));
  }

  lemma NothingDeliveredYet(r: Receiver, history: seq<Payload>, got: set<nat>)
    requires Represents(r, history, got) && 0 !in got
    ensures r.delivered == [] && r.counter == 0
  {
  }

  // ---- a full buffer ----

  /** Messages 1 .. n on the wire. */
  ghost function AllButFirst(history: seq<Payload>, n: nat): seq<ParsedMessage>
    requires n < |history|
  {
    seq(n, i requires 0 <= i < n => WireMessage(history, i + 1))
  }

  lemma {:induction false} AcceptAllSnoc(r: Receiver, ms: seq<ParsedMessage>, m: ParsedMessage)
    ensures AcceptAll(r, ms + [m]) == Accept(AcceptAll(r, ms), m)
    decreases |ms|
  {
    hide Accept;
    if ms == [] {
      assert ms + [m] == [m];
      AcceptAllOne(r, m);
    } else {
      AcceptAllSnoc(Accept(r, ms[0]), ms[1..], m);
      assert (ms + [m])[1..] == ms[1..] + [m];
    }
  }

  /** Messages kept while message 0 is missing: the first 256 of them, and all later ones are lost. */
  lemma {:induction false} BufferHolds256(history: seq<Payload>, n: nat)
    requires n < |history| && n <= 32766
    ensures var r := AcceptAll(Receiver(0, map[], []), AllButFirst(history, n));
            && r.counter == 0 && r.delivered == [] && |r.pending| == (if n <= 256 then n else 256)
            && forall k: U16 :: k in r.pending <==> 1 <= k <= n && k <= 256
    decreases n
  {
    hide AcceptAll, DrainPending;
    if n == 0 {
      NothingAccepted(Receiver(0, map[], []));
    } else {
      var r := AcceptAll(Receiver(0, map[], []), AllButFirst(history, n - 1));
      BufferHolds256(history, n - 1);
      assert AllButFirst(history, n) == AllButFirst(history, n - 1) + [WireMessage(history, n)];
      AcceptAllSnoc(Receiver(0, map[], []), AllButFirst(history, n - 1), WireMessage(history, n));
    }
  }

  lemma NothingAccepted(r: Receiver)
    ensures AcceptAll(r, []) == r
  {
  }
}
