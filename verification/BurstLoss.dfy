/** Loss of consecutive bundles when the others arrive in order: two are made good, three are not. */
module BurstLoss {
  import opened Packets
  import opened Session
  import opened SessionRuns

  /** Bundles arrive in order and at most two in a row are lost. */
  ghost predicate ShortBursts(arrivals: seq<nat>) {
    && (arrivals != [] ==> arrivals[0] <= 2)
    && (forall i | 0 < i < |arrivals| :: arrivals[i - 1] < arrivals[i] <= arrivals[i - 1] + 3)
  }

  /** What is expected next after bundles up to the last one here. */
  function Following(arrivals: seq<nat>): nat {
    if arrivals == [] then 0 else arrivals[|arrivals| - 1] + 1
  }

  /** Messages 0 .. n-1 have been delivered, in order, and nothing is pending. */
  ghost predicate CaughtUp(history: seq<Payload>, arrivals: seq<nat>, n: nat)
    requires AllSent(history, arrivals)
  {
    && AllTimely(history, arrivals)
    && n <= |history|
    && ReceiverAfter(history, arrivals) == Receiver(n % 0x1_0000, map[], WirePrefix(history, n))
    && Received(arrivals) == UpTo(n)
  }

  /** Then nothing is lost: after bundle k exactly messages 0 .. k have been delivered. */
  lemma {:induction false} BurstLossRecovers(history: seq<Payload>, arrivals: seq<nat>)
    requires AllSent(history, arrivals) && ShortBursts(arrivals)
    ensures CaughtUp(history, arrivals, Following(arrivals))
  {
    if arrivals == [] {
      UpToGrows(0, 0);
      assert WirePrefix(history, 0) == [];
    } else {
      var before := arrivals[..|arrivals| - 1];
      BurstLossRecovers(history, before);
      BurstExtends(history, arrivals, Following(before));
    }
  }

  lemma BurstExtends(history: seq<Payload>, arrivals: seq<nat>, n: nat)
    requires AllSent(history, arrivals) && arrivals != []
    requires CaughtUp(history, arrivals[..|arrivals| - 1], n)
    requires n <= arrivals[|arrivals| - 1] <= n + 2
    ensures CaughtUp(history, arrivals, arrivals[|arrivals| - 1] + 1)
  {
    hide AllTimely, Received, UpTo, WirePrefix, Arrive;
    ReceivedExtends(arrivals, n);
    TimelyExtends(history, arrivals, n);
    BurstStep(ReceiverAfter(history, arrivals[..|arrivals| - 1]), history, n, arrivals[|arrivals| - 1]);
  }

  lemma TimelyExtends(history: seq<Payload>, arrivals: seq<nat>, n: nat)
    requires AllSent(history, arrivals) && arrivals != [] && AllTimely(history, arrivals[..|arrivals| - 1])
    requires |ReceiverAfter(history, arrivals[..|arrivals| - 1]).delivered| == n
    requires n <= arrivals[|arrivals| - 1] <= n + 2
    ensures AllTimely(history, arrivals)
  {
    assert BundleTimely(n, arrivals[|arrivals| - 1]);
  }

  lemma ReceivedExtends(arrivals: seq<nat>, n: nat)
    requires arrivals != [] && Received(arrivals[..|arrivals| - 1]) == UpTo(n)
    requires n <= arrivals[|arrivals| - 1] <= n + 2
    ensures Received(arrivals) == UpTo(arrivals[|arrivals| - 1] + 1)
  {
    UpToGrows(n, arrivals[|arrivals| - 1]);
  }

  ghost function UpTo(n: nat): (s: set<nat>)
    ensures forall i: nat :: i in s <==> i < n
  {
    if n == 0 then {} else UpTo(n - 1) + {n - 1}
  }

  lemma UpToGrows(n: nat, k: nat)
    requires n <= k <= n + 2
    ensures UpTo(n) + BundleNumbers(k) == UpTo(k + 1)
    ensures n == 0 ==> UpTo(n) == {}
  {
  }

  lemma PrefixRepresents(history: seq<Payload>, n: nat)
    requires n <= |history|
    ensures var r := Receiver(n % 0x1_0000, map[], WirePrefix(history, n));
            Represents(r, history, UpTo(n)) && Settled(r, UpTo(n))
  {
  }

  lemma NextBundleArrives(r: Receiver, history: seq<Payload>, n: nat, k: nat)
    requires n <= k <= n + 2 && k < |history|
    requires Represents(r, history, UpTo(n)) && Settled(r, UpTo(n)) && |r.delivered| == n
    ensures Represents(Arrive(r, history, k), history, UpTo(k + 1)) && Settled(Arrive(r, history, k), UpTo(k + 1))
  {
    UpToGrows(n, k);
    BundleArrives(r, history, UpTo(n), k);
  }

  /** The next bundle to arrive fills the gap its lost predecessors left. */
  lemma BurstStep(r: Receiver, history: seq<Payload>, n: nat, k: nat)
    requires n <= k <= n + 2 && k < |history|
    requires r == Receiver(n % 0x1_0000, map[], WirePrefix(history, n))
    ensures Arrive(r, history, k) == Receiver((k + 1) % 0x1_0000, map[], WirePrefix(history, k + 1))
  {
    PrefixRepresents(history, n);
    NextBundleArrives(r, history, n, k);
    NothingAbove(Arrive(r, history, k), history, k + 1);
  }

  lemma NothingAbove(r: Receiver, history: seq<Payload>, n: nat)
    requires Represents(r, history, UpTo(n)) && Settled(r, UpTo(n))
    ensures n <= |history| && r == Receiver(n % 0x1_0000, map[], WirePrefix(history, n))
  {
    var c, got := |r.delivered|, UpTo(n);
    if c > 0 {
      assert c - 1 in got;
    }
    assert c == n;
    forall k: U16
      ensures k !in r.pending
    {
      NotPending(r.pending, history, got, c, k);
    }
  }

  lemma NotPending(pending: map<U16, ParsedMessage>, history: seq<Payload>, got: set<nat>, c: nat, k: U16)
    requires PendingIs(pending, history, got, c) && (forall m <- got :: m < c)
    ensures k !in pending
  {
  }

  // ---- longer bursts ----

  /** A message with another number than the expected one delivers nothing, unless the expected one is pending. */
  lemma {:induction false} NothingDelivered(r: Receiver, ms: seq<ParsedMessage>)
    requires r.counter !in r.pending && forall i | 0 <= i < |ms| :: ms[i].number != r.counter
    ensures var r' := AcceptAll(r, ms);
            r'.counter == r.counter && r'.delivered == r.delivered && r'.counter !in r'.pending
    decreases |ms|
  {
    if ms != [] {
      NothingDelivered(Accept(r, ms[0]), ms[1..]);
    }
  }

  lemma OtherNumber(n: nat, i: nat)
    requires n < i < n + 0x1_0000
    ensures i % 0x1_0000 != n % 0x1_0000
  {
  }

  lemma StillWaiting(r: Receiver, history: seq<Payload>, n: nat, k: nat)
    requires k < |history| && n + 3 <= k < n + 0x1_0000
    requires r.counter == n % 0x1_0000 && r.counter !in r.pending
    ensures var r' := Arrive(r, history, k);
            r'.counter == r.counter && r'.delivered == r.delivered && r'.counter !in r'.pending
  {
    BundleMessagesCases(history, k);
    OtherNumber(n, k);
    OtherNumber(n, k - 1);
    OtherNumber(n, k - 2);
    NothingDelivered(r, BundleMessages(history, k));
  }

  /** Three bundles lost in a row: the receiver waits for the first number lost, whatever arrives in the next 65535. */
  lemma {:induction false} LongBurstStalls(history: seq<Payload>, first: seq<nat>, later: seq<nat>, n: nat)
    requires AllSent(history, first) && AllSent(history, later) && CaughtUp(history, first, n)
    requires forall i | 0 <= i < |later| :: n + 3 <= later[i] < n + 0x1_0000
    ensures AllSent(history, first + later)
    ensures var r := ReceiverAfter(history, first + later);
            r.counter == n % 0x1_0000 && r.delivered == WirePrefix(history, n) && r.counter !in r.pending
    decreases |later|
  {
    hide Arrive;
    if later == [] {
      assert first + later == first;
    } else {
      var before, k := later[..|later| - 1], later[|later| - 1];
      assert (first + later)[..|first + later| - 1] == first + before;
      LongBurstStalls(history, first, before, n);
      StillWaiting(ReceiverAfter(history, first + before), history, n, k);
    }
  }

  ghost predicate InOrder(arrivals: seq<nat>) {
    forall i, j | 0 <= i < j < |arrivals| :: arrivals[i] < arrivals[j]
  }

  /** One more bundle turns short bursts into a long one exactly by leaving three out. */
  lemma LongBurstAtTheEnd(arrivals: seq<nat>)
    requires InOrder(arrivals) && arrivals != [] && ShortBursts(arrivals[..|arrivals| - 1]) && !ShortBursts(arrivals)
    ensures arrivals[|arrivals| - 1] >= Following(arrivals[..|arrivals| - 1]) + 3
  {
    var n := |arrivals| - 1;
    var before := arrivals[..n];
    forall i | 0 < i < n
      ensures arrivals[i - 1] < arrivals[i] <= arrivals[i - 1] + 3
    {
      assert before[i - 1] < before[i] <= before[i - 1] + 3;
    }
    if n > 0 {
      assert arrivals[0] == before[0] && arrivals[n - 1] < arrivals[n];
    }
  }

  /** The first place where at least three bundles in a row are missing. */
  lemma {:induction false} FirstLongBurst(arrivals: seq<nat>) returns (i: nat)
    requires InOrder(arrivals) && !ShortBursts(arrivals)
    ensures i < |arrivals| && ShortBursts(arrivals[..i]) && arrivals[i] >= Following(arrivals[..i]) + 3
  {
    hide ShortBursts, InOrder;
    NoneIsShort();
    var before := arrivals[..|arrivals| - 1];
    OrderedBefore(arrivals);
    if ShortBursts(before) {
      LongBurstAtTheEnd(arrivals);
      i := |arrivals| - 1;
    } else {
      i := FirstLongBurst(before);
      assert before[..i] == arrivals[..i];
    }
  }

  lemma NoneIsShort()
    ensures ShortBursts([])
  {
  }

  lemma OrderedBefore(arrivals: seq<nat>)
    requires InOrder(arrivals)
    ensures arrivals != [] ==> InOrder(arrivals[..|arrivals| - 1])
  {
  }

  lemma CaughtUpCount(history: seq<Payload>, arrivals: seq<nat>, n: nat)
    requires AllSent(history, arrivals) && CaughtUp(history, arrivals, n)
    ensures |ReceiverAfter(history, arrivals).delivered| == n
  {
  }

  lemma LongBurstLoses(history: seq<Payload>, first: seq<nat>, later: seq<nat>)
    requires AllSent(history, first) && AllSent(history, later) && later != []
    requires CaughtUp(history, first, Following(first)) && later[0] >= Following(first) + 3
    requires forall i | 0 <= i < |later| :: later[0] <= later[i] < 0x1_0000
    ensures AllSent(history, first + later)
    ensures |ReceiverAfter(history, first + later).delivered| == Following(first)
  {
    hide CaughtUp, ReceiverAfter;
    LongBurstStalls(history, first, later, Following(first));
  }

  lemma SplitInOrder(history: seq<Payload>, arrivals: seq<nat>, i: nat)
    requires AllSent(history, arrivals) && InOrder(arrivals) && i < |arrivals|
    ensures AllSent(history, arrivals[..i]) && AllSent(history, arrivals[i..])
    ensures forall j | 0 <= j < |arrivals[i..]| :: arrivals[i] <= arrivals[i..][j] < Following(arrivals)
    ensures arrivals[..i] + arrivals[i..] == arrivals
  {
  }

  lemma NotCaughtUp(history: seq<Payload>, arrivals: seq<nat>, i: nat)
    requires AllSent(history, arrivals) && InOrder(arrivals) && Following(arrivals) <= 0x1_0000
    requires i < |arrivals| && ShortBursts(arrivals[..i]) && arrivals[i] >= Following(arrivals[..i]) + 3
    ensures !CaughtUp(history, arrivals, Following(arrivals))
  {
    hide CaughtUp, ReceiverAfter, ShortBursts, AllSent, InOrder;
    SplitInOrder(history, arrivals, i);
    BurstLossRecovers(history, arrivals[..i]);
    LongBurstLoses(history, arrivals[..i], arrivals[i..]);
    if CaughtUp(history, arrivals, Following(arrivals)) {
      CaughtUpCount(history, arrivals, Following(arrivals));
    }
  }

  /** Among the first 65536 bundles, arriving in order, nothing is lost exactly when no three in a row are. */
  lemma BurstLossExact(history: seq<Payload>, arrivals: seq<nat>)
    requires AllSent(history, arrivals) && InOrder(arrivals) && Following(arrivals) <= 0x1_0000
    ensures CaughtUp(history, arrivals, Following(arrivals)) <==> ShortBursts(arrivals)
  {
    hide CaughtUp, ReceiverAfter, ShortBursts, AllSent, InOrder;
    if ShortBursts(arrivals) {
      BurstLossRecovers(history, arrivals);
    } else {
      var i := FirstLongBurst(arrivals);
      NotCaughtUp(history, arrivals, i);
    }
  }
}
