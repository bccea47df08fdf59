/**
 How far a run depends on the order in which different players' packets arrive: only through
 the frame size, which is learned from whoever is heard first.
 */
module Interleavings {
  import opened Common
  import opened Lockstep
  import opened LockstepRuns

  ghost predicate SameOwnHistories(delays: seq<nat>, a: seq<Event>, b: seq<Event>) {
    forall p: nat | p < |delays| :: Project(a, p) == Project(b, p)
  }

  lemma SameHistoriesSameGame(delays: seq<nat>, a: seq<Event>, b: seq<Event>)
    requires DelaysPositive(delays) && SameOwnHistories(delays, a, b)
    ensures Run(delays, a).frames == Run(delays, b).frames
    ensures Run(delays, a).dropped == Run(delays, b).dropped
    ensures Run(delays, a).Rows() == Run(delays, b).Rows()
  {
    forall p: nat | p < |delays|
      ensures Run(delays, a).frames[p] == Run(delays, b).frames[p]
      ensures Run(delays, a).dropped[p] == Run(delays, b).dropped[p]
    {
      FramesAreOwnHistory(delays, a, p);
      FramesAreOwnHistory(delays, b, p);
    }
  }

  /** Every packet that counts has the same frame size s. */
  ghost predicate CommonFrameSize(delays: seq<nat>, events: seq<Event>, s: nat) {
    forall e <- events :: e.Input? && e.player < |delays| && |e.bytes| >= delays[e.player] >= 1 ==>
      |e.bytes| / delays[e.player] == s
  }

  lemma {:induction false} CommonSizeIsLearned(delays: seq<nat>, events: seq<Event>, s: nat)
    requires DelaysPositive(delays) && CommonFrameSize(delays, events, s)
    ensures var g := Run(delays, events);
            g.frameSize == if (exists p: nat | p < |delays| :: g.frames[p] != []) then s else 0
  {
    var g := Run(delays, events);
    if events == [] {
    } else {
      var before, e := events[..|events| - 1], events[|events| - 1];
      assert forall x <- before :: x in events;
      assert e in events;
      CommonSizeIsLearned(delays, before, s);
      var g0 := Run(delays, before);
      if g == g0 {
      } else if e.Input? {
        ShortPacketIgnored(e.bytes, delays[e.player]);
        assert g.frames[e.player] != [];
      } else {
        assert g.frames == g0.frames;
      }
    }
  }

  /** Two runs that differ only in how the players' events interleave send every player the same outputs. */
  lemma InterleavingIndependence(delays: seq<nat>, a: seq<Event>, b: seq<Event>, s: nat, p: nat)
    requires DelaysPositive(delays) && p < |delays|
    requires SameOwnHistories(delays, a, b)
    requires CommonFrameSize(delays, a, s) && CommonFrameSize(delays, b, s)
    ensures OutputsTo(p, Transcript(delays, a)) == OutputsTo(p, Transcript(delays, b))
  {
    SameHistoriesSameGame(delays, a, b);
    CommonSizeIsLearned(delays, a, s);
    CommonSizeIsLearned(delays, b, s);
    assert Run(delays, a) == Run(delays, b);
    TranscriptIsTheBatches(delays, a, p);
    TranscriptIsTheBatches(delays, b, p);
  }

  /** Some cell among the first m rows had to be filled with zeros. */
  ghost predicate ZeroFilled(g: Game, m: nat) {
    exists i | 0 <= i < |g.frames| :: |g.frames[i]| < m
  }

  /** g' is g with another learned frame size. */
  ghost predicate DiffersInSizeOnly(g: Game, g': Game) {
    g' == g.(frameSize := g'.frameSize)
  }

  lemma {:induction false} FlattenLengths(a: seq<Bytes>, b: seq<Bytes>)
    requires |a| == |b| && forall i | 0 <= i < |a| :: |a[i]| <= |b[i]|
    ensures |Flatten(a)| <= |Flatten(b)|
    ensures (exists i | 0 <= i < |a| :: |a[i]| < |b[i]|) ==> |Flatten(a)| < |Flatten(b)|
  {
    if a != [] {
      FlattenLengths(a[1..], b[1..]);
      if i :| 0 <= i < |a| && |a[i]| < |b[i]| {
        if i > 0 {
          assert |a[1..][i - 1]| < |b[1..][i - 1]|;
        }
      }
    }
  }

  /** Zero fill is the only place where the learned size shows, and it shows in the length. */
  lemma LargerSizeLongerRow(g: Game, g': Game, k: nat)
    requires DiffersInSizeOnly(g, g') && g.frameSize < g'.frameSize
    ensures |Flatten(g.Row(k))| <= |Flatten(g'.Row(k))|
    ensures ZeroFilled(g, k + 1) ==> |Flatten(g.Row(k))| < |Flatten(g'.Row(k))|
  {
    FlattenLengths(g.Row(k), g'.Row(k));
    if i :| 0 <= i < |g.frames| && |g.frames[i]| < k + 1 {
      assert |g.Row(k)[i]| < |g'.Row(k)[i]|;
    }
  }

  lemma {:induction false} LargerSizeLongerRows(g: Game, g': Game, m: nat)
    requires DiffersInSizeOnly(g, g') && g.frameSize < g'.frameSize
    ensures |Flatten(g.RowRange(0, m))| <= |Flatten(g'.RowRange(0, m))|
    ensures ZeroFilled(g, m) ==> |Flatten(g.RowRange(0, m))| < |Flatten(g'.RowRange(0, m))|
  {
    if m > 0 {
      LargerSizeLongerRows(g, g', m - 1);
      LargerSizeLongerRow(g, g', m - 1);
      FlattenAppend(g.RowRange(0, m - 1), g.Row(m - 1));
      FlattenAppend(g'.RowRange(0, m - 1), g'.Row(m - 1));
    }
  }

  lemma {:induction false} NoFillSameRows(g: Game, g': Game, lo: nat, hi: nat)
    requires DiffersInSizeOnly(g, g') && !ZeroFilled(g, hi)
    ensures g.RowRange(lo, hi) == g'.RowRange(lo, hi)
    decreases hi
  {
    if lo < hi {
      NoFillSameRows(g, g', lo, hi - 1);
      assert g.Row(hi - 1) == g'.Row(hi - 1);
    }
  }

  lemma {:induction false} NoFillSameBatches(g: Game, g': Game, d: nat, n: nat)
    requires DiffersInSizeOnly(g, g') && d >= 1 && !ZeroFilled(g, Batched(d, n))
    ensures g.Batches(d, n) == g'.Batches(d, n)
  {
    if n > 0 {
      ModSucc(n - 1, d);
      NoFillSameBatches(g, g', d, n - 1);
      NoFillSameBatch(g, g', d, n);
    }
  }

  lemma NoFillSameBatch(g: Game, g': Game, d: nat, n: nat)
    requires DiffersInSizeOnly(g, g') && d >= 1 && n >= 1 && !ZeroFilled(g, Batched(d, n))
    ensures g.BatchEndingAt(d, n) == g'.BatchEndingAt(d, n)
  {
    if n % d == 0 {
      ExactQuotient(n, d);
      assert Batched(d, n) == n;
      NoFillSameRows(g, g', n - d, n);
    }
  }

  /** The batches of the two games agree iff the sizes do or nothing in them is zero-filled. */
  lemma BatchesRevealSize(g: Game, g': Game, d: nat, n: nat)
    requires DiffersInSizeOnly(g, g') && d >= 1
    ensures g.Batches(d, n) == g'.Batches(d, n) <==> g.frameSize == g'.frameSize || !ZeroFilled(g, Batched(d, n))
  {
    if !ZeroFilled(g, Batched(d, n)) {
      NoFillSameBatches(g, g', d, n);
    } else {
      BatchesAreTheRows(g, d, n);
      BatchesAreTheRows(g', d, n);
      if g.frameSize < g'.frameSize {
        LargerSizeLongerRows(g, g', Batched(d, n));
      } else if g'.frameSize < g.frameSize {
        LargerSizeLongerRows(g', g, Batched(d, n));
      }
    }
  }

  // ---- the size that is learned ----

  /** Event i gives the combiner frames: a known player, not dropped before, sends at least one frame's worth. */
  ghost predicate Counts(delays: seq<nat>, events: seq<Event>, i: nat)
    requires i < |events|
  {
    && events[i].Input? && events[i].player < |delays|
    && |events[i].bytes| >= delays[events[i].player] >= 1
    && Drop(events[i].player) !in events[..i]
  }

  /** The first event that counts, or the number of events if there is none. */
  ghost function FirstToCount(delays: seq<nat>, events: seq<Event>): (i: nat)
    ensures i <= |events|
    ensures i < |events| ==> Counts(delays, events, i)
    ensures forall j | 0 <= j < i :: !Counts(delays, events, j)
  {
    if events == [] then 0
    else
      var n := |events| - 1;
      var i := FirstToCount(delays, events[..n]);
      assert forall j | 0 <= j < n :: Counts(delays, events, j) == Counts(delays, events[..n], j) by {
        assert forall j | 0 <= j < n :: events[..n][..j] == events[..j];
      }
      if i < n then i else if Counts(delays, events, n) then n else n + 1
  }

  /** One frame of the first packet that counts, 0 if none does. */
  ghost function LearnedSize(delays: seq<nat>, events: seq<Event>): nat
    requires DelaysPositive(delays)
  {
    var i := FirstToCount(delays, events);
    if i == |events| then 0 else |events[i].bytes| / delays[events[i].player]
  }

  lemma {:induction false} DropsAreOwn(events: seq<Event>, p: nat)
    ensures Drops in Project(events, p) <==> Drop(p) in events
  {
    if events != [] {
      var before, e := events[..|events| - 1], events[|events| - 1];
      DropsAreOwn(before, p);
      assert events == before + [e];
    }
  }

  lemma FirstToCountOne(delays: seq<nat>, events: seq<Event>)
    requires events != []
    ensures var n := |events| - 1;
            var i := FirstToCount(delays, events[..n]);
            FirstToCount(delays, events) == if i < n then i else if Counts(delays, events, n) then n else n + 1
  {
  }

  /** Which packet is learned from depends on nothing but the events. */
  lemma {:induction false} SizeIsLearnedFromTheFirst(delays: seq<nat>, events: seq<Event>)
    requires DelaysPositive(delays)
    ensures Run(delays, events).frameSize == LearnedSize(delays, events)
    ensures Run(delays, events).frameSize == 0 <==> FirstToCount(delays, events) == |events|
  {
    if events != [] {
      var n := |events| - 1;
      var before, e := events[..n], events[n];
      SizeIsLearnedFromTheFirst(delays, before);
      FirstToCountOne(delays, events);
      if e.Input? && e.player < |delays| {
        FramesAreOwnHistory(delays, before, e.player);
        DropsAreOwn(before, e.player);
        ShortPacketIgnored(e.bytes, delays[e.player]);
        if |e.bytes| >= delays[e.player] {
          QuotientPositive(|e.bytes|, delays[e.player]);
        }
      }
    }
  }

  // ---- a run in closed form ----

  /** What a run amounts to, read off its events: own histories and the learned size. */
  ghost function Amounts(delays: seq<nat>, events: seq<Event>): Game
    requires DelaysPositive(delays)
  {
    Game(seq(|delays|, i requires 0 <= i < |delays| => Contributed(Project(events, i), delays[i])),
         seq(|delays|, i requires 0 <= i < |delays| => Drops in Project(events, i)),
         delays, LearnedSize(delays, events))
  }

  lemma RunAmountsTo(delays: seq<nat>, events: seq<Event>)
    requires DelaysPositive(delays)
    ensures Run(delays, events) == Amounts(delays, events)
  {
    var g, h := Run(delays, events), Amounts(delays, events);
    SizeIsLearnedFromTheFirst(delays, events);
    forall p: nat | p < |delays|
      ensures g.frames[p] == h.frames[p] && g.dropped[p] == h.dropped[p]
    {
      FramesAreOwnHistory(delays, events, p);
    }
    assert g.frames == h.frames && g.dropped == h.dropped;
  }

  /** Among the rows player p is sent whole batches of, somebody contributed to fewer. */
  ghost predicate SentZeroFill(delays: seq<nat>, events: seq<Event>, p: nat)
    requires DelaysPositive(delays) && p < |delays|
  {
    exists i: nat | i < |delays| ::
      |Contributed(Project(events, i), delays[i])| < Batched(delays[p], Amounts(delays, events).Rows())
  }

  lemma ZeroFillIsInTheHistories(delays: seq<nat>, events: seq<Event>, p: nat)
    requires DelaysPositive(delays) && p < |delays|
    ensures ZeroFilled(Run(delays, events), Batched(delays[p], Run(delays, events).Rows()))
        <==> SentZeroFill(delays, events, p)
  {
    var g := Run(delays, events);
    RunAmountsTo(delays, events);
    var m := Batched(delays[p], g.Rows());
    forall i: nat | i < |delays|
      ensures g.frames[i] == Contributed(Project(events, i), delays[i])
    {
      FramesAreOwnHistory(delays, events, i);
    }
    if i :| 0 <= i < |g.frames| && |g.frames[i]| < m {
      assert |Contributed(Project(events, i), delays[i])| < m;
    }
    if i: nat :| i < |delays| && |Contributed(Project(events, i), delays[i])| < m {
      assert |g.frames[i]| < m;
    }
  }

  /**
   Without a common frame size, exactly: two interleavings of the same own histories send a
   player the same outputs iff the first packets that count have the same frame size, or
   nobody's frames run out before the last whole batch the player is sent.
   */
  lemma InterleavingExact(delays: seq<nat>, a: seq<Event>, b: seq<Event>, p: nat)
    requires DelaysPositive(delays) && p < |delays|
    requires SameOwnHistories(delays, a, b)
    ensures OutputsTo(p, Transcript(delays, a)) == OutputsTo(p, Transcript(delays, b))
            <==> LearnedSize(delays, a) == LearnedSize(delays, b) || !SentZeroFill(delays, a, p)
  {
    hide ZeroFilled, SentZeroFill, Batched;
    var g, g' := Run(delays, a), Run(delays, b);
    SameHistoriesSameGame(delays, a, b);
    TranscriptIsTheBatches(delays, a, p);
    TranscriptIsTheBatches(delays, b, p);
    BatchesRevealSize(g, g', delays[p], g.Rows());
    SizeIsLearnedFromTheFirst(delays, a);
    SizeIsLearnedFromTheFirst(delays, b);
    ZeroFillIsInTheHistories(delays, a, p);
  }

  // ---- an input on which the order matters ----

  /** Player 1's longer packet is heard second in one order and first in the other; then player 1 drops. */
  const SHORT_FIRST: seq<Event> := [Input(0, [7]), Input(1, [8, 9]), Input(0, [7]), Drop(1)]
  const LONG_FIRST: seq<Event> := [Input(1, [8, 9]), Input(0, [7]), Input(0, [7]), Drop(1)]

  lemma OneFrame(x: Bytes)
    requires x != []
    ensures FramesIn(x, 1) == [x]
  {
  }

  lemma ExampleHistories(p: nat)
    ensures Project(SHORT_FIRST, p) == Project(LONG_FIRST, p)
         == if p == 0 then [Sends([7]), Sends([7])] else if p == 1 then [Sends([8, 9]), Drops] else []
  {
    ProjectFour(Input(0, [7]), Input(1, [8, 9]), Input(0, [7]), Drop(1), p);
    ProjectFour(Input(1, [8, 9]), Input(0, [7]), Input(0, [7]), Drop(1), p);
  }

  lemma ExampleContributions()
    ensures Contributed([Sends([7]), Sends([7])], 1) == [[7], [7]]
    ensures Contributed([Sends([8, 9]), Drops], 1) == [[8, 9]]
  {
    OneFrame([7]);
    OneFrame([8, 9]);
    var once, twice := [Sends([7])], [Sends([7]), Sends([7])];
    assert once[..0] == [] && twice[..1] == once;
    assert Contributed(once, 1) == [[7]];
    var sent, left := [Sends([8, 9])], [Sends([8, 9]), Drops];
    assert sent[..0] == [] && left[..1] == sent;
    assert Contributed(sent, 1) == [[8, 9]];
  }

  lemma ExampleRows()
    ensures Amounts([1, 1], SHORT_FIRST).Rows() == 2
  {
    ExampleHistories(0);
    ExampleHistories(1);
    ExampleContributions();
    var g := Amounts([1, 1], SHORT_FIRST);
    assert g.frames == [[[7], [7]], [[8, 9]]] && g.dropped == [false, true];
    assert g.frames[1..] == [[[8, 9]]] && g.dropped[1..] == [true];
    assert ShortestLive(g.frames[1..], g.dropped[1..]) == None;
  }

  /** The order in which two players are first heard can change what is sent. */
  lemma OrderMatters()
    ensures SameOwnHistories([1, 1], SHORT_FIRST, LONG_FIRST)
    ensures OutputsTo(0, Transcript([1, 1], SHORT_FIRST)) != OutputsTo(0, Transcript([1, 1], LONG_FIRST))
  {
    hide Transcript, OutputsTo;
    var delays: seq<nat> := [1, 1];
    forall p: nat | p < |delays|
      ensures Project(SHORT_FIRST, p) == Project(LONG_FIRST, p)
    {
      ExampleHistories(p);
    }
    assert Counts(delays, SHORT_FIRST, 0) && Counts(delays, LONG_FIRST, 0);
    assert LearnedSize(delays, SHORT_FIRST) == 1 && LearnedSize(delays, LONG_FIRST) == 2;
    ExampleRows();
    ExampleHistories(1);
    ExampleContributions();
    assert |Contributed(Project(SHORT_FIRST, 1), delays[1])| < Batched(delays[0], Amounts(delays, SHORT_FIRST).Rows());
    InterleavingExact(delays, SHORT_FIRST, LONG_FIRST, 0);
  }
}
