/** Liveness and independence of interleaving for the whole stack, warm-ups and caches included. */
module SystemRuns {
  import opened Common
  import opened Codec
  import opened Lockstep
  import opened LockstepRuns
  import opened Interleavings
  import opened CachedGame
  import opened Startup
  import opened Streams
  import opened FlowControl
  import opened DelayedGame

  // ---- liveness ----

  lemma {:induction false} OneMessageEach(disabled: bool, cache: Cache, xs: seq<Bytes>)
    ensures |EncodeAll(disabled, cache, xs).messages| == |xs|
  {
    if xs != [] {
      OneMessageEach(disabled, cache, xs[..|xs| - 1]);
    }
  }

  /** The number of responses is the number of raw outputs. */
  lemma ResponsesCounted(delays: seq<nat>, warmups: seq<nat>, disabled: bool, events: seq<Event>, p: nat)
    requires Sized(delays, warmups) && p < |delays|
    ensures |ResponsesTo(p, SystemTranscript(delays, warmups, disabled, events))|
        == ResponseCount(delays, warmups, events, p)
  {
    SystemEncodesRawStream(delays, warmups, disabled, events, p);
    OneMessageEach(disabled, [], OutputsTo(p, RawTranscript(delays, warmups, events)));
  }

  /** This player is live and has been answered as often as it has sent. */
  ghost predicate Answered(delays: seq<nat>, warmups: seq<nat>, disabled: bool, events: seq<Event>, p: nat)
    requires Sized(delays, warmups)
  {
    && Drops !in Project(events, p)
    && |ResponsesTo(p, SystemTranscript(delays, warmups, disabled, events))| >= PacketCount(Project(events, p))
  }

  /** Deadlock freedom of the stack as clients see it: some live client need not wait for anybody. */
  lemma NoDeadlock(delays: seq<nat>, warmups: seq<nat>, disabled: bool, events: seq<Event>)
    requires Sized(delays, warmups) && LongPackets(delays, events)
    requires exists p | 0 <= p < |delays| :: Drops !in Project(events, p)
    ensures exists p: nat | p < |delays| :: Answered(delays, warmups, disabled, events, p)
  {
    SomeoneMayProceed(delays, warmups, events);
    var p: nat :| p < |delays| && MayProceed(delays, warmups, events, p);
    ResponsesCounted(delays, warmups, disabled, events, p);
    assert Answered(delays, warmups, disabled, events, p);
  }

  // ---- what the startup layer hands to the combiner ----

  /** The combiner's event for one of the stack's events, if it gets one. */
  function Passed(s: Startup, e: Event): seq<Event>
    requires s.Valid()
  {
    if e.player >= |s.queues| then []
    else if e.Drop? then [e]
    else if s.warmupSent[e.player] < s.warmups[e.player] then []
    else if s.queues[e.player] != [] then [Input(e.player, s.queues[e.player][0])]
    else [e]
  }

  ghost function PassedOn(delays: seq<nat>, warmups: seq<nat>, events: seq<Event>): seq<Event>
    requires Sized(delays, warmups)
  {
    if events == [] then []
    else
      var before := events[..|events| - 1];
      PassedOn(delays, warmups, before) + Passed(StartupRun(delays, warmups, before), events[|events| - 1])
  }

  lemma PassedMoves(s: Startup, e: Event)
    requires s.Valid()
    ensures var passed := Passed(s, e);
            StartupAfter(s, e).state.game == if passed == [] then s.game else After(s.game, passed[0])
  {
  }

  /** The combiner's part of a run of the stack is a run of the combiner. */
  lemma {:induction false} StartupRunsTheGame(delays: seq<nat>, warmups: seq<nat>, events: seq<Event>)
    requires Sized(delays, warmups)
    ensures StartupRun(delays, warmups, events).game == Run(delays, PassedOn(delays, warmups, events))
  {
    hide StartupAfter, Passed;
    if events != [] {
      var before, e := events[..|events| - 1], events[|events| - 1];
      var s, earlier := StartupRun(delays, warmups, before), PassedOn(delays, warmups, before);
      StartupRunsTheGame(delays, warmups, before);
      PassedMoves(s, e);
      PassedAtMostOne(s, e);
      if Passed(s, e) == [] {
        assert earlier + Passed(s, e) == earlier;
      } else {
        assert Passed(s, e) == [Passed(s, e)[0]];
        RunSnoc(delays, earlier, Passed(s, e)[0]);
      }
    }
  }

  lemma PassedAtMostOne(s: Startup, e: Event)
    requires s.Valid()
    ensures |Passed(s, e)| <= 1
  {
  }

  /** What is waiting, and what is passed on, has been sent. */
  lemma {:induction false} PassedWereSent(delays: seq<nat>, warmups: seq<nat>, events: seq<Event>)
    requires Sized(delays, warmups)
    ensures var s := StartupRun(delays, warmups, events);
            forall p: nat, x | p < |s.queues| && x in s.queues[p] :: Input(p, x) in events
    ensures forall e <- PassedOn(delays, warmups, events) :: e in events
  {
    if events != [] {
      var before, e := events[..|events| - 1], events[|events| - 1];
      PassedWereSent(delays, warmups, before);
      assert events == before + [e];
      QueuesGrow(StartupRun(delays, warmups, before), e);
    }
  }

  lemma QueuesGrow(s: Startup, e: Event)
    requires s.Valid()
    ensures var s' := StartupAfter(s, e).state;
            && |s'.queues| == |s.queues|
            && forall p: nat, x | p < |s.queues| && x in s'.queues[p] :: x in s.queues[p] || e == Input(p, x)
  {
  }

  lemma CommonSizePassedOn(delays: seq<nat>, warmups: seq<nat>, events: seq<Event>, size: nat)
    requires Sized(delays, warmups) && CommonFrameSize(delays, events, size)
    ensures CommonFrameSize(delays, PassedOn(delays, warmups, events), size)
  {
    PassedWereSent(delays, warmups, events);
  }

  // ---- interleaving ----

  lemma SameHistoriesSameQueue(delays: seq<nat>, warmups: seq<nat>, a: seq<Event>, b: seq<Event>, p: nat)
    requires Sized(delays, warmups) && p < |delays| && Project(a, p) == Project(b, p)
    ensures var g, h := StartupRun(delays, warmups, a).game, StartupRun(delays, warmups, b).game;
            g.frames[p] == h.frames[p] && g.dropped[p] == h.dropped[p]
  {
    EveryoneOnSchedule(delays, warmups, a, p);
    EveryoneOnSchedule(delays, warmups, b, p);
  }

  /** The order of arrival leaves no trace in the combiner but the frame size. */
  lemma OnlyTheSizeDiffers(delays: seq<nat>, warmups: seq<nat>, a: seq<Event>, b: seq<Event>)
    requires Sized(delays, warmups) && SameOwnHistories(delays, a, b)
    ensures DiffersInSizeOnly(StartupRun(delays, warmups, a).game, StartupRun(delays, warmups, b).game)
    ensures StartupRun(delays, warmups, a).game.Rows() == StartupRun(delays, warmups, b).game.Rows()
  {
    var g, h := StartupRun(delays, warmups, a).game, StartupRun(delays, warmups, b).game;
    forall p: nat | p < |delays|
      ensures g.frames[p] == h.frames[p] && g.dropped[p] == h.dropped[p]
    {
      SameHistoriesSameQueue(delays, warmups, a, b, p);
    }
    assert g.frames == h.frames && g.dropped == h.dropped;
  }

  /** The frame size the combiner learns: of the first packet passed on to it that counts. */
  ghost function CombinerSize(delays: seq<nat>, warmups: seq<nat>, events: seq<Event>): nat
    requires Sized(delays, warmups)
  {
    LearnedSize(delays, PassedOn(delays, warmups, events))
  }

  lemma CombinerLearns(delays: seq<nat>, warmups: seq<nat>, events: seq<Event>)
    requires Sized(delays, warmups)
    ensures StartupRun(delays, warmups, events).game.frameSize == CombinerSize(delays, warmups, events)
  {
    StartupRunsTheGame(delays, warmups, events);
    SizeIsLearnedFromTheFirst(delays, PassedOn(delays, warmups, events));
  }

  /** Among the rows player p is sent whole batches of, somebody's released packets run out. */
  ghost predicate ReleasedZeroFill(delays: seq<nat>, warmups: seq<nat>, events: seq<Event>, p: nat)
    requires Sized(delays, warmups) && p < |delays|
  {
    exists i: nat | i < |delays| ::
      |FramesOfAll(Released(LivePackets(Project(events, i)), warmups[i]), delays[i])|
      < Batched(delays[p], StartupRun(delays, warmups, events).game.Rows())
  }

  lemma ZeroFillIsInTheReleased(delays: seq<nat>, warmups: seq<nat>, events: seq<Event>, p: nat)
    requires Sized(delays, warmups) && p < |delays|
    ensures var g := StartupRun(delays, warmups, events).game;
            ZeroFilled(g, Batched(delays[p], g.Rows())) <==> ReleasedZeroFill(delays, warmups, events, p)
  {
    var g := StartupRun(delays, warmups, events).game;
    var m := Batched(delays[p], g.Rows());
    forall i: nat | i < |delays|
      ensures g.frames[i] == FramesOfAll(Released(LivePackets(Project(events, i)), warmups[i]), delays[i])
    {
      EveryoneOnSchedule(delays, warmups, events, i);
    }
    if i :| 0 <= i < |g.frames| && |g.frames[i]| < m {
      assert |FramesOfAll(Released(LivePackets(Project(events, i)), warmups[i]), delays[i])| < m;
    }
    if i: nat :| i < |delays| && |FramesOfAll(Released(LivePackets(Project(events, i)), warmups[i]), delays[i])| < m {
      assert |g.frames[i]| < m;
    }
  }

  /** Different blocks encode differently. */
  lemma EncodingTells(disabled: bool, xs: seq<Bytes>, ys: seq<Bytes>)
    ensures EncodeAll(disabled, [], xs).messages == EncodeAll(disabled, [], ys).messages <==> xs == ys
  {
    if disabled {
      DisabledRoundTrip(PushAlways, [], [], xs);
      DisabledRoundTrip(PushAlways, [], [], ys);
    } else {
      StreamRoundTrip(PushAlways, [], xs);
      StreamRoundTrip(PushAlways, [], ys);
    }
  }

  lemma SplitEqual(a: seq<Bytes>, b: seq<Bytes>, c: seq<Bytes>, d: seq<Bytes>)
    requires |a| == |c|
    ensures a + b == c + d <==> a == c && b == d
  {
    if a + b == c + d {
      assert a == (a + b)[..|a|] && c == (c + d)[..|a|];
      assert b == (a + b)[|a|..] && d == (c + d)[|a|..];
    }
  }

  lemma ShapesAgree(delays: seq<nat>, warmups: seq<nat>, a: seq<Event>, b: seq<Event>, p: nat)
    requires Sized(delays, warmups) && p < |delays| && SameOwnHistories(delays, a, b)
    ensures Shape(delays, warmups, a, p) == Shape(delays, warmups, b, p)
            <==> && WarmupBlocks(|delays|, warmups[p], a, p) == WarmupBlocks(|delays|, warmups[p], b, p)
                 && (CombinerSize(delays, warmups, a) == CombinerSize(delays, warmups, b)
                     || !ReleasedZeroFill(delays, warmups, a, p))
  {
    hide WarmupBlocks, ReleasedZeroFill, CombinerSize, ZeroFilled, Batched, StartupRun;
    var g, h := StartupRun(delays, warmups, a).game, StartupRun(delays, warmups, b).game;
    OnlyTheSizeDiffers(delays, warmups, a, b);
    CombinerLearns(delays, warmups, a);
    CombinerLearns(delays, warmups, b);
    ZeroFillIsInTheReleased(delays, warmups, a, p);
    BatchesRevealSize(g, h, delays[p], g.Rows());
    WarmupBlockCount(|delays|, warmups[p], a, p);
    WarmupBlockCount(|delays|, warmups[p], b, p);
    SplitEqual(WarmupBlocks(|delays|, warmups[p], a, p), g.Batches(delays[p], g.Rows()),
               WarmupBlocks(|delays|, warmups[p], b, p), h.Batches(delays[p], h.Rows()));
  }

  /**
   Runs of the stack that differ only in how the players' packets interleave give a player the
   same responses exactly when its warm-up blocks are the same and, further, the combiner learns
   the same frame size or nothing the player is sent is zero-filled.
   */
  lemma SystemInterleavingExact(delays: seq<nat>, warmups: seq<nat>, disabled: bool,
                                a: seq<Event>, b: seq<Event>, p: nat)
    requires Sized(delays, warmups) && p < |delays| && SameOwnHistories(delays, a, b)
    requires WarmupsInTurn(delays, warmups, a, p) && WarmupsInTurn(delays, warmups, b, p)
    ensures ResponsesTo(p, SystemTranscript(delays, warmups, disabled, a))
            == ResponsesTo(p, SystemTranscript(delays, warmups, disabled, b))
            <==> && WarmupBlocks(|delays|, warmups[p], a, p) == WarmupBlocks(|delays|, warmups[p], b, p)
                 && (CombinerSize(delays, warmups, a) == CombinerSize(delays, warmups, b)
                     || !ReleasedZeroFill(delays, warmups, a, p))
  {
    hide WarmupBlocks, ReleasedZeroFill, CombinerSize, WarmupsInTurn, Shape, SystemRun;
    StreamShapeExact(delays, warmups, a, p);
    StreamShapeExact(delays, warmups, b, p);
    SystemEncodesRawStream(delays, warmups, disabled, a, p);
    SystemEncodesRawStream(delays, warmups, disabled, b, p);
    EncodingTells(disabled, OutputsTo(p, RawTranscript(delays, warmups, a)),
        OutputsTo(p, RawTranscript(delays, warmups, b)));
    ShapesAgree(delays, warmups, a, b, p);
  }

  /** With a common frame size, equally long first packets and sized warm-ups, the order does not show. */
  lemma SystemInterleaving(delays: seq<nat>, warmups: seq<nat>, disabled: bool, a: seq<Event>, b: seq<Event>,
                           size: nat, p: nat)
    requires Sized(delays, warmups) && p < |delays| && SameOwnHistories(delays, a, b)
    requires WarmupsInTurn(delays, warmups, a, p) && WarmupsInTurn(delays, warmups, b, p)
    requires CommonFrameSize(delays, a, size) && CommonFrameSize(delays, b, size)
    requires PacketSize(|delays|, a) == PacketSize(|delays|, b)
    requires WarmupSized(|delays|, warmups[p], a, p) && WarmupSized(|delays|, warmups[p], b, p)
    ensures ResponsesTo(p, SystemTranscript(delays, warmups, disabled, a))
         == ResponsesTo(p, SystemTranscript(delays, warmups, disabled, b))
  {
    hide CommonFrameSize, WarmupsInTurn, WarmupSized, WarmupBlocks, PacketSize, ReleasedZeroFill;
    WarmupBlocksEqual(|delays|, warmups[p], a, p);
    WarmupBlocksEqual(|delays|, warmups[p], b, p);
    CommonSizeSameCombiner(delays, warmups, a, b, size);
    SystemInterleavingExact(delays, warmups, disabled, a, b, p);
  }

  lemma CommonSizeSameCombiner(delays: seq<nat>, warmups: seq<nat>, a: seq<Event>, b: seq<Event>, size: nat)
    requires Sized(delays, warmups) && SameOwnHistories(delays, a, b)
    requires CommonFrameSize(delays, a, size) && CommonFrameSize(delays, b, size)
    ensures CombinerSize(delays, warmups, a) == CombinerSize(delays, warmups, b)
  {
    hide CommonFrameSize, LearnedSize, StartupRun;
    OnlyTheSizeDiffers(delays, warmups, a, b);
    CombinerLearns(delays, warmups, a);
    CombinerLearns(delays, warmups, b);
    StartupRunsTheGame(delays, warmups, a);
    StartupRunsTheGame(delays, warmups, b);
    CommonSizePassedOn(delays, warmups, a, size);
    CommonSizePassedOn(delays, warmups, b, size);
    CommonSizeIsLearned(delays, PassedOn(delays, warmups, a), size);
    CommonSizeIsLearned(delays, PassedOn(delays, warmups, b), size);
  }

  // ---- an input on which the order shows in the warm-up ----

  const SHORT_PACKET_FIRST: seq<Event> := [Input(0, [5]), Input(1, [6, 6])]
  const LONG_PACKET_FIRST: seq<Event> := [Input(1, [6, 6]), Input(0, [5])]

  lemma TwoOrdersAgree()
    ensures SameOwnHistories([1, 2], SHORT_PACKET_FIRST, LONG_PACKET_FIRST)
    ensures CommonFrameSize([1, 2], SHORT_PACKET_FIRST, 1) && CommonFrameSize([1, 2], LONG_PACKET_FIRST, 1)
    ensures Drops !in Project(SHORT_PACKET_FIRST, 0) && Drops !in Project(LONG_PACKET_FIRST, 0)
  {
    forall p: nat | p < 2
      ensures Project(SHORT_PACKET_FIRST, p) == Project(LONG_PACKET_FIRST, p)
    {
      ProjectTwo(Input(0, [5]), Input(1, [6, 6]), p);
      ProjectTwo(Input(1, [6, 6]), Input(0, [5]), p);
    }
    ProjectTwo(Input(0, [5]), Input(1, [6, 6]), 0);
  }

  /**
   One byte at delay 1, two bytes at delay 2: one frame size, but the warm-up block is sized by the
   packet heard first.
   */
  lemma WarmupShowsOrder(disabled: bool)
    ensures SameOwnHistories([1, 2], SHORT_PACKET_FIRST, LONG_PACKET_FIRST)
    ensures CommonFrameSize([1, 2], SHORT_PACKET_FIRST, 1) && CommonFrameSize([1, 2], LONG_PACKET_FIRST, 1)
    ensures ResponsesTo(0, SystemTranscript([1, 2], [1, 0], disabled, SHORT_PACKET_FIRST))
         != ResponsesTo(0, SystemTranscript([1, 2], [1, 0], disabled, LONG_PACKET_FIRST))
  {
    hide SystemTranscript, SameOwnHistories, CommonFrameSize, WarmupBlocks, WarmupsInTurn, Project, CombinerSize;
    hide ReleasedZeroFill, ResponsesTo;
    var delays: seq<nat>, warmups: seq<nat> := [1, 2], [1, 0];
    TwoOrdersAgree();
    TwoOrdersBlocks();
    LiveIsQuiet(Project(SHORT_PACKET_FIRST, 0), 1);
    QuietIsInTurn(delays, warmups, SHORT_PACKET_FIRST, 0);
    QuietIsInTurn(delays, warmups, LONG_PACKET_FIRST, 0);
    SystemInterleavingExact(delays, warmups, disabled, SHORT_PACKET_FIRST, LONG_PACKET_FIRST, 0);
  }

  lemma TwoOrdersBlocks()
    ensures WarmupBlocks(2, 1, SHORT_PACKET_FIRST, 0) == [ZeroBlock(2, 1)]
    ensures WarmupBlocks(2, 1, LONG_PACKET_FIRST, 0) == [ZeroBlock(2, 2)]
    ensures Drops !in Project(SHORT_PACKET_FIRST, 0)
    ensures ZeroBlock(2, 1) != ZeroBlock(2, 2)
  {
    var short: seq<Event>, long: seq<Event> := [Input(0, [5])], [Input(1, [6, 6])];
    assert SHORT_PACKET_FIRST[..1] == short && short[..0] == [] && LONG_PACKET_FIRST[..1] == long && long[..0] == [];
    ProjectTwo(Input(0, [5]), Input(1, [6, 6]), 0);
    assert Project(long, 0) == [] && PacketCount([]) == 0;
    assert WarmupBlocks(2, 1, short, 0) == [ZeroBlock(2, 1)];
    assert PacketSize(2, long) == 2;
    assert WarmupBlocks(2, 1, long, 0) == [];
    assert [] + [ZeroBlock(2, 2)] == [ZeroBlock(2, 2)];
  }
}
