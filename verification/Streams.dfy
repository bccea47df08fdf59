/**
 What a player is sent: its warm-up blocks, each as large as the first packet heard so far
 tells, and then the batches of the rows combined.
 */
module Streams {
  import opened Common
  import opened Lockstep
  import opened LockstepRuns
  import opened Startup

  /** The length of the first nonempty packet of a known player, 0 before there is one. */
  ghost function PacketSize(players: nat, events: seq<Event>): nat {
    if events == [] then 0
    else
      var size, e := PacketSize(players, events[..|events| - 1]), events[|events| - 1];
      if size == 0 && e.Input? && e.player < players then |e.bytes| else size
  }

  /** After the events in `before`, e is one of player p's warm-up packets. */
  ghost predicate IsWarmup(before: seq<Event>, e: Event, p: nat, warmup: nat) {
    e.Input? && e.player == p && PacketCount(Project(before, p)) < warmup
  }

  /** One block of zeros per warm-up packet. */
  ghost function WarmupBlocks(players: nat, warmup: nat, events: seq<Event>, p: nat): seq<Bytes> {
    if events == [] then []
    else
      var before, e := events[..|events| - 1], events[|events| - 1];
      var blocks := WarmupBlocks(players, warmup, before, p);
      if IsWarmup(before, e, p, warmup) then blocks + [ZeroBlock(players, PacketSize(players, events))] else blocks
  }

  /** No warm-up packet is sent after dropping; a live player satisfies this. */
  ghost predicate QuietInWarmup(own: seq<PlayerEvent>, warmup: nat) {
    own == [] ||
    (var before, e := own[..|own| - 1], own[|own| - 1];
     QuietInWarmup(before, warmup) && (e.Sends? && PacketCount(before) < warmup ==> Drops !in before))
  }

  lemma {:induction false} LiveIsQuiet(own: seq<PlayerEvent>, warmup: nat)
    requires Drops !in own
    ensures QuietInWarmup(own, warmup)
  {
    if own != [] {
      var before := own[..|own| - 1];
      assert forall x <- before :: x in own;
      LiveIsQuiet(before, warmup);
    }
  }

  lemma {:induction false} PacketSizeIsLearned(delays: seq<nat>, warmups: seq<nat>, events: seq<Event>)
    requires Sized(delays, warmups)
    ensures StartupRun(delays, warmups, events).frameSize == PacketSize(|delays|, events)
  {
    if events != [] {
      var before, e := events[..|events| - 1], events[|events| - 1];
      PacketSizeIsLearned(delays, warmups, before);
      FrameSizeStep(StartupRun(delays, warmups, before), e);
    }
  }

  lemma FrameSizeStep(s: Startup, e: Event)
    requires s.Valid()
    ensures StartupAfter(s, e).state.frameSize ==
            if e.player < |s.queues| && e.Input? && s.frameSize == 0 then |e.bytes| else s.frameSize
  {
  }

  // ---- one event ----

  ghost predicate InWarmup(s: Startup, e: Event, p: nat)
    requires s.Valid() && p < |s.queues|
  {
    e.player == p && e.Input? && s.warmupSent[p] < s.warmups[p]
  }

  /** A live player in warm-up holds every row back. */
  lemma WarmupHoldsRowsBack(s: Startup, p: nat, own: seq<PlayerEvent>)
    requires s.Valid() && p < |s.queues| && OnSchedule(s, p, own)
    requires Drops !in own && s.warmupSent[p] < s.warmups[p]
    ensures s.game.Rows() == 0
  {
    RowsClosedForm(s.game);
    assert s.game.IsLive(p);
    assert s.game.frames[p] == [];
  }

  lemma WarmupAnswers(s: Startup, e: Event, p: nat)
    requires s.Valid() && p < |s.queues| && InWarmup(s, e, p)
    ensures var m := StartupAfter(s, e);
            OutputsTo(p, m.raw) == [ZeroBlock(|s.queues|, m.state.frameSize)] && m.state.game == s.game
  {
    OutputsToOne(p, [], StartupAfter(s, e).raw[0]);
    assert [] + [StartupAfter(s, e).raw[0]] == StartupAfter(s, e).raw;
  }

  lemma NotAddressed(o: Output, p: nat)
    requires o.player != p
    ensures OutputsTo(p, [o]) == []
  {
    OutputsToOne(p, [], o);
    assert [] + [o] == [o];
  }

  /** An event that does not touch the game: a failed call, or another player's warm-up. */
  lemma GameUntouched(s: Startup, e: Event, p: nat)
    requires s.Valid() && p < |s.queues| && !InWarmup(s, e, p)
    requires e.player >= |s.queues| || (e.Input? && s.warmupSent[e.player] < s.warmups[e.player])
    ensures StartupAfter(s, e).state.game == s.game && OutputsTo(p, StartupAfter(s, e).raw) == []
  {
    if e.player < |s.queues| {
      NotAddressed(StartupAfter(s, e).raw[0], p);
      assert StartupAfter(s, e).raw == [StartupAfter(s, e).raw[0]];
    }
  }

  lemma OtherwiseSent(s: Startup, e: Event)
    requires s.Valid() && e.player < |s.queues|
    requires !(e.Input? && s.warmupSent[e.player] < s.warmups[e.player])
    ensures StartupAfter(s, e).state.Valid()
    ensures StartupAfter(s, e).raw == Sent(s.game, StartupAfter(s, e).state.game)
  {
    StepKeepsValid(s, e);
  }

  /** Anything but its own warm-up packet brings a player exactly the batches it completes. */
  lemma OtherwiseBatches(s: Startup, e: Event, p: nat)
    requires s.Valid() && p < |s.queues| && !InWarmup(s, e, p)
    ensures StartupAfter(s, e).state.Valid()
    ensures var m, d := StartupAfter(s, e), s.game.delays[p];
            s.game.Batches(d, s.game.Rows()) + OutputsTo(p, m.raw) == m.state.game.Batches(d, m.state.game.Rows())
  {
    StepKeepsValid(s, e);
    if e.player < |s.queues| && !(e.Input? && s.warmupSent[e.player] < s.warmups[e.player]) {
      OtherwiseSent(s, e);
      SentIsTheNewBatches(s.game, StartupAfter(s, e).state.game, p);
    } else {
      GameUntouched(s, e, p);
      NothingAfter(s.game.Batches(s.game.delays[p], s.game.Rows()));
    }
  }

  lemma WarmupIsWarmup(delays: seq<nat>, warmups: seq<nat>, before: seq<Event>, e: Event, p: nat)
    requires Sized(delays, warmups) && p < |delays|
    ensures InWarmup(StartupRun(delays, warmups, before), e, p) <==> IsWarmup(before, e, p, warmups[p])
  {
    EveryoneOnSchedule(delays, warmups, before, p);
  }

  // ---- whole runs ----

  /** What the shape says after a run: warm-up blocks, then batches. */
  ghost function Shape(delays: seq<nat>, warmups: seq<nat>, events: seq<Event>, p: nat): seq<Bytes>
    requires Sized(delays, warmups) && p < |delays|
  {
    var g := StartupRun(delays, warmups, events).game;
    WarmupBlocks(|delays|, warmups[p], events, p) + g.Batches(delays[p], g.Rows())
  }

  lemma {:induction false} WarmupBlockCount(players: nat, warmup: nat, events: seq<Event>, p: nat)
    ensures |WarmupBlocks(players, warmup, events, p)| == Min(PacketCount(Project(events, p)), warmup)
  {
    if events != [] {
      var before, e := events[..|events| - 1], events[|events| - 1];
      WarmupBlockCount(players, warmup, before, p);
      if e.player == p {
        OwnSnoc(Project(before, p), Own(e));
      } else {
        assert Project(events, p) == Project(before, p);
      }
    }
  }

  /** Anything else extends the batches. */
  lemma ShapeOtherwise(delays: seq<nat>, warmups: seq<nat>, events: seq<Event>, p: nat)
    requires Sized(delays, warmups) && p < |delays| && events != []
    requires !IsWarmup(events[..|events| - 1], events[|events| - 1], p, warmups[p])
    ensures var before, e := events[..|events| - 1], events[|events| - 1];
            Shape(delays, warmups, events, p)
            == Shape(delays, warmups, before, p) + OutputsTo(p,
                StartupAfter(StartupRun(delays, warmups, before), e).raw)
  {
    hide StartupAfter;
    var before, e := events[..|events| - 1], events[|events| - 1];
    var s := StartupRun(delays, warmups, before);
    WarmupIsWarmup(delays, warmups, before, e, p);
    OtherwiseBatches(s, e, p);
    Associative(WarmupBlocks(|delays|, warmups[p], before, p), s.game.Batches(delays[p], s.game.Rows()),
                OutputsTo(p, StartupAfter(s, e).raw));
  }

  lemma ShapeOfNothing(delays: seq<nat>, warmups: seq<nat>, p: nat)
    requires Sized(delays, warmups) && p < |delays|
    ensures Shape(delays, warmups, [], p) == []
  {
    NewHasNoRows(delays);
  }

  // ---- warm-up packets answered in turn ----

  /** A sequence commutes with one block exactly when it repeats it. */
  lemma {:induction false} Commutes(blocks: seq<Bytes>, z: Bytes)
    ensures blocks + [z] == [z] + blocks <==> forall b <- blocks :: b == z
  {
    if blocks != [] {
      var rest := blocks[1..];
      Commutes(rest, z);
      assert blocks == [blocks[0]] + rest;
      assert (blocks + [z])[0] == blocks[0] && (blocks + [z])[1..] == rest + [z];
      assert ([z] + blocks)[0] == z && ([z] + blocks)[1..] == blocks;
      assert forall b :: b in blocks <==> b == blocks[0] || b in rest;
      assert blocks[0] in blocks;
      assert (forall b <- blocks :: b == z) <==> blocks[0] == z && forall b <- rest :: b == z;
      assert blocks + [z] == [blocks[0]] + (rest + [z]);
    }
  }

  lemma PrefixCancels(w: seq<Bytes>, a: seq<Bytes>, b: seq<Bytes>)
    ensures w + a == w + b <==> a == b
  {
    if w + a == w + b {
      assert a == (w + a)[|w|..] && b == (w + b)[|w|..];
    }
  }

  lemma Swapped(w: seq<Bytes>, batches: seq<Bytes>, z: Bytes)
    ensures (w + batches) + [z] == (w + [z]) + batches <==> forall b <- batches :: b == z
  {
    Associative(w, batches, [z]);
    Associative(w, [z], batches);
    PrefixCancels(w, batches + [z], [z] + batches);
    Commutes(batches, z);
  }

  lemma ShapeAfterWarmup(delays: seq<nat>, warmups: seq<nat>, events: seq<Event>, p: nat)
    requires Sized(delays, warmups) && p < |delays| && events != []
    requires IsWarmup(events[..|events| - 1], events[|events| - 1], p, warmups[p])
    ensures var before, e := events[..|events| - 1], events[|events| - 1];
            var g := StartupRun(delays, warmups, before).game;
            var z := ZeroBlock(|delays|, PacketSize(|delays|, events));
            && OutputsTo(p, StartupAfter(StartupRun(delays, warmups, before), e).raw) == [z]
            && StartupRun(delays, warmups, events).game == g
            && WarmupBlocks(|delays|, warmups[p], events, p) == WarmupBlocks(|delays|, warmups[p], before, p) + [z]
  {
    hide StartupAfter;
    var before, e := events[..|events| - 1], events[|events| - 1];
    WarmupIsWarmup(delays, warmups, before, e, p);
    WarmupAnswers(StartupRun(delays, warmups, before), e, p);
    PacketSizeIsLearned(delays, warmups, events);
  }

  /**
   After a run of the given shape, a warm-up packet keeps the shape exactly when all batches sent look
   like its answer.
   */
  lemma LateWarmupExact(delays: seq<nat>, warmups: seq<nat>, events: seq<Event>, p: nat)
    requires Sized(delays, warmups) && p < |delays| && events != []
    requires IsWarmup(events[..|events| - 1], events[|events| - 1], p, warmups[p])
    requires HasShape(delays, warmups, events[..|events| - 1], p)
    ensures HasShape(delays, warmups, events, p) <==> AnsweredInTurn(delays, warmups, events, p)
  {
    hide StartupAfter, WarmupBlocks, StartupRun, IsWarmup, PacketSize, OutputsTo;
    var before, e := events[..|events| - 1], events[|events| - 1];
    var g := StartupRun(delays, warmups, before).game;
    var z := ZeroBlock(|delays|, PacketSize(|delays|, events));
    ShapeAfterWarmup(delays, warmups, events, p);
    OutputsToAppend(p, RawTranscript(delays, warmups, before),
        StartupAfter(StartupRun(delays, warmups, before), e).raw);
    Swapped(WarmupBlocks(|delays|, warmups[p], before, p), g.Batches(delays[p], g.Rows()), z);
  }

  /** Player p has been sent its warm-up blocks and then its batches. */
  ghost predicate HasShape(delays: seq<nat>, warmups: seq<nat>, events: seq<Event>, p: nat)
    requires Sized(delays, warmups) && p < |delays|
  {
    OutputsTo(p, RawTranscript(delays, warmups, events)) == Shape(delays, warmups, events, p)
  }

  /** All batches sent so far look like the answer to a warm-up packet that comes last. */
  ghost predicate AnsweredInTurn(delays: seq<nat>, warmups: seq<nat>, events: seq<Event>, p: nat)
    requires Sized(delays, warmups) && p < |delays| && events != []
  {
    var g := StartupRun(delays, warmups, events[..|events| - 1]).game;
    forall b <- g.Batches(delays[p], g.Rows()) :: b == ZeroBlock(|delays|, PacketSize(|delays|, events))
  }

  /** Each of p's warm-up packets, when it comes, finds no batch sent that looks different from its answer. */
  ghost predicate WarmupsInTurn(delays: seq<nat>, warmups: seq<nat>, events: seq<Event>, p: nat)
    requires Sized(delays, warmups) && p < |delays|
  {
    events == [] ||
    (var before, e := events[..|events| - 1], events[|events| - 1];
     && WarmupsInTurn(delays, warmups, before, p)
     && (IsWarmup(before, e, p, warmups[p]) ==> AnsweredInTurn(delays, warmups, events, p)))
  }

  ghost predicate ShapeThroughout(delays: seq<nat>, warmups: seq<nat>, events: seq<Event>, p: nat)
    requires Sized(delays, warmups) && p < |delays|
  {
    && HasShape(delays, warmups, events, p)
    && (events != [] ==> ShapeThroughout(delays, warmups, events[..|events| - 1], p))
  }

  lemma ShapeKept(delays: seq<nat>, warmups: seq<nat>, events: seq<Event>, p: nat)
    requires Sized(delays, warmups) && p < |delays| && events != []
    requires !IsWarmup(events[..|events| - 1], events[|events| - 1], p, warmups[p])
    requires HasShape(delays, warmups, events[..|events| - 1], p)
    ensures HasShape(delays, warmups, events, p)
  {
    hide StartupAfter, Shape, StartupRun, OutputsTo;
    var before, e := events[..|events| - 1], events[|events| - 1];
    ShapeOtherwise(delays, warmups, events, p);
    OutputsToAppend(p, RawTranscript(delays, warmups, before),
        StartupAfter(StartupRun(delays, warmups, before), e).raw);
  }

  /**
   Over any run: at every moment a player has been sent one block per warm-up packet and then the
   batches of the rows combined, exactly when each of its warm-up packets is answered in turn.
   */
  lemma {:induction false} StreamShapeExact(delays: seq<nat>, warmups: seq<nat>, events: seq<Event>, p: nat)
    requires Sized(delays, warmups) && p < |delays|
    ensures ShapeThroughout(delays, warmups, events, p) <==> WarmupsInTurn(delays, warmups, events, p)
  {
    hide HasShape, AnsweredInTurn, IsWarmup;
    if events == [] {
      NothingHasShape(delays, warmups, p);
    } else {
      var before, e := events[..|events| - 1], events[|events| - 1];
      StreamShapeExact(delays, warmups, before, p);
      if HasShape(delays, warmups, before, p) {
        if IsWarmup(before, e, p, warmups[p]) {
          LateWarmupExact(delays, warmups, events, p);
        } else {
          ShapeKept(delays, warmups, events, p);
        }
      }
    }
  }

  lemma NothingHasShape(delays: seq<nat>, warmups: seq<nat>, p: nat)
    requires Sized(delays, warmups) && p < |delays|
    ensures HasShape(delays, warmups, [], p)
  {
    ShapeOfNothing(delays, warmups, p);
  }

  lemma QuietBefore(own: seq<PlayerEvent>, last: seq<PlayerEvent>, warmup: nat)
    requires QuietInWarmup(own + last, warmup) && |last| <= 1
    ensures QuietInWarmup(own, warmup)
    ensures last != [] && last[0].Sends? && PacketCount(own) < warmup ==> Drops !in own
  {
    if last == [] {
      assert own + last == own;
    } else {
      assert (own + last)[..|own + last| - 1] == own;
    }
  }

  /** A warm-up packet sent before dropping finds no batch sent at all. */
  lemma {:induction false} QuietIsInTurn(delays: seq<nat>, warmups: seq<nat>, events: seq<Event>, p: nat)
    requires Sized(delays, warmups) && p < |delays| && QuietInWarmup(Project(events, p), warmups[p])
    ensures WarmupsInTurn(delays, warmups, events, p)
  {
    hide QuietInWarmup, AnsweredInTurn;
    if events != [] {
      var before, e := events[..|events| - 1], events[|events| - 1];
      assert Project(events, p) == Project(before, p) + OwnIf(p, e);
      QuietBefore(Project(before, p), OwnIf(p, e), warmups[p]);
      QuietIsInTurn(delays, warmups, before, p);
      if IsWarmup(before, e, p, warmups[p]) {
        LiveIsAnsweredInTurn(delays, warmups, events, p);
      }
    }
  }

  lemma LiveIsAnsweredInTurn(delays: seq<nat>, warmups: seq<nat>, events: seq<Event>, p: nat)
    requires Sized(delays, warmups) && p < |delays| && events != []
    requires var before, e := events[..|events| - 1], events[|events| - 1];
             IsWarmup(before, e, p, warmups[p]) && Drops !in Project(before, p)
    ensures AnsweredInTurn(delays, warmups, events, p)
  {
    var before, e := events[..|events| - 1], events[|events| - 1];
    var s := StartupRun(delays, warmups, before);
    WarmupIsWarmup(delays, warmups, before, e, p);
    EveryoneOnSchedule(delays, warmups, before, p);
    WarmupHoldsRowsBack(s, p, Project(before, p));
    assert s.game.Batches(delays[p], 0) == [];
  }

  /**
   In particular a player that sends no warm-up packet after dropping (no live player does) is
   sent its blocks and then its batches: no real row ever precedes a warm-up block.
   */
  lemma StreamShape(delays: seq<nat>, warmups: seq<nat>, events: seq<Event>, p: nat)
    requires Sized(delays, warmups) && p < |delays| && QuietInWarmup(Project(events, p), warmups[p])
    ensures OutputsTo(p, RawTranscript(delays, warmups, events)) == Shape(delays, warmups, events, p)
  {
    QuietIsInTurn(delays, warmups, events, p);
    StreamShapeExact(delays, warmups, events, p);
  }

  // ---- the size of warm-up blocks ----

  function Repeat(x: Bytes, count: nat): (r: seq<Bytes>)
    ensures |r| == count
  {
    seq(count, _ => x)
  }

  /** Each of p's warm-up packets is, or comes after, a nonempty packet. */
  ghost predicate WarmupSized(players: nat, warmup: nat, events: seq<Event>, p: nat) {
    events == [] ||
    (var before, e := events[..|events| - 1], events[|events| - 1];
     && WarmupSized(players, warmup, before, p)
     && (IsWarmup(before, e, p, warmup) ==> PacketSize(players, events) != 0))
  }

  ghost predicate NoEmptyPackets(players: nat, events: seq<Event>) {
    forall e <- events :: e.Input? && e.player < players ==> e.bytes != []
  }

  lemma {:induction false} NonemptyIsSized(players: nat, warmup: nat, events: seq<Event>, p: nat)
    requires p < players && NoEmptyPackets(players, events)
    ensures WarmupSized(players, warmup, events, p)
  {
    if events != [] {
      assert forall x <- events[..|events| - 1] :: x in events;
      assert events[|events| - 1] in events;
      NonemptyIsSized(players, warmup, events[..|events| - 1], p);
    }
  }

  /** Every block has the size finally known or none, and none is empty iff each came with a known size. */
  lemma {:induction false} BlocksAreSized(players: nat, warmup: nat, events: seq<Event>, p: nat)
    requires players >= 1
    ensures var size := PacketSize(players, events);
            forall b <- WarmupBlocks(players, warmup, events, p) ::
                b == [] || (size != 0 && b == ZeroBlock(players, size))
    ensures WarmupSized(players, warmup, events, p) <==> [] !in WarmupBlocks(players, warmup, events, p)
  {
    if events != [] {
      BlocksAreSized(players, warmup, events[..|events| - 1], p);
      BlockLength(players, PacketSize(players, events));
    }
  }

  lemma BlockLength(players: nat, size: nat)
    requires players >= 1
    ensures ZeroBlock(players, size) == [] <==> size == 0
  {
    if size > 0 {
      AtLeastOne(players, size);
    }
  }

  /**
   The blocks are equal, and as large as the size finally known, exactly when none was answered before
   it was known.
   */
  lemma WarmupBlocksEqual(players: nat, warmup: nat, events: seq<Event>, p: nat)
    requires players >= 1
    ensures var size := PacketSize(players, events);
            WarmupBlocks(players, warmup, events, p)
              == Repeat(ZeroBlock(players, size), Min(PacketCount(Project(events, p)), warmup))
            <==> size == 0 || WarmupSized(players, warmup, events, p)
  {
    var size, blocks := PacketSize(players, events), WarmupBlocks(players, warmup, events, p);
    BlocksAreSized(players, warmup, events, p);
    BlockLength(players, size);
    WarmupBlockCount(players, warmup, events, p);
    var all := Repeat(ZeroBlock(players, size), |blocks|);
    if size == 0 || [] !in blocks {
      forall i | 0 <= i < |blocks| ensures blocks[i] == all[i] {
        assert blocks[i] in blocks;
      }
    } else {
      var i :| 0 <= i < |blocks| && blocks[i] == [];
      assert all[i] != [];
    }
  }

  // ---- two inputs on which the shape or the size fails ----

  /** An empty first packet is answered by an empty block, although the size is learned later. */
  const EMPTY_FIRST: seq<Event> := [Input(0, []), Input(0, [5])]

  lemma EmptyPacketUnsized()
    ensures PacketSize(1, EMPTY_FIRST) == 1 && !WarmupSized(1, 2, EMPTY_FIRST, 0)
    ensures OutputsTo(0, RawTranscript([1], [2], EMPTY_FIRST))[..1] == [[]]
  {
    hide PacketCount, Project;
    assert EMPTY_FIRST[..1] == [Input(0, [])] && [Input(0, [])][..0] == [];
    EmptyFirstHistory();
    LiveIsQuiet(Project(EMPTY_FIRST, 0), 2);
    StreamShape([1], [2], EMPTY_FIRST, 0);
    assert PacketSize(1, [Input(0, [])]) == 0 && ZeroBlock(1, 0) == [];
    assert WarmupBlocks(1, 2, [Input(0, [])], 0) == [[]];
    assert WarmupBlocks(1, 2, EMPTY_FIRST, 0) == [[]] + [ZeroBlock(1, 1)];
  }

  lemma NoHistory(p: nat)
    ensures Project([], p) == [] && PacketCount([]) == 0
  {
  }

  lemma EmptyFirstHistory()
    ensures PacketCount(Project([], 0)) == 0
    ensures PacketCount(Project([Input(0, [])], 0)) == 1
    ensures Drops !in Project(EMPTY_FIRST, 0)
  {
    hide PacketCount, Project;
    NoHistory(0);
    ProjectTwo(Input(0, []), Input(0, [5]), 0);
    ProjectOne([], Input(0, []), 0);
    assert [] + [Input(0, [])] == [Input(0, [])] && [] + [Sends([])] == [Sends([])];
    OwnSnoc([], Sends([]));
  }

  /** Player 0 drops after the first of its two warm-up packets, is sent a row, and then sends the second. */
  const DROPPED_EARLY: seq<Event> := [Input(0, [5]), Drop(0), Input(1, [6]), Input(0, [5])]

  lemma LateWarmupOutOfTurn()
    ensures !HasShape([1, 1], [2, 0], DROPPED_EARLY, 0)
  {
    var delays: seq<nat>, warmups: seq<nat> := [1, 1], [2, 0];
    var before := DROPPED_EARLY[..3];
    EarlyDropHistories();
    EarlyDropCounts();
    EarlyDropGame();
    StreamShape(delays, warmups, before, 0);
    ShapeAfterWarmup(delays, warmups, DROPPED_EARLY, 0);
    LateWarmupExact(delays, warmups, DROPPED_EARLY, 0);
    var g := StartupRun(delays, warmups, before).game;
    EarlyDropRow(g);
    var b := g.Batches(1, 1)[0];
    assert b in g.Batches(delays[0], g.Rows());
    assert 6 in b && b != ZeroBlock(2, PacketSize(2, DROPPED_EARLY));
  }

  lemma EarlyDropHistories()
    ensures DROPPED_EARLY[..3] == [Input(0, [5]), Drop(0), Input(1, [6])]
    ensures Project(DROPPED_EARLY[..3], 0) == [Sends([5]), Drops]
    ensures Project(DROPPED_EARLY, 0) == [Sends([5]), Drops, Sends([5])]
    ensures Project(DROPPED_EARLY, 1) == [Sends([6])]
  {
    ProjectThree(Input(0, [5]), Drop(0), Input(1, [6]), 0);
    ProjectFour(Input(0, [5]), Drop(0), Input(1, [6]), Input(0, [5]), 0);
    ProjectFour(Input(0, [5]), Drop(0), Input(1, [6]), Input(0, [5]), 1);
  }

  lemma EarlyDropCounts()
    ensures PacketCount([Sends([5]), Drops]) == 1 && QuietInWarmup([Sends([5]), Drops], 2)
    ensures LivePackets([Sends([5]), Drops, Sends([5])]) == [[5]] && LivePackets([Sends([6])]) == [[6]]
  {
    var one: seq<PlayerEvent>, two: seq<PlayerEvent> := [Sends([5])], [Sends([5]), Drops];
    assert [] + [Sends([5])] == one && one + [Drops] == two && two + [Sends([5])] == [Sends([5]), Drops, Sends([5])];
    assert [] + [Sends([6])] == [Sends([6])] && two[..1] == one && one[..0] == [];
    OwnSnoc([], Sends([5]));
    OwnSnoc(one, Drops);
    OwnSnoc(two, Sends([5]));
    OwnSnoc([], Sends([6]));
  }

  lemma EarlyDropGame()
    ensures var g := StartupRun([1, 1], [2, 0], DROPPED_EARLY).game;
            g.frames == [[], [[6]]] && g.dropped == [true, false] && g.delays == [1, 1]
  {
    EarlyDropHistories();
    EarlyDropCounts();
    EveryoneOnSchedule([1, 1], [2, 0], DROPPED_EARLY, 0);
    EveryoneOnSchedule([1, 1], [2, 0], DROPPED_EARLY, 1);
    FramesOfAllOne([], [6], 1);
    assert [] + [[6]] == [[6]] && FramesIn([6], 1) == [[6]];
    assert Released([[6]], 0) == [[6]] && Released([[5]], 2) == [];
  }

  lemma EarlyDropRow(g: Game)
    requires g.Valid() && g.frames == [[], [[6]]] && g.dropped == [true, false] && g.delays == [1, 1]
    ensures g.Rows() == 1 && |g.Batches(1, 1)| == 1 && 6 in g.Batches(1, 1)[0]
  {
    RowsClosedForm(g);
    assert g.IsLive(1);
    BatchCount(g, 1, 1);
    BatchAt(g, 1, 1, 0);
    var row := g.Row(0);
    assert g.RowRange(0, 1) == row == [row[0], [6]];
    assert Flatten(row) == Flatten(row[..1]) + [6];
  }
}
