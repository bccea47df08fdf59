/**
 The whole synchronisation stack as a value: input-cache resolution, then the startup
 layer, then the cached combiner. Closing the loop with clients that follow the cache rules
 gives the end-to-end theorems.
 */
module DelayedGame {
  import opened Common
  import opened Codec
  import opened Lockstep
  import opened LockstepRuns
  import opened CachedGame
  import opened Startup
  import opened Streams

  datatype Delayed = Delayed(inner: Cached, inputCaches: seq<Cache>, queues: seq<seq<Bytes>>,
                             warmupSent: seq<nat>, warmups: seq<nat>, frameSize: nat) {
    ghost predicate Valid() {
      inner.Valid() && Core().Valid() && |inputCaches| == |inner.inputCaches|
    }

    /** The stack with every cache stripped off. */
    function Core(): Startup {
      Startup(inner.game, queues, warmupSent, warmups, frameSize)
    }
  }

  function NewDelayed(inner: Cached, warmups: seq<nat>): Delayed {
    var n := |inner.inputCaches|;
    Delayed(inner, EmptyCaches(n), seq(n, _ => []), seq(n, _ => 0), warmups, 0)
  }

  /** Pass bytes on to the cached combiner. */
  function Forward(d: Delayed, p: nat, bytes: Bytes): Step<Delayed>
    requires d.Valid()
  {
    var s := CachedInput(d.inner, p, GameData(bytes));
    Step(d.(inner := s.state), s.result)
  }

  /** Answer a warm-up packet with a zero block. */
  function AnswerWithZeros(d: Delayed, p: nat): Step<Delayed>
    requires d.Valid() && p < |d.queues|
  {
    var e := EncodeUnless(d.inner.disableOutputCache, d.inner.outputCaches[p], ZeroBlock(|d.queues|, d.frameSize));
    Step(d.(inner := d.inner.(outputCaches := d.inner.outputCaches[p := e.cache])), Ok([PlayerResponse(p, e.message)]))
  }

  /** The first nonempty packet of all fixes the frame size. */
  function LearnSize(d: Delayed, bytes: Bytes): Delayed {
    if d.frameSize == 0 && bytes != [] then d.(frameSize := |bytes|) else d
  }

  /** Save a warm-up packet. */
  function Save(d: Delayed, p: nat, bytes: Bytes): Delayed
    requires d.Valid() && p < |d.queues|
  {
    d.(queues := d.queues[p := d.queues[p] + [bytes]], warmupSent := d.warmupSent[p := d.warmupSent[p] + 1])
  }

  /** Take the oldest saved packet out. */
  function Flush(d: Delayed, p: nat): Delayed
    requires d.Valid() && p < |d.queues| && d.queues[p] != []
  {
    d.(queues := d.queues[p := d.queues[p][1..]])
  }

  /** A packet whose bytes are known: warm-up, catch-up or pass-through. */
  function AcceptPacket(d: Delayed, p: nat, bytes: Bytes): Step<Delayed>
    requires d.Valid() && p < |d.queues|
  {
    var d1 := LearnSize(d, bytes);
    if d.warmupSent[p] < d.warmups[p] then AnswerWithZeros(Save(d1, p, bytes), p)
    else if d.queues[p] != [] then Forward(Flush(d1, p), p, d.queues[p][0])
    else Forward(d1, p, bytes)
  }

  function DelayedInput(d: Delayed, p: nat, m: Message): Step<Delayed>
    requires d.Valid()
  {
    if p >= |d.queues| then Step(d, Err(InvalidPlayerId(p, |d.queues|)))
    else
      match Decode(PushAlways, d.inputCaches[p], m)
      case None => Step(d, Err(CachePositionNotFound(p, m.position)))
      case Some(r) => AcceptPacket(d.(inputCaches := d.inputCaches[p := r.cache]), p, r.bytes)
  }

  function DelayedDrop(d: Delayed, p: nat): Step<Delayed>
    requires d.Valid()
  {
    var s := CachedDrop(d.inner, p);
    Step(d.(inner := s.state, queues := if p < |d.queues| then d.queues[p := []] else d.queues), s.result)
  }

  // ---- the stack is the startup layer with its raw outputs encoded ----

  /** d' and r are what moving the core to `m` and encoding its raw outputs gives. */
  ghost predicate Encodes(d: Delayed, m: Moved, d': Delayed, r: Result<seq<PlayerResponse>, GameSyncError>) {
    && |d.inner.outputCaches| == |d.queues|
    && Addressed(m.raw, |d.queues|)
    && d'.Core() == m.state
    && d'.inputCaches == d.inputCaches
    && d'.inner.disableOutputCache == d.inner.disableOutputCache
    && var e := EncodeOutputs(d.inner.disableOutputCache, d.inner.outputCaches, m.raw);
       d'.inner.outputCaches == e.caches && r == Ok(e.responses)
  }

  lemma ForwardEncodes(d: Delayed, p: nat, bytes: Bytes)
    requires d.Valid() && p < |d.queues|
    ensures var s := Forward(d, p, bytes);
            s.state.Valid() && Encodes(d, Release(d.Core(), p, bytes), s.state, s.result)
  {
    EventsExtend(d.inner.game, Input(p, bytes));
    var g' := AfterInput(d.inner.game, p, bytes);
    EmittedIsAddressed(g', d.inner.game.Rows(), g'.Rows());
  }

  lemma ZerosEncode(d: Delayed, p: nat)
    requires d.Valid() && p < |d.queues|
    ensures var s := AnswerWithZeros(d, p);
            s.state.Valid()
                && Encodes(d, Moved(d.Core(), [Output(p, ZeroBlock(|d.queues|, d.frameSize))]), s.state, s.result)
  {
    var out := Output(p, ZeroBlock(|d.queues|, d.frameSize));
    var before := EncodeOutputs(d.inner.disableOutputCache, d.inner.outputCaches, []);
    assert [out][..|[out]| - 1] == [];
    assert forall r: PlayerResponse :: before.responses + [r] == [r];
  }

  lemma AcceptEncodes(d: Delayed, p: nat, bytes: Bytes)
    requires d.Valid() && p < |d.queues|
    ensures var s := AcceptPacket(d, p, bytes);
            s.state.Valid() && Encodes(d, Offer(d.Core(), p, bytes), s.state, s.result)
  {
    hide EncodeOutputs;
    var d1 := LearnSize(d, bytes);
    if d.warmupSent[p] < d.warmups[p] {
      ZerosEncode(Save(d1, p, bytes), p);
    } else if d.queues[p] != [] {
      ForwardEncodes(Flush(d1, p), p, d.queues[p][0]);
    } else {
      ForwardEncodes(d1, p, bytes);
    }
  }

  lemma DropEncodes(d: Delayed, p: nat)
    requires d.Valid() && p < |d.queues|
    ensures var s := DelayedDrop(d, p);
            s.state.Valid() && Encodes(d, Abandon(d.Core(), p), s.state, s.result)
  {
    EventsExtend(d.inner.game, Drop(p));
    var g' := AfterDrop(d.inner.game, p);
    EmittedIsAddressed(g', d.inner.game.Rows(), g'.Rows());
  }

  // ---- server and clients together ----

  /** The server, and each client's own record of what it has sent in full. */
  datatype System = System(server: Delayed, clientCaches: seq<Cache>) {
    ghost predicate Valid() {
      server.Valid() && clientCaches == server.inputCaches
    }
  }

  /**
   `Input(p, x)` is client p meaning to send x: it searches its cache and sends the
   position or the data, and the server processes that message.
   */
  function SystemAfter(y: System, e: Event): Step<System>
    requires y.server.Valid() && |y.clientCaches| == |y.server.queues|
  {
    if e.player >= |y.clientCaches| then Step(y, Ok([]))
    else match e
      case Drop(p) =>
        var s := DelayedDrop(y.server, p);
        Step(y.(server := s.state), s.result)
      case Input(p, x) =>
        var sent := Encode(y.clientCaches[p], x);
        var s := DelayedInput(y.server, p, sent.message);
        Step(System(s.state, y.clientCaches[p := sent.cache]), s.result)
  }

  /** Every packet is resolved to the bytes the client meant, and both ends' caches stay equal. */
  lemma SystemStep(y: System, e: Event)
    requires y.Valid()
    ensures var s := SystemAfter(y, e);
            && s.state.Valid()
            && s.state.server.Core() == StartupAfter(y.server.Core(), e).state
            && s.state.server.inner.disableOutputCache == y.server.inner.disableOutputCache
            && Addressed(StartupAfter(y.server.Core(), e).raw, |y.server.inner.outputCaches|)
            && var b := EncodeOutputs(y.server.inner.disableOutputCache, y.server.inner.outputCaches,
                                      StartupAfter(y.server.Core(), e).raw);
               s.result == Ok(b.responses) && s.state.server.inner.outputCaches == b.caches
  {
    if e.player >= |y.clientCaches| {
    } else if e.Drop? {
      DropEncodes(y.server, e.player);
    } else {
      var p, x := e.player, e.bytes;
      var sent := Encode(y.clientCaches[p], x);
      DecodeUndoesEncode(PushAlways, y.clientCaches[p], x);
      AcceptEncodes(y.server.(inputCaches := y.server.inputCaches[p := sent.cache]), p, x);
    }
  }

  ghost function SystemRun(delays: seq<nat>, warmups: seq<nat>, disabled: bool, events: seq<Event>): (y: System)
    requires Sized(delays, warmups)
    ensures y.Valid()
  {
    if events == [] then System(NewDelayed(NewCached(delays, disabled), warmups), EmptyCaches(|delays|))
    else
      var y := SystemRun(delays, warmups, disabled, events[..|events| - 1]);
      SystemStep(y, events[|events| - 1]);
      SystemAfter(y, events[|events| - 1]).state
  }

  /** Every response the server returned, in order. */
  ghost function SystemTranscript(delays: seq<nat>, warmups: seq<nat>, disabled: bool,
      events: seq<Event>): seq<PlayerResponse>
    requires Sized(delays, warmups)
  {
    if events == [] then []
    else
      var before := events[..|events| - 1];
      SystemTranscript(delays, warmups, disabled, before)
      + Responses(SystemAfter(SystemRun(delays, warmups, disabled, before), events[|events| - 1]).result)
  }

  lemma {:induction false} SystemRunsStartup(delays: seq<nat>, warmups: seq<nat>, disabled: bool, events: seq<Event>)
    requires Sized(delays, warmups)
    ensures var y := SystemRun(delays, warmups, disabled, events);
            && y.server.Core() == StartupRun(delays, warmups, events)
            && y.server.inner.disableOutputCache == disabled
  {
    if events != [] {
      SystemRunsStartup(delays, warmups, disabled, events[..|events| - 1]);
      SystemStep(SystemRun(delays, warmups, disabled, events[..|events| - 1]), events[|events| - 1]);
    }
  }

  /**
   Input codec: a client that searches its own cache before sending never makes a call
   fail, and what it meant is what enters the startup layer, whatever has been evicted.
   */
  lemma InputCodecCorrect(delays: seq<nat>, warmups: seq<nat>, disabled: bool, events: seq<Event>, e: Event)
    requires Sized(delays, warmups)
    ensures var y := SystemRun(delays, warmups, disabled, events);
            && SystemAfter(y, e).result.Ok?
            && SystemAfter(y, e).state.server.Core() == StartupAfter(StartupRun(delays, warmups, events), e).state
            && SystemAfter(y, e).state.clientCaches == SystemAfter(y, e).state.server.inputCaches
  {
    SystemRunsStartup(delays, warmups, disabled, events);
    SystemStep(SystemRun(delays, warmups, disabled, events), e);
  }

  /** Player p's responses are its raw stream encoded through one cache from empty. */
  lemma {:induction false} SystemEncodesRawStream(delays: seq<nat>, warmups: seq<nat>, disabled: bool,
      events: seq<Event>, p: nat)
    requires Sized(delays, warmups) && p < |delays|
    ensures |SystemRun(delays, warmups, disabled, events).server.inner.outputCaches| == |delays|
    ensures var own := EncodeAll(disabled, [], OutputsTo(p, RawTranscript(delays, warmups, events)));
            && ResponsesTo(p, SystemTranscript(delays, warmups, disabled, events)) == own.messages
            && SystemRun(delays, warmups, disabled, events).server.inner.outputCaches[p] == own.cache
  {
    SystemRunsStartup(delays, warmups, disabled, events);
    if events != [] {
      var before, e := events[..|events| - 1], events[|events| - 1];
      SystemEncodesRawStream(delays, warmups, disabled, before, p);
      SystemRunsStartup(delays, warmups, disabled, before);
      var y, raw := SystemRun(delays, warmups, disabled, before),
          StartupAfter(StartupRun(delays, warmups, before), e).raw;
      SystemStep(y, e);
      EncodingIsPerPlayer(disabled, y.server.inner.outputCaches, raw, p);
      var earlier := OutputsTo(p, RawTranscript(delays, warmups, before));
      OutputsToAppend(p, RawTranscript(delays, warmups, before), raw);
      EncodeAllAppend(disabled, [], earlier, OutputsTo(p, raw));
      ResponsesToAppend(p, SystemTranscript(delays, warmups, disabled, before), Responses(SystemAfter(y, e).result));
    }
  }

  /**
   End to end: a player whose warm-up packets are answered in turn (as every live player's are)
   and who decodes its responses, by either rule and whether or not the output cache is in use,
   recovers its warm-up blocks and then the batches of the combined rows of everybody's released
   packets; with the cache in use, its own cache is the server's.
   */
  lemma EndToEnd(delays: seq<nat>, warmups: seq<nat>, disabled: bool, events: seq<Event>,
                                    p: nat, rule: PushRule)
    requires Sized(delays, warmups) && p < |delays| && WarmupsInTurn(delays, warmups, events, p)
    ensures var y := SystemRun(delays, warmups, disabled, events);
            var decoded := DecodeAll(rule, [], ResponsesTo(p, SystemTranscript(delays, warmups, disabled, events)));
            && |y.server.inner.outputCaches| == |delays|
            && decoded.Some? && decoded.value.blocks == Shape(delays, warmups, events, p)
            && (!disabled ==> decoded.value.cache == y.server.inner.outputCaches[p])
    ensures forall i: nat | i < |delays| ::
              StartupRun(delays, warmups, events).game.frames[i]
              == FramesOfAll(Released(LivePackets(Project(events, i)), warmups[i]), delays[i])
  {
    SystemEncodesRawStream(delays, warmups, disabled, events, p);
    StreamShapeExact(delays, warmups, events, p);
    if disabled {
      DisabledRoundTrip(rule, [], [], OutputsTo(p, RawTranscript(delays, warmups, events)));
    } else {
      StreamRoundTrip(rule, [], OutputsTo(p, RawTranscript(delays, warmups, events)));
    }
    forall i: nat | i < |delays|
      ensures StartupRun(delays, warmups, events).game.frames[i]
           == FramesOfAll(Released(LivePackets(Project(events, i)), warmups[i]), delays[i])
    {
      EveryoneOnSchedule(delays, warmups, events, i);
    }
  }
}
