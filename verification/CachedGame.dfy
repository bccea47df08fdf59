/** What the cached layer computes: the lockstep game, with every player's stream run through its own codec. */
module CachedGame {
  import opened Common
  import opened InputCaches
  import opened Codec
  import opened Lockstep
  import opened LockstepRuns
  import opened Interleavings

  datatype PlayerResponse = PlayerResponse(player: nat, response: Message)

  datatype Cached = Cached(game: Game, inputCaches: seq<Cache>, outputCaches: seq<Cache>, disableOutputCache: bool) {
    ghost predicate Valid() {
      game.Valid() && |inputCaches| == |outputCaches| == |game.delays|
    }
  }

  function NewCached(delays: seq<nat>, disabled: bool): Cached {
    Cached(New(delays), EmptyCaches(|delays|), EmptyCaches(|delays|), disabled)
  }

  function EmptyCaches(count: nat): (s: seq<Cache>)
    ensures |s| == count && forall i | 0 <= i < count :: s[i] == []
  {
    seq(count, _ => [])
  }

  // ---- encoding a batch of outputs ----

  datatype EncodedBatch = EncodedBatch(responses: seq<PlayerResponse>, caches: seq<Cache>)

  ghost predicate Addressed(outs: seq<Output>, players: nat) {
    forall o <- outs :: o.player < players
  }

  function EncodeOutputs(disabled: bool, caches: seq<Cache>, outs: seq<Output>): (e: EncodedBatch)
    requires Addressed(outs, |caches|)
    ensures |e.caches| == |caches| && |e.responses| == |outs|
    ensures forall i | 0 <= i < |outs| :: e.responses[i].player == outs[i].player
  {
    if outs == [] then EncodedBatch([], caches)
    else
      var last := outs[|outs| - 1];
      var before := EncodeOutputs(disabled, caches, outs[..|outs| - 1]);
      var e := EncodeUnless(disabled, before.caches[last.player], last.bytes);
      EncodedBatch(before.responses + [PlayerResponse(last.player, e.message)], before.caches[last.player := e.cache])
  }

  lemma EncodeNothing(disabled: bool, caches: seq<Cache>)
    ensures EncodeOutputs(disabled, caches, []) == EncodedBatch([], caches)
  {
  }

  lemma EncodeOutputsOne(disabled: bool, caches: seq<Cache>, outs: seq<Output>, o: Output)
    requires Addressed(outs, |caches|) && o.player < |caches|
    ensures Addressed(outs + [o], |caches|)
    ensures var before := EncodeOutputs(disabled, caches, outs);
            var e := EncodeUnless(disabled, before.caches[o.player], o.bytes);
            EncodeOutputs(disabled, caches, outs + [o])
            == EncodedBatch(before.responses + [PlayerResponse(o.player, e.message)],
                before.caches[o.player := e.cache])
  {
    assert (outs + [o])[..|outs + [o]| - 1] == outs;
  }

  function ResponsesTo(p: nat, rs: seq<PlayerResponse>): seq<Message> {
    if rs == [] then []
    else
      var last := rs[|rs| - 1];
      ResponsesTo(p, rs[..|rs| - 1]) + (if last.player == p then [last.response] else [])
  }

  lemma {:induction false} ResponsesToAppend(p: nat, a: seq<PlayerResponse>, b: seq<PlayerResponse>)
    ensures ResponsesTo(p, a + b) == ResponsesTo(p, a) + ResponsesTo(p, b)
  {
    if b == [] {
      assert a + b == a;
    } else {
      ResponsesToAppend(p, a, b[..|b| - 1]);
      assert (a + b)[..|a + b| - 1] == a + b[..|b| - 1];
    }
  }

  lemma ResponsesToOne(p: nat, a: seq<PlayerResponse>, r: PlayerResponse)
    ensures ResponsesTo(p, a + [r]) == ResponsesTo(p, a) + (if r.player == p then [r.response] else [])
  {
    assert (a + [r])[..|a + [r]| - 1] == a;
  }

  /** However the players' outputs are mixed, each player's messages are its own outputs through its own cache. */
  lemma {:induction false} EncodingIsPerPlayer(disabled: bool, caches: seq<Cache>, outs: seq<Output>, p: nat)
    requires Addressed(outs, |caches|) && p < |caches|
    ensures var e, own := EncodeOutputs(disabled, caches, outs), EncodeAll(disabled, caches[p], OutputsTo(p, outs));
            ResponsesTo(p, e.responses) == own.messages && e.caches[p] == own.cache
  {
    if outs != [] {
      var earlier, last := outs[..|outs| - 1], outs[|outs| - 1];
      EncodingIsPerPlayer(disabled, caches, earlier, p);
      var before := EncodeOutputs(disabled, caches, earlier);
      var e := EncodeUnless(disabled, before.caches[last.player], last.bytes);
      ResponsesToOne(p, before.responses, PlayerResponse(last.player, e.message));
      if last.player == p {
        EncodeAllOne(disabled, caches[p], OutputsTo(p, earlier), last.bytes);
      } else {
        assert OutputsTo(p, outs) == OutputsTo(p, earlier);
      }
    }
  }

  /** Two encoded streams, the second continuing with the first's cache. */
  ghost function Continued(disabled: bool, cache: Cache, xs: seq<Bytes>, ys: seq<Bytes>): EncodedStream {
    var first := EncodeAll(disabled, cache, xs);
    var second := EncodeAll(disabled, first.cache, ys);
    EncodedStream(first.messages + second.messages, second.cache)
  }

  lemma {:induction false} EncodeAllAppend(disabled: bool, cache: Cache, xs: seq<Bytes>, ys: seq<Bytes>)
    ensures EncodeAll(disabled, cache, xs + ys) == Continued(disabled, cache, xs, ys)
  {
    hide EncodeUnless;
    if ys == [] {
      assert xs + ys == xs;
    } else {
      var earlier, y := ys[..|ys| - 1], ys[|ys| - 1];
      EncodeAllAppend(disabled, cache, xs, earlier);
      assert xs + ys == (xs + earlier) + [y] && ys == earlier + [y];
      EncodeAllOne(disabled, cache, xs + earlier, y);
      ContinuedOne(disabled, cache, xs, earlier, y);
    }
  }

  lemma ContinuedOne(disabled: bool, cache: Cache, xs: seq<Bytes>, ys: seq<Bytes>, y: Bytes)
    ensures var before := Continued(disabled, cache, xs, ys);
            var e := EncodeUnless(disabled, before.cache, y);
            Continued(disabled, cache, xs, ys + [y]) == EncodedStream(before.messages + [e.message], e.cache)
  {
    var first := EncodeAll(disabled, cache, xs);
    var second := EncodeAll(disabled, first.cache, ys);
    EncodeAllOne(disabled, first.cache, ys, y);
    Associative(first.messages, second.messages, [EncodeUnless(disabled, second.cache, y).message]);
  }

  lemma {:induction false} EmittedIsAddressed(g: Game, lo: nat, hi: nat)
    requires g.Valid()
    ensures Addressed(g.Emitted(lo, hi), |g.delays|)
    decreases hi
  {
    if lo < hi {
      EmittedIsAddressed(g, lo, hi - 1);
      BlocksAreAddressed(g.BatchesOfRow(hi, |g.delays|));
    }
  }

  lemma {:induction false} BlocksAreAddressed(batches: seq<seq<Bytes>>)
    ensures Addressed(AddressEach(batches), |batches|)
  {
    if batches != [] {
      BlocksAreAddressed(batches[..|batches| - 1]);
    }
  }

  // ---- one event ----

  datatype Step<S> = Step(state: S, result: Result<seq<PlayerResponse>, GameSyncError>)

  /** The game moves to g'; whatever that makes sendable is encoded. */
  function MoveOn(c: Cached, g': Game): Step<Cached>
    requires c.Valid() && g'.Valid() && g'.delays == c.game.delays
  {
    EmittedIsAddressed(g', c.game.Rows(), g'.Rows());
    var e := EncodeOutputs(c.disableOutputCache, c.outputCaches, Sent(c.game, g'));
    Step(c.(game := g', outputCaches := e.caches), Ok(e.responses))
  }

  function CachedInput(c: Cached, p: nat, m: Message): (s: Step<Cached>)
    requires c.Valid()
    ensures s.state.Valid()
  {
    if p >= |c.game.delays| then Step(c, Err(InvalidPlayerId(p, |c.game.delays|)))
    else
      match Decode(PushAlways, c.inputCaches[p], m)
      case None => Step(c, Err(CachePositionNotFound(p, m.position)))
      case Some(d) =>
        EventsExtend(c.game, Input(p, d.bytes));
        MoveOn(c.(inputCaches := c.inputCaches[p := d.cache]), AfterInput(c.game, p, d.bytes))
  }

  function CachedDrop(c: Cached, p: nat): (s: Step<Cached>)
    requires c.Valid()
    ensures s.state.Valid()
  {
    if p >= |c.game.delays| then Step(c, Err(InvalidPlayerId(p, |c.game.delays|)))
    else
      EventsExtend(c.game, Drop(p));
      MoveOn(c, AfterDrop(c.game, p))
  }

  // ---- runs ----

  datatype CachedEvent = Receive(player: nat, message: Message) | Leave(player: nat)

  function CachedAfter(c: Cached, e: CachedEvent): (s: Step<Cached>)
    requires c.Valid()
    ensures s.state.Valid()
  {
    match e
    case Receive(p, m) => CachedInput(c, p, m)
    case Leave(p) => CachedDrop(c, p)
  }

  ghost function CachedRun(delays: seq<nat>, disabled: bool, events: seq<CachedEvent>): (c: Cached)
    requires DelaysPositive(delays)
    ensures c.Valid()
  {
    if events == [] then NewCached(delays, disabled)
    else CachedAfter(CachedRun(delays, disabled, events[..|events| - 1]), events[|events| - 1]).state
  }

  /** Every response returned during the run, in order; a failed call returns none. */
  ghost function CachedTranscript(delays: seq<nat>, disabled: bool, events: seq<CachedEvent>): seq<PlayerResponse>
    requires DelaysPositive(delays)
  {
    if events == [] then []
    else
      var before := events[..|events| - 1];
      var r := CachedAfter(CachedRun(delays, disabled, before), events[|events| - 1]).result;
      CachedTranscript(delays, disabled, before) + Responses(r)
  }

  /** What one event amounts to for the combiner, given the input caches; nothing if the call fails. */
  function Resolve(caches: seq<Cache>, e: CachedEvent): seq<Event> {
    if e.player >= |caches| then []
    else
      match e
      case Leave(p) => [Drop(p)]
      case Receive(p, m) =>
        match Decode(PushAlways, caches[p], m)
        case None => []
        case Some(d) => [Input(p, d.bytes)]
  }

  ghost function Resolved(delays: seq<nat>, disabled: bool, events: seq<CachedEvent>): seq<Event>
    requires DelaysPositive(delays)
  {
    if events == [] then []
    else
      var before := events[..|events| - 1];
      Resolved(delays, disabled, before)
      + Resolve(CachedRun(delays, disabled, before).inputCaches, events[|events| - 1])
  }

  lemma RunSnoc(delays: seq<nat>, events: seq<Event>, e: Event)
    requires DelaysPositive(delays)
    ensures Run(delays, events + [e]) == After(Run(delays, events), e)
    ensures Transcript(delays, events + [e])
         == Transcript(delays, events) + Sent(Run(delays, events), Run(delays, events + [e]))
  {
    assert (events + [e])[..|events + [e]| - 1] == events;
  }

  datatype OwnEvent = Receives(message: Message) | Leaves

  /** An event as its player sees it. */
  function AsOwn(e: CachedEvent): OwnEvent {
    match e
    case Receive(_, m) => Receives(m)
    case Leave(_) => Leaves
  }

  /** The sender's input cache after an event. */
  function CacheAfter(cache: Cache, o: OwnEvent): Cache {
    match o
    case Leaves => cache
    case Receives(m) =>
      match Decode(PushAlways, cache, m)
      case None => cache
      case Some(d) => d.cache
  }

  /** What an event means, given the sender's input cache. */
  function Meaning(cache: Cache, o: OwnEvent): seq<PlayerEvent> {
    match o
    case Leaves => [Drops]
    case Receives(m) =>
      match Decode(PushAlways, cache, m)
      case None => []
      case Some(d) => [Sends(d.bytes)]
  }

  /** One call moves the game by the resolved event, if there is one, and touches no other player's input cache. */
  lemma StepMovesTheGame(c: Cached, e: CachedEvent)
    requires c.Valid()
    ensures var c', evs := CachedAfter(c, e).state, Resolve(c.inputCaches, e);
            && c'.game == (if evs == [] then c.game else After(c.game, evs[0]))
            && c'.disableOutputCache == c.disableOutputCache
            && c'.inputCaches == if e.player >= |c.inputCaches| then c.inputCaches
                                 else c.inputCaches[e.player := CacheAfter(c.inputCaches[e.player], AsOwn(e))]
  {
  }

  /** The caches aside, the run is the combiner's run on the resolved events. */
  lemma {:induction false} CachedRunsTheGame(delays: seq<nat>, disabled: bool, events: seq<CachedEvent>)
    requires DelaysPositive(delays)
    ensures var c := CachedRun(delays, disabled, events);
            c.game == Run(delays, Resolved(delays, disabled, events)) && c.disableOutputCache == disabled
  {
    if events != [] {
      var before, e := events[..|events| - 1], events[|events| - 1];
      CachedRunsTheGame(delays, disabled, before);
      var c, rs := CachedRun(delays, disabled, before), Resolved(delays, disabled, before);
      var last := Resolve(c.inputCaches, e);
      StepMovesTheGame(c, e);
      RunsOn(delays, rs, last);
    }
  }

  /** Zero or one more event. */
  lemma RunsOn(delays: seq<nat>, events: seq<Event>, last: seq<Event>)
    requires DelaysPositive(delays) && |last| <= 1
    ensures Run(delays, events + last) == if last == [] then Run(delays, events)
        else After(Run(delays, events), last[0])
    ensures Transcript(delays, events + last)
         == Transcript(delays, events) + Sent(Run(delays, events), Run(delays, events + last))
  {
    if last == [] {
      assert events + last == events;
      NothingSent(Run(delays, events));
      assert Transcript(delays, events) + [] == Transcript(delays, events);
    } else {
      assert last == [last[0]];
      RunSnoc(delays, events, last[0]);
    }
  }

  lemma DeliverEncodes(c: Cached, g': Game, p: nat)
    requires c.Valid() && g'.Valid() && g'.delays == c.game.delays && p < |g'.delays|
    ensures var s, own := MoveOn(c, g'),
        EncodeAll(c.disableOutputCache, c.outputCaches[p], OutputsTo(p, Sent(c.game, g')));
            && s.result.Ok?
            && ResponsesTo(p, s.result.value) == own.messages
            && s.state.outputCaches[p] == own.cache
  {
    EmittedIsAddressed(g', c.game.Rows(), g'.Rows());
    EncodingIsPerPlayer(c.disableOutputCache, c.outputCaches, Sent(c.game, g'), p);
  }

  lemma NothingSent(g: Game)
    requires g.Valid()
    ensures Sent(g, g) == []
  {
  }

  /** The game after the resolved event, if any. */
  function GameAfter(c: Cached, e: CachedEvent): (g: Game)
    requires c.Valid()
    ensures g.Valid() && g.delays == c.game.delays
  {
    var evs := Resolve(c.inputCaches, e);
    if evs == [] then c.game else (EventsExtend(c.game, evs[0]); After(c.game, evs[0]))
  }

  function Responses(r: Result<seq<PlayerResponse>, GameSyncError>): seq<PlayerResponse> {
    if r.Ok? then r.value else []
  }

  /** One event continues p's encoded stream where the previous ones left it. */
  lemma OneStepEncodes(c: Cached, e: CachedEvent, p: nat)
    requires c.Valid() && p < |c.game.delays|
    ensures var s := CachedAfter(c, e);
            var more := EncodeAll(c.disableOutputCache, c.outputCaches[p], OutputsTo(p, Sent(c.game, GameAfter(c, e))));
            ResponsesTo(p, Responses(s.result)) == more.messages && s.state.outputCaches[p] == more.cache
  {
    NothingSent(c.game);
    if Resolve(c.inputCaches, e) != [] {
      DeliverEncodes(if e.Leave? then c
          else c.(inputCaches := CachedAfter(c, e).state.inputCaches), GameAfter(c, e), p);
    }
  }

  /** Over any run, player p's responses are its raw outputs encoded through one cache from empty. */
  lemma {:induction false} ResponsesAreEncodedOutputs(delays: seq<nat>, disabled: bool, events: seq<CachedEvent>,
      p: nat)
    requires DelaysPositive(delays) && p < |delays|
    ensures |CachedRun(delays, disabled, events).outputCaches| == |delays|
    ensures var own := EncodeAll(disabled, [], OutputsTo(p, Transcript(delays, Resolved(delays, disabled, events))));
            && ResponsesTo(p, CachedTranscript(delays, disabled, events)) == own.messages
            && CachedRun(delays, disabled, events).outputCaches[p] == own.cache
  {
    CachedRunsTheGame(delays, disabled, events);
    if events != [] {
      var before, e := events[..|events| - 1], events[|events| - 1];
      ResponsesAreEncodedOutputs(delays, disabled, before, p);
      CachedRunsTheGame(delays, disabled, before);
      var c, rs := CachedRun(delays, disabled, before), Resolved(delays, disabled, before);
      RunsOn(delays, rs, Resolve(c.inputCaches, e));
      OneStepEncodes(c, e, p);
      var sent := Sent(c.game, GameAfter(c, e));
      OutputsToAppend(p, Transcript(delays, rs), sent);
      EncodeAllAppend(disabled, [], OutputsTo(p, Transcript(delays, rs)), OutputsTo(p, sent));
      ResponsesToAppend(p, CachedTranscript(delays, disabled, before), Responses(CachedAfter(c, e).result));
    }
  }

  /**
   A client decoding its own responses recovers exactly its batches, by either rule, and mirrors the
   server's cache.
   */
  lemma OutputCodecCorrect(delays: seq<nat>, events: seq<CachedEvent>, p: nat, rule: PushRule)
    requires DelaysPositive(delays) && p < |delays|
    ensures var c := CachedRun(delays, false, events);
            && p < |c.outputCaches|
            && DecodeAll(rule, [], ResponsesTo(p, CachedTranscript(delays, false, events)))
               == Some(DecodedStream(c.game.Batches(delays[p], c.game.Rows()), c.outputCaches[p]))
            && NoDuplicates(c.outputCaches[p])
  {
    var rs := Resolved(delays, false, events);
    CachedRunsTheGame(delays, false, events);
    ResponsesAreEncodedOutputs(delays, false, events, p);
    TranscriptIsTheBatches(delays, rs, p);
    StreamRoundTrip(rule, [], OutputsTo(p, Transcript(delays, rs)));
    NeverDuplicates([], OutputsTo(p, Transcript(delays, rs)));
  }

  // ---- interleaving ----

  ghost function OwnEvents(events: seq<CachedEvent>, p: nat): seq<OwnEvent> {
    if events == [] then []
    else
      var e := events[|events| - 1];
      OwnEvents(events[..|events| - 1], p) + (if e.player == p then [AsOwn(e)] else [])
  }

  datatype OwnResolution = OwnResolution(events: seq<PlayerEvent>, cache: Cache)

  /** A player's messages resolved against its own cache alone. */
  ghost function ResolveOwn(own: seq<OwnEvent>): OwnResolution {
    if own == [] then OwnResolution([], [])
    else
      var before, last := ResolveOwn(own[..|own| - 1]), own[|own| - 1];
      OwnResolution(before.events + Meaning(before.cache, last), CacheAfter(before.cache, last))
  }

  lemma {:induction false} ResolutionIsOwn(delays: seq<nat>, disabled: bool, events: seq<CachedEvent>, p: nat)
    requires DelaysPositive(delays) && p < |delays|
    ensures |CachedRun(delays, disabled, events).inputCaches| == |delays|
    ensures var own := ResolveOwn(OwnEvents(events, p));
            && Project(Resolved(delays, disabled, events), p) == own.events
            && CachedRun(delays, disabled, events).inputCaches[p] == own.cache
  {
    CachedRunsTheGame(delays, disabled, events);
    if events != [] {
      var before, e := events[..|events| - 1], events[|events| - 1];
      ResolutionIsOwn(delays, disabled, before, p);
      var c, rs := CachedRun(delays, disabled, before), Resolved(delays, disabled, before);
      StepMovesTheGame(c, e);
      ProjectOn(rs, Resolve(c.inputCaches, e), p);
      ProjectResolve(c.inputCaches, e, p);
      if e.player == p {
        ResolveOwnOne(OwnEvents(before, p), AsOwn(e));
      } else {
        assert OwnEvents(events, p) == OwnEvents(before, p);
      }
    }
  }

  lemma ProjectOn(events: seq<Event>, last: seq<Event>, p: nat)
    requires |last| <= 1
    ensures Project(events + last, p) == Project(events, p) + Project(last, p)
  {
    if last == [] {
      assert events + last == events;
    } else {
      assert last == [last[0]];
      ProjectOne(events, last[0], p);
      ProjectOne([], last[0], p);
      assert [] + last == last;
    }
  }

  lemma ProjectResolve(caches: seq<Cache>, e: CachedEvent, p: nat)
    requires p < |caches|
    ensures Project(Resolve(caches, e), p) == if e.player == p then Meaning(caches[p], AsOwn(e)) else []
  {
    var evs := Resolve(caches, e);
    if evs != [] {
      ProjectOne([], evs[0], p);
      assert [] + [evs[0]] == evs;
    }
  }

  lemma ResolveOwnOne(own: seq<OwnEvent>, o: OwnEvent)
    ensures var before := ResolveOwn(own);
            ResolveOwn(own + [o])
                == OwnResolution(before.events + Meaning(before.cache, o), CacheAfter(before.cache, o))
  {
    assert (own + [o])[..|own + [o]| - 1] == own;
  }

  /** Runs that differ only in how the players' messages interleave return every player the same responses. */
  lemma ResponsesIndependentOfInterleaving(delays: seq<nat>, disabled: bool,
                                           a: seq<CachedEvent>, b: seq<CachedEvent>, s: nat, p: nat)
    requires DelaysPositive(delays) && p < |delays|
    requires forall q: nat | q < |delays| :: OwnEvents(a, q) == OwnEvents(b, q)
    requires CommonFrameSize(delays, Resolved(delays, disabled, a), s)
    requires CommonFrameSize(delays, Resolved(delays, disabled, b), s)
    ensures ResponsesTo(p, CachedTranscript(delays, disabled, a))
        == ResponsesTo(p, CachedTranscript(delays, disabled, b))
  {
    forall q: nat | q < |delays|
      ensures Project(Resolved(delays, disabled, a), q) == Project(Resolved(delays, disabled, b), q)
    {
      ResolutionIsOwn(delays, disabled, a, q);
      ResolutionIsOwn(delays, disabled, b, q);
    }
    InterleavingIndependence(delays, Resolved(delays, disabled, a), Resolved(delays, disabled, b), s, p);
    ResponsesAreEncodedOutputs(delays, disabled, a, p);
    ResponsesAreEncodedOutputs(delays, disabled, b, p);
  }
}
