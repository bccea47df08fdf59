/**
 Runs of the whole stack on the messages that really arrive, from clients that may or may not
 obey the cache rules: a player's stream is made of what the messages resolve to.
 */
module DelayedRuns {
  import opened Common
  import opened InputCaches
  import opened Codec
  import opened Lockstep
  import opened LockstepRuns
  import opened CachedGame
  import opened Startup
  import opened Streams
  import opened DelayedGame

  function DelayedAfter(d: Delayed, e: CachedEvent): (s: Step<Delayed>)
    requires d.Valid()
  {
    match e
    case Receive(p, m) => DelayedInput(d, p, m)
    case Leave(p) => if p < |d.queues| then DelayedDrop(d, p) else Step(d, Ok([]))
  }

  /** What has been heard so far, and each player's input cache. */
  datatype Heard = Heard(events: seq<Event>, caches: seq<Cache>)

  /** The messages resolved one after the other; one that cannot be resolved is not heard. */
  ghost function HeardFrom(players: nat, es: seq<CachedEvent>): (h: Heard)
    ensures |h.caches| == players
  {
    if es == [] then Heard([], EmptyCaches(players))
    else
      var h, e := HeardFrom(players, es[..|es| - 1]), es[|es| - 1];
      Heard(h.events + Resolve(h.caches, e),
            if e.player >= players then h.caches
            else h.caches[e.player := CacheAfter(h.caches[e.player], AsOwn(e))])
  }

  /** What a player is heard to send depends on its own messages alone. */
  lemma {:induction false} HeardIsOwn(players: nat, es: seq<CachedEvent>, p: nat)
    requires p < players
    ensures var own := ResolveOwn(OwnEvents(es, p));
            && Project(HeardFrom(players, es).events, p) == own.events
            && HeardFrom(players, es).caches[p] == own.cache
  {
    if es != [] {
      hide Project, Resolve, ResolveOwn, Meaning, CacheAfter, AsOwn;
      var before, e := es[..|es| - 1], es[|es| - 1];
      var h := HeardFrom(players, before);
      HeardIsOwn(players, before, p);
      ResolvesToOne(h.caches, e);
      ProjectOn(h.events, Resolve(h.caches, e), p);
      ProjectResolve(h.caches, e, p);
      if e.player == p {
        ResolveOwnOne(OwnEvents(before, p), AsOwn(e));
      } else {
        assert OwnEvents(es, p) == OwnEvents(before, p);
      }
    }
  }

  // ---- runs ----

  lemma DelayedKeepsValid(d: Delayed, e: CachedEvent)
    requires d.Valid()
    ensures var d' := DelayedAfter(d, e).state; d'.Valid() && |d'.queues| == |d.queues|
  {
    if e.player < |d.queues| {
      if e.Leave? {
        DropEncodes(d, e.player);
      } else {
        match Decode(PushAlways, d.inputCaches[e.player], e.message)
        case None =>
        case Some(r) =>
          AcceptEncodes(d.(inputCaches := d.inputCaches[e.player := r.cache]), e.player, r.bytes);
      }
    }
  }

  ghost function DelayedRun(delays: seq<nat>, warmups: seq<nat>, disabled: bool, es: seq<CachedEvent>): (d: Delayed)
    requires Sized(delays, warmups)
    ensures d.Valid() && |d.queues| == |delays|
  {
    if es == [] then NewDelayed(NewCached(delays, disabled), warmups)
    else
      var d := DelayedRun(delays, warmups, disabled, es[..|es| - 1]);
      DelayedKeepsValid(d, es[|es| - 1]);
      DelayedAfter(d, es[|es| - 1]).state
  }

  ghost function DelayedTranscript(delays: seq<nat>, warmups: seq<nat>, disabled: bool, es: seq<CachedEvent>)
    : seq<PlayerResponse>
    requires Sized(delays, warmups)
  {
    if es == [] then []
    else
      var before := es[..|es| - 1];
      DelayedTranscript(delays, warmups, disabled, before)
      + Responses(DelayedAfter(DelayedRun(delays, warmups, disabled, before), es[|es| - 1]).result)
  }

  /** What one message or drop does, in terms of what it resolves to. */
  lemma StepIsHeard(d: Delayed, e: CachedEvent, p: nat)
    requires d.Valid() && p < |d.queues| && |d.inner.outputCaches| == |d.queues|
    ensures var s, evs := DelayedAfter(d, e), Resolve(d.inputCaches, e);
            var moved := if evs == [] then Moved(d.Core(), []) else StartupAfter(d.Core(), evs[0]);
            && s.state.Core() == moved.state
            && s.state.inner.disableOutputCache == d.inner.disableOutputCache
            && s.state.inputCaches == (if e.player >= |d.queues| then d.inputCaches
                                       else d.inputCaches[e.player := CacheAfter(d.inputCaches[e.player], AsOwn(e))])
            && |s.state.inner.outputCaches| == |d.queues|
            && var more := EncodeAll(d.inner.disableOutputCache, d.inner.outputCaches[p], OutputsTo(p, moved.raw));
               && ResponsesTo(p, Responses(s.result)) == more.messages
               && s.state.inner.outputCaches[p] == more.cache
  {
    hide EncodeOutputs, AcceptPacket, DelayedDrop, StartupAfter;
    if e.player >= |d.queues| {
    } else if e.Leave? {
      DropEncodes(d, e.player);
      EncodingIsPerPlayer(d.inner.disableOutputCache, d.inner.outputCaches, Abandon(d.Core(), e.player).raw, p);
      DropIsAbandon(d.Core(), e.player);
      assert d.inputCaches[e.player := d.inputCaches[e.player]] == d.inputCaches;
    } else {
      match Decode(PushAlways, d.inputCaches[e.player], e.message)
      case None =>
        assert d.inputCaches[e.player := d.inputCaches[e.player]] == d.inputCaches;
      case Some(r) =>
        var d1 := d.(inputCaches := d.inputCaches[e.player := r.cache]);
        AcceptEncodes(d1, e.player, r.bytes);
        EncodingIsPerPlayer(d.inner.disableOutputCache, d.inner.outputCaches, Offer(d.Core(), e.player, r.bytes).raw,
            p);
        InputIsOffer(d.Core(), e.player, r.bytes);
    }
  }

  /** The answers go to the players that the raw outputs are for, in their order. */
  lemma StepAddresses(d: Delayed, e: CachedEvent)
    requires d.Valid()
    ensures var rs, evs := Responses(DelayedAfter(d, e).result), Resolve(d.inputCaches, e);
            var raw := if evs == [] then [] else StartupAfter(d.Core(), evs[0]).raw;
            |rs| == |raw| && forall i | 0 <= i < |rs| :: rs[i].player == raw[i].player
  {
    hide AcceptPacket, DelayedDrop, StartupAfter;
    if e.player < |d.queues| {
      if e.Leave? {
        DropEncodes(d, e.player);
        DropIsAbandon(d.Core(), e.player);
      } else {
        match Decode(PushAlways, d.inputCaches[e.player], e.message)
        case None =>
        case Some(r) =>
          AcceptEncodes(d.(inputCaches := d.inputCaches[e.player := r.cache]), e.player, r.bytes);
          InputIsOffer(d.Core(), e.player, r.bytes);
      }
    }
  }

  lemma DropIsAbandon(s: Startup, p: nat)
    requires s.Valid() && p < |s.queues|
    ensures StartupAfter(s, Drop(p)) == Abandon(s, p)
  {
  }

  lemma InputIsOffer(s: Startup, p: nat, packet: Bytes)
    requires s.Valid() && p < |s.queues|
    ensures StartupAfter(s, Input(p, packet)) == Offer(s, p, packet)
  {
  }

  lemma StartupOnce(delays: seq<nat>, warmups: seq<nat>, events: seq<Event>, last: seq<Event>)
    requires Sized(delays, warmups) && |last| <= 1
    ensures var s := StartupRun(delays, warmups, events);
            var moved := if last == [] then Moved(s, []) else StartupAfter(s, last[0]);
            && StartupRun(delays, warmups, events + last) == moved.state
            && RawTranscript(delays, warmups, events + last) == RawTranscript(delays, warmups, events) + moved.raw
  {
    hide StartupAfter;
    if last == [] {
      assert events + last == events;
      NothingAfter(RawTranscript(delays, warmups, events));
    } else {
      assert (events + last)[..|events + last| - 1] == events;
    }
  }

  /**
   Over any run: the stack is where what it has heard takes it, and each player is sent its raw stream
   encoded through one cache.
   */
  lemma {:induction false} DelayedRunIsHeard(delays: seq<nat>, warmups: seq<nat>, disabled: bool,
                                             es: seq<CachedEvent>, p: nat)
    requires Sized(delays, warmups) && p < |delays|
    ensures var d, h := DelayedRun(delays, warmups, disabled, es), HeardFrom(|delays|, es);
            && d.Core() == StartupRun(delays, warmups, h.events) && d.inputCaches == h.caches
            && d.inner.disableOutputCache == disabled && |d.inner.outputCaches| == |delays|
            && var own := EncodeAll(disabled, [], OutputsTo(p, RawTranscript(delays, warmups, h.events)));
               && ResponsesTo(p, DelayedTranscript(delays, warmups, disabled, es)) == own.messages
               && d.inner.outputCaches[p] == own.cache
  {
    hide DelayedAfter, StartupAfter, OutputsTo, ResponsesTo;
    if es == [] {
      NothingHeard(delays, warmups, disabled, p);
    } else {
      var before, e := es[..|es| - 1], es[|es| - 1];
      var d, h := DelayedRun(delays, warmups, disabled, before), HeardFrom(|delays|, before);
      DelayedRunIsHeard(delays, warmups, disabled, before, p);
      StepIsHeard(d, e, p);
      ResolvesToOne(h.caches, e);
      StartupOnce(delays, warmups, h.events, Resolve(h.caches, e));
      var raw := if Resolve(h.caches, e) == [] then [] else StartupAfter(d.Core(), Resolve(h.caches, e)[0]).raw;
      OutputsToAppend(p, RawTranscript(delays, warmups, h.events), raw);
      EncodeAllAppend(disabled, [], OutputsTo(p, RawTranscript(delays, warmups, h.events)), OutputsTo(p, raw));
      ResponsesToAppend(p, DelayedTranscript(delays, warmups, disabled, before), Responses(DelayedAfter(d, e).result));
    }
  }

  lemma ResolvesToOne(caches: seq<Cache>, e: CachedEvent)
    ensures |Resolve(caches, e)| <= 1
  {
  }

  lemma NothingHeard(delays: seq<nat>, warmups: seq<nat>, disabled: bool, p: nat)
    requires Sized(delays, warmups) && p < |delays|
    ensures var d := DelayedRun(delays, warmups, disabled, []);
            && d.Core() == StartupRun(delays, warmups, []) && d.inputCaches == EmptyCaches(|delays|)
            && d.inner.disableOutputCache == disabled && |d.inner.outputCaches| == |delays|
            && d.inner.outputCaches[p] == []
    ensures OutputsTo(p, []) == [] && ResponsesTo(p, []) == [] && EncodeAll(disabled, [], []) == EncodedStream([], [])
  {
  }

  /**
   End to end for any clients: a player whose warm-up packets are answered in turn decodes from
   its responses, by either rule, its warm-up blocks and then the batches of the combined rows of
   what everybody is heard to send.
   */
  lemma DelayedEndToEnd(delays: seq<nat>, warmups: seq<nat>, disabled: bool, es: seq<CachedEvent>, p: nat,
      rule: PushRule)
    requires Sized(delays, warmups) && p < |delays|
    requires WarmupsInTurn(delays, warmups, HeardFrom(|delays|, es).events, p)
    ensures var decoded := DecodeAll(rule, [], ResponsesTo(p, DelayedTranscript(delays, warmups, disabled, es)));
            decoded.Some? && decoded.value.blocks == Shape(delays, warmups, HeardFrom(|delays|, es).events, p)
  {
    var events := HeardFrom(|delays|, es).events;
    DelayedRunIsHeard(delays, warmups, disabled, es, p);
    StreamShapeExact(delays, warmups, events, p);
    if disabled {
      DisabledRoundTrip(rule, [], [], OutputsTo(p, RawTranscript(delays, warmups, events)));
    } else {
      StreamRoundTrip(rule, [], OutputsTo(p, RawTranscript(delays, warmups, events)));
    }
  }

  // ---- clients that obey the cache rules ----

  /** The messages among a player's own events. */
  ghost function MessagesIn(own: seq<OwnEvent>): seq<Message> {
    if own == [] then []
    else
      var last := own[|own| - 1];
      MessagesIn(own[..|own| - 1]) + (if last.Receives? then [last.message] else [])
  }

  /** The packets among a player's own events. */
  ghost function PacketsIn(own: seq<PlayerEvent>): seq<Bytes> {
    if own == [] then []
    else
      var last := own[|own| - 1];
      PacketsIn(own[..|own| - 1]) + (if last.Sends? then [last.bytes] else [])
  }

  lemma PacketsInAppend(own: seq<PlayerEvent>, last: seq<PlayerEvent>)
    requires |last| <= 1
    ensures PacketsIn(own + last) == PacketsIn(own) + (if last != [] && last[0].Sends? then [last[0].bytes] else [])
  {
    if last == [] {
      assert own + last == own;
    } else {
      assert (own + last)[..|own + last| - 1] == own;
    }
  }

  lemma {:induction false} EncodeAllPrefix(disabled: bool, cache: Cache, xs: seq<Bytes>, n: nat)
    requires n <= |xs|
    ensures |EncodeAll(disabled, cache, xs).messages| == |xs|
    ensures EncodeAll(disabled, cache, xs).messages[..n] == EncodeAll(disabled, cache, xs[..n]).messages
  {
    if n < |xs| {
      EncodeAllPrefix(disabled, cache, xs[..|xs| - 1], n);
      assert xs[..|xs| - 1][..n] == xs[..n];
    } else {
      assert xs[..n] == xs;
      if xs != [] {
        EncodeAllPrefix(disabled, cache, xs[..|xs| - 1], n - 1);
      }
    }
  }

  /** The packets that a client's messages mean, through one cache from empty. */
  ghost function Meant(ms: seq<Message>): DecodedStream {
    if ms == [] then DecodedStream([], [])
    else
      var before := Meant(ms[..|ms| - 1]);
      match Decode(PushAlways, before.cache, ms[|ms| - 1])
      case None => before
      case Some(d) => DecodedStream(before.blocks + [d.bytes], d.cache)
  }

  lemma MeantOne(ms: seq<Message>, m: Message)
    ensures Meant(ms + [m])
         == match Decode(PushAlways, Meant(ms).cache, m)
            case None => Meant(ms)
            case Some(d) => DecodedStream(Meant(ms).blocks + [d.bytes], d.cache)
  {
    hide Decode;
    assert (ms + [m])[..|ms + [m]| - 1] == ms;
  }

  lemma MeaningOfMessage(cache: Cache, m: Message)
    ensures var d, meaning := Decode(PushAlways, cache, m), Meaning(cache, Receives(m));
            && meaning == (if d.Some? then [Sends(d.value.bytes)] else [])
            && CacheAfter(cache, Receives(m)) == if d.Some? then d.value.cache else cache
  {
  }

  /** What a player is heard to send is what its messages mean. */
  lemma {:induction false} HeardIsMeant(own: seq<OwnEvent>)
    ensures PacketsIn(ResolveOwn(own).events) == Meant(MessagesIn(own)).blocks
    ensures ResolveOwn(own).cache == Meant(MessagesIn(own)).cache
    decreases |own|
  {
    hide Decode, Meant, Meaning, CacheAfter, PacketsIn;
    if own == [] {
      NothingIsMeant();
    } else {
      var before, last := own[..|own| - 1], own[|own| - 1];
      var r := ResolveOwn(before);
      HeardIsMeant(before);
      if last.Receives? {
        MeaningOfMessage(r.cache, last.message);
        MeantOne(MessagesIn(before), last.message);
      } else {
        LeavingMeansNothing(r.cache);
        assert MessagesIn(own) == MessagesIn(before);
      }
      PacketsInAppend(r.events, Meaning(r.cache, last));
    }
  }

  lemma NothingIsMeant()
    ensures Meant([]) == DecodedStream([], []) && PacketsIn([]) == []
  {
  }

  lemma LeavingMeansNothing(cache: Cache)
    ensures Meaning(cache, Leaves) == [Drops] && CacheAfter(cache, Leaves) == cache
  {
  }

  /** A client that encodes its packets, through one cache from empty, means exactly those packets. */
  lemma {:induction false} EncodedIsMeant(xs: seq<Bytes>)
    ensures var e := EncodeAll(false, [], xs);
            Meant(e.messages) == DecodedStream(xs, e.cache)
    decreases |xs|
  {
    hide Scan, Pushed;
    if xs != [] {
      var before, x := xs[..|xs| - 1], xs[|xs| - 1];
      EncodedIsMeant(before);
      DecodeUndoesEncode(PushAlways, EncodeAll(false, [], before).cache, x);
      MeantOne(EncodeAll(false, [], before).messages,
          EncodeUnless(false, EncodeAll(false, [], before).cache, x).message);
    }
  }

  /** Its first n messages mean its first n packets. */
  lemma EncodedPrefixIsMeant(xs: seq<Bytes>, n: nat)
    requires n <= |xs|
    ensures |EncodeAll(false, [], xs).messages| == |xs|
    ensures Meant(EncodeAll(false, [], xs).messages[..n]).blocks == xs[..n]
  {
    hide EncodeAll, Meant;
    EncodeAllPrefix(false, [], xs, n);
    EncodedIsMeant(xs[..n]);
  }
}
