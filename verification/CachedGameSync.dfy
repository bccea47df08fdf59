/** `CachedGameSync` as an object: a combiner and two caches per player, all updated in place. */
module CachedSync {
  import opened Common
  import opened InputCaches
  import opened Codec
  import opened Lockstep
  import opened LockstepRuns
  import opened Combiner
  import opened CachedGame
  import opened CacheNotices

  ghost predicate AllDifferent(caches: seq<InputCache>) {
    forall i, j | 0 <= i < j < |caches| :: caches[i] != caches[j]
  }

  ghost predicate AllValid(caches: seq<InputCache>)
    reads caches
  {
    forall i | 0 <= i < |caches| :: caches[i].Valid()
  }

  ghost function Contents(caches: seq<InputCache>): (s: seq<Cache>)
    requires AllValid(caches)
    reads caches
    ensures |s| == |caches| && forall i | 0 <= i < |s| :: s[i] == caches[i].slots
  {
    seq(|caches|, i requires 0 <= i < |caches| && caches[i].Valid() reads caches => caches[i].slots)
  }

  lemma ValidAt(caches: seq<InputCache>, p: nat)
    requires AllValid(caches) && p < |caches|
    ensures caches[p].Valid() && Contents(caches)[p] == caches[p].slots
  {
  }

  /** `(0..player_count).map(|_| InputCache::new())` */
  method NewCaches(count: nat) returns (caches: seq<InputCache>)
    ensures |caches| == count && AllDifferent(caches) && AllValid(caches)
    ensures fresh(caches)
    ensures forall i | 0 <= i < count :: caches[i].slots == []
  {
    caches := [];
    for i := 0 to count
      invariant |caches| == i && AllDifferent(caches) && AllValid(caches)
      invariant fresh(caches)
      invariant forall j | 0 <= j < i :: caches[j].slots == []
    {
      var cache := new InputCache();
      caches := caches + [cache];
    }
  }

  method NewCachePair(count: nat) returns (ins: seq<InputCache>, outs: seq<InputCache>)
    ensures |ins| == |outs| == count
    ensures AllDifferent(ins + outs) && AllValid(ins) && AllValid(outs)
    ensures fresh(ins) && fresh(outs)
    ensures forall i | 0 <= i < count :: ins[i].slots == [] && outs[i].slots == []
  {
    ins := NewCaches(count);
    outs := NewCaches(count);
    forall i, j | 0 <= i < count && 0 <= j < count
      ensures ins[i] != outs[j]
    {
    }
  }

  class CachedGameSync {
    const sync: SimplestGameSync
    const inputCaches: seq<InputCache>
    const outputCaches: seq<InputCache>
    const disableOutputCache: bool

    ghost const Repr: set<object> := {this, sync} + (set c | c in inputCaches) + (set c | c in outputCaches)

    ghost predicate Valid()
      reads Repr
    {
      && sync.Valid()
      && |inputCaches| == |outputCaches| == |sync.game.delays|
      && AllDifferent(inputCaches + outputCaches)
      && AllValid(inputCaches) && AllValid(outputCaches)
    }

    /** The value this object holds. */
    ghost function State(): Cached
      requires Valid()
      reads Repr
    {
      Cached(sync.game, Contents(inputCaches), Contents(outputCaches), disableOutputCache)
    }

    constructor (delays: seq<nat>, disableOutputCache: bool)
      requires DelaysPositive(delays)
      ensures Valid() && fresh(Repr)
      ensures sync.game == New(delays)
      ensures forall p | 0 <= p < |delays| :: inputCaches[p].slots == [] && outputCaches[p].slots == []
      ensures this.disableOutputCache == disableOutputCache
    {
      hide Index, InputCache.Valid, SimplestGameSync.Valid;
      var sync := new SimplestGameSync(delays);
      var ins, outs := NewCachePair(|delays|);
      this.sync := sync;
      this.inputCaches := ins;
      this.outputCaches := outs;
      this.disableOutputCache := disableOutputCache;
    }

    lemma CachesDiffer()
      requires Valid()
      ensures AllDifferent(inputCaches) && AllDifferent(outputCaches)
      ensures forall i, j | 0 <= i < |inputCaches| && 0 <= j < |outputCaches| :: inputCaches[i] != outputCaches[j]
    {
      var all := inputCaches + outputCaches;
      assert forall i | 0 <= i < |inputCaches| :: inputCaches[i] == all[i];
      assert forall j | 0 <= j < |outputCaches| :: outputCaches[j] == all[|inputCaches| + j];
    }

    /** Touching one player's caches changes their contents and no others'. */
    twostate lemma OneCacheChanged(p: nat)
      requires old(Valid()) && p < |inputCaches| && AllValid(inputCaches) && AllValid(outputCaches)
      requires forall i | 0 <= i < |inputCaches| && i != p ::
                 inputCaches[i].slots == old(inputCaches[i].slots) && outputCaches[i].slots
                     == old(outputCaches[i].slots)
      ensures Contents(inputCaches) == old(Contents(inputCaches))[p := inputCaches[p].slots]
      ensures Contents(outputCaches) == old(Contents(outputCaches))[p := outputCaches[p].slots]
    {
      hide InputCache.Valid;
    }

    method MakeCachedOutput(player: nat, output: Bytes)
        returns (response: Message, overflowed: bool, milestone: Option<nat>)
      requires Valid() && player < |outputCaches|
      modifies outputCaches
      ensures Valid()
      ensures var e := EncodeUnless(disableOutputCache, old(State()).outputCaches[player], output);
              && response == e.message
              && State() == old(State()).(outputCaches := old(State()).outputCaches[player := e.cache])
              && Notice(overflowed, milestone)
                 == NoticeOf(disableOutputCache, old(State()).outputCaches[player], output)
    {
      hide Index, Pushed, Scan, InputCache.Valid, SimplestGameSync.Valid, Contents, AllDifferent;
      CachesDiffer();
      ValidAt(outputCaches, player);
      overflowed, milestone := false, None;
      if disableOutputCache {
        response := GameData(output);
      } else {
        var found := outputCaches[player].Find(output);
        if found.Some? {
          response := GameCache(found.value);
        } else {
          var before := |outputCaches[player].slots|;
          overflowed := outputCaches[player].Push(output);
          var after := |outputCaches[player].slots|;
          milestone := if before / MILESTONE != after / MILESTONE then Some(after) else None;
          response := GameData(output);
          OneCacheChanged(player);
        }
      }
    }

    /** The loop that turns raw outputs into responses. */
    method EncodeAllOutputs(raw: seq<Output>)
        returns (results: seq<PlayerResponse>, cacheOverflowed: bool, milestone: Option<nat>)
      requires Valid() && Addressed(raw, |outputCaches|)
      modifies outputCaches
      ensures Valid()
      ensures var e := EncodeOutputs(disableOutputCache, old(State()).outputCaches, raw);
              results == e.responses && State() == old(State()).(outputCaches := e.caches)
      ensures Notice(cacheOverflowed, milestone) == NoticesOf(disableOutputCache, old(State()).outputCaches, raw)
    {
      hide EncodeUnless, EncodeOutputs, Contents, NoticeOf, NoticesOf, InputCache.Valid, SimplestGameSync.Valid;
      hide AllValid, AllDifferent;
      results, cacheOverflowed, milestone := [], false, None;
      EncodeNothing(disableOutputCache, State().outputCaches);
      NoticesNone(disableOutputCache, State().outputCaches);
      assert raw[..0] == [];
      for i := 0 to |raw|
        invariant Valid()
        invariant var e := EncodeOutputs(disableOutputCache, old(State()).outputCaches, raw[..i]);
                  results == e.responses && State() == old(State()).(outputCaches := e.caches)
        invariant Notice(cacheOverflowed, milestone)
               == NoticesOf(disableOutputCache, old(State()).outputCaches, raw[..i])
      {
        EncodeOutputsOne(disableOutputCache, old(State()).outputCaches, raw[..i], raw[i]);
        NoticesOne(disableOutputCache, old(State()).outputCaches, raw[..i], raw[i]);
        assert raw[..i + 1] == raw[..i] + [raw[i]];
        var response, overflowed, crossed := MakeCachedOutput(raw[i].player, raw[i].bytes);
        if overflowed {
          cacheOverflowed := true;
        }
        if crossed.Some? {
          milestone := crossed;
        }
        results := results + [PlayerResponse(raw[i].player, response)];
      }
      assert raw[..|raw|] == raw;
    }

    /** Look a GameCache position up, or remember GameData; None is a position not in the cache. */
    method ResolveInput(player: nat, input: Message) returns (data: Option<Bytes>)
      requires Valid() && player < |inputCaches|
      modifies inputCaches
      ensures Valid()
      ensures match Decode(PushAlways, old(State()).inputCaches[player], input)
              case None => data == None && State() == old(State())
              case Some(d) =>
                && data == Some(d.bytes)
                && State() == old(State()).(inputCaches := old(State()).inputCaches[player := d.cache])
    {
      hide Index, Pushed, InputCache.Valid, SimplestGameSync.Valid, Contents, AllDifferent;
      CachesDiffer();
      ValidAt(inputCaches, player);
      match input {
        case GameData(bytes) =>
          var _ := inputCaches[player].Push(bytes);
          data := Some(bytes);
          OneCacheChanged(player);
        case GameCache(pos) =>
          data := inputCaches[player].Get(pos);
      }
    }

    method ProcessClientInput(player: nat, input: Message) returns (r: Result<Answer, GameSyncError>)
      requires Valid()
      modifies Repr
      ensures Valid()
      ensures State() == CachedInput(old(State()), player, input).state
      ensures r == Noticed(CachedInput(old(State()), player, input).result, CachedNotice(old(State()), player, input))
    {
      var playerCount := |sync.playerDelays|;
      if player >= playerCount {
        return Err(InvalidPlayerId(player, playerCount));
      }
      var data := ResolveInput(player, input);
      if data.None? {
        return Err(CachePositionNotFound(player, input.position));
      }
      r := Combine(player, data.value);
    }

    /** Run the combiner on resolved bytes and encode what it returns. */
    method Combine(player: nat, data: Bytes) returns (r: Result<Answer, GameSyncError>)
      requires Valid() && player < |sync.playerDelays|
      modifies Repr
      ensures Valid()
      ensures AfterInput(old(State()).game, player, data).Valid()
      ensures var g' := AfterInput(old(State()).game, player, data);
              var s := MoveOn(old(State()), g');
              State() == s.state && r == Noticed(s.result, SentNotice(old(State()), g'))
    {
      ghost var before := State();
      EventsExtend(before.game, Input(player, data));
      var raw := sync.ProcessClientInput(player, data);
      assert State().(game := before.game) == before;
      var results, overflowed, milestone := EncodeSent(before.game, raw.value);
      r := Ok(Answer(results, Notice(overflowed, milestone)));
    }

    /** Encode what the combiner returned when its game moved on from g. */
    method EncodeSent(ghost g: Game, raw: seq<Output>)
        returns (results: seq<PlayerResponse>, cacheOverflowed: bool, milestone: Option<nat>)
      requires Valid() && g.Valid() && g.delays == sync.game.delays && raw == Sent(g, sync.game)
      modifies outputCaches
      ensures Valid()
      ensures var s := MoveOn(old(State()).(game := g), sync.game);
              State() == s.state && s.result == Ok(results)
      ensures Notice(cacheOverflowed, milestone) == SentNotice(old(State()).(game := g), sync.game)
    {
      EmittedIsAddressed(sync.game, g.Rows(), sync.game.Rows());
      results, cacheOverflowed, milestone := EncodeAllOutputs(raw);
    }

    method MarkPlayerDropped(player: nat) returns (r: Result<seq<PlayerResponse>, GameSyncError>)
      requires Valid()
      modifies Repr
      ensures Valid()
      ensures State() == CachedDrop(old(State()), player).state
      ensures r == CachedDrop(old(State()), player).result
    {
      if player >= |sync.playerDelays| {
        return Err(InvalidPlayerId(player, |sync.playerDelays|));
      }
      r := DropAndEncode(player);
    }

    method DropAndEncode(player: nat) returns (r: Result<seq<PlayerResponse>, GameSyncError>)
      requires Valid() && player < |sync.playerDelays|
      modifies Repr
      ensures Valid()
      ensures AfterDrop(old(State()).game, player).Valid()
      ensures var s := MoveOn(old(State()), AfterDrop(old(State()).game, player));
              State() == s.state && r == s.result
    {
      ghost var before := State();
      EventsExtend(before.game, Drop(player));
      var raw := sync.MarkPlayerDropped(player);
      assert State().(game := before.game) == before;
      var results, _, _ := EncodeSent(before.game, raw.value);
      r := Ok(results);
    }
  }
}
