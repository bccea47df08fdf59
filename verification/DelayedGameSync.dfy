/** `DelayedGameSync` as an object, in front of a `CachedGameSync`. */
module DelayedSync {
  import opened Common
  import opened InputCaches
  import opened Codec
  import opened Lockstep
  import opened CachedGame
  import opened CacheNotices
  import opened CachedSync
  import opened Startup
  import opened DelayedGame

  class DelayedGameSync {
    const inner: CachedGameSync
    const inputCaches: seq<InputCache>
    const totalDelays: seq<nat>
    const playerCount: nat
    var queues: seq<seq<Bytes>>
    var warmupSent: seq<nat>
    var frameSize: nat

    ghost const Repr: set<object> := {this} + inner.Repr + (set c | c in inputCaches)

    ghost predicate Valid()
      reads this, Repr
    {
      && inner.Valid()
      && |inner.inputCaches| == |inputCaches| == |queues| == |warmupSent| == |totalDelays| == playerCount
      && AllDifferent(inputCaches) && AllValid(inputCaches)
      && this !in inner.Repr
      && (forall i | 0 <= i < |inputCaches| :: inputCaches[i] !in inner.Repr)
    }

    /** The value this object holds. */
    ghost function State(): Delayed
      requires Valid()
      reads this, Repr
    {
      Delayed(inner.State(), Contents(inputCaches), queues, warmupSent, totalDelays, frameSize)
    }

    constructor (inner: CachedGameSync, totalDelays: seq<nat>)
      requires inner.Valid() && |totalDelays| == |inner.inputCaches|
      ensures Valid() && fresh(Repr - inner.Repr)
      ensures this.inner == inner
      ensures State().inner == old(inner.State()) && State().warmups == totalDelays && State().frameSize == 0
      ensures forall p | 0 <= p < |totalDelays| :: inputCaches[p].slots == [] && queues[p] == [] && warmupSent[p] == 0
    {
      var caches := NewCaches(|totalDelays|);
      this.inner := inner;
      this.inputCaches := caches;
      this.totalDelays := totalDelays;
      this.playerCount := |totalDelays|;
      this.queues := seq(|totalDelays|, _ => []);
      this.warmupSent := seq(|totalDelays|, _ => 0);
      this.frameSize := 0;
    }

    /** L0: resolve to raw bytes, mirroring the client's input cache. */
    method ResolveInput(player: nat, input: Message) returns (data: Option<Bytes>)
      requires Valid() && player < playerCount
      modifies inputCaches
      ensures Valid()
      ensures match Decode(PushAlways, old(State()).inputCaches[player], input)
              case None => data == None && State() == old(State())
              case Some(d) =>
                && data == Some(d.bytes)
                && State() == old(State()).(inputCaches := old(State()).inputCaches[player := d.cache])
    {
      hide Index, Pushed, CachedGameSync.Valid, CachedGameSync.State, InputCache.Valid;
      match input {
        case GameData(bytes) =>
          var _ := inputCaches[player].Push(bytes);
          data := Some(bytes);
        case GameCache(pos) =>
          data := inputCaches[player].Get(pos);
      }
    }

    method ProcessClientInput(player: nat, input: Message) returns (r: Result<Answer, GameSyncError>)
      requires Valid()
      modifies Repr
      ensures Valid()
      ensures State() == DelayedInput(old(State()), player, input).state
      ensures r == Noticed(DelayedInput(old(State()), player, input).result, DelayedNotice(old(State()), player, input))
    {
      hide AcceptPacket, AcceptNotice, Contents, AllValid, Pushed;
      if player >= playerCount {
        return Err(InvalidPlayerId(player, playerCount));
      }
      var data := ResolveInput(player, input);
      if data.None? {
        return Err(CachePositionNotFound(player, input.position));
      }
      r := AcceptBytes(player, data.value);
    }

    /** Warm-up, catch-up or pass-through. */
    method AcceptBytes(player: nat, bytes: Bytes) returns (r: Result<Answer, GameSyncError>)
      requires Valid() && player < playerCount
      modifies Repr
      ensures Valid()
      ensures var s := AcceptPacket(old(State()), player, bytes);
              State() == s.state && r == Noticed(s.result, AcceptNotice(old(State()), player, bytes))
    {
      hide LearnSize, Save, Flush, AnswerWithZeros, Forward, CachedNotice, Contents, AllValid;
      hide CachedGameSync.Valid, CachedGameSync.State;
      LearnFrameSize(bytes);
      var totalDelay := totalDelays[player];
      if warmupSent[player] < totalDelay {
        SaveInput(player, bytes);
        r := SendZeros(player);
      } else if queues[player] != [] {
        var due := FlushInput(player);
        r := SendToInner(player, due);
      } else {
        r := SendToInner(player, bytes);
      }
    }

    method LearnFrameSize(bytes: Bytes)
      requires Valid()
      modifies `frameSize
      ensures Valid()
      ensures State() == LearnSize(old(State()), bytes)
    {
      if frameSize == 0 && bytes != [] {
        frameSize := |bytes|;
      }
    }

    method SaveInput(player: nat, bytes: Bytes)
      requires Valid() && player < playerCount
      modifies `queues, `warmupSent
      ensures Valid()
      ensures State() == Save(old(State()), player, bytes)
    {
      hide AllValid, Contents;
      queues := queues[player := queues[player] + [bytes]];
      warmupSent := warmupSent[player := warmupSent[player] + 1];
    }

    method FlushInput(player: nat) returns (due: Bytes)
      requires Valid() && player < playerCount && queues[player] != []
      modifies `queues
      ensures Valid()
      ensures State() == Flush(old(State()), player)
      ensures due == old(queues)[player][0]
    {
      due := queues[player][0];
      queues := queues[player := queues[player][1..]];
    }

    method SendZeros(player: nat) returns (r: Result<Answer, GameSyncError>)
      requires Valid() && player < playerCount
      modifies Repr
      ensures Valid()
      ensures var s := AnswerWithZeros(old(State()), player); State() == s.state && r == Noticed(s.result, QUIET)
    {
      hide Contents, AllValid, InputCache.Valid;
      var zero := ZeroBlock(playerCount, frameSize);
      var response, _, _ := inner.MakeCachedOutput(player, zero);
      r := Ok(Answer([PlayerResponse(player, response)], QUIET));
    }

    method SendToInner(player: nat, bytes: Bytes) returns (r: Result<Answer, GameSyncError>)
      requires Valid() && player < playerCount
      modifies Repr
      ensures Valid()
      ensures var s := Forward(old(State()), player, bytes);
              && State() == s.state
              && r == Noticed(s.result, CachedNotice(old(State()).inner, player, GameData(bytes)))
    {
      r := inner.ProcessClientInput(player, GameData(bytes));
    }

    method MarkPlayerDropped(player: nat) returns (r: Result<seq<PlayerResponse>, GameSyncError>)
      requires Valid()
      modifies Repr
      ensures Valid()
      ensures State() == DelayedDrop(old(State()), player).state
      ensures r == DelayedDrop(old(State()), player).result
    {
      hide Contents, AllValid, CachedGameSync.Valid, CachedGameSync.State;
      if player < playerCount {
        queues := queues[player := []];
      }
      r := inner.MarkPlayerDropped(player);
    }

    method AllPlayersDropped() returns (all: bool)
      requires Valid()
      ensures all <==> forall p: nat | p < playerCount :: !State().inner.game.IsLive(p)
    {
      all := inner.sync.AllPlayersDropped();
      ghost var game := State().inner.game;
      assert forall p: nat | p < playerCount :: game.IsLive(p) <==> !inner.sync.droppedPlayers[p];
    }
  }
}
