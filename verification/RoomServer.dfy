/** The rooms and the server state as objects, updated in place by the handlers. */
module RoomServer {
  import opened Common
  import opened Codec
  import opened CachedGame
  import opened CachedSync
  import opened DelayedGame
  import opened DelayedSync
  import opened Rooms
  import opened LobbyRuns

  // ---- the engine object ----

  method NewCombiner(delays: seq<ConnType>, disableOutputCache: bool) returns (sync: CachedGameSync)
    ensures sync.Valid() && fresh(sync.Repr)
    ensures sync.State() == NewCached(delays, disableOutputCache)
  {
    sync := new CachedGameSync(delays, disableOutputCache);
    assert Contents(sync.inputCaches) == EmptyCaches(|delays|) && Contents(sync.outputCaches) == EmptyCaches(|delays|);
  }

  /** The engine as the source builds it: a startup layer in front of a cached combiner. */
  method NewEngine(delays: seq<ConnType>, warmups: seq<nat>, disableOutputCache: bool)
      returns (engine: DelayedGameSync)
    requires |warmups| == |delays|
    ensures engine.Valid() && fresh(engine.Repr)
    ensures engine.State() == StartEngine(delays, warmups, disableOutputCache)
  {
    hide CachedGameSync.Valid, CachedGameSync.State;
    var inner := NewCombiner(delays, disableOutputCache);
    CombinerSlots(inner);
    engine := new DelayedGameSync(inner, warmups);
    var n := |delays|;
    assert Contents(engine.inputCaches) == EmptyCaches(n);
    assert engine.queues == seq(n, _ => []) && engine.warmupSent == seq(n, _ => 0);
  }

  lemma CombinerSlots(sync: CachedGameSync)
    requires sync.Valid()
    ensures |sync.inputCaches| == |sync.State().inputCaches|
  {
  }

  /** Dropping fails exactly for a slot that the engine does not have, and then changes nothing. */
  lemma DropFails(e: Engine, slot: nat)
    ensures var s := DelayedDrop(e, slot);
            if slot < |Dropped(e)| then s.result.Ok? && s.state == DropSlot(e, slot) else s.result.Err? && s.state == e
  {
    hide MoveOn;
    if slot < |Dropped(e)| {
      DropEncodes(e, slot);
    }
  }

  /** A message from a slot that the engine does not have fails and changes nothing. */
  lemma FeedFails(e: Engine, slot: nat, m: Message)
    ensures var s := DelayedInput(e, slot, m);
            if slot < |Dropped(e)| then s.state == FeedSlot(e, slot, m) else s.result.Err? && s.state == e
  {
    hide AcceptPacket, Decode;
  }

  lemma NobodyLive(engine: DelayedGameSync)
    requires engine.Valid()
    ensures AllDropped(engine.State())
            <==> forall p: nat | p < engine.playerCount :: !engine.State().inner.game.IsLive(p)
  {
    var e := engine.State();
    assert forall p: nat | p < engine.playerCount :: e.inner.game.IsLive(p) <==> !Dropped(e)[p];
  }

  lemma NothingToSend(clients: map<Address, Client>, g: GameId, listed: seq<Player>)
    ensures SendLoop(clients, Targeted(g, listed, [])) == []
  {
  }

  class GameInfo {
    var ownerUserId: UserId
    var numPlayers: nat
    var maxPlayers: nat
    var gameStatus: Status
    var syncManager: DelayedGameSync?
    var players: seq<Player>
    ghost var Repr: set<object>

    ghost predicate Valid()
      reads this, Repr
    {
      && this in Repr
      && (syncManager != null ==>
            syncManager in Repr && syncManager.Repr <= Repr && this !in syncManager.Repr && syncManager.Valid())
    }

    /** The engine this room owns, as a value. */
    ghost function EngineValue(): Option<Engine>
      requires Valid()
      reads this, Repr
    {
      if syncManager == null then None else Some(syncManager.State())
    }

    ghost function Value(): Room
      requires Valid()
      reads this, Repr
    {
      Room(ownerUserId, numPlayers, maxPlayers, gameStatus, EngineValue(), players)
    }

    lemma ValueFields()
      requires Valid()
      ensures Value().engine == EngineValue() && (EngineValue().Some? <==> syncManager != null)
      ensures Value().players == players && Value().status == gameStatus && Value().ownerUserId == ownerUserId
      ensures Value().numPlayers == numPlayers && Value().maxPlayers == maxPlayers
    {
    }

    constructor (addr: Address, client: Client)
      ensures Valid() && fresh(Repr) && this in Repr
      ensures Value() == NewRoom(addr, client)
    {
      ownerUserId := client.userId;
      numPlayers, maxPlayers := 1, 4;
      gameStatus, syncManager := Waiting, null;
      players := [Player(addr, client.userId, client.connType, false)];
      Repr := {this};
    }

    method MigrateOwnerIfNeeded()
      requires Valid()
      modifies this`ownerUserId
      ensures Valid() && Value() == MigrateOwner(old(Value()))
    {
      hide DelayedGameSync.Valid, DelayedGameSync.State, InRoom;
      if !(exists i | 0 <= i < |players| :: !players[i].leftRoom && players[i].userId == ownerUserId) {
        var present := InRoom(players);
        if present != [] {
          ownerUserId := present[0].userId;
        }
      }
    }

    /** The part of quit and kick done under the room's lock. */
    method Leave(addr: Address) returns (wasPlaying: bool)
      requires Valid()
      modifies this`ownerUserId, this`numPlayers, this`players
      ensures Valid() && Value() == LeaveRoom(old(Value()), addr)
      ensures wasPlaying == (syncManager != null)
    {
      hide DelayedGameSync.Valid, DelayedGameSync.State, InRoom, MigrateOwner;
      var idx := Position(players, addr);
      wasPlaying := syncManager != null;
      if wasPlaying {
        if idx.Some? {
          players := players[idx.value := players[idx.value].(leftRoom := true)];
        }
        numPlayers := AsU8(|InRoom(players)|);
      } else {
        if idx.Some? {
          players := players[..idx.value] + players[idx.value + 1..];
        }
        numPlayers := AsU8(|players|);
      }
      MigrateOwnerIfNeeded();
    }

    /** Look up the address of each response's slot; one that is not listed fails the whole call. */
    static method FindTargets(gameId: GameId, listed: seq<Player>, responses: seq<PlayerResponse>)
        returns (targets: seq<Delivery>)
      ensures targets == Targeted(gameId, listed, responses)
    {
      targets := [];
      for i := 0 to |responses|
        invariant |targets| == i
        invariant forall k | 0 <= k < i :: responses[k].player < |listed|
                                           && targets[k] == Delivery(gameId, listed[responses[k].player].addr,
                                               responses[k].response)
      {
        if responses[i].player >= |listed| {
          return [];
        }
        targets := targets + [Delivery(gameId, listed[responses[i].player].addr, responses[i].response)];
      }
    }

    /** Send one response after the other, up to the first whose address is no longer a client's. */
    static method SendAll(clients: map<Address, Client>, targets: seq<Delivery>) returns (sent: seq<Delivery>)
      ensures sent == SendLoop(clients, targets)
    {
      sent := [];
      for i := 0 to |targets|
        invariant sent + SendLoop(clients, targets[i..]) == SendLoop(clients, targets)
      {
        if targets[i].addr !in clients {
          return;
        }
        sent := sent + [targets[i]];
      }
    }

    /** Look at every listed player, as resetting their statuses does, and say whether all are clients. */
    static method ResetStatuses(clients: map<Address, Client>, listed: seq<Player>) returns (ok: bool)
      ensures ok == AllHere(clients, listed)
    {
      for i := 0 to |listed|
        invariant forall k | 0 <= k < i :: listed[k].addr in clients
      {
        if listed[i].addr !in clients {
          return false;
        }
      }
      return true;
    }

    /**
     Drop a slot; when it was the last one, end the game and compact the list. Then send what the
     drop released, unless the room is to be closed or a listed player is no longer a client.
     */
    method ExecuteDrop(clients: map<Address, Client>, gameId: GameId, addr: Address)
        returns (empty: bool, sent: seq<Delivery>)
      requires Valid()
      modifies Repr
      ensures Valid() && fresh(Repr - old(Repr))
      ensures DropFromRoom(old(Value()), addr) == if empty then Closed else Open(Value())
      ensures sent == DropDeliveries(clients, gameId, old(Value()), addr)
    {
      hide DelayedGameSync.Valid, DelayedGameSync.State, EndGame, SendLoop, AllHere, Targeted, DropSlot;
      hide DropResponses, AllDropped, Position;
      empty, sent := false, [];
      ghost var r := Value();
      if gameStatus != Playing { return; }
      var slot := Position(players, addr);
      if slot.None? || syncManager == null { return; }
      var before := players;
      var dropped, outputs, allDropped := MarkDropped(slot.value);
      if !dropped { return; }
      if allDropped {
        CompactAtEnd();
        empty := players == [];
      }
      if empty { return; }
      sent := SendReleased(clients, gameId, before, outputs);
    }

    /** What a drop released is sent, unless a listed player is no longer a client. */
    static method SendReleased(clients: map<Address, Client>, gameId: GameId, listed: seq<Player>,
                               outputs: seq<PlayerResponse>) returns (sent: seq<Delivery>)
      ensures sent == if AllHere(clients, listed) then SendLoop(clients, Targeted(gameId, listed, outputs)) else []
    {
      hide SendLoop, AllHere, Targeted;
      sent := [];
      var ok := ResetStatuses(clients, listed);
      if ok {
        var targets := FindTargets(gameId, listed, outputs);
        sent := SendAll(clients, targets);
      }
    }

    /** Drop a slot of the engine; an invalid slot is an error and changes nothing. */
    method MarkDropped(slot: nat) returns (ok: bool, outputs: seq<PlayerResponse>, allDropped: bool)
      requires Valid() && syncManager != null
      modifies syncManager.Repr
      ensures Valid() && syncManager == old(syncManager)
      ensures var e := old(EngineValue()).value;
              if slot >= |Dropped(e)| then !ok && Value() == old(Value())
              else
                && ok && outputs == DropResponses(e, slot)
                && Value() == old(Value()).(engine := Some(DropSlot(e, slot)))
                && (allDropped <==> AllDropped(DropSlot(e, slot)))
    {
      hide DelayedGameSync.Valid, DelayedGameSync.State, DelayedDrop, DropSlot;
      ok, outputs, allDropped := false, [], false;
      DropFails(EngineValue().value, slot);
      var r := syncManager.MarkPlayerDropped(slot);
      if r.Ok? {
        ok, outputs := true, r.value;
        allDropped := syncManager.AllPlayersDropped();
        NobodyLive(syncManager);
      }
    }

    /** The game is over: the list may be compacted. */
    method CompactAtEnd()
      requires Valid()
      modifies this
      ensures Valid() && Repr == old(Repr) && Value() == EndGame(old(Value()))
    {
      hide DelayedGameSync.Valid, DelayedGameSync.State, InRoom;
      gameStatus := Waiting;
      syncManager := null;
      players := InRoom(players);
      numPlayers := AsU8(|players|);
      MigrateOwnerIfNeeded();
    }

    /** What a quit does to the room. */
    method Quit(clients: map<Address, Client>, gameId: GameId, addr: Address)
        returns (close: bool, sent: seq<Delivery>)
      requires Valid()
      modifies Repr
      ensures Valid() && fresh(Repr - old(Repr))
      ensures QuitRoom(old(Value()), addr) == if close then Closed else Open(Value())
      ensures sent == if old(Value()).engine.Some?
                      then DropDeliveries(clients, gameId, LeaveRoom(old(Value()), addr), addr) else []
    {
      hide DelayedGameSync.Valid, DelayedGameSync.State, LeaveRoom, DropFromRoom, DropDeliveries;
      var wasPlaying := Leave(addr);
      if wasPlaying {
        close, sent := ExecuteDrop(clients, gameId, addr);
      } else {
        close, sent := players == [], [];
      }
    }

    /** What a kick does to the room: a waiting room it empties stays open. */
    method KickOut(clients: map<Address, Client>, gameId: GameId, addr: Address)
        returns (close: bool, sent: seq<Delivery>)
      requires Valid()
      modifies Repr
      ensures Valid() && fresh(Repr - old(Repr))
      ensures KickFromRoom(old(Value()), addr) == if close then Closed else Open(Value())
      ensures sent == if old(Value()).engine.Some?
                      then DropDeliveries(clients, gameId, LeaveRoom(old(Value()), addr), addr) else []
    {
      hide DelayedGameSync.Valid, DelayedGameSync.State, LeaveRoom, DropFromRoom, DropDeliveries;
      var wasPlaying := Leave(addr);
      close, sent := false, [];
      if wasPlaying {
        close, sent := ExecuteDrop(clients, gameId, addr);
      }
    }

    method Join(addr: Address, client: Client)
      requires Valid()
      modifies this`numPlayers, this`players
      ensures Valid() && Value() == JoinRoom(old(Value()), addr, client)
    {
      hide DelayedGameSync.Valid, DelayedGameSync.State;
      if Position(players, addr).None? {
        numPlayers := AsU8(numPlayers + 1);
        players := players + [Player(addr, client.userId, client.connType, false)];
      }
    }

    method Start(warmupOf: nat -> nat, disableOutputCache: bool)
      requires Valid()
      modifies Repr
      ensures Valid() && fresh(Repr - old(Repr))
      ensures Value() == StartRoom(old(Value()), warmupOf, disableOutputCache)
    {
      hide DelayedGameSync.Valid, DelayedGameSync.State, InRoom, StartEngine, DelaysOf, WarmupsOf;
      players := InRoom(players);
      numPlayers := AsU8(|players|);
      gameStatus := Playing;
      var engine := NewEngine(DelaysOf(players), WarmupsOf(players, warmupOf), disableOutputCache);
      syncManager := engine;
      Repr := Repr + engine.Repr;
    }

    method Receive(clients: map<Address, Client>, gameId: GameId, slot: nat, m: Message)
        returns (sent: seq<Delivery>)
      requires Valid() && syncManager != null
      modifies Repr
      ensures Valid() && syncManager == old(syncManager) && Repr == old(Repr)
      ensures var e := old(EngineValue()).value;
              if slot >= |Dropped(e)| then Value() == old(Value()) && sent == []
              else
                && Value() == old(Value()).(engine := Some(FeedSlot(e, slot, m)))
                && sent == SendLoop(clients, Targeted(gameId, old(players), FeedResponses(e, slot, m)))
    {
      hide DelayedGameSync.Valid, DelayedGameSync.State, DelayedInput, FeedSlot, SendLoop, Targeted;
      sent := [];
      FeedFails(EngineValue().value, slot, m);
      NothingToSend(clients, gameId, players);
      var r := syncManager.ProcessClientInput(slot, m);
      if r.Ok? {
        var targets := FindTargets(gameId, players, r.value.outputs);
        sent := SendAll(clients, targets);
      }
    }
  }

  lemma ClosedAfterwards(l: Lobby, g: GameId, r: Room)
    ensures SetRoom(SetRoom(l, g, Open(r)), g, Closed) == SetRoom(l, g, Closed)
  {
  }

  lemma SameRoom(l: Lobby, g: GameId)
    requires g in l.games
    ensures SetRoom(l, g, Open(l.games[g])) == l
  {
    assert l.games[g := l.games[g]] == l.games;
  }

  class AppState {
    var clients: map<Address, Client>
    var games: map<GameId, GameInfo>
    var nextGameId: GameId
    var nextUserId: UserId
    var orphans: set<Username>
    ghost var Repr: set<object>

    /** Every room is valid, and no two share an object. */
    ghost predicate Valid()
      reads this, Repr
    {
      && this in Repr
      && (forall g <- games :: games[g] in Repr && games[g].Repr <= Repr && this !in games[g].Repr && games[g].Valid())
      && (forall g, h | g in games && h in games && g != h :: games[g].Repr !! games[h].Repr)
    }

    ghost function Rooms(): map<GameId, Room>
      requires Valid()
      reads this, Repr
    {
      map g | g in games :: games[g].Value()
    }

    /** The value this object holds. */
    ghost function State(): Lobby
      requires Valid()
      reads this, Repr
    {
      Lobby(clients, Rooms(), nextGameId, nextUserId, orphans)
    }

    /** Only game g's objects have changed, among them perhaps new ones. */
    twostate predicate Touched(g: GameId)
      requires old(Valid())
      reads this, Repr
    {
      && clients == old(clients) && nextGameId == old(nextGameId)
      && nextUserId == old(nextUserId) && orphans == old(orphans)
      && g in games && games == old(games) && games[g] in Repr
      && Repr == old(Repr) + games[g].Repr
      && (forall h <- games :: h != g ==> unchanged(old(games[h].Repr)))
      && games[g].Repr <= Repr && this !in games[g].Repr && games[g].Valid()
      && fresh(games[g].Repr - old(games[g].Repr))
    }

    /** Then the room at g is the only one that has changed. */
    twostate lemma OneRoomChanged(g: GameId)
      requires old(Valid()) && Touched(g)
      ensures Valid() && State() == SetRoom(old(State()), g, Open(games[g].Value()))
    {
      hide GameInfo.Valid, GameInfo.Value;
      forall h | h in games && h != g
        ensures games[h].Valid() && games[h].Value() == old(games[h].Value()) && games[h].Repr == old(games[h].Repr)
      {
        RoomUntouched(games[h]);
      }
    }

    /** As long as no room's objects change, the rooms are the same. */
    twostate lemma NoRoomChanged()
      requires old(Valid()) && games == old(games) && Repr == old(Repr)
      requires forall g <- games :: unchanged(old(games[g].Repr))
      ensures Valid() && Rooms() == old(Rooms())
    {
      hide GameInfo.Valid, GameInfo.Value;
      forall g | g in games
        ensures games[g].Valid() && games[g].Value() == old(games[g].Value()) && games[g].Repr == old(games[g].Repr)
      {
        RoomUntouched(games[g]);
      }
    }

    /** An untouched room is as it was. */
    twostate lemma RoomUntouched(game: GameInfo)
      requires old(game.Valid()) && unchanged(old(game.Repr))
      ensures game.Valid() && game.Value() == old(game.Value()) && game.Repr == old(game.Repr)
    {
    }

    twostate lemma AddedIsValid(g: GameId, new info: GameInfo)
      requires old(Valid()) && games == old(games)[g := info]
      requires forall h <- old(games) :: unchanged(old(games[h].Repr))
      requires info.Valid() && fresh(info.Repr) && info in info.Repr && Repr == old(Repr) + info.Repr
      ensures Valid() && forall h <- old(games) :: h != g ==> games[h].Value() == old(games[h].Value())
    {
      hide GameInfo.Valid, GameInfo.Value;
      forall h | h in old(games)
        ensures old(games[h]).Valid() && old(games[h]).Value() == old(games[h].Value())
        ensures old(games[h]).Repr == old(games[h].Repr)
      {
        RoomUntouched(old(games[h]));
      }
    }

    /** A new room is listed beside the others, which stay as they are. */
    twostate lemma RoomAdded(g: GameId, new info: GameInfo)
      requires old(Valid()) && games == old(games)[g := info]
      requires forall h <- old(games) :: unchanged(old(games[h].Repr))
      requires info.Valid() && fresh(info.Repr) && info in info.Repr && Repr == old(Repr) + info.Repr
      ensures Valid() && Rooms() == old(Rooms())[g := info.Value()]
    {
      AddedIsValid(g, info);
      hide AppState.Valid, GameInfo.Valid, GameInfo.Value;
    }

    lemma RoomAt(g: GameId)
      requires Valid() && g in games
      ensures g in State().games && State().games[g] == games[g].Value()
    {
    }

    constructor ()
      ensures Valid() && fresh(Repr) && State() == EMPTY_LOBBY
    {
      clients, games := map[], map[];
      nextGameId, nextUserId := 1, 1;
      orphans := {};
      Repr := {this};
    }

    method ClearGameId(addr: Address)
      requires Valid() && addr in clients
      modifies this`clients
      ensures Valid() && State() == SetGame(old(State()), addr, None)
    {
      hide GameInfo.Valid, GameInfo.Value, AppState.Rooms;
      clients := clients[addr := clients[addr].(gameId := None)];
      NoRoomChanged();
    }

    /** The game the client says it is in. */
    method GetGame(src: Address) returns (game: Option<GameId>)
      requires Valid()
      ensures game == GameOf(State(), src)
    {
      game := None;
      if src in clients && clients[src].gameId.Some? && clients[src].gameId.value in games {
        game := clients[src].gameId;
      }
    }

    method Resolve(src: Address) returns (at: Option<(GameId, nat)>)
      requires Valid()
      ensures at == ResolveInGame(State(), src)
    {
      at := None;
      var game := GetGame(src);
      if game.Some? {
        var playerId := Position(games[game.value].players, src);
        if playerId.Some? {
          at := Some((game.value, playerId.value));
        }
      }
    }

    /** The next game id; ids are handed out even to requests that then fail. */
    method NextGameId() returns (gameId: GameId)
      requires Valid()
      modifies this`nextGameId
      ensures Valid() && gameId == old(nextGameId)
      ensures State() == old(State()).(nextGameId := gameId + 1)
    {
      hide GameInfo.Valid, GameInfo.Value, AppState.Rooms;
      gameId := nextGameId;
      nextGameId := nextGameId + 1;
      NoRoomChanged();
    }

    method AddGame(gameId: GameId, src: Address, client: Client)
      requires Valid()
      modifies this`games, this`Repr
      ensures Valid() && fresh(Repr - old(Repr))
      ensures State() == old(State()).(games := old(State()).games[gameId := NewRoom(src, client)])
    {
      hide GameInfo.Valid, GameInfo.Value, AppState.Rooms, NewRoom;
      var info := new GameInfo(src, client);
      games := games[gameId := info];
      Repr := Repr + info.Repr;
      RoomAdded(gameId, info);
    }

    method EnterGame(src: Address, gameId: GameId)
      requires Valid() && src in clients
      modifies this`clients
      ensures Valid() && State() == SetGame(old(State()), src, Some(gameId))
    {
      hide GameInfo.Valid, GameInfo.Value, AppState.Rooms;
      clients := clients[src := clients[src].(gameId := Some(gameId))];
      NoRoomChanged();
    }

    method HandleCreateGame(src: Address)
      requires Valid()
      modifies this
      ensures Valid() && fresh(Repr - old(Repr))
      ensures State() == CreateGame(old(State()), src)
    {
      hide GameInfo.Valid, GameInfo.Value, ResolveInGame, NewRoom;
      var inGame := Resolve(src);
      if inGame.Some? { return; }
      var gameId := NextGameId();
      if src !in clients { return; }
      AddGame(gameId, src, clients[src]);
      EnterGame(src, gameId);
    }

    method HandleJoinGame(src: Address, gameId: GameId)
      requires Valid()
      modifies Repr
      ensures Valid() && fresh(Repr - old(Repr))
      ensures State() == JoinGame(old(State()), src, gameId)
    {
      if src !in clients || clients[src].gameId.Some? || gameId !in games { return; }
      var game := games[gameId];
      if game.gameStatus != Waiting || game.syncManager != null || game.numPlayers >= game.maxPlayers { return; }
      var client := clients[src];
      game.Join(src, client);
      OneRoomChanged(gameId);
      EnterGame(src, gameId);
    }

    /** Close the room if asked to. */
    method RemoveGame(gameId: GameId)
      requires Valid() && gameId in games
      modifies this`games
      ensures Valid() && State() == SetRoom(old(State()), gameId, Closed)
    {
      hide GameInfo.Valid, GameInfo.Value;
      games := games - {gameId};
      assert Rooms() == old(Rooms()) - {gameId};
    }

    /** Quit or kick a player out of a game, and close the game if that empties it. */
    method LeaveGame(gameId: GameId, addr: Address, kicked: bool) returns (sent: seq<Delivery>)
      requires Valid() && gameId in games
      modifies Repr
      ensures Valid() && fresh(Repr - old(Repr))
      ensures var r := old(State()).games[gameId];
              && State() == SetRoom(old(State()), gameId, if kicked then KickFromRoom(r, addr) else QuitRoom(r, addr))
              && sent == if r.engine.Some? then DropDeliveries(clients, gameId, LeaveRoom(r, addr), addr) else []
    {
      hide State, Rooms, SetRoom, GameInfo.Valid, GameInfo.Value, QuitRoom, KickFromRoom, DropDeliveries, LeaveRoom;
      RoomAt(gameId);
      var game := games[gameId];
      var close;
      if kicked {
        close, sent := game.KickOut(clients, gameId, addr);
      } else {
        close, sent := game.Quit(clients, gameId, addr);
      }
      Repr := Repr + game.Repr;
      OneRoomChanged(gameId);
      if close {
        ClosedAfterwards(old(State()), gameId, game.Value());
        RemoveGame(gameId);
      }
    }

    /** Drop a player's slot, and close the game if nobody is left. */
    method DropFromGame(gameId: GameId, addr: Address) returns (sent: seq<Delivery>)
      requires Valid() && gameId in games
      modifies Repr
      ensures Valid() && fresh(Repr - old(Repr))
      ensures var r := old(State()).games[gameId];
              && State() == SetRoom(old(State()), gameId, DropFromRoom(r, addr))
              && sent == DropDeliveries(clients, gameId, r, addr)
    {
      hide State, Rooms, SetRoom, GameInfo.Valid, GameInfo.Value, DropFromRoom, DropDeliveries;
      RoomAt(gameId);
      var game := games[gameId];
      var close;
      close, sent := game.ExecuteDrop(clients, gameId, addr);
      Repr := Repr + game.Repr;
      OneRoomChanged(gameId);
      if close {
        ClosedAfterwards(old(State()), gameId, game.Value());
        RemoveGame(gameId);
      }
    }

    method StartInGame(gameId: GameId, warmupOf: nat -> nat, disableOutputCache: bool)
      requires Valid() && gameId in games
      modifies Repr
      ensures Valid() && fresh(Repr - old(Repr))
      ensures State()
           == SetRoom(old(State()), gameId, Open(StartRoom(old(State()).games[gameId], warmupOf, disableOutputCache)))
    {
      hide State, Rooms, SetRoom, GameInfo.Valid, GameInfo.Value, StartRoom;
      RoomAt(gameId);
      var game := games[gameId];
      game.Start(warmupOf, disableOutputCache);
      Repr := Repr + game.Repr;
      OneRoomChanged(gameId);
    }

    method FeedGame(gameId: GameId, slot: nat, m: Message) returns (sent: seq<Delivery>)
      requires Valid() && gameId in games
      modifies Repr
      ensures Valid() && fresh(Repr - old(Repr))
      ensures var r := old(State()).games[gameId];
              if r.engine.None? || slot >= |Dropped(r.engine.value)| then State() == old(State()) && sent == []
              else
                && State() == SetRoom(old(State()), gameId, Open(r.(engine := Some(FeedSlot(r.engine.value, slot, m)))))
                && sent == SendLoop(clients, Targeted(gameId, r.players, FeedResponses(r.engine.value, slot, m)))
    {
      hide AppState.State, AppState.Rooms, SetRoom, GameInfo.Valid, GameInfo.Value, GameInfo.EngineValue;
      hide FeedSlot, FeedResponses, Targeted, SendLoop;
      RoomAt(gameId);
      var game := games[gameId];
      game.ValueFields();
      sent := [];
      if game.syncManager == null { return; }
      sent := game.Receive(clients, gameId, slot, m);
      Repr := Repr + game.Repr;
      OneRoomChanged(gameId);
      SameRoom(old(State()), gameId);
    }

    method HandleQuitGame(src: Address) returns (sent: seq<Delivery>)
      requires Valid()
      modifies Repr
      ensures Valid() && fresh(Repr - old(Repr))
      ensures State() == QuitGame(old(State()), src)
      ensures sent == QuitDeliveries(old(State()), src)
    {
      hide GameInfo.Valid, GameInfo.Value, QuitRoom, DropDeliveries, LeaveRoom;
      sent := [];
      var gameId := GetGame(src);
      if gameId.None? { return; }
      ClearGameId(src);
      DropSeesAddresses(old(clients), clients, gameId.value, LeaveRoom(State().games[gameId.value], src), src);
      sent := LeaveGame(gameId.value, src, false);
    }

    method HandleUserQuit(src: Address) returns (sent: seq<Delivery>)
      requires Valid()
      modifies Repr
      ensures Valid() && fresh(Repr - old(Repr))
      ensures State() == UserQuit(old(State()), src)
      ensures sent == QuitDeliveries(old(State()), src)
    {
      hide GameInfo.Valid, GameInfo.Value, AppState.Rooms, QuitGame, QuitDeliveries;
      sent := HandleQuitGame(src);
      label quit:
      clients := clients - {src};
      NoRoomChanged@quit();
    }

    /** Scan the sessions for a name; nobody is found if an orphan comes first. */
    method FindByUsername(username: Username, orphanFirst: bool) returns (found: Option<Address>)
      requires Valid()
      ensures FoundByName(State(), username, orphanFirst, found)
    {
      found := None;
      if orphanFirst && username in orphans { return; }
      var left := clients.Keys;
      while left != {}
        invariant left <= clients.Keys
        invariant found.None? ==> forall a | a in clients && a !in left :: clients[a].username != username
        invariant found.Some? ==> found.value in clients && clients[found.value].username == username
        decreases left
      {
        var addr :| addr in left;
        left := left - {addr};
        if clients[addr].username == username {
          found := Some(addr);
          break;
        }
      }
    }

    /** A client with the same name is the reason for rejection if it is active, and is evicted if it is stale. */
    method HandleLogin(src: Address, username: Username, connType: nat, alive: bool, orphanFirst: bool)
        returns (ghost other: Option<Address>, sent: seq<Delivery>)
      requires Valid()
      modifies Repr
      ensures Valid() && fresh(Repr - old(Repr))
      ensures FoundByName(old(State()), username, orphanFirst, other)
      ensures State() == if connType == 1 && !(other.Some? && alive)
                         then Register(Without(old(State()), other), src, username) else old(State())
      ensures sent == if connType == 1 && other.Some? && !alive then QuitDeliveries(old(State()), other.value) else []
      ensures UniqueNames(old(State())) ==>
                && State() == Login(old(State()), src, username, connType, alive, orphanFirst)
                && sent == Deliveries(old(State()), LoginRequest(src, username, connType, alive, orphanFirst))
    {
      hide GameInfo.Valid, GameInfo.Value, QuitGame, QuitDeliveries, UserQuit, Register, UniqueNames, FoundByName;
      sent := [];
      var found := FindByUsername(username, orphanFirst);
      other := found;
      NamesakeIsUnique(State(), username, orphanFirst, found);
      if connType != 1 { return; }
      if found.Some? {
        if alive { return; }
        sent := HandleUserQuit(found.value);
      }
      AddClient(src, username);
    }

    method AddClient(src: Address, username: Username)
      requires Valid()
      modifies this`clients, this`nextUserId, this`orphans
      ensures Valid() && State() == Register(old(State()), src, username)
    {
      hide GameInfo.Valid, GameInfo.Value, AppState.Rooms;
      if src in clients {
        orphans := orphans + {clients[src].username};
      }
      var userId := nextUserId;
      nextUserId := (nextUserId + 1) % 0x1_0000;
      clients := clients[src := Client(userId, username, 1, None)];
      NoRoomChanged();
    }

    method HandleDropGame(src: Address) returns (sent: seq<Delivery>)
      requires Valid()
      modifies Repr
      ensures Valid() && fresh(Repr - old(Repr))
      ensures State() == DropGame(old(State()), src)
      ensures sent == Deliveries(old(State()), DropRequest(src))
    {
      hide GameInfo.Valid, GameInfo.Value, DropFromRoom, DropDeliveries, ResolveInGame;
      sent := [];
      var at := Resolve(src);
      if at.None? { return; }
      sent := DropFromGame(at.value.0, src);
    }

    method HandleStartGame(src: Address, warmupOf: nat -> nat, disableOutputCache: bool)
      requires Valid()
      modifies Repr
      ensures Valid() && fresh(Repr - old(Repr))
      ensures State() == StartGame(old(State()), src, warmupOf, disableOutputCache)
    {
      var at := Resolve(src);
      if at.None? { return; }
      var gameId := at.value.0;
      var game := games[gameId];
      if game.syncManager != null || game.ownerUserId != clients[src].userId { return; }
      StartInGame(gameId, warmupOf, disableOutputCache);
    }

    /** Scan the clients for a user id; if two share one, either may be found. */
    method FindByUserId(userId: UserId) returns (found: Option<Address>)
      ensures found.None? ==> forall a <- clients :: clients[a].userId != userId
      ensures found.Some? ==> found.value in clients && clients[found.value].userId == userId
    {
      found := None;
      var left := clients.Keys;
      while left != {}
        invariant left <= clients.Keys
        invariant found.None? ==> forall a | a in clients && a !in left :: clients[a].userId != userId
        invariant found.Some? ==> found.value in clients && clients[found.value].userId == userId
        decreases left
      {
        var addr :| addr in left;
        left := left - {addr};
        if clients[addr].userId == userId {
          found := Some(addr);
          break;
        }
      }
    }

    /** The client with the given user id, if the request is from the owner of its game. */
    method FindKickTarget(src: Address, userId: UserId) returns (target: Option<Address>)
      requires Valid()
      ensures target.Some? ==>
                target.value in clients && clients[target.value].userId == userId && MayKick(State(), src, target.value)
      ensures target.None? ==> forall a <- clients ::
          clients[a].userId == userId && UniqueIds(State()) ==> !MayKick(State(), src, a)
    {
      hide Position;
      target := None;
      var at := Resolve(src);
      if at.None? { return; }
      var gameId := at.value.0;
      if games[gameId].ownerUserId != clients[src].userId { return; }
      var found := FindByUserId(userId);
      if found.None? || clients[found.value].gameId != Some(gameId) { return; }
      target := found;
    }

    method HandleKickUser(src: Address, userId: UserId) returns (ghost target: Option<Address>, sent: seq<Delivery>)
      requires Valid()
      modifies Repr
      ensures Valid() && fresh(Repr - old(Repr))
      ensures match target
              case Some(addr) =>
                && addr in old(clients) && old(clients)[addr].userId == userId && MayKick(old(State()), src, addr)
                && State() == Kick(old(State()), src, addr)
                && sent == KickDeliveries(old(State()), src, addr)
              case None => State() == old(State()) && sent == []
      ensures UniqueIds(old(State())) ==>
                && State() == KickUser(old(State()), src, userId)
                && sent == Deliveries(old(State()), KickRequest(src, userId))
    {
      hide GameInfo.Valid, GameInfo.Value, KickFromRoom, UniqueIds, LeaveRoom, DropDeliveries;
      sent := [];
      var found := FindKickTarget(src, userId);
      target := found;
      KickIsUnique(State(), src, userId, found);
      if found.None? { return; }
      var addr := found.value;
      sent := Remove(src, addr);
    }

    /** The part of a kick after its checks. */
    method Remove(ghost src: Address, addr: Address) returns (sent: seq<Delivery>)
      requires Valid() && MayKick(State(), src, addr)
      modifies Repr
      ensures Valid() && fresh(Repr - old(Repr))
      ensures State() == Kick(old(State()), src, addr)
      ensures sent == KickDeliveries(old(State()), src, addr)
    {
      hide GameInfo.Valid, GameInfo.Value, KickFromRoom, LeaveRoom, DropDeliveries, Position;
      var gameId := clients[addr].gameId.value;
      ClearGameId(addr);
      DropSeesAddresses(old(clients), clients, gameId, LeaveRoom(State().games[gameId], addr), addr);
      sent := LeaveGame(gameId, addr, true);
    }

    method HandleGameInput(src: Address, m: Message) returns (sent: seq<Delivery>)
      requires Valid()
      modifies Repr
      ensures Valid() && fresh(Repr - old(Repr))
      ensures State() == GameInput(old(State()), src, m)
      ensures sent == InputDeliveries(old(State()), src, m)
    {
      hide GameInfo.Valid, GameInfo.Value, FeedSlot, FeedResponses, Targeted, SendLoop, Position;
      sent := [];
      var at := Resolve(src);
      if at.None? { return; }
      var (gameId, playerId) := at.value;
      sent := FeedGame(gameId, playerId, m);
    }

    /**
     The dispatcher: every request moves the state and sends as specified, and exactly the allowed ones
     keep the invariant. Only where two clients share the user id or the name searched for may the
     client found be another than the specification's.
     */
    method HandleMessage(q: Request) returns (sent: seq<Delivery>)
      requires Valid()
      modifies Repr
      ensures Valid() && fresh(Repr - old(Repr))
      ensures Unambiguous(old(State()), q) ==>
                && State() == Handle(old(State()), q)
                && sent == Deliveries(old(State()), q)
                && (Inv(old(State())) ==> (Inv(State()) <==> Allowed(old(State()), q)))
    {
      hide GameInfo.Valid, GameInfo.Value, Inv, UniqueIds, UniqueNames, Allowed, Login, KickUser;
      hide QuitDeliveries, InputDeliveries;
      ghost var before := State();
      sent := [];
      match q {
        case LoginRequest(addr, username, connType, alive, orphanFirst) =>
          ghost var other;
          other, sent := HandleLogin(addr, username, connType, alive, orphanFirst);
        case CreateRequest(addr) => HandleCreateGame(addr);
        case JoinRequest(addr, g) => HandleJoinGame(addr, g);
        case QuitRequest(addr) => sent := HandleQuitGame(addr);
        case DropRequest(addr) => sent := HandleDropGame(addr);
        case StartRequest(addr, warmupOf, disabled) => HandleStartGame(addr, warmupOf, disabled);
        case KickRequest(addr, userId) =>
          ghost var target;
          target, sent := HandleKickUser(addr, userId);
        case UserQuitRequest(addr) => sent := HandleUserQuit(addr);
        case InputRequest(addr, m) => sent := HandleGameInput(addr, m);
      }
      AllowedExactly(before, q);
    }
  }

  lemma {:induction false} LoopSeesAddresses(before: map<Address, Client>, after: map<Address, Client>,
      ds: seq<Delivery>)
    requires before.Keys == after.Keys
    ensures SendLoop(before, ds) == SendLoop(after, ds)
    decreases |ds|
  {
    if ds != [] {
      LoopSeesAddresses(before, after, ds[1..]);
    }
  }

  /** What is sent depends on which addresses are clients', not on what the clients are doing. */
  lemma DropSeesAddresses(before: map<Address, Client>, after: map<Address, Client>, g: GameId, r: Room, addr: Address)
    requires before.Keys == after.Keys
    ensures DropDeliveries(before, g, r, addr) == DropDeliveries(after, g, r, addr)
  {
    hide DropFromRoom, SendLoop;
    assert AllHere(before, r.players) <==> AllHere(after, r.players);
    var at := Position(r.players, addr);
    if at.Some? && r.engine.Some? {
      LoopSeesAddresses(before, after, Targeted(g, r.players, DropResponses(r.engine.value, at.value)));
    }
  }

  /** A search by user id or by name has at most one answer. */
  ghost predicate Unambiguous(l: Lobby, q: Request) {
    (q.KickRequest? ==> UniqueIds(l)) && (q.LoginRequest? ==> UniqueNames(l))
  }

  lemma AllowedExactly(l: Lobby, q: Request)
    ensures Inv(l) ==> (Inv(Handle(l, q)) <==> Allowed(l, q))
  {
    hide Inv, Handle, Allowed;
    if Inv(l) {
      HandleExact(l, q);
    }
  }

  /** What a scan of the sessions for a name may answer. */
  predicate FoundByName(l: Lobby, username: Username, orphanFirst: bool, found: Option<Address>) {
    match found
    case Some(a) => !(orphanFirst && username in l.orphans) && a in l.clients && l.clients[a].username == username
    case None => (orphanFirst && username in l.orphans) || forall a <- l.clients :: l.clients[a].username != username
  }

  /** The lobby after the client found, if any, has quit. */
  function Without(l: Lobby, found: Option<Address>): Lobby {
    match found
    case None => l
    case Some(a) => UserQuit(l, a)
  }

  /** With unique names, the client a scan finds is the one the specification means. */
  lemma NamesakeIsUnique(l: Lobby, username: Username, orphanFirst: bool, found: Option<Address>)
    requires FoundByName(l, username, orphanFirst, found)
    ensures UniqueNames(l) ==> found == Namesake(l, username, orphanFirst)
  {
  }

  /** With unique user ids, the client a scan finds is the one the specification means. */
  lemma KickIsUnique(l: Lobby, src: Address, userId: UserId, found: Option<Address>)
    requires match found
             case Some(addr) => addr in l.clients && l.clients[addr].userId == userId && MayKick(l, src, addr)
             case None => forall a <- l.clients :: l.clients[a].userId == userId && UniqueIds(l) ==> !MayKick(l, src, a)
    ensures UniqueIds(l) ==>
              match found
              case Some(addr) =>
                KickUser(l, src, userId) == Kick(l, src, addr)
                && Deliveries(l, KickRequest(src, userId)) == KickDeliveries(l, src, addr)
              case None => KickUser(l, src, userId) == l && Deliveries(l, KickRequest(src, userId)) == []
  {
    hide MayKick, QuitDeliveries, KickFromRoom;
  }
}
