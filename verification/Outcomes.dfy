/**
 What each request achieves, told from the members, the slots and the room alone: when it takes
 effect, what it then changes, and that otherwise nothing changes.
 */
module Outcomes {
  import opened Common
  import opened Codec
  import opened DelayedGame
  import opened Rooms
  import opened RoomProofs
  import opened LobbyRuns
  import opened SlotRuns

  // ---- dropping ----

  /** Some slot other than this one is live. */
  ghost predicate OthersLive(dropped: seq<bool>, slot: nat) {
    exists t: nat | t < |dropped| :: t != slot && !dropped[t]
  }

  /** The slot is dropped and what it had saved is gone; nobody's frames, packets or input caches change. */
  ghost predicate OnlySlotDrops(e: Engine, e': Engine, slot: nat) {
    && slot < |Dropped(e)| == |e.queues|
    && Dropped(e') == Dropped(e)[slot := true] && e'.queues == e.queues[slot := []]
    && e'.inner.game.frames == e.inner.game.frames && e'.inner.game.delays == e.inner.game.delays
    && e'.inputCaches == e.inputCaches && e'.warmupSent == e.warmupSent && e'.warmups == e.warmups
  }

  lemma DropMovesOneSlot(e: Engine, slot: nat)
    requires slot < |Dropped(e)|
    ensures OnlySlotDrops(e, DropSlot(e, slot), slot)
  {
    DropEncodes(e, slot);
  }

  /** The order of those who are still there is kept. */
  lemma {:induction false} InRoomInOrder(x: seq<Player>, y: seq<Player>)
    ensures InRoom(x + y) == InRoom(x) + InRoom(y)
    decreases |x|
  {
    if x == [] {
      assert x + y == y;
    } else {
      var first := if x[0].leftRoom then [] else [x[0]];
      assert (x + y)[0] == x[0] && (x + y)[1..] == x[1..] + y;
      assert InRoom(x + y) == first + InRoom(x[1..] + y) && InRoom(x) == first + InRoom(x[1..]);
      hide InRoom;
      InRoomInOrder(x[1..], y);
    }
  }

  /**
   A drop leaves the game running exactly when another slot is live, and then nothing but the slot
   has changed. Otherwise the game is over: the room closes if nobody is there, and else waits
   without an engine, with those who are still there.
   */
  lemma DropExact(r: Room, a: Address, slot: nat)
    requires WellFormed(r) && r.engine.Some? && Position(r.players, a) == Some(slot)
    ensures var e := r.engine.value;
            match DropFromRoom(r, a)
            case Open(r') =>
              if OthersLive(Dropped(e), slot)
              then r'.engine.Some? && r' == r.(engine := r'.engine) && OnlySlotDrops(e, r'.engine.value, slot)
              else r'.engine.None? && r'.status == Waiting && r'.players == InRoom(r.players) && !NobodyThere(r)
            case Closed => !OthersLive(Dropped(e), slot) && NobodyThere(r)
  {
    var e := DropSlot(r.engine.value, slot);
    DropMovesOneSlot(r.engine.value, slot);
    var dropped := r.(engine := Some(e));
    assert OthersLive(Dropped(r.engine.value), slot) <==> !AllDropped(e) by {
      if t: nat :| t < |Dropped(e)| && !Dropped(e)[t] {
        assert t != slot && !Dropped(r.engine.value)[t];
      }
      if OthersLive(Dropped(r.engine.value), slot) {
        var t: nat :| t < |Dropped(r.engine.value)| && t != slot && !Dropped(r.engine.value)[t];
        assert !Dropped(e)[t];
      }
    }
    EndGameIsOver(dropped);
  }

  lemma EndGameIsOver(r: Room)
    requires WellFormed(r)
    ensures var r' := EndGame(r);
            && r'.engine.None? && r'.status == Waiting && r'.players == InRoom(r.players)
            && (r'.players == [] <==> NobodyThere(r))
  {
    hide InRoom;
    InRoomShape(r.players);
    var players := InRoom(r.players);
    MigrateOwnerFinds(r.(status := Waiting, engine := None, players := players, numPlayers := AsU8(|players|)));
    if players != [] {
      assert players[0] in r.players && !players[0].leftRoom;
    }
  }

  // ---- when a running game goes on ----

  /** The move leaves some slot live. */
  ghost predicate LeavesALiveSlot(dropped: seq<bool>, mv: Move) {
    mv.Lose? ==> OthersLive(dropped, mv.slot)
  }

  lemma StillRunning(l: Lobby, g: GameId, after: RoomAfter)
    requires g in l.games
    ensures Running(SetRoom(l, g, after), g) <==> after.Open? && after.room.engine.Some?
  {
  }

  lemma LeavingGoesOn(r: Room, a: Address)
    requires RoomOk(r) && r.engine.Some? && Position(r.players, a).Some?
    ensures var after := DropFromRoom(LeaveRoom(r, a), a);
            after.Open? && after.room.engine.Some?
            <==> OthersLive(Dropped(r.engine.value), Position(r.players, a).value)
  {
    hide DropFromRoom, LeaveRoom, RoomOk, OthersLive;
    LeavePlayingRoom(r, a);
    LeaveKeepsEngine(r, a);
    DropExact(LeaveRoom(r, a), a, Position(r.players, a).value);
  }

  lemma LeaveKeepsEngine(r: Room, a: Address)
    requires r.engine.Some?
    ensures LeaveRoom(r, a).engine == r.engine
  {
    hide InRoom, Position;
    var marked := MarkLeft(r.players, a);
    MigrateOwnerFinds(r.(players := marked, numPlayers := AsU8(|InRoom(marked)|)));
  }

  /** A departure ends the leaver's own game exactly if it leaves no live slot, and no other game. */
  lemma QuitGoesOn(l: Lobby, a: Address, g: GameId)
    requires Inv(l) && Running(l, g)
    ensures var r := l.games[g];
            Running(QuitGame(l, a), g)
            <==> (InGame(l, a, g) ==> LeavesALiveSlot(Dropped(r.engine.value), LoseAt(r.players, a)))
  {
    hide RoomOk, Present, Position, DropFromRoom, LeaveRoom, OthersLive;
    if InGame(l, a, g) {
      MemberHasSlot(l, a, g);
      LeavingGoesOn(l.games[g], a);
      StillRunning(SetGame(l, a, None), g, QuitRoom(l.games[g], a));
    }
  }

  lemma KickGoesOn(l: Lobby, a: Address, t: Address, g: GameId)
    requires Inv(l) && Running(l, g) && MayKick(l, a, t)
    ensures var r := l.games[g];
            Running(Kick(l, a, t), g)
            <==> (InGame(l, t, g) ==> LeavesALiveSlot(Dropped(r.engine.value), LoseAt(r.players, t)))
  {
    hide RoomOk, Present, Position, DropFromRoom, LeaveRoom, OthersLive;
    if InGame(l, t, g) {
      MemberHasSlot(l, t, g);
      LeavingGoesOn(l.games[g], t);
      StillRunning(SetGame(l, t, None), g, KickFromRoom(l.games[g], t));
    }
  }

  lemma DropGoesOn(l: Lobby, a: Address, g: GameId)
    requires Inv(l) && Running(l, g)
    ensures var r := l.games[g];
            Running(DropGame(l, a), g)
            <==> (InGame(l, a, g) ==> LeavesALiveSlot(Dropped(r.engine.value), LoseAt(r.players, a)))
  {
    hide RoomOk, Present, Position, DropFromRoom, OthersLive;
    ResolveIsOwnSlot(l, a);
    if InGame(l, a, g) {
      MemberHasSlot(l, a, g);
      RoomOkIsWellFormed(l.games[g]);
      DropExact(l.games[g], a, Position(l.games[g].players, a).value);
      StillRunning(l, g, DropFromRoom(l.games[g], a));
    }
  }

  lemma LoginGoesOn(l: Lobby, q: Request, g: GameId)
    requires Inv(l) && Running(l, g) && q.LoginRequest?
    ensures var r := l.games[g];
            Running(Handle(l, q), g) <==> LeavesALiveSlot(Dropped(r.engine.value), MoveOf(l, q, g, r.players))
  {
    hide RoomOk, Present, Position, QuitGame, OthersLive, LoseAt;
    var other := Namesake(l, q.username, q.orphanFirst);
    if Admitted(l, q.username, q.connType, q.alive, q.orphanFirst) && other.Some? {
      QuitGoesOn(l, other.value, g);
    }
  }

  /** A running game goes on after a request exactly when the move that the request makes leaves it a live slot. */
  lemma GoesOn(l: Lobby, q: Request, g: GameId)
    requires Inv(l) && Running(l, g)
    ensures var r := l.games[g];
            Running(Handle(l, q), g) <==> LeavesALiveSlot(Dropped(r.engine.value), MoveOf(l, q, g, r.players))
  {
    hide RoomOk, Present, Position, QuitGame, OthersLive, LoseAt, Kick, DropGame, Login, GameInput;
    match q
    case LoginRequest(_, _, _, _, _) => LoginGoesOn(l, q, g);
    case QuitRequest(a) => QuitGoesOn(l, a, g);
    case UserQuitRequest(a) => QuitGoesOn(l, a, g);
    case DropRequest(a) => DropGoesOn(l, a, g);
    case KickRequest(a, userId) =>
      var t := TargetOf(l, userId);
      if t.Some? {
        if MayKick(l, a, t.value) {
          KickGoesOn(l, a, t.value, g);
        } else {
          NoKick(l, a, t.value);
        }
      }
    case InputRequest(a, m) => InputGoesOn(l, a, m, g);
    case CreateRequest(a) => CreateGoesOn(l, a, g);
    case _ =>
  }

  lemma NoKick(l: Lobby, a: Address, t: Address)
    requires !MayKick(l, a, t)
    ensures Kick(l, a, t) == l
  {
  }

  lemma InputGoesOn(l: Lobby, a: Address, m: Message, g: GameId)
    requires Running(l, g)
    ensures Running(GameInput(l, a, m), g)
  {
  }

  lemma CreateGoesOn(l: Lobby, a: Address, g: GameId)
    requires Inv(l) && Running(l, g)
    ensures Running(CreateGame(l, a), g)
  {
    hide RoomOk, Present;
  }

  // ---- joining ----

  /** In a waiting room everybody listed is there, and the room is not listed as playing. */
  lemma WaitingRoom(r: Room)
    requires RoomOk(r) && r.engine.None?
    ensures r.status == Waiting && r.numPlayers == |r.players| <= r.maxPlayers == 4 && NobodyLeft(r.players)
  {
    hide InRoom;
    InRoomShape(r.players);
  }

  lemma StrangerIsNotListed(l: Lobby, a: Address, g: GameId)
    requires Inv(l) && a in l.clients && l.clients[a].gameId.None? && g in l.games && NobodyLeft(l.games[g].players)
    ensures Position(l.games[g].players, a).None?
  {
    hide RoomOk;
    var players := l.games[g].players;
    if Position(players, a).Some? {
      assert Present(players, a, players[Position(players, a).value].userId);
    }
  }

  /**
   A client gets into a game exactly if it is in none, the game is not running and fewer than four
   are listed. It is then listed last, and nothing else changes; otherwise nothing changes.
   */
  lemma JoinExact(l: Lobby, a: Address, g: GameId)
    requires Inv(l)
    ensures if a in l.clients && l.clients[a].gameId.None? && g in l.games
               && l.games[g].engine.None? && |l.games[g].players| < 4
            then
              var r, c, l' := l.games[g], l.clients[a], Handle(l, JoinRequest(a, g));
              && InGame(l', a, g) && g in l'.games
              && l' == l.(clients := l.clients[a := c.(gameId := Some(g))], games := l.games[g := l'.games[g]])
              && l'.games[g].players == r.players + [Player(a, c.userId, c.connType, false)]
              && l'.games[g] == r.(players := l'.games[g].players, numPlayers := |r.players| + 1)
            else Handle(l, JoinRequest(a, g)) == l
  {
    hide RoomOk;
    if a in l.clients && l.clients[a].gameId.None? && g in l.games && l.games[g].engine.None? {
      WaitingRoom(l.games[g]);
      StrangerIsNotListed(l, a, g);
    }
  }

  // ---- creating ----

  /**
   A client in no game gets a new waiting room with the next id, alone and as its owner. A client in a
   game gets nothing, and a stranger only uses up the id.
   */
  lemma CreateExact(l: Lobby, a: Address)
    requires Inv(l)
    ensures var g := l.nextGameId;
            Handle(l, CreateRequest(a))
            == if a !in l.clients then l.(nextGameId := g + 1)
               else if l.clients[a].gameId.Some? then l
               else
                 var c := l.clients[a];
                 var r := Room(c.userId, 1, 4, Waiting, None, [Player(a, c.userId, c.connType, false)]);
                 l.(clients := l.clients[a := c.(gameId := Some(g))], games := l.games[g := r], nextGameId := g + 1)
    ensures l.nextGameId !in l.games
  {
    hide RoomOk, Position;
    ResolveIsOwnSlot(l, a);
  }

  // ---- leaving ----

  /** Somebody other than this client is in the room. */
  ghost predicate OthersThere(players: seq<Player>, a: Address) {
    exists i: nat | i < |players| :: players[i].addr != a && !players[i].leftRoom
  }

  lemma LeaverLeaves(r: Room, after: RoomAfter, a: Address)
    requires RoomOk(r) && LeaverGone(r, after, a)
    ensures after.Open? <==> OthersThere(r.players, a)
  {
    match after
    case Open(r') =>
      var i :| 0 <= i < |r'.players| && !r'.players[i].leftRoom && r'.players[i].userId == r'.ownerUserId;
      assert Present(r'.players, r'.players[i].addr, r'.players[i].userId);
    case Closed =>
      if OthersThere(r.players, a) {
        var i: nat :| i < |r.players| && r.players[i].addr != a && !r.players[i].leftRoom;
        assert Present(r.players, r.players[i].addr, r.players[i].userId);
      }
  }

  /**
   Quitting takes the client out of its game and changes no other client and no other game. The game
   stays listed exactly if somebody else is there, and then has all its other members.
   */
  lemma QuitExact(l: Lobby, a: Address)
    requires Inv(l)
    ensures var l' := Handle(l, QuitRequest(a));
            if a in l.clients && l.clients[a].gameId.Some? then
              var g := l.clients[a].gameId.value;
              && l' == l.(clients := l.clients[a := l.clients[a].(gameId := None)], games := l'.games)
              && (forall h :: h != g ==> (h in l'.games <==> h in l.games))
              && (forall h <- l'.games :: h != g ==> l'.games[h] == l.games[h])
              && g in l.games && (g in l'.games <==> OthersThere(l.games[g].players, a))
              && (g in l'.games ==> forall b, u ::
                    Present(l'.games[g].players, b, u) <==> Present(l.games[g].players, b, u) && b != a)
            else l' == l
  {
    hide RoomOk, Present, QuitRoom, Position;
    if a in l.clients && l.clients[a].gameId.Some? {
      var g := l.clients[a].gameId.value;
      MemberHasSlot(l, a, g);
      QuitKeepsRoom(l.games[g], a);
      LeaverLeaves(l.games[g], QuitRoom(l.games[g], a), a);
    }
  }

  /** Leaving the server is quitting and then being no client any more. */
  lemma UserQuitExact(l: Lobby, a: Address)
    requires Inv(l)
    ensures Handle(l, UserQuitRequest(a)).clients == l.clients - {a}
    ensures Handle(l, UserQuitRequest(a)) == l.(clients := l.clients - {a}, games := Handle(l, QuitRequest(a)).games)
  {
    hide RoomOk, Present, QuitGame;
    QuitExact(l, a);
  }

  /** This owner may kick that client: they are in the same game, which is the owner's. */
  ghost predicate Kicks(l: Lobby, a: Address, t: Address) {
    && a in l.clients && t in l.clients && l.clients[a].gameId.Some?
    && l.clients[t].gameId == l.clients[a].gameId
    && l.clients[a].gameId.value in l.games
    && l.games[l.clients[a].gameId.value].ownerUserId == l.clients[a].userId
  }

  /** A kick takes effect exactly if its sender owns the game and the client with that id is in the same game. */
  lemma KickExact(l: Lobby, a: Address, userId: UserId)
    requires Inv(l)
    ensures var l' := Handle(l, KickRequest(a, userId));
            (exists t :: t in l.clients && l.clients[t].userId == userId && Kicks(l, a, t)) <==> l' != l
    ensures forall t | t in l.clients && l.clients[t].userId == userId && Kicks(l, a, t) ::
              var g, l' := l.clients[a].gameId.value, Handle(l, KickRequest(a, userId));
              && l' == l.(clients := l.clients[t := l.clients[t].(gameId := None)], games := l'.games)
              && (forall h :: h != g ==> (h in l'.games <==> h in l.games))
              && (forall h <- l'.games :: h != g ==> l'.games[h] == l.games[h])
              && (g in l'.games <==> OthersThere(l.games[g].players, t) || l.games[g].engine.None?)
              && (g in l'.games ==> forall b, u ::
                    Present(l'.games[g].players, b, u) <==> Present(l.games[g].players, b, u) && b != t)
  {
    hide RoomOk, Present, KickFromRoom, Position;
    ResolveIsOwnSlot(l, a);
    var at := TargetOf(l, userId);
    forall t | t in l.clients && l.clients[t].userId == userId
      ensures at == Some(t) && (MayKick(l, a, t) <==> Kicks(l, a, t))
    {
      KickerIsListed(l, a);
    }
    if at.Some? && Kicks(l, a, at.value) {
      var g := l.clients[a].gameId.value;
      MemberHasSlot(l, at.value, g);
      KickedIsGone(l.games[g], at.value);
      assert Handle(l, KickRequest(a, userId)).clients[at.value].gameId.None?;
    }
  }

  lemma KickerIsListed(l: Lobby, a: Address)
    requires Inv(l)
    ensures ResolveInGame(l, a).Some? <==> a in l.clients && l.clients[a].gameId.Some?
  {
    hide RoomOk, Present, Position;
    ResolveIsOwnSlot(l, a);
  }

  lemma KickedIsGone(r: Room, t: Address)
    requires RoomOk(r) && Position(r.players, t).Some?
    ensures match KickFromRoom(r, t)
            case Open(r') =>
              && (OthersThere(r.players, t) || r.engine.None?)
              && forall b, u :: Present(r'.players, b, u) <==> Present(r.players, b, u) && b != t
            case Closed => !OthersThere(r.players, t) && r.engine.Some?
  {
    hide Position;
    KickKeepsRoom(r, t);
    LeaveDeparts(r, t);
    if !(r.engine.None? && |r.players| == 1) {
      LeaverLeaves(r, KickFromRoom(r, t), t);
    }
  }

  // ---- playing ----

  /**
   A fresh engine for these players: nothing heard, nothing sent, everybody live, each at its own delay
   and warm-up.
   */
  ghost predicate FreshFor(e: Engine, players: seq<Player>, warmupOf: nat -> nat, disableOutputCache: bool) {
    && |e.queues| == |e.warmups| == |e.warmupSent| == |e.inputCaches| == |e.inner.outputCaches| == |players|
    && |e.inner.game.frames| == |Dropped(e)| == |e.inner.game.delays| == |players|
    && e.frameSize == e.inner.game.frameSize == 0 && e.inner.disableOutputCache == disableOutputCache
    && forall i | 0 <= i < |players| ::
         && e.inner.game.delays[i] == players[i].connType && e.warmups[i] == warmupOf(i)
         && e.inner.game.frames[i] == [] && !Dropped(e)[i]
         && e.queues[i] == [] && e.warmupSent[i] == 0 && e.inputCaches[i] == [] && e.inner.outputCaches[i] == []
  }

  lemma StartedIsFresh(players: seq<Player>, warmupOf: nat -> nat, disableOutputCache: bool)
    ensures FreshFor(StartEngine(DelaysOf(players), WarmupsOf(players, warmupOf), disableOutputCache),
                     players, warmupOf, disableOutputCache)
  {
  }

  lemma StartedRoom(r: Room, warmupOf: nat -> nat, disableOutputCache: bool)
    requires RoomOk(r) && r.engine.None?
    ensures var r' := StartRoom(r, warmupOf, disableOutputCache);
            && r' == r.(status := Playing, engine := r'.engine) && r'.engine.Some?
            && FreshFor(r'.engine.value, r.players, warmupOf, disableOutputCache)
  {
    hide InRoom, StartEngine, FreshFor, DelaysOf, WarmupsOf;
    WaitingRoom(r);
    InRoomShape(r.players);
    StartedIsFresh(r.players, warmupOf, disableOutputCache);
  }

  /**
   A game starts exactly if its owner asks and it is not running; then it has a fresh engine, and
   nothing else changes.
   */
  lemma StartExact(l: Lobby, a: Address, warmupOf: nat -> nat, disableOutputCache: bool)
    requires Inv(l)
    ensures var l' := Handle(l, StartRequest(a, warmupOf, disableOutputCache));
            if a in l.clients && l.clients[a].gameId.Some? && Kicks(l, a, a)
               && l.games[l.clients[a].gameId.value].engine.None?
            then
              var g := l.clients[a].gameId.value;
              && g in l'.games && l' == l.(games := l.games[g := l'.games[g]])
              && l'.games[g] == l.games[g].(status := Playing, engine := l'.games[g].engine)
              && l'.games[g].engine.Some?
              && FreshFor(l'.games[g].engine.value, l.games[g].players, warmupOf, disableOutputCache)
            else l' == l
  {
    hide RoomOk, Present, Position, StartRoom, FreshFor;
    ResolveIsOwnSlot(l, a);
    if a in l.clients && l.clients[a].gameId.Some? {
      var r := l.games[l.clients[a].gameId.value];
      if r.engine.None? {
        StartedRoom(r, warmupOf, disableOutputCache);
      }
    }
  }

  /**
   Input from a player of a running game feeds its own slot, and nothing else changes; other input
   changes nothing.
   */
  lemma InputExact(l: Lobby, a: Address, m: Message)
    requires Inv(l)
    ensures var l' := Handle(l, InputRequest(a, m));
            if a in l.clients && l.clients[a].gameId.Some? && Running(l, l.clients[a].gameId.value) then
              var g := l.clients[a].gameId.value;
              var r := l.games[g];
              exists slot: nat | slot < |r.players| && slot < |Dropped(r.engine.value)| ::
                && r.players[slot].addr == a && !r.players[slot].leftRoom
                && l' == l.(games := l.games[g := r.(engine := Some(FeedSlot(r.engine.value, slot, m)))])
            else l' == l
  {
    hide RoomOk, Present, Position, FeedSlot;
    ResolveIsOwnSlot(l, a);
  }

  /**
   A drop by a player of a running game drops its own slot; it never closes the room. Any other drop
   changes nothing.
   */
  lemma DropGameExact(l: Lobby, a: Address)
    requires Inv(l)
    ensures var l' := Handle(l, DropRequest(a));
            if a in l.clients && l.clients[a].gameId.Some? && Running(l, l.clients[a].gameId.value) then
              var g := l.clients[a].gameId.value;
              var r := l.games[g];
              && g in l'.games && l' == l.(games := l.games[g := l'.games[g]])
              && exists slot: nat | slot < |r.players| && slot < |Dropped(r.engine.value)| ::
                   && r.players[slot].addr == a
                   && if OthersLive(Dropped(r.engine.value), slot)
                      then && l'.games[g] == r.(engine := l'.games[g].engine) && l'.games[g].engine.Some?
                           && OnlySlotDrops(r.engine.value, l'.games[g].engine.value, slot)
                      else l'.games[g].engine.None? && l'.games[g].players == InRoom(r.players)
            else l' == l
  {
    hide RoomOk, Present, Position, DropFromRoom, InRoom, OthersLive, OnlySlotDrops;
    ResolveIsOwnSlot(l, a);
    if a in l.clients && l.clients[a].gameId.Some? {
      var g := l.clients[a].gameId.value;
      var r := l.games[g];
      MemberHasSlot(l, a, g);
      DropInWaiting(r, a);
      if r.engine.Some? {
        var slot := Position(r.players, a).value;
        RoomOkIsWellFormed(r);
        DropExact(r, a, slot);
        DropKeepsRoom(r, a);
        assert SlotPerPlayerIn(r);
      }
    }
  }

  ghost predicate SlotPerPlayerIn(r: Room) {
    r.engine.Some? ==> |Dropped(r.engine.value)| == |r.players|
  }

  lemma DropInWaiting(r: Room, a: Address)
    requires RoomOk(r)
    ensures r.engine.None? ==> DropFromRoom(r, a) == Open(r)
    ensures SlotPerPlayerIn(r)
  {
  }

  // ---- logging in ----

  /** Whom a search by name can find; nobody, if it meets an orphan first. */
  ghost function Found(l: Lobby, username: Username, orphanFirst: bool): set<Address> {
    if orphanFirst && username in l.orphans then {} else set b | b in l.clients && l.clients[b].username == username
  }

  lemma SearchFinds(l: Lobby, username: Username, orphanFirst: bool)
    requires Inv(l)
    ensures var other := Namesake(l, username, orphanFirst);
            Found(l, username, orphanFirst) == if other.Some? then {other.value} else {}
  {
    hide RoomsOk, MembersAgree, NoStaleGames, UniqueIds;
  }

  /**
   A login is refused exactly if the connection type is not LAN's or the search by name finds an active
   client. Otherwise the client found, if any, is gone, and the sender is a client in no game, with
   that name and the next 16-bit user id; no other client changes.
   */
  lemma LoginExact(l: Lobby, a: Address, username: Username, connType: nat, alive: bool, orphanFirst: bool)
    requires Inv(l)
    ensures var l' := Handle(l, LoginRequest(a, username, connType, alive, orphanFirst));
            var found := Found(l, username, orphanFirst);
            if connType != 1 || (alive && found != {}) then l' == l
            else
              && |found| <= 1
              && l'.clients == (l.clients - found)[a := Client(l.nextUserId, username, 1, None)]
              && l'.nextUserId == (if l.nextUserId == 65535 then 0 else l.nextUserId + 1)
              && l'.nextGameId == l.nextGameId
              && (found == {} ==> l'.games == l.games)
              && (forall b <- found :: l'.games == Handle(l, QuitRequest(b)).games)
              && l'.orphans
                  == (if a in l.clients && a !in found then l.orphans + {l.clients[a].username} else l.orphans)
  {
    hide Inv, QuitGame, UserQuit, Namesake, ClientNamed;
    var other := Namesake(l, username, orphanFirst);
    SearchFinds(l, username, orphanFirst);
    if other.Some? {
      UserQuitExact(l, other.value);
    } else {
      assert l.clients - {} == l.clients;
    }
  }
}
