/**
 While a game runs, a player's position in the list is its slot in the engine: positions never
 move, and the engine sees exactly the messages and departures of the players it started with,
 each in the slot its sender had at the start, whatever else the server is doing.
 */
module SlotRuns {
  import opened Codec
  import opened Rooms
  import opened RoomProofs
  import opened LobbyRuns

  /** What a request does to one game's engine. */
  datatype Move = Nothing | Feed(slot: nat, message: Message) | Lose(slot: nat)

  function Apply(e: Engine, mv: Move): (e': Engine)
    ensures |Dropped(e')| == |Dropped(e)|
  {
    match mv
    case Nothing => e
    case Feed(slot, m) => if slot < |Dropped(e)| then FeedSlot(e, slot, m) else e
    case Lose(slot) => if slot < |Dropped(e)| then DropSlot(e, slot) else e
  }

  function LoseAt(roster: seq<Player>, a: Address): Move {
    match Position(roster, a)
    case None => Nothing
    case Some(slot) => Lose(slot)
  }

  /** Slots are looked up in the list the game started with. */
  ghost function MoveOf(l: Lobby, q: Request, g: GameId, roster: seq<Player>): Move {
    match q
    case LoginRequest(a, username, connType, alive, orphanFirst) =>
      (match Namesake(l, username, orphanFirst)
       case None => Nothing
       case Some(other) =>
         if Admitted(l, username, connType, alive, orphanFirst) && InGame(l, other, g) then LoseAt(roster, other)
         else Nothing)
    case InputRequest(a, m) =>
      (match Position(roster, a)
       case None => Nothing
       case Some(slot) => if InGame(l, a, g) then Feed(slot, m) else Nothing)
    case DropRequest(a) => if InGame(l, a, g) then LoseAt(roster, a) else Nothing
    case QuitRequest(a) => if InGame(l, a, g) then LoseAt(roster, a) else Nothing
    case UserQuitRequest(a) => if InGame(l, a, g) then LoseAt(roster, a) else Nothing
    case KickRequest(a, userId) =>
      (match TargetOf(l, userId)
       case None => Nothing
       case Some(t) => if MayKick(l, a, t) && InGame(l, t, g) then LoseAt(roster, t) else Nothing)
    case _ => Nothing
  }

  ghost predicate Running(l: Lobby, g: GameId) {
    g in l.games && l.games[g].engine.Some?
  }

  /** The same players in the same slots; marks and drops are never taken back. */
  ghost predicate SameSlots(before: seq<Player>, after: seq<Player>) {
    && |after| == |before|
    && forall i | 0 <= i < |before| ::
         after[i] == before[i].(leftRoom := after[i].leftRoom) && (before[i].leftRoom ==> after[i].leftRoom)
  }

  ghost predicate RoomMoved(r: Room, r': Room, mv: Move) {
    && r.engine.Some? && r'.engine.Some?
    && SameSlots(r.players, r'.players)
    && r'.engine.value == Apply(r.engine.value, mv)
  }

  // ---- one step ----

  lemma DropMoves(r: Room, a: Address)
    requires WellFormed(r) && r.engine.Some? && Position(r.players, a).Some?
    requires DropFromRoom(r, a).Open? && DropFromRoom(r, a).room.engine.Some?
    ensures RoomMoved(r, DropFromRoom(r, a).room, LoseAt(r.players, a))
  {
    hide InRoom, Position;
  }

  lemma LeaveMoves(r: Room, a: Address)
    requires RoomOk(r) && r.engine.Some? && Position(r.players, a).Some?
    requires var after := DropFromRoom(LeaveRoom(r, a), a); after.Open? && after.room.engine.Some?
    ensures RoomMoved(r, DropFromRoom(LeaveRoom(r, a), a).room, LoseAt(r.players, a))
  {
    hide InRoom, Position, MarkLeft, MigrateOwner, DropFromRoom;
    MarkLeftShape(r.players, a);
    MigrateOwnerFinds(r.(players := MarkLeft(r.players, a), numPlayers := AsU8(|InRoom(MarkLeft(r.players, a))|)));
    LeavePlayingRoom(r, a);
    DropMoves(LeaveRoom(r, a), a);
  }

  lemma UnmovedRoom(r: Room)
    requires r.engine.Some?
    ensures RoomMoved(r, r, Nothing)
  {
  }

  /** A departure moves the leaver's own game by the loss of its slot, and no other game. */
  lemma QuitMoves(l: Lobby, a: Address, g: GameId)
    requires Inv(l) && Running(l, g) && Running(QuitGame(l, a), g)
    ensures RoomMoved(l.games[g], QuitGame(l, a).games[g],
                      if InGame(l, a, g) then LoseAt(l.games[g].players, a) else Nothing)
  {
    hide RoomOk, Present, Position, DropFromRoom, LeaveRoom, Apply, SameSlots, LoseAt;
    UnmovedRoom(l.games[g]);
    if InGame(l, a, g) {
      MemberHasSlot(l, a, g);
      LeaveMoves(l.games[g], a);
    }
  }

  /** Every request moves every running game by `MoveOf`, or ends it. */
  lemma StepMoves(l: Lobby, q: Request, g: GameId)
    requires Inv(l) && Running(l, g) && Running(Handle(l, q), g)
    ensures RoomMoved(l.games[g], Handle(l, q).games[g], MoveOf(l, q, g, l.games[g].players))
  {
    hide RoomOk, Present, Position, DropFromRoom, LeaveRoom, StartRoom, FeedSlot, Apply, SameSlots, QuitGame, LoseAt;
    var r := l.games[g];
    UnmovedRoom(r);
    match q
    case LoginRequest(a, username, connType, alive, orphanFirst) =>
      var other := Namesake(l, username, orphanFirst);
      if Admitted(l, username, connType, alive, orphanFirst) && other.Some? {
        QuitMoves(l, other.value, g);
      }
    case InputRequest(a, m) =>
      if InGame(l, a, g) {
        InputMoves(l, a, m, g);
      }
    case DropRequest(a) =>
      if InGame(l, a, g) {
        DropRequestMoves(l, a, g);
      }
    case QuitRequest(a) => QuitMoves(l, a, g);
    case UserQuitRequest(a) => QuitMoves(l, a, g);
    case KickRequest(a, userId) =>
      var t := TargetOf(l, userId);
      if t.Some? && MayKick(l, a, t.value) && InGame(l, t.value, g) {
        MemberHasSlot(l, t.value, g);
        LeaveMoves(r, t.value);
      }
    case _ =>
  }

  lemma DropRequestMoves(l: Lobby, a: Address, g: GameId)
    requires Inv(l) && Running(l, g) && InGame(l, a, g) && Running(DropGame(l, a), g)
    ensures RoomMoved(l.games[g], DropGame(l, a).games[g], LoseAt(l.games[g].players, a))
  {
    hide RoomOk, Present, Position, DropFromRoom, Apply, SameSlots, LoseAt;
    MemberHasSlot(l, a, g);
    RoomOkIsWellFormed(l.games[g]);
    DropMoves(l.games[g], a);
  }

  lemma RoomOkIsWellFormed(r: Room)
    requires RoomOk(r)
    ensures WellFormed(r)
  {
  }

  lemma InputMoves(l: Lobby, a: Address, m: Message, g: GameId)
    requires Inv(l) && Running(l, g) && InGame(l, a, g)
    ensures Running(GameInput(l, a, m), g)
    ensures RoomMoved(l.games[g], GameInput(l, a, m).games[g], MoveOf(l, InputRequest(a, m), g, l.games[g].players))
  {
    hide RoomOk, Present, Position, FeedSlot;
    ResolveIsOwnSlot(l, a);
    MemberHasSlot(l, a, g);
  }

  // ---- whole games ----

  ghost predicate RunningThroughout(l: Lobby, qs: seq<Request>, g: GameId) {
    && Running(LobbyAfter(l, qs), g)
    && (qs != [] ==> RunningThroughout(l, qs[..|qs| - 1], g))
  }

  /** The engine fed with its own moves only. */
  ghost function EngineAfter(e: Engine, roster: seq<Player>, l: Lobby, qs: seq<Request>, g: GameId): (e': Engine)
    ensures |Dropped(e')| == |Dropped(e)|
  {
    if qs == [] then e
    else
      var before := qs[..|qs| - 1];
      Apply(EngineAfter(e, roster, l, before, g), MoveOf(LobbyAfter(l, before), qs[|qs| - 1], g, roster))
  }

  lemma SameSlotsTransitive(first: seq<Player>, second: seq<Player>, third: seq<Player>)
    requires SameSlots(first, second) && SameSlots(second, third)
    ensures SameSlots(first, third)
    ensures forall a :: Position(second, a) == Position(first, a)
  {
    hide Position;
    forall a ensures Position(second, a) == Position(first, a) {
      PositionStable(first, second, a);
    }
  }

  lemma MoveOfSlots(l: Lobby, q: Request, g: GameId, before: seq<Player>, after: seq<Player>)
    requires forall a :: Position(after, a) == Position(before, a)
    ensures MoveOf(l, q, g, after) == MoveOf(l, q, g, before)
  {
    hide Position;
  }

  /**
   From any sound state, for as long as a game runs, in any mix with other requests: its slots do
   not move, and its engine is the one it had, fed with its own players' moves in their own slots.
   */
  lemma {:induction false} SlotsStable(l: Lobby, qs: seq<Request>, g: GameId)
    requires Inv(l) && AllAllowed(l, qs) && RunningThroughout(l, qs, g)
    ensures Running(l, g)
    ensures var r, r' := l.games[g], LobbyAfter(l, qs).games[g];
            && SameSlots(r.players, r'.players)
            && r'.engine.value == EngineAfter(r.engine.value, r.players, l, qs, g)
  {
    hide Inv, Handle, Allowed, Apply, MoveOf;
    if qs != [] {
      var before, q := qs[..|qs| - 1], qs[|qs| - 1];
      SlotsStable(l, before, g);
      RunExact(l, before);
      var l1 := LobbyAfter(l, before);
      StepMoves(l1, q, g);
      SameSlotsTransitive(l.games[g].players, l1.games[g].players, LobbyAfter(l, qs).games[g].players);
      MoveOfSlots(l1, q, g, l.games[g].players, l1.games[g].players);
    }
  }

  lemma SlotFollows(l: Lobby, l': Lobby, g: GameId, a: Address)
    requires Inv(l) && Inv(l') && Running(l, g) && Running(l', g)
    requires SameSlots(l.games[g].players, l'.games[g].players)
    requires ResolveInGame(l', a).Some? && ResolveInGame(l', a).value.0 == g
    ensures ResolveInGame(l, a) == ResolveInGame(l', a)
  {
    hide Position, RoomOk, UniqueIds, UniqueNames;
    var players, players' := l.games[g].players, l'.games[g].players;
    PositionStable(players, players', a);
    ResolveIsOwnSlot(l', a);
    var slot := ResolveInGame(l', a).value.1;
    assert players[slot].addr == a && !players[slot].leftRoom;
    assert Present(players, a, players[slot].userId);
  }

  /** A client's input reaches the same slot for as long as it stays in the running game. */
  lemma ResolvedSlotStable(l: Lobby, qs: seq<Request>, g: GameId, a: Address)
    requires Inv(l) && AllAllowed(l, qs) && RunningThroughout(l, qs, g)
    requires ResolveInGame(LobbyAfter(l, qs), a).Some? && ResolveInGame(LobbyAfter(l, qs), a).value.0 == g
    ensures ResolveInGame(l, a) == ResolveInGame(LobbyAfter(l, qs), a)
  {
    hide Inv, Position, Handle, EngineAfter, MoveOf, ResolveInGame;
    SlotsStable(l, qs, g);
    RunExact(l, qs);
    SlotFollows(l, LobbyAfter(l, qs), g, a);
  }
}
