/** What reaches a player's slot: the player's own input, for as long as it stays in the running game. */
module GameInputs {
  import opened Common
  import opened CachedGame
  import opened DelayedRuns
  import opened Rooms
  import opened RoomProofs
  import opened LobbyRuns
  import opened SlotRuns
  import opened GameRuns
  import opened Reading

  // ---- a running game is not entered ----

  lemma LeavingEntersNothing(l: Lobby, other: Address, g: GameId, a: Address)
    requires !InGame(l, a, g)
    ensures !InGame(QuitGame(l, other), a, g) && !InGame(UserQuit(l, other), a, g)
  {
  }

  lemma LoginEntersNothing(l: Lobby, q: Request, g: GameId, a: Address)
    requires q.LoginRequest? && !InGame(l, a, g)
    ensures !InGame(Handle(l, q), a, g)
  {
    hide UserQuit;
    var other := Namesake(l, q.username, q.orphanFirst);
    if other.Some? {
      LeavingEntersNothing(l, other.value, g, a);
    }
  }

  /** Whoever is not in a running game does not get in. */
  lemma NobodyEnters(l: Lobby, q: Request, g: GameId, a: Address)
    requires RoomsOk(l) && Running(l, g) && !InGame(l, a, g)
    ensures !InGame(Handle(l, q), a, g)
  {
    hide RoomOk, DropFromRoom, KickFromRoom, QuitGame, UserQuit, Login, StartRoom, JoinRoom, Position;
    match q
    case LoginRequest(_, _, _, _, _) => LoginEntersNothing(l, q, g, a);
    case QuitRequest(other) => LeavingEntersNothing(l, other, g, a);
    case UserQuitRequest(other) => LeavingEntersNothing(l, other, g, a);
    case _ =>
  }

  /** How many of the requests find a in game g, from the first on. */
  ghost function Stay(l: Lobby, qs: seq<Request>, g: GameId, a: Address): (n: nat)
    ensures n <= |qs|
  {
    if qs == [] then 0
    else
      var before := qs[..|qs| - 1];
      if Stay(l, before, g, a) == |before| && InGame(LobbyAfter(l, before), a, g) then |qs| else Stay(l, before, g, a)
  }

  /** The game is running when each request arrives. */
  ghost predicate RunningBefore(l: Lobby, qs: seq<Request>, g: GameId) {
    qs != [] ==> RunningThroughout(l, qs[..|qs| - 1], g)
  }

  lemma RunningEarlier(l: Lobby, qs: seq<Request>, g: GameId)
    requires RunningBefore(l, qs, g) && qs != []
    ensures RunningBefore(l, qs[..|qs| - 1], g) && Running(LobbyAfter(l, qs[..|qs| - 1]), g)
  {
  }

  /** Once out of the game, a stays out. */
  lemma {:induction false} GoneIsGone(l: Lobby, qs: seq<Request>, g: GameId, a: Address)
    requires Inv(l) && AllAllowed(l, qs) && RunningBefore(l, qs, g) && Stay(l, qs, g, a) < |qs|
    ensures !InGame(LobbyAfter(l, qs), a, g)
    decreases |qs|
  {
    hide Inv, Handle, Allowed;
    var before, q := qs[..|qs| - 1], qs[|qs| - 1];
    RunningEarlier(l, qs, g);
    RunExact(l, before);
    var l1 := LobbyAfter(l, before);
    if Stay(l, before, g, a) < |before| {
      GoneIsGone(l, before, g, a);
    }
    RoomsAreOk(l1);
    NobodyEnters(l1, q, g, a);
  }

  lemma RoomsAreOk(l: Lobby)
    requires Inv(l)
    ensures RoomsOk(l)
  {
  }

  // ---- input ----

  /** A request feeds a player's slot exactly when it is the player's own input and the player is in the game. */
  lemma FeedIsOwnInput(l: Lobby, q: Request, g: GameId, roster: seq<Player>, a: Address, p: nat)
    requires Position(roster, a) == Some(p)
    ensures var mv := MoveOf(l, q, g, roster);
            if q.InputRequest? && q.addr == a && InGame(l, a, g) then mv == Feed(p, q.message)
            else !(mv.Feed? && mv.slot == p)
  {
  }

  lemma OwnMessagesOne(es: seq<CachedEvent>, e: CachedEvent, p: nat)
    ensures MessagesIn(OwnEvents(es + [e], p))
         == MessagesIn(OwnEvents(es, p)) + (if e.Receive? && e.player == p then [e.message] else [])
  {
    assert (es + [e])[..|es + [e]| - 1] == es;
    var own := OwnEvents(es, p);
    if e.player == p {
      assert (own + [AsOwn(e)])[..|own + [AsOwn(e)]| - 1] == own;
    } else {
      assert OwnEvents(es + [e], p) == own;
    }
  }

  lemma MoveAddsInput(es: seq<CachedEvent>, mv: Move, p: nat)
    ensures var es' := if mv.Nothing? then es else es + [CallOf(mv)];
            MessagesIn(OwnEvents(es', p))
            == if mv.Feed? && mv.slot == p then MessagesIn(OwnEvents(es, p)) + [mv.message]
                else MessagesIn(OwnEvents(es, p))
  {
    if !mv.Nothing? {
      OwnMessagesOne(es, CallOf(mv), p);
    }
  }

  /** The messages that a player's slot receives are the input of the player's own requests, up to its departure. */
  lemma {:induction false} SlotHearsItsPlayer(l: Lobby, qs: seq<Request>, g: GameId, roster: seq<Player>, a: Address,
      p: nat)
    requires Inv(l) && AllAllowed(l, qs) && RunningBefore(l, qs, g) && Position(roster, a) == Some(p)
    ensures MessagesIn(OwnEvents(CallsOf(l, qs, g, roster), p)) == InputsBy(a, qs[..Stay(l, qs, g, a)])
    decreases |qs|
  {
    hide Inv, Handle, Allowed, MoveOf, Position, CallOf, MessagesIn, RunningBefore, InGame, OwnEvents;
    if qs == [] {
      NoMessages(p);
    } else {
      var before, q := qs[..|qs| - 1], qs[|qs| - 1];
      var l1 := LobbyAfter(l, before);
      RunningEarlier(l, qs, g);
      SlotHearsItsPlayer(l, before, g, roster, a, p);
      FeedIsOwnInput(l1, q, g, roster, a, p);
      MoveAddsInput(CallsOf(l, before, g, roster), MoveOf(l1, q, g, roster), p);
      if Stay(l, before, g, a) < |before| {
        GoneIsGone(l, before, g, a);
      } else {
        assert before[..|before|] == before && qs[..|qs|] == qs;
      }
      assert qs[..Stay(l, before, g, a)] == before[..Stay(l, before, g, a)];
    }
  }

  lemma NoMessages(p: nat)
    ensures MessagesIn(OwnEvents([], p)) == []
  {
  }
}
