/**
 The whole server: clients, rooms and engines. Every request keeps the room invariant, with the
 two requests that can break it characterised exactly, and while a game runs its slots stay put.
 */
module LobbyRuns {
  import opened Common
  import opened Codec
  import opened Rooms
  import opened RoomProofs

  /** A client's game is g exactly when it is a member of g that has not left. */
  ghost predicate MembersAgree(l: Lobby) {
    forall g, a, u | g in l.games ::
      Present(l.games[g].players, a, u)
      <==> a in l.clients && l.clients[a].gameId == Some(g) && l.clients[a].userId == u
  }

  ghost predicate NoStaleGames(l: Lobby) {
    forall a <- l.clients :: l.clients[a].gameId.Some? ==> l.clients[a].gameId.value in l.games
  }

  ghost predicate UniqueIds(l: Lobby) {
    forall a, b | a in l.clients && b in l.clients :: l.clients[a].userId == l.clients[b].userId ==> a == b
  }

  ghost predicate UniqueNames(l: Lobby) {
    forall a, b | a in l.clients && b in l.clients :: l.clients[a].username == l.clients[b].username ==> a == b
  }

  ghost predicate RoomsOk(l: Lobby) {
    forall g <- l.games :: RoomOk(l.games[g]) && g < l.nextGameId
  }

  ghost predicate Inv(l: Lobby) {
    RoomsOk(l) && MembersAgree(l) && NoStaleGames(l) && UniqueIds(l) && UniqueNames(l)
  }

  predicate InGame(l: Lobby, a: Address, g: GameId) {
    a in l.clients && l.clients[a].gameId == Some(g)
  }

  /** The client is the only member of a room whose game is not running. */
  predicate AloneInWaitingRoom(l: Lobby, a: Address) {
    && GameOf(l, a).Some?
    && l.games[GameOf(l, a).value].engine.None?
    && |l.games[GameOf(l, a).value].players| == 1
  }

  /** This client is there and is not evicted by a login under the given name. */
  ghost predicate Stays(l: Lobby, a: Address, username: Username, orphanFirst: bool) {
    a in l.clients && Namesake(l, username, orphanFirst) != Some(a)
  }

  /**
   Which requests keep the invariant: all but one kind of kick, and logins that replace another
   client which is in a game, that are given a 16-bit user id still in use, or whose search by
   name hits an orphan and misses a client of that name.
   */
  ghost predicate Allowed(l: Lobby, q: Request) {
    match q
    case LoginRequest(addr, username, connType, alive, orphanFirst) =>
      Admitted(l, username, connType, alive, orphanFirst) ==>
        && (Stays(l, addr, username, orphanFirst) ==> l.clients[addr].gameId.None?)
        && forall b <- l.clients :: b != addr && Stays(l, b, username, orphanFirst) ==>
             l.clients[b].userId != l.nextUserId && l.clients[b].username != username
    case KickRequest(addr, userId) =>
      !(addr in l.clients && l.clients[addr].userId == userId && AloneInWaitingRoom(l, addr))
    case _ => true
  }

  lemma EmptyLobbyOk()
    ensures Inv(EMPTY_LOBBY)
  {
  }

  // ---- resolving ----

  lemma MemberHasSlot(l: Lobby, a: Address, g: GameId)
    requires Inv(l) && InGame(l, a, g)
    ensures g in l.games
    ensures var players := l.games[g].players;
            var at := Position(players, a);
            at.Some? && !players[at.value].leftRoom && players[at.value].userId == l.clients[a].userId
  {
    assert Present(l.games[g].players, a, l.clients[a].userId);
    PresentPosition(l.games[g].players, a, l.clients[a].userId);
  }

  /**
   Input is routed exactly when its sender is in a game, to the sender's own live-listed slot, which the
   engine has.
   */
  lemma ResolveIsOwnSlot(l: Lobby, a: Address)
    requires Inv(l)
    ensures ResolveInGame(l, a).Some? <==> a in l.clients && l.clients[a].gameId.Some?
    ensures ResolveInGame(l, a).Some? ==>
              var (g, slot) := ResolveInGame(l, a).value;
              var r := l.games[g];
              && InGame(l, a, g) && r.players[slot].addr == a && !r.players[slot].leftRoom
              && r.players[slot].userId == l.clients[a].userId
              && (r.engine.Some? ==> slot < |Dropped(r.engine.value)|)
  {
    if a in l.clients && l.clients[a].gameId.Some? {
      var g := l.clients[a].gameId.value;
      MemberHasSlot(l, a, g);
      assert RoomOk(l.games[g]);
    }
  }

  // ---- one room changes ----

  lemma RoomChanges(l: Lobby, g: GameId, after: RoomAfter)
    requires Inv(l) && g in l.games && after.Open? && Outcome(l.games[g], after)
    ensures Inv(SetRoom(l, g, after))
  {
    hide RoomOk, Present;
    var l' := SetRoom(l, g, after);
    forall h, a, u | h in l'.games
      ensures Present(l'.games[h].players, a, u)
              <==> a in l'.clients && l'.clients[a].gameId == Some(h) && l'.clients[a].userId == u
    {
      assert Present(l.games[h].players, a, u)
             <==> a in l.clients && l.clients[a].gameId == Some(h) && l.clients[a].userId == u;
    }
  }

  lemma MemberLeaves(l: Lobby, a: Address, g: GameId, after: RoomAfter)
    requires Inv(l) && InGame(l, a, g) && g in l.games && LeaverGone(l.games[g], after, a)
    ensures Inv(SetRoom(SetGame(l, a, None), g, after))
  {
    hide RoomOk, Present;
    var l' := SetRoom(SetGame(l, a, None), g, after);
    forall h, b, u | h in l'.games
      ensures Present(l'.games[h].players, b, u)
              <==> b in l'.clients && l'.clients[b].gameId == Some(h) && l'.clients[b].userId == u
    {
      assert Present(l.games[h].players, b, u)
             <==> b in l.clients && l.clients[b].gameId == Some(h) && l.clients[b].userId == u;
    }
    forall b | b in l'.clients && l'.clients[b].gameId.Some? ensures l'.clients[b].gameId.value in l'.games {
      if l'.clients[b].gameId == Some(g) {
        assert Present(l.games[g].players, b, l.clients[b].userId);
      }
    }
  }

  lemma MemberEnters(l: Lobby, a: Address, g: GameId, r: Room)
    requires Inv(l) && a in l.clients && l.clients[a].gameId.None? && g < l.nextGameId && RoomOk(r)
    requires forall b, u ::
               Present(r.players, b, u)
               <==> (g in l.games && Present(l.games[g].players, b, u)) || (b == a && u == l.clients[a].userId)
    requires g !in l.games ==> forall b <- l.clients :: l.clients[b].gameId != Some(g)
    ensures Inv(SetGame(SetRoom(l, g, Open(r)), a, Some(g)))
  {
    hide RoomOk, Present;
    var l' := SetGame(SetRoom(l, g, Open(r)), a, Some(g));
    forall h, b, u | h in l'.games
      ensures Present(l'.games[h].players, b, u)
              <==> b in l'.clients && l'.clients[b].gameId == Some(h) && l'.clients[b].userId == u
    {
      if h in l.games {
        assert Present(l.games[h].players, b, u)
               <==> b in l.clients && l.clients[b].gameId == Some(h) && l.clients[b].userId == u;
      }
    }
  }

  // ---- each request ----

  lemma CreateStep(l: Lobby, addr: Address)
    requires Inv(l)
    ensures Inv(CreateGame(l, addr))
  {
    ResolveIsOwnSlot(l, addr);
    if ResolveInGame(l, addr).None? {
      var g := l.nextGameId;
      var l1 := l.(nextGameId := g + 1);
      assert Inv(l1) by {
        hide RoomOk, Present;
        assert forall h <- l1.games :: RoomOk(l.games[h]) && h < g;
      }
      if addr in l.clients {
        NewRoomOk(addr, l.clients[addr]);
        MemberEnters(l1, addr, g, NewRoom(addr, l.clients[addr]));
        assert CreateGame(l, addr) == SetGame(SetRoom(l1, g, Open(NewRoom(addr, l.clients[addr]))), addr, Some(g));
      }
    }
  }

  lemma JoinStep(l: Lobby, addr: Address, g: GameId)
    requires Inv(l)
    ensures Inv(JoinGame(l, addr, g))
  {
    if addr in l.clients && l.clients[addr].gameId.None? && g in l.games && JoinGame(l, addr, g) != l {
      var r, c := l.games[g], l.clients[addr];
      assert RoomOk(r);
      if Position(r.players, addr).Some? {
        var at := Position(r.players, addr).value;
        assert Present(r.players, addr, r.players[at].userId);
      }
      JoinKeepsRoom(r, addr, c);
      MemberEnters(l, addr, g, JoinRoom(r, addr, c));
    }
  }

  lemma QuitStep(l: Lobby, addr: Address)
    requires Inv(l)
    ensures Inv(QuitGame(l, addr))
    ensures addr in QuitGame(l, addr).clients ==> QuitGame(l, addr).clients[addr].gameId.None?
  {
    hide RoomOk, Present, QuitRoom;
    if GameOf(l, addr).Some? {
      var g := GameOf(l, addr).value;
      MemberHasSlot(l, addr, g);
      QuitKeepsRoom(l.games[g], addr);
      MemberLeaves(l, addr, g, QuitRoom(l.games[g], addr));
    }
  }

  lemma UserQuitStep(l: Lobby, addr: Address)
    requires Inv(l)
    ensures Inv(UserQuit(l, addr))
  {
    hide RoomOk, Present, QuitGame;
    QuitStep(l, addr);
    var l1 := QuitGame(l, addr);
    var l' := UserQuit(l, addr);
    forall g, a, u | g in l'.games
      ensures Present(l'.games[g].players, a, u)
              <==> a in l'.clients && l'.clients[a].gameId == Some(g) && l'.clients[a].userId == u
    {
      assert Present(l1.games[g].players, a, u)
             <==> a in l1.clients && l1.clients[a].gameId == Some(g) && l1.clients[a].userId == u;
    }
  }

  lemma RegisterStep(l: Lobby, addr: Address, username: Username)
    requires Inv(l) && (addr in l.clients ==> l.clients[addr].gameId.None?)
    requires forall b <- l.clients :: b != addr ==>
               l.clients[b].userId != l.nextUserId && l.clients[b].username != username
    ensures Inv(Register(l, addr, username))
  {
    hide RoomOk, Present;
    var l' := Register(l, addr, username);
    forall g, a, u | g in l'.games
      ensures Present(l'.games[g].players, a, u)
              <==> a in l'.clients && l'.clients[a].gameId == Some(g) && l'.clients[a].userId == u
    {
      assert Present(l.games[g].players, a, u)
             <==> a in l.clients && l.clients[a].gameId == Some(g) && l.clients[a].userId == u;
    }
  }

  /** Taking the place of a client that is in a game, or a user id or a name in use, breaks it. */
  lemma RegisterBreaks(l: Lobby, addr: Address, username: Username)
    requires Inv(l)
    requires (addr in l.clients && l.clients[addr].gameId.Some?)
             || exists b :: b in l.clients && b != addr
                            && (l.clients[b].userId == l.nextUserId || l.clients[b].username == username)
    ensures !Inv(Register(l, addr, username))
  {
    hide RoomOk, Present;
    var l' := Register(l, addr, username);
    if addr in l.clients && l.clients[addr].gameId.Some? {
      var g := l.clients[addr].gameId.value;
      assert Present(l.games[g].players, addr, l.clients[addr].userId);
      assert Present(l'.games[g].players, addr, l.clients[addr].userId) && l'.clients[addr].gameId != Some(g);
    } else {
      var b :| b in l.clients && b != addr
               && (l.clients[b].userId == l.nextUserId || l.clients[b].username == username);
      assert l'.clients[b] == l.clients[b] && l'.clients[addr].username == username;
    }
  }

  /** Eviction removes the client that the search finds, and no other. */
  lemma EvictStep(l: Lobby, username: Username, orphanFirst: bool)
    requires Inv(l)
    ensures var l1 := Evict(l, username, orphanFirst);
            && Inv(l1) && l1.nextUserId == l.nextUserId
            && (forall a :: a in l1.clients <==> Stays(l, a, username, orphanFirst))
            && (forall a <- l1.clients :: l1.clients[a] == l.clients[a])
  {
    hide RoomsOk, MembersAgree, NoStaleGames, UniqueIds, UniqueNames, QuitRoom;
    var other := Namesake(l, username, orphanFirst);
    if other.Some? {
      UserQuitStep(l, other.value);
    }
  }

  /** A login keeps the invariant exactly when it is an allowed one. */
  lemma LoginStep(l: Lobby, addr: Address, username: Username, connType: nat, alive: bool, orphanFirst: bool)
    requires Inv(l)
    ensures Inv(Login(l, addr, username, connType, alive, orphanFirst))
            <==> Allowed(l, LoginRequest(addr, username, connType, alive, orphanFirst))
  {
    hide Inv, ClientNamed, Namesake, Register, Evict;
    if Admitted(l, username, connType, alive, orphanFirst) {
      var l1 := Evict(l, username, orphanFirst);
      EvictStep(l, username, orphanFirst);
      if Allowed(l, LoginRequest(addr, username, connType, alive, orphanFirst)) {
        RegisterStep(l1, addr, username);
      } else {
        RegisterBreaks(l1, addr, username);
      }
    }
  }

  lemma DropStep(l: Lobby, addr: Address)
    requires Inv(l)
    ensures Inv(DropGame(l, addr))
  {
    hide RoomOk, Present, DropFromRoom;
    if ResolveInGame(l, addr).Some? {
      var g := ResolveInGame(l, addr).value.0;
      DropKeepsRoom(l.games[g], addr);
      RoomChanges(l, g, DropFromRoom(l.games[g], addr));
    }
  }

  lemma StartStep(l: Lobby, addr: Address, warmupOf: nat -> nat, disableOutputCache: bool)
    requires Inv(l)
    ensures Inv(StartGame(l, addr, warmupOf, disableOutputCache))
  {
    hide RoomOk, Present, StartRoom;
    if ResolveInGame(l, addr).Some? {
      var g := ResolveInGame(l, addr).value.0;
      if l.games[g].engine.None? {
        StartKeepsRoom(l.games[g], warmupOf, disableOutputCache);
        RoomChanges(l, g, Open(StartRoom(l.games[g], warmupOf, disableOutputCache)));
      }
    }
  }

  lemma InputStep(l: Lobby, addr: Address, m: Message)
    requires Inv(l)
    ensures Inv(GameInput(l, addr, m))
  {
    hide FeedSlot;
    if ResolveInGame(l, addr).Some? {
      var (g, slot) := ResolveInGame(l, addr).value;
      var r := l.games[g];
      assert RoomOk(r);
      if r.engine.Some? && slot < |Dropped(r.engine.value)| {
        var fed := r.(engine := Some(FeedSlot(r.engine.value, slot, m)));
        FedRoomOk(r, slot, m);
        RoomChanges(l, g, Open(fed));
      }
    }
  }

  lemma FedRoomOk(r: Room, slot: nat, m: Message)
    requires RoomOk(r) && r.engine.Some? && slot < |Dropped(r.engine.value)|
    ensures Outcome(r, Open(r.(engine := Some(FeedSlot(r.engine.value, slot, m)))))
  {
    hide InRoom, FeedSlot;
    var e := FeedSlot(r.engine.value, slot, m);
    assert Dropped(e) == Dropped(r.engine.value);
  }

  /** The one kick that breaks it leaves a room with nobody in it. */
  lemma KickStep(l: Lobby, addr: Address, userId: UserId)
    requires Inv(l)
    ensures Inv(KickUser(l, addr, userId)) <==> Allowed(l, KickRequest(addr, userId))
  {
    hide RoomOk, Present, KickFromRoom, Position;
    var at := TargetOf(l, userId);
    if at.Some? && MayKick(l, addr, at.value) {
      var target := at.value;
      var g := ResolveInGame(l, addr).value.0;
      var r := l.games[g];
      MemberHasSlot(l, target, g);
      KickKeepsRoom(r, target);
      if r.engine.None? && |r.players| == 1 {
        MemberHasSlot(l, addr, g);
        assert target == r.players[0].addr == addr;
        NobodyIsNotOk(KickFromRoom(r, target).room);
        assert KickUser(l, addr, userId).games[g] == KickFromRoom(r, target).room;
      } else {
        MemberLeaves(l, target, g, KickFromRoom(r, target));
      }
    } else if addr in l.clients && l.clients[addr].userId == userId && AloneInWaitingRoom(l, addr) {
      var g := GameOf(l, addr).value;
      assert at.value == addr;
      MemberHasSlot(l, addr, g);
      SoleMemberOwns(l.games[g], addr);
    }
  }

  lemma NobodyIsNotOk(r: Room)
    requires r.players == []
    ensures !RoomOk(r)
  {
  }

  lemma SoleMemberOwns(r: Room, a: Address)
    requires RoomOk(r) && |r.players| == 1 && Position(r.players, a).Some?
    ensures r.players[0].userId == r.ownerUserId
  {
  }

  /** Exactly the allowed requests keep the invariant. */
  lemma HandleExact(l: Lobby, q: Request)
    requires Inv(l)
    ensures Inv(Handle(l, q)) <==> Allowed(l, q)
  {
    hide Inv;
    match q
    case LoginRequest(addr, username, connType, alive, orphanFirst) =>
      LoginStep(l, addr, username, connType, alive, orphanFirst);
    case CreateRequest(addr) => CreateStep(l, addr);
    case JoinRequest(addr, g) => JoinStep(l, addr, g);
    case QuitRequest(addr) => QuitStep(l, addr);
    case DropRequest(addr) => DropStep(l, addr);
    case StartRequest(addr, warmupOf, disabled) => StartStep(l, addr, warmupOf, disabled);
    case KickRequest(addr, userId) => KickStep(l, addr, userId);
    case UserQuitRequest(addr) => UserQuitStep(l, addr);
    case InputRequest(addr, m) => InputStep(l, addr, m);
  }

  // ---- runs ----

  ghost function LobbyAfter(l: Lobby, qs: seq<Request>): Lobby {
    if qs == [] then l else Handle(LobbyAfter(l, qs[..|qs| - 1]), qs[|qs| - 1])
  }

  ghost predicate AllAllowed(l: Lobby, qs: seq<Request>) {
    qs != [] ==>
      AllAllowed(l, qs[..|qs| - 1]) && Allowed(LobbyAfter(l, qs[..|qs| - 1]), qs[|qs| - 1])
  }

  ghost predicate InvThroughout(l: Lobby, qs: seq<Request>) {
    && Inv(LobbyAfter(l, qs))
    && (qs != [] ==> InvThroughout(l, qs[..|qs| - 1]))
  }

  /** A run keeps the invariant throughout exactly when each of its requests is an allowed one. */
  lemma {:induction false} RunExact(l: Lobby, qs: seq<Request>)
    requires Inv(l)
    ensures InvThroughout(l, qs) <==> AllAllowed(l, qs)
  {
    hide Inv, Handle;
    if qs != [] {
      RunExact(l, qs[..|qs| - 1]);
      if AllAllowed(l, qs[..|qs| - 1]) {
        assert Inv(LobbyAfter(l, qs[..|qs| - 1]));
        HandleExact(LobbyAfter(l, qs[..|qs| - 1]), qs[|qs| - 1]);
      }
    }
  }

  /** Every state the server reaches from start-up by allowed requests satisfies the invariant. */
  lemma ReachableStatesAreSound(qs: seq<Request>)
    requires AllAllowed(EMPTY_LOBBY, qs)
    ensures Inv(LobbyAfter(EMPTY_LOBBY, qs))
  {
    EmptyLobbyOk();
    RunExact(EMPTY_LOBBY, qs);
  }

  // ---- two requests that break it, in a state reached from start-up ----

  ghost function FirstLogin(addr: Address, username: Username): Lobby {
    Login(EMPTY_LOBBY, addr, username, 1, false, false)
  }

  /** The first client to log in has created a game. */
  ghost function OneGame(addr: Address, username: Username): Lobby {
    CreateGame(FirstLogin(addr, username), addr)
  }

  lemma OneGameState(addr: Address, username: Username)
    ensures var c := Client(1, username, 1, Some(1));
            OneGame(addr, username)
            == Lobby(map[addr := c], map[1 := Room(1, 1, 4, Waiting, None, [Player(addr, 1, 1, false)])], 2, 2, {})
  {
    var l := FirstLogin(addr, username);
    assert l.clients == map[addr := Client(1, username, 1, None)];
    assert OneGame(addr, username).clients == map[addr := Client(1, username, 1, Some(1))];
  }

  lemma OneGameOk(addr: Address, username: Username)
    ensures Inv(OneGame(addr, username))
  {
    hide Inv;
    EmptyLobbyOk();
    LoginStep(EMPTY_LOBBY, addr, username, 1, false, false);
    CreateStep(FirstLogin(addr, username), addr);
  }

  /** The owner, alone in its waiting room, kicks itself: the room stays listed with nobody in it. */
  lemma SelfKickBreaks(addr: Address, username: Username)
    ensures Inv(OneGame(addr, username)) && !Inv(KickUser(OneGame(addr, username), addr, 1))
    ensures var l := KickUser(OneGame(addr, username), addr, 1); 1 in l.games && l.games[1].players == []
  {
    hide Inv;
    var l := OneGame(addr, username);
    OneGameState(addr, username);
    OneGameOk(addr, username);
    KickStep(l, addr, 1);
    assert TargetOf(l, 1) == Some(addr);
  }

  /** The same address logs in under another name: the room keeps a member that is no longer a client of it. */
  lemma SecondLoginBreaks(addr: Address, username: Username, another: Username)
    requires another != username
    ensures var l := Login(OneGame(addr, username), addr, another, 1, false, false);
            && Inv(OneGame(addr, username)) && !Inv(l)
            && l.clients[addr].gameId.None? && 1 in l.games && l.games[1].players[0].addr == addr
  {
    hide Inv;
    var l := OneGame(addr, username);
    OneGameState(addr, username);
    OneGameOk(addr, username);
    assert ClientNamed(l, another).None?;
    LoginStep(l, addr, another, 1, false, false);
  }

  /** Two addresses, the first logged in twice and the second under the name that this left behind. */
  ghost function Orphaned(a: Address, b: Address, first: Username, second: Username): Lobby {
    Login(Login(FirstLogin(a, first), a, second, 1, false, false), b, first, 1, false, false)
  }

  lemma OrphanedState(a: Address, b: Address, first: Username, second: Username)
    requires a != b && first != second
    ensures Orphaned(a, b, first, second)
            == Lobby(map[a := Client(2, second, 1, None), b := Client(3, first, 1, None)], map[], 1, 4, {first})
    ensures Inv(Orphaned(a, b, first, second))
  {
    var l1 := FirstLogin(a, first);
    assert l1.clients == map[a := Client(1, first, 1, None)];
    assert ClientNamed(l1, second).None?;
    var l2 := Login(l1, a, second, 1, false, false);
    assert l2.clients == map[a := Client(2, second, 1, None)];
    assert ClientNamed(l2, first).None?;
  }

  /** Then a third login under that name, if its search hits the orphan first, gives two clients one name. */
  lemma OrphanHidesClient(a: Address, b: Address, c: Address, first: Username, second: Username)
    requires a != b && b != c && a != c && first != second
    ensures var l := Orphaned(a, b, first, second);
            var l' := Login(l, c, first, 1, true, true);
            && Inv(l) && !Inv(l')
            && b in l'.clients && c in l'.clients && l'.clients[b].username == l'.clients[c].username
  {
    OrphanedState(a, b, first, second);
    var l := Orphaned(a, b, first, second);
    assert Namesake(l, first, true).None?;
    var l' := Login(l, c, first, 1, true, true);
    assert l'.clients[b].username == l'.clients[c].username && b != c;
  }
}
