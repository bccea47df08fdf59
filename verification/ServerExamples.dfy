/**
 Two runs of the server from start-up: one packet that comes back, and a departure that starves the
 player who stays.
 */
module ServerExamples {
  import opened Common
  import opened Codec
  import opened Lockstep
  import opened LockstepRuns
  import opened CachedGame
  import opened Startup
  import opened Streams
  import opened DelayedGame
  import opened DelayedRuns
  import opened Rooms
  import opened RoomProofs
  import opened LobbyRuns
  import opened SlotRuns
  import opened GameRuns
  import opened ServerDeliveries
  import opened ServerRuns

  // ---- one packet ----

  function NoWarmup(slot: nat): nat {
    0
  }

  /** The owner alone starts its game without warm-up ... */
  ghost function OneStarted(a: Address, username: Username): Lobby {
    StartGame(OneGame(a, username), a, NoWarmup, false)
  }

  lemma DelaysOfAll(players: seq<Player>, delays: seq<ConnType>, zeros: seq<nat>)
    requires |delays| == |zeros| == |players|
    requires forall i | 0 <= i < |players| :: players[i].connType == delays[i] && zeros[i] == 0
    ensures DelaysOf(players) == delays && WarmupsOf(players, NoWarmup) == zeros
  {
    forall i | 0 <= i < |players| ensures WarmupsOf(players, NoWarmup)[i] == 0 {
      assert NoWarmup(i) == 0;
    }
  }

  lemma OneStartedGame(a: Address, username: Username)
    ensures var l := OneStarted(a, username);
            && Inv(l) && InGame(l, a, 1) && JustStarted(l, 1, [1], [0], false)
            && l.games[1].players == [Player(a, 1, 1, false)]
  {
    hide Inv;
    var l := OneGame(a, username);
    OneGameState(a, username);
    OneGameOk(a, username);
    assert ResolveInGame(l, a) == Some((1, 0));
    StartStarts(l, a, NoWarmup, false);
    StartStep(l, a, NoWarmup, false);
    DelaysOfAll(l.games[1].players, [1], [0]);
  }

  lemma OneRequest(l: Lobby, q: Request)
    ensures LobbyAfter(l, [q]) == Handle(l, q) && LobbyAfter(l, []) == l
    ensures AllAllowed(l, [q]) <==> Allowed(l, q)
  {
    hide Handle, Allowed;
    assert [q][..0] == [];
    assert AllAllowed(l, []);
  }

  lemma OnePacketInPlay(l: Lobby, a: Address)
    requires Inv(l) && Running(l, 1) && InGame(l, a, 1)
    ensures InPlay(l, [InputRequest(a, GameData([7]))], 1)
  {
    hide Inv, GameInput, Running;
    var q := InputRequest(a, GameData([7]));
    assert [q][..0] == [];
    OneRequest(l, q);
    assert RunningThroughout(l, [], 1);
    InputStillRunning(l, a);
  }

  lemma InputStillRunning(l: Lobby, a: Address)
    requires Inv(l) && Running(l, 1) && InGame(l, a, 1)
    ensures 1 in GameInput(l, a, GameData([7])).games
  {
    hide Inv, GameInput, MoveOf;
    InputMoves(l, a, GameData([7]), 1);
  }

  lemma OnePacketCalls(l: Lobby, a: Address, roster: seq<Player>)
    requires InGame(l, a, 1) && Position(roster, a) == Some(0)
    ensures CallsOf(l, [InputRequest(a, GameData([7]))], 1, roster) == [Receive(0, GameData([7]))]
  {
    var q := InputRequest(a, GameData([7]));
    assert [q][..0] == [];
    assert CallsOf(l, [], 1, roster) == [] && LobbyAfter(l, []) == l;
    assert MoveOf(l, q, 1, roster) == Feed(0, GameData([7]));
  }

  lemma OnePacketHeard()
    ensures HeardFrom(1, [Receive(0, GameData([7]))]).events == [Input(0, [7])]
  {
    assert [Receive(0, GameData([7]))][..0] == [];
  }

  lemma OnePacketHistory()
    ensures Project([Input(0, [7])], 0) == [Sends([7])]
  {
    assert [Input(0, [7])][..0] == [];
  }

  lemma OnePacketInTurn()
    ensures WarmupsInTurn([1], [0], [Input(0, [7])], 0)
  {
    hide WarmupsInTurn, QuietInWarmup;
    OnePacketHistory();
    LiveIsQuiet([Sends([7])], 0);
    QuietIsInTurn([1], [0], [Input(0, [7])], 0);
  }

  /** ... and sends one byte. */
  lemma OnePacketPlayed(a: Address, username: Username)
    ensures var l, qs := OneStarted(a, username), [InputRequest(a, GameData([7]))];
            Played([1], [0], false, l, qs, 1, a, 0) && HeardOver(1, l, qs, 1) == [Input(0, [7])] && NobodyGone(l, qs, 1)
  {
    hide Inv, InPlay, CallsOf, WarmupsInTurn, OneStarted;
    var l := OneStarted(a, username);
    OneStartedGame(a, username);
    OnePacketInPlay(l, a);
    OnePacketCalls(l, a, l.games[1].players);
    OnePacketHeard();
    OnePacketInTurn();
    assert [InputRequest(a, GameData([7]))][..0] == [];
    assert NobodyGone(l, [], 1) && LobbyAfter(l, []) == l;
  }

  /** It is sent its own byte back. */
  lemma OnePacketEchoed(a: Address, username: Username, rule: PushRule)
    ensures var decoded := DecodeAll(rule, [],
        SentOver(OneStarted(a, username), [InputRequest(a, GameData([7]))], 1, a));
            decoded.Some? && decoded.value.blocks == [[7]]
  {
    hide Inv, Handle, Played, SentOver, Allowed, HeardOver, NobodyGone, OneStarted, DecodeAll;
    var l, qs := OneStarted(a, username), [InputRequest(a, GameData([7]))];
    OneStartedGame(a, username);
    OnePacketPlayed(a, username);
    OneRequest(l, qs[0]);
    InputIsAllowed(l, a);
    PlayedBasics([1], [0], false, l, qs, 1, a, 0);
    NobodyGoneUnharmed(l, qs, 1, a, 0);
    ServerEndToEnd([1], [0], false, l, qs, 1, a, 0, rule);
    OnePacketShape();
  }

  lemma InputIsAllowed(l: Lobby, a: Address)
    ensures Allowed(l, InputRequest(a, GameData([7])))
  {
  }

  lemma PlayedBasics(delays: seq<nat>, warmups: seq<nat>, disabled: bool, l: Lobby, qs: seq<Request>, g: GameId,
                     a: Address, p: nat)
    requires Played(delays, warmups, disabled, l, qs, g, a, p)
    ensures InPlay(l, qs, g) && Position(l.games[g].players, a) == Some(p)
  {
  }

  /** One live player at delay 1 whose one frame is the byte 7. */
  lemma OnePacketGame()
    ensures var g := StartupRun([1], [0], [Input(0, [7])]).game;
            g.frames == [[[7]]] && g.dropped == [false] && g.delays == [1]
  {
    hide OnSchedule;
    var events: seq<Event> := [Input(0, [7])];
    assert events[..0] == [] && Project(events, 0) == [Sends([7])];
    EveryoneOnSchedule([1], [0], events, 0);
    OnePacketOnSchedule(StartupRun([1], [0], events));
  }

  lemma OnePacketCounts()
    ensures LivePackets([Sends([7])]) == [[7]] && FramesOfAll(Released([[7]], 0), 1) == [[7]]
  {
    OwnSnoc([], Sends([7]));
    assert [] + [Sends([7])] == [Sends([7])] && [] + [[7]] == [[7]];
    FramesOfAllOne([], [7], 1);
    assert Released([[7]], 0) == [[7]] && FramesIn([7], 1) == [[7]];
  }

  lemma OnePacketOnSchedule(s: Startup)
    requires s.Valid() && |s.game.frames| == |s.game.dropped| == |s.queues| == 1
    requires s.game.delays == [1] && s.warmups == [0]
    requires OnSchedule(s, 0, [Sends([7])])
    ensures s.game.frames == [[[7]]] && s.game.dropped == [false]
  {
    hide LivePackets, FramesOfAll, Released, PacketCount, Startup.Valid;
    OnePacketCounts();
    assert s.game.frames[0] == [[7]] && !s.game.dropped[0];
  }

  lemma OneBatch(g: Game)
    requires g.Valid() && g.frames == [[[7]]] && g.dropped == [false] && g.delays == [1]
    ensures g.Rows() == 1 && g.Batches(1, 1) == [[7]]
  {
    RowsClosedForm(g);
    assert g.IsLive(0);
    BatchCount(g, 1, 1);
    BatchAt(g, 1, 1, 0);
    assert g.RowRange(0, 1) == g.Row(0) == [[7]];
    FlattenOne([7]);
  }

  lemma OnePacketShape()
    ensures Shape([1], [0], [Input(0, [7])], 0) == [[7]]
  {
    hide StartupRun, Game.Batches, Game.Rows;
    var events: seq<Event> := [Input(0, [7])];
    OnePacketGame();
    OneBatch(StartupRun([1], [0], events).game);
    WarmupBlockCount(1, 0, events, 0);
  }

  // ---- a departure ----

  /** Two clients in one game without warm-up, a in slot 0 and b in slot 1. */
  ghost function TwoWaiting(a: Address, b: Address, first: Username, second: Username): Lobby {
    JoinGame(CreateGame(Login(FirstLogin(a, first), b, second, 1, false, false), a), b, 1)
  }

  ghost function TwoStarted(a: Address, b: Address, first: Username, second: Username): Lobby {
    StartGame(TwoWaiting(a, b, first, second), a, NoWarmup, false)
  }

  lemma TwoWaitingState(a: Address, b: Address, first: Username, second: Username)
    requires a != b && first != second
    ensures var l := TwoWaiting(a, b, first, second);
            && l.clients == map[a := Client(1, first, 1, Some(1)), b := Client(2, second, 1, Some(1))]
            && l.games == map[1 := Room(1, 2, 4, Waiting, None, [Player(a, 1, 1, false), Player(b, 2, 1, false)])]
  {
    var l1 := FirstLogin(a, first);
    assert l1.clients == map[a := Client(1, first, 1, None)];
    assert ClientNamed(l1, second).None?;
    var l2 := Login(l1, b, second, 1, false, false);
    assert l2.clients == map[a := Client(1, first, 1, None), b := Client(2, second, 1, None)];
    var l3 := CreateGame(l2, a);
    assert l3.clients == map[a := Client(1, first, 1, Some(1)), b := Client(2, second, 1, None)];
    assert l3.games == map[1 := NewRoom(a, l2.clients[a])];
    var r := l3.games[1];
    assert Position(r.players, b).None? && AsU8(1 + 1) == 2;
    assert r.players + [Player(b, 2, 1, false)] == [Player(a, 1, 1, false), Player(b, 2, 1, false)];
    assert JoinRoom(r, b, l3.clients[b])
        == Room(1, 2, 4, Waiting, None, [Player(a, 1, 1, false), Player(b, 2, 1, false)]);
  }

  lemma TwoWaitingOk(a: Address, b: Address, first: Username, second: Username)
    requires a != b && first != second
    ensures Inv(TwoWaiting(a, b, first, second))
  {
    hide Inv;
    var l1 := FirstLogin(a, first);
    EmptyLobbyOk();
    LoginStep(EMPTY_LOBBY, a, first, 1, false, false);
    assert l1.clients == map[a := Client(1, first, 1, None)];
    LoginStep(l1, b, second, 1, false, false);
    var l2 := Login(l1, b, second, 1, false, false);
    CreateStep(l2, a);
    JoinStep(CreateGame(l2, a), b, 1);
  }

  lemma TwoStartedGame(a: Address, b: Address, first: Username, second: Username)
    requires a != b && first != second
    ensures var l := TwoStarted(a, b, first, second);
            && Inv(l) && InGame(l, a, 1) && InGame(l, b, 1) && JustStarted(l, 1, [1, 1], [0, 0], false)
            && l.games[1].players == [Player(a, 1, 1, false), Player(b, 2, 1, false)]
  {
    hide Inv, TwoWaiting;
    var l := TwoWaiting(a, b, first, second);
    TwoWaitingState(a, b, first, second);
    TwoWaitingOk(a, b, first, second);
    assert ResolveInGame(l, a) == Some((1, 0));
    StartStarts(l, a, NoWarmup, false);
    StartStep(l, a, NoWarmup, false);
    DelaysOfAll(l.games[1].players, [1, 1], [0, 0]);
  }

  /** With slot 0 dropped, one packet from slot 1 makes one row, which is sent to both slots in order. */
  lemma RowForBoth()
    ensures var s := StartupRun([1, 1], [0, 0], [Drop(0)]);
            var raw := StartupAfter(s, Input(1, [7])).raw;
            |raw| == 2 && raw[0].player == 0 && raw[1].player == 1
  {
    assert [Drop(0)][..0] == [];
    var g := Game([[], []], [true, false], [1, 1], 0);
    var s0 := NewStartup([1, 1], [0, 0]);
    var s := StartupRun([1, 1], [0, 0], [Drop(0)]);
    assert s == StartupAfter(s0, Drop(0)).state;
    assert s.game == g && s.queues == [[], []] && s.warmupSent == [0, 0];
    RowOfGame(g);
  }

  lemma RowOfGame(g: Game)
    requires g == Game([[], []], [true, false], [1, 1], 0)
    ensures g.Valid()
    ensures var g' := AfterInput(g, 1, [7]);
            Extends(g, g') && |Sent(g, g')| == 2 && Sent(g, g')[0].player == 0 && Sent(g, g')[1].player == 1
  {
    var g' := AfterInput(g, 1, [7]);
    EventsExtend(g, Input(1, [7]));
    assert FramesIn([7], 1) == [[7]];
    var none: seq<Bytes> := [];
    assert none + [[7]] == [[7]] && g'.frames == [none, none][1 := [[7]]];
    assert g'.frames == [[], [[7]]] && g'.dropped == [true, false] && g'.delays == [1, 1];
    assert g.frames[1..] == [[]] && g.dropped[1..] == [false] && g.Rows() == 0;
    assert g'.frames[1..] == [[[7]]] && g'.dropped[1..] == [false] && g'.Rows() == 1;
    var batches := g'.BatchesOfRow(1, 2);
    assert |batches[0]| == 1 && |batches[1]| == 1;
    var nothing: seq<seq<Bytes>> := [];
    assert batches[..1][..0] == nothing && AddressEach(nothing) == [];
    assert AddressEach(batches[..1]) == AddressTo(0, batches[0]);
    assert AddressEach(batches) == AddressTo(0, batches[0]) + AddressTo(1, batches[1]);
    assert g'.Emitted(0, 0) == [];
  }

  const DEPARTURE_CALLS: seq<CachedEvent> := [Leave(0), Receive(1, GameData([7]))]

  lemma DepartureAnswers()
    ensures var d := DelayedRun([1, 1], [0, 0], false, [Leave(0)]);
            var rs := Responses(DelayedAfter(d, Receive(1, GameData([7]))).result);
            |rs| == 2 && rs[0].player == 0 && rs[1].player == 1
  {
    hide DelayedAfter, StartupAfter;
    var d := DelayedRun([1, 1], [0, 0], false, [Leave(0)]);
    DelayedRunIsHeard([1, 1], [0, 0], false, [Leave(0)], 0);
    assert [Leave(0)][..0] == [];
    assert HeardFrom(2, [Leave(0)]).events == [Drop(0)];
    StepAddresses(d, Receive(1, GameData([7])));
    RowForBoth();
  }

  /** The requests: the player in slot 0 leaves the server, the other sends a packet. */
  function Departure(a: Address, b: Address): seq<Request> {
    [UserQuitRequest(a), InputRequest(b, GameData([7]))]
  }

  lemma AfterDeparture(a: Address, b: Address, first: Username, second: Username)
    requires a != b && first != second
    ensures var l := TwoStarted(a, b, first, second);
            var l1 := UserQuit(l, a);
            && a !in l1.clients && InGame(l1, b, 1) && Inv(l1) && Running(l1, 1)
  {
    hide Inv, TwoStarted, DropSlot;
    var l := TwoStarted(a, b, first, second);
    TwoStartedGame(a, b, first, second);
    UserQuitStep(l, a);
    var r := l.games[1];
    assert GameOf(l, a) == Some(1);
    assert Position(r.players, a) == Some(0) && Position(r.players[1..], b) == Some(0);
    var left := LeaveRoom(r, a);
    assert left.engine == r.engine && left.status == r.status;
    DepartureKeepsPlaying(l, a, b);
  }

  lemma DepartureKeepsPlaying(l: Lobby, a: Address, b: Address)
    requires a != b && Inv(l) && InGame(l, a, 1) && JustStarted(l, 1, [1, 1], [0, 0], false)
    requires l.games[1].players == [Player(a, 1, 1, false), Player(b, 2, 1, false)]
    ensures Running(UserQuit(l, a), 1)
  {
    hide LeaveRoom, DropFromRoom, Position;
    RunningIsPlaying(l);
    LeaverIsMarked(l.games[1], a, b);
    assert Dropped(l.games[1].engine.value) == [false, false];
    OtherStaysLive(LeaveRoom(l.games[1], a), a, b);
  }

  lemma LeaverIsMarked(r: Room, a: Address, b: Address)
    requires a != b && r.engine.Some? && r.players == [Player(a, 1, 1, false), Player(b, 2, 1, false)]
    ensures var left := LeaveRoom(r, a);
            && left.players == [Player(a, 1, 1, true), Player(b, 2, 1, false)]
            && left.engine == r.engine && left.status == r.status
  {
    hide MigrateOwner, InRoom, AsU8;
    assert Position(r.players, a) == Some(0);
    var marked := MarkLeft(r.players, a);
    assert marked == [Player(a, 1, 1, true), Player(b, 2, 1, false)];
    MigrateOwnerFinds(r.(players := marked, numPlayers := AsU8(|InRoom(marked)|)));
  }

  lemma OtherStaysLive(r: Room, a: Address, b: Address)
    requires r.engine.Some? && Dropped(r.engine.value) == [false, false]
    requires r.players == [Player(a, 1, 1, true), Player(b, 2, 1, false)]
    ensures DropFromRoom(r, a).Open? && DropFromRoom(r, a).room.engine.Some?
  {
    hide EndGame, DelayedDrop, DropResponses;
    assert Position(r.players, a) == Some(0);
    assert !Dropped(DropSlot(r.engine.value, 0))[1];
  }

  lemma RunningIsPlaying(l: Lobby)
    requires Inv(l) && Running(l, 1)
    ensures l.games[1].status == Playing
  {
    assert RoomOk(l.games[1]);
  }

  lemma DepartureAllowed(l: Lobby, a: Address, b: Address)
    ensures AllAllowed(l, Departure(a, b))
    ensures Departure(a, b)[..1] == [UserQuitRequest(a)] && LobbyAfter(l, Departure(a, b)[..1]) == UserQuit(l, a)
  {
    var qs := Departure(a, b);
    assert qs[..1] == [UserQuitRequest(a)];
    OneRequest(l, UserQuitRequest(a));
  }

  lemma DepartureInPlay(a: Address, b: Address, first: Username, second: Username)
    requires a != b && first != second
    ensures InPlay(TwoStarted(a, b, first, second), Departure(a, b), 1)
  {
    hide Inv, TwoStarted, UserQuit, GameInput, Running;
    var l := TwoStarted(a, b, first, second);
    TwoStartedGame(a, b, first, second);
    AfterDeparture(a, b, first, second);
    DepartureAllowed(l, a, b);
    assert [UserQuitRequest(a)][..0] == [];
    StartedIsRunning(l);
    assert RunningThroughout(l, [], 1) && RunningThroughout(l, [UserQuitRequest(a)], 1);
    InputStillRunning(UserQuit(l, a), b);
    assert LobbyAfter(l, Departure(a, b)) == GameInput(UserQuit(l, a), b, GameData([7]));
  }

  lemma StartedIsRunning(l: Lobby)
    requires JustStarted(l, 1, [1, 1], [0, 0], false)
    ensures Running(l, 1)
  {
  }

  lemma DepartureMoves(a: Address, b: Address, first: Username, second: Username)
    requires a != b && first != second
    ensures var l := TwoStarted(a, b, first, second);
            var roster := l.games[1].players;
            && 1 in l.games && Position(roster, a) == Some(0) && Position(roster, b) == Some(1)
            && MoveOf(l, UserQuitRequest(a), 1, roster) == Lose(0)
            && MoveOf(UserQuit(l, a), InputRequest(b, GameData([7])), 1, roster) == Feed(1, GameData([7]))
            && CallsOf(l, Departure(a, b), 1, roster) == DEPARTURE_CALLS
  {
    hide Inv, TwoStarted, UserQuit;
    var l := TwoStarted(a, b, first, second);
    TwoStartedGame(a, b, first, second);
    AfterDeparture(a, b, first, second);
    DepartureAllowed(l, a, b);
    var roster := l.games[1].players;
    assert roster[1..] == [Player(b, 2, 1, false)];
    assert Position(roster, a) == Some(0) && Position(roster, b) == Some(1);
    assert [UserQuitRequest(a)][..0] == [];
    assert CallsOf(l, [], 1, roster) == [] && LobbyAfter(l, []) == l;
    assert CallsOf(l, [UserQuitRequest(a)], 1, roster) == [Leave(0)];
  }

  lemma DepartureAnswerAt(a: Address, b: Address, first: Username, second: Username)
    requires a != b && first != second
    ensures var l := TwoStarted(a, b, first, second);
            && Running(l, 1)
            && var rs := AnswerAt(l, Departure(a, b), 1);
               |rs| == 2 && rs[0].player == 0 && rs[1].player == 1
  {
    hide Inv, TwoStarted, UserQuit, MoveOf, Apply, DelayedAfter, DelayedRun;
    var l := TwoStarted(a, b, first, second);
    TwoStartedGame(a, b, first, second);
    StartedIsRunning(l);
    DepartureMoves(a, b, first, second);
    DepartureAllowed(l, a, b);
    var r := l.games[1];
    GameIsAStack([1, 1], [0, 0], false, r.engine.value, r.players, l, [UserQuitRequest(a)], 1);
    assert [UserQuitRequest(a)][..0] == [];
    assert CallsOf(l, [], 1, r.players) == [];
    assert CallsOf(l, [UserQuitRequest(a)], 1, r.players) == [Leave(0)];
    MoveIsCall(EngineAfter(r.engine.value, r.players, l, [UserQuitRequest(a)], 1), Feed(1, GameData([7])));
    DepartureAnswers();
  }

  /** The engine answers b, but the send loop stops at a, and nothing is sent to b. */
  lemma DepartureStarves(a: Address, b: Address, first: Username, second: Username)
    requires a != b && first != second
    ensures var l, qs := TwoStarted(a, b, first, second), Departure(a, b);
            && Inv(l) && AllAllowed(l, qs) && InPlay(l, qs, 1)
            && InGame(LobbyAfter(l, qs[..1]), b, 1)
            && ResponsesTo(1, AnswerAt(l, qs, 1)) != []
            && ToClient(1, b, Deliveries(LobbyAfter(l, qs[..1]), qs[1])) == []
            && !UnharmedOver(l, qs, 1, 1)
  {
    hide Inv, TwoStarted, UserQuit, MoveOf, AnswerAt, Deliveries, ToClient, InPlay, AllAllowed, LobbyAfter;
    var l, qs := TwoStarted(a, b, first, second), Departure(a, b);
    TwoStartedGame(a, b, first, second);
    AfterDeparture(a, b, first, second);
    DepartureAllowed(l, a, b);
    DepartureInPlay(a, b, first, second);
    DepartureMoves(a, b, first, second);
    DepartureAnswerAt(a, b, first, second);
    var rs := AnswerAt(l, qs, 1);
    StepSends(l, qs, 1, b, 1);
    NothingToNobody(1);
    NoneToSlot(1, rs);
    assert Reach(UserQuit(l, a).clients, l.games[1].players, rs) == [];
  }
}
