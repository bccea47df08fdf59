/**
 A run over the network from start-up: one client logs in, creates a game, starts it and sends a
 byte. Two of its four datagrams are lost, and still it decodes its own byte.
 */
module NetworkExample {
  import opened Common
  import opened Packets
  import opened SessionRuns
  import opened Network
  import opened NetworkRuns
  import opened Codec
  import opened Rooms
  import opened LobbyRuns
  import opened ServerRuns
  import opened ServerExamples
  import opened Reading
  import opened RequestFormats

  /** Login, create, start, input. */
  function Script(username: Username): seq<Payload> {
    [Write(ToLogIn(username, [], 1)), Write(ToCreate([])), Write(ToStart), Write(ToPlay(GameData([7])))]
  }

  function Scripted(a: Address, username: Username): Histories {
    map[a := Script(username)]
  }

  /** Datagrams 1 and 2 are lost; datagram 3 carries their messages again. */
  function Lossy(a: Address): seq<Arrival> {
    [Arrival(a, 0), Arrival(a, 3)]
  }

  /** Nobody else is there, no warm-up, and the output cache is on. */
  ghost function Plain(): Circumstances {
    (a: Address, k: nat) => Circumstance(false, false, NoWarmup, false)
  }

  predicate Acceptable(username: Username) {
    NoNul(username) && |username| <= MAX_USERNAME
  }

  // ---- the network ----

  lemma LossyArrivals(a: Address)
    ensures OwnArrivals(Lossy(a), a) == [0, 3] && Received([0, 3]) == {0, 1, 2, 3}
  {
    var arrivals := Lossy(a);
    assert arrivals[..1] == [Arrival(a, 0)] && arrivals[..1][..0] == [];
    assert OwnArrivals(arrivals[..1], a) == [0];
    assert [0, 3][..1] == [0] && [0][..0] == [];
    assert Received([0]) == {0};
  }

  lemma LossyIsTimely(username: Username)
    ensures var h := Script(username); AllSent(h, [0, 3]) && AllTimely(h, [0, 3])
  {
    var h := Script(username);
    assert [0, 3][..1] == [0] && [0][..0] == [];
    assert AllTimely(h, []) && AllTimely(h, [0]);
    ReceiverIsASet(h, [0]);
  }

  lemma LossyIsDelivered(a: Address, username: Username)
    requires Acceptable(username)
    ensures Delivered(Scripted(a, username), Lossy(a))
  {
    LossyArrivals(a);
    LossyIsTimely(username);
  }

  lemma DeliveredMeans(histories: Histories, arrivals: seq<Arrival>, a: Address)
    requires Delivered(histories, arrivals) && a in histories
    ensures Possible(histories, arrivals) && AllHistoriesPrintable(histories) && TimelyFor(histories, arrivals, a)
  {
  }

  /** All four messages are handled, in the order sent. */
  lemma EverythingIsHandled(a: Address, username: Username)
    requires Acceptable(username)
    ensures var histories := Scripted(a, username);
            Possible(histories, Lossy(a))
            && SessionsAfter(histories, Lossy(a)).log == HandledFrom(a, WirePrefix(Script(username), 4))
  {
    hide Received, OwnArrivals, SessionsAfter, WirePrefix, HandledFor, HandledFrom, Delivered, Write;
    var histories := Scripted(a, username);
    LossyIsDelivered(a, username);
    DeliveredMeans(histories, Lossy(a), a);
    HandledIsAPrefix(histories, Lossy(a), a);
    LossyArrivals(a);
    HandledAreClients(histories, Lossy(a));
    OnlyOneClient(a, SessionsAfter(histories, Lossy(a)).log);
  }

  lemma {:induction false} OnlyOneClient(a: Address, log: seq<Handled>)
    requires forall i | 0 <= i < |log| :: log[i].addr == a
    ensures log == HandledFrom(a, HandledFor(a, log))
    decreases |log|
  {
    if log != [] {
      OnlyOneClient(a, log[..|log| - 1]);
    }
  }

  // ---- the requests ----

  lemma ScriptIsRead(a: Address, username: Username, k: nat)
    requires Acceptable(username)
    ensures var h, c := Script(username), Plain()(a, k);
            && Read(c, a, WireMessage(h, 0)) == Some(LoginRequest(a, username, 1, false, false))
            && Read(c, a, WireMessage(h, 1)) == Some(CreateRequest(a))
            && Read(c, a, WireMessage(h, 2)) == Some(StartRequest(a, NoWarmup, false))
            && Read(c, a, WireMessage(h, 3)) == Some(InputRequest(a, GameData([7])))
  {
    hide Read, Write;
    var h, c := Script(username), Plain()(a, k);
    RequestRoundTrip(c, a, ToLogIn(username, [], 1), [], WireMessage(h, 0));
    RequestRoundTrip(c, a, ToCreate([]), [], WireMessage(h, 1));
    RequestRoundTrip(c, a, ToStart, [], WireMessage(h, 2));
    RequestRoundTrip(c, a, ToPlay(GameData([7])), [], WireMessage(h, 3));
  }

  lemma RequestsOne(env: Circumstances, log: seq<Handled>, x: Handled, q: Request)
    requires forall k: nat :: Read(env(x.addr, k), x.addr, x.message) == Some(q)
    ensures Requests(env, log + [x]) == Requests(env, log) + [q]
  {
    hide Read;
    assert (log + [x])[..|log + [x]| - 1] == log;
  }

  lemma ScriptRequests(a: Address, username: Username)
    requires Acceptable(username)
    ensures var log := HandledFrom(a, WirePrefix(Script(username), 4));
            var starting := [LoginRequest(a, username, 1, false, false), CreateRequest(a),
                StartRequest(a, NoWarmup, false)];
            && Requests(Plain(), log[..3]) == starting
            && RequestsAfter(Plain(), log, 3) == [InputRequest(a, GameData([7]))]
  {
    hide Read, Requests;
    var h, env := Script(username), Plain();
    var log := HandledFrom(a, WirePrefix(h, 4));
    forall k: nat
      ensures Read(env(a, k), a, WireMessage(h, 0)) == Some(LoginRequest(a, username, 1, false, false))
      ensures Read(env(a, k), a, WireMessage(h, 1)) == Some(CreateRequest(a))
      ensures Read(env(a, k), a, WireMessage(h, 2)) == Some(StartRequest(a, NoWarmup, false))
      ensures Read(env(a, k), a, WireMessage(h, 3)) == Some(InputRequest(a, GameData([7])))
    {
      ScriptIsRead(a, username, k);
    }
    assert log[..0] == [] && log[..1] == log[..0] + [log[0]] && log[..2] == log[..1] + [log[1]];
    assert log[..3] == log[..2] + [log[2]] && log == log[..3] + [log[3]];
    NoRequests(env);
    RequestsOne(env, log[..0], log[0], LoginRequest(a, username, 1, false, false));
    RequestsOne(env, log[..1], log[1], CreateRequest(a));
    RequestsOne(env, log[..2], log[2], StartRequest(a, NoWarmup, false));
    RequestsOne(env, log[..3], log[3], InputRequest(a, GameData([7])));
  }

  lemma NoRequests(env: Circumstances)
    ensures Requests(env, []) == []
  {
  }

  lemma StartingUp(a: Address, username: Username)
    ensures var qs := [LoginRequest(a, username, 1, false, false), CreateRequest(a), StartRequest(a, NoWarmup, false)];
            LobbyAfter(EMPTY_LOBBY, qs) == OneStarted(a, username) && AllAllowed(EMPTY_LOBBY, qs)
  {
    hide Handle, Allowed;
    var qs := [LoginRequest(a, username, 1, false, false), CreateRequest(a), StartRequest(a, NoWarmup, false)];
    var one, two := qs[..1], qs[..2];
    assert qs[..2] == two && two[..1] == one && one[..0] == [];
    OneRequest(EMPTY_LOBBY, qs[0]);
    assert one == [qs[0]];
    FirstStepsAllowed(a, username);
  }

  lemma FirstStepsAllowed(a: Address, username: Username)
    ensures var first := LoginRequest(a, username, 1, false, false);
            && Allowed(EMPTY_LOBBY, first) && Handle(EMPTY_LOBBY, first) == FirstLogin(a, username)
            && Allowed(FirstLogin(a, username), CreateRequest(a))
            && Handle(FirstLogin(a, username), CreateRequest(a)) == OneGame(a, username)
            && Allowed(OneGame(a, username), StartRequest(a, NoWarmup, false))
            && Handle(OneGame(a, username), StartRequest(a, NoWarmup, false)) == OneStarted(a, username)
  {
    hide CreateGame, StartGame, Login;
  }

  // ---- the run ----

  /** The run meets every condition of the end-to-end theorem, and the client is sent its own byte back. */
  lemma LossyEcho(a: Address, username: Username, rule: PushRule)
    requires Acceptable(username)
    ensures var histories, env := Scripted(a, username), Plain();
            && Delivered(histories, Lossy(a))
            && var log := SessionsAfter(histories, Lossy(a)).log;
               && |log| == 4 && AllAllowed(EMPTY_LOBBY, Requests(env, log))
               && var l, qs := LobbyAfter(EMPTY_LOBBY, Requests(env, log[..3])), RequestsAfter(env, log, 3);
                  && Played([1], [0], false, l, qs, 1, a, 0)
                  && var decoded := DecodeAll(rule, [], SentOver(l, qs, 1, a));
                     decoded.Some? && decoded.value.blocks == [[7]]
  {
    hide SessionsAfter, Requests, RequestsAfter, LobbyAfter, AllAllowed, Played, SentOver, DecodeAll, OneStarted, Read;
    hide Delivered, Inv, Allowed, Handle;
    var histories, env := Scripted(a, username), Plain();
    LossyIsDelivered(a, username);
    EverythingIsHandled(a, username);
    ScriptRequests(a, username);
    StartingUp(a, username);
    OnePacketPlayed(a, username);
    OnePacketEchoed(a, username, rule);
    var log := SessionsAfter(histories, Lossy(a)).log;
    SplitAt(env, log, 3);
    LobbyAfterAppend(EMPTY_LOBBY, Requests(env, log[..3]), RequestsAfter(env, log, 3));
    OneRequest(OneStarted(a, username), InputRequest(a, GameData([7])));
    InputIsAllowed(OneStarted(a, username), a);
  }
}
