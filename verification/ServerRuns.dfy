/**
 What the server sends over a run: a player of a running game decodes its stream from what the
 game sends its address, exactly when no send loop has stopped before a response of its own.
 */
module ServerRuns {
  import opened Common
  import opened Codec
  import opened LockstepRuns
  import opened CachedGame
  import opened Startup
  import opened Streams
  import opened DelayedRuns
  import opened Rooms
  import opened RoomProofs
  import opened LobbyRuns
  import opened SlotRuns
  import opened GameRuns
  import opened ServerDeliveries

  /** All that game g sends to an address over a run of the server. */
  ghost function SentOver(l: Lobby, qs: seq<Request>, g: GameId, a: Address): seq<Message> {
    if qs == [] then []
    else
      var before := qs[..|qs| - 1];
      SentOver(l, before, g, a) + ToClient(g, a, Deliveries(LobbyAfter(l, before), qs[|qs| - 1]))
  }

  /** The game is running when each request arrives; the last may end it, but not close its room. */
  ghost predicate InPlay(l: Lobby, qs: seq<Request>, g: GameId) {
    && Running(l, g) && g in LobbyAfter(l, qs).games
    && (qs != [] ==> RunningThroughout(l, qs[..|qs| - 1], g))
  }

  lemma InPlayBefore(l: Lobby, qs: seq<Request>, g: GameId)
    requires InPlay(l, qs, g) && qs != []
    ensures InPlay(l, qs[..|qs| - 1], g) && RunningThroughout(l, qs[..|qs| - 1], g)
  {
  }

  /** What a request makes the engine of game g answer; the move is told from the list the game started with. */
  ghost function AnswerAt(l: Lobby, qs: seq<Request>, g: GameId): seq<PlayerResponse>
    requires g in l.games && l.games[g].engine.Some? && qs != []
  {
    var r, before := l.games[g], qs[..|qs| - 1];
    Answer(EngineAfter(r.engine.value, r.players, l, before, g),
           MoveOf(LobbyAfter(l, before), qs[|qs| - 1], g, r.players))
  }

  /** At each request, no send loop of game g has stopped before a response to this slot. */
  ghost predicate UnharmedOver(l: Lobby, qs: seq<Request>, g: GameId, slot: nat)
    requires Running(l, g)
  {
    qs == [] ||
    (var before, r := qs[..|qs| - 1], l.games[g];
     var l1 := LobbyAfter(l, before);
     && UnharmedOver(l, before, g, slot)
     && InRange(AnswerAt(l, qs, g), |r.players|)
     && Unharmed(l1.clients, r.players, MoveOf(l1, qs[|qs| - 1], g, r.players), AnswerAt(l, qs, g), slot))
  }

  lemma AnswersInRange(e: Engine, mv: Move)
    ensures InRange(Answer(e, mv), |Dropped(e)|)
  {
    match mv
    case Nothing =>
    case Feed(slot, m) => FeedInRange(e, slot, m);
    case Lose(slot) =>
      if slot < |Dropped(e)| {
        DropInRange(e, slot);
      }
  }

  /** One request, in terms of the starting list. */
  lemma StepSends(l: Lobby, qs: seq<Request>, g: GameId, a: Address, slot: nat)
    requires Inv(l) && AllAllowed(l, qs) && InPlay(l, qs, g) && qs != []
    requires Position(l.games[g].players, a) == Some(slot)
    ensures var r, l1 := l.games[g], LobbyAfter(l, qs[..|qs| - 1]);
            var mv := MoveOf(l1, qs[|qs| - 1], g, r.players);
            && InRange(AnswerAt(l, qs, g), |r.players|) && (mv.Nothing? ==> AnswerAt(l, qs, g) == [])
            && ToClient(g, a, Deliveries(l1, qs[|qs| - 1]))
               == ResponsesTo(slot, GetsThrough(l1.clients, r.players, mv, AnswerAt(l, qs, g)))
  {
    hide Inv, Handle, Allowed, Apply, MoveOf, Position, Deliveries, ToClient, GetsThrough, ResponsesTo, Dropped;
    var before, q := qs[..|qs| - 1], qs[|qs| - 1];
    var r, l1 := l.games[g], LobbyAfter(l, before);
    InPlayBefore(l, qs, g);
    SlotsStable(l, before, g);
    RunExact(l, before);
    var r1 := l1.games[g];
    SamePositions(r.players, r1.players);
    StepDelivers(l1, q, g, a, slot);
    MoveOfSlots(l1, q, g, r.players, r1.players);
    SameGetsThrough(l1.clients, r.players, r1.players, MoveOf(l1, q, g, r.players), AnswerAt(l, qs, g));
    SlotPerPlayer(l1, g);
    AnswersInRange(r1.engine.value, MoveOf(l1, q, g, r.players));
  }

  lemma SlotPerPlayer(l: Lobby, g: GameId)
    requires Inv(l) && Running(l, g)
    ensures |Dropped(l.games[g].engine.value)| == |l.games[g].players|
  {
    assert RoomOk(l.games[g]);
  }

  /** Leaving marks do not matter to who is reached. */
  lemma SameGetsThrough(clients: map<Address, Client>, before: seq<Player>, after: seq<Player>, mv: Move,
                        rs: seq<PlayerResponse>)
    requires SameSlots(before, after)
    ensures GetsThrough(clients, after, mv, rs) == GetsThrough(clients, before, mv, rs)
  {
    SameReach(clients, before, after, rs);
  }

  lemma {:induction false} SameReach(clients: map<Address, Client>, before: seq<Player>, after: seq<Player>,
                                     rs: seq<PlayerResponse>)
    requires SameSlots(before, after)
    ensures Reach(clients, after, rs) == Reach(clients, before, rs)
    decreases |rs|
  {
    if rs != [] {
      SameReach(clients, before, after, rs[1..]);
    }
  }

  lemma SumsAgree<T>(a: seq<T>, b: seq<T>, c: seq<T>, d: seq<T>)
    requires |a| <= |c| && |b| <= |d| && (|a| == |c| ==> a == c) && (|b| == |d| ==> b == d)
    ensures |a + b| <= |c + d| && (|a + b| == |c + d| ==> a + b == c + d)
    ensures a + b == c + d <==> a == c && b == d
  {
  }

  /**
   A player of the game, also one that has left it, is sent what its slot is answered, exactly when it
   is unharmed.
   */
  lemma {:induction false} SentIsAnsweredExact(l: Lobby, qs: seq<Request>, g: GameId, a: Address, slot: nat)
    requires Inv(l) && AllAllowed(l, qs) && InPlay(l, qs, g) && Position(l.games[g].players, a) == Some(slot)
    ensures var r := l.games[g];
            var sent, all := SentOver(l, qs, g, a),
                ResponsesTo(slot, EngineTranscript(r.engine.value, r.players, l, qs, g));
            && |sent| <= |all| && (|sent| == |all| ==> sent == all)
            && (sent == all <==> UnharmedOver(l, qs, g, slot))
    decreases |qs|
  {
    hide Inv, Handle, Allowed, Apply, MoveOf, Position, Deliveries, Answer, ToClient, GetsThrough, ResponsesTo;
    hide Unharmed;
    var r := l.games[g];
    if qs == [] {
      NothingToNobody(slot);
    } else {
      var before, q := qs[..|qs| - 1], qs[|qs| - 1];
      var l1 := LobbyAfter(l, before);
      var mv := MoveOf(l1, q, g, r.players);
      InPlayBefore(l, qs, g);
      SentIsAnsweredExact(l, before, g, a, slot);
      StepSends(l, qs, g, a, slot);
      GetsThroughExact(l1.clients, r.players, mv, AnswerAt(l, qs, g), slot);
      var earlier := EngineTranscript(r.engine.value, r.players, l, before, g);
      ResponsesToAppend(slot, earlier, AnswerAt(l, qs, g));
      SumsAgree(SentOver(l, before, g, a), ToClient(g, a, Deliveries(l1, q)),
                ResponsesTo(slot, earlier), ResponsesTo(slot, AnswerAt(l, qs, g)));
    }
  }

  lemma SamePositions(before: seq<Player>, after: seq<Player>)
    requires SameSlots(before, after)
    ensures forall a :: Position(after, a) == Position(before, a)
  {
    hide Position;
    forall a ensures Position(after, a) == Position(before, a) {
      PositionStable(before, after, a);
    }
  }

  // ---- when everybody stays ----

  /** Whoever is listed in the game is a client at each request. */
  ghost predicate NobodyGone(l: Lobby, qs: seq<Request>, g: GameId)
    requires Running(l, g)
  {
    qs == [] ||
    (NobodyGone(l, qs[..|qs| - 1], g) && AllHere(LobbyAfter(l, qs[..|qs| - 1]).clients, l.games[g].players))
  }

  lemma HereIsUnharmed(clients: map<Address, Client>, players: seq<Player>, mv: Move, rs: seq<PlayerResponse>,
      slot: nat)
    requires AllHere(clients, players) && InRange(rs, |players|)
    ensures Unharmed(clients, players, mv, rs, slot)
  {
  }

  /** As long as nobody listed has left the server, nothing is lost. */
  lemma {:induction false} NobodyGoneUnharmed(l: Lobby, qs: seq<Request>, g: GameId, a: Address, slot: nat)
    requires Inv(l) && AllAllowed(l, qs) && InPlay(l, qs, g) && Position(l.games[g].players, a) == Some(slot)
    requires NobodyGone(l, qs, g)
    ensures UnharmedOver(l, qs, g, slot)
    decreases |qs|
  {
    hide Inv, Handle, Allowed, MoveOf, Position, Deliveries, Answer, ToClient, GetsThrough, ResponsesTo;
    hide Unharmed, AllHere;
    if qs != [] {
      var before, q, r := qs[..|qs| - 1], qs[|qs| - 1], l.games[g];
      var l1 := LobbyAfter(l, before);
      InPlayBefore(l, qs, g);
      NobodyGoneUnharmed(l, before, g, a, slot);
      StepSends(l, qs, g, a, slot);
      HereIsUnharmed(l1.clients, r.players, MoveOf(l1, q, g, r.players), AnswerAt(l, qs, g), slot);
    }
  }

  // ---- end to end ----

  /** What the engine of game g hears from its players over a run of the server. */
  ghost function HeardOver(players: nat, l: Lobby, qs: seq<Request>, g: GameId): seq<Event>
    requires g in l.games
  {
    HeardFrom(players, CallsOf(l, qs, g, l.games[g].players)).events
  }

  /**
   From l on, the requests qs play the game g that has just been started with these delays and warm-ups;
   a is in slot p.
   */
  ghost predicate Played(delays: seq<nat>, warmups: seq<nat>, disabled: bool, l: Lobby, qs: seq<Request>, g: GameId,
                         a: Address, p: nat) {
    && Sized(delays, warmups) && p < |delays|
    && JustStarted(l, g, delays, warmups, disabled) && InPlay(l, qs, g)
    && Position(l.games[g].players, a) == Some(p)
    && WarmupsInTurn(delays, warmups, HeardOver(|delays|, l, qs, g), p)
  }

  lemma DecodedCount(rule: PushRule, cache: Cache, ms: seq<Message>)
    requires DecodeAll(rule, cache, ms).Some?
    ensures |DecodeAll(rule, cache, ms).value.blocks| == |ms|
  {
  }

  /**
   End to end through the server, with the output cache or without, up to and including the
   request that ends the game, amid any other requests and whatever the clients send: a player
   decodes, from all the game sends its address, its warm-up blocks and then the batches of the
   combined rows of what the game's players are heard to send, exactly when no send loop has
   stopped before a response of its own.
   */
  lemma ServerEndToEnd(delays: seq<nat>, warmups: seq<nat>, disabled: bool, l: Lobby, qs: seq<Request>, g: GameId,
                       a: Address, p: nat, rule: PushRule)
    requires Inv(l) && AllAllowed(l, qs) && Played(delays, warmups, disabled, l, qs, g, a, p)
    ensures var decoded := DecodeAll(rule, [], SentOver(l, qs, g, a));
            decoded.Some? && decoded.value.blocks == Shape(delays, warmups, HeardOver(|delays|, l, qs, g), p)
            <==> UnharmedOver(l, qs, g, p)
  {
    hide Inv, AllAllowed, CallsOf, WarmupsInTurn, Position, UnharmedOver, InPlay, ResponsesTo, DecodeAll;
    var r := l.games[g];
    var all := ResponsesTo(p, EngineTranscript(r.engine.value, r.players, l, qs, g));
    SentIsAnsweredExact(l, qs, g, a, p);
    GameIsAStack(delays, warmups, disabled, r.engine.value, r.players, l, qs, g);
    DelayedEndToEnd(delays, warmups, disabled, CallsOf(l, qs, g, r.players), p, rule);
    DecodedCount(rule, [], all);
    if DecodeAll(rule, [], SentOver(l, qs, g, a)).Some? {
      DecodedCount(rule, [], SentOver(l, qs, g, a));
    }
  }
}
