/**
 What one request sends: the engine's answers, addressed by slot, up to where the send loop stops.
 */
module ServerDeliveries {
  import opened Common
  import opened Codec
  import opened CachedGame
  import opened DelayedGame
  import opened Rooms
  import opened RoomProofs
  import opened LobbyRuns
  import opened SlotRuns
  import opened GameRuns

  /** What game g sends to an address. */
  function ToClient(g: GameId, a: Address, ds: seq<Delivery>): seq<Message> {
    if ds == [] then []
    else
      var last := ds[|ds| - 1];
      ToClient(g, a, ds[..|ds| - 1]) + (if last.game == g && last.addr == a then [last.response] else [])
  }

  ghost predicate InRange(rs: seq<PlayerResponse>, players: nat) {
    forall i | 0 <= i < |rs| :: rs[i].player < players
  }

  lemma OtherGamesSend(g: GameId, h: GameId, players: seq<Player>, rs: seq<PlayerResponse>, a: Address)
    requires g != h
    ensures ToClient(g, a, Targeted(h, players, rs)) == []
  {
    NothingFor(g, a, Targeted(h, players, rs));
  }

  lemma {:induction false} NothingFor(g: GameId, a: Address, ds: seq<Delivery>)
    requires forall i | 0 <= i < |ds| :: ds[i].game != g
    ensures ToClient(g, a, ds) == []
  {
    if ds != [] {
      NothingFor(g, a, ds[..|ds| - 1]);
    }
  }

  lemma TargetedOne(g: GameId, players: seq<Player>, rs: seq<PlayerResponse>, a: Address, slot: nat)
    requires Distinct(players) && Position(players, a) == Some(slot) && InRange(rs, |players|) && rs != []
    ensures var before, last := rs[..|rs| - 1], rs[|rs| - 1];
            ToClient(g, a, Targeted(g, players, rs))
            == ToClient(g, a, Targeted(g, players, before)) + (if last.player == slot then [last.response] else [])
  {
    hide Position;
    var last := rs[|rs| - 1];
    assert Targeted(g, players, rs)[..|rs| - 1] == Targeted(g, players, rs[..|rs| - 1]);
    PositionUnique(players, last.player);
  }

  /** An address listed once is sent exactly its slot's responses. */
  lemma {:induction false} TargetedTo(g: GameId, players: seq<Player>, rs: seq<PlayerResponse>, a: Address, slot: nat)
    requires Distinct(players) && Position(players, a) == Some(slot) && InRange(rs, |players|)
    ensures ToClient(g, a, Targeted(g, players, rs)) == ResponsesTo(slot, rs)
    decreases |rs|
  {
    hide Position, Distinct;
    if rs == [] {
      assert Targeted(g, players, rs) == [];
    } else {
      hide ToClient, Targeted;
      TargetedTo(g, players, rs[..|rs| - 1], a, slot);
      TargetedOne(g, players, rs, a, slot);
    }
  }

  lemma DropInRange(e: Engine, slot: nat)
    requires slot < |Dropped(e)|
    ensures InRange(DropResponses(e, slot), |Dropped(e)|)
  {
    DropEncodes(e, slot);
  }

  lemma FeedInRange(e: Engine, slot: nat, m: Message)
    ensures InRange(FeedResponses(e, slot, m), |Dropped(e)|)
  {
    hide EncodeOutputs;
    if slot < |e.queues| {
      match Decode(PushAlways, e.inputCaches[slot], m)
      case None =>
      case Some(r) => AcceptEncodes(e.(inputCaches := e.inputCaches[slot := r.cache]), slot, r.bytes);
    }
  }

  // ---- where sending stops ----

  /** The responses sent before the first one addressed to somebody who is no longer a client. */
  function Reach(clients: map<Address, Client>, players: seq<Player>, rs: seq<PlayerResponse>)
    : (reached: seq<PlayerResponse>)
    ensures reached <= rs
  {
    if rs == [] || rs[0].player >= |players| || players[rs[0].player].addr !in clients then []
    else [rs[0]] + Reach(clients, players, rs[1..])
  }

  lemma TargetedCons(g: GameId, players: seq<Player>, first: PlayerResponse, rest: seq<PlayerResponse>)
    requires first.player < |players| && InRange(rest, |players|)
    ensures InRange([first] + rest, |players|)
    ensures Targeted(g, players, [first] + rest)
         == [Delivery(g, players[first.player].addr, first.response)] + Targeted(g, players, rest)
  {
  }

  lemma {:induction false} SendLoopReaches(clients: map<Address, Client>, g: GameId, players: seq<Player>,
                                           rs: seq<PlayerResponse>)
    requires InRange(rs, |players|)
    ensures InRange(Reach(clients, players, rs), |players|)
    ensures SendLoop(clients, Targeted(g, players, rs)) == Targeted(g, players, Reach(clients, players, rs))
    decreases |rs|
  {
    if rs != [] {
      hide Targeted;
      var first, rest := rs[0], rs[1..];
      SendLoopReaches(clients, g, players, rest);
      assert rs == [first] + rest;
      TargetedCons(g, players, first, rest);
      if players[first.player].addr in clients {
        TargetedCons(g, players, first, Reach(clients, players, rest));
      } else {
        TargetedNone(g, players);
      }
    } else {
      TargetedNone(g, players);
    }
  }

  lemma TargetedNone(g: GameId, players: seq<Player>)
    ensures Targeted(g, players, []) == []
  {
  }

  lemma {:induction false} EverybodyReached(clients: map<Address, Client>, players: seq<Player>,
      rs: seq<PlayerResponse>)
    requires AllHere(clients, players) && InRange(rs, |players|)
    ensures Reach(clients, players, rs) == rs
    decreases |rs|
  {
    if rs != [] {
      EverybodyReached(clients, players, rs[1..]);
    }
  }

  /** What is sent of the answer rs to a move: for a message up to the stop, for a drop all or nothing. */
  function GetsThrough(clients: map<Address, Client>, players: seq<Player>, mv: Move, rs: seq<PlayerResponse>)
    : (sent: seq<PlayerResponse>)
    ensures sent <= rs
  {
    match mv
    case Nothing => []
    case Feed(_, _) => Reach(clients, players, rs)
    case Lose(_) => if AllHere(clients, players) then rs else []
  }

  lemma NothingGetsThrough(clients: map<Address, Client>, players: seq<Player>, e: Engine, slot: nat)
    ensures ResponsesTo(slot, GetsThrough(clients, players, Nothing, Answer(e, Nothing))) == []
  {
  }

  // ---- one request's deliveries ----

  lemma DropDelivers(clients: map<Address, Client>, g: GameId, r: Room, leaver: Address, a: Address, slot: nat)
    requires WellFormed(r) && r.engine.Some? && Position(r.players, leaver).Some?
    requires Position(r.players, a) == Some(slot)
    ensures var mv := LoseAt(r.players, leaver);
            ToClient(g, a, DropDeliveries(clients, g, r, leaver))
            == if DropFromRoom(r, leaver).Closed? then []
               else ResponsesTo(slot, GetsThrough(clients, r.players, mv, Answer(r.engine.value, mv)))
  {
    hide Position, DropFromRoom, ToClient, Targeted, InRoom, DropResponses, SendLoop, Reach;
    var e, at := r.engine.value, Position(r.players, leaver).value;
    var rs := DropResponses(e, at);
    DropInRange(e, at);
    SendLoopReaches(clients, g, r.players, rs);
    TargetedTo(g, r.players, rs, a, slot);
    if AllHere(clients, r.players) {
      EverybodyReached(clients, r.players, rs);
    }
    NothingFor(g, a, []);
    NothingToNobody(slot);
  }

  lemma NothingToNobody(slot: nat)
    ensures ResponsesTo(slot, []) == []
  {
  }

  lemma LeaveDelivers(clients: map<Address, Client>, g: GameId, r: Room, leaver: Address, a: Address, slot: nat)
    requires RoomOk(r) && r.engine.Some? && Position(r.players, leaver).Some? && Position(r.players, a) == Some(slot)
    ensures var left, mv := LeaveRoom(r, leaver), LoseAt(r.players, leaver);
            ToClient(g, a, DropDeliveries(clients, g, left, leaver))
            == if DropFromRoom(left, leaver).Closed? then []
               else ResponsesTo(slot, GetsThrough(clients, r.players, mv, Answer(r.engine.value, mv)))
  {
    hide Position, DropFromRoom, ToClient, DropDeliveries, LeaveRoom, Answer;
    var left := LeaveRoom(r, leaver);
    LeavePlayingRoom(r, leaver);
    LeaveDeparts(r, leaver);
    LeaveKeepsAddresses(r, leaver);
    PositionStable(r.players, left.players, a);
    SameAddressesHere(clients, r.players, left.players);
    DropDelivers(clients, g, left, leaver, a, slot);
  }

  lemma SameAddressesHere(clients: map<Address, Client>, before: seq<Player>, after: seq<Player>)
    requires |before| == |after| && forall i | 0 <= i < |before| :: before[i].addr == after[i].addr
    ensures AllHere(clients, before) <==> AllHere(clients, after)
  {
  }

  lemma LeaveKeepsAddresses(r: Room, leaver: Address)
    requires RoomOk(r) && r.engine.Some?
    ensures var left := LeaveRoom(r, leaver);
            |left.players| == |r.players| && forall i | 0 <= i < |r.players| ::
                left.players[i].addr == r.players[i].addr
  {
    hide InRoom, Position, MarkLeft, MigrateOwner;
    MarkLeftShape(r.players, leaver);
    MigrateOwnerFinds(r.(players := MarkLeft(r.players, leaver),
        numPlayers := AsU8(|InRoom(MarkLeft(r.players, leaver))|)));
  }

  lemma QuitDelivers(l: Lobby, leaver: Address, g: GameId, a: Address, slot: nat)
    requires Inv(l) && Running(l, g) && Position(l.games[g].players, a) == Some(slot)
    ensures var r, mv := l.games[g], LoseAt(l.games[g].players, leaver);
            ToClient(g, a, QuitDeliveries(l, leaver))
            == if !InGame(l, leaver, g) || DropFromRoom(LeaveRoom(r, leaver), leaver).Closed? then []
               else ResponsesTo(slot, GetsThrough(l.clients, r.players, mv, Answer(r.engine.value, mv)))
  {
    hide RoomOk, Present, Position, DropFromRoom, LeaveRoom, DropDeliveries, ToClient, Answer, GetsThrough;
    var r := l.games[g];
    NothingFor(g, a, []);
    if InGame(l, leaver, g) {
      MemberHasSlot(l, leaver, g);
      LeaveDelivers(l.clients, g, r, leaver, a, slot);
    } else if GameOf(l, leaver).Some? {
      var h := GameOf(l, leaver).value;
      ElsewhereDrops(l.clients, h, g, LeaveRoom(l.games[h], leaver), leaver, a);
    }
  }

  lemma ElsewhereDrops(clients: map<Address, Client>, h: GameId, g: GameId, r: Room, leaver: Address, a: Address)
    requires h != g
    ensures ToClient(g, a, DropDeliveries(clients, h, r, leaver)) == []
  {
    hide ToClient, DropDeliveries;
    forall d | d in DropDeliveries(clients, h, r, leaver)
      ensures d.game == h
    {
      DropReachesListed(clients, h, r, leaver, d);
    }
    NothingFor(g, a, DropDeliveries(clients, h, r, leaver));
  }

  lemma InputDelivers(l: Lobby, sender: Address, m: Message, g: GameId, a: Address, slot: nat)
    requires Inv(l) && Running(l, g) && Position(l.games[g].players, a) == Some(slot)
    ensures var r := l.games[g];
            var mv := MoveOf(l, InputRequest(sender, m), g, r.players);
            ToClient(g, a, InputDeliveries(l, sender, m))
            == ResponsesTo(slot, GetsThrough(l.clients, r.players, mv, Answer(r.engine.value, mv)))
  {
    hide RoomOk, Present, Position, ToClient, Targeted, FeedResponses, SendLoop, Reach;
    var r := l.games[g];
    NothingFor(g, a, []);
    NothingToNobody(slot);
    ResolveIsOwnSlot(l, sender);
    if InGame(l, sender, g) {
      MemberHasSlot(l, sender, g);
      var at := Position(r.players, sender).value;
      var rs := FeedResponses(r.engine.value, at, m);
      RoomOkIsWellFormed(r);
      FeedInRange(r.engine.value, at, m);
      SendLoopReaches(l.clients, g, r.players, rs);
      TargetedTo(g, r.players, Reach(l.clients, r.players, rs), a, slot);
    } else {
      InputElsewhere(l, sender, m, g, a);
    }
  }

  lemma InputElsewhere(l: Lobby, sender: Address, m: Message, g: GameId, a: Address)
    requires !InGame(l, sender, g)
    ensures ToClient(g, a, InputDeliveries(l, sender, m)) == []
  {
    hide ToClient, Targeted, Position, FeedResponses;
    NothingFor(g, a, []);
    if InputDeliveries(l, sender, m) != [] {
      var (h, at) := ResolveInGame(l, sender).value;
      var rs := FeedResponses(l.games[h].engine.value, at, m);
      SendLoopSends(l.clients, Targeted(h, l.games[h].players, rs));
      forall d | d in InputDeliveries(l, sender, m)
        ensures d.game == h
      {
        TargetedAreListed(h, l.games[h].players, rs, d);
      }
      NothingFor(g, a, InputDeliveries(l, sender, m));
    }
  }

  /**
   A request sends a listed player what gets through of its own game's answers to its slot, unless it
   closes the room.
   */
  lemma StepDelivers(l: Lobby, q: Request, g: GameId, a: Address, slot: nat)
    requires Inv(l) && Running(l, g) && Position(l.games[g].players, a) == Some(slot)
    ensures var r := l.games[g];
            var mv := MoveOf(l, q, g, r.players);
            ToClient(g, a, Deliveries(l, q))
            == if g in Handle(l, q).games
               then ResponsesTo(slot, GetsThrough(l.clients, r.players, mv, Answer(r.engine.value, mv)))
               else []
  {
    hide RoomOk, Present, Position, DropFromRoom, LeaveRoom, DropDeliveries, QuitDeliveries, InputDeliveries, ToClient;
    hide Answer, StartRoom, FeedSlot, GetsThrough, ResponsesTo, JoinRoom;
    var r := l.games[g];
    NothingGetsThrough(l.clients, r.players, r.engine.value, slot);
    NothingFor(g, a, []);
    match q
    case LoginRequest(_, username, connType, alive, orphanFirst) =>
      var other := Namesake(l, username, orphanFirst);
      if Admitted(l, username, connType, alive, orphanFirst) && other.Some? {
        QuitDelivers(l, other.value, g, a, slot);
      }
    case QuitRequest(leaver) => QuitDelivers(l, leaver, g, a, slot);
    case UserQuitRequest(leaver) => QuitDelivers(l, leaver, g, a, slot);
    case KickRequest(_, userId) =>
      if TargetOf(l, userId).Some? {
        QuitDelivers(l, TargetOf(l, userId).value, g, a, slot);
      }
    case DropRequest(leaver) =>
      ResolveIsOwnSlot(l, leaver);
      if InGame(l, leaver, g) {
        MemberHasSlot(l, leaver, g);
        RoomOkIsWellFormed(r);
        DropDelivers(l.clients, g, r, leaver, a, slot);
      } else if ResolveInGame(l, leaver).Some? {
        var h := ResolveInGame(l, leaver).value.0;
        ElsewhereDrops(l.clients, h, g, l.games[h], leaver, a);
      }
    case InputRequest(sender, m) => InputDelivers(l, sender, m, g, a, slot);
    case _ =>
  }

  // ---- who is sent anything ----

  ghost predicate Listed(players: seq<Player>, a: Address) {
    exists i | 0 <= i < |players| :: players[i].addr == a
  }

  lemma TargetedAreListed(g: GameId, players: seq<Player>, rs: seq<PlayerResponse>, d: Delivery)
    requires d in Targeted(g, players, rs)
    ensures d.game == g && Listed(players, d.addr)
  {
    var i :| 0 <= i < |rs| && Targeted(g, players, rs)[i] == d;
    assert players[rs[i].player].addr == d.addr;
  }

  /** The send loop sends to clients, and nothing that it was not given. */
  lemma {:induction false} SendLoopSends(clients: map<Address, Client>, ds: seq<Delivery>)
    ensures forall d <- SendLoop(clients, ds) :: d in ds && d.addr in clients
  {
    if ds != [] && ds[0].addr in clients {
      SendLoopSends(clients, ds[1..]);
    }
  }

  lemma DropReachesListed(clients: map<Address, Client>, g: GameId, r: Room, leaver: Address, d: Delivery)
    requires d in DropDeliveries(clients, g, r, leaver)
    ensures d.game == g && Listed(r.players, d.addr) && d.addr in clients
  {
    hide Position, DropFromRoom, Targeted, DropResponses;
    SendLoopSends(clients, Targeted(g, r.players, DropResponses(r.engine.value, Position(r.players, leaver).value)));
    TargetedAreListed(g, r.players, DropResponses(r.engine.value, Position(r.players, leaver).value), d);
  }

  lemma QuitReachesListed(l: Lobby, leaver: Address, d: Delivery)
    requires Inv(l) && d in QuitDeliveries(l, leaver)
    ensures d.game in l.games && Listed(l.games[d.game].players, d.addr) && d.addr in l.clients
  {
    hide RoomOk, Present, DropDeliveries, LeaveRoom, Position;
    var g := GameOf(l, leaver).value;
    DropReachesListed(l.clients, g, LeaveRoom(l.games[g], leaver), leaver, d);
    LeaveKeepsAddresses(l.games[g], leaver);
  }

  lemma RequestReachesListed(l: Lobby, q: Request, d: Delivery)
    requires Inv(l) && d in Deliveries(l, q)
    ensures d.game in l.games && Listed(l.games[d.game].players, d.addr) && d.addr in l.clients
  {
    hide Inv, DropDeliveries, QuitDeliveries, Targeted, FeedResponses;
    match q
    case LoginRequest(_, username, _, _, orphanFirst) =>
      QuitReachesListed(l, Namesake(l, username, orphanFirst).value, d);
    case QuitRequest(leaver) => QuitReachesListed(l, leaver, d);
    case UserQuitRequest(leaver) => QuitReachesListed(l, leaver, d);
    case KickRequest(_, userId) => QuitReachesListed(l, TargetOf(l, userId).value, d);
    case DropRequest(leaver) =>
      var g := ResolveInGame(l, leaver).value.0;
      DropReachesListed(l.clients, g, l.games[g], leaver, d);
    case InputRequest(sender, m) =>
      var (g, slot) := ResolveInGame(l, sender).value;
      var responses := FeedResponses(l.games[g].engine.value, slot, m);
      SendLoopSends(l.clients, Targeted(g, l.games[g].players, responses));
      TargetedAreListed(g, l.games[g].players, responses, d);
  }

  /** Only clients that are listed are sent anything, and those of them not in the game are exactly the leavers. */
  lemma SentToMembersOrLeavers(l: Lobby, q: Request, d: Delivery)
    requires Inv(l) && d in Deliveries(l, q)
    ensures d.game in l.games && d.addr in l.clients && Position(l.games[d.game].players, d.addr).Some?
    ensures var players := l.games[d.game].players;
            InGame(l, d.addr, d.game) <==> !players[Position(players, d.addr).value].leftRoom
  {
    hide Deliveries, RoomOk, UniqueIds, UniqueNames, NoStaleGames;
    RequestReachesListed(l, q, d);
    var players := l.games[d.game].players;
    var i :| 0 <= i < |players| && players[i].addr == d.addr;
    RoomIsDistinct(l, d.game);
    PositionUnique(players, i);
    if !players[i].leftRoom {
      assert Present(players, d.addr, players[i].userId);
    }
    if InGame(l, d.addr, d.game) {
      MemberHasSlot(l, d.addr, d.game);
    }
  }

  lemma RoomIsDistinct(l: Lobby, g: GameId)
    requires Inv(l) && g in l.games
    ensures Distinct(l.games[g].players)
  {
  }

  // ---- when nothing is lost ----

  /** Nothing for this slot comes after the stop; a drop has no stop, or nothing for this slot. */
  ghost predicate Unharmed(clients: map<Address, Client>, players: seq<Player>, mv: Move, rs: seq<PlayerResponse>,
                           slot: nat)
    requires InRange(rs, |players|)
  {
    match mv
    case Nothing => true
    case Feed(_, _) =>
      forall i, j | 0 <= i <= j < |rs| :: rs[j].player == slot ==> players[rs[i].player].addr in clients
    case Lose(_) => AllHere(clients, players) || forall j | 0 <= j < |rs| :: rs[j].player != slot
  }

  lemma {:induction false} NoneToSlot(slot: nat, rs: seq<PlayerResponse>)
    ensures ResponsesTo(slot, rs) == [] <==> forall j | 0 <= j < |rs| :: rs[j].player != slot
  {
    if rs != [] {
      var n := |rs| - 1;
      NoneToSlot(slot, rs[..n]);
      assert rs == rs[..n] + [rs[n]];
      ResponsesToOne(slot, rs[..n], rs[n]);
      assert forall j | 0 <= j < n :: rs[..n][j] == rs[j];
    }
  }

  /** Reaching stops exactly at the first response to somebody who is gone. */
  lemma {:induction false} ReachStops(clients: map<Address, Client>, players: seq<Player>, rs: seq<PlayerResponse>)
    requires InRange(rs, |players|)
    ensures var n := |Reach(clients, players, rs)|;
            && n <= |rs|
            && (forall i | 0 <= i < n :: players[rs[i].player].addr in clients)
            && (n < |rs| ==> players[rs[n].player].addr !in clients)
    decreases |rs|
  {
    if rs != [] {
      ReachStops(clients, players, rs[1..]);
      assert forall i | 0 < i < |rs| :: rs[1..][i - 1] == rs[i];
    }
  }

  /** Cutting a sequence of responses short loses nothing for a slot exactly when nothing for it comes after the cut. */
  lemma CutExact(rs: seq<PlayerResponse>, n: nat, slot: nat)
    requires n <= |rs|
    ensures var sent, all := ResponsesTo(slot, rs[..n]), ResponsesTo(slot, rs);
            && |sent| <= |all| && (|sent| == |all| ==> sent == all)
            && (sent == all <==> forall j | n <= j < |rs| :: rs[j].player != slot)
  {
    hide ResponsesTo;
    var rest := rs[n..];
    assert rs == rs[..n] + rest;
    ResponsesToAppend(slot, rs[..n], rest);
    NoneToSlot(slot, rest);
    assert (forall j | 0 <= j < |rest| :: rest[j].player != slot)
           <==> (forall j | n <= j < |rs| :: rs[j].player != slot) by {
      assert forall j | n <= j < |rs| :: rs[j] == rest[j - n];
    }
  }

  lemma UnharmedByTheStop(clients: map<Address, Client>, players: seq<Player>, rs: seq<PlayerResponse>, slot: nat)
    requires InRange(rs, |players|)
    ensures (forall i, j | 0 <= i <= j < |rs| :: rs[j].player == slot ==> players[rs[i].player].addr in clients)
            <==> forall j | |Reach(clients, players, rs)| <= j < |rs| :: rs[j].player != slot
  {
    hide Reach;
    ReachStops(clients, players, rs);
    var n := |Reach(clients, players, rs)|;
    if forall i, j | 0 <= i <= j < |rs| :: rs[j].player == slot ==> players[rs[i].player].addr in clients {
      forall j | n <= j < |rs|
        ensures rs[j].player != slot
      {
        assert players[rs[n].player].addr !in clients;
      }
    }
  }

  /** What gets through to a slot is no more than its answers, and all of them exactly when it is unharmed. */
  lemma GetsThroughExact(clients: map<Address, Client>, players: seq<Player>, mv: Move, rs: seq<PlayerResponse>,
      slot: nat)
    requires InRange(rs, |players|) && (mv.Nothing? ==> rs == [])
    ensures var sent, all := ResponsesTo(slot, GetsThrough(clients, players, mv, rs)), ResponsesTo(slot, rs);
            && |sent| <= |all| && (|sent| == |all| ==> sent == all)
            && (sent == all <==> Unharmed(clients, players, mv, rs, slot))
  {
    hide ResponsesTo, Reach, AllHere;
    var n := |GetsThrough(clients, players, mv, rs)|;
    assert rs[..n] == GetsThrough(clients, players, mv, rs);
    CutExact(rs, n, slot);
    if mv.Feed? {
      UnharmedByTheStop(clients, players, rs, slot);
    }
  }
}
