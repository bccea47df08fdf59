/** What every room operation keeps. */
module RoomProofs {
  import opened Common
  import opened Rooms

  /** This client is a member of the room: listed, and not marked as having left. */
  ghost predicate Present(players: seq<Player>, a: Address, u: UserId) {
    exists i | 0 <= i < |players| :: players[i].addr == a && players[i].userId == u && !players[i].leftRoom
  }

  ghost predicate Distinct(players: seq<Player>) {
    forall i, j | 0 <= i < j < |players| :: players[i].addr != players[j].addr
  }

  ghost predicate NobodyLeft(players: seq<Player>) {
    forall i | 0 <= i < |players| :: !players[i].leftRoom
  }

  /** Holds even between the two halves of a quit. */
  ghost predicate WellFormed(r: Room) {
    && |r.players| <= r.maxPlayers == 4
    && Distinct(r.players)
    && r.numPlayers == |InRoom(r.players)|
    && (r.engine.Some? <==> r.status == Playing)
    && (r.engine.None? ==> NobodyLeft(r.players))
    && (r.engine.Some? ==> |Dropped(r.engine.value)| == |r.players|)
    && (OwnerPresent(r) || NobodyThere(r))
  }

  ghost predicate NobodyThere(r: Room) {
    forall i | 0 <= i < |r.players| :: r.players[i].leftRoom
  }

  /** Every leaver's slot, except possibly that of `leaving`, is dropped in the engine. */
  ghost predicate LeaversDropped(r: Room, leaving: Option<Address>) {
    r.engine.Some? ==>
      forall i | 0 <= i < |r.players| && i < |Dropped(r.engine.value)| ::
        r.players[i].leftRoom && Some(r.players[i].addr) != leaving ==> Dropped(r.engine.value)[i]
  }

  /**
   An engine exists iff the status is Playing and then has a slot per listed player; players who
   left are listed only then and are dropped in it; somebody in the room is not dropped; the owner
   is in the room; and the player count is the number in the room.
   */
  ghost predicate RoomOk(r: Room) {
    && WellFormed(r)
    && LeaversDropped(r, None)
    && OwnerPresent(r)
    && (r.engine.Some? ==> !AllDropped(r.engine.value))
  }

  /** A playing room has someone in the room whose slot is live. */
  lemma SomebodyPlays(r: Room)
    requires RoomOk(r) && r.status == Playing
    ensures exists i | 0 <= i < |r.players| :: !r.players[i].leftRoom && !Dropped(r.engine.value)[i]
  {
    var i :| 0 <= i < |Dropped(r.engine.value)| && !Dropped(r.engine.value)[i];
    assert !r.players[i].leftRoom;
  }

  // ---- purging leavers ----

  lemma {:induction false} InRoomShape(players: seq<Player>)
    ensures |InRoom(players)| <= |players|
    ensures NobodyLeft(InRoom(players))
    ensures forall i | 0 <= i < |InRoom(players)| :: InRoom(players)[i] in players
    ensures forall p <- players :: !p.leftRoom ==> p in InRoom(players)
    ensures NobodyLeft(players) ==> InRoom(players) == players
  {
    if players != [] {
      InRoomShape(players[1..]);
      assert players == [players[0]] + players[1..];
    }
  }

  lemma {:induction false} InRoomDistinct(players: seq<Player>)
    requires Distinct(players)
    ensures Distinct(InRoom(players))
  {
    if players != [] {
      var rest := players[1..];
      forall i, j | 0 <= i < j < |rest| ensures rest[i].addr != rest[j].addr {
        assert players[i + 1].addr != players[j + 1].addr;
      }
      InRoomDistinct(rest);
      InRoomShape(rest);
    }
  }

  lemma InRoomPresent(players: seq<Player>, a: Address, u: UserId)
    ensures Present(InRoom(players), a, u) <==> Present(players, a, u)
  {
    InRoomShape(players);
    if i :| 0 <= i < |players| && players[i].addr == a && players[i].userId == u && !players[i].leftRoom {
      assert players[i] in InRoom(players);
    }
    if i :| 0 <= i < |InRoom(players)| && InRoom(players)[i].addr == a && InRoom(players)[i].userId == u {
      assert InRoom(players)[i] in players;
    }
  }

  // ---- positions ----

  /** In a room an address has one position. */
  lemma PositionUnique(players: seq<Player>, i: nat)
    requires Distinct(players) && i < |players|
    ensures Position(players, players[i].addr) == Some(i)
  {
  }

  /** Positions depend on the addresses alone. */
  lemma {:induction false} PositionStable(before: seq<Player>, after: seq<Player>, a: Address)
    requires |before| == |after| && forall i | 0 <= i < |before| :: before[i].addr == after[i].addr
    ensures Position(before, a) == Position(after, a)
  {
    if before != [] {
      PositionStable(before[1..], after[1..], a);
    }
  }

  lemma PresentPosition(players: seq<Player>, a: Address, u: UserId)
    requires Distinct(players) && Present(players, a, u)
    ensures var at := Position(players, a);
            at.Some? && players[at.value].userId == u && !players[at.value].leftRoom
  {
    var i :| 0 <= i < |players| && players[i].addr == a && players[i].userId == u && !players[i].leftRoom;
    PositionUnique(players, i);
  }

  // ---- ownership ----

  /** The player at this position is in the room and those before it have left. */
  ghost predicate FirstThere(players: seq<Player>, i: nat)
    requires i < |players|
  {
    !players[i].leftRoom && forall j | 0 <= j < i :: players[j].leftRoom
  }

  lemma {:induction false} FirstInRoom(players: seq<Player>) returns (i: nat)
    requires InRoom(players) != []
    ensures i < |players| && FirstThere(players, i) && InRoom(players)[0] == players[i]
  {
    if !players[0].leftRoom {
      i := 0;
    } else {
      var k := FirstInRoom(players[1..]);
      i := k + 1;
      assert forall j | 0 < j < i :: players[j] == players[1..][j - 1];
    }
  }

  /** Only the owner may change, and only if it is gone: to the first player still in the room, if any. */
  lemma MigrateOwnerFinds(r: Room)
    ensures var r' := MigrateOwner(r);
            && r' == r.(ownerUserId := r'.ownerUserId)
            && (OwnerPresent(r') || NobodyThere(r'))
            && (OwnerPresent(r) || NobodyThere(r) ==> r' == r)
    ensures !OwnerPresent(r) && !NobodyThere(r) ==>
              exists i: nat | i < |r.players| ::
                  FirstThere(r.players, i) && MigrateOwner(r).ownerUserId == r.players[i].userId
  {
    InRoomShape(r.players);
    if InRoom(r.players) != [] {
      var i := FirstInRoom(r.players);
      assert FirstThere(r.players, i);
      if !OwnerPresent(r) {
        assert MigrateOwner(r).players[i].userId == r.players[i].userId;
      }
    }
  }

  // ---- leaving ----

  /** What a leaver's departure does to the list, whether or not a game is running. */
  ghost predicate Departed(r: Room, r': Room, a: Address) {
    && r'.engine == r.engine && r'.status == r.status && r'.maxPlayers == r.maxPlayers
    && forall b, u :: Present(r'.players, b, u) <==> Present(r.players, b, u) && b != a
  }

  /** Marking changes one mark and nothing else. */
  lemma MarkLeftShape(players: seq<Player>, a: Address)
    requires Distinct(players)
    ensures var marked := MarkLeft(players, a);
            && |marked| == |players|
            && forall i | 0 <= i < |players| ::
                 marked[i] == players[i].(leftRoom := players[i].leftRoom || players[i].addr == a)
  {
    var marked := MarkLeft(players, a);
    forall i | 0 <= i < |players|
      ensures marked[i] == players[i].(leftRoom := players[i].leftRoom || players[i].addr == a)
    {
      if players[i].addr == a {
        PositionUnique(players, i);
      }
    }
  }

  lemma MarkLeftMembers(players: seq<Player>, a: Address, b: Address, u: UserId)
    requires Distinct(players)
    ensures Present(MarkLeft(players, a), b, u) <==> Present(players, b, u) && b != a
  {
    MarkLeftShape(players, a);
    var marked := MarkLeft(players, a);
    if Present(players, b, u) && b != a {
      var k :| 0 <= k < |players| && players[k].addr == b && players[k].userId == u && !players[k].leftRoom;
      assert marked[k] == players[k];
    }
    if k :| 0 <= k < |marked| && marked[k].addr == b && marked[k].userId == u && !marked[k].leftRoom {
      assert players[k].addr == b;
    }
  }

  /** Taking out closes the gap. */
  lemma TakeOutShape(players: seq<Player>, a: Address)
    requires Distinct(players) && Position(players, a).Some?
    ensures var at := Position(players, a).value;
            var rest := TakeOut(players, a);
            && |rest| == |players| - 1
            && forall i | 0 <= i < |rest| :: rest[i] == players[if i < at then i else i + 1] && rest[i].addr != a
  {
    var at := Position(players, a).value;
    var rest := TakeOut(players, a);
    forall i | 0 <= i < |rest|
      ensures rest[i] == players[if i < at then i else i + 1] && rest[i].addr != a
    {
      PositionUnique(players, if i < at then i else i + 1);
    }
  }

  lemma TakeOutDistinct(players: seq<Player>, a: Address)
    requires Distinct(players) && Position(players, a).Some?
    ensures Distinct(TakeOut(players, a))
    ensures NobodyLeft(players) ==> NobodyLeft(TakeOut(players, a))
  {
    TakeOutShape(players, a);
  }

  lemma TakeOutMembers(players: seq<Player>, a: Address, b: Address, u: UserId)
    requires Distinct(players) && Position(players, a).Some?
    ensures Present(TakeOut(players, a), b, u) <==> Present(players, b, u) && b != a
  {
    hide TakeOut, Position;
    TakeOutShape(players, a);
    var at, rest := Position(players, a).value, TakeOut(players, a);
    if Present(players, b, u) && b != a {
      var k :| 0 <= k < |players| && players[k].addr == b && players[k].userId == u && !players[k].leftRoom;
      assert rest[if k < at then k else k - 1] == players[k];
    }
    if k :| 0 <= k < |rest| && rest[k].addr == b && rest[k].userId == u && !rest[k].leftRoom {
      assert rest[k] == players[if k < at then k else k + 1];
    }
  }

  lemma LeaveDeparts(r: Room, a: Address)
    requires RoomOk(r) && Position(r.players, a).Some?
    ensures Departed(r, LeaveRoom(r, a), a)
  {
    var players := if r.engine.Some? then MarkLeft(r.players, a) else TakeOut(r.players, a);
    MigrateOwnerFinds(r.(players := players, numPlayers := LeaveRoom(r, a).numPlayers));
    forall b, u ensures Present(players, b, u) <==> Present(r.players, b, u) && b != a {
      if r.engine.Some? {
        MarkLeftMembers(r.players, a, b, u);
      } else {
        TakeOutMembers(r.players, a, b, u);
      }
    }
  }

  lemma LeavePlayingRoom(r: Room, a: Address)
    requires RoomOk(r) && r.engine.Some? && Position(r.players, a).Some?
    ensures var r' := LeaveRoom(r, a);
            && WellFormed(r') && LeaversDropped(r', Some(a))
            && Position(r'.players, a) == Position(r.players, a)
  {
    hide InRoom, Position;
    var marked := MarkLeft(r.players, a);
    MarkLeftShape(r.players, a);
    InRoomShape(marked);
    MigrateOwnerFinds(r.(players := marked, numPlayers := AsU8(|InRoom(marked)|)));
    PositionStable(r.players, marked, a);
  }

  lemma LeaveWaitingRoom(r: Room, a: Address)
    requires RoomOk(r) && r.engine.None? && Position(r.players, a).Some?
    ensures var r' := LeaveRoom(r, a);
            && WellFormed(r')
            && (r'.players == [] <==> |r.players| == 1)
            && (r'.players != [] ==> RoomOk(r'))
  {
    hide InRoom, Position, TakeOut, MigrateOwner;
    var rest := TakeOut(r.players, a);
    TakeOutShape(r.players, a);
    TakeOutDistinct(r.players, a);
    InRoomShape(rest);
    MigrateOwnerFinds(r.(players := rest, numPlayers := AsU8(|rest|)));
    if rest != [] {
      assert !rest[0].leftRoom;
    }
  }

  // ---- dropping ----

  ghost predicate SameMembers(r: Room, r': Room) {
    forall b, u :: Present(r'.players, b, u) <==> Present(r.players, b, u)
  }

  /** The room after a drop or a departure: it keeps the invariant, or it is closed because it is empty. */
  ghost predicate Outcome(before: Room, after: RoomAfter) {
    match after
    case Open(r') => RoomOk(r') && SameMembers(before, r')
    case Closed => NobodyThere(before)
  }

  lemma EndGameMembers(r: Room)
    ensures SameMembers(r, EndGame(r))
  {
    var players := InRoom(r.players);
    MigrateOwnerFinds(r.(status := Waiting, engine := None, players := players, numPlayers := AsU8(|players|)));
    forall b, u ensures Present(players, b, u) <==> Present(r.players, b, u) {
      InRoomPresent(r.players, b, u);
    }
  }

  lemma EndGameOk(r: Room)
    requires WellFormed(r)
    ensures var r' := EndGame(r);
            && (r'.players == [] ==> NobodyThere(r))
            && (r'.players != [] ==> RoomOk(r'))
  {
    hide InRoom, Position;
    var players := InRoom(r.players);
    InRoomShape(r.players);
    InRoomShape(players);
    InRoomDistinct(r.players);
    MigrateOwnerFinds(r.(status := Waiting, engine := None, players := players, numPlayers := AsU8(|players|)));
    if players != [] {
      assert !players[0].leftRoom;
    }
  }

  /** `leaving` may be the player being dropped: its slot need not have been dropped before. */
  lemma DropFromRoomOk(r: Room, a: Address)
    requires WellFormed(r) && r.engine.Some? && Position(r.players, a).Some? && LeaversDropped(r, Some(a))
    ensures Outcome(r, DropFromRoom(r, a))
  {
    var slot := Position(r.players, a).value;
    var e := DropSlot(r.engine.value, slot);
    var dropped := r.(engine := Some(e));
    assert Dropped(e) == Dropped(r.engine.value)[slot := true];
    assert WellFormed(dropped);
    if AllDropped(e) {
      EndGameOk(dropped);
      EndGameMembers(dropped);
    } else {
      forall i | 0 <= i < |r.players| && r.players[i].leftRoom ensures Dropped(e)[i] {
        if r.players[i].addr == a {
          PositionUnique(r.players, i);
        }
      }
      var i :| 0 <= i < |Dropped(e)| && !Dropped(e)[i];
      assert !r.players[i].leftRoom;
    }
  }

  lemma DropKeepsRoom(r: Room, a: Address)
    requires RoomOk(r)
    ensures Outcome(r, DropFromRoom(r, a)) && DropFromRoom(r, a).Open?
  {
    if r.engine.Some? && Position(r.players, a).Some? {
      DropFromRoomOk(r, a);
    }
  }

  // ---- quitting and being kicked ----

  ghost predicate LeaverGone(before: Room, after: RoomAfter, a: Address) {
    match after
    case Open(r') => RoomOk(r') && forall b, u :: Present(r'.players, b, u) <==> Present(before.players, b, u) && b != a
    case Closed => forall b, u :: Present(before.players, b, u) ==> b == a
  }

  lemma QuitKeepsRoom(r: Room, a: Address)
    requires RoomOk(r) && Position(r.players, a).Some?
    ensures LeaverGone(r, QuitRoom(r, a), a)
  {
    if r.engine.Some? {
      LeavePlayingRoom(r, a);
      LeaveDeparts(r, a);
      DropFromRoomOk(LeaveRoom(r, a), a);
    } else {
      LeaveWaitingRoom(r, a);
      LeaveDeparts(r, a);
    }
  }

  /** A kick keeps the room exactly unless it empties a waiting room. */
  lemma KickKeepsRoom(r: Room, a: Address)
    requires RoomOk(r) && Position(r.players, a).Some?
    ensures r.engine.None? && |r.players| == 1 ==> KickFromRoom(r, a).Open? && KickFromRoom(r, a).room.players == []
    ensures !(r.engine.None? && |r.players| == 1) ==> LeaverGone(r, KickFromRoom(r, a), a)
  {
    if r.engine.Some? {
      LeavePlayingRoom(r, a);
      LeaveDeparts(r, a);
      DropFromRoomOk(LeaveRoom(r, a), a);
    } else {
      LeaveWaitingRoom(r, a);
      LeaveDeparts(r, a);
    }
  }

  // ---- starting, creating, joining, playing ----

  lemma StartKeepsRoom(r: Room, warmupOf: nat -> nat, disableOutputCache: bool)
    requires RoomOk(r) && r.engine.None?
    ensures var r' := StartRoom(r, warmupOf, disableOutputCache);
            && RoomOk(r') && SameMembers(r, r') && r'.players == r.players
            && r'.engine.value == StartEngine(DelaysOf(r.players), WarmupsOf(r.players, warmupOf), disableOutputCache)
  {
    hide InRoom, Position;
    var r' := StartRoom(r, warmupOf, disableOutputCache);
    InRoomShape(r.players);
    assert r'.players == r.players;
    var i :| 0 <= i < |r.players| && !r.players[i].leftRoom && r.players[i].userId == r.ownerUserId;
    assert !Dropped(r'.engine.value)[i];
  }

  lemma NewRoomOk(a: Address, c: Client)
    ensures RoomOk(NewRoom(a, c))
    ensures forall b, u :: Present(NewRoom(a, c).players, b, u) <==> b == a && u == c.userId
  {
    var r := NewRoom(a, c);
    InRoomShape(r.players);
    assert !r.players[0].leftRoom && r.players[0].userId == r.ownerUserId;
  }

  lemma JoinKeepsRoom(r: Room, a: Address, c: Client)
    requires RoomOk(r) && r.engine.None? && r.numPlayers < r.maxPlayers && Position(r.players, a).None?
    ensures var r' := JoinRoom(r, a, c);
            && RoomOk(r') && r'.players == r.players + [Player(a, c.userId, c.connType, false)]
            && forall b, u :: Present(r'.players, b, u) <==> Present(r.players, b, u) || (b == a && u == c.userId)
  {
    hide InRoom, Position;
    var r' := JoinRoom(r, a, c);
    var n := |r.players|;
    InRoomShape(r.players);
    InRoomShape(r'.players);
    assert OwnerPresent(r') by {
      var i :| 0 <= i < n && !r.players[i].leftRoom && r.players[i].userId == r.ownerUserId;
      assert r'.players[i] == r.players[i];
    }
    forall b, u ensures Present(r'.players, b, u) <==> Present(r.players, b, u) || (b == a && u == c.userId) {
      if i :| 0 <= i < n && r.players[i].addr == b && r.players[i].userId == u && !r.players[i].leftRoom {
        assert r'.players[i] == r.players[i];
      }
      assert r'.players[n].addr == a;
    }
  }
}
