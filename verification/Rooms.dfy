/** Rooms and their members: each handler of `src/handlers/game.rs` as one atomic step. */
module Rooms {
  import opened Common
  import opened Codec
  import opened CachedGame
  import opened Startup
  import opened DelayedGame

  type Address = nat
  type GameId = nat
  /** A `u16`. */
  type UserId = n: nat | n < 0x1_0000
  type Username = Bytes

  /** Only LAN clients (connection type 1) get past login, so no frame delay is ever 0. */
  type ConnType = n: nat | n >= 1 witness 1

  /** The synchronisation stack of a running game. */
  type Engine = d: Delayed | d.Valid() ghost witness NewDelayed(NewCached([], false), [])

  function Dropped(e: Engine): seq<bool> {
    e.inner.game.dropped
  }

  predicate AllDropped(e: Engine) {
    forall i | 0 <= i < |Dropped(e)| :: Dropped(e)[i]
  }

  function StartEngine(delays: seq<ConnType>, warmups: seq<nat>, disableOutputCache: bool): (e: Engine)
    requires |warmups| == |delays|
    ensures |Dropped(e)| == |delays| && forall i | 0 <= i < |delays| :: !Dropped(e)[i]
    ensures e.inner.game.delays == delays
  {
    NewDelayed(NewCached(delays, disableOutputCache), warmups)
  }

  function DropSlot(e: Engine, slot: nat): (e': Engine)
    requires slot < |Dropped(e)|
    ensures Dropped(e') == Dropped(e)[slot := true]
  {
    DropEncodes(e, slot);
    DelayedDrop(e, slot).state
  }

  function FeedSlot(e: Engine, slot: nat, m: Message): (e': Engine)
    requires slot < |Dropped(e)|
    ensures Dropped(e') == Dropped(e)
  {
    FeedKeepsDropped(e, slot, m);
    DelayedInput(e, slot, m).state
  }

  /** What the engine answers to a drop and to a message. */
  function DropResponses(e: Engine, slot: nat): seq<PlayerResponse> {
    Responses(DelayedDrop(e, slot).result)
  }

  function FeedResponses(e: Engine, slot: nat, m: Message): seq<PlayerResponse> {
    Responses(DelayedInput(e, slot, m).result)
  }

  lemma FeedKeepsDropped(e: Engine, slot: nat, m: Message)
    requires slot < |Dropped(e)|
    ensures DelayedInput(e, slot, m).state.Valid()
    ensures DelayedInput(e, slot, m).state.inner.game.dropped == Dropped(e)
  {
    match Decode(PushAlways, e.inputCaches[slot], m)
    case None =>
    case Some(r) =>
      var e1 := e.(inputCaches := e.inputCaches[slot := r.cache]);
      AcceptEncodes(e1, slot, r.bytes);
      OfferKeepsDropped(e1.Core(), slot, r.bytes);
  }

  lemma OfferKeepsDropped(s: Startup, p: nat, packet: Bytes)
    requires s.Valid() && p < |s.queues|
    ensures Offer(s, p, packet).state.game.dropped == s.game.dropped
  {
    AfterInputFrames(s.game, p, packet);
    if s.queues[p] != [] {
      AfterInputFrames(s.game, p, s.queues[p][0]);
    }
  }

  // ---- rooms ----

  datatype Status = Waiting | Playing

  /** A player's position in the list is its slot in the engine. */
  datatype Player = Player(addr: Address, userId: UserId, connType: ConnType, leftRoom: bool)

  datatype Room = Room(ownerUserId: UserId, numPlayers: nat, maxPlayers: nat, status: Status,
                       engine: Option<Engine>, players: seq<Player>)

  /** A `usize as u8` cast. */
  function AsU8(n: nat): nat {
    n % 256
  }

  /** `players.iter().position(|p| p.addr == addr)` */
  function Position(players: seq<Player>, addr: Address): (r: Option<nat>)
    ensures r.Some? ==> r.value < |players| && players[r.value].addr == addr
    ensures r.None? <==> forall i | 0 <= i < |players| :: players[i].addr != addr
  {
    if players == [] then None
    else if players[0].addr == addr then Some(0)
    else
      match Position(players[1..], addr)
      case None =>
        assert forall i | 0 < i < |players| :: players[i] == players[1..][i - 1];
        None
      case Some(i) => Some(i + 1)
  }

  /** `players.retain(|p| !p.left_room)` */
  function InRoom(players: seq<Player>): seq<Player> {
    if players == [] then []
    else (if players[0].leftRoom then [] else [players[0]]) + InRoom(players[1..])
  }

  predicate OwnerPresent(r: Room) {
    exists i | 0 <= i < |r.players| :: !r.players[i].leftRoom && r.players[i].userId == r.ownerUserId
  }

  /** Hand the room to the first member still in it, if the owner is gone. */
  function MigrateOwner(r: Room): Room {
    if OwnerPresent(r) || InRoom(r.players) == [] then r
    else r.(ownerUserId := InRoom(r.players)[0].userId)
  }

  /** `players[i].left_room = true` */
  function MarkLeft(players: seq<Player>, addr: Address): seq<Player> {
    match Position(players, addr)
    case None => players
    case Some(i) => players[i := players[i].(leftRoom := true)]
  }

  /** `players.remove(i)` */
  function TakeOut(players: seq<Player>, addr: Address): seq<Player> {
    match Position(players, addr)
    case None => players
    case Some(i) => players[..i] + players[i + 1..]
  }

  /** Quit and kick: while a game runs the slot is kept and marked, otherwise the player is removed. */
  function LeaveRoom(r: Room, addr: Address): Room {
    if r.engine.Some? then
      var players := MarkLeft(r.players, addr);
      MigrateOwner(r.(players := players, numPlayers := AsU8(|InRoom(players)|)))
    else
      var players := TakeOut(r.players, addr);
      MigrateOwner(r.(players := players, numPlayers := AsU8(|players|)))
  }

  /** The game is over: leavers are purged and the slots may move. */
  function EndGame(r: Room): Room {
    var players := InRoom(r.players);
    MigrateOwner(r.(status := Waiting, engine := None, players := players, numPlayers := AsU8(|players|)))
  }

  datatype RoomAfter = Open(room: Room) | Closed

  /** `execute_drop_game` */
  function DropFromRoom(r: Room, addr: Address): RoomAfter {
    var at := Position(r.players, addr);
    if r.status != Playing || at.None? || r.engine.None? || at.value >= |Dropped(r.engine.value)| then Open(r)
    else
      var engine := DropSlot(r.engine.value, at.value);
      if !AllDropped(engine) then Open(r.(engine := Some(engine)))
      else
        var ended := EndGame(r.(engine := Some(engine)));
        if ended.players == [] then Closed else Open(ended)
  }

  /** A response on its way to a client. */
  datatype Delivery = Delivery(game: GameId, addr: Address, response: Message)

  /** Each response goes to the address listed at its slot; a slot that is not listed fails the whole call. */
  function Targeted(g: GameId, players: seq<Player>, rs: seq<PlayerResponse>): seq<Delivery> {
    if forall i | 0 <= i < |rs| :: rs[i].player < |players|
    then seq(|rs|, i requires 0 <= i < |rs| => Delivery(g, players[rs[i].player].addr, rs[i].response))
    else []
  }

  predicate AllHere(clients: map<Address, Client>, players: seq<Player>) {
    forall i | 0 <= i < |players| :: players[i].addr in clients
  }

  /** The send loop stops at the first address that is no longer a client's. */
  function SendLoop(clients: map<Address, Client>, ds: seq<Delivery>): seq<Delivery> {
    if ds == [] || ds[0].addr !in clients then [] else [ds[0]] + SendLoop(clients, ds[1..])
  }

  /**
   What a drop sends: nothing if the room is closed or if anybody on the list, as it was before
   the game ended, is no longer a client; the responses that the drop releases otherwise.
   */
  function DropDeliveries(clients: map<Address, Client>, g: GameId, r: Room, addr: Address): seq<Delivery> {
    var at := Position(r.players, addr);
    if r.status != Playing || at.None? || r.engine.None? || at.value >= |Dropped(r.engine.value)| then []
    else if DropFromRoom(r, addr).Closed? || !AllHere(clients, r.players) then []
    else SendLoop(clients, Targeted(g, r.players, DropResponses(r.engine.value, at.value)))
  }

  function QuitRoom(r: Room, addr: Address): RoomAfter {
    var left := LeaveRoom(r, addr);
    if r.engine.Some? then DropFromRoom(left, addr)
    else if left.players == [] then Closed
    else Open(left)
  }

  /** Unlike a quit, a kick does not close a waiting room it empties. */
  function KickFromRoom(r: Room, addr: Address): RoomAfter {
    var left := LeaveRoom(r, addr);
    if r.engine.Some? then DropFromRoom(left, addr) else Open(left)
  }

  /** Each player's frame delay is its connection type. */
  function DelaysOf(players: seq<Player>): (delays: seq<ConnType>)
    ensures |delays| == |players|
  {
    seq(|players|, i requires 0 <= i < |players| => players[i].connType)
  }

  function WarmupsOf(players: seq<Player>, warmupOf: nat -> nat): (warmups: seq<nat>)
    ensures |warmups| == |players|
  {
    seq(|players|, i requires 0 <= i < |players| => warmupOf(i))
  }

  function StartRoom(r: Room, warmupOf: nat -> nat, disableOutputCache: bool): Room {
    var players := InRoom(r.players);
    r.(players := players, numPlayers := AsU8(|players|), status := Playing,
       engine := Some(StartEngine(DelaysOf(players), WarmupsOf(players, warmupOf), disableOutputCache)))
  }

  function NewRoom(addr: Address, c: Client): Room {
    Room(c.userId, 1, 4, Waiting, None, [Player(addr, c.userId, c.connType, false)])
  }

  function JoinRoom(r: Room, addr: Address, c: Client): Room {
    if Position(r.players, addr).Some? then r
    else r.(numPlayers := AsU8(r.numPlayers + 1), players := r.players + [Player(addr, c.userId, c.connType, false)])
  }

  // ---- the lobby ----

  datatype Client = Client(userId: UserId, username: Username, connType: ConnType, gameId: Option<GameId>)

  /**
   `orphans` are the names of sessions whose address has been taken over by a later login: they
   are still in the session store, but no address leads to them.
   */
  datatype Lobby = Lobby(clients: map<Address, Client>, games: map<GameId, Room>, nextGameId: GameId,
                         nextUserId: UserId, orphans: set<Username>)

  const EMPTY_LOBBY := Lobby(map[], map[], 1, 1, {})

  function SetGame(l: Lobby, addr: Address, gameId: Option<GameId>): Lobby
    requires addr in l.clients
  {
    l.(clients := l.clients[addr := l.clients[addr].(gameId := gameId)])
  }

  function SetRoom(l: Lobby, g: GameId, after: RoomAfter): Lobby {
    match after
    case Open(room) => l.(games := l.games[g := room])
    case Closed => l.(games := l.games - {g})
  }

  /** The game a client is in, if it exists. */
  function GameOf(l: Lobby, addr: Address): (g: Option<GameId>)
    ensures g.Some? ==> addr in l.clients && l.clients[addr].gameId == g && g.value in l.games
  {
    if addr in l.clients && l.clients[addr].gameId.Some? && l.clients[addr].gameId.value in l.games
    then l.clients[addr].gameId else None
  }

  /** `resolve_in_game`: the game and slot a client's input belongs to. */
  function ResolveInGame(l: Lobby, addr: Address): (r: Option<(GameId, nat)>)
    ensures r.Some? ==> addr in l.clients && l.clients[addr].gameId == Some(r.value.0)
    ensures r.Some? ==> r.value.0 in l.games && r.value.1 < |l.games[r.value.0].players|
  {
    match GameOf(l, addr)
    case None => None
    case Some(g) =>
      match Position(l.games[g].players, addr)
      case None => None
      case Some(slot) => Some((g, slot))
  }

  function CreateGame(l: Lobby, addr: Address): Lobby {
    if ResolveInGame(l, addr).Some? then l
    else if addr !in l.clients then l.(nextGameId := l.nextGameId + 1)
    else
      var g := l.nextGameId;
      var l1 := l.(games := l.games[g := NewRoom(addr, l.clients[addr])], nextGameId := g + 1);
      SetGame(l1, addr, Some(g))
  }

  function JoinGame(l: Lobby, addr: Address, g: GameId): Lobby {
    if addr !in l.clients || l.clients[addr].gameId.Some? || g !in l.games then l
    else
      var r := l.games[g];
      if r.status != Waiting || r.engine.Some? || r.numPlayers >= r.maxPlayers then l
      else SetGame(SetRoom(l, g, Open(JoinRoom(r, addr, l.clients[addr]))), addr, Some(g))
  }

  function QuitGame(l: Lobby, addr: Address): Lobby {
    match GameOf(l, addr)
    case None => l
    case Some(g) => SetRoom(SetGame(l, addr, None), g, QuitRoom(l.games[g], addr))
  }

  function DropGame(l: Lobby, addr: Address): Lobby {
    match ResolveInGame(l, addr)
    case None => l
    case Some((g, _)) => SetRoom(l, g, DropFromRoom(l.games[g], addr))
  }

  function StartGame(l: Lobby, addr: Address, warmupOf: nat -> nat, disableOutputCache: bool): Lobby {
    match ResolveInGame(l, addr)
    case None => l
    case Some((g, _)) =>
      var r := l.games[g];
      if r.engine.Some? || r.ownerUserId != l.clients[addr].userId then l
      else SetRoom(l, g, Open(StartRoom(r, warmupOf, disableOutputCache)))
  }

  /** Some client with this user id. */
  ghost function TargetOf(l: Lobby, userId: UserId): (r: Option<Address>)
    ensures r.Some? ==> r.value in l.clients && l.clients[r.value].userId == userId
    ensures r.None? ==> forall a <- l.clients :: l.clients[a].userId != userId
  {
    if a :| a in l.clients && l.clients[a].userId == userId then Some(a) else None
  }

  /** Only the owner may kick, and only someone in the same game. */
  predicate MayKick(l: Lobby, addr: Address, target: Address) {
    && ResolveInGame(l, addr).Some?
    && l.games[ResolveInGame(l, addr).value.0].ownerUserId == l.clients[addr].userId
    && target in l.clients
    && l.clients[target].gameId == l.clients[addr].gameId
  }

  function Kick(l: Lobby, addr: Address, target: Address): Lobby {
    if !MayKick(l, addr, target) then l
    else
      var g := ResolveInGame(l, addr).value.0;
      SetRoom(SetGame(l, target, None), g, KickFromRoom(l.games[g], target))
  }

  ghost function KickUser(l: Lobby, addr: Address, userId: UserId): Lobby {
    match TargetOf(l, userId)
    case None => l
    case Some(target) => Kick(l, addr, target)
  }

  /** A client leaves the server: it quits its game first. */
  function UserQuit(l: Lobby, addr: Address): Lobby {
    var l1 := QuitGame(l, addr);
    l1.(clients := l1.clients - {addr})
  }

  /** Some client with this name. */
  ghost function ClientNamed(l: Lobby, username: Username): (r: Option<Address>)
    ensures r.Some? ==> r.value in l.clients && l.clients[r.value].username == username
    ensures r.None? ==> forall a <- l.clients :: l.clients[a].username != username
  {
    if a :| a in l.clients && l.clients[a].username == username then Some(a) else None
  }

  /**
   The client that a search by name finds. The search goes through the session store in an
   unpredictable order; if it hits an orphan first (`orphanFirst`), it finds nobody.
   */
  ghost function Namesake(l: Lobby, username: Username, orphanFirst: bool): Option<Address> {
    if orphanFirst && username in l.orphans then None else ClientNamed(l, username)
  }

  /** A new client, not in any game, with the next 16-bit user id; a client it replaces is orphaned. */
  function Register(l: Lobby, addr: Address, username: Username): Lobby {
    l.(clients := l.clients[addr := Client(l.nextUserId, username, 1, None)],
       nextUserId := (l.nextUserId + 1) % 0x1_0000,
       orphans := if addr in l.clients then l.orphans + {l.clients[addr].username} else l.orphans)
  }

  /** A login that goes through: the right connection type, and nobody active found with the same name. */
  ghost predicate Admitted(l: Lobby, username: Username, connType: nat, alive: bool, orphanFirst: bool) {
    connType == 1 && !(Namesake(l, username, orphanFirst).Some? && alive)
  }

  /** A stale session found with the same name quits its game and is removed. */
  ghost function Evict(l: Lobby, username: Username, orphanFirst: bool): Lobby {
    match Namesake(l, username, orphanFirst)
    case None => l
    case Some(other) => UserQuit(l, other)
  }

  /** `alive` says whether the client found with the same name, if any, has been active lately. */
  ghost function Login(l: Lobby, addr: Address, username: Username, connType: nat, alive: bool, orphanFirst: bool)
    : Lobby
  {
    if Admitted(l, username, connType, alive, orphanFirst)
    then Register(Evict(l, username, orphanFirst), addr, username) else l
  }

  /** Game input, in either form. */
  function GameInput(l: Lobby, addr: Address, m: Message): Lobby {
    match ResolveInGame(l, addr)
    case None => l
    case Some((g, slot)) =>
      var r := l.games[g];
      if r.engine.None? || slot >= |Dropped(r.engine.value)| then l
      else SetRoom(l, g, Open(r.(engine := Some(FeedSlot(r.engine.value, slot, m)))))
  }

  datatype Request =
    | LoginRequest(addr: Address, username: Username, connType: nat, alive: bool, orphanFirst: bool)
    | CreateRequest(addr: Address)
    | JoinRequest(addr: Address, game: GameId)
    | QuitRequest(addr: Address)
    | DropRequest(addr: Address)
    | StartRequest(addr: Address, warmupOf: nat -> nat, disableOutputCache: bool)
    | KickRequest(addr: Address, userId: UserId)
    | UserQuitRequest(addr: Address)
    | InputRequest(addr: Address, message: Message)

  ghost function Handle(l: Lobby, q: Request): Lobby {
    match q
    case LoginRequest(addr, username, connType, alive, orphanFirst) =>
      Login(l, addr, username, connType, alive, orphanFirst)
    case CreateRequest(addr) => CreateGame(l, addr)
    case JoinRequest(addr, g) => JoinGame(l, addr, g)
    case QuitRequest(addr) => QuitGame(l, addr)
    case DropRequest(addr) => DropGame(l, addr)
    case StartRequest(addr, warmupOf, disabled) => StartGame(l, addr, warmupOf, disabled)
    case KickRequest(addr, userId) => KickUser(l, addr, userId)
    case UserQuitRequest(addr) => UserQuit(l, addr)
    case InputRequest(addr, m) => GameInput(l, addr, m)
  }

  // ---- what a request sends ----

  function QuitDeliveries(l: Lobby, addr: Address): seq<Delivery> {
    match GameOf(l, addr)
    case None => []
    case Some(g) =>
      if l.games[g].engine.Some? then DropDeliveries(l.clients, g, LeaveRoom(l.games[g], addr), addr) else []
  }

  function InputDeliveries(l: Lobby, addr: Address, m: Message): seq<Delivery> {
    match ResolveInGame(l, addr)
    case None => []
    case Some((g, slot)) =>
      var r := l.games[g];
      if r.engine.None? || slot >= |Dropped(r.engine.value)| then []
      else SendLoop(l.clients, Targeted(g, r.players, FeedResponses(r.engine.value, slot, m)))
  }

  function KickDeliveries(l: Lobby, addr: Address, target: Address): seq<Delivery> {
    if MayKick(l, addr, target) then QuitDeliveries(l, target) else []
  }

  /** The engine responses a request sends out. */
  ghost function Deliveries(l: Lobby, q: Request): seq<Delivery> {
    match q
    case LoginRequest(addr, username, connType, alive, orphanFirst) =>
      var other := Namesake(l, username, orphanFirst);
      if Admitted(l, username, connType, alive, orphanFirst) && other.Some? then QuitDeliveries(l, other.value) else []
    case QuitRequest(addr) => QuitDeliveries(l, addr)
    case UserQuitRequest(addr) => QuitDeliveries(l, addr)
    case DropRequest(addr) =>
      (match ResolveInGame(l, addr)
       case None => []
       case Some((g, _)) => DropDeliveries(l.clients, g, l.games[g], addr))
    case KickRequest(addr, userId) =>
      (match TargetOf(l, userId)
       case None => []
       case Some(target) => KickDeliveries(l, addr, target))
    case InputRequest(addr, m) => InputDeliveries(l, addr, m)
    case _ => []
  }
}
