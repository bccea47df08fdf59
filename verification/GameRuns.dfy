/**
 The stack inside the server: a game's engine, driven by whatever requests arrive, is the stack
 run on the messages and departures of its own players.
 */
module GameRuns {
  import opened Common
  import opened CachedGame
  import opened Startup
  import opened DelayedGame
  import opened DelayedRuns
  import opened Rooms
  import opened RoomProofs
  import opened LobbyRuns
  import opened SlotRuns

  /** What the engine answers to a move. */
  function Answer(e: Engine, mv: Move): seq<PlayerResponse> {
    match mv
    case Nothing => []
    case Feed(slot, m) => FeedResponses(e, slot, m)
    case Lose(slot) => if slot < |Dropped(e)| then DropResponses(e, slot) else []
  }

  /** All the answers of game g's engine over a run of the server. */
  ghost function EngineTranscript(e: Engine, roster: seq<Player>, l: Lobby, qs: seq<Request>,
      g: GameId): seq<PlayerResponse> {
    if qs == [] then []
    else
      var before := qs[..|qs| - 1];
      EngineTranscript(e, roster, l, before, g)
      + Answer(EngineAfter(e, roster, l, before, g), MoveOf(LobbyAfter(l, before), qs[|qs| - 1], g, roster))
  }

  /** A move as a call on the engine. */
  function CallOf(mv: Move): CachedEvent
    requires !mv.Nothing?
  {
    match mv
    case Feed(slot, m) => Receive(slot, m)
    case Lose(slot) => Leave(slot)
  }

  /** The calls on game g's engine over a run of the server. */
  ghost function CallsOf(l: Lobby, qs: seq<Request>, g: GameId, roster: seq<Player>): seq<CachedEvent> {
    if qs == [] then []
    else
      var before := qs[..|qs| - 1];
      var mv := MoveOf(LobbyAfter(l, before), qs[|qs| - 1], g, roster);
      if mv.Nothing? then CallsOf(l, before, g, roster) else CallsOf(l, before, g, roster) + [CallOf(mv)]
  }

  lemma MoveIsCall(e: Engine, mv: Move)
    requires !mv.Nothing?
    ensures Apply(e, mv) == DelayedAfter(e, CallOf(mv)).state && Answer(e, mv)
        == Responses(DelayedAfter(e, CallOf(mv)).result)
  {
  }

  lemma DelayedOnce(delays: seq<nat>, warmups: seq<nat>, disabled: bool, es: seq<CachedEvent>, e: CachedEvent)
    requires Sized(delays, warmups)
    ensures var d := DelayedRun(delays, warmups, disabled, es);
            && DelayedRun(delays, warmups, disabled, es + [e]) == DelayedAfter(d, e).state
            && DelayedTranscript(delays, warmups, disabled, es + [e])
               == DelayedTranscript(delays, warmups, disabled, es) + Responses(DelayedAfter(d, e).result)
  {
    hide DelayedAfter;
    assert (es + [e])[..|es + [e]| - 1] == es;
  }

  /** The engine of a running game, and all its answers, are those of the stack run on the game's calls. */
  lemma {:induction false} GameIsAStack(delays: seq<nat>, warmups: seq<nat>, disabled: bool, e: Engine,
                                        roster: seq<Player>, l: Lobby, qs: seq<Request>, g: GameId)
    requires Sized(delays, warmups) && e == NewDelayed(NewCached(delays, disabled), warmups)
    ensures EngineAfter(e, roster, l, qs, g) == DelayedRun(delays, warmups, disabled, CallsOf(l, qs, g, roster))
    ensures EngineTranscript(e, roster, l, qs, g)
         == DelayedTranscript(delays, warmups, disabled, CallsOf(l, qs, g, roster))
    decreases |qs|
  {
    hide DelayedAfter, Apply, Answer, MoveOf, Handle, CallOf;
    if qs == [] {
      assert CallsOf(l, qs, g, roster) == [];
    } else {
      hide DelayedRun, DelayedTranscript;
      var before := qs[..|qs| - 1];
      var mv := MoveOf(LobbyAfter(l, before), qs[|qs| - 1], g, roster);
      var here := EngineAfter(e, roster, l, before, g);
      GameIsAStack(delays, warmups, disabled, e, roster, l, before, g);
      if mv.Nothing? {
        NothingHappens(here);
      } else {
        MoveIsCall(here, mv);
        DelayedOnce(delays, warmups, disabled, CallsOf(l, before, g, roster), CallOf(mv));
      }
    }
  }

  lemma NothingHappens(e: Engine)
    ensures Apply(e, Nothing) == e && Answer(e, Nothing) == []
  {
  }

  /** The server has just started game g. */
  ghost predicate JustStarted(l: Lobby, g: GameId, delays: seq<nat>, warmups: seq<nat>, disabled: bool) {
    g in l.games && l.games[g].engine == Some(NewDelayed(NewCached(delays, disabled), warmups))
  }

  /** A start request does that: one slot and one delay per player, in list order. */
  lemma StartStarts(l: Lobby, a: Address, warmupOf: nat -> nat, disabled: bool)
    requires Inv(l) && ResolveInGame(l, a).Some?
    ensures var g := ResolveInGame(l, a).value.0;
            var r, r' := l.games[g], StartGame(l, a, warmupOf, disabled).games[g];
            var delays, warmups := DelaysOf(r.players), WarmupsOf(r.players, warmupOf);
            if r.engine.None? && r.ownerUserId == l.clients[a].userId then
              && Sized(delays, warmups) && r'.players == r.players
              && JustStarted(StartGame(l, a, warmupOf, disabled), g, delays, warmups, disabled)
            else r' == r
  {
    var g := ResolveInGame(l, a).value.0;
    var r := l.games[g];
    if r.engine.None? && r.ownerUserId == l.clients[a].userId {
      assert RoomOk(r);
      StartKeepsRoom(r, warmupOf, disabled);
    }
  }
}
