/**
 The server behind its sessions: what the clients' messages ask for, and games run over the
 network end to end.
 */
module NetworkRuns {
  import opened Common
  import opened Packets
  import opened SessionRuns
  import opened Network
  import opened Codec
  import opened LockstepRuns
  import opened CachedGame
  import opened Streams
  import opened DelayedRuns
  import opened Rooms
  import opened LobbyRuns
  import opened SlotRuns
  import opened GameRuns
  import opened GameInputs
  import opened ServerRuns
  import opened Reading

  /** The circumstances in which each client's k-th message is handled. */
  type Circumstances = (Address, nat) -> Circumstance

  function Asked(q: Option<Request>): seq<Request> {
    match q
    case None => []
    case Some(request) => [request]
  }

  /** The requests that the messages handled so far make, in order. */
  ghost function Requests(env: Circumstances, log: seq<Handled>): seq<Request> {
    if log == [] then []
    else
      var before, last := log[..|log| - 1], log[|log| - 1];
      Requests(env, before) + Asked(Read(env(last.addr, |HandledFor(last.addr, before)|), last.addr, last.message))
  }

  /** The requests that one client's messages make. */
  ghost function ReadAll(env: Circumstances, a: Address, ms: seq<ParsedMessage>): seq<Request> {
    if ms == [] then []
    else
      var before := ms[..|ms| - 1];
      ReadAll(env, a, before) + Asked(Read(env(a, |before|), a, ms[|ms| - 1]))
  }

  lemma RequestsByAppend(a: Address, qs: seq<Request>, last: Option<Request>)
    ensures RequestsBy(a, qs + Asked(last))
         == RequestsBy(a, qs) + if last.Some? && last.value.addr == a then Asked(last) else []
    ensures InputsBy(a, qs + Asked(last))
         == InputsBy(a, qs)
            + if last.Some? && last.value.addr == a && last.value.InputRequest? then [last.value.message] else []
  {
    if last.Some? {
      assert (qs + [last.value])[..|qs + [last.value]| - 1] == qs;
    } else {
      assert qs + Asked(last) == qs;
    }
  }

  lemma ReadAllOne(env: Circumstances, a: Address, ms: seq<ParsedMessage>, m: ParsedMessage)
    ensures ReadAll(env, a, ms + [m]) == ReadAll(env, a, ms) + Asked(Read(env(a, |ms|), a, m))
    ensures var read := ReadInput(m.kind, m.data);
            InputsIn(ms + [m]) == InputsIn(ms) + if read.Some? then [read.value] else []
  {
    hide Read, ReadInput;
    assert (ms + [m])[..|ms + [m]| - 1] == ms;
  }

  lemma ReadIsOwn(c: Circumstance, a: Address, m: ParsedMessage)
    ensures var q, read := Read(c, a, m), ReadInput(m.kind, m.data);
            && (q.Some? ==> q.value.addr == a)
            && (read.Some? <==> q.Some? && q.value.InputRequest?)
            && (read.Some? ==> q.value.message == read.value)
  {
  }

  /**
   A client's requests are the reading of its own messages; which of them are game input, and what, is
   in the messages alone.
   */
  lemma {:induction false} RequestsAreOwn(env: Circumstances, log: seq<Handled>, a: Address)
    ensures RequestsBy(a, Requests(env, log)) == ReadAll(env, a, HandledFor(a, log))
    ensures InputsBy(a, Requests(env, log)) == InputsIn(HandledFor(a, log))
    decreases |log|
  {
    hide Read, ReadInput, RequestsBy, InputsBy, ReadAll, InputsIn;
    if log == [] {
      NothingAsked(env, a);
    } else {
      var before, last := log[..|log| - 1], log[|log| - 1];
      var c, own := env(last.addr, |HandledFor(last.addr, before)|), HandledFor(a, before);
      var q := Read(c, last.addr, last.message);
      RequestsAreOwn(env, before, a);
      RequestsByAppend(a, Requests(env, before), q);
      ReadIsOwn(c, last.addr, last.message);
      assert Requests(env, log) == Requests(env, before) + Asked(q);
      assert HandledFor(a, log) == if last.addr == a then own + [last.message] else own;
      if last.addr == a {
        ReadAllOne(env, a, own, last.message);
      }
    }
  }

  lemma NothingAsked(env: Circumstances, a: Address)
    ensures RequestsBy(a, []) == [] && InputsBy(a, []) == [] && ReadAll(env, a, []) == [] && InputsIn([]) == []
  {
  }

  // ---- a part of the log ----

  lemma {:induction false} RequestsGrow(env: Circumstances, log: seq<Handled>, n: nat)
    requires n <= |log|
    ensures Requests(env, log[..n]) <= Requests(env, log)
    decreases |log|
  {
    hide Read;
    if n == |log| {
      assert log[..n] == log;
    } else {
      var before := log[..|log| - 1];
      RequestsGrow(env, before, n);
      assert before[..n] == log[..n];
    }
  }

  /** Every number of requests is reached somewhere in the log. */
  lemma {:induction false} CutAtRequest(env: Circumstances, log: seq<Handled>, k: nat) returns (m: nat)
    requires k <= |Requests(env, log)|
    ensures m <= |log| && Requests(env, log[..m]) == Requests(env, log)[..k]
    decreases |log|
  {
    hide Read;
    if k == |Requests(env, log)| {
      m := |log|;
      assert log[..m] == log;
    } else {
      var before := log[..|log| - 1];
      m := CutAtRequest(env, before, k);
      assert before[..m] == log[..m];
    }
  }

  /** The requests made after the first n messages. */
  ghost function RequestsAfter(env: Circumstances, log: seq<Handled>, n: nat): seq<Request>
    requires n <= |log|
  {
    RequestsGrow(env, log, n);
    Requests(env, log)[|Requests(env, log[..n])|..]
  }

  lemma SplitAt(env: Circumstances, log: seq<Handled>, n: nat)
    requires n <= |log|
    ensures Requests(env, log) == Requests(env, log[..n]) + RequestsAfter(env, log, n)
  {
    hide Requests;
    RequestsGrow(env, log, n);
  }

  /** The first k requests after the first n messages are made by the messages up to some m. */
  lemma CutAfter(env: Circumstances, log: seq<Handled>, n: nat, k: nat) returns (m: nat)
    requires n <= |log| && k <= |RequestsAfter(env, log, n)|
    ensures n <= m <= |log| && RequestsAfter(env, log[..m], n) == RequestsAfter(env, log, n)[..k]
    ensures k == |RequestsAfter(env, log, n)| ==> m == |log|
  {
    hide Requests;
    var early := |Requests(env, log[..n])|;
    SplitAt(env, log, n);
    if k == 0 {
      m := n;
    } else {
      m := CutAtRequest(env, log, early + k);
      if m < n {
        RequestsGrow(env, log[..n], m);
        assert log[..n][..m] == log[..m];
      }
    }
    if k == |RequestsAfter(env, log, n)| {
      m := |log|;
    }
    assert log[..|log|] == log && log[..m][..n] == log[..n];
    SplitAt(env, log[..m], n);
  }

  /** The input among the later requests is in the client's later messages. */
  lemma LaterInputs(env: Circumstances, log: seq<Handled>, n: nat, a: Address)
    requires n <= |log|
    ensures HandledFor(a, log[..n]) <= HandledFor(a, log)
    ensures InputsBy(a, RequestsAfter(env, log, n)) == InputsIn(HandledFor(a, log)[|HandledFor(a, log[..n])|..])
  {
    hide Requests, HandledFor, InputsBy, InputsIn;
    SplitAt(env, log, n);
    HandledGrows(log, n, a);
    var all, early := HandledFor(a, log), HandledFor(a, log[..n]);
    var later := all[|early|..];
    assert all == early + later;
    RequestsAreOwn(env, log, a);
    RequestsAreOwn(env, log[..n], a);
    InputsInAppend(early, later);
    InputsByAppend(a, Requests(env, log[..n]), RequestsAfter(env, log, n));
    SamePrefix(InputsIn(early), InputsBy(a, RequestsAfter(env, log, n)), InputsIn(later));
  }

  lemma SamePrefix<T>(x: seq<T>, y: seq<T>, z: seq<T>)
    requires x + y == x + z
    ensures y == z
  {
    assert (x + y)[|x|..] == y && (x + z)[|x|..] == z;
  }

  // ---- from histories to slots ----

  lemma {:induction false} LobbyAfterAppend(l: Lobby, xs: seq<Request>, ys: seq<Request>)
    ensures LobbyAfter(l, xs + ys) == LobbyAfter(LobbyAfter(l, xs), ys)
    ensures AllAllowed(l, xs + ys) <==> AllAllowed(l, xs) && AllAllowed(LobbyAfter(l, xs), ys)
    decreases |ys|
  {
    hide Handle, Allowed;
    if ys == [] {
      assert xs + ys == xs;
    } else {
      LobbyAfterAppend(l, xs, ys[..|ys| - 1]);
      assert (xs + ys)[..|xs + ys| - 1] == xs + ys[..|ys| - 1];
    }
  }

  /** The game input in a client's messages c to d. */
  ghost function InputsSent(history: seq<Payload>, c: nat, d: nat): seq<Message>
    requires c <= d <= |history|
  {
    InputsIn(WirePrefix(history, d)[c..])
  }

  /** A log that holds, of every client's messages, the first ones in the order sent. */
  ghost predicate LogOf(histories: Histories, log: seq<Handled>) {
    forall a :: PrefixSent(History(histories, a), HandledFor(a, log))
  }

  ghost predicate PrefixSent(history: seq<Payload>, handled: seq<ParsedMessage>) {
    |handled| <= |history| && handled == WirePrefix(history, |handled|)
  }

  lemma PartInOrder(history: seq<Payload>, handled: seq<ParsedMessage>, part: seq<ParsedMessage>)
    requires PrefixSent(history, handled) && part <= handled
    ensures PrefixSent(history, part)
  {
    assert part == handled[..|part|];
  }

  lemma PartOfLog(histories: Histories, log: seq<Handled>, n: nat)
    requires LogOf(histories, log) && n <= |log|
    ensures LogOf(histories, log[..n])
  {
    hide HandledFor, PrefixSent;
    forall a ensures PrefixSent(History(histories, a), HandledFor(a, log[..n])) {
      HandledGrows(log, n, a);
      PartInOrder(History(histories, a), HandledFor(a, log), HandledFor(a, log[..n]));
    }
  }

  /** What the network may do: lose, repeat and reorder datagrams within the window of every session. */
  ghost predicate Delivered(histories: Histories, arrivals: seq<Arrival>) {
    && Possible(histories, arrivals) && AllHistoriesPrintable(histories)
    && forall a <- histories :: TimelyFor(histories, arrivals, a)
  }

  lemma NetworkLog(histories: Histories, arrivals: seq<Arrival>)
    requires Delivered(histories, arrivals)
    ensures LogOf(histories, SessionsAfter(histories, arrivals).log)
  {
    var log := SessionsAfter(histories, arrivals).log;
    forall a ensures PrefixSent(History(histories, a), HandledFor(a, log)) {
      HandledIsSent(histories, arrivals, a);
    }
  }

  /**
   The packets that an address is heard to send in a game are those it meant with some of its own
   messages: from the first one not handled when the game started (c of them were), up to some d.
   */
  ghost predicate HeardFromHistory(history: seq<Payload>, c: nat, d: nat, packets: seq<Bytes>) {
    c <= d <= |history| && packets == Meant(InputsSent(history, c, d)).blocks
  }

  /** A slot hears its own player's messages, up to the player's departure, in the order sent. */
  lemma SlotHearsItsHistory(histories: Histories, log: seq<Handled>, env: Circumstances, n: nat, g: GameId,
                            players: nat, i: nat, b: Address) returns (d: nat)
    requires LogOf(histories, log) && n <= |log| && AllAllowed(EMPTY_LOBBY, Requests(env, log))
    requires var l, qs := LobbyAfter(EMPTY_LOBBY, Requests(env, log[..n])), RequestsAfter(env, log, n);
             InPlay(l, qs, g) && i < players && Position(l.games[g].players, b) == Some(i)
    ensures var l, qs := LobbyAfter(EMPTY_LOBBY, Requests(env, log[..n])), RequestsAfter(env, log, n);
            && HeardFromHistory(History(histories, b), |HandledFor(b, log[..n])|, d,
                                PacketsIn(Project(HeardOver(players, l, qs, g), i)))
            && d <= |HandledFor(b, log)|
            && (InGame(LobbyAfter(l, qs), b, g) ==> d == |HandledFor(b, log)|)
  {
    hide Inv, AllAllowed, LobbyAfter, Requests, HandledFor, InputsBy, InputsIn, Position, CallsOf, InPlay;
    hide RunningThroughout;
    var l, qs := LobbyAfter(EMPTY_LOBBY, Requests(env, log[..n])), RequestsAfter(env, log, n);
    SplitAt(env, log, n);
    LobbyAfterAppend(EMPTY_LOBBY, Requests(env, log[..n]), qs);
    ReachableStatesAreSound(Requests(env, log[..n]));
    PlayIsRunning(l, qs, g);
    var roster := l.games[g].players;
    var calls := CallsOf(l, qs, g, roster);
    SlotHearsItsPlayer(l, qs, g, roster, b, i);
    HeardIsOwn(players, calls, i);
    HeardIsMeant(OwnEvents(calls, i));
    var m := CutAfter(env, log, n, Stay(l, qs, g, b));
    LaterInputs(env, log[..m], n, b);
    assert log[..m][..n] == log[..n];
    PartOfLog(histories, log, m);
    HandledGrows(log, m, b);
    d := |HandledFor(b, log[..m])|;
    assert PrefixSent(History(histories, b), HandledFor(b, log[..m]));
    if Stay(l, qs, g, b) < |qs| {
      GoneIsGone(l, qs, g, b);
    } else {
      assert log[..m] == log;
    }
  }

  lemma PlayIsRunning(l: Lobby, qs: seq<Request>, g: GameId)
    requires InPlay(l, qs, g)
    ensures g in l.games && RunningBefore(l, qs, g)
  {
  }

  lemma InputsSentGrow(history: seq<Payload>, c: nat, d: nat)
    requires c <= d <= |history|
    ensures InputsSent(history, c, d) <= InputsSent(history, c, |history|)
  {
    hide InputsIn;
    var all, part := WirePrefix(history, |history|)[c..], WirePrefix(history, d)[c..];
    assert all == part + all[|part|..];
    InputsInAppend(part, all[|part|..]);
  }

  /**
   So a client whose input since the start encodes packets, through one cache from empty, is heard to
   send the first of these.
   */
  lemma EncoderIsHeard(history: seq<Payload>, c: nat, d: nat, packets: seq<Bytes>, xs: seq<Bytes>)
    requires HeardFromHistory(history, c, d, packets)
    requires InputsSent(history, c, |history|) == EncodeAll(false, [], xs).messages
    ensures |packets| <= |xs| && packets == xs[..|packets|]
    ensures d == |history| ==> packets == xs
  {
    hide EncodeAll, Meant, InputsSent;
    InputsSentGrow(history, c, d);
    var n := |InputsSent(history, c, d)|;
    EncodedPrefixIsMeant(xs, |xs|);
    EncodedPrefixIsMeant(xs, n);
    assert EncodeAll(false, [], xs).messages[..n] == InputsSent(history, c, d);
    assert xs[..|xs|] == xs;
  }

  /**
   From what the clients send to what they decode. Over a network that loses, repeats and reorders
   within the window, in any run of the server from start-up: what is handled is, for every client,
   a prefix of what it sent; each player of a game started along the way is heard to send what it
   meant with its own messages since the start, up to its departure; and a player decodes the
   warm-up blocks and then the batches of the combined rows of just that, exactly when no send
   loop has stopped before a response of its own.
   */
  lemma NetworkEndToEnd(
      histories: Histories, arrivals: seq<Arrival>, env: Circumstances, log: seq<Handled>, n: nat,
      delays: seq<nat>, warmups: seq<nat>, disabled: bool, g: GameId, a: Address, p: nat, rule: PushRule)
    requires Delivered(histories, arrivals) && log <= SessionsAfter(histories, arrivals).log
    requires n <= |log| && AllAllowed(EMPTY_LOBBY, Requests(env, log))
    requires Played(delays, warmups, disabled, LobbyAfter(EMPTY_LOBBY, Requests(env, log[..n])),
                    RequestsAfter(env, log, n), g, a, p)
    ensures LogOf(histories, log)
    ensures var l, qs := LobbyAfter(EMPTY_LOBBY, Requests(env, log[..n])), RequestsAfter(env, log, n);
            && (forall b, i: nat | i < |delays| && Position(l.games[g].players, b) == Some(i) ::
                  PlayerIsHeard(histories, log, n, l, qs, g, |delays|, i, b))
            && var decoded := DecodeAll(rule, [], SentOver(l, qs, g, a));
               (decoded.Some? && decoded.value.blocks == Shape(delays, warmups, HeardOver(|delays|, l, qs, g), p)
                <==> UnharmedOver(l, qs, g, p))
  {
    hide Inv, AllAllowed, LobbyAfter, Requests, RequestsAfter, HandledFor, Position, CallsOf, InPlay;
    hide WarmupsInTurn, SentOver;
    hide UnharmedOver, JustStarted, PlayerIsHeard, Shape, HeardOver, LogOf, SessionsAfter;
    var l, qs := LobbyAfter(EMPTY_LOBBY, Requests(env, log[..n])), RequestsAfter(env, log, n);
    NetworkLog(histories, arrivals);
    PartOfLog(histories, SessionsAfter(histories, arrivals).log, |log|);
    assert log == SessionsAfter(histories, arrivals).log[..|log|];
    SplitAt(env, log, n);
    LobbyAfterAppend(EMPTY_LOBBY, Requests(env, log[..n]), qs);
    ReachableStatesAreSound(Requests(env, log[..n]));
    PlayIsRunning(l, qs, g);
    forall b, i: nat | i < |delays| && Position(l.games[g].players, b) == Some(i)
      ensures PlayerIsHeard(histories, log, n, l, qs, g, |delays|, i, b)
    {
      OnePlayerIsHeard(histories, log, env, n, g, |delays|, i, b);
    }
    ServerEndToEnd(delays, warmups, disabled, l, qs, g, a, p, rule);
  }

  /**
   Slot i hears its player b: everything b has sent since the start and that has been handled, if b is
   still there.
   */
  ghost predicate PlayerIsHeard(histories: Histories, log: seq<Handled>, n: nat, l: Lobby, qs: seq<Request>, g: GameId,
                                players: nat, i: nat, b: Address)
    requires n <= |log| && g in l.games
  {
    exists d: nat | d <= |HandledFor(b, log)| && (InGame(LobbyAfter(l, qs), b, g) ==> d == |HandledFor(b, log)|) ::
      HeardFromHistory(History(histories, b), |HandledFor(b, log[..n])|, d,
                       PacketsIn(Project(HeardOver(players, l, qs, g), i)))
  }

  lemma OnePlayerIsHeard(histories: Histories, log: seq<Handled>, env: Circumstances, n: nat, g: GameId,
                         players: nat, i: nat, b: Address)
    requires LogOf(histories, log) && n <= |log| && AllAllowed(EMPTY_LOBBY, Requests(env, log))
    requires var l, qs := LobbyAfter(EMPTY_LOBBY, Requests(env, log[..n])), RequestsAfter(env, log, n);
             InPlay(l, qs, g) && i < players && Position(l.games[g].players, b) == Some(i)
    ensures var l, qs := LobbyAfter(EMPTY_LOBBY, Requests(env, log[..n])), RequestsAfter(env, log, n);
            PlayerIsHeard(histories, log, n, l, qs, g, players, i, b)
  {
    hide LogOf, AllAllowed, Requests, RequestsAfter, InPlay, Position, HeardFromHistory, HandledFor, HeardOver;
    var d := SlotHearsItsHistory(histories, log, env, n, g, players, i, b);
  }
}
