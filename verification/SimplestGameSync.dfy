/** `SimplestGameSync`: the combiner as an object, with per-player input queues and send buffers. */
module Combiner {
  import opened Common
  import opened Lockstep
  import opened LockstepRuns

  /** What is left of a player's frames once n of them have been used. */
  ghost function Remaining(frames: seq<Bytes>, n: nat): seq<Bytes> {
    if n <= |frames| then frames[n..] else []
  }

  function Front(queue: seq<Bytes>, size: nat): Bytes {
    if queue != [] then queue[0] else Zeros(size)
  }

  function Popped(queue: seq<Bytes>): seq<Bytes> {
    if queue != [] then queue[1..] else []
  }

  lemma RemainingStep(frames: seq<Bytes>, n: nat, size: nat)
    ensures Front(Remaining(frames, n), size) == if n < |frames| then frames[n] else Zeros(size)
    ensures Popped(Remaining(frames, n)) == Remaining(frames, n + 1)
  {
  }

  /** The queues and buffers of a combiner that has combined n rows of game g. */
  ghost predicate StandsFor(queues: seq<seq<Bytes>>, buffers: seq<seq<Bytes>>, g: Game, n: nat)
    requires g.Valid()
  {
    && |queues| == |buffers| == |g.frames|
    && (forall i | 0 <= i < |queues| :: queues[i] == Remaining(g.frames[i], n))
    && (forall p | 0 <= p < |buffers| :: buffers[p] == Unsent(g, g.delays[p], n))
  }

  /** The rows among the first n that do not fill a batch of d yet. */
  ghost function Unsent(g: Game, d: nat, n: nat): seq<Bytes>
    requires d >= 1
  {
    g.RowRange(Batched(d, n), n)
  }

  /** Adding row n to a buffer fills it exactly when it completes a batch, and never overfills it. */
  lemma BufferFills(g: Game, d: nat, n: nat)
    requires d >= 1 && |g.frames| >= 1
    ensures var buffer := Unsent(g, d, n) + g.Row(n);
            && 1 <= |buffer| <= d * |g.frames|
            && (|buffer| == d * |g.frames| ==>
                  g.BatchEndingAt(d, n + 1) == [Flatten(buffer)] && Unsent(g, d, n + 1) == [])
            && (|buffer| < d * |g.frames| ==> g.BatchEndingAt(d, n + 1) == [] && Unsent(g, d, n + 1) == buffer)
  {
    hide Unsent, Game.BatchEndingAt;
    BatchEnds(g, d, n);
    FillsAtTheEnd(n % d, d, |g.frames|);
  }

  /** The batch ends with row n exactly when that row is the last of d. */
  lemma BatchEnds(g: Game, d: nat, n: nat)
    requires d >= 1
    ensures var buffer, r := Unsent(g, d, n) + g.Row(n), n % d;
            && |buffer| == (r + 1) * |g.frames|
            && if r + 1 == d then g.BatchEndingAt(d, n + 1) == [Flatten(buffer)] && Unsent(g, d, n + 1) == []
               else g.BatchEndingAt(d, n + 1) == [] && Unsent(g, d, n + 1) == buffer
  {
    hide Flatten;
    ModSucc(n, d);
    var r := n % d;
    assert g.RowRange(n - r, n + 1) == Unsent(g, d, n) + g.Row(n);
    RowRangeLength(g, n - r, n + 1);
  }

  lemma FillsAtTheEnd(r: nat, d: nat, players: nat)
    requires r < d && players >= 1
    ensures 1 <= (r + 1) * players <= d * players
    ensures (r + 1) * players == d * players <==> r + 1 == d
  {
    AtLeastOne(r + 1, players);
    Monotone(r + 1, d, players);
  }

  class SimplestGameSync {
    var playerInput: seq<seq<Bytes>>
    var senderBuffer: seq<seq<Bytes>>
    var playerDelays: seq<nat>
    var droppedPlayers: seq<bool>
    var gameDataSize: nat

    ghost var game: Game
    ghost var combined: nat

    /** Consistent with `game`, although more rows may be ready to be combined. */
    ghost predicate Consistent()
      reads this
    {
      && game.Valid()
      && game.delays == playerDelays
      && game.dropped == droppedPlayers
      && game.frameSize == gameDataSize
      && combined <= game.Rows()
      && StandsFor(playerInput, senderBuffer, game, combined)
    }

    /** Between calls every row that can be combined has been. */
    ghost predicate Valid()
      reads this
    {
      Consistent() && combined == game.Rows()
    }

    constructor (delays: seq<nat>)
      requires DelaysPositive(delays)
      ensures Valid()
      ensures game == New(delays)
    {
      playerInput := seq(|delays|, _ => []);
      senderBuffer := seq(|delays|, _ => []);
      playerDelays := delays;
      droppedPlayers := seq(|delays|, _ => false);
      gameDataSize := 0;
      game := New(delays);
      combined := 0;
      new;
      NewHasNoRows(delays);
    }

    method ProcessClientInput(player: nat, input: Bytes) returns (r: Result<seq<Output>, GameSyncError>)
      requires Valid()
      modifies this
      ensures Valid()
      ensures game == AfterInput(old(game), player, input)
      ensures r == if player < |playerDelays| then Ok(Sent(old(game), game))
          else Err(InvalidPlayerId(player, |playerDelays|))
    {
      if player >= |playerInput| {
        return Err(InvalidPlayerId(player, |playerInput|));
      }
      if droppedPlayers[player] {
        return Ok([]);
      }
      AcceptInput(player, input);
      var results := DrainReadyInputs();
      r := Ok(results);
    }

    /** Cut a live player's packet into frames and queue them; nothing is combined yet. */
    method AcceptInput(player: nat, input: Bytes)
      requires Valid()
      requires player < |playerDelays| && !droppedPlayers[player]
      modifies `playerInput, `gameDataSize, `game
      ensures Consistent()
      ensures game == AfterInput(old(game), player, input)
    {
      var delay := playerDelays[player];
      ghost var g, queues := game, playerInput;
      if delay > 0 && input != [] {
        var chunkSize := |input| / delay;
        if chunkSize > 0 {
          if gameDataSize == 0 {
            gameDataSize := chunkSize;
          }
          QueueChunks(player, input, chunkSize);
          game := AfterPacket(g, player, Chunks(input, chunkSize), chunkSize);
          ChunkCountBounds(input, chunkSize);
          EventsExtend(g, Input(player, input));
          RowsGrow(g, game);
          QueuesAfterInput(queues, playerInput, senderBuffer, g, game, player, Chunks(input, chunkSize), combined);
        }
      }
    }

    /** The loop over `input.chunks(chunk_size)`. */
    method QueueChunks(player: nat, input: Bytes, chunkSize: nat)
      requires player < |playerInput| && chunkSize >= 1
      modifies `playerInput
      ensures playerInput == old(playerInput)[player := old(playerInput)[player] + Chunks(input, chunkSize)]
    {
      var rest := input;
      while rest != []
        invariant |playerInput| == |old(playerInput)|
        invariant playerInput == old(playerInput)[player := playerInput[player]]
        invariant playerInput[player] + Chunks(rest, chunkSize) == old(playerInput)[player] + Chunks(input, chunkSize)
        decreases |rest|
      {
        var size := if |rest| <= chunkSize then |rest| else chunkSize;
        var chunk := rest[..size];
        if |rest| <= chunkSize {
          assert chunk == rest && rest[size..] == [];
        }
        assert Chunks(rest, chunkSize) == [chunk] + Chunks(rest[size..], chunkSize);
        Associative(playerInput[player], [chunk], Chunks(rest[size..], chunkSize));
        playerInput := playerInput[player := playerInput[player] + [chunk]];
        rest := rest[size..];
      }
      assert playerInput[player] == playerInput[player] + Chunks(rest, chunkSize);
    }

    method DrainReadyInputs() returns (results: seq<Output>)
      requires Consistent()
      modifies this
      ensures Valid()
      ensures game == old(game)
      ensures results == game.Emitted(old(combined), game.Rows())
    {
      results := [];
      while AllReady() && HasAnyInput()
        invariant Consistent()
        invariant game == old(game) && old(combined) <= combined
        invariant results == game.Emitted(old(combined), combined)
        decreases game.Rows() - combined
      {
        GuardIsReady();
        EmittedOne(game, old(combined), combined);
        var sent := CombineRow();
        results := results + sent;
      }
      GuardIsReady();
      RowsIsWhereDrainingStops(game, combined);
    }

    /** Every player has input or is dropped. */
    predicate AllReady()
      requires |playerInput| == |droppedPlayers|
      reads this
    {
      forall i | 0 <= i < |playerInput| :: playerInput[i] != [] || droppedPlayers[i]
    }

    predicate HasAnyInput()
      reads this
    {
      exists i | 0 <= i < |playerInput| :: playerInput[i] != []
    }

    lemma GuardIsReady()
      requires Consistent()
      ensures Ready(game, combined) <==> AllReady() && HasAnyInput()
    {
      assert forall i | 0 <= i < |playerInput| :: playerInput[i] != [] <==> combined < |game.frames[i]|;
    }

    /** One pass of the draining loop. */
    method CombineRow() returns (sent: seq<Output>)
      requires Consistent() && Ready(game, combined)
      modifies `playerInput, `senderBuffer, `combined
      ensures Consistent()
      ensures combined == old(combined) + 1 <= game.Rows()
      ensures sent == game.EmittedByRow(combined, |game.delays|)
    {
      RowsIsWhereDrainingStops(game, combined);
      var extracted := ExtractInputs();
      sent := Distribute(extracted);
      combined := combined + 1;
    }

    /** Pop one frame per player, zeros for a dropped player with none left. */
    method PopFronts() returns (extracted: seq<Bytes>)
      requires |playerInput| == |droppedPlayers|
      requires AllReady()
      modifies `playerInput
      ensures |extracted| == |playerInput| == |old(playerInput)|
      ensures forall i | 0 <= i < |extracted| :: extracted[i] == Front(old(playerInput)[i], gameDataSize)
      ensures forall i | 0 <= i < |extracted| :: playerInput[i] == Popped(old(playerInput)[i])
    {
      extracted := [];
      for i := 0 to |playerInput|
        invariant |playerInput| == |old(playerInput)| && |extracted| == i
        invariant forall j | 0 <= j < i :: extracted[j] == Front(old(playerInput)[j], gameDataSize)
        invariant forall j | 0 <= j < i :: playerInput[j] == Popped(old(playerInput)[j])
        invariant forall j | i <= j < |playerInput| :: playerInput[j] == old(playerInput)[j]
      {
        if playerInput[i] != [] {
          extracted := extracted + [playerInput[i][0]];
          playerInput := playerInput[i := playerInput[i][1..]];
        } else if droppedPlayers[i] {
          extracted := extracted + [Zeros(gameDataSize)];
        }
      }
    }

    /** The fronts of the queues are the next row. */
    method ExtractInputs() returns (extracted: seq<Bytes>)
      requires Consistent() && Ready(game, combined)
      modifies `playerInput
      ensures extracted == game.Row(combined)
      ensures |playerInput| == |game.frames|
      ensures forall i | 0 <= i < |playerInput| :: playerInput[i] == Remaining(game.frames[i], combined + 1)
    {
      GuardIsReady();
      extracted := PopFronts();
      forall i | 0 <= i < |extracted|
        ensures extracted[i] == game.Cell(i, combined)
        ensures playerInput[i] == Remaining(game.frames[i], combined + 1)
      {
        RemainingStep(game.frames[i], combined, gameDataSize);
      }
    }

    /** Append the row to every send buffer, then send each buffer that has become full. */
    method Distribute(extracted: seq<Bytes>) returns (sent: seq<Output>)
      requires game.Valid() && game.delays == playerDelays
      requires extracted == game.Row(combined)
      requires |senderBuffer| == |game.frames|
      requires forall p | 0 <= p < |senderBuffer| :: senderBuffer[p] == Unsent(game, playerDelays[p], combined)
      modifies `senderBuffer
      ensures |senderBuffer| == |game.frames|
      ensures forall p | 0 <= p < |senderBuffer| :: senderBuffer[p] == Unsent(game, playerDelays[p], combined + 1)
      ensures sent == game.EmittedByRow(combined + 1, |playerDelays|)
    {
      hide AddressTo, Unsent, Game.BatchEndingAt, Game.BatchesOfRow;
      AppendToAll(extracted);
      var players := |playerDelays|;
      sent := [];
      for pid := 0 to |senderBuffer|
        invariant |senderBuffer| == |game.frames|
        invariant forall q | 0 <= q < pid :: senderBuffer[q] == Unsent(game, playerDelays[q], combined + 1)
        invariant forall q | pid <= q < |senderBuffer| ::
            senderBuffer[q] == Unsent(game, playerDelays[q], combined) + extracted
        invariant sent == game.EmittedByRow(combined + 1, pid)
      {
        EmittedByRowOne(game, combined + 1, pid);
        var outputs := SendTo(pid, players, extracted);
        sent := sent + outputs;
      }
    }

    method AppendToAll(extracted: seq<Bytes>)
      modifies `senderBuffer
      ensures |senderBuffer| == |old(senderBuffer)|
      ensures forall p | 0 <= p < |senderBuffer| :: senderBuffer[p] == old(senderBuffer)[p] + extracted
    {
      for p := 0 to |senderBuffer|
        invariant |senderBuffer| == |old(senderBuffer)|
        invariant forall q | 0 <= q < p :: senderBuffer[q] == old(senderBuffer)[q] + extracted
        invariant forall q | p <= q < |senderBuffer| :: senderBuffer[q] == old(senderBuffer)[q]
      {
        senderBuffer := senderBuffer[p := senderBuffer[p] + extracted];
      }
    }

    /** One player's turn in the sending loop. */
    method SendTo(pid: nat, players: nat, ghost extracted: seq<Bytes>) returns (outputs: seq<Output>)
      requires game.Valid() && game.delays == playerDelays && players == |playerDelays|
      requires pid < |senderBuffer| == |game.frames|
      requires extracted == game.Row(combined)
      requires senderBuffer[pid] == Unsent(game, playerDelays[pid], combined) + extracted
      modifies `senderBuffer
      ensures senderBuffer == old(senderBuffer)[pid := Unsent(game, playerDelays[pid], combined + 1)]
      ensures outputs == AddressTo(pid, game.BatchEndingAt(playerDelays[pid], combined + 1))
    {
      BufferFills(game, playerDelays[pid], combined);
      var requireLen := playerDelays[pid] * players;
      outputs := SendFull(pid, requireLen);
    }

    /** The innermost loop: send batches while the buffer holds one. */
    method SendFull(pid: nat, requireLen: nat) returns (outputs: seq<Output>)
      requires pid < |senderBuffer| && 1 <= requireLen
      requires |senderBuffer[pid]| <= requireLen
      modifies `senderBuffer
      ensures |old(senderBuffer)[pid]| == requireLen ==>
                && senderBuffer == old(senderBuffer)[pid := []]
                && outputs == AddressTo(pid, [Flatten(old(senderBuffer)[pid])])
      ensures |old(senderBuffer)[pid]| < requireLen ==> senderBuffer == old(senderBuffer) && outputs == []
    {
      outputs := [];
      while |senderBuffer[pid]| >= requireLen
        invariant |senderBuffer| == |old(senderBuffer)|
        invariant senderBuffer == old(senderBuffer)[pid := senderBuffer[pid]]
        invariant if outputs == [] then senderBuffer == old(senderBuffer)
                  else && |old(senderBuffer)[pid]| == requireLen
                       && senderBuffer[pid] == []
                       && outputs == [Output(pid, Flatten(old(senderBuffer)[pid]))]
        decreases |senderBuffer[pid]|
      {
        var output := Flatten(senderBuffer[pid][..requireLen]);
        assert senderBuffer[pid][..requireLen] == old(senderBuffer)[pid];
        outputs := outputs + [Output(pid, output)];
        senderBuffer := senderBuffer[pid := senderBuffer[pid][requireLen..]];
      }
    }

    method MarkPlayerDropped(player: nat) returns (r: Result<seq<Output>, GameSyncError>)
      requires Valid()
      modifies this
      ensures Valid()
      ensures game == AfterDrop(old(game), player)
      ensures r == if player < |playerDelays| then Ok(Sent(old(game), game))
          else Err(InvalidPlayerId(player, |playerDelays|))
    {
      if player >= |droppedPlayers| {
        return Err(InvalidPlayerId(player, |droppedPlayers|));
      }
      DropOnlyRaises(game, player);
      droppedPlayers := droppedPlayers[player := true];
      game := AfterDrop(game, player);
      assert forall p | 0 <= p < |senderBuffer| :: senderBuffer[p] == Unsent(old(game), game.delays[p], combined);
      forall p | 0 <= p < |senderBuffer|
        ensures Unsent(old(game), game.delays[p], combined) == Unsent(game, game.delays[p], combined)
      {
        EventsExtend(old(game), Drop(player));
        RowRangeStable(old(game), game, Batched(game.delays[p], combined), combined);
      }
      var results := DrainReadyInputs();
      r := Ok(results);
    }

    predicate IsPlayerDropped(player: nat)
      reads this
    {
      player < |droppedPlayers| && droppedPlayers[player]
    }

    predicate AllPlayersDropped()
      reads this
    {
      forall i | 0 <= i < |droppedPlayers| :: droppedPlayers[i]
    }
  }

  /** Queueing a packet's frames turns the representation of g into one of the game after the packet. */
  lemma QueuesAfterInput(queues: seq<seq<Bytes>>, queues': seq<seq<Bytes>>, buffers: seq<seq<Bytes>>,
                         g: Game, g': Game, player: nat, frames: seq<Bytes>, n: nat)
    requires Extends(g, g') && n == g.Rows()
    requires StandsFor(queues, buffers, g, n)
    requires player < |g.frames| && !g.dropped[player]
    requires g'.frames == g.frames[player := g.frames[player] + frames]
    requires queues' == queues[player := queues[player] + frames]
    ensures StandsFor(queues', buffers, g', n)
  {
    RowsClosedForm(g);
    assert g.IsLive(player);
    assert Remaining(g.frames[player] + frames, n) == Remaining(g.frames[player], n) + frames;
    forall p | 0 <= p < |buffers|
      ensures Unsent(g, g.delays[p], n) == Unsent(g', g.delays[p], n)
    {
      RowRangeStable(g, g', Batched(g.delays[p], n), n);
    }
  }
}
