# A proved model of the Kaillera server's game synchronisation

This project models three parts of the server and proves what whole runs of them do.

* **The lockstep stack** (`src/simplest_game_sync.rs`). `InputCache`, `SimplestGameSync`,
  `CachedGameSync` and `DelayedGameSync` are classes with the source's fields and loops. Each is
  proved against a value: the caches are sequences, the combiner is `Lockstep.Game` (everybody's
  frames so far, who has dropped, and the learned frame size), the stack is `DelayedGame.Delayed`.
  How many rows have been combined, what each row holds and what each player has been sent are
  then closed forms of that value, and the theorems about runs are about those.
* **The transport** (`src/kaillera/protocol.rs`, `src/packet_util.rs`, the session part of
  `src/main.rs`). The bundler and the parser are inverses; composed with the reorder buffer over
  arbitrary loss, duplication and reordering, the receiver is a set of numbers with a least
  missing element.
* **The rooms** (`src/handlers/game.rs`, `src/state.rs`, `src/handlers/util.rs`). Each handler is
  one atomic step of a state machine over clients, rooms and engines, and the objects of
  `RoomServer` are proved to take exactly those steps. While a game runs, positions in a room's
  player list are engine slots, which is what makes the stream theorems about slots theorems
  about players.

The parts meet in `NetworkRuns.NetworkEndToEnd`. Clients' datagrams may be lost, repeated and
reordered within the window of each session. What the server handles for a client is then what the
client sent, in order, up to the first message lost, and the request each message makes is read off
its bytes. In any run of the server from start-up, for any game started along the way and amid any
other requests, each player of the game is heard to send what it meant with its own messages since
the start, up to its departure, in that order. The engine answers a player with its warm-up blocks
and then the batches of the combined rows of just that. The player decodes exactly this from what
the game sends its address *if and only if* no send loop of the game has stopped before a response
of its own: a send loop stops at the first address that is no longer a client's
(`ServerRuns.SentIsAnsweredExact`). As long as nobody listed in the game has left the server,
nothing is lost (`ServerRuns.NobodyGoneUnharmed`); `ServerExamples.DepartureStarves` is a run from
start-up in which one player leaves the server and the other, who stays, is sent nothing.
`NetworkExample.LossyEcho` is a run over the network that meets every condition.

| file | contents |
|---|---|
| `Common.dfy` | options, results, flattening, division facts |
| `InputCache.dfy`, `CacheHistory.dfy` | the 256-slot FIFO and its content index; caches, positions and errors told from the messages alone |
| `Lockstep.dfy`, `LockstepRuns.dfy` | the combiner in closed form; runs and streams |
| `Frames.dfy` | which bytes of which packet a frame is |
| `Interleavings.dfy` | what a run depends on, and when the order of arrival shows |
| `SimplestGameSync.dfy` | the combiner as an object updated in place |
| `Codec.dfy` | both ends of the cache protocol |
| `CachedGame.dfy`, `CacheNotices.dfy`, `CachedGameSync.dfy` | the combiner behind caches, as a value and as an object; overflow and milestones |
| `Startup.dfy`, `Streams.dfy`, `FlowControl.dfy` | warm-up, catch-up, pass-through; the stream's shape; liveness |
| `DelayedGame.dfy`, `DelayedGameSync.dfy` | the whole stack, as a value and as an object; end to end |
| `SystemRuns.dfy`, `DelayedRuns.dfy` | liveness and interleaving of the whole stack; runs with any clients |
| `Packets.dfy` | parser, printer, bundler |
| `Session.dfy`, `SessionRuns.dfy` | the receiver and the set theorem |
| `BurstLoss.dfy`, `Resend.dfy` | consecutive losses; resending |
| `Rooms.dfy`, `RoomProofs.dfy` | room and lobby steps and what they send; what each room step keeps |
| `LobbyRuns.dfy`, `SlotRuns.dfy`, `Outcomes.dfy` | the server invariant; slot stability; exactly when each request takes effect and what it then changes |
| `Deliveries.dfy`, `GameRuns.dfy`, `ServerRuns.dfy` | what a request sends; games inside the server; what a run sends |
| `Reading.dfy`, `RequestFormats.dfy`, `GameInputs.dfy` | what the handlers read from messages; how clients write them, byte by byte; what reaches a player's slot |
| `Network.dfy`, `NetworkRuns.dfy` | sessions over a network; end to end |
| `ServerExamples.dfy`, `NetworkExample.dfy` | runs from start-up |
| `RoomServer.dfy` | the rooms and the server state as objects |

Where the code and the documents differ, the model follows the code. `GAME_SYNC_PROTOCOL.md`
describes fixed 2-byte frames and preemptive padding; the code cuts a packet into as many frames as
the sender's delay and pads through the startup layer instead. `protocol.txt:312-313` lets a client
add a block to its cache only if it is not there, the reference decoder adds it always;
`Codec.ReceiversAgree` shows that the server's sender makes the two indistinguishable. A player
that quits a running game keeps being sent its slot's responses until the game ends
(`ServerDeliveries.SentToMembersOrLeavers`), also when it has joined another game meanwhile.

These properties hold only under a condition. Each is stated with the exact one, and most come with
an input on which they fail.

* Outputs do not depend on the order of arrival: exactly when the first packets that count have
  the same frame size or no zero fill is sent (`Interleavings.InterleavingExact`,
  `Interleavings.OrderMatters`).
* Warm-up blocks are all as large as the size finally known: exactly when none is answered before
  a nonempty packet is heard (`Streams.WarmupBlocksEqual`, `Streams.EmptyPacketUnsized`).
* A player is sent its warm-up blocks first and then its batches: at every moment of a run exactly
  when each of its warm-up packets finds no batch sent that looks different from its answer, which
  is always so for players that send no warm-up packet after dropping
  (`Streams.StreamShapeExact`, `Streams.LateWarmupOutOfTurn`).
* The whole stack's responses do not depend on the order of arrival: exactly when the warm-up blocks
  are the same and the combiner learns the same frame size or the player is sent no zero fill
  (`SystemRuns.SystemInterleavingExact`, `SystemRuns.WarmupShowsOrder`).
* A player is sent what its slot is answered: exactly when no send loop has stopped before a response
  of its own (`ServerRuns.SentIsAnsweredExact`, `ServerExamples.DepartureStarves`).
* What is received is kept: a late first bundle empties the buffer, which loses nothing exactly
  when nothing was buffered (`SessionRuns.LateFirstBundleForgets`, `SessionRuns.OvertakenFirstBundle`).
* Consecutive losses are made good: exactly when no three bundles in a row are lost
  (`BurstLoss.BurstLossExact`, `BurstLoss.LongBurstStalls`).
* One message round-trips: exactly when it is shorter than 65535 bytes
  (`Packets.OneMessageRoundTripsExactly`).
* The room invariant survives a request: exactly unless an owner kicks itself out of a waiting room
  where it is alone, or a login replaces another client that is in a game, is given a user id still
  in use, or takes a name still in use because its search met an orphaned session of that name
  (`LobbyRuns.HandleExact`, `LobbyRuns.SelfKickBreaks`, `LobbyRuns.SecondLoginBreaks`,
  `LobbyRuns.OrphanHidesClient`).

## Model

| member | source | states |
|---|---|---|
| InputCaches.PositionsExact | src/simplest_game_sync.rs:39-41 | the index lists exactly the live absolute positions of a content, through duplicates |
| InputCaches.PositionsIncrease | src/simplest_game_sync.rs:39-41 | ... in strictly increasing order, so the back of a list is the newest entry |
| InputCaches.ScanIsLastPosition | src/simplest_game_sync.rs:63-74 | the last indexed position, relative to the head, is the answer of a linear scan from the newest entry |
| InputCaches.IndexEvict | src/simplest_game_sync.rs:78-86 | popping the front of the evicted content's list, and the list if it empties, is the index of the remaining slots |
| InputCaches.IndexAppend | src/simplest_game_sync.rs:90-95 | pushing the next absolute position onto the content's list is the index of the extended slots |
| InputCaches.PushedIsLatest | src/simplest_game_sync.rs:77-97 | pushing one block after the other leaves the last 256 of all pushed, in order |
| InputCaches.InputCache.constructor | src/simplest_game_sync.rs:53-59 | a new cache is empty and its index agrees |
| InputCaches.InputCache.Find | src/simplest_game_sync.rs:63-74 | returns the greatest matching position, None iff absent; the cast to one byte loses nothing |
| InputCaches.InputCache.Push | src/simplest_game_sync.rs:77-97 | after n pushes the slots are the last 256 blocks pushed, in order; the n-th push reports an eviction iff n > 256; index and slots stay in agreement, also when the evicted content is the one pushed |
| InputCaches.InputCache.Get | src/simplest_game_sync.rs:100-102 | an answer iff more blocks than the position have been pushed (so for every byte after 256), and then that block of the last 256, counted from the oldest |
| Lockstep.RowsIsWhereDrainingStops | src/simplest_game_sync.rs:318-326 | the closed-form row count is the least number at which the loop guard fails |
| Lockstep.RowsClosedForm | src/simplest_game_sync.rs:318-326 | rows combined = least frame count of a live player, or the greatest of all when everyone has dropped |
| Lockstep.RowsGrow | src/simplest_game_sync.rs:314-367 | later frames and drops never lower the row count |
| Lockstep.RowStable | src/simplest_game_sync.rs:329-342 | a row, once combined, never changes: frames stay, zero fills stay |
| Lockstep.BatchesAreTheRows | src/simplest_game_sync.rs:344-363 | a player's batches laid end to end are the rows, up to the last whole batch |
| Lockstep.BatchAt | src/simplest_game_sync.rs:357 | the j-th batch is rows j*d to (j+1)*d flattened |
| Lockstep.EmittedIsTheNewBatches | src/simplest_game_sync.rs:349-363 | what a drain sends a player is exactly the batches completed since the last one |
| Lockstep.SentInPlayerOrder | src/simplest_game_sync.rs:349-363 | the batches of one row are sent in player order |
| LockstepRuns.ChunksConcatenate | src/simplest_game_sync.rs:295-297 | the frames of a packet concatenate back to it |
| LockstepRuns.FrameCount | src/simplest_game_sync.rs:286-298 | a packet of at least delay bytes gives at least delay frames, exactly delay iff delay divides its length |
| LockstepRuns.ShortPacketIgnored | src/simplest_game_sync.rs:287-289 | a packet contributes nothing iff it is shorter than the delay |
| Frames.FrameAt | src/simplest_game_sync.rs:286-298 | with q = length / delay, frame j is bytes j*q to (j+1)*q of the packet, or up to its end, and there is one for each j with j*q below the length |
| Frames.PacketIsContributed | src/simplest_game_sync.rs:285-299 | over any history, each frame of each packet that counts is contributed, right after those of the packets before it |
| Frames.FrameComesFrom | src/simplest_game_sync.rs:285-299 | ... and every frame contributed is one of these |
| Frames.CellIsASlice | src/simplest_game_sync.rs:329-342 | over any run, a player's cell of row k is the slice of the packet its k-th frame comes from, or zeros of the learned size past its last frame |
| Frames.ReleasedFrameAt | src/simplest_game_sync.rs:657-667 | behind the startup layer, each frame of a released packet is its slice, right after those of the packets released before |
| Frames.WholePacketFrames | src/simplest_game_sync.rs:295-297 | with whole packets, frame k is slice k % delay of packet k / delay |
| LockstepRuns.TranscriptIsTheBatches | src/simplest_game_sync.rs:266-367 | over any run, a player has been sent exactly the batches of the rows combined |
| LockstepRuns.FramesAreOwnHistory | src/simplest_game_sync.rs:279-299 | a player's accepted frames depend on its own packets and drop alone |
| LockstepRuns.RowsAreOwnHistories | src/simplest_game_sync.rs:329-342 | row k column i is player i's k-th frame if it has one, else zeros of the learned size |
| LockstepRuns.LockstepRefinement | src/simplest_game_sync.rs:314-367 | over any run, n/d outputs have been sent and the j-th is rows j*d to (j+1)*d |
| LockstepRuns.StreamsAgree | src/simplest_game_sync.rs:344-363 | any two players' byte streams are prefixes one of the other, whatever their delays |
| LockstepRuns.DropOnlyRaises | src/simplest_game_sync.rs:371-384 | a drop never lowers the row count, and the dropped player's queued frames are used before zeros |
| Interleavings.InterleavingIndependence | src/simplest_game_sync.rs:266-384 | with one frame size, runs with the same per-player histories send everyone the same outputs |
| Interleavings.SizeIsLearnedFromTheFirst | src/simplest_game_sync.rs:290-293 | the learned size is one frame of the first packet that counts, 0 before there is one |
| Interleavings.RunAmountsTo | src/simplest_game_sync.rs:266-384 | a run in closed form: own histories, who has dropped, and the learned size |
| Interleavings.InterleavingExact | src/simplest_game_sync.rs:290-293 | without one frame size, a player's outputs are the same iff the first packets that count have equal frame sizes or nobody's frames run out before the last whole batch |
| Interleavings.OrderMatters | src/simplest_game_sync.rs:290-293 | two orders of the same histories that send player 0 different outputs |
| Combiner.BufferFills | src/simplest_game_sync.rs:349-363 | a sender buffer holds the rows since its last batch; it reaches delay * players exactly when a batch is due |
| Combiner.SimplestGameSync.constructor | src/simplest_game_sync.rs:255-264 | a new combiner stands for the empty game |
| Combiner.SimplestGameSync.ProcessClientInput | src/simplest_game_sync.rs:266-305 | moves the game as specified, returns exactly the new batches, ends with nothing left to combine; an unknown player is an error and changes nothing |
| Combiner.SimplestGameSync.AcceptInput | src/simplest_game_sync.rs:285-299 | cuts a packet into frames, learns the frame size from the first |
| Combiner.SimplestGameSync.QueueChunks | src/simplest_game_sync.rs:295-297 | queues the packet's chunks in order |
| Combiner.SimplestGameSync.DrainReadyInputs | src/simplest_game_sync.rs:314-367 | terminates, combines every ready row, and emits their batches in row-then-player order |
| Combiner.SimplestGameSync.CombineRow | src/simplest_game_sync.rs:327-363 | one turn of the loop combines exactly the next row |
| Combiner.SimplestGameSync.ExtractInputs | src/simplest_game_sync.rs:329-342 | takes one frame per player, zeros for a dropped player with none |
| Combiner.SimplestGameSync.Distribute | src/simplest_game_sync.rs:344-363 | gives every sender buffer the row and emits the batches it completes |
| Combiner.SimplestGameSync.SendFull | src/simplest_game_sync.rs:353-362 | the inner loop terminates for delay >= 1 and flattens whole batches |
| Combiner.SimplestGameSync.MarkPlayerDropped | src/simplest_game_sync.rs:371-384 | marks the slot and returns exactly the batches this releases |
| Codec.DecodeUndoesEncode | src/simplest_game_sync.rs:432-448 | with equal caches, decoding recovers the block and keeps them equal |
| Codec.StreamRoundTrip | src/simplest_game_sync.rs:1296-1307 | over any stream and any number of evictions either receiver recovers the blocks, ends with the sender's cache and meets no bad position |
| Codec.NeverDuplicates | src/simplest_game_sync.rs:439-447 | an output cache never holds a block twice |
| Codec.ReceiversAgree | protocol.txt:309-313 | "push always" and "push if not found" clients behave identically on what the server sends |
| Codec.ReceiversPartExactlyOnRepeats | protocol.txt:309-313 | the two differ exactly on a block sent in full although it is cached |
| Codec.DisabledRoundTrip | src/simplest_game_sync.rs:437-438 | with the output cache disabled the blocks are still recovered |
| CacheHistory.ReceiverHolds | protocol.txt:307-308 | a receiver holds the last 256 blocks that came in full |
| CacheHistory.PositionMeans | protocol.txt:307-308 | a position is that block among the last 256 that came in full, and an error iff no more than that many have come |
| CacheHistory.SenderSends | src/simplest_game_sync.rs:439-447 | a block is sent in full iff it is not among the last 256 sent in full, and else as its newest position among these |
| CacheHistory.ServerHolds | src/simplest_game_sync.rs:620-634 | so does the server, also for clients whose positions it cannot always resolve |
| CacheHistory.ErrorsExact | src/simplest_game_sync.rs:608-634 | a call fails exactly for a player that does not exist or a position outside its cache, each with its own error, and then changes nothing |
| CacheHistory.MissExact | src/simplest_game_sync.rs:620-634 | over any run, a position is not found iff its sender has not yet sent more blocks than that in full |
| CacheHistory.DropErrorsExact | src/simplest_game_sync.rs:669-678 | a drop fails exactly for a player that does not exist, and then changes nothing |
| CachedGame.CachedRunsTheGame | src/simplest_game_sync.rs:454-485 | caches resolve messages to packets and otherwise leave the combiner's run as it is |
| CachedGame.ResponsesAreEncodedOutputs | src/simplest_game_sync.rs:487-507 | over any run, a player's responses are its raw outputs encoded through one cache from empty |
| CachedGame.OutputCodecCorrect | src/simplest_game_sync.rs:432-448 | over any run, a decoding client recovers exactly its batches, its cache is the server's, and that cache has no duplicates |
| CachedGame.ResolutionIsOwn | src/simplest_game_sync.rs:469-482 | what a player's messages resolve to depends on its own messages alone |
| CachedGame.ResponsesIndependentOfInterleaving | src/simplest_game_sync.rs:454-541 | the same per-player messages give every player the same GameData and GameCache responses |
| CacheNotices.NoticeExact | src/simplest_game_sync.rs:432-448 | sending evicts a block iff the block sent is new to a full cache; the milestone is the size at every 64th new block |
| CacheNotices.NoticesExact | src/simplest_game_sync.rs:487-505 | a call reports an overflow iff some output of it evicts a block |
| CacheNotices.LastMilestoneCounts | src/simplest_game_sync.rs:487-505 | a call reports the milestone of the last output that reaches one, if any does |
| CachedSync.CachedGameSync.constructor | src/simplest_game_sync.rs:415-430 | a new stack stands for the empty game with empty caches |
| CachedSync.CachedGameSync.MakeCachedOutput | src/simplest_game_sync.rs:432-448 | a position if the block is cached, else the block, remembered; only that player's cache changes; overflow flag and milestone as specified |
| CachedSync.CachedGameSync.ResolveInput | src/simplest_game_sync.rs:469-482 | data is remembered, a position is looked up, a bad position changes nothing |
| CachedSync.CachedGameSync.ProcessClientInput | src/simplest_game_sync.rs:454-508 | whole new state, responses, overflow flag and last milestone are those of the specification, errors included |
| CachedSync.CachedGameSync.MarkPlayerDropped | src/simplest_game_sync.rs:522-541 | whole new state and responses are those of the specification |
| Startup.EveryoneOnSchedule | src/simplest_game_sync.rs:640-678 | over any run: warm-ups sent, what is saved, and the frames released are x_0..x_{D-1} (as far as released) then x_{2D}, x_{2D+1}, ... |
| Startup.ReleasedCount | src/simplest_game_sync.rs:640-666 | warm-ups plus releases = packets received |
| Streams.StreamShapeExact | src/simplest_game_sync.rs:608-678 | over any run, a player has at every moment been sent one zero block per warm-up packet and then the batches iff each of its warm-up packets was answered in turn |
| Streams.StreamShape | src/simplest_game_sync.rs:608-678 | in particular a player that sends no warm-up packet after dropping, as no live player does: no real row precedes a warm-up block |
| Streams.WarmupBlockCount | src/simplest_game_sync.rs:640-655 | the blocks are min(packets sent, warm-up) in number |
| Streams.WarmupBlocksEqual | src/simplest_game_sync.rs:636-646 | the blocks all have player_count * frame_size bytes iff none was answered before a nonempty packet was heard |
| Streams.EmptyPacketUnsized | src/simplest_game_sync.rs:636-646 | an empty first packet is answered by an empty block although a size is learned later |
| Streams.LateWarmupExact | src/simplest_game_sync.rs:640-655 | any warm-up packet keeps the shape iff every batch sent before it looks like its answer |
| Streams.LateWarmupOutOfTurn | src/simplest_game_sync.rs:640-655 | an input on which one does not |
| FlowControl.QuietResponseCount | src/simplest_game_sync.rs:608-667 | responses = warm-up packets + rows / delay, whatever the packets' lengths |
| FlowControl.LiveContribution | src/simplest_game_sync.rs:285-299 | if a live player's own packets have at least delay bytes, each beyond warm-up brings at least delay frames, exactly delay if delay divides their lengths |
| FlowControl.NeverAhead | src/simplest_game_sync.rs:608-667 | with whole packets a live player never gets more responses than it sent packets |
| FlowControl.UnevenPacketsOverrun | src/simplest_game_sync.rs:286-298 | with others it may: two packets of three bytes at delay 2 bring three responses |
| FlowControl.SlowestIsServed | src/simplest_game_sync.rs:318-364 | a live player whose frames limit the row count has a response to every packet |
| FlowControl.SomeoneMayProceed | src/simplest_game_sync.rs:318-364 | no deadlock: while anyone is live, some live player has a response to every packet it sent, warm-up and catch-up included |
| FlowControl.ShortPacketsStall | src/simplest_game_sync.rs:287-289 | a live player whose packets are all shorter than its delay is answered no more than its warm-up, and no row is ever combined, whatever the others send and however long |
| DelayedGame.AcceptEncodes | src/simplest_game_sync.rs:636-667 | one packet moves the startup layer and encodes its raw outputs through the output caches, warm-up blocks included |
| DelayedGame.DropEncodes | src/simplest_game_sync.rs:669-678 | a drop discards what the player saved and encodes what the combiner releases |
| DelayedGame.InputCodecCorrect | src/simplest_game_sync.rs:620-634 | a client that searches its own FIFO never triggers a cache miss, and what enters the startup layer is what it meant when it sent it |
| DelayedGame.SystemEncodesRawStream | src/simplest_game_sync.rs:608-678 | over any run of server and clients, a player's responses are its raw stream encoded through one cache |
| DelayedGame.EndToEnd | src/simplest_game_sync.rs:608-678 | with the output cache or without, a client whose warm-up packets are answered in turn decodes exactly its warm-up blocks and then its batches of everybody's released packets; with it, its cache is the server's |
| SystemRuns.StartupRunsTheGame | src/simplest_game_sync.rs:657-667 | the combiner behind the startup layer is the combiner run on what the layer passes on |
| SystemRuns.PassedWereSent | src/simplest_game_sync.rs:640-667 | nothing waits or is passed on that was not sent |
| SystemRuns.NoDeadlock | src/simplest_game_sync.rs:608-667 | deadlock freedom in the responses clients see, caches included |
| SystemRuns.SystemInterleavingExact | src/simplest_game_sync.rs:608-678 | two runs of the whole stack with the same per-player packets, answered in turn, give a player the same GameData and GameCache responses iff its warm-up blocks are the same and the combiner learns the same size or sends it no zero fill |
| SystemRuns.SystemInterleaving | src/simplest_game_sync.rs:608-678 | in particular with common sizes, warm-ups included |
| SystemRuns.WarmupShowsOrder | src/simplest_game_sync.rs:636-646 | two orders of the same packets, all of one frame size, that give a player different responses: a warm-up block is sized by the packet heard first |
| DelayedRuns.HeardIsOwn | src/simplest_game_sync.rs:620-634 | what a player is heard to send depends on its own messages alone |
| DelayedRuns.DelayedRunIsHeard | src/simplest_game_sync.rs:608-678 | whatever the clients send, the stack is where the resolved packets take it, and a player's responses are its raw stream encoded through one cache |
| DelayedRuns.HeardIsMeant | src/simplest_game_sync.rs:620-634 | the packets heard are what the messages mean through one cache from empty |
| DelayedRuns.EncodedIsMeant | src/simplest_game_sync.rs:620-634 | a client that encodes its packets through one cache from empty means exactly those packets |
| DelayedRuns.DelayedEndToEnd | src/simplest_game_sync.rs:608-678 | with any clients, a player whose warm-up packets are answered in turn decodes its warm-up blocks and then the batches of what everybody is heard to send |
| DelayedSync.DelayedGameSync.constructor | src/simplest_game_sync.rs:590-606 | nothing saved, nothing sent, frame size unknown |
| DelayedSync.DelayedGameSync.ResolveInput | src/simplest_game_sync.rs:620-634 | resolution happens before anything is delayed; a bad position changes nothing |
| DelayedSync.DelayedGameSync.AcceptBytes | src/simplest_game_sync.rs:636-667 | warm-up, catch-up or pass-through, with the whole new state; a warm-up answer reports no overflow |
| DelayedSync.DelayedGameSync.ProcessClientInput | src/simplest_game_sync.rs:608-667 | whole new state, responses, overflow flag and milestone are those of the specification, errors included |
| DelayedSync.DelayedGameSync.MarkPlayerDropped | src/simplest_game_sync.rs:669-678 | the player's queue is cleared, and the combiner's releases are returned |
| DelayedSync.DelayedGameSync.AllPlayersDropped | src/simplest_game_sync.rs:692-694 | true iff every slot has dropped |
| Packets.ParsePacket | src/packet_util.rs:48-105 | the parsing loop computes the recursive reading of the format, with the error of the first bad message |
| Packets.ParseUndoesPrint | src/packet_util.rs:48-105 | printing any 1 to 255 messages and parsing gives them back, whatever trails |
| Packets.OneMessageRoundTripsExactly | src/kaillera/protocol.rs:13-20 | one message round-trips iff its data is shorter than 65535 bytes |
| Packets.PrintUndoesParse | src/packet_util.rs:66-104 | whatever parses, prints back to a prefix of the bytes after the count |
| Packets.FirstFault | src/packet_util.rs:66-104 | after any good messages, parsing fails with what is wrong with the first bad one: a short header, length 0, or too few bytes |
| Packets.NothingToParse | src/packet_util.rs:48-64 | no bytes, and a count of 0, are errors of their own; else as many messages as counted |
| Packets.UDPPacketGenerator.constructor | src/kaillera/protocol.rs:44-50 | a new sender has sent nothing |
| Packets.UDPPacketGenerator.MakeSendPacket | src/kaillera/protocol.rs:54-77 | the datagram is the bundle of the last three messages, and is remembered for resending |
| Packets.UDPPacketGenerator.ConcatenateNewestFirst | src/kaillera/protocol.rs:70-72 | the packets are laid end to end, newest first |
| Packets.BundleParses | src/kaillera/protocol.rs:54-77 | a bundle parses to the last min(k,3) messages, newest first, with consecutive wrapping numbers and the exact types and payloads |
| Packets.BundleLayout | src/kaillera/protocol.rs:13-77 | every byte of the datagram of message k: the count, then number, length plus one, kind and data of messages k, k-1, k-2, low bytes first |
| Session.SessionState.ProcessPacket | src/main.rs:724-763 | the whole new session state is that of the specification; a datagram that does not parse changes nothing |
| Session.SessionState.AcceptMessage | src/main.rs:736-763 | expected: deliver and drain; ahead with room: keep the first copy; otherwise ignore |
| Session.SessionState.ProcessOrderedMessage | src/main.rs:804-811 | the number moves on by one, wrapping, and the message is handed over |
| SessionRuns.FutureWindow | src/main.rs:799-802 | the 16-bit test means "later" from 32769 behind to 32766 ahead, and errs at the next number on either side |
| SessionRuns.DrainRepresents | src/main.rs:745-754 | draining delivers up to the least missing number and leaves exactly the rest pending |
| SessionRuns.AcceptRepresents | src/main.rs:736-763 | each message adds its number to the set the receiver stands for |
| SessionRuns.WireRun | src/main.rs:724-763 | sender's bytes in, receiver's state out: nothing is lost between the two |
| SessionRuns.ReceiverIsASet | src/main.rs:733-763 | after any loss, duplication and reordering in the window: delivered = sender's prefix up to the first number missing, pending = exactly the numbers received above it, across wrap-around |
| SessionRuns.ReceivedIsTheUnion | src/main.rs:728-731 | once message 0 is in, nothing received is forgotten |
| SessionRuns.LateFirstBundleForgets | src/main.rs:728-731 | the reset loses nothing iff nothing was pending |
| SessionRuns.OvertakenFirstBundle | src/main.rs:728-731 | bundle 3 before bundle 0: only message 0 is delivered |
| SessionRuns.BufferHolds256 | src/main.rs:756-762 | while message 0 is missing, the first 256 of the later ones are kept and the rest is lost |
| BurstLoss.BurstLossRecovers | src/kaillera/protocol.rs:22-24 | with at most two bundles in a row lost, after bundle k the counter is k+1, nothing is pending, messages 0..k were delivered once, in order |
| BurstLoss.LongBurstStalls | src/main.rs:736-763 | with three lost the counter stays at the first number lost, whatever arrives of the next 65535 |
| BurstLoss.BurstLossExact | src/kaillera/protocol.rs:22-24 | arriving in order, nothing is lost iff no three bundles in a row are |
| Resend.ProcessIsGood | src/main.rs:745-754 | whatever arrives, the receiver never waits for a message it holds |
| Resend.ResendIsNoOp | src/kaillera/protocol.rs:79-84 | processing the same datagram again changes neither counter, pending nor log |
| Rooms.StartEngine | src/handlers/game.rs:612-617 | one live slot per player, each with its connection type as delay |
| RoomProofs.MigrateOwnerFinds | src/handlers/game.rs:306-324 | only an absent owner is replaced, by the first player still in the room; then the owner is in the room or nobody is |
| RoomProofs.MarkLeftMembers | src/handlers/game.rs:389-391 | marking removes one member and no other |
| RoomProofs.TakeOutMembers | src/handlers/game.rs:397-399 | removing from the list removes one member and no other |
| RoomProofs.EndGameOk | src/handlers/game.rs:832-841 | compaction keeps the invariant unless everyone has left |
| RoomProofs.DropFromRoomOk | src/handlers/game.rs:767-863 | after a drop the room keeps its invariant and members, or is closed because nobody is there (`Outcomes.DropExact` says which) |
| RoomProofs.QuitKeepsRoom | src/handlers/game.rs:384-437 | a quit removes exactly the quitter, keeps the room invariant, and closes the room only when it was the last |
| RoomProofs.KickKeepsRoom | src/handlers/game.rs:1065-1095 | a kick does the same, except that it leaves a waiting room it empties open |
| RoomProofs.StartKeepsRoom | src/handlers/game.rs:546-617 | starting changes neither the members nor their order and installs a fresh engine sized to them |
| RoomProofs.JoinKeepsRoom | src/handlers/game.rs:190-236 | joining appends exactly one member and keeps the room invariant |
| RoomProofs.SomebodyPlays | src/handlers/game.rs:832-841 | a playing room has someone in the room whose slot is live |
| LobbyRuns.ResolveIsOwnSlot | src/handlers/util.rs:688-703 | resolves iff the sender is in a game, to its own slot, not marked as left, which the engine has |
| LobbyRuns.MemberLeaves | src/handlers/game.rs:364-371 | clearing the client's game and taking it out of the room keeps clients and rooms in agreement |
| LobbyRuns.CreateStep | src/handlers/game.rs:25-105 | creating keeps the server invariant: the new id is unused and the creator is in no other game |
| LobbyRuns.EvictStep | src/handlers/user.rs:75-102 | evicting the stale session found keeps the invariant and removes exactly that client |
| LobbyRuns.LoginStep | src/handlers/user.rs:30-142 | a login, with rejection and eviction by name, keeps the invariant iff it takes over no other client in a game, the next user id is free, and no client its search missed has the name |
| LobbyRuns.SelfKickBreaks | src/handlers/game.rs:1075-1082 | from start-up: an owner alone in its room kicks itself and leaves an empty room listed |
| LobbyRuns.SecondLoginBreaks | src/handlers/user.rs:104-142 | from start-up: a client in a game logs in again under another name and leaves its room with a member that is not in it |
| LobbyRuns.OrphanHidesClient | src/state.rs:144-163 | from allowed requests: a session orphaned by a second login hides a live client of its name, and a third login gives two clients one name |
| LobbyRuns.KickStep | src/handlers/game.rs:958-1095 | a kick keeps it iff the target is not the owner itself, alone in a waiting room |
| LobbyRuns.HandleExact | src/handlers/mod.rs:31-52 | exactly the allowed requests keep the server invariant |
| LobbyRuns.RunExact | src/handlers/mod.rs:31-52 | a run keeps it throughout iff each request is an allowed one |
| LobbyRuns.ReachableStatesAreSound | src/state.rs:43-59 | every state reached from start-up by allowed requests satisfies it |
| SlotRuns.StepMoves | src/handlers/game.rs:373-395 | a request moves every running game's slots not at all and its engine by that game's own move |
| SlotRuns.SlotsStable | src/state.rs:310-332 | while a game runs, in any mix with other requests, no player's position changes and the engine is fed exactly its starting players' messages and departures, in their starting slots |
| SlotRuns.ResolvedSlotStable | src/handlers/util.rs:688-703 | a client's input reaches the same slot for as long as it stays in the running game |
| Outcomes.DropMovesOneSlot | src/simplest_game_sync.rs:669-678 | a drop drops its slot and what that has saved; nobody's frames, packets or input caches change |
| Outcomes.DropExact | src/handlers/game.rs:802-863 | a drop leaves the game running iff another slot is live, and then only the slot has changed; else the room waits without an engine, with those still there in order, or closes iff nobody is |
| Outcomes.InRoomInOrder | src/handlers/game.rs:838 | purging leavers keeps the order of the others |
| Outcomes.GoesOn | src/handlers/game.rs:820-841 | a running game goes on after any request (drop, quit, kick, eviction, departure) iff the request's move leaves it a live slot |
| Outcomes.DropGameExact | src/handlers/game.rs:918-934 | a drop from a running game does that to the sender's slot and changes nothing else; any other drop changes nothing |
| Outcomes.JoinExact | src/handlers/game.rs:170-235 | a client gets in iff it is in no game, the game is not running and fewer than 4 are listed; it is then listed last and nothing else changes; otherwise nothing does |
| Outcomes.CreateExact | src/handlers/game.rs:19-105 | a client in no game gets a new waiting room with the next id, alone and as its owner |
| Outcomes.QuitExact | src/handlers/game.rs:334-437 | a quit takes exactly the sender out of its game; the game stays listed iff somebody else is there; no other game changes |
| Outcomes.UserQuitExact | src/handlers/user.rs:189-193 | leaving the server is a quit, and then being no client |
| Outcomes.KickExact | src/handlers/game.rs:960-1095 | a kick changes anything iff its sender owns the game and the client with that id is in it; that client is then out, and nobody else |
| Outcomes.StartExact | src/handlers/game.rs:506-617 | a game starts iff its owner asks and it is not running; slot i then has player i's connection type as delay and the i-th warm-up, and nothing heard, saved or cached |
| Outcomes.InputExact | src/handlers/sync.rs:84-114 | input from a player of a running game feeds its own slot and changes nothing else; other input changes nothing |
| Outcomes.LoginExact | src/handlers/user.rs:30-142 | a login is refused iff the connection type is not 1 or the search by name finds an active client; otherwise whoever it finds is gone and the sender is a client with that name and the next 16-bit id |
| GameRuns.StartStarts | src/handlers/game.rs:528-617 | the owner's start request, and only that, installs a fresh engine with one slot and delay per player in list order |
| GameRuns.GameIsAStack | src/handlers/sync.rs:84-132 | the engine and all its answers are those of the stack run on its players' messages and departures |
| ServerDeliveries.StepDelivers | src/handlers/sync.rs:116-152 | a request sends a listed player what gets through the send loop of its own game's answers to its slot, unless it closes the room |
| ServerDeliveries.GetsThroughExact | src/handlers/game.rs:866-907 | what gets through to a slot is a part of its answers, all of them iff the loop does not stop before one of them (for a drop: iff everybody listed is a client, or nothing is released to the slot) |
| ServerDeliveries.SentToMembersOrLeavers | src/handlers/sync.rs:116-152 | only listed clients are sent anything; one of them is not in the game exactly if it has left |
| ServerRuns.SentIsAnsweredExact | src/handlers/sync.rs:140-152 | over a run, up to and including the request that ends the game, what a game sends an address is no more than what its slot is answered, and all of it iff no send loop has stopped before a response of its own |
| ServerRuns.NobodyGoneUnharmed | src/handlers/sync.rs:140-152 | none has as long as nobody listed has left the server |
| ServerRuns.ServerEndToEnd | src/handlers/sync.rs:84-159 | end to end through the server, for any clients: a player decodes its warm-up blocks and then the batches of what the game's players are heard to send, from all the game sends it, iff no send loop has stopped before a response of its own |
| ServerExamples.OnePacketEchoed | src/handlers/sync.rs:84-159 | a whole run from start-up: one player, one byte, sent back |
| ServerExamples.DepartureStarves | src/handlers/sync.rs:140-152 | a whole run from start-up: a player leaves the server, the engine answers the other one's packet, and the other is sent nothing |
| Reading.StringRoundTrip | src/handlers/util.rs:228-238 | a terminated string is read back whatever follows; an unterminated one takes the rest |
| Reading.ReadStringBytes | src/handlers/util.rs:228-238 | the loop computes the string and what is left of the buffer |
| Reading.InputRoundTrip | src/handlers/sync.rs:63-82 | game input is read as it is written iff its length fits 16 bits |
| RequestFormats.RequestRoundTrip | src/handlers/mod.rs:31-52 | every request, written with the protocol's kinds and fields byte by byte, is read as exactly that request, whatever follows: all game ids below 2^32, all 16-bit user ids, all names without NUL, cut to 31 bytes |
| RequestFormats.LoginWithoutConnType | src/handlers/user.rs:25-30 | a login that ends early is read with connection type 0, or an empty emulator name |
| RequestFormats.CutShortIsIgnored | src/handlers/game.rs:149-168 | a join, kick, start or game input that is cut short makes no request |
| RequestFormats.OtherKinds | src/handlers/mod.rs:31-58 | a message of any other kind makes no request |
| Reading.Read | src/handlers/mod.rs:31-58 | a message makes at most one request, its sender's own, and an input request exactly if it reads as game input, with that input (`RequestFormats.RequestRoundTrip` says which request) |
| GameInputs.NobodyEnters | src/handlers/game.rs:190-197 | no request brings a client into a running game |
| GameInputs.FeedIsOwnInput | src/handlers/sync.rs:84-114 | a request feeds a player's slot exactly when it is the player's own input and the player is in the game |
| GameInputs.SlotHearsItsPlayer | src/handlers/sync.rs:84-114 | over a run, the messages a slot receives are its player's own input up to its departure |
| Network.SessionsAreSeparate | src/main.rs:713-763 | a client's session depends on its own datagrams alone, and what is handled for it is what its session delivers |
| Network.HandledIsAPrefix | src/main.rs:733-763 | after any loss, repetition and reordering in the window, what is handled for a client is what it sent, in order, up to the first message lost |
| NetworkRuns.RequestsAreOwn | src/main.rs:804-827 | a client's requests are the reading of its own messages, whatever else is handled, and its game input is a function of these bytes alone |
| NetworkRuns.SlotHearsItsHistory | src/handlers/sync.rs:57-114 | the packets a slot is heard to send are those its player meant with its own history from the game's start on, up to its last message handled, or to its departure |
| NetworkRuns.EncoderIsHeard | src/simplest_game_sync.rs:620-634 | if that part of its history encodes packets, the first of these packets are heard, all of them if all of it is handled |
| NetworkRuns.NetworkEndToEnd | src/main.rs:713-827 | from the clients' bytes over such a network, through any run of the server from start-up, to the blocks a player decodes, with the exact condition |
| NetworkExample.LossyEcho | src/kaillera/protocol.rs:22-24 | a run from start-up that meets every condition: two of four datagrams are lost, and the client still decodes its own byte |
| RoomServer.GameInfo.constructor | src/handlers/game.rs:68-95 | the creator alone, as owner, in a waiting room for four |
| RoomServer.GameInfo.MigrateOwnerIfNeeded | src/handlers/game.rs:306-324 | only the owner changes, as specified |
| RoomServer.GameInfo.Leave | src/handlers/game.rs:384-408 | whole new room is that of the specification |
| RoomServer.NewEngine | src/handlers/game.rs:612-617 | a fresh startup layer in front of a fresh cached combiner, as objects, stands for the engine's starting value |
| RoomServer.GameInfo.FindTargets | src/handlers/sync.rs:116-132 | each response goes to the address listed at its slot |
| RoomServer.GameInfo.SendAll | src/handlers/sync.rs:140-152 | the send loop: sends up to the first address that is no longer a client's |
| RoomServer.GameInfo.ResetStatuses | src/handlers/game.rs:866-871 | fails iff somebody listed is no longer a client |
| RoomServer.GameInfo.MarkDropped | src/handlers/game.rs:802-822 | the engine object drops the slot and returns what is released; an invalid slot changes nothing |
| RoomServer.GameInfo.ExecuteDrop | src/handlers/game.rs:789-907 | whole new room and what is sent, by the list as it was before compaction; says whether to close the room, and then nothing is sent, nor if somebody listed is no longer a client |
| RoomServer.GameInfo.CompactAtEnd | src/handlers/game.rs:832-841 | whole new room is that of the specification |
| RoomServer.GameInfo.Quit | src/handlers/game.rs:384-437 | new room, closing and what is sent are those of the specification |
| RoomServer.GameInfo.KickOut | src/handlers/game.rs:1065-1095 | the same for a kick |
| RoomServer.GameInfo.Receive | src/handlers/sync.rs:105-152 | the engine object's new state and its answers, addressed, up to the first address that is no longer a client's |
| RoomServer.GameInfo.Join | src/handlers/game.rs:218-235 | whole new room is that of the specification |
| RoomServer.GameInfo.Start | src/handlers/game.rs:546-617 | whole new room is that of the specification |
| RoomServer.AppState.constructor | src/state.rs:43-59 | no clients, no games, ids from 1 |
| RoomServer.AppState.Resolve | src/handlers/util.rs:688-703 | the game and position of a client, if both exist |
| RoomServer.AppState.OneRoomChanged | src/state.rs:214-227 | a handler that touches one room's objects leaves every other room as it was |
| RoomServer.AppState.LeaveGame | src/handlers/game.rs:384-437 | quit or kick: whole new server state and what is sent, the room closed when it says so |
| RoomServer.AppState.FindByUsername | src/state.rs:144-163 | finds a client with a name; None iff there is none or the search meets an orphaned session of that name first |
| RoomServer.AppState.HandleLogin | src/handlers/user.rs:30-142 | connection type, rejection and eviction of whoever the search by name finds, the 16-bit user id counter, the orphaned session, and what an evicted player's game sends |
| RoomServer.AppState.HandleCreateGame | src/handlers/game.rs:19-105 | whole new server state is that of the specification; other rooms untouched |
| RoomServer.AppState.HandleJoinGame | src/handlers/game.rs:170-236 | the same |
| RoomServer.AppState.HandleQuitGame | src/handlers/game.rs:334-437 | whole new server state and what is sent are those of the specification, the room closed when it says so |
| RoomServer.AppState.HandleUserQuit | src/handlers/user.rs:189-193 | quits the game first, then removes the client |
| RoomServer.AppState.HandleDropGame | src/handlers/game.rs:918-934 | whole new server state and what is sent are those of the specification |
| RoomServer.AppState.HandleStartGame | src/handlers/game.rs:506-656 | the same; only the owner starts, and only once |
| RoomServer.AppState.FindByUserId | src/handlers/game.rs:988-1011 | finds a client with a user id, None iff there is none |
| RoomServer.AppState.FindKickTarget | src/handlers/game.rs:960-1044 | whom a kick may remove: only the owner, only someone in the same game |
| RoomServer.AppState.HandleKickUser | src/handlers/game.rs:942-1095 | whole new server state and what is sent are those of kicking some client with that id, the one with that id if ids are unique |
| RoomServer.AppState.HandleGameInput | src/handlers/sync.rs:84-132 | input goes to the sender's slot of the sender's game, and the answers to the addresses listed at their slots |
| RoomServer.AppState.HandleMessage | src/handlers/mod.rs:24-52 | every request moves the whole state and sends as specified and keeps the invariant iff it is an allowed one, provided a search by user id or name has one answer |

## Left out

- Sockets, channels, async tasks, locks and timers (`src/main.rs`, `src/handlers/`): each handler is one atomic step, as if its locks were held throughout.
- Broadcasts, notices and `player_status`: of what handlers send, only the engines' responses are modelled. A drop also looks its targets up one by one while sending (`src/handlers/game.rs:878-889`); the model looks all up first, which is the same because every slot is listed.
- SessionRuns.ReceiverIsASet: the message handler is a delivered log; the sender is a peer that bundles like `UDPPacketGenerator`, and a number more than 255 ahead or 32769 behind when it arrives is outside the theorem.
- SessionRuns.AcceptRepresents: the same window.
- Network.SessionsAreSeparate: payloads under 65535 bytes, the length field's limit.
- Network.HandledIsAPrefix: payloads under 65535 bytes and the window of `SessionRuns.ReceiverIsASet`.
- NetworkRuns.NetworkEndToEnd: the same; one session per address, so a session torn down (by a user quit, an eviction or a timeout) and reopened, which starts a new history, is not followed further. The age of a session, pings, configuration and the order of a search by name come from outside, for each message of each client.
- Reading.Read: messages of other kinds (chat, acknowledgements, keep-alive, ready-to-play) make no request; they change none of the state modelled here.
- SessionRuns.WireRun: payloads under 65535 bytes.
- BurstLoss.BurstLossExact: up to bundle 65535, after which a number is used again.
- Resend.ResendIsNoOp: needs the datagram's numbers within 32000 of the expected one and room in pending for its messages.
- Packets.BundleParses: payloads under 65535 bytes, the length field's limit.
- Packets.MakePacket: a length of 65535 or more wraps as in a release build; a debug build panics on 65535 (`src/kaillera/protocol.rs:16`).
- Combiner.SimplestGameSync.constructor: requires every delay to be at least 1; with a delay of 0 the inner loop never ends (`src/simplest_game_sync.rs:353-355`). Login admits connection type 1 only, so the server never starts a game with one.
- FlowControl.SomeoneMayProceed: needs the live players' packets to have at least delay bytes; `FlowControl.ShortPacketsStall` is why.
- FlowControl.SlowestIsServed: needs it of the player itself, for the same reason.
- FlowControl.LiveContribution: the same.
- SystemRuns.NoDeadlock: as `FlowControl.SomeoneMayProceed`.
- Rooms.Login: whether the client with the same name has been active, and whether the search by name meets an orphaned session first, are inputs. Orphaned sessions are kept by name only.
- Rooms.CreateGame: game ids are unbounded, so wrap-around of the 32-bit counter is not modelled.
- RoomServer.AppState.HandleMessage: where two clients share the user id or the name searched for, which no reachable state of `LobbyRuns.ReachableStatesAreSound` has, the contracts of `HandleKickUser` and `HandleLogin` speak of some client found.
- `usize` overflow of `abs_tail` and of buffer lengths: counters are unbounded.
- The warm-up vector is arbitrary: `auto_game_delay_frames`, `emulinker_startup_warmup_frames` and `input_stall_grace` are clock and floating-point sizing.
- `PlayerInput` and `PlayerOutputState` (`src/simplest_game_sync.rs:113-187`), which nothing uses.
- Some loops and branches of one source method are methods of their own here (for instance `CombineRow` and `SendFull` of `drain_ready_inputs`).
- Encodings, chat, pings, ready-to-play, master list, metrics, configuration and the Lua dissector.
