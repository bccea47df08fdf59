/** What a cache holds and what a position means, told from the messages sent so far alone. */
module CacheHistory {
  import opened Common
  import opened InputCaches
  import opened Codec
  import opened Lockstep
  import opened CachedGame
  import opened Startup
  import opened DelayedGame
  import opened DelayedRuns

  /** The blocks that travelled in full, in order. */
  function InFull(ms: seq<Message>): seq<Bytes> {
    if ms == [] then []
    else
      var last := ms[|ms| - 1];
      InFull(ms[..|ms| - 1]) + (if last.GameData? then [last.bytes] else [])
  }

  lemma InFullOne(ms: seq<Message>, m: Message)
    ensures InFull(ms + [m]) == if m.GameData? then InFull(ms) + [m.bytes] else InFull(ms)
  {
    assert (ms + [m])[..|ms + [m]| - 1] == ms;
  }

  lemma DecodeMoves(cache: Cache, m: Message, history: seq<Bytes>)
    requires cache == Latest(history) && Decode(PushAlways, cache, m).Some?
    ensures Decode(PushAlways, cache, m).value.cache == Latest(if m.GameData? then history + [m.bytes] else history)
  {
    if m.GameData? {
      PushedIsLatest(history, m.bytes);
    }
  }

  /** A receiver holds the last 256 blocks that came in full. */
  lemma {:induction false} ReceiverHolds(ms: seq<Message>)
    requires DecodeAll(PushAlways, [], ms).Some?
    ensures DecodeAll(PushAlways, [], ms).value.cache == Latest(InFull(ms))
    decreases |ms|
  {
    hide Decode, Latest;
    if ms == [] {
      assert Latest([]) == [] by {
        LatestLength([]);
      }
    } else {
      var before, m := ms[..|ms| - 1], ms[|ms| - 1];
      ReceiverHolds(before);
      DecodeMoves(DecodeAll(PushAlways, [], before).value.cache, m, InFull(before));
      assert ms == before + [m];
      InFullOne(before, m);
    }
  }

  /** So position `pos` is the block that came pos-th among the last 256 in full, and an error if fewer came. */
  lemma PositionMeans(ms: seq<Message>, pos: Byte)
    requires DecodeAll(PushAlways, [], ms).Some?
    ensures var h, d := InFull(ms), DecodeAll(PushAlways, [], ms + [GameCache(pos)]);
            && (d.Some? <==> pos < |h|)
            && (d.Some? ==> d.value.blocks == DecodeAll(PushAlways, [], ms).value.blocks
                                              + [h[if |h| <= 256 then pos else |h| - 256 + pos]])
  {
    hide DecodeAll;
    ReceiverHolds(ms);
    DecodeAllOne(PushAlways, [], ms, GameCache(pos));
  }

  /** A sender sends a block in full exactly if it is not among the last 256 sent in full; else the newest position. */
  lemma SenderSends(xs: seq<Bytes>, x: Bytes)
    ensures var h := InFull(EncodeAll(false, [], xs).messages);
            var recent := if |h| <= 256 then h else h[|h| - 256..];
            var m := EncodeAll(false, [], xs + [x]).messages;
            && |m| == |xs| + 1
            && match m[|xs|]
               case GameData(y) => y == x && x !in recent
               case GameCache(pos) =>
                 && pos < |recent| && recent[pos] == x
                 && forall later | pos < later < |recent| :: recent[later] != x
  {
    hide EncodeAll, DecodeAll;
    var sent := EncodeAll(false, [], xs);
    OneMessagePerBlock(xs);
    EncodeAllOne(false, [], xs, x);
    StreamRoundTrip(PushAlways, [], xs);
    ReceiverHolds(sent.messages);
  }

  lemma {:induction false} OneMessagePerBlock(xs: seq<Bytes>)
    ensures |EncodeAll(false, [], xs).messages| == |xs|
    decreases |xs|
  {
    hide Encode;
    if xs != [] {
      OneMessagePerBlock(xs[..|xs| - 1]);
    }
  }

  /** The server, which ignores what it cannot resolve, holds the last 256 that came in full all the same. */
  lemma {:induction false} ServerHolds(ms: seq<Message>)
    ensures Meant(ms).cache == Latest(InFull(ms))
    decreases |ms|
  {
    hide Decode, Latest;
    if ms == [] {
      LatestLength([]);
    } else {
      var before, m := ms[..|ms| - 1], ms[|ms| - 1];
      ServerHolds(before);
      assert ms == before + [m];
      InFullOne(before, m);
      MeantOne(before, m);
      if Decode(PushAlways, Meant(before).cache, m).Some? {
        DecodeMoves(Meant(before).cache, m, InFull(before));
      } else {
        OnlyPositionsFail(Meant(before).cache, m);
      }
    }
  }

  lemma OnlyPositionsFail(cache: Cache, m: Message)
    requires Decode(PushAlways, cache, m).None?
    ensures m.GameCache?
  {
  }

  // ---- errors ----

  /** A call fails exactly for a player that does not exist or a position outside its cache; nothing changes then. */
  lemma ErrorsExact(d: Delayed, p: nat, m: Message)
    requires d.Valid()
    ensures var s := DelayedInput(d, p, m);
            if p >= |d.queues| then s == Step(d, Err(InvalidPlayerId(p, |d.queues|)))
            else if m.GameCache? && m.position >= |d.inputCaches[p]|
            then s == Step(d, Err(CachePositionNotFound(p, m.position)))
            else s.result.Ok?
  {
    hide AcceptPacket;
    if p < |d.queues| && Decode(PushAlways, d.inputCaches[p], m).Some? {
      var r := Decode(PushAlways, d.inputCaches[p], m).value;
      AcceptEncodes(d.(inputCaches := d.inputCaches[p := r.cache]), p, r.bytes);
    }
  }

  /** Over any run: a position is not found exactly if its sender has not yet sent that many blocks in full. */
  lemma MissExact(delays: seq<nat>, warmups: seq<nat>, disabled: bool, es: seq<CachedEvent>, p: nat, pos: Byte)
    requires Sized(delays, warmups) && p < |delays|
    ensures var d := DelayedRun(delays, warmups, disabled, es);
            DelayedInput(d, p, GameCache(pos)).result == Err(CachePositionNotFound(p, pos))
            <==> pos >= |InFull(MessagesIn(OwnEvents(es, p)))|
  {
    hide DelayedInput, DelayedRun, HeardFrom;
    DelayedRunIsHeard(delays, warmups, disabled, es, p);
    HeardIsOwn(|delays|, es, p);
    HeardIsMeant(OwnEvents(es, p));
    ServerHolds(MessagesIn(OwnEvents(es, p)));
    LatestLength(InFull(MessagesIn(OwnEvents(es, p))));
    ErrorsExact(DelayedRun(delays, warmups, disabled, es), p, GameCache(pos));
  }

  /** A drop fails exactly for a player that does not exist, and then changes nothing. */
  lemma DropErrorsExact(d: Delayed, p: nat)
    requires d.Valid()
    ensures var s := DelayedDrop(d, p);
            if p >= |d.queues| then s == Step(d, Err(InvalidPlayerId(p, |d.queues|))) else s.result.Ok?
  {
    if p < |d.queues| {
      DropEncodes(d, p);
    }
  }
}
