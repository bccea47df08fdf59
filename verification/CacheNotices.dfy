/** What the caches report besides the responses: an overflow, and the milestones of their growth. */
module CacheNotices {
  import opened Common
  import opened InputCaches
  import opened Codec
  import opened Lockstep
  import opened LockstepRuns
  import opened CachedGame
  import opened DelayedGame

  const MILESTONE: nat := 64

  /** Whether a block was evicted, and the size of the cache if it has just reached a multiple of 64. */
  datatype Notice = Notice(overflowed: bool, milestone: Option<nat>)

  const QUIET := Notice(false, None)

  function NoticeOf(disabled: bool, cache: Cache, x: Bytes): Notice {
    if disabled || Scan(cache, x).Some? then QUIET
    else
      var before, after := |cache|, |Pushed(cache, x)|;
      Notice(before >= CAPACITY, if before / MILESTONE != after / MILESTONE then Some(after) else None)
  }

  /**
   A block evicts another exactly when it is new to a full cache, and a milestone is the size after
   every 64th new block.
   */
  lemma NoticeExact(disabled: bool, cache: Cache, x: Bytes)
    ensures var n := NoticeOf(disabled, cache, x);
            && (n.overflowed <==> !disabled && x !in cache && |cache| == 256)
            && n.milestone == if !disabled && x !in cache && |cache| < 256 && (|cache| + 1) % 64 == 0
                              then Some(|cache| + 1) else None
  {
  }

  /** One overflow is an overflow; the last milestone counts. */
  function Both(first: Notice, second: Notice): Notice {
    Notice(first.overflowed || second.overflowed, if second.milestone.Some? then second.milestone else first.milestone)
  }

  /** What encoding outputs one after the other reports. */
  function NoticesOf(disabled: bool, caches: seq<Cache>, outs: seq<Output>): Notice
    requires Addressed(outs, |caches|)
  {
    if outs == [] then QUIET
    else
      var before, last := outs[..|outs| - 1], outs[|outs| - 1];
      var cache := EncodeOutputs(disabled, caches, before).caches[last.player];
      Both(NoticesOf(disabled, caches, before), NoticeOf(disabled, cache, last.bytes))
  }

  lemma NoticesOne(disabled: bool, caches: seq<Cache>, outs: seq<Output>, o: Output)
    requires Addressed(outs, |caches|) && o.player < |caches|
    ensures Addressed(outs + [o], |caches|)
    ensures NoticesOf(disabled, caches, outs + [o])
         == Both(NoticesOf(disabled, caches, outs),
                 NoticeOf(disabled, EncodeOutputs(disabled, caches, outs).caches[o.player], o.bytes))
  {
    hide NoticeOf, EncodeOutputs;
    assert (outs + [o])[..|outs + [o]| - 1] == outs;
  }

  lemma NoticesNone(disabled: bool, caches: seq<Cache>)
    ensures NoticesOf(disabled, caches, []) == QUIET
  {
  }

  /** Encoding outputs reports an overflow exactly when one of them evicts a block. */
  lemma {:induction false} NoticesExact(disabled: bool, caches: seq<Cache>, outs: seq<Output>)
    requires Addressed(outs, |caches|)
    ensures NoticesOf(disabled, caches, outs).overflowed <==> exists i :: Evicts(disabled, caches, outs, i)
  {
    hide NoticeOf, EncodeOutputs;
    if outs == [] {
      assert forall i :: !Evicts(disabled, caches, outs, i);
    } else {
      var n, before := |outs| - 1, outs[..|outs| - 1];
      NoticesExact(disabled, caches, before);
      assert forall i | 0 <= i < n :: before[..i] == outs[..i];
      assert forall i :: Evicts(disabled, caches, before, i) <==> i < n && Evicts(disabled, caches, outs, i);
      if NoticesOf(disabled, caches, outs).overflowed && !NoticesOf(disabled, caches, before).overflowed {
        assert Evicts(disabled, caches, outs, n);
      }
    }
  }

  /** What output i reports when its turn comes. */
  ghost function NoticeAt(disabled: bool, caches: seq<Cache>, outs: seq<Output>, i: nat): Notice
    requires Addressed(outs, |caches|) && i < |outs|
  {
    NoticeOf(disabled, EncodeOutputs(disabled, caches, outs[..i]).caches[outs[i].player], outs[i].bytes)
  }

  /** The milestone reported is that of the last output that reaches one; none if none does. */
  lemma {:induction false} LastMilestoneCounts(disabled: bool, caches: seq<Cache>, outs: seq<Output>) returns (i: nat)
    requires Addressed(outs, |caches|)
    ensures var n := NoticesOf(disabled, caches, outs).milestone;
            if n.Some?
            then && i < |outs| && NoticeAt(disabled, caches, outs, i).milestone == n
                 && forall j | i < j < |outs| :: NoticeAt(disabled, caches, outs, j).milestone.None?
            else forall j | 0 <= j < |outs| :: NoticeAt(disabled, caches, outs, j).milestone.None?
  {
    hide NoticeOf, EncodeOutputs;
    i := 0;
    if outs != [] {
      var n, before := |outs| - 1, outs[..|outs| - 1];
      var k := LastMilestoneCounts(disabled, caches, before);
      assert forall j | 0 <= j < n :: before[..j] == outs[..j];
      assert forall j: nat | j < n :: NoticeAt(disabled, caches, before, j) == NoticeAt(disabled, caches, outs, j);
      i := if NoticeAt(disabled, caches, outs, n).milestone.Some? then n else k;
    }
  }

  /** Output i evicts a block from its player's cache. */
  ghost predicate Evicts(disabled: bool, caches: seq<Cache>, outs: seq<Output>, i: int)
    requires Addressed(outs, |caches|)
  {
    && 0 <= i < |outs|
    && NoticeOf(disabled, EncodeOutputs(disabled, caches, outs[..i]).caches[outs[i].player], outs[i].bytes).overflowed
  }

  // ---- the stack ----

  /** What a client's message makes the cached combiner report; a failing call reports nothing. */
  function CachedNotice(c: Cached, p: nat, m: Message): Notice
    requires c.Valid()
  {
    if p >= |c.game.delays| then QUIET
    else
      match Decode(PushAlways, c.inputCaches[p], m)
      case None => QUIET
      case Some(d) =>
        EventsExtend(c.game, Input(p, d.bytes));
        SentNotice(c, AfterInput(c.game, p, d.bytes))
  }

  function SentNotice(c: Cached, g': Game): Notice
    requires c.Valid() && g'.Valid() && g'.delays == c.game.delays
  {
    EmittedIsAddressed(g', c.game.Rows(), g'.Rows());
    NoticesOf(c.disableOutputCache, c.outputCaches, Sent(c.game, g'))
  }

  /** The startup layer drops what its own zero blocks report. */
  function AcceptNotice(d: Delayed, p: nat, bytes: Bytes): Notice
    requires d.Valid() && p < |d.queues|
  {
    if d.warmupSent[p] < d.warmups[p] then QUIET
    else CachedNotice(d.inner, p, GameData(if d.queues[p] != [] then d.queues[p][0] else bytes))
  }

  function DelayedNotice(d: Delayed, p: nat, m: Message): Notice
    requires d.Valid()
  {
    if p >= |d.queues| then QUIET
    else
      match Decode(PushAlways, d.inputCaches[p], m)
      case None => QUIET
      case Some(r) => AcceptNotice(d.(inputCaches := d.inputCaches[p := r.cache]), p, r.bytes)
  }

  // ---- answers with notices ----

  /** What a successful call returns. */
  datatype Answer = Answer(outputs: seq<PlayerResponse>, notice: Notice)

  function Noticed(r: Result<seq<PlayerResponse>, GameSyncError>, n: Notice): Result<Answer, GameSyncError> {
    match r
    case Err(e) => Err(e)
    case Ok(outputs) => Ok(Answer(outputs, n))
  }
}
