/**
 What the lockstep combiner means: the frames each player has contributed, the rows
 that can be formed from them, and the batches of rows each player receives.
 Nothing here mentions a queue or a buffer; `SimplestGameSync` implements it with both.
 */
module Lockstep {
  import opened Common

  datatype Output = Output(player: nat, bytes: Bytes)

  datatype GameSyncError =
    | InvalidPlayerId(player: nat, playerCount: nat)
    | CachePositionNotFound(player: nat, position: Byte)

  predicate DelaysPositive(delays: seq<nat>) {
    forall p | 0 <= p < |delays| :: delays[p] >= 1
  }

  /**
   `frames[i]` is every frame the combiner ever accepted from player i, `frameSize` the
   size learned from the first of them (0 before).
   */
  datatype Game = Game(frames: seq<seq<Bytes>>, dropped: seq<bool>, delays: seq<nat>, frameSize: nat) {
    ghost predicate Valid() {
      && |frames| == |dropped| == |delays|
      && DelaysPositive(delays)
      && (forall p | 0 <= p < |frames| :: frames[p] != [] ==> frameSize > 0)
    }

    ghost predicate IsLive(p: nat) {
      p < |dropped| && !dropped[p]
    }

    /** How many rows have been combined. */
    function Rows(): nat
      requires |frames| == |dropped|
    {
      match ShortestLive(frames, dropped)
      case Some(n) => n
      case None => Longest(frames)
    }

    /** Player i's entry in row k: its k-th frame, or zeros once it has run out. */
    function Cell(i: nat, k: nat): Bytes
      requires i < |frames|
    {
      if k < |frames[i]| then frames[i][k] else Zeros(frameSize)
    }

    function Row(k: nat): (r: seq<Bytes>)
      ensures |r| == |frames|
    {
      seq(|frames|, i requires 0 <= i < |frames| => Cell(i, k))
    }

    /** Rows lo .. hi laid end to end. */
    function RowRange(lo: nat, hi: nat): seq<Bytes>
      decreases hi
    {
      if lo >= hi then [] else RowRange(lo, hi - 1) + Row(hi - 1)
    }

    /** The batches of d rows completed by the first n rows. */
    function Batches(d: nat, n: nat): seq<Bytes>
      requires d >= 1
    {
      if n == 0 then [] else Batches(d, n - 1) + BatchEndingAt(d, n)
    }

    /** The j-th batch of d rows: rows j*d .. (j+1)*d laid end to end. */
    function BatchRows(d: nat, j: nat): Bytes {
      Flatten(RowRange(j * d, (j + 1) * d))
    }

    /** The batch, if any, that row n - 1 completes. */
    function BatchEndingAt(d: nat, n: nat): seq<Bytes>
      requires d >= 1 && n >= 1
    {
      if n % d == 0 then (assert n >= d; [Flatten(RowRange(n - d, n))]) else []
    }

    /** The batches row n - 1 completes, for each of the first `upto` players. */
    function BatchesOfRow(n: nat, upto: nat): (bs: seq<seq<Bytes>>)
      requires n >= 1 && upto <= |delays| && DelaysPositive(delays)
      ensures |bs| == upto
    {
      seq(upto, p requires 0 <= p < upto => BatchEndingAt(delays[p], n))
    }

    /** What is sent, to players below `upto` in order, when row n - 1 is combined. */
    function EmittedByRow(n: nat, upto: nat): seq<Output>
      requires n >= 1 && upto <= |delays| && DelaysPositive(delays)
    {
      AddressEach(BatchesOfRow(n, upto))
    }

    /** What is sent while the row count goes from lo to hi. */
    function Emitted(lo: nat, hi: nat): seq<Output>
      requires DelaysPositive(delays)
      decreases hi
    {
      if lo >= hi then [] else Emitted(lo, hi - 1) + EmittedByRow(hi, |delays|)
    }
  }

  /** The rows covered by the complete batches among n rows. */
  function Batched(d: nat, n: nat): (m: nat)
    requires d >= 1
    ensures m <= n
  {
    n - n % d
  }

  /** Blocks for one player. */
  function AddressTo(p: nat, blocks: seq<Bytes>): (outs: seq<Output>)
    ensures |outs| == |blocks|
  {
    seq(|blocks|, i requires 0 <= i < |blocks| => Output(p, blocks[i]))
  }

  /** One list of blocks per player, in player order. */
  function AddressEach(batches: seq<seq<Bytes>>): seq<Output> {
    if batches == [] then []
    else AddressEach(batches[..|batches| - 1]) + AddressTo(|batches| - 1, batches[|batches| - 1])
  }

  function ShortestLive(frames: seq<seq<Bytes>>, dropped: seq<bool>): Option<nat>
    requires |frames| == |dropped|
  {
    if frames == [] then None
    else
      var rest := ShortestLive(frames[1..], dropped[1..]);
      if dropped[0] then rest
      else if rest.Some? && rest.value < |frames[0]| then rest
      else Some(|frames[0]|)
  }

  function Longest(frames: seq<seq<Bytes>>): nat {
    if frames == [] then 0
    else
      var rest := Longest(frames[1..]);
      if rest < |frames[0]| then |frames[0]| else rest
  }

  lemma {:induction false} ShortestLiveIsMinimum(frames: seq<seq<Bytes>>, dropped: seq<bool>)
    requires |frames| == |dropped|
    ensures var m := ShortestLive(frames, dropped);
            && (m.None? <==> forall i | 0 <= i < |dropped| :: dropped[i])
            && (m.Some? ==>
                  && (forall i | 0 <= i < |frames| :: dropped[i] || m.value <= |frames[i]|)
                  && (exists i :: 0 <= i < |frames| && !dropped[i] && |frames[i]| == m.value))
  {
    if frames != [] {
      ShortestLiveIsMinimum(frames[1..], dropped[1..]);
      var m, rest := ShortestLive(frames, dropped), ShortestLive(frames[1..], dropped[1..]);
      forall i | 0 < i < |frames|
        ensures dropped[i] == dropped[1..][i - 1] && frames[i] == frames[1..][i - 1]
      {
      }
      if m.Some? {
        if m == rest && (dropped[0] || rest.value != |frames[0]|) {
          var i :| 0 <= i < |frames[1..]| && !dropped[1..][i] && |frames[1..][i]| == rest.value;
          assert |frames[i + 1]| == m.value && !dropped[i + 1];
        } else {
          assert |frames[0]| == m.value && !dropped[0];
        }
      }
    }
  }

  lemma {:induction false} LongestIsMaximum(frames: seq<seq<Bytes>>)
    ensures forall i | 0 <= i < |frames| :: |frames[i]| <= Longest(frames)
    ensures frames != [] ==> exists i :: 0 <= i < |frames| && |frames[i]| == Longest(frames)
    ensures frames == [] ==> Longest(frames) == 0
  {
    if frames != [] {
      LongestIsMaximum(frames[1..]);
      forall i | 0 < i < |frames|
        ensures frames[i] == frames[1..][i - 1]
      {
      }
      if Longest(frames) == |frames[0]| {
      } else {
        var i :| 0 <= i < |frames[1..]| && |frames[1..][i]| == Longest(frames[1..]);
        assert |frames[i + 1]| == Longest(frames);
      }
    }
  }

  /** The loop condition of `drain_ready_inputs`, as a statement about row n. */
  ghost predicate Ready(g: Game, n: nat)
    requires |g.frames| == |g.dropped|
  {
    && (forall i | 0 <= i < |g.frames| :: n < |g.frames[i]| || g.dropped[i])
    && (exists i | 0 <= i < |g.frames| :: n < |g.frames[i]|)
  }

  /** Quiescence in closed form: draining goes on exactly below the minimum over live players (or the maximum). */
  lemma RowsIsWhereDrainingStops(g: Game, n: nat)
    requires |g.frames| == |g.dropped|
    ensures Ready(g, n) <==> n < g.Rows()
  {
    ShortestLiveIsMinimum(g.frames, g.dropped);
    LongestIsMaximum(g.frames);
    var m := ShortestLive(g.frames, g.dropped);
    if m.Some? {
      var i :| 0 <= i < |g.frames| && !g.dropped[i] && |g.frames[i]| == m.value;
      assert Ready(g, n) ==> n < |g.frames[i]|;
      assert n < m.value ==> n < |g.frames[i]|;
    } else if g.frames != [] {
      var i :| 0 <= i < |g.frames| && |g.frames[i]| == Longest(g.frames);
      assert n < Longest(g.frames) ==> n < |g.frames[i]|;
    }
  }

  /** The row count is the minimum over live players, or the maximum once all have dropped. */
  lemma RowsClosedForm(g: Game)
    requires g.Valid()
    ensures forall i | 0 <= i < |g.frames| :: g.IsLive(i) ==> g.Rows() <= |g.frames[i]|
    ensures (exists i | 0 <= i < |g.frames| :: g.IsLive(i)) ==>
              exists i | 0 <= i < |g.frames| :: g.IsLive(i) && g.Rows() == |g.frames[i]|
    ensures (forall i | 0 <= i < |g.frames| :: !g.IsLive(i)) ==>
              && (forall i | 0 <= i < |g.frames| :: |g.frames[i]| <= g.Rows())
              && (g.frames != [] ==> exists i | 0 <= i < |g.frames| :: g.Rows() == |g.frames[i]|)
              && (g.frames == [] ==> g.Rows() == 0)
  {
    ShortestLiveIsMinimum(g.frames, g.dropped);
    LongestIsMaximum(g.frames);
    var m := ShortestLive(g.frames, g.dropped);
    if m.Some? {
      var i :| 0 <= i < |g.frames| && !g.dropped[i] && |g.frames[i]| == m.value;
      assert g.IsLive(i);
    }
  }

  // ---- growth ----

  /** g' is g after some inputs and drops: nothing accepted is forgotten, dropped players gain nothing. */
  ghost predicate Extends(g: Game, g': Game) {
    && g.Valid() && g'.Valid()
    && g'.delays == g.delays
    && (forall i | 0 <= i < |g.frames| :: g.frames[i] <= g'.frames[i])
    && (forall i | 0 <= i < |g.frames| :: g.dropped[i] ==> g'.dropped[i] && g'.frames[i] == g.frames[i])
    && (g.frameSize > 0 ==> g'.frameSize == g.frameSize)
  }

  /** Inputs and drops can only raise the row count. */
  lemma RowsGrow(g: Game, g': Game)
    requires Extends(g, g')
    ensures g.Rows() <= g'.Rows()
  {
    if g'.Rows() < g.Rows() {
      var n := g'.Rows();
      RowsIsWhereDrainingStops(g, n);
      RowsIsWhereDrainingStops(g', n);
      assert Ready(g, n);
      var i :| 0 <= i < |g.frames| && n < |g.frames[i]|;
      assert n < |g'.frames[i]|;
      assert Ready(g', n);
    }
  }

  /** A combined row never changes afterwards. */
  lemma RowStable(g: Game, g': Game, k: nat)
    requires Extends(g, g') && k < g.Rows()
    ensures g.Row(k) == g'.Row(k)
  {
    RowsIsWhereDrainingStops(g, k);
    forall i | 0 <= i < |g.frames|
      ensures g.Cell(i, k) == g'.Cell(i, k)
    {
      if k < |g.frames[i]| {
        assert g'.frames[i][k] == g.frames[i][k];
      }
    }
  }

  lemma {:induction false} RowRangeStable(g: Game, g': Game, lo: nat, hi: nat)
    requires Extends(g, g') && hi <= g.Rows()
    ensures g.RowRange(lo, hi) == g'.RowRange(lo, hi)
    decreases hi
  {
    if lo < hi {
      RowRangeStable(g, g', lo, hi - 1);
      RowStable(g, g', hi - 1);
    }
  }

  lemma BatchStable(g: Game, g': Game, d: nat, n: nat)
    requires Extends(g, g') && 1 <= n <= g.Rows() && d >= 1
    ensures g.BatchEndingAt(d, n) == g'.BatchEndingAt(d, n)
  {
    hide Flatten, Game.RowRange;
    if n >= d {
      RowRangeStable(g, g', n - d, n);
    }
  }

  lemma {:induction false} BatchesStable(g: Game, g': Game, d: nat, n: nat)
    requires Extends(g, g') && n <= g.Rows() && d >= 1
    ensures g.Batches(d, n) == g'.Batches(d, n)
  {
    if n > 0 {
      BatchesStable(g, g', d, n - 1);
      BatchStable(g, g', d, n);
    }
  }

  // ---- shapes ----

  lemma {:induction false} RowRangeLength(g: Game, lo: nat, hi: nat)
    requires lo <= hi
    ensures |g.RowRange(lo, hi)| == (hi - lo) * |g.frames|
    decreases hi
  {
    if lo < hi {
      RowRangeLength(g, lo, hi - 1);
      assert (hi - lo) * |g.frames| == (hi - 1 - lo) * |g.frames| + |g.frames|;
    }
  }

  lemma {:induction false} RowRangeSplit(g: Game, lo: nat, mid: nat, hi: nat)
    requires lo <= mid <= hi
    ensures g.RowRange(lo, hi) == g.RowRange(lo, mid) + g.RowRange(mid, hi)
    decreases hi
  {
    if mid < hi {
      RowRangeSplit(g, lo, mid, hi - 1);
    }
  }

  /** n rows complete n / d batches of d rows ... */
  lemma {:induction false} BatchCount(g: Game, d: nat, n: nat)
    requires d >= 1
    ensures |g.Batches(d, n)| == n / d
  {
    if n == 0 {
      DivModUnique(0, d, 0, 0);
    } else {
      BatchCount(g, d, n - 1);
      ModSucc(n - 1, d);
    }
  }

  lemma ExactQuotient(n: nat, d: nat)
    requires d >= 1 && n % d == 0
    ensures n == n / d * d
    ensures n >= 1 ==> n >= d && n / d >= 1 && (n / d - 1) * d == n - d
  {
    var q := n / d;
    assert n == q * d;
    if q >= 1 {
      assert (q - 1) * d == q * d - d;
    }
  }

  /** ... and the j-th is the flattening of rows j*d .. (j+1)*d. */
  lemma {:induction false} BatchAt(g: Game, d: nat, n: nat, j: nat)
    requires d >= 1 && j < |g.Batches(d, n)|
    ensures g.Batches(d, n)[j] == g.BatchRows(d, j)
  {
    hide Flatten, Game.RowRange;
    if j < |g.Batches(d, n - 1)| {
      BatchAt(g, d, n - 1, j);
    } else {
      BatchCount(g, d, n);
      ExactQuotient(n, d);
      assert j == n / d - 1;
      NextIsExact(n, d, j);
    }
  }

  lemma NextIsExact(n: nat, d: nat, j: nat)
    requires d >= 1 && n == (j + 1) * d
    ensures j * d == n - d
  {
  }

  /** Batch after batch, a player's byte stream is the combined rows in order. */
  lemma {:induction false} BatchesAreTheRows(g: Game, d: nat, n: nat)
    requires d >= 1
    ensures n % d <= n
    ensures Flatten(g.Batches(d, n)) == Flatten(g.RowRange(0, n - n % d))
  {
    hide Game.Row;
    if n == 0 {
      DivModUnique(0, d, 0, 0);
    } else {
      ModSucc(n - 1, d);
      BatchesAreTheRows(g, d, n - 1);
      var before := g.Batches(d, n - 1);
      if n % d == 0 {
        assert (n - 1) - (n - 1) % d == n - d;
        RowRangeSplit(g, 0, n - d, n);
        FlattenAppend(g.RowRange(0, n - d), g.RowRange(n - d, n));
        FlattenAppend(before, g.BatchEndingAt(d, n));
        FlattenOne(Flatten(g.RowRange(n - d, n)));
      } else {
        assert g.Batches(d, n) == before;
      }
    }
  }

  lemma {:induction false} BatchesPrefix(g: Game, d: nat, m: nat, n: nat)
    requires d >= 1 && m <= n
    ensures g.Batches(d, m) <= g.Batches(d, n)
  {
    if m < n {
      BatchesPrefix(g, d, m, n - 1);
    }
  }

  // ---- who receives what ----

  /** The payloads among `outs` addressed to player p, in order. */
  function OutputsTo(p: nat, outs: seq<Output>): seq<Bytes> {
    if outs == [] then []
    else
      var last := outs[|outs| - 1];
      OutputsTo(p, outs[..|outs| - 1]) + (if last.player == p then [last.bytes] else [])
  }

  lemma {:induction false} OutputsToAppend(p: nat, a: seq<Output>, b: seq<Output>)
    ensures OutputsTo(p, a + b) == OutputsTo(p, a) + OutputsTo(p, b)
  {
    if b == [] {
      assert a + b == a;
    } else {
      var earlier, last := b[..|b| - 1], b[|b| - 1];
      assert (a + b)[..|a + b| - 1] == a + earlier && (a + b)[|a + b| - 1] == last;
      assert OutputsTo(p, a + b) == OutputsTo(p, a + earlier) + (if last.player == p then [last.bytes] else []);
      hide OutputsTo;
      OutputsToAppend(p, a, earlier);
    }
  }

  lemma OutputsToOne(p: nat, a: seq<Output>, o: Output)
    ensures OutputsTo(p, a + [o]) == OutputsTo(p, a) + (if o.player == p then [o.bytes] else [])
  {
    assert (a + [o])[..|a + [o]| - 1] == a;
  }

  lemma AddressToOne(p: nat, blocks: seq<Bytes>, block: Bytes)
    ensures AddressTo(p, blocks + [block]) == AddressTo(p, blocks) + [Output(p, block)]
  {
  }

  lemma {:induction false} AddressedBlocks(p: nat, blocks: seq<Bytes>, q: nat)
    ensures OutputsTo(q, AddressTo(p, blocks)) == if p == q then blocks else []
  {
    if blocks != [] {
      hide OutputsTo, AddressTo;
      var earlier, block := blocks[..|blocks| - 1], blocks[|blocks| - 1];
      AddressedBlocks(p, earlier, q);
      AddressToOne(p, earlier, block);
      OutputsToOne(q, AddressTo(p, earlier), Output(p, block));
      assert blocks == earlier + [block];
    }
  }

  /** Each player finds exactly its own list of blocks. */
  lemma {:induction false} AddressedEach(batches: seq<seq<Bytes>>, q: nat)
    ensures OutputsTo(q, AddressEach(batches)) == if q < |batches| then batches[q] else []
  {
    if batches != [] {
      var n := |batches| - 1;
      AddressedEach(batches[..n], q);
      AddressedBlocks(n, batches[n], q);
      OutputsToAppend(q, AddressEach(batches[..n]), AddressTo(n, batches[n]));
      if q == n {
        NothingBefore(batches[n]);
      } else {
        NothingAfter(OutputsTo(q, AddressEach(batches[..n])));
      }
    }
  }

  lemma NothingBefore<T>(s: seq<T>)
    ensures [] + s == s
  {
  }

  lemma NothingAfter<T>(s: seq<T>)
    ensures s + [] == s
  {
  }

  /** One row brings each player the batch it completes for that player. */
  lemma RowSendsOneBatchEach(g: Game, n: nat, upto: nat, p: nat)
    requires g.Valid() && n >= 1 && upto <= |g.delays|
    ensures OutputsTo(p, g.EmittedByRow(n, upto)) == if p < upto then g.BatchEndingAt(g.delays[p], n) else []
  {
    AddressedEach(g.BatchesOfRow(n, upto), p);
  }

  lemma EmittedByRowOne(g: Game, n: nat, upto: nat)
    requires g.Valid() && n >= 1 && upto < |g.delays|
    ensures g.EmittedByRow(n, upto + 1) == g.EmittedByRow(n, upto) + AddressTo(upto, g.BatchEndingAt(g.delays[upto], n))
  {
    assert g.BatchesOfRow(n, upto + 1)[..upto] == g.BatchesOfRow(n, upto);
  }

  lemma EmittedOne(g: Game, lo: nat, n: nat)
    requires g.Valid() && lo <= n
    ensures g.Emitted(lo, n + 1) == g.Emitted(lo, n) + g.EmittedByRow(n + 1, |g.delays|)
  {
  }

  lemma OneMoreRowSends(g: Game, lo: nat, n: nat, p: nat)
    requires g.Valid() && lo < n
    ensures OutputsTo(p, g.Emitted(lo, n)) ==
            OutputsTo(p, g.Emitted(lo, n - 1)) + (if p < |g.delays| then g.BatchEndingAt(g.delays[p], n) else [])
  {
    RowSendsOneBatchEach(g, n, |g.delays|, p);
    OutputsToAppend(p, g.Emitted(lo, n - 1), g.EmittedByRow(n, |g.delays|));
  }

  lemma Extended<T>(x: seq<T>, y: seq<T>, z: seq<T>, w: seq<T>)
    requires x + y == w
    ensures x + (y + z) == w + z
  {
  }

  /** One row's batches are sent in player order. */
  lemma {:induction false} SentInPlayerOrder(batches: seq<seq<Bytes>>)
    ensures forall i, j | 0 <= i < j < |AddressEach(batches)| ::
              AddressEach(batches)[i].player <= AddressEach(batches)[j].player < |batches|
    ensures forall i | 0 <= i < |AddressEach(batches)| :: AddressEach(batches)[i].player < |batches|
  {
    if batches != [] {
      SentInPlayerOrder(batches[..|batches| - 1]);
    }
  }

  lemma NothingEmitted(g: Game, n: nat, p: nat)
    requires g.Valid()
    ensures OutputsTo(p, g.Emitted(n, n)) == []
  {
  }

  lemma NewBatchesStep(g: Game, lo: nat, hi: nat, p: nat)
    requires g.Valid() && p < |g.delays| && lo < hi
    requires var d := g.delays[p]; g.Batches(d, lo) + OutputsTo(p, g.Emitted(lo, hi - 1)) == g.Batches(d, hi - 1)
    ensures g.Batches(g.delays[p], lo) + OutputsTo(p, g.Emitted(lo, hi)) == g.Batches(g.delays[p], hi)
  {
    hide Game.BatchEndingAt, Game.EmittedByRow, Game.Emitted, OutputsTo;
    var d := g.delays[p];
    OneMoreRowSends(g, lo, hi, p);
    Extended(g.Batches(d, lo), OutputsTo(p, g.Emitted(lo, hi - 1)), g.BatchEndingAt(d, hi), g.Batches(d, hi - 1));
  }

  /** While the row count goes from lo to hi, player p is sent exactly the batches completed meanwhile. */
  lemma {:induction false} EmittedIsTheNewBatches(g: Game, lo: nat, hi: nat, p: nat)
    requires g.Valid() && p < |g.delays| && lo <= hi
    ensures g.Batches(g.delays[p], lo) + OutputsTo(p, g.Emitted(lo, hi)) == g.Batches(g.delays[p], hi)
    decreases hi
  {
    hide Game.Batches, Game.Emitted, OutputsTo;
    if lo == hi {
      NothingEmitted(g, lo, p);
    } else {
      EmittedIsTheNewBatches(g, lo, hi - 1, p);
      NewBatchesStep(g, lo, hi, p);
    }
  }

  lemma {:induction false} EmittedOnlyToPlayers(g: Game, lo: nat, hi: nat, p: nat)
    requires g.Valid() && p >= |g.delays|
    ensures OutputsTo(p, g.Emitted(lo, hi)) == []
    decreases hi
  {
    if lo < hi {
      var before := OutputsTo(p, g.Emitted(lo, hi - 1));
      EmittedOnlyToPlayers(g, lo, hi - 1, p);
      assert before == [];
      OneMoreRowSends(g, lo, hi, p);
      assert OutputsTo(p, g.Emitted(lo, hi)) == before + [];
    }
  }
}
