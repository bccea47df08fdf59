/** Which bytes of which packet a frame is, alone and as a cell of a row. */
module Frames {
  import opened Common
  import opened Lockstep
  import opened LockstepRuns
  import opened Startup

  /** Bytes lo .. lo + size of a packet, or up to its end if that comes first. */
  function Slice(x: Bytes, lo: nat, size: nat): Bytes
    requires lo <= |x|
  {
    if lo + size <= |x| then x[lo..lo + size] else x[lo..]
  }

  lemma {:induction false} ChunkAt(x: Bytes, size: nat, j: nat)
    requires size >= 1
    ensures j < |Chunks(x, size)| <==> j * size < |x|
    ensures j < |Chunks(x, size)| ==> Chunks(x, size)[j] == Slice(x, j * size, size)
    decreases |x|
  {
    if j == 0 {
    } else if |x| <= size {
      AtLeastOne(j, size);
    } else {
      var rest := x[size..];
      ChunkAt(rest, size, j - 1);
      assert j * size == (j - 1) * size + size;
      if j - 1 < |Chunks(rest, size)| {
        SliceOfRest(x, size, (j - 1) * size);
      }
    }
  }

  lemma SliceOfRest(x: Bytes, size: nat, lo: nat)
    requires size <= |x| && lo <= |x| - size
    ensures Slice(x[size..], lo, size) == Slice(x, lo + size, size)
  {
  }

  /** With q = |packet| / delay, these are bytes j*q .. (j+1)*q of the packet, cut off at its end. */
  predicate Shows(frame: Bytes, packet: Bytes, delay: nat, j: nat)
    requires delay >= 1
  {
    var q := |packet| / delay;
    q >= 1 && j * q < |packet| && frame == Slice(packet, j * q, q)
  }

  /**
   With q = |packet| / delay, frame j of a packet is its bytes j*q .. (j+1)*q, cut off at the end of
   the packet, and there is one for each j with j*q bytes before it and at least one after.
   */
  lemma FrameAt(packet: Bytes, delay: nat, j: nat)
    requires delay >= 1 && |packet| >= delay
    ensures var q := |packet| / delay;
            && q >= 1
            && (j < |FramesIn(packet, delay)| <==> j * q < |packet|)
            && (j * q < |packet| ==> Shows(FramesIn(packet, delay)[j], packet, delay, j))
  {
    hide Chunks;
    QuotientPositive(|packet|, delay);
    ChunkAt(packet, |packet| / delay, j);
  }

  // ---- over a run ----

  /** Event m of a player's history is a packet that counts: sent before any drop, and with at least delay bytes. */
  predicate Counts(own: seq<PlayerEvent>, delay: nat, m: nat) {
    m < |own| && own[m].Sends? && Drops !in own[..m] && |own[m].bytes| >= delay >= 1
  }

  /** Frame k of a player's contribution is frame j of packet m. */
  ghost predicate ComesFrom(own: seq<PlayerEvent>, delay: nat, k: nat, m: nat, j: nat)
    requires k < |Contributed(own, delay)|
  {
    && Counts(own, delay, m)
    && k == |Contributed(own[..m], delay)| + j
    && Shows(Contributed(own, delay)[k], own[m].bytes, delay, j)
  }

  lemma ContributedOne(own: seq<PlayerEvent>, e: PlayerEvent, delay: nat)
    requires delay >= 1
    ensures Contributed(own + [e], delay)
         == Contributed(own, delay)
            + if Counts(own + [e], delay, |own|) then FramesIn(e.bytes, delay) else []
  {
    hide FramesIn;
    assert (own + [e])[..|own|] == own;
    if e.Sends? && |e.bytes| < delay {
      ShortPacketIgnored(e.bytes, delay);
    }
  }

  lemma {:induction false} ContributedGrows(own: seq<PlayerEvent>, delay: nat, m: nat)
    requires m <= |own|
    ensures Contributed(own[..m], delay) <= Contributed(own, delay)
    decreases |own|
  {
    if m == |own| {
      assert own[..m] == own;
    } else {
      var before := own[..|own| - 1];
      ContributedGrows(before, delay, m);
      assert before[..m] == own[..m];
    }
  }

  /** Every frame in every packet that counts is contributed, after those of the packets before it ... */
  lemma PacketIsContributed(own: seq<PlayerEvent>, delay: nat, m: nat, j: nat)
    requires Counts(own, delay, m)
    requires j * (|own[m].bytes| / delay) < |own[m].bytes|
    ensures var k := |Contributed(own[..m], delay)| + j;
            k < |Contributed(own, delay)| && ComesFrom(own, delay, k, m, j)
  {
    hide Contributed, FramesIn;
    var upto := own[..m + 1];
    assert upto == own[..m] + [own[m]] && upto[..m] == own[..m];
    ContributedOne(own[..m], own[m], delay);
    ContributedGrows(own, delay, m + 1);
    FrameAt(own[m].bytes, delay, j);
  }

  /** ... and nothing else is. */
  lemma {:induction false} FrameComesFrom(own: seq<PlayerEvent>, delay: nat, k: nat) returns (m: nat, j: nat)
    requires delay >= 1 && k < |Contributed(own, delay)|
    ensures ComesFrom(own, delay, k, m, j)
    decreases |own|
  {
    hide FramesIn;
    var before, e := own[..|own| - 1], own[|own| - 1];
    assert own == before + [e];
    ContributedOne(before, e, delay);
    if k < |Contributed(before, delay)| {
      m, j := FrameComesFrom(before, delay, k);
      assert own[..m] == before[..m];
    } else {
      m, j := |own| - 1, k - |Contributed(before, delay)|;
      FrameAt(e.bytes, delay, j);
    }
  }

  /**
   Over any run, frame k of a player fills its cell of row k, and is the slice of the packet it
   comes from; past its last frame the cell is zeros.
   */
  lemma CellIsASlice(delays: seq<nat>, events: seq<Event>, k: nat, i: nat) returns (m: nat, j: nat)
    requires DelaysPositive(delays) && i < |delays|
    ensures var own, cell := Project(events, i), Run(delays, events).Row(k)[i];
            if k < |Contributed(own, delays[i])|
            then ComesFrom(own, delays[i], k, m, j) && Shows(cell, own[m].bytes, delays[i], j)
            else |cell| == Run(delays, events).frameSize && forall b <- cell :: b == 0
  {
    hide Contributed, Project, Run, Shows;
    m, j := 0, 0;
    RowsAreOwnHistories(delays, events, k, i);
    if k < |Contributed(Project(events, i), delays[i])| {
      m, j := FrameComesFrom(Project(events, i), delays[i], k);
    }
  }

  /** Behind the startup layer: each frame of a released packet, after those of the packets released before. */
  lemma {:induction false} ReleasedFrameAt(xs: seq<Bytes>, delay: nat, n: nat, j: nat)
    requires delay >= 1 && n < |xs| && |xs[n]| >= delay && j * (|xs[n]| / delay) < |xs[n]|
    ensures var k := |FramesOfAll(xs[..n], delay)| + j;
            k < |FramesOfAll(xs, delay)| && Shows(FramesOfAll(xs, delay)[k], xs[n], delay, j)
    decreases |xs|
  {
    hide FramesIn, Shows;
    var before := xs[..|xs| - 1];
    if n < |before| {
      ReleasedFrameAt(before, delay, n, j);
      assert before[..n] == xs[..n];
    } else {
      FrameAt(xs[n], delay, j);
    }
  }

  // ---- whole packets ----

  /** All packets that count are whole: the delay divides their lengths. */
  predicate AllWhole(own: seq<PlayerEvent>, delay: nat) {
    forall m | 0 <= m < |own| :: Counts(own, delay, m) ==> |own[m].bytes| % delay == 0
  }

  /** The packets that count. */
  ghost function Counted(own: seq<PlayerEvent>, delay: nat): seq<Bytes> {
    if own == [] then []
    else
      var n := |own| - 1;
      Counted(own[..n], delay) + (if Counts(own, delay, n) then [own[n].bytes] else [])
  }

  /** With whole packets, a player's frame k is slice k % delay of its packet k / delay. */
  lemma {:induction false} WholePacketFrames(own: seq<PlayerEvent>, delay: nat, n: nat, j: nat)
    requires delay >= 1 && AllWhole(own, delay) && n < |Counted(own, delay)| && j < delay
    ensures |Contributed(own, delay)| == |Counted(own, delay)| * delay
    ensures n * delay + j < |Contributed(own, delay)| && |Counted(own, delay)[n]| >= delay
    ensures var packet := Counted(own, delay)[n];
            var q := |packet| / delay;
            j * q + q <= |packet| && Contributed(own, delay)[n * delay + j] == packet[j * q..j * q + q]
    decreases |own|
  {
    hide FramesIn;
    var before, e := own[..|own| - 1], own[|own| - 1];
    assert own == before + [e];
    ContributedOne(before, e, delay);
    BeforeIsWhole(own, delay);
    var c := |Counted(before, delay)|;
    WholeCount(before, delay);
    WholeCount(own, delay);
    Monotone(n + 1, |Counted(own, delay)|, delay);
    assert (n + 1) * delay == n * delay + delay;
    if n < c {
      WholePacketFrames(before, delay, n, j);
    } else {
      FrameAt(e.bytes, delay, j);
      WholeSlice(e.bytes, delay, j);
    }
  }

  lemma BeforeIsWhole(own: seq<PlayerEvent>, delay: nat)
    requires own != [] && AllWhole(own, delay)
    ensures AllWhole(own[..|own| - 1], delay)
  {
    var before := own[..|own| - 1];
    forall m | 0 <= m < |before| && Counts(before, delay, m)
      ensures |before[m].bytes| % delay == 0
    {
      assert before[..m] == own[..m];
      assert Counts(own, delay, m);
    }
  }

  lemma NothingCounts(delay: nat)
    ensures Contributed([], delay) == []
  {
  }

  lemma LastIsWhole(own: seq<PlayerEvent>, delay: nat)
    requires own != [] && AllWhole(own, delay) && Counts(own, delay, |own| - 1)
    ensures own[|own| - 1].Sends?
    ensures var packet := own[|own| - 1].bytes; |packet| >= delay >= 1 && |packet| % delay == 0
  {
  }

  lemma {:induction false} WholeCount(own: seq<PlayerEvent>, delay: nat)
    requires delay >= 1 && AllWhole(own, delay)
    ensures |Contributed(own, delay)| == |Counted(own, delay)| * delay
    decreases |own|
  {
    hide FramesIn, Counts, Contributed, AllWhole;
    if own == [] {
      NothingCounts(delay);
    } else {
      var before, e := own[..|own| - 1], own[|own| - 1];
      assert own == before + [e];
      ContributedOne(before, e, delay);
      BeforeIsWhole(own, delay);
      WholeCount(before, delay);
      if Counts(own, delay, |own| - 1) {
        LastIsWhole(own, delay);
        FrameCount(e.bytes, delay);
        OneMoreTime(|Counted(before, delay)|, delay);
      }
    }
  }

  lemma OneMoreTime(c: nat, d: nat)
    ensures (c + 1) * d == c * d + d
  {
  }

  lemma WholeSlice(packet: Bytes, delay: nat, j: nat)
    requires delay >= 1 && |packet| >= delay && |packet| % delay == 0 && j < delay
    ensures var q := |packet| / delay; q >= 1 && j * q + q <= |packet| && j * q < |packet|
  {
    var q := |packet| / delay;
    assert |packet| == q * delay + |packet| % delay == q * delay;
    QuotientPositive(|packet|, delay);
    Monotone(j, delay, q);
    assert q * delay == delay * q;
  }
}
