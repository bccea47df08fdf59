/** How inputs are cut into frames, what one input or drop does to the game, and what holds over whole runs. */
module LockstepRuns {
  import opened Common
  import opened Lockstep

  // ---- cutting a packet into frames ----

  /** Rust's `slice::chunks`: pieces of `size` bytes, the last one possibly shorter. */
  function Chunks(x: Bytes, size: nat): seq<Bytes>
    requires size >= 1
    decreases |x|
  {
    if x == [] then []
    else if |x| <= size then [x]
    else [x[..size]] + Chunks(x[size..], size)
  }

  /** The frames in one packet of a player with the given delay. */
  function FramesIn(packet: Bytes, delay: nat): seq<Bytes> {
    if delay > 0 && |packet| / delay > 0 then Chunks(packet, |packet| / delay) else []
  }

  /** Cutting loses nothing. */
  lemma {:induction false} ChunksConcatenate(x: Bytes, size: nat)
    requires size >= 1
    ensures Flatten(Chunks(x, size)) == x
    decreases |x|
  {
    if x == [] {
    } else if |x| <= size {
      FlattenOne(x);
    } else {
      ChunksConcatenate(x[size..], size);
      assert Chunks(x, size)[1..] == Chunks(x[size..], size);
    }
  }

  lemma {:induction false} ChunkCountBounds(x: Bytes, size: nat)
    requires size >= 1 && x != []
    ensures |Chunks(x, size)| >= 1
    ensures (|Chunks(x, size)| - 1) * size < |x| <= |Chunks(x, size)| * size
    decreases |x|
  {
    if |x| > size {
      ChunkCountBounds(x[size..], size);
      var c := |Chunks(x[size..], size)|;
      assert |Chunks(x, size)| == c + 1;
      assert c * size == (c - 1) * size + size;
      assert (c + 1) * size == c * size + size;
    }
  }

  lemma QuotientPositive(n: nat, d: nat)
    requires n >= d >= 1
    ensures n / d >= 1
  {
    if n < 2 * d {
      DivModUnique(n, d, 1, n - d);
    } else {
      QuotientPositive(n - d, d);
      assert n == (n - d) / d * d + (n - d) % d + d;
      DivModUnique(n, d, (n - d) / d + 1, (n - d) % d);
    }
  }

  /**
   A packet of at least `delay` bytes gives exactly `delay` frames iff delay divides its length, and
   more otherwise.
   */
  lemma FrameCount(packet: Bytes, delay: nat)
    requires delay >= 1 && |packet| >= delay
    ensures |FramesIn(packet, delay)| >= delay
    ensures |FramesIn(packet, delay)| == delay <==> |packet| % delay == 0
    ensures Flatten(FramesIn(packet, delay)) == packet
  {
    var q, r := |packet| / delay, |packet| % delay;
    assert |packet| == q * delay + r;
    QuotientPositive(|packet|, delay);
    ChunkCountBounds(packet, q);
    ChunksConcatenate(packet, q);
    var c := |Chunks(packet, q)|;
    assert q * delay == delay * q;
    if c < delay {
      Monotone(c, delay, q);
    } else if c > delay && r == 0 {
      Monotone(delay, c - 1, q);
    }
  }

  lemma Monotone(a: nat, b: nat, m: nat)
    requires a <= b
    ensures a * m <= b * m
    ensures a < b ==> a * m + m <= b * m
  {
    assert b * m == a * m + (b - a) * m;
    if a < b {
      AtLeastOne(b - a, m);
    }
  }

  /** A packet shorter than its sender's delay contributes nothing. */
  lemma ShortPacketIgnored(packet: Bytes, delay: nat)
    requires delay >= 1
    ensures FramesIn(packet, delay) == [] <==> |packet| < delay
  {
    if |packet| >= delay {
      FrameCount(packet, delay);
    } else {
      DivModUnique(|packet|, delay, 0, |packet|);
    }
  }

  // ---- one event ----

  datatype Event = Input(player: nat, bytes: Bytes) | Drop(player: nat)

  function New(delays: seq<nat>): Game {
    Game(seq(|delays|, _ => []), seq(|delays|, _ => false), delays, 0)
  }

  lemma NewHasNoRows(delays: seq<nat>)
    requires DelaysPositive(delays)
    ensures New(delays).Valid() && New(delays).Rows() == 0
  {
    RowsIsWhereDrainingStops(New(delays), 0);
    assert forall i | 0 <= i < |delays| :: New(delays).frames[i] == [];
  }

  /** A live player's frames are appended, and the first of all fixes the frame size. */
  function AfterPacket(g: Game, p: nat, frames: seq<Bytes>, size: nat): Game
    requires p < |g.frames|
  {
    g.(frames := g.frames[p := g.frames[p] + frames], frameSize := if g.frameSize == 0 then size else g.frameSize)
  }

  function AfterInput(g: Game, p: nat, packet: Bytes): Game
    requires g.Valid()
  {
    if p >= |g.delays| || g.dropped[p] then g
    else
      var frames := FramesIn(packet, g.delays[p]);
      if frames == [] then g else AfterPacket(g, p, frames, |packet| / g.delays[p])
  }

  function AfterDrop(g: Game, p: nat): Game
    requires g.Valid()
  {
    if p >= |g.delays| then g else g.(dropped := g.dropped[p := true])
  }

  function After(g: Game, e: Event): Game
    requires g.Valid()
  {
    match e
    case Input(p, bytes) => AfterInput(g, p, bytes)
    case Drop(p) => AfterDrop(g, p)
  }

  /** Everything that becomes sendable when g turns into g'. */
  function Sent(g: Game, g': Game): seq<Output>
    requires g.Valid() && g'.Valid()
  {
    g'.Emitted(g.Rows(), g'.Rows())
  }

  lemma EventsExtend(g: Game, e: Event)
    requires g.Valid()
    ensures After(g, e).Valid()
    ensures Extends(g, After(g, e))
  {
    if e.Input? && e.player < |g.delays| && !g.dropped[e.player] {
      var d := g.delays[e.player];
      var frames := FramesIn(e.bytes, d);
      assert forall i | 0 <= i < |g.frames| && i != e.player :: After(g, e).frames[i] == g.frames[i];
    }
  }

  // ---- runs ----

  ghost function Run(delays: seq<nat>, events: seq<Event>): (g: Game)
    requires DelaysPositive(delays)
    ensures g.Valid() && g.delays == delays
  {
    if events == [] then New(delays)
    else
      var g := Run(delays, events[..|events| - 1]);
      EventsExtend(g, events[|events| - 1]);
      After(g, events[|events| - 1])
  }

  /** Everything the combiner returned during the run, in order. */
  ghost function Transcript(delays: seq<nat>, events: seq<Event>): seq<Output>
    requires DelaysPositive(delays)
  {
    if events == [] then []
    else
      Transcript(delays, events[..|events| - 1])
      + Sent(Run(delays, events[..|events| - 1]), Run(delays, events))
  }

  /** One more event sends a player exactly the batches it completes. */
  lemma SentIsTheNewBatches(g: Game, g': Game, p: nat)
    requires Extends(g, g') && p < |g.delays|
    ensures g.Batches(g.delays[p], g.Rows()) + OutputsTo(p, Sent(g, g')) == g'.Batches(g.delays[p], g'.Rows())
  {
    RowsGrow(g, g');
    BatchesStable(g, g', g.delays[p], g.Rows());
    EmittedIsTheNewBatches(g', g.Rows(), g'.Rows(), p);
  }

  /** Over any run, player p has been sent exactly the batches of the final game's rows. */
  lemma {:induction false} TranscriptIsTheBatches(delays: seq<nat>, events: seq<Event>, p: nat)
    requires DelaysPositive(delays) && p < |delays|
    ensures var g := Run(delays, events);
            OutputsTo(p, Transcript(delays, events)) == g.Batches(delays[p], g.Rows())
  {
    var g := Run(delays, events);
    if events == [] {
      NewHasNoRows(delays);
    } else {
      var before := events[..|events| - 1];
      var g0 := Run(delays, before);
      TranscriptIsTheBatches(delays, before, p);
      EventsExtend(g0, events[|events| - 1]);
      SentIsTheNewBatches(g0, g, p);
      OutputsToAppend(p, Transcript(delays, before), Sent(g0, g));
    }
  }

  // ---- what the final game is made of ----

  datatype PlayerEvent = Sends(bytes: Bytes) | Drops

  /** An event as its player sees it. */
  function Own(e: Event): PlayerEvent {
    match e
    case Input(_, bytes) => Sends(bytes)
    case Drop(_) => Drops
  }

  function OwnIf(p: nat, e: Event): seq<PlayerEvent> {
    if e.player == p then [Own(e)] else []
  }

  /** Player p's own inputs and drops, in order. */
  ghost function Project(events: seq<Event>, p: nat): seq<PlayerEvent> {
    if events == [] then []
    else Project(events[..|events| - 1], p) + OwnIf(p, events[|events| - 1])
  }

  lemma ProjectOne(events: seq<Event>, e: Event, p: nat)
    ensures Project(events + [e], p) == Project(events, p) + OwnIf(p, e)
  {
    assert (events + [e])[..|events|] == events;
  }

  lemma ProjectTwo(a: Event, b: Event, p: nat)
    ensures Project([a, b], p) == OwnIf(p, a) + OwnIf(p, b)
  {
    hide OwnIf;
    assert [a, b][..1] == [a] && [a][..0] == [];
    assert Project([a], p) == OwnIf(p, a);
  }

  lemma ProjectThree(a: Event, b: Event, c: Event, p: nat)
    ensures Project([a, b, c], p) == OwnIf(p, a) + OwnIf(p, b) + OwnIf(p, c)
  {
    hide Project, OwnIf;
    assert [a, b, c] == [a, b] + [c];
    ProjectTwo(a, b, p);
    ProjectOne([a, b], c, p);
  }

  lemma ProjectFour(a: Event, b: Event, c: Event, d: Event, p: nat)
    ensures Project([a, b, c, d], p) == OwnIf(p, a) + OwnIf(p, b) + OwnIf(p, c) + OwnIf(p, d)
  {
    hide Project, OwnIf;
    assert [a, b, c, d] == [a, b, c] + [d];
    ProjectThree(a, b, c, p);
    ProjectOne([a, b, c], d, p);
  }

  /** The frames in the packets a player sent before dropping. */
  ghost function Contributed(own: seq<PlayerEvent>, delay: nat): seq<Bytes> {
    if own == [] then []
    else
      var before, e := own[..|own| - 1], own[|own| - 1];
      Contributed(before, delay) + (if e.Sends? && Drops !in before then FramesIn(e.bytes, delay) else [])
  }

  /** Each player's frames and dropped flag depend on that player's own events only. */
  lemma {:induction false} FramesAreOwnHistory(delays: seq<nat>, events: seq<Event>, p: nat)
    requires DelaysPositive(delays) && p < |delays|
    ensures Run(delays, events).frames[p] == Contributed(Project(events, p), delays[p])
    ensures Run(delays, events).dropped[p] <==> Drops in Project(events, p)
  {
    if events != [] {
      var before, e := events[..|events| - 1], events[|events| - 1];
      hide FramesIn;
      FramesAreOwnHistory(delays, before, p);
      var own := Project(before, p);
      if e.player != p {
        assert Project(events, p) == own;
      } else {
        var last := Own(e);
        assert Project(events, p) == own + [last];
        assert (own + [last])[..|own|] == own;
        assert Contributed(own + [last], delays[p])
            == Contributed(own, delays[p]) + (if last.Sends? && Drops !in own then FramesIn(last.bytes, delays[p])
                else []);
      }
    }
  }

  /** In every reachable state, row k column i is player i's k-th contributed frame, or zeros once there is none. */
  lemma RowsAreOwnHistories(delays: seq<nat>, events: seq<Event>, k: nat, i: nat)
    requires DelaysPositive(delays) && i < |delays|
    ensures var own, g := Contributed(Project(events, i), delays[i]), Run(delays, events);
            g.Row(k)[i] == if k < |own| then own[k] else Zeros(g.frameSize)
  {
    FramesAreOwnHistory(delays, events, i);
  }

  /** Player p has been sent n / d outputs, and the j-th is rows j*d .. (j+1)*d laid end to end. */
  lemma LockstepRefinement(delays: seq<nat>, events: seq<Event>, p: nat, j: nat)
    requires DelaysPositive(delays) && p < |delays|
    ensures |OutputsTo(p, Transcript(delays, events))| == Run(delays, events).Rows() / delays[p]
    ensures j < |OutputsTo(p, Transcript(delays, events))| ==>
              OutputsTo(p, Transcript(delays, events))[j] == Run(delays, events).BatchRows(delays[p], j)
  {
    var g := Run(delays, events);
    TranscriptIsTheBatches(delays, events, p);
    BatchCount(g, delays[p], g.Rows());
    if j < g.Rows() / delays[p] {
      BatchAt(g, delays[p], g.Rows(), j);
    }
  }

  /** Both players' batches spell out rows of the same game, so one stream is a prefix of the other. */
  lemma BatchStreamsAgree(g: Game, d: nat, d': nat, n: nat)
    requires d >= 1 && d' >= 1
    ensures var a, b := Flatten(g.Batches(d, n)), Flatten(g.Batches(d', n)); a <= b || b <= a
  {
    BatchesAreTheRows(g, d, n);
    BatchesAreTheRows(g, d', n);
    RowsPrefixComparable(g, n - n % d, n - n % d');
  }

  lemma RowsPrefixComparable(g: Game, m: nat, n: nat)
    ensures var a, b := Flatten(g.RowRange(0, m)), Flatten(g.RowRange(0, n));
            a <= b || b <= a
  {
    var lo, hi := if m <= n then m else n, if m <= n then n else m;
    RowRangeSplit(g, 0, lo, hi);
    FlattenAppend(g.RowRange(0, lo), g.RowRange(lo, hi));
  }

  /** Any two players have been sent the same byte stream, as far as both streams go. */
  lemma StreamsAgree(delays: seq<nat>, events: seq<Event>, p: nat, q: nat)
    requires DelaysPositive(delays) && p < |delays| && q < |delays|
    ensures var sp := Flatten(OutputsTo(p, Transcript(delays, events)));
            var sq := Flatten(OutputsTo(q, Transcript(delays, events)));
            sp <= sq || sq <= sp
  {
    TranscriptIsTheBatches(delays, events, p);
    TranscriptIsTheBatches(delays, events, q);
    BatchStreamsAgree(Run(delays, events), delays[p], delays[q], Run(delays, events).Rows());
  }

  // ---- drops ----

  /** A drop never lowers the row count, and never takes back a queued frame. */
  lemma DropOnlyRaises(g: Game, p: nat)
    requires g.Valid()
    ensures AfterDrop(g, p).Valid()
    ensures g.Rows() <= AfterDrop(g, p).Rows()
    ensures forall i: nat, k: nat | i < |g.frames| && k < |g.frames[i]| :: AfterDrop(g, p).Cell(i, k) == g.frames[i][k]
  {
    EventsExtend(g, Drop(p));
    RowsGrow(g, AfterDrop(g, p));
  }
}
