/** How far the stack lets players run ahead of each other, and that it never stops them all. */
module FlowControl {
  import opened Common
  import opened Lockstep
  import opened LockstepRuns
  import opened Startup
  import opened Streams

  /** Each of player p's packets has at least one byte per frame. */
  ghost predicate LongFrom(delays: seq<nat>, events: seq<Event>, p: nat)
    requires p < |delays|
  {
    forall e <- events :: e.Input? && e.player == p ==> |e.bytes| >= delays[p]
  }

  /** Each of player p's packets has a length that is a positive multiple of its delay. */
  ghost predicate WholeFrom(delays: seq<nat>, events: seq<Event>, p: nat)
    requires p < |delays| && delays[p] >= 1
  {
    LongFrom(delays, events, p) && forall e <- events :: e.Input? && e.player == p ==> |e.bytes| % delays[p] == 0
  }

  ghost predicate LongPackets(delays: seq<nat>, events: seq<Event>) {
    forall p: nat | p < |delays| :: Drops !in Project(events, p) ==> LongFrom(delays, events, p)
  }

  ghost predicate WholePackets(delays: seq<nat>, events: seq<Event>)
    requires DelaysPositive(delays)
  {
    forall p: nat | p < |delays| :: Drops !in Project(events, p) ==> WholeFrom(delays, events, p)
  }

  // ---- frames per packet ----

  lemma OneMore(n: nat, d: nat)
    ensures (n + 1) * d == n * d + d
  {
  }

  /** Long packets give at least a delay's worth of frames each, whole ones exactly that. */
  lemma {:induction false} FramesPerPacket(xs: seq<Bytes>, delay: nat)
    requires delay >= 1 && forall i | 0 <= i < |xs| :: |xs[i]| >= delay
    ensures |FramesOfAll(xs, delay)| >= |xs| * delay
    ensures (forall i | 0 <= i < |xs| :: |xs[i]| % delay == 0) ==> |FramesOfAll(xs, delay)| == |xs| * delay
  {
    if xs != [] {
      var before, last := xs[..|xs| - 1], xs[|xs| - 1];
      hide FramesIn;
      FramesPerPacket(before, delay);
      FrameCount(last, delay);
      OneMore(|before|, delay);
      assert |FramesOfAll(xs, delay)| == |FramesOfAll(before, delay)| + |FramesIn(last, delay)|;
    }
  }

  lemma {:induction false} LivePacketsAreSent(events: seq<Event>, p: nat)
    ensures forall x <- LivePackets(Project(events, p)) :: Input(p, x) in events
  {
    if events != [] {
      var before, e := events[..|events| - 1], events[|events| - 1];
      LivePacketsAreSent(before, p);
      assert forall x <- before :: x in events;
      assert e in events;
      if e.player == p {
        OwnSnoc(Project(before, p), Own(e));
      } else {
        assert Project(events, p) == Project(before, p);
      }
    }
  }

  lemma ReleasedAreLive(xs: seq<Bytes>, warmup: nat)
    ensures forall x <- Released(xs, warmup) :: x in xs
  {
  }

  /** How many packets a player sent beyond those answered in warm-up. */
  ghost function BeyondWarmup(events: seq<Event>, p: nat, warmup: nat): (n: nat)
    ensures n + Min(PacketCount(Project(events, p)), warmup) == PacketCount(Project(events, p))
  {
    PacketCount(Project(events, p)) - Min(PacketCount(Project(events, p)), warmup)
  }

  /** Each of those has brought a live player's queue at least its delay in frames. */
  lemma LiveContribution(delays: seq<nat>, warmups: seq<nat>, events: seq<Event>, p: nat)
    requires Sized(delays, warmups) && p < |delays| && LongFrom(delays, events, p)
    requires Drops !in Project(events, p)
    ensures var frames := |StartupRun(delays, warmups, events).game.frames[p]|;
            && frames >= BeyondWarmup(events, p, warmups[p]) * delays[p]
            && (WholeFrom(delays, events, p) ==> frames == BeyondWarmup(events, p, warmups[p]) * delays[p])
  {
    hide StartupRun, Released, LivePackets, FramesOfAll;
    EveryoneOnSchedule(delays, warmups, events, p);
    LivePacketsAreSent(events, p);
    var xs := LivePackets(Project(events, p));
    var released := Released(xs, warmups[p]);
    ReleasedCount(xs, warmups[p]);
    ReleasedAreLive(xs, warmups[p]);
    forall i | 0 <= i < |released|
      ensures |released[i]| >= delays[p] && (WholeFrom(delays, events, p) ==> |released[i]| % delays[p] == 0)
    {
      assert Input(p, released[i]) in events;
    }
    FramesPerPacket(released, delays[p]);
  }

  // ---- responses ----

  /** How many responses player p has been sent. */
  ghost function ResponseCount(delays: seq<nat>, warmups: seq<nat>, events: seq<Event>, p: nat): nat
    requires Sized(delays, warmups)
  {
    |OutputsTo(p, RawTranscript(delays, warmups, events))|
  }

  /** Whatever its packets, a player quiet in warm-up has one response per warm-up packet and one per batch. */
  lemma QuietResponseCount(delays: seq<nat>, warmups: seq<nat>, events: seq<Event>, p: nat)
    requires Sized(delays, warmups) && p < |delays| && QuietInWarmup(Project(events, p), warmups[p])
    ensures ResponseCount(delays, warmups, events, p)
         == Min(PacketCount(Project(events, p)), warmups[p]) 
            + StartupRun(delays, warmups, events).game.Rows() / delays[p]
  {
    var g := StartupRun(delays, warmups, events).game;
    StreamShape(delays, warmups, events, p);
    WarmupBlockCount(|delays|, warmups[p], events, p);
    BatchCount(g, delays[p], g.Rows());
  }

  lemma QuotientBound(n: nat, k: nat, d: nat)
    requires d >= 1
    ensures n <= k * d ==> n / d <= k
    ensures n >= k * d ==> n / d >= k
  {
    var q, r := n / d, n % d;
    assert n == q * d + r;
    if n <= k * d && q > k {
      Monotone(k, q, d);
    }
    if n >= k * d && q < k {
      Monotone(q, k, d);
    }
  }

  lemma RowsWithinLive(delays: seq<nat>, warmups: seq<nat>, events: seq<Event>, p: nat)
    requires Sized(delays, warmups) && p < |delays|
    requires Drops !in Project(events, p)
    ensures StartupRun(delays, warmups, events).game.Rows() <= |StartupRun(delays, warmups, events).game.frames[p]|
  {
    EveryoneOnSchedule(delays, warmups, events, p);
    RowsClosedForm(StartupRun(delays, warmups, events).game);
    assert StartupRun(delays, warmups, events).game.IsLive(p);
  }

  /** A live player that sends whole packets is never sent more responses than it sent packets. */
  lemma NeverAhead(delays: seq<nat>, warmups: seq<nat>, events: seq<Event>, p: nat)
    requires Sized(delays, warmups) && p < |delays| && WholeFrom(delays, events, p)
    requires Drops !in Project(events, p)
    ensures ResponseCount(delays, warmups, events, p) <= PacketCount(Project(events, p))
  {
    hide StartupRun, RawTranscript, Project, LongFrom, ResponseCount;
    LiveIsQuiet(Project(events, p), warmups[p]);
    QuietResponseCount(delays, warmups, events, p);
    RowsWithinLive(delays, warmups, events, p);
    LiveContribution(delays, warmups, events, p);
    QuotientBound(StartupRun(delays, warmups, events).game.Rows(), BeyondWarmup(events, p, warmups[p]), delays[p]);
  }

  /** A live player whose own frames limit the row count has a response to every packet it sent. */
  lemma SlowestIsServed(delays: seq<nat>, warmups: seq<nat>, events: seq<Event>, p: nat)
    requires Sized(delays, warmups) && p < |delays| && LongFrom(delays, events, p)
    requires Drops !in Project(events, p)
    requires StartupRun(delays, warmups, events).game.Rows() == |StartupRun(delays, warmups, events).game.frames[p]|
    ensures ResponseCount(delays, warmups, events, p) >= PacketCount(Project(events, p))
  {
    hide StartupRun, RawTranscript, Project, LongFrom, ResponseCount;
    LiveIsQuiet(Project(events, p), warmups[p]);
    QuietResponseCount(delays, warmups, events, p);
    LiveContribution(delays, warmups, events, p);
    QuotientBound(StartupRun(delays, warmups, events).game.Rows(), BeyondWarmup(events, p, warmups[p]), delays[p]);
  }

  lemma SomeLiveIsSlowest(s: Startup, live: nat) returns (p: nat)
    requires s.Valid() && s.game.IsLive(live)
    ensures p < |s.game.frames| && s.game.IsLive(p) && s.game.Rows() == |s.game.frames[p]|
  {
    RowsClosedForm(s.game);
    var i :| 0 <= i < |s.game.frames| && s.game.IsLive(i) && s.game.Rows() == |s.game.frames[i]|;
    p := i;
  }

  /** This player is live and waits for nothing. */
  ghost predicate MayProceed(delays: seq<nat>, warmups: seq<nat>, events: seq<Event>, p: nat)
    requires Sized(delays, warmups)
  {
    Drops !in Project(events, p) && ResponseCount(delays, warmups, events, p) >= PacketCount(Project(events, p))
  }

  /** Deadlock freedom: while anyone is live, some live player has a response to every packet it sent. */
  lemma SomeoneMayProceed(delays: seq<nat>, warmups: seq<nat>, events: seq<Event>)
    requires Sized(delays, warmups) && LongPackets(delays, events)
    requires exists p | 0 <= p < |delays| :: Drops !in Project(events, p)
    ensures exists p: nat | p < |delays| :: MayProceed(delays, warmups, events, p)
    ensures WholePackets(delays, events) ==>
              exists p: nat | p < |delays| :: MayProceed(delays, warmups, events, p)
                && ResponseCount(delays, warmups, events, p) == PacketCount(Project(events, p))
  {
    var live :| 0 <= live < |delays| && Drops !in Project(events, live);
    EveryoneOnSchedule(delays, warmups, events, live);
    var p := SomeLiveIsSlowest(StartupRun(delays, warmups, events), live);
    EveryoneOnSchedule(delays, warmups, events, p);
    SlowestIsServed(delays, warmups, events, p);
    assert MayProceed(delays, warmups, events, p);
    if WholePackets(delays, events) {
      NeverAhead(delays, warmups, events, p);
    }
  }

  // ---- inputs for which the bounds on packet lengths matter ----

  lemma OnePlayerResponses(delay: nat, packets: seq<Event>, own: seq<PlayerEvent>)
    requires delay >= 1 && Project(packets, 0) == own && Drops !in own
    ensures ResponseCount([delay], [0], packets, 0) == |FramesOfAll(LivePackets(own), delay)| / delay
  {
    LiveIsQuiet(own, 0);
    QuietResponseCount([delay], [0], packets, 0);
    EveryoneOnSchedule([delay], [0], packets, 0);
    var g := StartupRun([delay], [0], packets).game;
    RowsClosedForm(g);
    assert g.IsLive(0);
    assert Released(LivePackets(own), 0) == LivePackets(own);
  }

  lemma {:induction false} ShortGiveNothing(xs: seq<Bytes>, delay: nat)
    requires delay >= 1 && forall i | 0 <= i < |xs| :: |xs[i]| < delay
    ensures FramesOfAll(xs, delay) == []
  {
    if xs != [] {
      ShortGiveNothing(xs[..|xs| - 1], delay);
      ShortPacketIgnored(xs[|xs| - 1], delay);
    }
  }

  ghost predicate ShortFrom(delays: seq<nat>, events: seq<Event>, p: nat)
    requires p < |delays|
  {
    forall e <- events :: e.Input? && e.player == p ==> |e.bytes| < delays[p]
  }

  lemma ShortContribution(delays: seq<nat>, warmups: seq<nat>, events: seq<Event>, p: nat)
    requires Sized(delays, warmups) && p < |delays| && ShortFrom(delays, events, p)
    ensures StartupRun(delays, warmups, events).game.frames[p] == []
  {
    EveryoneOnSchedule(delays, warmups, events, p);
    LivePacketsAreSent(events, p);
    var released := Released(LivePackets(Project(events, p)), warmups[p]);
    ReleasedAreLive(LivePackets(Project(events, p)), warmups[p]);
    forall i | 0 <= i < |released|
      ensures |released[i]| < delays[p]
    {
      assert Input(p, released[i]) in events;
    }
    ShortGiveNothing(released, delays[p]);
  }

  /**
   A live player whose packets are all shorter than its delay is never answered beyond its
   warm-up, and nobody is sent a row, whatever the others send and however long the run.
   */
  lemma ShortPacketsStall(delays: seq<nat>, warmups: seq<nat>, events: seq<Event>, p: nat)
    requires Sized(delays, warmups) && p < |delays| && Drops !in Project(events, p)
    requires ShortFrom(delays, events, p)
    ensures ResponseCount(delays, warmups, events, p) == Min(PacketCount(Project(events, p)), warmups[p])
    ensures StartupRun(delays, warmups, events).game.Rows() == 0
  {
    hide ResponseCount, StartupRun, ShortFrom;
    LiveIsQuiet(Project(events, p), warmups[p]);
    QuietResponseCount(delays, warmups, events, p);
    ShortContribution(delays, warmups, events, p);
    RowsWithinLive(delays, warmups, events, p);
    QuotientBound(StartupRun(delays, warmups, events).game.Rows(), 0, delays[p]);
  }

  /** Two packets of three bytes at delay 2 make six frames, hence three responses. */
  lemma UnevenPacketsOverrun()
    ensures var events := [Input(0, [1, 2, 3]), Input(0, [1, 2, 3])];
            ResponseCount([2], [0], events, 0) == 3 && PacketCount(Project(events, 0)) == 2
  {
    hide ResponseCount, PacketCount, Project, FramesOfAll;
    var x: Bytes := [1, 2, 3];
    ProjectTwo(Input(0, x), Input(0, x), 0);
    TwoPackets(x);
    OnePlayerResponses(2, [Input(0, x), Input(0, x)], [Sends(x), Sends(x)]);
  }

  lemma TwoPackets(x: Bytes)
    requires |x| == 3
    ensures var own := [Sends(x), Sends(x)];
            && Drops !in own && PacketCount(own) == 2
            && |FramesOfAll(LivePackets(own), 2)| == 6
  {
    hide FramesOfAll;
    assert [] + [Sends(x)] == [Sends(x)] && [Sends(x)] + [Sends(x)] == [Sends(x), Sends(x)];
    OwnSnoc([], Sends(x));
    OwnSnoc([Sends(x)], Sends(x));
    assert [] + [x] == [x] && [x] + [x] == [x, x];
    SixFrames(x);
  }

  lemma SixFrames(x: Bytes)
    requires |x| == 3
    ensures |FramesOfAll([x, x], 2)| == 6
  {
    assert [] + [x] == [x] && [x] + [x] == [x, x];
    FramesOfAllOne([], x, 2);
    FramesOfAllOne([x], x, 2);
    ThreeChunks(x);
  }

  lemma ThreeChunks(x: Bytes)
    requires |x| == 3
    ensures |FramesIn(x, 2)| == 3
  {
    assert x[1..][1..] == x[2..] && |x[2..]| == 1;
    assert |Chunks(x[1..], 1)| == 2;
  }
}
