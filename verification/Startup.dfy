/**
 The startup layer in front of the combiner: each player's first packets are answered
 with zeros and saved, then replayed one per packet while the current packet is discarded,
 then packets pass straight through. Caches play no part here.
 */
module Startup {
  import opened Common
  import opened Lockstep
  import opened LockstepRuns

  datatype Startup = Startup(game: Game, queues: seq<seq<Bytes>>, warmupSent: seq<nat>, warmups: seq<nat>,
      frameSize: nat) {
    ghost predicate Valid() {
      game.Valid() && |queues| == |warmupSent| == |warmups| == |game.delays|
    }
  }

  /** The state after one call, and what the call emits before any encoding. */
  datatype Moved = Moved(state: Startup, raw: seq<Output>)

  function NewStartup(delays: seq<nat>, warmups: seq<nat>): Startup {
    Startup(New(delays), seq(|delays|, _ => []), seq(|delays|, _ => 0), warmups, 0)
  }

  function Release(s: Startup, p: nat, packet: Bytes): Moved
    requires s.Valid()
  {
    EventsExtend(s.game, Input(p, packet));
    var g' := AfterInput(s.game, p, packet);
    Moved(s.(game := g'), Sent(s.game, g'))
  }

  /** A warm-up answer: one zero frame per player. */
  function ZeroBlock(players: nat, frameSize: nat): (z: Bytes)
    ensures |z| == players * frameSize
    ensures forall b <- z :: b == 0
  {
    Zeros(players * frameSize)
  }

  /** A resolved packet from player p. */
  function Offer(s: Startup, p: nat, packet: Bytes): Moved
    requires s.Valid() && p < |s.queues|
  {
    var s1 := if s.frameSize == 0 && packet != [] then s.(frameSize := |packet|) else s;
    if s.warmupSent[p] < s.warmups[p] then
      Moved(s1.(queues := s.queues[p := s.queues[p] + [packet]], warmupSent := s.warmupSent[p := s.warmupSent[p] + 1]),
            [Output(p, ZeroBlock(|s.queues|, s1.frameSize))])
    else if s.queues[p] != [] then
      Release(s1.(queues := s.queues[p := s.queues[p][1..]]), p, s.queues[p][0])
    else
      Release(s1, p, packet)
  }

  /** Player p drops: what it saved is discarded. */
  function Abandon(s: Startup, p: nat): Moved
    requires s.Valid() && p < |s.queues|
  {
    EventsExtend(s.game, Drop(p));
    var g' := AfterDrop(s.game, p);
    Moved(s.(queues := s.queues[p := []], game := g'), Sent(s.game, g'))
  }

  /** Calls for a player that does not exist fail and change nothing. */
  function StartupAfter(s: Startup, e: Event): Moved
    requires s.Valid()
  {
    if e.player >= |s.queues| then Moved(s, [])
    else match e
      case Input(p, packet) => Offer(s, p, packet)
      case Drop(p) => Abandon(s, p)
  }

  lemma StepKeepsValid(s: Startup, e: Event)
    requires s.Valid()
    ensures var s' := StartupAfter(s, e).state;
            && s'.Valid() && s'.warmups == s.warmups && s'.game.delays == s.game.delays
            && Extends(s.game, s'.game)
  {
    if e.player < |s.queues| {
      if e.Drop? {
        EventsExtend(s.game, e);
      } else {
        EventsExtend(s.game, e);
        if s.queues[e.player] != [] {
          EventsExtend(s.game, Input(e.player, s.queues[e.player][0]));
        }
      }
    }
  }

  // ---- runs ----

  ghost predicate Sized(delays: seq<nat>, warmups: seq<nat>) {
    DelaysPositive(delays) && |warmups| == |delays|
  }

  ghost function StartupRun(delays: seq<nat>, warmups: seq<nat>, events: seq<Event>): (s: Startup)
    requires Sized(delays, warmups)
    ensures s.Valid() && s.warmups == warmups && s.game.delays == delays
  {
    if events == [] then NewStartup(delays, warmups)
    else
      var s := StartupRun(delays, warmups, events[..|events| - 1]);
      StepKeepsValid(s, events[|events| - 1]);
      StartupAfter(s, events[|events| - 1]).state
  }

  ghost function RawTranscript(delays: seq<nat>, warmups: seq<nat>, events: seq<Event>): seq<Output>
    requires Sized(delays, warmups)
  {
    if events == [] then []
    else
      var before := events[..|events| - 1];
      RawTranscript(delays, warmups, before)
      + StartupAfter(StartupRun(delays, warmups, before), events[|events| - 1]).raw
  }

  // ---- the schedule in closed form ----

  /** The packets a player sent before dropping. */
  ghost function LivePackets(own: seq<PlayerEvent>): seq<Bytes> {
    if own == [] then []
    else
      var before, e := own[..|own| - 1], own[|own| - 1];
      LivePackets(before) + (if e.Sends? && Drops !in before then [e.bytes] else [])
  }

  /** How many packets a player sent, dropped or not. */
  ghost function PacketCount(own: seq<PlayerEvent>): nat {
    if own == [] then 0
    else PacketCount(own[..|own| - 1]) + (if own[|own| - 1].Sends? then 1 else 0)
  }

  /**
   After packets xs with warm-up D, the combiner has seen x_0 .. x_{D-1} (as far as released), then
   x_{2D}, x_{2D+1}, ...
   */
  function Released(xs: seq<Bytes>, warmup: nat): seq<Bytes> {
    if |xs| <= warmup then []
    else if |xs| <= 2 * warmup then xs[..|xs| - warmup]
    else xs[..warmup] + xs[2 * warmup..]
  }

  /** The saved packets not released yet. */
  function Waiting(xs: seq<Bytes>, warmup: nat): seq<Bytes> {
    if |xs| <= warmup then xs
    else if |xs| <= 2 * warmup then xs[|xs| - warmup..warmup]
    else []
  }

  /** Warm-up answers and releases together account for every packet. */
  lemma ReleasedCount(xs: seq<Bytes>, warmup: nat)
    ensures |Released(xs, warmup)| + Min(|xs|, warmup) == |xs|
  {
  }

  function Min(a: nat, b: nat): nat {
    if a < b then a else b
  }

  /** The frames of a list of packets. */
  function FramesOfAll(xs: seq<Bytes>, delay: nat): seq<Bytes> {
    if xs == [] then [] else FramesOfAll(xs[..|xs| - 1], delay) + FramesIn(xs[|xs| - 1], delay)
  }

  lemma FramesOfAllOne(xs: seq<Bytes>, x: Bytes, delay: nat)
    ensures FramesOfAll(xs + [x], delay) == FramesOfAll(xs, delay) + FramesIn(x, delay)
  {
    assert (xs + [x])[..|xs + [x]| - 1] == xs;
  }

  /** During warm-up a packet is saved and nothing is released. */
  lemma ScheduleSaves(xs: seq<Bytes>, x: Bytes, warmup: nat)
    requires |xs| < warmup
    ensures Released(xs + [x], warmup) == Released(xs, warmup) == []
    ensures Waiting(xs + [x], warmup) == Waiting(xs, warmup) + [x]
  {
  }

  /** While packets are waiting, each new packet releases the oldest of them and is itself discarded. */
  lemma ScheduleReplays(xs: seq<Bytes>, x: Bytes, warmup: nat)
    requires warmup <= |xs| && Waiting(xs, warmup) != []
    ensures Released(xs + [x], warmup) == Released(xs, warmup) + [Waiting(xs, warmup)[0]]
    ensures Waiting(xs + [x], warmup) == Waiting(xs, warmup)[1..]
  {
    var i := |xs| - warmup;
    assert |xs| < 2 * warmup;
    assert Waiting(xs, warmup) == xs[i..warmup];
    assert (xs + [x])[..i + 1] == xs[..i] + [xs[i]];
    assert (xs + [x])[i + 1..warmup] == xs[i..warmup][1..];
  }

  /** Afterwards every packet is released as it comes. */
  lemma SchedulePasses(xs: seq<Bytes>, x: Bytes, warmup: nat)
    requires warmup <= |xs| && Waiting(xs, warmup) == []
    ensures Released(xs + [x], warmup) == Released(xs, warmup) + [x]
    ensures Waiting(xs + [x], warmup) == []
  {
    assert |xs| >= 2 * warmup;
    assert (xs + [x])[..warmup] == xs[..warmup];
    assert (xs + [x])[2 * warmup..] == xs[2 * warmup..] + [x];
    assert xs[..warmup] + (xs[2 * warmup..] + [x]) == xs[..warmup] + xs[2 * warmup..] + [x];
  }

  /** What the invariant says about one player, given that player's own events. */
  ghost predicate OnSchedule(s: Startup, p: nat, own: seq<PlayerEvent>)
    requires s.Valid() && p < |s.queues|
  {
    var xs := LivePackets(own);
    && s.warmupSent[p] == Min(PacketCount(own), s.warmups[p])
    && (s.game.dropped[p] <==> Drops in own)
    && (Drops !in own ==> |xs| == PacketCount(own) && s.queues[p] == Waiting(xs, s.warmups[p]))
    && s.game.frames[p] == FramesOfAll(Released(xs, s.warmups[p]), s.game.delays[p])
  }

  lemma OwnSnoc(own: seq<PlayerEvent>, e: PlayerEvent)
    ensures LivePackets(own + [e]) == LivePackets(own) + (if e.Sends? && Drops !in own then [e.bytes] else [])
    ensures PacketCount(own + [e]) == PacketCount(own) + (if e.Sends? then 1 else 0)
    ensures Drops in own + [e] <==> Drops in own || e == Drops
  {
    assert (own + [e])[..|own + [e]| - 1] == own;
  }

  lemma AfterInputFrames(g: Game, p: nat, packet: Bytes)
    requires g.Valid() && p < |g.delays|
    ensures var g' := AfterInput(g, p, packet);
            && g'.dropped == g.dropped
            && g'.frames == g.frames[p := if g.dropped[p] then g.frames[p]
                else g.frames[p] + FramesIn(packet, g.delays[p])]
  {
    assert g.frames[p := g.frames[p]] == g.frames;
    assert g.frames[p] + [] == g.frames[p];
  }

  lemma WarmupKeepsSchedule(s: Startup, p: nat, packet: Bytes, own: seq<PlayerEvent>)
    requires s.Valid() && p < |s.queues| && OnSchedule(s, p, own)
    requires s.warmupSent[p] < s.warmups[p]
    ensures Offer(s, p, packet).state.Valid()
    ensures OnSchedule(Offer(s, p, packet).state, p, own + [Sends(packet)])
  {
    var xs, s' := LivePackets(own), Offer(s, p, packet).state;
    OwnSnoc(own, Sends(packet));
    assert s'.game == s.game && s'.warmups == s.warmups;
    assert s'.queues == s.queues[p := s.queues[p] + [packet]];
    assert s'.warmupSent == s.warmupSent[p := s.warmupSent[p] + 1];
    if Drops !in own {
      ScheduleSaves(xs, packet, s.warmups[p]);
    } else {
      assert LivePackets(own + [Sends(packet)]) == xs;
    }
  }

  /** A release adds the packet's frames for a live player and nothing for a dropped one. */
  lemma ReleaseKeepsSchedule(s: Startup, p: nat, due: Bytes, packet: Bytes, own: seq<PlayerEvent>, waiting: seq<Bytes>)
    requires s.Valid() && p < |s.queues| && OnSchedule(s, p, own)
    requires s.warmupSent[p] == s.warmups[p]
    requires var xs := LivePackets(own);
             Drops !in own ==>
               && Released(xs + [packet], s.warmups[p]) == Released(xs, s.warmups[p]) + [due]
               && Waiting(xs + [packet], s.warmups[p]) == waiting
    ensures var s' := Release(s.(queues := s.queues[p := waiting]), p, due).state;
            s'.Valid() && OnSchedule(s', p, own + [Sends(packet)])
  {
    var xs := LivePackets(own);
    OwnSnoc(own, Sends(packet));
    EventsExtend(s.game, Input(p, due));
    AfterInputFrames(s.game, p, due);
    if Drops !in own {
      FramesOfAllOne(Released(xs, s.warmups[p]), due, s.game.delays[p]);
    } else {
      assert LivePackets(own + [Sends(packet)]) == xs;
    }
  }

  lemma FrameSizeOffSchedule(s: Startup, size: nat, p: nat, own: seq<PlayerEvent>)
    requires s.Valid() && p < |s.queues|
    ensures s.(frameSize := size).Valid()
    ensures OnSchedule(s, p, own) <==> OnSchedule(s.(frameSize := size), p, own)
  {
  }

  /** A player's packet keeps that player on schedule. */
  lemma OfferKeepsSchedule(s: Startup, p: nat, packet: Bytes, own: seq<PlayerEvent>)
    requires s.Valid() && p < |s.queues| && OnSchedule(s, p, own)
    ensures Offer(s, p, packet).state.Valid()
    ensures OnSchedule(Offer(s, p, packet).state, p, own + [Sends(packet)])
  {
    var xs, w := LivePackets(own), s.warmups[p];
    if s.warmupSent[p] < w {
      WarmupKeepsSchedule(s, p, packet, own);
    } else {
      var s1 := if s.frameSize == 0 && packet != [] then s.(frameSize := |packet|) else s;
      FrameSizeOffSchedule(s, s1.frameSize, p, own);
      if s.queues[p] != [] {
        if Drops !in own {
          ScheduleReplays(xs, packet, w);
        }
        ReleaseKeepsSchedule(s1, p, s.queues[p][0], packet, own, s.queues[p][1..]);
      } else {
        if Drops !in own {
          SchedulePasses(xs, packet, w);
        }
        assert s1.queues[p := []] == s1.queues;
        ReleaseKeepsSchedule(s1, p, packet, packet, own, []);
      }
    }
  }

  lemma AbandonKeepsSchedule(s: Startup, p: nat, own: seq<PlayerEvent>)
    requires s.Valid() && p < |s.queues| && OnSchedule(s, p, own)
    ensures Abandon(s, p).state.Valid()
    ensures OnSchedule(Abandon(s, p).state, p, own + [Drops])
  {
    EventsExtend(s.game, Drop(p));
    OwnSnoc(own, Drops);
    assert LivePackets(own + [Drops]) == LivePackets(own);
    var s' := Abandon(s, p).state;
    assert s'.game.frames == s.game.frames && s'.game.dropped[p];
  }

  /** Another player's event leaves p's schedule alone. */
  lemma OthersKeepSchedule(s: Startup, e: Event, p: nat, own: seq<PlayerEvent>)
    requires s.Valid() && p < |s.queues| && OnSchedule(s, p, own) && e.player != p
    ensures StartupAfter(s, e).state.Valid()
    ensures OnSchedule(StartupAfter(s, e).state, p, own)
  {
    StepKeepsValid(s, e);
    if e.Input? && e.player < |s.queues| {
      var released := if s.queues[e.player] != [] then s.queues[e.player][0] else e.bytes;
      AfterInputFrames(s.game, e.player, released);
    }
  }

  /** Over any run every player is on schedule. */
  lemma {:induction false} EveryoneOnSchedule(delays: seq<nat>, warmups: seq<nat>, events: seq<Event>, p: nat)
    requires Sized(delays, warmups) && p < |delays|
    ensures OnSchedule(StartupRun(delays, warmups, events), p, Project(events, p))
  {
    if events != [] {
      var before, e := events[..|events| - 1], events[|events| - 1];
      var s, own := StartupRun(delays, warmups, before), Project(before, p);
      EveryoneOnSchedule(delays, warmups, before, p);
      if e.player != p {
        OthersKeepSchedule(s, e, p, own);
        assert Project(events, p) == own;
      } else if e.Input? {
        OfferKeepsSchedule(s, p, e.bytes, own);
      } else {
        AbandonKeepsSchedule(s, p, own);
      }
    }
  }
}
