/** The per-session receiver of `src/main.rs`: a 16-bit expected number and a bounded pending map. */
module Session {
  import opened Common
  import opened Packets

  const MAX_PENDING: nat := 256

  /** `delivered` stands for the calls of the message handler, in order. */
  datatype Receiver = Receiver(counter: U16, pending: map<U16, ParsedMessage>, delivered: seq<ParsedMessage>)

  /** `wrapping_sub` */
  function Distance(number: U16, expected: U16): U16 {
    (number - expected) % 0x1_0000
  }

  predicate IsFuture(number: U16, expected: U16) {
    var distance := Distance(number, expected);
    distance != 0 && distance < 0xFFFF / 2
  }

  function Deliver(r: Receiver, m: ParsedMessage): Receiver {
    r.(counter := (r.counter + 1) % 0x1_0000, delivered := r.delivered + [m])
  }

  /** Deliver pending messages as long as the expected one is there. */
  function DrainPending(r: Receiver): Receiver
    decreases |r.pending|
  {
    if r.counter in r.pending then
      var rest := r.pending - {r.counter};
      assert rest.Keys == r.pending.Keys - {r.counter};
      DrainPending(Deliver(r.(pending := rest), r.pending[r.counter]))
    else r
  }

  function Accept(r: Receiver, m: ParsedMessage): Receiver {
    if m.number == r.counter then DrainPending(Deliver(r, m))
    else if IsFuture(m.number, r.counter) && |r.pending| < MAX_PENDING then
      if m.number in r.pending then r else r.(pending := r.pending[m.number := m])
    else r
  }

  function AcceptAll(r: Receiver, ms: seq<ParsedMessage>): Receiver
    decreases |ms|
  {
    if ms == [] then r else AcceptAll(Accept(r, ms[0]), ms[1..])
  }

  /** A lone message 0 while 0 is expected starts a new sequence: everything pending is dropped. */
  function ResetOnLoneZero(r: Receiver, ms: seq<ParsedMessage>): Receiver {
    if |ms| == 1 && ms[0].number == 0 && r.counter == 0 then r.(pending := map[]) else r
  }

  /** A datagram that does not parse changes nothing. */
  function Process(r: Receiver, data: Bytes): Receiver {
    match Parse(data)
    case Err(_) => r
    case Ok(ms) => AcceptAll(ResetOnLoneZero(r, ms), ms)
  }

  class SessionState {
    var packetCounter: U16
    var pendingMessages: map<U16, ParsedMessage>
    var delivered: seq<ParsedMessage>

    ghost function State(): Receiver
      reads this
    {
      Receiver(packetCounter, pendingMessages, delivered)
    }

    constructor ()
      ensures State() == Receiver(0, map[], [])
    {
      packetCounter, pendingMessages, delivered := 0, map[], [];
    }

    method ProcessPacket(data: Bytes)
      modifies this
      ensures State() == Process(old(State()), data)
    {
      var parsed := ParsePacket(data);
      if parsed.Err? {
        return;
      }
      var messages := parsed.value;
      for i := 0 to |messages|
        invariant State() == if i == 0 then old(State()) else ResetOnLoneZero(old(State()), messages)
      {
        if messages[i].number == 0 && |messages| == 1 && packetCounter == 0 {
          packetCounter := 0;
          pendingMessages := map[];
        }
      }
      var i := 0;
      assert messages[0..] == messages;
      while i < |messages|
        invariant 0 <= i <= |messages|
        invariant AcceptAll(State(), messages[i..]) == Process(old(State()), data)
      {
        assert messages[i..][1..] == messages[i + 1..];
        AcceptMessage(messages[i]);
        i := i + 1;
      }
    }

    method AcceptMessage(message: ParsedMessage)
      modifies this
      ensures State() == Accept(old(State()), message)
    {
      if message.number == packetCounter {
        ProcessOrderedMessage(message);
        while packetCounter in pendingMessages
          invariant DrainPending(State()) == Accept(old(State()), message)
          decreases |pendingMessages|
        {
          var next := pendingMessages[packetCounter];
          ghost var keys := pendingMessages.Keys;
          pendingMessages := pendingMessages - {packetCounter};
          assert pendingMessages.Keys == keys - {packetCounter};
          ProcessOrderedMessage(next);
        }
      } else if IsFuture(message.number, packetCounter) && |pendingMessages| < MAX_PENDING {
        if message.number !in pendingMessages {
          pendingMessages := pendingMessages[message.number := message];
        }
      }
    }

    method ProcessOrderedMessage(message: ParsedMessage)
      modifies `packetCounter, `delivered
      ensures State() == Deliver(old(State()), message)
    {
      packetCounter := (packetCounter + 1) % 0x1_0000;
      delivered := delivered + [message];
    }
  }
}
