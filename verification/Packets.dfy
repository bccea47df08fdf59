/** The datagram format: `make_packet`, the redundant bundler and `parse_packet`. */
module Packets {
  import opened Common

  type U16 = n: int | 0 <= n < 0x1_0000

  datatype ParsedMessage = ParsedMessage(number: U16, length: U16, kind: Byte, data: Bytes)

  datatype ParseError =
    | EmptyPacket
    | NoMessages
    | IncompleteHeader(index: nat)
    | InvalidLength(index: nat)
    | IncompleteData

  /** `u16::to_le_bytes` */
  function Le16(n: U16): (b: Bytes)
    ensures |b| == 2
  {
    [n % 256, n / 256]
  }

  /** `get_u16_le` */
  function ReadLe16(lo: Byte, hi: Byte): U16 {
    lo + 256 * hi
  }

  lemma Le16RoundTrip(n: U16)
    ensures ReadLe16(Le16(n)[0], Le16(n)[1]) == n
  {
  }

  lemma ReadLe16RoundTrip(lo: Byte, hi: Byte)
    ensures Le16(ReadLe16(lo, hi)) == [lo, hi]
  {
  }

  /** `data.len() as u16 + 1`: the cast truncates, and the addition wraps. */
  function LengthField(dataLength: nat): U16 {
    (dataLength % 0x1_0000 + 1) % 0x1_0000
  }

  lemma LengthFieldExact(n: nat)
    ensures LengthField(n) == n + 1 <==> n < 0xFFFF
    ensures LengthField(n) >= 1 ==> LengthField(n) - 1 <= n
  {
  }

  function MakePacket(kind: Byte, number: U16, data: Bytes): Bytes {
    Le16(number) + Le16(LengthField(|data|)) + [kind] + data
  }

  // ---- parsing ----

  /** `count` messages read off the front of `buf`; `index` is the number of the first. */
  function ParseMessages(index: nat, count: nat, buf: Bytes): Result<seq<ParsedMessage>, ParseError>
    decreases count
  {
    if count == 0 then Ok([])
    else if |buf| < 5 then Err(IncompleteHeader(index))
    else
      var length := ReadLe16(buf[2], buf[3]);
      if length < 1 then Err(InvalidLength(index))
      else if |buf| - 5 < length - 1 then Err(IncompleteData)
      else
        var first := ParsedMessage(ReadLe16(buf[0], buf[1]), length, buf[4], buf[5..4 + length]);
        match ParseMessages(index + 1, count - 1, buf[4 + length..])
        case Err(e) => Err(e)
        case Ok(rest) => Ok([first] + rest)
  }

  function Parse(data: Bytes): Result<seq<ParsedMessage>, ParseError> {
    if data == [] then Err(EmptyPacket)
    else if data[0] == 0 then Err(NoMessages)
    else ParseMessages(0, data[0], data[1..])
  }

  method ParsePacket(data: Bytes) returns (r: Result<seq<ParsedMessage>, ParseError>)
    ensures r == Parse(data)
  {
    hide ReadLe16;
    var buf := data;
    if buf == [] {
      return Err(EmptyPacket);
    }
    var numMessages := buf[0];
    buf := buf[1..];
    if numMessages == 0 {
      return Err(NoMessages);
    }
    var messages := [];
    PrependNone(ParseMessages(0, numMessages, buf));
    for i := 0 to numMessages
      invariant Parse(data) == Prepend(messages, ParseMessages(i, numMessages - i, buf))
    {
      if |buf| < 5 {
        return Err(IncompleteHeader(i));
      }
      var number, length, kind := ReadLe16(buf[0], buf[1]), ReadLe16(buf[2], buf[3]), buf[4];
      ghost var whole := buf;
      buf := buf[5..];
      if length < 1 {
        return Err(InvalidLength(i));
      }
      if |buf| < length - 1 {
        return Err(IncompleteData);
      }
      var messageData := buf[..length - 1];
      buf := buf[length - 1..];
      assert messageData == whole[5..4 + length] && buf == whole[4 + length..];
      var message := ParsedMessage(number, length, kind, messageData);
      PrependOne(messages, message, ParseMessages(i + 1, numMessages - i - 1, buf));
      messages := messages + [message];
    }
    r := Ok(messages);
    assert messages + [] == messages;
  }

  ghost function Prepend(ms: seq<ParsedMessage>, r: Result<seq<ParsedMessage>, ParseError>)
    : Result<seq<ParsedMessage>, ParseError>
  {
    match r
    case Err(e) => Err(e)
    case Ok(rest) => Ok(ms + rest)
  }

  lemma PrependNone(r: Result<seq<ParsedMessage>, ParseError>)
    ensures Prepend([], r) == r
  {
    if r.Ok? {
      assert [] + r.value == r.value;
    }
  }

  lemma PrependOne(ms: seq<ParsedMessage>, m: ParsedMessage, r: Result<seq<ParsedMessage>, ParseError>)
    ensures Prepend(ms + [m], r) == Prepend(ms, Prepend([m], r))
  {
    if r.Ok? {
      assert ms + [m] + r.value == ms + ([m] + r.value);
    }
  }

  // ---- print, then parse ----

  /** A message as its sender knows it. */
  datatype Payload = Payload(kind: Byte, data: Bytes)

  /** Messages as the wire carries them. */
  function Serialise(ms: seq<ParsedMessage>): Bytes {
    if ms == [] then [] else MakePacket(ms[0].kind, ms[0].number, ms[0].data) + Serialise(ms[1..])
  }

  /** The length field is the one `make_packet` writes, and the receiver can read it back. */
  predicate Printable(m: ParsedMessage) {
    |m.data| < 0xFFFF && m.length == |m.data| + 1
  }

  /** One turn of the parser on a buffer whose fields are those of m. */
  lemma ParseStep(index: nat, count: nat, buf: Bytes, m: ParsedMessage, rest: Bytes)
    requires count >= 1 && |buf| >= 5 && 1 <= m.length <= |buf| - 4
    requires ReadLe16(buf[0], buf[1]) == m.number && ReadLe16(buf[2], buf[3]) == m.length && buf[4] == m.kind
    requires buf[5..4 + m.length] == m.data && buf[4 + m.length..] == rest
    ensures ParseMessages(index, count, buf) == Prepend([m], ParseMessages(index + 1, count - 1, rest))
  {
    hide ReadLe16;
  }

  lemma ParseOnePacket(index: nat, count: nat, m: ParsedMessage, rest: Bytes)
    requires Printable(m) && count >= 1
    ensures ParseMessages(index, count, MakePacket(m.kind, m.number, m.data) + rest)
         == Prepend([m], ParseMessages(index + 1, count - 1, rest))
  {
    hide ReadLe16, ParseMessages, Prepend;
    var packet := MakePacket(m.kind, m.number, m.data);
    var buf := packet + rest;
    Le16RoundTrip(m.number);
    Le16RoundTrip(m.length);
    assert |packet| == 5 + |m.data| == 4 + m.length;
    assert buf[0] == Le16(m.number)[0] && buf[1] == Le16(m.number)[1];
    assert buf[2] == Le16(m.length)[0] && buf[3] == Le16(m.length)[1] && buf[4] == m.kind;
    assert buf[5..4 + m.length] == m.data;
    assert buf[4 + m.length..] == rest;
    ParseStep(index, count, buf, m, rest);
  }

  lemma {:induction false} ParseSerialised(index: nat, ms: seq<ParsedMessage>, trailing: Bytes)
    requires forall m <- ms :: Printable(m)
    ensures ParseMessages(index, |ms|, Serialise(ms) + trailing) == Ok(ms)
    decreases |ms|
  {
    if ms != [] {
      var first, rest := ms[0], ms[1..];
      assert forall m <- rest :: m in ms;
      ParseSerialised(index + 1, rest, trailing);
      Associative(MakePacket(first.kind, first.number, first.data), Serialise(rest), trailing);
      ParseOnePacket(index, |ms|, first, Serialise(rest) + trailing);
      assert [first] + rest == ms;
    }
  }

  lemma ParseBody(count: Byte, body: Bytes)
    requires count >= 1
    ensures Parse([count] + body) == ParseMessages(0, count, body)
  {
    assert ([count] + body)[1..] == body;
  }

  /** Printing any 1 to 255 messages and parsing the datagram gives them back. */
  lemma ParseUndoesPrint(ms: seq<ParsedMessage>, trailing: Bytes)
    requires 1 <= |ms| <= 255 && forall m <- ms :: Printable(m)
    ensures Parse([|ms|] + Serialise(ms) + trailing) == Ok(ms)
  {
    var count: Byte := |ms|;
    ParseSerialised(0, ms, trailing);
    ParseBody(count, Serialise(ms) + trailing);
    Associative([count], Serialise(ms), trailing);
  }

  /** For one message the round trip works exactly when its data is shorter than 65535 bytes. */
  lemma OneMessageRoundTripsExactly(kind: Byte, number: U16, data: Bytes)
    ensures Parse([1] + MakePacket(kind, number, data)) == Ok([ParsedMessage(number, LengthField(|data|), kind, data)])
            <==> |data| < 0xFFFF
  {
    LengthFieldExact(|data|);
    var m, packet := ParsedMessage(number, LengthField(|data|), kind, data), MakePacket(kind, number, data);
    var datagram := [1] + packet;
    assert datagram[1..] == packet;
    if |data| < 0xFFFF {
      assert Serialise([m]) == packet by {
        SerialiseFew([m]);
      }
      assert datagram == [1] + Serialise([m]) + [];
      ParseUndoesPrint([m], []);
    } else if Parse(datagram) == Ok([m]) {
      ParsedIsPrintable(0, 1, packet, 0);
    }
  }

  // ---- parse, then print ----

  lemma ParsedFirst(buf: Bytes, length: U16)
    requires |buf| >= 5 && length == ReadLe16(buf[2], buf[3]) && length >= 1 && |buf| - 5 >= length - 1
    ensures var m := ParsedMessage(ReadLe16(buf[0], buf[1]), length, buf[4], buf[5..4 + length]);
            MakePacket(m.kind, m.number, m.data) == buf[..4 + length] && Printable(m)
  {
    hide LengthField, ReadLe16;
    ReadLe16RoundTrip(buf[0], buf[1]);
    ReadLe16RoundTrip(buf[2], buf[3]);
    LengthFieldExact(|buf[5..4 + length]|);
    assert buf[..4 + length] == [buf[0], buf[1]] + [buf[2], buf[3]] + [buf[4]] + buf[5..4 + length];
  }

  lemma {:induction false} SerialiseParsed(index: nat, count: nat, buf: Bytes)
    requires ParseMessages(index, count, buf).Ok?
    ensures var ms := ParseMessages(index, count, buf).value;
            && |ms| == count
            && (forall i | 0 <= i < count :: Printable(ms[i]))
            && Serialise(ms) <= buf
    decreases count
  {
    hide LengthField, ReadLe16, MakePacket, Printable;
    if count > 0 {
      var length := ReadLe16(buf[2], buf[3]);
      var tail := buf[4 + length..];
      SerialiseParsed(index + 1, count - 1, tail);
      ParsedFirst(buf, length);
      var ms := ParseMessages(index, count, buf).value;
      assert ms[1..] == ParseMessages(index + 1, count - 1, tail).value;
      assert buf == buf[..4 + length] + tail;
    }
  }

  lemma ParsedIsPrintable(index: nat, count: nat, buf: Bytes, i: nat)
    requires ParseMessages(index, count, buf).Ok? && i < count
    ensures |ParseMessages(index, count, buf).value| == count
    ensures Printable(ParseMessages(index, count, buf).value[i])
  {
    SerialiseParsed(index, count, buf);
  }

  /** Whatever parses, parses to as many messages as announced, and prints back to what followed the count byte. */
  lemma PrintUndoesParse(data: Bytes)
    requires Parse(data).Ok?
    ensures data != [] && |Parse(data).value| == data[0]
    ensures Serialise(Parse(data).value) <= data[1..]
  {
    SerialiseParsed(0, data[0], data[1..]);
  }

  // ---- the bundler ----

  const MAX_RECENT_PACKETS: nat := 3

  /** Message i of a sender's history on the wire. */
  function PacketOf(history: seq<Payload>, i: nat): Bytes
    requires i < |history|
  {
    MakePacket(history[i].kind, i % 0x1_0000, history[i].data)
  }

  /** The packets of messages lo .. hi, oldest first. */
  function PacketsOf(history: seq<Payload>, lo: nat, hi: nat): (ps: seq<Bytes>)
    requires lo <= hi <= |history|
    ensures |ps| == hi - lo
  {
    seq(hi - lo, i requires 0 <= i < hi - lo => PacketOf(history, lo + i))
  }

  /** The oldest message still bundled after n sends. */
  function Oldest(n: nat): (lo: nat)
    ensures lo <= n
  {
    if n <= MAX_RECENT_PACKETS then 0 else n - MAX_RECENT_PACKETS
  }

  /** Packets laid end to end, newest first. */
  function NewestFirst(packets: seq<Bytes>): Bytes {
    if packets == [] then [] else packets[|packets| - 1] + NewestFirst(packets[..|packets| - 1])
  }

  /** The datagram that carries message k: a count, then messages k, k-1, k-2 as far as they exist. */
  function Bundle(history: seq<Payload>, k: nat): Bytes
    requires k < |history|
  {
    [(k + 1 - Oldest(k + 1)) as Byte] + NewestFirst(PacketsOf(history, Oldest(k + 1), k + 1))
  }

  class UDPPacketGenerator {
    var recentPackets: seq<Bytes>
    var sendCount: U16
    var lastSent: Option<Bytes>

    ghost var history: seq<Payload>

    ghost predicate Valid()
      reads this
    {
      && recentPackets == PacketsOf(history, Oldest(|history|), |history|)
      && sendCount == |history| % 0x1_0000
      && lastSent == if history == [] then None else Some(Bundle(history, |history| - 1))
    }

    constructor ()
      ensures Valid() && history == []
    {
      recentPackets, sendCount, lastSent := [], 0, None;
      history := [];
    }

    method MakeSendPacket(kind: Byte, data: Bytes) returns (result: Bytes)
      requires Valid()
      modifies this
      ensures Valid()
      ensures history == old(history) + [Payload(kind, data)]
      ensures result == Bundle(history, |old(history)|)
      ensures lastSent == Some(result)
    {
      hide NewestFirst, MakePacket;
      var newPacket := MakePacket(kind, sendCount, data);
      ghost var n := |history|;
      history := history + [Payload(kind, data)];
      Remember(newPacket);
      PacketsShift(old(history), Payload(kind, data));
      var packetCount := if MAX_RECENT_PACKETS < |recentPackets| then MAX_RECENT_PACKETS else |recentPackets|;
      var body := ConcatenateNewestFirst();
      result := [packetCount] + body;
      NextNumber(n);
      sendCount := (sendCount + 1) % 0x1_0000;
      lastSent := Some(result);
    }

    /** Keep only the last N packets. */
    method Remember(packet: Bytes)
      modifies `recentPackets
      ensures recentPackets ==
              (if |old(recentPackets)| >= MAX_RECENT_PACKETS then old(recentPackets)[1..]
                  else old(recentPackets)) + [packet]
    {
      if |recentPackets| >= MAX_RECENT_PACKETS {
        recentPackets := recentPackets[1..];
      }
      recentPackets := recentPackets + [packet];
    }

    /** The loop over `recent_packets.iter().rev()`. */
    method ConcatenateNewestFirst() returns (body: Bytes)
      ensures body == NewestFirst(recentPackets)
    {
      body := [];
      var i := |recentPackets|;
      assert recentPackets[..i] == recentPackets;
      while i > 0
        invariant 0 <= i <= |recentPackets|
        invariant body + NewestFirst(recentPackets[..i]) == NewestFirst(recentPackets)
      {
        i := i - 1;
        assert recentPackets[..i + 1][..i] == recentPackets[..i];
        Associative(body, recentPackets[i], NewestFirst(recentPackets[..i]));
        body := body + recentPackets[i];
      }
      assert body + [] == body;
    }

    method LastSent() returns (last: Option<Bytes>)
      requires Valid()
      ensures last == if history == [] then None else Some(Bundle(history, |history| - 1))
    {
      last := lastSent;
    }
  }

  lemma NextNumber(n: nat)
    ensures (n % 0x1_0000 + 1) % 0x1_0000 == (n + 1) % 0x1_0000
  {
  }

  /** Sending one more message keeps the last three. */
  lemma PacketsShift(history: seq<Payload>, next: Payload)
    ensures var n := |history|;
            var kept := PacketsOf(history, Oldest(n), n);
            PacketsOf(history + [next], Oldest(n + 1), n + 1)
            == (if |kept| >= MAX_RECENT_PACKETS then kept[1..]
                else kept) + [MakePacket(next.kind, n % 0x1_0000, next.data)]
  {
    var n := |history|;
    var history' := history + [next];
    assert PacketOf(history', n) == MakePacket(next.kind, n % 0x1_0000, next.data);
    forall i: nat | i < n
      ensures PacketOf(history', i) == PacketOf(history, i)
    {
      assert history'[i] == history[i];
    }
  }

  // ---- bundles parse ----

  /** Message i of the history as a receiver sees it. */
  function WireMessage(history: seq<Payload>, i: nat): ParsedMessage
    requires i < |history|
  {
    ParsedMessage(i % 0x1_0000, LengthField(|history[i].data|), history[i].kind, history[i].data)
  }

  /** Messages k, k-1, k-2 as far as they exist. */
  function BundleMessages(history: seq<Payload>, k: nat): seq<ParsedMessage>
    requires k < |history|
  {
    [WireMessage(history, k)]
    + (if k >= 1 then [WireMessage(history, k - 1)] else [])
    + (if k >= 2 then [WireMessage(history, k - 2)] else [])
  }

  ghost predicate AllPrintable(history: seq<Payload>) {
    forall i | 0 <= i < |history| :: |history[i].data| < 0xFFFF
  }

  lemma NewestFirstFew(ps: seq<Bytes>)
    requires 1 <= |ps| <= 3
    ensures NewestFirst(ps) ==
            if |ps| == 1 then ps[0] else if |ps| == 2 then ps[1] + ps[0] else ps[2] + ps[1] + ps[0]
  {
    var rest := ps[..|ps| - 1];
    if |ps| == 1 {
      assert ps[0] + [] == ps[0];
    } else {
      NewestFirstFew(rest);
      if |ps| == 3 {
        Associative(ps[2], ps[1], ps[0]);
      }
    }
  }

  lemma SerialiseFew(ms: seq<ParsedMessage>)
    requires 1 <= |ms| <= 3
    ensures var p := (i: int) requires 0 <= i < |ms| => MakePacket(ms[i].kind, ms[i].number, ms[i].data);
            Serialise(ms) == if |ms| == 1 then p(0) else if |ms| == 2 then p(0) + p(1) else p(0) + p(1) + p(2)
  {
    var first, rest := MakePacket(ms[0].kind, ms[0].number, ms[0].data), ms[1..];
    if |ms| == 1 {
      assert first + [] == first;
    } else {
      SerialiseFew(rest);
      if |ms| == 3 {
        var p1, p2 := MakePacket(ms[1].kind, ms[1].number, ms[1].data),
            MakePacket(ms[2].kind, ms[2].number, ms[2].data);
        Associative(first, p1, p2);
      }
    }
  }

  lemma BundleIsSerialised(history: seq<Payload>, k: nat)
    requires k < |history|
    ensures Bundle(history, k) == [|BundleMessages(history, k)| as Byte] + Serialise(BundleMessages(history, k))
  {
    hide MakePacket, NewestFirst, Serialise;
    SerialiseFew(BundleMessages(history, k));
    var packets := PacketsOf(history, Oldest(k + 1), k + 1);
    NewestFirstFew(packets);
    if k == 0 {
      assert packets[0] == PacketOf(history, 0);
    } else if k == 1 {
      assert packets[0] == PacketOf(history, 0) && packets[1] == PacketOf(history, 1);
    } else {
      assert packets[0] == PacketOf(history, k - 2) && packets[1] == PacketOf(history, k - 1)
             && packets[2] == PacketOf(history, k);
    }
  }

  /** A bundle parses to the last three messages, newest first, numbers, kinds and data intact. */
  lemma BundleParses(history: seq<Payload>, k: nat)
    requires k < |history| && AllPrintable(history)
    ensures Parse(Bundle(history, k)) == Ok(BundleMessages(history, k))
  {
    var ms := BundleMessages(history, k);
    BundleIsSerialised(history, k);
    forall m <- ms
      ensures Printable(m)
    {
      LengthFieldExact(|m.data|);
    }
    assert Bundle(history, k) == [|ms| as Byte] + Serialise(ms) + [];
    ParseUndoesPrint(ms, []);
  }

  // ---- the bytes ----

  /** Message i as bytes: its number, one more than its length, its kind and its data, low bytes first. */
  function Layout(kind: Byte, i: nat, data: Bytes): Bytes {
    [i % 256, i / 256 % 256, (|data| + 1) % 256, (|data| + 1) / 256 % 256, kind] + data
  }

  lemma LayoutOfPacket(kind: Byte, i: nat, data: Bytes)
    ensures MakePacket(kind, i % 0x1_0000, data) == Layout(kind, i, data)
  {
    LowBytes(i);
    LowBytes(|data| + 1);
    LengthWraps(|data|);
  }

  lemma LowBytes(n: nat)
    ensures Le16(n % 0x1_0000) == [n % 256, n / 256 % 256]
  {
    var q := n / 0x1_0000;
    assert n % 0x1_0000 == n - 0x1_0000 * q;
    assert n / 256 == n % 0x1_0000 / 256 + 256 * q;
  }

  lemma LengthWraps(n: nat)
    ensures LengthField(n) == (n + 1) % 0x1_0000
  {
  }

  /** The datagram of message k, byte by byte: how many messages, then the newest first. */
  lemma BundleLayout(history: seq<Payload>, k: nat)
    requires k < |history|
    ensures var p := (i: nat) requires i < |history| => Layout(history[i].kind, i, history[i].data);
            Bundle(history, k)
            == if k == 0 then [1] + p(0) else if k == 1 then [2] + p(1) + p(0) else [3] + p(k) + p(k - 1) + p(k - 2)
  {
    hide MakePacket, Layout, NewestFirst;
    forall i: nat | i < |history|
      ensures PacketOf(history, i) == Layout(history[i].kind, i, history[i].data)
    {
      LayoutOfPacket(history[i].kind, i, history[i].data);
    }
    var packets := PacketsOf(history, Oldest(k + 1), k + 1);
    NewestFirstFew(packets);
    if k >= 2 {
      assert packets[0] == PacketOf(history, k - 2) && packets[1] == PacketOf(history, k - 1)
             && packets[2] == PacketOf(history, k);
      Associative([3 as Byte], packets[2] + packets[1], packets[0]);
      Associative([3 as Byte], packets[2], packets[1]);
    } else if k == 1 {
      assert packets[0] == PacketOf(history, 0) && packets[1] == PacketOf(history, 1);
      Associative([2 as Byte], packets[1], packets[0]);
    }
  }

  // ---- errors ----

  /** What is wrong with the message that starts here, if anything is. */
  function Fault(index: nat, rest: Bytes): Option<ParseError> {
    if |rest| < 5 then Some(IncompleteHeader(index))
    else
      var length := rest[2] as nat + 256 * (rest[3] as nat);
      if length == 0 then Some(InvalidLength(index))
      else if |rest| < 4 + length then Some(IncompleteData)
      else None
  }

  lemma FaultStops(index: nat, count: nat, rest: Bytes)
    requires count >= 1 && Fault(index, rest).Some?
    ensures ParseMessages(index, count, rest) == Err(Fault(index, rest).value)
  {
  }

  /** Parsing fails with what is wrong with the first bad message, whatever good messages come before it. */
  lemma {:induction false} FirstFault(index: nat, count: nat, ms: seq<ParsedMessage>, rest: Bytes)
    requires forall i | 0 <= i < |ms| :: Printable(ms[i])
    requires |ms| < count && Fault(index + |ms|, rest).Some?
    ensures ParseMessages(index, count, Serialise(ms) + rest) == Err(Fault(index + |ms|, rest).value)
    decreases |ms|
  {
    hide ParseMessages, Fault, MakePacket;
    if ms == [] {
      assert Serialise(ms) + rest == rest;
      FaultStops(index, count, rest);
    } else {
      var first := MakePacket(ms[0].kind, ms[0].number, ms[0].data);
      FirstFault(index + 1, count - 1, ms[1..], rest);
      Associative(first, Serialise(ms[1..]), rest);
      ParseOnePacket(index, count, ms[0], Serialise(ms[1..]) + rest);
    }
  }

  /** A datagram with no bytes, or that says it has no messages, is an error of its own. */
  lemma NothingToParse(data: Bytes)
    ensures data == [] ==> Parse(data) == Err(EmptyPacket)
    ensures data != [] && data[0] == 0 ==> Parse(data) == Err(NoMessages)
    ensures Parse(data).Ok? ==> data != [] && |Parse(data).value| == data[0] >= 1
  {
    if Parse(data).Ok? {
      SerialiseParsed(0, data[0], data[1..]);
    }
  }
}
