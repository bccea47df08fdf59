/** What the handlers read from the bytes of a message: the request that it makes of the server, if any. */
module Reading {
  import opened Common
  import opened Packets
  import opened Codec
  import opened Rooms

  const USER_QUIT: Byte := 0x01
  const USER_LOGIN: Byte := 0x03
  const CREATE_GAME: Byte := 0x0A
  const QUIT_GAME: Byte := 0x0B
  const JOIN_GAME: Byte := 0x0C
  const KICK_USER: Byte := 0x0F
  const START_GAME: Byte := 0x11
  const GAME_DATA: Byte := 0x12
  const GAME_CACHE: Byte := 0x13
  const DROP_GAME: Byte := 0x14

  const MAX_USERNAME: nat := 31

  // ---- fields ----

  /** The bytes up to the first NUL, or to the end if there is none. */
  function StringAt(buf: Bytes): (s: Bytes) {
    if buf == [] || buf[0] == 0 then [] else [buf[0]] + StringAt(buf[1..])
  }

  /** What is left after the string and its NUL. */
  function AfterString(buf: Bytes): (rest: Bytes)
    ensures |rest| <= |buf|
  {
    if buf == [] then [] else if buf[0] == 0 then buf[1..] else AfterString(buf[1..])
  }

  predicate NoNul(s: Bytes) {
    forall i | 0 <= i < |s| :: s[i] != 0
  }

  /** A terminated string is read back whatever follows, and an unterminated one takes the whole buffer. */
  lemma {:induction false} StringRoundTrip(s: Bytes, rest: Bytes)
    requires NoNul(s)
    ensures StringAt(s + [0] + rest) == s && AfterString(s + [0] + rest) == rest
    ensures StringAt(s) == s && AfterString(s) == []
  {
    if s != [] {
      StringRoundTrip(s[1..], rest);
      assert (s + [0] + rest)[1..] == s[1..] + [0] + rest;
    }
  }

  /** Read a string off the front of a buffer. */
  method ReadStringBytes(buf: Bytes) returns (s: Bytes, rest: Bytes)
    ensures s == StringAt(buf) && rest == AfterString(buf)
  {
    s, rest := [], buf;
    while rest != []
      invariant s + StringAt(rest) == StringAt(buf)
      invariant AfterString(rest) == AfterString(buf)
      decreases |rest|
    {
      var b := rest[0];
      rest := rest[1..];
      if b == 0 {
        return;
      }
      s := s + [b];
    }
  }

  function ReadLe32(b: Bytes): nat
    requires |b| >= 4
  {
    ReadLe16(b[0], b[1]) + 0x1_0000 * ReadLe16(b[2], b[3])
  }

  // ---- game input ----

  /** An empty string, the 16-bit length and the data; anything after the data is ignored. */
  function ReadGameData(body: Bytes): Option<Message> {
    if |body| < 3 then None
    else
      var length := ReadLe16(body[1], body[2]);
      if |body| - 3 < length then None else Some(GameData(body[3..3 + length]))
  }

  /** An empty string and the position. */
  function ReadGameCache(body: Bytes): Option<Message> {
    if |body| < 2 then None else Some(GameCache(body[1]))
  }

  /** The game input in a message, if it is one. */
  function ReadInput(kind: Byte, body: Bytes): Option<Message> {
    if kind == GAME_DATA then ReadGameData(body) else if kind == GAME_CACHE then ReadGameCache(body) else None
  }

  /** How a client writes game input. */
  function WriteInput(m: Message): Payload {
    match m
    case GameData(x) => Payload(GAME_DATA, [0] + Le16(|x| % 0x1_0000) + x)
    case GameCache(pos) => Payload(GAME_CACHE, [0, pos])
  }

  /** Input is read as it was written exactly when its length fits 16 bits. */
  lemma InputRoundTrip(m: Message)
    ensures var w := WriteInput(m);
            ReadInput(w.kind, w.data) == Some(m) <==> (m.GameData? ==> |m.bytes| < 0x1_0000)
  {
    if m.GameData? {
      var body, n := WriteInput(m).data, |m.bytes| % 0x1_0000;
      Le16RoundTrip(n);
      assert body[1] == Le16(n)[0] && body[2] == Le16(n)[1];
      assert body[3..] == m.bytes && n <= |m.bytes|;
      assert body[3..3 + n] == m.bytes[..n];
      assert ReadGameData(body) == Some(GameData(m.bytes[..n]));
      assert |m.bytes| < 0x1_0000 <==> n == |m.bytes|;
      assert n == |m.bytes| ==> m.bytes[..n] == m.bytes;
    }
  }

  // ---- requests ----

  /** What a handler takes from elsewhere than the message: the age of a session, pings and the configuration. */
  datatype Circumstance = Circumstance(alive: bool, orphanFirst: bool, warmupOf: nat -> nat, disableOutputCache: bool)

  function ReadLogin(c: Circumstance, a: Address, body: Bytes): Request {
    var username, rest := StringAt(body), AfterString(AfterString(body));
    LoginRequest(a, if |username| > MAX_USERNAME then username[..MAX_USERNAME] else username,
                 if rest == [] then 0 else rest[0], c.alive, c.orphanFirst)
  }

  function ReadJoin(a: Address, body: Bytes): Option<Request> {
    var rest := AfterString(body);
    if |rest| < 11 || |AfterString(rest[4..])| < 7 then None else Some(JoinRequest(a, ReadLe32(rest)))
  }

  function ReadKick(a: Address, body: Bytes): Option<Request> {
    var rest := AfterString(body);
    if |rest| < 2 then None else Some(KickRequest(a, ReadLe16(rest[0], rest[1])))
  }

  function ReadStart(c: Circumstance, a: Address, body: Bytes): Option<Request> {
    if |AfterString(body)| < 4 then None else Some(StartRequest(a, c.warmupOf, c.disableOutputCache))
  }

  /**
   The request that a message from address a makes; other kinds and malformed messages change nothing
   modelled here.
   */
  function Read(c: Circumstance, a: Address, m: ParsedMessage): (q: Option<Request>)
    ensures q.Some? ==> q.value.addr == a
    ensures q.Some? && q.value.InputRequest? <==> ReadInput(m.kind, m.data).Some?
    ensures q.Some? && q.value.InputRequest? ==> Some(q.value.message) == ReadInput(m.kind, m.data)
  {
    if m.kind == USER_QUIT then Some(UserQuitRequest(a))
    else if m.kind == USER_LOGIN then Some(ReadLogin(c, a, m.data))
    else if m.kind == CREATE_GAME then Some(CreateRequest(a))
    else if m.kind == QUIT_GAME then Some(QuitRequest(a))
    else if m.kind == JOIN_GAME then ReadJoin(a, m.data)
    else if m.kind == KICK_USER then ReadKick(a, m.data)
    else if m.kind == START_GAME then ReadStart(c, a, m.data)
    else if m.kind == DROP_GAME then Some(DropRequest(a))
    else
      match ReadInput(m.kind, m.data)
      case None => None
      case Some(input) => Some(InputRequest(a, input))
  }

  /** The requests of one address among others. */
  function RequestsBy(a: Address, qs: seq<Request>): seq<Request> {
    if qs == [] then []
    else
      var last := qs[|qs| - 1];
      RequestsBy(a, qs[..|qs| - 1]) + (if last.addr == a then [last] else [])
  }

  /** The game input among an address's requests. */
  function InputsBy(a: Address, qs: seq<Request>): seq<Message> {
    if qs == [] then []
    else
      var last := qs[|qs| - 1];
      InputsBy(a, qs[..|qs| - 1]) + (if last.InputRequest? && last.addr == a then [last.message] else [])
  }

  /** The game input among messages. */
  function InputsIn(ms: seq<ParsedMessage>): seq<Message> {
    if ms == [] then []
    else
      var read := ReadInput(ms[|ms| - 1].kind, ms[|ms| - 1].data);
      InputsIn(ms[..|ms| - 1]) + (if read.Some? then [read.value] else [])
  }

  lemma {:induction false} InputsInAppend(x: seq<ParsedMessage>, y: seq<ParsedMessage>)
    ensures InputsIn(x + y) == InputsIn(x) + InputsIn(y)
  {
    if y == [] {
      assert x + y == x;
    } else {
      InputsInAppend(x, y[..|y| - 1]);
      assert (x + y)[..|x + y| - 1] == x + y[..|y| - 1];
    }
  }

  lemma {:induction false} InputsByAppend(a: Address, x: seq<Request>, y: seq<Request>)
    ensures InputsBy(a, x + y) == InputsBy(a, x) + InputsBy(a, y)
  {
    if y == [] {
      assert x + y == x;
    } else {
      InputsByAppend(a, x, y[..|y| - 1]);
      assert (x + y)[..|x + y| - 1] == x + y[..|y| - 1];
    }
  }
}
