/** Every request as a client writes it, byte by byte, and that the server reads exactly what was written. */
module RequestFormats {
  import opened Common
  import opened Packets
  import opened Codec
  import opened Rooms
  import opened Reading

  /** A 16-bit number, low byte first. */
  function Two(n: nat): (b: Bytes)
    requires n < 0x1_0000
    ensures |b| == 2
  {
    [n % 256, n / 256]
  }

  /** A 32-bit number, low byte first. */
  function Four(n: nat): (b: Bytes)
    requires n < 0x1_0000_0000
    ensures |b| == 4
  {
    [n % 256, n / 256 % 256, n / 65536 % 256, n / 16777216]
  }

  /**
   What a client means to say. The emulator's name, the name and emulator of a new game, and parting
   words are carried too, although the server's rooms do not depend on them.
   */
  datatype Wish =
    | ToLogIn(username: Bytes, emulator: Bytes, connType: Byte)
    | ToCreate(game: Bytes)
    | ToJoin(gameId: nat, connType: Byte)
    | ToQuit
    | ToDrop
    | ToStart
    | ToKick(userId: nat)
    | ToLeave(words: Bytes)
    | ToPlay(input: Message)

  /** The protocol's kinds and layouts; names end in NUL, numbers are little-endian. */
  function Write(w: Wish): Payload
    requires w.ToJoin? ==> w.gameId < 0x1_0000_0000
    requires w.ToKick? ==> w.userId < 0x1_0000
    requires w.ToPlay? && w.input.GameData? ==> |w.input.bytes| < 0x1_0000
  {
    match w
    case ToLeave(words) => Payload(0x01, [0, 0xFF, 0xFF] + words + [0])
    case ToLogIn(username, emulator, connType) => Payload(0x03, username + [0] + (emulator + [0] + [connType]))
    case ToCreate(game) => Payload(0x0A, [0] + game + [0, 0, 0xFF, 0xFF, 0xFF, 0xFF])
    case ToQuit => Payload(0x0B, [0, 0xFF, 0xFF])
    case ToJoin(gameId, connType) => Payload(0x0C, [0] + Four(gameId) + [0, 0, 0, 0, 0, 0xFF, 0xFF, connType])
    case ToKick(userId) => Payload(0x0F, [0] + Two(userId))
    case ToStart => Payload(0x11, [0, 0xFF, 0xFF, 0xFF, 0xFF])
    case ToPlay(GameData(bytes)) => Payload(0x12, [0] + Two(|bytes|) + bytes)
    case ToPlay(GameCache(position)) => Payload(0x13, [0, position])
    case ToDrop => Payload(0x14, [0, 0])
  }

  /** What can be written: numbers that fit, and names without NUL. */
  predicate Writable(w: Wish) {
    match w
    case ToLogIn(username, emulator, _) => NoNul(username) && NoNul(emulator)
    case ToJoin(gameId, _) => gameId < 0x1_0000_0000
    case ToKick(userId) => userId < 0x1_0000
    case ToPlay(GameData(bytes)) => |bytes| < 0x1_0000
    case _ => true
  }

  /** The request that is meant; a name is cut to 31 bytes. */
  function RequestOf(c: Circumstance, a: Address, w: Wish): Request
    requires Writable(w)
  {
    match w
    case ToLogIn(username, _, connType) =>
      LoginRequest(a, if |username| <= 31 then username else username[..31], connType, c.alive, c.orphanFirst)
    case ToCreate(_) => CreateRequest(a)
    case ToJoin(gameId, _) => JoinRequest(a, gameId)
    case ToQuit => QuitRequest(a)
    case ToDrop => DropRequest(a)
    case ToStart => StartRequest(a, c.warmupOf, c.disableOutputCache)
    case ToKick(userId) => KickRequest(a, userId)
    case ToLeave(_) => UserQuitRequest(a)
    case ToPlay(input) => InputRequest(a, input)
  }

  // ---- round trips ----

  lemma TwoRoundTrip(n: nat)
    requires n < 0x1_0000
    ensures ReadLe16(Two(n)[0], Two(n)[1]) == n
  {
  }

  lemma FourRoundTrip(n: nat)
    requires n < 0x1_0000_0000
    ensures ReadLe32(Four(n)) == n
  {
    var q := n / 65536;
    assert n / 256 % 256 == n % 65536 / 256;
    assert n / 65536 % 256 == q % 256 && n / 16777216 == q / 256;
  }

  lemma AfterNul(s: Bytes)
    ensures AfterString([0] + s) == s
  {
  }

  lemma LoginIsRead(c: Circumstance, a: Address, w: Wish, rest: Bytes)
    requires w.ToLogIn? && Writable(w)
    ensures ReadLogin(c, a, Write(w).data + rest) == RequestOf(c, a, w)
  {
    var tail := w.emulator + [0] + ([w.connType] + rest);
    assert Write(w).data + rest == w.username + [0] + tail;
    StringRoundTrip(w.username, tail);
    StringRoundTrip(w.emulator, [w.connType] + rest);
  }

  lemma JoinIsRead(a: Address, w: Wish, rest: Bytes)
    requires w.ToJoin? && Writable(w)
    ensures ReadJoin(a, Write(w).data + rest) == Some(JoinRequest(a, w.gameId))
  {
    hide Four;
    var end := [0, 0, 0, 0, 0xFF, 0xFF, w.connType] + rest;
    var tail := Four(w.gameId) + ([0] + end);
    assert Write(w).data + rest == [0] + tail;
    AfterNul(tail);
    assert tail[4..] == [0] + end;
    AfterNul(end);
    assert tail[..4] == Four(w.gameId);
    FourRoundTrip(w.gameId);
  }

  lemma KickIsRead(a: Address, w: Wish, rest: Bytes)
    requires w.ToKick? && Writable(w)
    ensures ReadKick(a, Write(w).data + rest) == Some(KickRequest(a, w.userId))
  {
    var tail := Two(w.userId) + rest;
    assert Write(w).data + rest == [0] + tail;
    AfterNul(tail);
    TwoRoundTrip(w.userId);
  }

  lemma StartIsRead(c: Circumstance, a: Address, rest: Bytes)
    ensures ReadStart(c, a, Write(ToStart).data + rest) == Some(StartRequest(a, c.warmupOf, c.disableOutputCache))
  {
    var tail := [0xFF, 0xFF, 0xFF, 0xFF] + rest;
    assert Write(ToStart).data + rest == [0] + tail;
    AfterNul(tail);
  }

  lemma PlayIsRead(w: Wish, rest: Bytes)
    requires w.ToPlay? && Writable(w)
    ensures ReadInput(Write(w).kind, Write(w).data + rest) == Some(w.input)
  {
    if w.input.GameData? {
      var x := w.input.bytes;
      var body := Write(w).data + rest;
      TwoRoundTrip(|x|);
      assert body[1] == Two(|x|)[0] && body[2] == Two(|x|)[1] && body[3..3 + |x|] == x;
    }
  }

  /** The server reads exactly what a client writes, whatever follows it in the message. */
  lemma RequestRoundTrip(c: Circumstance, a: Address, w: Wish, rest: Bytes, m: ParsedMessage)
    requires Writable(w) && m.kind == Write(w).kind && m.data == Write(w).data + rest
    ensures Read(c, a, m) == Some(RequestOf(c, a, w))
  {
    hide ReadLogin, ReadJoin, ReadKick, ReadStart, ReadInput;
    match w
    case ToLogIn(_, _, _) => LoginIsRead(c, a, w, rest);
    case ToJoin(_, _) => JoinIsRead(a, w, rest);
    case ToKick(_) => KickIsRead(a, w, rest);
    case ToStart => StartIsRead(c, a, rest);
    case ToPlay(_) => PlayIsRead(w, rest);
    case _ =>
  }

  /** A login that ends before its connection type is read as type 0. */
  lemma LoginWithoutConnType(c: Circumstance, a: Address, username: Bytes, emulator: Bytes, m: ParsedMessage)
    requires NoNul(username) && NoNul(emulator) && |username| <= 31
    requires m.kind == 0x03
    requires m.data == username || m.data == username + [0] + emulator || m.data == username + [0] + (emulator + [0])
    ensures Read(c, a, m) == Some(LoginRequest(a, username, 0, c.alive, c.orphanFirst))
  {
    StringRoundTrip(username, emulator);
    StringRoundTrip(username, emulator + [0]);
    StringRoundTrip(emulator, []);
    assert emulator + [0] + [] == emulator + [0];
  }

  /** A message of any other kind makes no request. */
  lemma OtherKinds(c: Circumstance, a: Address, m: ParsedMessage)
    ensures m.kind !in {0x01, 0x03, 0x0A, 0x0B, 0x0C, 0x0F, 0x11, 0x12, 0x13, 0x14} ==> Read(c, a, m).None?
  {
  }

  // ---- what is cut short ----

  lemma {:induction false} StringsEnd(s: Bytes, t: Bytes)
    requires s <= t
    ensures |AfterString(s)| <= |AfterString(t)|
    ensures |AfterString(s)| > 0 ==> AfterString(s) <= AfterString(t)
    ensures |AfterString(s)| > 0 ==> |AfterString(t)| - |AfterString(s)| == |t| - |s|
    decreases |s|
  {
    if s != [] {
      assert t[0] == s[0];
      if s[0] != 0 {
        StringsEnd(s[1..], t[1..]);
      }
    }
  }

  /** A request to join, kick, start or play that is cut short is ignored. */
  lemma CutShortIsIgnored(c: Circumstance, a: Address, w: Wish, m: ParsedMessage)
    requires Writable(w) && (w.ToJoin? || w.ToKick? || w.ToStart? || w.ToPlay?)
    requires m.kind == Write(w).kind && m.data <= Write(w).data && m.data != Write(w).data
    ensures Read(c, a, m).None?
  {
    hide Four;
    var data := Write(w).data;
    StringsEnd(m.data, data);
    match w
    case ToJoin(_, _) => JoinCutShort(a, w, m.data);
    case ToKick(_) => AfterNul(Two(w.userId));
    case ToStart =>
      assert data == [0] + [0xFF, 0xFF, 0xFF, 0xFF];
      AfterNul([0xFF, 0xFF, 0xFF, 0xFF]);
    case ToPlay(GameData(x)) =>
      TwoRoundTrip(|x|);
      assert |m.data| >= 3 ==> m.data[1] == data[1] == Two(|x|)[0] && m.data[2] == data[2] == Two(|x|)[1];
    case ToPlay(GameCache(_)) =>
  }

  lemma JoinCutShort(a: Address, w: Wish, s: Bytes)
    requires w.ToJoin? && Writable(w) && s <= Write(w).data && s != Write(w).data
    ensures ReadJoin(a, s).None?
  {
    hide Four;
    var end := [0, 0, 0, 0, 0xFF, 0xFF, w.connType];
    var tail := Four(w.gameId) + ([0] + end);
    assert Write(w).data == [0] + tail;
    AfterNul(tail);
    StringsEnd(s, Write(w).data);
    var cut := AfterString(s);
    if |cut| >= 11 {
      assert cut[4..] <= tail[4..] && tail[4..] == [0] + end;
      AfterNul(end);
      StringsEnd(cut[4..], tail[4..]);
    }
  }
}
