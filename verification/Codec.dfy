/**
 The cache codec of the protocol: a block travels in full, or as the position of an
 equal block in a cache that both ends keep. The same code runs in both directions.
 */
module Codec {
  import opened Common
  import opened InputCaches

  /** `ClientInput` and `ServerResponse` have the same two forms. */
  datatype Message = GameData(bytes: Bytes) | GameCache(position: Byte)

  type Cache = s: Slots | |s| <= CAPACITY witness []

  /** A message together with the sender's cache after sending it. */
  datatype Encoded = Encoded(message: Message, cache: Cache)

  /** A block together with the receiver's cache after receiving it. */
  datatype Decoded = Decoded(bytes: Bytes, cache: Cache)

  /** Search before sending; remember what is sent in full. */
  function Encode(cache: Cache, x: Bytes): Encoded {
    match Scan(cache, x)
    case Some(pos) => Encoded(GameCache(pos), cache)
    case None => Encoded(GameData(x), Pushed(cache, x))
  }

  /** With the output cache disabled, blocks always travel in full and the cache stays as it is. */
  function EncodeUnless(disabled: bool, cache: Cache, x: Bytes): Encoded {
    if disabled then Encoded(GameData(x), cache) else Encode(cache, x)
  }

  /** What a receiver does with a block that arrives in full: remember it always, or only if it is new. */
  datatype PushRule = PushAlways | PushIfAbsent

  /** None is a position outside the cache. */
  function Decode(rule: PushRule, cache: Cache, m: Message): Option<Decoded> {
    match m
    case GameData(x) => Some(Decoded(x, if rule == PushIfAbsent && x in cache then cache else Pushed(cache, x)))
    case GameCache(pos) => if pos < |cache| then Some(Decoded(cache[pos], cache)) else None
  }

  /** A receiver whose cache equals the sender's recovers the block and keeps the caches equal. */
  lemma DecodeUndoesEncode(rule: PushRule, cache: Cache, x: Bytes)
    ensures var e := Encode(cache, x);
            Decode(rule, cache, e.message) == Some(Decoded(x, e.cache))
  {
  }

  // ---- streams ----

  datatype EncodedStream = EncodedStream(messages: seq<Message>, cache: Cache)

  datatype DecodedStream = DecodedStream(blocks: seq<Bytes>, cache: Cache)

  function EncodeAll(disabled: bool, cache: Cache, xs: seq<Bytes>): EncodedStream {
    if xs == [] then EncodedStream([], cache)
    else
      var before := EncodeAll(disabled, cache, xs[..|xs| - 1]);
      var e := EncodeUnless(disabled, before.cache, xs[|xs| - 1]);
      EncodedStream(before.messages + [e.message], e.cache)
  }

  function DecodeAll(rule: PushRule, cache: Cache, ms: seq<Message>): Option<DecodedStream> {
    if ms == [] then Some(DecodedStream([], cache))
    else
      match DecodeAll(rule, cache, ms[..|ms| - 1])
      case None => None
      case Some(before) =>
        match Decode(rule, before.cache, ms[|ms| - 1])
        case None => None
        case Some(d) => Some(DecodedStream(before.blocks + [d.bytes], d.cache))
  }

  /** Sending only what is not found never puts a block into the cache twice. */
  lemma {:induction false} NeverDuplicates(cache: Cache, xs: seq<Bytes>)
    requires NoDuplicates(cache)
    ensures NoDuplicates(EncodeAll(false, cache, xs).cache)
  {
    if xs != [] {
      NeverDuplicates(cache, xs[..|xs| - 1]);
    }
  }

  lemma EncodeAllOne(disabled: bool, cache: Cache, xs: seq<Bytes>, x: Bytes)
    ensures var before := EncodeAll(disabled, cache, xs);
            var e := EncodeUnless(disabled, before.cache, x);
            EncodeAll(disabled, cache, xs + [x]) == EncodedStream(before.messages + [e.message], e.cache)
  {
    assert (xs + [x])[..|xs + [x]| - 1] == xs;
  }

  lemma DecodeAllOne(rule: PushRule, cache: Cache, ms: seq<Message>, m: Message)
    requires DecodeAll(rule, cache, ms).Some?
    ensures var before := DecodeAll(rule, cache, ms).value;
            DecodeAll(rule, cache, ms + [m]) ==
            match Decode(rule, before.cache, m)
            case None => None
            case Some(d) => Some(DecodedStream(before.blocks + [d.bytes], d.cache))
  {
    assert (ms + [m])[..|ms + [m]| - 1] == ms;
  }

  /**
   Over any stream, through any number of evictions, either kind of receiver recovers
   exactly the blocks, ends with the sender's cache and never meets a bad position.
   */
  lemma {:induction false} StreamRoundTrip(rule: PushRule, cache: Cache, xs: seq<Bytes>)
    ensures var sent := EncodeAll(false, cache, xs);
            DecodeAll(rule, cache, sent.messages) == Some(DecodedStream(xs, sent.cache))
  {
    if xs != [] {
      var earlier, x := xs[..|xs| - 1], xs[|xs| - 1];
      var before := EncodeAll(false, cache, earlier);
      StreamRoundTrip(rule, cache, earlier);
      assert xs == earlier + [x];
      EncodeAllOne(false, cache, earlier, x);
      DecodeUndoesEncode(rule, before.cache, x);
      DecodeAllOne(rule, cache, before.messages, Encode(before.cache, x).message);
    }
  }

  /** With the output cache disabled the blocks are still recovered, whatever the receiver's cache does. */
  lemma {:induction false} DisabledRoundTrip(rule: PushRule, cache: Cache, receiver: Cache, xs: seq<Bytes>)
    ensures DecodeAll(rule, receiver, EncodeAll(true, cache, xs).messages).Some?
    ensures DecodeAll(rule, receiver, EncodeAll(true, cache, xs).messages).value.blocks == xs
  {
    if xs != [] {
      var earlier, x := xs[..|xs| - 1], xs[|xs| - 1];
      DisabledRoundTrip(rule, cache, receiver, earlier);
      assert xs == earlier + [x];
      EncodeAllOne(true, cache, earlier, x);
      DecodeAllOne(rule, receiver, EncodeAll(true, cache, earlier).messages, GameData(x));
    }
  }

  /** The two receivers protocol.txt allows cannot be told apart. */
  lemma ReceiversAgree(cache: Cache, xs: seq<Bytes>)
    ensures var ms := EncodeAll(false, cache, xs).messages;
            DecodeAll(PushAlways, cache, ms) == DecodeAll(PushIfAbsent, cache, ms)
  {
    StreamRoundTrip(PushAlways, cache, xs);
    StreamRoundTrip(PushIfAbsent, cache, xs);
  }

  /**
   The receivers part ways exactly when a block is sent in full although it is cached, so
   "search before you send" is what makes them interchangeable.
   */
  lemma ReceiversPartExactlyOnRepeats(cache: Cache, m: Message)
    requires NoDuplicates(cache)
    ensures Decode(PushAlways, cache, m) == Decode(PushIfAbsent, cache, m)
            <==> !(m.GameData? && m.bytes in cache)
  {
    if m.GameData? {
      PushingMovesTheCache(cache, m.bytes);
    }
  }

  lemma PushingMovesTheCache(cache: Cache, x: Bytes)
    requires NoDuplicates(cache)
    ensures Pushed(cache, x) != cache
  {
    if |cache| >= CAPACITY {
      assert Pushed(cache, x)[|cache| - 2] == cache[|cache| - 1];
    }
  }
}
