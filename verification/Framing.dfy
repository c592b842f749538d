/** Length-prefixed frames (protocol.rs): building one, accepting one from a
    buffer, and reading them back off a stream that arrives in arbitrary
    pieces. The JSON body is left to an abstract serializer. */
module Framing {
  import opened Bytes
  import opened Wrappers

  const DUOCB_PROTO_VERSION: nat := 4

  /** Cap for control frames (authentication, PIN, identity cards). */
  const MAX_CONTROL_MESSAGE_SIZE: nat := 16 * 1024

  /** Cap for clipboard frames. */
  const MAX_CLIP_MESSAGE_SIZE: nat := 1024 * 1024

  datatype FrameError = TooShort | TooLarge(len: nat) | Incomplete | Trailing(extra: nat)
                      | BadJson | VersionMismatch(got: nat) | Closed

  /** serde_json for one message type, together with its `version` field. */
  datatype Codec<!T> = Codec(encode: T -> bytes, decode: bytes -> Option<T>, version: T -> nat)

  /** What the program relies on serde_json for. */
  ghost predicate Lawful<T(!new)>(c: Codec<T>) {
    forall v: T :: c.decode(c.encode(v)) == Some(v)
  }

  /** The bytes that stand for one message on the wire. */
  function Frame(json: bytes): bytes {
    U32ToBytes(|json|) + json
  }

  method EncodeLengthPrefixed<T>(value: T, max: nat, c: Codec<T>) returns (r: Result<bytes, FrameError>)
    ensures r.Ok? <==> |c.encode(value)| <= max
    ensures r.Ok? ==> r.value == Frame(c.encode(value))
    ensures r.Err? ==> r.error == TooLarge(|c.encode(value)|)
  {
    var json := c.encode(value);
    if |json| > max {
      return Err(TooLarge(|json|));
    }
    var buf: bytes := [];
    buf := buf + U32ToBytes(|json|);
    buf := buf + json;
    return Ok(buf);
  }

  function DecodeLengthPrefixed<T>(data: bytes, max: nat, c: Codec<T>): Result<T, FrameError> {
    if |data| < 4 then Err(TooShort)
    else
      var len := BytesToU32(data[..4]);
      if len > max then Err(TooLarge(len))
      else if |data| < 4 + len then Err(Incomplete)
      else if |data| > 4 + len then Err(Trailing(|data| - (4 + len)))
      else match c.decode(data[4..4 + len])
        case None => Err(BadJson)
        case Some(v) =>
          if c.version(v) != DUOCB_PROTO_VERSION then Err(VersionMismatch(c.version(v)))
          else Ok(v)
  }

  lemma FrameShape(json: bytes)
    requires |json| < U32_MODULUS
    ensures |Frame(json)| == 4 + |json|
    ensures Frame(json)[..4] == U32ToBytes(|json|) && Frame(json)[4..] == json
    ensures BytesToU32(Frame(json)[..4]) == |json|
  {
    U32Truncates(|json|);
    assert Frame(json)[..4] == U32ToBytes(|json|);
  }

  /** `data` is one whole frame, inside the cap, whose body reads as `v` under
      the current version. */
  predicate FrameOf<T(==)>(data: bytes, json: bytes, max: nat, c: Codec<T>, v: T) {
    && |json| <= max && data == Frame(json)
    && c.decode(json) == Some(v) && c.version(v) == DUOCB_PROTO_VERSION
  }

  lemma FrameOfDecodes<T>(data: bytes, json: bytes, max: nat, c: Codec<T>, v: T)
    requires max < U32_MODULUS && FrameOf(data, json, max, c, v)
    ensures DecodeLengthPrefixed(data, max, c) == Ok(v)
  {
    FrameShape(json);
    assert data[4..4 + |json|] == json;
  }

  lemma DecodedIsFrameOf<T>(data: bytes, max: nat, c: Codec<T>, v: T)
    requires DecodeLengthPrefixed(data, max, c) == Ok(v)
    ensures FrameOf(data, data[4..], max, c, v)
  {
    U32BytesRoundTrip(data[..4]);
    assert data[4..4 + |data[4..]|] == data[4..];
    assert data == data[..4] + data[4..];
  }

  /** A buffer is accepted as `v` exactly when it is one whole frame, inside
      the cap, whose body reads as `v` under the current version: nothing
      missing, nothing after it. */
  lemma DecodeAcceptsExactlyOneFrame<T>(data: bytes, max: nat, c: Codec<T>, v: T)
    requires max < U32_MODULUS
    ensures DecodeLengthPrefixed(data, max, c) == Ok(v) <==> exists json :: FrameOf(data, json, max, c, v)
  {
    if json: bytes :| FrameOf(data, json, max, c, v) {
      FrameOfDecodes(data, json, max, c, v);
    }
    if DecodeLengthPrefixed(data, max, c) == Ok(v) {
      DecodedIsFrameOf(data, max, c, v);
    }
  }

  /** Whatever the encoder lets through, the decoder gives back. */
  lemma EncodedDecodes<T(!new)>(v: T, max: nat, c: Codec<T>)
    requires Lawful(c) && max < U32_MODULUS && c.version(v) == DUOCB_PROTO_VERSION
    requires |c.encode(v)| <= max
    ensures DecodeLengthPrefixed(Frame(c.encode(v)), max, c) == Ok(v)
  {
    FrameOfDecodes(Frame(c.encode(v)), c.encode(v), max, c, v);
  }

  /** The strict boundary: the same frame cut short, or followed by anything at
      all, is refused whatever its body says. */
  lemma CutOrExtendedFrameIsRefused<T>(json: bytes, max: nat, c: Codec<T>, n: nat, extra: bytes)
    requires |json| <= max < U32_MODULUS && n < 4 + |json| && extra != []
    ensures |Frame(json)| == 4 + |json|
    ensures DecodeLengthPrefixed(Frame(json)[..n], max, c) == Err(if n < 4 then TooShort else Incomplete)
    ensures DecodeLengthPrefixed(Frame(json) + extra, max, c) == Err(Trailing(|extra|))
  {
    FrameShape(json);
    if n >= 4 {
      assert Frame(json)[..n][..4] == Frame(json)[..4];
    }
    assert (Frame(json) + extra)[..4] == Frame(json)[..4];
  }

  // ---------------------------------------------------------------------
  // Reading frames off a stream
  // ---------------------------------------------------------------------

  function Flatten(chunks: seq<bytes>): bytes {
    if chunks == [] then [] else chunks[0] + Flatten(chunks[1..])
  }

  /** The receiving half of a stream: the pieces the transport has delivered or
      will deliver, in order, then its end. */
  class ByteStream {
    var chunks: seq<bytes>

    constructor (chunks: seq<bytes>)
      ensures this.chunks == chunks
    {
      this.chunks := chunks;
    }

    ghost function Pending(): bytes
      reads this
    {
      Flatten(chunks)
    }

    /** One poll of the transport: up to `limit` bytes of the next piece. */
    method TakePiece(limit: nat) returns (part: bytes)
      requires chunks != [] && limit > 0
      modifies this
      ensures |part| <= limit && part + Pending() == old(Pending())
      ensures part == [] ==> |chunks| < |old(chunks)|
      ensures |chunks| <= |old(chunks)|
    {
      var piece := chunks[0];
      if |piece| <= limit {
        chunks := chunks[1..];
        return piece;
      }
      part := piece[..limit];
      chunks := [piece[limit..]] + chunks[1..];
      assert chunks[1..] == old(chunks)[1..];
      assert piece == part + piece[limit..];
      assert part + (piece[limit..] + Flatten(chunks[1..])) == piece + Flatten(chunks[1..]);
    }

    /** `AsyncReadExt::read_exact`: gather from as many pieces as it takes. */
    method ReadExact(n: nat) returns (r: Result<bytes, FrameError>)
      modifies this
      ensures n <= |old(Pending())| ==>
                r == Ok(old(Pending())[..n]) && Pending() == old(Pending())[n..]
      ensures n > |old(Pending())| ==> r == Err(Closed) && Pending() == []
    {
      var got: bytes := [];
      while |got| < n
        invariant |got| <= n && got + Pending() == old(Pending())
        decreases n - |got|, |chunks|
      {
        if chunks == [] {
          return Err(Closed);
        }
        var part := TakePiece(n - |got|);
        assert got + part + Pending() == got + (part + Pending());
        got := got + part;
      }
      return Ok(got);
    }
  }

  /** One read seen from the bytes alone: the frame, and what is left. */
  function TakeFrame(data: bytes, max: nat): (Result<bytes, FrameError>, bytes) {
    if |data| < 4 then (Err(Closed), [])
    else
      var len := BytesToU32(data[..4]);
      if len > max then (Err(TooLarge(len)), data[4..])
      else if |data| < 4 + len then (Err(Closed), [])
      else (Ok(data[..4 + len]), data[4 + len..])
  }

  method ReadLengthPrefixed(s: ByteStream, max: nat) returns (r: Result<bytes, FrameError>)
    modifies s
    ensures (r, s.Pending()) == TakeFrame(old(s.Pending()), max)
  {
    var header := s.ReadExact(4);
    if header.Err? {
      return header;
    }
    var len := BytesToU32(header.value);
    if len > max {
      return Err(TooLarge(len));
    }
    var buf := header.value;
    var body := s.ReadExact(len);
    if body.Err? {
      return body;
    }
    buf := buf + body.value;
    ghost var before := old(s.Pending());
    assert before[..4] + before[4..][..len] == before[..4 + len];
    assert before[4..][len..] == before[4 + len..];
    return Ok(buf);
  }

  /** A prefix over the cap is refused with its body unread; a stream that ends
      inside a prefix or a body reads as closed. */
  lemma WhatAReadRefuses(prefix: bytes, rest: bytes, max: nat)
    requires |prefix| == 4
    ensures BytesToU32(prefix) > max ==> TakeFrame(prefix + rest, max) == (Err(TooLarge(BytesToU32(prefix))), rest)
    ensures BytesToU32(prefix) <= max && |rest| < BytesToU32(prefix) ==>
              TakeFrame(prefix + rest, max) == (Err(Closed), [])
    ensures forall n: nat :: n < 4 ==> TakeFrame(prefix[..n], max) == (Err(Closed), [])
  {
    assert (prefix + rest)[..4] == prefix && (prefix + rest)[4..] == rest;
  }

  /** The frames repeated reads yield before the first failure. */
  function Frames(data: bytes, max: nat): seq<bytes>
    decreases |data|
  {
    var (r, rest) := TakeFrame(data, max);
    if r.Ok? then [r.value] + Frames(rest, max) else []
  }

  /** A reader's loop: read until the stream fails. */
  method ReadFrames(s: ByteStream, max: nat) returns (frames: seq<bytes>)
    modifies s
    ensures frames == Frames(old(s.Pending()), max)
  {
    frames := [];
    while true
      invariant frames + Frames(s.Pending(), max) == Frames(old(s.Pending()), max)
      decreases |s.Pending()|
    {
      var r := ReadLengthPrefixed(s, max);
      if r.Err? {
        return;
      }
      frames := frames + [r.value];
    }
  }

  ghost predicate InCapFrame(frame: bytes, max: nat) {
    exists json :: |json| <= max && frame == Frame(json)
  }

  lemma FramesTakesTheFirst(frame: bytes, tail: bytes, max: nat)
    requires max < U32_MODULUS && InCapFrame(frame, max)
    ensures Frames(frame + tail, max) == [frame] + Frames(tail, max)
  {
    var json :| |json| <= max && frame == Frame(json);
    FrameShape(json);
    var all := frame + tail;
    assert all[..4] == frame[..4];
    assert all[..4 + |json|] == frame && all[4 + |json|..] == tail;
    assert TakeFrame(all, max) == (Ok(frame), tail);
  }

  /** Any sequence of messages survives any chunking: whatever bytes follow
      them, the reader first hands back exactly the frames that were written. */
  lemma {:induction false} FramesComeBackWhole(frames: seq<bytes>, rest: bytes, max: nat)
    requires max < U32_MODULUS
    requires forall i :: 0 <= i < |frames| ==> InCapFrame(frames[i], max)
    ensures Frames(Flatten(frames) + rest, max) == frames + Frames(rest, max)
  {
    if frames == [] {
      assert Flatten(frames) + rest == rest;
    } else {
      var tail := Flatten(frames[1..]) + rest;
      calc {
        Frames(Flatten(frames) + rest, max);
        { assert Flatten(frames) + rest == frames[0] + tail; }
        Frames(frames[0] + tail, max);
        { FramesTakesTheFirst(frames[0], tail, max); }
        [frames[0]] + Frames(tail, max);
        { FramesComeBackWhole(frames[1..], rest, max); }
        [frames[0]] + (frames[1..] + Frames(rest, max));
        { assert frames == [frames[0]] + frames[1..]; }
        frames + Frames(rest, max);
      }
    }
  }

  /** Nor can a reader be made to see anything else: on any bytes whatever, the
      frames it yields are in-cap frames and lie end to end at the front. */
  lemma {:induction false} FramesAreAPrefix(data: bytes, max: nat)
    ensures Flatten(Frames(data, max)) <= data
    ensures forall f <- Frames(data, max) :: InCapFrame(f, max)
    decreases |data|
  {
    var (r, rest) := TakeFrame(data, max);
    if r.Ok? {
      FramesAreAPrefix(rest, max);
      U32BytesRoundTrip(data[..4]);
      assert r.value == Frame(r.value[4..]);
      assert InCapFrame(r.value, max);
      var frames := Frames(data, max);
      assert frames[0] == r.value && frames[1..] == Frames(rest, max);
      assert data == r.value + rest;
    }
  }

  /** A stream that ends early, wherever it is cut, yields exactly the frames that
      arrived whole: a prefix of those sent, and no shorter than it has to be. */
  lemma {:induction false} CutStreamYieldsWholeFrames(frames: seq<bytes>, n: nat, max: nat) returns (k: nat)
    requires max < U32_MODULUS && n <= |Flatten(frames)|
    requires forall i :: 0 <= i < |frames| ==> InCapFrame(frames[i], max)
    ensures k <= |frames| && Frames(Flatten(frames)[..n], max) == frames[..k] <= frames
    ensures |Flatten(frames[..k])| <= n && (k < |frames| ==> n < |Flatten(frames[..k + 1])|)
  {
    var cut := Flatten(frames)[..n];
    if frames == [] {
      k := 0;
    } else if n < |frames[0]| {
      k := 0;
      CutInsideAFrame(frames[0], n, max);
      assert cut == frames[0][..n];
      FlattenTake(frames, 0);
    } else {
      var tail := Flatten(frames[1..])[..n - |frames[0]|];
      k := CutStreamYieldsWholeFrames(frames[1..], n - |frames[0]|, max);
      assert cut == frames[0] + tail;
      FramesTakesTheFirst(frames[0], tail, max);
      FlattenTake(frames, k);
      if k + 1 < |frames| {
        FlattenTake(frames, k + 1);
      }
      k := k + 1;
    }
  }

  lemma FlattenTake(frames: seq<bytes>, k: nat)
    requires k < |frames|
    ensures frames[..k + 1] == [frames[0]] + frames[1..][..k]
    ensures Flatten(frames[..k + 1]) == frames[0] + Flatten(frames[1..][..k])
  {
    assert frames[..k + 1][1..] == frames[1..][..k];
  }

  lemma CutInsideAFrame(frame: bytes, n: nat, max: nat)
    requires max < U32_MODULUS && InCapFrame(frame, max) && n < |frame|
    ensures Frames(frame[..n], max) == []
  {
    var json :| |json| <= max && frame == Frame(json);
    FrameShape(json);
    if n >= 4 {
      assert frame[..n][..4] == frame[..4];
    }
  }
}
