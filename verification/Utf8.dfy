/** UTF-8 (RFC 3629, section 3): what a Rust `String` is made of, where its
    character boundaries lie, and the two places the program cuts text short. */
module Utf8 {
  import opened Bytes
  import opened Wrappers

  function EncodeChar(c: char): (r: bytes)
    ensures 1 <= |r| <= 4
  {
    var n := c as int;
    if n < 0x80 then [n]
    else if n < 0x800 then [0xC0 + n / 64, 0x80 + n % 64]
    else if n < 0x1_0000 then [0xE0 + n / 4096, 0x80 + n / 64 % 64, 0x80 + n % 64]
    else [0xF0 + n / 262144, 0x80 + n / 4096 % 64, 0x80 + n / 64 % 64, 0x80 + n % 64]
  }

  function ToUtf8(s: string): bytes {
    if s == [] then [] else EncodeChar(s[0]) + ToUtf8(s[1..])
  }

  predicate Continuation(b: byte) { 0x80 <= b < 0xC0 }

  /** Code points a `char` can hold. */
  predicate Scalar(n: int) { 0 <= n < 0xD800 || 0xE000 <= n < 0x11_0000 }

  /** The first character of `b`, or None where `std::str::from_utf8` stops:
      a stray continuation, a missing one, an overlong form, a surrogate. */
  function DecodeFirst(b: bytes): (r: Option<char>)
    requires b != []
    ensures r.Some? ==> |EncodeChar(r.value)| <= |b|
  {
    if b[0] < 0x80 then Some(b[0] as char)
    else if 0xC2 <= b[0] < 0xE0 && |b| >= 2 && Continuation(b[1]) then
      Some((b[0] as int * 64 + b[1] as int - 0x3080) as char)
    else if 0xE0 <= b[0] < 0xF0 && |b| >= 3 && Continuation(b[1]) && Continuation(b[2]) then
      var n := (b[0] as int - 0xE0) * 4096 + (b[1] as int - 0x80) * 64 + b[2] as int - 0x80;
      if n >= 0x800 && Scalar(n) then Some(n as char) else None
    else if 0xF0 <= b[0] < 0xF5 && |b| >= 4 && Continuation(b[1]) && Continuation(b[2]) && Continuation(b[3]) then
      var n := (b[0] as int - 0xF0) * 262144 + (b[1] as int - 0x80) * 4096
               + (b[2] as int - 0x80) * 64 + b[3] as int - 0x80;
      if n >= 0x1_0000 && Scalar(n) then Some(n as char) else None
    else None
  }

  /** `std::str::from_utf8`. */
  function FromUtf8(b: bytes): Option<string>
    decreases |b|
  {
    if b == [] then Some("")
    else match DecodeFirst(b)
      case None => None
      case Some(c) =>
        match FromUtf8(b[|EncodeChar(c)|..])
        case None => None
        case Some(s) => Some([c] + s)
  }

  lemma DecodeFirstOfEncoded(c: char, rest: bytes)
    ensures DecodeFirst(EncodeChar(c) + rest) == Some(c)
  {
    var n := c as int;
    if n < 0x800 {
    } else if n < 0x1_0000 {
      var p, q := n / 64, n / 4096;
      assert q == p / 64 && n == 4096 * q + 64 * (p % 64) + n % 64;
    } else {
      var p, q, t := n / 64, n / 4096, n / 262144;
      assert q == p / 64 && t == q / 64;
      assert n == 262144 * t + 4096 * (q % 64) + 64 * (p % 64) + n % 64;
    }
  }

  /** Decoding undoes encoding, on every string. */
  lemma {:induction false} Utf8RoundTrip(s: string)
    ensures FromUtf8(ToUtf8(s)) == Some(s)
  {
    if s == [] {
    } else {
      var head, tail := EncodeChar(s[0]), ToUtf8(s[1..]);
      DecodeFirstOfEncoded(s[0], tail);
      assert (head + tail)[|head|..] == tail;
      Utf8RoundTrip(s[1..]);
      assert s == [s[0]] + s[1..];
    }
  }

  lemma SixBits(q: nat, r: nat)
    requires r < 64
    ensures (64 * q + r) / 64 == q && (64 * q + r) % 64 == r
  {
  }

  lemma TwoByteForm(a: nat, b: nat)
    requires a < 32 && b < 64 && 64 * a + b >= 0x80
    ensures EncodeChar((64 * a + b) as char) == [0xC0 + a, 0x80 + b]
  {
    SixBits(a, b);
  }

  lemma ThreeByteForm(a: nat, b: nat, c: nat)
    requires a < 16 && b < 64 && c < 64 && 4096 * a + 64 * b + c >= 0x800 && Scalar(4096 * a + 64 * b + c)
    ensures EncodeChar((4096 * a + 64 * b + c) as char) == [0xE0 + a, 0x80 + b, 0x80 + c]
  {
    var n := 4096 * a + 64 * b + c;
    SixBits(64 * a + b, c);
    SixBits(a, b);
    assert n == 64 * (64 * a + b) + c && n / 4096 == n / 64 / 64;
  }

  lemma FourByteForm(a: nat, b: nat, c: nat, d: nat)
    requires a < 5 && b < 64 && c < 64 && d < 64
    requires 0x1_0000 <= 262144 * a + 4096 * b + 64 * c + d < 0x11_0000
    ensures EncodeChar((262144 * a + 4096 * b + 64 * c + d) as char) == [0xF0 + a, 0x80 + b, 0x80 + c, 0x80 + d]
  {
    var n := 262144 * a + 4096 * b + 64 * c + d;
    SixBits(64 * (64 * a + b) + c, d);
    SixBits(64 * a + b, c);
    SixBits(a, b);
    assert n == 64 * (64 * (64 * a + b) + c) + d && n / 4096 == n / 64 / 64 && n / 262144 == n / 64 / 64 / 64;
  }

  lemma FirstWasEncoded(b: bytes)
    requires b != [] && DecodeFirst(b).Some?
    ensures var e := EncodeChar(DecodeFirst(b).value); b == e + b[|e|..]
  {
    if b[0] < 0x80 {
    } else if b[0] < 0xE0 {
      TwoByteForm(b[0] - 0xC0, b[1] - 0x80);
    } else if b[0] < 0xF0 {
      ThreeByteForm(b[0] - 0xE0, b[1] - 0x80, b[2] - 0x80);
    } else {
      FourByteForm(b[0] - 0xF0, b[1] - 0x80, b[2] - 0x80, b[3] - 0x80);
    }
  }

  /** And nothing but an encoding decodes: no overlong form, surrogate, stray or
      missing continuation is read as anything. */
  lemma {:induction false} OnlyEncodingsDecode(b: bytes)
    ensures FromUtf8(b).Some? <==> exists s :: b == ToUtf8(s)
    ensures FromUtf8(b).Some? ==> ToUtf8(FromUtf8(b).value) == b
    decreases |b|
  {
    if s :| b == ToUtf8(s) {
      Utf8RoundTrip(s);
    }
    if b != [] && FromUtf8(b).Some? {
      FirstWasEncoded(b);
      OnlyEncodingsDecode(b[|EncodeChar(DecodeFirst(b).value)|..]);
    }
    if FromUtf8(b).Some? {
      assert b == ToUtf8(FromUtf8(b).value);
    }
  }

  lemma {:induction false} Utf8Concat(a: string, b: string)
    ensures ToUtf8(a + b) == ToUtf8(a) + ToUtf8(b)
  {
    if a == [] {
      assert a + b == b;
    } else {
      assert (a + b)[1..] == a[1..] + b;
      Utf8Concat(a[1..], b);
    }
  }

  lemma {:induction false} AsciiIsItsOwnUtf8(s: string)
    requires forall i :: 0 <= i < |s| ==> s[i] as int < 0x80
    ensures |ToUtf8(s)| == |s|
    ensures forall i :: 0 <= i < |s| ==> ToUtf8(s)[i] == s[i] as int
  {
    if s == [] {
    } else {
      AsciiIsItsOwnUtf8(s[1..]);
    }
  }

  // ---------------------------------------------------------------------
  // Character boundaries
  // ---------------------------------------------------------------------

  /** `str::is_char_boundary`, which looks only at the byte. */
  predicate IsBoundary(b: bytes, i: nat) {
    i == 0 || i == |b| || (i < |b| && !Continuation(b[i]))
  }

  /** `str::floor_char_boundary`: the back-off loop both cuts share. */
  function FloorBoundary(b: bytes, i: nat): (r: nat)
    ensures r <= i && r <= |b| && IsBoundary(b, r)
    ensures forall k :: r < k <= i && k <= |b| ==> !IsBoundary(b, k)
  {
    if i >= |b| then |b|
    else if IsBoundary(b, i) then i
    else FloorBoundary(b, i - 1)
  }

  /** A position that passes the byte test really is the end of a whole number
      of characters. */
  lemma {:induction false} BoundaryIsCharCount(s: string, i: nat) returns (k: nat)
    requires i <= |ToUtf8(s)| && IsBoundary(ToUtf8(s), i)
    ensures k <= |s| && ToUtf8(s[..k]) == ToUtf8(s)[..i]
  {
    if i == 0 {
      k := 0;
    } else {
      var head := |EncodeChar(s[0])|;
      BoundaryPastTheFirst(s, i);
      k := BoundaryIsCharCount(s[1..], i - head);
      TakePastTheFirst(s, k, i);
      k := k + 1;
    }
  }

  /** No boundary lies inside a character. */
  lemma BoundaryPastTheFirst(s: string, i: nat)
    requires s != [] && 0 < i <= |ToUtf8(s)| && IsBoundary(ToUtf8(s), i)
    ensures i >= |EncodeChar(s[0])| && IsBoundary(ToUtf8(s[1..]), i - |EncodeChar(s[0])|)
  {
    var head, tail := EncodeChar(s[0]), ToUtf8(s[1..]);
    assert forall j :: 1 <= j < |head| ==> Continuation((head + tail)[j]);
  }

  lemma TakePastTheFirst(s: string, k: nat, i: nat)
    requires s != [] && k < |s| && |EncodeChar(s[0])| <= i <= |ToUtf8(s)|
    requires ToUtf8(s[1..][..k]) == ToUtf8(s[1..])[..i - |EncodeChar(s[0])|]
    ensures ToUtf8(s[..k + 1]) == ToUtf8(s)[..i]
  {
    var head, tail := EncodeChar(s[0]), ToUtf8(s[1..]);
    assert s[..k + 1] == [s[0]] + s[1..][..k];
    assert ToUtf8(s)[..i] == head + tail[..i - |head|];
  }

  /** Conversely, a whole number of characters ends on a boundary. */
  lemma {:induction false} CharCountIsBoundary(s: string, k: nat)
    requires k <= |s|
    ensures |ToUtf8(s[..k])| <= |ToUtf8(s)| && IsBoundary(ToUtf8(s), |ToUtf8(s[..k])|)
  {
    assert s == s[..k] + s[k..];
    Utf8Concat(s[..k], s[k..]);
    if k < |s| {
      assert ToUtf8(s)[|ToUtf8(s[..k])|] == EncodeChar(s[k..][0])[0];
    } else {
      assert s[..k] == s;
    }
  }

  /** The cut at a byte limit keeps exactly the longest run of whole
      characters that fits: it is one, and no longer one is. */
  lemma FloorIsLongestWholePrefix(s: string, limit: nat) returns (k: nat)
    ensures k <= |s| && ToUtf8(s[..k]) == ToUtf8(s)[..FloorBoundary(ToUtf8(s), limit)]
    ensures forall j :: 0 <= j <= |s| && |ToUtf8(s[..j])| <= limit ==> |ToUtf8(s[..j])| <= |ToUtf8(s[..k])|
  {
    k := BoundaryIsCharCount(s, FloorBoundary(ToUtf8(s), limit));
    forall j | 0 <= j <= |s| && |ToUtf8(s[..j])| <= limit
      ensures |ToUtf8(s[..j])| <= |ToUtf8(s[..k])|
    {
      CharCountIsBoundary(s, j);
    }
  }
}
