/** The JSON bodies whose size decides something: a card offer against the
    control cap, and a clipboard item against its own re-delivery (protocol.rs,
    with serde_json's string escaping as in RFC 8259, section 7). */
module Messages {
  import opened Bytes
  import opened Wrappers
  import opened Utf8
  import Framing

  /** auth.rs: the most an encoded identity card may measure. */
  const MAX_CARD_SIZE: nat := 2 * 1024

  /** Cap for clipboard frames. */
  const CLIP_CAP: nat := Framing.MAX_CLIP_MESSAGE_SIZE

  const HEX := "0123456789abcdef"

  function EscapeChar(c: char): (r: string)
    ensures r != []
  {
    var n := c as int;
    if c == '"' then "\\\"" else if c == '\\' then "\\\\"
    else if n == 8 then "\\b" else if n == 9 then "\\t" else if n == 10 then "\\n"
    else if n == 12 then "\\f" else if n == 13 then "\\r"
    else if n < 0x20 then "\\u00" + [HEX[n / 16], HEX[n % 16]]
    else [c]
  }

  function Escape(s: string): string {
    if s == [] then [] else EscapeChar(s[0]) + Escape(s[1..])
  }

  function Digits(n: nat): (r: string)
    ensures r != []
  {
    if n < 10 then [HEX[n]] else Digits(n / 10) + [HEX[n % 10]]
  }

  predicate Ascii(s: string) {
    forall i :: 0 <= i < |s| ==> s[i] as int < 0x80
  }

  function CardOfferJson(card: string): bytes {
    ToUtf8(OfferOpening() + Escape(card) + (['"'] + ['}']))
  }

  function ClipJson(kind: string, text: string, sentAt: nat): bytes {
    ToUtf8("{\"version\":4,\"kind\":\"" + kind + ClipTail(text, sentAt))
  }

  function TextOpening(): string { "\",\"text\":\"" }

  function TimeOpening(): string { ",\"sent_at_ms\":" }

  /** From the text's closing quote on. */
  function TimePart(sentAt: nat): string { TimeOpening() + (Digits(sentAt) + ['}']) }

  function ClipTail(text: string, sentAt: nat): string {
    TextOpening() + Escape(text) + (['"'] + TimePart(sentAt))
  }

  function ItemJson(text: string, sentAt: nat): bytes { ClipJson("item", text, sentAt) }

  function LatestJson(text: string, sentAt: nat): bytes { ClipJson("latest", text, sentAt) }

  /** Whether `encode_clip_msg` accepts the item when it is first sent. */
  predicate ItemFits(text: string, sentAt: nat) {
    |ItemJson(text, sentAt)| <= CLIP_CAP
  }

  /** Whether it accepts the same item as a resume re-delivery. */
  predicate LatestFits(text: string, sentAt: nat) {
    |LatestJson(text, sentAt)| <= CLIP_CAP
  }

  lemma LengthAroundText(head: string, kind: string, rest: string)
    requires Ascii(head) && Ascii(kind)
    ensures |ToUtf8(head + kind + rest)| == |head| + |kind| + |ToUtf8(rest)|
  {
    Utf8Concat(head + kind, rest);
    AsciiIsItsOwnUtf8(head + kind);
  }

  /** The two tags differ by two bytes, so an item can be re-delivered exactly
      when its first sending left two bytes to spare. */
  lemma RedeliveryCostsTwoBytes(text: string, sentAt: nat)
    ensures |LatestJson(text, sentAt)| == |ItemJson(text, sentAt)| + 2
    ensures LatestFits(text, sentAt) <==> |ItemJson(text, sentAt)| + 2 <= CLIP_CAP
  {
    LengthAroundText("{\"version\":4,\"kind\":\"", "item", ClipTail(text, sentAt));
    LengthAroundText("{\"version\":4,\"kind\":\"", "latest", ClipTail(text, sentAt));
  }

  lemma EscapedCharLength(c: char)
    ensures |ToUtf8(EscapeChar(c))| <= 6 * |EncodeChar(c)|
    ensures c as int < 0x80 ==> |ToUtf8(EscapeChar(c))| == |EscapeChar(c)|
  {
    var e := EscapeChar(c);
    if Ascii(e) {
      AsciiIsItsOwnUtf8(e);
    } else {
      assert e == [c] && ToUtf8(e) == EncodeChar(c) + ToUtf8(e[1..]);
    }
  }

  /** Escaping never costs more than six bytes a byte. */
  lemma {:induction false} EscapingGrowsSixfoldAtMost(s: string)
    ensures |ToUtf8(Escape(s))| <= 6 * |ToUtf8(s)|
  {
    if s == [] {
    } else {
      EscapingGrowsSixfoldAtMost(s[1..]);
      Utf8Concat(EscapeChar(s[0]), Escape(s[1..]));
      EscapedCharLength(s[0]);
    }
  }

  lemma LengthBetween(head: string, body: string, tail: string)
    requires Ascii(head) && Ascii(tail)
    ensures |ToUtf8(head + body + tail)| == |head| + |ToUtf8(body)| + |tail|
  {
    Utf8Concat(head + body, tail);
    Utf8Concat(head, body);
    AsciiIsItsOwnUtf8(head);
    AsciiIsItsOwnUtf8(tail);
  }

  lemma CardOfferLength(card: string)
    ensures |CardOfferJson(card)| == |ToUtf8(Escape(card))| + 23
  {
    LengthBetween(OfferOpening(), Escape(card), ['"'] + ['}']);
  }

  /** Every card within the card cap, whatever characters it is made of,
      encodes as an offer inside the control cap. */
  lemma AnyCardFitsAnOffer(card: string)
    requires |ToUtf8(card)| <= MAX_CARD_SIZE
    ensures |CardOfferJson(card)| <= Framing.MAX_CONTROL_MESSAGE_SIZE
  {
    EscapingGrowsSixfoldAtMost(card);
    CardOfferLength(card);
  }

  function Repeat(c: char, n: nat): (r: string)
    ensures |r| == n && forall i :: 0 <= i < n ==> r[i] == c
  {
    seq(n, _ => c)
  }

  lemma {:induction false} RepeatEscapes(c: char, n: nat)
    requires c as int < 0x80
    ensures |ToUtf8(Repeat(c, n))| == n
    ensures |ToUtf8(Escape(Repeat(c, n)))| == n * |EscapeChar(c)|
  {
    AsciiIsItsOwnUtf8(Repeat(c, n));
    if n > 0 {
      assert Repeat(c, n)[1..] == Repeat(c, n - 1);
      RepeatEscapes(c, n - 1);
      Utf8Concat(EscapeChar(c), Escape(Repeat(c, n - 1)));
      EscapedCharLength(c);
    }
  }

  /** How much room the card cap leaves: a cap of `n` bytes guarantees that
      every offer fits exactly when `n` is at most 2726. */
  lemma CardCapMarginIsExact(n: nat)
    ensures (forall card: string :: |ToUtf8(card)| <= n ==>
               |CardOfferJson(card)| <= Framing.MAX_CONTROL_MESSAGE_SIZE) <==> n <= 2726
  {
    if n <= 2726 {
      forall card: string | |ToUtf8(card)| <= n
        ensures |CardOfferJson(card)| <= Framing.MAX_CONTROL_MESSAGE_SIZE
      {
        EscapingGrowsSixfoldAtMost(card);
        CardOfferLength(card);
      }
    } else {
      var worst := Repeat(1 as char, 2727);
      RepeatEscapes(1 as char, 2727);
      CardOfferLength(worst);
    }
  }

  lemma TailLength(text: string)
    ensures |ToUtf8(ClipTail(text, 0))| == |ToUtf8(Escape(text))| + 27
  {
    LengthBetween(TextOpening(), Escape(text), ['"'] + TimePart(0));
  }

  lemma ItemLength(text: string)
    ensures |ItemJson(text, 0)| == |ToUtf8(Escape(text))| + 52
  {
    LengthAroundText("{\"version\":4,\"kind\":\"", "item", ClipTail(text, 0));
    TailLength(text);
  }

  /** There are items on the very edge: they can be sent, never re-delivered. */
  lemma SomeItemCannotBeRedelivered() returns (text: string)
    ensures ItemFits(text, 0) && !LatestFits(text, 0)
  {
    text := Repeat('a', CLIP_CAP - 52);
    RepeatEscapes('a', CLIP_CAP - 52);
    ItemLength(text);
    RedeliveryCostsTwoBytes(text, 0);
  }

  // ---------------------------------------------------------------------
  // Reading the bodies back
  // ---------------------------------------------------------------------

  function HexValue(c: char): int {
    if '0' <= c <= '9' then c as int - 48 else if 'a' <= c <= 'f' then c as int - 87
    else if 'A' <= c <= 'F' then c as int - 55 else -1
  }

  /** The characters with a two-character escape (RFC 8259, section 7). */
  function Unescaped(c: char): int {
    if c == '"' then 34 else if c == '\\' then 92 else if c == '/' then 47 else if c == 'b' then 8
    else if c == 't' then 9 else if c == 'n' then 10 else if c == 'f' then 12 else if c == 'r' then 13 else -1
  }

  function Prepend(c: char, r: (bool, string, string)): (bool, string, string) { (r.0, [c] + r.1, r.2) }

  /** A JSON string's text and what follows its closing quote, for escapes below
      U+0100; false for what is not one. */
  function ReadString(e: string): (bool, string, string)
    decreases |e|
  {
    if e == [] then (false, [], [])
    else if e[0] == '"' then (true, [], e[1..])
    else if e[0] != '\\' then if e[0] as int < 0x20 then (false, [], []) else Prepend(e[0], ReadString(e[1..]))
    else if |e| >= 2 && Unescaped(e[1]) >= 0 then Prepend(Unescaped(e[1]) as char, ReadString(e[2..]))
    else if |e| >= 6 && e[1] == 'u' && e[2] == '0' && e[3] == '0' && HexValue(e[4]) >= 0 && HexValue(e[5]) >= 0 then
      Prepend((16 * HexValue(e[4]) + HexValue(e[5])) as char, ReadString(e[6..]))
    else (false, [], [])
  }

  lemma HexDigitValue(n: nat)
    requires n < 16
    ensures HexValue(HEX[n]) == n
  {
  }

  lemma ControlReadsBack(c: char, rest: string)
    requires c as int < 0x20 && EscapeChar(c) == "\\u00" + [HEX[c as int / 16], HEX[c as int % 16]]
    ensures ReadString(EscapeChar(c) + rest) == Prepend(c, ReadString(rest))
  {
    HexDigitValue(c as int / 16);
    HexDigitValue(c as int % 16);
    var e := EscapeChar(c) + rest;
    assert e[0] == '\\' && e[1] == 'u' && e[2] == '0' && e[3] == '0';
    assert e[4] == HEX[c as int / 16] && e[5] == HEX[c as int % 16] && e[6..] == rest;
  }

  lemma CharReadsBack(c: char, rest: string)
    ensures ReadString(EscapeChar(c) + rest) == Prepend(c, ReadString(rest))
  {
    var n, e := c as int, EscapeChar(c) + rest;
    if n < 0x20 && n !in {8, 9, 10, 12, 13} {
      ControlReadsBack(c, rest);
    } else if |EscapeChar(c)| == 2 {
      assert e[2..] == rest;
    } else {
      assert e[1..] == rest;
    }
  }

  /** Escaping loses nothing and never runs into what follows: whatever the text, a
      reader comes back with it, at its closing quote. */
  lemma {:induction false} EscapedReadsBack(s: string, tail: string)
    ensures ReadString(Escape(s) + (['"'] + tail)) == (true, s, tail)
  {
    var rest := ['"'] + tail;
    if s == [] {
      assert Escape(s) + rest == rest && rest[1..] == tail;
    } else {
      EscapedReadsBack(s[1..], tail);
      CharReadsBack(s[0], Escape(s[1..]) + rest);
      Regroup(EscapeChar(s[0]), Escape(s[1..]), rest);
      assert s == [s[0]] + s[1..];
    }
  }

  lemma Regroup(a: string, b: string, c: string)
    ensures a + (b + c) == a + b + c && (a + (b + c))[|a|..] == b + c
  {
  }

  function Value(digits: string): int {
    if digits == [] then 0 else 10 * Value(digits[..|digits| - 1]) + HexValue(digits[|digits| - 1])
  }

  lemma {:induction false} DigitsReadBack(n: nat)
    ensures Value(Digits(n)) == n
  {
    var d := Digits(n);
    HexDigitValue(n % 10);
    if n < 10 {
      assert d[..|d| - 1] == [];
    } else {
      DigitsReadBack(n / 10);
      assert d[..|d| - 1] == Digits(n / 10);
    }
  }

  function OfferOpening(): string { "{\"version\":4,\"card\":\"" }

  /** An offer's bytes are UTF-8, and after its opening the card reads back whole. */
  lemma OfferReadsBack(card: string)
    ensures var text := FromUtf8(CardOfferJson(card));
            && text == Some(OfferOpening() + Escape(card) + (['"'] + ['}']))
            && ReadString(text.value[|OfferOpening()|..]) == (true, card, ['}'])
  {
    var closing := ['"'] + ['}'];
    Utf8RoundTrip(OfferOpening() + Escape(card) + closing);
    Regroup(OfferOpening(), Escape(card), closing);
    EscapedReadsBack(card, ['}']);
  }

  /** So does a clipboard body's text, and its time. */
  lemma ClipTailReadsBack(text: string, sentAt: nat)
    ensures ReadString(ClipTail(text, sentAt)[|TextOpening()|..]) == (true, text, TimePart(sentAt))
    ensures Value(Digits(sentAt)) == sentAt
  {
    DigitsReadBack(sentAt);
    Regroup(TextOpening(), Escape(text), ['"'] + TimePart(sentAt));
    EscapedReadsBack(text, TimePart(sentAt));
  }
}
