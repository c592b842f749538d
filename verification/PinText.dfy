/** The card-setup PIN as text (pin.rs) and the rotation window around it
    (pin_record.rs). */
module PinText {
  import opened Bytes
  import opened Wrappers
  import opened Utf8

  const PIN_LEN: nat := 8
  const PIN_DATA_LEN: nat := 7
  const PIN_GROUP_LEN: nat := 4
  const ALPHABET_LEN: nat := 32

  // ---------------------------------------------------------------------
  // The alphabet: Crockford's base 32, no I, L, O or U
  // ---------------------------------------------------------------------

  /** The position of a byte in the alphabet. */
  function Index(b: byte): (r: Option<nat>)
    ensures r.Some? ==> r.value < ALPHABET_LEN && Symbol(r.value) as int == b
  {
    if 48 <= b <= 57 then Some(b - 48)         // 0-9
    else if 65 <= b <= 72 then Some(b - 55)    // A-H
    else if 74 <= b <= 75 then Some(b - 56)    // J K
    else if 77 <= b <= 78 then Some(b - 57)    // M N
    else if 80 <= b <= 84 then Some(b - 58)    // P-T
    else if 86 <= b <= 90 then Some(b - 59)    // V-Z
    else None
  }

  function Symbol(i: nat): (c: char)
    requires i < ALPHABET_LEN
    ensures c as int < 128
  {
    var n := i + if i < 10 then 48 else if i < 18 then 55 else if i < 20 then 56
                 else if i < 22 then 57 else if i < 27 then 58 else 59;
    n as char
  }

  lemma IndexOfSymbol(i: nat)
    requires i < ALPHABET_LEN
    ensures Index(Symbol(i) as int) == Some(i)
  {
  }

  /** The symbols are the digits and the capital letters but I, L, O and U, in
      their own order. */
  lemma AlphabetIs(b: byte, i: nat, j: nat)
    requires i < j < ALPHABET_LEN
    ensures Index(b).Some? <==> 48 <= b <= 57 || (65 <= b <= 90 && b !in [73, 76, 79, 85])
    ensures Symbol(i) < Symbol(j)
  {
  }

  /** `ALPHABET.contains(&(c as u8))`: the cast keeps the code point's low byte. */
  predicate InAlphabet(c: char) { Index(c as int % 256).Some? }

  /** A character that really is one of the thirty-two. */
  predicate IsSymbol(c: char) { c as int < 128 && InAlphabet(c) }

  predicate Separator(c: char) { c == ' ' || c == '-' || c == '\t' }

  function AsciiUpper(c: char): char { if 'a' <= c <= 'z' then (c as int - 32) as char else c }

  /** Upper case, with the look-alikes mapped. */
  function Mapped(c: char): char {
    var up := AsciiUpper(c);
    if up == 'I' || up == 'L' then '1' else if up == 'O' then '0' else up
  }

  predicate Ascii(s: string) { forall i :: 0 <= i < |s| ==> s[i] as int < 128 }

  // ---------------------------------------------------------------------
  // The check digit
  // ---------------------------------------------------------------------

  function Weight(b: byte): nat { if Index(b).Some? then Index(b).value else 0 }

  function Weights(data: bytes): seq<nat> { seq(|data|, i requires 0 <= i < |data| => Weight(data[i])) }

  /** Each term weighted by its place, counted from 1. */
  function WeightedSum(ws: seq<nat>): nat {
    if ws == [] then 0 else WeightedSum(ws[..|ws| - 1]) + ws[|ws| - 1] * |ws|
  }

  function CheckChar(data: bytes): char { Symbol(WeightedSum(Weights(data)) % ALPHABET_LEN) }

  method ComputeCheckChar(data: bytes) returns (c: char)
    ensures c == CheckChar(data)
  {
    var sum := 0;
    ghost var ws := Weights(data);
    for i := 0 to |data|
      invariant sum == WeightedSum(ws[..i])
    {
      assert ws[..i + 1][..i] == ws[..i];
      var idx := Weight(data[i]);
      sum := sum + idx * (i + 1);
    }
    assert ws[..|data|] == ws;
    c := Symbol(sum % ALPHABET_LEN);
  }

  lemma {:induction false} ChangeOne(ws: seq<nat>, i: nat, w: nat)
    requires i < |ws|
    ensures WeightedSum(ws[i := w]) == WeightedSum(ws) + (w - ws[i]) * (i + 1)
    decreases |ws|
  {
    var n := |ws| - 1;
    var changed := ws[i := w];
    if i == n {
      assert changed[..n] == ws[..n];
      assert (w - ws[n]) * (n + 1) == w * (n + 1) - ws[n] * (n + 1);
    } else {
      assert changed[..n] == ws[..n][i := w];
      ChangeOne(ws[..n], i, w);
    }
  }

  /** Two sums map to one symbol exactly when they differ by a multiple of 32. */
  lemma SameSymbol(a: nat, b: nat)
    ensures Symbol(a % ALPHABET_LEN) == Symbol(b % ALPHABET_LEN) <==> (b - a) % ALPHABET_LEN == 0
  {
    IndexOfSymbol(a % ALPHABET_LEN);
    IndexOfSymbol(b % ALPHABET_LEN);
  }

  // ---------------------------------------------------------------------
  // Normalizing what a user typed
  // ---------------------------------------------------------------------

  function CodesOf(s: string): bytes
    requires Ascii(s)
  {
    seq(|s|, i requires 0 <= i < |s| => s[i] as int)
  }

  predicate Canonical(p: string) {
    && |p| == PIN_LEN && (forall i :: 0 <= i < PIN_LEN ==> IsSymbol(p[i]))
    && p[PIN_DATA_LEN] == CheckChar(CodesOf(p[..PIN_DATA_LEN]))
  }

  /** What one typed character contributes: nothing, a symbol, or a refusal. */
  function Kept(c: char): Option<string> {
    if Separator(c) then Some([]) else if InAlphabet(Mapped(c)) then Some([Mapped(c)]) else None
  }

  function Join(a: Option<string>, b: Option<string>): Option<string> {
    if a.Some? && b.Some? then Some(a.value + b.value) else None
  }

  /** The characters kept of an input, unless one is refused. */
  function Scan(input: string): Option<string> {
    if input == [] then Some([]) else Join(Kept(input[0]), Scan(input[1..]))
  }

  /** Lengths and the check digit are read off the UTF-8 bytes. */
  function Normalized(input: string): Option<string> {
    var out := Scan(input);
    if out.None? then None
    else
      var b := ToUtf8(out.value);
      if |b| == PIN_LEN && b[PIN_DATA_LEN] == CheckChar(b[..PIN_DATA_LEN]) as int then out else None
  }

  lemma {:induction false} ScanConcat(a: string, b: string)
    ensures Scan(a + b) == Join(Scan(a), Scan(b))
  {
    if a == [] {
      assert a + b == b;
      assert Scan(b).Some? ==> [] + Scan(b).value == Scan(b).value;
    } else {
      assert (a + b)[1..] == a[1..] + b;
      ScanConcat(a[1..], b);
      JoinAssociates(Kept(a[0]), Scan(a[1..]), Scan(b));
    }
  }

  lemma JoinAssociates(a: Option<string>, b: Option<string>, c: Option<string>)
    ensures Join(a, Join(b, c)) == Join(Join(a, b), c)
  {
    if a.Some? && b.Some? && c.Some? {
      assert a.value + (b.value + c.value) == a.value + b.value + c.value;
    }
  }

  lemma ScanOne(c: char)
    ensures Scan([c]) == Kept(c)
  {
    assert Kept(c).Some? ==> Kept(c).value + [] == Kept(c).value;
  }

  lemma Overlong(input: string, i: nat)
    requires i <= |input|
    ensures Scan(input[..i]).None? || |ToUtf8(Scan(input[..i]).value)| > PIN_LEN ==> Normalized(input) == None
  {
    assert input == input[..i] + input[i..];
    ScanConcat(input[..i], input[i..]);
    if Scan(input).Some? {
      Utf8Concat(Scan(input[..i]).value, Scan(input[i..]).value);
    }
  }

  /** `normalize_pin`, which gives up as soon as it can. */
  method NormalizePin(input: string) returns (r: Option<string>)
    ensures r == Normalized(input)
  {
    var out := "";
    for i := 0 to |input|
      invariant Scan(input[..i]) == Some(out)
    {
      assert input[..i + 1] == input[..i] + [input[i]];
      ScanConcat(input[..i], [input[i]]);
      ScanOne(input[i]);
      Overlong(input, i + 1);
      if Separator(input[i]) {
        assert out + [] == out;
        continue;
      }
      if !InAlphabet(Mapped(input[i])) {
        return None;
      }
      out := out + [Mapped(input[i])];
      if |ToUtf8(out)| > PIN_LEN {
        return None;
      }
    }
    assert input[..|input|] == input;
    var b := ToUtf8(out);
    if |b| != PIN_LEN {
      return None;
    }
    var check := ComputeCheckChar(b[..PIN_DATA_LEN]);
    if b[PIN_DATA_LEN] != check as int {
      return None;
    }
    return Some(out);
  }

  /** `sanitize_pin_chars`: never rejects, only drops. */
  function Sanitized(input: string): string {
    if input == [] then []
    else (if InAlphabet(Mapped(input[0])) then [Mapped(input[0])] else []) + Sanitized(input[1..])
  }

  /** Nothing in the input but separators and characters that map into the
      alphabet. */
  predicate Typed(input: string) {
    forall i :: 0 <= i < |input| ==> Separator(input[i]) || InAlphabet(Mapped(input[i]))
  }

  lemma MappedTwice(c: char)
    ensures Mapped(Mapped(c)) == Mapped(c)
    ensures Separator(c) ==> !InAlphabet(Mapped(c))
    ensures c as int < 128 <==> Mapped(c) as int < 128
  {
  }

  lemma {:induction false} ScanIsSanitized(input: string)
    ensures Scan(input) == if Typed(input) then Some(Sanitized(input)) else None
  {
    if input == [] {
    } else {
      ScanIsSanitized(input[1..]);
      MappedTwice(input[0]);
      assert Typed(input) <==> (Separator(input[0]) || InAlphabet(Mapped(input[0]))) && Typed(input[1..]);
      assert [] + Sanitized(input[1..]) == Sanitized(input[1..]);
    }
  }

  predicate AllSymbolic(s: string) { forall i :: 0 <= i < |s| ==> InAlphabet(s[i]) && Mapped(s[i]) == s[i] }

  lemma {:induction false} SanitizedIsSymbolic(input: string)
    ensures AllSymbolic(Sanitized(input))
  {
    if input == [] {
    } else {
      SanitizedIsSymbolic(input[1..]);
      MappedTwice(input[0]);
    }
  }

  /** Sanitizing neither makes nor hides a foreign character. */
  lemma {:induction false} SanitizedIsAscii(input: string)
    ensures Ascii(input) ==> Ascii(Sanitized(input))
    ensures Typed(input) && Ascii(Sanitized(input)) ==> Ascii(input)
  {
    if input == [] {
    } else {
      var c, rest := input[0], Sanitized(input[1..]);
      SanitizedIsAscii(input[1..]);
      MappedTwice(c);
      FirstAscii(c, input[1..]);
      assert input == [c] + input[1..];
      if InAlphabet(Mapped(c)) {
        FirstAscii(Mapped(c), rest);
      } else {
        assert Sanitized(input) == rest;
        assert Typed(input) ==> Separator(input[0]);
      }
      assert Typed(input) ==> Typed(input[1..]);
    }
  }

  lemma FirstAscii(c: char, s: string)
    ensures Ascii([c] + s) <==> c as int < 128 && Ascii(s)
  {
    var all := [c] + s;
    assert all[0] == c && forall i :: 0 <= i < |s| ==> all[i + 1] == s[i];
  }

  lemma {:induction false} SymbolsSanitizeToThemselves(s: string)
    requires AllSymbolic(s)
    ensures Sanitized(s) == s && Typed(s)
  {
    if s == [] {
    } else {
      SymbolsSanitizeToThemselves(s[1..]);
      assert s == [s[0]] + s[1..];
    }
  }

  /** Sanitizing an already sanitized entry changes nothing, on any input. */
  lemma SanitizingTwiceIsOnce(input: string)
    ensures Sanitized(Sanitized(input)) == Sanitized(input)
  {
    SanitizedIsSymbolic(input);
    SymbolsSanitizeToThemselves(Sanitized(input));
  }

  /** Characters a user may type one for the other: either case of a letter, and the
      look-alikes of one and of zero. */
  predicate TypedAlike(c: char, d: char) {
    || c == d
    || (c in ['1', 'I', 'i', 'L', 'l'] && d in ['1', 'I', 'i', 'L', 'l'])
    || (c in ['0', 'O', 'o'] && d in ['0', 'O', 'o'])
    || ('A' <= c <= 'Z' && d as int == c as int + 32) || ('A' <= d <= 'Z' && c as int == d as int + 32)
  }

  lemma {:induction false} ScanReadsAlike(s: string, t: string)
    requires |s| == |t| && forall i :: 0 <= i < |s| ==> TypedAlike(s[i], t[i])
    ensures Scan(s) == Scan(t)
  {
    if s == [] {
    } else {
      ScanReadsAlike(s[1..], t[1..]);
      assert Mapped(s[0]) == Mapped(t[0]) && Separator(s[0]) == Separator(t[0]);
    }
  }

  lemma SeparatorsDoNotMatter(a: string, gap: char, b: string)
    requires Separator(gap)
    ensures Normalized(a + [gap] + b) == Normalized(a + b)
  {
    ScanOne(gap);
    ScanConcat(a, [gap]);
    ScanConcat(a + [gap], b);
    ScanConcat(a, b);
    assert Scan(a).Some? ==> Scan(a).value + [] == Scan(a).value;
  }

  /** Case and look-alikes make no difference, nor do spaces, dashes and tabs,
      wherever they are. */
  lemma TypedAlikeReadsAlike(s: string, t: string, i: nat, gap: char)
    requires |s| == |t| && forall k :: 0 <= k < |s| ==> TypedAlike(s[k], t[k])
    requires i <= |s| && gap in [' ', '-', '\t']
    ensures Normalized(s) == Normalized(t) == Normalized(s[..i] + [gap] + s[i..])
  {
    ScanReadsAlike(s, t);
    SeparatorsDoNotMatter(s[..i], gap, s[i..]);
    assert s == s[..i] + s[i..];
  }

  /** For ASCII input, normalizing accepts exactly what holds a canonical PIN once
      separators are dropped and look-alikes mapped, and answers that PIN. */
  lemma NormalizesAscii(input: string)
    requires Ascii(input)
    ensures Normalized(input) == if Typed(input) && Canonical(Sanitized(input)) then Some(Sanitized(input)) else None
  {
    ScanIsSanitized(input);
    SanitizedIsSymbolic(input);
    SanitizedIsAscii(input);
    var out := Sanitized(input);
    AsciiIsItsOwnUtf8(out);
    if |out| == PIN_LEN {
      assert ToUtf8(out)[..PIN_DATA_LEN] == CodesOf(out[..PIN_DATA_LEN]);
    }
  }

  lemma CanonicalIsItself(p: string)
    requires forall i :: 0 <= i < |p| ==> IsSymbol(p[i])
    ensures Ascii(p) && Sanitized(p) == p && Typed(p)
    ensures Normalized(p) == if Canonical(p) then Some(p) else None
  {
    assert forall i :: 0 <= i < |p| ==> Mapped(p[i]) == p[i];
    SymbolsSanitizeToThemselves(p);
    NormalizesAscii(p);
  }

  /** What normalizing accepts is a canonical PIN, and its own normal form,
      exactly when the input was ASCII. */
  lemma AcceptedIsCanonicalExactlyWhenAscii(input: string)
    ensures var p := Normalized(input);
            p.Some? ==> (Canonical(p.value) <==> Ascii(input)) && (Ascii(input) ==> Normalized(p.value) == p)
  {
    ScanIsSanitized(input);
    SanitizedIsAscii(input);
    var p := Normalized(input);
    if p.Some? {
      if Ascii(input) {
        NormalizesAscii(input);
        CanonicalIsItself(p.value);
      } else {
        assert !Ascii(p.value);
      }
    }
  }

  const FOREIGN: string := [304 as char, 304 as char, 304 as char, '0', '0']

  lemma ForeignBytes()
    ensures ToUtf8(FOREIGN) == [0xC4, 0xB0, 0xC4, 0xB0, 0xC4, 0xB0, 48, 48]
  {
    var i := [304 as char];
    var two := ['0', '0'];
    assert ToUtf8(i) == EncodeChar(304 as char) + [] == [0xC4, 0xB0];
    assert two == ['0'] + ['0'] && FOREIGN == i + (i + (i + two));
    Utf8Concat(['0'], ['0']);
    assert ToUtf8(['0']) == [48] + [];
    Utf8Concat(i, two);
    Utf8Concat(i, i + two);
    Utf8Concat(i, i + (i + two));
  }

  /** The cast really lets foreign characters through: three capital I's with a
      dot above, each read as a 0 and stored as two bytes, make an accepted PIN. */
  lemma ForeignCharactersCanPass()
    ensures Normalized(FOREIGN) == Some(FOREIGN) && !Ascii(FOREIGN) && !Canonical(FOREIGN)
  {
    assert Mapped(304 as char) == 304 as char && InAlphabet(304 as char) && Mapped('0') == '0';
    ScanIsSanitized(FOREIGN);
    SymbolsSanitizeToThemselves(FOREIGN);
    ForeignBytes();
    WeightlessSum(Weights(ToUtf8(FOREIGN)[..PIN_DATA_LEN]));
    assert FOREIGN[0] as int == 304;
  }

  lemma {:induction false} WeightlessSum(ws: seq<nat>)
    requires forall i :: 0 <= i < |ws| ==> ws[i] == 0
    ensures WeightedSum(ws) == 0
  {
    if ws == [] {
    } else {
      WeightlessSum(ws[..|ws| - 1]);
    }
  }

  // ---------------------------------------------------------------------
  // Typos
  // ---------------------------------------------------------------------

  function Value(c: char): nat
    requires IsSymbol(c)
  {
    Index(c as int % 256).value
  }

  predicate Symbols(p: string) { |p| == PIN_LEN && forall i :: 0 <= i < PIN_LEN ==> IsSymbol(p[i]) }

  /** The data characters' positions in the alphabet. */
  function Values(p: string): seq<nat>
    requires Symbols(p)
  {
    seq(PIN_DATA_LEN, i requires 0 <= i < PIN_DATA_LEN => Value(p[i]))
  }

  lemma WeightIsValue(c: char)
    requires IsSymbol(c)
    ensures Weight(c as int) == Value(c)
  {
  }

  lemma WeightsAreValues(p: string)
    requires Symbols(p)
    ensures Ascii(p) && Weights(CodesOf(p[..PIN_DATA_LEN])) == Values(p)
  {
    var ws := Weights(CodesOf(p[..PIN_DATA_LEN]));
    forall i | 0 <= i < PIN_DATA_LEN ensures ws[i] == Values(p)[i] {
      WeightIsValue(p[i]);
    }
  }

  lemma AcceptedByValues(p: string)
    requires Symbols(p)
    ensures Normalized(p).Some? <==> p[PIN_DATA_LEN] == Symbol(WeightedSum(Values(p)) % ALPHABET_LEN)
  {
    WeightsAreValues(p);
    assert Canonical(p) <==> p[PIN_DATA_LEN] == Symbol(WeightedSum(Values(p)) % ALPHABET_LEN);
    CanonicalIsItself(p);
  }

  /** Whether a PIN with other data but the same check digit is still accepted. */
  lemma AcceptedAgain(p: string, q: string)
    requires Canonical(p) && Symbols(q) && q[PIN_DATA_LEN] == p[PIN_DATA_LEN]
    ensures Normalized(q).Some? <==> (WeightedSum(Values(q)) - WeightedSum(Values(p))) % ALPHABET_LEN == 0
  {
    CanonicalIsItself(p);
    AcceptedByValues(p);
    AcceptedByValues(q);
    SameSymbol(WeightedSum(Values(p)), WeightedSum(Values(q)));
  }

  /** Typing another symbol for the data character at `i` goes unnoticed exactly
      when the weighted difference is a multiple of 32. */
  lemma SubstitutionPassesExactlyWhen(p: string, i: nat, b: nat)
    requires Canonical(p) && i < PIN_DATA_LEN && b < ALPHABET_LEN
    ensures Normalized(p[i := Symbol(b)]).Some? <==> (b - Value(p[i])) * (i + 1) % ALPHABET_LEN == 0
  {
    var q := p[i := Symbol(b)];
    ValuesAfter(p, i, b);
    AcceptedAgain(p, q);
    ChangeOne(Values(p), i, b);
  }

  lemma ValuesAfter(p: string, i: nat, b: nat)
    requires Symbols(p) && i < PIN_DATA_LEN && b < ALPHABET_LEN
    ensures Symbols(p[i := Symbol(b)]) && Values(p[i := Symbol(b)]) == Values(p)[i := b]
  {
    IndexOfSymbol(b);
  }

  /** Swapping two data characters goes unnoticed exactly when their difference
      times their distance is a multiple of 32. */
  lemma SwapPassesExactlyWhen(p: string, i: nat, j: nat)
    requires Canonical(p) && i < j < PIN_DATA_LEN
    ensures Normalized(p[i := p[j]][j := p[i]]).Some? <==> (j - i) * (Value(p[i]) - Value(p[j])) % ALPHABET_LEN == 0
  {
    var q := p[i := p[j]][j := p[i]];
    ValuesSwapped(p, i, j);
    AcceptedAgain(p, q);
    SumSwapped(Values(p), i, j);
  }

  lemma ValuesSwapped(p: string, i: nat, j: nat)
    requires Symbols(p) && i < j < PIN_DATA_LEN
    ensures Symbols(p[i := p[j]][j := p[i]])
    ensures Values(p[i := p[j]][j := p[i]]) == Values(p)[i := Values(p)[j]][j := Values(p)[i]]
  {
  }

  lemma SumSwapped(ws: seq<nat>, i: nat, j: nat)
    requires i < j < |ws|
    ensures WeightedSum(ws[i := ws[j]][j := ws[i]]) - WeightedSum(ws) == (j - i) * (ws[i] as int - ws[j] as int)
  {
    ChangeOne(ws, i, ws[j]);
    ChangeOne(ws[i := ws[j]], j, ws[i]);
    SwapArithmetic(ws[i], ws[j], i, j);
  }

  lemma SwapArithmetic(a: int, b: int, i: int, j: int)
    ensures (b - a) * (i + 1) + (a - b) * (j + 1) == (j - i) * (a - b)
  {
  }

  /** So every substitution at an odd weight is caught... */
  lemma OddWeightTypoCaught(p: string, i: nat, b: nat)
    requires Canonical(p) && i < PIN_DATA_LEN && i % 2 == 0 && b < ALPHABET_LEN && b != Value(p[i])
    ensures Normalized(p[i := Symbol(b)]) == None
  {
    SubstitutionPassesExactlyWhen(p, i, b);
    OddWeightsInvert(b - Value(p[i]), i + 1);
  }

  /** ...and every swap of unequal neighbours... */
  lemma NeighbourSwapCaught(p: string, i: nat)
    requires Canonical(p) && i + 1 < PIN_DATA_LEN && Value(p[i]) != Value(p[i + 1])
    ensures Normalized(p[i := p[i + 1]][i + 1 := p[i]]) == None
  {
    var a, b := Value(p[i]), Value(p[i + 1]);
    NeighboursDiffer(i, i + 1, a, b);
    SwapPassesExactlyWhen(p, i, i + 1);
  }

  lemma NeighboursDiffer(i: nat, j: nat, a: nat, b: nat)
    requires j == i + 1 && a < ALPHABET_LEN && b < ALPHABET_LEN && a != b
    ensures (j - i) * (a - b) % ALPHABET_LEN != 0
  {
    assert (j - i) * (a - b) == a - b;
  }

  /** ...and every change of the check digit itself. */
  lemma CheckDigitTypoCaught(p: string, c: char)
    requires Canonical(p) && IsSymbol(c) && c != p[PIN_DATA_LEN]
    ensures Normalized(p[PIN_DATA_LEN := c]) == None
  {
    var q := p[PIN_DATA_LEN := c];
    CanonicalIsItself(p);
    AcceptedByValues(p);
    AcceptedByValues(q);
    assert Values(q) == Values(p);
  }

  lemma OddWeightsInvert(d: int, w: nat)
    requires -32 < d < 32 && w <= 7 && w % 2 == 1
    ensures d * w % ALPHABET_LEN == 0 ==> d == 0
  {
    assert w == 1 || w == 3 || w == 5 || w == 7;
  }

  /** Not so at even weights: sixteen apart passes in the second place. */
  lemma EvenWeightsMiss(p: string)
    requires Canonical(p) && Value(p[1]) < 16
    ensures Normalized(p[1 := Symbol(Value(p[1]) + 16)]).Some?
  {
    SubstitutionPassesExactlyWhen(p, 1, Value(p[1]) + 16);
  }

  // ---------------------------------------------------------------------
  // Minting, display and entry
  // ---------------------------------------------------------------------

  lemma SymbolIsSymbol(i: nat)
    requires i < ALPHABET_LEN
    ensures IsSymbol(Symbol(i))
  {
    IndexOfSymbol(i);
  }

  lemma CheckedDataIsCanonical(data: string)
    requires |data| == PIN_DATA_LEN && forall i :: 0 <= i < |data| ==> IsSymbol(data[i])
    ensures Ascii(data) && Canonical(data + [CheckChar(CodesOf(data))])
  {
    var p := data + [CheckChar(CodesOf(data))];
    assert p[..PIN_DATA_LEN] == data;
    SymbolIsSymbol(WeightedSum(Weights(CodesOf(data))) % ALPHABET_LEN);
  }

  lemma AsciiCodes(s: string)
    requires Ascii(s)
    ensures ToUtf8(s) == CodesOf(s)
  {
    AsciiIsItsOwnUtf8(s);
  }

  /** `generate_pin`; `rng` is the source of random bytes. */
  method GeneratePin(rng: nat -> byte) returns (p: string)
    ensures Canonical(p) && forall i :: 0 <= i < PIN_DATA_LEN ==> p[i] == Symbol(rng(i) % ALPHABET_LEN)
  {
    p := "";
    while |p| < PIN_DATA_LEN
      invariant |p| <= PIN_DATA_LEN
      invariant forall i :: 0 <= i < |p| ==> p[i] == Symbol(rng(i) % ALPHABET_LEN) && IsSymbol(p[i])
    {
      SymbolIsSymbol(rng(|p|) % ALPHABET_LEN);
      p := p + [Symbol(rng(|p|) % ALPHABET_LEN)];
    }
    CheckedDataIsCanonical(p);
    AsciiCodes(p);
    var check := ComputeCheckChar(ToUtf8(p));
    p := p + [check];
  }

  function UpperCase(s: string): string { if s == [] then [] else [AsciiUpper(s[0])] + UpperCase(s[1..]) }

  /** Text of any other length is shown as it is, in upper case. */
  lemma {:induction false} UpperCaseIs(s: string)
    ensures |UpperCase(s)| == |s| && forall i :: 0 <= i < |s| ==> UpperCase(s)[i] == AsciiUpper(s[i])
  {
    if s == [] {
    } else {
      UpperCaseIs(s[1..]);
    }
  }

  /** How many characters take exactly `n` bytes. */
  function CharsIn(s: string, n: nat): Option<nat> {
    if n == 0 then Some(0)
    else if s == [] || n < |EncodeChar(s[0])| then None
    else
      var r := CharsIn(s[1..], n - |EncodeChar(s[0])|);
      if r.None? then None else Some(r.value + 1)
  }

  /** `format_pin`; None is the panic of slicing inside a character. */
  function Format(p: string): Option<string> {
    if |ToUtf8(p)| != PIN_LEN then Some(UpperCase(p))
    else
      var mid := CharsIn(p, PIN_GROUP_LEN);
      if mid.None? || mid.value > |p| then None else Some(p[..mid.value] + ['-'] + p[mid.value..])
  }

  lemma {:induction false} AsciiCharsIn(s: string, n: nat)
    requires Ascii(s) && n <= |s|
    ensures CharsIn(s, n) == Some(n)
  {
    if n == 0 {
    } else {
      AsciiCharsIn(s[1..], n - 1);
    }
  }

  lemma ShownAs(p: string)
    requires Canonical(p)
    ensures Format(p) == Some(p[..PIN_GROUP_LEN] + ['-'] + p[PIN_GROUP_LEN..])
  {
    AsciiIsItsOwnUtf8(p);
    AsciiCharsIn(p, PIN_GROUP_LEN);
  }

  /** Every PIN shown can be typed back as shown: formatting then normalizing
      gives the PIN again. */
  lemma ShownPinTypesBack(p: string)
    requires Canonical(p)
    ensures Format(p).Some? && Normalized(Format(p).value) == Some(p)
  {
    ShownAs(p);
    CanonicalIsItself(p);
    SeparatorsDoNotMatter(p[..PIN_GROUP_LEN], '-', p[PIN_GROUP_LEN..]);
    assert p == p[..PIN_GROUP_LEN] + p[PIN_GROUP_LEN..];
  }

  function Cap(s: string): string { if |s| > PIN_GROUP_LEN then s[..PIN_GROUP_LEN] else s }

  /** `split_pin_groups`. */
  function SplitGroups(first: string, second: string): (string, string) {
    if |first| > PIN_GROUP_LEN && second == [] then (Cap(first), Cap(first[PIN_GROUP_LEN..]))
    else (Cap(first), Cap(second))
  }

  /** A whole code pasted into the first field is kept, whole, exactly when it is
      no longer than a PIN; splitting again changes nothing. */
  lemma PastedCodeIsKept(first: string, second: string)
    ensures var (a, b) := SplitGroups(first, []);
            (a + b == first <==> |first| <= PIN_LEN) && a + b <= first && (|first| > PIN_LEN ==> |a + b| == PIN_LEN)
    ensures var (a, b) := SplitGroups(first, second);
            && |a| <= PIN_GROUP_LEN && |b| <= PIN_GROUP_LEN && SplitGroups(a, b) == (a, b)
            && a <= first && (if |first| <= PIN_GROUP_LEN then a == first else |a| == PIN_GROUP_LEN)
            && (second != [] ==> b <= second && (|second| <= PIN_GROUP_LEN ==> b == second)
                                 && (|second| > PIN_GROUP_LEN ==> |b| == PIN_GROUP_LEN))
  {
    var (a, b) := SplitGroups(first, []);
    if |first| > PIN_GROUP_LEN {
      assert first == first[..PIN_GROUP_LEN] + first[PIN_GROUP_LEN..];
      if |first| > PIN_LEN {
        assert a + b == first[..PIN_LEN];
      } else {
        assert a + b == first;
      }
    } else {
      assert a + b == first;
    }
  }
}

/** Which rotation buckets a joiner searches (pin.rs, pin_record.rs). */
module Rotation {
  const BUCKET_SECS: nat := 60
  const U64_MODULUS: nat := 0x1_0000_0000_0000_0000

  type Secs = t: nat | t < U64_MODULUS

  function Bucket(t: Secs): nat { t / BUCKET_SECS }

  /** `candidate_keys`: current, previous (wrapping below zero), next. */
  function SearchedBuckets(t: Secs): seq<nat> {
    var current := Bucket(t);
    [current, if current == 0 then U64_MODULUS - 1 else current - 1, current + 1]
  }

  /** A PIN minted at host time `m` is found by a lookup at joiner time `t`
      exactly when their buckets are at most one apart... */
  lemma FoundExactlyWhen(m: Secs, t: Secs)
    ensures Bucket(m) in SearchedBuckets(t) <==> -1 <= Bucket(m) - Bucket(t) <= 1
  {
    assert Bucket(m) < U64_MODULUS - 1;
    assert SearchedBuckets(t)[0] == Bucket(t) && SearchedBuckets(t)[2] == Bucket(t) + 1;
    assert Bucket(t) > 0 ==> SearchedBuckets(t)[1] == Bucket(t) - 1;
  }

  /** ...so always within a minute of each other, never two minutes or more, and
      in between exactly when the earlier clock was early enough in its minute. */
  lemma FoundByAge(m: Secs, t: Secs)
    ensures -60 <= t - m <= 60 ==> Bucket(m) in SearchedBuckets(t)
    ensures 60 < t - m < 120 ==> (Bucket(m) in SearchedBuckets(t) <==> m % 60 + (t - m) < 120)
    ensures 60 < m - t < 120 ==> (Bucket(m) in SearchedBuckets(t) <==> t % 60 + (m - t) < 120)
    ensures t - m >= 120 || m - t >= 120 ==> Bucket(m) !in SearchedBuckets(t)
  {
    FoundExactlyWhen(m, t);
  }
}
