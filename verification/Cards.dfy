/** Identity cards (auth.rs): minting, parsing and the signed validity window. A
    card's text is its signed event; signature checking and the JSON encoding
    are ideal. */
module Cards {
  import opened Wrappers
  import opened KeyAuth
  import opened Identity
  import Messages

  const MAX_TRUSTED_PEERS: nat := 128
  const IDENTITY_CARD_KIND: nat := 30382
  const IDENTITY_CARD_DTAG := "duocb:identity-card:v4"
  const IDENTITY_CARD_VERSION: nat := 4
  const CARD_TTL_SECS: nat := 30 * 24 * 60 * 60
  const CLOCK_SKEW_GRACE_SECS: nat := 5 * 60
  const CARD_RENEW_BEFORE_SECS: nat := 7 * 24 * 60 * 60

  const U64_MAX: nat := 0xFFFF_FFFF_FFFF_FFFF

  type Secs = n: nat | n <= U64_MAX

  function SaturatingAdd(a: Secs, b: nat): Secs { if a + b > U64_MAX then U64_MAX else a + b }

  datatype Content = Content(version: nat, name: string, notBefore: Secs, notAfter: Secs)

  /** A signed event as it travels; `size` is the length of its encoding. */
  datatype Event = Event(signer: Key, kind: nat, dtag: Option<string>, content: Option<Content>,
                         createdAt: Secs, expiration: Option<Secs>, verifies: bool, size: nat)

  datatype Card = Card(event: Event, name: string, notBefore: Secs, notAfter: Secs)

  /** `IdentityCard::from_event`. */
  function FromEvent(e: Event): Option<Card> {
    if !e.verifies || e.kind != IDENTITY_CARD_KIND || e.dtag != Some(IDENTITY_CARD_DTAG) || e.content.None? then None
    else
      var c := e.content.value;
      if c.version != IDENTITY_CARD_VERSION || SplitDisplayIdentity(c.name).None? then None
      else if c.notAfter <= c.notBefore || c.notAfter - c.notBefore > CARD_TTL_SECS then None
      else if e.createdAt != c.notBefore || e.expiration != Some(c.notAfter) then None
      else if e.size > Messages.MAX_CARD_SIZE then None
      else Some(Card(e, c.name, c.notBefore, c.notAfter))
  }

  /** Text a user pastes or a file holds: an event's JSON, or something else. */
  datatype Text = Encoded(event: Event) | NotAnEvent(size: nat)

  /** `IdentityCard::parse`. */
  function Parse(t: Text): Option<Card> {
    if t.NotAnEvent? || t.event.size > Messages.MAX_CARD_SIZE then None else FromEvent(t.event)
  }

  function Encode(c: Card): Text { Encoded(c.event) }

  /** What every card in the program's hands satisfies. */
  predicate Genuine(c: Card) { FromEvent(c.event) == Some(c) }

  /** `Identity::card_valid_from`: the event the identity signs. `size` is the
      length its encoding turns out to have; a window past the clock's range
      mints nothing. */
  function Mint(me: Key, name: string, suffix: string, notBefore: Secs, size: nat): Option<Card> {
    if !ValidName(name) || SplitDisplayIdentity(DisplayIdentity(name, suffix)).None? then None
    else if notBefore + CARD_TTL_SECS > U64_MAX then None
    else
      var notAfter := notBefore + CARD_TTL_SECS;
      var content := Content(IDENTITY_CARD_VERSION, DisplayIdentity(name, suffix), notBefore, notAfter);
      FromEvent(Event(me, IDENTITY_CARD_KIND, Some(IDENTITY_CARD_DTAG), Some(content),
                      notBefore, Some(notAfter), true, size))
  }

  predicate NotYetValidAt(c: Card, now: Secs) { c.notBefore > SaturatingAdd(now, CLOCK_SKEW_GRACE_SECS) }

  predicate ValidAt(c: Card, now: Secs) { !NotYetValidAt(c, now) && now < c.notAfter }

  function RemainingSecsAt(c: Card, now: Secs): nat { if ValidAt(c, now) then c.notAfter - now else 0 }

  // ---------------------------------------------------------------------
  // What a card guarantees
  // ---------------------------------------------------------------------

  /** Minting works exactly for the names and suffixes the program allows, while
      the card fits and its window is a time; the card then names its owner,
      parses back from its own text, and lasts the full month. */
  lemma MintedCardsParse(me: Key, name: string, suffix: string, notBefore: Secs, size: nat)
    ensures var c := Mint(me, name, suffix, notBefore, size);
            && (c.Some? <==> ValidName(name) && ValidSuffix(suffix) && size <= Messages.MAX_CARD_SIZE
                             && notBefore + CARD_TTL_SECS <= U64_MAX)
            && (c.Some? ==>
                  && Genuine(c.value) && Parse(Encode(c.value)) == c
                  && c.value.event.signer == me && SplitDisplayIdentity(c.value.name) == Some((name, suffix))
                  && RemainingSecsAt(c.value, notBefore) == CARD_TTL_SECS)
  {
    SplitUndoesDisplay(name, suffix);
  }

  /** The event an identity signs for a name and a window. */
  function Signed(me: Key, name: string, suffix: string, notBefore: Secs, notAfter: Secs, size: nat): Event {
    Event(me, IDENTITY_CARD_KIND, Some(IDENTITY_CARD_DTAG),
          Some(Content(IDENTITY_CARD_VERSION, DisplayIdentity(name, suffix), notBefore, notAfter)),
          notBefore, Some(notAfter), true, size)
  }

  /** The names, windows and sizes a card may have. */
  predicate Permitted(name: string, suffix: string, notBefore: Secs, notAfter: Secs, size: nat) {
    && ValidName(name) && ValidSuffix(suffix) && size <= Messages.MAX_CARD_SIZE
    && notBefore < notAfter <= notBefore + CARD_TTL_SECS
  }

  ghost predicate WellSigned(e: Event) {
    exists name, suffix, notBefore, notAfter ::
      && Permitted(name, suffix, notBefore, notAfter, e.size)
      && e == Signed(e.signer, name, suffix, notBefore, notAfter, e.size)
  }

  /** An event is accepted as a card exactly when it is, field for field, what the
      key it names signs for a permitted name and window: nothing forged, altered,
      of another kind or version, or saying one thing in its envelope and another
      inside. */
  lemma AcceptedExactlyWhenWellSigned(e: Event)
    ensures FromEvent(e).Some? <==> WellSigned(e)
  {
    if FromEvent(e).Some? {
      var c := e.content.value;
      var (name, suffix) := SplitDisplayIdentity(c.name).value;
      DisplayUndoesSplit(c.name);
      assert Permitted(name, suffix, c.notBefore, c.notAfter, e.size);
      assert e == Signed(e.signer, name, suffix, c.notBefore, c.notAfter, e.size);
    }
    if WellSigned(e) {
      var name, suffix, notBefore, notAfter :|
        && Permitted(name, suffix, notBefore, notAfter, e.size)
        && e == Signed(e.signer, name, suffix, notBefore, notAfter, e.size);
      SplitUndoesDisplay(name, suffix);
    }
  }

  /** And one that lasts the full month is exactly what its key mints. */
  lemma FullMonthCardsAreMinted(e: Event)
    requires FromEvent(e).Some? && FromEvent(e).value.notAfter == FromEvent(e).value.notBefore + CARD_TTL_SECS
    ensures exists name, suffix :: Mint(e.signer, name, suffix, e.createdAt, e.size) == FromEvent(e)
  {
    var c := e.content.value;
    var (name, suffix) := SplitDisplayIdentity(c.name).value;
    DisplayUndoesSplit(c.name);
    assert Mint(e.signer, name, suffix, e.createdAt, e.size) == FromEvent(e);
  }

  /** A card says what its signed event says. */
  lemma CardsQuoteTheirEvent(t: Text)
    ensures Parse(t).Some? ==>
              var c := Parse(t).value;
              && t == Encoded(c.event) && WellSigned(c.event)
              && c.event.content == Some(Content(IDENTITY_CARD_VERSION, c.name, c.notBefore, c.notAfter))
  {
    if Parse(t).Some? {
      AcceptedExactlyWhenWellSigned(t.event);
    }
  }

  /** The window on the reader's own clock, skew grace on the opening edge only. */
  lemma WindowEdges(c: Card, now: Secs)
    requires Genuine(c)
    ensures ValidAt(c, now) <==> c.notBefore <= now + CLOCK_SKEW_GRACE_SECS && now < c.notAfter
    ensures RemainingSecsAt(c, now) == 0 <==> !ValidAt(c, now)
    ensures ValidAt(c, now) ==> now + RemainingSecsAt(c, now) == c.notAfter
    ensures NotYetValidAt(c, now) <==> !ValidAt(c, now) && now < c.notAfter
  {
  }

  /** However fast its issuer's clock ran, no reader honours a card at two moments
      a month and five minutes apart. */
  lemma HonouredForAMonthAtMost(c: Card, early: Secs, late: Secs)
    requires Genuine(c) && ValidAt(c, early) && ValidAt(c, late)
    ensures late - early < CARD_TTL_SECS + CLOCK_SKEW_GRACE_SECS
  {
    WindowEdges(c, early);
    WindowEdges(c, late);
  }
}
