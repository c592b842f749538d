/** The desktop app's trust transitions (app/mod.rs): whose identity this device
    has, which devices it trusts, and what of that is on disk. */
module App {
  import opened Wrappers
  import opened KeyAuth
  import opened Identity
  import opened Cards
  import opened Config
  import Messages

  // ---------------------------------------------------------------------
  // The trust state
  // ---------------------------------------------------------------------

  datatype Trust = Trust(identity: Key, savedName: Option<string>, suffix: string,
                         selfCard: Option<Card>, peers: seq<Card>)

  function Signer(c: Card): Key { c.event.signer }

  predicate NamedBy(t: Trust, c: Card, name: string) {
    Genuine(c) && Signer(c) == t.identity && ValidName(name) && c.name == DisplayIdentity(name, t.suffix)
  }

  ghost predicate PeersWhole(identity: Key, peers: seq<Card>) {
    && |peers| <= MAX_TRUSTED_PEERS
    && (forall i :: 0 <= i < |peers| ==> Genuine(peers[i]) && Signer(peers[i]) != identity)
    && forall i, j :: 0 <= i < j < |peers| ==> Signer(peers[i]) != Signer(peers[j])
  }

  /** Name and card go together and match the key; peers are other devices, each
      once, within the limit. */
  ghost predicate Whole(t: Trust) {
    && ValidSuffix(t.suffix)
    && (t.savedName.Some? <==> t.selfCard.Some?)
    && (t.savedName.Some? ==> NamedBy(t, t.selfCard.value, t.savedName.value))
    && PeersWhole(t.identity, t.peers)
  }

  function Texts(cards: seq<Card>): seq<Text> { seq(|cards|, i requires 0 <= i < |cards| => Encode(cards[i])) }

  /** What `save_configure_config` writes. */
  function ToSettings(t: Trust): Settings {
    Settings(Nsec(t.identity),
             Public(CONFIG_VERSION, t.suffix, t.savedName,
                    if t.selfCard.Some? then Some(Encode(t.selfCard.value)) else None, Texts(t.peers)))
  }

  // ---------------------------------------------------------------------
  // Starting from settings
  // ---------------------------------------------------------------------

  function PeersFrom(identity: Key, texts: seq<Text>): seq<Card> {
    if texts == [] then []
    else
      var card := Parse(texts[0]);
      (if card.Some? && Signer(card.value) != identity then [card.value] else []) + PeersFrom(identity, texts[1..])
  }

  /** `App::new`, before it renews a stale card. The secret parses, or startup
      would not have got this far. */
  function FromSettings(s: Settings): Trust
    requires s.secret.Nsec?
  {
    var me := s.secret.key;
    var name := if s.pub.myName.Some? && ValidName(s.pub.myName.value) then s.pub.myName else None;
    var card := if s.pub.selfCard.Some? then Parse(s.pub.selfCard.value) else None;
    var mine := card.Some? && Signer(card.value) == me && name.Some?
                && card.value.name == DisplayIdentity(name.value, s.pub.suffix);
    var peers := PeersFrom(me, s.pub.peers);
    Trust(me, name, s.pub.suffix, if mine then card else None,
          if |peers| > MAX_TRUSTED_PEERS then peers[..MAX_TRUSTED_PEERS] else peers)
  }

  lemma GenuineCardsParse(c: Card)
    requires Genuine(c)
    ensures Parse(Encode(c)) == Some(c) && CardKey(Encode(c)) == Some(Signer(c))
  {
  }

  lemma {:induction false} PeersComeBack(identity: Key, peers: seq<Card>)
    requires forall i :: 0 <= i < |peers| ==> Genuine(peers[i]) && Signer(peers[i]) != identity
    ensures PeersFrom(identity, Texts(peers)) == peers
  {
    if peers == [] {
    } else {
      GenuineCardsParse(peers[0]);
      assert Texts(peers)[1..] == Texts(peers[1..]);
      PeersComeBack(identity, peers[1..]);
    }
  }

  /** A whole trust state is written as settings the loader accepts, and read
      back as itself. */
  lemma WholeStatesReload(t: Trust)
    requires Whole(t)
    ensures Accepts(ToSettings(t)) && FromSettings(ToSettings(t)) == t
  {
    PeersComeBack(t.identity, t.peers);
    if t.selfCard.Some? {
      GenuineCardsParse(t.selfCard.value);
    }
    AcceptedPeers(t.identity, t.peers);
  }

  lemma AcceptedPeers(identity: Key, peers: seq<Card>)
    requires PeersWhole(identity, peers)
    ensures PeersAccepted(identity, Texts(peers))
  {
    var keys := CardKeys(Texts(peers));
    forall i | 0 <= i < |peers| ensures keys[i] == Some(Signer(peers[i])) {
      GenuineCardsParse(peers[i]);
    }
  }

  /** Cards of other devices are all kept, in order. */
  lemma {:induction false} PeersFromAccepted(identity: Key, texts: seq<Text>)
    requires forall i :: 0 <= i < |texts| ==> CardKey(texts[i]).Some? && CardKey(texts[i]) != Some(identity)
    ensures var cards := PeersFrom(identity, texts);
            |cards| == |texts| && forall i :: 0 <= i < |texts| ==> Parse(texts[i]) == Some(cards[i])
  {
    if texts == [] {
    } else {
      PeersFromAccepted(identity, texts[1..]);
    }
  }

  lemma ParsedCardsAreGenuine(t: Text)
    ensures Parse(t).Some? ==> Genuine(Parse(t).value) && Encode(Parse(t).value) == t
  {
  }

  /** Accepted settings start the app in a whole trust state that would be saved
      as those very settings: starting drops nothing the loader let through. */
  lemma AcceptedSettingsStart(s: Settings)
    requires Accepts(s)
    ensures Whole(FromSettings(s)) && ToSettings(FromSettings(s)) == s
  {
    var texts, me := s.pub.peers, s.secret.key;
    assert forall i :: 0 <= i < |texts| ==> CardKeys(texts)[i] == CardKey(texts[i]);
    PeersFromAccepted(me, texts);
    AcceptedPeersAreWhole(me, texts, PeersFrom(me, texts));
    if s.pub.selfCard.Some? {
      ParsedCardsAreGenuine(s.pub.selfCard.value);
    }
  }

  lemma AcceptedPeersAreWhole(identity: Key, texts: seq<Text>, cards: seq<Card>)
    requires PeersAccepted(identity, texts)
    requires |cards| == |texts| && forall i :: 0 <= i < |texts| ==> Parse(texts[i]) == Some(cards[i])
    ensures PeersWhole(identity, cards) && Texts(cards) == texts
  {
    var keys := CardKeys(texts);
    forall i | 0 <= i < |texts|
      ensures Genuine(cards[i]) && keys[i] == Some(Signer(cards[i])) && Encode(cards[i]) == texts[i]
    {
      ParsedCardsAreGenuine(texts[i]);
    }
  }

  // ---------------------------------------------------------------------
  // The transitions, on values
  // ---------------------------------------------------------------------

  /** The app with its disk. `clean` says that the disk holds this very trust. */
  datatype Model = Model(trust: Trust, disk: Disk, clean: bool)

  function Saved(m: Model, f: SaveFaults): Model {
    var run := SaveRun(m.disk, ToSettings(m.trust), f);
    Model(m.trust, run.disks[|run.disks| - 1], run.ok)
  }

  /** `char::is_whitespace`. */
  predicate Whitespace(c: char) {
    var n := c as int;
    9 <= n <= 13 || n == 0x20 || n == 0x85 || n == 0xA0 || n == 0x1680 || 0x2000 <= n <= 0x200A
    || n == 0x2028 || n == 0x2029 || n == 0x202F || n == 0x205F || n == 0x3000
  }

  function Trim(s: string): string {
    if s == [] then [] else if Whitespace(s[0]) then Trim(s[1..])
    else if Whitespace(s[|s| - 1]) then Trim(s[..|s| - 1]) else s
  }

  /** The user's (and the clock's) operations; `size` is how long the encoding of
      a card minted now turns out. */
  datatype Op =
    | Generate(key: Key)                            // begin_generate_identity: nothing is saved yet
    | Import(typed: Nsec)                           // use_imported_identity
    | SaveName(typedName: string, now: Secs, size: nat)
    | Renew(now: Secs, size: nat)                   // renew_self_card_if_stale
    | ResetIdentity(key: Key)
    | AddPeer(pasted: Text, now: Secs)              // import_peer_card and the card-setup confirmation
    | RemovePeer(gone: Key)

  function Fresh(t: Trust, key: Key): Trust { Trust(key, None, t.suffix, None, []) }

  /** `freshly_minted_self_card`. */
  function Renewed(t: Trust, now: Secs, size: nat): Option<Card> {
    if t.selfCard.None? || t.savedName.None? then None
    else if RemainingSecsAt(t.selfCard.value, now) > CARD_RENEW_BEFORE_SECS then None
    else Mint(t.identity, t.savedName.value, t.suffix, now, size)
  }

  function Find(peers: seq<Card>, key: Key): (r: Option<nat>)
    ensures r.Some? ==> r.value < |peers| && Signer(peers[r.value]) == key
    ensures r.None? <==> forall i :: 0 <= i < |peers| ==> Signer(peers[i]) != key
  {
    if peers == [] then None
    else if Signer(peers[0]) == key then Some(0)
    else
      var r := Find(peers[1..], key);
      if r.None? then None else Some(r.value + 1)
  }

  function Without(peers: seq<Card>, key: Key): seq<Card> {
    if peers == [] then []
    else
      var rest := Without(peers[..|peers| - 1], key);
      if Signer(peers[|peers| - 1]) == key then rest else rest + [peers[|peers| - 1]]
  }

  /** Whether a card may be stored. */
  predicate Storable(t: Trust, c: Card, now: Secs) {
    Signer(c) != t.identity && ValidAt(c, now) && (Find(t.peers, Signer(c)).Some? || |t.peers| < MAX_TRUSTED_PEERS)
  }

  function WithPeer(peers: seq<Card>, c: Card): seq<Card> {
    var at := Find(peers, Signer(c));
    if at.Some? then peers[at.value := c] else peers + [c]
  }

  /** The trust an operation changes to and saves, if it does. */
  function Next(t: Trust, op: Op): Option<Trust> {
    match op
    case Generate(_) => None
    case Import(typed) => if typed.Nsec? then Some(Fresh(t, typed.key)) else None
    case SaveName(typedName, now, size) =>
      var name := Trim(typedName);
      var card := Mint(t.identity, name, t.suffix, now, size);
      if !ValidName(name) || card.None? then None else Some(t.(savedName := Some(name), selfCard := card))
    case Renew(now, size) =>
      var card := Renewed(t, now, size);
      if card.None? then None else Some(t.(selfCard := card))
    case ResetIdentity(key) => Some(Fresh(t, key))
    case AddPeer(pasted, now) =>
      var card := Parse(pasted);
      if card.None? || !Storable(t, card.value, now) then None else Some(t.(peers := WithPeer(t.peers, card.value)))
    case RemovePeer(gone) =>
      var rest := Without(t.peers, gone);
      if |rest| == |t.peers| then None else Some(t.(peers := rest))
  }

  function Apply(m: Model, op: Op, f: SaveFaults): Model {
    if op.Generate? then Model(Fresh(m.trust, op.key), m.disk, false)
    else
      var next := Next(m.trust, op);
      if next.None? then m else Saved(m.(trust := next.value), f)
  }

  function Run(m: Model, ops: seq<(Op, SaveFaults)>): Model
    decreases |ops|
  {
    if ops == [] then m else Run(Apply(m, ops[0].0, ops[0].1), ops[1..])
  }

  // ---------------------------------------------------------------------
  // What every sequence of operations keeps
  // ---------------------------------------------------------------------

  ghost predicate Inv(m: Model) {
    && Whole(m.trust)
    && (m.clean ==> m.disk.config == File(Json(ToSettings(m.trust).pub), true)
                    && m.disk.cred == Stored(Nsec(m.trust.identity)))
  }

  /** The app as it starts, before it renews a stale card. */
  function Started(s: Settings, disk: Disk): Model
    requires s.secret.Nsec?
  {
    var t := FromSettings(s);
    Model(t, disk, disk.config == File(Json(ToSettings(t).pub), true) && disk.cred == Stored(Nsec(t.identity)))
  }

  /** Starting from settings the loader accepted, or from the minted ones of a
      first launch, is starting whole; the disk is up to date exactly when it
      holds those settings. */
  lemma StartsWhole(s: Settings, disk: Disk)
    requires Accepts(s)
    ensures Inv(Started(s, disk))
    ensures Started(s, disk).clean <==> disk.config == File(Json(s.pub), true) && disk.cred == Stored(s.secret)
  {
    AcceptedSettingsStart(s);
  }

  lemma SaveKeepsInv(m: Model, f: SaveFaults)
    requires Whole(m.trust)
    ensures Inv(Saved(m, f))
  {
    SaveReports(m.disk, ToSettings(m.trust), f);
  }

  /** Removing a device removes it and nothing else. */
  lemma {:induction false} WithoutIs(peers: seq<Card>, key: Key, c: Card)
    ensures c in Without(peers, key) <==> c in peers && Signer(c) != key
  {
    if peers == [] {
    } else {
      WithoutIs(peers[..|peers| - 1], key, c);
    }
  }

  lemma {:induction false} WithoutKeepsWhole(identity: Key, peers: seq<Card>, key: Key)
    requires PeersWhole(identity, peers)
    ensures PeersWhole(identity, Without(peers, key)) && |Without(peers, key)| <= |peers|
  {
    if peers == [] {
    } else {
      var before, last := peers[..|peers| - 1], peers[|peers| - 1];
      WithoutKeepsWhole(identity, before, key);
      if Signer(last) != key {
        var rest := Without(before, key);
        forall i | 0 <= i < |rest| ensures Signer(rest[i]) != Signer(last) {
          WithoutIs(before, key, rest[i]);
        }
        GrowKeepsWhole(identity, rest, last);
      }
    }
  }

  lemma WithPeerKeepsWhole(identity: Key, peers: seq<Card>, c: Card)
    requires PeersWhole(identity, peers) && Genuine(c) && Signer(c) != identity
    requires Find(peers, Signer(c)).Some? || |peers| < MAX_TRUSTED_PEERS
    ensures PeersWhole(identity, WithPeer(peers, c))
  {
    var at := Find(peers, Signer(c));
    if at.Some? {
      RefreshKeepsWhole(identity, peers, at.value, c);
    } else {
      GrowKeepsWhole(identity, peers, c);
    }
  }

  lemma RefreshKeepsWhole(identity: Key, peers: seq<Card>, at: nat, c: Card)
    requires PeersWhole(identity, peers) && Genuine(c)
    requires at < |peers| && Signer(peers[at]) == Signer(c)
    ensures PeersWhole(identity, peers[at := c])
  {
  }

  lemma GrowKeepsWhole(identity: Key, peers: seq<Card>, c: Card)
    requires PeersWhole(identity, peers) && Genuine(c) && Signer(c) != identity && |peers| < MAX_TRUSTED_PEERS
    requires forall i :: 0 <= i < |peers| ==> Signer(peers[i]) != Signer(c)
    ensures PeersWhole(identity, peers + [c])
  {
  }

  /** Storing a card touches no other device's. */
  lemma WithPeerIs(peers: seq<Card>, c: Card, d: Card)
    requires forall i, j :: 0 <= i < j < |peers| ==> Signer(peers[i]) != Signer(peers[j])
    ensures d in WithPeer(peers, c) <==> d == c || (d in peers && Signer(d) != Signer(c))
  {
    var at := Find(peers, Signer(c));
    var after := WithPeer(peers, c);
    var j := if at.Some? then at.value else |peers|;
    assert after[j] == c;
    if d in peers && Signer(d) != Signer(c) {
      var i :| 0 <= i < |peers| && peers[i] == d;
      assert after[i] == d;
    }
    if d in after && d != c {
      var i :| 0 <= i < |after| && after[i] == d;
      assert i != j && peers[i] == d;
    }
  }

  lemma MintedForMe(t: Trust, name: string, now: Secs, size: nat)
    ensures var c := Mint(t.identity, name, t.suffix, now, size);
            c.Some? ==> NamedBy(t, c.value, name)
  {
    MintedCardsParse(t.identity, name, t.suffix, now, size);
    var c := Mint(t.identity, name, t.suffix, now, size);
    if c.Some? {
      assert c.value.name == DisplayIdentity(name, t.suffix);
    }
  }

  lemma NextIsWhole(t: Trust, op: Op)
    requires Whole(t)
    ensures Next(t, op).Some? ==> Whole(Next(t, op).value)
  {
    match op {
      case Generate(_) =>
      case Import(_) =>
      case ResetIdentity(_) =>
      case SaveName(typedName, now, size) => MintedForMe(t, Trim(typedName), now, size);
      case Renew(now, size) =>
        if Renewed(t, now, size).Some? {
          MintedForMe(t, t.savedName.value, now, size);
        }
      case AddPeer(pasted, now) =>
        var card := Parse(pasted);
        if card.Some? && Storable(t, card.value, now) {
          ParsedCardsAreGenuine(pasted);
          WithPeerKeepsWhole(t.identity, t.peers, card.value);
        }
      case RemovePeer(gone) => WithoutKeepsWhole(t.identity, t.peers, gone);
    }
  }

  lemma ApplyKeepsInv(m: Model, op: Op, f: SaveFaults)
    requires Inv(m)
    ensures Inv(Apply(m, op, f))
  {
    NextIsWhole(m.trust, op);
    if Next(m.trust, op).Some? {
      SaveKeepsInv(m.(trust := Next(m.trust, op).value), f);
    }
  }

  lemma {:induction false} RunKeepsInv(m: Model, ops: seq<(Op, SaveFaults)>)
    requires Inv(m)
    ensures Inv(Run(m, ops))
    decreases |ops|
  {
    if ops == [] {
    } else {
      ApplyKeepsInv(m, ops[0].0, ops[0].1);
      RunKeepsInv(Apply(m, ops[0].0, ops[0].1), ops[1..]);
    }
  }

  /** Everything the app persists reloads. After any sequence of operations, with
      any save failing in any way, the trust in memory is whole; and when the
      last save went through with nothing changed since, the next start is
      accepted and holds exactly that trust. */
  lemma EverythingPersistedReloads(m: Model, ops: seq<(Op, SaveFaults)>)
    requires Inv(m)
    ensures var n := Run(m, ops);
            && Whole(n.trust)
            && (n.clean ==> var start := StartupFrom(n.disk.config, n.disk.cred);
                            start == Restored(ToSettings(n.trust)) && FromSettings(start.s) == n.trust)
  {
    RunKeepsInv(m, ops);
    WholeStatesReload(Run(m, ops).trust);
  }

  /** Every operation but generating an identity, which waits for its name, leaves
      the disk up to date if its save goes through. */
  lemma OperationsSave(m: Model, op: Op)
    requires m.clean && !op.Generate?
    ensures Apply(m, op, SaveFaults(Fine, Fine, Fine, Fine, Fine)).clean
  {
  }

  /** After a renewal the card handed out has over a week left, whatever it had
      before, if minting was possible at all. */
  lemma RenewedCardHasLife(m: Model, now: Secs, size: nat, f: SaveFaults)
    requires Inv(m) && m.trust.selfCard.Some? && size <= Messages.MAX_CARD_SIZE && now + CARD_TTL_SECS <= U64_MAX
    ensures var card := Apply(m, Renew(now, size), f).trust.selfCard;
            card.Some? && RemainingSecsAt(card.value, now) > CARD_RENEW_BEFORE_SECS
  {
    MintedCardsParse(m.trust.identity, m.trust.savedName.value, m.trust.suffix, now, size);
  }

  // ---------------------------------------------------------------------
  // What each operation does
  // ---------------------------------------------------------------------

  /** A new identity of any kind ends with exactly the new key, no name, card or
      peer, and the installation's suffix. */
  lemma NewIdentityForgetsTheOld(m: Model, key: Key, f: SaveFaults)
    ensures forall op <- [Generate(key), Import(Nsec(key)), ResetIdentity(key)] ::
              Apply(m, op, f).trust == Trust(key, None, m.trust.suffix, None, [])
    ensures Apply(m, Generate(key), f).disk == m.disk && Apply(m, Import(BadNsec), f) == m
  {
  }

  /** Removing a device forgets its card and nothing else, in order; it does
      nothing exactly when there is none. */
  lemma RemovingForgetsOneDevice(t: Trust, gone: Key, c: Card)
    ensures Next(t, RemovePeer(gone)).None? <==> forall i :: 0 <= i < |t.peers| ==> Signer(t.peers[i]) != gone
    ensures Next(t, RemovePeer(gone)).Some? ==>
              var n := Next(t, RemovePeer(gone)).value;
              && (c in n.peers <==> c in t.peers && Signer(c) != gone)
              && n == t.(peers := n.peers)
  {
    WithoutIs(t.peers, gone, c);
    WithoutShrinks(t.peers, gone);
  }

  lemma {:induction false} WithoutShrinks(peers: seq<Card>, gone: Key)
    ensures |Without(peers, gone)| <= |peers|
    ensures |Without(peers, gone)| == |peers| <==> forall i :: 0 <= i < |peers| ==> Signer(peers[i]) != gone
  {
    if peers == [] {
    } else {
      WithoutShrinks(peers[..|peers| - 1], gone);
    }
  }

  /** The devices left keep their order. */
  lemma {:induction false} RemovingKeepsOrder(a: seq<Card>, b: seq<Card>, gone: Key)
    ensures Without(a + b, gone) == Without(a, gone) + Without(b, gone)
  {
    if b == [] {
      assert a + b == a && Without(a, gone) + [] == Without(a, gone);
    } else {
      var n := |b| - 1;
      assert (a + b)[..|a + b| - 1] == a + b[..n] && (a + b)[|a + b| - 1] == b[n];
      RemovingKeepsOrder(a, b[..n], gone);
    }
  }

  lemma StorableExactlyWhen(t: Trust, c: Card, now: Secs)
    ensures Storable(t, c, now)
       <==> && Signer(c) != t.identity && ValidAt(c, now)
            && ((exists p <- t.peers :: Signer(p) == Signer(c)) || |t.peers| < MAX_TRUSTED_PEERS)
  {
    if p :| p in t.peers && Signer(p) == Signer(c) {
      var i :| 0 <= i < |t.peers| && t.peers[i] == p;
    }
  }

  /** A pasted card is stored exactly when it is one, names another device, is in
      its window, and is known or within the limit. */
  lemma AddingIsAllowedExactlyWhen(t: Trust, pasted: Text, now: Secs)
    ensures Next(t, AddPeer(pasted, now)).Some?
       <==> && Parse(pasted).Some?
            && var c := Parse(pasted).value;
               && Signer(c) != t.identity && ValidAt(c, now)
               && ((exists p <- t.peers :: Signer(p) == Signer(c)) || |t.peers| < MAX_TRUSTED_PEERS)
  {
    if Parse(pasted).Some? {
      StorableExactlyWhen(t, Parse(pasted).value, now);
    }
  }

  /** It replaces its owner's card or joins at the end; every other device keeps its
      card and place, and nothing else changes. */
  lemma AddingStoresOneDevice(t: Trust, pasted: Text, now: Secs, d: Card)
    requires PeersWhole(t.identity, t.peers) && Next(t, AddPeer(pasted, now)).Some?
    ensures var c, n := Parse(pasted).value, Next(t, AddPeer(pasted, now)).value;
            && n == t.(peers := n.peers)
            && (d in n.peers <==> d == c || (d in t.peers && Signer(d) != Signer(c)))
            && |t.peers| <= |n.peers| <= |t.peers| + 1
            && forall i :: 0 <= i < |t.peers| && Signer(t.peers[i]) != Signer(c) ==> n.peers[i] == t.peers[i]
  {
    WithPeerIs(t.peers, Parse(pasted).value, d);
  }

  /** Naming the device sets exactly the trimmed name and a card for it under the
      current key that has its whole month ahead, or does nothing. */
  lemma NamingMintsACard(t: Trust, typed: string, now: Secs, size: nat)
    requires ValidSuffix(t.suffix)
    ensures var next := Next(t, SaveName(typed, now, size));
            && (next.Some? <==> ValidName(Trim(typed)) && size <= Messages.MAX_CARD_SIZE
                                && now + CARD_TTL_SECS <= U64_MAX)
            && (next.Some? ==>
                  var n := next.value;
                  && n == t.(savedName := Some(Trim(typed)), selfCard := n.selfCard)
                  && n.selfCard.Some? && NamedBy(n, n.selfCard.value, Trim(typed))
                  && RemainingSecsAt(n.selfCard.value, now) == CARD_TTL_SECS)
  {
    MintedCardsParse(t.identity, Trim(typed), t.suffix, now, size);
    MintedForMe(t, Trim(typed), now, size);
  }

  /** Renewing replaces exactly a card with a week or less left, by one for the same
      name with its month ahead. */
  lemma RenewingReplacesAStaleCard(t: Trust, now: Secs, size: nat)
    requires Whole(t)
    ensures var next := Next(t, Renew(now, size));
            && (next.Some? <==> t.selfCard.Some? && RemainingSecsAt(t.selfCard.value, now) <= CARD_RENEW_BEFORE_SECS
                                && size <= Messages.MAX_CARD_SIZE && now + CARD_TTL_SECS <= U64_MAX)
            && (next.Some? ==>
                  var n := next.value;
                  && n == t.(selfCard := n.selfCard) && n.selfCard.Some?
                  && NamedBy(n, n.selfCard.value, t.savedName.value)
                  && RemainingSecsAt(n.selfCard.value, now) == CARD_TTL_SECS)
  {
    if t.selfCard.Some? {
      MintedCardsParse(t.identity, t.savedName.value, t.suffix, now, size);
      MintedForMe(t, t.savedName.value, now, size);
    }
  }

  /** Trimming takes whitespace off both ends, all of it, and nothing else. */
  lemma {:induction false} TrimIs(s: string) returns (i: nat, j: nat)
    ensures i <= j <= |s| && Trim(s) == s[i..j]
    ensures (forall k :: 0 <= k < i || j <= k < |s| ==> Whitespace(s[k]))
    ensures Trim(s) != [] ==> !Whitespace(s[i]) && !Whitespace(s[j - 1])
    ensures Trim(s) == [] <==> forall k :: 0 <= k < |s| ==> Whitespace(s[k])
    decreases |s|
  {
    if s == [] {
      i, j := 0, 0;
    } else if Whitespace(s[0]) {
      i, j := TrimIs(s[1..]);
      i, j := i + 1, j + 1;
      assert s[1..][i - 1..j - 1] == s[i..j];
      assert forall k :: 0 < k < |s| ==> s[k] == s[1..][k - 1];
    } else if Whitespace(s[|s| - 1]) {
      i, j := TrimIs(s[..|s| - 1]);
      assert s[..|s| - 1][i..j] == s[i..j];
      assert s[0] == s[..|s| - 1][0];
    } else {
      i, j := 0, |s|;
    }
  }

  /** Over any run of operations, every card the device trusts or hands out is one
      its key really signed: its own key's, or another device's. */
  lemma TrustedCardsAreSigned(m: Model, ops: seq<(Op, SaveFaults)>)
    requires Inv(m)
    ensures var t := Run(m, ops).trust;
            && (forall c <- t.peers :: c.event.verifies && WellSigned(c.event) && c.event.signer != t.identity)
            && (t.selfCard.Some? ==> t.selfCard.value.event.verifies && WellSigned(t.selfCard.value.event)
                                     && t.selfCard.value.event.signer == t.identity)
  {
    RunKeepsInv(m, ops);
    var t := Run(m, ops).trust;
    forall c <- t.peers ensures c.event.verifies && WellSigned(c.event) && c.event.signer != t.identity {
      AcceptedExactlyWhenWellSigned(c.event);
    }
    if t.selfCard.Some? {
      AcceptedExactlyWhenWellSigned(t.selfCard.value.event);
    }
  }

  // ---------------------------------------------------------------------
  // The same, as the program updates its fields
  // ---------------------------------------------------------------------

  class DesktopApp {
    var identity: Key
    var savedName: Option<string>
    const suffix: string
    var selfCard: Option<Card>
    var peers: seq<Card>
    const lock: ConfigLock
    ghost var clean: bool

    ghost function Abs(): Model
      reads this, lock
    {
      Model(Trust(identity, savedName, suffix, selfCard, peers), lock.disk, clean)
    }

    /** `App::new`, from settings the loader accepted. */
    constructor (s: Settings, lock: ConfigLock, now: Secs, size: nat, f: SaveFaults)
      requires s.secret.Nsec?
      modifies lock
      ensures this.lock == lock && Abs() == Apply(Started(s, old(lock.disk)), Renew(now, size), f)
    {
      var t := FromSettings(s);
      identity, savedName, suffix, selfCard, peers := t.identity, t.savedName, t.suffix, t.selfCard, t.peers;
      this.lock, clean := lock, Started(s, lock.disk).clean;
      new;
      RenewSelfCardIfStale(now, size, f);
    }

    method SaveConfig(f: SaveFaults) returns (ok: bool)
      modifies lock, `clean
      ensures Abs() == Saved(old(Abs()), f) && ok == Abs().clean
    {
      var card := if selfCard.Some? then Some(Encode(selfCard.value)) else None;
      ok := lock.Save(Settings(Nsec(identity), Public(CONFIG_VERSION, suffix, savedName, card, Texts(peers))), f);
      clean := ok;
    }

    method BeginGenerateIdentity(key: Key)
      modifies this
      ensures Abs() == Apply(old(Abs()), Generate(key), SaveFaults(Fine, Fine, Fine, Fine, Fine))
    {
      identity, savedName, selfCard, peers, clean := key, None, None, [], false;
    }

    method UseImportedIdentity(typed: Nsec, f: SaveFaults)
      modifies this, lock
      ensures Abs() == Apply(old(Abs()), Import(typed), f)
    {
      if typed.Nsec? {
        identity, savedName, selfCard, peers := typed.key, None, None, [];
        var ok := SaveConfig(f);
      }
    }

    method SaveName(typed: string, now: Secs, size: nat, f: SaveFaults)
      modifies this, lock
      ensures Abs() == Apply(old(Abs()), Op.SaveName(typed, now, size), f)
    {
      var name := Trim(typed);
      if !ValidName(name) {
        return;
      }
      var card := Mint(identity, name, suffix, now, size);
      if card.None? {
        return;
      }
      savedName, selfCard := Some(name), card;
      var ok := SaveConfig(f);
    }

    method RenewSelfCardIfStale(now: Secs, size: nat, f: SaveFaults)
      modifies this, lock
      ensures Abs() == Apply(old(Abs()), Renew(now, size), f)
    {
      var card := Renewed(Trust(identity, savedName, suffix, selfCard, peers), now, size);
      if card.Some? {
        selfCard := card;
        var ok := SaveConfig(f);
      }
    }

    method ResetIdentity(key: Key, f: SaveFaults)
      modifies this, lock
      ensures Abs() == Apply(old(Abs()), Op.ResetIdentity(key), f)
    {
      identity, savedName, selfCard, peers := key, None, None, [];
      var ok := SaveConfig(f);
    }

    method ImportPeerCard(pasted: Text, now: Secs, f: SaveFaults) returns (stored: bool)
      modifies this, lock
      ensures Abs() == Apply(old(Abs()), AddPeer(pasted, now), f)
      ensures stored <==> Parse(pasted).Some? && Storable(old(Abs()).trust, Parse(pasted).value, now)
    {
      var card := Parse(pasted);
      if card.None? {
        return false;
      }
      stored := StorePeerCard(card.value, now, f);
    }

    method StorePeerCard(card: Card, now: Secs, f: SaveFaults) returns (stored: bool)
      modifies this, lock
      ensures stored <==> Storable(old(Abs()).trust, card, now)
      ensures Abs() == if stored
                       then Saved(old(Abs()).(trust := old(Abs()).trust.(peers := WithPeer(old(peers), card))), f)
                       else old(Abs())
    {
      if Signer(card) == identity || !ValidAt(card, now) {
        return false;
      }
      var existing := Find(peers, Signer(card));
      if existing.Some? {
        peers := peers[existing.value := card];
      } else if |peers| >= MAX_TRUSTED_PEERS {
        return false;
      } else {
        peers := peers + [card];
      }
      var ok := SaveConfig(f);
      return true;
    }

    method RemovePeer(gone: Key, f: SaveFaults)
      modifies this, lock
      ensures Abs() == Apply(old(Abs()), Op.RemovePeer(gone), f)
    {
      var before := |peers|;
      var kept: seq<Card> := [];
      for i := 0 to |peers|
        invariant kept == Without(peers[..i], gone)
      {
        assert peers[..i + 1][..i] == peers[..i];
        if Signer(peers[i]) != gone {
          kept := kept + [peers[i]];
        }
      }
      assert peers[..|peers|] == peers;
      peers := kept;
      if |peers| != before {
        var ok := SaveConfig(f);
      } else {
        NothingRemoved(old(peers), gone);
      }
    }
  }

  lemma {:induction false} NothingRemoved(peers: seq<Card>, key: Key)
    ensures |Without(peers, key)| <= |peers|
    ensures |Without(peers, key)| == |peers| ==> Without(peers, key) == peers
  {
    if peers == [] {
    } else {
      NothingRemoved(peers[..|peers| - 1], key);
    }
  }
}
