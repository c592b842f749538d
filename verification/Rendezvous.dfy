/** What two trusted devices work out from their keys alone: who hosts
    (net/mod.rs), the code both screens show (auth.rs), and where the hosting
    record is put and looked for (hosting_record.rs, lan/mod.rs). SHA-256 is a
    parameter. */
module Rendezvous {
  import opened Bytes
  import opened Wrappers
  import opened KeyAuth
  import HostingPublisher
  import SessionMemory

  datatype SessionRole = Host | Dial

  function RoleOf(me: Key, peer: Key): SessionRole { if LexLe(me, peer) then Host else Dial }

  /** `pairing_code`, from each key's fingerprint. */
  function PairingCode(a: Key, b: Key, fingerprint: Key -> string): Option<string> {
    if a == b then None
    else
      var (low, high) := if LexLe(a, b) then (a, b) else (b, a);
      Some(fingerprint(low) + " " + fingerprint(high))
  }

  datatype Domain = LanLabel | NostrTag

  /** SHA-256. */
  const DIGEST_LEN: nat := 32

  /** Hashed over the ordered pair: who hosts, then for whom. */
  function PairHash(sha: (Domain, bytes) -> bytes, d: Domain, host: Key, peer: Key): bytes { sha(d, host + peer) }

  /** Lower-case hexadecimal, as `hex` writes it. */
  function Hex(b: bytes): string {
    if b == [] then [] else [HexDigit(b[0] / 16), HexDigit(b[0] % 16)] + Hex(b[1..])
  }

  function HexDigit(n: nat): char
    requires n < 16
  {
    if n < 10 then '0' + n as char else 'a' + (n - 10) as char
  }

  lemma HexDigitsTellApart(a: byte, b: byte)
    requires HexDigit(a / 16) == HexDigit(b / 16) && HexDigit(a % 16) == HexDigit(b % 16)
    ensures a == b
  {
    assert a / 16 == b / 16 && a % 16 == b % 16;
  }

  lemma {:induction false} HexInjective(a: bytes, b: bytes)
    requires |a| == |b| && Hex(a) == Hex(b)
    ensures a == b
  {
    if a == [] {
    } else {
      var x, y := Hex(a), Hex(b);
      assert x[0] == HexDigit(a[0] / 16) && x[1] == HexDigit(a[0] % 16) && x[2..] == Hex(a[1..]);
      assert y[0] == HexDigit(b[0] / 16) && y[1] == HexDigit(b[0] % 16) && y[2..] == Hex(b[1..]);
      HexDigitsTellApart(a[0], b[0]);
      HexInjective(a[1..], b[1..]);
      assert a == [a[0]] + a[1..] && b == [b[0]] + b[1..];
    }
  }

  /** The DNS-SD label spells out a digest's first sixteen bytes, the nostr tag all
      of it after a prefix. */
  function Taken(d: Domain, digest: bytes): bytes {
    if d.LanLabel? && |digest| > 16 then digest[..16] else digest
  }

  function Label(sha: (Domain, bytes) -> bytes, d: Domain, host: Key, peer: Key): string {
    (if d.LanLabel? then "" else "duocb:hosting:v1:") + Hex(Taken(d, PairHash(sha, d, host, peer)))
  }

  /** What a device announces under for a peer it hosts for, and what it searches
      for when it dials one. */
  function Announced(sha: (Domain, bytes) -> bytes, d: Domain, me: Key, peer: Key): Option<string> {
    if RoleOf(me, peer) == Host then Some(Label(sha, d, me, peer)) else None
  }

  function Sought(sha: (Domain, bytes) -> bytes, d: Domain, me: Key, peer: Key): Option<string> {
    if RoleOf(me, peer) == Dial then Some(Label(sha, d, peer, me)) else None
  }

  /** Two distinct keys settle it with no message exchanged: exactly one of the
      two announces, exactly the other searches, and for that very label. */
  lemma KeysSettleTheRendezvous(a: Key, b: Key, sha: (Domain, bytes) -> bytes, d: Domain)
    requires a != b
    ensures RoleOf(a, b) != RoleOf(b, a)
    ensures (Announced(sha, d, a, b).Some? && Sought(sha, d, b, a) == Announced(sha, d, a, b)
             && Announced(sha, d, b, a).None? && Sought(sha, d, a, b).None?)
         || (Announced(sha, d, b, a).Some? && Sought(sha, d, a, b) == Announced(sha, d, b, a)
             && Announced(sha, d, a, b).None? && Sought(sha, d, b, a).None?)
  {
    LexTotal(a, b);
  }

  /** It is the one whose key is the lower at the first byte that differs that
      hosts, and the code leads with its fingerprint. */
  lemma LowerKeyHosts(me: Key, peer: Key, fingerprint: Key -> string)
    ensures RoleOf(me, peer) == Host <==> exists i: nat :: BelowAt(me, peer, i)
    ensures me != peer && RoleOf(me, peer) == Host ==>
              PairingCode(me, peer, fingerprint) == Some(fingerprint(me) + " " + fingerprint(peer))
  {
    LexLeExactlyWhen(me, peer);
  }

  /** Whether two pairs' digests agree where their labels are made. */
  predicate Collide(sha: (Domain, bytes) -> bytes, d: Domain, host: Key, peer: Key, x: Key, y: Key) {
    Taken(d, PairHash(sha, d, x, y)) == Taken(d, PairHash(sha, d, host, peer))
  }

  /** A label spells out exactly those bytes. */
  lemma LabelsAreEqualExactlyWhen(host: Key, peer: Key, x: Key, y: Key, sha: (Domain, bytes) -> bytes, d: Domain)
    requires |PairHash(sha, d, x, y)| == |PairHash(sha, d, host, peer)| == DIGEST_LEN
    ensures Label(sha, d, x, y) == Label(sha, d, host, peer) <==> Collide(sha, d, host, peer, x, y)
  {
    var p := if d.LanLabel? then "" else "duocb:hosting:v1:";
    var s, t := Taken(d, PairHash(sha, d, x, y)), Taken(d, PairHash(sha, d, host, peer));
    assert (p + Hex(s))[|p|..] == Hex(s) && (p + Hex(t))[|p|..] == Hex(t);
    if Hex(s) == Hex(t) {
      HexInjective(s, t);
    }
  }

  /** What a dialer finds under the label it searches for is its own host's
      announcement for it, or that of a host whose pair's digest collides with
      theirs; nothing else, its own announcements for others included. */
  lemma LookupFindsItsPairOrACollision(dialer: Key, host: Key, x: Key, y: Key,
                                       sha: (Domain, bytes) -> bytes, d: Domain)
    requires |PairHash(sha, d, x, y)| == |PairHash(sha, d, host, dialer)| == DIGEST_LEN
    requires Sought(sha, d, dialer, host).Some?
    ensures Announced(sha, d, x, y) == Sought(sha, d, dialer, host)
       <==> || (x == host && y == dialer)
            || (RoleOf(x, y) == Host && Collide(sha, d, host, dialer, x, y))
  {
    LexTotal(dialer, host);
    LabelsAreEqualExactlyWhen(host, dialer, x, y, sha, d);
  }

  /** No two pairs among these devices have colliding digests. */
  ghost predicate CollisionFree(sha: (Domain, bytes) -> bytes, d: Domain, devices: set<Key>) {
    forall host, peer, x, y ::
      host in devices && peer in devices && x in devices && y in devices && Collide(sha, d, host, peer, x, y) ==>
        x == host && y == peer
  }

  lemma PairTextTellsApart(a: Key, b: Key, x: Key, y: Key)
    ensures a + b == x + y <==> a == x && b == y
  {
    assert (a + b)[..32] == a && (a + b)[32..] == b && (x + y)[..32] == x && (x + y)[32..] == y;
  }

  /** Digests of 32 bytes leave room for that. */
  lemma TwoDevicesNeedNotCollide(a: Key, b: Key, d: Domain) returns (sha: (Domain, bytes) -> bytes)
    requires a != b
    ensures CollisionFree(sha, d, {a, b}) && forall x, y :: |PairHash(sha, d, x, y)| == DIGEST_LEN
  {
    var mark := (x: bytes) => if x == a + a then 0 else if x == a + b then 1 else if x == b + a then 2 else 3;
    sha := (_, x) => seq(DIGEST_LEN, _ => mark(x));
    forall host, peer, x, y | host in {a, b} && peer in {a, b} && x in {a, b} && y in {a, b}
      && Collide(sha, d, host, peer, x, y)
      ensures x == host && y == peer
    {
      assert Taken(d, sha(d, x + y))[0] == mark(x + y) && Taken(d, sha(d, host + peer))[0] == mark(host + peer);
      PairTextTellsApart(a, b, b, a);
      PairTextTellsApart(a, a, a, b);
      PairTextTellsApart(a, a, b, a);
      PairTextTellsApart(b, b, a, a);
      PairTextTellsApart(b, b, a, b);
      PairTextTellsApart(b, b, b, a);
    }
  }

  /** So among any devices whose pairs do not collide, a lookup finds exactly its
      own pair's announcement. */
  lemma LookupFindsOnlyItsPair(dialer: Key, host: Key, x: Key, y: Key, devices: set<Key>,
                               sha: (Domain, bytes) -> bytes, d: Domain)
    requires {dialer, host, x, y} <= devices && CollisionFree(sha, d, devices)
    requires |PairHash(sha, d, x, y)| == |PairHash(sha, d, host, dialer)| == DIGEST_LEN
    requires Sought(sha, d, dialer, host).Some?
    ensures Announced(sha, d, x, y) == Sought(sha, d, dialer, host) <==> x == host && y == dialer
  {
    LookupFindsItsPairOrACollision(dialer, host, x, y, sha, d);
  }

  /** Both screens show one code, refused exactly for a device and itself. */
  lemma OneCodeForBoth(a: Key, b: Key, fingerprint: Key -> string)
    ensures PairingCode(a, b, fingerprint) == PairingCode(b, a, fingerprint)
    ensures PairingCode(a, b, fingerprint).None? <==> a == b
  {
    LexTotal(a, b);
  }

  /** Fingerprints are all of one length, and a code shows both in full: two codes
      agree only where both fingerprints do. */
  lemma CodeShowsBothFingerprints(a: Key, b: Key, c: Key, d: Key, fingerprint: Key -> string, n: nat)
    requires forall k <- [a, b, c, d] :: |fingerprint(k)| == n
    ensures PairingCode(a, b, fingerprint).Some? && PairingCode(a, b, fingerprint) == PairingCode(c, d, fingerprint) ==>
              {fingerprint(a), fingerprint(b)} == {fingerprint(c), fingerprint(d)}
  {
    if a != b && PairingCode(a, b, fingerprint) == PairingCode(c, d, fingerprint) {
      var (low, high) := if LexLe(a, b) then (a, b) else (b, a);
      var (l, h) := if LexLe(c, d) then (c, d) else (d, c);
      var code := fingerprint(low) + " " + fingerprint(high);
      assert code[..n] == fingerprint(low) && code[n + 1..] == fingerprint(high);
      assert code[..n] == fingerprint(l) && code[n + 1..] == fingerprint(h);
    }
  }

  /** A host announces on every channel it has enabled and a dialer searches every
      channel it has: they share one unless one is local-only and the other
      relay-only. */
  lemma ChannelsMeetExactlyWhen(host: SessionMemory.Channel, dialer: SessionMemory.Channel)
    ensures (HostingPublisher.Lan(host) && HostingPublisher.Lan(dialer))
            || (HostingPublisher.Nostr(host) && HostingPublisher.Nostr(dialer))
       <==> {host, dialer} != {SessionMemory.LanOnly, SessionMemory.NostrOnly}
  {
    if host == dialer {
      assert host in {host, dialer};
      assert SessionMemory.LanOnly in {SessionMemory.LanOnly, SessionMemory.NostrOnly};
      assert SessionMemory.NostrOnly in {SessionMemory.LanOnly, SessionMemory.NostrOnly};
    }
    assert SessionMemory.LanThenNostr !in {SessionMemory.LanOnly, SessionMemory.NostrOnly};
  }
}
