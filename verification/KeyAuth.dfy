/** The mutual application-key handshake (key_auth.rs): the signed transcript,
    byte for byte, and the two halves of the exchange. Signatures are symbolic:
    a proof verifies for a key and a transcript only if it is that key's
    signature over that transcript. */
module KeyAuth {
  import opened Bytes
  import opened Wrappers

  /** A 32-byte application public key. */
  type Key = k: bytes | |k| == 32 witness seq(32, _ => 0)

  // ---------------------------------------------------------------------
  // The transcript
  // ---------------------------------------------------------------------

  datatype Role = Dialer | Listener

  function RoleName(r: Role): bytes {
    // "dialer" and "listener"
    if r.Dialer? then [100, 105, 97, 108, 101, 114] else [108, 105, 115, 116, 101, 110, 101, 114]
  }

  /** What both sides must agree on. */
  datatype Terms = Terms(clientKey: Key, serverKey: Key, clientNonce: bytes, serverNonce: bytes,
                         clientId: bytes, serverId: bytes)

  /** One length-prefixed field. */
  function Field(value: bytes): bytes { U32ToBytes(|value|) + value }

  function FieldList(values: seq<bytes>): bytes {
    if values == [] then [] else Field(values[0]) + FieldList(values[1..])
  }

  function Fields(r: Role, t: Terms): seq<bytes> {
    [RoleName(r), t.clientKey, t.serverKey, t.clientNonce, t.serverNonce, t.clientId, t.serverId]
  }

  /** `DUOCB_PROTO_VERSION.to_be_bytes()`. */
  const VERSION: bytes := [0, 4]

  function Transcript(r: Role, t: Terms): bytes { VERSION + FieldList(Fields(r, t)) }

  method AppendField(output: bytes, value: bytes) returns (r: bytes)
    ensures r == output + Field(value)
  {
    r := output + U32ToBytes(|value|);
    r := r + value;
    assert r == output + (U32ToBytes(|value|) + value);
  }

  method AuthTranscript(r: Role, t: Terms) returns (transcript: bytes)
    ensures transcript == Transcript(r, t)
  {
    transcript := VERSION;
    var values := Fields(r, t);
    var i := 0;
    while i < |values|
      invariant i <= |values|
      invariant transcript + FieldList(values[i..]) == Transcript(r, t)
    {
      ghost var rest := FieldList(values[i + 1..]);
      assert values[i..][1..] == values[i + 1..];
      assert transcript + (Field(values[i]) + rest) == transcript + Field(values[i]) + rest;
      transcript := AppendField(transcript, values[i]);
      i := i + 1;
    }
  }

  lemma HeadersLineUp(h: bytes, a: bytes, x: bytes, k: bytes, b: bytes, y: bytes)
    requires |h| == |k| && h + a + x == k + b + y
    ensures h == k && (|a| == |b| ==> a == b && x == y)
  {
    var s := h + a + x;
    assert s[..|h|] == h && s[..|h|] == k;
    if |a| == |b| {
      assert s[|h|..|h| + |a|] == a && s[|h|..|h| + |a|] == b;
      assert s[|h| + |a|..] == x && s[|h| + |a|..] == y;
    }
  }

  lemma FieldInjective(a: bytes, b: bytes, x: bytes, y: bytes)
    requires |a| < U32_MODULUS && |b| < U32_MODULUS && Field(a) + x == Field(b) + y
    ensures a == b && x == y
  {
    HeadersLineUp(U32ToBytes(|a|), a, x, U32ToBytes(|b|), b, y);
    U32Injective(|a|, |b|);
  }

  lemma {:induction false} FieldListInjective(a: seq<bytes>, b: seq<bytes>)
    requires |a| == |b| && FieldList(a) == FieldList(b)
    requires forall i :: 0 <= i < |a| ==> |a[i]| < U32_MODULUS && |b[i]| < U32_MODULUS
    ensures a == b
  {
    if a == [] {
    } else {
      FieldInjective(a[0], b[0], FieldList(a[1..]), FieldList(b[1..]));
      FieldListInjective(a[1..], b[1..]);
      assert a == [a[0]] + a[1..] && b == [b[0]] + b[1..];
    }
  }

  /** Every field short enough for its 32-bit length prefix. */
  predicate Sized(t: Terms) {
    |t.clientNonce| < U32_MODULUS && |t.serverNonce| < U32_MODULUS
    && |t.clientId| < U32_MODULUS && |t.serverId| < U32_MODULUS
  }

  /** Two transcripts are the same bytes only if they say the same thing in the
      same role. */
  lemma TranscriptInjective(r: Role, t: Terms, q: Role, u: Terms)
    requires Sized(t) && Sized(u)
    ensures Transcript(r, t) == Transcript(q, u) ==> r == q && t == u
  {
    if Transcript(r, t) == Transcript(q, u) {
      assert Transcript(r, t)[2..] == FieldList(Fields(r, t));
      assert Transcript(q, u)[2..] == FieldList(Fields(q, u));
      FieldListInjective(Fields(r, t), Fields(q, u));
      assert forall i :: 0 <= i < 7 ==> Fields(r, t)[i] == Fields(q, u)[i];
    }
  }

  lemma ZeroFieldsCommute(zeros: bytes, rest: bytes)
    requires |zeros| == U32_MODULUS && forall i :: 0 <= i < |zeros| ==> zeros[i] == 0
    ensures Field(zeros) + (Field([]) + rest) == Field([]) + (Field(zeros) + rest)
  {
    assert U32ToBytes(|zeros|) == [0, 0, 0, 0] && Field([]) == [0, 0, 0, 0];
    assert Field(zeros) + Field([]) == Field([]) + Field(zeros);
  }

  /** The bound is needed: one byte count past it, the length prefix wraps and
      different terms share a transcript. */
  lemma OversizeFieldsCollide(t: Terms) returns (u: Terms, v: Terms)
    ensures u != v && |u.clientNonce| == U32_MODULUS && Transcript(Dialer, u) == Transcript(Dialer, v)
  {
    var zeros: bytes := seq(U32_MODULUS, _ => 0);
    u := t.(clientNonce := zeros, serverNonce := []);
    v := t.(clientNonce := [], serverNonce := zeros);
    assert |u.clientNonce| != |v.clientNonce|;
    var tail := [t.clientId, t.serverId];
    ZeroFieldsCommute(zeros, FieldList(tail));
    var f, g := Fields(Dialer, u), Fields(Dialer, v);
    assert f[3..] == [zeros, []] + tail && g[3..] == [[], zeros] + tail;
    assert FieldList(f[3..]) == Field(zeros) + (Field([]) + FieldList(tail)) by {
      assert f[3..][1..] == [[]] + tail && f[3..][1..][1..] == tail;
    }
    assert FieldList(g[3..]) == Field([]) + (Field(zeros) + FieldList(tail)) by {
      assert g[3..][1..] == [zeros] + tail && g[3..][1..][1..] == tail;
    }
    SameTail(f, g, 3);
  }

  lemma {:induction false} SameTail(a: seq<bytes>, b: seq<bytes>, n: nat)
    requires n <= |a| && n <= |b| && a[..n] == b[..n] && FieldList(a[n..]) == FieldList(b[n..])
    ensures FieldList(a) == FieldList(b)
  {
    if n == 0 {
      assert a[0..] == a && b[0..] == b;
    } else {
      assert a[0] == a[..n][0] && b[0] == b[..n][0];
      assert a[1..][..n - 1] == a[..n][1..] && b[1..][..n - 1] == b[..n][1..];
      assert a[1..][n - 1..] == a[n..] && b[1..][n - 1..] == b[n..];
      SameTail(a[1..], b[1..], n - 1);
    }
  }

  // ---------------------------------------------------------------------
  // The two halves
  // ---------------------------------------------------------------------

  datatype Proof = Signature(signer: Key, over: bytes) | NotASignature

  /** `verify_auth_signature`. */
  predicate Verifies(p: Proof, signer: Key, over: bytes) { p == Signature(signer, over) }

  datatype Challenge = Challenge(key: Key, nonce: bytes, proof: Proof)

  datatype Message = Request(key: Key, nonce: bytes) | ChallengeSent(challenge: Challenge)
                   | ProofSent(proof: Proof) | Accepted

  /** When the dialer goes on to prove itself. */
  predicate ChallengeHolds(me: Key, expected: Key, nonce: bytes, dialerId: bytes, listenerId: bytes, c: Challenge) {
    && c.key == expected
    && Verifies(c.proof, expected, Transcript(Listener, Terms(me, expected, nonce, c.nonce, dialerId, listenerId)))
  }

  /** The dialing half. `challenge` and `verdict` are what the stream yields,
      None for a read, decode or parse failure. The dialer signs nothing unless
      the listener showed the selected key and proved it over this very
      connection. */
  method DialerHandshake(me: Key, expected: Key, dialerId: bytes, listenerId: bytes, nonce: bytes,
                         challenge: Option<Challenge>, verdict: Option<bool>)
    returns (ok: bool, wrote: seq<Message>)
    ensures ok <==> challenge.Some? && ChallengeHolds(me, expected, nonce, dialerId, listenerId, challenge.value)
                    && verdict == Some(true)
    ensures wrote == [Request(me, nonce)]
      + if challenge.Some? && ChallengeHolds(me, expected, nonce, dialerId, listenerId, challenge.value)
        then [ProofSent(Signature(me,
                Transcript(Dialer, Terms(me, expected, nonce, challenge.value.nonce, dialerId, listenerId))))]
        else []
  {
    wrote := [Request(me, nonce)];
    if challenge.None? {
      return false, wrote;
    }
    var c := challenge.value;
    if c.key != expected {
      return false, wrote;
    }
    var terms := Terms(me, c.key, nonce, c.nonce, dialerId, listenerId);
    var listenerTranscript := AuthTranscript(Listener, terms);
    if !Verifies(c.proof, c.key, listenerTranscript) {
      return false, wrote;
    }
    var dialerTranscript := AuthTranscript(Dialer, terms);
    wrote := wrote + [ProofSent(Signature(me, dialerTranscript))];
    return verdict == Some(true), wrote;
  }

  /** The listening half. Nothing is signed before `admit` agrees; `commit` is
      asked only after the dialer's proof verified, and acceptance is written
      only after it agrees. `asked` says whether `commit` was called at all. */
  method ListenerHandshake(me: Key, client: Option<Key>, clientNonce: bytes, dialerId: bytes, listenerId: bytes,
                           nonce: bytes, proof: Option<Proof>, admit: Key -> bool, commit: Key -> bool)
    returns (r: Option<Key>, wrote: seq<Message>, asked: bool)
    ensures client.None? || !admit(client.value) ==> r == None && wrote == [] && !asked
    ensures client.Some? && admit(client.value) ==>
      var terms := Terms(client.value, me, clientNonce, nonce, dialerId, listenerId);
      var sent := ChallengeSent(Challenge(me, nonce, Signature(me, Transcript(Listener, terms))));
      && asked == (proof.Some? && Verifies(proof.value, client.value, Transcript(Dialer, terms)))
      && (asked && commit(client.value) ==> r == client && wrote == [sent, Accepted])
      && (!(asked && commit(client.value)) ==> r == None && wrote == [sent])
  {
    wrote, asked := [], false;
    if client.None? {
      return None, wrote, asked;
    }
    var key := client.value;
    if !admit(key) {
      return None, wrote, asked;
    }
    var terms := Terms(key, me, clientNonce, nonce, dialerId, listenerId);
    var listenerTranscript := AuthTranscript(Listener, terms);
    wrote := wrote + [ChallengeSent(Challenge(me, nonce, Signature(me, listenerTranscript)))];
    if proof.None? {
      return None, wrote, asked;
    }
    var dialerTranscript := AuthTranscript(Dialer, terms);
    if !Verifies(proof.value, key, dialerTranscript) {
      return None, wrote, asked;
    }
    asked := true;
    if !commit(key) {
      return None, wrote, asked;
    }
    wrote := wrote + [Accepted];
    return Some(key), wrote, asked;
  }
}
