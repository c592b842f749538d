/** Any number of honest devices running any number of key handshakes over a
    network that delivers, drops, alters, replays and invents what it likes.
    The network can show a proof only if the signing key is not an honest one,
    or the honest device really signed that transcript; and an honest device
    never draws a nonce that was drawn before. Everything else is the
    network's choice. */
module KeyAgreement {
  import opened Bytes
  import opened Wrappers
  import opened KeyAuth
  import Framing

  /** The honest devices, and whom each one's `admit` lets in. */
  datatype Policy = Policy(honest: set<Key>, trusts: map<Key, set<Key>>)

  predicate Admits(p: Policy, me: Key, client: Key) { me in p.trusts && client in p.trusts[me] }

  /** A dialer that has sent its request. `proved` is the listener nonce of the
      challenge it answered. */
  datatype DialerRun = DialerRun(me: Key, expected: Key, nonce: bytes, myId: bytes, peerId: bytes,
                                 proved: Option<bytes>, done: bool)

  /** A listener that admitted a request and sent its challenge. */
  datatype ListenerRun = ListenerRun(me: Key, client: Key, clientNonce: bytes, nonce: bytes,
                                     peerId: bytes, myId: bytes, done: bool)

  datatype Net = Net(dialers: seq<DialerRun>, listeners: seq<ListenerRun>,
                     signed: set<Proof>, nonces: set<bytes>)

  datatype Move =
    | Dial(me: Key, expected: Key, nonce: bytes, myId: bytes, peerId: bytes)
    | Admit(me: Key, client: Key, clientNonce: bytes, nonce: bytes, peerId: bytes, myId: bytes)
    | Prove(i: nat, c: Challenge)
    | Complete(j: nat, proof: Proof)
    | Accept(i: nat)

  function DialerTerms(d: DialerRun, listenerNonce: bytes): Terms {
    Terms(d.me, d.expected, d.nonce, listenerNonce, d.myId, d.peerId)
  }

  function ListenerTerms(l: ListenerRun): Terms {
    Terms(l.client, l.me, l.clientNonce, l.nonce, l.peerId, l.myId)
  }

  /** What the network is able to put in front of a verifier. */
  predicate CanShow(n: Net, p: Policy, proof: Proof) {
    proof.Signature? ==> proof.signer in p.honest ==> proof in n.signed
  }

  /** Ids and nonces fit their prefixes; a nonce from the wire arrived inside a
      control frame. */
  predicate Short(b: bytes) { |b| <= Framing.MAX_CONTROL_MESSAGE_SIZE }

  predicate Enabled(n: Net, p: Policy, m: Move) {
    match m
    case Dial(me, _, nonce, myId, peerId) =>
      me in p.honest && nonce !in n.nonces && Short(nonce) && Short(myId) && Short(peerId)
    case Admit(me, client, clientNonce, nonce, peerId, myId) =>
      && me in p.honest && Admits(p, me, client)
      && nonce !in n.nonces && Short(nonce) && Short(clientNonce) && Short(myId) && Short(peerId)
    case Prove(i, c) =>
      && i < |n.dialers| && n.dialers[i].proved.None? && Short(c.nonce) && CanShow(n, p, c.proof)
      && var d := n.dialers[i]; ChallengeHolds(d.me, d.expected, d.nonce, d.myId, d.peerId, c)
    case Complete(j, proof) =>
      && j < |n.listeners| && !n.listeners[j].done && CanShow(n, p, proof)
      && Verifies(proof, n.listeners[j].client, Transcript(Dialer, ListenerTerms(n.listeners[j])))
    case Accept(i) => i < |n.dialers| && n.dialers[i].proved.Some?
  }

  function Act(n: Net, p: Policy, m: Move): Net
    requires Enabled(n, p, m)
  {
    match m
    case Dial(me, expected, nonce, myId, peerId) =>
      n.(dialers := n.dialers + [DialerRun(me, expected, nonce, myId, peerId, None, false)],
         nonces := n.nonces + {nonce})
    case Admit(me, client, clientNonce, nonce, peerId, myId) =>
      var l := ListenerRun(me, client, clientNonce, nonce, peerId, myId, false);
      n.(listeners := n.listeners + [l], nonces := n.nonces + {nonce},
         signed := n.signed + {Signature(me, Transcript(Listener, ListenerTerms(l)))})
    case Prove(i, c) =>
      var d := n.dialers[i];
      n.(dialers := n.dialers[i := d.(proved := Some(c.nonce))],
         signed := n.signed + {Signature(d.me, Transcript(Dialer, DialerTerms(d, c.nonce)))})
    case Complete(j, _) => n.(listeners := n.listeners[j := n.listeners[j].(done := true)])
    case Accept(i) => n.(dialers := n.dialers[i := n.dialers[i].(done := true)])
  }

  function Run(p: Policy, moves: seq<Move>): Net
    decreases |moves|
  {
    if moves == [] then Net([], [], {}, {})
    else
      var n, m := Run(p, moves[..|moves| - 1]), moves[|moves| - 1];
      if Enabled(n, p, m) then Act(n, p, m) else n
  }

  // ---------------------------------------------------------------------
  // What every run keeps
  // ---------------------------------------------------------------------

  predicate DialerSigned(d: DialerRun, proof: Proof) {
    d.proved.Some? && proof == Signature(d.me, Transcript(Dialer, DialerTerms(d, d.proved.value)))
  }

  predicate ListenerSigned(l: ListenerRun, proof: Proof) {
    proof == Signature(l.me, Transcript(Listener, ListenerTerms(l)))
  }

  ghost predicate Justified(n: Net, proof: Proof) {
    || (exists i :: 0 <= i < |n.dialers| && DialerSigned(n.dialers[i], proof))
    || (exists j :: 0 <= j < |n.listeners| && ListenerSigned(n.listeners[j], proof))
  }

  predicate WellFormed(n: Net) {
    && (forall i :: 0 <= i < |n.dialers| ==>
          var d := n.dialers[i];
          Short(d.nonce) && Short(d.myId) && Short(d.peerId) && d.nonce in n.nonces
          && (d.proved.Some? ==> Short(d.proved.value)) && (d.done ==> d.proved.Some?))
    && (forall j :: 0 <= j < |n.listeners| ==>
          var l := n.listeners[j];
          Short(l.nonce) && Short(l.clientNonce) && Short(l.myId) && Short(l.peerId) && l.nonce in n.nonces)
  }

  predicate Fresh(n: Net) {
    && (forall i, k :: 0 <= i < k < |n.dialers| ==> n.dialers[i].nonce != n.dialers[k].nonce)
    && (forall i, k :: 0 <= i < k < |n.listeners| ==> n.listeners[i].nonce != n.listeners[k].nonce)
  }

  ghost predicate SignedIsJustified(n: Net) { forall proof <- n.signed :: Justified(n, proof) }

  /** Every step taken on the strength of an honest signature rests on one that
      was made. */
  predicate Backed(n: Net, p: Policy) {
    && (forall i :: 0 <= i < |n.dialers| && n.dialers[i].proved.Some? && n.dialers[i].expected in p.honest ==>
          Signature(n.dialers[i].expected,
            Transcript(Listener, DialerTerms(n.dialers[i], n.dialers[i].proved.value))) in n.signed)
    && (forall j :: 0 <= j < |n.listeners| ==>
          Admits(p, n.listeners[j].me, n.listeners[j].client)
          && (n.listeners[j].done && n.listeners[j].client in p.honest ==>
                Signature(n.listeners[j].client, Transcript(Dialer, ListenerTerms(n.listeners[j]))) in n.signed))
  }

  ghost predicate Inv(n: Net, p: Policy) {
    WellFormed(n) && Fresh(n) && SignedIsJustified(n) && Backed(n, p)
  }

  /** Runs are only ever added or advanced, so what justified a signature still
      does. */
  lemma RunsOnlyAdvance(n: Net, p: Policy, m: Move)
    requires Enabled(n, p, m)
    ensures |n.dialers| <= |Act(n, p, m).dialers| && |n.listeners| <= |Act(n, p, m).listeners|
    ensures forall i :: 0 <= i < |n.dialers| ==>
              var d, e := n.dialers[i], Act(n, p, m).dialers[i];
              e == d.(proved := e.proved, done := e.done) && (d.proved.Some? ==> e.proved == d.proved)
    ensures forall j :: 0 <= j < |n.listeners| ==>
              var l, k := n.listeners[j], Act(n, p, m).listeners[j];
              k == l.(done := k.done)
  {
  }

  lemma StillJustified(n: Net, p: Policy, m: Move, proof: Proof)
    requires Enabled(n, p, m) && Justified(n, proof)
    ensures Justified(Act(n, p, m), proof)
  {
    RunsOnlyAdvance(n, p, m);
    var a := Act(n, p, m);
    if i :| 0 <= i < |n.dialers| && DialerSigned(n.dialers[i], proof) {
      assert DialerSigned(a.dialers[i], proof);
    } else {
      var j :| 0 <= j < |n.listeners| && ListenerSigned(n.listeners[j], proof);
      assert ListenerSigned(a.listeners[j], proof);
    }
  }

  lemma NewSignatureIsJustified(n: Net, p: Policy, m: Move, proof: Proof)
    requires Enabled(n, p, m) && proof in Act(n, p, m).signed && proof !in n.signed
    ensures Justified(Act(n, p, m), proof)
  {
    var a := Act(n, p, m);
    if m.Admit? {
      assert ListenerSigned(a.listeners[|n.listeners|], proof);
    } else {
      assert DialerSigned(a.dialers[m.i], proof);
    }
  }

  lemma ActKeepsJustified(n: Net, p: Policy, m: Move)
    requires Enabled(n, p, m) && SignedIsJustified(n)
    ensures SignedIsJustified(Act(n, p, m))
  {
    forall proof <- Act(n, p, m).signed
      ensures Justified(Act(n, p, m), proof)
    {
      if proof in n.signed {
        StillJustified(n, p, m, proof);
      } else {
        NewSignatureIsJustified(n, p, m, proof);
      }
    }
  }

  lemma ActKeepsShape(n: Net, p: Policy, m: Move)
    requires Enabled(n, p, m) && WellFormed(n) && Fresh(n)
    ensures WellFormed(Act(n, p, m)) && Fresh(Act(n, p, m))
  {
  }

  lemma ActKeepsBacked(n: Net, p: Policy, m: Move)
    requires Enabled(n, p, m) && Backed(n, p)
    ensures Backed(Act(n, p, m), p)
  {
  }

  lemma ActKeepsInv(n: Net, p: Policy, m: Move)
    requires Enabled(n, p, m) && Inv(n, p)
    ensures Inv(Act(n, p, m), p)
  {
    ActKeepsShape(n, p, m);
    ActKeepsJustified(n, p, m);
    ActKeepsBacked(n, p, m);
  }

  lemma {:induction false} RunKeepsInv(p: Policy, moves: seq<Move>)
    ensures Inv(Run(p, moves), p)
    decreases |moves|
  {
    if moves == [] {
    } else {
      var n, m := Run(p, moves[..|moves| - 1]), moves[|moves| - 1];
      RunKeepsInv(p, moves[..|moves| - 1]);
      if Enabled(n, p, m) {
        ActKeepsInv(n, p, m);
      }
    }
  }

  // ---------------------------------------------------------------------
  // Agreement
  // ---------------------------------------------------------------------

  /** Dialer run `i` and listener run `j` are two ends of one handshake: they
      agree on both keys, both nonces and both transport ids. */
  predicate Agree(n: Net, i: nat, j: nat)
    requires i < |n.dialers| && j < |n.listeners|
  {
    n.dialers[i].proved.Some? && DialerTerms(n.dialers[i], n.dialers[i].proved.value) == ListenerTerms(n.listeners[j])
  }

  lemma AgreeingDialerExists(n: Net, p: Policy, j: nat) returns (i: nat)
    requires Inv(n, p) && j < |n.listeners| && n.listeners[j].done && n.listeners[j].client in p.honest
    ensures i < |n.dialers| && Agree(n, i, j)
  {
    var l := n.listeners[j];
    var proof := Signature(l.client, Transcript(Dialer, ListenerTerms(l)));
    if k :| 0 <= k < |n.dialers| && DialerSigned(n.dialers[k], proof) {
      i := k;
      TranscriptInjective(Dialer, ListenerTerms(l), Dialer, DialerTerms(n.dialers[k], n.dialers[k].proved.value));
    } else {
      var k :| 0 <= k < |n.listeners| && ListenerSigned(n.listeners[k], proof);
      TranscriptInjective(Dialer, ListenerTerms(l), Listener, ListenerTerms(n.listeners[k]));
      assert false;
    }
  }

  lemma AgreeingListenerExists(n: Net, p: Policy, i: nat) returns (j: nat)
    requires Inv(n, p) && i < |n.dialers| && n.dialers[i].proved.Some? && n.dialers[i].expected in p.honest
    ensures j < |n.listeners| && Agree(n, i, j)
  {
    var d := n.dialers[i];
    var proof := Signature(d.expected, Transcript(Listener, DialerTerms(d, d.proved.value)));
    if k :| 0 <= k < |n.listeners| && ListenerSigned(n.listeners[k], proof) {
      j := k;
      TranscriptInjective(Listener, DialerTerms(d, d.proved.value), Listener, ListenerTerms(n.listeners[k]));
    } else {
      var k :| 0 <= k < |n.dialers| && DialerSigned(n.dialers[k], proof);
      TranscriptInjective(Listener, DialerTerms(d, d.proved.value),
                          Dialer, DialerTerms(n.dialers[k], n.dialers[k].proved.value));
      assert false;
    }
  }

  /** Agreement pairs runs one to one: fresh nonces leave no room for a second
      partner on either side. */
  lemma AgreementIsOneToOne(n: Net, i: nat, k: nat, j: nat, l: nat)
    requires Fresh(n) && i < |n.dialers| && k < |n.dialers| && j < |n.listeners| && l < |n.listeners|
    requires Agree(n, i, j) && Agree(n, k, l)
    ensures i == k <==> j == l
  {
    var a, b := ListenerTerms(n.listeners[j]), ListenerTerms(n.listeners[l]);
    assert a.clientNonce == n.dialers[i].nonce && b.clientNonce == n.dialers[k].nonce;
    assert a.serverNonce == n.listeners[j].nonce && b.serverNonce == n.listeners[l].nonce;
  }

  /** A listener that accepts an honest client key is talking to that client:
      exactly one dialer run of its matches, and no other listener run matches
      the same dialer run. */
  lemma ListenerAgreement(p: Policy, moves: seq<Move>, j: nat) returns (i: nat)
    requires j < |Run(p, moves).listeners|
    requires Run(p, moves).listeners[j].done && Run(p, moves).listeners[j].client in p.honest
    ensures var n := Run(p, moves);
            && i < |n.dialers| && Agree(n, i, j)
            && n.dialers[i].me == n.listeners[j].client && n.dialers[i].expected == n.listeners[j].me
            && (forall k: nat :: k < |n.dialers| && Agree(n, k, j) ==> k == i)
            && (forall l: nat :: l < |n.listeners| && Agree(n, i, l) ==> l == j)
  {
    var n := Run(p, moves);
    RunKeepsInv(p, moves);
    i := AgreeingDialerExists(n, p, j);
    forall k: nat | k < |n.dialers| && Agree(n, k, j) ensures k == i { AgreementIsOneToOne(n, i, k, j, j); }
    forall l: nat | l < |n.listeners| && Agree(n, i, l) ensures l == j { AgreementIsOneToOne(n, i, i, j, l); }
  }

  /** A dialer that completes against an honest selected peer - indeed one that
      so much as signed for it - is talking to that peer, in exactly one run,
      and that peer had admitted it. */
  lemma DialerAgreement(p: Policy, moves: seq<Move>, i: nat) returns (j: nat)
    requires i < |Run(p, moves).dialers|
    requires Run(p, moves).dialers[i].done || Run(p, moves).dialers[i].proved.Some?
    requires Run(p, moves).dialers[i].expected in p.honest
    ensures var n := Run(p, moves);
            && j < |n.listeners| && Agree(n, i, j)
            && n.listeners[j].me == n.dialers[i].expected && n.listeners[j].client == n.dialers[i].me
            && Admits(p, n.dialers[i].expected, n.dialers[i].me)
            && (forall l: nat :: l < |n.listeners| && Agree(n, i, l) ==> l == j)
            && (forall k: nat :: k < |n.dialers| && Agree(n, k, j) ==> k == i)
  {
    var n := Run(p, moves);
    RunKeepsInv(p, moves);
    j := AgreeingListenerExists(n, p, i);
    forall l: nat | l < |n.listeners| && Agree(n, i, l) ensures l == j { AgreementIsOneToOne(n, i, i, j, l); }
    forall k: nat | k < |n.dialers| && Agree(n, k, j) ensures k == i { AgreementIsOneToOne(n, i, k, j, j); }
  }

  function Replay(n: Net, p: Policy, moves: seq<Move>): Option<Net>
    decreases |moves|
  {
    if moves == [] then Some(n)
    else if Enabled(n, p, moves[0]) then Replay(Act(n, p, moves[0]), p, moves[1..])
    else None
  }

  /** Left alone, the handshake of two devices that trust each other goes all
      the way through, from any state of the network: the request, the
      challenge and the two proofs the program builds are the ones it accepts. */
  lemma UndisturbedHandshakeCompletes(n: Net, p: Policy, client: Key, server: Key,
                                      cn: bytes, sn: bytes, cid: bytes, sid: bytes)
    requires client in p.honest && server in p.honest && Admits(p, server, client)
    requires cn !in n.nonces && sn !in n.nonces && cn != sn
    requires Short(cn) && Short(sn) && Short(cid) && Short(sid)
    ensures var i, j := |n.dialers|, |n.listeners|;
            var t := Terms(client, server, cn, sn, cid, sid);
            var challenge := Challenge(server, sn, Signature(server, Transcript(Listener, t)));
            var r := Replay(n, p, [Dial(client, server, cn, cid, sid), Admit(server, client, cn, sn, cid, sid),
                                   Prove(i, challenge),
                                   Complete(j, Signature(client, Transcript(Dialer, t))), Accept(i)]);
            && r.Some? && |r.value.dialers| == i + 1 && |r.value.listeners| == j + 1
            && Agree(r.value, i, j) && r.value.dialers[i].done && r.value.listeners[j].done
  {
    var i, j := |n.dialers|, |n.listeners|;
    var t := Terms(client, server, cn, sn, cid, sid);
    var challenge := Challenge(server, sn, Signature(server, Transcript(Listener, t)));
    var proof := Signature(client, Transcript(Dialer, t));
    var n1 := Act(n, p, Dial(client, server, cn, cid, sid));
    var n2 := Act(n1, p, Admit(server, client, cn, sn, cid, sid));
    assert n2.dialers[i] == DialerRun(client, server, cn, cid, sid, None, false);
    var n3 := Act(n2, p, Prove(i, challenge));
    assert n3.listeners[j] == ListenerRun(server, client, cn, sn, cid, sid, false);
    var n4 := Act(n3, p, Complete(j, proof));
    var n5 := Act(n4, p, Accept(i));
    assert Replay(n4, p, [Accept(i)]) == Some(n5);
    assert Replay(n3, p, [Complete(j, proof), Accept(i)]) == Some(n5);
    assert Replay(n2, p, [Prove(i, challenge), Complete(j, proof), Accept(i)]) == Some(n5);
  }

  // ---------------------------------------------------------------------
  // The program's two halves are the model's moves
  // ---------------------------------------------------------------------

  /** The dialing half, at any moment of any network in which run `i` is its own:
      it writes a proof exactly when the challenge it was shown enables `Prove`,
      that proof is the signature the move adds, and it completes only where
      `Accept` is then enabled. */
  method DialerMoves(ghost n: Net, ghost p: Policy, ghost i: nat, d: DialerRun, challenge: Option<Challenge>,
                     verdict: Option<bool>)
    returns (ok: bool, wrote: seq<Message>)
    requires i < |n.dialers| && n.dialers[i] == d && d.proved.None?
    requires challenge.Some? ==> Short(challenge.value.nonce) && CanShow(n, p, challenge.value.proof)
    ensures |wrote| > 0 && wrote[0] == Request(d.me, d.nonce)
    ensures |wrote| > 1 <==> challenge.Some? && Enabled(n, p, Prove(i, challenge.value))
    ensures |wrote| > 1 ==>
      && wrote[1].ProofSent? && Act(n, p, Prove(i, challenge.value)).signed == n.signed + {wrote[1].proof}
      && Enabled(Act(n, p, Prove(i, challenge.value)), p, Accept(i))
    ensures ok <==> |wrote| > 1 && verdict == Some(true)
  {
    ok, wrote := DialerHandshake(d.me, d.expected, d.myId, d.peerId, d.nonce, challenge, verdict);
  }

  /** The listening half's answer to a request, at any moment of any network: it
      signs a challenge exactly when `Admit` is enabled, and that signature is the
      one the move adds. */
  method ListenerAdmits(ghost n: Net, ghost p: Policy, l: ListenerRun, trusted: bool)
    returns (wrote: seq<Message>)
    requires l.me in p.honest && (trusted <==> Admits(p, l.me, l.client)) && !l.done
    requires l.nonce !in n.nonces && Short(l.nonce) && Short(l.clientNonce) && Short(l.myId) && Short(l.peerId)
    ensures wrote != [] <==> Enabled(n, p, Admit(l.me, l.client, l.clientNonce, l.nonce, l.peerId, l.myId))
    ensures wrote != [] ==>
      && |wrote| == 1 && wrote[0].ChallengeSent?
      && var after := Act(n, p, Admit(l.me, l.client, l.clientNonce, l.nonce, l.peerId, l.myId));
         after.signed == n.signed + {wrote[0].challenge.proof} && after.listeners == n.listeners + [l]
  {
    // No proof has arrived yet.
    var r, sent, asked := ListenerHandshake(l.me, Some(l.client), l.clientNonce, l.peerId, l.myId, l.nonce, None,
                                            (k: Key) => trusted, (k: Key) => true);
    wrote := sent;
  }

  /** And its verdict, at any later moment: it asks to commit exactly when the
      proof it was shown enables `Complete`, and accepts exactly when that is
      agreed to. */
  method ListenerCompletes(ghost n: Net, ghost p: Policy, ghost j: nat, l: ListenerRun, proof: Option<Proof>,
                           commits: bool)
    returns (accepted: bool, asked: bool)
    requires j < |n.listeners| && n.listeners[j] == l && !l.done && Admits(p, l.me, l.client)
    requires proof.Some? ==> CanShow(n, p, proof.value)
    ensures asked <==> proof.Some? && Enabled(n, p, Complete(j, proof.value))
    ensures accepted <==> asked && commits
  {
    var r, wrote;
    r, wrote, asked := ListenerHandshake(l.me, Some(l.client), l.clientNonce, l.peerId, l.myId, l.nonce, proof,
                                         (k: Key) => true, (k: Key) => commits);
    accepted := r.Some?;
  }
}
