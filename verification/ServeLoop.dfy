/** The configure-mode host (runtime.rs): it keeps accepting while it serves, so
    that its peer can preempt a dead connection. The environment is a script of
    what happens to the host; every script is one run of it, and every prefix
    of a script reaches one of its states. */
module ServeLoop {
  import opened Bytes
  import opened Wrappers
  import opened KeyAuth
  import opened PairClaim

  // ---------------------------------------------------------------------
  // Gate and authentication
  // ---------------------------------------------------------------------

  /** `accept_serveable`: whether a dialer is turned away before any in-band
      authentication. */
  predicate Refused(claim: Option<ClaimedPeer>, node: NodeId, allowNewTransport: bool) {
    claim.Some? && claim.value.node != node && (claim.value.key.None? || !allowNewTransport)
  }

  /** A connection and how its authentication would go: the key it asks for,
      whether that key has a stored card and the card is in its window, whether
      its proof verifies in time, and whether the acceptance then goes out. */
  datatype Conn = Conn(node: NodeId, client: Key, trusted: bool, cardValid: bool, proves: bool, told: bool)

  /** `auth_as_listener` with a `KeyListener` for `peerKey`: everything that
      must hold before the claim is asked to commit. */
  predicate Proved(claim: Option<ClaimedPeer>, peerKey: Key, c: Conn) {
    && c.trusted && c.client == peerKey && c.cardValid
    && (claim.None? || claim.value.key == Some(c.client))
    && c.proves
  }

  datatype HostEvent =
    | Busy(node: NodeId)                     // refused with SERVER_BUSY
    | Authenticating(node: NodeId)
    | Committed(node: NodeId, key: Key)      // the proof verified and the claim is held
    | Paired(node: NodeId, key: Key)         // PeerPaired, then status Connected: a pump starts
    | Superseded(prior: NodeId, next: NodeId)  // that pump is dropped for a new connection
    | Disconnected                           // that pump ended by itself
    | Shutdown(node: NodeId)                 // that pump was cancelled
    | Waiting                                // status Waiting

  /** The claim after one authentication, whether it succeeded, and what the
      host said about it. */
  function Authenticated(claim: Option<ClaimedPeer>, peerKey: Key, c: Conn)
    : (Option<ClaimedPeer>, bool, seq<HostEvent>)
  {
    var start := [Authenticating(c.node)];
    if Proved(claim, peerKey, c) && KeyCommitted(claim, c.client, c.node).0 then
      var after := KeyCommitted(claim, c.client, c.node).1;
      if c.told then (after, true, start + [Committed(c.node, c.client), Paired(c.node, c.client)])
      else (after, false, start + [Committed(c.node, c.client), Waiting])
    else (claim, false, start + [Waiting])
  }

  // ---------------------------------------------------------------------
  // The host as a state machine
  // ---------------------------------------------------------------------

  datatype Happening = Dial(c: Conn) | HandshakeFailed | PumpEnds | Cancel | EndpointCloses

  datatype Phase = Accepting | Pumping(node: NodeId) | Stopped

  datatype Host = Host(claim: Option<ClaimedPeer>, phase: Phase, trace: seq<HostEvent>)

  function Serve(h: Host, peerKey: Key, c: Conn): Host {
    var (claim, ok, said) := Authenticated(h.claim, peerKey, c);
    Host(claim, if ok then Pumping(c.node) else Accepting, h.trace + said)
  }

  function Step(h: Host, peerKey: Key, e: Happening): Host {
    match h.phase
    case Stopped => h
    case Accepting =>
      (match e
       case Dial(c) =>
         if Refused(h.claim, c.node, true) then h.(trace := h.trace + [Busy(c.node)]) else Serve(h, peerKey, c)
       case Cancel => h.(phase := Stopped)
       case EndpointCloses => h.(phase := Stopped)
       case _ => h)
    case Pumping(prior) =>
      (match e
       case Dial(c) =>
         if Refused(h.claim, c.node, false) then h.(trace := h.trace + [Busy(c.node)])
         else Serve(h.(trace := h.trace + [Superseded(prior, c.node)]), peerKey, c)
       case PumpEnds => h.(phase := Accepting, trace := h.trace + [Disconnected, Waiting])
       case Cancel => h.(phase := Stopped, trace := h.trace + [Shutdown(prior)])
       case EndpointCloses => h.(phase := Stopped, trace := h.trace + [Disconnected, Waiting])
       case HandshakeFailed => h)
  }

  function Run(h: Host, peerKey: Key, script: seq<Happening>): Host
    decreases |script|
  {
    if script == [] then h else Run(Step(h, peerKey, script[0]), peerKey, script[1..])
  }

  // ---------------------------------------------------------------------
  // The same host as the program's loops
  // ---------------------------------------------------------------------

  datatype Outcome = Next(c: Conn) | Cancelled | Closed | PumpOver | StillWaiting

  /** What a select must have seen last for it to come out this way. */
  function Cause(r: Outcome): Option<Happening> {
    match r
    case Next(c) => Some(Dial(c))
    case Cancelled => Some(Cancel)
    case Closed => Some(EndpointCloses)
    case PumpOver => Some(PumpEnds)
    case StillWaiting => None
  }

  /** `accept_serveable`, resuming the script at `from`. Beside a pump (no new
      transports allowed) the pump ending is what the caller's select sees.
      Ghost `h` is any host state the call is made in. */
  method AcceptServeable(script: seq<Happening>, from: nat, claim: Claim, allowNewTransport: bool,
                         ghost h: Host, ghost peerKey: Key)
    returns (r: Outcome, at: nat, busy: seq<HostEvent>)
    requires from <= |script|
    requires h.claim == claim.peer && (if allowNewTransport then h.phase.Accepting? else h.phase.Pumping?)
    ensures from <= at <= |script| && (r.StillWaiting? ==> at == |script|)
    ensures r.PumpOver? ==> !allowNewTransport
    ensures r.Next? ==> !Refused(claim.peer, r.c.node, allowNewTransport)
    ensures Cause(r).Some? ==> from < at && script[at - 1] == Cause(r).value
    ensures Run(h, peerKey, script[from..])
         == Run(h.(trace := h.trace + busy), peerKey, script[if r.StillWaiting? then at else at - 1..])
  {
    at, busy := from, [];
    assert h.trace + [] == h.trace;
    while at < |script|
      invariant from <= at <= |script|
      invariant Run(h, peerKey, script[from..]) == Run(h.(trace := h.trace + busy), peerKey, script[at..])
    {
      var e := script[at];
      at := at + 1;
      assert script[at - 1..][1..] == script[at..];
      match e {
        case Cancel => return Cancelled, at, busy;
        case EndpointCloses => return Closed, at, busy;
        case PumpEnds =>
          if !allowNewTransport {
            return PumpOver, at, busy;
          }
        case HandshakeFailed =>
        case Dial(c) =>
          if !Refused(claim.peer, c.node, allowNewTransport) {
            return Next(c), at, busy;
          }
          assert h.trace + busy + [Busy(c.node)] == h.trace + (busy + [Busy(c.node)]);
          busy := busy + [Busy(c.node)];
      }
    }
    return StillWaiting, at, busy;
  }

  /** What a connection's handshake is made of on this side: own key, both
      nonces, own transport id, and the proof the dialer sends, if one arrives. */
  datatype Handshake = Handshake(me: Key, clientNonce: bytes, nonce: bytes, ownId: bytes, proof: Option<Proof>)

  /** The proof is the one `c.proves` speaks of. */
  predicate Carries(c: Conn, k: Handshake) {
    c.proves <==> k.proof.Some? && Verifies(k.proof.value, c.client,
                    Transcript(Dialer, Terms(c.client, k.me, k.clientNonce, k.nonce, c.node, k.ownId)))
  }

  /** `auth_as_listener` in key mode: the handshake with this host's policy in
      its two closures. `wrote` is what went out in-band: nothing, not even a
      signed challenge, to a dialer the policy turns away. */
  method AuthAsKeyListener(claim: Claim, peerKey: Key, c: Conn, k: Handshake)
    returns (ok: bool, said: seq<HostEvent>, wrote: seq<Message>)
    requires claim.Valid() && Carries(c, k)
    modifies claim
    ensures claim.Valid() && (claim.peer, ok, said) == Authenticated(old(claim.peer), peerKey, c)
    ensures wrote != [] <==> Proved(old(claim.peer), peerKey, c.(proves := true))
    ensures Accepted in wrote <==> Proved(old(claim.peer), peerKey, c)
  {
    said := [Authenticating(c.node)];
    var existing := claim.peer;
    var admit := (key: Key) => c.trusted && key == peerKey && c.cardValid
                               && (existing.None? || existing.value.key == Some(key));
    // What `commit` will answer; it is asked, and takes the claim, only once the
    // proof has verified.
    var commit := (key: Key) => KeyCommitted(existing, key, c.node).0;
    var r, sent, asked := ListenerHandshake(k.me, Some(c.client), k.clientNonce, c.node, k.ownId, k.nonce,
                                            k.proof, admit, commit);
    wrote := sent;
    if !asked {
      return false, said + [Waiting], wrote;
    }
    var held := claim.CommitKey(c.client, c.node);
    if r.None? {
      return false, said + [Waiting], wrote;
    }
    if !c.told {
      return false, said + [Committed(c.node, c.client), Waiting], wrote;
    }
    return true, said + [Committed(c.node, c.client), Paired(c.node, c.client)], wrote;
  }

  /** The host between two turns of its loop: about to accept, or holding a
      connection that preempted. */
  function Turn(claim: Option<ClaimedPeer>, trace: seq<HostEvent>, pending: Option<Conn>, peerKey: Key): Host {
    var h := Host(claim, Accepting, trace);
    if pending.None? then h else Serve(h, peerKey, pending.value)
  }

  /** A turn from the connection on: authenticate it, then pump while still
      accepting. `over` says that the session is. */
  method ServeConnection(script: seq<Happening>, from: nat, peerKey: Key, claim: Claim, conn: Conn, k: Handshake,
                         before: seq<HostEvent>)
    returns (over: bool, phase: Phase, trace: seq<HostEvent>, at: nat, pending: Option<Conn>)
    requires claim.Valid() && Carries(conn, k) && from <= |script|
    modifies claim
    ensures claim.Valid() && from <= at <= |script| && (pending.Some? ==> from < at)
    ensures Run(Turn(old(claim.peer), before, Some(conn), peerKey), peerKey, script[from..])
         == if over then Host(claim.peer, phase, trace)
            else Run(Turn(claim.peer, trace, pending, peerKey), peerKey, script[at..])
  {
    var ok, said, wrote := AuthAsKeyListener(claim, peerKey, conn, k);
    trace := before + said;
    if !ok {
      return false, Accepting, trace, from, None;
    }
    ghost var pumping := Host(claim.peer, Pumping(conn.node), trace);
    var r, next, busy := AcceptServeable(script, from, claim, false, pumping, peerKey);
    trace := trace + busy;
    at := next;
    if r.StillWaiting? {
      return true, Pumping(conn.node), trace, at, None;
    }
    assert script[at - 1..][1..] == script[at..];
    match r {
      case Cancelled =>
        trace := trace + [Shutdown(conn.node)];
        StoppedStays(Host(claim.peer, Stopped, trace), peerKey, script[at..]);
        return true, Stopped, trace, at, None;
      case Next(c) =>
        return false, Accepting, trace + [Superseded(conn.node, c.node)], at, Some(c);
      case PumpOver =>
        return false, Accepting, trace + [Disconnected, Waiting], at, None;
      case Closed =>
        // The next turn's accept finds the endpoint closed at once.
        trace := trace + [Disconnected, Waiting];
        StoppedStays(Host(claim.peer, Stopped, trace), peerKey, script[at..]);
        return true, Stopped, trace, at, None;
    }
  }

  /** `run_server_session`'s accept loop. `pending` carries a preempting
      connection from one turn to the next. */
  method RunServerSession(script: seq<Happening>, peerKey: Key, claim: Claim, handshakes: Conn -> Handshake)
    returns (phase: Phase, trace: seq<HostEvent>)
    requires claim.Valid() && forall c :: Carries(c, handshakes(c))
    modifies claim
    ensures claim.Valid()
    ensures Host(claim.peer, phase, trace) == Run(Host(old(claim.peer), Accepting, []), peerKey, script)
  {
    ghost var start := Host(claim.peer, Accepting, []);
    var at := 0;
    var pending: Option<Conn> := None;
    trace := [];
    while true
      invariant at <= |script| && claim.Valid()
      invariant Run(start, peerKey, script) == Run(Turn(claim.peer, trace, pending, peerKey), peerKey, script[at..])
      decreases |script| - at, if pending.Some? then 1 else 0
    {
      if pending.None? {
        var r, next, busy := AcceptServeable(script, at, claim, true, Host(claim.peer, Accepting, trace), peerKey);
        trace := trace + busy;
        at := next;
        if r.StillWaiting? {
          return Accepting, trace;
        }
        assert script[at - 1..][1..] == script[at..];
        if !r.Next? {
          StoppedStays(Host(claim.peer, Stopped, trace), peerKey, script[at..]);
          return Stopped, trace;
        }
        pending := Some(r.c);
      }
      var conn := pending.value;
      var over;
      over, phase, trace, at, pending := ServeConnection(script, at, peerKey, claim, conn, handshakes(conn), trace);
      if over {
        return;
      }
    }
  }

  lemma {:induction false} StoppedStays(h: Host, peerKey: Key, script: seq<Happening>)
    requires h.phase.Stopped?
    ensures Run(h, peerKey, script) == h
    decreases |script|
  {
    if script == [] {
    } else {
      StoppedStays(Step(h, peerKey, script[0]), peerKey, script[1..]);
    }
  }

  // ---------------------------------------------------------------------
  // What every reachable state keeps
  // ---------------------------------------------------------------------

  /** The claim the trace amounts to: the selected key, at the node id of the
      last proof that verified. */
  function ClaimOf(initial: Option<ClaimedPeer>, trace: seq<HostEvent>): Option<ClaimedPeer> {
    if trace == [] then initial
    else
      var last := trace[|trace| - 1];
      if last.Committed? then Some(ClaimedPeer(Some(last.key), last.node)) else ClaimOf(initial, trace[..|trace| - 1])
  }

  /** How many pumps are running after the trace. */
  function Live(trace: seq<HostEvent>): int {
    if trace == [] then 0
    else
      var last := trace[|trace| - 1];
      Live(trace[..|trace| - 1])
      + (if last.Paired? then 1 else if last.Disconnected? || last.Superseded? || last.Shutdown? then -1 else 0)
  }

  predicate EventHolds(peerKey: Key, e: HostEvent) {
    match e
    case Committed(_, key) => key == peerKey
    case Paired(_, key) => key == peerKey
    case Superseded(prior, next) => prior == next
    case _ => true
  }

  /** The claim of a host for `peerKey`: empty, or that key's. */
  predicate ClaimsOnly(peerKey: Key, claim: Option<ClaimedPeer>) {
    claim.Some? ==> claim.value.key == Some(peerKey)
  }

  ghost predicate TraceHolds(peerKey: Key, trace: seq<HostEvent>) {
    && (forall e :: e in trace ==> EventHolds(peerKey, e))
    && forall i :: 0 <= i <= |trace| ==> 0 <= Live(trace[..i]) <= 1
  }

  ghost predicate Inv(initial: Option<ClaimedPeer>, peerKey: Key, h: Host) {
    && ClaimsOnly(peerKey, h.claim)
    && h.claim == ClaimOf(initial, h.trace)
    && (h.phase.Pumping? ==> h.claim == Some(ClaimedPeer(Some(peerKey), h.phase.node)))
    && Live(h.trace) == (if h.phase.Pumping? then 1 else 0)
    && TraceHolds(peerKey, h.trace)
  }

  /** What one event does to the two readings of a trace. */
  lemma Reads(initial: Option<ClaimedPeer>, trace: seq<HostEvent>, e: HostEvent)
    ensures ClaimOf(initial, trace + [e])
         == if e.Committed? then Some(ClaimedPeer(Some(e.key), e.node)) else ClaimOf(initial, trace)
    ensures Live(trace + [e])
         == Live(trace)
            + if e.Paired? then 1 else if e.Disconnected? || e.Superseded? || e.Shutdown? then -1 else 0
  {
    assert (trace + [e])[..|trace|] == trace;
  }

  lemma Append(peerKey: Key, trace: seq<HostEvent>, e: HostEvent)
    requires TraceHolds(peerKey, trace) && EventHolds(peerKey, e) && 0 <= Live(trace + [e]) <= 1
    ensures TraceHolds(peerKey, trace + [e])
  {
    var longer := trace + [e];
    forall i | 0 <= i <= |longer| ensures 0 <= Live(longer[..i]) <= 1 {
      if i == |longer| {
        assert longer[..i] == longer;
      } else {
        assert longer[..i] == trace[..i];
      }
    }
  }

  /** Events that start and stop no pump and commit nothing. */
  predicate Quiet(e: HostEvent) { e.Busy? || e.Authenticating? || e.Waiting? }

  lemma AppendQuiet(initial: Option<ClaimedPeer>, peerKey: Key, h: Host, e: HostEvent)
    requires Inv(initial, peerKey, h) && Quiet(e)
    ensures Inv(initial, peerKey, h.(trace := h.trace + [e]))
  {
    Reads(initial, h.trace, e);
    Append(peerKey, h.trace, e);
  }

  lemma CommitKeepsInv(initial: Option<ClaimedPeer>, peerKey: Key, h: Host, node: NodeId)
    requires Inv(initial, peerKey, h) && h.phase.Accepting?
    ensures Inv(initial, peerKey,
                h.(claim := Some(ClaimedPeer(Some(peerKey), node)), trace := h.trace + [Committed(node, peerKey)]))
  {
    Reads(initial, h.trace, Committed(node, peerKey));
    Append(peerKey, h.trace, Committed(node, peerKey));
  }

  lemma PairKeepsInv(initial: Option<ClaimedPeer>, peerKey: Key, h: Host, node: NodeId)
    requires Inv(initial, peerKey, h) && h.phase.Accepting? && h.claim == Some(ClaimedPeer(Some(peerKey), node))
    ensures Inv(initial, peerKey, h.(phase := Pumping(node), trace := h.trace + [Paired(node, peerKey)]))
  {
    Reads(initial, h.trace, Paired(node, peerKey));
    Append(peerKey, h.trace, Paired(node, peerKey));
  }

  lemma ServeKeepsInv(initial: Option<ClaimedPeer>, peerKey: Key, h: Host, c: Conn)
    requires Inv(initial, peerKey, h) && h.phase.Accepting?
    ensures Inv(initial, peerKey, Serve(h, peerKey, c))
  {
    AppendQuiet(initial, peerKey, h, Authenticating(c.node));
    var h1 := h.(trace := h.trace + [Authenticating(c.node)]);
    if !Proved(h.claim, peerKey, c) {
      AppendQuiet(initial, peerKey, h1, Waiting);
      assert Serve(h, peerKey, c) == h1.(trace := h1.trace + [Waiting]);
    } else {
      CommitKeepsInv(initial, peerKey, h1, c.node);
      var h2 := h1.(claim := Some(ClaimedPeer(Some(peerKey), c.node)),
                    trace := h1.trace + [Committed(c.node, peerKey)]);
      if c.told {
        PairKeepsInv(initial, peerKey, h2, c.node);
        assert Serve(h, peerKey, c) == h2.(phase := Pumping(c.node), trace := h2.trace + [Paired(c.node, peerKey)]);
      } else {
        AppendQuiet(initial, peerKey, h2, Waiting);
        assert Serve(h, peerKey, c) == h2.(trace := h2.trace + [Waiting]);
      }
    }
  }

  /** A pump that ends, is cancelled or is preempted. */
  lemma EndKeepsInv(initial: Option<ClaimedPeer>, peerKey: Key, h: Host, e: HostEvent, phase: Phase)
    requires Inv(initial, peerKey, h) && h.phase.Pumping? && !phase.Pumping?
    requires EventHolds(peerKey, e) && (e.Disconnected? || e.Superseded? || e.Shutdown?)
    ensures Inv(initial, peerKey, h.(phase := phase, trace := h.trace + [e]))
  {
    Reads(initial, h.trace, e);
    Append(peerKey, h.trace, e);
  }

  lemma StepKeepsInv(initial: Option<ClaimedPeer>, peerKey: Key, h: Host, e: Happening)
    requires Inv(initial, peerKey, h)
    ensures Inv(initial, peerKey, Step(h, peerKey, e))
  {
    match h.phase {
      case Stopped =>
      case Accepting =>
        if e.Dial? {
          ServeKeepsInv(initial, peerKey, h, e.c);
        }
      case Pumping(prior) =>
        match e {
          case HandshakeFailed =>
          case Cancel => EndKeepsInv(initial, peerKey, h, Shutdown(prior), Stopped);
          case Dial(c) =>
            if Refused(h.claim, c.node, false) {
              AppendQuiet(initial, peerKey, h, Busy(c.node));
            } else {
              EndKeepsInv(initial, peerKey, h, Superseded(prior, c.node), Accepting);
              var dropped := h.(phase := Accepting, trace := h.trace + [Superseded(prior, c.node)]);
              ServeKeepsInv(initial, peerKey, dropped, c);
            }
          case _ =>
            var phase := if e.PumpEnds? then Accepting else Stopped;
            EndKeepsInv(initial, peerKey, h, Disconnected, phase);
            AppendQuiet(initial, peerKey, h.(phase := phase, trace := h.trace + [Disconnected]), Waiting);
            assert h.trace + [Disconnected, Waiting] == h.trace + [Disconnected] + [Waiting];
        }
    }
  }

  lemma {:induction false} RunKeepsInv(initial: Option<ClaimedPeer>, peerKey: Key, h: Host, script: seq<Happening>)
    requires Inv(initial, peerKey, h)
    ensures Inv(initial, peerKey, Run(h, peerKey, script))
    decreases |script|
  {
    if script == [] {
    } else {
      StepKeepsInv(initial, peerKey, h, script[0]);
      RunKeepsInv(initial, peerKey, Step(h, peerKey, script[0]), script[1..]);
    }
  }

  /** A host session, started with whatever claim an earlier task under the same
      session key left behind. */
  function Start(claim: Option<ClaimedPeer>): Host { Host(claim, Accepting, []) }

  /** In every reachable state the claim is empty or the selected key's at the
      node id of its last verified proof; a running pump belongs to that node;
      at no moment did two pumps run; every pairing was with the selected key;
      and every preempting connection came from the node it replaced. */
  lemma ServeLoopInvariant(initial: Option<ClaimedPeer>, peerKey: Key, script: seq<Happening>)
    requires ClaimsOnly(peerKey, initial)
    ensures var h := Run(Start(initial), peerKey, script);
            && ClaimsOnly(peerKey, h.claim) && h.claim == ClaimOf(initial, h.trace)
            && (h.phase.Pumping? ==> h.claim == Some(ClaimedPeer(Some(peerKey), h.phase.node)))
            && (forall i :: 0 <= i <= |h.trace| ==> 0 <= Live(h.trace[..i]) <= 1)
            && (forall n, k :: Paired(n, k) in h.trace ==> k == peerKey)
            && (forall p, n :: Superseded(p, n) in h.trace ==> p == n)
  {
    RunKeepsInv(initial, peerKey, Start(initial), script);
    var h := Run(Start(initial), peerKey, script);
    forall n, k | Paired(n, k) in h.trace ensures k == peerKey {
      assert EventHolds(peerKey, Paired(n, k));
    }
    forall p, n | Superseded(p, n) in h.trace ensures p == n {
      assert EventHolds(peerKey, Superseded(p, n));
    }
  }

  /** While a pump runs, a connection gets past the gate exactly when it comes
      from the pump's own node; anyone else's changes nothing but the log. */
  lemma OnlyTheSameNodePreempts(initial: Option<ClaimedPeer>, peerKey: Key, script: seq<Happening>, c: Conn)
    requires ClaimsOnly(peerKey, initial)
    ensures var h := Run(Start(initial), peerKey, script);
            h.phase.Pumping? ==>
              if c.node == h.phase.node then Superseded(c.node, c.node) in Step(h, peerKey, Dial(c)).trace
              else Step(h, peerKey, Dial(c)) == h.(trace := h.trace + [Busy(c.node)])
  {
    RunKeepsInv(initial, peerKey, Start(initial), script);
    var h := Run(Start(initial), peerKey, script);
    if h.phase.Pumping? && c.node == h.phase.node {
      var (_, _, said) := Authenticated(h.claim, peerKey, c);
      var t := h.trace + [Superseded(c.node, c.node)] + said;
      assert t[|h.trace|] == Superseded(c.node, c.node);
    }
  }

  /** Everything the selected device must bring for its connection to pair. */
  predicate Entitled(c: Conn, peerKey: Key) {
    c.trusted && c.client == peerKey && c.cardValid && c.proves && c.told
  }

  /** In every reachable state of a session that goes on, a connection pairs
      exactly when it is entitled to - whatever node it comes from between pumps,
      from the pump's own node during one. */
  lemma PairsExactlyWhen(initial: Option<ClaimedPeer>, peerKey: Key, script: seq<Happening>, c: Conn)
    requires ClaimsOnly(peerKey, initial)
    ensures var h := Run(Start(initial), peerKey, script);
            var trace := Step(h, peerKey, Dial(c)).trace;
            !h.phase.Stopped? ==>
              (trace != [] && trace[|trace| - 1] == Paired(c.node, peerKey)
               <==> Entitled(c, peerKey) && (h.phase.Pumping? ==> c.node == h.phase.node))
  {
    RunKeepsInv(initial, peerKey, Start(initial), script);
    var h := Run(Start(initial), peerKey, script);
    var (_, _, said) := Authenticated(h.claim, peerKey, c);
    assert said[|said| - 1] == (if Entitled(c, peerKey) then Paired(c.node, peerKey) else Waiting);
  }

  /** A session stops exactly when the user cancels it or its endpoint closes:
      failed handshakes, refused dialers, failed authentications and pumps that
      end leave it accepting. */
  lemma {:induction false} StopsExactlyWhen(h: Host, peerKey: Key, script: seq<Happening>)
    requires !h.phase.Stopped?
    ensures Run(h, peerKey, script).phase.Stopped? <==> Cancel in script || EndpointCloses in script
    decreases |script|
  {
    if script == [] {
    } else {
      var g := Step(h, peerKey, script[0]);
      assert script == [script[0]] + script[1..];
      if g.phase.Stopped? {
        StoppedStays(g, peerKey, script[1..]);
      } else {
        StopsExactlyWhen(g, peerKey, script[1..]);
      }
    }
  }

  /** A running pump, in any reachable state: only its own end and an own-node
      connection that does not pair return the host to accepting, only a cancel or
      a closed endpoint stops it, and anything else leaves a pump for the same
      node running. */
  lemma PumpGoesOnUnless(initial: Option<ClaimedPeer>, peerKey: Key, script: seq<Happening>, e: Happening)
    requires ClaimsOnly(peerKey, initial)
    ensures var h := Run(Start(initial), peerKey, script);
            h.phase.Pumping? ==>
              Step(h, peerKey, e).phase
              == if e.PumpEnds? || (e.Dial? && e.c.node == h.phase.node && !Entitled(e.c, peerKey)) then Accepting
                 else if e.Cancel? || e.EndpointCloses? then Stopped
                 else h.phase
  {
    RunKeepsInv(initial, peerKey, Start(initial), script);
    var h := Run(Start(initial), peerKey, script);
    if h.phase.Pumping? && e.Dial? && e.c.node == h.phase.node {
      RecordGrows(h, peerKey, e);
      PreemptionRecord(h, peerKey, e.c);
    }
  }

  // ---------------------------------------------------------------------
  // Pairings and disconnections
  // ---------------------------------------------------------------------

  function Count(trace: seq<HostEvent>, p: HostEvent -> bool): nat {
    if trace == [] then 0 else Count(trace[..|trace| - 1], p) + if p(trace[|trace| - 1]) then 1 else 0
  }

  lemma {:induction false} LiveIsCounts(trace: seq<HostEvent>)
    ensures Live(trace) == Count(trace, (e: HostEvent) => e.Paired?) - Count(trace, (e: HostEvent) => e.Disconnected?)
                           - Count(trace, (e: HostEvent) => e.Superseded?) - Count(trace, (e: HostEvent) => e.Shutdown?)
  {
    if trace == [] {
    } else {
      LiveIsCounts(trace[..|trace| - 1]);
    }
  }

  /** Every pairing is accounted for: its pump is still running, ended by
      itself, was preempted, or was cancelled. Only the second is announced as a
      disconnection, so the two announcements balance exactly when no pump was
      preempted or cancelled. */
  lemma PairingsAreAccountedFor(initial: Option<ClaimedPeer>, peerKey: Key, script: seq<Happening>)
    requires ClaimsOnly(peerKey, initial)
    ensures var h := Run(Start(initial), peerKey, script);
            Count(h.trace, (e: HostEvent) => e.Paired?)
            == (if h.phase.Pumping? then 1 else 0) + Count(h.trace, (e: HostEvent) => e.Disconnected?)
               + Count(h.trace, (e: HostEvent) => e.Superseded?) + Count(h.trace, (e: HostEvent) => e.Shutdown?)
  {
    RunKeepsInv(initial, peerKey, Start(initial), script);
    LiveIsCounts(Run(Start(initial), peerKey, script).trace);
  }

  /** What one happening added to the record. */
  function Added(h: Host, peerKey: Key, e: Happening): seq<HostEvent>
    requires h.trace <= Step(h, peerKey, e).trace
  {
    Step(h, peerKey, e).trace[|h.trace|..]
  }

  lemma RecordGrows(h: Host, peerKey: Key, e: Happening)
    ensures h.trace <= Step(h, peerKey, e).trace
  {
  }

  /** After any script, whatever happens next to a running pump: it ends, and
      the host goes back to waiting, without a disconnection announced exactly
      when a connection preempts it from its own node and is not entitled to pair
      - for want of trust, the selected key, a current card, a proof, or the
      acceptance reaching it. */
  lemma PumpEndsSilentlyExactlyWhen(initial: Option<ClaimedPeer>, peerKey: Key, script: seq<Happening>, e: Happening)
    requires ClaimsOnly(peerKey, initial)
    ensures var h := Run(Start(initial), peerKey, script);
            h.phase.Pumping? ==>
              && h.trace <= Step(h, peerKey, e).trace
              && (Step(h, peerKey, e).phase == Accepting && Disconnected !in Added(h, peerKey, e)
                  <==> e.Dial? && e.c.node == h.phase.node && !Entitled(e.c, peerKey))
  {
    RunKeepsInv(initial, peerKey, Start(initial), script);
    var h := Run(Start(initial), peerKey, script);
    RecordGrows(h, peerKey, e);
    if h.phase.Pumping? {
      match e {
        case PumpEnds => assert Added(h, peerKey, e) == [Disconnected, Waiting];
        case Dial(c) =>
          if c.node == h.phase.node {
            PreemptionRecord(h, peerKey, c);
          }
        case _ =>
      }
    }
  }

  /** What a preempting connection leaves on the record. */
  lemma PreemptionRecord(h: Host, peerKey: Key, c: Conn)
    requires h.phase == Pumping(c.node) && h.claim == Some(ClaimedPeer(Some(peerKey), c.node))
    requires h.trace <= Step(h, peerKey, Dial(c)).trace
    ensures var said := Added(h, peerKey, Dial(c));
            |said| >= 2 && said[0] == Superseded(c.node, c.node) && Disconnected !in said
            && said[|said| - 1] == (if Entitled(c, peerKey) then Paired(c.node, peerKey) else Waiting)
    ensures Step(h, peerKey, Dial(c)).phase == if Entitled(c, peerKey) then Pumping(c.node) else Accepting
  {
    var (_, _, said) := Authenticated(h.claim, peerKey, c);
    assert Step(h, peerKey, Dial(c)).trace == h.trace + ([Superseded(c.node, c.node)] + said);
    assert Added(h, peerKey, Dial(c)) == [Superseded(c.node, c.node)] + said;
  }

  /** The reconnect that fails: a preempting connection from the pump's own node
      drops the pump, leads back to waiting and announces no disconnection, if
      and only if it is not entitled to pair. */
  lemma FailedPreemptionIsSilent(initial: Option<ClaimedPeer>, peerKey: Key, script: seq<Happening>, c: Conn)
    requires ClaimsOnly(peerKey, initial)
    ensures var h := Run(Start(initial), peerKey, script);
            h.phase == Pumping(c.node) ==>
              && h.trace <= Step(h, peerKey, Dial(c)).trace
              && var said := Added(h, peerKey, Dial(c));
                 (Step(h, peerKey, Dial(c)).phase == Accepting
                  && Superseded(c.node, c.node) in said && Waiting in said && Disconnected !in said
                  <==> !Entitled(c, peerKey))
  {
    RunKeepsInv(initial, peerKey, Start(initial), script);
    var h := Run(Start(initial), peerKey, script);
    RecordGrows(h, peerKey, Dial(c));
    if h.phase == Pumping(c.node) {
      PreemptionRecord(h, peerKey, c);
    }
  }

  lemma ThatHappens(peerKey: Key, node: NodeId) returns (script: seq<Happening>)
    ensures var h := Run(Start(None), peerKey, script);
            h.phase == Accepting && Paired(node, peerKey) in h.trace && Disconnected !in h.trace
  {
    var good := Conn(node, peerKey, true, true, true, true);
    script := [Dial(good), Dial(good.(proves := false))];
    var h := Step(Start(None), peerKey, Dial(good));
    assert h.trace == [Authenticating(node), Committed(node, peerKey), Paired(node, peerKey)];
    var g := Step(h, peerKey, script[1]);
    assert g.trace[..3] == h.trace;
    assert g.trace == h.trace + [Superseded(node, node), Authenticating(node), Waiting];
    assert script[1..] == [script[1]];
    assert Paired(node, peerKey) == g.trace[2];
    assert Run(Start(None), peerKey, script) == g by {
      assert Run(h, peerKey, script[1..]) == Run(g, peerKey, script[1..][1..]);
    }
  }
}
