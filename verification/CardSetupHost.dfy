/** The card-setup host (runtime.rs): one dialer at a time until one has proved
    the PIN on screen, then one card each way, then stop. The script is what the
    environment does to the host, the publisher's work on the PIN window
    included. */
module CardSetupHost {
  import opened Bytes
  import opened Wrappers
  import opened PairClaim
  import opened PinAuth
  import PinHost
  import ServeLoop

  type Card = bytes

  /** A connection: the PIN its user typed, whether both ends see the same
      endpoints, whether the acceptance goes out, and the card that arrives, if
      the exchange completes in time. */
  datatype Conn = Conn(node: NodeId, pin: PinPassword, sameIds: bool, told: bool, card: Option<Card>)

  datatype Happening = Pins(op: PinHost.PinOp) | Dial(c: Conn) | HandshakeFailed | Cancel | EndpointCloses

  datatype SetupEvent = Busy(node: NodeId) | Authenticating(node: NodeId) | Paired(node: NodeId)
                      | CardReceived(card: Card) | Failed | Waiting | Idle

  datatype Host = Host(claim: Option<ClaimedPeer>, window: seq<PinPassword>, done: bool, trace: seq<SetupEvent>)

  predicate Admitted(window: seq<PinPassword>, claim: Option<ClaimedPeer>, c: Conn) {
    c.pin in PinHost.Candidates(window, claim, c.node) && c.sameIds && PinCommitted(claim, c.node).0
  }

  /** One dialer past the gate. How far it got decides whether listening on is
      useful: not once the claim is its own. */
  function Serve(h: Host, c: Conn): Host {
    var ok := Admitted(h.window, h.claim, c);
    var claim := if ok then PinCommitted(h.claim, c.node).1 else h.claim;
    var trace := h.trace + [Authenticating(c.node)] + (if ok && c.told then [Paired(c.node)] else []);
    if ok && c.told && c.card.Some? then Host(claim, h.window, true, trace + [CardReceived(c.card.value), Idle])
    else if claim.Some? && claim.value.node == c.node then Host(claim, h.window, true, trace + [Failed, Idle])
    else Host(claim, h.window, false, trace + [Waiting])
  }

  function Step(h: Host, e: Happening): Host {
    if h.done then h
    else
      match e
      case Pins(op) => h.(window := PinHost.Step(h.window, op))
      case HandshakeFailed => h
      case Cancel => h.(done := true, trace := h.trace + [Idle])
      case EndpointCloses => h.(done := true, trace := h.trace + [Idle])
      case Dial(c) =>
        if ServeLoop.Refused(h.claim, c.node, false) then h.(trace := h.trace + [Busy(c.node)]) else Serve(h, c)
  }

  function Run(h: Host, script: seq<Happening>): Host {
    if script == [] then h else Step(Run(h, script[..|script| - 1]), script[|script| - 1])
  }

  lemma RunSnoc(h: Host, script: seq<Happening>, e: Happening)
    ensures Run(h, script + [e]) == Step(Run(h, script), e)
  {
    assert (script + [e])[..|script|] == script;
  }

  // ---------------------------------------------------------------------
  // The same host as the program's loop
  // ---------------------------------------------------------------------

  /** Serves one dialer: the PIN handshake, then the exchange. */
  method ServeOne(c: Conn, claim: Claim, recent: PinHost.RecentPins, view: Ids, other: Ids,
                  coinsA: Slot -> nat, coinsB: Slot -> nat, dummies: Slot -> PinPassword, before: seq<SetupEvent>)
    returns (done: bool, trace: seq<SetupEvent>)
    requires claim.Valid() && (view == other) == c.sameIds && |recent.pins| <= PinHost.RECENT_PIN_CACHE
    modifies claim
    ensures claim.Valid()
    ensures Host(claim.peer, recent.pins, done, trace) == Serve(Host(old(claim.peer), recent.pins, false, before), c)
  {
    trace := before + [Authenticating(c.node)];
    AcceptedIsAdmitted(recent.pins, claim.peer, c);
    var ok := PinHost.AuthAsPinListener(recent, claim, c.node, c.pin, view, other, coinsA, coinsB, dummies);
    trace := trace + if ok && c.told then [Paired(c.node)] else [];
    if ok && c.told && c.card.Some? {
      return true, trace + [CardReceived(c.card.value), Idle];
    }
    var holder := claim.peer;
    if holder.Some? && holder.value.node == c.node {
      return true, trace + [Failed, Idle];
    }
    return false, trace + [Waiting];
  }

  /** `Admitted` is what the handshake of both ends decides. */
  lemma AcceptedIsAdmitted(window: seq<PinPassword>, claim: Option<ClaimedPeer>, c: Conn)
    requires |window| <= PinHost.RECENT_PIN_CACHE
    ensures Admitted(window, claim, c) <==> PinHost.Accepts(window, claim, c.node, c.pin, c.sameIds)
  {
    var recent := PinHost.Candidates(window, claim, c.node);
    if c.pin in recent {
      var i: Slot :| i < |recent| && recent[i] == c.pin;
      assert Honoured(recent, c.pin, i);
    }
  }

  /** `run_card_setup_host`, with the publisher's pushes and refreshes arriving
      as the script says. `views` are the two endpoints' ids as each connection
      sees them. */
  method RunCardSetupHost(script: seq<Happening>, claim: Claim, recent: PinHost.RecentPins, views: Conn -> (Ids, Ids),
                          coinsA: Slot -> nat, coinsB: Slot -> nat, dummies: Slot -> PinPassword)
    returns (done: bool, trace: seq<SetupEvent>)
    requires claim.Valid() && |recent.pins| <= PinHost.RECENT_PIN_CACHE
    requires forall c: Conn :: (views(c).0 == views(c).1) == c.sameIds
    modifies claim, recent
    ensures claim.Valid()
    ensures Host(claim.peer, recent.pins, done, trace)
         == Run(Host(old(claim.peer), old(recent.pins), false, []), script)
  {
    ghost var start := Host(claim.peer, recent.pins, false, []);
    done, trace := false, [];
    var at := 0;
    while at < |script| && !done
      invariant at <= |script| && claim.Valid() && |recent.pins| <= PinHost.RECENT_PIN_CACHE
      invariant Host(claim.peer, recent.pins, done, trace) == Run(start, script[..at])
    {
      RunSnoc(start, script[..at], script[at]);
      assert script[..at + 1] == script[..at] + [script[at]];
      match script[at] {
        case Pins(Push(password)) => recent.Push(password);
        case Pins(Revoke) => recent.Clear();
        case HandshakeFailed =>
        case Cancel => done, trace := true, trace + [Idle];
        case EndpointCloses => done, trace := true, trace + [Idle];
        case Dial(c) =>
          if ServeLoop.Refused(claim.peer, c.node, false) {
            trace := trace + [Busy(c.node)];
          } else {
            done, trace := ServeOne(c, claim, recent, views(c).0, views(c).1, coinsA, coinsB, dummies, trace);
          }
      }
      at := at + 1;
    }
    if done {
      DoneStays(start, script, at);
    } else {
      assert script[..at] == script;
    }
  }

  lemma {:induction false} DoneStays(h: Host, script: seq<Happening>, n: nat)
    requires n <= |script| && Run(h, script[..n]).done
    ensures Run(h, script) == Run(h, script[..n])
  {
    if n == |script| {
      assert script[..n] == script;
    } else {
      var shorter := script[..|script| - 1];
      assert shorter[..n] == script[..n];
      DoneStays(h, shorter, n);
    }
  }

  // ---------------------------------------------------------------------
  // What every reachable state keeps
  // ---------------------------------------------------------------------

  predicate Outcome(e: SetupEvent) { e.Paired? || e.CardReceived? || e.Failed? || e.Idle? }

  /** Until it ends, a session has paired with nobody and the claim is as it
      found it. */
  ghost predicate Inv(initial: Option<ClaimedPeer>, h: Host) {
    && (initial.Some? ==> h.claim == initial)
    && (h.claim.Some? ==> h.claim.value.key.None?)
    && (!h.done ==> h.claim == initial && forall e :: e in h.trace ==> !Outcome(e))
    && (h.done ==> exists n :: Ended(h, n))
  }

  /** How a finished session's record reads: nothing but refusals and failed
      attempts for its first `n` events, then how it ended. */
  predicate Ended(h: Host, n: nat) {
    && n < |h.trace| && (forall i :: 0 <= i < n ==> !Outcome(h.trace[i]))
    && var ending := h.trace[n..];
       || ending == [Idle]
       || ending == [Failed, Idle]
       || (h.claim.Some? && |ending| == 3 && ending[0] == Paired(h.claim.value.node)
           && (ending[1].CardReceived? || ending[1].Failed?) && ending[2] == Idle)
  }

  lemma StepKeepsInv(initial: Option<ClaimedPeer>, h: Host, e: Happening)
    requires Inv(initial, h)
    ensures Inv(initial, Step(h, e))
  {
    var g := Step(h, e);
    if !h.done && g.done {
      var n := |h.trace| + if e.Dial? then 1 else 0;
      if e.Dial? {
        ServeEnds(initial, h, e.c);
      } else {
        assert g.trace[n..] == [Idle];
      }
      assert Ended(g, n);
    }
  }

  lemma ServeEnds(initial: Option<ClaimedPeer>, h: Host, c: Conn)
    requires Inv(initial, h) && !h.done && !ServeLoop.Refused(h.claim, c.node, false) && Serve(h, c).done
    ensures Ended(Serve(h, c), |h.trace| + 1)
  {
    var g := Serve(h, c);
    var before := h.trace + [Authenticating(c.node)];
    assert g.trace[..|before|] == before;
    forall i | 0 <= i < |before| ensures !Outcome(g.trace[i]) {
      assert g.trace[i] == before[i];
    }
    if Admitted(h.window, h.claim, c) && c.told {
      var second := if c.card.Some? then CardReceived(c.card.value) else Failed;
      assert g.trace == before + [Paired(c.node), second, Idle];
      assert g.trace[|before|..] == [Paired(c.node), second, Idle];
    } else {
      assert g.trace == before + [Failed, Idle];
      assert g.trace[|before|..] == [Failed, Idle];
    }
  }

  lemma {:induction false} RunKeepsInv(initial: Option<ClaimedPeer>, h: Host, script: seq<Happening>)
    requires Inv(initial, h)
    ensures Inv(initial, Run(h, script))
  {
    if script == [] {
    } else {
      RunKeepsInv(initial, h, script[..|script| - 1]);
      StepKeepsInv(initial, Run(h, script[..|script| - 1]), script[|script| - 1]);
    }
  }

  /** A session under the memory an earlier one left behind. */
  function Start(claim: Option<ClaimedPeer>, window: seq<PinPassword>): Host { Host(claim, window, false, []) }

  /** In every reachable state: a claim once held keeps its node; before the end
      nobody was paired; and a session that has ended paired with at most one
      device, the claim's, and took at most one card, from it, last thing. */
  lemma CardSetupInvariant(initial: Option<ClaimedPeer>, window: seq<PinPassword>, script: seq<Happening>)
    requires initial.Some? ==> initial.value.key.None?
    ensures var h := Run(Start(initial, window), script);
            && (initial.Some? ==> h.claim == initial)
            && (!h.done ==> h.claim == initial && forall e :: e in h.trace ==> !Outcome(e))
            && (h.done ==> exists n :: Ended(h, n))
  {
    RunKeepsInv(initial, Start(initial, window), script);
  }

  // ---------------------------------------------------------------------
  // Who gets a card
  // ---------------------------------------------------------------------

  function PinOps(script: seq<Happening>): seq<PinHost.PinOp> {
    if script == [] then []
    else
      var last := script[|script| - 1];
      PinOps(script[..|script| - 1]) + if last.Pins? then [last.op] else []
  }

  lemma {:induction false} WindowFollowsOps(h: Host, script: seq<Happening>)
    requires !Run(h, script).done
    ensures Run(h, script).window == PinHost.Window(h.window, PinOps(script))
  {
    if script == [] {
    } else {
      var before, last := script[..|script| - 1], script[|script| - 1];
      WindowFollowsOps(h, before);
      if last.Pins? {
        PinHost.WindowSnoc(h.window, PinOps(before), last.op);
      } else {
        assert PinOps(before) + [] == PinOps(before);
      }
    }
  }

  lemma CardStep(h: Host, c: Conn, card: Card)
    requires !h.done && CardReceived(card) !in h.trace && (h.claim.Some? ==> h.claim.value.key.None?)
    ensures CardReceived(card) in Step(h, Dial(c)).trace
       <==> && c.told && c.card == Some(card) && c.pin in h.window && c.sameIds
            && (h.claim.None? || h.claim.value.node == c.node)
  {
    var g := Step(h, Dial(c));
    if Admitted(h.window, h.claim, c) && c.told && c.card == Some(card) {
      assert g.trace[|g.trace| - 2] == CardReceived(card);
    }
  }

  /** After any history of a session, started under any claim and window an
      earlier one left behind, a card is taken from a dialer exactly when the host
      is still listening, nobody else holds the claim, the PIN it proves is still
      honoured, and its card arrives. */
  lemma CardCrossesExactlyWhen(initial: Option<ClaimedPeer>, window: seq<PinPassword>, script: seq<Happening>, c: Conn,
                               card: Card)
    requires initial.Some? ==> initial.value.key.None?
    ensures var h := Run(Start(initial, window), script);
            !h.done ==>
              (CardReceived(card) in Step(h, Dial(c)).trace
               <==> && c.told && c.card == Some(card)
                    && c.pin in PinHost.Window(window, PinOps(script)) && c.sameIds
                    && (initial.None? || initial.value.node == c.node))
  {
    var h := Run(Start(initial, window), script);
    if !h.done {
      RunKeepsInv(initial, Start(initial, window), script);
      WindowFollowsOps(Start(initial, window), script);
      assert Outcome(CardReceived(card));
      CardStep(h, c, card);
    }
  }

  /** What that window is over the whole life of the memory: the last two passwords
      since the last refresh, whether pushed in this session or in `earlier` ones. */
  lemma HonouredOverTheWholeMemory(earlier: seq<PinHost.PinOp>, script: seq<Happening>)
    ensures PinHost.Window(PinHost.Window([], earlier), PinOps(script))
         == PinHost.Keep(PinHost.SinceRevoke(earlier + PinOps(script)))
  {
    PinHost.WindowConcat([], earlier, PinOps(script));
    PinHost.WindowIsLastTwo(earlier + PinOps(script));
  }

  lemma WrongPinStep(h: Host, c: Conn)
    requires !h.done && c.pin !in h.window
    ensures var g := Step(h, Dial(c));
            && g.claim == h.claim
            && (g.done <==> h.claim.Some? && h.claim.value.node == c.node && !ServeLoop.Refused(h.claim, c.node, false))
  {
    assert !Admitted(h.window, h.claim, c);
  }

  /** A dialer that does not prove the PIN costs the host nothing - unless it
      is the one an earlier session already gave the claim to, whose failure
      ends the session. */
  lemma WrongPinKeepsListening(initial: Option<ClaimedPeer>, window: seq<PinPassword>, script: seq<Happening>, c: Conn)
    requires initial.Some? ==> initial.value.key.None?
    ensures var h := Run(Start(initial, window), script);
            !h.done && c.pin !in PinHost.Window(window, PinOps(script)) ==>
              var g := Step(h, Dial(c));
              g.claim == h.claim && (g.done <==> initial.Some? && initial.value.node == c.node)
  {
    var h := Run(Start(initial, window), script);
    if !h.done && c.pin !in PinHost.Window(window, PinOps(script)) {
      RunKeepsInv(initial, Start(initial, window), script);
      WindowFollowsOps(Start(initial, window), script);
      WrongPinStep(h, c);
    }
  }

  // ---------------------------------------------------------------------
  // Everything a happening can do
  // ---------------------------------------------------------------------

  /** Whether the PIN a connection proves is one this session still honours. */
  predicate Honours(window: seq<PinPassword>, script: seq<Happening>, c: Conn) {
    c.pin in PinHost.Window(window, PinOps(script)) && c.sameIds
  }

  lemma DialStep(h: Host, c: Conn)
    requires !h.done && (h.claim.Some? ==> h.claim.value.key.None?) && forall e :: e in h.trace ==> !Outcome(e)
    ensures var g, ok := Step(h, Dial(c)), c.pin in h.window && c.sameIds;
            if h.claim.Some? && h.claim.value.node != c.node then g == h.(trace := h.trace + [Busy(c.node)])
            else && g.claim == (if ok then Some(ClaimedPeer(None, c.node)) else h.claim) && g.window == h.window
                 && (g.done <==> g.claim.Some?)
                 && (Paired(c.node) in g.trace <==> ok && c.told)
                 && (Failed in g.trace <==> g.done && !(ok && c.told && c.card.Some?))
                 && (Waiting == g.trace[|g.trace| - 1] <==> !g.done)
  {
    var g := Step(h, Dial(c));
    if !(h.claim.Some? && h.claim.value.node != c.node) {
      var ok := Admitted(h.window, h.claim, c);
      var n := |h.trace|;
      assert ok && c.told ==> g.trace[n + 1] == Paired(c.node);
      assert g.done && !(ok && c.told && c.card.Some?) ==> g.trace[|g.trace| - 2] == Failed;
    }
  }

  /** A dialer, in any state a session reaches while it listens: turned away with no
      other effect exactly when somebody else holds the claim; otherwise given the
      claim exactly when its PIN is honoured, announced exactly when it then hears
      so, and the session over exactly when the claim is its own. */
  lemma DialDoes(initial: Option<ClaimedPeer>, window: seq<PinPassword>, script: seq<Happening>, c: Conn)
    requires initial.Some? ==> initial.value.key.None?
    ensures var h := Run(Start(initial, window), script);
            !h.done ==>
              var g, ok := Step(h, Dial(c)), Honours(window, script, c);
              if initial.Some? && initial.value.node != c.node then g == h.(trace := h.trace + [Busy(c.node)])
              else && g.claim == (if ok then Some(ClaimedPeer(None, c.node)) else initial) && g.window == h.window
                   && (g.done <==> g.claim.Some?)
                   && (Paired(c.node) in g.trace <==> ok && c.told)
                   && (Failed in g.trace <==> g.done && !(ok && c.told && c.card.Some?))
                   && (Waiting == g.trace[|g.trace| - 1] <==> !g.done)
  {
    var h := Run(Start(initial, window), script);
    if !h.done {
      RunKeepsInv(initial, Start(initial, window), script);
      WindowFollowsOps(Start(initial, window), script);
      DialStep(h, c);
    }
  }

  /** A session ends exactly by a cancel, its endpoint closing, or serving the
      device that holds the claim or proves an honoured PIN for a free one. A
      failed handshake, a refused dialer, a wrong PIN and the publisher's work
      leave it listening. */
  lemma SessionEndsExactlyWhen(initial: Option<ClaimedPeer>, window: seq<PinPassword>, script: seq<Happening>,
                               e: Happening)
    requires initial.Some? ==> initial.value.key.None?
    ensures var h := Run(Start(initial, window), script);
            !h.done ==>
              (Step(h, e).done
               <==> || e.Cancel? || e.EndpointCloses?
                    || (e.Dial? && if initial.Some? then initial.value.node == e.c.node
                                   else Honours(window, script, e.c)))
  {
    if e.Dial? {
      DialDoes(initial, window, script, e.c);
    }
  }
}
