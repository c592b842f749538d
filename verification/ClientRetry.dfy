/** The dialing side's retry loop (runtime.rs, `run_client_session`). The script
    says how each round goes; sleeps and timeouts are part of it. */
module ClientRetry {
  import opened Bytes

  const MAX_CONNECT_ATTEMPTS: nat := 10

  /** How one round of the loop goes. `PumpEnds` connected and served until the
      connection went; an authentication failure of any kind is `AuthFails`. */
  datatype Outcome =
    | CancelledResolving | NotHosting | SelfDial
    | CancelledConnecting | ConnectFails
    | AuthFails | PumpCancelled | PumpEnds

  /** A round, and whether the user cancels during the sleep after it. */
  datatype Round = Round(outcome: Outcome, cancelledAsleep: bool)

  datatype Status = Waiting | Resolving | Connecting | Authenticating | Connected
                  | Reconnecting(attempt: nat, max: nat) | Idle

  datatype ClientEvent = Shown(status: Status) | PeerPaired | PeerDisconnected | Error(why: Ending) | Slept(long: bool)

  datatype Ending = Cancelled | DialedItself | AuthRefused | GaveUp

  datatype Phase = Looking | Ended(why: Ending)

  datatype Client = Client(attempts: nat, connectedBefore: bool, phase: Phase, trace: seq<ClientEvent>)

  /** A round that reached nobody. */
  predicate Missed(o: Outcome) { o.NotHosting? || o.ConnectFails? }

  function Search(connectedBefore: bool): ClientEvent { Shown(if connectedBefore then Resolving else Waiting) }

  /** What a round shows up to the point where the attempt is counted. */
  function Said(connectedBefore: bool, o: Outcome): seq<ClientEvent> {
    [Search(connectedBefore)] +
    match o
    case CancelledResolving => []
    case NotHosting => []
    case SelfDial => [Error(DialedItself), Shown(Idle)]
    case CancelledConnecting => [Shown(Connecting)]
    case ConnectFails => [Shown(Connecting)]
    case AuthFails => [Shown(Connecting), Shown(Authenticating), Error(AuthRefused), Shown(Idle)]
    case PumpCancelled => [Shown(Connecting), Shown(Authenticating), PeerPaired, Shown(Connected)]
    case PumpEnds => [Shown(Connecting), Shown(Authenticating), PeerPaired, Shown(Connected), PeerDisconnected]
  }

  function Over(o: Outcome): Phase {
    match o
    case CancelledResolving => Ended(Cancelled)
    case CancelledConnecting => Ended(Cancelled)
    case PumpCancelled => Ended(Cancelled)
    case SelfDial => Ended(DialedItself)
    case AuthFails => Ended(AuthRefused)
    case _ => Looking
  }

  function Step(c: Client, r: Round): Client {
    if c.phase.Ended? then c
    else
      var o := r.outcome;
      var before := c.connectedBefore || o.PumpEnds? || o.PumpCancelled?;
      var reset := if o.PumpEnds? || o.PumpCancelled? then 0 else c.attempts;
      var trace := c.trace + Said(c.connectedBefore, o);
      if Over(o).Ended? then Client(reset, before, Over(o), trace)
      else
        var attempts := (reset + 1) % U32_MODULUS;
        var resume := if r.cancelledAsleep then Ended(Cancelled) else Looking;
        if !before then
          Client(attempts, before, resume, trace + [Shown(Waiting), Slept(attempts >= MAX_CONNECT_ATTEMPTS)])
        else if attempts >= MAX_CONNECT_ATTEMPTS then
          Client(attempts, before, Ended(GaveUp), trace + [Error(GaveUp), Shown(Idle)])
        else
          Client(attempts, before, resume, trace + [Shown(Reconnecting(attempts, MAX_CONNECT_ATTEMPTS)), Slept(false)])
  }

  function Run(script: seq<Round>): Client {
    if script == [] then Client(0, false, Looking, []) else Step(Run(script[..|script| - 1]), script[|script| - 1])
  }

  lemma RunSnoc(script: seq<Round>, r: Round)
    ensures Run(script + [r]) == Step(Run(script), r)
  {
    assert (script + [r])[..|script|] == script;
  }

  // ---------------------------------------------------------------------
  // The loop as the program runs it
  // ---------------------------------------------------------------------

  method RunClientSession(script: seq<Round>) returns (phase: Phase, trace: seq<ClientEvent>)
    ensures phase == Run(script).phase && trace == Run(script).trace
  {
    var attempts: nat, connectedBefore := 0, false;
    phase, trace := Looking, [];
    var i := 0;
    while i < |script|
      invariant i <= |script|
      invariant Client(attempts, connectedBefore, Looking, trace) == Run(script[..i])
    {
      assert script[..i + 1][..i] == script[..i];
      var o := script[i].outcome;
      i := i + 1;
      EndedStays(script, i);
      trace := trace + Said(connectedBefore, o);
      if o.PumpEnds? || o.PumpCancelled? {
        attempts, connectedBefore := 0, true;
      }
      if Over(o).Ended? {
        return Over(o), trace;
      }
      attempts := (attempts + 1) % U32_MODULUS;
      if !connectedBefore {
        trace := trace + [Shown(Waiting), Slept(attempts >= MAX_CONNECT_ATTEMPTS)];
      } else if attempts >= MAX_CONNECT_ATTEMPTS {
        return Ended(GaveUp), trace + [Error(GaveUp), Shown(Idle)];
      } else {
        trace := trace + [Shown(Reconnecting(attempts, MAX_CONNECT_ATTEMPTS)), Slept(false)];
      }
      if script[i - 1].cancelledAsleep {
        return Ended(Cancelled), trace;
      }
    }
    assert script[..i] == script;
  }

  lemma {:induction false} EndedStays(script: seq<Round>, n: nat)
    requires n <= |script|
    ensures Run(script[..n]).phase.Ended? ==> Run(script) == Run(script[..n])
  {
    if n == |script| {
      assert script[..n] == script;
    } else {
      var shorter := script[..|script| - 1];
      assert shorter[..n] == script[..n];
      EndedStays(shorter, n);
    }
  }

  // ---------------------------------------------------------------------
  // When it gives up
  // ---------------------------------------------------------------------

  /** Whether the loop ever connected. */
  predicate EverConnected(script: seq<Round>) {
    script != [] && (script[|script| - 1].outcome.PumpEnds? || EverConnected(script[..|script| - 1]))
  }

  /** Rounds since the last connection, or since the start. */
  function Misses(script: seq<Round>): nat {
    if script == [] || script[|script| - 1].outcome.PumpEnds? then 0 else Misses(script[..|script| - 1]) + 1
  }

  lemma CountWraps(n: nat)
    ensures (n % U32_MODULUS + 1) % U32_MODULUS == (n + 1) % U32_MODULUS
  {
  }

  lemma LookingStep(c: Client, r: Round)
    requires Step(c, r).phase.Looking?
    ensures var d := Step(c, r);
            && c.phase.Looking? && d.connectedBefore == (c.connectedBefore || r.outcome.PumpEnds?)
            && d.attempts == ((if r.outcome.PumpEnds? then 0 else c.attempts) + 1) % U32_MODULUS
            && (d.connectedBefore ==> d.attempts < MAX_CONNECT_ATTEMPTS)
  {
  }

  /** What the two loop variables mean. */
  predicate Meaning(c: Client, script: seq<Round>) {
    && (c.connectedBefore <==> EverConnected(script))
    && (if c.connectedBefore then c.attempts == Misses(script) + 1 < MAX_CONNECT_ATTEMPTS
        else c.attempts == |script| % U32_MODULUS)
  }

  lemma MeaningKept(c: Client, before: seq<Round>, r: Round)
    requires c.phase.Looking? ==> Meaning(c, before)
    ensures Step(c, r).phase.Looking? ==> Meaning(Step(c, r), before + [r])
  {
    if Step(c, r).phase.Looking? {
      assert (before + [r])[..|before|] == before;
      LookingStep(c, r);
      CountWraps(|before|);
    }
  }

  /** They mean it in every round in which the session is looking. */
  lemma {:induction false} WhileLooking(script: seq<Round>)
    ensures Run(script).phase.Looking? ==> Meaning(Run(script), script)
  {
    if script == [] {
    } else {
      var before, r := script[..|script| - 1], script[|script| - 1];
      WhileLooking(before);
      MeaningKept(Run(before), before, r);
      assert before + [r] == script;
    }
  }

  lemma GivingUpStep(c: Client, r: Round)
    requires c.phase.Looking? && (c.connectedBefore ==> c.attempts < MAX_CONNECT_ATTEMPTS)
    ensures Step(c, r).phase == Ended(GaveUp)
       <==> c.connectedBefore && Missed(r.outcome) && c.attempts == MAX_CONNECT_ATTEMPTS - 1
  {
  }

  /** A session still looking gives up on this round exactly when it has been
      connected before and the round is its ninth miss in a row since - the
      tenth failure, counting the drop. A session that never connected never
      gives up, however long it waits. */
  lemma GivesUpExactlyWhen(script: seq<Round>, r: Round)
    requires Run(script).phase.Looking?
    ensures Step(Run(script), r).phase == Ended(GaveUp)
       <==> EverConnected(script) && Missed(r.outcome) && Misses(script) == MAX_CONNECT_ATTEMPTS - 2
  {
    WhileLooking(script);
    GivingUpStep(Run(script), r);
  }

  /** Between two connections there are at most eight rounds, so a connected
      session reaches a ninth only by ending. */
  lemma NineMissesEnd(script: seq<Round>, misses: seq<Round>)
    requires EverConnected(script) && |misses| == MAX_CONNECT_ATTEMPTS - 1
    requires forall i :: 0 <= i < |misses| ==> !misses[i].outcome.PumpEnds?
    ensures Run(script + misses).phase.Ended?
  {
    WhileLooking(script + misses);
    MissesAtLeast(script, misses);
  }

  lemma {:induction false} MissesAtLeast(script: seq<Round>, misses: seq<Round>)
    requires forall i :: 0 <= i < |misses| ==> !misses[i].outcome.PumpEnds?
    ensures Misses(script + misses) >= |misses| && (EverConnected(script) ==> EverConnected(script + misses))
    decreases |misses|
  {
    if misses == [] {
      assert script + misses == script;
    } else {
      var all, shorter := script + misses, misses[..|misses| - 1];
      assert all[..|all| - 1] == script + shorter && all[|all| - 1] == misses[|misses| - 1];
      MissesAtLeast(script, shorter);
    }
  }

  predicate ShownInRange(e: ClientEvent) {
    e.Shown? && e.status.Reconnecting? ==> 1 <= e.status.attempt < MAX_CONNECT_ATTEMPTS == e.status.max
  }

  lemma StepShowsInRange(c: Client, r: Round, e: ClientEvent)
    requires e in Step(c, r).trace && e !in c.trace
    requires c.phase.Looking? && c.connectedBefore ==> c.attempts < MAX_CONNECT_ATTEMPTS
    ensures ShownInRange(e)
  {
    assert e in Said(c.connectedBefore, r.outcome) ==> ShownInRange(e);
  }

  /** Every attempt number ever shown while reconnecting is one of 1 to 9, of 10. */
  lemma {:induction false} ShownAttemptsAreInRange(script: seq<Round>, e: ClientEvent)
    requires e in Run(script).trace
    ensures ShownInRange(e)
  {
    var before, r := script[..|script| - 1], script[|script| - 1];
    if e in Run(before).trace {
      ShownAttemptsAreInRange(before, e);
    } else {
      WhileLooking(before);
      StepShowsInRange(Run(before), r, e);
    }
  }

  lemma LastSlept(c: Client, r: Round)
    requires c.phase.Looking? && Missed(r.outcome) && Step(c, r).phase != Ended(GaveUp)
    ensures var said := Step(c, r).trace;
            said != [] && said[|said| - 1]
                       == Slept(!c.connectedBefore && (c.attempts + 1) % U32_MODULUS >= MAX_CONNECT_ATTEMPTS)
  {
  }

  /** The long poll is slept exactly by a session that never connected, from its
      tenth round on (until the 32-bit count wraps). */
  lemma LongPollExactlyWhen(script: seq<Round>, r: Round)
    requires Run(script).phase.Looking? && Missed(r.outcome) && Step(Run(script), r).phase != Ended(GaveUp)
    ensures var said := Step(Run(script), r).trace;
            said != [] && said[|said| - 1]
                       == Slept(!EverConnected(script) && (|script| + 1) % U32_MODULUS >= MAX_CONNECT_ATTEMPTS)
  {
    WhileLooking(script);
    CountWraps(|script|);
    LastSlept(Run(script), r);
  }

  /** A measure that every round without a connection lowers, once connected. */
  lemma MissesLowerTheMeasure(script: seq<Round>, r: Round)
    requires EverConnected(script) && !r.outcome.PumpEnds?
    requires Run(script).phase.Looking? && Run(script + [r]).phase.Looking?
    ensures 0 <= MAX_CONNECT_ATTEMPTS - Run(script + [r]).attempts < MAX_CONNECT_ATTEMPTS - Run(script).attempts
  {
    WhileLooking(script);
    RunSnoc(script, r);
    WhileLooking(script + [r]);
  }

  // ---------------------------------------------------------------------
  // How a session ends and what it announces
  // ---------------------------------------------------------------------

  /** Rounds after which the loop would sleep and go round again. */
  predicate WouldRetry(script: seq<Round>, r: Round) {
    (Missed(r.outcome) || r.outcome.PumpEnds?)
    && !(EverConnected(script) && Missed(r.outcome) && Misses(script) == MAX_CONNECT_ATTEMPTS - 2)
  }

  /** A session still looking ends on this round exactly for one of four reasons:
      it dialed itself, authentication failed, it gave up, or the user cancelled -
      while resolving, connecting, pumping, or during the sleep before the next
      round. */
  lemma EndsExactlyWhen(script: seq<Round>, r: Round)
    requires Run(script).phase.Looking?
    ensures var phase, o := Step(Run(script), r).phase, r.outcome;
            && (phase == Ended(DialedItself) <==> o.SelfDial?)
            && (phase == Ended(AuthRefused) <==> o.AuthFails?)
            && (phase == Ended(Cancelled) <==> || o.CancelledResolving? || o.CancelledConnecting? || o.PumpCancelled?
                                               || (r.cancelledAsleep && WouldRetry(script, r)))
            && (phase == Looking <==> !r.cancelledAsleep && WouldRetry(script, r))
  {
    WhileLooking(script);
  }

  predicate Announcement(e: ClientEvent) { e.PeerPaired? || e.PeerDisconnected? }

  /** The announcements in what was said, in order. */
  function Announced(said: seq<ClientEvent>): seq<ClientEvent> {
    if said == [] then []
    else Announced(said[..|said| - 1]) + if Announcement(said[|said| - 1]) then [said[|said| - 1]] else []
  }

  lemma {:induction false} AnnouncedConcat(a: seq<ClientEvent>, b: seq<ClientEvent>)
    ensures Announced(a + b) == Announced(a) + Announced(b)
  {
    if b == [] {
      assert a + b == a && Announced(a) + [] == Announced(a);
    } else {
      var n := |b| - 1;
      assert (a + b)[..|a + b| - 1] == a + b[..n] && (a + b)[|a + b| - 1] == b[n];
      AnnouncedConcat(a, b[..n]);
    }
  }

  lemma {:induction false} NothingAnnounced(said: seq<ClientEvent>)
    requires forall i :: 0 <= i < |said| ==> !Announcement(said[i])
    ensures Announced(said) == []
  {
    if said == [] {
    } else {
      NothingAnnounced(said[..|said| - 1]);
    }
  }

  /** What a round's course announces: a connection when it is made, and its loss. */
  function AnnouncedBy(o: Outcome): seq<ClientEvent> {
    if o.PumpEnds? then [PeerPaired, PeerDisconnected] else if o.PumpCancelled? then [PeerPaired] else []
  }

  lemma AnnouncedSnoc(said: seq<ClientEvent>, e: ClientEvent)
    ensures Announced(said + [e]) == Announced(said) + if Announcement(e) then [e] else []
  {
    assert (said + [e])[..|said|] == said;
  }

  lemma ConnectingAnnounces(quiet: seq<ClientEvent>)
    requires forall i :: 0 <= i < |quiet| ==> !Announcement(quiet[i])
    ensures var said := quiet + [PeerPaired] + [Shown(Connected)];
            Announced(said) == [PeerPaired] && Announced(said + [PeerDisconnected]) == [PeerPaired, PeerDisconnected]
  {
    NothingAnnounced(quiet);
    AnnouncedSnoc(quiet, PeerPaired);
    AnnouncedSnoc(quiet + [PeerPaired], Shown(Connected));
    AnnouncedSnoc(quiet + [PeerPaired] + [Shown(Connected)], PeerDisconnected);
  }

  lemma SaidAnnounces(connectedBefore: bool, o: Outcome)
    ensures Announced(Said(connectedBefore, o)) == AnnouncedBy(o)
  {
    if o.PumpEnds? || o.PumpCancelled? {
      var quiet := [Search(connectedBefore), Shown(Connecting), Shown(Authenticating)];
      ConnectingAnnounces(quiet);
      assert Said(connectedBefore, PumpCancelled) == quiet + [PeerPaired] + [Shown(Connected)];
      assert Said(connectedBefore, PumpEnds) == quiet + [PeerPaired] + [Shown(Connected)] + [PeerDisconnected];
    } else {
      NothingAnnounced(Said(connectedBefore, o));
    }
  }

  /** A round adds what its course says, and then only statuses, errors and sleeps. */
  lemma RoundSays(c: Client, r: Round) returns (rest: seq<ClientEvent>)
    requires c.phase.Looking?
    ensures Step(c, r).trace == c.trace + Said(c.connectedBefore, r.outcome) + rest
    ensures forall i :: 0 <= i < |rest| ==> !Announcement(rest[i])
  {
    var n := |c.trace + Said(c.connectedBefore, r.outcome)|;
    rest := Step(c, r).trace[n..];
  }

  /** What a script's rounds announce, up to where the session ends. */
  function AnnouncedOver(script: seq<Round>): seq<ClientEvent> {
    if script == [] then []
    else
      var before, o := script[..|script| - 1], script[|script| - 1].outcome;
      AnnouncedOver(before) + if Run(before).phase.Looking? then AnnouncedBy(o) else []
  }

  /** Over any script, every connection is announced once when it is made and once
      more when it is lost, in that order, and nothing else is. */
  lemma {:induction false} AnnouncementsMatchRounds(script: seq<Round>)
    ensures Announced(Run(script).trace) == AnnouncedOver(script)
  {
    if script == [] {
    } else {
      var before, r := script[..|script| - 1], script[|script| - 1];
      var c := Run(before);
      AnnouncementsMatchRounds(before);
      if c.phase.Looking? {
        var said := Said(c.connectedBefore, r.outcome);
        var rest := RoundSays(c, r);
        NothingAnnounced(rest);
        SaidAnnounces(c.connectedBefore, r.outcome);
        AnnouncedConcat(c.trace, said);
        AnnouncedConcat(c.trace + said, rest);
        assert Announced(c.trace + said) + [] == Announced(c.trace + said);
      } else {
        assert AnnouncedOver(before) + [] == AnnouncedOver(before);
      }
    }
  }

  /** Every round opens as a search for the peer: as waiting for it until a first
      connection, as resolving it again after. */
  lemma RoundOpensWith(script: seq<Round>, r: Round)
    requires Run(script).phase.Looking?
    ensures var was, now := Run(script).trace, Step(Run(script), r).trace;
            && |was| < |now| && was == now[..|was|]
            && now[|was|] == Shown(if EverConnected(script) then Resolving else Waiting)
  {
    WhileLooking(script);
    var rest := RoundSays(Run(script), r);
  }

  /** A session that ends by its own doing says why and goes idle, last thing; one
      the user cancels says nothing of the kind. */
  lemma EndsSayingWhy(script: seq<Round>, r: Round)
    requires Run(script).phase.Looking? && Step(Run(script), r).phase.Ended?
    ensures var why, was, now := Step(Run(script), r).phase.why, Run(script).trace, Step(Run(script), r).trace;
            && |was| < |now|
            && (why.Cancelled? <==> forall i :: |was| <= i < |now| ==> !now[i].Error?)
            && (!why.Cancelled? ==> now[|now| - 2] == Error(why) && now[|now| - 1] == Shown(Idle))
  {
    EndsSaying(Run(script), r);
  }

  lemma EndsSaying(c: Client, r: Round)
    requires c.phase.Looking? && Step(c, r).phase.Ended?
    ensures var why, now := Step(c, r).phase.why, Step(c, r).trace;
            && |c.trace| < |now|
            && (why.Cancelled? ==> forall i :: |c.trace| <= i < |now| ==> !now[i].Error?)
            && (!why.Cancelled? ==> |now| - 2 >= |c.trace| && now[|now| - 2] == Error(why)
                                    && now[|now| - 1] == Shown(Idle))
  {
  }
}
