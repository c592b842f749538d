/** The command loop (runtime.rs, `net_main`): which session tasks run, and which
    pairing state each of them is lent. */
module SessionMemory {
  import opened Bytes
  import opened Wrappers
  import opened KeyAuth
  import opened PairClaim
  import opened PinAuth
  import PinHost

  datatype Channel = LanThenNostr | NostrOnly | LanOnly

  /** What a start command carries. Own cards, relays and target addresses are
      not part of the session's identity. */
  datatype SessionKind =
    | HostCardSetup(selfCard: bytes, channel: Channel, relays: seq<string>)
    | HostKey(publicKey: Key, peer: Key, channel: Channel)
    | JoinCardSetup(pin: string, selfCard: bytes, target: Option<string>, channel: Channel, relays: seq<string>)
    | DialKey(publicKey: Key, peer: Key, channel: Channel)

  datatype SessionKey =
    | ServerCardSetup(channel: Channel)
    | ServerKey(publicKey: Key, peer: Key, channel: Channel)
    | ClientCardSetup(pin: string, channel: Channel)
    | ClientKey(publicKey: Key, peer: Key, channel: Channel)

  function KeyOf(kind: SessionKind): SessionKey {
    match kind
    case HostCardSetup(_, channel, _) => ServerCardSetup(channel)
    case HostKey(me, peer, channel) => ServerKey(me, peer, channel)
    case JoinCardSetup(pin, _, _, channel, _) => ClientCardSetup(pin, channel)
    case DialKey(me, peer, channel) => ClientKey(me, peer, channel)
  }

  /** Two start commands that are the same session to the user: same role and mode
      on the same channel, and the same two devices, or the same PIN. */
  predicate SameSession(a: SessionKind, b: SessionKind) {
    match (a, b)
    case (HostCardSetup(_, c, _), HostCardSetup(_, d, _)) => c == d
    case (HostKey(me, peer, c), HostKey(me2, peer2, d)) => me == me2 && peer == peer2 && c == d
    case (JoinCardSetup(pin, _, _, c, _), JoinCardSetup(pin2, _, _, d, _)) => pin == pin2 && c == d
    case (DialKey(me, peer, c), DialKey(me2, peer2, d)) => me == me2 && peer == peer2 && c == d
    case _ => false
  }

  /** The session key tells apart exactly those that are not. */
  lemma KeysMeanSessions(a: SessionKind, b: SessionKind)
    ensures KeyOf(a) == KeyOf(b) <==> SameSession(a, b)
  {
  }

  /** What the loop and its tasks do: the user's commands, and between them a
      running task committing its claim, feeding its PIN window, or ending. */
  datatype Event =
    | StartServer(kind: SessionKind) | Connect(kind: SessionKind)
    | StopServer | Disconnect
    | RefreshPin | SendClipboard(text: string) | QueryConnPath
    | Shutdown
    | TaskCommits(op: Commit) | TaskPins(pinOp: PinHost.PinOp) | TaskEnds

  predicate Starts(e: Event) { e.StartServer? || e.Connect? }

  predicate Resets(e: Event) { e.StopServer? || e.Disconnect? }

  // ---------------------------------------------------------------------
  // The loop on values
  // ---------------------------------------------------------------------

  /** The held memory; `id` is the position of the start command it was minted
      for. */
  datatype Mem = Mem(key: SessionKey, id: nat, claim: Option<ClaimedPeer>, pins: seq<PinPassword>)

  /** `running` is the position of the running task's start command. */
  datatype State = State(mem: Option<Mem>, running: Option<nat>)

  function Remember(mem: Option<Mem>, key: SessionKey, at: nat): Mem {
    if mem.None? || mem.value.key != key then Mem(key, at, None, []) else mem.value
  }

  function Step(s: State, at: nat, e: Event): State {
    match e
    case StartServer(kind) => State(Some(Remember(s.mem, KeyOf(kind), at)), Some(at))
    case Connect(kind) => State(Some(Remember(s.mem, KeyOf(kind), at)), Some(at))
    case StopServer => State(None, None)
    case Disconnect => State(None, None)
    case Shutdown => s.(running := None)
    case TaskEnds => s.(running := None)
    case TaskCommits(op) =>
      if s.running.Some? && s.mem.Some?
      then s.(mem := Some(s.mem.value.(claim := Apply(s.mem.value.claim, op).1)))
      else s
    case TaskPins(op) =>
      if s.running.Some? && s.mem.Some?
      then s.(mem := Some(s.mem.value.(pins := PinHost.Step(s.mem.value.pins, op))))
      else s
    case _ => s
  }

  function After(events: seq<Event>): State {
    if events == [] then State(None, None)
    else Step(After(events[..|events| - 1]), |events| - 1, events[|events| - 1])
  }

  lemma AfterSnoc(events: seq<Event>, n: nat)
    requires n < |events|
    ensures After(events[..n + 1]) == Step(After(events[..n]), n, events[n])
  {
    assert events[..n + 1][..n] == events[..n];
  }

  /** The memory the task started at `at` is lent. */
  function LentAt(events: seq<Event>, at: nat): Mem
    requires at < |events| && Starts(events[at])
  {
    Remember(After(events[..at]).mem, KeyOf(events[at].kind), at)
  }

  // ---------------------------------------------------------------------
  // Which tasks share their pairing state
  // ---------------------------------------------------------------------

  /** One logical session from `a` to `b`: nobody stopped it, and no other session
      was started. */
  ghost predicate Continues(events: seq<Event>, a: nat, b: nat)
    requires a < |events| && Starts(events[a])
  {
    forall p :: a < p <= b && p < |events| ==>
      !Resets(events[p]) && (Starts(events[p]) ==> SameSession(events[p].kind, events[a].kind))
  }

  lemma {:induction false} IdsAreFromThePast(events: seq<Event>, n: nat)
    requires n <= |events|
    ensures After(events[..n]).mem.Some? ==> After(events[..n]).mem.value.id < n
  {
    if n == 0 {
    } else {
      AfterSnoc(events, n - 1);
      IdsAreFromThePast(events, n - 1);
    }
  }

  predicate Holds(s: State, id: nat, key: SessionKey) { s.mem.Some? && s.mem.value.id == id && s.mem.value.key == key }

  /** A memory is still held after an event exactly when it was before and the
      event neither stops nor starts something else. */
  lemma StillHeld(s: State, at: nat, e: Event, id: nat, key: SessionKey)
    requires id < at
    ensures Holds(Step(s, at, e), id, key)
       <==> Holds(s, id, key) && !Resets(e) && (Starts(e) ==> KeyOf(e.kind) == key)
  {
  }

  /** After the task started at `a`, its memory is still the held one exactly
      while its logical session continues. */
  lemma {:induction false} HeldExactlyWhile(events: seq<Event>, a: nat, b: nat)
    requires a <= b < |events| && Starts(events[a])
    ensures Holds(After(events[..b + 1]), LentAt(events, a).id, KeyOf(events[a].kind)) <==> Continues(events, a, b)
    decreases b
  {
    var id, key := LentAt(events, a).id, KeyOf(events[a].kind);
    AfterSnoc(events, b);
    IdsAreFromThePast(events, a);
    if a < b {
      HeldExactlyWhile(events, a, b - 1);
      StillHeld(After(events[..b]), b, events[b], id, key);
      if Starts(events[b]) {
        KeysMeanSessions(events[b].kind, events[a].kind);
      }
      assert Continues(events, a, b) <==>
        Continues(events, a, b - 1) && !Resets(events[b]) && (Starts(events[b]) ==> KeyOf(events[b].kind) == key);
    }
  }

  lemma IdKept(s: State, at: nat, e: Event, id: nat, key: SessionKey)
    requires id < at && (s.mem.Some? && s.mem.value.id == id ==> s.mem.value.key == key)
    ensures var held := Step(s, at, e).mem;
            held.Some? && held.value.id == id ==> held.value.key == key
  {
  }

  /** A memory id is minted for one key. */
  lemma {:induction false} IdNamesTheKey(events: seq<Event>, a: nat, n: nat)
    requires a < n <= |events| && Starts(events[a])
    ensures var held := After(events[..n]).mem;
            held.Some? && held.value.id == LentAt(events, a).id ==> held.value.key == KeyOf(events[a].kind)
    decreases n
  {
    AfterSnoc(events, n - 1);
    IdsAreFromThePast(events, a);
    if a < n - 1 {
      IdNamesTheKey(events, a, n - 1);
      IdKept(After(events[..n - 1]), n - 1, events[n - 1], LentAt(events, a).id, KeyOf(events[a].kind));
    }
  }

  /** A task is lent the claim and PIN window of an earlier one exactly when
      everything started since was the same session to the user - role, mode,
      channel, devices or PIN - and nobody pressed stop. */
  lemma SharesMemoryExactlyWhen(events: seq<Event>, a: nat, b: nat)
    requires a < b < |events| && Starts(events[a]) && Starts(events[b])
    ensures LentAt(events, a).id == LentAt(events, b).id <==> Continues(events, a, b)
  {
    AfterSnoc(events, b);
    HeldExactlyWhile(events, a, b);
    IdNamesTheKey(events, a, b + 1);
  }

  /** For a task and the next one started. */
  lemma NextTaskSharesMemoryExactlyWhen(events: seq<Event>, a: nat, b: nat)
    requires a < b < |events| && Starts(events[a]) && Starts(events[b])
    requires forall p :: a < p < b ==> !Starts(events[p])
    ensures LentAt(events, a).id == LentAt(events, b).id
       <==> && SameSession(events[a].kind, events[b].kind)
            && forall p :: a < p < b ==> !Resets(events[p])
  {
    SharesMemoryExactlyWhen(events, a, b);
    KeysMeanSessions(events[a].kind, events[b].kind);
  }

  /** Events that leave a held memory of this key held. */
  predicate Carries(e: Event, key: SessionKey) { !Resets(e) && (Starts(e) ==> KeyOf(e.kind) == key) }

  lemma CarriedWhile(events: seq<Event>, a: nat, b: nat, p: nat)
    requires a < p <= b && p < |events| && Starts(events[a]) && Continues(events, a, b)
    ensures Carries(events[p], KeyOf(events[a].kind))
  {
    if Starts(events[p]) {
      KeysMeanSessions(events[p].kind, events[a].kind);
    }
  }

  lemma ClaimKept(s: State, at: nat, e: Event)
    requires s.mem.Some? && s.mem.value.claim.Some? && Carries(e, s.mem.value.key)
    ensures var was, now := s.mem.value.claim.value, Step(s, at, e).mem;
            && now.Some? && now.value.claim.Some? && now.value.claim.value.key == was.key
            && (was.key.None? ==> now.value.claim.value == was)
  {
    if e.TaskCommits? {
      IdentityIsSetOnce(s.mem.value.claim.value, [e.op]);
      assert [e.op][1..] == [];
    }
  }

  /** While a logical session continues, whoever holds its claim keeps it: the
      application key never changes, and without one neither does the transport
      id. */
  lemma {:induction false} ClaimedOnce(events: seq<Event>, a: nat, m: nat, n: nat)
    requires a < m <= n < |events| && Starts(events[a]) && Continues(events, a, n)
    requires After(events[..m]).mem.Some? && After(events[..m]).mem.value.claim.Some?
    ensures var was, now := After(events[..m]).mem.value.claim.value, After(events[..n]).mem;
            && now.Some? && now.value.claim.Some? && now.value.claim.value.key == was.key
            && (was.key.None? ==> now.value.claim.value == was)
    decreases n
  {
    if m == n {
    } else {
      assert Continues(events, a, n - 1) && Continues(events, a, n - 2);
      ClaimedOnce(events, a, m, n - 1);
      HeldExactlyWhile(events, a, n - 2);
      AfterSnoc(events, n - 1);
      CarriedWhile(events, a, n, n - 1);
      ClaimKept(After(events[..n - 1]), n - 1, events[n - 1]);
    }
  }

  // ---------------------------------------------------------------------
  // Whether a task finds its claim spent
  // ---------------------------------------------------------------------

  /** A commit the loop's running task makes. */
  predicate CommitsAt(events: seq<Event>, p: nat)
    requires p < |events|
  {
    events[p].TaskCommits? && After(events[..p]).running.Some?
  }

  lemma ClaimTakenBy(s: State, at: nat, e: Event)
    requires s.mem.Some? && Carries(e, s.mem.value.key)
    ensures Step(s, at, e).mem.Some?
    ensures Step(s, at, e).mem.value.claim.None? <==> s.mem.value.claim.None? && !(e.TaskCommits? && s.running.Some?)
  {
  }

  /** Where a held memory was minted. */
  lemma {:induction false} MintedByAStart(events: seq<Event>, n: nat)
    requires n <= |events|
    ensures var held := After(events[..n]).mem;
            held.Some? ==> var id := held.value.id;
                           && id < n && Starts(events[id]) && KeyOf(events[id].kind) == held.value.key
                           && LentAt(events, id) == Mem(held.value.key, id, None, [])
    decreases n
  {
    if n == 0 {
    } else {
      MintedByAStart(events, n - 1);
      AfterSnoc(events, n - 1);
    }
  }

  /** A task's memory was minted by the first start of its logical session. */
  lemma FirstStartMints(events: seq<Event>, b: nat)
    requires b < |events| && Starts(events[b])
    ensures var m := LentAt(events, b).id;
            && m <= b && Starts(events[m]) && Continues(events, m, b)
            && LentAt(events, m) == Mem(KeyOf(events[m].kind), m, None, [])
            && forall a :: 0 <= a < m && Starts(events[a]) ==> !Continues(events, a, b)
  {
    var m := LentAt(events, b).id;
    MintedByAStart(events, b);
    if m < b {
      SharesMemoryExactlyWhen(events, m, b);
    }
    forall a | 0 <= a < m && Starts(events[a]) ensures !Continues(events, a, b) {
      SharesMemoryExactlyWhen(events, a, b);
      IdsAreFromThePast(events, a);
    }
  }

  lemma {:induction false} UnclaimedExactlyWhile(events: seq<Event>, m: nat, n: nat)
    requires m < n <= |events| && Starts(events[m]) && Continues(events, m, n - 1)
    requires LentAt(events, m) == Mem(KeyOf(events[m].kind), m, None, [])
    ensures var held := After(events[..n]).mem;
            && held.Some? && held.value.id == m && held.value.key == KeyOf(events[m].kind)
            && (held.value.claim.None? <==> forall p :: m < p < n ==> !CommitsAt(events, p))
    decreases n
  {
    AfterSnoc(events, n - 1);
    HeldExactlyWhile(events, m, n - 1);
    if n == m + 1 {
    } else {
      assert Continues(events, m, n - 2);
      UnclaimedExactlyWhile(events, m, n - 1);
      CarriedWhile(events, m, n - 1, n - 1);
      ClaimTakenBy(After(events[..n - 1]), n - 1, events[n - 1]);
      assert (forall p :: m < p < n ==> !CommitsAt(events, p))
        <==> !CommitsAt(events, n - 1) && forall p :: m < p < n - 1 ==> !CommitsAt(events, p);
    }
  }

  /** A task finds its claim free exactly when no task committed it since the
      first start of the logical session it continues. */
  lemma UnclaimedExactlyWhen(events: seq<Event>, b: nat)
    requires b < |events| && Starts(events[b])
    ensures LentAt(events, b).claim.None? <==> forall p :: LentAt(events, b).id < p < b ==> !CommitsAt(events, p)
  {
    FirstStartMints(events, b);
    var m := LentAt(events, b).id;
    if m < b {
      SharesMemoryExactlyWhen(events, m, b);
      assert Continues(events, m, b - 1);
      UnclaimedExactlyWhile(events, m, b);
    }
  }

  // ---------------------------------------------------------------------
  // What a task finds in the memory it is lent
  // ---------------------------------------------------------------------

  /** What running tasks committed and pushed after `m` and before `n`, in order. */
  function Commits(events: seq<Event>, m: nat, n: nat): seq<Commit>
    requires n <= |events|
    decreases n
  {
    if n <= m + 1 then []
    else Commits(events, m, n - 1) + if CommitsAt(events, n - 1) then [events[n - 1].op] else []
  }

  function PinWork(events: seq<Event>, m: nat, n: nat): seq<PinHost.PinOp>
    requires n <= |events|
    decreases n
  {
    if n <= m + 1 then []
    else
      PinWork(events, m, n - 1)
      + if events[n - 1].TaskPins? && After(events[..n - 1]).running.Some? then [events[n - 1].pinOp] else []
  }

  lemma ContentsStep(s: State, at: nat, e: Event)
    requires s.mem.Some? && Carries(e, s.mem.value.key)
    ensures var was, now := s.mem.value, Step(s, at, e).mem;
            now == Some(Mem(was.key, was.id,
              if e.TaskCommits? && s.running.Some? then Apply(was.claim, e.op).1 else was.claim,
              if e.TaskPins? && s.running.Some? then PinHost.Step(was.pins, e.pinOp) else was.pins))
  {
  }

  lemma {:induction false} ContentsWhile(events: seq<Event>, m: nat, n: nat)
    requires m < n <= |events| && Starts(events[m]) && Continues(events, m, n - 1)
    requires LentAt(events, m) == Mem(KeyOf(events[m].kind), m, None, [])
    ensures After(events[..n]).mem
         == Some(Mem(KeyOf(events[m].kind), m,
                     AfterCommits(None, Commits(events, m, n)), PinHost.Window([], PinWork(events, m, n))))
    decreases n
  {
    AfterSnoc(events, n - 1);
    if n == m + 1 {
    } else {
      assert Continues(events, m, n - 2);
      ContentsWhile(events, m, n - 1);
      CarriedWhile(events, m, n - 1, n - 1);
      ContentsStep(After(events[..n - 1]), n - 1, events[n - 1]);
      var e := events[n - 1];
      if CommitsAt(events, n - 1) {
        AfterCommitsSnoc(None, Commits(events, m, n - 1), e.op);
      } else {
        assert Commits(events, m, n - 1) + [] == Commits(events, m, n - 1);
      }
      if e.TaskPins? && After(events[..n - 1]).running.Some? {
        PinHost.WindowSnoc([], PinWork(events, m, n - 1), e.pinOp);
      } else {
        assert PinWork(events, m, n - 1) + [] == PinWork(events, m, n - 1);
      }
    }
  }

  /** A task is lent exactly what its logical session has made of a fresh memory:
      the claim after every commit, and the window after every push and refresh,
      that its tasks have made since the first start - whichever tasks they were. */
  lemma LentIsWhatTheSessionMadeOfIt(events: seq<Event>, b: nat)
    requires b < |events| && Starts(events[b])
    ensures var lent := LentAt(events, b);
            lent == Mem(KeyOf(events[b].kind), lent.id, AfterCommits(None, Commits(events, lent.id, b)),
                        PinHost.Window([], PinWork(events, lent.id, b)))
  {
    FirstStartMints(events, b);
    var m := LentAt(events, b).id;
    if m < b {
      SharesMemoryExactlyWhen(events, m, b);
      assert Continues(events, m, b - 1);
      ContentsWhile(events, m, b);
    }
  }

  /** Events after which the task of the moment no longer runs. */
  predicate StopsTask(e: Event) { Starts(e) || Resets(e) || e.Shutdown? || e.TaskEnds? }

  /** A task runs from its start until something else is started, somebody presses
      stop, the loop shuts down, or it ends - and only then. */
  lemma {:induction false} RunsExactlyWhile(events: seq<Event>, b: nat, q: nat)
    requires q <= |events|
    ensures After(events[..q]).running == Some(b)
       <==> b < q && Starts(events[b]) && forall p :: b < p < q ==> !StopsTask(events[p])
    decreases q
  {
    if q == 0 {
    } else {
      AfterSnoc(events, q - 1);
      RunsExactlyWhile(events, b, q - 1);
      if b < q - 1 {
        assert (forall p :: b < p < q ==> !StopsTask(events[p]))
          <==> !StopsTask(events[q - 1]) && forall p :: b < p < q - 1 ==> !StopsTask(events[p]);
      }
    }
  }

  /** Neither a task ending by itself nor a shutdown forgets anything. */
  lemma EndingForgetsNothing(s: State, at: nat)
    ensures Step(s, at, TaskEnds) == Step(s, at, Shutdown) == State(s.mem, None)
  {
  }

  /** What the publisher of the host task started at `b` shows, if it first looks at
      its claim's signal after `q` events. */
  function ShownBy(events: seq<Event>, b: nat, q: nat, turns: seq<PinHost.Turn>): seq<PinHost.PinEvent>
    requires q <= |events| && After(events[..q]).running == Some(b)
  {
    var mem := After(events[..q]).mem;
    PinHost.Events(turns, mem.Some? && mem.value.claim.Some?)
  }

  /** Over any history of the command loop, a card-setup host shows a PIN exactly
      when, by the time its publisher first looks, no task - itself included - has
      committed a claim since the first start of the logical session it continues:
      same role and channel throughout, nobody pressing stop. `first` is that
      start. */
  lemma PinShownExactlyWhen(events: seq<Event>, b: nat, q: nat, turns: seq<PinHost.Turn>) returns (first: nat)
    requires q <= |events| && After(events[..q]).running == Some(b)
    requires b < |events| && Starts(events[b]) && events[b].kind.HostCardSetup? && turns != []
    ensures first <= b < q && Starts(events[first]) && Continues(events, first, b)
    ensures forall a :: 0 <= a < first && Starts(events[a]) ==> !Continues(events, a, b)
    ensures (exists pin :: PinHost.PinRotated(pin) in ShownBy(events, b, q, turns))
       <==> forall p :: first < p < q ==> !CommitsAt(events, p)
  {
    first := LentAt(events, b).id;
    FirstStartMints(events, b);
    RunsExactlyWhile(events, b, q);
    assert Continues(events, first, q - 1);
    UnclaimedExactlyWhile(events, first, q);
    PinHost.ShowsExactlyWhenUnclaimed(turns, After(events[..q]).mem.value.claim.Some?);
  }

  /** Stopping forgets: the next task starts unclaimed, with no PIN honoured. */
  lemma StopForgets(events: seq<Event>, a: nat, b: nat)
    requires a < b < |events| && Resets(events[a]) && Starts(events[b])
    requires forall p :: a < p < b ==> !Starts(events[p])
    ensures LentAt(events, b) == Mem(KeyOf(events[b].kind), b, None, [])
  {
    NothingHeld(events, a, b);
  }

  lemma {:induction false} NothingHeld(events: seq<Event>, a: nat, b: nat)
    requires a < b <= |events| && Resets(events[a]) && forall p :: a < p < b ==> !Starts(events[p])
    ensures After(events[..b]) == State(None, None)
    decreases b
  {
    AfterSnoc(events, b - 1);
    if a < b - 1 {
      NothingHeld(events, a, b - 1);
    }
  }

  // ---------------------------------------------------------------------
  // The loop as the program runs it
  // ---------------------------------------------------------------------

  class Memory {
    const key: SessionKey
    const claim: Claim
    const pins: PinHost.RecentPins
    ghost const id: nat

    constructor (key: SessionKey, ghost id: nat)
      ensures this.key == key && this.id == id && fresh(claim) && fresh(pins)
      ensures claim.Valid() && claim.peer == None && pins.pins == []
    {
      this.key, this.id := key, id;
      claim := new Claim();
      pins := new PinHost.RecentPins();
    }
  }

  /** A session task, with the shared handles it was lent. */
  class Task {
    const claim: Claim
    const pins: PinHost.RecentPins
    ghost const id: nat    // of the memory
    ghost const at: nat    // of the start command
    var running: bool

    constructor (memory: Memory, ghost at: nat)
      ensures claim == memory.claim && pins == memory.pins && id == memory.id && this.at == at && running
    {
      claim, pins, id, this.at, running := memory.claim, memory.pins, memory.id, at, true;
    }
  }

  class Runtime {
    var session: Option<Task>
    var memory: Option<Memory>
    /** Every task ever started, and how many events have been handled. */
    ghost var tasks: set<Task>
    ghost var clock: nat

    ghost function Held(): set<object>
      reads this
    {
      if memory.Some? then {memory.value.claim, memory.value.pins} else {}
    }

    /** Two tasks were lent one memory exactly when they share its objects; at
        most one runs, on the held memory. */
    ghost predicate Valid()
      reads this, tasks, Held()
    {
      && (memory.Some? ==> memory.value.claim.Valid())
      && (session.Some? ==> session.value in tasks)
      && (forall t :: t in tasks && t.running ==> session == Some(t))
      && (session.Some? && session.value.running ==> memory.Some? && session.value.id == memory.value.id)
      && (memory.Some? ==> memory.value.id <= clock)
      && (memory.Some? ==> forall t :: t in tasks ==>
            && (t.id == memory.value.id <==> t.claim == memory.value.claim)
            && (t.id == memory.value.id <==> t.pins == memory.value.pins))
      && (forall t :: t in tasks ==> t.id <= t.at < clock)
      && (forall t, u :: t in tasks && u in tasks ==>
            && (t.id == u.id <==> t.claim == u.claim)
            && (t.id == u.id <==> t.pins == u.pins))
    }

    ghost function Abs(): State
      reads this, tasks, Held()
      requires Valid()
    {
      State(if memory.None? then None
            else Some(Mem(memory.value.key, memory.value.id, memory.value.claim.peer, memory.value.pins.pins)),
            if session.Some? && session.value.running then Some(session.value.at) else None)
    }

    constructor ()
      ensures Valid() && Abs() == State(None, None) && tasks == {} && clock == 0
    {
      session, memory, tasks, clock := None, None, {}, 0;
    }

    method StopSession()
      requires Valid()
      modifies `session, tasks
      ensures Valid() && Abs() == old(Abs()).(running := None) && session == None
    {
      if session.Some? {
        session.value.running := false;
        session := None;
      }
    }

    /** `remember`. */
    method EnsureMemory(key: SessionKey)
      requires Valid() && session.None?
      modifies `memory
      ensures Valid() && Abs() == State(Some(Remember(old(Abs()).mem, key, clock)), None)
      ensures fresh(Held() - old(Held()))
    {
      if memory.None? || memory.value.key != key {
        var minted := new Memory(key, clock);
        memory := Some(minted);
        assert Held() == {minted.claim, minted.pins};
      } else {
        assert Held() == old(Held());
      }
    }

    method Launch() returns (task: Task)
      requires Valid() && session.None? && memory.Some?
      modifies `session, `tasks, `clock
      ensures Valid() && clock == old(clock) + 1 && Abs() == old(Abs()).(running := Some(old(clock)))
      ensures fresh(task) && tasks == old(tasks) + {task} && task.at == old(clock) && task.id == memory.value.id
    {
      task := new Task(memory.value, clock);
      session := Some(task);
      tasks := tasks + {task};
      clock := clock + 1;
    }

    /** `StartServer` and `Connect`. */
    method StartSession(kind: SessionKind) returns (ghost task: Task)
      requires Valid()
      modifies this, tasks
      ensures Valid() && clock == old(clock) + 1
      ensures Abs() == Step(old(Abs()), old(clock), StartServer(kind)) == Step(old(Abs()), old(clock), Connect(kind))
      ensures fresh(Held() - old(Held()))
      ensures tasks == old(tasks) + {task} && fresh(task) && task.at == old(clock)
      ensures task.id == Remember(old(Abs()).mem, KeyOf(kind), old(clock)).id
    {
      StopSession();
      EnsureMemory(KeyOf(kind));
      task := Launch();
    }

    method Reset()
      requires Valid()
      modifies this, tasks
      ensures Valid() && clock == old(clock) + 1 && Abs() == State(None, None) && tasks == old(tasks)
    {
      StopSession();
      memory := None;
      clock := clock + 1;
    }

    method CommitClaim(op: Commit)
      requires Valid()
      modifies this`clock, Held()
      ensures Valid() && clock == old(clock) + 1 && Abs() == Step(old(Abs()), old(clock), TaskCommits(op))
      ensures Held() == old(Held())
    {
      if session.Some? && session.value.running {
        var claim := session.value.claim;
        match op {
          case ByKey(key, node) => var held := claim.CommitKey(key, node);
          case ByPin(node) => var held := claim.CommitPin(node);
        }
      }
      clock := clock + 1;
    }

    method FeedPins(op: PinHost.PinOp)
      requires Valid()
      modifies this`clock, Held()
      ensures Valid() && clock == old(clock) + 1 && Abs() == Step(old(Abs()), old(clock), TaskPins(op))
      ensures Held() == old(Held())
    {
      if session.Some? && session.value.running {
        var pins := session.value.pins;
        match op {
          case Push(password) => pins.Push(password);
          case Revoke => pins.Clear();
        }
      }
      clock := clock + 1;
    }

    /** The publisher of a running card-setup host, on the claim and window its
        task was lent: what it shows is settled by the claim it finds. */
    method PublishPins(turns: seq<PinHost.Turn>, derive: string -> PinPassword)
      returns (shown: seq<PinHost.PinEvent>, standing: seq<string>)
      requires Valid() && session.Some? && session.value.running
      modifies Held()
      ensures Valid() && Held() == old(Held())
      ensures var mem := old(Abs()).mem.value;
              && shown == PinHost.Events(turns, mem.claim.Some?)
              && standing == PinHost.Standing(turns, mem.claim.Some?, [])
              && Abs() == old(Abs()).(mem := Some(mem.(pins :=
                   PinHost.Window(mem.pins, PinHost.Ops(turns, mem.claim.Some?, derive)))))
    {
      shown, standing := PinHost.RunPublisher(turns, session.value.claim, session.value.pins, derive);
    }

    /** A refresh, a send or a query: none changes what is held. */
    method Pass()
      requires Valid()
      modifies this`clock
      ensures Valid() && clock == old(clock) + 1 && Abs() == old(Abs())
    {
      clock := clock + 1;
    }

    /** The task ends by itself: its handle stays in the slot, its memory stays
        held. */
    method Finish()
      requires Valid()
      modifies this`clock, tasks
      ensures Valid() && clock == old(clock) + 1 && Abs() == Step(old(Abs()), old(clock), TaskEnds)
    {
      if session.Some? {
        session.value.running := false;
      }
      clock := clock + 1;
    }

    /** Every task so far was lent what `LentAt` says. */
    ghost predicate Lent(events: seq<Event>)
      reads this, tasks
    {
      forall t :: t in tasks ==> t.at < |events| && Starts(events[t.at]) && t.id == LentAt(events, t.at).id
    }

    method Handle(e: Event)
      requires Valid() && !e.Shutdown?
      modifies this, tasks, Held()
      ensures Valid() && clock == old(clock) + 1 && Abs() == Step(old(Abs()), old(clock), e)
      ensures fresh(tasks - old(tasks)) && fresh(Held() - old(Held()))
      ensures forall t :: t in tasks - old(tasks) ==>
                Starts(e) && t.at == old(clock) && t.id == Remember(old(Abs()).mem, KeyOf(e.kind), old(clock)).id
    {
      match e {
        case StartServer(kind) => ghost var task := StartSession(kind);
        case Connect(kind) => ghost var task := StartSession(kind);
        case StopServer => Reset();
        case Disconnect => Reset();
        case TaskCommits(op) => CommitClaim(op);
        case TaskPins(op) => FeedPins(op);
        case TaskEnds => Finish();
        case RefreshPin => Pass();
        case SendClipboard(_) => Pass();
        case QueryConnPath => Pass();
        case Shutdown => assert false;
      }
    }
  }

  /** `net_main`: up to the first `Shutdown`. Every task started on the way was
      lent exactly the memory `LentAt` says - two tasks share a claim object, or
      a PIN window object, exactly when those agree - and at every moment, the
      last included, at most one was running; none is after a shutdown. */
  method NetMain(events: seq<Event>) returns (loop: Runtime, n: nat)
    ensures n <= |events| && (n < |events| ==> events[n].Shutdown?)
    ensures forall i :: 0 <= i < n ==> !events[i].Shutdown?
    ensures loop.Valid() && loop.Lent(events)
    ensures loop.Abs() == After(events[..n]).(running := None)
    ensures forall t :: t in loop.tasks ==> !t.running
  {
    loop := new Runtime();
    n := 0;
    while n < |events| && !events[n].Shutdown?
      invariant n <= |events| && fresh(loop) && fresh(loop.tasks) && fresh(loop.Held())
      invariant forall i :: 0 <= i < n ==> !events[i].Shutdown?
      invariant loop.Valid() && loop.clock == n && loop.Abs() == After(events[..n])
      invariant loop.Lent(events)
    {
      AfterSnoc(events, n);
      loop.Handle(events[n]);
      n := n + 1;
    }
    loop.StopSession();
  }
}
