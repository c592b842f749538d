/** The card-setup host's PINs over time (runtime.rs): the window of honoured
    passwords, the publisher that rotates and revokes them, and what a listener
    accepts at any moment. */
module PinHost {
  import opened Wrappers
  import opened PairClaim
  import opened PinAuth

  /** Sized so that every retained PIN gets a slot. */
  const RECENT_PIN_CACHE: nat := PAKE_SLOTS

  /** The newest that fit the cache. */
  function Keep<T>(pins: seq<T>): seq<T> {
    if |pins| > RECENT_PIN_CACHE then pins[..RECENT_PIN_CACHE] else pins
  }

  /** They are the first two, or all there are. */
  lemma NewestAreKept<T>(pins: seq<T>)
    ensures Keep(pins) <= pins && (|Keep(pins)| == 2 <= |pins| || Keep(pins) == pins)
  {
  }

  class RecentPins {
    /** Newest first. */
    var pins: seq<PinPassword>

    constructor ()
      ensures pins == []
    {
      pins := [];
    }

    method Push(password: PinPassword)
      modifies this
      ensures pins == Keep([password] + old(pins))
    {
      pins := [password] + pins;
      while |pins| > RECENT_PIN_CACHE
        invariant pins <= [password] + old(pins)
        invariant |pins| >= |Keep([password] + old(pins))|
      {
        pins := pins[..|pins| - 1];
      }
    }

    method Clear()
      modifies this
      ensures pins == []
    {
      pins := [];
    }
  }

  // ---------------------------------------------------------------------
  // The window over any history
  // ---------------------------------------------------------------------

  datatype PinOp = Push(password: PinPassword) | Revoke

  function Step(window: seq<PinPassword>, op: PinOp): seq<PinPassword> {
    if op.Push? then Keep([op.password] + window) else []
  }

  function Window(start: seq<PinPassword>, ops: seq<PinOp>): seq<PinPassword>
    decreases |ops|
  {
    if ops == [] then start else Window(Step(start, ops[0]), ops[1..])
  }

  /** The passwords pushed since the last refresh, newest first. */
  function SinceRevoke(ops: seq<PinOp>): seq<PinPassword>
    decreases |ops|
  {
    if ops == [] then []
    else
      var last := ops[|ops| - 1];
      if last.Push? then [last.password] + SinceRevoke(ops[..|ops| - 1]) else []
  }

  lemma {:induction false} WindowSnoc(start: seq<PinPassword>, ops: seq<PinOp>, op: PinOp)
    ensures Window(start, ops + [op]) == Step(Window(start, ops), op)
    decreases |ops|
  {
    if ops == [] {
      assert ops + [op] == [op];
    } else {
      assert (ops + [op])[1..] == ops[1..] + [op];
      WindowSnoc(Step(start, ops[0]), ops[1..], op);
    }
  }

  lemma {:induction false} WindowConcat(start: seq<PinPassword>, earlier: seq<PinOp>, ops: seq<PinOp>)
    ensures Window(start, earlier + ops) == Window(Window(start, earlier), ops)
    decreases |earlier|
  {
    if earlier == [] {
      assert earlier + ops == ops;
    } else {
      assert (earlier + ops)[1..] == earlier[1..] + ops;
      WindowConcat(Step(start, earlier[0]), earlier[1..], ops);
    }
  }

  /** Over any run of rotations and refreshes, the window is exactly the last
      two passwords pushed since the last refresh, newest first. */
  lemma {:induction false} WindowIsLastTwo(ops: seq<PinOp>)
    ensures Window([], ops) == Keep(SinceRevoke(ops))
    decreases |ops|
  {
    if ops == [] {
    } else {
      var n := |ops| - 1;
      assert ops == ops[..n] + [ops[n]];
      WindowSnoc([], ops[..n], ops[n]);
      WindowIsLastTwo(ops[..n]);
      if ops[n].Push? {
        assert Keep([ops[n].password] + Keep(SinceRevoke(ops[..n]))) == Keep([ops[n].password] + SinceRevoke(ops[..n]));
      }
    }
  }

  // ---------------------------------------------------------------------
  // What a listener accepts
  // ---------------------------------------------------------------------

  /** The candidates `auth_as_listener` snapshots: none for a dialer the claim
      turns away. */
  function Candidates(window: seq<PinPassword>, claim: Option<ClaimedPeer>, node: NodeId): seq<PinPassword> {
    if claim.Some? && (claim.value.key.Some? || claim.value.node != node) then [] else window
  }

  /** The outcome of `PinAuth.Handshake` for a dialer at `node` with this
      password, against this host. */
  ghost predicate Accepts(window: seq<PinPassword>, claim: Option<ClaimedPeer>, node: NodeId, pw: PinPassword,
                          sameIds: bool)
  {
    && (exists s: Slot :: Honoured(Candidates(window, claim, node), pw, s))
    && sameIds && PinCommitted(claim, node).0
  }

  method AuthAsPinListener(recent: RecentPins, claim: Claim, node: NodeId, pw: PinPassword,
                           dialerView: Ids, listenerView: Ids,
                           coinsA: Slot -> nat, coinsB: Slot -> nat, dummies: Slot -> PinPassword)
    returns (ok: bool)
    requires claim.Valid()
    modifies claim
    ensures claim.Valid()
    ensures ok <==> Accepts(recent.pins, old(claim.peer), node, pw, dialerView == listenerView)
    ensures claim.peer == if ok then PinCommitted(old(claim.peer), node).1 else old(claim.peer)
  {
    var existing := claim.peer;
    var claimedByOther := existing.Some? && (existing.value.key.Some? || existing.value.node != node);
    var candidates := if claimedByOther then [] else recent.pins;
    assert candidates == Candidates(recent.pins, existing, node);
    // What `commit` will answer; it is asked, and takes the claim, only once a
    // slot has verified.
    var wouldCommit := existing.None? || existing.value.node == node;
    var dialerOk, verdict := Handshake(pw, candidates, dialerView, listenerView, wouldCommit, coinsA, coinsB, dummies);
    ok := verdict.Accepted?;
    if ok {
      var held := claim.CommitPin(node);
    }
  }

  /** The handshake accepts exactly the passwords of the window, from whoever the
      claim leaves room for. */
  lemma AcceptsIs(window: seq<PinPassword>, claim: Option<ClaimedPeer>, node: NodeId, pw: PinPassword, sameIds: bool)
    requires |window| <= RECENT_PIN_CACHE
    ensures Accepts(window, claim, node, pw, sameIds)
       <==> pw in window && sameIds && (claim.None? || claim == Some(ClaimedPeer(None, node)))
  {
    if pw in window {
      var i: Slot :| i < |window| && window[i] == pw;
      assert Honoured(window, pw, i);
      assert claim.None? || claim == Some(ClaimedPeer(None, node)) ==> Candidates(window, claim, node) == window;
    }
  }

  /** At any moment of any history, a PIN is accepted exactly when it is one of
      the last two shown since the last refresh, both ends see the same
      endpoints, and nobody else holds the claim. */
  lemma AcceptanceIsExact(ops: seq<PinOp>, claim: Option<ClaimedPeer>, node: NodeId, pw: PinPassword, sameIds: bool)
    ensures Accepts(Window([], ops), claim, node, pw, sameIds)
       <==> && pw in Keep(SinceRevoke(ops)) && sameIds
            && (claim.None? || claim == Some(ClaimedPeer(None, node)))
  {
    WindowIsLastTwo(ops);
    AcceptsIs(Keep(SinceRevoke(ops)), claim, node, pw, sameIds);
  }

  lemma {:induction false} RevokeForgets(before: seq<PinOp>, after: seq<PinOp>)
    ensures SinceRevoke(before + [Revoke] + after) == SinceRevoke(after)
    decreases |after|
  {
    var ops := before + [Revoke] + after;
    if after == [] {
      assert ops[|ops| - 1] == Revoke;
    } else {
      var n := |after| - 1;
      assert ops[|ops| - 1] == after[n];
      assert ops[..|ops| - 1] == before + [Revoke] + after[..n];
      RevokeForgets(before, after[..n]);
    }
  }

  lemma {:induction false} SinceRevokeWasPushed(ops: seq<PinOp>, pw: PinPassword)
    requires pw in SinceRevoke(ops)
    ensures Push(pw) in ops
    decreases |ops|
  {
    var n := |ops| - 1;
    if ops[n] != Push(pw) {
      SinceRevokeWasPushed(ops[..n], pw);
    }
  }

  /** A refresh revokes for good: a PIN shown before it, and not minted again,
      is refused by every later snapshot. */
  lemma RefreshRevokes(before: seq<PinOp>, after: seq<PinOp>, claim: Option<ClaimedPeer>, node: NodeId,
                       pw: PinPassword, sameIds: bool)
    requires Push(pw) !in after
    ensures !Accepts(Window([], before + [Revoke] + after), claim, node, pw, sameIds)
  {
    var ops := before + [Revoke] + after;
    AcceptanceIsExact(ops, claim, node, pw, sameIds);
    RevokeForgets(before, after);
    if pw in SinceRevoke(after) {
      SinceRevokeWasPushed(after, pw);
    }
  }

  // ---------------------------------------------------------------------
  // The publisher
  // ---------------------------------------------------------------------

  /** Why the publisher's wait ended. */
  datatype Wake = Cancelled | Paired | Timer | Refresh

  /** One turn of the publisher: the PIN it mints and shows, whether deriving its
      password works, whether the local advertisement goes up, what wakes it, and
      whether a peer has paired by the time the next turn begins. */
  datatype Turn = Turn(pin: string, derives: bool, advertised: bool, wake: Wake, pairedByNext: bool)

  datatype PinEvent = PinRotated(pin: string) | PinCleared

  predicate GoesOn(t: Turn) { t.wake.Timer? || t.wake.Refresh? }

  /** What a publisher does to the window; `derive` is the password a PIN
      stretches to. */
  function Ops(turns: seq<Turn>, paired: bool, derive: string -> PinPassword): seq<PinOp>
    decreases |turns|
  {
    if turns == [] || paired then []
    else
      var t := turns[0];
      (if t.derives then [Push(derive(t.pin))] else [])
      + (if t.wake.Refresh? then [Revoke] else [])
      + (if GoesOn(t) then Ops(turns[1..], t.pairedByNext, derive) else [])
  }

  function Events(turns: seq<Turn>, paired: bool): seq<PinEvent> {
    if turns == [] then []
    else if paired then [PinCleared]
    else
      var t := turns[0];
      [PinRotated(t.pin)]
      + (match t.wake
         case Cancelled => []
         case Paired => [PinCleared]
         case _ => Events(turns[1..], t.pairedByNext))
  }

  function Minted(window: seq<PinPassword>, t: Turn, derive: string -> PinPassword): seq<PinPassword> {
    if t.derives then Keep([derive(t.pin)] + window) else window
  }

  function LastTwo(pins: seq<string>): seq<string> { if |pins| > 2 then pins[|pins| - 2..] else pins }

  function Advertised(up: seq<string>, t: Turn): seq<string> {
    if t.advertised then LastTwo(up + [t.pin]) else up
  }

  /** The PINs still advertised on the local network, oldest first: a refresh and
      leaving withdraw them all. */
  function Standing(turns: seq<Turn>, paired: bool, up: seq<string>): seq<string>
    decreases |turns|
  {
    if turns == [] then up
    else if paired || !GoesOn(turns[0]) then []
    else Standing(turns[1..], turns[0].pairedByNext, if turns[0].wake.Refresh? then [] else Advertised(up, turns[0]))
  }

  lemma TurnUnfolds(window: seq<PinPassword>, turns: seq<Turn>, derive: string -> PinPassword)
    requires turns != []
    ensures var t := turns[0];
            Window(window, Ops(turns, false, derive))
            == if t.wake.Timer? then Window(Minted(window, t, derive), Ops(turns[1..], t.pairedByNext, derive))
               else if t.wake.Refresh? then Window([], Ops(turns[1..], t.pairedByNext, derive))
               else Minted(window, t, derive)
  {
    var t := turns[0];
    var push := if t.derives then [Push(derive(t.pin))] else [];
    var revoke := if t.wake.Refresh? then [Revoke] else [];
    var rest := if GoesOn(t) then Ops(turns[1..], t.pairedByNext, derive) else [];
    assert Ops(turns, false, derive) == push + (revoke + rest);
    if t.derives {
      assert (push + (revoke + rest))[1..] == revoke + rest;
    } else {
      assert push + (revoke + rest) == revoke + rest;
    }
    if t.wake.Refresh? {
      assert (revoke + rest)[1..] == rest;
    } else {
      assert revoke + rest == rest;
    }
  }

  /** Retain the new password and keep the last two advertisements up. */
  method Publish(t: Turn, recent: RecentPins, standing: seq<string>, derive: string -> PinPassword)
    returns (now: seq<string>)
    requires |standing| <= 2
    modifies recent
    ensures recent.pins == Minted(old(recent.pins), t, derive) && now == Advertised(standing, t)
  {
    if t.derives {
      recent.Push(derive(t.pin));
    }
    now := standing;
    if t.advertised {
      now := now + [t.pin];
      while |now| > 2
        invariant LastTwo(now) == LastTwo(standing + [t.pin])
      {
        assert LastTwo(now[1..]) == LastTwo(now);
        now := now[1..];
      }
    }
  }

  /** One turn: mint, show, advertise, wait. */
  method TakeTurn(t: Turn, recent: RecentPins, standing: seq<string>, derive: string -> PinPassword)
    returns (said: seq<PinEvent>, now: seq<string>)
    requires |standing| <= 2
    modifies recent
    ensures recent.pins == if t.wake.Refresh? then [] else Minted(old(recent.pins), t, derive)
    ensures said == [PinRotated(t.pin)] + if t.wake.Paired? then [PinCleared] else []
    ensures now == if t.wake.Timer? then Advertised(standing, t) else []
  {
    said := [PinRotated(t.pin)];
    now := Publish(t, recent, standing, derive);
    match t.wake {
      case Timer =>
      case Cancelled => now := [];
      case Paired => said, now := said + [PinCleared], [];
      case Refresh =>
        recent.Clear();
        now := [];
    }
  }

  /** What the publisher shows, the window it leaves, and what it leaves up. */
  datatype Published = Published(events: seq<PinEvent>, window: seq<PinPassword>, standing: seq<string>)

  /** The same turn by turn, in step with the loop. */
  function Publishing(turns: seq<Turn>, paired: bool, window: seq<PinPassword>, up: seq<string>,
                      derive: string -> PinPassword)
    : Published
    decreases |turns|
  {
    if turns == [] then Published([], window, up)
    else if paired then Published([PinCleared], window, [])
    else
      var t := turns[0];
      var said := [PinRotated(t.pin)] + if t.wake.Paired? then [PinCleared] else [];
      var now := if t.wake.Refresh? then [] else Minted(window, t, derive);
      if !GoesOn(t) then Published(said, now, [])
      else
        var left := if t.wake.Timer? then Advertised(up, t) else [];
        var rest := Publishing(turns[1..], t.pairedByNext, now, left, derive);
        rest.(events := said + rest.events)
  }

  lemma {:induction false} PublishingIs(turns: seq<Turn>, paired: bool, window: seq<PinPassword>, up: seq<string>,
                                        derive: string -> PinPassword)
    ensures Publishing(turns, paired, window, up, derive)
         == Published(Events(turns, paired), Window(window, Ops(turns, paired, derive)), Standing(turns, paired, up))
    decreases |turns|
  {
    if turns != [] && !paired {
      var t := turns[0];
      TurnUnfolds(window, turns, derive);
      if GoesOn(t) {
        PublishingIs(turns[1..], t.pairedByNext, if t.wake.Refresh? then [] else Minted(window, t, derive),
                     if t.wake.Timer? then Advertised(up, t) else [], derive);
        assert [PinRotated(t.pin)] + [] == [PinRotated(t.pin)];
      }
    }
  }

  /** `run_card_setup_publisher`, watching the claim's signal. It is off from the
      start exactly when the claim it is started on is taken. */
  method RunPublisher(turns: seq<Turn>, claim: Claim, recent: RecentPins, derive: string -> PinPassword)
    returns (events: seq<PinEvent>, standing: seq<string>)
    requires claim.Valid()
    modifies recent
    ensures recent.pins == Window(old(recent.pins), Ops(turns, claim.peer.Some?, derive))
    ensures events == Events(turns, claim.peer.Some?) && standing == Standing(turns, claim.peer.Some?, [])
  {
    PublishingIs(turns, claim.paired, recent.pins, [], derive);
    events, standing := PublishTurns(turns, claim.paired, recent, derive);
  }

  method PublishTurns(turns: seq<Turn>, alreadyPaired: bool, recent: RecentPins, derive: string -> PinPassword)
    returns (events: seq<PinEvent>, standing: seq<string>)
    modifies recent
    ensures Published(events, recent.pins, standing)
         == Publishing(turns, alreadyPaired, old(recent.pins), [], derive)
  {
    ghost var goal := Publishing(turns, alreadyPaired, recent.pins, [], derive);
    var paired := alreadyPaired;
    events, standing := [], [];
    var i := 0;
    assert turns[0..] == turns;
    while i < |turns|
      invariant i <= |turns| && |standing| <= 2
      invariant var rest := Publishing(turns[i..], paired, recent.pins, standing, derive);
                rest.(events := events + rest.events) == goal
    {
      if paired {
        return events + [PinCleared], [];
      }
      var t := turns[i];
      ghost var rest := turns[i..];
      assert rest[0] == t && rest[1..] == turns[i + 1..];
      ghost var before := events;
      var said;
      said, standing := TakeTurn(t, recent, standing, derive);
      events := events + said;
      if !GoesOn(t) {
        return;
      }
      assert forall e :: before + (said + e) == before + said + e;
      paired := t.pairedByNext;
      i := i + 1;
    }
    assert turns[i..] == [] && events + [] == events;
  }

  // ---------------------------------------------------------------------
  // What is shown and what is honoured
  // ---------------------------------------------------------------------

  /** The PINs shown, and turned into passwords, since the last refresh, newest
      first; `pins` are those from before these turns. */
  function HonouredPins(turns: seq<Turn>, paired: bool, pins: seq<string>): seq<string>
    decreases |turns|
  {
    if turns == [] || paired then pins
    else
      var t := turns[0];
      var now := if t.wake.Refresh? then [] else if t.derives then [t.pin] + pins else pins;
      if GoesOn(t) then HonouredPins(turns[1..], t.pairedByNext, now) else now
  }

  function Derived(pins: seq<string>, derive: string -> PinPassword): seq<PinPassword> {
    seq(|pins|, i requires 0 <= i < |pins| => derive(pins[i]))
  }

  /** The window always holds the passwords of the last two of them. */
  lemma {:induction false} WindowIsOfShownPins(turns: seq<Turn>, paired: bool, pins: seq<string>,
                                               derive: string -> PinPassword)
    ensures Window(Derived(Keep(pins), derive), Ops(turns, paired, derive))
         == Derived(Keep(HonouredPins(turns, paired, pins)), derive)
    decreases |turns|
  {
    if turns == [] || paired {
      assert Ops(turns, paired, derive) == [];
    } else {
      var t := turns[0];
      TurnUnfolds(Derived(Keep(pins), derive), turns, derive);
      assert Minted(Derived(Keep(pins), derive), t, derive)
          == Derived(Keep(if t.derives then [t.pin] + pins else pins), derive);
      assert Derived(Keep([]), derive) == [];
      if GoesOn(t) {
        WindowIsOfShownPins(turns[1..], t.pairedByNext,
                            if t.wake.Refresh? then [] else if t.derives then [t.pin] + pins else pins, derive);
      }
    }
  }

  /** Every PIN still honoured, and every one still advertised, was shown. */
  lemma {:induction false} HonouredWereShown(turns: seq<Turn>, paired: bool, pins: seq<string>, up: seq<string>,
                                             pin: string)
    ensures pin in HonouredPins(turns, paired, pins) ==> pin in pins || PinRotated(pin) in Events(turns, paired)
    ensures pin in Standing(turns, paired, up) ==> pin in up || PinRotated(pin) in Events(turns, paired)
    ensures |up| <= 2 ==> |Standing(turns, paired, up)| <= 2
    decreases |turns|
  {
    if turns != [] && !paired {
      var t := turns[0];
      assert PinRotated(t.pin) == Events(turns, paired)[0];
      if GoesOn(t) {
        HonouredWereShown(turns[1..], t.pairedByNext,
                          if t.wake.Refresh? then [] else if t.derives then [t.pin] + pins else pins,
                          if t.wake.Refresh? then [] else Advertised(up, t), pin);
        assert Events(turns, paired) == [PinRotated(t.pin)] + Events(turns[1..], t.pairedByNext);
      }
    }
  }

  /** The PINs advertised since the last refresh, oldest first, had none been
      replaced; `up` are those from before these turns. */
  function AdvertisedSince(turns: seq<Turn>, paired: bool, up: seq<string>): seq<string>
    decreases |turns|
  {
    if turns == [] then up
    else if paired || !GoesOn(turns[0]) then []
    else
      var t := turns[0];
      AdvertisedSince(turns[1..], t.pairedByNext,
                      if t.wake.Refresh? then [] else if t.advertised then up + [t.pin] else up)
  }

  /** What stands is the newest two of them. */
  lemma {:induction false} StandingAreTheNewest(turns: seq<Turn>, paired: bool, up: seq<string>)
    ensures Standing(turns, paired, LastTwo(up)) == LastTwo(AdvertisedSince(turns, paired, up))
    decreases |turns|
  {
    if turns == [] || paired || !GoesOn(turns[0]) {
    } else {
      var t := turns[0];
      assert LastTwo(LastTwo(up) + [t.pin]) == LastTwo(up + [t.pin]);
      StandingAreTheNewest(turns[1..], t.pairedByNext,
                           if t.wake.Refresh? then [] else if t.advertised then up + [t.pin] else up);
    }
  }

  /** In particular a PIN that has just been advertised is up until the next one. */
  lemma NewestAdvertisementStands(up: seq<string>, t: Turn)
    requires t.advertised && t.wake.Timer?
    ensures var now := Standing([t], false, up);
            now != [] && now[|now| - 1] == t.pin && (up != [] ==> |now| == 2 && now[0] == up[|up| - 1])
  {
    assert [t][1..] == [];
  }

  /** No PIN still honoured stretches to this one's password by accident. */
  ghost predicate ToldApart(pin: string, pins: seq<string>, derive: string -> PinPassword) {
    forall q :: q in pins && derive(q) == derive(pin) ==> q == pin
  }

  /** Whatever the publisher has done since it started - on the window any earlier
      PINs left behind - a PIN is accepted exactly when it is one of the last two
      shown since the last refresh, both ends see the same endpoints, and nobody
      else holds the claim. `before` are the earlier PINs, newest first. */
  lemma ShownPinAcceptedExactlyWhen(turns: seq<Turn>, before: seq<string>, derive: string -> PinPassword,
                                    claim: Option<ClaimedPeer>, node: NodeId, pin: string, sameIds: bool)
    requires ToldApart(pin, Keep(HonouredPins(turns, false, before)), derive)
    ensures Accepts(Window(Derived(Keep(before), derive), Ops(turns, false, derive)), claim, node, derive(pin), sameIds)
       <==> && pin in Keep(HonouredPins(turns, false, before)) && sameIds
            && (claim.None? || claim == Some(ClaimedPeer(None, node)))
  {
    var pins := Keep(HonouredPins(turns, false, before));
    WindowIsOfShownPins(turns, false, before, derive);
    AcceptsIs(Derived(pins, derive), claim, node, derive(pin), sameIds);
    if pin in pins {
      var i :| 0 <= i < |pins| && pins[i] == pin;
      assert Derived(pins, derive)[i] == derive(pin);
    }
  }

  /** Whether the publisher gets as far as turn `k`. */
  predicate Reached(turns: seq<Turn>, paired: bool, k: nat)
    requires k < |turns|
    decreases k
  {
    !paired && (k == 0 || (GoesOn(turns[0]) && Reached(turns[1..], turns[0].pairedByNext, k - 1)))
  }

  /** The screen follows the turns: the k-th thing shown is the k-th turn's PIN, for
      as long as the publisher gets there. */
  lemma {:induction false} EachTurnShowsItsPin(turns: seq<Turn>, paired: bool, k: nat)
    requires k < |turns| && Reached(turns, paired, k)
    ensures k < |Events(turns, paired)| && Events(turns, paired)[k] == PinRotated(turns[k].pin)
    decreases k
  {
    if k == 0 {
    } else {
      EachTurnShowsItsPin(turns[1..], turns[0].pairedByNext, k - 1);
    }
  }

  /** And it is cleared exactly when a turn the publisher reaches is woken by a
      pairing, or goes on and finds one before the next. */
  lemma {:induction false} ClearedExactlyWhen(turns: seq<Turn>, paired: bool)
    ensures PinCleared in Events(turns, paired)
       <==> turns != []
            && (paired || exists k :: 0 <= k < |turns| && Reached(turns, paired, k) && SeesPairing(turns, k))
    decreases |turns|
  {
    if turns == [] || paired {
    } else {
      var t, rest := turns[0], turns[1..];
      ClearedExactlyWhen(rest, t.pairedByNext);
      assert Reached(turns, paired, 0);
      if GoesOn(t) {
        assert Events(turns, paired) == [PinRotated(t.pin)] + Events(rest, t.pairedByNext);
        if k :| 0 <= k < |rest| && Reached(rest, t.pairedByNext, k) && SeesPairing(rest, k) {
          assert Reached(turns, paired, k + 1) && SeesPairing(turns, k + 1);
        }
        if k :| 0 <= k < |turns| && Reached(turns, paired, k) && SeesPairing(turns, k) {
          if k > 0 {
            assert Reached(rest, t.pairedByNext, k - 1) && SeesPairing(rest, k - 1);
          }
        }
        if rest != [] && t.pairedByNext {
          assert SeesPairing(turns, 0);
        }
      } else {
        assert forall k :: 0 < k < |turns| ==> !Reached(turns, paired, k);
        assert SeesPairing(turns, 0) <==> t.wake.Paired?;
      }
    }
  }

  predicate SeesPairing(turns: seq<Turn>, k: nat)
    requires k < |turns|
  {
    turns[k].wake.Paired? || (GoesOn(turns[k]) && turns[k].pairedByNext && k + 1 < |turns|)
  }

  lemma {:induction false} HonouredSinceRefresh(turns: seq<Turn>, paired: bool, pins: seq<string>, k: nat, pin: string)
    requires k < |turns| && Reached(turns, paired, k) && turns[k].wake.Refresh?
    requires forall i :: k < i < |turns| ==> turns[i].pin != pin
    ensures pin !in HonouredPins(turns, paired, pins)
    decreases k
  {
    var t, rest := turns[0], turns[1..];
    if k == 0 {
      HonouredAmong(rest, t.pairedByNext, [], pin);
    } else {
      HonouredSinceRefresh(rest, t.pairedByNext,
                           if t.wake.Refresh? then [] else if t.derives then [t.pin] + pins else pins, k - 1, pin);
    }
  }

  lemma {:induction false} HonouredAmong(turns: seq<Turn>, paired: bool, pins: seq<string>, pin: string)
    requires pin !in pins && forall i :: 0 <= i < |turns| ==> turns[i].pin != pin
    ensures pin !in HonouredPins(turns, paired, pins)
    decreases |turns|
  {
    if turns != [] && !paired && GoesOn(turns[0]) {
      var t := turns[0];
      HonouredAmong(turns[1..], t.pairedByNext,
                    if t.wake.Refresh? then [] else if t.derives then [t.pin] + pins else pins, pin);
    }
  }

  /** A refresh revokes what is on screen: a PIN shown before it, and not shown
      again, is refused from then on, whatever the publisher does next. */
  lemma RefreshRevokesShownPins(turns: seq<Turn>, before: seq<string>, k: nat, derive: string -> PinPassword,
                                claim: Option<ClaimedPeer>, node: NodeId, pin: string, sameIds: bool)
    requires ToldApart(pin, Keep(HonouredPins(turns, false, before)), derive)
    requires k < |turns| && Reached(turns, false, k) && turns[k].wake.Refresh?
    requires forall i :: k < i < |turns| ==> turns[i].pin != pin
    ensures !Accepts(Window(Derived(Keep(before), derive), Ops(turns, false, derive)), claim, node,
                     derive(pin), sameIds)
  {
    ShownPinAcceptedExactlyWhen(turns, before, derive, claim, node, pin, sameIds);
    HonouredSinceRefresh(turns, false, before, k, pin);
  }

  /** Once the display is cleared it stays clear: a publisher never shows a PIN
      after a peer has paired. */
  lemma {:induction false} NothingShownAfterCleared(turns: seq<Turn>, paired: bool, k: nat)
    requires k < |Events(turns, paired)| && Events(turns, paired)[k].PinCleared?
    ensures k == |Events(turns, paired)| - 1
  {
    if !paired && k > 0 && (turns[0].wake.Timer? || turns[0].wake.Refresh?) {
      NothingShownAfterCleared(turns[1..], turns[0].pairedByNext, k - 1);
    }
  }

  /** A publisher shows a PIN at all exactly when it starts on a claim nobody has
      taken. */
  lemma ShowsExactlyWhenUnclaimed(turns: seq<Turn>, paired: bool)
    requires turns != []
    ensures (exists pin :: PinRotated(pin) in Events(turns, paired)) <==> !paired
    ensures PinCleared == Events(turns, paired)[0] <==> paired
  {
    if !paired {
      assert Events(turns, paired)[0] == PinRotated(turns[0].pin);
      assert PinRotated(turns[0].pin) in Events(turns, paired);
    }
  }

  /** Under a spent claim the old window still lets its holder back in, and nobody
      else. */
  lemma SpentClaimAdmitsItsHolder(ops: seq<PinOp>, holder: NodeId, node: NodeId, pw: PinPassword)
    ensures Accepts(Window([], ops), Some(ClaimedPeer(None, holder)), node, pw, true)
       <==> node == holder && pw in Keep(SinceRevoke(ops))
  {
    AcceptanceIsExact(ops, Some(ClaimedPeer(None, holder)), node, pw, true);
  }
}
