/** The card-setup PIN handshake (pin_auth.rs). SPAKE2 and HMAC are ideal: a
    slot's key stands for the password, the two identities and the two messages
    that went into it, so two sides hold the same key exactly when they put in
    the same things; a MAC stands for its key and text. */
module PinAuth {
  import opened Wrappers
  import opened Bytes

  const PAKE_SLOTS: nat := 2

  const PAKE_DOMAIN := "duocb:pin-pake:v1"

  /** Argon2id output. */
  type PinPassword = bytes

  datatype Direction = Dialer | Listener

  type Slot = s: nat | s < PAKE_SLOTS

  function SlotText(slot: Slot): string { if slot == 0 then "0" else "1" }

  function DirectionText(d: Direction): string { if d.Dialer? then "dialer" else "listener" }

  /** The two transport ids as one side sees them: the dialer's, the listener's. */
  datatype Ids = Ids(dialer: string, listener: string)

  function DialerIdentity(slot: Slot, ids: Ids): string {
    PAKE_DOMAIN + "|dialer|" + SlotText(slot) + "|" + ids.dialer
  }

  function ListenerIdentity(slot: Slot, ids: Ids): string {
    PAKE_DOMAIN + "|listener|" + SlotText(slot) + "|" + ids.listener
  }

  function ConfirmText(dir: Direction, slot: Slot, ids: Ids): string {
    PAKE_DOMAIN + "|confirm|" + (DirectionText(dir) + "|" + (SlotText(slot) + "|" + (ids.dialer + "|" + ids.listener)))
  }

  // ---------------------------------------------------------------------
  // The texts that separate slots, directions and endpoints
  // ---------------------------------------------------------------------

  predicate NoBar(s: string) { '|' !in s }

  lemma {:induction false} FirstBarSplits(a: string, x: string, b: string, y: string)
    requires NoBar(a) && NoBar(b) && a + "|" + x == b + "|" + y
    ensures a == b && x == y
  {
    var s := a + "|" + x;
    assert s[|a|] == '|' && s[|b|] == '|';
    assert forall i :: 0 <= i < |a| ==> s[i] == a[i] != '|';
    assert forall i :: 0 <= i < |b| ==> s[i] == b[i] != '|';
    assert s[..|a|] == a && s[..|b|] == b && s[|a| + 1..] == x && s[|b| + 1..] == y;
  }

  /** Confirmation texts never coincide across directions, slots or endpoints,
      as long as the ids hold no bar (node ids are hexadecimal)... */
  lemma ConfirmTextInjective(d: Direction, s: Slot, i: Ids, e: Direction, t: Slot, j: Ids)
    requires NoBar(i.dialer) && NoBar(j.dialer)
    ensures ConfirmText(d, s, i) == ConfirmText(e, t, j) ==> d == e && s == t && i == j
  {
    var x, y := IdsText(i), IdsText(j);
    var sx, sy := SlotText(s) + "|" + x, SlotText(t) + "|" + y;
    if ConfirmText(d, s, i) == ConfirmText(e, t, j) {
      SamePrefix(PAKE_DOMAIN + "|confirm|", DirectionText(d) + "|" + sx, DirectionText(e) + "|" + sy);
      FirstBarSplits(DirectionText(d), sx, DirectionText(e), sy);
      FirstBarSplits(SlotText(s), x, SlotText(t), y);
      FirstBarSplits(i.dialer, i.listener, j.dialer, j.listener);
    }
  }

  function IdsText(i: Ids): string { i.dialer + "|" + i.listener }

  lemma SamePrefix(p: string, x: string, y: string)
    requires p + x == p + y
    ensures x == y
  {
    assert (p + x)[|p|..] == x && (p + y)[|p|..] == y;
  }

  /** ...which is not true of ids that may hold one. */
  lemma BarsConfuseConfirmTexts(d: Direction, s: Slot) returns (i: Ids, j: Ids)
    ensures i != j && ConfirmText(d, s, i) == ConfirmText(d, s, j)
  {
    i, j := Ids("a|b", "c"), Ids("a", "b|c");
    assert i.dialer != j.dialer by { assert |i.dialer| != |j.dialer|; }
    assert IdsText(i) == IdsText(j);
  }

  /** The identity strings need no such care: the id comes last. */
  lemma IdentitiesInjective(s: Slot, i: Ids, t: Slot, j: Ids)
    ensures DialerIdentity(s, i) == DialerIdentity(t, j) ==> s == t && i.dialer == j.dialer
    ensures ListenerIdentity(s, i) == ListenerIdentity(t, j) ==> s == t && i.listener == j.listener
  {
    AfterSlot(PAKE_DOMAIN + "|dialer|", s, i.dialer, t, j.dialer);
    AfterSlot(PAKE_DOMAIN + "|listener|", s, i.listener, t, j.listener);
  }

  lemma AfterSlot(p: string, s: Slot, x: string, t: Slot, y: string)
    ensures p + SlotText(s) + "|" + x == p + SlotText(t) + "|" + y ==> s == t && x == y
  {
    var a, b := p + SlotText(s) + "|" + x, p + SlotText(t) + "|" + y;
    assert a[|p|] == SlotText(s)[0] && b[|p|] == SlotText(t)[0];
    assert a[|p| + 2..] == x && b[|p| + 2..] == y;
  }

  // ---------------------------------------------------------------------
  // Ideal SPAKE2 and HMAC
  // ---------------------------------------------------------------------

  datatype PakeMessage = FromA(password: PinPassword, idA: string, idB: string, coin: nat)
                       | FromB(password: PinPassword, idA: string, idB: string, coin: nat)
                       | Malformed

  datatype PakeKey = PakeKey(password: PinPassword, idA: string, idB: string, a: PakeMessage, b: PakeMessage)

  datatype Mac = Hmac(key: PakeKey, text: string) | OtherBytes

  function StartA(pw: PinPassword, slot: Slot, ids: Ids, coin: nat): PakeMessage {
    FromA(pw, DialerIdentity(slot, ids), ListenerIdentity(slot, ids), coin)
  }

  function StartB(pw: PinPassword, slot: Slot, ids: Ids, coin: nat): PakeMessage {
    FromB(pw, DialerIdentity(slot, ids), ListenerIdentity(slot, ids), coin)
  }

  /** `Spake2::finish`: refuses garbage and messages from its own side. */
  function FinishA(mine: PakeMessage, theirs: PakeMessage): Option<PakeKey> {
    if mine.FromA? && theirs.FromB? then Some(PakeKey(mine.password, mine.idA, mine.idB, mine, theirs)) else None
  }

  function FinishB(mine: PakeMessage, theirs: PakeMessage): Option<PakeKey> {
    if mine.FromB? && theirs.FromA? then Some(PakeKey(mine.password, mine.idA, mine.idB, theirs, mine)) else None
  }

  function ConfirmMac(key: PakeKey, dir: Direction, slot: Slot, ids: Ids): Mac {
    Hmac(key, ConfirmText(dir, slot, ids))
  }

  // ---------------------------------------------------------------------
  // The dialer
  // ---------------------------------------------------------------------

  /** Step 1: every slot starts on the one typed PIN. */
  method DialerOpen(pw: PinPassword, ids: Ids, coins: Slot -> nat) returns (msgs: seq<PakeMessage>)
    ensures |msgs| == PAKE_SLOTS
    ensures forall s: Slot :: msgs[s] == StartA(pw, s, ids, coins(s))
  {
    msgs := [];
    for slot := 0 to PAKE_SLOTS
      invariant |msgs| == slot
      invariant forall s: Slot :: s < slot ==> msgs[s] == StartA(pw, s, ids, coins(s))
    {
      msgs := msgs + [StartA(pw, slot, ids, coins(slot))];
    }
  }

  /** Step 3: finish every slot and confirm its key; None ends the attempt. */
  method DialerAnswer(mine: seq<PakeMessage>, theirs: seq<PakeMessage>, ids: Ids)
    returns (r: Option<(seq<PakeKey>, seq<Mac>)>)
    requires |mine| == PAKE_SLOTS
    ensures r.Some? <==> |theirs| == PAKE_SLOTS && forall s: Slot :: FinishA(mine[s], theirs[s]).Some?
    ensures r.Some? ==>
      && |r.value.0| == |r.value.1| == PAKE_SLOTS
      && (forall s: Slot :: FinishA(mine[s], theirs[s]) == Some(r.value.0[s]))
      && (forall s: Slot :: r.value.1[s] == ConfirmMac(r.value.0[s], Dialer, s, ids))
  {
    if |theirs| != PAKE_SLOTS {
      return None;
    }
    var keys: seq<PakeKey>, confirms: seq<Mac> := [], [];
    for slot := 0 to PAKE_SLOTS
      invariant |keys| == |confirms| == slot
      invariant forall s: Slot :: s < slot ==> FinishA(mine[s], theirs[s]) == Some(keys[s])
      invariant forall s: Slot :: s < slot ==> confirms[s] == ConfirmMac(keys[s], Dialer, s, ids)
    {
      var key := FinishA(mine[slot], theirs[slot]);
      if key.None? {
        return None;
      }
      keys, confirms := keys + [key.value], confirms + [ConfirmMac(key.value, Dialer, slot, ids)];
    }
    return Some((keys, confirms));
  }

  datatype Verdict = Accepted(slot: nat, confirm: Mac) | Rejected

  /** Step 4: the listener must prove it holds the key of the slot it named. */
  function DialerBelieves(keys: seq<PakeKey>, v: Verdict, ids: Ids): bool
    requires |keys| == PAKE_SLOTS
  {
    v.Accepted? && v.slot < PAKE_SLOTS && v.confirm == ConfirmMac(keys[v.slot], Listener, v.slot, ids)
  }

  // ---------------------------------------------------------------------
  // The listener
  // ---------------------------------------------------------------------

  /** Step 2: slot i runs against the i-th most recent PIN, or a dummy. */
  method ListenerChallenge(candidates: seq<PinPassword>, dummies: Slot -> PinPassword, theirs: seq<PakeMessage>,
                           ids: Ids, coins: Slot -> nat)
    returns (r: Option<(seq<bool>, seq<PakeKey>, seq<PakeMessage>)>)
    ensures r.Some? <==> |theirs| == PAKE_SLOTS && forall s: Slot :: theirs[s].FromA?
    ensures r.Some? ==>
      && |r.value.0| == |r.value.1| == |r.value.2| == PAKE_SLOTS
      && forall s: Slot ::
           && r.value.0[s] == (s < |candidates|)
           && r.value.2[s] == StartB(if s < |candidates| then candidates[s] else dummies(s), s, ids, coins(s))
           && FinishB(r.value.2[s], theirs[s]) == Some(r.value.1[s])
  {
    if |theirs| != PAKE_SLOTS {
      return None;
    }
    var live: seq<bool>, keys: seq<PakeKey>, msgs: seq<PakeMessage> := [], [], [];
    for slot := 0 to PAKE_SLOTS
      invariant |live| == |keys| == |msgs| == slot
      invariant forall s: Slot :: s < slot ==>
        && live[s] == (s < |candidates|)
        && msgs[s] == StartB(if s < |candidates| then candidates[s] else dummies(s), s, ids, coins(s))
        && FinishB(msgs[s], theirs[s]) == Some(keys[s])
    {
      var password := if slot < |candidates| then candidates[slot] else dummies(slot);
      var msg := StartB(password, slot, ids, coins(slot));
      var key := FinishB(msg, theirs[slot]);
      if key.None? {
        return None;
      }
      live, keys, msgs := live + [slot < |candidates|], keys + [key.value], msgs + [msg];
    }
    return Some((live, keys, msgs));
  }

  predicate SlotVerifies(live: seq<bool>, keys: seq<PakeKey>, confirms: seq<Mac>, ids: Ids, s: Slot)
    requires |live| == |keys| == |confirms| == PAKE_SLOTS
  {
    live[s] && confirms[s] == ConfirmMac(keys[s], Dialer, s, ids)
  }

  /** Steps 3 and 4: the first real slot whose confirmation verifies, if the
      claim can be committed. `asked` says whether it was tried. */
  method ListenerDecide(live: seq<bool>, keys: seq<PakeKey>, confirms: seq<Mac>, ids: Ids, commit: bool)
    returns (v: Verdict, asked: bool)
    requires |live| == |keys| == PAKE_SLOTS
    ensures |confirms| != PAKE_SLOTS ==> v == Rejected && !asked
    ensures |confirms| == PAKE_SLOTS ==>
      && (asked <==> exists s: Slot :: SlotVerifies(live, keys, confirms, ids, s))
      && (v.Accepted? <==> asked && commit)
      && (v.Accepted? ==> v.slot < PAKE_SLOTS && SlotVerifies(live, keys, confirms, ids, v.slot)
                          && v.confirm == ConfirmMac(keys[v.slot], Listener, v.slot, ids)
                          && forall s: Slot :: s < v.slot ==> !SlotVerifies(live, keys, confirms, ids, s))
  {
    if |confirms| != PAKE_SLOTS {
      return Rejected, false;
    }
    var matched: Option<Slot> := None;
    for slot := 0 to PAKE_SLOTS
      invariant matched.None? ==> forall s: Slot :: s < slot ==> !SlotVerifies(live, keys, confirms, ids, s)
      invariant matched.Some? ==>
        && SlotVerifies(live, keys, confirms, ids, matched.value)
        && forall s: Slot :: s < matched.value ==> !SlotVerifies(live, keys, confirms, ids, s)
    {
      if SlotVerifies(live, keys, confirms, ids, slot) && matched.None? {
        matched := Some(slot);
      }
    }
    if matched.None? {
      return Rejected, false;
    }
    if !commit {
      return Rejected, true;
    }
    return Accepted(matched.value, ConfirmMac(keys[matched.value], Listener, matched.value, ids)), true;
  }

  // ---------------------------------------------------------------------
  // Both together
  // ---------------------------------------------------------------------

  predicate Honoured(candidates: seq<PinPassword>, pw: PinPassword, s: Slot) {
    s < |candidates| && candidates[s] == pw
  }

  /** A whole handshake between two ends that follow the protocol over a
      network that delivers. It succeeds on both sides or on neither: exactly
      when the dialer's PIN is one the listener still honours, both see the
      same two endpoints, and the claim can be committed. The slot named is the
      newest that matches, whatever the dummies are. */
  method Handshake(pw: PinPassword, candidates: seq<PinPassword>, dialerView: Ids, listenerView: Ids,
                   commit: bool, coinsA: Slot -> nat, coinsB: Slot -> nat, dummies: Slot -> PinPassword)
    returns (dialerOk: bool, verdict: Verdict)
    ensures dialerOk <==> verdict.Accepted?
    ensures dialerOk <==> (exists s: Slot :: Honoured(candidates, pw, s)) && dialerView == listenerView && commit
    ensures verdict.Accepted? ==> verdict.slot < PAKE_SLOTS && Honoured(candidates, pw, verdict.slot)
                                  && forall s: Slot :: s < verdict.slot ==> !Honoured(candidates, pw, s)
  {
    var msgsA := DialerOpen(pw, dialerView, coinsA);
    var challenge := ListenerChallenge(candidates, dummies, msgsA, listenerView, coinsB);
    var (live, keysB, msgsB) := challenge.value;
    var answer := DialerAnswer(msgsA, msgsB, dialerView);
    var (keysA, confirms) := answer.value;
    forall s: Slot
      ensures SlotVerifies(live, keysB, confirms, listenerView, s)
         <==> Honoured(candidates, pw, s) && dialerView == listenerView
      ensures keysA[s] == keysB[s] && dialerView == listenerView
          ==> ConfirmMac(keysA[s], Listener, s, dialerView) == ConfirmMac(keysB[s], Listener, s, listenerView)
    {
      IdentitiesInjective(s, dialerView, s, listenerView);
    }
    var asked;
    verdict, asked := ListenerDecide(live, keysB, confirms, listenerView, commit);
    dialerOk := DialerBelieves(keysA, verdict, dialerView);
  }

  /** A listener's own confirmation cannot be sent back to it as a dialer's, in
      this or any other slot. */
  lemma ConfirmationsDoNotReflect(k: PakeKey, l: PakeKey, s: Slot, t: Slot, i: Ids, j: Ids)
    requires NoBar(i.dialer) && NoBar(j.dialer)
    ensures ConfirmMac(k, Listener, s, i) != ConfirmMac(l, Dialer, t, j)
  {
    ConfirmTextInjective(Listener, s, i, Dialer, t, j);
  }
}
