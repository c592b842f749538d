/** Persistence (config.rs): the public half of the settings in a JSON file, the
    identity key in the OS credential store, and what a crash can leave of the
    two. Renames are atomic, a flushed file survives, an unflushed one may not. */
module Config {
  import opened Wrappers
  import opened KeyAuth
  import opened Identity
  import opened Cards

  const CONFIG_VERSION: nat := 5

  /** A stored identity secret, named by its public key, or text that is none. */
  datatype Nsec = Nsec(key: Key) | BadNsec

  /** What the JSON holds; the secret is never part of it. */
  datatype Public = Public(version: nat, suffix: string, myName: Option<string>,
                           selfCard: Option<Text>, peers: seq<Text>)

  datatype Settings = Settings(secret: Nsec, pub: Public)

  datatype Credential = NoEntry | Stored(secret: Nsec) | Unreadable

  datatype Content = Json(pub: Public) | Torn

  datatype File = Absent | File(content: Content, flushed: bool)

  // ---------------------------------------------------------------------
  // What loads
  // ---------------------------------------------------------------------

  /** Whose card a text is, if it is one. */
  function CardKey(t: Text): Option<Key> {
    var card := Parse(t);
    if card.Some? then Some(card.value.event.signer) else None
  }

  function CardKeys(ts: seq<Text>): seq<Option<Key>> {
    seq(|ts|, i requires 0 <= i < |ts| => CardKey(ts[i]))
  }

  predicate SelfCardMatches(key: Key, pub: Public) {
    && pub.selfCard.Some? && pub.myName.Some? && ValidName(pub.myName.value)
    && CardKey(pub.selfCard.value) == Some(key)
    && Parse(pub.selfCard.value).value.name == DisplayIdentity(pub.myName.value, pub.suffix)
  }

  predicate Unnamed(pub: Public) { pub.myName.None? && pub.selfCard.None? }

  /** Cards of other devices, no two of the same, and not too many. */
  ghost predicate PeersAccepted(key: Key, peers: seq<Text>) {
    |peers| <= MAX_TRUSTED_PEERS && Distinct(key, CardKeys(peers))
  }

  ghost predicate Distinct(key: Key, cards: seq<Option<Key>>) {
    && (forall i :: 0 <= i < |cards| ==> cards[i].Some? && cards[i] != Some(key))
    && forall i, j :: 0 <= i < j < |cards| ==> cards[i] != cards[j]
  }

  /** Settings the program considers whole. */
  ghost predicate Accepts(s: Settings) {
    && s.pub.version == CONFIG_VERSION && s.secret.Nsec? && ValidSuffix(s.pub.suffix)
    && (Unnamed(s.pub) || SelfCardMatches(s.secret.key, s.pub))
    && PeersAccepted(s.secret.key, s.pub.peers)
  }

  /** How a start goes: nothing saved yet, these settings, or an error. */
  datatype Startup = FirstLaunch | Restored(s: Settings) | Fails

  ghost function StartupFrom(config: File, cred: Credential): Startup {
    if config.Absent? then FirstLaunch
    else if config.content.Json? && cred.Stored? && Accepts(Settings(cred.secret, config.content.pub))
    then Restored(Settings(cred.secret, config.content.pub))
    else Fails
  }

  datatype LoadError = Malformed | UnsupportedVersion | StoreFailed | NoIdentityKey | BadIdentityKey | BadSuffix
                     | BadIdentity | TooManyPeers | BadPeerCard | PeerIsSelf | DuplicatePeer

  /** What is wrong with the first peer entry that will not do. */
  function FirstBad(key: Key, cards: seq<Option<Key>>): Option<LoadError> {
    if cards == [] then None
    else
      var before, last := cards[..|cards| - 1], cards[|cards| - 1];
      var earlier := FirstBad(key, before);
      if earlier.Some? then earlier
      else if last.None? then Some(BadPeerCard)
      else if last == Some(key) then Some(PeerIsSelf)
      else if last in before then Some(DuplicatePeer)
      else None
  }

  /** The entries are all good exactly when they are cards of other devices, no
      two of the same. */
  lemma {:induction false} NoneIsBad(key: Key, cards: seq<Option<Key>>)
    ensures FirstBad(key, cards).None? <==> Distinct(key, cards)
  {
    if cards == [] {
    } else {
      var before := cards[..|cards| - 1];
      NoneIsBad(key, before);
      if Distinct(key, cards) {
        assert Distinct(key, before);
      }
    }
  }

  /** Entry `i` is the first bad one, and `e` is what is wrong with it. */
  ghost predicate OffendsAt(key: Key, cards: seq<Option<Key>>, i: nat, e: LoadError) {
    && i < |cards| && Distinct(key, cards[..i])
    && match cards[i]
       case None => e == BadPeerCard
       case Some(k) => e == if k == key then PeerIsSelf else DuplicatePeer
  }

  lemma {:induction false} FirstOffenceIsReported(key: Key, cards: seq<Option<Key>>)
    ensures FirstBad(key, cards).Some? ==> exists i: nat :: OffendsAt(key, cards, i, FirstBad(key, cards).value)
  {
    if cards == [] {
    } else {
      var n := |cards| - 1;
      FirstOffenceIsReported(key, cards[..n]);
      if i: nat :| FirstBad(key, cards[..n]).Some? && OffendsAt(key, cards[..n], i, FirstBad(key, cards[..n]).value) {
        assert cards[..n][..i] == cards[..i];
        assert OffendsAt(key, cards, i, FirstBad(key, cards).value);
      } else {
        NoneIsBad(key, cards[..n]);
        assert FirstBad(key, cards).Some? ==> OffendsAt(key, cards, n, FirstBad(key, cards).value);
      }
    }
  }

  /** Once an entry is bad, later ones change nothing. */
  lemma {:induction false} FirstBadStays(key: Key, cards: seq<Option<Key>>, n: nat)
    requires n <= |cards| && FirstBad(key, cards[..n]).Some?
    ensures FirstBad(key, cards) == FirstBad(key, cards[..n])
  {
    if n == |cards| {
      assert cards[..n] == cards;
    } else {
      var shorter := cards[..|cards| - 1];
      assert shorter[..n] == cards[..n];
      FirstBadStays(key, shorter, n);
    }
  }

  /** One entry against those before it. */
  method CheckPeer(key: Key, ghost cards: seq<Option<Key>>, ghost i: nat, signer: Option<Key>, seen: set<Key>)
    returns (problem: Option<LoadError>)
    requires i < |cards| && signer == cards[i] && FirstBad(key, cards[..i]).None?
    requires forall k :: k in seen <==> Some(k) in cards[..i]
    ensures problem == FirstBad(key, cards[..i + 1])
    ensures problem.Some? ==> problem == FirstBad(key, cards)
    ensures problem.None? ==> signer.Some? && forall k :: k in seen + {signer.value} <==> Some(k) in cards[..i + 1]
  {
    assert cards[..i + 1][..i] == cards[..i];
    problem := if signer.None? then Some(BadPeerCard) else if signer == Some(key) then Some(PeerIsSelf)
               else if signer.value in seen then Some(DuplicatePeer) else None;
    if problem.Some? {
      FirstBadStays(key, cards, i + 1);
    }
  }

  function PeerProblem(key: Key, peers: seq<Text>): Option<LoadError> {
    if |peers| > MAX_TRUSTED_PEERS then Some(TooManyPeers) else FirstBad(key, CardKeys(peers))
  }

  /** The peer checks of `ConfigLock::load`. */
  method CheckPeers(key: Key, peers: seq<Text>) returns (problem: Option<LoadError>)
    ensures problem == PeerProblem(key, peers)
  {
    if |peers| > MAX_TRUSTED_PEERS {
      return Some(TooManyPeers);
    }
    ghost var cards := CardKeys(peers);
    var seen: set<Key> := {};
    for i := 0 to |peers|
      invariant FirstBad(key, cards[..i]).None?
      invariant forall k :: k in seen <==> Some(k) in cards[..i]
    {
      var signer := CardKey(peers[i]);
      problem := CheckPeer(key, cards, i, signer, seen);
      if problem.Some? {
        return problem;
      }
      seen := seen + {signer.value};
    }
    assert cards[..|peers|] == cards;
    return None;
  }

  lemma {:induction false} BadKinds(key: Key, cards: seq<Option<Key>>)
    ensures FirstBad(key, cards) in {None, Some(BadPeerCard), Some(PeerIsSelf), Some(DuplicatePeer)}
  {
    if cards == [] {
    } else {
      BadKinds(key, cards[..|cards| - 1]);
    }
  }

  /** `ConfigLock::load`. `minted` is the default a first launch starts from. */
  method Load(config: File, cred: Credential, minted: Settings) returns (r: Result<Settings, LoadError>)
    ensures match StartupFrom(config, cred)
            case FirstLaunch => r == Ok(minted)
            case Restored(s) => r == Ok(s)
            case Fails => r.Err?
    ensures r == Err(NoIdentityKey)
       <==> config.File? && config.content.Json? && config.content.pub.version == CONFIG_VERSION && cred.NoEntry?
    ensures r == Err(Malformed) <==> config.File? && config.content.Torn?
    ensures r == Err(UnsupportedVersion)
       <==> config.File? && config.content.Json? && config.content.pub.version != CONFIG_VERSION
    ensures config.File? && config.content.Json? && config.content.pub.version == CONFIG_VERSION ==>
      && (r == Err(StoreFailed) <==> cred.Unreadable?)
      && (r == Err(BadIdentityKey) <==> cred == Stored(BadNsec))
      && (cred.Stored? && cred.secret.Nsec? ==>
            && (r == Err(BadSuffix) <==> !ValidSuffix(config.content.pub.suffix))
            && (r == Err(BadIdentity) <==> ValidSuffix(config.content.pub.suffix)
                                           && !Unnamed(config.content.pub)
                                           && !SelfCardMatches(cred.secret.key, config.content.pub))
            && (r.Err? && r.error !in [BadSuffix, BadIdentity] ==>
                  Some(r.error) == PeerProblem(cred.secret.key, config.content.pub.peers)))
  {
    if config.Absent? {
      return Ok(minted);
    }
    if config.content.Torn? {
      return Err(Malformed);
    }
    var pub := config.content.pub;
    if pub.version != CONFIG_VERSION {
      return Err(UnsupportedVersion);
    }
    match cred {
      case Unreadable => return Err(StoreFailed);
      case NoEntry => return Err(NoIdentityKey);
      case Stored(BadNsec) => return Err(BadIdentityKey);
      case Stored(Nsec(key)) =>
        if !ValidSuffix(pub.suffix) {
          return Err(BadSuffix);
        }
        if Unnamed(pub) {
        } else if !SelfCardMatches(key, pub) {
          return Err(BadIdentity);
        }
        var problem := CheckPeers(key, pub.peers);
        NoneIsBad(key, CardKeys(pub.peers));
        BadKinds(key, CardKeys(pub.peers));
        if problem.Some? {
          return Err(problem.value);
        }
        return Ok(Settings(Nsec(key), pub));
    }
  }

  // ---------------------------------------------------------------------
  // The disk, one system call at a time
  // ---------------------------------------------------------------------

  datatype Disk = Disk(config: File, temp: File, broken: File, cred: Credential)

  /** How a call goes: it does its work; it is refused and does nothing; or it
      fails with its work done in part. */
  datatype Fault = Fine | Refused | Partway

  function PutCredential(d: Disk, secret: Nsec, f: Fault): Disk {
    if f.Refused? then d else d.(cred := Stored(secret))
  }

  /** Create or truncate the temporary file and restrict it to its owner. */
  function Truncate(d: Disk, f: Fault): Disk {
    if f.Refused? then d else d.(temp := File(Torn, false))
  }

  function Write(d: Disk, pub: Public, f: Fault): Disk {
    match f
    case Fine => d.(temp := File(Json(pub), false))
    case Refused => d
    case Partway => d.(temp := File(Torn, false))
  }

  function Flush(d: Disk, f: Fault): Disk {
    if f.Fine? && d.temp.File? then d.(temp := d.temp.(flushed := true)) else d
  }

  function Replace(d: Disk, f: Fault): Disk {
    if f.Fine? then d.(config := d.temp, temp := Absent) else d
  }

  /** Where there is nothing to move aside, that counts as done. */
  function MoveAside(d: Disk, f: Fault): Disk {
    if f.Fine? && d.config.File? then d.(config := Absent, broken := d.config) else d
  }

  /** A run: the disk before it and after each call, and whether it reported
      success. */
  datatype Outcome = Outcome(disks: seq<Disk>, ok: bool)

  datatype SaveFaults = SaveFaults(credential: Fault, open: Fault, write: Fault, flush: Fault, rename: Fault)

  /** `ConfigLock::save`: every call in order, until one fails. */
  function SaveRun(d: Disk, s: Settings, f: SaveFaults): Outcome {
    var d1 := PutCredential(d, s.secret, f.credential);
    if !f.credential.Fine? then Outcome([d, d1], false)
    else
      var d2 := Truncate(d1, f.open);
      if !f.open.Fine? then Outcome([d, d1, d2], false)
      else
        var d3 := Write(d2, s.pub, f.write);
        if !f.write.Fine? then Outcome([d, d1, d2, d3], false)
        else
          var d4 := Flush(d3, f.flush);
          if !f.flush.Fine? then Outcome([d, d1, d2, d3, d4], false)
          else Outcome([d, d1, d2, d3, d4, Replace(d4, f.rename)], f.rename.Fine?)
  }

  /** `ConfigLock::reset`. */
  function ResetRun(d: Disk, minted: Settings, move: Fault, f: SaveFaults): Outcome {
    var d1 := MoveAside(d, move);
    if d.config.File? && !move.Fine? then Outcome([d, d1], false)
    else
      var saved := SaveRun(d1, minted, f);
      Outcome([d] + saved.disks, saved.ok)
  }

  /** The program's lock on one config path. */
  class ConfigLock {
    var disk: Disk
    /** Every state the disk has been in. */
    ghost var history: seq<Disk>

    method Save(s: Settings, f: SaveFaults) returns (ok: bool)
      modifies this
      ensures var run := SaveRun(old(disk), s, f);
              ok == run.ok && disk == run.disks[|run.disks| - 1] && history == old(history) + run.disks[1..]
    {
      disk := PutCredential(disk, s.secret, f.credential);
      history := history + [disk];
      if !f.credential.Fine? {
        return false;
      }
      disk := Truncate(disk, f.open);
      history := history + [disk];
      if !f.open.Fine? {
        return false;
      }
      disk := Write(disk, s.pub, f.write);
      history := history + [disk];
      if !f.write.Fine? {
        return false;
      }
      disk := Flush(disk, f.flush);
      history := history + [disk];
      if !f.flush.Fine? {
        return false;
      }
      disk := Replace(disk, f.rename);
      history := history + [disk];
      return f.rename.Fine?;
    }

    method Reset(minted: Settings, move: Fault, f: SaveFaults) returns (ok: bool)
      modifies this
      ensures var run := ResetRun(old(disk), minted, move, f);
              ok == run.ok && disk == run.disks[|run.disks| - 1] && history == old(history) + run.disks[1..]
    {
      var had := disk.config.File?;
      disk := MoveAside(disk, move);
      history := history + [disk];
      if had && !move.Fine? {
        return false;
      }
      ghost var before := history;
      ghost var saved := SaveRun(disk, minted, f).disks;
      ok := Save(minted, f);
      assert before + saved[1..] == old(history) + saved;
    }
  }

  // ---------------------------------------------------------------------
  // Crashes
  // ---------------------------------------------------------------------

  /** What a power cut may make of a file. */
  predicate Survives(before: File, after: File) {
    before.Absent? || before.flushed ==> after == before
  }

  /** The disk after a crash: every flushed file, the credential and all renames
      are as they were. */
  predicate PowerCut(d: Disk, e: Disk) {
    Survives(d.config, e.config) && Survives(d.temp, e.temp) && Survives(d.broken, e.broken) && e.cred == d.cred
  }

  /** Nothing but the temporary file is waiting to be flushed. */
  predicate Settled(d: Disk) {
    (d.config.File? ==> d.config.flushed) && (d.broken.File? ==> d.broken.flushed)
  }

  /** After a crash at any point of a save, the config is the old file or the
      whole new one; the credential is the old or the new; and the new file is
      never there without its credential. */
  lemma CrashDuringSave(d: Disk, s: Settings, f: SaveFaults, i: nat, e: Disk)
    requires Settled(d) && i < |SaveRun(d, s, f).disks| && PowerCut(SaveRun(d, s, f).disks[i], e)
    ensures e.config == d.config || (e.config == File(Json(s.pub), true) && e.cred == Stored(s.secret))
    ensures e.cred == d.cred || e.cred == Stored(s.secret)
    ensures e.broken == d.broken
  {
  }

  /** A save that reports success has replaced both halves; one that reports a
      failure has not touched the config. */
  lemma SaveReports(d: Disk, s: Settings, f: SaveFaults)
    ensures var run := SaveRun(d, s, f);
            var last := run.disks[|run.disks| - 1];
            if run.ok then last.config == File(Json(s.pub), true) && last.cred == Stored(s.secret)
            else last.config == d.config
  {
  }

  /** With the identity key unchanged, the next start after a crash at any point
      of a save finds exactly what it would have found before, or the settings
      being saved. */
  lemma OldOrNew(d: Disk, s: Settings, f: SaveFaults, i: nat, e: Disk)
    requires Settled(d) && i < |SaveRun(d, s, f).disks| && PowerCut(SaveRun(d, s, f).disks[i], e)
    requires d.cred == Stored(s.secret) && Accepts(s)
    ensures StartupFrom(e.config, e.cred) in {StartupFrom(d.config, d.cred), Restored(s)}
  {
    CrashDuringSave(d, s, f, i, e);
  }

  /** With a new identity there is one more possibility, the old file under the
      new key... */
  lemma OldOrNewOrHybrid(d: Disk, s: Settings, f: SaveFaults, i: nat, e: Disk)
    requires Settled(d) && i < |SaveRun(d, s, f).disks| && PowerCut(SaveRun(d, s, f).disks[i], e)
    requires Accepts(s)
    ensures StartupFrom(e.config, e.cred)
         in {StartupFrom(d.config, d.cred), StartupFrom(d.config, Stored(s.secret)), Restored(s)}
  {
    CrashDuringSave(d, s, f, i, e);
  }

  lemma HybridHappens(d: Disk, s: Settings) returns (f: SaveFaults, i: nat)
    ensures i < |SaveRun(d, s, f).disks| && PowerCut(SaveRun(d, s, f).disks[i], SaveRun(d, s, f).disks[i])
    ensures var e := SaveRun(d, s, f).disks[i];
            e.config == d.config && e.cred == Stored(s.secret)
  {
    f, i := SaveFaults(Fine, Fine, Fine, Fine, Fine), 1;
  }

  /** ...which starts - the new identity with the old one's peers - exactly when
      the old identity had not been named yet and the new key is not one of the
      peers; otherwise it is the startup error the user must recover from. */
  lemma HybridStartsExactlyWhen(prior: Settings, key: Key)
    requires Accepts(prior) && prior.secret != Nsec(key)
    ensures var hybrid := StartupFrom(File(Json(prior.pub), true), Stored(Nsec(key)));
            if prior.pub.myName.None? && Some(key) !in CardKeys(prior.pub.peers)
            then hybrid == Restored(Settings(Nsec(key), prior.pub))
            else hybrid == Fails
  {
  }

  /** After a crash at any point of a reset, the config is the old file, nothing,
      or the whole fresh one with its credential; and the old file is still
      there, in place or moved aside. */
  lemma CrashDuringReset(d: Disk, minted: Settings, move: Fault, f: SaveFaults, i: nat, e: Disk)
    requires Settled(d) && i < |ResetRun(d, minted, move, f).disks|
    requires PowerCut(ResetRun(d, minted, move, f).disks[i], e)
    ensures e.config == d.config || e.config == Absent
            || (e.config == File(Json(minted.pub), true) && e.cred == Stored(minted.secret))
    ensures e.config == d.config && d.config.File? && e.cred != d.cred ==>
              e.config == File(Json(minted.pub), true) && e.cred == Stored(minted.secret)
    ensures d.config.File? ==> e.config == d.config || e.broken == d.config
  {
    var d1 := MoveAside(d, move);
    if i > 0 {
      if d.config.File? && !move.Fine? {
        assert ResetRun(d, minted, move, f).disks[i] == d;
      } else {
        assert ResetRun(d, minted, move, f).disks[i] == SaveRun(d1, minted, f).disks[i - 1];
        CrashDuringSave(d1, minted, f, i - 1, e);
      }
    }
  }

  /** A reset that reports success leaves exactly the fresh settings, both halves,
      and the old file, if there was one, moved aside; one that fails has either
      changed nothing or only moved the old file - never half-replaced it. */
  lemma ResetReports(d: Disk, minted: Settings, move: Fault, f: SaveFaults)
    ensures var run := ResetRun(d, minted, move, f);
            var last := run.disks[|run.disks| - 1];
            if run.ok then
              && last.config == File(Json(minted.pub), true) && last.cred == Stored(minted.secret)
              && last.broken == (if d.config.File? then d.config else d.broken)
            else if d.config.File? && !move.Fine? then last == d
            else last.config == Absent && last.broken == (if d.config.File? then d.config else d.broken)
  {
    SaveReports(MoveAside(d, move), minted, f);
    SaveLeavesBroken(MoveAside(d, move), minted, f);
  }

  lemma SaveLeavesBroken(d: Disk, s: Settings, f: SaveFaults)
    ensures var run := SaveRun(d, s, f); run.disks[|run.disks| - 1].broken == d.broken
  {
  }

  /** So a reset, unlike a save, never leaves an old file under a new key: the
      next start is as before, a first launch, or the fresh identity. */
  lemma ResetStarts(d: Disk, minted: Settings, move: Fault, f: SaveFaults, i: nat, e: Disk)
    requires Settled(d) && i < |ResetRun(d, minted, move, f).disks|
    requires PowerCut(ResetRun(d, minted, move, f).disks[i], e)
    requires Accepts(minted)
    ensures StartupFrom(e.config, e.cred) in {StartupFrom(d.config, d.cred), FirstLaunch, Restored(minted)}
  {
    CrashDuringReset(d, minted, move, f, i, e);
  }
}
