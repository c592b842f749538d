/** One installation over its whole life (app/mod.rs, config.rs): any number of
    starts, operations whose saves may fail, recoveries, and crashes in the
    middle of any system call of a save or a reset. */
module Lifetime {
  import opened Wrappers
  import opened KeyAuth
  import opened Config
  import opened App

  datatype Event =
    | Launch(minted: Settings)                 // `minted` is what a first launch starts from
    | Do(op: Op, f: SaveFaults)
    | Dies(op: Op, f: SaveFaults, call: nat, after: Disk)    // after so many calls of the operation's save
    | Quits
    | Recovers(minted: Settings, move: Fault, f: SaveFaults) // the start failed and the user resets
    | DiesRecovering(minted: Settings, move: Fault, f: SaveFaults, call: nat, after: Disk)

  /** `owner` is the key the config file was saved under. */
  datatype Life = Life(disk: Disk, app: Option<Model>, owner: Option<Key>)

  const NEW := Life(Disk(Absent, Absent, Absent, NoEntry), None, None)

  function OwnerAfter(l: Life, after: Disk, key: Key): Option<Key> {
    if after.config == l.disk.config then l.owner else Some(key)
  }

  /** The disk states an operation's save goes through, if it saves. */
  function SaveOf(m: Model, op: Op, f: SaveFaults): seq<Disk> {
    var next := Next(m.trust, op);
    if next.None? then [m.disk] else SaveRun(m.disk, ToSettings(next.value), f).disks
  }

  /** Whose key that save is under. */
  function SaverOf(m: Model, op: Op): Key {
    if Next(m.trust, op).Some? then Next(m.trust, op).value.identity else m.trust.identity
  }

  ghost predicate Possible(l: Life, e: Event) {
    match e
    case Launch(minted) => l.app.None? && Accepts(minted)
    case Do(_, _) => l.app.Some?
    case Dies(op, f, call, after) =>
      l.app.Some? && call < |SaveOf(l.app.value, op, f)| && PowerCut(SaveOf(l.app.value, op, f)[call], after)
    case Quits => true
    case Recovers(minted, _, _) => l.app.None? && Accepts(minted) && StartupFrom(l.disk.config, l.disk.cred).Fails?
    case DiesRecovering(minted, move, f, call, after) =>
      && l.app.None? && Accepts(minted) && StartupFrom(l.disk.config, l.disk.cred).Fails?
      && call < |ResetRun(l.disk, minted, move, f).disks|
      && PowerCut(ResetRun(l.disk, minted, move, f).disks[call], after)
  }

  ghost function Started(l: Life, minted: Settings): Option<Model>
    requires minted.secret.Nsec?
  {
    match StartupFrom(l.disk.config, l.disk.cred)
    case FirstLaunch => Some(App.Started(minted, l.disk))
    case Restored(s) => Some(App.Started(s, l.disk))
    case Fails => None
  }

  ghost function Step(l: Life, e: Event): Life {
    if !Possible(l, e) then l
    else
      match e
      case Launch(minted) => l.(app := Started(l, minted))
      case Do(op, f) =>
        var m := Apply(l.app.value, op, f);
        Life(m.disk, Some(m), OwnerAfter(l, m.disk, SaverOf(l.app.value, op)))
      case Dies(op, _, _, after) => Life(after, None, OwnerAfter(l, after, SaverOf(l.app.value, op)))
      case Quits => l.(app := None)
      case Recovers(minted, move, f) =>
        var run := ResetRun(l.disk, minted, move, f);
        var disk := run.disks[|run.disks| - 1];
        Life(disk, if run.ok then Some(App.Started(minted, disk)) else None, OwnerAfter(l, disk, minted.secret.key))
      case DiesRecovering(minted, _, _, _, after) => Life(after, None, OwnerAfter(l, after, minted.secret.key))
  }

  ghost function Live(events: seq<Event>): Life {
    if events == [] then NEW else Step(Live(events[..|events| - 1]), events[|events| - 1])
  }

  // ---------------------------------------------------------------------
  // What every life keeps
  // ---------------------------------------------------------------------

  /** The config file, if there is one, is whole, good under the key it was saved
      under, and never without a key in the credential store. */
  ghost predicate Sound(disk: Disk, owner: Option<Key>) {
    && Settled(disk)
    && (disk.config.File? ==>
          && disk.config.content.Json? && disk.config.flushed
          && disk.cred.Stored? && disk.cred.secret.Nsec?
          && owner.Some? && Accepts(Settings(Nsec(owner.value), disk.config.content.pub)))
  }

  ghost predicate Inv(l: Life) {
    Sound(l.disk, l.owner) && (l.app.Some? ==> l.app.value.disk == l.disk && App.Inv(l.app.value))
  }

  /** A save that crashes or ends anywhere leaves the disk sound. */
  lemma SaveKeepsSound(l: Life, s: Settings, f: SaveFaults, call: nat, after: Disk)
    requires Sound(l.disk, l.owner) && Accepts(s)
    requires call < |SaveRun(l.disk, s, f).disks| && PowerCut(SaveRun(l.disk, s, f).disks[call], after)
    ensures Sound(after, OwnerAfter(l, after, s.secret.key))
  {
    CrashDuringSave(l.disk, s, f, call, after);
  }

  lemma ResetKeepsSound(l: Life, minted: Settings, move: Fault, f: SaveFaults, call: nat, after: Disk)
    requires Sound(l.disk, l.owner) && Accepts(minted)
    requires call < |ResetRun(l.disk, minted, move, f).disks|
    requires PowerCut(ResetRun(l.disk, minted, move, f).disks[call], after)
    ensures Sound(after, OwnerAfter(l, after, minted.secret.key))
  {
    var d1 := MoveAside(l.disk, move);
    CrashDuringReset(l.disk, minted, move, f, call, after);
    if call > 0 && !(l.disk.config.File? && !move.Fine?) {
      assert ResetRun(l.disk, minted, move, f).disks[call] == SaveRun(d1, minted, f).disks[call - 1];
      CrashDuringSave(d1, minted, f, call - 1, after);
    }
  }

  lemma OperationKeepsInv(l: Life, e: Event)
    requires Inv(l) && Possible(l, e) && (e.Do? || e.Dies?)
    ensures Inv(Step(l, e))
  {
    var m := l.app.value;
    var next := Next(m.trust, e.op);
    ApplyKeepsInv(m, e.op, e.f);
    NextIsWhole(m.trust, e.op);
    if next.Some? {
      var s := ToSettings(next.value);
      WholeStatesReload(next.value);
      var disks := SaveRun(m.disk, s, e.f).disks;
      var call := if e.Do? then |disks| - 1 else e.call;
      SaveKeepsSound(l, s, e.f, call, if e.Do? then disks[call] else e.after);
    }
  }

  lemma StepKeepsInv(l: Life, e: Event)
    requires Inv(l)
    ensures Inv(Step(l, e))
  {
    if Possible(l, e) {
      match e {
        case Launch(minted) =>
          match StartupFrom(l.disk.config, l.disk.cred) {
            case FirstLaunch => StartsWhole(minted, l.disk);
            case Restored(s) => StartsWhole(s, l.disk);
            case Fails =>
          }
        case Do(_, _) => OperationKeepsInv(l, e);
        case Dies(_, _, _, _) => OperationKeepsInv(l, e);
        case Quits =>
        case Recovers(minted, move, f) =>
          var disks := ResetRun(l.disk, minted, move, f).disks;
          ResetKeepsSound(l, minted, move, f, |disks| - 1, disks[|disks| - 1]);
          StartsWhole(minted, disks[|disks| - 1]);
        case DiesRecovering(minted, move, f, call, after) =>
          ResetKeepsSound(l, minted, move, f, call, after);
      }
    }
  }

  lemma {:induction false} LifeKeepsInv(events: seq<Event>)
    ensures Inv(Live(events))
  {
    if events == [] {
    } else {
      LifeKeepsInv(events[..|events| - 1]);
      StepKeepsInv(Live(events[..|events| - 1]), events[|events| - 1]);
    }
  }

  /** Over any life, from an empty disk: the config is never torn and never
      without a key in the store; a running app's trust is whole; and it is on
      disk as it is in memory whenever its last save went through. */
  lemma NothingIsEverTorn(events: seq<Event>)
    ensures var l := Live(events);
            && (l.disk.config.File? ==> l.disk.config.content.Json? && l.disk.config.flushed && l.disk.cred.Stored?)
            && (l.app.Some? ==> Whole(l.app.value.trust))
            && (l.app.Some? && l.app.value.clean ==>
                  StartupFrom(l.disk.config, l.disk.cred) == Restored(ToSettings(l.app.value.trust)))
  {
    LifeKeepsInv(events);
    if Live(events).app.Some? {
      WholeStatesReload(Live(events).app.value.trust);
    }
  }

  /** The file is one identity's and the key in the store another's, and the file
      says too much to be read as that one's: the first was named, or trusted
      the second. */
  predicate Mismatched(disk: Disk, owner: Option<Key>) {
    && disk.config.File? && disk.config.content.Json? && disk.cred.Stored? && disk.cred.secret.Nsec?
    && owner.Some? && disk.cred.secret.key != owner.value
    && var pub := disk.config.content.pub;
       pub.myName.Some? || Some(disk.cred.secret.key) in CardKeys(pub.peers)
  }

  /** A start fails exactly when a save for a new identity was cut off between its
      two halves and the old file cannot pass for the new identity's. */
  lemma StartFailsExactlyWhen(events: seq<Event>)
    ensures var l := Live(events);
            StartupFrom(l.disk.config, l.disk.cred) == Fails <==> Mismatched(l.disk, l.owner)
  {
    LifeKeepsInv(events);
    var l := Live(events);
    if l.disk.config.File? && l.disk.cred != Stored(Nsec(l.owner.value)) {
      HybridStartsExactlyWhen(Settings(Nsec(l.owner.value), l.disk.config.content.pub), l.disk.cred.secret.key);
    }
  }

  /** So an installation that keeps its identity always starts. */
  lemma {:induction false} KeepingTheIdentityKeepsStarting(events: seq<Event>, key: Key)
    requires forall i :: 0 <= i < |events| ==> SavesOnlyAs(Live(events[..i]), events[i], key)
    ensures var l := Live(events);
            && StartupFrom(l.disk.config, l.disk.cred) != Fails
            && (l.disk.config.File? ==> l.owner == Some(key) && l.disk.cred == Stored(Nsec(key)))
  {
    LifeKeepsInv(events);
    if events != [] {
      var before, e := events[..|events| - 1], events[|events| - 1];
      forall i | 0 <= i < |before| ensures SavesOnlyAs(Live(before[..i]), before[i], key) {
        assert before[..i] == events[..i];
      }
      KeepingTheIdentityKeepsStarting(before, key);
      LifeKeepsInv(before);
      assert SavesOnlyAs(Live(before), e, key);
      CredentialFollows(Live(before), e, key);
    }
    StartFailsExactlyWhen(events);
  }

  /** Whatever this event saves is saved under `key`. */
  predicate SavesOnlyAs(l: Life, e: Event, key: Key) {
    match e
    case Do(op, _) => l.app.Some? && Next(l.app.value.trust, op).Some? ==> SaverOf(l.app.value, op) == key
    case Dies(op, _, _, _) => l.app.Some? && Next(l.app.value.trust, op).Some? ==> SaverOf(l.app.value, op) == key
    case Recovers(minted, _, _) => minted.secret == Nsec(key)
    case DiesRecovering(minted, _, _, _, _) => minted.secret == Nsec(key)
    case _ => true
  }

  lemma CredentialFollows(l: Life, e: Event, key: Key)
    requires Inv(l) && SavesOnlyAs(l, e, key) && StartupFrom(l.disk.config, l.disk.cred) != Fails
    requires l.disk.config.File? ==> l.owner == Some(key) && l.disk.cred == Stored(Nsec(key))
    ensures var k := Step(l, e);
            k.disk.config.File? ==> k.owner == Some(key) && k.disk.cred == Stored(Nsec(key))
  {
    if Possible(l, e) && (e.Do? || e.Dies?) && Next(l.app.value.trust, e.op).Some? {
      var s := ToSettings(Next(l.app.value.trust, e.op).value);
      var disks := SaveRun(l.disk, s, e.f).disks;
      var call := if e.Do? then |disks| - 1 else e.call;
      CrashDuringSave(l.disk, s, e.f, call, if e.Do? then disks[call] else e.after);
    }
  }
}
