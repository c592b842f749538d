/** The one-pair claim and the recent-PIN window (runtime.rs): the two pieces of
    pairing state that outlive a session task. */
module PairClaim {
  import opened Bytes
  import opened Wrappers
  import opened KeyAuth

  type NodeId = bytes

  /** Who holds the claim: configure mode knows the application key and the last
      transport id it authenticated from, card setup only the transport id. */
  datatype ClaimedPeer = ClaimedPeer(key: Option<Key>, node: NodeId)

  /** `commit_key` and `commit_pin`: whether the peer holds the claim
      afterwards, and the claim. */
  function KeyCommitted(c: Option<ClaimedPeer>, key: Key, node: NodeId): (bool, Option<ClaimedPeer>) {
    match c
    case None => (true, Some(ClaimedPeer(Some(key), node)))
    case Some(p) => if p.key != Some(key) then (false, c) else (true, Some(p.(node := node)))
  }

  function PinCommitted(c: Option<ClaimedPeer>, node: NodeId): (bool, Option<ClaimedPeer>) {
    match c
    case None => (true, Some(ClaimedPeer(None, node)))
    case Some(p) => (p.node == node, c)
  }

  class Claim {
    var peer: Option<ClaimedPeer>
    var paired: bool

    /** The watchers' signal fires exactly with the first commit, so it says
        whether the claim is taken. */
    ghost predicate Valid()
      reads this
    {
      paired <==> peer.Some?
    }

    constructor ()
      ensures Valid() && peer == None
    {
      peer, paired := None, false;
    }

    method CommitKey(key: Key, node: NodeId) returns (held: bool)
      requires Valid()
      modifies this
      ensures Valid() && peer.Some?
      ensures (held, peer) == KeyCommitted(old(peer), key, node)
    {
      match peer {
        case Some(p) =>
          if p.key != Some(key) {
            return false;
          }
          peer := Some(p.(node := node));
          return true;
        case None =>
          peer := Some(ClaimedPeer(Some(key), node));
          paired := true;
          return true;
      }
    }

    method CommitPin(node: NodeId) returns (held: bool)
      requires Valid()
      modifies this
      ensures Valid() && peer.Some?
      ensures (held, peer) == PinCommitted(old(peer), node)
    {
      match peer {
        case Some(p) =>
          return p.node == node;
        case None =>
          peer := Some(ClaimedPeer(None, node));
          paired := true;
          return true;
      }
    }
  }

  datatype Commit = ByKey(key: Key, node: NodeId) | ByPin(node: NodeId)

  function Apply(c: Option<ClaimedPeer>, op: Commit): (bool, Option<ClaimedPeer>) {
    match op
    case ByKey(key, node) => KeyCommitted(c, key, node)
    case ByPin(node) => PinCommitted(c, node)
  }

  function AfterCommits(c: Option<ClaimedPeer>, ops: seq<Commit>): Option<ClaimedPeer>
    decreases |ops|
  {
    if ops == [] then c else AfterCommits(Apply(c, ops[0]).1, ops[1..])
  }

  lemma {:induction false} AfterCommitsSnoc(c: Option<ClaimedPeer>, ops: seq<Commit>, op: Commit)
    ensures AfterCommits(c, ops + [op]) == Apply(AfterCommits(c, ops), op).1
    decreases |ops|
  {
    if ops == [] {
      assert ops + [op] == [op] && [op][1..] == [];
    } else {
      assert (ops + [op])[1..] == ops[1..] + [op];
      AfterCommitsSnoc(Apply(c, ops[0]).1, ops[1..], op);
    }
  }

  /** Once taken, a claim is never given up or handed over: the application key
      is fixed for good, and without one so is the transport id. */
  lemma {:induction false} IdentityIsSetOnce(c: ClaimedPeer, ops: seq<Commit>)
    ensures var a := AfterCommits(Some(c), ops);
            a.Some? && a.value.key == c.key && (c.key.None? ==> a.value == c)
    decreases |ops|
  {
    if ops == [] {
    } else {
      IdentityIsSetOnce(Apply(Some(c), ops[0]).1.value, ops[1..]);
    }
  }

  /** The first device to commit is the only one the claim ever lets in, for
      all later commits: an application key gets through exactly when it is the
      claimed one, whatever transport it came over. */
  lemma OnlyTheFirstKeyIsAdmitted(first: Key, node: NodeId, ops: seq<Commit>, key: Key, again: NodeId)
    ensures var a := AfterCommits(None, [ByKey(first, node)] + ops);
            (Apply(a, ByKey(key, again)).0 <==> key == first)
            && (key == first ==> Apply(a, ByKey(key, again)).1 == Some(ClaimedPeer(Some(first), again)))
  {
    IdentityIsSetOnce(ClaimedPeer(Some(first), node), ops);
    assert ([ByKey(first, node)] + ops)[1..] == ops;
  }

  lemma OnlyTheFirstNodeIsAdmitted(first: NodeId, ops: seq<Commit>, node: NodeId, key: Key)
    ensures var a := AfterCommits(None, [ByPin(first)] + ops);
            (Apply(a, ByPin(node)).0 <==> node == first) && !Apply(a, ByKey(key, node)).0
  {
    IdentityIsSetOnce(ClaimedPeer(None, first), ops);
    assert ([ByPin(first)] + ops)[1..] == ops;
  }
}
