/** The clipboard session between two paired devices: `pump_clipboard` on both
    ends, the streams between them, and the receiver's inbox (runtime.rs and
    app/mod.rs).

    One end's code is a set of steps; a world is both ends and the two ordered
    streams of the connection they are on. Connections may be replaced and
    either end may stop pumping at any moment, in any order, so whatever is
    still on a stream then is lost. Moves that are not possible where they
    occur do nothing, which makes every sequence of moves a run. */
module Clipboard {
  import opened Wrappers
  import Messages

  /** app/mod.rs: the inbox keeps the newest five. */
  const MAX_INBOX_ITEMS: nat := 5

  datatype Item = Item(text: string, sentAt: nat)

  datatype Frame = Push(item: Item) | PullLatest | Latest(item: Item)

  predicate ItemFits(it: Item) { Messages.ItemFits(it.text, it.sentAt) }

  predicate LatestFits(it: Item) { Messages.LatestFits(it.text, it.sentAt) }

  /** The writer half: before its opening pull is out, at its select, or inside
      a `write_all`. */
  datatype Writer = Opening | Waiting | Writing(frame: Frame)

  /** Where an end stands on the current connection. */
  datatype Link = NotJoined | Live(writer: Writer, nudges: nat) | Ended

  /** One end of the session. `clip` is the queue behind `clip_rx`, `lastSent`
      the slot that outlives connections, `wrote` and `read` what this end put
      on and took off the current connection, `said` everything its user ever
      submitted this session. */
  datatype End = End(clip: seq<string>, lastSent: Option<Item>, inbox: seq<string>,
                     link: Link, wrote: seq<Frame>, read: seq<Frame>, said: set<string>)

  /** `me` and `peer`, with the stream out of `me` and the one into it. */
  datatype World = World(me: End, peer: End, outward: seq<Frame>, inward: seq<Frame>)

  function Swap(w: World): World { World(w.peer, w.me, w.inward, w.outward) }

  // ---------------------------------------------------------------------
  // The receiver's inbox
  // ---------------------------------------------------------------------

  function Truncate(inbox: seq<string>): seq<string> {
    if |inbox| > MAX_INBOX_ITEMS then inbox[..MAX_INBOX_ITEMS] else inbox
  }

  /** `NetEvent::ItemReceived` in the app: newest first, a re-delivery of
      something already held is dropped. */
  function Deliver(inbox: seq<string>, text: string, pulled: bool): seq<string> {
    if pulled && text in inbox then inbox else Truncate([text] + inbox)
  }

  function Absorb1(inbox: seq<string>, f: Frame): seq<string> {
    match f
    case Push(it) => Deliver(inbox, it.text, false)
    case Latest(it) => Deliver(inbox, it.text, true)
    case PullLatest => inbox
  }

  /** The inbox once everything in `frames` has been read. */
  function Absorb(inbox: seq<string>, frames: seq<Frame>): seq<string>
    decreases |frames|
  {
    if frames == [] then inbox else Absorb(Absorb1(inbox, frames[0]), frames[1..])
  }

  // ---------------------------------------------------------------------
  // Steps of one end
  // ---------------------------------------------------------------------

  datatype Step =
    | Submit(text: string)   // UiCommand::SendClipboard reaches the session's queue
    | NewConnection          // a fresh authenticated stream replaces whatever was there
    | Join                   // pump_clipboard starts on it
    | WriteOpening           // the opening PullLatest is on the stream
    | TakeItem(now: nat)     // select: clip_rx.recv()
    | TakeNudge              // select: pull_rx.recv()
    | FinishWrite            // write_all completes
    | ReadFrame              // the reader takes one frame
    | EndPump                // stream error, superseded, cancelled: the pump is dropped

  predicate Enabled(w: World, s: Step) {
    match s
    case Submit(_) => true
    case NewConnection => true
    case Join => w.me.link.NotJoined?
    case WriteOpening => w.me.link.Live? && w.me.link.writer.Opening?
    case TakeItem(_) => w.me.link.Live? && w.me.link.writer.Waiting? && w.me.clip != []
    case TakeNudge => w.me.link.Live? && w.me.link.writer.Waiting? && w.me.link.nudges > 0
    case FinishWrite => w.me.link.Live? && w.me.link.writer.Writing?
    case ReadFrame => w.me.link.Live? && w.inward != []
    case EndPump => w.me.link.Live?
  }

  function Put(w: World, f: Frame): World
    requires w.me.link.Live?
  {
    w.(me := w.me.(wrote := w.me.wrote + [f], link := w.me.link.(writer := Waiting)),
       outward := w.outward + [f])
  }

  function Fresh(e: End): End { e.(link := NotJoined, wrote := [], read := []) }

  function Act(w: World, s: Step): World
    requires Enabled(w, s)
  {
    var me := w.me;
    match s
    case Submit(text) => w.(me := me.(clip := me.clip + [text], said := me.said + {text}))
    case NewConnection => World(Fresh(me), Fresh(w.peer), [], [])
    case Join => w.(me := me.(link := Live(Opening, 0)))
    case WriteOpening => Put(w, PullLatest)
    case TakeItem(now) =>
      var it := Item(me.clip[0], now);
      var rest := me.(clip := me.clip[1..]);
      // An oversize item is reported and dropped; the session goes on.
      if ItemFits(it) then w.(me := rest.(link := me.link.(writer := Writing(Push(it))))) else w.(me := rest)
    case TakeNudge =>
      var spent := me.link.(nudges := me.link.nudges - 1);
      (match me.lastSent
       case None => w.(me := me.(link := spent))
       case Some(it) =>
         w.(me := me.(link := if LatestFits(it) then spent.(writer := Writing(Latest(it))) else spent)))
    case FinishWrite =>
      var f := me.link.writer.frame;
      var done := Put(w, f);
      if f.Push? then done.(me := done.me.(lastSent := Some(f.item))) else done
    case ReadFrame =>
      var f := w.inward[0];
      var nudges := me.link.nudges + if f.PullLatest? then 1 else 0;
      w.(me := me.(inbox := Absorb1(me.inbox, f), read := me.read + [f], link := me.link.(nudges := nudges)),
         inward := w.inward[1..])
    case EndPump => w.(me := me.(link := Ended))
  }

  datatype Move = Move(mine: bool, step: Step)

  function Apply(w: World, m: Move): World {
    if m.mine then (if Enabled(w, m.step) then Act(w, m.step) else w)
    else if Enabled(Swap(w), m.step) then Swap(Act(Swap(w), m.step)) else w
  }

  function Run(w: World, moves: seq<Move>): World
    decreases |moves|
  {
    if moves == [] then w else Apply(Run(w, moves[..|moves| - 1]), moves[|moves| - 1])
  }

  /** A session's first moment: nothing sent, nothing connected, whatever the
      two inboxes already hold. */
  function Start(mine: seq<string>, theirs: seq<string>): World {
    World(End([], None, mine, NotJoined, [], [], {}), End([], None, theirs, NotJoined, [], [], {}), [], [])
  }

  // ---------------------------------------------------------------------
  // What every run keeps
  // ---------------------------------------------------------------------

  /** An answer to the peer's opening pull is still on its way. */
  predicate Coming(w: World) {
    || w.peer.link.NotJoined?
    || (w.peer.link.Live? && w.peer.link.writer.Opening?)
    || PullLatest in w.inward
    || (w.me.link.Live? && w.me.link.nudges > 0)
    || (w.me.link.Live? && w.me.link.writer.Writing? && w.me.link.writer.frame.Latest?)
  }

  predicate Arriving(w: World) {
    w.me.lastSent.Some? && w.me.lastSent.value.text in Absorb(w.peer.inbox, w.outward)
  }

  /** An item pushed on this connection is in the inbox, or on the stream to
      it, until the reader stops. */
  predicate Pushed(w: World) {
    w.me.lastSent.Some? && Push(w.me.lastSent.value) in w.me.wrote && !w.peer.link.Ended? ==> Arriving(w)
  }

  /** So is an item from an earlier connection, or its re-delivery is coming. */
  predicate Resuming(w: World) {
    w.me.lastSent.Some? && LatestFits(w.me.lastSent.value) && !w.me.link.Ended? && !w.peer.link.Ended?
    ==> Coming(w) || Arriving(w)
  }

  predicate Fifo(w: World) {
    // First in, first out: nothing is lost, invented or reordered on a stream.
    && w.peer.read + w.outward == w.me.wrote
    && (w.me.link.NotJoined? ==> w.me.wrote == [] && w.me.read == [])
    && (w.me.link.Live? && w.me.link.writer.Opening? ==> w.me.wrote == [])
    // A re-delivery in progress carries the latest item.
    && (w.me.link.Live? && w.me.link.writer.Writing? && w.me.link.writer.frame.Latest?
        ==> w.me.lastSent == Some(w.me.link.writer.frame.item))
  }

  /** Everything about the direction from `me` to `peer`. */
  predicate Direction(w: World) { Pushed(w) && Resuming(w) && Fifo(w) }

  /** Nothing travels that the sender's user did not submit. */
  ghost predicate Authentic(w: World, before: seq<string>) {
    && (forall t <- w.me.clip :: t in w.me.said)
    && (w.me.lastSent.Some? ==> w.me.lastSent.value.text in w.me.said)
    && (w.me.link.Live? && w.me.link.writer.Writing? && !w.me.link.writer.frame.PullLatest?
        ==> w.me.link.writer.frame.item.text in w.me.said)
    && (forall i :: 0 <= i < |w.outward| && !w.outward[i].PullLatest? ==> w.outward[i].item.text in w.me.said)
    && (forall t <- w.peer.inbox :: t in before || t in w.me.said)
    && |w.peer.inbox| <= MAX_INBOX_ITEMS
  }

  lemma {:induction false} AbsorbSnoc(inbox: seq<string>, frames: seq<Frame>, f: Frame)
    ensures Absorb(inbox, frames + [f]) == Absorb1(Absorb(inbox, frames), f)
    decreases |frames|
  {
    if frames == [] {
      assert frames + [f] == [f];
    } else {
      assert (frames + [f])[1..] == frames[1..] + [f];
      AbsorbSnoc(Absorb1(inbox, frames[0]), frames[1..], f);
    }
  }

  lemma PutKeepsDirection(w: World, f: Frame)
    requires w.me.link.Live? && Direction(w) && Direction(Swap(w))
    requires w.me.link.writer == Writing(f) || (w.me.link.writer.Opening? && f == PullLatest)
    ensures var d := Put(w, f);
            Direction(if f.Push? then d.(me := d.me.(lastSent := Some(f.item))) else d)
  {
    AbsorbSnoc(w.peer.inbox, w.outward, f);
    assert w.peer.read + (w.outward + [f]) == (w.peer.read + w.outward) + [f];
    assert (w.outward + [f])[|w.outward|] == f;
    var inbox := Absorb(w.peer.inbox, w.outward);
    if f.Push? {
      assert Deliver(inbox, f.item.text, false)[0] == f.item.text;
    } else if f.Latest? && f.item.text !in inbox {
      assert Deliver(inbox, f.item.text, true)[0] == f.item.text;
    }
  }

  lemma PutKeepsOtherDirection(w: World, f: Frame)
    requires w.me.link.Live? && Direction(w) && Direction(Swap(w))
    requires w.me.link.writer.Opening? ==> f == PullLatest
    ensures Direction(Swap(Put(w, f)))
  {
    assert (w.outward + [f])[|w.outward|] == f;
    assert forall g <- w.outward :: g in w.outward + [f];
  }

  lemma ReadKeepsBoth(w: World)
    requires Enabled(w, ReadFrame) && Direction(w) && Direction(Swap(w))
    ensures Direction(Act(w, ReadFrame)) && Direction(Swap(Act(w, ReadFrame)))
  {
    assert w.inward == [w.inward[0]] + w.inward[1..];
    assert w.me.read + [w.inward[0]] + w.inward[1..] == w.me.read + w.inward;
  }

  lemma NudgeKeepsBoth(w: World)
    requires Enabled(w, TakeNudge) && Direction(w) && Direction(Swap(w))
    ensures Direction(Act(w, TakeNudge)) && Direction(Swap(Act(w, TakeNudge)))
  {
  }

  lemma TakingKeepsBoth(w: World, now: nat)
    requires Enabled(w, TakeItem(now)) && Direction(w) && Direction(Swap(w))
    ensures Direction(Act(w, TakeItem(now))) && Direction(Swap(Act(w, TakeItem(now))))
  {
  }

  lemma LinkKeepsBoth(w: World, s: Step)
    requires Enabled(w, s) && (s.Join? || s.EndPump?) && Direction(w) && Direction(Swap(w))
    ensures Direction(Act(w, s)) && Direction(Swap(Act(w, s)))
  {
  }

  lemma ActKeepsBoth(w: World, s: Step)
    requires Enabled(w, s) && Direction(w) && Direction(Swap(w))
    ensures Direction(Act(w, s)) && Direction(Swap(Act(w, s)))
  {
    match s
    case WriteOpening =>
      PutKeepsDirection(w, PullLatest);
      PutKeepsOtherDirection(w, PullLatest);
    case FinishWrite =>
      PutKeepsDirection(w, w.me.link.writer.frame);
      PutKeepsOtherDirection(w, w.me.link.writer.frame);
    case ReadFrame => ReadKeepsBoth(w);
    case TakeNudge => NudgeKeepsBoth(w);
    case TakeItem(now) => TakingKeepsBoth(w, now);
    case Join => LinkKeepsBoth(w, s);
    case EndPump => LinkKeepsBoth(w, s);
    case _ =>
  }

  lemma ReadKeepsAuthentic(w: World, mine: seq<string>, theirs: seq<string>)
    requires Enabled(w, ReadFrame) && Authentic(w, theirs) && Authentic(Swap(w), mine)
    ensures Authentic(Act(w, ReadFrame), theirs) && Authentic(Swap(Act(w, ReadFrame)), mine)
  {
    var f := w.inward[0];
    assert !f.PullLatest? ==> f.item.text in w.peer.said;
    assert forall t <- Absorb1(w.me.inbox, f) :: t in w.me.inbox || (!f.PullLatest? && t == f.item.text);
  }

  lemma PutKeepsAuthentic(w: World, f: Frame, mine: seq<string>, theirs: seq<string>)
    requires w.me.link.Live? && Authentic(w, theirs) && Authentic(Swap(w), mine)
    requires !f.PullLatest? ==> f.item.text in w.me.said
    ensures Authentic(Put(w, f), theirs) && Authentic(Swap(Put(w, f)), mine)
  {
  }

  lemma FinishKeepsAuthentic(w: World, mine: seq<string>, theirs: seq<string>)
    requires Enabled(w, FinishWrite) && Authentic(w, theirs) && Authentic(Swap(w), mine)
    ensures Authentic(Act(w, FinishWrite), theirs) && Authentic(Swap(Act(w, FinishWrite)), mine)
  {
    PutKeepsAuthentic(w, w.me.link.writer.frame, mine, theirs);
  }

  lemma TakingKeepsAuthentic(w: World, s: Step, mine: seq<string>, theirs: seq<string>)
    requires Enabled(w, s) && (s.TakeItem? || s.TakeNudge?)
    requires Authentic(w, theirs) && Authentic(Swap(w), mine)
    ensures Authentic(Act(w, s), theirs) && Authentic(Swap(Act(w, s)), mine)
  {
  }

  lemma ActKeepsAuthentic(w: World, s: Step, mine: seq<string>, theirs: seq<string>)
    requires Enabled(w, s) && Authentic(w, theirs) && Authentic(Swap(w), mine)
    ensures Authentic(Act(w, s), theirs) && Authentic(Swap(Act(w, s)), mine)
  {
    match s
    case ReadFrame => ReadKeepsAuthentic(w, mine, theirs);
    case WriteOpening => PutKeepsAuthentic(w, PullLatest, mine, theirs);
    case FinishWrite => FinishKeepsAuthentic(w, mine, theirs);
    case TakeItem(_) => TakingKeepsAuthentic(w, s, mine, theirs);
    case TakeNudge => TakingKeepsAuthentic(w, s, mine, theirs);
    case _ =>
  }

  lemma {:induction false} RunKeepsInvariants(mine: seq<string>, theirs: seq<string>, moves: seq<Move>)
    requires |mine| <= MAX_INBOX_ITEMS && |theirs| <= MAX_INBOX_ITEMS
    ensures var w := Run(Start(mine, theirs), moves);
            Direction(w) && Direction(Swap(w)) && Authentic(w, theirs) && Authentic(Swap(w), mine)
    decreases |moves|
  {
    if moves == [] {
    } else {
      var m, before := moves[|moves| - 1], moves[..|moves| - 1];
      RunKeepsInvariants(mine, theirs, before);
      var w := Run(Start(mine, theirs), before);
      if m.mine && Enabled(w, m.step) {
        ActKeepsBoth(w, m.step);
        ActKeepsAuthentic(w, m.step, mine, theirs);
      } else if !m.mine && Enabled(Swap(w), m.step) {
        ActKeepsBoth(Swap(w), m.step);
        ActKeepsAuthentic(Swap(w), m.step, theirs, mine);
      }
    }
  }

  // ---------------------------------------------------------------------
  // Resume convergence
  // ---------------------------------------------------------------------

  predicate AtRest(e: End) { e.link.Live? && e.link.writer.Waiting? && e.link.nudges == 0 }

  /** A connection is up and idle: both ends are at their select with no nudge
      queued, and nothing is on either stream. */
  predicate Quiescent(w: World) { AtRest(w.me) && AtRest(w.peer) && w.outward == [] && w.inward == [] }

  /** The receiver holds the sender's latest item: always when it can be
      re-delivered, and even when it cannot, if this connection carried it. */
  predicate Converged(w: World) {
    w.me.lastSent.Some? && (LatestFits(w.me.lastSent.value) || Push(w.me.lastSent.value) in w.me.wrote)
    ==> w.me.lastSent.value.text in w.peer.inbox
  }

  /** Over any run of one session - sends, partial deliveries, connections lost
      by either side at any moment, reconnects - a quiet connection finds both
      inboxes holding the other side's latest item. */
  lemma ResumeConverges(mine: seq<string>, theirs: seq<string>, moves: seq<Move>)
    requires |mine| <= MAX_INBOX_ITEMS && |theirs| <= MAX_INBOX_ITEMS
    requires Quiescent(Run(Start(mine, theirs), moves))
    ensures Converged(Run(Start(mine, theirs), moves)) && Converged(Swap(Run(Start(mine, theirs), moves)))
  {
    RunKeepsInvariants(mine, theirs, moves);
  }

  /** At every moment of every run, what an end has read is a prefix of what
      the other wrote on this connection, and each inbox holds at most five
      texts, every one already there at the start or submitted by the other
      side's user. */
  lemma OnlySubmittedTextArrives(mine: seq<string>, theirs: seq<string>, moves: seq<Move>)
    requires |mine| <= MAX_INBOX_ITEMS && |theirs| <= MAX_INBOX_ITEMS
    ensures var w := Run(Start(mine, theirs), moves);
            && w.peer.read <= w.me.wrote && w.me.read <= w.peer.wrote
            && |w.me.inbox| <= MAX_INBOX_ITEMS && |w.peer.inbox| <= MAX_INBOX_ITEMS
            && (forall t <- w.peer.inbox :: t in theirs || t in w.me.said)
            && (forall t <- w.me.inbox :: t in mine || t in w.peer.said)
  {
    RunKeepsInvariants(mine, theirs, moves);
  }

  /** The pump's own steps, as opposed to the user's and the network's. */
  predicate Internal(s: Step) {
    s.WriteOpening? || s.TakeItem? || s.TakeNudge? || s.FinishWrite? || s.ReadFrame?
  }

  function Weight(frames: seq<Frame>): nat {
    if frames == [] then 0 else Weight(frames[1..]) + if frames[0].PullLatest? then 4 else 1
  }

  function EndRank(e: End): nat {
    3 * |e.clip| + if !e.link.Live? then 0 else
      3 * e.link.nudges + match e.link.writer
                          case Opening => 5
                          case Waiting => 0
                          case Writing(f) => if f.PullLatest? then 5 else 2
  }

  function Rank(w: World): nat {
    EndRank(w.me) + EndRank(w.peer) + Weight(w.outward) + Weight(w.inward)
  }

  lemma {:induction false} WeightSnoc(frames: seq<Frame>, f: Frame)
    ensures Weight(frames + [f]) == Weight(frames) + if f.PullLatest? then 4 else 1
  {
    if frames == [] {
      assert frames + [f] == [f];
    } else {
      assert (frames + [f])[1..] == frames[1..] + [f];
      WeightSnoc(frames[1..], f);
    }
  }

  lemma InternalStepLowersRank(w: World, s: Step)
    requires Enabled(w, s) && Internal(s)
    ensures Rank(Act(w, s)) < Rank(w)
    ensures Act(w, s).me.link.Live? && Act(w, s).peer.link == w.peer.link
  {
    match s
    case WriteOpening => WeightSnoc(w.outward, PullLatest);
    case FinishWrite => WeightSnoc(w.outward, w.me.link.writer.frame);
    case _ =>
  }

  predicate Effective(w: World, m: Move) {
    Internal(m.step) && Enabled(if m.mine then w else Swap(w), m.step)
  }

  /** An up connection that is not at rest can always take another step, so a
      resume never stalls half-way... */
  lemma UnsettledCanStep(w: World) returns (m: Move)
    requires w.me.link.Live? && w.peer.link.Live?
    requires !(Quiescent(w) && w.me.clip == [] && w.peer.clip == [])
    ensures Effective(w, m)
  {
    var mine := w.inward != [] || !AtRest(w.me) || w.me.clip != [];
    var e, stream := if mine then w.me else w.peer, if mine then w.inward else w.outward;
    m := Move(mine, if stream != [] then ReadFrame
                    else if e.link.writer.Opening? then WriteOpening
                    else if e.link.writer.Writing? then FinishWrite
                    else if e.link.nudges > 0 then TakeNudge
                    else TakeItem(0));
  }

  /** ...and it takes no more of them than the rank of the state it is in:
      left alone, the pumps settle. */
  lemma {:induction false} ResumeSettles(w: World, moves: seq<Move>)
    requires w.me.link.Live? && w.peer.link.Live?
    requires forall i :: 0 <= i < |moves| ==> Effective(Run(w, moves[..i]), moves[i])
    ensures |moves| + Rank(Run(w, moves)) <= Rank(w)
    ensures Run(w, moves).me.link.Live? && Run(w, moves).peer.link.Live?
    decreases |moves|
  {
    if moves == [] {
    } else {
      var n := |moves| - 1;
      forall i | 0 <= i < n
        ensures Effective(Run(w, moves[..n][..i]), moves[..n][i])
      {
        assert moves[..n][..i] == moves[..i];
      }
      ResumeSettles(w, moves[..n]);
      var v := Run(w, moves[..n]);
      assert Effective(v, moves[n]);
      InternalStepLowersRank(if moves[n].mine then v else Swap(v), moves[n].step);
    }
  }

  // ---------------------------------------------------------------------
  // What becomes of a submitted text
  // ---------------------------------------------------------------------

  /** What a move adds to the texts `me`'s user has submitted, and to those its
      writer has taken off the queue. */
  function SubmittedBy(m: Move): seq<string> { if m.mine && m.step.Submit? then [m.step.text] else [] }

  function TakenBy(w: World, m: Move): seq<string> {
    if m.mine && m.step.TakeItem? && Enabled(w, m.step) then [w.me.clip[0]] else []
  }

  function Submitted(moves: seq<Move>): seq<string> {
    if moves == [] then [] else Submitted(moves[..|moves| - 1]) + SubmittedBy(moves[|moves| - 1])
  }

  function Taken(w: World, moves: seq<Move>): seq<string> {
    if moves == [] then []
    else Taken(w, moves[..|moves| - 1]) + TakenBy(Run(w, moves[..|moves| - 1]), moves[|moves| - 1])
  }

  /** What one move does to the queue. */
  lemma QueueMoves(w: World, m: Move)
    ensures TakenBy(w, m) + Apply(w, m).me.clip == w.me.clip + SubmittedBy(m)
  {
  }

  lemma Requeue(taken: seq<string>, more: seq<string>, now: seq<string>, was: seq<string>, added: seq<string>)
    requires more + now == was + added
    ensures taken + more + now == taken + was + added
  {
    assert taken + more + now == taken + (more + now);
    assert taken + was + added == taken + (was + added);
  }

  /** No submission is lost, repeated or reordered on its way to the writer: over
      every run, across any connections, what was taken followed by what still
      waits is what was submitted. */
  lemma {:induction false} TakenInOrder(mine: seq<string>, theirs: seq<string>, moves: seq<Move>)
    ensures Taken(Start(mine, theirs), moves) + Run(Start(mine, theirs), moves).me.clip == Submitted(moves)
    decreases |moves|
  {
    if moves == [] {
    } else {
      var before, m := moves[..|moves| - 1], moves[|moves| - 1];
      TakenInOrder(mine, theirs, before);
      var w := Run(Start(mine, theirs), before);
      QueueMoves(w, m);
      Requeue(Taken(Start(mine, theirs), before), TakenBy(w, m), Apply(w, m).me.clip, w.me.clip, SubmittedBy(m));
    }
  }

  /** A taken text that fits goes on the stream, whatever was sent before it, and
      becomes the last item sent; one that does not is dropped with nothing
      written. */
  lemma TakenTextIsPushed(w: World, now: nat)
    requires Enabled(w, TakeItem(now))
    ensures var it := Item(w.me.clip[0], now);
            var v := Act(w, TakeItem(now));
            && v.me.clip == w.me.clip[1..] && v.outward == w.outward && v.me.lastSent == w.me.lastSent
            && (if ItemFits(it) then
                  && Enabled(v, FinishWrite)
                  && var u := Act(v, FinishWrite);
                     u.outward == w.outward + [Push(it)] && u.me.wrote == w.me.wrote + [Push(it)]
                     && u.me.lastSent == Some(it) && u.me.link == w.me.link && u.me.clip == w.me.clip[1..]
                else v.me.link == w.me.link)
  {
  }

  /** A pull is answered with the last item sent, if there is one and it can be
      re-delivered, and the slot keeps it. */
  lemma PullIsAnswered(w: World)
    requires Enabled(w, TakeNudge)
    ensures var v := Act(w, TakeNudge);
            && v.me.link.Live? && v.me.link.nudges == w.me.link.nudges - 1 && v.outward == w.outward
            && (if w.me.lastSent.Some? && LatestFits(w.me.lastSent.value) then
                  && Enabled(v, FinishWrite)
                  && var u := Act(v, FinishWrite);
                     u.outward == w.outward + [Latest(w.me.lastSent.value)] && u.me.lastSent == w.me.lastSent
                     && u.me.link.writer == Waiting
                else v.me.link.writer == Waiting)
  {
  }

  /** A frame being written stays so whatever else happens, on either side, until
      its write completes - and puts it on the stream - or its connection goes. */
  lemma WritersKeepTheirFrame(w: World, m: Move)
    requires w.me.link.Live? && w.me.link.writer.Writing?
    ensures var f, v := w.me.link.writer.frame, Apply(w, m);
            || (v.me.link.Live? && v.me.link.writer == Writing(f) && v.me.wrote == w.me.wrote)
            || (m == Move(true, FinishWrite) && v.me.wrote == w.me.wrote + [f])
            || m == Move(true, EndPump) || m.step.NewConnection?
  {
  }

  /** Reading a frame takes it off the stream and hands it over: items to the
      inbox, a pull to the writer. */
  lemma FramesAreHandedOver(w: World)
    requires Enabled(w, ReadFrame)
    ensures var f, v := w.inward[0], Act(w, ReadFrame);
            && w.inward == [f] + v.inward && v.me.link.Live? && v.me.link.writer == w.me.link.writer
            && v.me.link.nudges == w.me.link.nudges + (if f.PullLatest? then 1 else 0)
            && v.me.inbox == (match f
                              case Push(it) => Deliver(w.me.inbox, it.text, false)
                              case Latest(it) => Deliver(w.me.inbox, it.text, true)
                              case PullLatest => w.me.inbox)
  {
  }

  /** Delivery puts a text first and keeps the others in order, forgetting only
      the oldest when there were five; a re-delivery of a held text changes
      nothing. */
  lemma DeliveryKeepsTheRest(inbox: seq<string>, text: string, pulled: bool)
    requires |inbox| <= MAX_INBOX_ITEMS
    ensures var after := Deliver(inbox, text, pulled);
            if pulled && text in inbox then after == inbox
            else && |after| == (if |inbox| == MAX_INBOX_ITEMS then MAX_INBOX_ITEMS else |inbox| + 1)
                 && after[0] == text && after[1..] <= inbox
  {
  }

  // ---------------------------------------------------------------------
  // The exception at the cap
  // ---------------------------------------------------------------------

  lemma Extend(w: World, moves: seq<Move>, m: Move)
    ensures Run(w, moves + [m]) == Apply(Run(w, moves), m)
  {
    assert (moves + [m])[..|moves|] == moves;
  }

  /** One move of `me` after these. */
  lemma ThenMine(moves: seq<Move>, s: Step) returns (more: seq<Move>)
    ensures var w := Run(Start([], []), moves);
            Run(Start([], []), more) == if Enabled(w, s) then Act(w, s) else w
  {
    more := moves + [Move(true, s)];
    Extend(Start([], []), moves, Move(true, s));
  }

  lemma ItemPutOnTheWire(it: Item) returns (moves: seq<Move>)
    requires ItemFits(it)
    ensures var w := Run(Start([], []), moves);
            && w.me.link == Live(Writing(Push(it)), 0) && w.me.lastSent == None
            && w.peer == Start([], []).peer
  {
    moves := ThenMine([], Join);
    moves := ThenMine(moves, WriteOpening);
    moves := ThenMine(moves, Submit(it.text));
    assert Run(Start([], []), moves).me.clip == [it.text];
    moves := ThenMine(moves, TakeItem(it.sentAt));
  }

  /** Written to a connection that then dies under it... */
  lemma ItemWrittenThenCutOff(it: Item) returns (moves: seq<Move>)
    requires ItemFits(it)
    ensures var w := Run(Start([], []), moves);
            && w.me.link == w.peer.link == NotJoined && w.outward == w.inward == []
            && w.me.lastSent == Some(it) && w.peer.lastSent == None && w.peer.inbox == []
  {
    moves := ItemPutOnTheWire(it);
    moves := ThenMine(moves, FinishWrite);
    moves := ThenMine(moves, NewConnection);
  }

  lemma ExtendBoth(w: World, moves: seq<Move>, s: Step) returns (more: seq<Move>)
    ensures Run(w, more) == Apply(Apply(Run(w, moves), Move(true, s)), Move(false, s))
  {
    Extend(w, moves, Move(true, s));
    Extend(w, moves + [Move(true, s)], Move(false, s));
    more := moves + [Move(true, s)] + [Move(false, s)];
  }

  lemma SkippedRedelivery(w: World, it: Item)
    requires w.outward == w.inward == [PullLatest] && w.me.link == w.peer.link == Live(Waiting, 0)
    requires w.me.lastSent == Some(it) && !LatestFits(it) && w.peer.lastSent == None
    ensures var r := Apply(Apply(w, Move(true, ReadFrame)), Move(false, ReadFrame));
            var n := Apply(Apply(r, Move(true, TakeNudge)), Move(false, TakeNudge));
            Quiescent(n) && n.me.lastSent == w.me.lastSent && n.peer.inbox == w.peer.inbox
  {
  }

  /** ...an item that fits as a push but not as a re-delivery is skipped on the
      connection that replaces it, and never arrives. */
  lemma CapEdgeItemCanBeLost(it: Item) returns (moves: seq<Move>)
    requires ItemFits(it) && !LatestFits(it)
    ensures var w := Run(Start([], []), moves);
            Quiescent(w) && w.me.lastSent == Some(it) && it.text !in w.peer.inbox
  {
    var w0 := Start([], []);
    moves := ItemWrittenThenCutOff(it);
    moves := ExtendBoth(w0, moves, Join);
    moves := ExtendBoth(w0, moves, WriteOpening);
    var w := Run(w0, moves);
    assert w.outward == [PullLatest] && w.inward == [PullLatest] && w.me.link == w.peer.link == Live(Waiting, 0);
    assert w.me.lastSent == Some(it) && w.peer.lastSent == None && w.peer.inbox == [];
    SkippedRedelivery(w, it);
    moves := ExtendBoth(w0, moves, ReadFrame);
    moves := ExtendBoth(w0, moves, TakeNudge);
  }

  /** So the guarantee is exact: an item that could be sent at all is certain
      to be in the receiver's inbox at every quiet moment of every run it is
      the latest item of, if and only if its encoding leaves two bytes of the
      cap unused. */
  lemma ConvergenceIsExact(it: Item)
    requires ItemFits(it)
    ensures (forall moves :: var w := Run(Start([], []), moves);
                             Quiescent(w) && w.me.lastSent == Some(it) ==> it.text in w.peer.inbox)
       <==> |Messages.ItemJson(it.text, it.sentAt)| + 2 <= Messages.CLIP_CAP
  {
    Messages.RedeliveryCostsTwoBytes(it.text, it.sentAt);
    if LatestFits(it) {
      forall moves | Quiescent(Run(Start([], []), moves)) && Run(Start([], []), moves).me.lastSent == Some(it)
        ensures it.text in Run(Start([], []), moves).peer.inbox
      {
        ResumeConverges([], [], moves);
      }
    } else {
      var moves := CapEdgeItemCanBeLost(it);
    }
  }
}
