/** Card setup's payload step (card_exchange.rs): both ends write their card,
    read the peer's, finish their own stream, and wait for the peer's stream to
    end before closing the connection.

    Streams are byte pipes of bounded capacity; writes and reads may move any
    number of bytes at a time, and closing the connection discards whatever has
    not been read. A world is seen from either end through `Swap`; moves that
    are not possible where they occur do nothing. */
module CardExchange {
  import opened Bytes

  /** How much after the card the drain reads before it stops waiting. */
  const MAX_TRAILING_BYTES: nat := 1024

  /** The stages of `exchange_cards`, then its caller closing the connection.
      `Failed` is an error return, or the deadline around the exchange. */
  datatype Phase = Sending | Reading | Finishing | Draining | Returned | Closed | Failed

  /** `frame` is this end's card on the wire, `sent` how much of it has been
      accepted by the stream, `got` what has been read of the peer's, and
      `sawEnd` whether the peer's stream was seen to end. */
  datatype End = End(frame: bytes, sent: nat, got: bytes, phase: Phase, sawEnd: bool)

  datatype Pipe = Pipe(cap: nat, data: bytes, finished: bool)

  datatype World = World(me: End, peer: End, outward: Pipe, inward: Pipe, closed: bool)

  function Swap(w: World): World { World(w.peer, w.me, w.inward, w.outward, w.closed) }

  datatype Step =
    | Write(n: nat)   // write_all moves n more bytes into the stream
    | Read(n: nat)    // read_length_prefixed takes n more
    | Finish          // send.shutdown()
    | SeeEnd          // read_to_end: the peer's stream ended
    | DrainFull       // read_to_end: enough trailing bytes and no end of stream
    | DrainError      // read_to_end: the connection is gone; logged as harmless
    | Break           // any earlier read or write finds the connection gone
    | Close           // the caller closes the connection
    | Expire          // the exchange deadline, or the process dying

  predicate Enabled(w: World, s: Step) {
    match s
    case Write(n) => w.me.phase.Sending? && !w.closed && 0 < n <= |w.me.frame| - w.me.sent
                     && |w.outward.data| + n <= w.outward.cap
    case Read(n) => w.me.phase.Reading? && !w.closed && 0 < n <= |w.inward.data|
                    && |w.me.got| + n <= |w.peer.frame|
    case Finish => w.me.phase.Finishing? && !w.closed
    case SeeEnd => w.me.phase.Draining? && !w.closed && w.inward.finished && w.inward.data == []
    case DrainFull => w.me.phase.Draining? && !w.closed && |w.inward.data| >= MAX_TRAILING_BYTES
    case DrainError => w.me.phase.Draining? && w.closed
    case Break => (w.me.phase.Sending? || w.me.phase.Reading? || w.me.phase.Finishing?) && w.closed
    case Close => w.me.phase.Returned?
    case Expire => !w.me.phase.Closed? && !w.me.phase.Failed?
  }

  function Act(w: World, s: Step): World
    requires Enabled(w, s)
  {
    var me := w.me;
    match s
    case Write(n) =>
      w.(me := me.(sent := me.sent + n, phase := if me.sent + n == |me.frame| then Reading else Sending),
         outward := w.outward.(data := w.outward.data + me.frame[me.sent..me.sent + n]))
    case Read(n) =>
      w.(me := me.(got := me.got + w.inward.data[..n],
                   phase := if |me.got| + n == |w.peer.frame| then Finishing else Reading),
         inward := w.inward.(data := w.inward.data[n..]))
    case Finish => w.(me := me.(phase := Draining), outward := w.outward.(finished := true))
    case SeeEnd => w.(me := me.(phase := Returned, sawEnd := true))
    case DrainFull => w.(me := me.(phase := Returned))
    case DrainError => w.(me := me.(phase := Returned))
    case Break => w.(me := me.(phase := Failed))
    case Close => w.(me := me.(phase := Closed), closed := true)
    case Expire => w.(me := me.(phase := Failed), closed := true)
  }

  datatype Move = Move(mine: bool, step: Step)

  predicate Possible(w: World, m: Move) { Enabled(if m.mine then w else Swap(w), m.step) }

  function Apply(w: World, m: Move): World {
    if !Possible(w, m) then w
    else if m.mine then Act(w, m.step) else Swap(Act(Swap(w), m.step))
  }

  function Run(w: World, moves: seq<Move>): World
    decreases |moves|
  {
    if moves == [] then w else Apply(Run(w, moves[..|moves| - 1]), moves[|moves| - 1])
  }

  /** Two cards about to cross. */
  function Start(mine: bytes, theirs: bytes, capOut: nat, capIn: nat): World {
    World(End(mine, 0, [], Sending, false), End(theirs, 0, [], Sending, false),
          Pipe(capOut, [], false), Pipe(capIn, [], false), false)
  }

  // ---------------------------------------------------------------------
  // Every run, whatever fails
  // ---------------------------------------------------------------------

  predicate HasCard(w: World) {
    w.me.phase.Finishing? || w.me.phase.Draining? || w.me.phase.Returned? || w.me.phase.Closed?
  }

  predicate Done(w: World) { w.me.phase.Draining? || w.me.phase.Returned? || w.me.phase.Closed? }

  /** The direction from `me` to `peer`. */
  predicate Sound(w: World) {
    && w.me.sent <= |w.me.frame| && w.me.frame != []
    && w.peer.got + w.outward.data == w.me.frame[..w.me.sent]
    && (w.me.phase.Sending? ==> w.me.got == [] && w.me.sent < |w.me.frame|)
    && (w.me.phase.Reading? ==> |w.me.got| < |w.peer.frame|)
    && (w.me.phase.Reading? || HasCard(w) ==> w.me.sent == |w.me.frame|)
    && (HasCard(w) || w.outward.finished ==> w.me.got == w.peer.frame)
    && (!w.me.phase.Failed? ==> (w.outward.finished <==> Done(w)))
    && (w.me.sawEnd ==> w.peer.got == w.me.frame)
    && |w.outward.data| <= w.outward.cap
  }

  lemma WriteKeepsSound(w: World, n: nat)
    requires Enabled(w, Write(n)) && Sound(w) && Sound(Swap(w))
    ensures Sound(Act(w, Write(n))) && Sound(Swap(Act(w, Write(n))))
  {
    var piece := w.me.frame[w.me.sent..w.me.sent + n];
    assert w.me.frame[..w.me.sent] + piece == w.me.frame[..w.me.sent + n];
    assert w.peer.got + (w.outward.data + piece) == w.peer.got + w.outward.data + piece;
  }

  lemma ReadKeepsSound(w: World, n: nat)
    requires Enabled(w, Read(n)) && Sound(w) && Sound(Swap(w))
    ensures Sound(Act(w, Read(n))) && Sound(Swap(Act(w, Read(n))))
  {
    assert w.me.got + w.inward.data[..n] + w.inward.data[n..] == w.me.got + w.inward.data;
    assert |w.me.got| + n == |w.peer.frame| ==> w.me.got + w.inward.data[..n] == w.peer.frame;
  }

  lemma ActKeepsSound(w: World, s: Step)
    requires Enabled(w, s) && Sound(w) && Sound(Swap(w))
    ensures Sound(Act(w, s)) && Sound(Swap(Act(w, s))) && SameSetup(w, Act(w, s))
  {
    match s
    case Write(n) => WriteKeepsSound(w, n);
    case Read(n) => ReadKeepsSound(w, n);
    case _ =>
  }

  /** The cards and the buffers they cross do not change. */
  predicate SameSetup(w: World, v: World) {
    && v.me.frame == w.me.frame && v.peer.frame == w.peer.frame
    && v.outward.cap == w.outward.cap && v.inward.cap == w.inward.cap
  }

  lemma ApplyKeepsSound(w: World, m: Move)
    requires Sound(w) && Sound(Swap(w))
    ensures Sound(Apply(w, m)) && Sound(Swap(Apply(w, m))) && SameSetup(w, Apply(w, m))
  {
    if Possible(w, m) {
      var v := if m.mine then w else Swap(w);
      ActKeepsSound(v, m.step);
      assert Swap(Swap(Act(v, m.step))) == Act(v, m.step);
    }
  }

  lemma {:induction false} RunKeepsSound(w: World, moves: seq<Move>)
    requires Sound(w) && Sound(Swap(w))
    ensures Sound(Run(w, moves)) && Sound(Swap(Run(w, moves)))
    ensures SameSetup(w, Run(w, moves))
    decreases |moves|
  {
    if moves == [] {
    } else {
      RunKeepsSound(w, moves[..|moves| - 1]);
      ApplyKeepsSound(Run(w, moves[..|moves| - 1]), moves[|moves| - 1]);
    }
  }

  /** Whatever happens - deadlines, crashes, early closes - an end that returns
      holds exactly the card the peer wrote, and an end that saw the peer's
      stream finish knows the peer holds its own. */
  lemma EndOfStreamProvesDelivery(mine: bytes, theirs: bytes, capOut: nat, capIn: nat, moves: seq<Move>)
    requires mine != [] && theirs != []
    ensures var w := Run(Start(mine, theirs, capOut, capIn), moves);
            && (w.me.phase.Returned? || w.me.phase.Closed? ==> w.me.got == theirs)
            && (w.peer.phase.Returned? || w.peer.phase.Closed? ==> w.peer.got == mine)
            && (w.me.sawEnd ==> w.peer.got == mine) && (w.peer.sawEnd ==> w.me.got == theirs)
  {
    RunKeepsSound(Start(mine, theirs, capOut, capIn), moves);
  }

  /** Between two ends that run this code the drain has nothing to read: it never
      fills up, and waits for the end of the stream or of the connection. */
  lemma NothingTrails(mine: bytes, theirs: bytes, capOut: nat, capIn: nat, moves: seq<Move>)
    requires mine != [] && theirs != []
    ensures var w := Run(Start(mine, theirs, capOut, capIn), moves);
            && (w.me.phase.Draining? ==> w.inward.data == []) && (w.peer.phase.Draining? ==> w.outward.data == [])
            && !Enabled(w, DrainFull) && !Enabled(Swap(w), DrainFull)
  {
    RunKeepsSound(Start(mine, theirs, capOut, capIn), moves);
    var w := Run(Start(mine, theirs, capOut, capIn), moves);
    assert |w.me.got + w.inward.data| == w.peer.sent && |w.peer.got + w.outward.data| == w.me.sent;
  }

  // ---------------------------------------------------------------------
  // Runs in which neither side gives up
  // ---------------------------------------------------------------------

  predicate Honest(moves: seq<Move>) { forall m <- moves :: !m.step.Expire? }

  /** The end-of-stream order at work: nobody closes, or even returns, before
      both ends hold the other's card and have finished their streams. */
  predicate Orderly(w: World) {
    && !w.me.phase.Failed? && !w.peer.phase.Failed?
    && (w.closed || w.me.phase.Returned? || w.peer.phase.Returned? || w.me.phase.Closed? || w.peer.phase.Closed?
        ==> Done(w) && Done(Swap(w)))
    && (w.me.phase.Closed? || w.peer.phase.Closed? ==> w.closed)
  }

  lemma ActKeepsOrderly(w: World, s: Step)
    requires Enabled(w, s) && !s.Expire? && Sound(w) && Sound(Swap(w)) && Orderly(w)
    ensures Orderly(Act(w, s))
  {
  }

  lemma {:induction false} HonestRunIsOrderly(w: World, moves: seq<Move>)
    requires Sound(w) && Sound(Swap(w)) && Orderly(w) && Honest(moves)
    ensures Orderly(Run(w, moves))
    decreases |moves|
  {
    if moves == [] {
    } else {
      var m, v := moves[|moves| - 1], Run(w, moves[..|moves| - 1]);
      HonestRunIsOrderly(w, moves[..|moves| - 1]);
      RunKeepsSound(w, moves[..|moves| - 1]);
      if Possible(v, m) {
        ActKeepsOrderly(if m.mine then v else Swap(v), m.step);
      }
    }
  }

  /** Closing is safe: in every interleaving, by the time either end closes the
      connection - which discards undelivered data - both have read the other's
      card. No read or write ever finds the connection gone, and neither end
      fails. */
  lemma ClosingLosesNothing(mine: bytes, theirs: bytes, capOut: nat, capIn: nat, moves: seq<Move>)
    requires mine != [] && theirs != [] && Honest(moves)
    ensures var w := Run(Start(mine, theirs, capOut, capIn), moves);
            && (w.closed ==> w.me.got == theirs && w.peer.got == mine)
            && !w.me.phase.Failed? && !w.peer.phase.Failed?
            && !Enabled(w, Break) && !Enabled(Swap(w), Break)
  {
    var w := Start(mine, theirs, capOut, capIn);
    HonestRunIsOrderly(w, moves);
    RunKeepsSound(w, moves);
  }

  predicate Final(w: World) { w.me.phase.Closed? && w.peer.phase.Closed? }

  /** Work left: bytes to write and read, then the stages still to come. */
  function EndRank(e: End, expected: nat): nat
    requires e.sent <= |e.frame| && |e.got| <= expected
  {
    (|e.frame| - e.sent) + (expected - |e.got|)
    + match e.phase case Finishing => 4 case Draining => 3 case Returned => 2
                    case Closed => 0 case Failed => 0 case _ => 5
  }

  function Rank(w: World): nat
    requires Sound(w) && Sound(Swap(w))
  {
    RankBounds(w);
    EndRank(w.me, |w.peer.frame|) + EndRank(w.peer, |w.me.frame|)
  }

  lemma RankBounds(w: World)
    requires Sound(w) && Sound(Swap(w))
    ensures |w.me.got| <= |w.peer.frame| && |w.peer.got| <= |w.me.frame|
  {
    assert |w.peer.got + w.outward.data| == w.me.sent;
    assert |w.me.got + w.inward.data| == w.peer.sent;
  }

  /** Every step uses some of it up, so no run goes on for ever. */
  lemma StepLowersRank(w: World, s: Step)
    requires Enabled(w, s) && Sound(w) && Sound(Swap(w))
    ensures Sound(Act(w, s)) && Sound(Swap(Act(w, s))) && Rank(Act(w, s)) < Rank(w)
  {
    ActKeepsSound(w, s);
  }

  ghost predicate Stuck(w: World) {
    forall m :: Possible(w, m) ==> m.step.Expire?
  }

  /** With room for one whole card in either direction, an unfinished exchange
      can always go on. */
  lemma UnfinishedCanStep(w: World) returns (m: Move)
    requires Sound(w) && Sound(Swap(w)) && Orderly(w) && !Final(w)
    requires w.outward.cap > 0 && w.inward.cap > 0
    requires |w.me.frame| <= w.outward.cap || |w.peer.frame| <= w.inward.cap
    ensures Possible(w, m) && !m.step.Expire?
  {
    RankBounds(w);
    assert |w.peer.got| + |w.outward.data| == w.me.sent;
    assert |w.me.got| + |w.inward.data| == w.peer.sent;
    if w.me.phase.Finishing? { m := Move(true, Finish); }
    else if w.peer.phase.Finishing? { m := Move(false, Finish); }
    else if w.me.phase.Returned? { m := Move(true, Close); }
    else if w.peer.phase.Returned? { m := Move(false, Close); }
    else if w.me.phase.Reading? && w.inward.data != [] { m := Move(true, Read(1)); }
    else if w.peer.phase.Reading? && w.outward.data != [] { m := Move(false, Read(1)); }
    else if w.me.phase.Sending? && |w.outward.data| < w.outward.cap { m := Move(true, Write(1)); }
    else if w.peer.phase.Sending? && |w.inward.data| < w.inward.cap { m := Move(false, Write(1)); }
    else if w.me.phase.Draining? { m := Move(true, if w.closed then DrainError else SeeEnd); }
    else { m := Move(false, if w.closed then DrainError else SeeEnd); }
  }

  /** With less room than a card both ways, both ends can fill their streams
      and wait for each other for ever. */
  lemma SmallBuffersDeadlock(mine: bytes, theirs: bytes, capOut: nat, capIn: nat) returns (moves: seq<Move>)
    requires 0 < capOut < |mine| && 0 < capIn < |theirs|
    ensures Honest(moves) && Stuck(Run(Start(mine, theirs, capOut, capIn), moves))
    ensures !Final(Run(Start(mine, theirs, capOut, capIn), moves))
  {
    moves := [Move(true, Write(capOut)), Move(false, Write(capIn))];
    var w := Start(mine, theirs, capOut, capIn);
    assert moves[..1] == [moves[0]] && moves[..1][..0] == [];
    assert Run(w, moves[..1]) == Apply(w, moves[0]);
    assert Run(w, moves) == Apply(Apply(w, moves[0]), moves[1]);
  }

  /** Exactly how much buffering the exchange needs: no interleaving of two
      honest ends gets stuck short of both having closed, if and only if at
      least one of the two streams can hold the whole card it carries. */
  lemma ProgressNeedsOneCardOfBuffer(mine: bytes, theirs: bytes, capOut: nat, capIn: nat)
    requires mine != [] && theirs != [] && capOut > 0 && capIn > 0
    ensures (forall moves :: var w := Run(Start(mine, theirs, capOut, capIn), moves);
                             Honest(moves) && !Final(w) ==> !Stuck(w))
       <==> |mine| <= capOut || |theirs| <= capIn
  {
    var w := Start(mine, theirs, capOut, capIn);
    if |mine| <= capOut || |theirs| <= capIn {
      forall moves | Honest(moves) && !Final(Run(w, moves))
        ensures !Stuck(Run(w, moves))
      {
        HonestRunIsOrderly(w, moves);
        RunKeepsSound(w, moves);
        var m := UnfinishedCanStep(Run(w, moves));
      }
    } else {
      var moves := SmallBuffersDeadlock(mine, theirs, capOut, capIn);
    }
  }

  lemma RankIsShared(w: World)
    requires Sound(w) && Sound(Swap(w))
    ensures Sound(Swap(Swap(w))) && Rank(Swap(w)) == Rank(w)
  {
    assert Swap(Swap(w)) == w;
  }

  lemma MoveLowersRank(w: World, m: Move)
    requires Sound(w) && Sound(Swap(w)) && Possible(w, m)
    ensures Sound(Apply(w, m)) && Sound(Swap(Apply(w, m))) && Rank(Apply(w, m)) < Rank(w)
  {
    if m.mine {
      StepLowersRank(w, m.step);
    } else {
      RankIsShared(w);
      StepLowersRank(Swap(w), m.step);
      RankIsShared(Act(Swap(w), m.step));
    }
  }

  lemma {:induction false} StepsAreBounded(w: World, moves: seq<Move>)
    requires Sound(w) && Sound(Swap(w))
    requires forall i :: 0 <= i < |moves| ==> Possible(Run(w, moves[..i]), moves[i])
    ensures Sound(Run(w, moves)) && Sound(Swap(Run(w, moves)))
    ensures |moves| + Rank(Run(w, moves)) <= Rank(w)
    decreases |moves|
  {
    if moves == [] {
    } else {
      var n := |moves| - 1;
      forall i | 0 <= i < n
        ensures Possible(Run(w, moves[..n][..i]), moves[..n][i])
      {
        assert moves[..n][..i] == moves[..i];
      }
      StepsAreBounded(w, moves[..n]);
      assert Possible(Run(w, moves[..n]), moves[n]);
      MoveLowersRank(Run(w, moves[..n]), moves[n]);
    }
  }

  /** So the exchange always finishes: an honest run takes at most this many
      steps, and when nothing more can happen both ends have closed holding
      each other's card. */
  lemma ExchangeCompletes(mine: bytes, theirs: bytes, capOut: nat, capIn: nat, moves: seq<Move>)
    requires mine != [] && theirs != [] && capOut > 0 && capIn > 0
    requires |mine| <= capOut || |theirs| <= capIn
    requires Honest(moves)
    requires forall i :: 0 <= i < |moves| ==> Possible(Run(Start(mine, theirs, capOut, capIn), moves[..i]), moves[i])
    ensures |moves| <= 2 * |mine| + 2 * |theirs| + 10
    ensures var w := Run(Start(mine, theirs, capOut, capIn), moves);
            Stuck(w) ==> Final(w) && w.me.got == theirs && w.peer.got == mine
  {
    var w := Start(mine, theirs, capOut, capIn);
    StepsAreBounded(w, moves);
    ProgressNeedsOneCardOfBuffer(mine, theirs, capOut, capIn);
    HonestRunIsOrderly(w, moves);
    ClosingLosesNothing(mine, theirs, capOut, capIn, moves);
  }
}
