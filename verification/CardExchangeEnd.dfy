/** One end of the card exchange as the program runs it (card_exchange.rs):
    write, read, finish, drain, in that order, its progress changed in place.
    Each `await` that lets the stream move is proved to be the step of the same
    name in `CardExchange`, and the reader finds the end of the peer's frame
    from the bytes alone. */
module CardExchangeEnd {
  import opened Bytes
  import opened CardExchange
  import Framing

  /** A frame whose own length prefix, within the control cap, says where it
      ends - what `encode_card_offer` makes. */
  predicate SelfDelimiting(frame: bytes) {
    |frame| >= 4 && |frame| == 4 + BytesToU32(frame[..4]) <= 4 + Framing.MAX_CONTROL_MESSAGE_SIZE
  }

  lemma OffersAreSelfDelimiting(json: bytes)
    requires |json| <= Framing.MAX_CONTROL_MESSAGE_SIZE
    ensures SelfDelimiting(Framing.Frame(json))
  {
    Framing.FrameShape(json);
  }

  /** How many more bytes `read_length_prefixed` asks for, having read `got`:
      the rest of the prefix, then the rest of the body it announces. */
  function Wanted(got: bytes): nat {
    if |got| < 4 then 4 - |got|
    else if |got| < 4 + BytesToU32(got[..4]) then 4 + BytesToU32(got[..4]) - |got| else 0
  }

  /** It asks for exactly what is left of the peer's frame, and for nothing only
      when it has it all. */
  lemma WantedIsTheRest(frame: bytes, got: bytes)
    requires SelfDelimiting(frame) && got <= frame
    ensures |got| + Wanted(got) <= |frame| && (Wanted(got) == 0 <==> got == frame)
  {
    if |got| >= 4 {
      assert got[..4] == frame[..4];
    }
  }

  class Exchange {
    const frame: bytes
    var sent: nat
    var got: bytes
    var phase: Phase
    var sawEnd: bool

    ghost predicate Shows(w: World)
      reads this
    {
      w.me == End(frame, sent, got, phase, sawEnd)
    }

    constructor (frame: bytes)
      ensures this.frame == frame && sent == 0 && got == [] && phase == Sending && !sawEnd
    {
      this.frame, sent, got, phase, sawEnd := frame, 0, [], Sending, false;
    }

    /** Inside `write_all`: the stream took `n` more bytes, those at `sent`. */
    method Wrote(n: nat, ghost w: World) returns (piece: bytes)
      requires Shows(w) && Enabled(w, Write(n)) && Sound(w)
      modifies this
      ensures Shows(Act(w, Write(n))) && Act(w, Write(n)).outward.data == w.outward.data + piece
    {
      piece := frame[sent..sent + n];
      sent := sent + n;
      if sent == |frame| {
        phase := Reading;
      }
    }

    /** Inside `read_length_prefixed`: some of what it asked for arrived. */
    method ReadSome(piece: bytes, ghost w: World)
      requires Shows(w) && Sound(w) && Sound(Swap(w)) && SelfDelimiting(w.peer.frame)
      requires phase.Reading? && !w.closed && piece != [] && piece <= w.inward.data && |piece| <= Wanted(got)
      modifies this
      ensures Enabled(w, Read(|piece|)) && Shows(Act(w, Read(|piece|)))
    {
      ghost var theirs := w.peer.frame;
      assert got + w.inward.data <= theirs;
      assert got + piece == (got + w.inward.data)[..|got| + |piece|];
      WantedIsTheRest(theirs, got);
      WantedIsTheRest(theirs, got + piece);
      got := got + piece;
      if Wanted(got) == 0 {
        phase := Finishing;
      }
    }

    /** `send.shutdown()`, only once the peer's card is here. */
    method ShutDown(ghost w: World)
      requires Shows(w) && Enabled(w, Finish)
      modifies this
      ensures Shows(Act(w, Finish))
    {
      phase := Draining;
    }

    /** `take(MAX_TRAILING_BYTES).read_to_end` comes back: with the peer's end of
        stream, with as many trailing bytes as it takes, or with an error that is
        only logged. The card is here whichever it is. */
    method Drained(how: Step, ghost w: World)
      requires Shows(w) && (how.SeeEnd? || how.DrainFull? || how.DrainError?) && Enabled(w, how)
      modifies this
      ensures Shows(Act(w, how)) && phase.Returned? && got == old(got)
    {
      phase := Returned;
      if how.SeeEnd? {
        sawEnd := true;
      }
    }

    /** Any earlier stream error ends the exchange. */
    method Broke(ghost w: World)
      requires Shows(w) && Enabled(w, Break)
      modifies this
      ensures Shows(Act(w, Break))
    {
      phase := Failed;
    }
  }
}
