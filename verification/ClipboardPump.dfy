/** One end of the clipboard session as the program runs it: the app's inbox
    and the pump's writer and reader, changed in place. Each arm of the two
    select loops is proved to be the step of the same name in `Clipboard`. */
module ClipboardPump {
  import opened Clipboard
  import opened Wrappers

  /** The inbox part of the app's state. */
  class Inbox {
    var items: seq<string>

    constructor ()
      ensures items == []
    {
      items := [];
    }

    /** The `NetEvent::ItemReceived` arm of `apply_event`. */
    method ItemReceived(text: string, pulled: bool)
      modifies this
      ensures items == Deliver(old(items), text, pulled)
    {
      if pulled {
        for i := 0 to |items|
          invariant text !in items[..i]
        {
          if items[i] == text {
            return;
          }
        }
      }
      items := [text] + items;
      if |items| > MAX_INBOX_ITEMS {
        items := items[..MAX_INBOX_ITEMS];
      }
    }
  }

  /** `pump_clipboard` on one live stream. `lastSent` is the slot shared with
      the pumps before and after it; `wire` is what the stream has accepted. */
  class Pump {
    var clip: seq<string>
    var lastSent: Option<Item>
    var writer: Writer
    var nudges: nat
    var wire: seq<Frame>
    const inbox: Inbox

    /** This end, and what it has put on its stream, are as `w` has them. */
    ghost predicate Shows(w: World)
      reads this, inbox
    {
      && w.me.clip == clip && w.me.lastSent == lastSent && w.me.inbox == inbox.items
      && w.me.link == Live(writer, nudges) && w.me.wrote == wire
    }

    constructor (clip: seq<string>, lastSent: Option<Item>, inbox: Inbox)
      ensures this.clip == clip && this.lastSent == lastSent && this.inbox == inbox
      ensures writer == Opening && nudges == 0 && wire == []
    {
      this.clip, this.lastSent, this.inbox := clip, lastSent, inbox;
      writer, nudges, wire := Opening, 0, [];
    }

    /** Before the writer's loop: ask the peer for what it sent last. */
    method WritePull(ghost w: World)
      requires Shows(w) && Enabled(w, WriteOpening)
      modifies this
      ensures Shows(Act(w, WriteOpening))
    {
      wire := wire + [PullLatest];
      writer := Waiting;
    }

    /** The `clip_rx.recv()` arm, up to the write. */
    method OnItem(now: nat, ghost w: World) returns (reported: bool)
      requires Shows(w) && Enabled(w, TakeItem(now))
      modifies this
      ensures Shows(Act(w, TakeItem(now)))
      ensures reported <==> !ItemFits(Item(old(clip)[0], now))
    {
      var text := clip[0];
      clip := clip[1..];
      var item := Item(text, now);
      reported := !ItemFits(item);
      if !reported {
        writer := Writing(Push(item));
      }
    }

    /** The `pull_rx.recv()` arm, up to the write. */
    method OnNudge(ghost w: World)
      requires Shows(w) && Enabled(w, TakeNudge)
      modifies this
      ensures Shows(Act(w, TakeNudge))
    {
      nudges := nudges - 1;
      match lastSent {
        case None =>
        case Some(item) =>
          if LatestFits(item) {
            writer := Writing(Latest(item));
          }
      }
    }

    /** `write_all` returning: only now does an item become the last one sent. */
    method Written(ghost w: World)
      requires Shows(w) && Enabled(w, FinishWrite)
      modifies this
      ensures Shows(Act(w, FinishWrite))
    {
      var frame := writer.frame;
      wire := wire + [frame];
      writer := Waiting;
      if frame.Push? {
        lastSent := Some(frame.item);
      }
    }

    /** One turn of the reader. */
    method OnFrame(frame: Frame, ghost w: World)
      requires Shows(w) && Enabled(w, ReadFrame) && w.inward[0] == frame
      modifies this, inbox
      ensures Shows(Act(w, ReadFrame))
    {
      match frame {
        case Push(item) => inbox.ItemReceived(item.text, false);
        case PullLatest => nudges := nudges + 1;
        case Latest(item) => inbox.ItemReceived(item.text, true);
      }
    }
  }
}
