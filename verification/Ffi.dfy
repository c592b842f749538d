/** The C surface's text output and event polling (duocb-ffi). */
module Ffi {
  import opened Bytes
  import opened Wrappers
  import opened Utf8

  // ---------------------------------------------------------------------
  // write_cstr
  // ---------------------------------------------------------------------

  /** How many bytes of `s` a buffer of `len` takes beside the trailing NUL. */
  function Copied(s: string, len: nat): nat
    requires len > 0
  {
    FloorBoundary(ToUtf8(s), if |ToUtf8(s)| < len - 1 then |ToUtf8(s)| else len - 1)
  }

  /** `write_cstr`: the copied bytes, a NUL, and nothing after it. */
  method WriteCstr(buf: array?<byte>, len: nat, s: string) returns (fits: bool)
    requires buf != null ==> len <= buf.Length
    modifies if buf != null then {buf} else {}
    ensures buf == null || len == 0 ==> !fits && (buf != null ==> buf[..] == old(buf[..]))
    ensures buf != null && len > 0 ==>
      var n := Copied(s, len);
      && n < len && buf[..n] == ToUtf8(s)[..n] && buf[n] == 0 && buf[n + 1..] == old(buf[n + 1..])
      && (fits <==> n == |ToUtf8(s)|)
  {
    if buf == null || len == 0 {
      return false;
    }
    var b := ToUtf8(s);
    var copy: nat := if |b| < len - 1 then |b| else len - 1;
    while copy > 0 && !IsBoundary(b, copy)
      invariant copy <= |b| && copy <= len - 1 && FloorBoundary(b, copy) == Copied(s, len)
    {
      copy := copy - 1;
    }
    for i := 0 to copy
      invariant buf[..i] == b[..i]
      invariant forall j :: i <= j < buf.Length ==> buf[j] == old(buf[j])
    {
      buf[i] := b[i];
    }
    buf[copy] := 0;
    return copy == |b|;
  }

  /** What lands in the buffer is the longest run of whole characters that leaves
      room for the NUL - all of `s` exactly when its bytes and the NUL fit. */
  lemma WritesLongestWholePrefix(s: string, len: nat) returns (k: nat)
    requires len > 0
    ensures k <= |s| && ToUtf8(s)[..Copied(s, len)] == ToUtf8(s[..k]) && |ToUtf8(s[..k])| < len
    ensures forall j :: 0 <= j <= |s| && |ToUtf8(s[..j])| < len ==> |ToUtf8(s[..j])| <= |ToUtf8(s[..k])|
    ensures Copied(s, len) == |ToUtf8(s)| <==> |ToUtf8(s)| < len
  {
    var limit := if |ToUtf8(s)| < len - 1 then |ToUtf8(s)| else len - 1;
    k := FloorIsLongestWholePrefix(s, limit);
    forall j | 0 <= j <= |s| && |ToUtf8(s[..j])| < len ensures |ToUtf8(s[..j])| <= |ToUtf8(s[..k])| {
      CharCountIsBoundary(s, j);
    }
  }

  // ---------------------------------------------------------------------
  // Polling
  // ---------------------------------------------------------------------

  /** The handle's event side: an event put back after it did not fit, and the
      queue behind it. */
  class EventHandle {
    var pending: Option<string>
    var queue: seq<string>

    ghost function Held(): seq<string>
      reads this
    {
      (if pending.Some? then [pending.value] else []) + queue
    }

    method Arrive(event: string)
      modifies this
      ensures Held() == old(Held()) + [event]
    {
      queue := queue + [event];
    }

    method TakeEvent() returns (r: Option<string>)
      modifies this
      ensures if old(Held()) == [] then r == None && Held() == []
              else r == Some(old(Held())[0]) && Held() == old(Held())[1..]
      ensures pending == None
    {
      if pending.Some? {
        r := pending;
        pending := None;
        return;
      }
      if queue == [] {
        return None;
      }
      r := Some(queue[0]);
      queue := queue[1..];
    }

    method RetainEvent(event: string)
      requires pending.None?
      modifies this
      ensures Held() == [event] + old(Held())
    {
      pending := Some(event);
    }

    /** `duocb_next_event`. */
    method NextEvent(buf: array?<byte>, len: nat) returns (code: int)
      requires buf != null ==> len <= buf.Length
      modifies this, if buf != null then {buf} else {}
      ensures buf == null <==> code == -1
      ensures buf != null ==>
                code == (if old(Held()) == [] then 0 else if |ToUtf8(old(Held())[0])| < len then 1 else -2)
      ensures Held() == if code == 1 then old(Held())[1..] else old(Held())
      ensures code == 1 ==>
        var event := ToUtf8(old(Held())[0]);
        |event| < len && buf[..|event|] == event && buf[|event|] == 0
    {
      if buf == null {
        return -1;
      }
      ghost var held := Held();
      var json := TakeEvent();
      if json.None? {
        return 0;
      }
      if len > 0 {
        ghost var k := WritesLongestWholePrefix(json.value, len);
      }
      var fits := WriteCstr(buf, len, json.value);
      if fits {
        return 1;
      }
      RetainEvent(json.value);
      assert Held() == [held[0]] + held[1..];
      return -2;
    }
  }

  /** Events arriving, and polls with buffers of any size. */
  datatype Happening = Arrives(event: string) | Polled(len: nat)

  /** What is still held and what has been handed out. */
  datatype Feed = Feed(held: seq<string>, out: seq<string>)

  function Step(f: Feed, h: Happening): Feed {
    match h
    case Arrives(event) => f.(held := f.held + [event])
    case Polled(len) =>
      if f.held != [] && |ToUtf8(f.held[0])| < len then Feed(f.held[1..], f.out + [f.held[0]]) else f
  }

  function Run(hs: seq<Happening>): Feed {
    if hs == [] then Feed([], []) else Step(Run(hs[..|hs| - 1]), hs[|hs| - 1])
  }

  /** What a caller reads out of a buffer: everything up to the NUL. */
  function UpToNul(b: bytes): bytes { if b == [] || b[0] == 0 then [] else [b[0]] + UpToNul(b[1..]) }

  predicate NulFree(s: string) { 0 as char !in s }

  lemma {:induction false} NoNulInside(s: string)
    requires NulFree(s)
    ensures forall i :: 0 <= i < |ToUtf8(s)| ==> ToUtf8(s)[i] != 0
  {
    if s == [] {
    } else {
      NoNulInside(s[1..]);
      assert s[0] != 0 as char;
      var head := EncodeChar(s[0]);
      assert forall i :: 0 <= i < |head| ==> head[i] != 0;
    }
  }

  lemma {:induction false} ReadsBack(b: bytes, n: nat)
    requires n < |b| && b[n] == 0 && forall i :: 0 <= i < n ==> b[i] != 0
    ensures UpToNul(b) == b[..n]
  {
    if n == 0 {
    } else {
      ReadsBack(b[1..], n - 1);
      assert b[..n] == [b[0]] + b[1..][..n - 1];
    }
  }

  lemma EventReadsBack(b: bytes, event: string)
    requires NulFree(event) && |ToUtf8(event)| < |b|
    requires b[..|ToUtf8(event)|] == ToUtf8(event) && b[|ToUtf8(event)|] == 0
    ensures FromUtf8(UpToNul(b)) == Some(event)
  {
    var n := |ToUtf8(event)|;
    NoNulInside(event);
    assert forall i :: 0 <= i < n ==> b[i] == b[..n][i];
    ReadsBack(b, n);
    Utf8RoundTrip(event);
  }

  ghost predicate AllNulFree(hs: seq<Happening>) {
    forall i :: 0 <= i < |hs| ==> hs[i].Arrives? ==> NulFree(hs[i].event)
  }

  lemma {:induction false} HeldIsNulFree(hs: seq<Happening>)
    requires AllNulFree(hs)
    ensures forall j :: 0 <= j < |Run(hs).held| ==> NulFree(Run(hs).held[j])
  {
    if hs == [] {
    } else {
      HeldIsNulFree(hs[..|hs| - 1]);
    }
  }

  /** A single poller doing all of that, reading each event out of its buffer.
      Events are JSON, which spells control characters out. */
  method Poll(hs: seq<Happening>) returns (handle: EventHandle, out: seq<string>)
    requires AllNulFree(hs)
    ensures Feed(handle.Held(), out) == Run(hs)
  {
    handle := new EventHandle;
    handle.pending, handle.queue := None, [];
    out := [];
    for i := 0 to |hs|
      invariant fresh(handle) && Feed(handle.Held(), out) == Run(hs[..i])
    {
      assert hs[..i + 1][..i] == hs[..i];
      match hs[i] {
        case Arrives(event) => handle.Arrive(event);
        case Polled(len) =>
          HeldIsNulFree(hs[..i]);
          var got := PollOnce(handle, len);
          if got.Some? {
            out := out + [got.value];
          }
      }
    }
    assert hs[..|hs|] == hs;
  }

  method PollOnce(handle: EventHandle, len: nat) returns (got: Option<string>)
    requires handle.Held() != [] ==> NulFree(handle.Held()[0])
    modifies handle
    ensures Feed(handle.Held(), if got.Some? then [got.value] else [])
         == Step(Feed(old(handle.Held()), []), Polled(len))
  {
    ghost var held := handle.Held();
    var buf := new byte[len](_ => 0);
    var code := handle.NextEvent(buf, len);
    if code != 1 {
      return None;
    }
    EventReadsBack(buf[..], held[0]);
    got := FromUtf8(UpToNul(buf[..]));
  }

  function Arrivals(hs: seq<Happening>): seq<string> {
    if hs == [] then []
    else
      var last := hs[|hs| - 1];
      Arrivals(hs[..|hs| - 1]) + if last.Arrives? then [last.event] else []
  }

  /** Whatever the buffer sizes, what was handed out followed by what is still
      held is what arrived: each event once, in order, none lost. */
  lemma {:induction false} ExactlyOnceInOrder(hs: seq<Happening>)
    ensures Run(hs).out + Run(hs).held == Arrivals(hs)
  {
    if hs == [] {
    } else {
      var before, last := hs[..|hs| - 1], hs[|hs| - 1];
      ExactlyOnceInOrder(before);
      var f := Run(before);
      if last.Arrives? {
        assert f.out + (f.held + [last.event]) == f.out + f.held + [last.event];
      } else if f.held != [] {
        assert f.out + [f.held[0]] + f.held[1..] == f.out + f.held;
      }
    }
  }

  /** And a buffer one byte longer than the next event's text always gets it. */
  lemma BigEnoughBufferGetsIt(hs: seq<Happening>, len: nat)
    requires Run(hs).held != []
    ensures var f, g := Run(hs), Run(hs + [Polled(len)]);
            g.out == f.out + (if |ToUtf8(f.held[0])| < len then [f.held[0]] else [])
  {
    assert (hs + [Polled(len)])[..|hs|] == hs;
  }
}
