/** Local-network records: DNS-SD TXT data (lan/dnssd.rs; RFC 6763, section 6)
    and the addresses beside it (lan/mod.rs). */
module Lan {
  import opened Bytes
  import opened Wrappers
  import opened Utf8

  // ---------------------------------------------------------------------
  // TXT entries
  // ---------------------------------------------------------------------

  type Attribute = (string, string)

  function EntryText(a: Attribute): string { a.0 + (['='] + a.1) }

  function Entry(a: Attribute): bytes { ToUtf8(EntryText(a)) }

  /** `push_txt`: an entry longer than its one-byte length is refused. */
  method PushTxt(buf: bytes, a: Attribute) returns (r: Option<bytes>)
    ensures r == if |Entry(a)| <= 255 then Some(buf + ([|Entry(a)|] + Entry(a))) else None
  {
    var entry := Entry(a);
    Utf8Concat(a.0, ['='] + a.1);
    if |entry| > 255 || |entry| == 0 {
      return None;
    }
    var out := buf + [|entry|];
    out := out + entry;
    assert out == buf + ([|entry|] + entry);
    return Some(out);
  }

  /** `str::split_once('=')`. */
  function SplitOnce(s: string): Option<Attribute> {
    if s == [] then None
    else if s[0] == '=' then Some(([], s[1..]))
    else
      var r := SplitOnce(s[1..]);
      if r.None? then None else Some(([s[0]] + r.value.0, r.value.1))
  }

  /** What one entry puts into the map. */
  function Inserted(m: map<string, string>, entry: bytes): map<string, string> {
    var text := FromUtf8(entry);
    if text.None? || SplitOnce(text.value).None? then m
    else var a := SplitOnce(text.value).value; m[a.0 := a.1]
  }

  /** Reading stops at an empty or cut-short entry; an entry that is not text, or
      has no '=', is passed over. */
  function ReadTxt(data: bytes, m: map<string, string>): map<string, string>
    decreases |data|
  {
    if data == [] || data[0] == 0 || |data| - 1 < data[0] then m
    else ReadTxt(data[1 + data[0]..], Inserted(m, data[1..1 + data[0]]))
  }

  /** `parse_txt`. */
  method ParseTxt(data: bytes) returns (m: map<string, string>)
    ensures m == ReadTxt(data, map[])
  {
    var left := data;
    m := map[];
    while left != []
      invariant ReadTxt(left, m) == ReadTxt(data, map[])
      decreases |left|
    {
      var len, rest := left[0], left[1..];
      if len == 0 || |rest| < len {
        break;
      }
      var entry, tail := rest[..len], rest[len..];
      assert entry == left[1..1 + len] && tail == left[1 + len..];
      left := tail;
      m := Inserted(m, entry);
    }
  }

  /** Entries are read in turn; one that is not UTF-8, or has no '=', changes
      nothing, and any other sets exactly its own key, over an earlier value. */
  lemma EntriesReadInTurn(entry: bytes, rest: bytes, m: map<string, string>)
    requires 0 < |entry| <= 255
    ensures ReadTxt([|entry|] + entry + rest, m) == ReadTxt(rest, Inserted(m, entry))
    ensures FromUtf8(entry).None? || '=' !in FromUtf8(entry).value ==> Inserted(m, entry) == m
    ensures FromUtf8(entry).Some? && '=' in FromUtf8(entry).value ==>
              exists a :: FromUtf8(entry).value == EntryText(a) && '=' !in a.0 && Inserted(m, entry) == m[a.0 := a.1]
  {
    var data := [|entry|] + entry + rest;
    assert data[0] == |entry| && data[1..1 + |entry|] == entry && data[1 + |entry|..] == rest;
    if FromUtf8(entry).Some? {
      SplitsExactlyAtEquals(FromUtf8(entry).value);
    }
  }

  lemma {:induction false} SplitsExactlyAtEquals(text: string)
    ensures SplitOnce(text).Some? <==> '=' in text
    ensures SplitOnce(text).Some? ==> EntryText(SplitOnce(text).value) == text && '=' !in SplitOnce(text).value.0
  {
    if text == [] {
    } else if text[0] == '=' {
      assert EntryText(([], text[1..])) == text;
    } else {
      SplitsExactlyAtEquals(text[1..]);
      var r := SplitOnce(text[1..]);
      if r.Some? {
        assert EntryText(([text[0]] + r.value.0, r.value.1)) == [text[0]] + EntryText(r.value);
      }
    }
  }

  /** An empty or cut-short entry ends the record. */
  lemma CutShortEntriesEndTheRecord(len: byte, rest: bytes, m: map<string, string>)
    requires len == 0 || |rest| < len
    ensures ReadTxt([len] + rest, m) == m
  {
  }

  // ---------------------------------------------------------------------
  // Reading back what was pushed
  // ---------------------------------------------------------------------

  function Wire(attrs: seq<Attribute>): bytes
    requires forall i :: 0 <= i < |attrs| ==> |Entry(attrs[i])| <= 255
  {
    if attrs == [] then [] else [|Entry(attrs[0])|] + Entry(attrs[0]) + Wire(attrs[1..])
  }

  /** `PushTxt` for each attribute in turn. */
  method PushAll(attrs: seq<Attribute>) returns (r: Option<bytes>)
    ensures r.Some? <==> forall i :: 0 <= i < |attrs| ==> |Entry(attrs[i])| <= 255
    ensures r.Some? ==> r.value == Wire(attrs)
  {
    var buf: bytes := [];
    for i := 0 to |attrs|
      invariant forall j :: 0 <= j < i ==> |Entry(attrs[j])| <= 255
      invariant buf == Wire(attrs[..i])
    {
      var next := PushTxt(buf, attrs[i]);
      if next.None? {
        return None;
      }
      WireSnoc(attrs[..i], attrs[i]);
      assert attrs[..i + 1] == attrs[..i] + [attrs[i]];
      buf := next.value;
    }
    assert attrs[..|attrs|] == attrs;
    return Some(buf);
  }

  lemma {:induction false} WireSnoc(attrs: seq<Attribute>, a: Attribute)
    requires forall i :: 0 <= i < |attrs| ==> |Entry(attrs[i])| <= 255
    requires |Entry(a)| <= 255
    ensures Wire(attrs + [a]) == Wire(attrs) + ([|Entry(a)|] + Entry(a))
  {
    var all := attrs + [a];
    if attrs == [] {
      assert all[1..] == [];
      assert Wire(all) == [|Entry(a)|] + Entry(a) + [];
    } else {
      assert all[1..] == attrs[1..] + [a];
      WireSnoc(attrs[1..], a);
    }
  }

  function Fold(m: map<string, string>, attrs: seq<Attribute>): map<string, string>
    decreases |attrs|
  {
    if attrs == [] then m else Fold(m[attrs[0].0 := attrs[0].1], attrs[1..])
  }

  /** An entry comes apart where it was put together exactly when its key has no
      '='. */
  lemma {:induction false} SplitsAtItsOwnEquals(key: string, value: string)
    ensures SplitOnce(EntryText((key, value))) == Some((key, value)) <==> '=' !in key
  {
    var text := EntryText((key, value));
    SplitKeyHasNone(text);
    if key == [] {
      assert text[1..] == value;
    } else {
      assert text[1..] == EntryText((key[1..], value));
      SplitsAtItsOwnEquals(key[1..], value);
      assert key == [key[0]] + key[1..];
    }
  }

  lemma {:induction false} SplitKeyHasNone(text: string)
    ensures SplitOnce(text).Some? ==> '=' !in SplitOnce(text).value.0
  {
    if text == [] {
    } else {
      SplitKeyHasNone(text[1..]);
    }
  }

  lemma EntryReadsBack(m: map<string, string>, a: Attribute)
    requires '=' !in a.0
    ensures Inserted(m, Entry(a)) == m[a.0 := a.1]
  {
    Utf8RoundTrip(EntryText(a));
    SplitsAtItsOwnEquals(a.0, a.1);
  }

  lemma EntryNotEmpty(a: Attribute)
    ensures Entry(a) != []
  {
    Utf8Concat(a.0, ['='] + a.1);
    assert ToUtf8(['='] + a.1) != [];
  }

  /** Reading pushed attributes inserts them one by one, in order. */
  lemma {:induction false} PushedReadsBack(attrs: seq<Attribute>, m: map<string, string>)
    requires forall i :: 0 <= i < |attrs| ==> |Entry(attrs[i])| <= 255 && '=' !in attrs[i].0
    ensures ReadTxt(Wire(attrs), m) == Fold(m, attrs)
    decreases |attrs|
  {
    if attrs == [] {
    } else {
      var entry, wire := Entry(attrs[0]), Wire(attrs);
      EntryNotEmpty(attrs[0]);
      assert wire[0] == |entry| && wire[1..1 + |entry|] == entry && wire[1 + |entry|..] == Wire(attrs[1..]);
      EntryReadsBack(m, attrs[0]);
      PushedReadsBack(attrs[1..], m[attrs[0].0 := attrs[0].1]);
    }
  }

  lemma {:induction false} FoldHolds(m: map<string, string>, attrs: seq<Attribute>)
    requires forall i, j :: 0 <= i < j < |attrs| ==> attrs[i].0 != attrs[j].0
    ensures forall i :: 0 <= i < |attrs| ==> attrs[i].0 in Fold(m, attrs) && Fold(m, attrs)[attrs[i].0] == attrs[i].1
    ensures forall k :: (forall i :: 0 <= i < |attrs| ==> attrs[i].0 != k) ==>
              (k in Fold(m, attrs) <==> k in m) && (k in m ==> Fold(m, attrs)[k] == m[k])
    decreases |attrs|
  {
    if attrs == [] {
    } else {
      var n, rest := m[attrs[0].0 := attrs[0].1], attrs[1..];
      FoldHolds(n, rest);
      forall i | 0 <= i < |attrs| ensures attrs[i].0 in Fold(m, attrs) && Fold(m, attrs)[attrs[i].0] == attrs[i].1 {
        if i > 0 {
          assert attrs[i] == rest[i - 1];
        } else {
          assert forall j :: 0 <= j < |rest| ==> rest[j].0 != attrs[0].0;
        }
      }
      forall k | forall i :: 0 <= i < |attrs| ==> attrs[i].0 != k
        ensures (k in Fold(m, attrs) <==> k in m) && (k in m ==> Fold(m, attrs)[k] == m[k])
      {
        assert attrs[0].0 != k;
        assert forall j :: 0 <= j < |rest| ==> rest[j] == attrs[j + 1];
      }
    }
  }

  /** Any attributes with distinct '='-free keys that can be pushed at all read
      back as exactly the map they name. */
  lemma TxtRoundTrip(attrs: seq<Attribute>)
    requires forall i :: 0 <= i < |attrs| ==> |Entry(attrs[i])| <= 255 && '=' !in attrs[i].0
    requires forall i, j :: 0 <= i < j < |attrs| ==> attrs[i].0 != attrs[j].0
    ensures var m := ReadTxt(Wire(attrs), map[]);
            && (forall i :: 0 <= i < |attrs| ==> attrs[i].0 in m && m[attrs[i].0] == attrs[i].1)
            && (forall k :: k in m ==> exists i :: 0 <= i < |attrs| && attrs[i].0 == k)
  {
    PushedReadsBack(attrs, map[]);
    FoldHolds(map[], attrs);
  }

  // ---------------------------------------------------------------------
  // Ports and addresses
  // ---------------------------------------------------------------------

  /** An IPv6 address is its first 16-bit segment and the rest. */
  datatype Ip = V4(bits: nat) | V6(first: nat, rest: nat)

  datatype SocketAddr = SocketAddr(ip: Ip, port: nat)

  /** fe80::/10: `first & 0xffc0 == 0xfe80` on a 16-bit segment. */
  predicate LinkLocal(ip: Ip) { ip.V6? && ip.first / 64 == 0xfe80 / 64 }

  function FirstPort(addrs: seq<SocketAddr>, v6: bool): Option<nat> {
    if addrs == [] then None else if addrs[0].ip.V6? == v6 then Some(addrs[0].port) else FirstPort(addrs[1..], v6)
  }

  /** `split_ports`: the SRV port, and the IPv6 port if it differs. */
  function SplitPorts(addrs: seq<SocketAddr>): Option<(nat, Option<nat>)> {
    var v4, v6 := FirstPort(addrs, false), FirstPort(addrs, true);
    var srv := if v4.Some? then v4 else v6;
    if srv.None? then None else Some((srv.value, if v6 == srv then None else v6))
  }

  function PortOf(ip: Ip, srv: nat, port6: Option<nat>): nat {
    if ip.V6? && port6.Some? then port6.value else srv
  }

  /** `assemble_addrs`. */
  function AssembleAddrs(ips: seq<Ip>, srv: nat, port6: Option<nat>): seq<SocketAddr> {
    if ips == [] then []
    else (if LinkLocal(ips[0]) then [] else [SocketAddr(ips[0], PortOf(ips[0], srv, port6))])
         + AssembleAddrs(ips[1..], srv, port6)
  }

  function Ips(addrs: seq<SocketAddr>): seq<Ip> { seq(|addrs|, i requires 0 <= i < |addrs| => addrs[i].ip) }

  lemma {:induction false} AssembleLength(ips: seq<Ip>, srv: nat, port6: Option<nat>)
    ensures |AssembleAddrs(ips, srv, port6)| <= |ips|
  {
    if ips == [] {
    } else {
      AssembleLength(ips[1..], srv, port6);
    }
  }

  lemma {:induction false} AssembledExactlyWhen(addrs: seq<SocketAddr>, srv: nat, port6: Option<nat>)
    ensures AssembleAddrs(Ips(addrs), srv, port6) == addrs
       <==> forall i :: 0 <= i < |addrs| ==> !LinkLocal(addrs[i].ip) && addrs[i].port == PortOf(addrs[i].ip, srv, port6)
  {
    if addrs == [] {
    } else {
      assert Ips(addrs)[1..] == Ips(addrs[1..]);
      AssembledExactlyWhen(addrs[1..], srv, port6);
      AssembleLength(Ips(addrs[1..]), srv, port6);
      var out, rest := AssembleAddrs(Ips(addrs), srv, port6), AssembleAddrs(Ips(addrs[1..]), srv, port6);
      if !LinkLocal(addrs[0].ip) {
        assert out[1..] == rest;
        assert addrs == [addrs[0]] + addrs[1..];
        assert out == addrs <==> out[0] == addrs[0] && rest == addrs[1..];
      }
      assert forall i :: 0 <= i < |addrs[1..]| ==> addrs[1..][i] == addrs[i + 1];
      assert forall i :: 0 < i < |addrs| ==> addrs[i] == addrs[1..][i - 1];
    }
  }

  lemma {:induction false} FirstPortIs(addrs: seq<SocketAddr>, v6: bool)
    ensures FirstPort(addrs, v6).None? <==> forall i :: 0 <= i < |addrs| ==> addrs[i].ip.V6? != v6
    ensures FirstPort(addrs, v6).Some? ==>
              exists i :: 0 <= i < |addrs| && addrs[i].ip.V6? == v6 && addrs[i].port == FirstPort(addrs, v6).value
  {
    if addrs != [] && addrs[0].ip.V6? != v6 {
      FirstPortIs(addrs[1..], v6);
      assert forall i :: 0 < i < |addrs| ==> addrs[i] == addrs[1..][i - 1];
      if FirstPort(addrs[1..], v6).Some? {
        var rest := addrs[1..];
        var i :| 0 <= i < |rest| && rest[i].ip.V6? == v6 && rest[i].port == FirstPort(rest, v6).value;
        assert addrs[i + 1] == addrs[1..][i];
      }
    }
  }

  ghost predicate OnePortPerFamily(addrs: seq<SocketAddr>) {
    forall i, j :: 0 <= i < |addrs| && 0 <= j < |addrs| && addrs[i].ip.V6? == addrs[j].ip.V6? ==>
      addrs[i].port == addrs[j].port
  }

  /** fe80 to febf. */
  lemma LinkLocalIs(first: nat, rest: nat)
    ensures LinkLocal(V6(first, rest)) <==> 0xfe80 <= first <= 0xfebf
  {
  }

  lemma {:induction false} AssembledInOrder(before: seq<Ip>, after: seq<Ip>, srv: nat, port6: Option<nat>)
    ensures AssembleAddrs(before + after, srv, port6)
         == AssembleAddrs(before, srv, port6) + AssembleAddrs(after, srv, port6)
  {
    if before == [] {
      assert before + after == after;
    } else {
      var ip := before[0];
      var first := if LinkLocal(ip) then [] else [SocketAddr(ip, PortOf(ip, srv, port6))];
      var x, y := AssembleAddrs(before[1..], srv, port6), AssembleAddrs(after, srv, port6);
      AssembledInOrder(before[1..], after, srv, port6);
      assert (before + after)[0] == ip && (before + after)[1..] == before[1..] + after;
      assert first + (x + y) == first + x + y;
    }
  }

  /** What is rebuilt is rebuilt address by address, in order: a link-local one
      gives nothing, and any other one address whatever surrounds it. */
  lemma AssembledOneByOne(before: seq<Ip>, ip: Ip, after: seq<Ip>, srv: nat, port6: Option<nat>)
    ensures AssembleAddrs(before + ([ip] + after), srv, port6)
         == AssembleAddrs(before, srv, port6)
            + ((if LinkLocal(ip) then [] else [SocketAddr(ip, if ip.V6? && port6.Some? then port6.value else srv)])
               + AssembleAddrs(after, srv, port6))
  {
    AssembledInOrder(before, [ip] + after, srv, port6);
    assert ([ip] + after)[1..] == after;
  }

  /** Any addresses at all can be advertised; they are rebuilt as they were
      exactly when each family has one port and none is link-local. */
  lemma PortsRoundTripExactlyWhen(addrs: seq<SocketAddr>)
    requires addrs != []
    ensures var ports := SplitPorts(addrs);
            && ports.Some?
            && (AssembleAddrs(Ips(addrs), ports.value.0, ports.value.1) == addrs
                <==> OnePortPerFamily(addrs) && forall i :: 0 <= i < |addrs| ==> !LinkLocal(addrs[i].ip))
  {
    FirstPortIs(addrs, false);
    FirstPortIs(addrs, true);
    assert addrs[0].ip.V6? == true || addrs[0].ip.V6? == false;
    var (srv, port6) := SplitPorts(addrs).value;
    AssembledExactlyWhen(addrs, srv, port6);
  }
}
