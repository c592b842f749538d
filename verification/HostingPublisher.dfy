/** The configure-mode hosting publisher (runtime.rs, `run_hosting_publisher`):
    keeps the host's record resolvable by the session's one peer, round after
    round, for as long as the session listens. */
module HostingPublisher {
  import opened Wrappers
  import opened Cards
  import SessionMemory

  /** A socket address, by its place in the program's order of addresses. */
  type Addr = nat

  /** What a round finds: the clock, the endpoint's addresses in whatever order,
      and whether each channel takes the record if it is offered. */
  datatype Round = Round(now: Secs, addrs: seq<Addr>, lanTakes: bool, relayTakes: bool)

  datatype PublisherEvent = NotYetValid | NoChannel

  predicate Lan(channel: SessionMemory.Channel) { channel != SessionMemory.NostrOnly }

  predicate Nostr(channel: SessionMemory.Channel) { channel != SessionMemory.LanOnly }

  // ---------------------------------------------------------------------
  // Sorting
  // ---------------------------------------------------------------------

  ghost predicate Sorted(xs: seq<Addr>) { forall i, j :: 0 <= i < j < |xs| ==> xs[i] <= xs[j] }

  function Insert(x: Addr, xs: seq<Addr>): seq<Addr> {
    if xs == [] || x <= xs[0] then [x] + xs else [xs[0]] + Insert(x, xs[1..])
  }

  function Sort(xs: seq<Addr>): seq<Addr> {
    if xs == [] then [] else Insert(xs[0], Sort(xs[1..]))
  }

  lemma {:induction false} InsertKeepsAll(x: Addr, xs: seq<Addr>)
    ensures multiset(Insert(x, xs)) == multiset([x] + xs)
  {
    if xs != [] && x > xs[0] {
      InsertKeepsAll(x, xs[1..]);
      assert xs == [xs[0]] + xs[1..];
    }
  }

  lemma {:induction false} InsertSorts(x: Addr, xs: seq<Addr>)
    requires Sorted(xs)
    ensures Sorted(Insert(x, xs))
  {
    if xs != [] && x > xs[0] {
      InsertSorts(x, xs[1..]);
      InsertKeepsAll(x, xs[1..]);
      var rest := Insert(x, xs[1..]);
      forall j | 0 <= j < |rest| ensures xs[0] <= rest[j] {
        AmongThem(rest, [x] + xs[1..], j);
      }
    }
  }

  lemma AmongThem(a: seq<Addr>, b: seq<Addr>, j: nat)
    requires j < |a| && multiset(a) == multiset(b)
    ensures a[j] in b
  {
    assert a[j] in multiset(a);
  }

  lemma {:induction false} SortSorts(xs: seq<Addr>)
    ensures Sorted(Sort(xs)) && multiset(Sort(xs)) == multiset(xs)
  {
    if xs == [] {
    } else {
      SortSorts(xs[1..]);
      InsertSorts(xs[0], Sort(xs[1..]));
      InsertKeepsAll(xs[0], Sort(xs[1..]));
      assert xs == [xs[0]] + xs[1..];
    }
  }

  // ---------------------------------------------------------------------
  // One round, on values
  // ---------------------------------------------------------------------

  /** `up` are the LAN registrations standing; `advertised` is the publisher's
      own note of what its advertisement carries. */
  datatype Publisher = Publisher(up: seq<seq<Addr>>, advertised: Option<seq<Addr>>,
                                 reported: bool, warned: bool, said: seq<PublisherEvent>)

  const START := Publisher([], None, false, false, [])

  function Warn(p: Publisher, card: Option<Card>, now: Secs): Publisher {
    if !p.warned && card.Some? && NotYetValidAt(card.value, now)
    then p.(warned := true, said := p.said + [NotYetValid])
    else p
  }

  function Live(card: Option<Card>, now: Secs): bool { card.Some? && ValidAt(card.value, now) }

  function Advertise(p: Publisher, addrs: seq<Addr>, takes: bool): Publisher {
    if p.advertised == Some(addrs) then p
    else if takes then p.(up := [addrs], advertised := Some(addrs))
    else p.(up := [], advertised := None)
  }

  function Announce(p: Publisher, channel: SessionMemory.Channel, r: Round): Publisher {
    var q := if Lan(channel) then Advertise(p, Sort(r.addrs), r.lanTakes) else p;
    var published := (Lan(channel) && q.up != []) || (Nostr(channel) && r.relayTakes);
    q.(reported := !published, said := q.said + if !published && !q.reported then [NoChannel] else [])
  }

  function Step(p0: Publisher, card: Option<Card>, channel: SessionMemory.Channel, r: Round): Publisher {
    var p := Warn(p0, card, r.now);
    if !Live(card, r.now) then
      if p.advertised.Some? then p.(up := [], advertised := None) else p
    else Announce(p, channel, r)
  }

  function Run(card: Option<Card>, channel: SessionMemory.Channel, rounds: seq<Round>): Publisher {
    if rounds == [] then START
    else Step(Run(card, channel, rounds[..|rounds| - 1]), card, channel, rounds[|rounds| - 1])
  }

  // ---------------------------------------------------------------------
  // The same, as the program runs it
  // ---------------------------------------------------------------------

  /** A standing DNS-SD registration; dropping it withdraws it. */
  class LanAdvert {
    const addrs: seq<Addr>
    var up: bool

    constructor (addrs: seq<Addr>)
      ensures this.addrs == addrs && up
    {
      this.addrs, up := addrs, true;
    }
  }

  class HostingPublisher {
    var advert: Option<LanAdvert>
    var advertised: Option<seq<Addr>>
    var reported: bool
    var warnedNotYetValid: bool
    var said: seq<PublisherEvent>
    /** Every registration ever made. */
    ghost var made: set<LanAdvert>

    /** Only the held registration stands, and the note says what it carries. */
    ghost predicate Valid()
      reads this, made
    {
      && (forall a :: a in made && a.up ==> advert == Some(a))
      && (advert.Some? ==> advert.value in made && advert.value.up)
      && advertised == (if advert.Some? then Some(advert.value.addrs) else None)
    }

    ghost function Abs(): Publisher
      reads this, made
      requires Valid()
    {
      Publisher(if advert.Some? then [advert.value.addrs] else [], advertised, reported, warnedNotYetValid, said)
    }

    constructor ()
      ensures Valid() && fresh(made) && Abs() == START
    {
      advert, advertised, reported, warnedNotYetValid, said, made := None, None, false, false, [], {};
    }

    /** Withdraws the registration held, if any. */
    method Withdraw()
      requires Valid()
      modifies this`advert, this`advertised, made
      ensures Valid() && Abs() == old(Abs()).(up := [], advertised := None)
    {
      if advert.Some? {
        advert.value.up := false;
      }
      advert, advertised := None, None;
    }

    method AdvertiseOn(addrs: seq<Addr>, takes: bool)
      requires Valid()
      modifies this`advert, this`advertised, this`made, made
      ensures Valid() && fresh(made - old(made)) && Abs() == Advertise(old(Abs()), addrs, takes)
    {
      if advertised != Some(addrs) {
        Withdraw();
        if takes {
          var up := new LanAdvert(addrs);
          advert, advertised := Some(up), Some(addrs);
          made := made + {up};
        }
      }
    }

    method WarnOnce(card: Option<Card>, now: Secs)
      requires Valid()
      modifies this`warnedNotYetValid, this`said
      ensures Valid() && Abs() == Warn(old(Abs()), card, now)
    {
      if !warnedNotYetValid && card.Some? && NotYetValidAt(card.value, now) {
        warnedNotYetValid, said := true, said + [NotYetValid];
      }
    }

    method Turn(card: Option<Card>, channel: SessionMemory.Channel, r: Round)
      requires Valid()
      modifies this, made
      ensures Valid() && fresh(made - old(made)) && Abs() == Step(old(Abs()), card, channel, r)
    {
      WarnOnce(card, r.now);
      if Live(card, r.now) {
        PublishOn(channel, r);
      } else if advertised.Some? {
        Withdraw();
      }
    }

    /** A live round's publishing, and the complaint when it reached nobody. */
    method PublishOn(channel: SessionMemory.Channel, r: Round)
      requires Valid()
      modifies this, made
      ensures Valid() && fresh(made - old(made)) && Abs() == Announce(old(Abs()), channel, r)
    {
      var published := false;
      if Lan(channel) {
        AdvertiseOn(Sort(r.addrs), r.lanTakes);
        published := advert.Some?;
      }
      if Nostr(channel) && r.relayTakes {
        published := true;
      }
      if !published && !reported {
        said := said + [NoChannel];
      }
      reported := !published;
    }
  }

  method RunHostingPublisher(card: Option<Card>, channel: SessionMemory.Channel, rounds: seq<Round>)
    returns (p: HostingPublisher)
    ensures p.Valid() && p.Abs() == Run(card, channel, rounds)
  {
    p := new HostingPublisher();
    for i := 0 to |rounds|
      invariant fresh(p) && fresh(p.made) && p.Valid() && p.Abs() == Run(card, channel, rounds[..i])
    {
      assert rounds[..i + 1][..i] == rounds[..i];
      p.Turn(card, channel, rounds[i]);
    }
    assert rounds[..|rounds|] == rounds;
  }

  // ---------------------------------------------------------------------
  // At the end of every round
  // ---------------------------------------------------------------------

  /** What stands after a round: nothing without a live card, else exactly this
      round's addresses in order, if the channel took them. */
  predicate Stands(up: seq<seq<Addr>>, card: Option<Card>, channel: SessionMemory.Channel, r: Round) {
    up == [] || (up == [Sort(r.addrs)] && Lan(channel) && Live(card, r.now))
  }

  lemma {:induction false} RoundEnds(card: Option<Card>, channel: SessionMemory.Channel, rounds: seq<Round>)
    ensures var p := Run(card, channel, rounds);
            && (p.advertised.Some? <==> p.up != [])
            && (p.advertised.Some? ==> p.up == [p.advertised.value])
            && (p.advertised.Some? ==> Lan(channel))
            && (rounds != [] ==> Stands(p.up, card, channel, rounds[|rounds| - 1]))
            && (rounds != [] && rounds[|rounds| - 1].lanTakes && Lan(channel) && Live(card, rounds[|rounds| - 1].now)
                ==> p.up == [Sort(rounds[|rounds| - 1].addrs)])
  {
    if rounds == [] {
    } else {
      RoundEnds(card, channel, rounds[..|rounds| - 1]);
    }
  }

  /** At the end of every round over any history: at most one registration
      stands; it carries exactly that round's addresses, sorted; and none stands
      for a card outside its window. */
  lemma OneTrueAdvertisement(card: Option<Card>, channel: SessionMemory.Channel, rounds: seq<Round>, r: Round)
    ensures var p := Run(card, channel, rounds + [r]);
            && |p.up| <= 1
            && (p.up != [] ==> p.advertised == Some(p.up[0]) && Sorted(p.up[0])
                               && multiset(p.up[0]) == multiset(r.addrs))
            && (p.up == [] <==> p.advertised.None?)
            && (p.up != [] ==> Live(card, r.now) && Lan(channel))
  {
    RoundEnds(card, channel, rounds + [r]);
    SortSorts(r.addrs);
  }

  /** And one stands exactly when the channel is on, the card is live, and the
      channel takes the record or carries these very addresses already. */
  lemma StandsExactlyWhen(card: Option<Card>, channel: SessionMemory.Channel, rounds: seq<Round>, r: Round)
    ensures Run(card, channel, rounds + [r]).up != []
       <==> && channel != SessionMemory.NostrOnly && Live(card, r.now)
            && (r.lanTakes || Run(card, channel, rounds).up == [Sort(r.addrs)])
  {
    assert (rounds + [r])[..|rounds|] == rounds;
    RoundEnds(card, channel, rounds);
  }

  // ---------------------------------------------------------------------
  // The two complaints
  // ---------------------------------------------------------------------

  /** Whether a live round left the record on no channel. */
  predicate Unpublished(p: Publisher, channel: SessionMemory.Channel, r: Round) {
    && (channel == SessionMemory.NostrOnly || p.up == [])
    && (channel == SessionMemory.LanOnly || !r.relayTakes)
  }

  /** Whether the last live round, if there was one, left the record on no
      channel. Rounds without a live card do not interrupt an outage. */
  function Down(card: Option<Card>, channel: SessionMemory.Channel, rounds: seq<Round>): bool {
    if rounds == [] then false
    else
      var r := rounds[|rounds| - 1];
      if Live(card, r.now) then Unpublished(Run(card, channel, rounds), channel, r)
      else Down(card, channel, rounds[..|rounds| - 1])
  }

  lemma {:induction false} ReportedIsDown(card: Option<Card>, channel: SessionMemory.Channel, rounds: seq<Round>)
    ensures Run(card, channel, rounds).reported <==> Down(card, channel, rounds)
  {
    if rounds == [] {
    } else {
      ReportedIsDown(card, channel, rounds[..|rounds| - 1]);
    }
  }

  function Count(said: seq<PublisherEvent>, e: PublisherEvent): nat {
    if said == [] then 0 else Count(said[..|said| - 1], e) + if said[|said| - 1] == e then 1 else 0
  }

  lemma CountSnoc(said: seq<PublisherEvent>, last: PublisherEvent, e: PublisherEvent)
    ensures Count(said + [last], e) == Count(said, e) + if last == e then 1 else 0
  {
    assert (said + [last])[..|said|] == said;
  }

  /** What a round complains of. */
  lemma StepSays(p: Publisher, card: Option<Card>, channel: SessionMemory.Channel, r: Round)
    ensures var q, w := Step(p, card, channel, r), Warn(p, card, r.now);
            q.said == w.said + (if Live(card, r.now) && q.reported && !p.reported then [NoChannel] else [])
  {
  }

  lemma StepCounts(p: Publisher, card: Option<Card>, channel: SessionMemory.Channel, r: Round, e: PublisherEvent)
    ensures var q := Step(p, card, channel, r);
            Count(q.said, e) == Count(p.said, e)
              + (if e.NoChannel? && Live(card, r.now) && q.reported && !p.reported then 1 else 0)
              + (if e.NotYetValid? && !p.warned && card.Some? && NotYetValidAt(card.value, r.now) then 1 else 0)
  {
    StepSays(p, card, channel, r);
    var q, w := Step(p, card, channel, r), Warn(p, card, r.now);
    if w.said != p.said {
      CountSnoc(p.said, NotYetValid, e);
    }
    if Live(card, r.now) && q.reported && !p.reported {
      CountSnoc(w.said, NoChannel, e);
    } else {
      assert q.said == w.said;
    }
  }

  /** The no-channel complaint is made exactly once per run of unpublished live
      rounds, when it begins. */
  lemma OutageReportedOnce(card: Option<Card>, channel: SessionMemory.Channel, rounds: seq<Round>, r: Round)
    ensures Count(Run(card, channel, rounds + [r]).said, NoChannel)
         == Count(Run(card, channel, rounds).said, NoChannel)
            + if Live(card, r.now) && Down(card, channel, rounds + [r]) && !Down(card, channel, rounds) then 1 else 0
  {
    var longer := rounds + [r];
    assert longer[..|rounds|] == rounds;
    StepCounts(Run(card, channel, rounds), card, channel, r, NoChannel);
    ReportedIsDown(card, channel, rounds);
    ReportedIsDown(card, channel, longer);
  }

  /** Whether some round found the card not yet valid. */
  predicate SeenEarly(card: Option<Card>, rounds: seq<Round>) {
    card.Some? && exists i :: 0 <= i < |rounds| && NotYetValidAt(card.value, rounds[i].now)
  }

  lemma SeenEarlySnoc(card: Option<Card>, rounds: seq<Round>, r: Round)
    ensures SeenEarly(card, rounds + [r])
       <==> SeenEarly(card, rounds) || (card.Some? && NotYetValidAt(card.value, r.now))
  {
    var longer := rounds + [r];
    assert longer[|rounds|] == r && forall i :: 0 <= i < |rounds| ==> longer[i] == rounds[i];
  }

  lemma WarnedStep(p: Publisher, card: Option<Card>, channel: SessionMemory.Channel, r: Round)
    ensures Step(p, card, channel, r).warned <==> p.warned || (card.Some? && NotYetValidAt(card.value, r.now))
  {
  }

  /** The wrong-clock complaint is made exactly once: in the first round that
      finds the card not yet valid. */
  lemma {:induction false} WrongClockReportedOnce(card: Option<Card>, channel: SessionMemory.Channel,
                                                  rounds: seq<Round>)
    ensures Count(Run(card, channel, rounds).said, NotYetValid) == (if SeenEarly(card, rounds) then 1 else 0)
    ensures Run(card, channel, rounds).warned <==> SeenEarly(card, rounds)
  {
    if rounds == [] {
    } else {
      var before, r := rounds[..|rounds| - 1], rounds[|rounds| - 1];
      WrongClockReportedOnce(card, channel, before);
      var p := Run(card, channel, before);
      assert before + [r] == rounds;
      SeenEarlySnoc(card, before, r);
      WarnedStep(p, card, channel, r);
      StepCounts(p, card, channel, r, NotYetValid);
    }
  }
}
