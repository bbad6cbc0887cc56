/**
  Whole runs of two clients on one channel: what is conserved, that it ends, and when the receiver's
  reading of the messages published makes a difference.
 */
module HandshakeRuns {
  import opened Basics
  import opened Trace
  import opened Wire
  import opened Reader
  import opened ClientSpec
  import opened PublishRoundTrip
  import opened Handshake
  import RL = RemainingLength

  // ---------------------------------------------------------------- runs

  datatype NetEvent =
    | Publishes(byFirst: bool, message: Message, clock: Ms)
    | Delivers(index: nat, clock: Ms)

  predicate Possible(net: Net, e: NetEvent) {
    match e
    case Publishes(_, m, _) => |m.topic| <= USHRT_MAX
    case Delivers(i, _) => i < |net.flight|
  }

  function NetStep(net: Net, e: NetEvent): Net
    requires Possible(net, e)
  {
    match e
    case Publishes(byFirst, m, clock) => PublishStep(net, byFirst, m, clock)
    case Delivers(i, clock) => DeliverStep(net, i, clock)
  }

  predicate PossibleRun(net: Net, events: seq<NetEvent>)
    decreases |events|
  {
    events == [] || (Possible(net, events[0]) && PossibleRun(NetStep(net, events[0]), events[1..]))
  }

  function NetRun(net: Net, events: seq<NetEvent>): Net
    requires PossibleRun(net, events)
    decreases |events|
  {
    if events == [] then net else NetRun(NetStep(net, events[0]), events[1..])
  }

  lemma {:induction false} RunKeepsInv(net: Net, events: seq<NetEvent>, before: multiset<Letter>)
    requires NetInv(net, before) && PossibleRun(net, events)
    ensures NetInv(NetRun(net, events), before)
    decreases |events|
  {
    hide NetInv, PublishStep, DeliverStep;
    if events != [] {
      match events[0] {
        case Publishes(byFirst, m, clock) => PublishKeepsInv(net, byFirst, m, clock, before);
        case Delivers(i, clock) => DeliverKeepsInv(net, i, clock, before);
      }
      RunKeepsInv(NetStep(net, events[0]), events[1..], before);
    }
  }

  /** Two endpoints in any state, nothing on the channel. */
  function Quiet(first: State, second: State): Net {
    Net(first, second, [], NOTHING, NOTHING, NOTHING)
  }

  lemma NoLetters(before: multiset<Letter>)
    ensures before + NOTHING.letters == before
  {
  }

  lemma NothingOwed(flight: seq<Item>)
    ensures flight == [] ==> Total(flight) == NOTHING
  {
  }

  lemma QuietInv(first: State, second: State)
    ensures NetInv(Quiet(first, second), Handed(first, second))
  {
    NothingOwed([]);
    NothingPlus(NOTHING);
    NoLetters(Handed(first, second));
    hide Handed, Total, Ledger.Plus;
  }

  lemma BooksBalance(net: Net, before: multiset<Letter>)
    requires NetInv(net, before)
    ensures net.read == Total(net.flight).Plus(net.settled)
    ensures Handed(net.first, net.second) == before + net.settled.letters
    ensures net.settled.deliveries + |net.flight| <= net.read.deliveries
    ensures net.flight == [] ==> net.settled == net.read
  {
    hide Handed, Owed;
    WeightLeft(net.flight);
    PlusDeliveries(Total(net.flight), net.settled);
    NothingOwed(net.flight);
    NothingPlus(net.settled);
    hide Total, Ledger.Plus;
  }

  /**
    Conservation and termination of the handshakes, for every run of publishes and deliveries in any
    order. What the published messages call for, as they are read, is what the packets in flight still
    call for plus what has been settled: each exchange of QoS 1 or 2, by direction and packet id, is in
    flight at some stage or was ended by its PUBACK or PUBCOMP; each message is in flight or was handed
    to the application, once; and the deliveries owed and made add up to 4, 2 or 1 for each message of
    QoS 2, 1 or 0, so no run delivers more. Every packet in flight is among those still owed; and once
    nothing is in flight, everything is settled.
   */
  lemma HandshakesConserveAndTerminate(first: State, second: State, events: seq<NetEvent>)
    ensures PossibleRun(Quiet(first, second), events) ==>
      var net := NetRun(Quiet(first, second), events);
      && net.read == Total(net.flight).Plus(net.settled)
      && Handed(net.first, net.second) == Handed(first, second) + net.settled.letters
      && net.settled.deliveries + |net.flight| <= net.read.deliveries
      && (net.flight == [] ==> net.settled == net.read)
  {
    hide NetInv, Handed, Possible, NetStep, Ledger.Plus, Total;
    if PossibleRun(Quiet(first, second), events) {
      QuietInv(first, second);
      RunKeepsInv(Quiet(first, second), events, Handed(first, second));
      BooksBalance(NetRun(Quiet(first, second), events), Handed(first, second));
    }
  }

  /** n deliveries, always of the packet sent longest ago. */
  function Drain(n: nat, clock: Ms): seq<NetEvent> {
    if n == 0 then [] else [Delivers(0, clock)] + Drain(n - 1, clock)
  }

  lemma DrainNone(net: Net, clock: Ms)
    ensures PossibleRun(net, Drain(0, clock)) && NetRun(net, Drain(0, clock)) == net
  {
  }

  lemma DrainOne(net: Net, n: nat, clock: Ms)
    requires n > 0 && net.flight != [] && PossibleRun(DeliverStep(net, 0, clock), Drain(n - 1, clock))
    ensures DeliverStep(net, 0, clock).read == net.read && DeliverStep(net, 0, clock).published == net.published
    ensures PossibleRun(net, Drain(n, clock))
    ensures NetRun(net, Drain(n, clock)) == NetRun(DeliverStep(net, 0, clock), Drain(n - 1, clock))
  {
    assert DeliverStep(net, 0, clock).read == net.read && DeliverStep(net, 0, clock).published == net.published;
    hide DeliverStep;
    assert Drain(n, clock)[0] == Delivers(0, clock) && Drain(n, clock)[1..] == Drain(n - 1, clock);
  }

  /**
    Every run can be completed: delivering the packets in the order they were sent, by exactly as many
    deliveries as are owed, empties the channel and settles everything.
   */
  lemma {:induction false} ChannelEmpties(net: Net, clock: Ms, before: multiset<Letter>)
    requires NetInv(net, before)
    ensures var n := Total(net.flight).deliveries;
      && PossibleRun(net, Drain(n, clock))
      && var after := NetRun(net, Drain(n, clock));
         after.flight == [] && after.settled == after.read == net.read && after.published == net.published
    decreases Total(net.flight).deliveries
  {
    hide NetInv, DeliverStep, Total, NetRun, PossibleRun, Drain, Handed;
    var n := Total(net.flight).deliveries;
    BooksBalance(net, before);
    NothingOwed(net.flight);
    WeightLeft(net.flight);
    if net.flight == [] {
      DrainNone(net, clock);
    } else {
      DeliverKeepsInv(net, 0, clock, before);
      ChannelEmpties(DeliverStep(net, 0, clock), clock, before);
      DrainOne(net, n, clock);
    }
  }

  // ---------------------------------------------------------------- as published

  /** A message that reaches the other side as it is. */
  predicate Publishable(m: Message)
    requires |m.topic| <= USHRT_MAX
  {
    |PublishBody(m)| <= RL.MAX_DECODABLE && Faithful(m)
  }

  /** A message that opens the exchange its QoS calls for: faithful, or unacknowledged and lost on the way. */
  predicate Kept(m: Message)
    requires |m.topic| <= USHRT_MAX
  {
    Publishable(m) || (!Tracked(m) && (|PublishBody(m)| > RL.MAX_DECODABLE || Dropped(m)))
  }

  lemma LettersOfOne(toSecond: bool, m: Message)
    ensures Letters(toSecond, [m]) == multiset{Letter(toSecond, m)}
  {
    assert [m][1..] == [];
  }

  /** A message that costs no more deliveries than its QoS calls for: it is faithful or does not get through. */
  predicate Bounded(m: Message)
    requires |m.topic| <= USHRT_MAX
  {
    Faithful(m) || |PublishBody(m)| > RL.MAX_DECODABLE || Dropped(m)
  }

  predicate SameExchanges(byFirst: bool, m: Message, r: Option<Message>) {
    Exchanges(byFirst, m) == if r.Some? then Exchanges(byFirst, r.value) else multiset{}
  }

  /** How a message is read, compared with how it was published. */
  lemma ReadAsPromised(byFirst: bool, m: Message)
    ensures var r := ReadAs(m);
      && (SameExchanges(byFirst, m, r) <==> Faithful(m) || (!Tracked(m) && Dropped(m)))
      && (r == Some(Expected(m)) <==> Faithful(m))
      && (Faithful(m) ==> MessageWeight(r.value) == MessageWeight(m))
      && (r.Some? ==> (MessageWeight(r.value) <= MessageWeight(m) <==> Faithful(m)))
      && (r.None? <==> Dropped(m))
  {
    var r := ReadAs(m);
    assert Tracked(m) ==> Exchange(byFirst, m.qos, m.packetId) in Exchanges(byFirst, m);
    assert r.Some? && Tracked(r.value) ==>
      Exchange(byFirst, r.value.qos, r.value.packetId) in Exchanges(byFirst, r.value);
  }

  lemma ArrivingRead(byFirst: bool, m: Message)
    requires |m.topic| <= USHRT_MAX && |PublishBody(m)| <= RL.MAX_DECODABLE
    ensures Total(Arriving(byFirst, m))
         == match ReadAs(m)
            case Some(r) => Ledger(Exchanges(byFirst, r), multiset{Letter(byFirst, r)}, MessageWeight(r))
            case None => Ledger(multiset{}, multiset{}, 1)
  {
    var item := Item(byFirst, Packet(Publish, PublishFlags(m), PublishBody(m)));
    PublishReadAs(m);
    OneDelivery(item.packet);
    hide ReceivePublish, PublishBody, PublishFlags, Deliveries, ReadAs, Exchanges;
    TotalOfOne(item);
    if ReadAs(m).Some? {
      LettersOfOne(byFirst, ReadAs(m).value);
    }
  }

  /** What a message calls for as it is read is what it calls for as it was published, by these conditions. */
  lemma ArrivingAsPromised(byFirst: bool, m: Message)
    requires |m.topic| <= USHRT_MAX
    ensures Total(Arriving(byFirst, m)).exchanges == Promised(byFirst, m).exchanges <==> Kept(m)
    ensures Total(Arriving(byFirst, m)) == Promised(byFirst, m) <==> Publishable(m)
    ensures Total(Arriving(byFirst, m)).deliveries <= Promised(byFirst, m).deliveries <==> Bounded(m)
  {
    assert Letter(byFirst, Expected(m)) in Promised(byFirst, m).letters;
    if |PublishBody(m)| <= RL.MAX_DECODABLE {
      ArrivingRead(byFirst, m);
      ReadAsPromised(byFirst, m);
      hide Arriving, Total, PublishBody, ReadAs, Dropped, Faithful, Expected, Exchanges;
      if ReadAs(m).Some? {
        assert Letter(byFirst, ReadAs(m).value) in multiset{Letter(byFirst, ReadAs(m).value)};
      }
    } else {
      hide PublishBody, Dropped, Faithful, Expected;
      assert Tracked(m) ==> Exchange(byFirst, m.qos, m.packetId) in Exchanges(byFirst, m);
    }
  }

  /** A run that publishes these messages only. */
  predicate Publishing(events: seq<NetEvent>, messages: set<Message>) {
    forall e | e in events :: e.Publishes? ==> e.message in messages
  }

  predicate Sendables(messages: set<Message>) {
    forall m | m in messages :: |m.topic| <= USHRT_MAX
  }

  /** Without a message that is read as something else, the two accounts agree. */
  lemma {:induction false} RunAsPublished(net: Net, events: seq<NetEvent>, messages: set<Message>)
    requires PossibleRun(net, events) && Publishing(events, messages) && Sendables(messages)
    ensures var after := NetRun(net, events);
      && ((forall m | m in messages :: Kept(m)) && net.published.exchanges == net.read.exchanges
          ==> after.published.exchanges == after.read.exchanges)
      && ((forall m | m in messages :: Publishable(m)) && net.published == net.read ==> after.published == after.read)
      && ((forall m | m in messages :: Bounded(m)) && net.read.deliveries <= net.published.deliveries
          ==> after.read.deliveries <= after.published.deliveries)
    decreases |events|
  {
    if events != [] {
      assert events[0] in events && forall e | e in events[1..] :: e in events;
      if events[0].Publishes? {
        var byFirst, m := events[0].byFirst, events[0].message;
        PublishedFlight(net, byFirst, m, events[0].clock);
        ArrivingAsPromised(byFirst, m);
      }
      hide Total, Promised, Arriving, Handle, Kept, Publishable, Bounded;
      RunAsPublished(NetStep(net, events[0]), events[1..], messages);
    }
  }

  /** The exchanges published are those in flight plus those ended by a PUBACK or PUBCOMP. */
  ghost predicate ConservedAsPublished(net: Net) {
    net.published.exchanges == Total(net.flight).exchanges + net.settled.exchanges
  }

  /** Moreover, every message is in flight or handed over as it was published, at the cost of its own QoS. */
  ghost predicate DeliveredAsPublished(net: Net) {
    net.published == Total(net.flight).Plus(net.settled)
  }

  /** The deliveries made, and at least one for each packet in flight, are within what the QoS calls for. */
  ghost predicate BoundedAsPublished(net: Net) {
    net.settled.deliveries + |net.flight| <= net.published.deliveries
  }

  /** A message published on a quiet channel. */
  lemma FirstPublish(first: State, second: State, m: Message, clock: Ms)
    requires |m.topic| <= USHRT_MAX
    ensures var net := PublishStep(Quiet(first, second), true, m, clock);
      && net.flight == Arriving(true, m) && net.settled == NOTHING
      && net.published == Promised(true, m) && net.read == Total(Arriving(true, m))
  {
    var quiet := Quiet(first, second);
    PublishedFlight(quiet, true, m, clock);
    var net := PublishStep(quiet, true, m, clock);
    assert net.published == NOTHING.Plus(Promised(true, m)) && net.settled == NOTHING;
    hide PublishStep, Total, Promised, Arriving;
    NothingPlus(Promised(true, m));
    NothingPlus(Total(Arriving(true, m)));
    assert [] + Arriving(true, m) == Arriving(true, m);
  }

  lemma OnePublish(first: State, second: State, m: Message)
    requires |m.topic| <= USHRT_MAX
    ensures PossibleRun(Quiet(first, second), [Publishes(true, m, 0)])
    ensures var net := NetRun(Quiet(first, second), [Publishes(true, m, 0)]);
      && (ConservedAsPublished(net) <==> Kept(m))
      && (DeliveredAsPublished(net) <==> Publishable(m))
  {
    hide PublishStep, Total, Promised, Arriving, Kept, Publishable;
    assert [Publishes(true, m, 0)][1..] == [];
    FirstPublish(first, second, m, 0);
    ArrivingAsPromised(true, m);
    PlusNothing(Total(Arriving(true, m)));
  }

  lemma RunAsPublishedBooks(first: State, second: State, events: seq<NetEvent>, messages: set<Message>)
    requires PossibleRun(Quiet(first, second), events) && Publishing(events, messages) && Sendables(messages)
    ensures var net := NetRun(Quiet(first, second), events);
      && ((forall m | m in messages :: Kept(m)) ==> ConservedAsPublished(net))
      && ((forall m | m in messages :: Publishable(m)) ==> DeliveredAsPublished(net))
      && ((forall m | m in messages :: Bounded(m)) ==> BoundedAsPublished(net))
  {
    hide NetRun, PossibleRun, Kept, Publishable, Bounded, Total;
    HandshakesConserveAndTerminate(first, second, events);
    RunAsPublished(Quiet(first, second), events, messages);
  }

  /**
    Exactly when the exchanges published are conserved in all runs that publish these messages: each of
    them is faithful and fits the decoder, or is not acknowledged and lost on the way.
   */
  lemma ConservedAsPublishedIff(first: State, second: State, messages: set<Message>)
    requires Sendables(messages)
    ensures (forall m | m in messages :: Kept(m)) <==>
      forall events | PossibleRun(Quiet(first, second), events) && Publishing(events, messages) ::
        ConservedAsPublished(NetRun(Quiet(first, second), events))
  {
    var start := Quiet(first, second);
    hide Kept, NetRun, PossibleRun, ConservedAsPublished, DeliveredAsPublished;
    if forall m | m in messages :: Kept(m) {
      forall events | PossibleRun(start, events) && Publishing(events, messages)
        ensures ConservedAsPublished(NetRun(start, events))
      {
        RunAsPublishedBooks(first, second, events, messages);
      }
    } else {
      var m :| m in messages && !Kept(m);
      OnePublish(first, second, m);
    }
  }

  /**
    Exactly when, moreover, the messages handed over are those published, each once, at the cost of their
    own QoS: all of them are faithful and fit the decoder.
   */
  lemma DeliveredAsPublishedIff(first: State, second: State, messages: set<Message>)
    requires Sendables(messages)
    ensures (forall m | m in messages :: Publishable(m)) <==>
      forall events | PossibleRun(Quiet(first, second), events) && Publishing(events, messages) ::
        DeliveredAsPublished(NetRun(Quiet(first, second), events))
  {
    var start := Quiet(first, second);
    hide Publishable, NetRun, PossibleRun, ConservedAsPublished, DeliveredAsPublished;
    if forall m | m in messages :: Publishable(m) {
      forall events | PossibleRun(start, events) && Publishing(events, messages)
        ensures DeliveredAsPublished(NetRun(start, events))
      {
        RunAsPublishedBooks(first, second, events, messages);
      }
    } else {
      var m :| m in messages && !Publishable(m);
      OnePublish(first, second, m);
    }
  }

  /** A single message, delivered to the end: everything it calls for as it is read has been settled. */
  lemma OneMessageSettled(first: State, second: State, m: Message, owed: Ledger, clock: Ms)
    requires |m.topic| <= USHRT_MAX && Total(Arriving(true, m)) == owed
    ensures var start := PublishStep(Quiet(first, second), true, m, clock);
      && PossibleRun(start, Drain(owed.deliveries, clock))
      && var after := NetRun(start, Drain(owed.deliveries, clock));
         after.flight == [] && after.settled == owed && after.published == Promised(true, m)
  {
    var quiet := Quiet(first, second);
    QuietInv(first, second);
    PublishKeepsInv(quiet, true, m, clock, Handed(first, second));
    FirstPublish(first, second, m, clock);
    hide PublishStep, NetInv, Total, Promised, Arriving, NetRun, PossibleRun;
    ChannelEmpties(PublishStep(quiet, true, m, clock), clock, Handed(first, second));
  }

  lemma {:induction false} DrainPublishesNothing(n: nat, clock: Ms)
    ensures forall e | e in Drain(n, clock) :: !e.Publishes?
  {
    if n > 0 {
      DrainPublishesNothing(n - 1, clock);
    }
  }

  /** Published and delivered to the end, a message that is not bounded costs too much. */
  lemma UnboundedRun(first: State, second: State, m: Message) returns (events: seq<NetEvent>)
    requires |m.topic| <= USHRT_MAX && !Bounded(m)
    ensures PossibleRun(Quiet(first, second), events) && Publishing(events, {m})
    ensures !BoundedAsPublished(NetRun(Quiet(first, second), events))
  {
    var n := Total(Arriving(true, m)).deliveries;
    events := [Publishes(true, m, 0)] + Drain(n, 0);
    assert events[1..] == Drain(n, 0);
    DrainPublishesNothing(n, 0);
    ArrivingAsPromised(true, m);
    OneMessageSettled(first, second, m, Total(Arriving(true, m)), 0);
    hide PublishStep, Total, Promised, Arriving, Drain, Bounded;
    assert PossibleRun(PublishStep(Quiet(first, second), true, m, 0), events[1..]);
  }

  /**
    Exactly when no run that publishes these messages makes more deliveries than their QoS calls for:
    each of them is faithful or does not get through.
   */
  lemma BoundedAsPublishedIff(first: State, second: State, messages: set<Message>)
    requires Sendables(messages)
    ensures (forall m | m in messages :: Bounded(m)) <==>
      forall events | PossibleRun(Quiet(first, second), events) && Publishing(events, messages) ::
        BoundedAsPublished(NetRun(Quiet(first, second), events))
  {
    var start := Quiet(first, second);
    hide Bounded, NetRun, PossibleRun, ConservedAsPublished, DeliveredAsPublished, BoundedAsPublished;
    if forall m | m in messages :: Bounded(m) {
      forall events | PossibleRun(start, events) && Publishing(events, messages)
        ensures BoundedAsPublished(NetRun(start, events))
      {
        RunAsPublishedBooks(first, second, events, messages);
      }
    } else {
      var m :| m in messages && !Bounded(m);
      var events := UnboundedRun(first, second, m);
    }
  }

  /**
    A message that reaches the other side as it is, between two clients in any state: for QoS 0, 1 and 2 it
    takes one, two and four deliveries, ends with the acknowledgement of its packet id, and is handed over.
   */
  lemma FaithfulMessageRun(first: State, second: State, m: Message, clock: Ms)
    requires |m.topic| <= USHRT_MAX && Publishable(m)
    ensures var n := if m.qos == AtMostOnce then 1 else if m.qos == AtLeastOnce then 2 else 4;
      var start := PublishStep(Quiet(first, second), true, m, clock);
      && PossibleRun(start, Drain(n, clock))
      && var settled := NetRun(start, Drain(n, clock)).settled;
         && settled.deliveries == n
         && settled.exchanges == (if m.qos == AtMostOnce then multiset{}
                                  else multiset{Exchange(true, m.qos, m.packetId)})
         && settled.letters == multiset{Letter(true, if m.qos == AtMostOnce then m.(packetId := 0) else m)}
  {
    ArrivingAsPromised(true, m);
    hide PublishStep, NetRun, PossibleRun, Drain, Arriving, Total, PublishBody;
    OneMessageSettled(first, second, m, Promised(true, m), clock);
  }

  /** What a retained QoS 0 message of the standard calls for, and what it is taken to call for. */
  lemma RetainedCalls()
    ensures var m := Message([0x61], AtMostOnce, false, true, 0, [0, 7, 9]);
      && Promised(true, m).exchanges == multiset{} && Promised(true, m).deliveries == 1
      && Total(Arriving(true, m))
         == Ledger(multiset{Exchange(true, ExactlyOnce, 7)},
                   multiset{Letter(true, Message([0x61], ExactlyOnce, false, true, 7, [9]))}, 4)
  {
    var m := Message([0x61], AtMostOnce, false, true, 0, [0, 7, 9]);
    assert |PublishBody(m)| == 6;
    RetainedMessageMisread();
    PublishReadAs(m);
    hide PublishBody, PublishFlags, ReceivePublish, ReadAs, Total, Arriving;
    ArrivingRead(true, m);
  }

  /**
    That message between two clients in any state: four deliveries instead of one, and the publisher is
    told of a PUBREC and a PUBCOMP for a packet id it never used.
   */
  lemma RetainedMessageRun(first: State, second: State, clock: Ms)
    ensures var m := Message([0x61], AtMostOnce, false, true, 0, [0, 7, 9]);
      var start := PublishStep(Quiet(first, second), true, m, clock);
      && PossibleRun(start, Drain(4, clock))
      && var after := NetRun(start, Drain(4, clock));
         && after.flight == []
         && after.published.exchanges == multiset{} && after.published.deliveries == 1
         && after.settled.exchanges == multiset{Exchange(true, ExactlyOnce, 7)} && after.settled.deliveries == 4
         && after.settled.letters == multiset{Letter(true, Message([0x61], ExactlyOnce, false, true, 7, [9]))}
  {
    var m := Message([0x61], AtMostOnce, false, true, 0, [0, 7, 9]);
    hide PublishStep, NetRun, PossibleRun, Drain, Arriving, Total, Promised;
    RetainedCalls();
    OneMessageSettled(first, second, m, Total(Arriving(true, m)), clock);
  }
}
