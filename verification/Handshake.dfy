/**
  Two clients joined by a lossless channel that delivers in any order, acknowledging
  synchronously. What a delivery puts back on the channel is computed by the client's own
  handler and its own wire bytes, decoded by the other side's codec.
 */
module Handshake {
  import opened Basics
  import opened Trace
  import opened Wire
  import opened Decoder
  import opened Reader
  import opened ClientSpec
  import opened Framing
  import opened PublishRoundTrip
  import opened EndToEnd
  import RL = RemainingLength

  /** A packet on its way, to the second endpoint or to the first. */
  datatype Item = Item(toSecond: bool, packet: Packet)

  /** An exchange of QoS 1 or 2: who published (true for the first endpoint), how, and under which packet id. */
  datatype Exchange = Exchange(byFirst: bool, qos: QosValue, packetId: uint16)

  /** A message for the application of one endpoint. */
  datatype Letter = Letter(toSecond: bool, message: Message)

  /** Acknowledged exchanges, messages for the applications, and a number of deliveries. */
  datatype Ledger = Ledger(exchanges: multiset<Exchange>, letters: multiset<Letter>, deliveries: nat) {
    function Plus(other: Ledger): Ledger {
      Ledger(exchanges + other.exchanges, letters + other.letters, deliveries + other.deliveries)
    }
  }

  lemma PlusSwap(a: Ledger, b: Ledger, c: Ledger)
    ensures a.Plus(b).Plus(c) == a.Plus(c).Plus(b) == a.Plus(c.Plus(b))
  {
  }

  lemma PlusAssociates(a: Ledger, b: Ledger, c: Ledger)
    ensures a.Plus(b).Plus(c) == a.Plus(b.Plus(c))
  {
  }

  lemma PlusDeliveries(a: Ledger, b: Ledger)
    ensures a.Plus(b).deliveries == a.deliveries + b.deliveries
  {
  }

  lemma PlusLetters(a: Ledger, b: Ledger)
    ensures a.Plus(b).letters == a.letters + b.letters
  {
  }

  const NOTHING := Ledger(multiset{}, multiset{}, 0)

  lemma NothingPlus(a: Ledger)
    ensures NOTHING.Plus(a) == a
  {
  }

  lemma PlusNothing(a: Ledger)
    ensures a.Plus(NOTHING) == a
  {
  }

  /**
    The two endpoints, the packets between them, and three accounts: what the messages published call
    for, what they call for as the receiver's codec and parser read them, and what has been settled.
   */
  datatype Net = Net(
    first: State,
    second: State,
    flight: seq<Item>,
    published: Ledger,
    read: Ledger,
    settled: Ledger)

  // ---------------------------------------------------------------- packets out of a log

  /** The packets a receiver decodes from the sends in a stretch of log. */
  function Arrivals(log: Log): seq<Packet> {
    if log == [] then []
    else (if log[0].Sent? then Feed(FRESH, log[0].wire).packets else []) + Arrivals(log[1..])
  }

  function ItemsTo(toSecond: bool, packets: seq<Packet>): seq<Item> {
    seq(|packets|, i requires 0 <= i < |packets| => Item(toSecond, packets[i]))
  }

  // ---------------------------------------------------------------- accounts

  /** Messages that are acknowledged. */
  predicate Tracked(m: Message) { m.qos == AtLeastOnce || m.qos == ExactlyOnce }

  /** How many deliveries a message costs. */
  function MessageWeight(m: Message): nat {
    match m.qos case ExactlyOnce => 4 case AtLeastOnce => 2 case _ => 1
  }

  function Exchanges(byFirst: bool, m: Message): multiset<Exchange> {
    if Tracked(m) then multiset{Exchange(byFirst, m.qos, m.packetId)} else multiset{}
  }

  function Letters(toSecond: bool, messages: seq<Message>): multiset<Letter> {
    if messages == [] then multiset{} else multiset{Letter(toSecond, messages[0])} + Letters(toSecond, messages[1..])
  }

  /** What a message calls for by its own QoS: its exchange, and that it arrives as it is. */
  function Promised(byFirst: bool, m: Message): Ledger {
    Ledger(Exchanges(byFirst, m), multiset{Letter(byFirst, Expected(m))}, MessageWeight(m))
  }

  function Id(p: Packet): uint16 {
    if |p.body| >= 2 then FromU16(p.body[0], p.body[1]) else 0
  }

  /** The exchange a packet in flight belongs to. */
  function ExchangesOf(item: Item): multiset<Exchange> {
    var p := item.packet;
    match p.kind
    case Publish =>
      (match ReceivePublish(p.body, p.flags)
       case Some(m) => Exchanges(item.toSecond, m)
       case None => multiset{})
    case PubAck => multiset{Exchange(!item.toSecond, AtLeastOnce, Id(p))}
    case PubRec => multiset{Exchange(!item.toSecond, ExactlyOnce, Id(p))}
    case PubRel => multiset{Exchange(item.toSecond, ExactlyOnce, Id(p))}
    case PubComp => multiset{Exchange(!item.toSecond, ExactlyOnce, Id(p))}
    case _ => multiset{}
  }

  /** The deliveries a packet in flight still costs, its own included. */
  function Weight(p: Packet): (w: nat)
    ensures w > 0
  {
    match p.kind
    case Publish =>
      (match ReceivePublish(p.body, p.flags)
       case Some(m) => MessageWeight(m)
       case None => 1)
    case PubRec => 3
    case PubRel => 2
    case _ => 1
  }

  /** The messages a packet hands to its receiver. */
  function LettersOf(item: Item): multiset<Letter> {
    Letters(item.toSecond, Deliveries([item.packet]))
  }

  /** What a packet in flight still calls for. */
  function Owed(item: Item): Ledger {
    Ledger(ExchangesOf(item), LettersOf(item), Weight(item.packet))
  }

  function Total(flight: seq<Item>): Ledger {
    if flight == [] then NOTHING else Owed(flight[0]).Plus(Total(flight[1..]))
  }

  /** The exchange that a packet completes when it arrives: PUBACK for QoS 1, PUBCOMP for QoS 2. */
  function Completes(item: Item): multiset<Exchange> {
    var byFirst, id := !item.toSecond, Id(item.packet);
    match item.packet.kind
    case PubAck => multiset{Exchange(byFirst, AtLeastOnce, id)}
    case PubComp => multiset{Exchange(byFirst, ExactlyOnce, id)}
    case _ => multiset{}
  }

  /** What its delivery settles. */
  function Settles(item: Item): Ledger {
    Ledger(Completes(item), LettersOf(item), 1)
  }

  lemma {:induction false} LettersAppend(toSecond: bool, a: seq<Message>, b: seq<Message>)
    ensures Letters(toSecond, a + b) == Letters(toSecond, a) + Letters(toSecond, b)
  {
    if a == [] {
      assert a + b == b;
    } else {
      assert (a + b)[1..] == a[1..] + b;
      LettersAppend(toSecond, a[1..], b);
    }
  }

  lemma {:induction false} TotalAppend(a: seq<Item>, b: seq<Item>)
    ensures Total(a + b) == Total(a).Plus(Total(b))
  {
    hide Owed;
    if a == [] {
      assert a + b == b;
    } else {
      assert (a + b)[1..] == a[1..] + b;
      TotalAppend(a[1..], b);
      PlusAssociates(Owed(a[0]), Total(a[1..]), Total(b));
    }
  }

  lemma TotalOfOne(item: Item)
    ensures Total([item]) == Owed(item)
  {
    hide Owed;
    assert [item][1..] == [];
  }

  lemma RemoveItem(flight: seq<Item>, i: nat)
    requires i < |flight|
    ensures Total(flight) == Total(flight[..i] + flight[i + 1..]).Plus(Owed(flight[i]))
  {
    hide Owed, Ledger.Plus;
    var before, after := flight[..i], flight[i + 1..];
    TotalAppend(before, [flight[i]] + after);
    assert flight == before + ([flight[i]] + after);
    TotalAppend(before, after);
    assert ([flight[i]] + after)[1..] == after;
    PlusSwap(Total(before), Total(after), Owed(flight[i]));
  }

  /** Every packet in flight still owes at least its own delivery. */
  lemma {:induction false} WeightLeft(flight: seq<Item>)
    ensures Total(flight).deliveries >= |flight|
  {
    hide ExchangesOf, LettersOf;
    if flight != [] {
      WeightLeft(flight[1..]);
    }
  }

  // ---------------------------------------------------------------- steps

  function Accepting(clock: Ms): SendResult { SendResult(true, Some(clock)) }

  function AckingEnv(clock: Ms): ReceiveEnv { ReceiveEnv(Accepting(clock), true, None) }

  function NewOutputs(s: State, t: State): Log {
    if |s.log| <= |t.log| then t.log[|s.log|..] else []
  }

  function PublishStep(net: Net, byFirst: bool, m: Message, clock: Ms): Net
    requires |m.topic| <= USHRT_MAX
  {
    var s := if byFirst then net.first else net.second;
    var t := Handle(s, PublishCall(Some(PublishWire(m)), Accepting(clock)));
    var items := ItemsTo(byFirst, Arrivals(NewOutputs(s, t)));
    (if byFirst then net.(first := t) else net.(second := t))
      .(flight := net.flight + items,
        published := net.published.Plus(Promised(byFirst, m)),
        read := net.read.Plus(Total(items)))
  }

  function DeliverStep(net: Net, i: nat, clock: Ms): Net
    requires i < |net.flight|
  {
    var item := net.flight[i];
    var s := if item.toSecond then net.second else net.first;
    var t := Handle(s, PacketArrived(item.packet, AckingEnv(clock)));
    var replies := ItemsTo(!item.toSecond, Arrivals(NewOutputs(s, t)));
    (if item.toSecond then net.(second := t) else net.(first := t))
      .(flight := net.flight[..i] + net.flight[i + 1..] + replies,
        settled := net.settled.Plus(Settles(item)))
  }

  // ---------------------------------------------------------------- what a client answers

  /** The packets that occur: PUBLISHes, parseable or not, and two-byte acknowledgements. */
  predicate Expectable(p: Packet) {
    match p.kind
    case Publish => true
    case PubAck => |p.body| == 2
    case PubRec => |p.body| == 2
    case PubRel => |p.body| == 2
    case PubComp => |p.body| == 2
    case _ => false
  }

  /** What a packet is answered with: the reply rules of sections 4.3.2 and 4.3.3 of MQTT 3.1.1. */
  function Reply(p: Packet): Option<Outgoing> {
    match p.kind
    case Publish =>
      (match ReceivePublish(p.body, p.flags)
       case Some(m) => if m.qos == ExactlyOnce then Some(PubRecPacket(m.packetId))
                       else if m.qos == AtLeastOnce then Some(PubAckPacket(m.packetId)) else None
       case None => None)
    case PubRec => Some(PubRelPacket(Id(p)))
    case PubRel => Some(PubCompPacket(Id(p)))
    case _ => None
  }

  lemma ArrivalsOfCallback(o: Output)
    requires !o.Sent?
    ensures Arrivals([o]) == []
  {
    assert [o][1..] == [];
  }

  lemma ArrivalsOfReply(o: Output, r: Sendable, kind: PacketType, at: Option<Ms>)
    requires !o.Sent?
    ensures Arrivals([o, Output.Sent(kind, Bytes(r), at)]) == [Framing.Sent(r)]
  {
    hide Feed, Bytes;
    var sent := Output.Sent(kind, Bytes(r), at);
    FeedBytes(r);
    assert [o, sent][1..] == [sent] && [sent][1..] == [];
    assert Arrivals([sent]) == [Framing.Sent(r)] + [];
  }

  /** A PUBLISH that the client can parse, or an acknowledgement. */
  predicate Readable(p: Packet) {
    Expectable(p) && (p.kind == Publish ==> ReceivePublish(p.body, p.flags).Some?)
  }

  /** The callback that a packet causes, and the reply's bytes if there is one. */
  function PacketOutputs(o: Output, p: Packet, clock: Ms): Log
    requires Expectable(p)
  {
    match Reply(p)
    case None => [o]
    case Some(r) => [o, Output.Sent(Framing.Sent(r).kind, Bytes(r), Some(clock))]
  }

  lemma LogOfReply(s: State, o: Output, kind: PacketType, flags: nat, packetId: uint16, clock: Ms)
    requires kind in {PubAck, PubRec, PubRel, PubComp} && flags < 16
    ensures SendReply(Emit(s, o), kind, flags, packetId, AckingEnv(clock)).log
         == s.log + [o, Output.Sent(kind, ReplyWire(kind, flags, packetId), Some(clock))]
  {
    hide HistoryOf, Ordered, OnePing, InOrder, Observe, ReplyWire, SetError;
    var sent := Output.Sent(kind, ReplyWire(kind, flags, packetId), Some(clock));
    assert s.log + [o] + [sent] == s.log + [o, sent];
  }

  lemma LogOfPublish(s: State, p: Packet, clock: Ms)
    requires Readable(p) && p.kind == Publish
    ensures Handle(s, PacketArrived(p, AckingEnv(clock))).log
         == s.log + PacketOutputs(MessageReceived(ReceivePublish(p.body, p.flags).value), p, clock)
  {
    DeliveryCondition(p.body, p.flags);
    hide HistoryOf, Ordered, OnePing, InOrder, Observe, ReceivePublish, ReplyWire, SetError, SendReply;
    var m := ReceivePublish(p.body, p.flags).value;
    LogOfReply(s, MessageReceived(m), PubRec, 0, m.packetId, clock);
    LogOfReply(s, MessageReceived(m), PubAck, 0, m.packetId, clock);
  }

  lemma LogOfAck(s: State, p: Packet, clock: Ms)
    requires Expectable(p) && p.kind != Publish
    ensures Handle(s, PacketArrived(p, AckingEnv(clock))).log
         == s.log + PacketOutputs(Acked(p.kind, Id(p)), p, clock)
  {
    hide HistoryOf, Ordered, OnePing, InOrder, Observe, ReplyWire, SetError, SendReply;
    LogOfReply(s, Acked(p.kind, Id(p)), PubRel, 2, Id(p), clock);
    LogOfReply(s, Acked(p.kind, Id(p)), PubComp, 0, Id(p), clock);
  }

  lemma ArrivalsOfOutputs(o: Output, p: Packet, clock: Ms)
    requires Expectable(p) && !o.Sent?
    ensures Arrivals(PacketOutputs(o, p, clock))
         == match Reply(p) case None => [] case Some(r) => [Framing.Sent(r)]
  {
    hide Arrivals, Bytes, Expectable;
    match Reply(p) {
      case None => ArrivalsOfCallback(o);
      case Some(r) => ArrivalsOfReply(o, r, Framing.Sent(r).kind, Some(clock));
    }
  }

  /** The callback an expectable packet causes. */
  function Callback(p: Packet): (o: Output)
    requires Readable(p)
    ensures !o.Sent?
  {
    if p.kind == Publish then MessageReceived(ReceivePublish(p.body, p.flags).value) else Acked(p.kind, Id(p))
  }

  /** From s to t nothing is sent. */
  predicate Silent(s: State, t: State) {
    && |s.log| <= |t.log| && t.log[..|s.log|] == s.log
    && forall i | |s.log| <= i < |t.log| :: !t.log[i].Sent?
  }

  lemma SilentTwice(a: State, b: State, c: State)
    requires Silent(a, b) && Silent(b, c)
    ensures Silent(a, c)
  {
    assert c.log[..|b.log|][..|a.log|] == c.log[..|a.log|];
    forall i | |a.log| <= i < |b.log| ensures !c.log[i].Sent? {
      assert c.log[..|b.log|][i] == c.log[i];
    }
  }

  lemma ErrorIsSilent(s: State, e: ErrorKind, closing: Closing)
    ensures Silent(s, SetError(s, e, closing))
  {
    hide HistoryOf, Ordered, OnePing, InOrder, Observe;
    var s1 := if s.errorCb then Emit(s, ErrorReported(e)) else s;
    var s2 := Emit(s1, CloseRequested);
    assert Silent(s, s1) && Silent(s1, s2) && Silent(s2, OnConnectionClosed(s2)) && Silent(s1, NotifyDisconnect(s1));
    SilentTwice(s1, s2, OnConnectionClosed(s2));
    SilentTwice(s, s1, CloseConnection(s1, closing));
  }

  lemma {:induction false} ArrivalsOfSilence(log: Log)
    requires forall o | o in log :: !o.Sent?
    ensures Arrivals(log) == []
  {
    if log != [] {
      assert log[0] in log && forall o | o in log[1..] :: o in log;
      ArrivalsOfSilence(log[1..]);
    }
  }

  /** A PUBLISH that cannot be parsed is not answered. */
  lemma UnreadableUnanswered(s: State, p: Packet, clock: Ms)
    requires p.kind == Publish && ReceivePublish(p.body, p.flags).None?
    ensures Arrivals(NewOutputs(s, Handle(s, PacketArrived(p, AckingEnv(clock))))) == []
  {
    hide Arrivals, SetError, ReceivePublish;
    ErrorIsSilent(s, ParseError, None);
    ArrivalsOfSilence(NewOutputs(s, Handle(s, PacketArrived(p, AckingEnv(clock)))));
  }

  lemma ReadablesAnswered(s: State, p: Packet, clock: Ms)
    requires Readable(p)
    ensures var t := Handle(s, PacketArrived(p, AckingEnv(clock)));
            Arrivals(NewOutputs(s, t)) == match Reply(p) case None => [] case Some(r) => [Framing.Sent(r)]
  {
    var t, o := Handle(s, PacketArrived(p, AckingEnv(clock))), Callback(p);
    assert t.log == s.log + PacketOutputs(o, p, clock) by {
      if p.kind == Publish {
        LogOfPublish(s, p, clock);
      } else {
        LogOfAck(s, p, clock);
      }
    }
    hide Handle, Arrivals, PacketOutputs, Reply, Expectable;
    assert t.log[|s.log|..] == PacketOutputs(o, p, clock);
    ArrivalsOfOutputs(o, p, clock);
  }

  /**
    The client's handler answers every expectable packet by these rules: on its way through the
    codec of the other side the reply is one packet, with the same packet id.
   */
  lemma ClientFollowsReplyRules(s: State, p: Packet, clock: Ms)
    requires Expectable(p)
    ensures var t := Handle(s, PacketArrived(p, AckingEnv(clock)));
            Arrivals(NewOutputs(s, t)) == match Reply(p) case None => [] case Some(r) => [Framing.Sent(r)]
  {
    if Readable(p) {
      ReadablesAnswered(s, p, clock);
    } else {
      UnreadableUnanswered(s, p, clock);
    }
  }

  /** The reply as a packet on the channel. */
  function Replies(item: Item): seq<Item>
    requires Expectable(item.packet)
  {
    match Reply(item.packet)
    case None => []
    case Some(r) => [Item(!item.toSecond, Framing.Sent(r))]
  }

  lemma AcksHandNothing(item: Item)
    requires item.packet.kind != Publish
    ensures LettersOf(item) == multiset{}
  {
    assert [item.packet][1..] == [];
    assert Deliveries([item.packet]) == [];
  }

  lemma PublishAdvances(item: Item)
    requires item.packet.kind == Publish
    ensures Replies(item) == [] ==> ExchangesOf(item) == multiset{} && Weight(item.packet) == 1
    ensures Replies(item) != [] ==>
      var next := Replies(item)[0];
      && |Replies(item)| == 1 && (next.packet.kind == PubAck || next.packet.kind == PubRec) && |next.packet.body| == 2
      && Weight(next.packet) + 1 == Weight(item.packet) && ExchangesOf(next) == ExchangesOf(item)
  {
    hide ReceivePublish, FromU16;
    if Reply(item.packet).Some? {
      U16RoundTrip(Reply(item.packet).value.packetId);
    }
  }

  /** A reply carries the same exchange one step on; only a PUBACK or PUBCOMP ends one without a reply. */
  lemma ExchangeAdvances(item: Item)
    requires Expectable(item.packet)
    ensures |Replies(item)| <= 1
    ensures Replies(item) != [] ==>
      var next := Replies(item)[0];
      && Expectable(next.packet) && next.packet.kind != Publish && Completes(item) == multiset{}
      && Weight(next.packet) + 1 == Weight(item.packet)
      && ExchangesOf(next) == ExchangesOf(item)
    ensures Replies(item) == [] ==>
      Weight(item.packet) == 1 && Completes(item) == ExchangesOf(item)
  {
    hide ReceivePublish, Exchanges, FromU16;
    if item.packet.kind == Publish {
      PublishAdvances(item);
    } else if Reply(item.packet).Some? {
      U16RoundTrip(Reply(item.packet).value.packetId);
    }
  }

  lemma ReplyCarries(exchanges: multiset<Exchange>, letters: multiset<Letter>, deliveries: nat)
    ensures Ledger(exchanges, multiset{}, deliveries).Plus(Ledger(multiset{}, letters, 1))
         == Ledger(exchanges, letters, deliveries + 1)
  {
  }

  /** What a packet calls for is what its delivery settles and what the reply calls for. */
  lemma ReplyAdvances(item: Item)
    requires Expectable(item.packet)
    ensures forall next | next in Replies(item) :: Expectable(next.packet)
    ensures Owed(item) == Total(Replies(item)).Plus(Settles(item))
  {
    ExchangeAdvances(item);
    hide LettersOf, ExchangesOf, Completes, Weight, Replies, Expectable;
    if Replies(item) == [] {
      NothingPlus(Settles(item));
    } else {
      var next := Replies(item)[0];
      assert Replies(item) == [next];
      AcksHandNothing(next);
      TotalOfOne(next);
      hide Total;
      ReplyCarries(ExchangesOf(item), LettersOf(item), Weight(next.packet));
    }
  }

  // ---------------------------------------------------------------- the books

  /** The messages the two applications have been given. */
  function Handed(first: State, second: State): multiset<Letter> {
    Letters(false, Received(first)) + Letters(true, Received(second))
  }

  /** The accounts balance, and the messages settled are those handed over since `before`. */
  ghost predicate NetInv(net: Net, before: multiset<Letter>) {
    && (forall item | item in net.flight :: Expectable(item.packet))
    && net.read == Total(net.flight).Plus(net.settled)
    && Handed(net.first, net.second) == before + net.settled.letters
  }

  /** What a delivery does to the channel. */
  lemma DeliveredFlight(net: Net, i: nat, clock: Ms)
    requires i < |net.flight| && Expectable(net.flight[i].packet)
    ensures DeliverStep(net, i, clock).flight == net.flight[..i] + net.flight[i + 1..] + Replies(net.flight[i])
  {
    hide Handle, Arrivals, Expectable, Settles;
    var item := net.flight[i];
    ClientFollowsReplyRules(if item.toSecond then net.second else net.first, item.packet, clock);
    if Reply(item.packet).Some? {
      var r := Framing.Sent(Reply(item.packet).value);
      assert ItemsTo(!item.toSecond, [r]) == [Item(!item.toSecond, r)];
    } else {
      assert ItemsTo(!item.toSecond, []) == [];
    }
  }

  /** What a delivery hands to the application. */
  lemma DeliveredLetters(net: Net, i: nat, clock: Ms)
    requires i < |net.flight|
    ensures var after := DeliverStep(net, i, clock);
            Handed(after.first, after.second) == Handed(net.first, net.second) + LettersOf(net.flight[i])
  {
    hide Received, OnPacket, Arrivals, Deliveries, Letters, Settles;
    var item := net.flight[i];
    var s := if item.toSecond then net.second else net.first;
    PacketGives(s, item.packet, AckingEnv(clock));
    LettersAppend(item.toSecond, Received(s), Deliveries([item.packet]));
  }

  lemma BooksAfterDelivery(rest: Ledger, replies: Ledger, settles: Ledger, settled: Ledger)
    ensures rest.Plus(replies.Plus(settles)).Plus(settled) == rest.Plus(replies).Plus(settled.Plus(settles))
  {
    hide Ledger.Plus;
    PlusAssociates(rest, replies, settles);
    PlusSwap(rest.Plus(replies), settles, settled);
  }

  /** What a delivery does to what the channel owes. */
  lemma DeliveredSum(net: Net, i: nat, clock: Ms)
    requires i < |net.flight| && forall item | item in net.flight :: Expectable(item.packet)
    ensures var after, item := DeliverStep(net, i, clock).flight, net.flight[i];
      && (forall x | x in after :: Expectable(x.packet))
      && Total(net.flight).Plus(net.settled) == Total(after).Plus(net.settled.Plus(Settles(item)))
      && Total(after).deliveries + 1 == Total(net.flight).deliveries
  {
    var item := net.flight[i];
    assert item in net.flight;
    DeliveredFlight(net, i, clock);
    hide DeliverStep, Expectable, Replies, Owed, Total;
    ReplyAdvances(item);
    RemoveItem(net.flight, i);
    var rest, replies := net.flight[..i] + net.flight[i + 1..], Replies(item);
    TotalAppend(rest, replies);
    assert Settles(item).deliveries == 1;
    hide Settles;
    PlusDeliveries(Total(rest), Total(replies));
    PlusDeliveries(Total(rest), Owed(item));
    PlusDeliveries(Total(replies), Settles(item));
    hide Ledger.Plus;
    BooksAfterDelivery(Total(rest), Total(replies), Settles(item), net.settled);
  }

  /** Every delivery settles exactly its part, keeps the books, and lowers what is owed by one delivery. */
  lemma DeliverKeepsInv(net: Net, i: nat, clock: Ms, before: multiset<Letter>)
    requires NetInv(net, before) && i < |net.flight|
    ensures NetInv(DeliverStep(net, i, clock), before)
    ensures Total(DeliverStep(net, i, clock).flight).deliveries + 1 == Total(net.flight).deliveries
  {
    var item := net.flight[i];
    var after := DeliverStep(net, i, clock);
    assert after.read == net.read && after.settled == net.settled.Plus(Settles(item));
    hide DeliverStep, Expectable, Replies, Owed, Settles, Handed, Total;
    DeliveredSum(net, i, clock);
    hide Ledger.Plus;
    DeliveredLetters(net, i, clock);
    PlusLetters(net.settled, Settles(item));
  }

  /** What a published message puts on the channel: one PUBLISH, or nothing when the decoder refuses it. */
  function Arriving(byFirst: bool, m: Message): seq<Item>
    requires |m.topic| <= USHRT_MAX
  {
    if |PublishBody(m)| > RL.MAX_DECODABLE then []
    else [Item(byFirst, Packet(Publish, PublishFlags(m), PublishBody(m)))]
  }

  lemma WireArrives(m: Message)
    requires |m.topic| <= USHRT_MAX
    ensures Feed(FRESH, PublishWire(m)).packets
         == if |PublishBody(m)| <= RL.MAX_DECODABLE then [Packet(Publish, PublishFlags(m), PublishBody(m))] else []
  {
    if |PublishBody(m)| <= RL.MAX_DECODABLE {
      PublishFrameDecodes(m);
    } else {
      LongPublishRefused(m);
    }
  }

  lemma PublishedFlight(net: Net, byFirst: bool, m: Message, clock: Ms)
    requires |m.topic| <= USHRT_MAX
    ensures PublishStep(net, byFirst, m, clock).flight == net.flight + Arriving(byFirst, m)
    ensures PublishStep(net, byFirst, m, clock).read == net.read.Plus(Total(Arriving(byFirst, m)))
  {
    hide HistoryOf, Ordered, OnePing, InOrder, Observe, Feed, PublishWire, PublishBody, Promised, Total;
    var s := if byFirst then net.first else net.second;
    var t := Handle(s, PublishCall(Some(PublishWire(m)), Accepting(clock)));
    var sent := Output.Sent(Publish, PublishWire(m), Some(clock));
    assert t.log == s.log + [sent];
    WireArrives(m);
    hide Handle;
    assert t.log[|s.log|..] == [sent];
    assert [sent][1..] == [];
    var packets := Feed(FRESH, PublishWire(m)).packets;
    assert Arrivals([sent]) == packets + [];
    assert Arrivals(NewOutputs(s, t)) == packets;
    assert ItemsTo(byFirst, packets) == Arriving(byFirst, m);
  }

  lemma SameReceived(s: State, t: State)
    requires s.log == t.log
    ensures Received(s) == Received(t)
  {
  }

  lemma PublishedLetters(net: Net, byFirst: bool, m: Message, clock: Ms)
    requires |m.topic| <= USHRT_MAX
    ensures var after := PublishStep(net, byFirst, m, clock);
            Handed(after.first, after.second) == Handed(net.first, net.second)
  {
    hide Received, SendPacket, Arrivals, Letters, Promised, Total, PublishWire;
    var s := if byFirst then net.first else net.second;
    SendGivesNone(s.(packetState := PacketType.Publish), PacketType.Publish, PublishWire(m), Accepting(clock));
    SameReceived(s, s.(packetState := PacketType.Publish));
  }

  lemma ArrivingExpectable(byFirst: bool, m: Message)
    requires |m.topic| <= USHRT_MAX
    ensures forall item | item in Arriving(byFirst, m) :: Expectable(item.packet)
  {
  }

  lemma PublishKeepsInv(net: Net, byFirst: bool, m: Message, clock: Ms, before: multiset<Letter>)
    requires NetInv(net, before) && |m.topic| <= USHRT_MAX
    ensures NetInv(PublishStep(net, byFirst, m, clock), before)
  {
    assert PublishStep(net, byFirst, m, clock).settled == net.settled;
    hide PublishStep, Arriving, Expectable, Handed, Owed;
    PublishedFlight(net, byFirst, m, clock);
    PublishedLetters(net, byFirst, m, clock);
    ArrivingExpectable(byFirst, m);
    hide Total, Ledger.Plus;
    TotalAppend(net.flight, Arriving(byFirst, m));
    PlusSwap(Total(net.flight), net.settled, Total(Arriving(byFirst, m)));
  }
}
