/**
  Reference parsers for the bodies of SUBSCRIBE, UNSUBSCRIBE (sections 3.8.3 and 3.10.3 of
  MQTT 3.1.1) and CONNECT (section 3.1), and the proof that they invert the encoders.
 */
module BodyRoundTrips {
  import opened Basics
  import opened Wire
  import opened Reader

  // ---------------------------------------------------------------- SUBSCRIBE and UNSUBSCRIBE

  /** The (topic, QoS byte) pairs of a SUBSCRIBE payload. */
  function ParseSubscriptions(bs: seq<byte>): Option<seq<(seq<byte>, byte)>>
    decreases |bs|
  {
    if bs == [] then Some([])
    else
      match TakeUtf(bs)
      case None => None
      case Some((topic, rest)) =>
        if rest == [] then None
        else
          match ParseSubscriptions(rest[1..])
          case None => None
          case Some(items) => Some([(topic, rest[0])] + items)
  }

  /** The number that stands for a QoS in SUBSCRIBE and in the will flags. */
  function QosNumber(qos: QosValue): byte {
    match qos case AtMostOnce => 0 case AtLeastOnce => 1 case ExactlyOnce => 2 case DeliverFailure => 128
  }

  function Pairs(list: seq<Subscription>): seq<(seq<byte>, byte)> {
    seq(|list|, i requires 0 <= i < |list| => (list[i].topic, QosNumber(list[i].qos)))
  }

  function SubscribeSize(list: seq<Subscription>): nat {
    if list == [] then 0 else |list[0].topic| + 3 + SubscribeSize(list[1..])
  }

  lemma OneSubscription(topic: seq<byte>, qos: byte, rest: seq<byte>)
    requires |topic| <= USHRT_MAX
    ensures ParseSubscriptions(Utf(topic) + [qos] + rest)
         == match ParseSubscriptions(rest) case None => None case Some(items) => Some([(topic, qos)] + items)
  {
    assert Utf(topic) + [qos] + rest == Utf(topic) + ([qos] + rest);
    TakeUtfInverts(topic, [qos] + rest);
    assert ([qos] + rest)[1..] == rest;
  }

  /** The payload has three bytes a topic more than the topics, and yields the list back, in order. */
  lemma {:induction false} SubscribeRoundTrip(list: seq<Subscription>)
    requires forall s | s in list :: |s.topic| <= USHRT_MAX
    ensures |SubscribeItems(list)| == SubscribeSize(list)
    ensures ParseSubscriptions(SubscribeItems(list)) == Some(Pairs(list))
  {
    if list != [] {
      var s, rest := list[0], SubscribeItems(list[1..]);
      assert s in list;
      hide ParseSubscriptions, Utf;
      SubscribeRoundTrip(list[1..]);
      OneSubscription(s.topic, s.qos.Code(), rest);
      assert Pairs(list) == [(s.topic, QosNumber(s.qos))] + Pairs(list[1..]);
    }
  }

  /** A subscription to "a" with QoS 1, byte by byte. */
  lemma SubscribeExample()
    ensures SubscribeItems([Subscription([0x61], AtLeastOnce)]) == [0, 1, 0x61, 1]
  {
    assert [Subscription([0x61], AtLeastOnce)][1..] == [];
  }

  /** Two SUBSCRIBE bodies are equal only for the same packet id and the same list. */
  lemma SubscribeInjective(id1: uint16, list1: seq<Subscription>, id2: uint16, list2: seq<Subscription>)
    requires forall s | s in list1 :: |s.topic| <= USHRT_MAX
    requires forall s | s in list2 :: |s.topic| <= USHRT_MAX
    requires U16(id1) + SubscribeItems(list1) == U16(id2) + SubscribeItems(list2)
    ensures id1 == id2 && list1 == list2
  {
    hide ParseSubscriptions, SubscribeItems, SubscribeSize;
    var b1, b2 := U16(id1) + SubscribeItems(list1), U16(id2) + SubscribeItems(list2);
    assert b1[0] == U16(id1)[0] && b1[1] == U16(id1)[1];
    U16RoundTrip(id1);
    U16RoundTrip(id2);
    assert b1[2..] == SubscribeItems(list1) && b2[2..] == SubscribeItems(list2);
    SubscribeRoundTrip(list1);
    SubscribeRoundTrip(list2);
    assert |Pairs(list1)| == |Pairs(list2)|;
    forall i | 0 <= i < |list1| ensures list1[i] == list2[i] {
      assert Pairs(list1)[i] == Pairs(list2)[i];
    }
  }

  function ParseTopics(bs: seq<byte>): Option<seq<seq<byte>>>
    decreases |bs|
  {
    if bs == [] then Some([])
    else
      match TakeUtf(bs)
      case None => None
      case Some((topic, rest)) =>
        match ParseTopics(rest)
        case None => None
        case Some(topics) => Some([topic] + topics)
  }

  function UnsubscribeSize(list: seq<CString>): nat {
    if list == [] then 0 else |list[0]| + 2 + UnsubscribeSize(list[1..])
  }

  /** A list of C strings as byte strings. */
  function Topics(list: seq<CString>): seq<seq<byte>> {
    seq(|list|, i requires 0 <= i < |list| => list[i])
  }

  lemma TopicsCons(list: seq<CString>)
    requires list != []
    ensures Topics(list) == [list[0]] + Topics(list[1..])
  {
  }

  lemma OneTopic(topic: seq<byte>, rest: seq<byte>)
    requires |topic| <= USHRT_MAX
    ensures ParseTopics(Utf(topic) + rest)
         == match ParseTopics(rest) case None => None case Some(topics) => Some([topic] + topics)
  {
    TakeUtfInverts(topic, rest);
  }

  lemma {:induction false} UnsubscribeRoundTrip(list: seq<CString>)
    requires forall s | s in list :: |s| <= USHRT_MAX
    ensures |UnsubscribeItems(list)| == UnsubscribeSize(list)
    ensures ParseTopics(UnsubscribeItems(list)) == Some(Topics(list))
  {
    if list == [] {
      assert Topics(list) == [];
    } else {
      hide ParseTopics, Utf, Topics;
      assert list[0] in list && forall s | s in list[1..] :: s in list;
      UnsubscribeRoundTrip(list[1..]);
      OneTopic(list[0], UnsubscribeItems(list[1..]));
      TopicsCons(list);
    }
  }

  lemma UnsubscribeInjective(id1: uint16, list1: seq<CString>, id2: uint16, list2: seq<CString>)
    requires forall s | s in list1 :: |s| <= USHRT_MAX
    requires forall s | s in list2 :: |s| <= USHRT_MAX
    requires U16(id1) + UnsubscribeItems(list1) == U16(id2) + UnsubscribeItems(list2)
    ensures id1 == id2 && list1 == list2
  {
    hide ParseTopics, UnsubscribeItems, UnsubscribeSize;
    var b1, b2 := U16(id1) + UnsubscribeItems(list1), U16(id2) + UnsubscribeItems(list2);
    assert b1[0] == U16(id1)[0] && b1[1] == U16(id1)[1];
    U16RoundTrip(id1);
    U16RoundTrip(id2);
    assert b1[2..] == UnsubscribeItems(list1) && b2[2..] == UnsubscribeItems(list2);
    UnsubscribeRoundTrip(list1);
    UnsubscribeRoundTrip(list2);
    assert |Topics(list1)| == |Topics(list2)|;
    forall i | 0 <= i < |list1| ensures list1[i] == list2[i] {
      assert Topics(list1)[i] == Topics(list2)[i];
    }
  }

  // ---------------------------------------------------------------- CONNECT

  datatype Will = Will(topic: seq<byte>, message: seq<byte>, qos: nat, retain: bool)

  datatype ConnectInfo = ConnectInfo(
    clientId: seq<byte>,
    will: Option<Will>,
    username: Option<seq<byte>>,
    password: Option<seq<byte>>,
    cleanSession: bool,
    keepAlive: uint16)

  /** A string that is on the wire only when its flag says so. */
  function TakeIf(present: bool, bs: seq<byte>): Option<(Option<seq<byte>>, seq<byte>)> {
    if !present then Some((None, bs))
    else
      match TakeUtf(bs)
      case None => None
      case Some((s, rest)) => Some((Some(s), rest))
  }

  type Text = Option<seq<byte>>

  /** Client id, will topic, will message, user name and password, in the order of section 3.1.3. */
  function TakeFields(hasWill: bool, hasUser: bool, hasPassword: bool, bs: seq<byte>)
    : Option<(seq<byte>, Text, Text, Text, Text, seq<byte>)>
  {
    match TakeUtf(bs)
    case None => None
    case Some((clientId, r1)) =>
    match TakeIf(hasWill, r1)
    case None => None
    case Some((topic, r2)) =>
    match TakeIf(hasWill, r2)
    case None => None
    case Some((message, r3)) =>
    match TakeIf(hasUser, r3)
    case None => None
    case Some((username, r4)) =>
    match TakeIf(hasPassword, r4)
    case None => None
    case Some((password, r5)) => Some((clientId, topic, message, username, password, r5))
  }

  function ParseFields(flags: nat, keepAlive: uint16, bs: seq<byte>): Option<(ConnectInfo, seq<byte>)> {
    match TakeFields(flags / 4 % 2 == 1, flags / 128 == 1, flags / 64 % 2 == 1, bs)
    case None => None
    case Some((clientId, topic, message, username, password, rest)) =>
      var will := if topic.None? || message.None? then None
                  else Some(Will(topic.value, message.value, flags / 8 % 4, flags / 32 % 2 == 1));
      Some((ConnectInfo(clientId, will, username, password, flags / 2 % 2 == 1, keepAlive), rest))
  }

  /** A CONNECT body, read as the flags direct; also the bytes left over. */
  function ParseConnect(bs: seq<byte>): Option<(ConnectInfo, seq<byte>)> {
    if |bs| < 10 || bs[..7] != [0, 4, 0x4D, 0x51, 0x54, 0x54, 4] then None
    else ParseFields(bs[7], FromU16(bs[8], bs[9]), bs[10..])
  }

  function NonEmpty(s: Option<CString>): Option<seq<byte>> {
    if Length(s) > 0 then Some(s.value) else None
  }

  /** What the options ask the server for. DeliverFailure, 128, does not fit the flag byte and leaves QoS 0. */
  function Meaning(o: ClientOptions): ConnectInfo {
    var will := if Length(o.willTopic) == 0 || Length(o.willMessage) == 0 then None
                else Some(Will(o.willTopic.value, o.willMessage.value,
                               QosNumber(o.qos) % 4, o.messageRetain));
    ConnectInfo(o.clientId, will, NonEmpty(o.username), NonEmpty(o.password), o.useCleanSession, o.keepAlive)
  }

  lemma TakeIfInverts(s: Option<CString>, rest: seq<byte>)
    requires Length(s) <= USHRT_MAX
    ensures TakeIf(Length(s) > 0, Field(s) + rest) == Some((NonEmpty(s), rest))
  {
    if Length(s) > 0 {
      TakeUtfInverts(s.value, rest);
    } else {
      assert Field(s) + rest == rest;
    }
  }

  lemma WillFlagsRead(o: ClientOptions)
    ensures var flags: nat := WillFlags(o);
      && flags % 4 == 0 && flags / 4 % 2 == (if Length(o.willTopic) > 0 then 1 else 0)
      && (Length(o.willTopic) > 0 ==> flags / 8 % 4 == QosNumber(o.qos) % 4)
      && (Length(o.willTopic) > 0 ==> flags / 32 % 2 == if o.messageRetain then 1 else 0)
  {
  }

  /** Bits 2 to 5 of the flags are the will flags, whatever the clean-session bit below. */
  lemma LowFlags(will: nat, clean: nat)
    requires will < 64 && will % 4 == 0 && clean < 2
    ensures var low := will + 2 * clean;
      && low < 64 && low / 2 % 2 == clean && low / 4 % 2 == will / 4 % 2
      && low / 8 % 4 == will / 8 % 4 && low / 32 % 2 == will / 32 % 2
  {
    var low, w := will + 2 * clean, will / 4;
    assert low / 4 == w && low / 8 == w / 2 && low / 32 == w / 8;
    assert will / 8 == w / 2 && will / 32 == w / 8;
  }

  /** The lower bits under the two credential bits. */
  lemma FlagsBelow(low: nat, high: nat)
    requires low < 64 && high < 4
    ensures var flags := low + high * 64; flags / 2 % 2 == low / 2 % 2 && flags / 4 % 2 == low / 4 % 2
  {
    assert (low + high * 64) / 2 == low / 2 + 2 * (high * 16);
    assert (low + high * 64) / 4 == low / 4 + 2 * (high * 8);
  }

  lemma WillBitsBelow(low: nat, high: nat)
    requires low < 64 && high < 4
    ensures var flags := low + high * 64; flags / 8 % 4 == low / 8 % 4 && flags / 32 % 2 == low / 32 % 2
  {
    assert (low + high * 64) / 8 == low / 8 + 4 * (high * 2);
    assert (low + high * 64) / 32 == low / 32 + 2 * high;
  }

  lemma FlagsAbove(low: nat, high: nat)
    requires low < 64 && high < 4
    ensures (low + high * 64) / 64 % 2 == high % 2 && (low + high * 64) / 128 == high / 2
  {
    assert (low + high * 64) / 64 == high;
  }

  lemma ConnectFlagsRead(o: ClientOptions)
    requires Connectable(o)
    ensures var flags: nat := ConnectFlags(o);
      && flags / 4 % 2 == (if Length(o.willTopic) > 0 then 1 else 0)
      && flags / 128 == (if Length(o.username) > 0 then 1 else 0)
      && flags / 64 % 2 == (if Length(o.password) > 0 then 1 else 0)
      && flags / 2 % 2 == (if o.useCleanSession then 1 else 0)
      && (Length(o.willTopic) > 0 ==> flags / 8 % 4 == QosNumber(o.qos) % 4)
      && (Length(o.willTopic) > 0 ==> flags / 32 % 2 == if o.messageRetain then 1 else 0)
  {
    WillFlagsRead(o);
    hide WillFlags;
    var will: nat, clean := WillFlags(o), if o.useCleanSession then 1 else 0;
    var high := (if Length(o.username) > 0 then 2 else 0) + (if Length(o.password) > 0 then 1 else 0);
    LowFlags(will, clean);
    FlagsBelow(will + 2 * clean, high);
    WillBitsBelow(will + 2 * clean, high);
    FlagsAbove(will + 2 * clean, high);
    assert ConnectFlags(o) == will + 2 * clean + high * 64;
  }

  lemma TakeFieldsInverts(o: ClientOptions, slack: seq<byte>)
    requires Connectable(o)
    ensures TakeFields(Length(o.willTopic) > 0, Length(o.username) > 0, Length(o.password) > 0,
                       ConnectPayload(o) + slack)
         == Some((o.clientId, NonEmpty(o.willTopic), NonEmpty(o.willMessage),
                  NonEmpty(o.username), NonEmpty(o.password), slack))
  {
    hide TakeUtf, TakeIf, Utf, Field, NonEmpty;
    var r4 := Field(o.password) + slack;
    var r3 := Field(o.username) + r4;
    var r2 := Field(o.willMessage) + r3;
    var r1 := Field(o.willTopic) + r2;
    assert ConnectPayload(o) + slack == Utf(o.clientId) + r1;
    TakeUtfInverts(o.clientId, r1);
    TakeIfInverts(o.willTopic, r2);
    TakeIfInverts(o.willMessage, r3);
    TakeIfInverts(o.username, r4);
    TakeIfInverts(o.password, slack);
  }

  lemma FieldsRoundTrip(o: ClientOptions, slack: seq<byte>)
    requires Connectable(o)
    ensures ParseFields(ConnectFlags(o), o.keepAlive, ConnectPayload(o) + slack) == Some((Meaning(o), slack))
  {
    hide ConnectFlags, TakeFields, ConnectPayload;
    TakeFieldsInverts(o, slack);
    ConnectFlagsRead(o);
    var flags := ConnectFlags(o);
    assert (flags / 4 % 2 == 1) == (Length(o.willTopic) > 0);
    assert (flags / 128 == 1) == (Length(o.username) > 0);
    assert (flags / 64 % 2 == 1) == (Length(o.password) > 0);
  }

  /**
    A flag-driven parser recovers everything the options asked for from an encoded CONNECT body,
    and what it leaves over is exactly the slack.
   */
  lemma ConnectRoundTrip(o: ClientOptions, slack: seq<byte>)
    requires Connectable(o)
    ensures ParseConnect(ConnectBody(o) + slack) == Some((Meaning(o), slack))
  {
    var bs := ConnectBody(o) + slack;
    var head := ConnectHead(ConnectFlags(o), o.keepAlive);
    assert bs == head + (ConnectPayload(o) + slack);
    assert bs[..7] == head[..7] == [0, 4, 0x4D, 0x51, 0x54, 0x54, 4];
    assert bs[7] == ConnectFlags(o) && [bs[8], bs[9]] == U16(o.keepAlive);
    assert bs[10..] == ConnectPayload(o) + slack;
    U16RoundTrip(o.keepAlive);
    FieldsRoundTrip(o, slack);
  }

  /** The CONNECTs that are refused: a part too long, a password without a user name, or half a will. */
  lemma ConnectRefusedIff(o: ClientOptions)
    ensures !Connectable(o) <==>
      || |o.clientId| > 65535
      || (o.willTopic.Some? && |o.willTopic.value| > 65535) || (o.willMessage.Some? && |o.willMessage.value| > 65535)
      || (o.username.Some? && |o.username.value| > 65535) || (o.password.Some? && |o.password.value| > 65535)
      || (NonEmpty(o.password).Some? && NonEmpty(o.username).None?)
      || NonEmpty(o.willTopic).Some? != NonEmpty(o.willMessage).Some?
  {
  }

  /** A field is present but has no characters. */
  predicate EmptyField(s: Option<CString>) {
    s == Some([])
  }

  /**
    The packet is exactly sized, every allocated byte written and none left over for the parser,
    if and only if no optional field is present but empty.
   */
  lemma ConnectExactIff(o: ClientOptions, slack: seq<byte>)
    requires Connectable(o) && |slack| == Slack(o)
    ensures |ConnectBody(o) + slack| <= 327695
    ensures ParseConnect(ConnectBody(o) + slack) == Some((Meaning(o), [])) <==>
      !EmptyField(o.willTopic) && !EmptyField(o.willMessage) && !EmptyField(o.username) && !EmptyField(o.password)
  {
    ConnectSize(o);
    ConnectRoundTrip(o, slack);
  }

  /** An empty, non-NULL user name: accepted, and the packet ends in two bytes nobody wrote. */
  lemma EmptyUsernameLeavesSlack()
    ensures var o := ClientOptions([0x61], None, None, Some([]), None, 60, false, true, AtMostOnce);
      Connectable(o) && Slack(o) == 2
  {
  }
}
