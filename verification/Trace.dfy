/**
  What an observer of the client sees, and what that observer can work out from it.
  Properties of whole runs are stated about the log of outputs only.
 */
module Trace {
  import opened Basics

  const TWO_64: nat := 0x1_0000_0000_0000_0000

  /** tickcounter_ms_t */
  type Ms = t: nat | t < TWO_64

  datatype ErrorKind = ConnectionError | ParseError | MemoryError | CommunicationError | NoPingResponse

  datatype Output =
    | ConnectCalled
    | SocketOpened
    | SocketClosed
    | CloseRequested
    | DisconnectNotified
    | Sent(kind: PacketType, wire: seq<byte>, at: Option<Ms>)
    | SendFailed(kind: PacketType)
    | Checked(now: Ms)
    | ErrorReported(error: ErrorKind)
    | ConnAcked(sessionPresent: bool, returnCode: nat)
    | Acked(kind: PacketType, packetId: uint16)
    | SubAcked(packetId: uint16, codes: seq<QosValue>)
    | UnsubAcked(packetId: uint16)
    | PingAnswered
    | DisconnectDone
    | MessageReceived(message: Message)

  type Log = seq<Output>

  /** When the first and the last of one or more PINGREQs went out. */
  datatype Pings = Pings(first: Ms, last: Ms)

  /**
    What the outputs so far say: the clock reading of the last send; the PINGREQs since
    mqtt_client_connect that no PINGRESP followed; the same, forgotten as soon as the connection is
    being closed; the last keep-alive check on this connection; whether a close was asked for since the last
    send whose time was read; how many ping timeouts and parse
    errors were reported; whether a socket is open; whether a CONNACK ever accepted; and the messages
    handed to the application.
   */
  datatype History = History(
    lastSent: Ms,
    waiting: Option<Pings>,
    ping: Option<Pings>,
    check: Option<Ms>,
    givenUp: bool,
    timeouts: nat,
    parseErrors: nat,
    open: bool,
    accepted: bool,
    received: seq<Message>)

  /** One more unanswered PINGREQ, if its time could be read. */
  function Pinged(pings: Option<Pings>, at: Option<Ms>): Option<Pings> {
    if at.None? then pings
    else Some(Pings(if pings.Some? then pings.value.first else at.value, at.value))
  }

  function Observe(h: History, o: Output): History {
    match o
    case ConnectCalled => h.(waiting := None, ping := None, check := None)
    case SocketOpened => h.(ping := None, check := None, open := true)
    case SocketClosed => h.(ping := None, check := None, open := false)
    case CloseRequested => h.(ping := None, check := None, givenUp := true)
    case Sent(kind, _, at) =>
      var h1 := if at.Some? then h.(lastSent := at.value, givenUp := false) else h;
      if kind == PingReq then h1.(waiting := Pinged(h.waiting, at), ping := Pinged(h.ping, at)) else h1
    case Checked(now) => h.(check := Some(now))
    case ConnAcked(_, code) => if code == 0 then h.(accepted := true) else h
    case PingAnswered => h.(waiting := None, ping := None)
    case MessageReceived(m) => h.(received := h.received + [m])
    case ErrorReported(e) =>
      if e == NoPingResponse then h.(timeouts := h.timeouts + 1)
      else if e == ParseError then h.(parseErrors := h.parseErrors + 1)
      else h
    case _ => h
  }

  function HistoryOf(log: Log): History {
    if log == [] then History(0, None, None, None, false, 0, 0, false, false, [])
    else Observe(HistoryOf(log[..|log| - 1]), log[|log| - 1])
  }

  predicate Attempt(o: Output, kind: PacketType) {
    (o.Sent? || o.SendFailed?) && o.kind == kind
  }

  /**
    An output that may follow `log`: one open socket at a time, CONNECT only on a new socket, PINGREQ
    and DISCONNECT only once accepted.
   */
  predicate InOrder(log: Log, o: Output) {
    && (o.SocketOpened? ==> !HistoryOf(log).open)
    && (Attempt(o, Connect) ==> log != [] && log[|log| - 1].SocketOpened?)
    && (Attempt(o, PingReq) || Attempt(o, Disconnect) ==> HistoryOf(log).accepted)
  }

  predicate Ordered(log: Log) {
    log == [] || (Ordered(log[..|log| - 1]) && InOrder(log[..|log| - 1], log[|log| - 1]))
  }

  /** No PINGREQ went out while an earlier one was unanswered. */
  predicate OnePing(log: Log) {
    log == []
    || (&& OnePing(log[..|log| - 1])
        && (Attempt(log[|log| - 1], PingReq) ==> HistoryOf(log[..|log| - 1]).ping == None))
  }

  /** The log after one more output. */
  function Append(log: Log, o: Output): (r: Log)
    ensures r == log + [o]
    ensures HistoryOf(r) == Observe(HistoryOf(log), o)
    ensures Ordered(r) <==> Ordered(log) && InOrder(log, o)
    ensures OnePing(r) <==> OnePing(log) && (Attempt(o, PingReq) ==> HistoryOf(log).ping == None)
  {
    assert (log + [o])[..|log|] == log;
    log + [o]
  }

  // ---------------------------------------------------------------- reading the predicates by index

  lemma {:induction false} PrefixOrdered(log: Log, i: nat)
    requires Ordered(log) && i < |log|
    ensures InOrder(log[..i], log[i])
  {
    var prefix := log[..|log| - 1];
    if i < |prefix| {
      PrefixOrdered(prefix, i);
      assert prefix[..i] == log[..i];
    }
  }

  lemma {:induction false} PrefixOnePing(log: Log, i: nat)
    requires OnePing(log) && i < |log| && Attempt(log[i], PingReq)
    ensures HistoryOf(log[..i]).ping == None
  {
    var prefix := log[..|log| - 1];
    if i < |prefix| {
      PrefixOnePing(prefix, i);
      assert prefix[..i] == log[..i];
    }
  }

  /** Without a second PINGREQ the first that is unanswered is the last. */
  lemma {:induction false} OnePingIsLast(log: Log)
    requires OnePing(log) && HistoryOf(log).ping.Some?
    ensures HistoryOf(log).ping.value.first == HistoryOf(log).ping.value.last
  {
    if log != [] && HistoryOf(log[..|log| - 1]).ping.Some? {
      OnePingIsLast(log[..|log| - 1]);
    }
  }

  /** With a socket opened before and none open now, some close lies in between. */
  lemma {:induction false} ClosedSince(log: Log, i: nat)
    requires i < |log| && log[i].SocketOpened? && !HistoryOf(log).open
    ensures exists k :: i < k < |log| && log[k].SocketClosed?
  {
    var last := log[|log| - 1];
    if last.SocketClosed? {
      assert i < |log| - 1;
    } else {
      var prefix := log[..|log| - 1];
      assert i < |prefix|;
      ClosedSince(prefix, i);
      var k :| i < k < |prefix| && prefix[k].SocketClosed?;
      assert log[k].SocketClosed?;
    }
  }

  lemma {:induction false} AcceptedBefore(log: Log)
    requires HistoryOf(log).accepted
    ensures exists k :: 0 <= k < |log| && log[k].ConnAcked? && log[k].returnCode == 0
  {
    var last := log[|log| - 1];
    if !(last.ConnAcked? && last.returnCode == 0) {
      var prefix := log[..|log| - 1];
      AcceptedBefore(prefix);
      var k :| 0 <= k < |prefix| && prefix[k].ConnAcked? && prefix[k].returnCode == 0;
      assert log[k] == prefix[k];
    }
  }
}
