/**
  The order of sockets, CONNECT, PINGREQ and DISCONNECT over whole runs. No clock is assumed.
 */
module ConnectionOrder {
  import opened Basics
  import opened Trace
  import opened Wire
  import opened ClientSpec
  import opened QuietSteps
  import opened KeepAliveRuns

  lemma ConnectCallOrderly(s: State, keepAlive: uint16, cloned: bool, xioOpened: bool)
    ensures Orderly(s) ==> Orderly(OnConnectCall(s, keepAlive, cloned, xioOpened))
  {
    hide HistoryOf, Ordered, OnePing;
  }

  lemma AttemptOrderly(s: State, r: SendResult)
    requires Orderly(s) && s.clientConnected
    ensures Orderly(SendPacket(s, PingReq, PINGREQ_WIRE, r).0)
  {
    hide HistoryOf, Ordered, OnePing;
  }

  lemma PingOrderly(s: State, r: SendResult, stamp: Option<Ms>, closing: Closing)
    requires Orderly(s) && s.clientConnected
    ensures Orderly(SendPing(s, r, stamp, closing))
  {
    hide HistoryOf, Ordered, OnePing, SetError, SendPacket;
    AttemptOrderly(s, r);
    var s1 := SendPacket(s, PingReq, PINGREQ_WIRE, r).0;
    CalmError(s1.(timeSincePing := 0, packetSendTimeMs := 0, packetState := Unknown), CommunicationError, closing, 0);
  }

  lemma WatchdogOrderly(s: State, e: Event)
    requires e.KeepAlive? && Orderly(s)
    ensures Orderly(Handle(s, e))
  {
    hide HistoryOf, Ordered, OnePing, SetError, SendPing;
    if Watching(s) && e.clock.Some? {
      var s1 := Emit(s, Checked(e.clock.value));
      if PingOverdue(s, e.clock.value) {
        ErrorSettles(s1, NoPingResponse, e.closing);
      } else if PingDue(s, e.clock.value) {
        PingOrderly(s1, e.send, e.stamp, e.closing);
      }
    }
  }

  lemma StepOrderly(s: State, e: Event)
    requires Orderly(s)
    ensures Orderly(Handle(s, e))
  {
    if e.ConnectCall? {
      ConnectCallOrderly(s, e.keepAlive, e.cloned, e.xioOpened);
    } else if e.KeepAlive? {
      WatchdogOrderly(s, e);
    } else {
      hide Handle, Orderly;
      CalmEvent(s, e, 0);
    }
  }

  lemma {:induction false} RunOrderly(s: State, events: seq<Event>)
    requires Orderly(s)
    ensures Orderly(Run(s, events))
    decreases |events|
  {
    hide Handle, Orderly;
    if events != [] {
      StepOrderly(s, events[0]);
      RunOrderly(Handle(s, events[0]), events[1..]);
    }
  }

  lemma InitialOrderly(errorCb: bool)
    ensures Orderly(Initial(errorCb))
  {
  }

  lemma RunOfOrderly(errorCb: bool, events: seq<Event>)
    ensures Orderly(RunOf(errorCb, events)) && Ordered(RunOf(errorCb, events).log)
  {
    hide Run, Ordered, HistoryOf;
    InitialOrderly(errorCb);
    RunOrderly(Initial(errorCb), events);
  }

  function Opens(log: Log): nat {
    if log == [] then 0 else Opens(log[..|log| - 1]) + if log[|log| - 1].SocketOpened? then 1 else 0
  }

  /** Closes of a socket that was open. */
  function Closings(log: Log): nat {
    if log == [] then 0
    else
      var before := log[..|log| - 1];
      Closings(before) + if log[|log| - 1].SocketClosed? && HistoryOf(before).open then 1 else 0
  }

  lemma {:induction false} OpensMinusClosings(log: Log)
    requires Ordered(log)
    ensures Opens(log) == Closings(log) + if HistoryOf(log).open then 1 else 0
  {
    if log != [] {
      OpensMinusClosings(log[..|log| - 1]);
    }
  }

  /** In every run the SOCKET_CONNECTED bit is the number of accepted opens less the number of sockets closed. */
  lemma SocketBit(errorCb: bool, events: seq<Event>)
    ensures var s := RunOf(errorCb, events);
            Opens(s.log) == Closings(s.log) + if s.socketConnected then 1 else 0
  {
    hide RunOf, Ordered, HistoryOf;
    RunOfOrderly(errorCb, events);
    OpensMinusClosings(RunOf(errorCb, events).log);
  }

  /** Between two accepted opens of an ordered log the socket was closed. */
  lemma ClosedBetweenOpens(log: Log, i: nat, j: nat)
    requires Ordered(log) && i < j < |log| && log[i].SocketOpened? && log[j].SocketOpened?
    ensures exists k :: i < k < j && log[k].SocketClosed?
  {
    hide HistoryOf, Ordered;
    var before := log[..j];
    PrefixOrdered(log, j);
    assert before[i] == log[i];
    ClosedSince(before, i);
    var k :| i < k < j && before[k].SocketClosed?;
    assert log[k].SocketClosed?;
  }

  /** Every CONNECT attempt directly follows the open of its socket. */
  lemma ConnectFollowsOpen(log: Log, i: nat)
    requires Ordered(log) && i < |log| && Attempt(log[i], Connect)
    ensures i > 0 && log[i - 1].SocketOpened?
  {
    hide HistoryOf, Ordered;
    PrefixOrdered(log, i);
  }

  /** Two CONNECT attempts of a run always have a close of the socket between them (section 3.1 of MQTT 3.1.1). */
  lemma ConnectOncePerSocket(errorCb: bool, events: seq<Event>, i: nat, j: nat)
    requires var log := RunOf(errorCb, events).log;
             i < j < |log| && Attempt(log[i], Connect) && Attempt(log[j], Connect)
    ensures exists k :: i < k < j && RunOf(errorCb, events).log[k].SocketClosed?
  {
    hide HistoryOf, Ordered, RunOf;
    RunOfOrderly(errorCb, events);
    var log := RunOf(errorCb, events).log;
    ConnectFollowsOpen(log, i);
    ConnectFollowsOpen(log, j);
    ClosedBetweenOpens(log, i - 1, j - 1);
    var k :| i - 1 < k < j - 1 && log[k].SocketClosed?;
    assert i < k < j && log[k].SocketClosed?;
  }

  /** Every PINGREQ or DISCONNECT attempt of a run comes after a well-formed CONNACK with return code 0. */
  lemma AcceptedBeforePingOrDisconnect(errorCb: bool, events: seq<Event>, i: nat)
    requires var log := RunOf(errorCb, events).log;
             i < |log| && (Attempt(log[i], PingReq) || Attempt(log[i], Disconnect))
    ensures var log := RunOf(errorCb, events).log;
            exists k :: 0 <= k < i && log[k].ConnAcked? && log[k].returnCode == 0
  {
    hide HistoryOf, Ordered, RunOf;
    RunOfOrderly(errorCb, events);
    var log := RunOf(errorCb, events).log;
    PrefixOrdered(log, i);
    AcceptedBefore(log[..i]);
    var k :| 0 <= k < i && log[..i][k].ConnAcked? && log[..i][k].returnCode == 0;
    assert log[k] == log[..i][k];
  }

  /**
    A graceful disconnect, over its three steps: the DISCONNECT goes out, its completion is reported
    and marks the connection for closing, and the next dowork asks for the close and drops the
    handle. The application hears of the close itself only if it passed a callback; without one the
    client waits for at most 20 rounds.
   */
  lemma GracefulDisconnect(s: State, callback: bool, clock: Ms, closing: Closing)
    requires s.clientConnected && s.socketConnected && s.xio
    ensures
      var called := Handle(s, DisconnectCall(callback, SendResult(true, Some(clock)), None));
      var t := Handle(called, SendCompleted(SendOk, None));
      var u := Handle(t, ClosePending(closing));
      var closed := closing.Some? && (if callback then closing.value == 0 else closing.value <= 20);
      && t.xio && t.pendingClose
      && !u.xio && !u.pendingClose && u.socketConnected == !closed
      && u.log == s.log + [Sent(Disconnect, [0xE0, 0], Some(clock)), DisconnectDone, CloseRequested]
                + if !closed then [] else if callback then [SocketClosed, DisconnectNotified] else [SocketClosed]
  {
    hide HistoryOf, Ordered, OnePing, InOrder, Observe;
    var a, b, c := Sent(Disconnect, [0xE0, 0], Some(clock)), DisconnectDone, CloseRequested;
    assert s.log + [a] + [b] + [c] == s.log + [a, b, c];
    var d, e := SocketClosed, DisconnectNotified;
    assert s.log + [a, b, c] + [d] + [e] == s.log + [a, b, c] + [d, e];
  }
}
