/**
  The keep-alive and ping watchdog over whole runs with a monotone clock.
 */
module KeepAliveRuns {
  import opened Basics
  import opened Trace
  import opened Wire
  import opened ClientSpec
  import opened QuietSteps

  // ---------------------------------------------------------------- connect and the watchdog itself

  /** The read that stamps a ping succeeds and trails the send by at most delta. */
  predicate Stamped(e: Event, delta: nat) {
    e.KeepAlive? ==> e.stamp.Some? && (e.send.clock.Some? ==> e.stamp.value <= e.send.clock.value + delta)
  }

  /** Moreover, the interval a connect call asks for leaves that much margin. */
  predicate Steady(e: Event, delta: nat) {
    Stamped(e, delta) && (e.ConnectCall? && e.keepAlive > 0 ==> delta <= Margin(e.keepAlive))
  }

  /** What a close settles: nothing is outstanding on the connection any more. */
  ghost predicate Settled(s: State, t: State) {
    var h, k := HistoryOf(s.log), HistoryOf(t.log);
    && t.(log := s.log, xio := s.xio, socketConnected := s.socketConnected) == s
    && k.ping == None && k.check == None && k.givenUp
    && k.lastSent == h.lastSent && k.waiting == h.waiting && k.timeouts == h.timeouts
    && (OnePing(s.log) ==> OnePing(t.log))
    && (Orderly(s) ==> Orderly(t))
  }

  lemma CloseRequestSettles(s: State)
    ensures Settled(s, Emit(s, CloseRequested))
  {
    hide HistoryOf, Ordered, OnePing;
  }

  lemma ClosedSettles(s: State)
    requires HistoryOf(s.log).ping == None && HistoryOf(s.log).check == None && HistoryOf(s.log).givenUp
    ensures Settled(s, OnConnectionClosed(s))
  {
    hide HistoryOf, Ordered, OnePing;
  }

  lemma SettledTwice(a: State, b: State, c: State)
    requires Settled(a, b) && Settled(b, c)
    ensures Settled(a, c) && Settled(a, c.(xio := false)) && Settled(a, b.(xio := false))
  {
    hide HistoryOf, Ordered, OnePing;
  }

  lemma CloseSettles(s: State, closing: Closing)
    requires s.socketConnected
    ensures Settled(s, CloseConnection(s, closing))
  {
    hide HistoryOf, Ordered, OnePing, Orderly, Emit, OnConnectionClosed;
    var s1 := Emit(s, CloseRequested);
    CloseRequestSettles(s);
    ClosedSettles(s1);
    SettledTwice(s, s1, OnConnectionClosed(s1));
  }

  /** Giving up an open connection settles whatever was outstanding on it. */
  lemma ErrorSettles(s: State, e: ErrorKind, closing: Closing)
    requires s.socketConnected
    ensures var t := SetError(s, e, closing); var h, k := HistoryOf(s.log), HistoryOf(t.log);
      && t.(log := s.log, xio := s.xio, socketConnected := true) == s
      && k.ping == None && k.check == None && k.givenUp
      && k.lastSent == h.lastSent && k.waiting == h.waiting
      && k.timeouts == h.timeouts + (if s.errorCb && e == NoPingResponse then 1 else 0)
      && (OnePing(s.log) ==> OnePing(t.log))
      && (Orderly(s) ==> Orderly(t))
  {
    hide HistoryOf, Ordered, OnePing, CloseConnection;
    CloseSettles(if s.errorCb then Emit(s, ErrorReported(e)) else s, closing);
  }

  lemma ConnectKeepsInv(s: State, keepAlive: uint16, cloned: bool, xioOpened: bool, now: Ms)
    requires SendInv(s, now)
    ensures SendInv(OnConnectCall(s, keepAlive, cloned, xioOpened), now)
    ensures forall delta: nat :: StampInv(OnConnectCall(s, keepAlive, cloned, xioOpened), delta)
    ensures forall delta: nat :: PingInv(s, delta) && (keepAlive > 0 ==> delta <= Margin(keepAlive))
              ==> PingInv(OnConnectCall(s, keepAlive, cloned, xioOpened), delta)
  {
    hide HistoryOf, Ordered, OnePing, InOrder;
  }

  /** The watchdog's first outcome: the connection is given up. */
  lemma GivingUpSettles(s: State, e: Event, now: Ms)
    requires e.KeepAlive? && Watching(s) && e.clock.Some? && SendInv(s, now) && Monotone(now, e)
    requires PingOverdue(s, e.clock.value)
    ensures var t := Handle(s, e); var h, k := HistoryOf(s.log), HistoryOf(t.log);
      && t.timeSincePing == 0 && t.packetSendTimeMs == 0
      && t.keepAliveInterval == s.keepAliveInterval && t.maxPingRespTime == s.maxPingRespTime
      && k.ping == None && k.check == None && k.givenUp && k.lastSent == h.lastSent && k.waiting == h.waiting
      && k.timeouts == h.timeouts + (if s.errorCb then 1 else 0)
      && (OnePing(s.log) ==> OnePing(t.log))
  {
    hide HistoryOf, Ordered, OnePing, InOrder, SetError;
    ErrorSettles(Emit(s, Checked(e.clock.value)), NoPingResponse, e.closing);
  }

  /** Its second: the PINGREQ could not be sent, and the connection is given up. */
  lemma FailedPingSettles(s: State, e: Event, now: Ms)
    requires e.KeepAlive? && Watching(s) && e.clock.Some? && SendInv(s, now) && Monotone(now, e)
    requires !PingOverdue(s, e.clock.value) && PingDue(s, e.clock.value)
    requires !e.send.accepted || e.send.clock.None?
    ensures var t := Handle(s, e); var h, k := HistoryOf(s.log), HistoryOf(t.log);
      && t.timeSincePing == 0 && t.packetSendTimeMs == 0
      && t.keepAliveInterval == s.keepAliveInterval && t.maxPingRespTime == s.maxPingRespTime
      && k.ping == None && k.check == None && k.givenUp && k.lastSent == h.lastSent && k.waiting == h.waiting
      && k.timeouts == h.timeouts
      && (OnePing(s.log) && h.ping == None ==> OnePing(t.log))
  {
    hide HistoryOf, Ordered, OnePing, InOrder, SetError;
    var s2 := SendPacket(Emit(s, Checked(e.clock.value)), PingReq, PINGREQ_WIRE, e.send).0;
    ErrorSettles(s2.(timeSincePing := 0, packetSendTimeMs := 0, packetState := Unknown), CommunicationError, e.closing);
  }

  /** Its third: the PINGREQ is out. */
  lemma SentPingKeepsSendInv(s: State, e: Event, now: Ms)
    requires e.KeepAlive? && Watching(s) && e.clock.Some? && SendInv(s, now) && Monotone(now, e)
    requires !PingOverdue(s, e.clock.value) && PingDue(s, e.clock.value)
    requires e.send.accepted && e.send.clock.Some?
    ensures SendInv(Handle(s, e), Advance(now, e))
  {
    hide HistoryOf, Ordered, OnePing, InOrder, SetError;
  }

  lemma WatchdogKeepsSendInv(s: State, e: Event, now: Ms)
    requires e.KeepAlive? && SendInv(s, now) && Monotone(now, e)
    ensures SendInv(Handle(s, e), Advance(now, e))
  {
    hide HistoryOf, Ordered, OnePing, InOrder, SetError;
    if Watching(s) && e.clock.Some? {
      if PingOverdue(s, e.clock.value) {
        GivingUpSettles(s, e, now);
      } else if PingDue(s, e.clock.value) {
        if e.send.accepted && e.send.clock.Some? {
          SentPingKeepsSendInv(s, e, now);
        } else {
          FailedPingSettles(s, e, now);
        }
      }
    }
  }

  /** With margin for the stamp, a ping that is unanswered and not overdue keeps another from being due. */
  lemma NotDueWhileUnanswered(s: State, now: Ms, clock: Ms, delta: nat)
    requires SendInv(s, now) && StampInv(s, delta) && PingInv(s, delta) && now <= clock && Watching(s)
    requires !PingOverdue(s, clock) && PingDue(s, clock)
    ensures HistoryOf(s.log).ping == None
  {
    hide HistoryOf, Ordered, OnePing, InOrder;
  }

  lemma WatchdogKeepsStampInv(s: State, e: Event, now: Ms, delta: nat)
    requires e.KeepAlive? && SendInv(s, now) && StampInv(s, delta) && Monotone(now, e) && Stamped(e, delta)
    ensures StampInv(Handle(s, e), delta)
  {
    hide HistoryOf, Ordered, OnePing, InOrder, SetError;
    if Watching(s) && e.clock.Some? {
      if PingOverdue(s, e.clock.value) {
        GivingUpSettles(s, e, now);
      } else if PingDue(s, e.clock.value) {
        if !e.send.accepted || e.send.clock.None? {
          FailedPingSettles(s, e, now);
        }
      }
    }
  }

  lemma WatchdogKeepsPingInv(s: State, e: Event, now: Ms, delta: nat)
    requires e.KeepAlive? && SendInv(s, now) && StampInv(s, delta) && PingInv(s, delta) && Monotone(now, e)
    ensures PingInv(Handle(s, e), delta)
  {
    hide HistoryOf, Ordered, OnePing, InOrder, SetError;
    if Watching(s) && e.clock.Some? {
      if PingOverdue(s, e.clock.value) {
        GivingUpSettles(s, e, now);
      } else if PingDue(s, e.clock.value) {
        NotDueWhileUnanswered(s, now, e.clock.value, delta);
        if !e.send.accepted || e.send.clock.None? {
          FailedPingSettles(s, e, now);
        }
      }
    }
  }

  // ---------------------------------------------------------------- runs

  lemma StepKeepsSendInv(s: State, e: Event, now: Ms)
    requires SendInv(s, now) && Monotone(now, e)
    ensures SendInv(Handle(s, e), Advance(now, e))
  {
    hide HistoryOf, SendInv;
    if e.ConnectCall? {
      ConnectKeepsInv(s, e.keepAlive, e.cloned, e.xioOpened, now);
    } else if e.KeepAlive? {
      WatchdogKeepsSendInv(s, e, now);
    } else {
      CalmEvent(s, e, now);
      CalmKeepsInv(s, Handle(s, e), now, Advance(now, e));
    }
  }

  lemma StepKeepsStampInv(s: State, e: Event, now: Ms, delta: nat)
    requires SendInv(s, now) && StampInv(s, delta) && Monotone(now, e) && Stamped(e, delta)
    ensures StampInv(Handle(s, e), delta)
  {
    hide HistoryOf, SendInv, StampInv;
    if e.ConnectCall? {
      ConnectKeepsInv(s, e.keepAlive, e.cloned, e.xioOpened, now);
    } else if e.KeepAlive? {
      WatchdogKeepsStampInv(s, e, now, delta);
    } else {
      CalmEvent(s, e, now);
      CalmKeepsInv(s, Handle(s, e), now, Advance(now, e));
    }
  }

  lemma StepKeepsPingInv(s: State, e: Event, now: Ms, delta: nat)
    requires SendInv(s, now) && StampInv(s, delta) && PingInv(s, delta) && Monotone(now, e) && Steady(e, delta)
    ensures PingInv(Handle(s, e), delta)
  {
    hide HistoryOf, SendInv, StampInv, PingInv;
    if e.ConnectCall? {
      ConnectKeepsInv(s, e.keepAlive, e.cloned, e.xioOpened, now);
    } else if e.KeepAlive? {
      WatchdogKeepsPingInv(s, e, now, delta);
    } else {
      CalmEvent(s, e, now);
      CalmKeepsInv(s, Handle(s, e), now, Advance(now, e));
    }
  }

  lemma {:induction false} RunKeepsSendInv(s: State, events: seq<Event>, now: Ms)
    requires SendInv(s, now) && MonotoneRun(now, events)
    ensures SendInv(Run(s, events), ClockAfter(now, events))
    decreases |events|
  {
    hide Handle, SendInv, Monotone, Advance;
    if events != [] {
      StepKeepsSendInv(s, events[0], now);
      RunKeepsSendInv(Handle(s, events[0]), events[1..], Advance(now, events[0]));
    }
  }

  lemma {:induction false} RunKeepsStampInv(s: State, events: seq<Event>, now: Ms, delta: nat)
    requires SendInv(s, now) && StampInv(s, delta) && MonotoneRun(now, events)
    requires forall e | e in events :: Stamped(e, delta)
    ensures StampInv(Run(s, events), delta)
    decreases |events|
  {
    hide Handle, SendInv, StampInv, Monotone, Advance, Stamped;
    if events != [] {
      assert events[0] in events;
      assert forall e | e in events[1..] :: e in events;
      StepKeepsSendInv(s, events[0], now);
      StepKeepsStampInv(s, events[0], now, delta);
      RunKeepsStampInv(Handle(s, events[0]), events[1..], Advance(now, events[0]), delta);
    }
  }

  lemma {:induction false} RunKeepsPingInv(s: State, events: seq<Event>, now: Ms, delta: nat)
    requires SendInv(s, now) && StampInv(s, delta) && PingInv(s, delta) && MonotoneRun(now, events)
    requires forall e | e in events :: Steady(e, delta)
    ensures PingInv(Run(s, events), delta)
    decreases |events|
  {
    hide Handle, SendInv, StampInv, PingInv, Monotone, Advance, Stamped;
    if events != [] {
      assert events[0] in events;
      assert forall e | e in events[1..] :: e in events;
      StepKeepsSendInv(s, events[0], now);
      StepKeepsStampInv(s, events[0], now, delta);
      StepKeepsPingInv(s, events[0], now, delta);
      RunKeepsPingInv(Handle(s, events[0]), events[1..], Advance(now, events[0]), delta);
    }
  }

  lemma InitialInv(errorCb: bool)
    ensures SendInv(Initial(errorCb), 0)
    ensures forall delta: nat :: StampInv(Initial(errorCb), delta) && PingInv(Initial(errorCb), delta)
  {
  }

  /** A whole run of a new client. */
  function RunOf(errorCb: bool, events: seq<Event>): State {
    Run(Initial(errorCb), events)
  }

  /**
    Keep-alive bound (section 3.1.2.10 of MQTT 3.1.1): in every run with a monotone clock, whatever
    sends and clock reads fail, while the connection of the last keep-alive check is open and that
    check is at most D old, the last packet sent is less than an interval plus D old; with D at
    most half an interval, less than one and a half intervals.
   */
  lemma KeepAliveBound(errorCb: bool, events: seq<Event>, D: nat, now: nat)
    requires MonotoneRun(0, events)
    requires var check := HistoryOf(RunOf(errorCb, events).log).check;
             check.Some? && now <= check.value + D
    ensures var s := RunOf(errorCb, events); var lastSent := HistoryOf(s.log).lastSent;
      && now < lastSent + 1000 * s.keepAliveInterval + D
      && (2 * D <= 1000 * s.keepAliveInterval ==> 2 * now < 2 * lastSent + 3 * (1000 * s.keepAliveInterval))
  {
    hide HistoryOf;
    InitialInv(errorCb);
    RunKeepsSendInv(Initial(errorCb), events, 0);
  }

  /**
    No second PINGREQ while one is unanswered: in every run with a monotone clock whose reads
    succeed and whose ping stamps trail the send by at most delta, where every keep-alive interval
    asked for leaves that margin.
   */
  lemma NoSecondPing(errorCb: bool, events: seq<Event>, delta: nat, i: nat)
    requires MonotoneRun(0, events)
    requires forall e | e in events :: Steady(e, delta)
    requires var log := RunOf(errorCb, events).log; i < |log| && Attempt(log[i], PingReq)
    ensures HistoryOf(RunOf(errorCb, events).log[..i]).ping == None
  {
    hide HistoryOf;
    InitialInv(errorCb);
    RunKeepsPingInv(Initial(errorCb), events, 0, delta);
    PrefixOnePing(RunOf(errorCb, events).log, i);
  }

  /** Only the watchdog reports a ping timeout, and only when it is overdue by its own fields. */
  lemma OnlyWatchdogReports(s: State, e: Event, now: Ms)
    requires SendInv(s, now) && Monotone(now, e)
    ensures HistoryOf(Handle(s, e).log).timeouts != HistoryOf(s.log).timeouts ==>
      e.KeepAlive? && e.clock.Some? && Watching(s) && PingOverdue(s, e.clock.value)
  {
    hide HistoryOf, Ordered, OnePing, InOrder, SetError;
    if e.KeepAlive? {
      if Watching(s) && e.clock.Some? && !PingOverdue(s, e.clock.value)
         && PingDue(s, e.clock.value) && (!e.send.accepted || e.send.clock.None?) {
        FailedPingSettles(s, e, now);
      }
    } else if !e.ConnectCall? {
      CalmEvent(s, e, now);
    }
  }

  lemma RunStamps(errorCb: bool, events: seq<Event>, delta: nat)
    requires MonotoneRun(0, events)
    requires forall x | x in events :: Stamped(x, delta)
    ensures SendInv(RunOf(errorCb, events), ClockAfter(0, events)) && StampInv(RunOf(errorCb, events), delta)
  {
    hide HistoryOf, SendInv, StampInv;
    InitialInv(errorCb);
    RunKeepsSendInv(Initial(errorCb), events, 0);
    RunKeepsStampInv(Initial(errorCb), events, 0, delta);
  }

  /**
    Never early, and never false: in every run with a monotone clock, whatever reads fail, a step
    reports a missing ping response only if a PINGREQ was sent since mqtt_client_connect, no PINGRESP
    has followed, and the check's clock is at least the ping time ms past the first such send.
   */
  lemma PingTimeoutNotEarly(errorCb: bool, events: seq<Event>, e: Event)
    requires MonotoneRun(0, events) && Monotone(ClockAfter(0, events), e)
    ensures var s := RunOf(errorCb, events); var pings := HistoryOf(s.log).waiting;
      HistoryOf(Handle(s, e).log).timeouts != HistoryOf(s.log).timeouts ==>
        && e.KeepAlive? && e.clock.Some?
        && pings.Some? && e.clock.value >= pings.value.first + PingTime(s.keepAliveInterval)
  {
    var s := RunOf(errorCb, events);
    hide HistoryOf, Handle;
    InitialInv(errorCb);
    RunKeepsSendInv(Initial(errorCb), events, 0);
    OnlyWatchdogReports(s, e, ClockAfter(0, events));
  }

  /** With stamps that are always read, however late, the check is that much past the last such send. */
  lemma LastPingNotEarly(errorCb: bool, events: seq<Event>, e: Event, delta: nat)
    requires MonotoneRun(0, events) && Monotone(ClockAfter(0, events), e)
    requires forall x | x in events :: Stamped(x, delta)
    ensures var s := RunOf(errorCb, events); var pings := HistoryOf(s.log).waiting;
      HistoryOf(Handle(s, e).log).timeouts != HistoryOf(s.log).timeouts ==>
        pings.Some? && e.KeepAlive? && e.clock.Some?
        && e.clock.value >= pings.value.last + PingTime(s.keepAliveInterval)
  {
    var s := RunOf(errorCb, events);
    hide HistoryOf, Handle, RunOf;
    RunStamps(errorCb, events, delta);
    OnlyWatchdogReports(s, e, ClockAfter(0, events));
  }

  /**
    The last PINGREQ is never late: while it is unanswered on an open connection, and the last check
    is at most D old, the time is before its send + delta + the ping time + D.
   */
  lemma LastPingNotLate(errorCb: bool, events: seq<Event>, delta: nat, D: nat, now: nat)
    requires MonotoneRun(0, events)
    requires forall x | x in events :: Stamped(x, delta)
    requires HistoryOf(RunOf(errorCb, events).log).ping.Some?
    ensures var s := RunOf(errorCb, events); var h := HistoryOf(s.log);
      && h.check.Some?
      && (now <= h.check.value + D ==> now < h.ping.value.last + delta + PingTime(s.keepAliveInterval) + D)
      && Watching(s)
  {
    hide HistoryOf, RunOf;
    RunStamps(errorCb, events, delta);
  }

  /** A check at or after that deadline of the last PINGREQ reports the timeout and gives the connection up. */
  lemma LastPingOverdueReports(errorCb: bool, events: seq<Event>, e: Event, delta: nat)
    requires MonotoneRun(0, events) && Monotone(ClockAfter(0, events), e)
    requires forall x | x in events :: Stamped(x, delta)
    requires e.KeepAlive? && e.clock.Some?
    requires var s := RunOf(errorCb, events); var ping := HistoryOf(s.log).ping;
             ping.Some? && e.clock.value >= ping.value.last + delta + PingTime(s.keepAliveInterval)
    ensures var s := RunOf(errorCb, events); var h, k := HistoryOf(s.log), HistoryOf(Handle(s, e).log);
      && k.timeouts == h.timeouts + (if s.errorCb then 1 else 0)
      && k.ping == None && k.check == None
  {
    var s := RunOf(errorCb, events);
    hide HistoryOf, Handle, RunOf;
    RunStamps(errorCb, events, delta);
    GivingUpSettles(s, e, ClockAfter(0, events));
  }

  /** In a steady run the first unanswered PINGREQ is also the last. */
  lemma SteadyPing(errorCb: bool, events: seq<Event>, delta: nat)
    requires MonotoneRun(0, events)
    requires forall x | x in events :: Steady(x, delta)
    requires HistoryOf(RunOf(errorCb, events).log).ping.Some?
    ensures var ping := HistoryOf(RunOf(errorCb, events).log).ping; ping.value.first == ping.value.last
  {
    hide HistoryOf;
    InitialInv(errorCb);
    RunKeepsPingInv(Initial(errorCb), events, 0, delta);
    OnePingIsLast(RunOf(errorCb, events).log);
  }

  /**
    Never late: in every steady run, while a PINGREQ is unanswered on an open connection and the last
    check is at most D old, the time is before the first such send + delta + the ping time + D.
   */
  lemma PingTimeoutNotLate(errorCb: bool, events: seq<Event>, delta: nat, D: nat, now: nat)
    requires MonotoneRun(0, events)
    requires forall x | x in events :: Steady(x, delta)
    requires HistoryOf(RunOf(errorCb, events).log).ping.Some?
    ensures var s := RunOf(errorCb, events); var h := HistoryOf(s.log);
      && h.check.Some?
      && (now <= h.check.value + D ==> now < h.ping.value.first + delta + PingTime(s.keepAliveInterval) + D)
      && Watching(s)
  {
    hide HistoryOf, RunOf;
    LastPingNotLate(errorCb, events, delta, D, now);
    SteadyPing(errorCb, events, delta);
  }

  /** A check at or after that deadline of the first unanswered PINGREQ reports the timeout. */
  lemma OverdueCheckReports(errorCb: bool, events: seq<Event>, e: Event, delta: nat)
    requires MonotoneRun(0, events) && Monotone(ClockAfter(0, events), e)
    requires forall x | x in events :: Steady(x, delta)
    requires e.KeepAlive? && e.clock.Some?
    requires var s := RunOf(errorCb, events); var ping := HistoryOf(s.log).ping;
             ping.Some? && e.clock.value >= ping.value.first + delta + PingTime(s.keepAliveInterval)
    ensures var s := RunOf(errorCb, events); var h, k := HistoryOf(s.log), HistoryOf(Handle(s, e).log);
      && k.timeouts == h.timeouts + (if s.errorCb then 1 else 0)
      && k.ping == None && k.check == None
  {
    hide HistoryOf, Handle, RunOf, Monotone, MonotoneRun, ClockAfter;
    SteadyPing(errorCb, events, delta);
    LastPingOverdueReports(errorCb, events, e, delta);
  }

  // ---------------------------------------------------------------- stamps that cannot be read

  lemma StepWithoutStamp(s: State, e: Event, now: Ms)
    requires SendInv(s, now) && Monotone(now, e) && s.timeSincePing == 0
    requires e.KeepAlive? ==> e.stamp.None?
    ensures Handle(s, e).timeSincePing == 0
    ensures HistoryOf(Handle(s, e).log).timeouts == HistoryOf(s.log).timeouts
  {
    OnlyWatchdogReports(s, e, now);
    hide HistoryOf, Ordered, OnePing, InOrder, SetError;
    if e.KeepAlive? {
      if Watching(s) && e.clock.Some? && PingDue(s, e.clock.value) && (!e.send.accepted || e.send.clock.None?) {
        FailedPingSettles(s, e, now);
      }
    } else if !e.ConnectCall? {
      CalmEvent(s, e, now);
    }
  }

  lemma {:induction false} RunWithoutStamps(s: State, events: seq<Event>, now: Ms)
    requires SendInv(s, now) && MonotoneRun(now, events) && s.timeSincePing == 0
    requires forall e | e in events :: e.KeepAlive? ==> e.stamp.None?
    ensures HistoryOf(Run(s, events).log).timeouts == HistoryOf(s.log).timeouts
    decreases |events|
  {
    hide Handle, HistoryOf, SendInv, Monotone, Advance;
    if events != [] {
      assert events[0] in events;
      assert forall e | e in events[1..] :: e in events;
      StepWithoutStamp(s, events[0], now);
      StepKeepsSendInv(s, events[0], now);
      RunWithoutStamps(Handle(s, events[0]), events[1..], Advance(now, events[0]));
    }
  }

  /** A ping whose stamp cannot be read never times out: a run without stamps reports no missing response. */
  lemma UnreadStampsNeverTimeOut(errorCb: bool, events: seq<Event>)
    requires MonotoneRun(0, events)
    requires forall e | e in events :: e.KeepAlive? ==> e.stamp.None?
    ensures HistoryOf(RunOf(errorCb, events).log).timeouts == 0
  {
    InitialInv(errorCb);
    RunWithoutStamps(Initial(errorCb), events, 0);
  }

  // ---------------------------------------------------------------- the margin is exact

  function ConnectEvent(keepAlive: uint16): Event { ConnectCall(keepAlive, true, true) }

  /** A client with an empty id and this interval. */
  function OptionsWith(keepAlive: uint16): (o: ClientOptions)
    ensures Connectable(o)
  {
    ClientOptions([], None, None, None, None, keepAlive, false, true, AtMostOnce)
  }

  /** The socket opens, and the CONNECT the encoder builds goes out at time 0. */
  function OpenEvent(keepAlive: uint16): (e: Event)
    ensures e.OpenComplete? && BuiltFrom(OptionsWith(keepAlive), e.built)
  {
    var o := OptionsWith(keepAlive);
    var slack: seq<byte> := [];
    assert ConnectBody(o) + slack == ConnectBody(o) && |slack| == Slack(o);
    OpenComplete(true, Some(FrameWire(PacketType.Connect, 0, ConnectBody(o))), SendResult(true, Some(0)))
  }

  const ACCEPT_EVENT: Event :=
    PacketArrived(Packet(ConnAck, 0, [0, 0]), ReceiveEnv(SendResult(true, None), false, None))

  /** How late the failing run's pings are stamped: unread, or `delta` after the send. */
  datatype Lateness = Lateness(delta: nat, unread: bool) {
    /** Beyond what the interval leaves room for. */
    predicate Harms(keepAlive: uint16) {
      keepAlive > 0 && (unread || Margin(keepAlive) < delta)
    }
  }

  /** How far apart the failing run's checks are. */
  function Gap(keepAlive: uint16, late: Lateness): nat {
    if late.delta > 1000 * keepAlive then late.delta else 1000 * keepAlive
  }

  /** When check number k takes place: the first at the end of the first interval. */
  function CheckTime(keepAlive: uint16, late: Lateness, k: nat): nat {
    1000 * keepAlive + k * Gap(keepAlive, late)
  }

  lemma CheckTimes(keepAlive: uint16, late: Lateness, k: nat, m: nat)
    requires k < m
    ensures CheckTime(keepAlive, late, k + 1) == CheckTime(keepAlive, late, k) + Gap(keepAlive, late)
    ensures CheckTime(keepAlive, late, k + 1) <= CheckTime(keepAlive, late, m)
    ensures CheckTime(keepAlive, late, k) + late.delta <= CheckTime(keepAlive, late, k + 1)
  {
    var gap := Gap(keepAlive, late);
    assert (k + 1) * gap == k * gap + gap;
    assert m * gap == (k + 1) * gap + (m - k - 1) * gap;
    assert (m - k - 1) * gap >= 0;
  }

  /** Check number k; its ping, if it sends one, goes out at once. */
  function CheckEvent(keepAlive: uint16, late: Lateness, k: nat): Event
    requires CheckTime(keepAlive, late, k) + late.delta < TWO_64
  {
    var at := CheckTime(keepAlive, late, k);
    KeepAlive(Some(at), SendResult(true, Some(at)), if late.unread then None else Some(at + late.delta), None)
  }

  /** `n` checks, from number k on. */
  function ChecksFrom(keepAlive: uint16, late: Lateness, k: nat, n: nat): seq<Event>
    requires CheckTime(keepAlive, late, k + n) < TWO_64
    decreases n
  {
    if n == 0 then []
    else
      CheckTimes(keepAlive, late, k, k + n);
      [CheckEvent(keepAlive, late, k)] + ChecksFrom(keepAlive, late, k + 1, n - 1)
  }

  /** Connect, and `n` checks. */
  function FailingEvents(keepAlive: uint16, late: Lateness, n: nat): seq<Event>
    requires CheckTime(keepAlive, late, n) < TWO_64
  {
    [ConnectEvent(keepAlive)] + ([OpenEvent(keepAlive)] + ([ACCEPT_EVENT] + ChecksFrom(keepAlive, late, 0, n)))
  }

  lemma RunCons(s: State, e: Event, rest: seq<Event>)
    ensures Run(s, [e] + rest) == Run(Handle(s, e), rest)
  {
    hide Handle;
    assert ([e] + rest)[1..] == rest;
  }

  lemma MonotoneCons(now: Ms, e: Event, rest: seq<Event>)
    requires Monotone(now, e) && MonotoneRun(Advance(now, e), rest)
    ensures MonotoneRun(now, [e] + rest)
  {
    hide Monotone, Advance;
    assert ([e] + rest)[1..] == rest;
  }

  /** A new client, connected with this interval; CONNECT went out at time 0. */
  function Connected(keepAlive: uint16): (s: State) {
    Handle(Handle(Handle(Initial(true), ConnectEvent(keepAlive)), OpenEvent(keepAlive)), ACCEPT_EVENT)
  }

  /** Watching, with no PINGREQ so far. */
  ghost predicate Idle(s: State, keepAlive: uint16) {
    var h := HistoryOf(s.log);
    && Watching(s) && s.keepAliveInterval == keepAlive && 1000 * (s.maxPingRespTime + 1) == PingTime(keepAlive)
    && s.timeSincePing == 0 && s.packetSendTimeMs == 0
    && h.ping == None && h.timeouts == 0
  }

  lemma HistoryOfNothing()
    ensures HistoryOf([]) == History(0, None, None, None, false, 0, 0, false, false, [])
  {
  }

  lemma OpenedIdle(keepAlive: uint16)
    requires keepAlive > 0
    ensures var s := Handle(Handle(Initial(true), ConnectEvent(keepAlive)), OpenEvent(keepAlive));
            Idle(s.(clientConnected := true), keepAlive)
  {
    hide HistoryOf, Ordered, OnePing, InOrder, FrameWire, OptionsWith;
    HistoryOfNothing();
  }

  lemma AcceptKeepsIdle(s: State, keepAlive: uint16)
    requires Idle(s.(clientConnected := true), keepAlive)
    ensures Idle(Handle(s, ACCEPT_EVENT), keepAlive)
  {
    hide HistoryOf, Ordered, OnePing, InOrder, SetError;
  }

  lemma ConnectedIdle(keepAlive: uint16)
    requires keepAlive > 0
    ensures Idle(Connected(keepAlive), keepAlive)
  {
    hide HistoryOf, Ordered, OnePing, InOrder, Handle;
    OpenedIdle(keepAlive);
    AcceptKeepsIdle(Handle(Handle(Initial(true), ConnectEvent(keepAlive)), OpenEvent(keepAlive)), keepAlive);
  }

  /** The first PINGREQ went out with check 0, the last with check k, and none is answered. */
  ghost predicate Outstanding(s: State, keepAlive: uint16, late: Lateness, k: nat) {
    var h, at := HistoryOf(s.log), CheckTime(keepAlive, late, k);
    && Watching(s) && s.keepAliveInterval == keepAlive && 1000 * (s.maxPingRespTime + 1) == PingTime(keepAlive)
    && s.timeSincePing == (if late.unread then 0 else at + late.delta) && s.packetSendTimeMs == at
    && h.ping.Some? && h.ping.value.first == 1000 * keepAlive
    && h.check.Some? && h.check.value == at
    && h.timeouts == 0
  }

  /** The first check sends a PINGREQ. */
  lemma FirstPing(s: State, keepAlive: uint16, late: Lateness)
    requires CheckTime(keepAlive, late, 0) + late.delta < TWO_64 && Idle(s, keepAlive)
    ensures Outstanding(Handle(s, CheckEvent(keepAlive, late, 0)), keepAlive, late, 0)
  {
    hide HistoryOf, Ordered, OnePing, InOrder, SetError;
    assert CheckTime(keepAlive, late, 0) == 1000 * keepAlive;
    hide CheckTime;
    assert PingDue(s, 1000 * keepAlive) && !PingOverdue(s, 1000 * keepAlive);
  }

  /** Each later one finds the last PINGREQ not overdue and the next one due. */
  lemma NextPing(s: State, keepAlive: uint16, late: Lateness, k: nat)
    requires late.Harms(keepAlive) && Outstanding(s, keepAlive, late, k)
    requires CheckTime(keepAlive, late, k + 1) + late.delta < TWO_64
    ensures var t := Handle(s, CheckEvent(keepAlive, late, k + 1));
            Outstanding(t, keepAlive, late, k + 1) && !OnePing(t.log)
  {
    hide HistoryOf, Ordered, OnePing, InOrder, SetError, CheckTime;
    CheckTimes(keepAlive, late, k, k + 1);
    var next := CheckTime(keepAlive, late, k + 1);
    assert !late.unread ==> next - s.timeSincePing < PingTime(s.keepAliveInterval);
    assert !PingOverdue(s, next) && PingDue(s, next);
  }

  /** So the pings go on for as long as the checks do. */
  lemma {:induction false} PingsGoOn(s: State, keepAlive: uint16, late: Lateness, k: nat, n: nat)
    requires late.Harms(keepAlive) && Outstanding(s, keepAlive, late, k)
    requires CheckTime(keepAlive, late, k + 1 + n) < TWO_64
    ensures var t := Run(s, ChecksFrom(keepAlive, late, k + 1, n));
            Outstanding(t, keepAlive, late, k + n) && (n > 0 ==> !OnePing(t.log))
    decreases n
  {
    hide Handle, OnePing, Outstanding, CheckEvent, CheckTime;
    if n > 0 {
      CheckTimes(keepAlive, late, k + 1, k + 1 + n);
      NextPing(s, keepAlive, late, k);
      var t := Handle(s, CheckEvent(keepAlive, late, k + 1));
      RunCons(s, CheckEvent(keepAlive, late, k + 1), ChecksFrom(keepAlive, late, k + 2, n - 1));
      if n == 1 {
        RunNone(t);
      } else {
        PingsGoOn(t, keepAlive, late, k + 1, n - 1);
      }
    }
  }

  /** A run with this interval whose stamps are within the lateness or, if that allows, cannot be read. */
  predicate RunWithin(events: seq<Event>, keepAlive: uint16, late: Lateness) {
    && MonotoneRun(0, events)
    && (forall e | e in events :: Stamped(e, late.delta) || (late.unread && e.KeepAlive? && e.stamp.None?))
    && (forall e | e in events :: e.ConnectCall? ==> e.keepAlive == keepAlive)
  }

  lemma {:induction false} ChecksWithin(keepAlive: uint16, late: Lateness, k: nat, n: nat, now: Ms)
    requires CheckTime(keepAlive, late, k + n) < TWO_64 && now <= CheckTime(keepAlive, late, k)
    ensures MonotoneRun(now, ChecksFrom(keepAlive, late, k, n))
    ensures forall e | e in ChecksFrom(keepAlive, late, k, n) ::
              e.KeepAlive? && (Stamped(e, late.delta) || (late.unread && e.stamp.None?))
    decreases n
  {
    if n > 0 {
      hide MonotoneRun, CheckTime;
      CheckTimes(keepAlive, late, k, k + n);
      var check := CheckEvent(keepAlive, late, k);
      assert Monotone(now, check) && Advance(now, check) <= CheckTime(keepAlive, late, k + 1);
      ChecksWithin(keepAlive, late, k + 1, n - 1, Advance(now, check));
      MonotoneCons(now, check, ChecksFrom(keepAlive, late, k + 1, n - 1));
    }
  }

  lemma FailingRunWithin(keepAlive: uint16, late: Lateness, n: nat)
    requires CheckTime(keepAlive, late, n) < TWO_64
    ensures RunWithin(FailingEvents(keepAlive, late, n), keepAlive, late)
  {
    hide MonotoneRun, ChecksFrom, CheckTime;
    var checks := ChecksFrom(keepAlive, late, 0, n);
    ChecksWithin(keepAlive, late, 0, n, 0);
    MonotoneCons(0, ACCEPT_EVENT, checks);
    MonotoneCons(0, OpenEvent(keepAlive), [ACCEPT_EVENT] + checks);
    MonotoneCons(0, ConnectEvent(keepAlive), [OpenEvent(keepAlive)] + ([ACCEPT_EVENT] + checks));
  }

  /** The failing run is the connected client's run of the checks. */
  lemma FailingRun(keepAlive: uint16, checks: seq<Event>)
    ensures RunOf(true, [ConnectEvent(keepAlive)] + ([OpenEvent(keepAlive)] + ([ACCEPT_EVENT] + checks)))
         == Run(Connected(keepAlive), checks)
  {
    hide Handle, Run;
    var s1 := Handle(Initial(true), ConnectEvent(keepAlive));
    var s2 := Handle(s1, OpenEvent(keepAlive));
    RunCons(Initial(true), ConnectEvent(keepAlive), [OpenEvent(keepAlive)] + ([ACCEPT_EVENT] + checks));
    RunCons(s1, OpenEvent(keepAlive), [ACCEPT_EVENT] + checks);
    RunCons(s2, ACCEPT_EVENT, checks);
  }

  lemma ChecksPutOff(s: State, keepAlive: uint16, late: Lateness, n: nat)
    requires late.Harms(keepAlive) && Idle(s, keepAlive) && n > 0 && CheckTime(keepAlive, late, n) < TWO_64
    ensures var t := Run(s, ChecksFrom(keepAlive, late, 0, n));
            Outstanding(t, keepAlive, late, n - 1) && (n > 1 ==> !OnePing(t.log))
  {
    hide Handle, OnePing, Outstanding, Idle, CheckEvent, CheckTime;
    CheckTimes(keepAlive, late, 0, n);
    FirstPing(s, keepAlive, late);
    RunCons(s, CheckEvent(keepAlive, late, 0), ChecksFrom(keepAlive, late, 1, n - 1));
    PingsGoOn(Handle(s, CheckEvent(keepAlive, late, 0)), keepAlive, late, 0, n - 1);
  }

  /**
    When stamps come later than the interval leaves room for, or not at all, the timeout of a PINGREQ
    that is never answered can be put off for as long as the clock runs: every check sends another
    PINGREQ, and none reports anything.
   */
  lemma TimeoutPutOff(keepAlive: uint16, late: Lateness, n: nat)
    requires late.Harms(keepAlive) && CheckTime(keepAlive, late, n + 1) < TWO_64
    ensures var events := FailingEvents(keepAlive, late, n + 1); var s := RunOf(true, events);
      && RunWithin(events, keepAlive, late)
      && Outstanding(s, keepAlive, late, n)
      && (n > 0 ==> !OnePing(s.log))
  {
    hide OnePing, Outstanding, RunWithin, RunOf, Run, ChecksFrom, Idle, Connected, CheckTime;
    FailingRunWithin(keepAlive, late, n + 1);
    FailingRun(keepAlive, ChecksFrom(keepAlive, late, 0, n + 1));
    ConnectedIdle(keepAlive);
    ChecksPutOff(Connected(keepAlive), keepAlive, late, n + 1);
  }

  /**
    Exactly when no run has a second PINGREQ while one is unanswered, for keep-alive interval K: the
    reading that stamps a ping succeeds, and it trails the send by at most 1000 * (K - M - 1) ms. For
    K of 1 or 2 that is no drift at all.
   */
  lemma NoSecondPingIff(keepAlive: uint16, late: Lateness)
    requires keepAlive > 0 && late.delta < 0x1_0000_0000_0000
    ensures !late.unread && late.delta <= Margin(keepAlive) <==>
      forall events | RunWithin(events, keepAlive, late) :: OnePing(RunOf(true, events).log)
  {
    if !late.Harms(keepAlive) {
      forall events | RunWithin(events, keepAlive, late)
        ensures OnePing(RunOf(true, events).log)
      {
        InitialInv(true);
        RunKeepsPingInv(Initial(true), events, 0, late.delta);
      }
    } else {
      hide OnePing, RunWithin, RunOf;
      TimeoutPutOff(keepAlive, late, 1);
    }
  }

  /** The last check found every unanswered PINGREQ within its deadline. */
  ghost predicate InTime(s: State, delta: nat) {
    var h := HistoryOf(s.log);
    h.ping.Some? ==> h.check.Some? && h.check.value < h.ping.value.first + delta + PingTime(s.keepAliveInterval)
  }

  lemma WithinMarginInTime(events: seq<Event>, keepAlive: uint16, late: Lateness)
    requires keepAlive > 0 && !late.Harms(keepAlive) && RunWithin(events, keepAlive, late)
    ensures InTime(RunOf(true, events), late.delta)
  {
    hide HistoryOf, RunOf, MonotoneRun;
    var h := HistoryOf(RunOf(true, events).log);
    if h.ping.Some? {
      PingTimeoutNotLate(true, events, late.delta, 0, if h.check.Some? then h.check.value else 0);
    }
  }

  lemma PutOffNotInTime(keepAlive: uint16, late: Lateness)
    requires late.Harms(keepAlive) && late.delta < 0x1_0000_0000_0000
    ensures RunWithin(FailingEvents(keepAlive, late, 3), keepAlive, late)
    ensures !InTime(RunOf(true, FailingEvents(keepAlive, late, 3)), late.delta)
  {
    hide HistoryOf, RunWithin, RunOf, OnePing, FailingEvents;
    TimeoutPutOff(keepAlive, late, 2);
    assert Outstanding(RunOf(true, FailingEvents(keepAlive, late, 3)), keepAlive, late, 2);
  }

  /**
    Exactly when the timeout is never late in any run, for keep-alive interval K: under the same
    condition. Otherwise the first unanswered PINGREQ can be left behind.
   */
  lemma TimeoutInTimeIff(keepAlive: uint16, late: Lateness)
    requires keepAlive > 0 && late.delta < 0x1_0000_0000_0000
    ensures !late.unread && late.delta <= Margin(keepAlive) <==>
      forall events | RunWithin(events, keepAlive, late) :: InTime(RunOf(true, events), late.delta)
  {
    hide InTime, RunWithin, RunOf;
    if !late.Harms(keepAlive) {
      forall events | RunWithin(events, keepAlive, late)
        ensures InTime(RunOf(true, events), late.delta)
      {
        WithinMarginInTime(events, keepAlive, late);
      }
    } else {
      PutOffNotInTime(keepAlive, late);
    }
  }
}
