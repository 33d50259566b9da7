/** The connection state machine: CollectorController, the flags of Network, and the processor loop.

    Every send waits for its write by running the event loop, and closing the socket drains the
    event loop, so any handler may run nested inside any send or close, to any depth. What the
    event loop does next is read from a script, which is an arbitrary finite list: the contracts
    hold for every script, that is, for every finite run of the environment.
  */
module Connection {

  datatype ControllerState = SOCKET_CONNECTED | SENT_HELLO | CONNECTED | DISCONNECTED | PROMETHEUS_MODE

  datatype Notification = Notification(category: int, payload: string)

  datatype Message = Hello | Heartbeat | Statistics | AllocationTable | Record | Notice(n: Notification)

  datatype Incoming = Terminate | SampleRate(metricsOn: bool) | HeartbeatReceived | Unknown

  /** How an asynchronous operation ends: well, with an error that sendWithSize takes for a disconnect,
      or with another error. */
  datatype Outcome = Success | ConnectionError | OtherError

  datatype TimerName = SendTimer | ReceiveTimer | AllocationTimer | StatisticsTimer

  /** One choice of the environment. A timer that fires late had expired before it was re-armed or
      cancelled, so its handler was already queued. */
  datatype Occurrence =
    | TimerFires(timer: TimerName, late: bool)
    | MessageRead(message: Incoming)
    | ReadFails(retry: bool)
    | OperationTimesOut
    | OperationEnds(outcome: Outcome)
    | NothingReady
    | PopNotification(n: Notification)
    | PopRecord

  type Script = seq<Occurrence>

  datatype Timer = Timer(pending: bool, everArmed: bool)

  const ARMED := Timer(true, true)

  function Cancelled(t: Timer): Timer { t.(pending := false) }

  predicate CanFire(t: Timer, late: bool) { if late then t.everArmed else t.pending }

  datatype WireEvent = WriteStarts(m: Message) | WriteStops

  /** Writes neither nest nor interleave: starts and stops alternate. */
  predicate Alternates(wire: seq<WireEvent>)
  {
    forall i :: 0 <= i < |wire| ==> (wire[i].WriteStarts? <==> i % 2 == 0)
  }

  lemma AlternatesOneMore(wire: seq<WireEvent>, e: WireEvent)
    requires Alternates(wire) && (e.WriteStarts? <==> |wire| % 2 == 0)
    ensures Alternates(wire + [e])
  {
  }

  /** What writing these notifications leaves on the wire. */
  function Writes(ns: seq<Notification>): seq<WireEvent>
  {
    if ns == [] then []
    else Writes(ns[..|ns| - 1]) + [WriteStarts(Notice(ns[|ns| - 1])), WriteStops]
  }

  /** A write has stopped before the next one starts. */
  lemma WritesDoNotNest(wire: seq<WireEvent>, i: nat, j: nat)
    requires Alternates(wire) && i < j < |wire| && wire[i].WriteStarts? && wire[j].WriteStarts?
    ensures exists k :: i < k < j && wire[k].WriteStops?
  {
    assert wire[i + 1].WriteStops?;
  }

  /** What is written when a connection is reported: a hello, unless the report is the exporter's. */
  function FirstWrites(prometheusEnabled: bool): seq<WireEvent>
  {
    if prometheusEnabled then [] else [WriteStarts(Hello), WriteStops]
  }

  /** How the operation in flight has ended, if it has: the first end among what was handled counts. */
  datatype End = NotYet | Ended(outcome: Outcome)

  function EndOf(handled: Script): End
  {
    if handled == [] then NotYet
    else if handled[0].OperationEnds? then Ended(handled[0].outcome)
    else EndOf(handled[1..])
  }

  lemma {:induction false} EndOfBoth(a: Script, b: Script)
    ensures EndOf(a + b) == if EndOf(a) == NotYet then EndOf(b) else EndOf(a)
  {
    if a == [] {
      assert a + b == b;
    } else {
      EndOfBoth(a[1..], b);
      assert (a + b)[1..] == a[1..] + b;
    }
  }

  /** What becomes of an operation while these are handled and no other operation can start. */
  function EndAfter(end: End, handled: Script): End
  {
    if end == NotYet then EndOf(handled) else end
  }

  lemma EndAfterBoth(end: End, a: Script, b: Script)
    ensures EndAfter(end, a + b) == EndAfter(EndAfter(end, a), b)
    ensures EndAfter(end, []) == end
  {
    EndOfBoth(a, b);
  }

  lemma EndAfterOne(end: End, e: Occurrence)
    ensures EndAfter(end, [e]) == if end == NotYet && e.OperationEnds? then Ended(e.outcome) else end
  {
    assert [e][1..] == [] && EndOf([]) == NotYet;
  }

  /** The same over two stretches of handling. */
  lemma EndFollows(busy: bool, first: Script, middle: Script, last: Script, end0: End, end1: End, end2: End)
    requires first <= middle <= last
    requires busy ==> end1 == EndAfter(end0, middle[|first|..]) && end2 == EndAfter(end1, last[|middle|..])
    ensures busy ==> end2 == EndAfter(end0, last[|first|..])
  {
    assert last[|first|..] == middle[|first|..] + last[|middle|..];
    EndAfterBoth(end0, middle[|first|..], last[|middle|..]);
  }

  lemma EndAfterNotYet(handled: Script)
    ensures EndAfter(NotYet, handled) == EndOf(handled)
  {
  }

  /** An end that has come stays, whatever is handled later. */
  lemma EndStays(first: Script, middle: Script, last: Script, end: End)
    requires first <= middle <= last && end != NotYet && EndOf(middle[|first|..]) == end
    ensures EndOf(last[|first|..]) == end && EndAfter(end, last[|middle|..]) == end
  {
    assert last[|first|..] == middle[|first|..] + last[|middle|..];
    EndOfBoth(middle[|first|..], last[|middle|..]);
  }

  lemma NothingHandled(handled: Script, end: End)
    ensures handled[|handled|..] == [] && EndAfter(end, handled[|handled|..]) == end
  {
    EndAfterBoth(end, [], []);
  }

  const MIN_BACKOFF_TIME_IN_MS: nat := 1000
  const MAX_BACKOFF_TIME_IN_MS: nat := 60000

  class Network {
    const prometheusEnabled: bool
    var isConnected: bool
    var isSending: bool
    var hasSocket: bool
    var readPending: bool
    var operationDone: bool
    var operationResult: Outcome
    ghost var writing: bool
    ghost var wire: seq<WireEvent>

    constructor (prometheusEnabled: bool)
      ensures this.prometheusEnabled == prometheusEnabled
      ensures !isConnected && !isSending && !hasSocket && !readPending && !writing && wire == []
    {
      this.prometheusEnabled := prometheusEnabled;
      isConnected, isSending, hasSocket, readPending := false, false, false, false;
      operationDone, operationResult := true, Success;
      writing, wire := false, [];
    }

    /** A write in flight on a live connection is guarded by the sending flag. */
    ghost predicate WireOk()
      reads this
    {
      && Alternates(wire)
      && (writing <==> |wire| % 2 == 1)
      && (writing && isConnected ==> isSending)
      && (isConnected ==> hasSocket)
    }

    /** The operation in flight, or the last one, as the network sees it. */
    function Operation(): End
      reads this`operationDone, this`operationResult
    {
      if operationDone then Ended(operationResult) else NotYet
    }

    /** A send would write nothing. */
    predicate Busy()
      reads this`isConnected, this`isSending
    {
      isSending || !isConnected
    }

    method CloseSocket()
      modifies this`isConnected
      ensures isConnected == (old(isConnected) && !hasSocket)
    {
      if hasSocket {
        isConnected := false;
      }
    }

    /** Closes the socket, then drains the event loop before the socket is deleted. */
    method Close(controller: CollectorController, env: Script) returns (rest: Script)
      requires controller.network == this && controller.Inv()
      modifies this, controller
      ensures |rest| <= |env| && controller.Took(env, rest) && controller.Nested()
      ensures !isConnected && !hasSocket && wire == old(wire)
      ensures old(hasSocket) ==> rest == [] || controller.Drained()
      ensures !old(hasSocket) ==> unchanged(controller) && rest == env
      ensures env == [] ==> isSending == old(isSending)
      decreases |env|, 0, 1
    {
      rest := env;
      CloseSocket();
      if hasSocket {
        var drained := false;
        while !drained && rest != []
          invariant |rest| <= |env| && controller.Took(env, rest) && controller.Nested()
          invariant !isConnected && wire == old(wire)
          invariant env == [] ==> isSending == old(isSending)
          invariant drained ==> controller.Drained()
          decreases |rest|
        {
          drained := rest[0] == NothingReady;
          ghost var middle, end := controller.handled, Operation();
          rest := controller.RunOne(rest);
          EndFollows(old(Busy()), old(controller.handled), middle, controller.handled, old(Operation()), end,
                     Operation());
        }
        hasSocket := false;
      }
    }

    /** Runs one handler after another until the operation in flight has a result. */
    method AwaitCompletion(controller: CollectorController, env: Script) returns (rest: Script)
      requires controller.network == this && controller.Inv() && Busy()
      modifies this, controller
      ensures |rest| <= |env| && controller.Took(env, rest) && controller.Nested()
      ensures Operation() == EndAfter(old(Operation()), controller.Since(old(controller.handled)))
      ensures operationDone || rest == []
      ensures old(operationDone) ==> rest == env
      ensures rest == env ==> unchanged(this) && unchanged(controller)
      ensures !old(operationDone) && env != [] && env[0].OperationEnds? ==>
                rest == env[1..] && Operation() == Ended(env[0].outcome) && readPending == old(readPending)
      decreases |env|, 0, 1
    {
      rest := env;
      NothingHandled(controller.handled, Operation());
      while !operationDone && rest != []
        invariant |rest| <= |env| && controller.Took(env, rest) && controller.Nested()
        invariant old(operationDone) ==> operationDone && rest == env
        invariant rest == env ==> unchanged(this) && unchanged(controller)
        invariant rest != env ==> |rest| < |env|
        invariant !old(operationDone) && env != [] && env[0].OperationEnds? && rest != env ==>
                    rest == env[1..] && Operation() == Ended(env[0].outcome) && readPending == old(readPending)
        decreases |rest|
      {
        ghost var middle, end := controller.handled, Operation();
        rest := controller.RunOne(rest);
        EndFollows(old(Busy()), old(controller.handled), middle, controller.handled, old(Operation()), end,
                   Operation());
      }
    }

    /** Sends one message. Nothing is written if there is no connection, or if a send is under way
        further out; otherwise the result says whether the write succeeded. */
    method SendWithSize(controller: CollectorController, m: Message, env: Script) returns (ok: bool, rest: Script)
      requires controller.network == this && controller.Inv()
      modifies this, controller
      ensures |rest| <= |env| && controller.Took(env, rest) && controller.Nested()
      ensures ok <==> !old(Busy()) && EndOf(controller.Since(old(controller.handled))) == Ended(Success)
      ensures !old(Busy()) && EndOf(controller.Since(old(controller.handled))) == NotYet ==> rest == []
      ensures !old(Busy()) && env != [] && env[0] == OperationEnds(Success) ==>
                rest == env[1..] && readPending == old(readPending)
      ensures old(Busy()) || env == [] ==> rest == env && readPending == old(readPending)
      ensures wire == if old(isConnected && !isSending) then old(wire) + [WriteStarts(m), WriteStops] else old(wire)
      ensures !old(isConnected && !isSending) ==> controller.state == old(controller.state)
      ensures isSending == old(isConnected && isSending)
      decreases |env|, 2, 3
    {
      hide Alternates, EndOf, EndAfter;
      rest := env;
      ok := false;
      NothingHandled(controller.handled, Operation());
      if isConnected {
        if isSending {
          return;
        }
        var end;
        end, rest := Write(controller, m, rest);
        isSending := false;
        ok := end == Ended(Success);
        return;
      }
      isSending := false;
    }

    /** The write itself, which goes on until the operation ends or the script does. An error that looks like
        a disconnect ends the session. */
    method Write(controller: CollectorController, m: Message, env: Script) returns (end: End, rest: Script)
      requires controller.network == this && controller.Inv() && isConnected && !isSending
      modifies this, controller
      ensures |rest| <= |env| && controller.Took(env, rest) && controller.Inv() && controller.StateMoves()
      ensures !writing && wire == old(wire) + [WriteStarts(m), WriteStops]
      ensures end == EndOf(controller.Since(old(controller.handled))) && (end == NotYet ==> rest == [])
      ensures end == Ended(ConnectionError) ==> controller.state == DISCONNECTED && !isConnected && !hasSocket
      ensures env != [] && env[0] == OperationEnds(Success) ==> rest == env[1..] && readPending == old(readPending)
      ensures env == [] ==> readPending == old(readPending)
      decreases |env|, 2, 2
    {
      hide Alternates, EndOf, EndAfter, CollectorController.OperationFollows;
      end, rest := Transmit(controller, m, env);
      if end == Ended(ConnectionError) {
        ghost var middle := controller.handled;
        rest := EndSession(controller, rest);
        EndStays(old(controller.handled), middle, controller.handled, end);
      }
    }

    method Transmit(controller: CollectorController, m: Message, env: Script) returns (end: End, rest: Script)
      requires controller.network == this && controller.Inv() && isConnected && !isSending
      modifies this, controller
      ensures |rest| <= |env| && controller.Took(env, rest) && controller.Inv() && controller.StateMoves()
      ensures !writing && Busy() && wire == old(wire) + [WriteStarts(m), WriteStops]
      ensures end == Operation() == EndOf(controller.Since(old(controller.handled))) && (end == NotYet ==> rest == [])
      ensures env != [] && env[0].OperationEnds? ==>
                rest == env[1..] && end == Ended(env[0].outcome) && readPending == old(readPending)
      ensures env == [] ==> readPending == old(readPending) && end == NotYet
      decreases |env|, 2, 0
    {
      hide Alternates, EndOf, EndAfter, CollectorController.OperationFollows;
      isSending := true;
      operationDone, operationResult := false, Success;
      AlternatesOneMore(wire, WriteStarts(m));
      wire, writing := wire + [WriteStarts(m)], true;
      rest := AwaitCompletion(controller, env);
      AlternatesOneMore(wire, WriteStops);
      wire, writing := wire + [WriteStops], false;
      end := Operation();
      EndAfterNotYet(controller.Since(old(controller.handled)));
    }

    /** After an error that looks like a disconnect. */
    method EndSession(controller: CollectorController, env: Script) returns (rest: Script)
      requires controller.network == this && controller.Inv() && Busy()
      modifies this, controller
      ensures |rest| <= |env| && controller.Took(env, rest) && controller.Inv() && controller.NetworkOnlyWorse()
      ensures controller.isOn ==> old(controller.isOn)
      ensures controller.backoffTimeInMs == old(controller.backoffTimeInMs)
      ensures old(controller.state) != SENT_HELLO ==> controller.notifications == old(controller.notifications)
      ensures controller.state == DISCONNECTED && !isConnected && !hasSocket && wire == old(wire)
      decreases |env|, 2, 0
    {
      hide Alternates, EndOf, EndAfter;
      rest := Close(controller, env);
      ghost var middle, end := controller.handled, Operation();
      rest := controller.OnDisconnect(rest);
      EndFollows(true, old(controller.handled), middle, controller.handled, old(Operation()), end, Operation());
    }
  }

  class CollectorController {
    const network: Network
    var state: ControllerState
    var isOn: bool
    var metricsOn: bool
    var sendTimer: Timer
    var receiveTimer: Timer
    var allocationTimer: Timer
    var statisticsTimer: Timer
    var backoffTimeInMs: nat
    var notifications: seq<Notification>
    ghost var handled: Script

    /** Everything that has been taken off the script has been handled, in order. */
    twostate predicate Took(env: Script, rest: Script)
      reads this`handled
    {
      old(handled) <= handled && handled + rest == old(handled) + env
    }

    ghost function Since(before: Script): Script
      reads this`handled
      requires |before| <= |handled|
    {
      handled[|before|..]
    }

    /** The last poll found nothing to run. */
    ghost predicate Drained()
      reads this`handled
    {
      handled != [] && handled[|handled| - 1] == NothingReady
    }

    /** While no operation can start, the one in flight ends with the first end that is handled. */
    twostate predicate OperationFollows()
      reads this, network
    {
      && old(handled) <= handled
      && (old(network.Busy()) ==>
            network.Operation() == EndAfter(old(network.Operation()), handled[|old(handled)|..]))
    }

    /** What holds at every point where a handler can run, except the watchdog. */
    ghost predicate Core()
      reads this, network
    {
      && network.WireOk()
      && (state == PROMETHEUS_MODE ==>
            !network.isConnected && !network.hasSocket && !network.readPending && !receiveTimer.everArmed)
      && (receiveTimer.pending ==> receiveTimer.everArmed)
      && (backoffTimeInMs == 0 || MIN_BACKOFF_TIME_IN_MS <= backoffTimeInMs <= MAX_BACKOFF_TIME_IN_MS)
    }

    /** While the collector's answer is awaited or a session is up, a receive timer is pending. */
    ghost predicate Watchdog()
      reads this
    {
      state == SENT_HELLO || state == CONNECTED ==> receiveTimer.pending
    }

    ghost predicate Inv()
      reads this, network
    {
      Core() && Watchdog()
    }

    /** No write is in flight; but the sending flag may be set, left over from the parent of a fork. */
    ghost predicate Resting()
      reads this, network
    {
      && Inv()
      && state != SOCKET_CONNECTED
      && !network.writing
      && (state == DISCONNECTED ==> !network.hasSocket)
    }

    /** The state in which the processor loop finds everything. */
    ghost predicate AtTop()
      reads this, network
    {
      Resting() && !network.isSending
    }

    /** What the processor loop can see of the controller between two of its calls. */
    ghost function Look(): Glimpse
      reads this, network
    {
      Glimpse(state, receiveTimer.pending, network.isSending, network.hasSocket, network.wire)
    }

    /** What a nested handler may have done to the network by the time it returns: it has not connected,
        it has left the sending flag alone or lost the connection, and it has started no write while one was
        in flight, the flag was set or there was no connection. */
    twostate predicate NetworkOnlyWorse()
      reads this, network
    {
      && (network.isConnected ==> old(network.isConnected))
      && (network.isSending ==> old(network.isSending))
      && (network.isConnected ==> network.isSending == old(network.isSending))
      && (network.hasSocket ==> old(network.hasSocket))
      && network.writing == old(network.writing)
      && old(network.wire) <= network.wire
      && (old(network.writing || network.isSending || !network.isConnected) ==> network.wire == old(network.wire))
      && OperationFollows()
    }

    /** How the controller itself can have changed when something nested returns. */
    twostate predicate StateMoves()
      reads this, network
    {
      && backoffTimeInMs == old(backoffTimeInMs)
      && (isOn ==> old(isOn))
      && (|| state == old(state)
          || (old(state) != PROMETHEUS_MODE && state == DISCONNECTED && !network.hasSocket)
          || (old(state) == SENT_HELLO && state == CONNECTED))
      && (old(state) != SENT_HELLO ==> notifications == old(notifications))
    }

    /** The effect of anything that can run nested inside a send or a close. */
    twostate predicate Nested()
      reads this, network
    {
      Inv() && NetworkOnlyWorse() && StateMoves()
    }

    constructor (network: Network, on: bool)
      requires !network.isConnected && !network.isSending && !network.hasSocket && !network.readPending
      requires !network.writing && network.wire == []
      ensures this.network == network && AtTop()
      ensures state == if network.prometheusEnabled then PROMETHEUS_MODE else DISCONNECTED
    {
      this.network := network;
      isOn := on;
      state := if network.prometheusEnabled then PROMETHEUS_MODE else DISCONNECTED;
      metricsOn := false;
      sendTimer, receiveTimer := Timer(false, false), Timer(false, false);
      allocationTimer, statisticsTimer := Timer(false, false), Timer(false, false);
      backoffTimeInMs, notifications, handled := 0, [], [];
    }

    /** What a timer does when it fires. */
    twostate predicate Fired(timer: TimerName, late: bool)
      reads this, network
    {
      match timer
      case SendTimer => CanFire(old(sendTimer), late) ==> sendTimer.pending && Wrote(Heartbeat)
      case ReceiveTimer =>
        CanFire(old(receiveTimer), late) ==>
          state == DISCONNECTED && !network.isConnected && receiveTimer.pending
      case AllocationTimer => CanFire(old(allocationTimer), late) ==> allocationTimer.pending && Wrote(AllocationTable)
      case StatisticsTimer => CanFire(old(statisticsTimer), late) ==> statisticsTimer.pending && Wrote(Statistics)
    }

    twostate predicate Wrote(m: Message)
      reads this, network
    {
      network.wire == old(network.wire) + if old(network.Busy()) then [] else [WriteStarts(m), WriteStops]
    }

    /** What a message does when it is read. */
    twostate predicate WasRead(message: Incoming)
      reads this, network
    {
      match message
      case Terminate => !isOn
      case SampleRate(switchMetricsOn) =>
        if old(state) == SENT_HELLO then
          && (state == CONNECTED || state == DISCONNECTED) && notifications == []
          && (!old(network.isSending) && network.isConnected ==>
                state == CONNECTED && network.wire == old(network.wire) + Writes(old(notifications)))
        else metricsOn == switchMetricsOn
      case HeartbeatReceived => receiveTimer.pending
      case Unknown => true
    }

    /** One handler of the event loop, the first of the script, with everything nested in it. An occurrence
        that is not possible now changes nothing. */
    method RunOne(env: Script) returns (rest: Script)
      requires Inv() && env != []
      modifies this, network
      ensures |rest| < |env| && Took(env, rest) && Nested()
      ensures Handled(env[0])
      ensures !env[0].TimerFires? && !env[0].MessageRead? ==> rest == env[1..]
      ensures env[0].OperationEnds? ==>
        network.Operation() == if old(network.operationDone) then old(network.Operation()) else Ended(env[0].outcome)
      decreases |env|, 0, 0
    {
      hide EndOf, EndAfter;
      var e := env[0];
      rest := env[1..];
      EndAfterOne(network.Operation(), e);
      handled := handled + [e];
      assert [e] + rest == env && handled[|old(handled)|..] == [e];
      if e.OperationEnds? {
        if !network.operationDone {
          network.operationDone, network.operationResult := true, e.outcome;
        }
      } else {
        ghost var middle, end := handled, network.Operation();
        rest := Handle(e, rest);
        EndFollows(old(network.Busy()), old(handled), middle, handled, old(network.Operation()), end,
                   network.Operation());
      }
    }

    twostate predicate Handled(e: Occurrence)
      reads this, network
    {
      match e
      case TimerFires(timer, late) => Fired(timer, late)
      case MessageRead(message) =>
        old(network.readPending) ==> WasRead(message) && (network.isConnected ==> network.readPending)
      case ReadFails(retry) => old(network.readPending) ==> network.readPending == (retry && network.isConnected)
      case OperationTimesOut => network.isConnected == (old(network.isConnected) && !network.hasSocket)
      case OperationEnds(_) =>
        && network.operationDone && handled == old(handled) + [e]
        && network.readPending == old(network.readPending) && network.hasSocket == old(network.hasSocket)
      case NothingReady => unchanged(network) && Drained()
      case PopNotification(_) => unchanged(network)
      case PopRecord => unchanged(network)
    }

    method Handle(e: Occurrence, env: Script) returns (rest: Script)
      requires Inv() && !e.OperationEnds? && (e.NothingReady? ==> Drained())
      modifies this, network
      ensures |rest| <= |env| && Took(env, rest) && Nested()
      ensures Handled(e)
      ensures !e.TimerFires? && !e.MessageRead? ==> rest == env
      decreases |env|, 6, 1
    {
      rest := env;
      NothingHandled(handled, network.Operation());
      match e
      case TimerFires(timer, late) =>
        rest := FireTimer(timer, late, rest);
      case MessageRead(message) =>
        if network.readPending {
          network.readPending := false;
          rest := OnReadBody(message, rest);
          AttemptRead();
        }
      case ReadFails(retry) =>
        if network.readPending {
          network.readPending := false;
          if retry {
            AttemptRead();
          }
        }
      case OperationTimesOut =>
        network.CloseSocket();
      case NothingReady =>
      case PopNotification(_) =>
      case PopRecord =>
    }

    method FireTimer(timer: TimerName, late: bool, env: Script) returns (rest: Script)
      requires Inv()
      modifies this, network
      ensures |rest| <= |env| && Took(env, rest) && Nested()
      ensures Fired(timer, late)
      decreases |env|, 6, 0
    {
      rest := env;
      NothingHandled(handled, network.Operation());
      match timer
      case SendTimer =>
        if CanFire(sendTimer, late) {
          sendTimer := if late then sendTimer else Cancelled(sendTimer);
          rest := OnSendTimer(rest);
        }
      case ReceiveTimer =>
        if CanFire(receiveTimer, late) {
          receiveTimer := if late then receiveTimer else Cancelled(receiveTimer);
          rest := OnReceiveTimer(rest);
        }
      case AllocationTimer =>
        if CanFire(allocationTimer, late) {
          allocationTimer := if late then allocationTimer else Cancelled(allocationTimer);
          rest := OnAllocationTimer(rest);
        }
      case StatisticsTimer =>
        if CanFire(statisticsTimer, late) {
          statisticsTimer := if late then statisticsTimer else Cancelled(statisticsTimer);
          rest := OnStatisticsTimer(rest);
        }
    }

    method AttemptRead()
      modifies network`readPending
      ensures network.readPending == (old(network.readPending) || network.isConnected)
    {
      if network.isConnected {
        network.readPending := true;
      }
    }

    method OnReadBody(message: Incoming, env: Script) returns (rest: Script)
      requires Inv() && state != PROMETHEUS_MODE
      modifies this, network
      ensures |rest| <= |env| && Took(env, rest) && Nested() && WasRead(message)
      ensures !message.SampleRate? || old(state) != SENT_HELLO ==>
                state == old(state) && network.wire == old(network.wire) && rest == env
      decreases |env|, 5
    {
      rest := env;
      NothingHandled(handled, network.Operation());
      match message
      case Terminate => isOn := false;
      case SampleRate(switchMetricsOn) => rest := OnSampleRate(switchMetricsOn, rest);
      case HeartbeatReceived => receiveTimer := ARMED;
      case Unknown =>
    }

    method OnSampleRate(switchMetricsOn: bool, env: Script) returns (rest: Script)
      requires Inv() && state != PROMETHEUS_MODE
      modifies this, network
      ensures |rest| <= |env| && Took(env, rest) && Nested() && WasRead(SampleRate(switchMetricsOn))
      ensures old(state) != SENT_HELLO ==> state == old(state) && network.wire == old(network.wire) && rest == env
      decreases |env|, 4
    {
      rest := env;
      NothingHandled(handled, network.Operation());
      metricsOn := switchMetricsOn;
      if state == SENT_HELLO {
        rest := OnFirstSampleRate(rest);
      }
    }

    method OnFirstSampleRate(env: Script) returns (rest: Script)
      requires Inv() && state == SENT_HELLO
      modifies this, network
      ensures |rest| <= |env| && Took(env, rest) && Nested() && notifications == []
      ensures (state == CONNECTED || state == DISCONNECTED) && receiveTimer.pending
      ensures sendTimer.pending && statisticsTimer.pending
      ensures old(network.isSending) ==> network.wire == old(network.wire)
      ensures !old(network.isSending) && network.isConnected ==>
                state == CONNECTED && network.wire == old(network.wire) + Writes(old(notifications))
      decreases |env|, 3
    {
      state := CONNECTED;
      ghost var sent: nat;
      sent, rest := SendStashedNotifications(env);
      assert old(notifications)[..|old(notifications)|] == old(notifications);
      sendTimer := ARMED;
      receiveTimer := ARMED;
      statisticsTimer := ARMED;
    }

    /** Offers every stashed notification once, in order; handlers that run inside the sends never
        touch the list that is being walked. Exactly those before a loss of the connection are
        written, none of them if this runs inside another send; the list is emptied in any case. */
    method SendStashedNotifications(env: Script) returns (ghost sent: nat, rest: Script)
      requires Inv() && state == CONNECTED
      modifies this, network
      ensures |rest| <= |env| && Took(env, rest) && Inv() && NetworkOnlyWorse()
      ensures backoffTimeInMs == old(backoffTimeInMs)
      ensures isOn ==> old(isOn)
      ensures state == CONNECTED || (state == DISCONNECTED && !network.hasSocket)
      ensures notifications == [] && sent <= |old(notifications)|
      ensures network.wire == old(network.wire) + Writes(old(notifications)[..sent])
      ensures old(network.isSending || !network.isConnected) ==> sent == 0
      ensures !old(network.isSending) && network.isConnected ==> sent == |old(notifications)|
      ensures network.isConnected ==> state == CONNECTED
      decreases |env|, 3, 0
    {
      rest := env;
      sent := 0;
      var it := 0;
      NothingHandled(handled, network.Operation());
      while it < |notifications|
        invariant 0 <= it <= |notifications| && notifications == old(notifications)
        invariant |rest| <= |env| && Took(env, rest) && Nested()
        invariant sent <= it && network.wire == old(network.wire) + Writes(notifications[..sent])
        invariant network.isConnected ==> network.isSending == old(network.isSending)
        invariant old(network.isSending || !network.isConnected) ==> sent == 0
        invariant !old(network.isSending) && network.isConnected ==> sent == it
      {
        if network.isConnected && !network.isSending {
          assert notifications[..it + 1][..it] == notifications[..it];
          sent := it + 1;
        }
        ghost var middle, end := handled, network.Operation();
        var _, rest' := network.SendWithSize(this, Notice(notifications[it]), rest);
        rest := rest';
        EndFollows(old(network.Busy()), old(handled), middle, handled, old(network.Operation()), end,
                   network.Operation());
        it := it + 1;
      }
      assert notifications[..|notifications|] == notifications;
      notifications := [];
    }

    method OnSendTimer(env: Script) returns (rest: Script)
      requires Inv()
      modifies this, network
      ensures |rest| <= |env| && Took(env, rest) && Nested() && sendTimer.pending
      ensures network.wire == if old(network.isConnected && !network.isSending)
                              then old(network.wire) + [WriteStarts(Heartbeat), WriteStops] else old(network.wire)
      decreases |env|, 5
    {
      var _, rest' := network.SendWithSize(this, Heartbeat, env);
      rest := rest';
      sendTimer := ARMED;
    }

    /** The watchdog: whatever the state was, the session is over and the timer runs again. */
    method OnReceiveTimer(env: Script) returns (rest: Script)
      requires Core() && state != PROMETHEUS_MODE
      modifies this, network
      ensures |rest| <= |env| && Took(env, rest) && Nested()
      ensures state == DISCONNECTED && !network.isConnected && !network.hasSocket && receiveTimer.pending
      decreases |env|, 5
    {
      rest := OnDisconnect(env);
      receiveTimer := ARMED;
    }

    method OnAllocationTimer(env: Script) returns (rest: Script)
      requires Inv()
      modifies this, network
      ensures |rest| <= |env| && Took(env, rest) && Nested() && allocationTimer.pending
      ensures network.wire == if old(network.isConnected && !network.isSending)
                              then old(network.wire) + [WriteStarts(AllocationTable), WriteStops] else old(network.wire)
      decreases |env|, 5
    {
      var _, rest' := network.SendWithSize(this, AllocationTable, env);
      rest := rest';
      allocationTimer := ARMED;
    }

    method OnStatisticsTimer(env: Script) returns (rest: Script)
      requires Inv()
      modifies this, network
      ensures |rest| <= |env| && Took(env, rest) && Nested() && statisticsTimer.pending
      ensures network.wire == if old(network.isConnected && !network.isSending)
                              then old(network.wire) + [WriteStarts(Statistics), WriteStops] else old(network.wire)
      decreases |env|, 5
    {
      var _, rest' := network.SendWithSize(this, Statistics, env);
      rest := rest';
      statisticsTimer := ARMED;
    }

    method OnDisconnect(env: Script) returns (rest: Script)
      requires Core()
      modifies this, network
      ensures |rest| <= |env| && Took(env, rest) && Inv() && NetworkOnlyWorse()
      ensures backoffTimeInMs == old(backoffTimeInMs) && notifications == old(notifications) && (isOn ==> old(isOn))
      ensures state == DISCONNECTED && !network.isConnected && !network.hasSocket && network.wire == old(network.wire)
      ensures !old(network.hasSocket) ==>
                && !sendTimer.pending && !receiveTimer.pending && !allocationTimer.pending && !statisticsTimer.pending
                && !metricsOn && rest == env
      decreases |env|, 1
    {
      state := DISCONNECTED;
      sendTimer := Cancelled(sendTimer);
      receiveTimer := Cancelled(receiveTimer);
      allocationTimer := Cancelled(allocationTimer);
      statisticsTimer := Cancelled(statisticsTimer);
      metricsOn := false;
      rest := network.Close(this, env);
    }

    // ---- below: called from the processor loop only, never from a handler ----

    method OnSocketConnect(env: Script) returns (rest: Script)
      requires Inv() && state == DISCONNECTED && !network.writing
      modifies this, network
      ensures |rest| <= |env| && Took(env, rest) && Resting() && state == SENT_HELLO && backoffTimeInMs == 0
      ensures old(network.isConnected) && (env == [] || env[0] == OperationEnds(Success)) ==> network.readPending
      ensures network.isConnected ==> old(network.isConnected)
      ensures network.isSending == old(network.isConnected && network.isSending)
      ensures network.wire == if old(network.isConnected && !network.isSending)
                              then old(network.wire) + [WriteStarts(Hello), WriteStops] else old(network.wire)
    {
      state := SOCKET_CONNECTED;
      backoffTimeInMs := 0;
      AttemptRead();
      var _, rest' := network.SendWithSize(this, Hello, env);
      rest := rest';
      OnSentHello();
    }

    method OnSentHello()
      requires Core() && state != PROMETHEUS_MODE
      modifies this`state, this`receiveTimer
      ensures Inv() && state == SENT_HELLO && receiveTimer.pending && backoffTimeInMs == old(backoffTimeInMs)
    {
      state := SENT_HELLO;
      receiveTimer := ARMED;
    }

    static function Grown(millis: nat): nat {
      if millis == 0 then MIN_BACKOFF_TIME_IN_MS
      else if millis * 3 / 2 > MAX_BACKOFF_TIME_IN_MS then MAX_BACKOFF_TIME_IN_MS
      else millis * 3 / 2
    }

    /** The time to wait grows by half at each failed attempt, from one second to one minute; the first
        attempt after a session does not wait. */
    method Backoff() returns (slept: bool)
      requires Core()
      modifies this`backoffTimeInMs
      ensures Core()
      ensures slept <==> old(backoffTimeInMs) != 0
      ensures backoffTimeInMs == Grown(old(backoffTimeInMs))
      ensures old(backoffTimeInMs) == 0 ==> backoffTimeInMs == MIN_BACKOFF_TIME_IN_MS
      ensures old(backoffTimeInMs) != 0 ==>
        && (backoffTimeInMs > old(backoffTimeInMs) || backoffTimeInMs == MAX_BACKOFF_TIME_IN_MS)
        && (backoffTimeInMs == MAX_BACKOFF_TIME_IN_MS || backoffTimeInMs == old(backoffTimeInMs) * 3 / 2)
    {
      if backoffTimeInMs == 0 {
        backoffTimeInMs := MIN_BACKOFF_TIME_IN_MS;
        return false;
      }
      backoffTimeInMs := backoffTimeInMs * 3 / 2;
      if backoffTimeInMs > MAX_BACKOFF_TIME_IN_MS {
        backoffTimeInMs := MAX_BACKOFF_TIME_IN_MS;
      }
      slept := true;
    }

    /** Waits for the end of a phase of connect; any handler can run meanwhile. */
    method AwaitPhase(env: Script) returns (outcome: Outcome, rest: Script)
      requires Inv()
      modifies this, network
      ensures |rest| <= |env| && Took(env, rest) && Nested()
      ensures rest == [] || (|handled| > |old(handled)| && handled[|handled| - 1] == OperationEnds(outcome))
      ensures env != [] && env[0].OperationEnds? ==> outcome == env[0].outcome && rest == env[1..]
      ensures env == [] ==> outcome == Success && network.isSending == old(network.isSending)
      ensures env == [] || env[0].OperationEnds? ==> network.hasSocket == old(network.hasSocket)
    {
      rest := env;
      outcome := Success;
      var ended := false;
      NothingHandled(handled, network.Operation());
      while !ended && rest != []
        invariant |rest| <= |env| && Took(env, rest) && Nested()
        invariant env == [] ==> outcome == Success && network.isSending == old(network.isSending)
        invariant rest == env ==> network.hasSocket == old(network.hasSocket)
        invariant ended ==> |rest| < |env|
        invariant ended ==> |handled| > |old(handled)| && handled[|handled| - 1] == OperationEnds(outcome)
        invariant rest != env ==> |rest| < |env|
        invariant env != [] && env[0].OperationEnds? && rest != env ==>
                    && ended && outcome == env[0].outcome && rest == env[1..]
                    && network.hasSocket == old(network.hasSocket)
        decreases |rest|
      {
        ghost var middle, end := handled, network.Operation();
        if rest[0].OperationEnds? {
          ended, outcome := true, rest[0].outcome;
        }
        rest := RunOne(rest);
        EndFollows(old(network.Busy()), old(handled), middle, handled, old(network.Operation()), end,
                   network.Operation());
      }
    }

    /** The two phases of a connect end well at once, or nothing at all is there to be handled. */
    static predicate Undisturbed(env: Script) {
      env == [] || (|env| >= 2 && env[0] == env[1] == OperationEnds(Success))
    }

    /** The name was found, and later the connection made, which was handled last. */
    static ghost predicate EndsTwice(handled: Script) {
      exists i, j :: 0 <= i < j == |handled| - 1 && handled[i] == OperationEnds(Success) == handled[j]
    }

    /** Network::connect. A connection exists afterwards exactly if it is reported, except that the
        exporter mode reports success without one. */
    method Connect(handshake: bool, env: Script) returns (ok: bool, rest: Script)
      requires Resting() && state == DISCONNECTED
      modifies this, network
      ensures |rest| <= |env| && Took(env, rest) && Inv() && state == DISCONNECTED && !network.writing
      ensures network.isSending ==> old(network.isSending)
      ensures env == [] ==> network.isSending == old(network.isSending)
      ensures network.wire == old(network.wire) && notifications == old(notifications)
      ensures backoffTimeInMs == old(backoffTimeInMs)
      ensures network.prometheusEnabled ==> ok && !network.isConnected
      ensures !network.prometheusEnabled ==> (ok <==> network.isConnected)
      ensures !ok ==> Resting()
      ensures !network.prometheusEnabled && Undisturbed(env) ==> (ok <==> handshake)
      ensures !network.prometheusEnabled && env != [] && env[0].OperationEnds? && env[0].outcome != Success ==> !ok
      ensures ok && rest != [] && !network.prometheusEnabled ==> EndsTwice(Since(old(handled)))
    {
      rest := env;
      ok := false;
      if network.prometheusEnabled {
        return true, rest;
      }
      var resolved, rest1 := AwaitPhase(rest);
      rest := rest1;
      if resolved != Success {
        if rest != [] {
          rest := RunOne(rest);
        }
        rest := network.Close(this, rest);
        return;
      }
      ghost var first := |Since(old(handled))| - 1;
      network.hasSocket := true;
      var connected, rest2 := AwaitPhase(rest);
      rest := rest2;
      if connected != Success || !network.hasSocket {
        rest := network.Close(this, rest);
        return;
      }
      if !handshake {
        rest := network.Close(this, rest);
        return;
      }
      assert rest != [] ==>
        && Since(old(handled))[first] == OperationEnds(Success)
        && Since(old(handled))[|Since(old(handled))| - 1] == OperationEnds(Success);
      network.isConnected := true;
      ok := true;
    }

    /** A disconnected controller always attempts to connect again, and says so by its result. */
    method Poll(handshake: bool, env: Script) returns (connected: bool, rest: Script)
      requires Resting()
      modifies this, network
      ensures |rest| <= |env| && Took(env, rest) && Resting() && (old(AtTop()) ==> AtTop())
      ensures old(network.wire) <= network.wire
      ensures old(state) != DISCONNECTED ==>
        !connected && rest == env && state == old(state) && network.wire == old(network.wire)
      ensures old(state) == DISCONNECTED ==> state == if connected then SENT_HELLO else DISCONNECTED
      ensures old(state) == DISCONNECTED ==> backoffTimeInMs == if connected then 0 else Grown(old(backoffTimeInMs))
      ensures old(state) == DISCONNECTED && !network.prometheusEnabled && Undisturbed(env) ==>
                (connected <==> handshake)
      ensures old(state == DISCONNECTED && !network.isSending) ==>
                network.wire == old(network.wire) + if connected then FirstWrites(network.prometheusEnabled) else []
      ensures old(state == DISCONNECTED && network.isSending) && env == [] ==>
                network.wire == old(network.wire) && (network.isConnected ==> network.isSending)
    {
      rest := env;
      connected := false;
      if state == DISCONNECTED {
        var _ := Backoff();
        var ok, rest' := Connect(handshake, rest);
        rest := rest';
        if ok {
          rest := OnSocketConnect(rest);
          connected := true;
        }
      }
    }

    /** Sent if connected; otherwise kept until the collector has answered. */
    method RecordNotification(n: Notification, env: Script) returns (rest: Script)
      requires AtTop() && state != PROMETHEUS_MODE
      modifies this, network
      ensures |rest| <= |env| && Took(env, rest) && AtTop() && state != PROMETHEUS_MODE
      ensures old(network.wire) <= network.wire
      ensures network.isConnected ==> old(network.isConnected)
      ensures old(state) != CONNECTED ==>
                && notifications == old(notifications) + [n] && rest == env
                && state == old(state) && network.wire == old(network.wire)
      ensures old(state) == CONNECTED ==>
                && (state == CONNECTED || state == DISCONNECTED)
                && notifications == old(notifications)
                && network.wire == if old(network.isConnected)
                                   then old(network.wire) + [WriteStarts(Notice(n)), WriteStops] else old(network.wire)
    {
      rest := env;
      if state == CONNECTED {
        var _, rest' := network.SendWithSize(this, Notice(n), rest);
        rest := rest';
      } else {
        notifications := notifications + [n];
      }
    }

    /** Terminates a session, or the exporter. */
    method OnEnd(env: Script) returns (rest: Script)
      requires AtTop()
      modifies this, network
      ensures |rest| <= |env| && Took(env, rest) && AtTop() && state == DISCONNECTED && !network.isConnected
      ensures isOn ==> old(isOn)
      ensures network.wire == old(network.wire)
    {
      rest := OnDisconnect(env);
    }

    /** In the child of a fork everything starts again, the exporter as a disconnected controller, and on a
        wire of its own. The fork can come at any point of the processor thread, which the child lacks. The
        sending flag is not reset: if a send was under way, and no handler clears the flag while the socket
        closes, the child keeps it. */
    method OnFork(env: Script) returns (rest: Script)
      requires Inv()
      modifies this, network
      ensures |rest| <= |env| && Took(env, rest) && Resting() && (old(AtTop()) ==> AtTop())
      ensures state == DISCONNECTED && !network.isConnected && !network.hasSocket && network.wire == []
      ensures notifications == [] && backoffTimeInMs == 0
      ensures network.isSending ==> old(network.isSending)
      ensures env == [] ==> network.isSending == old(network.isSending)
    {
      network.wire, network.writing := [], false;
      notifications := [];
      backoffTimeInMs := 0;
      state := DISCONNECTED;
      metricsOn := false;
      rest := network.Close(this, env);
    }
  }

  /** A fork inside a send, with no handler left to run: whatever happens on the child's first connection,
      nothing is written on it, not even the hello. */
  method ForkInsideSend(controller: CollectorController, env: Script) returns (rest: Script)
    requires controller.Inv() && controller.network.isSending
    modifies controller, controller.network
    ensures controller.Inv() && controller.network.wire == []
  {
    hide Alternates;
    var _ := controller.OnFork([]);
    var connected, none := controller.Poll(true, []);
    rest := env;
    while rest != []
      invariant controller.Inv() && controller.network.wire == []
      invariant controller.network.isConnected ==> controller.network.isSending
      decreases |rest|
    {
      rest := controller.RunOne(rest);
    }
  }

  const MAX_POLLS: nat := 10

  datatype Glimpse = Glimpse(state: ControllerState, watched: bool, isSending: bool, hasSocket: bool,
                             wire: seq<WireEvent>)

  /** The processor loop never finds a half-made connection, a send under way, or a session nobody watches. */
  predicate Sound(g: Glimpse)
  {
    && g.state != SOCKET_CONNECTED
    && (g.state == SENT_HELLO || g.state == CONNECTED ==> g.watched)
    && !g.isSending
    && (g.state == DISCONNECTED ==> !g.hasSocket)
  }

  /** The transitions that the processor loop can see. A session starts with a hello from DISCONNECTED and
      ends in DISCONNECTED; the exporter mode is neither entered nor left; outside a session nothing is
      written, and nothing written is taken back. */
  predicate MayFollow(prometheusEnabled: bool, before: Glimpse, after: Glimpse)
  {
    && before.wire <= after.wire
    && match before.state
       case SOCKET_CONNECTED => false
       case SENT_HELLO => after.state == SENT_HELLO || after.state == CONNECTED || after.state == DISCONNECTED
       case CONNECTED => after.state == CONNECTED || after.state == DISCONNECTED
       case DISCONNECTED =>
         || (after.state == DISCONNECTED && after.wire == before.wire)
         || (after.state == SENT_HELLO && after.wire == before.wire + FirstWrites(prometheusEnabled))
       case PROMETHEUS_MODE => after.state == PROMETHEUS_MODE && after.wire == before.wire
  }

  ghost predicate SoundRun(prometheusEnabled: bool, seen: seq<Glimpse>)
  {
    && (forall i :: 0 <= i < |seen| ==> Sound(seen[i]))
    && (forall i, j :: 0 <= i < |seen| && j == i + 1 < |seen| ==> MayFollow(prometheusEnabled, seen[i], seen[j]))
  }

  lemma SoundRunGoesOn(prometheusEnabled: bool, seen: seq<Glimpse>, g: Glimpse)
    requires SoundRun(prometheusEnabled, seen) && seen != []
    requires Sound(g) && MayFollow(prometheusEnabled, seen[|seen| - 1], g)
    ensures SoundRun(prometheusEnabled, seen + [g])
  {
  }

  /** A session that the loop has found up is up until the loop has found it down. */
  lemma {:induction false} SessionsEndDisconnected(prometheusEnabled: bool, seen: seq<Glimpse>, i: nat, j: nat)
    requires SoundRun(prometheusEnabled, seen)
    requires i < j < |seen| && seen[i].state == CONNECTED && seen[j].state == SENT_HELLO
    ensures exists k :: i < k < j && seen[k].state == DISCONNECTED
    decreases j
  {
    assert MayFollow(prometheusEnabled, seen[j - 1], seen[j]);
    if seen[j - 1].state == SENT_HELLO {
      SessionsEndDisconnected(prometheusEnabled, seen, i, j - 1);
    }
  }

  /** The exporter never writes to the collector, however long it runs. */
  lemma {:induction false} ExporterStaysSilent(prometheusEnabled: bool, seen: seq<Glimpse>, j: nat)
    requires SoundRun(prometheusEnabled, seen) && j < |seen| && seen[0].state == PROMETHEUS_MODE
    ensures seen[j].state == PROMETHEUS_MODE && seen[j].wire == seen[0].wire
  {
    if j > 0 {
      ExporterStaysSilent(prometheusEnabled, seen, j - 1);
      assert MayFollow(prometheusEnabled, seen[j - 1], seen[j]);
    }
  }

  predicate IsPop(e: Occurrence) {
    e.PopNotification? || e.PopRecord?
  }

  /** What handing these items on leaves on the wire, while that is possible. */
  function PopWrites(popped: Script): seq<WireEvent>
    requires forall e <- popped :: IsPop(e)
  {
    if popped == [] then []
    else
      var last := popped[|popped| - 1];
      PopWrites(popped[..|popped| - 1])
        + [WriteStarts(if last.PopNotification? then Notice(last.n) else Record), WriteStops]
  }

  /** The notifications among these items. */
  function Notices(popped: Script): seq<Notification>
    requires forall e <- popped :: IsPop(e)
  {
    if popped == [] then []
    else
      var last := popped[|popped| - 1];
      Notices(popped[..|popped| - 1]) + if last.PopNotification? then [last.n] else []
  }

  lemma PopOneMore(popped: Script, e: Occurrence)
    requires IsPop(e) && forall p <- popped :: IsPop(p)
    ensures PopWrites(popped + [e])
         == PopWrites(popped) + [WriteStarts(if e.PopNotification? then Notice(e.n) else Record), WriteStops]
    ensures Notices(popped + [e]) == Notices(popped) + if e.PopNotification? then [e.n] else []
  {
    assert (popped + [e])[..|popped|] == popped;
  }

  /** Hands on queued items until MAX_POLLS of them or the queues are through. The connection may go down in
      between: those before that are written, and once the session is over notifications are stashed; the rest
      is lost. */
  method PopItems(controller: CollectorController, env: Script)
    returns (rest: Script, ghost written: Script, ghost lost: Script, ghost stashed: Script)
    requires controller.AtTop() && controller.state == CONNECTED
    modifies controller, controller.network
    ensures |rest| <= |env| && controller.Took(env, rest) && controller.AtTop()
    ensures controller.state == CONNECTED || controller.state == DISCONNECTED
    ensures forall e <- written + lost + stashed :: IsPop(e)
    ensures |written + lost + stashed| <= MAX_POLLS
    ensures |written + lost + stashed| == MAX_POLLS || rest == [] || !IsPop(rest[0])
    ensures controller.network.wire == old(controller.network.wire) + PopWrites(written)
    ensures controller.notifications == old(controller.notifications) + Notices(stashed)
    ensures lost != [] || stashed != [] ==> !controller.network.isConnected
    ensures stashed != [] ==> controller.state == DISCONNECTED
    ensures old(controller.network.isConnected) && env != [] && IsPop(env[0]) ==> written != [] && written[0] == env[0]
  {
    hide Alternates, EndOf, EndAfter, CollectorController.OperationFollows, PopWrites, Notices;
    rest := env;
    written, lost, stashed := [], [], [];
    NothingPopped();
    var i := 0;
    while i < MAX_POLLS && rest != [] && IsPop(rest[0])
      invariant |rest| <= |env| && controller.Took(env, rest) && controller.AtTop()
      invariant controller.state == CONNECTED || controller.state == DISCONNECTED
      invariant (forall e <- written :: IsPop(e)) && (forall e <- lost :: IsPop(e)) && (forall e <- stashed :: IsPop(e))
      invariant |written| + |lost| + |stashed| == i <= MAX_POLLS
      invariant controller.network.wire == old(controller.network.wire) + PopWrites(written)
      invariant controller.notifications == old(controller.notifications) + Notices(stashed)
      invariant lost != [] || stashed != [] ==> !controller.network.isConnected
      invariant stashed != [] ==> controller.state == DISCONNECTED
      invariant i == 0 ==> rest == env && controller.network.isConnected == old(controller.network.isConnected)
      invariant old(controller.network.isConnected) && i > 0 ==> written != [] && env != [] && written[0] == env[0]
    {
      var e := rest[0];
      ghost var up := controller.network.isConnected;
      ghost var session := controller.state == CONNECTED;
      rest := HandOn(controller, rest);
      if up {
        PopOneMore(written, e);
        written := written + [e];
      } else if session {
        lost := lost + [e];
      } else {
        PopOneMore(stashed, e);
        stashed := stashed + [e];
      }
      i := i + 1;
    }
  }

  lemma NothingPopped()
    ensures PopWrites([]) == [] && Notices([]) == []
  {
  }

  /** One item is written if there is a connection; otherwise a notification is stashed outside a session. */
  method HandOn(controller: CollectorController, env: Script) returns (rest: Script)
    requires controller.AtTop() && (controller.state == CONNECTED || controller.state == DISCONNECTED)
    requires env != [] && IsPop(env[0])
    modifies controller, controller.network
    ensures |rest| < |env| && controller.Took(env, rest) && controller.AtTop()
    ensures controller.state == old(controller.state) || controller.state == DISCONNECTED
    ensures controller.network.isConnected ==> old(controller.network.isConnected)
    ensures controller.network.wire ==
      old(controller.network.wire)
      + if !old(controller.network.isConnected) then []
        else [WriteStarts(if env[0].PopNotification? then Notice(env[0].n) else Record), WriteStops]
    ensures controller.notifications ==
      old(controller.notifications)
      + if old(controller.state) == DISCONNECTED && env[0].PopNotification? then [env[0].n] else []
  {
    hide Alternates, EndOf, EndAfter, CollectorController.OperationFollows;
    var e := env[0];
    controller.handled := controller.handled + [e];
    assert [e] + env[1..] == env;
    if e.PopNotification? {
      rest := controller.RecordNotification(e.n, env[1..]);
    } else {
      var _, rest' := controller.network.SendWithSize(controller, Record, env[1..]);
      rest := rest';
    }
  }

  /** A sound run whose last glimpse is of the controller as it is now. */
  ghost predicate Seen(controller: CollectorController, seen: seq<Glimpse>)
    reads controller, controller.network
  {
    && seen != [] && SoundRun(controller.network.prometheusEnabled, seen)
    && seen[|seen| - 1] == controller.Look()
  }

  ghost method LookAgain(controller: CollectorController, seen: seq<Glimpse>) returns (more: seq<Glimpse>)
    requires seen != [] && SoundRun(controller.network.prometheusEnabled, seen) && controller.AtTop()
    requires MayFollow(controller.network.prometheusEnabled, seen[|seen| - 1], controller.Look())
    ensures Seen(controller, more) && more == seen + [controller.Look()]
  {
    SoundRunGoesOn(controller.network.prometheusEnabled, seen, controller.Look());
    more := seen + [controller.Look()];
  }

  /** Runs handlers until there are MAX_POLLS or none is left. */
  method RunHandlers(controller: CollectorController, env: Script, ghost seen0: seq<Glimpse>)
    returns (rest: Script, ghost seen: seq<Glimpse>)
    requires controller.AtTop() && Seen(controller, seen0)
    modifies controller, controller.network
    ensures |rest| <= |env| && controller.Took(env, rest) && controller.AtTop()
    ensures Seen(controller, seen) && seen0 <= seen
    ensures |seen| <= |seen0| + MAX_POLLS && (|seen| == |seen0| + MAX_POLLS || rest == [])
  {
    hide Alternates, EndOf, EndAfter, CollectorController.OperationFollows, SoundRun;
    rest, seen := env, seen0;
    var i := 0;
    while i < MAX_POLLS && rest != []
      invariant |rest| <= |env| && controller.Took(env, rest) && controller.AtTop()
      invariant Seen(controller, seen) && seen0 <= seen && |seen| == |seen0| + i && i <= MAX_POLLS
    {
      rest := controller.RunOne(rest);
      seen := LookAgain(controller, seen);
      i := i + 1;
    }
  }

  /** One turn of the processor loop: a poll, then handlers, and in a session the queued items. */
  method DutyCycle(controller: CollectorController, handshake: bool, env: Script, ghost seen0: seq<Glimpse>)
    returns (rest: Script, ghost seen: seq<Glimpse>, ghost handlers: nat, ghost popped: Script)
    requires controller.AtTop() && Seen(controller, seen0)
    modifies controller, controller.network
    ensures |rest| <= |env| && controller.Took(env, rest) && controller.AtTop()
    ensures Seen(controller, seen) && seen0 < seen
    ensures handlers <= MAX_POLLS && (handlers == MAX_POLLS || rest == [])
    ensures seen0[|seen0| - 1].state == DISCONNECTED ==>
      seen[|seen0|].state == DISCONNECTED || seen[|seen0|].state == SENT_HELLO
    ensures |seen| > |seen0| + handlers
    ensures var up := seen[|seen0| + handlers].state == CONNECTED;
      && |seen| == |seen0| + 1 + handlers + (if up then 1 else 0)
      && (up ==> |popped| == MAX_POLLS || rest == [] || !IsPop(rest[0]))
  {
    hide Alternates, EndOf, EndAfter, CollectorController.OperationFollows, SoundRun;
    var _, rest' := controller.Poll(handshake, env);
    seen := LookAgain(controller, seen0);
    ghost var polled := seen;
    rest, seen := RunHandlers(controller, rest', seen);
    handlers, popped := |seen| - |polled|, [];
    if controller.state == CONNECTED {
      ghost var written, lost, stashed;
      rest, written, lost, stashed := PopItems(controller, rest);
      popped := written + lost + stashed;
      seen := LookAgain(controller, seen);
    }
  }

  /** The processor loop, for as long as the script lasts (each turn takes one entry for its sleep). Whatever
      happens, what the loop finds at its start and after every poll, handler and round of pops is a sound
      run, the wire at its end is the one last found, writes never nest, and everything on the script is
      handled, in order, until the controller is switched off. */
  method RunProcessor(controller: CollectorController, env: Script)
    returns (rest: Script, ghost seen: seq<Glimpse>, ghost unread: Script)
    requires controller.AtTop()
    modifies controller, controller.network
    ensures seen != [] && seen[0] == old(controller.Look())
    ensures SoundRun(controller.network.prometheusEnabled, seen)
    ensures |seen| == 1 ==> !old(controller.isOn) || env == []
    ensures controller.network.wire == seen[|seen| - 1].wire && Alternates(controller.network.wire)
    ensures controller.Took(env, rest) && |rest| <= |unread| && (unread == [] || !controller.isOn)
    ensures controller.AtTop() && controller.state == DISCONNECTED
  {
    hide Alternates, EndOf, EndAfter, CollectorController.OperationFollows;
    rest := env;
    seen := [controller.Look()];
    while controller.isOn && rest != []
      invariant controller.AtTop() && controller.Took(env, rest)
      invariant Seen(controller, seen) && seen[0] == old(controller.Look())
      invariant |seen| == 1 ==> rest == env && controller.isOn == old(controller.isOn)
      decreases |rest|
    {
      controller.handled := controller.handled + [rest[0]];
      assert [rest[0]] + rest[1..] == rest;
      ghost var handlers, popped;
      var handshake: bool := *;
      rest, seen, handlers, popped := DutyCycle(controller, handshake, rest[1..], seen);
    }
    unread := rest;
    rest := controller.OnEnd(rest);
  }
}
