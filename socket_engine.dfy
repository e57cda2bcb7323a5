/**
 * The per-tick connection state machine of the socket handlers
 * (UDP/UDPSocketHandler.cs and its earlier twin UDPSocketHandler.cs), as
 * pure functions of a state snapshot. The socket, the clock, IP parsing and
 * the completion of the asynchronous send and receive tasks are inputs of
 * a tick. What the worker hands to the UI (data batches, connection status)
 * and what goes on the wire (sockets opened and closed, frames sent) are
 * events. Record decoding is a parameter, because the two generations
 * differ in their record grammar.
 */
module Engine {
  import opened Wrappers
  import opened Bytes
  import opened Constants
  import opened Frame

  /** The current handler clears the connected flag on connect; the legacy one keeps it. */
  datatype Generation = Current | Legacy

  /** A socket bound to a local port and connected to a remote endpoint. */
  datatype Binding = Binding(ip: string, remotePort: int, localPort: int)

  /** How a receive task completed. */
  datatype RecvOutcome = Received(datagram: seq<byte>) | Faulted

  /** The receive task field: absent, outstanding, or completed. */
  datatype RecvTask = NoTask | Waiting | Done(outcome: RecvOutcome)

  datatype Event<R> =
    | Opened(binding: Binding)
    | Closed
    | Sent(frame: seq<byte>)
    | DataReport(records: seq<R>)
    | StatusReport(connected: bool)

  /**
   * The handler's fields, plus the worker's local oldConnectionStatus as
   * reportedStatus. client stands for udpClient and sendInFlight for
   * udpSendTask being non-null.
   */
  datatype State<R> = State(
    connect: bool,
    ping: bool,
    disconnect: bool,
    clientConnected: bool,
    ipString: Option<string>,
    remotePort: int,
    localPort: int,
    client: Option<Binding>,
    sendInFlight: bool,
    receiveTask: RecvTask,
    lastPacket: int,
    lastPing: int,
    pending: Option<seq<R>>,
    reportedStatus: bool)

  /** A phase's new state, the events it caused, and whether it threw. */
  datatype Step<R> = Step(state: State<R>, events: seq<Event<R>>, thrown: bool)

  /**
   * What the environment supplies to one pass of the worker loop: the clock
   * reading, whether the outstanding send task has completed, whether
   * IPAddress.TryParse accepts the configured address, whether the socket
   * calls of the send phase throw, and whether (and how) the outstanding
   * receive task has completed.
   */
  datatype TickInput = TickInput(now: int, sendCompleted: bool, ipParses: bool, sendFault: bool, arrival: Option<RecvOutcome>)

  /** The state of a freshly constructed handler. */
  function Initial<R>(): State<R>
  {
    State(false, false, false, false, None, -1, -1, None, false, NoTask, 0, 0, None, false)
  }

  /** Connect(ipAddress, remotePort, localPort): record the parameters, then raise the intent. */
  function Connect<R>(s: State<R>, ip: string, remotePort: int, localPort: int): (r: State<R>)
    ensures r.connect && r.ipString == Some(ip) && r.remotePort == remotePort && r.localPort == localPort
    ensures r.(connect := s.connect, ipString := s.ipString, remotePort := s.remotePort, localPort := s.localPort) == s
  {
    s.(ipString := Some(ip), remotePort := remotePort, localPort := localPort, connect := true)
  }

  /** Disconnect(): raise the intent. */
  function Disconnect<R>(s: State<R>): (r: State<R>)
    ensures r.disconnect && r.(disconnect := s.disconnect) == s
  {
    s.(disconnect := true)
  }

  /** DisconnectClient: close and forget the socket, and drop the connected flag. */
  function DisconnectClient<R>(s: State<R>): (r: Step<R>)
    ensures r.state.client.None? && !r.state.clientConnected && !r.thrown
    ensures r.state.(client := s.client, clientConnected := s.clientConnected) == s
    ensures r.events == if s.client.Some? then [Closed] else []
  {
    Step(s.(client := None, clientConnected := false), if s.client.Some? then [Closed] else [], false)
  }

  /** The legacy connect's `udpClient?.Close()`: the connected flag is left as it was. */
  function CloseClient<R>(s: State<R>): (r: Step<R>)
    ensures r.state.client.None? && r.state.clientConnected == s.clientConnected && !r.thrown
    ensures r.state.(client := s.client) == s
    ensures r.events == if s.client.Some? then [Closed] else []
  {
    Step(s.(client := None), if s.client.Some? then [Closed] else [], false)
  }

  /** The send phase leaves the receive task, the pending batch and the reported status alone. */
  ghost predicate ReceiveSideKept<R>(s: State<R>, t: State<R>)
  {
    t.receiveTask == s.receiveTask && t.pending == s.pending && t.reportedStatus == s.reportedStatus
  }

  /** The guard of a connect intent: the address parses and both ports are positive. */
  predicate ConnectParametersValid<R>(s: State<R>, ipParses: bool)
  {
    s.ipString.Some? && ipParses && s.localPort > 0 && s.remotePort > 0
  }

  /**
   * UDPSend: clear a finished (or orphaned) send slot; otherwise, with no
   * send in flight, handle exactly one intent, connect before ping before
   * disconnect. sendFault makes the socket calls of the chosen intent throw.
   */
  function SendStep<R>(g: Generation, s: State<R>, now: int, sendCompleted: bool, ipParses: bool, sendFault: bool): (r: Step<R>)
    ensures r.thrown ==> sendFault && !s.sendInFlight
    ensures ReceiveSideKept(s, r.state)
  {
    if s.sendInFlight && (sendCompleted || s.client.None?) then
      Step(s.(sendInFlight := false), [], false)
    else if s.sendInFlight then
      Step(s, [], false)
    else if s.connect then
      ConnectIntent(g, s, now, ipParses, sendFault)
    else if s.ping then
      PingIntent(s, now, sendFault)
    else if s.disconnect then
      DisconnectIntent(s, sendFault)
    else
      Step(s, [], false)
  }

  /**
   * The connect branch of UDPSend: with valid parameters the old socket is
   * closed and a new one opened, which sends [STX, CMD_CONN, ETX].
   */
  function ConnectIntent<R>(g: Generation, s: State<R>, now: int, ipParses: bool, sendFault: bool): (r: Step<R>)
    ensures ReceiveSideKept(s, r.state)
    ensures !r.state.connect && r.state.ping == s.ping && r.state.disconnect == s.disconnect
    ensures r.thrown <==> sendFault && ConnectParametersValid(s, ipParses)
    ensures r.thrown ==> r.state.client.None?
    ensures !r.thrown && ConnectParametersValid(s, ipParses) ==>
      r.state.client == Some(Binding(s.ipString.value, s.remotePort, s.localPort)) && r.state.sendInFlight
  {
    var s1 := s.(connect := false);
    if ConnectParametersValid(s, ipParses) then
      var closed := if g == Current then DisconnectClient(s1) else CloseClient(s1);
      if sendFault then
        Step(closed.state, closed.events, true)
      else
        var b := Binding(s.ipString.value, s.remotePort, s.localPort);
        Step(closed.state.(client := Some(b), sendInFlight := true, lastPacket := now, lastPing := now),
             closed.events + [Opened(b), Sent(CommandFrame(CMD_CONN))], false)
    else
      Step(s1, [], false)
  }

  /** The ping branch of UDPSend: only a connected socket sends [STX, CMD_PING, ETX]. */
  function PingIntent<R>(s: State<R>, now: int, sendFault: bool): (r: Step<R>)
    ensures ReceiveSideKept(s, r.state)
    ensures !r.state.ping && r.state.connect == s.connect && r.state.disconnect == s.disconnect
    ensures r.state.client == s.client && r.state.clientConnected == s.clientConnected
    ensures r.thrown <==> sendFault && s.client.Some? && s.clientConnected
  {
    var s1 := s.(ping := false);
    if s.client.Some? && s.clientConnected then
      if sendFault then Step(s1, [], true)
      else Step(s1.(sendInFlight := true, lastPing := now), [Sent(CommandFrame(CMD_PING))], false)
    else
      Step(s1, [], false)
  }

  /**
   * The disconnect branch of UDPSend: a connected socket sends
   * [STX, CMD_STOP, ETX] synchronously and is closed.
   */
  function DisconnectIntent<R>(s: State<R>, sendFault: bool): (r: Step<R>)
    ensures ReceiveSideKept(s, r.state)
    ensures !r.state.disconnect && r.state.connect == s.connect && r.state.ping == s.ping
    ensures r.thrown <==> sendFault && s.client.Some? && s.clientConnected
    ensures !r.thrown && s.client.Some? && s.clientConnected ==> r.state.client.None? && !r.state.clientConnected
    ensures !(s.client.Some? && s.clientConnected) ==> r.state.client == s.client
  {
    var s1 := s.(disconnect := false);
    if s.client.Some? && s.clientConnected then
      if sendFault then Step(s1, [], true)
      else
        var d := DisconnectClient(s1);
        Step(d.state, [Sent(CommandFrame(CMD_STOP))] + d.events, false)
    else
      Step(s1, [], false)
  }

  /**
   * What ParseReceivedBuffer does once the envelope is classified: a slice
   * fault throws, a keep-alive marks the device connected and restarts both
   * timers, and data, only while connected, is parsed (a published batch
   * becomes pending, an overrun raises the disconnect intent) and restarts
   * the packet timer.
   */
  function ApplyFrame<R>(parse: seq<byte> -> ParseOutcome<R>, s: State<R>, now: int, frame: FrameClass): (r: Step<R>)
    ensures r.events == [] && (r.thrown <==> frame.SliceFault?)
    ensures r.state.client == s.client
    ensures frame.Dropped? || frame.SliceFault? ==> r.state == s
    ensures frame.KeepAlive? ==> r.state == s.(clientConnected := true, lastPacket := now, lastPing := now)
    ensures frame.DataPayload? && !s.clientConnected ==> r.state == s
    ensures frame.DataPayload? && s.clientConnected ==>
      var outcome := parse(frame.payload);
      r.state.lastPacket == now &&
      r.state.disconnect == (s.disconnect || outcome.Overrun?) &&
      r.state.pending == (if outcome.Published? then Some(outcome.records) else s.pending) &&
      r.state.(lastPacket := s.lastPacket, disconnect := s.disconnect, pending := s.pending) == s
  {
    match frame
    case Dropped => Step(s, [], false)
    case SliceFault => Step(s, [], true)
    case KeepAlive => Step(s.(lastPing := now, lastPacket := now, clientConnected := true), [], false)
    case DataPayload(payload) =>
      if !s.clientConnected then Step(s, [], false)
      else
        var s1 := match parse(payload)
          case Published(records) => s.(pending := Some(records))
          case Discarded => s
          case Overrun => s.(disconnect := true);
        Step(s1.(lastPacket := now), [], false)
  }

  /**
   * ParseReceivedBuffer: the envelope checks of Frame.Classify, then the
   * keep-alive or, while connected, the record parse. A 3- to 5-byte frame
   * that passes the length check throws at the payload slice.
   */
  function ParseReceivedBuffer<R>(parse: seq<byte> -> ParseOutcome<R>, s: State<R>, now: int, datagram: seq<byte>): (r: Step<R>)
    ensures r.events == [] && r.state.client == s.client && r.state.receiveTask == s.receiveTask
    ensures r.thrown <==> 3 <= |datagram| <= 5 && datagram[0] == STX && datagram[|datagram| - 1] == ETX && ReadLE(datagram[1..3]) == |datagram|
    ensures Classify(datagram).Dropped? ==> r.state == s
  {
    ApplyFrame(parse, s, now, Classify(datagram))
  }

  /**
   * `udpReceiveTask ??= udpClient.ReceiveAsync()`, then the completion the
   * environment reports for an outstanding task.
   */
  function AdvanceTask(task: RecvTask, arrival: Option<RecvOutcome>): (r: RecvTask)
    ensures r.NoTask? ==> false
    ensures task.Done? ==> r == task
    ensures arrival.None? ==> r == (if task.NoTask? then Waiting else task)
  {
    var started := if task.NoTask? then Waiting else task;
    if started.Waiting? && arrival.Some? then Done(arrival.value) else started
  }

  /**
   * What UDPReceive does with the task once it is in place: a successful
   * one is parsed and replaced, a faulted one replaced, an outstanding one
   * left. When parsing throws, the completed task stays in place.
   */
  function CompleteTask<R>(parse: seq<byte> -> ParseOutcome<R>, s: State<R>, now: int): (r: Step<R>)
    ensures r.state.client == s.client && r.events == []
    ensures s.receiveTask.Waiting? ==> r == Step(s, [], false)
    ensures s.receiveTask == Done(Faulted) ==> r == Step(s.(receiveTask := Waiting), [], false)
    ensures s.receiveTask.Done? && s.receiveTask.outcome.Received? ==>
      var frame := Classify(s.receiveTask.outcome.datagram);
      (r.thrown <==> frame.SliceFault?) &&
      (r.thrown ==> r.state == s) &&
      (!r.thrown ==> r.state == ApplyFrame(parse, s, now, frame).state.(receiveTask := Waiting))
  {
    match s.receiveTask
    case Done(Received(datagram)) =>
      var p := ParseReceivedBuffer(parse, s, now, datagram);
      if p.thrown then p else Step(p.state.(receiveTask := Waiting), p.events, false)
    case Done(Faulted) => Step(s.(receiveTask := Waiting), [], false)
    case _ => Step(s, [], false)
  }

  /** UDPReceive: without a socket the task is dropped; otherwise it is advanced and completed. */
  function ReceiveStep<R>(parse: seq<byte> -> ParseOutcome<R>, s: State<R>, now: int, arrival: Option<RecvOutcome>): (r: Step<R>)
    ensures r.state.client == s.client && r.events == []
  {
    if s.client.None? then
      Step(s.(receiveTask := NoTask), [], false)
    else
      CompleteTask(parse, s.(receiveTask := AdvanceTask(s.receiveTask, arrival)), now)
  }

  /** The worker's catch block: an exception of a phase tears the client down. */
  function Catch<R>(p: Step<R>): (r: Step<R>)
    ensures !r.thrown
    ensures p.thrown ==> r.state.client.None? && !r.state.clientConnected
    ensures !p.thrown ==> r == p
  {
    if p.thrown then
      var d := DisconnectClient(p.state);
      Step(d.state, p.events + d.events, false)
    else p
  }

  /**
   * The timer checks of the handling phase, made only while a socket
   * exists: a device silent for more than PACKET_TIMEOUT counts as
   * disconnected (the socket stays open), and a connected one is due a ping
   * after PING_TIMEOUT.
   */
  function TimerStep<R>(s: State<R>, now: int): (r: State<R>)
    ensures r.(clientConnected := s.clientConnected, ping := s.ping) == s
    ensures s.client.None? ==> r == s
    ensures r.clientConnected ==> s.clientConnected
    ensures s.client.Some? ==> (r.clientConnected <==> s.clientConnected && now - s.lastPacket <= PACKET_TIMEOUT)
    ensures r.ping <==> s.ping || (s.client.Some? && r.clientConnected && now - s.lastPing >= PING_TIMEOUT)
  {
    if s.client.Some? then
      var connected := if now - s.lastPacket > PACKET_TIMEOUT then false else s.clientConnected;
      s.(clientConnected := connected, ping := if connected && now - s.lastPing >= PING_TIMEOUT then true else s.ping)
    else s
  }

  /**
   * The reports of the handling phase: a pending batch is reported and
   * nulled, and the status is reported when it differs from the last one
   * reported.
   */
  function ReportStep<R>(s: State<R>): (r: Step<R>)
    ensures !r.thrown && r.state == s.(pending := None, reportedStatus := s.clientConnected)
    ensures r.events ==
      (if s.pending.Some? then [DataReport(s.pending.value)] else []) +
      (if s.reportedStatus != s.clientConnected then [StatusReport(s.clientConnected)] else [])
  {
    var s1 := s.(pending := None);
    var reports := if s.pending.Some? then [DataReport(s.pending.value)] else [];
    if s1.reportedStatus != s1.clientConnected then
      Step(s1.(reportedStatus := s1.clientConnected), reports + [StatusReport(s1.clientConnected)], false)
    else
      Step(s1, reports, false)
  }

  /** The handling phase of the worker loop: the timer checks, then the reports. */
  function HandleStep<R>(s: State<R>, now: int): (r: Step<R>)
    ensures !r.thrown && r.state.pending.None? && r.state.reportedStatus == r.state.clientConnected
    ensures r.state.client == s.client
  {
    ReportStep(TimerStep(s, now))
  }

  /** One pass of the worker loop: send, receive, handle, each behind its catch. */
  function Tick<R>(g: Generation, parse: seq<byte> -> ParseOutcome<R>, s: State<R>, input: TickInput): (r: Step<R>)
    ensures !r.thrown && r.state.pending.None? && r.state.reportedStatus == r.state.clientConnected
  {
    var a := Catch(SendStep(g, s, input.now, input.sendCompleted, input.ipParses, input.sendFault));
    var b := Catch(ReceiveStep(parse, a.state, input.now, input.arrival));
    var c := HandleStep(b.state, input.now);
    Step(c.state, a.events + b.events + c.events, false)
  }

  // ---------------------------------------------------------------------
  // Properties of the send phase.

  /** While a send is in flight and not complete, nothing happens: no intent is consumed. */
  lemma SendBusyWaits<R>(g: Generation, s: State<R>, now: int, ipParses: bool, sendFault: bool)
    requires s.sendInFlight && s.client.Some?
    ensures SendStep(g, s, now, false, ipParses, sendFault) == Step(s, [], false)
  {
  }

  /** A completed (or orphaned) send only frees the slot on that tick. */
  lemma SendCompletionOnlyClears<R>(g: Generation, s: State<R>, now: int, sendCompleted: bool, ipParses: bool, sendFault: bool)
    requires s.sendInFlight && (sendCompleted || s.client.None?)
    ensures SendStep(g, s, now, sendCompleted, ipParses, sendFault) == Step(s.(sendInFlight := false), [], false)
  {
  }

  /**
   * With the slot free, exactly one intent is consumed, connect before ping
   * before disconnect, and the others are left for a later tick.
   */
  lemma SendConsumesOneIntent<R>(g: Generation, s: State<R>, now: int, sendCompleted: bool, ipParses: bool, sendFault: bool)
    requires !s.sendInFlight
    ensures var r := SendStep(g, s, now, sendCompleted, ipParses, sendFault).state;
      if s.connect then !r.connect && r.ping == s.ping && r.disconnect == s.disconnect
      else if s.ping then !r.connect && !r.ping && r.disconnect == s.disconnect
      else !r.connect && !r.ping && !r.disconnect
    ensures !s.connect && !s.ping && !s.disconnect ==> SendStep(g, s, now, sendCompleted, ipParses, sendFault) == Step(s, [], false)
  {
  }

  /**
   * A connect with valid parameters closes the old socket, opens the new
   * one, sends [STX, CMD_CONN, ETX] and restarts both timers. The current
   * handler clears the connected flag; the legacy one keeps it.
   */
  lemma ConnectOpens<R>(g: Generation, s: State<R>, now: int, sendCompleted: bool, ipParses: bool)
    requires !s.sendInFlight && s.connect && ConnectParametersValid(s, ipParses)
    ensures var r := SendStep(g, s, now, sendCompleted, ipParses, false);
      var b := Binding(s.ipString.value, s.remotePort, s.localPort);
      !r.thrown && r.state.client == Some(b) && r.state.sendInFlight &&
      r.state.lastPacket == now && r.state.lastPing == now &&
      r.events == (if s.client.Some? then [Closed] else []) + [Opened(b), Sent([0x02, 0x02, 0x03])] &&
      (g == Current ==> !r.state.clientConnected) &&
      (g == Legacy ==> r.state.clientConnected == s.clientConnected)
  {
  }

  /** A connect with invalid parameters only clears the intent. */
  lemma ConnectRejected<R>(g: Generation, s: State<R>, now: int, sendCompleted: bool, ipParses: bool, sendFault: bool)
    requires !s.sendInFlight && s.connect && !ConnectParametersValid(s, ipParses)
    ensures SendStep(g, s, now, sendCompleted, ipParses, sendFault) == Step(s.(connect := false), [], false)
  {
  }

  /** A ping goes out only on a connected socket, and restarts the ping timer. */
  lemma PingSends<R>(g: Generation, s: State<R>, now: int, sendCompleted: bool, ipParses: bool)
    requires !s.sendInFlight && !s.connect && s.ping
    ensures var r := SendStep(g, s, now, sendCompleted, ipParses, false);
      if s.client.Some? && s.clientConnected then
        r.events == [Sent([0x02, 0x03, 0x03])] && r.state.lastPing == now && r.state.sendInFlight
      else
        r == Step(s.(ping := false), [], false)
  {
  }

  /**
   * A disconnect on a connected socket sends [STX, CMD_STOP, ETX] at once
   * and closes; otherwise it only clears the intent and any socket stays open.
   */
  lemma DisconnectCloses<R>(g: Generation, s: State<R>, now: int, sendCompleted: bool, ipParses: bool)
    requires !s.sendInFlight && !s.connect && !s.ping && s.disconnect
    ensures var r := SendStep(g, s, now, sendCompleted, ipParses, false);
      if s.client.Some? && s.clientConnected then
        r.events == [Sent([0x02, 0x01, 0x03]), Closed] && r.state.client.None? && !r.state.clientConnected &&
        !r.state.sendInFlight
      else
        r == Step(s.(disconnect := false), [], false) && r.state.client == s.client
  {
  }

  /** A failing socket call in the send phase leaves no socket behind once caught. */
  lemma SendFaultTearsDown<R>(g: Generation, s: State<R>, now: int, sendCompleted: bool, ipParses: bool)
    requires !s.sendInFlight
    requires (s.connect && ConnectParametersValid(s, ipParses)) || (!s.connect && (s.ping || s.disconnect) && s.client.Some? && s.clientConnected)
    ensures var r := Catch(SendStep(g, s, now, sendCompleted, ipParses, true));
      r.state.client.None? && !r.state.clientConnected && !r.state.sendInFlight && Sent([0x02, 0x02, 0x03]) !in r.events
  {
    if s.connect {
      var s1 := s.(connect := false);
      var closed := if g == Current then DisconnectClient(s1) else CloseClient(s1);
      assert SendStep(g, s, now, sendCompleted, ipParses, true) == Step(closed.state, closed.events, true);
    } else if s.ping {
      assert SendStep(g, s, now, sendCompleted, ipParses, true) == Step(s.(ping := false), [], true);
    } else {
      assert SendStep(g, s, now, sendCompleted, ipParses, true) == Step(s.(disconnect := false), [], true);
    }
  }

  // ---------------------------------------------------------------------
  // Properties of the receive phase.

  /**
   * A 3- to 5-byte datagram that passes the length check throws at the
   * payload slice; the catch closes the socket and the completed task is
   * left in place.
   */
  lemma SliceFaultTearsDown<R>(parse: seq<byte> -> ParseOutcome<R>, s: State<R>, now: int, datagram: seq<byte>)
    requires s.client.Some? && s.receiveTask == Waiting && Classify(datagram).SliceFault?
    ensures var r := Catch(ReceiveStep(parse, s, now, Some(Received(datagram))));
      r.state.client.None? && !r.state.clientConnected && r.state.receiveTask == Done(Received(datagram)) &&
      r.events == [Closed]
  {
  }

  /**
   * The completed task left behind by a slice fault is parsed again by the
   * next receive phase that finds a socket, so a connect in the following
   * tick is torn down at once by the same datagram.
   */
  lemma StaleDatagramFaultsAgain<R>(parse: seq<byte> -> ParseOutcome<R>, s: State<R>, now: int,
                                    arrival: Option<RecvOutcome>, datagram: seq<byte>)
    requires s.client.Some? && s.receiveTask == Done(Received(datagram)) && Classify(datagram).SliceFault?
    ensures var r := Catch(ReceiveStep(parse, s, now, arrival));
      r.state.client.None? && !r.state.clientConnected && r.events == [Closed]
  {
  }

  /**
   * The main path of UDPReceive: a keep-alive delivered to the outstanding
   * task marks the device connected, restarts both timers and reissues the
   * receive; nothing else changes.
   */
  lemma KeepAliveConnects<R>(parse: seq<byte> -> ParseOutcome<R>, s: State<R>, now: int)
    requires s.client.Some? && s.receiveTask == Waiting
    ensures var r := ReceiveStep(parse, s, now, Some(Received(EncodeFrame(KEEP_ALIVE))));
      !r.thrown && r.events == [] &&
      r.state == s.(clientConnected := true, lastPacket := now, lastPing := now)
  {
    FrameRoundTrip(KEEP_ALIVE);
  }

  /**
   * Data delivered to the outstanding task while connected is parsed: a
   * published batch becomes pending, an overrun raises the disconnect
   * intent, the packet timer restarts and the receive is reissued.
   */
  lemma DataParsedWhileConnected<R>(parse: seq<byte> -> ParseOutcome<R>, s: State<R>, now: int, payload: seq<byte>)
    requires s.client.Some? && s.clientConnected && s.receiveTask == Waiting
    requires |payload| + 6 < 65536 && payload != KEEP_ALIVE
    ensures var r := ReceiveStep(parse, s, now, Some(Received(EncodeFrame(payload))));
      var outcome := parse(payload);
      !r.thrown && r.events == [] && r.state.receiveTask == Waiting && r.state.lastPacket == now &&
      r.state.pending == (if outcome.Published? then Some(outcome.records) else s.pending) &&
      r.state.disconnect == (s.disconnect || outcome.Overrun?) &&
      r.state.(receiveTask := s.receiveTask, lastPacket := s.lastPacket, pending := s.pending, disconnect := s.disconnect) == s
  {
    FrameRoundTrip(payload);
  }

  /** Data delivered while not connected is ignored, and the receive reissued. */
  lemma DataIgnoredWhileDisconnected<R>(parse: seq<byte> -> ParseOutcome<R>, s: State<R>, now: int, payload: seq<byte>)
    requires s.client.Some? && !s.clientConnected && s.receiveTask == Waiting
    requires |payload| + 6 < 65536 && payload != KEEP_ALIVE
    ensures ReceiveStep(parse, s, now, Some(Received(EncodeFrame(payload)))) == Step(s, [], false)
  {
    FrameRoundTrip(payload);
  }

  /** Without a socket the receive phase only drops the task. */
  lemma ReceiveWithoutClient<R>(parse: seq<byte> -> ParseOutcome<R>, s: State<R>, now: int, arrival: Option<RecvOutcome>)
    requires s.client.None?
    ensures ReceiveStep(parse, s, now, arrival) == Step(s.(receiveTask := NoTask), [], false)
  {
  }

  // ---------------------------------------------------------------------
  // The invariant between ticks.

  /**
   * Between two passes of the loop: the connected flag implies a socket,
   * no batch is pending, and the last reported status is the current one.
   */
  predicate Quiescent<R>(s: State<R>)
  {
    (s.clientConnected ==> s.client.Some?) && s.pending.None? && s.reportedStatus == s.clientConnected
  }

  lemma InitialQuiescent<R>()
    ensures Quiescent(Initial<R>())
  {
  }

  /** One phase keeps "connected implies a socket" once its catch has run. */
  lemma {:induction false} SendKeepsConnectedImpliesClient<R>(g: Generation, s: State<R>, input: TickInput)
    requires s.clientConnected ==> s.client.Some?
    ensures var a := Catch(SendStep(g, s, input.now, input.sendCompleted, input.ipParses, input.sendFault));
      a.state.clientConnected ==> a.state.client.Some?
  {
  }

  lemma {:induction false} ReceiveKeepsConnectedImpliesClient<R>(parse: seq<byte> -> ParseOutcome<R>, s: State<R>, input: TickInput)
    requires s.clientConnected ==> s.client.Some?
    ensures var b := Catch(ReceiveStep(parse, s, input.now, input.arrival));
      b.state.clientConnected ==> b.state.client.Some?
  {
    if s.client.None? {
      ReceiveWithoutClient(parse, s, input.now, input.arrival);
    }
  }

  /** Every pass of the loop ends quiescent, from any state where a connected flag has a socket. */
  lemma TickEndsQuiescent<R>(g: Generation, parse: seq<byte> -> ParseOutcome<R>, s: State<R>, input: TickInput)
    requires s.clientConnected ==> s.client.Some?
    ensures Quiescent(Tick(g, parse, s, input).state)
  {
    SendKeepsConnectedImpliesClient(g, s, input);
    var a := Catch(SendStep(g, s, input.now, input.sendCompleted, input.ipParses, input.sendFault));
    ReceiveKeepsConnectedImpliesClient(parse, a.state, input);
  }

  /** A batch published by the receive phase is reported in the same pass, exactly once. */
  lemma PublishedBatchReported<R>(g: Generation, parse: seq<byte> -> ParseOutcome<R>, s: State<R>, input: TickInput)
    requires Quiescent(s)
    ensures var a := Catch(SendStep(g, s, input.now, input.sendCompleted, input.ipParses, input.sendFault));
      var b := Catch(ReceiveStep(parse, a.state, input.now, input.arrival));
      var t := Tick(g, parse, s, input);
      b.state.pending.Some? ==> DataReport(b.state.pending.value) in t.events && t.state.pending.None?
  {
    var a := Catch(SendStep(g, s, input.now, input.sendCompleted, input.ipParses, input.sendFault));
    var b := Catch(ReceiveStep(parse, a.state, input.now, input.arrival));
    var c := HandleStep(b.state, input.now);
    assert c == ReportStep(TimerStep(b.state, input.now));
    if b.state.pending.Some? {
      assert (a.events + b.events + c.events)[|a.events| + |b.events|] == DataReport(b.state.pending.value);
    }
  }

  // ---------------------------------------------------------------------
  // The worker loop, over any finite prefix of its passes (it is never cancelled).

  /** The passes of the worker loop, one per input, and everything they caused. */
  function Run<R>(g: Generation, parse: seq<byte> -> ParseOutcome<R>, s: State<R>, inputs: seq<TickInput>): (r: Step<R>)
    ensures !r.thrown
    ensures |inputs| > 0 ==> r.state.pending.None? && r.state.reportedStatus == r.state.clientConnected
    decreases |inputs|
  {
    if |inputs| == 0 then Step(s, [], false)
    else
      var last := Tick(g, parse, Run(g, parse, s, inputs[..|inputs| - 1]).state, inputs[|inputs| - 1]);
      Step(last.state, Run(g, parse, s, inputs[..|inputs| - 1]).events + last.events, false)
  }

  /** A run one input longer is the shorter run followed by one more pass. */
  lemma RunSnoc<R>(g: Generation, parse: seq<byte> -> ParseOutcome<R>, s: State<R>, inputs: seq<TickInput>, i: nat)
    requires i < |inputs|
    ensures var prev := Run(g, parse, s, inputs[..i]);
      var t := Tick(g, parse, prev.state, inputs[i]);
      Run(g, parse, s, inputs[..i + 1]) == Step(t.state, prev.events + t.events, false)
  {
    assert inputs[..i + 1][..i] == inputs[..i];
  }

  /** After any nonempty run of passes the handler is quiescent. */
  lemma {:induction false} RunEndsQuiescent<R>(g: Generation, parse: seq<byte> -> ParseOutcome<R>, s: State<R>, inputs: seq<TickInput>)
    requires Quiescent(s)
    ensures Quiescent(Run(g, parse, s, inputs).state)
  {
    if |inputs| > 0 {
      RunEndsQuiescent(g, parse, s, inputs[..|inputs| - 1]);
      TickEndsQuiescent(g, parse, Run(g, parse, s, inputs[..|inputs| - 1]).state, inputs[|inputs| - 1]);
    }
  }
}
