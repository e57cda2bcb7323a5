/**
 * The LAN discovery of the device finder window
 * (Configuration/FindDevicesWindow.xaml.cs). A refresh broadcasts the
 * 6-byte request
 *   [STX][ED AD 0F 42][ETX]
 * (the magic 0x420FADED little-endian), and a device answers with
 *   [STX][ED AD 0F 42][nameLen][name ...][DNE][ignored ...][ETX]
 * The worker loop opens the broadcast socket on a refresh, reports every
 * well-formed answer with its sender, and closes the socket once 15 s have
 * passed since the last request. The socket, the clock and the completion
 * of the receive task are inputs of a pass; what the worker does on the
 * wire and hands to the window is a log of events.
 */
module Discovery {
  import opened Wrappers
  import opened Bytes
  import opened Constants
  import TC = TypeConverter
  import opened Logs

  /** The discovery magic, sent and expected in bytes 1-4. */
  const DISCOVERY_MAGIC: nat := 0x420FADED
  /** Milliseconds after the last request at which the socket is closed. */
  const RESPONSE_WAIT: int := 15000
  /** The broadcast port the window starts with. */
  const DEFAULT_BROADCAST_PORT: int := 10050
  const BROADCAST_ADDRESS: string := "255.255.255.255"

  // ---------------------------------------------------------------------
  // The request.

  /** The request: STX, the magic in four little-endian bytes, ETX. */
  function Request(): (r: seq<byte>)
    ensures |r| == 6 && r[0] == STX && r[5] == ETX
    ensures ReadLE(r[1..5]) == DISCOVERY_MAGIC
  {
    MagicFits();
    ReadWriteLE(DISCOVERY_MAGIC, 4);
    var r := [STX] + WriteLE(DISCOVERY_MAGIC, 4) + [ETX];
    assert r[1..5] == WriteLE(DISCOVERY_MAGIC, 4);
    r
  }

  lemma MagicFits()
    ensures DISCOVERY_MAGIC < Pow256(4)
  {
    assert Pow256(4) == 0x1_0000_0000 by {
      assert Pow256(1) == 256;
      assert Pow256(2) == 65536;
      assert Pow256(3) == 16777216;
    }
  }

  /** The request is exactly the bytes 02 ED AD 0F 42 03. */
  lemma RequestBytes()
    ensures Request() == [0x02, 0xED, 0xAD, 0x0F, 0x42, 0x03]
  {
    MagicFits();
    var w := WriteLE(DISCOVERY_MAGIC, 4);
    assert w == [0xED] + WriteLE(0x420FAD, 3);
    assert WriteLE(0x420FAD, 3) == [0xAD] + WriteLE(0x420F, 2);
    assert WriteLE(0x420F, 2) == [0x0F] + WriteLE(0x42, 1);
    assert WriteLE(0x42, 1) == [0x42] + WriteLE(0, 0);
  }

  /** The request buffer, filled index by index as the refresh branch does. */
  method BuildRequest() returns (buffer: seq<byte>)
    ensures buffer == Request()
  {
    MagicFits();
    var dataBuffer := WriteLE(DISCOVERY_MAGIC, 4);
    var b := new byte[6];
    b[0] := STX;
    for i := 0 to 4
      invariant b[0] == STX
      invariant forall j :: 0 <= j < i ==> b[1 + j] == dataBuffer[j]
    {
      b[1 + i] := dataBuffer[i];
    }
    b[5] := ETX;
    buffer := b[..];
    assert buffer[1..5] == dataBuffer;
    assert buffer == [STX] + dataBuffer + [ETX];
  }

  // ---------------------------------------------------------------------
  // The response.

  /**
   * How the receive branch treats a datagram: ignored, a device found, or
   * the index exception of a name length that runs past the datagram.
   */
  datatype Response = Ignored | Found(name: string) | NameOverrun

  /** The checks that precede the name: length, end markers and magic. */
  predicate HasHeader(buffer: seq<byte>)
  {
    |buffer| >= 8 && buffer[0] == STX && buffer[|buffer| - 1] == ETX && ReadLE(buffer[1..5]) == DISCOVERY_MAGIC
  }

  /**
   * The receive branch's reading of a datagram: the header, then the name
   * of length buffer[5] from index 6 and the escape right after it. The
   * slice and the index throw when the escape would be at or past the end.
   */
  function ParseResponse(buffer: seq<byte>): (r: Response)
    ensures r != Ignored ==> HasHeader(buffer)
    ensures r.Found? ==> |r.name| == buffer[5] as nat
  {
    if !HasHeader(buffer) then Ignored
    else
      var nameLen := buffer[5] as nat;
      if 6 + nameLen >= |buffer| then NameOverrun
      else if buffer[6 + nameLen] != DNE then Ignored
      else
        TC.Latin1Chars(buffer[6..6 + nameLen]);
        Found(TC.Latin1(buffer[6..6 + nameLen]))
  }

  /** A response is reported exactly when its header holds and the name is followed by DNE. */
  lemma FoundIff(buffer: seq<byte>)
    ensures ParseResponse(buffer).Found? <==>
      HasHeader(buffer) && 6 + buffer[5] as nat < |buffer| && buffer[6 + buffer[5] as nat] == DNE
    ensures ParseResponse(buffer).Found? ==>
      ParseResponse(buffer).name == TC.Latin1(buffer[6..6 + buffer[5] as nat])
  {
  }

  /** The exception is raised exactly when the name escape lies at or past the end. */
  lemma NameOverrunIff(buffer: seq<byte>)
    ensures ParseResponse(buffer).NameOverrun? <==> HasHeader(buffer) && 6 + buffer[5] as nat >= |buffer|
  {
  }

  /** The answer a device sends: header, name, DNE, any trailer, ETX. */
  function EncodeResponse(name: seq<byte>, trailer: seq<byte>): (r: seq<byte>)
    requires |name| < 256
    ensures |r| == 8 + |name| + |trailer|
  {
    MagicFits();
    [STX] + WriteLE(DISCOVERY_MAGIC, 4) + [|name| as byte] + name + [DNE] + trailer + [ETX]
  }

  /** Where the parts of an encoded answer lie. */
  lemma ResponseLayout(name: seq<byte>, trailer: seq<byte>)
    requires |name| < 256
    ensures var r := EncodeResponse(name, trailer);
      r[0] == STX && r[|r| - 1] == ETX && ReadLE(r[1..5]) == DISCOVERY_MAGIC &&
      r[5] as nat == |name| && r[6..6 + |name|] == name && r[6 + |name|] == DNE
  {
    MagicFits();
    var head := [STX] + WriteLE(DISCOVERY_MAGIC, 4) + [|name| as byte];
    var r := EncodeResponse(name, trailer);
    assert r == head + name + ([DNE] + trailer + [ETX]);
    assert r[..6] == head;
    assert head[1..5] == WriteLE(DISCOVERY_MAGIC, 4);
    assert r[1..5] == head[1..5];
    ReadWriteLE(DISCOVERY_MAGIC, 4);
  }

  /** Every encoded answer is reported with its name, whatever its trailer. */
  lemma ResponseRoundTrip(name: seq<byte>, trailer: seq<byte>)
    requires |name| < 256
    ensures ParseResponse(EncodeResponse(name, trailer)) == Found(TC.Latin1(name))
  {
    ResponseLayout(name, trailer);
    assert HasHeader(EncodeResponse(name, trailer));
  }

  /** Every reported answer is the encoding of its name and trailer: nothing else is reported. */
  lemma FoundIsEncoded(buffer: seq<byte>)
    requires ParseResponse(buffer).Found?
    ensures var n := buffer[5] as nat;
      buffer == EncodeResponse(buffer[6..6 + n], buffer[7 + n..|buffer| - 1])
  {
    var n := buffer[5] as nat;
    MagicFits();
    WriteReadLE(buffer[1..5]);
    assert buffer[1..5] == WriteLE(DISCOVERY_MAGIC, 4);
    var e := EncodeResponse(buffer[6..6 + n], buffer[7 + n..|buffer| - 1]);
    assert |e| == |buffer|;
    forall i | 0 <= i < |buffer|
      ensures e[i] == buffer[i]
    {
      if 1 <= i < 5 {
        assert e[i] == WriteLE(DISCOVERY_MAGIC, 4)[i - 1];
        assert buffer[i] == buffer[1..5][i - 1];
      }
    }
  }

  /** The finder's own request, looped back to its socket, is ignored: it is too short. */
  lemma RequestIgnored()
    ensures ParseResponse(Request()) == Ignored
  {
  }

  /** A datagram of 8 bytes whose name length 5 runs past its end. */
  lemma OverrunExample()
    ensures ParseResponse([0x02, 0xED, 0xAD, 0x0F, 0x42, 0x05, 0x00, 0x03]) == NameOverrun
  {
    var b: seq<byte> := [0x02, 0xED, 0xAD, 0x0F, 0x42, 0x05, 0x00, 0x03];
    RequestBytes();
    assert b[1..5] == Request()[1..5];
  }

  // ---------------------------------------------------------------------
  // The worker loop, as functions of a state snapshot.

  datatype Datagram = Datagram(sender: string, buffer: seq<byte>)

  /** How a receive task completed: with a datagram, or faulted. */
  datatype Completion = Arrived(datagram: Datagram) | Failed

  /** The udpReceiveTask field: absent, outstanding, or completed. */
  datatype ReceiveTask = NoTask | Pending | Completed(completion: Completion)

  /**
   * What CloseSocket does besides closing: as written it leaves the
   * receive task in place; TaskCleared also forgets it.
   */
  datatype CloseVariant = AsWritten | TaskCleared

  datatype Event =
    | Opened(port: int)                                 // new UdpClient bound to the broadcast port
    | Broadcast(frame: seq<byte>, address: string, port: int)
    | Reported(sender: string, name: string)            // a device handed to the window
    | Closed

  /**
   * The window's fields and the worker's local waitResponseTimestamp.
   * socket holds the port udpClient is bound to.
   */
  datatype FinderState = FinderState(
    refresh: bool,
    broadcastPort: int,
    remotePort: int,
    socket: Option<int>,
    receiveTask: ReceiveTask,
    waitResponseTimestamp: int)

  datatype Step = Step(state: FinderState, events: seq<Event>, thrown: bool)

  /**
   * One pass's environment: the clock, whether the socket calls of a
   * refresh throw, how the outstanding receive task completes, and whether
   * cancellation is pending at the end of the pass.
   */
  datatype PassInput = PassInput(now: int, sendFault: bool, arrival: Option<Completion>, cancel: bool)

  /** A pass's new state and events, and whether the loop breaks. */
  datatype Pass = Pass(state: FinderState, events: seq<Event>, stop: bool)

  function Initial(remotePort: int): FinderState
  {
    FinderState(false, DEFAULT_BROADCAST_PORT, remotePort, None, NoTask, 0)
  }

  /** CloseSocket: close and forget an open socket. */
  function CloseStep(v: CloseVariant, s: FinderState): (r: Step)
    ensures r.state.socket.None? && !r.thrown
    ensures r.events == if s.socket.Some? then [Closed] else []
    ensures v == AsWritten ==> r.state == s.(socket := None)
    ensures v == TaskCleared && s.socket.Some? ==> r.state == s.(socket := None, receiveTask := NoTask)
  {
    if s.socket.Some? then
      Step(s.(socket := None, receiveTask := if v == TaskCleared then NoTask else s.receiveTask), [Closed], false)
    else Step(s, [], false)
  }

  /**
   * The refresh branch: consume the flag, open a socket on the broadcast
   * port if none is open, broadcast the request to the device port and
   * restart the wait. sendFault makes the bind or the send throw.
   */
  function RefreshStep(s: FinderState, now: int, sendFault: bool): (r: Step)
    ensures !r.state.refresh && r.state.receiveTask == s.receiveTask
    ensures s.refresh ==> r.state.socket.Some?
    ensures !s.refresh ==> r == Step(s, [], false)
    ensures r.thrown <==> s.refresh && sendFault
  {
    if !s.refresh then Step(s, [], false)
    else
      var s1 := s.(refresh := false);
      var port := s.broadcastPort;
      var withSocket := if s.socket.None? then s1.(socket := Some(port)) else s1;
      var evs := if s.socket.None? then [Opened(port)] else [];
      if sendFault then Step(withSocket, evs, true)
      else Step(withSocket.(waitResponseTimestamp := now), evs + [Broadcast(Request(), BROADCAST_ADDRESS, s.remotePort)], false)
  }

  /** `udpReceiveTask ??= udpClient.ReceiveAsync()`, then the completion the environment reports. */
  function AdvanceTask(task: ReceiveTask, arrival: Option<Completion>): (r: ReceiveTask)
    ensures !r.NoTask?
    ensures task.Completed? ==> r == task
  {
    var started := if task.NoTask? then Pending else task;
    if started.Pending? && arrival.Some? then Completed(arrival.value) else started
  }

  /**
   * The completion branches: a datagram is read and the task replaced, a
   * faulted task replaced, an outstanding one left. The exception of a
   * name overrun leaves the completed task in place.
   */
  function CompletionStep(s: FinderState): (r: Step)
    ensures r.state.socket == s.socket
    ensures r.thrown ==> r.state == s && r.events == []
    ensures !r.thrown ==> r.state == s.(receiveTask := if s.receiveTask.Completed? then Pending else s.receiveTask)
  {
    match s.receiveTask
    case Completed(Arrived(d)) =>
      (match ParseResponse(d.buffer)
       case NameOverrun => Step(s, [], true)
       case Found(name) => Step(s.(receiveTask := Pending), [Reported(d.sender, name)], false)
       case Ignored => Step(s.(receiveTask := Pending), [], false))
    case Completed(Failed) => Step(s.(receiveTask := Pending), [], false)
    case _ => Step(s, [], false)
  }

  /**
   * The receive branch, taken only while a socket is open: the task is
   * advanced and completed, then the socket is closed when more than
   * RESPONSE_WAIT ms have passed since the last request.
   */
  function ReceiveStep(v: CloseVariant, s: FinderState, now: int, arrival: Option<Completion>): (r: Step)
    ensures s.socket.None? ==> r == Step(s, [], false)
  {
    if s.socket.None? then Step(s, [], false)
    else
      var c := CompletionStep(s.(receiveTask := AdvanceTask(s.receiveTask, arrival)));
      if c.thrown then c
      else if now - s.waitResponseTimestamp > RESPONSE_WAIT then
        var d := CloseStep(v, c.state);
        Step(d.state, c.events + d.events, false)
      else c
  }

  /** The catch block: an exception closes the socket. */
  function Caught(v: CloseVariant, p: Step): (r: Step)
    ensures !r.thrown
    ensures p.thrown ==> r.state.socket.None?
    ensures !p.thrown ==> r == p
  {
    if p.thrown then
      var c := CloseStep(v, p.state);
      Step(c.state, p.events + c.events, false)
    else p
  }

  /** The try block of one pass, with its catch. */
  function TryStep(v: CloseVariant, s: FinderState, input: PassInput): (r: Step)
    ensures !r.thrown
    ensures !s.refresh && s.socket.None? ==> r == Step(s, [], false)
  {
    var a := RefreshStep(s, input.now, input.sendFault);
    if a.thrown then Caught(v, a)
    else
      var b := ReceiveStep(v, a.state, input.now, input.arrival);
      Caught(v, Step(b.state, a.events + b.events, b.thrown))
  }

  /** One pass of the worker loop: the try block, then the cancellation check. */
  function PassStep(v: CloseVariant, s: FinderState, input: PassInput): (r: Pass)
    ensures r.stop <==> input.cancel
    ensures r.stop ==> r.state.socket.None?
  {
    var t := TryStep(v, s, input);
    if input.cancel then
      var c := CloseStep(v, t.state);
      Pass(c.state, t.events + c.events, true)
    else Pass(t.state, t.events, false)
  }

  /** The passes of the worker loop, one per input, up to and including the first cancelled one. */
  function Run(v: CloseVariant, s: FinderState, inputs: seq<PassInput>): (r: Pass)
    ensures r.stop <==> exists i :: 0 <= i < |inputs| && inputs[i].cancel
    ensures r.stop ==> r.state.socket.None?
    decreases |inputs|
  {
    if |inputs| == 0 then Pass(s, [], false)
    else
      var prev := Run(v, s, inputs[..|inputs| - 1]);
      assert forall i :: 0 <= i < |inputs| - 1 ==> inputs[..|inputs| - 1][i] == inputs[i];
      if prev.stop then prev
      else
        var p := PassStep(v, prev.state, inputs[|inputs| - 1]);
        Pass(p.state, prev.events + p.events, p.stop)
  }

  // ---------------------------------------------------------------------
  // Properties of a pass.

  /**
   * A refresh without a fault opens the socket if needed, broadcasts the
   * request to the device port and restarts the wait.
   */
  lemma RefreshBroadcasts(s: FinderState, now: int)
    requires s.refresh
    ensures var r := RefreshStep(s, now, false);
      !r.thrown && r.state.waitResponseTimestamp == now &&
      r.state.socket == (if s.socket.Some? then s.socket else Some(s.broadcastPort)) &&
      r.events == (if s.socket.None? then [Opened(s.broadcastPort)] else []) +
                  [Broadcast([0x02, 0xED, 0xAD, 0x0F, 0x42, 0x03], BROADCAST_ADDRESS, s.remotePort)]
  {
    RequestBytes();
  }

  /** A well-formed answer on the outstanding task is reported with its sender, and the task replaced. */
  lemma AnswerReported(v: CloseVariant, s: FinderState, now: int, sender: string, name: seq<byte>, trailer: seq<byte>)
    requires s.socket.Some? && s.receiveTask == Pending && |name| < 256
    requires now - s.waitResponseTimestamp <= RESPONSE_WAIT
    ensures var r := ReceiveStep(v, s, now, Some(Arrived(Datagram(sender, EncodeResponse(name, trailer)))));
      r == Step(s, [Reported(sender, TC.Latin1(name))], false)
  {
    var d := Datagram(sender, EncodeResponse(name, trailer));
    ResponseRoundTrip(name, trailer);
    AnswerCompletes(s, d, TC.Latin1(name));
  }

  /** A completed answer that names a device is reported and its task replaced. */
  lemma AnswerCompletes(s: FinderState, d: Datagram, name: string)
    requires s.socket.Some? && s.receiveTask == Pending && ParseResponse(d.buffer) == Found(name)
    ensures CompletionStep(s.(receiveTask := AdvanceTask(s.receiveTask, Some(Arrived(d))))) ==
      Step(s, [Reported(d.sender, name)], false)
  {
    assert AdvanceTask(s.receiveTask, Some(Arrived(d))) == Completed(Arrived(d));
  }

  /** The socket is closed once more than 15 s have passed since the last request. */
  lemma WaitExpiredCloses(v: CloseVariant, s: FinderState, input: PassInput)
    requires !s.refresh && s.socket.Some? && input.now - s.waitResponseTimestamp > RESPONSE_WAIT
    ensures var p := PassStep(v, s, input);
      p.state.socket.None? && Closed in p.events && p.events[|p.events| - 1] == Closed
  {
  }

  /** Within 15 s of the last request, and without an exception, the socket stays open. */
  lemma SocketKeptWhileWaiting(v: CloseVariant, s: FinderState, input: PassInput)
    requires !s.refresh && s.socket.Some? && !input.cancel && input.now - s.waitResponseTimestamp <= RESPONSE_WAIT
    requires !TryThrows(s, input)
    ensures PassStep(v, s, input).state.socket == s.socket
  {
  }

  /** Whether the receive branch of a pass throws: a completed datagram with a name overrun. */
  predicate TryThrows(s: FinderState, input: PassInput)
  {
    var t := AdvanceTask(s.receiveTask, input.arrival);
    t.Completed? && t.completion.Arrived? && ParseResponse(t.completion.datagram.buffer).NameOverrun?
  }

  /** A name overrun closes the socket and leaves the completed task behind. */
  lemma OverrunClosesAndKeepsTask(s: FinderState, input: PassInput, d: Datagram)
    requires !s.refresh && s.socket.Some? && s.receiveTask == Pending && !input.cancel
    requires input.arrival == Some(Arrived(d)) && ParseResponse(d.buffer).NameOverrun?
    ensures var p := PassStep(AsWritten, s, input);
      p.state.socket.None? && p.state.receiveTask == Completed(Arrived(d)) && p.events == [Closed]
  {
  }

  /** A cancelled pass always ends with the socket closed and breaks the loop. */
  lemma CancelCloses(v: CloseVariant, s: FinderState, input: PassInput)
    requires input.cancel
    ensures PassStep(v, s, input).stop && PassStep(v, s, input).state.socket.None?
  {
  }

  /** Once the loop has broken, later inputs change nothing. */
  lemma {:induction false} RunStopped(v: CloseVariant, s: FinderState, inputs: seq<PassInput>, k: nat)
    requires k <= |inputs| && Run(v, s, inputs[..k]).stop
    ensures Run(v, s, inputs) == Run(v, s, inputs[..k])
    decreases |inputs| - k
  {
    if k < |inputs| {
      assert inputs[..|inputs| - 1][..k] == inputs[..k];
      RunStopped(v, s, inputs[..|inputs| - 1], k);
    } else {
      assert inputs[..k] == inputs;
    }
  }

  // ---------------------------------------------------------------------
  // The stale receive task.

  /**
   * A state left by a name overrun: no socket, and the completed task of
   * the offending datagram still in udpReceiveTask.
   */
  predicate Poisoned(s: FinderState, d: Datagram)
  {
    s.socket.None? && s.receiveTask == Completed(Arrived(d)) && ParseResponse(d.buffer).NameOverrun?
  }

  /**
   * As written, a refresh after a name overrun opens a new socket and
   * reads the stale datagram again before anything else: the exception
   * closes the socket at once, in the same pass.
   */
  lemma StaleResponseRepeats(s: FinderState, d: Datagram, input: PassInput)
    requires Poisoned(s, d) && s.refresh && !input.sendFault && !input.cancel
    ensures var p := PassStep(AsWritten, s, input);
      Poisoned(p.state, d) && !p.state.refresh &&
      p.events == [Opened(s.broadcastPort), Broadcast(Request(), BROADCAST_ADDRESS, s.remotePort), Closed]
  {
  }

  /** Every pass, whatever it receives, keeps a poisoned finder poisoned, and reports nothing. */
  lemma PoisonedPass(s: FinderState, d: Datagram, input: PassInput)
    requires Poisoned(s, d)
    ensures var p := PassStep(AsWritten, s, input);
      Poisoned(p.state, d) && forall e :: e in p.events ==> !e.Reported?
  {
    var a := RefreshStep(s, input.now, input.sendFault);
    if !a.thrown && s.refresh {
      assert AdvanceTask(a.state.receiveTask, input.arrival) == Completed(Arrived(d));
    }
  }

  /** As written, after one name overrun the window never reports a device again. */
  lemma {:induction false} StaleResponseBlocksDiscovery(s: FinderState, d: Datagram, inputs: seq<PassInput>)
    requires Poisoned(s, d)
    ensures Poisoned(Run(AsWritten, s, inputs).state, d)
    ensures forall e :: e in Run(AsWritten, s, inputs).events ==> !e.Reported?
    decreases |inputs|
  {
    if |inputs| > 0 {
      var prev := Run(AsWritten, s, inputs[..|inputs| - 1]);
      StaleResponseBlocksDiscovery(s, d, inputs[..|inputs| - 1]);
      if !prev.stop {
        PoisonedPass(prev.state, d, inputs[|inputs| - 1]);
      }
    }
  }

  /** The 8-byte datagram 02 ED AD 0F 42 05 00 03 poisons a finder that receives it. */
  lemma PoisonExample(s: FinderState, input: PassInput, sender: string)
    requires !s.refresh && s.socket.Some? && s.receiveTask == Pending && !input.cancel
    requires input.arrival == Some(Arrived(Datagram(sender, [0x02, 0xED, 0xAD, 0x0F, 0x42, 0x05, 0x00, 0x03])))
    ensures Poisoned(PassStep(AsWritten, s, input).state, Datagram(sender, [0x02, 0xED, 0xAD, 0x0F, 0x42, 0x05, 0x00, 0x03]))
  {
    OverrunExample();
  }

  /** With the task cleared on close, a closed finder never holds a task. */
  predicate NoStaleTask(s: FinderState)
  {
    s.socket.None? ==> s.receiveTask.NoTask?
  }

  lemma InitialHasNoStaleTask(remotePort: int)
    ensures NoStaleTask(Initial(remotePort))
  {
  }

  /** Every pass of the corrected loop keeps NoStaleTask. */
  lemma CorrectedKeepsNoStaleTask(s: FinderState, input: PassInput)
    requires NoStaleTask(s)
    ensures NoStaleTask(PassStep(TaskCleared, s, input).state)
  {
    var a := RefreshStep(s, input.now, input.sendFault);
    if !a.thrown {
      var b := ReceiveStep(TaskCleared, a.state, input.now, input.arrival);
      assert b.state.socket.None? ==> b.state.receiveTask.NoTask? || b.thrown;
    }
  }

  /**
   * Corrected, a refresh always starts a fresh receive task on the new
   * socket, so the socket stays open unless the new task's own datagram
   * overruns: an earlier overrun no longer matters.
   */
  lemma CorrectedRefreshRecovers(s: FinderState, input: PassInput)
    requires NoStaleTask(s) && s.socket.None? && s.refresh && !input.sendFault && !input.cancel
    requires input.arrival.None? || input.arrival.value.Failed? ||
      !ParseResponse(input.arrival.value.datagram.buffer).NameOverrun?
    ensures var p := PassStep(TaskCleared, s, input);
      p.state.socket == Some(s.broadcastPort) && p.state.receiveTask == Pending &&
      p.events[..2] == [Opened(s.broadcastPort), Broadcast(Request(), BROADCAST_ADDRESS, s.remotePort)]
  {
    var a := RefreshStep(s, input.now, false);
    assert a.state.receiveTask == NoTask && a.state.waitResponseTimestamp == input.now;
    var b := ReceiveStep(TaskCleared, a.state, input.now, input.arrival);
    assert !b.thrown && b.state.socket == a.state.socket;
  }

  /** The corrected loop keeps NoStaleTask across any run. */
  lemma {:induction false} CorrectedRunNoStaleTask(s: FinderState, inputs: seq<PassInput>)
    requires NoStaleTask(s)
    ensures NoStaleTask(Run(TaskCleared, s, inputs).state)
    decreases |inputs|
  {
    if |inputs| > 0 {
      var prev := Run(TaskCleared, s, inputs[..|inputs| - 1]);
      CorrectedRunNoStaleTask(s, inputs[..|inputs| - 1]);
      if !prev.stop {
        CorrectedKeepsNoStaleTask(prev.state, inputs[|inputs| - 1]);
      }
    }
  }

  // ---------------------------------------------------------------------
  // The window and its worker as a class.

  class Finder {
    var refresh: bool
    var broadcastPort: int
    const remotePort: int
    var udpClient: Option<int>
    var udpReceiveTask: ReceiveTask
    /** The worker's local waitResponseTimestamp. */
    var waitResponseTimestamp: int
    /** Sockets opened and closed, requests broadcast, devices reported. */
    ghost var log: seq<Event>

    function Snapshot(): FinderState
      reads this
    {
      FinderState(refresh, broadcastPort, remotePort, udpClient, udpReceiveTask, waitResponseTimestamp)
    }

    /** The window takes the device port from the configuration. */
    constructor (remotePort: int)
      ensures Snapshot() == Initial(remotePort) && log == []
    {
      this.remotePort := remotePort;
      refresh := false;
      broadcastPort := DEFAULT_BROADCAST_PORT;
      udpClient := None;
      udpReceiveTask := NoTask;
      waitResponseTimestamp := 0;
      log := [];
    }

    /** The refresh button raises the flag (clearing the result grid is UI). */
    method RefreshClicked()
      modifies this
      ensures Snapshot() == old(Snapshot()).(refresh := true) && log == old(log)
    {
      refresh := true;
    }

    /** The port box: a text that parses as an integer replaces the broadcast port. */
    method BroadcastPortChanged(parsed: Option<int>)
      modifies this
      ensures Snapshot() == (if parsed.Some? then old(Snapshot()).(broadcastPort := parsed.value) else old(Snapshot()))
      ensures log == old(log)
    {
      if parsed.Some? {
        broadcastPort := parsed.value;
      }
    }

    method CloseSocket()
      modifies this
      ensures var c := CloseStep(AsWritten, old(Snapshot()));
        Snapshot() == c.state && log == old(log) + c.events
    {
      if udpClient.Some? {
        log := log + [Closed];
        udpClient := None;
      }
    }

    /** The refresh branch of the try block. */
    method Refresh(now: int, sendFault: bool) returns (thrown: bool)
      modifies this
      ensures var r := RefreshStep(old(Snapshot()), now, sendFault);
        Snapshot() == r.state && log == old(log) + r.events && thrown == r.thrown
    {
      thrown := false;
      if refresh {
        refresh := false;
        var port := broadcastPort;
        if udpClient.None? {
          udpClient := Some(port);
          log := log + [Opened(port)];
        }
        if sendFault {
          thrown := true;
          return;
        }
        var buffer := BuildRequest();
        log := log + [Broadcast(buffer, BROADCAST_ADDRESS, remotePort)];
        waitResponseTimestamp := now;
      }
    }

    /** The receive branch of the try block. */
    method Receive(now: int, arrival: Option<Completion>) returns (thrown: bool)
      modifies this
      ensures var r := ReceiveStep(AsWritten, old(Snapshot()), now, arrival);
        Snapshot() == r.state && log == old(log) + r.events && thrown == r.thrown
    {
      thrown := false;
      if udpClient.None? {
        return;
      }
      if udpReceiveTask.NoTask? {
        udpReceiveTask := Pending;
      }
      if udpReceiveTask.Pending? && arrival.Some? {
        udpReceiveTask := Completed(arrival.value);
      }
      thrown := CompleteTask();
      if thrown {
        return;
      }
      if now - waitResponseTimestamp > RESPONSE_WAIT {
        CloseSocket();
      }
    }

    /** The completion branches of the receive branch, with the task in place. */
    method CompleteTask() returns (thrown: bool)
      modifies this
      ensures var r := CompletionStep(old(Snapshot()));
        Snapshot() == r.state && log == old(log) + r.events && thrown == r.thrown
    {
      thrown := false;
      if udpReceiveTask.Completed? {
        match udpReceiveTask.completion {
          case Arrived(d) =>
            var response := ReadResponse(d.buffer);
            match response {
              case NameOverrun =>
                thrown := true;
                return;
              case Found(name) =>
                log := log + [Reported(d.sender, name)];
              case Ignored =>
            }
          case Failed =>
        }
        udpReceiveTask := Pending;
      }
    }

    /** The try block of a pass with its catch. */
    method TryPass(input: PassInput)
      modifies this
      ensures var t := TryStep(AsWritten, old(Snapshot()), input);
        Snapshot() == t.state && log == old(log) + t.events
    {
      ghost var a := RefreshStep(old(Snapshot()), input.now, input.sendFault);
      var thrown := Refresh(input.now, input.sendFault);
      if thrown {
        ghost var c := CloseStep(AsWritten, a.state);
        CloseSocket();
        AppendTwo(old(log), a.events, c.events);
        return;
      }
      ghost var b := ReceiveStep(AsWritten, a.state, input.now, input.arrival);
      thrown := Receive(input.now, input.arrival);
      if thrown {
        ghost var c := CloseStep(AsWritten, b.state);
        CloseSocket();
        AppendAssoc(old(log), a.events, b.events, c.events);
      } else {
        AppendTwo(old(log), a.events, b.events);
      }
    }

    /** One pass of the worker loop; stop is the `break` on cancellation. */
    method WorkerPass(input: PassInput) returns (stop: bool)
      modifies this
      ensures var p := PassStep(AsWritten, old(Snapshot()), input);
        Snapshot() == p.state && log == old(log) + p.events && stop == p.stop
    {
      ghost var t := TryStep(AsWritten, old(Snapshot()), input);
      TryPass(input);
      stop := false;
      if input.cancel {
        ghost var c := CloseStep(AsWritten, t.state);
        CloseSocket();
        AppendTwo(old(log), t.events, c.events);
        stop := true;
      }
    }

    /**
     * The worker loop over the passes it makes, up to the first one that
     * finds cancellation pending.
     */
    method Worker(inputs: seq<PassInput>)
      modifies this
      ensures var r := Run(AsWritten, old(Snapshot()), inputs);
        Snapshot() == r.state && log == old(log) + r.events
    {
      var i := 0;
      var stop := false;
      while i < |inputs| && !stop
        invariant 0 <= i <= |inputs|
        invariant Snapshot() == Run(AsWritten, old(Snapshot()), inputs[..i]).state
        invariant log == old(log) + Run(AsWritten, old(Snapshot()), inputs[..i]).events
        invariant stop == Run(AsWritten, old(Snapshot()), inputs[..i]).stop
      {
        ghost var prev := Run(AsWritten, old(Snapshot()), inputs[..i]);
        assert inputs[..i + 1][..i] == inputs[..i];
        stop := WorkerPass(inputs[i]);
        ghost var p := PassStep(AsWritten, prev.state, inputs[i]);
        assert Run(AsWritten, old(Snapshot()), inputs[..i + 1]) == Pass(p.state, prev.events + p.events, p.stop);
        AppendTwo(old(log), prev.events, p.events);
        i := i + 1;
      }
      if stop {
        RunStopped(AsWritten, old(Snapshot()), inputs, i);
      } else {
        assert inputs[..i] == inputs;
      }
    }
  }

  /** The receive branch's reading of a datagram, in the order of its checks. */
  method ReadResponse(buffer: seq<byte>) returns (r: Response)
    ensures r == ParseResponse(buffer)
  {
    if |buffer| < 8 || buffer[0] != STX || buffer[|buffer| - 1] != ETX {
      return Ignored;
    }
    var header := ReadLE(buffer[1..5]);
    if header != DISCOVERY_MAGIC {
      return Ignored;
    }
    var nameLen := buffer[5] as nat;
    if 6 + nameLen >= |buffer| {
      return NameOverrun;
    }
    var nameBuffer := buffer[6..6 + nameLen];
    var escape := buffer[6 + nameLen];
    if escape != DNE {
      return Ignored;
    }
    var name := TC.ConvertString(nameBuffer);
    return Found(name);
  }
}
