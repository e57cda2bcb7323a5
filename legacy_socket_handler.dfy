/**
 * The earlier UDPSocketHandler (UDPSocketHandler.cs) as a class. It runs
 * the same worker loop as the current handler, with the legacy record
 * grammar, and its connect branch only closes the old socket
 * (`udpClient?.Close()`), so the connected flag survives a reconnect.
 */
module LegacySocketHandler {
  import opened Wrappers
  import opened Bytes
  import opened Constants
  import opened Frame
  import opened Engine
  import LegacyRecords
  import opened Logs

  class LegacyHandler {
    var connect: bool
    var remotePort: int
    var localPort: int
    var ipString: Option<string>
    var disconnect: bool
    var ping: bool
    var clientConnected: bool
    var receiveTask: RecvTask
    var sendInFlight: bool
    var lastPacket: int
    var lastPing: int
    var client: Option<Binding>
    var receivedDataList: Option<seq<LegacyRecords.ReceivedData>>
    /** The worker's local oldConnectionStatus. */
    var oldConnectionStatus: bool
    /** Sockets opened and closed, frames sent, reports handed to the UI. */
    ghost var log: seq<Event<LegacyRecords.ReceivedData>>

    function Snapshot(): Engine.State<LegacyRecords.ReceivedData>
      reads this
    {
      Engine.State(connect, ping, disconnect, clientConnected, ipString, remotePort, localPort,
                   client, sendInFlight, receiveTask, lastPacket, lastPing, receivedDataList, oldConnectionStatus)
    }

    constructor ()
      ensures Snapshot() == Initial() && log == []
    {
      connect, ping, disconnect, clientConnected := false, false, false, false;
      ipString, remotePort, localPort := None, -1, -1;
      client, sendInFlight, receiveTask := None, false, NoTask;
      lastPacket, lastPing := 0, 0;
      receivedDataList, oldConnectionStatus := None, false;
      log := [];
    }

    method Connect(ipAddress: string, remotePort: int, localPort: int)
      modifies this
      ensures Snapshot() == Engine.Connect(old(Snapshot()), ipAddress, remotePort, localPort) && log == old(log)
    {
      ipString := Some(ipAddress);
      this.remotePort := remotePort;
      this.localPort := localPort;
      connect := true;
    }

    method Disconnect()
      modifies this
      ensures Snapshot() == Engine.Disconnect(old(Snapshot())) && log == old(log)
    {
      disconnect := true;
    }

    /**
     * What the legacy catch blocks and disconnect branch do inline: drop
     * the connected flag, close the socket and forget it.
     */
    method DisconnectClient()
      modifies this
      ensures var d := Engine.DisconnectClient(old(Snapshot()));
        Snapshot() == d.state && log == old(log) + d.events
    {
      if client.Some? {
        log := log + [Closed];
      }
      client := None;
      clientConnected := false;
    }

    /** UDPSend; thrown reports an exception escaping to the worker's catch. */
    method UdpSend(now: int, sendCompleted: bool, ipParses: bool, sendFault: bool) returns (thrown: bool)
      modifies this
      ensures var st := SendStep(Legacy, old(Snapshot()), now, sendCompleted, ipParses, sendFault);
        Snapshot() == st.state && log == old(log) + st.events && thrown == st.thrown
    {
      thrown := false;
      if sendInFlight && (sendCompleted || client.None?) {
        sendInFlight := false;
      } else if !sendInFlight {
        if connect {
          thrown := SendConnect(now, ipParses, sendFault);
        } else if ping {
          thrown := SendPing(now, sendFault);
        } else if disconnect {
          thrown := SendDisconnect(sendFault);
        }
      }
    }

    /** The connect branch of UDPSend. */
    method SendConnect(now: int, ipParses: bool, sendFault: bool) returns (thrown: bool)
      modifies this
      ensures var st := ConnectIntent(Legacy, old(Snapshot()), now, ipParses, sendFault);
        Snapshot() == st.state && log == old(log) + st.events && thrown == st.thrown
    {
      thrown := false;
      connect := false;
      if ipString.Some? && ipParses && localPort > 0 && remotePort > 0 {
        ghost var closed := Engine.CloseClient(Snapshot());
        CloseClient();
        if sendFault {
          thrown := true;
          return;
        }
        OpenClient(now);
        AppendTwo(old(log), closed.events, [Opened(Binding(ipString.value, remotePort, localPort)), Sent(CommandFrame(CMD_CONN))]);
      }
    }

    /**
     * `udpClient?.Close();` before the reconnect (UDPSocketHandler.cs:194),
     * which leaves the connected flag as it was. The source then assigns the
     * new socket at line 196; the model drops the closed one first, so a
     * fault between the two finds no socket, where the source would find the
     * closed one and close it again in its catch.
     */
    method CloseClient()
      modifies this
      ensures var d := Engine.CloseClient(old(Snapshot()));
        Snapshot() == d.state && log == old(log) + d.events
    {
      if client.Some? {
        log := log + [Closed];
      }
      client := None;
    }

    /** A new socket on the configured endpoint, which sends [STX, CMD_CONN, ETX]. */
    method OpenClient(now: int)
      requires ipString.Some?
      modifies this
      ensures var b := Binding(old(ipString).value, old(remotePort), old(localPort));
        Snapshot() == old(Snapshot()).(client := Some(b), sendInFlight := true, lastPacket := now, lastPing := now) &&
        log == old(log) + [Opened(b), Sent(CommandFrame(CMD_CONN))]
    {
      var binding := Binding(ipString.value, remotePort, localPort);
      client := Some(binding);
      var sendBuffer := [STX, CMD_CONN, ETX];
      log := log + [Opened(binding), Sent(sendBuffer)];
      sendInFlight := true;
      lastPing := now;
      lastPacket := now;
    }

    /** The ping branch of UDPSend. */
    method SendPing(now: int, sendFault: bool) returns (thrown: bool)
      modifies this
      ensures var st := PingIntent(old(Snapshot()), now, sendFault);
        Snapshot() == st.state && log == old(log) + st.events && thrown == st.thrown
    {
      thrown := false;
      ping := false;
      if client.Some? && clientConnected {
        if sendFault {
          thrown := true;
          return;
        }
        var sendBuffer := [STX, CMD_PING, ETX];
        log := log + [Sent(sendBuffer)];
        sendInFlight := true;
        lastPing := now;
      }
    }

    /** The disconnect branch of UDPSend: the STOP frame goes out synchronously, then the socket closes. */
    method SendDisconnect(sendFault: bool) returns (thrown: bool)
      modifies this
      ensures var st := DisconnectIntent(old(Snapshot()), sendFault);
        Snapshot() == st.state && log == old(log) + st.events && thrown == st.thrown
    {
      thrown := false;
      disconnect := false;
      if client.Some? && clientConnected {
        if sendFault {
          thrown := true;
          return;
        }
        var sendBuffer := [STX, CMD_STOP, ETX];
        log := log + [Sent(sendBuffer)];
        DisconnectClient();
      }
    }

    /** UDPReceive; arrival says whether the outstanding receive task has completed, and how. */
    method UdpReceive(now: int, arrival: Option<RecvOutcome>) returns (thrown: bool)
      modifies this
      ensures var st := ReceiveStep(LegacyRecords.Decode, old(Snapshot()), now, arrival);
        Snapshot() == st.state && log == old(log) + st.events && thrown == st.thrown
    {
      thrown := false;
      if client.None? {
        receiveTask := NoTask;
        return;
      }
      if receiveTask.NoTask? {
        receiveTask := Waiting;
      }
      if receiveTask.Waiting? && arrival.Some? {
        receiveTask := Done(arrival.value);
      }
      thrown := CompleteTask(now);
    }

    /** The completion branches of UDPReceive, with the task already in place. */
    method CompleteTask(now: int) returns (thrown: bool)
      modifies this
      ensures var st := Engine.CompleteTask(LegacyRecords.Decode, old(Snapshot()), now);
        Snapshot() == st.state && log == old(log) + st.events && thrown == st.thrown
    {
      thrown := false;
      if receiveTask.Done? && receiveTask.outcome.Received? {
        thrown := ParseReceivedBuffer(now, receiveTask.outcome.datagram);
        if thrown {
          return;
        }
        receiveTask := Waiting;
      } else if receiveTask.Done? {
        receiveTask := Waiting;
      }
    }

    /** ParseReceivedBuffer; thrown is the exception of the payload slice on a 3- to 5-byte frame. */
    method ParseReceivedBuffer(now: int, buffer: seq<byte>) returns (thrown: bool)
      modifies this
      ensures var st := Engine.ParseReceivedBuffer(LegacyRecords.Decode, old(Snapshot()), now, buffer);
        Snapshot() == st.state && log == old(log) && thrown == st.thrown
    {
      var frame := ClassifyFrame(buffer);
      thrown := ApplyFrame(now, frame);
    }

    /** The branches of ParseReceivedBuffer after the envelope checks. */
    method ApplyFrame(now: int, frame: FrameClass) returns (thrown: bool)
      modifies this
      ensures var st := Engine.ApplyFrame(LegacyRecords.Decode, old(Snapshot()), now, frame);
        Snapshot() == st.state && log == old(log) && thrown == st.thrown
    {
      thrown := false;
      match frame {
        case Dropped =>
        case SliceFault => thrown := true;
        case KeepAlive =>
          lastPing := now;
          lastPacket := now;
          clientConnected := true;
        case DataPayload(valuesBuffer) =>
          if clientConnected {
            var outcome := LegacyRecords.ParseData(valuesBuffer);
            match outcome {
              case Published(dataList) => receivedDataList := Some(dataList);
              case Discarded =>
              case Overrun => disconnect := true;
            }
            lastPacket := now;
          }
      }
    }

    /** The handling block of the worker loop: timers, then reports. */
    method Handle(now: int)
      modifies this
      ensures var st := HandleStep(old(Snapshot()), now);
        Snapshot() == st.state && log == old(log) + st.events
    {
      CheckTimers(now);
      Report();
    }

    /** The timeout and ping checks, made only while a socket exists. */
    method CheckTimers(now: int)
      modifies this
      ensures Snapshot() == TimerStep(old(Snapshot()), now) && log == old(log)
    {
      if client.Some? {
        if now - lastPacket > PACKET_TIMEOUT {
          clientConnected := false;
        }
        if clientConnected && now - lastPing >= PING_TIMEOUT {
          ping := true;
        }
      }
    }

    /** The batch report and the connection status report. */
    method Report()
      modifies this
      ensures var st := ReportStep(old(Snapshot()));
        Snapshot() == st.state && log == old(log) + st.events
    {
      ghost var reports: seq<Event<LegacyRecords.ReceivedData>> := [];
      if receivedDataList.Some? {
        reports := [DataReport(receivedDataList.value)];
        log := log + reports;
        receivedDataList := None;
      }
      ghost var status: seq<Event<LegacyRecords.ReceivedData>> := [];
      if oldConnectionStatus != clientConnected {
        oldConnectionStatus := clientConnected;
        status := [StatusReport(clientConnected)];
        log := log + status;
      }
      AppendTwo(old(log), reports, status);
    }

    /** One pass of the worker loop, each phase behind its catch. */
    method WorkerPass(input: TickInput)
      modifies this
      ensures var st := Tick(Legacy, LegacyRecords.Decode, old(Snapshot()), input);
        Snapshot() == st.state && log == old(log) + st.events
    {
      ghost var log0 := log;
      TrySend(input);
      ghost var a := Catch(SendStep(Legacy, old(Snapshot()), input.now, input.sendCompleted, input.ipParses, input.sendFault));
      TryReceive(input);
      ghost var b := Catch(ReceiveStep(LegacyRecords.Decode, a.state, input.now, input.arrival));
      ghost var log2 := log;
      Handle(input.now);
      ghost var c := HandleStep(b.state, input.now);
      AppendAssoc(log0, a.events, b.events, c.events);
    }

    /** `try { UDPSend(); } catch { clientConnected = false; udpClient?.Close(); udpClient = null; }` */
    method TrySend(input: TickInput)
      modifies this
      ensures var st := Catch(SendStep(Legacy, old(Snapshot()), input.now, input.sendCompleted, input.ipParses, input.sendFault));
        Snapshot() == st.state && log == old(log) + st.events
    {
      var thrown := UdpSend(input.now, input.sendCompleted, input.ipParses, input.sendFault);
      if thrown {
        DisconnectClient();
      }
    }

    /** `try { UDPReceive(); } catch { clientConnected = false; udpClient?.Close(); udpClient = null; }` */
    method TryReceive(input: TickInput)
      modifies this
      ensures var st := Catch(ReceiveStep(LegacyRecords.Decode, old(Snapshot()), input.now, input.arrival));
        Snapshot() == st.state && log == old(log) + st.events
    {
      var thrown := UdpReceive(input.now, input.arrival);
      if thrown {
        DisconnectClient();
      }
    }

    /**
     * The worker loop, one pass per input. The loop polls the worker that
     * StartWorker declares locally, while the shutdown hook cancels the
     * never-started field of the same name (UDPSocketHandler.cs:67 and 86).
     * So the loop is never cancelled, and a run is any finite prefix of its
     * passes. It starts and ends quiescent.
     */
    method Worker(inputs: seq<TickInput>)
      requires Quiescent(Snapshot())
      modifies this
      ensures var st := Run(Legacy, LegacyRecords.Decode, old(Snapshot()), inputs);
        Snapshot() == st.state && log == old(log) + st.events
      ensures Quiescent(Snapshot())
    {
      var i := 0;
      while i < |inputs|
        invariant 0 <= i <= |inputs|
        invariant Snapshot() == Run(Legacy, LegacyRecords.Decode, old(Snapshot()), inputs[..i]).state
        invariant log == old(log) + Run(Legacy, LegacyRecords.Decode, old(Snapshot()), inputs[..i]).events
      {
        ghost var prev := Run(Legacy, LegacyRecords.Decode, old(Snapshot()), inputs[..i]);
        WorkerPass(inputs[i]);
        ghost var t := Tick(Legacy, LegacyRecords.Decode, prev.state, inputs[i]);
        RunSnoc(Legacy, LegacyRecords.Decode, old(Snapshot()), inputs, i);
        AppendTwo(old(log), prev.events, t.events);
        i := i + 1;
      }
      assert inputs[..|inputs|] == inputs;
      RunEndsQuiescent(Legacy, LegacyRecords.Decode, old(Snapshot()), inputs);
    }
  }

  /**
   * A frame carrying a nonempty run of encoded decodable records, delivered
   * to the outstanding receive while connected, leaves exactly that batch,
   * in wire order, pending for the report of the same pass.
   */
  lemma EncodedBatchBecomesPending(s: State<LegacyRecords.ReceivedData>, now: int, ws: seq<LegacyRecords.WireRecord>)
    requires s.client.Some? && s.clientConnected && s.receiveTask == Waiting
    requires LegacyRecords.AllDecodable(ws) && |ws| > 0 && |LegacyRecords.EncodeAll(ws)| + 6 < 65536
    ensures var r := ReceiveStep(LegacyRecords.Decode, s, now, Some(Received(EncodeFrame(LegacyRecords.EncodeAll(ws)))));
      !r.thrown && r.state.clientConnected && r.state.receiveTask == Waiting &&
      r.state.pending == Some(LegacyRecords.InterpretAll(ws)) && r.state.disconnect == s.disconnect
  {
    var payload := LegacyRecords.EncodeAll(ws);
    assert payload == LegacyRecords.Encode(ws[0]) + LegacyRecords.EncodeAll(ws[1..]);
    assert |payload| >= 5;
    LegacyRecords.DecodeEncodeAll(ws);
    DataParsedWhileConnected(LegacyRecords.Decode, s, now, payload);
  }
}
