# UDPLogger telemetry core in Dafny

UDPLogger is a Windows desktop logger. It opens a UDP session to a field
device, keeps the session alive with pings, and decodes the batches of
named, typed values the device sends. The values are shown in a grid and
stored. This project models the protocol core and the small pieces of
logic around it:

- **Inbound frames** (`frame.dfy`). The datagram envelope is
  `[STX][lenLo][lenHi][payload][ckLo][ckHi][ETX]`, where len is the
  little-endian total datagram length and ck is the XOR of the payload. The
  checks run in the handler's order, and the `foreach` checksum loop is a
  method. The outbound commands are the bare frames `[STX, cmd, ETX]`.
- **Records** (`records.dfy`, `legacy_records.dfy`).
  - A payload is a run of `nameLen, name, DNE, flags, typeId, valueLen,
    value, DVE` records in the current handler. The earlier handler's
    records have no flags byte.
  - `ParseData` is the source's cursor loop. It returns an outcome:
    published, discarded, or an index overrun. The batch is published only
    when the last record ends at the payload end.
  - Round trips run both ways, in both grammars. Encoded records are
    published in wire order, and every published batch is an encoding.
  - A broken record (a wrong escape or a value that converts to null)
    anywhere in the payload discards the whole batch.
- **The connection state machine** (`socket_engine.dfy`).
  - It has the handler's intent flags, the connected flag, the socket,
    the send and receive tasks, the two timers, the pending batch and the
    last reported status.
  - Each phase of a worker pass is a pure function: send, receive and
    handle, each behind its catch.
  - The clock, `IPAddress.TryParse`, task completion and socket faults are
    inputs of a pass. What goes on the wire and to the UI is a list of
    events.
- **The two handler classes** (`socket_handler.dfy`,
  `legacy_socket_handler.dfy`). They have the source's fields and one
  method per source method. Each method's `ensures` ties the new field
  values and the event log to the engine function it refines.
- **The type codec** (`udp_type_converter.dfy`, `udp_type.dfy`). It covers
  the serialized integer readings, Bool from byte 0, the Latin-1
  byte-per-char string, and the dispatch on 0xA0-0xA4. The earlier codec is
  a class hierarchy of singletons. It is modelled as a datatype whose
  `Convert` yields the same number, string or raw Real bytes as the newer
  codec. The two do not box the same CLR types (see "## Left out").
- **Helpers** (`utility_utils.dfy`, `utils.dfy`).
  - `GetBit` on C#'s 32-bit shift.
  - The suffix index of `FormatBytes`. A length of 1024^5 bytes or more
    runs the index to 5, past the end of the five suffixes. That
    `IndexOutOfRangeException` is the `None` result.
  - `FixRecvBuffer`, with the host byte order as a parameter, showing the
    in-place `Array.Reverse`.
- **Device discovery** (`discovery.dfy`).
  - The finder window broadcasts `02 ED AD 0F 42 03`. It reports every
    answer of the form `[STX][magic][nameLen][name][DNE][...][ETX]`.
  - It closes its socket 15 s after the last request.
  - The worker loop is a class (`Finder`) over a pure pass function.
- **The grid upsert** (`grid.dfy`). The main window stores received items
  keyed by name and refreshes when anything was appended or assigned.
- **The configuration defaults and `~\` path expansion**
  (`configuration.dfy`).

`bytes.dfy` holds the little-endian readings. `wrappers.dfy` holds
`Option`, and `logs.dfy` holds two associativity steps for the event logs.

The model keeps these properties of the code, some of which a reader of
the wire format alone would not expect:

- The outer frame carries a two-byte total length after STX.
- A command frame has no length or checksum.
- A Bool reads only byte 0 and throws on an empty value.
- An index overrun while parsing is not a silent drop: it raises the
  disconnect intent.
- When parsing throws, the completed receive task is left in place rather
  than reissued.
- A handler's worker is never cancelled. `StartWorker` runs a local
  `udpWorker` that hides the field, and the shutdown hook cancels the
  field's worker, which never runs (UDP/UDPSocketHandler.cs:51 and 70; the
  earlier handler at lines 67 and 86). Its loop also has no code that
  closes the socket on exit.
- A connect with bad parameters only clears its flag.

## Model

| member | source | states |
|---|---|---|
| Bytes.ReadLE | UDP/UDPTypeConverter.cs:20-30 | the `ReadUInt16/32/64LittleEndian` reading, the sum of byte i times 256^i; ReadLEBound bounds it and WriteLE inverts it |
| Bytes.WriteLE | Configuration/FindDevicesWindow.xaml.cs:96-97 | `WriteUInt32LittleEndian`: n bytes for any value below 256^n, inverted by ReadLE (ReadWriteLE, WriteReadLE) |
| Bytes.ReadSignedLE | UDP/UDPTypeConverter.cs:32-42 | the `(sbyte)` and `ReadInt16/32/64LittleEndian` reading; SignedRange and SignedModulo state its range and its relation to ReadLE |
| Bytes.ReadLEBound | UDP/UDPTypeConverter.cs:20-30 | an n-byte little-endian reading is below 256^n |
| Bytes.ReadWriteLE | Configuration/FindDevicesWindow.xaml.cs:96-97 | reading back the bytes `WriteUInt32LittleEndian` wrote gives the value |
| Bytes.WriteReadLE | UDP/UDPTypeConverter.cs:20-30 | writing back a reading restores the bytes, so distinct byte strings of one width read as distinct values |
| Bytes.SignedRange | UDP/UDPTypeConverter.cs:32-42 | an n-byte two's-complement reading lies in [-256^n/2, 256^n/2) and is negative exactly when the top byte is at least 0x80 |
| Bytes.SignedModulo | UDP/UDPTypeConverter.cs:32-42 | the signed reading is the unsigned one modulo 256^n |
| Frame.XorAll | UDP/UDPSocketHandler.cs:274-280 | the XOR of the payload bytes that the checksum is compared with; XorAllConcat and SingleByteChangeDetected state its properties, and Checksum is the source's loop proved equal to it |
| Frame.XorAllConcat | UDP/UDPSocketHandler.cs:274-280 | the checksum of a concatenation is the XOR of the two checksums |
| Frame.SingleByteChangeDetected | UDP/UDPSocketHandler.cs:273-285 | changing any one payload byte changes the XOR checksum |
| Frame.Classify | UDP/UDPSocketHandler.cs:262-291 | a datagram gets past the envelope only with length > 2, STX first, ETX last and the declared length equal to its length; exactly the 3- to 5-byte ones that pass throw at the payload slice; a keep-alive payload is exactly B0 0B and a data payload is the bytes between header and trailer |
| Frame.HighChecksumByteRejects | UDP/UDPSocketHandler.cs:273-285 | a nonzero high checksum byte always drops the frame, as the XOR is below 256 |
| Frame.FrameRoundTrip | UDP/UDPSocketHandler.cs:262-291 | a frame built around any payload is accepted and classified by its payload (keep-alive or data) |
| Frame.AcceptedIsEncoded | UDP/UDPSocketHandler.cs:262-287 | every accepted datagram is exactly the frame of its payload |
| Frame.TruncatedDropped | UDP/UDPSocketHandler.cs:262-271 | any frame cut short of its declared length is dropped |
| Frame.CorruptedDropped | UDP/UDPSocketHandler.cs:273-285 | a frame with one payload byte corrupted is dropped |
| Frame.EncodeFrame | UDP/UDPSocketHandler.cs:262-287 | the datagram a device sends around a payload, six bytes longer than the payload; FrameRoundTrip and AcceptedIsEncoded make it the inverse of Classify |
| Frame.CommandFrame | UDP/UDPSocketHandler.cs:171-175 | an outbound command is the three bytes STX, cmd, ETX |
| Frame.Checksum | UDP/UDPSocketHandler.cs:274-280 | the `foreach` XOR accumulator computes the checksum of the payload |
| Frame.ClassifyFrame | UDP/UDPSocketHandler.cs:262-287 | the handler's sequence of envelope checks classifies as Classify does |
| Records.RecordAt | UDP/UDPSocketHandler.cs:315-345 | an empty suffix overruns; a record read has DNE after its name, DVE as its last byte, the declared name length and the identifier byte after the flags |
| Records.FieldsAt | UDP/UDPSocketHandler.cs:328-345 | after the name escape: a record read has flags, identifier and length bytes in place, at least five more bytes, DVE as its last byte and the identifier at nameEnd + 2 |
| Records.Decode | UDP/UDPSocketHandler.cs:308-353 | an empty payload overruns; a published batch has at least one record and at least six bytes per record |
| Records.ForceInsertIsLowBit | UDP/UDPSocketHandler.cs:328-329 | ForceInsert is set exactly when the flags byte is odd |
| Records.RecordAtRead | UDP/UDPSocketHandler.cs:315-345 | a record whose escapes are in place and whose value converts is read with the name as Latin-1, the flags' bit 0, the identifier and the value, ending after DVE |
| Records.ParseData | UDP/UDPSocketHandler.cs:308-353 | the cursor loop returns what Decode specifies |
| Records.ReadRecord | UDP/UDPSocketHandler.cs:315-345 | one pass of the loop body reads what RecordAt specifies |
| Records.ReadFields | UDP/UDPSocketHandler.cs:328-345 | the loop body after the name escape reads what FieldsAt specifies |
| Records.ReadEncoded | UDP/UDPSocketHandler.cs:315-345 | an encoded decodable record is read back whole, whatever follows it |
| Records.DecodeAfterRead | UDP/UDPSocketHandler.cs:345-351 | a record that ends before the payload end is put in front of the outcome of the rest |
| Records.DecodeEncodedPrefix | UDP/UDPSocketHandler.cs:313-352 | encoded records in front of any nonempty payload are put, in order, in front of its outcome |
| Records.DecodeEncodeAll | UDP/UDPSocketHandler.cs:308-353 | a nonempty run of encoded decodable records is published, in wire order |
| Records.RecordIsEncoded | UDP/UDPSocketHandler.cs:315-345 | the bytes a successful read consumed are the encoding of a decodable record that yields the record read |
| Records.PublishedIsEncoded | UDP/UDPSocketHandler.cs:308-353 | every published payload is the encoding of decodable records that yield the batch, in order |
| Records.BrokenDiscardsBatch | UDP/UDPSocketHandler.cs:320-343 | a broken record after any run of good ones discards the whole batch |
| Records.WrongNameEscapeBreaks | UDP/UDPSocketHandler.cs:320-326 | a name not followed by DNE breaks the record |
| Records.WrongValueEscapeBreaks | UDP/UDPSocketHandler.cs:337-343 | a value not followed by DVE breaks the record |
| Records.NullValueBreaks | UDP/UDPSocketHandler.cs:339-343 | a value that converts to null breaks the record |
| Records.NullValueDiscardsBatch | UDP/UDPSocketHandler.cs:339-343 | a value converting to null after any run of good records discards the whole batch, so nothing is published |
| Records.TruncatedRecordOverruns | UDP/UDPSocketHandler.cs:315-337 | a record cut short anywhere is an overrun |
| Records.TruncatedPayloadOverruns | UDP/UDPSocketHandler.cs:313-352 | a payload whose last record is cut short is an overrun, not a discard |
| LegacyRecords.RecordAt | UDPSocketHandler.cs:326-353 | as Records.RecordAt for the record without the flags byte |
| LegacyRecords.FieldsAt | UDPSocketHandler.cs:339-353 | after the name escape of a legacy record: identifier and length bytes in place, at least four more bytes, DVE as its last byte and the identifier at nameEnd + 1 |
| LegacyRecords.Decode | UDPSocketHandler.cs:319-361 | an empty payload overruns; a published batch has at least one record and at least five bytes per record; DecodeEncodeAll and PublishedIsEncoded make it the inverse of EncodeAll, and BrokenDiscardsBatch and NullValueDiscardsBatch state the discards |
| LegacyRecords.RecordAtRead | UDPSocketHandler.cs:326-353 | a record whose escapes are in place and whose value converts is read with its Latin-1 name, identifier and value |
| LegacyRecords.DecodeAfterRead | UDPSocketHandler.cs:353-359 | a record that ends before the payload end is put in front of the outcome of the rest |
| LegacyRecords.ParseData | UDPSocketHandler.cs:319-361 | the legacy cursor loop returns what Decode specifies |
| LegacyRecords.ReadRecord | UDPSocketHandler.cs:326-353 | one pass of the legacy loop body reads what RecordAt specifies |
| LegacyRecords.ReadFields | UDPSocketHandler.cs:339-353 | the legacy body after the name escape reads what FieldsAt specifies |
| LegacyRecords.ReadEncoded | UDPSocketHandler.cs:326-353 | an encoded decodable legacy record is read back whole |
| LegacyRecords.DecodeEncodedPrefix | UDPSocketHandler.cs:324-360 | encoded legacy records in front of any nonempty payload are put in front of its outcome |
| LegacyRecords.DecodeEncodeAll | UDPSocketHandler.cs:319-361 | a nonempty run of encoded legacy records is published in wire order |
| LegacyRecords.BrokenDiscardsBatch | UDPSocketHandler.cs:331-351 | a broken legacy record after good ones discards the batch |
| LegacyRecords.NullValueBreaks | UDPSocketHandler.cs:347-351 | a well-formed legacy record whose value converts to null is broken |
| LegacyRecords.NullValueDiscardsBatch | UDPSocketHandler.cs:347-351 | a value converting to null after any run of good legacy records discards the whole batch, so nothing is published |
| LegacyRecords.RecordIsEncoded | UDPSocketHandler.cs:326-353 | the bytes a successful legacy read consumed are the encoding of a decodable record that yields the record read |
| LegacyRecords.PublishedIsEncoded | UDPSocketHandler.cs:319-361 | every published legacy payload is the encoding of decodable records that yield the batch, in order |
| LegacyRecords.WrongNameEscapeBreaks | UDPSocketHandler.cs:331-337 | a name not followed by DNE breaks the legacy record |
| LegacyRecords.WrongValueEscapeBreaks | UDPSocketHandler.cs:345-351 | a value not followed by DVE breaks the legacy record |
| LegacyRecords.TruncatedPayloadOverruns | UDPSocketHandler.cs:324-360 | a legacy payload whose last record is cut short overruns |
| LegacyRecords.SameRecordWithoutFlags | UDPSocketHandler.cs:24 | a current record and the same record without its flags byte decode to the same name, identifier and value in the two handlers |
| Engine.Connect | UDP/UDPSocketHandler.cs:54-61 | the parameters are stored and the connect intent raised; nothing else changes |
| Engine.Disconnect | UDP/UDPSocketHandler.cs:63-66 | only the disconnect intent is raised |
| Engine.DisconnectClient | UDP/UDPSocketHandler.cs:212-228 | the socket is closed (an event only if there was one) and the connected flag cleared; nothing else changes and nothing throws |
| Engine.CloseClient | UDPSocketHandler.cs:194 | the legacy `udpClient?.Close()` closes the socket but keeps the connected flag |
| Engine.SendStep | UDP/UDPSocketHandler.cs:152-210 | the send phase throws only on a socket fault with no send in flight, and never touches the receive task, the pending batch or the reported status |
| Engine.ConnectIntent | UDP/UDPSocketHandler.cs:160-179 | the connect intent is cleared and the other intents kept; it throws exactly on a fault with valid parameters, then with no socket; otherwise valid parameters leave a socket on the configured endpoint with a send in flight |
| Engine.PingIntent | UDP/UDPSocketHandler.cs:180-194 | the ping intent is cleared, the others kept, the socket and connected flag unchanged; it throws exactly on a fault while connected |
| Engine.DisconnectIntent | UDP/UDPSocketHandler.cs:195-208 | the disconnect intent is cleared and the others kept; it throws exactly on a fault while connected; otherwise a connected socket ends closed and not connected, and without a connection the socket is kept |
| Engine.ApplyFrame | UDP/UDPSocketHandler.cs:287-305 | a keep-alive marks connected and restarts both timers whatever the state; data is ignored while not connected and otherwise parsed, publishing a batch or raising the disconnect intent on overrun, and restarting the packet timer; a dropped frame changes nothing |
| Engine.ParseReceivedBuffer | UDP/UDPSocketHandler.cs:260-306 | sends nothing and keeps the socket and the task; throws exactly on a 3- to 5-byte datagram that passes the envelope checks; a dropped datagram changes nothing |
| Engine.AdvanceTask | UDP/UDPSocketHandler.cs:238-246 | after `??=` a task always exists, a completed task is kept, and with no completion an outstanding one stays |
| Engine.CompleteTask | UDP/UDPSocketHandler.cs:239-257 | an outstanding task is left and a faulted one replaced; a received datagram throws exactly at the slice fault, then leaving the state as it was, and otherwise its frame is applied and the receive reissued; nothing is sent |
| Engine.ReceiveStep | UDP/UDPSocketHandler.cs:230-258 | the receive phase never touches the socket and sends nothing; the lemmas below state its main paths |
| Engine.Catch | UDP/UDPSocketHandler.cs:76-133 | after a catch no exception remains; a thrown phase leaves no socket and not connected; otherwise the phase is unchanged |
| Engine.TimerStep | UDP/UDPSocketHandler.cs:102-114 | only with a socket: connected stays connected exactly when the silence is at most 2500 ms, and a ping is due when still connected after 1000 ms; the socket stays open |
| Engine.ReportStep | UDP/UDPSocketHandler.cs:116-127 | a pending batch is reported once and nulled; a status event fires exactly when the status differs from the last one reported |
| Engine.HandleStep | UDP/UDPSocketHandler.cs:100-128 | the handling phase never throws, leaves no pending batch and records the current status as reported |
| Engine.Tick | UDP/UDPSocketHandler.cs:74-134 | one pass never lets an exception out, and ends with nothing pending and the current status reported |
| Engine.SendBusyWaits | UDP/UDPSocketHandler.cs:154-158 | while a send is outstanding on a socket nothing happens and no intent is consumed |
| Engine.SendCompletionOnlyClears | UDP/UDPSocketHandler.cs:154-157 | a completed or orphaned send only frees the slot on that pass |
| Engine.SendConsumesOneIntent | UDP/UDPSocketHandler.cs:158-209 | with the slot free, exactly the first raised intent of connect, ping, disconnect is cleared and the others are kept |
| Engine.ConnectOpens | UDP/UDPSocketHandler.cs:160-178 | a valid connect closes the old socket, opens one on the configured endpoint, sends 02 02 03 and restarts both timers; the current handler clears the connected flag and the legacy one keeps it |
| Engine.ConnectRejected | UDP/UDPSocketHandler.cs:160-164 | an address that does not parse or a port not above 0 only clears the connect intent |
| Engine.PingSends | UDP/UDPSocketHandler.cs:180-194 | a ping intent sends 02 03 03 and restarts the ping timer only on a connected socket, and otherwise is just cleared |
| Engine.DisconnectCloses | UDP/UDPSocketHandler.cs:195-208 | a disconnect on a connected socket sends 02 01 03 at once and closes; otherwise only the intent is cleared and any socket stays open |
| Engine.SendFaultTearsDown | UDP/UDPSocketHandler.cs:76-84 | a socket call that throws in the send phase leaves no socket and not connected once caught |
| Engine.SliceFaultTearsDown | UDP/UDPSocketHandler.cs:239-276 | a 3- to 5-byte datagram passing the length check closes the socket via the catch, with the completed task left in place |
| Engine.StaleDatagramFaultsAgain | UDP/UDPSocketHandler.cs:238-242 | a completed task left behind is parsed again by the next receive phase that finds a socket, and is torn down again |
| Engine.ReceiveWithoutClient | UDP/UDPSocketHandler.cs:232-236 | without a socket the receive phase only drops the task |
| Engine.KeepAliveConnects | UDP/UDPSocketHandler.cs:238-291 | a keep-alive delivered on a socket marks the device connected, restarts both timers and reissues the receive, with nothing else changed |
| Engine.DataParsedWhileConnected | UDP/UDPSocketHandler.cs:238-305 | data delivered while connected is parsed: a published batch becomes pending, an overrun raises the disconnect intent, the packet timer restarts, the receive is reissued and nothing else changes |
| Engine.DataIgnoredWhileDisconnected | UDP/UDPSocketHandler.cs:238-305 | data delivered while not connected changes nothing, the receive being reissued |
| Engine.InitialQuiescent | UDP/UDPSocketHandler.cs:27-45 | a fresh handler is between passes: not connected, nothing pending, status reported |
| Engine.SendKeepsConnectedImpliesClient | UDP/UDPSocketHandler.cs:76-84 | the caught send phase keeps "connected implies a socket" |
| Engine.ReceiveKeepsConnectedImpliesClient | UDP/UDPSocketHandler.cs:88-96 | the caught receive phase keeps "connected implies a socket" |
| Engine.TickEndsQuiescent | UDP/UDPSocketHandler.cs:74-134 | every pass ends with connected implying a socket, no pending batch and the current status reported |
| Engine.PublishedBatchReported | UDP/UDPSocketHandler.cs:116-120 | a batch the receive phase publishes is reported in the same pass, exactly once |
| Engine.RunEndsQuiescent | UDP/UDPSocketHandler.cs:74-134 | any run of passes from a quiescent state ends quiescent |
| Engine.Run | UDP/UDPSocketHandler.cs:74-134 | a run of passes never throws, and after at least one pass nothing is pending and the status is reported |
| SocketHandler.Handler.constructor | UDP/UDPSocketHandler.cs:47-52 | a new handler has the initial field values and an empty log |
| SocketHandler.Handler.Connect | UDP/UDPSocketHandler.cs:54-61 | the fields become Engine.Connect of the old ones; nothing is logged |
| SocketHandler.Handler.Disconnect | UDP/UDPSocketHandler.cs:63-66 | the fields become Engine.Disconnect of the old ones |
| SocketHandler.Handler.DisconnectClient | UDP/UDPSocketHandler.cs:212-228 | fields and log as Engine.DisconnectClient says |
| SocketHandler.Handler.UdpSend | UDP/UDPSocketHandler.cs:152-210 | fields, log and the thrown flag as the send phase specifies |
| SocketHandler.Handler.SendConnect | UDP/UDPSocketHandler.cs:160-179 | the connect branch as ConnectIntent specifies |
| SocketHandler.Handler.OpenClient | UDP/UDPSocketHandler.cs:168-177 | a socket on the configured endpoint, the CONN frame logged and both timers at now |
| SocketHandler.Handler.SendPing | UDP/UDPSocketHandler.cs:180-194 | the ping branch as PingIntent specifies |
| SocketHandler.Handler.SendDisconnect | UDP/UDPSocketHandler.cs:195-208 | the disconnect branch as DisconnectIntent specifies |
| SocketHandler.Handler.UdpReceive | UDP/UDPSocketHandler.cs:230-258 | the receive phase as ReceiveStep specifies with the current record grammar |
| SocketHandler.Handler.CompleteTask | UDP/UDPSocketHandler.cs:239-257 | the completion branches as Engine.CompleteTask specifies |
| SocketHandler.Handler.ParseReceivedBuffer | UDP/UDPSocketHandler.cs:260-306 | the envelope checks and their outcome as Engine.ParseReceivedBuffer specifies |
| SocketHandler.Handler.ApplyFrame | UDP/UDPSocketHandler.cs:287-305 | the branches after the envelope as Engine.ApplyFrame specifies |
| SocketHandler.Handler.Handle | UDP/UDPSocketHandler.cs:100-133 | the handling phase as HandleStep specifies |
| SocketHandler.Handler.CheckTimers | UDP/UDPSocketHandler.cs:102-114 | the timer checks as TimerStep specifies |
| SocketHandler.Handler.Report | UDP/UDPSocketHandler.cs:116-127 | the reports as ReportStep specifies |
| SocketHandler.Handler.WorkerPass | UDP/UDPSocketHandler.cs:76-133 | one pass of the loop as Tick specifies |
| SocketHandler.Handler.TrySend | UDP/UDPSocketHandler.cs:76-84 | the send phase behind its catch |
| SocketHandler.Handler.TryReceive | UDP/UDPSocketHandler.cs:88-96 | the receive phase behind its catch |
| SocketHandler.Handler.Worker | UDP/UDPSocketHandler.cs:74-134 | the loop over its passes ends where Run says and quiescent |
| SocketHandler.EncodedBatchBecomesPending | UDP/UDPSocketHandler.cs:238-353 | the frame of a nonempty run of encoded decodable records, delivered while connected, leaves exactly that batch pending in wire order, with the receive reissued |
| LegacySocketHandler.LegacyHandler.constructor | UDPSocketHandler.cs:63-68 | a new legacy handler has the initial field values and an empty log |
| LegacySocketHandler.LegacyHandler.Connect | UDPSocketHandler.cs:70-77 | the fields become Engine.Connect of the old ones |
| LegacySocketHandler.LegacyHandler.Disconnect | UDPSocketHandler.cs:79-82 | the fields become Engine.Disconnect of the old ones |
| LegacySocketHandler.LegacyHandler.DisconnectClient | UDPSocketHandler.cs:96-104 | the inline teardown of the catch blocks, as Engine.DisconnectClient says |
| LegacySocketHandler.LegacyHandler.UdpSend | UDPSocketHandler.cs:180-241 | the legacy send phase as SendStep specifies for the legacy generation |
| LegacySocketHandler.LegacyHandler.SendConnect | UDPSocketHandler.cs:188-207 | the legacy connect branch, which keeps the connected flag |
| LegacySocketHandler.LegacyHandler.CloseClient | UDPSocketHandler.cs:194 | `udpClient?.Close()` as Engine.CloseClient says |
| LegacySocketHandler.LegacyHandler.OpenClient | UDPSocketHandler.cs:196-205 | a socket on the configured endpoint, the CONN frame logged and both timers at now |
| LegacySocketHandler.LegacyHandler.SendPing | UDPSocketHandler.cs:208-222 | the ping branch as PingIntent specifies |
| LegacySocketHandler.LegacyHandler.SendDisconnect | UDPSocketHandler.cs:223-239 | the disconnect branch as DisconnectIntent specifies |
| LegacySocketHandler.LegacyHandler.UdpReceive | UDPSocketHandler.cs:244-269 | the receive phase with the legacy record grammar |
| LegacySocketHandler.LegacyHandler.CompleteTask | UDPSocketHandler.cs:253-268 | the legacy completion branches |
| LegacySocketHandler.LegacyHandler.ParseReceivedBuffer | UDPSocketHandler.cs:271-317 | the legacy envelope checks, the same as the current ones |
| LegacySocketHandler.LegacyHandler.ApplyFrame | UDPSocketHandler.cs:298-316 | keep-alive and data branches with the legacy records |
| LegacySocketHandler.LegacyHandler.Handle | UDPSocketHandler.cs:124-161 | the legacy handling phase as HandleStep specifies |
| LegacySocketHandler.LegacyHandler.CheckTimers | UDPSocketHandler.cs:126-138 | the 2500 ms timeout and 1000 ms ping checks |
| LegacySocketHandler.LegacyHandler.Report | UDPSocketHandler.cs:140-151 | the batch report and the edge-triggered status report |
| LegacySocketHandler.LegacyHandler.WorkerPass | UDPSocketHandler.cs:92-161 | one legacy pass as Tick specifies |
| LegacySocketHandler.LegacyHandler.TrySend | UDPSocketHandler.cs:92-104 | the send phase behind the inline teardown |
| LegacySocketHandler.LegacyHandler.TryReceive | UDPSocketHandler.cs:108-120 | the receive phase behind the inline teardown |
| LegacySocketHandler.LegacyHandler.Worker | UDPSocketHandler.cs:90-162 | the legacy loop ends where Run says and quiescent |
| LegacySocketHandler.EncodedBatchBecomesPending | UDPSocketHandler.cs:252-361 | the frame of a nonempty run of encoded legacy records, delivered while connected, leaves exactly that batch pending in wire order |
| TypeConverter.ConvertBool | UDP/UDPTypeConverter.cs:15-18 | the conversion throws exactly on an empty value |
| TypeConverter.ConvertBoolReadsFirstByte | UDP/UDPTypeConverter.cs:15-18 | the Bool is byte 0 equal to 1 and the bytes after it are ignored |
| TypeConverter.ConvertUInt | UDP/UDPTypeConverter.cs:20-30 | a value exactly for widths 1, 2, 4 and 8, the little-endian reading, below 256^width; never throws |
| TypeConverter.ConvertInt | UDP/UDPTypeConverter.cs:32-42 | a value exactly for widths 1, 2, 4 and 8, the two's-complement reading, in range, negative exactly when the top byte is at least 0x80 |
| TypeConverter.ConvertReal | UDP/UDPTypeConverter.cs:44-52 | a value exactly for widths 4 and 8 |
| TypeConverter.Latin1 | UDP/UDPTypeConverter.cs:54-62 | one character per byte with the byte's code; Latin1Chars and Latin1RoundTrip state it |
| TypeConverter.Latin1Chars | UDP/UDPTypeConverter.cs:54-62 | the string has the length of the bytes and character i has the code of byte i |
| TypeConverter.Latin1RoundTrip | UDP/UDPTypeConverter.cs:54-62 | the bytes are recovered from the string: the conversion loses nothing |
| TypeConverter.ConvertString | UDP/UDPTypeConverter.cs:54-62 | the loop builds a string of the same length whose character i has the code of byte i |
| TypeConverter.Convert | UDP/UDPTypeConverter.cs:64-75 | an identifier outside 0xA0-0xA4 gives null; only an empty Bool throws; a string is always its Latin-1 text |
| TypeConverter.ConvertKind | UDP/UDPTypeConverter.cs:64-75 | a successful conversion names a known identifier and yields the kind that identifier names, in both directions |
| TypeConverter.ConvertFromString | UDP/UDPTypeConverter.cs:77-88 | 0xA4 yields the text itself, and null comes exactly from identifiers outside 0xA0-0xA4 |
| TypeConverter.StringValueRoundTrip | UDP/UDPTypeConverter.cs:77-88 | a decoded string value is restored unchanged from its text |
| TypeHierarchy.UdpType.Convert | UDPType.cs:39-101 | every singleton's override yields the same value (number, string or raw Real bytes) as the newer codec for its identifier, and null or an exception in the same cases |
| TypeHierarchy.IdentifiersDistinct | UDPType.cs:8-13 | the identifiers are pairwise distinct, outside ASCII and outside 0x02-0x05 |
| TypeHierarchy.GetByIdentifier | UDPType.cs:21-32 | a singleton exactly for 0xA0-0xA4, and it carries the identifier asked for |
| TypeHierarchy.GetByOwnIdentifier | UDPType.cs:15-32 | looking up a singleton's identifier finds that singleton |
| TypeHierarchy.BoolConvert | UDPType.cs:41-44 | throws exactly on an empty value, and otherwise is byte 0 equal to 1 |
| TypeHierarchy.UIntConvert | UDPType.cs:49-58 | a value exactly for widths 1, 2, 4 and 8, the little-endian reading |
| TypeHierarchy.IntConvert | UDPType.cs:64-73 | a value exactly for widths 1, 2, 4 and 8, the two's-complement reading |
| TypeHierarchy.RealConvert | UDPType.cs:79-86 | a value exactly for widths 4 and 8 |
| TypeHierarchy.StringConvert | UDPType.cs:92-100 | the loop builds one character per byte with the byte's code |
| TypeHierarchy.UnknownIdentifierIsNull | UDPType.cs:21-32 | an identifier without a singleton is one the newer codec turns into null |
| Utils.GetBit | Utility/Utils.cs:17-20 | `(b & 1 << n) != 0` on a 32-bit int; GetBitIsBit, GetBitOfByte and GetBitZeroIsOdd state its value |
| Utils.GetBitIsBit | Utility/Utils.cs:17-20 | GetBit(b, n) is bit (n mod 32) of b, as the 32-bit shift takes its count |
| Utils.GetBitOfByte | Utility/Utils.cs:17-20 | for 0 <= n < 8, GetBit(b, n) is bit n of b |
| Utils.GetBitZeroIsOdd | Utility/Utils.cs:17-20 | bit 0, the ForceInsert flag, is set exactly for odd bytes |
| Utils.GetBitHighAndZero | Utility/Utils.cs:17-20 | bits 8 to 31 of a byte are never set, and no bit of 0 is |
| Utils.FormatBytesSuffix | Utility/Utils.cs:28-38 | the index counts divisions by 1024: 1024^i <= length < 1024^(i+1); it reaches 5, and the lookup fails, exactly from 1024^5 bytes; below 1024 the suffix is "B" |
| LegacyUtils.Reversed | Utils.cs:13-16 | the bytes back to front; ReversedAt, ReversedTwice and ReversedMultiset state it |
| LegacyUtils.ReversedAt | Utils.cs:13-16 | reversal keeps the length and puts byte k at |s|-1-k |
| LegacyUtils.ReversedTwice | Utils.cs:13-16 | reversing twice restores the bytes |
| LegacyUtils.ReversedMultiset | Utils.cs:13-16 | reversal keeps the multiset of bytes |
| LegacyUtils.FixRecvBuffer | Utils.cs:11-18 | the same array is returned; on a little-endian host its contents are unchanged and on a big-endian host they are reversed |
| LegacyUtils.Reverse | Utils.cs:15-16 | `Array.Reverse` reverses the array in place |
| Discovery.Request | Configuration/FindDevicesWindow.xaml.cs:96-102 | the request is six bytes, STX, the magic 0x420FADED little-endian, ETX |
| Discovery.RequestBytes | Configuration/FindDevicesWindow.xaml.cs:96-102 | the request is exactly 02 ED AD 0F 42 03 |
| Discovery.BuildRequest | Configuration/FindDevicesWindow.xaml.cs:96-102 | the buffer filled index by index is the request |
| Discovery.ParseResponse | Configuration/FindDevicesWindow.xaml.cs:116-135 | only a datagram with the header is looked at further, and a found name has the declared length |
| Discovery.FoundIff | Configuration/FindDevicesWindow.xaml.cs:117-131 | a device is found exactly when length >= 8, STX, ETX, the magic, the name fits and DNE follows it, and the name is the Latin-1 text of bytes 6 to 6+nameLen |
| Discovery.NameOverrunIff | Configuration/FindDevicesWindow.xaml.cs:122-125 | the index exception is raised exactly when a header-valid datagram puts the escape at or past its end |
| Discovery.ResponseRoundTrip | Configuration/FindDevicesWindow.xaml.cs:117-131 | every encoded answer is found with its name, whatever its trailer |
| Discovery.FoundIsEncoded | Configuration/FindDevicesWindow.xaml.cs:117-131 | every found datagram is the encoding of its name and trailer |
| Discovery.RequestIgnored | Configuration/FindDevicesWindow.xaml.cs:117 | the finder's own six-byte request is ignored |
| Discovery.OverrunExample | Configuration/FindDevicesWindow.xaml.cs:122-125 | 02 ED AD 0F 42 05 00 03 raises the index exception |
| Discovery.CloseStep | Configuration/FindDevicesWindow.xaml.cs:181-192 | the socket is closed (an event only if open) and nothing throws; as written the receive task stays |
| Discovery.RefreshStep | Configuration/FindDevicesWindow.xaml.cs:84-107 | a refresh consumes the flag and leaves a socket, throws exactly on a socket fault, and never touches the receive task; without the flag nothing happens |
| Discovery.AdvanceTask | Configuration/FindDevicesWindow.xaml.cs:111-112 | after `??=` a task always exists and a completed one is kept |
| Discovery.CompletionStep | Configuration/FindDevicesWindow.xaml.cs:112-142 | the socket is not touched; an exception leaves state and task as they were; otherwise a completed task is replaced |
| Discovery.ReceiveStep | Configuration/FindDevicesWindow.xaml.cs:109-149 | without a socket nothing happens |
| Discovery.Caught | Configuration/FindDevicesWindow.xaml.cs:151-155 | an exception closes the socket and is not passed on |
| Discovery.TryStep | Configuration/FindDevicesWindow.xaml.cs:82-155 | the try block with its catch never lets an exception out, and with no refresh asked and no socket it does nothing |
| Discovery.PassStep | Configuration/FindDevicesWindow.xaml.cs:82-161 | the loop breaks exactly on cancellation, and then with the socket closed |
| Discovery.RefreshBroadcasts | Configuration/FindDevicesWindow.xaml.cs:84-107 | a refresh opens the broadcast port if needed, sends the request to 255.255.255.255 at the device port and restarts the wait |
| Discovery.AnswerReported | Configuration/FindDevicesWindow.xaml.cs:111-138 | an encoded answer on the outstanding task, within the wait, is reported with its sender and name and the task is replaced |
| Discovery.WaitExpiredCloses | Configuration/FindDevicesWindow.xaml.cs:145-148 | more than 15000 ms after the last request the socket is closed |
| Discovery.SocketKeptWhileWaiting | Configuration/FindDevicesWindow.xaml.cs:109-149 | within 15000 ms and without an exception the socket stays open |
| Discovery.OverrunClosesAndKeepsTask | Configuration/FindDevicesWindow.xaml.cs:122-155 | a name overrun closes the socket and leaves the completed task in place |
| Discovery.CancelCloses | Configuration/FindDevicesWindow.xaml.cs:157-161 | cancellation closes the socket and breaks the loop |
| Discovery.RunStopped | Configuration/FindDevicesWindow.xaml.cs:157-161 | once the loop has broken, later inputs change nothing |
| Discovery.Run | Configuration/FindDevicesWindow.xaml.cs:80-164 | the loop has broken exactly when some pass was cancelled, and then the socket is closed |
| Discovery.StaleResponseRepeats | Configuration/FindDevicesWindow.xaml.cs:84-125 | as written, a refresh after an overrun opens a socket, broadcasts, and closes it again at once on the same stale datagram |
| Discovery.PoisonedPass | Configuration/FindDevicesWindow.xaml.cs:84-155 | as written, every pass after an overrun keeps the stale task and reports nothing |
| Discovery.StaleResponseBlocksDiscovery | Configuration/FindDevicesWindow.xaml.cs:111-155 | as written, after one overrun no run of passes ever reports a device |
| Discovery.PoisonExample | Configuration/FindDevicesWindow.xaml.cs:117-125 | the datagram 02 ED AD 0F 42 05 00 03 puts a listening finder in that state |
| Discovery.InitialHasNoStaleTask | Configuration/FindDevicesWindow.xaml.cs:34-35 | a new window holds no socket and no task |
| Discovery.CorrectedKeepsNoStaleTask | Configuration/FindDevicesWindow.xaml.cs:181-192 | with the task cleared on close, every pass keeps "no socket implies no task" |
| Discovery.CorrectedRefreshRecovers | Configuration/FindDevicesWindow.xaml.cs:84-111 | corrected, a refresh opens the socket, broadcasts and starts a fresh receive task that keeps it open |
| Discovery.CorrectedRunNoStaleTask | Configuration/FindDevicesWindow.xaml.cs:80-164 | corrected, any run keeps "no socket implies no task" |
| Discovery.Finder.constructor | Configuration/FindDevicesWindow.xaml.cs:37-41 | a new window has the initial fields, the device port from the configuration and an empty log |
| Discovery.Finder.RefreshClicked | Configuration/FindDevicesWindow.xaml.cs:58-64 | only the refresh flag is raised |
| Discovery.Finder.BroadcastPortChanged | Configuration/FindDevicesWindow.xaml.cs:49-56 | a text that parses sets the broadcast port; one that does not changes nothing |
| Discovery.Finder.CloseSocket | Configuration/FindDevicesWindow.xaml.cs:181-192 | fields and log as CloseStep says as written |
| Discovery.Finder.Refresh | Configuration/FindDevicesWindow.xaml.cs:84-107 | fields, log and thrown flag as RefreshStep says |
| Discovery.Finder.Receive | Configuration/FindDevicesWindow.xaml.cs:109-149 | fields, log and thrown flag as ReceiveStep says as written |
| Discovery.Finder.CompleteTask | Configuration/FindDevicesWindow.xaml.cs:112-142 | the completion branches as CompletionStep says |
| Discovery.Finder.TryPass | Configuration/FindDevicesWindow.xaml.cs:82-155 | the try block and its catch as TryStep says |
| Discovery.Finder.WorkerPass | Configuration/FindDevicesWindow.xaml.cs:82-161 | one pass, and the break exactly on cancellation, as PassStep says |
| Discovery.Finder.Worker | Configuration/FindDevicesWindow.xaml.cs:80-164 | the loop over its passes up to the first cancellation ends where Run says |
| Discovery.ReadResponse | Configuration/FindDevicesWindow.xaml.cs:116-135 | the checks in the window's order read what ParseResponse specifies |
| Grid.FirstIndex | MainWindow.xaml.cs:52 | the index found holds the name and no earlier row does; none means no row has it |
| Grid.UpsertOne | MainWindow.xaml.cs:50-63 | one item appended, or assigned to the first row of its name; UpsertOneFacts states the grid it leaves, and UpsertOneRefreshIff and NullValueRefreshes state exactly when it asks for a refresh |
| Grid.UpsertAll | MainWindow.xaml.cs:49-68 | the batch item by item, refreshing exactly when some item was appended or assigned; UpsertAllKeepsRows, LastValueWins, UpsertAllNames, UpsertAllGrowth, UnchangedWithoutRefresh, UpsertAllRefreshIff and AllShownNoRefresh state it |
| Grid.UpsertOneFacts | MainWindow.xaml.cs:52-62 | one item keeps every row's name and position, changes only rows of its name, grows the grid exactly when its name is new (appending the item), leaves its value in the first row of its name, and changes nothing when no refresh is asked |
| Grid.NullValueRefreshes | MainWindow.xaml.cs:58-62 | a row with a null value always asks for the refresh, even when a null value assigned to it leaves the grid as it was |
| Grid.UpsertOneRefreshIff | MainWindow.xaml.cs:52-62 | one item asks for a refresh exactly when its name is new, its first row holds null, or that row's value differs; when that row already holds the item's non-null value the grid is left as it was |
| Grid.UpsertAllRefreshIff | MainWindow.xaml.cs:49-68 | a batch asks for a refresh exactly when some item, in turn, is not already shown by the grid the earlier items left |
| Grid.AllShownNoRefresh | MainWindow.xaml.cs:49-68 | a batch whose every item the grid already shows with the same non-null value asks for no refresh and leaves the grid as it was |
| Grid.UpsertAllKeepsRows | MainWindow.xaml.cs:50-63 | a batch removes and reorders nothing, keeps every name, and leaves rows whose names were not received as they were |
| Grid.LastValueWins | MainWindow.xaml.cs:50-63 | after a batch the first row of each received name holds the value of the last item with that name |
| Grid.UpsertAllNames | MainWindow.xaml.cs:50-57 | the names after a batch are the old ones and the received ones |
| Grid.UpsertAllGrowth | MainWindow.xaml.cs:50-57 | the grid grows by the number of distinct received names it did not have |
| Grid.UnchangedWithoutRefresh | MainWindow.xaml.cs:49-68 | a batch that asks for no refresh has left the grid as it was |
| Grid.GridView.constructor | MainWindow.xaml.cs:32 | the item source starts empty |
| Grid.GridView.FindFirst | MainWindow.xaml.cs:52 | the search finds the first row with the name |
| Grid.GridView.OnGridData | MainWindow.xaml.cs:47-68 | the loop leaves the grid and the refresh decision that UpsertAll specifies, so it refreshes exactly when UpsertAllRefreshIff says |
| Configuration.ReplaceAll | Configuration/ConfigurationFile.cs:30 | ordinal `String.Replace`; NoOccurrenceUnchanged, FirstHomeReplaced and ReplaceByItself state it |
| Configuration.GetFullDatabasePath | Configuration/ConfigurationFile.cs:28-31 | every `~\` replaced by the working directory and `\`; PathWithoutHomeUnchanged, DefaultPathExpands and HomeThenName state it |
| Configuration.NoOccurrenceUnchanged | Configuration/ConfigurationFile.cs:30 | a text without the pattern is returned unchanged |
| Configuration.FirstHomeReplaced | Configuration/ConfigurationFile.cs:30 | the first `~\` is replaced and the scan resumes after it, never rescanning the inserted text |
| Configuration.PathWithoutHomeUnchanged | Configuration/ConfigurationFile.cs:28-31 | a path without `~\`, even with a lone `~`, is returned unchanged |
| Configuration.DefaultPathExpands | Configuration/ConfigurationFile.cs:23-30 | the defaults are 172.16.4.1, 8958, 10000, and the default path expands to cwd + `\database.db` |
| Configuration.HomeThenName | Configuration/ConfigurationFile.cs:30 | `~\` followed by a name without `~` expands to the name in the working directory |
| Configuration.ReplaceByItself | Configuration/ConfigurationFile.cs:30 | replacing `~\` by itself changes nothing, even where inserted text could form new occurrences |

## Left out
- Sockets, `Task` completion, `BackgroundWorker`, `Thread.Sleep`, `ReportProgress` and the event delegates are inputs of a pass or events in a log. Concurrency and `volatile` are not modelled: the UI methods run between passes.
- The clock is one reading per pass, so every `Utils.Now()` call within a pass sees the same value. In the current handler these calls are at UDP/UDPSocketHandler.cs:104, 177, 192, 289 and 304. In the earlier handler they are at UDPSocketHandler.cs:128, 205, 220, 300 and 315. In the finder they are at FindDevicesWindow.xaml.cs:106 and 145.
- `IPAddress.TryParse` and `int.TryParse` are inputs: an "IP parses" flag and an optional parsed port.
- Exceptions from socket calls are a fault input. The logging in the catch blocks (`LoggerTXT`, `Debug.Write`) is left out.
- The handler's DisconnectClient has a catch for an exception from `Close`. Closing is modelled as never throwing.
- Floating point: the value of a Real is its raw bytes. `ReadSingleLittleEndian`/`ReadDoubleLittleEndian` and the number formatting of `FormatBytes` are not modelled.
- TypeConverter.ConvertFromString: the Bool, UInt, Int and Real cases call the culture-sensitive `bool.Parse`, `ulong.Parse`, `long.Parse` and `double.Parse`, which are not modelled. They are the `LibraryParse` result.
- A record's value is converted by identifier only. The persistence round trip of numeric values through text, like its SQLite storage, is not modelled.
- The database handlers (`SQLiteHandler.cs`, `SQLite/`), the logger, `ConfigurationFile.Save`/`Load` (JSON file I/O) and the configuration and purge windows are not part of this model.
- UI only: the grid clearing and `Items.Refresh()` of the finder, the brushes and buttons of the main window, and the grid binding are left out. In the main window the refresh is the returned `anyChanged`.
- The grid rows are values updated by index. The source appends the received object itself, so later assignments alias it; that sharing is not modelled.
- The main window's handler events name members that the shown handlers do not have. Only its upsert loop is modelled, on rows of a name and a value compared by equality.
- The handlers' worker is never cancelled (see the list above), so a run is any finite prefix of its passes. The finder's cancellation is the `cancel` input of a pass.
- TypeHierarchy.UdpType.Convert: the model keeps values, not boxed CLR types. The earlier overrides box the width's own type: `byte`/`ushort`/`uint`/`ulong` (UDPType.cs:53-56), `sbyte`/`short`/`int`/`long` (68-71) and `float`/`double` (83-84). The newer codec boxes `ulong`, `long` and `double`. `object.Equals` would tell the two kinds of box apart, and it would tell apart one number received at two widths. Neither handler calls the hierarchy: both call `UDPTypeConverter.Convert` (UDP/UDPSocketHandler.cs:339; UDPSocketHandler.cs:347). So the grid sees only the newer codec's boxes.
- The received buffer is a value sequence. The span slicing of `ParseData` is modelled by reading the record at the cursor from `buffer[offset..]`.

## Findings

| source | as written | input that shows it | evidently intended | confidence | as-written member | corrected member |
|---|---|---|---|---|---|---|
| Configuration/FindDevicesWindow.xaml.cs:111-155 | `CloseSocket` nulls `udpClient` but not `udpReceiveTask`. After a name-overrun exception the completed task stays. Every later refresh opens a new socket, and `??=` keeps the stale task: the same datagram is read again, throws, and closes the socket. The window never reports a device again. | a device answer `02 ED AD 0F 42 05 00 03` (name length 5 in an 8-byte datagram), then any number of refreshes | `CloseSocket` also forgets the receive task, so a new socket starts a fresh receive | not executed | Discovery.StaleResponseBlocksDiscovery | Discovery.CorrectedRefreshRecovers |
