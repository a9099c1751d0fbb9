# robot — verified model of the coordinator/robot messaging core

This project models the parts of the `robot` system that carry messages between
the PC coordinator and its ESP32 robots. It has four parts:

- **The fixed-layout UDP protocol** (`common/Messages.hpp`). It has six messages,
  each starting with a big-endian type id from 1000 to 1005. Each has an encoder
  and a decoder; a decoder returns none when the datagram is too short.
- **The coordinator's UDP receive step** (`robotpc/UDPServer.hpp`). It keeps a
  registry from robot uid to robot, discovers robots by their heartbeats,
  registers them on WhoAmI, and pushes their LED colours from the static table
  in `robotpc/Mappings.hpp`.
- **The older length-prefixed TCP stream**, in four files:
  - the encoders in `common/messages.hpp`;
  - the robot firmware's frame builders and idle heartbeat in
    `robotmc/main/include/RobotSocketClient.hpp`;
  - the PC's per-connection receive and transmit byte buffers in
    `robotpc/socket_client.hpp`;
  - the PC's frame parsers, which consume exactly one frame, in `robotpc/robot.hpp`.
- **The bounded history buffer** (`robotpc/circular_buffer.hpp`).

Bytes are `uint8` (0..255). The wire's big-endian 32-bit fields go through
`Bytes.Uint32ToBE`/`Bytes.BEToUint32`. Signed fields use explicit two's-complement
conversions. Effects that the code performs through sockets or the clock are
modelled as follows:

- A UDP `s.write` appends to an outbox.
- A TCP `recv`/`send` call takes its result from a script. When the script runs
  out, the call reports "would block".
- The firmware's `writeNbytes`/`readNbytes` outcome is a parameter, and so is
  the clock.

Modules: `Wrappers`, `Bytes`, `CStrings`, `Messages`, `Mappings`, `Coordinator`,
`LegacyMessages`, `TcpClient`, `TcpRobot`, `RobotFirmware`, `History`.

## Model

| member | source | states |
|---|---|---|
| Bytes.BEUint32RoundTrip | common/Messages.hpp:29-45 | reading the four `htonl` bytes of `x` back with `ntohl` gives `x`, wherever they sit |
| Bytes.BEUint32Canonical | common/Messages.hpp:193-202 | any four bytes are the encoding of the value `ntohl` reads from them |
| Bytes.BEInt32RoundTrip | common/Messages.hpp:95-121 | the same round trip for signed 32-bit values in two's complement |
| Bytes.BEUint32Injective | common/Messages.hpp:29-37 | different 32-bit values have different big-endian encodings |
| Bytes.BEUint32Local | robotpc/UDPServer.hpp:65-67 | the value read at an offset depends only on the four bytes there |
| Bytes.Int8RoundTrip | common/Messages.hpp:34-44 | the `(uint8_t)` and `(int8_t)` casts of rssi are mutually inverse |
| Bytes.Int32RoundTrip | common/Messages.hpp:99-104 | the two's-complement bit pattern of an int32 and its signed reading are inverse |
| CStrings.StrLen | common/Messages.hpp:82 | `strlen` is the index of the first NUL (or the whole length if there is none), and every byte before it is nonzero |
| CStrings.StrLenPrefix | common/Messages.hpp:82-83 | scanning a prefix stops at the same NUL unless the prefix cuts the scan off |
| Messages.NewTextMessage | common/Messages.hpp:80-85 | keeps at most 31 characters of the input, up to its first NUL; zero-fills the rest; byte 31 is always 0; rssi and uid are kept |
| Messages.HeartbeatToBytes | common/Messages.hpp:29-37 | 6 bytes: big-endian 1000, then the rssi byte, then the uid |
| Messages.TextMessageToBytes | common/Messages.hpp:60-70 | 38 bytes: big-endian 1001, the 32-byte text at 4..35, rssi at 36, uid at 37 |
| Messages.ControlDataToBytes | common/Messages.hpp:95-107 | 12 bytes: big-endian 1002, then `vr` at 4..7 and `vl` at 8..11, big-endian two's complement |
| Messages.WhoAmIToBytes | common/Messages.hpp:134-144 | 5 bytes: big-endian 1003, then the uid |
| Messages.LEDDataToBytes | common/Messages.hpp:176-191 | 12 bytes: big-endian 1004, big-endian `gpio_num` at 4..7, then r, g, b and the colour order |
| Messages.RequestWhoAmIToBytes | common/Messages.hpp:214-221 | 4 bytes: big-endian 1005 |
| Messages.HeartbeatFromBuffer | common/Messages.hpp:39-45 | none exactly when the buffer has fewer than 6 bytes; otherwise re-encoding gives back the payload bytes 4..5 |
| Messages.TextMessageFromBuffer | common/Messages.hpp:72-78 | none exactly when the buffer has fewer than 38 bytes; otherwise the text is the C string in bytes 4..34 (at most 31 characters), padded, with rssi from byte 36 and uid from byte 37 |
| Messages.ControlDataFromBuffer | common/Messages.hpp:109-121 | none exactly when the buffer has fewer than 12 bytes; otherwise re-encoding gives back bytes 4..11 |
| Messages.WhoAmIFromBuffer | common/Messages.hpp:146-152 | none exactly when the buffer has fewer than 5 bytes; otherwise re-encoding gives back byte 4 |
| Messages.LEDDataFromBuffer | common/Messages.hpp:193-202 | none exactly when the buffer has fewer than 12 bytes; otherwise re-encoding gives back bytes 4..11 |
| Messages.RequestWhoAmIFromBuffer | common/Messages.hpp:223-229 | succeeds on any buffer that holds at least the 4-byte tag |
| Messages.RoundTrip | common/Messages.hpp:29-229 | `fromBuffer(toBytes(m))` is `m` for Heartbeat, ControlData (full int32 `vr`/`vl`), WhoAmI, LEDData (full uint32 `gpio_num`) and RequestWhoAmI, whatever bytes follow |
| Messages.TextMessageRoundTrip | common/Messages.hpp:60-85 | a text message as the constructor leaves it survives `toBytes` then `fromBuffer`: text, rssi and uid, whatever bytes follow |
| Messages.NewTextMessageRoundTrip | common/Messages.hpp:60-85 | constructing, encoding and decoding keeps the truncated C string, rssi and uid |
| Messages.DecodeReadsOnlyPayload | common/Messages.hpp:39-202 | the model's decoders never look at the tag bytes 0..3 or at bytes past the message size (the text decoder as written does, see Findings) |
| Messages.TextMessageFromBufferAsWritten | common/Messages.hpp:72-85 | the decoder as written, where it is defined: none exactly when the buffer has fewer than 38 bytes |
| Messages.TextMessageStrlenOverread | common/Messages.hpp:72-83 | a full-size datagram with no NUL after byte 4 passes the size check but makes `strlen` run past the span |
| Messages.TextMessageFromBufferAgrees | common/Messages.hpp:72-85 | wherever the written decoder is defined, the bounded decoder returns the same message |
| Mappings.TableIsValid | robotpc/Mappings.hpp:38-40 | every entry of the colour table is marked valid |
| Mappings.GetColors | robotpc/Mappings.hpp:44-54 | valid exactly for uids in the table, and then it is the table entry; otherwise both LED frames are black |
| Mappings.GetAllUIDs | robotpc/Mappings.hpp:56-64 | exactly the table's keys, in strictly ascending (map) order, each with valid colours |
| Coordinator.Smooth | robotpc/UDPServer.hpp:158-159 | the exponential smoothing `pos*λ + (1-λ)*old`: weight 1 takes the new position, and a repeated position is a fixed point |
| Coordinator.NewUDPRobot | robotpc/UDPServer.hpp:114 | a new robot is bound to the sender's address and its uid, with both positions at the origin |
| Coordinator.UDPServer.constructor | robotpc/UDPServer.hpp:32-36 | the server starts with an empty registry that satisfies the registry invariant, and nothing sent |
| Coordinator.UDPServer.Write | robotpc/UDPServer.hpp:84 | a write appends exactly one datagram, with its destination and bytes, to the outbox |
| Coordinator.Dispatch | robotpc/UDPServer.hpp:58-119 | the receive-loop body on one received span: registered uids are never dropped, and it sends at most two datagrams, all to the sender |
| Coordinator.UDPServer.HandleDatagram | robotpc/UDPServer.hpp:58-119 | one receive-loop iteration: the registry and the outbox change exactly as `Dispatch` says for the received bytes, and the registry invariant is kept |
| Coordinator.UDPServer.GetRobotFromUID | robotpc/UDPServer.hpp:126-137 | some exactly when the uid is registered, and then it is the registered robot |
| Coordinator.UDPServer.InformRobot | robotpc/UDPServer.hpp:139-149 | an unknown uid fails without sending; a known one gets the 12-byte ControlData at its bound address, and the result is whether the write reported OK |
| Coordinator.UDPServer.UpdateKinematics | robotpc/UDPServer.hpp:151-161 | fails exactly for unknown uids, changing nothing; otherwise only that robot's two positions are smoothed with weight 0.8 |
| Coordinator.ShortDatagramDropped | robotpc/UDPServer.hpp:59-63 | a datagram under 4 bytes changes nothing and sends nothing |
| Coordinator.UnknownTagIgnored | robotpc/UDPServer.hpp:116-119 | a tag other than Heartbeat, TextMessage or WhoAmI has no effect |
| Coordinator.TruncatedMessageDropped | robotpc/UDPServer.hpp:73-75 | a known tag on a datagram shorter than its message has no effect |
| Coordinator.TextMessageHasNoEffect | robotpc/UDPServer.hpp:87-95 | a TextMessage never changes the registry and never sends |
| Coordinator.HeartbeatDiscovery | robotpc/UDPServer.hpp:71-86 | a heartbeat never changes the registry; it gets one 4-byte RequestWhoAmI to its sender exactly when its uid is nonzero and unregistered |
| Coordinator.WhoAmIRejected | robotpc/UDPServer.hpp:101-107 | a WhoAmI with uid 0, or with a uid without valid colours, has no effect |
| Coordinator.WhoAmIRegisters | robotpc/UDPServer.hpp:109-114 | a valid WhoAmI sends the centre then the front LEDData to its sender; it registers the uid only if absent, keeping an existing entry and its address |
| Coordinator.DispatchKeepsEntries | robotpc/UDPServer.hpp:112-114 | the registry only grows; existing entries never change; a new entry is bound to the sender of the WhoAmI that carried its uid |
| Coordinator.DispatchPreservesValid | robotpc/UDPServer.hpp:101-114 | only nonzero uids with valid colours are ever registered, each under its own uid |
| Coordinator.RepliesAreWellFormed | robotpc/UDPServer.hpp:84-110 | every reply goes to the sender and is a 4-byte RequestWhoAmI or a 12-byte LEDData |
| LegacyMessages.NewTextMessage | common/messages.hpp:63-65 | the message keeps the C string's text, and `text_len` is its `strlen` |
| LegacyMessages.HeartbeatSize | common/messages.hpp:18-21 | the 4-byte id plus the rssi byte |
| LegacyMessages.TextMessageSize | common/messages.hpp:45-48 | the id and `text_len` fields, `strlen` of the text, and the rssi byte |
| LegacyMessages.DataSize | common/messages.hpp:74-77 | the id plus the two int32 speeds |
| LegacyMessages.WhoAmISize | common/messages.hpp:105-108 | the id plus the int32 uid |
| LegacyMessages.HeartbeatToBytes | common/messages.hpp:18-31 | `size()` 5: big-endian 1000, then rssi |
| LegacyMessages.TextMessageToBytes | common/messages.hpp:45-61 | `size()` `8 + text_len + 1`: big-endian 1001, big-endian `text_len`, the text, then rssi |
| LegacyMessages.DataToBytes | common/messages.hpp:74-89 | `size()` 12: big-endian 1002, `vr`, `vl` |
| LegacyMessages.WhoAmIToBytes | common/messages.hpp:105-119 | `size()` 8: big-endian 1003, then the big-endian uid |
| LegacyMessages.EncodersInjective | common/messages.hpp:50-119 | different Data, WhoAmI or TextMessage values give different frames |
| TcpClient.ReadAppendsChunks | robotpc/socket_client.hpp:69-76 | reading appends exactly the received chunks, in arrival order |
| TcpClient.Send | robotpc/socket_client.hpp:110-128 | sending never removes more than the buffer holds, and an empty buffer sends nothing |
| TcpClient.SendAllAccepted | robotpc/socket_client.hpp:110-128 | when every send accepts a full batch, the whole buffer leaves and nothing closes |
| TcpClient.SendStep | robotpc/socket_client.hpp:112-118 | one accepted send removes between 1 byte and the whole buffer from its front |
| TcpClient.SocketClient.constructor | robotpc/socket_client.hpp:44-51 | a new client is alive on its socket, with both buffers empty |
| TcpClient.SocketClient.IsAlive | robotpc/socket_client.hpp:202-205 | the alive flag, which only `close` clears |
| TcpClient.SocketClient.RxBufferLength | robotpc/socket_client.hpp:132-135 | the number of buffered received bytes |
| TcpClient.SocketClient.TxBufferLength | robotpc/socket_client.hpp:137-140 | the number of bytes still waiting to be sent |
| TcpClient.SocketClient.Close | robotpc/socket_client.hpp:188-200 | afterwards the client is dead and the socket invalid; an open socket is closed once, so a second close closes nothing |
| TcpClient.SocketClient.ReadAvailableData | robotpc/socket_client.hpp:63-94 | appends every received chunk in order and returns the total; a 0-byte read or an error other than would-block closes the client; otherwise its state is kept |
| TcpClient.SocketClient.InsertTxData | robotpc/socket_client.hpp:96-100 | appends the bytes to the end of the transmit buffer and changes nothing else |
| TcpClient.SocketClient.SendAllPendingData | robotpc/socket_client.hpp:102-130 | returns 0 on an empty buffer; no byte is lost or duplicated (wire plus buffer is unchanged, and the count is what moved); stops at the first failure and closes on a fatal one |
| TcpClient.SocketClient.PeekByte | robotpc/socket_client.hpp:142-151 | none exactly when fewer than `off + 1` bytes are buffered; otherwise the byte at `off` as `int8_t` |
| TcpClient.SocketClient.PeekInt32 | robotpc/socket_client.hpp:153-164 | none exactly when fewer than `off + 4` bytes are buffered; otherwise the big-endian int32 of bytes `off..off+3` |
| TcpClient.SocketClient.PeekString | robotpc/socket_client.hpp:166-175 | none exactly when fewer than `off + len` bytes are buffered; otherwise exactly bytes `[off, off+len)` |
| TcpClient.SocketClient.RemoveRxBytes | robotpc/socket_client.hpp:177-181 | drops the first `n` bytes and keeps the rest in order |
| TcpRobot.ParseHeartbeat | robotpc/robot.hpp:82-90 | succeeds exactly when 5 bytes are buffered; rssi is the byte at offset 4, and 5 bytes are consumed |
| TcpRobot.ParseWhoAmI | robotpc/robot.hpp:108-116 | succeeds exactly when 8 bytes are buffered; the uid is the big-endian int32 at offset 4, and 8 bytes are consumed |
| TcpRobot.ParseTextMessage | robotpc/robot.hpp:92-106 | succeeds exactly when the length `L` at offset 4 is in range and `8+L+1` bytes are buffered; the text is the C string in bytes `8..8+L`, rssi is at `8+L`, and `8+L+1` bytes are consumed |
| TcpRobot.Robot.constructor | robotpc/robot.hpp:28-36 | a new robot has uid 0 and a fresh client with empty buffers |
| TcpRobot.Robot.GetUid | robotpc/robot.hpp:38-41 | the uid last set, 0 until a WhoAmI arrives |
| TcpRobot.Robot.IsAlive | robotpc/robot.hpp:128-131 | the client's alive flag |
| TcpRobot.Robot.SetUid | robotpc/robot.hpp:43-46 | sets the uid |
| TcpRobot.Robot.PeekMsgId | robotpc/robot.hpp:123-126 | the big-endian int32 at offset 0, or none under 4 bytes; nothing is consumed |
| TcpRobot.Robot.GetHeartbeat | robotpc/robot.hpp:82-90 | returns and consumes what `ParseHeartbeat` says; when the frame is incomplete, the buffer is unchanged |
| TcpRobot.Robot.GetTextMessage | robotpc/robot.hpp:92-106 | returns and consumes what `ParseTextMessage` says; when the frame is incomplete, the buffer is unchanged |
| TcpRobot.Robot.GetWhoAmI | robotpc/robot.hpp:108-116 | returns and consumes what `ParseWhoAmI` says, and sets the uid only on success |
| TcpRobot.Robot.ReadAllAvailableData | robotpc/robot.hpp:118-121 | the client's receive buffer gains exactly the received bytes; the robot stays alive only if nothing closed the connection, a close closes the open socket once, and otherwise the socket is kept |
| TcpRobot.Robot.SendData | robotpc/robot.hpp:78-79 | queues the 12-byte Data frame after what was pending and flushes; no byte is lost or duplicated; a fatal send closes the client and its open socket once, and otherwise the alive flag and socket are kept |
| TcpRobot.HeartbeatFrameRoundTrip | robotpc/robot.hpp:82-90 | a Heartbeat frame followed by anything has tag 1000, parses back to the message, and leaves the rest |
| TcpRobot.WhoAmIFrameRoundTrip | robotpc/robot.hpp:108-116 | a WhoAmI frame followed by anything has tag 1003, parses back to the message, and leaves the rest |
| TcpRobot.TextMessageFrameRoundTrip | robotpc/robot.hpp:92-106 | a NUL-free TextMessage frame followed by anything has tag 1001, parses back to the message, and leaves the rest |
| TcpRobot.TwoFramesInSequence | robotpc/robot.hpp:82-116 | back-to-back frames are parsed one after the other, leaving what follows |
| TcpRobot.ParseTextMessageAsWritten | robotpc/robot.hpp:92-106 | the offsets the written parser computes: it consumes one byte past the rssi index, and never more than is buffered |
| TcpRobot.NegativeTextLength | robotpc/robot.hpp:94-104 | length -9 in an 8-byte buffer passes every size check, so the written code asks for the reversed text range `[8, -1)` (undefined behaviour, in practice an uncaught exception); the rssi offset -1 and the 0-byte consume it computes are never reached; the checked parser refuses the buffer |
| TcpRobot.ParseTextMessageAgrees | robotpc/robot.hpp:92-106 | for lengths the encoder can produce, the checked and the written parser accept the same buffers and consume the same number of bytes (at least 9) |
| RobotFirmware.HeartbeatFrame | robotmc/main/include/RobotSocketClient.hpp:53-63 | 5 bytes: big-endian 1000, then rssi |
| RobotFirmware.WhoAmIFrame | robotmc/main/include/RobotSocketClient.hpp:65-76 | 8 bytes: big-endian 1003, then the big-endian uid |
| RobotFirmware.TextMessageFrame | robotmc/main/include/RobotSocketClient.hpp:36-51 | `8 + len + 1` bytes: big-endian 1001, big-endian `strlen`, the text, then rssi |
| RobotFirmware.FramesMatchLegacyEncoders | robotmc/main/include/RobotSocketClient.hpp:36-76 | the firmware's three frames are byte for byte what the coordinator's `to_bytes` produce |
| RobotFirmware.RobotSocketClient.IdleTime | robotmc/main/include/SocketClient.hpp:257-260 | time since the last completed write: it reaches the one-second heartbeat threshold exactly when `now` is a second or more past `last_tx`, and is 0 at the moment of a write |
| RobotFirmware.RobotSocketClient.constructor | robotmc/main/include/SocketClient.hpp:46-49 | nothing is written yet and `last_tx` is 0 |
| RobotFirmware.RobotSocketClient.Write | robotmc/main/include/SocketClient.hpp:191-240 | true exactly when the write reports OK; only a completed write records its frame and sets `last_tx` |
| RobotFirmware.RobotSocketClient.SendHeartbeat | robotmc/main/include/RobotSocketClient.hpp:53-63 | writes the heartbeat frame; true exactly when the write reported OK |
| RobotFirmware.RobotSocketClient.SendWhoAmI | robotmc/main/include/RobotSocketClient.hpp:65-76 | writes the WhoAmI frame; true exactly when the write reported OK |
| RobotFirmware.RobotSocketClient.SendTextMessage | robotmc/main/include/RobotSocketClient.hpp:36-51 | writes the text frame; true exactly when the write reported OK |
| RobotFirmware.RobotSocketClient.SendHeartbeatIfMust | robotmc/main/include/RobotSocketClient.hpp:78-85 | under 1,000,000 µs idle: false, nothing written; otherwise exactly `sendHeartbeat` |
| RobotFirmware.RobotSocketClient.ReadData | robotmc/main/include/RobotSocketClient.hpp:18-34 | a failed read returns `noDataC` (not valid); a successful one is valid and carries bytes 4..7 and 8..11 |
| History.Inserted | robotpc/circular_buffer.hpp:14-21 | the front is the new element; the size is `n` if it was at least `n`, else one more; the rest is the old contents in order with only the back dropped |
| History.CircularBuffer.constructor | robotpc/circular_buffer.hpp:11-13 | exactly `n` default elements |
| History.CircularBuffer.Insert | robotpc/circular_buffer.hpp:14-21 | the pop-back loop then push-front leaves exactly `Inserted(old contents, n, x)`; needs `n >= 1` |
| History.InsertAllKeepsSize | robotpc/circular_buffer.hpp:11-21 | from a full buffer, the size stays exactly `n` over any sequence of inserts |
| History.InsertAllKeepsNewest | robotpc/circular_buffer.hpp:11-21 | from a full buffer, the contents are the newest `n` inserted elements, newest first, followed by the initial ones |

## Left out

- Floating point: the control law (`UDPRobot::calcControlData`, `robotpc/control_law.hpp`), the orientation `theta` and `update_theta`, and the reinterpretation of the received bytes as floats in `readData`. ControlData and Data carry the control law's output as an opaque pair of int32, supplied as a parameter.
- Coordinator.Smooth: pose smoothing is computed over exact reals instead of 32-bit floats, and `cv::Vec3f` becomes a real triple.
- Threads, mutexes, the `running` flag and `stop` of the UDP server, and `robotpc/server.hpp`'s poll loop. The model is one datagram, or one call, at a time.
- The sockets themselves: `common/UDPSocket.hpp`, the TCP `recv`/`send`/`closesocket` calls, and the ESP32 `SocketClient`. They appear only as the outbox, the scripted results, the log of closed handles and the reported status.
- TcpClient.SocketClient.SendAllPendingData: a `send` is taken to accept at most the bytes it was offered. The script's count is capped at that, as the operating system guarantees.
- TcpClient.SocketClient.ReadAvailableData: a `recv` is taken to return at most `batch` bytes, as the operating system guarantees for a `batch`-sized buffer.
- RobotFirmware.RobotSocketClient.Write: when `writeNbytes` fails part way, the bytes already sent are not recorded. Only completed frames are.
- `shared_ptr` aliasing of `UDPRobot` entries: registry entries are values, so `UpdateKinematics` writes the updated entry back.
- The TCP text length is bounded by `MAX_TEXT_LEN` (2^31 - 10), so that `8 + text_len + 1` fits an int32. `sendTextMessage` and the legacy `TextMessage` require a C string at most that long.
- The colour table in `robotpc/Mappings.hpp` builds `LEDData` with four values for a five-field constructor. The model reads the missing colour order as `RGB` (0). The fallback `RobotLEDColors(LEDData(...), LEDData(...), false)` is read as two black frames with `valid == false`.
- The HSV bands of the colour table are kept as data only; the camera code that uses them (`robotpc/Locator.hpp`, `robotpc/locator.hpp`) is not part of this model.
- Logging to `cout` is left out.

## Findings

| source | as written | input that shows it | evidently intended | confidence | as-written member | corrected member |
|---|---|---|---|---|---|---|
| common/Messages.hpp:72-83 | `fromBuffer` passes `buffer.data() + 4` to the constructor, whose `strlen` scans until it meets a NUL, past the datagram if need be | 38 bytes of `0x41`: the size check passes and no byte from offset 4 on is NUL | read the text from the 32-byte field only (at most 31 characters, since byte 35 is the NUL slot) | not executed | Messages.TextMessageFromBufferAsWritten, Messages.TextMessageStrlenOverread | Messages.TextMessageFromBuffer |
| robotpc/robot.hpp:92-106 | the int32 text length `L` is used unchecked in `peek_string(L, 8)`, `peek_byte(8 + L)` and `remove_rx_bytes(8 + L + 1)` | the 8 bytes `00 00 03 E9 FF FF FF F7` (tag 1001, `L` = -9): the size checks pass, and the code then asks for the text range `[8, -1)`, which is reversed and starts after it ends: building the string from it is undefined behaviour (in practice an uncaught exception that ends the coordinator). The rssi offset -1 and the 0 bytes to consume are what the code computes; it never reaches them | accept only `0 <= L <= 2^31 - 10`, the lengths `to_bytes` can produce | not executed | TcpRobot.ParseTextMessageAsWritten, TcpRobot.NegativeTextLength | TcpRobot.ParseTextMessage, TcpRobot.Robot.GetTextMessage |
