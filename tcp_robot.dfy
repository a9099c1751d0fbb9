/**
 * The coordinator's view of one TCP-connected robot (robotpc/robot.hpp): frame
 * parsers that peek a whole frame in the client's receive buffer and then
 * consume exactly that frame, and the uid a WhoAmI frame sets.
 *
 * Each parser is specified by a function on the receive buffer that says
 * which message it yields and how many bytes it consumes.
 */
module TcpRobot {
  import opened Bytes
  import opened Wrappers
  import opened CStrings
  import opened LegacyMessages
  import opened TcpClient

  /** A message parsed from the front of the buffer and the length of its frame. */
  datatype Parsed<T> = Parsed(value: T, consumed: nat)

  function ParseHeartbeat(rx: seq<uint8>): (r: Option<Parsed<Heartbeat>>)
    ensures r.None? <==> |rx| < 5
    ensures r.Some? ==> r.value.consumed == 5 && Int8ToUint8(r.value.value.rssi) == rx[4]
  {
    if |rx| < 5 then None
    else Some(Parsed(Heartbeat(Uint8ToInt8(rx[4])), 5))
  }

  function ParseWhoAmI(rx: seq<uint8>): (r: Option<Parsed<WhoAmI>>)
    ensures r.None? <==> |rx| < 8
    ensures r.Some? ==> r.value.consumed == 8 && Int32ToBE(r.value.value.uid) == rx[4..8]
  {
    if |rx| < 8 then None
    else
      BEUint32Canonical(rx, 4);
      Some(Parsed(WhoAmI(BEToInt32(rx, 4)), 8))
  }

  /**
   * A text frame: big-endian length `L` at offset 4, `L` text bytes, one rssi
   * byte.  The message keeps the text up to its first NUL, as building it
   * from `c_str()` does.  A length outside `0..MAX_TEXT_LEN` is refused.
   */
  function ParseTextMessage(rx: seq<uint8>): (r: Option<Parsed<TextMessage>>)
    ensures r.None? <==>
      |rx| < 8 || BEToInt32(rx, 4) < 0 || BEToInt32(rx, 4) > MAX_TEXT_LEN || |rx| < 9 + BEToInt32(rx, 4)
    ensures r.Some? ==>
      var len := BEToInt32(rx, 4);
      r.value.consumed == 9 + len <= |rx| &&
      r.value.value.msg == CString(rx[8..8 + len]) &&
      Int8ToUint8(r.value.value.rssi) == rx[8 + len]
  {
    if |rx| < 8 then None
    else
      var len := BEToInt32(rx, 4);
      if len < 0 || len > MAX_TEXT_LEN || |rx| < 9 + len then None
      else Some(Parsed(NewTextMessage(rx[8..8 + len], Uint8ToInt8(rx[8 + len])), 9 + len))
  }

  /** The buffer after a parse: the frame is gone, or nothing changed. */
  function Rest<T>(rx: seq<uint8>, p: Option<Parsed<T>>): seq<uint8>
    requires p.Some? ==> p.value.consumed <= |rx|
  {
    if p.Some? then rx[p.value.consumed..] else rx
  }

  function Value<T>(p: Option<Parsed<T>>): Option<T>
  {
    if p.Some? then Some(p.value.value) else None
  }

  class Robot {
    const client: SocketClient
    var uid: int32

    constructor (socket: Socket)
      ensures fresh(client) && uid == 0
      ensures client.socket == socket && client.alive
      ensures client.rxBuffer == [] && client.txBuffer == [] && client.wire == [] && client.closedSockets == []
    {
      client := new SocketClient(socket);
      uid := 0;
    }

    function GetUid(): (r: int32)
      reads this
      ensures r == uid
    {
      uid
    }

    method SetUid(uid: int32)
      modifies this`uid
      ensures this.uid == uid
    {
      this.uid := uid;
    }

    /** `peek_msg_id`: the type id at the front of the buffer; nothing is consumed. */
    function PeekMsgId(): (r: Option<int32>)
      reads this, client
      ensures r.None? <==> |client.rxBuffer| < 4
      ensures r.Some? ==> Int32ToBE(r.value) == client.rxBuffer[..4]
    {
      client.PeekInt32(0)
    }

    /** `get_heartbeat`: rssi is the byte at offset 4; the 5-byte frame is consumed. */
    method GetHeartbeat() returns (r: Option<Heartbeat>)
      modifies client`rxBuffer
      ensures r == Value(ParseHeartbeat(old(client.rxBuffer)))
      ensures client.rxBuffer == Rest(old(client.rxBuffer), ParseHeartbeat(old(client.rxBuffer)))
    {
      var rssi := client.PeekByte(4);
      if rssi.None? {
        return None;
      }
      Int8RoundTrip(rssi.value, client.rxBuffer[4]);
      client.RemoveRxBytes(5);
      return Some(Heartbeat(rssi.value));
    }

    /** `get_text_message`: the whole frame must be buffered before any of it is consumed. */
    method GetTextMessage() returns (r: Option<TextMessage>)
      modifies client`rxBuffer
      ensures r == Value(ParseTextMessage(old(client.rxBuffer)))
      ensures client.rxBuffer == Rest(old(client.rxBuffer), ParseTextMessage(old(client.rxBuffer)))
    {
      var msgLength := client.PeekInt32(4);
      if msgLength.None? {
        return None;
      }
      var len := msgLength.value;
      if len < 0 || len > MAX_TEXT_LEN {
        return None;
      }
      var msg := client.PeekString(len, 8);
      if msg.None? {
        return None;
      }
      var rssi := client.PeekByte(8 + len);
      if rssi.None? {
        return None;
      }
      assert msg.value == client.rxBuffer[8..8 + len];
      Int8RoundTrip(rssi.value, client.rxBuffer[8 + len]);
      client.RemoveRxBytes(8 + len + 1);
      return Some(NewTextMessage(msg.value, rssi.value));
    }

    /** `get_who_am_i`: the uid at offset 4 becomes this robot's uid; 8 bytes are consumed. */
    method GetWhoAmI() returns (r: Option<WhoAmI>)
      modifies this`uid, client`rxBuffer
      ensures r == Value(ParseWhoAmI(old(client.rxBuffer)))
      ensures client.rxBuffer == Rest(old(client.rxBuffer), ParseWhoAmI(old(client.rxBuffer)))
      ensures uid == if r.Some? then r.value.uid else old(uid)
    {
      var peeked := client.PeekInt32(4);
      if peeked.None? {
        return None;
      }
      BEInt32RoundTrip(peeked.value, client.rxBuffer, 4);
      SetUid(peeked.value);
      client.RemoveRxBytes(8);
      return Some(WhoAmI(peeked.value));
    }

    /** `read_all_available_data`: one `read_available_data` with the default batch. */
    method ReadAllAvailableData(recvs: seq<RecvResult>) returns (count: int)
      requires forall i | 0 <= i < |recvs| && recvs[i].Received? :: |recvs[i].bytes| <= BATCH_SIZE
      modifies client`rxBuffer, client`alive, client`socket, client`closedSockets
      ensures client.rxBuffer == old(client.rxBuffer) + Read(recvs).appended
      ensures count == |Read(recvs).appended|
      ensures client.alive == (old(client.alive) && !Read(recvs).closes)
      ensures Read(recvs).closes ==> (client.socket == InvalidSocket &&
        client.closedSockets == old(client.closedSockets) +
          (if old(client.socket).Open? then [old(client.socket).handle] else []))
      ensures !Read(recvs).closes ==>
        client.socket == old(client.socket) && client.closedSockets == old(client.closedSockets)
    {
      count := client.ReadAvailableData(BATCH_SIZE, recvs);
    }

    /**
     * `calc_and_send_data` once the control law has produced `command`: queue
     * its 12-byte frame and flush the transmit buffer.
     */
    method SendData(command: Data, sends: seq<SendResult>) returns (count: int)
      modifies client`txBuffer, client`wire, client`alive, client`socket, client`closedSockets
      ensures var queued := old(client.txBuffer) + DataToBytes(command);
        count == Send(queued, BATCH_SIZE, sends).sent &&
        client.wire + client.txBuffer == old(client.wire) + queued &&
        |client.wire| == |old(client.wire)| + count
      ensures var queued := old(client.txBuffer) + DataToBytes(command);
        Send(queued, BATCH_SIZE, sends).closes ==> (!client.alive && client.socket == InvalidSocket &&
          client.closedSockets == old(client.closedSockets) +
            (if old(client.socket).Open? then [old(client.socket).handle] else []))
      ensures var queued := old(client.txBuffer) + DataToBytes(command);
        !Send(queued, BATCH_SIZE, sends).closes ==> (client.alive == old(client.alive) &&
          client.socket == old(client.socket) && client.closedSockets == old(client.closedSockets))
    {
      var frame := DataToBytes(command);
      client.InsertTxData(frame);
      count := client.SendAllPendingData(BATCH_SIZE, sends);
    }

    /** `is_alive`: the client's flag, which a fatal read or send clears. */
    function IsAlive(): (r: bool)
      reads this, client
      ensures r == client.IsAlive()
    {
      client.alive
    }
  }

  // ------------------------------------------------------------ round trips

  /** A Heartbeat frame, whatever follows it, parses back to the message and leaves the rest. */
  lemma HeartbeatFrameRoundTrip(m: Heartbeat, rest: seq<uint8>)
    ensures var rx := HeartbeatToBytes(m) + rest;
      BEToInt32(rx, 0) == HEARTBEAT_ID &&
      ParseHeartbeat(rx) == Some(Parsed(m, HeartbeatSize(m))) &&
      Rest(rx, ParseHeartbeat(rx)) == rest
  {
    var frame := HeartbeatToBytes(m);
    var rx := frame + rest;
    BEUint32Local(rx, 0, frame, 0);
    Int8RoundTrip(m.rssi, rx[4]);
    assert rx[5..] == rest;
  }

  lemma WhoAmIFrameRoundTrip(m: WhoAmI, rest: seq<uint8>)
    ensures var rx := WhoAmIToBytes(m) + rest;
      BEToInt32(rx, 0) == WHO_AM_I_ID &&
      ParseWhoAmI(rx) == Some(Parsed(m, WhoAmISize(m))) &&
      Rest(rx, ParseWhoAmI(rx)) == rest
  {
    var frame := WhoAmIToBytes(m);
    var rx := frame + rest;
    BEUint32Local(rx, 0, frame, 0);
    BEUint32Local(rx, 4, frame, 4);
    assert rx[8..] == rest;
  }

  /** A text without NUL survives `to_bytes` and `get_text_message` intact. */
  lemma TextMessageFrameRoundTrip(m: TextMessage, rest: seq<uint8>)
    ensures var rx := TextMessageToBytes(m) + rest;
      BEToInt32(rx, 0) == TEXT_MESSAGE_ID &&
      ParseTextMessage(rx) == Some(Parsed(m, TextMessageSize(m))) &&
      Rest(rx, ParseTextMessage(rx)) == rest
  {
    var frame := TextMessageToBytes(m);
    var rx := frame + rest;
    var len := |m.msg|;
    BEUint32Local(rx, 0, frame, 0);
    BEUint32Local(rx, 4, frame, 4);
    assert rx[8..8 + len] == frame[8..8 + len] == m.msg;
    assert rx[8 + len] == frame[8 + len];
    Int8RoundTrip(m.rssi, rx[8 + len]);
    assert StrLen(m.msg) == len;
    assert BEToInt32(rx, 4) == len;
    assert CString(rx[8..8 + len]) == m.msg;
    assert NewTextMessage(rx[8..8 + len], Uint8ToInt8(rx[8 + len])) == m;
    assert rx[9 + len..] == rest;
  }

  /** Back-to-back frames are parsed one after the other. */
  lemma TwoFramesInSequence(a: Heartbeat, b: WhoAmI, rest: seq<uint8>)
    ensures var rx := HeartbeatToBytes(a) + WhoAmIToBytes(b) + rest;
      ParseHeartbeat(rx) == Some(Parsed(a, 5)) &&
      ParseWhoAmI(Rest(rx, ParseHeartbeat(rx))) == Some(Parsed(b, 8)) &&
      Rest(Rest(rx, ParseHeartbeat(rx)), ParseWhoAmI(Rest(rx, ParseHeartbeat(rx)))) == rest
  {
    var tail := WhoAmIToBytes(b) + rest;
    assert HeartbeatToBytes(a) + WhoAmIToBytes(b) + rest == HeartbeatToBytes(a) + tail;
    HeartbeatFrameRoundTrip(a, tail);
    WhoAmIFrameRoundTrip(b, rest);
  }

  // ---------------------------------------------------------------- finding

  /** The offsets `get_text_message` computes from the length field, as written. */
  datatype TextFrameAsWritten = TextFrameAsWritten(textEnd: int, rssiAt: int, consumed: int)

  /**
   * `get_text_message` as written: the length is used without a sign check, so
   * `peek_string(L, 8)`, `peek_byte(8 + L)` and `remove_rx_bytes(8 + L + 1)`
   * see whatever `L` the peer sent.  (For `L` near the int32 maximum the sums
   * also overflow; this function keeps them unbounded.)
   */
  function ParseTextMessageAsWritten(rx: seq<uint8>): (r: Option<TextFrameAsWritten>)
    ensures r.Some? ==> r.value.consumed == r.value.rssiAt + 1 && |rx| >= r.value.consumed
  {
    if |rx| < 8 then None
    else
      var len := BEToInt32(rx, 4);
      if |rx| < len + 8 then None
      else if |rx| < 8 + len + 1 then None
      else Some(TextFrameAsWritten(8 + len, 8 + len, 8 + len + 1))
  }

  /**
   * A length of -9 passes every size check of an 8-byte buffer, so the text
   * range asked for is `[8, -1)`: reversed, and building a string from it is
   * undefined behaviour (in practice an uncaught exception).  The rssi offset
   * -1 and the 0 bytes to consume are what the code computes; it never gets
   * that far.
   */
  lemma NegativeTextLength()
    ensures var rx := Int32ToBE(TEXT_MESSAGE_ID) + Int32ToBE(-9);
      ParseTextMessageAsWritten(rx) == Some(TextFrameAsWritten(-1, -1, 0)) &&
      ParseTextMessage(rx).None?
  {
    var rx := Int32ToBE(TEXT_MESSAGE_ID) + Int32ToBE(-9);
    BEInt32RoundTrip(-9, rx, 4);
  }

  /** With a length the encoder can produce, the checked parser consumes what the written one does. */
  lemma ParseTextMessageAgrees(rx: seq<uint8>)
    requires |rx| >= 8 && 0 <= BEToInt32(rx, 4) <= MAX_TEXT_LEN
    ensures ParseTextMessageAsWritten(rx).Some? <==> ParseTextMessage(rx).Some?
    ensures ParseTextMessage(rx).Some? ==>
      ParseTextMessageAsWritten(rx).value.consumed == ParseTextMessage(rx).value.consumed >= 9
  {
  }
}
