/**
 * The fixed-layout UDP wire protocol of common/Messages.hpp.
 *
 * Every message starts with its 4-byte type id in network byte order and has a
 * fixed size.  `...ToBytes` is the struct's `toBytes`, `...FromBuffer` its
 * static `fromBuffer` (none when the buffer is shorter than the fixed size).
 * Decoders never look at the tag bytes 0..3: the receiver reads the tag itself
 * and picks the decoder.
 */
module Messages {
  import opened Bytes
  import opened Wrappers
  import opened CStrings

  const HEARTBEAT_ID: uint32 := 1000
  const TEXT_MESSAGE_ID: uint32 := 1001
  const CONTROL_DATA_ID: uint32 := 1002
  const WHO_AM_I_ID: uint32 := 1003
  const LED_DATA_ID: uint32 := 1004
  const REQUEST_WHO_AM_I_ID: uint32 := 1005

  const HEARTBEAT_SIZE: nat := 6
  const TEXT_MESSAGE_SIZE: nat := 38
  const CONTROL_DATA_SIZE: nat := 12
  const WHO_AM_I_SIZE: nat := 5
  const LED_DATA_SIZE: nat := 12
  const REQUEST_WHO_AM_I_SIZE: nat := 4

  /** Length of the `char message[32]` field of a TextMessage. */
  const TEXT_FIELD: nat := 32

  type TextField = s: seq<uint8> | |s| == TEXT_FIELD witness Zeros(TEXT_FIELD)

  datatype Heartbeat = Heartbeat(rssi: int8, uid: uint8)
  datatype TextMessage = TextMessage(message: TextField, rssi: int8, uid: uint8)
  datatype ControlData = ControlData(vr: int32, vl: int32)
  datatype WhoAmI = WhoAmI(uid: uint8)
  /** `colorOrder` holds a ColorOrder: RGB = 0, GRB = 1. */
  datatype LEDData = LEDData(gpioNum: uint32, r: uint8, g: uint8, b: uint8, colorOrder: uint8)
  datatype RequestWhoAmI = RequestWhoAmI

  const RGB: uint8 := 0
  const GRB: uint8 := 1

  /** A text field as the constructor leaves it: NUL at 31 and zero after the text. */
  ghost predicate IsPadded(t: TextField)
  {
    t[31] == 0 && forall i | StrLen(t) <= i < TEXT_FIELD :: t[i] == 0
  }

  /**
   * `TextMessage(msg, rssi, uid)`: keeps at most 31 characters of `msg` (up to its
   * first NUL) and zero-fills the rest of the 32-byte field.
   */
  function NewTextMessage(msg: seq<uint8>, rssi: int8, uid: uint8): (m: TextMessage)
    ensures CString(m.message) == CString(msg)[..if StrLen(msg) > 31 then 31 else StrLen(msg)]
    ensures IsPadded(m.message)
    ensures m.rssi == rssi && m.uid == uid
  {
    var len := StrLen(msg);
    var k := if len > 31 then 31 else len;
    var text := msg[..k] + Zeros(TEXT_FIELD - k);
    assert text[k] == 0;
    assert StrLen(text) == k;
    TextMessage(text, rssi, uid)
  }

  // ---------------------------------------------------------------- encoders

  function HeartbeatToBytes(m: Heartbeat): (r: seq<uint8>)
    ensures |r| == HEARTBEAT_SIZE && BEToUint32(r, 0) == HEARTBEAT_ID
    ensures Uint8ToInt8(r[4]) == m.rssi && r[5] == m.uid
  {
    BEUint32RoundTrip(HEARTBEAT_ID, Uint32ToBE(HEARTBEAT_ID) + [Int8ToUint8(m.rssi), m.uid], 0);
    Uint32ToBE(HEARTBEAT_ID) + [Int8ToUint8(m.rssi), m.uid]
  }

  function TextMessageToBytes(m: TextMessage): (r: seq<uint8>)
    ensures |r| == TEXT_MESSAGE_SIZE && BEToUint32(r, 0) == TEXT_MESSAGE_ID
    ensures r[4..36] == m.message && Uint8ToInt8(r[36]) == m.rssi && r[37] == m.uid
  {
    var r := Uint32ToBE(TEXT_MESSAGE_ID) + m.message + [Int8ToUint8(m.rssi), m.uid];
    BEUint32RoundTrip(TEXT_MESSAGE_ID, r, 0);
    r
  }

  /** `vr` at bytes 4..7 and `vl` at 8..11, big-endian two's complement. */
  function ControlDataToBytes(m: ControlData): (r: seq<uint8>)
    ensures |r| == CONTROL_DATA_SIZE && BEToUint32(r, 0) == CONTROL_DATA_ID
    ensures BEToInt32(r, 4) == m.vr && BEToInt32(r, 8) == m.vl
  {
    var r := Uint32ToBE(CONTROL_DATA_ID) + Int32ToBE(m.vr) + Int32ToBE(m.vl);
    BEUint32RoundTrip(CONTROL_DATA_ID, r, 0);
    BEInt32RoundTrip(m.vr, r, 4);
    BEInt32RoundTrip(m.vl, r, 8);
    r
  }

  function WhoAmIToBytes(m: WhoAmI): (r: seq<uint8>)
    ensures |r| == WHO_AM_I_SIZE && BEToUint32(r, 0) == WHO_AM_I_ID && r[4] == m.uid
  {
    BEUint32RoundTrip(WHO_AM_I_ID, Uint32ToBE(WHO_AM_I_ID) + [m.uid], 0);
    Uint32ToBE(WHO_AM_I_ID) + [m.uid]
  }

  /** `gpio_num` at bytes 4..7 big-endian, then r, g, b and the colour order. */
  function LEDDataToBytes(m: LEDData): (r: seq<uint8>)
    ensures |r| == LED_DATA_SIZE && BEToUint32(r, 0) == LED_DATA_ID
    ensures BEToUint32(r, 4) == m.gpioNum
    ensures r[8] == m.r && r[9] == m.g && r[10] == m.b && r[11] == m.colorOrder
  {
    var r := Uint32ToBE(LED_DATA_ID) + Uint32ToBE(m.gpioNum) + [m.r, m.g, m.b, m.colorOrder];
    BEUint32RoundTrip(LED_DATA_ID, r, 0);
    BEUint32RoundTrip(m.gpioNum, r, 4);
    r
  }

  function RequestWhoAmIToBytes(m: RequestWhoAmI): (r: seq<uint8>)
    ensures |r| == REQUEST_WHO_AM_I_SIZE && BEToUint32(r, 0) == REQUEST_WHO_AM_I_ID
  {
    BEUint32RoundTrip(REQUEST_WHO_AM_I_ID, Uint32ToBE(REQUEST_WHO_AM_I_ID), 0);
    Uint32ToBE(REQUEST_WHO_AM_I_ID)
  }

  // ---------------------------------------------------------------- decoders

  /** Re-encoding what was decoded reproduces the payload bytes 4..5. */
  function HeartbeatFromBuffer(buf: seq<uint8>): (r: Option<Heartbeat>)
    ensures r.None? <==> |buf| < HEARTBEAT_SIZE
    ensures r.Some? ==> HeartbeatToBytes(r.value)[4..] == buf[4..HEARTBEAT_SIZE]
  {
    if |buf| < HEARTBEAT_SIZE then None
    else Some(Heartbeat(Uint8ToInt8(buf[4]), buf[5]))
  }

  /**
   * The text is read from the 31 bytes 4..34 only (byte 35 is the NUL slot the
   * constructor always writes); see the finding on the unbounded `strlen`.
   */
  function TextMessageFromBuffer(buf: seq<uint8>): (r: Option<TextMessage>)
    ensures r.None? <==> |buf| < TEXT_MESSAGE_SIZE
    ensures r.Some? ==> CString(r.value.message) == CString(buf[4..35]) && IsPadded(r.value.message)
    ensures r.Some? ==> Int8ToUint8(r.value.rssi) == buf[36] && r.value.uid == buf[37]
  {
    if |buf| < TEXT_MESSAGE_SIZE then None
    else Some(NewTextMessage(buf[4..35], Uint8ToInt8(buf[36]), buf[37]))
  }

  /** Re-encoding what was decoded reproduces the payload bytes 4..11. */
  function ControlDataFromBuffer(buf: seq<uint8>): (r: Option<ControlData>)
    ensures r.None? <==> |buf| < CONTROL_DATA_SIZE
    ensures r.Some? ==> ControlDataToBytes(r.value)[4..] == buf[4..CONTROL_DATA_SIZE]
  {
    if |buf| < CONTROL_DATA_SIZE then None
    else
      var m := ControlData(BEToInt32(buf, 4), BEToInt32(buf, 8));
      BEUint32Canonical(buf, 4);
      BEUint32Canonical(buf, 8);
      assert ControlDataToBytes(m)[4..] == Int32ToBE(m.vr) + Int32ToBE(m.vl);
      assert buf[4..CONTROL_DATA_SIZE] == buf[4..8] + buf[8..12];
      Some(m)
  }

  /** Re-encoding what was decoded reproduces the payload byte 4. */
  function WhoAmIFromBuffer(buf: seq<uint8>): (r: Option<WhoAmI>)
    ensures r.None? <==> |buf| < WHO_AM_I_SIZE
    ensures r.Some? ==> WhoAmIToBytes(r.value)[4..] == buf[4..WHO_AM_I_SIZE]
  {
    if |buf| < WHO_AM_I_SIZE then None
    else Some(WhoAmI(buf[4]))
  }

  /** Re-encoding what was decoded reproduces the payload bytes 4..11. */
  function LEDDataFromBuffer(buf: seq<uint8>): (r: Option<LEDData>)
    ensures r.None? <==> |buf| < LED_DATA_SIZE
    ensures r.Some? ==> LEDDataToBytes(r.value)[4..] == buf[4..LED_DATA_SIZE]
  {
    if |buf| < LED_DATA_SIZE then None
    else
      var m := LEDData(BEToUint32(buf, 4), buf[8], buf[9], buf[10], buf[11]);
      BEUint32Canonical(buf, 4);
      assert LEDDataToBytes(m)[4..] == Uint32ToBE(m.gpioNum) + [m.r, m.g, m.b, m.colorOrder];
      assert buf[4..LED_DATA_SIZE] == buf[4..8] + [buf[8], buf[9], buf[10], buf[11]];
      Some(m)
  }

  /** Succeeds on any buffer that holds at least the tag. */
  function RequestWhoAmIFromBuffer(buf: seq<uint8>): (r: Option<RequestWhoAmI>)
    ensures r.None? <==> |buf| < REQUEST_WHO_AM_I_SIZE
  {
    if |buf| < REQUEST_WHO_AM_I_SIZE then None else Some(RequestWhoAmI)
  }

  // ---------------------------------------------------------------- properties

  /** `fromBuffer(toBytes(m))` gives `m` back, whatever bytes follow the message. */
  lemma RoundTrip(rest: seq<uint8>, h: Heartbeat, c: ControlData, w: WhoAmI, l: LEDData)
    ensures HeartbeatFromBuffer(HeartbeatToBytes(h) + rest) == Some(h)
    ensures ControlDataFromBuffer(ControlDataToBytes(c) + rest) == Some(c)
    ensures WhoAmIFromBuffer(WhoAmIToBytes(w) + rest) == Some(w)
    ensures LEDDataFromBuffer(LEDDataToBytes(l) + rest) == Some(l)
    ensures RequestWhoAmIFromBuffer(RequestWhoAmIToBytes(RequestWhoAmI) + rest) == Some(RequestWhoAmI)
  {
    var hb := HeartbeatToBytes(h) + rest;
    assert hb[4] == HeartbeatToBytes(h)[4];
    var cb := ControlDataToBytes(c) + rest;
    BEInt32RoundTrip(c.vr, cb, 4);
    BEInt32RoundTrip(c.vl, cb, 8);
    var lb := LEDDataToBytes(l) + rest;
    BEUint32RoundTrip(l.gpioNum, lb, 4);
  }

  /** A TextMessage built by the constructor survives encoding then decoding. */
  lemma TextMessageRoundTrip(m: TextMessage, rest: seq<uint8>)
    requires IsPadded(m.message)
    ensures TextMessageFromBuffer(TextMessageToBytes(m) + rest) == Some(m)
  {
    var buf := TextMessageToBytes(m) + rest;
    var window := buf[4..35];
    assert window == m.message[..31];
    StrLenPrefix(m.message, 31);
    var d := NewTextMessage(window, Uint8ToInt8(buf[36]), buf[37]);
    var k := StrLen(window);
    assert k == StrLen(m.message);
    assert d.message == window[..k] + Zeros(TEXT_FIELD - k);
    assert d.message == m.message;
  }

  /** Every message built with the constructor is padded, so the round trip applies. */
  lemma NewTextMessageRoundTrip(msg: seq<uint8>, rssi: int8, uid: uint8, rest: seq<uint8>)
    ensures var m := NewTextMessage(msg, rssi, uid);
      TextMessageFromBuffer(TextMessageToBytes(m) + rest) == Some(m)
  {
    TextMessageRoundTrip(NewTextMessage(msg, rssi, uid), rest);
  }

  /** Decoders ignore the tag bytes and everything past the fixed size. */
  lemma DecodeReadsOnlyPayload(a: seq<uint8>, b: seq<uint8>, n: nat)
    requires |a| >= n && |b| >= n && n >= 4 && a[4..n] == b[4..n]
    ensures n >= HEARTBEAT_SIZE ==> HeartbeatFromBuffer(a) == HeartbeatFromBuffer(b)
    ensures n >= TEXT_MESSAGE_SIZE ==> TextMessageFromBuffer(a) == TextMessageFromBuffer(b)
    ensures n >= CONTROL_DATA_SIZE ==> ControlDataFromBuffer(a) == ControlDataFromBuffer(b)
    ensures n >= WHO_AM_I_SIZE ==> WhoAmIFromBuffer(a) == WhoAmIFromBuffer(b)
    ensures n >= LED_DATA_SIZE ==> LEDDataFromBuffer(a) == LEDDataFromBuffer(b)
    ensures RequestWhoAmIFromBuffer(a) == RequestWhoAmIFromBuffer(b)
  {
    forall i | 4 <= i < n ensures a[i] == b[i] {
      assert a[i] == a[4..n][i - 4];
    }
    if n >= TEXT_MESSAGE_SIZE {
      assert a[4..35] == b[4..35];
    }
    if n >= CONTROL_DATA_SIZE {
      BEUint32Local(a, 4, b, 4);
      BEUint32Local(a, 8, b, 8);
    }
  }

  // ---------------------------------------------------------------- finding

  /**
   * As written, `fromBuffer` hands `buffer.data() + 4` to the constructor, whose
   * `strlen` scans to the first NUL wherever it lies.  The C++ has defined
   * behaviour only when such a NUL exists inside the span.
   */
  predicate StrlenStaysInSpan(buf: seq<uint8>)
  {
    |buf| >= 4 && StrLen(buf[4..]) < |buf| - 4
  }

  /** The decoder as written, on the inputs where it has defined behaviour. */
  function TextMessageFromBufferAsWritten(buf: seq<uint8>): (r: Option<TextMessage>)
    requires |buf| < TEXT_MESSAGE_SIZE || StrlenStaysInSpan(buf)
    ensures r.None? <==> |buf| < TEXT_MESSAGE_SIZE
  {
    if |buf| < TEXT_MESSAGE_SIZE then None
    else Some(NewTextMessage(buf[4..], Uint8ToInt8(buf[36]), buf[37]))
  }

  /** The size check lets through a full-size datagram whose text holds no NUL at all. */
  lemma TextMessageStrlenOverread()
    ensures var buf := seq(TEXT_MESSAGE_SIZE, _ => 0x41);
      |buf| >= TEXT_MESSAGE_SIZE && !StrlenStaysInSpan(buf)
  {
    var buf: seq<uint8> := seq(TEXT_MESSAGE_SIZE, _ => 0x41);
    var tail := buf[4..];
    assert forall i | 0 <= i < |tail| :: tail[i] != 0;
    assert StrLen(tail) == |tail|;
  }

  /** Where the C++ is defined, the bounded decoder gives the same message. */
  lemma TextMessageFromBufferAgrees(buf: seq<uint8>)
    requires |buf| < TEXT_MESSAGE_SIZE || StrlenStaysInSpan(buf)
    ensures TextMessageFromBufferAsWritten(buf) == TextMessageFromBuffer(buf)
  {
    if |buf| >= TEXT_MESSAGE_SIZE {
      var tail := buf[4..];
      StrLenPrefix(tail, 31);
      assert tail[..31] == buf[4..35];
      var k := if StrLen(tail) > 31 then 31 else StrLen(tail);
      assert StrLen(buf[4..35]) == k;
      assert tail[..k] == buf[4..35][..k];
    }
  }
}
