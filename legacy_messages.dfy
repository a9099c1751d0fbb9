/**
 * The length-prefixed TCP stream messages of common/messages.hpp: each frame is
 * a big-endian int32 type id followed by the fields, and `size()` is the length
 * of the bytes `to_bytes()` produces.
 */
module LegacyMessages {
  import opened Bytes
  import opened CStrings

  const HEARTBEAT_ID: int32 := 1000
  const TEXT_MESSAGE_ID: int32 := 1001
  const DATA_ID: int32 := 1002
  const WHO_AM_I_ID: int32 := 1003

  /** Longest text whose frame size `8 + text_len + 1` is still an int32. */
  const MAX_TEXT_LEN: nat := 0x7FFF_FFFF - 9

  /** The text of a `std::string` built from a C string: no NUL inside. */
  type Text = s: seq<uint8> | 0 !in s && |s| <= MAX_TEXT_LEN

  datatype Heartbeat = Heartbeat(rssi: int8)
  /** `text_len` is `|msg|`, the `strlen` the constructor records. */
  datatype TextMessage = TextMessage(msg: Text, rssi: int8)
  datatype Data = Data(vr: int32, vl: int32)
  datatype WhoAmI = WhoAmI(uid: int32)

  /** `Data()` and the constant `noDataC` built from it. */
  const DEFAULT_DATA: Data := Data(0, 0)
  const NO_DATA: Data := DEFAULT_DATA

  /** `TextMessage(msg, rssi)`: keeps the C string's text and records its `strlen`. */
  function NewTextMessage(cstr: seq<uint8>, rssi: int8): (m: TextMessage)
    requires StrLen(cstr) <= MAX_TEXT_LEN
    ensures m.msg == CString(cstr) && |m.msg| == StrLen(cstr) && m.rssi == rssi
  {
    TextMessage(CString(cstr), rssi)
  }

  /** `size()`: the id, then one rssi byte. */
  function HeartbeatSize(m: Heartbeat): (r: int32)
    ensures r == 4 + 1
  {
    5
  }

  /** `size()`: the id and `text_len` fields, the text's `strlen` bytes, then rssi. */
  function TextMessageSize(m: TextMessage): (r: int32)
    ensures r == 4 + 4 + StrLen(m.msg) + 1
  {
    8 + |m.msg| + 1
  }

  /** `size()`: the id, then the two int32 wheel speeds. */
  function DataSize(m: Data): (r: int32)
    ensures r == 4 + 4 + 4
  {
    12
  }

  /** `size()`: the id, then the int32 uid. */
  function WhoAmISize(m: WhoAmI): (r: int32)
    ensures r == 4 + 4
  {
    8
  }

  /** Big-endian 1000, then rssi as one byte. */
  function HeartbeatToBytes(m: Heartbeat): (r: seq<uint8>)
    ensures |r| == HeartbeatSize(m)
    ensures BEToInt32(r, 0) == HEARTBEAT_ID && Uint8ToInt8(r[4]) == m.rssi
  {
    var r := Int32ToBE(HEARTBEAT_ID) + [Int8ToUint8(m.rssi)];
    BEInt32RoundTrip(HEARTBEAT_ID, r, 0);
    r
  }

  /** Big-endian 1001, big-endian `text_len`, the text, then rssi. */
  function TextMessageToBytes(m: TextMessage): (r: seq<uint8>)
    ensures |r| == TextMessageSize(m)
    ensures BEToInt32(r, 0) == TEXT_MESSAGE_ID && BEToInt32(r, 4) == |m.msg|
    ensures r[8..8 + |m.msg|] == m.msg && Uint8ToInt8(r[8 + |m.msg|]) == m.rssi
  {
    var r := Int32ToBE(TEXT_MESSAGE_ID) + Int32ToBE(|m.msg|) + m.msg + [Int8ToUint8(m.rssi)];
    BEInt32RoundTrip(TEXT_MESSAGE_ID, r, 0);
    BEInt32RoundTrip(|m.msg|, r, 4);
    r
  }

  /** Big-endian 1002, `vr`, `vl`. */
  function DataToBytes(m: Data): (r: seq<uint8>)
    ensures |r| == DataSize(m)
    ensures BEToInt32(r, 0) == DATA_ID && BEToInt32(r, 4) == m.vr && BEToInt32(r, 8) == m.vl
  {
    var r := Int32ToBE(DATA_ID) + Int32ToBE(m.vr) + Int32ToBE(m.vl);
    BEInt32RoundTrip(DATA_ID, r, 0);
    BEInt32RoundTrip(m.vr, r, 4);
    BEInt32RoundTrip(m.vl, r, 8);
    r
  }

  /** Big-endian 1003, then the uid as a big-endian int32. */
  function WhoAmIToBytes(m: WhoAmI): (r: seq<uint8>)
    ensures |r| == WhoAmISize(m)
    ensures BEToInt32(r, 0) == WHO_AM_I_ID && BEToInt32(r, 4) == m.uid
  {
    var r := Int32ToBE(WHO_AM_I_ID) + Int32ToBE(m.uid);
    BEInt32RoundTrip(WHO_AM_I_ID, r, 0);
    BEInt32RoundTrip(m.uid, r, 4);
    r
  }

  /** Different messages of one type give different frames. */
  lemma EncodersInjective(a: Data, b: Data, u: WhoAmI, w: WhoAmI, s: TextMessage, t: TextMessage)
    ensures DataToBytes(a) == DataToBytes(b) ==> a == b
    ensures WhoAmIToBytes(u) == WhoAmIToBytes(w) ==> u == w
    ensures TextMessageToBytes(s) == TextMessageToBytes(t) ==> s == t
  {
    if TextMessageToBytes(s) == TextMessageToBytes(t) {
      var r := TextMessageToBytes(s);
      assert |s.msg| == |t.msg|;
      assert s.msg == r[8..8 + |s.msg|] == t.msg;
    }
  }
}
