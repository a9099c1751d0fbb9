/**
 * The robot firmware's side of the TCP stream
 * (robotmc/main/include/RobotSocketClient.hpp): frames built in local arrays
 * and handed to `writeNbytes`, the heartbeat sent when the link has been idle,
 * and the 12-byte command read.
 *
 * `writeNbytes` and `readNbytes` are not modelled: their `SocketError` result
 * and the bytes read are parameters, and so is the clock reading.  `frames`
 * is every frame a write completed, in order, and `lastTx` the clock at the
 * last completed write.
 */
module RobotFirmware {
  import opened Bytes
  import opened CStrings
  import LegacyMessages

  datatype SocketError =
    | OK
    | ERR_CREATE_SOCKET | ERR_NONBLOCK_FAILED | ERR_CONNECT_FAIL | ERR_SELECT_ERROR
    | ERR_CONNECT_TIMEOUT | ERR_GETSOCKOPT | ERR_CONNECT_REFUSED | ERR_TCP_NODELAY
    | ERR_NOT_CONNECTED_READ | ERR_SELECT_READ | ERR_READ_TIMEOUT | ERR_READ_FAIL
    | ERR_NOT_CONNECTED_WRITE | ERR_SELECT_WRITE | ERR_WRITE_TIMEOUT | ERR_WRITE_FAIL
    | ERR_INCOMPLETE_READ | ERR_INCOMPLETE_WRITE

  /** Microseconds of silence after which a heartbeat is due. */
  const HEARTBEAT_IDLE_US: int := 1000000

  /** The firmware's `Data`: `vr` and `vl` as the four bytes `memcpy` copies into each float. */
  datatype Data = Data(vr: seq<uint8>, vl: seq<uint8>, valid: bool)

  /** `noDataC`: `Data()` is two zero floats, whose bytes are all zero, and not valid. */
  const NO_DATA: Data := Data(Zeros(4), Zeros(4), false)

  /** The 5 bytes `sendHeartbeat` builds: big-endian 1000, then rssi. */
  function HeartbeatFrame(rssi: int8): (r: seq<uint8>)
    ensures |r| == 5 && r[..4] == Int32ToBE(LegacyMessages.HEARTBEAT_ID) && Uint8ToInt8(r[4]) == rssi
  {
    Int32ToBE(LegacyMessages.HEARTBEAT_ID) + [Int8ToUint8(rssi)]
  }

  /** The 8 bytes `sendWhoAmI` builds: big-endian 1003, then the big-endian uid. */
  function WhoAmIFrame(uid: int32): (r: seq<uint8>)
    ensures |r| == 8 && r[..4] == Int32ToBE(LegacyMessages.WHO_AM_I_ID) && r[4..] == Int32ToBE(uid)
  {
    Int32ToBE(LegacyMessages.WHO_AM_I_ID) + Int32ToBE(uid)
  }

  /**
   * The `8 + length + 1` bytes `sendTextMessage` builds: big-endian 1001, the
   * big-endian `strlen`, the text before the first NUL, then rssi.
   */
  function TextMessageFrame(cstr: seq<uint8>, rssi: int8): (r: seq<uint8>)
    requires StrLen(cstr) <= LegacyMessages.MAX_TEXT_LEN
    ensures |r| == 8 + StrLen(cstr) + 1
    ensures r[..4] == Int32ToBE(LegacyMessages.TEXT_MESSAGE_ID) && r[4..8] == Int32ToBE(StrLen(cstr))
    ensures r[8..8 + StrLen(cstr)] == CString(cstr) && Uint8ToInt8(r[8 + StrLen(cstr)]) == rssi
  {
    var length := StrLen(cstr);
    Int32ToBE(LegacyMessages.TEXT_MESSAGE_ID) + Int32ToBE(length) + CString(cstr) + [Int8ToUint8(rssi)]
  }

  /** The robot's frames are byte for byte the ones the coordinator's `to_bytes` produce. */
  lemma FramesMatchLegacyEncoders(rssi: int8, uid: int32, cstr: seq<uint8>)
    requires StrLen(cstr) <= LegacyMessages.MAX_TEXT_LEN
    ensures HeartbeatFrame(rssi) == LegacyMessages.HeartbeatToBytes(LegacyMessages.Heartbeat(rssi))
    ensures WhoAmIFrame(uid) == LegacyMessages.WhoAmIToBytes(LegacyMessages.WhoAmI(uid))
    ensures TextMessageFrame(cstr, rssi) ==
      LegacyMessages.TextMessageToBytes(LegacyMessages.NewTextMessage(cstr, rssi))
  {
    var m := LegacyMessages.NewTextMessage(cstr, rssi);
    assert |m.msg| == StrLen(cstr);
  }

  class RobotSocketClient {
    var frames: seq<seq<uint8>>
    var lastTx: int

    /** A fresh client: nothing written and `last_tx` zero. */
    constructor ()
      ensures frames == [] && lastTx == 0
    {
      frames := [];
      lastTx := 0;
    }

    /** `getIdleTime`: microseconds since the last completed write. */
    function IdleTime(now: int): (r: int)
      reads this
      ensures r >= HEARTBEAT_IDLE_US <==> now >= lastTx + HEARTBEAT_IDLE_US
      ensures now == lastTx ==> r == 0
    {
      now - lastTx
    }

    /** `writeNbytes` with the outcome `status`: a completed write records the frame and the time. */
    method Write(frame: seq<uint8>, status: SocketError, now: int) returns (ok: bool)
      modifies this
      ensures ok == (status == OK)
      ensures frames == old(frames) + (if ok then [frame] else [])
      ensures lastTx == if ok then now else old(lastTx)
    {
      ok := status == OK;
      if ok {
        frames := frames + [frame];
        lastTx := now;
      }
    }

    method SendHeartbeat(hb: LegacyMessages.Heartbeat, status: SocketError, now: int) returns (ok: bool)
      modifies this
      ensures ok == (status == OK)
      ensures frames == old(frames) + (if ok then [HeartbeatFrame(hb.rssi)] else [])
      ensures lastTx == if ok then now else old(lastTx)
    {
      ok := Write(HeartbeatFrame(hb.rssi), status, now);
    }

    method SendWhoAmI(wai: LegacyMessages.WhoAmI, status: SocketError, now: int) returns (ok: bool)
      modifies this
      ensures ok == (status == OK)
      ensures frames == old(frames) + (if ok then [WhoAmIFrame(wai.uid)] else [])
      ensures lastTx == if ok then now else old(lastTx)
    {
      ok := Write(WhoAmIFrame(wai.uid), status, now);
    }

    method SendTextMessage(cstr: seq<uint8>, rssi: int8, status: SocketError, now: int) returns (ok: bool)
      requires StrLen(cstr) <= LegacyMessages.MAX_TEXT_LEN
      modifies this
      ensures ok == (status == OK)
      ensures frames == old(frames) + (if ok then [TextMessageFrame(cstr, rssi)] else [])
      ensures lastTx == if ok then now else old(lastTx)
    {
      ok := Write(TextMessageFrame(cstr, rssi), status, now);
    }

    /** `sendHeartbeatIfMust`: a heartbeat only after a second without a completed write. */
    method SendHeartbeatIfMust(hb: LegacyMessages.Heartbeat, status: SocketError, now: int) returns (ok: bool)
      modifies this
      ensures old(IdleTime(now)) < HEARTBEAT_IDLE_US ==> !ok && frames == old(frames) && lastTx == old(lastTx)
      ensures old(IdleTime(now)) >= HEARTBEAT_IDLE_US ==>
        ok == (status == OK) &&
        frames == old(frames) + (if ok then [HeartbeatFrame(hb.rssi)] else []) &&
        lastTx == (if ok then now else old(lastTx))
    {
      if IdleTime(now) >= HEARTBEAT_IDLE_US {
        ok := SendHeartbeat(hb, status, now);
      } else {
        ok := false;
      }
    }

    /** `readData` given what `readNbytes` reported and the 12 bytes it filled in. */
    method ReadData(err: SocketError, received: seq<uint8>) returns (d: Data)
      requires |received| == 12
      ensures err != OK ==> d == NO_DATA && !d.valid
      ensures err == OK ==> d.valid && d.vr == received[4..8] && d.vl == received[8..12]
    {
      if err != OK {
        return NO_DATA;
      }
      d := Data(received[4..8], received[8..12], true);
    }
  }
}
