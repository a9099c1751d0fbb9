/**
 * The coordinator side of the UDP protocol (robotpc/UDPServer.hpp): the robot
 * registry, the handling of one received datagram, and the two operations the
 * vision loop calls (`informRobot`, `updateKinematics`).
 *
 * The socket is reduced to what the server does with it: each `s.write` is
 * appended to `outbox` (destination and bytes); the status a write reports is
 * a parameter.  Poses are idealised as real vectors.
 */
module Coordinator {
  import opened Bytes
  import opened Wrappers
  import opened Messages
  import opened Mappings

  /** `BUFFER_SIZE`: the receive buffer. */
  const BUFFER_SIZE: nat := 1024

  /** A `sockaddr_storage`, compared only for equality. */
  type Addr = nat

  /** One `s.write(bytes, n, &to)`. */
  datatype Datagram = Datagram(to: Addr, payload: seq<uint8>)

  /** `sockerr::SockErr`. */
  datatype SockErr =
    | ERR_OK | ERR_WSA | ERR_CREATE | ERR_BIND | ERR_ALREADY_INIT
    | ERR_CONNECT | ERR_SEND | ERR_PARTIAL_SEND | ERR_INVALID_ADDR

  datatype Vec3 = Vec3(x: real, y: real, z: real)

  const ORIGIN: Vec3 := Vec3(0.0, 0.0, 0.0)

  /** The smoothing weight `updateKinematics` passes (0.8f). */
  const LAMBDA: real := 0.8

  /** `pos * lambda + (1 - lambda) * old`. */
  function Smooth(prev: Vec3, pos: Vec3, lambda: real): (r: Vec3)
    ensures lambda == 1.0 ==> r == pos
    ensures pos == prev ==> r == prev
  {
    Vec3(pos.x * lambda + (1.0 - lambda) * prev.x,
         pos.y * lambda + (1.0 - lambda) * prev.y,
         pos.z * lambda + (1.0 - lambda) * prev.z)
  }

  /** A `UDPRobot`: bound address, uid, smoothed centre and front positions. */
  datatype UDPRobot = UDPRobot(addr: Addr, uid: uint8, cPosition: Vec3, fPosition: Vec3)

  /** `make_shared<UDPRobot>(from, uid)`: positions start at the origin. */
  function NewUDPRobot(addr: Addr, uid: uint8): (r: UDPRobot)
    ensures r.addr == addr && r.uid == uid && r.cPosition == ORIGIN == r.fPosition
  {
    UDPRobot(addr, uid, ORIGIN, ORIGIN)
  }

  type Registry = map<uint8, UDPRobot>

  /** What one datagram does: the new registry and the writes it issues, in order. */
  datatype Effect = Effect(registry: Registry, sent: seq<Datagram>)

  function NoEffect(registry: Registry): Effect
  {
    Effect(registry, [])
  }

  /** The big-endian type tag in bytes 0..3. */
  function Tag(data: seq<uint8>): uint32
    requires |data| >= 4
  {
    BEToUint32(data, 0)
  }

  /** The reply to an unknown robot's heartbeat. */
  function RequestWhoAmIReply(to: Addr): Datagram
  {
    Datagram(to, RequestWhoAmIToBytes(RequestWhoAmI))
  }

  /** The two LED frames pushed to a robot that identifies itself. */
  function LEDReplies(colors: RobotLEDColors, to: Addr): seq<Datagram>
  {
    [Datagram(to, LEDDataToBytes(colors.center)), Datagram(to, LEDDataToBytes(colors.front))]
  }

  /** The receive loop body, lines after `s.read`, as a function of the received bytes. */
  function Dispatch(registry: Registry, data: seq<uint8>, from: Addr): (r: Effect)
    ensures registry.Keys <= r.registry.Keys
    ensures |r.sent| <= 2 && forall d | d in r.sent :: d.to == from
  {
    if |data| < 4 then NoEffect(registry)
    else if Tag(data) == HEARTBEAT_ID then
      match HeartbeatFromBuffer(data)
      case None => NoEffect(registry)
      case Some(hb) =>
        if hb.uid != 0 && hb.uid !in registry then Effect(registry, [RequestWhoAmIReply(from)])
        else NoEffect(registry)
    else if Tag(data) == TEXT_MESSAGE_ID then
      NoEffect(registry)
    else if Tag(data) == WHO_AM_I_ID then
      match WhoAmIFromBuffer(data)
      case None => NoEffect(registry)
      case Some(w) =>
        if w.uid == 0 || !GetColors(w.uid).valid then NoEffect(registry)
        else
          var registry' := if w.uid in registry then registry else registry[w.uid := NewUDPRobot(from, w.uid)];
          Effect(registry', LEDReplies(GetColors(w.uid), from))
    else
      NoEffect(registry)
  }

  /** The received span: `buffer[..count]`, nothing when `recvfrom` failed. */
  function Received(buffer: seq<uint8>, count: int): seq<uint8>
    requires count <= |buffer|
  {
    if count < 0 then [] else buffer[..count]
  }

  /** Every registered uid has a valid colour entry and its robot carries that uid. */
  ghost predicate RegistryValid(registry: Registry)
  {
    forall uid | uid in registry :: uid != 0 && GetColors(uid).valid && registry[uid].uid == uid
  }

  class UDPServer {
    var robots: Registry
    var outbox: seq<Datagram>

    ghost predicate Valid()
      reads this
    {
      RegistryValid(robots)
    }

    constructor ()
      ensures Valid() && robots == map[] && outbox == []
    {
      robots := map[];
      outbox := [];
    }

    /** `s.write(data, n, &to)`; the status it reports is left to the caller. */
    method Write(payload: seq<uint8>, to: Addr)
      modifies this`outbox
      ensures outbox == old(outbox) + [Datagram(to, payload)]
    {
      outbox := outbox + [Datagram(to, payload)];
    }

    /**
     * One iteration of the receive loop after `s.read` returned `count` bytes
     * (negative on error) from `from` into `buffer`.
     */
    method HandleDatagram(buffer: seq<uint8>, count: int, from: Addr)
      requires Valid()
      requires |buffer| == BUFFER_SIZE && count <= BUFFER_SIZE
      modifies this
      ensures Valid()
      ensures var e := Dispatch(old(robots), Received(buffer, count), from);
        robots == e.registry && outbox == old(outbox) + e.sent
    {
      if count < 4 {
        return;
      }
      var data := buffer[..count];
      var msgId := BEToUint32(buffer, 0);
      assert msgId == Tag(data) by { BEUint32Local(buffer, 0, data, 0); }
      if msgId == HEARTBEAT_ID {
        var msg := HeartbeatFromBuffer(data);
        if msg.None? {
          return;
        }
        var uid := msg.value.uid;
        if uid != 0 {
          if uid !in robots {
            Write(RequestWhoAmIToBytes(RequestWhoAmI), from);
          }
        }
      } else if msgId == TEXT_MESSAGE_ID {
        var msg := TextMessageFromBuffer(data);
        if msg.None? {
          return;
        }
      } else if msgId == WHO_AM_I_ID {
        var msg := WhoAmIFromBuffer(data);
        if msg.None? {
          return;
        }
        var uid := msg.value.uid;
        if uid == 0 {
          return;
        }
        var colors := GetColors(uid);
        if !colors.valid {
          return;
        }
        Write(LEDDataToBytes(colors.center), from);
        Write(LEDDataToBytes(colors.front), from);
        if uid !in robots {
          robots := robots[uid := NewUDPRobot(from, uid)];
        }
      }
    }

    /** `getRobotFromUID`: the registered robot, or none. */
    function GetRobotFromUID(uid: uint8): (r: Option<UDPRobot>)
      reads this
      ensures r.Some? <==> uid in robots
      ensures r.Some? ==> r.value == robots[uid]
    {
      if uid in robots then Some(robots[uid]) else None
    }

    /**
     * `informRobot`: sends the 12-byte ControlData `cmd` to the robot's bound
     * address; `cmd` stands for the control law's output, which is not modelled.
     */
    method InformRobot(cmd: ControlData, uid: uint8, status: SockErr) returns (ok: bool)
      modifies this`outbox
      ensures uid !in robots ==> !ok && outbox == old(outbox)
      ensures uid in robots ==>
        outbox == old(outbox) + [Datagram(robots[uid].addr, ControlDataToBytes(cmd))]
        && ok == (status == ERR_OK)
    {
      var robot := GetRobotFromUID(uid);
      if robot.None? {
        return false;
      }
      Write(ControlDataToBytes(cmd), robot.value.addr);
      ok := status == ERR_OK;
    }

    /** `updateKinematics`: smooths both tracked positions of a registered robot. */
    method UpdateKinematics(cPosition: Vec3, fPosition: Vec3, uid: uint8) returns (ok: bool)
      requires Valid()
      modifies this`robots
      ensures Valid()
      ensures ok <==> uid in old(robots)
      ensures !ok ==> robots == old(robots)
      ensures ok ==> robots == old(robots)[uid := old(robots)[uid].(
        cPosition := Smooth(old(robots)[uid].cPosition, cPosition, LAMBDA),
        fPosition := Smooth(old(robots)[uid].fPosition, fPosition, LAMBDA))]
    {
      var robot := GetRobotFromUID(uid);
      if robot.None? {
        return false;
      }
      var r := robot.value;
      robots := robots[uid := r.(cPosition := Smooth(r.cPosition, cPosition, LAMBDA),
                                 fPosition := Smooth(r.fPosition, fPosition, LAMBDA))];
      ok := true;
    }
  }

  // ---------------------------------------------------------------- properties of Dispatch

  /** A datagram shorter than the tag is dropped. */
  lemma ShortDatagramDropped(registry: Registry, data: seq<uint8>, from: Addr)
    requires |data| < 4
    ensures Dispatch(registry, data, from) == NoEffect(registry)
  {
  }

  /** Tags other than Heartbeat, TextMessage and WhoAmI change nothing. */
  lemma UnknownTagIgnored(registry: Registry, data: seq<uint8>, from: Addr)
    requires |data| >= 4 && Tag(data) !in {HEARTBEAT_ID, TEXT_MESSAGE_ID, WHO_AM_I_ID}
    ensures Dispatch(registry, data, from) == NoEffect(registry)
  {
  }

  /** A tag that matches but a datagram shorter than that message is dropped. */
  lemma TruncatedMessageDropped(registry: Registry, data: seq<uint8>, from: Addr)
    requires |data| >= 4
    requires (Tag(data) == HEARTBEAT_ID && |data| < HEARTBEAT_SIZE)
          || (Tag(data) == TEXT_MESSAGE_ID && |data| < TEXT_MESSAGE_SIZE)
          || (Tag(data) == WHO_AM_I_ID && |data| < WHO_AM_I_SIZE)
    ensures Dispatch(registry, data, from) == NoEffect(registry)
  {
  }

  /** A TextMessage never registers and never sends. */
  lemma TextMessageHasNoEffect(registry: Registry, data: seq<uint8>, from: Addr)
    requires |data| >= 4 && Tag(data) == TEXT_MESSAGE_ID
    ensures Dispatch(registry, data, from) == NoEffect(registry)
  {
  }

  /**
   * A heartbeat leaves the registry alone; it is answered with exactly one
   * 4-byte RequestWhoAmI to its sender iff its uid is nonzero and unknown.
   */
  lemma HeartbeatDiscovery(registry: Registry, data: seq<uint8>, from: Addr)
    requires |data| >= HEARTBEAT_SIZE && Tag(data) == HEARTBEAT_ID
    ensures var e := Dispatch(registry, data, from);
      var uid := data[5];
      && e.registry == registry
      && (uid != 0 && uid !in registry ==> e.sent == [RequestWhoAmIReply(from)])
      && (uid == 0 || uid in registry ==> e.sent == [])
      && forall d | d in e.sent :: d.to == from && |d.payload| == 4
           && BEToUint32(d.payload, 0) == REQUEST_WHO_AM_I_ID
  {
  }

  /** A WhoAmI with uid 0 or a uid without valid colours does nothing. */
  lemma WhoAmIRejected(registry: Registry, data: seq<uint8>, from: Addr)
    requires |data| >= WHO_AM_I_SIZE && Tag(data) == WHO_AM_I_ID
    requires data[4] == 0 || !GetColors(data[4]).valid
    ensures Dispatch(registry, data, from) == NoEffect(registry)
  {
  }

  /**
   * A WhoAmI with a valid uid sends the centre then the front LEDData to its
   * sender, and registers the sender only when the uid is new: an existing
   * entry, with its address, is kept.
   */
  lemma WhoAmIRegisters(registry: Registry, data: seq<uint8>, from: Addr)
    requires |data| >= WHO_AM_I_SIZE && Tag(data) == WHO_AM_I_ID
    requires data[4] != 0 && GetColors(data[4]).valid
    ensures var e := Dispatch(registry, data, from);
      var uid := data[4];
      && e.sent == LEDReplies(GetColors(uid), from)
      && uid in e.registry
      && (uid in registry ==> e.registry == registry)
      && (uid !in registry ==> e.registry == registry[uid := NewUDPRobot(from, uid)])
  {
  }

  /**
   * Over any datagram the registry only grows, existing entries never change,
   * and a new entry is bound to the sender of the datagram that created it.
   */
  lemma {:induction false} DispatchKeepsEntries(registry: Registry, data: seq<uint8>, from: Addr)
    ensures var e := Dispatch(registry, data, from);
      && (forall uid | uid in registry :: uid in e.registry && e.registry[uid] == registry[uid])
      && (forall uid | uid in e.registry && uid !in registry ::
            e.registry[uid] == NewUDPRobot(from, uid) && |data| >= WHO_AM_I_SIZE && data[4] == uid)
  {
  }

  /** Dispatch keeps the registry invariant: only nonzero uids with valid colours are registered. */
  lemma DispatchPreservesValid(registry: Registry, data: seq<uint8>, from: Addr)
    requires RegistryValid(registry)
    ensures RegistryValid(Dispatch(registry, data, from).registry)
  {
  }

  /** Every frame the coordinator sends in reply has the size of its message type. */
  lemma RepliesAreWellFormed(registry: Registry, data: seq<uint8>, from: Addr)
    ensures forall d | d in Dispatch(registry, data, from).sent ::
      d.to == from &&
      ((|d.payload| == REQUEST_WHO_AM_I_SIZE && BEToUint32(d.payload, 0) == REQUEST_WHO_AM_I_ID) ||
       (|d.payload| == LED_DATA_SIZE && BEToUint32(d.payload, 0) == LED_DATA_ID))
  {
  }
}
