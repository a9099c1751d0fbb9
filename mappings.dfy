/**
 * The static uid -> LED colour table of robotpc/Mappings.hpp.  A robot's
 * identification colours are the LEDData frames the coordinator pushes to it;
 * the HSV bands are what the camera looks for.
 */
module Mappings {
  import opened Bytes
  import opened Messages

  /** `cv::Vec3b`: an HSV triple. */
  datatype Hsv = Hsv(h: uint8, s: uint8, v: uint8)

  datatype RobotLEDColors = RobotLEDColors(
    center: LEDData, front: LEDData,
    centerLow: Hsv, centerHigh: Hsv,
    frontLow: Hsv, frontHigh: Hsv,
    valid: bool)

  const BLACK: LEDData := LEDData(0, 0, 0, 0, RGB)

  /** The entry `getColors` returns for a uid outside the table. */
  const INVALID_COLORS: RobotLEDColors :=
    RobotLEDColors(BLACK, BLACK, Hsv(0, 0, 0), Hsv(0, 0, 0), Hsv(0, 0, 0), Hsv(0, 0, 0), false)

  const UID_TO_ROBOT_COLORS: map<uint8, RobotLEDColors> := map[
    1 := RobotLEDColors(
      LEDData(8, 0, 0, 255, RGB), LEDData(3, 0, 30, 0, RGB),
      Hsv(90, 100, 190), Hsv(130, 255, 255),
      Hsv(160, 60, 120), Hsv(200, 255, 255),
      true)
  ]

  /** Every entry of the table is marked valid. */
  ghost predicate TableValid(table: map<uint8, RobotLEDColors>)
  {
    forall uid | uid in table :: table[uid].valid
  }

  lemma TableIsValid()
    ensures TableValid(UID_TO_ROBOT_COLORS)
  {
  }

  /** `getColors`: the table's entry, or the all-zero invalid entry for an unknown uid. */
  function GetColors(uid: uint8): (c: RobotLEDColors)
    ensures c.valid <==> uid in UID_TO_ROBOT_COLORS
    ensures uid in UID_TO_ROBOT_COLORS ==> c == UID_TO_ROBOT_COLORS[uid]
    ensures !c.valid ==> c.center == BLACK && c.front == BLACK
  {
    if uid in UID_TO_ROBOT_COLORS then UID_TO_ROBOT_COLORS[uid] else INVALID_COLORS
  }

  /** The smallest element of a non-empty set of uids. */
  ghost function Least(s: set<uint8>): (m: uint8)
    requires s != {}
    ensures m in s && forall x | x in s :: m <= x
    decreases |s|
  {
    var x :| x in s;
    if s - {x} == {} then
      assert forall y | y in s :: y in s - {x} || y == x;
      x
    else
      var m' := Least(s - {x});
      assert forall y | y in s :: y in s - {x} || y == x;
      if x < m' then x else m'
  }

  /**
   * `getAllUIDs`: the table's keys in the order a `std::map` visits them,
   * ascending, each exactly once.
   */
  method GetAllUIDs() returns (uids: seq<uint8>)
    ensures forall i, j | 0 <= i < j < |uids| :: uids[i] < uids[j]
    ensures forall u :: u in uids <==> u in UID_TO_ROBOT_COLORS
    ensures forall i | 0 <= i < |uids| :: GetColors(uids[i]).valid
  {
    uids := [];
    var remaining := UID_TO_ROBOT_COLORS.Keys;
    while remaining != {}
      invariant remaining <= UID_TO_ROBOT_COLORS.Keys
      invariant forall u :: u in uids <==> u in UID_TO_ROBOT_COLORS && u !in remaining
      invariant forall i, j | 0 <= i < j < |uids| :: uids[i] < uids[j]
      invariant forall i, u | 0 <= i < |uids| && u in remaining :: uids[i] < u
      decreases remaining
    {
      ghost var least := Least(remaining);
      var next :| next in remaining && forall u | u in remaining :: next <= u;
      uids := uids + [next];
      remaining := remaining - {next};
    }
  }
}
