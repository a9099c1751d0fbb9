/**
 * Fixed-width integers and the network-byte-order (big-endian) conversions
 * that `htonl`/`ntohl` plus `memcpy` perform on the wire, and the
 * `(uint8_t)`/`(int8_t)` casts between a signed rssi and its byte.
 */
module Bytes {

  type uint8 = x: int | 0 <= x < 0x100
  type int8 = x: int | -0x80 <= x < 0x80
  type uint32 = x: int | 0 <= x < 0x1_0000_0000
  type int32 = x: int | -0x8000_0000 <= x < 0x8000_0000

  /** `(uint8_t)r`: the two's complement byte of a signed 8-bit value. */
  function Int8ToUint8(r: int8): (b: uint8)
    ensures r >= 0 ==> b == r
    ensures r < 0 ==> b >= 0x80
  {
    if r < 0 then r + 0x100 else r
  }

  /** `(int8_t)b`: the signed reading of a byte. */
  function Uint8ToInt8(b: uint8): (r: int8)
    ensures b < 0x80 ==> r == b
    ensures b >= 0x80 ==> r < 0
  {
    if b >= 0x80 then b - 0x100 else b
  }

  lemma Int8RoundTrip(r: int8, b: uint8)
    ensures Uint8ToInt8(Int8ToUint8(r)) == r
    ensures Int8ToUint8(Uint8ToInt8(b)) == b
  {
  }

  /** Two's complement bit pattern of a signed 32-bit value. */
  function Int32ToUint32(v: int32): (u: uint32)
    ensures v >= 0 ==> u == v
    ensures v < 0 ==> u >= 0x8000_0000
  {
    if v < 0 then v + 0x1_0000_0000 else v
  }

  /** The signed value of a 32-bit pattern. */
  function Uint32ToInt32(u: uint32): (v: int32)
    ensures u < 0x8000_0000 ==> v == u
    ensures u >= 0x8000_0000 ==> v < 0
  {
    if u >= 0x8000_0000 then u - 0x1_0000_0000 else u
  }

  lemma Int32RoundTrip(v: int32, u: uint32)
    ensures Uint32ToInt32(Int32ToUint32(v)) == v
    ensures Int32ToUint32(Uint32ToInt32(u)) == u
  {
  }

  /** The four bytes `memcpy` copies out of `htonl(x)`: most significant first. */
  function Uint32ToBE(x: uint32): (r: seq<uint8>)
    ensures |r| == 4
  {
    [x / 0x100_0000, (x / 0x1_0000) % 0x100, (x / 0x100) % 0x100, x % 0x100]
  }

  /** `ntohl` of the four bytes `memcpy` copies from `s[off..off+4]`. */
  function BEToUint32(s: seq<uint8>, off: nat): (x: uint32)
    requires off + 4 <= |s|
  {
    (s[off] as int) * 0x100_0000 + (s[off + 1] as int) * 0x1_0000 + (s[off + 2] as int) * 0x100 + s[off + 3]
  }

  function Int32ToBE(v: int32): (r: seq<uint8>)
    ensures |r| == 4
  {
    Uint32ToBE(Int32ToUint32(v))
  }

  function BEToInt32(s: seq<uint8>, off: nat): (v: int32)
    requires off + 4 <= |s|
  {
    Uint32ToInt32(BEToUint32(s, off))
  }

  /** Reading back the four bytes of `x` gives `x`, wherever they sit. */
  lemma BEUint32RoundTrip(x: uint32, s: seq<uint8>, off: nat)
    requires off + 4 <= |s| && s[off..off + 4] == Uint32ToBE(x)
    ensures BEToUint32(s, off) == x
  {
    var e := Uint32ToBE(x);
    assert s[off] == e[0] && s[off + 1] == e[1] && s[off + 2] == e[2] && s[off + 3] == e[3];
    var q1 := x / 0x100;
    var q2 := q1 / 0x100;
    assert x / 0x1_0000 == q2;
    assert x / 0x100_0000 == q2 / 0x100;
  }

  /** Encoding the value read from four bytes gives those bytes back. */
  lemma BEUint32Canonical(s: seq<uint8>, off: nat)
    requires off + 4 <= |s|
    ensures Uint32ToBE(BEToUint32(s, off)) == s[off..off + 4]
  {
    var x := BEToUint32(s, off);
    var q1: int := (s[off] as int) * 0x1_0000 + (s[off + 1] as int) * 0x100 + s[off + 2];
    assert x == q1 * 0x100 + s[off + 3];
    assert x / 0x100 == q1 && x % 0x100 == s[off + 3];
    var q2: int := (s[off] as int) * 0x100 + s[off + 1];
    assert q1 == q2 * 0x100 + s[off + 2];
    assert q1 / 0x100 == q2 && q1 % 0x100 == s[off + 2];
    assert x / 0x1_0000 == q2 && q2 / 0x100 == s[off] && q2 % 0x100 == s[off + 1];
    assert x / 0x100_0000 == s[off];
  }

  lemma BEInt32RoundTrip(v: int32, s: seq<uint8>, off: nat)
    requires off + 4 <= |s| && s[off..off + 4] == Int32ToBE(v)
    ensures BEToInt32(s, off) == v
  {
    BEUint32RoundTrip(Int32ToUint32(v), s, off);
  }

  /** Two values with the same four bytes are equal: the encoding is injective. */
  lemma BEUint32Injective(x: uint32, y: uint32)
    requires Uint32ToBE(x) == Uint32ToBE(y)
    ensures x == y
  {
    BEUint32RoundTrip(x, Uint32ToBE(x), 0);
    BEUint32RoundTrip(y, Uint32ToBE(y), 0);
  }

  /** The value read at `off` depends only on the four bytes there. */
  lemma BEUint32Local(s: seq<uint8>, off: nat, t: seq<uint8>, off': nat)
    requires off + 4 <= |s| && off' + 4 <= |t|
    requires s[off..off + 4] == t[off'..off' + 4]
    ensures BEToUint32(s, off) == BEToUint32(t, off')
  {
    assert s[off] == t[off'] && s[off + 1] == t[off' + 1];
    assert s[off + 2] == t[off' + 2] && s[off + 3] == t[off' + 3];
  }
}
