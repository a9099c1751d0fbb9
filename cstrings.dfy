/** NUL-terminated C strings held in byte sequences: `strlen` and what it delimits. */
module CStrings {
  import opened Bytes

  function Zeros(n: nat): (z: seq<uint8>)
    ensures |z| == n && forall i | 0 <= i < n :: z[i] == 0
  {
    seq(n, _ => 0)
  }

  /** `strlen`: the index of the first NUL, or the whole length when there is none. */
  function StrLen(s: seq<uint8>): (n: nat)
    ensures n <= |s|
    ensures forall i | 0 <= i < n :: s[i] != 0
    ensures n < |s| ==> s[n] == 0
  {
    if |s| == 0 || s[0] == 0 then 0 else 1 + StrLen(s[1..])
  }

  /** The text a C string holds: its bytes before the first NUL. */
  function CString(s: seq<uint8>): seq<uint8>
  {
    s[..StrLen(s)]
  }

  /** The scan stops at the same place in a prefix as in the whole, unless it is cut off. */
  lemma StrLenPrefix(s: seq<uint8>, n: nat)
    requires n <= |s|
    ensures StrLen(s[..n]) == if StrLen(s) < n then StrLen(s) else n
  {
    if StrLen(s) < n {
      assert s[..n][StrLen(s)] == 0;
    }
  }
}
