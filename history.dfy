/**
 * The bounded history of robotpc/circular_buffer.hpp: a deque of at most `n`
 * elements, newest at the front.  Inserting evicts from the back until there
 * is room, then pushes the new element to the front.
 */
module History {

  function Min(a: int, b: int): int { if a < b then a else b }

  /** The contents after inserting `x` into `items` with capacity `n`. */
  function Inserted<T>(items: seq<T>, n: int, x: T): (r: seq<T>)
    requires n >= 1
    ensures |r| == if |items| >= n then n else |items| + 1
    ensures r[0] == x
    ensures r[1..] == items[..|r| - 1]
  {
    [x] + items[..Min(|items|, n - 1)]
  }

  /** The contents after inserting every element of `xs`, first to last. */
  function InsertAll<T>(items: seq<T>, n: int, xs: seq<T>): seq<T>
    requires n >= 1
    decreases |xs|
  {
    if xs == [] then items else InsertAll(Inserted(items, n, xs[0]), n, xs[1..])
  }

  function Reverse<T>(s: seq<T>): (r: seq<T>)
    ensures |r| == |s|
    ensures forall i | 0 <= i < |s| :: r[i] == s[|s| - 1 - i]
  {
    if s == [] then [] else Reverse(s[1..]) + [s[0]]
  }

  class CircularBuffer<T> {
    const n: int
    var items: seq<T>

    /** `CircularBuffer(N)`: `N` default-constructed elements. */
    constructor (n: int, default: T)
      requires n >= 0
      ensures this.n == n && items == seq(n, _ => default)
    {
      this.n := n;
      items := seq(n, _ => default);
    }

    /** `insert`: pop from the back while full, then push `x` at the front. */
    method Insert(x: T)
      requires n >= 1
      modifies this
      ensures items == Inserted(old(items), n, x)
    {
      while |items| >= n
        invariant |items| <= |old(items)|
        invariant items == old(items)[..|items|]
        invariant |old(items)| >= n ==> |items| >= n - 1
        invariant |old(items)| < n ==> |items| == |old(items)|
        decreases |items|
      {
        items := items[..|items| - 1];
      }
      items := [x] + items;
    }
  }

  /** From a full buffer, any run of inserts keeps exactly `n` elements. */
  lemma {:induction false} InsertAllKeepsSize<T>(items: seq<T>, n: int, xs: seq<T>)
    requires n >= 1 && |items| == n
    ensures |InsertAll(items, n, xs)| == n
    decreases |xs|
  {
    if xs != [] {
      InsertAllKeepsSize(Inserted(items, n, xs[0]), n, xs[1..]);
    }
  }

  /**
   * From a full buffer, the contents are the newest `n` of everything ever
   * inserted, newest first, followed by the initial elements.
   */
  lemma {:induction false} InsertAllKeepsNewest<T>(items: seq<T>, n: int, xs: seq<T>)
    requires n >= 1 && |items| == n
    ensures InsertAll(items, n, xs) == (Reverse(xs) + items)[..n]
    decreases |xs|
  {
    if xs == [] {
    } else {
      var next := Inserted(items, n, xs[0]);
      InsertAllKeepsNewest(next, n, xs[1..]);
      assert Reverse(xs) == Reverse(xs[1..]) + [xs[0]];
      var a := Reverse(xs[1..]);
      assert next == ([xs[0]] + items)[..n];
      assert (a + next)[..n] == (a + ([xs[0]] + items))[..n] by {
        forall i | 0 <= i < n
          ensures (a + next)[i] == (a + ([xs[0]] + items))[i]
        {
          if i >= |a| {
            assert (a + next)[i] == next[i - |a|];
          }
        }
      }
      assert a + ([xs[0]] + items) == Reverse(xs) + items;
    }
  }
}
