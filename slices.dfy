/**
 * Python's slice notation `s[lo:hi]` and its `int()` conversion of a float,
 * which together decide where the loader cuts its dataset.
 */
module Slices {

  /** `int(x)` on a float: truncation toward zero. */
  function Truncate(x: real): (r: int)
    ensures 0.0 <= x ==> r as real <= x < r as real + 1.0
    ensures x < 0.0 ==> r as real - 1.0 < x <= r as real
    ensures 0.0 <= x ==> r == x.Floor
  {
    if x >= 0.0 then x.Floor else -((-x).Floor)
  }

  /**
   * The position a slice bound `i` stands for in a sequence of length `len`:
   * a negative bound counts from the end, and the result is clamped to [0, len].
   */
  function Bound(len: nat, i: int): (b: nat)
    ensures b <= len
    ensures 0 <= i <= len ==> b == i
    ensures len < i ==> b == len
    ensures i + len < 0 ==> b == 0
    ensures i < 0 <= i + len ==> b == len + i
  {
    if i < 0 then (if len + i < 0 then 0 else len + i)
    else if len < i then len
    else i
  }

  /** `s[lo:hi]`: the elements from the bound of `lo` up to the bound of `hi`, empty when they cross. */
  function Slice<T>(s: seq<T>, lo: int, hi: int): (r: seq<T>)
    ensures |r| <= |s| - Bound(|s|, lo)
    ensures |r| == if Bound(|s|, lo) <= Bound(|s|, hi) then Bound(|s|, hi) - Bound(|s|, lo) else 0
    ensures 0 <= lo <= hi <= |s| ==> r == s[lo..hi]
    ensures r == s[Bound(|s|, lo)..Bound(|s|, lo) + |r|]
  {
    var a, b := Bound(|s|, lo), Bound(|s|, hi);
    if a <= b then s[a..b] else []
  }

  /** `s[:stop]` */
  function Take<T>(s: seq<T>, stop: int): (r: seq<T>)
    ensures |r| == Bound(|s|, stop)
    ensures r == s[..|r|]
  {
    Slice(s, 0, stop)
  }

  /** `s[start:]` */
  function Drop<T>(s: seq<T>, start: int): (r: seq<T>)
    ensures |r| == |s| - Bound(|s|, start)
    ensures r == s[|s| - |r|..]
  {
    Slice(s, start, |s|)
  }

  /** `s[-1]`: the last element. */
  function Last<T>(s: seq<T>): T
    requires |s| > 0
  {
    s[|s| - 1]
  }
}
