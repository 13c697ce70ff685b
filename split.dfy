/**
 * The historical/stream partition of `split_data`: with `n = int(p * len(X))`
 * the historical part is `X[:n]` and the stream is `X[n + 1:]`, so the record
 * at index `n` belongs to neither.
 */
module Split {
  import opened Slices

  /** A fraction in [0, 1] of a non-negative amount lies between 0 and that amount. */
  lemma ScaledWithin(p: real, t: real)
    requires 0.0 <= p <= 1.0 && 0.0 <= t
    ensures 0.0 <= p * t <= t
  {
    assert (1.0 - p) * t >= 0.0;
  }

  /**
   * `int(percentage_historical_data * len(X))`, computed on exact reals: for a
   * percentage in [0, 1] it is the floor of `p * total` and lies in [0, total].
   */
  function HistoricalCount(p: real, total: nat): (n: int)
    ensures 0.0 <= p <= 1.0 ==> 0 <= n <= total && n == (p * total as real).Floor
  {
    if 0.0 <= p <= 1.0 then
      ScaledWithin(p, total as real);
      Truncate(p * total as real)
    else
      Truncate(p * total as real)
  }

  /** The historical part: the first `n` records. */
  function Historical<T>(s: seq<T>, n: int): (r: seq<T>)
    ensures 0 <= n <= |s| ==> r == s[..n]
  {
    Take(s, n)
  }

  /** The stream part: the records from index `n + 1` on. */
  function Stream<T>(s: seq<T>, n: int): (r: seq<T>)
    ensures 0 <= n < |s| ==> r == s[n + 1..]
    ensures n >= |s| ==> r == []
  {
    Drop(s, n + 1)
  }

  /** Lengths of both parts: `n` historical records and `|s| - n - 1` stream records (none when `n == |s|`). */
  lemma SplitLengths<T>(s: seq<T>, p: real)
    requires 0.0 <= p <= 1.0
    ensures var n := HistoricalCount(p, |s|);
      |Historical(s, n)| == n &&
      |Stream(s, n)| == (if n < |s| then |s| - n - 1 else 0)
  {
  }

  /**
   * No reordering and exactly one record lost: when the boundary index exists,
   * historical part, boundary record and stream put back together give the original.
   */
  lemma {:induction false} SplitReassembles<T>(s: seq<T>, p: real)
    requires 0.0 <= p <= 1.0
    requires HistoricalCount(p, |s|) < |s|
    ensures var n := HistoricalCount(p, |s|);
      0 <= n && Historical(s, n) + [s[n]] + Stream(s, n) == s
  {
    var n := HistoricalCount(p, |s|);
    assert s[..n] + [s[n]] == s[..n + 1];
    assert s[..n + 1] + s[n + 1..] == s;
  }

  /** When the count reaches the whole length, everything is historical and the stream is empty. */
  lemma SplitAllHistorical<T>(s: seq<T>, p: real)
    requires 0.0 <= p <= 1.0
    requires HistoricalCount(p, |s|) == |s|
    ensures var n := HistoricalCount(p, |s|); Historical(s, n) == s && Stream(s, n) == []
  {
  }

  /**
   * The edges: with `p == 0` nothing is historical and the first record is the one
   * dropped; with `p == 1` everything is historical and the stream is empty.
   */
  lemma SplitAtEdges<T>(s: seq<T>)
    ensures Historical(s, HistoricalCount(0.0, |s|)) == []
    ensures Stream(s, HistoricalCount(0.0, |s|)) == if s == [] then [] else s[1..]
    ensures Historical(s, HistoricalCount(1.0, |s|)) == s
    ensures Stream(s, HistoricalCount(1.0, |s|)) == []
  {
  }

  /**
   * Features and labels sliced with the same `n` stay row-aligned: equal lengths,
   * and the i-th entries of both parts come from the same original index.
   */
  lemma SplitKeepsAlignment<T, U>(xs: seq<T>, ys: seq<U>, n: int)
    requires |xs| == |ys|
    ensures |Historical(xs, n)| == |Historical(ys, n)|
    ensures |Stream(xs, n)| == |Stream(ys, n)|
    ensures forall i :: 0 <= i < |Historical(xs, n)| ==>
      Historical(xs, n)[i] == xs[i] && Historical(ys, n)[i] == ys[i]
    ensures forall i :: 0 <= i < |Stream(xs, n)| ==>
      var k := |xs| - |Stream(xs, n)| + i;
      Stream(xs, n)[i] == xs[k] && Stream(ys, n)[i] == ys[k]
  {
  }

  /** Ten records at the default percentage 0.2: two historical, one dropped, seven streamed. */
  lemma SplitOfTenRecords<T>(s: seq<T>)
    requires |s| == 10
    ensures HistoricalCount(0.2, |s|) == 2
    ensures |Historical(s, 2)| == 2 && |Stream(s, 2)| == 7
    ensures Historical(s, 2) + [s[2]] + Stream(s, 2) == s
  {
    SplitReassembles(s, 0.2);
  }
}
