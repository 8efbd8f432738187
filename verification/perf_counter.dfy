/**
 * `PerfCounter` of MyStrategy.cpp (lines 28-57): the rolling average of the
 * last sixteen timings, kept in a ring buffer with a running sum.
 *
 * The ghost field `pushed` records every value ever pushed; the invariant
 * says that the buffer holds the most recent `size` of them and that `sum`
 * is their sum.
 */
module Perf {

  /** `bufferSize`. */
  const BufferSize: int := 16

  /** The sum of a sequence of timings. */
  function Sum(s: seq<int>): int
  {
    if s == [] then 0 else s[0] + Sum(s[1..])
  }

  /** Appending a value adds it to the sum. */
  lemma {:induction false} SumAppend(s: seq<int>, t: int)
    ensures Sum(s + [t]) == Sum(s) + t
  {
    if s != [] {
      assert (s + [t])[1..] == s[1..] + [t];
      SumAppend(s[1..], t);
    }
  }

  /** Every value of `s` lies in `[lo, hi]`. */
  ghost predicate Within(s: seq<int>, lo: int, hi: int)
  {
    forall k :: 0 <= k < |s| ==> lo <= s[k] <= hi
  }

  /** The sum of values in `[lo, hi]` lies between `|s| * lo` and `|s| * hi`. */
  lemma {:induction false} SumBounded(s: seq<int>, lo: int, hi: int)
    requires Within(s, lo, hi)
    ensures |s| * lo <= Sum(s) <= |s| * hi
  {
    if s != [] {
      assert Within(s[1..], lo, hi);
      SumBounded(s[1..], lo, hi);
      assert |s| * lo == lo + |s[1..]| * lo;
      assert |s| * hi == hi + |s[1..]| * hi;
    }
  }

  /** C++ integer division of `a` by a positive `b`: the quotient truncated toward zero. */
  function TruncDiv(a: int, b: int): (q: int)
    requires 0 < b
    ensures 0 <= a ==> q * b <= a < q * b + b
    ensures a < 0 ==> q * b - b < a <= q * b
  {
    if 0 <= a then a / b else -((-a) / b)
  }

  /** What `get` computes from a window of timings: their sum divided by their number. */
  function Average(w: seq<int>): int
    requires w != []
  {
    TruncDiv(Sum(w), |w|)
  }

  /** The average of a window lies between its smallest and its largest value. */
  lemma AverageBounded(w: seq<int>, lo: int, hi: int)
    requires w != [] && Within(w, lo, hi)
    ensures lo <= Average(w) <= hi
  {
    SumBounded(w, lo, hi);
    QuotientBounded(Sum(w), |w|, lo, hi);
  }

  lemma QuotientBounded(a: int, n: int, lo: int, hi: int)
    requires 0 < n && n * lo <= a <= n * hi
    ensures lo <= TruncDiv(a, n) <= hi
  {
    var q := TruncDiv(a, n);
    var qn := q * n;
    assert n * (q + 1) == qn + n && n * (q - 1) == qn - n && n * q == qn;
    assert n * (hi + 1) == n * hi + n;
    if 0 <= a {
      MulCancelLess(n, lo, q + 1);
      MulCancelLess(n, q, hi + 1);
    } else {
      MulCancelLess(n, lo, q + 1);
      MulCancelLess(n, q - 1, hi);
    }
  }

  lemma MulCancelLess(n: int, x: int, y: int)
    requires 0 < n && n * x < n * y
    ensures x < y
  {
    if y <= x {
      MulMonotone(n, y, x);
    }
  }

  lemma MulMonotone(n: int, x: int, y: int)
    requires 0 < n && x <= y
    ensures n * x <= n * y
  {
    var d := y - x;
    var nd := n * d;
    assert n * y == n * x + nd;
  }

  /** The last `n` values of `s`, or all of them when there are fewer. */
  function Recent(s: seq<int>, n: nat): (r: seq<int>)
    ensures |r| == if |s| < n then |s| else n
  {
    if |s| < n then s else s[|s| - n..]
  }

  /** The `k`-th most recent value of `s` (`k == 0` is the last one). */
  function Back(s: seq<int>, k: int): int
    requires 0 <= k < |s|
  {
    s[|s| - 1 - k]
  }

  /** The ring slot holding the `k`-th most recent value when the next write goes to `index`. */
  function Slot(index: int, k: int): int
  {
    (index - 1 - k) % BufferSize
  }

  /**
   * The ring `b`, whose next write goes to `index`, holds the `n` most recent
   * values of `p`: the `k`-th most recent one sits `k + 1` slots behind `index`.
   */
  ghost predicate RingHolds(b: seq<int>, index: int, n: int, p: seq<int>)
  {
    |b| == BufferSize && 0 <= n <= |p| &&
    forall k :: 0 <= k < n ==> b[Slot(index, k)] == Back(p, k)
  }

  class PerfCounter
  {
    const buffer: array<int>
    var sum: int
    var index: int
    var size: int
    ghost var pushed: seq<int>

    /** The most recent `size` timings, oldest first. */
    ghost function Window(): seq<int>
      reads this
    {
      Recent(pushed, BufferSize)
    }

    ghost predicate Valid()
      reads this, buffer
    {
      buffer.Length == BufferSize &&
      0 <= index < BufferSize &&
      size == |Window()| &&
      index == |pushed| % BufferSize &&
      RingHolds(buffer[..], index, size, pushed) &&
      sum == Sum(Window())
    }

    /** The zero-initialised counter. */
    constructor ()
      ensures Valid() && pushed == [] && size == 0
    {
      buffer := new int[BufferSize](_ => 0);
      sum, index, size := 0, 0, 0;
      pushed := [];
    }

    /**
     * `push(time)`: count one more value while fewer than sixteen are held,
     * otherwise subtract the value in the slot about to be overwritten; then
     * add `time`, store it and advance the index cyclically.
     */
    method Push(time: int)
      requires Valid()
      modifies this, buffer
      ensures Valid() && pushed == old(pushed) + [time]
      ensures size == if old(size) < BufferSize then old(size) + 1 else BufferSize
    {
      ghost var w := Window();
      if size < BufferSize {
        size := size + 1;
      } else {
        assert buffer[index] == w[0] by {
          assert Slot(index, BufferSize - 1) == index;
          assert buffer[..][Slot(index, BufferSize - 1)] == Back(pushed, BufferSize - 1) == w[0];
        }
        sum := sum - buffer[index];
      }
      sum := sum + time;
      buffer[index] := time;
      index := (index + 1) % BufferSize;
      pushed := pushed + [time];
      WindowAfterPush(old(pushed), time, w);
      SumAppend(if |w| < BufferSize then w else w[1..], time);
      assert sum == Sum(Window());
      NextIndex(|old(pushed)|);
      assert index == |pushed| % BufferSize;
      SlotsAfterPush(old(pushed), time, old(index), old(buffer[..]), buffer[..], old(size));
    }

    /** `get()`: the average of the window, for a counter that has been pushed to. */
    function Get(): (r: int)
      reads this, buffer
      requires Valid() && 0 < size
      ensures r == Average(Window())
    {
      TruncDiv(sum, size)
    }
  }

  lemma NextIndex(p: nat)
    ensures (p % BufferSize + 1) % BufferSize == (p + 1) % BufferSize
  {
  }

  /** Pushing `t` drops the oldest value once sixteen are held and appends `t`. */
  lemma WindowAfterPush(p: seq<int>, t: int, w: seq<int>)
    requires w == Recent(p, BufferSize)
    ensures Recent(p + [t], BufferSize) == (if |w| < BufferSize then w else w[1..]) + [t]
  {
  }

  /** The slots of the ring after the write at `i` still hold the most recent values. */
  lemma SlotsAfterPush(p: seq<int>, t: int, i: int, before: seq<int>, after: seq<int>, n: int)
    requires 0 <= i < BufferSize && n <= BufferSize
    requires RingHolds(before, i, n, p)
    requires after == before[i := t]
    ensures RingHolds(after, (i + 1) % BufferSize, if n < BufferSize then n + 1 else BufferSize, p + [t])
  {
    var q, m := p + [t], if n < BufferSize then n + 1 else BufferSize;
    forall k | 0 <= k < m
      ensures after[Slot((i + 1) % BufferSize, k)] == Back(q, k)
    {
      if k == 0 {
        assert Slot((i + 1) % BufferSize, 0) == i;
      } else {
        assert Slot((i + 1) % BufferSize, k) == Slot(i, k - 1);
        assert Slot(i, k - 1) != i;
        assert Back(q, k) == Back(p, k - 1);
      }
    }
  }
}
