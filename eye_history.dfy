/**
 * The per-eye gap history of the blink detector: a newest-first list of
 * earlier eye gaps holding at most ten entries, and the mean it is
 * compared against.
 */
module EyeHistory {

  /** Number of gaps a history keeps (the new gap plus nine older ones). */
  const Capacity: nat := 10

  /** A history as the detector keeps it: never empty and never over capacity. */
  predicate Bounded(h: seq<real>)
  {
    1 <= |h| <= Capacity
  }

  /** `h.reduce((a, c) => a + c)`: the sum, accumulated from the front. */
  function Sum(h: seq<real>): real
  {
    if h == [] then 0.0 else Sum(h[..|h| - 1]) + h[|h| - 1]
  }

  /** The mean gap of a non-empty history. */
  function Mean(h: seq<real>): real
    requires |h| > 0
  {
    Sum(h) / |h| as real
  }

  /** A sum of values between `lo` and `hi` lies between `|h| * lo` and `|h| * hi`. */
  lemma {:induction false} SumBounds(h: seq<real>, lo: real, hi: real)
    requires forall i :: 0 <= i < |h| ==> lo <= h[i] <= hi
    ensures |h| as real * lo <= Sum(h) <= |h| as real * hi
  {
    if h != [] {
      var init := h[..|h| - 1];
      assert forall i :: 0 <= i < |init| ==> init[i] == h[i];
      SumBounds(init, lo, hi);
      assert |h| as real * lo == |init| as real * lo + lo;
      assert |h| as real * hi == |init| as real * hi + hi;
    }
  }

  /** The mean of a history lies between any bounds of its entries. */
  lemma MeanBounds(h: seq<real>, lo: real, hi: real)
    requires |h| > 0
    requires forall i :: 0 <= i < |h| ==> lo <= h[i] <= hi
    ensures lo <= Mean(h) <= hi
  {
    SumBounds(h, lo, hi);
    var n := |h| as real;
    assert Sum(h) / n >= (n * lo) / n;
    assert Sum(h) / n <= (n * hi) / n;
  }

  /** A history whose entries all equal `c` has mean `c`. */
  lemma MeanOfConstant(h: seq<real>, c: real)
    requires |h| > 0
    requires forall i :: 0 <= i < |h| ==> h[i] == c
    ensures Mean(h) == c
  {
    MeanBounds(h, c, c);
  }

  /**
   * The average gap of a history, folded left to right as `reduce`
   * does (starting from the first entry), then divided by the length.
   */
  method AverageGap(h: seq<real>) returns (avg: real)
    requires |h| > 0
    ensures avg == Mean(h)
  {
    var acc := h[0];
    assert h[..1] == [h[0]];
    var i := 1;
    while i < |h|
      invariant 1 <= i <= |h|
      invariant acc == Sum(h[..i])
    {
      assert h[..i + 1][..i] == h[..i];
      acc := acc + h[i];
      i := i + 1;
    }
    assert h[..|h|] == h;
    avg := acc / |h| as real;
  }

  /** `s.slice(0, n)`: the first `n` entries, or all of `s` when it is shorter. */
  function Take<T>(s: seq<T>, n: nat): (r: seq<T>)
    ensures |r| == if |s| <= n then |s| else n
    ensures r == s[..|r|]
  {
    if |s| <= n then s else s[..n]
  }

  /** Truncating twice to `n` is the same as truncating the concatenation. */
  lemma TakeAppendTake<T>(p: seq<T>, q: seq<T>, n: nat)
    ensures Take(p + Take(q, n), n) == Take(p + q, n)
  {
    var lhs, rhs := Take(p + Take(q, n), n), Take(p + q, n);
    assert |lhs| == |rhs|;
    forall i | 0 <= i < |lhs|
      ensures lhs[i] == rhs[i]
    {
      if i >= |p| {
        assert lhs[i] == Take(q, n)[i - |p|];
      }
    }
  }

  /**
   * `[gap, ...h.slice(0, Capacity - 1)]`: the new gap in front, followed
   * by at most nine older gaps. The result is the newest `Capacity`
   * entries of the history with the gap pushed on.
   */
  function Push(h: seq<real>, gap: real): (r: seq<real>)
    ensures r == Take([gap] + h, Capacity)
    ensures Bounded(r) && r[0] == gap
    ensures r[1..] == Take(h, Capacity - 1)
  {
    var r := [gap] + Take(h, Capacity - 1);
    assert r[1..] == Take(h, Capacity - 1);
    r
  }
}
