/** The clock-offset estimator: four-timestamp probes reduced to a median offset
    and its spread (apps/client/src/drift/useClockSkew.ts:68-115). */
module ClockSkew {
  import opened Wrappers
  import opened Sorting

  const MAX_RTT_MS: int := 500

  datatype Probe = Probe(t0: int, t3: int, server: int)

  datatype Measurement = Measurement(skewMs: Option<int>, jitterMs: Option<int>, used: nat, rejected: nat)

  predicate Accepted(p: Probe) {
    0 <= p.t3 - p.t0 <= MAX_RTT_MS
  }

  /** The midpoint is floored, as `/` by a positive divisor is. */
  function Offset(p: Probe): int {
    p.server - (p.t0 + p.t3) / 2
  }

  function Offsets(ps: seq<Probe>): seq<int> {
    if ps == [] then []
    else Offsets(ps[..|ps| - 1]) + if Accepted(ps[|ps| - 1]) then [Offset(ps[|ps| - 1])] else []
  }

  /** The floored median of a sorted list. */
  function Median(xs: seq<int>): int
    requires xs != []
  {
    var mid := |xs| / 2;
    if |xs| % 2 == 1 then xs[mid] else (xs[mid - 1] + xs[mid]) / 2
  }

  function SumSquares(xs: seq<int>, mean: int): nat {
    if xs == [] then 0
    else
      var d := xs[|xs| - 1] - mean;
      SquareNonNegative(d);
      SumSquares(xs[..|xs| - 1], mean) + d * d
  }

  lemma SquareNonNegative(d: int)
    ensures d * d >= 0
  {}

  /** `j` is `Math.round(Math.sqrt(sum / n))`, in exact arithmetic. */
  ghost predicate IsRoundedRoot(j: nat, sum: nat, n: nat) {
    && 4 * sum < (2 * j + 1) * (2 * j + 1) * n
    && (j > 0 ==> (2 * j - 1) * (2 * j - 1) * n <= 4 * sum)
  }

  method RoundedRoot(sum: nat, n: nat) returns (j: nat)
    requires n > 0
    ensures IsRoundedRoot(j, sum, n)
  {
    j := 0;
    while (2 * j + 1) * (2 * j + 1) * n <= 4 * sum
      invariant j > 0 ==> (2 * j - 1) * (2 * j - 1) * n <= 4 * sum
      decreases sum - j
    {
      RootBound(j, sum, n);
      j := j + 1;
    }
  }

  lemma RootBound(j: nat, sum: nat, n: nat)
    requires n > 0 && (2 * j + 1) * (2 * j + 1) * n <= 4 * sum
    ensures j < sum
  {
    var s := (2 * j + 1) * (2 * j + 1);
    assert s == 4 * (j * j) + 4 * j + 1;
    assert j * j >= 0;
    assert s * n >= s * 1;
  }

  ghost function SkewOf(ps: seq<Probe>): Option<int> {
    SortSorts(Offsets(ps));
    if Offsets(ps) == [] then None else Some(Median(Sort(Offsets(ps))))
  }

  /** The first loop: offsets of the accepted probes, and how many were rejected. */
  method CollectOffsets(ps: seq<Probe>) returns (offsets: seq<int>, rejected: nat)
    ensures offsets == Offsets(ps) && |offsets| + rejected == |ps|
  {
    offsets, rejected := [], 0;
    var i := 0;
    while i < |ps|
      invariant i <= |ps| && offsets == Offsets(ps[..i]) && |offsets| + rejected == i
    {
      assert ps[..i + 1][..i] == ps[..i];
      var rtt := ps[i].t3 - ps[i].t0;
      if rtt < 0 || rtt > MAX_RTT_MS {
        rejected := rejected + 1;
      } else {
        offsets := offsets + [ps[i].server - (ps[i].t0 + ps[i].t3) / 2];
      }
      i := i + 1;
    }
    assert ps[..i] == ps;
  }

  /** The second loop. */
  method SquaredDeviations(xs: seq<int>, mean: int) returns (sumSq: nat)
    ensures sumSq == SumSquares(xs, mean)
  {
    sumSq := 0;
    var i := 0;
    while i < |xs|
      invariant i <= |xs| && sumSq == SumSquares(xs[..i], mean)
    {
      assert xs[..i + 1][..i] == xs[..i];
      var d := xs[i] - mean;
      SquareNonNegative(d);
      sumSq := sumSq + d * d;
      i := i + 1;
    }
    assert xs[..i] == xs;
  }

  method ComputeSkewJitter(ps: seq<Probe>) returns (m: Measurement)
    ensures m.skewMs == SkewOf(ps)
    ensures m.used == |Offsets(ps)| && m.used + m.rejected == |ps|
    ensures m.jitterMs.Some? <==> m.used >= 2
    ensures m.jitterMs.Some? ==>
              m.jitterMs.value >= 0 && IsRoundedRoot(m.jitterMs.value, SumSquares(Sort(Offsets(ps)), SkewOf(ps).value), m.used)
  {
    hide Sort, SumSquares, IsRoundedRoot, Median;
    if |ps| == 0 {
      return Measurement(None, None, 0, 0);
    }
    var offsets, rejected := CollectOffsets(ps);
    if |offsets| == 0 {
      return Measurement(None, None, 0, rejected);
    }
    SortSorts(offsets);
    var sorted := Sort(offsets);
    var skew := Median(sorted);
    if |sorted| < 2 {
      return Measurement(Some(skew), None, |sorted|, rejected);
    }
    var sumSq := SquaredDeviations(sorted, skew);
    var jitter := RoundedRoot(sumSq, |sorted|);
    return Measurement(Some(skew), Some(jitter), |sorted|, rejected);
  }

  // ----- accuracy -----

  /** The server stamped the probe at local time `at`, between sending and
      receiving, with a clock ahead of the local one by `theta`. */
  ghost predicate Honest(p: Probe, theta: int) {
    p.t0 + theta <= p.server <= p.t3 + theta
  }

  lemma {:induction false} OffsetsNear(ps: seq<Probe>, theta: int)
    requires forall i :: 0 <= i < |ps| && Accepted(ps[i]) ==> Honest(ps[i], theta)
    ensures forall i :: 0 <= i < |Offsets(ps)| ==> theta - 250 <= Offsets(ps)[i] <= theta + 250
  {
    if ps != [] {
      OffsetsNear(ps[..|ps| - 1], theta);
    }
  }

  /** With a constant true offset and non-negative delays the estimate is within
      250 ms of the truth, whatever the rejected probes say. */
  lemma SkewAccuracy(ps: seq<Probe>, theta: int)
    requires forall i :: 0 <= i < |ps| && Accepted(ps[i]) ==> Honest(ps[i], theta)
    ensures SkewOf(ps).Some? ==> theta - 250 <= SkewOf(ps).value <= theta + 250
  {
    OffsetsNear(ps, theta);
    SortSorts(Offsets(ps));
    SortMembers(Offsets(ps));
    hide Sort, Offsets;
    assert forall i :: 0 <= i < |Sort(Offsets(ps))| ==> Sort(Offsets(ps))[i] in Offsets(ps);
  }

  lemma {:induction false} SumSquaresBound(xs: seq<int>, mean: int, r: int)
    requires r >= 0
    requires forall i :: 0 <= i < |xs| ==> -r <= xs[i] - mean <= r
    ensures SumSquares(xs, mean) <= r * r * |xs|
  {
    if xs != [] {
      var n := |xs| - 1;
      SumSquaresBound(xs[..n], mean, r);
      SquareBound(xs[n] - mean, r);
      assert r * r * |xs| == r * r * n + r * r;
    }
  }

  lemma SquareBound(d: int, r: int)
    requires 0 <= r && -r <= d <= r
    ensures d * d <= r * r
  {
    assert (r - d) * (r + d) >= 0;
    assert (r - d) * (r + d) == r * r - d * d;
  }

  lemma DeviationsNear(ps: seq<Probe>, theta: int)
    requires forall i :: 0 <= i < |ps| && Accepted(ps[i]) ==> Honest(ps[i], theta)
    requires SkewOf(ps).Some?
    ensures forall i :: 0 <= i < |Sort(Offsets(ps))| ==> -500 <= Sort(Offsets(ps))[i] - SkewOf(ps).value <= 500
  {
    hide Sort, Offsets, Honest, Accepted, Median;
    SkewAccuracy(ps, theta);
    OffsetsNear(ps, theta);
    SortMembers(Offsets(ps));
    assert forall i :: 0 <= i < |Sort(Offsets(ps))| ==> Sort(Offsets(ps))[i] in Offsets(ps);
  }

  /** Under the same assumption the reported spread never exceeds 500 ms. */
  lemma JitterBound(ps: seq<Probe>, theta: int, j: nat)
    requires forall i :: 0 <= i < |ps| && Accepted(ps[i]) ==> Honest(ps[i], theta)
    requires SkewOf(ps).Some? && IsRoundedRoot(j, SumSquares(Sort(Offsets(ps)), SkewOf(ps).value), |Offsets(ps)|)
    ensures j <= 500
  {
    SkewFromOffsets(ps);
    hide Sort, Offsets, SumSquares, IsRoundedRoot, Honest, Accepted, SkewOf;
    DeviationsNear(ps, theta);
    SumSquaresBound(Sort(Offsets(ps)), SkewOf(ps).value, 500);
    RootSmall(j, SumSquares(Sort(Offsets(ps)), SkewOf(ps).value), |Offsets(ps)|);
  }

  lemma SkewFromOffsets(ps: seq<Probe>)
    ensures SkewOf(ps).Some? ==> |Sort(Offsets(ps))| == |Offsets(ps)| > 0
  {
    SortSorts(Offsets(ps));
  }

  lemma RootSmall(j: nat, sum: nat, n: nat)
    requires n > 0 && sum <= 500 * 500 * n && IsRoundedRoot(j, sum, n)
    ensures j <= 500
  {
    RootGrows(j, n);
  }

  lemma RootGrows(j: nat, n: nat)
    ensures j > 500 && n > 0 ==> (2 * j - 1) * (2 * j - 1) * n > 4 * (500 * 500 * n)
  {
    if j > 500 && n > 0 {
      var k := 2 * j - 1;
      assert (k - 1001) * (k + 1001) >= 0;
      assert k * k >= 1001 * 1001;
      assert k * k * n >= 1001 * 1001 * n;
    }
  }

  // ----- exactness -----

  /** The error of one probe is half the difference of its two delays, rounded up. */
  lemma OffsetError(p: Probe, theta: int, out: nat, back: nat)
    requires p.server == p.t0 + out + theta && p.t3 == p.t0 + out + back
    ensures 0 <= 2 * (Offset(p) - theta) - (out - back) <= 1
    ensures out == back ==> Offset(p) == theta
  {}

  /** Probes are judged one by one: used exactly if the round trip took 0 to 500 ms. */
  lemma {:induction false} ProbesJudged(ps: seq<Probe>, qs: seq<Probe>, p: Probe)
    ensures Offsets(ps + qs) == Offsets(ps) + Offsets(qs)
    ensures Offsets([p]) == if 0 <= p.t3 - p.t0 <= 500 then [Offset(p)] else []
    decreases |qs|
  {
    assert [p][..0] == [];
    if qs == [] {
      assert ps + qs == ps;
    } else {
      ProbesJudged(ps, qs[..|qs| - 1], p);
      assert (ps + qs)[..|ps + qs| - 1] == ps + qs[..|qs| - 1];
    }
  }

  /** The median is the middle of the two middle elements, rounded down. */
  lemma MedianExactly(xs: seq<int>)
    requires xs != []
    ensures 2 * Median(xs) <= xs[(|xs| - 1) / 2] + xs[|xs| / 2] < 2 * Median(xs) + 2
  {}

  function Total(xs: seq<int>): int {
    if xs == [] then 0 else Total(xs[..|xs| - 1]) + xs[|xs| - 1]
  }

  function Squares(xs: seq<int>): int {
    if xs == [] then 0 else Squares(xs[..|xs| - 1]) + xs[|xs| - 1] * xs[|xs| - 1]
  }

  lemma OneMore(n: nat, x: int, mean: int, sum: int, squares: int, total: int)
    requires sum == squares - 2 * mean * total + n * mean * mean
    ensures sum + (x - mean) * (x - mean) == squares + x * x - 2 * mean * (total + x) + (n + 1) * mean * mean
  {
    assert (x - mean) * (x - mean) == x * x - 2 * mean * x + mean * mean;
    assert 2 * mean * (total + x) == 2 * mean * total + 2 * mean * x;
    assert (n + 1) * mean * mean == n * mean * mean + mean * mean;
  }

  /** The sum of squared deviations, multiplied out. */
  lemma {:induction false} SumSquaresExactly(xs: seq<int>, mean: int)
    ensures SumSquares(xs, mean) == Squares(xs) - 2 * mean * Total(xs) + |xs| * mean * mean
  {
    if xs != [] {
      var n := |xs| - 1;
      SumSquaresExactly(xs[..n], mean);
      OneMore(n, xs[n], mean, SumSquares(xs[..n], mean), Squares(xs[..n]), Total(xs[..n]));
    }
  }

  /** The spread is 0 exactly if the mean squared deviation is below a quarter, and there is
      one rounded root only. */
  lemma SpreadExactly(j: nat, k: nat, sum: nat, n: nat)
    requires n > 0 && IsRoundedRoot(j, sum, n)
    ensures j == 0 <==> 4 * sum < n
    ensures IsRoundedRoot(k, sum, n) ==> k == j
  {
    if j > 0 {
      OddSquares(1, j, n);
    }
    if k < j {
      OddSquares(k + 1, j, n);
    } else if j < k {
      OddSquares(j + 1, k, n);
    }
  }

  lemma OddSquares(a: nat, b: nat, n: nat)
    requires 1 <= a <= b
    ensures (2 * a - 1) * (2 * a - 1) * n <= (2 * b - 1) * (2 * b - 1) * n
  {
    var u, v := 2 * a - 1, 2 * b - 1;
    assert (v - u) * (v + u) >= 0;
    assert (v - u) * (v + u) == v * v - u * u;
    assert (v * v - u * u) * n >= 0;
    assert (v * v - u * u) * n == v * v * n - u * u * n;
  }
}
