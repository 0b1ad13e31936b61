/** Choosing the sample interval of a job view.

    Times are whole seconds: `m` is the metric sample interval and `d` the length of the job. The
    backend computes in floating point; every value it compares here is an integer. */
module SampleIntervals {

  const MAX_POINTS := 200   // DEFAULT_MAX_POINTS_PER_JOB

  const DEFAULTS: seq<int> := [30, 60, 120, 300, 600, 1800]

  predicate Ascending(s: seq<int>) {
    forall i, j | 0 <= i < j < |s| :: s[i] < s[j]
  }

  function Abs(x: int): nat {
    if x < 0 then -x else x
  }

  /** `a / b` rounded towards plus infinity. */
  function CeilDiv(a: int, b: int): (k: int)
    requires b > 0
    ensures b * (k - 1) < a <= b * k
  {
    var q := (-a) / b;
    assert -a == b * q + (-a) % b;
    assert b * (-q - 1) == -(b * q) - b;
    -q
  }

  /** The interval that would show about `MAX_POINTS` points: the least multiple of `m` that needs no more. */
  function Target(m: int, d: int): int
    requires m >= 1
  {
    m * CeilDiv(d, MAX_POINTS * m)
  }

  /** The candidate the search settles on: nearest to the target, `m` before the defaults and a smaller
      default before a larger one among equally near candidates. */
  ghost predicate Nearest(m: int, defaults: seq<int>, target: int, c: int) {
    && (c == m || c in defaults)
    && Abs(c - target) <= Abs(m - target)
    && (forall v | v in defaults :: Abs(c - target) <= Abs(v - target))
    && (c != m ==> Abs(c - target) < Abs(m - target))
    && (c != m ==> forall v | v in defaults && v < c :: Abs(c - target) < Abs(v - target))
  }

  /** Among metric interval and defaults, candidate `i` is `c`: nearer to the target than those before it, and as
      near as those after it. */
  ghost predicate FirstNearest(m: int, target: int, i: nat, c: int) {
    var candidates := [m, 30, 60, 120, 300, 600, 1800];
    && i < |candidates| && candidates[i] == c
    && (forall j | 0 <= j < i :: Abs(c - target) < Abs(candidates[j] - target))
    && (forall j | i < j < |candidates| :: Abs(c - target) <= Abs(candidates[j] - target))
  }

  /** `m * k` is the least multiple of the metric interval that needs no more than 200 points for `d` seconds,
      and `c` is the first of the candidates nearest to it. */
  ghost predicate ClosestTo(m: int, d: int, k: int, c: int) {
    200 * (m * k) - 200 * m < d <= 200 * (m * k) && exists i :: FirstNearest(m, m * k, i, c)
  }

  lemma NearestIsFirst(m: int, target: int, c: int)
    requires Nearest(m, DEFAULTS, target, c)
    ensures exists i :: FirstNearest(m, target, i, c)
  {
    var candidates := [m, 30, 60, 120, 300, 600, 1800];
    assert candidates == [m] + DEFAULTS;
    var i: nat := if c == m then 0 else if c == 30 then 1 else if c == 60 then 2 else if c == 120 then 3
                  else if c == 300 then 4 else if c == 600 then 5 else 6;
    forall j | 0 < j < |candidates|
      ensures candidates[j] == DEFAULTS[j - 1] && candidates[j] in DEFAULTS
    {
    }
    assert FirstNearest(m, target, i, c);
  }

  lemma NearestMeaning(m: int, d: int, c: int)
    requires m >= 1 && Nearest(m, DEFAULTS, Target(m, d), c)
    ensures exists k :: ClosestTo(m, d, k, c)
  {
    TargetBounds(m, d);
    NearestIsFirst(m, Target(m, d), c);
    var k := CeilDiv(d, MAX_POINTS * m);
    assert Target(m, d) == m * k;
    assert ClosestTo(m, d, k, c);
  }

  lemma NearestStep(m: int, seen: seq<int>, target: int, best: int, v: int)
    requires Nearest(m, seen, target, best) && forall u | u in seen :: u < v
    ensures Nearest(m, seen + [v], target, if Abs(v - target) < Abs(best - target) then v else best)
  {
  }

  method BestAvailable(m: int, defaults: seq<int>, target: int) returns (best: int)
    requires Ascending(defaults)
    ensures Nearest(m, defaults, target, best)
  {
    best := m;
    var i := 0;
    while i < |defaults|
      invariant 0 <= i <= |defaults| && Nearest(m, defaults[..i], target, best)
    {
      var v := defaults[i];
      assert defaults[..i + 1] == defaults[..i] + [v];
      assert forall u | u in defaults[..i] :: u < v;
      NearestStep(m, defaults[..i], target, best, v);
      if Abs(v - target) < Abs(best - target) {
        best := v;
      }
      i := i + 1;
    }
    assert defaults[..i] == defaults;
  }

  /** The intervals a user may select. */
  method Selectable(m: int, best: int, defaults: seq<int>) returns (intervals: seq<int>)
    requires Ascending(defaults)
    ensures forall v :: v in intervals <==> v in defaults && m <= v <= best
    ensures Ascending(intervals)
  {
    intervals := [];
    var i := 0;
    while i < |defaults|
      invariant 0 <= i <= |defaults|
      invariant forall v :: v in intervals <==> v in defaults[..i] && m <= v <= best
      invariant Ascending(intervals)
    {
      var v := defaults[i];
      assert defaults[..i + 1] == defaults[..i] + [v];
      assert forall u | u in defaults[..i] :: u < v;
      assert forall k | 0 <= k < |intervals| :: intervals[k] in intervals;
      if m <= v && v <= best {
        intervals := intervals + [v];
      }
      i := i + 1;
    }
    assert defaults[..i] == defaults;
  }

  /** The search and the list of selectable intervals. */
  method CalculateSampleIntervals(m: int, d: int) returns (intervals: seq<int>, best: int)
    requires m >= 1
    ensures Nearest(m, DEFAULTS, Target(m, d), best)
    ensures exists k :: ClosestTo(m, d, k, best)
    ensures forall v :: v in intervals <==> v in [30, 60, 120, 300, 600, 1800] && m <= v <= best
    ensures Ascending(intervals)
  {
    best := BestAvailable(m, DEFAULTS, Target(m, d));
    NearestMeaning(m, d, best);
    intervals := Selectable(m, best, DEFAULTS);
  }

  /** The chosen interval for metric interval `m` and job length `d`. */
  ghost predicate Chosen(m: int, d: int, c: int) {
    m >= 1 && Nearest(m, DEFAULTS, Target(m, d), c)
  }

  /** The choice is a function of metric interval and job length. */
  lemma ChosenIsUnique(m: int, d: int, c: int, c': int)
    requires Chosen(m, d, c) && Chosen(m, d, c')
    ensures c == c'
  {
  }

  lemma TargetBounds(m: int, d: int)
    requires m >= 1
    ensures 200 * (Target(m, d) - m) < d <= 200 * Target(m, d)
    ensures if d > 0 then Target(m, d) >= m else Target(m, d) <= 0
  {
    var k := CeilDiv(d, MAX_POINTS * m);
    assert (MAX_POINTS * m) * k == MAX_POINTS * (m * k);
    assert (MAX_POINTS * m) * (k - 1) == MAX_POINTS * (m * k - m);
    AtMost(m, if d > 0 then 1 else k, if d > 0 then k else 0);
  }

  lemma {:induction false} MulAtLeast(m: int, e: nat)
    requires m >= 1
    ensures m * e >= e && (e >= 1 ==> m * e >= m)
  {
    if e > 0 {
      MulAtLeast(m, e - 1);
      assert m * e == m * (e - 1) + m;
    }
  }

  lemma AtMost(m: int, k: int, k': int)
    requires m >= 1
    ensures k <= k' <==> m * k <= m * k'
  {
    var e := if k <= k' then k' - k else k - k';
    MulAtLeast(m, e);
    if k <= k' {
      assert m * k' == m * (k + e) == m * k + m * e;
    } else {
      assert m * k == m * (k' + e) == m * k' + m * e;
    }
  }

  /** The choice is finer than the metric's own interval exactly for a job without length and a metric
      interval above the smallest default. */
  lemma FinerThanMetricIff(m: int, d: int, c: int)
    requires Chosen(m, d, c)
    ensures c < m <==> d <= 0 && m > 30
  {
    TargetBounds(m, d);
    assert 30 in DEFAULTS;
  }

  lemma TargetMonotone(m: int, d: int, d': int)
    requires m >= 1 && d <= d'
    ensures Target(m, d) <= Target(m, d')
  {
    var b := MAX_POINTS * m;
    var k, k' := CeilDiv(d, b), CeilDiv(d', b);
    AtMost(b, k, k' );
    AtMost(b, k', k - 1);
    AtMost(m, k, k');
  }

  /** Longer jobs never get a finer interval. */
  lemma LongerJobsAreCoarser(m: int, d: int, c: int, d': int, c': int)
    requires 0 < d <= d' && Chosen(m, d, c) && Chosen(m, d', c')
    ensures c <= c'
  {
    FinerThanMetricIff(m, d, c);
    FinerThanMetricIff(m, d', c');
    TargetMonotone(m, d, d');
  }

  /** Up to this length the metric's own interval is chosen even where it is finer than every default. */
  function LongestAtMetricInterval(m: int): int
    requires m >= 1
  {
    MAX_POINTS * (m * ((30 + m) / (2 * m)))
  }

  /** Exactly when a view shows at most twice the intended number of points: for every job of up to 200
      hours (400 metric intervals, when the metric is coarser than every default), except jobs of more
      than 400 metric intervals that still get the metric's own interval. There are exceptions only for
      metric intervals of 6 seconds or less. */
  lemma TwiceTheTargetIff(m: int, d: int, c: int)
    requires d > 0 && Chosen(m, d, c)
    ensures d <= 400 * c <==>
            d <= 400 * (if m <= 1800 then 1800 else m) && !(400 * m < d <= LongestAtMetricInterval(m))
    ensures LongestAtMetricInterval(m) == 200 * (m * ((30 + m) / (2 * m)))
    ensures LongestAtMetricInterval(m) > 400 * m <==> m <= 6
  {
    TargetBounds(m, d);
    FinerThanMetricIff(m, d, c);
    assert 1800 in DEFAULTS;
    ExceptionsIff(m);
    if m <= 6 {
      FineMetric(m, d, c);
    } else if m <= 1800 && d <= 720000 {
      WithinFactorTwo(m, d, c);
    }
  }

  lemma HalfCount(m: int) returns (q: int)
    requires m >= 1
    ensures q == (30 + m) / (2 * m) && 2 * (m * q) <= 30 + m < 2 * (m * q) + 2 * m
  {
    q := (30 + m) / (2 * m);
    assert 30 + m == 2 * m * q + (30 + m) % (2 * m);
    assert 2 * m * q == 2 * (m * q);
  }

  lemma ExceptionsIff(m: int)
    requires m >= 1
    ensures LongestAtMetricInterval(m) > 2 * MAX_POINTS * m <==> m <= 6
  {
    var q := HalfCount(m);
    AtMost(m, 3, q);
    AtMost(m, q, 2);
  }

  lemma FineChoice(m: int, d: int, c: int)
    requires 1 <= m <= 6 && d > 0 && Chosen(m, d, c)
    ensures c == m <==> 2 * Target(m, d) <= 30 + m
    ensures c != m ==> 30 <= c <= 1800 && (Target(m, d) <= 2 * c || c == 1800)
  {
    TargetBounds(m, d);
    assert 30 in DEFAULTS && 60 in DEFAULTS && 120 in DEFAULTS && 300 in DEFAULTS && 600 in DEFAULTS && 1800 in DEFAULTS;
  }

  lemma LongestAtMetricIntervalIff(m: int, d: int)
    requires m >= 1
    ensures d <= LongestAtMetricInterval(m) <==> 2 * Target(m, d) <= 30 + m
  {
    var k := CeilDiv(d, MAX_POINTS * m);
    var q := HalfCount(m);
    TargetBounds(m, d);
    AtMost(m, k, q);
    AtMost(m, q, k - 1);
    assert m * (k - 1) == m * k - m;
  }

  lemma FineMetric(m: int, d: int, c: int)
    requires 1 <= m <= 6 && d > 0 && Chosen(m, d, c)
    ensures d <= 2 * MAX_POINTS * c <==>
            d <= 2 * MAX_POINTS * 1800 && !(2 * MAX_POINTS * m < d <= LongestAtMetricInterval(m))
  {
    FineChoice(m, d, c);
    LongestAtMetricIntervalIff(m, d);
    TargetBounds(m, d);
  }

  /** The chosen interval is at least half the target, or it is the largest default. */
  lemma WithinFactorTwo(m: int, d: int, c: int)
    requires 7 <= m <= 1800 && d > 0 && Chosen(m, d, c)
    ensures Target(m, d) <= 2 * c || c == 1800
  {
    var t, k := Target(m, d), CeilDiv(d, MAX_POINTS * m);
    TargetBounds(m, d);
    FinerThanMetricIff(m, d, c);
    assert 30 in DEFAULTS && 60 in DEFAULTS && 120 in DEFAULTS && 300 in DEFAULTS && 600 in DEFAULTS && 1800 in DEFAULTS;
    AtMost(m, k, 2);
    AtMost(m, 3, k);
  }

  /** Such a job: one of 600 metric intervals shows three times the target. */
  lemma FineMetricsExceedTheBound(m: int, c: int)
    requires m <= 6 && Chosen(m, 600 * m, c)
    ensures c == m && 600 * m > 2 * MAX_POINTS * c
  {
    var k := CeilDiv(600 * m, MAX_POINTS * m);
    AtMost(MAX_POINTS * m, 3, k);
    AtMost(MAX_POINTS * m, k, 3);
    AtMost(MAX_POINTS * m, 3, k - 1);
    assert (MAX_POINTS * m) * 3 == 600 * m;
    assert k == 3;
  }
}
