/** Per-thread series of one node: each physical thread is folded with its hyperthread for display. */
module ThreadFold {
  /** A data point; its thread is kept as the `type-id`. */
  datatype MetricPoint = MetricPoint(time: int, value: real, typeId: nat)

  type Series = seq<MetricPoint>

  datatype AggFn = Sum | Mean

  /** `Object.keys` of an object with integer keys: all of them, ascending. */
  ghost predicate ObjectKeys(keys: seq<nat>, data: map<nat, Series>) {
    && (forall i, j | 0 <= i < j < |keys| :: keys[i] < keys[j])
    && (forall k :: k in keys <==> k in data)
  }

  /** `at(t)?._value ?? 0`. */
  function At(s: Series, t: nat): real {
    if t < |s| then s[t].value else 0.0
  }

  function PairValue(p: real, h: real, fn: AggFn): real {
    match fn
    case Sum => p + h
    case Mean => (p + h) / 2.0
  }

  function Paired(p: Series, h: Series, fn: AggFn): Series {
    seq(|p|, t requires 0 <= t < |p| => p[t].(value := PairValue(p[t].value, At(h, t), fn)))
  }

  /** Half of an odd count is no integer, so it leads to no key. */
  predicate HasPartner(data: map<nat, Series>, count: nat, node: nat) {
    count % 2 == 0 && node + count / 2 in data
  }

  function Line(data: map<nat, Series>, count: nat, node: nat, fn: AggFn): Series
    requires node in data
  {
    if HasPartner(data, count, node) then Paired(data[node], data[node + count / 2], fn) else data[node]
  }

  /** The lines of the chart for the remaining `keys` among `count`. */
  function Lines(data: map<nat, Series>, keys: seq<nat>, count: nat, fn: AggFn): seq<Series>
    requires forall k | k in keys :: k in data
  {
    if keys == [] || 2 * keys[0] >= count then []
    else [Line(data, count, keys[0], fn)] + Lines(data, keys[1..], count, fn)
  }

  function AllLines(data: map<nat, Series>, keys: seq<nat>): seq<Series>
    requires forall k | k in keys :: k in data
  {
    if keys == [] then [] else [data[keys[0]]] + AllLines(data, keys[1..])
  }

  /** The lines of the chart; `cpu` tells that the series are those of threads. */
  function Shown(data: map<nat, Series>, keys: seq<nat>, count: nat, cpu: bool, fn: AggFn): seq<Series>
    requires forall k | k in keys :: k in data
  {
    if cpu then Lines(data, keys, count, fn) else AllLines(data, keys)
  }

  function Concat(lines: seq<Series>): Series {
    if lines == [] then [] else lines[0] + Concat(lines[1..])
  }

  // --------------------------------------------------------- what is shown

  /** The value shown for point `k` of thread, or node, `node`. */
  ghost function ShownValue(data: map<nat, Series>, count: nat, cpu: bool, fn: AggFn, node: nat, k: nat): real
    requires node in data && k < |data[node]|
  {
    var p := data[node][k].value;
    if cpu && count % 2 == 0 && node + count / 2 in data then
      var partner := data[node + count / 2];
      var h := if k < |partner| then partner[k].value else 0.0;
      if fn == Mean then (p + h) / 2.0 else p + h
    else p
  }

  /** The keys below half their number, or all of them if the series are not those of threads. */
  ghost predicate ShownKeys(keys: seq<nat>, cpu: bool, m: nat) {
    && m <= |keys|
    && (cpu ==> forall i | 0 <= i < m :: 2 * keys[i] < |keys|)
    && (m < |keys| ==> cpu && 2 * keys[m] >= |keys|)
  }

  /** The chart has one block for each of the first `m` keys, in this order: a point for every point of its
      series, at the same time and for the same thread. */
  ghost predicate Chart(data: map<nat, Series>, keys: seq<nat>, cpu: bool, fn: AggFn,
                        m: nat, starts: seq<nat>, points: Series)
    requires forall k | k in keys :: k in data
  {
    && ShownKeys(keys, cpu, m) && Blocks(starts, m, points)
    && (forall i | 0 <= i < m :: starts[i + 1] == starts[i] + |data[keys[i]]|)
    && (forall i, k | 0 <= i < m && 0 <= k < |data[keys[i]]| ::
          points[starts[i]..starts[i + 1]][k]
          == data[keys[i]][k].(value := ShownValue(data, |keys|, cpu, fn, keys[i], k)))
  }

  /** `m` consecutive blocks that make up `points`. */
  ghost predicate Blocks(starts: seq<nat>, m: nat, points: Series) {
    && |starts| == m + 1 && starts[0] == 0 && starts[m] == |points|
    && (forall i | 0 <= i < m :: starts[i] <= starts[i + 1])
    && (forall i | 0 <= i <= m :: starts[i] <= |points|)
  }

  ghost predicate BlockAt(starts: seq<nat>, lines: seq<Series>, points: Series, i: nat) {
    && i < |lines| && |starts| == |lines| + 1 && starts[i] <= starts[i + 1] <= |points|
    && points[starts[i]..starts[i + 1]] == lines[i]
  }

  /** The lines are the consecutive blocks of `points`. */
  ghost predicate LineBlocks(starts: seq<nat>, lines: seq<Series>, points: Series) {
    && |starts| == |lines| + 1 && starts[0] == 0 && starts[|lines|] == |points|
    && forall i: nat | i < |lines| :: BlockAt(starts, lines, points, i)
  }

  lemma PrependBlock(starts: seq<nat>, starts': seq<nat>, lines: seq<Series>, points: Series, first: Series)
    requires LineBlocks(starts, lines, points)
    requires |starts'| == |starts| + 1 && starts'[0] == 0
    requires forall i | 0 <= i < |starts| :: starts'[i + 1] == |first| + starts[i]
    ensures LineBlocks(starts', [first] + lines, first + points)
  {
    forall i: nat | i < |lines| + 1
      ensures BlockAt(starts', [first] + lines, first + points, i)
    {
      if i > 0 {
        assert BlockAt(starts, lines, points, i - 1);
        assert starts'[i] == |first| + starts[i - 1] && starts'[i + 1] == |first| + starts[i];
        Shifted(first, points, starts[i - 1], starts[i]);
      } else {
        assert starts'[1] == |first| + starts[0];
      }
    }
    assert starts'[|lines| + 1] == |first| + starts[|lines|];
  }

  lemma {:induction false} ConcatBlocks(lines: seq<Series>) returns (starts: seq<nat>)
    ensures LineBlocks(starts, lines, Concat(lines))
  {
    if lines == [] {
      starts := [0];
    } else {
      var rest := ConcatBlocks(lines[1..]);
      starts := [0] + seq(|rest|, i requires 0 <= i < |rest| => |lines[0]| + rest[i]);
      PrependBlock(rest, starts, lines[1..], Concat(lines[1..]), lines[0]);
      assert lines == [lines[0]] + lines[1..];
    }
  }

  lemma Shifted(first: Series, rest: Series, a: nat, b: nat)
    requires a <= b <= |rest|
    ensures (first + rest)[|first| + a..|first| + b] == rest[a..b]
  {
  }

  lemma {:induction false} LowKeys(keys: seq<nat>, count: nat) returns (m: nat)
    ensures m <= |keys| && (forall i | 0 <= i < m :: 2 * keys[i] < count) && (m < |keys| ==> 2 * keys[m] >= count)
  {
    if keys == [] || 2 * keys[0] >= count {
      m := 0;
    } else {
      var r := LowKeys(keys[1..], count);
      m := r + 1;
    }
  }

  lemma {:induction false} AllLinesAre(data: map<nat, Series>, keys: seq<nat>)
    requires forall k | k in keys :: k in data
    ensures |AllLines(data, keys)| == |keys|
    ensures forall i | 0 <= i < |keys| :: AllLines(data, keys)[i] == data[keys[i]]
  {
    if keys != [] {
      AllLinesAre(data, keys[1..]);
    }
  }

  /** A shown line, point by point. */
  lemma LineShows(data: map<nat, Series>, count: nat, cpu: bool, fn: AggFn, node: nat)
    requires node in data
    ensures
      var line := if cpu then Line(data, count, node, fn) else data[node];
      |line| == |data[node]| &&
      forall k | 0 <= k < |line| :: line[k] == data[node][k].(value := ShownValue(data, count, cpu, fn, node, k))
  {
  }

  ghost predicate IsChart(data: map<nat, Series>, keys: seq<nat>, cpu: bool, fn: AggFn, points: Series)
    requires forall k | k in keys :: k in data
  {
    exists m, starts :: Chart(data, keys, cpu, fn, m, starts, points)
  }

  lemma BlocksAreChart(data: map<nat, Series>, keys: seq<nat>, cpu: bool, fn: AggFn, m: nat,
                       starts: seq<nat>, lines: seq<Series>, points: Series)
    requires (forall k | k in keys :: k in data) && ShownKeys(keys, cpu, m) && |lines| == m
    requires LineBlocks(starts, lines, points)
    requires forall i | 0 <= i < m :: lines[i] == if cpu then Line(data, |keys|, keys[i], fn) else data[keys[i]]
    ensures Chart(data, keys, cpu, fn, m, starts, points)
  {
    forall i | 0 <= i < m
      ensures starts[i + 1] == starts[i] + |data[keys[i]]| <= |points|
      ensures points[starts[i]..starts[i + 1]] == lines[i]
    {
      assert BlockAt(starts, lines, points, i);
      LineShows(data, |keys|, cpu, fn, keys[i]);
    }
    forall i | 0 <= i <= m
      ensures starts[i] <= |points|
    {
      if i < m {
        assert BlockAt(starts, lines, points, i);
      }
    }
    forall i, k | 0 <= i < m && 0 <= k < |data[keys[i]]|
      ensures points[starts[i]..starts[i + 1]][k]
           == data[keys[i]][k].(value := ShownValue(data, |keys|, cpu, fn, keys[i], k))
    {
      LineShows(data, |keys|, cpu, fn, keys[i]);
    }
  }

  lemma ShownIsChart(data: map<nat, Series>, keys: seq<nat>, cpu: bool, fn: AggFn)
    requires forall k | k in keys :: k in data
    ensures IsChart(data, keys, cpu, fn, Concat(Shown(data, keys, |keys|, cpu, fn)))
  {
    var lines := Shown(data, keys, |keys|, cpu, fn);
    var m;
    if cpu {
      m := LowKeys(keys, |keys|);
      LinesOfLowKeys(data, keys, |keys|, fn, m);
    } else {
      m := |keys|;
      AllLinesAre(data, keys);
    }
    var starts := ConcatBlocks(lines);
    BlocksAreChart(data, keys, cpu, fn, m, starts, lines, Concat(lines));
  }

  // ------------------------------------------------------------ the loops

  method AggregatePair(pThread: Series, hThread: Series, fn: AggFn) returns (aggPoints: Series)
    ensures aggPoints == Paired(pThread, hThread, fn)
  {
    aggPoints := [];
    for idx := 0 to |pThread|
      invariant aggPoints == Paired(pThread, hThread, fn)[..idx]
    {
      var aggThread := pThread[idx];
      aggThread := aggThread.(value := aggThread.value + if idx < |hThread| then hThread[idx].value else 0.0);
      match fn {
        case Mean => aggThread := aggThread.(value := aggThread.value / 2.0);
        case Sum =>
      }
      aggPoints := aggPoints + [aggThread];
    }
  }

  lemma ShownFrom(data: map<nat, Series>, keys: seq<nat>, i: nat, cpu: bool, fn: AggFn)
    requires i < |keys| && forall k | k in keys :: k in data
    ensures Shown(data, keys[i..], |keys|, cpu, fn)
         == if cpu && 2 * keys[i] >= |keys| then []
            else [if cpu then Line(data, |keys|, keys[i], fn) else data[keys[i]]]
                 + Shown(data, keys[i + 1..], |keys|, cpu, fn)
  {
    assert keys[i..][1..] == keys[i + 1..];
  }

  lemma ConcatFirst(done: Series, line: Series, rest: seq<Series>)
    ensures done + Concat([line] + rest) == (done + line) + Concat(rest)
  {
    assert ([line] + rest)[1..] == rest;
  }

  /** A physical thread, aggregated with its hyperthread if there is one. */
  method ThreadPoints(data: map<nat, Series>, count: nat, node: nat, fn: AggFn) returns (points: Series)
    requires node in data
    ensures points == Line(data, count, node, fn)
  {
    if count % 2 == 0 && node + count / 2 in data {
      points := AggregatePair(data[node], data[node + count / 2], fn);
    } else {
      points := data[node];
    }
  }

  /** The points shown for one selected node and a metric finer than the node. */
  method PrepareMetricData(data: map<nat, Series>, keys: seq<nat>, cpu: bool, fn: AggFn)
    returns (metricData: Series)
    requires ObjectKeys(keys, data)
    ensures metricData == Concat(Shown(data, keys, |keys|, cpu, fn))
    ensures IsChart(data, keys, cpu, fn, metricData)
  {
    metricData := ShownPoints(data, keys, cpu, fn);
    ShownIsChart(data, keys, cpu, fn);
  }

  /** The loop over the keys. */
  method ShownPoints(data: map<nat, Series>, keys: seq<nat>, cpu: bool, fn: AggFn) returns (metricData: Series)
    requires forall k | k in keys :: k in data
    ensures metricData == Concat(Shown(data, keys, |keys|, cpu, fn))
  {
    metricData := [];
    assert keys[0..] == keys;
    var i := 0;
    while i < |keys|
      invariant 0 <= i <= |keys|
      invariant metricData + Concat(Shown(data, keys[i..], |keys|, cpu, fn)) == Concat(Shown(data, keys, |keys|, cpu, fn))
    {
      var node := keys[i];
      ShownFrom(data, keys, i, cpu, fn);
      var points: Series;
      if cpu {
        if 2 * node >= |keys| {
          return;
        }
        points := ThreadPoints(data, |keys|, node, fn);
      } else {
        points := data[node];
      }
      ConcatFirst(metricData, points, Shown(data, keys[i + 1..], |keys|, cpu, fn));
      metricData := metricData + points;
      i := i + 1;
    }
  }

  // ------------------------------------------------- which lines are shown

  ghost predicate HasThreads(data: map<nat, Series>, count: nat) {
    forall k: nat :: k in data <==> k < count
  }

  lemma {:induction false} KeyAtIndex(keys: seq<nat>, data: map<nat, Series>, count: nat, i: nat)
    requires ObjectKeys(keys, data) && HasThreads(data, count)
    requires i < |keys| || i < count
    ensures i < |keys| && i < count && keys[i] == i
    decreases i
  {
    forall j | 0 <= j < i
      ensures j < |keys| && j < count && keys[j] == j
    {
      KeyAtIndex(keys, data, count, j);
    }
    if i < |keys| {
      assert keys[i] in keys && keys[i] in data;
      assert i > 0 ==> keys[i - 1] == i - 1;
    }
    assert i in data && i in keys;
    var j :| 0 <= j < |keys| && keys[j] == i;
    assert j >= i;
  }

  /** Threads 0 to count - 1 are enumerated as such. */
  lemma KeysOfThreads(keys: seq<nat>, data: map<nat, Series>, count: nat)
    requires ObjectKeys(keys, data) && HasThreads(data, count)
    ensures |keys| == count && forall i | 0 <= i < count :: keys[i] == i
  {
    forall i: nat | i < |keys| || i < count
      ensures i < |keys| && i < count && keys[i] == i
    {
      KeyAtIndex(keys, data, count, i);
    }
    if |keys| < count {
      assert false by { KeyAtIndex(keys, data, count, |keys|); }
    } else if count < |keys| {
      assert false by { KeyAtIndex(keys, data, count, count); }
    }
  }

  /** The lines are those of the keys below half of their number. */
  lemma {:induction false} LinesOfLowKeys(data: map<nat, Series>, keys: seq<nat>, count: nat, fn: AggFn, m: nat)
    requires forall k | k in keys :: k in data
    requires m <= |keys| && (forall i | 0 <= i < m :: 2 * keys[i] < count)
    requires m < |keys| ==> 2 * keys[m] >= count
    ensures |Lines(data, keys, count, fn)| == m
    ensures forall i | 0 <= i < m :: Lines(data, keys, count, fn)[i] == Line(data, count, keys[i], fn)
  {
    if m > 0 {
      LinesOfLowKeys(data, keys[1..], count, fn, m - 1);
    }
  }

  lemma LinesOfThreads(data: map<nat, Series>, keys: seq<nat>, fn: AggFn)
    requires ObjectKeys(keys, data) && HasThreads(data, |keys|)
    ensures |Lines(data, keys, |keys|, fn)| == (|keys| + 1) / 2
    ensures forall i | 0 <= i < (|keys| + 1) / 2 :: Lines(data, keys, |keys|, fn)[i] == Line(data, |keys|, i, fn)
  {
    KeysOfThreads(keys, data, |keys|);
    LinesOfLowKeys(data, keys, |keys|, fn, (|keys| + 1) / 2);
    assert forall i | 0 <= i < (|keys| + 1) / 2 :: keys[i] == i;
  }

  // ----------------------------------------------------------- conservation

  /** The sum over all lines at time step t. */
  ghost function StepSum(lines: seq<Series>, t: nat): real {
    if lines == [] then 0.0 else StepSum(lines[..|lines| - 1], t) + At(lines[|lines| - 1], t)
  }

  /** The sum over threads a to b - 1 at time step t. */
  ghost function ThreadSum(data: map<nat, Series>, a: nat, b: nat, t: nat): real
    requires forall k | a <= k < b :: k in data
  {
    if b <= a then 0.0 else ThreadSum(data, a, b - 1, t) + At(data[b - 1], t)
  }

  lemma {:induction false} ThreadSumSplit(data: map<nat, Series>, a: nat, m: nat, b: nat, t: nat)
    requires a <= m <= b && forall k | a <= k < b :: k in data
    ensures ThreadSum(data, a, b, t) == ThreadSum(data, a, m, t) + ThreadSum(data, m, b, t)
  {
    if m < b {
      ThreadSumSplit(data, a, m, b - 1, t);
    }
  }

  /** What hyperthreads have at time step t after the series of their physical thread ended, for the first m. */
  ghost function Overhang(data: map<nat, Series>, n: nat, m: nat, t: nat): real
    requires forall k | 0 <= k < n + m :: k in data
  {
    if m == 0 then 0.0
    else Overhang(data, n, m - 1, t) + if t < |data[m - 1]| then 0.0 else At(data[m - 1 + n], t)
  }

  /** A sum over lines, doubled when the lines are means of two threads. */
  ghost function Scaled(fn: AggFn, sum: real): real {
    if fn.Mean? then 2.0 * sum else sum
  }

  lemma LineOfPair(data: map<nat, Series>, n: nat, i: nat, fn: AggFn)
    requires HasThreads(data, 2 * n) && i < n
    ensures Line(data, 2 * n, i, fn) == Paired(data[i], data[i + n], fn)
  {
  }

  lemma PairedAt(p: Series, h: Series, fn: AggFn, t: nat)
    ensures Scaled(fn, At(Paired(p, h, fn), t)) == if t < |p| then At(p, t) + At(h, t) else 0.0
  {
  }

  lemma {:induction false} FoldPrefix(data: map<nat, Series>, lines: seq<Series>, n: nat, m: nat, fn: AggFn, t: nat)
    requires HasThreads(data, 2 * n) && m == |lines| <= n
    requires forall i | 0 <= i < m :: lines[i] == Line(data, 2 * n, i, fn)
    ensures Scaled(fn, StepSum(lines, t)) + Overhang(data, n, m, t)
         == ThreadSum(data, 0, m, t) + ThreadSum(data, n, n + m, t)
  {
    if m > 0 {
      FoldPrefix(data, lines[..m - 1], n, m - 1, fn, t);
      LineOfPair(data, n, m - 1, fn);
      PairedAt(data[m - 1], data[m - 1 + n], fn, t);
    }
  }

  /** Only values differ. */
  ghost predicate SameLabels(line: Series, p: Series) {
    |line| == |p| && forall t | 0 <= t < |p| :: line[t] == p[t].(value := line[t].value)
  }

  lemma LineLabels(data: map<nat, Series>, count: nat, node: nat, fn: AggFn)
    requires node in data
    ensures SameLabels(Line(data, count, node, fn), data[node])
  {
  }

  lemma LabelsKept(data: map<nat, Series>, keys: seq<nat>, fn: AggFn, i: nat)
    requires ObjectKeys(keys, data) && HasThreads(data, |keys|) && i < (|keys| + 1) / 2
    ensures |Lines(data, keys, |keys|, fn)| == (|keys| + 1) / 2
    ensures SameLabels(Lines(data, keys, |keys|, fn)[i], data[i])
  {
    LinesOfThreads(data, keys, fn);
    LineLabels(data, |keys|, i, fn);
  }

  /** With 2n threads there are n lines. At every time step their sum, doubled for means, lacks from the sum over
      all threads exactly what hyperthreads recorded after their physical thread ended. */
  lemma EvenFold(data: map<nat, Series>, keys: seq<nat>, n: nat, fn: AggFn, t: nat)
    requires ObjectKeys(keys, data) && HasThreads(data, 2 * n)
    ensures |Lines(data, keys, |keys|, fn)| == n
    ensures Scaled(fn, StepSum(Lines(data, keys, |keys|, fn), t)) + Overhang(data, n, n, t)
         == ThreadSum(data, 0, 2 * n, t)
  {
    KeysOfThreads(keys, data, 2 * n);
    LinesOfThreads(data, keys, fn);
    FoldPrefix(data, Lines(data, keys, |keys|, fn), n, n, fn, t);
    ThreadSumSplit(data, 0, n, 2 * n, t);
  }

  lemma {:induction false} RawPrefix(data: map<nat, Series>, lines: seq<Series>, t: nat)
    requires forall i | 0 <= i < |lines| :: i in data && lines[i] == data[i]
    ensures StepSum(lines, t) == ThreadSum(data, 0, |lines|, t)
  {
    if lines != [] {
      RawPrefix(data, lines[..|lines| - 1], t);
    }
  }

  lemma OddLine(data: map<nat, Series>, count: nat, node: nat, fn: AggFn)
    requires node in data && count % 2 == 1
    ensures Line(data, count, node, fn) == data[node]
  {
  }

  lemma RawLines(data: map<nat, Series>, keys: seq<nat>, fn: AggFn)
    requires ObjectKeys(keys, data) && HasThreads(data, |keys|) && |keys| % 2 == 1
    ensures |Lines(data, keys, |keys|, fn)| == (|keys| + 1) / 2
    ensures forall i | 0 <= i < (|keys| + 1) / 2 :: i in data && Lines(data, keys, |keys|, fn)[i] == data[i]
  {
    LinesOfThreads(data, keys, fn);
    forall i | 0 <= i < (|keys| + 1) / 2
      ensures i in data && Lines(data, keys, |keys|, fn)[i] == data[i]
    {
      OddLine(data, |keys|, i, fn);
    }
  }

  /** With 2n + 1 threads nothing is folded: the first n + 1 are shown unchanged, the last n not at all. */
  lemma OddFold(data: map<nat, Series>, keys: seq<nat>, n: nat, fn: AggFn, t: nat)
    requires ObjectKeys(keys, data) && HasThreads(data, 2 * n + 1)
    ensures |Lines(data, keys, |keys|, fn)| == n + 1
    ensures forall i | 0 <= i <= n :: Lines(data, keys, |keys|, fn)[i] == data[i]
    ensures StepSum(Lines(data, keys, |keys|, fn), t) == ThreadSum(data, 0, n + 1, t)
    ensures StepSum(Lines(data, keys, |keys|, fn), t) + ThreadSum(data, n + 1, 2 * n + 1, t)
         == ThreadSum(data, 0, 2 * n + 1, t)
  {
    KeysOfThreads(keys, data, 2 * n + 1);
    RawLines(data, keys, fn);
    RawPrefix(data, Lines(data, keys, |keys|, fn), t);
    ThreadSumSplit(data, 0, n + 1, 2 * n + 1, t);
  }

  ghost predicate EqualLengths(data: map<nat, Series>) {
    forall j, k | j in data && k in data :: |data[j]| == |data[k]|
  }

  lemma {:induction false} NoOverhang(data: map<nat, Series>, n: nat, m: nat, t: nat)
    requires EqualLengths(data) && forall k | 0 <= k < n + m :: k in data
    ensures Overhang(data, n, m, t) == 0.0
  {
    if m > 0 {
      NoOverhang(data, n, m - 1, t);
    }
  }

  /** The lines add up to all threads, or to half of that when they are means, at every time step. */
  ghost predicate Conserves(data: map<nat, Series>, keys: seq<nat>, fn: AggFn)
    requires ObjectKeys(keys, data) && HasThreads(data, |keys|)
  {
    forall t: nat :: Scaled(fn, StepSum(Lines(data, keys, |keys|, fn), t)) == ThreadSum(data, 0, |keys|, t)
  }

  ghost predicate AlwaysConserves(count: nat, fn: AggFn) {
    forall data, keys | ObjectKeys(keys, data) && |keys| == count && HasThreads(data, count) && EqualLengths(data) ::
      Conserves(data, keys, fn)
  }

  /** Folding equally long series keeps every time step's sum exactly for even thread counts, and for a
      single thread when sums are shown. */
  lemma ConservesIff(count: nat, fn: AggFn)
    ensures AlwaysConserves(count, fn) <==> count % 2 == 0 || (count == 1 && fn == Sum)
  {
    if count % 2 == 0 {
      EvenConserves(count, fn);
    } else if count == 1 && fn == Sum {
      SingleConserves();
    } else {
      LastThreadDropped(count, fn);
    }
  }

  lemma EvenConserves(count: nat, fn: AggFn)
    requires count % 2 == 0
    ensures AlwaysConserves(count, fn)
  {
    forall data, keys, t: nat
      | ObjectKeys(keys, data) && |keys| == count && HasThreads(data, count) && EqualLengths(data)
      ensures Scaled(fn, StepSum(Lines(data, keys, |keys|, fn), t)) == ThreadSum(data, 0, |keys|, t)
    {
      EvenFold(data, keys, count / 2, fn, t);
      NoOverhang(data, count / 2, count / 2, t);
    }
  }

  lemma SingleConserves()
    ensures AlwaysConserves(1, Sum)
  {
    forall data, keys, t: nat
      | ObjectKeys(keys, data) && |keys| == 1 && HasThreads(data, 1) && EqualLengths(data)
      ensures StepSum(Lines(data, keys, |keys|, Sum), t) == ThreadSum(data, 0, |keys|, t)
    {
      OddFold(data, keys, 0, Sum, t);
    }
  }

  lemma BusySum(data: map<nat, Series>, count: nat, m: nat)
    requires 0 < m <= count
    requires forall k | 0 <= k < count :: k in data && At(data[k], 0) == if k == count - 1 then 1.0 else 0.0
    ensures ThreadSum(data, 0, m, 0) == if m == count then 1.0 else 0.0
  {
    IdleSum(data, m - 1, 0);
  }

  /** When only the last thread was busy, its work is missing, or counted twice as a mean. */
  lemma BusyLastThread(data: map<nat, Series>, keys: seq<nat>, fn: AggFn)
    requires ObjectKeys(keys, data) && HasThreads(data, |keys|) && |keys| % 2 == 1
    requires forall k | 0 <= k < |keys| :: At(data[k], 0) == if k == |keys| - 1 then 1.0 else 0.0
    ensures Conserves(data, keys, fn) ==> |keys| == 1 && fn == Sum
  {
    var n := |keys| / 2;
    OddFold(data, keys, n, fn, 0);
    BusySum(data, |keys|, |keys|);
    BusySum(data, |keys|, n + 1);
  }

  lemma LastThreadDropped(count: nat, fn: AggFn)
    requires count % 2 == 1 && !(count == 1 && fn == Sum)
    ensures !AlwaysConserves(count, fn)
  {
    var keys: seq<nat> := seq(count, i requires 0 <= i < count => i);
    var data := map k | k in keys :: [MetricPoint(0, if k == count - 1 then 1.0 else 0.0, k)];
    IndexesAreThreads(keys, count);
    BusyLastThread(data, keys, fn);
  }

  lemma IndexesAreThreads(keys: seq<nat>, count: nat)
    requires |keys| == count && forall i | 0 <= i < count :: keys[i] == i
    ensures forall k: nat :: k in keys <==> k < count
  {
    forall k: nat | k < count
      ensures k in keys
    {
      assert keys[k] == k;
    }
  }

  lemma {:induction false} IdleSum(data: map<nat, Series>, m: nat, t: nat)
    requires forall k | 0 <= k < m :: k in data && At(data[k], t) == 0.0
    ensures ThreadSum(data, 0, m, t) == 0.0
  {
    if m > 0 {
      IdleSum(data, m - 1, t);
    }
  }
}
