/** Reconciling the aggregation tasks of the time-series database with the configured metrics. */
module AggregationTasks {
  import opened Wrappers
  import opened Configuration

  type Name = string

  function TaskName(bucket: string, measurement: string, aggFn: string): Name {
    bucket + "_" + measurement + "_" + aggFn
  }

  /** Two names are the same exactly if what they say after the bucket is. So each function of a metric has a
      task of its own. */
  lemma SameNameIff(bucket: string, measurement: string, aggFn: string, measurement': string, aggFn': string)
    ensures TaskName(bucket, measurement, aggFn) == TaskName(bucket, measurement', aggFn') <==>
            measurement + "_" + aggFn == measurement' + "_" + aggFn'
    ensures TaskName(bucket, measurement, aggFn) == TaskName(bucket, measurement, aggFn') <==> aggFn == aggFn'
  {
    CancelPrefix(bucket + "_", measurement + "_" + aggFn, measurement' + "_" + aggFn');
    CancelPrefix(bucket + "_" + measurement + "_", aggFn, aggFn');
    assert TaskName(bucket, measurement, aggFn) == (bucket + "_") + (measurement + "_" + aggFn);
    assert TaskName(bucket, measurement', aggFn') == (bucket + "_") + (measurement' + "_" + aggFn');
  }

  lemma CancelPrefix(a: string, b: string, c: string)
    ensures a + b == a + c <==> b == c
  {
    assert (a + b)[|a|..] == b && (a + c)[|a|..] == c;
  }

  /** The task names the configured metrics call for. */
  ghost predicate Required(bucket: string, metrics: map<string, MetricConfig>, n: Name) {
    exists g, i :: g in metrics && 0 <= i < |metrics[g].availableAggFns|
                   && n == TaskName(bucket, metrics[g].measurement, metrics[g].availableAggFns[i])
  }

  /** The names of one metric, up to its first `k` functions. */
  ghost predicate NamedBy(bucket: string, m: MetricConfig, k: nat, n: Name)
    requires k <= |m.availableAggFns|
  {
    exists i :: 0 <= i < k && n == TaskName(bucket, m.measurement, m.availableAggFns[i])
  }

  class InfluxDB {
    const bucketName: string
    var metrics: map<string, MetricConfig>
    var apiTasks: seq<Name>   // the tasks the database server has
    var tasks: seq<Name>      // db.tasks: the tasks this process has created

    constructor (bucketName: string, metrics: map<string, MetricConfig>, apiTasks: seq<Name>)
      ensures this.bucketName == bucketName && this.metrics == metrics && this.apiTasks == apiTasks && tasks == []
    {
      this.bucketName, this.metrics, this.apiTasks, tasks := bucketName, metrics, apiTasks, [];
    }

    /** Some metric of `gs` calls for a task of this name. */
    ghost predicate NamedByOneOf(gs: set<string>, n: Name)
      reads this`metrics
      requires gs <= metrics.Keys
    {
      exists g :: g in gs && NamedBy(bucketName, metrics[g], |metrics[g].availableAggFns|, n)
    }

    /** The number of tasks with a name; requests for a name in `unreachable` fail. */
    method FindTasks(name: Name, unreachable: set<Name>) returns (found: Result<nat>)
      ensures found == if name in unreachable then Err else Ok(multiset(apiTasks)[name])
    {
      if name in unreachable {
        return Err;
      }
      var n := 0;
      var i := 0;
      while i < |apiTasks|
        invariant 0 <= i <= |apiTasks| && n == multiset(apiTasks[..i])[name]
      {
        assert apiTasks[..i + 1] == apiTasks[..i] + [apiTasks[i]];
        if apiTasks[i] == name {
          n := n + 1;
        }
        i := i + 1;
      }
      assert apiTasks[..i] == apiTasks;
      found := Ok(n);
    }

    /** Requests for a name in `refused` fail. */
    method CreateTask(name: Name, refused: set<Name>) returns (ok: bool)
      modifies this`apiTasks, this`tasks
      ensures ok == (name !in refused)
      ensures apiTasks == old(apiTasks) + (if ok then [name] else []) && tasks == old(tasks) + (if ok then [name] else [])
    {
      ok := name !in refused;
      if ok {
        apiTasks := apiTasks + [name];
        tasks := tasks + [name];
      }
    }

    /** The body of the two loops. */
    method Reconcile(name: Name, unreachable: set<Name>, refused: set<Name>)
      modifies this`apiTasks, this`tasks
      ensures
        var added := if name !in unreachable + refused && name !in old(apiTasks) then [name] else [];
        apiTasks == old(apiTasks) + added && tasks == old(tasks) + added
    {
      var found := FindTasks(name, unreachable);
      assert name in apiTasks <==> name in multiset(apiTasks);
      if found.Err? {
        return;
      }
      if found.value > 1 {
        return;
      }
      if !(found.value > 0) {
        var _ := CreateTask(name, refused);
      }
    }

    /** The inner loop: the aggregation functions of one metric. */
    method ReconcileMetric(m: MetricConfig, unreachable: set<Name>, refused: set<Name>) returns (ghost created: seq<Name>)
      modifies this`apiTasks, this`tasks
      ensures apiTasks == old(apiTasks) + created && tasks == old(tasks) + created
      ensures forall n :: multiset(created)[n] <= 1
      ensures forall n :: n in created <==>
                          && n !in old(apiTasks) && n !in unreachable + refused
                          && NamedBy(bucketName, m, |m.availableAggFns|, n)
    {
      created := [];
      var i := 0;
      while i < |m.availableAggFns|
        invariant 0 <= i <= |m.availableAggFns|
        invariant apiTasks == old(apiTasks) + created && tasks == old(tasks) + created
        invariant forall n :: multiset(created)[n] <= 1
        invariant forall n ::
            n in created <==> n !in old(apiTasks) && n !in unreachable + refused && NamedBy(bucketName, m, i, n)
      {
        var name := TaskName(bucketName, m.measurement, m.availableAggFns[i]);
        assert forall n :: NamedBy(bucketName, m, i + 1, n) <==> NamedBy(bucketName, m, i, n) || n == name;
        assert name in created <==> name in multiset(created);
        ghost var missing := name !in unreachable + refused && name !in apiTasks;
        Reconcile(name, unreachable, refused);
        created := created + if missing then [name] else [];
        i := i + 1;
      }
    }

    /** One pass over all metrics, in no particular order. Every required name that was missing gets
        one task unless a request for it fails; nothing else happens. */
    method UpdateAggregationTasks(unreachable: set<Name>, refused: set<Name>) returns (ghost created: seq<Name>)
      modifies this`apiTasks, this`tasks
      ensures apiTasks == old(apiTasks) + created && tasks == old(tasks) + created
      ensures NewTasks(bucketName, metrics, unreachable + refused, old(apiTasks), created)
      ensures forall g, i | g in metrics && 0 <= i < |metrics[g].availableAggFns| ::
                var name := bucketName + "_" + metrics[g].measurement + "_" + metrics[g].availableAggFns[i];
                name in apiTasks || name in unreachable + refused
    {
      created := [];
      var todo := metrics.Keys;
      while todo != {}
        invariant todo <= metrics.Keys
        invariant apiTasks == old(apiTasks) + created && tasks == old(tasks) + created
        invariant forall n :: multiset(created)[n] <= 1
        invariant forall n :: n in created <==>
            (n !in old(apiTasks) && n !in unreachable + refused && NamedByOneOf(metrics.Keys - todo, n))
        decreases todo
      {
        var g :| g in todo;
        ghost var before := created;
        ghost var more := ReconcileMetric(metrics[g], unreachable, refused);
        created := before + more;
        forall n
          ensures multiset(created)[n] <= 1
        {
          assert n in more <==> n in multiset(more);
          assert n in before <==> n in multiset(before);
        }
        todo := todo - {g};
        assert metrics.Keys - todo == (metrics.Keys - (todo + {g})) + {g};
      }
      assert metrics.Keys - todo == metrics.Keys;
      assert forall n :: Required(bucketName, metrics, n) <==> NamedByOneOf(metrics.Keys, n);
      EveryFunctionHasItsTask(bucketName, metrics, unreachable + refused, old(apiTasks), created);
    }
  }

  /** `created` lists, without repetition, the required names that `before` lacks and no request failed for. */
  ghost predicate NewTasks(bucket: string, metrics: map<string, MetricConfig>, failing: set<Name>,
                           before: seq<Name>, created: seq<Name>) {
    && (forall n :: multiset(created)[n] <= 1)
    && (forall n :: n in created <==> Required(bucket, metrics, n) && n !in before && n !in failing)
  }

  lemma EveryFunctionHasItsTask(bucket: string, metrics: map<string, MetricConfig>, failing: set<Name>,
                                before: seq<Name>, created: seq<Name>)
    requires NewTasks(bucket, metrics, failing, before, created)
    ensures forall g, i | g in metrics && 0 <= i < |metrics[g].availableAggFns| ::
              var name := bucket + "_" + metrics[g].measurement + "_" + metrics[g].availableAggFns[i];
              name in before + created || name in failing
  {
    forall g, i | g in metrics && 0 <= i < |metrics[g].availableAggFns|
      ensures
        var name := bucket + "_" + metrics[g].measurement + "_" + metrics[g].availableAggFns[i];
        name in before + created || name in failing
    {
      var name := TaskName(bucket, metrics[g].measurement, metrics[g].availableAggFns[i]);
      assert Required(bucket, metrics, name);
    }
  }

  /** After a pass a required name no request failed for has exactly one task if and only if it had at most one
      before; no other name gains or loses a task, and names with several tasks keep all of them. */
  lemma PassMeaning(bucket: string, metrics: map<string, MetricConfig>, failing: set<Name>,
                    before: seq<Name>, created: seq<Name>, n: Name)
    requires NewTasks(bucket, metrics, failing, before, created)
    ensures Required(bucket, metrics, n) && n !in failing ==>
              (multiset(before + created)[n] == 1 <==> multiset(before)[n] <= 1)
    ensures !Required(bucket, metrics, n) || n in failing || multiset(before)[n] >= 1 ==>
              multiset(before + created)[n] == multiset(before)[n]
  {
    assert n in created <==> n in multiset(created);
    assert n in before <==> n in multiset(before);
    assert multiset(before + created) == multiset(before) + multiset(created);
  }

  /** A second pass, after one without a failing request, creates nothing. */
  lemma SecondPassCreatesNothing(bucket: string, metrics: map<string, MetricConfig>, failing: set<Name>,
                                 before: seq<Name>, first: seq<Name>, second: seq<Name>)
    requires NewTasks(bucket, metrics, {}, before, first)
    requires NewTasks(bucket, metrics, failing, before + first, second)
    ensures second == []
  {
    forall n
      ensures n !in second
    {
      assert n in before + first <==> n in before || n in first;
    }
    HasMember(second);
  }

  lemma HasMember(s: seq<Name>)
    ensures s == [] || exists n :: n in s
  {
    if s != [] {
      assert s[0] in s;
    }
  }

  // -------------------------------------------------------- two passes at once

  /** Where a pass is with respect to one task name. */
  datatype Pc = Asking | Missing | Finished

  /** The tasks of one name and the passes; every configuration update starts a pass of its own. */
  datatype State = State(tasks: nat, passes: map<nat, Pc>)

  datatype Action =
    | Begin(pid: nat)
    | Find(pid: nat)
    | FindFails(pid: nat)
    | Create(pid: nat)
    | CreateFails(pid: nat)

  predicate AboutToCreate(s: State, pid: nat) {
    pid in s.passes && s.passes[pid].Missing?
  }

  predicate Enabled(s: State, a: Action) {
    match a
    case Begin(pid) => pid !in s.passes
    case Find(pid) => pid in s.passes && s.passes[pid].Asking?
    case FindFails(pid) => pid in s.passes && s.passes[pid].Asking?
    case Create(pid) => AboutToCreate(s, pid)
    case CreateFails(pid) => AboutToCreate(s, pid)
  }

  function Step(s: State, a: Action): State
    requires Enabled(s, a)
  {
    match a
    case Begin(pid) => s.(passes := s.passes[pid := Asking])
    case Find(pid) => s.(passes := s.passes[pid := if s.tasks == 0 then Missing else Finished])
    case FindFails(pid) => s.(passes := s.passes[pid := Finished])
    case Create(pid) => State(s.tasks + 1, s.passes[pid := Finished])
    case CreateFails(pid) => s.(passes := s.passes[pid := Finished])
  }

  ghost predicate Run(s: State, acts: seq<Action>, t: State)
    decreases |acts|
  {
    if acts == [] then s == t
    else Enabled(s, acts[0]) && Run(Step(s, acts[0]), acts[1..], t)
  }

  function Creations(acts: seq<Action>): nat {
    if acts == [] then 0 else Creations(acts[1..]) + if acts[0].Create? then 1 else 0
  }

  /** Every successful creation stays: duplicates are never repaired. */
  lemma {:induction false} TasksAddUp(s: State, acts: seq<Action>, t: State)
    requires Run(s, acts, t)
    ensures t.tasks == s.tasks + Creations(acts)
    decreases |acts|
  {
    if acts != [] {
      TasksAddUp(Step(s, acts[0]), acts[1..], t);
    }
  }

  /** Two passes look for the task, at `i` and `j`, before either of them creates it, at `k` and `l`. */
  ghost predicate BothCreate(acts: seq<Action>, i: nat, j: nat, k: nat, l: nat) {
    && i < k < |acts| && i < l < |acts| && j < k && j < l
    && acts[k].Create? && acts[l].Create? && acts[k].pid != acts[l].pid
    && acts[i] == Find(acts[k].pid) && acts[j] == Find(acts[l].pid)
  }

  /** The state before action `k` of a run, and the run from there. */
  lemma {:induction false} StateAt(s: State, acts: seq<Action>, t: State, k: nat) returns (m: State)
    requires Run(s, acts, t) && k <= |acts|
    ensures Run(s, acts[..k], m) && Run(m, acts[k..], t)
    decreases |acts|
  {
    if k == 0 {
      m := s;
      assert acts[..0] == [] && acts[0..] == acts;
    } else {
      m := StateAt(Step(s, acts[0]), acts[1..], t, k - 1);
      assert acts[..k][1..] == acts[1..][..k - 1] && acts[1..][k - 1..] == acts[k..];
    }
  }

  /** A pass creates the task only after it has looked for it, at a time when nobody had created it yet. */
  lemma {:induction false} LookedBefore(s: State, acts: seq<Action>, t: State, k: nat) returns (i: nat)
    requires Run(s, acts, t) && k < |acts| && acts[k].Create? && !AboutToCreate(s, acts[k].pid)
    ensures i < k && acts[i] == Find(acts[k].pid)
    ensures s.tasks == 0 && forall j | 0 <= j < i :: !acts[j].Create?
    decreases |acts|
  {
    var n := Step(s, acts[0]);
    if AboutToCreate(n, acts[k].pid) {
      i := 0;
    } else {
      var r := LookedBefore(n, acts[1..], t, k - 1);
      i := r + 1;
      forall j | 0 <= j < i
        ensures !acts[j].Create?
      {
        assert j > 0 ==> acts[j] == acts[1..][j - 1];
      }
    }
  }

  lemma {:induction false} FirstCreation(acts: seq<Action>) returns (k: nat)
    requires Creations(acts) >= 1
    ensures k < |acts| && acts[k].Create? && Creations(acts[k + 1..]) == Creations(acts) - 1
    ensures forall j | 0 <= j < k :: !acts[j].Create?
  {
    if acts[0].Create? {
      k := 0;
    } else {
      var r := FirstCreation(acts[1..]);
      k := r + 1;
      assert acts[1..][r + 1..] == acts[k + 1..];
      forall j | 0 <= j < k
        ensures !acts[j].Create?
      {
        assert j > 0 ==> acts[j] == acts[1..][j - 1];
      }
    }
  }

  lemma {:induction false} CreationAt(acts: seq<Action>, k: nat)
    requires k < |acts| && acts[k].Create?
    ensures Creations(acts) >= 1
    ensures forall l | k < l < |acts| && acts[l].Create? :: Creations(acts) >= 2
  {
    if k == 0 {
      forall l | k < l < |acts| && acts[l].Create?
        ensures Creations(acts[1..]) >= 1
      {
        CreationAt(acts[1..], l - 1);
      }
    } else {
      CreationAt(acts[1..], k - 1);
      forall l | k < l < |acts| && acts[l].Create?
        ensures Creations(acts[1..]) >= 2
      {
        assert acts[1..][l - 1] == acts[l];
      }
    }
  }

  /** A pass creates at most once. */
  lemma DifferentPasses(s: State, acts: seq<Action>, t: State, k: nat, l: nat)
    requires Run(s, acts, t) && k < l < |acts| && acts[k].Create? && acts[l].Create?
    ensures acts[k].pid != acts[l].pid
  {
    var m := StateAt(s, acts, t, k);
    var rest := acts[k..];
    assert rest[0] == acts[k] && rest[1..][l - k - 1] == acts[l];
    var after := Step(m, rest[0]);
    if acts[k].pid == acts[l].pid {
      assert !AboutToCreate(after, acts[l].pid) && after.tasks > 0;
      var _ := LookedBefore(after, rest[1..], t, l - k - 1);
      assert false;
    }
  }

  /** Two creations belong to passes that both looked before either created. */
  lemma CreationsOverlap(s: State, acts: seq<Action>, t: State, k: nat, l: nat) returns (i: nat, j: nat)
    requires s.passes == map[] && Run(s, acts, t)
    requires k < l < |acts| && acts[k].Create? && acts[l].Create?
    ensures BothCreate(acts, i, j, k, l)
  {
    DifferentPasses(s, acts, t, k, l);
    i := LookedBefore(s, acts, t, k);
    j := LookedBefore(s, acts, t, l);
    assert j < k;
  }

  lemma TwoCreations(acts: seq<Action>) returns (k: nat, l: nat)
    requires Creations(acts) >= 2
    ensures k < l < |acts| && acts[k].Create? && acts[l].Create?
  {
    k := FirstCreation(acts);
    var r := FirstCreation(acts[k + 1..]);
    l := k + 1 + r;
  }

  lemma NothingToCreate(s: State, acts: seq<Action>, t: State)
    requires s.passes == map[] && s.tasks > 0 && Run(s, acts, t)
    ensures Creations(acts) == 0
  {
    if Creations(acts) >= 1 {
      var k := FirstCreation(acts);
      var _ := LookedBefore(s, acts, t, k);
      assert false;
    }
  }

  /** However many passes run at once, and whatever requests fail: starting with at most one task, the
      name ends up with several if and only if two passes looked for it before either created it, and
      both creations succeeded. */
  lemma DuplicatesIffBothCreate(s: State, acts: seq<Action>, t: State)
    requires s.passes == map[] && s.tasks <= 1 && Run(s, acts, t)
    ensures t.tasks >= 2 <==> exists i: nat, j: nat, k: nat, l: nat :: BothCreate(acts, i, j, k, l)
  {
    TasksAddUp(s, acts, t);
    if i: nat, j: nat, k: nat, l: nat :| BothCreate(acts, i, j, k, l) {
      CreationAt(acts, if k < l then k else l);
    } else if t.tasks >= 2 {
      if s.tasks == 1 {
        NothingToCreate(s, acts, t);
      } else {
        var k, l := TwoCreations(acts);
        var i, j := CreationsOverlap(s, acts, t, k, l);
        assert BothCreate(acts, i, j, k, l);
      }
    }
  }

  /** Some pass looks for the missing task while another one is about to create it. */
  ghost predicate Overlaps(s: State, acts: seq<Action>, t: State)
    requires Run(s, acts, t)
    decreases |acts|
  {
    acts != [] &&
    ((acts[0].Find? && s.tasks == 0 && exists p :: AboutToCreate(s, p)) || Overlaps(Step(s, acts[0]), acts[1..], t))
  }

  /** One task, or none and at most one pass about to create it. */
  ghost predicate AtMostOne(s: State) {
    if s.tasks == 0 then forall p, q | AboutToCreate(s, p) && AboutToCreate(s, q) :: p == q
    else s.tasks == 1 && forall p :: !AboutToCreate(s, p)
  }

  /** Passes that never overlap create no duplicate, whatever fails. */
  lemma {:induction false} NoOverlapNoDuplicate(s: State, acts: seq<Action>, t: State)
    requires AtMostOne(s) && Run(s, acts, t) && !Overlaps(s, acts, t)
    ensures AtMostOne(t)
    decreases |acts|
  {
    if acts != [] {
      var n := Step(s, acts[0]);
      assert forall p | p != acts[0].pid :: AboutToCreate(n, p) <==> AboutToCreate(s, p);
      NoOverlapNoDuplicate(n, acts[1..], t);
    }
  }

  /** Two passes that overlap, both successful, leave the name with two tasks. */
  lemma OverlappingPassesDuplicate() returns (acts: seq<Action>, t: State)
    ensures Run(State(0, map[]), acts, t) && t.tasks == 2 && forall p | p in t.passes :: t.passes[p].Finished?
  {
    acts := [Begin(0), Begin(1), Find(0), Find(1), Create(0), Create(1)];
    var s0 := State(0, map[]);
    var s1 := Step(s0, acts[0]);
    var s2 := Step(s1, acts[1]);
    var s3 := Step(s2, acts[2]);
    var s4 := Step(s3, acts[3]);
    var s5 := Step(s4, acts[4]);
    t := Step(s5, acts[5]);
    assert acts[5..][1..] == [] && Run(s5, acts[5..], t);
    assert acts[4..][1..] == acts[5..] && Run(s4, acts[4..], t);
    assert acts[3..][1..] == acts[4..] && Run(s3, acts[3..], t);
    assert acts[2..][1..] == acts[3..] && Run(s2, acts[2..], t);
    assert acts[1..][1..] == acts[2..] && Run(s1, acts[1..], t);
  }

  /** With the first creation refused, the same overlap ends with one task. */
  lemma OverlapCanBeHarmless() returns (acts: seq<Action>, t: State)
    ensures Run(State(0, map[]), acts, t) && Overlaps(State(0, map[]), acts, t)
    ensures t.tasks == 1 && forall p | p in t.passes :: t.passes[p].Finished?
  {
    acts := [Begin(0), Begin(1), Find(0), Find(1), CreateFails(0), Create(1)];
    var s0 := State(0, map[]);
    var s1 := Step(s0, acts[0]);
    var s2 := Step(s1, acts[1]);
    var s3 := Step(s2, acts[2]);
    var s4 := Step(s3, acts[3]);
    var s5 := Step(s4, acts[4]);
    t := Step(s5, acts[5]);
    assert acts[5..][1..] == [] && Run(s5, acts[5..], t);
    assert acts[4..][1..] == acts[5..] && Run(s4, acts[4..], t);
    assert AboutToCreate(s3, 0);
    assert acts[3..][1..] == acts[4..] && Run(s3, acts[3..], t) && Overlaps(s3, acts[3..], t);
    assert acts[2..][1..] == acts[3..] && Run(s2, acts[2..], t) && Overlaps(s2, acts[2..], t);
    assert acts[1..][1..] == acts[2..] && Run(s1, acts[1..], t) && Overlaps(s1, acts[1..], t);
  }
}
