/** Concurrent updates of the job table.

    `StopJob` and `RefreshMetadata` read a whole record, change their copy, ask the metric database
    and write the whole record back, without a transaction. Each of these is one action here, so a
    run may interleave any number of updates, overtime sweeps and inserts at every point. */
module JobTable {
  import opened Wrappers
  import opened Jobs

  datatype Purpose = Stop(req: StopRequest) | Refresh

  datatype Task =
    | Requested(purpose: Purpose, id: int)     // before the record is read
    | Loaded(purpose: Purpose, copy: Job)      // copy read and changed
    | Ready(purpose: Purpose, copy: Job)       // metrics computed, before the write
    | Ended(ok: bool)

  datatype State = State(
    table: map<int, Job>,
    tasks: map<nat, Task>,
    born: map<int, Job>,                 // every record as it was inserted
    stops: set<(int, StopRequest)>       // every stop ever requested
  )

  datatype Action =
    | Insert(job: Job)
    | Request(pid: nat, purpose: Purpose, id: int)
    | SweepPicks(pid: nat, id: int, maxTime: int, now: int)
    | Read(pid: nat, ok: bool)
    | Compute(pid: nat, answer: Option<seq<real>>)
    | Write(pid: nat, ok: bool)

  function Init(): State {
    State(map[], map[], map[], {})
  }

  predicate Enabled(s: State, a: Action) {
    match a
    case Insert(_) => true
    case Request(pid, _, _) => pid !in s.tasks
    case SweepPicks(pid, id, maxTime, now) =>
      pid !in s.tasks && id in s.table && s.table[id].isRunning && s.table[id].info.startTime < now - maxTime
    case Read(pid, _) => pid in s.tasks && s.tasks[pid].Requested?
    case Compute(pid, _) => pid in s.tasks && s.tasks[pid].Loaded?
    case Write(pid, _) => pid in s.tasks && s.tasks[pid].Ready?
  }

  function Add(s: State, pid: nat, purpose: Purpose, id: int): State {
    s.(tasks := s.tasks[pid := Requested(purpose, id)],
    stops := if purpose.Stop? then s.stops + {(id, purpose.req)} else s.stops)
  }

  function Step(s: State, a: Action): State
    requires Enabled(s, a)
  {
    match a
    case Insert(j) =>
      if j.id in s.table then s   // primary key conflict, PutJob returns the error
      else s.(table := s.table[j.id := j], born := s.born[j.id := j])
    case Request(pid, purpose, id) => Add(s, pid, purpose, id)
    case SweepPicks(pid, id, maxTime, _) =>
      Add(s, pid, Stop(StopRequest(1, s.table[id].info.startTime + maxTime)), id)
    case Read(pid, ok) =>
      var t := s.tasks[pid];
      if !ok || t.id !in s.table then s.(tasks := s.tasks[pid := Ended(false)])
      else
        var copy := if t.purpose.Stop? then MarkStopped(s.table[t.id], t.purpose.req) else s.table[t.id];
        s.(tasks := s.tasks[pid := Loaded(t.purpose, copy)])
    case Compute(pid, answer) =>
      var t := s.tasks[pid];
      (match Measure(t.copy, answer)
       case Err => s.(tasks := s.tasks[pid := Ended(false)])
       case Ok(m) => s.(tasks := s.tasks[pid := Ready(t.purpose, t.copy.(data := m))]))
    case Write(pid, ok) =>
      var c := s.tasks[pid].copy;
      s.(tasks := s.tasks[pid := Ended(ok)],
      table := if ok && c.id in s.table then s.table[c.id := c] else s.table)
  }

  ghost predicate Run(s: State, acts: seq<Action>, t: State)
    decreases |acts|
  {
    if acts == [] then s == t
    else Enabled(s, acts[0]) && Run(Step(s, acts[0]), acts[1..], t)
  }

  // ------------------------------------------------------------- invariant

  /** Stop time and exit code of a record. */
  function StopData(j: Job): StopRequest {
    StopRequest(j.exitCode, j.stopTime)
  }

  /** The stop time and exit code of `j` came together, in one request or with the insert. */
  ghost predicate StopFromOneSource(s: State, j: Job)
    requires j.id in s.born
  {
    (j.id, StopData(j)) in s.stops || StopData(j) == StopData(s.born[j.id])
  }

  ghost predicate RecordOk(s: State, j: Job) {
    j.id in s.born && SameIdentity(j, s.born[j.id]) && StopFromOneSource(s, j)
  }

  ghost predicate CopyOk(s: State, purpose: Purpose, c: Job) {
    && RecordOk(s, c) && c.id in s.table
    && (purpose.Stop? ==> StopData(c) == purpose.req && !c.isRunning && (c.id, purpose.req) in s.stops)
    && (purpose.Refresh? && !c.isRunning ==> !s.table[c.id].isRunning)
  }

  ghost predicate TaskOk(s: State, t: Task) {
    match t
    case Requested(Stop(req), id) => (id, req) in s.stops
    case Loaded(purpose, c) => CopyOk(s, purpose, c)
    case Ready(purpose, c) => CopyOk(s, purpose, c) && Completed(c)
    case _ => true
  }

  ghost predicate Inv(s: State) {
    && s.born.Keys == s.table.Keys
    && (forall id | id in s.table :: s.table[id].id == id == s.born[id].id && RecordOk(s, s.table[id]))
    && (forall id | id in s.table :: s.table[id] == s.born[id] || Completed(s.table[id]))
    && (forall pid | pid in s.tasks :: TaskOk(s, s.tasks[pid]))
  }

  /** `t` may have more records and requests than `s`; what `s` had is still there and no job runs again. */
  ghost predicate Grows(s: State, t: State) {
    && s.stops <= t.stops
    && (forall id | id in s.born :: id in t.born && t.born[id] == s.born[id])
    && (forall id | id in s.table :: id in t.table && (t.table[id].isRunning ==> s.table[id].isRunning))
  }

  lemma TaskStaysOk(s: State, t: State, task: Task)
    requires TaskOk(s, task) && Grows(s, t)
    ensures TaskOk(t, task)
  {
  }

  lemma StepGrows(s: State, a: Action)
    requires Inv(s) && Enabled(s, a)
    ensures Grows(s, Step(s, a))
  {
    match a {
      case Insert(_) =>
      case Write(pid, _) =>
        assert TaskOk(s, s.tasks[pid]);
      case _ =>
        assert Step(s, a).table == s.table && Step(s, a).born == s.born;
    }
  }

  /** The task an action works on is in order afterwards. */
  lemma OwnTaskOk(s: State, a: Action)
    requires Inv(s) && Enabled(s, a) && !a.Insert?
    ensures a.pid in Step(s, a).tasks && TaskOk(Step(s, a), Step(s, a).tasks[a.pid])
  {
    if a.Read? || a.Compute? {
      assert TaskOk(s, s.tasks[a.pid]);
      if a.Read? && s.tasks[a.pid].id in s.table {
        assert RecordOk(s, s.table[s.tasks[a.pid].id]);
      }
    }
  }

  lemma RecordsStayOk(s: State, a: Action, id: int)
    requires Inv(s) && Enabled(s, a) && id in Step(s, a).table
    ensures
      var t := Step(s, a);
      && t.table[id].id == id && id in t.born && t.born[id].id == id && RecordOk(t, t.table[id])
      && (t.table[id] == t.born[id] || Completed(t.table[id]))
  {
    match a {
      case Insert(_) =>
      case Write(pid, _) =>
        assert TaskOk(s, s.tasks[pid]);
      case _ =>
        assert Step(s, a).table == s.table && RecordOk(s, s.table[id]);
    }
  }

  lemma StepKeepsInv(s: State, a: Action)
    requires Inv(s) && Enabled(s, a)
    ensures Inv(Step(s, a))
  {
    var t := Step(s, a);
    StepGrows(s, a);
    forall pid | pid in t.tasks
      ensures TaskOk(t, t.tasks[pid])
    {
      if a.Insert? || pid != a.pid {
        TaskStaysOk(s, t, s.tasks[pid]);
      } else {
        OwnTaskOk(s, a);
      }
    }
    forall id | id in t.table
      ensures t.table[id].id == id == t.born[id].id && RecordOk(t, t.table[id])
      ensures t.table[id] == t.born[id] || Completed(t.table[id])
    {
      RecordsStayOk(s, a, id);
    }
  }

  lemma {:induction false} RunKeepsInv(s: State, acts: seq<Action>, t: State)
    requires Inv(s) && Run(s, acts, t)
    ensures Inv(t)
    decreases |acts|
  {
    if acts != [] {
      StepKeepsInv(s, acts[0]);
      RunKeepsInv(Step(s, acts[0]), acts[1..], t);
    }
  }

  // ------------------------------------------------------------- theorems

  /** After any interleaving every record is the inserted one or has a stop strictly after its start,
      metrics of exactly that window and a stop time and exit code of one single request; the fields
      fixed at insert never differ from the inserted ones. */
  lemma RecordsStaySound(acts: seq<Action>, t: State, id: int)
    requires Run(Init(), acts, t) && id in t.table
    ensures t.table[id].id == id && id in t.born && SameIdentity(t.table[id], t.born[id])
    ensures t.table[id] != t.born[id] ==> Completed(t.table[id]) && StopFromOneSource(t, t.table[id])
    ensures t.born[id].isRunning && !t.table[id].isRunning ==> t.table[id].info.startTime < t.table[id].stopTime
  {
    RunKeepsInv(Init(), acts, t);
  }

  /** How often the running flag of job `id` changes along a run. */
  ghost function Flips(s: State, acts: seq<Action>, t: State, id: int): nat
    requires Run(s, acts, t)
    decreases |acts|
  {
    if acts == [] then 0
    else
      var n := Step(s, acts[0]);
      Flips(n, acts[1..], t, id) +
      if id in s.table && (id !in n.table || n.table[id].isRunning != s.table[id].isRunning) then 1 else 0
  }

  /** A job stops at most once and never runs again, and no record disappears. */
  lemma {:induction false} StopsAtMostOnce(s: State, acts: seq<Action>, t: State, id: int)
    requires Inv(s) && Run(s, acts, t)
    ensures Flips(s, acts, t, id) <= 1
    ensures id in s.table ==> id in t.table
    ensures id in s.table && !s.table[id].isRunning ==> !t.table[id].isRunning && Flips(s, acts, t, id) == 0
    decreases |acts|
  {
    if acts != [] {
      StepKeepsInv(s, acts[0]);
      StepGrows(s, acts[0]);
      StopsAtMostOnce(Step(s, acts[0]), acts[1..], t, id);
    }
  }

  /** What a stop, or a refresh, does to a record when nothing else runs. */
  function AtomicStop(j: Job, req: StopRequest, values: seq<real>): Job {
    MarkStopped(j, req).(data := Metrics(j.info.startTime, req.stopTime, values))
  }

  function AtomicRefresh(j: Job, values: seq<real>): Job {
    j.(data := Metrics(j.info.startTime, j.stopTime, values))
  }

  /** However many other updates ran since a stop read the record, its write has the effect of one
      undivided stop of the record as it is now: stops are atomic. */
  lemma StopWriteIsAtomic(s: State, pid: nat)
    requires Inv(s) && pid in s.tasks && s.tasks[pid].Ready? && s.tasks[pid].purpose.Stop?
    ensures s.tasks[pid].copy.id in s.table
    ensures
      var c := s.tasks[pid].copy;
      Step(s, Write(pid, true)).table
      == s.table[c.id := AtomicStop(s.table[c.id], s.tasks[pid].purpose.req, c.data.values)]
  {
    assert TaskOk(s, s.tasks[pid]);
  }

  /** A refresh is not: its write is the undivided refresh of the current record exactly when the
      record still carries the stop time and exit code the refresh has read. */
  lemma RefreshWriteIsAtomicIff(s: State, pid: nat)
    requires Inv(s) && pid in s.tasks && s.tasks[pid].Ready? && s.tasks[pid].purpose.Refresh?
    ensures s.tasks[pid].copy.id in s.table
    ensures
      var c := s.tasks[pid].copy;
      Step(s, Write(pid, true)).table == s.table[c.id := AtomicRefresh(s.table[c.id], c.data.values)]
      <==> StopData(c) == StopData(s.table[c.id])
  {
    assert TaskOk(s, s.tasks[pid]);
    var c := s.tasks[pid].copy;
    var r := s.table[c.id];
    assert RecordOk(s, r);
    assert Step(s, Write(pid, true)).table[c.id] == c;
    assert s.table[c.id := AtomicRefresh(r, c.data.values)][c.id] == AtomicRefresh(r, c.data.values);
  }

  /** One undivided operation on the table: nothing, an insert, or a stop somebody has requested. */
  ghost predicate AtomicNext(from: map<int, Job>, to: map<int, Job>, stops: set<(int, StopRequest)>) {
    || to == from
    || (exists j: Job :: j.id !in from && to == from[j.id := j])
    || (exists id: int, req: StopRequest, values: seq<real> ::
          && id in from && (id, req) in stops && from[id].info.startTime < req.stopTime
          && to == from[id := AtomicStop(from[id], req, values)])
  }

  /** As long as no refresh takes part, every interleaving refines a table with undivided inserts and
      stops: each action of the fine-grained system is one such operation or none. */
  lemma WithoutRefreshStepsAreAtomic(s: State, a: Action)
    requires Inv(s) && Enabled(s, a)
    requires a.Write? ==> s.tasks[a.pid].purpose.Stop?
    ensures AtomicNext(s.table, Step(s, a).table, s.stops)
  {
    if a.Write? && a.ok {
      StopWriteIsAtomic(s, a.pid);
      var c := s.tasks[a.pid].copy;
      assert TaskOk(s, s.tasks[a.pid]);
      assert c.info.startTime == s.table[c.id].info.startTime by { assert RecordOk(s, s.table[c.id]); }
    } else if a.Insert? && a.job.id !in s.table {
      assert Step(s, a).table == s.table[a.job.id := a.job];
    }
  }

  // ------------------------------------------------- runs and their writes

  /** A change of the table, with the task that made it. */
  datatype Effect =
    | Inserted(job: Job)
    | Stopped(pid: nat, id: int, req: StopRequest, values: seq<real>)
    | Refreshed(pid: nat, copy: Job)
  {
    /** The record that changed. */
    function Target(): int {
      match this
      case Inserted(j) => j.id
      case Stopped(_, id, _, _) => id
      case Refreshed(_, c) => c.id
    }

    /** The stop data the record has afterwards. */
    function Data(): StopRequest {
      match this
      case Inserted(j) => StopData(j)
      case Stopped(_, _, req, _) => req
      case Refreshed(_, c) => StopData(c)
    }
  }

  /** An undivided insert or stop; a refresh writes back what it has read. */
  function Apply(table: map<int, Job>, e: Effect): map<int, Job> {
    match e
    case Inserted(j) => table[j.id := j]
    case Stopped(_, id, req, values) => if id in table then table[id := AtomicStop(table[id], req, values)] else table
    case Refreshed(_, c) => table[c.id := c]
  }

  function ApplyAll(table: map<int, Job>, es: seq<Effect>): map<int, Job>
    decreases |es|
  {
    if es == [] then table else ApplyAll(Apply(table, es[0]), es[1..])
  }

  /** The change an action makes, if any. */
  function EffectOf(s: State, a: Action): seq<Effect>
    requires Enabled(s, a)
  {
    if a.Insert? && a.job.id !in s.table then [Inserted(a.job)]
    else if a.Write? && a.ok && s.tasks[a.pid].copy.id in s.table then
      var c := s.tasks[a.pid].copy;
      match s.tasks[a.pid].purpose
      case Stop(req) => [Stopped(a.pid, c.id, req, if c.data.Metrics? then c.data.values else [])]
      case Refresh => [Refreshed(a.pid, c)]
    else []
  }

  /** The changes along a run, in the order of the writes. */
  ghost function Effects(s: State, acts: seq<Action>, t: State): seq<Effect>
    requires Run(s, acts, t)
    decreases |acts|
  {
    if acts == [] then [] else EffectOf(s, acts[0]) + Effects(Step(s, acts[0]), acts[1..], t)
  }

  lemma StepIsItsEffect(s: State, a: Action)
    requires Inv(s) && Enabled(s, a)
    ensures Step(s, a).table == ApplyAll(s.table, EffectOf(s, a))
  {
    if a.Write? && a.ok {
      assert TaskOk(s, s.tasks[a.pid]);
      if s.tasks[a.pid].purpose.Stop? {
        StopWriteIsAtomic(s, a.pid);
      }
    }
  }

  lemma {:induction false} ApplyConcat(table: map<int, Job>, a: seq<Effect>, b: seq<Effect>)
    ensures ApplyAll(table, a + b) == ApplyAll(ApplyAll(table, a), b)
    decreases |a|
  {
    if a == [] {
      assert a + b == b;
    } else {
      assert (a + b)[1..] == a[1..] + b;
      ApplyConcat(Apply(table, a[0]), a[1..], b);
    }
  }

  /** What a stop in a run has to do with the run: it was requested, and it stops after the start. */
  ghost predicate EffectOk(t: State, e: Effect) {
    && e.Target() in t.table
    && (e.Stopped? ==> (e.id, e.req) in t.stops && t.table[e.id].info.startTime < e.req.stopTime)
  }

  lemma StepEffectOk(s: State, a: Action, e: Effect)
    requires Inv(s) && Enabled(s, a) && e in EffectOf(s, a)
    ensures EffectOk(Step(s, a), e)
  {
    if a.Write? {
      assert TaskOk(s, s.tasks[a.pid]);
    }
  }

  lemma {:induction false} EffectStaysOk(s: State, acts: seq<Action>, t: State, e: Effect)
    requires Inv(s) && Run(s, acts, t) && EffectOk(s, e)
    ensures EffectOk(t, e)
    decreases |acts|
  {
    if acts != [] {
      var n := Step(s, acts[0]);
      StepGrows(s, acts[0]);
      StepKeepsInv(s, acts[0]);
      assert n.table[e.Target()].info == n.born[e.Target()].info by { assert RecordOk(n, n.table[e.Target()]); }
      assert s.table[e.Target()].info == s.born[e.Target()].info by { assert RecordOk(s, s.table[e.Target()]); }
      EffectStaysOk(n, acts[1..], t, e);
    }
  }

  /** Whole runs: the final table is the first one after the changes in the order of their writes, every
      stop among them is one that was requested, undivided, and ends after the job's start. Without
      refreshes all changes are undivided inserts and stops. */
  lemma {:induction false} RunIsItsWrites(s: State, acts: seq<Action>, t: State)
    requires Inv(s) && Run(s, acts, t)
    ensures t.table == ApplyAll(s.table, Effects(s, acts, t))
    ensures forall e | e in Effects(s, acts, t) :: EffectOk(t, e)
    decreases |acts|
  {
    if acts != [] {
      var n := Step(s, acts[0]);
      StepKeepsInv(s, acts[0]);
      RunIsItsWrites(n, acts[1..], t);
      StepIsItsEffect(s, acts[0]);
      ApplyConcat(s.table, EffectOf(s, acts[0]), Effects(n, acts[1..], t));
      forall e | e in EffectOf(s, acts[0])
        ensures EffectOk(t, e)
      {
        StepEffectOk(s, acts[0], e);
        EffectStaysOk(n, acts[1..], t, e);
      }
    }
  }

  // ------------------------------------------------------- whose stop stays

  /** The stop data of record `id` after some changes. */
  function LastData(es: seq<Effect>, id: int, before: StopRequest): StopRequest {
    if es == [] then before
    else LastData(es[1..], id, if es[0].Target() == id then es[0].Data() else before)
  }

  lemma {:induction false} LastWriteWins(table: map<int, Job>, es: seq<Effect>, id: int)
    requires id in table
    ensures id in ApplyAll(table, es)
    ensures StopData(ApplyAll(table, es)[id]) == LastData(es, id, StopData(table[id]))
    decreases |es|
  {
    if es != [] {
      LastWriteWins(Apply(table, es[0]), es[1..], id);
    }
  }

  lemma {:induction false} LastDataAt(es: seq<Effect>, id: int, before: StopRequest, k: nat)
    requires k < |es| && es[k].Target() == id && forall i | k < i < |es| :: es[i].Target() != id
    ensures LastData(es, id, before) == es[k].Data()
  {
    if k == 0 {
      LastDataUntouched(es[1..], id, es[0].Data());
    } else {
      LastDataAt(es[1..], id, if es[0].Target() == id then es[0].Data() else before, k - 1);
    }
  }

  lemma {:induction false} LastDataUntouched(es: seq<Effect>, id: int, before: StopRequest)
    requires forall i | 0 <= i < |es| :: es[i].Target() != id
    ensures LastData(es, id, before) == before
  {
    if es != [] {
      LastDataUntouched(es[1..], id, before);
    }
  }

  /** A task on its way to stop record `id` as requested. */
  predicate Stopping(task: Task, id: int, req: StopRequest) {
    match task
    case Requested(purpose, i) => i == id && purpose == Stop(req)
    case Loaded(purpose, c) => c.id == id && purpose == Stop(req)
    case Ready(purpose, c) => c.id == id && purpose == Stop(req)
    case Ended(_) => false
  }

  lemma StoppingStep(s: State, a: Action, pid: nat, id: int, req: StopRequest)
    requires Inv(s) && Enabled(s, a) && pid in s.tasks && (Stopping(s.tasks[pid], id, req) || s.tasks[pid].Ended?)
    ensures
      var t := Step(s, a);
      pid in t.tasks && (Stopping(t.tasks[pid], id, req) || t.tasks[pid].Ended?)
    ensures forall e | e in EffectOf(s, a) && !e.Inserted? && e.pid == pid ::
              e.Stopped? && e.id == id && e.req == req
  {
    if a.Read? && a.pid == pid && s.tasks[pid].id in s.table {
      assert s.table[s.tasks[pid].id].id == s.tasks[pid].id;
    }
  }

  /** What a pending stop writes later is the stop that was requested. */
  lemma {:induction false} WritesItsRequest(s: State, acts: seq<Action>, t: State, pid: nat, id: int, req: StopRequest)
    requires Inv(s) && Run(s, acts, t) && pid in s.tasks && (Stopping(s.tasks[pid], id, req) || s.tasks[pid].Ended?)
    ensures forall e | e in Effects(s, acts, t) && !e.Inserted? && e.pid == pid ::
              e.Stopped? && e.id == id && e.req == req
    decreases |acts|
  {
    if acts != [] {
      StoppingStep(s, acts[0], pid, id, req);
      StepKeepsInv(s, acts[0]);
      WritesItsRequest(Step(s, acts[0]), acts[1..], t, pid, id, req);
    }
  }

  /** A stop is pending in `s`. In every run from there in which it is written as change `j`, and the
      record is otherwise changed only once, by change `i` of any kind, the stop survives if and only if
      it is written after the other change, or that left the same stop data. */
  lemma StopSurvivesIff(s: State, acts: seq<Action>, t: State, id: int, job: nat, own: StopRequest, i: nat, j: nat)
    requires Inv(s) && Run(s, acts, t) && id in s.table
    requires job in s.tasks && Stopping(s.tasks[job], id, own)
    requires i < |Effects(s, acts, t)| && j < |Effects(s, acts, t)| && i != j
    requires Effects(s, acts, t)[j].Stopped? && Effects(s, acts, t)[j].pid == job
    requires forall k | 0 <= k < |Effects(s, acts, t)| :: Effects(s, acts, t)[k].Target() == id <==> k == i || k == j
    ensures id in t.table && (StopData(t.table[id]) == own <==> j > i || Effects(s, acts, t)[i].Data() == own)
  {
    var es := Effects(s, acts, t);
    RunIsItsWrites(s, acts, t);
    WritesItsRequest(s, acts, t, job, id, own);
    assert es[i] in es && es[j] in es;
    LastWriteWins(s.table, es, id);
    LastDataAt(es, id, StopData(s.table[id]), if i < j then j else i);
  }

  /** So a job's own stop survives a sweep that has picked the job if and only if it is written after
      the sweep's stop, or the two are the same. */
  lemma OwnStopSurvivesIff(s: State, acts: seq<Action>, t: State, id: int, sweep: nat, reaped: StopRequest,
                           job: nat, own: StopRequest, i: nat, j: nat)
    requires Inv(s) && Run(s, acts, t) && id in s.table
    requires sweep in s.tasks && Stopping(s.tasks[sweep], id, reaped)
    requires job in s.tasks && Stopping(s.tasks[job], id, own)
    requires i < |Effects(s, acts, t)| && j < |Effects(s, acts, t)| && i != j
    requires Effects(s, acts, t)[i].Stopped? && Effects(s, acts, t)[i].pid == sweep
    requires Effects(s, acts, t)[j].Stopped? && Effects(s, acts, t)[j].pid == job
    requires forall k | 0 <= k < |Effects(s, acts, t)| && Effects(s, acts, t)[k].Target() == id :: k == i || k == j
    ensures id in t.table && (StopData(t.table[id]) == own <==> j > i || own == reaped)
  {
    var es := Effects(s, acts, t);
    WritesItsRequest(s, acts, t, sweep, id, reaped);
    WritesItsRequest(s, acts, t, job, id, own);
    assert es[i] in es && es[j] in es;
    StopSurvivesIff(s, acts, t, id, job, own, i, j);
  }

  /** When the write of a stop replaces the stop a record already has. */
  lemma StopOverrulesIff(s: State, pid: nat)
    requires Inv(s) && pid in s.tasks && s.tasks[pid].Ready? && s.tasks[pid].purpose.Stop?
    ensures s.tasks[pid].copy.id in s.table
    ensures
      var r := s.table[s.tasks[pid].copy.id];
      StopData(Step(s, Write(pid, true)).table[r.id]) != StopData(r) <==> StopData(r) != s.tasks[pid].purpose.req
  {
    StopWriteIsAtomic(s, pid);
  }

  /** A run can be continued by any enabled action. */
  lemma {:induction false} Extend(s: State, acts: seq<Action>, t: State, a: Action)
    returns (acts': seq<Action>, t': State)
    requires Run(s, acts, t) && Enabled(t, a)
    ensures acts' == acts + [a] && t' == Step(t, a) && Run(s, acts', t')
    decreases |acts|
  {
    acts', t' := acts + [a], Step(t, a);
    if acts == [] {
      assert acts'[1..] == [];
    } else {
      var _, _ := Extend(Step(s, acts[0]), acts[1..], t, a);
      assert acts'[1..] == acts[1..] + [a];
    }
  }

  /** The four actions of a stop, performed without interruption. */
  lemma StopAlone(s: State, acts: seq<Action>, t: State, pid: nat, req: StopRequest, id: int, values: seq<real>)
    returns (acts': seq<Action>, t': State)
    requires Run(s, acts, t) && pid !in t.tasks && id in t.table && t.table[id].id == id
    requires t.table[id].info.startTime < req.stopTime
    ensures Run(s, acts', t')
    ensures t' == t.(tasks := t.tasks[pid := Ended(true)], table := t.table[id := AtomicStop(t.table[id], req, values)],
                     stops := t.stops + {(id, req)})
  {
    var copy := MarkStopped(t.table[id], req);
    var m := Metrics(copy.info.startTime, copy.stopTime, values);
    var acts1, t1 := Extend(s, acts, t, Request(pid, Stop(req), id));
    var acts2, t2 := Extend(s, acts1, t1, Read(pid, true));
    assert t2.tasks == t.tasks[pid := Loaded(Stop(req), copy)];
    var acts3, t3 := Extend(s, acts2, t2, Compute(pid, Some(values)));
    assert t3.tasks == t.tasks[pid := Ready(Stop(req), copy.(data := m))];
    acts', t' := Extend(s, acts3, t3, Write(pid, true));
  }

  /** A refresh of a completed record, performed up to its write. */
  lemma RefreshUpToWrite(s: State, acts: seq<Action>, t: State, pid: nat, id: int, values: seq<real>)
    returns (acts': seq<Action>, t': State)
    requires Run(s, acts, t) && pid !in t.tasks && id in t.table && Completed(t.table[id])
    ensures Run(s, acts', t')
    ensures t' == t.(tasks := t.tasks[pid := Ready(Refresh, AtomicRefresh(t.table[id], values))])
  {
    var acts1, t1 := Extend(s, acts, t, Request(pid, Refresh, id));
    var acts2, t2 := Extend(s, acts1, t1, Read(pid, true));
    assert t2.tasks == t.tasks[pid := Loaded(Refresh, t.table[id])];
    acts', t' := Extend(s, acts2, t2, Compute(pid, Some(values)));
    assert t'.tasks == t.tasks[pid := Ready(Refresh, AtomicRefresh(t.table[id], values))];
  }

  lemma StopsDiffer(j: Job, a: StopRequest, b: StopRequest, values: seq<real>)
    ensures map[j.id := AtomicStop(j, a, values)] != map[j.id := AtomicStop(j, b, values)] <==> a != b
  {
    var x, y := map[j.id := AtomicStop(j, a, values)], map[j.id := AtomicStop(j, b, values)];
    assert x[j.id] == AtomicStop(j, a, values) && y[j.id] == AtomicStop(j, b, values);
    assert StopData(x[j.id]) == a && StopData(y[j.id]) == b;
  }

  /** A refresh can undo a stop. In this run a refresh has read the record before a second stop
      completes in `mid`; its write then brings the first stop's record back, and the second stop is
      lost unless it was the same. */
  lemma RefreshCanLoseAStop(j: Job, first: StopRequest, second: StopRequest, values: seq<real>)
    returns (acts: seq<Action>, mid: State)
    requires first.stopTime > j.info.startTime && second.stopTime > j.info.startTime
    ensures Run(Init(), acts, mid) && j.id in mid.table
    ensures 2 in mid.tasks && 3 in mid.tasks && mid.tasks[3] == Ended(true)
    ensures mid.table[j.id] == AtomicStop(j, second, values)
    ensures Enabled(mid, Write(2, true)) && Step(mid, Write(2, true)).table == map[j.id := AtomicStop(j, first, values)]
    ensures Step(mid, Write(2, true)).table != mid.table <==> first != second
  {
    var acts1, t1 := Extend(Init(), [], Init(), Insert(j));
    var acts2, t2 := StopAlone(Init(), acts1, t1, 1, first, j.id, values);
    var acts3, t3 := RefreshUpToWrite(Init(), acts2, t2, 2, j.id, values);
    acts, mid := StopAlone(Init(), acts3, t3, 3, second, j.id, values);
    StopsDiffer(j, first, second, values);
  }

  /** The overtime sweep can overrule a job's own stop. In this run the sweep selects the running job,
      the job's stop completes in `mid`, and the sweep's stop then replaces stop time and exit code,
      unless they were the same. */
  lemma SweepCanOverruleAStop(j: Job, own: StopRequest, maxTime: int, now: int, values: seq<real>)
    returns (acts: seq<Action>, mid: State, acts': seq<Action>, t: State)
    requires j.isRunning && j.info.startTime < now - maxTime && maxTime > 0 && own.stopTime > j.info.startTime
    ensures Run(Init(), acts, mid) && mid.tasks == map[1 := Requested(Stop(StopRequest(1, j.info.startTime + maxTime)), j.id),
                                                       2 := Ended(true)]
    ensures mid.table == map[j.id := AtomicStop(j, own, values)]
    ensures Run(mid, acts', t)
    ensures t.table == map[j.id := AtomicStop(j, StopRequest(1, j.info.startTime + maxTime), values)]
    ensures t.table != mid.table <==> own != StopRequest(1, j.info.startTime + maxTime)
  {
    var req := StopRequest(1, j.info.startTime + maxTime);
    var acts1, t1 := Extend(Init(), [], Init(), Insert(j));
    var acts2, t2 := Extend(Init(), acts1, t1, SweepPicks(1, j.id, maxTime, now));
    acts, mid := StopAlone(Init(), acts2, t2, 2, own, j.id, values);
    var copy := MarkStopped(mid.table[j.id], req);
    var acts3, t3 := Extend(mid, [], mid, Read(1, true));
    assert t3.tasks[1] == Loaded(Stop(req), copy);
    var acts4, t4 := Extend(mid, acts3, t3, Compute(1, Some(values)));
    acts', t := Extend(mid, acts4, t4, Write(1, true));
    StopsDiffer(j, own, req, values);
  }
}
