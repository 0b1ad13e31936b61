/** The job store used by one caller at a time: inserts, stops, refreshes and the overtime sweep. */
module JobStore {
  import opened Wrappers
  import opened Jobs
  import JobTable

  /** What the metric database answers for the record it is asked about. */
  type MetricSource = Job -> Option<seq<real>>

  /** The record a stop writes, or the reason not to write one. */
  function StopOutcome(j: Job, req: StopRequest, metrics: MetricSource): Result<Job> {
    var marked := MarkStopped(j, req);
    match Measure(marked, metrics(marked))
    case Err => Err
    case Ok(m) => Ok(marked.(data := m))
  }

  /** `s` is `j` stopped as requested, after its start, with the metrics of exactly its window. */
  ghost predicate Stopped(j: Job, req: StopRequest, metrics: MetricSource, s: Job) {
    var answer := metrics(j.(isRunning := false, stopTime := req.stopTime, exitCode := req.exitCode));
    && s.id == j.id && s.info == j.info && !s.isRunning
    && s.stopTime == req.stopTime && s.exitCode == req.exitCode && j.info.startTime < req.stopTime
    && answer.Some? && s.data == Metrics(j.info.startTime, req.stopTime, answer.value)
  }

  /** The record after a stop was tried. */
  function StopAttempt(j: Job, req: StopRequest, metrics: MetricSource): Job {
    match StopOutcome(j, req, metrics)
    case Err => j
    case Ok(stopped) => stopped
  }

  predicate Overdue(j: Job, partitions: map<string, int>, now: int) {
    j.isRunning && j.info.partition in partitions && j.info.startTime < now - partitions[j.info.partition]
  }

  /** The record of `j` after a sweep. */
  function Swept(j: Job, partitions: map<string, int>, now: int, metrics: MetricSource): Job {
    if Overdue(j, partitions, now)
    then StopAttempt(j, StopRequest(1, j.info.startTime + partitions[j.info.partition]), metrics)
    else j
  }

  lemma HasMember(s: set<int>)
    ensures s == {} || exists x :: x in s
  {
    if !exists x :: x in s {
      assert s == {};
    }
  }

  class PostgresStore {
    const maxTimes: map<string, int>   // MaxTime of every configured partition
    var jobs: map<int, Job>            // table job_metadata by primary key

    ghost predicate Valid()
      reads this
    {
      forall id | id in jobs :: jobs[id].id == id
    }

    constructor (maxTimes: map<string, int>)
      ensures Valid() && jobs == map[] && this.maxTimes == maxTimes
    {
      this.maxTimes := maxTimes;
      jobs := map[];
    }

    method PutJob(j: Job) returns (ok: bool)
      requires Valid()
      modifies this
      ensures Valid() && ok == (j.id !in old(jobs))
      ensures jobs == if ok then old(jobs)[j.id := j] else old(jobs)
    {
      ok := j.id !in jobs;
      if ok {
        jobs := jobs[j.id := j];
      }
    }

    method GetJob(id: int) returns (r: Result<Job>)
      requires Valid()
      ensures r.Ok? <==> id in jobs
      ensures r.Ok? ==> r.value.id == id && r.value == jobs[id]
    {
      r := if id in jobs then Ok(jobs[id]) else Err;
    }

    method UpdateJob(j: Job)
      requires Valid()
      modifies this
      ensures Valid() && jobs == if j.id in old(jobs) then old(jobs)[j.id := j] else old(jobs)
    {
      if j.id in jobs {
        jobs := jobs[j.id := j];
      }
    }

    method StopJob(id: int, req: StopRequest, metrics: MetricSource) returns (ok: bool)
      requires Valid()
      modifies this
      ensures Valid()
      ensures ok == (id in old(jobs) && StopOutcome(old(jobs)[id], req, metrics).Ok?)
      ensures jobs == if id in old(jobs) then old(jobs)[id := StopAttempt(old(jobs)[id], req, metrics)] else old(jobs)
      ensures !ok ==> jobs == old(jobs)
      ensures ok ==> id in jobs && jobs == old(jobs)[id := jobs[id]] && Stopped(old(jobs)[id], req, metrics, jobs[id])
      ensures !ok && id in old(jobs) && old(jobs)[id].info.startTime < req.stopTime ==>
                metrics(old(jobs)[id].(isRunning := false, stopTime := req.stopTime, exitCode := req.exitCode)) == None
    {
      var r := GetJob(id);
      if r.Err? {
        return false;
      }
      var job := r.value;
      job := job.(isRunning := false);
      job := job.(stopTime := req.stopTime);
      job := job.(exitCode := req.exitCode);
      var data := Measure(job, metrics(job));
      if data.Err? {
        return false;
      }
      job := job.(data := data.value);
      UpdateJob(job);
      ok := true;
    }

    /** The store part of the router's refresh handler. */
    method RefreshMetadata(id: int, metrics: MetricSource) returns (ok: bool)
      requires Valid()
      modifies this
      ensures Valid()
      ensures ok == (id in old(jobs) && Measure(old(jobs)[id], metrics(old(jobs)[id])).Ok?)
      ensures jobs == if ok then old(jobs)[id := old(jobs)[id].(data := Measure(old(jobs)[id], metrics(old(jobs)[id])).value)]
                      else old(jobs)
      ensures ok <==> id in old(jobs) && !old(jobs)[id].isRunning && old(jobs)[id].info.startTime < old(jobs)[id].stopTime
                      && metrics(old(jobs)[id]).Some?
      ensures ok ==>
                id in jobs
                && jobs[id].data == Metrics(old(jobs)[id].info.startTime, old(jobs)[id].stopTime, metrics(old(jobs)[id]).value)
    {
      var r := GetJob(id);
      if r.Err? {
        return false;
      }
      var j := r.value;
      var data := Measure(j, metrics(j));
      if data.Err? {
        return false;
      }
      j := j.(data := data.value);
      UpdateJob(j);
      ok := true;
    }

    /** One row of the sweep: the job was overdue when it was selected. */
    method FinishJob(j: Job, now: int, metrics: MetricSource)
      requires Valid() && j.id in jobs && jobs[j.id] == j && Overdue(j, maxTimes, now)
      modifies this
      ensures Valid() && jobs == old(jobs)[j.id := Swept(j, maxTimes, now, metrics)]
    {
      var _ := StopJob(j.id, StopRequest(1, j.info.startTime + maxTimes[j.info.partition]), metrics);
    }

    /** The inner loop of the sweep: the overdue jobs of partition `k`, in no particular order. */
    method FinishPartition(k: string, now: int, metrics: MetricSource)
      requires Valid() && k in maxTimes
      modifies this
      ensures Valid() && jobs.Keys == old(jobs).Keys
      ensures forall id | id in jobs ::
          jobs[id] == if old(jobs)[id].info.partition == k then Swept(old(jobs)[id], maxTimes, now, metrics)
                      else old(jobs)[id]
    {
      var deadline := now - maxTimes[k];
      var rows := map id | id in jobs && jobs[id].isRunning && jobs[id].info.partition == k
                           && jobs[id].info.startTime < deadline :: jobs[id];
      ghost var before := jobs;
      var todo := rows.Keys;
      while todo != {}
        invariant Valid() && jobs.Keys == before.Keys && todo <= rows.Keys
        invariant forall id | id in todo :: jobs[id] == before[id]
        invariant forall id | id in before && id !in rows :: jobs[id] == before[id]
        invariant forall id | id in rows && id !in todo :: jobs[id] == Swept(before[id], maxTimes, now, metrics)
        decreases todo
      {
        HasMember(todo);
        var id :| id in todo;
        todo := todo - {id};
        FinishJob(rows[id], now, metrics);
      }
    }

    /** Partitions come in no particular order either. */
    method FinishOvertimeJobs(now: int, metrics: MetricSource)
      requires Valid()
      modifies this
      ensures Valid() && jobs.Keys == old(jobs).Keys
      ensures forall id | id in jobs :: jobs[id] == Swept(old(jobs)[id], maxTimes, now, metrics)
    {
      var todo := maxTimes.Keys;
      while todo != {}
        invariant Valid() && jobs.Keys == old(jobs).Keys && todo <= maxTimes.Keys
        invariant forall id | id in jobs ::
            jobs[id] == if old(jobs)[id].info.partition in todo then old(jobs)[id]
                        else Swept(old(jobs)[id], maxTimes, now, metrics)
        decreases todo
      {
        var k :| k in todo;
        todo := todo - {k};
        FinishPartition(k, now, metrics);
        assert forall id | id in jobs && old(jobs)[id].info.partition == k ::
            jobs[id] == Swept(old(jobs)[id], maxTimes, now, metrics);
      }
    }
  }

  // ------------------------------------------------------------ the sweep

  /** A sweep closes a job exactly when it runs in a configured partition with positive `MaxTime`, has run
      for longer than that and its metrics can be computed; it then stops at start plus `MaxTime`,
      strictly after its start and before the sweep's clock. Nothing else of the job changes. */
  lemma SweepClosesExactlyTheOverdue(j: Job, partitions: map<string, int>, now: int, metrics: MetricSource)
    ensures
      var s := Swept(j, partitions, now, metrics);
      if j.isRunning && j.info.partition in partitions then
        var limit := partitions[j.info.partition];
        var marked := j.(isRunning := false, stopTime := j.info.startTime + limit, exitCode := 1);
        && (s != j <==> 0 < limit < now - j.info.startTime && metrics(marked).Some?)
        && (s != j ==> s == marked.(data := Metrics(j.info.startTime, marked.stopTime, metrics(marked).value))
                       && j.info.startTime < s.stopTime < now)
      else s == j
  {
  }

  /** When the metric database answers, one sweep leaves no overdue running job behind in a partition
      with positive `MaxTime`, and a second sweep at the same time changes nothing. */
  lemma OneSweepSuffices(j: Job, partitions: map<string, int>, now: int, metrics: MetricSource)
    ensures
      var s := Swept(j, partitions, now, metrics);
      && ((forall x :: metrics(x).Some?) && s.isRunning && s.info.partition in partitions ==>
            partitions[s.info.partition] >= now - s.info.startTime || partitions[s.info.partition] <= 0)
      && Swept(s, partitions, now, metrics) == s
  {
    SweepClosesExactlyTheOverdue(j, partitions, now, metrics);
  }

  /** The undivided stop of the concurrent model is what the store's stop does. */
  lemma StopOutcomeIsAtomicStop(j: Job, req: StopRequest, metrics: MetricSource)
    ensures
      var marked := MarkStopped(j, req);
      StopOutcome(j, req, metrics) ==
      if j.info.startTime < req.stopTime && metrics(marked).Some?
      then Ok(JobTable.AtomicStop(j, req, metrics(marked).value)) else Err
  {
    var marked := MarkStopped(j, req);
    assert marked.info.startTime == j.info.startTime && marked.stopTime == req.stopTime && !marked.isRunning;
  }
}
