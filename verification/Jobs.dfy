module Wrappers {
  datatype Option<+T> = None | Some(value: T)

  datatype Result<+T> = Ok(value: T) | Err
}

/** Job records and the guarded metric computation every update of a record goes through. */
module Jobs {
  import opened Wrappers

  /** Metadata metrics, with the time window they were computed for. */
  datatype Metrics = NoMetrics | Metrics(start: int, stop: int, values: seq<real>)

  /** The fields of a record that no update assigns. */
  datatype JobInfo = JobInfo(
    userId: int, userName: string,
    groupId: int, groupName: string,
    numNodes: int, numTasks: int, gpusPerNode: int,
    nodeList: string, partition: string,
    startTime: int)

  datatype Job = Job(id: int, info: JobInfo, stopTime: int, isRunning: bool, exitCode: int, data: Metrics)

  datatype StopRequest = StopRequest(exitCode: int, stopTime: int)

  /** `j` as `StopJob` changes its local copy, before the metrics are computed. */
  function MarkStopped(j: Job, req: StopRequest): Job {
    j.(isRunning := false, stopTime := req.stopTime, exitCode := req.exitCode)
  }

  /** `GetJobMetadataMetrics`: refuses running jobs and empty windows; `answer` is what the metric
      database returns for the window. */
  function Measure(j: Job, answer: Option<seq<real>>): Result<Metrics> {
    if j.isRunning then Err
    else if j.stopTime <= j.info.startTime then Err
    else match answer
      case None => Err
      case Some(values) => Ok(Metrics(j.info.startTime, j.stopTime, values))
  }

  /** A record whose stop lies after its start and whose metrics were computed for exactly its window. */
  predicate Completed(j: Job) {
    !j.isRunning && j.info.startTime < j.stopTime &&
    j.data.Metrics? && j.data.start == j.info.startTime && j.data.stop == j.stopTime
  }

  /** `a` and `b` differ at most in the fields an update may change. */
  predicate SameIdentity(a: Job, b: Job) {
    a.id == b.id && a.info == b.info
  }
}
