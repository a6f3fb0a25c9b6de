/** Stale-job cleanup (`clean_old_job`): before a new job is submitted, a job
    of the same name left over from an earlier run is deleted if it has
    finished, and the run is refused while a job of that name can be read
    and has no completion time. */
module Cleanup {
  import opened Facade

  /** The grace period passed with the delete request. */
  const GracePeriodSeconds: nat := 2

  /** Whether the run may go on, and the calls cleanup made to decide it. */
  datatype Decision = Decision(proceed: bool, calls: seq<Call>)

  /** `prior` is the answer to reading the job's status, `deleteReply` the
      answer the delete request would get. Both calls sit inside one
      `try ... except ApiException`, so an exception from either one is
      swallowed and the run proceeds. */
  function CleanOldJob(name: string, prior: Reply<JobStatus>, deleteReply: Reply<()>): (r: Decision)
    ensures |r.calls| >= 1 && r.calls[0] == ReadJobStatus(name)
    // a job that is found but has no completion time is still running: refuse
    ensures !r.proceed <==> prior.Ok? && prior.value.completionTime.None?
    // a finished job is deleted before the run goes on; nothing else is
    ensures DeleteJob(name, GracePeriodSeconds) in r.calls <==> prior.Ok? && prior.value.completionTime.Some?
    ensures DeleteJob(name, GracePeriodSeconds) in r.calls ==> r.proceed
    ensures forall c :: c in r.calls ==> c == ReadJobStatus(name) || c == DeleteJob(name, GracePeriodSeconds)
    ensures |r.calls| == if prior.Ok? && prior.value.completionTime.Some? then 2 else 1
  {
    match prior
    case ApiError => Decision(true, [ReadJobStatus(name)])
    case Ok(status) =>
      if status.completionTime.None? then Decision(false, [ReadJobStatus(name)])
      else Decision(true, [ReadJobStatus(name), DeleteJob(name, GracePeriodSeconds)])
  }

  /** The delete is best-effort: whether it succeeds or raises never changes
      the decision or the calls made. */
  lemma DeleteReplyIgnored(name: string, prior: Reply<JobStatus>, d1: Reply<()>, d2: Reply<()>)
    ensures CleanOldJob(name, prior, d1) == CleanOldJob(name, prior, d2)
  {
  }

  /** Cleanup only lets a run through when it could not read a job of that
      name, or read a finished one and issued a delete for it. Neither case
      guarantees that no such job remains: the read may have raised for a
      reason other than absence, and the delete may have raised. */
  lemma ProceedNeedsUnreadPriorOrDelete(name: string, prior: Reply<JobStatus>, d: Reply<()>)
    requires CleanOldJob(name, prior, d).proceed
    ensures prior.ApiError? || DeleteJob(name, GracePeriodSeconds) in CleanOldJob(name, prior, d).calls
  {
  }
}
