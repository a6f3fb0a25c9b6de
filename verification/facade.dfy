/** The part of the Kubernetes client surface that the job runner talks to,
    reduced to the values it returns. Nothing here performs a call: every
    answer the cluster would give is an input of the model. */
module Facade {

  datatype Option<+T> = None | Some(value: T)

  /** The answer to one blocking API call: its value, or a raised
      `ApiException` (any HTTP status, not-found included). */
  datatype Reply<+T> = Ok(value: T) | ApiError

  /** A job's `completion_time`; only its presence matters to the runner. */
  type Timestamp = string

  /** The two fields of a job's status that the runner inspects.
      `active` is the number of running pods, absent when there are none. */
  datatype JobStatus = JobStatus(active: Option<int>, completionTime: Option<Timestamp>)

  /** The pod phases the runner tells apart (`status.phase`). */
  const Running := "Running"
  const Succeeded := "Succeeded"
  const Pending := "Pending"
  const Failed := "Failed"

  /** Python truthiness of `status.active`: both `None` and `0` are false. */
  predicate ActiveIsTruthy(active: Option<int>)
  {
    active.Some? && active.value != 0
  }

  /** Python truthiness of a string: only the empty string is false. */
  predicate Truthy(s: string)
  {
    |s| != 0
  }

  /** Every call the runner makes into the cluster, in the namespace given on
      the command line (the namespace is the same for all of them and is not
      carried). */
  datatype Call =
    | ReadJobStatus(job: string)
    | DeleteJob(job: string, gracePeriodSeconds: nat)
    | CreateJob(job: string)
    | WatchJobs(labelSelector: string)
    | WatchPods(labelSelector: string)
    | ReadPodLog(pod: string)
    | ReadPodStatus(pod: string)
}
