/** Activation watch (`wait_for_job_to_start`): after the job is created the
    runner watches events for jobs labelled with its name and takes the
    `controller-uid` label of the first one that is active or already
    complete. */
module Activation {
  import opened Facade
  import Watch

  /** The label the job controller puts on a job and on its pods. */
  const ControllerUidLabel := "controller-uid"

  /** The label selector the watch is opened with for job `job`. */
  function Selector(job: string): (selector: string)
  {
    "job-name=" + job
  }

  /** The object carried by one job watch event. */
  datatype JobObject = JobObject(labels: map<string, string>, status: JobStatus)

  /** How the watch ended: with the correlation token, with a deciding event
      that lacks the label (a `KeyError` in the source), or by running out. */
  datatype Activation = Activated(uid: string) | UidLabelMissing | NeverActivated

  /** The job reports itself active, or has already completed. */
  predicate Started(j: JobObject)
  {
    ActiveIsTruthy(j.status.active) || j.status.completionTime.Some?
  }

  /** Event `i` is the first one on which the job has started. */
  ghost predicate FirstStarted(events: seq<JobObject>, i: int)
  {
    && 0 <= i < |events|
    && Started(events[i])
    && forall j :: 0 <= j < i ==> !Started(events[j])
  }

  function JobStep(j: JobObject): (step: Watch.Step<Activation>)
  {
    if !Started(j) then Watch.Continue
    else if ControllerUidLabel in j.labels then Watch.Stop(Activated(j.labels[ControllerUidLabel]))
    else Watch.Stop(UidLabelMissing)
  }

  function WaitForJobToStart(events: seq<JobObject>): (r: Activation)
    // running out of events without a started job is a timeout
    ensures r.NeverActivated? <==> forall i :: 0 <= i < |events| ==> !Started(events[i])
    // otherwise the first started job decides, through its label
    ensures !r.NeverActivated? ==> exists i :: FirstStarted(events, i)
    ensures forall i :: FirstStarted(events, i) ==>
              if ControllerUidLabel in events[i].labels
              then r == Activated(events[i].labels[ControllerUidLabel])
              else r == UidLabelMissing
  {
    match Watch.Run(events, JobStep)
    case Stopped(v, consumed) =>
      assert FirstStarted(events, consumed - 1);
      assert forall i :: FirstStarted(events, i) ==> i == consumed - 1;
      v
    case Exhausted => NeverActivated
  }

  /** No event after the first started one is examined: the result is the
      same whatever follows it. */
  lemma LaterEventsIgnored(events: seq<JobObject>, i: int, rest: seq<JobObject>)
    requires FirstStarted(events, i)
    ensures WaitForJobToStart(events[..i + 1] + rest) == WaitForJobToStart(events)
  {
    Watch.FirstStopDecides(events, JobStep, i);
    var other := events[..i + 1] + rest;
    assert other[..i + 1] == events[..i + 1];
    Watch.StopIgnoresRest(events, other, JobStep);
  }

  /** An event on which the job has not started yet is skipped without
      affecting the result. */
  lemma IdleEventIgnored(e: JobObject, events: seq<JobObject>)
    requires !Started(e)
    ensures WaitForJobToStart([e] + events) == WaitForJobToStart(events)
  {
  }
}
