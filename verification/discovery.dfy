/** Pod discovery (`get_pod_for_job`): the runner watches the pods labelled
    with the job's controller uid and classifies each event by the pod's
    phase until one decides. */
module Discovery {
  import opened Facade
  import Watch

  /** The label selector the watch is opened with for correlation token `uid`. */
  function Selector(uid: string): (selector: string)
  {
    "controller-uid=" + uid
  }

  /** The object carried by one pod watch event; `phase` is absent when the
      pod's status has none yet. */
  datatype PodObject = PodObject(name: string, phase: Option<string>)

  /** How discovery ended. `PodFailed` is reached after the failed pod's log
      has been fetched. */
  datatype Discovered =
    | PodReady(pod: string)
    | PodFailed(pod: string)
    | PodUnexpected(pod: string, phase: Option<string>)
    | PodNotFound

  predicate IsPending(p: PodObject)
  {
    p.phase == Some(Pending)
  }

  /** The pod is running or has already run to completion. */
  predicate IsReady(p: PodObject)
  {
    p.phase == Some(Running) || p.phase == Some(Succeeded)
  }

  predicate IsKnownPhase(phase: Option<string>)
  {
    phase == Some(Running) || phase == Some(Succeeded) || phase == Some(Pending) || phase == Some(Failed)
  }

  /** Event `i` is the first one whose pod is not pending. */
  ghost predicate FirstSettled(events: seq<PodObject>, i: int)
  {
    && 0 <= i < |events|
    && !IsPending(events[i])
    && forall j :: 0 <= j < i ==> IsPending(events[j])
  }

  function PodStep(p: PodObject): (step: Watch.Step<Discovered>)
  {
    if IsReady(p) then Watch.Stop(PodReady(p.name))
    else if p.phase == Some(Pending) then Watch.Continue
    else if p.phase == Some(Failed) then Watch.Stop(PodFailed(p.name))
    else Watch.Stop(PodUnexpected(p.name, p.phase))
  }

  function GetPodForJob(events: seq<PodObject>): (r: Discovered)
    // only pending pods until the watch ends: a timeout
    ensures r.PodNotFound? <==> forall i :: 0 <= i < |events| ==> IsPending(events[i])
    ensures !r.PodNotFound? ==> exists i :: FirstSettled(events, i)
    // otherwise the first pod that is not pending decides, by its phase
    ensures forall i :: FirstSettled(events, i) ==>
              && (IsReady(events[i]) ==> r == PodReady(events[i].name))
              && (events[i].phase == Some(Failed) ==> r == PodFailed(events[i].name))
              && (!IsKnownPhase(events[i].phase) ==> r == PodUnexpected(events[i].name, events[i].phase))
  {
    match Watch.Run(events, PodStep)
    case Stopped(v, consumed) =>
      assert FirstSettled(events, consumed - 1);
      assert forall i :: FirstSettled(events, i) ==> i == consumed - 1;
      v
    case Exhausted => PodNotFound
  }

  /** A decision is final: no event after the first settled pod is
      consumed, so whatever follows it leaves the result unchanged. */
  lemma LaterEventsIgnored(events: seq<PodObject>, i: int, rest: seq<PodObject>)
    requires FirstSettled(events, i)
    ensures GetPodForJob(events[..i + 1] + rest) == GetPodForJob(events)
  {
    Watch.FirstStopDecides(events, PodStep, i);
    var other := events[..i + 1] + rest;
    assert other[..i + 1] == events[..i + 1];
    Watch.StopIgnoresRest(events, other, PodStep);
  }

  /** A pending pod is skipped without affecting the result. */
  lemma PendingEventIgnored(e: PodObject, events: seq<PodObject>)
    requires IsPending(e)
    ensures GetPodForJob([e] + events) == GetPodForJob(events)
  {
  }
}
