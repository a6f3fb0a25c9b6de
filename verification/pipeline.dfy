/** The run as a whole (`main`): cleanup, create, wait for activation,
    discover the pod, stream its log, poll its terminal status. Each stage
    either hands the next one what it needs or ends the run with exit
    status 1; the run exits 0 only when a status read says `Succeeded`.
    The result records, stage by stage, every call made into the cluster. */
module Pipeline {
  import opened Facade
  import Cleanup
  import Activation
  import Discovery
  import Poll

  /** The parsed job template; only `metadata.name` is read by the runner. */
  datatype Template = Template(name: string)

  /** Everything the cluster answers during one run. `createReply` carries
      the created job's `metadata.name`; `jobEvents` and `podEvents` are the
      two watches up to their end; `logReply` says whether the followed log
      stream ended normally or raised. */
  datatype Cluster = Cluster(
    priorJob: Reply<JobStatus>,
    deleteReply: Reply<()>,
    createReply: Reply<string>,
    jobEvents: seq<Activation.JobObject>,
    podEvents: seq<Discovery.PodObject>,
    logReply: Reply<()>,
    statusAnswers: Poll.StatusReads)

  datatype Stage = CleanupStage | CreateStage | ActivationStage | DiscoveryStage | LogsStage | PollStage

  /** The position of a stage in the run. */
  function Rank(s: Stage): (rank: nat)
  {
    match s
    case CleanupStage => 0
    case CreateStage => 1
    case ActivationStage => 2
    case DiscoveryStage => 3
    case LogsStage => 4
    case PollStage => 5
  }

  /** Why a run exits 1. Several are uncaught exceptions in the source
      (`CreateFailed`, `ControllerUidMissing`, `LogStreamFailed`,
      `StatusReadFailed`); a Python process dies of those with status 1 too. */
  datatype Reason =
    | StaleJobRunning
    | CreateFailed
    | ActivationTimeout
    | ControllerUidMissing
    | ControllerUidEmpty
    | DiscoveryTimeout
    | PodFailed(pod: string)
    | UnexpectedPodState(pod: string, phase: Option<string>)
    | PodNameEmpty
    | LogStreamFailed
    | StatusReadFailed
    | NonZeroExit(lastPhase: Option<string>)

  /** The stage at which each failure happens. */
  function FailedStage(reason: Reason): (s: Stage)
  {
    match reason
    case StaleJobRunning => CleanupStage
    case CreateFailed => CreateStage
    case ActivationTimeout => ActivationStage
    case ControllerUidMissing => ActivationStage
    case ControllerUidEmpty => ActivationStage
    case DiscoveryTimeout => DiscoveryStage
    case PodFailed(_) => DiscoveryStage
    case UnexpectedPodState(_, _) => DiscoveryStage
    case PodNameEmpty => DiscoveryStage
    case LogStreamFailed => LogsStage
    case StatusReadFailed => PollStage
    case NonZeroExit(_) => PollStage
  }

  datatype Outcome = Success | Failure(reason: Reason)

  /** The process exit status `main` ends with. */
  function ExitCode(o: Outcome): (status: nat)
  {
    if o.Success? then 0 else 1
  }

  /** How many stages a run has. */
  const StageCount: nat := 6

  /** The poll is the last stage. */
  const PollRank: nat := StageCount - 1

  /** The stage at position `k`; the inverse of `Rank`. */
  function StageAt(k: nat): (s: Stage)
    requires k < StageCount
    ensures Rank(s) == k
  {
    if k == 0 then CleanupStage
    else if k == 1 then CreateStage
    else if k == 2 then ActivationStage
    else if k == 3 then DiscoveryStage
    else if k == 4 then LogsStage
    else PollStage
  }

  /** Which calls each stage makes. The pod log is read twice in the source:
      for a pod found failed, and when streaming a running pod's output. */
  predicate MadeBy(s: Stage, call: Call)
  {
    match s
    case CleanupStage => call.ReadJobStatus? || call.DeleteJob?
    case CreateStage => call.CreateJob?
    case ActivationStage => call.WatchJobs?
    case DiscoveryStage => call.WatchPods? || call.ReadPodLog?
    case LogsStage => call.ReadPodLog?
    case PollStage => call.ReadPodStatus?
  }

  /** The outcome of a run, and the calls it made: `stages[k]` holds, in
      order, the calls of the stage at position `k`; stages that never ran
      have no entry. */
  datatype Report = Report(outcome: Outcome, stages: seq<seq<Call>>)

  /** Every stage that ran made at least one call, and only calls of its
      own kind. */
  ghost predicate WellStaged(stages: seq<seq<Call>>)
  {
    && |stages| <= StageCount
    && (forall k :: 0 <= k < |stages| ==> |stages[k]| > 0)
    && (forall k, call :: 0 <= k < |stages| && call in stages[k] ==> MadeBy(StageAt(k), call))
  }

  /** What every run guarantees about its outcome and the stages it ran. */
  ghost predicate Sound(r: Report)
  {
    && 1 <= |r.stages|
    && WellStaged(r.stages)
    && (r.outcome.Failure? ==> |r.stages| == Rank(FailedStage(r.outcome.reason)) + 1)
    && (r.outcome.Success? ==> |r.stages| == StageCount)
    && (|r.stages| == StageCount ==> |r.stages[PollRank]| <= Poll.MaxStatusReads)
  }

  /** A run that got as far as the poll ended with the poll's verdict,
      after one status read call per read. */
  ghost predicate DecidedByPoll(r: Report, answers: Poll.StatusReads)
  {
    |r.stages| == StageCount ==>
      && r.outcome == PollOutcome(Poll.PollStatus(answers).verdict)
      && |r.stages[PollRank]| == Poll.PollStatus(answers).count
  }

  /** Records the calls of the next stage to run. */
  function Then(stages: seq<seq<Call>>, calls: seq<Call>): (r: seq<seq<Call>>)
    requires WellStaged(stages) && |stages| < StageCount
    requires |calls| > 0 && forall call :: call in calls ==> MadeBy(StageAt(|stages|), call)
    ensures WellStaged(r) && |r| == |stages| + 1
    ensures r[..|stages|] == stages && r[|stages|] == calls
  {
    stages + [calls]
  }

  function RunJob(t: Template, c: Cluster): (r: Report)
    // the stages that ran are the first ones, each made calls of its own kind
    ensures 1 <= |r.stages| <= StageCount
    ensures forall k :: 0 <= k < |r.stages| ==> |r.stages[k]| > 0
    ensures forall k, call :: 0 <= k < |r.stages| && call in r.stages[k] ==> MadeBy(StageAt(k), call)
    // a failed stage is the last one to run
    ensures r.outcome.Failure? ==> |r.stages| == Rank(FailedStage(r.outcome.reason)) + 1
    // a run that succeeds has gone through every stage
    ensures r.outcome.Success? ==> |r.stages| == StageCount
    // the status is read at most 31 times
    ensures |r.stages| == StageCount ==> |r.stages[PollRank]| <= Poll.MaxStatusReads
    // and once the poll is reached, it alone decides the outcome
    ensures |r.stages| == StageCount ==>
              && r.outcome == PollOutcome(Poll.PollStatus(c.statusAnswers).verdict)
              && |r.stages[PollRank]| == Poll.PollStatus(c.statusAnswers).count
    // cleanup runs first, and the job is created iff cleanup lets the run proceed
    ensures r.stages[Rank(CleanupStage)] == Cleanup.CleanOldJob(t.name, c.priorJob, c.deleteReply).calls
    ensures |r.stages| > Rank(CreateStage) <==> Cleanup.CleanOldJob(t.name, c.priorJob, c.deleteReply).proceed
    ensures |r.stages| > Rank(CreateStage) ==> r.stages[Rank(CreateStage)] == [CreateJob(t.name)]
  {
    var cleanup := Cleanup.CleanOldJob(t.name, c.priorJob, c.deleteReply);
    var s0 := Then([], cleanup.calls);
    if !cleanup.proceed then Report(Failure(StaleJobRunning), s0)
    else Submit(t, c, s0)
  }

  /** The run from stage `s` on, `handle` being what the stage before
      handed over: the created job's name to activation, the correlation
      token to discovery, and the pod's name to the log and the poll. The
      two watching stages are given how their watch over the cluster's
      events ends. */
  function Continue(c: Cluster, s: Stage, handle: string, stages: seq<seq<Call>>): (r: Report)
    requires WellStaged(stages) && |stages| == Rank(s) && Rank(s) >= Rank(ActivationStage)
    ensures Sound(r) && DecidedByPoll(r, c.statusAnswers)
    ensures |r.stages| > |stages| && r.stages[..|stages|] == stages
    // the stage's calls are about what it was handed
    ensures s == ActivationStage ==> r.stages[|stages|] == [WatchJobs(Activation.Selector(handle))]
    ensures s == DiscoveryStage ==> r.stages[|stages|][0] == WatchPods(Discovery.Selector(handle))
    ensures s == LogsStage ==> r.stages[|stages|] == [ReadPodLog(handle)]
    ensures s == PollStage ==> forall call :: call in r.stages[PollRank] ==> call == ReadPodStatus(handle)
    decreases StageCount - |stages|, 1
  {
    match s
    case ActivationStage => AwaitActive(c, handle, Activation.WaitForJobToStart(c.jobEvents), stages)
    case DiscoveryStage => DiscoverPod(c, handle, Discovery.GetPodForJob(c.podEvents), stages)
    case LogsStage => StreamLogs(c, handle, stages)
    case PollStage => AwaitTerminal(c, handle, stages)
  }

  /** Creates the job; an exception from the create call ends the run. */
  function Submit(t: Template, c: Cluster, stages: seq<seq<Call>>): (r: Report)
    requires WellStaged(stages) && |stages| == Rank(CreateStage)
    ensures Sound(r) && DecidedByPoll(r, c.statusAnswers)
    ensures |r.stages| > |stages| && r.stages[..|stages|] == stages
    ensures r.stages[|stages|] == [CreateJob(t.name)]
    ensures r.outcome == Failure(CreateFailed) <==> c.createReply.ApiError?
  {
    var s1 := Then(stages, [CreateJob(t.name)]);
    match c.createReply
    case ApiError => Report(Failure(CreateFailed), s1)
    case Ok(job) => Continue(c, ActivationStage, job, s1)
  }

  /** A create that succeeds hands the name it returns to activation. */
  lemma SubmitHandsOver(t: Template, c: Cluster, stages: seq<seq<Call>>)
    requires WellStaged(stages) && |stages| == Rank(CreateStage) && c.createReply.Ok?
    ensures Submit(t, c, stages) ==
              AwaitActive(c, c.createReply.value, Activation.WaitForJobToStart(c.jobEvents), Then(stages, [CreateJob(t.name)]))
  {
    var s1 := Then(stages, [CreateJob(t.name)]);
    assert Submit(t, c, stages) == Continue(c, ActivationStage, c.createReply.value, s1);
  }

  /** Waits for job `job` to start, the watch ending with `started`; a
      missing or empty correlation token ends the run. */
  function AwaitActive(c: Cluster, job: string, started: Activation.Activation, stages: seq<seq<Call>>): (r: Report)
    requires WellStaged(stages) && |stages| == Rank(ActivationStage)
    ensures Sound(r) && DecidedByPoll(r, c.statusAnswers)
    ensures |r.stages| > |stages| && r.stages[..|stages|] == stages
    ensures r.stages[|stages|] == [WatchJobs(Activation.Selector(job))]
    ensures r.outcome == Failure(ActivationTimeout) <==> started.NeverActivated?
    ensures r.outcome == Failure(ControllerUidMissing) <==> started.UidLabelMissing?
    ensures r.outcome == Failure(ControllerUidEmpty) <==> started.Activated? && !Truthy(started.uid)
    // a non-empty token is the only way on, and discovery selects by it
    ensures |r.stages| > |stages| + 1 <==> started.Activated? && Truthy(started.uid)
    ensures |r.stages| > |stages| + 1 ==> r.stages[|stages| + 1][0] == WatchPods(Discovery.Selector(started.uid))
    decreases StageCount - |stages|, 0
  {
    var s2 := Then(stages, [WatchJobs(Activation.Selector(job))]);
    match started
    case NeverActivated => Report(Failure(ActivationTimeout), s2)
    case UidLabelMissing => Report(Failure(ControllerUidMissing), s2)
    case Activated(uid) =>
      if !Truthy(uid) then Report(Failure(ControllerUidEmpty), s2)
      else Continue(c, DiscoveryStage, uid, s2)
  }

  /** A non-empty correlation token is handed to discovery, which watches
      the pods for it. */
  lemma ActivationHandsOver(c: Cluster, job: string, uid: string, stages: seq<seq<Call>>)
    requires WellStaged(stages) && |stages| == Rank(ActivationStage) && Truthy(uid)
    ensures AwaitActive(c, job, Activation.Activated(uid), stages) ==
              DiscoverPod(c, uid, Discovery.GetPodForJob(c.podEvents), Then(stages, [WatchJobs(Activation.Selector(job))]))
  {
    var s2 := Then(stages, [WatchJobs(Activation.Selector(job))]);
    assert AwaitActive(c, job, Activation.Activated(uid), stages) == Continue(c, DiscoveryStage, uid, s2);
  }

  /** Finds the pod of correlation token `uid`, the pod watch ending with
      `found`; a failed pod's log is fetched before the run ends. */
  function DiscoverPod(c: Cluster, uid: string, found: Discovery.Discovered, stages: seq<seq<Call>>): (r: Report)
    requires WellStaged(stages) && |stages| == Rank(DiscoveryStage)
    ensures Sound(r) && DecidedByPoll(r, c.statusAnswers)
    ensures |r.stages| > |stages| && r.stages[..|stages|] == stages
    ensures r.stages[|stages|][0] == WatchPods(Discovery.Selector(uid))
    ensures r.outcome == Failure(DiscoveryTimeout) <==> found.PodNotFound?
    // a failed pod ends the run after its log is read; it is the only pod
    // whose log discovery reads
    ensures r.outcome.Failure? && r.outcome.reason.PodFailed? <==> found.PodFailed?
    ensures found.PodFailed? ==>
              && r.outcome == Failure(PodFailed(found.pod))
              && r.stages[|stages|] == [WatchPods(Discovery.Selector(uid)), ReadPodLog(found.pod)]
    ensures !found.PodFailed? ==> r.stages[|stages|] == [WatchPods(Discovery.Selector(uid))]
    // an unknown phase ends the run with that pod and phase
    ensures r.outcome.Failure? && r.outcome.reason.UnexpectedPodState? <==> found.PodUnexpected?
    ensures found.PodUnexpected? ==> r.outcome == Failure(UnexpectedPodState(found.pod, found.phase))
    ensures r.outcome == Failure(PodNameEmpty) <==> found.PodReady? && !Truthy(found.pod)
    // a ready pod with a name is the only way on, and its log is the one read
    ensures |r.stages| > |stages| + 1 <==> found.PodReady? && Truthy(found.pod)
    ensures |r.stages| > |stages| + 1 ==> r.stages[|stages| + 1] == [ReadPodLog(found.pod)]
    decreases StageCount - |stages|, 0
  {
    var watch := WatchPods(Discovery.Selector(uid));
    match found
    case PodNotFound => Report(Failure(DiscoveryTimeout), Then(stages, [watch]))
    case PodUnexpected(p, phase) => Report(Failure(UnexpectedPodState(p, phase)), Then(stages, [watch]))
    case PodFailed(p) => Report(Failure(PodFailed(p)), Then(stages, [watch, ReadPodLog(p)]))
    case PodReady(pod) =>
      var s3 := Then(stages, [watch]);
      if !Truthy(pod) then Report(Failure(PodNameEmpty), s3)
      else Continue(c, LogsStage, pod, s3)
  }

  /** A ready pod with a name is handed to the log stage. */
  lemma DiscoveryHandsOver(c: Cluster, uid: string, pod: string, stages: seq<seq<Call>>)
    requires WellStaged(stages) && |stages| == Rank(DiscoveryStage) && Truthy(pod)
    ensures DiscoverPod(c, uid, Discovery.PodReady(pod), stages) ==
              StreamLogs(c, pod, Then(stages, [WatchPods(Discovery.Selector(uid))]))
  {
    var s3 := Then(stages, [WatchPods(Discovery.Selector(uid))]);
    assert DiscoverPod(c, uid, Discovery.PodReady(pod), stages) == Continue(c, LogsStage, pod, s3);
  }

  /** Follows the pod's log until it ends; an exception ends the run. */
  function StreamLogs(c: Cluster, pod: string, stages: seq<seq<Call>>): (r: Report)
    requires WellStaged(stages) && |stages| == Rank(LogsStage)
    ensures Sound(r) && DecidedByPoll(r, c.statusAnswers)
    ensures |r.stages| > |stages| && r.stages[..|stages|] == stages
    ensures r.stages[|stages|] == [ReadPodLog(pod)]
    ensures r.outcome == Failure(LogStreamFailed) <==> c.logReply.ApiError?
    // a stream that ends normally is the only way on, and the poll reads
    // the status of the same pod
    ensures |r.stages| > |stages| + 1 <==> c.logReply.Ok?
    ensures |r.stages| > |stages| + 1 ==> forall call :: call in r.stages[PollRank] ==> call == ReadPodStatus(pod)
    decreases StageCount - |stages|, 0
  {
    var s4 := Then(stages, [ReadPodLog(pod)]);
    if c.logReply.ApiError? then Report(Failure(LogStreamFailed), s4)
    else Continue(c, PollStage, pod, s4)
  }

  /** A log stream that ends normally hands the same pod to the poll. */
  lemma LogsHandOver(c: Cluster, pod: string, stages: seq<seq<Call>>)
    requires WellStaged(stages) && |stages| == Rank(LogsStage) && c.logReply.Ok?
    ensures StreamLogs(c, pod, stages) == AwaitTerminal(c, pod, Then(stages, [ReadPodLog(pod)]))
  {
    var s4 := Then(stages, [ReadPodLog(pod)]);
    assert StreamLogs(c, pod, stages) == Continue(c, PollStage, pod, s4);
  }

  /** Polls the pod's status, one call per read; the run exits 0 only on
      `Succeeded`. */
  function AwaitTerminal(c: Cluster, pod: string, stages: seq<seq<Call>>): (r: Report)
    requires WellStaged(stages) && |stages| == Rank(PollStage)
    ensures Sound(r) && DecidedByPoll(r, c.statusAnswers)
    ensures |r.stages| > |stages| && r.stages[..|stages|] == stages
    ensures forall call :: call in r.stages[|stages|] ==> call == ReadPodStatus(pod)
    decreases StageCount - |stages|, 0
  {
    var polled := Poll.PollStatus(c.statusAnswers);
    Report(PollOutcome(polled.verdict), Then(stages, StatusReadCalls(pod, polled.count)))
  }

  /** The calls made by `count` reads of the pod's status. */
  function StatusReadCalls(pod: string, count: nat): (calls: seq<Call>)
    ensures |calls| == count
    ensures forall call :: call in calls ==> call == ReadPodStatus(pod)
  {
    seq(count, _ => ReadPodStatus(pod))
  }

  /** How the poll's verdict ends the run. */
  function PollOutcome(v: Poll.Verdict): (o: Outcome)
    ensures o.Success? <==> v.PodSucceeded?
    ensures o.Failure? ==> FailedStage(o.reason) == PollStage
    // a raising read is reported as such; running out reports the last phase read
    ensures v.StatusUnreadable? <==> o == Failure(StatusReadFailed)
    ensures v.NotSucceeded? ==> o == Failure(NonZeroExit(v.lastPhase))
  {
    match v
    case PodSucceeded => Success
    case StatusUnreadable => Failure(StatusReadFailed)
    case NotSucceeded(last) => Failure(NonZeroExit(last))
  }
}
