/** Properties of whole runs, relating `RunJob` to the stage decisions it
    threads together, and an end-to-end scenario. A run's stages are
    indexed by position (`Rank`): 0 cleanup, 1 create, 2 activation,
    3 discovery, 4 logs, 5 poll. */
module RunProperties {
  import opened Facade
  import Cleanup
  import Activation
  import Discovery
  import Poll
  import opened Pipeline

  /** A job still running from an earlier run stops everything: the status
      read is the only call made, and no job is created. */
  lemma RunningPriorBlocksCreate(t: Template, c: Cluster)
    requires c.priorJob.Ok? && c.priorJob.value.completionTime.None?
    ensures RunJob(t, c).outcome == Failure(StaleJobRunning)
    ensures RunJob(t, c).stages == [[ReadJobStatus(t.name)]]
    ensures ExitCode(RunJob(t, c).outcome) == 1
  {
  }

  /** A finished job of the same name is deleted before the new one is
      created; a prior job that cannot be read does not stop submission. */
  lemma FinishedOrMissingPriorReachesCreate(t: Template, c: Cluster)
    requires c.priorJob.ApiError? || c.priorJob.value.completionTime.Some?
    ensures |RunJob(t, c).stages| > 1
    ensures RunJob(t, c).stages[0] ==
              if c.priorJob.ApiError? then [ReadJobStatus(t.name)]
              else [ReadJobStatus(t.name), DeleteJob(t.name, Cleanup.GracePeriodSeconds)]
    ensures RunJob(t, c).stages[1] == [CreateJob(t.name)]
  {
  }

  /** Once a run reaches the poll, only the reads decide: it exits 0 iff
      one of the first 31 reads says `Succeeded` before any read raises. */
  lemma PollDecidesExit(t: Template, c: Cluster)
    requires |RunJob(t, c).stages| == StageCount
    ensures ExitCode(RunJob(t, c).outcome) == 0
            <==> exists i :: 0 <= i < Poll.MaxStatusReads && Poll.SucceedsAt(c.statusAnswers, i)
  {
    Poll.PollStatusDecides(c.statusAnswers);
  }

  /** A pod that never reports `Succeeded` in 31 reads, none of which
      raised, ends the run with exit status 1 reporting the last phase read. */
  lemma ExhaustedPollReportsLastPhase(t: Template, c: Cluster, last: Option<string>)
    requires |RunJob(t, c).stages| == StageCount
    requires forall i :: 0 <= i < Poll.MaxStatusReads ==> Poll.KeepsPolling(c.statusAnswers(i))
    requires c.statusAnswers(Poll.MaxRetries) == Ok(last)
    ensures RunJob(t, c).outcome == Failure(NonZeroExit(last))
    ensures |RunJob(t, c).stages[PollRank]| == Poll.MaxStatusReads
  {
    Poll.PollStatusDecides(c.statusAnswers);
  }

  /** A status read that raises after only retries ends the run there, as
      an unreadable status, after exactly that many reads. */
  lemma RaisingReadFailsPoll(t: Template, c: Cluster, i: nat)
    requires |RunJob(t, c).stages| == StageCount
    requires i < Poll.MaxStatusReads && Poll.RaisesAt(c.statusAnswers, i)
    ensures RunJob(t, c).outcome == Failure(StatusReadFailed)
    ensures |RunJob(t, c).stages[PollRank]| == i + 1
  {
    var r := Poll.PollStatus(c.statusAnswers);
    Poll.RaisingReadDecides(c.statusAnswers, r, i);
  }

  /** A run exits 0 only on a `Succeeded` status read, after every other
      stage passed. */
  lemma ExitZeroNeedsSucceededRead(t: Template, c: Cluster)
    requires ExitCode(RunJob(t, c).outcome) == 0
    ensures |RunJob(t, c).stages| == StageCount
    ensures exists i :: 0 <= i < Poll.MaxStatusReads && Poll.SucceedsAt(c.statusAnswers, i)
  {
    PollDecidesExit(t, c);
  }

  /** Every stage before discovery passes: cleanup proceeds, the create
      call succeeds, and the job activates with a non-empty token. */
  ghost predicate ReachesDiscovery(c: Cluster)
  {
    var a := Activation.WaitForJobToStart(c.jobEvents);
    && (c.priorJob.ApiError? || c.priorJob.value.completionTime.Some?)
    && c.createReply.Ok?
    && a.Activated? && Truthy(a.uid)
  }

  /** The calls of a run that reaches discovery, before discovery. */
  function CallsBeforeDiscovery(t: Template, c: Cluster): (stages: seq<seq<Call>>)
    requires ReachesDiscovery(c)
    ensures WellStaged(stages) && |stages| == Rank(DiscoveryStage)
    ensures stages[2] == [WatchJobs(Activation.Selector(c.createReply.value))]
  {
    var s0 := Then([], Cleanup.CleanOldJob(t.name, c.priorJob, c.deleteReply).calls);
    var s1 := Then(s0, [CreateJob(t.name)]);
    Then(s1, [WatchJobs(Activation.Selector(c.createReply.value))])
  }

  /** A run that passes every stage before discovery continues as discovery
      of the activated token's pod, decided by the pod watch. */
  lemma ReachedDiscovery(t: Template, c: Cluster)
    requires ReachesDiscovery(c)
    ensures RunJob(t, c) ==
              DiscoverPod(c, Activation.WaitForJobToStart(c.jobEvents).uid,
                          Discovery.GetPodForJob(c.podEvents), CallsBeforeDiscovery(t, c))
  {
    var job, uid := c.createReply.value, Activation.WaitForJobToStart(c.jobEvents).uid;
    var s0 := Then([], Cleanup.CleanOldJob(t.name, c.priorJob, c.deleteReply).calls);
    var s1 := Then(s0, [CreateJob(t.name)]);
    CleanupHandsOver(t, c);
    SubmitHandsOver(t, c, s0);
    ActivationHandsOver(c, job, uid, s1);
  }

  /** Discovery runs exactly when every earlier stage passes, and then it
      watches the pods of the token activation returned, after a job watch
      for the name the create call returned. */
  lemma DiscoveryFollowsActivation(t: Template, c: Cluster)
    ensures |RunJob(t, c).stages| > 3 <==> ReachesDiscovery(c)
    ensures ReachesDiscovery(c) ==>
              && RunJob(t, c).stages[2] == [WatchJobs(Activation.Selector(c.createReply.value))]
              && RunJob(t, c).stages[3][0] ==
                   WatchPods(Discovery.Selector(Activation.WaitForJobToStart(c.jobEvents).uid))
  {
    var cleanup := Cleanup.CleanOldJob(t.name, c.priorJob, c.deleteReply);
    if !cleanup.proceed {
      assert |RunJob(t, c).stages| == 1;
    } else if c.createReply.ApiError? {
      CleanupHandsOver(t, c);
      assert |RunJob(t, c).stages| == 2;
    } else {
      var s0 := Then([], cleanup.calls);
      CleanupHandsOver(t, c);
      SubmitHandsOver(t, c, s0);
      assert |Then(s0, [CreateJob(t.name)])| == 2;
    }
  }

  /** The log stage runs exactly when discovery finds a ready pod with a
      name, and it streams that pod's log. */
  lemma LogsFollowDiscoveredPod(t: Template, c: Cluster)
    ensures |RunJob(t, c).stages| > 4 <==>
              var found := Discovery.GetPodForJob(c.podEvents);
              ReachesDiscovery(c) && found.PodReady? && Truthy(found.pod)
    ensures |RunJob(t, c).stages| > 4 ==>
              RunJob(t, c).stages[4] == [ReadPodLog(Discovery.GetPodForJob(c.podEvents).pod)]
  {
    DiscoveryFollowsActivation(t, c);
    if ReachesDiscovery(c) {
      ReachedDiscovery(t, c);
      assert |CallsBeforeDiscovery(t, c)| == 3;
    } else {
      assert |RunJob(t, c).stages| <= 3;
    }
  }

  /** Once the log has been streamed, the poll runs exactly when the stream
      ended normally, and it reads the status of the pod discovery found. */
  lemma PollFollowsDiscoveredPod(t: Template, c: Cluster)
    requires |RunJob(t, c).stages| > 4
    ensures |RunJob(t, c).stages| == StageCount <==> c.logReply.Ok?
    ensures var found := Discovery.GetPodForJob(c.podEvents);
            && found.PodReady?
            && (|RunJob(t, c).stages| == StageCount ==>
                  forall call :: call in RunJob(t, c).stages[PollRank] ==> call == ReadPodStatus(found.pod))
  {
    LogsFollowDiscoveredPod(t, c);
    ReachedDiscovery(t, c);
    var found := Discovery.GetPodForJob(c.podEvents);
    DiscoveryHandsOver(c, Activation.WaitForJobToStart(c.jobEvents).uid, found.pod, CallsBeforeDiscovery(t, c));
  }

  /** When the first pod that is not pending has failed, the run reads that
      pod's log and ends there with exit status 1. */
  lemma FailedPodLogFetched(t: Template, c: Cluster, i: int)
    requires ReachesDiscovery(c)
    requires Discovery.FirstSettled(c.podEvents, i) && c.podEvents[i].phase == Some(Failed)
    ensures RunJob(t, c).outcome == Failure(PodFailed(c.podEvents[i].name))
    ensures |RunJob(t, c).stages| == Rank(DiscoveryStage) + 1
    ensures RunJob(t, c).stages[3] ==
              [WatchPods(Discovery.Selector(Activation.WaitForJobToStart(c.jobEvents).uid)), ReadPodLog(c.podEvents[i].name)]
  {
    ReachedDiscovery(t, c);
  }

  /** Conversely, a run only fails on a failed pod when the first pod that
      is not pending reported `Failed`, and that pod's log was its last call. */
  lemma PodFailedNeedsFailedEvent(t: Template, c: Cluster)
    requires RunJob(t, c).outcome.Failure? && RunJob(t, c).outcome.reason.PodFailed?
    ensures exists i :: && Discovery.FirstSettled(c.podEvents, i)
                        && c.podEvents[i].phase == Some(Failed)
                        && c.podEvents[i].name == RunJob(t, c).outcome.reason.pod
    ensures var calls := RunJob(t, c).stages[3];
            calls[|calls| - 1] == ReadPodLog(RunJob(t, c).outcome.reason.pod)
  {
    DiscoveryFollowsActivation(t, c);
    ReachedDiscovery(t, c);
    var i :| Discovery.FirstSettled(c.podEvents, i);
    assert c.podEvents[i].phase == Some(Failed);
  }

  /** When the first pod that is not pending is in a phase the runner does
      not know (an absent phase included), the run ends at once: discovery
      makes only its watch call, no log is read, and the exit status is 1. */
  lemma UnexpectedPhaseFailsFast(t: Template, c: Cluster, i: int)
    requires ReachesDiscovery(c)
    requires Discovery.FirstSettled(c.podEvents, i) && !Discovery.IsKnownPhase(c.podEvents[i].phase)
    ensures RunJob(t, c).outcome == Failure(UnexpectedPodState(c.podEvents[i].name, c.podEvents[i].phase))
    ensures |RunJob(t, c).stages| == Rank(DiscoveryStage) + 1
    ensures RunJob(t, c).stages[3] ==
              [WatchPods(Discovery.Selector(Activation.WaitForJobToStart(c.jobEvents).uid))]
  {
    ReachedDiscovery(t, c);
  }

  /** An end-to-end scenario up to the poll: template
      "etl-nightly", no prior job, the job activates with correlation token
      "abc123", its pod "etl-nightly-xyz" goes Pending then Running, and the
      log stream closes. */
  ghost predicate NightlyScenario(c: Cluster)
  {
    && c.priorJob.ApiError?
    && c.createReply == Ok("etl-nightly")
    && c.jobEvents == [Activation.JobObject(map[Activation.ControllerUidLabel := "abc123"], JobStatus(Some(1), None))]
    && c.podEvents == [Discovery.PodObject("etl-nightly-xyz", Some(Pending)),
                       Discovery.PodObject("etl-nightly-xyz", Some(Running))]
    && c.logReply.Ok?
  }

  /** The calls made in that scenario before the poll, stage by stage. */
  function NightlyCalls(): (stages: seq<seq<Call>>)
    ensures WellStaged(stages) && |stages| == Rank(PollStage)
  {
    [[ReadJobStatus("etl-nightly")],
     [CreateJob("etl-nightly")],
     [WatchJobs("job-name=etl-nightly")],
     [WatchPods("controller-uid=abc123")],
     [ReadPodLog("etl-nightly-xyz")]]
  }

  /** In the scenario, every stage before the poll passes with exactly the
      expected calls, and the pod polled is "etl-nightly-xyz". */
  lemma NightlyReachesPoll(c: Cluster)
    requires NightlyScenario(c)
    ensures RunJob(Template("etl-nightly"), c) == AwaitTerminal(c, "etl-nightly-xyz", NightlyCalls())
  {
    NightlyWatchesDecide(c);
    PassingRunReachesPoll(Template("etl-nightly"), c, "abc123", "etl-nightly-xyz");
    NightlyCallsListed();
  }

  /** The calls of a run whose every stage before the poll passes, the
      cleanup having found no job to read and the create call having
      returned the name `job`. */
  function PassingCalls(t: Template, job: string, uid: string, pod: string): (stages: seq<seq<Call>>)
    ensures WellStaged(stages) && |stages| == Rank(PollStage)
  {
    var s0 := Then([], [ReadJobStatus(t.name)]);
    var s1 := Then(s0, [CreateJob(t.name)]);
    var s2 := Then(s1, [WatchJobs(Activation.Selector(job))]);
    var s3 := Then(s2, [WatchPods(Discovery.Selector(uid))]);
    Then(s3, [ReadPodLog(pod)])
  }

  lemma NightlyCallsListed()
    ensures PassingCalls(Template("etl-nightly"), "etl-nightly", "abc123", "etl-nightly-xyz") == NightlyCalls()
  {
    assert Activation.Selector("etl-nightly") == "job-name=etl-nightly";
    assert Discovery.Selector("abc123") == "controller-uid=abc123";
  }

  /** A run with no prior job to read, whose create call succeeds and whose
      watches and log stream all pass, reaches
      the poll after one call per stage, polling the pod discovery found. */
  lemma PassingRunReachesPoll(t: Template, c: Cluster, uid: string, pod: string)
    requires c.priorJob.ApiError? && c.createReply.Ok?
    requires Activation.WaitForJobToStart(c.jobEvents) == Activation.Activated(uid) && Truthy(uid)
    requires Discovery.GetPodForJob(c.podEvents) == Discovery.PodReady(pod) && Truthy(pod)
    requires c.logReply.Ok?
    ensures RunJob(t, c) == AwaitTerminal(c, pod, PassingCalls(t, c.createReply.value, uid, pod))
  {
    var s0 := Then([], [ReadJobStatus(t.name)]);
    var s1 := Then(s0, [CreateJob(t.name)]);
    var s2 := Then(s1, [WatchJobs(Activation.Selector(c.createReply.value))]);
    assert CallsBeforeDiscovery(t, c) == s2;
    ReachedDiscovery(t, c);
    ReadyPodReachesPoll(c, uid, pod, s2);
  }

  /** A ready pod with a name whose log stream ends normally is polled
      after the pod watch and the log call. */
  lemma ReadyPodReachesPoll(c: Cluster, uid: string, pod: string, stages: seq<seq<Call>>)
    requires WellStaged(stages) && |stages| == Rank(DiscoveryStage)
    requires Truthy(pod) && c.logReply.Ok?
    ensures DiscoverPod(c, uid, Discovery.PodReady(pod), stages) ==
              AwaitTerminal(c, pod, Then(Then(stages, [WatchPods(Discovery.Selector(uid))]), [ReadPodLog(pod)]))
  {
    var s3 := Then(stages, [WatchPods(Discovery.Selector(uid))]);
    DiscoveryHandsOver(c, uid, pod, stages);
    LogsHandOver(c, pod, s3);
  }

  /** In the scenario, the job watch yields token "abc123" and the pod
      watch pod "etl-nightly-xyz", the pending event being skipped. */
  lemma NightlyWatchesDecide(c: Cluster)
    requires NightlyScenario(c)
    ensures Activation.WaitForJobToStart(c.jobEvents) == Activation.Activated("abc123")
    ensures Discovery.GetPodForJob(c.podEvents) == Discovery.PodReady("etl-nightly-xyz")
  {
    assert Activation.FirstStarted(c.jobEvents, 0);
    assert Discovery.FirstSettled(c.podEvents, 1);
  }

  /** A cleanup that lets the run proceed leads to the create stage. */
  lemma CleanupHandsOver(t: Template, c: Cluster)
    requires Cleanup.CleanOldJob(t.name, c.priorJob, c.deleteReply).proceed
    ensures RunJob(t, c) == Submit(t, c, Then([], Cleanup.CleanOldJob(t.name, c.priorJob, c.deleteReply).calls))
  {
  }

  /** The scenario completed: the first status read says Succeeded, and the
      run exits 0 after one call per stage. */
  lemma EndToEndSucceeds(c: Cluster)
    requires NightlyScenario(c) && c.statusAnswers(0) == Ok(Some(Succeeded))
    ensures RunJob(Template("etl-nightly"), c).outcome == Success
    ensures RunJob(Template("etl-nightly"), c).stages == NightlyCalls() + [[ReadPodStatus("etl-nightly-xyz")]]
  {
    NightlyReachesPoll(c);
    FirstReadSucceeds(c, "etl-nightly-xyz", NightlyCalls());
  }

  /** A status read that says `Succeeded` at once ends the poll after that
      one call, and the run exits 0. */
  lemma FirstReadSucceeds(c: Cluster, pod: string, stages: seq<seq<Call>>)
    requires WellStaged(stages) && |stages| == Rank(PollStage)
    requires c.statusAnswers(0) == Ok(Some(Succeeded))
    ensures AwaitTerminal(c, pod, stages) == Report(Success, stages + [[ReadPodStatus(pod)]])
  {
    var polled := Poll.PollStatus(c.statusAnswers);
    assert polled == Poll.Polled(Poll.PodSucceeded, 1);
    var calls := StatusReadCalls(pod, polled.count);
    assert calls == [ReadPodStatus(pod)] by {
      assert calls[0] in calls;
    }
  }

  /** The same scenario with a pod that stays Running: it is read 31 times
      and the run exits 1, reporting phase Running. */
  lemma StuckRunningFails(c: Cluster)
    requires NightlyScenario(c) && forall i :: c.statusAnswers(i) == Ok(Some(Running))
    ensures RunJob(Template("etl-nightly"), c).outcome == Failure(NonZeroExit(Some(Running)))
    ensures |RunJob(Template("etl-nightly"), c).stages[PollRank]| == Poll.MaxStatusReads
  {
    NightlyReachesPoll(c);
    Poll.StuckPhaseExhaustsReads(c.statusAnswers, Some(Running));
  }
}
