# jobber's job runner, modelled in Dafny

`run_job.py` launches one templated Kubernetes batch job and follows it to
the end. It deletes a finished job of the same name left over from an
earlier run, or refuses to start while that job is still running. It then
creates the job and watches job events until the job is active or
complete, which yields its `controller-uid` label. Next it watches pod
events for that label until the pod runs. It follows the pod's log to the
end and polls the pod's status until it reports `Succeeded`. It exits 0 on
`Succeeded` and 1 on every failure along the way.

This project models the decisions the runner makes between its cluster
calls. Every answer the cluster would give is an input:

- `Reply<T>` is the answer to one blocking call: `Ok(value)`, or `ApiError`
  for a raised `ApiException`.
- A watch is a finite sequence of events. The end of the sequence stands
  for the watch timing out.
- The status reads are a function from the read's index to its answer.

A run is a pure function `Pipeline.RunJob(template, cluster)`. It returns
the outcome, with exit status `Pipeline.ExitCode(outcome)`. It also returns
the calls each stage made, so "nothing else was called" can be stated.
Each stage hands the next one what it needs: the created job's name, the
correlation token (`controller-uid`), then the pod's name. The two
watching stages are given how their watch ended; `Pipeline.Continue` runs
the watch over the cluster's events as it enters the stage.

Modules, one per file:

- `Facade` (`facade.dfy`): the values the Kubernetes client hands back, the
  calls made, and Python truthiness of `status.active` and of strings.
- `Watch` (`watch.dfy`): the bounded watch used twice by the runner.
  Judge each event, stop on the first deciding one, or run out.
- `Cleanup` (`cleanup.dfy`): `clean_old_job`.
- `Activation` (`activation.dfy`): `wait_for_job_to_start`.
- `Discovery` (`discovery.dfy`): `get_pod_for_job`.
- `Poll` (`poll.dfy`): the terminal-status loop at the end of `main`.
- `Pipeline` (`pipeline.dfy`): `main`'s stage sequencing.
- `RunProperties` (`run_properties.dfy`): properties of whole runs, and
  end-to-end scenarios.

Points of run_job.py's behaviour that are easy to misread:

- The status is read up to 31 times. The loop counts a retry after each
  read and stops once `counter > 30` (run_job.py:159-163).
- An `ApiException` raised by the read of the prior job is swallowed, just
  as one raised by the delete is, whatever its HTTP status. Cleanup then
  lets the run proceed (run_job.py:44-60).
- The pod watch is opened without a timeout (run_job.py:86-90), although
  its log message speaks of 20 seconds. It is modelled, like the job watch,
  as a finite event sequence.
- `main` tests the returned token and pod name with `if not`
  (run_job.py:139, 145). An empty `controller-uid` or an empty pod name
  therefore also ends the run with status 1 (`ControllerUidEmpty`,
  `PodNameEmpty`).
- Exceptions the source does not catch still end the process with status 1,
  as any uncaught Python exception does. These are a failing create, a
  deciding job event without the `controller-uid` label (a `KeyError`), a
  failing log stream and a failing status read. Each is a `Reason` of its own.

## Model

| member | source | states |
|---|---|---|
| `Watch.Run` | run_job.py:68-79 | A watch stops on the first event that decides, with that event's value and having consumed exactly the events up to it. It is exhausted iff no event decides. |
| `Watch.FirstStopDecides` | run_job.py:73-76 | First match wins. If event `i` is the first deciding one, the watch stops on it with its value after `i + 1` events. |
| `Watch.StopIgnoresRest` | run_job.py:73-76 | Once stopped, nothing later is examined. Any stream that agrees on the consumed prefix ends the same way. |
| `Watch.ContinueIsTransparent` | run_job.py:95-97 | An event the watch continues on changes only the count of consumed events. |
| `Cleanup.CleanOldJob` | run_job.py:43-60 | The job's status is read first. The run is refused iff a job is found without a completion time. A delete with grace period 2 is issued iff a job is found with a completion time, and then it is the second and last call; otherwise the read is the only call. A read that raises lets the run proceed. |
| `Cleanup.DeleteReplyIgnored` | run_job.py:54-60 | Whether the delete succeeds or raises never changes the decision. |
| `Cleanup.ProceedNeedsUnreadPriorOrDelete` | run_job.py:44-60 | A run proceeds only if the prior job's read raised, or the prior job had finished and a delete was issued. |
| `Activation.WaitForJobToStart` | run_job.py:63-79 | The result is the `controller-uid` of the first event whose job is active (non-zero `active`) or has a completion time. If that event lacks the label, the result is the `KeyError` outcome. If no event qualifies, the result is a timeout. |
| `Activation.LaterEventsIgnored` | run_job.py:73-76 | Events after the first started job never change the result. |
| `Activation.IdleEventIgnored` | run_job.py:68-73 | An event whose job has not started is skipped without effect. |
| `Discovery.GetPodForJob` | run_job.py:82-110 | The first pod event that is not Pending decides. Running or Succeeded accepts that pod's name. Failed gives `PodFailed`. Any other phase, an absent one included, gives `PodUnexpected` at once. Only Pending events until the end give a timeout. |
| `Discovery.LaterEventsIgnored` | run_job.py:91-107 | The decision is final: no event after the first settled pod is consumed. |
| `Discovery.PendingEventIgnored` | run_job.py:95-97 | A Pending event is skipped without affecting the result. |
| `Poll.PollFrom` | run_job.py:153-164 | Entered after `counter` retries, the loop reads until one read is not a retry or the counter passes 30. Every read before the last was a retry, and at most 31 reads are made. Its verdict comes from the last read. |
| `Poll.PollStatus` | run_job.py:152-168 | The loop starts at counter 0 and stops on the read that decides. Every read before it was a retry, and only the 31st read can be a retry and still end the loop. The verdict is success iff that read says Succeeded, and a failed read iff it raises. Otherwise the 31st read was a retry and its phase is reported. |
| `Poll.PollStatusDecides` | run_job.py:152-168 | In terms of the answers alone: polling succeeds iff one of the first 31 reads says Succeeded before any read raises. It fails on a raising read iff one comes before any success. It ends with a phase iff all 31 reads were retries. |
| `Poll.StuckPhaseExhaustsReads` | run_job.py:152-168 | A pod that keeps reporting one phase other than Succeeded is read 31 times, and that phase is reported. |
| `Poll.PollFromIgnoresLaterReads` | run_job.py:153-164 | Answers to reads beyond the last one made never affect the result. |
| `Poll.PollReadsAtMostWindow` | run_job.py:159-163 | Only the first 31 reads can affect the outcome. |
| `Pipeline.RunJob` | run_job.py:118-168 | The stages that ran are a prefix of cleanup, create, activation, discovery, logs, poll, and each made only calls of its own kind. A failed stage is the last to run, and a successful run ran all six. Cleanup's calls come first. The job is created iff cleanup lets the run proceed. Once the poll is reached, its verdict alone decides, with at most 31 status reads. |
| `Pipeline.Continue` | run_job.py:136-155 | Each stage uses what the stage before handed it. The job watch selects the created job's name, the pod watch selects the token, and the log read and every status read are of the pod's name. |
| `Pipeline.Submit` | run_job.py:131-134 | Continuing after cleanup, the create stage makes exactly one create call for the template's name. The run fails at the create stage iff that call raises. Earlier stages are kept, and the run stays well staged. |
| `Pipeline.SubmitHandsOver` | run_job.py:132-138 | A create call that succeeds hands the name it returns to activation, whose job watch then decides. |
| `Pipeline.AwaitActive` | run_job.py:136-144 | The activation stage makes exactly one job watch, with selector `job-name=<job>`. Given how that watch ended, the run fails with a timeout iff it ran out, on the missing label iff the deciding event lacks `controller-uid`, and on an empty token iff the token is empty. Otherwise the run goes on, and discovery watches pods with selector `controller-uid=<token>`. |
| `Pipeline.ActivationHandsOver` | run_job.py:137-144 | A non-empty token goes to discovery, and the pod watch over the cluster's pod events decides next. |
| `Pipeline.DiscoverPod` | run_job.py:142-146 | The discovery stage opens the pod watch with selector `controller-uid=<uid>`. Given how that watch ended, the run fails with a timeout iff it ran out. It fails on a Failed pod iff the watch found one, and then that pod's log is read after the watch. It fails on an unexpected state iff the watch ended on one, with that pod and phase. It fails on an empty pod name iff the ready pod's name is empty. Otherwise the run goes on, and the log stage reads the found pod's log. |
| `Pipeline.DiscoveryHandsOver` | run_job.py:143-149 | A ready pod with a name is handed to the log stage. |
| `Pipeline.StreamLogs` | run_job.py:148-155 | The logs stage makes exactly one follow-mode log read of the pod. The run fails there iff that read raises. Otherwise the poll runs, and every status read is of the same pod. |
| `Pipeline.LogsHandOver` | run_job.py:149-155 | A log stream that ends normally hands the same pod to the poll. |
| `Pipeline.AwaitTerminal` | run_job.py:151-168 | The poll stage makes only status reads of the discovered pod, one per read the loop makes. The poll's verdict becomes the run's outcome. |
| `Pipeline.PollOutcome` | run_job.py:156-168 | The run exits 0 iff the poll's verdict is success. Every other verdict is a failure of the poll stage: a raising read, and only that, is reported as an unreadable status, and running out of reads reports the last phase read. |
| `RunProperties.RunningPriorBlocksCreate` | run_job.py:50-52 | When a prior job has no completion time, the status read is the only call. No job is created and the run exits 1. |
| `RunProperties.FinishedOrMissingPriorReachesCreate` | run_job.py:44-60 | A finished prior job is deleted before the one create call. A prior job that cannot be read does not stop submission. |
| `RunProperties.CleanupHandsOver` | run_job.py:126-133 | A cleanup that lets the run proceed is followed by the create stage, with cleanup's calls as the first stage. |
| `RunProperties.PollDecidesExit` | run_job.py:152-168 | A run that reaches the poll exits 0 iff one of the first 31 reads says Succeeded before any read raises. |
| `RunProperties.ExhaustedPollReportsLastPhase` | run_job.py:152-168 | A run that reaches the poll, and whose first 31 reads are all retries, makes 31 status reads and fails reporting the phase the 31st read returned. |
| `RunProperties.RaisingReadFailsPoll` | run_job.py:152-163 | A run that reaches the poll, and whose read `i` raises after only retries, makes `i + 1` status reads and fails on the unreadable status. |
| `RunProperties.ExitZeroNeedsSucceededRead` | run_job.py:126-168 | Exit 0 means every stage ran and a status read said Succeeded. |
| `RunProperties.ReachedDiscovery` | run_job.py:126-144 | A run whose cleanup proceeds, whose create succeeds and whose job activates with a non-empty token continues as discovery of that token's pod. |
| `RunProperties.DiscoveryFollowsActivation` | run_job.py:131-144 | Discovery runs iff every earlier stage passes. The job watch is then for the name the create call returned, and the pod watch for the token activation found. |
| `RunProperties.LogsFollowDiscoveredPod` | run_job.py:142-149 | The log stage runs iff discovery finds a ready pod with a name, and it reads that pod's log. |
| `RunProperties.PollFollowsDiscoveredPod` | run_job.py:148-155 | Once the log stage has run, the poll runs iff the stream ended normally, and every status read is of the pod discovery found. |
| `RunProperties.FailedPodLogFetched` | run_job.py:98-103 | When the first pod event that is not Pending reports Failed, the run fails on that pod. Discovery is the last stage, and its calls are the pod watch and then that pod's log. |
| `RunProperties.PodFailedNeedsFailedEvent` | run_job.py:98-103 | A run fails on a Failed pod only if the first pod event that is not Pending reported Failed for that pod. That pod's log read is its last call. |
| `RunProperties.UnexpectedPhaseFailsFast` | run_job.py:104-107 | When the first pod event that is not Pending has an unknown or absent phase, the run fails with that pod and phase. Discovery makes only the watch call, and no later stage runs. |
| `RunProperties.PassingRunReachesPoll` | run_job.py:118-149 | A run with no readable prior job, a create call that returns a name, a non-empty token, a ready named pod and a log stream that ends reaches the poll. It has made exactly one call per stage: status read, create, job watch on the returned name, pod watch, log read. |
| `RunProperties.ReadyPodReachesPoll` | run_job.py:143-155 | A ready named pod whose log stream ends is polled after the pod watch and the log read. |
| `RunProperties.FirstReadSucceeds` | run_job.py:152-158 | A first status read that says Succeeded ends the poll after that one read, and the run succeeds. |
| `RunProperties.NightlyWatchesDecide` | run_job.py:68-97 | In an end-to-end scenario, the job watch yields token "abc123", and the pod watch skips the Pending event and yields pod "etl-nightly-xyz". |
| `RunProperties.NightlyReachesPoll` | run_job.py:118-149 | In an end-to-end scenario, there is no prior job and the job "etl-nightly" activates with token "abc123". Its pod "etl-nightly-xyz" goes Pending then Running, and the log stream closes. Every stage before the poll then passes with exactly one call each, and the poll is on that pod. |
| `RunProperties.EndToEndSucceeds` | run_job.py:150-158 | In that scenario, a first status read of Succeeded makes the run exit 0 after exactly six calls, one per stage. |
| `RunProperties.StuckRunningFails` | run_job.py:152-168 | In that scenario, a pod stuck in Running is read 31 times, and the run fails reporting Running. |

## Left out

- Kubernetes client calls (`load_kube_config`, the `BatchV1Api` and `CoreV1Api` calls, `watch.Watch`): they are foreign network calls. Their answers are inputs.
- Watch timeouts: the end of a finite event sequence stands for them. Stopping a watch (`w.stop()`) is the same as not consuming further events.
- Exceptions raised by the two watch streams: not modelled. One would end the process with status 1 at that stage, even where the events seen so far would have let the run go on.
- An exception raised by the log fetch for a failed pod: not modelled. It would end the process with status 1, which is where that path leads anyway.
- Exceptions other than `ApiException` from the read or the delete in cleanup would propagate and end the run. `Reply` has no case for them.
- Template parsing (`parse_template`, `yaml.safe_load`): a library call. The template is a record holding the `metadata.name` the runner reads. The body sent to the create call is not modelled.
- Command-line parsing (`argparse`) and the namespace: library plumbing. Every call goes to the one namespace given, so it is not carried.
- Logging and `coloredlogs` setup, and everything written to the log, the streamed log content included: process output only.
- `time.sleep` after the delete and between status reads: timing only.
- `os._exit` is modelled as the `Outcome` value and its exit status, not as process termination.
