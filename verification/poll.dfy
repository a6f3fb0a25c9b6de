/** Terminal-status polling (the loop at the end of `main`): once the pod's
    log stream has ended, its status is read until it reports `Succeeded` or
    the retry counter passes its bound. */
module Poll {
  import opened Facade

  /** The loop stops once `counter > MaxRetries`, the counter going up by
      one after every read that is not `Succeeded`. */
  const MaxRetries: nat := 30

  /** Hence the most status reads one run can make. */
  const MaxStatusReads: nat := MaxRetries + 1

  /** `answers(i)` is the answer to the `i`-th status read (from 0): the pod's
      phase, or a raised exception. */
  type StatusReads = nat -> Reply<Option<string>>

  /** A read the loop stops on with success. */
  predicate ReportsSucceeded(read: Reply<Option<string>>)
  {
    read == Ok(Some(Succeeded))
  }

  /** A read after which the loop counts a retry. */
  predicate KeepsPolling(read: Reply<Option<string>>)
  {
    read.Ok? && read.value != Some(Succeeded)
  }

  /** How polling ended. An exception from a status read is not caught and
      ends the run; `NotSucceeded` carries the last phase read. */
  datatype Verdict = PodSucceeded | StatusUnreadable | NotSucceeded(lastPhase: Option<string>)

  /** The verdict and the number of status reads made to reach it. */
  datatype Polled = Polled(verdict: Verdict, count: nat)

  /** The loop entered with `counter` reads already made, none of them a
      success. */
  function PollFrom(answers: StatusReads, counter: nat): (r: Polled)
    requires counter <= MaxRetries
    ensures counter < r.count <= MaxStatusReads
    ensures forall i :: counter <= i < r.count - 1 ==> KeepsPolling(answers(i))
    ensures r.count < MaxStatusReads ==> !KeepsPolling(answers(r.count - 1))
    ensures r.verdict.PodSucceeded? <==> ReportsSucceeded(answers(r.count - 1))
    ensures r.verdict.StatusUnreadable? <==> answers(r.count - 1).ApiError?
    ensures r.verdict.NotSucceeded? ==>
              && r.count == MaxStatusReads
              && answers(r.count - 1) == Ok(r.verdict.lastPhase)
              && KeepsPolling(answers(r.count - 1))
    decreases MaxRetries - counter
  {
    match answers(counter)
    case ApiError => Polled(StatusUnreadable, counter + 1)
    case Ok(phase) =>
      if phase == Some(Succeeded) then Polled(PodSucceeded, counter + 1)
      else if counter + 1 > MaxRetries then Polled(NotSucceeded(phase), counter + 1)
      else PollFrom(answers, counter + 1)
  }

  /** Read `i` reports success and no read before it raised. */
  ghost predicate SucceedsAt(answers: StatusReads, i: nat)
  {
    ReportsSucceeded(answers(i)) && forall j :: 0 <= j < i ==> answers(j).Ok?
  }

  /** Read `i` raises and every read before it was a retry. */
  ghost predicate RaisesAt(answers: StatusReads, i: nat)
  {
    answers(i).ApiError? && forall j :: 0 <= j < i ==> KeepsPolling(answers(j))
  }

  /** Polling that started at counter 0 stopped on the read that decides:
      every read before it was a retry, only the 31st read can be a retry
      and still end the loop, and the verdict is read off that last read. */
  ghost predicate StopsOnDecidingRead(answers: StatusReads, r: Polled)
  {
    && 1 <= r.count <= MaxStatusReads
    && (forall i :: 0 <= i < r.count - 1 ==> KeepsPolling(answers(i)))
    && (r.count < MaxStatusReads ==> !KeepsPolling(answers(r.count - 1)))
    && (r.verdict.PodSucceeded? <==> ReportsSucceeded(answers(r.count - 1)))
    && (r.verdict.StatusUnreadable? <==> answers(r.count - 1).ApiError?)
    && (r.verdict.NotSucceeded? ==> r.count == MaxStatusReads && answers(MaxRetries) == Ok(r.verdict.lastPhase))
  }

  /** The status loop as `main` enters it, with the counter at 0. */
  function PollStatus(answers: StatusReads): (r: Polled)
    ensures StopsOnDecidingRead(answers, r)
  {
    PollFrom(answers, 0)
  }

  /** What polling decides, in terms of the answers alone: success iff one
      of the first 31 reads says `Succeeded` before any read raises; a
      failed read iff one raises before that; and a phase iff all 31 reads
      were retries. */
  lemma PollStatusDecides(answers: StatusReads)
    ensures var r := PollStatus(answers);
            r.verdict.PodSucceeded? <==> exists i :: 0 <= i < MaxStatusReads && SucceedsAt(answers, i)
    ensures var r := PollStatus(answers);
            r.verdict.StatusUnreadable? <==> exists i :: 0 <= i < MaxStatusReads && RaisesAt(answers, i)
    ensures var r := PollStatus(answers);
            r.verdict.NotSucceeded? <==> forall i :: 0 <= i < MaxStatusReads ==> KeepsPolling(answers(i))
  {
    var r := PollStatus(answers);
    DecidingReadIsFirst(answers, r);
    AllRetriesMeansBound(answers, r);
  }

  /** Polling ends without a verdict from the pod exactly when all 31 reads
      were retries. */
  lemma AllRetriesMeansBound(answers: StatusReads, r: Polled)
    requires StopsOnDecidingRead(answers, r)
    ensures r.verdict.NotSucceeded? <==> forall i :: 0 <= i < MaxStatusReads ==> KeepsPolling(answers(i))
  {
  }

  /** The read polling stops on is the first of the 31 that is not a retry,
      so it is the one `SucceedsAt` or `RaisesAt` picks out. */
  lemma DecidingReadIsFirst(answers: StatusReads, r: Polled)
    requires StopsOnDecidingRead(answers, r)
    ensures r.verdict.PodSucceeded? <==> exists i :: 0 <= i < MaxStatusReads && SucceedsAt(answers, i)
    ensures r.verdict.StatusUnreadable? <==> exists i :: 0 <= i < MaxStatusReads && RaisesAt(answers, i)
  {
    var k := r.count - 1;
    if r.verdict.PodSucceeded? {
      assert SucceedsAt(answers, k);
    }
    if r.verdict.StatusUnreadable? {
      assert RaisesAt(answers, k);
    }
    forall i | 0 <= i < MaxStatusReads && SucceedsAt(answers, i)
      ensures r.verdict.PodSucceeded?
    {
      SucceedingReadDecides(answers, r, i);
    }
    forall i | 0 <= i < MaxStatusReads && RaisesAt(answers, i)
      ensures r.verdict.StatusUnreadable?
    {
      RaisingReadDecides(answers, r, i);
    }
  }

  lemma SucceedingReadDecides(answers: StatusReads, r: Polled, i: nat)
    requires StopsOnDecidingRead(answers, r)
    requires i < MaxStatusReads && SucceedsAt(answers, i)
    ensures r.verdict.PodSucceeded?
  {
    assert !KeepsPolling(answers(i));
    assert r.count - 1 <= i;
    assert answers(r.count - 1).Ok?;
  }

  lemma RaisingReadDecides(answers: StatusReads, r: Polled, i: nat)
    requires StopsOnDecidingRead(answers, r)
    requires i < MaxStatusReads && RaisesAt(answers, i)
    ensures r.verdict.StatusUnreadable?
  {
    assert !KeepsPolling(answers(i));
    assert r.count - 1 <= i;
    assert r.count < MaxStatusReads || r.count - 1 == i;
    assert !KeepsPolling(answers(r.count - 1));
    assert r.count - 1 == i;
  }

  /** A pod that keeps reporting one phase other than `Succeeded` is read
      31 times, and that phase is the one reported. */
  lemma StuckPhaseExhaustsReads(answers: StatusReads, phase: Option<string>)
    requires phase != Some(Succeeded)
    requires forall i :: 0 <= i < MaxStatusReads ==> answers(i) == Ok(phase)
    ensures PollStatus(answers) == Polled(NotSucceeded(phase), MaxStatusReads)
  {
  }

  /** The reads after the last one made are never looked at: two runs that
      agree on the reads made end the same way. */
  lemma PollFromIgnoresLaterReads(a: StatusReads, b: StatusReads, counter: nat)
    requires counter <= MaxRetries
    requires forall i :: counter <= i < PollFrom(a, counter).count ==> a(i) == b(i)
    ensures PollFrom(b, counter) == PollFrom(a, counter)
  {
  }

  /** At most 31 reads matter: whatever the cluster would answer to a 32nd
      read and beyond, the outcome is the same. */
  lemma PollReadsAtMostWindow(a: StatusReads, b: StatusReads)
    requires forall i :: 0 <= i < MaxStatusReads ==> a(i) == b(i)
    ensures PollStatus(a) == PollStatus(b)
  {
    PollFromIgnoresLaterReads(a, b, 0);
  }
}
