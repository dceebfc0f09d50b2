/**
 * The image search queue: any number of workers pick, claim, search and settle
 * jobs; a failing job is retried until its attempts are used up.
 */
module SearchQueue {
  import opened Arithmetic
  import opened Sums

  datatype Status = QUEUED | RUNNING | COMPLETED | FAILED

  /** `runs` and `succeeded` remember how often the search was run and whether it ever went through. */
  datatype Job = Job(status: Status, attempts: nat, maxAttempts: nat, runs: nat, succeeded: bool)

  datatype Phase =
    | Idle
    | Picked(job: nat)
    | Claimed(job: nat)
    | Completing(job: nat)
    | Failing(job: nat)
    | Settling(job: nat, exhausted: bool)

  datatype System = System(jobs: seq<Job>, workers: seq<Phase>)

  datatype Event =
    | Pick(worker: nat, job: nat)
    | Claim(worker: nat)
    | Search(worker: nat, fails: bool)
    | Complete(worker: nat, databaseFails: bool)
    | ReadAttempts(worker: nat)
    | Settle(worker: nat)

  predicate Enabled(s: System, e: Event) {
    && e.worker < |s.workers|
    && var p := s.workers[e.worker];
       match e
       case Pick(_, j) => p.Idle? && j < |s.jobs| && s.jobs[j].status == QUEUED
       case Claim(_) => p.Picked? && p.job < |s.jobs|
       case Search(_, _) => p.Claimed? && p.job < |s.jobs|
       case Complete(_, _) => p.Completing? && p.job < |s.jobs|
       case ReadAttempts(_) => p.Failing? && p.job < |s.jobs|
       case Settle(_) => p.Settling? && p.job < |s.jobs|
  }

  function Apply(s: System, e: Event): System
    requires Enabled(s, e)
  {
    var w := e.worker;
    match e
    case Pick(_, j) => s.(workers := s.workers[w := Picked(j)])
    case Claim(_) =>
      var j := s.workers[w].job;
      if s.jobs[j].status != QUEUED then s.(workers := s.workers[w := Idle])
      else
        System(s.jobs[j := s.jobs[j].(status := RUNNING, attempts := s.jobs[j].attempts + 1)],
               s.workers[w := Claimed(j)])
    case Search(_, fails) =>
      var j := s.workers[w].job;
      System(s.jobs[j := s.jobs[j].(runs := s.jobs[j].runs + 1, succeeded := s.jobs[j].succeeded || !fails)],
             s.workers[w := if fails then Failing(j) else Completing(j)])
    case Complete(_, fails) =>
      var j := s.workers[w].job;
      if fails then s.(workers := s.workers[w := Failing(j)])
      else System(s.jobs[j := s.jobs[j].(status := COMPLETED)], s.workers[w := Idle])
    case ReadAttempts(_) =>
      var j := s.workers[w].job;
      s.(workers := s.workers[w := Settling(j, s.jobs[j].attempts >= s.jobs[j].maxAttempts)])
    case Settle(_) =>
      var j := s.workers[w].job;
      System(s.jobs[j := s.jobs[j].(status := if s.workers[w].exhausted then FAILED else QUEUED)],
             s.workers[w := Idle])
  }

  ghost predicate IsRun(s: System, run: seq<Event>)
    decreases |run|
  {
    run != [] ==> Enabled(s, run[0]) && IsRun(Apply(s, run[0]), run[1..])
  }

  ghost function End(s: System, run: seq<Event>): System
    requires IsRun(s, run)
    decreases |run|
  {
    if run == [] then s else End(Apply(s, run[0]), run[1..])
  }

  /** A fixed queue of fresh jobs, each with at least one attempt, and idle workers. */
  ghost predicate IsStart(s: System) {
    && (forall job | job in s.jobs ::
          job.status == QUEUED && job.attempts == job.runs == 0 && job.maxAttempts >= 1 && !job.succeeded)
    && (forall p | p in s.workers :: p.Idle?)
  }

  // ---------- one worker at a time, and no more attempts than allowed ----------

  predicate Works(p: Phase, j: nat) {
    !p.Idle? && !p.Picked? && p.job == j
  }

  predicate JobOk(job: Job) {
    && job.attempts <= job.maxAttempts
    && (job.status == QUEUED ==> job.attempts < job.maxAttempts)
    && (job.status == FAILED ==> job.attempts == job.maxAttempts)
    && (job.status != RUNNING ==> job.runs == job.attempts)
    && (job.status == RUNNING ==> job.attempts >= 1)
    && (job.status == COMPLETED ==> job.succeeded)
  }

  predicate WorkerOk(s: System, p: Phase) {
    && (!p.Idle? ==> p.job < |s.jobs|)
    && (!p.Idle? && !p.Picked? ==>
          && s.jobs[p.job].status == RUNNING
          && s.jobs[p.job].runs == s.jobs[p.job].attempts - (if p.Claimed? then 1 else 0))
    && (p.Completing? ==> s.jobs[p.job].succeeded)
    && (p.Settling? ==> (p.exhausted <==> s.jobs[p.job].attempts >= s.jobs[p.job].maxAttempts))
  }

  ghost predicate Invariant(s: System) {
    && (forall j | 0 <= j < |s.jobs| :: JobOk(s.jobs[j]))
    && (forall w | 0 <= w < |s.workers| :: WorkerOk(s, s.workers[w]))
    && (forall j | 0 <= j < |s.jobs| && s.jobs[j].status == RUNNING ::
          exists w :: 0 <= w < |s.workers| && Works(s.workers[w], j))
    && Exclusive(s)
  }

  /** No job is worked on by two workers. */
  ghost predicate Exclusive(s: System) {
    forall j, v, w | 0 <= v < w < |s.workers| :: !(Works(s.workers[v], j) && Works(s.workers[w], j))
  }

  lemma {:induction false} NotBoth(s: System, v: nat, w: nat, j: nat)
    requires Exclusive(s) && v < |s.workers| && w < |s.workers| && v != w && Works(s.workers[v], j)
    ensures !Works(s.workers[w], j)
  {
    var a, b := if v < w then v else w, if v < w then w else v;
    assert !(Works(s.workers[a], j) && Works(s.workers[b], j));
  }

  /** Steps of one worker leave the others' facts alone, as long as they work on other jobs. */
  lemma {:induction false} OthersOk(s: System, e: Event)
    requires Invariant(s) && Enabled(s, e)
    ensures var s' := Apply(s, e);
      forall w | 0 <= w < |s.workers| && w != e.worker :: s'.workers[w] == s.workers[w] && WorkerOk(s', s'.workers[w])
  {
    var s' := Apply(s, e);
    var p := s.workers[e.worker];
    assert WorkerOk(s, p);
    forall w | 0 <= w < |s.workers| && w != e.worker
      ensures s'.workers[w] == s.workers[w] && WorkerOk(s', s'.workers[w]) {
      var q := s.workers[w];
      assert WorkerOk(s, q);
      if !p.Idle? && Works(q, p.job) { NotBoth(s, w, e.worker, p.job); }
    }
  }

  /** A worker comes to work on a job only by claiming it, which takes it from QUEUED. */
  lemma {:induction false} StepWorks(s: System, e: Event, w: nat, j: nat)
    requires Enabled(s, e) && w < |s.workers| && Works(Apply(s, e).workers[w], j)
    ensures Works(s.workers[w], j) || (w == e.worker && j < |s.jobs| && s.jobs[j].status == QUEUED)
  {
  }

  lemma {:induction false} StepExclusive(s: System, e: Event)
    requires Invariant(s) && Enabled(s, e)
    ensures Exclusive(Apply(s, e))
  {
    var s' := Apply(s, e);
    forall j: nat, v, w | 0 <= v < w < |s'.workers| && Works(s'.workers[v], j)
      ensures !Works(s'.workers[w], j) {
      StepWorks(s, e, v, j);
      assert WorkerOk(s, s.workers[v]) && WorkerOk(s, s.workers[w]);
      assert !(Works(s.workers[v], j) && Works(s.workers[w], j));
      if Works(s'.workers[w], j) { StepWorks(s, e, w, j); }
    }
  }

  lemma {:induction false} RunningJobsHaveWorker(s: System, e: Event)
    requires Invariant(s) && Enabled(s, e)
    ensures var s' := Apply(s, e);
      forall j | 0 <= j < |s'.jobs| && s'.jobs[j].status == RUNNING ::
        exists w :: 0 <= w < |s'.workers| && Works(s'.workers[w], j)
  {
    var s' := Apply(s, e);
    var p := s.workers[e.worker];
    assert WorkerOk(s, p);
    forall j | 0 <= j < |s'.jobs| && s'.jobs[j].status == RUNNING
      ensures exists w :: 0 <= w < |s'.workers| && Works(s'.workers[w], j) {
      if Works(s'.workers[e.worker], j) {
      } else {
        assert s.jobs[j].status == RUNNING;
        var w :| 0 <= w < |s.workers| && Works(s.workers[w], j);
        assert Works(s'.workers[w], j);
      }
    }
  }

  lemma {:induction false} StepJobsOk(s: System, e: Event)
    requires Invariant(s) && Enabled(s, e)
    ensures var s' := Apply(s, e);
      && |s'.jobs| == |s.jobs| && |s'.workers| == |s.workers|
      && WorkerOk(s', s'.workers[e.worker])
      && forall j | 0 <= j < |s'.jobs| :: JobOk(s'.jobs[j])
  {
    var p := s.workers[e.worker];
    assert WorkerOk(s, p);
    assert !p.Idle? ==> JobOk(s.jobs[p.job]);
  }

  lemma {:induction false} StepInvariant(s: System, e: Event)
    requires Invariant(s) && Enabled(s, e)
    ensures Invariant(Apply(s, e))
  {
    StepJobsOk(s, e);
    OthersOk(s, e);
    StepExclusive(s, e);
    RunningJobsHaveWorker(s, e);
  }

  lemma {:induction false} RunInvariant(s: System, run: seq<Event>)
    requires Invariant(s) && IsRun(s, run)
    ensures Invariant(End(s, run))
    decreases |run|
  {
    if run != [] {
      StepInvariant(s, run[0]);
      RunInvariant(Apply(s, run[0]), run[1..]);
    }
  }

  /** Main result on safety: however the workers interleave. */
  lemma {:induction false} RunsAreBounded(s: System, run: seq<Event>)
    requires IsStart(s) && IsRun(s, run)
    ensures var t := End(s, run);
      && Exclusive(t)
      && forall j | 0 <= j < |t.jobs| :: t.jobs[j].runs <= t.jobs[j].attempts <= t.jobs[j].maxAttempts
  {
    RunInvariant(s, run);
    var t := End(s, run);
    forall j | 0 <= j < |t.jobs| ensures t.jobs[j].runs <= t.jobs[j].attempts <= t.jobs[j].maxAttempts {
      assert JobOk(t.jobs[j]);
      if t.jobs[j].status == RUNNING {
        var w :| 0 <= w < |t.workers| && Works(t.workers[w], j);
        assert WorkerOk(t, t.workers[w]);
      }
    }
  }

  // ---------- draining ends ----------

  function Weight(jobs: seq<Job>, p: Phase): int {
    match p
    case Idle => 2
    case Picked(j) => if j < |jobs| && jobs[j].status == QUEUED then 1 else 3
    case Claimed(_) => 6
    case Completing(_) => 5
    case Failing(_) => 4
    case Settling(_, _) => 3
  }

  function Weights(s: System): seq<int> {
    seq(|s.workers|, w requires 0 <= w < |s.workers| => Weight(s.jobs, s.workers[w]))
  }

  function Remaining(jobs: seq<Job>): seq<int> {
    seq(|jobs|, j requires 0 <= j < |jobs| => jobs[j].maxAttempts - jobs[j].attempts)
  }

  /** What is left to do: the attempts that remain, and how far each worker is from picking again. */
  function Measure(s: System): int {
    (2 * |s.workers| + 6) * SumSeq(Remaining(s.jobs)) + SumSeq(Weights(s))
  }

  lemma {:induction false} RemainingNonNegative(s: System)
    requires Invariant(s)
    ensures SumSeq(Remaining(s.jobs)) >= 0
  {
    forall j | 0 <= j < |s.jobs| ensures Remaining(s.jobs)[j] >= 0 { assert JobOk(s.jobs[j]); }
    SumSeqNonNegative(Remaining(s.jobs));
  }

  lemma {:induction false} MeasureNonNegative(s: System)
    requires Invariant(s)
    ensures Measure(s) >= 0
  {
    RemainingNonNegative(s);
    SumSeqNonNegative(Weights(s));
    TimesMonotone(0, 2 * |s.workers| + 6, SumSeq(Remaining(s.jobs)));
  }

  /** A step that is no successful claim moves its worker on and makes no other pick stale. */
  lemma {:induction false} OtherStepWeights(s: System, e: Event)
    requires Invariant(s) && Enabled(s, e)
    requires e.Claim? ==> s.jobs[s.workers[e.worker].job].status != QUEUED
    ensures var s' := Apply(s, e);
      && |s'.workers| == |s.workers|
      && Weight(s'.jobs, s'.workers[e.worker]) < Weight(s.jobs, s.workers[e.worker])
      && forall w | 0 <= w < |s.workers| && w != e.worker ::
           Weight(s'.jobs, s'.workers[w]) <= Weight(s.jobs, s.workers[w])
  {
    assert WorkerOk(s, s.workers[e.worker]);
  }

  lemma {:induction false} OtherStepAttempts(s: System, e: Event)
    requires Enabled(s, e)
    requires e.Claim? ==> s.jobs[s.workers[e.worker].job].status != QUEUED
    ensures Remaining(Apply(s, e).jobs) == Remaining(s.jobs)
  {
  }

  lemma {:induction false} OtherStepLowersMeasure(s: System, e: Event)
    requires Invariant(s) && Enabled(s, e)
    requires e.Claim? ==> s.jobs[s.workers[e.worker].job].status != QUEUED
    ensures Measure(Apply(s, e)) < Measure(s)
  {
    var a, b, w := Weights(s), Weights(Apply(s, e)), e.worker;
    OtherStepWeights(s, e);
    OtherStepAttempts(s, e);
    SumSeqUpdate(a, w, b[w]);
    SumSeqBound(a[w := b[w]], b, 0);
  }

  /** A successful claim uses an attempt, which outweighs all picks that it makes stale. */
  lemma {:induction false} ClaimUsesAttempt(s: System, e: Event)
    requires Invariant(s) && Enabled(s, e) && e.Claim?
    requires s.jobs[s.workers[e.worker].job].status == QUEUED
    ensures Measure(Apply(s, e)) < Measure(s)
  {
    ClaimLowersRemaining(s, e);
    ClaimRaisesWeights(s, e);
    Outweighs(2 * |s.workers| + 6, SumSeq(Remaining(s.jobs)), SumSeq(Weights(s)), SumSeq(Weights(Apply(s, e))));
  }

  lemma {:induction false} Outweighs(k: int, attempts: int, before: int, after: int)
    requires after < before + k
    ensures k * (attempts - 1) + after < k * attempts + before
  {
    assert k * (attempts - 1) == k * attempts - k;
  }

  lemma {:induction false} ClaimLowersRemaining(s: System, e: Event)
    requires Enabled(s, e) && e.Claim? && s.jobs[s.workers[e.worker].job].status == QUEUED
    ensures SumSeq(Remaining(Apply(s, e).jobs)) == SumSeq(Remaining(s.jobs)) - 1
  {
    var r, j := Remaining(s.jobs), s.workers[e.worker].job;
    assert Remaining(Apply(s, e).jobs) == r[j := r[j] - 1];
    SumSeqUpdate(r, j, r[j] - 1);
  }

  lemma {:induction false} ClaimRaisesWeights(s: System, e: Event)
    requires Enabled(s, e) && e.Claim? && s.jobs[s.workers[e.worker].job].status == QUEUED
    ensures SumSeq(Weights(Apply(s, e))) <= SumSeq(Weights(s)) + 5 + 2 * |s.workers|
  {
    var a, b, w := Weights(s), Weights(Apply(s, e)), e.worker;
    assert a[w] == 1;
    forall v | 0 <= v < |a| ensures b[v] <= a[w := 6][v] + 2 {}
    SumSeqUpdate(a, w, 6);
    SumSeqBound(a[w := 6], b, 2);
  }

  lemma {:induction false} RunUsesMeasure(s: System, run: seq<Event>)
    requires Invariant(s) && IsRun(s, run)
    ensures |run| + Measure(End(s, run)) <= Measure(s)
    decreases |run|
  {
    if run != [] {
      var e := run[0];
      if e.Claim? && s.jobs[s.workers[e.worker].job].status == QUEUED { ClaimUsesAttempt(s, e); }
      else { OtherStepLowersMeasure(s, e); }
      StepInvariant(s, e);
      RunUsesMeasure(Apply(s, e), run[1..]);
    }
  }

  lemma {:induction false} StartInvariant(s: System)
    requires IsStart(s)
    ensures Invariant(s)
  {
    forall w | 0 <= w < |s.workers| ensures WorkerOk(s, s.workers[w]) { assert s.workers[w] in s.workers; }
  }

  /** Main result on termination: draining a fixed queue takes a bounded number of steps, in any interleaving. */
  lemma {:induction false} DrainingEnds(s: System, run: seq<Event>)
    requires IsStart(s) && IsRun(s, run)
    ensures var attempts := SumSeq(seq(|s.jobs|, j requires 0 <= j < |s.jobs| => s.jobs[j].maxAttempts));
      |run| <= (2 * |s.workers| + 6) * attempts + 2 * |s.workers|
  {
    StartInvariant(s);
    RunInvariant(s, run);
    RunUsesMeasure(s, run);
    MeasureNonNegative(End(s, run));
    assert Remaining(s.jobs) == seq(|s.jobs|, j requires 0 <= j < |s.jobs| => s.jobs[j].maxAttempts);
    IdleWeights(s);
  }

  lemma {:induction false} IdleWeights(s: System)
    requires forall p | p in s.workers :: p.Idle?
    ensures SumSeq(Weights(s)) == 2 * |s.workers|
    decreases |s.workers|
  {
    if s.workers != [] {
      var rest := s.(workers := s.workers[1..]);
      assert s.workers[0] in s.workers;
      assert Weights(s)[1..] == Weights(rest);
      IdleWeights(rest);
    }
  }

  /**
   * Where no step is left, every worker is idle and every job is COMPLETED, or
   * FAILED after exactly its number of attempts; a job whose search never went
   * through is FAILED.
   */
  lemma {:induction false} DrainedQueue(s: System, run: seq<Event>, j: nat)
    requires IsStart(s) && IsRun(s, run) && |s.workers| >= 1
    requires forall e :: !Enabled(End(s, run), e)
    requires j < |s.jobs| == |End(s, run).jobs|
    ensures var job := End(s, run).jobs[j];
      && (job.status == COMPLETED || job.status == FAILED)
      && (job.status == FAILED ==> job.runs == s.jobs[j].maxAttempts)
      && (!job.succeeded ==> job.status == FAILED)
  {
    StartInvariant(s);
    RunInvariant(s, run);
    WorkersStay(s, run);
    var t := End(s, run);
    forall w | 0 <= w < |t.workers| ensures t.workers[w].Idle? {
      assert WorkerOk(t, t.workers[w]);
      assert !Enabled(t, Claim(w)) && !Enabled(t, Search(w, true)) && !Enabled(t, Complete(w, true))
             && !Enabled(t, ReadAttempts(w)) && !Enabled(t, Settle(w));
    }
    assert !Enabled(t, Pick(0, j));
    assert JobOk(t.jobs[j]);
  }

  // ---------- a search that went through ----------

  /** A search that went through is COMPLETED, or about to be. */
  ghost predicate NothingLost(s: System) {
    && (forall j | 0 <= j < |s.jobs| && s.jobs[j].succeeded ::
          s.jobs[j].status == COMPLETED || s.jobs[j].status == RUNNING)
    && (forall w | 0 <= w < |s.workers| :: NotYet(s, s.workers[w]))
  }

  predicate NotYet(s: System, p: Phase) {
    (p.Claimed? || p.Failing? || p.Settling?) && p.job < |s.jobs| ==> !s.jobs[p.job].succeeded
  }

  lemma {:induction false} StepLosesNothing(s: System, e: Event)
    requires Invariant(s) && NothingLost(s) && Enabled(s, e) && !(e.Complete? && e.databaseFails)
    ensures NothingLost(Apply(s, e))
  {
    var s' := Apply(s, e);
    var p := s.workers[e.worker];
    assert WorkerOk(s, p) && NotYet(s, p);
    assert NotYet(s', s'.workers[e.worker]);
    forall w | 0 <= w < |s.workers| && w != e.worker ensures NotYet(s', s'.workers[w]) {
      var q := s.workers[w];
      assert WorkerOk(s, q) && NotYet(s, q);
      if !p.Idle? && Works(q, p.job) { NotBoth(s, w, e.worker, p.job); }
    }
  }

  lemma {:induction false} RunLosesNothing(s: System, run: seq<Event>)
    requires Invariant(s) && NothingLost(s) && IsRun(s, run)
    requires forall e | e in run :: !(e.Complete? && e.databaseFails)
    ensures NothingLost(End(s, run))
    decreases |run|
  {
    if run != [] {
      assert run[0] in run;
      StepLosesNothing(s, run[0]);
      StepInvariant(s, run[0]);
      RunLosesNothing(Apply(s, run[0]), run[1..]);
    }
  }

  /** When the database does not fail, a drained queue has COMPLETED exactly the jobs whose search went through. */
  lemma {:induction false} CompletedIffSucceeded(s: System, run: seq<Event>, j: nat)
    requires IsStart(s) && IsRun(s, run) && |s.workers| >= 1
    requires forall e | e in run :: !(e.Complete? && e.databaseFails)
    requires forall e :: !Enabled(End(s, run), e)
    requires j < |s.jobs| == |End(s, run).jobs|
    ensures End(s, run).jobs[j].status == COMPLETED <==> End(s, run).jobs[j].succeeded
  {
    StartInvariant(s);
    forall i | 0 <= i < |s.jobs| ensures !s.jobs[i].succeeded { assert s.jobs[i] in s.jobs; }
    forall w | 0 <= w < |s.workers| ensures s.workers[w].Idle? { assert s.workers[w] in s.workers; }
    RunLosesNothing(s, run);
    DrainedQueue(s, run, j);
  }

  lemma {:induction false} WorkersStay(s: System, run: seq<Event>)
    requires IsRun(s, run)
    ensures |End(s, run).workers| == |s.workers| && |End(s, run).jobs| == |s.jobs|
    ensures forall j | 0 <= j < |s.jobs| :: End(s, run).jobs[j].maxAttempts == s.jobs[j].maxAttempts
    decreases |run|
  {
    if run != [] { WorkersStay(Apply(s, run[0]), run[1..]); }
  }
}
