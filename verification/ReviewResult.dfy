/** The final result of a scan. */
module ReviewResult {
  import opened Wrappers
  import opened JournalStore
  import opened ReviewResume

  // The coverage check and the ordered list of method records: `validate_method_coverage`
  // and the end of `run_review_jobs_with_records` in src/analyzer_engine_jobs.rs.

  /** `expected_methods`: the method jobs by unit id. */
  function ExpectedMethods(jobs: seq<Job>): (expected: map<string, Job>)
    ensures forall id :: id in expected ==> expected[id].MethodJob?
  {
    if jobs == [] then map[]
    else
      var rest := ExpectedMethods(jobs[..|jobs| - 1]);
      var job := jobs[|jobs| - 1];
      if job.MethodJob? then rest[job.unitId := job] else rest
  }

  predicate IsMethodVerdict(o: ReviewOutcome) {
    o.verdict.Some? && o.verdict.value.checkType == "method"
  }

  predicate RecordedFor(expected: map<string, Job>, o: ReviewOutcome)
    requires IsMethodVerdict(o)
    requires forall id :: id in expected ==> expected[id].MethodJob?
  {
    && o.methodRecord.Some?
    && o.methodRecord.value.unitId in expected
    && MatchesMethod(o.methodRecord.value, expected[o.methodRecord.value.unitId])
    && o.methodRecord.value.verdict == o.verdict.value
  }

  ghost predicate Covers(expected: map<string, Job>, outcomes: seq<ReviewOutcome>)
    requires forall id :: id in expected ==> expected[id].MethodJob?
  {
    && (forall i :: 0 <= i < |outcomes| && IsMethodVerdict(outcomes[i]) ==> RecordedFor(expected, outcomes[i]))
    && (forall i, j :: 0 <= i < j < |outcomes| && IsMethodVerdict(outcomes[i]) && IsMethodVerdict(outcomes[j]) ==>
          outcomes[i].methodRecord.value.unitId != outcomes[j].methodRecord.value.unitId)
    && (forall id :: id in expected ==> exists i :: 0 <= i < |outcomes| && Covered(id, outcomes[i]))
  }

  predicate Covered(id: string, o: ReviewOutcome) {
    IsMethodVerdict(o) && o.methodRecord.Some? && o.methodRecord.value.unitId == id
  }

  /** `validate_method_coverage`: succeeds exactly on a one-to-one cover of the expected methods. */
  method ValidateMethodCoverage(expected: map<string, Job>, outcomes: seq<ReviewOutcome>)
    returns (result: Result<(), string>)
    requires forall id :: id in expected ==> expected[id].MethodJob?
    ensures result.Success? <==> Covers(expected, outcomes)
  {
    var seen: set<string> := {};
    for n := 0 to |outcomes|
      invariant forall i :: 0 <= i < n && IsMethodVerdict(outcomes[i]) ==> RecordedFor(expected, outcomes[i])
      invariant forall i, j :: 0 <= i < j < n && IsMethodVerdict(outcomes[i]) && IsMethodVerdict(outcomes[j]) ==>
                  outcomes[i].methodRecord.value.unitId != outcomes[j].methodRecord.value.unitId
      invariant forall id :: id in seen <==> exists i :: 0 <= i < n && Covered(id, outcomes[i])
    {
      var o := outcomes[n];
      if o.verdict.None? || o.verdict.value.checkType != "method" {
        continue;
      }
      if o.methodRecord.None? {
        return Failure("verdict without a durable method record");
      }
      var record := o.methodRecord.value;
      if record.unitId !in expected {
        return Failure("record for an unknown unit");
      }
      if !MatchesMethod(record, expected[record.unitId]) || record.verdict != o.verdict.value {
        return Failure("record does not match its source identity");
      }
      if record.unitId in seen {
        return Failure("duplicate durable record");
      }
      assert Covered(record.unitId, o);
      seen := seen + {record.unitId};
    }
    if expected.Keys <= seen {
      return Success(());
    } else {
      return Failure("coverage incomplete");
    }
  }

  function InsertByIndex(o: ReviewOutcome, sorted: seq<ReviewOutcome>): seq<ReviewOutcome> {
    if sorted == [] || o.index < sorted[0].index then [o] + sorted
    else [sorted[0]] + InsertByIndex(o, sorted[1..])
  }

  /** `sort_by_key(index)`, a stable sort. */
  function SortByIndex(outcomes: seq<ReviewOutcome>): seq<ReviewOutcome> {
    if outcomes == [] then []
    else InsertByIndex(outcomes[|outcomes| - 1], SortByIndex(outcomes[..|outcomes| - 1]))
  }

  function Records(outcomes: seq<ReviewOutcome>): seq<MethodReviewRecord> {
    if outcomes == [] then []
    else
      var o := outcomes[|outcomes| - 1];
      Records(outcomes[..|outcomes| - 1]) + if o.methodRecord.Some? then [o.methodRecord.value] else []
  }

  function UnitIds(records: seq<MethodReviewRecord>): seq<string> {
    seq(|records|, i requires 0 <= i < |records| => records[i].unitId)
  }

  function MethodUnitIds(jobs: seq<Job>): seq<string> {
    if jobs == [] then []
    else
      var job := jobs[|jobs| - 1];
      MethodUnitIds(jobs[..|jobs| - 1]) + if job.MethodJob? then [job.unitId] else []
  }

  ghost predicate StrictlyOrdered(outcomes: seq<ReviewOutcome>) {
    forall i, j :: 0 <= i < j < |outcomes| ==> outcomes[i].index < outcomes[j].index
  }

  ghost predicate DistinctIndices(outcomes: seq<ReviewOutcome>) {
    forall i, j :: 0 <= i < j < |outcomes| ==> outcomes[i].index != outcomes[j].index
  }

  lemma {:induction false} InsertKeepsOrder(o: ReviewOutcome, sorted: seq<ReviewOutcome>)
    requires StrictlyOrdered(sorted) && forall i :: 0 <= i < |sorted| ==> sorted[i].index != o.index
    ensures StrictlyOrdered(InsertByIndex(o, sorted))
    ensures forall x :: x in InsertByIndex(o, sorted) <==> x == o || x in sorted
  {
    if sorted != [] && o.index >= sorted[0].index {
      InsertKeepsOrder(o, sorted[1..]);
      var rest := InsertByIndex(o, sorted[1..]);
      forall k | 0 <= k < |rest| ensures sorted[0].index < rest[k].index {
        assert rest[k] in rest;
      }
    }
  }

  lemma {:induction false} SortOrders(outcomes: seq<ReviewOutcome>)
    requires DistinctIndices(outcomes)
    ensures StrictlyOrdered(SortByIndex(outcomes))
    ensures forall x :: x in SortByIndex(outcomes) <==> x in outcomes
  {
    if outcomes != [] {
      var n := |outcomes| - 1;
      SortOrders(outcomes[..n]);
      var sorted := SortByIndex(outcomes[..n]);
      forall i | 0 <= i < |sorted| ensures sorted[i].index != outcomes[n].index {
        assert sorted[i] in outcomes[..n];
      }
      InsertKeepsOrder(outcomes[n], sorted);
      assert outcomes == outcomes[..n] + [outcomes[n]];
    }
  }

  lemma {:induction false} ExpectedMethodsAre(jobs: seq<Job>)
    ensures forall id :: id in ExpectedMethods(jobs) <==>
              exists i :: 0 <= i < |jobs| && jobs[i].MethodJob? && jobs[i].unitId == id
  {
    if jobs != [] {
      var n := |jobs| - 1;
      ExpectedMethodsAre(jobs[..n]);
      forall id | id in ExpectedMethods(jobs)
        ensures exists i :: 0 <= i < |jobs| && jobs[i].MethodJob? && jobs[i].unitId == id
      {
        if id in ExpectedMethods(jobs[..n]) {
          var i :| 0 <= i < n && jobs[..n][i].MethodJob? && jobs[..n][i].unitId == id;
          assert jobs[i].MethodJob? && jobs[i].unitId == id;
        } else {
          assert jobs[n].MethodJob? && jobs[n].unitId == id;
        }
      }
      forall id, i | 0 <= i < |jobs| && jobs[i].MethodJob? && jobs[i].unitId == id
        ensures id in ExpectedMethods(jobs)
      {
        if i < n {
          assert jobs[..n][i].MethodJob? && jobs[..n][i].unitId == id;
        }
      }
    }
  }

  // ---------------------------------------------------------------------
  // One outcome per job
  // ---------------------------------------------------------------------

  /** Every job has exactly one outcome, and it is a review of that job. */
  ghost predicate OneEach(jobs: seq<Job>, outcomes: seq<ReviewOutcome>) {
    && DistinctIndices(outcomes)
    && (forall k :: 0 <= k < |outcomes| ==> OutcomeOf(jobs, outcomes[k]))
    && (forall i: nat :: i < |jobs| ==> HasOutcome(outcomes, i))
  }

  ghost predicate OutcomeOf(jobs: seq<Job>, o: ReviewOutcome) {
    o.index < |jobs| && Reviews(jobs[o.index], o.verdict, o.methodRecord)
  }

  ghost predicate HasOutcome(outcomes: seq<ReviewOutcome>, i: nat) {
    exists k :: 0 <= k < |outcomes| && outcomes[k].index == i
  }

  ghost predicate DistinctMethodIds(jobs: seq<Job>) {
    forall i, j :: 0 <= i < j < |jobs| && jobs[i].MethodJob? && jobs[j].MethodJob? ==> jobs[i].unitId != jobs[j].unitId
  }

  /** Outcomes in the order of their indices, without a gap. */
  ghost predicate InJobOrder(jobs: seq<Job>, sorted: seq<ReviewOutcome>) {
    && |sorted| == |jobs|
    && forall i :: 0 <= i < |jobs| ==> sorted[i].index == i && OutcomeOf(jobs, sorted[i])
  }

  lemma {:induction false} IndicesFill(sorted: seq<ReviewOutcome>, n: nat)
    requires StrictlyOrdered(sorted) && forall k :: 0 <= k < |sorted| ==> sorted[k].index < n
    requires forall i: nat :: i < n ==> HasOutcome(sorted, i)
    ensures |sorted| == n && forall i :: 0 <= i < n ==> sorted[i].index == i
    decreases n
  {
    if sorted != [] {
      assert sorted[0].index < n && sorted[|sorted| - 1].index < n;
    }
    if n > 0 {
      assert HasOutcome(sorted, n - 1);
      var k :| 0 <= k < |sorted| && sorted[k].index == n - 1;
      assert k == |sorted| - 1;
      var shorter := sorted[..k];
      forall i: nat | i < n - 1 ensures HasOutcome(shorter, i) {
        assert HasOutcome(sorted, i);
        var l :| 0 <= l < |sorted| && sorted[l].index == i;
        assert shorter[l] == sorted[l];
      }
      IndicesFill(shorter, n - 1);
    }
  }

  lemma {:induction false} SortingFollowsJobs(jobs: seq<Job>, outcomes: seq<ReviewOutcome>)
    requires OneEach(jobs, outcomes)
    ensures InJobOrder(jobs, SortByIndex(outcomes))
  {
    var sorted := SortByIndex(outcomes);
    SortOrders(outcomes);
    forall k | 0 <= k < |sorted| ensures OutcomeOf(jobs, sorted[k]) {
      assert sorted[k] in outcomes;
    }
    forall i: nat | i < |jobs| ensures HasOutcome(sorted, i) {
      assert HasOutcome(outcomes, i);
      var k :| 0 <= k < |outcomes| && outcomes[k].index == i;
      assert outcomes[k] in sorted;
    }
    IndicesFill(sorted, |jobs|);
  }

  /** The records of outcomes in job order are those of the method jobs, in order. */
  lemma {:induction false} RecordsFollowJobs(jobs: seq<Job>, sorted: seq<ReviewOutcome>)
    requires InJobOrder(jobs, sorted)
    ensures UnitIds(Records(sorted)) == MethodUnitIds(jobs)
    decreases |jobs|
  {
    if jobs != [] {
      var n := |jobs| - 1;
      forall i | 0 <= i < n ensures OutcomeOf(jobs[..n], sorted[..n][i]) {
        assert OutcomeOf(jobs, sorted[i]);
      }
      RecordsFollowJobs(jobs[..n], sorted[..n]);
      assert OutcomeOf(jobs, sorted[n]);
    }
  }

  /** Every record is carried by an outcome. */
  lemma {:induction false} RecordsAreCarried(outcomes: seq<ReviewOutcome>, r: MethodReviewRecord) returns (k: nat)
    requires r in Records(outcomes)
    ensures k < |outcomes| && outcomes[k].methodRecord == Some(r)
  {
    var n := |outcomes| - 1;
    if outcomes[n].methodRecord == Some(r) {
      k := n;
    } else {
      k := RecordsAreCarried(outcomes[..n], r);
    }
  }

  // ---------------------------------------------------------------------
  // When the coverage check passes
  // ---------------------------------------------------------------------

  lemma {:induction false} ExpectedJob(jobOf: string -> Job, jobs: seq<Job>, i: nat)
    requires Identified(jobOf, jobs) && i < |jobs| && jobs[i].MethodJob?
    ensures jobs[i].unitId in ExpectedMethods(jobs) && ExpectedMethods(jobs)[jobs[i].unitId] == jobs[i]
  {
    var n := |jobs| - 1;
    assert jobs[n] == jobOf(jobs[n].unitId) && jobs[i] == jobOf(jobs[i].unitId);
    if i < n {
      forall j | 0 <= j < n ensures jobs[..n][j] == jobOf(jobs[..n][j].unitId) {
        assert jobs[j] == jobOf(jobs[j].unitId);
      }
      ExpectedJob(jobOf, jobs[..n], i);
    }
  }

  lemma {:induction false} ReviewIsRecorded(jobOf: string -> Job, jobs: seq<Job>, o: ReviewOutcome)
    requires Identified(jobOf, jobs) && OutcomeOf(jobs, o) && IsMethodVerdict(o)
    ensures jobs[o.index].MethodJob? && RecordedFor(ExpectedMethods(jobs), o)
    ensures o.methodRecord.value.unitId == jobs[o.index].unitId
  {
    ExpectedJob(jobOf, jobs, o.index);
  }

  lemma {:induction false} DistinctJobsAreCovered(jobOf: string -> Job, jobs: seq<Job>, outcomes: seq<ReviewOutcome>)
    requires Identified(jobOf, jobs) && OneEach(jobs, outcomes) && DistinctMethodIds(jobs)
    ensures Covers(ExpectedMethods(jobs), outcomes)
  {
    var expected := ExpectedMethods(jobs);
    forall i | 0 <= i < |outcomes| && IsMethodVerdict(outcomes[i])
      ensures jobs[outcomes[i].index].MethodJob? && RecordedFor(expected, outcomes[i])
      ensures outcomes[i].methodRecord.value.unitId == jobs[outcomes[i].index].unitId
    {
      assert OutcomeOf(jobs, outcomes[i]);
      ReviewIsRecorded(jobOf, jobs, outcomes[i]);
    }
    ExpectedMethodsAre(jobs);
    forall id | id in expected ensures exists k :: 0 <= k < |outcomes| && Covered(id, outcomes[k]) {
      var i :| 0 <= i < |jobs| && jobs[i].MethodJob? && jobs[i].unitId == id;
      assert HasOutcome(outcomes, i);
      var k :| 0 <= k < |outcomes| && outcomes[k].index == i;
      assert OutcomeOf(jobs, outcomes[k]);
      assert Covered(id, outcomes[k]);
    }
  }

  lemma MethodOutcome(jobs: seq<Job>, outcomes: seq<ReviewOutcome>, i: nat) returns (k: nat)
    requires OneEach(jobs, outcomes) && i < |jobs| && jobs[i].MethodJob?
    ensures k < |outcomes| && outcomes[k].index == i
    ensures IsMethodVerdict(outcomes[k]) && outcomes[k].methodRecord.Some?
    ensures outcomes[k].methodRecord.value.unitId == jobs[i].unitId
  {
    assert HasOutcome(outcomes, i);
    k :| 0 <= k < |outcomes| && outcomes[k].index == i;
    assert OutcomeOf(jobs, outcomes[k]);
  }

  /** With one review per job the check passes exactly when no two method jobs share a unit id. */
  lemma {:induction false} CoverageHoldsExactlyWhen(jobOf: string -> Job, jobs: seq<Job>, outcomes: seq<ReviewOutcome>)
    requires Identified(jobOf, jobs) && OneEach(jobs, outcomes)
    ensures Covers(ExpectedMethods(jobs), outcomes) <==> DistinctMethodIds(jobs)
  {
    if DistinctMethodIds(jobs) {
      DistinctJobsAreCovered(jobOf, jobs, outcomes);
    } else {
      var i, j :| 0 <= i < j < |jobs| && jobs[i].MethodJob? && jobs[j].MethodJob? && jobs[i].unitId == jobs[j].unitId;
      var k := MethodOutcome(jobs, outcomes, i);
      var l := MethodOutcome(jobs, outcomes, j);
      assert k != l;
    }
  }

  /** Two equal method jobs, each reviewed, fail the check. */
  lemma RepeatedMethodFailsCoverage(job: Job)
    requires job.MethodJob?
    ensures var outcome := (i: nat) => ReviewOutcome(i, Some(SampleVerdict(job)), SampleRecord(job), false);
            OneEach([job, job], [outcome(0), outcome(1)]) && !Covers(ExpectedMethods([job, job]), [outcome(0), outcome(1)])
  {
    var jobs, outcome := [job, job], (i: nat) => ReviewOutcome(i, Some(SampleVerdict(job)), SampleRecord(job), false);
    var outcomes := [outcome(0), outcome(1)];
    SampleIsReview(job);
    assert outcomes[0].index == 0 && outcomes[1].index == 1;
    assert OneEach(jobs, outcomes);
    assert Identified(_ => job, jobs);
    CoverageHoldsExactlyWhen(_ => job, jobs, outcomes);
    assert jobs[0].unitId == jobs[1].unitId;
  }

  // ---------------------------------------------------------------------
  // Reused and fresh outcomes
  // ---------------------------------------------------------------------

  /** The outcomes of a finished run: one review for each pending job. */
  ghost predicate Finishes(jobs: seq<Job>, pending: seq<nat>, made: seq<ReviewOutcome>) {
    && DistinctIndices(made)
    && (forall k :: 0 <= k < |made| ==> made[k].index in pending && OutcomeOf(jobs, made[k]))
    && (forall p :: p in pending ==> HasOutcome(made, p))
  }

  /** What the reused outcomes are: in order, reviews of reusable jobs, and one for each. */
  ghost predicate AreReused(completed: map<string, JournalEntry>, jobs: seq<Job>, reused: seq<ReviewOutcome>) {
    && StrictlyOrdered(reused)
    && (forall k :: 0 <= k < |reused| ==> OutcomeOf(jobs, reused[k]) && ReusableAt(completed, jobs, reused[k].index))
    && (forall i: nat :: ReusableAt(completed, jobs, i) ==> HasOutcome(reused, i))
  }

  predicate ReusableAt(completed: map<string, JournalEntry>, jobs: seq<Job>, i: nat) {
    i < |jobs| && Reusable(completed, jobs[i].unitId, jobs[i].sourceHash)
  }

  lemma ReusedWithoutLast(completed: map<string, JournalEntry>, jobs: seq<Job>, reused: seq<ReviewOutcome>)
    requires jobs != [] && AreReused(completed, jobs[..|jobs| - 1], reused) && !ReusableAt(completed, jobs, |jobs| - 1)
    ensures AreReused(completed, jobs, reused)
  {
    var n := |jobs| - 1;
    forall k | 0 <= k < |reused| ensures OutcomeOf(jobs, reused[k]) && ReusableAt(completed, jobs, reused[k].index) {
      assert OutcomeOf(jobs[..n], reused[k]) && ReusableAt(completed, jobs[..n], reused[k].index);
    }
    forall i: nat | ReusableAt(completed, jobs, i) ensures HasOutcome(reused, i) {
      assert ReusableAt(completed, jobs[..n], i);
    }
  }

  lemma ReusedWithLast(
      completed: map<string, JournalEntry>, jobs: seq<Job>, reused: seq<ReviewOutcome>, last: ReviewOutcome)
    requires jobs != [] && AreReused(completed, jobs[..|jobs| - 1], reused) && ReusableAt(completed, jobs, |jobs| - 1)
    requires last.index == |jobs| - 1 && OutcomeOf(jobs, last)
    ensures AreReused(completed, jobs, reused + [last])
  {
    var n, all := |jobs| - 1, reused + [last];
    forall k | 0 <= k < |all| ensures OutcomeOf(jobs, all[k]) && ReusableAt(completed, jobs, all[k].index) {
      if k < |reused| {
        assert OutcomeOf(jobs[..n], reused[k]) && ReusableAt(completed, jobs[..n], reused[k].index);
      }
    }
    forall i: nat | ReusableAt(completed, jobs, i) ensures HasOutcome(all, i) {
      if i < n {
        assert ReusableAt(completed, jobs[..n], i);
      } else {
        assert all[|reused|].index == i;
      }
      HasOutcomeConcat(reused, [last], i);
    }
  }

  lemma {:induction false} ReusedAreReviews(jobOf: string -> Job, ctx: JournalContext, entries: seq<JournalEntry>, jobs: seq<Job>)
    requires ctx.stage == Method && Identified(jobOf, jobs) && AllReviews(jobOf, entries)
    ensures var completed := Completed(ctx, entries);
            AreReused(completed, jobs, ReusedOutcomes(completed, jobs))
  {
    if jobs != [] {
      var n, completed := |jobs| - 1, Completed(ctx, entries);
      forall j | 0 <= j < n ensures jobs[..n][j] == jobOf(jobs[..n][j].unitId) {
        assert jobs[j] == jobOf(jobs[j].unitId);
      }
      ReusedAreReviews(jobOf, ctx, entries, jobs[..n]);
      var before := ReusedOutcomes(completed, jobs[..n]);
      if ReusableAt(completed, jobs, n) {
        assert jobs[n] == jobOf(jobs[n].unitId);
        CompletedAreReviews(jobOf, ctx, entries, jobs[n].unitId);
        var entry := completed[jobs[n].unitId];
        ReusedWithLast(completed, jobs, before, ReviewOutcome(n, entry.verdict, entry.methodRecord, false));
      } else {
        ReusedWithoutLast(completed, jobs, before);
      }
    }
  }

  lemma DistinctConcat(a: seq<ReviewOutcome>, b: seq<ReviewOutcome>)
    requires DistinctIndices(a) && DistinctIndices(b)
    requires forall i, j :: 0 <= i < |a| && 0 <= j < |b| ==> a[i].index != b[j].index
    ensures DistinctIndices(a + b)
  {
  }

  lemma HasOutcomeConcat(a: seq<ReviewOutcome>, b: seq<ReviewOutcome>, i: nat)
    requires HasOutcome(a, i) || HasOutcome(b, i)
    ensures HasOutcome(a + b, i)
  {
    if HasOutcome(a, i) {
      var k :| 0 <= k < |a| && a[k].index == i;
      assert (a + b)[k] == a[k];
    } else {
      var k :| 0 <= k < |b| && b[k].index == i;
      assert (a + b)[|a| + k] == b[k];
    }
  }

  lemma {:induction false} ReusedAndFreshAreOneEach(
      jobOf: string -> Job, ctx: JournalContext, entries: seq<JournalEntry>, jobs: seq<Job>, made: seq<ReviewOutcome>)
    requires ctx.stage == Method && Identified(jobOf, jobs) && AllReviews(jobOf, entries)
    requires Finishes(jobs, PendingIndices(Completed(ctx, entries), jobs), made)
    ensures AreReused(Completed(ctx, entries), jobs, ReusedOutcomes(Completed(ctx, entries), jobs))
    ensures OneEach(jobs, ReusedOutcomes(Completed(ctx, entries), jobs) + made)
  {
    var completed := Completed(ctx, entries);
    var pending, reused := PendingIndices(completed, jobs), ReusedOutcomes(completed, jobs);
    ReusedAreReviews(jobOf, ctx, entries, jobs);
    forall i, j | 0 <= i < |reused| && 0 <= j < |made| ensures reused[i].index != made[j].index {
      assert made[j].index in pending;
    }
    DistinctConcat(reused, made);
    forall i: nat | i < |jobs| ensures HasOutcome(reused + made, i) {
      assert i in pending ==> HasOutcome(made, i);
      assert i !in pending ==> ReusableAt(completed, jobs, i);
      HasOutcomeConcat(reused, made, i);
    }
  }

  /** After any history of runs, crashes and foreign writes, a run that finishes its pending
      jobs reports exactly one record per method job, in job order, whether the review was
      reused or fresh; and the coverage check lets it pass exactly when no two method jobs
      share a unit id. */
  lemma ResultListsEveryMethodOnceInJobOrder(
      jobOf: string -> Job, worlds: seq<World>, events: seq<Event>, k: nat, made: seq<ReviewOutcome>)
    requires IsHistory(jobOf, worlds, events) && AllReviews(jobOf, worlds[0].entries)
    requires k < |events| && events[k].Begin?
    requires Finishes(events[k].jobs, PendingIndices(Completed(events[k].ctx, worlds[k].entries), events[k].jobs), made)
    ensures var jobs := events[k].jobs;
            var outcomes := ReusedOutcomes(Completed(events[k].ctx, worlds[k].entries), jobs) + made;
            && AreReused(Completed(events[k].ctx, worlds[k].entries), jobs, ReusedOutcomes(Completed(events[k].ctx, worlds[k].entries), jobs))
            && DistinctIndices(outcomes) && InJobOrder(jobs, SortByIndex(outcomes))
            && UnitIds(Records(SortByIndex(outcomes))) == MethodUnitIds(jobs)
            && (Covers(ExpectedMethods(jobs), outcomes) <==> DistinctMethodIds(jobs))
  {
    assert StepAt(jobOf, worlds, events, k);
    OnlyReviewsAreHeld(jobOf, worlds, events, k);
    var ctx, jobs := events[k].ctx, events[k].jobs;
    var outcomes := ReusedOutcomes(Completed(ctx, worlds[k].entries), jobs) + made;
    ReusedAndFreshAreOneEach(jobOf, ctx, worlds[k].entries, jobs, made);
    SortingFollowsJobs(jobs, outcomes);
    RecordsFollowJobs(jobs, SortByIndex(outcomes));
    CoverageHoldsExactlyWhen(jobOf, jobs, outcomes);
  }
}
