/** A scan from its queue to its result. */
module ReviewRun {
  import opened Wrappers
  import opened Sequences
  import opened Sorting
  import opened JournalStore
  import opened ReviewResume
  import opened ReviewResult
  import S = ReviewScheduler
  import W = BatchWorklist

  // How the outcomes of review units become the reviews that the journal and the result
  // hold: `run_review_job`, the outcome construction of `run_review_unit_untracked`, and
  // the middle of `run_review_jobs_with_records` in src/analyzer_engine_jobs.rs.
  //
  // The units are any grouping of the pending jobs, and complete in any order.

  datatype Judgement = Judgement(tier: Tier, reason: string)

  /** What the verdict builders make of a model review; all arbitrary. */
  datatype Judges<!R> = Judges(
    resolved: R -> Judgement, unresolved: string -> Judgement, file: R -> Option<Judgement>)

  /** `build_semantic_method_verdict` and `unresolved_method_verdict`. */
  function MethodVerdict(job: Job, j: Judgement): Verdict
    requires job.MethodJob?
  {
    Verdict("method", job.filePath, Some(job.name), j.tier, j.reason, job.loc, job.startLine, job.endLine)
  }

  /** `MethodReviewRecord::from_method`. */
  function MethodRecord(job: Job, key: string, verdict: Verdict): MethodReviewRecord
    requires job.MethodJob?
  {
    MethodReviewRecord(key, job.sourceHash, job.filePath, job.name, job.loc, job.startLine, job.endLine, verdict)
  }

  /** The outcome that a unit's result carries for one of its jobs. */
  function OutcomeFrom<R>(judges: Judges<R>, job: Job, o: W.Outcome<R>): ReviewOutcome {
    match job
    case MethodJob(_, _, _, _, _, _, _) =>
      var judgement := match o.review
        case Some(review) => judges.resolved(review)
        case None => judges.unresolved(o.key);
      var verdict := MethodVerdict(job, judgement);
      ReviewOutcome(o.index, Some(verdict), Some(MethodRecord(job, o.key, verdict)), o.retryOnResume)
    case FileJob(_, _, filePath) =>
      var verdict := match o.review
        case None => None
        case Some(review) =>
          match judges.file(review)
          case None => None
          case Some(j) => Some(Verdict("file", filePath, None, j.tier, j.reason, 0, 0, 0));
      ReviewOutcome(o.index, verdict, None, o.retryOnResume)
  }

  /** A queued entry stands for the job at its index. */
  ghost predicate StandsFor(jobs: seq<Job>, e: W.Entry) {
    && e.job.index < |jobs|
    && var job := jobs[e.job.index];
       && e.key == job.unitId && (e.job.MethodJob? <==> job.MethodJob?)
  }

  ghost predicate AllStandFor(jobs: seq<Job>, unit: seq<W.Entry>) {
    forall i :: 0 <= i < |unit| ==> StandsFor(jobs, unit[i])
  }

  /** Whatever outcome the engine makes for an entry is a review of the entry's job. */
  lemma OutcomesAreReviews<R>(judges: Judges<R>, jobs: seq<Job>, e: W.Entry, o: W.Outcome<R>)
    requires StandsFor(jobs, e) && o.key == e.key && o.index == e.job.index
    ensures OutcomeOf(jobs, OutcomeFrom(judges, jobs[e.job.index], o))
    ensures OutcomeFrom(judges, jobs[e.job.index], o).index == e.job.index
  {
  }

  // ---------------------------------------------------------------------
  // Finished units
  // ---------------------------------------------------------------------

  datatype Finished<R> = Finished(unit: seq<W.Entry>, outcomes: seq<W.Outcome<R>>)

  /** What `BatchWorklist.RunReviewUnit` promises of a unit that succeeds. */
  ghost predicate UnitDone<R>(o: W.Oracle<R>, f: Finished<R>) {
    if W.IsFileUnit(f.unit) then
      && |f.outcomes| == 1 && f.outcomes[0].review.Some?
      && f.outcomes[0] == W.Outcome(f.unit[0].key, f.unit[0].job.index, f.outcomes[0].review, false, false)
    else W.OutcomesFor(o, f.unit, f.outcomes)
  }

  ghost predicate AllDone<R>(o: W.Oracle<R>, jobs: seq<Job>, finished: seq<Finished<R>>) {
    forall i :: 0 <= i < |finished| ==> UnitDone(o, finished[i]) && AllStandFor(jobs, finished[i].unit)
  }

  /** Running a unit: what comes back of a success is what the scheduler hands on. The item
      callback writes no key more often than the unit holds it, and with the scheduler's
      callback every key of a unit that succeeds is written once for each time it is held. */
  method RunUnit<R>(o: W.Oracle<R>, unit: seq<W.Entry>, tracked: bool)
    returns (result: Result<Finished<R>, string>, journal: seq<W.Journaled<R>>, ghost log: seq<W.Call<R>>)
    ensures result.Success? ==> result.value.unit == unit && UnitDone(o, result.value)
    ensures W.AllMethodEntries(unit) ==> W.UnitRuns(o, W.BatchOf(unit), log, tracked, OutcomesIn(result), journal)
    ensures W.IsFileUnit(unit) ==>
              match o.reviewFile(unit[0].job.path)
              case Success(review) => result.Success? && result.value.outcomes[0].review == Some(review)
              case Failure(error) => result == Failure(error)
    ensures !W.AllMethodEntries(unit) && !W.IsFileUnit(unit) ==> result.Failure?
    ensures multiset(W.JournalKeys(journal)) <= multiset(W.EntryKeys(unit))
    ensures result.Success? ==>
              multiset(W.JournalKeys(journal)) + multiset(W.SchedulerKeys(result.value.outcomes)) == multiset(W.EntryKeys(unit))
  {
    var outcomes, written, _, calls := W.RunReviewUnit(o, unit, tracked);
    journal, log := written, calls;
    W.JournaledKeysAreTheUnits(o, unit, journal);
    if outcomes.Success? {
      UnitIsWrittenOnce(o, unit, outcomes.value, journal);
    }
    result := match outcomes
      case Success(value) => Success(Finished(unit, value))
      case Failure(error) => Failure(error);
  }

  function OutcomesIn<R>(result: Result<Finished<R>, string>): Result<seq<W.Outcome<R>>, string> {
    match result
    case Success(f) => Success(f.outcomes)
    case Failure(error) => Failure(error)
  }

  lemma {:induction false} UnitIsWrittenOnce<R>(o: W.Oracle<R>, unit: seq<W.Entry>, outcomes: seq<W.Outcome<R>>, journal: seq<W.Journaled<R>>)
    requires UnitDone(o, Finished(unit, outcomes))
    requires if W.IsFileUnit(unit) then journal == [] else journal == W.PersistedOf(outcomes)
    ensures multiset(W.JournalKeys(journal)) + multiset(W.SchedulerKeys(outcomes)) == multiset(W.EntryKeys(unit))
  {
    if W.IsFileUnit(unit) {
      assert outcomes[..0] == [] && W.SchedulerKeys(outcomes) == [] + [outcomes[0].key];
      assert W.EntryKeys(unit) == [unit[0].key];
    } else {
      W.EveryOutcomeIsJournaledOnce(o, unit, outcomes);
    }
  }

  function UnitsOf<R>(finished: seq<Finished<R>>): seq<seq<W.Entry>> {
    seq(|finished|, i requires 0 <= i < |finished| => finished[i].unit)
  }

  predicate InRange<R>(jobs: seq<Job>, outcomes: seq<W.Outcome<R>>) {
    forall i :: 0 <= i < |outcomes| ==> outcomes[i].index < |jobs|
  }

  function ReviewsOf<R>(judges: Judges<R>, jobs: seq<Job>, outcomes: seq<W.Outcome<R>>): seq<ReviewOutcome>
    requires InRange(jobs, outcomes)
  {
    seq(|outcomes|, i requires 0 <= i < |outcomes| => OutcomeFrom(judges, jobs[outcomes[i].index], outcomes[i]))
  }

  /** `completed.into_iter().flatten()`: the outcomes of all finished units. */
  function MadeBy<R>(judges: Judges<R>, jobs: seq<Job>, finished: seq<Finished<R>>): seq<ReviewOutcome>
    requires forall i :: 0 <= i < |finished| ==> InRange(jobs, finished[i].outcomes)
  {
    if finished == [] then []
    else
      ReviewsOf(judges, jobs, finished[0].outcomes) + MadeBy(judges, jobs, finished[1..])
  }

  function Positions(unit: seq<W.Entry>): seq<nat> {
    seq(|unit|, i requires 0 <= i < |unit| => unit[i].job.index)
  }

  function Indices(outcomes: seq<ReviewOutcome>): seq<nat> {
    seq(|outcomes|, i requires 0 <= i < |outcomes| => outcomes[i].index)
  }

  lemma UnitOutcomes<R>(o: W.Oracle<R>, jobs: seq<Job>, f: Finished<R>)
    requires UnitDone(o, f) && AllStandFor(jobs, f.unit)
    ensures |f.outcomes| == |f.unit| && InRange(jobs, f.outcomes)
    ensures forall i :: 0 <= i < |f.unit| ==>
              f.outcomes[i].key == f.unit[i].key && f.outcomes[i].index == f.unit[i].job.index
  {
    forall i | 0 <= i < |f.unit|
      ensures f.outcomes[i].key == f.unit[i].key && f.outcomes[i].index == f.unit[i].job.index < |jobs|
    {
      assert StandsFor(jobs, f.unit[i]);
      if !W.IsFileUnit(f.unit) {
        assert W.OutcomeFor(o, f.unit[i], f.outcomes[i]);
      }
    }
  }

  lemma UnitReviews<R>(o: W.Oracle<R>, judges: Judges<R>, jobs: seq<Job>, f: Finished<R>)
    requires UnitDone(o, f) && AllStandFor(jobs, f.unit)
    ensures InRange(jobs, f.outcomes)
    ensures var made := ReviewsOf(judges, jobs, f.outcomes);
            Indices(made) == Positions(f.unit) && AreOutcomes(jobs, made)
  {
    UnitOutcomes(o, jobs, f);
    var made := ReviewsOf(judges, jobs, f.outcomes);
    forall i | 0 <= i < |made| ensures OutcomeOf(jobs, made[i]) && made[i].index == f.unit[i].job.index {
      OutcomesAreReviews(judges, jobs, f.unit[i], f.outcomes[i]);
    }
  }

  function PositionsOf(units: seq<seq<W.Entry>>): multiset<nat> {
    if units == [] then multiset{} else multiset(Positions(units[0])) + PositionsOf(units[1..])
  }

  ghost predicate AreOutcomes(jobs: seq<Job>, made: seq<ReviewOutcome>) {
    forall k :: 0 <= k < |made| ==> OutcomeOf(jobs, made[k])
  }

  lemma OutcomesConcat(jobs: seq<Job>, a: seq<ReviewOutcome>, b: seq<ReviewOutcome>)
    requires AreOutcomes(jobs, a) && AreOutcomes(jobs, b)
    ensures AreOutcomes(jobs, a + b) && multiset(Indices(a + b)) == multiset(Indices(a)) + multiset(Indices(b))
  {
    assert Indices(a + b) == Indices(a) + Indices(b);
  }

  lemma {:induction false} PositionsCons(unit: seq<W.Entry>, rest: seq<seq<W.Entry>>)
    ensures PositionsOf([unit] + rest) == multiset(Positions(unit)) + PositionsOf(rest)
  {
    assert ([unit] + rest)[1..] == rest;
  }

  lemma OthersDone<R>(o: W.Oracle<R>, jobs: seq<Job>, finished: seq<Finished<R>>)
    requires finished != [] && AllDone(o, jobs, finished)
    ensures AllDone(o, jobs, finished[1..])
    ensures UnitsOf(finished) == [finished[0].unit] + UnitsOf(finished[1..])
  {
  }

  /** The finished units make one review for each of their entries. */
  lemma {:induction false} MadeReviews<R>(o: W.Oracle<R>, judges: Judges<R>, jobs: seq<Job>, finished: seq<Finished<R>>)
    requires AllDone(o, jobs, finished)
    ensures forall i :: 0 <= i < |finished| ==> InRange(jobs, finished[i].outcomes)
    ensures var made := MadeBy(judges, jobs, finished);
            AreOutcomes(jobs, made) && multiset(Indices(made)) == PositionsOf(UnitsOf(finished))
  {
    if finished != [] {
      var f, others := finished[0], finished[1..];
      UnitReviews(o, judges, jobs, f);
      OthersDone(o, jobs, finished);
      MadeReviews(o, judges, jobs, others);
      assert forall i :: 1 <= i < |finished| ==> finished[i] == others[i - 1];
      OutcomesConcat(jobs, ReviewsOf(judges, jobs, f.outcomes), MadeBy(judges, jobs, others));
      PositionsCons(f.unit, UnitsOf(others));
    }
  }

  // What the reviews say

  /** The verdict and its record say what this judgement says. */
  predicate Says(made: ReviewOutcome, j: Judgement) {
    && made.verdict.Some? && made.verdict.value.tier == j.tier && made.verdict.value.reason == j.reason
    && (made.methodRecord.Some? ==> made.methodRecord.value.verdict == made.verdict.value)
  }

  predicate IsRecordOf(made: ReviewOutcome, key: string) {
    made.methodRecord.Some? && made.methodRecord.value.unitId == key
  }

  /** What a made outcome must say, given the unit outcome it is made from and the entry it is
      for: a method's says what its credited review, which was replied for that very method,
      is judged to mean, or that it is unresolved; a file's says what its review means. The
      retry flag is the unit outcome's own. */
  ghost predicate SaysWhatWasReviewed<R>(judges: Judges<R>, o: W.Oracle<R>, e: W.Entry, from: W.Outcome<R>, made: ReviewOutcome) {
    && made.index == e.job.index && made.retryOnResume == from.retryOnResume
    && match (e.job, from.review)
       case (MethodJob(_, item), Some(review)) =>
         && W.Replied(o, item, review) && Says(made, judges.resolved(review)) && IsRecordOf(made, e.key)
         && made.retryOnResume == o.retryLater(review)
       case (MethodJob(_, _), None) =>
         Says(made, judges.unresolved(e.key)) && IsRecordOf(made, e.key) && made.retryOnResume
       case (FileJob(_, _), Some(review)) =>
         && made.methodRecord.None? && !made.retryOnResume
         && (match judges.file(review)
             case Some(j) => Says(made, j)
             case None => made.verdict.None?)
       case _ => false
  }

  lemma OutcomesSayWhatWasReviewed<R>(o: W.Oracle<R>, judges: Judges<R>, jobs: seq<Job>, f: Finished<R>, p: nat)
    requires UnitDone(o, f) && AllStandFor(jobs, f.unit) && p < |f.unit|
    ensures p < |f.outcomes| && f.outcomes[p].index == f.unit[p].job.index < |jobs|
    ensures SaysWhatWasReviewed(judges, o, f.unit[p], f.outcomes[p], OutcomeFrom(judges, jobs[f.unit[p].job.index], f.outcomes[p]))
  {
    assert StandsFor(jobs, f.unit[p]);
    if !W.IsFileUnit(f.unit) {
      assert W.OutcomeFor(o, f.unit[p], f.outcomes[p]);
    }
  }

  /** Each made review is made from one outcome of one unit. */
  lemma {:induction false} MadeFrom<R>(judges: Judges<R>, jobs: seq<Job>, finished: seq<Finished<R>>, k: nat)
    returns (f: nat, p: nat)
    requires (forall i :: 0 <= i < |finished| ==> InRange(jobs, finished[i].outcomes))
    requires k < |MadeBy(judges, jobs, finished)|
    ensures f < |finished| && p < |finished[f].outcomes|
    ensures MadeBy(judges, jobs, finished)[k]
         == OutcomeFrom(judges, jobs[finished[f].outcomes[p].index], finished[f].outcomes[p])
  {
    var first := ReviewsOf(judges, jobs, finished[0].outcomes);
    if k < |first| {
      f, p := 0, k;
    } else {
      f, p := MadeFrom(judges, jobs, finished[1..], k - |first|);
      f := f + 1;
    }
  }

  /** Every review a finished run makes says what was reviewed. */
  lemma {:induction false} MadeReviewsSayWhatWasReviewed<R>(
      o: W.Oracle<R>, judges: Judges<R>, jobs: seq<Job>, finished: seq<Finished<R>>, k: nat)
    returns (f: nat, p: nat)
    requires AllDone(o, jobs, finished) && (forall i :: 0 <= i < |finished| ==> InRange(jobs, finished[i].outcomes))
    requires k < |MadeBy(judges, jobs, finished)|
    ensures f < |finished| && p < |finished[f].unit| && p < |finished[f].outcomes|
    ensures SaysWhatWasReviewed(judges, o, finished[f].unit[p], finished[f].outcomes[p], MadeBy(judges, jobs, finished)[k])
  {
    f, p := MadeFrom(judges, jobs, finished, k);
    UnitOutcomes(o, jobs, finished[f]);
    OutcomesSayWhatWasReviewed(o, judges, jobs, finished[f], p);
  }

  /** A method's record says what the run reviewed: the judgement of a review that was replied
      for that method, or that the method is unresolved if no review was credited to it. */
  ghost predicate RecordSays<R>(judges: Judges<R>, o: W.Oracle<R>, f: Finished<R>, p: nat, r: MethodReviewRecord) {
    && p < |f.unit| && p < |f.outcomes| && f.unit[p].job.MethodJob? && r.unitId == f.unit[p].key
    && match f.outcomes[p].review
       case Some(review) =>
         W.Replied(o, f.unit[p].job.item, review) && r.verdict.tier == judges.resolved(review).tier
         && r.verdict.reason == judges.resolved(review).reason
       case None =>
         r.verdict.tier == judges.unresolved(f.unit[p].key).tier && r.verdict.reason == judges.unresolved(f.unit[p].key).reason
  }

  /** A reported record comes from a finished unit, or the journal held it for a job. */
  ghost predicate RecordIsFounded<R>(
      judges: Judges<R>, o: W.Oracle<R>, completed: map<string, JournalEntry>, jobs: seq<Job>, finished: seq<Finished<R>>,
      r: MethodReviewRecord)
  {
    || (exists f: nat, p: nat :: f < |finished| && RecordSays(judges, o, finished[f], p, r))
    || (exists j: nat :: j < |jobs| && IsHeldFor(completed, jobs[j], r))
  }

  predicate IsHeldFor(completed: map<string, JournalEntry>, job: Job, r: MethodReviewRecord) {
    Reusable(completed, job.unitId, job.sourceHash) && completed[job.unitId].methodRecord == Some(r)
  }

  lemma MadeRecordsAreFounded<R>(
      o: W.Oracle<R>, judges: Judges<R>, jobs: seq<Job>, finished: seq<Finished<R>>, k: nat, r: MethodReviewRecord)
    requires AllDone(o, jobs, finished) && (forall i :: 0 <= i < |finished| ==> InRange(jobs, finished[i].outcomes))
    requires k < |MadeBy(judges, jobs, finished)| && MadeBy(judges, jobs, finished)[k].methodRecord == Some(r)
    ensures exists f: nat, p: nat :: f < |finished| && RecordSays(judges, o, finished[f], p, r)
  {
    var f, p := MadeReviewsSayWhatWasReviewed(o, judges, jobs, finished, k);
    assert RecordSays(judges, o, finished[f], p, r);
  }

  lemma HeldRecordsAreFounded<R>(
      o: W.Oracle<R>, judges: Judges<R>, completed: map<string, JournalEntry>, jobs: seq<Job>, finished: seq<Finished<R>>,
      k: nat, r: MethodReviewRecord)
    requires AreReused(completed, jobs, ReusedOutcomes(completed, jobs)) && k < |ReusedOutcomes(completed, jobs)|
    requires ReusedOutcomes(completed, jobs)[k].methodRecord == Some(r)
    ensures RecordIsFounded(judges, o, completed, jobs, finished, r)
  {
    var held := ReusedOutcomes(completed, jobs)[k];
    ReusedAreAsHeld(completed, jobs);
    assert ReusableAt(completed, jobs, held.index) && AsHeld(completed, jobs, held);
    assert IsHeldFor(completed, jobs[held.index], r);
  }

  /** A record of the sorted result is carried by a reused outcome or by a made one. */
  lemma RecordsComeFrom(reused: seq<ReviewOutcome>, made: seq<ReviewOutcome>, r: MethodReviewRecord)
    requires DistinctIndices(reused + made) && r in Records(SortByIndex(reused + made))
    ensures (exists k :: 0 <= k < |reused| && reused[k].methodRecord == Some(r))
         || (exists k :: 0 <= k < |made| && made[k].methodRecord == Some(r))
  {
    var sorted := SortByIndex(reused + made);
    SortOrders(reused + made);
    var k := RecordsAreCarried(sorted, r);
    assert sorted[k] in reused + made;
  }

  /** Every record of a scan that finishes its queue is founded. */
  lemma RecordsAreFounded<R>(
      o: W.Oracle<R>, judges: Judges<R>, completed: map<string, JournalEntry>, jobs: seq<Job>, finished: seq<Finished<R>>,
      r: MethodReviewRecord)
    requires AllDone(o, jobs, finished) && (forall i :: 0 <= i < |finished| ==> InRange(jobs, finished[i].outcomes))
    requires AreReused(completed, jobs, ReusedOutcomes(completed, jobs))
    requires DistinctIndices(ReusedOutcomes(completed, jobs) + MadeBy(judges, jobs, finished))
    requires r in Records(SortByIndex(ReusedOutcomes(completed, jobs) + MadeBy(judges, jobs, finished)))
    ensures RecordIsFounded(judges, o, completed, jobs, finished, r)
  {
    var reused, made := ReusedOutcomes(completed, jobs), MadeBy(judges, jobs, finished);
    RecordsComeFrom(reused, made, r);
    if k :| 0 <= k < |reused| && reused[k].methodRecord == Some(r) {
      HeldRecordsAreFounded(o, judges, completed, jobs, finished, k, r);
    } else {
      var k :| 0 <= k < |made| && made[k].methodRecord == Some(r);
      MadeRecordsAreFounded(o, judges, jobs, finished, k, r);
    }
  }

  // ---------------------------------------------------------------------
  // Any order of completion
  // ---------------------------------------------------------------------

  lemma {:induction false} PositionsConcat(a: seq<seq<W.Entry>>, b: seq<seq<W.Entry>>)
    ensures PositionsOf(a + b) == PositionsOf(a) + PositionsOf(b)
  {
    if a == [] {
      assert a + b == b;
    } else {
      assert (a + b)[1..] == a[1..] + b;
      PositionsConcat(a[1..], b);
    }
  }

  lemma {:induction false} PositionsWithout(units: seq<seq<W.Entry>>, k: nat)
    requires k < |units|
    ensures PositionsOf(units) == multiset(Positions(units[k])) + PositionsOf(units[..k] + units[k + 1..])
  {
    var left := units[..k] + units[k + 1..];
    if k == 0 {
      assert left == units[1..];
    } else {
      PositionsWithout(units[1..], k - 1);
      assert left[0] == units[0] && left[1..] == units[1..][..k - 1] + units[1..][k..];
    }
  }

  lemma {:induction false} PositionsForgetOrder(a: seq<seq<W.Entry>>, b: seq<seq<W.Entry>>)
    requires multiset(a) == multiset(b)
    ensures PositionsOf(a) == PositionsOf(b)
    decreases |a|
  {
    if a == [] {
      assert |b| == |multiset(b)| == 0;
    } else {
      assert a[0] in multiset(b);
      var k :| 0 <= k < |b| && b[k] == a[0];
      RestCounts(a);
      WithoutCounts(b, k);
      PositionsForgetOrder(a[1..], b[..k] + b[k + 1..]);
      PositionsWithout(b, k);
    }
  }

  lemma {:induction false} PositionsOfFlat(units: seq<seq<W.Entry>>)
    ensures PositionsOf(units) == multiset(Positions(Flatten(units)))
  {
    if units != [] {
      var n := |units| - 1;
      PositionsOfFlat(units[..n]);
      PositionsConcat(units[..n], [units[n]]);
      assert units == units[..n] + [units[n]] && [units[n]][1..] == [];
      assert Positions(Flatten(units)) == Positions(Flatten(units[..n])) + Positions(units[n]);
    }
  }

  /** The queue: one entry for each pending job, in order. */
  ghost predicate Queues(jobs: seq<Job>, pending: seq<nat>, entries: seq<W.Entry>) {
    Positions(entries) == pending && AllStandFor(jobs, entries)
  }

  lemma {:induction false} UnitsStandFor(jobs: seq<Job>, units: seq<seq<W.Entry>>, u: nat)
    requires AllStandFor(jobs, Flatten(units)) && u < |units|
    ensures AllStandFor(jobs, units[u])
  {
    var n := |units| - 1;
    var flat, front := Flatten(units), Flatten(units[..n]);
    if u < n {
      forall i | 0 <= i < |front| ensures StandsFor(jobs, front[i]) {
        assert flat[i] == front[i];
      }
      UnitsStandFor(jobs, units[..n], u);
    } else {
      forall i | 0 <= i < |units[n]| ensures StandsFor(jobs, units[n][i]) {
        assert flat[|front| + i] == units[n][i];
      }
    }
  }

  lemma SamePositionsFinish(jobs: seq<Job>, pending: seq<nat>, made: seq<ReviewOutcome>)
    requires IsDistinct(pending) && multiset(Indices(made)) == multiset(pending)
    requires AreOutcomes(jobs, made)
    ensures Finishes(jobs, pending, made)
  {
    var indices := Indices(made);
    forall x ensures multiset(indices)[x] <= 1 {
      DistinctCounts(pending, x);
    }
    CountsMakeDistinct(indices);
    forall i, j | 0 <= i < j < |made| ensures made[i].index != made[j].index {
      assert indices[i] != indices[j];
    }
    forall k | 0 <= k < |made| ensures made[k].index in pending {
      assert indices[k] in multiset(pending);
    }
    forall p | p in pending ensures HasOutcome(made, p) {
      assert p in multiset(indices);
      var k :| 0 <= k < |indices| && indices[k] == p;
      assert made[k].index == p;
    }
  }

  /** Whatever way the queue was grouped into units, and in whatever order the units
      completed, their outcomes are one review for each pending job. */
  lemma {:induction false} FinishedUnitsFinishTheQueue<R>(
      o: W.Oracle<R>, judges: Judges<R>, jobs: seq<Job>, pending: seq<nat>, units: seq<seq<W.Entry>>, finished: seq<Finished<R>>)
    requires IsDistinct(pending) && Queues(jobs, pending, Flatten(units))
    requires multiset(UnitsOf(finished)) == multiset(units)
    requires forall i :: 0 <= i < |finished| ==> UnitDone(o, finished[i])
    ensures AllDone(o, jobs, finished)
    ensures forall i :: 0 <= i < |finished| ==> InRange(jobs, finished[i].outcomes)
    ensures Finishes(jobs, pending, MadeBy(judges, jobs, finished))
  {
    forall i | 0 <= i < |finished| ensures AllStandFor(jobs, finished[i].unit) {
      assert UnitsOf(finished)[i] in multiset(units);
      var u :| 0 <= u < |units| && units[u] == finished[i].unit;
      UnitsStandFor(jobs, units, u);
    }
    MadeReviews(o, judges, jobs, finished);
    PositionsForgetOrder(UnitsOf(finished), units);
    PositionsOfFlat(units);
    SamePositionsFinish(jobs, pending, MadeBy(judges, jobs, finished));
  }

  // ---------------------------------------------------------------------
  // Whole scans
  // ---------------------------------------------------------------------

  type Completion<R> = S.Finished<seq<W.Outcome<R>>>

  /** The units that the scheduler completed, with the entries its unit names stand for. */
  function FinishedBy<R>(unitOf: S.ReviewUnit -> seq<W.Entry>, completed: seq<Completion<R>>): seq<Finished<R>> {
    seq(|completed|, i requires 0 <= i < |completed| => Finished(unitOf(completed[i].unit), completed[i].result))
  }

  lemma {:induction false} CompletedUnits<R>(unitOf: S.ReviewUnit -> seq<W.Entry>, completed: seq<Completion<R>>)
    ensures UnitsOf(FinishedBy(unitOf, completed)) == Map(unitOf, S.FinishedUnits(completed))
  {
    if completed != [] {
      CompletedUnits(unitOf, completed[1..]);
      var units := UnitsOf(FinishedBy(unitOf, completed));
      assert S.FinishedUnits(completed)[1..] == S.FinishedUnits(completed[1..]);
      assert units == [units[0]] + UnitsOf(FinishedBy(unitOf, completed[1..]));
    }
  }

  /** A scheduler run that ends without an error and leaves nothing pending finishes the queue. */
  lemma {:induction false} ScheduledRunsFinishTheQueue<R(!new)>(
      o: W.Oracle<R>, judges: Judges<R>, jobs: seq<Job>, pending: seq<nat>, unitOf: S.ReviewUnit -> seq<W.Entry>,
      c: S.Config, input: seq<S.ReviewUnit>, spent: real, run: seq<S.State<seq<W.Outcome<R>>>>, n: nat)
    requires c.unitCap >= 0.0 && S.IsRunFrom(c, input, spent, run) && n < |run|
    requires run[n].phase == S.Done && run[n].firstError.None? && run[n].pending == []
    requires IsDistinct(pending) && Queues(jobs, pending, Flatten(Map(unitOf, input)))
    requires forall i :: 0 <= i < |run[n].completed| ==> UnitDone(o, FinishedBy(unitOf, run[n].completed)[i])
    ensures var finished := FinishedBy(unitOf, run[n].completed);
            && AllDone(o, jobs, finished)
            && (forall i :: 0 <= i < |finished| ==> InRange(jobs, finished[i].outcomes))
            && Finishes(jobs, pending, MadeBy(judges, jobs, finished))
  {
    var completed := run[n].completed;
    S.EarlyStopMeansBudgetExhausted(c, input, spent, run, n);
    CompletedUnits(unitOf, completed);
    MapForgetsOrder(unitOf, S.FinishedUnits(completed), input);
    FinishedUnitsFinishTheQueue(o, judges, jobs, pending, Map(unitOf, input), FinishedBy(unitOf, completed));
  }

  /** The whole scan: after any history of runs, crashes and foreign writes, when a scheduler
      run over the queue, grouped in any way, ends without an error and leaves nothing
      pending, then the result has exactly one record per method job, in job order; and the
      coverage check passes exactly when no two method jobs share a unit id. Each record says
      what was reviewed for its method in this run, or is the one the journal held. */
  lemma {:induction false} FinishedScansReportEveryMethod<R(!new)>(
      jobOf: string -> Job, worlds: seq<World>, events: seq<Event>, k: nat,
      o: W.Oracle<R>, judges: Judges<R>, unitOf: S.ReviewUnit -> seq<W.Entry>,
      c: S.Config, input: seq<S.ReviewUnit>, spent: real, run: seq<S.State<seq<W.Outcome<R>>>>, n: nat)
    requires IsHistory(jobOf, worlds, events) && AllReviews(jobOf, worlds[0].entries)
    requires k < |events| && events[k].Begin?
    requires c.unitCap >= 0.0 && S.IsRunFrom(c, input, spent, run) && n < |run|
    requires run[n].phase == S.Done && run[n].firstError.None? && run[n].pending == []
    requires Queues(events[k].jobs, PendingIndices(Completed(events[k].ctx, worlds[k].entries), events[k].jobs),
                    Flatten(Map(unitOf, input)))
    requires forall i :: 0 <= i < |run[n].completed| ==> UnitDone(o, FinishedBy(unitOf, run[n].completed)[i])
    ensures var jobs := events[k].jobs;
            var finished := FinishedBy(unitOf, run[n].completed);
            && (forall i :: 0 <= i < |finished| ==> InRange(jobs, finished[i].outcomes))
            && var outcomes := ReusedOutcomes(Completed(events[k].ctx, worlds[k].entries), jobs) + MadeBy(judges, jobs, finished);
               && UnitIds(Records(SortByIndex(outcomes))) == MethodUnitIds(jobs)
               && (Covers(ExpectedMethods(jobs), outcomes) <==> DistinctMethodIds(jobs))
               && forall r :: r in Records(SortByIndex(outcomes)) ==>
                    RecordIsFounded(judges, o, Completed(events[k].ctx, worlds[k].entries), jobs, finished, r)
  {
    var jobs, completed := events[k].jobs, Completed(events[k].ctx, worlds[k].entries);
    var pending, finished := PendingIndices(completed, jobs), FinishedBy(unitOf, run[n].completed);
    ScheduledRunsFinishTheQueue(o, judges, jobs, pending, unitOf, c, input, spent, run, n);
    ResultListsEveryMethodOnceInJobOrder(jobOf, worlds, events, k, MadeBy(judges, jobs, finished));
    forall r | r in Records(SortByIndex(ReusedOutcomes(completed, jobs) + MadeBy(judges, jobs, finished)))
      ensures RecordIsFounded(judges, o, completed, jobs, finished, r)
    {
      RecordsAreFounded(o, judges, completed, jobs, finished, r);
    }
  }
}
