/** Unit ids determine jobs. */
module ReviewIdentity {
  import opened Wrappers
  import I = JobIdentity
  import R = ReviewResume

  // The jobs of a scan are made from the same reviews as the identity texts that are hashed
  // to their unit ids (`journal_unit_id` and `source_hash` in src/analyzer_engine_jobs.rs).

  /** The hash, the spelling of a byte text as a string, the role of a path, and the line count
      that a parser gives a method of these lines. */
  datatype Naming = Naming(hash: I.Text -> string, spelled: I.Text -> string, role: I.Text -> I.Text, loc: (nat, nat) -> nat)

  ghost predicate Injective(hash: I.Text -> string) {
    forall a, b :: hash(a) == hash(b) ==> a == b
  }

  function UnitId(naming: Naming, job: I.ReviewJob): string {
    naming.hash(I.EncodeFields(I.Fields(job, naming.role)))
  }

  function JobFrom(naming: Naming, job: I.ReviewJob): R.Job {
    match job
    case MethodJob(_, filePath, methodName, source, startLine, endLine, _, _, _, _, _, _, _, _, _) =>
      R.MethodJob(UnitId(naming, job), naming.hash(source), naming.spelled(methodName), naming.spelled(filePath),
                  naming.loc(startLine, endLine), startLine, endLine)
    case FileJob(_, filePath, source, _) =>
      R.FileJob(UnitId(naming, job), naming.hash(source), naming.spelled(filePath))
  }

  function JobsFrom(naming: Naming, reviews: seq<I.ReviewJob>): seq<R.Job> {
    seq(|reviews|, i requires 0 <= i < |reviews| => JobFrom(naming, reviews[i]))
  }

  lemma SameIdSameJob(naming: Naming, a: I.ReviewJob, b: I.ReviewJob)
    requires Injective(naming.hash) && UnitId(naming, a) == UnitId(naming, b)
    ensures JobFrom(naming, a) == JobFrom(naming, b)
  {
    I.IdentityIsTheReview(a, b, naming.role);
    assert I.SameReview(a, b);
  }

  /** With an injective hash one function tells every job of every scan from its unit id. */
  lemma UnitIdsDetermineJobs(naming: Naming) returns (jobOf: string -> R.Job)
    requires Injective(naming.hash)
    ensures forall reviews :: R.Identified(jobOf, JobsFrom(naming, reviews))
  {
    jobOf := (id: string) =>
      if exists job :: UnitId(naming, job) == id then JobFrom(naming, var job :| UnitId(naming, job) == id; job)
      else R.FileJob(id, "", "");
    forall job: I.ReviewJob ensures jobOf(UnitId(naming, job)) == JobFrom(naming, job) {
      forall other: I.ReviewJob | UnitId(naming, other) == UnitId(naming, job)
        ensures JobFrom(naming, other) == JobFrom(naming, job)
      {
        SameIdSameJob(naming, other, job);
      }
    }
    forall reviews ensures R.Identified(jobOf, JobsFrom(naming, reviews)) {
      var jobs := JobsFrom(naming, reviews);
      forall j | 0 <= j < |jobs| ensures jobs[j] == jobOf(jobs[j].unitId) {
        assert jobs[j] == JobFrom(naming, reviews[j]);
        assert jobs[j].unitId == UnitId(naming, reviews[j]);
      }
    }
  }
}
