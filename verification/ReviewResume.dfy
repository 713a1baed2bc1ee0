/** Resuming a scan from the journal. */
module ReviewResume {
  import opened Wrappers
  import opened JournalFile
  import opened JournalStore
  import opened Sorting

  // Which units a scan reviews again, and why a settled unit is never one of them
  // (`run_review_jobs_with_records` in src/analyzer_engine_jobs.rs, with its item callback).
  //
  // `Happens` is one step of the engine on the journal, whatever scan takes it. `BeginScan`
  // and `CompleteItem` are the code that takes such steps.

  datatype Job =
    | MethodJob(unitId: string, sourceHash: string, name: string, filePath: string,
                loc: nat, startLine: nat, endLine: nat)
    | FileJob(unitId: string, sourceHash: string, filePath: string)

  datatype ReviewOutcome = ReviewOutcome(
    index: nat, verdict: Option<Verdict>, methodRecord: Option<MethodReviewRecord>, retryOnResume: bool)

  /** A unit id is the hash of a text that holds what a job is made of, so it determines
      the job; `jobOf` says which one. */
  ghost predicate Identified(jobOf: string -> Job, jobs: seq<Job>) {
    forall j :: 0 <= j < |jobs| ==> jobs[j] == jobOf(jobs[j].unitId)
  }

  /** `matches_method`, for a record filed under the job's own unit id. */
  predicate MatchesMethod(record: MethodReviewRecord, job: Job)
    requires job.MethodJob?
  {
    && record.sourceHash == job.sourceHash
    && record.filePath == job.filePath && record.methodName == job.name
    && record.startLine == job.startLine && record.endLine == job.endLine && record.loc == job.loc
    && record.verdict.checkType == "method"
    && record.verdict.filePath == job.filePath && record.verdict.methodName == Some(job.name)
    && record.verdict.loc == job.loc
    && record.verdict.startLine == job.startLine && record.verdict.endLine == job.endLine
  }

  /** What a review of the job can look like: a method's has a method verdict and a record
      of it under the unit id; a file's has no record, and no method verdict. */
  ghost predicate Reviews(job: Job, verdict: Option<Verdict>, methodRecord: Option<MethodReviewRecord>) {
    match job
    case MethodJob(unitId, _, _, _, _, _, _) =>
      && methodRecord.Some? && methodRecord.value.unitId == unitId && MatchesMethod(methodRecord.value, job)
      && verdict == Some(methodRecord.value.verdict)
    case FileJob(_, _, _) =>
      methodRecord.None? && (verdict.Some? ==> verdict.value.checkType != "method")
  }

  predicate Reusable(completed: map<string, JournalEntry>, unitId: string, sourceHash: string) {
    unitId in completed && completed[unitId].IsReusable() && completed[unitId].sourceHash == sourceHash
  }

  function PendingIndices(completed: map<string, JournalEntry>, jobs: seq<Job>): (pending: seq<nat>)
    ensures forall k :: 0 <= k < |pending| ==> pending[k] < |jobs|
    ensures forall j :: 0 <= j < |jobs| ==> (j in pending <==> !Reusable(completed, jobs[j].unitId, jobs[j].sourceHash))
    ensures forall k, l :: 0 <= k < l < |pending| ==> pending[k] < pending[l]
  {
    if jobs == [] then []
    else
      var n := |jobs| - 1;
      var before := PendingIndices(completed, jobs[..n]);
      if Reusable(completed, jobs[n].unitId, jobs[n].sourceHash) then before else before + [n]
  }

  function ReusedOutcomes(completed: map<string, JournalEntry>, jobs: seq<Job>): seq<ReviewOutcome> {
    if jobs == [] then []
    else
      var n := |jobs| - 1;
      var before := ReusedOutcomes(completed, jobs[..n]);
      if Reusable(completed, jobs[n].unitId, jobs[n].sourceHash)
      then before + [ReviewOutcome(n, completed[jobs[n].unitId].verdict, completed[jobs[n].unitId].methodRecord, false)]
      else before
  }

  /** A result for the unit, recorded by any scan with this review context. */
  predicate IsResultFor(ctx: JournalContext, e: JournalEntry, unitId: string) {
    && e.version == 3 && e.stage == ctx.stage && e.reviewContextHash == ctx.reviewContextHash
    && !e.isManifest && e.unitId == unitId
  }

  /** The last such result in the journal. */
  ghost predicate IsLastFor(ctx: JournalContext, entries: seq<JournalEntry>, unitId: string, k: nat) {
    && k < |entries| && IsResultFor(ctx, entries[k], unitId)
    && forall l :: k < l < |entries| ==> !IsResultFor(ctx, entries[l], unitId)
  }

  /** A complete review of this very source that is not to be tried again. */
  predicate HoldsReviewOf(e: JournalEntry, sourceHash: string) {
    && e.sourceHash == sourceHash && !e.retryOnResume
    && e.verdict != None && (e.verdict.value.checkType == "method" ==> e.methodRecord != None)
  }

  lemma LastForIsLastMatch(ctx: JournalContext, entries: seq<JournalEntry>, unitId: string, k: nat)
    ensures IsLastFor(ctx, entries, unitId, k) <==> IsLastMatch(ctx, entries, unitId, k)
  {
    forall l | 0 <= l < |entries|
      ensures IsResultFor(ctx, entries[l], unitId) <==> Matches(ctx, entries[l], unitId)
    {
    }
  }

  /** A job is spared a review exactly when the last result that the journal holds for its
      unit in this review context is a complete review of its very source, not to be retried. */
  lemma {:induction false} SparedExactlyWhen(ctx: JournalContext, entries: seq<JournalEntry>, jobs: seq<Job>, j: nat)
    requires ctx.stage == Method && j < |jobs|
    ensures j !in PendingIndices(Completed(ctx, entries), jobs)
       <==> exists k: nat :: IsLastFor(ctx, entries, jobs[j].unitId, k) && HoldsReviewOf(entries[k], jobs[j].sourceHash)
  {
    var completed, id := Completed(ctx, entries), jobs[j].unitId;
    CompletedIsTheLastMatch(ctx, entries, id);
    if j !in PendingIndices(completed, jobs) {
      var k: nat :| IsLastMatch(ctx, entries, id, k);
      LastForIsLastMatch(ctx, entries, id, k);
    } else {
      forall k: nat | IsLastFor(ctx, entries, id, k) ensures !HoldsReviewOf(entries[k], jobs[j].sourceHash) {
        LastForIsLastMatch(ctx, entries, id, k);
      }
    }
  }

  /** What the journal offers for a job that is not reviewed again. */
  ghost predicate AsHeld(completed: map<string, JournalEntry>, jobs: seq<Job>, o: ReviewOutcome) {
    && o.index < |jobs| && jobs[o.index].unitId in completed && !o.retryOnResume
    && var held := completed[jobs[o.index].unitId];
       o.verdict == held.verdict && o.methodRecord == held.methodRecord
  }

  /** Reused outcomes are exactly the reviews that the journal holds. */
  lemma {:induction false} ReusedAreAsHeld(completed: map<string, JournalEntry>, jobs: seq<Job>)
    ensures forall k :: 0 <= k < |ReusedOutcomes(completed, jobs)| ==> AsHeld(completed, jobs, ReusedOutcomes(completed, jobs)[k])
  {
    if jobs != [] {
      var n := |jobs| - 1;
      ReusedAreAsHeld(completed, jobs[..n]);
      var before, reused := ReusedOutcomes(completed, jobs[..n]), ReusedOutcomes(completed, jobs);
      forall k | 0 <= k < |reused| ensures AsHeld(completed, jobs, reused[k]) {
        if k < |before| {
          assert AsHeld(completed, jobs[..n], before[k]);
        }
      }
    }
  }

  /** A review of a method is a verdict that repeats the job's own fields and adds a tier and
      a reason, with a record that repeats them too. */
  lemma MethodReviewsRepeatTheJob(job: Job, verdict: Option<Verdict>, methodRecord: Option<MethodReviewRecord>)
    requires job.MethodJob?
    ensures Reviews(job, verdict, methodRecord) <==>
              exists tier: Tier, reason: string :: IsReviewWith(job, tier, reason, verdict, methodRecord)
  {
    if Reviews(job, verdict, methodRecord) {
      assert IsReviewWith(job, verdict.value.tier, verdict.value.reason, verdict, methodRecord);
    }
  }

  ghost predicate IsReviewWith(job: Job, tier: Tier, reason: string, verdict: Option<Verdict>, methodRecord: Option<MethodReviewRecord>)
    requires job.MethodJob?
  {
    var v := Verdict("method", job.filePath, Some(job.name), tier, reason, job.loc, job.startLine, job.endLine);
    && verdict == Some(v)
    && methodRecord == Some(MethodReviewRecord(job.unitId, job.sourceHash, job.filePath, job.name,
                                               job.loc, job.startLine, job.endLine, v))
  }

  // ---------------------------------------------------------------------
  // Runs, crashes and other scans over one journal
  // ---------------------------------------------------------------------

  /** A method-review run in progress; `open` holds a unit id for each pending job whose
      result is not yet recorded. */
  datatype ActiveRun = ActiveRun(ctx: JournalContext, rates: PricingRates, open: multiset<string>)

  /** The durable entries and the run that is writing, if any. A crash ends the run. */
  datatype World = World(entries: seq<JournalEntry>, run: Option<ActiveRun>)

  datatype Event =
    | WriteManifest(manifestOf: JournalContext)
    | Begin(ctx: JournalContext, rates: PricingRates, jobs: seq<Job>)
    | Perform(op: Operation)
    | WriteOtherStage(entry: JournalEntry)
    | Stop

  function PendingIds(completed: map<string, JournalEntry>, jobs: seq<Job>): seq<string> {
    var pending := PendingIndices(completed, jobs);
    seq(|pending|, k requires 0 <= k < |pending| => jobs[pending[k]].unitId)
  }

  function OpenUnits(completed: map<string, JournalEntry>, jobs: seq<Job>): multiset<string> {
    multiset(PendingIds(completed, jobs))
  }

  function Manifest(ctx: JournalContext): JournalEntry {
    Blank(ctx, true, ManifestId(ctx), "")
  }

  ghost predicate Happens(jobOf: string -> Job, s: World, event: Event, t: World) {
    match event
    case WriteManifest(ctx) =>
      s.run.None? && t == s.(entries := s.entries + [Manifest(ctx)])
    case Begin(ctx, rates, jobs) =>
      && s.run.None? && ctx.stage == Method && Identified(jobOf, jobs)
      && t == World(s.entries, Some(ActiveRun(ctx, rates, OpenUnits(Completed(ctx, s.entries), jobs))))
    case Perform(op) =>
      && s.run.Some? && t.entries == s.entries + AppendedBy(s.run.value.ctx, s.run.value.rates, op)
      && (if op.RecordResult? then Fresh(jobOf, s, op, t) || Reused(jobOf, s, op, t) else t.run == s.run)
    case WriteOtherStage(entry) =>
      entry.stage != Method && t == s.(entries := s.entries + [entry])
    case Stop =>
      t == s.(run := None)
  }

  /** The result of a review of an open unit. */
  ghost predicate Fresh(jobOf: string -> Job, s: World, op: Operation, t: World)
    requires s.run.Some? && op.RecordResult?
  {
    var run := s.run.value;
    && op.stage == Method && op.unitId in run.open && op.sourceHash == jobOf(op.unitId).sourceHash
    && Reviews(jobOf(op.unitId), op.verdict, op.methodRecord)
    && t.run == Some(run.(open := run.open - multiset{op.unitId}))
  }

  /** A result of another scan, recorded again under this one. */
  ghost predicate Reused(jobOf: string -> Job, s: World, op: Operation, t: World)
    requires s.run.Some? && op.RecordResult?
  {
    var completed := Completed(s.run.value.ctx, s.entries);
    && op.stage == Method && op.unitId !in s.run.value.open && op.sourceHash == jobOf(op.unitId).sourceHash
    && Reusable(completed, op.unitId, op.sourceHash) && !op.retryOnResume
    && op.verdict == completed[op.unitId].verdict && op.methodRecord == completed[op.unitId].methodRecord
    && t.run == s.run
  }

  ghost predicate IsHistory(jobOf: string -> Job, worlds: seq<World>, events: seq<Event>) {
    && |worlds| == |events| + 1
    && forall k :: 0 <= k < |events| ==> StepAt(jobOf, worlds, events, k)
  }

  ghost predicate StepAt(jobOf: string -> Job, worlds: seq<World>, events: seq<Event>, k: nat)
    requires k < |events| && |worlds| == |events| + 1
  {
    Happens(jobOf, worlds[k], events[k], worlds[k + 1])
  }

  /** A history, from its first world to its last. */
  ghost predicate Leads(jobOf: string -> Job, worlds: seq<World>, events: seq<Event>, s: World, t: World) {
    IsHistory(jobOf, worlds, events) && worlds[0] == s && worlds[|events|] == t
  }

  lemma NothingHappens(jobOf: string -> Job, s: World)
    ensures Leads(jobOf, [s], [], s, s)
  {
  }

  lemma OneMore(jobOf: string -> Job, worlds: seq<World>, events: seq<Event>, s: World, m: World, event: Event, t: World)
    requires Leads(jobOf, worlds, events, s, m) && Happens(jobOf, m, event, t)
    ensures Leads(jobOf, worlds + [t], events + [event], s, t)
  {
    var ws, es := worlds + [t], events + [event];
    forall k | 0 <= k < |es| ensures StepAt(jobOf, ws, es, k) {
      if k < |events| {
        assert StepAt(jobOf, worlds, events, k);
      }
    }
  }

  // ---------------------------------------------------------------------
  // Sorting jobs into reused outcomes and pending work
  // ---------------------------------------------------------------------

  /** The two maps offer the same review for reuse under the job. */
  ghost predicate SameOffer(before: map<string, JournalEntry>, now: map<string, JournalEntry>, job: Job) {
    && (Reusable(before, job.unitId, job.sourceHash) <==> Reusable(now, job.unitId, job.sourceHash))
    && (Reusable(before, job.unitId, job.sourceHash) ==>
          && before[job.unitId].verdict == now[job.unitId].verdict
          && before[job.unitId].methodRecord == now[job.unitId].methodRecord)
  }

  ghost predicate SameOffers(before: map<string, JournalEntry>, now: map<string, JournalEntry>, jobs: seq<Job>) {
    forall j :: 0 <= j < |jobs| ==> SameOffer(before, now, jobs[j])
  }

  /** What the journal offers for the job was recorded under this scan. */
  ghost predicate CurrentAt(ctx: JournalContext, completed: map<string, JournalEntry>, job: Job) {
    Reusable(completed, job.unitId, job.sourceHash) ==> completed[job.unitId].scanId == ctx.scanId
  }

  ghost predicate ReusedAreCurrent(ctx: JournalContext, completed: map<string, JournalEntry>, jobs: seq<Job>) {
    forall j :: 0 <= j < |jobs| ==> CurrentAt(ctx, completed, jobs[j])
  }

  lemma CurrentSoFar(ctx: JournalContext, completed: map<string, JournalEntry>, jobs: seq<Job>, n: nat)
    requires n < |jobs| && ReusedAreCurrent(ctx, completed, jobs[..n])
    requires Reusable(completed, jobs[n].unitId, jobs[n].sourceHash) ==> ctx.IsCurrentScan(completed[jobs[n].unitId])
    ensures ReusedAreCurrent(ctx, completed, jobs[..n + 1])
  {
    var upTo := jobs[..n + 1];
    forall j | 0 <= j < |upTo| ensures CurrentAt(ctx, completed, upTo[j]) {
      if j < n {
        assert CurrentAt(ctx, completed, jobs[..n][j]);
      }
    }
  }

  lemma {:induction false} SortingPush(completed: map<string, JournalEntry>, jobs: seq<Job>, n: nat)
    requires n < |jobs|
    ensures var reused := Reusable(completed, jobs[n].unitId, jobs[n].sourceHash);
            && PendingIndices(completed, jobs[..n + 1]) == PendingIndices(completed, jobs[..n]) + (if reused then [] else [n])
            && ReusedOutcomes(completed, jobs[..n + 1])
                 == ReusedOutcomes(completed, jobs[..n])
                    + (if reused
                       then [ReviewOutcome(n, completed[jobs[n].unitId].verdict, completed[jobs[n].unitId].methodRecord, false)]
                       else [])
  {
    assert jobs[..n + 1][..n] == jobs[..n];
  }

  lemma RerecordingKeepsOffers(
      jobOf: string -> Job, ctx: JournalContext, start: map<string, JournalEntry>, before: map<string, JournalEntry>,
      now: map<string, JournalEntry>, jobs: seq<Job>, n: nat)
    requires n < |jobs| && Identified(jobOf, jobs)
    requires SameOffers(start, before, jobs) && ReusedAreCurrent(ctx, before, jobs[..n])
    requires var id := jobs[n].unitId;
             && Reusable(before, id, jobs[n].sourceHash) && Reusable(now, id, jobs[n].sourceHash)
             && ctx.IsCurrentScan(now[id])
             && now == before[id := now[id]]
             && now[id].verdict == before[id].verdict && now[id].methodRecord == before[id].methodRecord
    ensures SameOffers(start, now, jobs) && ReusedAreCurrent(ctx, now, jobs[..n + 1])
  {
    forall j | 0 <= j < |jobs| ensures SameOffer(start, now, jobs[j]) {
      assert SameOffer(start, before, jobs[j]);
      if jobs[j].unitId == jobs[n].unitId {
        assert jobs[j] == jobs[n];
      }
    }
    var upTo := jobs[..n + 1];
    forall j | 0 <= j < |upTo| ensures CurrentAt(ctx, now, upTo[j]) {
      if j < n {
        assert upTo[j] == jobs[..n][j];
        assert CurrentAt(ctx, before, jobs[..n][j]);
      }
    }
  }

  lemma {:induction false} CompletedMatches(ctx: JournalContext, entries: seq<JournalEntry>, unitId: string)
    requires unitId in Completed(ctx, entries)
    ensures ctx.MatchesCache(Completed(ctx, entries)[unitId])
  {
    CompletedIsTheLastMatch(ctx, entries, unitId);
  }

  function ReuseMark(unitId: string, sourceHash: string): Operation {
    Operation.RecordCrossScanReuse(unitId, sourceHash)
  }

  /** Recording an entry's result again, free of charge. */
  function Again(unitId: string, sourceHash: string, entry: JournalEntry): Operation {
    Operation.RecordResult(Method, unitId, sourceHash, entry.verdict, entry.methodRecord, EMPTY_PAYLOAD, 0, 0, 0, false)
  }

  method Rerecord(store: Store, unitId: string, sourceHash: string)
    requires store.Valid() && store.context.stage == Method && Reusable(store.completed, unitId, sourceHash)
    modifies store, store.file
    ensures store.Valid()
    ensures Reusable(store.completed, unitId, sourceHash) && store.completed[unitId].scanId == store.context.scanId
    ensures store.completed == old(store.completed)[unitId := store.completed[unitId]]
    ensures store.completed[unitId].verdict == old(store.completed)[unitId].verdict
    ensures store.completed[unitId].methodRecord == old(store.completed)[unitId].methodRecord
    ensures store.entries == old(store.entries) + AppendedBy(store.context, store.rates, ReuseMark(unitId, sourceHash))
                             + AppendedBy(store.context, store.rates, Again(unitId, sourceHash, old(store.completed)[unitId]))
  {
    var entry := store.completed[unitId];
    store.RecordCrossScanReuse(unitId, sourceHash);
    CompletedMatches(store.context, store.entries, unitId);
    ghost var known := store.entries;
    var _ := store.RecordResult(Method, unitId, sourceHash, entry.verdict, entry.methodRecord, EMPTY_PAYLOAD, 0, 0, 0, false);
    UpdateIsReload(store.context, store.rates, known, Again(unitId, sourceHash, entry));
  }

  /** A mark and a repeated result are two steps of the run. */
  lemma RerecordingHappens(
      jobOf: string -> Job, worlds: seq<World>, events: seq<Event>, s: World, run: ActiveRun, entries: seq<JournalEntry>, unitId: string)
    returns (worlds': seq<World>, events': seq<Event>)
    requires Leads(jobOf, worlds, events, s, World(entries, Some(run)))
    requires run.ctx.stage == Method && unitId !in run.open
    requires Reusable(Completed(run.ctx, entries), unitId, jobOf(unitId).sourceHash)
    ensures var hash := jobOf(unitId).sourceHash;
            Leads(jobOf, worlds', events', s,
                  World(entries + AppendedBy(run.ctx, run.rates, ReuseMark(unitId, hash))
                        + AppendedBy(run.ctx, run.rates, Again(unitId, hash, Completed(run.ctx, entries)[unitId])), Some(run)))
  {
    var hash := jobOf(unitId).sourceHash;
    var mark, again := ReuseMark(unitId, hash), Again(unitId, hash, Completed(run.ctx, entries)[unitId]);
    var marked := entries + AppendedBy(run.ctx, run.rates, mark);
    UpdateIsReload(run.ctx, run.rates, entries, mark);
    var middle := World(marked, Some(run));
    OneMore(jobOf, worlds, events, s, World(entries, Some(run)), Perform(mark), middle);
    OneMore(jobOf, worlds + [middle], events + [Perform(mark)], s, middle, Perform(again),
            World(marked + AppendedBy(run.ctx, run.rates, again), Some(run)));
    worlds', events' := worlds + [middle, World(marked + AppendedBy(run.ctx, run.rates, again), Some(run))],
                        events + [Perform(mark), Perform(again)];
    assert worlds' == worlds + [middle] + [World(marked + AppendedBy(run.ctx, run.rates, again), Some(run))];
    assert events' == events + [Perform(mark)] + [Perform(again)];
  }

  lemma ReusableIsNotOpen(jobOf: string -> Job, completed: map<string, JournalEntry>, jobs: seq<Job>, n: nat)
    requires n < |jobs| && Identified(jobOf, jobs) && Reusable(completed, jobs[n].unitId, jobs[n].sourceHash)
    ensures jobs[n].unitId !in OpenUnits(completed, jobs)
  {
    var pending, ids := PendingIndices(completed, jobs), PendingIds(completed, jobs);
    forall k | 0 <= k < |ids| ensures ids[k] != jobs[n].unitId {
      assert pending[k] in pending;
      assert jobs[pending[k]] == jobOf(jobs[pending[k]].unitId) && jobs[n] == jobOf(jobs[n].unitId);
    }
    assert jobs[n].unitId !in ids;
  }

  /** One job found in the journal: re-recorded under this scan when it came from another one. */
  method ReuseJob(store: Store, jobs: seq<Job>, n: nat, ghost jobOf: string -> Job, ghost start: map<string, JournalEntry>,
                  ghost s: World, ghost worlds: seq<World>, ghost events: seq<Event>)
    returns (outcome: ReviewOutcome, ghost worlds': seq<World>, ghost events': seq<Event>)
    requires store.Valid() && store.context.stage == Method && Identified(jobOf, jobs) && n < |jobs|
    requires Reusable(store.completed, jobs[n].unitId, jobs[n].sourceHash)
    requires SameOffers(start, store.completed, jobs) && ReusedAreCurrent(store.context, store.completed, jobs[..n])
    requires Leads(jobOf, worlds, events, s, InRun(store.entries, store.context, store.rates, start, jobs))
    modifies store, store.file
    ensures store.Valid()
    ensures SameOffers(start, store.completed, jobs) && ReusedAreCurrent(store.context, store.completed, jobs[..n + 1])
    ensures var entry := old(store.completed)[jobs[n].unitId];
            && outcome == ReviewOutcome(n, entry.verdict, entry.methodRecord, false)
            && (entry.scanId == store.context.scanId ==>
                  store.entries == old(store.entries) && store.completed == old(store.completed))
    ensures Leads(jobOf, worlds', events', s, InRun(store.entries, store.context, store.rates, start, jobs))
  {
    var id, hash := jobs[n].unitId, jobs[n].sourceHash;
    var entry := store.completed[id];
    outcome := ReviewOutcome(n, entry.verdict, entry.methodRecord, false);
    worlds', events' := worlds, events;
    if store.context.IsCurrentScan(entry) {
      CurrentSoFar(store.context, store.completed, jobs, n);
    } else {
      ghost var before, entries := store.completed, store.entries;
      ghost var run := ActiveRun(store.context, store.rates, OpenUnits(start, jobs));
      assert SameOffer(start, before, jobs[n]);
      ReusableIsNotOpen(jobOf, start, jobs, n);
      assert jobs[n] == jobOf(id);
      worlds', events' := RerecordingHappens(jobOf, worlds, events, s, run, entries, id);
      Rerecord(store, id, hash);
      RerecordingKeepsOffers(jobOf, store.context, start, before, store.completed, jobs, n);
    }
  }

  /** A run over these jobs, begun when the completed map was `start`. */
  ghost function InRun(entries: seq<JournalEntry>, ctx: JournalContext, rates: PricingRates,
                       start: map<string, JournalEntry>, jobs: seq<Job>): World {
    World(entries, Some(ActiveRun(ctx, rates, OpenUnits(start, jobs))))
  }

  /** The job loop: reuses what the journal holds (re-recording it under this scan when it
      came from another one) and queues the rest. Re-recording never changes the sorting,
      and the loop is a history: the run begins, and takes only steps a run may take. */
  method SortJobs(store: Store, jobs: seq<Job>, ghost jobOf: string -> Job)
    returns (outcomes: seq<ReviewOutcome>, pending: seq<nat>, ghost worlds: seq<World>, ghost events: seq<Event>)
    requires store.Valid() && store.context.stage == Method && Identified(jobOf, jobs)
    modifies store, store.file
    ensures store.Valid()
    ensures pending == PendingIndices(old(store.completed), jobs)
    ensures outcomes == ReusedOutcomes(old(store.completed), jobs)
    ensures SameOffers(old(store.completed), store.completed, jobs)
    ensures ReusedAreCurrent(store.context, store.completed, jobs)
    ensures ReusedAreCurrent(store.context, old(store.completed), jobs) ==> store.entries == old(store.entries)
    ensures Leads(jobOf, worlds, events, World(old(store.entries), None),
                  InRun(store.entries, store.context, store.rates, old(store.completed), jobs))
  {
    outcomes, pending := [], [];
    ghost var start, s := store.completed, World(store.entries, None);
    ghost var begun := InRun(store.entries, store.context, store.rates, start, jobs);
    NothingHappens(jobOf, s);
    OneMore(jobOf, [s], [], s, s, Begin(store.context, store.rates, jobs), begun);
    worlds, events := [s] + [begun], [] + [Begin(store.context, store.rates, jobs)];
    for n := 0 to |jobs|
      invariant store.Valid()
      invariant pending == PendingIndices(start, jobs[..n]) && outcomes == ReusedOutcomes(start, jobs[..n])
      invariant SameOffers(start, store.completed, jobs)
      invariant ReusedAreCurrent(store.context, store.completed, jobs[..n])
      invariant ReusedAreCurrent(store.context, start, jobs) ==>
                  store.entries == old(store.entries) && store.completed == start
      invariant Leads(jobOf, worlds, events, s, InRun(store.entries, store.context, store.rates, start, jobs))
    {
      SortingPush(start, jobs, n);
      assert SameOffer(start, store.completed, jobs[n]);
      assert ReusedAreCurrent(store.context, start, jobs) ==> CurrentAt(store.context, start, jobs[n]);
      if Reusable(store.completed, jobs[n].unitId, jobs[n].sourceHash) {
        var outcome;
        outcome, worlds, events := ReuseJob(store, jobs, n, jobOf, start, s, worlds, events);
        outcomes := outcomes + [outcome];
      } else {
        CurrentSoFar(store.context, store.completed, jobs, n);
        pending := pending + [n];
      }
    }
    assert jobs[..|jobs|] == jobs;
  }

  lemma {:induction false} ManifestsKeepCompleted(ctx: JournalContext, entries: seq<JournalEntry>, e: JournalEntry)
    requires e.isManifest
    ensures Completed(ctx, entries + [e]) == Completed(ctx, entries)
  {
    assert (entries + [e])[..|entries|] == entries;
  }

  /** Loading for a scan is at most the step that writes its manifest. */
  lemma LoadingHappens(jobOf: string -> Job, ctx: JournalContext, read: seq<JournalEntry>, loaded: seq<JournalEntry>)
    returns (worlds: seq<World>, events: seq<Event>)
    requires loaded == read || loaded == read + [Manifest(ctx)]
    ensures Leads(jobOf, worlds, events, World(read, None), World(loaded, None))
    ensures Completed(ctx, loaded) == Completed(ctx, read)
  {
    var s, t := World(read, None), World(loaded, None);
    NothingHappens(jobOf, s);
    if loaded == read {
      worlds, events := [s], [];
    } else {
      OneMore(jobOf, [s], [], s, s, WriteManifest(ctx), t);
      worlds, events := [s] + [t], [] + [WriteManifest(ctx)];
      ManifestsKeepCompleted(ctx, read, Manifest(ctx));
    }
  }

  lemma LeadsOn(jobOf: string -> Job, ws: seq<World>, es: seq<Event>, s: World, m: World,
                ws': seq<World>, es': seq<Event>, t: World)
    requires Leads(jobOf, ws, es, s, m) && Leads(jobOf, ws', es', m, t)
    ensures Leads(jobOf, ws + ws'[1..], es + es', s, t)
  {
    var worlds, events := ws + ws'[1..], es + es';
    forall k | 0 <= k < |events| ensures StepAt(jobOf, worlds, events, k) {
      if k < |es| {
        assert StepAt(jobOf, ws, es, k);
      } else {
        assert StepAt(jobOf, ws', es', k - |es|);
      }
    }
  }

  /** A scan up to its first review: it loads the journal and sorts its jobs. */
  method BeginScan(file: File<JournalEntry>, context: JournalContext, rates: PricingRates, jobs: seq<Job>,
                   ghost jobOf: string -> Job)
    returns (begun: Result<(Store, seq<ReviewOutcome>, seq<nat>), nat>, ghost worlds: seq<World>, ghost events: seq<Event>)
    requires Faithful(file.codec) && context.stage == Method && Identified(jobOf, jobs)
    modifies file
    ensures begun.Failure? <==> ReadResult(file.codec, old(file.bytes)).Failure?
    ensures begun.Success? ==>
              var read := ReadResult(file.codec, old(file.bytes)).value;
              var start := Completed(context, read);
              var (store, reused, pending) := begun.value;
              && fresh(store) && store.Valid() && store.file == file
              && pending == PendingIndices(start, jobs) && reused == ReusedOutcomes(start, jobs)
              && Leads(jobOf, worlds, events, World(read, None), InRun(store.entries, context, rates, start, jobs))
  {
    worlds, events := [], [];
    var loaded := LoadForScan(file, context, rates);
    if loaded.Failure? {
      return Failure(loaded.error), worlds, events;
    }
    var store := loaded.value;
    ghost var read, entries := ReadResult(file.codec, old(file.bytes)).value, store.entries;
    ghost var ws, es := LoadingHappens(jobOf, context, read, entries);
    var reused, pending;
    ghost var ws', es';
    reused, pending, ws', es' := SortJobs(store, jobs, jobOf);
    worlds, events := ws + ws'[1..], es + es';
    LeadsOn(jobOf, ws, es, World(read, None), World(entries, None), ws', es',
            InRun(store.entries, context, rates, Completed(context, read), jobs));
    begun := Success((store, reused, pending));
  }

  /** The item callback: a finished review of an open unit goes to the journal. */
  method CompleteItem(store: Store, unitId: string, sourceHash: string, outcome: ReviewOutcome,
                      inTok: nat, outTok: nat, cachedInTok: nat, ghost jobOf: string -> Job, ghost open: multiset<string>)
    returns (ghost op: Operation)
    requires store.Valid() && store.context.stage == Method
    requires unitId in open && sourceHash == jobOf(unitId).sourceHash
    requires Reviews(jobOf(unitId), outcome.verdict, outcome.methodRecord)
    modifies store, store.file
    ensures store.Valid()
    ensures Happens(jobOf, World(old(store.entries), Some(ActiveRun(store.context, store.rates, open))), Perform(op),
                    World(store.entries, Some(ActiveRun(store.context, store.rates, open - multiset{unitId}))))
    ensures op == Operation.RecordResult(Method, unitId, sourceHash, outcome.verdict, outcome.methodRecord, EMPTY_PAYLOAD,
                                         inTok, outTok, cachedInTok, outcome.retryOnResume)
  {
    op := Operation.RecordResult(Method, unitId, sourceHash, outcome.verdict, outcome.methodRecord, EMPTY_PAYLOAD,
                                 inTok, outTok, cachedInTok, outcome.retryOnResume);
    var _ := store.RecordResult(Method, unitId, sourceHash, outcome.verdict, outcome.methodRecord, EMPTY_PAYLOAD,
                                inTok, outTok, cachedInTok, outcome.retryOnResume);
  }

  // ---------------------------------------------------------------------
  // Settled units
  // ---------------------------------------------------------------------

  /** The journal holds a reusable review of the unit's current source for this cache. */
  ghost predicate Settled(jobOf: string -> Job, ctx: JournalContext, entries: seq<JournalEntry>, unitId: string) {
    Reusable(Completed(ctx, entries), unitId, jobOf(unitId).sourceHash)
  }

  predicate SameCache(a: JournalContext, b: JournalContext) {
    a.stage == b.stage && a.reviewContextHash == b.reviewContextHash
  }

  lemma {:induction false} CompletedIgnoresScan(a: JournalContext, b: JournalContext, entries: seq<JournalEntry>)
    requires SameCache(a, b)
    ensures Completed(a, entries) == Completed(b, entries)
  {
    if entries != [] {
      CompletedIgnoresScan(a, b, entries[..|entries| - 1]);
    }
  }

  /** No two jobs of the list share a unit id. */
  ghost predicate DistinctIds(jobs: seq<Job>) {
    forall i, j :: 0 <= i < j < |jobs| ==> jobs[i].unitId != jobs[j].unitId
  }

  /** Open units of a run in this cache are open once, and still worth reviewing. */
  ghost predicate OpenAreUnsettled(jobOf: string -> Job, ctx: JournalContext, s: World) {
    s.run.Some? && SameCache(ctx, s.run.value.ctx) ==>
      forall u :: u in s.run.value.open ==> s.run.value.open[u] == 1 && !Settled(jobOf, ctx, s.entries, u)
  }

  /** A run of this cache begins with distinct jobs. */
  ghost predicate BeginsDistinct(ctx: JournalContext, event: Event) {
    event.Begin? && SameCache(ctx, event.ctx) ==> DistinctIds(event.jobs)
  }

  /** A step adds at most one entry. */
  lemma StepAdds(jobOf: string -> Job, s: World, event: Event, t: World)
    requires Happens(jobOf, s, event, t)
    ensures t.entries == s.entries
         || (t.entries != [] && t.entries[..|t.entries| - 1] == s.entries && s.entries + [t.entries[|t.entries| - 1]] == t.entries)
  {
    var added := t.entries[|s.entries|..];
    assert t.entries == s.entries + added;
    if added != [] {
      assert added == [added[0]];
    }
  }

  lemma DistinctAreOpenOnce(completed: map<string, JournalEntry>, jobs: seq<Job>, u: string)
    requires DistinctIds(jobs) && u in OpenUnits(completed, jobs)
    ensures OpenUnits(completed, jobs)[u] == 1
  {
    var pending, ids := PendingIndices(completed, jobs), PendingIds(completed, jobs);
    forall k, l | 0 <= k < l < |ids| ensures ids[k] != ids[l] {
      assert pending[k] < pending[l];
    }
    DistinctCounts(ids, u);
  }

  lemma BeginOpensUnsettled(jobOf: string -> Job, ctx: JournalContext, s: World, event: Event, t: World)
    requires event.Begin? && Happens(jobOf, s, event, t) && BeginsDistinct(ctx, event)
    ensures OpenAreUnsettled(jobOf, ctx, t)
  {
    if SameCache(ctx, event.ctx) {
      CompletedIgnoresScan(ctx, event.ctx, s.entries);
      var completed := Completed(ctx, s.entries);
      var pending, ids := PendingIndices(completed, event.jobs), PendingIds(completed, event.jobs);
      forall u | u in t.run.value.open ensures t.run.value.open[u] == 1 && !Settled(jobOf, ctx, t.entries, u) {
        var k :| 0 <= k < |ids| && ids[k] == u;
        assert pending[k] in pending;
        assert event.jobs[pending[k]] == jobOf(u);
        DistinctAreOpenOnce(completed, event.jobs, u);
      }
    }
  }

  lemma {:induction false} StepKeepsUnit(jobOf: string -> Job, ctx: JournalContext, s: World, event: Event, t: World, u: string)
    requires ctx.stage == Method && Happens(jobOf, s, event, t) && OpenAreUnsettled(jobOf, ctx, s)
    requires Settled(jobOf, ctx, s.entries, u)
    ensures Settled(jobOf, ctx, t.entries, u)
    ensures var before, after := Completed(ctx, s.entries)[u], Completed(ctx, t.entries)[u];
            before.verdict == after.verdict && before.methodRecord == after.methodRecord
  {
    StepAdds(jobOf, s, event, t);
    if t.entries != s.entries {
      var e := t.entries[|t.entries| - 1];
      if Matches(ctx, e, u) {
        assert event.Perform? && event.op.RecordResult? && event.op.unitId == u;
        CompletedIgnoresScan(ctx, s.run.value.ctx, s.entries);
        CompletedMatches(ctx, s.entries, u);
        assert Reused(jobOf, s, event.op, t);
      }
    }
  }

  lemma StepKeepsOpen(jobOf: string -> Job, ctx: JournalContext, s: World, event: Event, t: World)
    requires ctx.stage == Method && Happens(jobOf, s, event, t) && OpenAreUnsettled(jobOf, ctx, s)
    requires BeginsDistinct(ctx, event)
    ensures OpenAreUnsettled(jobOf, ctx, t)
  {
    if event.Begin? {
      BeginOpensUnsettled(jobOf, ctx, s, event, t);
    } else if t.run.Some? && SameCache(ctx, t.run.value.ctx) {
      StepAdds(jobOf, s, event, t);
      forall u | u in t.run.value.open ensures t.run.value.open[u] == 1 && !Settled(jobOf, ctx, t.entries, u) {
        assert u in s.run.value.open && !Settled(jobOf, ctx, s.entries, u);
        if t.entries != s.entries {
          assert !Matches(ctx, t.entries[|t.entries| - 1], u);
        }
      }
    }
  }

  /** One step of any run, a crash or a foreign write keeps every settled unit settled with
      the same review. */
  lemma {:induction false} StepKeepsSettled(jobOf: string -> Job, ctx: JournalContext, s: World, event: Event, t: World)
    requires ctx.stage == Method && Happens(jobOf, s, event, t) && OpenAreUnsettled(jobOf, ctx, s)
    requires BeginsDistinct(ctx, event)
    ensures OpenAreUnsettled(jobOf, ctx, t)
    ensures forall u :: Settled(jobOf, ctx, s.entries, u) ==>
              && Settled(jobOf, ctx, t.entries, u)
              && var before, after := Completed(ctx, s.entries)[u], Completed(ctx, t.entries)[u];
                 before.verdict == after.verdict && before.methodRecord == after.methodRecord
  {
    StepKeepsOpen(jobOf, ctx, s, event, t);
    forall u | Settled(jobOf, ctx, s.entries, u)
      ensures Settled(jobOf, ctx, t.entries, u)
      ensures Completed(ctx, s.entries)[u].verdict == Completed(ctx, t.entries)[u].verdict
      ensures Completed(ctx, s.entries)[u].methodRecord == Completed(ctx, t.entries)[u].methodRecord
    {
      StepKeepsUnit(jobOf, ctx, s, event, t, u);
    }
  }

  /** Every run of this cache begins with distinct jobs. */
  ghost predicate AllDistinct(ctx: JournalContext, events: seq<Event>) {
    forall k :: 0 <= k < |events| ==> BeginsDistinct(ctx, events[k])
  }

  lemma {:induction false} OpenStayUnsettled(
      jobOf: string -> Job, ctx: JournalContext, worlds: seq<World>, events: seq<Event>, k: nat)
    requires ctx.stage == Method && IsHistory(jobOf, worlds, events) && worlds[0].run.None? && k < |worlds|
    requires AllDistinct(ctx, events)
    ensures OpenAreUnsettled(jobOf, ctx, worlds[k])
  {
    if k > 0 {
      OpenStayUnsettled(jobOf, ctx, worlds, events, k - 1);
      assert StepAt(jobOf, worlds, events, k - 1) && BeginsDistinct(ctx, events[k - 1]);
      StepKeepsSettled(jobOf, ctx, worlds[k - 1], events[k - 1], worlds[k]);
    }
  }

  /** Over any history of runs with distinct jobs, crashes and foreign writes, a settled unit
      stays settled with the same verdict and record. */
  lemma {:induction false} SettledForever(
      jobOf: string -> Job, ctx: JournalContext, worlds: seq<World>, events: seq<Event>, i: nat, j: nat, u: string)
    requires ctx.stage == Method && IsHistory(jobOf, worlds, events) && worlds[0].run.None?
    requires AllDistinct(ctx, events)
    requires i <= j < |worlds| && Settled(jobOf, ctx, worlds[i].entries, u)
    ensures Settled(jobOf, ctx, worlds[j].entries, u)
    ensures Completed(ctx, worlds[j].entries)[u].verdict == Completed(ctx, worlds[i].entries)[u].verdict
    ensures Completed(ctx, worlds[j].entries)[u].methodRecord == Completed(ctx, worlds[i].entries)[u].methodRecord
  {
    if i < j {
      SettledForever(jobOf, ctx, worlds, events, i, j - 1, u);
      OpenStayUnsettled(jobOf, ctx, worlds, events, j - 1);
      assert StepAt(jobOf, worlds, events, j - 1) && BeginsDistinct(ctx, events[j - 1]);
      StepKeepsSettled(jobOf, ctx, worlds[j - 1], events[j - 1], worlds[j]);
    }
  }

  /** A settled unit is never queued again: no later run with the same review context,
      whatever its scan id and job list, has a job for it among its pending ones. */
  lemma SettledUnitsAreNeverPendingAgain(
      jobOf: string -> Job, ctx: JournalContext, worlds: seq<World>, events: seq<Event>, i: nat, k: nat,
      u: string, j: nat)
    requires ctx.stage == Method && IsHistory(jobOf, worlds, events) && worlds[0].run.None?
    requires AllDistinct(ctx, events)
    requires i <= k < |events| && Settled(jobOf, ctx, worlds[i].entries, u)
    requires events[k].Begin? && SameCache(ctx, events[k].ctx)
    requires j < |events[k].jobs| && events[k].jobs[j].unitId == u
    ensures j !in PendingIndices(Completed(events[k].ctx, worlds[k].entries), events[k].jobs)
    ensures worlds[k + 1].run.Some? && u !in worlds[k + 1].run.value.open
  {
    SettledForever(jobOf, ctx, worlds, events, i, k, u);
    assert StepAt(jobOf, worlds, events, k);
    CompletedIgnoresScan(ctx, events[k].ctx, worlds[k].entries);
    assert events[k].jobs[j] == jobOf(u);
    ReusableIsNotOpen(jobOf, Completed(events[k].ctx, worlds[k].entries), events[k].jobs, j);
  }

  /** Recording a review settles its unit exactly when it need not be retried and, for a
      file, there is a verdict. */
  lemma RecordingSettles(jobOf: string -> Job, s: World, op: Operation, t: World)
    requires Happens(jobOf, s, Perform(op), t) && op.RecordResult? && s.run.value.ctx.stage == Method
    requires Fresh(jobOf, s, op, t)
    ensures Settled(jobOf, s.run.value.ctx, t.entries, op.unitId)
       <==> !op.retryOnResume && (jobOf(op.unitId).MethodJob? || op.verdict.Some?)
  {
    StepAdds(jobOf, s, Perform(op), t);
  }

  // ---------------------------------------------------------------------
  // A repeated unit id
  // ---------------------------------------------------------------------

  /** Scans of one job list over a journal that was empty at first. */
  ghost predicate ScansOf(jobOf: string -> Job, jobs: seq<Job>, worlds: seq<World>, events: seq<Event>) {
    && IsHistory(jobOf, worlds, events) && worlds[0] == World([], None)
    && forall k :: 0 <= k < |events| && events[k].Begin? ==> events[k].jobs == jobs
  }

  /** In every history of scans of this list, what is settled stays settled. */
  ghost predicate KeepsSettled(jobOf: string -> Job, jobs: seq<Job>) {
    forall ctx: JournalContext, worlds: seq<World>, events: seq<Event>, i: nat, j: nat, u: string ::
      (&& ScansOf(jobOf, jobs, worlds, events) && ctx.stage == Method && i <= j < |worlds|
       && Settled(jobOf, ctx, worlds[i].entries, u)) ==> Settled(jobOf, ctx, worlds[j].entries, u)
  }

  function SampleVerdict(job: Job): Verdict {
    match job
    case MethodJob(_, _, name, filePath, loc, startLine, endLine) =>
      Verdict("method", filePath, Some(name), Clean, "", loc, startLine, endLine)
    case FileJob(_, _, filePath) => Verdict("file", filePath, None, Clean, "", 0, 0, 0)
  }

  function SampleRecord(job: Job): Option<MethodReviewRecord> {
    match job
    case MethodJob(unitId, sourceHash, name, filePath, loc, startLine, endLine) =>
      Some(MethodReviewRecord(unitId, sourceHash, filePath, name, loc, startLine, endLine, SampleVerdict(job)))
    case FileJob(_, _, _) => None
  }

  function SampleResult(job: Job, retry: bool): Operation {
    Operation.RecordResult(Method, job.unitId, job.sourceHash, Some(SampleVerdict(job)), SampleRecord(job), EMPTY_PAYLOAD,
                           0, 0, 0, retry)
  }

  lemma SampleIsReview(job: Job)
    ensures Reviews(job, Some(SampleVerdict(job)), SampleRecord(job))
  {
    if job.FileJob? {
      assert "file"[0] != "method"[0];
    }
  }

  lemma {:induction false} NothingIsReusable(jobs: seq<Job>)
    ensures PendingIds(map[], jobs) == seq(|jobs|, k requires 0 <= k < |jobs| => jobs[k].unitId)
  {
    var pending := PendingIndices(map[], jobs);
    if jobs != [] {
      var n := |jobs| - 1;
      NothingIsReusable(jobs[..n]);
      assert PendingIds(map[], jobs) == PendingIds(map[], jobs[..n]) + [jobs[n].unitId];
    }
  }

  lemma RepeatedIsOpenTwice(jobs: seq<Job>, i: nat, j: nat)
    requires i < j < |jobs| && jobs[i].unitId == jobs[j].unitId
    ensures OpenUnits(map[], jobs)[jobs[i].unitId] >= 2
  {
    NothingIsReusable(jobs);
    EqualsCountTwice(PendingIds(map[], jobs), i, j);
  }

  lemma RecordingSample(jobOf: string -> Job, s: World, u: string, retry: bool)
    returns (event: Event, t: World)
    requires s.run.Some? && s.run.value.ctx.stage == Method && u in s.run.value.open && jobOf(u).unitId == u
    ensures event.Perform? && Happens(jobOf, s, event, t)
    ensures t.run == Some(s.run.value.(open := s.run.value.open - multiset{u}))
    ensures Settled(jobOf, s.run.value.ctx, t.entries, u) <==> !retry
  {
    var run, op := s.run.value, SampleResult(jobOf(u), retry);
    SampleIsReview(jobOf(u));
    event, t := Perform(op), World(s.entries + AppendedBy(run.ctx, run.rates, op), Some(run.(open := run.open - multiset{u})));
    assert Fresh(jobOf, s, op, t);
    RecordingSettles(jobOf, s, op, t);
  }

  lemma BeginEmpty(jobOf: string -> Job, ctx: JournalContext, rates: PricingRates, jobs: seq<Job>,
                   u: string, i: nat, j: nat) returns (t: World)
    requires ctx.stage == Method && Identified(jobOf, jobs) && i < j < |jobs| && jobs[i].unitId == jobs[j].unitId == u
    ensures Happens(jobOf, World([], None), Begin(ctx, rates, jobs), t)
    ensures t.run.Some? && t.run.value.ctx == ctx && t.run.value.open[u] >= 2
  {
    RepeatedIsOpenTwice(jobs, i, j);
    t := World([], Some(ActiveRun(ctx, rates, OpenUnits(map[], jobs))));
  }

  lemma ThreeSteps(jobOf: string -> Job, a: World, e: Event, b: World, f: Event, c: World, g: Event, d: World)
    returns (worlds: seq<World>, events: seq<Event>)
    requires Happens(jobOf, a, e, b) && Happens(jobOf, b, f, c) && Happens(jobOf, c, g, d)
    requires a == World([], None) && e.Begin? && f.Perform? && g.Perform?
    ensures ScansOf(jobOf, e.jobs, worlds, events) && |worlds| == 4 && worlds[2] == c && worlds[3] == d
  {
    worlds, events := [a, b, c, d], [e, f, g];
    forall k | 0 <= k < 3 ensures StepAt(jobOf, worlds, events, k) {
    }
  }

  /** A list that repeats a unit id can have its first result replaced by one to retry. */
  lemma RepeatedIdUnsettles(jobOf: string -> Job, ctx: JournalContext, rates: PricingRates,
                            jobs: seq<Job>, i: nat, j: nat)
    returns (worlds: seq<World>, events: seq<Event>)
    requires ctx.stage == Method && Identified(jobOf, jobs) && i < j < |jobs| && jobs[i].unitId == jobs[j].unitId
    ensures ScansOf(jobOf, jobs, worlds, events) && |worlds| == 4
    ensures Settled(jobOf, ctx, worlds[2].entries, jobs[i].unitId) && !Settled(jobOf, ctx, worlds[3].entries, jobs[i].unitId)
  {
    var u, start := jobs[i].unitId, World([], None);
    assert jobs[i] == jobOf(u);
    var begun := BeginEmpty(jobOf, ctx, rates, jobs, u, i, j);
    var begin := Begin(ctx, rates, jobs);
    var first, once := RecordingSample(jobOf, begun, u, false);
    var second, twice := RecordingSample(jobOf, once, u, true);
    worlds, events := ThreeSteps(jobOf, start, begin, begun, first, once, second, twice);
  }

  /** What is settled stays settled in all scans of a job list exactly when the list does not
      repeat a unit id. */
  lemma SettledForeverExactlyWhen(jobOf: string -> Job, jobs: seq<Job>)
    requires Identified(jobOf, jobs)
    ensures KeepsSettled(jobOf, jobs) <==> DistinctIds(jobs)
  {
    if DistinctIds(jobs) {
      forall ctx: JournalContext, worlds: seq<World>, events: seq<Event>, i: nat, j: nat, u: string |
        ScansOf(jobOf, jobs, worlds, events) && ctx.stage == Method && i <= j < |worlds|
        && Settled(jobOf, ctx, worlds[i].entries, u)
        ensures Settled(jobOf, ctx, worlds[j].entries, u)
      {
        SettledForever(jobOf, ctx, worlds, events, i, j, u);
      }
    } else {
      var i, j :| 0 <= i < j < |jobs| && jobs[i].unitId == jobs[j].unitId;
      var ctx := JournalContext("", Method, "", "", |jobs|);
      var worlds, events := RepeatedIdUnsettles(jobOf, ctx, PricingRates(0, 0, 0), jobs, i, j);
    }
  }

  // ---------------------------------------------------------------------
  // Crashes
  // ---------------------------------------------------------------------

  /** A crash at any byte of an append is the `Stop` step, before or after the entry, and
      the next scan reads exactly the entries of the world it leaves. */
  lemma CrashIsAStop(
      codec: Codec<JournalEntry>, jobOf: string -> Job, s: World, event: Event, t: World, e: JournalEntry,
      disk: Disk<JournalEntry>, cut: nat, crashed: Disk<JournalEntry>)
    requires Faithful(codec) && Consistent(codec, disk) && disk.durable == s.entries
    requires Happens(jobOf, s, event, t) && t.entries == s.entries + [e]
    requires JournalFile.Happens(codec, disk, JournalFile.Crash(e, cut), crashed)
    ensures var at := if cut == |Line(codec, e)| then t else s;
            && Happens(jobOf, at, Stop, World(crashed.durable, None))
            && ReadResult(codec, crashed.bytes) == Success(crashed.durable)
            && Consistent(codec, crashed)
  {
    EventKeepsConsistent(codec, disk, JournalFile.Crash(e, cut), crashed);
    assert JournalFile.Runs(codec, [], crashed, crashed);
    CrashSafety(codec, [], crashed, crashed);
  }

  // ---------------------------------------------------------------------
  // What the journal holds
  // ---------------------------------------------------------------------

  ghost predicate HoldsReview(jobOf: string -> Job, e: JournalEntry) {
    e.stage == Method && !e.isManifest ==> Reviews(jobOf(e.unitId), e.verdict, e.methodRecord)
  }

  /** Every method-stage result in the journal is a review of its unit. */
  ghost predicate AllReviews(jobOf: string -> Job, entries: seq<JournalEntry>) {
    forall k :: 0 <= k < |entries| ==> HoldsReview(jobOf, entries[k])
  }

  lemma {:induction false} CompletedAreReviews(jobOf: string -> Job, ctx: JournalContext, entries: seq<JournalEntry>, unitId: string)
    requires ctx.stage == Method && AllReviews(jobOf, entries) && unitId in Completed(ctx, entries)
    ensures var e := Completed(ctx, entries)[unitId];
            e.unitId == unitId && Reviews(jobOf(unitId), e.verdict, e.methodRecord)
  {
    CompletedIsTheLastMatch(ctx, entries, unitId);
    var k: nat :| IsLastMatch(ctx, entries, unitId, k);
    assert HoldsReview(jobOf, entries[k]);
  }

  lemma StepKeepsReviews(jobOf: string -> Job, s: World, event: Event, t: World)
    requires Happens(jobOf, s, event, t) && AllReviews(jobOf, s.entries)
    ensures AllReviews(jobOf, t.entries)
  {
    StepAdds(jobOf, s, event, t);
    if t.entries != s.entries {
      var e := t.entries[|t.entries| - 1];
      if event.Perform? && event.op.RecordResult? && Reused(jobOf, s, event.op, t) {
        if s.run.value.ctx.stage == Method {
          CompletedAreReviews(jobOf, s.run.value.ctx, s.entries, event.op.unitId);
        }
      }
      assert HoldsReview(jobOf, e);
      forall k | 0 <= k < |t.entries| ensures HoldsReview(jobOf, t.entries[k]) {
        assert k < |s.entries| ==> t.entries[k] == s.entries[k];
      }
    }
  }

  /** Over any history of runs and crashes the journal only ever holds reviews. */
  lemma {:induction false} OnlyReviewsAreHeld(jobOf: string -> Job, worlds: seq<World>, events: seq<Event>, k: nat)
    requires IsHistory(jobOf, worlds, events) && AllReviews(jobOf, worlds[0].entries) && k < |worlds|
    ensures AllReviews(jobOf, worlds[k].entries)
  {
    if k > 0 {
      OnlyReviewsAreHeld(jobOf, worlds, events, k - 1);
      assert StepAt(jobOf, worlds, events, k - 1);
      StepKeepsReviews(jobOf, worlds[k - 1], events[k - 1], worlds[k]);
    }
  }
}
