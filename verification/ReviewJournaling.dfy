/** What a scan writes while its units run. */
module ReviewJournaling {
  import opened Wrappers
  import opened Sequences
  import opened JournalStore
  import opened ReviewResume
  import opened ReviewResult
  import opened ReviewRun
  import S = ReviewScheduler
  import W = BatchWorklist

  // The item callback runs inside units, the scheduler's callback when a unit ends, and the
  // usage callback at any time (src/analyzer_engine_jobs.rs). Whatever the order, their
  // writes are steps of the protocol in `ReviewResume`.

  // ---------------------------------------------------------------------
  // Writes as steps
  // ---------------------------------------------------------------------

  /** A usage event, or the review of the unit that is recorded. */
  ghost predicate MayWrite(jobOf: string -> Job, op: Operation) {
    match op
    case RecordResult(stage, unitId, sourceHash, verdict, methodRecord, _, _, _, _, _) =>
      stage == Method && sourceHash == jobOf(unitId).sourceHash && Reviews(jobOf(unitId), verdict, methodRecord)
    case RecordUsage(_, _, _, _) => true
    case RecordCrossScanReuse(_, _) => false
  }

  ghost predicate AllMayWrite(jobOf: string -> Job, ops: seq<Operation>) {
    forall i :: 0 <= i < |ops| ==> MayWrite(jobOf, ops[i])
  }

  function IdsOf(op: Operation): multiset<string> {
    if op.RecordResult? then multiset{op.unitId} else multiset{}
  }

  function RecordedIds(ops: seq<Operation>): multiset<string> {
    if ops == [] then multiset{} else IdsOf(ops[0]) + RecordedIds(ops[1..])
  }

  function After(run: ActiveRun, entries: seq<JournalEntry>, ops: seq<Operation>): World {
    World(entries + AppendedByAll(run.ctx, run.rates, ops), Some(run.(open := run.open - RecordedIds(ops))))
  }

  lemma WriteHappens(jobOf: string -> Job, run: ActiveRun, entries: seq<JournalEntry>, op: Operation)
    requires run.ctx.stage == Method && MayWrite(jobOf, op) && IdsOf(op) <= run.open
    ensures Happens(jobOf, World(entries, Some(run)), Perform(op),
                    World(entries + AppendedBy(run.ctx, run.rates, op), Some(run.(open := run.open - IdsOf(op)))))
  {
    if op.RecordResult? {
      assert op.unitId in IdsOf(op);
    } else {
      assert run.open - multiset{} == run.open;
    }
  }

  lemma AfterFirst(run: ActiveRun, entries: seq<JournalEntry>, ops: seq<Operation>)
    requires ops != []
    ensures After(run, entries, ops)
         == After(run.(open := run.open - IdsOf(ops[0])), entries + AppendedBy(run.ctx, run.rates, ops[0]), ops[1..])
  {
    Assoc(entries, AppendedBy(run.ctx, run.rates, ops[0]), AppendedByAll(run.ctx, run.rates, ops[1..]), []);
    assert run.open - RecordedIds(ops) == run.open - IdsOf(ops[0]) - RecordedIds(ops[1..]);
  }

  /** Any sequence of such writes that records no unit more often than it is open is a history. */
  lemma {:induction false} WritesAreAHistory(jobOf: string -> Job, run: ActiveRun, entries: seq<JournalEntry>, ops: seq<Operation>)
    returns (worlds: seq<World>, events: seq<Event>)
    requires run.ctx.stage == Method && AllMayWrite(jobOf, ops) && RecordedIds(ops) <= run.open
    ensures Leads(jobOf, worlds, events, World(entries, Some(run)), After(run, entries, ops))
    decreases |ops|
  {
    var s := World(entries, Some(run));
    if ops == [] {
      worlds, events := [s], [];
      NothingHappens(jobOf, s);
      assert entries + [] == entries && run.open - multiset{} == run.open;
    } else {
      var left, more := run.(open := run.open - IdsOf(ops[0])), entries + AppendedBy(run.ctx, run.rates, ops[0]);
      WriteHappens(jobOf, run, entries, ops[0]);
      NothingHappens(jobOf, s);
      OneMore(jobOf, [s], [], s, s, Perform(ops[0]), World(more, Some(left)));
      var ws, es := WritesAreAHistory(jobOf, left, more, ops[1..]);
      AfterFirst(run, entries, ops);
      LeadsOn(jobOf, [s] + [World(more, Some(left))], [] + [Perform(ops[0])], s, World(more, Some(left)), ws, es, After(run, entries, ops));
      worlds, events := [s] + [World(more, Some(left))] + ws[1..], [] + [Perform(ops[0])] + es;
    }
  }

  // ---------------------------------------------------------------------
  // The writes of a scan
  // ---------------------------------------------------------------------

  /** The write that reports an outcome of a unit, with the tokens charged to it. */
  function ReportOf<R>(judges: Judges<R>, job: Job, o: W.Outcome<R>, inTok: nat, outTok: nat, cachedInTok: nat): Operation {
    var outcome := OutcomeFrom(judges, job, o);
    Operation.RecordResult(Method, o.key, job.sourceHash, outcome.verdict, outcome.methodRecord, EMPTY_PAYLOAD,
                           inTok, outTok, cachedInTok, outcome.retryOnResume)
  }

  /** A report of an outcome may be written, under the key of its entry. */
  lemma ReportsMayBeWritten<R>(
      jobOf: string -> Job, judges: Judges<R>, jobs: seq<Job>, e: W.Entry, o: W.Outcome<R>, inTok: nat, outTok: nat, cachedInTok: nat)
    requires Identified(jobOf, jobs) && StandsFor(jobs, e) && o.key == e.key && o.index == e.job.index
    ensures var op := ReportOf(judges, jobs[e.job.index], o, inTok, outTok, cachedInTok);
            MayWrite(jobOf, op) && IdsOf(op) == multiset{e.key}
  {
    assert jobs[e.job.index] == jobOf(e.key);
    OutcomesAreReviews(judges, jobs, e, o);
  }

  /** A method's reported outcome settles its unit exactly when it is not to be retried: the
      unresolved verdict of a batch that was given up, and any other review to be retried, is
      queued again by the next scan of the same cache. */
  lemma ReportsSettleUnlessRetried<R>(
      jobOf: string -> Job, judges: Judges<R>, o: W.Outcome<R>, inTok: nat, outTok: nat, cachedInTok: nat, s: World, t: World)
    requires jobOf(o.key).MethodJob? && jobOf(o.key).unitId == o.key && s.run.Some? && s.run.value.ctx.stage == Method
    requires o.key in s.run.value.open
    requires Happens(jobOf, s, Perform(ReportOf(judges, jobOf(o.key), o, inTok, outTok, cachedInTok)), t)
    ensures Settled(jobOf, s.run.value.ctx, t.entries, o.key) <==> !o.retryOnResume
  {
    var op := ReportOf(judges, jobOf(o.key), o, inTok, outTok, cachedInTok);
    assert Fresh(jobOf, s, op, t);
    RecordingSettles(jobOf, s, op, t);
  }

  /** A unit that is not settled is queued by every scan of the same cache that has a job for it. */
  lemma UnsettledIsQueued(jobOf: string -> Job, ctx: JournalContext, entries: seq<JournalEntry>, next: JournalContext,
                          jobs: seq<Job>, j: nat)
    requires SameCache(ctx, next) && Identified(jobOf, jobs) && j < |jobs|
    ensures j in PendingIndices(Completed(next, entries), jobs) <==> !Settled(jobOf, ctx, entries, jobs[j].unitId)
  {
    CompletedIgnoresScan(ctx, next, entries);
    assert jobs[j] == jobOf(jobs[j].unitId);
  }

  /** A unit that has started, and the keys written for it so far. */
  datatype Written = Written(unit: S.ReviewUnit, keys: multiset<string>)

  function UnitKeys(unitOf: S.ReviewUnit -> seq<W.Entry>, unit: S.ReviewUnit): multiset<string> {
    multiset(W.EntryKeys(unitOf(unit)))
  }

  function KeysOfUnits(unitOf: S.ReviewUnit -> seq<W.Entry>, units: seq<S.ReviewUnit>): multiset<string> {
    if units == [] then multiset{} else UnitKeys(unitOf, units[0]) + KeysOfUnits(unitOf, units[1..])
  }

  function WrittenKeys(written: seq<Written>): multiset<string> {
    if written == [] then multiset{} else written[0].keys + WrittenKeys(written[1..])
  }

  function WrittenUnits(written: seq<Written>): seq<S.ReviewUnit> {
    if written == [] then [] else [written[0].unit] + WrittenUnits(written[1..])
  }

  lemma {:induction false} WrittenWithinUnits(unitOf: S.ReviewUnit -> seq<W.Entry>, written: seq<Written>)
    requires forall i :: 0 <= i < |written| ==> written[i].keys <= UnitKeys(unitOf, written[i].unit)
    ensures WrittenKeys(written) <= KeysOfUnits(unitOf, WrittenUnits(written))
  {
    if written != [] {
      WrittenWithinUnits(unitOf, written[1..]);
      assert WrittenUnits(written)[1..] == WrittenUnits(written[1..]);
    }
  }

  lemma {:induction false} KeysWithout(unitOf: S.ReviewUnit -> seq<W.Entry>, units: seq<S.ReviewUnit>, k: nat)
    requires k < |units|
    ensures KeysOfUnits(unitOf, units) == UnitKeys(unitOf, units[k]) + KeysOfUnits(unitOf, units[..k] + units[k + 1..])
  {
    var left := units[..k] + units[k + 1..];
    if k == 0 {
      assert left == units[1..];
    } else {
      KeysWithout(unitOf, units[1..], k - 1);
      assert left[0] == units[0] && left[1..] == units[1..][..k - 1] + units[1..][k..];
    }
  }

  /** Fewer units hold fewer keys, in whatever order. */
  lemma {:induction false} SomeUnitsHoldLess(unitOf: S.ReviewUnit -> seq<W.Entry>, some: seq<S.ReviewUnit>, all: seq<S.ReviewUnit>)
    requires multiset(some) <= multiset(all)
    ensures KeysOfUnits(unitOf, some) <= KeysOfUnits(unitOf, all)
    decreases |some|
  {
    if some != [] {
      assert some[0] in multiset(all);
      var k :| 0 <= k < |all| && all[k] == some[0];
      WithoutCounts(some, 0);
      assert some[..0] + some[1..] == some[1..];
      WithoutCounts(all, k);
      SomeUnitsHoldLess(unitOf, some[1..], all[..k] + all[k + 1..]);
      KeysWithout(unitOf, all, k);
    }
  }

  lemma {:induction false} KeysOfFlat(unitOf: S.ReviewUnit -> seq<W.Entry>, units: seq<S.ReviewUnit>)
    ensures KeysOfUnits(unitOf, units) == multiset(W.EntryKeys(Flatten(Map(unitOf, units))))
  {
    if units != [] {
      KeysOfFlat(unitOf, units[1..]);
      FlattenCons(unitOf(units[0]), Map(unitOf, units[1..]));
      var first, rest := unitOf(units[0]), Flatten(Map(unitOf, units[1..]));
      assert W.EntryKeys(first + rest) == W.EntryKeys(first) + W.EntryKeys(rest);
    }
  }

  /** The queue holds exactly the open units. */
  lemma {:induction false} QueueIsOpen(completed: map<string, JournalEntry>, jobs: seq<Job>, entries: seq<W.Entry>)
    requires Queues(jobs, PendingIndices(completed, jobs), entries)
    ensures multiset(W.EntryKeys(entries)) == OpenUnits(completed, jobs)
  {
    var pending := PendingIndices(completed, jobs);
    assert |entries| == |Positions(entries)| == |pending|;
    forall i | 0 <= i < |entries| ensures entries[i].key == jobs[pending[i]].unitId {
      assert StandsFor(jobs, entries[i]) && Positions(entries)[i] == pending[i];
    }
    assert W.EntryKeys(entries) == PendingIds(completed, jobs);
  }

  /** The units that have left the queue, whatever became of them. */
  function Started<R>(s: S.State<R>): seq<S.ReviewUnit> {
    S.Units(s.active) + S.FinishedUnits(s.handed) + s.failed + s.leaked + s.abandoned
  }

  lemma StartedAreInput<R(!new)>(
      c: S.Config, input: seq<S.ReviewUnit>, spent: real, run: seq<S.State<R>>, n: nat)
    requires c.unitCap >= 0.0 && S.IsRunFrom(c, input, spent, run) && n < |run|
    ensures multiset(Started(run[n])) <= multiset(input)
  {
    S.RunKeeps(c, input, spent, run, n);
    assert S.Conserved(input, run[n]);
  }

  /** At any moment of a scan, whatever its callbacks have written and in whatever order, the
      writes are a history of steps on open units: the run begun over the jobs leads to the
      journal with all of them, and what is not recorded is still open. */
  lemma ScanWritesAreAHistory<R(!new)>(
      jobOf: string -> Job, ctx: JournalContext, rates: PricingRates, entries: seq<JournalEntry>,
      completed: map<string, JournalEntry>, jobs: seq<Job>, unitOf: S.ReviewUnit -> seq<W.Entry>,
      c: S.Config, input: seq<S.ReviewUnit>, spent: real, run: seq<S.State<R>>, n: nat,
      written: seq<Written>, ops: seq<Operation>)
    returns (worlds: seq<World>, events: seq<Event>)
    requires ctx.stage == Method
    requires c.unitCap >= 0.0 && S.IsRunFrom(c, input, spent, run) && n < |run|
    requires Queues(jobs, PendingIndices(completed, jobs), Flatten(Map(unitOf, input)))
    requires multiset(WrittenUnits(written)) == multiset(Started(run[n]))
    requires forall i :: 0 <= i < |written| ==> written[i].keys <= UnitKeys(unitOf, written[i].unit)
    requires AllMayWrite(jobOf, ops) && RecordedIds(ops) == WrittenKeys(written)
    ensures Leads(jobOf, worlds, events, InRun(entries, ctx, rates, completed, jobs),
                  After(ActiveRun(ctx, rates, OpenUnits(completed, jobs)), entries, ops))
  {
    StartedAreInput(c, input, spent, run, n);
    WrittenWithinUnits(unitOf, written);
    SomeUnitsHoldLess(unitOf, WrittenUnits(written), input);
    KeysOfFlat(unitOf, input);
    QueueIsOpen(completed, jobs, Flatten(Map(unitOf, input)));
    worlds, events := WritesAreAHistory(jobOf, ActiveRun(ctx, rates, OpenUnits(completed, jobs)), entries, ops);
  }
}
