/** Running one review unit. */
module BatchWorklist {
  import opened Wrappers

  // The worklist that halves failing method batches (`run_review_unit_untracked` in
  // src/analyzer_engine_jobs.rs, with the completion loop of
  // `analyze_method_review_batch` in src/analyzer_method_batch.rs).

  datatype MethodItem = MethodItem(filePath: string, name: string, source: string)

  datatype Job =
    | MethodJob(index: nat, item: MethodItem)
    | FileJob(index: nat, path: string)

  /** One job of a unit, under its journal key. */
  datatype Entry = Entry(key: string, job: Job)

  /** A queued batch: three parallel lists, split in step. */
  datatype Batch = Batch(keys: seq<string>, indices: seq<nat>, methods: seq<MethodItem>) {
    predicate Aligned() {
      |keys| == |indices| == |methods|
    }

    function Entries(): seq<Entry>
      requires Aligned()
    {
      seq(|keys|, i requires 0 <= i < |keys| => Entry(keys[i], MethodJob(indices[i], methods[i])))
    }
  }

  /** What the model pipeline says about one method in one call: a review, or the error
      that ends the call at this item. Both may differ from call to call and from position
      to position. */
  datatype ItemReply<R> = Reviewed(review: R) | ItemFailed(error: string)

  /** The surroundings, all arbitrary: `prepare` may fail a whole call before its first item. */
  datatype Oracle<!R> = Oracle(
    prepare: nat -> Option<string>,
    reply: (nat, nat, MethodItem) -> ItemReply<R>,
    reviewFile: string -> Result<R, string>,
    recoverable: string -> bool,
    retryLater: R -> bool)

  /** `review` is None for the explicit unresolved verdict. */
  datatype Outcome<R> = Outcome(key: string, index: nat, review: Option<R>, retryOnResume: bool, persisted: bool)

  /** A journaled item: what the per-item callback was given. */
  datatype Journaled<R> = Journaled(key: string, index: nat, review: R)

  // ---------------------------------------------------------------------
  // One call
  // ---------------------------------------------------------------------

  datatype Answer<R> = Answer(reviews: seq<R>, error: Option<string>)

  /** The reviews of a call stand at the positions of the items they answer. */
  ghost predicate AnswersInOrder<R>(o: Oracle<R>, call: nat, methods: seq<MethodItem>, reviews: seq<R>) {
    && |reviews| <= |methods|
    && forall i :: 0 <= i < |reviews| ==> o.reply(call, i, methods[i]) == Reviewed(reviews[i])
  }

  const EMPTY_BATCH := "method review batch is empty"

  /** What a call answers: nothing when it cannot be prepared; otherwise the replies up to the
      first that fails, whose error ends the call. */
  ghost predicate AnswerIs<R>(o: Oracle<R>, call: nat, methods: seq<MethodItem>, a: Answer<R>) {
    if methods == [] then a == Answer([], Some(EMPTY_BATCH))
    else if o.prepare(call).Some? then a == Answer([], o.prepare(call))
    else
      && AnswersInOrder(o, call, methods, a.reviews)
      && match a.error
         case None => |a.reviews| == |methods|
         case Some(error) =>
           |a.reviews| < |methods| && o.reply(call, |a.reviews|, methods[|a.reviews|]) == ItemFailed(error)
  }

  function JournalOf<R>(batch: Batch, reviews: seq<R>): seq<Journaled<R>>
    requires batch.Aligned() && |reviews| <= |batch.keys|
  {
    seq(|reviews|, i requires 0 <= i < |reviews| => Journaled(batch.keys[i], batch.indices[i], reviews[i]))
  }

  /** The completion loop: items complete in order, each is journaled as it completes, and
      an error keeps the items before it. */
  method AnalyzeBatch<R>(o: Oracle<R>, call: nat, batch: Batch, tracked: bool, journal: seq<Journaled<R>>)
    returns (answer: Answer<R>, journal': seq<Journaled<R>>)
    requires batch.Aligned()
    ensures AnswerIs(o, call, batch.methods, answer) && AnswersInOrder(o, call, batch.methods, answer.reviews)
    ensures answer.error.None? ==> |answer.reviews| == |batch.methods| && batch.methods != []
    ensures journal' == if tracked then journal + JournalOf(batch, answer.reviews) else journal
  {
    journal' := journal;
    assert journal + [] == journal;
    if batch.methods == [] {
      return Answer([], Some(EMPTY_BATCH)), journal';
    }
    var failure := o.prepare(call);
    if failure.Some? {
      return Answer([], failure), journal';
    }
    var reviews: seq<R> := [];
    for n := 0 to |batch.methods|
      invariant |reviews| == n && AnswersInOrder(o, call, batch.methods, reviews)
      invariant journal' == if tracked then journal + JournalOf(batch, reviews) else journal
    {
      match o.reply(call, n, batch.methods[n]) {
        case ItemFailed(error) =>
          return Answer(reviews, Some(error)), journal';
        case Reviewed(review) =>
          if tracked {
            journal' := journal' + [Journaled(batch.keys[n], batch.indices[n], review)];
          }
          reviews := reviews + [review];
      }
    }
    return Answer(reviews, None), journal';
  }

  // ---------------------------------------------------------------------
  // The worklist
  // ---------------------------------------------------------------------

  function Queued(pending: seq<Batch>): seq<Entry>
    requires forall b :: 0 <= b < |pending| ==> pending[b].Aligned()
  {
    if pending == [] then [] else pending[0].Entries() + Queued(pending[1..])
  }

  /** Termination measure, and how many calls the queue can still cause. */
  function Weight(pending: seq<Batch>): nat {
    if pending == [] then 0
    else (if |pending[0].methods| == 0 then 1 else 2 * |pending[0].methods| - 1) + Weight(pending[1..])
  }

  /** Some call gave this review for this method. */
  ghost predicate Replied<R>(o: Oracle<R>, item: MethodItem, review: R) {
    exists call: nat, position: nat :: o.reply(call, position, item) == Reviewed(review)
  }

  /** Where a resolved outcome's review came from: a reply about its own method. */
  ghost predicate OutcomeFor<R>(o: Oracle<R>, entry: Entry, outcome: Outcome<R>) {
    && entry.job.MethodJob?
    && outcome.key == entry.key && outcome.index == entry.job.index
    && match outcome.review
       case Some(review) =>
         && Replied(o, entry.job.item, review)
         && outcome.retryOnResume == o.retryLater(review)
       case None => outcome.retryOnResume && !outcome.persisted
  }

  ghost predicate OutcomesFor<R>(o: Oracle<R>, entries: seq<Entry>, outcomes: seq<Outcome<R>>) {
    && |outcomes| == |entries|
    && forall i :: 0 <= i < |entries| ==> OutcomeFor(o, entries[i], outcomes[i])
  }

  /** The outcomes already journaled by the per-item callback, in order. */
  function PersistedOf<R>(outcomes: seq<Outcome<R>>): seq<Journaled<R>> {
    if outcomes == [] then []
    else
      var last := outcomes[|outcomes| - 1];
      PersistedOf(outcomes[..|outcomes| - 1])
      + if last.persisted && last.review.Some? then [Journaled(last.key, last.index, last.review.value)] else []
  }

  lemma {:induction false} PersistedConcat<R>(a: seq<Outcome<R>>, b: seq<Outcome<R>>)
    ensures PersistedOf(a + b) == PersistedOf(a) + PersistedOf(b)
  {
    if b == [] {
      assert a + b == a;
    } else {
      assert (a + b)[..|a + b| - 1] == a + b[..|b| - 1];
      PersistedConcat(a, b[..|b| - 1]);
    }
  }

  function Completed<R>(o: Oracle<R>, batch: Batch, reviews: seq<R>, tracked: bool): seq<Outcome<R>>
    requires batch.Aligned() && |reviews| == |batch.keys|
  {
    seq(|reviews|, i requires 0 <= i < |reviews| =>
      Outcome(batch.keys[i], batch.indices[i], Some(reviews[i]), o.retryLater(reviews[i]), tracked))
  }

  /** `unresolved_batch_outcomes`. */
  function UnresolvedBatchOutcomes<R>(batch: Batch): seq<Outcome<R>>
    requires batch.Aligned()
  {
    seq(|batch.keys|, i requires 0 <= i < |batch.keys| => Outcome(batch.keys[i], batch.indices[i], None, true, false))
  }

  lemma {:induction false} PersistedCompleted<R>(o: Oracle<R>, batch: Batch, reviews: seq<R>, tracked: bool)
    requires batch.Aligned() && |reviews| == |batch.keys|
    ensures PersistedOf(Completed(o, batch, reviews, tracked)) == if tracked then JournalOf(batch, reviews) else []
    decreases |reviews|
  {
    if reviews != [] {
      var n := |reviews| - 1;
      var shorter := Batch(batch.keys[..n], batch.indices[..n], batch.methods[..n]);
      PersistedCompleted(o, shorter, reviews[..n], tracked);
      assert Completed(o, batch, reviews, tracked)[..n] == Completed(o, shorter, reviews[..n], tracked);
    }
  }

  lemma {:induction false} PersistedUnresolved<R>(outcomes: seq<Outcome<R>>)
    requires forall i :: 0 <= i < |outcomes| ==> !outcomes[i].persisted
    ensures PersistedOf(outcomes) == []
  {
    if outcomes != [] {
      PersistedUnresolved(outcomes[..|outcomes| - 1]);
    }
  }

  /** The queue's state: results so far, then the queue, are the unit's entries in order. */
  ghost predicate Working<R>(o: Oracle<R>, entries: seq<Entry>, completed: seq<Outcome<R>>, pending: seq<Batch>,
                             journal: seq<Journaled<R>>)
  {
    && (forall b :: 0 <= b < |pending| ==> pending[b].Aligned())
    && |completed| <= |entries|
    && OutcomesFor(o, entries[..|completed|], completed)
    && entries[|completed|..] == Queued(pending)
    && journal == PersistedOf(completed)
  }

  lemma OutcomesConcat<R>(o: Oracle<R>, a: seq<Entry>, done: seq<Outcome<R>>, b: seq<Entry>, more: seq<Outcome<R>>)
    requires OutcomesFor(o, a, done) && OutcomesFor(o, b, more)
    ensures OutcomesFor(o, a + b, done + more)
  {
    forall i | 0 <= i < |a + b| ensures OutcomeFor(o, (a + b)[i], (done + more)[i]) {
      if i < |a| {
        assert OutcomeFor(o, a[i], done[i]);
      } else {
        assert OutcomeFor(o, b[i - |a|], more[i - |a|]);
      }
    }
  }

  lemma CutEntries(entries: seq<Entry>, n: nat, first: seq<Entry>, rest: seq<Entry>)
    requires n <= |entries| && entries[n..] == first + rest
    ensures n + |first| <= |entries|
    ensures entries[..n + |first|] == entries[..n] + first && entries[n + |first|..] == rest
  {
    assert entries == entries[..n] + (first + rest);
    assert entries == entries[..n] + first + rest;
  }

  lemma {:induction false} Advance<R>(o: Oracle<R>, entries: seq<Entry>, completed: seq<Outcome<R>>, pending: seq<Batch>,
                                      journal: seq<Journaled<R>>, more: seq<Outcome<R>>)
    requires pending != [] && Working(o, entries, completed, pending, journal)
    requires OutcomesFor(o, pending[0].Entries(), more)
    ensures Working(o, entries, completed + more, pending[1..], journal + PersistedOf(more))
  {
    var first := pending[0].Entries();
    CutEntries(entries, |completed|, first, Queued(pending[1..]));
    OutcomesConcat(o, entries[..|completed|], completed, first, more);
    PersistedConcat(completed, more);
  }

  function SplitLeft(batch: Batch): Batch
    requires batch.Aligned()
  {
    var at := |batch.methods| / 2;
    Batch(batch.keys[..at], batch.indices[..at], batch.methods[..at])
  }

  function SplitRight(batch: Batch): Batch
    requires batch.Aligned()
  {
    var at := |batch.methods| / 2;
    Batch(batch.keys[at..], batch.indices[at..], batch.methods[at..])
  }

  lemma {:induction false} QueuedCons(batch: Batch, rest: seq<Batch>)
    requires batch.Aligned() && (forall b :: 0 <= b < |rest| ==> rest[b].Aligned())
    ensures forall b :: 0 <= b < |[batch] + rest| ==> ([batch] + rest)[b].Aligned()
    ensures Queued([batch] + rest) == batch.Entries() + Queued(rest)
    ensures Weight([batch] + rest) == Weight([batch]) + Weight(rest)
  {
    assert ([batch] + rest)[1..] == rest;
    assert [batch][1..] == [];
  }

  lemma WeightOfOne(batch: Batch)
    ensures Weight([batch]) == if |batch.methods| == 0 then 1 else 2 * |batch.methods| - 1
  {
    assert [batch][1..] == [];
  }

  lemma EntriesSplit(batch: Batch)
    requires batch.Aligned()
    ensures SplitLeft(batch).Entries() + SplitRight(batch).Entries() == batch.Entries()
  {
  }

  lemma {:induction false} SplitQueued(batch: Batch, rest: seq<Batch>)
    requires batch.Aligned() && (forall b :: 0 <= b < |rest| ==> rest[b].Aligned())
    ensures var split := [SplitLeft(batch)] + ([SplitRight(batch)] + rest);
            && (forall b :: 0 <= b < |split| ==> split[b].Aligned())
            && Queued(split) == batch.Entries() + Queued(rest)
            && Weight(split) == Weight([SplitLeft(batch)]) + (Weight([SplitRight(batch)]) + Weight(rest))
  {
    var left, right := SplitLeft(batch), SplitRight(batch);
    QueuedCons(right, rest);
    QueuedCons(left, [right] + rest);
    EntriesSplit(batch);
    assert left.Entries() + (right.Entries() + Queued(rest)) == left.Entries() + right.Entries() + Queued(rest);
  }

  lemma SplitWeight(batch: Batch)
    requires batch.Aligned() && |batch.methods| > 1
    ensures Weight([SplitLeft(batch)]) + Weight([SplitRight(batch)]) < Weight([batch])
  {
    WeightOfOne(SplitLeft(batch));
    WeightOfOne(SplitRight(batch));
    WeightOfOne(batch);
  }

  lemma {:induction false} SplitKeepsQueue(pending: seq<Batch>)
    requires pending != [] && (forall b :: 0 <= b < |pending| ==> pending[b].Aligned())
    requires |pending[0].methods| > 1
    ensures var split := [SplitLeft(pending[0]), SplitRight(pending[0])] + pending[1..];
            && (forall b :: 0 <= b < |split| ==> split[b].Aligned())
            && Queued(split) == Queued(pending)
            && Weight(split) < Weight(pending)
  {
    var batch, left, right, rest := pending[0], SplitLeft(pending[0]), SplitRight(pending[0]), pending[1..];
    assert [left, right] + rest == [left] + ([right] + rest);
    SplitQueued(batch, rest);
    SplitWeight(batch);
    QueuedCons(batch, rest);
    assert [batch] + rest == pending;
  }

  /** The keys reported to the journal over a run of the unit: per item while the batch
      runs, and by the scheduler for what the batch left unpersisted. */
  function SchedulerKeys<R>(outcomes: seq<Outcome<R>>): seq<string> {
    if outcomes == [] then []
    else
      var last := outcomes[|outcomes| - 1];
      SchedulerKeys(outcomes[..|outcomes| - 1]) + if last.persisted then [] else [last.key]
  }

  function JournalKeys<R>(journal: seq<Journaled<R>>): seq<string> {
    seq(|journal|, i requires 0 <= i < |journal| => journal[i].key)
  }

  function EntryKeys(entries: seq<Entry>): seq<string> {
    seq(|entries|, i requires 0 <= i < |entries| => entries[i].key)
  }

  lemma EntryKeysPush(entries: seq<Entry>)
    requires entries != []
    ensures var n := |entries| - 1;
            multiset(EntryKeys(entries)) == multiset(EntryKeys(entries[..n])) + multiset{entries[n].key}
  {
    var n := |entries| - 1;
    assert EntryKeys(entries) == EntryKeys(entries[..n]) + [entries[n].key];
  }

  lemma OutcomesPrefix<R>(o: Oracle<R>, entries: seq<Entry>, outcomes: seq<Outcome<R>>)
    requires outcomes != [] && OutcomesFor(o, entries, outcomes)
    ensures var n := |outcomes| - 1;
            OutcomesFor(o, entries[..n], outcomes[..n]) && OutcomeFor(o, entries[n], outcomes[n])
  {
  }

  /** Exactly once: callback and scheduler together report every key of the unit once. */
  lemma {:induction false} EveryOutcomeIsJournaledOnce<R>(o: Oracle<R>, entries: seq<Entry>, outcomes: seq<Outcome<R>>)
    requires OutcomesFor(o, entries, outcomes)
    ensures multiset(JournalKeys(PersistedOf(outcomes))) + multiset(SchedulerKeys(outcomes))
         == multiset(EntryKeys(entries))
  {
    if outcomes == [] {
      assert EntryKeys(entries) == [];
    } else {
      var n := |outcomes| - 1;
      OutcomesPrefix(o, entries, outcomes);
      EveryOutcomeIsJournaledOnce(o, entries[..n], outcomes[..n]);
      KeysGrow(o, entries[n], PersistedOf(outcomes[..n]), SchedulerKeys(outcomes[..n]), outcomes[n]);
      EntryKeysPush(entries);
    }
  }

  lemma KeysGrow<R>(o: Oracle<R>, entry: Entry, journal: seq<Journaled<R>>, keys: seq<string>, last: Outcome<R>)
    requires OutcomeFor(o, entry, last)
    ensures var journal' := journal + if last.persisted && last.review.Some?
                                      then [Journaled(last.key, last.index, last.review.value)] else [];
            var keys' := keys + if last.persisted then [] else [last.key];
            multiset(JournalKeys(journal')) + multiset(keys')
              == multiset(JournalKeys(journal)) + multiset(keys) + multiset{entry.key}
  {
    if last.persisted {
      var journal' := journal + [Journaled(last.key, last.index, last.review.value)];
      assert JournalKeys(journal') == JournalKeys(journal) + [entry.key];
    } else {
      assert journal + [] == journal;
    }
  }

  /** The journal holds some of the unit's entries, in unit order and none twice, each
      with a review the model gave for that very method. */
  ghost predicate JournaledAtMostOnce<R>(o: Oracle<R>, entries: seq<Entry>, journal: seq<Journaled<R>>) {
    exists positions: seq<nat> :: JournaledAt(o, entries, journal, positions)
  }

  ghost predicate JournaledAt<R>(o: Oracle<R>, entries: seq<Entry>, journal: seq<Journaled<R>>, positions: seq<nat>) {
    && |positions| == |journal|
    && (forall k, l :: 0 <= k < l < |positions| ==> positions[k] < positions[l])
    && (forall k :: 0 <= k < |positions| ==>
          positions[k] < |entries| && JournaledFor(o, entries[positions[k]], journal[k]))
  }

  ghost predicate JournaledFor<R>(o: Oracle<R>, entry: Entry, item: Journaled<R>) {
    && entry.job.MethodJob? && item.key == entry.key && item.index == entry.job.index
    && Replied(o, entry.job.item, item.review)
  }

  lemma {:induction false} JournaledAtIsWithin<R>(o: Oracle<R>, entries: seq<Entry>, journal: seq<Journaled<R>>, positions: seq<nat>)
    requires JournaledAt(o, entries, journal, positions)
    ensures multiset(JournalKeys(journal)) <= multiset(EntryKeys(entries))
    decreases |journal|
  {
    if journal != [] {
      var n := |journal| - 1;
      var p := positions[n];
      assert JournaledFor(o, entries[p], journal[n]);
      forall k | 0 <= k < n ensures positions[k] < p && JournaledFor(o, entries[..p][positions[k]], journal[k]) {
        assert JournaledFor(o, entries[positions[k]], journal[k]);
      }
      JournaledAtIsWithin(o, entries[..p], journal[..n], positions[..n]);
      assert JournalKeys(journal) == JournalKeys(journal[..n]) + [entries[p].key];
      KeysUpTo(entries, p);
    }
  }

  lemma KeysUpTo(entries: seq<Entry>, p: nat)
    requires p < |entries|
    ensures multiset(EntryKeys(entries[..p])) + multiset{entries[p].key} <= multiset(EntryKeys(entries))
  {
    var keys := EntryKeys(entries);
    assert EntryKeys(entries[..p]) == keys[..p];
    assert keys == keys[..p] + [keys[p]] + keys[p + 1..];
  }

  /** Whatever happens to a unit, its journal holds no key more often than the unit does. */
  lemma JournaledKeysAreTheUnits<R>(o: Oracle<R>, entries: seq<Entry>, journal: seq<Journaled<R>>)
    requires JournaledAtMostOnce(o, entries, journal)
    ensures multiset(JournalKeys(journal)) <= multiset(EntryKeys(entries))
  {
    var positions :| JournaledAt(o, entries, journal, positions);
    JournaledAtIsWithin(o, entries, journal, positions);
  }

  function PersistedPositions<R>(outcomes: seq<Outcome<R>>): seq<nat> {
    if outcomes == [] then []
    else
      var n := |outcomes| - 1;
      PersistedPositions(outcomes[..n]) + if outcomes[n].persisted && outcomes[n].review.Some? then [n] else []
  }

  lemma {:induction false} PersistedAreJournaled<R>(o: Oracle<R>, entries: seq<Entry>, outcomes: seq<Outcome<R>>)
    requires |outcomes| <= |entries| && OutcomesFor(o, entries[..|outcomes|], outcomes)
    ensures JournaledAt(o, entries, PersistedOf(outcomes), PersistedPositions(outcomes))
    ensures forall k :: 0 <= k < |PersistedPositions(outcomes)| ==> PersistedPositions(outcomes)[k] < |outcomes|
  {
    if outcomes != [] {
      var n := |outcomes| - 1;
      assert entries[..|outcomes|][..n] == entries[..n];
      PersistedAreJournaled(o, entries, outcomes[..n]);
      assert OutcomeFor(o, entries[..|outcomes|][n], outcomes[n]);
    }
  }

  predicate AllMethodEntries(unit: seq<Entry>) {
    forall i :: 0 <= i < |unit| ==> unit[i].job.MethodJob?
  }

  /** The three lists a method unit is taken apart into. */
  function BatchOf(unit: seq<Entry>): Batch
    requires AllMethodEntries(unit)
  {
    Batch(seq(|unit|, i requires 0 <= i < |unit| => unit[i].key),
          seq(|unit|, i requires 0 <= i < |unit| => unit[i].job.index),
          seq(|unit|, i requires 0 <= i < |unit| => unit[i].job.item))
  }

  /** `run_review_unit_untracked`. `calls` counts the model calls made. A file in a batch
      fails the unit before any call. */
  method RunReviewUnit<R>(o: Oracle<R>, unit: seq<Entry>, tracked: bool)
    returns (result: Result<seq<Outcome<R>>, string>, journal: seq<Journaled<R>>, calls: nat, ghost log: seq<Call<R>>)
    ensures calls == |log| <= 2 * |unit| + 1
    ensures IsFileUnit(unit) ==>
              && journal == [] && calls == 0
              && result == match o.reviewFile(unit[0].job.path)
                 case Success(review) => Success([Outcome(unit[0].key, unit[0].job.index, Some(review), false, false)])
                 case Failure(error) => Failure(error)
    ensures !IsFileUnit(unit) && !AllMethodEntries(unit) ==> result.Failure? && journal == [] && calls == 0
    ensures AllMethodEntries(unit) ==> UnitRuns(o, BatchOf(unit), log, tracked, result, journal)
    ensures !IsFileUnit(unit) && result.Success? ==>
              OutcomesFor(o, unit, result.value) && journal == PersistedOf(result.value)
    ensures !tracked ==> journal == []
    ensures JournaledAtMostOnce(o, unit, journal)
  {
    calls, journal, log := 0, [], [];
    NothingJournaled<R>(o, unit);
    if IsFileUnit(unit) {
      match o.reviewFile(unit[0].job.path) {
        case Success(review) =>
          result := Success([Outcome(unit[0].key, unit[0].job.index, Some(review), false, false)]);
        case Failure(error) => result := Failure(error);
      }
      return;
    }
    var batch := Batch([], [], []);
    for n := 0 to |unit|
      invariant AllMethodEntries(unit[..n]) && batch == BatchOf(unit[..n])
    {
      if unit[n].job.FileJob? {
        result := Failure("file review was incorrectly placed in a method batch");
        return;
      }
      assert unit[..n + 1] == unit[..n] + [unit[n]];
      batch := Batch(batch.keys + [unit[n].key], batch.indices + [unit[n].job.index], batch.methods + [unit[n].job.item]);
    }
    assert unit[..|unit|] == unit;
    assert batch.Entries() == unit;
    result, journal, calls, log := DrainQueue(o, unit, batch, tracked);
  }

  predicate IsFileUnit(unit: seq<Entry>) {
    |unit| == 1 && unit[0].job.FileJob?
  }

  lemma NothingJournaled<R>(o: Oracle<R>, entries: seq<Entry>)
    ensures JournaledAtMostOnce<R>(o, entries, [])
  {
    assert JournaledAt<R>(o, entries, [], []);
  }

  /** Item `k` of a batch that starts at entry `n`. */
  ghost predicate JournaledPast<R>(o: Oracle<R>, entries: seq<Entry>, n: nat, partial: seq<Journaled<R>>, k: nat) {
    k < |partial| && n + k < |entries| && JournaledFor(o, entries[n + k], partial[k])
  }

  lemma PartialIsJournaled<R>(o: Oracle<R>, entries: seq<Entry>, n: nat, batch: Batch, call: nat, reviews: seq<R>)
    requires batch.Aligned() && AnswersInOrder(o, call, batch.methods, reviews)
    requires n <= |entries| && batch.Entries() <= entries[n..]
    ensures forall k :: 0 <= k < |reviews| ==> JournaledPast(o, entries, n, JournalOf(batch, reviews), k)
  {
    forall k | 0 <= k < |reviews| ensures JournaledPast(o, entries, n, JournalOf(batch, reviews), k) {
      assert entries[n..][k] == batch.Entries()[k];
      assert o.reply(call, k, batch.methods[k]) == Reviewed(reviews[k]);
    }
  }

  lemma JournaledOn<R>(o: Oracle<R>, entries: seq<Entry>, journal: seq<Journaled<R>>, positions: seq<nat>, n: nat,
                       partial: seq<Journaled<R>>)
    requires JournaledAt(o, entries, journal, positions) && forall k :: 0 <= k < |positions| ==> positions[k] < n
    requires forall k :: 0 <= k < |partial| ==> JournaledPast(o, entries, n, partial, k)
    ensures JournaledAtMostOnce(o, entries, journal + partial)
  {
    var more: seq<nat> := seq(|partial|, k requires 0 <= k < |partial| => n + k);
    var all := positions + more;
    forall k | 0 <= k < |all|
      ensures all[k] < |entries| && JournaledFor(o, entries[all[k]], (journal + partial)[k])
    {
      if k >= |positions| {
        assert JournaledPast(o, entries, n, partial, k - |positions|);
      }
    }
    assert JournaledAt(o, entries, journal + partial, all);
  }

  /** The journal after the completed batches and the first items of the one at the head of the queue. */
  lemma JournalIsOrdered<R>(o: Oracle<R>, entries: seq<Entry>, completed: seq<Outcome<R>>, pending: seq<Batch>,
                            journal: seq<Journaled<R>>, call: nat, reviews: seq<R>)
    requires pending != [] && Working(o, entries, completed, pending, journal)
    requires AnswersInOrder(o, call, pending[0].methods, reviews)
    ensures JournaledAtMostOnce(o, entries, journal + JournalOf(pending[0], reviews))
  {
    PersistedAreJournaled(o, entries, completed);
    PartialIsJournaled(o, entries, |completed|, pending[0], call, reviews);
    JournaledOn(o, entries, journal, PersistedPositions(completed), |completed|, JournalOf(pending[0], reviews));
  }

  lemma CompletedIsOrdered<R>(o: Oracle<R>, entries: seq<Entry>, completed: seq<Outcome<R>>, pending: seq<Batch>,
                              journal: seq<Journaled<R>>)
    requires Working(o, entries, completed, pending, journal)
    ensures JournaledAtMostOnce(o, entries, journal)
  {
    PersistedAreJournaled(o, entries, completed);
  }

  /** An answer ends the unit when its error is not recoverable, or came after an item of the
      batch was journaled. */
  ghost predicate Stops<R>(o: Oracle<R>, a: Answer<R>, tracked: bool) {
    a.error.Some? && (!o.recoverable(a.error.value) || (tracked && a.reviews != []))
  }

  /** The outcomes a batch is left with: those reviewed, or for a single method the
      unresolved one; a larger batch with an error is halved instead. */
  function SettledBy<R>(o: Oracle<R>, batch: Batch, a: Answer<R>, tracked: bool): seq<Outcome<R>>
    requires batch.Aligned() && (a.error.None? ==> |a.reviews| == |batch.keys|)
  {
    if a.error.None? then Completed(o, batch, a.reviews, tracked)
    else if |batch.methods| > 1 then []
    else UnresolvedBatchOutcomes(batch)
  }

  function QueueAfter<R>(pending: seq<Batch>, a: Answer<R>): seq<Batch>
    requires pending != [] && pending[0].Aligned()
  {
    if a.error.Some? && |pending[0].methods| > 1
    then [SplitLeft(pending[0]), SplitRight(pending[0])] + pending[1..]
    else pending[1..]
  }

  /** One batch off the front of the queue: completed, halved, given up as unresolved, or
      the end of the unit. */
  method RunBatch<R>(o: Oracle<R>, ghost entries: seq<Entry>, call: nat, completed: seq<Outcome<R>>, pending: seq<Batch>,
                     tracked: bool, journal: seq<Journaled<R>>)
    returns (error: Option<string>, completed': seq<Outcome<R>>, pending': seq<Batch>, journal': seq<Journaled<R>>,
             ghost answer: Answer<R>)
    requires pending != [] && Working(o, entries, completed, pending, journal)
    ensures AnswerIs(o, call, pending[0].methods, answer) && |answer.reviews| <= |pending[0].keys|
    ensures answer.error.None? ==> |answer.reviews| == |pending[0].keys|
    ensures journal' == if tracked then journal + JournalOf(pending[0], answer.reviews) else journal
    ensures error.Some? <==> Stops(o, answer, tracked)
    ensures error.None? ==>
              && completed' == completed + SettledBy(o, pending[0], answer, tracked)
              && pending' == QueueAfter(pending, answer)
              && Working(o, entries, completed', pending', journal') && Weight(pending') < Weight(pending)
    ensures error.Some? ==> JournaledAtMostOnce(o, entries, journal')
  {
    var current := pending[0];
    completed', pending', error := completed, pending[1..], None;
    var said;
    said, journal' := AnalyzeBatch(o, call, current, tracked, journal);
    answer := said;
    var count := if tracked then |said.reviews| else 0;
    if said.error.None? {
      var more := Completed(o, current, said.reviews, tracked);
      PersistedCompleted(o, current, said.reviews, tracked);
      CompletedAnswers(o, call, current, said.reviews, tracked);
      Advance(o, entries, completed, pending, journal, more);
      completed' := completed + more;
      assert journal + [] == journal;
    } else if o.recoverable(said.error.value) && |current.methods| > 1 && count == 0 {
      NothingAdded(journal, current, said.reviews, tracked);
      SplitKeepsQueue(pending);
      pending' := [SplitLeft(current), SplitRight(current)] + pending[1..];
      assert completed + [] == completed;
    } else if o.recoverable(said.error.value) && count > 0 {
      JournalIsOrdered(o, entries, completed, pending, journal, call, said.reviews);
      error := Some("method batch failed after methods were durably completed");
    } else if o.recoverable(said.error.value) {
      var more := UnresolvedBatchOutcomes<R>(current);
      NothingAdded(journal, current, said.reviews, tracked);
      PersistedUnresolved(more);
      assert journal + [] == journal;
      Advance(o, entries, completed, pending, journal, more);
      completed' := completed + more;
    } else {
      if tracked {
        JournalIsOrdered(o, entries, completed, pending, journal, call, said.reviews);
      } else {
        CompletedIsOrdered(o, entries, completed, pending, journal);
      }
      error := Some("method batch failed");
    }
  }

  lemma NothingAdded<R>(journal: seq<Journaled<R>>, batch: Batch, reviews: seq<R>, tracked: bool)
    requires batch.Aligned() && |reviews| <= |batch.keys| && (tracked ==> reviews == [])
    ensures (if tracked then journal + JournalOf(batch, reviews) else journal) == journal
  {
  }

  // ---------------------------------------------------------------------
  // The calls of a unit
  // ---------------------------------------------------------------------

  /** One call of a unit, and its answer. */
  datatype Call<R> = Call(batch: Batch, answer: Answer<R>)

  /** What was still queued after these calls. */
  function QueueAt<R>(batch: Batch, log: seq<Call<R>>): seq<Batch> {
    if log == [] then [batch]
    else
      var n := |log| - 1;
      var queue := QueueAt(batch, log[..n]);
      if queue == [] || !queue[0].Aligned() then [] else QueueAfter(queue, log[n].answer)
  }

  /** The calls take the batches in the order of the queue, each is answered by the oracle,
      and only the last one may end the unit. */
  ghost predicate CallsAre<R>(o: Oracle<R>, batch: Batch, log: seq<Call<R>>, tracked: bool) {
    log == [] ||
    var n := |log| - 1;
    var queue := QueueAt(batch, log[..n]);
    && CallsAre(o, batch, log[..n], tracked)
    && queue != [] && log[n].batch == queue[0] && queue[0].Aligned()
    && AnswerIs(o, n, log[n].batch.methods, log[n].answer) && Fits(log[n])
    && (n > 0 ==> !Stops(o, log[n - 1].answer, tracked))
  }

  predicate Fits<R>(call: Call<R>) {
    && call.batch.Aligned() && |call.answer.reviews| <= |call.batch.keys|
    && (call.answer.error.None? ==> |call.answer.reviews| == |call.batch.keys|)
  }

  function OutcomesOf<R>(o: Oracle<R>, log: seq<Call<R>>, tracked: bool): seq<Outcome<R>> {
    if log == [] then []
    else
      var last := log[|log| - 1];
      OutcomesOf(o, log[..|log| - 1], tracked)
      + if Fits(last) then SettledBy(o, last.batch, last.answer, tracked) else []
  }

  function JournalsOf<R>(log: seq<Call<R>>): seq<Journaled<R>> {
    if log == [] then []
    else
      var last := log[|log| - 1];
      JournalsOf(log[..|log| - 1]) + if Fits(last) then JournalOf(last.batch, last.answer.reviews) else []
  }

  /** How a method unit runs: it fails exactly when its last call ends it, and otherwise its
      outcomes are those its calls settle, in order. */
  ghost predicate UnitRuns<R>(o: Oracle<R>, batch: Batch, log: seq<Call<R>>, tracked: bool,
                              result: Result<seq<Outcome<R>>, string>, journal: seq<Journaled<R>>)
  {
    && CallsAre(o, batch, log, tracked) && log != []
    && journal == (if tracked then JournalsOf(log) else [])
    && if Stops(o, log[|log| - 1].answer, tracked) then result.Failure?
       else QueueAt(batch, log) == [] && result == Success(OutcomesOf(o, log, tracked))
  }

  lemma OneMoreCall<R>(o: Oracle<R>, batch: Batch, log: seq<Call<R>>, tracked: bool, call: Call<R>)
    requires CallsAre(o, batch, log, tracked) && (log != [] ==> !Stops(o, log[|log| - 1].answer, tracked))
    requires var queue := QueueAt(batch, log); queue != [] && call.batch == queue[0]
    requires AnswerIs(o, |log|, call.batch.methods, call.answer) && Fits(call)
    ensures CallsAre(o, batch, log + [call], tracked)
    ensures QueueAt(batch, log + [call]) == QueueAfter(QueueAt(batch, log), call.answer)
    ensures OutcomesOf(o, log + [call], tracked) == OutcomesOf(o, log, tracked) + SettledBy(o, call.batch, call.answer, tracked)
    ensures JournalsOf(log + [call]) == JournalsOf(log) + JournalOf(call.batch, call.answer.reviews)
  {
    assert (log + [call])[..|log|] == log;
  }

  /** The worklist: batches run from the front until none is left or one ends the unit. */
  method DrainQueue<R>(o: Oracle<R>, entries: seq<Entry>, batch: Batch, tracked: bool)
    returns (result: Result<seq<Outcome<R>>, string>, journal: seq<Journaled<R>>, calls: nat, ghost log: seq<Call<R>>)
    requires batch.Aligned() && batch.Entries() == entries
    ensures calls == |log| <= 2 * |entries| + 1
    ensures UnitRuns(o, batch, log, tracked, result, journal)
    ensures result.Success? ==> OutcomesFor(o, entries, result.value) && journal == PersistedOf(result.value)
    ensures JournaledAtMostOnce(o, entries, journal)
  {
    var pending := [batch];
    var completed: seq<Outcome<R>> := [];
    calls, journal, log := 0, [], [];
    RunStarts(o, entries, batch, tracked);
    while pending != []
      invariant Working(o, entries, completed, pending, journal)
      invariant calls == |log| && calls + Weight(pending) <= 2 * |entries| + 1
      invariant SoFar(o, batch, log, tracked, completed, pending, journal)
      invariant log == [] ==> pending != []
      decreases Weight(pending)
    {
      var error;
      error, completed, pending, journal, log := TakeNext(o, entries, batch, calls, completed, pending, tracked, journal, log);
      calls := calls + 1;
      if error.Some? {
        result := Failure(error.value);
        return;
      }
    }
    RunEnds(o, entries, batch, log, tracked, completed, journal);
    result := Success(completed);
  }

  lemma RunEnds<R>(o: Oracle<R>, entries: seq<Entry>, batch: Batch, log: seq<Call<R>>, tracked: bool,
                   completed: seq<Outcome<R>>, journal: seq<Journaled<R>>)
    requires Working(o, entries, completed, [], journal) && SoFar(o, batch, log, tracked, completed, [], journal) && log != []
    ensures UnitRuns(o, batch, log, tracked, Success(completed), journal)
    ensures OutcomesFor(o, entries, completed) && journal == PersistedOf(completed)
    ensures JournaledAtMostOnce(o, entries, journal)
  {
    assert entries[..|completed|] == entries;
    CompletedIsOrdered(o, entries, completed, [], journal);
  }

  lemma RunStarts<R>(o: Oracle<R>, entries: seq<Entry>, batch: Batch, tracked: bool)
    requires batch.Aligned() && batch.Entries() == entries
    ensures Working<R>(o, entries, [], [batch], []) && SoFar<R>(o, batch, [], tracked, [], [batch], [])
    ensures 1 <= |entries| ==> Weight([batch]) <= 2 * |entries|
    ensures Weight([batch]) <= 2 * |entries| + 1
  {
    assert entries[0..] == entries && entries[..0] == [];
    assert [batch][1..] == [] && batch.Entries() + [] == batch.Entries();
    WeightOfOne(batch);
  }

  /** The loop's state is what the calls so far make of it. */
  ghost predicate SoFar<R>(o: Oracle<R>, batch: Batch, log: seq<Call<R>>, tracked: bool,
                           completed: seq<Outcome<R>>, pending: seq<Batch>, journal: seq<Journaled<R>>)
  {
    && CallsAre(o, batch, log, tracked) && QueueAt(batch, log) == pending
    && completed == OutcomesOf(o, log, tracked) && journal == (if tracked then JournalsOf(log) else [])
    && (log != [] ==> !Stops(o, log[|log| - 1].answer, tracked))
  }

  /** `RunBatch`, with its call logged. */
  method TakeNext<R>(o: Oracle<R>, ghost entries: seq<Entry>, ghost batch: Batch, call: nat, completed: seq<Outcome<R>>,
                     pending: seq<Batch>, tracked: bool, journal: seq<Journaled<R>>, ghost log: seq<Call<R>>)
    returns (error: Option<string>, completed': seq<Outcome<R>>, pending': seq<Batch>, journal': seq<Journaled<R>>,
             ghost log': seq<Call<R>>)
    requires pending != [] && Working(o, entries, completed, pending, journal)
    requires call == |log| && SoFar(o, batch, log, tracked, completed, pending, journal)
    ensures |log'| == |log| + 1
    ensures error.None? ==>
              && Working(o, entries, completed', pending', journal') && Weight(pending') < Weight(pending)
              && SoFar(o, batch, log', tracked, completed', pending', journal')
    ensures error.Some? ==>
              && JournaledAtMostOnce(o, entries, journal') && CallsAre(o, batch, log', tracked)
              && Stops(o, log'[|log|].answer, tracked) && journal' == if tracked then JournalsOf(log') else []
  {
    ghost var answer;
    error, completed', pending', journal', answer := RunBatch(o, entries, call, completed, pending, tracked, journal);
    OneMoreCall(o, batch, log, tracked, Call(pending[0], answer));
    log' := log + [Call(pending[0], answer)];
  }

  // What runs of a unit promise

  lemma {:induction false} CallAt<R>(o: Oracle<R>, batch: Batch, log: seq<Call<R>>, tracked: bool, k: nat)
    requires CallsAre(o, batch, log, tracked) && k < |log|
    ensures CallsAre(o, batch, log[..k], tracked) && Fits(log[k]) && AnswerIs(o, k, log[k].batch.methods, log[k].answer)
    ensures var queue := QueueAt(batch, log[..k]);
            && queue != [] && queue[0] == log[k].batch
            && QueueAt(batch, log[..k + 1]) == QueueAfter(queue, log[k].answer)
    ensures k + 1 < |log| ==> !Stops(o, log[k].answer, tracked)
  {
    var n := |log| - 1;
    if k < n {
      CallAt(o, batch, log[..n], tracked, k);
      assert log[..n][..k] == log[..k] && log[..n][..k + 1] == log[..k + 1];
    } else {
      assert log[..k + 1] == log;
    }
  }

  /** A unit whose first call can be prepared and reviews every method succeeds after that
      call, with exactly those reviews. */
  lemma OneCallIsEnough<R>(o: Oracle<R>, batch: Batch, log: seq<Call<R>>, tracked: bool,
                           result: Result<seq<Outcome<R>>, string>, journal: seq<Journaled<R>>)
    requires batch.Aligned() && UnitRuns(o, batch, log, tracked, result, journal)
    requires batch.methods != [] && o.prepare(0).None?
    requires forall i :: 0 <= i < |batch.methods| ==> o.reply(0, i, batch.methods[i]).Reviewed?
    ensures |log| == 1 && result.Success? && |result.value| == |batch.methods|
    ensures forall i :: 0 <= i < |batch.methods| ==>
              var review := o.reply(0, i, batch.methods[i]).review;
              result.value[i] == Outcome(batch.keys[i], batch.indices[i], Some(review), o.retryLater(review), tracked)
  {
    CallAt(o, batch, log, tracked, 0);
    assert log[..0] == [] && QueueAt(batch, log[..0]) == [batch] && [batch][1..] == [];
    assert log[0].answer.error.None?;
    if |log| > 1 {
      CallAt(o, batch, log, tracked, 1);
    }
    assert log[..1] == log;
    var reviews := log[0].answer.reviews;
    assert OutcomesOf(o, log, tracked) == [] + Completed(o, batch, reviews, tracked);
    forall i | 0 <= i < |batch.methods| ensures reviews[i] == o.reply(0, i, batch.methods[i]).review {
      assert o.reply(0, i, batch.methods[i]) == Reviewed(reviews[i]);
    }
  }

  /** A unit fails exactly when some call of it ends in an error that is not recoverable, or
      that came after an item of its batch was journaled; and that is its last call. */
  lemma FailsExactlyWhen<R>(o: Oracle<R>, batch: Batch, log: seq<Call<R>>, tracked: bool,
                            result: Result<seq<Outcome<R>>, string>, journal: seq<Journaled<R>>)
    requires UnitRuns(o, batch, log, tracked, result, journal)
    ensures result.Failure? <==>
              exists k :: 0 <= k < |log| && log[k].answer.error.Some?
                && (!o.recoverable(log[k].answer.error.value) || (tracked && log[k].answer.reviews != []))
    ensures forall k :: 0 <= k < |log| - 1 && log[k].answer.error.Some? ==>
              o.recoverable(log[k].answer.error.value) && (tracked ==> log[k].answer.reviews == [])
  {
    forall k | 0 <= k < |log| - 1 ensures !Stops(o, log[k].answer, tracked) {
      CallAt(o, batch, log, tracked, k);
    }
    if result.Failure? {
      assert log[|log| - 1].answer.error.Some?;
    }
  }

  /** The batch after one that is halved is its first half. */
  lemma HalvesAreNext<R>(o: Oracle<R>, batch: Batch, log: seq<Call<R>>, tracked: bool, k: nat)
    requires CallsAre(o, batch, log, tracked) && k + 1 < |log|
    requires log[k].answer.error.Some? && |log[k].batch.methods| > 1
    ensures log[k].batch.Aligned() && log[k + 1].batch == SplitLeft(log[k].batch)
    ensures o.recoverable(log[k].answer.error.value)
  {
    CallAt(o, batch, log, tracked, k);
    CallAt(o, batch, log, tracked, k + 1);
  }

  /** How an outcome comes from position `p` of call `k`: a review is the reply at that place;
      the unresolved verdict is for a lone method whose call failed recoverably with nothing
      reviewed. */
  ghost predicate ComesFrom<R>(o: Oracle<R>, call: Call<R>, tracked: bool, outcome: Outcome<R>, k: nat, p: nat) {
    && Fits(call) && p < |call.batch.keys|
    && outcome.key == call.batch.keys[p] && outcome.index == call.batch.indices[p]
    && match outcome.review
       case Some(review) =>
         && call.answer.error.None? && o.reply(k, p, call.batch.methods[p]) == Reviewed(review)
         && outcome.retryOnResume == o.retryLater(review) && outcome.persisted == tracked
       case None =>
         && |call.batch.methods| == 1 && call.answer.error.Some? && o.recoverable(call.answer.error.value)
         && call.answer.reviews == [] && outcome.retryOnResume && !outcome.persisted
  }

  lemma SettledComeFrom<R>(o: Oracle<R>, call: Call<R>, tracked: bool, k: nat, p: nat)
    requires Fits(call) && AnswerIs(o, k, call.batch.methods, call.answer) && !Stops(o, call.answer, tracked)
    requires p < |SettledBy(o, call.batch, call.answer, tracked)|
    ensures ComesFrom(o, call, tracked, SettledBy(o, call.batch, call.answer, tracked)[p], k, p)
  {
    if call.answer.error.None? {
      assert o.reply(k, p, call.batch.methods[p]) == Reviewed(call.answer.reviews[p]);
    }
  }

  lemma {:induction false} OutcomesComeFromCalls<R>(o: Oracle<R>, batch: Batch, log: seq<Call<R>>, tracked: bool, i: nat)
    returns (k: nat, p: nat)
    requires CallsAre(o, batch, log, tracked) && (log != [] ==> !Stops(o, log[|log| - 1].answer, tracked))
    requires i < |OutcomesOf(o, log, tracked)|
    ensures k < |log| && ComesFrom(o, log[k], tracked, OutcomesOf(o, log, tracked)[i], k, p)
  {
    var n := |log| - 1;
    var before := OutcomesOf(o, log[..n], tracked);
    if i < |before| {
      k, p := OutcomesComeFromCalls(o, batch, log[..n], tracked, i);
    } else {
      k, p := n, i - |before|;
      SettledComeFrom(o, log[n], tracked, n, p);
    }
  }

  lemma CompletedAnswers<R>(o: Oracle<R>, call: nat, batch: Batch, reviews: seq<R>, tracked: bool)
    requires batch.Aligned() && |reviews| == |batch.keys|
    requires AnswersInOrder(o, call, batch.methods, reviews)
    ensures OutcomesFor(o, batch.Entries(), Completed(o, batch, reviews, tracked))
  {
    forall i | 0 <= i < |reviews|
      ensures OutcomeFor(o, batch.Entries()[i], Completed(o, batch, reviews, tracked)[i])
    {
      assert o.reply(call, i, batch.methods[i]) == Reviewed(reviews[i]);
    }
  }

  // ---------------------------------------------------------------------
  // Sharing tokens out
  // ---------------------------------------------------------------------

  /** `token_share`. */
  function TokenShare(total: nat, index: nat, count: nat): nat
    requires count > 0
  {
    total / count + if index < total % count then 1 else 0
  }

  function FirstShares(total: nat, count: nat, n: nat): nat
    requires count > 0
  {
    if n == 0 then 0 else FirstShares(total, count, n - 1) + TokenShare(total, n - 1, count)
  }

  lemma {:induction false} FirstSharesSum(total: nat, count: nat, n: nat)
    requires count > 0
    ensures FirstShares(total, count, n) == n * (total / count) + if n < total % count then n else total % count
  {
    if n > 0 {
      FirstSharesSum(total, count, n - 1);
      assert n * (total / count) == (n - 1) * (total / count) + total / count;
    }
  }

  /** The shares add up to the total, and differ by at most one. */
  lemma {:induction false} SharesConserveTokens(total: nat, count: nat)
    requires count > 0
    ensures FirstShares(total, count, count) == total
    ensures forall i: nat, j: nat :: i < j ==>
              TokenShare(total, j, count) <= TokenShare(total, i, count) <= TokenShare(total, j, count) + 1
  {
    FirstSharesSum(total, count, count);
    assert total == count * (total / count) + total % count;
  }
}
