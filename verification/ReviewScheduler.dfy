/** The bounded, key-exclusive review scheduler. */
module ReviewScheduler {
  import opened Wrappers

  // `run_bounded_review_tasks_keyed_until` and `SpendBudget` in src/analyzer_engine_jobs.rs.
  //
  // `State` and `Next` are the protocol: one step is one observation, start,
  // spend or join. `Scheduler` is the source's loop; it proves that whatever
  // order tasks finish in, the states it passes through form a run of `Next`.
  // The lemmas then speak about every run.

  type Key = string

  /** One pending review unit with the cache keys (file paths) it must own while it runs. */
  datatype ReviewUnit = ReviewUnit(id: string, keys: set<Key>)

  /** A running task and what it has charged to the budget so far. */
  datatype Task = Task(unit: ReviewUnit, accrued: real)

  datatype Finished<R> = Finished(unit: ReviewUnit, result: R)

  /** `unitCap` bounds what any one unit charges over its whole life. */
  datatype Config = Config(maxConcurrency: nat, limit: Option<real>, unitCap: real) {
    function Slots(): nat {
      if maxConcurrency < 1 then 1 else maxConcurrency
    }

    predicate CanStart(spent: real) {
      limit.None? || spent < limit.value
    }
  }

  /** `Admitted`: the budget said yes and nothing has been started yet.
      `Waiting`: the filling loop gave up and the next event is a join. */
  datatype Phase = Filling | Admitted | Waiting | Done | Aborted

  datatype State<R> = State(
    phase: Phase,
    pending: seq<ReviewUnit>,
    active: seq<Task>,
    activeKeys: set<Key>,
    firstError: Option<string>,
    completed: seq<Finished<R>>,
    spent: real,
    // History: what became of every unit that left `pending`.
    starts: nat,
    handed: seq<Finished<R>>,
    failed: seq<ReviewUnit>,
    leaked: seq<ReviewUnit>,
    abandoned: seq<ReviewUnit>)

  predicate Eligible(unit: ReviewUnit, activeKeys: set<Key>) {
    unit.keys !! activeKeys
  }

  predicate IsFirstEligible(pending: seq<ReviewUnit>, activeKeys: set<Key>, position: nat) {
    && position < |pending|
    && Eligible(pending[position], activeKeys)
    && forall q :: 0 <= q < position ==> !Eligible(pending[q], activeKeys)
  }

  predicate NoneEligible(pending: seq<ReviewUnit>, activeKeys: set<Key>) {
    forall u :: u in pending ==> !Eligible(u, activeKeys)
  }

  function Without<T>(s: seq<T>, i: nat): seq<T>
    requires i < |s|
  {
    s[..i] + s[i + 1..]
  }

  function Units(tasks: seq<Task>): seq<ReviewUnit> {
    seq(|tasks|, i requires 0 <= i < |tasks| => tasks[i].unit)
  }

  function FinishedUnits<R>(finished: seq<Finished<R>>): seq<ReviewUnit> {
    seq(|finished|, i requires 0 <= i < |finished| => finished[i].unit)
  }

  function Results<R>(finished: seq<Finished<R>>): seq<R> {
    seq(|finished|, i requires 0 <= i < |finished| => finished[i].result)
  }

  // ---------------------------------------------------------------------
  // The protocol
  // ---------------------------------------------------------------------

  function Init<R>(input: seq<ReviewUnit>, alreadySpent: real): State<R> {
    State(Filling, input, [], {}, None, [], alreadySpent, 0, [], [], [], [])
  }

  predicate FillGuard<R>(c: Config, s: State<R>) {
    s.firstError.None? && |s.active| < c.Slots() && c.CanStart(s.spent)
  }

  ghost predicate Admit<R>(c: Config, s: State<R>, t: State<R>) {
    s.phase == Filling && FillGuard(c, s) && t == s.(phase := Admitted)
  }

  ghost predicate GiveUp<R>(c: Config, s: State<R>, t: State<R>) {
    && (|| (s.phase == Filling && !FillGuard(c, s))
        || (s.phase == Admitted && NoneEligible(s.pending, s.activeKeys)))
    && t == s.(phase := Waiting)
  }

  ghost predicate Start<R>(c: Config, s: State<R>, t: State<R>, p: nat) {
    && s.phase == Admitted
    && IsFirstEligible(s.pending, s.activeKeys, p)
    && t == s.(phase := Filling,
               pending := Without(s.pending, p),
               active := s.active + [Task(s.pending[p], 0.0)],
               activeKeys := s.activeKeys + s.pending[p].keys,
               starts := s.starts + 1)
  }

  /** A running task charges the shared budget; this can happen in any phase. */
  ghost predicate Spend<R>(c: Config, s: State<R>, t: State<R>, i: nat, cost: real) {
    && s.phase != Done && s.phase != Aborted
    && i < |s.active|
    && 0.0 <= cost && s.active[i].accrued + cost <= c.unitCap
    && t == s.(spent := s.spent + cost,
               active := s.active[i := Task(s.active[i].unit, s.active[i].accrued + cost)])
  }

  ghost predicate JoinSuccess<R>(s: State<R>, t: State<R>, i: nat, r: R) {
    && s.phase == Waiting && i < |s.active|
    && var f := Finished(s.active[i].unit, r);
       t == s.(phase := Filling,
               active := Without(s.active, i),
               activeKeys := s.activeKeys - s.active[i].unit.keys,
               handed := s.handed + [f],
               completed := s.completed + [f])
  }

  /** `on_completed` itself failed: everything still running is aborted and drained. */
  ghost predicate JoinRejected<R>(s: State<R>, t: State<R>, i: nat, r: R) {
    && s.phase == Waiting && i < |s.active|
    && t == s.(phase := Aborted,
               active := [],
               activeKeys := s.activeKeys - s.active[i].unit.keys,
               handed := s.handed + [Finished(s.active[i].unit, r)],
               abandoned := Units(Without(s.active, i)))
  }

  ghost predicate JoinFailure<R>(s: State<R>, t: State<R>, i: nat, error: string) {
    && s.phase == Waiting && i < |s.active|
    && t == s.(phase := Filling,
               active := Without(s.active, i),
               activeKeys := s.activeKeys - s.active[i].unit.keys,
               firstError := if s.firstError.None? then Some(error) else s.firstError,
               failed := s.failed + [s.active[i].unit])
  }

  /** A join error (the task panicked): its keys are never released. */
  ghost predicate JoinPanic<R>(s: State<R>, t: State<R>, i: nat, error: string) {
    && s.phase == Waiting && i < |s.active|
    && t == s.(phase := Filling,
               active := Without(s.active, i),
               firstError := if s.firstError.None? then Some(error) else s.firstError,
               leaked := s.leaked + [s.active[i].unit])
  }

  ghost predicate Finish<R>(s: State<R>, t: State<R>) {
    s.phase == Waiting && s.active == [] && t == s.(phase := Done)
  }

  ghost predicate Next<R(!new)>(c: Config, s: State<R>, t: State<R>) {
    || Admit(c, s, t)
    || GiveUp(c, s, t)
    || (exists p: nat :: Start(c, s, t, p))
    || (exists i: nat, cost: real :: Spend(c, s, t, i, cost))
    || (exists i: nat, r: R :: JoinSuccess(s, t, i, r))
    || (exists i: nat, r: R :: JoinRejected(s, t, i, r))
    || (exists i: nat, error: string :: JoinFailure(s, t, i, error))
    || (exists i: nat, error: string :: JoinPanic(s, t, i, error))
    || Finish(s, t)
  }

  ghost predicate StepAt<R(!new)>(c: Config, run: seq<State<R>>, k: nat)
    requires k + 1 < |run|
  {
    Next(c, run[k], run[k + 1])
  }

  ghost predicate IsRun<R(!new)>(c: Config, run: seq<State<R>>) {
    && run != []
    && forall k :: 0 <= k < |run| - 1 ==> StepAt(c, run, k)
  }

  ghost predicate IsRunFrom<R(!new)>(c: Config, input: seq<ReviewUnit>, spent0: real, run: seq<State<R>>) {
    IsRun(c, run) && run[0] == Init(input, spent0)
  }

  // ---------------------------------------------------------------------
  // What every step keeps
  // ---------------------------------------------------------------------

  ghost predicate PairwiseDisjoint(units: seq<ReviewUnit>) {
    forall i, j :: 0 <= i < j < |units| ==> units[i].keys !! units[j].keys
  }

  function AllKeys(units: seq<ReviewUnit>): set<Key> {
    set u, k | u in units && k in u.keys :: k
  }

  /** What the running tasks may still charge. */
  function Potential(c: Config, active: seq<Task>): real {
    if active == [] then 0.0 else c.unitCap - active[0].accrued + Potential(c, active[1..])
  }

  /** Key ownership is exact: held keys are those of running and of panicked
      units, and no two of these units share one. */
  ghost predicate Exclusive<R>(s: State<R>) {
    var holders := Units(s.active) + s.leaked;
    && PairwiseDisjoint(holders)
    && (s.phase != Aborted ==> s.activeKeys == AllKeys(holders))
  }

  ghost predicate Conserved<R>(input: seq<ReviewUnit>, s: State<R>) {
    multiset(input) ==
      multiset(s.pending) + multiset(Units(s.active)) + multiset(FinishedUnits(s.handed))
      + multiset(s.failed) + multiset(s.leaked) + multiset(s.abandoned)
  }

  ghost predicate Bookkeeping<R>(c: Config, s: State<R>) {
    && |s.active| <= c.Slots()
    && (s.phase == Admitted ==> s.firstError.None? && |s.active| < c.Slots())
    && (s.phase == Done ==> s.active == [])
    && (s.phase == Aborted ==> s.active == [])
    && (s.phase != Aborted ==> s.completed == s.handed && s.abandoned == [])
    && (s.firstError.None? <==> s.failed == [] && s.leaked == [])
  }

  /** Waiting with a free slot has a reason. */
  ghost predicate Stalled<R>(c: Config, s: State<R>) {
    s.phase == Waiting || s.phase == Done ==>
      || s.firstError.Some?
      || |s.active| >= c.Slots()
      || !c.CanStart(s.spent)
      || NoneEligible(s.pending, s.activeKeys)
  }

  ghost predicate Affordable<R>(c: Config, s: State<R>) {
    && (forall i :: 0 <= i < |s.active| ==> 0.0 <= s.active[i].accrued <= c.unitCap)
    && (c.limit.Some? ==>
      var ceiling := c.limit.value + (c.Slots() as real) * c.unitCap;
      && (s.phase == Admitted ==> s.spent + Potential(c, s.active) + c.unitCap < ceiling)
      && (s.starts > 0 ==> s.spent + Potential(c, s.active) < ceiling))
  }

  ghost predicate Inv<R>(c: Config, input: seq<ReviewUnit>, s: State<R>) {
    Exclusive(s) && Conserved(input, s) && Bookkeeping(c, s) && Stalled(c, s) && Affordable(c, s)
  }

  // ---------------------------------------------------------------------
  // Sequence facts used by the step lemmas
  // ---------------------------------------------------------------------

  lemma SplitMultiset<T>(s: seq<T>, i: nat)
    requires i < |s|
    ensures multiset(s) == multiset(Without(s, i)) + multiset{s[i]}
  {
    assert s == s[..i] + [s[i]] + s[i + 1..];
  }

  lemma UnitsWithout(a: seq<Task>, i: nat)
    requires i < |a|
    ensures Units(Without(a, i)) == Without(Units(a), i)
  {
  }

  lemma WithoutKeepsOthers(units: seq<ReviewUnit>, i: nat, u: ReviewUnit)
    requires i < |units| && u in units && u != units[i]
    ensures u in Without(units, i)
  {
    var j :| 0 <= j < |units| && units[j] == u;
    assert Without(units, i)[if j < i then j else j - 1] == u;
  }

  lemma WithoutIsDisjoint(units: seq<ReviewUnit>, i: nat, u: ReviewUnit)
    requires i < |units| && PairwiseDisjoint(units) && u in Without(units, i)
    ensures u in units && u.keys !! units[i].keys
  {
    var j :| 0 <= j < |Without(units, i)| && Without(units, i)[j] == u;
    var k := if j < i then j else j + 1;
    assert units[k] == u;
  }

  lemma DropHolder(units: seq<ReviewUnit>, i: nat)
    requires i < |units| && PairwiseDisjoint(units)
    ensures PairwiseDisjoint(Without(units, i))
    ensures AllKeys(Without(units, i)) == AllKeys(units) - units[i].keys
  {
    forall u | u in Without(units, i) ensures u in units && u.keys !! units[i].keys {
      WithoutIsDisjoint(units, i, u);
    }
    forall u | u in units && u != units[i] ensures u in Without(units, i) {
      WithoutKeepsOthers(units, i, u);
    }
  }

  lemma AddHolder(units: seq<ReviewUnit>, more: seq<ReviewUnit>, u: ReviewUnit)
    requires PairwiseDisjoint(units + more)
    requires u.keys !! AllKeys(units + more)
    ensures PairwiseDisjoint(units + [u] + more)
    ensures AllKeys(units + [u] + more) == AllKeys(units + more) + u.keys
  {
    var all, grown := units + more, units + [u] + more;
    forall j | 0 <= j < |grown| && j != |units|
      ensures grown[j] in all && grown[j].keys !! u.keys
    {
      assert grown[j] == all[if j < |units| then j else j - 1];
    }
    forall i, j | 0 <= i < j < |grown| ensures grown[i].keys !! grown[j].keys {
      if i != |units| && j != |units| {
        assert grown[i] == all[if i < |units| then i else i - 1];
        assert grown[j] == all[if j < |units| then j else j - 1];
      }
    }
    forall v | v in all ensures v in grown {
    }
    forall k | k in AllKeys(all) + u.keys ensures k in AllKeys(grown) {
      if k in u.keys {
        assert u in grown;
      } else {
        var v :| v in all && k in v.keys;
        assert v in grown;
      }
    }
  }

  lemma MoveHolderToEnd(units: seq<ReviewUnit>, more: seq<ReviewUnit>, i: nat)
    requires i < |units| && PairwiseDisjoint(units + more)
    ensures PairwiseDisjoint(Without(units, i) + (more + [units[i]]))
    ensures AllKeys(Without(units, i) + (more + [units[i]])) == AllKeys(units + more)
  {
    var all := units + more;
    var u := units[i];
    DropHolder(all, i);
    var rest := Without(all, i);
    assert rest + [] == rest;
    assert rest == Without(units, i) + more;
    AddHolder(rest, [], u);
    assert rest + [u] + [] == Without(units, i) + (more + [u]);
    assert u in all;
    assert u.keys <= AllKeys(all);
  }

  lemma {:induction false} PotentialAppend(c: Config, a: seq<Task>, t: Task)
    ensures Potential(c, a + [t]) == Potential(c, a) + c.unitCap - t.accrued
  {
    if a == [] {
      assert Potential(c, [t]) == c.unitCap - t.accrued + Potential(c, []);
    } else {
      assert (a + [t])[1..] == a[1..] + [t];
      PotentialAppend(c, a[1..], t);
    }
  }

  lemma {:induction false} PotentialRemove(c: Config, a: seq<Task>, i: nat)
    requires i < |a|
    ensures Potential(c, a) == Potential(c, Without(a, i)) + c.unitCap - a[i].accrued
  {
    if i == 0 {
      assert Without(a, 0) == a[1..];
    } else {
      assert Without(a, i)[1..] == Without(a[1..], i - 1);
      PotentialRemove(c, a[1..], i - 1);
    }
  }

  lemma {:induction false} PotentialUpdate(c: Config, a: seq<Task>, i: nat, t: Task)
    requires i < |a|
    ensures Potential(c, a[i := t]) == Potential(c, a) + a[i].accrued - t.accrued
  {
    if i == 0 {
      assert a[0 := t][1..] == a[1..];
    } else {
      assert a[i := t][1..] == a[1..][i - 1 := t];
      PotentialUpdate(c, a[1..], i - 1, t);
    }
  }

  lemma {:induction false} PotentialBounds(c: Config, a: seq<Task>)
    requires c.unitCap >= 0.0
    requires forall i :: 0 <= i < |a| ==> 0.0 <= a[i].accrued <= c.unitCap
    ensures 0.0 <= Potential(c, a) <= (|a| as real) * c.unitCap
  {
    if a != [] {
      PotentialBounds(c, a[1..]);
      assert (|a| as real) * c.unitCap == (|a[1..]| as real) * c.unitCap + c.unitCap;
    }
  }

  // ---------------------------------------------------------------------
  // One lemma per step
  // ---------------------------------------------------------------------

  lemma InitKeeps<R>(c: Config, input: seq<ReviewUnit>, spent0: real)
    requires c.unitCap >= 0.0
    ensures Inv(c, input, Init<R>(input, spent0))
  {
    var s := Init<R>(input, spent0);
    assert Units(s.active) + s.leaked == [];
    assert FinishedUnits(s.handed) == [];
    assert Units(s.active) == [];
  }

  lemma AdmitKeeps<R>(c: Config, input: seq<ReviewUnit>, s: State<R>, t: State<R>)
    requires c.unitCap >= 0.0 && Inv(c, input, s) && Admit(c, s, t)
    ensures Inv(c, input, t)
  {
    PotentialBounds(c, s.active);
    RoomForOneMore(|s.active|, c.Slots(), c.unitCap, Potential(c, s.active));
  }

  lemma RoomForOneMore(m: nat, n: nat, x: real, used: real)
    requires m < n && x >= 0.0 && used <= (m as real) * x
    ensures used + x <= (n as real) * x
  {
    var gap := (n as real) - (m as real) - 1.0;
    assert gap * x >= 0.0;
    assert (n as real) * x == ((m as real) + 1.0 + gap) * x;
    assert ((m as real) + 1.0 + gap) * x == (m as real) * x + x + gap * x;
  }

  lemma StartConserves<R>(c: Config, input: seq<ReviewUnit>, s: State<R>, t: State<R>, p: nat)
    requires Conserved(input, s) && Start(c, s, t, p)
    ensures Conserved(input, t)
  {
    SplitMultiset(s.pending, p);
    assert Units(t.active) == Units(s.active) + [s.pending[p]];
  }

  lemma StartIsExclusive<R>(c: Config, s: State<R>, t: State<R>, p: nat)
    requires Exclusive(s) && Start(c, s, t, p)
    ensures Exclusive(t)
  {
    assert Units(t.active) == Units(s.active) + [s.pending[p]];
    AddHolder(Units(s.active), s.leaked, s.pending[p]);
  }

  lemma StartKeeps<R>(c: Config, input: seq<ReviewUnit>, s: State<R>, t: State<R>, p: nat)
    requires c.unitCap >= 0.0 && Inv(c, input, s) && Start(c, s, t, p)
    ensures Inv(c, input, t)
  {
    StartConserves(c, input, s, t, p);
    StartIsExclusive(c, s, t, p);
    PotentialAppend(c, s.active, Task(s.pending[p], 0.0));
  }

  lemma SpendKeeps<R>(c: Config, input: seq<ReviewUnit>, s: State<R>, t: State<R>, i: nat, cost: real)
    requires c.unitCap >= 0.0 && Inv(c, input, s) && Spend(c, s, t, i, cost)
    ensures Inv(c, input, t)
  {
    assert Units(t.active) == Units(s.active);
    PotentialUpdate(c, s.active, i, t.active[i]);
  }

  lemma LeaveKeeps<R>(c: Config, s: State<R>, i: nat)
    requires c.unitCap >= 0.0 && Affordable(c, s) && i < |s.active| && s.phase == Waiting
    ensures Affordable(c, s.(phase := Filling, active := Without(s.active, i)))
    ensures Affordable(c, s.(phase := Aborted, active := []))
  {
    PotentialRemove(c, s.active, i);
    PotentialBounds(c, s.active);
  }

  lemma JoinReleasesKeys<R>(s: State<R>, i: nat)
    requires Exclusive(s) && i < |s.active| && s.phase != Aborted
    ensures Exclusive(s.(active := Without(s.active, i), activeKeys := s.activeKeys - s.active[i].unit.keys))
    ensures multiset(Units(s.active)) == multiset(Units(Without(s.active, i))) + multiset{s.active[i].unit}
  {
    var holders := Units(s.active) + s.leaked;
    DropHolder(holders, i);
    UnitsWithout(s.active, i);
    assert Without(holders, i) == Units(Without(s.active, i)) + s.leaked;
    SplitMultiset(Units(s.active), i);
  }

  lemma JoinSuccessKeeps<R>(c: Config, input: seq<ReviewUnit>, s: State<R>, t: State<R>, i: nat, r: R)
    requires c.unitCap >= 0.0 && Inv(c, input, s) && JoinSuccess(s, t, i, r)
    ensures Inv(c, input, t)
  {
    LeaveKeeps(c, s, i);
    JoinReleasesKeys(s, i);
    assert FinishedUnits(t.handed) == FinishedUnits(s.handed) + [s.active[i].unit];
  }

  lemma JoinErrorKeeps<R>(c: Config, input: seq<ReviewUnit>, s: State<R>, t: State<R>, i: nat, error: string)
    requires c.unitCap >= 0.0 && Inv(c, input, s)
    requires JoinFailure(s, t, i, error) || JoinPanic(s, t, i, error)
    ensures Inv(c, input, t)
  {
    LeaveKeeps(c, s, i);
    JoinReleasesKeys(s, i);
    if JoinPanic(s, t, i, error) {
      UnitsWithout(s.active, i);
      MoveHolderToEnd(Units(s.active), s.leaked, i);
    }
  }

  lemma JoinRejectedKeeps<R>(c: Config, input: seq<ReviewUnit>, s: State<R>, t: State<R>, i: nat, r: R)
    requires c.unitCap >= 0.0 && Inv(c, input, s) && JoinRejected(s, t, i, r)
    ensures Inv(c, input, t)
  {
    LeaveKeeps(c, s, i);
    JoinReleasesKeys(s, i);
    assert FinishedUnits(t.handed) == FinishedUnits(s.handed) + [s.active[i].unit];
    assert Units(t.active) == [];
    assert PairwiseDisjoint(Units(t.active) + t.leaked) by {
      var holders := Units(s.active) + s.leaked;
      forall a, b | 0 <= a < b < |s.leaked| ensures s.leaked[a].keys !! s.leaked[b].keys {
        assert holders[|s.active| + a] == s.leaked[a] && holders[|s.active| + b] == s.leaked[b];
      }
    }
  }

  /** The invariant is inductive: every step of every interleaving keeps it. */
  lemma NextKeeps<R(!new)>(c: Config, input: seq<ReviewUnit>, s: State<R>, t: State<R>)
    requires c.unitCap >= 0.0 && Inv(c, input, s) && Next(c, s, t)
    ensures Inv(c, input, t)
  {
    if Admit(c, s, t) {
      AdmitKeeps(c, input, s, t);
    } else if p: nat :| Start(c, s, t, p) {
      StartKeeps(c, input, s, t, p);
    } else if i: nat, cost: real :| Spend(c, s, t, i, cost) {
      SpendKeeps(c, input, s, t, i, cost);
    } else if i: nat, r: R :| JoinSuccess(s, t, i, r) {
      JoinSuccessKeeps(c, input, s, t, i, r);
    } else if i: nat, r: R :| JoinRejected(s, t, i, r) {
      JoinRejectedKeeps(c, input, s, t, i, r);
    } else if i: nat, error: string :| JoinFailure(s, t, i, error) {
      JoinErrorKeeps(c, input, s, t, i, error);
    } else if i: nat, error: string :| JoinPanic(s, t, i, error) {
      JoinErrorKeeps(c, input, s, t, i, error);
    } else {
      assert GiveUp(c, s, t) || Finish(s, t);
    }
  }

  // ---------------------------------------------------------------------
  // Theorems about every run
  // ---------------------------------------------------------------------

  lemma {:induction false} RunKeeps<R(!new)>(c: Config, input: seq<ReviewUnit>, spent0: real, run: seq<State<R>>, k: nat)
    requires c.unitCap >= 0.0 && IsRunFrom(c, input, spent0, run) && k < |run|
    ensures Inv(c, input, run[k])
  {
    if k == 0 {
      InitKeeps<R>(c, input, spent0);
    } else {
      RunKeeps(c, input, spent0, run, k - 1);
      assert StepAt(c, run, k - 1);
      NextKeeps(c, input, run[k - 1], run[k]);
    }
  }

  /** Bounded concurrency, key exclusion and conservation hold in every state of every run. */
  lemma EveryRunIsSafe<R(!new)>(c: Config, input: seq<ReviewUnit>, spent0: real, run: seq<State<R>>, k: nat)
    requires c.unitCap >= 0.0 && IsRunFrom(c, input, spent0, run) && k < |run|
    ensures |run[k].active| <= (if c.maxConcurrency < 1 then 1 else c.maxConcurrency)
    ensures forall i, j :: 0 <= i < j < |run[k].active| ==>
              run[k].active[i].unit.keys !! run[k].active[j].unit.keys
    ensures multiset(input) ==
              multiset(run[k].pending) + multiset(Units(run[k].active)) + multiset(FinishedUnits(run[k].handed))
              + multiset(run[k].failed) + multiset(run[k].leaked) + multiset(run[k].abandoned)
    ensures run[k].firstError.None? && run[k].phase != Aborted ==>
              run[k].activeKeys == AllKeys(Units(run[k].active))
  {
    RunKeeps(c, input, spent0, run, k);
    var s := run[k];
    var holders := Units(s.active) + s.leaked;
    forall i, j | 0 <= i < j < |s.active| ensures s.active[i].unit.keys !! s.active[j].unit.keys {
      assert holders[i] == s.active[i].unit && holders[j] == s.active[j].unit;
    }
    if s.leaked == [] {
      assert holders == Units(s.active);
    }
  }

  ghost predicate FrozenSince<R>(s: State<R>, t: State<R>) {
    && t.firstError == s.firstError
    && t.pending == s.pending
    && t.starts == s.starts
    && s.handed <= t.handed
  }

  lemma ErrorFreezesStep<R(!new)>(c: Config, input: seq<ReviewUnit>, s: State<R>, t: State<R>)
    requires Inv(c, input, s) && Next(c, s, t) && s.firstError.Some?
    ensures FrozenSince(s, t)
  {
  }

  /** After the first error nothing starts, and what was handed over stays handed over. */
  lemma {:induction false} NothingStartsAfterTheFirstError<R(!new)>(
      c: Config, input: seq<ReviewUnit>, spent0: real, run: seq<State<R>>, i: nat, j: nat)
    requires c.unitCap >= 0.0 && IsRunFrom(c, input, spent0, run)
    requires i <= j < |run| && run[i].firstError.Some?
    ensures FrozenSince(run[i], run[j])
  {
    if i < j {
      NothingStartsAfterTheFirstError(c, input, spent0, run, i, j - 1);
      RunKeeps(c, input, spent0, run, j - 1);
      assert StepAt(c, run, j - 1);
      ErrorFreezesStep(c, input, run[j - 1], run[j]);
    }
  }

  ghost function Settled<R>(s: State<R>): multiset<ReviewUnit> {
    multiset(FinishedUnits(s.handed)) + multiset(s.failed) + multiset(s.leaked) + multiset(s.abandoned)
  }

  /** By the end of an erroneous run exactly the units that were in flight when the
      error appeared have settled, and every success among them was recorded. */
  lemma InFlightUnitsSettleAfterAnError<R(!new)>(
      c: Config, input: seq<ReviewUnit>, spent0: real, run: seq<State<R>>, i: nat, j: nat)
    requires c.unitCap >= 0.0 && IsRunFrom(c, input, spent0, run)
    requires i <= j < |run| && run[i].firstError.Some? && run[j].phase == Done
    ensures Settled(run[j]) == multiset(Units(run[i].active)) + Settled(run[i])
    ensures run[j].completed == run[j].handed && run[j].abandoned == []
  {
    RunKeeps(c, input, spent0, run, i);
    RunKeeps(c, input, spent0, run, j);
    NothingStartsAfterTheFirstError(c, input, spent0, run, i, j);
    assert Units(run[j].active) == [];
    var p := multiset(run[i].pending);
    var before := multiset(Units(run[i].active)) + Settled(run[i]);
    assert multiset(input) == p + before;
    assert multiset(input) == p + Settled(run[j]);
    Cancel(p, before, Settled(run[j]));
  }

  lemma Cancel<T>(p: multiset<T>, a: multiset<T>, b: multiset<T>)
    requires p + a == p + b
    ensures a == b
  {
    assert (p + a) - p == a;
    assert (p + b) - p == b;
  }

  /** A finished run without error left work behind only because the budget was exhausted;
      without a budget every unit completes: no scheduling deadlock is reachable. */
  lemma EarlyStopMeansBudgetExhausted<R(!new)>(
      c: Config, input: seq<ReviewUnit>, spent0: real, run: seq<State<R>>, k: nat)
    requires c.unitCap >= 0.0 && IsRunFrom(c, input, spent0, run) && k < |run|
    requires run[k].phase == Done && run[k].firstError.None?
    ensures run[k].pending != [] ==> c.limit.Some? && c.limit.value <= run[k].spent
    ensures run[k].pending == [] ==> multiset(FinishedUnits(run[k].completed)) == multiset(input)
  {
    RunKeeps(c, input, spent0, run, k);
    var s := run[k];
    assert Units(s.active) == [];
    assert Units(s.active) + s.leaked == [];
    assert AllKeys([]) == {};
    if s.pending != [] {
      assert s.pending[0] in s.pending;
      assert Eligible(s.pending[0], s.activeKeys);
    }
  }

  /** A unit in the way of another: they share a key. */
  ghost predicate Blocks(task: Task, unit: ReviewUnit) {
    exists k :: k in task.unit.keys && k in unit.keys
  }

  /** Slots are not left free while there is work to do: a run without error that waits with
      a free slot and with budget left has only units pending that share a key with a running
      one. */
  lemma WaitingIsJustified<R(!new)>(c: Config, input: seq<ReviewUnit>, spent0: real, run: seq<State<R>>, k: nat)
    requires c.unitCap >= 0.0 && IsRunFrom(c, input, spent0, run) && k < |run|
    requires run[k].phase == Waiting && run[k].firstError.None?
    requires |run[k].active| < (if c.maxConcurrency < 1 then 1 else c.maxConcurrency)
    requires c.limit.Some? ==> run[k].spent < c.limit.value
    ensures forall u :: u in run[k].pending ==> exists i :: 0 <= i < |run[k].active| && Blocks(run[k].active[i], u)
  {
    EveryRunIsSafe(c, input, spent0, run, k);
    RunKeeps(c, input, spent0, run, k);
    var s := run[k];
    forall u | u in s.pending ensures exists i :: 0 <= i < |s.active| && Blocks(s.active[i], u) {
      assert !Eligible(u, s.activeKeys);
      var key :| key in u.keys && key in AllKeys(Units(s.active));
      var v :| v in Units(s.active) && key in v.keys;
      var i :| 0 <= i < |s.active| && s.active[i].unit == v;
      assert Blocks(s.active[i], u);
    }
  }

  /** Once anything has started, spend stays below the limit plus one full unit per slot. */
  lemma SpendStaysBounded<R(!new)>(c: Config, input: seq<ReviewUnit>, spent0: real, run: seq<State<R>>, k: nat)
    requires c.unitCap >= 0.0 && IsRunFrom(c, input, spent0, run) && k < |run|
    requires c.limit.Some? && run[k].starts > 0
    ensures run[k].spent < c.limit.value + ((if c.maxConcurrency < 1 then 1 else c.maxConcurrency) as real) * c.unitCap
  {
    RunKeeps(c, input, spent0, run, k);
    PotentialBounds(c, run[k].active);
  }

  /** A start never overtakes an earlier pending unit whose keys are all among its own. */
  lemma StartsDoNotOvertake<R>(c: Config, s: State<R>, t: State<R>, p: nat, q: nat)
    requires Start(c, s, t, p) && q < p
    ensures !(s.pending[q].keys <= s.pending[p].keys)
  {
    var k :| k in s.pending[q].keys && k in s.activeKeys;
    assert k !in s.pending[p].keys;
  }

  function PhaseRank(p: Phase): nat {
    match p
    case Filling => 3
    case Admitted => 2
    case Waiting => 1
    case Done => 0
    case Aborted => 0
  }

  function Remaining<R>(s: State<R>): nat {
    5 * |s.pending| + 3 * |s.active| + PhaseRank(s.phase)
  }

  /** Only charging the budget repeats: every other step uses up some remaining work,
      so a run makes at most `Remaining(Init)` scheduling steps. */
  lemma SchedulingTerminates<R(!new)>(c: Config, s: State<R>, t: State<R>)
    requires Next(c, s, t)
    ensures Remaining(t) <= Remaining(s)
    ensures Remaining(t) == Remaining(s) ==> exists i: nat, cost: real :: Spend(c, s, t, i, cost)
  {
    if p: nat :| Start(c, s, t, p) {
      assert Remaining(t) < Remaining(s);
    } else if i: nat, cost: real :| Spend(c, s, t, i, cost) {
      assert Remaining(t) == Remaining(s);
    } else {
      assert Remaining(t) < Remaining(s);
    }
  }

  // ---------------------------------------------------------------------
  // The loop
  // ---------------------------------------------------------------------

  /** The position of the first eligible unit, if any. */
  method FirstEligible(pending: seq<ReviewUnit>, activeKeys: set<Key>) returns (position: Option<nat>)
    ensures position.Some? ==> IsFirstEligible(pending, activeKeys, position.value)
    ensures position.None? ==> NoneEligible(pending, activeKeys)
  {
    for p := 0 to |pending|
      invariant forall q :: 0 <= q < p ==> !Eligible(pending[q], activeKeys)
    {
      if Eligible(pending[p], activeKeys) {
        return Some(p);
      }
    }
    return None;
  }

  class SpendBudget {
    const limit: Option<real>
    var spent: real

    constructor (limit: Option<real>, spent: real)
      ensures this.limit == limit && this.spent == spent
    {
      this.limit, this.spent := limit, spent;
    }

    predicate CanStart()
      reads this
    {
      limit.None? || spent < limit.value
    }

    method Add(cost: real)
      modifies this
      ensures spent == old(spent) + cost
    {
      spent := spent + cost;
    }
  }

  /** What a joined task reports; `accepted` is the verdict of `on_completed`. */
  datatype JoinOutcome<R> =
    | TaskOk(result: R, accepted: bool, rejection: string)
    | TaskErr(error: string)
    | TaskPanicked(error: string)

  function ErrorOf<R>(outcome: JoinOutcome<R>): Option<string> {
    match outcome
    case TaskOk(_, _, _) => None
    case TaskErr(error) => Some(error)
    case TaskPanicked(error) => Some(error)
  }

  predicate Rejected<R>(outcome: JoinOutcome<R>) {
    outcome.TaskOk? && !outcome.accepted
  }

  predicate Accepted<R>(outcome: JoinOutcome<R>) {
    outcome.TaskOk? && outcome.accepted
  }

  /** What the units joined so far report, in the order they were joined. */
  function Completions<R>(report: ReviewUnit -> JoinOutcome<R>, joined: seq<ReviewUnit>): seq<Finished<R>> {
    if joined == [] then []
    else
      var unit := joined[|joined| - 1];
      Completions(report, joined[..|joined| - 1])
      + if Accepted(report(unit)) then [Finished(unit, report(unit).result)] else []
  }

  function FirstErrorIn<R>(report: ReviewUnit -> JoinOutcome<R>, joined: seq<ReviewUnit>): Option<string> {
    if joined == [] then None
    else if FirstErrorIn(report, joined[..|joined| - 1]).Some? then FirstErrorIn(report, joined[..|joined| - 1])
    else ErrorOf(report(joined[|joined| - 1]))
  }

  /** The errors that joining can end with are those of joined units, the first one winning. */
  lemma {:induction false} FirstErrorIsReported<R>(report: ReviewUnit -> JoinOutcome<R>, joined: seq<ReviewUnit>)
    ensures FirstErrorIn(report, joined).None? <==> forall u :: u in joined ==> report(u).TaskOk?
    ensures FirstErrorIn(report, joined).Some? ==>
              exists k :: 0 <= k < |joined| && ErrorOf(report(joined[k])) == FirstErrorIn(report, joined)
                          && forall j :: 0 <= j < k ==> report(joined[j]).TaskOk?
  {
    if joined != [] {
      var n := |joined| - 1;
      FirstErrorIsReported(report, joined[..n]);
      assert joined == joined[..n] + [joined[n]];
      if FirstErrorIn(report, joined[..n]).Some? {
        var k :| 0 <= k < n && ErrorOf(report(joined[..n][k])) == FirstErrorIn(report, joined)
                 && forall j :: 0 <= j < k ==> report(joined[..n][j]).TaskOk?;
        forall j | 0 <= j < k ensures report(joined[j]).TaskOk? {
          assert joined[j] == joined[..n][j];
        }
        assert ErrorOf(report(joined[k])) == FirstErrorIn(report, joined);
      }
    }
  }

  /** A completion is an accepted result of its own unit, and accepted units all have theirs,
      in order. */
  lemma {:induction false} CompletionsAreReported<R>(report: ReviewUnit -> JoinOutcome<R>, joined: seq<ReviewUnit>)
    ensures forall f :: f in Completions(report, joined) ==>
              f.unit in joined && Accepted(report(f.unit)) && f.result == report(f.unit).result
    ensures (forall u :: u in joined ==> Accepted(report(u))) ==>
              && |Completions(report, joined)| == |joined|
              && forall k :: 0 <= k < |joined| ==> Completions(report, joined)[k] == Finished(joined[k], report(joined[k]).result)
  {
    if joined != [] {
      var n := |joined| - 1;
      CompletionsAreReported(report, joined[..n]);
      assert joined == joined[..n] + [joined[n]];
    }
  }

  datatype BoundedTaskRun<R> = BoundedTaskRun(completed: seq<R>, stoppedEarly: bool)

  lemma ExtendRun<R(!new)>(c: Config, run: seq<State<R>>, t: State<R>)
    requires IsRun(c, run) && Next(c, run[|run| - 1], t)
    ensures IsRun(c, run + [t])
  {
    var grown := run + [t];
    forall k | 0 <= k < |grown| - 1 ensures StepAt(c, grown, k) {
      if k < |run| - 1 {
        assert StepAt(c, run, k);
      }
    }
  }

  class Scheduler<R(0,!new)> {
    const cfg: Config
    const budget: SpendBudget
    const report: ReviewUnit -> JoinOutcome<R>
    var pending: seq<ReviewUnit>
    var tasks: seq<Task>
    var activeKeys: set<Key>
    var firstError: Option<string>
    var completed: seq<Finished<R>>

    ghost const input: seq<ReviewUnit>
    ghost const spent0: real
    ghost var phase: Phase
    ghost var starts: nat
    ghost var handed: seq<Finished<R>>
    ghost var failed: seq<ReviewUnit>
    ghost var leaked: seq<ReviewUnit>
    ghost var abandoned: seq<ReviewUnit>
    ghost var trace: seq<State<R>>
    ghost var joined: seq<ReviewUnit>

    ghost function Abs(): State<R>
      reads this`phase, this`pending, this`tasks, this`activeKeys, this`firstError, this`completed, this`starts,
            this`handed, this`failed, this`leaked, this`abandoned, budget
    {
      State(phase, pending, tasks, activeKeys, firstError, completed, budget.spent,
            starts, handed, failed, leaked, abandoned)
    }

    ghost predicate Valid()
      reads this`phase, this`pending, this`tasks, this`activeKeys, this`firstError, this`completed, this`starts,
            this`handed, this`failed, this`leaked, this`abandoned, this`trace, budget
    {
      && cfg.unitCap >= 0.0
      && budget.limit == cfg.limit
      && IsRunFrom(cfg, input, spent0, trace)
      && trace[|trace| - 1] == Abs()
    }

    /** The loop's results are what the units joined so far report. */
    ghost predicate Reported()
      reads this`completed, this`firstError, this`joined, this`handed, this`failed, this`leaked
    {
      Tells(report, joined, Joined())
    }

    constructor (cfg: Config, budget: SpendBudget, input: seq<ReviewUnit>, report: ReviewUnit -> JoinOutcome<R>)
      requires cfg.unitCap >= 0.0 && budget.limit == cfg.limit
      ensures Valid() && phase == Filling && Reported() && joined == []
      ensures this.cfg == cfg && this.budget == budget && this.input == input && spent0 == budget.spent
      ensures this.report == report
    {
      this.cfg, this.budget, this.report := cfg, budget, report;
      pending, tasks, activeKeys, firstError, completed := input, [], {}, None, [];
      this.input, spent0 := input, budget.spent;
      phase, starts, handed, failed, leaked, abandoned := Filling, 0, [], [], [], [];
      trace, joined := [Init(input, budget.spent)], [];
    }

    ghost method Observe()
      requires cfg.unitCap >= 0.0 && budget.limit == cfg.limit
      requires IsRunFrom(cfg, input, spent0, trace)
      requires Next(cfg, trace[|trace| - 1], Abs())
      modifies this`trace
      ensures Valid()
    {
      ExtendRun(cfg, trace, Abs());
      trace := trace + [Abs()];
    }

    /** Running tasks charge the budget in any order and amount their caps allow. */
    method LetTasksCharge()
      requires Valid() && phase != Done && phase != Aborted
      modifies this`tasks, this`trace, budget
      ensures Valid() && |tasks| == old(|tasks|)
    {
      var rounds :| 0 <= rounds;
      for n := 0 to rounds
        invariant Valid() && |tasks| == old(|tasks|)
      {
        if tasks != [] {
          var i :| 0 <= i < |tasks|;
          var cost: real := *;
          if 0.0 <= cost && tasks[i].accrued + cost <= cfg.unitCap {
            ghost var before := Abs();
            budget.Add(cost);
            tasks := tasks[i := Task(tasks[i].unit, tasks[i].accrued + cost)];
            assert Spend(cfg, before, Abs(), i, cost);
            Observe();
          }
        }
      }
    }

    method GiveUpFilling()
      requires Valid()
      requires (phase == Filling && !FillGuard(cfg, Abs())) || (phase == Admitted && NoneEligible(pending, activeKeys))
      modifies this`phase, this`trace
      ensures Valid() && phase == Waiting
    {
      ghost var before := Abs();
      phase := Waiting;
      assert GiveUp(cfg, before, Abs());
      Observe();
    }

    method AdmitOne()
      requires Valid() && phase == Filling && FillGuard(cfg, Abs())
      modifies this`phase, this`trace
      ensures Valid() && phase == Admitted
    {
      ghost var before := Abs();
      phase := Admitted;
      assert Admit(cfg, before, Abs());
      Observe();
    }

    method StartAt(position: nat)
      requires Valid() && phase == Admitted && IsFirstEligible(pending, activeKeys, position)
      modifies this`phase, this`pending, this`activeKeys, this`tasks, this`starts, this`trace
      ensures Valid() && phase == Filling
      ensures |pending| == old(|pending|) - 1 && |tasks| == old(|tasks|) + 1
    {
      ghost var before := Abs();
      var unit := pending[position];
      pending := Without(pending, position);
      activeKeys := activeKeys + unit.keys;
      tasks := tasks + [Task(unit, 0.0)];
      phase, starts := Filling, starts + 1;
      assert Start(cfg, before, Abs(), position);
      Observe();
    }

    /** Starts units until the budget, a slot, an error or key conflicts stop it. */
    method FillSlots()
      requires Valid() && phase == Filling
      modifies this`phase, this`pending, this`activeKeys, this`tasks, this`starts, this`trace, budget
      ensures Valid() && phase == Waiting
      ensures 5 * |pending| + 3 * |tasks| <= old(5 * |pending| + 3 * |tasks|)
    {
      while true
        invariant Valid() && phase == Filling
        invariant 5 * |pending| + 3 * |tasks| <= old(5 * |pending| + 3 * |tasks|)
        decreases |pending|
      {
        LetTasksCharge();
        if !(firstError.None? && |tasks| < cfg.Slots() && budget.CanStart()) {
          GiveUpFilling();
          return;
        }
        AdmitOne();
        LetTasksCharge();
        var position := FirstEligible(pending, activeKeys);
        if position.None? {
          GiveUpFilling();
          return;
        }
        StartAt(position.value);
      }
    }

    method Succeed(i: nat, result: R, accepted: bool)
      requires Valid() && phase == Waiting && i < |tasks|
      modifies this`activeKeys, this`handed, this`completed, this`tasks, this`phase, this`abandoned, this`trace
      ensures Valid() && handed == old(handed) + [Finished(old(tasks[i].unit), result)]
      ensures completed == old(completed) + if accepted then [Finished(old(tasks[i].unit), result)] else []
      ensures if accepted then phase == Filling && |tasks| < old(|tasks|) else phase == Aborted
    {
      ghost var before := Abs();
      var unit := tasks[i].unit;
      activeKeys := activeKeys - unit.keys;
      handed := handed + [Finished(unit, result)];
      if accepted {
        completed := completed + [Finished(unit, result)];
        tasks, phase := Without(tasks, i), Filling;
        assert JoinSuccess(before, Abs(), i, result);
      } else {
        abandoned := Units(Without(tasks, i));
        tasks, phase := [], Aborted;
        assert JoinRejected(before, Abs(), i, result);
      }
      Observe();
    }

    method Fail(i: nat, error: string)
      requires Valid() && phase == Waiting && i < |tasks|
      modifies this`activeKeys, this`failed, this`firstError, this`tasks, this`phase, this`trace
      ensures Valid() && phase == Filling && |tasks| < old(|tasks|)
      ensures firstError == KeptError(old(firstError), error) && failed == old(failed) + [old(tasks[i].unit)]
    {
      ghost var before := Abs();
      var unit := tasks[i].unit;
      activeKeys := activeKeys - unit.keys;
      firstError := KeptError(firstError, error);
      failed, tasks, phase := failed + [unit], Without(tasks, i), Filling;
      assert JoinFailure(before, Abs(), i, error);
      Observe();
    }

    /** A panicked task keeps its keys. */
    method Panic(i: nat, error: string)
      requires Valid() && phase == Waiting && i < |tasks|
      modifies this`leaked, this`firstError, this`tasks, this`phase, this`trace
      ensures Valid() && phase == Filling && |tasks| < old(|tasks|)
      ensures firstError == KeptError(old(firstError), error) && leaked == old(leaked) + [old(tasks[i].unit)]
    {
      ghost var before := Abs();
      var unit := tasks[i].unit;
      firstError := KeptError(firstError, error);
      leaked, tasks, phase := leaked + [unit], Without(tasks, i), Filling;
      assert JoinPanic(before, Abs(), i, error);
      Observe();
    }

    /** Joins whichever task ends first; returns the rejection when `on_completed` fails. */
    method JoinNext() returns (rejection: Option<string>, ghost unit: ReviewUnit)
      requires Valid() && phase == Waiting && tasks != []
      modifies this`activeKeys, this`handed, this`completed, this`failed, this`leaked, this`firstError, this`tasks,
               this`phase, this`abandoned, this`trace, budget
      ensures Valid() && Joined() == AfterJoin(report, old(Joined()), unit)
      ensures rejection == RejectionOf(report(unit))
      ensures if rejection.Some? then phase == Aborted else phase == Filling && |tasks| < old(|tasks|)
    {
      LetTasksCharge();
      var i :| 0 <= i < |tasks|;
      unit := tasks[i].unit;
      var outcome := report(tasks[i].unit);
      match outcome {
        case TaskOk(result, accepted, _) => Succeed(i, result, accepted);
        case TaskErr(error) => Fail(i, error);
        case TaskPanicked(error) => Panic(i, error);
      }
      rejection := RejectionOf(outcome);
    }

    ghost function Joined(): Tally<R>
      reads this`completed, this`firstError, this`handed, this`failed, this`leaked
    {
      Tally(completed, firstError, handed, failed, leaked)
    }

    /** The history of joins, one longer. */
    ghost method Remember(before: Tally<R>, unit: ReviewUnit)
      requires Tells(report, joined, before) && NoneRejected(report, joined)
      requires Joined() == AfterJoin(report, before, unit)
      modifies this`joined
      ensures Reported()
      ensures if RejectionOf(report(unit)).None? then NoneRejected(report, joined)
              else RejectedLast(report, joined, RejectionOf(report(unit)))
    {
      TellsOneMore(report, joined, before, unit);
      RejectedOneMore(report, joined, unit);
      joined := joined + [unit];
    }

    method JoinAndRemember() returns (rejection: Option<string>)
      requires Valid() && phase == Waiting && tasks != [] && Reported() && NoneRejected(report, joined)
      modifies this`activeKeys, this`handed, this`completed, this`failed, this`leaked, this`firstError, this`tasks,
               this`phase, this`abandoned, this`trace, this`joined, budget
      ensures Valid() && Reported()
      ensures if rejection.None? then NoneRejected(report, joined) else RejectedLast(report, joined, rejection)
      ensures if rejection.None? then phase == Filling && |tasks| < old(|tasks|) else phase == Aborted
    {
      ghost var before := Joined();
      ghost var unit;
      rejection, unit := JoinNext();
      Remember(before, unit);
    }

    method FinishRun()
      requires Valid() && phase == Waiting && tasks == []
      modifies this`phase, this`trace
      ensures Valid() && phase == Done
    {
      ghost var before := Abs();
      phase := Done;
      assert Finish(before, Abs());
      Observe();
    }

    /** One round of the outer loop: fill the slots, then join a task if there is one. */
    method Round() returns (ended: bool, rejection: Option<string>)
      requires Valid() && phase == Filling && Reported() && NoneRejected(report, joined)
      modifies this`activeKeys, this`handed, this`completed, this`failed, this`leaked, this`firstError, this`tasks, this`pending,
               this`starts, this`phase, this`abandoned, this`trace, this`joined, budget
      ensures Valid() && Reported()
      ensures if rejection.None? then NoneRejected(report, joined) else ended && RejectedLast(report, joined, rejection)
      ensures phase == if !ended then Filling else if rejection.None? then Done else Aborted
      ensures !ended ==> 5 * |pending| + 3 * |tasks| < old(5 * |pending| + 3 * |tasks|)
    {
      FillSlots();
      if tasks == [] {
        FinishRun();
        return true, None;
      }
      rejection := JoinAndRemember();
      ended := rejection.Some?;
    }

    /** The outer loop: until no task is left, or a rejection. */
    method Loop() returns (rejection: Option<string>)
      requires Valid() && phase == Filling && Reported() && joined == []
      modifies this, budget
      ensures Valid() && Reported()
      ensures if rejection.None? then phase == Done && NoneRejected(report, joined)
              else phase == Aborted && RejectedLast(report, joined, rejection)
    {
      var ended := false;
      rejection := None;
      while !ended
        invariant Valid() && Reported()
        invariant if rejection.None? then NoneRejected(report, joined) else ended && RejectedLast(report, joined, rejection)
        invariant phase == if !ended then Filling else if rejection.None? then Done else Aborted
        decreases !ended, 5 * |pending| + 3 * |tasks|
      {
        ended, rejection := Round();
      }
    }

    /** `run_bounded_review_tasks_keyed_until`. */
    method Run() returns (outcome: Result<BoundedTaskRun<R>, string>)
      requires Valid() && phase == Filling && Reported() && joined == []
      modifies this, budget
      ensures Valid() && (phase == Done || phase == Aborted)
      ensures IsResult(report, joined, phase == Aborted, pending != [], outcome)
      ensures multiset(joined) <= multiset(input)
      ensures outcome.Success? && !outcome.value.stoppedEarly ==> multiset(joined) == multiset(input)
      ensures outcome.Success? && outcome.value.stoppedEarly ==>
                cfg.limit.Some? && cfg.limit.value <= budget.spent
      ensures cfg.limit.Some? && starts > 0 ==>
                budget.spent < cfg.limit.value + (cfg.Slots() as real) * cfg.unitCap
    {
      var rejection := Loop();
      Conclude();
      if rejection.Some? {
        return Failure(rejection.value);
      }
      outcome := match firstError
        case Some(error) => Failure(error)
        case None => Success(BoundedTaskRun(Results(completed), pending != []));
    }

    lemma {:induction false} Conclude()
      requires Valid() && (phase == Done || phase == Aborted) && Reported()
      ensures multiset(joined) <= multiset(input)
      ensures phase == Done && firstError.None? && pending == [] ==> multiset(joined) == multiset(input)
      ensures phase == Done && firstError.None? && pending != [] ==>
                cfg.limit.Some? && cfg.limit.value <= budget.spent
      ensures cfg.limit.Some? && starts > 0 ==>
                budget.spent < cfg.limit.value + (cfg.Slots() as real) * cfg.unitCap
    {
      var k := |trace| - 1;
      JoinedAreInput(cfg, input, spent0, trace, k, joined);
      if phase == Done && firstError.None? {
        EarlyStopMeansBudgetExhausted(cfg, input, spent0, trace, k);
      }
      if cfg.limit.Some? && starts > 0 {
        SpendStaysBounded(cfg, input, spent0, trace, k);
      }
    }
  }

  /** The result of joining these units, in terms of what they report: a rejection ends the
      run; otherwise the first error wins; otherwise the results are the reported ones. */
  ghost predicate IsResult<R>(report: ReviewUnit -> JoinOutcome<R>, joined: seq<ReviewUnit>, aborted: bool, left: bool,
                              outcome: Result<BoundedTaskRun<R>, string>)
  {
    if aborted then
      outcome.Failure? && RejectedLast(report, joined, Some(outcome.error))
    else
      && NoneRejected(report, joined)
      && outcome == match FirstErrorIn(report, joined)
         case Some(error) => Failure(error)
         case None => Success(BoundedTaskRun(Results(Completions(report, joined)), left))
  }

  /** Where a failed run went wrong: at the first joined unit with an error, or at the
      rejection that came last. */
  ghost predicate FailsAt<R>(report: ReviewUnit -> JoinOutcome<R>, joined: seq<ReviewUnit>, k: nat, error: string) {
    && k < |joined|
    && if Rejected(report(joined[k])) then k == |joined| - 1 && RejectionOf(report(joined[k])) == Some(error)
       else ErrorOf(report(joined[k])) == Some(error) && forall j :: 0 <= j < k ==> report(joined[j]).TaskOk?
  }

  /** A run succeeds exactly when every unit it joined reports an accepted result, and then
      its results are those, one for each unit, in the order of joining; otherwise its error
      is one that a joined unit reports. When all units would be accepted it succeeds. */
  lemma ResultsAreReported<R>(report: ReviewUnit -> JoinOutcome<R>, input: seq<ReviewUnit>, joined: seq<ReviewUnit>,
                              aborted: bool, left: bool, outcome: Result<BoundedTaskRun<R>, string>)
    requires IsResult(report, joined, aborted, left, outcome) && multiset(joined) <= multiset(input)
    ensures outcome.Success? <==> forall u :: u in joined ==> Accepted(report(u))
    ensures outcome.Success? ==>
              && |outcome.value.completed| == |joined|
              && forall k :: 0 <= k < |joined| ==>
                   Accepted(report(joined[k])) && outcome.value.completed[k] == report(joined[k]).result
    ensures outcome.Failure? ==> exists k :: FailsAt(report, joined, k, outcome.error)
    ensures (forall u :: u in input ==> Accepted(report(u))) ==> outcome.Success?
  {
    FirstErrorIsReported(report, joined);
    CompletionsAreReported(report, joined);
    forall u | u in joined ensures u in input {
      assert u in multiset(joined);
    }
    if outcome.Failure? {
      if aborted {
        assert FailsAt(report, joined, |joined| - 1, outcome.error);
        assert joined[|joined| - 1] in joined;
      } else {
        var k :| 0 <= k < |joined| && ErrorOf(report(joined[k])) == FirstErrorIn(report, joined)
                 && forall j :: 0 <= j < k ==> report(joined[j]).TaskOk?;
        assert FailsAt(report, joined, k, outcome.error);
        assert joined[k] in joined;
      }
    }
  }

  /** `get_or_insert`: the first error stays. */
  function KeptError(first: Option<string>, error: string): Option<string> {
    if first.None? then Some(error) else first
  }

  function RejectionOf<R>(outcome: JoinOutcome<R>): Option<string> {
    if Rejected(outcome) then Some(outcome.rejection) else None
  }

  ghost predicate RejectedLast<R>(report: ReviewUnit -> JoinOutcome<R>, joined: seq<ReviewUnit>, rejection: Option<string>) {
    && joined != [] && Rejected(report(joined[|joined| - 1])) && NoneRejected(report, joined[..|joined| - 1])
    && rejection == RejectionOf(report(joined[|joined| - 1]))
  }

  lemma RejectedOneMore<R>(report: ReviewUnit -> JoinOutcome<R>, joined: seq<ReviewUnit>, unit: ReviewUnit)
    requires NoneRejected(report, joined)
    ensures if RejectionOf(report(unit)).None? then NoneRejected(report, joined + [unit])
            else RejectedLast(report, joined + [unit], RejectionOf(report(unit)))
  {
    assert (joined + [unit])[..|joined|] == joined;
  }

  ghost predicate NoneRejected<R>(report: ReviewUnit -> JoinOutcome<R>, joined: seq<ReviewUnit>) {
    forall u :: u in joined ==> !Rejected(report(u))
  }

  /** What joining has brought so far. */
  datatype Tally<R> = Tally(completed: seq<Finished<R>>, firstError: Option<string>, handed: seq<Finished<R>>,
                            failed: seq<ReviewUnit>, leaked: seq<ReviewUnit>)

  function AfterJoin<R>(report: ReviewUnit -> JoinOutcome<R>, t: Tally<R>, unit: ReviewUnit): Tally<R> {
    match report(unit)
    case TaskOk(result, accepted, _) =>
      t.(completed := t.completed + (if accepted then [Finished(unit, result)] else []),
         handed := t.handed + [Finished(unit, result)])
    case TaskErr(error) => t.(firstError := KeptError(t.firstError, error), failed := t.failed + [unit])
    case TaskPanicked(error) => t.(firstError := KeptError(t.firstError, error), leaked := t.leaked + [unit])
  }

  /** The loop's results in terms of what the joined units report. */
  ghost predicate Tells<R>(report: ReviewUnit -> JoinOutcome<R>, joined: seq<ReviewUnit>, t: Tally<R>) {
    && t.completed == Completions(report, joined) && t.firstError == FirstErrorIn(report, joined)
    && multiset(joined) == multiset(FinishedUnits(t.handed)) + multiset(t.failed) + multiset(t.leaked)
  }

  lemma OneMoreReport<R>(report: ReviewUnit -> JoinOutcome<R>, joined: seq<ReviewUnit>, unit: ReviewUnit)
    ensures Completions(report, joined + [unit])
         == Completions(report, joined) + (if Accepted(report(unit)) then [Finished(unit, report(unit).result)] else [])
    ensures FirstErrorIn(report, joined + [unit])
         == if FirstErrorIn(report, joined).Some? then FirstErrorIn(report, joined) else ErrorOf(report(unit))
  {
    assert (joined + [unit])[..|joined|] == joined;
  }

  lemma OneMoreFinished<R>(handed: seq<Finished<R>>, f: Finished<R>)
    ensures multiset(FinishedUnits(handed + [f])) == multiset(FinishedUnits(handed)) + multiset{f.unit}
  {
    assert FinishedUnits(handed + [f]) == FinishedUnits(handed) + [f.unit];
  }

  /** Joining one more unit adds exactly its own report. */
  lemma TellsOneMore<R>(report: ReviewUnit -> JoinOutcome<R>, joined: seq<ReviewUnit>, t: Tally<R>, unit: ReviewUnit)
    requires Tells(report, joined, t)
    ensures Tells(report, joined + [unit], AfterJoin(report, t, unit))
  {
    OneMoreReport(report, joined, unit);
    if report(unit).TaskOk? {
      OneMoreFinished(t.handed, Finished(unit, report(unit).result));
    }
  }

  lemma JoinedAreInput<R(!new)>(c: Config, input: seq<ReviewUnit>, spent0: real, run: seq<State<R>>, k: nat, joined: seq<ReviewUnit>)
    requires c.unitCap >= 0.0 && IsRunFrom(c, input, spent0, run) && k < |run|
    requires multiset(joined) == multiset(FinishedUnits(run[k].handed)) + multiset(run[k].failed) + multiset(run[k].leaked)
    ensures multiset(joined) <= multiset(input)
    ensures run[k].phase == Done && run[k].firstError.None? && run[k].pending == [] ==> multiset(joined) == multiset(input)
  {
    RunKeeps(c, input, spent0, run, k);
    var s := run[k];
    assert Conserved(input, s) && Bookkeeping(c, s);
    if s.phase == Done && s.firstError.None? && s.pending == [] {
      assert Units(s.active) == [];
    }
  }
}
