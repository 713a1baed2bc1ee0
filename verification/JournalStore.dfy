/** The journal store and its reload. */
module JournalStore {
  import opened Wrappers
  import opened JournalFile
  import opened Sequences
  import Text

  // What the store keeps in memory, and why that is always what a reload of the file
  // would compute (`JournalStore` and `load_state` in src/analyzer_journal.rs).

  const JOURNAL_VERSION: nat := 3

  datatype Stage = Role | Method | Synthesis | Adjudication | Proof

  datatype Tier = Slop | KindaSlop | Clean | Unresolved

  datatype Verdict = Verdict(
    checkType: string, filePath: string, methodName: Option<string>,
    tier: Tier, reason: string, loc: nat, startLine: nat, endLine: nat)

  datatype MethodReviewRecord = MethodReviewRecord(
    unitId: string, sourceHash: string, filePath: string, methodName: string,
    loc: nat, startLine: nat, endLine: nat, verdict: Verdict)

  /** The result fields of the stages other than method review. */
  datatype Payload = Payload(cases: seq<string>, decisions: seq<string>, proofs: seq<string>, role: Option<string>)

  const EMPTY_PAYLOAD := Payload([], [], [], None)

  datatype JournalEntry = JournalEntry(
    version: nat, scanId: string, stage: Stage, isManifest: bool, unitId: string,
    expectedUnits: nat, sourceHash: string, semanticIndexHash: string, reviewContextHash: string,
    verdict: Option<Verdict>, methodRecord: Option<MethodReviewRecord>, payload: Payload,
    inTok: nat, outTok: nat, cachedInTok: nat, cost: nat, retryOnResume: bool)
  {
    predicate IsReusable() {
      if retryOnResume then false
      else if stage != Method then true
      else verdict.Some? && (verdict.value.checkType != "method" || methodRecord.Some?)
    }
  }

  /** An entry that is not to be retried can be used again; in method review it must hold a
      verdict too, and the record if the verdict is a method's. */
  lemma ReusableExactlyWhen(e: JournalEntry)
    ensures e.IsReusable() <==>
              && !e.retryOnResume
              && (e.stage == Method ==>
                    exists v: Verdict :: e.verdict == Some(v) && (v.checkType == "method" ==> e.methodRecord != None))
  {
    if e.stage == Method && e.verdict.Some? {
      assert e.verdict == Some(e.verdict.value);
    }
  }

  datatype JournalContext = JournalContext(
    scanId: string, stage: Stage, semanticIndexHash: string, reviewContextHash: string, expectedUnits: nat)
  {
    predicate MatchesCache(e: JournalEntry) {
      e.version == JOURNAL_VERSION && e.stage == stage && e.reviewContextHash == reviewContextHash
    }

    predicate CountsSpend(e: JournalEntry) {
      e.version == JOURNAL_VERSION && e.scanId == scanId
    }

    predicate CountsUsage(e: JournalEntry) {
      CountsSpend(e) && e.stage == stage
    }

    predicate IsCurrentScan(e: JournalEntry) {
      e.scanId == scanId
    }
  }

  /** Rates are counted in whole units of price per million tokens, and costs in millionths
      of that unit. The code rejects negative rates. */
  datatype PricingRates = PricingRates(input: nat, cachedInput: nat, output: nat) {
    function Cost(inTok: nat, cachedInTok: nat, outTok: nat): nat {
      var cached := if cachedInTok < inTok then cachedInTok else inTok;
      (inTok - cached) * input + cached * cachedInput + outTok * output
    }
  }

  // ---------------------------------------------------------------------
  // Reloading: `load_state`
  // ---------------------------------------------------------------------

  datatype LoadedState = LoadedState(
    completed: map<string, JournalEntry>, spent: nat, inTok: nat, outTok: nat, cachedInTok: nat)

  function Completed(ctx: JournalContext, entries: seq<JournalEntry>): map<string, JournalEntry> {
    if entries == [] then map[]
    else
      var e := entries[|entries| - 1];
      var before := Completed(ctx, entries[..|entries| - 1]);
      if !e.isManifest && ctx.MatchesCache(e) then before[e.unitId := e] else before
  }

  function Total(f: JournalEntry -> nat, keep: JournalEntry -> bool, entries: seq<JournalEntry>): nat {
    if entries == [] then 0
    else (if keep(entries[0]) then f(entries[0]) else 0) + Total(f, keep, entries[1..])
  }

  function TotalCost(ctx: JournalContext, entries: seq<JournalEntry>): nat {
    if entries == [] then 0
    else (if ctx.CountsSpend(entries[0]) then entries[0].cost else 0) + TotalCost(ctx, entries[1..])
  }

  function LoadState(ctx: JournalContext, entries: seq<JournalEntry>): LoadedState {
    var usage := (e: JournalEntry) => ctx.CountsUsage(e);
    LoadedState(
      Completed(ctx, entries),
      TotalCost(ctx, entries),
      Total((e: JournalEntry) => e.inTok, usage, entries),
      Total((e: JournalEntry) => e.outTok, usage, entries),
      Total((e: JournalEntry) => e.cachedInTok, usage, entries))
  }

  /** The entry a reload keeps for a unit is the last non-manifest one of this cache. */
  ghost predicate IsLastMatch(ctx: JournalContext, entries: seq<JournalEntry>, unitId: string, k: nat) {
    && k < |entries|
    && Matches(ctx, entries[k], unitId)
    && forall j :: k < j < |entries| ==> !Matches(ctx, entries[j], unitId)
  }

  predicate Matches(ctx: JournalContext, e: JournalEntry, unitId: string) {
    !e.isManifest && ctx.MatchesCache(e) && e.unitId == unitId
  }

  lemma {:induction false} CompletedIsTheLastMatch(ctx: JournalContext, entries: seq<JournalEntry>, unitId: string)
    ensures unitId in Completed(ctx, entries) <==> exists k: nat :: IsLastMatch(ctx, entries, unitId, k)
    ensures forall k: nat :: IsLastMatch(ctx, entries, unitId, k) ==>
              unitId in Completed(ctx, entries) && Completed(ctx, entries)[unitId] == entries[k]
  {
    if entries != [] {
      var n := |entries| - 1;
      var shorter := entries[..n];
      CompletedIsTheLastMatch(ctx, shorter, unitId);
      if Matches(ctx, entries[n], unitId) {
        assert IsLastMatch(ctx, entries, unitId, n);
      } else {
        forall k: nat ensures IsLastMatch(ctx, entries, unitId, k) <==> IsLastMatch(ctx, shorter, unitId, k) {
          if IsLastMatch(ctx, shorter, unitId, k) {
            forall j | k < j < |entries| ensures !Matches(ctx, entries[j], unitId) {
              if j < n {
                assert entries[j] == shorter[j];
              }
            }
          } else if IsLastMatch(ctx, entries, unitId, k) {
            forall j | k < j < n ensures !Matches(ctx, shorter[j], unitId) {
              assert entries[j] == shorter[j];
            }
          }
        }
      }
    }
  }

  // ---------------------------------------------------------------------
  // What each store operation appends and how it updates memory
  // ---------------------------------------------------------------------

  /** `record` and its four siblings for the other stages, usage events and reuse marks. */
  datatype Operation =
    | RecordResult(stage: Stage, unitId: string, sourceHash: string, verdict: Option<Verdict>,
                   methodRecord: Option<MethodReviewRecord>, payload: Payload,
                   inTok: nat, outTok: nat, cachedInTok: nat, retryOnResume: bool)
    | RecordUsage(eventId: string, inTok: nat, outTok: nat, cachedInTok: nat)
    | RecordCrossScanReuse(unitId: string, sourceHash: string)

  function Blank(ctx: JournalContext, isManifest: bool, unitId: string, sourceHash: string): JournalEntry {
    JournalEntry(JOURNAL_VERSION, ctx.scanId, ctx.stage, isManifest, unitId, ctx.expectedUnits, sourceHash,
                 ctx.semanticIndexHash, ctx.reviewContextHash, None, None, EMPTY_PAYLOAD, 0, 0, 0, 0, false)
  }

  function StageLabel(stage: Stage): string {
    match stage
    case Role => "role"
    case Method => "method"
    case Synthesis => "synthesis"
    case Adjudication => "adjudication"
    case Proof => "proof"
  }

  function ManifestId(ctx: JournalContext): string {
    "__manifest__:" + StageLabel(ctx.stage)
  }

  function ReuseId(ctx: JournalContext, unitId: string): string {
    Text.AsciiLower("__reuse__:" + StageLabel(ctx.stage) + ":" + unitId)
  }

  function UsageEntry(ctx: JournalContext, rates: PricingRates, eventId: string, inTok: nat, outTok: nat, cachedInTok: nat)
    : JournalEntry
  {
    Blank(ctx, true, "__usage__:" + StageLabel(ctx.stage) + ":" + eventId, "").(
      inTok := inTok, outTok := outTok, cachedInTok := cachedInTok, cost := rates.Cost(inTok, cachedInTok, outTok))
  }

  /** The entry the operation appends; None when it is refused or has nothing to say. */
  function EntryFor(ctx: JournalContext, rates: PricingRates, op: Operation): Option<JournalEntry> {
    match op
    case RecordResult(stage, unitId, sourceHash, verdict, methodRecord, payload, inTok, outTok, cachedInTok, retry) =>
      if stage != ctx.stage then None
      else Some(Blank(ctx, false, unitId, sourceHash).(
        verdict := verdict, methodRecord := methodRecord, payload := payload,
        inTok := inTok, outTok := outTok, cachedInTok := cachedInTok,
        cost := rates.Cost(inTok, cachedInTok, outTok), retryOnResume := retry))
    case RecordUsage(eventId, inTok, outTok, cachedInTok) =>
      if inTok == 0 && outTok == 0 && cachedInTok == 0 then None
      else Some(UsageEntry(ctx, rates, eventId, inTok, outTok, cachedInTok))
    case RecordCrossScanReuse(unitId, sourceHash) =>
      Some(Blank(ctx, true, ReuseId(ctx, unitId), sourceHash))
  }

  /** The in-memory update each operation makes beside its append. */
  function Update(ctx: JournalContext, rates: PricingRates, m: LoadedState, op: Operation): LoadedState {
    match EntryFor(ctx, rates, op)
    case None => m
    case Some(e) =>
      match op
      case RecordResult(_, unitId, _, _, _, _, inTok, outTok, cachedInTok, _) =>
        LoadedState(m.completed[unitId := e], m.spent + e.cost,
                    m.inTok + inTok, m.outTok + outTok, m.cachedInTok + cachedInTok)
      case RecordUsage(_, inTok, outTok, cachedInTok) =>
        LoadedState(m.completed, m.spent + e.cost,
                    m.inTok + inTok, m.outTok + outTok, m.cachedInTok + cachedInTok)
      case RecordCrossScanReuse(_, _) => m
  }

  lemma {:induction false} TotalAppend(
      f: JournalEntry -> nat, keep: JournalEntry -> bool, entries: seq<JournalEntry>, e: JournalEntry)
    ensures Total(f, keep, entries + [e]) == Total(f, keep, entries) + if keep(e) then f(e) else 0
  {
    if entries == [] {
      assert entries + [e] == [e];
      assert Total(f, keep, [e]) == (if keep(e) then f(e) else 0) + Total(f, keep, []);
    } else {
      assert (entries + [e])[1..] == entries[1..] + [e];
      TotalAppend(f, keep, entries[1..], e);
    }
  }

  lemma {:induction false} TotalCostAppend(ctx: JournalContext, entries: seq<JournalEntry>, e: JournalEntry)
    ensures TotalCost(ctx, entries + [e]) == TotalCost(ctx, entries) + if ctx.CountsSpend(e) then e.cost else 0
  {
    if entries == [] {
      assert entries + [e] == [e];
      assert TotalCost(ctx, [e]) == (if ctx.CountsSpend(e) then e.cost else 0) + TotalCost(ctx, []);
    } else {
      assert (entries + [e])[1..] == entries[1..] + [e];
      TotalCostAppend(ctx, entries[1..], e);
    }
  }

  /** What a reload computes after one more entry of this context. */
  lemma LoadAfterAppend(ctx: JournalContext, entries: seq<JournalEntry>, e: JournalEntry)
    requires ctx.CountsUsage(e) && ctx.MatchesCache(e)
    ensures var before, after := LoadState(ctx, entries), LoadState(ctx, entries + [e]);
            && after.completed == (if e.isManifest then before.completed else before.completed[e.unitId := e])
            && after.spent == before.spent + e.cost
            && after.inTok == before.inTok + e.inTok
            && after.outTok == before.outTok + e.outTok
            && after.cachedInTok == before.cachedInTok + e.cachedInTok
  {
    assert (entries + [e])[..|entries|] == entries;
    var usage := (x: JournalEntry) => ctx.CountsUsage(x);
    TotalAppend((x: JournalEntry) => x.inTok, usage, entries, e);
    TotalAppend((x: JournalEntry) => x.outTok, usage, entries, e);
    TotalAppend((x: JournalEntry) => x.cachedInTok, usage, entries, e);
    TotalCostAppend(ctx, entries, e);
  }

  function AppendedBy(ctx: JournalContext, rates: PricingRates, op: Operation): seq<JournalEntry> {
    match EntryFor(ctx, rates, op)
    case None => []
    case Some(e) => [e]
  }

  lemma UpdateIsReload(ctx: JournalContext, rates: PricingRates, entries: seq<JournalEntry>, op: Operation)
    ensures Update(ctx, rates, LoadState(ctx, entries), op)
         == LoadState(ctx, entries + AppendedBy(ctx, rates, op))
  {
    match EntryFor(ctx, rates, op) {
      case None => assert entries + [] == entries;
      case Some(e) => LoadAfterAppend(ctx, entries, e);
    }
  }

  /** What one more entry of any kind does to a reload, field by field: spend counts this
      scan's entries of the current version, tokens those of them of this stage, and a result
      replaces what the cache held for its unit. */
  lemma OneMoreEntry(ctx: JournalContext, entries: seq<JournalEntry>, e: JournalEntry)
    ensures var before, after := LoadState(ctx, entries), LoadState(ctx, entries + [e]);
            var own := e.version == 3 && e.scanId == ctx.scanId;
            var here := own && e.stage == ctx.stage;
            && after.spent == before.spent + (if own then e.cost else 0)
            && after.inTok == before.inTok + (if here then e.inTok else 0)
            && after.outTok == before.outTok + (if here then e.outTok else 0)
            && after.cachedInTok == before.cachedInTok + (if here then e.cachedInTok else 0)
            && after.completed ==
                 if !e.isManifest && e.version == 3 && e.stage == ctx.stage && e.reviewContextHash == ctx.reviewContextHash
                 then before.completed[e.unitId := e] else before.completed
  {
    assert (entries + [e])[..|entries|] == entries;
    var usage := (x: JournalEntry) => ctx.CountsUsage(x);
    TotalAppend((x: JournalEntry) => x.inTok, usage, entries, e);
    TotalAppend((x: JournalEntry) => x.outTok, usage, entries, e);
    TotalAppend((x: JournalEntry) => x.cachedInTok, usage, entries, e);
    TotalCostAppend(ctx, entries, e);
  }

  /** An empty journal has cost nothing and holds nothing. */
  lemma NothingIsLoaded(ctx: JournalContext)
    ensures LoadState(ctx, []) == LoadedState(map[], 0, 0, 0, 0)
  {
  }

  /** What a reload sees of a recorded result: its price at the rates, its tokens, and what was
      recorded for its unit. */
  lemma ResultsAreReloaded(ctx: JournalContext, rates: PricingRates, entries: seq<JournalEntry>, op: Operation)
    returns (e: JournalEntry)
    requires op.RecordResult? && op.stage == ctx.stage
    ensures e.sourceHash == op.sourceHash && e.verdict == op.verdict && e.methodRecord == op.methodRecord
    ensures e.payload == op.payload && e.retryOnResume == op.retryOnResume && e.scanId == ctx.scanId
    ensures var before := LoadState(ctx, entries);
            LoadState(ctx, entries + AppendedBy(ctx, rates, op))
              == LoadedState(before.completed[op.unitId := e], before.spent + rates.Cost(op.inTok, op.cachedInTok, op.outTok),
                             before.inTok + op.inTok, before.outTok + op.outTok, before.cachedInTok + op.cachedInTok)
  {
    e := EntryFor(ctx, rates, op).value;
    OneMoreEntry(ctx, entries, e);
  }

  /** What a reload sees of a usage event and of a reuse mark. */
  lemma UsageIsReloaded(ctx: JournalContext, rates: PricingRates, entries: seq<JournalEntry>, op: Operation)
    requires !op.RecordResult?
    ensures var before := LoadState(ctx, entries);
            LoadState(ctx, entries + AppendedBy(ctx, rates, op))
              == match op
                 case RecordUsage(_, inTok, outTok, cachedInTok) =>
                   LoadedState(before.completed, before.spent + rates.Cost(inTok, cachedInTok, outTok),
                               before.inTok + inTok, before.outTok + outTok, before.cachedInTok + cachedInTok)
                 case _ => before
  {
    match EntryFor(ctx, rates, op) {
      case None =>
        assert entries + [] == entries;
        FreeOfCharge(rates);
      case Some(e) => OneMoreEntry(ctx, entries, e);
    }
  }

  /** The entry belongs to this scan, stage and review context. */
  ghost predicate IsOf(ctx: JournalContext, e: JournalEntry) {
    && e.version == 3 && e.scanId == ctx.scanId && e.stage == ctx.stage && e.expectedUnits == ctx.expectedUnits
    && e.semanticIndexHash == ctx.semanticIndexHash && e.reviewContextHash == ctx.reviewContextHash
  }

  /** What is written: a result of the store's own stage, a usage that used something, every
      reuse mark, always for this scan; only results are not marked as manifest entries. */
  lemma WhatIsWritten(ctx: JournalContext, rates: PricingRates, op: Operation)
    ensures var entries := AppendedBy(ctx, rates, op);
            match op
            case RecordResult(stage, unitId, sourceHash, _, _, _, _, _, _, _) =>
              if stage != ctx.stage then entries == []
              else |entries| == 1 && IsOf(ctx, entries[0]) && !entries[0].isManifest
                   && entries[0].unitId == unitId && entries[0].sourceHash == sourceHash
            case RecordUsage(_, inTok, outTok, cachedInTok) =>
              if inTok + outTok + cachedInTok == 0 then entries == []
              else |entries| == 1 && IsOf(ctx, entries[0]) && entries[0].isManifest && !entries[0].retryOnResume
            case RecordCrossScanReuse(unitId, sourceHash) =>
              && |entries| == 1 && IsOf(ctx, entries[0]) && entries[0].isManifest && entries[0].sourceHash == sourceHash
              && !entries[0].retryOnResume
              && Text.AsciiLower("__reuse__:") <= entries[0].unitId
              && |Text.AsciiLower(unitId)| <= |entries[0].unitId|
              && entries[0].unitId[|entries[0].unitId| - |unitId|..] == Text.AsciiLower(unitId)
  {
    if op.RecordCrossScanReuse? {
      var stage := StageLabel(ctx.stage);
      Text.AsciiLowerConcat("__reuse__:" + stage + ":", op.unitId);
      Text.AsciiLowerConcat("__reuse__:" + stage, ":");
      Text.AsciiLowerConcat("__reuse__:", stage);
    }
  }

  /** The price of nothing, of one token of each kind, and of more cached tokens than went in. */
  lemma UnitPrices(rates: PricingRates, a: nat, b: nat, extra: nat)
    ensures rates.Cost(1, 0, 0) == rates.input && rates.Cost(1, 1, 0) == rates.cachedInput && rates.Cost(0, 0, 1) == rates.output
    ensures rates.Cost(a, a + extra, b) == rates.Cost(a, a, b)
  {
  }

  lemma FreeOfCharge(rates: PricingRates)
    ensures rates.Cost(0, 0, 0) == 0
  {
  }

  /** Prices add up, whatever part of the input was cached. */
  lemma PricesAddUp(rates: PricingRates, a: nat, c: nat, b: nat, a': nat, c': nat, b': nat)
    requires c <= a && c' <= a'
    ensures rates.Cost(a + a', c + c', b + b') == rates.Cost(a, c, b) + rates.Cost(a', c', b')
  {
    Distribute(a - c, a' - c', rates.input);
    Distribute(c, c', rates.cachedInput);
    Distribute(b, b', rates.output);
    assert a + a' - (c + c') == (a - c) + (a' - c');
  }

  lemma Distribute(x: nat, y: nat, rate: nat)
    ensures (x + y) * rate == x * rate + y * rate
  {
  }

  function UpdateAll(ctx: JournalContext, rates: PricingRates, m: LoadedState, ops: seq<Operation>): LoadedState
    decreases |ops|
  {
    if ops == [] then m else UpdateAll(ctx, rates, Update(ctx, rates, m, ops[0]), ops[1..])
  }

  function AppendedByAll(ctx: JournalContext, rates: PricingRates, ops: seq<Operation>): seq<JournalEntry> {
    if ops == [] then [] else AppendedBy(ctx, rates, ops[0]) + AppendedByAll(ctx, rates, ops[1..])
  }

  lemma {:induction false} FirstOperation(ctx: JournalContext, rates: PricingRates, entries: seq<JournalEntry>, ops: seq<Operation>)
    requires ops != []
    ensures entries + AppendedByAll(ctx, rates, ops)
         == entries + AppendedBy(ctx, rates, ops[0]) + AppendedByAll(ctx, rates, ops[1..])
    ensures UpdateAll(ctx, rates, LoadState(ctx, entries), ops)
         == UpdateAll(ctx, rates, LoadState(ctx, entries + AppendedBy(ctx, rates, ops[0])), ops[1..])
  {
    Assoc(entries, AppendedBy(ctx, rates, ops[0]), AppendedByAll(ctx, rates, ops[1..]), []);
    UpdateIsReload(ctx, rates, entries, ops[0]);
  }

  /** The incremental state refines a reload: after any sequence of operations the memory
      equals what folding the whole file again would give. */
  lemma {:induction false} IncrementalStateRefinesReload(
      ctx: JournalContext, rates: PricingRates, entries: seq<JournalEntry>, ops: seq<Operation>)
    ensures UpdateAll(ctx, rates, LoadState(ctx, entries), ops)
         == LoadState(ctx, entries + AppendedByAll(ctx, rates, ops))
    decreases |ops|
  {
    if ops == [] {
      assert entries + [] == entries;
    } else {
      FirstOperation(ctx, rates, entries, ops);
      IncrementalStateRefinesReload(ctx, rates, entries + AppendedBy(ctx, rates, ops[0]), ops[1..]);
    }
  }

  // ---------------------------------------------------------------------
  // The store
  // ---------------------------------------------------------------------

  class Store {
    const rates: PricingRates
    const context: JournalContext
    const file: File<JournalEntry>
    var completed: map<string, JournalEntry>
    var spent: nat
    var stageInTok: nat
    var stageOutTok: nat
    var stageCachedInTok: nat
    ghost var entries: seq<JournalEntry>

    ghost function Memory(): LoadedState
      reads this
    {
      LoadedState(completed, spent, stageInTok, stageOutTok, stageCachedInTok)
    }

    ghost predicate Valid()
      reads this, file
    {
      && Faithful(file.codec)
      && !Torn(file.bytes)
      && ReadResult(file.codec, file.bytes) == Success(entries)
      && Memory() == LoadState(context, entries)
    }

    constructor Reloaded(file: File<JournalEntry>, context: JournalContext, rates: PricingRates, state: LoadedState,
                         ghost entries: seq<JournalEntry>)
      requires Faithful(file.codec) && !Torn(file.bytes)
      requires ReadResult(file.codec, file.bytes) == Success(entries) && state == LoadState(context, entries)
      ensures Valid() && this.entries == entries
      ensures this.file == file && this.context == context && this.rates == rates
    {
      this.file, this.context, this.rates := file, context, rates;
      completed, spent := state.completed, state.spent;
      stageInTok, stageOutTok, stageCachedInTok := state.inTok, state.outTok, state.cachedInTok;
      this.entries := entries;
    }

    /** Appends one entry; memory is left for the caller to update. */
    method AppendEntry(e: JournalEntry)
      requires Faithful(file.codec) && !Torn(file.bytes)
      requires ReadResult(file.codec, file.bytes) == Success(entries)
      modifies this`entries, file
      ensures !Torn(file.bytes) && ReadResult(file.codec, file.bytes) == Success(entries)
      ensures entries == old(entries) + [e]
    {
      AppendReads(file.codec, file.bytes, entries, e);
      file.Append(e);
      entries := entries + [e];
    }

    /** The append, the totals and, for a result, the completed map. */
    method AppendAndCount(e: JournalEntry)
      requires Valid() && context.CountsUsage(e) && context.MatchesCache(e)
      modifies this, file
      ensures Valid() && entries == old(entries) + [e]
    {
      LoadAfterAppend(context, entries, e);
      AppendEntry(e);
      spent := spent + e.cost;
      stageInTok := stageInTok + e.inTok;
      stageOutTok := stageOutTok + e.outTok;
      stageCachedInTok := stageCachedInTok + e.cachedInTok;
      if !e.isManifest {
        completed := completed[e.unitId := e];
      }
    }

    /** `record` for method results; the siblings for the other stages differ only in the payload. */
    method RecordResult(stage: Stage, unitId: string, sourceHash: string, verdict: Option<Verdict>,
                        methodRecord: Option<MethodReviewRecord>, payload: Payload,
                        inTok: nat, outTok: nat, cachedInTok: nat, retryOnResume: bool)
      returns (result: Result<(), string>)
      requires Valid()
      modifies this, file
      ensures Valid()
      ensures result.Success? <==> stage == context.stage
      ensures entries == old(entries) + AppendedBy(context, rates, Operation.RecordResult(
                stage, unitId, sourceHash, verdict, methodRecord, payload, inTok, outTok, cachedInTok, retryOnResume))
    {
      ghost var op := Operation.RecordResult(
        stage, unitId, sourceHash, verdict, methodRecord, payload, inTok, outTok, cachedInTok, retryOnResume);
      if context.stage != stage {
        assert entries + [] == entries;
        return Failure("result cannot be written to another journal stage");
      }
      var entry := Blank(context, false, unitId, sourceHash).(
        verdict := verdict, methodRecord := methodRecord, payload := payload,
        inTok := inTok, outTok := outTok, cachedInTok := cachedInTok,
        cost := rates.Cost(inTok, cachedInTok, outTok), retryOnResume := retryOnResume);
      assert AppendedBy(context, rates, op) == [entry];
      AppendAndCount(entry);
      return Success(());
    }

    method RecordUsage(eventId: string, inTok: nat, outTok: nat, cachedInTok: nat)
      requires Valid()
      modifies this, file
      ensures Valid()
      ensures entries == old(entries) + AppendedBy(context, rates, Operation.RecordUsage(eventId, inTok, outTok, cachedInTok))
    {
      if inTok == 0 && outTok == 0 && cachedInTok == 0 {
        assert entries + [] == entries;
        return;
      }
      var entry := UsageEntry(context, rates, eventId, inTok, outTok, cachedInTok);
      AppendAndCount(entry);
    }

    method RecordCrossScanReuse(unitId: string, sourceHash: string)
      requires Valid()
      modifies this, file
      ensures Valid() && completed == old(completed)
      ensures entries == old(entries) + AppendedBy(context, rates, Operation.RecordCrossScanReuse(unitId, sourceHash))
    {
      UpdateIsReload(context, rates, entries, Operation.RecordCrossScanReuse(unitId, sourceHash));
      AppendEntry(Blank(context, true, ReuseId(context, unitId), sourceHash));
    }

    predicate IsStageManifest(e: JournalEntry) {
      context.CountsUsage(e) && e.isManifest && e.unitId == ManifestId(context)
    }

    method AppendManifest()
      requires Valid()
      modifies this, file
      ensures Valid() && entries == old(entries) + [Blank(context, true, ManifestId(context), "")]
    {
      var manifest := Blank(context, true, ManifestId(context), "");
      LoadAfterAppend(context, entries, manifest);
      AppendEntry(manifest);
    }

    method HasManifest() returns (found: bool)
      requires Valid()
      modifies file
      ensures Valid() && file.bytes == old(file.bytes)
      ensures found <==> exists e :: e in entries && IsStageManifest(e)
    {
      assert Recovered(file.bytes) == file.bytes;
      var read := file.ReadEntries(true);
      var known := read.value;
      for k := 0 to |known|
        invariant forall j :: 0 <= j < k ==> !IsStageManifest(known[j])
      {
        if IsStageManifest(known[k]) {
          return true;
        }
      }
      return false;
    }

    /** Appends the stage manifest unless this scan already has one. */
    method EnsureStageManifest()
      requires Valid()
      modifies this, file
      ensures Valid()
      ensures exists e :: e in entries && IsManifestOf(context, e)
      ensures entries == if exists e :: e in old(entries) && IsManifestOf(context, e) then old(entries)
                         else old(entries) + [Blank(context, true, ManifestId(context), "")]
    {
      var found := HasManifest();
      if !found {
        AppendManifest();
        assert entries[|entries| - 1] in entries && IsStageManifest(entries[|entries| - 1]);
      }
    }
  }

  /** An entry that says the stage has begun in this scan. */
  predicate IsManifestOf(ctx: JournalContext, e: JournalEntry) {
    && e.version == 3 && e.scanId == ctx.scanId && e.stage == ctx.stage && e.isManifest
    && e.unitId == "__manifest__:" + StageLabel(ctx.stage)
  }

  /** `load_state`: folds the file; a torn tail is cut off first. */
  method LoadForScan(file: File<JournalEntry>, context: JournalContext, rates: PricingRates)
    returns (store: Result<Store, nat>)
    requires Faithful(file.codec)
    modifies file
    ensures store.Failure? <==> ReadResult(file.codec, old(file.bytes)).Failure?
    ensures store.Success? ==>
              && fresh(store.value) && store.value.Valid()
              && store.value.file == file && store.value.context == context && store.value.rates == rates
              && var read := ReadResult(file.codec, old(file.bytes)).value;
                 && (exists e :: e in store.value.entries && IsManifestOf(context, e))
                 && store.value.entries == if exists e :: e in read && IsManifestOf(context, e) then read
                                        else read + [Blank(context, true, ManifestId(context), "")]
  {
    RecoveryPreservesReading(file.codec, file.bytes);
    var read := file.ReadEntries(true);
    if read.Failure? {
      return Failure(read.error);
    }
    var loaded := new Store.Reloaded(file, context, rates, LoadState(context, read.value), read.value);
    loaded.EnsureStageManifest();
    return Success(loaded);
  }
}
