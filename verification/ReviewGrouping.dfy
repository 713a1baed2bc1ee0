/** Packing pending reviews into prompts. */
module ReviewGrouping {
  import opened Wrappers
  import opened Sequences

  // `estimated_method_prompt_chars` and `group_pending_reviews` in src/analyzer_engine_jobs.rs.

  const USIZE_MAX: nat := 0xFFFF_FFFF_FFFF_FFFF

  function SaturatingAdd(a: nat, b: nat): nat {
    if a + b <= USIZE_MAX then a + b else USIZE_MAX
  }

  function Capped(n: nat): nat {
    if n <= USIZE_MAX then n else USIZE_MAX
  }

  /** Character counts of one caller or callee reference. */
  datatype ReferenceSize = ReferenceSize(path: nat, snippet: nat)

  /** A pending job, reduced to what its prompt size depends on. */
  datatype ReviewJob =
    | MethodJob(filePath: string, fullFile: nat, context: nat, source: nat,
                callers: seq<ReferenceSize>, callees: seq<ReferenceSize>, signals: seq<nat>)
    | FileJob

  datatype Entry = Entry(key: string, job: ReviewJob)

  function ReferenceChars(references: seq<ReferenceSize>): nat {
    if references == [] then 0
    else references[0].path + references[0].snippet + 64 + ReferenceChars(references[1..])
  }

  function Sum(ns: seq<nat>): nat {
    if ns == [] then 0 else ns[0] + Sum(ns[1..])
  }

  /** `estimated_method_prompt_chars`; None for a file job. */
  function PromptChars(job: ReviewJob, includeSharedFile: bool): Option<nat> {
    if job.FileJob? then None
    else
      var shared := if includeSharedFile then job.fullFile + 25000 else 0;
      Some(shared + job.context + job.source + ReferenceChars(job.callers) + ReferenceChars(job.callees)
           + Sum(job.signals) + 12000)
  }

  function Estimate(job: ReviewJob, includeSharedFile: bool): nat {
    match PromptChars(job, includeSharedFile)
    case Some(n) => n
    case None => USIZE_MAX
  }

  predicate AllMethods(group: seq<Entry>) {
    forall i :: 0 <= i < |group| ==> group[i].job.MethodJob?
  }

  function Paths(group: seq<Entry>): set<string>
    requires AllMethods(group)
  {
    set i | 0 <= i < |group| :: group[i].job.filePath
  }

  /** Prompt size of a method group: the shared file counts once per distinct file,
      at the first method of that file. */
  function PromptTotal(group: seq<Entry>): nat
    requires AllMethods(group)
  {
    if group == [] then 0
    else
      var before, last := group[..|group| - 1], group[|group| - 1].job;
      PromptTotal(before) + Estimate(last, last.filePath !in Paths(before))
  }

  lemma {:induction false} OneMoreReference(references: seq<ReferenceSize>, r: ReferenceSize)
    ensures ReferenceChars(references + [r]) == ReferenceChars(references) + r.path + r.snippet + 64
  {
    if references == [] {
      assert references + [r] == [r] && [r][1..] == [];
    } else {
      OneMoreReference(references[1..], r);
      assert (references + [r])[1..] == references[1..] + [r];
    }
  }

  lemma {:induction false} OneMoreNumber(ns: seq<nat>, n: nat)
    ensures Sum(ns + [n]) == Sum(ns) + n
  {
    if ns == [] {
      assert ns + [n] == [n] && [n][1..] == [];
    } else {
      OneMoreNumber(ns[1..], n);
      assert (ns + [n])[1..] == ns[1..] + [n];
    }
  }

  /** What each part of a method adds to its prompt. */
  lemma PromptGrowsByParts(job: ReviewJob, withFile: bool, r: ReferenceSize, n: nat)
    requires job.MethodJob?
    ensures var size := Estimate(job, withFile);
            && Estimate(job.(callers := job.callers + [r]), withFile) == size + r.path + r.snippet + 64
            && Estimate(job.(callees := job.callees + [r]), withFile) == size + r.path + r.snippet + 64
            && Estimate(job.(signals := job.signals + [n]), withFile) == size + n
            && Estimate(job.(context := job.context + n), withFile) == size + n
            && Estimate(job.(source := job.source + n), withFile) == size + n
    ensures Estimate(MethodJob(job.filePath, job.fullFile, 0, 0, [], [], []), withFile)
         == 12000 + if withFile then 25000 + job.fullFile else 0
  {
    OneMoreReference(job.callers, r);
    OneMoreReference(job.callees, r);
    OneMoreNumber(job.signals, n);
  }

  /** A method that joins a group adds its own parts, and its file exactly when it is the first
      method of that file. */
  lemma EachFileCountsOnce(group: seq<Entry>, entry: Entry)
    requires AllMethods(group) && entry.job.MethodJob?
    ensures var own := PromptTotal([Entry(entry.key, entry.job.(fullFile := 0))]) - 25000;
            var known := exists i :: 0 <= i < |group| && group[i].job.filePath == entry.job.filePath;
            && AllMethods(group + [entry])
            && PromptTotal(group + [entry]) == PromptTotal(group) + own + if known then 0 else entry.job.fullFile + 25000
    ensures PromptTotal([]) == 0
  {
    var grown, alone := group + [entry], [Entry(entry.key, entry.job.(fullFile := 0))];
    assert grown[..|group|] == group && alone[..0] == [];
  }

  predicate FitsPrompt(group: seq<Entry>, maxPromptChars: nat)
    requires AllMethods(group)
  {
    Capped(PromptTotal(group)) <= maxPromptChars
  }

  /** What the source promises of each group. */
  ghost predicate WellPacked(group: seq<Entry>, batchSize: nat, maxPromptChars: nat) {
    && group != []
    && (|group| > 1 ==> AllMethods(group) && |group| <= batchSize && FitsPrompt(group, maxPromptChars))
  }

  /** A group was closed before this chunk for a reason: a file review stands alone, or the
      chunk did not fit behind the group. */
  ghost predicate KeptApart(group: seq<Entry>, chunk: seq<Entry>, batchSize: nat, maxPromptChars: nat) {
    !AllMethods(group) || !AllMethods(chunk) || Overflows(group, chunk, batchSize, maxPromptChars)
  }

  ghost predicate Overflows(g: seq<Entry>, chunk: seq<Entry>, batchSize: nat, maxPromptChars: nat) {
    AllMethods(g + chunk) && (|g| + |chunk| > batchSize || !FitsPrompt(g + chunk, maxPromptChars))
  }

  // ---------------------------------------------------------------------
  // First pass: runs of methods of one file
  // ---------------------------------------------------------------------

  ghost predicate OneFile(chunk: seq<Entry>) {
    AllMethods(chunk) && forall i, j :: 0 <= i < |chunk| && 0 <= j < |chunk| ==> chunk[i].job.filePath == chunk[j].job.filePath
  }

  /** A chunk is a lone file review or a run of methods of one file. */
  ghost predicate IsChunk(chunk: seq<Entry>, batchSize: nat, maxPromptChars: nat) {
    WellPacked(chunk, batchSize, maxPromptChars) && (chunk[0].job.FileJob? || OneFile(chunk))
  }

  /** A chunk was closed before this entry for a reason: one of them is a file review, the
      entry is of another file, or the entry did not fit behind the chunk. */
  ghost predicate Closed(chunk: seq<Entry>, next: Entry, batchSize: nat, maxPromptChars: nat)
    requires chunk != []
  {
    AllMethods(chunk + [next]) && InFile(chunk[0], next) ==> |chunk| >= batchSize || !FitsPrompt(chunk + [next], maxPromptChars)
  }

  predicate InFile(a: Entry, b: Entry) {
    a.job.MethodJob? && b.job.MethodJob? && a.job.filePath == b.job.filePath
  }

  ghost predicate AllClosed(chunks: seq<seq<Entry>>, batchSize: nat, maxPromptChars: nat) {
    && (forall c :: 0 <= c < |chunks| ==> chunks[c] != [])
    && forall c :: 0 <= c < |chunks| - 1 ==> Closed(chunks[c], chunks[c + 1][0], batchSize, maxPromptChars)
  }

  /** What the first pass makes: chunks that were closed for a reason. */
  ghost predicate Chunks(chunks: seq<seq<Entry>>, batchSize: nat, maxPromptChars: nat) {
    AllChunks(chunks, batchSize, maxPromptChars) && AllClosed(chunks, batchSize, maxPromptChars)
  }

  /** The last chunk is closed before what comes behind it; anything would, if nothing came yet. */
  ghost predicate LastIsClosed(chunks: seq<seq<Entry>>, current: seq<Entry>, batchSize: nat, maxPromptChars: nat) {
    chunks != [] && chunks[|chunks| - 1] != [] ==>
      var last := chunks[|chunks| - 1];
      if current == [] then |last| >= batchSize || last[0].job.FileJob?
      else Closed(last, current[0], batchSize, maxPromptChars)
  }

  ghost predicate AllChunks(chunks: seq<seq<Entry>>, batchSize: nat, maxPromptChars: nat) {
    forall c :: 0 <= c < |chunks| ==> IsChunk(chunks[c], batchSize, maxPromptChars)
  }

  /** The first pass: the closed chunks, and the one being built with its file and its size. */
  datatype FirstPass = FirstPass(chunks: seq<seq<Entry>>, current: seq<Entry>, file: Option<string>, estimate: nat)

  /** The chunk being built: methods of `file` whose prompt size is `estimate`. */
  ghost predicate Building(s: FirstPass, batchSize: nat, maxPromptChars: nat) {
    if s.current == [] then s.estimate == 0
    else
      && IsChunk(s.current, batchSize, maxPromptChars) && OneFile(s.current)
      && s.file == Some(s.current[0].job.filePath)
      && s.estimate == Capped(PromptTotal(s.current))
  }

  /** What the first pass keeps. */
  ghost predicate Chunking(s: FirstPass, batchSize: nat, maxPromptChars: nat) {
    && AllChunks(s.chunks, batchSize, maxPromptChars) && AllClosed(s.chunks, batchSize, maxPromptChars)
    && LastIsClosed(s.chunks, s.current, batchSize, maxPromptChars)
    && Building(s, batchSize, maxPromptChars)
  }

  predicate Joins(s: FirstPass, entry: Entry, batchSize: nat, maxPromptChars: nat) {
    && s.current != [] && entry.job.MethodJob? && s.file == Some(entry.job.filePath)
    && |s.current| < batchSize
    && SaturatingAdd(s.estimate, Estimate(entry.job, false)) <= maxPromptChars
  }

  function Opened(s: FirstPass, entry: Entry, batchSize: nat, maxPromptChars: nat): FirstPass {
    if s.current == [] || Joins(s, entry, batchSize, maxPromptChars) then s
    else FirstPass(s.chunks + [s.current], [], s.file, 0)
  }

  function Grown(s: FirstPass, entry: Entry): FirstPass {
    FirstPass(s.chunks, s.current + [entry], if entry.job.MethodJob? then Some(entry.job.filePath) else None,
              SaturatingAdd(s.estimate, Estimate(entry.job, s.current == [])))
  }

  function Shut(s: FirstPass, batchSize: nat): FirstPass {
    if |s.current| >= batchSize || s.file.None? then FirstPass(s.chunks + [s.current], [], None, 0) else s
  }

  function Added(s: FirstPass, entry: Entry, batchSize: nat, maxPromptChars: nat): FirstPass {
    Shut(Grown(Opened(s, entry, batchSize, maxPromptChars), entry), batchSize)
  }

  function Contents(s: FirstPass): seq<Entry> {
    Flatten(s.chunks) + s.current
  }

  lemma OpeningKeepsOrder(s: FirstPass, entry: Entry, batchSize: nat, maxPromptChars: nat)
    ensures Contents(Opened(s, entry, batchSize, maxPromptChars)) == Contents(s)
  {
    FlattenPush(s.chunks, s.current);
  }

  lemma ShuttingKeepsOrder(s: FirstPass, batchSize: nat)
    ensures Contents(Shut(s, batchSize)) == Contents(s)
  {
    FlattenPush(s.chunks, s.current);
  }

  lemma AddingKeepsOrder(s: FirstPass, entry: Entry, batchSize: nat, maxPromptChars: nat)
    ensures Contents(Added(s, entry, batchSize, maxPromptChars)) == Contents(s) + [entry]
  {
    var before := Opened(s, entry, batchSize, maxPromptChars);
    OpeningKeepsOrder(s, entry, batchSize, maxPromptChars);
    assert Contents(Grown(before, entry)) == Contents(before) + [entry];
    ShuttingKeepsOrder(Grown(before, entry), batchSize);
  }

  /** The size of a method behind others of its file. */
  lemma GrownSize(current: seq<Entry>, entry: Entry)
    requires AllMethods(current) && current != [] && InFile(current[0], entry)
    ensures AllMethods(current + [entry])
    ensures PromptTotal(current + [entry]) == PromptTotal(current) + Estimate(entry.job, false)
  {
    assert (current + [entry])[..|current|] == current;
    assert current[0].job.filePath in Paths(current);
  }

  /** An entry that does not join the chunk closes it. */
  lemma NoJoinCloses(s: FirstPass, entry: Entry, batchSize: nat, maxPromptChars: nat)
    requires Building(s, batchSize, maxPromptChars) && s.current != [] && !Joins(s, entry, batchSize, maxPromptChars)
    ensures Closed(s.current, entry, batchSize, maxPromptChars)
  {
    if InFile(s.current[0], entry) {
      GrownSize(s.current, entry);
    }
  }

  /** One more closed chunk. */
  lemma PushChunk(chunks: seq<seq<Entry>>, current: seq<Entry>, batchSize: nat, maxPromptChars: nat)
    requires AllChunks(chunks, batchSize, maxPromptChars) && IsChunk(current, batchSize, maxPromptChars)
    requires AllClosed(chunks, batchSize, maxPromptChars) && LastIsClosed(chunks, current, batchSize, maxPromptChars)
    ensures AllChunks(chunks + [current], batchSize, maxPromptChars)
    ensures AllClosed(chunks + [current], batchSize, maxPromptChars)
  {
    var more := chunks + [current];
    forall c | 0 <= c < |more| - 1 ensures Closed(more[c], more[c + 1][0], batchSize, maxPromptChars) {
      if c < |chunks| - 1 {
        assert more[c] == chunks[c] && more[c + 1] == chunks[c + 1];
      }
    }
  }

  /** The pass is ready to take this entry: it joins the chunk, or starts one behind closed chunks. */
  ghost predicate Ready(s: FirstPass, entry: Entry, batchSize: nat, maxPromptChars: nat) {
    && AllChunks(s.chunks, batchSize, maxPromptChars) && AllClosed(s.chunks, batchSize, maxPromptChars)
    && LastIsClosed(s.chunks, s.current + [entry], batchSize, maxPromptChars)
    && Building(s, batchSize, maxPromptChars)
    && (s.current != [] ==> Joins(s, entry, batchSize, maxPromptChars))
  }

  lemma OpeningIsReady(s: FirstPass, entry: Entry, batchSize: nat, maxPromptChars: nat)
    requires Chunking(s, batchSize, maxPromptChars)
    ensures Ready(Opened(s, entry, batchSize, maxPromptChars), entry, batchSize, maxPromptChars)
  {
    assert (s.current + [entry])[0] == if s.current == [] then entry else s.current[0];
    if s.current != [] && !Joins(s, entry, batchSize, maxPromptChars) {
      NoJoinCloses(s, entry, batchSize, maxPromptChars);
      PushChunk(s.chunks, s.current, batchSize, maxPromptChars);
    }
  }

  /** A fitting method of the same file joins the chunk, and any job starts one. */
  lemma GrowChunk(s: FirstPass, entry: Entry, batchSize: nat, maxPromptChars: nat)
    requires Building(s, batchSize, maxPromptChars) && (s.current != [] ==> Joins(s, entry, batchSize, maxPromptChars))
    ensures IsChunk(s.current + [entry], batchSize, maxPromptChars)
    ensures entry.job.MethodJob? ==> Building(Grown(s, entry), batchSize, maxPromptChars)
  {
    var grown := s.current + [entry];
    if s.current == [] {
      assert grown == [entry] && grown[..0] == [] && PromptTotal([]) == 0;
    } else {
      GrownSize(s.current, entry);
      forall i | 0 <= i < |grown| ensures grown[i].job.MethodJob? && grown[i].job.filePath == entry.job.filePath {
        if i < |s.current| {
          assert s.current[i].job.filePath == s.current[0].job.filePath;
        }
      }
    }
  }

  lemma AddingKeepsChunking(s: FirstPass, entry: Entry, batchSize: nat, maxPromptChars: nat)
    requires Chunking(s, batchSize, maxPromptChars)
    ensures Chunking(Added(s, entry, batchSize, maxPromptChars), batchSize, maxPromptChars)
  {
    OpeningIsReady(s, entry, batchSize, maxPromptChars);
    ReadyKeepsChunking(Opened(s, entry, batchSize, maxPromptChars), entry, batchSize, maxPromptChars);
  }

  lemma ReadyKeepsChunking(s: FirstPass, entry: Entry, batchSize: nat, maxPromptChars: nat)
    requires Ready(s, entry, batchSize, maxPromptChars)
    ensures Chunking(Shut(Grown(s, entry), batchSize), batchSize, maxPromptChars)
  {
    GrowChunk(s, entry, batchSize, maxPromptChars);
    PushChunk(s.chunks, s.current + [entry], batchSize, maxPromptChars);
  }

  /** One entry of the first pass. */
  method AddToChunks(s: FirstPass, entry: Entry, batchSize: nat, maxPromptChars: nat) returns (t: FirstPass)
    ensures t == Added(s, entry, batchSize, maxPromptChars)
  {
    var chunks, current, currentEstimate := s.chunks, s.current, s.estimate;
    var filePath := if entry.job.MethodJob? then Some(entry.job.filePath) else None;
    var incremental := Estimate(entry.job, current == []);
    var joinsCurrent :=
      && current != [] && filePath.Some? && filePath == s.file && |current| < batchSize
      && SaturatingAdd(currentEstimate, incremental) <= maxPromptChars;
    if !joinsCurrent && current != [] {
      chunks := chunks + [current];
      current, currentEstimate := [], 0;
    }
    var entryEstimate := Estimate(entry.job, current == []);
    currentEstimate := SaturatingAdd(currentEstimate, entryEstimate);
    current := current + [entry];
    if |current| >= batchSize || filePath.None? {
      return FirstPass(chunks + [current], [], None, 0);
    }
    t := FirstPass(chunks, current, filePath, currentEstimate);
  }

  /** The first pass: neighbours of one file stay together as long as they fit. */
  method ChunkByFile(pending: seq<Entry>, batchSize: nat, maxPromptChars: nat) returns (chunks: seq<seq<Entry>>)
    ensures Flatten(chunks) == pending
    ensures AllChunks(chunks, batchSize, maxPromptChars) && AllClosed(chunks, batchSize, maxPromptChars)
  {
    var s := FirstPass([], [], None, 0);
    for n := 0 to |pending|
      invariant Contents(s) == pending[..n]
      invariant Chunking(s, batchSize, maxPromptChars)
    {
      assert pending[..n + 1] == pending[..n] + [pending[n]];
      AddingKeepsOrder(s, pending[n], batchSize, maxPromptChars);
      AddingKeepsChunking(s, pending[n], batchSize, maxPromptChars);
      s := AddToChunks(s, pending[n], batchSize, maxPromptChars);
    }
    assert pending[..|pending|] == pending;
    chunks := s.chunks;
    if s.current != [] {
      PushChunk(s.chunks, s.current, batchSize, maxPromptChars);
      FlattenPush(s.chunks, s.current);
      chunks := s.chunks + [s.current];
    } else {
      assert Flatten(s.chunks) + [] == Flatten(s.chunks);
    }
  }

  // ---------------------------------------------------------------------
  // Second pass: packing chunks of several files into one prompt
  // ---------------------------------------------------------------------

  lemma OneMoreMethod(jobs: seq<Entry>, n: nat)
    requires n < |jobs| && AllMethods(jobs)
    ensures AllMethods(jobs[..n]) && AllMethods(jobs[..n + 1])
    ensures PromptTotal(jobs[..n + 1])
         == PromptTotal(jobs[..n]) + Estimate(jobs[n].job, jobs[n].job.filePath !in Paths(jobs[..n]))
    ensures Paths(jobs[..n + 1]) == Paths(jobs[..n]) + {jobs[n].job.filePath}
  {
    var before, grown := jobs[..n], jobs[..n + 1];
    assert grown[..n] == before && grown[n] == jobs[n];
    forall path | path in Paths(before) ensures path in Paths(grown) {
      var i :| 0 <= i < n && before[i].job.filePath == path;
      assert grown[i] == before[i];
    }
  }

  /** The size of the packed methods followed by the chunk. */
  method CandidateEstimate(packed: seq<Entry>, chunk: seq<Entry>) returns (estimate: nat)
    requires AllMethods(packed) && AllMethods(chunk)
    ensures AllMethods(packed + chunk) && estimate == Capped(PromptTotal(packed + chunk))
    ensures forall batchSize, maxPromptChars :: Overflows(packed, chunk, batchSize, maxPromptChars) <==>
              |packed| + |chunk| > batchSize || estimate > maxPromptChars
  {
    estimate := 0;
    var seen: set<string> := {};
    var jobs := packed + chunk;
    for n := 0 to |jobs|
      invariant AllMethods(jobs) && AllMethods(jobs[..n]) && seen == Paths(jobs[..n])
      invariant estimate == Capped(PromptTotal(jobs[..n]))
    {
      var job := jobs[n].job;
      OneMoreMethod(jobs, n);
      estimate := SaturatingAdd(estimate, Estimate(job, job.filePath !in seen));
      seen := seen + {job.filePath};
    }
    assert jobs[..|jobs|] == jobs;
  }

  /** A group is made of whole chunks that follow each other. */
  ghost predicate IsPack(group: seq<Entry>, pack: seq<seq<Entry>>, batchSize: nat, maxPromptChars: nat) {
    pack != [] && group == Flatten(pack) && WellPacked(group, batchSize, maxPromptChars)
  }

  ghost predicate ArePacks(grouped: seq<seq<Entry>>, packs: seq<seq<seq<Entry>>>, batchSize: nat, maxPromptChars: nat) {
    && |packs| == |grouped|
    && (forall g :: 0 <= g < |grouped| ==> IsPack(grouped[g], packs[g], batchSize, maxPromptChars))
    && (forall g :: 0 <= g < |grouped| - 1 ==> KeptApart(grouped[g], packs[g + 1][0], batchSize, maxPromptChars))
  }

  /** The groups that are closed, and the methods being packed. */
  datatype SecondPass = SecondPass(grouped: seq<seq<Entry>>, packed: seq<Entry>)

  /** The same in chunks. */
  datatype Packs = Packs(closed: seq<seq<seq<Entry>>>, open: seq<seq<Entry>>)

  /** Groups behind which this chunk may come first. */
  ghost predicate MayFollow(grouped: seq<seq<Entry>>, packs: seq<seq<seq<Entry>>>, chunk: seq<Entry>, batchSize: nat, maxPromptChars: nat) {
    && ArePacks(grouped, packs, batchSize, maxPromptChars)
    && (grouped != [] ==> KeptApart(grouped[|grouped| - 1], chunk, batchSize, maxPromptChars))
  }

  /** The chunks being packed make up `packed`, and the first of them did not fit behind the
      last group; if there are none, that group is a file review. */
  ghost predicate Packing(s: SecondPass, p: Packs, batchSize: nat, maxPromptChars: nat) {
    if p.open == [] then
      && s.packed == [] && ArePacks(s.grouped, p.closed, batchSize, maxPromptChars)
      && (s.grouped != [] ==> !AllMethods(s.grouped[|s.grouped| - 1]))
    else
      && AllMethods(s.packed) && IsPack(s.packed, p.open, batchSize, maxPromptChars)
      && MayFollow(s.grouped, p.closed, p.open[0], batchSize, maxPromptChars)
  }

  function PutAway(s: SecondPass): SecondPass {
    if s.packed == [] then s else SecondPass(s.grouped + [s.packed], [])
  }

  function PutAwayPacks(p: Packs): Packs {
    if p.open == [] then p else Packs(p.closed + [p.open], [])
  }

  predicate Fits(packed: seq<Entry>, chunk: seq<Entry>, batchSize: nat, maxPromptChars: nat)
    requires AllMethods(packed + chunk)
  {
    packed == [] || (|packed| + |chunk| <= batchSize && FitsPrompt(packed + chunk, maxPromptChars))
  }

  lemma CloseGroup(grouped: seq<seq<Entry>>, packs: seq<seq<seq<Entry>>>, group: seq<Entry>, pack: seq<seq<Entry>>,
                   batchSize: nat, maxPromptChars: nat)
    requires IsPack(group, pack, batchSize, maxPromptChars) && MayFollow(grouped, packs, pack[0], batchSize, maxPromptChars)
    ensures ArePacks(grouped + [group], packs + [pack], batchSize, maxPromptChars)
  {
    var more, all := grouped + [group], packs + [pack];
    forall g | 0 <= g < |more| - 1 ensures KeptApart(more[g], all[g + 1][0], batchSize, maxPromptChars) {
      if g < |grouped| - 1 {
        assert more[g] == grouped[g] && all[g + 1] == packs[g + 1];
      }
    }
  }

  lemma {:induction false} OneChunkPacks(chunk: seq<Entry>, batchSize: nat, maxPromptChars: nat)
    requires IsChunk(chunk, batchSize, maxPromptChars)
    ensures IsPack(chunk, [chunk], batchSize, maxPromptChars)
  {
    FlattenPush([], chunk);
    assert [] + [chunk] == [chunk] && Flatten<Entry>([]) == [];
  }

  /** What was packed is put away because this chunk did not fit behind it. */
  lemma PuttingAway(s: SecondPass, p: Packs, chunk: seq<Entry>, batchSize: nat, maxPromptChars: nat)
    requires Packing(s, p, batchSize, maxPromptChars)
    requires s.packed != [] ==> KeptApart(s.packed, chunk, batchSize, maxPromptChars)
    ensures MayFollow(PutAway(s).grouped, PutAwayPacks(p).closed, chunk, batchSize, maxPromptChars)
  {
    if p.open != [] {
      CloseGroup(s.grouped, p.closed, s.packed, p.open, batchSize, maxPromptChars);
    }
  }

  lemma PuttingAwayKeepsOrder(s: SecondPass, p: Packs)
    requires s.packed == [] <==> p.open == []
    ensures Flatten(PutAway(s).grouped) == Flatten(s.grouped) + s.packed
    ensures Flatten(PutAwayPacks(p).closed) == Flatten(p.closed) + p.open
  {
    FlattenPush(s.grouped, s.packed);
    FlattenPush(p.closed, p.open);
    if s.packed == [] {
      assert Flatten(s.grouped) + [] == Flatten(s.grouped) && Flatten(p.closed) + [] == Flatten(p.closed);
    }
  }

  function WithFile(s: SecondPass, chunk: seq<Entry>): SecondPass {
    SecondPass(PutAway(s).grouped + [chunk], [])
  }

  function WithFilePack(p: Packs, chunk: seq<Entry>): Packs {
    Packs(PutAwayPacks(p).closed + [[chunk]], [])
  }

  lemma FileChunkStandsAlone(s: SecondPass, p: Packs, chunk: seq<Entry>, batchSize: nat, maxPromptChars: nat)
    requires Packing(s, p, batchSize, maxPromptChars) && IsChunk(chunk, batchSize, maxPromptChars) && chunk[0].job.FileJob?
    ensures Packing(WithFile(s, chunk), WithFilePack(p, chunk), batchSize, maxPromptChars)
  {
    PuttingAway(s, p, chunk, batchSize, maxPromptChars);
    OneChunkPacks(chunk, batchSize, maxPromptChars);
    CloseGroup(PutAway(s).grouped, PutAwayPacks(p).closed, chunk, [chunk], batchSize, maxPromptChars);
  }

  function WithMethods(s: SecondPass, chunk: seq<Entry>, fits: bool): SecondPass {
    if fits then s.(packed := s.packed + chunk) else SecondPass(PutAway(s).grouped, chunk)
  }

  function WithMethodPack(p: Packs, chunk: seq<Entry>, fits: bool): Packs {
    if fits then p.(open := p.open + [chunk]) else Packs(PutAwayPacks(p).closed, [chunk])
  }

  /** A chunk of methods joins the packed ones if it fits, and is the first of a group otherwise. */
  lemma {:induction false} MethodChunkIsPacked(s: SecondPass, p: Packs, chunk: seq<Entry>, batchSize: nat, maxPromptChars: nat)
    requires Packing(s, p, batchSize, maxPromptChars) && IsChunk(chunk, batchSize, maxPromptChars) && AllMethods(chunk)
    ensures AllMethods(s.packed + chunk)
    ensures var fits := Fits(s.packed, chunk, batchSize, maxPromptChars);
            Packing(WithMethods(s, chunk, fits), WithMethodPack(p, chunk, fits), batchSize, maxPromptChars)
  {
    if !Fits(s.packed, chunk, batchSize, maxPromptChars) || p.open == [] {
      PuttingAway(s, p, chunk, batchSize, maxPromptChars);
      OneChunkPacks(chunk, batchSize, maxPromptChars);
      assert p.open == [] ==> s.packed + chunk == chunk && p.open + [chunk] == [chunk];
    } else {
      FlattenPush(p.open, chunk);
      assert (p.open + [chunk])[0] == p.open[0];
    }
  }

  lemma WithFileKeepsOrder(s: SecondPass, p: Packs, chunk: seq<Entry>)
    requires s.packed == [] <==> p.open == []
    ensures Flatten(WithFile(s, chunk).grouped) == Flatten(s.grouped) + s.packed + chunk
    ensures Flatten(WithFilePack(p, chunk).closed) == Flatten(p.closed) + p.open + [chunk]
  {
    PuttingAwayKeepsOrder(s, p);
    FlattenPush(PutAway(s).grouped, chunk);
    FlattenPush(PutAwayPacks(p).closed, [chunk]);
  }

  lemma WithMethodsKeepsOrder(s: SecondPass, p: Packs, chunk: seq<Entry>, fits: bool)
    requires s.packed == [] <==> p.open == []
    ensures var t := WithMethods(s, chunk, fits);
            Flatten(t.grouped) + t.packed == Flatten(s.grouped) + s.packed + chunk
    ensures var q := WithMethodPack(p, chunk, fits);
            Flatten(q.closed) + q.open == Flatten(p.closed) + p.open + [chunk]
  {
    PuttingAwayKeepsOrder(s, p);
    Assoc(Flatten(s.grouped), s.packed, chunk, []);
    Assoc(Flatten(p.closed), p.open, [chunk], []);
  }

  /** One more chunk is packed. */
  function Packed(s: SecondPass, chunk: seq<Entry>, batchSize: nat, maxPromptChars: nat): SecondPass
    requires AllMethods(s.packed) && chunk != [] && (chunk[0].job.MethodJob? ==> AllMethods(chunk))
  {
    if chunk[0].job.FileJob? then WithFile(s, chunk)
    else WithMethods(s, chunk, Fits(s.packed, chunk, batchSize, maxPromptChars))
  }

  /** One chunk of the second pass. */
  method AddToGroups(s: SecondPass, chunk: seq<Entry>, batchSize: nat, maxPromptChars: nat) returns (t: SecondPass)
    requires AllMethods(s.packed) && chunk != [] && (chunk[0].job.MethodJob? ==> AllMethods(chunk))
    ensures t == Packed(s, chunk, batchSize, maxPromptChars)
  {
    var grouped, packed := s.grouped, s.packed;
    if chunk[0].job.FileJob? {
      if packed != [] {
        grouped := grouped + [packed];
        packed := [];
      }
      return SecondPass(grouped + [chunk], packed);
    }
    var estimate := CandidateEstimate(packed, chunk);
    if packed != [] && (|packed| + |chunk| > batchSize || estimate > maxPromptChars) {
      grouped := grouped + [packed];
      packed := [];
    }
    assert [] + chunk == chunk;
    t := SecondPass(grouped, packed + chunk);
  }

  /** Where the second pass is after the first `n` chunks. */
  ghost predicate PackedSoFar(chunks: seq<seq<Entry>>, n: nat, s: SecondPass, p: Packs, batchSize: nat, maxPromptChars: nat) {
    && n <= |chunks| && Packing(s, p, batchSize, maxPromptChars)
    && Flatten(s.grouped) + s.packed == Flatten(chunks[..n]) && Flatten(p.closed) + p.open == chunks[..n]
  }

  lemma NothingPacked(chunks: seq<seq<Entry>>, batchSize: nat, maxPromptChars: nat)
    ensures PackedSoFar(chunks, 0, SecondPass([], []), Packs([], []), batchSize, maxPromptChars)
  {
    assert chunks[..0] == [];
  }

  lemma PackFile(chunks: seq<seq<Entry>>, n: nat, s: SecondPass, p: Packs, batchSize: nat, maxPromptChars: nat)
    requires n < |chunks| && IsChunk(chunks[n], batchSize, maxPromptChars) && chunks[n][0].job.FileJob?
    requires PackedSoFar(chunks, n, s, p, batchSize, maxPromptChars)
    ensures PackedSoFar(chunks, n + 1, WithFile(s, chunks[n]), WithFilePack(p, chunks[n]), batchSize, maxPromptChars)
  {
    assert chunks[..n + 1] == chunks[..n] + [chunks[n]];
    FlattenPush(chunks[..n], chunks[n]);
    FileChunkStandsAlone(s, p, chunks[n], batchSize, maxPromptChars);
    WithFileKeepsOrder(s, p, chunks[n]);
  }

  lemma PackMethods(chunks: seq<seq<Entry>>, n: nat, s: SecondPass, p: Packs, batchSize: nat, maxPromptChars: nat)
    requires n < |chunks| && IsChunk(chunks[n], batchSize, maxPromptChars) && AllMethods(chunks[n])
    requires PackedSoFar(chunks, n, s, p, batchSize, maxPromptChars)
    ensures AllMethods(s.packed + chunks[n])
    ensures var fits := Fits(s.packed, chunks[n], batchSize, maxPromptChars);
            PackedSoFar(chunks, n + 1, WithMethods(s, chunks[n], fits), WithMethodPack(p, chunks[n], fits), batchSize, maxPromptChars)
  {
    assert chunks[..n + 1] == chunks[..n] + [chunks[n]];
    FlattenPush(chunks[..n], chunks[n]);
    MethodChunkIsPacked(s, p, chunks[n], batchSize, maxPromptChars);
    WithMethodsKeepsOrder(s, p, chunks[n], Fits(s.packed, chunks[n], batchSize, maxPromptChars));
  }

  lemma PackOne(chunks: seq<seq<Entry>>, n: nat, s: SecondPass, p: Packs, batchSize: nat, maxPromptChars: nat) returns (q: Packs)
    requires n < |chunks| && IsChunk(chunks[n], batchSize, maxPromptChars)
    requires PackedSoFar(chunks, n, s, p, batchSize, maxPromptChars)
    ensures AllMethods(s.packed) && (chunks[n][0].job.MethodJob? ==> AllMethods(chunks[n]))
    ensures PackedSoFar(chunks, n + 1, Packed(s, chunks[n], batchSize, maxPromptChars), q, batchSize, maxPromptChars)
  {
    if chunks[n][0].job.FileJob? {
      q := WithFilePack(p, chunks[n]);
      PackFile(chunks, n, s, p, batchSize, maxPromptChars);
    } else {
      PackMethods(chunks, n, s, p, batchSize, maxPromptChars);
      q := WithMethodPack(p, chunks[n], Fits(s.packed, chunks[n], batchSize, maxPromptChars));
    }
  }

  lemma PackingEnds(chunks: seq<seq<Entry>>, s: SecondPass, p: Packs, batchSize: nat, maxPromptChars: nat)
    requires PackedSoFar(chunks, |chunks|, s, p, batchSize, maxPromptChars)
    ensures Flatten(PutAway(s).grouped) == Flatten(chunks) && Flatten(PutAwayPacks(p).closed) == chunks
    ensures ArePacks(PutAway(s).grouped, PutAwayPacks(p).closed, batchSize, maxPromptChars)
    ensures forall g :: 0 <= g < |PutAway(s).grouped| ==> WellPacked(PutAway(s).grouped[g], batchSize, maxPromptChars)
  {
    assert chunks[..|chunks|] == chunks;
    PuttingAwayKeepsOrder(s, p);
    if p.open != [] {
      CloseGroup(s.grouped, p.closed, s.packed, p.open, batchSize, maxPromptChars);
    }
  }

  /** `group_pending_reviews`. The groups are whole chunks packed in order: a chunk starts a
      group exactly when it does not fit behind the group before it, and a method starts a
      chunk exactly when it does not fit behind the methods of its file before it. */
  method GroupPendingReviews(pending: seq<Entry>, batchSize: nat, maxPromptChars: nat)
    returns (grouped: seq<seq<Entry>>, ghost chunks: seq<seq<Entry>>, ghost packs: seq<seq<seq<Entry>>>)
    ensures Flatten(grouped) == pending
    ensures forall g :: 0 <= g < |grouped| ==> WellPacked(grouped[g], batchSize, maxPromptChars)
    ensures Flatten(chunks) == pending && Chunks(chunks, batchSize, maxPromptChars)
    ensures Flatten(packs) == chunks && ArePacks(grouped, packs, batchSize, maxPromptChars)
  {
    var byFile := ChunkByFile(pending, batchSize, maxPromptChars);
    chunks := byFile;
    var s := SecondPass([], []);
    ghost var p := Packs([], []);
    NothingPacked(byFile, batchSize, maxPromptChars);
    for n := 0 to |byFile|
      invariant PackedSoFar(byFile, n, s, p, batchSize, maxPromptChars)
    {
      p := PackOne(byFile, n, s, p, batchSize, maxPromptChars);
      s := AddToGroups(s, byFile[n], batchSize, maxPromptChars);
    }
    PackingEnds(byFile, s, p, batchSize, maxPromptChars);
    packs := PutAwayPacks(p).closed;
    grouped := s.grouped;
    if s.packed != [] {
      grouped := grouped + [s.packed];
    }
  }

  // ---------------------------------------------------------------------
  // No other grouping is like this
  // ---------------------------------------------------------------------

  lemma {:induction false} PrefixFits(some: seq<Entry>, all: seq<Entry>, maxPromptChars: nat)
    requires some <= all && AllMethods(all)
    ensures AllMethods(some) && PromptTotal(some) <= PromptTotal(all)
    ensures FitsPrompt(all, maxPromptChars) ==> FitsPrompt(some, maxPromptChars)
    decreases |all|
  {
    if |some| < |all| {
      PrefixFits(some, all[..|all| - 1], maxPromptChars);
    } else {
      assert some == all;
    }
  }

  /** A list of lists from its first on; `first` is shorter than what another list starts with. */
  lemma {:induction false} NextIsInside<T>(a: seq<seq<T>>, b: seq<seq<T>>)
    requires a != [] && b != [] && Flatten(a) == Flatten(b) && |a[0]| < |b[0]|
    requires forall k :: 0 <= k < |a| ==> a[k] != []
    ensures |a| > 1 && a[0] + [a[1][0]] <= b[0]
  {
    assert a == [a[0]] + a[1..] && b == [b[0]] + b[1..];
    FlattenCons(a[0], a[1..]);
    FlattenCons(b[0], b[1..]);
    var whole := Flatten(a);
    assert Flatten(a[1..]) != [];
    assert a[1..] == [a[1]] + a[2..];
    FlattenCons(a[1], a[2..]);
    assert whole[|a[0]|] == a[1][0];
    assert a[0] == whole[..|a[0]|] == b[0][..|a[0]|];
    assert b[0][|a[0]|] == a[1][0];
    assert a[0] + [a[1][0]] == b[0][..|a[0]| + 1];
  }

  /** A chunk is not closed before an entry that another chunk has behind it. */
  lemma BehindIsNotClosed(chunk: seq<Entry>, next: Entry, longer: seq<Entry>, batchSize: nat, maxPromptChars: nat)
    requires chunk != [] && chunk + [next] <= longer && IsChunk(longer, batchSize, maxPromptChars)
    ensures !Closed(chunk, next, batchSize, maxPromptChars)
  {
    assert longer[0] == chunk[0] && longer[|chunk|] == next;
    PrefixFits(chunk + [next], longer, maxPromptChars);
  }

  lemma FirstChunkIsNotShorter(a: seq<seq<Entry>>, b: seq<seq<Entry>>, batchSize: nat, maxPromptChars: nat)
    requires a != [] && b != [] && Flatten(a) == Flatten(b)
    requires AllClosed(a, batchSize, maxPromptChars) && IsChunk(b[0], batchSize, maxPromptChars)
    ensures |a[0]| >= |b[0]|
  {
    if |a[0]| < |b[0]| {
      NextIsInside(a, b);
      BehindIsNotClosed(a[0], a[1][0], b[0], batchSize, maxPromptChars);
    }
  }

  lemma {:induction false} FirstsAgree<T>(a: seq<seq<T>>, b: seq<seq<T>>)
    requires a != [] && b != [] && Flatten(a) == Flatten(b) && |a[0]| == |b[0]|
    ensures a[0] == b[0] && Flatten(a[1..]) == Flatten(b[1..])
  {
    assert a == [a[0]] + a[1..] && b == [b[0]] + b[1..];
    FlattenCons(a[0], a[1..]);
    FlattenCons(b[0], b[1..]);
    assert a[0] == Flatten(a)[..|a[0]|] && b[0] == Flatten(b)[..|b[0]|];
    assert Flatten(a[1..]) == Flatten(a)[|a[0]|..] && Flatten(b[1..]) == Flatten(b)[|b[0]|..];
  }

  lemma {:induction false} NothingIsFlat<T>(a: seq<seq<T>>)
    requires Flatten(a) == [] && forall k :: 0 <= k < |a| ==> a[k] != []
    ensures a == []
  {
  }

  lemma BothAreEmpty<T>(p: seq<seq<T>>, q: seq<seq<T>>)
    requires Flatten(p) == Flatten(q) && (p == [] || q == [])
    requires (forall k :: 0 <= k < |p| ==> p[k] != []) && (forall k :: 0 <= k < |q| ==> q[k] != [])
    ensures p == q == []
  {
    NothingIsFlat(p);
    NothingIsFlat(q);
  }

  lemma {:induction false} LaterChunks(chunks: seq<seq<Entry>>, batchSize: nat, maxPromptChars: nat)
    requires Chunks(chunks, batchSize, maxPromptChars) && chunks != []
    ensures Chunks(chunks[1..], batchSize, maxPromptChars)
  {
    var rest := chunks[1..];
    forall c | 0 <= c < |rest| - 1 ensures Closed(rest[c], rest[c + 1][0], batchSize, maxPromptChars) {
      assert Closed(chunks[c + 1], chunks[c + 2][0], batchSize, maxPromptChars);
    }
  }

  lemma {:induction false} ChunksAreUnique(a: seq<seq<Entry>>, b: seq<seq<Entry>>, batchSize: nat, maxPromptChars: nat)
    requires Chunks(a, batchSize, maxPromptChars) && Chunks(b, batchSize, maxPromptChars) && Flatten(a) == Flatten(b)
    ensures a == b
  {
    if a == [] || b == [] {
      BothAreEmpty(a, b);
    } else {
      FirstChunkIsNotShorter(a, b, batchSize, maxPromptChars);
      FirstChunkIsNotShorter(b, a, batchSize, maxPromptChars);
      FirstsAgree(a, b);
      LaterChunks(a, batchSize, maxPromptChars);
      LaterChunks(b, batchSize, maxPromptChars);
      ChunksAreUnique(a[1..], b[1..], batchSize, maxPromptChars);
    }
  }

  lemma {:induction false} FlattenOfPrefix<T>(some: seq<seq<T>>, all: seq<seq<T>>)
    requires some <= all
    ensures Flatten(some) <= Flatten(all)
    decreases |all|
  {
    if |some| < |all| {
      FlattenOfPrefix(some, all[..|all| - 1]);
    } else {
      assert some == all;
    }
  }

  /** A group is not kept apart from methods that another group has behind it. */
  lemma BehindIsNotKeptApart(group: seq<Entry>, chunk: seq<Entry>, longer: seq<Entry>, batchSize: nat, maxPromptChars: nat)
    requires group != [] && chunk != [] && group + chunk <= longer && WellPacked(longer, batchSize, maxPromptChars)
    ensures !KeptApart(group, chunk, batchSize, maxPromptChars)
  {
    PrefixFits(group + chunk, longer, maxPromptChars);
    forall i | 0 <= i < |chunk| ensures chunk[i].job.MethodJob? {
      assert (group + chunk)[|group| + i] == chunk[i];
    }
    forall i | 0 <= i < |group| ensures group[i].job.MethodJob? {
      assert (group + chunk)[i] == group[i];
    }
  }

  /** The chunk behind a shorter pack is inside the longer one. */
  lemma ShorterPack(p: seq<seq<seq<Entry>>>, q: seq<seq<seq<Entry>>>)
    requires p != [] && q != [] && Flatten(p) == Flatten(q) && |p[0]| < |q[0]|
    requires forall k :: 0 <= k < |p| ==> p[k] != []
    ensures |p| > 1 && p[1][0] in q[0] && Flatten(p[0]) + p[1][0] <= Flatten(q[0])
  {
    NextIsInside(p, q);
    assert q[0][|p[0]|] == p[1][0];
    FlattenPush(p[0], p[1][0]);
    FlattenOfPrefix(p[0] + [p[1][0]], q[0]);
  }

  lemma FirstPackIsNotShorter(
      g: seq<seq<Entry>>, p: seq<seq<seq<Entry>>>, h: seq<seq<Entry>>, q: seq<seq<seq<Entry>>>, batchSize: nat, maxPromptChars: nat)
    requires p != [] && q != [] && Flatten(p) == Flatten(q) && (forall c :: c in q[0] ==> c != [])
    requires ArePacks(g, p, batchSize, maxPromptChars) && ArePacks(h, q, batchSize, maxPromptChars)
    ensures |p[0]| >= |q[0]|
  {
    if |p[0]| < |q[0]| {
      ShorterPack(p, q);
      BehindIsNotKeptApart(g[0], p[1][0], h[0], batchSize, maxPromptChars);
    }
  }

  lemma {:induction false} LaterPacks(g: seq<seq<Entry>>, p: seq<seq<seq<Entry>>>, batchSize: nat, maxPromptChars: nat)
    requires ArePacks(g, p, batchSize, maxPromptChars) && g != []
    ensures ArePacks(g[1..], p[1..], batchSize, maxPromptChars)
  {
    forall k | 0 <= k < |g[1..]| - 1 ensures KeptApart(g[1..][k], p[1..][k + 1][0], batchSize, maxPromptChars) {
      assert KeptApart(g[k + 1], p[k + 2][0], batchSize, maxPromptChars);
    }
  }

  lemma PartsHoldNoEmpty<T>(groups: seq<seq<seq<T>>>)
    requires groups != [] && forall c :: c in Flatten(groups) ==> c != []
    ensures forall c :: c in groups[0] ==> c != []
    ensures forall c :: c in Flatten(groups[1..]) ==> c != []
  {
    var first, rest := groups[0], Flatten(groups[1..]);
    FlattenCons(first, groups[1..]);
    assert groups == [first] + groups[1..] && Flatten(groups) == first + rest;
    forall c | c in first || c in rest ensures c != [] {
      assert c in first + rest;
    }
  }

  lemma FirstPacksAgree(
      g: seq<seq<Entry>>, p: seq<seq<seq<Entry>>>, h: seq<seq<Entry>>, q: seq<seq<seq<Entry>>>, batchSize: nat, maxPromptChars: nat)
    requires p != [] && q != [] && Flatten(p) == Flatten(q) && (forall c :: c in Flatten(p) ==> c != [])
    requires ArePacks(g, p, batchSize, maxPromptChars) && ArePacks(h, q, batchSize, maxPromptChars)
    ensures g[0] == h[0] && Flatten(p[1..]) == Flatten(q[1..])
  {
    PartsHoldNoEmpty(p);
    PartsHoldNoEmpty(q);
    FirstPackIsNotShorter(g, p, h, q, batchSize, maxPromptChars);
    FirstPackIsNotShorter(h, q, g, p, batchSize, maxPromptChars);
    FirstsAgree(p, q);
  }

  lemma NoPacks(g: seq<seq<Entry>>, p: seq<seq<seq<Entry>>>, h: seq<seq<Entry>>, q: seq<seq<seq<Entry>>>,
                batchSize: nat, maxPromptChars: nat)
    requires Flatten(p) == Flatten(q) && (p == [] || q == [])
    requires ArePacks(g, p, batchSize, maxPromptChars) && ArePacks(h, q, batchSize, maxPromptChars)
    ensures g == h == []
  {
    BothAreEmpty(p, q);
  }

  lemma SameLists<T>(a: seq<T>, b: seq<T>)
    requires a != [] && b != [] && a[0] == b[0] && a[1..] == b[1..]
    ensures a == b
  {
    assert a == [a[0]] + a[1..] && b == [b[0]] + b[1..];
  }

  lemma {:induction false} PacksAreUnique(
      g: seq<seq<Entry>>, p: seq<seq<seq<Entry>>>, h: seq<seq<Entry>>, q: seq<seq<seq<Entry>>>, batchSize: nat, maxPromptChars: nat)
    requires ArePacks(g, p, batchSize, maxPromptChars) && ArePacks(h, q, batchSize, maxPromptChars)
    requires Flatten(p) == Flatten(q) && (forall c :: c in Flatten(p) ==> c != [])
    ensures g == h
  {
    if p == [] || q == [] {
      NoPacks(g, p, h, q, batchSize, maxPromptChars);
    } else {
      FirstPacksAgree(g, p, h, q, batchSize, maxPromptChars);
      PartsHoldNoEmpty(p);
      LaterPacks(g, p, batchSize, maxPromptChars);
      LaterPacks(h, q, batchSize, maxPromptChars);
      PacksAreUnique(g[1..], p[1..], h[1..], q[1..], batchSize, maxPromptChars);
      SameLists(g, h);
    }
  }

  /** What `GroupPendingReviews` promises leaves no choice: two groupings of the same jobs that
      keep the promise are equal. */
  lemma GroupingIsUnique(
      g: seq<seq<Entry>>, p: seq<seq<seq<Entry>>>, h: seq<seq<Entry>>, q: seq<seq<seq<Entry>>>, batchSize: nat, maxPromptChars: nat)
    requires Chunks(Flatten(p), batchSize, maxPromptChars) && ArePacks(g, p, batchSize, maxPromptChars)
    requires Chunks(Flatten(q), batchSize, maxPromptChars) && ArePacks(h, q, batchSize, maxPromptChars)
    requires Flatten(Flatten(p)) == Flatten(Flatten(q))
    ensures g == h
  {
    ChunksAreUnique(Flatten(p), Flatten(q), batchSize, maxPromptChars);
    PacksAreUnique(g, p, h, q, batchSize, maxPromptChars);
  }
}
