/** The identity text that names a review unit in the journal
    (`push_identity_field` and `ReviewJob::journal_unit_id` in src/analyzer_engine_jobs.rs). */
module JobIdentity {
  import opened Wrappers
  import opened Bytes
  import opened Sequences
  import opened Sorting

  /** A Rust string as its UTF-8 bytes: lengths and ordering are bytewise. */
  type Text = seq<byte>

  datatype Field = Field(name: Text, value: Text)

  const COLON: byte := 58
  const ZERO: byte := 48

  // ---------------------------------------------------------------------
  // Length-prefixed fields
  // ---------------------------------------------------------------------

  /** `usize::to_string`. */
  function Decimal(n: nat): (digits: Text)
    ensures digits != [] && forall i :: 0 <= i < |digits| ==> IsDigit(digits[i])
  {
    (if n < 10 then [] else Decimal(n / 10)) + [(n % 10) as byte + ZERO]
  }

  predicate IsDigit(b: byte) {
    48 <= b <= 57
  }

  function EncodeText(t: Text): Text {
    Decimal(|t|) + [COLON] + t
  }

  function EncodeField(f: Field): Text {
    EncodeText(f.name) + EncodeText(f.value)
  }

  function EncodeFields(fields: seq<Field>): Text {
    if fields == [] then [] else EncodeField(fields[0]) + EncodeFields(fields[1..])
  }

  // ---------------------------------------------------------------------
  // The decoder
  // ---------------------------------------------------------------------

  /** The number written before the first byte that is no digit, and what follows. */
  function ReadNumber(acc: nat, t: Text): (nat, Text)
    decreases |t|
  {
    if t != [] && IsDigit(t[0]) then ReadNumber(10 * acc + (t[0] - ZERO) as int, t[1..]) else (acc, t)
  }

  function ReadText(t: Text): Option<(Text, Text)> {
    var (n, rest) := ReadNumber(0, t);
    if rest != [] && rest[0] == COLON && n < |rest| then Some((rest[1..n + 1], rest[n + 1..])) else None
  }

  function Decode(t: Text): Option<seq<Field>>
    decreases |t|
  {
    if t == [] then Some([])
    else
      match ReadText(t)
      case None => None
      case Some((name, afterName)) =>
        match ReadText(afterName)
        case None => None
        case Some((value, rest)) =>
          if |rest| >= |t| then None
          else
            match Decode(rest)
            case None => None
            case Some(fields) => Some([Field(name, value)] + fields)
  }

  function Shift(acc: nat, n: nat): nat {
    if n < 10 then 10 * acc + n else 10 * Shift(acc, n / 10) + n % 10
  }

  lemma {:induction false} ShiftZero(n: nat)
    ensures Shift(0, n) == n
  {
    if n >= 10 {
      ShiftZero(n / 10);
    }
  }

  lemma {:induction false} ReadDecimal(acc: nat, n: nat, rest: Text)
    ensures ReadNumber(acc, Decimal(n) + rest) == ReadNumber(Shift(acc, n), rest)
    decreases n
  {
    var digit := (n % 10) as byte + ZERO;
    if n < 10 {
      assert Decimal(n) + rest == [digit] + rest;
      assert ([digit] + rest)[1..] == rest;
    } else {
      assert Decimal(n) + rest == Decimal(n / 10) + ([digit] + rest);
      ReadDecimal(acc, n / 10, [digit] + rest);
      assert ([digit] + rest)[1..] == rest;
    }
  }

  lemma ReadEncoded(t: Text, rest: Text)
    ensures ReadText(EncodeText(t) + rest) == Some((t, rest))
  {
    var tail := [COLON] + t + rest;
    assert EncodeText(t) + rest == Decimal(|t|) + tail;
    ReadDecimal(0, |t|, tail);
    ShiftZero(|t|);
    assert tail[1..|t| + 1] == t && tail[|t| + 1..] == rest;
  }

  /** The decoder recovers every field list: the encoding is uniquely decodable. */
  lemma {:induction false} DecodeRecovers(fields: seq<Field>)
    ensures Decode(EncodeFields(fields)) == Some(fields)
    decreases |fields|
  {
    if fields != [] {
      var f, rest := fields[0], EncodeFields(fields[1..]);
      var text := EncodeFields(fields);
      assert text == EncodeText(f.name) + (EncodeText(f.value) + rest);
      ReadEncoded(f.name, EncodeText(f.value) + rest);
      ReadEncoded(f.value, rest);
      DecodeRecovers(fields[1..]);
      assert [f] + fields[1..] == fields;
    }
  }

  lemma {:induction false} EncodingIsInjective(a: seq<Field>, b: seq<Field>)
    ensures EncodeFields(a) == EncodeFields(b) <==> a == b
  {
    DecodeRecovers(a);
    DecodeRecovers(b);
  }

  lemma {:induction false} DecimalIsInjective(m: nat, n: nat)
    requires Decimal(m) == Decimal(n)
    ensures m == n
  {
    ReadDecimal(0, m, []);
    ReadDecimal(0, n, []);
    ShiftZero(m);
    ShiftZero(n);
    assert Decimal(m) + [] == Decimal(n) + [];
  }

  // ---------------------------------------------------------------------
  // Orders
  // ---------------------------------------------------------------------

  /** Bytewise lexicographic order. */
  predicate TextLeq(a: Text, b: Text) {
    if a == [] then true
    else if b == [] then false
    else if a[0] != b[0] then a[0] < b[0]
    else TextLeq(a[1..], b[1..])
  }

  lemma {:induction false} TextLeqTotal(a: Text, b: Text)
    ensures TextLeq(a, b) || TextLeq(b, a)
    ensures TextLeq(a, b) && TextLeq(b, a) ==> a == b
  {
    if a != [] && b != [] && a[0] == b[0] {
      TextLeqTotal(a[1..], b[1..]);
      assert a == [a[0]] + a[1..] && b == [b[0]] + b[1..];
    }
  }

  lemma {:induction false} TextLeqTransitive(a: Text, b: Text, c: Text)
    requires TextLeq(a, b) && TextLeq(b, c)
    ensures TextLeq(a, c)
  {
    if a != [] && a[0] == b[0] && b[0] == c[0] {
      TextLeqTransitive(a[1..], b[1..], c[1..]);
    }
  }

  lemma TextOrder()
    ensures TotalOrder(TextLeq)
  {
    forall a, b ensures (TextLeq(a, b) || TextLeq(b, a)) && (TextLeq(a, b) && TextLeq(b, a) ==> a == b) {
      TextLeqTotal(a, b);
    }
    forall a, b, c | TextLeq(a, b) && TextLeq(b, c) ensures TextLeq(a, c) {
      TextLeqTransitive(a, b, c);
    }
  }

  datatype Reference = Reference(filePath: Text, line: nat, snippet: Text)

  /** By path, then line, then snippet. */
  predicate ReferenceLeq(a: Reference, b: Reference) {
    if a.filePath != b.filePath then TextLeq(a.filePath, b.filePath)
    else if a.line != b.line then a.line < b.line
    else TextLeq(a.snippet, b.snippet)
  }

  lemma ReferenceLeqTransitive(a: Reference, b: Reference, c: Reference)
    requires ReferenceLeq(a, b) && ReferenceLeq(b, c)
    ensures ReferenceLeq(a, c)
  {
    TextOrder();
  }

  lemma ReferenceOrder()
    ensures TotalOrder(ReferenceLeq)
  {
    TextOrder();
    forall a, b ensures ReferenceLeq(a, b) || ReferenceLeq(b, a) {
      assert TextLeq(a.filePath, b.filePath) || TextLeq(b.filePath, a.filePath);
      assert TextLeq(a.snippet, b.snippet) || TextLeq(b.snippet, a.snippet);
    }
    forall a, b, c | ReferenceLeq(a, b) && ReferenceLeq(b, c) ensures ReferenceLeq(a, c) {
      ReferenceLeqTransitive(a, b, c);
    }
  }

  // ---------------------------------------------------------------------
  // Review jobs and their fields
  // ---------------------------------------------------------------------

  datatype StaleDiscardProof = StaleDiscardProof(discardedParameters: seq<Text>, callerSites: seq<Text>)

  /** What the duplicated-branch detector says about the method. */
  datatype BranchProof = Duplicated(proof: Text) | RejectedNonExhaustive(rejected: Text) | NoBranchProof

  datatype ReviewJob =
    | MethodJob(index: nat, filePath: Text, methodName: Text, source: Text, startLine: nat, endLine: nat,
                signals: seq<Text>, fullFile: Text, boundaries: seq<Text>, privateUnused: bool,
                stale: Option<StaleDiscardProof>, branch: BranchProof, contextLines: seq<Text>,
                callees: seq<Reference>, references: seq<Reference>)
    | FileJob(index: nat, filePath: Text, source: Text, signals: seq<Text>)

  function Each(name: Text, values: seq<Text>): seq<Field> {
    seq(|values|, i requires 0 <= i < |values| => Field(name, values[i]))
  }

  function Counted(count: Text, name: Text, values: seq<Text>): seq<Field> {
    [Field(count, Decimal(|values|))] + Each(name, values)
  }

  function ReferenceFields(kind: Text, r: Reference): seq<Field> {
    [Field(kind + Ascii("_path"), r.filePath), Field(kind + Ascii("_line"), Decimal(r.line)),
     Field(kind + Ascii("_snippet"), r.snippet)]
  }

  function EachReference(kind: Text, references: seq<Reference>): seq<Field> {
    if references == [] then []
    else ReferenceFields(kind, references[0]) + EachReference(kind, references[1..])
  }

  function CountedReferences(kind: Text, references: seq<Reference>): seq<Field> {
    [Field(kind + Ascii("_count"), Decimal(|references|))] + EachReference(kind, references)
  }

  /** The texts that the stale-discard fields are written with. */
  datatype StaleLabels = StaleLabels(
    name: Text, absent: Text, present: Text, parameterCount: Text, parameter: Text, siteCount: Text, site: Text)

  function StaleTexts(): StaleLabels {
    StaleLabels(Ascii("stale_discard_proof"), Ascii("absent"), Ascii("present"),
                Ascii("discarded_parameter_count"), Ascii("discarded_parameter"),
                Ascii("caller_site_count"), Ascii("caller_site"))
  }

  function StaleFieldsAs(l: StaleLabels, stale: Option<StaleDiscardProof>): seq<Field> {
    match stale
    case None => [Field(l.name, l.absent)]
    case Some(proof) =>
      [Field(l.name, l.present)]
      + Counted(l.parameterCount, l.parameter, proof.discardedParameters)
      + Counted(l.siteCount, l.site, proof.callerSites)
  }

  function StaleFields(stale: Option<StaleDiscardProof>): seq<Field> {
    StaleFieldsAs(StaleTexts(), stale)
  }

  function BranchFields(branch: BranchProof): seq<Field> {
    match branch
    case Duplicated(proof) =>
      [Field(Ascii("branch_proof"), Ascii("duplicated")), Field(Ascii("branch_proof_value"), proof)]
    case RejectedNonExhaustive(rejected) =>
      [Field(Ascii("branch_proof"), Ascii("rejected_non_exhaustive")), Field(Ascii("branch_proof_value"), rejected)]
    case NoBranchProof => [Field(Ascii("branch_proof"), Ascii("absent"))]
  }

  function Head(job: ReviewJob): seq<Field>
    requires job.MethodJob?
  {
    [Field(Ascii("kind"), Ascii("method")), Field(Ascii("file_path"), job.filePath),
     Field(Ascii("method_name"), job.methodName), Field(Ascii("source"), job.source),
     Field(Ascii("start_line"), Decimal(job.startLine)), Field(Ascii("end_line"), Decimal(job.endLine))]
  }

  function FileHead(job: ReviewJob): seq<Field>
    requires job.FileJob?
  {
    [Field(Ascii("kind"), Ascii("file")), Field(Ascii("file_path"), job.filePath), Field(Ascii("source"), job.source)]
  }

  function FullFileField(job: ReviewJob): Field
    requires job.MethodJob?
  {
    Field(Ascii("full_file"), job.fullFile)
  }

  function PrivateField(job: ReviewJob): Field
    requires job.MethodJob?
  {
    Field(Ascii("private_unused_candidate"), if job.privateUnused then Ascii("true") else Ascii("false"))
  }

  /** The fields from the signals on. */
  function AfterHead(job: ReviewJob, role: Text -> Text): seq<Field>
    requires job.MethodJob?
  {
    Counted(Ascii("signal_count"), Ascii("signal"), Sort(TextLeq, job.signals)) + ([FullFileField(job)] + FromBoundaries(job, role))
  }

  function FromBoundaries(job: ReviewJob, role: Text -> Text): seq<Field>
    requires job.MethodJob?
  {
    Counted(Ascii("boundary_count"), Ascii("boundary"), Sort(TextLeq, job.boundaries))
    + ([PrivateField(job)] + (StaleFields(job.stale) + (BranchFields(job.branch) + FromContext(job, role))))
  }

  function FromContext(job: ReviewJob, role: Text -> Text): seq<Field>
    requires job.MethodJob?
  {
    Counted(Ascii("context_line_count"), Ascii("context_line"), Sort(TextLeq, job.contextLines))
    + (CountedReferences(Ascii("callee"), Sort(ReferenceLeq, job.callees))
       + (CountedReferences(Ascii("reference"), Sort(ReferenceLeq, job.references))
          + [Field(Ascii("file_role"), role(job.filePath))]))
  }

  /** The canonical field list; `role` classifies a path. The scan position is left out. */
  function Fields(job: ReviewJob, role: Text -> Text): seq<Field> {
    match job
    case MethodJob(_, _, _, _, _, _, _, _, _, _, _, _, _, _, _) => Head(job) + AfterHead(job, role)
    case FileJob(_, filePath, _, signals) =>
      FileHead(job)
      + (Counted(Ascii("signal_count"), Ascii("signal"), Sort(TextLeq, signals))
         + [Field(Ascii("file_role"), role(filePath))])
  }

  // ---------------------------------------------------------------------
  // Building the identity text
  // ---------------------------------------------------------------------

  lemma {:induction false} EncodeConcat(a: seq<Field>, b: seq<Field>)
    ensures EncodeFields(a + b) == EncodeFields(a) + EncodeFields(b)
  {
    if a == [] {
      assert a + b == b;
    } else {
      assert (a + b)[1..] == a[1..] + b;
      EncodeConcat(a[1..], b);
    }
  }

  lemma JoinParts(a: Text, b: Text, c: Text, d: Text, e: Text, f: Text, g: Text)
    ensures a + b + c + d + e + f + g == a + (b + c + d + (e + f + g))
  {
    assert a + b + c + d == a + (b + c + d);
    assert a + b + c + d + e + f + g == a + b + c + d + (e + f + g);
  }

  /** Appending one list after another appends both. */
  lemma {:induction false} EncodeOn(text: Text, a: seq<Field>, b: seq<Field>)
    ensures text + EncodeFields(a) + EncodeFields(b) == text + EncodeFields(a + b)
  {
    EncodeConcat(a, b);
    assert text + EncodeFields(a) + EncodeFields(b) == text + (EncodeFields(a) + EncodeFields(b));
  }

  /** Appending one more field of a list. */
  lemma EncodeNext(text: Text, fields: seq<Field>, k: nat)
    requires k < |fields|
    ensures text + EncodeFields(fields[..k]) + EncodeFields([fields[k]]) == text + EncodeFields(fields[..k + 1])
  {
    EncodeOn(text, fields[..k], [fields[k]]);
    assert fields[..k + 1] == fields[..k] + [fields[k]];
  }

  /** `push_identity_field`, appending to the identity text. */
  method PushIdentityField(identity: Text, name: Text, value: Text) returns (identity': Text)
    ensures identity' == identity + EncodeFields([Field(name, value)])
  {
    identity' := identity + Decimal(|name|) + [COLON] + name;
    identity' := identity' + Decimal(|value|) + [COLON] + value;
    JoinParts(identity, Decimal(|name|), [COLON], name, Decimal(|value|), [COLON], value);
    assert EncodeFields([Field(name, value)]) == EncodeField(Field(name, value)) + EncodeFields([]);
  }

  method PushThree(identity: Text, first: Field, second: Field, third: Field) returns (identity': Text)
    ensures identity' == identity + EncodeFields([first, second, third])
  {
    identity' := PushIdentityField(identity, first.name, first.value);
    identity' := PushIdentityField(identity', second.name, second.value);
    EncodeOn(identity, [first], [second]);
    assert [first] + [second] == [first, second];
    identity' := PushIdentityField(identity', third.name, third.value);
    EncodeOn(identity, [first, second], [third]);
    assert [first, second] + [third] == [first, second, third];
  }

  method PushCounted(identity: Text, count: Text, name: Text, values: seq<Text>) returns (identity': Text)
    ensures identity' == identity + EncodeFields(Counted(count, name, values))
  {
    ghost var fields := Counted(count, name, values);
    identity' := PushIdentityField(identity, count, Decimal(|values|));
    assert fields[..1] == [fields[0]];
    for n := 0 to |values|
      invariant identity' == identity + EncodeFields(fields[..n + 1])
    {
      identity' := PushIdentityField(identity', name, values[n]);
      EncodeNext(identity, fields, n + 1);
    }
    assert fields[..|values| + 1] == fields;
  }

  lemma {:induction false} EachReferencePush(kind: Text, references: seq<Reference>, r: Reference)
    ensures EachReference(kind, references + [r]) == EachReference(kind, references) + ReferenceFields(kind, r)
  {
    if references == [] {
      assert references + [r] == [r];
      assert EachReference(kind, [r]) == ReferenceFields(kind, r) + EachReference(kind, []);
    } else {
      assert (references + [r])[1..] == references[1..] + [r];
      EachReferencePush(kind, references[1..], r);
    }
  }

  method PushReference(identity: Text, kind: Text, r: Reference) returns (identity': Text)
    ensures identity' == identity + EncodeFields(ReferenceFields(kind, r))
  {
    identity' := PushThree(identity, Field(kind + Ascii("_path"), r.filePath), Field(kind + Ascii("_line"), Decimal(r.line)),
                           Field(kind + Ascii("_snippet"), r.snippet));
  }

  /** The references themselves, in order. */
  method PushReferences(identity: Text, kind: Text, references: seq<Reference>) returns (identity': Text)
    ensures identity' == identity + EncodeFields(EachReference(kind, references))
  {
    identity' := identity;
    for n := 0 to |references|
      invariant identity' == identity + EncodeFields(EachReference(kind, references[..n]))
    {
      identity' := PushReference(identity', kind, references[n]);
      EncodeOn(identity, EachReference(kind, references[..n]), ReferenceFields(kind, references[n]));
      EachReferencePush(kind, references[..n], references[n]);
      assert references[..n + 1] == references[..n] + [references[n]];
    }
    assert references[..|references|] == references;
  }

  method PushCountedReferences(identity: Text, kind: Text, references: seq<Reference>) returns (identity': Text)
    ensures identity' == identity + EncodeFields(CountedReferences(kind, references))
  {
    identity' := PushIdentityField(identity, kind + Ascii("_count"), Decimal(|references|));
    identity' := PushReferences(identity', kind, references);
    EncodeOn(identity, [Field(kind + Ascii("_count"), Decimal(|references|))], EachReference(kind, references));
  }

  method PushStale(identity: Text, l: StaleLabels, stale: Option<StaleDiscardProof>) returns (identity': Text)
    ensures identity' == identity + EncodeFields(StaleFieldsAs(l, stale))
  {
    match stale {
      case None =>
        identity' := PushIdentityField(identity, l.name, l.absent);
      case Some(proof) =>
        ghost var name := [Field(l.name, l.present)];
        ghost var parameters := Counted(l.parameterCount, l.parameter, proof.discardedParameters);
        identity' := PushIdentityField(identity, l.name, l.present);
        identity' := PushCounted(identity', l.parameterCount, l.parameter, proof.discardedParameters);
        EncodeOn(identity, name, parameters);
        identity' := PushCounted(identity', l.siteCount, l.site, proof.callerSites);
        EncodeOn(identity, name + parameters, Counted(l.siteCount, l.site, proof.callerSites));
    }
  }

  method PushBranchProof(identity: Text, kind: Text, value: Text) returns (identity': Text)
    ensures identity' == identity + EncodeFields([Field(Ascii("branch_proof"), kind), Field(Ascii("branch_proof_value"), value)])
  {
    ghost var proof, proofValue := Field(Ascii("branch_proof"), kind), Field(Ascii("branch_proof_value"), value);
    identity' := PushIdentityField(identity, Ascii("branch_proof"), kind);
    identity' := PushIdentityField(identity', Ascii("branch_proof_value"), value);
    EncodeOn(identity, [proof], [proofValue]);
    assert [proof] + [proofValue] == [proof, proofValue];
  }

  method PushBranch(identity: Text, branch: BranchProof) returns (identity': Text)
    ensures identity' == identity + EncodeFields(BranchFields(branch))
  {
    match branch {
      case Duplicated(proof) =>
        identity' := PushBranchProof(identity, Ascii("duplicated"), proof);
      case RejectedNonExhaustive(rejected) =>
        identity' := PushBranchProof(identity, Ascii("rejected_non_exhaustive"), rejected);
      case NoBranchProof =>
        identity' := PushIdentityField(identity, Ascii("branch_proof"), Ascii("absent"));
    }
  }

  method PushHead(job: ReviewJob) returns (identity: Text)
    requires job.MethodJob?
    ensures identity == EncodeFields(Head(job))
  {
    var kind, path, name := Field(Ascii("kind"), Ascii("method")), Field(Ascii("file_path"), job.filePath), Field(Ascii("method_name"), job.methodName);
    var source, start, end := Field(Ascii("source"), job.source), Field(Ascii("start_line"), Decimal(job.startLine)), Field(Ascii("end_line"), Decimal(job.endLine));
    identity := PushThree([], kind, path, name);
    identity := PushThree(identity, source, start, end);
    EncodeOn([], [kind, path, name], [source, start, end]);
    assert [kind, path, name] + [source, start, end] == Head(job);
  }

  method PushFromContext(identity: Text, job: ReviewJob, role: Text -> Text) returns (identity': Text)
    requires job.MethodJob?
    ensures identity' == identity + EncodeFields(FromContext(job, role))
  {
    var lineCount, line, callee, reference := Ascii("context_line_count"), Ascii("context_line"), Ascii("callee"), Ascii("reference");
    var lines, callees, references := Sort(TextLeq, job.contextLines), Sort(ReferenceLeq, job.callees), Sort(ReferenceLeq, job.references);
    ghost var a, b, c := Counted(lineCount, line, lines), CountedReferences(callee, callees), CountedReferences(reference, references);
    ghost var d := [Field(Ascii("file_role"), role(job.filePath))];
    identity' := PushCounted(identity, lineCount, line, lines);
    identity' := PushCountedReferences(identity', callee, callees);
    EncodeOn(identity, a, b);
    identity' := PushCountedReferences(identity', reference, references);
    EncodeOn(identity, a + b, c);
    identity' := PushIdentityField(identity', Ascii("file_role"), role(job.filePath));
    EncodeOn(identity, a + b + c, d);
    Assoc(a, b, c, d);
  }

  method PushFromBoundaries(identity: Text, job: ReviewJob, role: Text -> Text) returns (identity': Text)
    requires job.MethodJob?
    ensures identity' == identity + EncodeFields(FromBoundaries(job, role))
  {
    var count, name, boundaries := Ascii("boundary_count"), Ascii("boundary"), Sort(TextLeq, job.boundaries);
    ghost var a, b := Counted(count, name, boundaries), [PrivateField(job)];
    ghost var c, d, e := StaleFields(job.stale), BranchFields(job.branch), FromContext(job, role);
    identity' := PushCounted(identity, count, name, boundaries);
    identity' := PushIdentityField(identity', PrivateField(job).name, PrivateField(job).value);
    EncodeOn(identity, a, b);
    identity' := PushStale(identity', StaleTexts(), job.stale);
    EncodeOn(identity, a + b, c);
    identity' := PushBranch(identity', job.branch);
    EncodeOn(identity, a + b + c, d);
    identity' := PushFromContext(identity', job, role);
    EncodeOn(identity, a + b + c + d, e);
    Assoc(a, b, c, d);
    Assoc(a, b + (c + d), e, []);
    Assoc(b, c, d, e);
  }

  /** The text hashed by `journal_unit_id`. */
  method JournalUnitIdentity(job: ReviewJob, role: Text -> Text) returns (identity: Text)
    ensures identity == EncodeFields(Fields(job, role))
  {
    if job.MethodJob? {
      var count, name, signals := Ascii("signal_count"), Ascii("signal"), Sort(TextLeq, job.signals);
      ghost var a, b, c := Counted(count, name, signals), [FullFileField(job)], FromBoundaries(job, role);
      identity := PushHead(job);
      ghost var head := identity;
      identity := PushCounted(identity, count, name, signals);
      identity := PushIdentityField(identity, FullFileField(job).name, FullFileField(job).value);
      EncodeOn(head, a, b);
      identity := PushFromBoundaries(identity, job, role);
      EncodeOn(head, a + b, c);
      Assoc(a, b, c, []);
      EncodeConcat(Head(job), AfterHead(job, role));
    } else {
      identity := PushFileJob(job, role);
    }
  }

  method PushFileHead(job: ReviewJob) returns (identity: Text)
    requires job.FileJob?
    ensures identity == EncodeFields(FileHead(job))
  {
    identity := PushThree([], Field(Ascii("kind"), Ascii("file")), Field(Ascii("file_path"), job.filePath),
                          Field(Ascii("source"), job.source));
  }

  method PushFileJob(job: ReviewJob, role: Text -> Text) returns (identity: Text)
    requires job.FileJob?
    ensures identity == EncodeFields(Fields(job, role))
  {
    var count, name, signals := Ascii("signal_count"), Ascii("signal"), Sort(TextLeq, job.signals);
    ghost var a, b := Counted(count, name, signals), [Field(Ascii("file_role"), role(job.filePath))];
    identity := PushFileHead(job);
    ghost var head := identity;
    identity := PushCounted(identity, count, name, signals);
    identity := PushIdentityField(identity, Ascii("file_role"), role(job.filePath));
    EncodeOn(head, a, b);
    EncodeConcat(FileHead(job), a + b);
  }

  // ---------------------------------------------------------------------
  // Equal identities mean equal reviews
  // ---------------------------------------------------------------------

  /** Same unit up to scan position and the order of signals, boundaries, context lines,
      callees and references. */
  ghost predicate SameReview(a: ReviewJob, b: ReviewJob) {
    match (a, b)
    case (MethodJob(_, _, _, _, _, _, _, _, _, _, _, _, _, _, _), MethodJob(_, _, _, _, _, _, _, _, _, _, _, _, _, _, _)) =>
      && a.filePath == b.filePath && a.methodName == b.methodName && a.source == b.source
      && a.startLine == b.startLine && a.endLine == b.endLine && a.fullFile == b.fullFile
      && a.privateUnused == b.privateUnused && a.stale == b.stale && a.branch == b.branch
      && multiset(a.signals) == multiset(b.signals)
      && multiset(a.boundaries) == multiset(b.boundaries)
      && multiset(a.contextLines) == multiset(b.contextLines)
      && multiset(a.callees) == multiset(b.callees)
      && multiset(a.references) == multiset(b.references)
    case (FileJob(_, _, _, _), FileJob(_, _, _, _)) =>
      a.filePath == b.filePath && a.source == b.source && multiset(a.signals) == multiset(b.signals)
    case _ => false
  }

  lemma SplitEqual<T>(a: seq<T>, restA: seq<T>, b: seq<T>, restB: seq<T>)
    requires a + restA == b + restB && |a| == |b|
    ensures a == b && restA == restB
  {
    assert a == (a + restA)[..|a|] && b == (b + restB)[..|b|];
    assert restA == (a + restA)[|a|..] && restB == (b + restB)[|b|..];
  }

  lemma CountedSplit(count: Text, name: Text, a: seq<Text>, restA: seq<Field>, b: seq<Text>, restB: seq<Field>)
    requires Counted(count, name, a) + restA == Counted(count, name, b) + restB
    ensures a == b && restA == restB
  {
    var all := Counted(count, name, a) + restA;
    assert all[0] == Field(count, Decimal(|a|)) && all[0] == Field(count, Decimal(|b|));
    DecimalIsInjective(|a|, |b|);
    SplitEqual(Counted(count, name, a), restA, Counted(count, name, b), restB);
    forall i | 0 <= i < |a| ensures a[i] == b[i] {
      assert Counted(count, name, a)[i + 1] == Field(name, a[i]) && Counted(count, name, b)[i + 1] == Field(name, b[i]);
    }
  }

  lemma {:induction false} EachReferenceSplit(
      kind: Text, a: seq<Reference>, restA: seq<Field>, b: seq<Reference>, restB: seq<Field>)
    requires |a| == |b| && EachReference(kind, a) + restA == EachReference(kind, b) + restB
    ensures a == b && restA == restB
    decreases |a|
  {
    if a == [] {
      assert EachReference(kind, a) + restA == restA && EachReference(kind, b) + restB == restB;
    } else {
      var othersA, othersB := EachReference(kind, a[1..]) + restA, EachReference(kind, b[1..]) + restB;
      assert EachReference(kind, a) + restA == ReferenceFields(kind, a[0]) + othersA;
      assert EachReference(kind, b) + restB == ReferenceFields(kind, b[0]) + othersB;
      SplitEqual(ReferenceFields(kind, a[0]), othersA, ReferenceFields(kind, b[0]), othersB);
      SameReference(kind, a[0], b[0]);
      EachReferenceSplit(kind, a[1..], restA, b[1..], restB);
      assert a == [a[0]] + a[1..] && b == [b[0]] + b[1..];
    }
  }

  lemma SameReference(kind: Text, a: Reference, b: Reference)
    requires ReferenceFields(kind, a) == ReferenceFields(kind, b)
    ensures a == b
  {
    var fa, fb := ReferenceFields(kind, a), ReferenceFields(kind, b);
    assert fa[0] == fb[0] && fa[1] == fb[1] && fa[2] == fb[2];
    DecimalIsInjective(a.line, b.line);
  }

  lemma ReferencesSplit(kind: Text, a: seq<Reference>, restA: seq<Field>, b: seq<Reference>, restB: seq<Field>)
    requires CountedReferences(kind, a) + restA == CountedReferences(kind, b) + restB
    ensures a == b && restA == restB
  {
    var count := kind + Ascii("_count");
    var othersA, othersB := EachReference(kind, a) + restA, EachReference(kind, b) + restB;
    assert CountedReferences(kind, a) + restA == [Field(count, Decimal(|a|))] + othersA;
    assert CountedReferences(kind, b) + restB == [Field(count, Decimal(|b|))] + othersB;
    SplitEqual([Field(count, Decimal(|a|))], othersA, [Field(count, Decimal(|b|))], othersB);
    assert [Field(count, Decimal(|a|))][0] == [Field(count, Decimal(|b|))][0];
    DecimalIsInjective(|a|, |b|);
    EachReferenceSplit(kind, a, restA, b, restB);
  }

  lemma SplitOne(a: Field, restA: seq<Field>, b: Field, restB: seq<Field>)
    requires [a] + restA == [b] + restB
    ensures a == b && restA == restB
  {
    assert ([a] + restA)[0] == a && ([b] + restB)[0] == b;
    SplitEqual([a], restA, [b], restB);
  }

  lemma StaleKindSplits(
      l: StaleLabels, a: Option<StaleDiscardProof>, restA: seq<Field>, b: Option<StaleDiscardProof>, restB: seq<Field>)
    requires l.absent != l.present && StaleFieldsAs(l, a) + restA == StaleFieldsAs(l, b) + restB
    ensures a.None? <==> b.None?
  {
    var all := StaleFieldsAs(l, a) + restA;
    assert all[0] == StaleFieldsAs(l, a)[0] && all[0] == StaleFieldsAs(l, b)[0];
  }

  lemma PresentSplit(
      l: StaleLabels, a: StaleDiscardProof, restA: seq<Field>, b: StaleDiscardProof, restB: seq<Field>)
    requires StaleFieldsAs(l, Some(a)) + restA == StaleFieldsAs(l, Some(b)) + restB
    ensures a == b && restA == restB
  {
    var first := Field(l.name, l.present);
    var pa := Counted(l.parameterCount, l.parameter, a.discardedParameters);
    var pb := Counted(l.parameterCount, l.parameter, b.discardedParameters);
    var sa, sb := Counted(l.siteCount, l.site, a.callerSites), Counted(l.siteCount, l.site, b.callerSites);
    Assoc([first], pa, sa, restA);
    Assoc([first], pb, sb, restB);
    SplitOne(first, pa + (sa + restA), first, pb + (sb + restB));
    CountedSplit(l.parameterCount, l.parameter, a.discardedParameters, sa + restA, b.discardedParameters, sb + restB);
    CountedSplit(l.siteCount, l.site, a.callerSites, restA, b.callerSites, restB);
  }

  lemma StaleSplitAs(
      l: StaleLabels, a: Option<StaleDiscardProof>, restA: seq<Field>, b: Option<StaleDiscardProof>, restB: seq<Field>)
    requires l.absent != l.present && StaleFieldsAs(l, a) + restA == StaleFieldsAs(l, b) + restB
    ensures a == b && restA == restB
  {
    StaleKindSplits(l, a, restA, b, restB);
    if a.Some? {
      PresentSplit(l, a.value, restA, b.value, restB);
    } else {
      SplitEqual(StaleFieldsAs(l, None), restA, StaleFieldsAs(l, None), restB);
    }
  }

  lemma StaleSplit(a: Option<StaleDiscardProof>, restA: seq<Field>, b: Option<StaleDiscardProof>, restB: seq<Field>)
    requires StaleFields(a) + restA == StaleFields(b) + restB
    ensures a == b && restA == restB
  {
    StaleSplitAs(StaleTexts(), a, restA, b, restB);
  }

  function BranchKind(branch: BranchProof): Text {
    match branch
    case Duplicated(_) => Ascii("duplicated")
    case RejectedNonExhaustive(_) => Ascii("rejected_non_exhaustive")
    case NoBranchProof => Ascii("absent")
  }

  lemma BranchSplit(a: BranchProof, restA: seq<Field>, b: BranchProof, restB: seq<Field>)
    requires BranchFields(a) + restA == BranchFields(b) + restB
    ensures a == b && restA == restB
  {
    var all := BranchFields(a) + restA;
    assert all[0].value == BranchKind(a) && all[0].value == BranchKind(b);
    assert |Ascii("duplicated")| == 10 && |Ascii("rejected_non_exhaustive")| == 23 && |Ascii("absent")| == 6;
    SplitEqual(BranchFields(a), restA, BranchFields(b), restB);
    if !a.NoBranchProof? {
      assert BranchFields(a)[1] == BranchFields(b)[1];
    }
  }

  lemma {:induction false} SortedTexts(a: seq<Text>, b: seq<Text>)
    ensures Sort(TextLeq, a) == Sort(TextLeq, b) <==> multiset(a) == multiset(b)
  {
    TextOrder();
    SortForgetsOrder(TextLeq, a, b);
  }

  lemma {:induction false} SortedReferences(a: seq<Reference>, b: seq<Reference>)
    ensures Sort(ReferenceLeq, a) == Sort(ReferenceLeq, b) <==> multiset(a) == multiset(b)
  {
    ReferenceOrder();
    SortForgetsOrder(ReferenceLeq, a, b);
  }

  lemma FromContextDetermines(a: ReviewJob, b: ReviewJob, role: Text -> Text)
    requires a.MethodJob? && b.MethodJob? && FromContext(a, role) == FromContext(b, role)
    ensures multiset(a.contextLines) == multiset(b.contextLines)
    ensures multiset(a.callees) == multiset(b.callees)
    ensures multiset(a.references) == multiset(b.references)
  {
    var la, lb := Sort(TextLeq, a.contextLines), Sort(TextLeq, b.contextLines);
    var ca, cb := Sort(ReferenceLeq, a.callees), Sort(ReferenceLeq, b.callees);
    var ra, rb := Sort(ReferenceLeq, a.references), Sort(ReferenceLeq, b.references);
    var endA, endB := [Field(Ascii("file_role"), role(a.filePath))], [Field(Ascii("file_role"), role(b.filePath))];
    var callee, reference := Ascii("callee"), Ascii("reference");
    var refsA, refsB := CountedReferences(reference, ra) + endA, CountedReferences(reference, rb) + endB;
    CountedSplit(Ascii("context_line_count"), Ascii("context_line"),
                 la, CountedReferences(callee, ca) + refsA, lb, CountedReferences(callee, cb) + refsB);
    ReferencesSplit(callee, ca, refsA, cb, refsB);
    ReferencesSplit(reference, ra, endA, rb, endB);
    SortedTexts(a.contextLines, b.contextLines);
    SortedReferences(a.callees, b.callees);
    SortedReferences(a.references, b.references);
  }

  lemma FromStaleDetermines(
      staleA: Option<StaleDiscardProof>, branchA: BranchProof, restA: seq<Field>,
      staleB: Option<StaleDiscardProof>, branchB: BranchProof, restB: seq<Field>)
    requires StaleFields(staleA) + (BranchFields(branchA) + restA) == StaleFields(staleB) + (BranchFields(branchB) + restB)
    ensures staleA == staleB && branchA == branchB && restA == restB
  {
    StaleSplit(staleA, BranchFields(branchA) + restA, staleB, BranchFields(branchB) + restB);
    BranchSplit(branchA, restA, branchB, restB);
  }

  lemma CountedFieldSplit(
      count: Text, name: Text, a: seq<Text>, nextA: Field, restA: seq<Field>, b: seq<Text>, nextB: Field, restB: seq<Field>)
    requires Counted(count, name, a) + ([nextA] + restA) == Counted(count, name, b) + ([nextB] + restB)
    ensures a == b && nextA == nextB && restA == restB
  {
    CountedSplit(count, name, a, [nextA] + restA, b, [nextB] + restB);
    SplitOne(nextA, restA, nextB, restB);
  }

  lemma FromBoundariesDetermines(a: ReviewJob, b: ReviewJob, role: Text -> Text)
    requires a.MethodJob? && b.MethodJob? && FromBoundaries(a, role) == FromBoundaries(b, role)
    ensures multiset(a.boundaries) == multiset(b.boundaries)
    ensures a.privateUnused == b.privateUnused && a.stale == b.stale && a.branch == b.branch
    ensures FromContext(a, role) == FromContext(b, role)
  {
    CountedFieldSplit(
      Ascii("boundary_count"), Ascii("boundary"),
      Sort(TextLeq, a.boundaries), PrivateField(a), StaleFields(a.stale) + (BranchFields(a.branch) + FromContext(a, role)),
      Sort(TextLeq, b.boundaries), PrivateField(b), StaleFields(b.stale) + (BranchFields(b.branch) + FromContext(b, role)));
    FromStaleDetermines(a.stale, a.branch, FromContext(a, role), b.stale, b.branch, FromContext(b, role));
    SortedTexts(a.boundaries, b.boundaries);
  }

  lemma HeadDetermines(a: ReviewJob, b: ReviewJob)
    requires a.MethodJob? && b.MethodJob? && Head(a) == Head(b)
    ensures a.filePath == b.filePath && a.methodName == b.methodName && a.source == b.source
    ensures a.startLine == b.startLine && a.endLine == b.endLine
  {
    var ha, hb := Head(a), Head(b);
    assert ha[1] == hb[1] && ha[2] == hb[2] && ha[3] == hb[3] && ha[4] == hb[4] && ha[5] == hb[5];
    DecimalIsInjective(a.startLine, b.startLine);
    DecimalIsInjective(a.endLine, b.endLine);
  }

  lemma AfterHeadDetermines(a: ReviewJob, b: ReviewJob, role: Text -> Text)
    requires a.MethodJob? && b.MethodJob? && AfterHead(a, role) == AfterHead(b, role)
    ensures multiset(a.signals) == multiset(b.signals) && a.fullFile == b.fullFile
    ensures FromBoundaries(a, role) == FromBoundaries(b, role)
  {
    CountedFieldSplit(Ascii("signal_count"), Ascii("signal"),
                    Sort(TextLeq, a.signals), FullFileField(a), FromBoundaries(a, role),
                    Sort(TextLeq, b.signals), FullFileField(b), FromBoundaries(b, role));
    SortedTexts(a.signals, b.signals);
  }

  lemma HeadSplits(a: ReviewJob, b: ReviewJob, role: Text -> Text)
    requires a.MethodJob? && b.MethodJob? && Fields(a, role) == Fields(b, role)
    ensures Head(a) == Head(b) && AfterHead(a, role) == AfterHead(b, role)
  {
    SplitEqual(Head(a), AfterHead(a, role), Head(b), AfterHead(b, role));
  }

  lemma MethodFieldsDetermine(a: ReviewJob, b: ReviewJob, role: Text -> Text)
    requires a.MethodJob? && b.MethodJob? && Fields(a, role) == Fields(b, role)
    ensures SameReview(a, b)
  {
    HeadSplits(a, b, role);
    HeadDetermines(a, b);
    AfterHeadDetermines(a, b, role);
    FromBoundariesDetermines(a, b, role);
    FromContextDetermines(a, b, role);
  }

  lemma FileFieldsDetermine(a: ReviewJob, b: ReviewJob, role: Text -> Text)
    requires a.FileJob? && b.FileJob? && Fields(a, role) == Fields(b, role)
    ensures SameReview(a, b)
  {
    var headA, headB := FileHead(a), FileHead(b);
    var sa, sb := Sort(TextLeq, a.signals), Sort(TextLeq, b.signals);
    var endA, endB := [Field(Ascii("file_role"), role(a.filePath))], [Field(Ascii("file_role"), role(b.filePath))];
    SplitEqual(headA, Counted(Ascii("signal_count"), Ascii("signal"), sa) + endA,
               headB, Counted(Ascii("signal_count"), Ascii("signal"), sb) + endB);
    assert headA[1] == headB[1] && headA[2] == headB[2];
    CountedSplit(Ascii("signal_count"), Ascii("signal"), sa, endA, sb, endB);
    SortedTexts(a.signals, b.signals);
  }

  lemma FirstField(job: ReviewJob, role: Text -> Text)
    ensures Fields(job, role) != []
    ensures Fields(job, role)[0].value == if job.MethodJob? then Ascii("method") else Ascii("file")
  {
  }

  lemma KindsDiffer(a: ReviewJob, b: ReviewJob, role: Text -> Text)
    requires a.MethodJob? && b.FileJob?
    ensures Fields(a, role) != Fields(b, role)
  {
    FirstField(a, role);
    FirstField(b, role);
    assert |Ascii("method")| == 6 && |Ascii("file")| == 4;
  }

  lemma SameReviewSameFields(a: ReviewJob, b: ReviewJob, role: Text -> Text)
    requires SameReview(a, b)
    ensures Fields(a, role) == Fields(b, role)
  {
    SortedTexts(a.signals, b.signals);
    if a.MethodJob? {
      SortedTexts(a.boundaries, b.boundaries);
      SortedTexts(a.contextLines, b.contextLines);
      SortedReferences(a.callees, b.callees);
      SortedReferences(a.references, b.references);
    }
  }

  /** Two jobs share an identity text, and so with an injective hash a journal unit id,
      exactly when they are the same review: reordering signals, boundaries, context lines,
      callees or references, or moving in the scan, changes nothing, and nothing else collides. */
  lemma IdentityIsTheReview(a: ReviewJob, b: ReviewJob, role: Text -> Text)
    ensures EncodeFields(Fields(a, role)) == EncodeFields(Fields(b, role)) <==> SameReview(a, b)
  {
    EncodingIsInjective(Fields(a, role), Fields(b, role));
    if SameReview(a, b) {
      SameReviewSameFields(a, b, role);
    } else if a.MethodJob? && b.FileJob? {
      KindsDiffer(a, b, role);
    } else if a.FileJob? && b.MethodJob? {
      KindsDiffer(b, a, role);
    } else if Fields(a, role) == Fields(b, role) {
      if a.MethodJob? {
        MethodFieldsDetermine(a, b, role);
      } else {
        FileFieldsDetermine(a, b, role);
      }
    }
  }
}
