/** Classifying a unified diff by language and net size
    (`classify_historical_v2_patch`, `diff_path` and `language_for_path` in
    src/benchmark_history_v2_frame.rs). */
module PatchFrame {
  import opened Wrappers
  import opened Text

  datatype Exclusion =
    | MalformedPatch
    | NoSupportedLanguage
    | MultipleSupportedLanguages
    | NoSupportedLanguageHunks
    | NoNetSupportedLanguageReduction

  datatype PatchFacts = PatchFacts(
    language: string, changedPaths: seq<string>, addedNonWhitespaceLines: nat, deletedNonWhitespaceLines: nat)

  // ---------------------------------------------------------------------
  // Strings
  // ---------------------------------------------------------------------

  predicate StartsWith(s: string, prefix: string) {
    |prefix| <= |s| && s[..|prefix|] == prefix
  }

  function SplitOn(s: string, c: char): (parts: seq<string>)
    ensures parts != []
  {
    if s == [] then [[]]
    else
      var rest := SplitOn(s[1..], c);
      if s[0] == c then [[]] + rest else [[s[0]] + rest[0]] + rest[1..]
  }

  function ReplaceChar(s: string, c: char, d: char): string {
    seq(|s|, i requires 0 <= i < |s| => if s[i] == c then d else s[i])
  }

  /** The text after the last `c`, if there is one. */
  function AfterLast(s: string, c: char): Option<string> {
    if s == [] then None
    else if s[|s| - 1] == c then Some([])
    else
      match AfterLast(s[..|s| - 1], c)
      case None => None
      case Some(tail) => Some(tail + [s[|s| - 1]])
  }

  /** The order of strings that `BTreeSet<String>` keeps. */
  predicate StringLess(a: string, b: string) {
    if b == [] then false
    else if a == [] then true
    else if a[0] != b[0] then a[0] < b[0]
    else StringLess(a[1..], b[1..])
  }

  /** `BTreeSet::insert` on the ascending list of elements. */
  function Insert(elements: seq<string>, x: string): seq<string> {
    if elements == [] then [x]
    else if elements[0] == x then elements
    else if StringLess(x, elements[0]) then [x] + elements
    else [elements[0]] + Insert(elements[1..], x)
  }

  ghost predicate Ascending(elements: seq<string>) {
    forall i, j :: 0 <= i < j < |elements| ==> StringLess(elements[i], elements[j])
  }

  lemma {:induction false} LessIsTransitive(a: string, b: string, c: string)
    requires StringLess(a, b) && StringLess(b, c)
    ensures StringLess(a, c)
  {
    if a != [] && a[0] == b[0] && b[0] == c[0] {
      LessIsTransitive(a[1..], b[1..], c[1..]);
    }
  }

  lemma {:induction false} LessIsTotal(a: string, b: string)
    ensures a == b || StringLess(a, b) || StringLess(b, a)
    ensures !StringLess(a, a)
  {
    if a != [] && b != [] && a[0] == b[0] {
      LessIsTotal(a[1..], b[1..]);
      assert a == [a[0]] + a[1..] && b == [b[0]] + b[1..];
    }
    if a != [] {
      LessIsTotal(a[1..], a[1..]);
    }
  }

  lemma {:induction false} InsertAscends(elements: seq<string>, x: string)
    requires Ascending(elements)
    ensures Ascending(Insert(elements, x))
    ensures forall y :: y in Insert(elements, x) <==> y == x || y in elements
  {
    if elements != [] && elements[0] != x {
      var first, others := elements[0], elements[1..];
      LessIsTotal(x, first);
      if StringLess(x, first) {
        forall j | 0 <= j < |elements| ensures StringLess(x, elements[j]) {
          if j > 0 {
            LessIsTransitive(x, first, elements[j]);
          }
        }
      } else {
        InsertAscends(others, x);
        var rest := Insert(others, x);
        forall j | 0 <= j < |rest| ensures StringLess(first, rest[j]) {
          assert rest[j] in rest;
        }
      }
    }
  }

  // ---------------------------------------------------------------------
  // Paths and languages
  // ---------------------------------------------------------------------

  /** `diff_path`: the path of a header line; None for the null device. */
  function DiffPath(value: string): Result<Option<string>, Exclusion> {
    var trimmed := Trim(value);
    if trimmed == "/dev/null" then Success(None)
    else if StartsWith(trimmed, "\"") || '\t' in trimmed then Failure(MalformedPatch)
    else
      var path := if StartsWith(trimmed, "a/") || StartsWith(trimmed, "b/") then trimmed[2..] else trimmed;
      if path == [] || path[0] == '/' || ".." in SplitOn(path, '/') then Failure(MalformedPatch)
      else Success(Some(ReplaceChar(path, '\\', '/')))
  }

  function LanguageOf(extension: string): Option<string> {
    if extension == "go" then Some("go")
    else if extension in ["js", "jsx", "mjs", "cjs"] then Some("javascript")
    else if extension in ["kt", "kts"] then Some("kotlin")
    else if extension in ["py", "pyi"] then Some("python")
    else if extension == "rs" then Some("rust")
    else if extension in ["ts", "tsx", "mts", "cts"] then Some("typescript")
    else None
  }

  function LanguageForPath(path: string): Option<string> {
    match AfterLast(AsciiLower(path), '.')
    case None => None
    case Some(extension) => LanguageOf(extension)
  }

  lemma {:induction false} AfterLastCuts(s: string, c: char, tail: string) returns (stem: string)
    requires AfterLast(s, c) == Some(tail)
    ensures s == stem + [c] + tail && c !in tail
  {
    var n := |s| - 1;
    assert s == s[..n] + [s[n]];
    if s[n] == c {
      stem := s[..n];
      assert s == stem + [c] + [];
    } else {
      var shorter := AfterLast(s[..n], c).value;
      stem := AfterLastCuts(s[..n], c, shorter);
      assert tail == shorter + [s[n]];
      assert s == stem + [c] + shorter + [s[n]] == stem + [c] + tail;
    }
  }

  lemma {:induction false} AfterLastFinds(stem: string, c: char, tail: string)
    requires c !in tail
    ensures AfterLast(stem + [c] + tail, c) == Some(tail)
    decreases |tail|
  {
    var s := stem + [c] + tail;
    var n := |s| - 1;
    if tail == [] {
      assert s[n] == c;
    } else {
      var shorter, last := tail[..|tail| - 1], tail[|tail| - 1];
      AfterLastFinds(stem, c, shorter);
      assert last in tail && tail == shorter + [last];
      assert s[..n] == stem + [c] + shorter && s[n] == last;
    }
  }

  /** The file name extensions of each language, in lower case. */
  ghost predicate Writes(language: string, extension: string) {
    || (language == "go" && extension == "go")
    || (language == "javascript" && extension in {"js", "jsx", "mjs", "cjs"})
    || (language == "kotlin" && extension in {"kt", "kts"})
    || (language == "python" && extension in {"py", "pyi"})
    || (language == "rust" && extension == "rs")
    || (language == "typescript" && extension in {"ts", "tsx", "mts", "cts"})
  }

  lemma {:induction false} LanguageOfIs(extension: string, language: string)
    ensures LanguageOf(extension) == Some(language) <==> Writes(language, extension)
  {
  }

  lemma LowerSplits(stem: string, extension: string)
    ensures AsciiLower(stem + "." + extension) == AsciiLower(stem) + "." + AsciiLower(extension)
    ensures '.' in extension <==> '.' in AsciiLower(extension)
  {
    AsciiLowerConcat(stem + ".", extension);
    AsciiLowerConcat(stem, ".");
    forall i | 0 <= i < |extension| ensures extension[i] == '.' <==> AsciiLower(extension)[i] == '.' {
    }
  }

  /** Cutting the lower-case path cuts the path itself at the same dot. */
  lemma CutPath(path: string, front: string, tail: string) returns (stem: string, extension: string)
    requires AsciiLower(path) == front + "." + tail && '.' !in tail
    ensures path == stem + "." + extension && '.' !in extension && AsciiLower(extension) == tail
  {
    stem, extension := path[..|front|], path[|front| + 1..];
    assert AsciiLower(path)[|front|] == '.';
    assert path[|front|] == '.' && path == stem + "." + extension;
    LowerSplits(stem, extension);
    assert AsciiLower(path)[|front| + 1..] == tail == AsciiLower(extension);
  }

  /** A path is in a language exactly when it ends in a dot and one of its extensions, in
      capitals or not. */
  lemma LanguagesAreByExtension(path: string, language: string)
    ensures LanguageForPath(path) == Some(language)
       <==> exists stem: string, extension: string ::
              path == stem + "." + extension && '.' !in extension && Writes(language, AsciiLower(extension))
  {
    if LanguageForPath(path) == Some(language) {
      var tail := AfterLast(AsciiLower(path), '.').value;
      var front := AfterLastCuts(AsciiLower(path), '.', tail);
      var stem, extension := CutPath(path, front, tail);
      LanguageOfIs(AsciiLower(extension), language);
    }
    if stem: string, extension: string :|
      path == stem + "." + extension && '.' !in extension && Writes(language, AsciiLower(extension))
    {
      LowerSplits(stem, extension);
      AfterLastFinds(AsciiLower(stem), '.', AsciiLower(extension));
      LanguageOfIs(AsciiLower(extension), language);
    }
  }

  // ---------------------------------------------------------------------
  // The classifier as a fold over lines
  // ---------------------------------------------------------------------

  datatype Totals = Totals(paths: seq<string>, languages: seq<string>, sawHunk: bool, added: nat, deleted: nat)

  datatype State = State(
    totals: Totals, oldPath: Option<string>, newPath: Option<string>, activeLanguage: Option<string>, inHunk: bool)

  const NOTHING := Totals([], [], false, 0, 0)

  predicate IsHunkHeader(line: string) {
    StartsWith(line, "@@ ") || line == "@@"
  }

  /** Entering a hunk of a file of this path. */
  function EnterHunk(t: Totals, path: string): Totals {
    match LanguageForPath(path)
    case None => t.(sawHunk := true)
    case Some(language) =>
      t.(paths := Insert(t.paths, path), languages := Insert(t.languages, language), sawHunk := true)
  }

  predicate CountsAs(line: string, sign: char) {
    line != [] && line[0] == sign && !IsBlank(line[1..])
  }

  function CountLine(t: Totals, line: string): Totals {
    if CountsAs(line, '+') then t.(added := t.added + 1)
    else if CountsAs(line, '-') then t.(deleted := t.deleted + 1)
    else t
  }

  function LineStep(s: State, line: string): Result<State, Exclusion> {
    if StartsWith(line, "diff --git ") then Success(State(s.totals, None, None, None, false))
    else if !s.inHunk && StartsWith(line, "--- ") then
      var path :- DiffPath(line[4..]);
      Success(s.(oldPath := path))
    else if !s.inHunk && StartsWith(line, "+++ ") then
      var path :- DiffPath(line[4..]);
      Success(s.(newPath := path))
    else if IsHunkHeader(line) then
      if s.newPath.None? && s.oldPath.None? then Failure(MalformedPatch)
      else
        var path := if s.newPath.Some? then s.newPath.value else s.oldPath.value;
        Success(s.(totals := EnterHunk(s.totals, path), activeLanguage := LanguageForPath(path), inHunk := true))
    else if s.activeLanguage.None? then Success(s)
    else Success(s.(totals := CountLine(s.totals, line)))
  }

  function Fold(s: State, lines: seq<string>): Result<State, Exclusion>
    decreases |lines|
  {
    if lines == [] then Success(s)
    else
      var t :- LineStep(s, lines[0]);
      Fold(t, lines[1..])
  }

  function Conclude(t: Totals): Result<PatchFacts, Exclusion> {
    if !t.sawHunk then Failure(MalformedPatch)
    else if t.languages == [] then Failure(NoSupportedLanguage)
    else if |t.languages| != 1 then Failure(MultipleSupportedLanguages)
    else if t.added == 0 && t.deleted == 0 then Failure(NoSupportedLanguageHunks)
    else if t.deleted <= t.added then Failure(NoNetSupportedLanguageReduction)
    else Success(PatchFacts(t.languages[0], t.paths, t.added, t.deleted))
  }

  const START := State(NOTHING, None, None, None, false)

  function ClassifyLines(lines: seq<string>): Result<PatchFacts, Exclusion> {
    var final :- Fold(START, lines);
    Conclude(final.totals)
  }

  /** `classify_historical_v2_patch`, the line loop. */
  method ClassifyPatch(patch: string) returns (result: Result<PatchFacts, Exclusion>)
    ensures result == ClassifyLines(Lines(patch))
  {
    var paths: seq<string>, languages: seq<string> := [], [];
    var oldPath: Option<string>, newPath: Option<string>, activeLanguage: Option<string> := None, None, None;
    var inHunk, sawHunk := false, false;
    var added: nat, deleted: nat := 0, 0;
    var lines := Lines(patch);
    for n := 0 to |lines|
      invariant Fold(State(Totals(paths, languages, sawHunk, added, deleted), oldPath, newPath, activeLanguage, inHunk),
                     lines[n..]) == Fold(START, lines)
    {
      var line := lines[n];
      assert lines[n..][1..] == lines[n + 1..];
      if StartsWith(line, "diff --git ") {
        oldPath, newPath, activeLanguage, inHunk := None, None, None, false;
        continue;
      }
      if !inHunk {
        if StartsWith(line, "--- ") {
          var path := DiffPath(line[4..]);
          if path.Failure? {
            return Failure(path.error);
          }
          oldPath := path.value;
          continue;
        }
        if StartsWith(line, "+++ ") {
          var path := DiffPath(line[4..]);
          if path.Failure? {
            return Failure(path.error);
          }
          newPath := path.value;
          continue;
        }
      }
      if IsHunkHeader(line) {
        if newPath.None? && oldPath.None? {
          return Failure(MalformedPatch);
        }
        var path := if newPath.Some? then newPath.value else oldPath.value;
        activeLanguage := LanguageForPath(path);
        if activeLanguage.Some? {
          paths := Insert(paths, path);
          languages := Insert(languages, activeLanguage.value);
        }
        inHunk, sawHunk := true, true;
        continue;
      }
      if activeLanguage.None? {
        continue;
      }
      if CountsAs(line, '+') {
        added := added + 1;
      } else if CountsAs(line, '-') {
        deleted := deleted + 1;
      }
    }
    result := Conclude(Totals(paths, languages, sawHunk, added, deleted));
  }

  // ---------------------------------------------------------------------
  // What an accepted patch is
  // ---------------------------------------------------------------------

  ghost predicate Coherent(t: Totals) {
    && Ascending(t.paths) && Ascending(t.languages)
    && (forall p :: p in t.paths ==> LanguageForPath(p).Some? && LanguageForPath(p).value in t.languages)
    && (forall l :: l in t.languages ==> exists p :: p in t.paths && LanguageForPath(p) == Some(l))
  }

  lemma EnterHunkKeepsCoherent(t: Totals, path: string)
    requires Coherent(t)
    ensures Coherent(EnterHunk(t, path))
  {
    if LanguageForPath(path).Some? {
      InsertAscends(t.paths, path);
      InsertAscends(t.languages, LanguageForPath(path).value);
    }
  }

  lemma {:induction false} FoldKeepsCoherent(s: State, lines: seq<string>)
    requires Coherent(s.totals)
    ensures Fold(s, lines).Success? ==> Coherent(Fold(s, lines).value.totals)
    decreases |lines|
  {
    if lines != [] {
      var step := LineStep(s, lines[0]);
      if step.Success? {
        if s.newPath.Some? {
          EnterHunkKeepsCoherent(s.totals, s.newPath.value);
        } else if s.oldPath.Some? {
          EnterHunkKeepsCoherent(s.totals, s.oldPath.value);
        }
        FoldKeepsCoherent(step.value, lines[1..]);
      }
    }
  }

  /** An accepted patch touches supported files of exactly one language, lists their paths
      in ascending order without duplicates, and deletes more than it adds. */
  lemma AcceptedPatchesShrinkOneLanguage(patch: string)
    requires ClassifyLines(Lines(patch)).Success?
    ensures var facts := ClassifyLines(Lines(patch)).value;
            && facts.deletedNonWhitespaceLines > facts.addedNonWhitespaceLines
            && facts.changedPaths != [] && Ascending(facts.changedPaths)
            && forall p :: p in facts.changedPaths ==> LanguageForPath(p) == Some(facts.language)
  {
    FoldKeepsCoherent(START, Lines(patch));
    var t := Fold(START, Lines(patch)).value.totals;
    assert t.languages[0] in t.languages;
    forall p | p in t.paths ensures LanguageForPath(p) == Some(t.languages[0]) {
      assert LanguageForPath(p).value in t.languages;
    }
  }

  // ---------------------------------------------------------------------
  // Structured git diffs
  // ---------------------------------------------------------------------

  datatype BodyLine =
    | Context(text: string)
    | Added(text: string)
    | Deleted(text: string)
    | NoNewlineMarker(text: string)
    | Empty

  datatype Hunk = Hunk(header: string, body: seq<BodyLine>)

  /** git ends a name with a tab when it contains a space; `tab` says whether it did. A name
      with a control character, a quotation mark or a backslash, and by default one with a
      character outside ASCII, is quoted. */
  datatype Side = DevNull | Named(path: string, tab: bool) | Quoted(path: string)

  /** One file of a git diff: the command line's rest, extended header lines, and for text
      changes the two sides and the hunks. */
  datatype FileDiff = FileDiff(command: string, extended: seq<string>, sides: Option<(Side, Side)>, hunks: seq<Hunk>)

  function BodyText(b: BodyLine): string {
    match b
    case Context(text) => " " + text
    case Added(text) => "+" + text
    case Deleted(text) => "-" + text
    case NoNewlineMarker(text) => "\\" + text
    case Empty => ""
  }

  function Octal(b: nat): (digits: string)
    requires b < 256
    ensures '\n' !in digits
  {
    ['\\', (48 + b / 64) as char, (48 + b / 8 % 8) as char, (48 + b % 8) as char]
  }

  /** The bytes of a character beyond ASCII in UTF-8, each spelled in octal. */
  function OctalUtf8(n: nat): (digits: string)
    requires 0x80 <= n < 0x11_0000
    ensures '\n' !in digits
  {
    if n < 0x800 then Octal(0xC0 + n / 64) + Octal(0x80 + n % 64)
    else if n < 0x1_0000 then Octal(0xE0 + n / 4096) + Octal(0x80 + n / 64 % 64) + Octal(0x80 + n % 64)
    else Octal(0xF0 + n / 262144) + Octal(0x80 + n / 4096 % 64) + Octal(0x80 + n / 64 % 64) + Octal(0x80 + n % 64)
  }

  /** How git spells one character of a quoted name. */
  function QuotedChar(c: char): (spelled: string)
    ensures '\n' !in spelled
  {
    var n := c as int;
    if c == '\"' || c == '\\' then ['\\', c]
    else if 7 <= n <= 13 then ['\\', "abtnvfr"[n - 7]]
    else if n < 32 || n == 127 then Octal(n)
    else if n < 0x80 then [c]
    else OctalUtf8(n)
  }

  function QuotedName(path: string): string {
    if path == [] then [] else QuotedChar(path[0]) + QuotedName(path[1..])
  }

  function SideText(prefix: string, side: Side): string {
    match side
    case DevNull => "/dev/null"
    case Named(path, tab) => prefix + path + if tab then "\t" else ""
    case Quoted(path) => "\"" + prefix + QuotedName(path) + "\""
  }

  function BodyTexts(body: seq<BodyLine>): seq<string> {
    if body == [] then [] else [BodyText(body[0])] + BodyTexts(body[1..])
  }

  function HunkTexts(hunks: seq<Hunk>): seq<string> {
    if hunks == [] then []
    else ["@@ " + hunks[0].header] + BodyTexts(hunks[0].body) + HunkTexts(hunks[1..])
  }

  function SideTexts(sides: Option<(Side, Side)>): seq<string> {
    match sides
    case None => []
    case Some((before, after)) => ["--- " + SideText("a/", before), "+++ " + SideText("b/", after)]
  }

  function FileTexts(f: FileDiff): seq<string> {
    ["diff --git " + f.command] + f.extended + SideTexts(f.sides) + HunkTexts(f.hunks)
  }

  function DiffTexts(files: seq<FileDiff>): seq<string> {
    if files == [] then [] else FileTexts(files[0]) + DiffTexts(files[1..])
  }

  /** The patch text: every line ended by a newline. */
  function Render(texts: seq<string>): string {
    if texts == [] then [] else texts[0] + "\n" + Render(texts[1..])
  }

  /** A repository path. */
  predicate PathOk(path: string) {
    path != [] && path[0] != '/' && ".." !in SplitOn(path, '/')
  }

  predicate SideOk(side: Side) {
    && (!side.DevNull? ==> PathOk(side.path))
    && (side.Named? ==> '\t' !in side.path && '\n' !in side.path && '\r' !in side.path)
  }

  predicate ExtendedOk(line: string) {
    && '\n' !in line && !(line != [] && line[|line| - 1] == '\r')
    && !StartsWith(line, "diff --git ") && !StartsWith(line, "--- ") && !StartsWith(line, "+++ ")
    && !IsHunkHeader(line)
  }

  predicate BodyOk(b: BodyLine) {
    b.Empty? || '\n' !in b.text
  }

  predicate HunkOk(h: Hunk) {
    '\n' !in h.header && forall i :: 0 <= i < |h.body| ==> BodyOk(h.body[i])
  }

  predicate FileOk(f: FileDiff) {
    && '\n' !in f.command
    && (forall i :: 0 <= i < |f.extended| ==> ExtendedOk(f.extended[i]))
    && (forall i :: 0 <= i < |f.hunks| ==> HunkOk(f.hunks[i]))
    && (f.sides.Some? ==> SideOk(f.sides.value.0) && SideOk(f.sides.value.1))
    && (f.hunks != [] ==> f.sides.Some? && !(f.sides.value.0.DevNull? && f.sides.value.1.DevNull?))
  }

  predicate DiffOk(files: seq<FileDiff>) {
    forall i :: 0 <= i < |files| ==> FileOk(files[i])
  }

  // ---------------------------------------------------------------------
  // The structure's own totals
  // ---------------------------------------------------------------------

  function SidePath(side: Side): Option<string> {
    if side.DevNull? then None else Some(ReplaceChar(side.path, '\\', '/'))
  }

  /** The file's path after the change, or before it when the file is removed. */
  function FilePath(f: FileDiff): Option<string> {
    match f.sides
    case None => None
    case Some((before, after)) => SidePath(if after.DevNull? then before else after)
  }

  function CountBody(t: Totals, body: seq<BodyLine>): Totals
    decreases |body|
  {
    if body == [] then t
    else
      var next := match body[0]
        case Added(text) => if IsBlank(text) then t else t.(added := t.added + 1)
        case Deleted(text) => if IsBlank(text) then t else t.(deleted := t.deleted + 1)
        case _ => t;
      CountBody(next, body[1..])
  }

  function CountHunks(t: Totals, path: string, hunks: seq<Hunk>): Totals
    decreases |hunks|
  {
    if hunks == [] then t
    else
      var entered := EnterHunk(t, path);
      var counted := if LanguageForPath(path).Some? then CountBody(entered, hunks[0].body) else entered;
      CountHunks(counted, path, hunks[1..])
  }

  function CountFile(t: Totals, f: FileDiff): Totals {
    match FilePath(f)
    case Some(path) => CountHunks(t, path, f.hunks)
    case None => t
  }

  function CountFiles(t: Totals, files: seq<FileDiff>): Totals
    decreases |files|
  {
    if files == [] then t else CountFiles(CountFile(t, files[0]), files[1..])
  }

  // ---------------------------------------------------------------------
  // What a diff says, without the classifier
  // ---------------------------------------------------------------------

  predicate HasHunks(f: FileDiff) {
    f.hunks != [] && FilePath(f).Some?
  }

  /** A file with hunks in this language. */
  predicate ChangesLanguage(f: FileDiff, language: string) {
    HasHunks(f) && LanguageForPath(FilePath(f).value) == Some(language)
  }

  predicate Supported(f: FileDiff) {
    HasHunks(f) && LanguageForPath(FilePath(f).value).Some?
  }

  ghost predicate SomeFile(files: seq<FileDiff>, holds: FileDiff -> bool) {
    exists i :: 0 <= i < |files| && holds(files[i])
  }

  function Bodies(hunks: seq<Hunk>): seq<BodyLine> {
    if hunks == [] then [] else hunks[0].body + Bodies(hunks[1..])
  }

  /** The body lines of all files of a supported language. */
  function SupportedLines(files: seq<FileDiff>): seq<BodyLine> {
    if files == [] then []
    else
      var f := files[|files| - 1];
      SupportedLines(files[..|files| - 1]) + if Supported(f) then Bodies(f.hunks) else []
  }

  predicate AddsText(b: BodyLine) {
    b.Added? && !IsBlank(b.text)
  }

  predicate DeletesText(b: BodyLine) {
    b.Deleted? && !IsBlank(b.text)
  }

  function CountIf(holds: BodyLine -> bool, lines: seq<BodyLine>): nat {
    if lines == [] then 0 else (if holds(lines[0]) then 1 else 0) + CountIf(holds, lines[1..])
  }

  function AddedIn(files: seq<FileDiff>): nat {
    CountIf(AddsText, SupportedLines(files))
  }

  function DeletedIn(files: seq<FileDiff>): nat {
    CountIf(DeletesText, SupportedLines(files))
  }

  /** The sorted list of the paths of the supported files. */
  ghost predicate ListsPaths(files: seq<FileDiff>, paths: seq<string>) {
    && Ascending(paths)
    && forall p :: p in paths <==> SomeFile(files, f => Supported(f) && FilePath(f) == Some(p))
  }

  ghost predicate Uses(files: seq<FileDiff>, language: string) {
    SomeFile(files, f => ChangesLanguage(f, language))
  }

  ghost predicate UsesOnly(files: seq<FileDiff>, language: string) {
    Uses(files, language) && forall other :: Uses(files, other) ==> other == language
  }

  /** The result a diff deserves: its facts when it changes files of one supported language
      and deletes more visible lines than it adds, and otherwise why it is excluded. */
  ghost predicate Deserves(files: seq<FileDiff>, result: Result<PatchFacts, Exclusion>) {
    var added, deleted := AddedIn(files), DeletedIn(files);
    match result
    case Success(facts) =>
      && UsesOnly(files, facts.language) && ListsPaths(files, facts.changedPaths)
      && facts.addedNonWhitespaceLines == added && facts.deletedNonWhitespaceLines == deleted
      && deleted > added
    case Failure(MalformedPatch) => !SomeFile(files, HasHunks)
    case Failure(NoSupportedLanguage) => SomeFile(files, HasHunks) && forall l :: !Uses(files, l)
    case Failure(MultipleSupportedLanguages) => exists l, m :: l != m && Uses(files, l) && Uses(files, m)
    case Failure(NoSupportedLanguageHunks) => (exists l :: UsesOnly(files, l)) && added == 0 && deleted == 0
    case Failure(NoNetSupportedLanguageReduction) =>
      (exists l :: UsesOnly(files, l)) && deleted <= added && added > 0
  }

  lemma {:induction false} AscendingIsUnique(a: seq<string>, b: seq<string>)
    requires Ascending(a) && Ascending(b) && forall x :: x in a <==> x in b
    ensures a == b
    decreases |a|
  {
    if b != [] {
      assert b[0] in b;
    }
    if a != [] {
      assert a[0] in b && b[0] in a;
      LeastFirst(a, b[0]);
      LeastFirst(b, a[0]);
      forall x ensures x in a[1..] <==> x in b[1..] {
        RestWithoutFirst(a, x);
        RestWithoutFirst(b, x);
      }
      AscendingIsUnique(a[1..], b[1..]);
    }
  }

  lemma {:induction false} LeastFirst(a: seq<string>, x: string)
    requires Ascending(a) && x in a
    ensures a[0] == x || (StringLess(a[0], x) && !StringLess(x, a[0]))
  {
    if a[0] != x && StringLess(x, a[0]) {
      LessIsTransitive(x, a[0], x);
      LessIsTotal(x, x);
    }
  }

  lemma RestWithoutFirst(a: seq<string>, x: string)
    requires Ascending(a) && a != []
    ensures x in a[1..] <==> x in a && x != a[0]
  {
    LessIsTotal(a[0], a[0]);
    assert a == [a[0]] + a[1..];
  }

  lemma UsedHasHunks(files: seq<FileDiff>, language: string)
    requires Uses(files, language)
    ensures SomeFile(files, HasHunks)
  {
    var i :| 0 <= i < |files| && ChangesLanguage(files[i], language);
    assert HasHunks(files[i]);
  }

  /** A diff deserves one result only. */
  lemma DeservedIsUnique(files: seq<FileDiff>, a: Result<PatchFacts, Exclusion>, b: Result<PatchFacts, Exclusion>)
    requires Deserves(files, a) && Deserves(files, b)
    ensures a == b
  {
    if a.Success? && b.Success? {
      AscendingIsUnique(a.value.changedPaths, b.value.changedPaths);
    }
    forall l | Uses(files, l) ensures SomeFile(files, HasHunks) {
      UsedHasHunks(files, l);
    }
  }

  lemma {:induction false} CountIfConcat(holds: BodyLine -> bool, a: seq<BodyLine>, b: seq<BodyLine>)
    ensures CountIf(holds, a + b) == CountIf(holds, a) + CountIf(holds, b)
  {
    if a == [] {
      assert a + b == b;
    } else {
      assert (a + b)[1..] == a[1..] + b;
      CountIfConcat(holds, a[1..], b);
    }
  }

  lemma {:induction false} BodyIsCounted(t: Totals, body: seq<BodyLine>)
    ensures CountBody(t, body)
         == t.(added := t.added + CountIf(AddsText, body), deleted := t.deleted + CountIf(DeletesText, body))
    decreases |body|
  {
    if body != [] {
      var next := match body[0]
        case Added(text) => if IsBlank(text) then t else t.(added := t.added + 1)
        case Deleted(text) => if IsBlank(text) then t else t.(deleted := t.deleted + 1)
        case _ => t;
      BodyIsCounted(next, body[1..]);
    }
  }

  /** What the hunks of one file add to the totals. */
  lemma {:induction false} HunksAreCounted(t: Totals, path: string, hunks: seq<Hunk>)
    requires Ascending(t.paths) && Ascending(t.languages) && hunks != []
    ensures var u := CountHunks(t, path, hunks);
            && u.sawHunk && Ascending(u.paths) && Ascending(u.languages)
            && (forall p :: p in u.paths <==> p in t.paths || (LanguageForPath(path).Some? && p == path))
            && (forall l :: l in u.languages <==> l in t.languages || LanguageForPath(path) == Some(l))
            && u.added == t.added + (if LanguageForPath(path).Some? then CountIf(AddsText, Bodies(hunks)) else 0)
            && u.deleted == t.deleted + (if LanguageForPath(path).Some? then CountIf(DeletesText, Bodies(hunks)) else 0)
    decreases |hunks|
  {
    var entered := EnterHunk(t, path);
    InsertAscends(t.paths, path);
    if LanguageForPath(path).Some? {
      InsertAscends(t.languages, LanguageForPath(path).value);
    }
    BodyIsCounted(entered, hunks[0].body);
    var counted := if LanguageForPath(path).Some? then CountBody(entered, hunks[0].body) else entered;
    CountIfConcat(AddsText, hunks[0].body, Bodies(hunks[1..]));
    CountIfConcat(DeletesText, hunks[0].body, Bodies(hunks[1..]));
    if hunks[1..] == [] {
      assert Bodies(hunks[1..]) == [];
    } else {
      HunksAreCounted(counted, path, hunks[1..]);
    }
  }

  /** The totals of a diff in its own terms. */
  ghost predicate Describes(t: Totals, files: seq<FileDiff>) {
    && ListsPaths(files, t.paths)
    && Ascending(t.languages) && (forall l :: l in t.languages <==> Uses(files, l))
    && (t.sawHunk <==> SomeFile(files, HasHunks))
    && t.added == AddedIn(files) && t.deleted == DeletedIn(files)
  }

  lemma SomeFilePush(files: seq<FileDiff>, f: FileDiff, holds: FileDiff -> bool)
    ensures SomeFile(files + [f], holds) <==> SomeFile(files, holds) || holds(f)
  {
    var more := files + [f];
    assert more[|files|] == f;
    if SomeFile(files, holds) {
      var i :| 0 <= i < |files| && holds(files[i]);
      assert more[i] == files[i];
    }
  }

  lemma FileIsDescribed(t: Totals, files: seq<FileDiff>, f: FileDiff)
    requires Describes(t, files)
    ensures Describes(CountFile(t, f), files + [f])
  {
    var u, more := CountFile(t, f), files + [f];
    assert more[..|files|] == files;
    var path := FilePath(f);
    if HasHunks(f) {
      HunksAreCounted(t, path.value, f.hunks);
      CountIfConcat(AddsText, SupportedLines(files), Bodies(f.hunks));
      CountIfConcat(DeletesText, SupportedLines(files), Bodies(f.hunks));
    } else {
      assert SupportedLines(files) + [] == SupportedLines(files);
    }
    forall p ensures p in u.paths <==> SomeFile(more, g => Supported(g) && FilePath(g) == Some(p)) {
      SomeFilePush(files, f, g => Supported(g) && FilePath(g) == Some(p));
    }
    forall l ensures l in u.languages <==> Uses(more, l) {
      SomeFilePush(files, f, g => ChangesLanguage(g, l));
    }
    SomeFilePush(files, f, HasHunks);
  }

  lemma {:induction false} FilesAreDescribed(t: Totals, before: seq<FileDiff>, files: seq<FileDiff>)
    requires Describes(t, before)
    ensures Describes(CountFiles(t, files), before + files)
    decreases |files|
  {
    if files == [] {
      assert before + files == before;
    } else {
      FileIsDescribed(t, before, files[0]);
      FilesAreDescribed(CountFile(t, files[0]), before + [files[0]], files[1..]);
      assert before + [files[0]] + files[1..] == before + files;
    }
  }

  lemma ConclusionIsDeserved(t: Totals, files: seq<FileDiff>)
    requires Describes(t, files)
    ensures Deserves(files, Conclude(t))
  {
    if |t.languages| == 1 {
      assert UsesOnly(files, t.languages[0]);
    } else if |t.languages| > 1 {
      LessIsTotal(t.languages[0], t.languages[0]);
      assert t.languages[0] != t.languages[1];
      assert Uses(files, t.languages[0]) && Uses(files, t.languages[1]);
    }
  }

  // ---------------------------------------------------------------------
  // Reading a rendered diff gives the facts of the structure
  // ---------------------------------------------------------------------

  function Stripped(texts: seq<string>): seq<string> {
    seq(|texts|, i requires 0 <= i < |texts| => StripCarriageReturn(texts[i]))
  }

  lemma {:induction false} LinesAfterText(line: string, text: string, rest: string)
    requires '\n' !in text
    ensures LinesAfter(line, text + "\n" + rest) == [StripCarriageReturn(line + text)] + LinesAfter([], rest)
    decreases |text|
  {
    var all := text + "\n" + rest;
    if text == [] {
      assert all[0] == '\n' && all[1..] == rest && line + text == line;
    } else {
      assert all[0] == text[0] && all[1..] == text[1..] + "\n" + rest;
      LinesAfterText(line + [text[0]], text[1..], rest);
      assert line + [text[0]] + text[1..] == line + text;
    }
  }

  lemma {:induction false} LinesOfRender(texts: seq<string>)
    requires forall i :: 0 <= i < |texts| ==> '\n' !in texts[i]
    ensures Lines(Render(texts)) == LinesAfter([], Render(texts)) == Stripped(texts)
  {
    if texts != [] {
      LinesOfRender(texts[1..]);
      LinesAfterText([], texts[0], Render(texts[1..]));
      assert [] + texts[0] == texts[0];
      assert Stripped(texts) == [StripCarriageReturn(texts[0])] + Stripped(texts[1..]);
    }
  }

  lemma {:induction false} FoldConcat(s: State, a: seq<string>, b: seq<string>)
    ensures Fold(s, a + b) == match Fold(s, a) case Success(t) => Fold(t, b) case Failure(e) => Failure(e)
    decreases |a|
  {
    if a == [] {
      assert a + b == b;
    } else {
      assert (a + b)[1..] == a[1..] + b;
      var step := LineStep(s, a[0]);
      if step.Success? {
        FoldConcat(step.value, a[1..], b);
      }
    }
  }

  lemma StrippedConcat(a: seq<string>, b: seq<string>)
    ensures Stripped(a + b) == Stripped(a) + Stripped(b)
  {
  }

  /** Folding the stripped lines `a` takes the state `s` to `t`. */
  ghost predicate Takes(s: State, a: seq<string>, t: State) {
    Fold(s, Stripped(a)) == Success(t)
  }

  lemma TakesBoth(s: State, a: seq<string>, t: State, b: seq<string>, u: State)
    requires Takes(s, a, t) && Takes(t, b, u)
    ensures Takes(s, a + b, u)
  {
    StrippedConcat(a, b);
    FoldConcat(s, Stripped(a), Stripped(b));
  }

  lemma StripKeepsPrefix(prefix: string, text: string)
    requires prefix != [] && prefix[|prefix| - 1] != '\r'
    ensures StripCarriageReturn(prefix + text) == prefix + StripCarriageReturn(text)
  {
    if text == [] {
      assert prefix + text == prefix;
    } else {
      assert (prefix + text)[|prefix + text| - 1] == text[|text| - 1];
    }
  }

  /** A line can only start with a prefix whose first character it has. */
  lemma OtherPrefix(line: string, prefix: string)
    requires prefix != [] && (line == [] || line[0] != prefix[0])
    ensures !StartsWith(line, prefix) && line != prefix
  {
    assert |line| >= |prefix| ==> line[..|prefix|][0] == line[0];
  }

  lemma OwnPrefix(prefix: string, text: string)
    ensures StartsWith(prefix + text, prefix) && (prefix + text)[|prefix|..] == text
  {
  }

  lemma StripKeepsBlank(text: string)
    ensures IsBlank(StripCarriageReturn(text)) <==> IsBlank(text)
  {
    var stripped := StripCarriageReturn(text);
    if stripped != text {
      assert text == stripped + ['\r'];
    }
  }

  lemma {:induction false} BodyLineCounts(t: Totals, b: BodyLine, line: string)
    requires BodyOk(b) && line == StripCarriageReturn(BodyText(b))
    ensures CountLine(t, line) == CountBody(t, [b])
  {
    assert [b][1..] == [];
    if !b.Empty? {
      var sign := BodyText(b)[..1];
      assert BodyText(b) == sign + b.text;
      StripKeepsPrefix(sign, b.text);
      StripKeepsBlank(b.text);
      OwnPrefix(sign, StripCarriageReturn(b.text));
    }
  }

  lemma BodyLineStep(s: State, b: BodyLine, line: string)
    requires s.inHunk && BodyOk(b) && line == StripCarriageReturn(BodyText(b))
    ensures LineStep(s, line) == Success(if s.activeLanguage.Some? then s.(totals := CountLine(s.totals, line)) else s)
  {
    if !b.Empty? {
      var sign := BodyText(b)[..1];
      assert BodyText(b) == sign + b.text;
      StripKeepsPrefix(sign, b.text);
    }
    OtherPrefix(line, "diff --git ");
    OtherPrefix(line, "@@ ");
    OtherPrefix(line, "@@");
  }

  lemma TakesBodyLine(s: State, b: BodyLine)
    requires s.inHunk && BodyOk(b)
    ensures Takes(s, [BodyText(b)],
                  if s.activeLanguage.Some? then s.(totals := CountBody(s.totals, [b])) else s)
  {
    BodyLineStep(s, b, StripCarriageReturn(BodyText(b)));
    BodyLineCounts(s.totals, b, StripCarriageReturn(BodyText(b)));
  }

  lemma {:induction false} CountBodyCons(t: Totals, body: seq<BodyLine>)
    requires body != []
    ensures CountBody(t, body) == CountBody(CountBody(t, [body[0]]), body[1..])
  {
    var one := [body[0]];
    assert one[1..] == [];
    match body[0] {
      case Added(text) =>
        var next := if IsBlank(text) then t else t.(added := t.added + 1);
        assert CountBody(next, one[1..]) == next;
      case Deleted(text) =>
        var next := if IsBlank(text) then t else t.(deleted := t.deleted + 1);
        assert CountBody(next, one[1..]) == next;
      case _ =>
        assert CountBody(t, one[1..]) == t;
    }
  }

  lemma {:induction false} TakesBody(s: State, body: seq<BodyLine>)
    requires s.inHunk && forall i :: 0 <= i < |body| ==> BodyOk(body[i])
    ensures Takes(s, BodyTexts(body),
                  if s.activeLanguage.Some? then s.(totals := CountBody(s.totals, body)) else s)
    decreases |body|
  {
    if body == [] {
    } else {
      var t := if s.activeLanguage.Some? then s.(totals := CountBody(s.totals, [body[0]])) else s;
      TakesBodyLine(s, body[0]);
      assert BodyOk(body[0]);
      TakesBody(t, body[1..]);
      var u := if t.activeLanguage.Some? then t.(totals := CountBody(t.totals, body[1..])) else t;
      CountBodyCons(s.totals, body);
      TakesBoth(s, [BodyText(body[0])], t, BodyTexts(body[1..]), u);
    }
  }

  /** The path of the hunks that follow the header lines of a file. */
  predicate HasPath(s: State, path: string) {
    Some(path) == if s.newPath.Some? then s.newPath else s.oldPath
  }

  lemma TakesHunkHeader(s: State, header: string, path: string)
    requires HasPath(s, path)
    ensures Takes(s, ["@@ " + header],
                  s.(totals := EnterHunk(s.totals, path), activeLanguage := LanguageForPath(path), inHunk := true))
  {
    StripKeepsPrefix("@@ ", header);
    var line := "@@ " + StripCarriageReturn(header);
    OwnPrefix("@@ ", StripCarriageReturn(header));
    OtherPrefix(line, "diff --git ");
    OtherPrefix(line, "--- ");
    OtherPrefix(line, "+++ ");
  }

  lemma {:induction false} TakesHunks(s: State, hunks: seq<Hunk>, path: string) returns (t: State)
    requires HasPath(s, path) && forall i :: 0 <= i < |hunks| ==> HunkOk(hunks[i])
    ensures Takes(s, HunkTexts(hunks), t) && t.totals == CountHunks(s.totals, path, hunks)
    decreases |hunks|
  {
    if hunks == [] {
      t := s;
    } else {
      var h := hunks[0];
      assert HunkOk(h);
      var entered := s.(totals := EnterHunk(s.totals, path), activeLanguage := LanguageForPath(path), inHunk := true);
      TakesHunkHeader(s, h.header, path);
      TakesBody(entered, h.body);
      var counted := if entered.activeLanguage.Some? then entered.(totals := CountBody(entered.totals, h.body)) else entered;
      TakesBoth(s, ["@@ " + h.header], entered, BodyTexts(h.body), counted);
      t := TakesHunks(counted, hunks[1..], path);
      TakesBoth(s, ["@@ " + h.header] + BodyTexts(h.body), counted, HunkTexts(hunks[1..]), t);
    }
  }

  lemma {:induction false} TakesExtended(s: State, extended: seq<string>)
    requires !s.inHunk && s.activeLanguage.None?
    requires forall i :: 0 <= i < |extended| ==> ExtendedOk(extended[i])
    ensures Takes(s, extended, s)
  {
    if extended == [] {
    } else {
      TakesExtended(s, extended[1..]);
      TakesBoth(s, [extended[0]], s, extended[1..], s);
      assert [extended[0]] + extended[1..] == extended;
    }
  }

  // Header names are trimmed, and rejected when they are quoted

  /** A side the classifier rejects the whole patch for. */
  predicate Unreadable(side: Side) {
    || side.Quoted?
    || (side.Named? && (IsBlank(side.path) || ".." in SplitOn(TrimEnd(side.path), '/')))
  }

  function AsReadSide(side: Side): Side {
    match side
    case Named(path, tab) => Named(TrimEnd(path), tab)
    case _ => side
  }

  lemma {:induction false} QuotedIsOneLine(path: string)
    ensures '\n' !in QuotedName(path)
  {
    if path != [] {
      QuotedIsOneLine(path[1..]);
    }
  }

  lemma {:induction false} TrimEndConcat(core: string, tail: string)
    ensures TrimEnd(core + tail) == if IsBlank(tail) then TrimEnd(core) else core + TrimEnd(tail)
  {
    if tail == [] {
      assert core + tail == core;
    } else {
      var n := |tail| - 1;
      assert (core + tail)[..|core + tail| - 1] == core + tail[..n];
      assert tail == tail[..n] + [tail[n]];
      if IsWhitespace(tail[n]) {
        TrimEndConcat(core, tail[..n]);
        BlankConcat(tail[..n], [tail[n]]);
      }
    }
  }

  lemma {:induction false} TrimEndShape(s: string)
    ensures |TrimEnd(s)| <= |s| && TrimEnd(s) == s[..|TrimEnd(s)|]
    ensures TrimEnd(s) == [] <==> IsBlank(s)
    ensures TrimEnd(s) == s <==> s == [] || !IsWhitespace(s[|s| - 1])
  {
    var k := TrimEndCuts(s);
    assert s == s[..k] + s[k..];
    BlankConcat(s[..k], s[k..]);
  }

  lemma NamedIsTrimmed(prefix: string, side: Side)
    requires (prefix == "a/" || prefix == "b/") && side.Named?
    ensures Trim(SideText(prefix, side)) == prefix + TrimEnd(side.path)
  {
    var text, core := SideText(prefix, side), prefix + side.path;
    assert text[0] == prefix[0];
    TrimEndConcat(core, if side.tab then "\t" else "");
    TrimEndConcat(prefix, side.path);
    TrimEndShape(side.path);
    TrimEndShape(prefix);
  }

  lemma NamedIsRead(prefix: string, side: Side)
    requires (prefix == "a/" || prefix == "b/") && side.Named? && SideOk(side)
    ensures DiffPath(SideText(prefix, side))
         == if Unreadable(side) then Failure(MalformedPatch) else Success(SidePath(AsReadSide(side)))
  {
    var name := TrimEnd(side.path);
    NamedIsTrimmed(prefix, side);
    TrimEndShape(side.path);
    var trimmed := prefix + name;
    assert trimmed[0] == prefix[0] && trimmed[..2] == prefix && trimmed[2..] == name;
    assert '\t' !in trimmed;
  }

  lemma QuotedIsRejected(prefix: string, side: Side)
    requires side.Quoted?
    ensures DiffPath(SideText(prefix, side)) == Failure(MalformedPatch)
  {
    var text := SideText(prefix, side);
    assert text[0] == '\"' && text[|text| - 1] == '\"';
    TrimKeepsTrimmed(text);
    assert text[..1] == "\"";
  }

  /** What the header reader makes of a side. */
  lemma SideIsRead(prefix: string, side: Side)
    requires (prefix == "a/" || prefix == "b/") && SideOk(side)
    ensures DiffPath(SideText(prefix, side))
         == if Unreadable(side) then Failure(MalformedPatch) else Success(SidePath(AsReadSide(side)))
  {
    match side {
      case DevNull => TrimKeepsTrimmed("/dev/null");
      case Named(_, _) => NamedIsRead(prefix, side);
      case Quoted(_) => QuotedIsRejected(prefix, side);
    }
  }

  /** A path is read as it is exactly when it is printed unquoted and does not end in white
      space; quoted paths are rejected. */
  lemma SideIsReadExactlyWhen(prefix: string, side: Side)
    requires (prefix == "a/" || prefix == "b/") && SideOk(side)
    ensures DiffPath(SideText(prefix, side)) == Success(SidePath(side))
       <==> side.DevNull? || (side.Named? && !IsWhitespace(side.path[|side.path| - 1]))
  {
    SideIsRead(prefix, side);
    if side.Named? {
      TrimEndShape(side.path);
      if IsWhitespace(side.path[|side.path| - 1]) {
        assert |ReplaceChar(TrimEnd(side.path), '\\', '/')| < |ReplaceChar(side.path, '\\', '/')|;
      }
    }
  }

  /** A side is one line, as the line splitter leaves it. */
  lemma SideIsOneLine(prefix: string, side: Side)
    requires (prefix == "a/" || prefix == "b/") && SideOk(side)
    ensures '\n' !in SideText(prefix, side)
    ensures StripCarriageReturn(SideText(prefix, side)) == SideText(prefix, side)
  {
    var text := SideText(prefix, side);
    if side.Quoted? {
      QuotedIsOneLine(side.path);
      assert text[|text| - 1] == '\"';
    } else if side.Named? && !side.tab {
      assert text == prefix + side.path;
      assert text[|text| - 1] == side.path[|side.path| - 1];
    }
  }

  lemma {:induction false} OldSideStep(s: State, text: string)
    requires !s.inHunk && StripCarriageReturn(text) == text
    ensures Fold(s, Stripped(["--- " + text]))
         == match DiffPath(text) case Failure(why) => Failure(why) case Success(path) => Success(s.(oldPath := path))
  {
    StripKeepsPrefix("--- ", text);
    OwnPrefix("--- ", text);
    OtherPrefix("--- " + text, "diff --git ");
    assert Stripped(["--- " + text]) == ["--- " + text] && ["--- " + text][1..] == [];
  }

  lemma {:induction false} NewSideStep(s: State, text: string)
    requires !s.inHunk && StripCarriageReturn(text) == text
    ensures Fold(s, Stripped(["+++ " + text]))
         == match DiffPath(text) case Failure(why) => Failure(why) case Success(path) => Success(s.(newPath := path))
  {
    StripKeepsPrefix("+++ ", text);
    OwnPrefix("+++ ", text);
    OtherPrefix("+++ " + text, "diff --git ");
    OtherPrefix("+++ " + text, "--- ");
    assert Stripped(["+++ " + text]) == ["+++ " + text] && ["+++ " + text][1..] == [];
  }

  /** Folding the stripped lines `a` from `s` ends in a malformed patch. */
  ghost predicate Fails(s: State, a: seq<string>) {
    Fold(s, Stripped(a)) == Failure(MalformedPatch)
  }

  lemma FailsBefore(s: State, a: seq<string>, b: seq<string>)
    requires Fails(s, a)
    ensures Fails(s, a + b)
  {
    StrippedConcat(a, b);
    FoldConcat(s, Stripped(a), Stripped(b));
  }

  lemma FailsAfter(s: State, a: seq<string>, t: State, b: seq<string>)
    requires Takes(s, a, t) && Fails(t, b)
    ensures Fails(s, a + b)
  {
    StrippedConcat(a, b);
    FoldConcat(s, Stripped(a), Stripped(b));
  }

  predicate SidesReadable(sides: (Side, Side)) {
    !Unreadable(sides.0) && !Unreadable(sides.1)
  }

  lemma SidesAreTaken(s: State, before: Side, after: Side)
    requires !s.inHunk && SideOk(before) && SideOk(after)
    ensures if SidesReadable((before, after))
            then Takes(s, SideTexts(Some((before, after))),
                       s.(oldPath := SidePath(AsReadSide(before)), newPath := SidePath(AsReadSide(after))))
            else Fails(s, SideTexts(Some((before, after))))
  {
    var a, b := "--- " + SideText("a/", before), "+++ " + SideText("b/", after);
    SideIsRead("a/", before);
    SideIsOneLine("a/", before);
    OldSideStep(s, SideText("a/", before));
    SideIsRead("b/", after);
    SideIsOneLine("b/", after);
    var mid := s.(oldPath := SidePath(AsReadSide(before)));
    NewSideStep(mid, SideText("b/", after));
    assert [a] + [b] == [a, b];
    if Unreadable(before) {
      FailsBefore(s, [a], [b]);
    } else if Unreadable(after) {
      FailsAfter(s, [a], mid, [b]);
    } else {
      TakesBoth(s, [a], mid, [b], mid.(newPath := SidePath(AsReadSide(after))));
    }
  }

  predicate FileReadable(f: FileDiff) {
    f.sides.Some? ==> SidesReadable(f.sides.value)
  }

  predicate AllReadable(files: seq<FileDiff>) {
    forall i :: 0 <= i < |files| ==> FileReadable(files[i])
  }

  /** The file as the header reader understands it: white space after a name is lost. */
  function AsReadFile(f: FileDiff): FileDiff {
    match f.sides
    case None => f
    case Some((before, after)) => f.(sides := Some((AsReadSide(before), AsReadSide(after))))
  }

  function AsRead(files: seq<FileDiff>): seq<FileDiff> {
    if files == [] then [] else [AsReadFile(files[0])] + AsRead(files[1..])
  }

  lemma TakesStart(s: State, f: FileDiff)
    requires FileOk(f)
    ensures Takes(s, ["diff --git " + f.command] + f.extended, State(s.totals, None, None, None, false))
  {
    var clean := State(s.totals, None, None, None, false);
    StripKeepsPrefix("diff --git ", f.command);
    TakesExtended(clean, f.extended);
    TakesBoth(s, ["diff --git " + f.command], clean, f.extended, clean);
  }

  lemma FailsFile(s: State, f: FileDiff)
    requires FileOk(f) && !FileReadable(f)
    ensures Fails(s, FileTexts(f))
  {
    var start, clean := ["diff --git " + f.command] + f.extended, State(s.totals, None, None, None, false);
    TakesStart(s, f);
    SidesAreTaken(clean, f.sides.value.0, f.sides.value.1);
    FailsAfter(s, start, clean, SideTexts(f.sides));
    FailsBefore(s, start + SideTexts(f.sides), HunkTexts(f.hunks));
  }

  lemma TakesFile(s: State, f: FileDiff) returns (t: State)
    requires FileOk(f) && FileReadable(f)
    ensures Takes(s, FileTexts(f), t) && t.totals == CountFile(s.totals, AsReadFile(f))
  {
    var start, clean := ["diff --git " + f.command] + f.extended, State(s.totals, None, None, None, false);
    TakesStart(s, f);
    var sided := clean;
    if f.sides.Some? {
      var (before, after) := f.sides.value;
      sided := clean.(oldPath := SidePath(AsReadSide(before)), newPath := SidePath(AsReadSide(after)));
      SidesAreTaken(clean, before, after);
    }
    TakesBoth(s, start, clean, SideTexts(f.sides), sided);
    match FilePath(AsReadFile(f)) {
      case Some(path) =>
        t := TakesHunks(sided, f.hunks, path);
      case None =>
        assert f.hunks == [];
        t := sided;
    }
    TakesBoth(s, start + SideTexts(f.sides), sided, HunkTexts(f.hunks), t);
  }

  /** Folding a whole diff: it is taken as read, or fails at its first unreadable file. */
  lemma {:induction false} FilesAreTaken(s: State, files: seq<FileDiff>) returns (t: State)
    requires DiffOk(files)
    ensures AllReadable(files) ==> Takes(s, DiffTexts(files), t) && t.totals == CountFiles(s.totals, AsRead(files))
    ensures !AllReadable(files) ==> Fails(s, DiffTexts(files))
    decreases |files|
  {
    t := s;
    if files != [] {
      var f, others := files[0], files[1..];
      assert FileOk(f);
      assert AllReadable(files) <==> FileReadable(f) && AllReadable(others) by {
        assert files == [f] + others;
      }
      if !FileReadable(f) {
        FailsFile(s, f);
        FailsBefore(s, FileTexts(f), DiffTexts(others));
      } else {
        var m := TakesFile(s, f);
        t := FilesAreTaken(m, others);
        if AllReadable(others) {
          TakesBoth(s, FileTexts(f), m, DiffTexts(others), t);
        } else {
          FailsAfter(s, FileTexts(f), m, DiffTexts(others));
        }
      }
    }
  }

  ghost predicate OneLineEach(texts: seq<string>) {
    forall i :: 0 <= i < |texts| ==> '\n' !in texts[i]
  }

  lemma {:induction false} BodyIsOneLineEach(body: seq<BodyLine>)
    requires forall i :: 0 <= i < |body| ==> BodyOk(body[i])
    ensures OneLineEach(BodyTexts(body))
  {
    if body != [] {
      assert BodyOk(body[0]);
      BodyIsOneLineEach(body[1..]);
    }
  }

  lemma {:induction false} HunksAreOneLineEach(hunks: seq<Hunk>)
    requires forall i :: 0 <= i < |hunks| ==> HunkOk(hunks[i])
    ensures OneLineEach(HunkTexts(hunks))
  {
    if hunks != [] {
      assert HunkOk(hunks[0]);
      BodyIsOneLineEach(hunks[0].body);
      HunksAreOneLineEach(hunks[1..]);
    }
  }

  lemma OneLineEachConcat(a: seq<string>, b: seq<string>)
    requires OneLineEach(a) && OneLineEach(b)
    ensures OneLineEach(a + b)
  {
  }

  lemma SidesAreOneLineEach(before: Side, after: Side)
    requires SideOk(before) && SideOk(after)
    ensures OneLineEach(SideTexts(Some((before, after))))
  {
    SideIsOneLine("a/", before);
    SideIsOneLine("b/", after);
  }

  lemma FileIsOneLineEach(f: FileDiff)
    requires FileOk(f)
    ensures OneLineEach(FileTexts(f))
  {
    var command := ["diff --git " + f.command];
    assert OneLineEach(f.extended) by {
      assert forall i :: 0 <= i < |f.extended| ==> ExtendedOk(f.extended[i]);
    }
    if f.sides.Some? {
      SidesAreOneLineEach(f.sides.value.0, f.sides.value.1);
    }
    HunksAreOneLineEach(f.hunks);
    OneLineEachConcat(command, f.extended);
    OneLineEachConcat(command + f.extended, SideTexts(f.sides));
    OneLineEachConcat(command + f.extended + SideTexts(f.sides), HunkTexts(f.hunks));
  }

  lemma {:induction false} DiffIsOneLineEach(files: seq<FileDiff>)
    requires DiffOk(files)
    ensures OneLineEach(DiffTexts(files))
  {
    if files != [] {
      assert FileOk(files[0]);
      FileIsOneLineEach(files[0]);
      DiffIsOneLineEach(files[1..]);
      OneLineEachConcat(FileTexts(files[0]), DiffTexts(files[1..]));
    }
  }

  /** Classifying the rendering of any well-formed git diff: the patch is malformed when a name
      is quoted or unreadable without its trailing white space, and otherwise gets the facts, or
      the exclusion, that its structure deserves with the names as they are read. Body lines
      that look like headers are included. */
  lemma {:induction false} ClassifyingARenderedDiff(files: seq<FileDiff>)
    requires DiffOk(files)
    ensures var result := ClassifyLines(Lines(Render(DiffTexts(files))));
            if AllReadable(files) then Deserves(AsRead(files), result) else result == Failure(MalformedPatch)
  {
    DiffIsOneLineEach(files);
    LinesOfRender(DiffTexts(files));
    var t := FilesAreTaken(START, files);
    if AllReadable(files) {
      FilesAreDescribed(NOTHING, [], AsRead(files));
      assert [] + AsRead(files) == AsRead(files);
      ConclusionIsDeserved(t.totals, AsRead(files));
    }
  }

  /** No name ends in white space. */
  predicate NamesEndVisibly(files: seq<FileDiff>) {
    forall i :: 0 <= i < |files| && files[i].sides.Some? ==>
      SideEndsVisibly(files[i].sides.value.0) && SideEndsVisibly(files[i].sides.value.1)
  }

  predicate SideEndsVisibly(side: Side) {
    side.Named? && side.path != [] ==> !IsWhitespace(side.path[|side.path| - 1])
  }

  predicate HasQuotedName(files: seq<FileDiff>) {
    exists i :: 0 <= i < |files| && files[i].sides.Some? && (files[i].sides.value.0.Quoted? || files[i].sides.value.1.Quoted?)
  }

  lemma VisibleSideIsKept(side: Side)
    requires SideOk(side) && SideEndsVisibly(side)
    ensures AsReadSide(side) == side && (Unreadable(side) <==> side.Quoted?)
  {
    if side.Named? {
      TrimEndShape(side.path);
    }
  }

  lemma {:induction false} VisibleNamesAreKept(files: seq<FileDiff>)
    requires DiffOk(files) && NamesEndVisibly(files)
    ensures AsRead(files) == files
    ensures AllReadable(files) <==> !HasQuotedName(files)
  {
    forall i | 0 <= i < |files|
      ensures AsReadFile(files[i]) == files[i]
      ensures FileReadable(files[i])
         <==> !(files[i].sides.Some? && (files[i].sides.value.0.Quoted? || files[i].sides.value.1.Quoted?))
    {
      assert FileOk(files[i]);
      if files[i].sides.Some? {
        VisibleSideIsKept(files[i].sides.value.0);
        VisibleSideIsKept(files[i].sides.value.1);
      }
    }
    SameAsRead(files);
  }

  lemma {:induction false} SameAsRead(files: seq<FileDiff>)
    requires forall i :: 0 <= i < |files| ==> AsReadFile(files[i]) == files[i]
    ensures AsRead(files) == files
  {
    if files != [] {
      SameAsRead(files[1..]);
      assert files == [files[0]] + files[1..];
    }
  }

  /** A diff gets what it deserves exactly when no name is quoted, or it deserves to be
      malformed anyway. */
  lemma {:induction false} DiffsGetWhatTheyDeserveExactlyWhen(files: seq<FileDiff>)
    requires DiffOk(files) && NamesEndVisibly(files)
    ensures Deserves(files, ClassifyLines(Lines(Render(DiffTexts(files)))))
       <==> !HasQuotedName(files) || Deserves(files, Failure(MalformedPatch))
  {
    ClassifyingARenderedDiff(files);
    VisibleNamesAreKept(files);
  }

  // ---------------------------------------------------------------------
  // A quoted name
  // ---------------------------------------------------------------------

  const ACCENTED := "\U{E9}.py"

  /** Deleting the only line of a file. */
  function Deletion(side: Side, text: string): FileDiff {
    FileDiff("", [], Some((side, DevNull)), [Hunk("-1 +0,0 @@", [Deleted(text)])])
  }

  lemma AccentIsSpelled()
    ensures QuotedChar('\U{E9}') == "\\303\\251"
  {
    assert Octal(0xC3) == "\\303" && Octal(0xA9) == "\\251";
  }

  lemma AccentedIsSpelled()
    ensures QuotedName(ACCENTED) == "\\303\\251.py"
  {
    AccentIsSpelled();
    assert ACCENTED[1..] == ".py" && ".py"[1..] == "py" && "py"[1..] == "y" && "y"[1..] == "";
    assert QuotedName("y") == "y";
    assert QuotedName("py") == "py";
    assert QuotedName(".py") == ".py";
  }

  lemma {:induction false} Extension(stem: string, extension: string)
    requires '.' !in extension
    ensures AfterLast(stem + "." + extension, '.') == Some(extension)
  {
    var name := stem + "." + extension;
    if extension != [] {
      var n := |extension| - 1;
      assert name[..|name| - 1] == stem + "." + extension[..n];
      Extension(stem, extension[..n]);
      assert name[|name| - 1] == extension[n] && extension == extension[..n] + [extension[n]];
    }
  }

  lemma AccentedIsPython()
    ensures LanguageForPath(ACCENTED) == Some("python")
  {
    assert AsciiLower(ACCENTED) == ACCENTED == "\U{E9}" + "." + "py";
    Extension("\U{E9}", "py");
    assert "py"[0] == 'p' && "go"[0] == 'g' && "js"[0] == 'j' && "kt"[0] == 'k';
    assert "py" in ["py", "pyi"];
    assert forall other :: other in ["js", "jsx", "mjs", "cjs"] || other in ["kt", "kts"] ==> other[0] != 'p';
  }

  /** The header git prints for it. */
  lemma AccentedHeader()
    ensures SideText("a/", Quoted(ACCENTED)) == "\"a/\\303\\251.py\""
    ensures DiffPath("\"a/\\303\\251.py\"") == Failure(MalformedPatch)
  {
    AccentedIsSpelled();
    QuotedIsRejected("a/", Quoted(ACCENTED));
  }

  lemma {:induction false} NoSplit(s: string, c: char)
    requires c !in s
    ensures SplitOn(s, c) == [s]
  {
    if s != [] {
      NoSplit(s[1..], c);
      assert [s[0]] + s[1..] == s;
    }
  }

  lemma DeletionIsOk(side: Side, text: string)
    requires side.Quoted? && PathOk(side.path) && '\n' !in text
    ensures DiffOk([Deletion(side, text)]) && NamesEndVisibly([Deletion(side, text)])
    ensures !AllReadable([Deletion(side, text)])
  {
    var f := Deletion(side, text);
    assert HunkOk(f.hunks[0]);
    assert [f][0] == f && !FileReadable(f);
  }

  lemma DeletionCounts(side: Side, text: string, language: string)
    requires !side.DevNull? && !IsBlank(text) && LanguageForPath(SidePath(side).value) == Some(language)
    ensures CountFiles(NOTHING, [Deletion(side, text)]) == Totals([SidePath(side).value], [language], true, 0, 1)
  {
    var f, path := Deletion(side, text), SidePath(side).value;
    var hunk, entered := f.hunks[0], Totals([path], [language], true, 0, 0);
    assert EnterHunk(NOTHING, path) == entered;
    assert hunk.body[1..] == [] && f.hunks[1..] == [] && [f][1..] == [];
    assert CountBody(entered, hunk.body) == entered.(deleted := 1);
    assert CountHunks(NOTHING, path, f.hunks) == entered.(deleted := 1);
  }

  lemma DeletionDeserves(side: Side, text: string, language: string)
    requires !side.DevNull? && !IsBlank(text) && LanguageForPath(SidePath(side).value) == Some(language)
    ensures Deserves([Deletion(side, text)], Success(PatchFacts(language, [SidePath(side).value], 0, 1)))
  {
    var files := [Deletion(side, text)];
    DeletionCounts(side, text, language);
    FilesAreDescribed(NOTHING, [], files);
    assert [] + files == files;
    ConclusionIsDeserved(CountFiles(NOTHING, files), files);
  }

  lemma QuotedDeletionIsRejected(path: string, text: string)
    requires PathOk(path) && '\n' !in text
    ensures var files := [Deletion(Quoted(path), text)];
            DiffOk(files) && ClassifyLines(Lines(Render(DiffTexts(files)))) == Failure(MalformedPatch)
  {
    DeletionIsOk(Quoted(path), text);
    ClassifyingARenderedDiff([Deletion(Quoted(path), text)]);
  }

  lemma AccentedIsAPath()
    ensures PathOk(ACCENTED) && SidePath(Quoted(ACCENTED)) == Some(ACCENTED)
  {
    NoSplit(ACCENTED, '/');
    assert ACCENTED[0] != '/' && ".."[1] != ACCENTED[0] && |".."| != |ACCENTED|;
    assert ReplaceChar(ACCENTED, '\\', '/') == ACCENTED;
  }

  /** Deleting a line of a Python file whose name has an accent deserves to be accepted, and
      is rejected as malformed. */
  lemma QuotedNameIsRejected()
    ensures var files := [Deletion(Quoted(ACCENTED), "pass")];
            && DiffOk(files) && Deserves(files, Success(PatchFacts("python", [ACCENTED], 0, 1)))
            && ClassifyLines(Lines(Render(DiffTexts(files)))) == Failure(MalformedPatch)
  {
    AccentedIsAPath();
    AccentedIsPython();
    QuotedDeletionIsRejected(ACCENTED, "pass");
    assert !IsWhitespace("pass"[0]);
    DeletionDeserves(Quoted(ACCENTED), "pass", "python");
  }
}
