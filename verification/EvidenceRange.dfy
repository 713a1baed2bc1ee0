/** Anchoring a quote to source lines (`canonical_evidence_range`, `normalized_evidence_locations`
    and `evidence_matches_source` in src/analyzer_result.rs).

    Three routes search for the quote: its own characters, whole lines, and the stripped
    text. Every range any of them accepts lies in the method and carries the quote. */
module EvidenceRange {
  import opened Wrappers
  import opened Text
  import opened Sequences

  datatype EvidenceError = Ambiguous | NotInRange

  datatype Range = Range(start: nat, end: nat)

  // ---------------------------------------------------------------------
  // White space removed
  // ---------------------------------------------------------------------

  function Strip(s: string): string {
    if s == [] then []
    else Strip(s[..|s| - 1]) + if IsWhitespace(s[|s| - 1]) then [] else [s[|s| - 1]]
  }

  lemma {:induction false} StripConcat(a: string, b: string)
    ensures Strip(a + b) == Strip(a) + Strip(b)
  {
    if b == [] {
      assert a + b == a;
    } else {
      assert (a + b)[..|a + b| - 1] == a + b[..|b| - 1];
      StripConcat(a, b[..|b| - 1]);
    }
  }

  lemma {:induction false} StripOfBlank(s: string)
    ensures IsBlank(s) <==> Strip(s) == []
  {
    if s != [] {
      var n := |s| - 1;
      StripOfBlank(s[..n]);
      assert s == s[..n] + [s[n]];
      BlankConcat(s[..n], [s[n]]);
    }
  }

  lemma {:induction false} StripOfTrim(s: string)
    ensures Strip(Trim(s)) == Strip(s)
  {
    var a, b := TrimCuts(s);
    assert s == s[..a] + s[a..b] + s[b..];
    StripConcat(s[..a] + s[a..b], s[b..]);
    StripConcat(s[..a], s[a..b]);
    StripOfBlank(s[..a]);
    StripOfBlank(s[b..]);
  }

  lemma {:induction false} StripOfLine(line: string)
    ensures Strip(StripCarriageReturn(line)) == Strip(line)
  {
  }

  // ---------------------------------------------------------------------
  // The three search routes
  // ---------------------------------------------------------------------

  /** `evidence_matches_source`. */
  predicate EvidenceMatchesSource(source: string, evidence: string) {
    var trimmed := Trim(evidence);
    trimmed != [] &&
    (Contains(source, trimmed) || (Strip(trimmed) != [] && Contains(Strip(source), Strip(trimmed))))
  }

  function Join(lines: seq<string>): string {
    if lines == [] then []
    else if |lines| == 1 then lines[0]
    else Join(lines[..|lines| - 1]) + "\n" + lines[|lines| - 1]
  }

  function Newlines(s: string): nat {
    if s == [] then 0 else Newlines(s[..|s| - 1]) + if s[|s| - 1] == '\n' then 1 else 0
  }

  /** The lines an exact match at `offset` spans. */
  function MatchRange(source: string, methodStart: nat, quote: string, offset: nat): Range
    requires offset <= |source|
  {
    var start := methodStart + Newlines(source[..offset]);
    Range(start, start + Newlines(quote))
  }

  predicate InMethod(methodStart: nat, methodEnd: nat, range: Range) {
    range.start >= methodStart && range.end <= methodEnd
  }

  /** The line ranges of the first `n` exact matches, those leaving the method dropped. */
  function ExactLocations(source: string, methodStart: nat, methodEnd: nat, quote: string, offsets: seq<nat>, n: nat): seq<Range>
    requires n <= |offsets| && forall k :: 0 <= k < |offsets| ==> offsets[k] <= |source|
  {
    if n == 0 then []
    else
      var range := MatchRange(source, methodStart, quote, offsets[n - 1]);
      ExactLocations(source, methodStart, methodEnd, quote, offsets, n - 1)
      + if InMethod(methodStart, methodEnd, range) then [range] else []
  }

  function StripAll(lines: seq<string>): seq<string> {
    if lines == [] then [] else [Strip(lines[0])] + StripAll(lines[1..])
  }

  lemma {:induction false} StripAllConcat(a: seq<string>, b: seq<string>)
    ensures StripAll(a + b) == StripAll(a) + StripAll(b)
  {
    if a == [] {
      assert a + b == b;
    } else {
      assert (a + b)[1..] == a[1..] + b;
      StripAllConcat(a[1..], b);
    }
  }

  lemma {:induction false} StripAllLength(lines: seq<string>)
    ensures |StripAll(lines)| == |lines|
  {
    if lines != [] {
      StripAllLength(lines[1..]);
    }
  }

  lemma {:induction false} StripAllOne(line: string)
    ensures StripAll([line]) == [Strip(line)]
  {
    assert [line][1..] == [];
  }

  /** Every character of the parts with the number of its part, counted from `first`. */
  function Tagged(parts: seq<string>, first: nat): seq<(char, nat)> {
    if parts == [] then []
    else
      var n := |parts| - 1;
      Tagged(parts[..n], first) + seq(|parts[n]|, i requires 0 <= i < |parts[n]| => (parts[n][i], first + n))
  }

  /** Every character of the stripped source with its line number. */
  function SourceChars(lines: seq<string>, methodStart: nat): seq<(char, nat)> {
    Tagged(StripAll(lines), methodStart)
  }

  predicate WindowMatches(chars: seq<(char, nat)>, at: nat, quoteChars: string) {
    at + |quoteChars| <= |chars| && forall i :: 0 <= i < |quoteChars| ==> chars[at + i].0 == quoteChars[i]
  }

  function WindowLocations(chars: seq<(char, nat)>, quoteChars: string, methodStart: nat, methodEnd: nat, from: nat): seq<Range>
    requires quoteChars != []
    decreases |chars| - from
  {
    if from + |quoteChars| > |chars| then []
    else
      var start, end := chars[from].1, chars[from + |quoteChars| - 1].1;
      (if WindowMatches(chars, from, quoteChars) && start >= methodStart && end <= methodEnd then [Range(start, end)] else [])
      + WindowLocations(chars, quoteChars, methodStart, methodEnd, from + 1)
  }

  /** `normalized_evidence_locations`. */
  function NormalizedEvidenceLocations(source: string, methodStart: nat, methodEnd: nat, quote: string): seq<Range> {
    var quoteChars := Strip(quote);
    if quoteChars == [] then []
    else WindowLocations(SourceChars(Lines(source), methodStart), quoteChars, methodStart, methodEnd, 0)
  }

  /** The declared range lies in the method and its own lines carry the quote. */
  predicate DeclaredRangeHolds(source: string, methodStart: nat, methodEnd: nat, declared: Range, quote: string) {
    var lines := Lines(source);
    && methodStart <= declared.start <= declared.end <= methodEnd
    && declared.end - methodStart < |lines|
    && EvidenceMatchesSource(Join(lines[declared.start - methodStart..declared.end - methodStart + 1]), quote)
  }

  function MatchOffsets(source: string, quote: string): (offsets: seq<nat>)
    ensures forall k :: 0 <= k < |offsets| ==> offsets[k] <= |source| && MatchesAt(source, quote, offsets[k])
  {
    MatchIndices(source, quote, 0)
  }

  /** `canonical_evidence_range`. */
  function CanonicalEvidenceRange(source: string, methodStart: nat, methodEnd: nat, declared: Range, quote: string)
    : Result<Range, EvidenceError>
  {
    if DeclaredRangeHolds(source, methodStart, methodEnd, declared, quote) then Success(declared)
    else
      var offsets := MatchOffsets(source, quote);
      var exact := ExactLocations(source, methodStart, methodEnd, quote, offsets, |offsets|);
      if |exact| == 1 then Success(exact[0])
      else if |exact| > 1 then Failure(Ambiguous)
      else
        var normalized := NormalizedEvidenceLocations(source, methodStart, methodEnd, quote);
        if |normalized| == 1 then Success(normalized[0])
        else if normalized == [] then Failure(NotInRange)
        else Failure(Ambiguous)
  }

  // ---------------------------------------------------------------------
  // The stripped lines in a row
  // ---------------------------------------------------------------------

  /** The first `n` parts in a row; parts that do not exist count as empty. */
  function Concat(parts: seq<string>, n: nat): string {
    if n == 0 then [] else Concat(parts, n - 1) + if n <= |parts| then parts[n - 1] else []
  }

  lemma {:induction false} ConcatGrows(parts: seq<string>, m: nat, n: nat)
    requires m <= n
    ensures Concat(parts, m) <= Concat(parts, n)
    decreases n
  {
    if m < n {
      ConcatGrows(parts, m, n - 1);
    }
  }

  lemma {:induction false} SameConcat(a: seq<string>, b: seq<string>, n: nat)
    requires n <= |a| && n <= |b| && forall i :: 0 <= i < n ==> a[i] == b[i]
    ensures Concat(a, n) == Concat(b, n)
  {
    if n > 0 {
      SameConcat(a, b, n - 1);
    }
  }

  lemma ConcatOfSlice(parts: seq<string>, i: nat, n: nat)
    requires 0 < n && i + n <= |parts|
    ensures Concat(parts[i..i + n], n) == Concat(parts[i..i + n - 1], n - 1) + parts[i + n - 1]
  {
    SameConcat(parts[i..i + n], parts[i..i + n - 1], n - 1);
  }

  lemma {:induction false} ConcatSlice(parts: seq<string>, i: nat, n: nat)
    requires i + n <= |parts|
    ensures Concat(parts, i + n) == Concat(parts, i) + Concat(parts[i..i + n], n)
    decreases n
  {
    if n == 0 {
      assert Concat(parts[i..i], 0) == [];
    } else {
      ConcatSlice(parts, i, n - 1);
      ConcatOfSlice(parts, i, n);
      Assoc(Concat(parts, i), Concat(parts[i..i + n - 1], n - 1), parts[i + n - 1], []);
    }
  }

  lemma {:induction false} ConcatCons(part: string, parts: seq<string>, n: nat)
    ensures Concat([part] + parts, n + 1) == part + Concat(parts, n)
  {
    var all := [part] + parts;
    if n == 0 {
      assert Concat(all, 0) == [] && Concat(parts, 0) == [];
      assert [] + part == part + [];
    } else {
      ConcatCons(part, parts, n - 1);
      assert n <= |parts| ==> all[n] == parts[n - 1];
      Assoc(part, Concat(parts, n - 1), if n <= |parts| then parts[n - 1] else [], []);
    }
  }

  /** All parts together. */
  function Whole(parts: seq<string>): string {
    Concat(parts, |parts|)
  }

  lemma {:induction false} ConcatStops(parts: seq<string>, n: nat)
    requires |parts| <= n
    ensures Concat(parts, n) == Whole(parts)
  {
    if |parts| < n {
      ConcatStops(parts, n - 1);
    }
  }

  lemma {:induction false} AtMostWhole(parts: seq<string>, n: nat)
    ensures Concat(parts, n) <= Whole(parts)
  {
    if n <= |parts| {
      ConcatGrows(parts, n, |parts|);
    } else {
      ConcatStops(parts, n);
    }
  }

  /** Parts `i` to `j` together, both included. */
  function Span(parts: seq<string>, i: nat, j: nat): string
    requires i <= j
  {
    ConcatGrows(parts, i, j + 1);
    Concat(parts, j + 1)[|Concat(parts, i)|..]
  }

  /** What acceptance promises of a method whose stripped lines are `parts`: the range lies
      in the method, and its lines together contain the stripped quote. */
  ghost predicate Carries(parts: seq<string>, methodStart: nat, methodEnd: nat, range: Range, chars: string) {
    && methodStart <= range.start <= range.end <= methodEnd
    && Contains(Span(parts, range.start - methodStart, range.end - methodStart), chars)
  }

  /** `size` characters from `at` on lie within parts `i` to `j`. */
  ghost predicate Within(parts: seq<string>, i: nat, j: nat, at: nat, size: nat) {
    |Concat(parts, i)| <= at && at + size <= |Concat(parts, j + 1)|
  }

  /** The same as `Carries`, as a match in all stripped lines. */
  ghost predicate LocatedAt(parts: seq<string>, methodStart: nat, methodEnd: nat, range: Range, chars: string, at: nat) {
    && methodStart <= range.start <= range.end <= methodEnd
    && MatchesAt(Whole(parts), chars, at)
    && Within(parts, range.start - methodStart, range.end - methodStart, at, |chars|)
  }

  lemma MatchInSlice(whole: string, low: nat, high: nat, chars: string, at: nat)
    requires low <= at && at + |chars| <= high <= |whole| && MatchesAt(whole, chars, at)
    ensures Contains(whole[..high][low..], chars)
  {
    var slice := whole[..high][low..];
    forall k | 0 <= k < |chars| ensures slice[at - low..at - low + |chars|][k] == chars[k] {
      assert whole[at..at + |chars|][k] == whole[at + k];
    }
    assert slice[at - low..at - low + |chars|] == chars;
    assert MatchesAt(slice, chars, at - low);
  }

  lemma LocatedIsCarried(
      parts: seq<string>, methodStart: nat, methodEnd: nat, range: Range, chars: string, at: nat)
    requires LocatedAt(parts, methodStart, methodEnd, range, chars, at)
    ensures Carries(parts, methodStart, methodEnd, range, chars)
  {
    var i, j := range.start - methodStart, range.end - methodStart;
    var whole, upTo := Whole(parts), Concat(parts, j + 1);
    AtMostWhole(parts, j + 1);
    ConcatGrows(parts, i, j + 1);
    assert whole[..|upTo|] == upTo;
    MatchInSlice(whole, |Concat(parts, i)|, |upTo|, chars, at);
  }

  // ---------------------------------------------------------------------
  // The stripped lines are the stripped source
  // ---------------------------------------------------------------------

  lemma {:induction false} StripOfJoined(text: string, last: string)
    ensures Strip(text + "\n" + last) == Strip(text) + Strip(last)
  {
    StripConcat(text + "\n", last);
    StripConcat(text, "\n");
  }

  lemma {:induction false} LinesAfterNewline(line: string, text: string)
    requires text != [] && text[0] == '\n'
    ensures StripAll(LinesAfter(line, text)) == [Strip(line)] + StripAll(LinesAfter([], text[1..]))
  {
    var others := LinesAfter([], text[1..]);
    StripOfLine(line);
    StripAllConcat([StripCarriageReturn(line)], others);
    StripAllOne(StripCarriageReturn(line));
  }

  lemma {:induction false} OneLineKeepsText(line: string)
    ensures Concat(StripAll([line]), |StripAll([line])|) == Strip(line)
  {
    StripAllOne(line);
    assert Concat([Strip(line)], 0) == [];
  }

  lemma WholeCons(part: string, others: seq<string>)
    ensures Whole([part] + others) == part + Whole(others)
  {
    ConcatCons(part, others, |others|);
  }

  lemma {:induction false} WholeAfterNewline(line: string, text: string)
    requires text != [] && text[0] == '\n'
    ensures Whole(StripAll(LinesAfter(line, text))) == Strip(line) + Whole(StripAll(LinesAfter([], text[1..])))
  {
    LinesAfterNewline(line, text);
    WholeCons(Strip(line), StripAll(LinesAfter([], text[1..])));
  }

  lemma {:induction false} StripAtNewline(line: string, text: string)
    requires text != [] && text[0] == '\n'
    ensures Strip(line + text) == Strip(line) + Strip(text[1..])
  {
    assert line + text == line + "\n" + text[1..];
    StripOfJoined(line, text[1..]);
  }

  lemma {:induction false} LinesKeepText(line: string, text: string)
    ensures Whole(StripAll(LinesAfter(line, text))) == Strip(line + text)
    decreases |text|
  {
    if text == [] {
      assert line + text == line;
      if line != [] {
        OneLineKeepsText(line);
      }
    } else if text[0] == '\n' {
      LinesKeepText([], text[1..]);
      assert [] + text[1..] == text[1..];
      WholeAfterNewline(line, text);
      StripAtNewline(line, text);
    } else {
      LinesKeepText(line + [text[0]], text[1..]);
      assert line + [text[0]] + text[1..] == line + text;
    }
  }

  lemma {:induction false} StrippedLines(source: string)
    ensures Whole(StripAll(Lines(source))) == Strip(source)
  {
    LinesKeepText([], source);
    assert [] + source == source;
  }

  // ---------------------------------------------------------------------
  // Route 1: the declared range
  // ---------------------------------------------------------------------

  lemma {:induction false} ConcatPush(parts: seq<string>, part: string)
    ensures Concat(parts + [part], |parts| + 1) == Concat(parts, |parts|) + part
  {
    SameConcat(parts + [part], parts, |parts|);
  }

  /** One more part at the end, when the stripped parts before it are known. */
  lemma {:induction false} StripAllPush(before: seq<string>, last: string)
    ensures Concat(StripAll(before + [last]), |before| + 1) == Concat(StripAll(before), |before|) + Strip(last)
  {
    StripAllConcat(before, [last]);
    StripAllOne(last);
    StripAllLength(before);
    ConcatPush(StripAll(before), Strip(last));
  }

  lemma {:induction false} StripOfJoin(lines: seq<string>)
    ensures Strip(Join(lines)) == Concat(StripAll(lines), |lines|)
  {
    if lines != [] {
      var n := |lines| - 1;
      StripAllPush(lines[..n], lines[n]);
      assert lines == lines[..n] + [lines[n]];
      StripOfJoin(lines[..n]);
      if n > 0 {
        StripOfJoined(Join(lines[..n]), lines[n]);
      }
    }
  }

  lemma {:induction false} StrippedMatch(source: string, pattern: string, at: nat)
    requires MatchesAt(source, pattern, at)
    ensures MatchesAt(Strip(source), Strip(pattern), |Strip(source[..at])|)
  {
    var before, after := source[..at], source[at + |pattern|..];
    assert source == before + pattern + after;
    StripConcat(before + pattern, after);
    StripConcat(before, pattern);
  }

  lemma MatchMeansStrippedMatch(source: string, evidence: string) returns (at: nat)
    requires EvidenceMatchesSource(source, evidence)
    ensures MatchesAt(Strip(source), Strip(evidence), at)
  {
    var trimmed := Trim(evidence);
    StripOfTrim(evidence);
    if Contains(source, trimmed) {
      var k :| 0 <= k <= |source| && MatchesAt(source, trimmed, k);
      StrippedMatch(source, trimmed, k);
      at := |Strip(source[..k])|;
    } else {
      at :| 0 <= at <= |Strip(source)| && MatchesAt(Strip(source), Strip(trimmed), at);
    }
  }

  lemma {:induction false} StripAllSlice(lines: seq<string>, i: nat, j: nat)
    requires i <= j <= |lines|
    ensures |StripAll(lines)| == |lines| && StripAll(lines)[i..j] == StripAll(lines[i..j])
  {
    var slice := lines[i..j];
    assert lines == lines[..i] + (slice + lines[j..]);
    StripAllConcat(lines[..i], slice + lines[j..]);
    StripAllConcat(slice, lines[j..]);
    StripAllLength(lines[..i]);
    StripAllLength(slice);
    StripAllLength(lines);
  }

  lemma MatchBehind(low: string, slice: string, whole: string, chars: string, at: nat)
    requires low + slice <= whole && MatchesAt(slice, chars, at)
    ensures MatchesAt(whole, chars, |low| + at)
  {
    var from := |low| + at;
    forall k | 0 <= k < |chars| ensures whole[from..from + |chars|][k] == chars[k] {
      assert whole[from + k] == (low + slice)[from + k] == slice[at..at + |chars|][k];
    }
    assert whole[from..from + |chars|] == chars;
  }

  lemma {:induction false} SliceIsLocated(
      parts: seq<string>, methodStart: nat, methodEnd: nat, i: nat, j: nat, slice: string, chars: string, at: nat)
    requires i < j <= |parts| && methodStart + j <= methodEnd + 1
    requires slice == Concat(parts[i..j], j - i) && MatchesAt(slice, chars, at)
    ensures LocatedAt(parts, methodStart, methodEnd, Range(methodStart + i, methodStart + j - 1), chars,
                      |Concat(parts, i)| + at)
  {
    ConcatSlice(parts, i, j - i);
    AtMostWhole(parts, j);
    MatchBehind(Concat(parts, i), slice, Whole(parts), chars, at);
  }

  lemma {:induction false} StrippedSlice(lines: seq<string>, i: nat, j: nat)
    requires i <= j <= |lines|
    ensures |StripAll(lines)| == |lines|
    ensures Strip(Join(lines[i..j])) == Concat(StripAll(lines)[i..j], j - i)
  {
    StripOfJoin(lines[i..j]);
    StripAllSlice(lines, i, j);
  }

  /** The stripped lines of a range in a row. */
  function RangeText(parts: seq<string>, methodStart: nat, range: Range): string
    requires methodStart <= range.start <= range.end && range.end - methodStart < |parts|
  {
    Concat(parts[range.start - methodStart..range.end - methodStart + 1], range.end - range.start + 1)
  }

  lemma {:induction false} RangeIsLocated(
      parts: seq<string>, methodStart: nat, methodEnd: nat, range: Range, chars: string, at: nat)
    requires methodStart <= range.start <= range.end <= methodEnd && range.end - methodStart < |parts|
    requires MatchesAt(RangeText(parts, methodStart, range), chars, at)
    ensures LocatedAt(parts, methodStart, methodEnd, range, chars, |Concat(parts, range.start - methodStart)| + at)
  {
    SliceIsLocated(parts, methodStart, methodEnd, range.start - methodStart, range.end - methodStart + 1,
                   RangeText(parts, methodStart, range), chars, at);
  }

  lemma {:induction false} MatchInLines(lines: seq<string>, i: nat, j: nat, chars: string, at: nat)
    requires i <= j <= |lines| && MatchesAt(Strip(Join(lines[i..j])), chars, at)
    ensures |StripAll(lines)| == |lines| && MatchesAt(Concat(StripAll(lines)[i..j], j - i), chars, at)
  {
    StrippedSlice(lines, i, j);
  }

  lemma DeclaredMatch(
      source: string, methodStart: nat, methodEnd: nat, declared: Range, quote: string) returns (k: nat)
    requires DeclaredRangeHolds(source, methodStart, methodEnd, declared, quote)
    ensures methodStart <= declared.start <= declared.end <= methodEnd
    ensures declared.end - methodStart < |StripAll(Lines(source))|
    ensures MatchesAt(RangeText(StripAll(Lines(source)), methodStart, declared), Strip(quote), k)
  {
    var i, j := declared.start - methodStart, declared.end - methodStart + 1;
    k := MatchMeansStrippedMatch(Join(Lines(source)[i..j]), quote);
    MatchInLines(Lines(source), i, j, Strip(quote), k);
  }

  lemma DeclaredRangeIsLocated(
      source: string, methodStart: nat, methodEnd: nat, declared: Range, quote: string) returns (at: nat)
    requires DeclaredRangeHolds(source, methodStart, methodEnd, declared, quote)
    ensures LocatedAt(StripAll(Lines(source)), methodStart, methodEnd, declared, Strip(quote), at)
  {
    var k := DeclaredMatch(source, methodStart, methodEnd, declared, quote);
    RangeIsLocated(StripAll(Lines(source)), methodStart, methodEnd, declared, Strip(quote), k);
    at := |Concat(StripAll(Lines(source)), declared.start - methodStart)| + k;
  }

  // ---------------------------------------------------------------------
  // Route 2: exact matches
  // ---------------------------------------------------------------------

  lemma {:induction false} NewlinesConcat(a: string, b: string)
    ensures Newlines(a + b) == Newlines(a) + Newlines(b)
  {
    if b == [] {
      assert a + b == a;
    } else {
      assert (a + b)[..|a + b| - 1] == a + b[..|b| - 1];
      NewlinesConcat(a, b[..|b| - 1]);
    }
  }

  /** A position among all stripped characters that belongs to part `i`, or ends it. */
  ghost predicate AtPart(parts: seq<string>, i: nat, at: nat) {
    |Concat(parts, i)| <= at <= |Concat(parts, i + 1)|
  }

  /** The line being read keeps its text at the front of the first line. */
  lemma {:induction false} FirstLineStarts(line: string, text: string)
    ensures AtPart(StripAll(LinesAfter(line, text)), 0, |Strip(line)|)
    decreases |text|
  {
    var parts := StripAll(LinesAfter(line, text));
    assert Concat(parts, 0) == [];
    if text == [] {
      if line != [] {
        assert parts[0] == Strip(line);
      }
    } else if text[0] == '\n' {
      StripOfLine(line);
      assert parts[0] == Strip(line);
    } else {
      FirstLineStarts(line + [text[0]], text[1..]);
      StripConcat(line, [text[0]]);
    }
  }

  lemma AtLaterPart(part: string, others: seq<string>, i: nat, at: nat)
    requires AtPart(others, i, at)
    ensures AtPart([part] + others, i + 1, |part| + at)
  {
    ConcatCons(part, others, i);
    ConcatCons(part, others, i + 1);
  }

  lemma NewlinesAfter(text: string, p: nat)
    requires 0 < p <= |text|
    ensures Newlines(text[..p]) == (if text[0] == '\n' then 1 else 0) + Newlines(text[1..][..p - 1])
  {
    assert text[..p] == [text[0]] + text[1..][..p - 1];
    NewlinesConcat([text[0]], text[1..][..p - 1]);
    assert [text[0]][..0] == [];
  }

  lemma {:induction false} StripAfterNewline(line: string, text: string, p: nat)
    requires 0 < p <= |text| && text[0] == '\n'
    ensures Strip(line + text[..p]) == Strip(line) + Strip(text[1..][..p - 1])
  {
    assert line + text[..p] == line + "\n" + text[1..][..p - 1];
    StripOfJoined(line, text[1..][..p - 1]);
  }

  /** The end of a text lies on the line that its newlines count. */
  ghost predicate EndsAtPart(parts: seq<string>, text: string, size: nat) {
    AtPart(parts, Newlines(text), size)
  }

  lemma {:induction false} OffsetAfterNewline(line: string, text: string, p: nat)
    requires 0 < p <= |text| && text[0] == '\n'
    requires EndsAtPart(StripAll(LinesAfter([], text[1..])), text[1..][..p - 1], |Strip(text[1..][..p - 1])|)
    ensures EndsAtPart(StripAll(LinesAfter(line, text)), text[..p], |Strip(line + text[..p])|)
  {
    var rest := text[1..][..p - 1];
    AtLaterPart(Strip(line), StripAll(LinesAfter([], text[1..])), Newlines(rest), |Strip(rest)|);
    LinesAfterNewline(line, text);
    NewlinesAfter(text, p);
    StripAfterNewline(line, text, p);
  }

  lemma FirstCharMoves(line: string, text: string, p: nat)
    requires 0 < p <= |text|
    ensures line + [text[0]] + text[1..][..p - 1] == line + text[..p]
  {
  }

  lemma {:induction false} OffsetAtFirst(line: string, text: string)
    ensures EndsAtPart(StripAll(LinesAfter(line, text)), text[..0], |Strip(line + text[..0])|)
  {
    assert line + text[..0] == line;
    FirstLineStarts(line, text);
  }

  /** Up to an offset, the stripped text is all earlier lines and a part of its own line. */
  lemma {:induction false} OffsetAtPart(line: string, text: string, p: nat)
    requires p <= |text|
    ensures EndsAtPart(StripAll(LinesAfter(line, text)), text[..p], |Strip(line + text[..p])|)
    decreases |text|
  {
    if p == 0 {
      OffsetAtFirst(line, text);
    } else if text[0] == '\n' {
      OffsetAtPart([], text[1..], p - 1);
      EmptyPrefix(text[1..][..p - 1]);
      OffsetAfterNewline(line, text, p);
    } else {
      NewlinesAfter(text, p);
      OffsetAtPart(line + [text[0]], text[1..], p - 1);
      FirstCharMoves(line, text, p);
    }
  }

  lemma EmptyPrefix(text: string)
    ensures [] + text == text
  {
  }

  lemma OffsetAtLine(source: string, p: nat)
    requires p <= |source|
    ensures EndsAtPart(StripAll(Lines(source)), source[..p], |Strip(source[..p])|)
  {
    OffsetAtPart([], source, p);
    EmptyPrefix(source[..p]);
  }

  /** A quote lies between the lines its two ends are on. */
  lemma {:induction false} EndsAreWithin(parts: seq<string>, before: string, quote: string)
    requires EndsAtPart(parts, before, |Strip(before)|) && EndsAtPart(parts, before + quote, |Strip(before + quote)|)
    ensures Within(parts, Newlines(before), Newlines(before) + Newlines(quote), |Strip(before)|, |Strip(quote)|)
  {
    NewlinesConcat(before, quote);
    StripConcat(before, quote);
  }

  lemma {:induction false} MatchIsWithin(source: string, quote: string, offset: nat)
    requires MatchesAt(source, quote, offset)
    ensures var i := Newlines(source[..offset]);
            Within(StripAll(Lines(source)), i, i + Newlines(quote), |Strip(source[..offset])|, |Strip(quote)|)
  {
    OffsetAtLine(source, offset);
    OffsetAtLine(source, offset + |quote|);
    assert source[..offset + |quote|] == source[..offset] + quote;
    EndsAreWithin(StripAll(Lines(source)), source[..offset], quote);
  }

  lemma LocatedFrom(
      parts: seq<string>, methodStart: nat, methodEnd: nat, before: nat, inside: nat, chars: string, at: nat)
    requires MatchesAt(Whole(parts), chars, at) && Within(parts, before, before + inside, at, |chars|)
    requires methodStart + before + inside <= methodEnd
    ensures LocatedAt(parts, methodStart, methodEnd, Range(methodStart + before, methodStart + before + inside), chars, at)
  {
  }

  lemma {:induction false} ExactMatchIsLocated(source: string, methodStart: nat, methodEnd: nat, quote: string, offset: nat)
    requires MatchesAt(source, quote, offset)
    requires InMethod(methodStart, methodEnd, MatchRange(source, methodStart, quote, offset))
    ensures LocatedAt(StripAll(Lines(source)), methodStart, methodEnd, MatchRange(source, methodStart, quote, offset),
                      Strip(quote), |Strip(source[..offset])|)
  {
    StrippedMatch(source, quote, offset);
    StrippedLines(source);
    MatchIsWithin(source, quote, offset);
    LocatedFrom(StripAll(Lines(source)), methodStart, methodEnd, Newlines(source[..offset]), Newlines(quote),
                Strip(quote), |Strip(source[..offset])|);
  }

  lemma {:induction false} ExactLocationIsMatch(
      source: string, methodStart: nat, methodEnd: nat, quote: string, offsets: seq<nat>, n: nat, k: nat) returns (i: nat)
    requires n <= |offsets| && forall j :: 0 <= j < |offsets| ==> offsets[j] <= |source|
    requires k < |ExactLocations(source, methodStart, methodEnd, quote, offsets, n)|
    ensures i < n
    ensures var range := MatchRange(source, methodStart, quote, offsets[i]);
            ExactLocations(source, methodStart, methodEnd, quote, offsets, n)[k] == range
            && InMethod(methodStart, methodEnd, range)
  {
    if k < |ExactLocations(source, methodStart, methodEnd, quote, offsets, n - 1)| {
      i := ExactLocationIsMatch(source, methodStart, methodEnd, quote, offsets, n - 1, k);
    } else {
      i := n - 1;
    }
  }

  lemma ExactLocationsAreLocated(
      source: string, methodStart: nat, methodEnd: nat, quote: string, k: nat) returns (at: nat)
    requires var offsets := MatchOffsets(source, quote);
             k < |ExactLocations(source, methodStart, methodEnd, quote, offsets, |offsets|)|
    ensures var offsets := MatchOffsets(source, quote);
            LocatedAt(StripAll(Lines(source)), methodStart, methodEnd,
                      ExactLocations(source, methodStart, methodEnd, quote, offsets, |offsets|)[k], Strip(quote), at)
  {
    var offsets := MatchOffsets(source, quote);
    var i := ExactLocationIsMatch(source, methodStart, methodEnd, quote, offsets, |offsets|, k);
    ExactMatchIsLocated(source, methodStart, methodEnd, quote, offsets[i]);
    at := |Strip(source[..offsets[i]])|;
  }

  // ---------------------------------------------------------------------
  // Route 3: matches of the stripped quote
  // ---------------------------------------------------------------------

  /** A tagged character stands where its part contributes to the whole. */
  ghost predicate TagOk(parts: seq<string>, first: nat, c: (char, nat), k: nat) {
    && first <= c.1 < first + |parts|
    && |Concat(parts, c.1 - first)| <= k < |Concat(parts, c.1 - first + 1)|
  }

  lemma {:induction false} TagsSpell(parts: seq<string>, first: nat)
    ensures |Tagged(parts, first)| == |Concat(parts, |parts|)|
    ensures forall k :: 0 <= k < |Tagged(parts, first)| ==> Tagged(parts, first)[k].0 == Concat(parts, |parts|)[k]
  {
    if parts != [] {
      var n := |parts| - 1;
      TagsSpell(parts[..n], first);
      SameConcat(parts, parts[..n], n);
    }
  }

  lemma {:induction false} TagsAreOk(parts: seq<string>, first: nat)
    ensures forall k :: 0 <= k < |Tagged(parts, first)| ==> TagOk(parts, first, Tagged(parts, first)[k], k)
  {
    if parts != [] {
      var n := |parts| - 1;
      var shorter := parts[..n];
      TagsAreOk(shorter, first);
      TagsSpell(shorter, first);
      SameConcat(parts, shorter, n);
      var all, before := Tagged(parts, first), Tagged(shorter, first);
      forall k | 0 <= k < |all| ensures TagOk(parts, first, all[k], k) {
        if k < |before| {
          assert TagOk(shorter, first, before[k], k);
          var l := before[k].1 - first;
          SameConcat(parts, shorter, l);
          SameConcat(parts, shorter, l + 1);
        }
      }
    }
  }

  lemma TagsAreOrdered(parts: seq<string>, first: nat, a: (char, nat), k: nat, b: (char, nat), l: nat)
    requires TagOk(parts, first, a, k) && TagOk(parts, first, b, l) && k <= l
    ensures a.1 <= b.1
  {
    if b.1 < a.1 {
      ConcatGrows(parts, b.1 - first + 1, a.1 - first);
    }
  }

  lemma TagAt(parts: seq<string>, first: nat, k: nat) returns (i: nat)
    requires k < |Tagged(parts, first)|
    ensures TagOk(parts, first, Tagged(parts, first)[k], k)
    ensures Tagged(parts, first)[k].1 == first + i
  {
    TagsAreOk(parts, first);
    assert TagOk(parts, first, Tagged(parts, first)[k], k);
    i := Tagged(parts, first)[k].1 - first;
  }

  lemma TagsAreWithin(
      parts: seq<string>, first: nat, a: (char, nat), at: nat, b: (char, nat), last: nat, i: nat, j: nat)
    requires TagOk(parts, first, a, at) && TagOk(parts, first, b, last) && at <= last
    requires a.1 == first + i && b.1 == first + j
    ensures i <= j && Within(parts, i, j, at, last + 1 - at)
  {
    TagsAreOrdered(parts, first, a, at, b, last);
  }

  lemma WindowIsWithin(parts: seq<string>, first: nat, at: nat, last: nat) returns (i: nat, j: nat)
    requires at <= last < |Tagged(parts, first)|
    ensures Tagged(parts, first)[at].1 == first + i && Tagged(parts, first)[last].1 == first + j
    ensures i <= j && Within(parts, i, j, at, last + 1 - at)
  {
    i := TagAt(parts, first, at);
    j := TagAt(parts, first, last);
    TagsAreWithin(parts, first, Tagged(parts, first)[at], at, Tagged(parts, first)[last], last, i, j);
  }

  lemma {:induction false} TaggedMatch(parts: seq<string>, first: nat, chars: string, at: nat)
    ensures WindowMatches(Tagged(parts, first), at, chars) <==> MatchesAt(Whole(parts), chars, at)
    ensures |Tagged(parts, first)| == |Whole(parts)|
  {
    TagsSpell(parts, first);
  }

  /** A window of tagged characters lies in the parts its two ends are tagged with. */
  lemma {:induction false} WindowIsLocated(parts: seq<string>, methodStart: nat, methodEnd: nat, chars: string, at: nat)
    requires chars != [] && WindowMatches(Tagged(parts, methodStart), at, chars)
    requires Tagged(parts, methodStart)[at + |chars| - 1].1 <= methodEnd
    ensures var tagged := Tagged(parts, methodStart);
            LocatedAt(parts, methodStart, methodEnd, Range(tagged[at].1, tagged[at + |chars| - 1].1), chars, at)
  {
    var i, j := WindowIsWithin(parts, methodStart, at, at + |chars| - 1);
    TaggedMatch(parts, methodStart, chars, at);
  }

  lemma {:induction false} WindowLocationIsWindow(
      chars: seq<(char, nat)>, quoteChars: string, methodStart: nat, methodEnd: nat, from: nat, k: nat) returns (at: nat)
    requires quoteChars != [] && k < |WindowLocations(chars, quoteChars, methodStart, methodEnd, from)|
    ensures WindowMatches(chars, at, quoteChars)
    ensures WindowLocations(chars, quoteChars, methodStart, methodEnd, from)[k]
         == Range(chars[at].1, chars[at + |quoteChars| - 1].1)
    ensures chars[at + |quoteChars| - 1].1 <= methodEnd
    decreases |chars| - from
  {
    var start, end := chars[from].1, chars[from + |quoteChars| - 1].1;
    if WindowMatches(chars, from, quoteChars) && start >= methodStart && end <= methodEnd {
      if k == 0 {
        at := from;
      } else {
        at := WindowLocationIsWindow(chars, quoteChars, methodStart, methodEnd, from + 1, k - 1);
      }
    } else {
      at := WindowLocationIsWindow(chars, quoteChars, methodStart, methodEnd, from + 1, k);
    }
  }

  lemma NormalizedLocationsAreLocated(
      source: string, methodStart: nat, methodEnd: nat, quote: string, k: nat) returns (at: nat)
    requires k < |NormalizedEvidenceLocations(source, methodStart, methodEnd, quote)|
    ensures LocatedAt(StripAll(Lines(source)), methodStart, methodEnd,
                      NormalizedEvidenceLocations(source, methodStart, methodEnd, quote)[k], Strip(quote), at)
  {
    var parts := StripAll(Lines(source));
    at := WindowLocationIsWindow(Tagged(parts, methodStart), Strip(quote), methodStart, methodEnd, 0, k);
    WindowIsLocated(parts, methodStart, methodEnd, Strip(quote), at);
  }

  lemma AcceptedRangesAreLocated(
      source: string, methodStart: nat, methodEnd: nat, declared: Range, quote: string) returns (at: nat)
    requires CanonicalEvidenceRange(source, methodStart, methodEnd, declared, quote).Success?
    ensures LocatedAt(StripAll(Lines(source)), methodStart, methodEnd,
                      CanonicalEvidenceRange(source, methodStart, methodEnd, declared, quote).value, Strip(quote), at)
  {
    if DeclaredRangeHolds(source, methodStart, methodEnd, declared, quote) {
      at := DeclaredRangeIsLocated(source, methodStart, methodEnd, declared, quote);
    } else {
      var offsets := MatchOffsets(source, quote);
      if |ExactLocations(source, methodStart, methodEnd, quote, offsets, |offsets|)| == 1 {
        at := ExactLocationsAreLocated(source, methodStart, methodEnd, quote, 0);
      } else {
        at := NormalizedLocationsAreLocated(source, methodStart, methodEnd, quote, 0);
      }
    }
  }

  /** Every accepted evidence range is real, whichever search route found it: it lies in the
      method, and the text of exactly its lines contains the quote, white space aside. */
  lemma {:induction false} AcceptedRangesAreReal(
      source: string, methodStart: nat, methodEnd: nat, declared: Range, quote: string)
    requires CanonicalEvidenceRange(source, methodStart, methodEnd, declared, quote).Success?
    ensures Carries(StripAll(Lines(source)), methodStart, methodEnd,
                    CanonicalEvidenceRange(source, methodStart, methodEnd, declared, quote).value, Strip(quote))
  {
    var at := AcceptedRangesAreLocated(source, methodStart, methodEnd, declared, quote);
    LocatedIsCarried(StripAll(Lines(source)), methodStart, methodEnd,
                     CanonicalEvidenceRange(source, methodStart, methodEnd, declared, quote).value, Strip(quote), at);
  }

  // ---------------------------------------------------------------------
  // Nothing is missed
  // ---------------------------------------------------------------------

  lemma {:induction false} WindowIsFound(
      chars: seq<(char, nat)>, quoteChars: string, methodStart: nat, methodEnd: nat, from: nat, at: nat)
    requires quoteChars != [] && from <= at && WindowMatches(chars, at, quoteChars)
    requires methodStart <= chars[at].1 && chars[at + |quoteChars| - 1].1 <= methodEnd
    ensures WindowLocations(chars, quoteChars, methodStart, methodEnd, from) != []
    decreases at - from
  {
    if from < at {
      WindowIsFound(chars, quoteChars, methodStart, methodEnd, from + 1, at);
    }
  }

  lemma {:induction false} TagBelow(parts: seq<string>, first: nat, k: nat)
    requires k < |Tagged(parts, first)|
    ensures first <= Tagged(parts, first)[k].1 < first + |parts|
  {
    TagsAreOk(parts, first);
    assert TagOk(parts, first, Tagged(parts, first)[k], k);
  }

  lemma ContainedIsWindow(parts: seq<string>, first: nat, quoteChars: string) returns (at: nat)
    requires quoteChars != [] && Contains(Whole(parts), quoteChars)
    ensures WindowMatches(Tagged(parts, first), at, quoteChars)
    ensures first <= Tagged(parts, first)[at].1
    ensures Tagged(parts, first)[at + |quoteChars| - 1].1 < first + |parts|
  {
    at :| 0 <= at <= |Whole(parts)| && MatchesAt(Whole(parts), quoteChars, at);
    TaggedMatch(parts, first, quoteChars, at);
    TagBelow(parts, first, at);
    TagBelow(parts, first, at + |quoteChars| - 1);
  }

  lemma {:induction false} ContainedIsLocated(source: string, methodStart: nat, methodEnd: nat, quote: string)
    requires methodStart + |Lines(source)| <= methodEnd + 1
    requires Strip(quote) != [] && Contains(Strip(source), Strip(quote))
    ensures NormalizedEvidenceLocations(source, methodStart, methodEnd, quote) != []
  {
    StripAllLength(Lines(source));
    StrippedLines(source);
    var at := ContainedIsWindow(StripAll(Lines(source)), methodStart, Strip(quote));
    WindowIsFound(SourceChars(Lines(source), methodStart), Strip(quote), methodStart, methodEnd, 0, at);
  }

  lemma {:induction false} LocatedOccurs(
      source: string, methodStart: nat, methodEnd: nat, range: Range, chars: string, at: nat)
    requires LocatedAt(StripAll(Lines(source)), methodStart, methodEnd, range, chars, at)
    ensures Contains(Strip(source), chars)
  {
    StrippedLines(source);
  }

  lemma {:induction false} LocatedIsContained(
      source: string, methodStart: nat, methodEnd: nat, declared: Range, quote: string)
    requires Strip(quote) != []
    requires CanonicalEvidenceRange(source, methodStart, methodEnd, declared, quote) != Failure(NotInRange)
    ensures Contains(Strip(source), Strip(quote))
  {
    var result := CanonicalEvidenceRange(source, methodStart, methodEnd, declared, quote);
    var offsets := MatchOffsets(source, quote);
    var exact := ExactLocations(source, methodStart, methodEnd, quote, offsets, |offsets|);
    if result.Success? {
      var at := AcceptedRangesAreLocated(source, methodStart, methodEnd, declared, quote);
      LocatedOccurs(source, methodStart, methodEnd, result.value, Strip(quote), at);
    } else if exact != [] {
      var at := ExactLocationsAreLocated(source, methodStart, methodEnd, quote, 0);
      LocatedOccurs(source, methodStart, methodEnd, exact[0], Strip(quote), at);
    } else {
      var at := NormalizedLocationsAreLocated(source, methodStart, methodEnd, quote, 0);
      LocatedOccurs(source, methodStart, methodEnd,
        NormalizedEvidenceLocations(source, methodStart, methodEnd, quote)[0], Strip(quote), at);
    }
  }

  /** A quote with any visible text is reported as missing exactly when, white space aside,
      it occurs nowhere in the method. */
  lemma {:induction false} MissingExactlyWhenAbsent(source: string, methodStart: nat, methodEnd: nat, declared: Range, quote: string)
    requires methodStart + |Lines(source)| <= methodEnd + 1
    requires Strip(quote) != []
    ensures CanonicalEvidenceRange(source, methodStart, methodEnd, declared, quote) == Failure(NotInRange)
       <==> !Contains(Strip(source), Strip(quote))
  {
    if CanonicalEvidenceRange(source, methodStart, methodEnd, declared, quote) != Failure(NotInRange) {
      LocatedIsContained(source, methodStart, methodEnd, declared, quote);
    } else if Contains(Strip(source), Strip(quote)) {
      ContainedIsLocated(source, methodStart, methodEnd, quote);
    }
  }
}
