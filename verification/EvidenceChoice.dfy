/** Which range an evidence quote is given. */
module EvidenceChoice {
  import opened Wrappers
  import opened Text
  import opened EvidenceRange

  // `EvidenceRange` shows that an accepted range carries the quote. Here is which range is
  // accepted, and when none is (`canonical_evidence_range` in src/analyzer_result.rs).

  // ---------------------------------------------------------------------
  // The declared range
  // ---------------------------------------------------------------------

  lemma {:induction false} MatchesExactlyWhen(source: string, evidence: string)
    ensures EvidenceMatchesSource(source, evidence) <==> !IsBlank(evidence) && Contains(Strip(source), Strip(evidence))
  {
    var a, b := TrimCuts(evidence);
    StripOfTrim(evidence);
    StripOfBlank(evidence);
    if EvidenceMatchesSource(source, evidence) {
      var at := MatchMeansStrippedMatch(source, evidence);
      assert 0 <= at <= |Strip(source)|;
    }
  }

  /** The lines `from` to `to` of the source, counted from 0. */
  function TextOf(source: string, from: nat, to: nat): string
    requires from <= to < |Lines(source)|
  {
    Join(Lines(source)[from..to + 1])
  }

  /** The declared range lies in the method and, white space aside, its own lines contain the
      quote. */
  ghost predicate IsQuotedByDeclared(source: string, methodStart: nat, methodEnd: nat, declared: Range, quote: string) {
    && methodStart <= declared.start <= declared.end <= methodEnd
    && declared.end - methodStart < |Lines(source)| && !IsBlank(quote)
    && Contains(Strip(TextOf(source, declared.start - methodStart, declared.end - methodStart)), Strip(quote))
  }

  lemma DeclaredStandsExactlyWhen(source: string, methodStart: nat, methodEnd: nat, declared: Range, quote: string)
    ensures DeclaredRangeHolds(source, methodStart, methodEnd, declared, quote)
       <==> IsQuotedByDeclared(source, methodStart, methodEnd, declared, quote)
  {
    if methodStart <= declared.start <= declared.end && declared.end - methodStart < |Lines(source)| {
      MatchesExactlyWhen(TextOf(source, declared.start - methodStart, declared.end - methodStart), quote);
    }
  }

  /** A declared range that its own lines bear out stands, whatever else the method contains. */
  lemma DeclaredComesFirst(source: string, methodStart: nat, methodEnd: nat, declared: Range, quote: string)
    requires IsQuotedByDeclared(source, methodStart, methodEnd, declared, quote)
    ensures CanonicalEvidenceRange(source, methodStart, methodEnd, declared, quote) == Success(declared)
  {
    DeclaredStandsExactlyWhen(source, methodStart, methodEnd, declared, quote);
  }

  // ---------------------------------------------------------------------
  // The line of a character
  // ---------------------------------------------------------------------

  /** The number of the line that position `p` is on. */
  function LineOf(source: string, methodStart: nat, p: nat): nat
    requires p <= |source|
  {
    methodStart + Newlines(source[..p])
  }

  lemma {:induction false} StripPush(s: string, c: char)
    ensures Strip(s + [c]) == Strip(s) + if IsWhitespace(c) then [] else [c]
    ensures Newlines(s + [c]) == Newlines(s) + if c == '\n' then 1 else 0
  {
    assert (s + [c])[..|s|] == s;
  }

  lemma SamePart(parts: seq<string>, i: nat, j: nat, k: nat)
    requires |Concat(parts, i)| <= k < |Concat(parts, i + 1)| && |Concat(parts, j)| <= k < |Concat(parts, j + 1)|
    ensures i == j
  {
    if i < j {
      ConcatGrows(parts, i + 1, j);
    } else if j < i {
      ConcatGrows(parts, j + 1, i);
    }
  }

  /** Among all stripped characters, a visible one belongs to its own line. */
  lemma {:induction false} VisibleIsInPart(source: string, p: nat)
    requires p < |source| && !IsWhitespace(source[p])
    ensures var parts, k, i := StripAll(Lines(source)), |Strip(source[..p])|, Newlines(source[..p]);
            |Concat(parts, i)| <= k < |Concat(parts, i + 1)|
  {
    assert source[..p + 1] == source[..p] + [source[p]];
    StripPush(source[..p], source[p]);
    OffsetAtLine(source, p);
    OffsetAtLine(source, p + 1);
  }

  /** A visible character is tagged with its own line. */
  lemma {:induction false} TagIsLine(source: string, methodStart: nat, p: nat)
    requires p < |source| && !IsWhitespace(source[p])
    ensures |Strip(source[..p])| < |SourceChars(Lines(source), methodStart)|
    ensures SourceChars(Lines(source), methodStart)[|Strip(source[..p])|].1 == LineOf(source, methodStart, p)
  {
    VisibleIsInPart(source, p);
    TagOfPart(StripAll(Lines(source)), methodStart, |Strip(source[..p])|, Newlines(source[..p]));
  }

  lemma TagOfPart(parts: seq<string>, first: nat, k: nat, i: nat)
    requires |Concat(parts, i)| <= k < |Concat(parts, i + 1)|
    ensures k < |Tagged(parts, first)| && Tagged(parts, first)[k].1 == first + i
  {
    AtMostWhole(parts, i + 1);
    TaggedMatch(parts, first, [], 0);
    var j := TagAt(parts, first, k);
    SamePart(parts, i, j, k);
  }

  /** Every stripped character is a visible one of the source. */
  lemma {:induction false} VisibleAt(source: string, k: nat) returns (p: nat)
    requires k < |Strip(source)|
    ensures p < |source| && !IsWhitespace(source[p]) && |Strip(source[..p])| == k
  {
    var n := |source| - 1;
    if k < |Strip(source[..n])| {
      p := VisibleAt(source[..n], k);
      assert source[..n][..p] == source[..p];
    } else {
      p := n;
    }
  }

  lemma StripOfParts(before: string, middle: string, c: char, after: string)
    requires !IsWhitespace(c)
    ensures var whole := before + (middle + [c]) + after;
            && Strip(whole) == Strip(before) + Strip(middle + [c]) + Strip(after)
            && |Strip(before + middle)| + 1 == |Strip(before)| + |Strip(middle + [c])|
  {
    StripConcat(before + (middle + [c]), after);
    StripConcat(before, middle + [c]);
    StripConcat(before, middle);
    StripPush(middle, c);
  }

  lemma StripOfSlice(source: string, a: nat, b: nat)
    requires a <= b < |source| && !IsWhitespace(source[b])
    ensures |Strip(source[..a])| <= |Strip(source[..b])| < |Strip(source)|
    ensures Strip(source[a..b + 1]) == Strip(source)[|Strip(source[..a])|..|Strip(source[..b])| + 1]
  {
    var before, middle, after := source[..a], source[a..b], source[b + 1..];
    assert source[a..b + 1] == middle + [source[b]] && source[..b] == before + middle;
    assert source == before + (middle + [source[b]]) + after;
    StripOfParts(before, middle, source[b], after);
    StripPush(middle, source[b]);
  }

  lemma {:induction false} LaterIsBehind(source: string, b: nat, a: nat)
    requires b < a <= |source| && !IsWhitespace(source[b])
    ensures |Strip(source[..b])| < |Strip(source[..a])|
  {
    assert source[..a] == source[..b] + [source[b]] + source[b + 1..a];
    StripConcat(source[..b] + [source[b]], source[b + 1..a]);
    StripPush(source[..b], source[b]);
  }

  // ---------------------------------------------------------------------
  // The range is where the quote is
  // ---------------------------------------------------------------------

  /** The quote, character for character, from the first of these lines to the last. */
  ghost predicate QuotedAt(source: string, methodStart: nat, quote: string, range: Range, a: nat) {
    && MatchesAt(source, quote, a)
    && range.start == LineOf(source, methodStart, a) && range.end == LineOf(source, methodStart, a + |quote|)
  }

  /** The quote, white space aside, from a visible character on the first of these lines to one
      on the last. */
  ghost predicate SpelledAt(source: string, methodStart: nat, quote: string, range: Range, a: nat, b: nat) {
    && a <= b < |source| && !IsWhitespace(source[a]) && !IsWhitespace(source[b])
    && Strip(source[a..b + 1]) == Strip(quote)
    && range.start == LineOf(source, methodStart, a) && range.end == LineOf(source, methodStart, b)
  }

  lemma QuotedRange(source: string, methodStart: nat, quote: string, a: nat)
    requires MatchesAt(source, quote, a)
    ensures QuotedAt(source, methodStart, quote, MatchRange(source, methodStart, quote, a), a)
  {
    assert source[..a + |quote|] == source[..a] + quote;
    NewlinesConcat(source[..a], quote);
  }

  /** A window of stripped characters spans the lines of its first and its last one. */
  lemma {:induction false} WindowIsSpelled(source: string, methodStart: nat, quote: string, at: nat) returns (a: nat, b: nat)
    requires Strip(quote) != [] && WindowMatches(SourceChars(Lines(source), methodStart), at, Strip(quote))
    ensures var chars := SourceChars(Lines(source), methodStart);
            SpelledAt(source, methodStart, quote, Range(chars[at].1, chars[at + |Strip(quote)| - 1].1), a, b)
  {
    var n := |Strip(quote)|;
    StrippedLines(source);
    TaggedMatch(StripAll(Lines(source)), methodStart, Strip(quote), at);
    a := VisibleAt(source, at);
    b := VisibleAt(source, at + n - 1);
    TagIsLine(source, methodStart, a);
    TagIsLine(source, methodStart, b);
    if b < a {
      LaterIsBehind(source, b, a);
    }
    StripOfSlice(source, a, b);
  }

  /** A range that was not declared is exactly where the quote is: its first line holds the
      first character of the quote and its last line the last one. */
  lemma AcceptedRangesAreExact(source: string, methodStart: nat, methodEnd: nat, declared: Range, quote: string)
    requires CanonicalEvidenceRange(source, methodStart, methodEnd, declared, quote).Success?
    requires !IsQuotedByDeclared(source, methodStart, methodEnd, declared, quote)
    ensures var range := CanonicalEvidenceRange(source, methodStart, methodEnd, declared, quote).value;
            || (exists a: nat :: QuotedAt(source, methodStart, quote, range, a))
            || (exists a: nat, b: nat :: SpelledAt(source, methodStart, quote, range, a, b))
  {
    DeclaredStandsExactlyWhen(source, methodStart, methodEnd, declared, quote);
    var offsets := MatchOffsets(source, quote);
    if |ExactLocations(source, methodStart, methodEnd, quote, offsets, |offsets|)| == 1 {
      var i := ExactLocationIsMatch(source, methodStart, methodEnd, quote, offsets, |offsets|, 0);
      QuotedRange(source, methodStart, quote, offsets[i]);
    } else {
      var at := WindowLocationIsWindow(SourceChars(Lines(source), methodStart), Strip(quote), methodStart, methodEnd, 0, 0);
      var a, b := WindowIsSpelled(source, methodStart, quote, at);
    }
  }

  // ---------------------------------------------------------------------
  // One occurrence or several
  // ---------------------------------------------------------------------

  lemma {:induction false} OnlyMatchIsFound(source: string, quote: string, from: nat, a: nat)
    requires quote != [] && from <= a && MatchesAt(source, quote, a)
    requires forall o: nat :: MatchesAt(source, quote, o) ==> o == a
    ensures MatchIndices(source, quote, from) == [a]
    decreases a - from
  {
    if from < a {
      OnlyMatchIsFound(source, quote, from + 1, a);
    } else {
      NothingBehind(source, quote, a + |quote|);
    }
  }

  lemma {:induction false} NothingBehind(source: string, quote: string, from: nat)
    requires quote != [] && forall o: nat :: from <= o ==> !MatchesAt(source, quote, o)
    ensures MatchIndices(source, quote, from) == []
    decreases |source| + 1 - from
  {
    if from + |quote| <= |source| {
      NothingBehind(source, quote, from + 1);
    }
  }

  /** A quote that stands once in the source is accepted where it stands. */
  lemma OneOccurrenceIsAccepted(source: string, methodStart: nat, methodEnd: nat, declared: Range, quote: string, a: nat)
    requires !IsQuotedByDeclared(source, methodStart, methodEnd, declared, quote)
    requires quote != [] && MatchesAt(source, quote, a) && LineOf(source, methodStart, a + |quote|) <= methodEnd
    requires forall o: nat :: MatchesAt(source, quote, o) ==> o == a
    ensures CanonicalEvidenceRange(source, methodStart, methodEnd, declared, quote)
         == Success(Range(LineOf(source, methodStart, a), LineOf(source, methodStart, a + |quote|)))
  {
    DeclaredStandsExactlyWhen(source, methodStart, methodEnd, declared, quote);
    OnlyMatchIsFound(source, quote, 0, a);
    QuotedRange(source, methodStart, quote, a);
    var offsets := MatchOffsets(source, quote);
    assert ExactLocations(source, methodStart, methodEnd, quote, offsets, 0) == [];
    assert ExactLocations(source, methodStart, methodEnd, quote, offsets, 1) == [MatchRange(source, methodStart, quote, a)];
  }

  /** Two matches that do not overlap make the leftmost search find two, none behind the second. */
  lemma {:induction false} TwoMatchesAreFound(source: string, quote: string, from: nat, a: nat, b: nat)
    requires quote != [] && from <= a && a + |quote| <= b && MatchesAt(source, quote, a) && MatchesAt(source, quote, b)
    ensures var found := MatchIndices(source, quote, from);
            |found| >= 2 && found[0] <= a && found[1] <= b
    decreases a - from
  {
    if MatchesAt(source, quote, from) {
      FirstIsFound(source, quote, from + |quote|, b);
    } else {
      TwoMatchesAreFound(source, quote, from + 1, a, b);
    }
  }

  lemma {:induction false} FirstIsFound(source: string, quote: string, from: nat, b: nat)
    requires quote != [] && from <= b && MatchesAt(source, quote, b)
    ensures MatchIndices(source, quote, from) != [] && MatchIndices(source, quote, from)[0] <= b
    decreases b - from
  {
    if !MatchesAt(source, quote, from) {
      FirstIsFound(source, quote, from + 1, b);
    }
  }

  lemma {:induction false} ExactLocationsKeepFirst(
      source: string, methodStart: nat, methodEnd: nat, quote: string, offsets: seq<nat>, n: nat)
    requires 2 <= n <= |offsets| && forall j :: 0 <= j < |offsets| ==> offsets[j] <= |source|
    requires InMethod(methodStart, methodEnd, MatchRange(source, methodStart, quote, offsets[0]))
    requires InMethod(methodStart, methodEnd, MatchRange(source, methodStart, quote, offsets[1]))
    ensures |ExactLocations(source, methodStart, methodEnd, quote, offsets, n)| >= 2
  {
    if n == 2 {
      assert ExactLocations(source, methodStart, methodEnd, quote, offsets, 0) == [];
      assert |ExactLocations(source, methodStart, methodEnd, quote, offsets, 1)| == 1;
    } else {
      ExactLocationsKeepFirst(source, methodStart, methodEnd, quote, offsets, n - 1);
    }
  }

  lemma {:induction false} EarlierIsInMethod(source: string, methodStart: nat, methodEnd: nat, quote: string, a: nat, b: nat)
    requires a <= b && MatchesAt(source, quote, a) && MatchesAt(source, quote, b)
    requires LineOf(source, methodStart, b + |quote|) <= methodEnd
    ensures InMethod(methodStart, methodEnd, MatchRange(source, methodStart, quote, a))
  {
    QuotedRange(source, methodStart, quote, b);
    assert source[..b] == source[..a] + source[a..b];
    NewlinesConcat(source[..a], source[a..b]);
  }

  /** A quote that stands twice in the method is ambiguous. */
  lemma TwoOccurrencesAreAmbiguous(
      source: string, methodStart: nat, methodEnd: nat, declared: Range, quote: string, a: nat, b: nat)
    requires !IsQuotedByDeclared(source, methodStart, methodEnd, declared, quote)
    requires quote != [] && a + |quote| <= b && MatchesAt(source, quote, a) && MatchesAt(source, quote, b)
    requires LineOf(source, methodStart, b + |quote|) <= methodEnd
    ensures CanonicalEvidenceRange(source, methodStart, methodEnd, declared, quote) == Failure(Ambiguous)
  {
    DeclaredStandsExactlyWhen(source, methodStart, methodEnd, declared, quote);
    TwoMatchesAreFound(source, quote, 0, a, b);
    var offsets := MatchOffsets(source, quote);
    EarlierIsInMethod(source, methodStart, methodEnd, quote, offsets[0], b);
    EarlierIsInMethod(source, methodStart, methodEnd, quote, offsets[1], b);
    ExactLocationsKeepFirst(source, methodStart, methodEnd, quote, offsets, |offsets|);
  }

  lemma {:induction false} NoWindowBehind(
      chars: seq<(char, nat)>, quoteChars: string, methodStart: nat, methodEnd: nat, from: nat)
    requires quoteChars != [] && forall o: nat :: from <= o ==> !WindowMatches(chars, o, quoteChars)
    ensures WindowLocations(chars, quoteChars, methodStart, methodEnd, from) == []
    decreases |chars| - from
  {
    if from + |quoteChars| <= |chars| {
      assert !WindowMatches(chars, from, quoteChars);
      NoWindowBehind(chars, quoteChars, methodStart, methodEnd, from + 1);
    }
  }

  lemma {:induction false} OnlyWindowIsFound(
      chars: seq<(char, nat)>, quoteChars: string, methodStart: nat, methodEnd: nat, from: nat, at: nat)
    requires quoteChars != [] && from <= at && WindowMatches(chars, at, quoteChars)
    requires forall o: nat :: WindowMatches(chars, o, quoteChars) ==> o == at
    requires methodStart <= chars[at].1 && chars[at + |quoteChars| - 1].1 <= methodEnd
    ensures |WindowLocations(chars, quoteChars, methodStart, methodEnd, from)| == 1
    decreases at - from
  {
    if from < at {
      OnlyWindowIsFound(chars, quoteChars, methodStart, methodEnd, from + 1, at);
    } else {
      NoWindowBehind(chars, quoteChars, methodStart, methodEnd, at + 1);
    }
  }

  lemma {:induction false} TwoWindowsAreFound(
      chars: seq<(char, nat)>, quoteChars: string, methodStart: nat, methodEnd: nat, from: nat, a: nat, b: nat)
    requires quoteChars != [] && from <= a < b && WindowMatches(chars, a, quoteChars) && WindowMatches(chars, b, quoteChars)
    requires methodStart <= chars[a].1 && chars[a + |quoteChars| - 1].1 <= methodEnd
    requires methodStart <= chars[b].1 && chars[b + |quoteChars| - 1].1 <= methodEnd
    ensures |WindowLocations(chars, quoteChars, methodStart, methodEnd, from)| >= 2
    decreases a - from
  {
    if from < a {
      TwoWindowsAreFound(chars, quoteChars, methodStart, methodEnd, from + 1, a, b);
    } else {
      WindowIsFound(chars, quoteChars, methodStart, methodEnd, a + 1, b);
    }
  }

  /** In a method that the lines do not leave, every stripped match is a window of it. */
  lemma {:induction false} MatchIsWindow(source: string, methodStart: nat, methodEnd: nat, quote: string, at: nat)
    requires methodStart + |Lines(source)| <= methodEnd + 1 && Strip(quote) != []
    ensures var chars := SourceChars(Lines(source), methodStart);
            && (WindowMatches(chars, at, Strip(quote)) <==> MatchesAt(Strip(source), Strip(quote), at))
            && (WindowMatches(chars, at, Strip(quote)) ==>
                  methodStart <= chars[at].1 && chars[at + |Strip(quote)| - 1].1 <= methodEnd)
  {
    var parts, n := StripAll(Lines(source)), |Strip(quote)|;
    StrippedLines(source);
    StripAllLength(Lines(source));
    TaggedMatch(parts, methodStart, Strip(quote), at);
    if WindowMatches(SourceChars(Lines(source), methodStart), at, Strip(quote)) {
      TagBelow(parts, methodStart, at);
      TagBelow(parts, methodStart, at + n - 1);
    }
  }

  /** Without a literal match the stripped matches decide. */
  lemma NoLiteralMatch(source: string, methodStart: nat, methodEnd: nat, declared: Range, quote: string)
    requires !IsQuotedByDeclared(source, methodStart, methodEnd, declared, quote)
    requires Strip(quote) != [] && (forall o: nat :: !MatchesAt(source, quote, o))
    ensures var found := WindowLocations(SourceChars(Lines(source), methodStart), Strip(quote), methodStart, methodEnd, 0);
            var result := CanonicalEvidenceRange(source, methodStart, methodEnd, declared, quote);
            (|found| == 1 ==> result.Success?) && (|found| > 1 ==> result == Failure(Ambiguous))
  {
    DeclaredStandsExactlyWhen(source, methodStart, methodEnd, declared, quote);
    NothingBehind(source, quote, 0);
    var offsets := MatchOffsets(source, quote);
    assert ExactLocations(source, methodStart, methodEnd, quote, offsets, |offsets|) == [];
  }

  lemma OneSpellingIsFound(source: string, methodStart: nat, methodEnd: nat, quote: string, a: nat)
    requires methodStart + |Lines(source)| <= methodEnd + 1 && Strip(quote) != []
    requires MatchesAt(Strip(source), Strip(quote), a)
    requires forall o: nat :: MatchesAt(Strip(source), Strip(quote), o) ==> o == a
    ensures |WindowLocations(SourceChars(Lines(source), methodStart), Strip(quote), methodStart, methodEnd, 0)| == 1
  {
    var chars := SourceChars(Lines(source), methodStart);
    forall o: nat | WindowMatches(chars, o, Strip(quote)) ensures o == a {
      MatchIsWindow(source, methodStart, methodEnd, quote, o);
    }
    MatchIsWindow(source, methodStart, methodEnd, quote, a);
    OnlyWindowIsFound(chars, Strip(quote), methodStart, methodEnd, 0, a);
  }

  /** A quote that is nowhere as it is, and once without white space, is accepted. */
  lemma OneSpellingIsAccepted(source: string, methodStart: nat, methodEnd: nat, declared: Range, quote: string, a: nat)
    requires methodStart + |Lines(source)| <= methodEnd + 1
    requires !IsQuotedByDeclared(source, methodStart, methodEnd, declared, quote)
    requires Strip(quote) != [] && (forall o: nat :: !MatchesAt(source, quote, o))
    requires MatchesAt(Strip(source), Strip(quote), a)
    requires forall o: nat :: MatchesAt(Strip(source), Strip(quote), o) ==> o == a
    ensures CanonicalEvidenceRange(source, methodStart, methodEnd, declared, quote).Success?
  {
    OneSpellingIsFound(source, methodStart, methodEnd, quote, a);
    NoLiteralMatch(source, methodStart, methodEnd, declared, quote);
  }

  lemma TwoSpellingsAreFound(source: string, methodStart: nat, methodEnd: nat, quote: string, a: nat, b: nat)
    requires methodStart + |Lines(source)| <= methodEnd + 1 && Strip(quote) != []
    requires a < b && MatchesAt(Strip(source), Strip(quote), a) && MatchesAt(Strip(source), Strip(quote), b)
    ensures |WindowLocations(SourceChars(Lines(source), methodStart), Strip(quote), methodStart, methodEnd, 0)| >= 2
  {
    MatchIsWindow(source, methodStart, methodEnd, quote, a);
    MatchIsWindow(source, methodStart, methodEnd, quote, b);
    TwoWindowsAreFound(SourceChars(Lines(source), methodStart), Strip(quote), methodStart, methodEnd, 0, a, b);
  }

  /** If it is there twice without white space, it is ambiguous. */
  lemma TwoSpellingsAreAmbiguous(
      source: string, methodStart: nat, methodEnd: nat, declared: Range, quote: string, a: nat, b: nat)
    requires methodStart + |Lines(source)| <= methodEnd + 1
    requires !IsQuotedByDeclared(source, methodStart, methodEnd, declared, quote)
    requires Strip(quote) != [] && (forall o: nat :: !MatchesAt(source, quote, o))
    requires a < b && MatchesAt(Strip(source), Strip(quote), a) && MatchesAt(Strip(source), Strip(quote), b)
    ensures CanonicalEvidenceRange(source, methodStart, methodEnd, declared, quote) == Failure(Ambiguous)
  {
    TwoSpellingsAreFound(source, methodStart, methodEnd, quote, a, b);
    NoLiteralMatch(source, methodStart, methodEnd, declared, quote);
  }
}
