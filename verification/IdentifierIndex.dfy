/** The inverted identifier index of the dossier and the line scan it stands for
    (src/analyzer_dossier.rs and src/analyzer_dossier_repository.rs). */
module IdentifierIndex {
  import opened Wrappers
  import opened Sequences
  import opened Text

  datatype SourceLocation = SourceLocation(fileIndex: nat, lineIndex: nat)

  /** The stored lines of every file, and the locations filed under each token. */
  datatype RepositoryIndex = RepositoryIndex(
    sourceLines: seq<seq<string>>, identifierLocations: map<string, seq<SourceLocation>>)

  predicate IsIdentifierChar(c: char) {
    c == '_' || c == '$' || IsAsciiAlphanumeric(c)
  }

  /** The identifier characters by their code points. */
  lemma IdentifierCharsAre(c: char)
    ensures var n := c as int;
            IsIdentifierChar(c) <==> 0x30 <= n <= 0x39 || 0x41 <= n <= 0x5A || 0x61 <= n <= 0x7A || n in {0x24, 0x5F}
  {
  }

  predicate AllIdentifierChars(s: string) {
    forall i :: 0 <= i < |s| ==> IsIdentifierChar(s[i])
  }

  // ---------------------------------------------------------------------
  // The scan
  // ---------------------------------------------------------------------

  /** No identifier character touches `source[start..end]` from outside. */
  predicate Bounded(source: string, start: nat, end: nat)
    requires start <= end <= |source|
  {
    && (start > 0 ==> !IsIdentifierChar(source[start - 1]))
    && (end < |source| ==> !IsIdentifierChar(source[end]))
  }

  /** `identifier_matches`: the ends of the bounded ones among the leftmost matches. */
  function BoundedEnds(source: string, identifier: string, starts: seq<nat>): seq<nat>
    requires forall k :: 0 <= k < |starts| ==> MatchesAt(source, identifier, starts[k])
  {
    if starts == [] then []
    else
      assert MatchesAt(source, identifier, starts[0]);
      var end := starts[0] + |identifier|;
      (if Bounded(source, starts[0], end) then [end] else []) + BoundedEnds(source, identifier, starts[1..])
  }

  function IdentifierMatches(source: string, identifier: string): seq<nat> {
    BoundedEnds(source, identifier, MatchIndices(source, identifier, 0))
  }

  predicate ContainsIdentifier(source: string, identifier: string) {
    identifier != [] && IdentifierMatches(source, identifier) != []
  }

  function LineLocations(lines: seq<string>, fileIndex: nat, keep: string -> bool): seq<SourceLocation> {
    if lines == [] then []
    else
      var n := |lines| - 1;
      LineLocations(lines[..n], fileIndex, keep) + if keep(lines[n]) then [SourceLocation(fileIndex, n)] else []
  }

  /** The locations of all lines that pass the test, in file and line order. */
  function AllLocations(files: seq<seq<string>>, keep: string -> bool): seq<SourceLocation> {
    if files == [] then []
    else
      var n := |files| - 1;
      AllLocations(files[..n], keep) + LineLocations(files[n], n, keep)
  }

  /** `source_locations`: an index lookup for identifiers, the scan for anything else. */
  function SourceLocations(index: RepositoryIndex, identifier: string): seq<SourceLocation> {
    if AllIdentifierChars(identifier) then
      if identifier in index.identifierLocations then index.identifierLocations[identifier] else []
    else AllLocations(index.sourceLines, ScanTest(identifier))
  }

  // ---------------------------------------------------------------------
  // Tokens: maximal runs of identifier characters
  // ---------------------------------------------------------------------

  predicate IsRun(line: string, start: nat, end: nat)
    requires end <= |line|
  {
    forall i :: start <= i < end ==> IsIdentifierChar(line[i])
  }

  predicate IsTokenAt(line: string, start: nat, end: nat) {
    start < end <= |line| && IsRun(line, start, end) && Bounded(line, start, end)
  }

  ghost predicate HasTokenBefore(line: string, limit: nat, token: string) {
    exists start: nat, end: nat :: end < limit && IsTokenAt(line, start, end) && line[start..end] == token
  }

  ghost predicate HasToken(line: string, token: string) {
    HasTokenBefore(line, |line| + 1, token)
  }

  ghost function TokenTest(token: string): string -> bool {
    line => HasToken(line, token)
  }

  function ScanTest(identifier: string): string -> bool {
    line => ContainsIdentifier(line, identifier)
  }

  /** What is filed under a token. */
  function Filed(locations: map<string, seq<SourceLocation>>, token: string): seq<SourceLocation> {
    if token in locations then locations[token] else []
  }

  /** A run of identifier characters is open since `start` when the loop reaches `index`. */
  ghost predicate Open(line: string, index: nat, start: Option<nat>)
    requires index <= |line|
  {
    match start
    case None => index == 0 || !IsIdentifierChar(line[index - 1])
    case Some(a) => a < index && IsRun(line, a, index) && (a > 0 ==> !IsIdentifierChar(line[a - 1]))
  }

  predicate Closes(line: string, index: nat) {
    index >= |line| || !IsIdentifierChar(line[index])
  }

  /** A token ends at `index` exactly when a run is open there and the next character closes it. */
  lemma TokensEndingAt(line: string, index: nat, start: Option<nat>, t: string)
    requires index <= |line| && Open(line, index, start)
    ensures HasTokenBefore(line, index + 1, t) <==>
              || HasTokenBefore(line, index, t)
              || (start.Some? && Closes(line, index) && t == line[start.value..index])
  {
    if HasTokenBefore(line, index + 1, t) && !HasTokenBefore(line, index, t) {
      var a: nat, b: nat :| b < index + 1 && IsTokenAt(line, a, b) && line[a..b] == t;
      assert IsTokenAt(line, a, b) && b == index;
    }
    if start.Some? && Closes(line, index) {
      assert IsTokenAt(line, start.value, index);
      assert HasTokenBefore(line, index + 1, line[start.value..index]);
    }
    if HasTokenBefore(line, index, t) {
      var a: nat, b: nat :| b < index && IsTokenAt(line, a, b) && line[a..b] == t;
      assert b < index + 1 && IsTokenAt(line, a, b) && line[a..b] == t;
    }
  }

  /** The tokens met so far, each filed once under the location. */
  ghost predicate FiledSoFar(before: map<string, seq<SourceLocation>>, now: map<string, seq<SourceLocation>>,
                             seen: set<string>, location: SourceLocation) {
    forall t :: Filed(now, t) == Filed(before, t) + if t in seen then [location] else []
  }

  ghost predicate SeenBefore(line: string, index: nat, seen: set<string>) {
    forall t :: t in seen <==> HasTokenBefore(line, index, t)
  }

  lemma SeenGrows(line: string, index: nat, start: Option<nat>, seen: set<string>)
    requires index <= |line| && Open(line, index, start) && SeenBefore(line, index, seen)
    ensures SeenBefore(line, index + 1,
              seen + if start.Some? && Closes(line, index) then {line[start.value..index]} else {})
  {
    forall t {
      TokensEndingAt(line, index, start, t);
    }
  }

  /** A token that ends here is filed unless the line already has it. */
  method FileToken(ghost before: map<string, seq<SourceLocation>>, locations: map<string, seq<SourceLocation>>,
                   seen: set<string>, token: string, location: SourceLocation)
    returns (locations': map<string, seq<SourceLocation>>, seen': set<string>)
    requires FiledSoFar(before, locations, seen, location)
    ensures FiledSoFar(before, locations', seen', location) && seen' == seen + {token}
  {
    locations', seen' := locations, seen + {token};
    if token !in seen {
      locations' := locations[token := Filed(locations, token) + [location]];
      assert Filed(before, token) + [] == Filed(before, token);
    }
  }

  /** The tokenizer loop over one line, with a closing sentinel that is no identifier character. */
  method IndexLine(locations: map<string, seq<SourceLocation>>, line: string, location: SourceLocation)
    returns (locations': map<string, seq<SourceLocation>>)
    ensures forall t :: Filed(locations', t) == Filed(locations, t) + if HasToken(line, t) then [location] else []
  {
    locations' := locations;
    var seen: set<string> := {};
    var start: Option<nat> := None;
    for index := 0 to |line| + 1
      invariant SeenBefore(line, index, seen) && FiledSoFar(locations, locations', seen, location)
      invariant index <= |line| ==> Open(line, index, start)
    {
      var character := if index < |line| then line[index] else '\0';
      SeenGrows(line, index, start, seen);
      if IsIdentifierChar(character) {
        start := if start.None? then Some(index) else start;
      } else if start.Some? {
        locations', seen := FileToken(locations, locations', seen, line[start.value..index], location);
        start := None;
      }
    }
  }

  lemma {:induction false} LineLocationsGrow(lines: seq<string>, l: nat, fileIndex: nat, keep: string -> bool)
    requires l < |lines|
    ensures LineLocations(lines[..l + 1], fileIndex, keep)
         == LineLocations(lines[..l], fileIndex, keep) + if keep(lines[l]) then [SourceLocation(fileIndex, l)] else []
  {
    assert lines[..l + 1][..l] == lines[..l];
  }

  method IndexFile(locations: map<string, seq<SourceLocation>>, lines: seq<string>, fileIndex: nat)
    returns (locations': map<string, seq<SourceLocation>>)
    ensures forall t :: Filed(locations', t) == Filed(locations, t) + LineLocations(lines, fileIndex, TokenTest(t))
  {
    locations' := locations;
    for l := 0 to |lines|
      invariant forall t :: Filed(locations', t)
                  == Filed(locations, t) + LineLocations(lines[..l], fileIndex, TokenTest(t))
    {
      ghost var before := locations';
      locations' := IndexLine(locations', lines[l], SourceLocation(fileIndex, l));
      forall t ensures Filed(locations', t) == Filed(locations, t) + LineLocations(lines[..l + 1], fileIndex, TokenTest(t)) {
        assert Filed(before, t) == Filed(locations, t) + LineLocations(lines[..l], fileIndex, TokenTest(t));
        LineLocationsGrow(lines, l, fileIndex, TokenTest(t));
        Assoc(Filed(locations, t), LineLocations(lines[..l], fileIndex, TokenTest(t)),
              if HasToken(lines[l], t) then [SourceLocation(fileIndex, l)] else [], []);
      }
    }
    assert lines[..|lines|] == lines;
  }

  /** `build_dossier_repository_index`, the identifier part. */
  method BuildIndex(files: seq<seq<string>>) returns (index: RepositoryIndex)
    ensures index.sourceLines == files && Indexes(index)
  {
    var locations: map<string, seq<SourceLocation>> := map[];
    for f := 0 to |files|
      invariant forall t :: Filed(locations, t) == AllLocations(files[..f], TokenTest(t))
    {
      ghost var before := locations;
      locations := IndexFile(locations, files[f], f);
      forall t ensures Filed(locations, t) == AllLocations(files[..f + 1], TokenTest(t)) {
        assert Filed(before, t) == AllLocations(files[..f], TokenTest(t));
        assert files[..f + 1][..f] == files[..f];
      }
    }
    assert files[..|files|] == files;
    index := RepositoryIndex(files, locations);
  }

  // ---------------------------------------------------------------------
  // The index agrees with the scan
  // ---------------------------------------------------------------------

  /** The leftmost-match scan cannot step over a bounded occurrence: an overlapping earlier
      match would put an identifier character in front of it. */
  lemma {:induction false} ScanMeetsBoundedOccurrence(source: string, identifier: string, from: nat, at: nat)
    requires identifier != [] && AllIdentifierChars(identifier)
    requires from <= at && MatchesAt(source, identifier, at) && (at > 0 ==> !IsIdentifierChar(source[at - 1]))
    ensures at in MatchIndices(source, identifier, from)
    decreases at - from
  {
    if from < at {
      if MatchesAt(source, identifier, from) {
        forall k | from <= k < from + |identifier| ensures IsIdentifierChar(source[k]) {
          assert source[k] == source[from..from + |identifier|][k - from];
        }
        assert from + |identifier| <= at;
        ScanMeetsBoundedOccurrence(source, identifier, from + |identifier|, at);
      } else {
        ScanMeetsBoundedOccurrence(source, identifier, from + 1, at);
      }
    }
  }

  lemma {:induction false} BoundedIsFound(source: string, identifier: string, starts: seq<nat>, k: nat)
    requires forall j :: 0 <= j < |starts| ==> MatchesAt(source, identifier, starts[j])
    requires k < |starts| && MatchesAt(source, identifier, starts[k])
    requires Bounded(source, starts[k], starts[k] + |identifier|)
    ensures BoundedEnds(source, identifier, starts) != []
    decreases k
  {
    if k > 0 {
      BoundedIsFound(source, identifier, starts[1..], k - 1);
    }
  }

  lemma {:induction false} FoundIsBounded(source: string, identifier: string, starts: seq<nat>) returns (start: nat)
    requires forall j :: 0 <= j < |starts| ==> MatchesAt(source, identifier, starts[j])
    requires BoundedEnds(source, identifier, starts) != []
    ensures MatchesAt(source, identifier, start) && Bounded(source, start, start + |identifier|)
  {
    assert MatchesAt(source, identifier, starts[0]);
    if Bounded(source, starts[0], starts[0] + |identifier|) {
      start := starts[0];
    } else {
      start := FoundIsBounded(source, identifier, starts[1..]);
    }
  }

  lemma TokensAreScanned(line: string, identifier: string, a: nat, b: nat)
    requires AllIdentifierChars(identifier) && IsTokenAt(line, a, b) && line[a..b] == identifier
    ensures ContainsIdentifier(line, identifier)
  {
    var starts := MatchIndices(line, identifier, 0);
    ScanMeetsBoundedOccurrence(line, identifier, 0, a);
    var k :| 0 <= k < |starts| && starts[k] == a;
    BoundedIsFound(line, identifier, starts, k);
  }

  lemma ScannedAreTokens(line: string, identifier: string)
    requires AllIdentifierChars(identifier) && ContainsIdentifier(line, identifier)
    ensures HasToken(line, identifier)
  {
    var a := FoundIsBounded(line, identifier, MatchIndices(line, identifier, 0));
    var b := a + |identifier|;
    assert b < |line| + 1 && IsTokenAt(line, a, b) && line[a..b] == identifier;
  }

  /** For identifiers, "is a maximal run of the line" and "the scan finds it" are the same. */
  lemma TokenIffScanned(line: string, identifier: string)
    requires AllIdentifierChars(identifier)
    ensures HasToken(line, identifier) <==> ContainsIdentifier(line, identifier)
  {
    if HasToken(line, identifier) {
      var a: nat, b: nat :| b < |line| + 1 && IsTokenAt(line, a, b) && line[a..b] == identifier;
      TokensAreScanned(line, identifier, a, b);
    }
    if ContainsIdentifier(line, identifier) {
      ScannedAreTokens(line, identifier);
    }
  }

  lemma {:induction false} SameLineTest(lines: seq<string>, fileIndex: nat, p: string -> bool, q: string -> bool)
    requires forall line :: p(line) == q(line)
    ensures LineLocations(lines, fileIndex, p) == LineLocations(lines, fileIndex, q)
  {
    if lines != [] {
      SameLineTest(lines[..|lines| - 1], fileIndex, p, q);
    }
  }

  lemma {:induction false} SameTest(files: seq<seq<string>>, p: string -> bool, q: string -> bool)
    requires forall line :: p(line) == q(line)
    ensures AllLocations(files, p) == AllLocations(files, q)
  {
    if files != [] {
      SameTest(files[..|files| - 1], p, q);
      SameLineTest(files[|files| - 1], |files| - 1, p, q);
    }
  }

  /** An index as `BuildIndex` leaves it. */
  ghost predicate Indexes(index: RepositoryIndex) {
    forall t :: Filed(index.identifierLocations, t)
             == AllLocations(index.sourceLines, TokenTest(t))
  }

  /** The lookup returns exactly what scanning every line would, for every query. */
  lemma IndexAgreesWithScan(index: RepositoryIndex, identifier: string)
    requires Indexes(index)
    ensures SourceLocations(index, identifier)
         == AllLocations(index.sourceLines, ScanTest(identifier))
  {
    if AllIdentifierChars(identifier) {
      var token := TokenTest(identifier);
      var scanned := ScanTest(identifier);
      forall line ensures token(line) == scanned(line) {
        TokenIffScanned(line, identifier);
      }
      assert Filed(index.identifierLocations, identifier) == AllLocations(index.sourceLines, token);
      SameTest(index.sourceLines, token, scanned);
    }
  }

  ghost predicate Before(a: SourceLocation, b: SourceLocation) {
    a.fileIndex < b.fileIndex || (a.fileIndex == b.fileIndex && a.lineIndex < b.lineIndex)
  }

  lemma {:induction false} LinesAreOrdered(lines: seq<string>, fileIndex: nat, keep: string -> bool)
    ensures var found := LineLocations(lines, fileIndex, keep);
            && (forall i, j :: 0 <= i < j < |found| ==> Before(found[i], found[j]))
            && (forall i :: 0 <= i < |found| ==> found[i].fileIndex == fileIndex && found[i].lineIndex < |lines|)
            && (forall l :: 0 <= l < |lines| ==> (SourceLocation(fileIndex, l) in found <==> keep(lines[l])))
  {
    if lines != [] {
      var n := |lines| - 1;
      LinesAreOrdered(lines[..n], fileIndex, keep);
      var before := LineLocations(lines[..n], fileIndex, keep);
      forall l | 0 <= l < n
        ensures SourceLocation(fileIndex, l) in LineLocations(lines, fileIndex, keep) <==> keep(lines[l])
      {
        assert lines[..n][l] == lines[l];
      }
    }
  }

  /** The result names exactly the passing lines, in order and without duplicates. */
  lemma {:induction false} LocationsAreOrderedAndExact(files: seq<seq<string>>, keep: string -> bool)
    ensures var found := AllLocations(files, keep);
            && (forall i, j :: 0 <= i < j < |found| ==> Before(found[i], found[j]))
            && (forall i :: 0 <= i < |found| ==> found[i].fileIndex < |files|)
            && (forall f, l :: 0 <= f < |files| && 0 <= l < |files[f]| ==>
                  (SourceLocation(f, l) in found <==> keep(files[f][l])))
  {
    if files != [] {
      var n := |files| - 1;
      LocationsAreOrderedAndExact(files[..n], keep);
      LinesAreOrdered(files[n], n, keep);
      var before, last := AllLocations(files[..n], keep), LineLocations(files[n], n, keep);
      forall f, l | 0 <= f < |files| && 0 <= l < |files[f]|
        ensures SourceLocation(f, l) in AllLocations(files, keep) <==> keep(files[f][l])
      {
        if f < n {
          assert files[..n][f] == files[f];
          assert SourceLocation(f, l) !in last;
        } else {
          assert SourceLocation(f, l) !in before;
        }
      }
    }
  }
}
