/** Text operations of the Rust standard library that several components use. */
module Text {
  // ---------------------------------------------------------------------
  // Substring search: `str::contains`, `str::match_indices`
  // ---------------------------------------------------------------------

  predicate MatchesAt<T(==)>(source: seq<T>, pattern: seq<T>, at: nat) {
    at + |pattern| <= |source| && source[at..at + |pattern|] == pattern
  }

  predicate Contains<T(==)>(source: seq<T>, pattern: seq<T>) {
    exists at :: 0 <= at <= |source| && MatchesAt(source, pattern, at)
  }

  /** `match_indices` from `from` on: leftmost matches that do not overlap. The empty
      pattern matches at every position, the end included. */
  function MatchIndices<T(==)>(source: seq<T>, pattern: seq<T>, from: nat): (starts: seq<nat>)
    ensures forall k :: 0 <= k < |starts| ==> from <= starts[k] && MatchesAt(source, pattern, starts[k])
    decreases |source| + 1 - from
  {
    if from + |pattern| > |source| then []
    else if MatchesAt(source, pattern, from) then
      [from] + MatchIndices(source, pattern, from + if pattern == [] then 1 else |pattern|)
    else MatchIndices(source, pattern, from + 1)
  }

  lemma {:induction false} ContainedIsFound<T>(source: seq<T>, pattern: seq<T>, from: nat, at: nat)
    requires from <= at && MatchesAt(source, pattern, at)
    ensures MatchIndices(source, pattern, from) != []
    decreases at - from
  {
    if !MatchesAt(source, pattern, from) {
      ContainedIsFound(source, pattern, from + 1, at);
    }
  }

  // ---------------------------------------------------------------------
  // White space: `char::is_whitespace`, `str::trim`
  // ---------------------------------------------------------------------

  /** The Unicode White_Space property. */
  predicate IsWhitespace(c: char) {
    var n := c as int;
    || 9 <= n <= 13 || n == 0x20 || n == 0x85 || n == 0xA0 || n == 0x1680
    || 0x2000 <= n <= 0x200A || n == 0x2028 || n == 0x2029 || n == 0x202F || n == 0x205F || n == 0x3000
  }

  /** The code points that PropList.txt of the Unicode Character Database lists for it. */
  lemma WhitespaceIs(c: char)
    ensures IsWhitespace(c) <==>
              c as int in {0x9, 0xA, 0xB, 0xC, 0xD, 0x20, 0x85, 0xA0, 0x1680, 0x2000, 0x2001, 0x2002, 0x2003, 0x2004, 0x2005,
                           0x2006, 0x2007, 0x2008, 0x2009, 0x200A, 0x2028, 0x2029, 0x202F, 0x205F, 0x3000}
  {
  }

  predicate IsBlank(s: string) {
    forall i :: 0 <= i < |s| ==> IsWhitespace(s[i])
  }

  function TrimStart(s: string): string {
    if s != [] && IsWhitespace(s[0]) then TrimStart(s[1..]) else s
  }

  function TrimEnd(s: string): string {
    if s != [] && IsWhitespace(s[|s| - 1]) then TrimEnd(s[..|s| - 1]) else s
  }

  function Trim(s: string): string {
    TrimEnd(TrimStart(s))
  }

  /** No white space at either end. */
  predicate IsTrimmed(s: string) {
    s == [] || (!IsWhitespace(s[0]) && !IsWhitespace(s[|s| - 1]))
  }

  lemma BlankConcat(a: string, b: string)
    ensures IsBlank(a + b) <==> IsBlank(a) && IsBlank(b)
  {
    forall i | 0 <= i < |b| && IsBlank(a + b) ensures IsWhitespace(b[i]) {
      assert (a + b)[|a| + i] == b[i];
    }
    forall i | 0 <= i < |a| && IsBlank(a + b) ensures IsWhitespace(a[i]) {
      assert (a + b)[i] == a[i];
    }
  }

  /** Trimming at the start cuts a blank prefix and stops at the first other character. */
  lemma {:induction false} TrimStartCuts(s: string) returns (k: nat)
    ensures k <= |s| && IsBlank(s[..k]) && TrimStart(s) == s[k..]
    ensures k < |s| ==> !IsWhitespace(s[k])
  {
    k := 0;
    if s != [] && IsWhitespace(s[0]) {
      var rest := TrimStartCuts(s[1..]);
      k := rest + 1;
      assert s[..k] == [s[0]] + s[1..][..rest];
    }
  }

  lemma {:induction false} TrimEndCuts(s: string) returns (k: nat)
    ensures k <= |s| && IsBlank(s[k..]) && TrimEnd(s) == s[..k]
    ensures k > 0 ==> !IsWhitespace(s[k - 1])
  {
    k := |s|;
    if s != [] && IsWhitespace(s[|s| - 1]) {
      var n := |s| - 1;
      k := TrimEndCuts(s[..n]);
      assert s[k..] == s[..n][k..] + [s[n]];
    }
  }

  lemma TrimKeepsTrimmed(s: string)
    requires IsTrimmed(s)
    ensures Trim(s) == s
  {
  }

  /** Trimming cuts blank ends and leaves a trimmed string, empty exactly on blank input. */
  lemma TrimCuts(s: string) returns (a: nat, b: nat)
    ensures a <= b <= |s| && IsBlank(s[..a]) && IsBlank(s[b..]) && Trim(s) == s[a..b]
    ensures IsTrimmed(Trim(s))
    ensures Trim(s) == [] <==> IsBlank(s)
  {
    a := TrimStartCuts(s);
    var rest := TrimEndCuts(s[a..]);
    b := a + rest;
    assert s[a..][rest..] == s[b..];
    assert s == s[..a] + s[a..b] + s[b..];
    BlankConcat(s[..a] + s[a..b], s[b..]);
    BlankConcat(s[..a], s[a..b]);
    if a < b {
      assert s[a..b][0] == s[a];
    }
  }

  // ---------------------------------------------------------------------
  // Lines
  // ---------------------------------------------------------------------

  function StripCarriageReturn(line: string): string {
    if line != [] && line[|line| - 1] == '\r' then line[..|line| - 1] else line
  }

  /** `str::lines`: newline-terminated lines lose a carriage return before the newline. */
  function Lines(text: string): seq<string> {
    if text == [] then [] else LinesAfter([], text)
  }

  function LinesAfter(line: string, text: string): seq<string>
    decreases |text|
  {
    if text == [] then if line == [] then [] else [line]
    else if text[0] == '\n' then [StripCarriageReturn(line)] + LinesAfter([], text[1..])
    else LinesAfter(line + [text[0]], text[1..])
  }

  lemma {:induction false} LineAfter(before: string, line: string, rest: string)
    requires '\n' !in line
    ensures LinesAfter(before, line + "\n" + rest) == [StripCarriageReturn(before + line)] + LinesAfter([], rest)
    ensures LinesAfter(before, line) == if before + line == [] then [] else [before + line]
    decreases |line|
  {
    if line == [] {
      assert before + line == before && (line + "\n" + rest)[1..] == rest;
    } else {
      LineAfter(before + [line[0]], line[1..], rest);
      assert before + [line[0]] + line[1..] == before + line;
      assert (line + "\n" + rest)[1..] == line[1..] + "\n" + rest;
    }
  }

  /** The text up to a newline is a line, without one carriage return that ends it; text
      behind the last newline is a line as it is, unless it is empty. */
  lemma LinesAre(line: string, rest: string)
    requires '\n' !in line
    ensures Lines(line + "\n" + rest) == [if "\r" <= line[if line == [] then 0 else |line| - 1..] then line[..|line| - 1] else line] + Lines(rest)
    ensures Lines(line) == if line == [] then [] else [line]
  {
    LineAfter([], line, rest);
    assert [] + line == line;
  }

  // ---------------------------------------------------------------------
  // ASCII
  // ---------------------------------------------------------------------

  predicate IsAsciiAlphanumeric(c: char) {
    'a' <= c <= 'z' || 'A' <= c <= 'Z' || '0' <= c <= '9'
  }

  function AsciiLower(s: string): string {
    seq(|s|, i requires 0 <= i < |s| =>
      if 'A' <= s[i] <= 'Z' then (s[i] as int + 32) as char else s[i])
  }

  lemma AsciiLowerConcat(a: string, b: string)
    ensures AsciiLower(a + b) == AsciiLower(a) + AsciiLower(b)
  {
  }
}
