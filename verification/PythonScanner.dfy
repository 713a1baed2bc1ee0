/** Scanning Python text outside quotes: splitting at top-level delimiters, matching a
    parenthesis, and the first top-level part (src/analyzer_dossier_proofs.rs).
    Positions count characters. */
module PythonScanner {
  import opened Wrappers
  import opened Text

  // ---------------------------------------------------------------------
  // The scan
  // ---------------------------------------------------------------------

  /** Inside a string literal, `escaped` says that a backslash comes just before. */
  datatype Quote = Outside | Inside(mark: char, escaped: bool)

  datatype Scan = Scan(depth: nat, quote: Quote)

  const TOP := Scan(0, Outside)

  /** The brackets a scan counts: all three kinds, without telling them apart, or round ones only. */
  datatype Brackets = Every | Parentheses {
    predicate Opens(c: char) {
      c == '(' || (Every? && (c == '[' || c == '{'))
    }

    predicate Closes(c: char) {
      c == ')' || (Every? && (c == ']' || c == '}'))
    }
  }

  predicate IsQuote(c: char) {
    c == '\'' || c == '"'
  }

  /** A character the scan passes over without changing its state. */
  predicate IsPlain(c: char) {
    !IsQuote(c) && !Every.Opens(c) && !Every.Closes(c)
  }

  /** One character; None when a bracket closes that never opened. */
  function Step(brackets: Brackets, scan: Scan, c: char): Option<Scan> {
    match scan.quote
    case Inside(mark, escaped) =>
      if escaped then Some(scan.(quote := Inside(mark, false)))
      else if c == '\\' then Some(scan.(quote := Inside(mark, true)))
      else if c == mark then Some(scan.(quote := Outside))
      else Some(scan)
    case Outside =>
      if IsQuote(c) then Some(scan.(quote := Inside(c, false)))
      else if brackets.Opens(c) then Some(scan.(depth := scan.depth + 1))
      else if brackets.Closes(c) then if scan.depth == 0 then None else Some(scan.(depth := scan.depth - 1))
      else Some(scan)
  }

  function Run(brackets: Brackets, text: string): Option<Scan> {
    if text == [] then Some(TOP)
    else match Run(brackets, text[..|text| - 1])
      case None => None
      case Some(scan) => Step(brackets, scan, text[|text| - 1])
  }

  lemma {:induction false} FailureStays(brackets: Brackets, text: string, i: nat)
    requires i <= |text| && Run(brackets, text[..i]).None?
    ensures Run(brackets, text).None?
  {
    if i == |text| {
      assert text[..i] == text;
    } else {
      assert text[..|text| - 1][..i] == text[..i];
      FailureStays(brackets, text[..|text| - 1], i);
    }
  }

  // ---------------------------------------------------------------------
  // Pieces between top-level delimiters
  // ---------------------------------------------------------------------

  /** Position `i` holds the delimiter, outside every quote and bracket. */
  predicate CutsAt(text: string, delimiter: char, i: nat) {
    i < |text| && text[i] == delimiter && IsPlain(delimiter) && Run(Every, text[..i]) == Some(TOP)
  }

  function Pieces(text: string, delimiter: char): (pieces: seq<string>)
    ensures pieces != []
  {
    if text == [] then [[]]
    else
      var n := |text| - 1;
      var before := Pieces(text[..n], delimiter);
      if CutsAt(text, delimiter, n) then before + [[]]
      else before[..|before| - 1] + [before[|before| - 1] + [text[n]]]
  }

  function TrimAll(pieces: seq<string>): (trimmed: seq<string>)
    ensures |trimmed| == |pieces|
    ensures forall i :: 0 <= i < |pieces| ==> trimmed[i] == Trim(pieces[i])
  {
    if pieces == [] then [] else TrimAll(pieces[..|pieces| - 1]) + [Trim(pieces[|pieces| - 1])]
  }

  function Split(text: string, delimiter: char): Option<seq<string>> {
    if Run(Every, text) == Some(TOP) then Some(TrimAll(Pieces(text, delimiter))) else None
  }

  function Prefix(text: string, delimiter: char): Option<string> {
    var pieces := Pieces(text, delimiter);
    if |pieces| == 1 && Run(Every, text).None? then None else Some(Trim(pieces[0]))
  }

  function Join(parts: seq<string>, delimiter: char): string {
    if parts == [] then []
    else if |parts| == 1 then parts[0]
    else Join(parts[..|parts| - 1], delimiter) + [delimiter] + parts[|parts| - 1]
  }

  /** Finished pieces never change as the text grows. */
  lemma {:induction false} FinishedPiecesStay(text: string, delimiter: char, i: nat)
    requires i <= |text|
    ensures var early, late := Pieces(text[..i], delimiter), Pieces(text, delimiter);
            |early| <= |late| && early[..|early| - 1] == late[..|early| - 1]
  {
    if i == |text| {
      assert text[..i] == text;
    } else {
      var n := |text| - 1;
      assert text[..n][..i] == text[..i];
      FinishedPiecesStay(text[..n], delimiter, i);
    }
  }

  // ---------------------------------------------------------------------
  // The scanners
  // ---------------------------------------------------------------------

  /** The two variables the scanners keep for a quote. */
  function QuoteOf(quote: Option<char>, escaped: bool): Quote {
    match quote case None => Outside case Some(mark) => Inside(mark, escaped)
  }

  lemma {:induction false} PiecesPush(text: string, delimiter: char, i: nat)
    requires i < |text|
    ensures Pieces(text[..i + 1], delimiter)
         == var before := Pieces(text[..i], delimiter);
            if CutsAt(text, delimiter, i) then before + [[]]
            else before[..|before| - 1] + [before[|before| - 1] + [text[i]]]
    ensures Run(Every, text[..i + 1])
         == match Run(Every, text[..i]) case None => None case Some(scan) => Step(Every, scan, text[i])
  {
    assert text[..i + 1][..i] == text[..i];
    assert CutsAt(text[..i + 1], delimiter, i) <==> CutsAt(text, delimiter, i);
  }

  /** One character of a scan: the source's `if let` and `match` on the loop variables. */
  method Advance(brackets: Brackets, depth: nat, quote: Option<char>, escaped: bool, c: char)
    returns (ok: bool, depth': nat, quote': Option<char>, escaped': bool)
    requires quote.None? ==> !escaped
    ensures ok <==> Step(brackets, Scan(depth, QuoteOf(quote, escaped)), c).Some?
    ensures ok ==>
      && Step(brackets, Scan(depth, QuoteOf(quote, escaped)), c) == Some(Scan(depth', QuoteOf(quote', escaped')))
      && (quote'.None? ==> !escaped')
  {
    ok, depth', quote', escaped' := true, depth, quote, escaped;
    if quote.Some? {
      if escaped {
        escaped' := false;
      } else if c == '\\' {
        escaped' := true;
      } else if c == quote.value {
        quote' := None;
      }
      return;
    }
    if IsQuote(c) {
      quote' := Some(c);
    } else if brackets.Opens(c) {
      depth' := depth + 1;
    } else if brackets.Closes(c) {
      if depth == 0 {
        ok := false;
      } else {
        depth' := depth - 1;
      }
    }
  }

  /** The loop's view of the pieces: those pushed, and the one being read from `start`. */
  ghost predicate Reading(text: string, delimiter: char, i: nat, parts: seq<string>, start: nat) {
    && start <= i <= |text|
    && |Pieces(text[..i], delimiter)| == |parts| + 1
    && Pieces(text[..i], delimiter)[|parts|] == text[start..i]
    && TrimAll(Pieces(text[..i], delimiter)[..|parts|]) == parts
  }

  lemma ReadingCut(text: string, delimiter: char, i: nat, parts: seq<string>, start: nat)
    requires i < |text| && Reading(text, delimiter, i, parts, start) && CutsAt(text, delimiter, i)
    ensures Reading(text, delimiter, i + 1, parts + [Trim(text[start..i])], i + 1)
  {
    PiecesPush(text, delimiter, i);
    var before := Pieces(text[..i], delimiter);
    assert (before + [[]])[..|parts| + 1] == before;
    assert before[..|before| - 1] == before[..|parts|];
    assert text[i + 1..i + 1] == [];
  }

  lemma ReadingOn(text: string, delimiter: char, i: nat, parts: seq<string>, start: nat)
    requires i < |text| && Reading(text, delimiter, i, parts, start) && !CutsAt(text, delimiter, i)
    ensures Reading(text, delimiter, i + 1, parts, start)
  {
    PiecesPush(text, delimiter, i);
    var before, after := Pieces(text[..i], delimiter), Pieces(text[..i + 1], delimiter);
    assert after[..|parts|] == before[..|parts|];
    assert text[start..i + 1] == text[start..i] + [text[i]];
  }

  lemma {:induction false} RunGrows(brackets: Brackets, text: string, i: nat)
    requires i < |text|
    ensures Run(brackets, text[..i + 1])
         == match Run(brackets, text[..i]) case None => None case Some(scan) => Step(brackets, scan, text[i])
  {
    assert text[..i + 1] == text[..i] + [text[i]];
  }

  lemma {:induction false} ReadingEnds(text: string, delimiter: char, parts: seq<string>, start: nat)
    requires Reading(text, delimiter, |text|, parts, start)
    ensures TrimAll(Pieces(text, delimiter)) == parts + [Trim(text[start..])]
  {
    assert text[..|text|] == text;
    var pieces := Pieces(text, delimiter);
    assert pieces == pieces[..|parts|] + [text[start..]];
  }

  /** `split_python_top_level`. */
  method SplitPythonTopLevel(value: string, delimiter: char) returns (result: Option<seq<string>>)
    ensures result == Split(value, delimiter)
  {
    var parts: seq<string>, start, depth := [], 0, 0;
    var quote: Option<char>, escaped := None, false;
    for i := 0 to |value|
      invariant Reading(value, delimiter, i, parts, start)
      invariant quote.None? ==> !escaped
      invariant Run(Every, value[..i]) == Some(Scan(depth, QuoteOf(quote, escaped)))
    {
      var c := value[i];
      RunGrows(Every, value, i);
      if quote.None? && depth == 0 && c == delimiter && IsPlain(c) {
        ReadingCut(value, delimiter, i, parts, start);
        parts := parts + [Trim(value[start..i])];
        start := i + 1;
      } else {
        ReadingOn(value, delimiter, i, parts, start);
        var ok;
        ok, depth, quote, escaped := Advance(Every, depth, quote, escaped, c);
        if !ok {
          FailureStays(Every, value, i + 1);
          return None;
        }
      }
    }
    assert value[..|value|] == value;
    if quote.Some? || depth != 0 {
      return None;
    }
    ReadingEnds(value, delimiter, parts, start);
    return Some(parts + [Trim(value[start..])]);
  }

  /** Once a bracket has closed that never opened, no further delimiter cuts. */
  lemma {:induction false} FailedPieces(text: string, delimiter: char, i: nat)
    requires i <= |text| && Run(Every, text[..i]).None?
    ensures |Pieces(text, delimiter)| == |Pieces(text[..i], delimiter)|
  {
    if i == |text| {
      assert text[..i] == text;
    } else {
      var n := |text| - 1;
      assert text[..n][..i] == text[..i];
      FailureStays(Every, text[..n], i);
      FailedPieces(text[..n], delimiter, i);
    }
  }

  lemma {:induction false} StillOnePiece(text: string, delimiter: char, i: nat)
    requires i < |text| && Pieces(text[..i], delimiter) == [text[..i]] && !CutsAt(text, delimiter, i)
    ensures Pieces(text[..i + 1], delimiter) == [text[..i + 1]]
  {
    PiecesPush(text, delimiter, i);
    assert text[..i + 1] == text[..i] + [text[i]];
  }

  lemma {:induction false} PrefixCut(text: string, delimiter: char, i: nat)
    requires i < |text| && Pieces(text[..i], delimiter) == [text[..i]] && CutsAt(text, delimiter, i)
    ensures Prefix(text, delimiter) == Some(Trim(text[..i]))
  {
    PiecesPush(text, delimiter, i);
    FinishedPiecesStay(text, delimiter, i + 1);
    assert Pieces(text[..i + 1], delimiter) == [text[..i], []];
  }

  lemma {:induction false} PrefixFails(text: string, delimiter: char, i: nat)
    requires i <= |text| && |Pieces(text[..i], delimiter)| == 1 && Run(Every, text[..i]).None?
    ensures Prefix(text, delimiter).None?
  {
    FailedPieces(text, delimiter, i);
    FailureStays(Every, text, i);
  }

  /** `top_level_prefix`. */
  method TopLevelPrefix(value: string, delimiter: char) returns (result: Option<string>)
    ensures result == Prefix(value, delimiter)
    ensures Split(value, delimiter).Some? ==> result == Some(Split(value, delimiter).value[0])
  {
    var depth, quote: Option<char>, escaped := 0, None, false;
    assert Pieces(value[..0], delimiter) == [[]];
    for i := 0 to |value|
      invariant Pieces(value[..i], delimiter) == [value[..i]]
      invariant quote.None? ==> !escaped
      invariant Run(Every, value[..i]) == Some(Scan(depth, QuoteOf(quote, escaped)))
    {
      var c := value[i];
      if quote.None? && depth == 0 && c == delimiter && IsPlain(c) {
        PrefixCut(value, delimiter, i);
        return Some(Trim(value[..i]));
      }
      StillOnePiece(value, delimiter, i);
      RunGrows(Every, value, i);
      var ok;
      ok, depth, quote, escaped := Advance(Every, depth, quote, escaped, c);
      if !ok {
        PrefixFails(value, delimiter, i + 1);
        return None;
      }
    }
    assert value[..|value|] == value;
    return Some(Trim(value));
  }

  /** Position `p` holds the parenthesis that brings the depth, counted from `start`, back to zero. */
  predicate ClosesAt(value: string, start: nat, p: nat) {
    start <= p < |value| && value[p] == ')' && Run(Parentheses, value[start..p]) == Some(Scan(1, Outside))
  }

  lemma NothingCloses(value: string, start: nat, p: nat)
    requires start <= p <= |value| && Run(Parentheses, value[start..p]).None?
    ensures forall q: nat :: p <= q ==> !ClosesAt(value, start, q)
  {
    forall q | p <= q < |value| ensures Run(Parentheses, value[start..q]).None? {
      assert value[start..q][..p - start] == value[start..p];
      FailureStays(Parentheses, value[start..q], p - start);
    }
  }

  lemma {:induction false} RunGrowsFrom(brackets: Brackets, value: string, start: nat, p: nat)
    requires start <= p < |value|
    ensures Run(brackets, value[start..p + 1])
         == match Run(brackets, value[start..p]) case None => None case Some(scan) => Step(brackets, scan, value[p])
  {
    assert value[start..p + 1] == value[start..p] + [value[p]];
  }

  ghost predicate NoneClosesBefore(value: string, start: nat, p: nat) {
    forall q: nat :: start <= q < p ==> !ClosesAt(value, start, q)
  }

  /** `matching_parenthesis`: the first position where the depth outside quotes returns to zero. */
  method MatchingParenthesis(value: string, start: nat) returns (result: Option<nat>)
    requires start <= |value|
    ensures result.Some? ==> ClosesAt(value, start, result.value) && NoneClosesBefore(value, start, result.value)
    ensures result.None? ==> forall q: nat :: !ClosesAt(value, start, q)
  {
    var depth, quote: Option<char>, escaped := 0, None, false;
    for p := start to |value|
      invariant quote.None? ==> !escaped
      invariant Run(Parentheses, value[start..p]) == Some(Scan(depth, QuoteOf(quote, escaped)))
      invariant NoneClosesBefore(value, start, p)
    {
      var c := value[p];
      RunGrowsFrom(Parentheses, value, start, p);
      var wasOutside := quote.None?;
      var ok;
      ok, depth, quote, escaped := Advance(Parentheses, depth, quote, escaped, c);
      if !ok {
        NothingCloses(value, start, p + 1);
        return None;
      }
      if wasOutside && c == ')' && depth == 0 {
        return Some(p);
      }
    }
    return None;
  }

  // ---------------------------------------------------------------------
  // Splitting undoes joining
  // ---------------------------------------------------------------------

  /** No top-level delimiter anywhere in the part. */
  predicate IsUncut(part: string, delimiter: char) {
    forall i :: 0 <= i < |part| ==> !CutsAt(part, delimiter, i)
  }

  /** Brackets balance, quotes close, and no delimiter is at top level. */
  predicate IsPart(part: string, delimiter: char) {
    Run(Every, part) == Some(TOP) && IsUncut(part, delimiter)
  }

  predicate AreParts(parts: seq<string>, delimiter: char) {
    parts != [] && forall i :: 0 <= i < |parts| ==> IsPart(parts[i], delimiter)
  }

  lemma {:induction false} RunConcat(a: string, b: string)
    requires Run(Every, a) == Some(TOP)
    ensures Run(Every, a + b) == Run(Every, b)
  {
    if b == [] {
      assert a + b == a;
    } else {
      var n := |b| - 1;
      RunConcat(a, b[..n]);
      assert (a + b)[..|a + b| - 1] == a + b[..n];
    }
  }

  lemma UncutPrefix(text: string, delimiter: char, i: nat)
    requires i <= |text| && forall j :: 0 <= j < i ==> !CutsAt(text, delimiter, j)
    ensures IsUncut(text[..i], delimiter)
  {
    forall j | 0 <= j < i ensures !CutsAt(text[..i], delimiter, j) {
      assert text[..i][..j] == text[..j] && !CutsAt(text, delimiter, j);
    }
  }

  lemma {:induction false} PieceGrows(text: string, delimiter: char, done: seq<string>, last: string, c: char)
    requires Pieces(text, delimiter) == done + [last] && !CutsAt(text + [c], delimiter, |text|)
    ensures Pieces(text + [c], delimiter) == done + [last + [c]]
  {
    assert (text + [c])[..|text|] == text;
    assert (done + [last])[..|done|] == done;
  }

  /** A top-level prefix does not move the cuts of what follows. */
  lemma {:induction false} CutsBehind(a: string, b: string, delimiter: char, i: nat)
    requires Run(Every, a) == Some(TOP) && i < |b|
    ensures CutsAt(a + b, delimiter, |a| + i) <==> CutsAt(b, delimiter, i)
  {
    assert (a + b)[..|a| + i] == a + b[..i];
    RunConcat(a, b[..i]);
  }

  /** After a top-level prefix, an uncut part is one piece. */
  lemma {:induction false} PiecesConcat(a: string, b: string, delimiter: char, done: seq<string>)
    requires Run(Every, a) == Some(TOP) && Pieces(a, delimiter) == done + [[]] && IsUncut(b, delimiter)
    ensures Pieces(a + b, delimiter) == done + [b]
  {
    if b == [] {
      assert a + b == a;
    } else {
      var n := |b| - 1;
      UncutPrefix(b, delimiter, n);
      PiecesConcat(a, b[..n], delimiter, done);
      CutsBehind(a, b, delimiter, n);
      assert a + b == (a + b[..n]) + [b[n]];
      PieceGrows(a + b[..n], delimiter, done, b[..n], b[n]);
      assert b == b[..n] + [b[n]];
    }
  }

  /** The pieces of a text that ends at top level are these parts. */
  predicate SplitsInto(text: string, delimiter: char, parts: seq<string>) {
    Pieces(text, delimiter) == parts && Run(Every, text) == Some(TOP)
  }

  lemma OnePartSplits(part: string, delimiter: char)
    requires IsPart(part, delimiter)
    ensures SplitsInto(part, delimiter, [part])
  {
    PiecesConcat([], part, delimiter, []);
    assert [] + part == part && [] + [part] == [part];
  }

  lemma NextPartSplits(text: string, delimiter: char, parts: seq<string>, part: string)
    requires SplitsInto(text, delimiter, parts) && IsPart(part, delimiter) && IsPlain(delimiter)
    ensures SplitsInto(text + [delimiter] + part, delimiter, parts + [part])
  {
    PiecesConcat(text + [delimiter], part, delimiter, parts);
    RunConcat(text + [delimiter], part);
  }

  /** The pieces of a joined text are the parts it was joined from. */
  lemma {:induction false} PiecesOfJoin(parts: seq<string>, delimiter: char)
    requires AreParts(parts, delimiter) && IsPlain(delimiter)
    ensures SplitsInto(Join(parts, delimiter), delimiter, parts)
  {
    var n := |parts| - 1;
    assert IsPart(parts[n], delimiter) && parts == parts[..n] + [parts[n]];
    if n == 0 {
      OnePartSplits(parts[0], delimiter);
    } else {
      PiecesOfJoin(parts[..n], delimiter);
      NextPartSplits(Join(parts[..n], delimiter), delimiter, parts[..n], parts[n]);
    }
  }

  predicate AreTrimmed(parts: seq<string>) {
    forall i :: 0 <= i < |parts| ==> IsTrimmed(parts[i])
  }

  lemma {:induction false} TrimAllKeeps(parts: seq<string>)
    requires AreTrimmed(parts)
    ensures TrimAll(parts) == parts
  {
    forall i | 0 <= i < |parts| ensures TrimAll(parts)[i] == parts[i] {
      TrimKeepsTrimmed(parts[i]);
    }
  }

  /** Splitting undoes joining. */
  lemma {:induction false} SplitUndoesJoin(parts: seq<string>, delimiter: char)
    requires AreParts(parts, delimiter) && AreTrimmed(parts) && IsPlain(delimiter)
    ensures Split(Join(parts, delimiter), delimiter) == Some(parts)
  {
    PiecesOfJoin(parts, delimiter);
    TrimAllKeeps(parts);
  }

  // ---------------------------------------------------------------------
  // Splitting loses nothing but white space
  // ---------------------------------------------------------------------

  lemma {:induction false} JoinPush(parts: seq<string>, delimiter: char, last: string, c: char)
    ensures Join(parts + [last + [c]], delimiter) == Join(parts + [last], delimiter) + [c]
    ensures parts != [] ==> Join(parts + [[]], delimiter) == Join(parts, delimiter) + [delimiter]
  {
    var n := |parts|;
    assert (parts + [last + [c]])[..n] == parts == (parts + [last])[..n] == (parts + [[]])[..n];
    if n > 0 {
      var before := Join(parts, delimiter) + [delimiter];
      assert before + (last + [c]) == before + last + [c];
      assert before + [] == before;
    }
  }

  /** Joining the pieces gives the text back. */
  lemma {:induction false} PiecesJoin(text: string, delimiter: char)
    ensures Join(Pieces(text, delimiter), delimiter) == text
  {
    if text != [] {
      var n := |text| - 1;
      var before := Pieces(text[..n], delimiter);
      PiecesJoin(text[..n], delimiter);
      assert text == text[..n] + [text[n]];
      var m := |before| - 1;
      assert before == before[..m] + [before[m]];
      if CutsAt(text, delimiter, n) {
        JoinPush(before, delimiter, [], delimiter);
      } else {
        JoinPush(before[..m], delimiter, before[m], text[n]);
      }
    }
  }

  /** Finished pieces are parts; the last piece is in the same state as the whole text. */
  ghost predicate PiecesOk(pieces: seq<string>, delimiter: char, state: Option<Scan>) {
    && pieces != []
    && (forall k :: 0 <= k < |pieces| - 1 ==> IsPart(pieces[k], delimiter))
    && Run(Every, pieces[|pieces| - 1]) == state && IsUncut(pieces[|pieces| - 1], delimiter)
  }

  lemma {:induction false} UncutPush(part: string, delimiter: char, c: char)
    requires IsUncut(part, delimiter)
    requires !(c == delimiter && IsPlain(delimiter) && Run(Every, part) == Some(TOP))
    ensures IsUncut(part + [c], delimiter)
  {
    var longer := part + [c];
    forall i | 0 <= i < |longer| ensures !CutsAt(longer, delimiter, i) {
      if i < |part| {
        assert longer[..i] == part[..i] && !CutsAt(part, delimiter, i);
      } else {
        assert longer[..i] == part;
      }
    }
  }

  lemma {:induction false} PiecesAreOk(text: string, delimiter: char)
    ensures PiecesOk(Pieces(text, delimiter), delimiter, Run(Every, text))
  {
    if text != [] {
      var n := |text| - 1;
      var before := Pieces(text[..n], delimiter);
      PiecesAreOk(text[..n], delimiter);
      if !CutsAt(text, delimiter, n) {
        var last := before[|before| - 1];
        UncutPush(last, delimiter, text[n]);
      }
    }
  }

  /** White space outside quotes does not move the scan. */
  lemma {:induction false} RunOfBlank(blank: string)
    requires IsBlank(blank)
    ensures Run(Every, blank) == Some(TOP)
  {
    if blank != [] {
      RunOfBlank(blank[..|blank| - 1]);
    }
  }

  lemma {:induction false} MarksAreQuotes(text: string)
    ensures Run(Every, text).Some? && Run(Every, text).value.quote.Inside? ==> IsQuote(Run(Every, text).value.quote.mark)
  {
    if text != [] {
      MarksAreQuotes(text[..|text| - 1]);
    }
  }

  lemma {:induction false} BlankEndsOutside(text: string, blank: string)
    requires IsBlank(blank) && Run(Every, text + blank) == Some(TOP)
    ensures Run(Every, text) == Some(TOP)
  {
    if blank == [] {
      assert text + blank == text;
    } else {
      var n := |blank| - 1;
      MarksAreQuotes(text + blank[..n]);
      assert text + blank == text + blank[..n] + [blank[n]];
      BlankEndsOutside(text, blank[..n]);
    }
  }

  lemma {:induction false} UncutMiddle(a: string, middle: string, b: string, delimiter: char)
    requires Run(Every, a) == Some(TOP) && IsUncut(a + middle + b, delimiter)
    ensures IsUncut(middle, delimiter)
  {
    var whole := a + middle + b;
    forall i | 0 <= i < |middle| ensures !CutsAt(middle, delimiter, i) {
      RunConcat(a, middle[..i]);
      assert whole[..|a| + i] == a + middle[..i] && whole[|a| + i] == middle[i];
      assert !CutsAt(whole, delimiter, |a| + i);
    }
  }

  lemma TrimmedPartIsPart(part: string, delimiter: char)
    requires IsPart(part, delimiter)
    ensures IsPart(Trim(part), delimiter) && IsTrimmed(Trim(part))
  {
    var a, b := TrimCuts(part);
    assert part == part[..a] + part[a..b] + part[b..];
    RunOfBlank(part[..a]);
    BlankEndsOutside(part[..a] + part[a..b], part[b..]);
    RunConcat(part[..a], part[a..b]);
    UncutMiddle(part[..a], part[a..b], part[b..], delimiter);
  }

  /** The split succeeds exactly when brackets and quotes close, and then the parts are the
      trimmed pieces of a text they join to: balanced, uncut, and nothing but white space lost. */
  lemma {:induction false} SplitIsLossless(text: string, delimiter: char)
    ensures Split(text, delimiter).Some? <==> Run(Every, text) == Some(TOP)
    ensures Split(text, delimiter).Some? ==>
      var parts, pieces := Split(text, delimiter).value, Pieces(text, delimiter);
      && parts == TrimAll(pieces) && Join(pieces, delimiter) == text
      && AreParts(pieces, delimiter) && AreParts(parts, delimiter) && AreTrimmed(parts)
  {
    PiecesJoin(text, delimiter);
    PiecesAreOk(text, delimiter);
    if Split(text, delimiter).Some? {
      var pieces := Pieces(text, delimiter);
      forall k | 0 <= k < |pieces| ensures IsPart(pieces[k], delimiter) {
      }
      forall k | 0 <= k < |pieces| ensures IsPart(Trim(pieces[k]), delimiter) && IsTrimmed(Trim(pieces[k])) {
        TrimmedPartIsPart(pieces[k], delimiter);
      }
    }
  }

  /** Any way of writing a text as joined parts is the one the split finds. */
  lemma {:induction false} PiecesAreTheOnlyParts(text: string, delimiter: char, pieces: seq<string>)
    requires IsPlain(delimiter) && AreParts(pieces, delimiter) && Join(pieces, delimiter) == text
    ensures Pieces(text, delimiter) == pieces && Split(text, delimiter) == Some(TrimAll(pieces))
  {
    PiecesOfJoin(pieces, delimiter);
  }

  /** Splitting the joined result of a split gives the same parts again. */
  lemma {:induction false} SplitAgain(text: string, delimiter: char)
    requires Split(text, delimiter).Some? && IsPlain(delimiter)
    ensures Split(Join(Split(text, delimiter).value, delimiter), delimiter) == Split(text, delimiter)
  {
    SplitIsLossless(text, delimiter);
    SplitUndoesJoin(Split(text, delimiter).value, delimiter);
  }

  lemma {:induction false} UncutIsOnePiece(text: string, delimiter: char)
    requires IsUncut(text, delimiter)
    ensures Pieces(text, delimiter) == [text]
  {
    PiecesConcat([], text, delimiter, []);
    assert [] + text == text && [] + [text] == [text];
  }

  /** The prefix ends at the first top-level delimiter, whatever comes after it; without one
      it is the whole text, even unbalanced, unless a bracket closes that never opened. */
  lemma {:induction false} PrefixEndsAtFirstCut(text: string, delimiter: char)
    ensures forall i :: 0 <= i < |text| && CutsAt(text, delimiter, i)
              && (forall j :: 0 <= j < i ==> !CutsAt(text, delimiter, j))
              ==> Prefix(text, delimiter) == Some(Trim(text[..i]))
    ensures IsUncut(text, delimiter) ==>
              Prefix(text, delimiter) == if Run(Every, text).None? then None else Some(Trim(text))
  {
    forall i | 0 <= i < |text| && CutsAt(text, delimiter, i)
              && (forall j :: 0 <= j < i ==> !CutsAt(text, delimiter, j))
      ensures Prefix(text, delimiter) == Some(Trim(text[..i]))
    {
      UncutPrefix(text, delimiter, i);
      UncutIsOnePiece(text[..i], delimiter);
      PrefixCut(text, delimiter, i);
    }
    if IsUncut(text, delimiter) {
      UncutIsOnePiece(text, delimiter);
    }
  }

  /** Whenever the split succeeds, the top-level prefix is its first part. */
  lemma PrefixIsFirstPart(text: string, delimiter: char)
    requires Split(text, delimiter).Some?
    ensures Prefix(text, delimiter) == Some(Split(text, delimiter).value[0])
  {
  }
}
