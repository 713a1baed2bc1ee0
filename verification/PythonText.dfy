/** Python text as it is composed, and what the scanners make of it. */
module PythonText {
  import opened Wrappers
  import opened Text
  import opened Sequences
  import opened PythonScanner

  // Characters, string literals and bracketed groups, as they are written. The scanners of
  // src/analyzer_dossier_proofs.rs know nothing of this structure; the lemmas say that they
  // find it nevertheless.

  /** A character of a string literal. */
  datatype Unit = Ordinary(c: char) | Escaped(c: char)

  datatype Part =
    | Character(c: char)
    | Literal(mark: char, body: seq<Unit>)
    | Group(opening: char, inner: seq<Part>, closing: char)

  function UnitsText(body: seq<Unit>): string {
    if body == [] then []
    else (match body[0] case Ordinary(c) => [c] case Escaped(c) => ['\\', c]) + UnitsText(body[1..])
  }

  function PartText(part: Part): string
    decreases part, 0
  {
    match part
    case Character(c) => [c]
    case Literal(mark, body) => [mark] + UnitsText(body) + [mark]
    case Group(opening, inner, closing) => [opening] + PartsText(inner) + [closing]
  }

  function PartsText(parts: seq<Part>): string
    decreases parts, 1
  {
    if parts == [] then [] else PartText(parts[0]) + PartsText(parts[1..])
  }

  predicate UnitOk(mark: char, u: Unit) {
    u.Ordinary? ==> u.c != mark && u.c != '\\'
  }

  /** Brackets that close each other. The splitter does not tell the three kinds apart; the
      parenthesis matcher sees the round ones only. */
  predicate Pair(brackets: Brackets, opening: char, closing: char) {
    match brackets
    case Every => opening in "([{" && closing in ")]}"
    case Parentheses => (opening == '(' && closing == ')') || (opening in "[{" && closing in "]}")
  }

  predicate PartOk(brackets: Brackets, part: Part)
    decreases part, 0
  {
    match part
    case Character(c) => c !in "'\"()[]{}"
    case Literal(mark, body) => mark in "'\"" && forall i :: 0 <= i < |body| ==> UnitOk(mark, body[i])
    case Group(opening, inner, closing) => Pair(brackets, opening, closing) && PartsOk(brackets, inner)
  }

  predicate PartsOk(brackets: Brackets, parts: seq<Part>)
    decreases parts, 1
  {
    parts == [] || (PartOk(brackets, parts[0]) && PartsOk(brackets, parts[1..]))
  }

  // ---------------------------------------------------------------------
  // The scan over composed text
  // ---------------------------------------------------------------------

  lemma {:induction false} RunPush(brackets: Brackets, text: string, c: char)
    ensures Run(brackets, text + [c])
         == match Run(brackets, text) case None => None case Some(scan) => Step(brackets, scan, c)
  {
    assert (text + [c])[..|text|] == text;
  }

  /** Where the scan is after `i` characters of `text` behind `before`. */
  function At(brackets: Brackets, before: string, text: string, i: nat): Option<Scan>
    requires i <= |text|
  {
    Run(brackets, before + text[..i])
  }

  lemma AtBehind(brackets: Brackets, before: string, a: string, b: string, i: nat)
    requires i <= |a + b|
    ensures At(brackets, before, a + b, i)
         == if i <= |a| then At(brackets, before, a, i) else At(brackets, before + a, b, i - |a|)
  {
    if i <= |a| {
      assert (a + b)[..i] == a[..i];
    } else {
      assert (a + b)[..i] == a + b[..i - |a|];
      Assoc(before, a, b[..i - |a|], []);
    }
  }

  /** The whole text stays inside a literal of this mark. */
  ghost predicate StaysInside(brackets: Brackets, before: string, text: string, depth: nat, mark: char) {
    && At(brackets, before, text, |text|) == Some(Scan(depth, Inside(mark, false)))
    && forall i: nat :: i <= |text| ==>
         At(brackets, before, text, i).Some? && At(brackets, before, text, i).value.quote.Inside?
         && At(brackets, before, text, i).value.depth == depth
  }

  lemma {:induction false} UnitStays(brackets: Brackets, before: string, mark: char, u: Unit, depth: nat)
    requires Run(brackets, before) == Some(Scan(depth, Inside(mark, false))) && UnitOk(mark, u)
    ensures StaysInside(brackets, before, match u case Ordinary(c) => [c] case Escaped(c) => ['\\', c], depth, mark)
  {
    assert before + [] == before;
    match u {
      case Ordinary(c) =>
        RunPush(brackets, before, c);
        assert [c][..1] == [c];
      case Escaped(c) =>
        RunPush(brackets, before, '\\');
        RunPush(brackets, before + ['\\'], c);
        var text := ['\\', c];
        assert text[..1] == ['\\'] && text[..2] == text && before + ['\\'] + [c] == before + text;
    }
  }

  lemma StayOn(brackets: Brackets, before: string, first: string, rest: string, depth: nat, mark: char)
    requires StaysInside(brackets, before, first, depth, mark) && StaysInside(brackets, before + first, rest, depth, mark)
    ensures StaysInside(brackets, before, first + rest, depth, mark)
  {
    var text := first + rest;
    AtBehind(brackets, before, first, rest, |text|);
    forall i: nat | i <= |text|
      ensures At(brackets, before, text, i).Some? && At(brackets, before, text, i).value.quote.Inside?
      ensures At(brackets, before, text, i).value.depth == depth
    {
      AtBehind(brackets, before, first, rest, i);
    }
    if rest == [] {
      assert first + rest == first;
    }
  }

  lemma {:induction false} UnitsStay(brackets: Brackets, before: string, mark: char, body: seq<Unit>, depth: nat)
    requires Run(brackets, before) == Some(Scan(depth, Inside(mark, false)))
    requires forall i :: 0 <= i < |body| ==> UnitOk(mark, body[i])
    ensures StaysInside(brackets, before, UnitsText(body), depth, mark)
    decreases |body|
  {
    if body == [] {
      assert before + [] == before;
    } else {
      var first := match body[0] case Ordinary(c) => [c] case Escaped(c) => ['\\', c];
      UnitStays(brackets, before, mark, body[0], depth);
      assert first[..|first|] == first;
      UnitsStay(brackets, before + first, mark, body[1..], depth);
      StayOn(brackets, before, first, UnitsText(body[1..]), depth, mark);
    }
  }

  /** The text comes back to where it started, and is never less deep in between. */
  ghost predicate ComesBack(brackets: Brackets, before: string, text: string, depth: nat) {
    && At(brackets, before, text, |text|) == Some(Scan(depth, Outside))
    && forall i: nat :: i <= |text| ==> At(brackets, before, text, i).Some? && At(brackets, before, text, i).value.depth >= depth
  }

  /** The character does not occur at the text's own level. */
  ghost predicate Avoids(brackets: Brackets, before: string, text: string, depth: nat, avoid: char) {
    forall i: nat :: i < |text| && At(brackets, before, text, i) == Some(Scan(depth, Outside)) ==> text[i] != avoid
  }

  /** The character is not written at the level of the parts; the scan does not go deeper at
      a bracket that it does not count. */
  predicate Lacks(brackets: Brackets, avoid: char, part: Part)
    decreases part, 0
  {
    match part
    case Character(c) => c != avoid
    case Literal(mark, _) => mark != avoid
    case Group(opening, inner, closing) =>
      opening != avoid && (brackets.Opens(opening) || (closing != avoid && AllLack(brackets, avoid, inner)))
  }

  predicate AllLack(brackets: Brackets, avoid: char, parts: seq<Part>)
    decreases parts, 1
  {
    parts == [] || (Lacks(brackets, avoid, parts[0]) && AllLack(brackets, avoid, parts[1..]))
  }

  /** A text between two characters, scan position by scan position. */
  lemma AtEnclosed(brackets: Brackets, before: string, first: char, middle: string, last: char, i: nat)
    requires i <= |middle| + 2
    ensures At(brackets, before, [first] + middle + [last], i)
         == if i == 0 then Run(brackets, before)
            else if i <= |middle| + 1 then At(brackets, before + [first], middle, i - 1)
            else Run(brackets, before + [first] + middle + [last])
  {
    var text := [first] + middle + [last];
    if i == 0 {
      assert before + text[..0] == before;
    } else if i <= |middle| + 1 {
      assert text[..i] == [first] + middle[..i - 1];
      assert before + ([first] + middle[..i - 1]) == before + [first] + middle[..i - 1];
    } else {
      assert text[..i] == text && before + text == before + [first] + middle + [last];
    }
  }

  /** Everywhere in the text the scan is on, and at least this deep. */
  ghost predicate StaysDeep(brackets: Brackets, before: string, text: string, depth: nat) {
    forall i: nat :: i <= |text| ==> At(brackets, before, text, i).Some? && At(brackets, before, text, i).value.depth >= depth
  }

  /** The scan is at this level nowhere in the text. */
  ghost predicate StaysOff(brackets: Brackets, before: string, text: string, depth: nat) {
    forall i: nat :: i <= |text| ==> At(brackets, before, text, i) != Some(Scan(depth, Outside))
  }

  lemma EnclosedComesBack(brackets: Brackets, before: string, first: char, middle: string, last: char, depth: nat)
    requires Run(brackets, before) == Some(Scan(depth, Outside)) && StaysDeep(brackets, before + [first], middle, depth)
    requires Run(brackets, before + [first] + middle + [last]) == Some(Scan(depth, Outside))
    ensures ComesBack(brackets, before, [first] + middle + [last], depth)
  {
    var text := [first] + middle + [last];
    AtEnclosed(brackets, before, first, middle, last, |text|);
    forall i: nat | i <= |text|
      ensures At(brackets, before, text, i).Some? && At(brackets, before, text, i).value.depth >= depth
    {
      AtEnclosed(brackets, before, first, middle, last, i);
    }
  }

  lemma EnclosedAvoids(brackets: Brackets, before: string, first: char, middle: string, last: char, depth: nat, avoid: char)
    requires first != avoid
    requires || StaysOff(brackets, before + [first], middle, depth)
             || (last != avoid && Avoids(brackets, before + [first], middle, depth, avoid))
    ensures Avoids(brackets, before, [first] + middle + [last], depth, avoid)
  {
    var text := [first] + middle + [last];
    forall i: nat | i < |text| && At(brackets, before, text, i) == Some(Scan(depth, Outside)) ensures text[i] != avoid {
      AtEnclosed(brackets, before, first, middle, last, i);
      assert 0 < i <= |middle| ==> text[i] == middle[i - 1];
    }
  }

  lemma {:induction false} LiteralIsScanned(brackets: Brackets, before: string, mark: char, body: seq<Unit>, depth: nat, avoid: char)
    requires Run(brackets, before) == Some(Scan(depth, Outside)) && PartOk(brackets, Literal(mark, body))
    ensures ComesBack(brackets, before, PartText(Literal(mark, body)), depth)
    ensures mark != avoid ==> Avoids(brackets, before, PartText(Literal(mark, body)), depth, avoid)
  {
    var units := UnitsText(body);
    RunPush(brackets, before, mark);
    UnitsStay(brackets, before + [mark], mark, body, depth);
    assert units[..|units|] == units;
    RunPush(brackets, before + [mark] + units, mark);
    EnclosedComesBack(brackets, before, mark, units, mark, depth);
    if mark != avoid {
      EnclosedAvoids(brackets, before, mark, units, mark, depth, avoid);
    }
  }

  /** A bracket and its partner, whether the scan counts them or not. */
  lemma PairReturns(brackets: Brackets, opening: char, closing: char, depth: nat) returns (deeper: nat)
    requires Pair(brackets, opening, closing)
    ensures deeper == if brackets.Opens(opening) then depth + 1 else depth
    ensures Step(brackets, Scan(depth, Outside), opening) == Some(Scan(deeper, Outside))
    ensures Step(brackets, Scan(deeper, Outside), closing) == Some(Scan(depth, Outside))
  {
    deeper := if brackets.Opens(opening) then depth + 1 else depth;
  }

  lemma {:induction false} GroupIsScanned(brackets: Brackets, before: string, group: Part, depth: nat, avoid: char)
    requires group.Group? && Run(brackets, before) == Some(Scan(depth, Outside)) && PartOk(brackets, group)
    ensures ComesBack(brackets, before, PartText(group), depth)
    ensures Lacks(brackets, avoid, group) ==> Avoids(brackets, before, PartText(group), depth, avoid)
    decreases group, 0
  {
    var opening, closing, inner := group.opening, group.closing, PartsText(group.inner);
    var deeper := PairReturns(brackets, opening, closing, depth);
    RunPush(brackets, before, opening);
    PartsAreScanned(brackets, before + [opening], group.inner, deeper, avoid);
    assert inner[..|inner|] == inner;
    RunPush(brackets, before + [opening] + inner, closing);
    EnclosedComesBack(brackets, before, opening, inner, closing, depth);
    if Lacks(brackets, avoid, group) {
      EnclosedAvoids(brackets, before, opening, inner, closing, depth, avoid);
    }
  }

  lemma {:induction false} PartIsScanned(brackets: Brackets, before: string, part: Part, depth: nat, avoid: char)
    requires Run(brackets, before) == Some(Scan(depth, Outside)) && PartOk(brackets, part)
    ensures ComesBack(brackets, before, PartText(part), depth)
    ensures Lacks(brackets, avoid, part) ==> Avoids(brackets, before, PartText(part), depth, avoid)
    decreases part, 1
  {
    match part {
      case Character(c) =>
        RunPush(brackets, before, c);
        assert [c][..1] == [c] && before + [] == before;
      case Literal(mark, body) => LiteralIsScanned(brackets, before, mark, body, depth, avoid);
      case Group(_, _, _) => GroupIsScanned(brackets, before, part, depth, avoid);
    }
  }

  lemma BehindComesBack(brackets: Brackets, before: string, first: string, rest: string, depth: nat)
    requires ComesBack(brackets, before, first, depth) && ComesBack(brackets, before + first, rest, depth)
    ensures ComesBack(brackets, before, first + rest, depth)
  {
    var text := first + rest;
    AtBehind(brackets, before, first, rest, |text|);
    assert rest == [] ==> text == first;
    forall i: nat | i <= |text|
      ensures At(brackets, before, text, i).Some? && At(brackets, before, text, i).value.depth >= depth
    {
      AtBehind(brackets, before, first, rest, i);
    }
  }

  lemma BehindAvoids(brackets: Brackets, before: string, first: string, rest: string, depth: nat, avoid: char)
    requires Avoids(brackets, before, first, depth, avoid) && Avoids(brackets, before + first, rest, depth, avoid)
    ensures Avoids(brackets, before, first + rest, depth, avoid)
  {
    var text := first + rest;
    forall i: nat | i < |text| && At(brackets, before, text, i) == Some(Scan(depth, Outside)) ensures text[i] != avoid {
      AtBehind(brackets, before, first, rest, i);
      if i == |first| {
        assert before + first[..i] == before + first == before + first + rest[..0];
      }
    }
  }

  /** Composed text comes back to its level, and shows there only what is written there. */
  lemma {:induction false} PartsAreScanned(brackets: Brackets, before: string, parts: seq<Part>, depth: nat, avoid: char)
    requires Run(brackets, before) == Some(Scan(depth, Outside)) && PartsOk(brackets, parts)
    ensures ComesBack(brackets, before, PartsText(parts), depth)
    ensures AllLack(brackets, avoid, parts) ==> Avoids(brackets, before, PartsText(parts), depth, avoid)
    decreases parts, 2
  {
    if parts == [] {
      assert before + [] == before;
    } else {
      var first, rest := PartText(parts[0]), PartsText(parts[1..]);
      PartIsScanned(brackets, before, parts[0], depth, avoid);
      assert first[..|first|] == first;
      PartsAreScanned(brackets, before + first, parts[1..], depth, avoid);
      BehindComesBack(brackets, before, first, rest, depth);
      if AllLack(brackets, avoid, parts) {
        BehindAvoids(brackets, before, first, rest, depth, avoid);
      }
    }
  }

  // ---------------------------------------------------------------------
  // Splitting and matching composed text
  // ---------------------------------------------------------------------

  function RowsTexts(rows: seq<seq<Part>>): seq<string> {
    seq(|rows|, i requires 0 <= i < |rows| => PartsText(rows[i]))
  }

  lemma {:induction false} RowIsPart(row: seq<Part>, delimiter: char)
    requires PartsOk(Every, row) && AllLack(Every, delimiter, row)
    ensures IsPart(PartsText(row), delimiter)
  {
    var text := PartsText(row);
    PartsAreScanned(Every, [], row, 0, delimiter);
    assert text[..|text|] == text && [] + text == text;
    forall i | 0 <= i < |text| ensures !CutsAt(text, delimiter, i) {
      assert [] + text[..i] == text[..i];
      assert At(Every, [], text, i) == Run(Every, text[..i]);
    }
  }

  /** A list of expressions, however they nest brackets and whatever their string literals
      hold, is split at the delimiters between them and nowhere else. */
  lemma {:induction false} SplitFindsTheRows(rows: seq<seq<Part>>, delimiter: char)
    requires rows != [] && delimiter !in "'\"()[]{}"
    requires forall i :: 0 <= i < |rows| ==> PartsOk(Every, rows[i]) && AllLack(Every, delimiter, rows[i])
    ensures Split(Join(RowsTexts(rows), delimiter), delimiter) == Some(TrimAll(RowsTexts(rows)))
  {
    var texts := RowsTexts(rows);
    forall i | 0 <= i < |texts| ensures IsPart(texts[i], delimiter) {
      RowIsPart(rows[i], delimiter);
    }
    PiecesAreTheOnlyParts(Join(texts, delimiter), delimiter, texts);
  }

  lemma {:induction false} NoneCloses(parts: seq<Part>)
    requires PartsOk(Parentheses, parts)
    ensures AllLack(Parentheses, ')', parts)
    decreases parts
  {
    if parts != [] {
      match parts[0] {
        case Character(_) =>
        case Literal(_, _) =>
        case Group(_, inner, _) => NoneCloses(inner);
      }
      NoneCloses(parts[1..]);
    }
  }

  /** No earlier parenthesis closes: inside, the scan is deeper or sees something else. */
  lemma NoneClosesInside(parts: seq<Part>, i: nat)
    requires PartsOk(Parentheses, parts) && i < |PartsText(parts)|
    ensures Run(Parentheses, "(" + PartsText(parts)) == Some(Scan(1, Outside))
    ensures Run(Parentheses, "(" + PartsText(parts)[..i]) == Some(Scan(1, Outside)) ==> PartsText(parts)[i] != ')'
  {
    var inner := PartsText(parts);
    NoneCloses(parts);
    OpeningIsScanned();
    PartsAreScanned(Parentheses, "(", parts, 1, ')');
    assert inner[..|inner|] == inner;
    assert At(Parentheses, "(", inner, |inner|) == Run(Parentheses, "(" + inner);
    assert At(Parentheses, "(", inner, i) == Run(Parentheses, "(" + inner[..i]);
  }

  lemma OpeningIsScanned()
    ensures Run(Parentheses, "(") == Some(Scan(1, Outside))
  {
    RunPush(Parentheses, [], '(');
    assert [] + ['('] == "(";
  }

  /** The parenthesis that closes the one at the start is found behind whatever is between
      them, and whatever follows. */
  lemma {:induction false} TheClosingParenthesisIsFound(before: string, parts: seq<Part>, after: string)
    requires PartsOk(Parentheses, parts)
    ensures var value, start := before + ("(" + PartsText(parts) + ")" + after), |before|;
            var p := start + 1 + |PartsText(parts)|;
            ClosesAt(value, start, p) && NoneClosesBefore(value, start, p)
  {
    var inner := PartsText(parts);
    var text := "(" + inner + ")" + after;
    var value, start := before + text, |before|;
    var p := start + 1 + |inner|;
    OpeningIsScanned();
    if inner == [] {
      assert value[start..p] == "(";
    } else {
      NoneClosesInside(parts, 0);
      assert value[start..p] == "(" + inner;
    }
    assert value[p] == text[1 + |inner|] == ')';
    forall q: nat | start <= q < p ensures !ClosesAt(value, start, q) {
      assert value[q] == text[q - start];
      if q > start {
        NoneClosesInside(parts, q - start - 1);
        assert value[start..q] == "(" + inner[..q - start - 1] && value[q] == inner[q - start - 1];
      }
    }
  }
}
