/** The JavaScript masker: blanks comments, strings, templates and regular expressions
    (`regex_can_start` and `mask_js_non_code` in src/analyzer_dossier_js_ts.rs). */
module JsMask {
  import opened Bytes
  import opened Sequences

  const TAB: byte := 9
  const FORM_FEED: byte := 12
  const BANG: byte := 33
  const DOUBLE_QUOTE: byte := 34
  const AMPERSAND: byte := 38
  const SINGLE_QUOTE: byte := 39
  const OPEN_PAREN: byte := 40
  const STAR: byte := 42
  const COMMA: byte := 44
  const SLASH: byte := 47
  const COLON: byte := 58
  const SEMICOLON: byte := 59
  const EQUALS: byte := 61
  const QUESTION: byte := 63
  const OPEN_BRACKET: byte := 91
  const BACKSLASH: byte := 92
  const CLOSE_BRACKET: byte := 93
  const UNDERSCORE: byte := 95
  const BACKTICK: byte := 96
  const OPEN_BRACE: byte := 123
  const PIPE: byte := 124
  const CLOSE_BRACE: byte := 125

  datatype LexState =
    | Code | SingleQuote | DoubleQuote | Template | LineComment | BlockComment | Regex | RegexClass

  // ---------------------------------------------------------------------
  // regex_can_start
  // ---------------------------------------------------------------------

  predicate IsAsciiWhitespace(b: byte) {
    b == SPACE || b == TAB || b == NEWLINE || b == FORM_FEED || b == CARRIAGE_RETURN
  }

  predicate IsAsciiAlphabetic(b: byte) {
    65 <= b <= 90 || 97 <= b <= 122
  }

  predicate IsWordByte(b: byte) {
    IsAsciiAlphabetic(b) || 48 <= b <= 57 || b == UNDERSCORE
  }

  function WithoutTrailingWhitespace(masked: seq<byte>): seq<byte> {
    if masked != [] && IsAsciiWhitespace(masked[|masked| - 1])
    then WithoutTrailingWhitespace(masked[..|masked| - 1])
    else masked
  }

  function LastWord(masked: seq<byte>): seq<byte> {
    if masked != [] && IsWordByte(masked[|masked| - 1])
    then LastWord(masked[..|masked| - 1]) + [masked[|masked| - 1]]
    else []
  }

  /** A slash after this code starts a regular expression rather than a division. */
  predicate RegexCanStart(masked: seq<byte>) {
    var code := WithoutTrailingWhitespace(masked);
    if code == [] then true
    else
      var previous := code[|code| - 1];
      || previous in [OPEN_PAREN, OPEN_BRACKET, OPEN_BRACE, EQUALS, COLON, COMMA, SEMICOLON, BANG, QUESTION, AMPERSAND, PIPE]
      || (IsAsciiAlphabetic(previous)
          && LastWord(code) in [Ascii("return"), Ascii("case"), Ascii("throw"), Ascii("yield"),
                                Ascii("await"), Ascii("typeof"), Ascii("instanceof")])
  }

  // ---------------------------------------------------------------------
  // The lexer as a function
  // ---------------------------------------------------------------------

  /** `out` is the masked text so far; it is as long as the consumed source. */
  datatype Lexer = Lexer(out: seq<byte>, state: LexState, escaped: bool)

  function Blank(b: byte): byte {
    if b == NEWLINE then b else SPACE
  }

  /** Whether the step at the head of `rest` takes two bytes. */
  predicate TakesTwo(rest: seq<byte>, state: LexState) {
    && |rest| >= 2
    && (|| (state == Code && rest[0] == SLASH && (rest[1] == SLASH || rest[1] == STAR))
        || (state == BlockComment && rest[0] == STAR && rest[1] == SLASH))
  }

  function Taken(rest: seq<byte>, state: LexState): nat
    requires rest != []
  {
    if TakesTwo(rest, state) then 2 else 1
  }

  /** The state a quote, backtick or regex slash opens from code. */
  function Opened(canStart: seq<byte> -> bool, b: byte, out: seq<byte>): LexState {
    if b == SINGLE_QUOTE then SingleQuote
    else if b == DOUBLE_QUOTE then DoubleQuote
    else if b == BACKTICK then Template
    else if b == SLASH && canStart(out) then Regex
    else Code
  }

  /** The state after an unescaped byte inside a literal. */
  function AfterLiteralByte(state: LexState, b: byte): LexState {
    if state == SingleQuote && b == SINGLE_QUOTE then Code
    else if state == DoubleQuote && b == DOUBLE_QUOTE then Code
    else if state == Template && b == BACKTICK then Code
    else if state == Regex && b == OPEN_BRACKET then RegexClass
    else if state == Regex && b == SLASH then Code
    else if state == RegexClass && b == CLOSE_BRACKET then Regex
    else if (state == SingleQuote || state == DoubleQuote || state == Regex) && b == NEWLINE then Code
    else state
  }

  function Step(canStart: seq<byte> -> bool, rest: seq<byte>, l: Lexer): Lexer
    requires rest != []
  {
    var b := rest[0];
    match l.state
    case Code =>
      if TakesTwo(rest, Code) then
        Lexer(l.out + [SPACE, SPACE], if rest[1] == SLASH then LineComment else BlockComment, l.escaped)
      else
        var entered := Opened(canStart, b, l.out);
        Lexer(l.out + [if entered == Code then b else SPACE], entered, l.escaped)
    case LineComment =>
      Lexer(l.out + [Blank(b)], if b == NEWLINE then Code else LineComment, l.escaped)
    case BlockComment =>
      if TakesTwo(rest, BlockComment) then Lexer(l.out + [SPACE, SPACE], Code, l.escaped)
      else Lexer(l.out + [Blank(b)], BlockComment, l.escaped)
    case _ =>
      if l.escaped then Lexer(l.out + [Blank(b)], l.state, false)
      else if b == BACKSLASH then Lexer(l.out + [Blank(b)], l.state, true)
      else Lexer(l.out + [Blank(b)], AfterLiteralByte(l.state, b), false)
  }

  function Run(canStart: seq<byte> -> bool, rest: seq<byte>, l: Lexer): (final: Lexer)
    decreases |rest|
  {
    if rest == [] then l else Run(canStart, rest[Taken(rest, l.state)..], Step(canStart, rest, l))
  }

  const START := Lexer([], Code, false)

  function Mask(source: seq<byte>): seq<byte> {
    Run(RegexCanStart, source, START).out
  }

  // ---------------------------------------------------------------------
  // The loop over the buffer
  // ---------------------------------------------------------------------

  /** One iteration: blanks the byte or the pair at `index` in place where the state says so. */
  method StepInPlace(source: seq<byte>, masked: array<byte>, index: nat, state: LexState, escaped: bool)
    returns (state': LexState, escaped': bool, taken: nat)
    requires index < |source| == masked.Length
    requires forall i :: index <= i < masked.Length ==> masked[i] == source[i]
    modifies masked
    ensures taken == Taken(source[index..], state)
    ensures Lexer(masked[..index + taken], state', escaped') == Step(RegexCanStart, source[index..], Lexer(old(masked[..index]), state, escaped))
    ensures forall i :: index + taken <= i < masked.Length ==> masked[i] == source[i]
  {
    ghost var rest := source[index..];
    ghost var was := masked[..index];
    state', escaped', taken := state, escaped, 1;
    var b := source[index];
    if index + 1 < |source| && TakesTwo([b, source[index + 1]], state) {
      assert TakesTwo(rest, state);
      masked[index] := SPACE;
      masked[index + 1] := SPACE;
      taken := 2;
      state' := if state == BlockComment then Code else if source[index + 1] == SLASH then LineComment else BlockComment;
      assert masked[..index + 2] == was + [SPACE, SPACE];
      return;
    }
    assert !TakesTwo(rest, state);
    if state == Code {
      var entered := Opened(RegexCanStart, b, masked[..index]);
      if entered != Code {
        masked[index] := SPACE;
        state' := entered;
      }
      assert masked[..index + 1] == was + [if entered == Code then b else SPACE];
      return;
    }
    if b != NEWLINE {
      masked[index] := SPACE;
    }
    assert masked[..index + 1] == was + [Blank(b)];
    if state == LineComment {
      state' := if b == NEWLINE then Code else LineComment;
    } else if state != BlockComment {
      if escaped {
        escaped' := false;
      } else if b == BACKSLASH {
        escaped' := true;
      } else {
        state' := AfterLiteralByte(state, b);
      }
    }
  }

  /** `mask_js_non_code`: overwrites a copy of the source in place. */
  method MaskJsNonCode(source: seq<byte>) returns (masked: array<byte>)
    ensures fresh(masked) && masked[..] == Mask(source)
  {
    masked := new byte[|source|](i requires 0 <= i < |source| => source[i]);
    var state := Code;
    var escaped := false;
    var index := 0;
    assert source[0..] == source && masked[..0] == [];
    while index < |source|
      invariant 0 <= index <= |source| == masked.Length
      invariant Run(RegexCanStart, source[index..], Lexer(masked[..index], state, escaped)) == Run(RegexCanStart, source, START)
      invariant forall i :: index <= i < masked.Length ==> masked[i] == source[i]
    {
      var taken;
      ghost var rest := source[index..];
      state, escaped, taken := StepInPlace(source, masked, index, state, escaped);
      assert rest[taken..] == source[index + taken..];
      index := index + taken;
    }
    assert masked[..] == masked[..index];
  }

  // ---------------------------------------------------------------------
  // Only blanking
  // ---------------------------------------------------------------------

  /** Same length, newlines in place, and every other change is to a space. */
  ghost predicate Blanks(source: seq<byte>, masked: seq<byte>) {
    && |masked| == |source|
    && forall i :: 0 <= i < |source| ==> masked[i] == source[i] || (masked[i] == SPACE && source[i] != NEWLINE)
  }

  lemma StepBlanks(canStart: seq<byte> -> bool, rest: seq<byte>, l: Lexer)
    requires rest != []
    ensures var n := Taken(rest, l.state);
            && n <= |rest| && l.out <= Step(canStart, rest, l).out
            && Blanks(rest[..n], Step(canStart, rest, l).out[|l.out|..])
  {
    var t := Step(canStart, rest, l).out;
    assert t == l.out + t[|l.out|..];
  }

  lemma {:induction false} RunBlanks(canStart: seq<byte> -> bool, rest: seq<byte>, l: Lexer)
    ensures l.out <= Run(canStart, rest, l).out && Blanks(rest, Run(canStart, rest, l).out[|l.out|..])
    decreases |rest|
  {
    if rest != [] {
      var n := Taken(rest, l.state);
      StepBlanks(canStart, rest, l);
      RunBlanks(canStart, rest[n..], Step(canStart, rest, l));
      var final, m := Run(canStart, rest, l).out, |l.out|;
      assert final[m..][..n] == Step(canStart, rest, l).out[m..];
      assert final[m..][n..] == final[m + n..];
      forall i | 0 <= i < |rest| ensures final[m..][i] == rest[i] || (final[m..][i] == SPACE && rest[i] != NEWLINE) {
        if i < n {
          assert final[m..][..n][i] == final[m..][i] && rest[..n][i] == rest[i];
        } else {
          assert final[m + n..][i - n] == final[m..][i] && rest[n..][i - n] == rest[i];
        }
      }
    }
  }

  /** Masking keeps the length and every newline and changes a byte only to a space. */
  lemma MaskOnlyBlanks(source: seq<byte>)
    ensures Blanks(source, Mask(source))
    ensures forall i :: 0 <= i < |source| ==> (Mask(source)[i] == NEWLINE <==> source[i] == NEWLINE)
  {
    RunBlanks(RegexCanStart, source, START);
    assert Mask(source)[0..] == Mask(source);
  }

  // ---------------------------------------------------------------------
  // Masked text is pure code, and masking is idempotent
  // ---------------------------------------------------------------------

  predicate IsQuote(b: byte) {
    b == SINGLE_QUOTE || b == DOUBLE_QUOTE || b == BACKTICK
  }

  /** Nothing at position `i` would open a comment or a literal. */
  ghost predicate InertAt(canStart: seq<byte> -> bool, text: seq<byte>, i: nat)
    requires i < |text|
  {
    && !IsQuote(text[i])
    && (text[i] == SLASH ==>
          && !canStart(text[..i])
          && (i + 1 < |text| ==> text[i + 1] != SLASH && text[i + 1] != STAR))
  }

  ghost predicate Inert(canStart: seq<byte> -> bool, text: seq<byte>) {
    forall i :: 0 <= i < |text| ==> InertAt(canStart, text, i)
  }

  /** The text so far stays inert whatever of `rest`, blanked or not, follows it. */
  ghost predicate InertBefore(canStart: seq<byte> -> bool, out: seq<byte>, rest: seq<byte>) {
    && Inert(canStart, out)
    && (out != [] && out[|out| - 1] == SLASH && rest != [] ==> rest[0] != SLASH && rest[0] != STAR)
  }

  lemma InertAppend(canStart: seq<byte> -> bool, out: seq<byte>, b: byte)
    requires Inert(canStart, out) && !IsQuote(b)
    requires b == SLASH ==> !canStart(out)
    requires out != [] && out[|out| - 1] == SLASH ==> b != SLASH && b != STAR
    ensures Inert(canStart, out + [b])
  {
    var grown := out + [b];
    forall i | 0 <= i < |grown| ensures InertAt(canStart, grown, i) {
      if i < |out| {
        assert InertAt(canStart, out, i) && grown[..i] == out[..i];
      } else {
        assert grown[..i] == out;
      }
    }
  }

  lemma StepKeepsInert(canStart: seq<byte> -> bool, rest: seq<byte>, l: Lexer)
    requires rest != [] && InertBefore(canStart, l.out, rest)
    ensures InertBefore(canStart, Step(canStart, rest, l).out, rest[Taken(rest, l.state)..])
  {
    var t := Step(canStart, rest, l).out;
    if TakesTwo(rest, l.state) {
      InertAppend(canStart, l.out, SPACE);
      InertAppend(canStart, l.out + [SPACE], SPACE);
      assert l.out + [SPACE, SPACE] == l.out + [SPACE] + [SPACE];
    } else {
      InertAppend(canStart, l.out, t[|l.out|]);
    }
  }

  lemma {:induction false} RunKeepsInert(canStart: seq<byte> -> bool, rest: seq<byte>, l: Lexer)
    requires InertBefore(canStart, l.out, rest)
    ensures Inert(canStart, Run(canStart, rest, l).out)
    decreases |rest|
  {
    if rest != [] {
      StepKeepsInert(canStart, rest, l);
      RunKeepsInert(canStart, rest[Taken(rest, l.state)..], Step(canStart, rest, l));
    }
  }

  lemma {:induction false} InertTextRunsAsCode(canStart: seq<byte> -> bool, text: seq<byte>, i: nat)
    requires Inert(canStart, text) && i <= |text|
    ensures Run(canStart, text[i..], Lexer(text[..i], Code, false)) == Lexer(text, Code, false)
    decreases |text| - i
  {
    if i == |text| {
      assert text[..i] == text;
    } else {
      var rest := text[i..];
      assert InertAt(canStart, text, i) && rest[0] == text[i];
      assert |rest| >= 2 ==> rest[1] == text[i + 1];
      assert text[..i] + [text[i]] == text[..i + 1];
      assert rest[1..] == text[i + 1..];
      InertTextRunsAsCode(canStart, text, i + 1);
    }
  }

  /** The masked text contains no quote and nothing that starts a comment or a regular
      expression; such texts are exactly the ones masking leaves alone. */
  lemma MaskedTextIsInert(source: seq<byte>)
    ensures Inert(RegexCanStart, Mask(source))
    ensures Mask(source) == source <==> Inert(RegexCanStart, source)
  {
    RunKeepsInert(RegexCanStart, source, START);
    if Inert(RegexCanStart, source) {
      assert source[0..] == source && source[..0] == [];
      InertTextRunsAsCode(RegexCanStart, source, 0);
    }
  }

  lemma MaskIsIdempotent(source: seq<byte>)
    ensures Mask(Mask(source)) == Mask(source)
  {
    MaskedTextIsInert(source);
    MaskedTextIsInert(Mask(source));
  }

  // ---------------------------------------------------------------------
  // UTF-8 in, UTF-8 out
  // ---------------------------------------------------------------------

  predicate IsTail(b: byte) {
    0x80 <= b <= 0xBF
  }

  /** The length of the UTF-8 character the bytes start with (section 4 of RFC 3629), or 0. */
  function CharLength(s: seq<byte>): nat {
    if s == [] then 0
    else if s[0] <= 0x7F then 1
    else if |s| >= 2 && 0xC2 <= s[0] <= 0xDF && IsTail(s[1]) then 2
    else if |s| >= 3 && IsTail(s[1]) && IsTail(s[2])
            && (|| (s[0] == 0xE0 && 0xA0 <= s[1])
                || 0xE1 <= s[0] <= 0xEC
                || (s[0] == 0xED && s[1] <= 0x9F)
                || 0xEE <= s[0] <= 0xEF) then 3
    else if |s| >= 4 && IsTail(s[1]) && IsTail(s[2]) && IsTail(s[3])
            && (|| (s[0] == 0xF0 && 0x90 <= s[1])
                || 0xF1 <= s[0] <= 0xF3
                || (s[0] == 0xF4 && s[1] <= 0x8F)) then 4
    else 0
  }

  predicate ValidUtf8(s: seq<byte>)
    decreases |s|
  {
    s == [] || (0 < CharLength(s) <= |s| && ValidUtf8(s[CharLength(s)..]))
  }

  lemma {:induction false} Utf8Cons(a: seq<byte>, b: seq<byte>, n: nat)
    requires n == CharLength(a) && 0 < n <= |a| && ValidUtf8(a[n..] + b)
    ensures ValidUtf8(a + b)
  {
    assert (a + b)[n..] == a[n..] + b;
  }

  lemma {:induction false} Utf8Concat(a: seq<byte>, b: seq<byte>)
    requires ValidUtf8(a) && ValidUtf8(b)
    ensures ValidUtf8(a + b)
    decreases |a|
  {
    if a == [] {
      assert a + b == b;
    } else {
      Utf8Concat(a[CharLength(a)..], b);
      Utf8Cons(a, b, CharLength(a));
    }
  }

  lemma {:induction false} AsciiIsUtf8(s: seq<byte>)
    requires forall i :: 0 <= i < |s| ==> s[i] <= 0x7F
    ensures ValidUtf8(s)
  {
    if s != [] {
      AsciiIsUtf8(s[1..]);
    }
  }

  function Spaces(n: nat): seq<byte> {
    seq(n, _ => SPACE)
  }

  function Carried(rest: seq<byte>, state: LexState, n: nat): seq<byte>
    requires n <= |rest|
  {
    if state == Code then rest[..n] else Spaces(n)
  }

  lemma CarryOne(out: seq<byte>, rest: seq<byte>, state: LexState, n: nat)
    requires 0 < n <= |rest|
    ensures out + Carried(rest, state, n - 1) + [if state == Code then rest[n - 1] else SPACE]
         == out + Carried(rest, state, n)
  {
  }

  lemma RunOneNonAscii(canStart: seq<byte> -> bool, rest: seq<byte>, l: Lexer) returns (escaped: bool)
    requires rest != [] && rest[0] >= 0x80
    ensures Run(canStart, rest, l) == Run(canStart, rest[1..], Lexer(l.out + [if l.state == Code then rest[0] else SPACE], l.state, escaped))
  {
    escaped := Step(canStart, rest, l).escaped;
  }

  /** Within a multi-byte character the lexer only copies, in code, or only blanks. */
  lemma {:induction false} RunOverNonAscii(canStart: seq<byte> -> bool, rest: seq<byte>, l: Lexer, n: nat) returns (escaped: bool)
    requires n <= |rest| && forall i :: 0 <= i < n ==> rest[i] >= 0x80
    ensures Run(canStart, rest, l) == Run(canStart, rest[n..], Lexer(l.out + Carried(rest, l.state, n), l.state, escaped))
    decreases n
  {
    if n == 0 {
      escaped := l.escaped;
      assert rest[0..] == rest && l.out + Carried(rest, l.state, 0) == l.out;
    } else {
      var before := RunOverNonAscii(canStart, rest, l, n - 1);
      escaped := RunOneNonAscii(canStart, rest[n - 1..], Lexer(l.out + Carried(rest, l.state, n - 1), l.state, before));
      assert rest[n - 1..][1..] == rest[n..];
      CarryOne(l.out, rest, l.state, n);
    }
  }

  lemma StepAdds(canStart: seq<byte> -> bool, rest: seq<byte>, l: Lexer) returns (added: seq<byte>)
    requires rest != []
    ensures Step(canStart, rest, l).out == l.out + added
    ensures added == if TakesTwo(rest, l.state) then [SPACE, SPACE] else [added[0]]
    ensures added[0] == SPACE || added[0] == rest[0]
  {
    added := if TakesTwo(rest, l.state) then [SPACE, SPACE] else [Step(canStart, rest, l).out[|l.out|]];
  }

  lemma {:induction false} AsciiStepKeepsUtf8(canStart: seq<byte> -> bool, rest: seq<byte>, l: Lexer)
    requires rest != [] && rest[0] <= 0x7F && ValidUtf8(rest) && ValidUtf8(l.out)
    ensures ValidUtf8(Step(canStart, rest, l).out) && ValidUtf8(rest[Taken(rest, l.state)..])
  {
    var added := StepAdds(canStart, rest, l);
    AsciiIsUtf8(added);
    Utf8Concat(l.out, added);
    if TakesTwo(rest, l.state) {
      assert CharLength(rest[1..]) == 1 && rest[2..] == rest[1..][1..];
    }
  }

  lemma {:induction false} CarriedIsUtf8(rest: seq<byte>, state: LexState)
    requires rest != [] && ValidUtf8(rest)
    ensures ValidUtf8(Carried(rest, state, CharLength(rest)))
  {
    var n := CharLength(rest);
    if state == Code {
      assert CharLength(rest[..n]) == n && rest[..n][n..] == [];
    } else {
      AsciiIsUtf8(Spaces(n));
    }
  }

  lemma {:induction false} RunKeepsUtf8(canStart: seq<byte> -> bool, rest: seq<byte>, l: Lexer)
    requires ValidUtf8(rest) && ValidUtf8(l.out)
    ensures ValidUtf8(Run(canStart, rest, l).out)
    decreases |rest|
  {
    if rest != [] {
      if rest[0] <= 0x7F {
        AsciiStepKeepsUtf8(canStart, rest, l);
        RunKeepsUtf8(canStart, rest[Taken(rest, l.state)..], Step(canStart, rest, l));
      } else {
        var n := CharLength(rest);
        var escaped := RunOverNonAscii(canStart, rest, l, n);
        CarriedIsUtf8(rest, l.state);
        Utf8Concat(l.out, Carried(rest, l.state, n));
        RunKeepsUtf8(canStart, rest[n..], Lexer(l.out + Carried(rest, l.state, n), l.state, escaped));
      }
    }
  }

  /** The masked text of a Rust string is again a valid string. */
  lemma {:induction false} MaskKeepsUtf8(source: seq<byte>)
    requires ValidUtf8(source)
    ensures ValidUtf8(Mask(source))
  {
    RunKeepsUtf8(RegexCanStart, source, START);
  }

  // ---------------------------------------------------------------------
  // What gets blanked: sources built from code and literals
  // ---------------------------------------------------------------------

  /** One unit of a literal's body; an escape hides any byte. */
  datatype LiteralUnit = Plain(b: byte) | Escaped(b: byte)

  datatype RegexPart = Single(unit: LiteralUnit) | Class(units: seq<LiteralUnit>)

  /** A string or a regular expression that is not closed ends with its line. */
  datatype Piece =
    | CodeText(text: seq<byte>)
    | Quoted(quote: byte, units: seq<LiteralUnit>, closed: bool)
    | LineRemark(remark: seq<byte>)
    | BlockRemark(block: seq<byte>)
    | RegexLiteral(parts: seq<RegexPart>, closed: bool)

  function UnitBytes(u: LiteralUnit): seq<byte> {
    match u
    case Plain(b) => [b]
    case Escaped(b) => [BACKSLASH, b]
  }

  function UnitsBytes(units: seq<LiteralUnit>): seq<byte> {
    if units == [] then [] else UnitBytes(units[0]) + UnitsBytes(units[1..])
  }

  function PartBytes(part: RegexPart): seq<byte> {
    match part
    case Single(u) => UnitBytes(u)
    case Class(units) => [OPEN_BRACKET] + UnitsBytes(units) + [CLOSE_BRACKET]
  }

  function PartsBytes(parts: seq<RegexPart>): seq<byte> {
    if parts == [] then [] else PartBytes(parts[0]) + PartsBytes(parts[1..])
  }

  function PieceBytes(p: Piece): seq<byte> {
    match p
    case CodeText(text) => text
    case Quoted(quote, units, closed) => [quote] + UnitsBytes(units) + [if closed then quote else NEWLINE]
    case LineRemark(remark) => [SLASH, SLASH] + remark + [NEWLINE]
    case BlockRemark(block) => [SLASH, STAR] + block + [STAR, SLASH]
    case RegexLiteral(parts, closed) => [SLASH] + PartsBytes(parts) + [if closed then SLASH else NEWLINE]
  }

  function SourceOf(pieces: seq<Piece>): seq<byte> {
    if pieces == [] then [] else PieceBytes(pieces[0]) + SourceOf(pieces[1..])
  }

  function BlankAll(s: seq<byte>): seq<byte> {
    seq(|s|, i requires 0 <= i < |s| => Blank(s[i]))
  }

  /** Code is kept; a literal or comment becomes spaces, newlines excepted. */
  function Visible(p: Piece): seq<byte> {
    if p.CodeText? then p.text else BlankAll(PieceBytes(p))
  }

  function VisibleOf(pieces: seq<Piece>): seq<byte> {
    if pieces == [] then [] else Visible(pieces[0]) + VisibleOf(pieces[1..])
  }

  predicate QuotedUnit(quote: byte, u: LiteralUnit) {
    u.Plain? ==> u.b != quote && u.b != BACKSLASH && (quote != BACKTICK ==> u.b != NEWLINE)
  }

  predicate ClassUnit(u: LiteralUnit) {
    u.Plain? ==> u.b != CLOSE_BRACKET && u.b != BACKSLASH
  }

  predicate RegexPartOk(part: RegexPart) {
    match part
    case Single(u) =>
      u.Plain? ==> u.b != SLASH && u.b != OPEN_BRACKET && u.b != BACKSLASH && u.b != NEWLINE
    case Class(units) => forall i :: 0 <= i < |units| ==> ClassUnit(units[i])
  }

  /** The piece is what the lexer takes it for, after the visible text `out` and before `rest`. */
  ghost predicate PieceOk(canStart: seq<byte> -> bool, out: seq<byte>, p: Piece, rest: seq<byte>) {
    match p
    case CodeText(text) => InertBefore(canStart, out + text, rest)
    case Quoted(quote, units, closed) =>
      && IsQuote(quote) && (!closed ==> quote != BACKTICK)
      && forall i :: 0 <= i < |units| ==> QuotedUnit(quote, units[i])
    case LineRemark(remark) => NEWLINE !in remark
    case BlockRemark(block) => forall i :: 0 <= i < |block| - 1 ==> !(block[i] == STAR && block[i + 1] == SLASH)
    case RegexLiteral(parts, _) =>
      && canStart(out)
      && parts != [] && parts[0] != Single(Plain(STAR))
      && forall i :: 0 <= i < |parts| ==> RegexPartOk(parts[i])
  }

  ghost predicate PiecesOk(canStart: seq<byte> -> bool, out: seq<byte>, pieces: seq<Piece>)
    decreases |pieces|
  {
    pieces == [] ||
    (PieceOk(canStart, out, pieces[0], SourceOf(pieces[1..])) && PiecesOk(canStart, out + Visible(pieces[0]), pieces[1..]))
  }

  lemma BlankAllConcat(a: seq<byte>, b: seq<byte>)
    ensures BlankAll(a + b) == BlankAll(a) + BlankAll(b)
  {
  }

  predicate InLiteral(state: LexState) {
    state == SingleQuote || state == DoubleQuote || state == Template || state == Regex || state == RegexClass
  }

  lemma {:induction false} RunOne(canStart: seq<byte> -> bool, b: byte, tail: seq<byte>, l: Lexer)
    requires !TakesTwo([b] + tail, l.state)
    ensures Run(canStart, [b] + tail, l) == Run(canStart, tail, Step(canStart, [b] + tail, l))
  {
    assert ([b] + tail)[1..] == tail;
  }

  lemma {:induction false} RunTwo(canStart: seq<byte> -> bool, a: byte, b: byte, tail: seq<byte>, l: Lexer)
    requires TakesTwo([a, b], l.state)
    ensures Run(canStart, [a, b] + tail, l) == Run(canStart, tail, Step(canStart, [a, b] + tail, l))
  {
    assert ([a, b] + tail)[2..] == tail;
    assert TakesTwo([a, b] + tail, l.state);
  }

  lemma {:induction false} RunUnit(canStart: seq<byte> -> bool, u: LiteralUnit, tail: seq<byte>, out: seq<byte>, state: LexState)
    requires InLiteral(state) && (u.Plain? ==> u.b != BACKSLASH && AfterLiteralByte(state, u.b) == state)
    ensures Run(canStart, UnitBytes(u) + tail, Lexer(out, state, false))
         == Run(canStart, tail, Lexer(out + BlankAll(UnitBytes(u)), state, false))
  {
    match u {
      case Plain(b) =>
        RunOne(canStart, b, tail, Lexer(out, state, false));
        assert BlankAll([b]) == [Blank(b)];
      case Escaped(b) =>
        assert UnitBytes(u) + tail == [BACKSLASH] + ([b] + tail);
        RunOne(canStart, BACKSLASH, [b] + tail, Lexer(out, state, false));
        RunOne(canStart, b, tail, Lexer(out + [SPACE], state, true));
        assert out + [SPACE] + [Blank(b)] == out + BlankAll([BACKSLASH, b]);
    }
  }

  lemma {:induction false} RunUnits(canStart: seq<byte> -> bool, units: seq<LiteralUnit>, tail: seq<byte>, out: seq<byte>, state: LexState)
    requires InLiteral(state)
    requires forall i :: 0 <= i < |units| && units[i].Plain? ==>
               units[i].b != BACKSLASH && AfterLiteralByte(state, units[i].b) == state
    ensures Run(canStart, UnitsBytes(units) + tail, Lexer(out, state, false))
         == Run(canStart, tail, Lexer(out + BlankAll(UnitsBytes(units)), state, false))
    decreases |units|
  {
    if units == [] {
      assert UnitsBytes(units) + tail == tail && out + BlankAll([]) == out;
    } else {
      var first, others := UnitBytes(units[0]), UnitsBytes(units[1..]);
      Assoc(first, others, tail, []);
      RunUnit(canStart, units[0], others + tail, out, state);
      RunUnits(canStart, units[1..], tail, out + BlankAll(first), state);
      BlankAllConcat(first, others);
      Assoc(out, BlankAll(first), BlankAll(others), []);
    }
  }

  /** A delimiter byte inside literals: one blank and a change of state. */
  lemma {:induction false} RunDelimiter(canStart: seq<byte> -> bool, b: byte, tail: seq<byte>, out: seq<byte>, state: LexState)
    requires InLiteral(state) && b != BACKSLASH
    ensures Run(canStart, [b] + tail, Lexer(out, state, false))
         == Run(canStart, tail, Lexer(out + BlankAll([b]), AfterLiteralByte(state, b), false))
  {
    RunOne(canStart, b, tail, Lexer(out, state, false));
    assert BlankAll([b]) == [Blank(b)];
  }

  /** The bytes lead from one literal state to another and are blanked. */
  predicate Passes(canStart: seq<byte> -> bool, bytes: seq<byte>, tail: seq<byte>, out: seq<byte>, from: LexState, end: LexState) {
    Run(canStart, bytes + tail, Lexer(out, from, false)) == Run(canStart, tail, Lexer(out + BlankAll(bytes), end, false))
  }

  lemma PassesBoth(canStart: seq<byte> -> bool, a: seq<byte>, b: seq<byte>, tail: seq<byte>, out: seq<byte>,
                   from: LexState, middle: LexState, end: LexState)
    requires Passes(canStart, a, b + tail, out, from, middle)
    requires Passes(canStart, b, tail, out + BlankAll(a), middle, end)
    ensures Passes(canStart, a + b, tail, out, from, end)
  {
    BlankAllConcat(a, b);
    assert a + b + tail == a + (b + tail);
    assert out + BlankAll(a) + BlankAll(b) == out + (BlankAll(a) + BlankAll(b));
  }

  lemma DelimiterPasses(canStart: seq<byte> -> bool, b: byte, tail: seq<byte>, out: seq<byte>, from: LexState)
    requires InLiteral(from) && b != BACKSLASH
    ensures Passes(canStart, [b], tail, out, from, AfterLiteralByte(from, b))
  {
    RunDelimiter(canStart, b, tail, out, from);
  }

  lemma {:induction false} ClassPasses(canStart: seq<byte> -> bool, units: seq<LiteralUnit>, tail: seq<byte>, out: seq<byte>)
    requires forall i :: 0 <= i < |units| ==> ClassUnit(units[i])
    ensures Passes(canStart, UnitsBytes(units), tail, out, RegexClass, RegexClass)
  {
    forall i | 0 <= i < |units| && units[i].Plain?
      ensures units[i].b != BACKSLASH && AfterLiteralByte(RegexClass, units[i].b) == RegexClass
    {
      assert ClassUnit(units[i]);
    }
    RunUnits(canStart, units, tail, out, RegexClass);
  }

  lemma PartPasses(canStart: seq<byte> -> bool, part: RegexPart, tail: seq<byte>, out: seq<byte>)
    requires RegexPartOk(part)
    ensures Passes(canStart, PartBytes(part), tail, out, Regex, Regex)
  {
    match part {
      case Single(u) =>
        RunUnit(canStart, u, tail, out, Regex);
      case Class(units) =>
        var open, body, close := [OPEN_BRACKET], UnitsBytes(units), [CLOSE_BRACKET];
        DelimiterPasses(canStart, OPEN_BRACKET, body + (close + tail), out, Regex);
        ClassPasses(canStart, units, close + tail, out + BlankAll(open));
        PassesBoth(canStart, open, body, close + tail, out, Regex, RegexClass, RegexClass);
        DelimiterPasses(canStart, CLOSE_BRACKET, tail, out + BlankAll(open + body), RegexClass);
        PassesBoth(canStart, open + body, close, tail, out, Regex, RegexClass, Regex);
    }
  }

  lemma {:induction false} PartsPass(canStart: seq<byte> -> bool, parts: seq<RegexPart>, tail: seq<byte>, out: seq<byte>)
    requires forall i :: 0 <= i < |parts| ==> RegexPartOk(parts[i])
    ensures Passes(canStart, PartsBytes(parts), tail, out, Regex, Regex)
    decreases |parts|
  {
    if parts == [] {
      assert [] + tail == tail && out + BlankAll([]) == out;
    } else {
      var first, others := PartBytes(parts[0]), PartsBytes(parts[1..]);
      PartPasses(canStart, parts[0], others + tail, out);
      PartsPass(canStart, parts[1..], tail, out + BlankAll(first));
      PassesBoth(canStart, first, others, tail, out, Regex, Regex, Regex);
    }
  }

  lemma {:induction false} RunRemark(canStart: seq<byte> -> bool, remark: seq<byte>, tail: seq<byte>, out: seq<byte>)
    requires NEWLINE !in remark
    ensures Run(canStart, remark + [NEWLINE] + tail, Lexer(out, LineComment, false))
         == Run(canStart, tail, Lexer(out + BlankAll(remark + [NEWLINE]), Code, false))
  {
    if remark == [] {
      assert remark + [NEWLINE] + tail == [NEWLINE] + tail && remark + [NEWLINE] == [NEWLINE];
      assert BlankAll([NEWLINE]) == [NEWLINE];
      RunOne(canStart, NEWLINE, tail, Lexer(out, LineComment, false));
    } else {
      var others := remark[1..];
      assert remark + [NEWLINE] + tail == [remark[0]] + (others + [NEWLINE] + tail);
      RunOne(canStart, remark[0], others + [NEWLINE] + tail, Lexer(out, LineComment, false));
      RunRemark(canStart, others, tail, out + [SPACE]);
      assert out + [SPACE] + BlankAll(others + [NEWLINE]) == out + BlankAll(remark + [NEWLINE]);
    }
  }

  lemma {:induction false} RunBlock(canStart: seq<byte> -> bool, block: seq<byte>, tail: seq<byte>, out: seq<byte>)
    requires forall i :: 0 <= i < |block| - 1 ==> !(block[i] == STAR && block[i + 1] == SLASH)
    ensures Run(canStart, block + [STAR, SLASH] + tail, Lexer(out, BlockComment, false))
         == Run(canStart, tail, Lexer(out + BlankAll(block + [STAR, SLASH]), Code, false))
  {
    if block == [] {
      assert block + [STAR, SLASH] + tail == [STAR, SLASH] + tail && block + [STAR, SLASH] == [STAR, SLASH];
      RunTwo(canStart, STAR, SLASH, tail, Lexer(out, BlockComment, false));
      assert out + [SPACE, SPACE] == out + BlankAll([STAR, SLASH]);
    } else {
      var others := block[1..];
      var after := others + [STAR, SLASH] + tail;
      assert block + [STAR, SLASH] + tail == [block[0]] + after;
      assert after[0] == if others == [] then STAR else block[1];
      RunOne(canStart, block[0], after, Lexer(out, BlockComment, false));
      RunBlock(canStart, others, tail, out + [Blank(block[0])]);
      assert out + [Blank(block[0])] + BlankAll(others + [STAR, SLASH]) == out + BlankAll(block + [STAR, SLASH]);
    }
  }

  lemma {:induction false} RunCode(canStart: seq<byte> -> bool, text: seq<byte>, tail: seq<byte>, out: seq<byte>)
    requires InertBefore(canStart, out + text, tail)
    ensures Run(canStart, text + tail, Lexer(out, Code, false)) == Run(canStart, tail, Lexer(out + text, Code, false))
    decreases |text|
  {
    if text == [] {
      assert text + tail == tail && out + text == out;
    } else {
      var b, others := text[0], text[1..];
      var all := out + text;
      assert all[..|out|] == out && all[|out|] == b;
      assert InertAt(canStart, all, |out|);
      var after := others + tail;
      assert text + tail == [b] + after;
      if after != [] {
        assert after[0] == if others == [] then tail[0] else all[|out| + 1];
        if others == [] {
          assert all[|all| - 1] == b;
        }
      }
      RunOne(canStart, b, after, Lexer(out, Code, false));
      assert out + [b] + others == all;
      RunCode(canStart, others, tail, out + [b]);
    }
  }

  function LiteralState(quote: byte): LexState {
    if quote == SINGLE_QUOTE then SingleQuote else if quote == DOUBLE_QUOTE then DoubleQuote else Template
  }

  lemma BlankThree(out: seq<byte>, a: seq<byte>, b: seq<byte>, c: seq<byte>)
    ensures out + BlankAll(a) + BlankAll(b) + BlankAll(c) == out + BlankAll(a + b + c)
  {
    BlankAllConcat(a, b);
    BlankAllConcat(a + b, c);
  }

  /** The byte that opens a literal. */
  lemma {:induction false} RunOpening(canStart: seq<byte> -> bool, b: byte, tail: seq<byte>, out: seq<byte>)
    requires Opened(canStart, b, out) != Code && !TakesTwo([b] + tail, Code)
    ensures Run(canStart, [b] + tail, Lexer(out, Code, false))
         == Run(canStart, tail, Lexer(out + BlankAll([b]), Opened(canStart, b, out), false))
  {
    RunOne(canStart, b, tail, Lexer(out, Code, false));
    assert BlankAll([b]) == [SPACE];
  }

  lemma {:induction false} RunQuoted(
      canStart: seq<byte> -> bool, quote: byte, units: seq<LiteralUnit>, end: byte, tail: seq<byte>, out: seq<byte>)
    requires IsQuote(quote) && forall i :: 0 <= i < |units| ==> QuotedUnit(quote, units[i])
    requires end == quote || (end == NEWLINE && quote != BACKTICK)
    ensures Run(canStart, [quote] + (UnitsBytes(units) + ([end] + tail)), Lexer(out, Code, false))
         == Run(canStart, tail, Lexer(out + BlankAll([quote] + UnitsBytes(units) + [end]), Code, false))
  {
    var body, state := UnitsBytes(units), LiteralState(quote);
    RunOpening(canStart, quote, body + ([end] + tail), out);
    forall i | 0 <= i < |units| && units[i].Plain?
      ensures units[i].b != BACKSLASH && AfterLiteralByte(state, units[i].b) == state
    {
      assert QuotedUnit(quote, units[i]);
    }
    var mid := out + BlankAll([quote]);
    RunUnits(canStart, units, [end] + tail, mid, state);
    RunDelimiter(canStart, end, tail, mid + BlankAll(body), state);
    BlankThree(out, [quote], body, [end]);
  }

  lemma {:induction false} PartsStart(parts: seq<RegexPart>)
    requires parts != [] && RegexPartOk(parts[0]) && parts[0] != Single(Plain(STAR))
    ensures PartsBytes(parts) != [] && PartsBytes(parts)[0] != SLASH && PartsBytes(parts)[0] != STAR
  {
  }

  lemma {:induction false} RunRegex(canStart: seq<byte> -> bool, parts: seq<RegexPart>, end: byte, tail: seq<byte>, out: seq<byte>)
    requires PieceOk(canStart, out, RegexLiteral(parts, end == SLASH), tail) && (end == SLASH || end == NEWLINE)
    ensures Run(canStart, [SLASH] + (PartsBytes(parts) + ([end] + tail)), Lexer(out, Code, false))
         == Run(canStart, tail, Lexer(out + BlankAll([SLASH] + PartsBytes(parts) + [end]), Code, false))
  {
    var body := PartsBytes(parts);
    PartsStart(parts);
    RunOpening(canStart, SLASH, body + ([end] + tail), out);
    var mid := out + BlankAll([SLASH]);
    PartsPass(canStart, parts, [end] + tail, mid);
    RunDelimiter(canStart, end, tail, mid + BlankAll(body), Regex);
    BlankThree(out, [SLASH], body, [end]);
  }

  lemma {:induction false} RunLineRemark(canStart: seq<byte> -> bool, remark: seq<byte>, tail: seq<byte>, out: seq<byte>)
    requires NEWLINE !in remark
    ensures Run(canStart, [SLASH, SLASH] + (remark + [NEWLINE] + tail), Lexer(out, Code, false))
         == Run(canStart, tail, Lexer(out + BlankAll([SLASH, SLASH] + (remark + [NEWLINE])), Code, false))
  {
    RunTwo(canStart, SLASH, SLASH, remark + [NEWLINE] + tail, Lexer(out, Code, false));
    RunRemark(canStart, remark, tail, out + [SPACE, SPACE]);
    BlankAllConcat([SLASH, SLASH], remark + [NEWLINE]);
    assert BlankAll([SLASH, SLASH]) == [SPACE, SPACE];
    assert out + [SPACE, SPACE] + BlankAll(remark + [NEWLINE]) == out + ([SPACE, SPACE] + BlankAll(remark + [NEWLINE]));
  }

  lemma {:induction false} RunBlockRemark(canStart: seq<byte> -> bool, block: seq<byte>, tail: seq<byte>, out: seq<byte>)
    requires forall i :: 0 <= i < |block| - 1 ==> !(block[i] == STAR && block[i + 1] == SLASH)
    ensures Run(canStart, [SLASH, STAR] + (block + [STAR, SLASH] + tail), Lexer(out, Code, false))
         == Run(canStart, tail, Lexer(out + BlankAll([SLASH, STAR] + (block + [STAR, SLASH])), Code, false))
  {
    RunTwo(canStart, SLASH, STAR, block + [STAR, SLASH] + tail, Lexer(out, Code, false));
    RunBlock(canStart, block, tail, out + [SPACE, SPACE]);
    BlankAllConcat([SLASH, STAR], block + [STAR, SLASH]);
    assert BlankAll([SLASH, STAR]) == [SPACE, SPACE];
    assert out + [SPACE, SPACE] + BlankAll(block + [STAR, SLASH]) == out + ([SPACE, SPACE] + BlankAll(block + [STAR, SLASH]));
  }

  lemma {:induction false} RunPiece(canStart: seq<byte> -> bool, p: Piece, tail: seq<byte>, out: seq<byte>)
    requires PieceOk(canStart, out, p, tail)
    ensures Run(canStart, PieceBytes(p) + tail, Lexer(out, Code, false)) == Run(canStart, tail, Lexer(out + Visible(p), Code, false))
  {
    match p {
      case CodeText(text) =>
        RunCode(canStart, text, tail, out);
      case Quoted(quote, units, closed) =>
        var end := if closed then quote else NEWLINE;
        RunQuoted(canStart, quote, units, end, tail, out);
        Assoc([quote], UnitsBytes(units), [end], tail);
      case RegexLiteral(parts, closed) =>
        var end := if closed then SLASH else NEWLINE;
        RunRegex(canStart, parts, end, tail, out);
        Assoc([SLASH], PartsBytes(parts), [end], tail);
      case LineRemark(remark) =>
        RunLineRemark(canStart, remark, tail, out);
        Assoc([SLASH, SLASH], remark, [NEWLINE], tail);
      case BlockRemark(block) =>
        RunBlockRemark(canStart, block, tail, out);
        Assoc([SLASH, STAR], block, [STAR, SLASH], tail);
    }
  }

  lemma {:induction false} RunPieces(canStart: seq<byte> -> bool, pieces: seq<Piece>, out: seq<byte>)
    requires PiecesOk(canStart, out, pieces)
    ensures Run(canStart, SourceOf(pieces), Lexer(out, Code, false)) == Lexer(out + VisibleOf(pieces), Code, false)
    decreases |pieces|
  {
    if pieces == [] {
      assert out + [] == out;
    } else {
      var first, others := pieces[0], pieces[1..];
      RunPiece(canStart, first, SourceOf(others), out);
      RunPieces(canStart, others, out + Visible(first));
      Assoc(out, Visible(first), VisibleOf(others), []);
    }
  }

  /** On any source made of code, strings, templates, comments and regular expressions, those
      that end with their line included, the mask shows exactly the code: the other pieces
      become spaces and newlines. */
  lemma {:induction false} MaskShowsExactlyTheCode(pieces: seq<Piece>)
    requires PiecesOk(RegexCanStart, [], pieces)
    ensures Mask(SourceOf(pieces)) == VisibleOf(pieces)
  {
    RunPieces(RegexCanStart, pieces, []);
    assert [] + VisibleOf(pieces) == VisibleOf(pieces);
  }
}
