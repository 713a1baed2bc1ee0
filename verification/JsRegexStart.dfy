/** Where a slash starts a regular expression. */
module JsRegexStart {
  import opened Bytes
  import opened JsMask

  // `regex_can_start` in src/analyzer_dossier_js_ts.rs looks at the masked code from its end;
  // here is what that comes to for the code as a whole.

  /** Space, tab, newline, form feed, carriage return. */
  ghost predicate IsSpaceByte(b: byte) {
    b in {9, 10, 12, 13, 32}
  }

  ghost predicate IsSpace(s: seq<byte>) {
    forall i :: 0 <= i < |s| ==> IsSpaceByte(s[i])
  }

  /** Letters, digits and underscores by their codes. */
  ghost predicate IsNameByte(b: byte) {
    48 <= b <= 57 || 65 <= b <= 90 || b == 95 || 97 <= b <= 122
  }

  ghost predicate IsWord(s: seq<byte>) {
    forall i :: 0 <= i < |s| ==> IsNameByte(s[i])
  }

  lemma {:induction false} CodeEndsVisibly(masked: seq<byte>) returns (space: seq<byte>)
    ensures masked == WithoutTrailingWhitespace(masked) + space && IsSpace(space)
    ensures var code := WithoutTrailingWhitespace(masked); code != [] ==> !IsSpaceByte(code[|code| - 1])
  {
    if masked != [] && IsAsciiWhitespace(masked[|masked| - 1]) {
      var n := |masked| - 1;
      space := CodeEndsVisibly(masked[..n]);
      space := space + [masked[n]];
      assert masked == masked[..n] + [masked[n]];
    } else {
      space := [];
    }
  }

  lemma {:induction false} SpaceIsCut(code: seq<byte>, space: seq<byte>)
    requires IsSpace(space) && (code != [] ==> !IsSpaceByte(code[|code| - 1]))
    ensures WithoutTrailingWhitespace(code + space) == code
    decreases |space|
  {
    if space == [] {
      assert code + space == code;
    } else {
      var n := |space| - 1;
      assert (code + space)[..|code + space| - 1] == code + space[..n] && (code + space)[|code| + n] == space[n];
      SpaceIsCut(code, space[..n]);
    }
  }

  lemma {:induction false} LastWordIsCut(front: seq<byte>, word: seq<byte>)
    requires IsWord(word) && (front != [] ==> !IsNameByte(front[|front| - 1]))
    ensures LastWord(front + word) == word
    decreases |word|
  {
    if word == [] {
      assert front + word == front;
    } else {
      var n := |word| - 1;
      assert (front + word)[..|front + word| - 1] == front + word[..n] && (front + word)[|front| + n] == word[n];
      LastWordIsCut(front, word[..n]);
    }
  }

  lemma {:induction false} LastWordEnds(code: seq<byte>) returns (front: seq<byte>)
    ensures code == front + LastWord(code) && IsWord(LastWord(code))
    ensures front != [] ==> !IsNameByte(front[|front| - 1])
  {
    if code != [] && IsWordByte(code[|code| - 1]) {
      var n := |code| - 1;
      front := LastWordEnds(code[..n]);
      assert code == code[..n] + [code[n]];
    } else {
      front := code;
    }
  }

  /** The operators and brackets behind which an operand comes. */
  ghost predicate IsOperatorEnd(b: byte) {
    [b] in {Ascii("("), Ascii("["), Ascii("{"), Ascii("="), Ascii(":"), Ascii(","), Ascii(";"), Ascii("!"), Ascii("?"),
            Ascii("&"), Ascii("|")}
  }

  /** The keywords behind which an operand comes. */
  predicate IsOperandKeyword(word: seq<byte>) {
    word in {Ascii("return"), Ascii("case"), Ascii("throw"), Ascii("yield"), Ascii("await"), Ascii("typeof"), Ascii("instanceof")}
  }

  /** The code ends, white space aside, in such an operator or in such a keyword that is no
      part of a longer word. */
  ghost predicate EndsInOperator(masked: seq<byte>) {
    exists front: seq<byte>, b: byte, space: seq<byte> :: masked == front + [b] + space && IsOperatorEnd(b) && IsSpace(space)
  }

  ghost predicate EndsInKeyword(masked: seq<byte>) {
    exists front: seq<byte>, word: seq<byte>, space: seq<byte> ::
      && masked == front + word + space && IsOperandKeyword(word) && IsSpace(space)
      && (front != [] ==> !IsNameByte(front[|front| - 1]))
  }

  lemma KeywordsAreWords(word: seq<byte>)
    requires IsOperandKeyword(word)
    ensures word != [] && IsAsciiAlphabetic(word[|word| - 1]) && IsWord(word)
  {
  }

  lemma OperatorEndsAre(b: byte)
    ensures IsOperatorEnd(b) <==>
              b in [OPEN_PAREN, OPEN_BRACKET, OPEN_BRACE, EQUALS, COLON, COMMA, SEMICOLON, BANG, QUESTION, AMPERSAND, PIPE]
  {
    assert Ascii("(") == [40] && Ascii("[") == [91] && Ascii("{") == [123] && Ascii("=") == [61] && Ascii(":") == [58]
           && Ascii(",") == [44] && Ascii(";") == [59] && Ascii("!") == [33] && Ascii("?") == [63] && Ascii("&") == [38]
           && Ascii("|") == [124];
    assert [b][0] == b;
  }

  lemma {:induction false} StartsBehindOperator(front: seq<byte>, b: byte, space: seq<byte>)
    requires IsOperatorEnd(b) && IsSpace(space)
    ensures RegexCanStart(front + [b] + space)
  {
    OperatorEndsAre(b);
    SpaceIsCut(front + [b], space);
  }

  lemma {:induction false} StartsBehindKeyword(front: seq<byte>, word: seq<byte>, space: seq<byte>)
    requires IsOperandKeyword(word) && IsSpace(space) && (front != [] ==> !IsNameByte(front[|front| - 1]))
    ensures RegexCanStart(front + word + space)
  {
    KeywordsAreWords(word);
    assert (front + word)[|front + word| - 1] == word[|word| - 1];
    SpaceIsCut(front + word, space);
    LastWordIsCut(front, word);
  }

  /** A slash starts a regular expression exactly at the start of the code, behind an
      operator, and behind one of the keywords. */
  lemma {:induction false} RegexStartsExactly(masked: seq<byte>)
    ensures RegexCanStart(masked) <==> IsSpace(masked) || EndsInOperator(masked) || EndsInKeyword(masked)
  {
    var space := CodeEndsVisibly(masked);
    var code := WithoutTrailingWhitespace(masked);
    if RegexCanStart(masked) && code != [] {
      var n := |code| - 1;
      OperatorEndsAre(code[n]);
      if IsOperatorEnd(code[n]) {
        assert masked == code[..n] + [code[n]] + space;
      } else {
        var front := LastWordEnds(code);
        assert masked == front + LastWord(code) + space;
      }
    }
    if IsSpace(masked) {
      SpaceIsCut([], masked);
      assert [] + masked == masked;
    }
    if front, b, space' :| masked == front + [b] + space' && IsOperatorEnd(b) && IsSpace(space') {
      StartsBehindOperator(front, b, space');
    }
    if EndsInKeyword(masked) {
      var front: seq<byte>, word: seq<byte>, space': seq<byte> :|
        && masked == front + word + space' && IsOperandKeyword(word) && IsSpace(space')
        && (front != [] ==> !IsNameByte(front[|front| - 1]));
      StartsBehindKeyword(front, word, space');
    }
  }
}
