/** The object literals a JavaScript body returns
    (`returned_object_spans` in src/analyzer_dossier_js_ts.rs). */
module JsReturnedObjects {
  import opened Bytes
  import opened JsMask

  const RETURN: seq<byte> := [114, 101, 116, 117, 114, 110]

  const DOLLAR: byte := 36

  predicate IsIdentifierByte(b: byte) {
    IsWordByte(b) || b == DOLLAR
  }

  /** The keyword `return` at `i`, not part of a longer identifier. */
  predicate ReturnAt(m: seq<byte>, i: nat) {
    && i + 6 <= |m| && m[i..i + 6] == RETURN
    && (i > 0 ==> !IsIdentifierByte(m[i - 1]))
    && (i + 6 < |m| ==> !IsIdentifierByte(m[i + 6]))
  }

  /** Letters, digits, underscores and dollar signs by their codes. */
  ghost predicate IsNameByte(b: byte) {
    b == 36 || 48 <= b <= 57 || 65 <= b <= 90 || b == 95 || 97 <= b <= 122
  }

  /** A return is the word between two texts of which neither goes on in the same name. */
  lemma ReturnsAreWholeWords(before: seq<byte>, after: seq<byte>)
    ensures ReturnAt(before + Ascii("return") + after, |before|) <==>
              && (before != [] ==> !IsNameByte(before[|before| - 1]))
              && (after != [] ==> !IsNameByte(after[0]))
    ensures forall m: seq<byte> :: ReturnAt(m, |before|) ==> m[|before|..|before| + 6] == Ascii("return")
  {
    var m := before + Ascii("return") + after;
    assert Ascii("return") == RETURN;
    assert m[|before|..|before| + 6] == RETURN;
    assert before != [] ==> m[|before| - 1] == before[|before| - 1];
    assert after != [] ==> m[|before| + 6] == after[0];
  }

  predicate IsGap(b: byte) {
    IsAsciiWhitespace(b) || b == OPEN_PAREN
  }

  /** The first position from `from` on that is neither white space nor an open parenthesis. */
  predicate IsAfterGap(m: seq<byte>, from: nat, open: nat) {
    && from <= open <= |m|
    && (forall i :: from <= i < open ==> IsGap(m[i]))
    && (open < |m| ==> !IsGap(m[open]))
  }

  function BraceWeight(b: byte): int {
    if b == OPEN_BRACE then 1 else if b == CLOSE_BRACE then -1 else 0
  }

  /** Open braces minus close braces in `m[from..end]`. */
  function Depth(m: seq<byte>, from: nat, end: nat): int
    requires from <= end <= |m|
    decreases end
  {
    if from == end then 0 else Depth(m, from, end - 1) + BraceWeight(m[end - 1])
  }

  /** `close` is the brace that balances the one at `open`. */
  ghost predicate Balances(m: seq<byte>, open: nat, close: nat) {
    && open < close < |m|
    && m[open] == OPEN_BRACE && m[close] == CLOSE_BRACE
    && Depth(m, open, close + 1) == 0
    && forall j :: open < j <= close ==> Depth(m, open, j) > 0
  }

  /** The return at `r` returns the object literal `m[open..=close]`. */
  ghost predicate ReturnsObject(m: seq<byte>, r: nat, open: nat, close: nat) {
    ReturnAt(m, r) && IsAfterGap(m, r + 6, open) && Balances(m, open, close)
  }

  /** No return starts inside the keyword of another: a letter stands before it. */
  lemma ReturnsDoNotOverlap(m: seq<byte>, i: nat, j: nat)
    requires ReturnAt(m, i) && i < j < i + 6
    ensures !ReturnAt(m, j)
  {
    assert m[j - 1] == m[i..i + 6][j - 1 - i];
    assert IsIdentifierByte(RETURN[j - 1 - i]);
  }

  lemma GapsAreNoReturns(m: seq<byte>, i: nat)
    requires i < |m| && IsGap(m[i])
    ensures !ReturnAt(m, i)
  {
    assert i + 6 <= |m| ==> m[i..i + 6][0] == m[i];
  }

  lemma BalanceIsUnique(m: seq<byte>, open: nat, close: nat, other: nat)
    requires Balances(m, open, close) && Balances(m, open, other)
    ensures close == other
  {
    assert Depth(m, open, close + 1) == 0 && Depth(m, open, other + 1) == 0;
  }

  /** The balancing scan from an open brace. */
  method FindClose(m: seq<byte>, open: nat) returns (found: bool, close: nat)
    requires open < |m| && m[open] == OPEN_BRACE
    ensures found ==> Balances(m, open, close)
    ensures !found ==> forall c: nat :: !Balances(m, open, c)
  {
    var depth := 0;
    close := open;
    for i := open to |m|
      invariant depth == Depth(m, open, i)
      invariant forall j :: open < j <= i ==> Depth(m, open, j) > 0
    {
      if m[i] == OPEN_BRACE {
        depth := depth + 1;
      } else if m[i] == CLOSE_BRACE {
        depth := depth - 1;
        if depth == 0 {
          return true, i;
        }
      }
      assert Depth(m, open, i + 1) == depth;
    }
    forall c: nat ensures !Balances(m, open, c) {
      if open < c < |m| {
        assert Depth(m, open, c + 1) > 0;
      }
    }
    return false, open;
  }

  ghost predicate IsReturnedObject(m: seq<byte>, open: nat, close: nat) {
    exists r: nat :: ReturnsObject(m, r, open, close)
  }

  ghost predicate SpansUpTo(m: seq<byte>, spans: seq<(nat, nat)>, index: nat) {
    && (forall k :: 0 <= k < |spans| ==> spans[k].1 < index && IsReturnedObject(m, spans[k].0, spans[k].1))
    && (forall k, l :: 0 <= k < l < |spans| ==> spans[k].1 < spans[l].0)
  }

  /** Every object return before `index` has its span, or sits inside an earlier one. */
  ghost predicate CompleteUpTo(m: seq<byte>, spans: seq<(nat, nat)>, index: nat) {
    forall r: nat, open: nat, close: nat :: r < index && ReturnsObject(m, r, open, close) ==>
      (open, close) in spans || Inside(spans, r)
  }

  ghost predicate Inside(spans: seq<(nat, nat)>, r: nat) {
    exists k :: 0 <= k < |spans| && spans[k].0 <= r <= spans[k].1
  }

  /** Past white space and opening parentheses. */
  method SkipGap(m: seq<byte>, from: nat) returns (open: nat)
    requires from <= |m|
    ensures IsAfterGap(m, from, open)
  {
    open := from;
    while open < |m| && IsGap(m[open])
      invariant from <= open <= |m| && forall i :: from <= i < open ==> IsGap(m[i])
    {
      open := open + 1;
    }
  }

  lemma OnlyKeyword(m: seq<byte>, index: nat, open: nat)
    requires ReturnAt(m, index) && IsAfterGap(m, index + 6, open)
    requires open == |m| || m[open] != OPEN_BRACE || forall c: nat :: !Balances(m, open, c)
    ensures forall r: nat, o: nat, c: nat :: index <= r < index + 6 ==> !ReturnsObject(m, r, o, c)
  {
    forall j: nat | index < j < index + 6 ensures !ReturnAt(m, j) {
      ReturnsDoNotOverlap(m, index, j);
    }
  }

  lemma SpanExtends(m: seq<byte>, spans: seq<(nat, nat)>, index: nat, open: nat, close: nat)
    requires SpansUpTo(m, spans, index) && CompleteUpTo(m, spans, index) && ReturnsObject(m, index, open, close)
    ensures SpansUpTo(m, spans + [(open, close)], close + 1) && CompleteUpTo(m, spans + [(open, close)], close + 1)
  {
    forall j: nat | index < j < index + 6 ensures !ReturnAt(m, j) {
      ReturnsDoNotOverlap(m, index, j);
    }
    SpanCompletes(m, spans, index, open, close);
  }

  /** One iteration at `index`: the spans and the position to go on from. */
  method ScanAt(m: seq<byte>, spans: seq<(nat, nat)>, index: nat) returns (more: seq<(nat, nat)>, next: nat)
    requires index + 6 <= |m| && SpansUpTo(m, spans, index) && CompleteUpTo(m, spans, index)
    ensures index < next && SpansUpTo(m, more, next) && CompleteUpTo(m, more, next)
  {
    if !ReturnAt(m, index) {
      return spans, index + 1;
    }
    var open := SkipGap(m, index + 6);
    if open < |m| && m[open] == OPEN_BRACE {
      var found, close := FindClose(m, open);
      if found {
        SpanExtends(m, spans, index, open, close);
        return spans + [(open, close)], close + 1;
      }
    }
    OnlyKeyword(m, index, open);
    return spans, index + 6;
  }

  /** `returned_object_spans`: disjoint, increasing, balanced, and complete. */
  method ReturnedObjectSpans(source: seq<byte>) returns (spans: seq<(nat, nat)>)
    ensures forall k :: 0 <= k < |spans| ==> IsReturnedObject(Mask(source), spans[k].0, spans[k].1)
    ensures forall k, l :: 0 <= k < l < |spans| ==> spans[k].1 < spans[l].0
    ensures forall r: nat, open: nat, close: nat :: ReturnsObject(Mask(source), r, open, close) ==>
              (open, close) in spans || Inside(spans, r)
  {
    var buffer := MaskJsNonCode(source);
    var m := buffer[..];
    spans := [];
    var index := 0;
    while index + 6 <= |m|
      invariant SpansUpTo(m, spans, index) && CompleteUpTo(m, spans, index)
      decreases |m| - index
    {
      spans, index := ScanAt(m, spans, index);
    }
  }

  lemma SpanCompletes(m: seq<byte>, spans: seq<(nat, nat)>, index: nat, open: nat, close: nat)
    requires CompleteUpTo(m, spans, index) && ReturnsObject(m, index, open, close)
    requires forall j: nat :: index < j < index + 6 ==> !ReturnAt(m, j)
    ensures CompleteUpTo(m, spans + [(open, close)], close + 1)
  {
    var more := spans + [(open, close)];
    forall r: nat | index + 6 <= r < open ensures !ReturnAt(m, r) {
      GapsAreNoReturns(m, r);
    }
    forall r: nat, o: nat, c: nat | r < close + 1 && ReturnsObject(m, r, o, c)
      ensures (o, c) in more || Inside(more, r)
    {
      if r < index {
        if Inside(spans, r) {
          var k :| 0 <= k < |spans| && spans[k].0 <= r <= spans[k].1;
          assert more[k].0 <= r <= more[k].1;
        }
      } else if r == index {
        BalanceIsUnique(m, open, close, c);
        assert more[|spans|] == (open, close);
      } else {
        assert open <= r;
        assert more[|spans|].0 <= r <= more[|spans|].1;
      }
    }
  }
}
