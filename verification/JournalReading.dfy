/** What reading a journal file accepts. */
module JournalReading {
  import opened Wrappers
  import opened Bytes
  import opened JournalFile

  // When `read_entries` in src/analyzer_journal.rs fails, in terms of the bytes of the file.

  /** The bytes from `i` to the newline at `j` are a complete line. */
  ghost predicate IsLine(bytes: seq<byte>, i: nat, j: nat) {
    && i <= j < |bytes| && bytes[j] == NEWLINE && NEWLINE !in bytes[i..j]
    && (i == 0 || bytes[i - 1] == NEWLINE)
  }

  function Newlines(bytes: seq<byte>): nat {
    if bytes == [] then 0 else (if bytes[0] == NEWLINE then 1 else 0) + Newlines(bytes[1..])
  }

  /** `text` is `line` without the carriage returns at its end. */
  predicate CutReturns(line: seq<byte>, text: seq<byte>) {
    && text <= line && (forall k :: |text| <= k < |line| ==> line[k] == CARRIAGE_RETURN)
    && (text != [] ==> text[|text| - 1] != CARRIAGE_RETURN)
  }

  /** A complete line that is not empty and that the parser rejects. */
  ghost predicate BadLine<E(!new)>(codec: Codec<E>, bytes: seq<byte>, i: nat, j: nat) {
    && IsLine(bytes, i, j) && i < j
    && exists text :: CutReturns(bytes[i..j], text) && codec.parse(text).None?
  }

  lemma {:induction false} TrimmingCutsReturns(line: seq<byte>, text: seq<byte>)
    ensures CutReturns(line, text) <==> text == TrimCarriageReturns(line)
  {
    if line != [] && line[|line| - 1] == CARRIAGE_RETURN {
      var shorter := line[..|line| - 1];
      TrimmingCutsReturns(shorter, text);
      if CutReturns(line, text) {
        assert |text| < |line|;
        assert CutReturns(shorter, text);
      }
      if CutReturns(shorter, text) {
        assert line == shorter + [CARRIAGE_RETURN];
      }
    } else if CutReturns(line, text) {
      assert |text| == |line|;
    }
  }

  /** The segments that reading looks at, and rejects. */
  predicate Rejects<E>(codec: Codec<E>, lines: seq<seq<byte>>, torn: bool, k: nat) {
    && k < |lines| && lines[k] != [] && !(torn && k + 1 == |lines|)
    && codec.parse(TrimCarriageReturns(lines[k])).None?
  }

  lemma {:induction false} ParsingFailsAt<E>(codec: Codec<E>, lines: seq<seq<byte>>, index: nat, torn: bool)
    requires index <= |lines|
    ensures var result := ParseFrom(codec, lines, index, torn);
            match result
            case Success(_) => forall k: nat :: index <= k ==> !Rejects(codec, lines, torn, k)
            case Failure(n) =>
              n > index && Rejects(codec, lines, torn, n - 1) && forall k: nat :: index <= k < n - 1 ==> !Rejects(codec, lines, torn, k)
    decreases |lines| - index
  {
    if index < |lines| && !(torn && index + 1 == |lines| && lines[index] != []) {
      ParsingFailsAt(codec, lines, index + 1, torn);
    }
  }

  /** Every segment but the last is a complete line, numbered by the newlines before it. */
  lemma {:induction false} SegmentIsLine(bytes: seq<byte>, k: nat) returns (i: nat)
    requires k + 1 < |Split(bytes)|
    ensures i + |Split(bytes)[k]| < |bytes| && IsLine(bytes, i, i + |Split(bytes)[k]|)
    ensures bytes[i..i + |Split(bytes)[k]|] == Split(bytes)[k] && Newlines(bytes[..i]) == k
  {
    var rest := Split(bytes[1..]);
    if bytes[0] == NEWLINE {
      if k == 0 {
        i := 0;
      } else {
        var m := SegmentIsLine(bytes[1..], k - 1);
        i := m + 1;
        LineBehind(bytes, m, m + |rest[k - 1]|);
      }
    } else {
      var m := SegmentIsLine(bytes[1..], k);
      if k == 0 {
        NoNewlineBefore(bytes[1..], m);
        i := 0;
        assert bytes[..|rest[0]| + 1] == [bytes[0]] + bytes[1..][..|rest[0]|];
      } else {
        i := m + 1;
        LineBehind(bytes, m, m + |rest[k]|);
      }
    }
  }

  lemma LineBehind(bytes: seq<byte>, i: nat, j: nat)
    requires bytes != [] && IsLine(bytes[1..], i, j) && (i == 0 ==> bytes[0] == NEWLINE)
    ensures IsLine(bytes, i + 1, j + 1) && bytes[i + 1..j + 1] == bytes[1..][i..j]
    ensures Newlines(bytes[..i + 1]) == (if bytes[0] == NEWLINE then 1 else 0) + Newlines(bytes[1..][..i])
  {
    var tail := bytes[1..];
    assert bytes[..i + 1][1..] == tail[..i];
    forall k | 0 <= k < j - i ensures bytes[i + 1..j + 1][k] == tail[i..j][k] {
      assert tail[i + k] == bytes[i + k + 1];
    }
    assert bytes[i + 1..j + 1] == tail[i..j];
  }

  lemma {:induction false} NoNewlineBefore(bytes: seq<byte>, i: nat)
    requires i <= |bytes| && Newlines(bytes[..i]) == 0 && (i == 0 || bytes[i - 1] == NEWLINE)
    ensures i == 0
  {
    if i > 0 {
      NewlineCounts(bytes[..i], i - 1);
    }
  }

  lemma {:induction false} NewlineCounts(bytes: seq<byte>, k: nat)
    requires k < |bytes| && bytes[k] == NEWLINE
    ensures Newlines(bytes) > 0
  {
    if bytes[0] != NEWLINE {
      NewlineCounts(bytes[1..], k - 1);
    }
  }

  /** Every complete line is a segment, but not the last one. */
  lemma {:induction false} LineIsSegment(bytes: seq<byte>, i: nat, j: nat)
    requires IsLine(bytes, i, j)
    ensures var k := Newlines(bytes[..i]); k + 1 < |Split(bytes)| && Split(bytes)[k] == bytes[i..j]
  {
    var rest := Split(bytes[1..]);
    if i > 0 {
      assert IsLine(bytes[1..], i - 1, j - 1) by {
        assert bytes[1..][i - 1..j - 1] == bytes[i..j];
      }
      LineIsSegment(bytes[1..], i - 1, j - 1);
      assert bytes[..i][1..] == bytes[1..][..i - 1];
      if bytes[0] != NEWLINE {
        assert i > 1 && bytes[1..][i - 2] == NEWLINE;
        NewlineCounts(bytes[1..][..i - 1], i - 2);
      }
    } else if j == 0 {
      assert bytes[0..0] == [];
    } else {
      assert bytes[0] == bytes[0..j][0];
      assert IsLine(bytes[1..], 0, j - 1) by {
        assert bytes[1..][0..j - 1] == bytes[0..j][1..];
      }
      LineIsSegment(bytes[1..], 0, j - 1);
      assert bytes[1..][..0] == [] && bytes[..0] == [];
      assert [bytes[0]] + bytes[1..][0..j - 1] == bytes[0..j];
    }
  }

  lemma SegmentsOfUntorn(bytes: seq<byte>)
    requires !Torn(bytes)
    ensures Split(bytes)[|Split(bytes)| - 1] == []
  {
    SplitEndsEmpty(bytes);
  }

  /** A segment is rejected exactly when the line it is one of is bad. */
  lemma RejectedAreBad<E(!new)>(codec: Codec<E>, bytes: seq<byte>, k: nat) returns (i: nat, j: nat)
    requires Rejects(codec, Split(bytes), Torn(bytes), k)
    ensures BadLine(codec, bytes, i, j) && Newlines(bytes[..i]) == k
  {
    if !Torn(bytes) {
      SegmentsOfUntorn(bytes);
    }
    i := SegmentIsLine(bytes, k);
    j := i + |Split(bytes)[k]|;
    TrimmingCutsReturns(bytes[i..j], TrimCarriageReturns(bytes[i..j]));
  }

  lemma BadAreRejected<E(!new)>(codec: Codec<E>, bytes: seq<byte>, i: nat, j: nat)
    requires BadLine(codec, bytes, i, j)
    ensures Rejects(codec, Split(bytes), Torn(bytes), Newlines(bytes[..i]))
  {
    LineIsSegment(bytes, i, j);
    var text :| CutReturns(bytes[i..j], text) && codec.parse(text).None?;
    TrimmingCutsReturns(bytes[i..j], text);
  }

  /** Reading fails exactly when some complete line is not empty and is rejected by the parser
      once its carriage returns are cut off, and it names the first such line. */
  lemma ReadingFailsExactlyWhen<E(!new)>(codec: Codec<E>, bytes: seq<byte>)
    ensures ReadResult(codec, bytes).Failure? <==> exists i: nat, j: nat :: BadLine(codec, bytes, i, j)
    ensures ReadResult(codec, bytes).Failure? ==>
              exists i: nat, j: nat :: BadLine(codec, bytes, i, j) && ReadResult(codec, bytes).error == Newlines(bytes[..i]) + 1
    ensures ReadResult(codec, bytes).Failure? ==>
              forall i: nat, j: nat :: BadLine(codec, bytes, i, j) ==> ReadResult(codec, bytes).error <= Newlines(bytes[..i]) + 1
  {
    ParsingFailsAt(codec, Split(bytes), 0, Torn(bytes));
    if ReadResult(codec, bytes).Failure? {
      var i, j := RejectedAreBad(codec, bytes, ReadResult(codec, bytes).error - 1);
    }
    forall i: nat, j: nat | BadLine(codec, bytes, i, j)
      ensures ReadResult(codec, bytes).Failure? && ReadResult(codec, bytes).error <= Newlines(bytes[..i]) + 1
    {
      BadAreRejected(codec, bytes, i, j);
    }
  }
}
