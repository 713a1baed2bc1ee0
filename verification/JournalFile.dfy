/** The append-only journal file. */
module JournalFile {
  import opened Wrappers
  import opened Bytes

  // Recovery from torn writes: `read_entries` and `append_entry` in src/analyzer_journal.rs.
  //
  // The file is a byte sequence; a missing file reads as the empty one. A crash
  // is fail-stop: the write in progress stops at any byte and the next event is
  // a reload. The JSON writer and reader are parameters.

  /** `write` is the JSON writer, `parse` the UTF-8 check and JSON reader of one line. */
  datatype Codec<!E> = Codec(write: E -> seq<byte>, parse: seq<byte> -> Option<E>)

  /** What the journal relies on: a serialized object is one non-empty line without raw
      control characters (section 7 of RFC 8259), and reads back as the same entry. */
  ghost predicate Faithful<E(!new)>(codec: Codec<E>) {
    forall e: E :: LineSafe(codec.write(e)) && codec.parse(codec.write(e)) == Some(e)
  }

  predicate LineSafe(line: seq<byte>) {
    line != [] && NEWLINE !in line && line[|line| - 1] != CARRIAGE_RETURN
  }

  function Line<E>(codec: Codec<E>, e: E): seq<byte> {
    codec.write(e) + [NEWLINE]
  }

  function Render<E>(codec: Codec<E>, entries: seq<E>): seq<byte> {
    if entries == [] then [] else Line(codec, entries[0]) + Render(codec, entries[1..])
  }

  // ---------------------------------------------------------------------
  // Reading
  // ---------------------------------------------------------------------

  predicate Torn(bytes: seq<byte>) {
    bytes != [] && bytes[|bytes| - 1] != NEWLINE
  }

  /** `slice::split` on newline bytes: one more segment than there are newlines. */
  function Split(bytes: seq<byte>): (segments: seq<seq<byte>>)
    ensures segments != []
  {
    if bytes == [] then [[]]
    else
      var rest := Split(bytes[1..]);
      if bytes[0] == NEWLINE then [[]] + rest
      else [[bytes[0]] + rest[0]] + rest[1..]
  }

  function TrimCarriageReturns(line: seq<byte>): seq<byte> {
    if line != [] && line[|line| - 1] == CARRIAGE_RETURN then TrimCarriageReturns(line[..|line| - 1]) else line
  }

  /** What reading the segments from `index` on yields; a failure names the first bad line. */
  function ParseFrom<E>(codec: Codec<E>, lines: seq<seq<byte>>, index: nat, torn: bool): Result<seq<E>, nat>
    requires index <= |lines|
    decreases |lines| - index
  {
    if index == |lines| then Success([])
    else if lines[index] == [] then ParseFrom(codec, lines, index + 1, torn)
    else if torn && index + 1 == |lines| then Success([])
    else
      match codec.parse(TrimCarriageReturns(lines[index]))
      case None => Failure(index + 1)
      case Some(e) =>
        After([e], ParseFrom(codec, lines, index + 1, torn))
  }

  function ReadResult<E>(codec: Codec<E>, bytes: seq<byte>): Result<seq<E>, nat> {
    ParseFrom(codec, Split(bytes), 0, Torn(bytes))
  }

  /** The file cut after its last newline. */
  function Recovered(bytes: seq<byte>): seq<byte> {
    if Torn(bytes) then Recovered(bytes[..|bytes| - 1]) else bytes
  }

  /** A reading result seen after the entries read so far. */
  function After<E>(entries: seq<E>, rest: Result<seq<E>, nat>): Result<seq<E>, nat> {
    match rest
    case Failure(line) => Failure(line)
    case Success(more) => Success(entries + more)
  }

  lemma AfterNothing<E>(rest: Result<seq<E>, nat>)
    ensures After([], rest) == rest
  {
    if rest.Success? {
      assert [] + rest.value == rest.value;
    }
  }

  lemma AfterOneMore<E>(entries: seq<E>, e: E, rest: Result<seq<E>, nat>)
    ensures After(entries, After([e], rest)) == After(entries + [e], rest)
  {
    if rest.Success? {
      assert entries + ([e] + rest.value) == entries + [e] + rest.value;
    }
  }

  class File<E(!new)> {
    const codec: Codec<E>
    var bytes: seq<byte>

    constructor (codec: Codec<E>, bytes: seq<byte>)
      ensures this.codec == codec && this.bytes == bytes
    {
      this.codec, this.bytes := codec, bytes;
    }

    /** `append_entry`, when it returns. */
    method Append(e: E)
      modifies this
      ensures bytes == old(bytes) + Line(codec, e)
    {
      bytes := bytes + codec.write(e);
      bytes := bytes + [NEWLINE];
    }

    /** `rposition` of a newline, plus one. */
    method ValidLength() returns (n: nat)
      ensures n <= |bytes| && bytes[..n] == Recovered(bytes)
    {
      n := |bytes|;
      assert bytes[..n] == bytes;
      while n > 0 && bytes[n - 1] != NEWLINE
        invariant n <= |bytes| && Recovered(bytes[..n]) == Recovered(bytes)
      {
        assert bytes[..n][..n - 1] == bytes[..n - 1];
        n := n - 1;
      }
    }

    method ReadEntries(recoverTornTail: bool) returns (result: Result<seq<E>, nat>)
      modifies this
      ensures result == ReadResult(codec, old(bytes))
      ensures bytes == if recoverTornTail then Recovered(old(bytes)) else old(bytes)
    {
      var content := bytes;
      var torn := Torn(content);
      if torn && recoverTornTail {
        var validLength := ValidLength();
        bytes := bytes[..validLength];
      }
      ghost var kept := bytes;
      assert kept == if recoverTornTail then Recovered(content) else content;
      var lines := Split(content);
      var entries := [];
      AfterNothing(ReadResult(codec, content));
      for index := 0 to |lines|
        invariant bytes == kept
        invariant ReadResult(codec, content) == After(entries, ParseFrom(codec, lines, index, torn))
      {
        if lines[index] == [] {
          continue;
        }
        if torn && index + 1 == |lines| {
          assert entries + [] == entries;
          return Success(entries);
        }
        match codec.parse(TrimCarriageReturns(lines[index])) {
          case None => return Failure(index + 1);
          case Some(e) =>
            AfterOneMore(entries, e, ParseFrom(codec, lines, index + 1, torn));
            entries := entries + [e];
        }
      }
      assert entries + [] == entries;
      return Success(entries);
    }
  }

  // ---------------------------------------------------------------------
  // Reading back what was written
  // ---------------------------------------------------------------------

  lemma {:induction false} SplitFirstLine(line: seq<byte>, rest: seq<byte>)
    requires NEWLINE !in line
    ensures Split(line + [NEWLINE] + rest) == [line] + Split(rest)
  {
    var bytes := line + [NEWLINE] + rest;
    if line == [] {
      assert bytes[1..] == rest;
    } else {
      assert bytes[1..] == line[1..] + [NEWLINE] + rest;
      SplitFirstLine(line[1..], rest);
      assert [line[0]] + line[1..] == line;
    }
  }

  lemma {:induction false} SplitOneLine(line: seq<byte>)
    requires NEWLINE !in line
    ensures Split(line) == [line]
  {
    if line != [] {
      SplitOneLine(line[1..]);
      assert [line[0]] + line[1..] == line;
    }
  }

  lemma {:induction false} ParseRendered<E(!new)>(codec: Codec<E>, before: seq<seq<byte>>, entries: seq<E>, tail: seq<byte>)
    requires Faithful(codec) && NEWLINE !in tail
    ensures ParseFrom(codec, before + Split(Render(codec, entries) + tail), |before|, tail != []) == Success(entries)
    decreases |entries|
  {
    var lines := before + Split(Render(codec, entries) + tail);
    if entries == [] {
      SplitOneLine(tail);
      assert Render(codec, entries) + tail == tail;
      assert lines == before + [tail];
      assert ParseFrom(codec, lines, |before| + 1, tail != []) == Success([]);
    } else {
      var line, rest := codec.write(entries[0]), Render(codec, entries[1..]) + tail;
      assert LineSafe(line) && codec.parse(line) == Some(entries[0]);
      assert Render(codec, entries) + tail == line + [NEWLINE] + rest;
      SplitFirstLine(line, rest);
      assert lines == before + [line] + Split(rest);
      ParseRendered(codec, before + [line], entries[1..], tail);
      assert lines[|before|] == line && TrimCarriageReturns(line) == line;
      assert [entries[0]] + entries[1..] == entries;
    }
  }

  lemma {:induction false} RenderEnds<E>(codec: Codec<E>, entries: seq<E>)
    ensures !Torn(Render(codec, entries))
  {
    if entries != [] {
      RenderEnds(codec, entries[1..]);
    }
  }

  lemma {:induction false} RecoveredDropsTail(whole: seq<byte>, tail: seq<byte>)
    requires !Torn(whole) && NEWLINE !in tail
    ensures Recovered(whole + tail) == whole
    ensures Torn(whole + tail) <==> tail != []
  {
    if tail == [] {
      assert whole + tail == whole;
    } else {
      assert (whole + tail)[..|whole + tail| - 1] == whole + tail[..|tail| - 1];
      RecoveredDropsTail(whole, tail[..|tail| - 1]);
    }
  }

  /** Reading complete lines followed by a torn tail gives back exactly the complete
      lines, and recovery cuts the file back to them. */
  lemma {:induction false} ReadAfterTear<E(!new)>(codec: Codec<E>, entries: seq<E>, tail: seq<byte>)
    requires Faithful(codec) && NEWLINE !in tail
    ensures ReadResult(codec, Render(codec, entries) + tail) == Success(entries)
    ensures Recovered(Render(codec, entries) + tail) == Render(codec, entries)
  {
    RenderEnds(codec, entries);
    RecoveredDropsTail(Render(codec, entries), tail);
    ParseRendered(codec, [], entries, tail);
    var segments := Split(Render(codec, entries) + tail);
    assert [] + segments == segments;
  }

  lemma {:induction false} RenderAppend<E>(codec: Codec<E>, entries: seq<E>, e: E)
    ensures Render(codec, entries + [e]) == Render(codec, entries) + Line(codec, e)
  {
    if entries == [] {
      assert entries + [e] == [e];
      assert Render(codec, [e]) == Line(codec, e) + Render(codec, []);
    } else {
      assert (entries + [e])[1..] == entries[1..] + [e];
      RenderAppend(codec, entries[1..], e);
    }
  }

  // ---------------------------------------------------------------------
  // Reading a file nothing is known about
  // ---------------------------------------------------------------------

  lemma {:induction false} RecoveredShape(bytes: seq<byte>)
    ensures Recovered(bytes) <= bytes && !Torn(Recovered(bytes))
    ensures NEWLINE !in bytes[|Recovered(bytes)|..]
  {
    if Torn(bytes) {
      var shorter := bytes[..|bytes| - 1];
      RecoveredShape(shorter);
      var n := |Recovered(bytes)|;
      assert bytes[n..] == shorter[n..] + [bytes[|bytes| - 1]];
    }
  }

  lemma {:induction false} SplitEndsEmpty(whole: seq<byte>)
    requires !Torn(whole)
    ensures Split(whole)[|Split(whole)| - 1] == []
  {
    if whole != [] {
      SplitEndsEmpty(whole[1..]);
      if whole[0] != NEWLINE {
        assert whole[1..][|whole| - 2] == NEWLINE;
        NewlineSplits(whole[1..]);
      }
    }
  }

  /** The segment list of a complete prefix ends in an empty segment, which is where
      the segments of whatever follows take over. */
  lemma {:induction false} SplitConcat(whole: seq<byte>, more: seq<byte>)
    requires !Torn(whole)
    ensures Split(whole + more) == Split(whole)[..|Split(whole)| - 1] + Split(more)
  {
    if whole == [] {
      assert whole + more == more;
    } else {
      var b, rest := whole[0], Split(whole[1..]);
      SplitConcat(whole[1..], more);
      assert (whole + more)[1..] == whole[1..] + more;
      if b == NEWLINE {
        assert Split(whole + more) == [[]] + (rest[..|rest| - 1] + Split(more));
      } else {
        assert whole[1..][|whole| - 2] == NEWLINE;
        NewlineSplits(whole[1..]);
        SplitConcatStep(rest, b, Split(more));
      }
    }
  }

  lemma SplitConcatStep(rest: seq<seq<byte>>, b: byte, more: seq<seq<byte>>)
    requires |rest| > 1 && more != []
    ensures var grown := [[b] + rest[0]] + rest[1..];
            var joined := rest[..|rest| - 1] + more;
            [[b] + joined[0]] + joined[1..] == grown[..|grown| - 1] + more
  {
  }

  lemma {:induction false} NewlineSplits(bytes: seq<byte>)
    requires NEWLINE in bytes
    ensures |Split(bytes)| > 1
  {
    if bytes[0] != NEWLINE {
      NewlineSplits(bytes[1..]);
    }
  }

  lemma {:induction false} TornTailIsSkipped<E>(
      codec: Codec<E>, front: seq<seq<byte>>, tail: seq<byte>, index: nat)
    requires index <= |front| && tail != []
    ensures ParseFrom(codec, front + [tail], index, true) == ParseFrom(codec, front + [[]], index, false)
    decreases |front| - index
  {
    if index < |front| {
      TornTailIsSkipped(codec, front, tail, index + 1);
    } else {
      assert ParseFrom(codec, front + [[]], index + 1, false) == Success([]);
    }
  }

  /** Whatever is in the file, recovery leaves it empty or newline-terminated and
      changes nothing that reading it reports. */
  lemma {:induction false} RecoveryPreservesReading<E>(codec: Codec<E>, bytes: seq<byte>)
    ensures !Torn(Recovered(bytes))
    ensures ReadResult(codec, Recovered(bytes)) == ReadResult(codec, bytes)
  {
    RecoveredShape(bytes);
    var whole := Recovered(bytes);
    var tail := bytes[|whole|..];
    assert bytes == whole + tail;
    if tail != [] {
      SplitEndsEmpty(whole);
      SplitConcat(whole, tail);
      SplitOneLine(tail);
      var front := Split(whole)[..|Split(whole)| - 1];
      assert Split(whole) == front + [[]];
      TornTailIsSkipped(codec, front, tail, 0);
    }
  }

  lemma {:induction false} ParseOneMore<E(!new)>(
      codec: Codec<E>, front: seq<seq<byte>>, index: nat, e: E, entries: seq<E>)
    requires Faithful(codec) && index <= |front|
    requires ParseFrom(codec, front + [[]], index, false) == Success(entries)
    ensures ParseFrom(codec, front + [codec.write(e), []], index, false) == Success(entries + [e])
    decreases |front| - index
  {
    var before, after := front + [[]], front + [codec.write(e), []];
    if index == |front| {
      assert LineSafe(codec.write(e)) && codec.parse(codec.write(e)) == Some(e);
      assert ParseFrom(codec, before, index + 1, false) == Success([]);
      assert ParseFrom(codec, after, index + 2, false) == Success([]);
      assert ParseFrom(codec, after, index + 1, false) == Success([]);
      assert TrimCarriageReturns(after[index]) == after[index];
      assert entries == [] && [e] + [] == entries + [e];
    } else if front[index] == [] {
      ParseOneMore(codec, front, index + 1, e, entries);
    } else {
      ParseOneMore(codec, front, index + 1, e, entries[1..]);
      assert entries + [e] == [entries[0]] + (entries[1..] + [e]);
    }
  }

  /** Appending to any readable file without a torn tail adds exactly the new entry. */
  lemma AppendReads<E(!new)>(codec: Codec<E>, bytes: seq<byte>, entries: seq<E>, e: E)
    requires Faithful(codec) && !Torn(bytes) && ReadResult(codec, bytes) == Success(entries)
    ensures ReadResult(codec, bytes + Line(codec, e)) == Success(entries + [e])
    ensures !Torn(bytes + Line(codec, e))
  {
    var line := codec.write(e);
    assert LineSafe(line);
    SplitEndsEmpty(bytes);
    SplitConcat(bytes, Line(codec, e));
    SplitFirstLine(line, []);
    assert line + [NEWLINE] + [] == Line(codec, e);
    var front := Split(bytes)[..|Split(bytes)| - 1];
    assert Split(bytes) == front + [[]];
    assert front + [line, []] == front + ([line] + Split([]));
    ParseOneMore(codec, front, 0, e, entries);
  }

  // ---------------------------------------------------------------------
  // Runs of appends, crashes and reloads
  // ---------------------------------------------------------------------

  /** `durable` records, as history, the entries whose newline reached the file. */
  datatype Disk<E> = Disk(bytes: seq<byte>, durable: seq<E>, running: bool)

  datatype Event<E> =
    | Append(e: E)
    | Crash(e: E, cut: nat)
    | Reload

  ghost predicate Happens<E>(codec: Codec<E>, s: Disk<E>, event: Event<E>, t: Disk<E>) {
    match event
    case Append(e) =>
      && s.running
      && t == Disk(s.bytes + Line(codec, e), s.durable + [e], true)
    case Crash(e, cut) =>
      && s.running && cut <= |Line(codec, e)|
      && t == Disk(s.bytes + Line(codec, e)[..cut],
                   if cut == |Line(codec, e)| then s.durable + [e] else s.durable,
                   false)
    case Reload =>
      && !s.running
      && t == Disk(Recovered(s.bytes), s.durable, true)
  }

  ghost predicate Runs<E(!new)>(codec: Codec<E>, events: seq<Event<E>>, s: Disk<E>, t: Disk<E>) {
    if events == [] then s == t
    else exists m: Disk<E> :: Happens(codec, s, events[0], m) && Runs(codec, events[1..], m, t)
  }

  ghost predicate Consistent<E>(codec: Codec<E>, s: Disk<E>) {
    exists tail: seq<byte> ::
      && NEWLINE !in tail
      && s.bytes == Render(codec, s.durable) + tail
      && (s.running ==> tail == [])
  }

  lemma EventKeepsConsistent<E(!new)>(codec: Codec<E>, s: Disk<E>, event: Event<E>, t: Disk<E>)
    requires Faithful(codec) && Consistent(codec, s) && Happens(codec, s, event, t)
    ensures Consistent(codec, t) && s.durable <= t.durable
  {
    var tail :| NEWLINE !in tail && s.bytes == Render(codec, s.durable) + tail && (s.running ==> tail == []);
    match event {
      case Append(e) =>
        RenderAppend(codec, s.durable, e);
        assert t.bytes == Render(codec, t.durable) + [];
      case Crash(e, cut) =>
        assert LineSafe(codec.write(e));
        var line := Line(codec, e);
        if cut == |line| {
          RenderAppend(codec, s.durable, e);
          assert line[..cut] == line;
          assert t.bytes == Render(codec, t.durable) + [];
        } else {
          assert line[..cut] == codec.write(e)[..cut];
          assert t.bytes == Render(codec, t.durable) + line[..cut];
        }
      case Reload =>
        ReadAfterTear(codec, s.durable, tail);
        assert t.bytes == Render(codec, t.durable) + [];
    }
  }

  /** Crash safety: after any run from an empty file, however often it crashed and at
      whatever byte, reading returns exactly the durable entries in order; recovery
      leaves exactly their lines; and nothing durable was ever lost. */
  lemma {:induction false} CrashSafety<E(!new)>(codec: Codec<E>, events: seq<Event<E>>, s: Disk<E>, t: Disk<E>)
    requires Faithful(codec) && Consistent(codec, s) && Runs(codec, events, s, t)
    ensures Consistent(codec, t) && s.durable <= t.durable
    ensures ReadResult(codec, t.bytes) == Success(t.durable)
    ensures Recovered(t.bytes) == Render(codec, t.durable) && !Torn(Recovered(t.bytes))
    ensures t.running ==> t.bytes == Render(codec, t.durable)
  {
    if events != [] {
      var m :| Happens(codec, s, events[0], m) && Runs(codec, events[1..], m, t);
      EventKeepsConsistent(codec, s, events[0], m);
      CrashSafety(codec, events[1..], m, t);
    } else {
      var tail :| NEWLINE !in tail && t.bytes == Render(codec, t.durable) + tail && (t.running ==> tail == []);
      ReadAfterTear(codec, t.durable, tail);
      RenderEnds(codec, t.durable);
    }
  }

  lemma EmptyFileIsConsistent<E>(codec: Codec<E>)
    ensures Consistent(codec, Disk([], [], true))
  {
    assert [] == Render<E>(codec, []) + [];
  }
}
