/** A way of writing journal entries that meets what the journal asks of its writer: the
    hypothesis `Faithful` under which the store is verified can be met. The code uses JSON;
    this one spells every character as a count. */
module JournalCodec {
  import opened Wrappers
  import opened Bytes
  import opened JournalFile
  import opened JournalStore

  // ---------------------------------------------------------------------
  // Packing words into three characters
  // ---------------------------------------------------------------------

  function Unary(n: nat): string {
    seq(n, _ => '1')
  }

  function Word(s: string): string {
    if s == [] then ";" else Unary(s[0] as nat) + "," + Word(s[1..])
  }

  function Pack(words: seq<string>): string {
    if words == [] then [] else Word(words[0]) + Pack(words[1..])
  }

  function LeadingOnes(text: string): nat {
    if text == [] || text[0] != '1' then 0 else 1 + LeadingOnes(text[1..])
  }

  lemma {:induction false} UnaryLeads(n: nat, rest: string)
    requires rest != [] && rest[0] != '1'
    ensures LeadingOnes(Unary(n) + rest) == n
  {
    if n == 0 {
      assert Unary(n) + rest == rest;
    } else {
      assert (Unary(n) + rest)[1..] == Unary(n - 1) + rest;
      UnaryLeads(n - 1, rest);
    }
  }

  lemma UnarySplits(a: nat, x: string, b: nat, y: string)
    requires x != [] && x[0] != '1' && y != [] && y[0] != '1' && Unary(a) + x == Unary(b) + y
    ensures a == b && x == y
  {
    UnaryLeads(a, x);
    UnaryLeads(b, y);
    assert x == (Unary(a) + x)[a..] && y == (Unary(b) + y)[b..];
  }

  lemma {:induction false} WordSplits(s: string, x: string, t: string, y: string)
    requires Word(s) + x == Word(t) + y
    ensures s == t && x == y
    decreases |s|
  {
    var a := if s == [] then 0 else s[0] as nat;
    var b := if t == [] then 0 else t[0] as nat;
    var restS := if s == [] then ";" + x else "," + (Word(s[1..]) + x);
    var restT := if t == [] then ";" + y else "," + (Word(t[1..]) + y);
    assert Word(s) + x == Unary(a) + restS && Word(t) + y == Unary(b) + restT;
    UnarySplits(a, restS, b, restT);
    assert restS[0] == restT[0] && restS[1..] == restT[1..];
    if s == [] {
      assert restS[1..] == x && restT[1..] == y;
    } else {
      assert restS[1..] == Word(s[1..]) + x && restT[1..] == Word(t[1..]) + y;
      WordSplits(s[1..], x, t[1..], y);
      assert s == [s[0]] + s[1..] && t == [t[0]] + t[1..];
    }
  }

  lemma {:induction false} PackIsInjective(a: seq<string>, b: seq<string>)
    requires Pack(a) == Pack(b)
    ensures a == b
  {
    if a != [] && b != [] {
      WordSplits(a[0], Pack(a[1..]), b[0], Pack(b[1..]));
      PackIsInjective(a[1..], b[1..]);
      assert a == [a[0]] + a[1..] && b == [b[0]] + b[1..];
    }
  }

  predicate Spells(text: string) {
    forall i :: 0 <= i < |text| ==> text[i] == '1' || text[i] == ',' || text[i] == ';'
  }

  lemma {:induction false} WordSpells(s: string)
    ensures Spells(Word(s))
  {
    if s != [] {
      WordSpells(s[1..]);
    }
  }

  lemma {:induction false} PackSpells(words: seq<string>)
    ensures Spells(Pack(words))
  {
    if words != [] {
      WordSpells(words[0]);
      PackSpells(words[1..]);
    }
  }

  // ---------------------------------------------------------------------
  // Entries
  // ---------------------------------------------------------------------

  function StageNumber(stage: Stage): nat {
    match stage case Role => 0 case Method => 1 case Synthesis => 2 case Adjudication => 3 case Proof => 4
  }

  function TierNumber(tier: Tier): nat {
    match tier case Slop => 0 case KindaSlop => 1 case Clean => 2 case Unresolved => 3
  }

  function Flag(b: bool): string {
    if b then "1" else ""
  }

  function OptionText<T>(o: Option<T>, text: T -> string): string {
    match o case None => "" case Some(x) => Pack([text(x)])
  }

  function VerdictText(v: Verdict): string {
    Pack([v.checkType, v.filePath, OptionText(v.methodName, name => name), Unary(TierNumber(v.tier)),
          v.reason, Unary(v.loc), Unary(v.startLine), Unary(v.endLine)])
  }

  function RecordText(r: MethodReviewRecord): string {
    Pack([r.unitId, r.sourceHash, r.filePath, r.methodName, Unary(r.loc), Unary(r.startLine), Unary(r.endLine),
          VerdictText(r.verdict)])
  }

  function PayloadText(p: Payload): string {
    Pack([Pack(p.cases), Pack(p.decisions), Pack(p.proofs), OptionText(p.role, role => role)])
  }

  function EntryWords(e: JournalEntry): seq<string> {
    [Unary(e.version), e.scanId, Unary(StageNumber(e.stage)), Flag(e.isManifest), e.unitId,
     Unary(e.expectedUnits), e.sourceHash, e.semanticIndexHash, e.reviewContextHash,
     OptionText(e.verdict, VerdictText), OptionText(e.methodRecord, RecordText), PayloadText(e.payload),
     Unary(e.inTok), Unary(e.outTok), Unary(e.cachedInTok), Unary(e.cost), Flag(e.retryOnResume)]
  }

  lemma UnaryIsInjective(m: nat, n: nat)
    requires Unary(m) == Unary(n)
    ensures m == n
  {
    assert |Unary(m)| == m && |Unary(n)| == n;
  }

  lemma OptionIsInjective<T(!new)>(a: Option<T>, b: Option<T>, text: T -> string)
    requires (forall x, y :: text(x) == text(y) ==> x == y) && OptionText(a, text) == OptionText(b, text)
    ensures a == b
  {
    if a.Some? && b.Some? {
      PackIsInjective([text(a.value)], [text(b.value)]);
      assert [text(a.value)][0] == [text(b.value)][0];
    }
  }

  lemma VerdictIsInjective(a: Verdict, b: Verdict)
    requires VerdictText(a) == VerdictText(b)
    ensures a == b
  {
    var name := (text: string) => text;
    var wa := [a.checkType, a.filePath, OptionText(a.methodName, name), Unary(TierNumber(a.tier)),
               a.reason, Unary(a.loc), Unary(a.startLine), Unary(a.endLine)];
    var wb := [b.checkType, b.filePath, OptionText(b.methodName, name), Unary(TierNumber(b.tier)),
               b.reason, Unary(b.loc), Unary(b.startLine), Unary(b.endLine)];
    PackIsInjective(wa, wb);
    assert forall i :: 0 <= i < 8 ==> wa[i] == wb[i];
    OptionIsInjective(a.methodName, b.methodName, name);
    UnaryIsInjective(TierNumber(a.tier), TierNumber(b.tier));
    UnaryIsInjective(a.loc, b.loc);
    UnaryIsInjective(a.startLine, b.startLine);
    UnaryIsInjective(a.endLine, b.endLine);
  }

  lemma RecordIsInjective(a: MethodReviewRecord, b: MethodReviewRecord)
    requires RecordText(a) == RecordText(b)
    ensures a == b
  {
    var wa := [a.unitId, a.sourceHash, a.filePath, a.methodName, Unary(a.loc), Unary(a.startLine), Unary(a.endLine),
               VerdictText(a.verdict)];
    var wb := [b.unitId, b.sourceHash, b.filePath, b.methodName, Unary(b.loc), Unary(b.startLine), Unary(b.endLine),
               VerdictText(b.verdict)];
    PackIsInjective(wa, wb);
    assert forall i :: 0 <= i < 8 ==> wa[i] == wb[i];
    UnaryIsInjective(a.loc, b.loc);
    UnaryIsInjective(a.startLine, b.startLine);
    UnaryIsInjective(a.endLine, b.endLine);
    VerdictIsInjective(a.verdict, b.verdict);
  }

  lemma PayloadIsInjective(a: Payload, b: Payload)
    requires PayloadText(a) == PayloadText(b)
    ensures a == b
  {
    var name := (text: string) => text;
    var wa := [Pack(a.cases), Pack(a.decisions), Pack(a.proofs), OptionText(a.role, name)];
    var wb := [Pack(b.cases), Pack(b.decisions), Pack(b.proofs), OptionText(b.role, name)];
    PackIsInjective(wa, wb);
    assert forall i :: 0 <= i < 4 ==> wa[i] == wb[i];
    PackIsInjective(a.cases, b.cases);
    PackIsInjective(a.decisions, b.decisions);
    PackIsInjective(a.proofs, b.proofs);
    OptionIsInjective(a.role, b.role, name);
  }

  lemma ReviewIsInjective(a: JournalEntry, b: JournalEntry)
    requires EntryWords(a) == EntryWords(b)
    ensures a.verdict == b.verdict && a.methodRecord == b.methodRecord && a.payload == b.payload
  {
    var wa, wb := EntryWords(a), EntryWords(b);
    assert wa[9] == wb[9] && wa[10] == wb[10] && wa[11] == wb[11];
    forall v, w | VerdictText(v) == VerdictText(w) ensures v == w {
      VerdictIsInjective(v, w);
    }
    forall r, t | RecordText(r) == RecordText(t) ensures r == t {
      RecordIsInjective(r, t);
    }
    OptionIsInjective(a.verdict, b.verdict, VerdictText);
    OptionIsInjective(a.methodRecord, b.methodRecord, RecordText);
    PayloadIsInjective(a.payload, b.payload);
  }

  lemma EntryIsInjective(a: JournalEntry, b: JournalEntry)
    requires EntryWords(a) == EntryWords(b)
    ensures a == b
  {
    var wa, wb := EntryWords(a), EntryWords(b);
    assert forall i :: 0 <= i < 17 ==> wa[i] == wb[i];
    UnaryIsInjective(a.version, b.version);
    UnaryIsInjective(StageNumber(a.stage), StageNumber(b.stage));
    UnaryIsInjective(a.expectedUnits, b.expectedUnits);
    UnaryIsInjective(a.inTok, b.inTok);
    UnaryIsInjective(a.outTok, b.outTok);
    UnaryIsInjective(a.cachedInTok, b.cachedInTok);
    UnaryIsInjective(a.cost, b.cost);
    ReviewIsInjective(a, b);
  }

  // ---------------------------------------------------------------------
  // Lines
  // ---------------------------------------------------------------------

  function ByteOf(c: char): byte {
    if c == '1' then 0x31 else if c == ',' then 0x2C else 0x3B
  }

  function Write(e: JournalEntry): seq<byte> {
    var text := Pack(EntryWords(e));
    seq(|text|, i requires 0 <= i < |text| => ByteOf(text[i]))
  }

  lemma WriteIsInjective(a: JournalEntry, b: JournalEntry)
    requires Write(a) == Write(b)
    ensures a == b
  {
    var s, t := Pack(EntryWords(a)), Pack(EntryWords(b));
    PackSpells(EntryWords(a));
    PackSpells(EntryWords(b));
    assert |s| == |Write(a)| == |t|;
    forall i | 0 <= i < |s| ensures s[i] == t[i] {
      assert Write(a)[i] == ByteOf(s[i]) && Write(b)[i] == ByteOf(t[i]);
    }
    PackIsInjective(EntryWords(a), EntryWords(b));
    EntryIsInjective(a, b);
  }

  /** There is a faithful codec for journal entries. */
  lemma FaithfulCodec() returns (codec: Codec<JournalEntry>)
    ensures Faithful(codec)
  {
    codec := Codec(Write, (bytes: seq<byte>) =>
      if exists e: JournalEntry :: Write(e) == bytes then Some(var e: JournalEntry :| Write(e) == bytes; e) else None);
    forall e: JournalEntry ensures LineSafe(codec.write(e)) && codec.parse(codec.write(e)) == Some(e) {
      var words := EntryWords(e);
      assert Pack(words) == Word(words[0]) + Pack(words[1..]);
      forall other: JournalEntry | Write(other) == Write(e) ensures other == e {
        WriteIsInjective(other, e);
      }
    }
  }
}
