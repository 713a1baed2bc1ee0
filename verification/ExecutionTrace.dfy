/** Running the same commands on two snapshots. */
module ExecutionTrace {
  import opened Wrappers
  import opened Bytes

  // What such a run does, and which evidence of it is accepted
  // (src/benchmark_history_v2_identical_tests.rs, with the executor's command loop in
  // src/benchmark_history_v2_identical_tests_docker.rs).

  datatype Side = Base | Patched

  datatype Phase = Install | Test

  /** The parts of a plan that the execution depends on. */
  datatype Plan = Plan(installCommandSha256: seq<string>, testScriptSha256: string, retainedOutputBytes: nat)

  datatype ExpectedCommand = ExpectedCommand(side: Side, phase: Phase, commandIndex: nat, commandSha256: string)

  /** What one command did: everything about an event that the plan does not fix. */
  datatype Behaviour = Behaviour(
    exitCode: Option<int>, timedOut: bool, durationMillis: nat,
    stdoutSha256: string, stderrSha256: string,
    retainedStdout: seq<byte>, retainedStderr: seq<byte>,
    stdoutTruncated: bool, stderrTruncated: bool)

  datatype Event = Event(command: ExpectedCommand, behaviour: Behaviour)

  datatype Reason =
    | InstallCommandFailed(side: Side, commandIndex: nat)
    | InstallCommandTimedOut(side: Side, commandIndex: nat)
    | TestCommandsFailed(side: Side)
    | TestCommandsTimedOut(side: Side)

  datatype Outcome = Passed | Excluded(reason: Reason)

  datatype RawExecution = RawExecution(imageId: string, events: seq<Event>, outcome: Outcome)

  datatype TraceError =
    | ImageInvalid | EventCountInvalid | EvidenceInvalid | ContinuedAfterTerminal | OutcomeDisagrees | ReasonDisagrees

  // ---------------------------------------------------------------------
  // Hashes and limits
  // ---------------------------------------------------------------------

  predicate IsHexDigit(c: char) {
    '0' <= c <= '9' || 'a' <= c <= 'f' || 'A' <= c <= 'F'
  }

  predicate IsSha256(value: string) {
    |value| == 64 && forall i :: 0 <= i < 64 ==> IsHexDigit(value[i])
  }

  const IMAGE_PREFIX := "sha256:"

  predicate IsImageId(value: string) {
    IMAGE_PREFIX <= value && IsSha256(value[|IMAGE_PREFIX|..])
  }

  const USIZE_MAX: nat := 0xFFFF_FFFF_FFFF_FFFF

  function SaturatingTriple(n: nat): nat {
    if 3 * n > USIZE_MAX then USIZE_MAX else 3 * n
  }

  /** Evidence any command can leave: real hashes, bounded output, and no timeout that
      still exited cleanly. */
  predicate IsEvidence(plan: Plan, b: Behaviour) {
    && IsSha256(b.stdoutSha256) && IsSha256(b.stderrSha256)
    && |b.retainedStdout| <= SaturatingTriple(plan.retainedOutputBytes)
    && |b.retainedStderr| <= SaturatingTriple(plan.retainedOutputBytes)
    && !(b.timedOut && b.exitCode == Some(0))
  }

  predicate Fails(b: Behaviour) {
    b.timedOut || b.exitCode != Some(0)
  }

  // ---------------------------------------------------------------------
  // The commands of a plan
  // ---------------------------------------------------------------------

  /** The first `n` install commands of one side. */
  function InstallCommands(plan: Plan, side: Side, n: nat): seq<ExpectedCommand>
    requires n <= |plan.installCommandSha256|
  {
    seq(n, i requires 0 <= i < n => ExpectedCommand(side, Install, i, plan.installCommandSha256[i]))
  }

  function TestCommand(plan: Plan, side: Side): ExpectedCommand {
    ExpectedCommand(side, Test, 0, plan.testScriptSha256)
  }

  function SideCommands(plan: Plan, side: Side): seq<ExpectedCommand> {
    InstallCommands(plan, side, |plan.installCommandSha256|) + [TestCommand(plan, side)]
  }

  /** The base side first, then the patched side, command for command the same. */
  function Commands(plan: Plan): seq<ExpectedCommand> {
    SideCommands(plan, Base) + SideCommands(plan, Patched)
  }

  method ExpectedCommands(plan: Plan) returns (expected: seq<ExpectedCommand>)
    ensures expected == Commands(plan)
  {
    expected := [];
    var sides := [Base, Patched];
    for s := 0 to |sides|
      invariant expected == (if s == 0 then [] else if s == 1 then SideCommands(plan, Base) else Commands(plan))
    {
      ghost var before := expected;
      for i := 0 to |plan.installCommandSha256|
        invariant expected == before + InstallCommands(plan, sides[s], i)
      {
        expected := expected + [ExpectedCommand(sides[s], Install, i, plan.installCommandSha256[i])];
        assert InstallCommands(plan, sides[s], i + 1)
            == InstallCommands(plan, sides[s], i) + [ExpectedCommand(sides[s], Install, i, plan.installCommandSha256[i])];
      }
      expected := expected + [TestCommand(plan, sides[s])];
      assert expected == before + SideCommands(plan, sides[s]);
    }
  }

  // ---------------------------------------------------------------------
  // The fail-stop executor
  // ---------------------------------------------------------------------

  function ReasonFor(event: Event): Reason {
    match (event.command.phase, event.behaviour.timedOut)
    case (Install, true) => InstallCommandTimedOut(event.command.side, event.command.commandIndex)
    case (Install, false) => InstallCommandFailed(event.command.side, event.command.commandIndex)
    case (Test, true) => TestCommandsTimedOut(event.command.side)
    case (Test, false) => TestCommandsFailed(event.command.side)
  }

  /** The events of a fail-stop run of `commands` that behave as given. */
  function Trace(commands: seq<ExpectedCommand>, behaviours: seq<Behaviour>): seq<Event>
    requires |commands| == |behaviours|
  {
    if commands == [] then []
    else
      var event := Event(commands[0], behaviours[0]);
      if Fails(behaviours[0]) then [event] else [event] + Trace(commands[1..], behaviours[1..])
  }

  function OutcomeOf(events: seq<Event>): Outcome {
    if events != [] && Fails(events[|events| - 1].behaviour) then Excluded(ReasonFor(events[|events| - 1])) else Passed
  }

  function Execution(plan: Plan, imageId: string, behaviours: seq<Behaviour>): RawExecution
    requires |behaviours| == |Commands(plan)|
  {
    var events := Trace(Commands(plan), behaviours);
    RawExecution(imageId, events, OutcomeOf(events))
  }

  function FailedOutcome(event: Event): Option<Outcome> {
    if Fails(event.behaviour) then Some(Excluded(ReasonFor(event))) else None
  }

  /** Every command so far ran and succeeded. */
  ghost predicate AllRan(commands: seq<ExpectedCommand>, behaviours: seq<Behaviour>, events: seq<Event>) {
    && |events| <= |commands| == |behaviours|
    && forall i :: 0 <= i < |events| ==> events[i] == Event(commands[i], behaviours[i]) && !Fails(behaviours[i])
  }

  lemma {:induction false} TraceWhenAllRan(commands: seq<ExpectedCommand>, behaviours: seq<Behaviour>, events: seq<Event>)
    requires AllRan(commands, behaviours, events) && |events| == |commands|
    ensures Trace(commands, behaviours) == events && OutcomeOf(events) == Passed
    decreases |commands|
  {
    if commands != [] {
      TraceWhenAllRan(commands[1..], behaviours[1..], events[1..]);
    }
  }

  lemma {:induction false} TraceWhenStopped(commands: seq<ExpectedCommand>, behaviours: seq<Behaviour>, events: seq<Event>)
    requires AllRan(commands, behaviours, events) && |events| < |commands| && Fails(behaviours[|events|])
    ensures Trace(commands, behaviours) == events + [Event(commands[|events|], behaviours[|events|])]
    decreases |commands|
  {
    if events != [] {
      TraceWhenStopped(commands[1..], behaviours[1..], events[1..]);
    }
  }

  /** The install commands of one side: it stops at the first failure. */
  method RunInstallCommands(plan: Plan, side: Side, behaviours: seq<Behaviour>, events: seq<Event>,
                            ghost commands: seq<ExpectedCommand>)
    returns (outcome: Option<Outcome>, longer: seq<Event>)
    requires AllRan(commands, behaviours, events)
    requires |events| + |plan.installCommandSha256| <= |commands|
    requires commands[|events|..|events| + |plan.installCommandSha256|]
          == InstallCommands(plan, side, |plan.installCommandSha256|)
    ensures outcome.None? ==>
      AllRan(commands, behaviours, longer) && |longer| == |events| + |plan.installCommandSha256|
    ensures outcome.Some? ==> longer == Trace(commands, behaviours) && outcome.value == OutcomeOf(longer)
  {
    longer := events;
    for i := 0 to |plan.installCommandSha256|
      invariant AllRan(commands, behaviours, longer) && |longer| == |events| + i
    {
      var event := Event(ExpectedCommand(side, Install, i, plan.installCommandSha256[i]), behaviours[|longer|]);
      assert event.command == commands[|events|..|events| + |plan.installCommandSha256|][i] == commands[|longer|];
      outcome := FailedOutcome(event);
      if outcome.Some? {
        TraceWhenStopped(commands, behaviours, longer);
        longer := longer + [event];
        return;
      }
      longer := longer + [event];
    }
    outcome := None;
  }

  method RunTestCommands(plan: Plan, side: Side, behaviours: seq<Behaviour>, events: seq<Event>,
                         ghost commands: seq<ExpectedCommand>)
    returns (outcome: Option<Outcome>, longer: seq<Event>)
    requires AllRan(commands, behaviours, events)
    requires |events| < |commands| && commands[|events|] == TestCommand(plan, side)
    ensures outcome.None? ==> AllRan(commands, behaviours, longer) && |longer| == |events| + 1
    ensures outcome.Some? ==> longer == Trace(commands, behaviours) && outcome.value == OutcomeOf(longer)
  {
    var event := Event(TestCommand(plan, side), behaviours[|events|]);
    outcome := FailedOutcome(event);
    longer := events + [event];
    if outcome.Some? {
      TraceWhenStopped(commands, behaviours, events);
    }
  }

  /** The executor's loop over both sides produces exactly the fail-stop execution. */
  method Execute(plan: Plan, imageId: string, behaviours: seq<Behaviour>) returns (raw: RawExecution)
    requires |behaviours| == |Commands(plan)|
    ensures raw == Execution(plan, imageId, behaviours)
  {
    ghost var commands := Commands(plan);
    var events: seq<Event> := [];
    var sides := [Base, Patched];
    var n := |plan.installCommandSha256|;
    for s := 0 to |sides|
      invariant AllRan(commands, behaviours, events) && |events| == s * (n + 1)
    {
      assert commands[s * (n + 1)..s * (n + 1) + n] == InstallCommands(plan, sides[s], n);
      assert commands[s * (n + 1) + n] == TestCommand(plan, sides[s]);
      var outcome;
      outcome, events := RunInstallCommands(plan, sides[s], behaviours, events, commands);
      if outcome.Some? {
        return RawExecution(imageId, events, outcome.value);
      }
      outcome, events := RunTestCommands(plan, sides[s], behaviours, events, commands);
      if outcome.Some? {
        return RawExecution(imageId, events, outcome.value);
      }
    }
    TraceWhenAllRan(commands, behaviours, events);
    return RawExecution(imageId, events, Passed);
  }

  // ---------------------------------------------------------------------
  // Validation
  // ---------------------------------------------------------------------

  /** `validate_event`. */
  predicate IsExpectedEvent(plan: Plan, event: Event, expected: ExpectedCommand) {
    event.command == expected && IsEvidence(plan, event.behaviour)
  }

  predicate AreExpectedEvents(plan: Plan, events: seq<Event>, expected: seq<ExpectedCommand>) {
    && |events| <= |expected|
    && forall i :: 0 <= i < |events| ==> IsExpectedEvent(plan, events[i], expected[i])
  }

  /** `position` of the first failure. */
  function FirstFailure(events: seq<Event>): (position: Option<nat>)
    ensures position.Some? ==>
      && position.value < |events| && Fails(events[position.value].behaviour)
      && forall i :: 0 <= i < position.value ==> !Fails(events[i].behaviour)
    ensures position.None? ==> forall i :: 0 <= i < |events| ==> !Fails(events[i].behaviour)
  {
    if events == [] then None
    else if Fails(events[0].behaviour) then Some(0)
    else match FirstFailure(events[1..])
      case None => None
      case Some(i) => Some(i + 1)
  }

  function Validation(plan: Plan, raw: RawExecution): Result<(), TraceError> {
    if !IsImageId(raw.imageId) then Failure(ImageInvalid)
    else if raw.events == [] || |raw.events| > |Commands(plan)| then Failure(EventCountInvalid)
    else if !AreExpectedEvents(plan, raw.events, Commands(plan)) then Failure(EvidenceInvalid)
    else
      var failed := FirstFailure(raw.events);
      if failed.Some? && failed.value + 1 != |raw.events| then Failure(ContinuedAfterTerminal)
      else match (raw.outcome, failed)
        case (Passed, None) => if |raw.events| == |Commands(plan)| then Success(()) else Failure(OutcomeDisagrees)
        case (Excluded(reason), Some(index)) =>
          if reason == ReasonFor(raw.events[index]) then Success(()) else Failure(ReasonDisagrees)
        case _ => Failure(OutcomeDisagrees)
  }

  /** `validate_raw_execution`. */
  method ValidateRawExecution(plan: Plan, raw: RawExecution) returns (result: Result<(), TraceError>)
    ensures result == Validation(plan, raw)
  {
    if !IsImageId(raw.imageId) {
      return Failure(ImageInvalid);
    }
    var expected := ExpectedCommands(plan);
    if raw.events == [] || |raw.events| > |expected| {
      return Failure(EventCountInvalid);
    }
    for i := 0 to |raw.events|
      invariant forall k :: 0 <= k < i ==> IsExpectedEvent(plan, raw.events[k], expected[k])
    {
      if !IsExpectedEvent(plan, raw.events[i], expected[i]) {
        return Failure(EvidenceInvalid);
      }
    }
    var failed := FirstFailure(raw.events);
    if failed.Some? && failed.value + 1 != |raw.events| {
      return Failure(ContinuedAfterTerminal);
    }
    match (raw.outcome, failed) {
      case (Passed, None) =>
        if |raw.events| == |expected| {
          return Success(());
        }
        return Failure(OutcomeDisagrees);
      case (Excluded(reason), Some(index)) =>
        if reason == ReasonFor(raw.events[index]) {
          return Success(());
        }
        return Failure(ReasonDisagrees);
      case _ =>
        return Failure(OutcomeDisagrees);
    }
  }

  /** The executions the executor can produce from commands that leave proper evidence. */
  ghost predicate IsFailStopExecution(plan: Plan, raw: RawExecution) {
    exists behaviours: seq<Behaviour> ::
      && |behaviours| == |Commands(plan)|
      && (forall i :: 0 <= i < |behaviours| ==> IsEvidence(plan, behaviours[i]))
      && raw == Execution(plan, raw.imageId, behaviours)
  }

  lemma {:induction false} TraceShape(commands: seq<ExpectedCommand>, behaviours: seq<Behaviour>)
    requires |commands| == |behaviours|
    ensures var events := Trace(commands, behaviours);
            && |events| <= |commands| && (commands != [] ==> events != [])
            && (forall i :: 0 <= i < |events| ==> events[i] == Event(commands[i], behaviours[i]))
            && (forall i :: 0 <= i < |events| - 1 ==> !Fails(behaviours[i]))
            && (|events| < |commands| ==> Fails(behaviours[|events| - 1]))
    decreases |commands|
  {
    if commands != [] && !Fails(behaviours[0]) {
      TraceShape(commands[1..], behaviours[1..]);
      var rest := Trace(commands[1..], behaviours[1..]);
      assert forall i :: 0 <= i < |rest| ==> rest[i] == Event(commands[1..][i], behaviours[1..][i]);
    }
  }

  lemma {:induction false} TraceIsExpected(plan: Plan, commands: seq<ExpectedCommand>, behaviours: seq<Behaviour>)
    requires |commands| == |behaviours| && forall i :: 0 <= i < |behaviours| ==> IsEvidence(plan, behaviours[i])
    ensures AreExpectedEvents(plan, Trace(commands, behaviours), commands)
  {
    TraceShape(commands, behaviours);
  }

  lemma ExecutionIsAccepted(plan: Plan, imageId: string, behaviours: seq<Behaviour>)
    requires IsImageId(imageId) && |behaviours| == |Commands(plan)|
    requires forall i :: 0 <= i < |behaviours| ==> IsEvidence(plan, behaviours[i])
    ensures Validation(plan, Execution(plan, imageId, behaviours)) == Success(())
  {
    var commands := Commands(plan);
    TraceShape(commands, behaviours);
    TraceIsExpected(plan, commands, behaviours);
    assert |commands| > 0;
  }

  lemma ExecutionsAreAccepted(plan: Plan, raw: RawExecution)
    requires IsImageId(raw.imageId) && IsFailStopExecution(plan, raw)
    ensures Validation(plan, raw) == Success(())
  {
    var behaviours: seq<Behaviour> :|
      && |behaviours| == |Commands(plan)|
      && (forall i :: 0 <= i < |behaviours| ==> IsEvidence(plan, behaviours[i]))
      && raw == Execution(plan, raw.imageId, behaviours);
    ExecutionIsAccepted(plan, raw.imageId, behaviours);
  }

  /** A command that did nothing, and did it well. */
  function Quiet(): Behaviour {
    Behaviour(Some(0), false, 0, seq(64, _ => '0'), seq(64, _ => '0'), [], [], false, false)
  }

  /** The behaviours that explain an accepted list of events. */
  function Explanation(events: seq<Event>, n: nat): seq<Behaviour> {
    seq(n, i requires 0 <= i < n => if i < |events| then events[i].behaviour else Quiet())
  }

  lemma {:induction false} EventsAreTheTrace(commands: seq<ExpectedCommand>, events: seq<Event>)
    requires events != [] && |events| <= |commands|
    requires forall i :: 0 <= i < |events| ==> events[i].command == commands[i]
    requires forall i :: 0 <= i < |events| - 1 ==> !Fails(events[i].behaviour)
    requires |events| < |commands| ==> Fails(events[|events| - 1].behaviour)
    ensures Trace(commands, Explanation(events, |commands|)) == events
  {
    var n := |events| - 1;
    var behaviours := Explanation(events, |commands|);
    if Fails(events[n].behaviour) {
      TraceWhenStopped(commands, behaviours, events[..n]);
      assert events == events[..n] + [events[n]];
    } else {
      assert events[..|events|] == events;
      TraceWhenAllRan(commands, behaviours, events);
    }
  }

  lemma ExplanationIsEvidence(plan: Plan, events: seq<Event>, expected: seq<ExpectedCommand>)
    requires AreExpectedEvents(plan, events, expected)
    ensures forall i :: 0 <= i < |events| ==> events[i].command == expected[i]
    ensures forall i :: 0 <= i < |expected| ==> IsEvidence(plan, Explanation(events, |expected|)[i])
  {
    forall i | 0 <= i < |events| ensures IsExpectedEvent(plan, events[i], expected[i]) {
    }
  }

  lemma AcceptedAreExecutions(plan: Plan, raw: RawExecution)
    requires Validation(plan, raw) == Success(())
    ensures IsFailStopExecution(plan, raw)
  {
    ExplanationIsEvidence(plan, raw.events, Commands(plan));
    EventsAreTheTrace(Commands(plan), raw.events);
    var behaviours := Explanation(raw.events, |Commands(plan)|);
    assert raw == Execution(plan, raw.imageId, behaviours);
  }

  /** Validation accepts exactly the fail-stop executions with a real image id. */
  lemma AcceptsExactlyFailStopExecutions(plan: Plan, raw: RawExecution)
    ensures Validation(plan, raw) == Success(()) <==> IsImageId(raw.imageId) && IsFailStopExecution(plan, raw)
  {
    if Validation(plan, raw) == Success(()) {
      AcceptedAreExecutions(plan, raw);
    } else if IsImageId(raw.imageId) && IsFailStopExecution(plan, raw) {
      ExecutionsAreAccepted(plan, raw);
    }
  }

  /** The same command, on the base side and on the patched side. */
  predicate Mirrors(base: ExpectedCommand, patched: ExpectedCommand) {
    base.side == Base && patched == base.(side := Patched)
  }

  /** An accepted pass ran the same commands in the same order on both sides, and every one
      of them exited cleanly. */
  lemma PassedMeansIdentical(plan: Plan, raw: RawExecution)
    requires Validation(plan, raw) == Success(()) && raw.outcome == Passed
    ensures |raw.events| == 2 * (|plan.installCommandSha256| + 1)
    ensures forall i, j :: 0 <= i && j == i + |plan.installCommandSha256| + 1 && j < |raw.events| ==>
              Mirrors(raw.events[i].command, raw.events[j].command)
    ensures forall i :: 0 <= i < |raw.events| ==>
              raw.events[i].behaviour.exitCode == Some(0) && !raw.events[i].behaviour.timedOut
  {
    var commands := Commands(plan);
    assert FirstFailure(raw.events).None?;
    forall i | 0 <= i < |raw.events|
      ensures raw.events[i].command == commands[i] && !Fails(raw.events[i].behaviour)
    {
      assert IsExpectedEvent(plan, raw.events[i], commands[i]);
    }
  }

  /** An accepted exclusion stopped at its only failure, and names it. */
  lemma ExcludedMeansStoppedThere(plan: Plan, raw: RawExecution)
    requires Validation(plan, raw) == Success(()) && raw.outcome.Excluded?
    ensures raw.events != []
    ensures forall i :: 0 <= i < |raw.events| - 1 ==> !Fails(raw.events[i].behaviour)
    ensures Fails(raw.events[|raw.events| - 1].behaviour)
    ensures raw.outcome.reason == ReasonFor(raw.events[|raw.events| - 1])
  {
    assert FirstFailure(raw.events) == Some(|raw.events| - 1);
  }

  // ---------------------------------------------------------------------
  // Acceptance, event by event
  // ---------------------------------------------------------------------

  ghost predicate IsHash(value: string) {
    |value| == 64 && forall i :: 0 <= i < 64 ==> value[i] in "0123456789abcdefABCDEF"
  }

  /** Event `i` of a run: the install commands in order and then the tests, of the base side
      and then again of the patched one. */
  ghost predicate IsCommandAt(plan: Plan, i: nat, c: ExpectedCommand) {
    var installs := |plan.installCommandSha256|;
    var j := if i <= installs then i else i - installs - 1;
    && c.side == (if i <= installs then Base else Patched)
    && if j < installs then c.phase == Install && c.commandIndex == j && c.commandSha256 == plan.installCommandSha256[j]
       else c.phase == Test && c.commandIndex == 0 && c.commandSha256 == plan.testScriptSha256
  }

  ghost predicate LeavesEvidence(plan: Plan, b: Behaviour) {
    && IsHash(b.stdoutSha256) && IsHash(b.stderrSha256)
    && |b.retainedStdout| <= 3 * plan.retainedOutputBytes && |b.retainedStderr| <= 3 * plan.retainedOutputBytes
    && |b.retainedStdout| <= USIZE_MAX && |b.retainedStderr| <= USIZE_MAX
    && (b.timedOut ==> b.exitCode != Some(0))
  }

  ghost predicate ExitsCleanly(e: Event) {
    !e.behaviour.timedOut && e.behaviour.exitCode == Some(0)
  }

  ghost predicate Explains(reason: Reason, e: Event) {
    match reason
    case InstallCommandFailed(side, index) =>
      e.command.phase == Install && !e.behaviour.timedOut && e.command.side == side && e.command.commandIndex == index
    case InstallCommandTimedOut(side, index) =>
      e.command.phase == Install && e.behaviour.timedOut && e.command.side == side && e.command.commandIndex == index
    case TestCommandsFailed(side) => e.command.phase == Test && !e.behaviour.timedOut && e.command.side == side
    case TestCommandsTimedOut(side) => e.command.phase == Test && e.behaviour.timedOut && e.command.side == side
  }

  /** The outcome follows from the last event: the run is complete and passed, or it was
      excluded for the way this event failed. */
  ghost predicate Ends(plan: Plan, raw: RawExecution)
    requires raw.events != []
  {
    var last := raw.events[|raw.events| - 1];
    match raw.outcome
    case Passed => ExitsCleanly(last) && |raw.events| == 2 * (|plan.installCommandSha256| + 1)
    case Excluded(reason) => !ExitsCleanly(last) && Explains(reason, last)
  }

  lemma CommandsAre(plan: Plan, i: nat, c: ExpectedCommand)
    requires i < |Commands(plan)|
    ensures c == Commands(plan)[i] <==> IsCommandAt(plan, i, c)
  {
    var installs := |plan.installCommandSha256|;
    var base, patched := SideCommands(plan, Base), SideCommands(plan, Patched);
    assert Commands(plan)[i] == if i <= installs then base[i] else patched[i - installs - 1];
  }

  lemma HexDigitsAre(c: char)
    ensures IsHexDigit(c) <==> c in "0123456789abcdefABCDEF"
  {
    var digits, n := "0123456789abcdefABCDEF", c as int;
    if '0' <= c <= '9' {
      assert digits[n - 48] == c;
    } else if 'a' <= c <= 'f' {
      assert digits[n - 87] == c;
    } else if 'A' <= c <= 'F' {
      assert digits[n - 49] == c;
    }
  }

  lemma HashesAre(value: string)
    ensures IsSha256(value) <==> IsHash(value)
  {
    forall i | 0 <= i < |value| ensures IsHexDigit(value[i]) <==> value[i] in "0123456789abcdefABCDEF" {
      HexDigitsAre(value[i]);
    }
  }

  lemma EvidenceIs(plan: Plan, b: Behaviour)
    ensures IsEvidence(plan, b) <==> LeavesEvidence(plan, b)
  {
    HashesAre(b.stdoutSha256);
    HashesAre(b.stderrSha256);
  }

  lemma ExpectedEventsAre(plan: Plan, raw: RawExecution)
    requires |raw.events| <= |Commands(plan)|
    ensures AreExpectedEvents(plan, raw.events, Commands(plan))
       <==> forall i: nat :: i < |raw.events| ==>
              IsCommandAt(plan, i, raw.events[i].command) && LeavesEvidence(plan, raw.events[i].behaviour)
  {
    forall i: nat | i < |raw.events|
      ensures IsExpectedEvent(plan, raw.events[i], Commands(plan)[i])
         <==> IsCommandAt(plan, i, raw.events[i].command) && LeavesEvidence(plan, raw.events[i].behaviour)
    {
      CommandsAre(plan, i, raw.events[i].command);
      EvidenceIs(plan, raw.events[i].behaviour);
    }
  }

  /** A well-formed trace: an image named by its hash, the right commands with proper evidence,
      none of which failed before the last, and an outcome that follows from the last. */
  ghost predicate IsTrace(plan: Plan, raw: RawExecution) {
    && (exists digits: string :: IsHash(digits) && raw.imageId == "sha256:" + digits)
    && 1 <= |raw.events| <= 2 * (|plan.installCommandSha256| + 1)
    && (forall i: nat :: i < |raw.events| ==>
          IsCommandAt(plan, i, raw.events[i].command) && LeavesEvidence(plan, raw.events[i].behaviour))
    && (forall i: nat :: i < |raw.events| - 1 ==> ExitsCleanly(raw.events[i]))
    && Ends(plan, raw)
  }

  lemma ImageIdsAre(value: string)
    ensures IsImageId(value) <==> exists digits: string :: IsHash(digits) && value == "sha256:" + digits
  {
    if IsImageId(value) {
      HashesAre(value[|IMAGE_PREFIX|..]);
      assert value == "sha256:" + value[|IMAGE_PREFIX|..];
    }
    if exists digits: string :: IsHash(digits) && value == "sha256:" + digits {
      var digits: string :| IsHash(digits) && value == "sha256:" + digits;
      HashesAre(digits);
      assert value[|IMAGE_PREFIX|..] == digits;
    }
  }

  /** Validation accepts exactly the well-formed traces. */
  lemma AcceptsExactlyTraces(plan: Plan, raw: RawExecution)
    ensures Validation(plan, raw) == Success(()) <==> IsTrace(plan, raw)
  {
    ImageIdsAre(raw.imageId);
    if 1 <= |raw.events| <= |Commands(plan)| {
      ExpectedEventsAre(plan, raw);
      assert forall e: Event :: Fails(e.behaviour) <==> !ExitsCleanly(e);
    }
  }
}
