/** What every Agent run satisfies: its length, its evidence and the gates before completion. */
module AgentRunProofs {
  import opened Prelude
  import opened AgentRun

  // ---- Run length -------------------------------------------------------------------------------

  /** The number of transitions still possible: eight for each repair left, plus the way to repair. */
  function Rank(state: AgentState, repairs: nat): nat {
    var budget := if repairs < MAX_AUTOMATIC_REPAIRS then 8 * (MAX_AUTOMATIC_REPAIRS - repairs) else 0;
    match state
    case Parse => budget + 11
    case RetrieveCapabilities => budget + 10
    case Plan => budget + 9
    case Generate => budget + 8
    case SchemaValidate => budget + 7
    case PolicyValidate => budget + 6
    case AwaitingExecutionApproval => budget + 5
    case ExecuteValidation => budget + 4
    case Verify => budget + 3
    case AwaitingReleaseApproval => budget + 2
    case Repair => budget + 1
    case _ => 0
  }

  /** The event that loses exactly one unit of rank in each state. */
  function SlowestEvent(state: AgentState): AgentEvent {
    match state
    case Parse => Parsed
    case RetrieveCapabilities => CapabilitiesRetrieved
    case Plan => PlanCreated
    case Generate => CandidateGenerated
    case SchemaValidate => SchemaValid
    case PolicyValidate => ApprovalRequired
    case AwaitingExecutionApproval => TeacherApproved
    case ExecuteValidation => ValidationExecuted
    case Verify => VerificationPassed
    case AwaitingReleaseApproval => TeacherRejected
    case _ => RepairReady
  }

  /** Every accepted call lowers the rank. */
  lemma RankDrops(run: Run, call: Call)
    requires Perform(run, call).1.Ok?
    ensures Rank(Perform(run, call).0.state, Perform(run, call).0.repairs) < Rank(run.state, run.repairs)
  {
  }

  /** In a live run one event is accepted and lowers the rank by exactly one: the rank is exact. */
  lemma SlowestEventLosesOne(run: Run)
    requires !run.state.IsTerminal() && |run.history| < U64_MAX
    ensures var (run', r) := Perform(run, Apply(SlowestEvent(run.state)));
            r.Ok? && Rank(run'.state, run'.repairs) + 1 == Rank(run.state, run.repairs)
  {
  }

  /** Cancellation and stable failures stop every live run at once; nothing moves a terminal one. */
  lemma StopsExactlyWhileLive(run: Run, call: Call, diagnostic: string)
    requires |run.history| < U64_MAX
    ensures Perform(run, Apply(Cancel)).1.Ok? <==> !run.state.IsTerminal()
    ensures Perform(run, Fail(diagnostic)).1.Ok? <==> !run.state.IsTerminal() && IsStableDiagnostic(diagnostic)
    ensures Perform(run, Apply(Cancel)).1.Ok? ==> Perform(run, Apply(Cancel)).0.state == Cancelled
    ensures Perform(run, Fail(diagnostic)).1.Ok? ==>
              Perform(run, Fail(diagnostic)).0.state == Failed && Perform(run, Fail(diagnostic)).1.value.diagnostic == Some(diagnostic)
    ensures run.state.IsTerminal() ==> Perform(run, call).0 == run
  {
  }

  /** A refused call changes nothing; an accepted one appends exactly the record it returns. */
  lemma PerformIsAtomic(run: Run, call: Call)
    ensures var (run', r) := Perform(run, call);
            match r
            case Err(_) => run' == run
            case Ok(record) =>
              && run'.history == run.history + [record]
              && record.sequence == |run'.history| && record.from == run.state && record.to == run'.state
              && !run.state.IsTerminal()
  {
  }

  lemma {:induction false} LengthBound(run: Run, calls: seq<Call>)
    ensures var run' := PerformAll(run, calls);
            |run.history| <= |run'.history| && |run'.history| + Rank(run'.state, run'.repairs) <= |run.history| + Rank(run.state, run.repairs)
    decreases |calls|
  {
    if calls != [] {
      if Perform(run, calls[0]).1.Ok? {
        RankDrops(run, calls[0]);
      }
      PerformIsAtomic(run, calls[0]);
      LengthBound(Perform(run, calls[0]).0, calls[1..]);
    }
  }

  function SlowestCalls(run: Run): seq<Call>
    requires |run.history| + Rank(run.state, run.repairs) <= U64_MAX
    decreases Rank(run.state, run.repairs)
  {
    if run.state.IsTerminal() then []
    else
      SlowestEventLosesOne(run);
      PerformIsAtomic(run, Apply(SlowestEvent(run.state)));
      [Apply(SlowestEvent(run.state))] + SlowestCalls(Perform(run, Apply(SlowestEvent(run.state))).0)
  }

  lemma {:induction false} SlowestCallsReachTheBound(run: Run)
    requires |run.history| + Rank(run.state, run.repairs) <= U64_MAX
    ensures var run' := PerformAll(run, SlowestCalls(run));
            run'.state.IsTerminal() && |run'.history| == |run.history| + Rank(run.state, run.repairs)
    decreases Rank(run.state, run.repairs)
  {
    if !run.state.IsTerminal() {
      var call := Apply(SlowestEvent(run.state));
      SlowestEventLosesOne(run);
      PerformIsAtomic(run, call);
      SlowestCallsReachTheBound(Perform(run, call).0);
      assert SlowestCalls(run)[1..] == SlowestCalls(Perform(run, call).0);
    }
  }

  lemma ShortRunsDoNotOverflow(run: Run, call: Call)
    requires |run.history| < U64_MAX
    ensures Perform(run, call).1 != Err(SequenceOverflow)
  {
  }

  lemma BoundsFromStart(run: Run, calls: seq<Call>, call: Call)
    requires run.state == Parse && run.repairs == 0 && run.history == []
    ensures |PerformAll(run, calls).history| <= 27
    ensures exists longest :: |PerformAll(run, longest).history| == 27
    ensures Perform(PerformAll(run, calls), call).1 != Err(SequenceOverflow)
  {
    LengthBound(run, calls);
    SlowestCallsReachTheBound(run);
    assert |PerformAll(run, SlowestCalls(run)).history| == 27;
    ShortRunsDoNotOverflow(PerformAll(run, calls), call);
  }

  /** Every run accepts at most 27 transitions, some run accepts 27, and the sequence never overflows. */
  lemma AtMost27Transitions(calls: seq<Call>, call: Call)
    ensures |PerformAll(FRESH, calls).history| <= 27
    ensures exists longest :: |PerformAll(FRESH, longest).history| == 27
    ensures Perform(PerformAll(FRESH, calls), call).1 != Err(SequenceOverflow)
  {
    BoundsFromStart(FRESH, calls, call);
  }

  // ---- Evidence ---------------------------------------------------------------------------------

  lemma {:induction false} PerformAllAppend(run: Run, calls: seq<Call>, call: Call)
    ensures PerformAll(run, calls + [call]) == Perform(PerformAll(run, calls), call).0
    decreases |calls|
  {
    if calls == [] {
      assert calls + [call] == [call] && [call][1..] == [];
    } else {
      assert (calls + [call])[1..] == calls[1..] + [call];
      PerformAllAppend(Perform(run, calls[0]).0, calls[1..], call);
    }
  }

  /** The call a record stands for. */
  function CallOf(record: Record): Call {
    if record.event == FailureRecorded && record.diagnostic.Some? then Fail(record.diagnostic.value) else Apply(record.event)
  }

  function CallsOf(history: seq<Record>): seq<Call> {
    seq(|history|, i requires 0 <= i < |history| => CallOf(history[i]))
  }

  ghost predicate GoodRecord(record: Record) {
    && (record.diagnostic.Some? <==> record.to == Failed || record.to == Cancelled)
    && (record.diagnostic.Some? ==> IsStableDiagnostic(record.diagnostic.value))
  }

  /** Records numbered 1..n, each good, chained from the first state to the last. */
  ghost predicate GoodHistory(history: seq<Record>, state: AgentState) {
    && (forall i :: 0 <= i < |history| ==> history[i].sequence == i + 1 && GoodRecord(history[i]))
    && (history != [] ==> history[0].from == Parse)
    && (forall i, j :: 0 <= i < |history| && j == i + 1 < |history| ==> history[j].from == history[i].to)
    && state == (if history == [] then Parse else history[|history| - 1].to)
  }

  lemma AppendedHistory(history: seq<Record>, state: AgentState, record: Record)
    requires GoodHistory(history, state) && GoodRecord(record) && record.sequence == |history| + 1 && record.from == state
    ensures GoodHistory(history + [record], record.to)
  {
    var longer := history + [record];
    assert forall i :: 0 <= i < |history| ==> longer[i] == history[i];
    assert longer[|history|] == record;
  }

  lemma AppendedCalls(history: seq<Record>, record: Record)
    ensures CallsOf(history + [record]) == CallsOf(history) + [CallOf(record)]
  {
  }

  ghost predicate GoodEvidence(run: Run) {
    run.repairs <= MAX_AUTOMATIC_REPAIRS && GoodHistory(run.history, run.state) && PerformAll(FRESH, CallsOf(run.history)) == run
  }

  lemma OutcomeDiagnosticsAreStable(outcome: Outcome)
    ensures outcome.Diagnostic().Some? ==> IsStableDiagnostic(outcome.Diagnostic().value)
  {
    var exhausted, cancelled := "LW_AGENT_REPAIR_BUDGET_EXHAUSTED", "LW_AGENT_RUN_CANCELLED";
    assert exhausted[..3] == "LW_" && cancelled[..3] == "LW_";
  }

  lemma RecordIsGood(run: Run, call: Call)
    requires Perform(run, call).1.Ok?
    ensures GoodRecord(Perform(run, call).1.value) && CallOf(Perform(run, call).1.value) == call
    ensures run.repairs <= MAX_AUTOMATIC_REPAIRS ==> Perform(run, call).0.repairs <= MAX_AUTOMATIC_REPAIRS
  {
    OutcomeDiagnosticsAreStable(Perform(run, call).1.value.outcome);
  }

  lemma PerformKeepsEvidence(run: Run, call: Call)
    requires GoodEvidence(run)
    ensures GoodEvidence(Perform(run, call).0)
  {
    var (run', r) := Perform(run, call);
    PerformIsAtomic(run, call);
    if r.Ok? {
      RecordIsGood(run, call);
      AppendedHistory(run.history, run.state, r.value);
      AppendedCalls(run.history, r.value);
      PerformAllAppend(FRESH, CallsOf(run.history), call);
    }
  }

  /**
    History is complete evidence: records are numbered 1..n and chained from the first state to the
    current one, a record carries a stable diagnostic exactly when it ends the run in failure or
    cancellation, and replaying the records from a fresh run rebuilds the run.
  */
  lemma {:induction false} HistoryIsEvidence(run: Run, calls: seq<Call>)
    requires GoodEvidence(run)
    ensures GoodEvidence(PerformAll(run, calls))
    decreases |calls|
  {
    if calls != [] {
      PerformKeepsEvidence(run, calls[0]);
      HistoryIsEvidence(Perform(run, calls[0]).0, calls[1..]);
    }
  }

  lemma EveryRunIsEvidence(calls: seq<Call>)
    ensures GoodEvidence(PerformAll(FRESH, calls))
  {
    assert CallsOf(FRESH.history) == [];
    HistoryIsEvidence(FRESH, calls);
  }

  // ---- Gates before completion ------------------------------------------------------------------

  /** How a candidate got past policy: allowed outright, or approved by a teacher. */
  datatype Gate = AllowedOutright | ApprovedByTeacher

  function Cleared(gate: Gate): seq<AgentEvent> {
    [CandidateGenerated, SchemaValid] + (if gate == AllowedOutright then [PolicyAllowed] else [ApprovalRequired, TeacherApproved])
  }

  /** A candidate that was sent to repair, and where it failed. */
  datatype Round = SchemaRejected | ExecutionRefused | VerificationRejected(gate: Gate) | ReleaseRefused(gate: Gate)

  /** A rejected candidate, up to the repair. */
  function Rejection(round: Round): seq<AgentEvent> {
    match round
    case SchemaRejected => [CandidateGenerated, SchemaInvalid]
    case ExecutionRefused => [CandidateGenerated, SchemaValid] + [ApprovalRequired, TeacherRejected]
    case VerificationRejected(gate) => Cleared(gate) + [ValidationExecuted, VerificationFailed]
    case ReleaseRefused(gate) => Cleared(gate) + [ValidationExecuted, VerificationPassed, TeacherRejected]
  }

  function RoundEvents(round: Round): seq<AgentEvent> {
    Rejection(round) + [RepairReady]
  }

  function RoundsEvents(rounds: seq<Round>): seq<AgentEvent> {
    if rounds == [] then [] else RoundsEvents(rounds[..|rounds| - 1]) + RoundEvents(rounds[|rounds| - 1])
  }

  const PRELUDE := [Parsed, CapabilitiesRetrieved, PlanCreated]

  function Release(gate: Gate): seq<AgentEvent> {
    Cleared(gate) + [ValidationExecuted, VerificationPassed, TeacherApproved]
  }

  function EventsOf(history: seq<Record>): seq<AgentEvent> {
    seq(|history|, i requires 0 <= i < |history| => history[i].event)
  }

  lemma EventsAppend(history: seq<Record>, record: Record)
    ensures EventsOf(history + [record]) == EventsOf(history) + [record.event]
  {
  }

  /** The events of the candidate in hand, state by state. */
  ghost predicate InHand(state: AgentState, tail: seq<AgentEvent>) {
    match state
    case Generate => tail == []
    case SchemaValidate => tail == [CandidateGenerated]
    case PolicyValidate => tail == [CandidateGenerated, SchemaValid]
    case AwaitingExecutionApproval => tail == [CandidateGenerated, SchemaValid, ApprovalRequired]
    case ExecuteValidation => exists gate :: tail == Cleared(gate)
    case Verify => exists gate :: tail == Cleared(gate) + [ValidationExecuted]
    case AwaitingReleaseApproval => exists gate :: tail == Cleared(gate) + [ValidationExecuted, VerificationPassed]
    case Completed => exists gate :: tail == Release(gate)
    case Repair => exists round :: tail == Rejection(round)
    case _ => false
  }

  function Whole(rounds: seq<Round>, tail: seq<AgentEvent>): seq<AgentEvent> {
    PRELUDE + RoundsEvents(rounds) + tail
  }

  lemma WholeRound(rounds: seq<Round>, round: Round)
    ensures Whole(rounds, Rejection(round)) + [RepairReady] == Whole(rounds + [round], [])
  {
    assert (rounds + [round])[..|rounds|] == rounds;
    assert Rejection(round) + [RepairReady] == RoundEvents(round);
  }

  ghost predicate Split(state: AgentState, repairs: nat, events: seq<AgentEvent>, rounds: seq<Round>, tail: seq<AgentEvent>) {
    |rounds| == repairs && InHand(state, tail) && events == Whole(rounds, tail)
  }

  /** Some rounds are behind the run and one candidate is in hand. */
  ghost predicate Underway(state: AgentState, repairs: nat, events: seq<AgentEvent>) {
    exists rounds, tail :: Split(state, repairs, events, rounds, tail)
  }

  ghost predicate Shaped(state: AgentState, repairs: nat, events: seq<AgentEvent>) {
    match state
    case Parse => repairs == 0 && events == []
    case RetrieveCapabilities => repairs == 0 && events == PRELUDE[..1]
    case Plan => repairs == 0 && events == PRELUDE[..2]
    case Failed => true
    case Cancelled => true
    case _ => Underway(state, repairs, events)
  }

  lemma ExtendTail(state: AgentState, tail: seq<AgentEvent>, event: AgentEvent, repairs: nat)
    requires InHand(state, tail) && Next(state, repairs, event).Ok? && event != Cancel && event != RepairReady
    ensures InHand(Next(state, repairs, event).value.state, tail + [event])
  {
    match state
    case SchemaValidate =>
      assert event == SchemaInvalid ==> tail + [event] == Rejection(SchemaRejected);
    case PolicyValidate =>
      assert event == PolicyAllowed ==> tail + [event] == Cleared(AllowedOutright);
    case AwaitingExecutionApproval =>
      assert event == TeacherRejected ==> tail + [event] == Rejection(ExecutionRefused);
      assert event == TeacherApproved ==> tail + [event] == Cleared(ApprovedByTeacher);
    case ExecuteValidation =>
      var gate :| tail == Cleared(gate);
      assert tail + [event] == Cleared(gate) + [ValidationExecuted];
    case Verify =>
      var gate :| tail == Cleared(gate) + [ValidationExecuted];
      assert event == VerificationFailed ==> tail + [event] == Rejection(VerificationRejected(gate));
      assert event == VerificationPassed ==> tail + [event] == Cleared(gate) + [ValidationExecuted, VerificationPassed];
    case AwaitingReleaseApproval =>
      var gate :| tail == Cleared(gate) + [ValidationExecuted, VerificationPassed];
      assert event == TeacherRejected ==> tail + [event] == Rejection(ReleaseRefused(gate));
      assert event == TeacherApproved ==> tail + [event] == Release(gate);
    case _ =>
  }

  lemma RepairStartsARound(repairs: nat, events: seq<AgentEvent>, rounds: seq<Round>, tail: seq<AgentEvent>)
    requires Split(Repair, repairs, events, rounds, tail)
    ensures Underway(Generate, repairs + 1, events + [RepairReady])
  {
    var round :| tail == Rejection(round);
    WholeRound(rounds, round);
    assert Split(Generate, repairs + 1, events + [RepairReady], rounds + [round], []);
  }

  lemma CandidateMovesOn(state: AgentState, repairs: nat, events: seq<AgentEvent>, rounds: seq<Round>, tail: seq<AgentEvent>, event: AgentEvent)
    requires Split(state, repairs, events, rounds, tail)
    requires Next(state, repairs, event).Ok? && event != Cancel && event != RepairReady
    ensures var move := Next(state, repairs, event).value; Underway(move.state, move.repairs, events + [event])
  {
    var move := Next(state, repairs, event).value;
    ExtendTail(state, tail, event, repairs);
    assert Split(move.state, repairs, events + [event], rounds, tail + [event]);
  }

  lemma PreludeKeepsShape(state: AgentState, repairs: nat, events: seq<AgentEvent>, event: AgentEvent)
    requires state == Parse || state == RetrieveCapabilities || state == Plan
    requires Shaped(state, repairs, events) && Next(state, repairs, event).Ok? && event != Cancel
    ensures var move := Next(state, repairs, event).value; Shaped(move.state, move.repairs, events + [event])
  {
    if state == Plan {
      assert events + [event] == Whole([], []);
      assert Split(Generate, 0, events + [event], [], []);
    }
  }

  lemma NextKeepsShape(state: AgentState, repairs: nat, events: seq<AgentEvent>, event: AgentEvent)
    requires Shaped(state, repairs, events) && Next(state, repairs, event).Ok?
    ensures var move := Next(state, repairs, event).value; Shaped(move.state, move.repairs, events + [event])
  {
    if event == Cancel {
      assert Next(state, repairs, event).value.state == Cancelled;
    } else if state == Parse || state == RetrieveCapabilities || state == Plan {
      PreludeKeepsShape(state, repairs, events, event);
    } else if event == RepairReady {
      RepairKeepsShape(state, repairs, events);
    } else {
      CandidateKeepsShape(state, repairs, events, event);
    }
  }

  lemma RepairKeepsShape(state: AgentState, repairs: nat, events: seq<AgentEvent>)
    requires Shaped(state, repairs, events) && Next(state, repairs, RepairReady).Ok?
    ensures var move := Next(state, repairs, RepairReady).value; Shaped(move.state, move.repairs, events + [RepairReady])
  {
    assert state == Repair;
    if repairs < MAX_AUTOMATIC_REPAIRS {
      var rounds, tail :| Split(state, repairs, events, rounds, tail);
      RepairStartsARound(repairs, events, rounds, tail);
    }
  }

  lemma CandidateKeepsShape(state: AgentState, repairs: nat, events: seq<AgentEvent>, event: AgentEvent)
    requires Underway(state, repairs, events) && Next(state, repairs, event).Ok? && event != Cancel && event != RepairReady
    ensures var move := Next(state, repairs, event).value; Shaped(move.state, move.repairs, events + [event])
  {
    var rounds, tail :| Split(state, repairs, events, rounds, tail);
    CandidateMovesOn(state, repairs, events, rounds, tail, event);
  }

  lemma PerformKeepsShape(run: Run, call: Call)
    requires Shaped(run.state, run.repairs, EventsOf(run.history)) && run.repairs <= MAX_AUTOMATIC_REPAIRS
    ensures var run' := Perform(run, call).0; Shaped(run'.state, run'.repairs, EventsOf(run'.history)) && run'.repairs <= MAX_AUTOMATIC_REPAIRS
  {
    var (run', r) := Perform(run, call);
    if r.Ok? && call.Apply? {
      NextKeepsShape(run.state, run.repairs, EventsOf(run.history), call.event);
      EventsAppend(run.history, r.value);
    }
  }

  lemma {:induction false} RunKeepsShape(run: Run, calls: seq<Call>)
    requires Shaped(run.state, run.repairs, EventsOf(run.history)) && run.repairs <= MAX_AUTOMATIC_REPAIRS
    ensures var run' := PerformAll(run, calls); Shaped(run'.state, run'.repairs, EventsOf(run'.history)) && run'.repairs <= MAX_AUTOMATIC_REPAIRS
    decreases |calls|
  {
    if calls != [] {
      PerformKeepsShape(run, calls[0]);
      RunKeepsShape(Perform(run, calls[0]).0, calls[1..]);
    }
  }

  /** The event sequences of completed runs. */
  ghost predicate CompletingEvents(events: seq<AgentEvent>, rounds: seq<Round>, gate: Gate) {
    |rounds| <= MAX_AUTOMATIC_REPAIRS && events == PRELUDE + RoundsEvents(rounds) + Release(gate)
  }

  /** No completion without every gate: a completed run was prepared, repaired at most twice and released. */
  lemma CompletionNeedsEveryGate(calls: seq<Call>)
    requires PerformAll(FRESH, calls).state == Completed
    ensures exists rounds, gate :: CompletingEvents(EventsOf(PerformAll(FRESH, calls).history), rounds, gate)
                                   && |rounds| == PerformAll(FRESH, calls).repairs
  {
    assert EventsOf(FRESH.history) == [];
    RunKeepsShape(FRESH, calls);
    var run := PerformAll(FRESH, calls);
    var rounds, tail :| Split(Completed, run.repairs, EventsOf(run.history), rounds, tail);
    var gate :| tail == Release(gate);
    assert CompletingEvents(EventsOf(run.history), rounds, gate);
  }

  // ---- and every such sequence completes --------------------------------------------------------

  /** The events are legal one after the other and lead from one configuration to the other. */
  predicate Drives(state: AgentState, repairs: nat, events: seq<AgentEvent>, state': AgentState, repairs': nat)
    decreases |events|
  {
    if events == [] then state == state' && repairs == repairs'
    else
      var next := Next(state, repairs, events[0]);
      next.Ok? && Drives(next.value.state, next.value.repairs, events[1..], state', repairs')
  }

  lemma {:induction false} DrivesThen(state: AgentState, repairs: nat, first: seq<AgentEvent>, state1: AgentState, repairs1: nat,
                                      second: seq<AgentEvent>, state2: AgentState, repairs2: nat)
    requires Drives(state, repairs, first, state1, repairs1) && Drives(state1, repairs1, second, state2, repairs2)
    ensures Drives(state, repairs, first + second, state2, repairs2)
    decreases |first|
  {
    if first == [] {
      assert first + second == second;
    } else {
      var next := Next(state, repairs, first[0]).value;
      DrivesThen(next.state, next.repairs, first[1..], state1, repairs1, second, state2, repairs2);
      assert (first + second)[1..] == first[1..] + second;
    }
  }

  lemma Drives2(state: AgentState, repairs: nat, event1: AgentEvent, event2: AgentEvent)
    requires var next := Next(state, repairs, event1); next.Ok? && Next(next.value.state, next.value.repairs, event2).Ok?
    ensures var next := Next(state, repairs, event1).value;
            var move := Next(next.state, next.repairs, event2).value;
            Drives(state, repairs, [event1, event2], move.state, move.repairs)
  {
    var next := Next(state, repairs, event1).value;
    assert [event1, event2][1..] == [event2];
  }

  lemma ClearedDrives(repairs: nat, gate: Gate)
    ensures Drives(Generate, repairs, Cleared(gate), ExecuteValidation, repairs)
  {
    Drives2(Generate, repairs, CandidateGenerated, SchemaValid);
    if gate == AllowedOutright {
      DrivesThen(Generate, repairs, [CandidateGenerated, SchemaValid], PolicyValidate, repairs, [PolicyAllowed], ExecuteValidation, repairs);
    } else {
      Drives2(PolicyValidate, repairs, ApprovalRequired, TeacherApproved);
      DrivesThen(Generate, repairs, [CandidateGenerated, SchemaValid], PolicyValidate, repairs,
                 [ApprovalRequired, TeacherApproved], ExecuteValidation, repairs);
    }
  }

  lemma VerdictDrives(repairs: nat, gate: Gate, verdict: AgentEvent)
    requires verdict == TeacherApproved || verdict == TeacherRejected
    ensures Drives(Generate, repairs, Cleared(gate) + [ValidationExecuted, VerificationPassed, verdict],
                   if verdict == TeacherApproved then Completed else Repair, repairs)
  {
    var end := if verdict == TeacherApproved then Completed else Repair;
    ClearedDrives(repairs, gate);
    Drives2(ExecuteValidation, repairs, ValidationExecuted, VerificationPassed);
    DrivesThen(ExecuteValidation, repairs, [ValidationExecuted, VerificationPassed], AwaitingReleaseApproval, repairs, [verdict], end, repairs);
    assert [ValidationExecuted, VerificationPassed] + [verdict] == [ValidationExecuted, VerificationPassed, verdict];
    DrivesThen(Generate, repairs, Cleared(gate), ExecuteValidation, repairs, [ValidationExecuted, VerificationPassed, verdict], end, repairs);
  }

  lemma ExecutionRefusalDrives(repairs: nat)
    ensures Drives(Generate, repairs, [CandidateGenerated, SchemaValid] + [ApprovalRequired, TeacherRejected], Repair, repairs)
  {
    Drives2(Generate, repairs, CandidateGenerated, SchemaValid);
    Drives2(PolicyValidate, repairs, ApprovalRequired, TeacherRejected);
    DrivesThen(Generate, repairs, [CandidateGenerated, SchemaValid], PolicyValidate, repairs, [ApprovalRequired, TeacherRejected], Repair, repairs);
  }

  lemma VerificationFailureDrives(repairs: nat, gate: Gate)
    ensures Drives(Generate, repairs, Cleared(gate) + [ValidationExecuted, VerificationFailed], Repair, repairs)
  {
    ClearedDrives(repairs, gate);
    Drives2(ExecuteValidation, repairs, ValidationExecuted, VerificationFailed);
    DrivesThen(Generate, repairs, Cleared(gate), ExecuteValidation, repairs, [ValidationExecuted, VerificationFailed], Repair, repairs);
  }

  lemma RejectionDrives(repairs: nat, round: Round)
    ensures Drives(Generate, repairs, Rejection(round), Repair, repairs)
  {
    match round
    case SchemaRejected => Drives2(Generate, repairs, CandidateGenerated, SchemaInvalid);
    case ExecutionRefused => ExecutionRefusalDrives(repairs);
    case VerificationRejected(gate) => VerificationFailureDrives(repairs, gate);
    case ReleaseRefused(gate) => VerdictDrives(repairs, gate, TeacherRejected);
  }

  lemma RoundDrives(repairs: nat, round: Round)
    requires repairs < MAX_AUTOMATIC_REPAIRS
    ensures Drives(Generate, repairs, RoundEvents(round), Generate, repairs + 1)
  {
    RejectionDrives(repairs, round);
    DrivesThen(Generate, repairs, Rejection(round), Repair, repairs, [RepairReady], Generate, repairs + 1);
  }

  lemma {:induction false} RoundsDrive(rounds: seq<Round>)
    requires |rounds| <= MAX_AUTOMATIC_REPAIRS
    ensures Drives(Generate, 0, RoundsEvents(rounds), Generate, |rounds|) && |RoundsEvents(rounds)| <= 8 * |rounds|
  {
    if rounds != [] {
      var n := |rounds| - 1;
      RoundsDrive(rounds[..n]);
      RoundDrives(n, rounds[n]);
      DrivesThen(Generate, 0, RoundsEvents(rounds[..n]), Generate, n, RoundEvents(rounds[n]), Generate, n + 1);
    }
  }

  function Applies(events: seq<AgentEvent>): seq<Call> {
    seq(|events|, i requires 0 <= i < |events| => Apply(events[i]))
  }

  lemma {:induction false} DrivesPerforms(run: Run, events: seq<AgentEvent>, state': AgentState, repairs': nat)
    requires Drives(run.state, run.repairs, events, state', repairs') && |run.history| + |events| <= U64_MAX
    ensures var run' := PerformAll(run, Applies(events));
            run'.state == state' && run'.repairs == repairs' && EventsOf(run'.history) == EventsOf(run.history) + events
    decreases |events|
  {
    if events != [] {
      var (run1, r) := Perform(run, Apply(events[0]));
      assert Applies(events)[0] == Apply(events[0]) && Applies(events)[1..] == Applies(events[1..]);
      DrivesPerforms(run1, events[1..], state', repairs');
      EventsAppend(run.history, r.value);
      assert EventsOf(run.history) + [events[0]] + events[1..] == EventsOf(run.history) + events;
    }
  }

  lemma CompletingEventsComplete(run: Run, events: seq<AgentEvent>, rounds: seq<Round>, gate: Gate)
    requires run.state == Parse && run.repairs == 0 && run.history == [] && CompletingEvents(events, rounds, gate)
    ensures var run' := PerformAll(run, Applies(events)); run'.state == Completed && EventsOf(run'.history) == events
  {
    Drives2(Parse, 0, Parsed, CapabilitiesRetrieved);
    DrivesThen(Parse, 0, [Parsed, CapabilitiesRetrieved], Plan, 0, [PlanCreated], Generate, 0);
    assert [Parsed, CapabilitiesRetrieved] + [PlanCreated] == PRELUDE;
    RoundsDrive(rounds);
    DrivesThen(Parse, 0, PRELUDE, Generate, 0, RoundsEvents(rounds), Generate, |rounds|);
    VerdictDrives(|rounds|, gate, TeacherApproved);
    DrivesThen(Parse, 0, PRELUDE + RoundsEvents(rounds), Generate, |rounds|, Release(gate), Completed, |rounds|);
    DrivesPerforms(run, events, Completed, |rounds|);
    assert EventsOf(run.history) + events == events;
  }

  /**
    The exact language of completion: an event sequence is the history of some completed run if and
    only if it is the prelude, at most two rejected rounds, and one candidate through every gate.
  */
  lemma CompletionLanguage(events: seq<AgentEvent>)
    ensures (exists calls :: PerformAll(FRESH, calls).state == Completed && EventsOf(PerformAll(FRESH, calls).history) == events)
            <==> (exists rounds, gate :: CompletingEvents(events, rounds, gate))
  {
    if calls :| PerformAll(FRESH, calls).state == Completed && EventsOf(PerformAll(FRESH, calls).history) == events {
      CompletionNeedsEveryGate(calls);
    }
    if rounds, gate :| CompletingEvents(events, rounds, gate) {
      CompletingEventsComplete(FRESH, events, rounds, gate);
    }
  }

  // ---- Candidates -------------------------------------------------------------------------------

  function Candidates(events: seq<AgentEvent>): nat {
    if events == [] then 0
    else Candidates(events[..|events| - 1]) + (if events[|events| - 1] == CandidateGenerated then 1 else 0)
  }

  function SinceLastCandidate(events: seq<AgentEvent>): seq<AgentEvent> {
    if events == [] then []
    else
      var last := events[|events| - 1];
      if last == CandidateGenerated then [] else SinceLastCandidate(events[..|events| - 1]) + [last]
  }

  predicate CandidateInHand(state: AgentState) {
    !(state.Parse? || state.RetrieveCapabilities? || state.Plan? || state.Generate?)
  }

  ghost predicate CandidatesWithin(run: Run) {
    run.repairs <= MAX_AUTOMATIC_REPAIRS && Candidates(EventsOf(run.history)) <= run.repairs + if CandidateInHand(run.state) then 1 else 0
  }

  lemma {:induction false} RunKeepsCandidates(run: Run, calls: seq<Call>)
    requires CandidatesWithin(run)
    ensures CandidatesWithin(PerformAll(run, calls))
    decreases |calls|
  {
    if calls != [] {
      CallKeepsCandidates(run, calls[0]);
      RunKeepsCandidates(Perform(run, calls[0]).0, calls[1..]);
    }
  }

  lemma CallKeepsCandidates(run: Run, call: Call)
    requires CandidatesWithin(run)
    ensures CandidatesWithin(Perform(run, call).0)
  {
    var (run', r) := Perform(run, call);
    PerformIsAtomic(run, call);
    if r.Ok? {
      OneMoreRecord(run.history, r.value);
      CandidateTakesState(run, call);
    }
  }

  lemma OneMoreRecord(history: seq<Record>, record: Record)
    ensures Candidates(EventsOf(history + [record])) == Candidates(EventsOf(history)) + if record.event == CandidateGenerated then 1 else 0
  {
    var events := EventsOf(history);
    EventsAppend(history, record);
    assert (events + [record.event])[..|events|] == events;
  }

  /** An accepted call puts a candidate in hand only by generating it, and lets go of one only for a repair. */
  lemma CandidateTakesState(run: Run, call: Call)
    requires Perform(run, call).1.Ok? && run.repairs <= MAX_AUTOMATIC_REPAIRS
    ensures var (run', r) := Perform(run, call);
            && run'.repairs <= MAX_AUTOMATIC_REPAIRS
            && run.repairs + (if CandidateInHand(run.state) then 1 else 0) + (if r.value.event == CandidateGenerated then 1 else 0)
               <= run'.repairs + if CandidateInHand(run'.state) then 1 else 0
  {
  }

  /** At most three candidates are generated in any run, whatever is called on it. */
  lemma AtMostThreeCandidates(calls: seq<Call>)
    ensures Candidates(EventsOf(PerformAll(FRESH, calls).history)) <= 3
  {
    assert EventsOf(FRESH.history) == [];
    RunKeepsCandidates(FRESH, calls);
  }

  lemma {:induction false} SinceLastCandidateAppend(events: seq<AgentEvent>, more: seq<AgentEvent>)
    requires CandidateGenerated !in more
    ensures SinceLastCandidate(events + [CandidateGenerated] + more) == more
    decreases |more|
  {
    var all := events + [CandidateGenerated] + more;
    if more == [] {
      assert all[|all| - 1] == CandidateGenerated;
    } else {
      var n := |more| - 1;
      assert all[..|all| - 1] == events + [CandidateGenerated] + more[..n];
      SinceLastCandidateAppend(events, more[..n]);
      assert more[..n] + [more[n]] == more && all[|all| - 1] == more[n];
    }
  }

  function PassedGates(gate: Gate): seq<AgentEvent> {
    match gate
    case AllowedOutright => [SchemaValid, PolicyAllowed, ValidationExecuted, VerificationPassed, TeacherApproved]
    case ApprovedByTeacher => [SchemaValid, ApprovalRequired, TeacherApproved, ValidationExecuted, VerificationPassed, TeacherApproved]
  }

  lemma ReleaseIsGated(gate: Gate)
    ensures Release(gate) == [CandidateGenerated] + PassedGates(gate) && CandidateGenerated !in PassedGates(gate)
  {
  }

  /** Since the candidate that was released was generated, exactly the gates were passed, in order. */
  lemma ReleasedCandidatePassedEveryGate(calls: seq<Call>)
    requires PerformAll(FRESH, calls).state == Completed
    ensures exists gate :: SinceLastCandidate(EventsOf(PerformAll(FRESH, calls).history)) == PassedGates(gate)
  {
    CompletionNeedsEveryGate(calls);
    var events := EventsOf(PerformAll(FRESH, calls).history);
    var rounds, gate :| CompletingEvents(events, rounds, gate);
    var before := PRELUDE + RoundsEvents(rounds);
    ReleaseIsGated(gate);
    assert events == before + [CandidateGenerated] + PassedGates(gate);
    SinceLastCandidateAppend(before, PassedGates(gate));
  }
}
