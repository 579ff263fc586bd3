/** The Agent run state machine of crates/agent-core/src/state_machine.rs. */
module AgentRun {
  import opened Prelude
  import opened Text

  const MAX_AUTOMATIC_REPAIRS := 2
  const U64_MAX := 0xFFFF_FFFF_FFFF_FFFF

  datatype AgentState =
    | Parse | RetrieveCapabilities | Plan | Generate | SchemaValidate | PolicyValidate | ExecuteValidation
    | Verify | Repair | AwaitingExecutionApproval | AwaitingReleaseApproval | Completed | Failed | Cancelled
  {
    predicate IsTerminal() {
      Completed? || Failed? || Cancelled?
    }
  }

  datatype AgentEvent =
    | Parsed | CapabilitiesRetrieved | PlanCreated | CandidateGenerated | SchemaValid | SchemaInvalid
    | PolicyAllowed | ApprovalRequired | ValidationExecuted | VerificationPassed | VerificationFailed
    | RepairReady | TeacherApproved | TeacherRejected | Cancel | FailureRecorded

  datatype Outcome = Advanced | RepairBudgetExhausted | ApprovalHandedOff | RunCancelled | FailedFast
  {
    function Diagnostic(): Option<string> {
      match this
      case RepairBudgetExhausted => Some("LW_AGENT_REPAIR_BUDGET_EXHAUSTED")
      case RunCancelled => Some("LW_AGENT_RUN_CANCELLED")
      case _ => None
    }
  }

  datatype Record = Record(
    sequence: nat,
    from: AgentState,
    event: AgentEvent,
    to: AgentState,
    outcome: Outcome,
    diagnostic: Option<string>)

  datatype AgentError =
    | InvalidRunId
    | InvalidTransition(from: AgentState, event: AgentEvent)
    | SequenceOverflow
    | InvalidFailureDiagnostic(diagnostic: string)

  /** `is_stable_diagnostic`: LW_ and at least one upper-case letter, digit or underscore. */
  predicate IsStableDiagnostic(value: string) {
    |value| > 3 && value[..3] == "LW_" &&
    forall i :: 3 <= i < |value| ==> 'A' <= value[i] <= 'Z' || '0' <= value[i] <= '9' || value[i] == '_'
  }

  datatype Move = Move(state: AgentState, repairs: nat, outcome: Outcome)

  /** `AgentRun::next`: where an event leads, or that it is not legal here. */
  function Next(state: AgentState, repairs: nat, event: AgentEvent): Result<Move, AgentError> {
    if event == Cancel && !state.IsTerminal() then Ok(Move(Cancelled, repairs, RunCancelled))
    else
      match (state, event)
      case (Parse, Parsed) => Ok(Move(RetrieveCapabilities, repairs, Advanced))
      case (RetrieveCapabilities, CapabilitiesRetrieved) => Ok(Move(Plan, repairs, Advanced))
      case (Plan, PlanCreated) => Ok(Move(Generate, repairs, Advanced))
      case (Generate, CandidateGenerated) => Ok(Move(SchemaValidate, repairs, Advanced))
      case (SchemaValidate, SchemaValid) => Ok(Move(PolicyValidate, repairs, Advanced))
      case (SchemaValidate, SchemaInvalid) => Ok(Move(Repair, repairs, Advanced))
      case (Verify, VerificationFailed) => Ok(Move(Repair, repairs, Advanced))
      case (AwaitingExecutionApproval, TeacherRejected) => Ok(Move(Repair, repairs, Advanced))
      case (AwaitingReleaseApproval, TeacherRejected) => Ok(Move(Repair, repairs, Advanced))
      case (PolicyValidate, PolicyAllowed) => Ok(Move(ExecuteValidation, repairs, Advanced))
      case (AwaitingExecutionApproval, TeacherApproved) => Ok(Move(ExecuteValidation, repairs, Advanced))
      case (PolicyValidate, ApprovalRequired) => Ok(Move(AwaitingExecutionApproval, repairs, Advanced))
      case (Verify, VerificationPassed) => Ok(Move(AwaitingReleaseApproval, repairs, Advanced))
      case (ExecuteValidation, ValidationExecuted) => Ok(Move(Verify, repairs, Advanced))
      case (Repair, RepairReady) =>
        if repairs < MAX_AUTOMATIC_REPAIRS then Ok(Move(Generate, repairs + 1, Advanced))
        else Ok(Move(Failed, repairs, RepairBudgetExhausted))
      case (AwaitingReleaseApproval, TeacherApproved) => Ok(Move(Completed, repairs, ApprovalHandedOff))
      case _ => Err(InvalidTransition(state, event))
  }

  // ---- Runs as values ---------------------------------------------------------------------------

  datatype Run = Run(state: AgentState, repairs: nat, history: seq<Record>)

  const FRESH := Run(Parse, 0, [])

  /** A call on the run: `apply(event)` or `apply_failure(diagnostic)`. */
  datatype Call = Apply(event: AgentEvent) | Fail(diagnostic: string)

  function Commit(run: Run, event: AgentEvent, move: Move, diagnostic: Option<string>): (Run, Result<Record, AgentError>) {
    if |run.history| + 1 > U64_MAX then (run, Err(SequenceOverflow))
    else
      var record := Record(|run.history| + 1, run.state, event, move.state, move.outcome, diagnostic);
      (Run(move.state, move.repairs, run.history + [record]), Ok(record))
  }

  function Perform(run: Run, call: Call): (Run, Result<Record, AgentError>) {
    match call
    case Apply(event) =>
      (match Next(run.state, run.repairs, event)
       case Err(e) => (run, Err(e))
       case Ok(move) => Commit(run, event, move, move.outcome.Diagnostic()))
    case Fail(diagnostic) =>
      if !IsStableDiagnostic(diagnostic) then (run, Err(InvalidFailureDiagnostic(diagnostic)))
      else if run.state.IsTerminal() then (run, Err(InvalidTransition(run.state, FailureRecorded)))
      else Commit(run, FailureRecorded, Move(Failed, run.repairs, FailedFast), Some(diagnostic))
  }

  function PerformAll(run: Run, calls: seq<Call>): Run
    decreases |calls|
  {
    if calls == [] then run else PerformAll(Perform(run, calls[0]).0, calls[1..])
  }

  // ---- The object -------------------------------------------------------------------------------

  class Agent {
    const runId: string
    var state: AgentState
    var repairs: nat
    var history: seq<Record>

    constructor (runId: string)
      requires !IsBlank(runId)
      ensures this.runId == runId && Value() == FRESH
    {
      this.runId := runId;
      state, repairs, history := Parse, 0, [];
    }

    function Value(): Run
      reads this
    {
      Run(state, repairs, history)
    }

    method CommitTransition(event: AgentEvent, nextState: AgentState, nextRepairs: nat, outcome: Outcome, diagnostic: Option<string>)
      returns (r: Result<Record, AgentError>)
      modifies this
      ensures (Value(), r) == Commit(old(Value()), event, Move(nextState, nextRepairs, outcome), diagnostic)
    {
      if |history| + 1 > U64_MAX {
        return Err(SequenceOverflow);
      }
      var record := Record(|history| + 1, state, event, nextState, outcome, diagnostic);
      history := history + [record];
      state := nextState;
      repairs := nextRepairs;
      return Ok(record);
    }

    method ApplyEvent(event: AgentEvent) returns (r: Result<Record, AgentError>)
      modifies this
      ensures (Value(), r) == Perform(old(Value()), Apply(event))
    {
      var next := Next(state, repairs, event);
      if next.Err? {
        return Err(next.error);
      }
      r := CommitTransition(event, next.value.state, next.value.repairs, next.value.outcome, next.value.outcome.Diagnostic());
    }

    method ApplyFailure(diagnostic: string) returns (r: Result<Record, AgentError>)
      modifies this
      ensures (Value(), r) == Perform(old(Value()), Fail(diagnostic))
    {
      if !IsStableDiagnostic(diagnostic) {
        return Err(InvalidFailureDiagnostic(diagnostic));
      }
      if state.IsTerminal() {
        return Err(InvalidTransition(state, FailureRecorded));
      }
      r := CommitTransition(FailureRecorded, Failed, repairs, FailedFast, Some(diagnostic));
    }
  }

  /** `AgentRun::new`: a blank identifier is refused. */
  method NewAgent(runId: string) returns (r: Result<Agent, AgentError>)
    ensures r == Err(InvalidRunId) <==> IsBlank(runId)
    ensures r.Ok? <==> !IsBlank(runId)
    ensures r.Ok? ==> fresh(r.value) && r.value.runId == runId && r.value.Value() == FRESH
  {
    if IsBlank(runId) {
      return Err(InvalidRunId);
    }
    var agent := new Agent(runId);
    return Ok(agent);
  }
}
