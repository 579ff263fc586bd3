/**
  Single-attempt dispatch of crates/agent-core/src/tool.rs. The race between cancellation, the bound
  timeout and the implementation runs over a schedule of wakes, and many dispatches may interleave.
*/
module ToolDispatch {
  import opened Prelude
  import opened ToolRegistry

  datatype Context = Context(runId: string, actorId: string, cancelled: bool)

  datatype Output = Output(schemaVersion: string, payload: string)

  // ---- The race ---------------------------------------------------------------------------------

  /** What the implementation's future answers when it is polled. */
  datatype Answer = Pending | Ready(result: Result<Output, FailureCode>)

  /** One wake of a dispatch: whether cancellation is set, how much time has passed, and the answer to a poll. */
  datatype Wake = Wake(cancelled: bool, elapsedMillis: nat, answer: Answer)

  /** How a race ends. */
  datatype Ending = CancellationWon | TimedOut | Completed(result: Result<Output, FailureCode>)

  /** The biased select at one wake: cancellation first, then the implementation, then the timer. */
  function Settle(timeoutMillis: nat, wake: Wake): Option<Ending> {
    if wake.cancelled then Some(CancellationWon)
    else if wake.answer.Ready? then Some(Completed(wake.answer.result))
    else if wake.elapsedMillis >= timeoutMillis then Some(TimedOut)
    else None
  }

  /** Over a whole schedule: the ending, if there is one yet. */
  function Race(timeoutMillis: nat, wakes: seq<Wake>): Option<Ending> {
    if wakes == [] then None
    else if Settle(timeoutMillis, wakes[0]).Some? then Settle(timeoutMillis, wakes[0])
    else Race(timeoutMillis, wakes[1..])
  }

  /** How often the implementation's future is polled. */
  function Polls(timeoutMillis: nat, wakes: seq<Wake>): nat {
    if wakes == [] || wakes[0].cancelled then 0
    else if Settle(timeoutMillis, wakes[0]).Some? then 1
    else 1 + Polls(timeoutMillis, wakes[1..])
  }

  /** The select of `execute_once`, wake by wake. */
  method Select(timeoutMillis: nat, wakes: seq<Wake>) returns (ending: Option<Ending>, polls: nat)
    ensures ending == Race(timeoutMillis, wakes) && polls == Polls(timeoutMillis, wakes)
  {
    polls := 0;
    for i := 0 to |wakes|
      invariant Race(timeoutMillis, wakes) == Race(timeoutMillis, wakes[i..])
      invariant Polls(timeoutMillis, wakes) == polls + Polls(timeoutMillis, wakes[i..])
    {
      assert wakes[i..][1..] == wakes[i + 1..];
      if wakes[i].cancelled {
        return Some(CancellationWon), polls;
      }
      polls := polls + 1;
      match wakes[i].answer {
        case Ready(result) =>
          return Some(Completed(result)), polls;
        case Pending =>
          if timeoutMillis <= wakes[i].elapsedMillis {
            return Some(TimedOut), polls;
          }
      }
    }
    assert wakes[|wakes|..] == [];
    return None, polls;
  }

  /** The first wake at which something happens. */
  predicate Decides(timeoutMillis: nat, wakes: seq<Wake>, k: nat) {
    && k < |wakes| && Settle(timeoutMillis, wakes[k]).Some?
    && forall i :: 0 <= i < k ==> Settle(timeoutMillis, wakes[i]).None?
  }

  lemma {:induction false} RaceSkips(timeoutMillis: nat, wakes: seq<Wake>, k: nat)
    requires k <= |wakes| && forall i :: 0 <= i < k ==> Settle(timeoutMillis, wakes[i]).None?
    ensures Race(timeoutMillis, wakes) == Race(timeoutMillis, wakes[k..])
    ensures Polls(timeoutMillis, wakes) == k + Polls(timeoutMillis, wakes[k..])
    decreases k
  {
    if k == 0 {
      assert wakes[0..] == wakes;
    } else {
      assert forall i :: 0 <= i < k - 1 ==> wakes[1..][i] == wakes[i + 1];
      RaceSkips(timeoutMillis, wakes[1..], k - 1);
      assert wakes[1..][k - 1..] == wakes[k..];
    }
  }

  /** The first deciding wake fixes the ending; the implementation is polled at every wake up to it, and at it unless it is a cancellation. */
  lemma FirstDecidingWake(timeoutMillis: nat, wakes: seq<Wake>, k: nat)
    requires Decides(timeoutMillis, wakes, k)
    ensures Race(timeoutMillis, wakes) == Settle(timeoutMillis, wakes[k])
    ensures Polls(timeoutMillis, wakes) == if wakes[k].cancelled then k else k + 1
  {
    RaceSkips(timeoutMillis, wakes, k);
  }

  lemma {:induction false} FindDeciding(timeoutMillis: nat, wakes: seq<Wake>) returns (k: nat)
    ensures Race(timeoutMillis, wakes).Some? ==> Decides(timeoutMillis, wakes, k)
    ensures Race(timeoutMillis, wakes).None? ==>
              Polls(timeoutMillis, wakes) == |wakes| && forall i :: 0 <= i < |wakes| ==> Settle(timeoutMillis, wakes[i]).None?
  {
    k := 0;
    if wakes != [] && Settle(timeoutMillis, wakes[0]).None? {
      var j := FindDeciding(timeoutMillis, wakes[1..]);
      k := j + 1;
      assert forall i :: 0 < i < |wakes| ==> wakes[i] == wakes[1..][i - 1];
    }
  }

  /** Once there is an ending, no later wake changes it or polls again. */
  lemma EndingIsFinal(timeoutMillis: nat, wakes: seq<Wake>, more: seq<Wake>)
    requires Race(timeoutMillis, wakes).Some?
    ensures Race(timeoutMillis, wakes + more) == Race(timeoutMillis, wakes)
    ensures Polls(timeoutMillis, wakes + more) == Polls(timeoutMillis, wakes)
  {
    var k := FindDeciding(timeoutMillis, wakes);
    FirstDecidingWake(timeoutMillis, wakes, k);
    FirstDecidingWake(timeoutMillis, wakes + more, k);
  }

  /** The wakes at which something happens. */
  function Effective(timeoutMillis: nat, wakes: seq<Wake>): seq<Wake> {
    if wakes == [] then []
    else (if Settle(timeoutMillis, wakes[0]).Some? then [wakes[0]] else []) + Effective(timeoutMillis, wakes[1..])
  }

  /** Spurious wakes, in any number and place, do not influence the ending. */
  lemma {:induction false} SpuriousWakesDoNotMatter(timeoutMillis: nat, wakes: seq<Wake>)
    ensures Race(timeoutMillis, Effective(timeoutMillis, wakes)) == Race(timeoutMillis, wakes)
  {
    if wakes != [] {
      SpuriousWakesDoNotMatter(timeoutMillis, wakes[1..]);
      var rest := Effective(timeoutMillis, wakes[1..]);
      if Settle(timeoutMillis, wakes[0]).Some? {
        assert Effective(timeoutMillis, wakes)[0] == wakes[0];
      } else {
        assert Effective(timeoutMillis, wakes) == rest;
      }
    }
  }

  /** The future is never polled at or after a wake that sees cancellation. */
  lemma NoPollOnceCancelled(timeoutMillis: nat, wakes: seq<Wake>, c: nat)
    requires c < |wakes| && wakes[c].cancelled
    ensures Polls(timeoutMillis, wakes) <= c
    ensures Race(timeoutMillis, wakes).Some?
  {
    var k := FindDeciding(timeoutMillis, wakes);
    assert Settle(timeoutMillis, wakes[c]).Some?;
    FirstDecidingWake(timeoutMillis, wakes, k);
  }

  /** ... nor after the first wake at or past the deadline, where a result that is ready still counts. */
  lemma NoPollAfterDeadline(timeoutMillis: nat, wakes: seq<Wake>, d: nat)
    requires d < |wakes| && timeoutMillis <= wakes[d].elapsedMillis
    ensures Polls(timeoutMillis, wakes) <= d + 1
    ensures Race(timeoutMillis, wakes).Some?
  {
    var k := FindDeciding(timeoutMillis, wakes);
    assert Settle(timeoutMillis, wakes[d]).Some?;
    FirstDecidingWake(timeoutMillis, wakes, k);
  }

  /** Something has happened at no wake before k. */
  predicate Quiet(timeoutMillis: nat, wakes: seq<Wake>, k: nat)
    requires k <= |wakes|
  {
    forall i :: 0 <= i < k ==> !wakes[i].cancelled && wakes[i].answer.Pending? && wakes[i].elapsedMillis < timeoutMillis
  }

  /** The implementation answers first: ready before cancellation is seen, and by the first wake past the deadline. */
  predicate Completes(timeoutMillis: nat, wakes: seq<Wake>, result: Result<Output, FailureCode>) {
    exists k :: 0 <= k < |wakes| && Quiet(timeoutMillis, wakes, k) && !wakes[k].cancelled && wakes[k].answer == Ready(result)
  }

  /** The deadline passes first: nothing is ready at the first wake past it, nor before. */
  predicate Expires(timeoutMillis: nat, wakes: seq<Wake>) {
    exists k :: 0 <= k < |wakes| && timeoutMillis <= wakes[k].elapsedMillis && forall i :: 0 <= i <= k ==> !wakes[i].cancelled && wakes[i].answer.Pending?
  }

  /** Cancellation is seen first, even at a wake at which a result is ready. */
  predicate IsCancelled(timeoutMillis: nat, wakes: seq<Wake>) {
    exists k :: 0 <= k < |wakes| && Quiet(timeoutMillis, wakes, k) && wakes[k].cancelled
  }

  /** Which contender wins, over every schedule. */
  lemma RaceExactly(timeoutMillis: nat, wakes: seq<Wake>, result: Result<Output, FailureCode>)
    ensures Race(timeoutMillis, wakes) == Some(Completed(result)) <==> Completes(timeoutMillis, wakes, result)
    ensures Race(timeoutMillis, wakes) == Some(TimedOut) <==> Expires(timeoutMillis, wakes)
    ensures Race(timeoutMillis, wakes) == Some(CancellationWon) <==> IsCancelled(timeoutMillis, wakes)
    ensures Race(timeoutMillis, wakes) == None <==> Quiet(timeoutMillis, wakes, |wakes|)
  {
    var k := FindDeciding(timeoutMillis, wakes);
    if Race(timeoutMillis, wakes).Some? {
      FirstDecidingWake(timeoutMillis, wakes, k);
      assert Quiet(timeoutMillis, wakes, k);
    }
  }

  // ---- One dispatch -----------------------------------------------------------------------------

  datatype AuditOutcome = Succeeded | Rejected | Failed | Cancelled

  datatype Audit = Audit(
    runId: string, actorId: string, toolName: string, toolVersion: Option<string>, risk: Option<Risk>,
    outcome: AuditOutcome, diagnostic: Option<string>, attempt: nat, timeoutMillis: Option<nat>)

  datatype Execution = Execution(output: Output, audit: Audit)
  datatype DispatchFailure = DispatchFailure(error: ToolError, audit: Audit)

  /** One call of `ToolRegistry::execute`. */
  datatype Call = Call(name: string, context: Context, input: string)

  function Failure(e: ToolError, context: Context, toolName: string, tool: Option<Registered>, outcome: AuditOutcome): DispatchFailure {
    DispatchFailure(e, Audit(
      context.runId, context.actorId, toolName,
      if tool.Some? then Some(tool.value.descriptor.version) else None,
      if tool.Some? then Some(tool.value.descriptor.risk) else None,
      outcome, Some(DiagnosticCode(e)), 1,
      if tool.Some? then Some(tool.value.timeoutMillis) else None))
  }

  function BoundFailure(e: ToolError, context: Context, tool: Registered, outcome: AuditOutcome): DispatchFailure {
    Failure(e, context, tool.descriptor.name, Some(tool), outcome)
  }

  /** The lookup and `validate_dispatch`. */
  function Admit(schemas: Schemas, registry: Registry, call: Call): Result<Registered, DispatchFailure> {
    if call.name !in registry then Err(Failure(UnboundTool(call.name), call.context, call.name, None, Rejected))
    else
      var tool := registry[call.name];
      if call.context.cancelled then Err(BoundFailure(DispatchCancelled(call.name), call.context, tool, Cancelled))
      else if tool.descriptor.risk.RequiresApproval() then Err(BoundFailure(ApprovalRequired(call.name), call.context, tool, Rejected))
      else if !schemas.admits(tool.descriptor.inputSchema, call.input) then Err(BoundFailure(InputRejected(call.name), call.context, tool, Rejected))
      else Ok(tool)
  }

  function ValidateOutput(schemas: Schemas, call: Call, output: Output, tool: Registered): Result<Execution, DispatchFailure> {
    if output.schemaVersion != tool.descriptor.outputSchemaVersion then
      Err(BoundFailure(OutputVersionMismatch(call.name, tool.descriptor.outputSchemaVersion, output.schemaVersion), call.context, tool, Failed))
    else if !schemas.admits(tool.descriptor.outputSchema, output.payload) then
      Err(BoundFailure(OutputRejected(call.name), call.context, tool, Failed))
    else
      Ok(Execution(output, Audit(
        call.context.runId, call.context.actorId, tool.descriptor.name, Some(tool.descriptor.version), Some(tool.descriptor.risk),
        Succeeded, None, 1, Some(tool.timeoutMillis))))
  }

  /** What the caller gets once the race has ended. */
  function Conclude(schemas: Schemas, call: Call, tool: Registered, ending: Ending): Result<Execution, DispatchFailure> {
    match ending
    case CancellationWon => Err(BoundFailure(DispatchCancelled(call.name), call.context, tool, Cancelled))
    case TimedOut => Err(BoundFailure(DispatchTimedOut(call.name, tool.timeoutMillis), call.context, tool, Failed))
    case Completed(Err(code)) => Err(BoundFailure(ExecutionFailed(call.name, code), call.context, tool, Failed))
    case Completed(Ok(output)) => ValidateOutput(schemas, call, output, tool)
  }

  /** The answer, None while the race is on, and how often the implementation was polled. */
  function Dispatch(schemas: Schemas, registry: Registry, call: Call, wakes: seq<Wake>): (Option<Result<Execution, DispatchFailure>>, nat) {
    match Admit(schemas, registry, call)
    case Err(failure) => (Some(Err(failure)), 0)
    case Ok(tool) =>
      var ending, polls := Race(tool.timeoutMillis, wakes), Polls(tool.timeoutMillis, wakes);
      (if ending.Some? then Some(Conclude(schemas, call, tool, ending.value)) else None, polls)
  }

  /** `ToolRegistry::execute` up to the last wake it has had. */
  method Execute(schemas: Schemas, registry: Registry, call: Call, wakes: seq<Wake>) returns (r: Option<Result<Execution, DispatchFailure>>, polls: nat)
    ensures (r, polls) == Dispatch(schemas, registry, call, wakes)
  {
    if call.name !in registry {
      return Some(Err(Failure(UnboundTool(call.name), call.context, call.name, None, Rejected))), 0;
    }
    var tool := registry[call.name];
    if call.context.cancelled {
      return Some(Err(BoundFailure(DispatchCancelled(call.name), call.context, tool, Cancelled))), 0;
    }
    if tool.descriptor.risk != Low {
      return Some(Err(BoundFailure(ApprovalRequired(call.name), call.context, tool, Rejected))), 0;
    }
    if !schemas.admits(tool.descriptor.inputSchema, call.input) {
      return Some(Err(BoundFailure(InputRejected(call.name), call.context, tool, Rejected))), 0;
    }
    var ending;
    ending, polls := Select(tool.timeoutMillis, wakes);
    r := if ending.None? then None else Some(Conclude(schemas, call, tool, ending.value));
  }

  /** A call that may reach an implementation at all. */
  predicate Dispatchable(schemas: Schemas, registry: Registry, call: Call) {
    && call.name in registry && !call.context.cancelled && registry[call.name].descriptor.risk.Low?
    && schemas.admits(registry[call.name].descriptor.inputSchema, call.input)
  }

  /** Success exactly when a dispatchable call's implementation answers first, with an output of the declared version and schema. */
  lemma SucceedsExactly(schemas: Schemas, registry: Registry, call: Call, wakes: seq<Wake>, output: Output)
    ensures var r := Dispatch(schemas, registry, call, wakes).0;
            (r.Some? && r.value.Ok? && r.value.value.output == output) <==>
            && Dispatchable(schemas, registry, call) && Completes(registry[call.name].timeoutMillis, wakes, Ok(output))
            && output.schemaVersion == registry[call.name].descriptor.outputSchemaVersion
            && schemas.admits(registry[call.name].descriptor.outputSchema, output.payload)
  {
    if Dispatchable(schemas, registry, call) {
      RaceExactly(registry[call.name].timeoutMillis, wakes, Ok(output));
      ConcludesWith(schemas, call, registry[call.name], Race(registry[call.name].timeoutMillis, wakes), output);
    }
  }

  lemma ConcludesWith(schemas: Schemas, call: Call, tool: Registered, ending: Option<Ending>, output: Output)
    ensures (ending.Some? && Conclude(schemas, call, tool, ending.value).Ok? && Conclude(schemas, call, tool, ending.value).value.output == output) <==>
            && ending == Some(Completed(Ok(output)))
            && output.schemaVersion == tool.descriptor.outputSchemaVersion && schemas.admits(tool.descriptor.outputSchema, output.payload)
  {
  }

  /** The error a dispatch has failed with, if it has. */
  function ErrorOf(r: Option<Result<Execution, DispatchFailure>>): Option<ToolError> {
    if r.Some? && r.value.Err? then Some(r.value.error.error) else None
  }

  /** Over every schedule, exactly when a dispatch is cancelled, times out, fails in the implementation, or is still on. */
  lemma FailureReason(schemas: Schemas, registry: Registry, call: Call, wakes: seq<Wake>, code: FailureCode)
    requires call.name in registry
    ensures var r, timeoutMillis := Dispatch(schemas, registry, call, wakes).0, registry[call.name].timeoutMillis;
            var on := Dispatchable(schemas, registry, call);
            && (ErrorOf(r) == Some(DispatchCancelled(call.name)) <==> call.context.cancelled || (on && IsCancelled(timeoutMillis, wakes)))
            && (ErrorOf(r) == Some(DispatchTimedOut(call.name, timeoutMillis)) <==> on && Expires(timeoutMillis, wakes))
            && (ErrorOf(r) == Some(ExecutionFailed(call.name, code)) <==> on && Completes(timeoutMillis, wakes, Err(code)))
            && (r == None <==> on && Quiet(timeoutMillis, wakes, |wakes|))
  {
    if Dispatchable(schemas, registry, call) {
      var tool := registry[call.name];
      RaceExactly(tool.timeoutMillis, wakes, Err(code));
      FailsWith(schemas, call, tool, Race(tool.timeoutMillis, wakes), code);
    }
  }

  lemma FailsWith(schemas: Schemas, call: Call, tool: Registered, ending: Option<Ending>, code: FailureCode)
    ensures var r := if ending.Some? then Some(Conclude(schemas, call, tool, ending.value)) else None;
            && (ErrorOf(r) == Some(DispatchCancelled(call.name)) <==> ending == Some(CancellationWon))
            && (ErrorOf(r) == Some(DispatchTimedOut(call.name, tool.timeoutMillis)) <==> ending == Some(TimedOut))
            && (ErrorOf(r) == Some(ExecutionFailed(call.name, code)) <==> ending == Some(Completed(Err(code))))
  {
  }

  function AuditOf(r: Result<Execution, DispatchFailure>): Audit {
    if r.Ok? then r.value.audit else r.error.audit
  }

  /** What a registry built from these bindings holds. */
  ghost predicate BuiltFrom(schemas: Schemas, implementations: seq<Implementation>, bindings: seq<Binding>, registry: Registry) {
    && registry.Keys == Names(bindings, |bindings|)
    && forall j :: 0 <= j < |bindings| ==> Serves(schemas, implementations, bindings[j], registry[bindings[j].name])
  }

  lemma BoundTool(schemas: Schemas, implementations: seq<Implementation>, bindings: seq<Binding>, registry: Registry, name: string) returns (j: nat)
    requires BuiltFrom(schemas, implementations, bindings, registry) && name in registry
    ensures j < |bindings| && bindings[j].name == name && Serves(schemas, implementations, bindings[j], registry[name])
  {
    j :| 0 <= j < |bindings| && bindings[j].name == name;
  }

  /**
    Every finished dispatch leaves one audit that names the call truthfully: the caller, the tool by
    the name it was called with, the identity fixed by its binding, and an outcome that agrees with
    the result and with whether the implementation was polled.
  */
  lemma AuditIsTruthful(schemas: Schemas, implementations: seq<Implementation>, bindings: seq<Binding>, registry: Registry, call: Call, wakes: seq<Wake>)
    requires BuiltFrom(schemas, implementations, bindings, registry) && Dispatch(schemas, registry, call, wakes).0.Some?
    ensures var (r, polls) := Dispatch(schemas, registry, call, wakes);
            var audit := AuditOf(r.value);
            && audit.runId == call.context.runId && audit.actorId == call.context.actorId && audit.toolName == call.name && audit.attempt == 1
            && (call.name !in registry ==> audit.toolVersion == None && audit.risk == None && audit.timeoutMillis == None)
            && (forall j :: 0 <= j < |bindings| && bindings[j].name == call.name ==>
                  audit.toolVersion == Some(bindings[j].version) && audit.risk == Some(bindings[j].risk)
                  && audit.timeoutMillis == Some(bindings[j].timeoutMillis))
            && (audit.outcome == Succeeded <==> r.value.Ok?)
            && (audit.outcome == Rejected ==> polls == 0)
            && (audit.outcome == Succeeded || audit.outcome == Failed ==> polls > 0)
            && audit.diagnostic == (if r.value.Ok? then None else Some(DiagnosticCode(r.value.error.error)))
  {
    if call.name in registry {
      var j := BoundTool(schemas, implementations, bindings, registry, call.name);
    }
  }

  // ---- Many dispatches at once ------------------------------------------------------------------

  /** A new call, or a wake of the call that arrived as number `id`. */
  datatype Event = Arrive(call: Call) | Wakeup(id: nat, wake: Wake)

  datatype Flight = Waiting(call: Call, tool: Registered) | Settled(result: Result<Execution, DispatchFailure>)

  /** One poll of an implementation's future: all that a dispatch can do to the outside. */
  datatype Poll = Poll(id: nat, implementation: Implementation, input: string)

  datatype World = World(flights: seq<Flight>, polls: seq<Poll>)

  function Open(schemas: Schemas, registry: Registry, call: Call): Flight {
    match Admit(schemas, registry, call)
    case Err(failure) => Settled(Err(failure))
    case Ok(tool) => Waiting(call, tool)
  }

  /** One event. A settled dispatch is not polled again. */
  function Advance(schemas: Schemas, registry: Registry, world: World, event: Event): World {
    match event
    case Arrive(call) => world.(flights := world.flights + [Open(schemas, registry, call)])
    case Wakeup(id, wake) =>
      if id >= |world.flights| || world.flights[id].Settled? then world
      else
        var Waiting(call, tool) := world.flights[id];
        var ending := Settle(tool.timeoutMillis, wake);
        World(
          if ending.None? then world.flights else world.flights[id := Settled(Conclude(schemas, call, tool, ending.value))],
          if wake.cancelled then world.polls else world.polls + [Poll(id, tool.implementation, call.input)])
  }

  function After(schemas: Schemas, registry: Registry, events: seq<Event>): World {
    if events == [] then World([], []) else Advance(schemas, registry, After(schemas, registry, events[..|events| - 1]), events[|events| - 1])
  }

  function Arrivals(events: seq<Event>): seq<Call> {
    if events == [] then []
    else
      var before, last := Arrivals(events[..|events| - 1]), events[|events| - 1];
      if last.Arrive? then before + [last.call] else before
  }

  /** The wakes that one call has had since it arrived. */
  function WakesOf(events: seq<Event>, id: nat): seq<Wake> {
    if events == [] then []
    else
      var init, last := events[..|events| - 1], events[|events| - 1];
      if last.Wakeup? && last.id == id < |Arrivals(init)| then WakesOf(init, id) + [last.wake] else WakesOf(init, id)
  }

  function PollsOf(polls: seq<Poll>, id: nat): nat {
    if polls == [] then 0 else PollsOf(polls[..|polls| - 1], id) + if polls[|polls| - 1].id == id then 1 else 0
  }

  /** A flight is where its own dispatch would be, had it been alone. */
  ghost predicate Tracks(schemas: Schemas, registry: Registry, flight: Flight, polls: nat, call: Call, wakes: seq<Wake>) {
    && Dispatch(schemas, registry, call, wakes) == (if flight.Settled? then Some(flight.result) else None, polls)
    && (flight.Waiting? ==> flight.call == call && Admit(schemas, registry, call) == Ok(flight.tool))
  }

  lemma {:induction false} OneMoreWake(timeoutMillis: nat, wakes: seq<Wake>, wake: Wake)
    ensures Race(timeoutMillis, wakes + [wake]) == if Race(timeoutMillis, wakes).Some? then Race(timeoutMillis, wakes) else Settle(timeoutMillis, wake)
    ensures Polls(timeoutMillis, wakes + [wake]) ==
            Polls(timeoutMillis, wakes) + if Race(timeoutMillis, wakes).Some? || wake.cancelled then 0 else 1
    decreases |wakes|
  {
    if wakes != [] {
      OneMoreWake(timeoutMillis, wakes[1..], wake);
      assert (wakes + [wake])[1..] == wakes[1..] + [wake];
    }
  }

  lemma WakeTracks(schemas: Schemas, registry: Registry, flight: Flight, polls: nat, call: Call, wakes: seq<Wake>, wake: Wake)
    requires Tracks(schemas, registry, flight, polls, call, wakes)
    ensures flight.Settled? ==> Tracks(schemas, registry, flight, polls, call, wakes + [wake])
    ensures flight.Waiting? ==>
              var ending := Settle(flight.tool.timeoutMillis, wake);
              Tracks(schemas, registry, if ending.None? then flight else Settled(Conclude(schemas, call, flight.tool, ending.value)),
                     polls + (if wake.cancelled then 0 else 1), call, wakes + [wake])
  {
    if Admit(schemas, registry, call).Ok? {
      OneMoreWake(Admit(schemas, registry, call).value.timeoutMillis, wakes, wake);
    }
  }

  lemma {:induction false} NobodyYet(schemas: Schemas, registry: Registry, events: seq<Event>, id: nat)
    ensures |After(schemas, registry, events).flights| == |Arrivals(events)|
    ensures id >= |Arrivals(events)| ==> WakesOf(events, id) == [] && PollsOf(After(schemas, registry, events).polls, id) == 0
    decreases |events|
  {
    if events != [] {
      NobodyYet(schemas, registry, events[..|events| - 1], id);
    }
  }

  /**
    However the events of many dispatches interleave, each call gets the answer, and its
    implementation the number of polls, that it would have had alone with its own wakes.
  */
  lemma {:induction false} InterleavingIsInvisible(schemas: Schemas, registry: Registry, events: seq<Event>, id: nat)
    requires id < |Arrivals(events)|
    ensures |After(schemas, registry, events).flights| == |Arrivals(events)|
    ensures var world := After(schemas, registry, events);
            Tracks(schemas, registry, world.flights[id], PollsOf(world.polls, id), Arrivals(events)[id], WakesOf(events, id))
    decreases |events|
  {
    var init, last := events[..|events| - 1], events[|events| - 1];
    var before := After(schemas, registry, init);
    NobodyYet(schemas, registry, init, id);
    NobodyYet(schemas, registry, events, id);
    if id < |Arrivals(init)| {
      InterleavingIsInvisible(schemas, registry, init, id);
      EventTracks(schemas, registry, before, last, id, Arrivals(init)[id], WakesOf(init, id));
    }
  }

  lemma EventTracks(schemas: Schemas, registry: Registry, world: World, event: Event, id: nat, call: Call, wakes: seq<Wake>)
    requires id < |world.flights| && Tracks(schemas, registry, world.flights[id], PollsOf(world.polls, id), call, wakes)
    ensures var after := Advance(schemas, registry, world, event);
            && id < |after.flights|
            && Tracks(schemas, registry, after.flights[id], PollsOf(after.polls, id), call,
                      if event.Wakeup? && event.id == id then wakes + [event.wake] else wakes)
  {
    if event.Wakeup? && event.id == id {
      OwnWake(schemas, registry, world, id, event.wake);
      WakeTracks(schemas, registry, world.flights[id], PollsOf(world.polls, id), call, wakes, event.wake);
    } else {
      OtherEvent(schemas, registry, world, event, id);
    }
  }

  lemma OwnWake(schemas: Schemas, registry: Registry, world: World, id: nat, wake: Wake)
    requires id < |world.flights|
    ensures var flight, after := world.flights[id], Advance(schemas, registry, world, Wakeup(id, wake));
            && id < |after.flights|
            && if flight.Settled? then after == world
               else
                 && PollsOf(after.polls, id) == PollsOf(world.polls, id) + (if wake.cancelled then 0 else 1)
                 && (var ending := Settle(flight.tool.timeoutMillis, wake);
                     after.flights[id] == if ending.None? then flight else Settled(Conclude(schemas, flight.call, flight.tool, ending.value)))
  {
    if world.flights[id].Waiting? {
      var Waiting(call, tool) := world.flights[id];
      OneMorePoll(world.polls, Poll(id, tool.implementation, call.input), id);
    }
  }

  lemma OtherEvent(schemas: Schemas, registry: Registry, world: World, event: Event, id: nat)
    requires id < |world.flights| && (event.Wakeup? ==> event.id != id)
    ensures var after := Advance(schemas, registry, world, event);
            id < |after.flights| && after.flights[id] == world.flights[id] && PollsOf(after.polls, id) == PollsOf(world.polls, id)
  {
    if event.Wakeup? && event.id < |world.flights| && world.flights[event.id].Waiting? {
      var Waiting(call, tool) := world.flights[event.id];
      OneMorePoll(world.polls, Poll(event.id, tool.implementation, call.input), id);
    }
  }

  lemma OneMorePoll(polls: seq<Poll>, poll: Poll, id: nat)
    ensures PollsOf(polls + [poll], id) == PollsOf(polls, id) + if poll.id == id then 1 else 0
  {
    assert (polls + [poll])[..|polls|] == polls;
  }

  /** The polls that start an implementation: the first of each call. */
  function Starts(polls: seq<Poll>): seq<Poll> {
    if polls == [] then []
    else
      var init, last := polls[..|polls| - 1], polls[|polls| - 1];
      if PollsOf(init, last.id) == 0 then Starts(init) + [last] else Starts(init)
  }

  lemma {:induction false} OneStartEach(polls: seq<Poll>, id: nat)
    ensures PollsOf(Starts(polls), id) == if PollsOf(polls, id) > 0 then 1 else 0
    decreases |polls|
  {
    if polls != [] {
      var init, last := polls[..|polls| - 1], polls[|polls| - 1];
      OneStartEach(init, id);
      if PollsOf(init, last.id) == 0 {
        assert Starts(polls)[..|Starts(polls)| - 1] == Starts(init);
      }
    }
  }

  /**
    In any interleaving a call starts its implementation once if it is bound, uncancelled, low-risk
    and of an admitted input and its first wake does not see cancellation, and otherwise never.
  */
  lemma StartsExactly(schemas: Schemas, registry: Registry, events: seq<Event>, id: nat)
    ensures PollsOf(Starts(After(schemas, registry, events).polls), id) ==
            if id < |Arrivals(events)| && Dispatchable(schemas, registry, Arrivals(events)[id])
               && WakesOf(events, id) != [] && !WakesOf(events, id)[0].cancelled then 1 else 0
  {
    OneStartEach(After(schemas, registry, events).polls, id);
    if id < |Arrivals(events)| {
      InterleavingIsInvisible(schemas, registry, events, id);
    } else {
      NobodyYet(schemas, registry, events, id);
    }
  }

  /** A poll of the implementation bound to its call's name, with its call's input, on a dispatchable call. */
  ghost predicate Faithful(schemas: Schemas, registry: Registry, calls: seq<Call>, poll: Poll) {
    && poll.id < |calls| && Dispatchable(schemas, registry, calls[poll.id])
    && poll.implementation == registry[calls[poll.id].name].implementation && poll.input == calls[poll.id].input
  }

  lemma {:induction false} PollsAreFaithful(schemas: Schemas, registry: Registry, events: seq<Event>)
    ensures forall poll :: poll in After(schemas, registry, events).polls ==> Faithful(schemas, registry, Arrivals(events), poll)
    decreases |events|
  {
    if events != [] {
      var init, last := events[..|events| - 1], events[|events| - 1];
      var before := After(schemas, registry, init);
      PollsAreFaithful(schemas, registry, init);
      forall poll | poll in After(schemas, registry, events).polls ensures Faithful(schemas, registry, Arrivals(events), poll) {
        if poll !in before.polls {
          NobodyYet(schemas, registry, init, last.id);
          InterleavingIsInvisible(schemas, registry, init, last.id);
        } else {
          assert Faithful(schemas, registry, Arrivals(init), poll);
        }
      }
    }
  }

  /**
    On a registry built from its bindings, whatever calls arrive and however they interleave: every
    poll is of an installed implementation that fits a low-risk binding of the called name, with the
    input of an uncancelled call that its input schema admits.
  */
  lemma EveryPollIsAuthorised(schemas: Schemas, implementations: seq<Implementation>, bindings: seq<Binding>, registry: Registry,
                              events: seq<Event>, poll: Poll)
    requires BuiltFrom(schemas, implementations, bindings, registry) && poll in After(schemas, registry, events).polls
    ensures poll.id < |Arrivals(events)| && poll.implementation in implementations
    ensures var call, d := Arrivals(events)[poll.id], poll.implementation.descriptor;
            && !call.context.cancelled && poll.input == call.input && schemas.admits(d.inputSchema, poll.input)
            && exists j :: 0 <= j < |bindings| && bindings[j].name == call.name && bindings[j].risk.Low? && Fits(schemas, bindings[j], d)
  {
    PollsAreFaithful(schemas, registry, events);
    assert Faithful(schemas, registry, Arrivals(events), poll);
    var j := BoundTool(schemas, implementations, bindings, registry, Arrivals(events)[poll.id].name);
  }
}
