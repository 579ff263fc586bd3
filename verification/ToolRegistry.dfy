/** Tool registry construction of crates/agent-core/src/tool.rs. */
module ToolRegistry {
  import opened Prelude

  datatype Risk = Low | Elevated | High
  {
    predicate RequiresApproval() {
      Elevated? || High?
    }
  }

  datatype Descriptor = Descriptor(
    name: string, version: string, risk: Risk, inputSchema: string, outputSchemaVersion: string, outputSchema: string)

  /** An installed implementation, known by its identity and what it declares. */
  datatype Implementation = Implementation(identity: nat, descriptor: Descriptor)

  datatype Binding = Binding(name: string, version: string, risk: Risk, timeoutMillis: nat)

  datatype Registered = Registered(descriptor: Descriptor, timeoutMillis: nat, implementation: Implementation)

  type Registry = map<string, Registered>

  /** The JSON Schema library: which schemas compile, and which values a schema admits. */
  datatype Schemas = Schemas(compiles: string -> bool, admits: (string, string) -> bool)

  datatype FailureCode = ProviderUnavailable | OperationRejected | InvalidOutput | Internal

  datatype ToolError =
    | MissingBindings
    | DuplicateTool(name: string)
    | DuplicateBinding(name: string)
    | MissingImplementation(name: string, version: string)
    | VersionMismatch(name: string, expected: string, actual: string)
    | RiskMismatch(name: string, expectedRisk: Risk, actualRisk: Risk)
    | InvalidInputSchema(name: string)
    | InvalidOutputSchema(name: string)
    | UnboundTool(name: string)
    | ApprovalRequired(name: string)
    | InputRejected(name: string)
    | DispatchTimedOut(name: string, timeoutMillis: nat)
    | DispatchCancelled(name: string)
    | ExecutionFailed(name: string, code: FailureCode)
    | OutputVersionMismatch(name: string, expected: string, actual: string)
    | OutputRejected(name: string)

  function DiagnosticCode(e: ToolError): string {
    match e
    case MissingBindings => "LW_AGENT_TOOL_BINDING_MISSING"
    case DuplicateTool(_) => "LW_AGENT_TOOL_DUPLICATE"
    case DuplicateBinding(_) => "LW_AGENT_TOOL_BINDING_DUPLICATE"
    case MissingImplementation(_, _) => "LW_AGENT_TOOL_IMPLEMENTATION_MISSING"
    case VersionMismatch(_, _, _) => "LW_AGENT_TOOL_VERSION_MISMATCH"
    case RiskMismatch(_, _, _) => "LW_AGENT_TOOL_RISK_MISMATCH"
    case InvalidInputSchema(_) => "LW_AGENT_TOOL_INPUT_SCHEMA_INVALID"
    case InvalidOutputSchema(_) => "LW_AGENT_TOOL_OUTPUT_SCHEMA_INVALID"
    case UnboundTool(_) => "LW_AGENT_TOOL_UNBOUND"
    case ApprovalRequired(_) => "LW_AGENT_TOOL_APPROVAL_REQUIRED"
    case InputRejected(_) => "LW_AGENT_TOOL_INPUT_REJECTED"
    case DispatchTimedOut(_, _) => "LW_AGENT_TOOL_TIMEOUT"
    case DispatchCancelled(_) => "LW_AGENT_TOOL_CANCELLED"
    case ExecutionFailed(_, _) => "LW_AGENT_TOOL_EXECUTION_FAILED"
    case OutputVersionMismatch(_, _, _) => "LW_AGENT_TOOL_OUTPUT_VERSION_MISMATCH"
    case OutputRejected(_) => "LW_AGENT_TOOL_OUTPUT_REJECTED"
  }

  // ---- Construction -----------------------------------------------------------------------------

  predicate DistinctImplementations(implementations: seq<Implementation>) {
    forall i, j :: 0 <= i < j < |implementations| ==> implementations[i].descriptor.name != implementations[j].descriptor.name
  }

  predicate DistinctBindings(bindings: seq<Binding>) {
    forall i, j :: 0 <= i < j < |bindings| ==> bindings[i].name != bindings[j].name
  }

  /** An implementation that a binding accepts. */
  predicate Fits(schemas: Schemas, binding: Binding, d: Descriptor) {
    d.name == binding.name && d.version == binding.version && d.risk == binding.risk
    && schemas.compiles(d.inputSchema) && schemas.compiles(d.outputSchema)
  }

  predicate HasFit(schemas: Schemas, implementations: seq<Implementation>, binding: Binding) {
    exists i :: 0 <= i < |implementations| && Fits(schemas, binding, implementations[i].descriptor)
  }

  predicate Consistent(schemas: Schemas, implementations: seq<Implementation>, bindings: seq<Binding>) {
    && bindings != []
    && DistinctImplementations(implementations) && DistinctBindings(bindings)
    && forall j :: 0 <= j < |bindings| ==> HasFit(schemas, implementations, bindings[j])
  }

  /** The registry entry that a binding and its implementation give rise to. */
  predicate Serves(schemas: Schemas, implementations: seq<Implementation>, binding: Binding, tool: Registered) {
    && tool.implementation in implementations && tool.descriptor == tool.implementation.descriptor
    && tool.timeoutMillis == binding.timeoutMillis && Fits(schemas, binding, tool.descriptor)
  }

  /** The reason given for a refusal is a fact about the inputs. */
  ghost predicate Explains(schemas: Schemas, implementations: seq<Implementation>, bindings: seq<Binding>, e: ToolError) {
    match e
    case MissingBindings => bindings == []
    case DuplicateTool(name) =>
      exists i, j :: 0 <= i < j < |implementations| && implementations[i].descriptor.name == name == implementations[j].descriptor.name
    case DuplicateBinding(name) => exists i, j :: 0 <= i < j < |bindings| && bindings[i].name == name == bindings[j].name
    case MissingImplementation(name, version) =>
      && (exists j :: 0 <= j < |bindings| && bindings[j].name == name && bindings[j].version == version)
      && (forall i :: 0 <= i < |implementations| ==> implementations[i].descriptor.name != name)
    case VersionMismatch(name, expected, actual) =>
      && expected != actual
      && exists j, i :: Pair(implementations, bindings, name, i, j) && bindings[j].version == expected && implementations[i].descriptor.version == actual
    case RiskMismatch(name, expected, actual) =>
      && expected != actual
      && exists j, i :: Pair(implementations, bindings, name, i, j) && bindings[j].risk == expected && implementations[i].descriptor.risk == actual
    case InvalidInputSchema(name) =>
      exists j, i :: Pair(implementations, bindings, name, i, j) && !schemas.compiles(implementations[i].descriptor.inputSchema)
    case InvalidOutputSchema(name) =>
      exists j, i :: Pair(implementations, bindings, name, i, j) && !schemas.compiles(implementations[i].descriptor.outputSchema)
    case _ => false
  }

  /** A binding and the implementation of the same name. */
  predicate Pair(implementations: seq<Implementation>, bindings: seq<Binding>, name: string, i: int, j: int) {
    0 <= i < |implementations| && 0 <= j < |bindings| && implementations[i].descriptor.name == name == bindings[j].name
  }

  /** The table of installed implementations by name. */
  ghost predicate Indexes(available: map<string, Implementation>, implementations: seq<Implementation>) {
    && (forall n :: n in available ==> available[n] in implementations && available[n].descriptor.name == n)
    && (forall k :: 0 <= k < |implementations| ==> implementations[k].descriptor.name in available)
  }

  /** The first loop of `ToolRegistry::new`. */
  method Install(schemas: Schemas, implementations: seq<Implementation>, ghost bindings: seq<Binding>)
    returns (r: Result<map<string, Implementation>, ToolError>)
    ensures r.Ok? <==> DistinctImplementations(implementations)
    ensures r.Ok? ==> Indexes(r.value, implementations)
    ensures r.Err? ==> Explains(schemas, implementations, bindings, r.error)
  {
    var available: map<string, Implementation> := map[];
    for i := 0 to |implementations|
      invariant DistinctImplementations(implementations[..i])
      invariant Indexes(available, implementations[..i])
    {
      var name := implementations[i].descriptor.name;
      if name in available {
        ghost var k :| 0 <= k < i && implementations[k] == available[name];
        return Err(DuplicateTool(name));
      }
      available := available[name := implementations[i]];
      assert implementations[..i + 1] == implementations[..i] + [implementations[i]];
    }
    assert implementations[..|implementations|] == implementations;
    return Ok(available);
  }

  /** The checks of one binding against the implementation of its name. */
  function Bind(schemas: Schemas, binding: Binding, implementation: Implementation): Result<Registered, ToolError> {
    var d := implementation.descriptor;
    if d.version != binding.version then Err(VersionMismatch(binding.name, binding.version, d.version))
    else if d.risk != binding.risk then Err(RiskMismatch(binding.name, binding.risk, d.risk))
    else if !schemas.compiles(d.inputSchema) then Err(InvalidInputSchema(d.name))
    else if !schemas.compiles(d.outputSchema) then Err(InvalidOutputSchema(d.name))
    else Ok(Registered(d, binding.timeoutMillis, implementation))
  }

  lemma BindIsExact(schemas: Schemas, implementations: seq<Implementation>, bindings: seq<Binding>, j: int, implementation: Implementation)
    requires DistinctImplementations(implementations) && 0 <= j < |bindings|
    requires implementation in implementations && implementation.descriptor.name == bindings[j].name
    ensures var r := Bind(schemas, bindings[j], implementation);
            && (r.Ok? <==> HasFit(schemas, implementations, bindings[j]))
            && (r.Ok? ==> Serves(schemas, implementations, bindings[j], r.value))
            && (r.Err? ==> Explains(schemas, implementations, bindings, r.error))
  {
    var i :| 0 <= i < |implementations| && implementations[i] == implementation;
    assert Pair(implementations, bindings, bindings[j].name, i, j);
  }

  /** The names of the first j bindings. */
  function Names(bindings: seq<Binding>, j: nat): set<string>
    requires j <= |bindings|
  {
    set k | 0 <= k < j :: bindings[k].name
  }

  lemma NamesGrow(bindings: seq<Binding>, j: nat)
    requires j < |bindings|
    ensures Names(bindings, j + 1) == Names(bindings, j) + {bindings[j].name}
  {
  }

  /** After j bindings: their names are taken from the table and served by the registry. */
  ghost predicate Progress(schemas: Schemas, implementations: seq<Implementation>, bindings: seq<Binding>, installed: map<string, Implementation>,
                           j: nat, available: map<string, Implementation>, tools: Registry)
    requires j <= |bindings|
  {
    && DistinctBindings(bindings[..j])
    && tools.Keys == Names(bindings, j)
    && available == installed - Names(bindings, j)
    && forall k :: 0 <= k < j ==> bindings[k].name in tools && Serves(schemas, implementations, bindings[k], tools[bindings[k].name])
  }

  lemma BindingProgresses(schemas: Schemas, implementations: seq<Implementation>, bindings: seq<Binding>, installed: map<string, Implementation>,
                          j: nat, available: map<string, Implementation>, tools: Registry, tool: Registered)
    requires j < |bindings| && Progress(schemas, implementations, bindings, installed, j, available, tools)
    requires bindings[j].name !in Names(bindings, j) && Serves(schemas, implementations, bindings[j], tool)
    ensures Progress(schemas, implementations, bindings, installed, j + 1, available - {bindings[j].name}, tools[bindings[j].name := tool])
  {
    NamesGrow(bindings, j);
    assert forall k :: 0 <= k < j ==> bindings[k].name in Names(bindings, j);
  }

  /** The second loop of `ToolRegistry::new`. */
  method BindAll(schemas: Schemas, implementations: seq<Implementation>, bindings: seq<Binding>, installed: map<string, Implementation>)
    returns (r: Result<Registry, ToolError>)
    requires DistinctImplementations(implementations) && Indexes(installed, implementations)
    ensures r.Ok? ==> Progress(schemas, implementations, bindings, installed, |bindings|, installed - Names(bindings, |bindings|), r.value)
    ensures r.Err? ==> Explains(schemas, implementations, bindings, r.error)
  {
    var available := installed;
    var tools: Registry := map[];
    var seen: set<string> := {};
    for j := 0 to |bindings|
      invariant seen == Names(bindings, j)
      invariant Progress(schemas, implementations, bindings, installed, j, available, tools)
    {
      var binding := bindings[j];
      if binding.name in seen {
        return Err(DuplicateBinding(binding.name));
      }
      seen := seen + {binding.name};
      NamesGrow(bindings, j);
      if binding.name !in available {
        assert binding.name !in installed;
        return Err(MissingImplementation(binding.name, binding.version));
      }
      var implementation := available[binding.name];
      ghost var before := available;
      available := available - {binding.name};
      BindIsExact(schemas, implementations, bindings, j, implementation);
      var bound := Bind(schemas, binding, implementation);
      if bound.Err? {
        return Err(bound.error);
      }
      BindingProgresses(schemas, implementations, bindings, installed, j, before, tools, bound.value);
      tools := tools[binding.name := bound.value];
    }
    return Ok(tools);
  }

  /** A reason that holds of the inputs rules out consistency. */
  lemma ExplainedIsInconsistent(schemas: Schemas, implementations: seq<Implementation>, bindings: seq<Binding>, e: ToolError)
    requires Explains(schemas, implementations, bindings, e)
    ensures !Consistent(schemas, implementations, bindings)
  {
  }

  /**
    `ToolRegistry::new`: fill a table of implementations, then drain it binding by binding. It
    succeeds exactly on consistent inputs, holds exactly the bound names, and never misreports.
  */
  method New(schemas: Schemas, implementations: seq<Implementation>, bindings: seq<Binding>) returns (r: Result<Registry, ToolError>)
    ensures r.Ok? <==> Consistent(schemas, implementations, bindings)
    ensures r.Ok? ==> r.value.Keys == Names(bindings, |bindings|)
    ensures r.Ok? ==> forall j :: 0 <= j < |bindings| ==>
              bindings[j].name in r.value && Serves(schemas, implementations, bindings[j], r.value[bindings[j].name])
    ensures r.Err? ==> Explains(schemas, implementations, bindings, r.error)
  {
    if bindings == [] {
      return Err(MissingBindings);
    }
    var installed := Install(schemas, implementations, bindings);
    if installed.Err? {
      return Err(installed.error);
    }
    r := BindAll(schemas, implementations, bindings, installed.value);
    assert bindings[..|bindings|] == bindings;
    if r.Err? {
      ExplainedIsInconsistent(schemas, implementations, bindings, r.error);
    } else {
      forall j | 0 <= j < |bindings| ensures HasFit(schemas, implementations, bindings[j]) {
        var i :| 0 <= i < |implementations| && implementations[i] == r.value[bindings[j].name].implementation;
        assert Fits(schemas, bindings[j], implementations[i].descriptor);
      }
    }
  }
}
