/** Building a module: structural checks, then validation of every function on one visit budget. */
module ModuleBuilder {
  import opened Wrappers
  import opened Values
  import opened Bytecode
  import opened FunctionValidator

  datatype Module = Module(
    functions: seq<Function>,
    entry: nat,
    constants: seq<OwnedValue>,
    inputCount: nat,
    imports: seq<HostImport>,
    maxOperandStack: seq<nat>)
  {
    function Scope(): Env {
      Env(functions, imports)
    }
  }

  datatype Fault =
    | UnsupportedVersion | FunctionCount | MissingEntry | EntryArity | TooManyInputs | TooManyConstants | TooManyImports
    | InvalidImport | BadConstant(error: VmError) | ConstantBytes
    | LocalCount | EmptyFunction | TooManyInstructions | NoFinalReturn | OutOfRange
    | Rejected(reason: Reason)

  datatype ModuleError = ModuleError(inFunction: Option<nat>, instruction: Option<nat>, fault: Fault)

  // ----- what a module promises -----

  predicate NameChar(c: char) {
    'a' <= c <= 'z' || 'A' <= c <= 'Z' || '0' <= c <= '9' || c == '_' || c == '.'
  }

  predicate NameOk(name: string) {
    name != [] && Utf8Len(name) <= 128 && forall i :: 0 <= i < |name| ==> NameChar(name[i])
  }

  /** An import name is 1 to 128 letters, digits, underscores and dots. */
  lemma NameExact(name: string)
    ensures NameOk(name) <==> Spelled(name, "_.")
  {
    AsciiLen(name);
    hide Utf8Len;
    assert forall c :: c in "_." <==> c == '_' || c == '.';
    assert forall i :: 0 <= i < |name| ==> name[i] in name;
  }

  ghost predicate ImportsOk(imports: seq<HostImport>) {
    && (forall i :: 0 <= i < |imports| ==> NameOk(imports[i].name) && imports[i].arity <= MAX_OPERAND_STACK)
    && (forall i, j :: 0 <= i < j < |imports| ==> imports[i].name != imports[j].name)
  }

  ghost predicate ConstantsOk(constants: seq<OwnedValue>) {
    && (forall i :: 0 <= i < |constants| ==> Height(constants[i]) <= MAX_VALUE_DEPTH && Charge(constants[i]) <= USIZE_MAX)
    && ItemsCharge(constants) <= MAX_MODULE_CONSTANT_BYTES
  }

  /** Indices into the constants and inputs stay in range. */
  predicate DataInRange(op: Op, constants: nat, inputs: nat) {
    (op.ConstValue? ==> op.index < constants) && (op.Input? ==> op.index < inputs)
  }

  ghost predicate FunctionOk(f: Function, env: Env, constants: nat, inputs: nat) {
    WellFormed(f, env) && forall ip :: 0 <= ip < |f.code| ==> DataInRange(f.code[ip], constants, inputs)
  }

  function TotalCode(functions: seq<Function>): nat {
    if functions == [] then 0 else TotalCode(functions[..|functions| - 1]) + |functions[|functions| - 1].code|
  }

  /** Everything about a module that can be seen without following its control flow. */
  ghost predicate Structured(m: Module) {
    && 1 <= |m.functions| <= MAX_FUNCTIONS
    && m.entry < |m.functions| && m.functions[m.entry].arity == 0
    && m.inputCount <= MAX_LOCALS_PER_FUNCTION && |m.constants| <= MAX_MODULE_CONSTANTS && |m.imports| <= MAX_FUNCTIONS
    && ImportsOk(m.imports) && ConstantsOk(m.constants)
    && TotalCode(m.functions) <= MAX_MODULE_INSTRUCTIONS
    && CodeOk(m)
  }

  ghost predicate CodeOk(m: Module) {
    forall i :: 0 <= i < |m.functions| ==> FunctionOk(m.functions[i], m.Scope(), |m.constants|, m.inputCount)
  }

  ghost predicate AllSafe(m: Module) {
    forall i :: 0 <= i < |m.functions| ==> Safe(m.functions[i], m.Scope())
  }

  ghost predicate ModuleOk(m: Module) {
    && Structured(m) && AllSafe(m)
    && |m.maxOperandStack| == |m.functions|
    && forall i :: 0 <= i < |m.functions| ==>
         PeakDepth(m.functions[i], m.Scope(), m.maxOperandStack[i]) && m.maxOperandStack[i] <= MAX_OPERAND_STACK
  }

  /** The error names a defect the module has, in the place it names. */
  ghost predicate FaultHolds(m: Module, version: nat, e: ModuleError) {
    match e.fault
    case UnsupportedVersion => version != MODULE_VERSION
    case FunctionCount => m.functions == [] || |m.functions| > MAX_FUNCTIONS
    case MissingEntry => m.entry >= |m.functions|
    case EntryArity => e.inFunction == Some(m.entry) && m.entry < |m.functions| && m.functions[m.entry].arity != 0
    case TooManyInputs => m.inputCount > MAX_LOCALS_PER_FUNCTION
    case TooManyConstants => |m.constants| > MAX_MODULE_CONSTANTS
    case TooManyImports => |m.imports| > MAX_FUNCTIONS
    case InvalidImport => !ImportsOk(m.imports)
    case BadConstant(error) => ConstantFault(m.constants, e.fault)
    case ConstantBytes => ConstantFault(m.constants, e.fault)
    case TooManyInstructions => TotalCode(m.functions) > MAX_MODULE_INSTRUCTIONS
    case _ =>
      && e.inFunction.Some? && e.inFunction.value < |m.functions|
      && CodeFault(m.functions[e.inFunction.value], m.Scope(), |m.constants|, m.inputCount, e)
  }

  ghost predicate ConstantFault(constants: seq<OwnedValue>, fault: Fault) {
    match fault
    case BadConstant(ValueDepthLimit) => exists i :: 0 <= i < |constants| && Height(constants[i]) > MAX_VALUE_DEPTH
    case BadConstant(_) => exists i :: 0 <= i < |constants| && Charge(constants[i]) > USIZE_MAX
    case _ => fault.ConstantBytes? && ItemsCharge(constants) > MAX_MODULE_CONSTANT_BYTES
  }

  /** The defect is in this function, at the instruction the error names if it names one. */
  ghost predicate CodeFault(f: Function, env: Env, constants: nat, inputs: nat, e: ModuleError) {
    match e.fault
    case LocalCount => f.localCount > MAX_LOCALS_PER_FUNCTION || f.arity > f.localCount
    case EmptyFunction => f.code == []
    case NoFinalReturn => f.code != [] && f.code[|f.code| - 1] != Return
    case OutOfRange =>
      && e.instruction.Some? && e.instruction.value < |f.code|
      && var op := f.code[e.instruction.value];
         !OpInRange(op, f, env) || !DataInRange(op, constants, inputs)
    case Rejected(reason) => e.instruction.Some? && Evidence(f, env, Rejection(e.instruction.value, reason))
    case _ => false
  }

  function TotalVisits(functions: seq<Function>): nat {
    if functions == [] then 0 else TotalVisits(functions[..|functions| - 1]) + VisitBound(functions[|functions| - 1])
  }

  lemma {:induction false} TotalVisitsPrefix(functions: seq<Function>, i: nat)
    requires i < |functions|
    ensures TotalVisits(functions[..i + 1]) == TotalVisits(functions[..i]) + VisitBound(functions[i]) <= TotalVisits(functions)
  {
    var n := |functions| - 1;
    assert functions[..i + 1][..i] == functions[..i];
    if i == n {
      assert functions[..i + 1] == functions;
    } else {
      TotalVisitsPrefix(functions[..n], i);
      assert functions[..n][..i + 1] == functions[..i + 1] && functions[..n][..i] == functions[..i];
    }
  }

  lemma {:induction false} TotalCodePrefix(functions: seq<Function>, i: nat)
    requires i < |functions|
    ensures TotalCode(functions[..i + 1]) == TotalCode(functions[..i]) + |functions[i].code| <= TotalCode(functions)
  {
    var n := |functions| - 1;
    assert functions[..i + 1][..i] == functions[..i];
    if i == n {
      assert functions[..i + 1] == functions;
    } else {
      TotalCodePrefix(functions[..n], i);
      assert functions[..n][..i + 1] == functions[..i + 1] && functions[..n][..i] == functions[..i];
    }
  }

  // ----- the checks -----

  method CheckImports(imports: seq<HostImport>) returns (ok: bool)
    ensures ok <==> ImportsOk(imports)
  {
    var names: set<string> := {};
    for i := 0 to |imports|
      invariant ImportsOk(imports[..i])
      invariant forall n :: n in names <==> exists j :: 0 <= j < i && imports[j].name == n
    {
      var import_ := imports[i];
      if !NameOk(import_.name) || import_.arity > MAX_OPERAND_STACK || import_.name in names {
        return false;
      }
      names := names + {import_.name};
    }
    assert imports[..|imports|] == imports;
    return true;
  }

  method CheckConstants(constants: seq<OwnedValue>) returns (fault: Option<Fault>)
    ensures fault.None? <==> ConstantsOk(constants)
    ensures fault.Some? ==> ConstantFault(constants, fault.value)
  {
    hide Height, Charge, ValueCharge;
    var total: nat := 0;
    for i := 0 to |constants|
      invariant total == ItemsCharge(constants[..i]) <= MAX_MODULE_CONSTANT_BYTES
      invariant forall j :: 0 <= j < i ==> Height(constants[j]) <= MAX_VALUE_DEPTH && Charge(constants[j]) <= USIZE_MAX
    {
      PrefixBounds(constants, i);
      ValueChargeExact(constants[i], 0);
      var charge := ValueCharge(constants[i], 0);
      if charge.Err? { return Some(BadConstant(charge.error)); }
      total := total + charge.value;
      if total > MAX_MODULE_CONSTANT_BYTES { return Some(ConstantBytes); }
    }
    assert constants[..|constants|] == constants;
    return None;
  }

  /** The structural checks on one function, in the source's order. */
  method CheckFunction(f: Function, index: nat, env: Env, constants: nat, inputs: nat, total: nat)
    returns (error: Option<ModuleError>)
    ensures error.None? <==> FunctionOk(f, env, constants, inputs) && total + |f.code| <= MAX_MODULE_INSTRUCTIONS
    ensures error.Some? ==>
      if error.value.fault.TooManyInstructions? then error.value.inFunction.None? && total + |f.code| > MAX_MODULE_INSTRUCTIONS
      else error.value.inFunction == Some(index) && !error.value.fault.Rejected? && CodeFault(f, env, constants, inputs, error.value)
  {
    if f.localCount > MAX_LOCALS_PER_FUNCTION || f.arity > f.localCount {
      return Some(ModuleError(Some(index), None, LocalCount));
    }
    if f.code == [] { return Some(ModuleError(Some(index), None, EmptyFunction)); }
    if total + |f.code| > MAX_MODULE_INSTRUCTIONS { return Some(ModuleError(None, None, TooManyInstructions)); }
    if f.code[|f.code| - 1] != Return { return Some(ModuleError(Some(index), None, NoFinalReturn)); }
    for ip := 0 to |f.code|
      invariant forall j :: 0 <= j < ip ==> OpInRange(f.code[j], f, env) && DataInRange(f.code[j], constants, inputs)
    {
      if !DataInRange(f.code[ip], constants, inputs) || !OpInRange(f.code[ip], f, env) {
        return Some(ModuleError(Some(index), Some(ip), OutOfRange));
      }
    }
    return None;
  }

  method CheckFunctions(functions: seq<Function>, env: Env, constants: nat, inputs: nat)
    returns (error: Option<ModuleError>)
    ensures error.None? <==>
      && (forall i :: 0 <= i < |functions| ==> FunctionOk(functions[i], env, constants, inputs))
      && TotalCode(functions) <= MAX_MODULE_INSTRUCTIONS
    ensures error.Some? ==>
      if error.value.fault.TooManyInstructions? then TotalCode(functions) > MAX_MODULE_INSTRUCTIONS
      else
        && !error.value.fault.Rejected? && error.value.inFunction.Some? && error.value.inFunction.value < |functions|
        && CodeFault(functions[error.value.inFunction.value], env, constants, inputs, error.value)
  {
    var total: nat := 0;
    for i := 0 to |functions|
      invariant total == TotalCode(functions[..i]) <= MAX_MODULE_INSTRUCTIONS
      invariant forall j :: 0 <= j < i ==> FunctionOk(functions[j], env, constants, inputs)
    {
      TotalCodePrefix(functions, i);
      error := CheckFunction(functions[i], i, env, constants, inputs, total);
      if error.Some? { return; }
      total := total + |functions[i].code|;
    }
    assert functions[..|functions|] == functions;
    return None;
  }

  /** Validates the functions in order; the visits one uses are gone for the next. */
  method ValidateAll(functions: seq<Function>, env: Env, budget: nat) returns (r: Result<seq<nat>, ModuleError>)
    requires forall i :: 0 <= i < |functions| ==> WellFormed(functions[i], env)
    ensures r.Ok? ==> |r.value| == |functions| && forall i :: 0 <= i < |functions| ==>
      Safe(functions[i], env) && PeakDepth(functions[i], env, r.value[i]) && r.value[i] <= MAX_OPERAND_STACK
    ensures r.Err? ==>
      && r.error.fault.Rejected? && r.error.inFunction.Some? && r.error.inFunction.value < |functions|
      && forall constants, inputs :: CodeFault(functions[r.error.inFunction.value], env, constants, inputs, r.error)
    ensures r.Err? && r.error.fault != Rejected(VisitLimit) ==> exists i :: 0 <= i < |functions| && !Safe(functions[i], env)
    ensures r.Err? && r.error.fault == Rejected(VisitLimit) ==> budget < TotalVisits(functions)
  {
    hide Safe, PeakDepth, WellFormed, VisitBound, Exact, Evidence;
    var peaks: seq<nat> := [];
    var remaining: nat := budget;
    for i := 0 to |functions|
      invariant |peaks| == i
      invariant budget <= remaining + TotalVisits(functions[..i])
      invariant forall j :: 0 <= j < i ==>
        Safe(functions[j], env) && PeakDepth(functions[j], env, peaks[j]) && peaks[j] <= MAX_OPERAND_STACK
    {
      TotalVisitsPrefix(functions, i);
      var outcome, left, _ := ValidateFunction(functions[i], env, remaining);
      if outcome.Err? {
        return Err(ModuleError(Some(i), Some(outcome.error.ip), Rejected(outcome.error.reason)));
      }
      remaining := left;
      peaks := peaks + [outcome.value];
    }
    return Ok(peaks);
  }

  /** Accepts exactly the structured modules whose every function is safe, as long as the shared
      visit budget lasts; it lasts whenever the functions' bounds add up to no more. */
  method WithImports(
    version: nat, functions: seq<Function>, entry: nat, constants: seq<OwnedValue>, inputCount: nat, imports: seq<HostImport>)
    returns (r: Result<Module, ModuleError>)
    ensures r.Ok? ==> ModuleOk(r.value) && version == MODULE_VERSION
    ensures r.Ok? ==> r.value == Module(functions, entry, constants, inputCount, imports, r.value.maxOperandStack)
    ensures var candidate := Module(functions, entry, constants, inputCount, imports, []);
      r.Err? && r.error.fault != Rejected(VisitLimit) ==> version != MODULE_VERSION || !Structured(candidate) || !AllSafe(candidate)
    ensures r.Err? && r.error.fault == Rejected(VisitLimit) ==> MAX_MODULE_VALIDATION_VISITS < TotalVisits(functions)
    ensures r.Err? ==> FaultHolds(Module(functions, entry, constants, inputCount, imports, []), version, r.error)
  {
    if version != MODULE_VERSION { return Err(ModuleError(None, None, UnsupportedVersion)); }
    if functions == [] || |functions| > MAX_FUNCTIONS { return Err(ModuleError(None, None, FunctionCount)); }
    if entry >= |functions| { return Err(ModuleError(None, None, MissingEntry)); }
    if functions[entry].arity != 0 { return Err(ModuleError(Some(entry), None, EntryArity)); }
    if inputCount > MAX_LOCALS_PER_FUNCTION { return Err(ModuleError(None, None, TooManyInputs)); }
    if |constants| > MAX_MODULE_CONSTANTS { return Err(ModuleError(None, None, TooManyConstants)); }
    if |imports| > MAX_FUNCTIONS { return Err(ModuleError(None, None, TooManyImports)); }
    var importsOk := CheckImports(imports);
    if !importsOk { return Err(ModuleError(None, None, InvalidImport)); }
    var fault := CheckConstants(constants);
    if fault.Some? { return Err(ModuleError(None, None, fault.value)); }
    ghost var candidate := Module(functions, entry, constants, inputCount, imports, []);
    var env := Env(functions, imports);
    assert env == candidate.Scope();
    var error := CheckFunctions(functions, env, |constants|, inputCount);
    if error.Some? {
      assert !Structured(candidate);
      return Err(error.value);
    }
    var peaks := ValidateAll(functions, env, MAX_MODULE_VALIDATION_VISITS);
    if peaks.Err? { return Err(peaks.error); }
    r := Ok(Module(functions, entry, constants, inputCount, imports, peaks.value));
    assert r.value.Scope() == env;
  }
}
