/** Module bytecode: instructions, functions, modules and what each instruction does to the
    operand depth and to the set of initialized locals. */
module Bytecode {
  import opened Wrappers
  import opened Values

  const MODULE_VERSION: nat := 2
  const MAX_FUNCTIONS: nat := 1_024
  const MAX_MODULE_INSTRUCTIONS: nat := 65_536
  const MAX_LOCALS_PER_FUNCTION: nat := 256
  const MAX_OPERAND_STACK: nat := 1_024
  const MAX_CALL_FRAMES: nat := 128
  const MAX_LIVE_SLOTS: nat := 16_384
  const MAX_MODULE_STEPS: nat := 1_000_000
  const MAX_MODULE_VALIDATION_VISITS: nat := 1_000_000
  const MAX_MODULE_CONSTANT_BYTES: nat := 8 * 1024 * 1024
  const MAX_MODULE_CONSTANTS: nat := 65_536
  const MAX_MODULE_HEAP_BYTES: nat := 8 * 1024 * 1024

  datatype Op =
    | Const(number: i64)
    | ConstValue(index: nat)
    | Input(index: nat)
    | LocalGet(slot: nat)
    | LocalTake(slot: nat)
    | LocalSet(slot: nat)
    | Add | Sub | Mul | Div | Eq | Lt
    | ListNew | ListPush | ListGet | ListLen
    | MapNew | MapInsert | MapGet
    | Jump(target: nat)
    | JumpIfZero(target: nat)
    | Call(callee: nat)
    | Import(index: nat)
    | Return

  datatype HostImport = HostImport(name: string, arity: nat)

  datatype Function = Function(arity: nat, localCount: nat, code: seq<Op>)

  /** What a function body may refer to outside itself. */
  datatype Env = Env(functions: seq<Function>, imports: seq<HostImport>)

  /** References inside the code stay inside the function and its environment. */
  predicate WellFormed(f: Function, env: Env) {
    && f.arity <= f.localCount <= MAX_LOCALS_PER_FUNCTION
    && f.code != [] && f.code[|f.code| - 1] == Return
    && forall ip :: 0 <= ip < |f.code| ==> OpInRange(f.code[ip], f, env)
  }

  predicate OpInRange(op: Op, f: Function, env: Env) {
    match op
    case LocalGet(slot) => slot < f.localCount
    case LocalTake(slot) => slot < f.localCount
    case LocalSet(slot) => slot < f.localCount
    case Jump(target) => target < |f.code|
    case JumpIfZero(target) => target < |f.code|
    case Call(callee) => callee < |env.functions|
    case Import(index) => index < |env.imports|
    case _ => true
  }

  /** Operands an instruction takes from the stack. */
  function Required(op: Op, env: Env): nat {
    match op
    case LocalSet(_) => 1
    case JumpIfZero(_) => 1
    case Return => 1
    case ListLen => 1
    case Add => 2
    case Sub => 2
    case Mul => 2
    case Div => 2
    case Eq => 2
    case Lt => 2
    case ListPush => 2
    case ListGet => 2
    case MapGet => 2
    case MapInsert => 3
    case Call(callee) => if callee < |env.functions| then env.functions[callee].arity else 0
    case Import(index) => if index < |env.imports| then env.imports[index].arity else 0
    case _ => 0
  }

  /** Operand depth after the instruction, given the depth before it. */
  function NextDepth(op: Op, env: Env, depth: int): int {
    match op
    case Const(_) => depth + 1
    case ConstValue(_) => depth + 1
    case Input(_) => depth + 1
    case LocalGet(_) => depth + 1
    case LocalTake(_) => depth + 1
    case ListNew => depth + 1
    case MapNew => depth + 1
    case MapInsert => depth - 2
    case ListLen => depth
    case Call(_) => depth - Required(op, env) + 1
    case Import(_) => depth - Required(op, env) + 1
    case Jump(_) => depth
    case Return => depth
    case _ => depth - 1
  }

  /** Initialized locals after the instruction. */
  function NextLocals(op: Op, locals: set<nat>): set<nat> {
    match op
    case LocalSet(slot) => locals + {slot}
    case LocalTake(slot) => locals - {slot}
    case _ => locals
  }

  function Successors(op: Op, ip: nat): set<nat> {
    match op
    case Return => {}
    case Jump(target) => {target}
    case JumpIfZero(target) => {target, ip + 1}
    case _ => {ip + 1}
  }

  function Parameters(arity: nat): (r: set<nat>)
    ensures forall slot: nat :: slot in r <==> slot < arity
  {
    if arity == 0 then {} else Parameters(arity - 1) + {arity - 1}
  }

  // ----- control flow -----

  /** A path through the control-flow graph from the entry of the function. */
  ghost predicate Path(f: Function, p: seq<nat>) {
    && p != [] && p[0] == 0
    && (forall i :: 0 <= i < |p| ==> p[i] < |f.code|)
    && (forall i :: 0 <= i < |p| - 1 ==> p[i + 1] in Successors(f.code[p[i]], p[i]))
  }

  ghost predicate PathTo(f: Function, p: seq<nat>, ip: nat) {
    Path(f, p) && p[|p| - 1] == ip
  }

  /** Operand depth on arrival at the end of the path. */
  ghost function DepthAlong(f: Function, env: Env, p: seq<nat>): int
    requires Path(f, p)
    decreases |p|
  {
    if |p| == 1 then 0
    else
      PathFront(f, p);
      NextDepth(f.code[p[|p| - 2]], env, DepthAlong(f, env, p[..|p| - 1]))
  }

  /** Locals initialized on arrival at the end of the path. */
  ghost function LocalsAlong(f: Function, p: seq<nat>): set<nat>
    requires Path(f, p)
    decreases |p|
  {
    if |p| == 1 then Parameters(f.arity)
    else
      PathFront(f, p);
      NextLocals(f.code[p[|p| - 2]], LocalsAlong(f, p[..|p| - 1]))
  }

  lemma PathFront(f: Function, p: seq<nat>)
    requires Path(f, p) && |p| > 1
    ensures PathTo(f, p[..|p| - 1], p[|p| - 2])
  {
  }

  lemma PathExtends(f: Function, env: Env, p: seq<nat>, ip: nat, next: nat)
    requires PathTo(f, p, ip) && next < |f.code| && next in Successors(f.code[ip], ip)
    ensures PathTo(f, p + [next], next)
    ensures DepthAlong(f, env, p + [next]) == NextDepth(f.code[ip], env, DepthAlong(f, env, p))
    ensures LocalsAlong(f, p + [next]) == NextLocals(f.code[ip], LocalsAlong(f, p))
  {
    assert (p + [next])[..|p|] == p;
  }

  /** The instruction may run at this depth with these locals initialized. */
  predicate Runs(op: Op, env: Env, depth: int, locals: set<nat>) {
    && depth >= Required(op, env)
    && (op.LocalGet? || op.LocalTake? ==> op.slot in locals)
    && (op.Return? ==> depth == 1)
    && NextDepth(op, env, depth) <= MAX_OPERAND_STACK
  }

  /** Every control-flow path can run each instruction it reaches. */
  ghost predicate PathsRun(f: Function, env: Env) {
    forall p :: Path(f, p) ==> Runs(f.code[p[|p| - 1]], env, DepthAlong(f, env, p), LocalsAlong(f, p))
  }

  /** Paths that meet at an instruction agree on the operand depth. */
  ghost predicate PathsAgree(f: Function, env: Env) {
    forall p, q :: Path(f, p) && Path(f, q) && p[|p| - 1] == q[|q| - 1] ==> DepthAlong(f, env, p) == DepthAlong(f, env, q)
  }

  ghost predicate Safe(f: Function, env: Env) {
    PathsRun(f, env) && PathsAgree(f, env)
  }

  /** The deepest operand stack any path leaves behind an instruction. */
  ghost predicate PeakDepth(f: Function, env: Env, peak: nat) {
    && (forall p :: Path(f, p) ==> NextDepth(f.code[p[|p| - 1]], env, DepthAlong(f, env, p)) <= peak)
    && (peak == 0 || exists p :: Path(f, p) && NextDepth(f.code[p[|p| - 1]], env, DepthAlong(f, env, p)) == peak)
  }

  lemma SuccessorsInRange(f: Function, env: Env, ip: nat)
    requires WellFormed(f, env) && ip < |f.code|
    ensures forall next :: next in Successors(f.code[ip], ip) ==> next < |f.code|
  {
    assert OpInRange(f.code[ip], f, env);
  }
}
