/** The flat VM: a transactional stepper over a bounded stack of 32-bit integers. */
module FlatVm {
  import opened Wrappers
  import opened FlatProgram
  import Values

  const MAX_VM_STEPS: nat := 1_000_000

  datatype FlatError =
    | StackUnderflow(operation: string, needed: nat, available: nat)
    | DivisionByZero
    | IntegerOverflow(operation: string)
    | MissingHalt
    | EmptyStack
    | InvalidJump(target: nat)
    | StackDepthExceeded(limit: nat)
    | StepLimitExceeded(limit: nat)
    | AlreadyHalted

  datatype StepResult = Executed(instruction: Instruction) | Halted(result: i32)

  /** The state of the VM as a value. */
  datatype Flat = Flat(stack: seq<i32>, ip: nat, halted: bool)

  const START: Flat := Flat([], 0, false)

  datatype Moved = Moved(next: Flat, report: StepResult)

  datatype TraceEntry = TraceEntry(ip: nat, instruction: Instruction, stack: seq<i32>, result: Option<i32>)

  // ----- one step as a function -----

  predicate InI32(n: int) {
    -0x8000_0000 <= n < 0x8000_0000
  }

  function OperationName(op: Instruction): string {
    match op
    case Add => "add"
    case Sub => "subtract"
    case Mul => "multiply"
    case Div => "divide"
    case Dup => "duplicate"
    case Pop => "pop"
    case Swap => "swap"
    case Over => "over"
    case Eq => "equal"
    case Lt => "less-than"
    case Neg => "negate"
    case Not => "not"
    case Jz(_) => "jump-if-zero"
    case _ => ""
  }

  /** The exact mathematical result of a two-operand instruction. */
  function Exactly(op: Instruction, lhs: i32, rhs: i32): int
    requires op.Add? || op.Sub? || op.Mul? || op.Eq? || op.Lt? || (op.Div? && rhs != 0)
  {
    match op
    case Add => lhs + rhs
    case Sub => lhs - rhs
    case Mul => lhs * rhs
    case Div => Values.TruncatedDiv(lhs, rhs)
    case Eq => if lhs == rhs then 1 else 0
    case Lt => if lhs < rhs then 1 else 0
  }

  function Negated(n: i32): int {
    -(n as int)
  }

  /** The operands above the untouched part of the stack, replaced by the instruction's own. */
  function Effect(op: Instruction, stack: seq<i32>): Result<seq<i32>, FlatError> {
    var n := |stack|;
    if n < Required(op) then
      if op.Halt? then Err(EmptyStack) else Err(StackUnderflow(OperationName(op), Required(op), n))
    else if (op.Push? || op.Dup? || op.Over?) && n >= MAX_STACK_DEPTH then Err(StackDepthExceeded(MAX_STACK_DEPTH))
    else
      match op
      case Push(value) => Ok(stack + [value])
      case Dup => Ok(stack + [stack[n - 1]])
      case Over => Ok(stack + [stack[n - 2]])
      case Pop => Ok(stack[..n - 1])
      case Swap => Ok(stack[..n - 2] + [stack[n - 1], stack[n - 2]])
      case Neg => if InI32(Negated(stack[n - 1])) then Ok(stack[..n - 1] + [Negated(stack[n - 1])]) else Err(IntegerOverflow("negate"))
      case Not => Ok(stack[..n - 1] + [if stack[n - 1] == 0 then 1 else 0])
      case Jmp(_) => Ok(stack)
      case Jz(_) => Ok(stack[..n - 1])
      case Halt => Ok(stack)
      case Div => if stack[n - 1] == 0 then Err(DivisionByZero) else Checked(op, stack)
      case Add => Checked(op, stack)
      case Sub => Checked(op, stack)
      case Mul => Checked(op, stack)
      case Eq => Checked(op, stack)
      case Lt => Checked(op, stack)
  }

  /** The exact result of a two-operand instruction in place of its operands, if it fits. */
  function Checked(op: Instruction, stack: seq<i32>): Result<seq<i32>, FlatError>
    requires |stack| >= 2
    requires op.Add? || op.Sub? || op.Mul? || op.Eq? || op.Lt? || (op.Div? && stack[|stack| - 1] != 0)
  {
    var n := |stack|;
    var exact := Exactly(op, stack[n - 2], stack[n - 1]);
    if InI32(exact) then Ok(stack[..n - 2] + [exact]) else Err(IntegerOverflow(OperationName(op)))
  }

  /** One step of the VM. */
  function Step(code: Code, s: Flat): Result<Moved, FlatError> {
    if s.halted then Err(AlreadyHalted)
    else if s.ip >= |code| then Err(MissingHalt)
    else
      var op := code[s.ip];
      if (op.Jmp? || op.Jz?) && op.target >= |code| then Err(InvalidJump(op.target))
      else
        var stack := Effect(op, s.stack);
        if stack.Err? then Err(stack.error)
        else if op.Halt? then Ok(Moved(Flat(s.stack, s.ip + 1, true), Halted(s.stack[|s.stack| - 1])))
        else
          var taken := op.Jmp? || (op.Jz? && s.stack[|s.stack| - 1] == 0);
          Ok(Moved(Flat(stack.value, if taken then op.target else s.ip + 1, false), Executed(op)))
  }

  // ----- what each instruction means -----

  predicate TakesOne(op: Instruction) {
    op.Dup? || op.Pop? || op.Neg? || op.Not? || op.Jz? || op.Halt?
  }

  predicate TakesTwo(op: Instruction) {
    op.Add? || op.Sub? || op.Mul? || op.Div? || op.Eq? || op.Lt? || op.Swap? || op.Over?
  }

  /** `c` is what a two-operand instruction makes of its operands. */
  ghost predicate Makes(op: Instruction, lhs: int, rhs: int, c: int) {
    match op
    case Add => c - rhs == lhs
    case Sub => c + rhs == lhs
    case Mul => c == lhs * rhs
    case Div => Values.IsQuotient(lhs, rhs, c)
    case Eq => (c == 1 && lhs == rhs) || (c == 0 && lhs != rhs)
    case Lt => (c == 1 && lhs < rhs) || (c == 0 && rhs <= lhs)
    case _ => false
  }

  /** `t` is the stack `s` after the instruction; nothing below its operands is touched. */
  ghost predicate Leaves(op: Instruction, s: seq<i32>, t: seq<i32>)
    requires (TakesOne(op) ==> |s| >= 1) && (TakesTwo(op) ==> |s| >= 2)
  {
    var n := |s|;
    match op
    case Push(value) => t == s + [value]
    case Dup => t == s + [s[n - 1]]
    case Over => t == s + [s[n - 2]]
    case Pop => s == t + [s[n - 1]]
    case Swap => |t| == n && t[..n - 2] == s[..n - 2] && t[n - 2] == s[n - 1] && t[n - 1] == s[n - 2]
    case Neg => |t| == n && t[..n - 1] == s[..n - 1] && t[n - 1] == -(s[n - 1] as int)
    case Not => |t| == n && t[..n - 1] == s[..n - 1] && t[n - 1] == if s[n - 1] == 0 then 1 else 0
    case Jmp(_) => t == s
    case Jz(_) => s == t + [s[n - 1]]
    case Halt => t == s
    case _ => |t| == n - 1 && t[..n - 2] == s[..n - 2] && Makes(op, s[n - 2], s[n - 1], t[n - 2])
  }

  /** The exact result of the instruction is no 32-bit integer. */
  ghost predicate Overflows(op: Instruction, s: seq<i32>)
    requires (TakesOne(op) ==> |s| >= 1) && (TakesTwo(op) ==> |s| >= 2)
  {
    if op.Neg? then s[|s| - 1] == -0x8000_0000
    else
      && (op.Add? || op.Sub? || op.Mul? || op.Div?)
      && var lhs, rhs := s[|s| - 2], s[|s| - 1];
         forall c: i32 :: !Makes(op, lhs, rhs, c)
  }

  /** Where a step that succeeds goes: a taken jump to its target, anything else to the next instruction. */
  function Lands(op: Instruction, s: Flat): nat
    requires op.Jz? ==> s.stack != []
  {
    match op
    case Jmp(target) => target
    case Jz(target) => if s.stack[|s.stack| - 1] == 0 then target else s.ip + 1
    case _ => s.ip + 1
  }

  /** What the instruction must make of the stack, in the order the checks are made. */
  ghost predicate StackMeans(op: Instruction, s: seq<i32>, r: Result<seq<i32>, FlatError>) {
    var n := |s|;
    if op.Halt? && n == 0 then r == Err(EmptyStack)
    else if TakesOne(op) && n < 1 then r == Err(StackUnderflow(OperationName(op), 1, n))
    else if TakesTwo(op) && n < 2 then r == Err(StackUnderflow(OperationName(op), 2, n))
    else if (op.Push? || op.Dup? || op.Over?) && n >= MAX_STACK_DEPTH then r == Err(StackDepthExceeded(MAX_STACK_DEPTH))
    else if op.Div? && s[n - 1] == 0 then r == Err(DivisionByZero)
    else if Overflows(op, s) then r == Err(IntegerOverflow(OperationName(op)))
    else r.Ok? && Leaves(op, s, r.value)
  }

  /** The outcome the instruction at hand must have, in the order the checks are made. */
  ghost predicate StepMeans(code: Code, s: Flat, r: Result<Moved, FlatError>) {
    if s.halted then r == Err(AlreadyHalted)
    else if s.ip >= |code| then r == Err(MissingHalt)
    else
      var op := code[s.ip];
      if (op.Jmp? || op.Jz?) && op.target >= |code| then r == Err(InvalidJump(op.target))
      else
        && StackMeans(op, s.stack, if r.Ok? then Ok(r.value.next.stack) else Err(r.error))
        && (r.Ok? ==>
              && (op.Jz? || op.Halt? ==> s.stack != [])
              && r.value.next.ip == Lands(op, s) && (r.value.next.halted <==> op.Halt?)
              && r.value.report == if op.Halt? then Halted(s.stack[|s.stack| - 1]) else Executed(op))
  }

  /** A step has exactly the outcome its instruction must have. */
  lemma StepExact(code: Code, s: Flat, r: Result<Moved, FlatError>)
    ensures r == Step(code, s) <==> StepMeans(code, s, r)
  {
    StepObeys(code, s);
    if StepMeans(code, s, r) { OneOutcome(code, s, r, Step(code, s)); }
  }

  /** The exact result in place of two operands, or the overflow. */
  lemma CheckedMakes(op: Instruction, stack: seq<i32>)
    requires |stack| >= 2
    requires op.Add? || op.Sub? || op.Mul? || op.Eq? || op.Lt? || (op.Div? && stack[|stack| - 1] != 0)
    ensures match Checked(op, stack)
      case Ok(after) => Leaves(op, stack, after) && !Overflows(op, stack)
      case Err(e) => Overflows(op, stack) && e == IntegerOverflow(OperationName(op))
  {
    var lhs, rhs := stack[|stack| - 2], stack[|stack| - 1];
    forall c ensures Makes(op, lhs, rhs, c) <==> c == Exactly(op, lhs, rhs) {
      if op.Div? { Values.QuotientExact(lhs, rhs, c); }
    }
    hide Makes, Exactly;
    if Checked(op, stack).Ok? { assert Makes(op, lhs, rhs, Checked(op, stack).value[|stack| - 2]); }
  }

  /** The effect on the stack is what it must be. */
  lemma EffectObeys(op: Instruction, stack: seq<i32>)
    ensures StackMeans(op, stack, Effect(op, stack))
  {
    var n := |stack|;
    if op.Add? || op.Sub? || op.Mul? || op.Div? || op.Eq? || op.Lt? {
      if n >= 2 && !(op.Div? && stack[n - 1] == 0) { CheckedMakes(op, stack); }
      hide Checked, Makes, Leaves, Overflows;
    } else {
      PlainObeys(op, stack);
      hide Effect, StackMeans;
    }
  }

  lemma PlainObeys(op: Instruction, stack: seq<i32>)
    requires !(op.Add? || op.Sub? || op.Mul? || op.Div? || op.Eq? || op.Lt?)
    ensures StackMeans(op, stack, Effect(op, stack))
  {
    hide Checked, Makes;
  }

  lemma StepObeys(code: Code, s: Flat)
    ensures StepMeans(code, s, Step(code, s))
  {
    hide Effect, StackMeans;
    if s.ip < |code| {
      var op := code[s.ip];
      EffectObeys(op, s.stack);
      if Effect(op, s.stack).Ok? && (op.Jz? || op.Halt?) { JumpsTakeOne(op, s.stack); }
    }
  }

  lemma JumpsTakeOne(op: Instruction, stack: seq<i32>)
    requires Effect(op, stack).Ok? && (op.Jz? || op.Halt?)
    ensures stack != [] && (op.Halt? ==> Effect(op, stack) == Ok(stack))
  {
  }

  lemma OneOutcome(code: Code, s: Flat, a: Result<Moved, FlatError>, b: Result<Moved, FlatError>)
    requires StepMeans(code, s, a) && StepMeans(code, s, b)
    ensures a == b
  {
    hide StackMeans;
    if !s.halted && s.ip < |code| {
      var op := code[s.ip];
      if !((op.Jmp? || op.Jz?) && op.target >= |code|) {
        OneEffect(op, s.stack, if a.Ok? then Ok(a.value.next.stack) else Err(a.error),
          if b.Ok? then Ok(b.value.next.stack) else Err(b.error));
      }
    }
  }

  lemma OneEffect(op: Instruction, s: seq<i32>, a: Result<seq<i32>, FlatError>, b: Result<seq<i32>, FlatError>)
    requires StackMeans(op, s, a) && StackMeans(op, s, b)
    ensures a == b
  {
    hide Overflows, Leaves;
    if a.Ok? && b.Ok? { OneStack(op, s, a.value, b.value); }
  }

  lemma OneStack(op: Instruction, s: seq<i32>, t: seq<i32>, u: seq<i32>)
    requires (TakesOne(op) ==> |s| >= 1) && (TakesTwo(op) ==> |s| >= 2) && Leaves(op, s, t) && Leaves(op, s, u)
    ensures t == u
  {
    var n := |s|;
    if op.Div? {
      Values.QuotientExact(s[n - 2], s[n - 1], t[n - 2]);
      Values.QuotientExact(s[n - 2], s[n - 1], u[n - 2]);
    }
    if |t| == n - 1 && n >= 2 && !op.Pop? && !op.Jz? {
      assert t == t[..n - 2] + [t[n - 2]] && u == u[..n - 2] + [u[n - 2]];
    } else if op.Pop? || op.Jz? {
      assert t == s[..n - 1] && u == s[..n - 1];
    } else if op.Swap? {
      assert t == t[..n - 2] + [t[n - 2], t[n - 1]] && u == u[..n - 2] + [u[n - 2], u[n - 1]];
    } else if op.Neg? || op.Not? {
      assert t == t[..n - 1] + [t[n - 1]] && u == u[..n - 1] + [u[n - 1]];
    }
  }

  // ----- runs -----

  /** The state after one attempted step: a failing step changes nothing. */
  function Attempt(code: Code, s: Flat): Flat {
    var moved := Step(code, s);
    if moved.Ok? then moved.value.next else s
  }

  /** The state after `n` attempted steps. */
  function After(code: Code, s: Flat, n: nat): Flat {
    if n == 0 then s else Attempt(code, After(code, s, n - 1))
  }

  lemma {:induction false} AfterFirst(code: Code, s: Flat, n: nat)
    ensures After(code, s, n + 1) == After(code, Attempt(code, s), n)
  {
    hide Attempt;
    if n > 0 {
      AfterFirst(code, s, n - 1);
    } else {
      assert After(code, s, 1) == Attempt(code, After(code, s, 0));
    }
  }

  /** How at most `steps` steps from `s` end. */
  function Outcome(code: Code, s: Flat, steps: nat): Result<i32, FlatError>
    decreases steps
  {
    if steps == 0 then Err(StepLimitExceeded(MAX_VM_STEPS))
    else
      var moved := Step(code, s);
      if moved.Err? then Err(moved.error)
      else if moved.value.report.Halted? then Ok(moved.value.report.result)
      else Outcome(code, moved.value.next, steps - 1)
  }

  /** An outcome, read off the states of the run: a result is the top of the stack of the first halted state, an
      error is that of the first step to fail, and the limit is reached exactly when neither comes before it. */
  lemma {:induction false} OutcomeMeans(code: Code, s: Flat, steps: nat)
    requires !s.halted
    decreases steps
    ensures var r := Outcome(code, s, steps);
      && (r.Ok? ==> exists k: nat :: k < steps && GoesOn(code, s, k) && HaltsWith(code, After(code, s, k), r.value))
      && (r.Err? && !r.error.StepLimitExceeded? ==>
            exists k: nat :: k < steps && GoesOn(code, s, k) && Step(code, After(code, s, k)) == Err(r.error))
      && (r.Err? && r.error.StepLimitExceeded? ==> GoesOn(code, s, steps))
  {
    hide Step, GoesOn;
    if steps > 0 {
      var r := Outcome(code, s, steps);
      assert After(code, s, 0) == s;
      assert GoesOn(code, s, 0) by { NoneYet(code, s); }
      ReportTells(code, s);
      if Executes(code, s) {
        var next := Attempt(code, s);
        OutcomeMeans(code, next, steps - 1);
        if r.Ok? {
          var k: nat :| k < steps - 1 && GoesOn(code, next, k) && HaltsWith(code, After(code, next, k), r.value);
          LaterGoesOn(code, s, k);
          AfterFirst(code, s, k);
        } else if r.error.StepLimitExceeded? {
          LaterGoesOn(code, s, steps - 1);
        } else {
          var k: nat :| k < steps - 1 && GoesOn(code, next, k) && Step(code, After(code, next, k)) == Err(r.error);
          LaterGoesOn(code, s, k);
          AfterFirst(code, s, k);
        }
      }
    } else {
      NoneYet(code, s);
    }
  }

  lemma NoneYet(code: Code, s: Flat)
    ensures GoesOn(code, s, 0)
  {
  }

  /** The first `k` steps from `s` execute without halting. */
  ghost predicate GoesOn(code: Code, s: Flat, k: nat) {
    forall i: nat :: i < k ==> Executes(code, After(code, s, i))
  }

  /** A step that succeeds without halting. */
  predicate Executes(code: Code, s: Flat) {
    Step(code, s).Ok? && !Step(code, s).value.next.halted
  }

  ghost predicate HaltsWith(code: Code, s: Flat, result: i32) {
    && Step(code, s).Ok? && Step(code, s).value.next.halted
    && Step(code, s).value.next.stack == s.stack != [] && s.stack[|s.stack| - 1] == result
  }

  lemma LaterGoesOn(code: Code, s: Flat, k: nat)
    requires Executes(code, s) && GoesOn(code, Attempt(code, s), k)
    ensures GoesOn(code, s, k + 1)
  {
    hide Executes, Attempt;
    forall i: nat | i < k + 1 ensures Executes(code, After(code, s, i)) {
      if i > 0 {
        AfterFirst(code, s, i - 1);
        assert Executes(code, After(code, Attempt(code, s), i - 1));
      } else {
        assert After(code, s, 0) == s;
      }
    }
  }

  /** Steps that execute without halting can be taken off the front of an outcome. */
  lemma {:induction false} OutcomeAfter(code: Code, s: Flat, k: nat, steps: nat)
    requires GoesOn(code, s, k) && k <= steps
    ensures Outcome(code, s, steps) == Outcome(code, After(code, s, k), steps - k)
    decreases k
  {
    hide Step, Outcome;
    if k > 0 {
      OutcomeAfter(code, s, k - 1, steps);
      assert Executes(code, After(code, s, k - 1));
      OutcomeOne(code, After(code, s, k - 1), steps - (k - 1));
    }
  }

  lemma OutcomeOne(code: Code, s: Flat, steps: nat)
    requires Executes(code, s) && steps > 0
    ensures Outcome(code, s, steps) == Outcome(code, Attempt(code, s), steps - 1)
  {
    hide Step;
    ReportTells(code, s);
  }

  /** `t` follows `s` by one instruction that does not halt. */
  ghost predicate Leads(code: Code, s: Flat, t: Flat) {
    s.ip < |code| && !t.halted && StepMeans(code, s, Ok(Moved(t, Executed(code[s.ip]))))
  }

  /** States from the clean one on, each following from the one before. */
  ghost predicate IsRun(code: Code, run: seq<Flat>) {
    && run != [] && run[0] == START
    && forall i :: 0 <= i < |run| - 1 ==> Leads(code, run[i], run[i + 1])
  }

  /** The run ends as `r` says: by halting, by failing, or by using up its steps. */
  ghost predicate EndsWith(code: Code, run: seq<Flat>, steps: nat, r: Result<i32, FlatError>)
    requires run != []
  {
    match r
    case Ok(v) => |run| <= steps && exists last :: StepMeans(code, run[|run| - 1], Ok(Moved(last, Halted(v))))
    case Err(StepLimitExceeded(limit)) => |run| == steps + 1 && limit == MAX_VM_STEPS
    case Err(e) => |run| <= steps && StepMeans(code, run[|run| - 1], Err(e))
  }

  /** The outcome of a program is how a run of its instructions ends, each doing what it must. */
  lemma OutcomeIsRun(code: Code, steps: nat)
    ensures exists run :: IsRun(code, run) && EndsWith(code, run, steps, Outcome(code, START, steps))
  {
    hide Step, StepMeans, GoesOn, Outcome;
    var r := Outcome(code, START, steps);
    OutcomeMeans(code, START, steps);
    var k: nat;
    if r.Ok? {
      k :| k < steps && GoesOn(code, START, k) && HaltsWith(code, After(code, START, k), r.value);
    } else if r.error.StepLimitExceeded? {
      k := steps;
    } else {
      k :| k < steps && GoesOn(code, START, k) && Step(code, After(code, START, k)) == Err(r.error);
    }
    var run := States(code, k);
    StatesRun(code, k);
    var s := After(code, START, k);
    StepExact(code, s, Step(code, s));
    LimitIsOne(code, START, steps);
    if r.Ok? {
      ReportTells(code, s);
      assert StepMeans(code, run[k], Ok(Moved(Step(code, s).value.next, Halted(r.value))));
    }
    assert EndsWith(code, run, steps, r);
  }

  /** The states after 0 to `k` steps. */
  function States(code: Code, k: nat): seq<Flat> {
    seq(k + 1, i requires 0 <= i => After(code, START, i))
  }

  lemma StatesRun(code: Code, k: nat)
    requires GoesOn(code, START, k)
    ensures IsRun(code, States(code, k))
  {
    hide Step, StepMeans;
    forall i | 0 <= i < k ensures Leads(code, After(code, START, i), After(code, START, i + 1)) {
      var s := After(code, START, i);
      assert Executes(code, s);
      EntryTells(code, s);
      ReportTells(code, s);
      StepExact(code, s, Step(code, s));
    }
  }

  lemma {:induction false} LimitIsOne(code: Code, s: Flat, steps: nat)
    ensures var r := Outcome(code, s, steps);
      r.Err? && r.error.StepLimitExceeded? ==> r.error.limit == MAX_VM_STEPS
    decreases steps
  {
    hide Step;
    if steps > 0 {
      ReportTells(code, s);
      if Step(code, s).Ok? { LimitIsOne(code, Step(code, s).value.next, steps - 1); }
    }
  }

  // ----- soundness -----

  /** The state stands where some control-flow path leads, with the depth the path gives. */
  ghost predicate OnPath(code: Code, s: Flat) {
    exists p :: PathTo(code, p, s.ip) && DepthAlong(code, p) == |s.stack|
  }

  /** The only ways an accepted program can fail. */
  predicate Arithmetical(e: FlatError) {
    e.DivisionByZero? || e.IntegerOverflow?
  }

  lemma StepSound(code: Code, s: Flat, p: seq<nat>)
    requires Valid(code) && !s.halted && PathTo(code, p, s.ip) && DepthAlong(code, p) == |s.stack|
    ensures match Step(code, s)
      case Err(e) => Arithmetical(e)
      case Ok(moved) =>
        && |moved.next.stack| <= MAX_STACK_DEPTH
        && (moved.next.halted <==> code[s.ip].Halt?)
        && (!moved.next.halted ==> OnPath(code, moved.next))
  {
    hide Effect, DepthAlong, PathsAgree, Required;
    var op := code[s.ip];
    assert DepthAlong(code, p) >= Required(op) && NextDepth(op, DepthAlong(code, p)) <= MAX_STACK_DEPTH;
    StackAfter(op, s.stack);
    var moved := Step(code, s);
    if moved.Ok? && !op.Halt? {
      assert moved.value.next.ip in Successors(op, s.ip);
      SuccessorsInRange(code, s.ip);
      PathExtends(code, p, s.ip, moved.value.next.ip);
    }
  }

  /** The stack effect of an instruction is the one the analysis assumes. */
  lemma StackAfter(op: Instruction, stack: seq<i32>)
    requires |stack| >= Required(op) && NextDepth(op, |stack|) <= MAX_STACK_DEPTH
    ensures match Effect(op, stack)
      case Ok(after) => |after| == NextDepth(op, |stack|)
      case Err(e) => Arithmetical(e)
  {
  }

  /** Soundness: a valid program ends in a result, an arithmetic error or at the step limit. */
  lemma {:induction false} OutcomeSound(code: Code, s: Flat, steps: nat)
    requires Valid(code) && !s.halted && OnPath(code, s)
    decreases steps
    ensures var r := Outcome(code, s, steps);
      r.Err? ==> Arithmetical(r.error) || r.error.StepLimitExceeded?
  {
    hide Valid, Step, OnPath;
    if steps > 0 {
      StepFromPath(code, s);
      var moved := Step(code, s);
      if moved.Ok? && moved.value.report.Executed? {
        ReportTells(code, s);
        OutcomeSound(code, moved.value.next, steps - 1);
      }
    }
  }

  lemma StepFromPath(code: Code, s: Flat)
    requires Valid(code) && !s.halted && OnPath(code, s)
    ensures match Step(code, s)
      case Err(e) => Arithmetical(e)
      case Ok(moved) => !moved.next.halted ==> OnPath(code, moved.next)
  {
    hide Valid, Step, Path, DepthAlong;
    var p :| PathTo(code, p, s.ip) && DepthAlong(code, p) == |s.stack|;
    StepSound(code, s, p);
  }

  lemma ReportTells(code: Code, s: Flat)
    ensures var moved := Step(code, s);
      && (moved.Err? ==> !moved.error.StepLimitExceeded?)
      && (moved.Ok? ==> (moved.value.report.Halted? <==> moved.value.next.halted))
      && (moved.Ok? && moved.value.report.Halted? ==> HaltsWith(code, s, moved.value.report.result))
  {
  }

  /** At every step of every run the stack has exactly the depth of any path to the instruction at hand, and at
      most the recorded maximum. */
  lemma {:induction false} DepthInvariant(program: Program, n: nat)
    requires Accepted(program)
    ensures var s := After(program.instructions, START, n);
      && |s.stack| <= program.maxStackDepth <= MAX_STACK_DEPTH
      && (!s.halted ==> OnPath(program.instructions, s))
      && (!s.halted ==> forall p :: PathTo(program.instructions, p, s.ip) ==> DepthAlong(program.instructions, p) == |s.stack|)
  {
    hide PathTo, DepthAlong, PeakDepth, Valid, OnPath, Attempt;
    var code := program.instructions;
    var s := After(code, START, n);
    AcceptedDepths(program);
    if n > 0 {
      DepthInvariant(program, n - 1);
      DepthStep(program, After(code, START, n - 1));
    }
    if !s.halted { SameDepth(program, s); }
  }

  lemma AcceptedDepths(program: Program)
    requires Accepted(program)
    ensures program.maxStackDepth <= MAX_STACK_DEPTH && OnPath(program.instructions, START)
  {
    assert PathTo(program.instructions, [0], 0) && DepthAlong(program.instructions, [0]) == 0;
  }

  lemma SameDepth(program: Program, s: Flat)
    requires Accepted(program) && OnPath(program.instructions, s)
    ensures forall q :: PathTo(program.instructions, q, s.ip) ==> DepthAlong(program.instructions, q) == |s.stack|
  {
    hide Path, DepthAlong;
    var code := program.instructions;
    var p :| PathTo(code, p, s.ip) && DepthAlong(code, p) == |s.stack|;
    forall q | PathTo(code, q, s.ip) ensures DepthAlong(code, q) == |s.stack| {
      PathsMeet(code, p, q, s.ip);
    }
  }

  lemma PathsMeet(code: Code, p: seq<nat>, q: seq<nat>, ip: nat)
    requires PathsAgree(code) && PathTo(code, p, ip) && PathTo(code, q, ip)
    ensures DepthAlong(code, p) == DepthAlong(code, q)
  {
    hide DepthAlong;
  }

  lemma DepthStep(program: Program, s: Flat)
    requires Accepted(program) && |s.stack| <= program.maxStackDepth && (!s.halted ==> OnPath(program.instructions, s))
    ensures var next := Attempt(program.instructions, s);
      |next.stack| <= program.maxStackDepth && (!next.halted ==> OnPath(program.instructions, next))
  {
    if !s.halted {
      var code := program.instructions;
      var p :| PathTo(code, p, s.ip) && DepthAlong(code, p) == |s.stack|;
      StepSound(code, s, p);
      assert NextDepth(code[s.ip], DepthAlong(code, p)) <= program.maxStackDepth;
      if Step(code, s).Ok? { StackGrowth(code, s); }
    }
  }

  lemma StackGrowth(code: Code, s: Flat)
    requires !s.halted && Step(code, s).Ok?
    ensures |Step(code, s).value.next.stack| == NextDepth(code[s.ip], |s.stack|)
  {
  }

  lemma StartOnPath(code: Code)
    requires Valid(code)
    ensures OnPath(code, START)
  {
    assert PathTo(code, [0], 0) && DepthAlong(code, [0]) == 0;
  }

  /** Running any accepted program from the start ends in one of four ways. */
  lemma RunSound(program: Program, steps: nat)
    requires Accepted(program)
    ensures var r := Outcome(program.instructions, START, steps);
      r.Err? ==> r.error.DivisionByZero? || r.error.IntegerOverflow? || r.error.StepLimitExceeded?
  {
    AcceptedDepths(program);
    OutcomeSound(program.instructions, START, steps);
  }

  // ----- the machine -----

  /** The entry records the instruction run after `i` steps, the stack it left and the result if it halted. */
  predicate Traced(code: Code, entry: TraceEntry, i: nat) {
    var s, t := After(code, START, i), After(code, START, i + 1);
    && s.ip < |code| && entry.ip == s.ip && entry.instruction == code[s.ip] && entry.stack == t.stack
    && (if t.halted then t.stack != [] && entry.result == Some(t.stack[|t.stack| - 1]) else entry.result.None?)
  }

  /** What a method that reports a step has to say of it. */
  function Told(r: Result<StepResult, FlatError>, next: Flat): Result<Moved, FlatError> {
    if r.Ok? then Ok(Moved(next, r.value)) else Err(r.error)
  }

  lemma EntryTells(code: Code, s: Flat)
    ensures var moved := Step(code, s);
      moved.Ok? ==>
        && s.ip < |code|
        && if moved.value.report.Halted? then code[s.ip] == Halt else moved.value.report.instruction == code[s.ip]
  {
  }

  class Vm {
    var stack: seq<i32>
    var ip: nat
    var halted: bool

    constructor ()
      ensures State() == START
    {
      stack, ip, halted := [], 0, false;
    }

    /** A VM taken over in the given state. */
    constructor Resumed(s: Flat)
      ensures State() == s
    {
      stack, ip, halted := s.stack, s.ip, s.halted;
    }

    function State(): Flat
      reads this
    {
      Flat(stack, ip, halted)
    }

    method Reset()
      modifies this
      ensures State() == START
    {
      stack, ip, halted := [], 0, false;
    }

    /** Pushes a value unless the stack is at its bound. */
    method PushValue(value: i32) returns (err: Option<FlatError>)
      modifies this`stack
      ensures err.None? ==> |old(stack)| < MAX_STACK_DEPTH && stack == old(stack) + [value]
      ensures err.Some? ==> |stack| >= MAX_STACK_DEPTH && stack == old(stack) && err.value == StackDepthExceeded(MAX_STACK_DEPTH)
    {
      if |stack| >= MAX_STACK_DEPTH { return Some(StackDepthExceeded(MAX_STACK_DEPTH)); }
      stack := stack + [value];
      err := None;
    }

    /** Replaces the `count` topmost values by one. */
    method ReplaceTop(count: nat, value: i32)
      requires count <= |stack|
      modifies this`stack
      ensures stack == old(stack)[..|old(stack)| - count] + [value]
    {
      stack := stack[..|stack| - count];
      stack := stack + [value];
    }

    /** A checked two-operand instruction. */
    method Binary(op: Instruction) returns (err: Option<FlatError>)
      requires op.Add? || op.Sub? || op.Mul? || op.Div? || op.Eq? || op.Lt?
      modifies this`stack
      ensures match Effect(op, old(stack))
        case Ok(after) => err.None? && stack == after
        case Err(e) => err == Some(e) && stack == old(stack)
      ensures err.None? ==> |old(stack)| >= 2 && Leaves(op, old(stack), stack)
    {
      hide Makes;
      if |stack| >= 2 && !(op.Div? && stack[|stack| - 1] == 0) { CheckedMakes(op, stack); }
      if |stack| < 2 { return Some(StackUnderflow(OperationName(op), 2, |stack|)); }
      var lhs, rhs := stack[|stack| - 2], stack[|stack| - 1];
      if op.Div? && rhs == 0 { return Some(DivisionByZero); }
      var exact := Exactly(op, lhs, rhs);
      if !InI32(exact) { return Some(IntegerOverflow(OperationName(op))); }
      ReplaceTop(2, exact);
      err := None;
    }

    /** Instructions that take at most two operands one by one. */
    method Rearrange(op: Instruction) returns (err: Option<FlatError>)
      requires op.Push? || op.Dup? || op.Over? || op.Pop? || op.Swap? || op.Neg? || op.Not?
      modifies this`stack
      ensures match Effect(op, old(stack))
        case Ok(after) => err.None? && stack == after
        case Err(e) => err == Some(e) && stack == old(stack)
    {
      var n := |stack|;
      if n < Required(op) { return Some(StackUnderflow(OperationName(op), Required(op), n)); }
      match op
      case Push(value) => err := PushValue(value);
      case Dup => err := PushValue(stack[n - 1]);
      case Over => err := PushValue(stack[n - 2]);
      case Pop =>
        stack := stack[..n - 1];
        err := None;
      case Swap =>
        stack := stack[n - 1 := stack[n - 2]][n - 2 := stack[n - 1]];
        err := None;
      case Neg =>
        var exact := Negated(stack[n - 1]);
        if !InI32(exact) { return Some(IntegerOverflow("negate")); }
        ReplaceTop(1, exact);
        err := None;
      case Not =>
        var condition := stack[n - 1];
        stack := stack[..n - 1];
        stack := stack + [if condition == 0 then 1 else 0];
        err := None;
    }

    /** Applies one instruction of `code`, with the instruction pointer already past it. */
    method Execute(op: Instruction, length: nat, ghost code: Code) returns (r: Result<StepResult, FlatError>)
      requires !halted && 0 < ip <= |code| == length && code[ip - 1] == op
      modifies this
      ensures match Step(code, Flat(old(stack), old(ip) - 1, false))
        case Ok(moved) => r == Ok(moved.report) && State() == moved.next
        case Err(e) => r == Err(e) && stack == old(stack) && !halted
      ensures StepMeans(code, Flat(old(stack), old(ip) - 1, false), Told(r, State()))
    {
      hide StepMeans;
      ghost var was := Flat(stack, ip - 1, false);
      StepExact(code, was, Step(code, was));
      if op.Jmp? {
        if op.target >= length { return Err(InvalidJump(op.target)); }
        ip := op.target;
      } else if op.Jz? {
        if op.target >= length { return Err(InvalidJump(op.target)); }
        if stack == [] { return Err(StackUnderflow("jump-if-zero", 1, 0)); }
        var condition := stack[|stack| - 1];
        stack := stack[..|stack| - 1];
        if condition == 0 { ip := op.target; }
      } else if op.Halt? {
        if stack == [] { return Err(EmptyStack); }
        halted := true;
        return Ok(Halted(stack[|stack| - 1]));
      } else {
        var err: Option<FlatError>;
        if op.Add? || op.Sub? || op.Mul? || op.Div? || op.Eq? || op.Lt? {
          err := Binary(op);
        } else {
          err := Rearrange(op);
        }
        if err.Some? { return Err(err.value); }
      }
      r := Ok(Executed(op));
    }

    /** One instruction; an error leaves the whole state as it was. */
    method StepOnce(code: Code) returns (r: Result<StepResult, FlatError>)
      modifies this
      ensures match Step(code, old(State()))
        case Ok(moved) => r == Ok(moved.report) && State() == moved.next
        case Err(e) => r == Err(e) && State() == old(State())
      ensures StepMeans(code, old(State()), Told(r, State()))
    {
      hide StepMeans;
      StepExact(code, State(), Step(code, State()));
      if halted { return Err(AlreadyHalted); }
      var start := ip;
      if start >= |code| { return Err(MissingHalt); }
      ip := ip + 1;
      r := Execute(code[start], |code|, code);
      if r.Err? { ip := start; }
    }

    /** Runs from a clean state within the step budget. */
    method Run(code: Code) returns (r: Result<i32, FlatError>)
      modifies this
      ensures r == Outcome(code, START, MAX_VM_STEPS)
      ensures r.Ok? ==> halted && stack != [] && stack[|stack| - 1] == r.value
      ensures exists run :: IsRun(code, run) && EndsWith(code, run, MAX_VM_STEPS, r)
    {
      hide Step, StepMeans;
      OutcomeIsRun(code, MAX_VM_STEPS);
      Reset();
      for i := 0 to MAX_VM_STEPS
        invariant !halted && Outcome(code, START, MAX_VM_STEPS) == Outcome(code, State(), MAX_VM_STEPS - i)
      {
        ReportTells(code, State());
        var step := StepOnce(code);
        if step.Err? { return Err(step.error); }
        if step.value.Halted? { return Ok(step.value.result); }
      }
      r := Err(StepLimitExceeded(MAX_VM_STEPS));
    }

    /** A trace of the run: the same outcome, and at each position the step the run takes there. */
    method Trace(program: Program) returns (r: Result<seq<TraceEntry>, FlatError>)
      modifies this
      ensures var code := program.instructions;
        match r
        case Err(e) => Outcome(code, START, MAX_VM_STEPS) == Err(e)
        case Ok(entries) =>
          && entries != [] && GoesOn(code, START, |entries| - 1)
          && (forall i :: 0 <= i < |entries| ==> Traced(code, entries[i], i) && (entries[i].result.Some? <==> i == |entries| - 1))
          && Outcome(code, START, MAX_VM_STEPS) == Ok(entries[|entries| - 1].result.value)
    {
      hide Step;
      Reset();
      var code := program.instructions;
      var entries: seq<TraceEntry> := [];
      NoneYet(code, START);
      for i := 0 to MAX_VM_STEPS
        invariant !halted && |entries| == i && State() == After(code, START, i) && GoesOn(code, START, i)
        invariant Outcome(code, START, MAX_VM_STEPS) == Outcome(code, State(), MAX_VM_STEPS - i)
        invariant forall k :: 0 <= k < i ==> Traced(code, entries[k], k) && entries[k].result.None?
      {
        var at := ip;
        ghost var before := State();
        ReportTells(code, before);
        EntryTells(code, before);
        var step := StepOnce(code);
        if step.Err? { return Err(step.error); }
        var result := if step.value.Halted? then Some(step.value.result) else None;
        var instruction := if step.value.Halted? then Halt else step.value.instruction;
        entries := entries + [TraceEntry(at, instruction, stack, result)];
        assert Traced(code, entries[i], i);
        if result.Some? { return Ok(entries); }
      }
      r := Err(StepLimitExceeded(MAX_VM_STEPS));
    }
  }
}
