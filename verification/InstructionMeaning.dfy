/** What each instruction of the module machine means, read off its operands and the state before and after, without
    the functions that compute it. */
module InstructionMeaning {
  import opened Wrappers
  import opened OrderedMap
  import opened Values
  import opened Bytecode
  import opened ModuleBuilder
  import V = ValueMachine

  // ----- operations -----

  /** The name of a value's kind. */
  predicate Names(kind: Kind, v: OwnedValue) {
    match kind
    case NullKind => v.Null?
    case BoolKind => v.Bool?
    case IntegerKind => v.Integer?
    case TextKind => v.Text?
    case BytesKind => v.Bytes?
    case ListKind => v.List?
    case MapKind => v.Map?
    case _ => false
  }

  predicate Mismatched(expected: Kind, v: OwnedValue, e: VmError) {
    e.TypeMismatch? && e.expected == expected && Names(e.actual, v)
  }

  /** `c` is what an arithmetic instruction makes of two integers. */
  ghost predicate Makes(op: Op, lhs: int, rhs: int, c: int) {
    match op
    case Add => c - rhs == lhs
    case Sub => c + rhs == lhs
    case Mul => c == lhs * rhs
    case Div => IsQuotient(lhs, rhs, c)
    case _ => false
  }

  ghost predicate Fits(op: Op, lhs: int, rhs: int) {
    exists c: i64 :: Makes(op, lhs, rhs, c)
  }

  /** Two integers give the one 64-bit result there is, or an overflow when there is none. */
  ghost predicate IntegersMean(op: Op, lhs: OwnedValue, rhs: OwnedValue, r: Result<OwnedValue, VmError>) {
    if !lhs.Integer? then r.Err? && Mismatched(IntegerKind, lhs, r.error)
    else if !rhs.Integer? then r.Err? && Mismatched(IntegerKind, rhs, r.error)
    else if Fits(op, lhs.number, rhs.number) then r.Ok? && r.value.Integer? && Makes(op, lhs.number, rhs.number, r.value.number)
    else r == Err(IntegerOverflow)
  }

  predicate IsScalar(v: OwnedValue) {
    v.Null? || v.Bool? || v.Integer?
  }

  /** A collection no deeper than values may be. */
  ghost predicate Bounded(v: OwnedValue, r: Result<OwnedValue, VmError>) {
    r == if Height(v) > MAX_VALUE_DEPTH then Err(ValueDepthLimit) else Ok(v)
  }

  /** `after` answers `v` at `key` and what `before` answers at every other key. */
  ghost predicate Updated(before: OrdMap<OwnedValue>, key: string, v: OwnedValue, after: OrdMap<OwnedValue>) {
    forall q :: Get(after, q) == if q == key then Some(v) else Get(before, q)
  }

  ghost predicate EntryIs(entries: OrdMap<OwnedValue>, key: string, v: OwnedValue) {
    exists i :: 0 <= i < |entries.keys| && entries.keys[i] == key && entries.vals[i] == v
  }

  function Operands(op: Op): nat {
    if op.MapInsert? then 3 else if op.ListLen? then 1 else 2
  }

  /** The outcome an operation must have on its operands, deepest first, in the order the checks are made. */
  ghost predicate OperationMeans(op: Op, args: seq<OwnedValue>, r: Result<OwnedValue, VmError>)
    requires V.IsOperation(op) && |args| == Operands(op)
  {
    match op
    case Div =>
      if args[1].Integer? && args[1].number == 0 then r == Err(DivisionByZero)
      else if !args[1].Integer? then r.Err? && Mismatched(IntegerKind, args[1], r.error)
      else IntegersMean(op, args[0], args[1], r)
    case Eq =>
      if IsScalar(args[0]) && IsScalar(args[1]) then r.Ok? && r.value.Bool? && (r.value.flag <==> args[0] == args[1])
      else r == Err(TypeMismatch(Scalar, HeapKind))
    case Lt =>
      if !args[0].Integer? then r.Err? && Mismatched(IntegerKind, args[0], r.error)
      else if !args[1].Integer? then r.Err? && Mismatched(IntegerKind, args[1], r.error)
      else r.Ok? && r.value.Bool? && (r.value.flag <==> args[0].number < args[1].number)
    case ListLen =>
      if !args[0].List? then r.Err? && Mismatched(ListKind, args[0], r.error)
      else if |args[0].items| < 0x8000_0000_0000_0000 then r == Ok(Integer(|args[0].items|))
      else r == Err(IntegerOverflow)
    case ListPush =>
      if !args[0].List? then r.Err? && Mismatched(ListKind, args[0], r.error)
      else Bounded(List(args[0].items + [args[1]]), r)
    case ListGet =>
      if !args[1].Integer? then r.Err? && Mismatched(IntegerKind, args[1], r.error)
      else if args[1].number < 0 then r == Err(IndexOutOfBounds)
      else if !args[0].List? then r.Err? && Mismatched(ListKind, args[0], r.error)
      else r == if args[1].number < |args[0].items| then Ok(args[0].items[args[1].number]) else Err(IndexOutOfBounds)
    case MapInsert =>
      if !args[1].Text? then r.Err? && Mismatched(TextKind, args[1], r.error)
      else if !args[0].Map? then r.Err? && Mismatched(MapKind, args[0], r.error)
      else exists after: OrdMap<OwnedValue> :: Updated(args[0].entries, args[1].text, args[2], after) && Bounded(Map(after), r)
    case MapGet =>
      if !args[1].Text? then r.Err? && Mismatched(TextKind, args[1], r.error)
      else if !args[0].Map? then r.Err? && Mismatched(MapKind, args[0], r.error)
      else if args[1].text in args[0].entries.keys then r.Ok? && EntryIs(args[0].entries, args[1].text, r.value)
      else r == Err(MissingKey)
    case Add => IntegersMean(op, args[0], args[1], r)
    case Sub => IntegersMean(op, args[0], args[1], r)
    case Mul => IntegersMean(op, args[0], args[1], r)
  }

  lemma MakesExactly(op: Op, lhs: int, rhs: int, c: int)
    requires op.Add? || op.Sub? || op.Mul? || (op.Div? && rhs != 0)
    ensures Makes(op, lhs, rhs, c) <==> c == V.Arithmetic(op, lhs, rhs)
  {
    if op.Div? { QuotientExact(lhs, rhs, c); }
  }

  lemma IntegersExact(op: Op, lhs: OwnedValue, rhs: OwnedValue, r: Result<OwnedValue, VmError>)
    requires op.Add? || op.Sub? || op.Mul? || (op.Div? && (rhs.Integer? ==> rhs.number != 0))
    ensures r == V.IntegerOperation(op, lhs, rhs) <==> IntegersMean(op, lhs, rhs, r)
  {
    hide Makes, V.Arithmetic;
    if lhs.Integer? && rhs.Integer? {
      var n := V.Arithmetic(op, lhs.number, rhs.number);
      forall c: i64 ensures Makes(op, lhs.number, rhs.number, c) <==> c == n { MakesExactly(op, lhs.number, rhs.number, c); }
      if V.InI64(n) { MakesExactly(op, lhs.number, rhs.number, n); }
    }
  }

  lemma UpdatedExact(before: OrdMap<OwnedValue>, key: string, v: OwnedValue, after: OrdMap<OwnedValue>)
    ensures Updated(before, key, v, after) <==> after == Insert(before, key, v)
  {
    hide Get, Insert;
    forall q { GetAfterInsert(before, key, v, q); }
    if Updated(before, key, v, after) { Extensional(after, Insert(before, key, v)); }
  }

  lemma EntryExact(entries: OrdMap<OwnedValue>, key: string, v: OwnedValue)
    ensures EntryIs(entries, key, v) <==> Get(entries, key) == Some(v)
    ensures key in entries.keys <==> Get(entries, key).Some?
  {
    HasIsMembership(entries, key);
    if i :| 0 <= i < |entries.keys| && entries.keys[i] == key && entries.vals[i] == v { FoundAt(entries, key, i); }
  }

  /** An operation has exactly the outcome it must have. */
  lemma OperationExact(op: Op, args: seq<OwnedValue>, env: Env, r: Result<OwnedValue, VmError>)
    requires V.IsOperation(op) && |args| == Operands(op)
    ensures Required(op, env) == Operands(op)
    ensures r == V.Operate(op, args, env) <==> OperationMeans(op, args, r)
  {
    hide Height, Get, Insert, Updated, EntryIs, V.IntegerOperation, IntegersMean;
    if op.Add? || op.Sub? || op.Mul? || (op.Div? && (args[1].Integer? ==> args[1].number != 0)) {
      IntegersExact(op, args[0], args[1], r);
    } else if op.MapInsert? {
      InsertExact(args, r);
    } else if op.MapGet? && args[1].Text? && args[0].Map? {
      if r.Ok? { EntryExact(args[0].entries, args[1].text, r.value); } else { EntryExact(args[0].entries, args[1].text, Null); }
    }
  }

  lemma InsertExact(args: seq<OwnedValue>, r: Result<OwnedValue, VmError>)
    requires |args| == 3
    ensures r == V.PutEntry(args[0], args[1], args[2]) <==> OperationMeans(MapInsert, args, r)
  {
    hide Height, Get, Insert, Updated;
    if args[1].Text? && args[0].Map? {
      var m := Insert(args[0].entries, args[1].text, args[2]);
      UpdatedExact(args[0].entries, args[1].text, args[2], m);
      forall after | Updated(args[0].entries, args[1].text, args[2], after) ensures after == m {
        UpdatedExact(args[0].entries, args[1].text, args[2], after);
      }
    }
  }

  /** `r` is what the operation must give on these operands. */
  ghost predicate Obeys(op: Op, args: seq<OwnedValue>, r: Result<OwnedValue, VmError>) {
    V.IsOperation(op) && |args| == Operands(op) && OperationMeans(op, args, r)
  }

  lemma OperateObeys(op: Op, args: seq<OwnedValue>, env: Env)
    requires V.IsOperation(op) && |args| == Required(op, env)
    ensures Obeys(op, args, V.Operate(op, args, env))
  {
    hide OperationMeans, V.Operate;
    CountExact(op, env);
    OperationExact(op, args, env, V.Operate(op, args, env));
  }

  // ----- instructions that stay in their frame -----

  /** A frame past its instruction with one more value on top. */
  function Grown(top: V.Frame, v: OwnedValue): V.Frame {
    top.(stack := top.stack + [v], ip := top.ip + 1)
  }

  /** Which value a pushing instruction puts on the stack, once there is room for it. */
  ghost predicate PushMeans(m: Module, s: V.Machine, top: V.Frame, op: Op, r: Result<V.Frame, VmError>) {
    match op
    case Const(n) => r == Ok(Grown(top, Integer(n)))
    case ConstValue(index) => index < |m.constants| && r == Ok(Grown(top, m.constants[index]))
    case Input(index) => r == if index < |s.inputs| then Ok(Grown(top, s.inputs[index])) else Err(MissingInput)
    case LocalGet(slot) =>
      slot < |top.locals| &&
      r == if top.locals[slot].Some? then Ok(Grown(top, top.locals[slot].value)) else Err(UninitializedLocal)
    case LocalTake(slot) =>
      slot < |top.locals| &&
      r == if top.locals[slot].Some? then Ok(Grown(top, top.locals[slot].value).(locals := top.locals[slot := None]))
           else Err(UninitializedLocal)
    case ListNew => r == Ok(Grown(top, List([])))
    case MapNew => r == Ok(Grown(top, Map(Entries([], []))))
    case _ => false
  }

  /** The frame after an operation: its result stands where its operands stood. */
  ghost predicate ResultMeans(top: V.Frame, op: Op, r: Result<V.Frame, VmError>)
    requires V.IsOperation(op) && Operands(op) <= |top.stack|
  {
    var under := |top.stack| - Operands(op);
    var args := top.stack[under..];
    match r
    case Err(e) => OperationMeans(op, args, Err(e))
    case Ok(f) =>
      && |f.stack| == under + 1 && f == top.(stack := top.stack[..under] + [f.stack[under]], ip := top.ip + 1)
      && OperationMeans(op, args, Ok(f.stack[under]))
  }

  ghost predicate StayMeans(m: Module, s: V.Machine, op: Op, r: Result<V.Frame, VmError>)
    requires s.frames != []
  {
    var top := s.frames[|s.frames| - 1];
    var n := |top.stack|;
    if V.IsOperation(op) then
      if n < Operands(op) then r == Err(OperandStackUnderflow) else ResultMeans(top, op, r)
    else match op
      case LocalSet(slot) =>
        if n == 0 then r == Err(OperandStackUnderflow)
        else
          && slot < |top.locals|
          && r == Ok(top.(locals := top.locals[slot := Some(top.stack[n - 1])], stack := top.stack[..n - 1], ip := top.ip + 1))
      case Jump(target) => r == Ok(top.(ip := target))
      case JumpIfZero(target) =>
        if n == 0 then r == Err(OperandStackUnderflow)
        else
          var v := top.stack[n - 1];
          if v.Integer? || v.Bool? then
            var zero := v == Integer(0) || v == OwnedValue.Bool(false);
            r == Ok(top.(stack := top.stack[..n - 1], ip := if zero then target else top.ip + 1))
          else r.Err? && Mismatched(IntegerOrBool, v, r.error)
      case _ =>
        if n >= MAX_OPERAND_STACK then r == Err(OperandStackLimit)
        else if V.LiveSlots(s.frames) >= MAX_LIVE_SLOTS then r == Err(LiveSlotLimit)
        else PushMeans(m, s, top, op, r)
  }

  /** An instruction that stays in its frame has exactly the outcome it must have. */
  lemma StayExact(m: Module, s: V.Machine, r: Result<V.Frame, VmError>)
    requires CodeOk(m) && V.Standing(m, s)
    requires var op := V.OpAt(m, s); !op.Call? && !op.Import? && !op.Return?
    ensures r == V.TopStep(m, s) <==> StayMeans(m, s, V.OpAt(m, s), r)
  {
    hide OperationMeans, V.Operate, V.LiveSlots;
    var top := s.frames[|s.frames| - 1];
    var op := V.OpAt(m, s);
    var f := m.functions[top.function_];
    assert FunctionOk(f, m.Scope(), |m.constants|, m.inputCount);
    assert OpInRange(op, f, m.Scope()) && DataInRange(op, |m.constants|, m.inputCount);
    if V.IsOperation(op) {
      CountExact(op, m.Scope());
      if Operands(op) <= |top.stack| { ResultExact(m, top, op, r); }
    }
  }

  lemma CountExact(op: Op, env: Env)
    requires V.IsOperation(op)
    ensures Required(op, env) == Operands(op)
  {
  }

  lemma ResultExact(m: Module, top: V.Frame, op: Op, r: Result<V.Frame, VmError>)
    requires V.IsOperation(op) && Operands(op) <= |top.stack|
    ensures Required(op, m.Scope()) == Operands(op)
    ensures var under := |top.stack| - Operands(op);
      var v := V.Operate(op, top.stack[under..], m.Scope());
      ResultMeans(top, op, r) <==>
      r == if v.Err? then Err(v.error) else Ok(top.(stack := top.stack[..under] + [v.value], ip := top.ip + 1))
  {
    hide OperationMeans, V.Operate;
    CountExact(op, m.Scope());
    var under := |top.stack| - Operands(op);
    var args := top.stack[under..];
    OperationExact(op, args, m.Scope(), V.Operate(op, args, m.Scope()));
    match r
    case Err(e) => OperationExact(op, args, m.Scope(), Err(e));
    case Ok(f) => if |f.stack| == under + 1 { OperationExact(op, args, m.Scope(), Ok(f.stack[under])); }
  }

  // ----- one step -----

  /** A call: the arguments leave the caller's stack for the first locals of the callee, in order. */
  ghost predicate CallMeans(m: Module, s: V.Machine, callee: nat, r: Result<V.Machine, VmError>)
    requires s.frames != []
  {
    var k := |s.frames| - 1;
    var top := s.frames[k];
    var n := |top.stack|;
    && callee < |m.functions|
    && var f := m.functions[callee];
       if n < f.arity then r == Err(OperandStackUnderflow)
       else if |s.frames| >= MAX_CALL_FRAMES then r == Err(CallFrameLimit)
       else if V.LiveSlots(s.frames) - f.arity + f.localCount > MAX_LIVE_SLOTS then r == Err(LiveSlotLimit)
       else
         && r.Ok? && |r.value.frames| == k + 2
         && r.value == s.(frames := r.value.frames, steps := s.steps + 1)
         && r.value.frames[..k] == s.frames[..k]
         && r.value.frames[k] == top.(stack := top.stack[..n - f.arity], ip := top.ip + 1)
         && Enters(r.value.frames[k + 1], f, callee, top.stack[n - f.arity..])
  }

  /** A frame at the start of a function, with argument `i` in local `i` and every other local unset. */
  ghost predicate Enters(frame: V.Frame, f: Function, index: nat, args: seq<OwnedValue>) {
    && frame.function_ == index && frame.ip == 0 && frame.stack == [] && |frame.locals| == f.localCount
    && forall i :: 0 <= i < |frame.locals| ==> frame.locals[i] == if i < |args| then Some(args[i]) else None
  }

  /** A return: the value on top is the result, or goes on top of the caller's stack. */
  ghost predicate ReturnMeans(s: V.Machine, r: Result<V.Machine, VmError>)
    requires s.frames != []
  {
    var k := |s.frames| - 1;
    var stack := s.frames[k].stack;
    if stack == [] then r == Err(OperandStackUnderflow)
    else
      var v := stack[|stack| - 1];
      if k == 0 then r == Ok(s.(result := Some(v), steps := s.steps + 1))
      else if |s.frames[k - 1].stack| >= MAX_OPERAND_STACK then r == Err(OperandStackLimit)
      else
        var caller := s.frames[k - 1];
        r == Ok(s.(frames := s.frames[..k - 1] + [caller.(stack := caller.stack + [v])], steps := s.steps + 1))
  }

  /** The outcome a step must have. */
  ghost predicate StepMeans(m: Module, granted: set<string>, s: V.Machine, r: Result<V.Machine, VmError>)
    requires V.Standing(m, s)
  {
    var k := |s.frames| - 1;
    var op := m.functions[s.frames[k].function_].code[s.frames[k].ip];
    if s.pending.Some? then r == Err(VmError.ImportPending)
    else if s.result.Some? then r == Err(AlreadyFinished)
    else if s.steps >= MAX_MODULE_STEPS then r == Err(StepLimit)
    else match op
      case Call(callee) => CallMeans(m, s, callee, r)
      case Return => ReturnMeans(s, r)
      case Import(index) =>
        && index < |m.imports|
        && r == if m.imports[index].name in granted then Ok(s.(pending := Some(index))) else Err(ImportDenied)
      case _ =>
        match r
        case Err(e) => StayMeans(m, s, op, Err(e))
        case Ok(t) =>
          && |t.frames| == k + 1 && t == s.(frames := s.frames[..k] + [t.frames[k]], steps := s.steps + 1)
          && StayMeans(m, s, op, Ok(t.frames[k]))
  }

  ghost predicate Steps(m: Module, granted: set<string>, s: V.Machine, r: Result<V.Machine, VmError>) {
    V.Standing(m, s) && StepMeans(m, granted, s, r)
  }

  /** A step has exactly the outcome its instruction must have. */
  lemma StepExact(m: Module, granted: set<string>, s: V.Machine, r: Result<V.Machine, VmError>)
    requires CodeOk(m) && V.Standing(m, s)
    ensures r == V.Step(m, granted, s) <==> StepMeans(m, granted, s, r)
  {
    hide V.TopStep, StayMeans, CallMeans, ReturnMeans, V.CallStep, V.ReturnStep, V.ReplaceTop;
    var op := V.OpAt(m, s);
    var f := m.functions[s.frames[|s.frames| - 1].function_];
    assert FunctionOk(f, m.Scope(), |m.constants|, m.inputCount);
    assert OpInRange(op, f, m.Scope());
    if op.Call? {
      CallExact(m, s, r);
    } else if op.Return? {
      ReturnExact(s, r);
    } else if !op.Import? {
      StayStepExact(m, s, r);
    }
  }

  lemma StayStepExact(m: Module, s: V.Machine, r: Result<V.Machine, VmError>)
    requires CodeOk(m) && V.Standing(m, s)
    requires var op := V.OpAt(m, s); !op.Call? && !op.Import? && !op.Return?
    ensures var op, k, top := V.OpAt(m, s), |s.frames| - 1, V.TopStep(m, s);
      (match r
       case Err(e) => StayMeans(m, s, op, Err(e))
       case Ok(t) =>
         && |t.frames| == k + 1 && t == s.(frames := s.frames[..k] + [t.frames[k]], steps := s.steps + 1)
         && StayMeans(m, s, op, Ok(t.frames[k])))
      <==>
      r == if top.Err? then Err(top.error) else Ok(s.(frames := V.ReplaceTop(s.frames, top.value), steps := s.steps + 1))
  {
    hide V.TopStep, StayMeans, CodeOk;
    var k, top := |s.frames| - 1, V.TopStep(m, s);
    StayExact(m, s, top);
    if top.Ok? { assert V.ReplaceTop(s.frames, top.value) == s.frames[..k] + [top.value]; }
    match r
    case Err(e) => StayExact(m, s, Err(e));
    case Ok(t) => if |t.frames| == k + 1 { StayExact(m, s, Ok(t.frames[k])); }
  }

  lemma CallExact(m: Module, s: V.Machine, r: Result<V.Machine, VmError>)
    requires CodeOk(m) && V.Standing(m, s) && V.OpAt(m, s).Call?
    ensures r == V.CallStep(m, s) <==> CallMeans(m, s, V.OpAt(m, s).callee, r)
  {
    hide V.LiveSlots;
    var k := |s.frames| - 1;
    var top, op := s.frames[k], V.OpAt(m, s);
    var owner := m.functions[top.function_];
    assert FunctionOk(owner, m.Scope(), |m.constants|, m.inputCount);
    assert OpInRange(op, owner, m.Scope());
    var f := m.functions[op.callee];
    assert FunctionOk(f, m.Scope(), |m.constants|, m.inputCount);
    if f.arity <= |top.stack| {
      var args := top.stack[|top.stack| - f.arity..];
      var caller := top.(stack := top.stack[..|top.stack| - f.arity], ip := top.ip + 1);
      var next := V.ReplaceTop(s.frames, caller) + [V.Entered(f, op.callee, args)];
      assert next[..k] == s.frames[..k] && next[k] == caller;
      assert Enters(V.Entered(f, op.callee, args), f, op.callee, args);
      if CallMeans(m, s, op.callee, r) && r.Ok? {
        var now := r.value.frames;
        EntersOnce(now[k + 1], f, op.callee, args);
        assert now == now[..k] + [now[k], now[k + 1]];
        assert next == next[..k] + [next[k], next[k + 1]];
      }
    }
  }

  lemma EntersOnce(frame: V.Frame, f: Function, index: nat, args: seq<OwnedValue>)
    requires Enters(frame, f, index, args) && |args| <= f.localCount
    ensures frame == V.Entered(f, index, args)
  {
    assert frame.locals == V.Entered(f, index, args).locals;
  }

  lemma ReturnExact(s: V.Machine, r: Result<V.Machine, VmError>)
    requires s.frames != []
    ensures r == V.ReturnStep(s) <==> ReturnMeans(s, r)
  {
    var k := |s.frames| - 1;
    if k > 0 && s.frames[k].stack != [] {
      var caller, v := s.frames[k - 1], s.frames[k].stack[|s.frames[k].stack| - 1];
      var next := caller.(stack := caller.stack + [v]);
      assert V.ReplaceTop(s.frames[..k], next) == s.frames[..k - 1] + [next];
    }
  }

  /** The outcome resuming a suspended import must have: the host's value stands where the arguments stood. */
  ghost predicate ResumeMeans(m: Module, s: V.Machine, v: OwnedValue, r: Result<V.Machine, VmError>)
    requires V.Standing(m, s) && V.ArgumentsPresent(m, s)
  {
    var k := |s.frames| - 1;
    var top := s.frames[k];
    if s.pending.None? then r == Err(NoPendingImport)
    else
      var under := |top.stack| - m.imports[s.pending.value].arity;
      if under == |top.stack| && |top.stack| >= MAX_OPERAND_STACK then r == Err(OperandStackLimit)
      else if under == |top.stack| && V.LiveSlots(s.frames) >= MAX_LIVE_SLOTS then r == Err(OperandStackLimit)
      else if Height(v) > MAX_VALUE_DEPTH then r == Err(ValueDepthLimit)
      else
        && r.Ok?
        && r.value == V.Machine(s.frames[..k] + [V.Frame(top.function_, top.ip + 1, top.locals, top.stack[..under] + [v])],
                                s.steps + 1, s.result, s.inputs, None)
  }

  ghost predicate Resumes(m: Module, s: V.Machine, v: OwnedValue, r: Result<V.Machine, VmError>) {
    V.Standing(m, s) && V.ArgumentsPresent(m, s) && ResumeMeans(m, s, v, r)
  }

  lemma ResumeObeys(m: Module, s: V.Machine, v: OwnedValue)
    requires V.Standing(m, s) && V.ArgumentsPresent(m, s)
    ensures Resumes(m, s, v, V.Resume(m, s, v))
  {
    ResumeExact(m, s, v, V.Resume(m, s, v));
  }

  lemma ResumeExact(m: Module, s: V.Machine, v: OwnedValue, r: Result<V.Machine, VmError>)
    requires V.Standing(m, s) && V.ArgumentsPresent(m, s)
    ensures r == V.Resume(m, s, v) <==> ResumeMeans(m, s, v, r)
  {
    hide Height, V.LiveSlots;
    if s.pending.Some? {
      var k := |s.frames| - 1;
      var top := s.frames[k];
      var next := V.Frame(top.function_, top.ip + 1, top.locals, top.stack[..|top.stack| - m.imports[s.pending.value].arity] + [v]);
      assert V.ReplaceTop(s.frames, next) == s.frames[..k] + [next];
    }
  }
}
