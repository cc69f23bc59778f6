/** The module machine with value semantics: every local and operand is an immutable tree, so nothing is
    shared and nothing is changed in place. It has no heap and no heap limit. */
module ValueMachine {
  import opened Wrappers
  import opened OrderedMap
  import opened Values
  import opened Bytecode
  import opened FunctionValidator
  import opened ModuleBuilder

  datatype Frame = Frame(function_: nat, ip: nat, locals: seq<Option<OwnedValue>>, stack: seq<OwnedValue>)

  datatype Machine = Machine(
    frames: seq<Frame>,
    steps: nat,
    result: Option<OwnedValue>,
    inputs: seq<OwnedValue>,
    pending: Option<nat>)

  // ----- operand operations -----

  function KindOf(v: OwnedValue): Kind {
    match v
    case Null => NullKind
    case Bool(_) => BoolKind
    case Integer(_) => IntegerKind
    case Text(_) => TextKind
    case Bytes(_) => BytesKind
    case List(_) => ListKind
    case Map(_) => MapKind
  }

  predicate IsHeap(v: OwnedValue) {
    v.Text? || v.Bytes? || v.List? || v.Map?
  }

  predicate InI64(n: int) {
    -0x8000_0000_0000_0000 <= n < 0x8000_0000_0000_0000
  }

  /** A checked two-operand integer instruction; `n` is its exact mathematical result. */
  function Arithmetic(op: Op, a: int, b: int): int
    requires op.Add? || op.Sub? || op.Mul? || (op.Div? && b != 0)
  {
    match op
    case Add => a + b
    case Sub => a - b
    case Mul => a * b
    case Div => TruncatedDiv(a, b)
  }

  /** Instructions that replace their operands by one result. */
  predicate IsOperation(op: Op) {
    op.Add? || op.Sub? || op.Mul? || op.Div? || op.Eq? || op.Lt? ||
    op.ListPush? || op.ListGet? || op.ListLen? || op.MapInsert? || op.MapGet?
  }

  function Mismatch(expected: Kind, v: OwnedValue): Result<OwnedValue, VmError> {
    Err(TypeMismatch(expected, KindOf(v)))
  }

  function IntegerOperation(op: Op, lhs: OwnedValue, rhs: OwnedValue): Result<OwnedValue, VmError>
    requires op.Add? || op.Sub? || op.Mul? || (op.Div? && (rhs.Integer? ==> rhs.number != 0))
  {
    if !lhs.Integer? then Mismatch(IntegerKind, lhs)
    else if !rhs.Integer? then Mismatch(IntegerKind, rhs)
    else
      var n := Arithmetic(op, lhs.number, rhs.number);
      if InI64(n) then Ok(Integer(n)) else Err(IntegerOverflow)
  }

  function Compare(op: Op, lhs: OwnedValue, rhs: OwnedValue): Result<OwnedValue, VmError>
    requires op.Eq? || op.Lt?
  {
    if op.Eq? then
      if IsHeap(lhs) || IsHeap(rhs) then Err(TypeMismatch(Scalar, HeapKind)) else Ok(Bool(lhs == rhs))
    else if !lhs.Integer? then Mismatch(IntegerKind, lhs)
    else if !rhs.Integer? then Mismatch(IntegerKind, rhs)
    else Ok(Bool(lhs.number < rhs.number))
  }

  ghost function Push(list: OwnedValue, v: OwnedValue): Result<OwnedValue, VmError> {
    if !list.List? then Mismatch(ListKind, list)
    else
      var r := List(list.items + [v]);
      if Height(r) > MAX_VALUE_DEPTH then Err(ValueDepthLimit) else Ok(r)
  }

  ghost function PutEntry(m: OwnedValue, key: OwnedValue, v: OwnedValue): Result<OwnedValue, VmError> {
    if !key.Text? then Mismatch(TextKind, key)
    else if !m.Map? then Mismatch(MapKind, m)
    else
      var r := Map(Insert(m.entries, key.text, v));
      if Height(r) > MAX_VALUE_DEPTH then Err(ValueDepthLimit) else Ok(r)
  }

  function ItemAt(list: OwnedValue, index: OwnedValue): Result<OwnedValue, VmError> {
    if !index.Integer? then Mismatch(IntegerKind, index)
    else if index.number < 0 then Err(IndexOutOfBounds)
    else if !list.List? then Mismatch(ListKind, list)
    else if index.number >= |list.items| then Err(IndexOutOfBounds)
    else Ok(list.items[index.number])
  }

  function EntryAt(m: OwnedValue, key: OwnedValue): Result<OwnedValue, VmError> {
    if !key.Text? then Mismatch(TextKind, key)
    else if !m.Map? then Mismatch(MapKind, m)
    else
      var found := Get(m.entries, key.text);
      if found.None? then Err(MissingKey) else Ok(found.value)
  }

  /** Every index of a list after a push: the old items, then the new one, then nothing. */
  lemma PushThenGet(list: OwnedValue, v: OwnedValue, i: i64)
    requires Push(list, v).Ok?
    ensures ItemAt(Push(list, v).value, Integer(i)) ==
      if 0 <= i < |list.items| then Ok(list.items[i]) else if i == |list.items| then Ok(v) else Err(IndexOutOfBounds)
  {
    hide Height;
  }

  /** Every key of a map after an insertion: the new value under the new key, the old answer under any other. */
  lemma PutThenGet(m: OwnedValue, key: string, v: OwnedValue, q: string)
    requires PutEntry(m, Text(key), v).Ok?
    ensures EntryAt(PutEntry(m, Text(key), v).value, Text(q)) == if q == key then Ok(v) else EntryAt(m, Text(q))
  {
    hide Height, Get, Insert;
    GetAfterInsert(m.entries, key, v, q);
  }

  /** The result of an operation on its operands, deepest first. */
  ghost function Operate(op: Op, args: seq<OwnedValue>, env: Env): Result<OwnedValue, VmError>
    requires IsOperation(op) && |args| == Required(op, env)
  {
    match op
    case ListLen =>
      if !args[0].List? then Mismatch(ListKind, args[0])
      else if !InI64(|args[0].items|) then Err(IntegerOverflow)
      else Ok(Integer(|args[0].items|))
    case MapInsert => PutEntry(args[0], args[1], args[2])
    case Div =>
      if !args[1].Integer? then Mismatch(IntegerKind, args[1])
      else if args[1].number == 0 then Err(DivisionByZero)
      else IntegerOperation(op, args[0], args[1])
    case Eq => Compare(op, args[0], args[1])
    case Lt => Compare(op, args[0], args[1])
    case ListPush => Push(args[0], args[1])
    case ListGet => ItemAt(args[0], args[1])
    case MapGet => EntryAt(args[0], args[1])
    case Add => IntegerOperation(op, args[0], args[1])
    case Sub => IntegerOperation(op, args[0], args[1])
    case Mul => IntegerOperation(op, args[0], args[1])
  }

  // ----- one step -----

  function LiveSlots(frames: seq<Frame>): nat {
    if frames == [] then 0
    else
      var top := frames[|frames| - 1];
      LiveSlots(frames[..|frames| - 1]) + |top.locals| + |top.stack|
  }

  /** The limits on growing the top frame's stack. */
  function PushLimit(stack: nat, live: nat): Option<VmError> {
    if stack >= MAX_OPERAND_STACK then Some(OperandStackLimit)
    else if live >= MAX_LIVE_SLOTS then Some(LiveSlotLimit)
    else None
  }

  predicate IsPush(op: Op) {
    op.Const? || op.ConstValue? || op.Input? || op.LocalGet? || op.LocalTake? || op.ListNew? || op.MapNew?
  }

  /** The machine stands at an instruction of its module. */
  ghost predicate Standing(m: Module, s: Machine) {
    && s.frames != []
    && var top := s.frames[|s.frames| - 1];
    && top.function_ < |m.functions|
    && top.ip < |m.functions[top.function_].code|
    && |top.locals| == m.functions[top.function_].localCount
  }

  ghost function OpAt(m: Module, s: Machine): Op
    requires Standing(m, s)
  {
    var top := s.frames[|s.frames| - 1];
    m.functions[top.function_].code[top.ip]
  }

  /** The value a pushing instruction puts on the stack. */
  function Pushed(m: Module, top: Frame, inputs: seq<OwnedValue>, op: Op): Result<OwnedValue, VmError>
    requires IsPush(op) && DataInRange(op, |m.constants|, m.inputCount)
    requires op.LocalGet? || op.LocalTake? ==> op.slot < |top.locals|
  {
    match op
    case Const(n) => Ok(Integer(n))
    case ConstValue(index) => Ok(m.constants[index])
    case Input(index) => if index < |inputs| then Ok(inputs[index]) else Err(MissingInput)
    case LocalGet(slot) => if top.locals[slot].Some? then Ok(top.locals[slot].value) else Err(UninitializedLocal)
    case LocalTake(slot) => if top.locals[slot].Some? then Ok(top.locals[slot].value) else Err(UninitializedLocal)
    case ListNew => Ok(List([]))
    case MapNew => Ok(Map(Entries([], [])))
  }

  function IsZero(v: OwnedValue): Result<bool, VmError> {
    match v
    case Integer(n) => Ok(n == 0)
    case Bool(b) => Ok(!b)
    case _ => Err(TypeMismatch(IntegerOrBool, KindOf(v)))
  }

  /** The new top frame after an instruction that stays in its frame. */
  ghost function TopStep(m: Module, s: Machine): Result<Frame, VmError>
    requires CodeOk(m) && Standing(m, s) && !OpAt(m, s).Call? && !OpAt(m, s).Import? && !OpAt(m, s).Return?
  {
    var top := s.frames[|s.frames| - 1];
    var op := OpAt(m, s);
    var n := |top.stack|;
    assert FunctionOk(m.functions[top.function_], m.Scope(), |m.constants|, m.inputCount);
    assert OpInRange(op, m.functions[top.function_], m.Scope()) && DataInRange(op, |m.constants|, m.inputCount);
    if IsPush(op) then
      var limit := PushLimit(n, LiveSlots(s.frames));
      if limit.Some? then Err(limit.value)
      else
        var v := Pushed(m, top, s.inputs, op);
        if v.Err? then Err(v.error)
        else
          var locals := if op.LocalTake? then top.locals[op.slot := None] else top.locals;
          Ok(top.(locals := locals, stack := top.stack + [v.value], ip := top.ip + 1))
    else if IsOperation(op) then
      var count := Required(op, m.Scope());
      if n < count then Err(OperandStackUnderflow)
      else
        var v := Operate(op, top.stack[n - count..], m.Scope());
        if v.Err? then Err(v.error)
        else Ok(top.(stack := top.stack[..n - count] + [v.value], ip := top.ip + 1))
    else match op
      case LocalSet(slot) =>
        if n == 0 then Err(OperandStackUnderflow)
        else Ok(top.(locals := top.locals[slot := Some(top.stack[n - 1])], stack := top.stack[..n - 1], ip := top.ip + 1))
      case JumpIfZero(target) =>
        if n == 0 then Err(OperandStackUnderflow)
        else
          var zero := IsZero(top.stack[n - 1]);
          if zero.Err? then Err(zero.error)
          else Ok(top.(stack := top.stack[..n - 1], ip := if zero.value then target else top.ip + 1))
      case Jump(target) => Ok(top.(ip := target))
  }

  function ReplaceTop(frames: seq<Frame>, top: Frame): seq<Frame>
    requires frames != []
  {
    frames[|frames| - 1 := top]
  }

  /** A frame entered with its parameters. */
  function Entered(f: Function, index: nat, args: seq<OwnedValue>): Frame
    requires |args| <= f.localCount
  {
    Frame(index, 0, seq(f.localCount, i requires 0 <= i => if i < |args| then Some(args[i]) else None), [])
  }

  ghost function CallStep(m: Module, s: Machine): Result<Machine, VmError>
    requires Standing(m, s) && OpAt(m, s).Call?
    requires CodeOk(m)
  {
    var top := s.frames[|s.frames| - 1];
    assert FunctionOk(m.functions[top.function_], m.Scope(), |m.constants|, m.inputCount);
    assert OpInRange(OpAt(m, s), m.functions[top.function_], m.Scope());
    var callee := OpAt(m, s).callee;
    var f := m.functions[callee];
    assert FunctionOk(f, m.Scope(), |m.constants|, m.inputCount);
    var n := |top.stack|;
    if n < f.arity then Err(OperandStackUnderflow)
    else if |s.frames| >= MAX_CALL_FRAMES then Err(CallFrameLimit)
    else if LiveSlots(s.frames) - f.arity + f.localCount > MAX_LIVE_SLOTS then Err(LiveSlotLimit)
    else
      var caller := top.(stack := top.stack[..n - f.arity], ip := top.ip + 1);
      Ok(s.(frames := ReplaceTop(s.frames, caller) + [Entered(f, callee, top.stack[n - f.arity..])], steps := s.steps + 1))
  }

  function ReturnStep(s: Machine): Result<Machine, VmError>
    requires s.frames != []
  {
    var n := |s.frames| - 1;
    var top := s.frames[n];
    if top.stack == [] then Err(OperandStackUnderflow)
    else
      var v := top.stack[|top.stack| - 1];
      if n == 0 then Ok(s.(result := Some(v), steps := s.steps + 1))
      else
        var caller := s.frames[n - 1];
        if |caller.stack| >= MAX_OPERAND_STACK then Err(OperandStackLimit)
        else Ok(s.(frames := ReplaceTop(s.frames[..n], caller.(stack := caller.stack + [v])), steps := s.steps + 1))
  }

  ghost function Step(m: Module, granted: set<string>, s: Machine): Result<Machine, VmError>
    requires Standing(m, s)
    requires CodeOk(m)
  {
    var op := OpAt(m, s);
    if s.pending.Some? then Err(VmError.ImportPending)
    else if s.result.Some? then Err(AlreadyFinished)
    else if s.steps >= MAX_MODULE_STEPS then Err(StepLimit)
    else match op
      case Call(_) => CallStep(m, s)
      case Return => ReturnStep(s)
      case Import(index) =>
        var f := m.functions[s.frames[|s.frames| - 1].function_];
        assert FunctionOk(f, m.Scope(), |m.constants|, m.inputCount);
        assert OpInRange(op, f, m.Scope());
        if m.imports[index].name !in granted then Err(ImportDenied) else Ok(s.(pending := Some(index)))
      case _ =>
        var top := TopStep(m, s);
        if top.Err? then Err(top.error)
        else Ok(s.(frames := ReplaceTop(s.frames, top.value), steps := s.steps + 1))
  }

  /** The arguments of a pending import are on the stack. */
  ghost predicate ArgumentsPresent(m: Module, s: Machine)
    requires Standing(m, s)
  {
    s.pending.Some? ==>
      s.pending.value < |m.imports| && m.imports[s.pending.value].arity <= |s.frames[|s.frames| - 1].stack|
  }

  /** `resume_import` with a host value. */
  ghost function Resume(m: Module, s: Machine, v: OwnedValue): Result<Machine, VmError>
    requires Standing(m, s) && ArgumentsPresent(m, s)
  {
    if s.pending.None? then Err(NoPendingImport)
    else
      var arity := m.imports[s.pending.value].arity;
      var top := s.frames[|s.frames| - 1];
      var n := |top.stack|;
      if arity == 0 && (n >= MAX_OPERAND_STACK || LiveSlots(s.frames) >= MAX_LIVE_SLOTS) then Err(OperandStackLimit)
      else if Height(v) > MAX_VALUE_DEPTH then Err(ValueDepthLimit)
      else
        var resumed := top.(stack := top.stack[..n - arity] + [v], ip := top.ip + 1);
        Ok(s.(frames := ReplaceTop(s.frames, resumed), steps := s.steps + 1, pending := None))
  }
}
