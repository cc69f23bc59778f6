/** The module VM: frames of shared values over a reference-counted heap. Seen through the trees its values
    stand for, every method does what the value-semantics machine does. */
module ModuleVm {
  import opened Wrappers
  import opened OrderedMap
  import opened Values
  import opened HeapModel
  import opened SharedHeap
  import opened Bytecode
  import opened ModuleBuilder
  import opened VmFrames
  import opened InstructionMeaning
  import Operations
  import V = ValueMachine
  import Safety = ModuleSafety

  // ----- replacing the top frame -----

  function ReplaceTop(frames: seq<Frame>, top: Frame): seq<Frame>
    requires frames != []
  {
    frames[|frames| - 1 := top]
  }

  lemma TopReplaced(h: seq<Cell>, g: seq<Cell>, frames: seq<Frame>, top: Frame, others: multiset<Value>)
    requires frames != [] && Keeps(h, g, others) && FramesRefs(frames[..|frames| - 1]) <= others
    ensures ViewFrames(g, ReplaceTop(frames, top)) == V.ReplaceTop(ViewFrames(h, frames), ViewFrame(g, top))
    ensures FramesRefs(ReplaceTop(frames, top)) == FramesRefs(frames[..|frames| - 1]) + FrameRefs(top)
  {
    hide Tree, Keeps, LocalRefs, FrameRefs, ViewFrame, Trees;
    var n := |frames| - 1;
    var rest := frames[..n];
    assert ReplaceTop(frames, top)[..n] == rest;
    FramesKept(h, g, others, rest);
    forall i | 0 <= i < n ensures ViewFrame(g, frames[i]) == ViewFrame(h, frames[i]) {
      assert ViewFrames(g, rest)[i] == ViewFrames(h, rest)[i];
    }
  }

  /** Seen as values, the frames changed only in the top one, which became `want`. */
  ghost predicate TopBecomes(h: seq<Cell>, was: seq<Frame>, g: seq<Cell>, now: seq<Frame>, want: V.Frame)
    requires was != []
  {
    ViewFrames(g, now) == V.ReplaceTop(ViewFrames(h, was), want)
  }

  /** A frame past its instruction, without the operands that took. */
  function Past(top: Frame, count: nat): Frame
    requires count <= |top.stack|
  {
    top.(stack := top.stack[..|top.stack| - count], ip := top.ip + 1)
  }

  /** What `step` reports; a result in it is a handle of its own. */
  datatype ModuleStep = ModuleStep(function_: nat, ip: nat, instruction: Op, result: Option<Value>)

  /** A host request emitted at an import instruction. */
  datatype ImportRequest = ImportRequest(name: string, arguments: seq<OwnedValue>)

  /** References outside the frames that take in one more, seen with the frames'. */
  lemma HandleAdded(a: multiset<Value>, b: multiset<Value>, c: multiset<Value>, d: multiset<Value>, added: multiset<Value>)
    ensures a + (b + c + (d + added)) == a + (b + c + d) + added
  {
  }

  lemma ResultAdded(a: multiset<Value>, b: multiset<Value>, d: multiset<Value>, v: Value)
    ensures a + (b + OptRefs(Some(v)) + d) == a + (b + OptRefs(None) + d) + multiset{v}
  {
  }

  /** The VM's own state, reference by reference. */
  datatype Raw = Raw(
    frames: seq<Frame>, steps: nat, result: Option<Value>, inputs: seq<Value>, pending: Option<nat>,
    cells: seq<Cell>, bytes: nat)

  /** The value-semantics machine a VM state stands for. */
  ghost function ViewOf(s: Raw): V.Machine {
    V.Machine(ViewFrames(s.cells, s.frames), s.steps, ViewOpt(s.cells, s.result), Trees(s.cells, s.inputs), s.pending)
  }

  /** How a call on the VM ends: as `want` says, or stopped by the heap limit where `want` is to go on;
      a failure leaves the whole state as it was. */
  ghost predicate Followed(was: Raw, now: Raw, view: V.Machine, err: Option<VmError>, want: Result<V.Machine, VmError>) {
    match err
    case None => want == Ok(view)
    case Some(e) => now == was && if e == HeapLimit then want.Ok? else want == Err(e)
  }

  /** How an instruction that stays in its frame ends: as `goal` says, or stopped by the heap limit where the
      goal is to go on; a failure leaves frames and heap as they were. */
  ghost predicate Done(
    h: seq<Cell>, was: seq<Frame>, goal: Result<V.Frame, VmError>,
    g: seq<Cell>, now: seq<Frame>, err: Option<VmError>, rest: multiset<Value>)
    requires was != []
  {
    match err
    case None => goal.Ok? && Keeps(h, g, rest) && TopBecomes(h, was, g, now, goal.value)
    case Some(e) => now == was && g == h && if e == HeapLimit then goal.Ok? else goal == Err(e)
  }

  /** The new top frame, or the error, is what the instruction must give in the state `s`. */
  ghost predicate StaysRight(m: Module, s: V.Machine, op: Op, err: Option<VmError>, top: V.Frame) {
    s.frames != [] && (err == Some(HeapLimit) || StayMeans(m, s, op, Ended(err, top)))
  }

  /** The bytes an instruction must find free in the heap. */
  ghost function Reservation(code: Module, frames: seq<Frame>, h: seq<Cell>, op: Op): nat
    requires frames != []
  {
    var stack := frames[|frames| - 1].stack;
    var count := Required(op, code.Scope());
    if op.ConstValue? && op.index < |code.constants| then Charge(code.constants[op.index])
    else if op.ListNew? || op.MapNew? then HEAP_OBJECT_CHARGE
    else if V.IsOperation(op) && count <= |stack| then Operations.Needed(h, op, stack[|stack| - count..])
    else 0
  }

  lemma {:induction false} NothingHeld(n: nat)
    ensures LocalRefs(seq(n, _ => None)) == multiset{}
  {
    if n > 0 {
      NothingHeld(n - 1);
      assert seq<Option<Value>>(n, _ => None)[..n - 1] == seq<Option<Value>>(n - 1, _ => None);
    }
  }

  // ----- frames of a call, and values kept -----

  /** A frame entered with its parameters. */
  function Entered(f: Function, index: nat, args: seq<Value>): Frame
    requires |args| <= f.localCount
  {
    Frame(index, 0, Parameters(f.localCount, args), [])
  }

  lemma EntryTakesNothing(m: Module)
    requires ModuleOk(m)
    ensures m.entry < |m.functions| && m.functions[m.entry].arity == 0
  {
  }

  lemma ReturnedFrames(h: seq<Cell>, was: seq<Frame>, g: seq<Cell>, now: seq<Frame>, v: Value)
    requires |was| > 1
    requires var n := |was| - 1;
      var caller := ViewFrame(h, was[..n][n - 1]);
      TopBecomes(h, was[..n], g, now, caller.(stack := caller.stack + [Tree(g, v)], ip := was[n - 1].ip))
    ensures var n := |was| - 1;
      var caller := ViewFrame(h, was[n - 1]);
      ViewFrames(g, now) == V.ReplaceTop(ViewFrames(h, was)[..n], caller.(stack := caller.stack + [Tree(g, v)]))
  {
    var n := |was| - 1;
    assert ViewFrames(h, was[..n]) == ViewFrames(h, was)[..n];
  }

  function Parameters(n: nat, args: seq<Value>): seq<Option<Value>> {
    seq(n, i requires 0 <= i => if i < |args| then Some(args[i]) else None)
  }

  lemma ParametersFront(n: nat, args: seq<Value>)
    requires 0 < n && |args| <= n
    ensures |Parameters(n, args)| == n
    ensures Parameters(n, args)[..n - 1] == Parameters(n - 1, if |args| == n then args[..n - 1] else args)
    ensures Parameters(n, args)[n - 1] == if |args| == n then Some(args[n - 1]) else None
  {
  }

  lemma {:induction false} EnteredLocals(n: nat, args: seq<Value>)
    requires |args| <= n
    ensures LocalRefs(Parameters(n, args)) == multiset(args)
  {
    hide Parameters, LocalRefs;
    if n == 0 {
      NoParameters(args);
    } else {
      ParametersFront(n, args);
      LastLocal(Parameters(n, args));
      if |args| == n {
        EnteredLocals(n - 1, args[..n - 1]);
        assert args == args[..n - 1] + [args[n - 1]];
      } else {
        EnteredLocals(n - 1, args);
      }
    }
  }

  lemma NoParameters(args: seq<Value>)
    ensures Parameters(0, args) == [] && LocalRefs([]) == multiset{}
  {
  }

  lemma LastLocal(locals: seq<Option<Value>>)
    requires locals != []
    ensures LocalRefs(locals) == LocalRefs(locals[..|locals| - 1]) + OptRefs(locals[|locals| - 1])
  {
  }

  lemma CalledRefs(frames: seq<Frame>, caller: Frame, f: Function, index: nat, args: seq<Value>)
    requires frames != [] && |args| <= f.localCount
    requires var top := frames[|frames| - 1]; caller.locals == top.locals && top.stack == caller.stack + args
    ensures FramesRefs(ReplaceTop(frames, caller) + [Entered(f, index, args)]) == FramesRefs(frames)
  {
    hide LocalRefs;
    var n := |frames| - 1;
    var below := ReplaceTop(frames, caller);
    assert (below + [Entered(f, index, args)])[..n + 1] == below;
    assert below[..n] == frames[..n];
    EnteredLocals(f.localCount, args);
    assert Entered(f, index, args).stack == [];
    SplitRefs(frames[n], caller, args);
    assert FrameRefs(Entered(f, index, args)) == multiset(args);
  }

  lemma CalledView(h: seq<Cell>, frames: seq<Frame>, f: Function, index: nat)
    requires frames != [] && f.arity <= f.localCount && f.arity <= |frames[|frames| - 1].stack|
    ensures var top := frames[|frames| - 1];
      var n := |top.stack|;
      var caller := top.(stack := top.stack[..n - f.arity], ip := top.ip + 1);
      var view := ViewFrame(h, top);
      ViewFrames(h, ReplaceTop(frames, caller) + [Entered(f, index, top.stack[n - f.arity..])]) ==
      V.ReplaceTop(ViewFrames(h, frames), view.(stack := view.stack[..n - f.arity], ip := top.ip + 1)) +
      [V.Entered(f, index, view.stack[n - f.arity..])]
  {
    hide Tree;
    var top := frames[|frames| - 1];
    var n := |top.stack|;
    var args := top.stack[n - f.arity..];
    assert Trees(h, top.stack)[..n - f.arity] == Trees(h, top.stack[..n - f.arity]);
    assert Trees(h, top.stack)[n - f.arity..] == Trees(h, args);
    assert ViewLocals(h, Entered(f, index, args).locals) == V.Entered(f, index, Trees(h, args)).locals;
    assert Trees(h, []) == [];
  }

  /** The heap limit stops exactly the calls that would go on but find no room. */
  lemma LimitExact(was: Raw, now: Raw, view: V.Machine, err: Option<VmError>, want: Result<V.Machine, VmError>, short: bool)
    requires Followed(was, now, view, err, want)
    requires (err == Some(HeapLimit) ==> short) && (err.None? ==> !short)
    ensures err == Some(HeapLimit) <==> want.Ok? && short
  {
  }

  lemma ExtendsTree(h: seq<Cell>, g: seq<Cell>, v: Value)
    requires Extends(h, g) && Holds(h, v)
    ensures Holds(g, v) && Tree(g, v) == Tree(h, v)
  {
  }

  lemma NoSteps(m: Module, granted: set<string>, s: V.Machine)
    ensures Safety.StepsTo(m, granted, s, 0, s)
  {
  }

  lemma KeptTree(h: seq<Cell>, g: seq<Cell>, kept: multiset<Value>, v: Value)
    requires Keeps(h, g, kept) && v in kept
    ensures Tree(g, v) == Tree(h, v)
  {
  }

  /** Seen as values, the host's value took the place of the arguments of the top frame, now past its import. */
  ghost predicate Supplied(h: seq<Cell>, was: seq<Frame>, g: seq<Cell>, now: seq<Frame>, arity: nat, value: OwnedValue)
    requires was != []
  {
    var top := ViewFrame(h, was[|was| - 1]);
    |top.stack| >= arity && ViewFrames(g, now) == V.ReplaceTop(ViewFrames(h, was), Resumed(top, arity, value))
  }

  /** A frame past its import, with the host's value in place of the arguments. */
  function Resumed(top: V.Frame, arity: nat, value: OwnedValue): V.Frame
    requires arity <= |top.stack|
  {
    top.(stack := top.stack[..|top.stack| - arity] + [value], ip := top.ip + 1)
  }

  lemma SuppliedView(was: Raw, now: Raw, arity: nat, value: OwnedValue)
    requires was.frames != [] && arity <= |was.frames[|was.frames| - 1].stack|
    requires Supplied(was.cells, was.frames, now.cells, now.frames, arity, value)
    requires ViewOpt(now.cells, now.result) == ViewOpt(was.cells, was.result)
    requires Trees(now.cells, now.inputs) == Trees(was.cells, was.inputs)
    ensures var resumed := Resumed(ViewFrame(was.cells, was.frames[|was.frames| - 1]), arity, value);
      ViewOf(now) == ViewOf(was).(
        frames := V.ReplaceTop(ViewFrames(was.cells, was.frames), resumed), steps := now.steps, pending := now.pending)
  {
    hide Tree, Resumed;
  }

  /** The frames once the host's value stands for the arguments. */
  lemma SupplyDone(h: seq<Cell>, was: seq<Frame>, g: seq<Cell>, now: seq<Frame>, arity: nat, v: Value, value: OwnedValue)
    requires was != [] && arity <= |was[|was| - 1].stack| && Tree(g, v) == value
    requires var under := Past(was[|was| - 1], arity);
      TopBecomes(h, was, g, now, ViewFrame(h, under).(stack := Trees(h, under.stack) + [Tree(g, v)]))
    ensures Supplied(h, was, g, now, arity, value)
  {
    hide Tree;
    var stack := was[|was| - 1].stack;
    assert Trees(h, stack[..|stack| - arity]) == Trees(h, stack)[..|stack| - arity];
  }

  lemma ClonesKept(h: seq<Cell>, g: seq<Cell>, refs: multiset<Value>, some: multiset<Value>)
    requires Keeps(h, g, refs) && some <= refs
    ensures Keeps(h, g, refs + some)
  {
    hide Tree;
    forall v | v in refs + some ensures v in refs {}
  }

  lemma ArgumentsResolve(h: seq<Cell>, stack: seq<Value>, args: seq<Value>)
    requires ObjectsExact(h) && ChildrenHeld(h) && forall v :: v in stack ==> Holds(h, v)
    requires |args| <= |stack| && args == stack[|stack| - |args|..]
    ensures forall v :: v in args ==> Holds(h, v)
    ensures ResolveItems(h, args, 0) == Ok(Trees(h, stack)[|stack| - |args|..])
  {
    hide Tree;
    forall v | v in args ensures Holds(h, v) && DepthOf(h, v) <= MAX_VALUE_DEPTH {
      assert v in stack;
    }
    ResolveItemsAreTrees(h, args, 0);
    assert Trees(h, args) == Trees(h, stack)[|stack| - |args|..];
  }

  lemma {:induction false} HeightsBound(values: seq<OwnedValue>)
    requires forall i :: 0 <= i < |values| ==> Height(values[i]) <= MAX_VALUE_DEPTH
    ensures ItemsHeight(values) <= MAX_VALUE_DEPTH + 1
  {
    if values != [] { HeightsBound(values[..|values| - 1]); }
  }

  /** The charge of all inputs, or the first limit one of them breaks. */
  method InputsCharge(inputs: seq<OwnedValue>) returns (r: Result<nat, VmError>)
    ensures r.Ok? ==> r.value == ItemsCharge(inputs) && forall i :: 0 <= i < |inputs| ==> Height(inputs[i]) <= MAX_VALUE_DEPTH
    ensures r.Err? ==>
      (r.error == HeapLimit && ItemsCharge(inputs) > USIZE_MAX) ||
      (r.error == ValueDepthLimit && exists i :: 0 <= i < |inputs| && Height(inputs[i]) > MAX_VALUE_DEPTH)
  {
    var total: nat := 0;
    for i := 0 to |inputs|
      invariant total == ItemsCharge(inputs[..i])
      invariant forall j :: 0 <= j < i ==> Height(inputs[j]) <= MAX_VALUE_DEPTH
    {
      PrefixBounds(inputs, i);
      ValueChargeExact(inputs[i], 0);
      var charge := ValueCharge(inputs[i], 0);
      if charge.Err? { return Err(charge.error); }
      var sum := CheckedAdd(total, charge.value);
      if sum.Err? { return sum; }
      total := sum.value;
    }
    assert inputs[..|inputs|] == inputs;
    r := Ok(total);
  }

  function IsZero(h: seq<Cell>, v: Value): (r: Result<bool, VmError>)
    requires Holds(h, v)
    ensures r.Err? ==> r.error.TypeMismatch?
  {
    match v
    case Integer(n) => Ok(n == 0)
    case Bool(b) => Ok(!b)
    case _ => Err(TypeMismatch(IntegerOrBool, Operations.KindOf(h, v)))
  }

  lemma TakenFrame(h: seq<Cell>, top: Frame, slot: nat)
    requires slot < |top.locals| && top.locals[slot].Some?
    ensures var v := top.locals[slot].value;
      var next := top.(locals := top.locals[slot := None], stack := top.stack + [v], ip := top.ip + 1);
      && FrameRefs(next) == FrameRefs(top)
      && ViewFrame(h, next) == ViewFrame(h, top).(
           locals := ViewLocals(h, top.locals)[slot := None], stack := Trees(h, top.stack) + [Tree(h, v)], ip := top.ip + 1)
  {
    hide LocalRefs, Tree;
    var v := top.locals[slot].value;
    LocalReplaced(top.locals, slot, None);
    TreesPush(h, top.stack, v);
    var a, b, c := LocalRefs(top.locals[slot := None]), LocalRefs(top.locals), multiset(top.stack);
    assert a + multiset{v} == b;
    assert multiset(top.stack + [v]) == c + multiset{v};
    assert a + (c + multiset{v}) == (a + multiset{v}) + c;
    assert ViewLocals(h, top.locals[slot := None]) == ViewLocals(h, top.locals)[slot := None];
  }

  lemma SetRefs(top: Frame, slot: nat)
    requires slot < |top.locals| && top.stack != []
    ensures var n := |top.stack| - 1;
      var next := top.(locals := top.locals[slot := Some(top.stack[n])], stack := top.stack[..n], ip := top.ip + 1);
      FrameRefs(top) == FrameRefs(next) + multiset(if top.locals[slot].Some? then [top.locals[slot].value] else [])
  {
    hide LocalRefs;
    var n := |top.stack| - 1;
    var v := top.stack[n];
    LocalReplaced(top.locals, slot, Some(v));
    assert top.stack == top.stack[..n] + [v];
    var a, b, c := LocalRefs(top.locals[slot := Some(v)]), LocalRefs(top.locals), multiset(top.stack[..n]);
    var d := OptRefs(top.locals[slot]);
    assert d == multiset(if top.locals[slot].Some? then [top.locals[slot].value] else []);
    assert a + d == b + multiset{v};
    assert b + (c + multiset{v}) == (b + multiset{v}) + c;
    assert (a + d) + c == (a + c) + d;
  }

  lemma PoppedRefs(top: Frame, next: Frame)
    requires top.stack != [] && next.locals == top.locals && next.stack == top.stack[..|top.stack| - 1]
    ensures FrameRefs(top) == FrameRefs(next) + multiset([top.stack[|top.stack| - 1]])
  {
    assert top.stack == top.stack[..|top.stack| - 1] + [top.stack[|top.stack| - 1]];
  }

  lemma SplitRefs(top: Frame, under: Frame, args: seq<Value>)
    requires under.locals == top.locals && top.stack == under.stack + args
    ensures FrameRefs(top) == FrameRefs(under) + multiset(args)
  {
  }

  lemma ResultFrame(h: seq<Cell>, g: seq<Cell>, under: Frame, v: Value)
    requires Keeps(h, g, FrameRefs(under))
    ensures var next := under.(stack := under.stack + [v]);
      && ViewFrame(g, next) == ViewFrame(h, under).(stack := Trees(h, under.stack) + [Tree(g, v)])
      && FrameRefs(next) == FrameRefs(under) + multiset{v}
  {
    FrameKept(h, g, FrameRefs(under), under);
    TreesPush(g, under.stack, v);
  }

  lemma SplitTop(top: Frame, count: nat)
    requires count <= |top.stack|
    ensures Past(top, count).locals == top.locals && top.stack == Past(top, count).stack + top.stack[|top.stack| - count..]
  {
  }

  /** The view of a frame with one more operand. */
  lemma PushedFrame(h: seq<Cell>, g: seq<Cell>, top: Frame, v: Value, ip: nat)
    requires Keeps(h, g, FrameRefs(top))
    ensures var next := top.(stack := top.stack + [v], ip := ip);
      && ViewFrame(g, next) == ViewFrame(h, top).(stack := Trees(h, top.stack) + [Tree(g, v)], ip := ip)
      && FrameRefs(next) == FrameRefs(top) + multiset{v}
  {
    FrameKept(h, g, FrameRefs(top), top);
    TreesPush(g, top.stack, v);
  }

  /** The new values that instructions make fit every limit but the heap's. */
  lemma NewValuesAreSmall()
    ensures Height(OwnedValue.List([])) == 0 && Charge(OwnedValue.List([])) <= USIZE_MAX
    ensures Height(OwnedValue.Map(Entries([], []))) == 0 && Charge(OwnedValue.Map(Entries([], []))) <= USIZE_MAX
    ensures forall n: i64 :: Height(OwnedValue.Integer(n)) == 0 && Charge(OwnedValue.Integer(n)) == 0
  {
  }

  class Vm {
    const code: Module
    const granted: set<string>
    const heap: Heap
    var frames: seq<Frame>
    var steps: nat
    var result: Option<Value>
    var inputs: seq<Value>
    var pending: Option<nat>
    /** Values held outside the VM: debugger views, results handed out. */
    ghost var handles: multiset<Value>

    /** A VM at the entry of its module, with an empty heap and no inputs yet. */
    constructor (code: Module, heapLimit: nat, granted: set<string>)
      requires code.entry < |code.functions| && heapLimit <= MAX_MODULE_HEAP_BYTES
      ensures this.code == code && this.granted == granted && fresh(heap) && heap.limit == heapLimit
      ensures Owned() && heap.bytes == 0 && handles == multiset{}
      ensures frames == [Frame(code.entry, 0, seq(code.functions[code.entry].localCount, _ => None), [])]
      ensures steps == 0 && result.None? && inputs == [] && pending.None?
    {
      this.code := code;
      this.granted := granted;
      heap := new Heap(heapLimit);
      frames := [Frame(code.entry, 0, seq(code.functions[code.entry].localCount, _ => None), [])];
      steps := 0;
      result := None;
      inputs := [];
      pending := None;
      handles := multiset{};
      new;
      NothingHeld(code.functions[code.entry].localCount);
      assert frames[..0] == [];
      assert FramesRefs(frames) == FramesRefs(frames[..0]) + FrameRefs(frames[0]);
    }

    /** References outside the frames. */
    ghost function Rest(): multiset<Value>
      reads this`inputs, this`result, this`handles
    {
      multiset(inputs) + OptRefs(result) + handles
    }

    ghost function Roots(): multiset<Value>
      reads this`frames, this`inputs, this`result, this`handles
    {
      FramesRefs(frames) + Rest()
    }

    /** The value-semantics machine this VM stands for. */
    ghost function View(): V.Machine
      reads this, heap
    {
      ViewOf(State())
    }

    ghost function State(): Raw
      reads this, heap
    {
      Raw(frames, steps, result, inputs, pending, heap.cells, heap.bytes)
    }

    ghost predicate Valid()
      reads this, heap
    {
      && heap.Valid() && heap.refs == Roots() && heap.limit <= MAX_MODULE_HEAP_BYTES
      && Safety.MachineOk(code, granted, View())
    }

    /** Every reference held by the VM and its callers is counted, and nothing else is. */
    ghost predicate Owned()
      reads this`frames, this`inputs, this`result, this`handles, heap
    {
      heap.Valid() && heap.refs == Roots() && heap.limit <= MAX_MODULE_HEAP_BYTES && frames != []
    }

    /** Standing at `op`, an instruction of the module. */
    ghost predicate At(op: Op)
      reads this, heap
    {
      Owned() && ConstantsOk(code.constants) && CodeOk(code) && V.Standing(code, View()) && V.OpAt(code, View()) == op
    }

    /** `check_push`. */
    function CheckPush(): Option<VmError>
      requires frames != []
      reads this
    {
      V.PushLimit(|frames[|frames| - 1].stack|, LiveSlots(frames))
    }

    // ----- the values pushing instructions add -----

    /** `value` is what a pushing instruction should add; the VM obtains a reference of its own to it. */
    method AcquireShared(v: Value) returns (r: Result<Value, VmError>)
      requires heap.Valid() && Holds(heap.cells, v)
      modifies heap
      ensures heap.Valid() && r == Ok(v) && heap.refs == old(heap.refs) + multiset{v}
      ensures Extends(old(heap.cells), heap.cells) && Holds(heap.cells, v) && Tree(heap.cells, v) == Tree(old(heap.cells), v)
    {
      hide Tree, HeapOk, TotalCharge;
      heap.Clone(v);
      r := Ok(v);
    }

    method AcquireOwned(value: OwnedValue) returns (r: Result<Value, VmError>)
      requires heap.Valid() && Height(value) <= MAX_VALUE_DEPTH && Charge(value) <= USIZE_MAX
      modifies heap
      ensures heap.Valid()
      ensures r.Err? ==> r.error == HeapLimit
      ensures r.Err? <==> !old(heap.Fits(Charge(value)))
      ensures r.Err? ==> heap.cells == old(heap.cells) && heap.bytes == old(heap.bytes) && heap.refs == old(heap.refs)
      ensures r.Ok? ==> heap.refs == old(heap.refs) + multiset{r.value} && Extends(old(heap.cells), heap.cells)
      ensures r.Ok? ==> Holds(heap.cells, r.value) && Tree(heap.cells, r.value) == value
    {
      ValueChargeExact(value, 0);
      var charge := ValueCharge(value, 0);
      hide Tree, HeapOk, TotalCharge, Height, Charge;
      if !heap.Fits(charge.value) { return Err(HeapLimit); }
      var v := heap.Import(value);
      r := Ok(v);
    }

    /** Whether `op` pushes, and what: the pure machine's answer in the current state. */
    ghost function Wanted(op: Op): Result<OwnedValue, VmError>
      requires At(op) && V.IsPush(op)
      reads this, heap
    {
      PushInRange(this, op);
      V.Pushed(code, ViewFrame(heap.cells, frames[|frames| - 1]), Trees(heap.cells, inputs), op)
    }

    method Acquire(op: Op) returns (r: Result<Value, VmError>)
      requires At(op) && V.IsPush(op) && !op.LocalTake?
      modifies heap
      ensures heap.Valid()
      ensures r.Err? ==> heap.cells == old(heap.cells) && heap.bytes == old(heap.bytes) && heap.refs == old(heap.refs)
      ensures r.Err? && r.error != HeapLimit ==> old(Wanted(op)) == Err(r.error)
      ensures r == Err(HeapLimit) ==> old(Wanted(op)).Ok? && !old(heap.Fits(Reservation(code, frames, heap.cells, op)))
      ensures r.Ok? ==> old(heap.Fits(Reservation(code, frames, heap.cells, op)))
      ensures r.Ok? ==> heap.refs == old(heap.refs) + multiset{r.value} && Extends(old(heap.cells), heap.cells)
      ensures r.Ok? ==> Holds(heap.cells, r.value) && old(Wanted(op)) == Ok(Tree(heap.cells, r.value))
    {
      hide HeapOk, TotalCharge, At, Extends, Tree, Wanted, Height, Charge, Reservation, FramesRefs, Holds;
      SourceHeld(this, op);
      PushedSource(this, op);
      NewValuesAreSmall();
      StandingOwned(this, op);
      Reserved(this, op);
      var top := frames[|frames| - 1];
      match op
      case Const(n) => r := AcquireOwned(OwnedValue.Integer(n));
      case ConstValue(index) => r := AcquireOwned(code.constants[index]);
      case Input(index) =>
        if index < |inputs| { r := AcquireShared(inputs[index]); } else { r := Err(MissingInput); }
      case LocalGet(slot) =>
        if top.locals[slot].Some? { r := AcquireShared(top.locals[slot].value); } else { r := Err(UninitializedLocal); }
      case ListNew => r := AcquireOwned(OwnedValue.List([]));
      case MapNew => r := AcquireOwned(OwnedValue.Map(Entries([], [])));
    }

    // ----- instructions that stay in their frame -----

    /** The pure machine's new top frame for `op`. */
    ghost function Goal(op: Op): Result<V.Frame, VmError>
      requires At(op) && !op.Call? && !op.Import? && !op.Return?
      reads this, heap
    {
      V.TopStep(code, View())
    }

    /** Everything the VM holds besides the top frame. */
    ghost function BelowTop(): multiset<Value>
      requires frames != []
      reads this`frames, this`inputs, this`result, this`handles
    {
      FramesRefs(frames[..|frames| - 1]) + Rest()
    }

    /** Installs a new top frame once the heap holds exactly its references and those of everything else. */
    method SetTop(top: Frame, ghost h: seq<Cell>)
      requires heap.Valid() && heap.limit <= MAX_MODULE_HEAP_BYTES && frames != []
      requires heap.refs == BelowTop() + FrameRefs(top) && Keeps(h, heap.cells, BelowTop())
      modifies this`frames
      ensures Owned() && frames == ReplaceTop(old(frames), top)
      ensures TopBecomes(h, old(frames), heap.cells, frames, ViewFrame(heap.cells, top))
      ensures Keeps(h, heap.cells, Rest())
    {
      TopReplaced(h, heap.cells, frames, top, BelowTop());
      KeepsLess(h, heap.cells, BelowTop(), Rest());
      hide Tree, HeapOk, TotalCharge, Keeps;
      assert BelowTop() + FrameRefs(top) == FramesRefs(frames[..|frames| - 1]) + FrameRefs(top) + Rest();
      frames := ReplaceTop(frames, top);
    }

    method Push(op: Op) returns (err: Option<VmError>)
      requires At(op) && V.IsPush(op) && !op.LocalTake?
      modifies this`frames, heap
      ensures Owned() && Done(old(heap.cells), old(frames), old(Goal(op)), heap.cells, frames, err, Rest())
      ensures err.Some? ==> heap.bytes == old(heap.bytes)
      ensures err == Some(HeapLimit) ==> !old(heap.Fits(Reservation(code, frames, heap.cells, op)))
      ensures err.None? ==> old(heap.Fits(Reservation(code, frames, heap.cells, op)))
    {
      hide Reservation, At, Tree, HeapOk, TotalCharge, Wanted, Goal, Extends, Keeps, TopBecomes, FramesRefs, FrameRefs, Counted, Owned, Rest;
      StandingOwned(this, op);
      PushGoal(this, op);
      ghost var h, refs, wanted := heap.cells, heap.refs, Wanted(op);
      TopOwned(this);
      err := CheckPush();
      if err.Some? { return; }
      PushedGoal(this, op);
      var r := Acquire(op);
      if r.Err? {
        TopOwnedAgain(this);
        return Some(r.error);
      }
      ExtendsKeeps(h, heap.cells, refs);
      PushValue(r.value, frames[|frames| - 1].ip + 1, h);
    }

    /** Puts a value the VM already holds a reference to on top of the stack and moves to `ip`. */
    method PushValue(v: Value, ip: nat, ghost h: seq<Cell>)
      requires heap.Valid() && heap.limit <= MAX_MODULE_HEAP_BYTES && frames != []
      requires heap.refs == BelowTop() + FrameRefs(frames[|frames| - 1]) + multiset{v}
      requires Keeps(h, heap.cells, BelowTop() + FrameRefs(frames[|frames| - 1]))
      modifies this`frames
      ensures Owned() && Keeps(h, heap.cells, Rest())
      ensures var top := ViewFrame(h, old(frames)[|old(frames)| - 1]);
        TopBecomes(h, old(frames), heap.cells, frames, top.(stack := top.stack + [Tree(heap.cells, v)], ip := ip))
    {
      hide Tree, HeapOk, TotalCharge, Keeps, FrameRefs, FramesRefs, TopBecomes, ViewLocals;
      var top := frames[|frames| - 1];
      ghost var below, own := BelowTop(), FrameRefs(top);
      KeepsLess(h, heap.cells, below + own, below);
      KeepsLess(h, heap.cells, below + own, own);
      PushedFrame(h, heap.cells, top, v, ip);
      assert below + own + multiset{v} == below + (own + multiset{v});
      SetTop(top.(stack := top.stack + [v], ip := ip), h);
    }

    /** Drops values that left the frame, then installs what remains of it. */
    method Settle(next: Frame, dropped: seq<Value>)
      requires Owned() && FrameRefs(frames[|frames| - 1]) == FrameRefs(next) + multiset(dropped)
      modifies this`frames, heap
      ensures Owned() && Keeps(old(heap.cells), heap.cells, Rest())
      ensures TopBecomes(old(heap.cells), old(frames), heap.cells, frames, ViewFrame(old(heap.cells), next))
    {
      hide Tree, HeapOk, TotalCharge, TopBecomes, FramesRefs, FrameRefs, ViewFrame, Keeps, Counted;
      ghost var h, below, own := heap.cells, BelowTop(), FrameRefs(next);
      TopOwned(this);
      assert below + (own + multiset(dropped)) == (below + own) + multiset(dropped);
      heap.Release(dropped, below + own);
      KeepsLess(h, heap.cells, below + own, below);
      KeepsLess(h, heap.cells, below + own, own);
      FrameKept(h, heap.cells, own, next);
      SetTop(next, h);
    }

    /** `LocalTake`: moves a local's value to the stack and leaves the local unset. */
    method Take(op: Op) returns (err: Option<VmError>)
      requires At(op) && op.LocalTake?
      modifies this`frames, heap
      ensures Owned() && Done(old(heap.cells), old(frames), old(Goal(op)), heap.cells, frames, err, Rest())
      ensures err.Some? ==> heap.bytes == old(heap.bytes)
      ensures err != Some(HeapLimit)
    {
      hide At, Tree, HeapOk, TotalCharge, TopBecomes, FramesRefs, FrameRefs, Goal, Keeps, Wanted, Counted, Owned, Rest;
      StandingOwned(this, op);
      PushGoal(this, op);
      PushedSource(this, op);
      err := CheckPush();
      if err.Some? { return; }
      var top := frames[|frames| - 1];
      var v := top.locals[op.slot];
      if v.None? { return Some(UninitializedLocal); }
      TakenFrame(heap.cells, top, op.slot);
      Settle(top.(locals := top.locals[op.slot := None], stack := top.stack + [v.value], ip := top.ip + 1), []);
    }

    /** `LocalSet`: moves the top operand into a local, dropping what the local held. */
    method Set(op: Op) returns (err: Option<VmError>)
      requires At(op) && op.LocalSet?
      modifies this`frames, heap
      ensures Owned() && Done(old(heap.cells), old(frames), old(Goal(op)), heap.cells, frames, err, Rest())
      ensures err.Some? ==> heap.bytes == old(heap.bytes)
      ensures err != Some(HeapLimit)
    {
      hide At, Tree, HeapOk, TotalCharge, TopBecomes, FramesRefs, FrameRefs, ViewFrame, Goal, Keeps, Counted, Owned, Rest;
      StandingOwned(this, op);
      SetGoal(this, op);
      var top := frames[|frames| - 1];
      var n := |top.stack|;
      if n == 0 { return Some(OperandStackUnderflow); }
      var dropped := if top.locals[op.slot].Some? then [top.locals[op.slot].value] else [];
      SetRefs(top, op.slot);
      Settle(top.(locals := top.locals[op.slot := Some(top.stack[n - 1])], stack := top.stack[..n - 1], ip := top.ip + 1), dropped);
      err := None;
    }

    /** `JumpIfZero`: pops a scalar condition. */
    method Branch(op: Op) returns (err: Option<VmError>)
      requires At(op) && op.JumpIfZero?
      modifies this`frames, heap
      ensures Owned() && Done(old(heap.cells), old(frames), old(Goal(op)), heap.cells, frames, err, Rest())
      ensures err.Some? ==> heap.bytes == old(heap.bytes)
      ensures err != Some(HeapLimit)
    {
      hide IsZero, ViewFrames, At, Tree, HeapOk, TotalCharge, TopBecomes, FramesRefs, FrameRefs, ViewFrame, Goal, Keeps, Counted, Owned, Rest;
      StandingOwned(this, op);
      BranchGoal(this, op);
      var top := frames[|frames| - 1];
      var n := |top.stack|;
      if n == 0 { return Some(OperandStackUnderflow); }
      var zero := IsZero(heap.cells, top.stack[n - 1]);
      if zero.Err? { return Some(zero.error); }
      var next := top.(stack := top.stack[..n - 1], ip := if zero.value then op.target else top.ip + 1);
      PoppedRefs(top, next);
      Settle(next, [top.stack[n - 1]]);
      err := None;
    }

    method Jump(op: Op)
      requires At(op) && op.Jump?
      modifies this`frames, heap
      ensures Owned() && Done(old(heap.cells), old(frames), old(Goal(op)), heap.cells, frames, None, Rest())
    {
      hide At, Tree, HeapOk, TotalCharge, TopBecomes, FramesRefs, Keeps, Goal, ViewFrame, Owned, Rest;
      StandingOwned(this, op);
      JumpGoal(this, op);
      var top := frames[|frames| - 1];
      Settle(top.(ip := op.target), []);
    }

    /** An operation: its operands leave the stack and its result takes their place. */
    method Operation(op: Op) returns (err: Option<VmError>)
      requires At(op) && V.IsOperation(op)
      modifies this`frames, heap
      ensures Owned() && Done(old(heap.cells), old(frames), old(Goal(op)), heap.cells, frames, err, Rest())
      ensures err.Some? ==> heap.bytes == old(heap.bytes)
      ensures err == Some(HeapLimit) ==> !old(heap.Fits(Reservation(code, frames, heap.cells, op)))
      ensures err.None? ==> old(heap.Fits(Reservation(code, frames, heap.cells, op)))
    {
      hide Past, V.TopStep, At, Tree, HeapOk, TotalCharge, TopBecomes, FramesRefs, FrameRefs, ViewFrame, Goal, Keeps, V.Operate,
        Reservation, Operations.Needed, Owned, Rest;
      StandingOwned(this, op);
      OperationGoal(this, op);
      Reserved(this, op);
      var top := frames[|frames| - 1];
      var count := Required(op, code.Scope());
      if |top.stack| < count { return Some(OperandStackUnderflow); }
      var under := Past(top, count);
      ghost var h := heap.cells;
      SplitTop(top, count);
      var r := Compute(op, under, top.stack[|top.stack| - count..]);
      if r.Err? { return Some(r.error); }
      PutResult(under, r.value, h);
      err := None;
    }

    /** Runs an operation on the operands split off the top frame. */
    method Compute(op: Op, under: Frame, args: seq<Value>) returns (r: Result<Value, VmError>)
      requires Owned() && V.IsOperation(op) && |args| == Required(op, code.Scope())
      requires under.locals == frames[|frames| - 1].locals && frames[|frames| - 1].stack == under.stack + args
      modifies heap
      ensures heap.Valid()
      ensures var want := V.Operate(op, Trees(old(heap.cells), args), code.Scope());
        && (r.Err? ==> Owned() && heap.cells == old(heap.cells) && heap.bytes == old(heap.bytes))
        && (r.Err? && r.error != HeapLimit ==> want == Err(r.error))
        && (r == Err(HeapLimit) ==> want.Ok? && !old(heap.Fits(Operations.Needed(heap.cells, op, args))))
        && (r.Ok? ==> want == Ok(Tree(heap.cells, r.value)) && old(heap.Fits(Operations.Needed(heap.cells, op, args))))
      ensures r.Ok? ==> heap.refs == BelowTop() + FrameRefs(under) + multiset{r.value}
      ensures r.Ok? ==> Keeps(old(heap.cells), heap.cells, BelowTop() + FrameRefs(under))
    {
      hide Tree, Trees, HeapOk, TotalCharge, FramesRefs, FrameRefs, Keeps, V.Operate, Obeys, Operations.Needed, Counted, Owned, Rest,
        BelowTop;
      TopOwned(this);
      SplitRefs(frames[|frames| - 1], under, args);
      ghost var kept := BelowTop() + FrameRefs(under);
      assert heap.refs == kept + multiset(args);
      r := Operations.Apply(heap, op, args, code.Scope(), kept);
      if r.Err? { TopOwnedAgain(this); }
    }

    method PutResult(under: Frame, v: Value, ghost h: seq<Cell>)
      requires heap.Valid() && heap.limit <= MAX_MODULE_HEAP_BYTES && frames != []
      requires heap.refs == BelowTop() + FrameRefs(under) + multiset{v}
      requires Keeps(h, heap.cells, BelowTop() + FrameRefs(under))
      modifies this`frames
      ensures Owned() && Keeps(h, heap.cells, Rest())
      ensures TopBecomes(h, old(frames), heap.cells, frames,
        ViewFrame(h, under).(stack := Trees(h, under.stack) + [Tree(heap.cells, v)]))
    {
      hide Tree, HeapOk, TotalCharge, TopBecomes, FramesRefs, FrameRefs, ViewFrame, Keeps;
      ghost var below, own := BelowTop(), FrameRefs(under);
      KeepsLess(h, heap.cells, below + own, below);
      KeepsLess(h, heap.cells, below + own, own);
      ResultFrame(h, heap.cells, under, v);
      assert below + own + multiset{v} == below + (own + multiset{v});
      SetTop(under.(stack := under.stack + [v]), h);
    }

    // ----- calls and returns -----

    /** `Call`: the arguments move from the caller's stack to the callee's first locals. */
    method Call(op: Op) returns (err: Option<VmError>)
      requires At(op) && op.Call?
      modifies this`frames, this`steps
      ensures Owned() && Followed(old(State()), State(), View(), err, old(V.CallStep(code, View())))
      ensures err != Some(HeapLimit)
    {
      hide At, Tree, HeapOk, TotalCharge, FramesRefs, FrameRefs, ViewFrame, ViewFrames, V.CallStep;
      StandingOwned(this, op);
      CallGoal(this, op);
      var top := frames[|frames| - 1];
      var callee := code.functions[op.callee];
      var n := |top.stack|;
      if n < callee.arity { return Some(OperandStackUnderflow); }
      if |frames| >= MAX_CALL_FRAMES { return Some(CallFrameLimit); }
      if LiveSlots(frames) - callee.arity + callee.localCount > MAX_LIVE_SLOTS { return Some(LiveSlotLimit); }
      var args := top.stack[n - callee.arity..];
      var caller := top.(stack := top.stack[..n - callee.arity], ip := top.ip + 1);
      CalledRefs(frames, caller, callee, op.callee, args);
      frames := ReplaceTop(frames, caller) + [Entered(callee, op.callee, args)];
      steps := steps + 1;
      err := None;
    }

    /** `Return` from the entry frame: the result is shared with the frame that keeps it. */
    method Finish()
      requires At(Return) && |frames| == 1 && result.None? && frames[0].stack != []
      modifies this`result, this`steps, heap
      ensures Owned() && Followed(old(State()), State(), View(), None, old(V.ReturnStep(View())))
      ensures Keeps(old(heap.cells), heap.cells, handles)
    {
      hide At, Tree, HeapOk, TotalCharge, FramesRefs, FrameRefs, Keeps, ViewFrames, V.ReturnStep, Trees, Holds;
      StandingOwned(this, Return);
      FinishGoal(this);
      var v := frames[0].stack[|frames[0].stack| - 1];
      StackHeld(this);
      assert v in frames[0].stack;
      Share(v);
      ResultAdded(FramesRefs(frames), multiset(inputs), handles, v);
      result := Some(v);
      steps := steps + 1;
    }

    /** Clones a live value: nothing the VM or its callers hold changes its meaning. */
    method Share(v: Value)
      requires Owned() && Holds(heap.cells, v)
      modifies heap
      ensures heap.Valid() && heap.refs == Roots() + multiset{v}
      ensures View() == old(View()) && Tree(heap.cells, v) == Tree(old(heap.cells), v)
      ensures Keeps(old(heap.cells), heap.cells, handles)
    {
      hide Tree, HeapOk, TotalCharge, FramesRefs, FrameRefs, Keeps, ViewFrames, Extends, Trees, Counted;
      ghost var h, refs := heap.cells, heap.refs;
      TopOwned(this);
      heap.Clone(v);
      ExtendsKeeps(h, heap.cells, refs);
      SameView(this, h, refs);
      KeepsLess(h, heap.cells, refs, handles);
      ExtendsTree(h, heap.cells, v);
    }

    /** `Return` to a caller: the frame is dropped and its value handed over. */
    method Leave() returns (err: Option<VmError>)
      requires At(Return) && |frames| > 1 && frames[|frames| - 1].stack != []
      modifies this`frames, this`steps, heap
      ensures Owned() && Followed(old(State()), State(), View(), err, old(V.ReturnStep(View())))
      ensures err != Some(HeapLimit)
      ensures err.None? ==> Keeps(old(heap.cells), heap.cells, handles)
    {
      hide At, Tree, HeapOk, TotalCharge, FramesRefs, FrameRefs, ViewFrame, ViewFrames, Keeps, V.ReturnStep, Trees, ViewOpt, Owned;
      StandingOwned(this, Return);
      ReturnGoal(this);
      if |frames[|frames| - 2].stack| >= MAX_OPERAND_STACK { return Some(OperandStackLimit); }
      HandOver();
      steps := steps + 1;
      err := None;
    }

    method HandOver()
      requires Owned() && |frames| > 1 && frames[|frames| - 1].stack != []
      modifies this`frames, heap
      ensures Owned() && Keeps(old(heap.cells), heap.cells, handles)
      ensures var h, was := old(heap.cells), old(frames);
        var n := |was| - 1;
        var v := was[n].stack[|was[n].stack| - 1];
        var caller := ViewFrame(h, was[n - 1]);
        View() == old(View()).(
          frames := V.ReplaceTop(ViewFrames(h, was)[..n], caller.(stack := caller.stack + [Tree(h, v)])))
    {
      hide Tree, HeapOk, TotalCharge, FramesRefs, FrameRefs, ViewFrame, Keeps, TopBecomes, Trees, ViewOpt, Owned, Rest, BelowTop,
        Counted;
      TopOwned(this);
      ghost var h := heap.cells;
      var ip := frames[|frames| - 2].ip;
      var v := DropTop();
      PushValue(v, ip, h);
      RestKept(this, h);
      ReturnedFrames(h, old(frames), heap.cells, frames, v);
    }

    /** Takes the top value out of the top frame and drops the frame. */
    method DropTop() returns (v: Value)
      requires Owned() && |frames| > 1 && frames[|frames| - 1].stack != []
      modifies this`frames, heap
      ensures v == old(frames[|frames| - 1].stack[|frames[|frames| - 1].stack| - 1])
      ensures frames == old(frames)[..|old(frames)| - 1]
      ensures heap.Valid() && heap.refs == BelowTop() + FrameRefs(frames[|frames| - 1]) + multiset{v}
      ensures Keeps(old(heap.cells), heap.cells, BelowTop() + FrameRefs(frames[|frames| - 1]))
      ensures Tree(heap.cells, v) == Tree(old(heap.cells), v)
    {
      hide Tree, HeapOk, TotalCharge, FramesRefs, FrameRefs, Keeps, ObjectsExact, Counted, Holds, LocalValues, Rest, Owned;
      TopOwned(this);
      StackHeld(this);
      var top := frames[|frames| - 1];
      v := top.stack[|top.stack| - 1];
      assert v in top.stack;
      FrameValuesOwned(top);
      Operations.ReplaceByClone(heap, top.stack + LocalValues(top.locals), v, BelowTop());
      frames := frames[..|frames| - 1];
      TopBelow(this);
    }

    // ----- one step -----

    /** Any instruction that stays in its frame. */
    method Stay(op: Op) returns (err: Option<VmError>)
      requires At(op) && !op.Call? && !op.Import? && !op.Return?
      modifies this`frames, heap
      ensures Owned() && Done(old(heap.cells), old(frames), old(Goal(op)), heap.cells, frames, err, Rest())
      ensures err.Some? ==> heap.bytes == old(heap.bytes)
      ensures err == Some(HeapLimit) ==> !old(heap.Fits(Reservation(code, frames, heap.cells, op)))
      ensures err.None? ==> old(heap.Fits(Reservation(code, frames, heap.cells, op)))
      ensures StaysRight(code, old(View()), op, err, ViewFrame(heap.cells, frames[|frames| - 1]))
    {
      hide Reservation, At, Tree, HeapOk, TotalCharge, Done, Goal, Owned, StaysRight, ViewFrame, Counted;
      StandingOwned(this, op);
      Reserved(this, op);
      ghost var before, goal := View(), Goal(op);
      GoalMeans(this, op);
      if op.LocalTake? {
        err := Take(op);
      } else if V.IsPush(op) {
        err := Push(op);
      } else if V.IsOperation(op) {
        err := Operation(op);
      } else if op.LocalSet? {
        err := Set(op);
      } else if op.JumpIfZero? {
        err := Branch(op);
      } else {
        Jump(op);
        err := None;
      }
      TopOwned(this);
      DoneRight(code, before, op, old(heap.cells), old(frames), goal, heap.cells, frames, err, Rest());
    }

    method StepImport(op: Op) returns (err: Option<VmError>)
      requires At(op) && op.Import? && pending.None? && result.None? && steps < MAX_MODULE_STEPS
      modifies this`frames, this`steps, this`result, this`pending, heap
      ensures Owned() && Followed(old(State()), State(), View(), err, old(V.Step(code, granted, View())))
      ensures err != Some(HeapLimit)
      ensures err.None? ==> Keeps(old(heap.cells), heap.cells, handles)
    {
      hide At, Tree, HeapOk, TotalCharge, Keeps, V.Step, FramesRefs;
      StandingOwned(this, op);
      StepGoal(this, op);
      if code.imports[op.index].name !in granted { return Some(ImportDenied); }
      SelfKept(this);
      pending := Some(op.index);
      err := None;
    }

    method StepStay(op: Op) returns (err: Option<VmError>)
      requires !op.Call? && !op.Return?
      requires At(op) && !op.Import? && pending.None? && result.None? && steps < MAX_MODULE_STEPS
      modifies this`frames, this`steps, this`result, this`pending, heap
      ensures Owned() && Followed(old(State()), State(), View(), err, old(V.Step(code, granted, View())))
      ensures err == Some(HeapLimit) ==> !old(heap.Fits(Reservation(code, frames, heap.cells, op)))
      ensures err.None? ==> old(heap.Fits(Reservation(code, frames, heap.cells, op)))
      ensures err.None? ==> Keeps(old(heap.cells), heap.cells, handles)
    {
      hide Reservation, At, Tree, HeapOk, TotalCharge, Keeps, V.Step, Goal, FramesRefs, Done, ViewFrames, Trees, ViewOpt, CodeOk,
        ConstantsOk, V.Standing, V.OpAt, Owned;
      StandingOwned(this, op);
      StepGoal(this, op);
      err := Stay(op);
      StayedView(this, op, old(heap.cells), old(frames), old(Goal(op)), err);
      if err.None? {
        steps := steps + 1;
        assert View() == old(V.Step(code, granted, View())).value;
      }
    }

    method StepReturn(op: Op) returns (err: Option<VmError>)
      requires At(op) && op.Return? && pending.None? && result.None? && steps < MAX_MODULE_STEPS
      modifies this`frames, this`steps, this`result, heap
      ensures Owned() && Followed(old(State()), State(), View(), err, old(V.ReturnStep(View())))
      ensures err != Some(HeapLimit)
      ensures err.None? ==> Keeps(old(heap.cells), heap.cells, handles)
    {
      hide Reservation, At, Tree, HeapOk, TotalCharge, Keeps, FramesRefs;
      StandingOwned(this, op);
      EmptyReturn(this);
      if frames[|frames| - 1].stack == [] {
        err := Some(OperandStackUnderflow);
      } else if |frames| == 1 {
        Finish();
        err := None;
      } else {
        err := Leave();
      }
    }

    /** Runs the instruction at hand. */
    method Dispatch(op: Op) returns (err: Option<VmError>)
      requires At(op) && pending.None? && result.None? && steps < MAX_MODULE_STEPS
      modifies this`frames, this`steps, this`result, this`pending, heap
      ensures Owned() && Followed(old(State()), State(), View(), err, old(V.Step(code, granted, View())))
      ensures err == Some(HeapLimit) ==> !old(heap.Fits(Reservation(code, frames, heap.cells, op)))
      ensures err.None? ==> old(heap.Fits(Reservation(code, frames, heap.cells, op)))
      ensures err.None? ==> Keeps(old(heap.cells), heap.cells, handles)
    {
      hide Reservation, At, Tree, HeapOk, TotalCharge, Keeps, V.Step, FramesRefs, Followed, Owned, Goal, ViewOf, CodeOk, V.Standing,
        V.ReturnStep, V.CallStep;
      StandingOwned(this, op);
      StepGoal(this, op);
      SelfKept(this);
      Reserved(this, op);
      if op.Call? {
        err := Call(op);
      } else if op.Return? {
        err := StepReturn(op);
      } else if op.Import? {
        err := StepImport(op);
      } else {
        err := StepStay(op);
      }
    }

    /** The checks before the instruction is looked at. */
    function Guard(): Option<VmError>
      reads this
    {
      if pending.Some? then Some(VmError.ImportPending)
      else if result.Some? then Some(AlreadyFinished)
      else if steps >= MAX_MODULE_STEPS then Some(StepLimit)
      else None
    }

    /** The heap has no room for what the instruction at hand must reserve. */
    ghost predicate Short()
      reads this, heap
    {
      && frames != []
      && var top := frames[|frames| - 1];
      && top.function_ < |code.functions| && top.ip < |code.functions[top.function_].code|
      && !heap.Fits(Reservation(code, frames, heap.cells, code.functions[top.function_].code[top.ip]))
    }

    /** The pure machine goes on, but the heap has no room for the step. */
    ghost predicate Starved()
      reads this, heap
    {
      V.Standing(code, View()) && CodeOk(code) && V.Step(code, granted, View()).Ok? && Short()
    }

    /** One step without the report to the caller. */
    method Execute() returns (err: Option<VmError>)
      requires Valid()
      modifies this`frames, this`steps, this`result, this`pending, heap
      ensures Valid()
      ensures Followed(old(State()), State(), View(), err, old(V.Step(code, granted, View())))
      ensures err != Some(HeapLimit) ==> Steps(code, granted, old(View()), Ended(err, View()))
      ensures err == Some(HeapLimit) <==> old(Starved())
      ensures err.None? ==> Keeps(old(heap.cells), heap.cells, handles)
      ensures err.Some? ==> !Safety.Excluded(err.value)
    {
      hide Reservation, At, Tree, HeapOk, TotalCharge, Keeps, V.Step, Safety.MachineOk, FramesRefs, Followed, Owned, StepMeans;
      ghost var was, before := State(), View();
      ValidStands(this);
      GuardGoal(this);
      ghost var want, short := V.Step(code, granted, View()), Short();
      assert Starved() <==> want.Ok? && short;
      err := Guard();
      if err.None? {
        var top := frames[|frames| - 1];
        err := Dispatch(code.functions[top.function_].code[top.ip]);
      }
      LimitExact(was, State(), View(), err, want, short);
      FollowedEnds(was, State(), View(), err, want);
      StepExact(code, granted, before, Ended(err, View()));
      StillValid(this, was, before, err);
    }

    // ----- the public interface -----

    /** Hands a value the VM holds to the caller, as a handle of its own. */
    method Hand(v: Value)
      requires Valid() && Holds(heap.cells, v)
      modifies this`handles, heap
      ensures Valid() && View() == old(View()) && handles == old(handles) + multiset{v}
      ensures Keeps(old(heap.cells), heap.cells, old(handles)) && Tree(heap.cells, v) == Tree(old(heap.cells), v)
    {
      hide Tree, HeapOk, TotalCharge, FramesRefs, Keeps, ViewOf, Safety.MachineOk, Valid, Holds, OptRefs;
      ValidOwned(this);
      Share(v);
      HandleAdded(FramesRefs(frames), multiset(inputs), OptRefs(result), handles, multiset{v});
      handles := handles + multiset{v};
      OwnedValid(this);
    }

    /** The caller drops handles. */
    method DropHandles(vs: seq<Value>, ghost rest: multiset<Value>)
      requires Valid() && handles == rest + multiset(vs)
      modifies this`handles, heap
      ensures Valid() && View() == old(View()) && handles == rest && heap.bytes <= old(heap.bytes)
      ensures Keeps(old(heap.cells), heap.cells, rest)
    {
      hide Tree, HeapOk, TotalCharge, FramesRefs, Keeps, ViewFrames, Trees, ViewOpt, Safety.MachineOk;
      ghost var h := heap.cells;
      ValidStands(this);
      ghost var kept := FramesRefs(frames) + multiset(inputs) + OptRefs(result) + rest;
      assert heap.refs == kept + multiset(vs);
      heap.Release(vs, kept);
      handles := rest;
      assert kept == Roots();
      SameView(this, h, kept);
      KeepsLess(h, heap.cells, kept, rest);
    }

    /** `step`: one instruction of the pure machine, and a report that shares the result once there is one. */
    method Step() returns (r: Result<ModuleStep, VmError>)
      requires Valid()
      modifies this`frames, this`steps, this`result, this`pending, this`handles, heap
      ensures Valid() && Keeps(old(heap.cells), heap.cells, old(handles))
      ensures r.Err? ==>
        Followed(old(State()), State(), View(), Some(r.error), old(V.Step(code, granted, View()))) && handles == old(handles)
      ensures r.Err? ==> !Safety.Excluded(r.error)
      ensures r == Err(HeapLimit) <==> old(Starved())
      ensures r.Ok? ==> old(V.Step(code, granted, View())) == Ok(View()) && r.value.result == result
      ensures r != Err(HeapLimit) ==> Steps(code, granted, old(View()), Instead(r, View()))
      ensures r.Ok? ==> handles == old(handles) + OptRefs(result)
    {
      hide Reservation, Tree, HeapOk, TotalCharge, Keeps, V.Step, Safety.MachineOk, FramesRefs, ViewOf, Steps;
      ValidStands(this);
      SelfKept(this);
      var top := frames[|frames| - 1];
      var instruction := code.functions[top.function_].code[top.ip];
      ghost var h := heap.cells;
      var err := Execute();
      if err.Some? { return Err(err.value); }
      if result.Some? {
        ghost var middle := heap.cells;
        ResultHeld(this);
        Hand(result.value);
        KeepsTransitive(h, middle, heap.cells, old(handles));
      }
      r := Ok(ModuleStep(top.function_, top.ip, instruction, result));
    }

    /** The next step fails with `e`: in the pure machine too, unless it is the heap limit. */
    ghost predicate Stopped(e: VmError)
      reads this, heap
    {
      && V.Standing(code, View()) && CodeOk(code) && !Safety.Excluded(e)
      && if e == HeapLimit then Starved() else V.Step(code, granted, View()) == Err(e)
    }

    /** One step of a run that has made `k` steps from `start`. */
    method Advance(ghost start: V.Machine, ghost k: nat) returns (err: Option<VmError>)
      requires Valid() && result.None? && Safety.StepsTo(code, granted, start, k, View())
      modifies this`frames, this`steps, this`result, this`pending, heap
      ensures Valid()
      ensures err.None? ==> Safety.StepsTo(code, granted, start, k + 1, View()) && Remaining(this) < old(Remaining(this))
      ensures err.None? ==> Keeps(old(heap.cells), heap.cells, handles)
      ensures err.Some? ==> State() == old(State()) && Stopped(err.value)
    {
      hide Reservation, Tree, HeapOk, TotalCharge, Keeps, V.Step, Safety.MachineOk, FramesRefs, ViewOf, Safety.StepsTo, Owned, At,
        CodeOk, Safety.Fuel;
      ValidStands(this);
      RemainingDrops(this);
      ghost var before := View();
      err := Execute();
      if err.Some? {
        ValidStands(this);
      } else {
        Safety.StepsExtend(code, granted, start, k, before, View());
      }
    }

    /** Steps until there is a result or an error; each step's report is dropped at once. */
    method RunToEnd() returns (err: Option<VmError>)
      requires Valid()
      modifies this`frames, this`steps, this`result, this`pending, heap
      ensures Valid() && Keeps(old(heap.cells), heap.cells, handles)
      ensures exists k: nat :: Safety.StepsTo(code, granted, old(View()), k, View())
      ensures err.None? ==> result.Some?
      ensures err.Some? ==> result.None? && Stopped(err.value)
    {
      hide Tree, HeapOk, TotalCharge, Keeps, V.Step, Safety.MachineOk, FramesRefs, ViewOf, Safety.StepsTo, Owned, Stopped, Safety.Fuel;
      ValidStands(this);
      SelfKept(this);
      ghost var k: nat := 0;
      ghost var h, start := heap.cells, View();
      NoSteps(code, granted, start);
      while result.None?
        invariant Valid() && Safety.StepsTo(code, granted, start, k, View()) && Keeps(h, heap.cells, handles)
        decreases Remaining(this)
      {
        ghost var cells := heap.cells;
        err := Advance(start, k);
        if err.Some? { return; }
        KeepsTransitive(h, cells, heap.cells, handles);
        k := k + 1;
      }
      err := None;
    }

    /** `run`: the result the pure machine reaches, or the error of the step that stops the run. */
    method Run() returns (r: Result<Value, VmError>)
      requires Valid()
      modifies this`frames, this`steps, this`result, this`pending, this`handles, heap
      ensures Valid() && Keeps(old(heap.cells), heap.cells, old(handles))
      ensures exists k: nat :: Safety.StepsTo(code, granted, old(View()), k, View())
      ensures r.Ok? ==> View().result == Some(Tree(heap.cells, r.value)) && handles == old(handles) + multiset{r.value}
      ensures r.Err? ==> Stopped(r.error) && result.None? && handles == old(handles)
    {
      hide Tree, HeapOk, TotalCharge, Keeps, Safety.MachineOk, FramesRefs, ViewOf, Safety.StepsTo, Stopped, Owned;
      ghost var h := heap.cells;
      var err := RunToEnd();
      if err.Some? { return Err(err.value); }
      ResultHeld(this);
      ghost var cells := heap.cells;
      Hand(result.value);
      KeepsTransitive(h, cells, heap.cells, old(handles));
      r := Ok(result.value);
    }

    /** `resume_import`: the host's value takes the place of the arguments. A failure leaves the import pending. */
    method ResumeImport(value: OwnedValue) returns (err: Option<VmError>)
      requires Valid()
      modifies this`frames, this`steps, this`pending, heap
      ensures Valid() && Keeps(old(heap.cells), heap.cells, handles)
      ensures old(V.Standing(code, View()) && V.ArgumentsPresent(code, View()))
      ensures err.Some? ==> State() == old(State())
      ensures err.Some? && err.value != HeapLimit ==> old(V.Resume(code, View(), value)) == Err(err.value)
      ensures err == Some(HeapLimit) ==> !old(heap.Fits(Charge(value)))
      ensures err.None? ==> old(heap.Fits(Charge(value)))
      ensures err.None? ==> old(V.Resume(code, View(), value)) == Ok(View())
      ensures err != Some(HeapLimit) ==> Resumes(code, old(View()), value, Ended(err, View()))
    {
      hide Tree, HeapOk, TotalCharge, Keeps, Safety.MachineOk, FramesRefs, Charge, V.Resume, ViewFrames, Trees, ViewOpt,
        CodeOk, ConstantsOk, At, Height, Owned, View, Delivered, ResumeGuard, V.Standing, V.ArgumentsPresent, Resumes;
      ValidStands(this);
      SelfKept(this);
      Safety.ResumeSafe(code, granted, View(), value);
      ResumeGoal(this, value);
      ResumeObeys(code, View(), value);
      err := ResumeGuard(value);
      if err.None? {
        Deliver(value);
        OwnedValid(this);
      }
    }

    /** The pure machine once the host's value took the place of the arguments. */
    ghost function Delivered(value: OwnedValue): V.Machine
      requires Deliverable()
      reads this, heap
    {
      var resumed := Resumed(ViewFrame(heap.cells, frames[|frames| - 1]), code.imports[pending.value].arity, value);
      View().(frames := V.ReplaceTop(ViewFrames(heap.cells, frames), resumed), steps := steps + 1, pending := None)
    }

    /** An import waits for its value, with its arguments on the stack. */
    ghost predicate Deliverable()
      reads this
    {
      && frames != [] && pending.Some? && pending.value < |code.imports|
      && code.imports[pending.value].arity <= |frames[|frames| - 1].stack|
    }

    /** Puts the host's value in place of the arguments and moves on. */
    method Deliver(value: OwnedValue)
      requires Owned() && Deliverable() && heap.Fits(Charge(value)) && Height(value) <= MAX_VALUE_DEPTH
      modifies this`frames, this`steps, this`pending, heap
      ensures Owned() && View() == old(Delivered(value)) && Keeps(old(heap.cells), heap.cells, handles)
    {
      hide Tree, HeapOk, TotalCharge, Keeps, FramesRefs, Charge, ViewFrames, ViewFrame, Trees, ViewOpt, Height, ViewOf, Supplied,
        Resumed, Owned;
      ghost var was := State();
      var arity := code.imports[pending.value].arity;
      Supply(value, arity);
      steps := steps + 1;
      pending := None;
      SuppliedView(was, State(), arity, value);
    }

    /** The checks before a host value is imported. */
    function ResumeGuard(value: OwnedValue): Option<VmError>
      requires frames != [] && (pending.Some? ==> pending.value < |code.imports|)
      reads this, heap
    {
      if pending.None? then Some(NoPendingImport)
      else if code.imports[pending.value].arity == 0 &&
        (|frames[|frames| - 1].stack| >= MAX_OPERAND_STACK || LiveSlots(frames) >= MAX_LIVE_SLOTS) then Some(OperandStackLimit)
      else
        var charge := ValueCharge(value, 0);
        if charge.Err? then Some(charge.error)
        else if !heap.Fits(charge.value) then Some(HeapLimit)
        else None
    }

    /** Imports a host value and puts it in place of the top `arity` operands. */
    method Supply(value: OwnedValue, arity: nat)
      requires Owned() && arity <= |frames[|frames| - 1].stack|
      requires heap.Fits(Charge(value)) && Height(value) <= MAX_VALUE_DEPTH
      modifies this`frames, heap
      ensures Owned() && Keeps(old(heap.cells), heap.cells, handles)
      ensures Supplied(old(heap.cells), old(frames), heap.cells, frames, arity, value)
      ensures ViewOpt(heap.cells, result) == old(ViewOpt(heap.cells, result)) && Trees(heap.cells, inputs) == old(Trees(heap.cells, inputs))
    {
      hide Tree, HeapOk, TotalCharge, Keeps, FramesRefs, FrameRefs, Height, Charge, ViewFrame, Trees, ViewOpt, TopBecomes, ViewFrames,
        Counted, Past, Supplied, Owned, Rest;
      SupplyPlan(this, arity);
      var top := frames[|frames| - 1];
      var args := top.stack[|top.stack| - arity..];
      ghost var h := heap.cells;
      var v := ImportFor(value, args, BelowTop() + FrameRefs(Past(top, arity)));
      PutResult(Past(top, arity), v, h);
      RestKept(this, h);
      SupplyDone(h, old(frames), heap.cells, frames, arity, v, value);
    }

    /** Imports a host value, then drops the arguments it replaces. */
    method ImportFor(value: OwnedValue, args: seq<Value>, ghost kept: multiset<Value>) returns (v: Value)
      requires heap.Valid() && heap.refs == kept + multiset(args)
      requires heap.Fits(Charge(value)) && Height(value) <= MAX_VALUE_DEPTH
      modifies heap
      ensures heap.Valid() && heap.refs == kept + multiset{v}
      ensures Keeps(old(heap.cells), heap.cells, kept) && Tree(heap.cells, v) == value
    {
      hide Tree, TotalCharge, Keeps, Height, Charge, Extends, ObjectsExact;
      ghost var h, refs := heap.cells, heap.refs;
      v := heap.Import(value);
      ghost var imported := heap.cells;
      assert heap.refs == (kept + multiset{v}) + multiset(args);
      heap.Release(args, kept + multiset{v});
      Operations.KeptThrough(h, imported, heap.cells, kept, kept + multiset{v}, refs);
      KeptTree(imported, heap.cells, kept + multiset{v}, v);
    }

    /** `frames`: a debugger view; the values in it stay alive while the caller holds it. */
    method Frames() returns (views: seq<Frame>)
      requires Valid()
      modifies this`handles, heap
      ensures Valid() && View() == old(View()) && views == frames && handles == old(handles) + FramesRefs(views)
      ensures heap.bytes == old(heap.bytes) && Keeps(old(heap.cells), heap.cells, Roots())
    {
      hide Tree, HeapOk, TotalCharge, FramesRefs, Keeps, ViewOf, Safety.MachineOk, Extends;
      ghost var h, refs := heap.cells, heap.refs;
      ValidStands(this);
      RootsHeld(this);
      FramesValuesOwned(frames);
      heap.CloneAll(FramesValues(frames));
      ExtendsKeeps(h, heap.cells, refs);
      SameView(this, h, refs);
      ClonesKept(h, heap.cells, refs, FramesRefs(frames));
      HandleAdded(FramesRefs(frames), multiset(inputs), OptRefs(result), handles, FramesRefs(frames));
      handles := handles + FramesRefs(frames);
      views := frames;
    }

    /** The request of a suspended import: its arguments as the pure machine has them. */
    method PendingImport() returns (r: Result<Option<ImportRequest>, VmError>)
      requires Valid()
      ensures r.Ok? && (r.value.Some? <==> pending.Some?)
      ensures pending.Some? ==>
        pending.value < |code.imports| &&
        var import_, stack := code.imports[pending.value], View().frames[|frames| - 1].stack;
        |stack| >= import_.arity && r.value.value == ImportRequest(import_.name, stack[|stack| - import_.arity..])
    {
      hide Tree, TotalCharge, FramesRefs, Safety.MachineOk, HeapOk, ObjectsExact, ChildrenHeld, ConstantsOk, CodeOk, ModuleOk,
        V.ArgumentsPresent, ViewFrames, Counted;
      ValidStands(this);
      StackHeld(this);
      ArgumentsOnStack(this);
      if pending.None? { return Ok(None); }
      var import_, stack := code.imports[pending.value], frames[|frames| - 1].stack;
      var args := stack[|stack| - import_.arity..];
      TopOwned(this);
      ChildHeld(heap.cells, heap.refs);
      ArgumentsResolve(heap.cells, stack, args);
      var arguments := ResolveItems(heap.cells, args, 0);
      r := Ok(Some(ImportRequest(import_.name, arguments.value)));
    }

    /** `with_inputs_and_imports`: accepts exactly the inputs that match the module and fit the limits, and
        starts the pure machine on them. */
    static method WithInputs(code: Module, inputs: seq<OwnedValue>, heapLimit: nat, granted: set<string>)
      returns (r: Result<Vm, VmError>)
      requires ModuleOk(code)
      ensures r.Ok? <==>
        && |inputs| == code.inputCount && heapLimit <= MAX_MODULE_HEAP_BYTES && ItemsCharge(inputs) <= heapLimit
        && forall i :: 0 <= i < |inputs| ==> Height(inputs[i]) <= MAX_VALUE_DEPTH
      ensures |inputs| != code.inputCount ==> r == Err(InputCountMismatch)
      ensures r.Err? && |inputs| == code.inputCount ==>
        (r.error == HeapLimit && (heapLimit > MAX_MODULE_HEAP_BYTES || ItemsCharge(inputs) > heapLimit)) ||
        (r.error == ValueDepthLimit && exists i :: 0 <= i < |inputs| && Height(inputs[i]) > MAX_VALUE_DEPTH)
      ensures r.Ok? ==> fresh(r.value) && fresh(r.value.heap) && r.value.Valid() && r.value.handles == multiset{}
      ensures r.Ok? ==> r.value.code == code && r.value.granted == granted && r.value.heap.limit == heapLimit
      ensures r.Ok? ==> r.value.View() == Safety.Initial(code, inputs)
    {
      hide Tree, HeapOk, TotalCharge, FramesRefs, Safety.MachineOk, ModuleOk, AllSafe, CodeOk, ConstantsOk, Vm.Valid, Vm.View;
      EntryTakesNothing(code);
      if |inputs| != code.inputCount { return Err(InputCountMismatch); }
      if heapLimit > MAX_MODULE_HEAP_BYTES { return Err(HeapLimit); }
      var vm := new Vm(code, heapLimit, granted);
      var charge := InputsCharge(inputs);
      if charge.Err? { return Err(charge.error); }
      if !vm.heap.Fits(charge.value) { return Err(HeapLimit); }
      vm.Load(inputs);
      r := Ok(vm);
    }

    /** Imports the inputs into a new VM. */
    method Load(values: seq<OwnedValue>)
      requires Owned() && inputs == [] && ModuleOk(code) && |values| == code.inputCount
      requires code.entry < |code.functions| && code.functions[code.entry].arity == 0
      requires frames == [Frame(code.entry, 0, seq(code.functions[code.entry].localCount, _ => None), [])]
      requires steps == 0 && result.None? && pending.None?
      requires heap.Fits(ItemsCharge(values)) && forall i :: 0 <= i < |values| ==> Height(values[i]) <= MAX_VALUE_DEPTH
      modifies this`inputs, heap
      ensures Valid() && View() == Safety.Initial(code, values)
    {
      hide Tree, HeapOk, TotalCharge, FramesRefs, Safety.MachineOk, ModuleOk;
      HeightsBound(values);
      inputs := heap.ImportItems(values);
      assert heap.refs == Roots();
      InitialView(this, values);
      Safety.InitialOk(code, granted, values);
    }
  }

  // ----- the pure machine at the instruction at hand -----

  lemma TopBelow(vm: Vm)
    requires vm.frames != []
    ensures FramesRefs(vm.frames) + vm.Rest() == vm.BelowTop() + FrameRefs(vm.frames[|vm.frames| - 1])
  {
  }

  /** The parts of the view outside the frames do not change when their references are kept. */
  lemma RestKept(vm: Vm, h: seq<Cell>)
    requires Keeps(h, vm.heap.cells, vm.Rest())
    ensures ViewOpt(vm.heap.cells, vm.result) == ViewOpt(h, vm.result)
    ensures Trees(vm.heap.cells, vm.inputs) == Trees(h, vm.inputs)
    ensures Keeps(h, vm.heap.cells, vm.handles)
  {
    OptKept(h, vm.heap.cells, vm.Rest(), vm.result);
    TreesKept(h, vm.heap.cells, vm.Rest(), vm.inputs);
    KeepsLess(h, vm.heap.cells, vm.Rest(), vm.handles);
  }

  lemma ReturnGoal(vm: Vm)
    requires vm.At(Return) && |vm.frames| > 1 && vm.frames[|vm.frames| - 1].stack != []
    ensures var h, n := vm.heap.cells, |vm.frames| - 1;
      var v := vm.frames[n].stack[|vm.frames[n].stack| - 1];
      var caller := ViewFrame(h, vm.frames[n - 1]);
      V.ReturnStep(vm.View()) ==
        if |vm.frames[n - 1].stack| >= MAX_OPERAND_STACK then Err(OperandStackLimit)
        else Ok(vm.View().(
          frames := V.ReplaceTop(ViewFrames(h, vm.frames)[..n], caller.(stack := caller.stack + [Tree(h, v)])),
          steps := vm.steps + 1))
  {
    hide HeapOk, Tree, CodeOk, ConstantsOk, FramesRefs;
  }

  lemma CallGoal(vm: Vm, op: Op)
    requires vm.At(op) && op.Call?
    ensures op.callee < |vm.code.functions| && vm.code.functions[op.callee].arity <= vm.code.functions[op.callee].localCount
    ensures var h, f, top := vm.heap.cells, vm.code.functions[op.callee], vm.frames[|vm.frames| - 1];
      var n := |top.stack|;
      V.CallStep(vm.code, vm.View()) ==
        if n < f.arity then Err(OperandStackUnderflow)
        else if |vm.frames| >= MAX_CALL_FRAMES then Err(CallFrameLimit)
        else if LiveSlots(vm.frames) - f.arity + f.localCount > MAX_LIVE_SLOTS then Err(LiveSlotLimit)
        else
          var caller := top.(stack := top.stack[..n - f.arity], ip := top.ip + 1);
          Ok(vm.View().(
            frames := ViewFrames(h, ReplaceTop(vm.frames, caller) + [Entered(f, op.callee, top.stack[n - f.arity..])]),
            steps := vm.steps + 1))
  {
    hide Tree, HeapOk, ConstantsOk, FramesRefs, LiveSlots, V.LiveSlots;
    var h, top := vm.heap.cells, vm.frames[|vm.frames| - 1];
    var owner := vm.code.functions[vm.View().frames[|vm.frames| - 1].function_];
    assert FunctionOk(owner, vm.code.Scope(), |vm.code.constants|, vm.code.inputCount);
    assert OpInRange(op, owner, vm.code.Scope());
    var f := vm.code.functions[op.callee];
    assert FunctionOk(f, vm.code.Scope(), |vm.code.constants|, vm.code.inputCount);
    LiveSlotsViewed(h, vm.frames);
    if |top.stack| >= f.arity {
      CalledView(h, vm.frames, f, op.callee);
    }
  }

  /** `Valid` for the frame and instruction at hand. */
  lemma ValidStands(vm: Vm)
    requires vm.Valid()
    ensures vm.Owned() && CodeOk(vm.code) && V.Standing(vm.code, vm.View())
    ensures vm.At(V.OpAt(vm.code, vm.View()))
    ensures var top := vm.frames[|vm.frames| - 1];
      && top.function_ < |vm.code.functions| && top.ip < |vm.code.functions[top.function_].code|
      && V.OpAt(vm.code, vm.View()) == vm.code.functions[top.function_].code[top.ip]
  {
    hide Tree, HeapOk, AllSafe, PeakDepth, LocalRefs;
    assert vm.View().frames != [];
  }

  lemma GuardGoal(vm: Vm)
    requires V.Standing(vm.code, vm.View()) && CodeOk(vm.code)
    ensures vm.Guard().Some? ==>
      Followed(vm.State(), vm.State(), vm.View(), vm.Guard(), V.Step(vm.code, vm.granted, vm.View()))
  {
    hide Tree;
  }

  /** What a call that follows the pure machine came to, unless the heap limit stopped it. */
  lemma FollowedEnds(was: Raw, now: Raw, view: V.Machine, err: Option<VmError>, want: Result<V.Machine, VmError>)
    requires Followed(was, now, view, err, want)
    ensures err != Some(HeapLimit) ==> want == Ended(err, view)
  {
  }

  /** Validity after a step, from the soundness of the pure machine's step. */
  lemma StillValid(vm: Vm, was: Raw, before: V.Machine, err: Option<VmError>)
    requires vm.Owned() && before == ViewOf(was) && Safety.MachineOk(vm.code, vm.granted, before)
    requires V.Standing(vm.code, before) && CodeOk(vm.code)
    requires Followed(was, vm.State(), vm.View(), err, V.Step(vm.code, vm.granted, before))
    ensures vm.Valid() && (err.Some? ==> !Safety.Excluded(err.value))
  {
    hide Tree, V.Step, Safety.MachineOk, FramesRefs, HeapOk;
    Safety.StepSafe(vm.code, vm.granted, before);
  }

  /** Keeping every reference keeps the whole view. */
  lemma SameView(vm: Vm, h: seq<Cell>, refs: multiset<Value>)
    requires Keeps(h, vm.heap.cells, refs) && refs == vm.Roots()
    ensures vm.View() == ViewOf(vm.State().(cells := h))
  {
    hide Tree, Keeps, FramesRefs;
    KeepsLess(h, vm.heap.cells, refs, FramesRefs(vm.frames));
    FramesKept(h, vm.heap.cells, FramesRefs(vm.frames), vm.frames);
    KeepsLess(h, vm.heap.cells, refs, vm.Rest());
    RestKept(vm, h);
  }

  lemma FinishGoal(vm: Vm)
    requires |vm.frames| == 1 && vm.frames[0].stack != []
    ensures var v := Tree(vm.heap.cells, vm.frames[0].stack[|vm.frames[0].stack| - 1]);
      V.ReturnStep(vm.View()) == Ok(vm.View().(result := Some(v), steps := vm.steps + 1))
  {
    hide Tree;
  }

  lemma ResultHeld(vm: Vm)
    requires vm.Valid() && vm.result.Some?
    ensures Holds(vm.heap.cells, vm.result.value)
    ensures vm.View().result == Some(Tree(vm.heap.cells, vm.result.value))
  {
    hide Tree, Safety.MachineOk;
    ChildHeld(vm.heap.cells, vm.heap.refs);
    assert vm.result.value in OptRefs(vm.result);
  }

  /** Successful steps still possible. */
  ghost function Remaining(vm: Vm): nat
    reads vm, vm.heap
    requires vm.Valid()
  {
    Safety.Fuel(vm.View())
  }

  lemma RemainingDrops(vm: Vm)
    requires vm.Valid()
    ensures V.Standing(vm.code, vm.View()) && CodeOk(vm.code)
    ensures V.Step(vm.code, vm.granted, vm.View()).Ok? ==>
      var next := V.Step(vm.code, vm.granted, vm.View()).value;
      next.steps <= MAX_MODULE_STEPS && Safety.Fuel(next) < Remaining(vm)
  {
    hide Tree, HeapOk, V.Step;
    Safety.StepUsesFuel(vm.code, vm.granted, vm.View());
  }

  lemma SupplyPlan(vm: Vm, arity: nat)
    requires vm.Owned() && arity <= |vm.frames[|vm.frames| - 1].stack|
    ensures vm.frames != [] && vm.heap.Valid() && vm.heap.limit <= MAX_MODULE_HEAP_BYTES
    ensures var top := vm.frames[|vm.frames| - 1];
      vm.heap.refs == vm.BelowTop() + FrameRefs(Past(top, arity)) + multiset(top.stack[|top.stack| - arity..])
  {
    hide Tree, HeapOk, TotalCharge, FramesRefs, FrameRefs, Counted;
    var top := vm.frames[|vm.frames| - 1];
    TopOwned(vm);
    SplitRefs(top, Past(top, arity), top.stack[|top.stack| - arity..]);
  }

  lemma ResumeGoal(vm: Vm, value: OwnedValue)
    requires V.Standing(vm.code, vm.View()) && V.ArgumentsPresent(vm.code, vm.View())
    requires vm.heap.limit <= MAX_MODULE_HEAP_BYTES
    ensures vm.frames != [] && (vm.pending.Some? ==> vm.pending.value < |vm.code.imports|)
    ensures var want, guard := V.Resume(vm.code, vm.View(), value), vm.ResumeGuard(value);
      && (guard.Some? && guard.value != HeapLimit ==> want == Err(guard.value))
      && (guard == Some(HeapLimit) ==> !vm.heap.Fits(Charge(value)))
      && (guard.None? ==> vm.heap.Fits(Charge(value)) && Height(value) <= MAX_VALUE_DEPTH)
      && (guard.None? ==> vm.Deliverable() && want == Ok(vm.Delivered(value)))
  {
    hide Tree, Height, Charge, LiveSlots, V.LiveSlots, ValueCharge;
    LiveSlotsViewed(vm.heap.cells, vm.frames);
    ValueChargeExact(value, 0);
    assert |vm.View().frames| == |vm.frames|;
  }

  lemma ValidOwned(vm: Vm)
    requires vm.Valid()
    ensures vm.Owned() && Safety.MachineOk(vm.code, vm.granted, vm.View())
  {
    hide Safety.MachineOk;
    ValidStands(vm);
  }

  lemma OwnedValid(vm: Vm)
    requires vm.Owned() && Safety.MachineOk(vm.code, vm.granted, vm.View())
    ensures vm.Valid()
  {
  }

  lemma RootsHeld(vm: Vm)
    requires vm.Owned()
    ensures Counted(vm.heap.cells, vm.heap.refs)
    ensures forall v :: v in FramesValues(vm.frames) ==> Holds(vm.heap.cells, v)
  {
    ChildHeld(vm.heap.cells, vm.heap.refs);
    FramesValuesOwned(vm.frames);
    forall v | v in FramesValues(vm.frames) ensures Holds(vm.heap.cells, v) {
      assert v in multiset(FramesValues(vm.frames));
      assert v in vm.heap.refs;
    }
  }

  lemma ArgumentsOnStack(vm: Vm)
    requires vm.Valid()
    ensures vm.frames != [] && |vm.View().frames| == |vm.frames|
    ensures vm.View().frames[|vm.frames| - 1].stack == Trees(vm.heap.cells, vm.frames[|vm.frames| - 1].stack)
    ensures vm.pending.Some? ==>
      vm.pending.value < |vm.code.imports| && vm.code.imports[vm.pending.value].arity <= |vm.frames[|vm.frames| - 1].stack|
  {
    hide Tree, Safety.MachineOk, HeapOk, TotalCharge;
    ValidStands(vm);
    Safety.ResumeSafe(vm.code, vm.granted, vm.View(), OwnedValue.Null);
    assert |vm.View().frames[|vm.frames| - 1].stack| == |vm.frames[|vm.frames| - 1].stack|;
  }

  lemma InitialView(vm: Vm, values: seq<OwnedValue>)
    requires vm.code.entry < |vm.code.functions| && vm.code.functions[vm.code.entry].arity == 0
    requires vm.frames == [Frame(vm.code.entry, 0, seq(vm.code.functions[vm.code.entry].localCount, _ => None), [])]
    requires vm.steps == 0 && vm.result.None? && vm.pending.None? && Trees(vm.heap.cells, vm.inputs) == values
    ensures vm.View() == Safety.Initial(vm.code, values)
  {
    hide Tree;
    var h, f := vm.heap.cells, vm.code.functions[vm.code.entry];
    assert ViewLocals(h, vm.frames[0].locals) == V.Entered(f, vm.code.entry, []).locals;
    assert Trees(h, []) == [];
    assert ViewFrames(h, vm.frames) == [V.Entered(f, vm.code.entry, [])];
  }

  lemma EmptyReturn(vm: Vm)
    requires vm.frames != []
    ensures vm.frames[|vm.frames| - 1].stack == [] ==> V.ReturnStep(vm.View()) == Err(OperandStackUnderflow)
  {
    hide Tree;
  }

  /** The pure machine's step, by kind of instruction. */
  lemma StepGoal(vm: Vm, op: Op)
    requires vm.At(op) && vm.pending.None? && vm.result.None? && vm.steps < MAX_MODULE_STEPS
    ensures V.Standing(vm.code, vm.View()) && CodeOk(vm.code)
    ensures var want := V.Step(vm.code, vm.granted, vm.View());
      && (op.Call? ==> want == V.CallStep(vm.code, vm.View()))
      && (op.Return? ==> want == V.ReturnStep(vm.View()))
      && (op.Return? && vm.frames[|vm.frames| - 1].stack == [] ==> want == Err(OperandStackUnderflow))
      && (op.Import? ==> op.index < |vm.code.imports|)
      && (op.Import? ==> want == (if vm.code.imports[op.index].name !in vm.granted then Err(ImportDenied)
                                  else Ok(vm.View().(pending := Some(op.index)))))
      && (!op.Call? && !op.Return? && !op.Import? && vm.Goal(op).Err? ==> want == Err(vm.Goal(op).error))
      && (!op.Call? && !op.Return? && !op.Import? && vm.Goal(op).Ok? ==>
           want == Ok(vm.View().(frames := V.ReplaceTop(ViewFrames(vm.heap.cells, vm.frames), vm.Goal(op).value), steps := vm.steps + 1)))
  {
    hide Tree, HeapOk, FramesRefs, V.TopStep, V.CallStep, ConstantsOk;
    var f := vm.code.functions[vm.View().frames[|vm.frames| - 1].function_];
    assert FunctionOk(f, vm.code.Scope(), |vm.code.constants|, vm.code.inputCount);
    assert OpInRange(op, f, vm.code.Scope());
  }

  lemma SelfKept(vm: Vm)
    requires vm.Owned()
    ensures Keeps(vm.heap.cells, vm.heap.cells, vm.handles)
  {
    ChildHeld(vm.heap.cells, vm.heap.refs);
    forall v | v in vm.handles ensures Holds(vm.heap.cells, v) { assert v in vm.heap.refs; }
  }

  lemma StayedView(vm: Vm, op: Op, h: seq<Cell>, was: seq<Frame>, goal: Result<V.Frame, VmError>, err: Option<VmError>)
    requires was != [] && Done(h, was, goal, vm.heap.cells, vm.frames, err, vm.Rest())
    ensures err.None? ==>
      && goal.Ok? && Keeps(h, vm.heap.cells, vm.handles)
      && vm.View().frames == V.ReplaceTop(ViewFrames(h, was), goal.value)
      && vm.View().result == ViewOpt(h, vm.result) && vm.View().inputs == Trees(h, vm.inputs)
    ensures err.Some? ==>
      && vm.frames == was && vm.heap.cells == h
      && if err.value == HeapLimit then goal.Ok? else goal == Err(err.value)
  {
    hide Tree, Keeps;
    if err.None? { RestKept(vm, h); }
  }

  lemma SetGoal(vm: Vm, op: Op)
    requires vm.At(op) && op.LocalSet?
    ensures var h, top := vm.heap.cells, vm.frames[|vm.frames| - 1];
      var n := |top.stack|;
      && op.slot < |top.locals|
      && vm.Goal(op) ==
        if n == 0 then Err(OperandStackUnderflow)
        else Ok(ViewFrame(h, top.(locals := top.locals[op.slot := Some(top.stack[n - 1])], stack := top.stack[..n - 1], ip := top.ip + 1)))
  {
    hide Tree, HeapOk, ConstantsOk, FramesRefs, CodeOk;
    var h, top := vm.heap.cells, vm.frames[|vm.frames| - 1];
    SlotInRange(vm, op);
    var n := |top.stack|;
    if n > 0 {
      assert Trees(h, top.stack[..n - 1]) == Trees(h, top.stack)[..n - 1];
      assert ViewLocals(h, top.locals[op.slot := Some(top.stack[n - 1])]) ==
        ViewLocals(h, top.locals)[op.slot := Some(Tree(h, top.stack[n - 1]))];
    }
  }

  lemma SlotInRange(vm: Vm, op: Op)
    requires vm.At(op) && op.LocalSet?
    ensures op.slot < |vm.frames[|vm.frames| - 1].locals|
  {
    var top := vm.View().frames[|vm.frames| - 1];
    assert FunctionOk(vm.code.functions[top.function_], vm.code.Scope(), |vm.code.constants|, vm.code.inputCount);
    assert OpInRange(op, vm.code.functions[top.function_], vm.code.Scope());
  }

  lemma StackHeld(vm: Vm)
    requires vm.Owned()
    ensures ObjectsExact(vm.heap.cells) && forall v :: v in vm.frames[|vm.frames| - 1].stack ==> Holds(vm.heap.cells, v)
  {
    ChildHeld(vm.heap.cells, vm.heap.refs);
    var top := vm.frames[|vm.frames| - 1];
    forall v | v in top.stack ensures Holds(vm.heap.cells, v) {
      assert v in multiset(top.stack);
      assert v in FrameRefs(top);
      assert v in vm.heap.refs;
    }
  }

  lemma BranchGoal(vm: Vm, op: Op)
    requires vm.At(op) && op.JumpIfZero?
    ensures var h, top := vm.heap.cells, vm.frames[|vm.frames| - 1];
      var n := |top.stack|;
      && (n > 0 ==> Holds(h, top.stack[n - 1]))
      && vm.Goal(op) ==
        if n == 0 then Err(OperandStackUnderflow)
        else
          var zero := IsZero(h, top.stack[n - 1]);
          if zero.Err? then Err(zero.error)
          else Ok(ViewFrame(h, top.(stack := top.stack[..n - 1], ip := if zero.value then op.target else top.ip + 1)))
  {
    hide HeapOk, ConstantsOk, CodeOk, FramesRefs, ObjectsExact;
    StackHeld(vm);
    var h, top := vm.heap.cells, vm.frames[|vm.frames| - 1];
    var n := |top.stack|;
    if n > 0 {
      assert top.stack[n - 1] in top.stack;
      Operations.TreeShape(h, top.stack[n - 1]);
      assert Trees(h, top.stack[..n - 1]) == Trees(h, top.stack)[..n - 1];
    }
  }

  lemma JumpGoal(vm: Vm, op: Op)
    requires vm.At(op) && op.Jump?
    ensures vm.Goal(op) == Ok(ViewFrame(vm.heap.cells, vm.frames[|vm.frames| - 1].(ip := op.target)))
  {
    hide Tree, HeapOk, CodeOk, ConstantsOk, FramesRefs;
  }

  /** The pure machine's new top frame is what the instruction must give. */
  lemma GoalMeans(vm: Vm, op: Op)
    requires vm.At(op) && !op.Call? && !op.Import? && !op.Return?
    ensures vm.View().frames != [] && StayMeans(vm.code, vm.View(), op, vm.Goal(op))
  {
    hide StayMeans, V.TopStep, Tree, HeapOk, ConstantsOk, CodeOk, FramesRefs;
    StayExact(vm.code, vm.View(), vm.Goal(op));
  }

  lemma DoneRight(
    m: Module, s: V.Machine, op: Op, h: seq<Cell>, was: seq<Frame>, goal: Result<V.Frame, VmError>,
    g: seq<Cell>, now: seq<Frame>, err: Option<VmError>, rest: multiset<Value>)
    requires was != [] && now != [] && s.frames != [] && StayMeans(m, s, op, goal) && Done(h, was, goal, g, now, err, rest)
    ensures StaysRight(m, s, op, err, ViewFrame(g, now[|now| - 1]))
  {
    hide StayMeans, ViewFrame, Keeps;
    if err.None? {
      assert ViewFrames(g, now)[|now| - 1] == V.ReplaceTop(ViewFrames(h, was), goal.value)[|was| - 1];
    }
  }

  lemma OperationGoal(vm: Vm, op: Op)
    requires vm.At(op) && V.IsOperation(op)
    ensures var h, top := vm.heap.cells, vm.frames[|vm.frames| - 1];
      var n, count := |top.stack|, Required(op, vm.code.Scope());
      vm.Goal(op) ==
        if n < count then Err(OperandStackUnderflow)
        else
          var v := V.Operate(op, Trees(h, top.stack[n - count..]), vm.code.Scope());
          if v.Err? then Err(v.error)
          else Ok(ViewFrame(h, Past(top, count)).(stack := Trees(h, Past(top, count).stack) + [v.value]))
  {
    hide Tree, HeapOk, ConstantsOk, CodeOk, FramesRefs, V.Operate;
    var h, top := vm.heap.cells, vm.frames[|vm.frames| - 1];
    var n, count := |top.stack|, Required(op, vm.code.Scope());
    if n >= count {
      assert Trees(h, top.stack)[n - count..] == Trees(h, top.stack[n - count..]);
      assert Trees(h, top.stack)[..n - count] == Trees(h, top.stack[..n - count]);
    }
  }

  lemma StandingOwned(vm: Vm, op: Op)
    requires vm.At(op)
    ensures vm.Owned() && vm.frames != []
  {
  }

  lemma TopOwned(vm: Vm)
    requires vm.Owned()
    ensures vm.frames != [] && vm.heap.Valid() && vm.heap.limit <= MAX_MODULE_HEAP_BYTES
    ensures Counted(vm.heap.cells, vm.heap.refs)
    ensures vm.heap.refs == vm.BelowTop() + FrameRefs(vm.frames[|vm.frames| - 1])
  {
  }

  lemma TopOwnedAgain(vm: Vm)
    requires vm.frames != [] && vm.heap.Valid() && vm.heap.limit <= MAX_MODULE_HEAP_BYTES
    requires vm.heap.refs == vm.BelowTop() + FrameRefs(vm.frames[|vm.frames| - 1])
    ensures vm.Owned()
  {
    TopBelow(vm);
  }

  /** The pure machine's answer to a pushing instruction. */
  lemma PushGoal(vm: Vm, op: Op)
    requires vm.At(op) && V.IsPush(op)
    ensures var top := ViewFrame(vm.heap.cells, vm.frames[|vm.frames| - 1]);
      vm.Goal(op) ==
        if vm.CheckPush().Some? then Err(vm.CheckPush().value)
        else if vm.Wanted(op).Err? then Err(vm.Wanted(op).error)
        else
          var locals := if op.LocalTake? then top.locals[op.slot := None] else top.locals;
          Ok(top.(locals := locals, stack := top.stack + [vm.Wanted(op).value], ip := top.ip + 1))
  {
    hide Tree, HeapOk, CodeOk, ConstantsOk, V.Pushed, V.PushLimit, V.LiveSlots, LiveSlots, FramesRefs, ViewLocals, Trees;
    PushInRange(vm, op);
    LiveSlotsViewed(vm.heap.cells, vm.frames);
    var s := vm.View();
    assert s.frames[|s.frames| - 1] == ViewFrame(vm.heap.cells, vm.frames[|vm.frames| - 1]);
    assert V.PushLimit(|s.frames[|s.frames| - 1].stack|, V.LiveSlots(s.frames)) == vm.CheckPush();
  }

  lemma PushedGoal(vm: Vm, op: Op)
    requires vm.At(op) && V.IsPush(op) && !op.LocalTake? && vm.CheckPush().None?
    ensures var top := ViewFrame(vm.heap.cells, vm.frames[|vm.frames| - 1]);
      vm.Goal(op) ==
        if vm.Wanted(op).Err? then Err(vm.Wanted(op).error)
        else Ok(top.(stack := top.stack + [vm.Wanted(op).value], ip := vm.frames[|vm.frames| - 1].ip + 1))
  {
    hide Tree, Trees, ViewLocals, Vm.Goal, Vm.Wanted, Vm.At, Vm.CheckPush;
    PushGoal(vm, op);
  }

  lemma PushInRange(vm: Vm, op: Op)
    requires vm.At(op) && V.IsPush(op)
    ensures DataInRange(op, |vm.code.constants|, vm.code.inputCount)
    ensures op.LocalGet? || op.LocalTake? ==> op.slot < |vm.frames[|vm.frames| - 1].locals|
  {
    var top := vm.View().frames[|vm.frames| - 1];
    assert FunctionOk(vm.code.functions[top.function_], vm.code.Scope(), |vm.code.constants|, vm.code.inputCount);
    assert OpInRange(op, vm.code.functions[top.function_], vm.code.Scope());
  }

  ghost predicate LocalWanted(vm: Vm, slot: nat, want: Result<OwnedValue, VmError>)
    requires vm.frames != []
    reads vm, vm.heap
  {
    var locals := vm.frames[|vm.frames| - 1].locals;
    && slot < |locals|
    && want == if locals[slot].Some? then Ok(Tree(vm.heap.cells, locals[slot].value)) else Err(UninitializedLocal)
  }

  /** What a pushing instruction wants, as a value of the VM or an owned value. */
  ghost predicate WantedFrom(vm: Vm, op: Op, want: Result<OwnedValue, VmError>)
    requires vm.frames != []
    reads vm, vm.heap
  {
    match op
    case Const(n) => want == Ok(OwnedValue.Integer(n))
    case ConstValue(index) => index < |vm.code.constants| && want == Ok(vm.code.constants[index])
    case Input(index) => want == if index < |vm.inputs| then Ok(Tree(vm.heap.cells, vm.inputs[index])) else Err(MissingInput)
    case LocalGet(slot) => LocalWanted(vm, slot, want)
    case LocalTake(slot) => LocalWanted(vm, slot, want)
    case ListNew => want == Ok(OwnedValue.List([]))
    case MapNew => want == Ok(OwnedValue.Map(Entries([], [])))
    case _ => true
  }

  lemma PushedSource(vm: Vm, op: Op)
    requires vm.At(op) && V.IsPush(op)
    ensures vm.frames != [] && WantedFrom(vm, op, vm.Wanted(op))
  {
    hide Tree, HeapOk, V.Standing, CodeOk, ConstantsOk, Height, Charge, FramesRefs, V.OpAt;
    PushInRange(vm, op);
  }

  /** What each instruction reserves: nothing, a new value, or what its operation needs. */
  lemma Reserved(vm: Vm, op: Op)
    requires vm.Owned()
    ensures var room, stack := Reservation(vm.code, vm.frames, vm.heap.cells, op), vm.frames[|vm.frames| - 1].stack;
      var count := Required(op, vm.code.Scope());
      && (!op.ConstValue? && !op.ListNew? && !op.MapNew? && !V.IsOperation(op) ==> vm.heap.Fits(room))
      && (op.ConstValue? && op.index < |vm.code.constants| ==> room == Charge(vm.code.constants[op.index]))
      && (op.ListNew? ==> room == Charge(OwnedValue.List([])))
      && (op.MapNew? ==> room == Charge(OwnedValue.Map(Entries([], []))))
      && (V.IsOperation(op) && count <= |stack| ==> room == Operations.Needed(vm.heap.cells, op, stack[|stack| - count..]))
  {
    hide Tree, HeapOk, FramesRefs, Operations.Needed, TotalCharge;
  }

  lemma SourceHeld(vm: Vm, op: Op)
    requires vm.At(op) && V.IsPush(op)
    ensures op.Input? && op.index < |vm.inputs| ==> Holds(vm.heap.cells, vm.inputs[op.index])
    ensures (op.LocalGet? || op.LocalTake?) && op.slot < |vm.frames[|vm.frames| - 1].locals| ==>
      var v := vm.frames[|vm.frames| - 1].locals[op.slot];
      v.Some? ==> Holds(vm.heap.cells, v.value)
    ensures op.ConstValue? && op.index < |vm.code.constants| ==>
      Height(vm.code.constants[op.index]) <= MAX_VALUE_DEPTH && Charge(vm.code.constants[op.index]) <= USIZE_MAX
  {
    ChildHeld(vm.heap.cells, vm.heap.refs);
    if op.Input? && op.index < |vm.inputs| { assert vm.inputs[op.index] in multiset(vm.inputs); }
    if op.LocalGet? || op.LocalTake? {
      var n := |vm.frames| - 1;
      if op.slot < |vm.frames[n].locals| && vm.frames[n].locals[op.slot].Some? {
        LocalOwned(vm.frames[n].locals, op.slot);
        assert vm.frames[n].locals[op.slot].value in OptRefs(vm.frames[n].locals[op.slot]);
      }
    }
  }

  // ----- conservation -----

  /** In every reachable state of a VM: the byte counter is the total charge of the live objects, exactly the
      objects reachable from frames, inputs, result and outside handles are live, every charge is the structural
      cost of its contents, every cached depth is the true height and within bounds, references descend strictly,
      and every value held anywhere resolves to its tree. */
  lemma Conservation(vm: Vm)
    requires vm.Valid()
    ensures vm.heap.bytes == TotalCharge(vm.heap.cells) <= vm.heap.limit
    ensures forall id: nat :: IsLive(vm.heap.cells, id) <==> Reachable(vm.heap.cells, vm.Roots(), id)
    ensures forall id: nat :: IsLive(vm.heap.cells, id) ==>
      var obj := vm.heap.cells[id].obj;
      && obj.charge == ObjectCharge(obj.data)
      && obj.depth == Height(Tree(vm.heap.cells, Ref(id))) <= MAX_VALUE_DEPTH
      && obj.count == vm.Roots()[Ref(id)] + HeapRefs(vm.heap.cells)[Ref(id)]
    ensures ChildrenHeld(vm.heap.cells)
    ensures forall v :: v in vm.Roots() ==>
      Holds(vm.heap.cells, v) && ResolveAt(vm.heap.cells, v, 0) == Ok(Tree(vm.heap.cells, v))
  {
    hide Safety.MachineOk, TotalCharge, Tree;
    var h := vm.heap.cells;
    ChildHeld(h, vm.Roots());
    forall id: nat ensures IsLive(h, id) <==> Reachable(h, vm.Roots(), id) {
      LiveExactlyReachable(h, vm.Roots(), id);
    }
    forall id: nat | IsLive(h, id)
      ensures h[id].obj.depth == Height(Tree(h, Ref(id)))
      ensures h[id].obj.count == vm.Roots()[Ref(id)] + HeapRefs(h)[Ref(id)]
    {
      DepthIsHeight(h, Ref(id));
      assert CountOf(h, id) == vm.Roots()[Ref(id)] + HeapRefs(h)[Ref(id)];
    }
    forall v | v in vm.Roots() ensures ResolveAt(h, v, 0) == Ok(Tree(h, v)) {
      ResolveIsTree(h, vm.Roots(), v);
    }
  }
}
