/** What validation buys: an accepted module never trips over its own operands or locals, in any state a
    run can reach, and every run ends. */
module ModuleSafety {
  import opened Wrappers
  import opened OrderedMap
  import opened Values
  import opened Bytecode
  import opened FunctionValidator
  import opened ModuleBuilder
  import opened ValueMachine

  /** The locals that are set. */
  ghost function Initialized(locals: seq<Option<OwnedValue>>): set<nat> {
    set slot: nat | slot < |locals| && locals[slot].Some?
  }

  /** The frame stands at the end of a control-flow path: its stack is `missing` short of the depth of the
      path, and exactly the locals the path initializes are set. */
  ghost predicate FollowsPath(f: Function, env: Env, frame: Frame, missing: nat, p: seq<nat>) {
    && PathTo(f, p, frame.ip)
    && DepthAlong(f, env, p) == |frame.stack| + missing
    && |frame.locals| == f.localCount
    && LocalsAlong(f, p) == Initialized(frame.locals)
  }

  ghost predicate FrameOk(m: Module, frame: Frame, missing: nat) {
    && frame.function_ < |m.functions|
    && exists p :: FollowsPath(m.functions[frame.function_], m.Scope(), frame, missing, p)
  }

  /** A suspended caller is exactly one value short of its validated depth. */
  ghost predicate FramesOk(m: Module, frames: seq<Frame>) {
    && frames != []
    && FrameOk(m, frames[|frames| - 1], 0)
    && forall i :: 0 <= i < |frames| - 1 ==> FrameOk(m, frames[i], 1)
  }

  /** Every state a run of a validated module can reach. */
  ghost predicate MachineOk(m: Module, granted: set<string>, s: Machine) {
    && ModuleOk(m) && CodeOk(m)
    && FramesOk(m, s.frames) && |s.frames| <= MAX_CALL_FRAMES
    && LiveSlots(s.frames) <= MAX_LIVE_SLOTS
    && |s.inputs| == m.inputCount
    && s.steps <= MAX_MODULE_STEPS
    && Standing(m, s)
    && (s.pending.Some? ==> s.steps < MAX_MODULE_STEPS && OpAt(m, s) == Op.Import(s.pending.value) && s.pending.value < |m.imports|)
    && (s.pending.Some? ==> m.imports[s.pending.value].name in granted)
  }

  lemma FrameStands(m: Module, s: Machine)
    requires ModuleOk(m) && FramesOk(m, s.frames)
    ensures Standing(m, s)
  {
    hide Path, AllSafe, PeakDepth, DepthAlong, LocalsAlong;
    var top := s.frames[|s.frames| - 1];
    var f := m.functions[top.function_];
    var p :| FollowsPath(f, m.Scope(), top, 0, p);
    assert FunctionOk(f, m.Scope(), |m.constants|, m.inputCount);
    PathEnd(f, p, top.ip);
  }

  lemma PathEnd(f: Function, p: seq<nat>, ip: nat)
    requires PathTo(f, p, ip)
    ensures ip < |f.code|
  {
  }

  /** Validated depth bounds every frame's stack. */
  lemma StackWithinPeak(m: Module, frame: Frame, missing: nat)
    requires ModuleOk(m) && FrameOk(m, frame, missing)
    ensures |frame.stack| + missing <= m.maxOperandStack[frame.function_] <= MAX_OPERAND_STACK
  {
    hide Structured, AllSafe, LocalsAlong;
    var f := m.functions[frame.function_];
    var p :| FollowsPath(f, m.Scope(), frame, missing, p);
    PathWithinPeak(f, m.Scope(), m.maxOperandStack[frame.function_], p);
  }

  lemma PathWithinPeak(f: Function, env: Env, peak: nat, p: seq<nat>)
    requires PeakDepth(f, env, peak) && Path(f, p)
    ensures DepthAlong(f, env, p) <= peak
  {
    if |p| > 1 {
      PathFront(f, p);
      var q := p[..|p| - 1];
      assert NextDepth(f.code[q[|q| - 1]], env, DepthAlong(f, env, q)) <= peak;
    }
  }

  /** The instruction at the top frame can run. */
  lemma TopRuns(m: Module, s: Machine)
    requires ModuleOk(m) && FramesOk(m, s.frames) && Standing(m, s)
    ensures var top := s.frames[|s.frames| - 1];
      && Runs(OpAt(m, s), m.Scope(), |top.stack|, Initialized(top.locals))
      && OpInRange(OpAt(m, s), m.functions[top.function_], m.Scope())
      && DataInRange(OpAt(m, s), |m.constants|, m.inputCount)
      && |top.stack| <= MAX_OPERAND_STACK
  {
    var top := s.frames[|s.frames| - 1];
    StackWithinPeak(m, top, 0);
    hide PeakDepth, PathsAgree, Path, DepthAlong, LocalsAlong, Structured;
    var f := m.functions[top.function_];
    var p :| FollowsPath(f, m.Scope(), top, 0, p);
    assert Safe(f, m.Scope());
    assert Runs(f.code[p[|p| - 1]], m.Scope(), DepthAlong(f, m.Scope(), p), LocalsAlong(f, p));
  }

  /** Moving along an edge of the control-flow graph keeps the frame on a path. */
  lemma FrameAdvances(m: Module, frame: Frame, next: Frame, missing: nat)
    requires ModuleOk(m) && FrameOk(m, frame, 0) && next.function_ == frame.function_
    requires var f := m.functions[frame.function_];
      && frame.ip < |f.code|
      && next.ip in Successors(f.code[frame.ip], frame.ip)
      && |next.stack| + missing == NextDepth(f.code[frame.ip], m.Scope(), |frame.stack|)
      && |next.locals| == |frame.locals|
      && Initialized(next.locals) == NextLocals(f.code[frame.ip], Initialized(frame.locals))
    ensures FrameOk(m, next, missing)
  {
    hide PeakDepth, AllSafe, Path, NextDepth, NextLocals, ImportsOk, ConstantsOk;
    var f := m.functions[frame.function_];
    var p :| FollowsPath(f, m.Scope(), frame, 0, p);
    assert FunctionOk(f, m.Scope(), |m.constants|, m.inputCount);
    SuccessorsInRange(f, m.Scope(), frame.ip);
    PathExtends(f, m.Scope(), p, frame.ip, next.ip);
    assert FollowsPath(f, m.Scope(), next, missing, p + [next.ip]);
  }

  lemma LiveSlotsOfTop(frames: seq<Frame>, top: Frame)
    requires frames != []
    ensures var was := frames[|frames| - 1];
      LiveSlots(ReplaceTop(frames, top)) == LiveSlots(frames) - |was.locals| - |was.stack| + |top.locals| + |top.stack|
  {
    assert ReplaceTop(frames, top)[..|frames| - 1] == frames[..|frames| - 1];
  }

  /** Errors a validated module cannot report from a step. */
  predicate Excluded(e: VmError) {
    e == OperandStackUnderflow || e == UninitializedLocal || e == OperandStackLimit || e == MissingInput
  }

  /** What an instruction that stays in its frame does to the frame's shape. */
  lemma TopStepShape(m: Module, s: Machine)
    requires CodeOk(m) && Standing(m, s) && |s.inputs| == m.inputCount
    requires !OpAt(m, s).Call? && !OpAt(m, s).Import? && !OpAt(m, s).Return?
    requires var top := s.frames[|s.frames| - 1];
      && Runs(OpAt(m, s), m.Scope(), |top.stack|, Initialized(top.locals))
      && OpInRange(OpAt(m, s), m.functions[top.function_], m.Scope())
      && DataInRange(OpAt(m, s), |m.constants|, m.inputCount)
    ensures TopStep(m, s).Err? ==> !Excluded(TopStep(m, s).error)
    ensures TopStep(m, s).Ok? ==>
      var top, next := s.frames[|s.frames| - 1], TopStep(m, s).value;
      && next.function_ == top.function_
      && next.ip in Successors(OpAt(m, s), top.ip)
      && |next.stack| == NextDepth(OpAt(m, s), m.Scope(), |top.stack|)
      && |next.locals| == |top.locals|
      && Initialized(next.locals) == NextLocals(OpAt(m, s), Initialized(top.locals))
      && (|next.stack| > |top.stack| ==> LiveSlots(s.frames) < MAX_LIVE_SLOTS && |next.stack| == |top.stack| + 1)
  {
    hide FunctionOk, Operate;
    var top := s.frames[|s.frames| - 1];
    var op := OpAt(m, s);
    if IsOperation(op) {
      OperationErrors(op, top.stack[|top.stack| - Required(op, m.Scope())..], m.Scope());
    } else if IsPush(op) {
      if op.LocalGet? || op.LocalTake? { assert top.locals[op.slot].Some?; }
    }
  }

  lemma OperationErrors(op: Op, args: seq<OwnedValue>, env: Env)
    requires IsOperation(op) && |args| == Required(op, env)
    ensures Operate(op, args, env).Err? ==> !Excluded(Operate(op, args, env).error)
    ensures NextDepth(op, env, |args|) == 1
  {
  }

  // ----- each kind of step -----

  lemma StaySafe(m: Module, granted: set<string>, s: Machine)
    requires MachineOk(m, granted, s) && s.pending.None? && s.steps < MAX_MODULE_STEPS
    requires !OpAt(m, s).Call? && !OpAt(m, s).Import? && !OpAt(m, s).Return?
    ensures TopStep(m, s).Err? ==> !Excluded(TopStep(m, s).error)
    ensures TopStep(m, s).Ok? ==>
      MachineOk(m, granted, s.(frames := ReplaceTop(s.frames, TopStep(m, s).value), steps := s.steps + 1))
  {
    hide PeakDepth, AllSafe, Path, PathTo, NextLocals, TopStep, FrameOk, Structured;
    TopRuns(m, s);
    TopStepShape(m, s);
    if TopStep(m, s).Ok? {
      var top, next := s.frames[|s.frames| - 1], TopStep(m, s).value;
      FrameAdvances(m, top, next, 0);
      LiveSlotsOfTop(s.frames, next);
      FrameStands(m, s.(frames := ReplaceTop(s.frames, next), steps := s.steps + 1));
    }
  }

  lemma EnteredOk(m: Module, index: nat, args: seq<OwnedValue>)
    requires ModuleOk(m) && index < |m.functions| && |args| == m.functions[index].arity <= m.functions[index].localCount
    ensures FrameOk(m, Entered(m.functions[index], index, args), 0)
  {
    hide AllSafe, PeakDepth;
    var f := m.functions[index];
    assert FunctionOk(f, m.Scope(), |m.constants|, m.inputCount);
    assert FollowsPath(f, m.Scope(), Entered(f, index, args), 0, [0]);
  }

  lemma CalledFrames(m: Module, frames: seq<Frame>, caller: Frame, entered: Frame)
    requires FramesOk(m, frames) && FrameOk(m, caller, 1) && FrameOk(m, entered, 0)
    ensures FramesOk(m, ReplaceTop(frames, caller) + [entered])
  {
    hide FrameOk;
  }

  lemma CallSafe(m: Module, granted: set<string>, s: Machine)
    requires MachineOk(m, granted, s) && s.pending.None? && s.steps < MAX_MODULE_STEPS && OpAt(m, s).Call?
    ensures CallStep(m, s).Err? ==> !Excluded(CallStep(m, s).error)
    ensures CallStep(m, s).Ok? ==> MachineOk(m, granted, CallStep(m, s).value)
  {
    hide PeakDepth, AllSafe, Path, PathTo, FrameOk, Structured, Entered, LiveSlots;
    TopRuns(m, s);
    var top := s.frames[|s.frames| - 1];
    var callee := OpAt(m, s).callee;
    var f := m.functions[callee];
    assert FunctionOk(f, m.Scope(), |m.constants|, m.inputCount);
    if CallStep(m, s).Ok? {
      var n := |top.stack|;
      var args := top.stack[n - f.arity..];
      var caller := top.(stack := top.stack[..n - f.arity], ip := top.ip + 1);
      FrameAdvances(m, top, caller, 1);
      EnteredOk(m, callee, args);
      CalledFrames(m, s.frames, caller, Entered(f, callee, args));
      LiveSlotsOfTop(s.frames, caller);
      LiveSlotsOfCall(ReplaceTop(s.frames, caller), Entered(f, callee, args));
      EnteredShape(f, callee, args);
      FrameStands(m, CallStep(m, s).value);
    }
  }

  lemma LiveSlotsOfCall(frames: seq<Frame>, entered: Frame)
    ensures LiveSlots(frames + [entered]) == LiveSlots(frames) + |entered.locals| + |entered.stack|
  {
    assert (frames + [entered])[..|frames|] == frames;
  }

  lemma EnteredShape(f: Function, index: nat, args: seq<OwnedValue>)
    requires |args| <= f.localCount
    ensures |Entered(f, index, args).locals| == f.localCount && Entered(f, index, args).stack == []
  {
  }

  lemma ReturnSafe(m: Module, granted: set<string>, s: Machine)
    requires MachineOk(m, granted, s) && s.pending.None? && s.steps < MAX_MODULE_STEPS && OpAt(m, s).Return?
    ensures ReturnStep(s).Err? ==> !Excluded(ReturnStep(s).error)
    ensures ReturnStep(s).Ok? ==> MachineOk(m, granted, ReturnStep(s).value)
  {
    hide PeakDepth, AllSafe, Path, PathTo, FrameOk, Structured;
    TopRuns(m, s);
    var n := |s.frames| - 1;
    if n > 0 {
      var caller := s.frames[n - 1];
      assert FrameOk(m, caller, 1);
      StackWithinPeak(m, caller, 1);
      var v := s.frames[n].stack[|s.frames[n].stack| - 1];
      var resumed := caller.(stack := caller.stack + [v]);
      ReturnedTo(m, caller, v);
      LiveSlotsOfTop(s.frames[..n], resumed);
      FrameStands(m, ReturnStep(s).value);
    } else {
      FrameStands(m, ReturnStep(s).value);
    }
  }

  lemma ReturnedTo(m: Module, caller: Frame, v: OwnedValue)
    requires FrameOk(m, caller, 1)
    ensures FrameOk(m, caller.(stack := caller.stack + [v]), 0)
  {
    var f := m.functions[caller.function_];
    var p :| FollowsPath(f, m.Scope(), caller, 1, p);
    assert FollowsPath(f, m.Scope(), caller.(stack := caller.stack + [v]), 0, p);
  }

  /** Soundness of validation for one step: the state stays well formed, and a step that fails does not fail
      for want of an operand, an initialized local, operand stack space or an input. */
  lemma StepSafe(m: Module, granted: set<string>, s: Machine)
    requires MachineOk(m, granted, s)
    ensures Step(m, granted, s).Ok? ==> MachineOk(m, granted, Step(m, granted, s).value)
    ensures Step(m, granted, s).Err? ==> !Excluded(Step(m, granted, s).error)
  {
    hide PeakDepth, AllSafe, Path, PathTo, FrameOk, Structured, TopStep, CallStep, ReturnStep, LiveSlots;
    if s.pending.None? && s.result.None? && s.steps < MAX_MODULE_STEPS {
      var op := OpAt(m, s);
      if op.Call? {
        CallSafe(m, granted, s);
      } else if op.Return? {
        ReturnSafe(m, granted, s);
      } else if op.Import? {
        TopRuns(m, s);
      } else {
        StaySafe(m, granted, s);
      }
    }
  }

  lemma PendingHasArguments(m: Module, granted: set<string>, s: Machine)
    requires MachineOk(m, granted, s) && s.pending.Some?
    ensures s.pending.value < |m.imports| && m.imports[s.pending.value].arity <= |s.frames[|s.frames| - 1].stack|
  {
    TopRuns(m, s);
  }

  /** Answering an import keeps the state well formed. */
  lemma ResumeSafe(m: Module, granted: set<string>, s: Machine, v: OwnedValue)
    requires MachineOk(m, granted, s)
    ensures ArgumentsPresent(m, s)
    ensures Resume(m, s, v).Ok? ==> MachineOk(m, granted, Resume(m, s, v).value)
  {
    hide PeakDepth, AllSafe, Path, PathTo, FrameOk, Structured;
    if s.pending.Some? {
      PendingHasArguments(m, granted, s);
      if Resume(m, s, v).Ok? {
        TopRuns(m, s);
        var top := s.frames[|s.frames| - 1];
        var arity := m.imports[s.pending.value].arity;
        var resumed := top.(stack := top.stack[..|top.stack| - arity] + [v], ip := top.ip + 1);
        FrameAdvances(m, top, resumed, 0);
        LiveSlotsOfTop(s.frames, resumed);
        FrameStands(m, Resume(m, s, v).value);
      }
    }
  }

  // ----- whole runs -----

  /** The state in which execution begins. */
  function Initial(m: Module, inputs: seq<OwnedValue>): Machine
    requires m.entry < |m.functions| && m.functions[m.entry].arity == 0
  {
    Machine([Entered(m.functions[m.entry], m.entry, [])], 0, None, inputs, None)
  }

  lemma InitialOk(m: Module, granted: set<string>, inputs: seq<OwnedValue>)
    requires ModuleOk(m) && |inputs| == m.inputCount
    ensures MachineOk(m, granted, Initial(m, inputs))
  {
    hide PeakDepth, AllSafe, Path, PathTo, FrameOk, Entered;
    var f := m.functions[m.entry];
    assert FunctionOk(f, m.Scope(), |m.constants|, m.inputCount);
    EnteredOk(m, m.entry, []);
    EnteredShape(f, m.entry, []);
    LiveSlotsOfCall([], Entered(f, m.entry, []));
    assert [] + [Entered(f, m.entry, [])] == Initial(m, inputs).frames;
    FrameStands(m, Initial(m, inputs));
  }

  /** What drives a run: a step, or the host's answer to an import. */
  datatype Action = Advance | Answer(value: OwnedValue)

  ghost function Perform(m: Module, granted: set<string>, s: Machine, a: Action): Result<Machine, VmError>
    requires MachineOk(m, granted, s)
  {
    match a
    case Advance => Step(m, granted, s)
    case Answer(v) =>
      ResumeSafe(m, granted, s, v);
      Resume(m, s, v)
  }

  /** The state after a sequence of actions; a failing action changes nothing. */
  ghost function RunOf(m: Module, granted: set<string>, s: Machine, actions: seq<Action>): (r: Machine)
    requires MachineOk(m, granted, s)
    ensures MachineOk(m, granted, r)
    decreases |actions|
  {
    if actions == [] then s
    else
      var before := RunOf(m, granted, s, actions[..|actions| - 1]);
      var outcome := Perform(m, granted, before, actions[|actions| - 1]);
      PerformSafe(m, granted, before, actions[|actions| - 1]);
      if outcome.Ok? then outcome.value else before
  }

  lemma PerformSafe(m: Module, granted: set<string>, s: Machine, a: Action)
    requires MachineOk(m, granted, s)
    ensures Perform(m, granted, s, a).Ok? ==> MachineOk(m, granted, Perform(m, granted, s, a).value)
  {
    match a
    case Advance => StepSafe(m, granted, s);
    case Answer(v) => ResumeSafe(m, granted, s, v);
  }

  /** The resource limits of a module VM. */
  ghost predicate WithinLimits(m: Module, s: Machine) {
    && |s.frames| <= MAX_CALL_FRAMES && LiveSlots(s.frames) <= MAX_LIVE_SLOTS && s.steps <= MAX_MODULE_STEPS
    && forall i :: 0 <= i < |s.frames| ==>
         && s.frames[i].function_ < |m.functions| == |m.maxOperandStack|
         && |s.frames[i].stack| <= m.maxOperandStack[s.frames[i].function_] <= MAX_OPERAND_STACK
  }

  /** Soundness over whole runs: after any sequence of steps and import answers from the initial state of an
      accepted module, the next step cannot fail for want of an operand, a local, stack space or an input,
      and every resource limit holds. */
  lemma RunsAreSafe(m: Module, granted: set<string>, inputs: seq<OwnedValue>, actions: seq<Action>)
    requires ModuleOk(m) && |inputs| == m.inputCount
    ensures MachineOk(m, granted, Initial(m, inputs))
    ensures var next := Perform(m, granted, RunOf(m, granted, Initial(m, inputs), actions), Advance);
      next.Err? ==> !Excluded(next.error)
    ensures WithinLimits(m, RunOf(m, granted, Initial(m, inputs), actions))
  {
    InitialOk(m, granted, inputs);
    hide MachineOk, WithinLimits, Initial, Step;
    var s := RunOf(m, granted, Initial(m, inputs), actions);
    StepSafe(m, granted, s);
    LimitsHold(m, granted, s);
  }

  lemma LimitsHold(m: Module, granted: set<string>, s: Machine)
    requires MachineOk(m, granted, s)
    ensures WithinLimits(m, s)
  {
    hide PeakDepth, AllSafe, FrameOk, Structured, LiveSlots;
    forall i | 0 <= i < |s.frames|
      ensures s.frames[i].function_ < |m.functions| && |s.frames[i].stack| <= m.maxOperandStack[s.frames[i].function_] <= MAX_OPERAND_STACK
    {
      InRange(m, s.frames, i);
    }
  }

  lemma InRange(m: Module, frames: seq<Frame>, i: nat)
    requires ModuleOk(m) && FramesOk(m, frames) && i < |frames|
    ensures frames[i].function_ < |m.functions| && |frames[i].stack| <= m.maxOperandStack[frames[i].function_] <= MAX_OPERAND_STACK
  {
    StackWithinPeak(m, frames[i], if i == |frames| - 1 then 0 else 1);
  }

  // ----- every run ends -----

  /** Successful actions still possible: steps left, each perhaps suspended once. */
  function Fuel(s: Machine): nat
    requires s.steps <= MAX_MODULE_STEPS
  {
    2 * (MAX_MODULE_STEPS - s.steps) + if s.pending.None? then 1 else 0
  }

  lemma StepUsesFuel(m: Module, granted: set<string>, s: Machine)
    requires CodeOk(m) && Standing(m, s)
    requires s.steps <= MAX_MODULE_STEPS && (s.pending.Some? ==> s.steps < MAX_MODULE_STEPS)
    ensures Step(m, granted, s).Ok? ==>
      var next := Step(m, granted, s).value;
      next.steps <= MAX_MODULE_STEPS && Fuel(next) < Fuel(s)
  {
    hide CodeOk, TopStep, LiveSlots;
  }

  /** Every successful action uses up fuel, so no run has more than `Fuel` of its first state. */
  lemma ActionUsesFuel(m: Module, granted: set<string>, s: Machine, a: Action)
    requires MachineOk(m, granted, s)
    ensures Perform(m, granted, s, a).Ok? ==>
      var next := Perform(m, granted, s, a).value;
      next.steps <= MAX_MODULE_STEPS && Fuel(next) < Fuel(s)
  {
    hide ModuleOk, CodeOk, FramesOk, LiveSlots, Step;
    if a.Advance? {
      StepUsesFuel(m, granted, s);
    } else {
      ResumeSafe(m, granted, s, a.value);
    }
  }

  /** `t` is reached from `s` by `k` successful steps. */
  ghost predicate StepsTo(m: Module, granted: set<string>, s: Machine, k: nat, t: Machine)
    decreases k
  {
    if k == 0 then t == s
    else exists u :: MachineOk(m, granted, u) && StepsTo(m, granted, s, k - 1, u) && Step(m, granted, u) == Ok(t)
  }

  lemma StepsExtend(m: Module, granted: set<string>, s: Machine, k: nat, u: Machine, t: Machine)
    requires MachineOk(m, granted, u) && StepsTo(m, granted, s, k, u) && Step(m, granted, u) == Ok(t)
    ensures StepsTo(m, granted, s, k + 1, t)
  {
  }
}
