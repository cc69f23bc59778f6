/** Flat programs: the instruction set, its control flow, and the worklist analysis that accepts a program. */
module FlatProgram {
  import opened Wrappers

  const MAX_PROGRAM_INSTRUCTIONS: nat := 65_536
  const MAX_STACK_DEPTH: nat := 1_024

  type i32 = n: int | -0x8000_0000 <= n < 0x8000_0000

  datatype Instruction =
    | Push(value: i32)
    | Add | Sub | Mul | Div
    | Dup | Pop | Swap | Over
    | Eq | Lt | Neg | Not
    | Jmp(target: nat)
    | Jz(target: nat)
    | Halt

  type Code = seq<Instruction>

  datatype Problem =
    | Empty | TooLong | AfterHalt | TargetOutside | NoHalt
    | JoinDepth | MissingOperands | DepthLimit

  /** Why a program is rejected; `line` counts instructions from 1. */
  datatype ProgramError = ProgramError(line: Option<nat>, problem: Problem)

  /** An accepted program and the deepest operand stack it needs. */
  datatype Program = Program(instructions: Code, maxStackDepth: nat)

  // ----- structure -----

  /** Jumps stay inside the program, which ends with its only `Halt`. */
  predicate Structured(code: Code) {
    && 0 < |code| <= MAX_PROGRAM_INSTRUCTIONS
    && (forall i :: 0 <= i < |code| ==> (code[i].Halt? <==> i == |code| - 1))
    && (forall i :: 0 <= i < |code| && (code[i].Jmp? || code[i].Jz?) ==> code[i].target < |code|)
  }

  function InstructionProblem(code: Code, i: nat): Option<ProgramError>
    requires i < |code|
  {
    if code[i].Halt? && i + 1 != |code| then Some(ProgramError(Some(i + 2), AfterHalt))
    else if (code[i].Jmp? || code[i].Jz?) && code[i].target >= |code| then Some(ProgramError(Some(i + 1), TargetOutside))
    else None
  }

  ghost predicate FirstProblem(code: Code, i: nat, e: ProgramError) {
    && i < |code| && InstructionProblem(code, i) == Some(e)
    && forall j :: 0 <= j < i ==> InstructionProblem(code, j).None?
  }

  /** The error is the first structural defect of the program, in the order the checks are made. */
  ghost predicate Defect(code: Code, e: ProgramError) {
    match e.problem
    case Empty => e.line.None? && code == []
    case TooLong => e.line.None? && |code| > MAX_PROGRAM_INSTRUCTIONS
    case NoHalt =>
      && e.line.None? && 0 < |code| <= MAX_PROGRAM_INSTRUCTIONS && !code[|code| - 1].Halt?
      && forall i :: 0 <= i < |code| ==> InstructionProblem(code, i).None?
    case _ => |code| <= MAX_PROGRAM_INSTRUCTIONS && exists i :: FirstProblem(code, i, e)
  }

  /** A program has at most one first defect. */
  lemma DefectUnique(code: Code, a: ProgramError, b: ProgramError)
    requires Defect(code, a) && Defect(code, b)
    ensures a == b
  {
    if (exists i: nat :: FirstProblem(code, i, a)) && (exists i: nat :: FirstProblem(code, i, b)) {
      var i: nat :| FirstProblem(code, i, a);
      var j: nat :| FirstProblem(code, j, b);
      if i < j { assert InstructionProblem(code, i).None?; }
      if j < i { assert InstructionProblem(code, j).None?; }
    }
  }

  /** The first structural defect, if there is one. */
  method CheckStructure(code: Code) returns (e: Option<ProgramError>)
    ensures e.None? <==> Structured(code)
    ensures e.Some? ==> Defect(code, e.value)
  {
    if code == [] { return Some(ProgramError(None, Empty)); }
    if |code| > MAX_PROGRAM_INSTRUCTIONS { return Some(ProgramError(None, TooLong)); }
    for i := 0 to |code|
      invariant forall j :: 0 <= j < i ==> InstructionProblem(code, j).None?
    {
      e := InstructionProblem(code, i);
      if e.Some? {
        assert FirstProblem(code, i, e.value);
        return;
      }
    }
    if !code[|code| - 1].Halt? { return Some(ProgramError(None, NoHalt)); }
    e := None;
    forall i | 0 <= i < |code|
      ensures (code[i].Halt? <==> i == |code| - 1) && (code[i].Jmp? || code[i].Jz? ==> code[i].target < |code|)
    {
      assert InstructionProblem(code, i).None?;
    }
  }

  // ----- operand depth along the control flow -----

  function Required(op: Instruction): nat {
    match op
    case Push(_) => 0
    case Jmp(_) => 0
    case Dup => 1
    case Pop => 1
    case Jz(_) => 1
    case Neg => 1
    case Not => 1
    case Halt => 1
    case _ => 2
  }

  function NextDepth(op: Instruction, depth: int): int {
    match op
    case Push(_) => depth + 1
    case Dup => depth + 1
    case Over => depth + 1
    case Jmp(_) => depth
    case Halt => depth
    case Swap => depth
    case Neg => depth
    case Not => depth
    case _ => depth - 1
  }

  function Successors(op: Instruction, ip: nat): set<nat> {
    match op
    case Halt => {}
    case Jmp(target) => {target}
    case Jz(target) => {target, ip + 1}
    case _ => {ip + 1}
  }

  /** A path through the control-flow graph from the first instruction. */
  ghost predicate Path(code: Code, p: seq<nat>) {
    && p != [] && p[0] == 0
    && (forall i :: 0 <= i < |p| ==> p[i] < |code|)
    && (forall i :: 0 <= i < |p| - 1 ==> p[i + 1] in Successors(code[p[i]], p[i]))
  }

  ghost predicate PathTo(code: Code, p: seq<nat>, ip: nat) {
    Path(code, p) && p[|p| - 1] == ip
  }

  /** Operand depth on arrival at the end of the path. */
  ghost function DepthAlong(code: Code, p: seq<nat>): int
    requires Path(code, p)
    decreases |p|
  {
    if |p| == 1 then 0
    else
      PathFront(code, p);
      NextDepth(code[p[|p| - 2]], DepthAlong(code, p[..|p| - 1]))
  }

  lemma PathFront(code: Code, p: seq<nat>)
    requires Path(code, p) && |p| > 1
    ensures PathTo(code, p[..|p| - 1], p[|p| - 2])
  {
  }

  lemma PathExtends(code: Code, p: seq<nat>, ip: nat, next: nat)
    requires PathTo(code, p, ip) && next < |code| && next in Successors(code[ip], ip)
    ensures PathTo(code, p + [next], next)
    ensures DepthAlong(code, p + [next]) == NextDepth(code[ip], DepthAlong(code, p))
  {
    assert (p + [next])[..|p|] == p;
  }

  lemma SuccessorsInRange(code: Code, ip: nat)
    requires Structured(code) && ip < |code|
    ensures forall next :: next in Successors(code[ip], ip) ==> next < |code|
  {
  }

  /** Some path arrives at `ip` with this operand depth. */
  ghost predicate Arrives(code: Code, ip: nat, depth: int) {
    exists p :: PathTo(code, p, ip) && DepthAlong(code, p) == depth
  }

  /** Every path brings the operands of the instruction it reaches. */
  ghost predicate PathsRun(code: Code) {
    forall p :: Path(code, p) ==> DepthAlong(code, p) >= Required(code[p[|p| - 1]])
  }

  ghost predicate PathsAgree(code: Code) {
    forall p, q :: Path(code, p) && Path(code, q) && p[|p| - 1] == q[|q| - 1] ==> DepthAlong(code, p) == DepthAlong(code, q)
  }

  /** No instruction on any path leaves more than `limit` operands. */
  ghost predicate DepthWithin(code: Code, limit: nat) {
    forall p :: Path(code, p) ==> NextDepth(code[p[|p| - 1]], DepthAlong(code, p)) <= limit
  }

  /** `peak` is the largest depth any path leaves behind an instruction. */
  ghost predicate PeakDepth(code: Code, peak: nat) {
    && DepthWithin(code, peak)
    && (peak == 0 || exists p :: Path(code, p) && NextDepth(code[p[|p| - 1]], DepthAlong(code, p)) == peak)
  }

  /** What a program must satisfy to be accepted. */
  ghost predicate Valid(code: Code) {
    Structured(code) && PathsRun(code) && PathsAgree(code) && DepthWithin(code, MAX_STACK_DEPTH)
  }

  ghost predicate Accepted(program: Program) {
    Valid(program.instructions) && PeakDepth(program.instructions, program.maxStackDepth)
  }

  lemma PeakUnique(code: Code, a: nat, b: nat)
    requires PeakDepth(code, a) && PeakDepth(code, b)
    ensures a == b
  {
  }

  // ----- the worklist -----

  datatype Arrival = Arrival(ip: nat, depth: nat)

  type Table = seq<Option<nat>>

  ghost predicate TableReached(code: Code, table: Table)
    requires |table| == |code|
  {
    forall ip :: 0 <= ip < |table| && table[ip].Some? ==>
      Arrives(code, ip, table[ip].value) && table[ip].value >= Required(code[ip])
  }

  ghost predicate WorkReached(code: Code, work: seq<Arrival>) {
    forall i :: 0 <= i < |work| ==> work[i].ip < |code| && Arrives(code, work[i].ip, work[i].depth)
  }

  ghost predicate Pending(table: Table, work: seq<Arrival>, ip: nat, depth: nat)
    requires ip < |table|
  {
    table[ip] == Some(depth) || Arrival(ip, depth) in work
  }

  /** The depth behind every visited instruction has been passed on to all its successors. */
  ghost predicate PassedOn(code: Code, table: Table, work: seq<Arrival>)
    requires |table| == |code| && TableReached(code, table)
  {
    forall ip, next :: 0 <= ip < |table| && table[ip].Some? && next in Successors(code[ip], ip) ==>
      next < |code| && Pending(table, work, next, NextDepth(code[ip], table[ip].value))
  }

  ghost predicate TablePeak(code: Code, table: Table, peak: nat)
    requires |table| == |code|
  {
    && (forall ip :: 0 <= ip < |table| && table[ip].Some? ==> NextDepth(code[ip], table[ip].value) <= peak)
    && (peak == 0 || exists ip :: 0 <= ip < |table| && table[ip].Some? && NextDepth(code[ip], table[ip].value) == peak)
  }

  function Unvisited(table: Table): nat {
    if table == [] then 0 else Unvisited(table[..|table| - 1]) + if table[|table| - 1].None? then 1 else 0
  }

  lemma {:induction false} UnvisitedDrops(table: Table, ip: nat, depth: nat)
    requires ip < |table| && table[ip].None?
    ensures Unvisited(table[ip := Some(depth)]) == Unvisited(table) - 1
  {
    var n := |table| - 1;
    if ip == n {
      assert table[ip := Some(depth)][..n] == table[..n];
    } else {
      UnvisitedDrops(table[..n], ip, depth);
      assert table[ip := Some(depth)][..n] == table[..n][ip := Some(depth)];
    }
  }

  /** At a fixpoint the table holds the depth of every path. */
  lemma {:induction false} FixpointCovers(code: Code, table: Table, p: seq<nat>)
    requires Structured(code) && |table| == |code| && TableReached(code, table)
    requires PassedOn(code, table, []) && table[0] == Some(0) && Path(code, p)
    ensures table[p[|p| - 1]] == Some(DepthAlong(code, p))
    decreases |p|
  {
    if |p| > 1 {
      PathFront(code, p);
      FixpointCovers(code, table, p[..|p| - 1]);
      var ip, next := p[|p| - 2], p[|p| - 1];
      assert next in Successors(code[ip], ip);
      assert Pending(table, [], next, NextDepth(code[ip], table[ip].value));
    }
  }

  lemma FixpointValid(code: Code, table: Table, peak: nat)
    requires Structured(code) && |table| == |code| && TableReached(code, table)
    requires PassedOn(code, table, []) && table[0] == Some(0) && TablePeak(code, table, peak)
    ensures PathsRun(code) && PathsAgree(code) && PeakDepth(code, peak)
  {
    hide PathsAgree, DepthAlong;
    forall p | Path(code, p)
      ensures table[p[|p| - 1]] == Some(DepthAlong(code, p))
    {
      FixpointCovers(code, table, p);
    }
    assert PathsAgree(code) by { AgreeingTable(code, table); }
    if peak != 0 {
      var ip :| 0 <= ip < |table| && table[ip].Some? && NextDepth(code[ip], table[ip].value) == peak;
      var p :| PathTo(code, p, ip) && DepthAlong(code, p) == table[ip].value;
      assert Path(code, p) && NextDepth(code[p[|p| - 1]], DepthAlong(code, p)) == peak;
    }
  }

  lemma AgreeingTable(code: Code, table: Table)
    requires |table| == |code| && forall p :: Path(code, p) ==> table[p[|p| - 1]] == Some(DepthAlong(code, p))
    ensures PathsAgree(code)
  {
    hide DepthAlong, Path;
  }

  /** What the successors of a visited instruction leave on the worklist, in the order they are pushed. */
  function Pushes(op: Instruction, ip: nat, next: nat): seq<Arrival> {
    match op
    case Halt => []
    case Jmp(target) => [Arrival(target, next)]
    case Jz(target) => [Arrival(target, next), Arrival(ip + 1, next)]
    case _ => [Arrival(ip + 1, next)]
  }

  lemma PushesAreSuccessors(op: Instruction, ip: nat, next: nat)
    ensures |Pushes(op, ip, next)| <= 2
    ensures forall target :: target in Successors(op, ip) ==> Arrival(target, next) in Pushes(op, ip, next)
    ensures forall arrival :: arrival in Pushes(op, ip, next) ==> arrival.ip in Successors(op, ip) && arrival.depth == next
  {
    match op
    case Jz(target) => assert Pushes(op, ip, next)[0] == Arrival(target, next) && Pushes(op, ip, next)[1] == Arrival(ip + 1, next);
    case Jmp(target) => assert Pushes(op, ip, next)[0].ip == target;
    case Halt =>
    case _ => assert Pushes(op, ip, next)[0].ip == ip + 1;
  }

  lemma SkippedArrival(code: Code, table: Table, rest: seq<Arrival>, arrival: Arrival)
    requires |table| == |code| && TableReached(code, table) && arrival.ip < |table|
    requires PassedOn(code, table, rest + [arrival]) && table[arrival.ip] == Some(arrival.depth)
    ensures PassedOn(code, table, rest)
    ensures forall ip, depth :: 0 <= ip < |table| && Pending(table, rest + [arrival], ip, depth) ==> Pending(table, rest, ip, depth)
  {
    forall ip, next | 0 <= ip < |table| && table[ip].Some? && next in Successors(code[ip], ip)
      ensures next < |code| && Pending(table, rest, next, NextDepth(code[ip], table[ip].value))
    {
      assert Pending(table, rest + [arrival], next, NextDepth(code[ip], table[ip].value));
    }
  }

  lemma VisitedArrival(code: Code, table: Table, rest: seq<Arrival>, at: Arrival)
    requires Structured(code) && |table| == |code| && TableReached(code, table) && at.ip < |table| && table[at.ip].None?
    requires PassedOn(code, table, rest + [at]) && WorkReached(code, rest + [at]) && at.depth >= Required(code[at.ip])
    ensures var after := table[at.ip := Some(at.depth)];
      var work := rest + Pushes(code[at.ip], at.ip, NextDepth(code[at.ip], at.depth));
      && TableReached(code, after) && PassedOn(code, after, work) && WorkReached(code, work)
      && forall ip, depth :: 0 <= ip < |table| && Pending(table, rest + [at], ip, depth) ==> Pending(after, work, ip, depth)
  {
    hide Arrives, Structured;
    var after, op := table[at.ip := Some(at.depth)], code[at.ip];
    var pushes := Pushes(op, at.ip, NextDepth(op, at.depth));
    PushesAreSuccessors(op, at.ip, NextDepth(op, at.depth));
    assert (rest + [at])[|rest|] == at;
    forall i | 0 <= i < |rest| ensures rest[i].ip < |code| && Arrives(code, rest[i].ip, rest[i].depth) {
      assert (rest + [at])[i] == rest[i];
    }
    PushedReached(code, at, rest);
    forall ip, depth | 0 <= ip < |table| && Pending(table, rest + [at], ip, depth)
      ensures Pending(after, rest + pushes, ip, depth)
    {
    }
    forall ip, next | 0 <= ip < |table| && after[ip].Some? && next in Successors(code[ip], ip)
      ensures next < |code| && Pending(after, rest + pushes, next, NextDepth(code[ip], after[ip].value))
    {
      SuccessorsInRange(code, ip);
      if ip != at.ip { assert Pending(table, rest + [at], next, NextDepth(code[ip], table[ip].value)); }
    }
  }

  lemma PushedReached(code: Code, at: Arrival, rest: seq<Arrival>)
    requires Structured(code) && at.ip < |code| && Arrives(code, at.ip, at.depth) && at.depth >= Required(code[at.ip])
    requires forall i :: 0 <= i < |rest| ==> rest[i].ip < |code| && Arrives(code, rest[i].ip, rest[i].depth)
    ensures WorkReached(code, rest + Pushes(code[at.ip], at.ip, NextDepth(code[at.ip], at.depth)))
  {
    var op := code[at.ip];
    var pushes := Pushes(op, at.ip, NextDepth(op, at.depth));
    PushesAreSuccessors(op, at.ip, NextDepth(op, at.depth));
    SuccessorsInRange(code, at.ip);
    var p :| PathTo(code, p, at.ip) && DepthAlong(code, p) == at.depth;
    forall i | 0 <= i < |pushes| ensures pushes[i].ip < |code| && Arrives(code, pushes[i].ip, pushes[i].depth) {
      assert pushes[i] in pushes;
      PathExtends(code, p, at.ip, pushes[i].ip);
    }
  }

  lemma VisitedPeak(code: Code, table: Table, peak: nat, at: Arrival)
    requires |table| == |code| && TablePeak(code, table, peak) && at.ip < |table| && table[at.ip].None?
    requires at.depth >= Required(code[at.ip])
    ensures var next := NextDepth(code[at.ip], at.depth);
      next >= 0 && TablePeak(code, table[at.ip := Some(at.depth)], if peak < next then next else peak)
  {
    var after := table[at.ip := Some(at.depth)];
    var next := NextDepth(code[at.ip], at.depth);
    assert after[at.ip].Some?;
    if peak != 0 && next < peak {
      var top :| 0 <= top < |table| && table[top].Some? && NextDepth(code[top], table[top].value) == peak;
      assert after[top].Some? && NextDepth(code[top], after[top].value) == peak;
    }
  }

  /** A rejection by the worklist names an instruction and a path that justify it. */
  ghost predicate Justified(code: Code, e: ProgramError) {
    && e.line.Some? && 0 < e.line.value <= |code|
    && var ip := e.line.value - 1;
       if e.problem == JoinDepth then exists a: nat, b: nat :: a != b && Arrives(code, ip, a) && Arrives(code, ip, b)
       else e.problem == MissingOperands && exists d: nat :: d < Required(code[ip]) && Arrives(code, ip, d)
  }

  lemma JoinRejected(code: Code, ip: nat, a: nat, b: nat)
    requires ip < |code| && a != b && Arrives(code, ip, a) && Arrives(code, ip, b)
    ensures Justified(code, ProgramError(Some(ip + 1), JoinDepth)) && !PathsAgree(code)
  {
    hide DepthAlong;
    var p :| PathTo(code, p, ip) && DepthAlong(code, p) == a;
    var q :| PathTo(code, q, ip) && DepthAlong(code, q) == b;
  }

  lemma OperandsRejected(code: Code, ip: nat, depth: nat)
    requires ip < |code| && depth < Required(code[ip]) && Arrives(code, ip, depth)
    ensures Justified(code, ProgramError(Some(ip + 1), MissingOperands)) && !PathsRun(code)
  {
    hide DepthAlong;
    var p :| PathTo(code, p, ip) && DepthAlong(code, p) == depth;
  }

  /** Walks the control flow from the entry: the peak depth if every path runs and all agree. */
  method WalkPaths(code: Code) returns (r: Result<nat, ProgramError>)
    requires Structured(code)
    ensures r.Ok? <==> PathsRun(code) && PathsAgree(code)
    ensures r.Ok? ==> PeakDepth(code, r.value)
    ensures r.Err? ==> Justified(code, r.error)
  {
    hide Path, PathTo, Arrives, DepthAlong, PathsRun, PathsAgree, NextDepth, Required, Successors, Pushes, PassedOn, TablePeak,
      Structured, Justified;
    assert |code| > 0 by { HasInstructions(code); }
    var depthAt: Table := seq(|code|, _ => None);
    var work := [Arrival(0, 0)];
    var peak: nat := 0;
    WalkStarts(code, depthAt, work);
    while work != []
      invariant |depthAt| == |code| && TableReached(code, depthAt) && WorkReached(code, work)
      invariant PassedOn(code, depthAt, work) && Pending(depthAt, work, 0, 0) && TablePeak(code, depthAt, peak)
      decreases 2 * Unvisited(depthAt) + |work|
    {
      var at := work[|work| - 1];
      var rest := work[..|work| - 1];
      assert work == rest + [at];
      assert at.ip < |code| && Arrives(code, at.ip, at.depth);
      if depthAt[at.ip].Some? {
        if depthAt[at.ip].value != at.depth {
          JoinRejected(code, at.ip, at.depth, depthAt[at.ip].value);
          return Err(ProgramError(Some(at.ip + 1), JoinDepth));
        }
        SkippedArrival(code, depthAt, rest, at);
        work := rest;
      } else {
        if at.depth < Required(code[at.ip]) {
          OperandsRejected(code, at.ip, at.depth);
          return Err(ProgramError(Some(at.ip + 1), MissingOperands));
        }
        VisitedArrival(code, depthAt, rest, at);
        VisitedPeak(code, depthAt, peak, at);
        UnvisitedDrops(depthAt, at.ip, at.depth);
        var next := NextDepth(code[at.ip], at.depth);
        PushesAreSuccessors(code[at.ip], at.ip, next);
        depthAt := depthAt[at.ip := Some(at.depth)];
        peak := if peak < next then next else peak;
        work := rest + Pushes(code[at.ip], at.ip, next);
      }
    }
    FixpointValid(code, depthAt, peak);
    r := Ok(peak);
  }

  lemma HasInstructions(code: Code)
    requires Structured(code)
    ensures |code| > 0
  {
  }

  lemma WalkStarts(code: Code, table: Table, work: seq<Arrival>)
    requires Structured(code) && |table| == |code| && forall ip :: 0 <= ip < |table| ==> table[ip].None?
    requires work == [Arrival(0, 0)]
    ensures TableReached(code, table) && WorkReached(code, work) && PassedOn(code, table, work) && TablePeak(code, table, 0)
  {
    assert PathTo(code, [0], 0) && DepthAlong(code, [0]) == 0;
  }

  /** What a rejection says of the program: its first structural defect, an instruction whose paths cannot run or
      disagree, or a sound program too deep. */
  ghost predicate Refused(code: Code, e: ProgramError) {
    match e.problem
    case JoinDepth => Structured(code) && Justified(code, e)
    case MissingOperands => Structured(code) && Justified(code, e)
    case DepthLimit =>
      e.line.None? && Structured(code) && PathsRun(code) && PathsAgree(code) && !DepthWithin(code, MAX_STACK_DEPTH)
    case _ => !Structured(code) && Defect(code, e)
  }

  /** `Program::new`: accepts exactly the valid programs and records their exact peak depth. */
  method New(code: Code) returns (r: Result<Program, ProgramError>)
    ensures r.Ok? <==> Valid(code)
    ensures r.Ok? ==> r.value.instructions == code && Accepted(r.value)
    ensures r.Err? ==> Refused(code, r.error)
  {
    hide PathsRun, PathsAgree, Structured, Arrives;
    var defect := CheckStructure(code);
    if defect.Some? { return Err(defect.value); }
    var walked := WalkPaths(code);
    if walked.Err? { return Err(walked.error); }
    if walked.value > MAX_STACK_DEPTH { return Err(ProgramError(None, DepthLimit)); }
    r := Ok(Program(code, walked.value));
  }
}
