/** The round-robin scheduler as a value: processes, the run queue, and what every interleaving of spawns, exits
    and ticks keeps. */
module Scheduler {
  import opened Wrappers
  import opened FlatProgram
  import opened FlatVm
  import opened FileSystem

  const LAST_PID: nat := 0xFFFF_FFFF

  datatype Status = Ready | Running | Exited(code: i32) | Failed(error: FlatError)

  datatype Proc = Proc(parent: Option<nat>, argv: seq<string>, cwd: string, program: Code, vm: Flat, status: Status)

  datatype ProcessEvent =
    | InstructionExecuted(pid: nat, ip: nat, instruction: Instruction, stack: seq<i32>)
    | ProcessExited(pid: nat, code: i32)
    | ProcessFailed(pid: nat, error: FlatError)

  /** The scheduler's state, with its history: how often each process was scheduled and which ones were told to
      exit by a system call. */
  datatype Sched = Sched(
    procs: map<nat, Proc>, queue: seq<nat>, nextPid: nat, ticks: nat, limits: ResourceLimits,
    attempts: map<nat, nat>, forced: set<nat>)

  datatype Spawned = Spawned(next: Sched, pid: nat)
  datatype Ticked = Ticked(next: Sched, event: Option<ProcessEvent>)

  // ----- the operations -----

  /** `spawn`, once the program has been accepted. */
  function Admit(s: Sched, parent: Option<nat>, program: Code, argv: seq<string>): Result<Spawned, RuntimeError> {
    if |s.procs| >= s.limits.maxProcesses then Err(ProcessLimitReached(s.limits.maxProcesses))
    else if parent.Some? && parent.value !in s.procs then Err(InvalidParent(parent.value))
    else if s.nextPid >= LAST_PID then Err(QuotaExceeded("process IDs", LAST_PID))
    else
      var pid := s.nextPid;
      var cwd := if parent.Some? then s.procs[parent.value].cwd else "/";
      Ok(Spawned(
           s.(procs := s.procs[pid := Proc(parent, argv, cwd, program, START, Ready)], queue := s.queue + [pid],
              nextPid := pid + 1, attempts := s.attempts[pid := 0]),
           pid))
  }

  /** The position of the first process in the queue that is ready, or the end of the queue. */
  function FirstReady(procs: map<nat, Proc>, queue: seq<nat>): (i: nat)
    ensures i <= |queue|
    ensures forall j :: 0 <= j < i ==> queue[j] in procs ==> !procs[queue[j]].status.Ready?
    ensures i < |queue| ==> queue[i] in procs && procs[queue[i]].status.Ready?
  {
    if queue == [] || (queue[0] in procs && procs[queue[0]].status.Ready?) then 0
    else 1 + FirstReady(procs, queue[1..])
  }

  /** The process after one attempted step, and what is reported. */
  function Scheduled(p: Proc, pid: nat): (Proc, ProcessEvent) {
    match Step(p.program, p.vm)
    case Ok(moved) =>
      if moved.report.Halted? then
        (p.(vm := moved.next, status := Exited(moved.report.result)), ProcessExited(pid, moved.report.result))
      else (p.(vm := moved.next, status := Ready), InstructionExecuted(pid, p.vm.ip, moved.report.instruction, moved.next.stack))
    case Err(e) => (p.(status := Failed(e)), ProcessFailed(pid, e))
  }

  /** `tick`. */
  function Tick(s: Sched): Ticked {
    if s.ticks >= s.limits.maxSteps then Ticked(s, None)
    else
      var i := FirstReady(s.procs, s.queue);
      if i == |s.queue| then Ticked(s.(queue := []), None)
      else
        RunNext(s.(queue := s.queue[i + 1..]), s.queue[i])
  }

  /** One instruction of a process that was taken off the queue. */
  function RunNext(s: Sched, pid: nat): Ticked
    requires pid in s.procs
  {
    var (p, event) := Scheduled(s.procs[pid], pid);
    Ticked(
      s.(procs := s.procs[pid := p], queue := s.queue + (if p.status.Ready? then [pid] else []), ticks := s.ticks + 1,
         attempts := s.attempts[pid := Count(s.attempts, pid) + 1]),
      Some(event))
  }

  function Count(attempts: map<nat, nat>, pid: nat): nat {
    if pid in attempts then attempts[pid] else 0
  }

  /** The exit system call. */
  function Exit(s: Sched, pid: nat, code: i32): Sched
    requires pid in s.procs
  {
    s.(procs := s.procs[pid := s.procs[pid].(status := Exited(code))], forced := s.forced + {pid})
  }

  // ----- what each operation means -----

  /** What a spawn must do: refuse in the order of the checks, or add one ready process at the end of the queue. */
  ghost predicate SpawnMeans(
    s: Sched, parent: Option<nat>, program: Code, argv: seq<string>, r: Result<nat, RuntimeError>, t: Sched)
  {
    if |s.procs| >= s.limits.maxProcesses then r == Err(ProcessLimitReached(s.limits.maxProcesses)) && t == s
    else if parent.Some? && parent.value !in s.procs then r == Err(InvalidParent(parent.value)) && t == s
    else if s.nextPid >= LAST_PID then r == Err(QuotaExceeded("process IDs", LAST_PID)) && t == s
    else
      && r == Ok(s.nextPid) && t.procs.Keys == s.procs.Keys + {s.nextPid}
      && (forall pid :: pid in s.procs && pid != s.nextPid ==> t.procs[pid] == s.procs[pid])
      && t.procs[s.nextPid] == Proc(parent, argv, if parent.None? then "/" else s.procs[parent.value].cwd, program, START, Ready)
      && t.queue == s.queue + [s.nextPid] && t.nextPid == s.nextPid + 1
      && t.ticks == s.ticks && t.limits == s.limits && t.forced == s.forced && t.attempts == s.attempts[s.nextPid := 0]
  }

  lemma AdmitObeys(s: Sched, parent: Option<nat>, program: Code, argv: seq<string>)
    ensures match Admit(s, parent, program, argv)
      case Ok(spawned) => SpawnMeans(s, parent, program, argv, Ok(spawned.pid), spawned.next)
      case Err(e) => SpawnMeans(s, parent, program, argv, Err(e), s)
  {
  }

  /** The first place in the queue with a ready process. */
  ghost predicate IsFirstReady(s: Sched, i: nat) {
    && i < |s.queue| && s.queue[i] in s.procs && s.procs[s.queue[i]].status.Ready?
    && forall j :: 0 <= j < i && s.queue[j] in s.procs ==> !s.procs[s.queue[j]].status.Ready?
  }

  /** The process after one step of its program, and the event that reports it. */
  ghost predicate StepReported(was: Proc, pid: nat, now: Proc, event: ProcessEvent, r: Result<Moved, FlatError>) {
    && StepMeans(was.program, was.vm, r) && now == was.(vm := now.vm, status := now.status)
    && match r
       case Err(e) => now.vm == was.vm && now.status == Failed(e) && event == ProcessFailed(pid, e)
       case Ok(moved) =>
         && now.vm == moved.next
         && if moved.next.halted then
              && moved.next.stack != []
              && var code := moved.next.stack[|moved.next.stack| - 1];
                 now.status == Exited(code) && event == ProcessExited(pid, code)
            else
              && now.status == Ready && was.vm.ip < |was.program|
              && event == InstructionExecuted(pid, was.vm.ip, was.program[was.vm.ip], now.vm.stack)
  }

  /** Process `i` of the queue ran one instruction: those before it left the queue, and it is at the end if it goes on. */
  ghost predicate RanOne(s: Sched, i: nat, t: Sched, event: Option<ProcessEvent>)
    requires i < |s.queue| && s.queue[i] in s.procs
  {
    var pid := s.queue[i];
    && event.Some? && pid in t.procs
    && var now := t.procs[pid];
       && t == s.(procs := s.procs[pid := now], queue := s.queue[i + 1..] + (if now.status.Ready? then [pid] else []),
                  ticks := s.ticks + 1, attempts := s.attempts[pid := Count(s.attempts, pid) + 1])
       && exists r :: StepReported(s.procs[pid], pid, now, event.value, r)
  }

  /** What a tick must do. */
  ghost predicate TickMeans(s: Sched, t: Sched, event: Option<ProcessEvent>) {
    if s.ticks >= s.limits.maxSteps then t == s && event.None?
    else if exists i :: IsFirstReady(s, i) then exists i :: IsFirstReady(s, i) && RanOne(s, i, t, event)
    else t == s.(queue := []) && event.None?
  }

  lemma TickObeys(s: Sched)
    ensures TickMeans(s, Tick(s).next, Tick(s).event)
  {
    hide Scheduled, Step, StepMeans;
    var i := FirstReady(s.procs, s.queue);
    if s.ticks < s.limits.maxSteps {
      if i < |s.queue| {
        var pid, p := s.queue[i], s.procs[s.queue[i]];
        assert IsFirstReady(s, i);
        ScheduledObeys(p, pid);
        var t, event := Tick(s).next, Tick(s).event;
        assert t.procs[pid] == Scheduled(p, pid).0 && event == Some(Scheduled(p, pid).1);
        assert StepReported(p, pid, t.procs[pid], event.value, Step(p.program, p.vm));
        assert RanOne(s, i, t, event);
      } else {
        forall j ensures !IsFirstReady(s, j) {}
      }
    }
  }

  lemma ScheduledObeys(p: Proc, pid: nat)
    ensures StepReported(p, pid, Scheduled(p, pid).0, Scheduled(p, pid).1, Step(p.program, p.vm))
  {
    hide Step, StepMeans;
    StepExact(p.program, p.vm, Step(p.program, p.vm));
    ReportTells(p.program, p.vm);
    EntryTells(p.program, p.vm);
  }

  // ----- what always holds -----

  /** A process that was scheduled `n` times is exactly where its program run alone is after `n` attempted steps,
      and it ended, if it did, as that run ends. */
  ghost predicate ProcOk(p: Proc, n: nat, forced: bool) {
    && Valid(p.program) && p.vm == After(p.program, START, n) && !p.status.Running? && p.cwd == "/"
    && (p.status.Ready? ==> !forced && GoesOn(p.program, START, n))
    && (p.status.Exited? && !forced ==>
          n > 0 && GoesOn(p.program, START, n - 1) && HaltsWith(p.program, After(p.program, START, n - 1), p.status.code))
    && (p.status.Failed? ==>
          n > 0 && GoesOn(p.program, START, n - 1) && Step(p.program, After(p.program, START, n - 1)) == Err(p.status.error))
  }

  /** Attempts of all processes below `n`. */
  function TotalAttempts(attempts: map<nat, nat>, n: nat): nat {
    if n == 0 then 0 else TotalAttempts(attempts, n - 1) + Count(attempts, n - 1)
  }

  predicate NoRepeats(queue: seq<nat>) {
    forall i, j :: 0 <= i < j < |queue| ==> queue[i] != queue[j]
  }

  ghost predicate QueueOk(s: Sched) {
    && NoRepeats(s.queue)
    && (forall pid :: pid in s.queue ==> pid in s.procs)
    && (forall pid :: pid in s.procs && s.procs[pid].status.Ready? ==> pid in s.queue)
  }

  ghost predicate ProcsOk(s: Sched) {
    && (forall pid :: pid in s.procs <==> 1 <= pid < s.nextPid)
    && (forall pid :: pid in s.procs ==> ProcOk(s.procs[pid], Count(s.attempts, pid), pid in s.forced))
    && (forall pid :: pid !in s.procs ==> Count(s.attempts, pid) == 0 && pid !in s.forced)
  }

  /** The invariant of the scheduler. */
  ghost predicate SchedOk(s: Sched) {
    && 1 <= s.nextPid <= LAST_PID && |s.procs| <= s.limits.maxProcesses
    && ProcsOk(s) && QueueOk(s)
    && TotalAttempts(s.attempts, s.nextPid) == s.ticks <= s.limits.maxSteps
  }

  // ----- each operation keeps it -----

  lemma {:induction false} AttemptsGrow(attempts: map<nat, nat>, pid: nat, m: nat, n: nat)
    ensures TotalAttempts(attempts[pid := m], n) + (if pid < n then Count(attempts, pid) else 0) ==
            TotalAttempts(attempts, n) + (if pid < n then m else 0)
  {
    if n > 0 { AttemptsGrow(attempts, pid, m, n - 1); }
  }

  /** Only one process changed, and it is as it should be. */
  lemma OneChanged(s: Sched, next: Sched, pid: nat)
    requires ProcsOk(s) && pid in next.procs && ProcOk(next.procs[pid], Count(next.attempts, pid), pid in next.forced)
    requires forall q :: q in next.procs <==> 1 <= q < next.nextPid
    requires forall q :: q in next.procs <==> q in s.procs || q == pid
    requires forall q :: q != pid ==>
      && (q in s.procs ==> next.procs[q] == s.procs[q])
      && Count(next.attempts, q) == Count(s.attempts, q) && (q in next.forced <==> q in s.forced)
    ensures ProcsOk(next)
  {
    hide ProcOk;
    forall q | q in next.procs ensures ProcOk(next.procs[q], Count(next.attempts, q), q in next.forced) {
      if q != pid { assert ProcOk(s.procs[q], Count(s.attempts, q), q in s.forced); }
    }
  }

  lemma AdmitKeeps(s: Sched, parent: Option<nat>, program: Code, argv: seq<string>)
    requires SchedOk(s) && Valid(program)
    ensures var r := Admit(s, parent, program, argv);
      r.Ok? ==> SchedOk(r.value.next) && r.value.pid == s.nextPid && r.value.pid !in s.procs
  {
    hide ProcOk, ProcsOk, QueueOk, TotalAttempts, Count;
    var r := Admit(s, parent, program, argv);
    if r.Ok? {
      if parent.Some? { AtRoot(s, parent.value); }
      AdmitProcs(s, r.value.next, program);
      QueueAfterPush(s, r.value.next, r.value.pid);
      NewPid(s);
      assert |r.value.next.procs| == |s.procs| + 1;
      AttemptsGrow(s.attempts, s.nextPid, 0, s.nextPid);
      LastAttempts(r.value.next.attempts, s.nextPid);
    }
  }

  /** No process leaves the root as its working directory. */
  lemma AtRoot(s: Sched, pid: nat)
    requires ProcsOk(s) && pid in s.procs
    ensures s.procs[pid].cwd == "/"
  {
    assert ProcOk(s.procs[pid], Count(s.attempts, pid), pid in s.forced);
  }

  lemma LastAttempts(attempts: map<nat, nat>, n: nat)
    ensures TotalAttempts(attempts, n + 1) == TotalAttempts(attempts, n) + Count(attempts, n)
    ensures n in attempts ==> Count(attempts, n) == attempts[n]
  {
  }

  lemma NewPid(s: Sched)
    requires ProcsOk(s)
    ensures s.nextPid !in s.procs && Count(s.attempts, s.nextPid) == 0
  {
  }

  lemma AdmitProcs(s: Sched, next: Sched, program: Code)
    requires ProcsOk(s) && Valid(program) && 1 <= s.nextPid && next.nextPid == s.nextPid + 1
    requires next.attempts == s.attempts[s.nextPid := 0] && next.forced == s.forced
    requires s.nextPid in next.procs && next.procs == s.procs[s.nextPid := next.procs[s.nextPid]]
    requires var p := next.procs[s.nextPid]; p.program == program && p.vm == START && p.status.Ready? && p.cwd == "/"
    ensures ProcsOk(next)
  {
    hide ProcOk;
    NewProcessOk(next.procs[s.nextPid]);
    OneChanged(s, next, s.nextPid);
  }

  lemma NewProcessOk(p: Proc)
    requires Valid(p.program) && p.vm == START && p.status.Ready? && p.cwd == "/"
    ensures ProcOk(p, 0, false)
  {
    hide Valid;
  }

  lemma QueueAfterPush(s: Sched, next: Sched, pid: nat)
    requires ProcsOk(s) && QueueOk(s) && pid == s.nextPid && next.queue == s.queue + [pid]
    requires forall q :: q in next.procs <==> q in s.procs || q == pid
    requires forall q :: q in s.procs && q != pid ==> next.procs[q] == s.procs[q]
    ensures QueueOk(next)
  {
    hide ProcOk;
    assert pid !in s.procs && pid !in s.queue;
    forall q | q in next.procs && next.procs[q].status.Ready? ensures q in next.queue {
      assert q != pid ==> q in s.queue;
      assert next.queue[|s.queue|] == pid;
    }
  }

  lemma ExitKeeps(s: Sched, pid: nat, code: i32)
    requires SchedOk(s) && pid in s.procs
    ensures SchedOk(Exit(s, pid, code))
  {
    hide NoRepeats, Valid, After, GoesOn, HaltsWith, Step;
    var next := Exit(s, pid, code);
    assert ProcOk(s.procs[pid], Count(s.attempts, pid), pid in s.forced);
    OneChanged(s, next, pid);
    assert next.procs.Keys == s.procs.Keys;
  }

  /** One more attempted step of a ready process. */
  lemma ScheduledOk(p: Proc, n: nat, pid: nat)
    requires ProcOk(p, n, false) && p.status.Ready?
    ensures ProcOk(Scheduled(p, pid).0, n + 1, false)
  {
    hide Valid, Step;
    var moved := Step(p.program, p.vm);
    ReportTells(p.program, p.vm);
    assert After(p.program, START, n + 1) == Attempt(p.program, p.vm);
    if moved.Ok? && moved.value.report.Executed? {
      assert Executes(p.program, After(p.program, START, n));
    }
  }

  lemma TickKeeps(s: Sched)
    requires SchedOk(s)
    ensures SchedOk(Tick(s).next)
  {
    hide NoRepeats, ProcOk, Scheduled, TotalAttempts, QueueOk, FirstReady;
    var i := FirstReady(s.procs, s.queue);
    if s.ticks >= s.limits.maxSteps {
    } else if i == |s.queue| {
      NothingReady(s);
    } else {
      var pid := s.queue[i];
      var next := Tick(s).next;
      var n := Count(s.attempts, pid);
      TickedProcs(s, next, pid);
      AttemptsGrow(s.attempts, pid, n + 1, s.nextPid);
      assert next.procs.Keys == s.procs.Keys;
      QueueAfterTick(s, next, i);
    }
  }

  lemma TickedProcs(s: Sched, next: Sched, pid: nat)
    requires ProcsOk(s) && pid in s.procs && s.procs[pid].status.Ready?
    requires next.procs == s.procs[pid := Scheduled(s.procs[pid], pid).0] && next.nextPid == s.nextPid && next.forced == s.forced
    requires next.attempts == s.attempts[pid := Count(s.attempts, pid) + 1]
    ensures ProcsOk(next)
  {
    hide ProcOk, Scheduled;
    var n := Count(s.attempts, pid);
    assert ProcOk(s.procs[pid], n, pid in s.forced);
    ReadyIsFree(s.procs[pid], n, pid in s.forced);
    ScheduledOk(s.procs[pid], n, pid);
    OneChanged(s, next, pid);
  }

  lemma ReadyIsFree(p: Proc, n: nat, forced: bool)
    requires ProcOk(p, n, forced) && p.status.Ready?
    ensures !forced
  {
  }

  lemma NothingReady(s: Sched)
    requires SchedOk(s) && FirstReady(s.procs, s.queue) == |s.queue|
    ensures SchedOk(s.(queue := []))
    ensures forall pid :: pid in s.procs ==> !s.procs[pid].status.Ready?
  {
    hide ProcsOk, FirstReady;
    forall pid | pid in s.procs ensures !s.procs[pid].status.Ready? {
      if pid in s.queue {
        var j :| 0 <= j < |s.queue| && s.queue[j] == pid;
      }
    }
    assert ProcsOk(s.(queue := [])) by { SameProcs(s, s.(queue := [])); }
  }

  lemma SameProcs(s: Sched, next: Sched)
    requires ProcsOk(s) && next.procs == s.procs && next.nextPid == s.nextPid
    requires next.attempts == s.attempts && next.forced == s.forced
    ensures ProcsOk(next)
  {
    hide ProcOk;
  }

  lemma QueueAfterTick(s: Sched, next: Sched, i: nat)
    requires QueueOk(s) && i == FirstReady(s.procs, s.queue) < |s.queue|
    requires var pid := s.queue[i];
      && next.procs.Keys == s.procs.Keys
      && (forall q :: q in s.procs && q != pid ==> next.procs[q] == s.procs[q])
      && next.queue == s.queue[i + 1..] + (if next.procs[pid].status.Ready? then [pid] else [])
    ensures QueueOk(next)
  {
    hide FirstReady;
    var pid, rest := s.queue[i], s.queue[i + 1..];
    RestDiffers(s.queue, i);
    assert forall q :: q in next.queue ==> q in rest || q == pid;
    assert forall q :: q in rest ==> q in next.queue;
    forall q | q in next.procs && next.procs[q].status.Ready? ensures q in next.queue {
      if q != pid { StillQueued(s, i, q); } else { assert next.queue[|rest|] == pid; }
    }
  }

  lemma RestDiffers(queue: seq<nat>, i: nat)
    requires NoRepeats(queue) && i < |queue|
    ensures var rest := queue[i + 1..];
      NoRepeats(rest) && NoRepeats(rest + [queue[i]]) && (forall q :: q in rest ==> q != queue[i] && q in queue)
  {
  }

  /** A ready process other than the first is behind it in the queue. */
  lemma StillQueued(s: Sched, i: nat, q: nat)
    requires QueueOk(s) && i == FirstReady(s.procs, s.queue) < |s.queue|
    requires q in s.procs && s.procs[q].status.Ready? && q != s.queue[i]
    ensures q in s.queue[i + 1..]
  {
    hide FirstReady;
    var j :| 0 <= j < |s.queue| && s.queue[j] == q;
    assert j > i;
    assert s.queue[i + 1..][j - i - 1] == q;
  }

  // ----- runs -----

  datatype Action =
    | DoSpawn(parent: Option<nat>, program: Code, argv: seq<string>)
    | DoExit(pid: nat, code: i32)
    | DoTick

  /** A rejected spawn and an exit of an unknown process change nothing. */
  ghost function Acted(s: Sched, action: Action): Sched {
    match action
    case DoSpawn(parent, program, argv) =>
      if !Valid(program) then s
      else
        var r := Admit(s, parent, program, argv);
        if r.Ok? then r.value.next else s
    case DoExit(pid, code) => if pid in s.procs then Exit(s, pid, code) else s
    case DoTick => Tick(s).next
  }

  ghost function Ran(s: Sched, actions: seq<Action>): Sched
    decreases actions
  {
    if actions == [] then s else Ran(Acted(s, actions[0]), actions[1..])
  }

  lemma ActionKeeps(s: Sched, action: Action)
    requires SchedOk(s)
    ensures SchedOk(Acted(s, action))
  {
    hide SchedOk, Tick, Exit, Admit, Valid;
    match action
    case DoSpawn(parent, program, argv) => if Valid(program) { AdmitKeeps(s, parent, program, argv); }
    case DoExit(pid, code) => if pid in s.procs { ExitKeeps(s, pid, code); }
    case DoTick => TickKeeps(s);
  }

  /** After any interleaving of spawns, exits and ticks: every process stands where its program run alone stands
      after as many steps as it was scheduled, the attempts add up to the ticks, nothing is left running, and the
      queue holds every ready process once. */
  lemma {:induction false} RunKeeps(s: Sched, actions: seq<Action>)
    requires SchedOk(s)
    ensures SchedOk(Ran(s, actions))
    decreases actions
  {
    hide SchedOk, Acted;
    if actions != [] {
      ActionKeeps(s, actions[0]);
      RunKeeps(Acted(s, actions[0]), actions[1..]);
    }
  }

  /** A process that ended by itself ended as running its program alone ends, within any budget that allows as many
      steps as it was given. */
  lemma SoloResult(s: Sched, pid: nat, steps: nat)
    requires SchedOk(s) && pid in s.procs && pid !in s.forced && steps >= Count(s.attempts, pid)
    ensures var p := s.procs[pid];
      && (p.status.Exited? ==> Outcome(p.program, START, steps) == Ok(p.status.code))
      && (p.status.Failed? ==>
            Outcome(p.program, START, steps) == Err(p.status.error) && (p.status.error.DivisionByZero? || p.status.error.IntegerOverflow?))
      && (p.status.Ready? ==> Outcome(p.program, START, Count(s.attempts, pid)) == Err(StepLimitExceeded(MAX_VM_STEPS)))
  {
    hide Valid, Step, Outcome, GoesOn;
    var p, n := s.procs[pid], Count(s.attempts, pid);
    assert ProcOk(p, n, pid in s.forced);
    if p.status.Ready? {
      OutcomeAfter(p.program, START, n, n);
      OutcomeNone(p.program, p.vm);
    } else {
      OutcomeAfter(p.program, START, n - 1, steps);
      OutcomeEnds(p.program, After(p.program, START, n - 1), steps - (n - 1));
      ReportTells(p.program, After(p.program, START, n - 1));
      if p.status.Failed? { ValidRunFails(p.program, steps); }
    }
  }

  lemma OutcomeNone(code: Code, s: Flat)
    ensures Outcome(code, s, 0) == Err(StepLimitExceeded(MAX_VM_STEPS))
  {
  }

  lemma OutcomeEnds(code: Code, s: Flat, steps: nat)
    requires steps > 0
    ensures Step(code, s).Err? ==> Outcome(code, s, steps) == Err(Step(code, s).error)
    ensures forall v: i32 :: HaltsWith(code, s, v) ==> Outcome(code, s, steps) == Ok(v)
  {
  }

  lemma ValidRunFails(code: Code, steps: nat)
    requires Valid(code)
    ensures var r := Outcome(code, START, steps);
      r.Err? ==> r.error.DivisionByZero? || r.error.IntegerOverflow? || r.error.StepLimitExceeded?
  {
    hide Valid, OnPath;
    StartOnPath(code);
    OutcomeSound(code, START, steps);
  }

  /** Two processes with the same program that were scheduled equally often are in the same state, in whatever
      schedulers and beside whatever other processes they ran. */
  lemma NonInterference(s: Sched, p: nat, t: Sched, q: nat)
    requires SchedOk(s) && SchedOk(t) && p in s.procs && q in t.procs
    requires s.procs[p].program == t.procs[q].program && Count(s.attempts, p) == Count(t.attempts, q)
    ensures s.procs[p].vm == t.procs[q].vm
    ensures p !in s.forced && q !in t.forced ==> s.procs[p].status == t.procs[q].status
  {
    hide Valid, Step, QueueOk;
    var a, b, n := s.procs[p], t.procs[q], Count(s.attempts, p);
    assert ProcOk(a, n, p in s.forced) && ProcOk(b, n, q in t.forced);
    if p !in s.forced && q !in t.forced { SameEnd(a, b, n); }
  }

  lemma SameEnd(a: Proc, b: Proc, n: nat)
    requires ProcOk(a, n, false) && ProcOk(b, n, false) && a.program == b.program
    ensures a.status == b.status
  {
    hide Valid, Step;
    if n > 0 {
      var before := After(a.program, START, n - 1);
      assert a.status.Ready? ==> Executes(a.program, before);
      assert b.status.Ready? ==> Executes(a.program, before);
    }
  }

  // ----- ended processes stay ended -----

  predicate Ended(s: Sched, pid: nat) {
    pid in s.procs && !s.procs[pid].status.Ready?
  }

  lemma {:induction false} EndedStays(s: Sched, actions: seq<Action>, pid: nat)
    requires SchedOk(s) && Ended(s, pid)
    ensures var t := Ran(s, actions);
      && Ended(t, pid) && t.procs[pid].vm == s.procs[pid].vm && Count(t.attempts, pid) == Count(s.attempts, pid)
      && (pid in s.forced ==> pid in t.forced)
    decreases actions
  {
    if actions != [] {
      ActionKeeps(s, actions[0]);
      EndedOnce(s, actions[0], pid);
      hide SchedOk, Acted;
      EndedStays(Acted(s, actions[0]), actions[1..], pid);
    }
  }

  lemma EndedOnce(s: Sched, action: Action, pid: nat)
    requires SchedOk(s) && Ended(s, pid)
    ensures var t := Acted(s, action);
      && Ended(t, pid) && t.procs[pid].vm == s.procs[pid].vm && Count(t.attempts, pid) == Count(s.attempts, pid)
      && (pid in s.forced ==> pid in t.forced)
  {
    hide ProcOk, QueueOk, Scheduled, Valid;
  }

  /** The exit code a process gave is the one it has, whatever runs afterwards, until it gives another. */
  lemma {:induction false} ExitCodeStays(s: Sched, actions: seq<Action>, pid: nat, code: i32)
    requires SchedOk(s) && pid in s.procs && s.procs[pid].status == Exited(code)
    requires forall i :: 0 <= i < |actions| ==> !(actions[i].DoExit? && actions[i].pid == pid)
    ensures var t := Ran(s, actions);
      pid in t.procs && t.procs[pid].status == Exited(code)
    decreases actions
  {
    if actions != [] {
      ActionKeeps(s, actions[0]);
      CodeStaysOnce(s, actions[0], pid, code);
      hide SchedOk, Acted;
      ExitCodeStays(Acted(s, actions[0]), actions[1..], pid, code);
    }
  }

  lemma CodeStaysOnce(s: Sched, action: Action, pid: nat, code: i32)
    requires SchedOk(s) && pid in s.procs && s.procs[pid].status == Exited(code) && !(action.DoExit? && action.pid == pid)
    ensures pid in Acted(s, action).procs && Acted(s, action).procs[pid].status == Exited(code)
  {
    hide ProcOk, QueueOk, Scheduled, Valid;
  }

  // ----- bounded waiting -----

  function Ticks(actions: seq<Action>): nat {
    if actions == [] then 0 else (if actions[0].DoTick? then 1 else 0) + Ticks(actions[1..])
  }

  /** Ready, at position `k` of the queue. */
  predicate WaitsAt(s: Sched, pid: nat, k: nat) {
    pid in s.procs && s.procs[pid].status.Ready? && k < |s.queue| && s.queue[k] == pid
  }

  lemma Moves(s: Sched, action: Action, pid: nat, k: nat) returns (now: nat)
    requires SchedOk(s) && WaitsAt(s, pid, k) && s.ticks < s.limits.maxSteps
    requires !(action.DoExit? && action.pid == pid)
    ensures var t := Acted(s, action);
      && t.limits == s.limits && t.ticks <= s.ticks + (if action.DoTick? then 1 else 0)
      && (Count(t.attempts, pid) == Count(s.attempts, pid) + 1 ||
          (Count(t.attempts, pid) == Count(s.attempts, pid) && WaitsAt(t, pid, now) && now <= k && (action.DoTick? ==> now < k)))
  {
    hide ProcOk, Scheduled, Valid, NoRepeats;
    now := k;
    if action.DoTick? {
      var i := FirstReady(s.procs, s.queue);
      assert i <= k;
      if i < k {
        now := k - i - 1;
        OthersTicked(s, i, k);
      }
    }
  }

  lemma OthersTicked(s: Sched, i: nat, k: nat)
    requires NoRepeats(s.queue) && i < k < |s.queue|
    ensures s.queue[i] != s.queue[k]
  {
  }

  lemma {:induction false} AttemptsOnlyGrow(s: Sched, actions: seq<Action>, pid: nat)
    requires SchedOk(s)
    ensures Count(Ran(s, actions).attempts, pid) >= Count(s.attempts, pid)
    decreases actions
  {
    if actions != [] {
      ActionKeeps(s, actions[0]);
      AttemptsOnce(s, actions[0], pid);
      hide SchedOk, Acted;
      AttemptsOnlyGrow(Acted(s, actions[0]), actions[1..], pid);
    }
  }

  lemma AttemptsOnce(s: Sched, action: Action, pid: nat)
    requires SchedOk(s)
    ensures Count(Acted(s, action).attempts, pid) >= Count(s.attempts, pid)
  {
    hide ProcOk, Scheduled, Valid, QueueOk;
  }

  /** A ready process at position `k` is scheduled within `k + 1` ticks, whatever is spawned or exits in between,
      as long as the step budget allows them and it is not told to exit itself. */
  lemma {:induction false} BoundedWaiting(s: Sched, actions: seq<Action>, pid: nat, k: nat)
    requires SchedOk(s) && WaitsAt(s, pid, k) && Ticks(actions) >= k + 1 && s.ticks + k + 1 <= s.limits.maxSteps
    requires forall i :: 0 <= i < |actions| ==> !(actions[i].DoExit? && actions[i].pid == pid)
    ensures Count(Ran(s, actions).attempts, pid) > Count(s.attempts, pid)
    decreases actions
  {
    hide SchedOk, Acted, WaitsAt;
    var action, rest := actions[0], actions[1..];
    var now := Moves(s, action, pid, k);
    ActionKeeps(s, action);
    var t := Acted(s, action);
    if Count(t.attempts, pid) > Count(s.attempts, pid) {
      AttemptsOnlyGrow(t, rest, pid);
    } else {
      BoundedWaiting(t, rest, pid, now);
    }
  }

  /** Where every scheduler starts. */
  function Idle(limits: ResourceLimits): Sched {
    Sched(map[], [], 1, 0, limits, map[], {})
  }

  lemma IdleOk(limits: ResourceLimits)
    ensures SchedOk(Idle(limits))
  {
  }
}
