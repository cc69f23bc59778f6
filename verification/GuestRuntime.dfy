/** One isolated guest: a filesystem and a round-robin scheduler over flat VMs. */
module GuestRuntime {
  import opened Wrappers
  import opened Values
  import opened GuestPaths
  import opened FileTree
  import opened FileSystem
  import opened Snapshots
  import opened Scheduler
  import Flat = FlatProgram
  import FlatVm

  datatype WaitStatus = StillRunning | HasExited(code: Flat.i32) | HasFailed(error: FlatVm.FlatError)

  datatype Syscall =
    | SysRead(path: string)
    | SysWrite(path: string, content: seq<byte>)
    | SysMakeDirectory(path: string, recursive: bool)
    | SysList(path: string)
    | SysSpawn(program: Flat.Code, argv: seq<string>)
    | SysWait(pid: nat)
    | SysExit(code: Flat.i32)

  datatype SyscallResult =
    | FileBytesRead(content: seq<byte>)
    | Listing(entries: seq<DirectoryEntry>)
    | Spawnee(pid: nat)
    | Waited(status: WaitStatus)
    | Unit

  /** `n` ticks, ended by an empty queue, by the step budget of the guest, or by the caller's own limit. */
  ghost predicate RanIdle(was: Sched, n: nat, maxTicks: nat, now: Sched, r: Result<seq<ProcessEvent>, RuntimeError>) {
    && now == TickedTimes(was, n)
    && match r
       case Ok(events) => events == Events(was, n) && now.queue == []
       case Err(e) =>
         && now.queue != []
         && ((e == ExecutionLimitExceeded(now.limits.maxSteps) && now.ticks == now.limits.maxSteps && n < maxTicks) ||
             (e == ExecutionLimitExceeded(maxTicks) && n == maxTicks))
  }

  /** `guest_path`. */
  method GuestPath(cwd: string, path: string) returns (r: Result<string, RuntimeError>)
    ensures r == Resolved(cwd, path)
  {
    var names := NormalizePath(path, cwd);
    r := if names.Err? then Err(InvalidPath(path, names.error)) else Ok(Display(names.value));
  }

  function Resolved(cwd: string, path: string): Result<string, RuntimeError> {
    var names := Normalize(path, cwd);
    if names.Err? then Err(InvalidPath(path, names.error)) else Ok(Display(names.value))
  }

  /** What a system call of a known process answers and changes. */
  ghost predicate Answered(
    was: Sched, fs: Fs, pid: nat, call: Syscall, now: Sched, after: Fs, r: Result<SyscallResult, RuntimeError>)
    requires pid in was.procs
  {
    var cwd := was.procs[pid].cwd;
    match call
    case SysRead(path) =>
      var at := Resolved(cwd, path);
      if at.Err? then r == Err(at.error)
      else if r.Err? then ReadMeans(fs.root, at.value, Err(r.error))
      else r.value.FileBytesRead? && ReadMeans(fs.root, at.value, Ok(r.value.content))
    case SysWrite(path, content) =>
      var at := Resolved(cwd, path);
      if at.Err? then r == Err(at.error)
      else
        && WriteDone(fs, at.value, content, if r.Err? then Some(r.error) else None, after)
        && (r.Ok? ==> r == Ok(Unit) && ReadsWritten(fs.root, after.root, at.value, content))
    case SysMakeDirectory(path, recursive) =>
      var at := Resolved(cwd, path);
      if at.Err? then r == Err(at.error)
      else
        && MakeDone(fs, at.value, recursive, if r.Err? then Some(r.error) else None, after)
        && (r.Ok? ==> r == Ok(Unit) && FilesStay(fs.root, after.root))
    case SysList(path) =>
      var at := Resolved(cwd, path);
      if at.Err? then r == Err(at.error)
      else if r.Err? then ListMeans(fs.root, at.value, Err(r.error))
      else r.value.Listing? && ListMeans(fs.root, at.value, Ok(r.value.entries))
    case SysSpawn(program, argv) =>
      if !Flat.Valid(program) then r.Err? && r.error.InvalidProgram?
      else if r.Err? then SpawnMeans(was, Some(pid), program, argv, Err(r.error), now)
      else r.value.Spawnee? && SpawnMeans(was, Some(pid), program, argv, Ok(r.value.pid), now)
    case SysWait(child) =>
      if child !in was.procs then r == Err(ProcessNotFound(child))
      else
        (match was.procs[child].status
         case Exited(code) => r == Ok(Waited(HasExited(code)))
         case Failed(e) => r == Ok(Waited(HasFailed(e)))
         case _ => r == Ok(Waited(StillRunning)))
    case SysExit(code) => r == Ok(Unit) && now == Exit(was, pid, code)
  }

  /** After one process exits with a code, every wait for it sees that code, whatever runs in between, unless the
      process is told to exit again. */
  lemma WaitSeesExit(
    s: Sched, fs: Fs, pid: nat, code: Flat.i32, actions: seq<Action>, parent: nat, now: Sched, after: Fs,
    r: Result<SyscallResult, RuntimeError>)
    requires SchedOk(s) && pid in s.procs
    requires forall i :: 0 <= i < |actions| ==> !(actions[i].DoExit? && actions[i].pid == pid)
    requires var t := Ran(Exit(s, pid, code), actions);
      parent in t.procs && Answered(t, fs, parent, SysWait(pid), now, after, r)
    ensures r == Ok(Waited(HasExited(code)))
  {
    hide SchedOk, Ran;
    ExitKeeps(s, pid, code);
    ExitCodeStays(Exit(s, pid, code), actions, pid, code);
  }

  /** What one process writes, every process reads: at each path that resolves to the same names the new content, and
      at every other path what it read before. */
  lemma ReadsWhatWasWritten(
    s: Sched, fs: Fs, writer: nat, path: string, content: seq<byte>, t: Sched, after: Fs,
    reader: nat, other: string, r: Result<SyscallResult, RuntimeError>)
    requires SchedOk(s) && SchedOk(t) && writer in s.procs && reader in s.procs && reader in t.procs
    requires Answered(s, fs, writer, SysWrite(path, content), t, after, Ok(Unit))
    requires Answered(t, after, reader, SysRead(other), t, after, r)
    ensures Normalize(other, "/") == Normalize(path, "/") ==> r == Ok(FileBytesRead(content))
    ensures Normalize(other, "/") != Normalize(path, "/") ==> Answered(s, fs, reader, SysRead(other), s, fs, r)
  {
    hide ProcsOk, QueueOk, TotalAttempts, ReadMeans, Normalize, Display, Answered, ReadsWritten;
    AtRoot(s, writer);
    AtRoot(s, reader);
    AtRoot(t, reader);
    WriteAnswered(s, fs, writer, path, content, t, after);
    ReadAnswered(t, after, reader, other, r);
    ReadAnswered(s, fs, reader, other, r);
    if Normalize(other, "/").Ok? {
      NormalizeStable(other, "/", "/");
      NormalizeStable(path, "/", "/");
      var here, there := Display(Normalize(path, "/").value), Display(Normalize(other, "/").value);
      OneRead(fs.root, after.root, here, content, there, if r.Ok? && r.value.FileBytesRead? then Ok(r.value.content) else
        Err(if r.Err? then r.error else NotFound("")));
    }
  }

  lemma FsOkAccounted(fs: Fs)
    requires FsOk(fs)
    ensures Accounted(fs)
  {
  }

  lemma OneRead(was: Node, now: Node, path: string, content: seq<byte>, other: string, r: Result<seq<byte>, RuntimeError>)
    requires ReadsWritten(was, now, path, content)
    ensures ReadMeans(now, other, r) <==>
      if Normalize(other, "/") == Normalize(path, "/") then r == Ok(content) else ReadMeans(was, other, r)
  {
    hide ReadMeans, Normalize;
  }

  lemma WriteAnswered(s: Sched, fs: Fs, pid: nat, path: string, content: seq<byte>, t: Sched, after: Fs)
    requires pid in s.procs && s.procs[pid].cwd == "/" && Answered(s, fs, pid, SysWrite(path, content), t, after, Ok(Unit))
    ensures Normalize(path, "/").Ok? && ReadsWritten(fs.root, after.root, Display(Normalize(path, "/").value), content)
  {
    hide ReadsWritten, Normalize, Display, WriteDone;
  }

  lemma ReadAnswered(s: Sched, fs: Fs, pid: nat, path: string, r: Result<SyscallResult, RuntimeError>)
    requires pid in s.procs && s.procs[pid].cwd == "/"
    ensures Answered(s, fs, pid, SysRead(path), s, fs, r) <==>
      match Normalize(path, "/")
      case Err(e) => r == Err(InvalidPath(path, e))
      case Ok(names) =>
        if r.Err? then ReadMeans(fs.root, Display(names), Err(r.error))
        else r.value.FileBytesRead? && ReadMeans(fs.root, Display(names), Ok(r.value.content))
  {
    hide ReadMeans, Normalize, Display;
  }

  /** The scheduler after `n` ticks. */
  function TickedTimes(s: Sched, n: nat): Sched {
    if n == 0 then s else Scheduler.Tick(TickedTimes(s, n - 1)).next
  }

  /** The events of `n` ticks. */
  function Events(s: Sched, n: nat): seq<ProcessEvent> {
    if n == 0 then []
    else
      var event := Scheduler.Tick(TickedTimes(s, n - 1)).event;
      Events(s, n - 1) + if event.Some? then [event.value] else []
  }

  lemma IdleIsDone(s: Sched)
    requires SchedOk(s) && s.queue == []
    ensures forall pid :: pid in s.procs ==> !s.procs[pid].status.Ready?
  {
    hide ProcsOk;
  }

  lemma TicksBounded(s: Sched)
    requires SchedOk(s)
    ensures s.ticks <= s.limits.maxSteps
  {
  }

  lemma TickEvent(s: Sched)
    requires s.ticks < s.limits.maxSteps
    ensures Scheduler.Tick(s).event.None? ==> Scheduler.Tick(s).next.queue == []
  {
    hide Scheduled, FirstReady;
  }

  lemma KeptByWrite(fs: Fs, path: string, content: seq<byte>)
    requires FsOk(fs)
    ensures var r := Written(fs, path, content); r.Ok? ==> FsOk(r.value) && r.value.limits == fs.limits
  {
    hide FsOk, Written;
    if Written(fs, path, content).Ok? { ChangeKeeps(fs, Write(path, content)); }
  }

  lemma KeptByMake(fs: Fs, path: string, recursive: bool)
    requires FsOk(fs)
    ensures var r := Made(fs, path, recursive); r.Ok? ==> FsOk(r.value) && r.value.limits == fs.limits
  {
    hide FsOk, Made;
    if Made(fs, path, recursive).Ok? { ChangeKeeps(fs, Make(path, recursive)); }
  }

  lemma EnoughInodes(fs: Fs)
    requires FsOk(fs)
    ensures 4 <= fs.limits.maxInodes
  {
  }

  lemma StartAccounted(fs: Fs)
    requires FsOk(fs)
    ensures Accounted(fs)
  {
  }

  lemma {:induction false} RestoreKeeps(start: Fs, entries: seq<SnapshotEntry>)
    requires FsOk(start)
    ensures var r := Restored(start, entries);
      r.Ok? ==> FsOk(r.value.fs) && r.value.fs.limits == start.limits
  {
    hide FsOk, Made, Written;
    if entries != [] {
      var front, entry := entries[..|entries| - 1], entries[|entries| - 1];
      RestoreKeeps(start, front);
      var before := Restored(start, front);
      if before.Ok? { EntryKeeps(before.value, entry); }
    }
  }

  lemma EntryKeeps(p: Progress, entry: SnapshotEntry)
    requires FsOk(p.fs)
    ensures var r := RestoredEntry(p, entry);
      r.Ok? ==> FsOk(r.value.fs) && r.value.fs.limits == p.fs.limits
  {
    hide FsOk, Made, Written;
    var r := RestoredEntry(p, entry);
    if r.Ok? {
      if entry.directory {
        KeptByMake(p.fs, entry.path, true);
      } else {
        var names := Normalize(entry.path, "/").value;
        var parent := Display(names[..|names| - 1]);
        KeptByMake(p.fs, parent, true);
        KeptByWrite(Made(p.fs, parent, true).value, entry.path, entry.bytes);
      }
    }
  }

  class VmInstance {
    const id: string
    const limits: ResourceLimits
    const filesystem: VirtualFileSystem
    var processes: map<nat, Proc>
    var runnable: seq<nat>
    var nextPid: nat
    var ticks: nat
    /** History: how often each process was scheduled, and which were told to exit. */
    ghost var attempts: map<nat, nat>
    ghost var forced: set<nat>

    constructor (id: string, filesystem: VirtualFileSystem, limits: ResourceLimits)
      ensures this.id == id && this.filesystem == filesystem && this.limits == limits
      ensures Sched() == Idle(limits) && processes == map[]
    {
      this.id := id;
      this.limits := limits;
      this.filesystem := filesystem;
      processes := map[];
      runnable := [];
      nextPid := 1;
      ticks := 0;
      attempts := map[];
      forced := {};
    }

    /** `with_limits`: an idle guest over the default tree, if the inode limit leaves room for it. */
    static method WithLimits(id: string, limits: ResourceLimits) returns (r: Result<VmInstance, RuntimeError>)
      ensures limits.maxInodes < 4 ==> r == Err(InvalidLimits("inodes", 4, limits.maxInodes))
      ensures limits.maxInodes >= 4 ==> r.Ok?
      ensures r.Ok? ==> fresh(r.value) && fresh(r.value.filesystem) && r.value.Valid()
      ensures r.Ok? ==> r.value.id == id && r.value.limits == limits && r.value.Sched() == Idle(limits)
      ensures r.Ok? ==> DefaultTree(r.value.filesystem.root) && r.value.filesystem.inodeCount == 4
    {
      hide SchedOk, FsOk, DefaultTree;
      var created := Create(limits);
      if created.Err? { return Err(created.error); }
      var vm := new VmInstance(id, created.value, limits);
      IdleOk(limits);
      r := Ok(vm);
    }

    /** The scheduler this instance stands for. */
    ghost function Sched(): Sched
      reads this
    {
      Scheduler.Sched(processes, runnable, nextPid, ticks, limits, attempts, forced)
    }

    ghost predicate Valid()
      reads this, filesystem
    {
      SchedOk(Sched()) && FsOk(filesystem.State()) && filesystem.limits == limits
    }

    /** `spawn`: a valid program becomes a ready process at the end of the queue. */
    method Spawn(parent: Option<nat>, program: Flat.Code, argv: seq<string>) returns (r: Result<nat, RuntimeError>)
      requires Valid()
      modifies this
      ensures Valid()
      ensures Flat.Valid(program) ==>
        match Admit(old(Sched()), parent, program, argv)
        case Ok(spawned) => r == Ok(spawned.pid) && Sched() == spawned.next
        case Err(e) => r == Err(e) && Sched() == old(Sched())
      ensures Flat.Valid(program) ==> SpawnMeans(old(Sched()), parent, program, argv, r, Sched())
      ensures !Flat.Valid(program) ==> r.Err? && r.error.InvalidProgram? && Sched() == old(Sched())
      ensures r.Err? ==> processes == old(processes)
    {
      hide SchedOk, FsOk, Flat.Valid, SpawnMeans;
      ghost var before := Sched();
      AdmitObeys(before, parent, program, argv);
      var checked := Flat.New(program);
      if checked.Err? { return Err(InvalidProgram(checked.error)); }
      if |processes| >= limits.maxProcesses { return Err(ProcessLimitReached(limits.maxProcesses)); }
      var cwd := "/";
      if parent.Some? {
        if parent.value !in processes { return Err(InvalidParent(parent.value)); }
        cwd := processes[parent.value].cwd;
      }
      if nextPid >= LAST_PID { return Err(QuotaExceeded("process IDs", LAST_PID)); }
      AdmitKeeps(before, parent, program, argv);
      var pid := Enqueue(parent, argv, cwd, program);
      r := Ok(pid);
    }

    /** Adds a process with a VM of its own at the end of the queue. */
    method Enqueue(parent: Option<nat>, argv: seq<string>, cwd: string, program: Flat.Code) returns (pid: nat)
      modifies this`processes, this`runnable, this`nextPid, this`attempts
      ensures pid == old(nextPid) && nextPid == pid + 1
      ensures processes == old(processes)[pid := Proc(parent, argv, cwd, program, FlatVm.START, Ready)]
      ensures runnable == old(runnable) + [pid] && attempts == old(attempts)[pid := 0]
    {
      pid := nextPid;
      nextPid := nextPid + 1;
      var vm := new FlatVm.Vm();
      processes := processes[pid := Proc(parent, argv, cwd, program, vm.State(), Ready)];
      runnable := runnable + [pid];
      attempts := attempts[pid := 0];
    }

    /** `tick`: one instruction of the first ready process in the queue. */
    method Tick() returns (event: Option<ProcessEvent>)
      requires Valid()
      modifies this
      ensures Valid()
      ensures Sched() == Scheduler.Tick(old(Sched())).next && event == Scheduler.Tick(old(Sched())).event
      ensures TickMeans(old(Sched()), Sched(), event)
    {
      hide SchedOk, FsOk, RunNext, TickMeans;
      ghost var before := Sched();
      TickKeeps(before);
      TickObeys(before);
      if ticks >= limits.maxSteps { return None; }
      while runnable != []
        invariant Sched() == before.(queue := runnable)
        invariant FirstReady(before.procs, before.queue) == |before.queue| - |runnable| + FirstReady(before.procs, runnable)
        invariant |runnable| <= |before.queue| && before.queue[|before.queue| - |runnable|..] == runnable
        decreases |runnable|
      {
        var pid := runnable[0];
        var at := |before.queue| - |runnable|;
        assert before.queue[at + 1..] == runnable[1..];
        runnable := runnable[1..];
        if pid in processes && processes[pid].status.Ready? {
          event := RunOne(pid);
          return;
        }
      }
      event := None;
    }

    /** Runs a process that was taken off the queue for one instruction. */
    method RunOne(pid: nat) returns (event: Option<ProcessEvent>)
      requires pid in processes && processes[pid].status.Ready?
      modifies this`processes, this`runnable, this`ticks, this`attempts
      ensures Sched() == RunNext(old(Sched()), pid).next && event == RunNext(old(Sched()), pid).event
    {
      hide FlatVm.Step;
      var process := processes[pid];
      processes := processes[pid := process.(status := Running)];
      var vm := new FlatVm.Vm.Resumed(process.vm);
      FlatVm.ReportTells(process.program, process.vm);
      var step := vm.StepOnce(process.program);
      ticks := ticks + 1;
      attempts := attempts[pid := Count(attempts, pid) + 1];
      var status: Status;
      match step {
        case Err(e) =>
          status := Failed(e);
          event := Some(ProcessFailed(pid, e));
        case Ok(Halted(code)) =>
          status := Exited(code);
          event := Some(ProcessExited(pid, code));
        case Ok(Executed(instruction)) =>
          status := Ready;
          runnable := runnable + [pid];
          event := Some(InstructionExecuted(pid, process.vm.ip, instruction, vm.stack));
      }
      processes := processes[pid := process.(vm := vm.State(), status := status)];
    }

    /** `run_until_idle`. */
    method RunUntilIdle(maxTicks: nat) returns (r: Result<seq<ProcessEvent>, RuntimeError>)
      requires Valid()
      modifies this
      ensures Valid()
      ensures exists n: nat :: n <= maxTicks && RanIdle(old(Sched()), n, maxTicks, Sched(), r)
      ensures r.Ok? ==> forall pid :: pid in processes ==> !processes[pid].status.Ready?
    {
      hide SchedOk, FsOk, Scheduler.Tick;
      ghost var before := Sched();
      var events: seq<ProcessEvent> := [];
      for i := 0 to maxTicks
        invariant Valid()
        invariant Sched() == TickedTimes(before, i) && events == Events(before, i)
      {
        if runnable == [] {
          IdleIsDone(Sched());
          assert RanIdle(before, i, maxTicks, Sched(), Ok(events));
          return Ok(events);
        }
        if ticks >= limits.maxSteps {
          TicksBounded(Sched());
          assert RanIdle(before, i, maxTicks, Sched(), Err(ExecutionLimitExceeded(limits.maxSteps)));
          return Err(ExecutionLimitExceeded(limits.maxSteps));
        }
        ghost var last := Sched();
        TickEvent(last);
        var event := Tick();
        assert Sched() == TickedTimes(before, i + 1);
        match event {
          case Some(e) => events := events + [e];
          case None =>
            IdleIsDone(Sched());
            assert RanIdle(before, i + 1, maxTicks, Sched(), Ok(events));
            return Ok(events);
        }
      }
      if runnable == [] {
        IdleIsDone(Sched());
        r := Ok(events);
      } else {
        r := Err(ExecutionLimitExceeded(maxTicks));
      }
      assert RanIdle(before, maxTicks, maxTicks, Sched(), r);
    }

    /** `wait`. */
    method Wait(pid: nat) returns (r: Result<WaitStatus, RuntimeError>)
      ensures pid !in processes ==> r == Err(ProcessNotFound(pid))
      ensures pid in processes ==>
        && r.Ok?
        && match processes[pid].status
           case Exited(code) => r.value == HasExited(code)
           case Failed(e) => r.value == HasFailed(e)
           case _ => r.value == StillRunning
    {
      if pid !in processes { return Err(ProcessNotFound(pid)); }
      match processes[pid].status
      case Ready => r := Ok(StillRunning);
      case Running => r := Ok(StillRunning);
      case Exited(code) => r := Ok(HasExited(code));
      case Failed(e) => r := Ok(HasFailed(e));
    }

    /** `syscall`: on the scheduler it does what `Admit` and `Exit` say, on the filesystem what the operation at the
        path resolved against the process's directory does, and a failing call changes neither. */
    method Syscall(pid: nat, call: Syscall) returns (r: Result<SyscallResult, RuntimeError>)
      requires Valid()
      modifies this, filesystem
      ensures Valid()
      ensures r.Err? ==> Sched() == old(Sched()) && filesystem.State() == old(filesystem.State())
      ensures pid !in old(processes) ==> r == Err(ProcessNotFound(pid))
      ensures pid in old(processes) && !call.SysExit? && !call.SysSpawn? ==> Sched() == old(Sched())
      ensures pid in old(processes) && !call.SysWrite? && !call.SysMakeDirectory? ==> filesystem.State() == old(filesystem.State())
      ensures pid in old(processes) ==> Answered(old(Sched()), old(filesystem.State()), pid, call, Sched(), filesystem.State(), r)
    {
      hide SchedOk, FsOk, Admit, Written, Made, WriteDone, MakeDone, SpawnMeans, ReadMeans, ListMeans, ReadsWritten, FilesStay;
      FsOkAccounted(filesystem.State());
      if pid !in processes { return Err(ProcessNotFound(pid)); }
      var cwd := processes[pid].cwd;
      match call
      case SysRead(path) =>
        var at := GuestPath(cwd, path);
        if at.Err? { return Err(at.error); }
        var read := filesystem.ReadFile(at.value);
        r := if read.Err? then Err(read.error) else Ok(FileBytesRead(read.value));
      case SysWrite(path, content) =>
        var at := GuestPath(cwd, path);
        if at.Err? { return Err(at.error); }
        KeptByWrite(filesystem.State(), at.value, content);
        var err := filesystem.WriteFile(at.value, content);
        r := if err.Some? then Err(err.value) else Ok(Unit);
      case SysMakeDirectory(path, recursive) =>
        var at := GuestPath(cwd, path);
        if at.Err? { return Err(at.error); }
        KeptByMake(filesystem.State(), at.value, recursive);
        var err := filesystem.MakeDirectory(at.value, recursive);
        r := if err.Some? then Err(err.value) else Ok(Unit);
      case SysList(path) =>
        var at := GuestPath(cwd, path);
        if at.Err? { return Err(at.error); }
        var listed := filesystem.ListDirectory(at.value);
        r := if listed.Err? then Err(listed.error) else Ok(Listing(listed.value));
      case SysSpawn(program, argv) =>
        var spawned := Spawn(Some(pid), program, argv);
        r := if spawned.Err? then Err(spawned.error) else Ok(Spawnee(spawned.value));
      case SysWait(child) =>
        var waited := Wait(child);
        r := if waited.Err? then Err(waited.error) else Ok(Waited(waited.value));
      case SysExit(code) =>
        ForceExit(pid, code);
        r := Ok(Unit);
    }

    method ForceExit(pid: nat, code: Flat.i32)
      requires Valid() && pid in processes
      modifies this`processes, this`forced
      ensures Valid() && Sched() == Exit(old(Sched()), pid, code)
    {
      hide SchedOk, FsOk;
      ghost var before := Sched();
      ExitKeeps(before, pid, code);
      processes := processes[pid := processes[pid].(status := Exited(code))];
      forced := forced + {pid};
    }

    /** `snapshot`: identity, limits and the whole tree; processes are not part of it. */
    method Snapshot() returns (snapshot: VmSnapshot)
      ensures snapshot == VmSnapshot(VM_SNAPSHOT_SCHEMA_VERSION, id, limits, Collect(filesystem.root, ""))
    {
      snapshot := VmSnapshot(VM_SNAPSHOT_SCHEMA_VERSION, id, limits, Collect(filesystem.root, ""));
    }

    /** `from_snapshot`: the snapshot of any valid filesystem comes back as that filesystem, exactly when it is
        within the bounds; the restored guest has no processes. */
    static method FromSnapshot(snapshot: VmSnapshot) returns (r: Result<VmInstance, RuntimeError>)
      ensures r.Ok? ==> fresh(r.value) && fresh(r.value.filesystem) && r.value.Valid()
      ensures r.Ok? ==> r.value.id == snapshot.id && r.value.limits == snapshot.limits && r.value.processes == map[]
      ensures r.Ok? ==> snapshot.schemaVersion == VM_SNAPSHOT_SCHEMA_VERSION && WithinBounds(snapshot)
      ensures r.Ok? ==> HoldsSnapshot(snapshot.entries, r.value.filesystem.root)
      ensures snapshot.schemaVersion != VM_SNAPSHOT_SCHEMA_VERSION ==> r == Err(InvalidSnapshot(SchemaVersion))
      ensures forall fs :: FsOk(fs) && snapshot.limits == fs.limits && snapshot.entries == Collect(fs.root, "") ==>
        (r.Ok? <==> snapshot.schemaVersion == VM_SNAPSHOT_SCHEMA_VERSION && WithinBounds(snapshot))
        && (r.Ok? ==> r.value.filesystem.State() == fs)
    {
      hide SchedOk, FsOk, WithinBounds, Accounted, DefaultTree, Collect, Restored, HoldsAll;
      if snapshot.schemaVersion != VM_SNAPSHOT_SCHEMA_VERSION { return Err(InvalidSnapshot(SchemaVersion)); }
      var bound := ValidateBounds(snapshot);
      if bound.Some? { return Err(bound.value); }
      r := WithLimits(snapshot.id, snapshot.limits);
      ghost var start := if r.Ok? then r.value.filesystem.State() else Fs(EMPTY, 1, 0, snapshot.limits);
      forall fs | FsOk(fs) && snapshot.limits == fs.limits && snapshot.entries == Collect(fs.root, "")
        ensures r.Ok? && Restored(start, snapshot.entries).Ok? && Restored(start, snapshot.entries).value.fs == fs
      {
        EnoughInodes(fs);
        StartAccounted(start);
        RoundTrip(fs, start);
      }
      if r.Err? { return; }
      FsOkAccounted(start);
      RestoreKeeps(start, snapshot.entries);
      var err := RestoreEntries(r.value.filesystem, snapshot.entries);
      if err.Some? { return Err(err.value); }
      RestoredHolds(start, snapshot.entries);
      assert HoldsSnapshot(snapshot.entries, r.value.filesystem.root);
    }
  }
}
