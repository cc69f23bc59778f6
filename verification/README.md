# A/RVM model

A Dafny model of the deterministic execution engines and the bookkeeping around them in the A/RVM repository, with
proofs of the properties its documentation and tests promise. `dafny verify dfyconfig.toml` checks the whole project.

## What is modelled

**The module VM** (`Values`, `OrderedMap`, `Bytecode`, `LocalWords`, `FunctionValidator`, `ModuleBuilder`,
`ValueMachine`, `InstructionMeaning`, `ModuleSafety`, `HeapModel`, `SharedHeap`, `Operations`, `VmFrames`, `ModuleVm`). Three layers meet:

- the worklist validator, proved sound, exact and bounded against paths through the control-flow graph;
- a value-semantics machine on immutable trees, whose runs on accepted modules are proved free of the errors the
  validator rules out, within every resource limit, and finite;
- the VM itself, a class over a heap of counted objects. Its methods are proved to do what the value machine does,
  whether lists and maps are changed in place or copied, and to conserve the byte counter, the counts, the cached
  charges and the cached depths exactly. Values held outside the VM are a ghost multiset of counted handles.

A theorem about the value machine (`ModuleSafety`) is therefore a theorem about the VM: `ModuleVm.Vm.Valid` contains
the machine's invariant for the VM's view. The heap limit is the one place where the two may differ, and there the VM
is proved to stop exactly when the value machine would go on and the bytes the instruction must reserve do not fit.

**The flat VM** (`FlatProgram`, `FlatVm`, `Assembly`, `Whitespace`): the depth analysis, the transactional stepper,
runs and traces, and the assembly text that reads back what is printed.

**The guest runtime** (`GuestPaths`, `FileTree`, `FileSystem`, `Snapshots`, `Scheduler`, `GuestRuntime`): the tree
filesystem with its counters, snapshots that restore exactly, and the round-robin scheduler, whose invariant is proved
for every interleaving of spawns, exits and ticks.

**Tasks** (`TaskRecords`, `TaskJson`, `TaskStores`): event-sourced records whose stored projection equals the replay of their
history, and the store that only ever extends one.

**Two small protocols** (`Approvals`, `DelimitedText`): the approval rendezvous as interleaved atomic steps over an event
history, and the quoted-cell reader. The comment at src/server.rs:150-153 says that a late decision must not be replayed
against a later request with the same id; `begin_turn` (src/server.rs:270-272) forgets closed requests as well, so after
a new turn it can be. The model follows the code: `LateDecisionExact` gives the exact condition and
`LateAllowAnswersNextTurn` such a run.

Where the source changes things step by step the model is a class or a loop, proved against a function; the lemmas are
about that function. What a function computes is stated a second time as a relation between operands, states or histories
that does not call it (`InstructionMeaning`, `FlatVm.StepMeans`, `FileSystem.WriteMeans`, `TaskRecords.RefusalFor`,
`Approvals.AnswerOnWaking` and their like), with a lemma that the two agree on every input; the methods promise the
relation as well.

## Model

| member | source | states |
|---|---|---|
| `Values.ValueChargeExact` | src/module.rs:90-132 | A value can be charged exactly when its nesting is within the depth bound and its structural cost fits a machine word; the charge is that cost, and the error tells which bound broke |
| `Values.TruncatedDivRemainder` | src/module.rs:1044-1053 | Integer division leaves a remainder smaller than the divisor with the sign of the dividend |
| `Values.QuotientExact` | src/module.rs:1044-1053 | Division by anything but zero has exactly one quotient with a smaller remainder of the sign of the dividend, and it is the one computed |
| `LocalWords.FirstSlots` | src/module.rs:488-494 | The words built for the parameters stand for exactly the first slots |
| `LocalWords.MarkAndClear` | src/module.rs:496-502 | Marking a slot adds it to the set the words stand for and clearing removes it, leaving all 255 others alone |
| `LocalWords.IntersectionMeets` | src/module.rs:508-514 | Intersecting the four words intersects the sets |
| `LocalWords.EqualWordsEqualSets` | src/module.rs:547-550 | Two word arrays are equal exactly when they stand for the same set, so the join's comparison is a comparison of sets |
| `FunctionValidator.ValidateFunction` | src/module.rs:517-651 | On sets of locals kept as four words, accepts a function only if every control-flow path can run each instruction and meeting paths agree on depth; returns the exact peak depth; a rejection names an instruction with a path showing the reason; at most 1 + 2n(locals + 1) visits are ever used |
| `FunctionValidator.FixpointExact` | src/module.rs:524-650 | The final table has a fact exactly for the reachable instructions; each depth is that of every path and each local set is the intersection over all paths |
| `FunctionValidator.FixpointCovers` | src/module.rs:532-555 | At a fixpoint the recorded fact covers every path that arrives, whatever order items were popped in |
| `FunctionValidator.RejectedPath` | src/module.rs:580-633 | When an instruction fails its check with a justified fact, some real path fails it for the same reason |
| `FunctionValidator.CheckWords` | src/module.rs:580-633 | The checks made on words fail exactly as the checks on the sets they stand for |
| `FunctionValidator.MergedMeaning` | src/module.rs:539-553 | Joining words joins the sets they stand for, and the words are unchanged exactly when the set is |
| `FunctionValidator.WordsAfter` | src/module.rs:634-640 | The words passed on stand for the set passed on |
| `FunctionValidator.DisagreeingJoin` | src/module.rs:541-546 | Two depths met at a join come from two real paths that disagree |
| `FunctionValidator.RoomShrinks` | src/module.rs:547-553 | A visit that goes on uses up room: a first visit, or a strictly smaller local set |
| `ModuleBuilder.CheckImports` | src/module.rs:313-330 | Import declarations pass exactly when names are well formed and distinct and arities are in bounds |
| `ModuleBuilder.NameExact` | src/module.rs:313-330 | An import name is accepted exactly when it is 1 to 128 letters, digits, underscores and dots |
| `ModuleBuilder.CheckConstants` | src/module.rs:331-344 | Constants pass exactly when each can be charged and the total fits, and a fault names the bound that broke |
| `ModuleBuilder.CheckFunction` | src/module.rs:347-427 | A function body passes exactly when all its references are in range and the instruction total fits; the error names a real defect |
| `ModuleBuilder.ValidateAll` | src/module.rs:430-443 | Functions share one visit budget; when all pass the result is each one's exact peak depth, and running out needs more visits than the budget |
| `ModuleBuilder.WithImports` | src/module.rs:268-453 | Accepts exactly the structurally sound modules whose every function is safe, as long as the shared budget lasts, and every error names a defect the module has |
| `ValueMachine.PushThenGet` | src/module.rs:1331-1342 | After a push every index finds the old items, then the new one, then nothing |
| `ValueMachine.PutThenGet` | src/module.rs:1426-1436 | After an insertion the new key finds the new value and every other key finds what it found before |
| `InstructionMeaning.OperationExact` | src/module.rs:1041-1075 | Every operation has exactly the outcome stated on its operands: the 64-bit sum, difference, product or quotient or an overflow when there is none, the order of integers, equality of scalars, the elements and lengths of lists and the entries of maps, and the error of the first check that fails |
| `InstructionMeaning.StayExact` | src/module.rs:992-1095 | Every instruction that stays in its frame changes exactly its operands: which constant, input or local is pushed, which slot is set, and a conditional jump lands on its target exactly when the popped scalar is 0 or false |
| `InstructionMeaning.CallExact` | src/module.rs:1096-1124 | A call puts argument i into local i of the callee, leaves every other local unset and takes the arguments off the caller, or fails at the first limit |
| `InstructionMeaning.ReturnExact` | src/module.rs:1138-1153 | A return makes the top value the result or puts it on top of the caller |
| `InstructionMeaning.StepExact` | src/module.rs:977-1163 | A step has exactly one outcome, the one its instruction must have in the state at hand |
| `InstructionMeaning.ResumeExact` | src/module.rs:813-831 | Resuming puts the host's value where the arguments stood, or fails at the first limit |
| `ModuleSafety.StaySafe` | src/module.rs:992-1095 | An instruction that stays in its frame keeps every frame on a path of its function, or fails with an error the validator does not exclude |
| `ModuleSafety.CallSafe` | src/module.rs:1096-1124 | A call leaves the caller one value short of its validated depth and enters the callee on its first path |
| `ModuleSafety.ReturnSafe` | src/module.rs:1138-1153 | A return gives the suspended caller the one value it was short of |
| `ModuleSafety.StepSafe` | src/module.rs:977-1163 | From every state of a VM on an accepted module, a step keeps the invariant and never reports operand underflow, an uninitialized local, operand stack overflow or a missing input |
| `ModuleSafety.ResumeSafe` | src/module.rs:813-831 | A suspended import has its arguments on the stack, and resuming keeps the invariant or fails without effect |
| `ModuleSafety.InitialOk` | src/module.rs:765-793 | The state a VM starts in satisfies the invariant |
| `ModuleSafety.RunsAreSafe` | src/module.rs:813-1163 | After any sequence of steps and resumptions the next step reports none of the excluded errors and every resource limit holds |
| `ModuleSafety.LimitsHold` | src/module.rs:970-1181 | At most 128 frames, 16,384 live slots, 1,000,000 steps, and no frame deeper than its validated peak |
| `ModuleSafety.ActionUsesFuel` | src/module.rs:970-1163 | Every successful step or resumption uses up a bounded measure, so every run ends |
| `HeapModel.LiveExactlyReachable` | src/module.rs:57-80 | An object is live exactly when a chain of references leads to it from the counted handles |
| `HeapModel.Acyclic` | src/module.rs:900-902 | References lead strictly downward in depth, so no object reaches itself |
| `HeapModel.DepthIsHeight` | src/module.rs:893-898 | The cached depth of a live value is the height of the tree it stands for |
| `HeapModel.ResolveIsTree` | src/module.rs:842-869 | Resolving any held value succeeds and gives its tree |
| `HeapModel.ResolveAtIsTree` | src/module.rs:846-869 | Resolution at a nesting level succeeds when the cached depth leaves room, and gives the tree |
| `SharedHeap.Heap.Allocate` | src/module.rs:883-891 | The counter grows by the charge, the new object has one reference, and every other value keeps its meaning |
| `SharedHeap.Heap.Clone` | src/module.rs:57-58 | A clone adds one counted reference and changes no value |
| `SharedHeap.Heap.Release` | src/module.rs:76-80 | Dropping references frees exactly what is no longer reachable and gives back its charge; what the remaining references stand for is unchanged |
| `SharedHeap.Heap.Mutate` | src/module.rs:1303-1323 | Changing an object with a single reference in place keeps the heap's invariants and every other held value |
| `SharedHeap.Heap.Import` | src/module.rs:902-948 | Importing an owned value adds exactly its charge and gives a value that stands for it |
| `Operations.LookupMatches` | src/module.rs:1331-1342 | List and map lookups find what the value machine finds, or fail with its error |
| `Operations.ScalarOperationMatches` | src/module.rs:1037-1064 | Arithmetic, comparison and length give on shared operands what the operation must give on the values they stand for: the fitting exact result, the order or equality, or the error |
| `Operations.PushedTree` | src/module.rs:1289-1294 | The depth computed for a push is the real height of the longer list |
| `Operations.ListPush` | src/module.rs:1277-1329 | In place or by copy, the result is the longer list and every other held value is unchanged; a failure changes nothing, and a push that would succeed is stopped by the heap limit exactly when its reservation does not fit |
| `Operations.DepthAfterInsertExact` | src/module.rs:1372-1387 | The incrementally computed depth of a map after an insertion is its real height, also when a deeper entry is replaced by a shallower one |
| `Operations.InsertedCharge` | src/module.rs:1355-1371 | The incrementally computed charge of a map after an insertion is its structural cost |
| `Operations.MapInsert` | src/module.rs:1352-1424 | In place or by copy, the result is the map with the entry and every other held value is unchanged; a failure changes nothing, and an insertion that would succeed is stopped by the heap limit exactly when its reservation does not fit |
| `Operations.Apply` | src/module.rs:1037-1075 | Every operation on shared operands gives what it must give on the values they stand for, except that the heap limit stops those that would succeed but whose reservation does not fit |
| `ModuleVm.Vm.WithInputs` | src/module.rs:765-793 | Accepts exactly the inputs that match the module and fit the limits, with the error of the limit broken, and starts the value machine on them |
| `ModuleVm.Vm.Acquire` | src/module.rs:992-1022 | A pushing instruction obtains the value the value machine wants, or its error, or the heap limit exactly when the value does not fit |
| `ModuleVm.Vm.Push` | src/module.rs:992-1022 | A push does in its frame what the value machine does; a failure leaves frames and heap as they were |
| `ModuleVm.Vm.Take` | src/module.rs:1023-1031 | Taking a local moves its value to the stack without touching the heap's counts |
| `ModuleVm.Vm.Set` | src/module.rs:1032-1040 | Setting a local moves the operand and drops what the local held |
| `ModuleVm.Vm.Branch` | src/module.rs:1077-1095 | A conditional branch goes where the value machine goes, with its error on a non-scalar condition |
| `ModuleVm.Vm.Operation` | src/module.rs:1207-1221 | An operation replaces its operands by the value machine's result, or fails without effect |
| `ModuleVm.Vm.Stay` | src/module.rs:992-1095 | Any instruction that stays in its frame leaves the frame it must leave on the values the frame stands for, or fails without effect |
| `ModuleVm.Vm.Call` | src/module.rs:1096-1124 | A call moves the arguments into the callee's first locals, with the limits checked in order |
| `ModuleVm.Vm.Finish` | src/module.rs:1138-1145 | Returning from the entry frame records the result as a reference of its own |
| `ModuleVm.Vm.Leave` | src/module.rs:1146-1153 | Returning to a caller drops the frame, keeps the returned value alive and hands it over |
| `ModuleVm.Vm.Execute` | src/module.rs:977-1163 | Seen through the trees its values stand for, a step has the outcome its instruction must have and is the step of the value machine; a failing step leaves the whole state as it was, and the heap limit stops exactly the steps that would go on but whose reservation does not fit |
| `ModuleVm.Vm.Step` | src/module.rs:977-1163 | A step has the outcome its instruction must have, reports the instruction, shares the result once there is one, and values held outside keep their meaning |
| `ModuleVm.Vm.Run` | src/module.rs:970-975 | A run ends with the result the value machine reaches, or with the error of the step that stops it |
| `ModuleVm.Vm.ResumeImport` | src/module.rs:813-831 | The host's value stands where the arguments stood; a failure leaves the import pending and the state unchanged |
| `ModuleVm.Vm.PendingImport` | src/module.rs:795-811 | The request of a suspended import always resolves and carries the arguments of the value machine |
| `ModuleVm.Vm.Frames` | src/module.rs:958-968 | A debugger view keeps its values alive and changes nothing the VM computes |
| `ModuleVm.Vm.DropHandles` | src/module.rs:76-80 | Dropping outside handles never changes the machine and never raises the byte counter |
| `ModuleVm.Conservation` | src/module.rs:838-840 | In every reachable state the byte counter is the total charge of exactly the reachable objects, within the limit, each charge and depth is exact, counts are exact, and every held value resolves to its tree |
| `FlatProgram.CheckStructure` | src/program.rs:20-61 | Structural checks pass exactly for the structured programs and otherwise report the first defect in the order checked |
| `FlatProgram.DefectUnique` | src/program.rs:20-61 | A program has at most one structural defect to report: size, missing HALT, or the first problem in the order of checks |
| `FlatProgram.FixpointValid` | src/program.rs:69-155 | At the end of the walk every path runs, meeting paths agree, and the recorded maximum is the exact peak |
| `FlatProgram.WalkPaths` | src/program.rs:69-155 | The walk accepts exactly when every path runs and all agree on depth, and a rejection names an instruction and paths that show why |
| `FlatProgram.New` | src/program.rs:19-170 | Accepts exactly the valid programs and records their exact peak depth; a rejection names the one structural defect, or an instruction and the paths that disagree on depth or bring too few operands |
| `FlatVm.StackAfter` | src/lib.rs:280-397 | The stack effect of each instruction is the one the analysis assumes, and only arithmetic can fail within it |
| `FlatVm.StepExact` | src/lib.rs:260-397 | A step has exactly the outcome stated on the stack: the 32-bit sum, difference, product, quotient or negation or an overflow when there is none, 1 or 0 for comparisons, the named elements for SWAP, OVER and DUP, and a conditional jump lands on its target exactly when the popped value is 0; errors come in the order of the checks |
| `FlatVm.StepSound` | src/lib.rs:260-276 | A step of a valid program stays on a control-flow path with the path's depth, or fails arithmetically |
| `FlatVm.OutcomeMeans` | src/lib.rs:209-221 | A result is the top of the first halted state, an error is that of the first failing step, and the step limit is reached exactly when neither comes before it |
| `FlatVm.OutcomeIsRun` | src/lib.rs:209-221 | The outcome of a program is how a run ends whose states each follow from the one before by what the instruction must do |
| `FlatVm.OutcomeSound` | src/lib.rs:209-221 | A valid program ends in a result, an arithmetic error or at the step limit |
| `FlatVm.RunSound` | src/lib.rs:224-226 | Every accepted program started clean ends in a result, division by zero, integer overflow or at the step limit |
| `FlatVm.DepthInvariant` | src/program.rs:63-68 | At every moment of every run the stack has exactly the depth of any path to the instruction at hand, at most the recorded maximum |
| `FlatVm.Vm.PushValue` | src/lib.rs:451-459 | A push beyond the bound is refused and changes nothing |
| `FlatVm.Vm.Binary` | src/lib.rs:414-445 | A two-operand instruction replaces its operands by the result it must have or leaves the stack alone |
| `FlatVm.Vm.Execute` | src/lib.rs:280-397 | One instruction has exactly the outcome it must have on the stack and the instruction pointer; an error leaves the stack untouched |
| `FlatVm.Vm.StepOnce` | src/lib.rs:260-276 | A step has exactly the outcome its instruction must have, and an error leaves the whole state as it was |
| `FlatVm.Vm.Run` | src/lib.rs:209-221 | A run from a clean state goes through states that each follow by what the instruction must do and ends as it says: with the value on top at HALT, with the error of the failing instruction, or at the step limit |
| `FlatVm.Vm.Trace` | src/lib.rs:229-253 | A trace ends as the run ends; entry i holds the instruction run after i steps, the stack it left and, in the last one, the result |
| `Assembly.ReadShownInt` | src/program.rs:211-215 | Every 32-bit integer reads back from its decimal form, extremes included |
| `Assembly.DigitLaws` | src/program.rs:211-215 | A text is a number exactly when it is digits, and zeros in front do not matter |
| `Assembly.NumberLaws` | src/program.rs:211-254 | An operand is its digits with an optional plus, or a minus for 32-bit integers, as long as it is in range, and nothing else |
| `Assembly.ShownParses` | src/lib.rs:113-122 | The printed form of any instruction is one clean line that parses to the instruction |
| `Assembly.ParseExact` | src/program.rs:210-269 | A line parses exactly to the instruction its fields stand for, the name in either case and an operand where there is one; a line that stands for none is refused for what is wrong with it |
| `Assembly.PrintedLines` | src/program.rs:282-291 | Printing puts each instruction on its own line |
| `Assembly.WriteProgram` | src/program.rs:282-291 | The loop writes the instructions' lines joined by line breaks |
| `Assembly.PrintThenParse` | src/program.rs:193-280 | Parsing the printed form of a valid program gives its instructions |
| `Assembly.ReadProgram` | src/program.rs:193-280 | Reads back any printed valid program as an equal program, accepts exactly the sources whose instructions are valid, and reports the defect of a rejected program at the source line of the instruction it names |
| `Assembly.RejectionLine` | src/program.rs:271-279 | A rejection for an instruction stands at the source line of the instruction at fault: the first behind an early HALT, the first jump out of the program, or one whose paths disagree or bring too few operands; other causes name no line |
| `Assembly.ListingNamesLines` | src/program.rs:198-279 | Each instruction carries the number of the line it came from, in ascending order |
| `Assembly.OnlyCodeMatters` | src/program.rs:199-208 | Two sources with the same code on their lines give the same instructions or the same error |
| `Assembly.DressedCode` | src/program.rs:201-205 | White space around a line and a comment behind it do not change its code |
| `Assembly.DecorationIgnored` | src/program.rs:199-208 | Comments, blank lines and indentation added to a printed program leave its instructions unchanged |
| `GuestPaths.NormalizePath` | src/runtime.rs:478-506 | The loop resolves a path as walking its pieces from the root does, and refuses what leaves it |
| `GuestPaths.PathLaws` | src/runtime.rs:478-506 | The names a path stands for, piece by piece: the root is empty, a relative path is read behind the working directory, an empty piece or . stays, .. goes up or escapes, anything else goes down |
| `GuestPaths.DisplayThenNormalize` | src/runtime.rs:478-514 | Displaying a resolved path and resolving the text again, from any directory, gives the same path |
| `GuestPaths.NormalizeProper` | src/runtime.rs:491-504 | A resolved path consists of names that stand for themselves |
| `GuestPaths.NormalizeStable` | src/runtime.rs:1166-1168 | Resolving is a projection: resolving the displayed result again changes nothing |
| `FileTree.SameTree` | src/runtime.rs:157-161 | A tree is determined by what stands at each path |
| `FileTree.MakeDirsLooks` | src/runtime.rs:368-389 | Making directories adds exactly the path and its ancestors |
| `FileTree.PutFileLooks` | src/runtime.rs:308-319 | Putting a file changes what stands at its path and nothing else |
| `FileTree.MakeDirsUse` | src/runtime.rs:360-390 | Making directories costs one inode for each missing name and no bytes |
| `FileTree.PutFileUse` | src/runtime.rs:300-323 | Putting a file costs an inode if nothing was there, and its bytes less those it replaces |
| `FileSystem.WriteExact` | src/runtime.rs:269-325 | A write succeeds exactly when its parent is a directory, no directory is in the way and the result fits; it changes only its path and keeps the counters exact |
| `FileSystem.WriteObeys` | src/runtime.rs:269-325 | A write does exactly what is stated on the tree: the first failing check decides the error, and otherwise only the path written changes |
| `FileSystem.WrittenReads` | src/runtime.rs:249-325 | After a write every path that resolves to the file reads the new content and every other path reads what it read before |
| `FileSystem.MakeExact` | src/runtime.rs:327-392 | A new directory is made exactly when no file is on the path, ancestors are there or may be made and the inodes fit; only missing ancestors are added |
| `FileSystem.MakeObeys` | src/runtime.rs:327-392 | Making a directory does exactly what is stated on the tree: a file on the path, an existing file, a missing parent or too few inodes decide the error in this order, and otherwise only missing directories are added |
| `FileSystem.MadeReads` | src/runtime.rs:249-392 | Making directories changes what no file reads |
| `FileSystem.RunKeeps` | src/runtime.rs:269-392 | After any sequence of operations the counters count the tree within the limits |
| `FileSystem.RunGrows` | src/runtime.rs:269-392 | Nothing is ever removed and a directory stays a directory |
| `FileSystem.OneAnswer` | src/runtime.rs:249-419 | What a read or a listing must answer is a single answer |
| `FileSystem.VirtualFileSystem.WriteFile` | src/runtime.rs:269-325 | Does what a write must do, changes nothing when it fails, and when it succeeds the file reads the new content and every other path what it read before |
| `FileSystem.VirtualFileSystem.MakeDirectory` | src/runtime.rs:327-392 | Does what making a directory must do, changes nothing when it fails, and never changes what a file reads |
| `FileSystem.VirtualFileSystem.ReadFile` | src/runtime.rs:249-260 | Answers content exactly when a file with it stands at the resolved path, and otherwise says that a directory or nothing does |
| `FileSystem.VirtualFileSystem.ListDirectory` | src/runtime.rs:394-419 | Answers one entry for everything right below the directory, in the order of names, with its kind and size, or says why there is no listing |
| `FileSystem.Create` | src/runtime.rs:211-235 | A new filesystem holds exactly the three default directories, or the inode limit is refused |
| `Snapshots.CollectIsItems` | src/runtime.rs:450-476 | The collected entries are the tree's items with their paths written out |
| `Snapshots.ItemsExact` | src/runtime.rs:450-476 | The collected items are exactly what stands below the root, each once |
| `Snapshots.CollectCounts` | src/runtime.rs:450-476 | A snapshot holds one entry for every inode below the root and exactly the bytes of the files |
| `Snapshots.ValidateBounds` | src/runtime.rs:944-1010 | Passes exactly the snapshots within the bounds and otherwise reports the first bound broken |
| `Snapshots.HeaderExact` | src/runtime.rs:944-985 | The header of a snapshot is refused for the first bound it breaks: id, entries, inodes, bytes, processes, steps |
| `Snapshots.EntryDefectExact` | src/runtime.rs:986-1008 | An entry is refused for the length of its path, the path itself, its depth or the bytes so far, in this order |
| `Snapshots.OwnBounds` | src/runtime.rs:944-1010 | A snapshot of a valid guest is within the bounds exactly when its id and limits are, it has at most 4,097 inodes and no path is too long or too deep: the byte quota and the paths themselves never fail |
| `Snapshots.RestoreEntries` | src/runtime.rs:711-734 | The loop plays entries into a new filesystem and stops at the first entry refused |
| `Snapshots.EntryExact` | src/runtime.rs:711-734 | Restoring one entry fails for the first of a bad path, the root or a path seen before, bytes on a directory, and what making its directory or writing its file refuses; otherwise it places exactly the entry |
| `Snapshots.RestoredHolds` | src/runtime.rs:700-736 | Any snapshot that is accepted, also one no guest made, gives a tree that holds every entry under a path of its own and beyond the start only the directories above them |
| `Snapshots.PartUses` | src/runtime.rs:285-299 | A part of a tree uses no more inodes and bytes than the tree, so no intermediate state of a restore exceeds the quotas |
| `Snapshots.RoundTrip` | src/runtime.rs:689-736 | A snapshot of any valid filesystem restores to the same tree, counters and limits |
| `Scheduler.AdmitKeeps` | src/runtime.rs:765-813 | Spawning a valid program keeps the scheduler's invariant and gives a pid never used before |
| `Scheduler.AdmitObeys` | src/runtime.rs:765-813 | A spawn is refused in the order of the checks or adds one ready process with its program, arguments, parent and working directory at the end of the queue, and changes no other |
| `Scheduler.TickKeeps` | src/runtime.rs:830-871 | A tick keeps the invariant: queue without repeats holding every ready process, nothing left running, attempts adding up to ticks |
| `Scheduler.TickObeys` | src/runtime.rs:830-871 | A tick runs one instruction of the first ready process, moves it to the end if it goes on and reports exactly what it did, or does nothing when the budget is used up or nobody is ready |
| `Scheduler.RunKeeps` | src/runtime.rs:765-941 | Any interleaving of spawns, exits and ticks keeps the invariant, so each process stands where its program alone stands after as many steps as it was scheduled |
| `Scheduler.SoloResult` | src/runtime.rs:830-871 | A process that ended by itself ended as its program alone ends |
| `Scheduler.NonInterference` | src/runtime.rs:830-871 | Two processes with one program scheduled equally often are in the same state, whatever ran beside them |
| `Scheduler.EndedStays` | src/runtime.rs:834-840 | A process that ended is never scheduled again |
| `Scheduler.ExitCodeStays` | src/runtime.rs:815-941 | The exit code of a process stays what it is, whatever runs afterwards, until it is told to exit again |
| `Scheduler.BoundedWaiting` | src/runtime.rs:830-871 | A ready process at queue position k is scheduled within k + 1 ticks while the budget allows them |
| `GuestRuntime.VmInstance.Spawn` | src/runtime.rs:765-813 | A valid program becomes the ready process it must become at the end of the queue; refusals come in the order checked and change nothing |
| `GuestRuntime.VmInstance.Tick` | src/runtime.rs:830-871 | Runs one instruction of the first ready process and reports what it did |
| `GuestRuntime.VmInstance.RunUntilIdle` | src/runtime.rs:873-899 | Ticks until the queue is empty, reporting every event, or says which limit stopped it |
| `GuestRuntime.VmInstance.Syscall` | src/runtime.rs:901-941 | Each call answers and changes what its operation says, at the path resolved against the caller's directory; a failing call changes nothing |
| `GuestRuntime.WaitSeesExit` | src/runtime.rs:815-941 | After a process exits with a code every wait for it answers that code, unless it is told to exit again |
| `GuestRuntime.ReadsWhatWasWritten` | src/runtime.rs:901-924 | What one process writes every process reads, at each path that resolves to the same names; other paths read as before |
| `GuestRuntime.VmInstance.FromSnapshot` | src/runtime.rs:700-736 | The snapshot of any valid guest is accepted exactly when it is within the bounds, and then gives back the same filesystem; any other accepted snapshot gives the default tree with exactly its entries |
| `GuestRuntime.VmInstance.WithLimits` | src/runtime.rs:631-644 | A new guest is valid and idle over the default tree, or the inode limit is refused |
| `Approvals.RunKeeps` | src/server.rs:205-302 | After any interleaving the stored states say what the history says |
| `Approvals.AllowsAreEarned` | src/server.rs:205-302 | Every Allow a wait returns uses an Allow accepted for that id since it was last closed or the turn began, and none is used twice |
| `Approvals.AnswersExact` | src/server.rs:205-255 | In every run each step of a wait answers what the history says: a timeout exactly when told so, then the cancel flag, then waiting exactly while the request is open, then the one decision held for the id, then the cancellation that withdrew it, and otherwise that nothing is pending |
| `Approvals.StateExact` | src/server.rs:150-302 | What is stored for an id is read off the history: open, held Allow or Deny, withdrawn, ended or untouched |
| `Approvals.DecisionExact` | src/server.rs:274-302 | From the history alone: a decision is accepted exactly when its id is well formed and, since the last turn began, either its request was registered and not yet answered, returned or cancelled, or nothing happened for the id and fewer than 64 ids are tracked |
| `Approvals.RefusalExact` | src/server.rs:274-302 | The reason a decision is refused for is read off the id and the history, in the order of the checks |
| `Approvals.TrackedMeans` | src/server.rs:290-298 | The ids that count towards the limit are those something happened for since the last turn began |
| `Approvals.LateDecisionRefused` | src/server.rs:286-288 | A decision for an id whose wait ended in the current turn and that was not registered again is refused and changes nothing |
| `Approvals.LateDecisionExact` | src/server.rs:270-298 | A decision that comes after the wait for its id ended, with nothing else done for the id, is accepted exactly when a turn began in between, the id is well formed and the table has room |
| `Approvals.LateAllowAnswersNextTurn` | src/server.rs:150-153 | That a late decision is never replayed against a later request is false across turns: an Allow for a request that timed out, made after a new turn began, answers the next request with its id |
| `Approvals.AcceptedDecisionDelivered` | src/server.rs:205-255 | An accepted decision that is neither used nor forgotten is what the next step of a wait for its id returns at once, a Deny as denied in the browser, unless that step finds the wait cancelled or timed out, which drops the decision and closes the id |
| `Approvals.ParkingBounded` | src/server.rs:290-298 | In every run at most 64 decisions are held for requests that have not registered |
| `Approvals.ParkedMeans` | src/server.rs:290-298 | A decision counts as held for an unregistered request exactly when it was the first thing to happen for its id in the turn and nothing has claimed it |
| `Approvals.ApprovalStore.StartWaiting` | src/server.rs:205-236 | The first lock region of a wait registers the request and answers what the history says, a decision made before it or nothing yet |
| `Approvals.ApprovalStore.WakeWaiting` | src/server.rs:213-254 | A wake-up answers what the history says and closes the request when it returns |
| `Approvals.ApprovalStore.Decision` | src/server.rs:274-302 | A decision is stored, or refused for the reason the history gives |
| `Approvals.ApprovalStore.CancelAllPending` | src/server.rs:257-267 | Cancels every pending request and no other |
| `DelimitedText.ParseDelimited` | src/apps.rs:414-474 | The loop over characters computes what the quoted-cell machine computes |
| `DelimitedText.ReadRow` | src/apps.rs:423-462 | A row written with quoted and bare cells is read cell for cell |
| `DelimitedText.TableRoundTrip` | src/apps.rs:414-474 | A table written with any mix of quoted and bare cells, either line break and with or without a final one reads back as its rows that are not blank |
| `DelimitedText.QuotedRoundTrip` | src/apps.rs:414-474 | With every cell quoted (section 2 of RFC 4180), comma- and tab-separated tables come back whatever the cells contain |
| `DelimitedText.KeptNotBlank` | src/apps.rs:472-473 | No row returned is entirely blank |
| `DelimitedText.KeptExact` | src/apps.rs:472-473 | Exactly the rows with a character that is not white space are returned, each where it stood |
| `DelimitedText.OpenQuoteRefused` | src/apps.rs:423-467 | Behind any whole rows and cells a quoted cell that is never closed is refused |
| `DelimitedText.TextAfterQuoteRefused` | src/apps.rs:436-450 | Behind any whole rows and cells a closed quoted cell followed by anything but white space, a delimiter or a line break is refused |
| `TaskRecords.TaskRecord.Append` | src/task.rs:192-215 | An event is accepted or refused as the history and the event say, with the next sequence number; a refusal has no effect |
| `TaskRecords.AppendExact` | src/task.rs:192-361 | An event is accepted exactly when the last event lets its kind come next, its payload meets the rules of its kind and the limits hold, all read from the history and the event; otherwise the first failing rule decides the error |
| `TaskRecords.TransitionExact` | src/task.rs:254-361 | The transition accepts exactly what the history and the payload rules of the ten kinds allow, with the error of the rule that fails |
| `TaskRecords.RulesExact` | src/task.rs:388-431 | The field checks accept exactly the texts that show something and are not too long, the identifiers of 1 to 128 letters, digits and marks, and digests of 64 lower-case hexadecimal digits |
| `TaskRecords.Create` | src/task.rs:148-169 | A record starts pending with an empty history, or the first field that breaks its rule is named |
| `TaskRecords.SpecExact` | src/task.rs:148-159 | A new task is refused for the first field that breaks its rule |
| `TaskRecords.Restore` | src/task.rs:218-252 | Replays every event into a new record and compares, refusing changed state or order |
| `TaskRecords.RestoreExact` | src/task.rs:218-252 | A record of the current schema restores exactly when it is its own replay |
| `TaskRecords.RestoreAny` | src/task.rs:218-252 | A record of any known schema is restored exactly when it is its own replay under its schema, without pauses in the first one, and is stamped with the current schema |
| `TaskRecords.BuiltRecords` | src/task.rs:192-361 | Every record that new and append build is its own replay, and its status, plan, checkpoint and pending approval are what its history determines, with strictly increasing checkpoint turns |
| `TaskRecords.ConsistentIsBuilt` | src/task.rs:217-252 | Every record that is its own replay is one that new and append build |
| `TaskRecords.PendingExactlyWhileWaiting` | src/task.rs:320-331 | A request is pending exactly while its task waits for approval |
| `TaskRecords.FinishedIsFinal` | src/task.rs:332-361 | A finished task accepts no event |
| `TaskRecords.RecordFits` | src/task.rs:17-17 | No record that can be built outgrows the size restore reads |
| `TaskJson.KindExact` | src/task.rs:203-210 | The size compared with the event limit is the length of the JSON text of the event kind |
| `TaskJson.RecordExact` | src/task.rs:19-98 | The size of a record is the length of its JSON text |
| `TaskJson.TextFits` | src/task.rs:17-17 | No record that can be built has a JSON text longer than restore reads |
| `TaskRecords.RestoreRoundTrip` | src/task.rs:218-252 | Restoring the encoding of any built record gives the record |
| `TaskStores.TaskStore.Save` | src/task_store.rs:93-110 | Stores a record that restores and extends what is stored, and otherwise changes nothing |
| `TaskStores.TaskStore.Load` | src/task_store.rs:112-131 | Gives the stored record of the id, or the reason there is none |
| `TaskStores.SaveThenLoad` | src/task_store.rs:93-131 | What was saved is what is loaded, and other ids are untouched |
| `TaskStores.SaveExact` | src/task_store.rs:93-110 | A built record can be saved exactly when nothing or an earlier version of it is stored |
| `TaskStores.HistoriesChain` | src/task_store.rs:92-110 | Whatever saves are attempted, what is stored under an id only ever extends its history under the same specification |
| `TaskStores.DivergedSaveRefused` | src/task_store.rs:100-104 | Of two versions that diverge only the one saved first is kept |

## Left out

- Sizes of Rust objects are those of a 64-bit target: a value is charged 16 bytes, an object 56 and a map entry 72.
- Reference counting is modelled by object ids with counts, not by `Rc` itself; freeing one object and what it alone
  holds is one recursive method.
- Call arguments are moved by the model where the source clones them and then truncates the stack; counts before and
  after are the same.
- In `map_insert` the source drops the key and the replaced entry while the new map is built; the model drops them
  right after. The state after the instruction is the same.
- A module VM made by `ModuleVm::new` for a module that declares inputs: it has none, so soundness is stated for the
  constructors that take inputs.
- Counters and lengths are unbounded integers except where the source checks for overflow; no modelled counter can
  reach the width of a machine word within the limits.
- Error message text. Errors are datatypes that keep what a caller can match on, and the place they name.
- A guest process owns its flat VM; the model keeps that VM's state in the process record and takes it over into a VM
  object for each instruction, so processes cannot share one by construction.
- Directory trees are values and updated as values, where the source walks mutable borrows down the tree.
- The check in `write_file` that a file is not larger than the byte counter is modelled but never fails in a valid
  filesystem; the byte overflow check of `validate_snapshot_bounds` is left out because the quota check before it
  keeps the total far below the word size.
- `VmManager`, `process_info`, `processes`, `disassemble`, `read_text` and the defaults of `ResourceLimits`: plain
  lookups that would only add easy members.
- The exit code of a process told to exit more than once, or after it ended: later calls overwrite it, and the model
  claims only that the process never becomes ready again.
- Task encoding: writing JSON is modelled as text (`TaskJson`), reading it back as a decoding that gives the encoded
  record. Parsing of malformed text is one case, undecodable bytes.
- Task schemas 1 and 2: restoring is exact for them too (`RestoreAny`), but the round trip is stated for records of the
  current schema, because a migrated record is stamped with the current version and need not replay under its rules.
- The directory of a task store is a map from ids to contents and replacing a file is atomic; a failing write is a flag.
  Leases and listing are not modelled.
- Approval timeouts and spurious wake-ups may happen at any wake-up, and a wake-up is not tied to a thread that waits,
  which only adds interleavings. Poisoned locks and the condition variable's notifications are not modelled, so nothing
  is claimed about how soon a blocked wait is woken.
- The readers in `src/jobs.rs` and `src/format_readers.rs` are copies of the modelled one with other error texts.
- HTTP, sessions, the agent, model clients, host files, the workbook readers and the WebAssembly debugger interface.
