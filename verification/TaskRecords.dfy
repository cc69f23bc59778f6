/** Event-sourced task records: transitions, replay, and the stored projection. */
module TaskRecords {
  import opened Wrappers
  import opened Values
  import opened Whitespace

  const TASK_SCHEMA_VERSION: nat := 3
  const MAX_EVENTS: nat := 512
  const MAX_PLAN_STEPS: nat := 128
  const MAX_TEXT_BYTES: nat := 16 * 1024
  const MAX_EVENT_BYTES: nat := 8 * 1024
  const MAX_TASK_RECORD_BYTES: nat := 8 * 1024 * 1024

  type u32 = n: int | 0 <= n < 0x1_0000_0000
  type u64 = n: int | 0 <= n < 0x1_0000_0000_0000_0000

  const LAST_SEQUENCE: u64 := 0xFFFF_FFFF_FFFF_FFFF

  datatype TaskBudget = TaskBudget(maxModelSteps: u32, maxToolCalls: u32, timeoutSeconds: u64)

  datatype TaskSpec = TaskSpec(
    id: string, owner: string, workspaceId: string, prompt: string, inputVersionIds: seq<string>, budget: TaskBudget)

  datatype TaskPlan = TaskPlan(steps: seq<string>, intendedOutputs: seq<string>)

  datatype TaskCheckpoint = TaskCheckpoint(sessionId: string, completedTurns: u32, sessionSha256: Option<string>)

  datatype TaskStatus = Pending | Running | Paused | WaitingApproval | Completed | Failed | Cancelled

  datatype EventKind =
    | DidStart
    | DidResume
    | DidPause
    | PlanUpdated(plan: TaskPlan)
    | Checkpointed(checkpoint: TaskCheckpoint)
    | ApprovalRequested(requestId: string)
    | ApprovalResolved(requestId: string, allowed: bool)
    | DidComplete(outputVersionIds: seq<string>)
    | DidFail(reason: string)
    | DidCancel

  datatype TaskEvent = TaskEvent(sequence: u64, kind: EventKind)

  datatype TaskError =
    | InvalidField(field: string)
    | InvalidTransition(status: TaskStatus, event: EventKind)
    | ApprovalMismatch
    | EventLimitExceeded
    | SequenceExhausted
    | UnsupportedSchema(actual: nat)
    | InvalidRecord
    | Undecodable

  /** A task record as a value. */
  datatype Task = Task(
    schemaVersion: nat, spec: TaskSpec, status: TaskStatus, plan: Option<TaskPlan>, checkpoint: Option<TaskCheckpoint>,
    pendingApproval: Option<string>, events: seq<TaskEvent>)

  // ----- field checks -----

  predicate Alphanumeric(c: char) {
    'a' <= c <= 'z' || 'A' <= c <= 'Z' || '0' <= c <= '9'
  }

  predicate FileIdOk(id: string) {
    id != "" && Utf8Len(id) <= 128 && forall i :: 0 <= i < |id| ==> Alphanumeric(id[i]) || id[i] == '-' || id[i] == '_'
  }

  predicate ResourceIdOk(id: string) {
    && id != "" && Utf8Len(id) <= 128
    && forall i :: 0 <= i < |id| ==> Alphanumeric(id[i]) || id[i] == '-' || id[i] == '_' || id[i] == '.' || id[i] == ':'
  }

  predicate IdsOk(ids: seq<string>) {
    && |ids| <= MAX_PLAN_STEPS
    && (forall i :: 0 <= i < |ids| ==> ResourceIdOk(ids[i]))
    && (forall i, j :: 0 <= i < j < |ids| ==> ids[i] != ids[j])
  }

  predicate TextOk(text: string) {
    Trim(text) != [] && Utf8Len(text) <= MAX_TEXT_BYTES
  }

  predicate DigestOk(digest: string) {
    Utf8Len(digest) == 64 && forall i :: 0 <= i < |digest| ==> '0' <= digest[i] <= '9' || 'a' <= digest[i] <= 'f'
  }

  /** The first field of a new task that is refused. */
  function SpecDefect(spec: TaskSpec): Option<string> {
    if !FileIdOk(spec.id) then Some("id")
    else if !ResourceIdOk(spec.owner) then Some("owner")
    else if !ResourceIdOk(spec.workspaceId) then Some("workspace id")
    else if !TextOk(spec.prompt) then Some("prompt")
    else if !IdsOk(spec.inputVersionIds) then Some("input version id")
    else if spec.budget.maxModelSteps == 0 || spec.budget.maxToolCalls == 0 || spec.budget.timeoutSeconds == 0 then Some("budget")
    else None
  }

  // ----- the size of an encoded event -----

  /** Bytes a character takes inside a JSON string. */
  function EscapedLen(c: char): nat {
    var n := c as int;
    if c == '"' || c == '\\' || n == 8 || n == 9 || n == 10 || n == 12 || n == 13 then 2
    else if n < 0x20 then 6
    else if n < 0x80 then 1
    else if n < 0x800 then 2
    else if n < 0x1_0000 then 3
    else 4
  }

  /** Bytes of a JSON string, quotes included. */
  function StringSize(s: string): nat {
    if s == [] then 2 else StringSize(s[..|s| - 1]) + EscapedLen(s[|s| - 1])
  }

  function StringsTotal(items: seq<string>): nat {
    if items == [] then 0 else StringsTotal(items[..|items| - 1]) + StringSize(items[|items| - 1])
  }

  /** Bytes of a JSON array whose items take `total` bytes. */
  function ArraySize(count: nat, total: nat): nat {
    2 + total + if count == 0 then 0 else count - 1
  }

  function StringsSize(items: seq<string>): nat {
    ArraySize(|items|, StringsTotal(items))
  }

  function NumberSize(n: nat): nat {
    if n < 10 then 1 else NumberSize(n / 10) + 1
  }

  function PlanSize(plan: TaskPlan): nat {
    // {"steps":...,"intended_outputs":...}
    30 + StringsSize(plan.steps) + StringsSize(plan.intendedOutputs)
  }

  function CheckpointSize(checkpoint: TaskCheckpoint): nat {
    // {"session_id":...,"completed_turns":...} and ,"session_sha256":...
    34 + StringSize(checkpoint.sessionId) + NumberSize(checkpoint.completedTurns) +
    if checkpoint.sessionSha256.Some? then 18 + StringSize(checkpoint.sessionSha256.value) else 0
  }

  function KindName(kind: EventKind): string {
    match kind
    case DidStart => "started"
    case DidResume => "resumed"
    case DidPause => "paused"
    case PlanUpdated(_) => "plan_updated"
    case Checkpointed(_) => "checkpointed"
    case ApprovalRequested(_) => "approval_requested"
    case ApprovalResolved(_, _) => "approval_resolved"
    case DidComplete(_) => "completed"
    case DidFail(_) => "failed"
    case DidCancel => "cancelled"
  }

  /** Bytes of the JSON object for an event kind: `{"type":"..."}` and the fields of the kind. */
  function KindSize(kind: EventKind): nat {
    11 + |KindName(kind)| +
    match kind
    case PlanUpdated(plan) => 8 + PlanSize(plan)
    case Checkpointed(checkpoint) => 14 + CheckpointSize(checkpoint)
    case ApprovalRequested(id) => 14 + StringSize(id)
    case ApprovalResolved(id, allowed) => 14 + StringSize(id) + 11 + (if allowed then 4 else 5)
    case DidComplete(ids) => 22 + StringsSize(ids)
    case DidFail(reason) => 10 + StringSize(reason)
    case _ => 0
  }

  // ----- the field rules, stated outright -----

  /** Some character that shows, and not too long. */
  predicate Readable(text: string) {
    (exists i :: 0 <= i < |text| && !IsSpace(text[i])) && Utf8Len(text) <= 16_384
  }

  predicate Spelt(ids: seq<string>) {
    |ids| <= 128 && (forall id :: id in ids ==> Spelled(id, "-_.:"))
  }

  predicate Distinct(ids: seq<string>) {
    forall i, j :: 0 <= i < |ids| && 0 <= j < |ids| && ids[i] == ids[j] ==> i == j
  }

  /** 64 lower-case hexadecimal digits. */
  predicate Sha256Hex(digest: string) {
    |digest| == 64 && forall c :: c in digest ==> c in "0123456789abcdef"
  }

  lemma RulesExact(s: string)
    ensures TextOk(s) <==> Readable(s)
    ensures FileIdOk(s) <==> Spelled(s, "-_")
    ensures ResourceIdOk(s) <==> Spelled(s, "-_.:")
    ensures DigestOk(s) <==> Sha256Hex(s)
  {
    TrimBlank(s);
    AsciiLen(s);
    hide Trim, Utf8Len;
    forall c ensures c in "0123456789abcdef" <==> '0' <= c <= '9' || 'a' <= c <= 'f' { HexDigits(c); }
    assert forall c :: c in "-_" <==> c == '-' || c == '_';
    assert forall c :: c in "-_.:" <==> c == '-' || c == '_' || c == '.' || c == ':';
    assert forall i :: 0 <= i < |s| ==> s[i] in s;
  }

  lemma HexDigits(c: char)
    ensures c in "0123456789abcdef" <==> '0' <= c <= '9' || 'a' <= c <= 'f'
  {
    var hex := "0123456789abcdef";
    if '0' <= c <= '9' { assert hex[c as int - '0' as int] == c; }
    if 'a' <= c <= 'f' { assert hex[c as int - 'a' as int + 10] == c; }
  }

  lemma IdsExact(ids: seq<string>)
    ensures IdsOk(ids) <==> Spelt(ids) && Distinct(ids)
  {
    forall id { RulesExact(id); }
    hide ResourceIdOk, Spelled;
    assert forall i :: 0 <= i < |ids| ==> ids[i] in ids;
  }

  const SPEC_FIELDS: seq<string> := ["id", "owner", "workspace id", "prompt", "input version id", "budget"]

  predicate SpecFieldOk(spec: TaskSpec, field: nat) {
    match field
    case 0 => Spelled(spec.id, "-_")
    case 1 => Spelled(spec.owner, "-_.:")
    case 2 => Spelled(spec.workspaceId, "-_.:")
    case 3 => Readable(spec.prompt)
    case 4 => Spelt(spec.inputVersionIds) && Distinct(spec.inputVersionIds)
    case _ => spec.budget.maxModelSteps > 0 && spec.budget.maxToolCalls > 0 && spec.budget.timeoutSeconds > 0
  }

  /** The field named is the first that breaks its rule, or there is none. */
  ghost predicate FirstBroken(spec: TaskSpec, field: Option<string>) {
    match field
    case None => forall k :: 0 <= k < 6 ==> SpecFieldOk(spec, k)
    case Some(name) => exists k :: 0 <= k < 6 && Breaks(spec, k, name)
  }

  ghost predicate Breaks(spec: TaskSpec, k: nat, name: string) {
    k < 6 && name == SPEC_FIELDS[k] && !SpecFieldOk(spec, k) && forall j :: 0 <= j < k ==> SpecFieldOk(spec, j)
  }

  lemma SpecExact(spec: TaskSpec)
    ensures FirstBroken(spec, SpecDefect(spec))
  {
    RulesExact(spec.id);
    RulesExact(spec.owner);
    RulesExact(spec.workspaceId);
    RulesExact(spec.prompt);
    IdsExact(spec.inputVersionIds);
    hide FileIdOk, ResourceIdOk, TextOk, IdsOk, Spelled, Readable, Spelt, Distinct;
    if !FileIdOk(spec.id) { assert Breaks(spec, 0, "id"); }
    else if !ResourceIdOk(spec.owner) { assert Breaks(spec, 1, "owner"); }
    else if !ResourceIdOk(spec.workspaceId) { assert Breaks(spec, 2, "workspace id"); }
    else if !TextOk(spec.prompt) { assert Breaks(spec, 3, "prompt"); }
    else if !IdsOk(spec.inputVersionIds) { assert Breaks(spec, 4, "input version id"); }
    else if SpecDefect(spec).Some? { assert Breaks(spec, 5, "budget"); }
  }

  // ----- transitions -----

  datatype NextState = NextState(
    status: TaskStatus, plan: Option<TaskPlan>, checkpoint: Option<TaskCheckpoint>, pendingApproval: Option<string>)

  predicate HasDigest(checkpoint: Option<TaskCheckpoint>) {
    checkpoint.Some? && checkpoint.value.sessionSha256.Some?
  }

  /** The first thing wrong with a checkpoint, given the one before it. */
  function CheckpointDefect(t: Task, checkpoint: TaskCheckpoint): Option<string> {
    if !FileIdOk(checkpoint.sessionId) then Some("checkpoint session id")
    else if t.schemaVersion >= 3 && checkpoint.completedTurns == 0 then Some("checkpoint turn count")
    else if checkpoint.sessionSha256.Some? && !DigestOk(checkpoint.sessionSha256.value) then Some("checkpoint digest")
    else if t.checkpoint.Some? &&
      (if t.schemaVersion >= 3 then checkpoint.completedTurns <= t.checkpoint.value.completedTurns
       else checkpoint.completedTurns < t.checkpoint.value.completedTurns) then Some("checkpoint turn count")
    else None
  }

  /** `transition`. */
  function Transition(t: Task, kind: EventKind): Result<NextState, TaskError> {
    var now := NextState(t.status, t.plan, t.checkpoint, t.pendingApproval);
    if t.status.Pending? && kind.DidStart? then Ok(now.(status := Running))
    else if t.status.Paused? && kind.DidResume? then
      if t.schemaVersion >= 3 && !HasDigest(t.checkpoint) then Err(InvalidField("resume checkpoint"))
      else Ok(now.(status := Running))
    else if t.status.Running? && kind.DidPause? then
      if t.checkpoint.None? || t.events == [] || !t.events[|t.events| - 1].kind.Checkpointed? ||
         (t.schemaVersion >= 3 && !HasDigest(t.checkpoint)) then Err(InvalidField("pause checkpoint"))
      else Ok(now.(status := Paused))
    else if t.status.Running? && kind.PlanUpdated? then
      if kind.plan.steps == [] || |kind.plan.steps| > MAX_PLAN_STEPS then Err(InvalidField("plan steps"))
      else if exists i :: 0 <= i < |kind.plan.steps + kind.plan.intendedOutputs| &&
                          !TextOk((kind.plan.steps + kind.plan.intendedOutputs)[i]) then Err(InvalidField("plan text"))
      else Ok(now.(plan := Some(kind.plan)))
    else if t.status.Running? && kind.Checkpointed? then
      var defect := CheckpointDefect(t, kind.checkpoint);
      if defect.Some? then Err(InvalidField(defect.value)) else Ok(now.(checkpoint := Some(kind.checkpoint)))
    else if t.status.Running? && kind.ApprovalRequested? then
      if !TextOk(kind.requestId) then Err(InvalidField("approval request id"))
      else Ok(now.(status := WaitingApproval, pendingApproval := Some(kind.requestId)))
    else if t.status.WaitingApproval? && kind.ApprovalResolved? then
      if t.pendingApproval != Some(kind.requestId) then Err(ApprovalMismatch)
      else Ok(now.(status := Running, pendingApproval := None))
    else if t.status.Running? && kind.DidComplete? then
      if !IdsOk(kind.outputVersionIds) then Err(InvalidField("output version id")) else Ok(now.(status := Completed))
    else if (t.status.Running? || t.status.WaitingApproval?) && kind.DidFail? then
      if !TextOk(kind.reason) then Err(InvalidField("failure reason"))
      else Ok(now.(status := Failed, pendingApproval := None))
    else if (t.status.Pending? || t.status.Running? || t.status.WaitingApproval?) && kind.DidCancel? then
      Ok(now.(status := Cancelled, pendingApproval := None))
    else Err(InvalidTransition(t.status, kind))
  }

  /** The sequence number of the next event. */
  function NextSequence(events: seq<TaskEvent>): Option<u64> {
    if events == [] then Some(1)
    else
      var last := events[|events| - 1].sequence;
      if last == LAST_SEQUENCE then None else Some(last + 1)
  }

  function Appended(t: Task, kind: EventKind): Result<Task, TaskError> {
    if |t.events| >= MAX_EVENTS then Err(EventLimitExceeded)
    else
      var sequence := NextSequence(t.events);
      if sequence.None? then Err(SequenceExhausted)
      else
        var next := Transition(t, kind);
        if next.Err? then Err(next.error)
        else if KindSize(kind) > MAX_EVENT_BYTES then Err(InvalidField("event size"))
        else
          var n := next.value;
          Ok(Task(t.schemaVersion, t.spec, n.status, n.plan, n.checkpoint, n.pendingApproval,
                  t.events + [TaskEvent(sequence.value, kind)]))
  }

  function NewTask(spec: TaskSpec): Result<Task, TaskError> {
    var defect := SpecDefect(spec);
    if defect.Some? then Err(InvalidField(defect.value))
    else Ok(Task(TASK_SCHEMA_VERSION, spec, Pending, None, None, None, []))
  }

  // ----- replay -----

  /** The record that `start` becomes by the events, each with the sequence number it was stored under. */
  function Replayed(start: Task, events: seq<TaskEvent>): Result<Task, TaskError> {
    if events == [] then Ok(start)
    else
      var before := Replayed(start, events[..|events| - 1]);
      if before.Err? then before
      else
        var event := events[|events| - 1];
        var after := Appended(before.value, event.kind);
        if after.Err? then after
        else if after.value.events[|after.value.events| - 1].sequence != event.sequence then Err(InvalidRecord)
        else after
  }

  lemma {:induction false} ReplayStops(start: Task, events: seq<TaskEvent>, i: nat)
    requires i <= |events| && Replayed(start, events[..i]).Err?
    ensures Replayed(start, events) == Replayed(start, events[..i])
    decreases |events| - i
  {
    if i == |events| {
      assert events[..i] == events;
    } else {
      assert events[..i + 1][..i] == events[..i];
      ReplayStops(start, events, i + 1);
    }
  }

  /** Stored bytes: how many there are, and the record they decode to, if any. */
  datatype Stored = Stored(size: nat, decoded: Option<Task>)

  /** `restore`. */
  function Restored(bytes: Stored): Result<Task, TaskError> {
    if bytes.size > MAX_TASK_RECORD_BYTES then Err(InvalidField("record size"))
    else if bytes.decoded.None? then Err(Undecodable)
    else
      var stored := bytes.decoded.value;
      if !(1 <= stored.schemaVersion <= TASK_SCHEMA_VERSION) then Err(UnsupportedSchema(stored.schemaVersion))
      else if stored.schemaVersion == 1 && PausesOrResumes(stored.events) then Err(InvalidRecord)
      else
        var start := NewTask(stored.spec);
        if start.Err? then start
        else
          var replayed := Replayed(start.value.(schemaVersion := stored.schemaVersion), stored.events);
          if replayed.Err? then replayed
          else
            var expected := stored.(schemaVersion := TASK_SCHEMA_VERSION);
            if replayed.value.(schemaVersion := TASK_SCHEMA_VERSION) != expected then Err(InvalidRecord) else Ok(expected)
  }

  predicate PausesOrResumes(events: seq<TaskEvent>) {
    exists i :: 0 <= i < |events| && (events[i].kind.DidPause? || events[i].kind.DidResume?)
  }

  /** A record of the current schema is its own replay. */
  predicate Consistent(t: Task) {
    && t.schemaVersion == TASK_SCHEMA_VERSION && NewTask(t.spec).Ok?
    && Replayed(NewTask(t.spec).value, t.events) == Ok(t)
  }

  lemma NewIsConsistent(spec: TaskSpec)
    requires NewTask(spec).Ok?
    ensures Consistent(NewTask(spec).value)
  {
  }

  lemma AppendKeepsConsistent(t: Task, kind: EventKind)
    requires Consistent(t) && Appended(t, kind).Ok?
    ensures Consistent(Appended(t, kind).value)
  {
    hide Transition, KindSize;
    var next := Appended(t, kind).value;
    assert next.events[..|next.events| - 1] == t.events;
  }

  /** A record of any schema is its own replay under the rules of that schema. */
  predicate SelfReplay(t: Task) {
    NewTask(t.spec).Ok? && Replayed(NewTask(t.spec).value.(schemaVersion := t.schemaVersion), t.events) == Ok(t)
  }

  /** What restoring must do: take exactly the records of a known schema that are their own replay, without pauses in
      the first schema, and stamp them with the current one. */
  lemma RestoreAny(bytes: Stored)
    ensures Restored(bytes).Ok? <==>
      && bytes.size <= 8_388_608 && bytes.decoded.Some?
      && var t := bytes.decoded.value;
         && (t.schemaVersion == 1 || t.schemaVersion == 2 || t.schemaVersion == 3)
         && (t.schemaVersion == 1 ==> forall event :: event in t.events ==> !event.kind.DidPause? && !event.kind.DidResume?)
         && SelfReplay(t)
    ensures Restored(bytes).Ok? ==> Restored(bytes).value == bytes.decoded.value.(schemaVersion := 3)
  {
    hide Replayed, NewTask;
    if bytes.decoded.Some? {
      var t := bytes.decoded.value;
      assert PausesOrResumes(t.events) <==> exists event :: event in t.events && (event.kind.DidPause? || event.kind.DidResume?);
      if NewTask(t.spec).Ok? { SchemaStays(NewTask(t.spec).value.(schemaVersion := t.schemaVersion), t.events); }
    }
  }

  /** For a record of the current schema within the size limit, restoring succeeds exactly when the record is its
      own replay, and then gives the record back. */
  lemma RestoreExact(t: Task, size: nat)
    requires t.schemaVersion == TASK_SCHEMA_VERSION && size <= MAX_TASK_RECORD_BYTES
    ensures Restored(Stored(size, Some(t))).Ok? <==> Consistent(t)
    ensures Consistent(t) ==> Restored(Stored(size, Some(t))) == Ok(t)
  {
    hide Replayed, NewTask;
    if NewTask(t.spec).Ok? { NewHasSchema(t.spec); SchemaStays(NewTask(t.spec).value, t.events); }
  }

  lemma NewHasSchema(spec: TaskSpec)
    requires NewTask(spec).Ok?
    ensures NewTask(spec).value.schemaVersion == TASK_SCHEMA_VERSION && NewTask(spec).value.spec == spec
  {
  }

  lemma {:induction false} SchemaStays(start: Task, events: seq<TaskEvent>)
    ensures var r := Replayed(start, events);
      r.Ok? ==> r.value.schemaVersion == start.schemaVersion && r.value.spec == start.spec
  {
    hide Transition, KindSize;
    if events != [] { SchemaStays(start, events[..|events| - 1]); }
  }

  // ----- what the history determines -----

  /** The status a successful event leaves behind. */
  function StatusAfter(kind: EventKind): TaskStatus {
    match kind
    case DidPause => Paused
    case ApprovalRequested(_) => WaitingApproval
    case DidComplete(_) => Completed
    case DidFail(_) => Failed
    case DidCancel => Cancelled
    case _ => Running
  }

  function StatusOf(events: seq<TaskEvent>): TaskStatus {
    if events == [] then Pending else StatusAfter(events[|events| - 1].kind)
  }

  /** The plan of the last plan update. */
  function PlanOf(events: seq<TaskEvent>): Option<TaskPlan> {
    if events == [] then None
    else
      var last := events[|events| - 1].kind;
      if last.PlanUpdated? then Some(last.plan) else PlanOf(events[..|events| - 1])
  }

  function CheckpointOf(events: seq<TaskEvent>): Option<TaskCheckpoint> {
    if events == [] then None
    else
      var last := events[|events| - 1].kind;
      if last.Checkpointed? then Some(last.checkpoint) else CheckpointOf(events[..|events| - 1])
  }

  /** The request at the end of the history, if it ends in one. */
  function PendingOf(events: seq<TaskEvent>): Option<string> {
    if events != [] && events[|events| - 1].kind.ApprovalRequested? then Some(events[|events| - 1].kind.requestId) else None
  }

  predicate Finished(status: TaskStatus) {
    status.Completed? || status.Failed? || status.Cancelled?
  }

  /** What may follow what: the shape of every history. */
  predicate Follows(events: seq<TaskEvent>, i: nat)
    requires i < |events|
  {
    var kind := events[i].kind;
    && events[i].sequence == i + 1
    && (i > 0 ==> !Finished(StatusAfter(events[i - 1].kind)))
    && (kind.DidStart? ==> i == 0)
    && (i == 0 ==> kind.DidStart? || kind.DidCancel?)
    && (kind.DidResume? ==> i > 0 && events[i - 1].kind.DidPause?)
    && (kind.DidPause? ==> i > 0 && events[i - 1].kind.Checkpointed? && events[i - 1].kind.checkpoint.sessionSha256.Some?)
    && (kind.ApprovalResolved? ==>
          i > 0 && events[i - 1].kind.ApprovalRequested? && events[i - 1].kind.requestId == kind.requestId)
  }

  /** Completed turns grow from checkpoint to checkpoint. */
  predicate TurnsIncrease(events: seq<TaskEvent>) {
    forall i, j :: 0 <= i < j < |events| && events[i].kind.Checkpointed? && events[j].kind.Checkpointed? ==>
      events[i].kind.checkpoint.completedTurns < events[j].kind.checkpoint.completedTurns
  }

  /** Status, plan, checkpoint and pending approval are what the history says, and the history has its shape. */
  predicate Projected(t: Task) {
    && t.status == StatusOf(t.events) && t.plan == PlanOf(t.events)
    && t.checkpoint == CheckpointOf(t.events) && t.pendingApproval == PendingOf(t.events)
    && (forall i :: 0 <= i < |t.events| ==> Follows(t.events, i))
    && TurnsIncrease(t.events)
    && |t.events| <= MAX_EVENTS
  }

  lemma {:induction false} LatestCheckpoint(events: seq<TaskEvent>, i: nat)
    requires i < |events| && events[i].kind.Checkpointed? && TurnsIncrease(events)
    ensures CheckpointOf(events).Some? && events[i].kind.checkpoint.completedTurns <= CheckpointOf(events).value.completedTurns
  {
    var n := |events| - 1;
    if !events[n].kind.Checkpointed? {
      assert TurnsIncrease(events[..n]);
      LatestCheckpoint(events[..n], i);
    }
  }

  lemma AppendKeepsProjection(t: Task, kind: EventKind)
    requires t.schemaVersion == TASK_SCHEMA_VERSION && Projected(t) && Appended(t, kind).Ok?
    ensures Projected(Appended(t, kind).value)
    ensures !Finished(t.status)
  {
    hide Transition, KindSize, TurnsIncrease, Follows, StatusOf, PlanOf, CheckpointOf, PendingOf;
    var next := Appended(t, kind).value;
    var n := |t.events|;
    FieldsFollow(t, kind);
    LastFollows(t, kind);
    forall i | 0 <= i < n ensures Follows(next.events, i) {
      SameShape(t.events, next.events, i);
    }
    TurnsStillIncrease(t, kind);
  }

  lemma SameShape(events: seq<TaskEvent>, more: seq<TaskEvent>, i: nat)
    requires events <= more && i < |events| && Follows(events, i)
    ensures Follows(more, i)
  {
  }

  /** Status, plan, checkpoint and pending approval after an event, from the history alone. */
  lemma FieldsFollow(t: Task, kind: EventKind)
    requires Projected(t) && Appended(t, kind).Ok?
    ensures var next := Appended(t, kind).value;
      && next.status == StatusOf(next.events) && next.plan == PlanOf(next.events)
      && next.checkpoint == CheckpointOf(next.events) && next.pendingApproval == PendingOf(next.events)
      && |next.events| == |t.events| + 1 <= MAX_EVENTS
    ensures !Finished(t.status)
  {
    hide KindSize, TurnsIncrease, Follows, Transition, StatusAfter, StatusOf, PlanOf, CheckpointOf, PendingOf;
    TransitionFollows(t, kind);
    OneMoreEvent(t.events, Appended(t, kind).value.events[|t.events|]);
  }

  /** What a transition sets: each field from the event that sets it, and the others as they were. */
  lemma TransitionFollows(t: Task, kind: EventKind)
    requires Transition(t, kind).Ok? && t.pendingApproval == PendingOf(t.events) && t.status == StatusOf(t.events)
    ensures var next := Transition(t, kind).value;
      && next.status == StatusAfter(kind)
      && next.plan == (if kind.PlanUpdated? then Some(kind.plan) else t.plan)
      && next.checkpoint == (if kind.Checkpointed? then Some(kind.checkpoint) else t.checkpoint)
      && next.pendingApproval == (if kind.ApprovalRequested? then Some(kind.requestId) else None)
    ensures !Finished(t.status)
  {
    hide TextOk, IdsOk, CheckpointDefect, HasDigest;
  }

  lemma OneMoreEvent(events: seq<TaskEvent>, event: TaskEvent)
    ensures var more, kind := events + [event], event.kind;
      && StatusOf(more) == StatusAfter(kind)
      && PlanOf(more) == (if kind.PlanUpdated? then Some(kind.plan) else PlanOf(events))
      && CheckpointOf(more) == (if kind.Checkpointed? then Some(kind.checkpoint) else CheckpointOf(events))
      && PendingOf(more) == (if kind.ApprovalRequested? then Some(kind.requestId) else None)
  {
    hide StatusAfter;
    assert (events + [event])[..|events|] == events;
  }

  lemma LastFollows(t: Task, kind: EventKind)
    requires t.schemaVersion == TASK_SCHEMA_VERSION && Projected(t) && Appended(t, kind).Ok?
    ensures var next := Appended(t, kind).value; Follows(next.events, |t.events|)
  {
    hide KindSize, TextOk, IdsOk, FileIdOk, DigestOk, TurnsIncrease, PlanOf;
    if |t.events| > 0 { assert Follows(t.events, |t.events| - 1); }
  }

  lemma TurnsStillIncrease(t: Task, kind: EventKind)
    requires t.schemaVersion == TASK_SCHEMA_VERSION && Projected(t) && Appended(t, kind).Ok?
    ensures TurnsIncrease(Appended(t, kind).value.events)
  {
    hide KindSize, TextOk, IdsOk, FileIdOk, DigestOk, Follows, PlanOf, PendingOf, StatusOf;
    var next := Appended(t, kind).value;
    if kind.Checkpointed? {
      forall i | 0 <= i < |t.events| && t.events[i].kind.Checkpointed?
        ensures t.events[i].kind.checkpoint.completedTurns < kind.checkpoint.completedTurns
      {
        LatestCheckpoint(t.events, i);
      }
    }
  }

  // ----- which events are accepted -----

  /** Status, plan, checkpoint and pending approval are those of the history. */
  predicate Mirrors(t: Task) {
    && t.status == StatusOf(t.events) && t.plan == PlanOf(t.events)
    && t.checkpoint == CheckpointOf(t.events) && t.pendingApproval == PendingOf(t.events)
  }

  /** The task is being worked on: started or resumed, and neither paused, waiting nor ended since. */
  predicate AtWork(events: seq<TaskEvent>) {
    && events != []
    && var last := events[|events| - 1].kind;
       last.DidStart? || last.DidResume? || last.PlanUpdated? || last.Checkpointed? || last.ApprovalResolved?
  }

  predicate Asking(events: seq<TaskEvent>) {
    events != [] && events[|events| - 1].kind.ApprovalRequested?
  }

  /** Whether an event of this kind may come next, by the last event alone. */
  predicate MayFollow(events: seq<TaskEvent>, kind: EventKind) {
    match kind
    case DidStart => events == []
    case DidResume => events != [] && events[|events| - 1].kind.DidPause?
    case ApprovalResolved(_, _) => Asking(events)
    case DidFail(_) => AtWork(events) || Asking(events)
    case DidCancel => events == [] || AtWork(events) || Asking(events)
    case _ => AtWork(events)
  }

  /** The last checkpoint carries a digest. */
  predicate Sealed(events: seq<TaskEvent>) {
    CheckpointOf(events).Some? && CheckpointOf(events).value.sessionSha256.Some?
  }

  /** What is wrong with the event itself, given the history. */
  ghost function PayloadRefusal(events: seq<TaskEvent>, schema: nat, kind: EventKind): Option<TaskError> {
    match kind
    case DidStart => None
    case DidCancel => None
    case DidResume => if schema >= 3 && !Sealed(events) then Some(InvalidField("resume checkpoint")) else None
    case DidPause =>
      if events != [] && events[|events| - 1].kind.Checkpointed? && (schema >= 3 ==> Sealed(events)) then None
      else Some(InvalidField("pause checkpoint"))
    case PlanUpdated(plan) =>
      if !(1 <= |plan.steps| <= 128) then Some(InvalidField("plan steps"))
      else if exists text :: (text in plan.steps || text in plan.intendedOutputs) && !Readable(text) then Some(InvalidField("plan text"))
      else None
    case Checkpointed(checkpoint) =>
      if !Spelled(checkpoint.sessionId, "-_") then Some(InvalidField("checkpoint session id"))
      else if schema >= 3 && checkpoint.completedTurns == 0 then Some(InvalidField("checkpoint turn count"))
      else if checkpoint.sessionSha256.Some? && !Sha256Hex(checkpoint.sessionSha256.value) then Some(InvalidField("checkpoint digest"))
      else
        var last := CheckpointOf(events);
        if last.None? || last.value.completedTurns < checkpoint.completedTurns ||
           (schema < 3 && last.value.completedTurns == checkpoint.completedTurns) then None
        else Some(InvalidField("checkpoint turn count"))
    case ApprovalRequested(id) => if Readable(id) then None else Some(InvalidField("approval request id"))
    case ApprovalResolved(id, _) => if Asking(events) && events[|events| - 1].kind.requestId == id then None else Some(ApprovalMismatch)
    case DidComplete(ids) => if Spelt(ids) && Distinct(ids) then None else Some(InvalidField("output version id"))
    case DidFail(reason) => if Readable(reason) then None else Some(InvalidField("failure reason"))
  }

  /** The first reason to refuse an event, from the history and the event alone. */
  ghost function RefusalFor(events: seq<TaskEvent>, schema: nat, kind: EventKind): Option<TaskError> {
    if |events| >= 512 then Some(EventLimitExceeded)
    else if events != [] && events[|events| - 1].sequence == 0xFFFF_FFFF_FFFF_FFFF then Some(SequenceExhausted)
    else if !MayFollow(events, kind) then Some(InvalidTransition(StatusOf(events), kind))
    else if PayloadRefusal(events, schema, kind).Some? then PayloadRefusal(events, schema, kind)
    else if KindSize(kind) > 8_192 then Some(InvalidField("event size"))
    else None
  }

  /** What appending an event must do. */
  ghost predicate AppendMeans(t: Task, kind: EventKind, r: Result<Task, TaskError>) {
    match RefusalFor(t.events, t.schemaVersion, kind)
    case Some(e) => r == Err(e)
    case None =>
      && r.Ok? && Mirrors(r.value) && r.value.schemaVersion == t.schemaVersion && r.value.spec == t.spec
      && r.value.events == t.events + [TaskEvent(if t.events == [] then 1 else t.events[|t.events| - 1].sequence + 1, kind)]
  }

  /** An event is accepted exactly when the history lets its kind come next, its payload meets the rules and the
      limits hold; it is refused for the first reason in this order. */
  lemma AppendExact(t: Task, kind: EventKind, r: Result<Task, TaskError>)
    requires Mirrors(t)
    ensures r == Appended(t, kind) <==> AppendMeans(t, kind, r)
  {
    hide KindSize, Transition, PayloadRefusal, MayFollow, StatusOf, PlanOf, CheckpointOf, PendingOf, StatusAfter;
    TransitionExact(t, kind);
    if Appended(t, kind).Ok? {
      TransitionFollows(t, kind);
      OneMoreEvent(t.events, Appended(t, kind).value.events[|t.events|]);
    }
  }

  lemma TransitionExact(t: Task, kind: EventKind)
    requires Mirrors(t)
    ensures var r := Transition(t, kind);
      && (r.Ok? <==> MayFollow(t.events, kind) && PayloadRefusal(t.events, t.schemaVersion, kind).None?)
      && (r.Err? && MayFollow(t.events, kind) ==> PayloadRefusal(t.events, t.schemaVersion, kind) == Some(r.error))
      && (r.Err? && !MayFollow(t.events, kind) ==> r.error == InvalidTransition(StatusOf(t.events), kind))
  {
    hide TextOk, IdsOk, FileIdOk, DigestOk, Readable, Spelled, Spelt, Distinct, Sha256Hex, PlanOf;
    match kind
    case PlanUpdated(plan) => PlanTexts(plan);
    case Checkpointed(checkpoint) =>
      RulesExact(checkpoint.sessionId);
      if checkpoint.sessionSha256.Some? { RulesExact(checkpoint.sessionSha256.value); }
    case ApprovalRequested(id) => RulesExact(id);
    case DidComplete(ids) => IdsExact(ids);
    case DidFail(reason) => RulesExact(reason);
    case _ =>
  }

  lemma PlanTexts(plan: TaskPlan)
    ensures var texts := plan.steps + plan.intendedOutputs;
      (exists i :: 0 <= i < |texts| && !TextOk(texts[i])) <==>
      (exists text :: (text in plan.steps || text in plan.intendedOutputs) && !Readable(text))
  {
    hide TextOk, Readable;
    var texts := plan.steps + plan.intendedOutputs;
    forall text ensures TextOk(text) <==> Readable(text) { RulesExact(text); }
    forall i | 0 <= i < |texts| ensures texts[i] in plan.steps || texts[i] in plan.intendedOutputs { assert texts[i] in texts; }
    forall text | text in plan.steps || text in plan.intendedOutputs ensures exists i :: 0 <= i < |texts| && texts[i] == text {
      assert text in texts;
    }
  }

  lemma AppendMirrors(t: Task, kind: EventKind)
    requires Mirrors(t)
    ensures Appended(t, kind).Ok? ==> Mirrors(Appended(t, kind).value)
  {
    hide Transition, KindSize, RefusalFor, PayloadRefusal, Mirrors;
    AppendExact(t, kind, Appended(t, kind));
  }

  lemma NewMirrors(spec: TaskSpec)
    ensures Mirrors(Task(TASK_SCHEMA_VERSION, spec, Pending, None, None, None, []))
  {
  }

  /** A failed append changes nothing. */
  function AppendedAll(t: Task, kinds: seq<EventKind>): Task {
    if kinds == [] then t
    else
      var before := AppendedAll(t, kinds[..|kinds| - 1]);
      var after := Appended(before, kinds[|kinds| - 1]);
      if after.Ok? then after.value else before
  }

  /** Every record built by `new` and any attempted appends is its own replay, and its status, plan, checkpoint and
      pending approval are the ones its history determines. */
  lemma {:induction false} BuiltRecords(spec: TaskSpec, kinds: seq<EventKind>)
    requires NewTask(spec).Ok?
    ensures var t := AppendedAll(NewTask(spec).value, kinds);
      Consistent(t) && Projected(t) && t.spec == spec
  {
    if kinds == [] {
      NewIsConsistent(spec);
    } else {
      BuiltRecords(spec, kinds[..|kinds| - 1]);
      var before := AppendedAll(NewTask(spec).value, kinds[..|kinds| - 1]);
      hide Appended, Consistent, Projected, NewTask;
      var kind := kinds[|kinds| - 1];
      if Appended(before, kind).Ok? {
        SchemaOf(before);
        AppendKeepsConsistent(before, kind);
        AppendKeepsProjection(before, kind);
        AppendKeepsSpec(before, kind);
      }
    }
  }

  lemma SchemaOf(t: Task)
    requires Consistent(t)
    ensures t.schemaVersion == TASK_SCHEMA_VERSION && NewTask(t.spec).Ok?
  {
  }

  lemma AppendKeepsSpec(t: Task, kind: EventKind)
    requires Appended(t, kind).Ok?
    ensures Appended(t, kind).value.spec == t.spec && t.events <= Appended(t, kind).value.events
  {
  }

  /** Pending approval is there exactly while waiting, and it is the one asked for last. */
  lemma PendingExactlyWhileWaiting(t: Task)
    requires Projected(t)
    ensures t.pendingApproval.Some? <==> t.status.WaitingApproval?
  {
  }

  /** A finished task accepts no event. */
  lemma FinishedIsFinal(t: Task, kind: EventKind)
    requires Finished(t.status)
    ensures Appended(t, kind).Err?
    ensures |t.events| < MAX_EVENTS && NextSequence(t.events).Some? ==> Appended(t, kind) == Err(InvalidTransition(t.status, kind))
  {
  }

  /** Every replayable record is one that `new` and appends build. */
  lemma {:induction false} ConsistentIsBuilt(t: Task)
    requires Consistent(t)
    ensures t == AppendedAll(NewTask(t.spec).value, Kinds(t.events)) && Projected(t)
  {
    ReplayIsAppending(NewTask(t.spec).value, t.events);
    BuiltRecords(t.spec, Kinds(t.events));
  }

  function Kinds(events: seq<TaskEvent>): seq<EventKind> {
    seq(|events|, i requires 0 <= i < |events| => events[i].kind)
  }

  lemma {:induction false} ReplayIsAppending(start: Task, events: seq<TaskEvent>)
    ensures var r := Replayed(start, events);
      r.Ok? ==> r.value == AppendedAll(start, Kinds(events))
  {
    hide Appended;
    if events != [] {
      ReplayIsAppending(start, events[..|events| - 1]);
      assert Kinds(events)[..|events| - 1] == Kinds(events[..|events| - 1]);
    }
  }

  // ----- the size of a record -----

  function EventsTotal(events: seq<TaskEvent>): nat {
    // {"sequence":...,"kind":...}
    if events == [] then 0
    else EventsTotal(events[..|events| - 1]) + 21 + NumberSize(events[|events| - 1].sequence) + KindSize(events[|events| - 1].kind)
  }

  function SpecSize(spec: TaskSpec): nat {
    // {"id":...,"owner":...,"workspace_id":...,"prompt":...,"input_version_ids":...,"budget":...}
    73 + StringSize(spec.id) + StringSize(spec.owner) + StringSize(spec.workspaceId) + StringSize(spec.prompt) +
    StringsSize(spec.inputVersionIds) + BudgetSize(spec.budget)
  }

  function BudgetSize(budget: TaskBudget): nat {
    // {"max_model_steps":...,"max_tool_calls":...,"timeout_seconds":...}
    57 + NumberSize(budget.maxModelSteps) + NumberSize(budget.maxToolCalls) + NumberSize(budget.timeoutSeconds)
  }

  function StatusName(status: TaskStatus): string {
    match status
    case Pending => "pending"
    case Running => "running"
    case Paused => "paused"
    case WaitingApproval => "waiting_approval"
    case Completed => "completed"
    case Failed => "failed"
    case Cancelled => "cancelled"
  }

  /** Bytes of the JSON encoding of a record; an absent field is `null`. */
  function RecordSize(t: Task): nat {
    // {"schema_version":...,"spec":...,"status":"...","plan":...,"checkpoint":...,"pending_approval":...,"events":...}
    91 + NumberSize(t.schemaVersion) + SpecSize(t.spec) + |StatusName(t.status)| +
    (if t.plan.Some? then PlanSize(t.plan.value) else 4) +
    (if t.checkpoint.Some? then CheckpointSize(t.checkpoint.value) else 4) +
    (if t.pendingApproval.Some? then StringSize(t.pendingApproval.value) else 4) +
    ArraySize(|t.events|, EventsTotal(t.events))
  }

  lemma {:induction false} StringSizeBound(s: string)
    ensures StringSize(s) <= 2 + 6 * Utf8Len(s)
  {
    if s != [] { StringSizeBound(s[..|s| - 1]); }
  }

  lemma {:induction false} StringsBound(items: seq<string>)
    requires forall i :: 0 <= i < |items| ==> Utf8Len(items[i]) <= 128
    ensures StringsTotal(items) <= 770 * |items|
  {
    if items != [] {
      StringSizeBound(items[|items| - 1]);
      StringsBound(items[..|items| - 1]);
    }
  }

  lemma {:induction false} NumberBound(n: nat, digits: nat, bound: nat)
    requires digits > 0 && bound == Power10(digits) && n < bound
    ensures NumberSize(n) <= digits
  {
    if n >= 10 { NumberBound(n / 10, digits - 1, bound / 10); }
  }

  function Power10(n: nat): nat {
    if n == 0 then 1 else 10 * Power10(n - 1)
  }

  lemma TwentyDigits(n: nat)
    requires n <= 0xFFFF_FFFF_FFFF_FFFF
    ensures NumberSize(n) <= 20
  {
    assert Power10(10) == 10_000_000_000;
    PowerAdds(10);
    NumberBound(n, 20, Power10(20));
  }

  lemma PowerAdds(n: nat)
    requires n == 10 && Power10(n) == 10_000_000_000
    ensures Power10(20) == 100_000_000_000_000_000_000
  {
    assert Power10(15) == 100_000 * Power10(10);
    assert Power10(20) == 100_000 * Power10(15);
  }

  lemma SpecFits(spec: TaskSpec)
    requires SpecDefect(spec).None?
    ensures SpecSize(spec) <= 250_000
  {
    hide Trim, StringSize, Utf8Len, NumberSize, StringsTotal;
    StringSizeBound(spec.id);
    StringSizeBound(spec.owner);
    StringSizeBound(spec.workspaceId);
    StringSizeBound(spec.prompt);
    StringsBound(spec.inputVersionIds);
    TwentyDigits(spec.budget.maxModelSteps);
    TwentyDigits(spec.budget.maxToolCalls);
    TwentyDigits(spec.budget.timeoutSeconds);
  }

  /** Every event was small enough to be appended. */
  predicate SmallEvents(events: seq<TaskEvent>) {
    forall i :: 0 <= i < |events| ==> KindSize(events[i].kind) <= MAX_EVENT_BYTES
  }

  lemma {:induction false} ReplayedEventsSmall(start: Task, events: seq<TaskEvent>)
    requires Replayed(start, events).Ok?
    ensures SmallEvents(events)
  {
    hide KindSize, Transition;
    if events != [] { ReplayedEventsSmall(start, events[..|events| - 1]); }
  }

  lemma {:induction false} EventsFit(events: seq<TaskEvent>)
    requires SmallEvents(events)
    ensures EventsTotal(events) <= 8233 * |events|
  {
    hide KindSize, NumberSize;
    if events != [] {
      EventsFit(events[..|events| - 1]);
      TwentyDigits(events[|events| - 1].sequence);
    }
  }

  lemma {:induction false} ProjectionFits(events: seq<TaskEvent>)
    requires SmallEvents(events)
    ensures PlanOf(events).Some? ==> PlanSize(PlanOf(events).value) <= MAX_EVENT_BYTES
    ensures CheckpointOf(events).Some? ==> CheckpointSize(CheckpointOf(events).value) <= MAX_EVENT_BYTES
    ensures PendingOf(events).Some? ==> StringSize(PendingOf(events).value) <= MAX_EVENT_BYTES
  {
    hide PlanSize, CheckpointSize, StringSize, StringsSize;
    if events != [] {
      assert KindSize(events[|events| - 1].kind) <= MAX_EVENT_BYTES;
      ProjectionFits(events[..|events| - 1]);
    }
  }

  /** No record that can be built outgrows what `restore` reads. */
  lemma RecordFits(t: Task)
    requires Consistent(t)
    ensures RecordSize(t) <= MAX_TASK_RECORD_BYTES
  {
    hide Consistent, Projected, RecordSize, SpecSize, SmallEvents, EventsTotal;
    ConsistentIsBuilt(t);
    ConsistentParts(t);
    ReplayedEventsSmall(NewTask(t.spec).value, t.events);
    SpecFits(t.spec);
    EventsFit(t.events);
    PartsFit(t);
  }

  lemma ConsistentParts(t: Task)
    requires Consistent(t)
    ensures SpecDefect(t.spec).None? && NewTask(t.spec).Ok? && Replayed(NewTask(t.spec).value, t.events).Ok?
    ensures t.schemaVersion == TASK_SCHEMA_VERSION
  {
    hide Replayed;
  }

  lemma PartsFit(t: Task)
    requires Projected(t) && SmallEvents(t.events) && t.schemaVersion == TASK_SCHEMA_VERSION
    requires SpecSize(t.spec) <= 250_000 && EventsTotal(t.events) <= 8233 * |t.events|
    ensures RecordSize(t) <= MAX_TASK_RECORD_BYTES
  {
    hide Projected, SmallEvents, SpecSize, PlanSize, CheckpointSize, StringSize, EventsTotal, PlanOf, CheckpointOf, PendingOf;
    ProjectedParts(t);
    ProjectionFits(t.events);
    StatusNameShort(t.status);
    assert NumberSize(t.schemaVersion) == 1;
  }

  lemma StatusNameShort(status: TaskStatus)
    ensures |StatusName(status)| <= 16
  {
  }

  lemma ProjectedParts(t: Task)
    requires Projected(t)
    ensures t.plan == PlanOf(t.events) && t.checkpoint == CheckpointOf(t.events) && t.pendingApproval == PendingOf(t.events)
    ensures |t.events| <= MAX_EVENTS
  {
  }

  function Encoded(t: Task): Stored {
    Stored(RecordSize(t), Some(t))
  }

  /** Restoring the encoding of any record built by `new` and appends gives that record. */
  lemma RestoreRoundTrip(spec: TaskSpec, kinds: seq<EventKind>)
    requires NewTask(spec).Ok?
    ensures var t := AppendedAll(NewTask(spec).value, kinds);
      Restored(Encoded(t)) == Ok(t)
  {
    hide Consistent, Projected, RecordSize;
    BuiltRecords(spec, kinds);
    var t := AppendedAll(NewTask(spec).value, kinds);
    RecordFits(t);
    SchemaOf(t);
    RestoreExact(t, RecordSize(t));
  }

  // ----- the record itself -----

  class TaskRecord {
    var schemaVersion: nat
    const spec: TaskSpec
    var status: TaskStatus
    var plan: Option<TaskPlan>
    var checkpoint: Option<TaskCheckpoint>
    var pendingApproval: Option<string>
    var events: seq<TaskEvent>

    constructor (spec: TaskSpec)
      ensures Valid()
      ensures State() == Task(TASK_SCHEMA_VERSION, spec, Pending, None, None, None, [])
    {
      this.spec := spec;
      schemaVersion := TASK_SCHEMA_VERSION;
      status := Pending;
      plan := None;
      checkpoint := None;
      pendingApproval := None;
      events := [];
    }

    function State(): Task
      reads this
    {
      Task(schemaVersion, spec, status, plan, checkpoint, pendingApproval, events)
    }

    /** The stored fields are those of the history. */
    predicate Valid()
      reads this
    {
      Mirrors(State())
    }

    /** `append`: a refused event leaves the record as it was. */
    method Append(kind: EventKind) returns (r: Result<TaskEvent, TaskError>)
      requires Valid()
      modifies this
      ensures Valid()
      ensures AppendMeans(old(State()), kind, Instead(r, State()))
      ensures match Appended(old(State()), kind)
        case Ok(t) => State() == t && r == Ok(t.events[|t.events| - 1])
        case Err(e) => State() == old(State()) && r == Err(e)
    {
      hide Transition, KindSize, AppendMeans, Mirrors;
      AppendExact(State(), kind, Appended(State(), kind));
      AppendMirrors(State(), kind);
      if |events| >= MAX_EVENTS { return Err(EventLimitExceeded); }
      var sequence := NextSequence(events);
      if sequence.None? { return Err(SequenceExhausted); }
      var next := Transition(State(), kind);
      if next.Err? { return Err(next.error); }
      if KindSize(kind) > MAX_EVENT_BYTES { return Err(InvalidField("event size")); }
      status := next.value.status;
      plan := next.value.plan;
      checkpoint := next.value.checkpoint;
      pendingApproval := next.value.pendingApproval;
      events := events + [TaskEvent(sequence.value, kind)];
      r := Ok(events[|events| - 1]);
    }
  }

  /** `TaskRecord::new`. */
  method Create(spec: TaskSpec) returns (r: Result<TaskRecord, TaskError>)
    ensures match NewTask(spec)
      case Ok(t) => r.Ok? && fresh(r.value) && r.value.State() == t
      case Err(e) => r == Err(e)
    ensures r.Ok? ==> r.value.Valid()
    ensures if r.Ok? then FirstBroken(spec, None) else r.error.InvalidField? && FirstBroken(spec, Some(r.error.field))
  {
    hide FirstBroken, SpecDefect;
    SpecExact(spec);
    var defect := SpecDefect(spec);
    if defect.Some? { return Err(InvalidField(defect.value)); }
    var task := new TaskRecord(spec);
    r := Ok(task);
  }

  /** `restore`: replays every event into a new record and compares. */
  method Restore(bytes: Stored) returns (r: Result<Task, TaskError>)
    ensures r == Restored(bytes)
  {
    hide Appended, SpecDefect;
    if bytes.size > MAX_TASK_RECORD_BYTES { return Err(InvalidField("record size")); }
    if bytes.decoded.None? { return Err(Undecodable); }
    var stored := bytes.decoded.value;
    if !(1 <= stored.schemaVersion <= TASK_SCHEMA_VERSION) { return Err(UnsupportedSchema(stored.schemaVersion)); }
    if stored.schemaVersion == 1 && PausesOrResumes(stored.events) { return Err(InvalidRecord); }
    var created := Create(stored.spec);
    if created.Err? { return Err(created.error); }
    var replayed := created.value;
    replayed.schemaVersion := stored.schemaVersion;
    ghost var start := replayed.State();
    for i := 0 to |stored.events|
      invariant Replayed(start, stored.events[..i]) == Ok(replayed.State())
      invariant fresh(replayed) && replayed.Valid()
    {
      var event := stored.events[i];
      assert stored.events[..i + 1][..i] == stored.events[..i];
      if Replayed(start, stored.events[..i + 1]).Err? { ReplayStops(start, stored.events, i + 1); }
      var applied := replayed.Append(event.kind);
      if applied.Err? { return Err(applied.error); }
      if applied.value.sequence != event.sequence { return Err(InvalidRecord); }
    }
    assert stored.events[..|stored.events|] == stored.events;
    replayed.schemaVersion := TASK_SCHEMA_VERSION;
    var expected := stored.(schemaVersion := TASK_SCHEMA_VERSION);
    if replayed.State() != expected { return Err(InvalidRecord); }
    r := Ok(expected);
  }
}
