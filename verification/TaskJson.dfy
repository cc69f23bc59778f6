/** The JSON text of task events and records. What the record limits count is the length of this text. */
module TaskJson {
  import opened Wrappers
  import opened Values
  import opened TaskRecords

  // ----- the text -----

  function HexDigit(n: nat): char
    requires n < 16
  {
    "0123456789abcdef"[n]
  }

  /** A character inside a JSON string. */
  function Escaped(c: char): string {
    var n := c as int;
    if c == '"' then "\\\""
    else if c == '\\' then "\\\\"
    else if n == 8 then "\\b"
    else if n == 9 then "\\t"
    else if n == 10 then "\\n"
    else if n == 12 then "\\f"
    else if n == 13 then "\\r"
    else if n < 0x20 then "\\u00" + [HexDigit(n / 16), HexDigit(n % 16)]
    else [c]
  }

  function EscapedAll(s: string): string {
    if s == [] then [] else EscapedAll(s[..|s| - 1]) + Escaped(s[|s| - 1])
  }

  function StringJson(s: string): string {
    "\"" + EscapedAll(s) + "\""
  }

  function NumberJson(n: nat): string {
    if n < 10 then [HexDigit(n)] else NumberJson(n / 10) + [HexDigit(n % 10)]
  }

  /** Texts with commas between them. */
  function Listed(texts: seq<string>): string {
    if texts == [] then ""
    else if |texts| == 1 then texts[0]
    else Listed(texts[..|texts| - 1]) + "," + texts[|texts| - 1]
  }

  function ArrayJson(texts: seq<string>): string {
    "[" + Listed(texts) + "]"
  }

  function StringsJson(items: seq<string>): string {
    ArrayJson(seq(|items|, i requires 0 <= i < |items| => StringJson(items[i])))
  }

  function PlanJson(plan: TaskPlan): string {
    "{\"steps\":" + StringsJson(plan.steps) + ",\"intended_outputs\":" + StringsJson(plan.intendedOutputs) + "}"
  }

  /** The digest is left out when there is none. */
  function CheckpointJson(checkpoint: TaskCheckpoint): string {
    "{\"session_id\":" + StringJson(checkpoint.sessionId) + ",\"completed_turns\":" + NumberJson(checkpoint.completedTurns) +
    (if checkpoint.sessionSha256.Some? then ",\"session_sha256\":" + StringJson(checkpoint.sessionSha256.value) else "") + "}"
  }

  /** An event kind: its type, and its fields beside it. */
  function KindJson(kind: EventKind): string {
    match kind
    case DidStart => "{\"type\":\"started\"}"
    case DidResume => "{\"type\":\"resumed\"}"
    case DidPause => "{\"type\":\"paused\"}"
    case PlanUpdated(plan) => "{\"type\":\"plan_updated\",\"plan\":" + PlanJson(plan) + "}"
    case Checkpointed(checkpoint) => "{\"type\":\"checkpointed\",\"checkpoint\":" + CheckpointJson(checkpoint) + "}"
    case ApprovalRequested(id) => "{\"type\":\"approval_requested\",\"request_id\":" + StringJson(id) + "}"
    case ApprovalResolved(id, allowed) =>
      "{\"type\":\"approval_resolved\",\"request_id\":" + StringJson(id) + ",\"allowed\":" + (if allowed then "true" else "false") + "}"
    case DidComplete(ids) => "{\"type\":\"completed\",\"output_version_ids\":" + StringsJson(ids) + "}"
    case DidFail(reason) => "{\"type\":\"failed\",\"reason\":" + StringJson(reason) + "}"
    case DidCancel => "{\"type\":\"cancelled\"}"
  }

  function EventJson(event: TaskEvent): string {
    "{\"sequence\":" + NumberJson(event.sequence) + ",\"kind\":" + KindJson(event.kind) + "}"
  }

  function SpecJson(spec: TaskSpec): string {
    "{\"id\":" + StringJson(spec.id) + ",\"owner\":" + StringJson(spec.owner) + ",\"workspace_id\":" + StringJson(spec.workspaceId) +
    ",\"prompt\":" + StringJson(spec.prompt) + ",\"input_version_ids\":" + StringsJson(spec.inputVersionIds) +
    ",\"budget\":" + BudgetJson(spec.budget) + "}"
  }

  function BudgetJson(budget: TaskBudget): string {
    "{\"max_model_steps\":" + NumberJson(budget.maxModelSteps) + ",\"max_tool_calls\":" + NumberJson(budget.maxToolCalls) +
    ",\"timeout_seconds\":" + NumberJson(budget.timeoutSeconds) + "}"
  }

  function StatusJson(status: TaskStatus): string {
    match status
    case Pending => "\"pending\""
    case Running => "\"running\""
    case Paused => "\"paused\""
    case WaitingApproval => "\"waiting_approval\""
    case Completed => "\"completed\""
    case Failed => "\"failed\""
    case Cancelled => "\"cancelled\""
  }

  function EventsJson(events: seq<TaskEvent>): string {
    ArrayJson(seq(|events|, i requires 0 <= i < |events| => EventJson(events[i])))
  }

  /** The fields that never are absent, before the history. */
  function HeadJson(t: Task): string {
    "{\"schema_version\":" + NumberJson(t.schemaVersion) + ",\"spec\":" + SpecJson(t.spec) + ",\"status\":" + StatusJson(t.status)
  }

  /** The fields the history determines; one that is absent is `null`. */
  function ProjectionJson(t: Task): string {
    ",\"plan\":" + (if t.plan.Some? then PlanJson(t.plan.value) else "null") +
    ",\"checkpoint\":" + (if t.checkpoint.Some? then CheckpointJson(t.checkpoint.value) else "null") +
    ",\"pending_approval\":" + (if t.pendingApproval.Some? then StringJson(t.pendingApproval.value) else "null")
  }

  function RecordJson(t: Task): string {
    HeadJson(t) + ProjectionJson(t) + ",\"events\":" + EventsJson(t.events) + "}"
  }

  // ----- its length -----

  lemma {:induction false} Utf8Concat(a: string, b: string)
    ensures Utf8Len(a + b) == Utf8Len(a) + Utf8Len(b)
  {
    if b == [] {
      assert a + b == a;
    } else {
      Utf8Concat(a, b[..|b| - 1]);
      assert (a + b)[..|a + b| - 1] == a + b[..|b| - 1];
    }
  }

  predicate Ascii(s: string) {
    forall i :: 0 <= i < |s| ==> s[i] as int < 0x80
  }

  lemma LiteralLen(s: string)
    requires Ascii(s)
    ensures Utf8Len(s) == |s|
  {
    AsciiLen(s);
  }

  lemma HexIsAscii(n: nat)
    requires n < 16
    ensures HexDigit(n) as int < 0x80
  {
  }

  lemma EscapedSize(c: char)
    ensures Utf8Len(Escaped(c)) == EscapedLen(c)
  {
    var n := c as int;
    if n < 0x20 {
      HexIsAscii(n / 16);
      HexIsAscii(n % 16);
      LiteralLen(Escaped(c));
    } else if c == '"' || c == '\\' {
      LiteralLen(Escaped(c));
    } else {
      OneCharacter(c);
    }
  }

  lemma OneCharacter(c: char)
    ensures var n := c as int;
      Utf8Len([c]) == if n < 0x80 then 1 else if n < 0x800 then 2 else if n < 0x1_0000 then 3 else 4
  {
    assert [c][..0] == [];
  }

  lemma {:induction false} EscapedAllSize(s: string)
    ensures Utf8Len(EscapedAll(s)) + 2 == StringSize(s)
  {
    if s != [] {
      EscapedAllSize(s[..|s| - 1]);
      EscapedSize(s[|s| - 1]);
      Utf8Concat(EscapedAll(s[..|s| - 1]), Escaped(s[|s| - 1]));
    }
  }

  lemma StringExact(s: string)
    ensures Utf8Len(StringJson(s)) == StringSize(s)
  {
    EscapedAllSize(s);
    Utf8Concat("\"", EscapedAll(s));
    Utf8Concat("\"" + EscapedAll(s), "\"");
    LiteralLen("\"");
  }

  lemma {:induction false} NumberExact(n: nat)
    ensures Utf8Len(NumberJson(n)) == NumberSize(n)
  {
    HexIsAscii(n % 10);
    LiteralLen([HexDigit(n % 10)]);
    if n >= 10 {
      NumberExact(n / 10);
      Utf8Concat(NumberJson(n / 10), [HexDigit(n % 10)]);
    }
  }

  function TextsTotal(texts: seq<string>): nat {
    if texts == [] then 0 else TextsTotal(texts[..|texts| - 1]) + Utf8Len(texts[|texts| - 1])
  }

  lemma {:induction false} ListedSize(texts: seq<string>)
    ensures Utf8Len(Listed(texts)) == TextsTotal(texts) + if texts == [] then 0 else |texts| - 1
  {
    if |texts| == 1 {
      assert texts[..0] == [];
    } else if |texts| > 1 {
      var front, last := texts[..|texts| - 1], texts[|texts| - 1];
      ListedSize(front);
      Utf8Concat(Listed(front), ",");
      Utf8Concat(Listed(front) + ",", last);
      LiteralLen(",");
    }
  }

  lemma ArrayExact(texts: seq<string>)
    ensures Utf8Len(ArrayJson(texts)) == ArraySize(|texts|, TextsTotal(texts))
  {
    ListedSize(texts);
    Utf8Concat("[", Listed(texts));
    Utf8Concat("[" + Listed(texts), "]");
    LiteralLen("[");
    LiteralLen("]");
  }

  lemma {:induction false} StringTexts(items: seq<string>)
    ensures TextsTotal(seq(|items|, i requires 0 <= i < |items| => StringJson(items[i]))) == StringsTotal(items)
  {
    hide Utf8Len, StringJson, StringSize;
    if items != [] {
      var front := items[..|items| - 1];
      StringTexts(front);
      StringExact(items[|items| - 1]);
      var texts := seq(|items|, i requires 0 <= i < |items| => StringJson(items[i]));
      assert texts[..|items| - 1] == seq(|front|, i requires 0 <= i < |front| => StringJson(front[i]));
    }
  }

  lemma StringsExact(items: seq<string>)
    ensures Utf8Len(StringsJson(items)) == StringsSize(items)
  {
    hide Utf8Len, ArrayJson;
    StringTexts(items);
    ArrayExact(seq(|items|, i requires 0 <= i < |items| => StringJson(items[i])));
  }

  /** Texts put together, each of a known length. */
  lemma Two(a: string, b: string)
    requires Ascii(a)
    ensures Utf8Len(a + b) == |a| + Utf8Len(b)
  {
    Utf8Concat(a, b);
    LiteralLen(a);
  }

  lemma Then(s: string, a: string, b: string)
    requires Ascii(a)
    ensures Utf8Len(s + a + b) == Utf8Len(s) + |a| + Utf8Len(b)
  {
    Utf8Concat(s, a);
    Utf8Concat(s + a, b);
    LiteralLen(a);
  }

  lemma Closed(s: string)
    ensures Utf8Len(s + "}") == Utf8Len(s) + 1
  {
    Utf8Concat(s, "}");
    LiteralLen("}");
  }

  lemma PlanExact(plan: TaskPlan)
    ensures Utf8Len(PlanJson(plan)) == PlanSize(plan)
  {
    hide Utf8Len, StringsJson, StringsSize;
    var a := StringsJson(plan.steps);
    StringsExact(plan.steps);
    StringsExact(plan.intendedOutputs);
    Two("{\"steps\":", a);
    Then("{\"steps\":" + a, ",\"intended_outputs\":", StringsJson(plan.intendedOutputs));
    Closed("{\"steps\":" + a + ",\"intended_outputs\":" + StringsJson(plan.intendedOutputs));
  }

  lemma CheckpointExact(checkpoint: TaskCheckpoint)
    ensures Utf8Len(CheckpointJson(checkpoint)) == CheckpointSize(checkpoint)
  {
    hide Utf8Len, StringJson, StringSize, NumberJson, NumberSize;
    var a, b := StringJson(checkpoint.sessionId), NumberJson(checkpoint.completedTurns);
    StringExact(checkpoint.sessionId);
    NumberExact(checkpoint.completedTurns);
    Two("{\"session_id\":", a);
    Then("{\"session_id\":" + a, ",\"completed_turns\":", b);
    var s := "{\"session_id\":" + a + ",\"completed_turns\":" + b;
    if checkpoint.sessionSha256.Some? {
      var c := StringJson(checkpoint.sessionSha256.value);
      StringExact(checkpoint.sessionSha256.value);
      Then(s, ",\"session_sha256\":", c);
      assert s + ",\"session_sha256\":" + c == s + (",\"session_sha256\":" + c);
      Closed(s + (",\"session_sha256\":" + c));
    } else {
      assert s + "" == s;
      Closed(s);
    }
  }

  lemma BareKind(kind: EventKind)
    requires kind.DidStart? || kind.DidResume? || kind.DidPause? || kind.DidCancel?
    ensures Utf8Len(KindJson(kind)) == KindSize(kind)
  {
    hide Utf8Len;
    LiteralLen(KindJson(kind));
  }

  lemma PlanKind(plan: TaskPlan)
    ensures var kind := PlanUpdated(plan);
      Utf8Len(KindJson(kind)) == KindSize(kind)
  {
    hide Utf8Len, PlanJson, CheckpointJson, StringJson, StringsJson, PlanSize, CheckpointSize, StringSize, StringsSize;
    PlanExact(plan);
    Wrapped("{\"type\":\"plan_updated\",\"plan\":", PlanJson(plan));
  }

  lemma CheckpointKind(checkpoint: TaskCheckpoint)
    ensures var kind := Checkpointed(checkpoint);
      Utf8Len(KindJson(kind)) == KindSize(kind)
  {
    hide Utf8Len, PlanJson, CheckpointJson, StringJson, StringsJson, PlanSize, CheckpointSize, StringSize, StringsSize;
    CheckpointExact(checkpoint);
    Wrapped("{\"type\":\"checkpointed\",\"checkpoint\":", CheckpointJson(checkpoint));
  }

  lemma RequestKind(id: string)
    ensures var kind := ApprovalRequested(id);
      Utf8Len(KindJson(kind)) == KindSize(kind)
  {
    hide Utf8Len, PlanJson, CheckpointJson, StringJson, StringsJson, PlanSize, CheckpointSize, StringSize, StringsSize;
    StringExact(id);
    Wrapped("{\"type\":\"approval_requested\",\"request_id\":", StringJson(id));
  }

  lemma AnswerKind(id: string, allowed: bool)
    ensures var kind := ApprovalResolved(id, allowed);
      Utf8Len(KindJson(kind)) == KindSize(kind)
  {
    hide Utf8Len, PlanJson, CheckpointJson, StringJson, StringsJson, PlanSize, CheckpointSize, StringSize, StringsSize;
    StringExact(id);
    var answer := if allowed then "true" else "false";
    Two("{\"type\":\"approval_resolved\",\"request_id\":", StringJson(id));
    LiteralLen(answer);
    var s := "{\"type\":\"approval_resolved\",\"request_id\":" + StringJson(id);
    Then(s, ",\"allowed\":", answer);
    Closed(s + ",\"allowed\":" + answer);
  }

  lemma CompleteKind(ids: seq<string>)
    ensures var kind := DidComplete(ids);
      Utf8Len(KindJson(kind)) == KindSize(kind)
  {
    hide Utf8Len, PlanJson, CheckpointJson, StringJson, StringsJson, PlanSize, CheckpointSize, StringSize, StringsSize;
    StringsExact(ids);
    Wrapped("{\"type\":\"completed\",\"output_version_ids\":", StringsJson(ids));
  }

  lemma FailKind(reason: string)
    ensures var kind := DidFail(reason);
      Utf8Len(KindJson(kind)) == KindSize(kind)
  {
    hide Utf8Len, PlanJson, CheckpointJson, StringJson, StringsJson, PlanSize, CheckpointSize, StringSize, StringsSize;
    StringExact(reason);
    Wrapped("{\"type\":\"failed\",\"reason\":", StringJson(reason));
  }

  /** The limit on events counts the text of the event kind. */
  lemma KindExact(kind: EventKind)
    ensures Utf8Len(KindJson(kind)) == KindSize(kind)
  {
    hide Utf8Len, KindJson, KindSize;
    match kind
    case PlanUpdated(plan) => PlanKind(plan);
    case Checkpointed(checkpoint) => CheckpointKind(checkpoint);
    case ApprovalRequested(id) => RequestKind(id);
    case ApprovalResolved(id, allowed) => AnswerKind(id, allowed);
    case DidComplete(ids) => CompleteKind(ids);
    case DidFail(reason) => FailKind(reason);
    case _ => BareKind(kind);
  }

  lemma Wrapped(a: string, b: string)
    requires Ascii(a)
    ensures Utf8Len(a + b + "}") == |a| + Utf8Len(b) + 1
  {
    Two(a, b);
    Closed(a + b);
  }

  lemma EventExact(event: TaskEvent)
    ensures Utf8Len(EventJson(event)) == 21 + NumberSize(event.sequence) + KindSize(event.kind)
  {
    hide Utf8Len, NumberJson, KindJson, NumberSize, KindSize;
    NumberExact(event.sequence);
    KindExact(event.kind);
    var s := "{\"sequence\":" + NumberJson(event.sequence);
    Two("{\"sequence\":", NumberJson(event.sequence));
    Then(s, ",\"kind\":", KindJson(event.kind));
    Closed(s + ",\"kind\":" + KindJson(event.kind));
  }

  lemma {:induction false} EventTexts(events: seq<TaskEvent>)
    ensures TextsTotal(seq(|events|, i requires 0 <= i < |events| => EventJson(events[i]))) == EventsTotal(events)
  {
    hide Utf8Len, EventJson, KindSize, NumberSize;
    if events != [] {
      var front := events[..|events| - 1];
      EventTexts(front);
      EventExact(events[|events| - 1]);
      var texts := seq(|events|, i requires 0 <= i < |events| => EventJson(events[i]));
      assert texts[..|events| - 1] == seq(|front|, i requires 0 <= i < |front| => EventJson(front[i]));
    }
  }

  lemma EventsExact(events: seq<TaskEvent>)
    ensures Utf8Len(EventsJson(events)) == ArraySize(|events|, EventsTotal(events))
  {
    hide Utf8Len, ArrayJson, EventJson;
    EventTexts(events);
    ArrayExact(seq(|events|, i requires 0 <= i < |events| => EventJson(events[i])));
  }

  lemma BudgetExact(budget: TaskBudget)
    ensures Utf8Len(BudgetJson(budget)) == BudgetSize(budget)
  {
    hide Utf8Len, NumberJson, NumberSize;
    NumberExact(budget.maxModelSteps);
    NumberExact(budget.maxToolCalls);
    NumberExact(budget.timeoutSeconds);
    var a := "{\"max_model_steps\":" + NumberJson(budget.maxModelSteps);
    Two("{\"max_model_steps\":", NumberJson(budget.maxModelSteps));
    Then(a, ",\"max_tool_calls\":", NumberJson(budget.maxToolCalls));
    var b := a + ",\"max_tool_calls\":" + NumberJson(budget.maxToolCalls);
    Then(b, ",\"timeout_seconds\":", NumberJson(budget.timeoutSeconds));
    Closed(b + ",\"timeout_seconds\":" + NumberJson(budget.timeoutSeconds));
  }

  lemma SpecJsonExact(spec: TaskSpec)
    ensures Utf8Len(SpecJson(spec)) == SpecSize(spec)
  {
    hide Utf8Len, StringJson, StringsJson, BudgetJson, StringSize, StringsSize, BudgetSize;
    StringExact(spec.id);
    StringExact(spec.owner);
    StringExact(spec.workspaceId);
    StringExact(spec.prompt);
    StringsExact(spec.inputVersionIds);
    BudgetExact(spec.budget);
    var a := "{\"id\":" + StringJson(spec.id);
    Two("{\"id\":", StringJson(spec.id));
    Then(a, ",\"owner\":", StringJson(spec.owner));
    var b := a + ",\"owner\":" + StringJson(spec.owner);
    Then(b, ",\"workspace_id\":", StringJson(spec.workspaceId));
    var c := b + ",\"workspace_id\":" + StringJson(spec.workspaceId);
    Then(c, ",\"prompt\":", StringJson(spec.prompt));
    var d := c + ",\"prompt\":" + StringJson(spec.prompt);
    Then(d, ",\"input_version_ids\":", StringsJson(spec.inputVersionIds));
    var e := d + ",\"input_version_ids\":" + StringsJson(spec.inputVersionIds);
    Then(e, ",\"budget\":", BudgetJson(spec.budget));
    Closed(e + ",\"budget\":" + BudgetJson(spec.budget));
  }

  lemma StatusExact(status: TaskStatus)
    ensures Utf8Len(StatusJson(status)) == |StatusName(status)| + 2
  {
    LiteralLen(StatusJson(status));
  }

  lemma HeadExact(t: Task)
    ensures Utf8Len(HeadJson(t)) == 38 + NumberSize(t.schemaVersion) + SpecSize(t.spec) + |StatusName(t.status)|
  {
    hide Utf8Len, NumberJson, SpecJson, StatusJson, NumberSize, SpecSize, StatusName;
    NumberExact(t.schemaVersion);
    SpecJsonExact(t.spec);
    StatusExact(t.status);
    var a := "{\"schema_version\":" + NumberJson(t.schemaVersion);
    Two("{\"schema_version\":", NumberJson(t.schemaVersion));
    Then(a, ",\"spec\":", SpecJson(t.spec));
    Then(a + ",\"spec\":" + SpecJson(t.spec), ",\"status\":", StatusJson(t.status));
  }

  lemma ProjectionExact(t: Task)
    ensures Utf8Len(ProjectionJson(t)) == 42 +
      (if t.plan.Some? then PlanSize(t.plan.value) else 4) +
      (if t.checkpoint.Some? then CheckpointSize(t.checkpoint.value) else 4) +
      (if t.pendingApproval.Some? then StringSize(t.pendingApproval.value) else 4)
  {
    hide Utf8Len, PlanJson, CheckpointJson, StringJson, PlanSize, CheckpointSize, StringSize;
    LiteralLen("null");
    var plan := if t.plan.Some? then PlanJson(t.plan.value) else "null";
    if t.plan.Some? { PlanExact(t.plan.value); }
    var checkpoint := if t.checkpoint.Some? then CheckpointJson(t.checkpoint.value) else "null";
    if t.checkpoint.Some? { CheckpointExact(t.checkpoint.value); }
    var pending := if t.pendingApproval.Some? then StringJson(t.pendingApproval.value) else "null";
    if t.pendingApproval.Some? { StringExact(t.pendingApproval.value); }
    Two(",\"plan\":", plan);
    Then(",\"plan\":" + plan, ",\"checkpoint\":", checkpoint);
    Then(",\"plan\":" + plan + ",\"checkpoint\":" + checkpoint, ",\"pending_approval\":", pending);
  }

  /** No record that can be built has a text longer than what is read back. */
  lemma TextFits(t: Task)
    requires Consistent(t)
    ensures Utf8Len(RecordJson(t)) <= MAX_TASK_RECORD_BYTES
  {
    hide Consistent, RecordJson, RecordSize, Utf8Len;
    RecordExact(t);
    RecordFits(t);
  }

  /** The limit on records counts the text of the record. */
  lemma RecordExact(t: Task)
    ensures Utf8Len(RecordJson(t)) == RecordSize(t)
  {
    hide Utf8Len, HeadJson, ProjectionJson, EventsJson;
    hide NumberSize, SpecSize, StatusName, PlanSize, CheckpointSize, StringSize, ArraySize, EventsTotal;
    HeadExact(t);
    ProjectionExact(t);
    EventsExact(t.events);
    var s := HeadJson(t) + ProjectionJson(t);
    Utf8Concat(HeadJson(t), ProjectionJson(t));
    Then(s, ",\"events\":", EventsJson(t.events));
    Closed(s + ",\"events\":" + EventsJson(t.events));
  }
}
