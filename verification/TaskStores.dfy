/** A store of task records: one encoded record per id, replaced only by records that extend its history. The directory is
    a map from ids to file contents, and replacing a file is atomic. */
module TaskStores {
  import opened Wrappers
  import opened TaskRecords

  type Files = map<string, Stored>

  datatype StoreError = TaskFailed(error: TaskError) | NotFound(id: string) | Conflict(id: string) | WriteFailed

  // ----- the operations as functions -----

  /** `load`. */
  function Loaded(files: Files, id: string): Result<Task, StoreError> {
    if !FileIdOk(id) then Err(TaskFailed(InvalidField("id")))
    else if id !in files then Err(NotFound(id))
    else
      var task := Restored(files[id]);
      if task.Err? then Err(TaskFailed(task.error))
      else if task.value.spec.id != id then Err(Conflict(id))
      else Ok(task.value)
  }

  /** What a new version of a record may replace: nothing, or an earlier version with the same specification. */
  predicate Extends(existing: Task, task: Task) {
    existing.spec == task.spec && existing.events <= task.events
  }

  /** `save`; `writes` tells whether the file could be replaced. */
  function Saved(files: Files, task: Task, writes: bool): Result<Files, StoreError> {
    var id := task.spec.id;
    if !FileIdOk(id) then Err(TaskFailed(InvalidField("id")))
    else
      var checked := Restored(Encoded(task));
      if checked.Err? then Err(TaskFailed(checked.error))
      else
        var existing := Loaded(files, id);
        if existing.Ok? && !Extends(existing.value, task) then Err(Conflict(id))
        else if existing.Err? && !existing.error.NotFound? then Err(existing.error)
        else if !writes then Err(WriteFailed)
        else Ok(files[id := Encoded(task)])
  }

  // ----- what saving guarantees -----

  /** A saved record is what is loaded next, and no other id is touched. */
  lemma SaveThenLoad(files: Files, task: Task, writes: bool, other: string)
    requires Saved(files, task, writes).Ok?
    ensures var after := Saved(files, task, writes).value;
      && Loaded(after, task.spec.id) == Ok(task.(schemaVersion := TASK_SCHEMA_VERSION))
      && (other != task.spec.id ==> Loaded(after, other) == Loaded(files, other))
  {
    hide Replayed, NewTask, RecordSize;
  }

  /** A record that `new` and appends built can be saved exactly when nothing is stored under its id yet or what is
      stored is an earlier version of it. */
  lemma SaveExact(files: Files, task: Task)
    requires Consistent(task)
    ensures Saved(files, task, true).Ok? <==>
      Loaded(files, task.spec.id) == Err(NotFound(task.spec.id)) ||
      (Loaded(files, task.spec.id).Ok? && Extends(Loaded(files, task.spec.id).value, task))
  {
    hide Consistent, RecordSize, Restored, SpecDefect;
    RecordFits(task);
    SchemaOf(task);
    RestoreExact(task, RecordSize(task));
    SpecNamesFile(task.spec);
  }

  lemma SpecNamesFile(spec: TaskSpec)
    requires NewTask(spec).Ok?
    ensures FileIdOk(spec.id)
  {
  }

  /** One attempted save: a refused one changes nothing. */
  datatype Attempt = Attempt(task: Task, writes: bool)

  function SavedAll(files: Files, attempts: seq<Attempt>): Files {
    if attempts == [] then files
    else
      var before := SavedAll(files, attempts[..|attempts| - 1]);
      var last := attempts[|attempts| - 1];
      var after := Saved(before, last.task, last.writes);
      if after.Ok? then after.value else before
  }

  /** Once a record is stored, whatever saves are attempted, by however many writers, what is stored under its id is
      that record with its history extended and its specification unchanged. */
  lemma {:induction false} HistoriesChain(files: Files, attempts: seq<Attempt>, id: string)
    requires Loaded(files, id).Ok?
    ensures Loaded(SavedAll(files, attempts), id).Ok?
    ensures Extends(Loaded(files, id).value, Loaded(SavedAll(files, attempts), id).value)
  {
    hide Loaded, Saved;
    if attempts != [] {
      var front, last := attempts[..|attempts| - 1], attempts[|attempts| - 1];
      HistoriesChain(files, front, id);
      var before := SavedAll(files, front);
      if Saved(before, last.task, last.writes).Ok? { SaveExtends(before, last.task, last.writes, id); }
    }
  }

  lemma SaveExtends(files: Files, task: Task, writes: bool, id: string)
    requires Loaded(files, id).Ok? && Saved(files, task, writes).Ok?
    ensures var after := Saved(files, task, writes).value;
      Loaded(after, id).Ok? && Extends(Loaded(files, id).value, Loaded(after, id).value)
  {
    SaveThenLoad(files, task, writes, id);
    hide Restored, RecordSize;
  }

  /** Of two versions that both extend what is stored but neither of which extends the other, only the one saved
      first is kept. */
  lemma DivergedSaveRefused(files: Files, first: Task, second: Task)
    requires Saved(files, first, true).Ok? && first.spec.id == second.spec.id
    requires first.schemaVersion == TASK_SCHEMA_VERSION && !Extends(first, second)
    ensures Saved(Saved(files, first, true).value, second, true).Err?
  {
    SaveThenLoad(files, first, true, "");
    hide Restored, RecordSize;
  }

  // ----- the store itself -----

  class TaskStore {
    var files: Files

    constructor ()
      ensures files == map[]
    {
      files := map[];
    }

    method Load(id: string) returns (r: Result<Task, StoreError>)
      ensures r == Loaded(files, id)
    {
      if !FileIdOk(id) { return Err(TaskFailed(InvalidField("id"))); }
      if id !in files { return Err(NotFound(id)); }
      var task := Restore(files[id]);
      if task.Err? { return Err(TaskFailed(task.error)); }
      if task.value.spec.id != id { return Err(Conflict(id)); }
      r := Ok(task.value);
    }

    method Save(task: TaskRecord, writes: bool) returns (err: Option<StoreError>)
      modifies this
      ensures match Saved(old(files), old(task.State()), writes)
        case Ok(after) => err.None? && files == after
        case Err(e) => err == Some(e) && files == old(files)
    {
      hide Restored, RecordSize;
      var id := task.spec.id;
      if !FileIdOk(id) { return Some(TaskFailed(InvalidField("id"))); }
      var encoded := Encoded(task.State());
      var checked := Restore(encoded);
      if checked.Err? { return Some(TaskFailed(checked.error)); }
      var existing := Load(id);
      match existing {
        case Ok(stored) =>
          if stored.spec != task.spec || !(stored.events <= task.events) { return Some(Conflict(id)); }
        case Err(NotFound(_)) =>
        case Err(e) => return Some(e);
      }
      if !writes { return Some(WriteFailed); }
      files := files[id := encoded];
      err := None;
    }
  }
}
