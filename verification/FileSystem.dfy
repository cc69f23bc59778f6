/** The guest filesystem: a tree with incrementally kept inode and byte counters under fixed limits. */
module FileSystem {
  import opened Wrappers
  import opened OrderedMap
  import opened Values
  import opened GuestPaths
  import opened FileTree
  import FlatProgram
  import FlatVm

  datatype ResourceLimits = ResourceLimits(maxInodes: nat, maxBytes: nat, maxProcesses: nat, maxSteps: nat)

  datatype SnapshotDefect =
    | SchemaVersion | VmId | TooManyEntries | InodeLimit | ByteLimit | ProcessLimit | StepLimit
    | PathTooLong | PathTooDeep | BytesOverQuota | RootOrDuplicate | DirectoryWithBytes

  datatype RuntimeError =
    | InvalidPath(path: string, problem: PathProblem)
    | NotFound(path: string)
    | AlreadyExists(path: string)
    | NotDirectory(path: string)
    | IsDirectory(path: string)
    | ParentMissing(path: string)
    | InvalidLimits(resource: string, minimum: nat, actual: nat)
    | InvalidProgram(rejection: FlatProgram.ProgramError)
    | InvalidSnapshot(defect: SnapshotDefect)
    | QuotaExceeded(resource: string, limit: nat)
    | ProcessNotFound(pid: nat)
    | ProcessLimitReached(limit: nat)
    | InvalidParent(pid: nat)
    | ExecutionLimitExceeded(limit: nat)

  /** The filesystem as a value. */
  datatype Fs = Fs(root: Node, inodes: nat, bytes: nat, limits: ResourceLimits)

  datatype DirectoryEntry = DirectoryEntry(name: string, directory: bool, size: nat)

  // ----- the operations as functions -----

  /** `write_file` at a resolved path, checks in the order they are made. */
  function WrittenAt(fs: Fs, names: Names, content: seq<byte>): Result<Fs, RuntimeError> {
    if names == [] then Err(IsDirectory("/"))
    else
      var parent := names[..|names| - 1];
      var found := NodeAt(fs.root, names);
      var oldSize := if found.Some? && found.value.File? then |found.value.content| else 0;
      if found.Some? && found.value.Directory? then Err(IsDirectory(Display(names)))
      else if oldSize > fs.bytes then Err(QuotaExceeded("file bytes", fs.bytes))
      else if fs.bytes - oldSize + |content| > fs.limits.maxBytes then Err(QuotaExceeded("file bytes", fs.limits.maxBytes))
      else if found.None? && fs.inodes >= fs.limits.maxInodes then Err(QuotaExceeded("inodes", fs.limits.maxInodes))
      else
        var above := NodeAt(fs.root, parent);
        if above.None? then Err(ParentMissing(Display(parent)))
        else if above.value.File? then Err(NotDirectory(Display(parent)))
        else Ok(Fs(PutFile(fs.root, names, content), fs.inodes + if found.None? then 1 else 0,
                   fs.bytes - oldSize + |content|, fs.limits))
  }

  function Written(fs: Fs, path: string, content: seq<byte>): Result<Fs, RuntimeError> {
    var names := Normalize(path, "/");
    if names.Err? then Err(InvalidPath(path, names.error)) else WrittenAt(fs, names.value, content)
  }

  /** `mkdir` at a resolved path. */
  function MadeAt(fs: Fs, names: Names, recursive: bool): Result<Fs, RuntimeError> {
    if names == [] then Ok(fs)
    else
      var reached := Descend(fs.root, names, 0);
      match reached
      case Blocked(index) => DescendLooks(fs.root, names, 0); Err(NotDirectory(Display(names[..index])))
      case Found(node) => if node.Directory? then Ok(fs) else Err(AlreadyExists(Display(names)))
      case Missing(index) =>
        DescendLooks(fs.root, names, 0);
        if !recursive && index + 1 != |names| then Err(ParentMissing(Display(names)))
        else if fs.inodes + (|names| - index) > fs.limits.maxInodes then Err(QuotaExceeded("inodes", fs.limits.maxInodes))
        else Ok(fs.(root := MakeDirs(fs.root, names, 0), inodes := fs.inodes + (|names| - index)))
  }

  function Made(fs: Fs, path: string, recursive: bool): Result<Fs, RuntimeError> {
    var names := Normalize(path, "/");
    if names.Err? then Err(InvalidPath(path, names.error)) else MadeAt(fs, names.value, recursive)
  }

  const WORKSPACE: Names := ["workspace"]
  const TMP: Names := ["tmp"]
  const HOME: Names := ["home"]

  // ----- the invariant -----

  /** The counters count the tree, within the limits. */
  predicate Accounted(fs: Fs) {
    && fs.root.Directory?
    && fs.inodes == Inodes(fs.root) <= fs.limits.maxInodes
    && fs.bytes == FileBytes(fs.root) <= fs.limits.maxBytes
    && 4 <= fs.limits.maxInodes
  }

  /** Names in the tree can be written in a path. */
  ghost predicate Tidy(root: Node) {
    forall names :: Look(root, names).Some? ==> AllProper(names)
  }

  predicate HasDefaults(root: Node) {
    Look(root, WORKSPACE) == Some(Dir) && Look(root, TMP) == Some(Dir) && Look(root, HOME) == Some(Dir)
  }

  ghost predicate FsOk(fs: Fs) {
    Accounted(fs) && Tidy(fs.root) && HasDefaults(fs.root)
  }

  // ----- what each operation means -----

  /** What reading a path must answer: the content of the file it stands for, or why there is none. */
  ghost predicate ReadMeans(root: Node, path: string, r: Result<seq<byte>, RuntimeError>) {
    match Normalize(path, "/")
    case Err(e) => r == Err(InvalidPath(path, e))
    case Ok(names) =>
      && (forall c :: r == Ok(c) <==> Look(root, names) == Some(Content(c)))
      && (r.Err? ==> r.error == if Look(root, names).None? then NotFound(Display(names)) else IsDirectory(Display(names)))
  }

  /** The entry names what stands below the directory, with its kind and size. */
  ghost predicate EntrySeen(root: Node, names: Names, entry: DirectoryEntry) {
    match Look(root, names + [entry.name])
    case None => false
    case Some(Dir) => entry.directory && entry.size == 0
    case Some(Content(c)) => !entry.directory && entry.size == |c|
  }

  ghost predicate HasEntry(listing: seq<DirectoryEntry>, name: string) {
    exists i :: 0 <= i < |listing| && listing[i].name == name
  }

  /** The listing has one entry for everything right below the directory, in the order of names. */
  ghost predicate Lists(root: Node, names: Names, listing: seq<DirectoryEntry>) {
    && (forall i, j :: 0 <= i < j < |listing| ==> Less(listing[i].name, listing[j].name))
    && (forall i :: 0 <= i < |listing| ==> EntrySeen(root, names, listing[i]))
    && (forall name :: Look(root, names + [name]).Some? ==> HasEntry(listing, name))
  }

  /** What listing a path must answer. */
  ghost predicate ListMeans(root: Node, path: string, r: Result<seq<DirectoryEntry>, RuntimeError>) {
    match Normalize(path, "/")
    case Err(e) => r == Err(InvalidPath(path, e))
    case Ok(names) =>
      match Look(root, names)
      case None => r == Err(NotFound(Display(names)))
      case Some(Content(_)) => r == Err(NotDirectory(Display(names)))
      case Some(Dir) => r.Ok? && Lists(root, names, r.value)
  }

  /** A path has one answer and a directory one listing. */
  lemma OneAnswer(root: Node, path: string)
    ensures forall a, b :: ReadMeans(root, path, a) && ReadMeans(root, path, b) ==> a == b
    ensures forall a, b :: ListMeans(root, path, a) && ListMeans(root, path, b) ==> a == b
  {
    hide Look, Lists;
    forall a, b | ReadMeans(root, path, a) && ReadMeans(root, path, b) ensures a == b {
      if a.Ok? { assert a == Ok(a.value); }
      if b.Ok? { assert b == Ok(b.value); }
    }
    forall a, b | ListMeans(root, path, a) && ListMeans(root, path, b) ensures a == b {
      if a.Ok? && b.Ok? { OneListing(root, Normalize(path, "/").value, a.value, b.value); }
    }
  }

  lemma OneListing(root: Node, names: Names, a: seq<DirectoryEntry>, b: seq<DirectoryEntry>)
    requires Lists(root, names, a) && Lists(root, names, b)
    ensures a == b
  {
    hide Look;
    var x, y := Named(a), Named(b);
    forall name ensures name in x <==> name in y {
      NameListed(root, names, a, name);
      NameListed(root, names, b, name);
    }
    AscendingUnique(x, y);
    forall i | 0 <= i < |a| ensures a[i] == b[i] {
      assert x[i] == y[i];
      assert EntrySeen(root, names, a[i]) && EntrySeen(root, names, b[i]);
    }
  }

  function Named(listing: seq<DirectoryEntry>): seq<string> {
    seq(|listing|, i requires 0 <= i < |listing| => listing[i].name)
  }

  lemma NameListed(root: Node, names: Names, listing: seq<DirectoryEntry>, name: string)
    requires Lists(root, names, listing)
    ensures name in Named(listing) <==> Look(root, names + [name]).Some?
  {
    hide Look;
    if Look(root, names + [name]).Some? {
      assert HasEntry(listing, name);
      var i :| 0 <= i < |listing| && listing[i].name == name;
      assert Named(listing)[i] == name;
    }
    if name in Named(listing) {
      var i :| 0 <= i < |listing| && Named(listing)[i] == name;
      assert EntrySeen(root, names, listing[i]);
    }
  }

  /** After a write every path that stands for the file written reads the new content, and every other path reads what
      it read before. */
  ghost predicate ReadsWritten(was: Node, now: Node, path: string, content: seq<byte>) {
    forall other, r :: ReadMeans(now, other, r) <==>
      if Normalize(other, "/") == Normalize(path, "/") then r == Ok(content) else ReadMeans(was, other, r)
  }

  lemma WrittenReads(fs: Fs, path: string, content: seq<byte>)
    requires Written(fs, path, content).Ok?
    ensures ReadsWritten(fs.root, Written(fs, path, content).value.root, path, content)
  {
    hide PutFile, NodeAt, Normalize, Display;
    var names := Normalize(path, "/").value;
    var now := Written(fs, path, content).value.root;
    assert names != [] && Look(fs.root, names[..|names| - 1]) == Some(Dir) && Look(fs.root, names) != Some(Dir);
    WriteLooks(fs, names, content);
    hide Look;
    forall other, r
      ensures ReadMeans(now, other, r) <==>
        if Normalize(other, "/") == Normalize(path, "/") then r == Ok(content) else ReadMeans(fs.root, other, r)
    {
      if Normalize(other, "/") == Normalize(path, "/") {
        assert Look(now, names) == Some(Content(content));
        if ReadMeans(now, other, r) { assert r == Ok(content) <==> Look(now, names) == Some(Content(content)); }
      }
    }
  }

  /** Making directories changes no file. */
  ghost predicate FilesStay(was: Node, now: Node) {
    forall other, c :: ReadMeans(now, other, Ok(c)) <==> ReadMeans(was, other, Ok(c))
  }

  lemma MadeReads(fs: Fs, path: string, recursive: bool)
    requires Made(fs, path, recursive).Ok?
    ensures FilesStay(fs.root, Made(fs, path, recursive).value.root)
  {
    hide NodeAt, Normalize, Display, Descend, Clear, MakeDirs, Look;
    var names := Normalize(path, "/").value;
    var now := Made(fs, path, recursive).value.root;
    MadeSights(fs, names, recursive);
    forall other, c ensures ReadMeans(now, other, Ok(c)) <==> ReadMeans(fs.root, other, Ok(c)) {
      ReadContent(now, other, c);
      ReadContent(fs.root, other, c);
    }
  }

  lemma ReadContent(root: Node, path: string, c: seq<byte>)
    ensures ReadMeans(root, path, Ok(c)) <==>
      Normalize(path, "/").Ok? && Look(root, Normalize(path, "/").value) == Some(Content(c))
  {
    hide Look, Normalize;
    var r: Result<seq<byte>, RuntimeError> := Ok(c);
    assert forall d :: r == Ok(d) <==> c == d;
  }

  lemma MadeSights(fs: Fs, names: Names, recursive: bool)
    requires MadeAt(fs, names, recursive).Ok?
    ensures forall q, c :: Look(MadeAt(fs, names, recursive).value.root, q) == Some(Content(c)) <==> Look(fs.root, q) == Some(Content(c))
  {
    if names != [] && Descend(fs.root, names, 0).Missing? {
      ClearPath(fs.root, names);
      MakeDirsIsMade(fs.root, names);
      forall q | q <= names && Look(fs.root, q).Some? ensures Look(fs.root, q) == Some(Dir) { assert q == names[..|q|]; }
    }
  }

  /** What writing at a resolved path must do, in the order the checks are made. */
  ghost predicate WriteMeans(fs: Fs, names: Names, content: seq<byte>, r: Result<Fs, RuntimeError>) {
    var was := Look(fs.root, names);
    if names == [] || was == Some(Dir) then r == Err(IsDirectory(Display(names)))
    else
      var parent := Look(fs.root, names[..|names| - 1]);
      var freed := if was.Some? then |was.value.content| else 0;
      if FileBytes(fs.root) + |content| > fs.limits.maxBytes + freed then r == Err(QuotaExceeded("file bytes", fs.limits.maxBytes))
      else if was.None? && Inodes(fs.root) == fs.limits.maxInodes then r == Err(QuotaExceeded("inodes", fs.limits.maxInodes))
      else if parent.None? then r == Err(ParentMissing(Display(names[..|names| - 1])))
      else if parent != Some(Dir) then r == Err(NotDirectory(Display(names[..|names| - 1])))
      else
        && r.Ok? && Accounted(r.value) && r.value.limits == fs.limits
        && forall q :: Look(r.value.root, q) == if q == names then Some(Content(content)) else Look(fs.root, q)
  }

  lemma WriteObeys(fs: Fs, names: Names, content: seq<byte>, r: Result<Fs, RuntimeError>)
    requires Accounted(fs)
    ensures r == WrittenAt(fs, names, content) <==> WriteMeans(fs, names, content, r)
  {
    var made := WrittenAt(fs, names, content);
    hide Inodes, FileBytes, PutFile;
    FoundFits(fs, names);
    WriteExact(fs, names, content);
    if names != [] && Look(fs.root, names).Some? && Look(fs.root, names) != Some(Dir) { FileWithin(fs.root, names); }
    if WriteMeans(fs, names, content, r) && r.Ok? { SameFs(r.value, made.value); }
  }

  /** The tree and the limits determine an accounted filesystem. */
  lemma SameFs(a: Fs, b: Fs)
    requires Accounted(a) && Accounted(b) && a.limits == b.limits && forall q :: Look(a.root, q) == Look(b.root, q)
    ensures a == b
  {
    SameTree(a.root, b.root);
  }

  ghost predicate FileOn(root: Node, names: Names, k: nat) {
    k < |names| && Look(root, names[..k]).Some? && Look(root, names[..k]) != Some(Dir)
  }

  /** The path is there up to its first `k` names and no further. */
  ghost predicate FirstMissing(root: Node, names: Names, k: nat) {
    k < |names| && Look(root, names[..k]) == Some(Dir) && Look(root, names[..k + 1]).None?
  }

  /** What making a directory at a resolved path must do, in the order the checks are made. */
  ghost predicate MakeMeans(fs: Fs, names: Names, recursive: bool, r: Result<Fs, RuntimeError>) {
    if exists k: nat :: FileOn(fs.root, names, k) then
      exists k: nat :: FileOn(fs.root, names, k) && r == Err(NotDirectory(Display(names[..k])))
    else if Look(fs.root, names) == Some(Dir) then r == Ok(fs)
    else if Look(fs.root, names).Some? then r == Err(AlreadyExists(Display(names)))
    else exists k: nat :: FirstMissing(fs.root, names, k) && AddsFrom(fs, names, recursive, k, r)
  }

  ghost predicate AddsFrom(fs: Fs, names: Names, recursive: bool, k: nat, r: Result<Fs, RuntimeError>)
    requires k < |names|
  {
    if !recursive && k + 1 < |names| then r == Err(ParentMissing(Display(names)))
    else if Inodes(fs.root) + |names| - k > fs.limits.maxInodes then r == Err(QuotaExceeded("inodes", fs.limits.maxInodes))
    else r.Ok? && Accounted(r.value) && r.value.limits == fs.limits && MadeTree(fs.root, names, r.value.root)
  }

  lemma MakeObeys(fs: Fs, names: Names, recursive: bool, r: Result<Fs, RuntimeError>)
    requires Accounted(fs)
    ensures r == MadeAt(fs, names, recursive) <==> MakeMeans(fs, names, recursive, r)
  {
    hide Inodes, FileBytes, MakeDirs, MadeTree, Display, Look, NodeAt;
    MakeExact(fs, names, recursive);
    Descent(fs, names);
    var d := Descend(fs.root, names, 0);
    if d.Blocked? {
      assert FileOn(fs.root, names, d.index);
    } else if d.Missing? {
      var made := MadeAt(fs, names, recursive);
      assert FirstMissing(fs.root, names, d.index);
      assert AddsFrom(fs, names, recursive, d.index, made);
      if made.Ok? && r.Ok? && AddsFrom(fs, names, recursive, d.index, r) { SameMade(fs, names, r.value, made.value); }
    }
  }

  lemma SameMade(fs: Fs, names: Names, a: Fs, b: Fs)
    requires Accounted(a) && Accounted(b) && a.limits == b.limits
    requires MadeTree(fs.root, names, a.root) && MadeTree(fs.root, names, b.root)
    ensures a == b
  {
    hide Look, Inodes, FileBytes;
    SameFs(a, b);
  }

  /** How far a path can be followed, in terms of what stands on it; there is one place it can stop at. */
  lemma Descent(fs: Fs, names: Names)
    requires fs.root.Directory?
    ensures match Descend(fs.root, names, 0)
      case Blocked(k) => forall j: nat :: FileOn(fs.root, names, j) <==> j == k
      case Missing(k) =>
        && !(exists j: nat :: FileOn(fs.root, names, j)) && Look(fs.root, names).None?
        && forall j: nat :: FirstMissing(fs.root, names, j) <==> j == k
      case Found(node) =>
        && !(exists j: nat :: FileOn(fs.root, names, j))
        && Look(fs.root, names).Some? && (node.Directory? <==> Look(fs.root, names) == Some(Dir))
  {
    DescendLooks(fs.root, names, 0);
    assert names[0..] == names && names[..|names|] == names;
    var d := Descend(fs.root, names, 0);
    match d
    case Blocked(k) =>
      assert names[0..k] == names[..k];
      forall j: nat | FileOn(fs.root, names, j) ensures j == k { OneStop(fs.root, names, j, k); }
    case Missing(k) =>
      assert names[0..k] == names[..k] && names[0..k + 1] == names[..k + 1];
      forall j: nat ensures !FileOn(fs.root, names, j) {
        if FileOn(fs.root, names, j) { BelowMissing(fs.root, names, k, j); }
      }
      forall j: nat | FirstMissing(fs.root, names, j) ensures j == k {
        BelowMissing(fs.root, names, k, j);
        BelowMissing(fs.root, names, j, k);
      }
    case Found(node) =>
      forall j: nat ensures !FileOn(fs.root, names, j) {
        if FileOn(fs.root, names, j) { AncestorIsDir(fs.root, names, names[..j]); }
      }
  }

  lemma OneStop(root: Node, names: Names, j: nat, k: nat)
    requires FileOn(root, names, j) && FileOn(root, names, k)
    ensures j == k
  {
    if j < k { AncestorIsDir(root, names[..k], names[..j]); }
    if k < j { AncestorIsDir(root, names[..j], names[..k]); }
  }

  // ----- what writes and new directories do -----

  /** A write succeeds exactly when its parent is a directory, no directory is in the way and the result fits;
      it changes what stands at its path and nothing else, and the counters follow. */
  lemma WriteExact(fs: Fs, names: Names, content: seq<byte>)
    requires Accounted(fs)
    ensures var r := WrittenAt(fs, names, content);
      && (r.Ok? <==>
          && names != [] && Look(fs.root, names[..|names| - 1]) == Some(Dir) && Look(fs.root, names) != Some(Dir)
          && FileBytes(PutFile(fs.root, names, content)) <= fs.limits.maxBytes
          && Inodes(PutFile(fs.root, names, content)) <= fs.limits.maxInodes)
      && (r.Ok? ==> Accounted(r.value) && r.value.limits == fs.limits)
      && (r.Ok? ==> forall q :: Look(r.value.root, q) == if q == names then Some(Content(content)) else Look(fs.root, q))
  {
    hide Inodes, FileBytes, PutFile, NodeAt, Display;
    FoundFits(fs, names);
    WriteCosts(fs, names, content);
    if WrittenAt(fs, names, content).Ok? { WriteLooks(fs, names, content); }
  }

  lemma FoundFits(fs: Fs, names: Names)
    requires Accounted(fs)
    ensures names == [] ==> NodeAt(fs.root, names) == Some(fs.root)
    ensures var found := NodeAt(fs.root, names);
      found.Some? && found.value.File? ==> |found.value.content| <= fs.bytes
  {
    if NodeAt(fs.root, names).Some? { FileWithin(fs.root, names); }
  }

  lemma WriteLooks(fs: Fs, names: Names, content: seq<byte>)
    requires names != [] && Look(fs.root, names[..|names| - 1]) == Some(Dir) && Look(fs.root, names) != Some(Dir)
    ensures forall q :: Look(PutFile(fs.root, names, content), q) == if q == names then Some(Content(content)) else Look(fs.root, q)
    ensures PutFile(fs.root, names, content).Directory?
  {
    forall q ensures Look(PutFile(fs.root, names, content), q) == if q == names then Some(Content(content)) else Look(fs.root, q) {
      PutFileLooks(fs.root, names, content, q);
    }
  }

  lemma WriteCosts(fs: Fs, names: Names, content: seq<byte>)
    ensures names != [] && Look(fs.root, names[..|names| - 1]) == Some(Dir) && Look(fs.root, names) != Some(Dir) ==>
      var put, was := PutFile(fs.root, names, content), NodeAt(fs.root, names);
      && Inodes(put) == Inodes(fs.root) + (if was.None? then 1 else 0)
      && FileBytes(put) + (if was.None? then 0 else |was.value.content|) == FileBytes(fs.root) + |content|
  {
    if names != [] && Look(fs.root, names[..|names| - 1]) == Some(Dir) && Look(fs.root, names) != Some(Dir) {
      PutFileUse(fs.root, names, content);
    }
  }

  /** Making a directory succeeds exactly when no file is on the path, all ancestors are there or may be made, and
      the new inodes fit; it adds the path and its missing ancestors and changes nothing else. */
  lemma MakeExact(fs: Fs, names: Names, recursive: bool)
    requires Accounted(fs)
    ensures NoFileOn(fs.root, names) <==> Clear(fs.root, names, 0)
    ensures var r := MadeAt(fs, names, recursive);
      && (r.Ok? <==>
          && NoFileOn(fs.root, names)
          && (names == [] || recursive || Look(fs.root, names[..|names| - 1]) == Some(Dir))
          && Inodes(MakeDirs(fs.root, names, 0)) <= fs.limits.maxInodes)
      && (r.Ok? ==> Accounted(r.value) && r.value.limits == fs.limits && r.value.bytes == fs.bytes)
      && (r.Ok? ==> MadeTree(fs.root, names, r.value.root))
  {
    hide Inodes, FileBytes, MakeDirs, MadeTree, NoFileOn;
    ClearPath(fs.root, names);
    DescendLooks(fs.root, names, 0);
    assert names[0..] == names;
    var d := Descend(fs.root, names, 0);
    if Clear(fs.root, names, 0) {
      MakeDirsUse(fs.root, names, 0);
      MakeDirsIsMade(fs.root, names);
      if d.Missing? { ParentOfMissing(fs.root, names, d.index); } else { NothingMade(fs.root, names); }
    }
  }

  /** Everything there is on the path is a directory. */
  ghost predicate NoFileOn(root: Node, names: Names) {
    forall k :: 0 <= k <= |names| && Look(root, names[..k]).Some? ==> Look(root, names[..k]) == Some(Dir)
  }

  /** `made` is `root` with the path and all its ancestors as directories. */
  ghost predicate MadeTree(root: Node, names: Names, made: Node) {
    forall q :: Look(made, q) == if q <= names then Some(Dir) else Look(root, q)
  }

  lemma MakeDirsIsMade(root: Node, names: Names)
    requires Clear(root, names, 0)
    ensures MadeTree(root, names, MakeDirs(root, names, 0))
  {
    forall q ensures Look(MakeDirs(root, names, 0), q) == if q <= names then Some(Dir) else Look(root, q) {
      assert names[0..] == names;
      MakeDirsLooks(root, names, 0, q);
    }
  }

  lemma NothingMade(root: Node, names: Names)
    requires Descend(root, names, 0).Found? && Clear(root, names, 0)
    ensures MakeDirs(root, names, 0) == root && Look(root, names) == Some(Dir)
  {
    DescendLooks(root, names, 0);
    assert names[0..] == names;
    forall q | q < names ensures Look(root, q) == Some(Dir) { AncestorIsDir(root, names, q); }
    forall q ensures Look(MakeDirs(root, names, 0), q) == Look(root, q) {
      MakeDirsLooks(root, names, 0, q);
      if |q| == |names| && q <= names { assert q == names; }
    }
    SameTree(MakeDirs(root, names, 0), root);
  }

  lemma ClearPath(root: Node, names: Names)
    ensures NoFileOn(root, names) <==> Clear(root, names, 0)
  {
    DescendLooks(root, names, 0);
    assert names[0..] == names && names[..|names|] == names;
    var d := Descend(root, names, 0);
    if Clear(root, names, 0) {
      forall k | 0 <= k <= |names| && Look(root, names[..k]).Some? ensures Look(root, names[..k]) == Some(Dir) {
        if d.Missing? {
          BelowMissing(root, names, d.index, k);
        } else if k < |names| {
          AncestorIsDir(root, names, names[..k]);
        }
      }
    } else {
      var k := if d.Blocked? then d.index else |names|;
      assert names[0..k] == names[..k];
      assert Look(root, names[..k]).Some? && Look(root, names[..k]) != Some(Dir);
    }
  }

  lemma BelowMissing(root: Node, names: Names, index: nat, k: nat)
    requires index < |names| && k <= |names| && Look(root, names[..index]) == Some(Dir) && Look(root, names[..index + 1]).None?
    requires Look(root, names[..k]).Some?
    ensures k <= index && Look(root, names[..k]) == Some(Dir)
  {
    if k > index {
      if k > index + 1 { AncestorIsDir(root, names[..k], names[..index + 1]); }
    } else if k < index {
      AncestorIsDir(root, names[..index], names[..k]);
    }
  }

  lemma ParentOfMissing(root: Node, names: Names, index: nat)
    requires index < |names| && Look(root, names[..index]) == Some(Dir) && Look(root, names[..index + 1]).None?
    ensures Look(root, names[..|names| - 1]) == Some(Dir) <==> index + 1 == |names|
  {
    if Look(root, names[..|names| - 1]).Some? { BelowMissing(root, names, index, |names| - 1); }
  }

  // ----- runs -----

  datatype Change = Write(path: string, content: seq<byte>) | Make(path: string, recursive: bool)

  function Attempted(fs: Fs, change: Change): Result<Fs, RuntimeError> {
    match change
    case Write(path, content) => Written(fs, path, content)
    case Make(path, recursive) => Made(fs, path, recursive)
  }

  /** A failed operation changes nothing. */
  function Changed(fs: Fs, changes: seq<Change>): Fs {
    if changes == [] then fs
    else
      var before := Changed(fs, changes[..|changes| - 1]);
      var r := Attempted(before, changes[|changes| - 1]);
      if r.Ok? then r.value else before
  }

  lemma ChangeKeeps(fs: Fs, change: Change)
    requires FsOk(fs) && Attempted(fs, change).Ok?
    ensures FsOk(Attempted(fs, change).value) && Attempted(fs, change).value.limits == fs.limits
  {
    hide Accounted, WrittenAt, MadeAt, Look, Tidy, HasDefaults, Normalize, NoFileOn, MadeTree;
    NormalizeProper(change.path, "/");
    var names := Normalize(change.path, "/").value;
    var next := Attempted(fs, change).value;
    match change {
      case Write(_, content) =>
        WriteExact(fs, names, content);
        WrittenTidy(fs.root, names, content, next.root);
      case Make(_, recursive) =>
        MakeExact(fs, names, recursive);
        MadeTidy(fs.root, names, next.root);
    }
  }

  lemma WrittenTidy(root: Node, names: Names, content: seq<byte>, now: Node)
    requires Tidy(root) && HasDefaults(root) && AllProper(names) && Look(root, names) != Some(Dir)
    requires forall q :: Look(now, q) == if q == names then Some(Content(content)) else Look(root, q)
    ensures Tidy(now) && HasDefaults(now)
  {
    hide Look, AllProper;
  }

  lemma MadeTidy(root: Node, names: Names, now: Node)
    requires Tidy(root) && HasDefaults(root) && AllProper(names) && MadeTree(root, names, now)
    ensures Tidy(now) && HasDefaults(now)
  {
    hide Look, Proper;
    forall q | Look(now, q).Some? ensures AllProper(q) {}
  }

  /** After any sequence of operations the counters count the tree, the limits hold, every name can be written in
      a path, and the default directories are there. */
  lemma {:induction false} RunKeeps(fs: Fs, changes: seq<Change>)
    requires FsOk(fs)
    ensures FsOk(Changed(fs, changes)) && Changed(fs, changes).limits == fs.limits
  {
    if changes != [] {
      RunKeeps(fs, changes[..|changes| - 1]);
      var before := Changed(fs, changes[..|changes| - 1]);
      hide FsOk;
      if Attempted(before, changes[|changes| - 1]).Ok? { ChangeKeeps(before, changes[|changes| - 1]); }
    }
  }

  /** Nothing is ever removed, and a directory stays a directory. */
  lemma {:induction false} RunGrows(fs: Fs, changes: seq<Change>, q: Names)
    requires FsOk(fs) && Look(fs.root, q).Some?
    ensures var after := Look(Changed(fs, changes).root, q);
      after.Some? && (after == Some(Dir) <==> Look(fs.root, q) == Some(Dir))
  {
    if changes != [] {
      var front, change := changes[..|changes| - 1], changes[|changes| - 1];
      RunGrows(fs, front, q);
      RunKeeps(fs, front);
      var before := Changed(fs, front);
      hide Tidy, HasDefaults, Accounted, WrittenAt, MadeAt;
      if Attempted(before, change).Ok? {
        var names := Normalize(change.path, "/").value;
        match change {
          case Write(_, content) => WriteExact(before, names, content);
          case Make(_, recursive) =>
            MakeExact(before, names, recursive);
            if q <= names { assert names[..|q|] == q; }
        }
      }
    }
  }

  /** The outcome of a write, as the caller sees it. */
  ghost predicate WriteDone(was: Fs, path: string, content: seq<byte>, err: Option<RuntimeError>, now: Fs) {
    match Normalize(path, "/")
    case Err(e) => err == Some(InvalidPath(path, e))
    case Ok(names) => WriteMeans(was, names, content, Ended(err, now))
  }

  lemma WriteIsDone(was: Fs, path: string, content: seq<byte>)
    requires Accounted(was)
    ensures match Written(was, path, content)
      case Ok(now) => WriteDone(was, path, content, None, now)
      case Err(e) => WriteDone(was, path, content, Some(e), was)
  {
    hide WriteMeans, WrittenAt, Accounted;
    var names := Normalize(path, "/");
    if names.Ok? { WriteObeys(was, names.value, content, WrittenAt(was, names.value, content)); }
  }

  ghost predicate MakeDone(was: Fs, path: string, recursive: bool, err: Option<RuntimeError>, now: Fs) {
    match Normalize(path, "/")
    case Err(e) => err == Some(InvalidPath(path, e))
    case Ok(names) => MakeMeans(was, names, recursive, Ended(err, now))
  }

  lemma MakeIsDone(was: Fs, path: string, recursive: bool)
    requires Accounted(was)
    ensures match Made(was, path, recursive)
      case Ok(now) => MakeDone(was, path, recursive, None, now)
      case Err(e) => MakeDone(was, path, recursive, Some(e), was)
  {
    hide MakeMeans, MadeAt, Accounted;
    var names := Normalize(path, "/");
    if names.Ok? { MakeObeys(was, names.value, recursive, MadeAt(was, names.value, recursive)); }
  }

  function EntryOf(name: string, node: Node): DirectoryEntry {
    DirectoryEntry(name, node.Directory?, if node.File? then |node.content| else 0)
  }

  lemma EntriesListed(root: Node, names: Names, listing: seq<DirectoryEntry>)
    requires NodeAt(root, names).Some? && NodeAt(root, names).value.Directory?
    requires var entries := NodeAt(root, names).value.entries;
      |listing| == |entries.keys| && forall j :: 0 <= j < |listing| ==> listing[j] == EntryOf(entries.keys[j], entries.vals[j])
    ensures Lists(root, names, listing)
  {
    var entries := NodeAt(root, names).value.entries;
    forall i | 0 <= i < |listing| ensures EntrySeen(root, names, listing[i]) {
      LookAcross(root, names, [entries.keys[i]]);
      LookBelow(entries, [entries.keys[i]]);
      FoundAt(entries, entries.keys[i], i);
    }
    forall name | Look(root, names + [name]).Some? ensures HasEntry(listing, name) {
      LookAcross(root, names, [name]);
      LookBelow(entries, [name]);
      assert listing[LowerBound(entries.keys, name)].name == name;
    }
  }

  // ----- the filesystem itself -----

  class VirtualFileSystem {
    var root: Node
    var inodeCount: nat
    var byteCount: nat
    const limits: ResourceLimits

    /** An empty root; `Create` adds the default directories. */
    constructor Bare(limits: ResourceLimits)
      ensures State() == Fs(EMPTY, 1, 0, limits)
    {
      this.limits := limits;
      root := EMPTY;
      inodeCount := 1;
      byteCount := 0;
    }

    function State(): Fs
      reads this
    {
      Fs(root, inodeCount, byteCount, limits)
    }

    /** `write_file`. */
    method WriteFile(path: string, content: seq<byte>) returns (err: Option<RuntimeError>)
      modifies this
      ensures match Written(old(State()), path, content)
        case Ok(fs) => err.None? && State() == fs
        case Err(e) => err == Some(e) && State() == old(State())
      ensures err.None? ==> ReadsWritten(old(root), root, path, content)
      ensures old(Accounted(State())) ==> WriteDone(old(State()), path, content, err, State())
    {
      hide Accounted, WriteDone, ReadsWritten, Display, PutFile, Normalize;
      if Written(State(), path, content).Ok? { WrittenReads(State(), path, content); }
      if Accounted(State()) { WriteIsDone(State(), path, content); }
      var normalized := NormalizePath(path, "/");
      if normalized.Err? { return Some(InvalidPath(path, normalized.error)); }
      var names := normalized.value;
      if names == [] { return Some(IsDirectory("/")); }
      var parent := names[..|names| - 1];
      var found := NodeAt(root, names);
      if found.Some? && found.value.Directory? { return Some(IsDirectory(Display(names))); }
      var oldSize := if found.Some? then |found.value.content| else 0;
      if oldSize > byteCount { return Some(QuotaExceeded("file bytes", byteCount)); }
      var newBytes := byteCount - oldSize + |content|;
      if newBytes > limits.maxBytes { return Some(QuotaExceeded("file bytes", limits.maxBytes)); }
      if found.None? && inodeCount >= limits.maxInodes { return Some(QuotaExceeded("inodes", limits.maxInodes)); }
      var above := NodeAt(root, parent);
      if above.None? { return Some(ParentMissing(Display(parent))); }
      if above.value.File? { return Some(NotDirectory(Display(parent))); }
      root := PutFile(root, names, content);
      if found.None? { inodeCount := inodeCount + 1; }
      byteCount := newBytes;
      err := None;
    }

    /** `mkdir`. */
    method MakeDirectory(path: string, recursive: bool) returns (err: Option<RuntimeError>)
      modifies this
      ensures match Made(old(State()), path, recursive)
        case Ok(fs) => err.None? && State() == fs
        case Err(e) => err == Some(e) && State() == old(State())
      ensures err.None? ==> FilesStay(old(root), root)
      ensures old(Accounted(State())) ==> MakeDone(old(State()), path, recursive, err, State())
    {
      hide Accounted, MakeDone, FilesStay, Display, MakeDirs, Look, Normalize;
      if Made(State(), path, recursive).Ok? { MadeReads(State(), path, recursive); }
      if Accounted(State()) { MakeIsDone(State(), path, recursive); }
      var normalized := NormalizePath(path, "/");
      if normalized.Err? { return Some(InvalidPath(path, normalized.error)); }
      var names := normalized.value;
      if names == [] { return None; }
      var current := root;
      var i := 0;
      var firstMissing: Option<nat> := None;
      while i < |names|
        invariant 0 <= i <= |names| && Descend(root, names, 0) == Descend(current, names, i)
        invariant firstMissing.None?
      {
        if current.File? { return Some(NotDirectory(Display(names[..i]))); }
        var child := Get(current.entries, names[i]);
        if child.None? {
          firstMissing := Some(i);
          break;
        }
        current := child.value;
        i := i + 1;
      }
      if firstMissing.None? {
        return if current.Directory? then None else Some(AlreadyExists(Display(names)));
      }
      if !recursive && firstMissing.value + 1 != |names| { return Some(ParentMissing(Display(names))); }
      var missing := |names| - firstMissing.value;
      if inodeCount + missing > limits.maxInodes { return Some(QuotaExceeded("inodes", limits.maxInodes)); }
      root := MakeDirs(root, names, 0);
      inodeCount := inodeCount + missing;
      err := None;
    }

    /** `read_file`. */
    method ReadFile(path: string) returns (r: Result<seq<byte>, RuntimeError>)
      ensures ReadMeans(root, path, r)
    {
      var normalized := NormalizePath(path, "/");
      if normalized.Err? { return Err(InvalidPath(path, normalized.error)); }
      match NodeAt(root, normalized.value)
      case None => r := Err(NotFound(Display(normalized.value)));
      case Some(Directory(_)) => r := Err(IsDirectory(Display(normalized.value)));
      case Some(File(content)) => r := Ok(content);
    }

    /** `list_dir`. */
    method ListDirectory(path: string) returns (r: Result<seq<DirectoryEntry>, RuntimeError>)
      ensures ListMeans(root, path, r)
    {
      var normalized := NormalizePath(path, "/");
      if normalized.Err? { return Err(InvalidPath(path, normalized.error)); }
      var node := NodeAt(root, normalized.value);
      if node.None? { return Err(NotFound(Display(normalized.value))); }
      if node.value.File? { return Err(NotDirectory(Display(normalized.value))); }
      var entries := node.value.entries;
      var listing: seq<DirectoryEntry> := [];
      for i := 0 to |entries.keys|
        invariant |listing| == i && forall j :: 0 <= j < i ==> listing[j] == EntryOf(entries.keys[j], entries.vals[j])
      {
        listing := listing + [EntryOf(entries.keys[i], entries.vals[i])];
      }
      EntriesListed(root, normalized.value, listing);
      r := Ok(listing);
    }
  }

  // ----- a new filesystem -----

  /** The tree every filesystem starts with. */
  ghost predicate DefaultTree(root: Node) {
    forall q :: Look(root, q) == if q <= WORKSPACE || q <= TMP || q <= HOME then Some(Dir) else None
  }

  /** `VirtualFileSystem::new`: the three default directories, if the inode limit allows them. */
  method Create(limits: ResourceLimits) returns (r: Result<VirtualFileSystem, RuntimeError>)
    ensures limits.maxInodes < 4 ==> r == Err(InvalidLimits("inodes", 4, limits.maxInodes))
    ensures limits.maxInodes >= 4 ==>
      && r.Ok? && fresh(r.value) && r.value.limits == limits
      && DefaultTree(r.value.root) && FsOk(r.value.State()) && r.value.inodeCount == 4
  {
    if limits.maxInodes < 4 { return Err(InvalidLimits("inodes", 4, limits.maxInodes)); }
    hide FsOk, Accounted, MadeTree, DefaultTree, Made, Look, AllProper, Proper;
    var fs := new VirtualFileSystem.Bare(limits);
    EmptyFs(limits);
    MakeDefault(fs, "workspace");
    ghost var first := fs.root;
    OtherStillMissing(EMPTY, first, "workspace", "tmp");
    OtherStillMissing(EMPTY, first, "workspace", "home");
    MakeDefault(fs, "tmp");
    ghost var second := fs.root;
    OtherStillMissing(first, second, "tmp", "home");
    MakeDefault(fs, "home");
    ThreeMade(first, second, fs.State());
    r := Ok(fs);
  }

  /** Adds a directory under the root of a new filesystem. */
  method MakeDefault(fs: VirtualFileSystem, name: string)
    requires Accounted(fs.State()) && Proper(name) && Look(fs.root, [name]).None? && fs.inodeCount < fs.limits.maxInodes
    modifies fs
    ensures Accounted(fs.State()) && fs.inodeCount == old(fs.inodeCount) + 1 && MadeTree(old(fs.root), [name], fs.root)
  {
    hide Accounted, MadeTree, Made, Look, Proper;
    AddDefault(fs.State(), name);
    var made := fs.MakeDirectory("/" + name, true);
  }

  lemma EmptyFs(limits: ResourceLimits)
    requires limits.maxInodes >= 4
    ensures Accounted(Fs(EMPTY, 1, 0, limits))
    ensures Look(EMPTY, ["workspace"]).None? && Look(EMPTY, ["tmp"]).None? && Look(EMPTY, ["home"]).None?
    ensures Proper("workspace") && Proper("tmp") && Proper("home")
  {
    EmptyLooks();
  }

  lemma OtherStillMissing(root: Node, made: Node, name: string, other: string)
    requires MadeTree(root, [name], made) && name != other && Look(root, [other]).None?
    ensures Look(made, [other]).None?
  {
  }

  lemma ThreeMade(first: Node, second: Node, fs: Fs)
    requires MadeTree(EMPTY, ["workspace"], first) && MadeTree(first, ["tmp"], second) && MadeTree(second, ["home"], fs.root)
    requires Accounted(fs)
    ensures DefaultTree(fs.root) && FsOk(fs)
  {
    hide Look, Accounted;
    EmptyLooks();
    assert DefaultTree(fs.root);
    DefaultsAreDefault(fs.root);
  }

  lemma EmptyLooks()
    ensures forall q :: Look(EMPTY, q) == if q == [] then Some(Dir) else None
    ensures Inodes(EMPTY) == 1 && FileBytes(EMPTY) == 0
  {
  }

  /** A directory that is not there yet can be made under the root. */
  lemma AddDefault(fs: Fs, name: string)
    requires Accounted(fs) && Proper(name) && Look(fs.root, [name]).None? && fs.inodes < fs.limits.maxInodes
    ensures var r := Made(fs, "/" + name, true);
      && r.Ok? && Accounted(r.value) && r.value.limits == fs.limits && r.value.inodes == fs.inodes + 1
      && MadeTree(fs.root, [name], r.value.root)
  {
    DisplayThenNormalize([name], "/");
    DescendLooks(fs.root, [name], 0);
    assert [name][0..] == [name] && [name][..1] == [name];
    hide Inodes, FileBytes;
    MakeExact(fs, [name], true);
    MakeDirsUse(fs.root, [name], 0);
  }

  lemma DefaultsAreDefault(root: Node)
    requires DefaultTree(root)
    ensures Tidy(root) && HasDefaults(root)
  {
    hide Look;
  }
}
