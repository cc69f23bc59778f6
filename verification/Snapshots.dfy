/** Snapshots of the guest filesystem: what they hold, the bounds they must meet, and restoring them. */
module Snapshots {
  import opened Wrappers
  import opened OrderedMap
  import opened Values
  import opened GuestPaths
  import opened FileTree
  import opened FileSystem

  const VM_SNAPSHOT_SCHEMA_VERSION: nat := 1
  const MAX_SNAPSHOT_ENTRIES: nat := 4_096
  const MAX_SNAPSHOT_ENTRY_PATH_BYTES: nat := 4_096
  const MAX_SNAPSHOT_PATH_COMPONENTS: nat := 128
  const MAX_SNAPSHOT_BYTES: nat := 64 * 1024 * 1024
  const MAX_SNAPSHOT_INODES: nat := 32_768
  const MAX_SNAPSHOT_PROCESSES: nat := 512
  const MAX_SNAPSHOT_STEPS: nat := 10_000_000

  datatype SnapshotEntry = SnapshotEntry(path: string, directory: bool, bytes: seq<byte>)

  datatype VmSnapshot = VmSnapshot(schemaVersion: nat, id: string, limits: ResourceLimits, entries: seq<SnapshotEntry>)

  // ----- collecting -----

  /** `collect_snapshot_entries`: the children of a directory in key order, each before what is below it. */
  function Collect(node: Node, prefix: string): seq<SnapshotEntry>
    decreases node, 1
  {
    match node
    case File(_) => []
    case Directory(entries) => CollectChildren(node, |entries.keys|, prefix)
  }

  function CollectChildren(node: Node, n: nat, prefix: string): seq<SnapshotEntry>
    requires node.Directory? && n <= |node.entries.keys|
    decreases node, 0, n
  {
    if n == 0 then []
    else
      var path := prefix + "/" + node.entries.keys[n - 1];
      var child := node.entries.vals[n - 1];
      var own := if child.Directory? then SnapshotEntry(path, true, []) else SnapshotEntry(path, false, child.content);
      CollectChildren(node, n - 1, prefix) + [own] + Collect(child, path)
  }

  /** An entry before its path is written out. */
  datatype Item = Item(names: Names, sight: Sight)

  function Text(item: Item): SnapshotEntry {
    SnapshotEntry(Display(item.names), item.sight.Dir?, if item.sight.Dir? then [] else item.sight.content)
  }

  function Texts(items: seq<Item>): seq<SnapshotEntry> {
    seq(|items|, i requires 0 <= i < |items| => Text(items[i]))
  }

  function SightOf(node: Node): Sight {
    if node.Directory? then Dir else Content(node.content)
  }

  /** The entries below a node that stands at `at`. */
  function Items(node: Node, at: Names): seq<Item>
    decreases node, 1
  {
    match node
    case File(_) => []
    case Directory(entries) => ItemsOfChildren(node, |entries.keys|, at)
  }

  function ItemsOfChildren(node: Node, n: nat, at: Names): seq<Item>
    requires node.Directory? && n <= |node.entries.keys|
    decreases node, 0, n
  {
    if n == 0 then []
    else
      var names := at + [node.entries.keys[n - 1]];
      var child := node.entries.vals[n - 1];
      ItemsOfChildren(node, n - 1, at) + [Item(names, SightOf(child))] + Items(child, names)
  }

  function Prefix(at: Names): string {
    if at == [] then "" else Display(at)
  }

  lemma {:induction false} JoinLast(at: Names, name: string)
    requires at != []
    ensures Join(at + [name]) == Join(at) + "/" + name
  {
    if |at| == 1 {
      assert (at + [name])[1..] == [name];
    } else {
      JoinLast(at[1..], name);
      assert (at + [name])[1..] == at[1..] + [name];
    }
  }

  lemma PrefixLast(at: Names, name: string)
    ensures Prefix(at + [name]) == Display(at + [name]) == Prefix(at) + "/" + name
  {
    if at != [] { JoinLast(at, name); }
  }

  lemma {:induction false} CollectIsItems(node: Node, at: Names)
    ensures Collect(node, Prefix(at)) == Texts(Items(node, at))
    decreases node, 1
  {
    if node.Directory? { ChildrenAreItems(node, |node.entries.keys|, at); }
  }

  lemma {:induction false} ChildrenAreItems(node: Node, n: nat, at: Names)
    requires node.Directory? && n <= |node.entries.keys|
    ensures CollectChildren(node, n, Prefix(at)) == Texts(ItemsOfChildren(node, n, at))
    decreases node, 0, n
  {
    if n > 0 {
      var name, child := node.entries.keys[n - 1], node.entries.vals[n - 1];
      PrefixLast(at, name);
      ChildrenAreItems(node, n - 1, at);
      CollectIsItems(child, at + [name]);
    }
  }

  /** Items name things in the tree, below `at`. */
  ghost predicate Seen(node: Node, at: Names, items: seq<Item>) {
    forall i :: 0 <= i < |items| ==> SeenAt(node, at, items[i])
  }

  ghost predicate SeenAt(node: Node, at: Names, item: Item) {
    at < item.names && Look(node, item.names[|at|..]) == Some(item.sight)
  }

  ghost predicate DistinctNames(items: seq<Item>) {
    forall i, j :: 0 <= i < j < |items| ==> items[i].names != items[j].names
  }

  /** The items are exactly what the tree holds below its root, each once. */
  lemma {:induction false} ItemsExact(node: Node, at: Names)
    ensures Seen(node, at, Items(node, at)) && DistinctNames(Items(node, at))
    ensures forall q :: q != [] && Look(node, q).Some? ==> Item(at + q, Look(node, q).value) in Items(node, at)
    decreases node, 1
  {
    if node.Directory? {
      ItemsOfChildrenExact(node, |node.entries.keys|, at);
      forall q | q != [] && Look(node, q).Some? ensures Item(at + q, Look(node, q).value) in Items(node, at) {
        LookBelow(node.entries, q);
        assert node.entries.keys[LowerBound(node.entries.keys, q[0])] == q[0];
      }
    }
  }

  /** The name under `at` that leads to the item is one of the first `n` keys. */
  ghost predicate Under(keys: seq<string>, n: nat, at: Names, item: Item)
    requires n <= |keys|
  {
    at < item.names && item.names[|at|] in keys[..n]
  }

  lemma {:induction false} ItemsOfChildrenExact(node: Node, n: nat, at: Names)
    requires node.Directory? && n <= |node.entries.keys|
    ensures Seen(node, at, ItemsOfChildren(node, n, at)) && DistinctNames(ItemsOfChildren(node, n, at))
    ensures forall item :: item in ItemsOfChildren(node, n, at) ==> Under(node.entries.keys, n, at, item)
    ensures forall q :: q != [] && q[0] in node.entries.keys[..n] && Look(node, q).Some? ==>
      Item(at + q, Look(node, q).value) in ItemsOfChildren(node, n, at)
    decreases node, 0, n
  {
    hide Look, Ascending, SeenAt, Under, LowerBound;
    if n > 0 {
      var name, child := node.entries.keys[n - 1], node.entries.vals[n - 1];
      FoundAt(node.entries, name, n - 1);
      var before, own, below := ItemsOfChildren(node, n - 1, at), Item(at + [name], SightOf(child)), Items(child, at + [name]);
      ItemsOfChildrenExact(node, n - 1, at);
      ItemsExact(child, at + [name]);
      ChildSeen(node, name, child, at);
      forall item | item in below ensures SeenAt(node, at, item) && BelowChild(at, name, item) {
        assert SeenAt(child, at + [name], item);
        SeenBelow(node, name, child, at, item);
      }
      assert node.entries.keys[..n] == node.entries.keys[..n - 1] + [name];
      NewKey(node.entries, n);
      ThreeParts(before, own, below, node.entries.keys, n, at, name);
      forall q | q != [] && q[0] in node.entries.keys[..n] && Look(node, q).Some?
        ensures Item(at + q, Look(node, q).value) in before + [own] + below
      {
        LookBelow(node.entries, q);
        if q[0] !in node.entries.keys[..n - 1] { ItemOfChild(node, child, name, at, q); }
      }
    }
  }

  lemma ItemOfChild(node: Node, child: Node, name: string, at: Names, q: Names)
    requires node.Directory? && Get(node.entries, name) == Some(child) && q != [] && q[0] == name && Look(node, q).Some?
    requires forall r :: r != [] && Look(child, r).Some? ==> Item((at + [name]) + r, Look(child, r).value) in Items(child, at + [name])
    ensures var item := Item(at + q, Look(node, q).value);
      item == Item(at + [name], SightOf(child)) || item in Items(child, at + [name])
  {
    LookBelow(node.entries, q);
    if q[1..] == [] {
      assert q == [name];
    } else {
      assert (at + [name]) + q[1..] == at + q;
    }
  }

  lemma NewKey(entries: OrdMap<Node>, n: nat)
    requires 0 < n <= |entries.keys|
    ensures entries.keys[n - 1] !in entries.keys[..n - 1]
  {
    LessIrreflexive(entries.keys[n - 1]);
    assert forall i :: 0 <= i < n - 1 ==> Less(entries.keys[i], entries.keys[n - 1]);
  }

  lemma ChildSeen(node: Node, name: string, child: Node, at: Names)
    requires node.Directory? && Get(node.entries, name) == Some(child)
    ensures SeenAt(node, at, Item(at + [name], SightOf(child)))
    ensures Look(node, [name]) == Some(SightOf(child))
  {
    LookBelow(node.entries, [name]);
    assert (at + [name])[|at|..] == [name];
  }

  ghost predicate BelowChild(at: Names, name: string, item: Item) {
    at < item.names && |item.names| > |at| + 1 && item.names[|at|] == name
  }

  lemma SeenBelow(node: Node, name: string, child: Node, at: Names, item: Item)
    requires node.Directory? && Get(node.entries, name) == Some(child) && SeenAt(child, at + [name], item)
    ensures SeenAt(node, at, item) && BelowChild(at, name, item)
  {
    var below := item.names[|at|..];
    assert item.names == (at + [name]) + item.names[|at| + 1..];
    LookBelow(node.entries, below);
    assert below[0] == name && below[1..] == item.names[|at + [name]|..];
  }

  lemma ThreeParts(before: seq<Item>, own: Item, below: seq<Item>, keys: seq<string>, n: nat, at: Names, name: string)
    requires 0 < n <= |keys| && keys[..n] == keys[..n - 1] + [name] && name !in keys[..n - 1] && own.names == at + [name]
    requires DistinctNames(before) && DistinctNames(below)
    requires forall item :: item in before ==> Under(keys, n - 1, at, item)
    requires forall item :: item in below ==> BelowChild(at, name, item)
    ensures DistinctNames(before + [own] + below)
    ensures forall item :: item in before + [own] + below ==> Under(keys, n, at, item)
  {
    var all := before + [own] + below;
    forall i, j | 0 <= i < j < |all| ensures all[i].names != all[j].names {
      if i < |before| {
        assert all[i] in before;
        if j >= |before| { assert all[j].names[|at|] == name by { if j > |before| { assert all[j] in below; } } }
      } else {
        assert all[j] in below;
      }
    }
    forall item | item in all ensures Under(keys, n, at, item) {
      if item in before { assert Under(keys, n - 1, at, item); } else if item != own { assert item in below; }
    }
  }

  // ----- bounds -----

  predicate IdCharacter(c: char) {
    'a' <= c <= 'z' || 'A' <= c <= 'Z' || '0' <= c <= '9' || c in "._:@-"
  }

  predicate IdOk(id: string) {
    id != "" && Utf8Len(id) <= 128 && forall i :: 0 <= i < |id| ==> IdCharacter(id[i])
  }

  /** A VM id is 1 to 128 letters, digits and some marks. */
  lemma IdExact(id: string)
    ensures IdOk(id) <==> Spelled(id, "._:@-")
  {
    AsciiLen(id);
    hide Utf8Len;
    assert forall i :: 0 <= i < |id| ==> id[i] in id;
  }

  function TotalBytes(entries: seq<SnapshotEntry>): nat {
    if entries == [] then 0 else TotalBytes(entries[..|entries| - 1]) + |entries[|entries| - 1].bytes|
  }

  /** The limits an entry breaks, given the bytes of the entries before it. */
  function EntryDefect(entry: SnapshotEntry, before: nat, limits: ResourceLimits): Option<RuntimeError> {
    if Utf8Len(entry.path) > MAX_SNAPSHOT_ENTRY_PATH_BYTES then Some(InvalidSnapshot(PathTooLong))
    else
      var names := Normalize(entry.path, "/");
      if names.Err? then Some(InvalidPath(entry.path, names.error))
      else if |names.value| > MAX_SNAPSHOT_PATH_COMPONENTS then Some(InvalidSnapshot(PathTooDeep))
      else
        var total := before + |entry.bytes|;
        if total > MAX_SNAPSHOT_BYTES || total > limits.maxBytes then Some(InvalidSnapshot(BytesOverQuota)) else None
  }

  function HeaderDefect(snapshot: VmSnapshot): Option<SnapshotDefect> {
    if !IdOk(snapshot.id) then Some(VmId)
    else if |snapshot.entries| > MAX_SNAPSHOT_ENTRIES then Some(TooManyEntries)
    else if snapshot.limits.maxInodes > MAX_SNAPSHOT_INODES then Some(InodeLimit)
    else if snapshot.limits.maxBytes > MAX_SNAPSHOT_BYTES then Some(ByteLimit)
    else if snapshot.limits.maxProcesses > MAX_SNAPSHOT_PROCESSES then Some(ProcessLimit)
    else if snapshot.limits.maxSteps > MAX_SNAPSHOT_STEPS then Some(SnapshotDefect.StepLimit)
    else None
  }

  const HEADER_DEFECTS: seq<SnapshotDefect> :=
    [VmId, TooManyEntries, InodeLimit, ByteLimit, ProcessLimit, SnapshotDefect.StepLimit]

  /** The header breaks the bound in this place of the order of checks. */
  predicate HeaderBreaks(snapshot: VmSnapshot, k: nat) {
    match k
    case 0 => !Spelled(snapshot.id, "._:@-")
    case 1 => |snapshot.entries| > 4_096
    case 2 => snapshot.limits.maxInodes > 32_768
    case 3 => snapshot.limits.maxBytes > 67_108_864
    case 4 => snapshot.limits.maxProcesses > 512
    case _ => snapshot.limits.maxSteps > 10_000_000
  }

  ghost predicate FirstBreak(snapshot: VmSnapshot, k: nat, defect: SnapshotDefect) {
    k < 6 && defect == HEADER_DEFECTS[k] && HeaderBreaks(snapshot, k) && forall j :: 0 <= j < k ==> !HeaderBreaks(snapshot, j)
  }

  /** The header is refused for the first bound it breaks. */
  lemma HeaderExact(snapshot: VmSnapshot)
    ensures HeaderDefect(snapshot).None? <==> forall k :: 0 <= k < 6 ==> !HeaderBreaks(snapshot, k)
    ensures HeaderDefect(snapshot).Some? ==> exists k :: FirstBreak(snapshot, k, HeaderDefect(snapshot).value)
  {
    hide IdOk, Spelled;
    IdExact(snapshot.id);
    var d := HeaderDefect(snapshot);
    if d.Some? {
      assert HeaderBreaks(snapshot, 0) || HeaderBreaks(snapshot, 1) || HeaderBreaks(snapshot, 2) || HeaderBreaks(snapshot, 3) ||
        HeaderBreaks(snapshot, 4) || HeaderBreaks(snapshot, 5);
      var k := if d.value.VmId? then 0 else if d.value.TooManyEntries? then 1 else if d.value.InodeLimit? then 2
        else if d.value.ByteLimit? then 3 else if d.value.ProcessLimit? then 4 else 5;
      assert FirstBreak(snapshot, k, d.value);
    }
  }

  /** An entry is refused for its path's length, its path, its depth or the bytes so far, in this order. */
  lemma EntryDefectExact(entry: SnapshotEntry, before: nat, limits: ResourceLimits)
    ensures var d, short, names := EntryDefect(entry, before, limits), Utf8Len(entry.path) <= 4_096, Normalize(entry.path, "/");
      var shallow := names.Ok? && |names.value| <= 128;
      var small := before + |entry.bytes| <= 67_108_864 && before + |entry.bytes| <= limits.maxBytes;
      && (d.None? <==> short && shallow && small)
      && (d == Some(InvalidSnapshot(PathTooLong)) <==> !short)
      && (d.Some? && d.value.InvalidPath? <==> short && names.Err?)
      && (d == Some(InvalidSnapshot(PathTooDeep)) <==> short && names.Ok? && !shallow)
      && (d == Some(InvalidSnapshot(BytesOverQuota)) <==> short && shallow && !small)
  {
    hide Utf8Len, Normalize;
  }

  /** Everything the bounds demand of a snapshot. */
  predicate WithinBounds(snapshot: VmSnapshot) {
    && HeaderDefect(snapshot).None?
    && (forall i :: 0 <= i < |snapshot.entries| ==>
          EntryDefect(snapshot.entries[i], TotalBytes(snapshot.entries[..i]), snapshot.limits).None?)
  }

  /** `validate_snapshot_bounds`: the first bound broken, header before entries, entries in order. */
  method ValidateBounds(snapshot: VmSnapshot) returns (err: Option<RuntimeError>)
    ensures err.None? <==> WithinBounds(snapshot)
    ensures HeaderDefect(snapshot).Some? ==> err == Some(InvalidSnapshot(HeaderDefect(snapshot).value))
    ensures HeaderDefect(snapshot).None? && err.Some? ==>
      exists i :: 0 <= i < |snapshot.entries| && FirstDefect(snapshot, i, err)
  {
    hide EntryDefect, HeaderDefect;
    var defect := HeaderDefect(snapshot);
    if defect.Some? { return Some(InvalidSnapshot(defect.value)); }
    var entries := snapshot.entries;
    var total := 0;
    for i := 0 to |entries|
      invariant total == TotalBytes(entries[..i])
      invariant forall j :: 0 <= j < i ==> EntryDefect(entries[j], TotalBytes(entries[..j]), snapshot.limits).None?
    {
      err := EntryDefect(entries[i], total, snapshot.limits);
      if err.Some? {
        assert FirstDefect(snapshot, i, err);
        return;
      }
      assert entries[..i + 1][..i] == entries[..i];
      total := total + |entries[i].bytes|;
    }
    err := None;
  }

  ghost predicate FirstDefect(snapshot: VmSnapshot, i: nat, err: Option<RuntimeError>)
    requires i < |snapshot.entries|
  {
    && err.Some? && EntryDefect(snapshot.entries[i], TotalBytes(snapshot.entries[..i]), snapshot.limits) == err
    && forall j :: 0 <= j < i ==> EntryDefect(snapshot.entries[j], TotalBytes(snapshot.entries[..j]), snapshot.limits).None?
  }

  // ----- a guest's own snapshot -----

  lemma {:induction false} BytesOfBoth(a: seq<SnapshotEntry>, b: seq<SnapshotEntry>)
    ensures TotalBytes(a + b) == TotalBytes(a) + TotalBytes(b)
  {
    if b == [] {
      assert a + b == a;
    } else {
      var m := |b| - 1;
      assert (a + b)[..|a| + m] == a + b[..m];
      BytesOfBoth(a, b[..m]);
    }
  }

  /** A snapshot holds one entry for every inode below the root, and the bytes of every file once. */
  lemma {:induction false} CollectCounts(root: Node, prefix: string)
    requires root.Directory?
    ensures |Collect(root, prefix)| == Inodes(root) - 1 && TotalBytes(Collect(root, prefix)) == FileBytes(root)
    decreases root, 1
  {
    var n := |root.entries.keys|;
    ChildrenCount(root, n, prefix);
    assert root.entries.vals[..n] == root.entries.vals;
  }

  lemma {:induction false} ChildrenCount(root: Node, n: nat, prefix: string)
    requires root.Directory? && n <= |root.entries.keys|
    ensures |CollectChildren(root, n, prefix)| == InodesAll(root.entries.vals[..n])
    ensures TotalBytes(CollectChildren(root, n, prefix)) == FileBytesAll(root.entries.vals[..n])
    decreases root, 0, n
  {
    if n > 0 {
      var path, child := prefix + "/" + root.entries.keys[n - 1], root.entries.vals[n - 1];
      var own := if child.Directory? then SnapshotEntry(path, true, []) else SnapshotEntry(path, false, child.content);
      var before := CollectChildren(root, n - 1, prefix);
      ChildrenCount(root, n - 1, prefix);
      if child.Directory? { CollectCounts(child, path); }
      assert root.entries.vals[..n][..n - 1] == root.entries.vals[..n - 1];
      BytesOfBoth(before + [own], Collect(child, path));
      assert (before + [own])[..|before|] == before;
    }
  }

  lemma {:induction false} BytesSoFar(entries: seq<SnapshotEntry>, i: nat)
    requires i < |entries|
    ensures TotalBytes(entries[..i]) + |entries[i].bytes| <= TotalBytes(entries)
  {
    var n := |entries| - 1;
    if i < n {
      BytesSoFar(entries[..n], i);
      assert entries[..n][..i] == entries[..i];
    }
  }

  predicate NameFits(names: Names) {
    Utf8Len(Display(names)) <= MAX_SNAPSHOT_ENTRY_PATH_BYTES && |names| <= MAX_SNAPSHOT_PATH_COMPONENTS
  }

  predicate LimitsFit(limits: ResourceLimits) {
    && limits.maxInodes <= MAX_SNAPSHOT_INODES && limits.maxBytes <= MAX_SNAPSHOT_BYTES
    && limits.maxProcesses <= MAX_SNAPSHOT_PROCESSES && limits.maxSteps <= MAX_SNAPSHOT_STEPS
  }

  /** For a guest's own snapshot the byte quota and the paths never fail: what is left of the bounds are the
      identifier, the limits, the number of inodes, and the length and depth of paths. */
  lemma OwnBounds(fs: Fs, id: string)
    requires FsOk(fs)
    ensures WithinBounds(VmSnapshot(VM_SNAPSHOT_SCHEMA_VERSION, id, fs.limits, Collect(fs.root, ""))) <==>
      && IdOk(id) && LimitsFit(fs.limits) && fs.inodes <= MAX_SNAPSHOT_ENTRIES + 1
      && forall q :: q != [] && Look(fs.root, q).Some? ==> NameFits(q)
  {
    hide Look, Display, IdOk, EntryDefect, Inodes, FileBytes, Collect, Items, NameFits, HasDefaults, HeaderDefect;
    OwnHeader(fs, id);
    var items := Items(fs.root, []);
    ItemsExact(fs.root, []);
    CollectIsItems(fs.root, []);
    CollectCounts(fs.root, "");
    AllSeen(fs.root, items);
    if LimitsFit(fs.limits) {
      forall i | 0 <= i < |items|
        ensures EntryDefect(Texts(items)[i], TotalBytes(Texts(items)[..i]), fs.limits).None? <==> NameFits(items[i].names)
      {
        BytesSoFar(Texts(items), i);
        OwnEntry(fs, items[i], TotalBytes(Texts(items)[..i]));
      }
      NamesAreItems(fs.root, items);
    }
  }

  lemma OwnHeader(fs: Fs, id: string)
    requires Accounted(fs)
    ensures HeaderDefect(VmSnapshot(VM_SNAPSHOT_SCHEMA_VERSION, id, fs.limits, Collect(fs.root, ""))).None? <==>
      IdOk(id) && LimitsFit(fs.limits) && fs.inodes <= MAX_SNAPSHOT_ENTRIES + 1
  {
    CollectCounts(fs.root, "");
    hide IdOk, Collect, Inodes, FileBytes;
  }

  lemma OwnEntry(fs: Fs, item: Item, before: nat)
    requires Tidy(fs.root) && Look(fs.root, item.names).Some?
    requires before + |Text(item).bytes| <= fs.limits.maxBytes <= MAX_SNAPSHOT_BYTES
    ensures EntryDefect(Text(item), before, fs.limits).None? <==> NameFits(item.names)
  {
    hide Look, Display, Normalize;
    DisplayThenNormalize(item.names, "/");
  }

  lemma NamesAreItems(root: Node, items: seq<Item>)
    requires Seen(root, [], items)
    requires forall q :: q != [] && Look(root, q).Some? ==> Item([] + q, Look(root, q).value) in items
    ensures (forall i :: 0 <= i < |items| ==> NameFits(items[i].names)) <==>
            (forall q :: q != [] && Look(root, q).Some? ==> NameFits(q))
  {
    hide Look, NameFits;
    AllSeen(root, items);
    forall i | 0 <= i < |items| ensures items[i].names != [] { assert SeenAt(root, [], items[i]); }
    forall q | q != [] && Look(root, q).Some? ensures exists i :: 0 <= i < |items| && items[i].names == q {
      assert [] + q == q;
      assert Item(q, Look(root, q).value) in items;
    }
  }

  // ----- restoring -----

  /** A restore under way: the filesystem so far and the paths seen. */
  datatype Progress = Progress(fs: Fs, paths: set<string>)

  function RestoredEntry(p: Progress, entry: SnapshotEntry): Result<Progress, RuntimeError> {
    var names := Normalize(entry.path, "/");
    if names.Err? then Err(InvalidPath(entry.path, names.error))
    else if names.value == [] || Display(names.value) in p.paths then Err(InvalidSnapshot(RootOrDuplicate))
    else
      var paths := p.paths + {Display(names.value)};
      if entry.directory then
        if entry.bytes != [] then Err(InvalidSnapshot(DirectoryWithBytes))
        else
          var made := Made(p.fs, entry.path, true);
          if made.Err? then Err(made.error) else Ok(Progress(made.value, paths))
      else
        var made := Made(p.fs, Display(names.value[..|names.value| - 1]), true);
        if made.Err? then Err(made.error)
        else
          var written := Written(made.value, entry.path, entry.bytes);
          if written.Err? then Err(written.error) else Ok(Progress(written.value, paths))
  }

  function Restored(start: Fs, entries: seq<SnapshotEntry>): Result<Progress, RuntimeError> {
    if entries == [] then Ok(Progress(start, {}))
    else
      var before := Restored(start, entries[..|entries| - 1]);
      if before.Err? then before else RestoredEntry(before.value, entries[|entries| - 1])
  }

  lemma {:induction false} RestoreStops(start: Fs, entries: seq<SnapshotEntry>, i: nat)
    requires i <= |entries| && Restored(start, entries[..i]).Err?
    ensures Restored(start, entries) == Restored(start, entries[..i])
    decreases |entries| - i
  {
    if i == |entries| {
      assert entries[..i] == entries;
    } else {
      assert entries[..i + 1][..i] == entries[..i];
      RestoreStops(start, entries, i + 1);
    }
  }

  /** The loop of `from_snapshot`: plays the entries into a new filesystem. */
  method RestoreEntries(fs: VirtualFileSystem, entries: seq<SnapshotEntry>) returns (err: Option<RuntimeError>)
    modifies fs
    ensures match Restored(old(fs.State()), entries)
      case Ok(p) => err.None? && fs.State() == p.fs
      case Err(e) => err == Some(e)
  {
    hide Made, Written;
    ghost var start := fs.State();
    var paths: set<string> := {};
    for i := 0 to |entries|
      invariant Restored(start, entries[..i]) == Ok(Progress(fs.State(), paths))
    {
      var entry := entries[i];
      assert entries[..i + 1][..i] == entries[..i];
      if Restored(start, entries[..i + 1]).Err? { RestoreStops(start, entries, i + 1); }
      var names := NormalizePath(entry.path, "/");
      if names.Err? { return Some(InvalidPath(entry.path, names.error)); }
      var path := Display(names.value);
      if names.value == [] || path in paths { return Some(InvalidSnapshot(RootOrDuplicate)); }
      paths := paths + {path};
      if entry.directory {
        if entry.bytes != [] { return Some(InvalidSnapshot(DirectoryWithBytes)); }
        err := fs.MakeDirectory(entry.path, true);
        if err.Some? { return; }
      } else {
        err := fs.MakeDirectory(Display(names.value[..|names.value| - 1]), true);
        if err.Some? { return; }
        err := fs.WriteFile(entry.path, entry.bytes);
        if err.Some? { return; }
      }
    }
    assert entries[..|entries|] == entries;
    err := None;
  }

  // ----- what restoring any snapshot means -----

  /** Puts one entry in its place: the directory, or the parent directory and the file in it. */
  ghost predicate Places(fs: Fs, names: Names, entry: SnapshotEntry, t: Result<Fs, RuntimeError>)
    requires names != []
  {
    if entry.directory then MakeMeans(fs, names, true, t)
    else exists mid :: MakeMeans(fs, names[..|names| - 1], true, mid) && Continues(mid, names, entry.bytes, t)
  }

  ghost predicate Continues(mid: Result<Fs, RuntimeError>, names: Names, bytes: seq<byte>, t: Result<Fs, RuntimeError>) {
    if mid.Err? then t == Err(mid.error) else WriteMeans(mid.value, names, bytes, t)
  }

  /** What restoring one entry must do, in the order the checks are made. */
  ghost predicate EntryMeans(p: Progress, entry: SnapshotEntry, r: Result<Progress, RuntimeError>) {
    match Normalize(entry.path, "/")
    case Err(e) => r == Err(InvalidPath(entry.path, e))
    case Ok(names) =>
      if names == [] || Display(names) in p.paths then r == Err(InvalidSnapshot(RootOrDuplicate))
      else if entry.directory && entry.bytes != [] then r == Err(InvalidSnapshot(DirectoryWithBytes))
      else exists t :: Places(p.fs, names, entry, t) && r == Noted(p, names, t)
  }

  /** The outcome for the restore as a whole. */
  function Noted(p: Progress, names: Names, t: Result<Fs, RuntimeError>): Result<Progress, RuntimeError> {
    if t.Err? then Err(t.error) else Ok(Progress(t.value, p.paths + {Display(names)}))
  }

  /** Restoring an entry does exactly what is stated on the tree. */
  lemma EntryExact(p: Progress, entry: SnapshotEntry, r: Result<Progress, RuntimeError>)
    requires Accounted(p.fs)
    ensures r == RestoredEntry(p, entry) <==> EntryMeans(p, entry, r)
  {
    hide Accounted, MakeMeans, WriteMeans, MadeAt, WrittenAt, Normalize, Display, Places;
    var normalized := Normalize(entry.path, "/");
    if normalized.Ok? && normalized.value != [] {
      var names := normalized.value;
      NormalizeProper(entry.path, "/");
      ParentProper(names);
      DisplayThenNormalize(names[..|names| - 1], "/");
      var placed := Placed(p.fs, names, entry);
      forall t ensures Places(p.fs, names, entry, t) <==> t == placed { PlacesExact(p.fs, names, entry, t); }
      assert Places(p.fs, names, entry, placed);
      assert names != [] && Display(names) !in p.paths && (entry.directory ==> entry.bytes == []) ==>
        RestoredEntry(p, entry) == Noted(p, names, placed);
    }
  }

  function Placed(fs: Fs, names: Names, entry: SnapshotEntry): Result<Fs, RuntimeError>
    requires names != []
  {
    if entry.directory then MadeAt(fs, names, true)
    else
      var made := MadeAt(fs, names[..|names| - 1], true);
      if made.Err? then Err(made.error) else WrittenAt(made.value, names, entry.bytes)
  }

  lemma PlacesExact(fs: Fs, names: Names, entry: SnapshotEntry, t: Result<Fs, RuntimeError>)
    requires Accounted(fs) && names != []
    ensures Places(fs, names, entry, t) <==> t == Placed(fs, names, entry)
  {
    hide Accounted, MakeMeans, WriteMeans, MadeAt, WrittenAt, MadeTree, NoFileOn, Look, Clear;
    if entry.directory {
      MakeObeys(fs, names, true, t);
    } else {
      var parent := names[..|names| - 1];
      var made := MadeAt(fs, parent, true);
      forall mid ensures MakeMeans(fs, parent, true, mid) <==> mid == made { MakeObeys(fs, parent, true, mid); }
      MakeExact(fs, parent, true);
      if made.Ok? { WriteObeys(made.value, names, entry.bytes, t); }
      assert Continues(made, names, entry.bytes, t) <==> t == Placed(fs, names, entry);
    }
  }

  /** The names an entry stands for; only called on entries that were restored. */
  function NamesOf(entry: SnapshotEntry): Names {
    var names := Normalize(entry.path, "/");
    if names.Ok? then names.value else []
  }

  function SightIn(entry: SnapshotEntry): Sight {
    if entry.directory then Dir else Content(entry.bytes)
  }

  /** One more entry stands in the tree: it and the directories above it, and nothing else changed. */
  ghost predicate Adds(was: Node, now: Node, entry: SnapshotEntry) {
    var names := NamesOf(entry);
    && (forall q :: Look(now, q) == if q == names then Some(SightIn(entry)) else if q <= names then Some(Dir) else Look(was, q))
    && (forall q :: q <= names && q != names && Look(was, q).Some? ==> Look(was, q) == Some(Dir))
    && (Look(was, names) == Some(Dir) ==> entry.directory) && (entry.directory && Look(was, names).Some? ==> Look(was, names) == Some(Dir))
  }

  lemma EntryAdds(p: Progress, entry: SnapshotEntry)
    requires Accounted(p.fs) && RestoredEntry(p, entry).Ok?
    ensures var r := RestoredEntry(p, entry).value;
      && Normalize(entry.path, "/").Ok? && NamesOf(entry) != [] && Display(NamesOf(entry)) !in p.paths
      && (entry.directory ==> entry.bytes == []) && r.paths == p.paths + {Display(NamesOf(entry))}
      && Accounted(r.fs) && r.fs.limits == p.fs.limits && Adds(p.fs.root, r.fs.root, entry)
  {
    hide Accounted, MadeAt, WrittenAt, Normalize, Display, Look, Inodes, FileBytes, MakeDirs, PutFile, Clear;
    var names := Normalize(entry.path, "/").value;
    NormalizeProper(entry.path, "/");
    ParentProper(names);
    var parent := names[..|names| - 1];
    DisplayThenNormalize(parent, "/");
    if entry.directory {
      MakeExact(p.fs, names, true);
      OnPath(p.fs.root, names);
    } else {
      MakeExact(p.fs, parent, true);
      OnPath(p.fs.root, parent);
      var made := MadeAt(p.fs, parent, true).value;
      WriteExact(made, names, entry.bytes);
      var now := WrittenAt(made, names, entry.bytes).value;
      forall q
        ensures Look(now.root, q) == if q == names then Some(SightIn(entry)) else if q <= names then Some(Dir) else Look(p.fs.root, q)
      {
        AboveIsBehindParent(q, names);
      }
      forall q | q <= names && q != names && Look(p.fs.root, q).Some? ensures Look(p.fs.root, q) == Some(Dir) {
        AboveIsBehindParent(q, names);
      }
    }
  }

  lemma AboveIsBehindParent(q: Names, names: Names)
    requires names != []
    ensures q <= names && q != names <==> q <= names[..|names| - 1]
  {
    if q <= names && q != names { assert q == names[..|names| - 1][..|q|]; }
  }

  lemma OnPath(root: Node, names: Names)
    requires NoFileOn(root, names)
    ensures forall q :: q <= names && Look(root, q).Some? ==> Look(root, q) == Some(Dir)
  {
    hide Look;
    forall q | q <= names && Look(root, q).Some? ensures Look(root, q) == Some(Dir) { assert q == names[..|q|]; }
  }

  /** The tree holds every entry, under names of its own, and beyond the tree it started from nothing but the entries and the
      directories above them. */
  ghost predicate HoldsAll(start: Node, entries: seq<SnapshotEntry>, root: Node) {
    && (forall i :: 0 <= i < |entries| ==> EntryHeld(root, entries[i]))
    && (forall i, j :: 0 <= i < j < |entries| ==> NamesOf(entries[i]) != NamesOf(entries[j]))
    && (forall q :: Look(root, q) != Look(start, q) ==> exists i :: 0 <= i < |entries| && q <= NamesOf(entries[i]))
  }

  ghost predicate EntryHeld(root: Node, entry: SnapshotEntry) {
    && Normalize(entry.path, "/").Ok? && NamesOf(entry) != [] && (entry.directory ==> entry.bytes == [])
    && Look(root, NamesOf(entry)) == Some(SightIn(entry))
  }

  /** Restoring any snapshot that is accepted, made by a guest or by hand, gives a tree that holds exactly its entries. */
  lemma {:induction false} RestoredHolds(start: Fs, entries: seq<SnapshotEntry>)
    requires Accounted(start) && Restored(start, entries).Ok?
    ensures var p := Restored(start, entries).value;
      && Accounted(p.fs) && p.fs.limits == start.limits && HoldsAll(start.root, entries, p.fs.root)
      && forall i :: 0 <= i < |entries| ==> Display(NamesOf(entries[i])) in p.paths
  {
    hide Accounted, RestoredEntry, Look, Normalize, Display, NamesOf;
    if entries != [] {
      var n := |entries| - 1;
      RestoredHolds(start, entries[..n]);
      var before := Restored(start, entries[..n]).value;
      EntryAdds(before, entries[n]);
      var now := RestoredEntry(before, entries[n]).value;
      StillHeld(start.root, entries[..n], before.fs.root, now.fs.root, entries[n]);
      assert entries == entries[..n] + [entries[n]];
    }
  }

  /** The tree is the default one with the entries in it. */
  ghost predicate HoldsSnapshot(entries: seq<SnapshotEntry>, root: Node) {
    exists start :: DefaultTree(start) && HoldsAll(start, entries, root)
  }

  lemma StillHeld(start: Node, entries: seq<SnapshotEntry>, was: Node, now: Node, entry: SnapshotEntry)
    requires HoldsAll(start, entries, was) && Adds(was, now, entry)
    requires Normalize(entry.path, "/").Ok? && NamesOf(entry) != [] && (entry.directory ==> entry.bytes == [])
    requires forall i :: 0 <= i < |entries| ==> NamesOf(entries[i]) != NamesOf(entry)
    ensures HoldsAll(start, entries + [entry], now)
  {
    hide Look, Normalize, NamesOf;
    var all := entries + [entry];
    forall i | 0 <= i < |all| ensures EntryHeld(now, all[i]) {
      if i < |entries| { assert EntryHeld(was, entries[i]); }
    }
    forall q | Look(now, q) != Look(start, q) ensures exists i :: 0 <= i < |all| && q <= NamesOf(all[i]) {
      if q <= NamesOf(entry) {
        assert all[|entries|] == entry;
      } else {
        var i :| 0 <= i < |entries| && q <= NamesOf(entries[i]);
        assert all[i] == entries[i];
      }
    }
  }

  // ----- part of a tree -----

  /** Everything in `a` stands in `b` as well. */
  ghost predicate PartOf(a: Node, b: Node) {
    forall q :: Look(a, q).Some? ==> Look(b, q) == Look(a, q)
  }

  /** A part of a tree uses no more than the tree. */
  lemma {:induction false} PartUses(a: Node, b: Node)
    requires PartOf(a, b)
    ensures Inodes(a) <= Inodes(b) && FileBytes(a) <= FileBytes(b)
    decreases a
  {
    assert Look(a, []) == Look(b, []);
    if a.Directory? {
      forall i | 0 <= i < |a.entries.keys|
        ensures Has(b.entries, a.entries.keys[i])
        ensures Inodes(a.entries.vals[i]) <= Inodes(Get(b.entries, a.entries.keys[i]).value)
        ensures FileBytes(a.entries.vals[i]) <= FileBytes(Get(b.entries, a.entries.keys[i]).value)
      {
        ChildPart(a, b, i);
        PartUses(a.entries.vals[i], Get(b.entries, a.entries.keys[i]).value);
      }
      SumsWithin(a.entries, b.entries);
    }
  }

  lemma ChildPart(a: Node, b: Node, i: nat)
    requires PartOf(a, b) && a.Directory? && b.Directory? && i < |a.entries.keys|
    ensures Has(b.entries, a.entries.keys[i])
    ensures PartOf(a.entries.vals[i], Get(b.entries, a.entries.keys[i]).value)
  {
    var k := a.entries.keys[i];
    FoundAt(a.entries, k, i);
    LookChild(a.entries, k, []);
    LookChild(b.entries, k, []);
    assert Look(a, [k] + []).Some?;
    forall q | Look(a.entries.vals[i], q).Some? ensures Look(Get(b.entries, k).value, q) == Look(a.entries.vals[i], q) {
      LookChild(a.entries, k, q);
      LookChild(b.entries, k, q);
      assert Look(a, [k] + q).Some?;
    }
  }

  /** Sums over the matching entries of two ordered maps. */
  lemma {:induction false} SumsWithin(a: OrdMap<Node>, b: OrdMap<Node>)
    requires forall i :: 0 <= i < |a.keys| ==>
      && Has(b, a.keys[i])
      && Inodes(a.vals[i]) <= Inodes(Get(b, a.keys[i]).value)
      && FileBytes(a.vals[i]) <= FileBytes(Get(b, a.keys[i]).value)
    ensures InodesAll(a.vals) <= InodesAll(b.vals) && FileBytesAll(a.vals) <= FileBytesAll(b.vals)
    decreases |b.keys|
  {
    hide Inodes, FileBytes, LowerBound, Ascending, Has, Get, Less;
    if |a.keys| > 0 {
      SomeKeys(b, a.keys[0]);
      var n, m := |a.keys| - 1, |b.keys| - 1;
      var front := Front(b);
      var rest := if a.keys[n] == b.keys[m] then Front(a) else a;
      FoundAt(b, b.keys[m], m);
      forall i | 0 <= i < |rest.keys| ensures Has(front, rest.keys[i]) && Get(front, rest.keys[i]) == Get(b, a.keys[i]) {
        InFront(a, b, i);
      }
      SumsWithin(rest, front);
    }
  }

  function Front(m: OrdMap<Node>): OrdMap<Node>
    requires m.keys != []
  {
    Entries(m.keys[..|m.keys| - 1], m.vals[..|m.keys| - 1])
  }

  lemma SomeKeys(b: OrdMap<Node>, k: string)
    requires Has(b, k)
    ensures b.keys != []
  {
  }

  /** A key of `a` that is not the common last key is found before the last key of `b`. */
  lemma InFront(a: OrdMap<Node>, b: OrdMap<Node>, i: nat)
    requires i < |a.keys| && b.keys != [] && forall j :: 0 <= j < |a.keys| ==> Has(b, a.keys[j])
    requires i == |a.keys| - 1 ==> a.keys[i] != b.keys[|b.keys| - 1]
    ensures Has(Front(b), a.keys[i]) && Get(Front(b), a.keys[i]) == Get(b, a.keys[i])
  {
    var n, m := |a.keys| - 1, |b.keys| - 1;
    var at := LowerBound(b.keys, a.keys[i]);
    if i < n {
      LessAsymmetric(a.keys[i], a.keys[n]);
      assert b.keys[LowerBound(b.keys, a.keys[n])] == a.keys[n];
    }
    assert at < m;
    FoundAt(Front(b), a.keys[i], at);
  }

  // ----- the round trip -----

  /** The first `i` items of the whole are in place and nothing foreign is. */
  ghost predicate RestoredPart(whole: Node, items: seq<Item>, i: nat, fs: Fs, limits: ResourceLimits)
    requires i <= |items|
  {
    && Accounted(fs) && fs.limits == limits && PartOf(fs.root, whole)
    && forall k :: 0 <= k < i ==> Look(fs.root, items[k].names) == Some(items[k].sight)
  }

  /** A directory of the whole can always be made in a part of it. */
  lemma MakeInPart(whole: Fs, fs: Fs, names: Names)
    requires Accounted(whole) && Accounted(fs) && fs.limits == whole.limits && PartOf(fs.root, whole.root)
    requires Look(whole.root, names) == Some(Dir)
    ensures var r := MadeAt(fs, names, true);
      && r.Ok? && Accounted(r.value) && r.value.limits == fs.limits && PartOf(r.value.root, whole.root)
      && MadeTree(fs.root, names, r.value.root) && Look(r.value.root, names) == Some(Dir)
  {
    hide MadeAt, Accounted, Look, Inodes, FileBytes, MakeDirs;
    forall q | q <= names ensures Look(whole.root, q) == Some(Dir) {
      if q != names { AncestorIsDir(whole.root, names, q); }
    }
    assert NoFileOn(fs.root, names) by {
      forall k | 0 <= k <= |names| && Look(fs.root, names[..k]).Some? ensures Look(fs.root, names[..k]) == Some(Dir) {
        assert names[..k] <= names;
      }
    }
    MakeExact(fs, names, true);
    MakeDirsIsMade(fs.root, names);
    assert PartOf(MakeDirs(fs.root, names, 0), whole.root);
    PartUses(MakeDirs(fs.root, names, 0), whole.root);
    WithinLimits(whole);
  }

  lemma WithinLimits(fs: Fs)
    requires Accounted(fs)
    ensures Inodes(fs.root) <= fs.limits.maxInodes && FileBytes(fs.root) <= fs.limits.maxBytes
  {
  }

  /** A file of the whole can be written in a part of it that has its parent. */
  lemma WriteInPart(whole: Fs, fs: Fs, names: Names, content: seq<byte>)
    requires Accounted(whole) && Accounted(fs) && fs.limits == whole.limits && PartOf(fs.root, whole.root)
    requires names != [] && Look(whole.root, names) == Some(Content(content)) && Look(fs.root, names[..|names| - 1]) == Some(Dir)
    ensures var r := WrittenAt(fs, names, content);
      && r.Ok? && Accounted(r.value) && r.value.limits == fs.limits && PartOf(r.value.root, whole.root)
      && forall q :: Look(r.value.root, q) == if q == names then Some(Content(content)) else Look(fs.root, q)
  {
    hide WrittenAt, Accounted, Inodes, FileBytes, Look, PutFile;
    WriteExact(fs, names, content);
    WriteLooks(fs, names, content);
    assert PartOf(PutFile(fs.root, names, content), whole.root);
    PartUses(PutFile(fs.root, names, content), whole.root);
    WithinLimits(whole);
  }

  /** Restoring one more item of the whole. */
  lemma RestoreItem(whole: Fs, items: seq<Item>, i: nat, p: Progress)
    requires FsOk(whole) && i < |items| && Seen(whole.root, [], items) && RestoredPart(whole.root, items, i, p.fs, whole.limits)
    requires Display(items[i].names) !in p.paths
    ensures var r := RestoredEntry(p, Text(items[i]));
      && r.Ok? && r.value.paths == p.paths + {Display(items[i].names)}
      && RestoredPart(whole.root, items, i + 1, r.value.fs, whole.limits)
  {
    hide MadeAt, WrittenAt, Accounted, Look, HasDefaults, Display, Normalize, AllProper, PartOf;
    var item := items[i];
    assert SeenAt(whole.root, [], item) && item.names[0..] == item.names;
    assert AllProper(item.names);
    DisplayThenNormalize(item.names, "/");
    AllSeen(whole.root, items);
    if item.sight.Dir? {
      MakeInPart(whole, p.fs, item.names);
      StillThere(whole.root, items, i, p.fs.root, MadeAt(p.fs, item.names, true).value.root, item.names);
    } else {
      var parent := item.names[..|item.names| - 1];
      ParentProper(item.names);
      DisplayThenNormalize(parent, "/");
      AncestorIsDir(whole.root, item.names, parent);
      MakeInPart(whole, p.fs, parent);
      var made := MadeAt(p.fs, parent, true).value;
      StillThere(whole.root, items, i, p.fs.root, made.root, parent);
      WriteInPart(whole, made, item.names, item.sight.content);
    }
  }

  lemma ParentProper(names: Names)
    requires AllProper(names) && names != []
    ensures AllProper(names[..|names| - 1])
  {
  }

  lemma AllSeen(whole: Node, items: seq<Item>)
    requires Seen(whole, [], items)
    ensures forall k :: 0 <= k < |items| ==> Look(whole, items[k].names) == Some(items[k].sight)
  {
    forall k | 0 <= k < |items| ensures Look(whole, items[k].names) == Some(items[k].sight) {
      assert SeenAt(whole, [], items[k]) && items[k].names[0..] == items[k].names;
    }
  }

  lemma StillThere(whole: Node, items: seq<Item>, i: nat, was: Node, now: Node, names: Names)
    requires i <= |items| && MadeTree(was, names, now) && Look(whole, names) == Some(Dir)
    requires forall k :: 0 <= k < |items| ==> Look(whole, items[k].names) == Some(items[k].sight)
    requires forall k :: 0 <= k < i ==> Look(was, items[k].names) == Some(items[k].sight)
    ensures forall k :: 0 <= k < i ==> Look(now, items[k].names) == Some(items[k].sight)
  {
    hide Look;
    forall k | 0 <= k < i ensures Look(now, items[k].names) == Some(items[k].sight) {
      AboveDir(whole, names, items[k].names);
    }
  }

  lemma {:induction false} RestoreItems(whole: Fs, start: Fs, items: seq<Item>, i: nat)
    requires FsOk(whole) && Seen(whole.root, [], items) && DistinctNames(items) && i <= |items|
    requires RestoredPart(whole.root, items, 0, start, whole.limits)
    ensures var r := Restored(start, Texts(items)[..i]);
      && r.Ok? && RestoredPart(whole.root, items, i, r.value.fs, whole.limits)
      && forall path :: path in r.value.paths <==> exists k :: 0 <= k < i && path == Display(items[k].names)
    decreases i
  {
    hide RestoredPart, RestoredEntry, Accounted, Tidy, HasDefaults, Display, SeenAt;
    var entries := Texts(items);
    if i > 0 {
      RestoreItems(whole, start, items, i - 1);
      assert entries[..i][..i - 1] == entries[..i - 1] && entries[..i][i - 1] == Text(items[i - 1]);
      var p := Restored(start, entries[..i - 1]).value;
      NewPath(whole.root, items, i - 1);
      RestoreItem(whole, items, i - 1, p);
    }
  }

  lemma NewPath(whole: Node, items: seq<Item>, i: nat)
    requires Tidy(whole) && Seen(whole, [], items) && DistinctNames(items) && i < |items|
    ensures forall k :: 0 <= k < i ==> Display(items[k].names) != Display(items[i].names)
  {
    AllSeen(whole, items);
    forall k | 0 <= k < i ensures Display(items[k].names) != Display(items[i].names) {
      if Display(items[k].names) == Display(items[i].names) { DisplayInjective(items[k].names, items[i].names); }
    }
  }

  /** A snapshot restored into a new filesystem gives the same tree, counters and limits. */
  lemma RoundTrip(whole: Fs, start: Fs)
    requires FsOk(whole) && Accounted(start) && start.limits == whole.limits && DefaultTree(start.root)
    ensures var r := Restored(start, Collect(whole.root, ""));
      r.Ok? && r.value.fs == whole
  {
    var items := Items(whole.root, []);
    ItemsExact(whole.root, []);
    CollectIsItems(whole.root, []);
    DefaultsInside(start.root, whole.root);
    RestoreItems(whole, start, items, |items|);
    var entries := Texts(items);
    assert entries[..|items|] == entries;
    WholeRestored(whole, items, Restored(start, entries).value.fs);
  }

  lemma DefaultsInside(defaults: Node, whole: Node)
    requires DefaultTree(defaults) && HasDefaults(whole)
    ensures PartOf(defaults, whole)
  {
    hide Look;
    forall q ensures q <= WORKSPACE || q <= TMP || q <= HOME ==> Look(whole, q) == Some(Dir) {
      AboveDir(whole, WORKSPACE, q);
      AboveDir(whole, TMP, q);
      AboveDir(whole, HOME, q);
    }
  }

  lemma AboveDir(root: Node, names: Names, q: Names)
    requires Look(root, names) == Some(Dir)
    ensures q <= names ==> Look(root, q) == Some(Dir)
  {
    if q <= names && q != names { AncestorIsDir(root, names, q); }
  }

  lemma WholeRestored(whole: Fs, items: seq<Item>, fs: Fs)
    requires Accounted(whole) && RestoredPart(whole.root, items, |items|, fs, whole.limits)
    requires forall q :: q != [] && Look(whole.root, q).Some? ==> Item([] + q, Look(whole.root, q).value) in items
    ensures fs == whole
  {
    hide Inodes, FileBytes;
    forall q ensures Look(fs.root, q) == Look(whole.root, q) {
      if q != [] && Look(whole.root, q).Some? {
        assert [] + q == q;
        assert Item(q, Look(whole.root, q).value) in items;
      }
    }
    SameTree(fs.root, whole.root);
  }
}
