/** The guest's file tree as a value: lookups, changes at a path, and what the tree uses. */
module FileTree {
  import opened Wrappers
  import opened OrderedMap
  import opened Values
  import opened GuestPaths

  datatype Node = Directory(entries: OrdMap<Node>) | File(content: seq<byte>)

  const EMPTY: Node := Directory(Entries([], []))

  function NodeAt(root: Node, names: Names): Option<Node>
    decreases |names|
  {
    if names == [] then Some(root)
    else
      match root
      case File(_) => None
      case Directory(entries) =>
        var child := Get(entries, names[0]);
        if child.None? then None else NodeAt(child.value, names[1..])
  }

  /** What stands at a path, without what is below it. */
  datatype Sight = Dir | Content(content: seq<byte>)

  function Look(root: Node, names: Names): Option<Sight> {
    match NodeAt(root, names)
    case None => None
    case Some(Directory(_)) => Some(Dir)
    case Some(File(content)) => Some(Content(content))
  }

  lemma LookBelow(entries: OrdMap<Node>, names: Names)
    requires names != []
    ensures var child := Get(entries, names[0]);
      Look(Directory(entries), names) == if child.None? then None else Look(child.value, names[1..])
  {
  }

  lemma LookChild(entries: OrdMap<Node>, name: string, below: Names)
    ensures var child := Get(entries, name);
      Look(Directory(entries), [name] + below) == if child.None? then None else Look(child.value, below)
  {
    LookBelow(entries, [name] + below);
    assert ([name] + below)[1..] == below;
  }

  /** What stands below a directory is what stands below it in the tree. */
  lemma {:induction false} LookAcross(root: Node, names: Names, below: Names)
    requires NodeAt(root, names).Some?
    ensures Look(root, names + below) == Look(NodeAt(root, names).value, below)
    decreases |names|
  {
    if names == [] {
      assert names + below == below;
    } else {
      LookBelow(root.entries, names + below);
      assert (names + below)[1..] == names[1..] + below;
      LookAcross(Get(root.entries, names[0]).value, names[1..], below);
    }
  }

  /** A tree is determined by what stands at each path. */
  lemma {:induction false} SameTree(a: Node, b: Node)
    requires forall names :: Look(a, names) == Look(b, names)
    ensures a == b
    decreases a
  {
    assert Look(a, []) == Look(b, []);
    if a.Directory? {
      forall k ensures Get(a.entries, k) == Get(b.entries, k) {
        var x, y := Get(a.entries, k), Get(b.entries, k);
        LookChild(a.entries, k, []);
        LookChild(b.entries, k, []);
        assert Look(a, [k] + []) == Look(b, [k] + []);
        if x.Some? && y.Some? {
          forall below ensures Look(x.value, below) == Look(y.value, below) {
            LookChild(a.entries, k, below);
            LookChild(b.entries, k, below);
            assert Look(a, [k] + below) == Look(b, [k] + below);
          }
          assert x.value in a.entries.vals;
          SameTree(x.value, y.value);
        }
      }
      Extensional(a.entries, b.entries);
    }
  }

  /** Every ancestor of something in the tree is a directory. */
  lemma {:induction false} AncestorIsDir(root: Node, names: Names, above: Names)
    requires Look(root, names).Some? && above < names
    ensures Look(root, above) == Some(Dir)
    decreases |names|
  {
    LookBelow(root.entries, names);
    if above != [] {
      LookBelow(root.entries, above);
      AncestorIsDir(Get(root.entries, names[0]).value, names[1..], above[1..]);
    }
  }

  // ----- walking down -----

  /** How far a path can be followed: blocked by a file, missing from an index on, or there. */
  datatype Descent = Blocked(index: nat) | Missing(index: nat) | Found(node: Node)

  function Descend(node: Node, names: Names, i: nat): Descent
    requires i <= |names|
    decreases |names| - i
  {
    if i == |names| then Found(node)
    else
      match node
      case File(_) => Blocked(i)
      case Directory(entries) =>
        var child := Get(entries, names[i]);
        if child.None? then Missing(i) else Descend(child.value, names, i + 1)
  }

  lemma {:induction false} DescendLooks(node: Node, names: Names, i: nat)
    requires i <= |names|
    ensures match Descend(node, names, i)
      case Found(n) => NodeAt(node, names[i..]) == Some(n)
      case Missing(k) =>
        && i <= k < |names| && NodeAt(node, names[i..]).None?
        && Look(node, names[i..k]) == Some(Dir) && Look(node, names[i..k + 1]).None?
      case Blocked(k) =>
        && i <= k < |names| && NodeAt(node, names[i..]).None?
        && Look(node, names[i..k]).Some? && Look(node, names[i..k]) != Some(Dir)
    decreases |names| - i
  {
    if i < |names| && node.Directory? {
      var child := Get(node.entries, names[i]);
      LookBelow(node.entries, names[i..]);
      LookBelow(node.entries, names[i..i + 1]);
      if child.Some? {
        DescendLooks(child.value, names, i + 1);
        assert names[i..][1..] == names[i + 1..];
        var d := Descend(child.value, names, i + 1);
        if !d.Found? {
          LookBelow(node.entries, names[i..d.index]);
          LookBelow(node.entries, names[i..d.index + 1]);
          assert names[i..d.index][1..] == names[i + 1..d.index] && names[i..d.index + 1][1..] == names[i + 1..d.index + 1];
        }
      }
    }
  }

  /** Nothing on the path, or at its end, is a file. */
  predicate Clear(node: Node, names: Names, i: nat)
    requires i <= |names|
  {
    var d := Descend(node, names, i);
    d.Missing? || (d.Found? && d.node.Directory?)
  }

  // ----- changes -----

  /** The tree with every missing directory of the path added. */
  function MakeDirs(node: Node, names: Names, i: nat): (r: Node)
    requires i <= |names| && Clear(node, names, i)
    ensures r.Directory?
    decreases |names| - i
  {
    if i == |names| then node
    else
      var child := Get(node.entries, names[i]);
      var next := if child.None? then EMPTY else child.value;
      NewIsClear(names, i + 1);
      Directory(Insert(node.entries, names[i], MakeDirs(next, names, i + 1)))
  }

  lemma NewIsClear(names: Names, i: nat)
    requires i <= |names|
    ensures Clear(EMPTY, names, i)
    ensures Descend(EMPTY, names, i) == if i == |names| then Found(EMPTY) else Missing(i)
    ensures Inodes(EMPTY) == 1 && FileBytes(EMPTY) == 0
  {
  }

  /** Making directories adds exactly the path and its ancestors, and changes nothing else. */
  lemma {:induction false} MakeDirsLooks(node: Node, names: Names, i: nat, q: Names)
    requires i <= |names| && Clear(node, names, i)
    ensures Look(MakeDirs(node, names, i), q) == if q <= names[i..] then Some(Dir) else Look(node, q)
    decreases |names| - i
  {
    if i < |names| && q != [] {
      var child := Get(node.entries, names[i]);
      var next := if child.None? then EMPTY else child.value;
      NewIsClear(names, i + 1);
      var made := MakeDirs(next, names, i + 1);
      GetAfterInsert(node.entries, names[i], made, q[0]);
      LookBelow(Insert(node.entries, names[i], made), q);
      LookBelow(node.entries, q);
      if q[0] == names[i] {
        MakeDirsLooks(next, names, i + 1, q[1..]);
        PrefixTail(q, names[i..]);
        assert names[i..][1..] == names[i + 1..];
        if child.None? && q[1..] != [] { LookBelow(Entries([], []), q[1..]); }
      }
    } else if q == [] {
    }
  }

  lemma PrefixTail(q: Names, p: Names)
    requires q != [] && p != [] && q[0] == p[0]
    ensures q <= p <==> q[1..] <= p[1..]
  {
    assert q == [q[0]] + q[1..] && p == [p[0]] + p[1..];
  }

  /** The tree with a file put where the parent directory is there and no directory is in the way. */
  function PutFile(root: Node, names: Names, content: seq<byte>): Node
    requires names != [] && Look(root, names[..|names| - 1]) == Some(Dir)
    decreases |names|
  {
    if |names| == 1 then Directory(Insert(root.entries, names[0], File(content)))
    else
      ParentBelow(root, names);
      Directory(Insert(root.entries, names[0], PutFile(Get(root.entries, names[0]).value, names[1..], content)))
  }

  lemma ParentBelow(root: Node, names: Names)
    requires |names| > 1 && Look(root, names[..|names| - 1]) == Some(Dir)
    ensures root.Directory? && Get(root.entries, names[0]).Some?
    ensures Look(Get(root.entries, names[0]).value, names[1..][..|names| - 2]) == Some(Dir)
  {
    var parent := names[..|names| - 1];
    assert parent[1..] == names[1..][..|names| - 2] && parent[0] == names[0];
  }

  /** Putting a file changes what stands at its path and nothing else. */
  lemma {:induction false} PutFileLooks(root: Node, names: Names, content: seq<byte>, q: Names)
    requires names != [] && Look(root, names[..|names| - 1]) == Some(Dir) && Look(root, names) != Some(Dir)
    ensures Look(PutFile(root, names, content), q) == if q == names then Some(Content(content)) else Look(root, q)
    decreases |names|
  {
    hide Insert, LowerBound, Ascending, Has;
    LookBelow(root.entries, names);
    if q != [] {
      LookBelow(root.entries, q);
      if |names| == 1 {
        GetAfterInsert(root.entries, names[0], File(content), q[0]);
        LookBelow(Insert(root.entries, names[0], File(content)), q);
        if q[0] == names[0] {
          assert q == names <==> q[1..] == [];
        }
      } else {
        ParentBelow(root, names);
        var child := Get(root.entries, names[0]).value;
        var put := PutFile(child, names[1..], content);
        GetAfterInsert(root.entries, names[0], put, q[0]);
        LookBelow(Insert(root.entries, names[0], put), q);
        if q[0] == names[0] {
          PutFileLooks(child, names[1..], content, q[1..]);
          assert q == [q[0]] + q[1..] && names == [names[0]] + names[1..];
        }
      }
    }
  }

  // ----- use -----

  /** Nodes in the tree, itself included. */
  function Inodes(node: Node): nat {
    match node
    case File(_) => 1
    case Directory(entries) => 1 + InodesAll(entries.vals)
  }

  function InodesAll(nodes: seq<Node>): nat {
    if nodes == [] then 0 else InodesAll(nodes[..|nodes| - 1]) + Inodes(nodes[|nodes| - 1])
  }

  /** Bytes in all files of the tree. */
  function FileBytes(node: Node): nat {
    match node
    case File(content) => |content|
    case Directory(entries) => FileBytesAll(entries.vals)
  }

  function FileBytesAll(nodes: seq<Node>): nat {
    if nodes == [] then 0 else FileBytesAll(nodes[..|nodes| - 1]) + FileBytes(nodes[|nodes| - 1])
  }

  lemma {:induction false} UseAfterSet(nodes: seq<Node>, i: nat, node: Node)
    requires i < |nodes|
    ensures InodesAll(nodes[i := node]) + Inodes(nodes[i]) == InodesAll(nodes) + Inodes(node)
    ensures FileBytesAll(nodes[i := node]) + FileBytes(nodes[i]) == FileBytesAll(nodes) + FileBytes(node)
  {
    var n := |nodes| - 1;
    if i == n {
      assert nodes[i := node][..n] == nodes[..n];
    } else {
      UseAfterSet(nodes[..n], i, node);
      assert nodes[i := node][..n] == nodes[..n][i := node];
    }
  }

  lemma {:induction false} UseAfterSplice(nodes: seq<Node>, i: nat, node: Node)
    requires i <= |nodes|
    ensures InodesAll(nodes[..i] + [node] + nodes[i..]) == InodesAll(nodes) + Inodes(node)
    ensures FileBytesAll(nodes[..i] + [node] + nodes[i..]) == FileBytesAll(nodes) + FileBytes(node)
  {
    var n := |nodes|;
    var spliced := nodes[..i] + [node] + nodes[i..];
    if i == n {
      assert spliced[..n] == nodes;
    } else {
      UseAfterSplice(nodes[..n - 1], i, node);
      assert spliced[..n] == nodes[..n - 1][..i] + [node] + nodes[..n - 1][i..];
      assert spliced[n] == nodes[n - 1];
    }
  }

  function InodesOf(node: Option<Node>): nat {
    if node.None? then 0 else Inodes(node.value)
  }

  function FileBytesOf(node: Option<Node>): nat {
    if node.None? then 0 else FileBytes(node.value)
  }

  lemma UseAfterInsert(entries: OrdMap<Node>, name: string, node: Node)
    ensures Inodes(Directory(Insert(entries, name, node))) + InodesOf(Get(entries, name)) ==
            Inodes(Directory(entries)) + Inodes(node)
    ensures FileBytes(Directory(Insert(entries, name, node))) + FileBytesOf(Get(entries, name)) ==
            FileBytes(Directory(entries)) + FileBytes(node)
  {
    var i := LowerBound(entries.keys, name);
    if Has(entries, name) { UseAfterSet(entries.vals, i, node); } else { UseAfterSplice(entries.vals, i, node); }
  }

  /** Making directories costs one inode for each missing name and no bytes. */
  lemma {:induction false} MakeDirsUse(node: Node, names: Names, i: nat)
    requires i <= |names| && Clear(node, names, i)
    ensures var made, d := MakeDirs(node, names, i), Descend(node, names, i);
      && Inodes(made) == Inodes(node) + (if d.Missing? then |names| - d.index else 0)
      && (d.Missing? ==> i <= d.index < |names|)
      && FileBytes(made) == FileBytes(node)
    decreases |names| - i
  {
    hide LowerBound, Ascending, Inodes, FileBytes, Insert, Get;
    if i < |names| {
      var child := Get(node.entries, names[i]);
      var next := if child.None? then EMPTY else child.value;
      NewIsClear(names, i + 1);
      MakeDirsUse(next, names, i + 1);
      UseAfterInsert(node.entries, names[i], MakeDirs(next, names, i + 1));
    }
  }

  /** Putting a file costs an inode if nothing was there, and its bytes less those it replaces. */
  lemma {:induction false} PutFileUse(root: Node, names: Names, content: seq<byte>)
    requires names != [] && Look(root, names[..|names| - 1]) == Some(Dir) && Look(root, names) != Some(Dir)
    ensures var put, was := PutFile(root, names, content), NodeAt(root, names);
      && Inodes(put) == Inodes(root) + (if was.None? then 1 else 0)
      && FileBytes(put) + FileBytesOf(was) == FileBytes(root) + |content|
    decreases |names|
  {
    if |names| == 1 {
      UseAfterInsert(root.entries, names[0], File(content));
    } else {
      ParentBelow(root, names);
      var child := Get(root.entries, names[0]).value;
      LookBelow(root.entries, names);
      PutFileUse(child, names[1..], content);
      UseAfterInsert(root.entries, names[0], PutFile(child, names[1..], content));
    }
  }

  /** No file is larger than the whole tree. */
  lemma {:induction false} FileWithin(root: Node, names: Names)
    requires NodeAt(root, names).Some?
    ensures FileBytes(NodeAt(root, names).value) <= FileBytes(root)
    decreases |names|
  {
    if names != [] {
      FileWithin(Get(root.entries, names[0]).value, names[1..]);
      UseAfterSet(root.entries.vals, LowerBound(root.entries.keys, names[0]), File([]));
    }
  }
}
