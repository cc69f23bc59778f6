/** The reference-counted heap as a value: object cells addressed by id, the references they hold,
    and the immutable tree every reference stands for. */
module HeapModel {
  import opened Wrappers
  import opened OrderedMap
  import opened Values

  /** A VM value; cloning a reference shares its object. */
  datatype Value = Null | Bool(flag: bool) | Integer(number: i64) | Ref(id: nat)

  datatype HeapData =
    | Text(text: string)
    | Bytes(bytes: seq<byte>)
    | List(items: seq<Value>)
    | Map(entries: OrdMap<Value>)

  /** `count` is the strong count of the object's `Rc`. */
  datatype Object = Object(data: HeapData, charge: nat, depth: nat, count: nat)

  datatype Cell = Freed | Live(obj: Object)

  function Children(data: HeapData): seq<Value> {
    match data
    case List(items) => items
    case Map(entries) => entries.vals
    case _ => []
  }

  ghost function ObjectCharge(data: HeapData): nat {
    match data
    case Text(text) => HEAP_OBJECT_CHARGE + Utf8Len(text)
    case Bytes(bytes) => HEAP_OBJECT_CHARGE + |bytes|
    case List(items) => HEAP_OBJECT_CHARGE + |items| * VALUE_SIZE
    case Map(entries) => HEAP_OBJECT_CHARGE + KeysCharge(entries.keys)
  }

  predicate IsLive(h: seq<Cell>, id: nat) {
    id < |h| && h[id].Live?
  }

  /** The value is a scalar or refers to a live object. */
  predicate Holds(h: seq<Cell>, v: Value) {
    v.Ref? ==> IsLive(h, v.id)
  }

  /** The cached nesting depth of a value. */
  function DepthOf(h: seq<Cell>, v: Value): nat {
    if v.Ref? && IsLive(h, v.id) then h[v.id].obj.depth else 0
  }

  function DepthAbove(h: seq<Cell>, items: seq<Value>): nat {
    if items == [] then 0
    else Max(DepthAbove(h, items[..|items| - 1]), DepthOf(h, items[|items| - 1]) + 1)
  }

  // ----- what the cells hold, summed over the heap -----

  ghost function CellRefs(c: Cell): multiset<Value> {
    if c.Live? then multiset(Children(c.obj.data)) else multiset{}
  }

  ghost function HeapRefs(h: seq<Cell>): multiset<Value> {
    if h == [] then multiset{} else HeapRefs(h[..|h| - 1]) + CellRefs(h[|h| - 1])
  }

  ghost function CellCharge(c: Cell): nat {
    if c.Live? then c.obj.charge else 0
  }

  ghost function TotalCharge(h: seq<Cell>): nat {
    if h == [] then 0 else TotalCharge(h[..|h| - 1]) + CellCharge(h[|h| - 1])
  }

  ghost function CellCount(c: Cell): nat {
    if c.Live? then c.obj.count else 0
  }

  ghost function TotalCount(h: seq<Cell>): nat {
    if h == [] then 0 else TotalCount(h[..|h| - 1]) + CellCount(h[|h| - 1])
  }

  ghost function CountOf(h: seq<Cell>, id: nat): nat {
    if id < |h| then CellCount(h[id]) else 0
  }

  lemma {:induction false} UpdateRefs(h: seq<Cell>, i: nat, c: Cell)
    requires i < |h|
    ensures HeapRefs(h[i := c]) + CellRefs(h[i]) == HeapRefs(h) + CellRefs(c)
  {
    hide CellRefs;
    var n := |h| - 1;
    var g := h[i := c];
    if i == n {
      assert g[..n] == h[..n];
      Swapped(HeapRefs(h[..n]), CellRefs(c), CellRefs(h[n]));
    } else {
      UpdateRefs(h[..n], i, c);
      assert g[..n] == h[..n][i := c];
      OneMore(HeapRefs(g[..n]), HeapRefs(h[..n]), CellRefs(h[i]), CellRefs(c), CellRefs(h[n]));
    }
  }

  lemma Swapped(a: multiset<Value>, b: multiset<Value>, c: multiset<Value>)
    ensures (a + b) + c == (a + c) + b
  {
  }

  lemma OneMore(a: multiset<Value>, b: multiset<Value>, c: multiset<Value>, d: multiset<Value>, last: multiset<Value>)
    requires a + c == b + d
    ensures (a + last) + c == (b + last) + d
  {
    assert (a + last) + c == (a + c) + last;
    assert (b + last) + d == (b + d) + last;
  }

  lemma {:induction false} UpdateNumbers(h: seq<Cell>, i: nat, c: Cell)
    requires i < |h|
    ensures TotalCharge(h[i := c]) + CellCharge(h[i]) == TotalCharge(h) + CellCharge(c)
    ensures TotalCount(h[i := c]) + CellCount(h[i]) == TotalCount(h) + CellCount(c)
  {
    var n := |h| - 1;
    if i == n {
      assert h[i := c][..n] == h[..n];
    } else {
      UpdateNumbers(h[..n], i, c);
      assert h[i := c][..n] == h[..n][i := c];
    }
  }

  lemma AppendSums(h: seq<Cell>, c: Cell)
    ensures HeapRefs(h + [c]) == HeapRefs(h) + CellRefs(c)
    ensures TotalCharge(h + [c]) == TotalCharge(h) + CellCharge(c)
  {
    assert (h + [c])[..|h|] == h;
  }

  lemma {:induction false} CellInHeap(h: seq<Cell>, i: nat)
    requires i < |h|
    ensures CellRefs(h[i]) <= HeapRefs(h)
  {
    var n := |h| - 1;
    if i < n { CellInHeap(h[..n], i); }
  }

  // ----- the heap invariant -----

  /** Every strong count is the number of references to the object, held by `refs` or by other
      objects, and exactly the objects with a reference are live. */
  ghost predicate Counted(h: seq<Cell>, refs: multiset<Value>) {
    forall id: nat {:trigger Ref(id)} {:trigger IsLive(h, id)} {:trigger CountOf(h, id)} ::
      && refs[Ref(id)] + HeapRefs(h)[Ref(id)] == CountOf(h, id)
      && (IsLive(h, id) ==> CountOf(h, id) > 0)
  }

  /** Cached charges are structural costs; cached depths are one above the deepest child. */
  ghost predicate ObjectsExact(h: seq<Cell>) {
    forall id: nat :: IsLive(h, id) ==>
      && h[id].obj.charge == ObjectCharge(h[id].obj.data)
      && h[id].obj.depth == DepthAbove(h, Children(h[id].obj.data)) <= MAX_VALUE_DEPTH
  }

  ghost predicate HeapOk(h: seq<Cell>, refs: multiset<Value>) {
    Counted(h, refs) && ObjectsExact(h)
  }

  /** Every child of a live object is a scalar or live. */
  ghost predicate ChildrenHeld(h: seq<Cell>) {
    forall id: nat, v :: IsLive(h, id) && v in Children(h[id].obj.data) ==> Holds(h, v)
  }

  lemma ChildHeld(h: seq<Cell>, refs: multiset<Value>)
    requires Counted(h, refs)
    ensures ChildrenHeld(h)
    ensures forall v :: v in refs ==> Holds(h, v)
  {
    forall id: nat, v | IsLive(h, id) && v in Children(h[id].obj.data) ensures Holds(h, v) {
      CellInHeap(h, id);
      assert v in CellRefs(h[id]);
      if v.Ref? { assert CountOf(h, v.id) > 0; }
    }
    forall v | v in refs ensures Holds(h, v) {
      if v.Ref? { assert CountOf(h, v.id) > 0; }
    }
  }

  lemma {:induction false} DeeperThanChildren(h: seq<Cell>, items: seq<Value>)
    ensures forall v :: v in items ==> DepthOf(h, v) < DepthAbove(h, items)
    ensures items == [] || exists v :: v in items && DepthOf(h, v) + 1 == DepthAbove(h, items)
  {
    if items != [] {
      var n := |items| - 1;
      DeeperThanChildren(h, items[..n]);
      assert items == items[..n] + [items[n]];
      assert items[n] in items;
    }
  }

  /** The two properties of `DeeperThanChildren` determine the depth. */
  lemma DepthAboveUnique(h: seq<Cell>, items: seq<Value>, d: nat)
    requires forall v :: v in items ==> DepthOf(h, v) < d
    requires if items == [] then d == 0 else exists v :: v in items && DepthOf(h, v) + 1 == d
    ensures DepthAbove(h, items) == d
  {
    DeeperThanChildren(h, items);
  }

  // ----- the tree a value stands for -----

  ghost function Tree(h: seq<Cell>, v: Value): OwnedValue
    decreases DepthOf(h, v), 1, 0
  {
    match v
    case Null => OwnedValue.Null
    case Bool(b) => OwnedValue.Bool(b)
    case Integer(n) => OwnedValue.Integer(n)
    case Ref(id) =>
      if !IsLive(h, id) then OwnedValue.Null
      else match h[id].obj.data
        case Text(text) => OwnedValue.Text(text)
        case Bytes(bytes) => OwnedValue.Bytes(bytes)
        case List(items) => OwnedValue.List(TreesBelow(h, items, DepthOf(h, v)))
        case Map(entries) =>
          OwnedValue.Map(Entries(entries.keys, TreesBelow(h, entries.vals, DepthOf(h, v))))
  }

  ghost function TreesBelow(h: seq<Cell>, items: seq<Value>, bound: nat): (r: seq<OwnedValue>)
    ensures |r| == |items|
    ensures forall i :: 0 <= i < |r| ==>
      r[i] == if DepthOf(h, items[i]) < bound then Tree(h, items[i]) else OwnedValue.Null
    decreases bound, 0, |items|
  {
    if items == [] then []
    else
      var last := items[|items| - 1];
      TreesBelow(h, items[..|items| - 1], bound) +
      [if DepthOf(h, last) < bound then Tree(h, last) else OwnedValue.Null]
  }

  ghost function Trees(h: seq<Cell>, items: seq<Value>): (r: seq<OwnedValue>)
    ensures |r| == |items|
    ensures forall i :: 0 <= i < |r| ==> r[i] == Tree(h, items[i])
  {
    seq(|items|, i requires 0 <= i < |items| => Tree(h, items[i]))
  }

  ghost function DataTree(h: seq<Cell>, data: HeapData): OwnedValue {
    match data
    case Text(text) => OwnedValue.Text(text)
    case Bytes(bytes) => OwnedValue.Bytes(bytes)
    case List(items) => OwnedValue.List(Trees(h, items))
    case Map(entries) => OwnedValue.Map(Entries(entries.keys, Trees(h, entries.vals)))
  }

  lemma TreeOfObject(h: seq<Cell>, id: nat)
    requires IsLive(h, id) && h[id].obj.depth == DepthAbove(h, Children(h[id].obj.data))
    ensures Tree(h, Ref(id)) == DataTree(h, h[id].obj.data)
  {
    var items := Children(h[id].obj.data);
    DeeperThanChildren(h, items);
    assert forall i :: 0 <= i < |items| ==> items[i] in items;
    assert TreesBelow(h, items, h[id].obj.depth) == Trees(h, items);
  }

  /** Cached depth is true height. */
  lemma {:induction false} DepthIsHeight(h: seq<Cell>, v: Value)
    requires ObjectsExact(h) && ChildrenHeld(h) && Holds(h, v)
    ensures DepthOf(h, v) == Height(Tree(h, v))
    decreases DepthOf(h, v), 1, 0
  {
    if v.Ref? {
      TreeOfObject(h, v.id);
      var items := Children(h[v.id].obj.data);
      DeeperThanChildren(h, items);
      ItemsDepthIsHeight(h, items, DepthOf(h, v));
    }
  }

  lemma {:induction false} ItemsDepthIsHeight(h: seq<Cell>, items: seq<Value>, bound: nat)
    requires ObjectsExact(h) && ChildrenHeld(h)
    requires forall v :: v in items ==> Holds(h, v) && DepthOf(h, v) < bound
    ensures DepthAbove(h, items) == ItemsHeight(Trees(h, items))
    decreases bound, 0, |items|
  {
    if items != [] {
      var n := |items| - 1;
      assert items == items[..n] + [items[n]];
      ItemsDepthIsHeight(h, items[..n], bound);
      DepthIsHeight(h, items[n]);
      assert Trees(h, items)[..n] == Trees(h, items[..n]);
    }
  }

  // ----- framing -----

  /** Outside object `x`, which no object refers to, `g` holds the objects of `h` unchanged apart from counts. */
  ghost predicate Agree(h: seq<Cell>, g: seq<Cell>, x: int) {
    forall id: nat :: IsLive(h, id) && id != x ==>
      && IsLive(g, id)
      && g[id].obj.data == h[id].obj.data
      && g[id].obj.depth == h[id].obj.depth
      && forall v :: v in Children(h[id].obj.data) ==> Holds(h, v) && (v.Ref? ==> v.id != x)
  }

  lemma {:induction false} SameTree(h: seq<Cell>, g: seq<Cell>, x: int, v: Value)
    requires Agree(h, g, x) && Holds(h, v) && (v.Ref? ==> v.id != x)
    ensures Holds(g, v) && DepthOf(g, v) == DepthOf(h, v) && Tree(g, v) == Tree(h, v)
    decreases DepthOf(h, v)
  {
    if v.Ref? {
      var items := Children(h[v.id].obj.data);
      var bound := DepthOf(h, v);
      forall i | 0 <= i < |items|
        ensures DepthOf(g, items[i]) == DepthOf(h, items[i])
        ensures DepthOf(h, items[i]) < bound ==> Tree(g, items[i]) == Tree(h, items[i])
      {
        assert items[i] in items;
        if DepthOf(h, items[i]) < bound { SameTree(h, g, x, items[i]); }
      }
      assert TreesBelow(g, items, bound) == TreesBelow(h, items, bound);
    }
  }

  lemma {:induction false} SameDepthAbove(h: seq<Cell>, g: seq<Cell>, items: seq<Value>)
    requires forall v :: v in items ==> DepthOf(g, v) == DepthOf(h, v)
    ensures DepthAbove(g, items) == DepthAbove(h, items)
  {
    if items != [] {
      var n := |items| - 1;
      assert items == items[..n] + [items[n]];
      SameDepthAbove(h, g, items[..n]);
    }
  }

  /** Every value of `kept` means the same in both heaps. */
  ghost predicate Keeps(h: seq<Cell>, g: seq<Cell>, kept: multiset<Value>) {
    forall v {:trigger Tree(g, v)} {:trigger kept[v]} :: v in kept ==>
      Holds(h, v) && Holds(g, v) && DepthOf(g, v) == DepthOf(h, v) && Tree(g, v) == Tree(h, v)
  }

  lemma AgreeKeeps(h: seq<Cell>, g: seq<Cell>, x: int, kept: multiset<Value>)
    requires Agree(h, g, x)
    requires forall v :: v in kept ==> Holds(h, v) && (v.Ref? ==> v.id != x)
    ensures Keeps(h, g, kept)
  {
    forall v | v in kept ensures Holds(g, v) && DepthOf(g, v) == DepthOf(h, v) && Tree(g, v) == Tree(h, v) {
      SameTree(h, g, x, v);
    }
  }

  ghost predicate ExactExcept(h: seq<Cell>, x: int) {
    forall id: nat :: IsLive(h, id) && id != x ==>
      && h[id].obj.charge == ObjectCharge(h[id].obj.data)
      && h[id].obj.depth == DepthAbove(h, Children(h[id].obj.data)) <= MAX_VALUE_DEPTH
  }

  /** Objects outside `x` stay exact when the heaps agree and `g` has no other new object. */
  lemma AgreeExact(h: seq<Cell>, g: seq<Cell>, x: int)
    requires Agree(h, g, x) && ObjectsExact(h)
    requires forall id: nat :: IsLive(g, id) && id != x ==> IsLive(h, id) && g[id].obj.charge == h[id].obj.charge
    ensures ExactExcept(g, x)
  {
    forall id: nat | IsLive(g, id) && id != x
      ensures g[id].obj.charge == ObjectCharge(g[id].obj.data)
      ensures g[id].obj.depth == DepthAbove(g, Children(g[id].obj.data)) <= MAX_VALUE_DEPTH
    {
      assert IsLive(h, id);
      SameDepthAbove(h, g, Children(h[id].obj.data));
    }
  }

  // ----- reachability: nothing leaks -----

  /** Object `id` is reached from `refs` through `n` objects. */
  ghost predicate ReachedIn(h: seq<Cell>, refs: multiset<Value>, id: nat, n: nat)
    decreases n
  {
    if n == 0 then Ref(id) in refs
    else exists parent: nat :: IsLive(h, parent) && Ref(id) in Children(h[parent].obj.data) && ReachedIn(h, refs, parent, n - 1)
  }

  ghost predicate Reachable(h: seq<Cell>, refs: multiset<Value>, id: nat) {
    exists n: nat :: ReachedIn(h, refs, id, n)
  }

  lemma {:induction false} HolderExists(h: seq<Cell>, v: Value) returns (parent: nat)
    requires v in HeapRefs(h)
    ensures IsLive(h, parent) && v in Children(h[parent].obj.data)
  {
    var n := |h| - 1;
    if v in CellRefs(h[n]) { parent := n; } else { parent := HolderExists(h[..n], v); }
  }

  /** A live object that nothing outside refers to is inside a deeper live object. */
  lemma ParentExists(h: seq<Cell>, refs: multiset<Value>, id: nat) returns (parent: nat)
    requires HeapOk(h, refs) && IsLive(h, id) && Ref(id) !in refs
    ensures IsLive(h, parent) && Ref(id) in Children(h[parent].obj.data)
    ensures h[id].obj.depth < h[parent].obj.depth <= MAX_VALUE_DEPTH
  {
    assert refs[Ref(id)] + HeapRefs(h)[Ref(id)] == CountOf(h, id);
    parent := HolderExists(h, Ref(id));
    DeeperThanChildren(h, Children(h[parent].obj.data));
  }

  lemma {:induction false} LiveIsReached(h: seq<Cell>, refs: multiset<Value>, id: nat) returns (n: nat)
    requires HeapOk(h, refs) && IsLive(h, id)
    ensures ReachedIn(h, refs, id, n)
    decreases MAX_VALUE_DEPTH - h[id].obj.depth
  {
    hide HeapRefs, DepthAbove, HeapOk;
    if Ref(id) in refs {
      n := 0;
    } else {
      var parent := ParentExists(h, refs, id);
      var m := LiveIsReached(h, refs, parent);
      n := m + 1;
    }
  }

  /** Exactly the live objects are reachable: the counts neither leak nor free too early. */
  lemma LiveExactlyReachable(h: seq<Cell>, refs: multiset<Value>, id: nat)
    requires HeapOk(h, refs)
    ensures IsLive(h, id) <==> Reachable(h, refs, id)
  {
    if IsLive(h, id) { var n := LiveIsReached(h, refs, id); }
    ChildHeld(h, refs);
    if Reachable(h, refs, id) {
      var n :| ReachedIn(h, refs, id, n);
      assert Holds(h, Ref(id)) by {
        if n != 0 {
          var parent: nat :| IsLive(h, parent) && Ref(id) in Children(h[parent].obj.data);
          assert Holds(h, Ref(id));
        }
      }
    }
  }

  /** The heap has no cycle: following references strictly lowers the depth. */
  lemma Acyclic(h: seq<Cell>, refs: multiset<Value>, parent: nat, child: nat)
    requires HeapOk(h, refs) && IsLive(h, parent) && Ref(child) in Children(h[parent].obj.data)
    ensures IsLive(h, child) && h[child].obj.depth < h[parent].obj.depth
  {
    ChildHeld(h, refs);
    assert Holds(h, Ref(child));
    DeeperThanChildren(h, Children(h[parent].obj.data));
  }

  // ----- resolve -----

  /** `resolve_at`: rebuilds the owned tree, failing below the depth limit. */
  function ResolveAt(h: seq<Cell>, v: Value, depth: nat): Result<OwnedValue, VmError>
    requires ChildrenHeld(h) && Holds(h, v)
    decreases MAX_VALUE_DEPTH + 1 - depth, 1, 0
  {
    if depth > MAX_VALUE_DEPTH then Err(ValueDepthLimit)
    else match v
      case Null => Ok(OwnedValue.Null)
      case Bool(b) => Ok(OwnedValue.Bool(b))
      case Integer(n) => Ok(OwnedValue.Integer(n))
      case Ref(id) =>
        match h[id].obj.data
        case Text(text) => Ok(OwnedValue.Text(text))
        case Bytes(bytes) => Ok(OwnedValue.Bytes(bytes))
        case List(items) =>
          var r := ResolveItems(h, items, depth + 1);
          if r.Err? then Err(r.error) else Ok(OwnedValue.List(r.value))
        case Map(entries) =>
          var r := ResolveItems(h, entries.vals, depth + 1);
          if r.Err? then Err(r.error) else Ok(OwnedValue.Map(Entries(entries.keys, r.value)))
  }

  function ResolveItems(h: seq<Cell>, items: seq<Value>, depth: nat): (r: Result<seq<OwnedValue>, VmError>)
    requires ChildrenHeld(h) && forall v :: v in items ==> Holds(h, v)
    requires depth <= MAX_VALUE_DEPTH + 1
    ensures r.Ok? ==> |r.value| == |items|
    decreases MAX_VALUE_DEPTH + 1 - depth, 2, |items|
  {
    if items == [] then Ok([])
    else
      var n := |items| - 1;
      assert items == items[..n] + [items[n]];
      var front := ResolveItems(h, items[..n], depth);
      if front.Err? then front
      else
        var last := ResolveAt(h, items[n], depth);
        if last.Err? then Err(last.error) else Ok(front.value + [last.value])
  }

  /** Resolving never fails on a heap that keeps the invariant, and gives the value's tree. */
  lemma ResolveIsTree(h: seq<Cell>, refs: multiset<Value>, v: Value)
    requires HeapOk(h, refs) && Holds(h, v)
    ensures ChildrenHeld(h) && ResolveAt(h, v, 0) == Ok(Tree(h, v))
  {
    ChildHeld(h, refs);
    ResolveAtIsTree(h, v, 0);
  }

  lemma {:induction false} ResolveAtIsTree(h: seq<Cell>, v: Value, depth: nat)
    requires ObjectsExact(h) && ChildrenHeld(h) && Holds(h, v) && depth + DepthOf(h, v) <= MAX_VALUE_DEPTH
    ensures ResolveAt(h, v, depth) == Ok(Tree(h, v))
    decreases MAX_VALUE_DEPTH + 1 - depth, 1, 0
  {
    if v.Ref? {
      TreeOfObject(h, v.id);
      var items := Children(h[v.id].obj.data);
      DeeperThanChildren(h, items);
      if items != [] { ResolveItemsAreTrees(h, items, depth + 1); }
    }
  }

  lemma {:induction false} ResolveItemsAreTrees(h: seq<Cell>, items: seq<Value>, depth: nat)
    requires ObjectsExact(h) && ChildrenHeld(h) && depth <= MAX_VALUE_DEPTH + 1
    requires forall v :: v in items ==> Holds(h, v) && depth + DepthOf(h, v) <= MAX_VALUE_DEPTH
    ensures ResolveItems(h, items, depth) == Ok(Trees(h, items))
    decreases MAX_VALUE_DEPTH + 1 - depth, 2, |items|
  {
    if items != [] {
      var n := |items| - 1;
      assert items == items[..n] + [items[n]];
      ResolveItemsAreTrees(h, items[..n], depth);
      ResolveAtIsTree(h, items[n], depth);
      assert Trees(h, items) == Trees(h, items[..n]) + [Tree(h, items[n])];
    }
  }
}
