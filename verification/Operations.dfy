/** The operand operations on shared values. Lists and maps are changed in place when the operand is the only
    reference and copied otherwise; either way the outcome is that of the value-semantics machine. */
module Operations {
  import opened Wrappers
  import opened OrderedMap
  import opened Values
  import opened HeapModel
  import opened SharedHeap
  import opened Bytecode
  import opened InstructionMeaning
  import V = ValueMachine

  // ----- reading operands -----

  function KindOf(h: seq<Cell>, v: Value): Kind
    requires Holds(h, v)
  {
    match v
    case Null => NullKind
    case Bool(_) => BoolKind
    case Integer(_) => IntegerKind
    case Ref(id) =>
      match h[id].obj.data
      case Text(_) => TextKind
      case Bytes(_) => BytesKind
      case List(_) => ListKind
      case Map(_) => MapKind
  }

  predicate IsList(h: seq<Cell>, v: Value) {
    v.Ref? && IsLive(h, v.id) && h[v.id].obj.data.List?
  }

  predicate IsMap(h: seq<Cell>, v: Value) {
    v.Ref? && IsLive(h, v.id) && h[v.id].obj.data.Map?
  }

  predicate IsText(h: seq<Cell>, v: Value) {
    v.Ref? && IsLive(h, v.id) && h[v.id].obj.data.Text?
  }

  function Mismatch(h: seq<Cell>, expected: Kind, v: Value): Result<Value, VmError>
    requires Holds(h, v)
  {
    Err(TypeMismatch(expected, KindOf(h, v)))
  }

  /** `binary_int`. */
  function IntegerOperation(h: seq<Cell>, op: Op, lhs: Value, rhs: Value): Result<Value, VmError>
    requires Holds(h, lhs) && Holds(h, rhs)
    requires op.Add? || op.Sub? || op.Mul? || (op.Div? && (rhs.Integer? ==> rhs.number != 0))
  {
    if !lhs.Integer? then Mismatch(h, IntegerKind, lhs)
    else if !rhs.Integer? then Mismatch(h, IntegerKind, rhs)
    else
      var n := V.Arithmetic(op, lhs.number, rhs.number);
      if V.InI64(n) then Ok(Value.Integer(n)) else Err(IntegerOverflow)
  }

  predicate IsScalarOperation(op: Op) {
    op.Add? || op.Sub? || op.Mul? || op.Div? || op.Eq? || op.Lt? || op.ListLen?
  }

  /** Operations whose result is a scalar. */
  function ScalarOperation(h: seq<Cell>, op: Op, args: seq<Value>, env: Env): Result<Value, VmError>
    requires IsScalarOperation(op) && |args| == Required(op, env)
    requires forall v :: v in args ==> Holds(h, v)
  {
    if op.ListLen? then
      if !IsList(h, args[0]) then Mismatch(h, ListKind, args[0])
      else
        var count := |h[args[0].id].obj.data.items|;
        if V.InI64(count) then Ok(Value.Integer(count)) else Err(IntegerOverflow)
    else
      var lhs, rhs := args[0], args[1];
      if op.Eq? then
        if lhs.Ref? || rhs.Ref? then Err(TypeMismatch(Scalar, HeapKind)) else Ok(Value.Bool(lhs == rhs))
      else if op.Lt? then
        if !lhs.Integer? then Mismatch(h, IntegerKind, lhs)
        else if !rhs.Integer? then Mismatch(h, IntegerKind, rhs)
        else Ok(Value.Bool(lhs.number < rhs.number))
      else if op.Div? && !rhs.Integer? then Mismatch(h, IntegerKind, rhs)
      else if op.Div? && rhs.number == 0 then Err(DivisionByZero)
      else IntegerOperation(h, op, lhs, rhs)
  }

  /** `list_get` and `map_get`: the element itself, still shared. */
  function Lookup(h: seq<Cell>, op: Op, args: seq<Value>): Result<Value, VmError>
    requires (op.ListGet? || op.MapGet?) && |args| == 2
    requires forall v :: v in args ==> Holds(h, v)
  {
    var collection, at := args[0], args[1];
    if op.ListGet? then
      if !at.Integer? then Mismatch(h, IntegerKind, at)
      else if at.number < 0 then Err(IndexOutOfBounds)
      else if !IsList(h, collection) then Mismatch(h, ListKind, collection)
      else
        var items := h[collection.id].obj.data.items;
        if at.number >= |items| then Err(IndexOutOfBounds) else Ok(items[at.number])
    else if !IsText(h, at) then Mismatch(h, TextKind, at)
    else if !IsMap(h, collection) then Mismatch(h, MapKind, collection)
    else
      var found := Get(h[collection.id].obj.data.entries, h[at.id].obj.data.text);
      if found.None? then Err(MissingKey) else Ok(found.value)
  }

  /** What a value is can be read off its tree. */
  lemma TreeShape(h: seq<Cell>, v: Value)
    requires ObjectsExact(h) && Holds(h, v)
    ensures KindOf(h, v) == V.KindOf(Tree(h, v))
    ensures v.Ref? <==> V.IsHeap(Tree(h, v))
    ensures v.Ref? ==> Tree(h, v) == DataTree(h, h[v.id].obj.data)
    ensures v.Integer? <==> Tree(h, v).Integer?
    ensures v.Integer? ==> Tree(h, v).number == v.number
  {
    if v.Ref? { TreeOfObject(h, v.id); }
  }

  /** An outcome on shared values as an outcome on the values they stand for. */
  ghost function Stands(h: seq<Cell>, r: Result<Value, VmError>): Result<OwnedValue, VmError> {
    if r.Ok? then Ok(Tree(h, r.value)) else Err(r.error)
  }

  lemma ScalarOperationMatches(h: seq<Cell>, op: Op, args: seq<Value>, env: Env)
    requires ObjectsExact(h) && forall v :: v in args ==> Holds(h, v)
    requires IsScalarOperation(op) && |args| == Required(op, env)
    ensures var r := ScalarOperation(h, op, args, env);
      && (r.Ok? ==> !r.value.Ref? && V.Operate(op, Trees(h, args), env) == Ok(Tree(h, r.value)))
      && (r.Err? ==> V.Operate(op, Trees(h, args), env) == Err(r.error))
      && Obeys(op, Trees(h, args), Stands(h, r))
  {
    hide ObjectsExact, Obeys;
    OperateObeys(op, Trees(h, args), env);
    TreeShape(h, args[0]);
    if !op.ListLen? { TreeShape(h, args[1]); }
    hide Tree;
    if op.Eq? { ScalarsEqual(h, args[0], args[1]); }
  }

  lemma ScalarsEqual(h: seq<Cell>, a: Value, b: Value)
    ensures !a.Ref? && !b.Ref? ==> (a == b <==> Tree(h, a) == Tree(h, b))
    ensures forall flag :: Tree(h, Value.Bool(flag)) == OwnedValue.Bool(flag)
    ensures forall n: i64 :: Tree(h, Value.Integer(n)) == OwnedValue.Integer(n)
  {
  }

  /** The shared value stands for the wanted tree, or the error is the wanted one. */
  ghost predicate Agrees(h: seq<Cell>, r: Result<Value, VmError>, want: Result<OwnedValue, VmError>) {
    match r
    case Ok(v) => Holds(h, v) && want == Ok(Tree(h, v))
    case Err(e) => want == Err(e)
  }

  lemma LookupMatches(h: seq<Cell>, op: Op, args: seq<Value>, env: Env)
    requires ObjectsExact(h) && ChildrenHeld(h) && forall v :: v in args ==> Holds(h, v)
    requires (op.ListGet? || op.MapGet?) && |args| == 2
    ensures Agrees(h, Lookup(h, op, args), V.Operate(op, Trees(h, args), env))
  {
    hide ObjectsExact, Tree, Ascending, LowerBound, ChildrenHeld, Height;
    TreeShape(h, args[0]);
    TreeShape(h, args[1]);
    var r := Lookup(h, op, args);
    if r.Ok? { FoundInside(h, op, args); }
  }

  lemma FoundInside(h: seq<Cell>, op: Op, args: seq<Value>)
    requires (op.ListGet? || op.MapGet?) && |args| == 2 && forall v :: v in args ==> Holds(h, v)
    requires ChildrenHeld(h) && Lookup(h, op, args).Ok?
    ensures Holds(h, Lookup(h, op, args).value)
  {
    assert Lookup(h, op, args).value in Children(h[args[0].id].obj.data);
  }

  // ----- the tree of a changed collection -----

  lemma PushedTree(h: seq<Cell>, list: Value, v: Value)
    requires ObjectsExact(h) && ChildrenHeld(h) && IsList(h, list) && Holds(h, v)
    ensures var items := h[list.id].obj.data.items;
      && DepthAbove(h, items + [v]) == Max(DepthOf(h, list), DepthOf(h, v) + 1)
      && V.Push(Tree(h, list), Tree(h, v)) ==
           if DepthAbove(h, items + [v]) > MAX_VALUE_DEPTH then Err(ValueDepthLimit)
           else Ok(DataTree(h, HeapData.List(items + [v])))
  {
    var items := h[list.id].obj.data.items;
    TreeOfObject(h, list.id);
    TreesPush(h, items, v);
    PushedHeld(h, list.id, items, v);
    ContentsHeight(h, items + [v]);
    hide Tree, ObjectsExact, ChildrenHeld, ItemsHeight;
  }

  lemma PushedHeld(h: seq<Cell>, id: nat, items: seq<Value>, v: Value)
    requires ChildrenHeld(h) && IsLive(h, id) && Children(h[id].obj.data) == items && Holds(h, v)
    ensures forall w :: w in items + [v] ==> Holds(h, w)
  {
    forall w | w in items + [v] ensures Holds(h, w) {
      assert w in Children(h[id].obj.data) || w == v;
    }
  }

  lemma ContentsHeight(h: seq<Cell>, items: seq<Value>)
    requires ObjectsExact(h) && ChildrenHeld(h) && forall v :: v in items ==> Holds(h, v)
    ensures DepthAbove(h, items) == ItemsHeight(Trees(h, items))
  {
    DeeperThanChildren(h, items);
    ItemsDepthIsHeight(h, items, DepthAbove(h, items));
  }

  /** The value an insertion replaces, if any. */
  function Replaced(entries: OrdMap<Value>, key: string): seq<Value> {
    if Has(entries, key) then [entries.vals[LowerBound(entries.keys, key)]] else []
  }

  lemma InsertedTree(h: seq<Cell>, entries: OrdMap<Value>, key: string, v: Value)
    ensures var r := Insert(entries, key, v);
      Insert(Entries(entries.keys, Trees(h, entries.vals)), key, Tree(h, v)) == Entries(r.keys, Trees(h, r.vals))
  {
    hide Tree, LowerBound, Ascending, Height;
    var r := Insert(entries, key, v);
    var t := Insert(Entries(entries.keys, Trees(h, entries.vals)), key, Tree(h, v));
    assert t.keys == r.keys;
    assert |t.vals| == |r.vals|;
    assert forall i :: 0 <= i < |t.vals| ==> t.vals[i] == Tree(h, r.vals[i]);
  }

  /** An insertion takes in the new value and gives back the one it replaces. */
  lemma InsertedRefs(entries: OrdMap<Value>, key: string, v: Value)
    ensures multiset(Insert(entries, key, v).vals) + multiset(Replaced(entries, key)) == multiset(entries.vals) + multiset{v}
  {
    hide Ascending, LowerBound;
    var i := LowerBound(entries.keys, key);
    if Has(entries, key) {
      SetRefs(entries.vals, i, v);
    } else {
      SpliceRefs(entries.vals, i, v);
    }
  }

  lemma SetRefs(vals: seq<Value>, i: nat, v: Value)
    requires i < |vals|
    ensures multiset(vals[i := v]) + multiset([vals[i]]) == multiset(vals) + multiset{v}
  {
    var front, back := vals[..i], vals[i + 1..];
    assert vals == front + [vals[i]] + back;
    assert vals[i := v] == front + [v] + back;
  }

  lemma SpliceRefs(vals: seq<Value>, i: nat, v: Value)
    requires i <= |vals|
    ensures multiset(vals[..i] + [v] + vals[i..]) + multiset([]) == multiset(vals) + multiset{v}
  {
    assert vals == vals[..i] + vals[i..];
  }

  /** The cached depth of a map after an insertion: recomputed only when the deepest entry gets shallower. */
  function DepthAfterInsert(h: seq<Cell>, entries: OrdMap<Value>, depth: nat, key: string, v: Value): nat {
    var newDepth := DepthOf(h, v) + 1;
    if Has(entries, key) then
      var i := LowerBound(entries.keys, key);
      if DepthOf(h, entries.vals[i]) + 1 == depth && newDepth < depth then
        Max(DepthAbove(h, entries.vals[..i] + entries.vals[i + 1..]), newDepth)
      else Max(depth, newDepth)
    else Max(depth, newDepth)
  }

  lemma DepthAfterInsertExact(h: seq<Cell>, entries: OrdMap<Value>, key: string, v: Value)
    ensures DepthAfterInsert(h, entries, DepthAbove(h, entries.vals), key, v) == DepthAbove(h, Insert(entries, key, v).vals)
  {
    hide DepthOf, DepthAbove, LowerBound, Ascending;
    var r := Insert(entries, key, v).vals;
    var i := LowerBound(entries.keys, key);
    if Has(entries, key) {
      SplitDepth(h, entries.vals, i);
      SplitDepth(h, r, i);
      assert r[..i] == entries.vals[..i] && r[i + 1..] == entries.vals[i + 1..];
    } else {
      SplitDepth(h, r, i);
      assert r[..i] + r[i + 1..] == entries.vals;
    }
  }

  /** The depth of a sequence, one item apart. */
  lemma SplitDepth(h: seq<Cell>, items: seq<Value>, i: nat)
    requires i < |items|
    ensures DepthAbove(h, items) == Max(DepthAbove(h, items[..i] + items[i + 1..]), DepthOf(h, items[i]) + 1)
  {
    var others := items[..i] + items[i + 1..];
    DeeperThanChildren(h, others);
    var d := Max(DepthAbove(h, others), DepthOf(h, items[i]) + 1);
    assert items == items[..i] + [items[i]] + items[i + 1..];
    assert items[i] in items;
    assert forall v :: v in items ==> v == items[i] || v in others;
    assert forall v :: v in others ==> v in items;
    DepthAboveUnique(h, items, d);
  }

  // ----- what an operation must find free -----

  /** A push reserves the new item in place, or the whole copy. */
  function PushBytes(h: seq<Cell>, list: Value): nat
    requires IsList(h, list)
  {
    var obj := h[list.id].obj;
    if obj.count == 1 then VALUE_SIZE else HEAP_OBJECT_CHARGE + (|obj.data.items| + 1) * VALUE_SIZE
  }

  /** An insertion reserves the new entry in place, or the whole copy. */
  function InsertBytes(h: seq<Cell>, m: Value, text: string): nat
    requires IsMap(h, m)
  {
    var obj := h[m.id].obj;
    var delta := if Has(obj.data.entries, text) then 0 else MAP_ENTRY_CHARGE + Utf8Len(text);
    if obj.count == 1 then delta else obj.charge + delta
  }

  function Needed(h: seq<Cell>, op: Op, args: seq<Value>): nat {
    if op.ListPush? && |args| == 2 && IsList(h, args[0]) then PushBytes(h, args[0])
    else if op.MapInsert? && |args| == 3 && IsMap(h, args[0]) && IsText(h, args[1]) then
      InsertBytes(h, args[0], h[args[1].id].obj.data.text)
    else 0
  }

  // ----- changing collections -----

  /** `list_push`. */
  method ListPush(heap: Heap, list: Value, v: Value, ghost kept: multiset<Value>) returns (r: Result<Value, VmError>)
    requires heap.Valid() && heap.refs == kept + multiset{list, v}
    modifies heap
    ensures heap.Valid()
    ensures r.Err? ==> heap.cells == old(heap.cells) && heap.bytes == old(heap.bytes) && heap.refs == old(heap.refs)
    ensures r.Err? && r.error != HeapLimit ==> V.Push(Tree(old(heap.cells), list), Tree(old(heap.cells), v)) == Err(r.error)
    ensures r == Err(HeapLimit) ==> V.Push(Tree(old(heap.cells), list), Tree(old(heap.cells), v)).Ok?
    ensures r == Err(HeapLimit) ==> old(IsList(heap.cells, list) && !heap.Fits(PushBytes(heap.cells, list)))
    ensures r.Ok? ==> old(IsList(heap.cells, list) && heap.Fits(PushBytes(heap.cells, list)))
    ensures r.Ok? ==>
      && heap.refs == kept + multiset{r.value} && Keeps(old(heap.cells), heap.cells, kept)
      && Holds(heap.cells, r.value)
      && V.Push(Tree(old(heap.cells), list), Tree(old(heap.cells), v)) == Ok(Tree(heap.cells, r.value))
  {
    hide Tree, Height, HeapOk, TotalCharge, DepthAbove, DepthOf, ObjectsExact, ChildrenHeld, Keeps, V.Push, DataTree, KindOf;
    PushPlan(heap.cells, heap.refs, list, v);
    if !IsList(heap.cells, list) { return Mismatch(heap.cells, ListKind, list); }
    var items := heap.cells[list.id].obj.data.items;
    var charge := HEAP_OBJECT_CHARGE + (|items| + 1) * VALUE_SIZE;
    var depth := Max(DepthOf(heap.cells, list), DepthOf(heap.cells, v) + 1);
    if depth > MAX_VALUE_DEPTH { return Err(ValueDepthLimit); }
    var unique := heap.cells[list.id].obj.count == 1;
    if !heap.Fits(if unique then VALUE_SIZE else charge) { return Err(HeapLimit); }
    var pushed: Value;
    if unique {
      PushInPlace(heap, list.id, items, v, depth, kept);
      pushed := list;
    } else {
      pushed := PushCopy(heap, list, items, v, charge, depth, kept);
    }
    r := Ok(pushed);
  }

  /** What `list_push` reads off its operands, against the value-semantics push. */
  lemma PushPlan(h: seq<Cell>, refs: multiset<Value>, list: Value, v: Value)
    requires HeapOk(h, refs) && list in refs && v in refs
    ensures Holds(h, list) && Holds(h, v)
    ensures !IsList(h, list) ==> V.Push(Tree(h, list), Tree(h, v)) == Err(TypeMismatch(ListKind, KindOf(h, list)))
    ensures IsList(h, list) ==>
      var items := h[list.id].obj.data.items;
      && DepthAbove(h, items + [v]) == Max(DepthOf(h, list), DepthOf(h, v) + 1)
      && V.Push(Tree(h, list), Tree(h, v)) ==
           if DepthAbove(h, items + [v]) > MAX_VALUE_DEPTH then Err(ValueDepthLimit)
           else Ok(DataTree(h, HeapData.List(items + [v])))
  {
    ChildHeld(h, refs);
    TreeShape(h, list);
    if IsList(h, list) { PushedTree(h, list, v); }
  }

  /** The list is changed where it is: no other reference can observe it. */
  method PushInPlace(heap: Heap, id: nat, items: seq<Value>, v: Value, depth: nat, ghost kept: multiset<Value>)
    requires heap.Valid() && heap.refs == kept + multiset{Ref(id), v}
    requires IsLive(heap.cells, id) && heap.cells[id].obj.data == HeapData.List(items) && heap.cells[id].obj.count == 1
    requires depth == DepthAbove(heap.cells, items + [v]) <= MAX_VALUE_DEPTH && heap.Fits(VALUE_SIZE)
    modifies heap
    ensures heap.Valid() && heap.refs == kept + multiset{Ref(id)} && Keeps(old(heap.cells), heap.cells, kept)
    ensures Holds(heap.cells, Ref(id)) && Tree(heap.cells, Ref(id)) == DataTree(old(heap.cells), HeapData.List(items + [v]))
  {
    hide Tree, DepthAbove, HeapRefs, TotalCharge, HeapOk, Keeps, ObjectCharge, DataTree;
    ListCharge(heap.cells, heap.refs, id, items, v);
    TakesOneIn(kept, Ref(id), items, v);
    heap.Mutate(id, HeapData.List(items + [v]), heap.cells[id].obj.charge + VALUE_SIZE, depth, kept, multiset{v}, multiset{});
  }

  lemma ListCharge(h: seq<Cell>, refs: multiset<Value>, id: nat, items: seq<Value>, v: Value)
    requires HeapOk(h, refs) && IsLive(h, id) && h[id].obj.data == HeapData.List(items)
    ensures ObjectCharge(HeapData.List(items + [v])) == h[id].obj.charge + VALUE_SIZE
  {
    hide Counted, DepthAbove;
  }

  lemma TakesOneIn(kept: multiset<Value>, r: Value, items: seq<Value>, v: Value)
    ensures kept + multiset{r, v} == kept + multiset{r} + multiset{v}
    ensures multiset(items + [v]) + multiset{} == multiset(items) + multiset{v}
    ensures kept + multiset{r} + multiset{} == kept + multiset{r}
  {
  }

  /** The list is shared: its items are cloned into a new list and the old reference is given up. */
  method PushCopy(
    heap: Heap, list: Value, items: seq<Value>, v: Value, charge: nat, depth: nat, ghost kept: multiset<Value>)
    returns (r: Value)
    requires heap.Valid() && heap.refs == kept + multiset{list, v} && IsList(heap.cells, list)
    requires heap.cells[list.id].obj.data.items == items
    requires charge == ObjectCharge(HeapData.List(items + [v])) && heap.Fits(charge)
    requires depth == DepthAbove(heap.cells, items + [v]) <= MAX_VALUE_DEPTH
    modifies heap
    ensures heap.Valid() && heap.refs == kept + multiset{r} && Keeps(old(heap.cells), heap.cells, kept)
    ensures Holds(heap.cells, r) && Tree(heap.cells, r) == DataTree(old(heap.cells), HeapData.List(items + [v]))
  {
    AllHeld(heap.cells, heap.refs, list.id, v);
    assert multiset(items + [v]) == multiset(items) + multiset{v};
    r := CopyWith(heap, items, HeapData.List(items + [v]), charge, depth, kept, [list], multiset{v}, []);
  }

  lemma AllHeld(h: seq<Cell>, refs: multiset<Value>, id: nat, v: Value)
    requires Counted(h, refs) && IsLive(h, id) && v in refs
    ensures Holds(h, v) && forall w :: w in Children(h[id].obj.data) ==> Holds(h, w)
  {
    ChildHeld(h, refs);
  }

  /** Allocates `data`, made of clones of `items` and the references `added`; `dropped` is what the change
      leaves out, and `spent` are references given up afterwards. */
  method CopyWith(
    heap: Heap, items: seq<Value>, data: HeapData, charge: nat, depth: nat,
    ghost kept: multiset<Value>, spent: seq<Value>, ghost added: multiset<Value>, dropped: seq<Value>)
    returns (r: Value)
    requires heap.Valid() && heap.refs == kept + multiset(spent) + added
    requires forall w :: w in items ==> Holds(heap.cells, w)
    requires forall w :: w in Children(data) ==> Holds(heap.cells, w)
    requires multiset(Children(data)) + multiset(dropped) == multiset(items) + added
    requires charge == ObjectCharge(data) && heap.Fits(charge)
    requires depth == DepthAbove(heap.cells, Children(data)) <= MAX_VALUE_DEPTH
    modifies heap
    ensures heap.Valid() && heap.refs == kept + multiset{r} && Keeps(old(heap.cells), heap.cells, kept)
    ensures Holds(heap.cells, r) && Tree(heap.cells, r) == DataTree(old(heap.cells), data)
  {
    hide Tree, HeapOk, TotalCharge, Counted, DataTree, DepthAbove, Extends;
    ghost var h, refs := heap.cells, heap.refs;
    CountedHeap(h, refs);
    ghost var others := kept + multiset(spent) + multiset(dropped);
    Exchange(kept + multiset(spent), multiset(Children(data)), multiset(dropped), multiset(items), added);
    r := AllocateCopy(heap, items, data, charge, depth, others);
    ghost var whole := heap.cells;
    assert others + multiset{r} == kept + multiset{r} + multiset(spent + dropped);
    heap.Release(spent + dropped, kept + multiset{r});
    KeptThrough(h, whole, heap.cells, kept, kept + multiset{r}, refs);
    assert r in kept + multiset{r};
  }

  method AllocateCopy(
    heap: Heap, items: seq<Value>, data: HeapData, charge: nat, depth: nat, ghost others: multiset<Value>)
    returns (r: Value)
    requires heap.Valid() && heap.refs + multiset(items) == others + multiset(Children(data))
    requires forall w :: w in items ==> Holds(heap.cells, w)
    requires forall w :: w in Children(data) ==> Holds(heap.cells, w)
    requires charge == ObjectCharge(data) && heap.Fits(charge)
    requires depth == DepthAbove(heap.cells, Children(data)) <= MAX_VALUE_DEPTH
    modifies heap
    ensures heap.Valid() && heap.refs == others + multiset{r} && Extends(old(heap.cells), heap.cells)
    ensures Holds(heap.cells, r) && Tree(heap.cells, r) == DataTree(old(heap.cells), data)
  {
    ghost var h := heap.cells;
    hide Tree, HeapOk, TotalCharge;
    heap.CloneAll(items);
    SameContents(h, heap.cells, data);
    ghost var cloned := heap.cells;
    r := heap.Allocate(data, charge, depth, others);
    ExtendsTransitive(h, cloned, heap.cells);
  }

  /** Contents that are held mean the same after the heap is extended. */
  lemma SameContents(h: seq<Cell>, g: seq<Cell>, data: HeapData)
    requires Extends(h, g) && forall v :: v in Children(data) ==> Holds(h, v)
    ensures DataTree(g, data) == DataTree(h, data)
    ensures DepthAbove(g, Children(data)) == DepthAbove(h, Children(data))
  {
    SameTrees(h, g, Children(data));
    SameDepthAbove(h, g, Children(data));
  }

  lemma KeptThrough(f: seq<Cell>, g: seq<Cell>, h: seq<Cell>, kept: multiset<Value>, late: multiset<Value>, refs: multiset<Value>)
    requires Extends(f, g) && Keeps(g, h, late) && kept <= late && kept <= refs && Counted(f, refs)
    ensures Keeps(f, h, kept)
  {
    hide Tree, DepthOf, HeapRefs;
    ChildHeld(f, refs);
    forall v | v in kept ensures Holds(f, v) && Holds(h, v) && DepthOf(h, v) == DepthOf(f, v) && Tree(h, v) == Tree(f, v) {
      assert v in late && v in refs;
      assert Tree(h, v) == Tree(g, v);
    }
  }

  /** `map_insert`. */
  method MapInsert(heap: Heap, m: Value, key: Value, v: Value, ghost kept: multiset<Value>) returns (r: Result<Value, VmError>)
    requires heap.Valid() && heap.refs == kept + multiset{m, key, v}
    modifies heap
    ensures heap.Valid()
    ensures r.Err? ==> heap.cells == old(heap.cells) && heap.bytes == old(heap.bytes) && heap.refs == old(heap.refs)
    ensures r.Err? && r.error != HeapLimit ==>
      V.PutEntry(Tree(old(heap.cells), m), Tree(old(heap.cells), key), Tree(old(heap.cells), v)) == Err(r.error)
    ensures r == Err(HeapLimit) ==>
      V.PutEntry(Tree(old(heap.cells), m), Tree(old(heap.cells), key), Tree(old(heap.cells), v)).Ok?
    ensures r == Err(HeapLimit) ==>
      old(IsMap(heap.cells, m) && IsText(heap.cells, key) && !heap.Fits(InsertBytes(heap.cells, m, heap.cells[key.id].obj.data.text)))
    ensures r.Ok? ==>
      old(IsMap(heap.cells, m) && IsText(heap.cells, key) && heap.Fits(InsertBytes(heap.cells, m, heap.cells[key.id].obj.data.text)))
    ensures r.Ok? ==>
      && heap.refs == kept + multiset{r.value} && Keeps(old(heap.cells), heap.cells, kept)
      && Holds(heap.cells, r.value)
      && V.PutEntry(Tree(old(heap.cells), m), Tree(old(heap.cells), key), Tree(old(heap.cells), v)) == Ok(Tree(heap.cells, r.value))
  {
    hide Tree, Height, HeapOk, TotalCharge, DepthAbove, DepthOf, ObjectsExact, ChildrenHeld, Keeps, DepthAfterInsert, DataTree,
      V.PutEntry, LowerBound, KindOf;
    PutPlan(heap.cells, heap.refs, m, key, v);
    if !IsText(heap.cells, key) { return Mismatch(heap.cells, TextKind, key); }
    if !IsMap(heap.cells, m) { return Mismatch(heap.cells, MapKind, m); }
    var text := heap.cells[key.id].obj.data.text;
    var obj := heap.cells[m.id].obj;
    var entries := obj.data.entries;
    var delta := if Has(entries, text) then 0 else MAP_ENTRY_CHARGE + Utf8Len(text);
    var charge := obj.charge + delta;
    var depth := DepthAfterInsert(heap.cells, entries, obj.depth, text, v);
    InsertedCharge(entries, text, v);
    if depth > MAX_VALUE_DEPTH { return Err(ValueDepthLimit); }
    var unique := obj.count == 1;
    if !heap.Fits(if unique then delta else charge) { return Err(HeapLimit); }
    var inserted: Value;
    if unique {
      InsertInPlace(heap, m.id, entries, text, key, v, charge, depth, kept);
      inserted := m;
    } else {
      inserted := InsertCopy(heap, m, entries, text, key, v, charge, depth, kept);
    }
    r := Ok(inserted);
  }

  /** What `map_insert` reads off its operands, against the value-semantics insertion. */
  lemma PutPlan(h: seq<Cell>, refs: multiset<Value>, m: Value, key: Value, v: Value)
    requires HeapOk(h, refs) && m in refs && key in refs && v in refs
    ensures Holds(h, m) && Holds(h, key) && Holds(h, v)
    ensures !IsText(h, key) ==> V.PutEntry(Tree(h, m), Tree(h, key), Tree(h, v)) == Err(TypeMismatch(TextKind, KindOf(h, key)))
    ensures IsText(h, key) && !IsMap(h, m) ==>
      V.PutEntry(Tree(h, m), Tree(h, key), Tree(h, v)) == Err(TypeMismatch(MapKind, KindOf(h, m)))
    ensures IsText(h, key) && IsMap(h, m) ==>
      var obj, text := h[m.id].obj, h[key.id].obj.data.text;
      var data := HeapData.Map(Insert(obj.data.entries, text, v));
      && V.PutEntry(Tree(h, m), Tree(h, key), Tree(h, v)) ==
           (if DepthAbove(h, Children(data)) > MAX_VALUE_DEPTH then Err(ValueDepthLimit) else Ok(DataTree(h, data)))
      && DepthAfterInsert(h, obj.data.entries, obj.depth, text, v) == DepthAbove(h, Children(data))
      && obj.charge == ObjectCharge(obj.data)
  {
    hide DepthAfterInsert, DepthAbove;
    ChildHeld(h, refs);
    TreeShape(h, m);
    TreeShape(h, key);
    if IsText(h, key) && IsMap(h, m) { PutTree(h, m, key, h[key.id].obj.data.text, v); }
  }

  lemma PutTree(h: seq<Cell>, m: Value, key: Value, text: string, v: Value)
    requires ObjectsExact(h) && ChildrenHeld(h) && IsMap(h, m) && Holds(h, v) && Tree(h, key) == OwnedValue.Text(text)
    ensures var obj := h[m.id].obj;
      var data := HeapData.Map(Insert(obj.data.entries, text, v));
      && V.PutEntry(Tree(h, m), Tree(h, key), Tree(h, v)) ==
           (if DepthAbove(h, Children(data)) > MAX_VALUE_DEPTH then Err(ValueDepthLimit) else Ok(DataTree(h, data)))
      && DepthAfterInsert(h, obj.data.entries, obj.depth, text, v) == DepthAbove(h, Children(data))
      && obj.charge == ObjectCharge(obj.data)
  {
    hide Tree, ObjectsExact, ChildrenHeld, ItemsHeight, DepthAfterInsert, Insert, LowerBound, DepthAbove;
    var obj := h[m.id].obj;
    MapExact(h, m.id);
    TreeOfObject(h, m.id);
    InsertedTree(h, obj.data.entries, text, v);
    DepthAfterInsertExact(h, obj.data.entries, text, v);
    InsertedHeld(h, m.id, text, v);
    ContentsHeight(h, Insert(obj.data.entries, text, v).vals);
  }

  lemma MapExact(h: seq<Cell>, id: nat)
    requires ObjectsExact(h) && IsMap(h, Ref(id))
    ensures var obj := h[id].obj;
      obj.charge == ObjectCharge(obj.data) && obj.depth == DepthAbove(h, obj.data.entries.vals) <= MAX_VALUE_DEPTH
  {
  }

  lemma InsertedHeld(h: seq<Cell>, id: nat, key: string, v: Value)
    requires ChildrenHeld(h) && IsMap(h, Ref(id)) && Holds(h, v)
    ensures forall w :: w in Insert(h[id].obj.data.entries, key, v).vals ==> Holds(h, w)
  {
    var entries := h[id].obj.data.entries;
    forall w | w in Insert(entries, key, v).vals ensures Holds(h, w) {
      InsertedRefs(entries, key, v);
      assert w in multiset(Insert(entries, key, v).vals);
      assert w in multiset(entries.vals) + multiset{v};
      if w != v { assert w in Children(h[id].obj.data); }
    }
  }

  lemma {:induction false} KeysChargeSplice(keys: seq<string>, i: nat, key: string)
    requires i <= |keys|
    ensures KeysCharge(keys[..i] + [key] + keys[i..]) == KeysCharge(keys) + MAP_ENTRY_CHARGE + Utf8Len(key)
  {
    var spliced := keys[..i] + [key] + keys[i..];
    var n := |keys|;
    if i == n {
      assert spliced[..n] == keys;
    } else {
      KeysChargeSplice(keys[..n - 1], i, key);
      assert spliced[..n] == keys[..n - 1][..i] + [key] + keys[..n - 1][i..];
      assert spliced[n] == keys[n - 1];
    }
  }

  lemma InsertedCharge(entries: OrdMap<Value>, key: string, v: Value)
    ensures ObjectCharge(HeapData.Map(Insert(entries, key, v))) ==
            ObjectCharge(HeapData.Map(entries)) + if Has(entries, key) then 0 else MAP_ENTRY_CHARGE + Utf8Len(key)
  {
    if !Has(entries, key) { KeysChargeSplice(entries.keys, LowerBound(entries.keys, key), key); }
  }

  method InsertInPlace(
    heap: Heap, id: nat, entries: OrdMap<Value>, text: string, key: Value, v: Value, charge: nat, depth: nat,
    ghost kept: multiset<Value>)
    requires heap.Valid() && heap.refs == kept + multiset{Ref(id), key, v}
    requires IsLive(heap.cells, id) && heap.cells[id].obj.data == HeapData.Map(entries) && heap.cells[id].obj.count == 1
    requires depth == DepthAbove(heap.cells, Insert(entries, text, v).vals) <= MAX_VALUE_DEPTH
    requires charge == ObjectCharge(HeapData.Map(Insert(entries, text, v)))
    requires heap.bytes - heap.cells[id].obj.charge + charge <= heap.limit
    modifies heap
    ensures heap.Valid() && heap.refs == kept + multiset{Ref(id)} && Keeps(old(heap.cells), heap.cells, kept)
    ensures Holds(heap.cells, Ref(id))
    ensures Tree(heap.cells, Ref(id)) == DataTree(old(heap.cells), HeapData.Map(Insert(entries, text, v)))
  {
    hide Tree, DepthAbove, HeapRefs, TotalCharge, HeapOk, LowerBound, Replaced, DataTree, Insert, ObjectCharge, Keeps, Holds;
    ghost var h := heap.cells;
    var dropped := Replaced(entries, text);
    InsertedRefs(entries, text, v);
    TakesEntryIn(kept, Ref(id), key, v, dropped);
    heap.Mutate(id, HeapData.Map(Insert(entries, text, v)), charge, depth, kept + multiset{key}, multiset{v}, multiset(dropped));
    ghost var changed := heap.cells;
    heap.Release([key] + dropped, kept + multiset{Ref(id)});
    KeptOne(changed, heap.cells, kept + multiset{Ref(id)}, Ref(id));
    KeptTwice(h, changed, heap.cells, kept, kept + multiset{key}, kept + multiset{Ref(id)});
  }

  lemma TakesEntryIn(kept: multiset<Value>, r: Value, key: Value, v: Value, dropped: seq<Value>)
    ensures kept + multiset{r, key, v} == (kept + multiset{key}) + multiset{r} + multiset{v}
    ensures (kept + multiset{key}) + multiset{r} + multiset(dropped) == (kept + multiset{r}) + multiset([key] + dropped)
  {
  }

  lemma KeptOne(h: seq<Cell>, g: seq<Cell>, kept: multiset<Value>, v: Value)
    requires Keeps(h, g, kept) && v in kept
    ensures Holds(g, v) && Tree(g, v) == Tree(h, v)
  {
    hide Tree;
    assert Tree(g, v) == Tree(h, v);
  }

  lemma KeptTwice(f: seq<Cell>, g: seq<Cell>, h: seq<Cell>, kept: multiset<Value>, first: multiset<Value>, second: multiset<Value>)
    requires Keeps(f, g, first) && Keeps(g, h, second) && kept <= first && kept <= second
    ensures Keeps(f, h, kept)
  {
    hide Tree, DepthOf;
    forall v | v in kept ensures Holds(f, v) && Holds(h, v) && DepthOf(h, v) == DepthOf(f, v) && Tree(h, v) == Tree(f, v) {
      assert v in first && v in second;
    }
  }

  method InsertCopy(
    heap: Heap, m: Value, entries: OrdMap<Value>, text: string, key: Value, v: Value, charge: nat, depth: nat,
    ghost kept: multiset<Value>) returns (r: Value)
    requires heap.Valid() && heap.refs == kept + multiset{m, key, v} && IsMap(heap.cells, m)
    requires heap.cells[m.id].obj.data.entries == entries
    requires depth == DepthAbove(heap.cells, Insert(entries, text, v).vals) <= MAX_VALUE_DEPTH
    requires charge == ObjectCharge(HeapData.Map(Insert(entries, text, v))) && heap.Fits(charge)
    modifies heap
    ensures heap.Valid() && heap.refs == kept + multiset{r} && Keeps(old(heap.cells), heap.cells, kept)
    ensures Holds(heap.cells, r) && Tree(heap.cells, r) == DataTree(old(heap.cells), HeapData.Map(Insert(entries, text, v)))
  {
    hide Tree, DepthAbove, HeapRefs, TotalCharge, LowerBound, Replaced, Keeps;
    AllHeld(heap.cells, heap.refs, m.id, v);
    ChildHeld(heap.cells, heap.refs);
    InsertedHeld(heap.cells, m.id, text, v);
    InsertedRefs(entries, text, v);
    assert kept + multiset{m, key, v} == kept + multiset([key, m]) + multiset{v};
    r := CopyWith(heap, entries.vals, HeapData.Map(Insert(entries, text, v)), charge, depth, kept, [key, m], multiset{v},
      Replaced(entries, text));
  }

  // ----- any operation -----

  /** Runs an operation on operands it owns: the outcome is that of the value-semantics machine, except that the
      heap limit may stop an operation that would succeed there. A failing operation changes nothing. */
  method Apply(heap: Heap, op: Op, args: seq<Value>, env: Env, ghost kept: multiset<Value>)
    returns (r: Result<Value, VmError>)
    requires V.IsOperation(op) && |args| == Required(op, env)
    requires heap.Valid() && heap.refs == kept + multiset(args)
    modifies heap
    ensures heap.Valid()
    ensures r.Err? ==> heap.cells == old(heap.cells) && heap.bytes == old(heap.bytes) && heap.refs == old(heap.refs)
    ensures r.Err? && r.error != HeapLimit ==> V.Operate(op, Trees(old(heap.cells), args), env) == Err(r.error)
    ensures r == Err(HeapLimit) ==> V.Operate(op, Trees(old(heap.cells), args), env).Ok?
    ensures r == Err(HeapLimit) ==> !old(heap.Fits(Needed(heap.cells, op, args)))
    ensures r.Ok? ==> old(heap.Fits(Needed(heap.cells, op, args)))
    ensures r.Ok? ==>
      && heap.refs == kept + multiset{r.value} && Keeps(old(heap.cells), heap.cells, kept)
      && Holds(heap.cells, r.value)
      && V.Operate(op, Trees(old(heap.cells), args), env) == Ok(Tree(heap.cells, r.value))
    ensures r != Err(HeapLimit) ==> Obeys(op, Trees(old(heap.cells), args), Stands(heap.cells, r))
  {
    hide Tree, Trees, HeapOk, TotalCharge, ObjectsExact, ChildrenHeld, Keeps, Needed, PushBytes, InsertBytes, IsMap, IsText, IsList,
      V.Operate, V.Push, V.PutEntry, Obeys;
    ghost var h := heap.cells;
    OperateObeys(op, Trees(h, args), env);
    ArgsHeld(h, heap.refs, args, kept);
    Unfolded(h, op, args, env);
    if op.ListPush? {
      assert args == [args[0], args[1]];
      r := ListPush(heap, args[0], args[1], kept);
    } else if op.MapInsert? {
      assert args == [args[0], args[1], args[2]];
      r := MapInsert(heap, args[0], args[1], args[2], kept);
    } else {
      r := ApplyReading(heap, op, args, env, kept);
    }
  }

  /** The two operations that change a collection, and the bytes they need. */
  lemma Unfolded(h: seq<Cell>, op: Op, args: seq<Value>, env: Env)
    requires |args| == Required(op, env)
    ensures !op.ListPush? && !op.MapInsert? ==> Needed(h, op, args) == 0
    ensures op.ListPush? ==>
      && V.Operate(op, Trees(h, args), env) == V.Push(Tree(h, args[0]), Tree(h, args[1]))
      && (IsList(h, args[0]) ==> Needed(h, op, args) == PushBytes(h, args[0]))
    ensures op.MapInsert? ==>
      && V.Operate(op, Trees(h, args), env) == V.PutEntry(Tree(h, args[0]), Tree(h, args[1]), Tree(h, args[2]))
      && (IsMap(h, args[0]) && IsText(h, args[1]) ==> Needed(h, op, args) == InsertBytes(h, args[0], h[args[1].id].obj.data.text))
  {
    hide Tree, PushBytes, InsertBytes, V.Push, V.PutEntry;
  }

  lemma ArgsHeld(h: seq<Cell>, refs: multiset<Value>, args: seq<Value>, kept: multiset<Value>)
    requires HeapOk(h, refs) && refs == kept + multiset(args)
    ensures ObjectsExact(h) && ChildrenHeld(h) && forall v :: v in args ==> Holds(h, v)
  {
    ChildHeld(h, refs);
    forall v | v in args ensures Holds(h, v) { assert v in multiset(args); }
  }

  /** Operations that only read their operands. */
  method ApplyReading(heap: Heap, op: Op, args: seq<Value>, env: Env, ghost kept: multiset<Value>)
    returns (r: Result<Value, VmError>)
    requires V.IsOperation(op) && !op.ListPush? && !op.MapInsert? && |args| == Required(op, env)
    requires heap.Valid() && heap.refs == kept + multiset(args)
    modifies heap
    ensures heap.Valid()
    ensures r.Err? ==> heap.cells == old(heap.cells) && heap.bytes == old(heap.bytes) && heap.refs == old(heap.refs)
    ensures r.Err? ==> r.error != HeapLimit && V.Operate(op, Trees(old(heap.cells), args), env) == Err(r.error)
    ensures r.Ok? ==>
      && heap.refs == kept + multiset{r.value} && Keeps(old(heap.cells), heap.cells, kept)
      && Holds(heap.cells, r.value)
      && V.Operate(op, Trees(old(heap.cells), args), env) == Ok(Tree(heap.cells, r.value))
  {
    ArgsHeld(heap.cells, heap.refs, args, kept);
    r := if op.ListGet? || op.MapGet? then Lookup(heap.cells, op, args) else ScalarOperation(heap.cells, op, args, env);
    ReadingMatches(heap.cells, op, args, env);
    hide Tree, HeapOk, TotalCharge, ObjectsExact, ChildrenHeld, V.Operate, Lookup, ScalarOperation;
    if r.Ok? {
      ReplaceByClone(heap, args, r.value, kept);
    }
  }

  lemma ReadingMatches(h: seq<Cell>, op: Op, args: seq<Value>, env: Env)
    requires ObjectsExact(h) && ChildrenHeld(h) && forall v :: v in args ==> Holds(h, v)
    requires V.IsOperation(op) && !op.ListPush? && !op.MapInsert? && |args| == Required(op, env)
    ensures var r := if op.ListGet? || op.MapGet? then Lookup(h, op, args) else ScalarOperation(h, op, args, env);
      && (r.Ok? ==> Holds(h, r.value) && V.Operate(op, Trees(h, args), env) == Ok(Tree(h, r.value)))
      && (r.Err? ==> r.error != HeapLimit && V.Operate(op, Trees(h, args), env) == Err(r.error))
  {
    if op.ListGet? || op.MapGet? {
      LookupMatches(h, op, args, env);
    } else {
      ScalarOperationMatches(h, op, args, env);
    }
    hide Tree, ObjectsExact, ChildrenHeld, V.Operate;
  }

  /** Takes a new reference to `v` and gives up the operands. */
  method ReplaceByClone(heap: Heap, args: seq<Value>, v: Value, ghost kept: multiset<Value>)
    requires heap.Valid() && heap.refs == kept + multiset(args) && Holds(heap.cells, v)
    modifies heap
    ensures heap.Valid() && heap.refs == kept + multiset{v} && Keeps(old(heap.cells), heap.cells, kept)
    ensures Holds(heap.cells, v) && Tree(heap.cells, v) == Tree(old(heap.cells), v)
  {
    hide Tree, HeapOk, TotalCharge, Counted, Extends, Keeps;
    ghost var h, refs := heap.cells, heap.refs;
    CountedHeap(h, refs);
    heap.Clone(v);
    ghost var cloned := heap.cells;
    assert heap.refs == kept + multiset{v} + multiset(args);
    heap.Release(args, kept + multiset{v});
    KeptThrough(h, cloned, heap.cells, kept, kept + multiset{v}, refs);
    ExtendedThenKept(h, cloned, heap.cells, kept + multiset{v}, v);
  }

  lemma CountedHeap(h: seq<Cell>, refs: multiset<Value>)
    requires HeapOk(h, refs)
    ensures Counted(h, refs)
  {
  }

  lemma ExtendedThenKept(f: seq<Cell>, g: seq<Cell>, h: seq<Cell>, late: multiset<Value>, v: Value)
    requires Extends(f, g) && Keeps(g, h, late) && v in late && Holds(f, v)
    ensures Holds(h, v) && Tree(h, v) == Tree(f, v)
  {
    hide Tree;
    assert Tree(h, v) == Tree(g, v);
  }
}
