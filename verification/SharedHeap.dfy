/** The heap as the VM mutates it: cells, strong counts and the byte counter change in place.
    The ghost field `refs` holds every reference outside the heap, so each method states which
    references it consumes and which it hands out. */
module SharedHeap {
  import opened Wrappers
  import opened OrderedMap
  import opened Values
  import opened HeapModel

  // ----- one lemma for each change to a cell -----

  /** Replacing a cell keeps the counts when references move as the counts do. */
  lemma CellReplaced(h: seq<Cell>, refs: multiset<Value>, i: nat, c: Cell, newRefs: multiset<Value>)
    requires Counted(h, refs) && i < |h| && (c.Live? ==> c.obj.count > 0)
    requires forall id: nat {:trigger Ref(id)} ::
      newRefs[Ref(id)] + CellRefs(c)[Ref(id)] + (if id == i then CountOf(h, i) else 0) ==
      refs[Ref(id)] + CellRefs(h[i])[Ref(id)] + (if id == i then CellCount(c) else 0)
    ensures Counted(h[i := c], newRefs)
    ensures TotalCharge(h[i := c]) + CellCharge(h[i]) == TotalCharge(h) + CellCharge(c)
    ensures TotalCount(h[i := c]) + CellCount(h[i]) == TotalCount(h) + CellCount(c)
  {
    var g := h[i := c];
    UpdateRefs(h, i, c);
    UpdateNumbers(h, i, c);
    var a, b, x, y := HeapRefs(g), HeapRefs(h), CellRefs(h[i]), CellRefs(c);
    forall id: nat
      ensures newRefs[Ref(id)] + a[Ref(id)] == CountOf(g, id)
      ensures IsLive(g, id) ==> CountOf(g, id) > 0
    {
      assert (a + x)[Ref(id)] == (b + y)[Ref(id)];
      assert refs[Ref(id)] + b[Ref(id)] == CountOf(h, id) && (IsLive(h, id) ==> CountOf(h, id) > 0);
    }
  }

  lemma CountChanged(h: seq<Cell>, refs: multiset<Value>, i: nat, c: Cell, newRefs: multiset<Value>)
    requires HeapOk(h, refs) && IsLive(h, i)
    requires c.Live? && c.obj == h[i].obj.(count := c.obj.count) && c.obj.count > 0
    requires forall id: nat {:trigger Ref(id)} ::
      newRefs[Ref(id)] + (if id == i then CountOf(h, i) else 0) == refs[Ref(id)] + (if id == i then CellCount(c) else 0)
    ensures HeapOk(h[i := c], newRefs) && Agree(h, h[i := c], -1)
    ensures TotalCharge(h[i := c]) == TotalCharge(h)
    ensures TotalCount(h[i := c]) + CellCount(h[i]) == TotalCount(h) + CellCount(c)
  {
    CellReplaced(h, refs, i, c, newRefs);
    ChildHeld(h, refs);
    CountOnlyExact(h, i, c);
  }

  lemma CountOnlyExact(h: seq<Cell>, i: nat, c: Cell)
    requires ObjectsExact(h) && ChildrenHeld(h) && IsLive(h, i)
    requires c.Live? && c.obj == h[i].obj.(count := c.obj.count)
    ensures ObjectsExact(h[i := c]) && Agree(h, h[i := c], -1)
  {
    var g := h[i := c];
    assert Agree(h, g, -1);
    AgreeExact(h, g, -1);
  }

  lemma CellFreed(h: seq<Cell>, kept: multiset<Value>, i: nat)
    requires HeapOk(h, kept + multiset{Ref(i)}) && IsLive(h, i) && h[i].obj.count == 1
    ensures HeapOk(h[i := Freed], kept + multiset(Children(h[i].obj.data)))
    ensures Keeps(h, h[i := Freed], kept)
    ensures TotalCharge(h[i := Freed]) == TotalCharge(h) - h[i].obj.charge
    ensures TotalCount(h[i := Freed]) == TotalCount(h) - 1
  {
    hide Tree, HeapRefs, TotalCharge, TotalCount, DepthAbove, DepthOf, ObjectsExact, Counted, Agree;
    var refs := kept + multiset{Ref(i)};
    SoleHolder(h, refs, i);
    CellReplaced(h, refs, i, Freed, kept + multiset(Children(h[i].obj.data)));
    OthersExact(h, i, Freed);
    ExactWithout(h[i := Freed], i);
    KeptElsewhere(h, h[i := Freed], kept, i, refs);
  }

  lemma ExactWithout(g: seq<Cell>, i: nat)
    requires ExactExcept(g, i) && !IsLive(g, i)
    ensures ObjectsExact(g)
  {
  }

  /** Values of `kept`, none of which is `Ref(id)`, mean the same when only object `id` differs. */
  lemma KeptElsewhere(h: seq<Cell>, g: seq<Cell>, kept: multiset<Value>, id: nat, refs: multiset<Value>)
    requires Agree(h, g, id) && Counted(h, refs) && kept <= refs && kept[Ref(id)] == 0
    ensures Keeps(h, g, kept)
  {
    ChildHeld(h, refs);
    forall v | v in kept ensures Holds(h, v) && (v.Ref? ==> v.id != id) {
      assert v in refs;
      if v.Ref? { assert v == Ref(v.id); }
    }
    AgreeKeeps(h, g, id, kept);
  }

  /** Replacing an object no other object refers to leaves every other object exact. */
  lemma OthersExact(h: seq<Cell>, i: nat, c: Cell)
    requires ObjectsExact(h) && IsLive(h, i)
    requires forall id: nat, v :: IsLive(h, id) && v in Children(h[id].obj.data) ==> Holds(h, v) && (v.Ref? ==> v.id != i)
    ensures Agree(h, h[i := c], i) && ExactExcept(h[i := c], i)
  {
    assert Agree(h, h[i := c], i);
    AgreeExact(h, h[i := c], i);
  }

  /** An object whose one reference is outside the heap is referred to by no object. */
  lemma SoleHolder(h: seq<Cell>, refs: multiset<Value>, i: nat)
    requires HeapOk(h, refs) && IsLive(h, i) && h[i].obj.count == 1 && Ref(i) in refs
    ensures refs[Ref(i)] == 1 && Ref(i) !in HeapRefs(h)
    ensures forall id: nat, v :: IsLive(h, id) && v in Children(h[id].obj.data) ==> Holds(h, v) && (v.Ref? ==> v.id != i)
  {
    assert CountOf(h, i) == 1;
    ChildHeld(h, refs);
    forall id: nat, v | IsLive(h, id) && v in Children(h[id].obj.data) ensures v.Ref? ==> v.id != i {
      CellInHeap(h, id);
      assert v in CellRefs(h[id]);
    }
  }

  ghost function NewObject(h: seq<Cell>, data: HeapData, count: nat): Object {
    Object(data, ObjectCharge(data), DepthAbove(h, Children(data)), count)
  }

  lemma CellAdded(h: seq<Cell>, kept: multiset<Value>, data: HeapData)
    requires HeapOk(h, kept + multiset(Children(data)))
    requires DepthAbove(h, Children(data)) <= MAX_VALUE_DEPTH
    ensures var g := h + [Live(NewObject(h, data, 1))];
      && HeapOk(g, kept + multiset{Ref(|h|)})
      && Agree(h, g, -1)
      && TotalCharge(g) == TotalCharge(h) + ObjectCharge(data)
      && Tree(g, Ref(|h|)) == DataTree(h, data)
  {
    var c := Live(NewObject(h, data, 1));
    AppendSums(h, c);
    AddedCounted(h, kept, c);
    ChildHeld(h, kept + multiset(Children(data)));
    assert forall v :: v in Children(data) ==> v in kept + multiset(Children(data));
    hide Counted, ObjectsExact, Agree, Tree, DataTree, DepthAbove, HeapRefs, TotalCharge;
    AddedExact(h, data);
  }

  lemma NewCell(h: seq<Cell>, data: HeapData)
    ensures var g := h + [Live(NewObject(h, data, 1))];
      Holds(g, Ref(|h|)) && DepthOf(g, Ref(|h|)) == DepthAbove(h, Children(data))
  {
    hide DepthAbove;
  }

  lemma AddedCounted(h: seq<Cell>, kept: multiset<Value>, c: Cell)
    requires Counted(h, kept + CellRefs(c)) && c.Live? && c.obj.count == 1
    ensures Counted(h + [c], kept + multiset{Ref(|h|)})
  {
    var g := h + [c];
    var refs, newRefs := kept + CellRefs(c), kept + multiset{Ref(|h|)};
    AppendSums(h, c);
    forall id: nat
      ensures newRefs[Ref(id)] + HeapRefs(g)[Ref(id)] == CountOf(g, id)
      ensures IsLive(g, id) ==> CountOf(g, id) > 0
    {
      assert refs[Ref(id)] + HeapRefs(h)[Ref(id)] == CountOf(h, id) && (IsLive(h, id) ==> CountOf(h, id) > 0);
      assert HeapRefs(g)[Ref(id)] == HeapRefs(h)[Ref(id)] + CellRefs(c)[Ref(id)];
    }
  }

  lemma AddedExact(h: seq<Cell>, data: HeapData)
    requires ObjectsExact(h) && ChildrenHeld(h) && DepthAbove(h, Children(data)) <= MAX_VALUE_DEPTH
    requires forall v :: v in Children(data) ==> Holds(h, v)
    ensures var g := h + [Live(NewObject(h, data, 1))];
      ObjectsExact(g) && Agree(h, g, -1) && Tree(g, Ref(|h|)) == DataTree(h, data)
  {
    var g := h + [Live(NewObject(h, data, 1))];
    assert Agree(h, g, -1);
    forall id: nat | IsLive(g, id) && id != |h|
      ensures g[id].obj.charge == ObjectCharge(g[id].obj.data)
      ensures g[id].obj.depth == DepthAbove(g, Children(g[id].obj.data)) <= MAX_VALUE_DEPTH
    {
      assert IsLive(h, id);
      ChildrenMeanTheSame(h, g, -1, h[id].obj.data);
    }
    ChildrenMeanTheSame(h, g, -1, data);
    TreeOfObject(g, |h|);
  }

  lemma ChildrenMeanTheSame(h: seq<Cell>, g: seq<Cell>, x: int, data: HeapData)
    requires Agree(h, g, x)
    requires forall v :: v in Children(data) ==> Holds(h, v) && (v.Ref? ==> v.id != x)
    ensures DepthAbove(g, Children(data)) == DepthAbove(h, Children(data))
    ensures DataTree(g, data) == DataTree(h, data)
  {
    forall v | v in Children(data) ensures DepthOf(g, v) == DepthOf(h, v) && Tree(g, v) == Tree(h, v) {
      SameTree(h, g, x, v);
    }
    SameDepthAbove(h, g, Children(data));
    assert forall i :: 0 <= i < |Children(data)| ==> Children(data)[i] in Children(data);
    assert Trees(g, Children(data)) == Trees(h, Children(data));
  }

  /** Changing the contents of an object in place while its one reference is at hand: the new contents
      take in `added` and give back `dropped`. */
  lemma CellMutated(
    h: seq<Cell>, kept: multiset<Value>, i: nat, data: HeapData, added: multiset<Value>, dropped: multiset<Value>)
    requires HeapOk(h, kept + multiset{Ref(i)} + added) && IsLive(h, i) && h[i].obj.count == 1
    requires multiset(Children(data)) + dropped == multiset(Children(h[i].obj.data)) + added
    requires DepthAbove(h, Children(data)) <= MAX_VALUE_DEPTH
    ensures var g := h[i := Live(NewObject(h, data, 1))];
      && HeapOk(g, kept + multiset{Ref(i)} + dropped)
      && Keeps(h, g, kept)
      && TotalCharge(g) == TotalCharge(h) - h[i].obj.charge + ObjectCharge(data)
      && Tree(g, Ref(i)) == DataTree(h, data)
  {
    hide Counted, ObjectsExact, Agree, Keeps, Tree, DataTree, DepthAbove, TotalCharge, Holds;
    MutatedCounts(h, kept, i, data, added, dropped);
    MutatedContents(h, kept, i, data, added, dropped);
    KeptAside(h, h[i := Live(NewObject(h, data, 1))], kept, i, kept + multiset{Ref(i)} + added);
  }

  lemma MutatedCounts(
    h: seq<Cell>, kept: multiset<Value>, i: nat, data: HeapData, added: multiset<Value>, dropped: multiset<Value>)
    requires HeapOk(h, kept + multiset{Ref(i)} + added) && IsLive(h, i) && h[i].obj.count == 1
    requires multiset(Children(data)) + dropped == multiset(Children(h[i].obj.data)) + added
    ensures var g := h[i := Live(NewObject(h, data, 1))];
      && Counted(g, kept + multiset{Ref(i)} + dropped)
      && TotalCharge(g) == TotalCharge(h) - h[i].obj.charge + ObjectCharge(data)
  {
    hide Counted, Tree, DepthAbove, HeapRefs, TotalCharge, ObjectsExact;
    Exchange(kept + multiset{Ref(i)}, multiset(Children(data)), dropped, multiset(Children(h[i].obj.data)), added);
    MutatedCounted(h, kept + multiset{Ref(i)} + added, i, Live(NewObject(h, data, 1)), kept + multiset{Ref(i)} + dropped);
  }

  lemma MutatedContents(
    h: seq<Cell>, kept: multiset<Value>, i: nat, data: HeapData, added: multiset<Value>, dropped: multiset<Value>)
    requires HeapOk(h, kept + multiset{Ref(i)} + added) && IsLive(h, i) && h[i].obj.count == 1
    requires multiset(Children(data)) + dropped == multiset(Children(h[i].obj.data)) + added
    requires DepthAbove(h, Children(data)) <= MAX_VALUE_DEPTH
    ensures var g := h[i := Live(NewObject(h, data, 1))];
      ObjectsExact(g) && Agree(h, g, i) && Tree(g, Ref(i)) == DataTree(h, data)
  {
    hide Counted, Tree, DepthAbove, HeapRefs, ObjectsExact, Agree, DataTree, CellRefs;
    var refs := kept + multiset{Ref(i)} + added;
    SoleHolder(h, refs, i);
    assert multiset(Children(data)) <= multiset(Children(h[i].obj.data)) + added;
    MovedChildren(h, refs, i, Children(data), added);
    MutatedExact(h, i, data);
  }

  /** An object held by a single reference is not among the values kept beside it. */
  lemma KeptAside(h: seq<Cell>, g: seq<Cell>, kept: multiset<Value>, i: nat, refs: multiset<Value>)
    requires HeapOk(h, refs) && IsLive(h, i) && h[i].obj.count == 1 && kept + multiset{Ref(i)} <= refs && Agree(h, g, i)
    ensures Keeps(h, g, kept)
  {
    hide Agree, Tree, DepthOf, DepthAbove, HeapRefs, Keeps, Counted, ObjectsExact;
    SoleHolder(h, refs, i);
    assert (kept + multiset{Ref(i)})[Ref(i)] <= refs[Ref(i)];
    KeptElsewhere(h, g, kept, i, refs);
  }

  lemma Exchange(base: multiset<Value>, a: multiset<Value>, b: multiset<Value>, c: multiset<Value>, d: multiset<Value>)
    requires a + b == c + d
    ensures base + b + a == base + d + c
  {
    assert base + b + a == base + (a + b);
    assert base + d + c == base + (c + d);
  }

  lemma MutatedCounted(h: seq<Cell>, refs: multiset<Value>, i: nat, c: Cell, newRefs: multiset<Value>)
    requires Counted(h, refs) && IsLive(h, i) && c.Live? && c.obj.count == h[i].obj.count
    requires newRefs + CellRefs(c) == refs + CellRefs(h[i])
    ensures Counted(h[i := c], newRefs)
    ensures TotalCharge(h[i := c]) + CellCharge(h[i]) == TotalCharge(h) + CellCharge(c)
  {
    assert CountOf(h, i) > 0;
    forall id: nat
      ensures newRefs[Ref(id)] + CellRefs(c)[Ref(id)] == refs[Ref(id)] + CellRefs(h[i])[Ref(id)]
    {
      assert (newRefs + CellRefs(c))[Ref(id)] == (refs + CellRefs(h[i]))[Ref(id)];
    }
    CellReplaced(h, refs, i, c, newRefs);
  }

  lemma MutatedExact(h: seq<Cell>, i: nat, data: HeapData)
    requires ObjectsExact(h) && IsLive(h, i) && DepthAbove(h, Children(data)) <= MAX_VALUE_DEPTH
    requires forall id: nat, v :: IsLive(h, id) && v in Children(h[id].obj.data) ==> Holds(h, v) && (v.Ref? ==> v.id != i)
    requires forall v :: v in Children(data) ==> Holds(h, v) && (v.Ref? ==> v.id != i)
    ensures var g := h[i := Live(NewObject(h, data, 1))];
      ObjectsExact(g) && Agree(h, g, i) && Tree(g, Ref(i)) == DataTree(h, data)
  {
    var g := h[i := Live(NewObject(h, data, 1))];
    OthersExact(h, i, g[i]);
    ChildrenMeanTheSame(h, g, i, data);
    TreeOfObject(g, i);
  }

  lemma MovedChildren(h: seq<Cell>, refs: multiset<Value>, i: nat, items: seq<Value>, added: multiset<Value>)
    requires HeapOk(h, refs) && IsLive(h, i) && h[i].obj.count == 1 && Ref(i) in refs
    requires multiset(items) <= multiset(Children(h[i].obj.data)) + added
    requires added + multiset{Ref(i)} <= refs
    ensures forall v :: v in items ==> Holds(h, v) && (v.Ref? ==> v.id != i)
  {
    SoleHolder(h, refs, i);
    ChildHeld(h, refs);
    forall v | v in items ensures Holds(h, v) && (v.Ref? ==> v.id != i) {
      assert v in multiset(items);
      if v.Ref? { assert v == Ref(v.id); }
    }
  }

  /** Every value that means something in `h` means the same in `g`. */
  ghost predicate Extends(h: seq<Cell>, g: seq<Cell>) {
    forall v {:trigger Tree(g, v)} {:trigger Holds(g, v)} {:trigger DepthOf(g, v)} :: Holds(h, v) ==>
      Holds(g, v) && DepthOf(g, v) == DepthOf(h, v) && Tree(g, v) == Tree(h, v)
  }

  lemma NothingAdded(h: seq<Cell>)
    ensures Extends(h, h)
  {
  }

  lemma AgreeExtends(h: seq<Cell>, g: seq<Cell>)
    requires Agree(h, g, -1)
    ensures Extends(h, g)
  {
    forall v | Holds(h, v) ensures Holds(g, v) && DepthOf(g, v) == DepthOf(h, v) && Tree(g, v) == Tree(h, v) {
      SameTree(h, g, -1, v);
    }
  }

  lemma SameItems(h: seq<Cell>, g: seq<Cell>, values: seq<Value>)
    requires Extends(h, g) && forall w :: w in values ==> Holds(h, w)
    ensures Trees(g, values) == Trees(h, values) && DepthAbove(g, values) == DepthAbove(h, values)
  {
    hide Tree, DepthOf, Trees, DepthAbove, Holds;
    SameTrees(h, g, values);
    forall v | v in values ensures DepthOf(g, v) == DepthOf(h, v) { assert Holds(h, v); }
    SameDepthAbove(h, g, values);
  }

  lemma ImportedTrees(h: seq<Cell>, g: seq<Cell>, items: seq<OwnedValue>, values: seq<Value>, v: Value)
    requires |values| < |items| && Extends(h, g) && forall w :: w in values ==> Holds(h, w)
    requires Trees(h, values) == items[..|values|] && Tree(g, v) == items[|values|]
    ensures Trees(g, values + [v]) == items[..|values| + 1]
  {
    hide Tree, DepthOf, Trees, DepthAbove, Extends, Holds;
    SameItems(h, g, values);
    TreesPush(g, values, v);
    TakeOneMore(items, |values|);
  }

  lemma ImportedDepth(h: seq<Cell>, g: seq<Cell>, items: seq<OwnedValue>, values: seq<Value>, v: Value)
    requires |values| < |items| && Extends(h, g) && forall w :: w in values ==> Holds(h, w)
    requires DepthAbove(h, values) == ItemsHeight(items[..|values|]) && DepthOf(g, v) == Height(items[|values|])
    ensures DepthAbove(g, values + [v]) == ItemsHeight(items[..|values| + 1])
  {
    hide Tree, DepthOf, Trees, DepthAbove, Extends, Height, ItemsHeight, Holds;
    SameItems(h, g, values);
    TreesPush(g, values, v);
    PrefixBounds(items, |values|);
  }

  lemma MapTree(h: seq<Cell>, entries: OrdMap<OwnedValue>, values: seq<Value>)
    requires |values| == |entries.keys| && Trees(h, values) == entries.vals
    ensures var data := HeapData.Map(Entries(entries.keys, values));
      Children(data) == values && DataTree(h, data) == OwnedValue.Map(entries)
  {
  }

  lemma TakeOneMore<T>(s: seq<T>, i: nat)
    requires i < |s|
    ensures s[..i] + [s[i]] == s[..i + 1]
  {
  }

  lemma TreesPush(g: seq<Cell>, values: seq<Value>, v: Value)
    ensures Trees(g, values + [v]) == Trees(g, values) + [Tree(g, v)]
    ensures DepthAbove(g, values + [v]) == Max(DepthAbove(g, values), DepthOf(g, v) + 1)
  {
    assert (values + [v])[..|values|] == values;
  }

  lemma SameTrees(h: seq<Cell>, g: seq<Cell>, values: seq<Value>)
    requires Extends(h, g) && forall w :: w in values ==> Holds(h, w)
    ensures Trees(g, values) == Trees(h, values)
  {
    forall j | 0 <= j < |values| ensures Tree(g, values[j]) == Tree(h, values[j]) {
      assert values[j] in values;
    }
  }

  lemma ExtendsTransitive(f: seq<Cell>, g: seq<Cell>, h: seq<Cell>)
    requires Extends(f, g) && Extends(g, h)
    ensures Extends(f, h)
  {
  }

  lemma ReferenceHeld(h: seq<Cell>, refs: multiset<Value>, id: nat)
    requires Counted(h, refs) && Ref(id) in refs
    ensures IsLive(h, id) && h[id].obj.count >= refs[Ref(id)]
  {
    assert refs[Ref(id)] + HeapRefs(h)[Ref(id)] == CountOf(h, id);
  }

  lemma FreedAmongDropped(h: seq<Cell>, kept: multiset<Value>, id: nat, rest: seq<Value>)
    requires HeapOk(h, kept + multiset{Ref(id)} + multiset(rest)) && IsLive(h, id) && h[id].obj.count == 1
    ensures HeapOk(h[id := Freed], kept + multiset(Children(h[id].obj.data) + rest))
    ensures Keeps(h, h[id := Freed], kept)
    ensures TotalCharge(h[id := Freed]) == TotalCharge(h) - h[id].obj.charge
    ensures TotalCount(h[id := Freed]) == TotalCount(h) - 1
  {
    var inside := Children(h[id].obj.data);
    var others := kept + multiset(rest);
    hide HeapOk, Tree, TotalCharge, TotalCount;
    assert kept + multiset{Ref(id)} + multiset(rest) == others + multiset{Ref(id)};
    CellFreed(h, others, id);
    assert others + multiset(inside) == kept + multiset(inside + rest);
    forall v | v in kept ensures v in others {}
  }

  lemma CountLoweredAmongDropped(h: seq<Cell>, kept: multiset<Value>, id: nat, rest: seq<Value>)
    requires HeapOk(h, kept + multiset{Ref(id)} + multiset(rest)) && IsLive(h, id) && h[id].obj.count > 1
    ensures var g := h[id := Live(h[id].obj.(count := h[id].obj.count - 1))];
      && HeapOk(g, kept + multiset(rest))
      && Keeps(h, g, kept)
      && TotalCharge(g) == TotalCharge(h)
      && TotalCount(g) == TotalCount(h) - 1
  {
    var refs := kept + multiset{Ref(id)} + multiset(rest);
    var g := h[id := Live(h[id].obj.(count := h[id].obj.count - 1))];
    CountChanged(h, refs, id, g[id], kept + multiset(rest));
    ChildHeld(h, refs);
    AgreeKeeps(h, g, -1, kept);
  }

  /** `g` has the live objects of `h`, with the same contents. */
  ghost predicate SameData(h: seq<Cell>, g: seq<Cell>) {
    |g| == |h| && forall id: nat :: IsLive(h, id) ==> IsLive(g, id) && g[id].obj.data == h[id].obj.data
  }

  /** Scalars are not counted. */
  lemma ScalarRefs(h: seq<Cell>, refs: multiset<Value>, newRefs: multiset<Value>)
    requires Counted(h, refs) && forall id: nat :: newRefs[Ref(id)] == refs[Ref(id)]
    ensures Counted(h, newRefs)
  {
  }

  lemma ScalarDropped(h: seq<Cell>, refs: multiset<Value>, v: Value, newRefs: multiset<Value>)
    requires HeapOk(h, refs) && !v.Ref? && refs == newRefs + multiset{v}
    ensures HeapOk(h, newRefs)
  {
    ScalarRefs(h, refs, newRefs);
  }

  lemma StartKept(h: seq<Cell>, refs: multiset<Value>, kept: multiset<Value>)
    requires HeapOk(h, refs) && kept <= refs
    ensures Keeps(h, h, kept)
  {
    ChildHeld(h, refs);
  }

  lemma KeepsTransitive(f: seq<Cell>, g: seq<Cell>, h: seq<Cell>, kept: multiset<Value>)
    requires Keeps(f, g, kept) && Keeps(g, h, kept)
    ensures Keeps(f, h, kept)
  {
  }

  class Heap {
    var cells: seq<Cell>
    var bytes: nat
    const limit: nat
    ghost var refs: multiset<Value>

    ghost predicate Valid()
      reads this
    {
      HeapOk(cells, refs) && bytes == TotalCharge(cells) && bytes <= limit
    }

    constructor (limit: nat)
      ensures Valid() && this.limit == limit && refs == multiset{} && cells == [] && bytes == 0
    {
      this.limit := limit;
      cells := [];
      bytes := 0;
      refs := multiset{};
    }

    /** `reserve_heap`: whether a charge fits under the limit. */
    predicate Fits(charge: nat)
      reads this
    {
      bytes + charge <= limit
    }

    /** Moves the given contents into a new object with one reference. */
    method Allocate(data: HeapData, charge: nat, depth: nat, ghost kept: multiset<Value>) returns (v: Value)
      requires Valid() && Fits(charge) && refs == kept + multiset(Children(data))
      requires charge == ObjectCharge(data) && depth == DepthAbove(cells, Children(data)) <= MAX_VALUE_DEPTH
      modifies this
      ensures Valid() && refs == kept + multiset{v}
      ensures v.Ref? && Holds(cells, v) && DepthOf(cells, v) == depth
      ensures Tree(cells, v) == DataTree(old(cells), data)
      ensures Extends(old(cells), cells)
      ensures bytes == old(bytes) + charge
    {
      hide DepthAbove, TotalCharge, HeapOk, Tree, DataTree, Agree, Extends;
      CellAdded(cells, kept, data);
      NewCell(cells, data);
      v := Ref(|cells|);
      cells := cells + [Live(Object(data, charge, depth, 1))];
      bytes := bytes + charge;
      refs := kept + multiset{v};
      AgreeExtends(old(cells), cells);
    }

    /** Cloning a value adds one to the strong count of the object it refers to. */
    method Clone(v: Value)
      requires Valid() && Holds(cells, v)
      modifies this
      ensures Valid() && refs == old(refs) + multiset{v}
      ensures Extends(old(cells), cells)
      ensures bytes == old(bytes)
      ensures SameData(old(cells), cells)
    {
      if v.Ref? {
        var obj := cells[v.id].obj;
        var g := cells[v.id := Live(obj.(count := obj.count + 1))];
        CountChanged(cells, refs, v.id, g[v.id], refs + multiset{v});
        AgreeExtends(cells, g);
        cells := g;
      } else {
        ScalarRefs(cells, refs, refs + multiset{v});
      }
      refs := refs + multiset{v};
    }

    /** Cloning a sequence of values, as `to_vec` and `clone` on a collection do. */
    method CloneAll(vs: seq<Value>)
      requires Valid() && forall v :: v in vs ==> Holds(cells, v)
      modifies this
      ensures Valid() && refs == old(refs) + multiset(vs)
      ensures Extends(old(cells), cells)
      ensures bytes == old(bytes)
      ensures SameData(old(cells), cells)
    {
      for i := 0 to |vs|
        invariant Valid() && refs == old(refs) + multiset(vs[..i])
        invariant Extends(old(cells), cells) && SameData(old(cells), cells) && bytes == old(bytes)
      {
        assert vs[i] in vs;
        assert vs[..i + 1] == vs[..i] + [vs[i]];
        Clone(vs[i]);
      }
      assert vs[..|vs|] == vs;
    }

    /** Dropping values: each gives up one count; an object left without a reference is freed,
        its charge is returned and its own contents are dropped in turn. */
    method Release(vs: seq<Value>, ghost kept: multiset<Value>)
      requires Valid() && refs == kept + multiset(vs)
      modifies this
      ensures Valid() && refs == kept
      ensures Keeps(old(cells), cells, kept)
      ensures bytes <= old(bytes)
    {
      hide HeapOk, Keeps, TotalCharge, TotalCount;
      StartKept(cells, refs, kept);
      var pending := vs;
      while pending != []
        invariant Valid() && refs == kept + multiset(pending)
        invariant Keeps(old(cells), cells, kept)
        invariant bytes <= old(bytes)
        decreases TotalCount(cells), |pending|
      {
        var v := pending[0];
        assert pending == [v] + pending[1..];
        pending := pending[1..];
        if v.Ref? {
          ghost var before := cells;
          pending := DropReference(v.id, pending, kept);
          KeepsTransitive(old(cells), before, cells, kept);
        } else {
          ScalarDropped(cells, refs, v, kept + multiset(pending));
          refs := kept + multiset(pending);
        }
      }
    }

    /** Gives up one reference to an object; `rest` is what remains to be dropped. */
    method DropReference(id: nat, rest: seq<Value>, ghost kept: multiset<Value>) returns (pending: seq<Value>)
      requires Valid() && refs == kept + multiset{Ref(id)} + multiset(rest)
      modifies this
      ensures Valid() && refs == kept + multiset(pending)
      ensures Keeps(old(cells), cells, kept)
      ensures bytes <= old(bytes)
      ensures TotalCount(cells) == TotalCount(old(cells)) - 1
    {
      ReferenceHeld(cells, refs, id);
      var obj := cells[id].obj;
      if obj.count == 1 {
        FreedAmongDropped(cells, kept, id, rest);
        cells := cells[id := Freed];
        bytes := bytes - obj.charge;
        pending := Children(obj.data) + rest;
      } else {
        CountLoweredAmongDropped(cells, kept, id, rest);
        cells := cells[id := Live(obj.(count := obj.count - 1))];
        pending := rest;
      }
      refs := kept + multiset(pending);
    }

    /** Changes the contents of an object whose one reference the caller has at hand; the new contents take
        in the references `added` and give back the references `dropped`. */
    method Mutate(
      id: nat, data: HeapData, charge: nat, depth: nat,
      ghost kept: multiset<Value>, ghost added: multiset<Value>, ghost dropped: multiset<Value>)
      requires Valid() && IsLive(cells, id) && cells[id].obj.count == 1
      requires refs == kept + multiset{Ref(id)} + added
      requires multiset(Children(data)) + dropped == multiset(Children(cells[id].obj.data)) + added
      requires charge == ObjectCharge(data) && depth == DepthAbove(cells, Children(data)) <= MAX_VALUE_DEPTH
      requires bytes - cells[id].obj.charge + charge <= limit
      modifies this
      ensures Valid() && refs == kept + multiset{Ref(id)} + dropped
      ensures Holds(cells, Ref(id)) && Tree(cells, Ref(id)) == DataTree(old(cells), data)
      ensures Keeps(old(cells), cells, kept)
    {
      CellMutated(cells, kept, id, data, added, dropped);
      hide Tree, DepthAbove, HeapRefs, TotalCharge, Keeps, HeapOk;
      var g := cells[id := Live(Object(data, charge, depth, 1))];
      bytes := bytes - cells[id].obj.charge + charge;
      cells := g;
      refs := kept + multiset{Ref(id)} + dropped;
    }

    /** Builds the heap form of an owned value: contents first, then the object that holds them. */
    method Import(value: OwnedValue) returns (v: Value)
      requires Valid() && Fits(Charge(value)) && Height(value) <= MAX_VALUE_DEPTH
      modifies this
      ensures Valid() && refs == old(refs) + multiset{v}
      ensures Holds(cells, v) && Tree(cells, v) == value && DepthOf(cells, v) == Height(value)
      ensures Extends(old(cells), cells)
      ensures bytes == old(bytes) + Charge(value)
      decreases value, 1
    {
      match value
      case Null => v := Value.Null; KeepScalar(v, value);
      case Bool(b) => v := Value.Bool(b); KeepScalar(v, value);
      case Integer(n) => v := Value.Integer(n); KeepScalar(v, value);
      case Text(text) => v := ImportLeaf(HeapData.Text(text), HEAP_OBJECT_CHARGE + Utf8Len(text), value);
      case Bytes(data) => v := ImportLeaf(HeapData.Bytes(data), HEAP_OBJECT_CHARGE + |data|, value);
      case List(items) => v := ImportList(items);
      case Map(entries) => v := ImportMap(entries);
    }

    method ImportLeaf(data: HeapData, charge: nat, ghost value: OwnedValue) returns (v: Value)
      requires Valid() && Fits(charge) && charge == ObjectCharge(data) == Charge(value)
      requires Children(data) == [] && Height(value) == 0 && DataTree(cells, data) == value
      modifies this
      ensures Valid() && refs == old(refs) + multiset{v}
      ensures Holds(cells, v) && Tree(cells, v) == value && DepthOf(cells, v) == Height(value)
      ensures Extends(old(cells), cells)
      ensures bytes == old(bytes) + Charge(value)
    {
      v := Allocate(data, charge, 0, refs);
    }

    method ImportList(items: seq<OwnedValue>) returns (v: Value)
      requires Valid() && Fits(Charge(OwnedValue.List(items))) && ItemsHeight(items) <= MAX_VALUE_DEPTH
      modifies this
      ensures Valid() && refs == old(refs) + multiset{v}
      ensures Holds(cells, v) && Tree(cells, v) == OwnedValue.List(items) && DepthOf(cells, v) == ItemsHeight(items)
      ensures Extends(old(cells), cells)
      ensures bytes == old(bytes) + Charge(OwnedValue.List(items))
      decreases items, 1
    {
      var values := ImportItems(items);
      ghost var middle := cells;
      v := Allocate(HeapData.List(values), HEAP_OBJECT_CHARGE + |items| * VALUE_SIZE, DepthAbove(cells, values), old(refs));
      ExtendsTransitive(old(cells), middle, cells);
    }

    method ImportMap(entries: OrdMap<OwnedValue>) returns (v: Value)
      requires Valid() && Fits(Charge(OwnedValue.Map(entries))) && ItemsHeight(entries.vals) <= MAX_VALUE_DEPTH
      modifies this
      ensures Valid() && refs == old(refs) + multiset{v}
      ensures Holds(cells, v) && Tree(cells, v) == OwnedValue.Map(entries) && DepthOf(cells, v) == ItemsHeight(entries.vals)
      ensures Extends(old(cells), cells)
      ensures bytes == old(bytes) + Charge(OwnedValue.Map(entries))
      decreases entries, 1
    {
      var values := ImportItems(entries.vals);
      ghost var middle := cells;
      hide Tree, DepthOf, DepthAbove, HeapRefs, TotalCharge;
      var data := HeapData.Map(Entries(entries.keys, values));
      MapTree(cells, entries, values);
      v := Allocate(data, HEAP_OBJECT_CHARGE + KeysCharge(entries.keys), DepthAbove(cells, values), old(refs));
      ExtendsTransitive(old(cells), middle, cells);
    }

    ghost method KeepScalar(v: Value, value: OwnedValue)
      requires Valid() && !v.Ref? && Tree(cells, v) == value
      modifies this`refs
      ensures Valid() && refs == old(refs) + multiset{v}
      ensures Holds(cells, v) && Tree(cells, v) == value && DepthOf(cells, v) == Height(value)
      ensures Extends(old(cells), cells) && Charge(value) == 0
    {
      ScalarRefs(cells, refs, refs + multiset{v});
      refs := refs + multiset{v};
    }

    /** The first items of a collection have been built as `values`. */
    ghost predicate Built(items: seq<OwnedValue>, values: seq<Value>)
      reads this
    {
      && |values| <= |items| && Trees(cells, values) == items[..|values|]
      && DepthAbove(cells, values) == ItemsHeight(items[..|values|])
      && forall v :: v in values ==> Holds(cells, v)
    }

    method ImportItems(items: seq<OwnedValue>) returns (values: seq<Value>)
      requires Valid() && Fits(ItemsCharge(items)) && ItemsHeight(items) <= MAX_VALUE_DEPTH + 1
      modifies this
      ensures Valid() && refs == old(refs) + multiset(values)
      ensures |values| == |items| && Trees(cells, values) == items
      ensures DepthAbove(cells, values) == ItemsHeight(items)
      ensures Extends(old(cells), cells)
      ensures bytes == old(bytes) + ItemsCharge(items)
      decreases items, 0
    {
      hide HeapOk, TotalCharge, Tree, DepthOf, Extends, Height;
      values := [];
      NothingAdded(cells);
      for i := 0 to |items|
        invariant Valid() && refs == old(refs) + multiset(values) && |values| == i
        invariant Extends(old(cells), cells) && Built(items, values)
        invariant bytes == old(bytes) + ItemsCharge(items[..i])
      {
        ghost var before := cells;
        PrefixBounds(items, i);
        var v := ImportNext(items, values);
        ExtendsTransitive(old(cells), before, cells);
        values := values + [v];
      }
      assert items[..|items|] == items;
    }

    method ImportNext(items: seq<OwnedValue>, values: seq<Value>) returns (v: Value)
      requires Valid() && Built(items, values) && |values| < |items|
      requires Fits(Charge(items[|values|])) && Height(items[|values|]) <= MAX_VALUE_DEPTH
      modifies this
      ensures Valid() && refs == old(refs) + multiset{v} && Built(items, values + [v])
      ensures Extends(old(cells), cells)
      ensures bytes == old(bytes) + Charge(items[|values|])
      decreases items[|values|], 2
    {
      hide HeapOk, TotalCharge;
      v := Import(items[|values|]);
      ImportedTrees(old(cells), cells, items, values, v);
      ImportedDepth(old(cells), cells, items, values, v);
    }
  }
}
