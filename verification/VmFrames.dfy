/** Call frames that hold shared values: the references they own and the value-semantics frames they stand for. */
module VmFrames {
  import opened Wrappers
  import opened OrderedMap
  import opened Values
  import opened HeapModel
  import opened SharedHeap
  import V = ValueMachine

  datatype Frame = Frame(function_: nat, ip: nat, locals: seq<Option<Value>>, stack: seq<Value>)

  // ----- references owned -----

  ghost function OptRefs(v: Option<Value>): multiset<Value> {
    if v.Some? then multiset{v.value} else multiset{}
  }

  ghost function LocalRefs(locals: seq<Option<Value>>): multiset<Value> {
    if locals == [] then multiset{} else LocalRefs(locals[..|locals| - 1]) + OptRefs(locals[|locals| - 1])
  }

  /** The values the set locals hold, as dropping a frame gives them up. */
  function LocalValues(locals: seq<Option<Value>>): seq<Value> {
    if locals == [] then []
    else
      var last := locals[|locals| - 1];
      LocalValues(locals[..|locals| - 1]) + if last.Some? then [last.value] else []
  }

  lemma {:induction false} LocalValuesOwned(locals: seq<Option<Value>>)
    ensures multiset(LocalValues(locals)) == LocalRefs(locals)
  {
    if locals != [] { LocalValuesOwned(locals[..|locals| - 1]); }
  }

  lemma FrameValuesOwned(f: Frame)
    ensures multiset(f.stack + LocalValues(f.locals)) == FrameRefs(f)
  {
    LocalValuesOwned(f.locals);
  }

  ghost function FrameRefs(f: Frame): multiset<Value> {
    LocalRefs(f.locals) + multiset(f.stack)
  }

  ghost function FramesRefs(frames: seq<Frame>): multiset<Value> {
    if frames == [] then multiset{} else FramesRefs(frames[..|frames| - 1]) + FrameRefs(frames[|frames| - 1])
  }

  function FramesValues(frames: seq<Frame>): seq<Value> {
    if frames == [] then []
    else
      var top := frames[|frames| - 1];
      FramesValues(frames[..|frames| - 1]) + (top.stack + LocalValues(top.locals))
  }

  lemma {:induction false} FramesValuesOwned(frames: seq<Frame>)
    ensures multiset(FramesValues(frames)) == FramesRefs(frames)
  {
    if frames != [] {
      FramesValuesOwned(frames[..|frames| - 1]);
      FrameValuesOwned(frames[|frames| - 1]);
    }
  }

  lemma {:induction false} LocalReplaced(locals: seq<Option<Value>>, i: nat, v: Option<Value>)
    requires i < |locals|
    ensures LocalRefs(locals[i := v]) + OptRefs(locals[i]) == LocalRefs(locals) + OptRefs(v)
  {
    hide OptRefs;
    var n := |locals| - 1;
    var g := locals[i := v];
    if i == n {
      assert g[..n] == locals[..n];
    } else {
      LocalReplaced(locals[..n], i, v);
      assert g[..n] == locals[..n][i := v];
      var a, b, last := LocalRefs(g[..n]), LocalRefs(locals[..n]), OptRefs(locals[n]);
      assert LocalRefs(g) == a + last && LocalRefs(locals) == b + last;
      assert a + last + OptRefs(locals[i]) == (a + OptRefs(locals[i])) + last;
    }
  }

  lemma {:induction false} LocalOwned(locals: seq<Option<Value>>, i: nat)
    requires i < |locals|
    ensures OptRefs(locals[i]) <= LocalRefs(locals)
  {
    var n := |locals| - 1;
    if i < n { LocalOwned(locals[..n], i); }
  }

  lemma {:induction false} FrameOwned(frames: seq<Frame>, i: nat)
    requires i < |frames|
    ensures FrameRefs(frames[i]) <= FramesRefs(frames)
  {
    var n := |frames| - 1;
    if i < n { FrameOwned(frames[..n], i); }
  }

  // ----- the frames as values -----

  ghost function ViewOpt(h: seq<Cell>, v: Option<Value>): Option<OwnedValue> {
    if v.Some? then Some(Tree(h, v.value)) else None
  }

  ghost function ViewLocals(h: seq<Cell>, locals: seq<Option<Value>>): (r: seq<Option<OwnedValue>>)
    ensures |r| == |locals|
    ensures forall i :: 0 <= i < |r| ==> r[i] == ViewOpt(h, locals[i])
  {
    seq(|locals|, i requires 0 <= i < |locals| => ViewOpt(h, locals[i]))
  }

  ghost function ViewFrame(h: seq<Cell>, f: Frame): V.Frame {
    V.Frame(f.function_, f.ip, ViewLocals(h, f.locals), Trees(h, f.stack))
  }

  ghost function ViewFrames(h: seq<Cell>, frames: seq<Frame>): (r: seq<V.Frame>)
    ensures |r| == |frames|
    ensures forall i :: 0 <= i < |r| ==> r[i] == ViewFrame(h, frames[i])
  {
    seq(|frames|, i requires 0 <= i < |frames| => ViewFrame(h, frames[i]))
  }

  function LiveSlots(frames: seq<Frame>): nat {
    if frames == [] then 0
    else
      var top := frames[|frames| - 1];
      LiveSlots(frames[..|frames| - 1]) + |top.locals| + |top.stack|
  }

  lemma {:induction false} LiveSlotsViewed(h: seq<Cell>, frames: seq<Frame>)
    ensures V.LiveSlots(ViewFrames(h, frames)) == LiveSlots(frames)
  {
    if frames != [] {
      LiveSlotsViewed(h, frames[..|frames| - 1]);
      assert ViewFrames(h, frames)[..|frames| - 1] == ViewFrames(h, frames[..|frames| - 1]);
    }
  }

  // ----- frames whose references are kept keep their meaning -----

  lemma TreesKept(h: seq<Cell>, g: seq<Cell>, kept: multiset<Value>, vs: seq<Value>)
    requires Keeps(h, g, kept) && multiset(vs) <= kept
    ensures Trees(g, vs) == Trees(h, vs)
  {
    forall i | 0 <= i < |vs| ensures Tree(g, vs[i]) == Tree(h, vs[i]) {
      assert vs[i] in multiset(vs);
    }
  }

  lemma OptKept(h: seq<Cell>, g: seq<Cell>, kept: multiset<Value>, v: Option<Value>)
    requires Keeps(h, g, kept) && OptRefs(v) <= kept
    ensures ViewOpt(g, v) == ViewOpt(h, v)
  {
    if v.Some? { assert v.value in OptRefs(v); }
  }

  lemma LocalsKept(h: seq<Cell>, g: seq<Cell>, kept: multiset<Value>, locals: seq<Option<Value>>)
    requires Keeps(h, g, kept) && LocalRefs(locals) <= kept
    ensures ViewLocals(g, locals) == ViewLocals(h, locals)
  {
    forall i | 0 <= i < |locals| ensures ViewOpt(g, locals[i]) == ViewOpt(h, locals[i]) {
      LocalOwned(locals, i);
      OptKept(h, g, kept, locals[i]);
    }
  }

  lemma FrameKept(h: seq<Cell>, g: seq<Cell>, kept: multiset<Value>, f: Frame)
    requires Keeps(h, g, kept) && FrameRefs(f) <= kept
    ensures ViewFrame(g, f) == ViewFrame(h, f)
  {
    LocalsKept(h, g, kept, f.locals);
    TreesKept(h, g, kept, f.stack);
  }

  lemma FramesKept(h: seq<Cell>, g: seq<Cell>, kept: multiset<Value>, frames: seq<Frame>)
    requires Keeps(h, g, kept) && FramesRefs(frames) <= kept
    ensures ViewFrames(g, frames) == ViewFrames(h, frames)
  {
    forall i | 0 <= i < |frames| ensures ViewFrame(g, frames[i]) == ViewFrame(h, frames[i]) {
      FrameOwned(frames, i);
      FrameKept(h, g, kept, frames[i]);
    }
  }

  lemma KeepsLess(h: seq<Cell>, g: seq<Cell>, more: multiset<Value>, less: multiset<Value>)
    requires Keeps(h, g, more) && less <= more
    ensures Keeps(h, g, less)
  {
    hide Tree, DepthOf;
    forall v | v in less ensures Holds(h, v) && Holds(g, v) && DepthOf(g, v) == DepthOf(h, v) && Tree(g, v) == Tree(h, v) {
      assert v in more;
    }
  }

  lemma ExtendsKeeps(h: seq<Cell>, g: seq<Cell>, refs: multiset<Value>)
    requires Extends(h, g) && Counted(h, refs)
    ensures Keeps(h, g, refs)
  {
    ChildHeld(h, refs);
    hide Tree, DepthOf, HeapRefs;
  }
}
