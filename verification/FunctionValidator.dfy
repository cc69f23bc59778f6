/** The worklist dataflow analysis that accepts or rejects one function body. */
module FunctionValidator {
  import opened Wrappers
  import opened Values
  import opened Bytecode
  import opened LocalWords

  /** What is known on arrival at an instruction: the operand depth and the initialized locals. */
  datatype Fact = Fact(depth: nat, locals: set<nat>)

  datatype Item = Item(ip: nat, fact: Fact)

  datatype Reason =
    | VisitLimit
    | JoinDepth
    | MissingOperands
    | UninitializedSlot
    | ReturnDepth
    | StackLimit

  /** A rejected instruction and why it was rejected. */
  datatype Rejection = Rejection(ip: nat, reason: Reason)

  // ----- facts against paths -----

  /** Some path arrives with this depth, and each local missing from the fact is missing on some path. */
  ghost predicate Justified(f: Function, env: Env, ip: nat, fact: Fact) {
    && (exists p :: PathTo(f, p, ip) && DepthAlong(f, env, p) == fact.depth)
    && (forall slot: nat :: slot < f.localCount && slot !in fact.locals ==> MissingOnSomePath(f, ip, slot))
    && (forall slot: nat :: slot in fact.locals ==> slot < f.localCount)
  }

  ghost predicate MissingOnSomePath(f: Function, ip: nat, slot: nat) {
    exists p :: PathTo(f, p, ip) && slot !in LocalsAlong(f, p)
  }

  /** The fact holds on every path that arrives. */
  ghost predicate Covers(f: Function, env: Env, ip: nat, fact: Fact) {
    forall p :: PathTo(f, p, ip) ==> DepthAlong(f, env, p) == fact.depth && fact.locals <= LocalsAlong(f, p)
  }

  /** `locals` is the intersection of the local sets of all paths to `ip`. */
  ghost predicate IsIntersection(f: Function, ip: nat, locals: set<nat>) {
    forall slot: nat :: slot in locals <==> slot < f.localCount && forall p :: PathTo(f, p, ip) ==> slot in LocalsAlong(f, p)
  }

  /** The named instruction has a path, or two, that fails for the given reason. */
  ghost predicate Evidence(f: Function, env: Env, e: Rejection) {
    && e.ip < |f.code|
    && var op := f.code[e.ip];
       match e.reason
       case VisitLimit => true
       case JoinDepth =>
         exists p, q :: PathTo(f, p, e.ip) && PathTo(f, q, e.ip) && DepthAlong(f, env, p) != DepthAlong(f, env, q)
       case MissingOperands => exists p :: PathTo(f, p, e.ip) && DepthAlong(f, env, p) < Required(op, env)
       case UninitializedSlot => (op.LocalGet? || op.LocalTake?) && MissingOnSomePath(f, e.ip, op.slot)
       case ReturnDepth => op.Return? && exists p :: PathTo(f, p, e.ip) && DepthAlong(f, env, p) != 1
       case StackLimit => exists p :: PathTo(f, p, e.ip) && NextDepth(op, env, DepthAlong(f, env, p)) > MAX_OPERAND_STACK
  }

  /** The fact passed on to a successor. */
  function FactAfter(f: Function, env: Env, ip: nat, fact: Fact): Fact
    requires ip < |f.code| && fact.depth >= Required(f.code[ip], env)
  {
    var op := f.code[ip];
    Fact(NextDepth(op, env, fact.depth), NextLocals(op, fact.locals))
  }

  /** The instruction reads a local the fact does not have. */
  predicate Missing(op: Op, locals: set<nat>) {
    (op.LocalGet? || op.LocalTake?) && op.slot !in locals
  }

  function FirstFailure(op: Op, env: Env, depth: nat, missing: bool): Option<Reason> {
    if depth < Required(op, env) then Some(MissingOperands)
    else if missing then Some(UninitializedSlot)
    else if op.Return? && depth != 1 then Some(ReturnDepth)
    else if NextDepth(op, env, depth) > MAX_OPERAND_STACK then Some(StackLimit)
    else None
  }

  /** The first check the instruction fails. */
  function Check(f: Function, env: Env, ip: nat, fact: Fact): (r: Option<Reason>)
    requires ip < |f.code|
    ensures r.None? <==> Runs(f.code[ip], env, fact.depth, fact.locals)
  {
    FirstFailure(f.code[ip], env, fact.depth, Missing(f.code[ip], fact.locals))
  }

  lemma EntryJustified(f: Function, env: Env)
    requires WellFormed(f, env)
    ensures Justified(f, env, 0, Fact(0, Parameters(f.arity)))
  {
    assert PathTo(f, [0], 0);
  }

  lemma SuccessorJustified(f: Function, env: Env, ip: nat, fact: Fact, next: nat)
    requires WellFormed(f, env) && ip < |f.code| && Justified(f, env, ip, fact)
    requires fact.depth >= Required(f.code[ip], env)
    requires next in Successors(f.code[ip], ip)
    ensures next < |f.code| && Justified(f, env, next, FactAfter(f, env, ip, fact))
  {
    SuccessorsInRange(f, env, ip);
    var after := FactAfter(f, env, ip, fact);
    var p :| PathTo(f, p, ip) && DepthAlong(f, env, p) == fact.depth;
    PathExtends(f, env, p, ip, next);
    forall slot: nat | slot < f.localCount && slot !in after.locals ensures MissingOnSomePath(f, next, slot) {
      if slot !in fact.locals {
        var q :| PathTo(f, q, ip) && slot !in LocalsAlong(f, q);
        PathExtends(f, env, q, ip, next);
        assert slot !in LocalsAlong(f, q + [next]);
      } else {
        assert slot !in LocalsAlong(f, p + [next]);
      }
    }
    assert OpInRange(f.code[ip], f, env);
  }

  lemma MergeJustified(f: Function, env: Env, ip: nat, known: Fact, incoming: Fact)
    requires Justified(f, env, ip, known) && Justified(f, env, ip, incoming) && known.depth == incoming.depth
    ensures Justified(f, env, ip, Fact(known.depth, known.locals * incoming.locals))
  {
  }

  /** A justified fact the instruction cannot run with is a path the instruction cannot run on. */
  lemma RejectedPath(f: Function, env: Env, ip: nat, fact: Fact)
    requires WellFormed(f, env) && ip < |f.code| && Justified(f, env, ip, fact)
    requires !Runs(f.code[ip], env, fact.depth, fact.locals)
    ensures !Safe(f, env)
    ensures Evidence(f, env, Rejection(ip, Check(f, env, ip, fact).value))
  {
    var op := f.code[ip];
    assert OpInRange(op, f, env);
    var p :| PathTo(f, p, ip) && DepthAlong(f, env, p) == fact.depth;
    if (op.LocalGet? || op.LocalTake?) && op.slot !in fact.locals {
      assert MissingOnSomePath(f, ip, op.slot);
      var q :| PathTo(f, q, ip) && op.slot !in LocalsAlong(f, q);
      assert !Runs(op, env, DepthAlong(f, env, q), LocalsAlong(f, q));
    } else {
      assert !Runs(op, env, DepthAlong(f, env, p), LocalsAlong(f, p));
    }
  }

  lemma DisagreeingJoin(f: Function, env: Env, ip: nat, a: Fact, b: Fact)
    requires ip < |f.code| && Justified(f, env, ip, a) && Justified(f, env, ip, b) && a.depth != b.depth
    ensures !Safe(f, env) && Evidence(f, env, Rejection(ip, JoinDepth))
  {
    var p :| PathTo(f, p, ip) && DepthAlong(f, env, p) == a.depth;
    var q :| PathTo(f, q, ip) && DepthAlong(f, env, q) == b.depth;
    assert !PathsAgree(f, env);
  }

  // ----- the table of facts -----

  type Table = seq<Option<Fact>>

  /** Fact `b` of the table already accounts for an arrival with fact `a`. */
  predicate Absorbs(b: Option<Fact>, a: Fact) {
    b.Some? && b.value.depth == a.depth && b.value.locals <= a.locals
  }

  ghost predicate TableJustified(f: Function, env: Env, states: Table)
    requires |states| == |f.code|
  {
    forall ip :: 0 <= ip < |states| && states[ip].Some? ==> Justified(f, env, ip, states[ip].value)
  }

  ghost predicate ItemsJustified(f: Function, env: Env, worklist: seq<Item>) {
    forall i :: 0 <= i < |worklist| ==> worklist[i].ip < |f.code| && Justified(f, env, worklist[i].ip, worklist[i].fact)
  }

  /** Every visited instruction runs with its fact. */
  ghost predicate TableRuns(f: Function, env: Env, states: Table)
    requires |states| == |f.code|
  {
    forall ip :: 0 <= ip < |states| && states[ip].Some? ==>
      Runs(f.code[ip], env, states[ip].value.depth, states[ip].value.locals)
  }

  /** The arrival is in the table or still on the worklist. */
  ghost predicate Pending(states: Table, worklist: seq<Item>, ip: nat, fact: Fact)
    requires ip < |states|
  {
    Absorbs(states[ip], fact) || Item(ip, fact) in worklist
  }

  /** Every fact of the table has been passed on to all successors. */
  ghost predicate PassedOn(f: Function, env: Env, states: Table, worklist: seq<Item>)
    requires WellFormed(f, env) && |states| == |f.code| && TableRuns(f, env, states)
  {
    forall ip, next :: 0 <= ip < |states| && states[ip].Some? && next in Successors(f.code[ip], ip) ==>
      && next < |f.code|
      && Pending(states, worklist, next, FactAfter(f, env, ip, states[ip].value))
  }

  /** At a fixpoint the table covers every path. */
  lemma {:induction false} FixpointCovers(f: Function, env: Env, states: Table, p: seq<nat>)
    requires WellFormed(f, env) && |states| == |f.code| && TableRuns(f, env, states)
    requires PassedOn(f, env, states, []) && Absorbs(states[0], Fact(0, Parameters(f.arity)))
    requires Path(f, p)
    ensures var fact := states[p[|p| - 1]];
      fact.Some? && fact.value.depth == DepthAlong(f, env, p) && fact.value.locals <= LocalsAlong(f, p)
    decreases |p|
  {
    if |p| > 1 {
      PathFront(f, p);
      FixpointCovers(f, env, states, p[..|p| - 1]);
      var ip, next := p[|p| - 2], p[|p| - 1];
      assert next in Successors(f.code[ip], ip);
      assert Pending(states, [], next, FactAfter(f, env, ip, states[ip].value));
    }
  }

  /** What an accepted function's final table says. */
  ghost predicate Exact(f: Function, env: Env, states: Table) {
    && |states| == |f.code|
    && (forall ip :: 0 <= ip < |f.code| ==> (states[ip].Some? <==> exists p :: PathTo(f, p, ip)))
    && (forall ip :: 0 <= ip < |f.code| && states[ip].Some? ==>
          Covers(f, env, ip, states[ip].value) && IsIntersection(f, ip, states[ip].value.locals))
  }

  lemma FixpointExact(f: Function, env: Env, states: Table)
    requires WellFormed(f, env) && |states| == |f.code| && TableRuns(f, env, states) && TableJustified(f, env, states)
    requires PassedOn(f, env, states, []) && Absorbs(states[0], Fact(0, Parameters(f.arity)))
    ensures Exact(f, env, states) && Safe(f, env)
  {
    forall p | Path(f, p)
      ensures var fact := states[p[|p| - 1]];
        fact.Some? && fact.value.depth == DepthAlong(f, env, p) && fact.value.locals <= LocalsAlong(f, p)
    {
      FixpointCovers(f, env, states, p);
    }
    forall ip | 0 <= ip < |f.code| && states[ip].Some?
      ensures IsIntersection(f, ip, states[ip].value.locals)
    {
      assert Justified(f, env, ip, states[ip].value);
    }
  }

  // ----- one visit -----

  /** Where an instruction leads, in the order the successors are pushed. */
  function Targets(op: Op, ip: nat): seq<nat> {
    match op
    case Return => []
    case Jump(target) => [target]
    case JumpIfZero(target) => [target, ip + 1]
    case _ => [ip + 1]
  }

  /** What a visit leaves on the worklist. */
  function Pushes(f: Function, env: Env, ip: nat, fact: Fact): seq<Item>
    requires ip < |f.code| && fact.depth >= Required(f.code[ip], env)
  {
    var targets := Targets(f.code[ip], ip);
    seq(|targets|, i requires 0 <= i < |targets| => Item(targets[i], FactAfter(f, env, ip, fact)))
  }

  lemma TargetsAreSuccessors(op: Op, ip: nat)
    ensures forall next :: next in Targets(op, ip) <==> next in Successors(op, ip)
  {
    match op
    case JumpIfZero(target) => assert Targets(op, ip)[0] == target && Targets(op, ip)[1] == ip + 1;
    case Jump(target) => assert Targets(op, ip)[0] == target;
    case Return =>
    case _ => assert Targets(op, ip)[0] == ip + 1;
  }

  lemma PushesAreSuccessors(f: Function, env: Env, ip: nat, fact: Fact)
    requires ip < |f.code| && fact.depth >= Required(f.code[ip], env)
    ensures forall next :: next in Successors(f.code[ip], ip) ==>
      Item(next, FactAfter(f, env, ip, fact)) in Pushes(f, env, ip, fact)
    ensures forall item :: item in Pushes(f, env, ip, fact) ==>
      item.ip in Successors(f.code[ip], ip) && item.fact == FactAfter(f, env, ip, fact)
  {
    hide FactAfter, Targets, Successors;
    var targets, pushes := Targets(f.code[ip], ip), Pushes(f, env, ip, fact);
    TargetsAreSuccessors(f.code[ip], ip);
    forall next | next in Successors(f.code[ip], ip) ensures Item(next, FactAfter(f, env, ip, fact)) in pushes {
      var i :| 0 <= i < |targets| && targets[i] == next;
      assert pushes[i] == Item(next, FactAfter(f, env, ip, fact));
    }
  }

  /** Dropping an item whose arrival the table already absorbs. */
  lemma SkippedVisit(f: Function, env: Env, states: Table, rest: seq<Item>, item: Item)
    requires WellFormed(f, env) && |states| == |f.code| && TableRuns(f, env, states) && item.ip < |states|
    requires PassedOn(f, env, states, rest + [item]) && Absorbs(states[item.ip], item.fact)
    ensures PassedOn(f, env, states, rest)
    ensures forall ip, fact :: 0 <= ip < |states| && Pending(states, rest + [item], ip, fact) ==> Pending(states, rest, ip, fact)
  {
    forall ip, next | 0 <= ip < |states| && states[ip].Some? && next in Successors(f.code[ip], ip)
      ensures next < |f.code| && Pending(states, rest, next, FactAfter(f, env, ip, states[ip].value))
    {
      assert Pending(states, rest + [item], next, FactAfter(f, env, ip, states[ip].value));
    }
  }

  /** Recording a merged fact and pushing its successors. */
  lemma RecordedVisit(f: Function, env: Env, states: Table, rest: seq<Item>, item: Item, merged: Fact)
    requires WellFormed(f, env) && |states| == |f.code| && TableRuns(f, env, states) && item.ip < |states|
    requires PassedOn(f, env, states, rest + [item])
    requires merged.depth == item.fact.depth && merged.locals <= item.fact.locals
    requires states[item.ip].Some? ==> merged.depth == states[item.ip].value.depth && merged.locals <= states[item.ip].value.locals
    requires Runs(f.code[item.ip], env, merged.depth, merged.locals)
    ensures var after := states[item.ip := Some(merged)];
      TableRuns(f, env, after) && PassedOn(f, env, after, rest + Pushes(f, env, item.ip, merged))
    ensures forall ip, fact :: 0 <= ip < |states| && Pending(states, rest + [item], ip, fact) ==>
      Pending(states[item.ip := Some(merged)], rest + Pushes(f, env, item.ip, merged), ip, fact)
  {
    var after := states[item.ip := Some(merged)];
    var pushes := Pushes(f, env, item.ip, merged);
    PushesAreSuccessors(f, env, item.ip, merged);
    SuccessorsInRange(f, env, item.ip);
    forall ip, fact | 0 <= ip < |states| && Pending(states, rest + [item], ip, fact)
      ensures Pending(after, rest + pushes, ip, fact)
    {
      if Item(ip, fact) in rest { assert Item(ip, fact) in rest + pushes; }
    }
    forall ip, next | 0 <= ip < |states| && after[ip].Some? && next in Successors(f.code[ip], ip)
      ensures next < |f.code| && Pending(after, rest + pushes, next, FactAfter(f, env, ip, after[ip].value))
    {
      var fact := FactAfter(f, env, ip, after[ip].value);
      if ip == item.ip {
        assert Item(next, fact) in pushes;
      } else {
        assert Pending(states, rest + [item], next, fact);
      }
    }
  }

  // ----- the work bound -----

  /** How much an instruction's fact can still change: not visited yet, or the locals it may still lose. */
  function Room(state: Option<Fact>, localCount: nat): nat {
    if state.None? then localCount + 1 else |state.value.locals|
  }

  function TotalRoom(states: Table, localCount: nat): nat {
    if states == [] then 0
    else TotalRoom(states[..|states| - 1], localCount) + Room(states[|states| - 1], localCount)
  }

  lemma {:induction false} TotalRoomUpdate(states: Table, localCount: nat, i: nat, state: Option<Fact>)
    requires i < |states|
    ensures TotalRoom(states[i := state], localCount) + Room(states[i], localCount) ==
            TotalRoom(states, localCount) + Room(state, localCount)
  {
    var n := |states| - 1;
    if i == n {
      assert states[i := state][..n] == states[..n];
    } else {
      TotalRoomUpdate(states[..n], localCount, i, state);
      assert states[i := state][..n] == states[..n][i := state];
    }
  }

  lemma {:induction false} UnvisitedRoom(n: nat, localCount: nat)
    ensures TotalRoom(seq(n, _ => None), localCount) == n * (localCount + 1)
  {
    if n > 0 {
      UnvisitedRoom(n - 1, localCount);
      assert seq(n, _ => None)[..n - 1] == seq<Option<Fact>>(n - 1, _ => None);
    }
  }

  lemma {:induction false} BelowCount(s: set<nat>, n: nat)
    requires forall x :: x in s ==> x < n
    ensures |s| <= n
  {
    if n > 0 {
      BelowCount(s - {n - 1}, n - 1);
    } else {
      assert s == {};
    }
  }

  lemma SmallerSet(a: set<nat>, b: set<nat>)
    requires a <= b && a != b
    ensures |a| < |b|
  {
    assert b == a + (b - a);
    assert b - a != {};
  }

  /** A visit that is not skipped uses up room. */
  lemma RoomShrinks(f: Function, env: Env, states: Table, ip: nat, merged: Fact)
    requires |states| == |f.code| && ip < |states| && Justified(f, env, ip, merged)
    requires states[ip].Some? ==> merged.locals <= states[ip].value.locals && merged.locals != states[ip].value.locals
    ensures TotalRoom(states[ip := Some(merged)], f.localCount) < TotalRoom(states, f.localCount)
  {
    TotalRoomUpdate(states, f.localCount, ip, Some(merged));
    BelowCount(merged.locals, f.localCount);
    if states[ip].Some? { SmallerSet(merged.locals, states[ip].value.locals); }
  }

  /** Visits any function of this size can take. */
  function VisitBound(f: Function): nat {
    1 + 2 * (|f.code| * (f.localCount + 1))
  }

  // ----- the peak -----

  ghost predicate TablePeak(f: Function, env: Env, states: Table, peak: nat)
    requires |states| == |f.code|
  {
    && (forall ip :: 0 <= ip < |states| && states[ip].Some? ==> NextDepth(f.code[ip], env, states[ip].value.depth) <= peak)
    && (peak == 0 || exists ip :: 0 <= ip < |states| && states[ip].Some? && NextDepth(f.code[ip], env, states[ip].value.depth) == peak)
  }

  lemma PeakOfTable(f: Function, env: Env, states: Table, peak: nat)
    requires Exact(f, env, states) && TablePeak(f, env, states, peak)
    ensures PeakDepth(f, env, peak)
  {
    forall p | Path(f, p) ensures NextDepth(f.code[p[|p| - 1]], env, DepthAlong(f, env, p)) <= peak {
      var ip := p[|p| - 1];
      assert PathTo(f, p, ip);
      assert Covers(f, env, ip, states[ip].value);
    }
    if peak != 0 {
      var ip :| 0 <= ip < |states| && states[ip].Some? && NextDepth(f.code[ip], env, states[ip].value.depth) == peak;
      var p :| PathTo(f, p, ip);
      assert Covers(f, env, ip, states[ip].value);
      assert Path(f, p) && NextDepth(f.code[p[|p| - 1]], env, DepthAlong(f, env, p)) == peak;
    }
  }

  lemma PeakRecorded(f: Function, env: Env, states: Table, peak: nat, ip: nat, merged: Fact)
    requires |states| == |f.code| && TablePeak(f, env, states, peak) && ip < |states|
    requires states[ip].Some? ==> states[ip].value.depth == merged.depth
    requires Runs(f.code[ip], env, merged.depth, merged.locals)
    ensures var next := NextDepth(f.code[ip], env, merged.depth);
      next >= 0 && TablePeak(f, env, states[ip := Some(merged)], Max(peak, next))
  {
    var after := states[ip := Some(merged)];
    var next := NextDepth(f.code[ip], env, merged.depth);
    assert after[ip].Some?;
    if peak != 0 && next < peak {
      var top :| 0 <= top < |states| && states[top].Some? && NextDepth(f.code[top], env, states[top].value.depth) == peak;
      assert after[top].Some? && NextDepth(f.code[top], env, after[top].value.depth) == peak;
    }
  }

  // ----- facts in their compact form -----

  /** A fact with its locals as words of bits. */
  datatype WordFact = WordFact(depth: nat, locals: Words)

  datatype WordItem = WordItem(ip: nat, fact: WordFact)

  type WordTable = seq<Option<WordFact>>

  ghost function Meaning(fact: WordFact): Fact {
    Fact(fact.depth, Slots(fact.locals))
  }

  ghost function Meanings(table: WordTable): Table {
    seq(|table|, ip requires 0 <= ip < |table| => if table[ip].Some? then Some(Meaning(table[ip].value)) else None)
  }

  ghost function Arrivals(worklist: seq<WordItem>): (arrivals: seq<Item>)
    ensures |arrivals| == |worklist|
  {
    seq(|worklist|, i requires 0 <= i < |worklist| => Item(worklist[i].ip, Meaning(worklist[i].fact)))
  }

  lemma ArrivalsJoin(rest: seq<WordItem>, more: seq<WordItem>)
    ensures Arrivals(rest + more) == Arrivals(rest) + Arrivals(more)
  {
  }

  lemma NothingRecorded(n: nat, arity: nat, parameters: Words)
    requires Slots(parameters) == Parameters(arity)
    ensures Meanings(seq(n, _ => None)) == seq(n, _ => None)
    ensures Arrivals([WordItem(0, WordFact(0, parameters))]) == [Item(0, Fact(0, Parameters(arity)))]
  {
  }

  lemma LastArrival(worklist: seq<WordItem>)
    requires worklist != []
    ensures var n := |worklist| - 1;
      Arrivals(worklist) == Arrivals(worklist[..n]) + [Item(worklist[n].ip, Meaning(worklist[n].fact))]
  {
  }

  lemma MeaningsAt(table: WordTable, ip: nat, fact: WordFact)
    requires ip < |table|
    ensures |Meanings(table)| == |table|
    ensures Meanings(table)[ip] == if table[ip].Some? then Some(Meaning(table[ip].value)) else None
    ensures Meanings(table[ip := Some(fact)]) == Meanings(table)[ip := Some(Meaning(fact))]
  {
    hide Meaning;
  }

  /** What a join knows, in words and in sets; the words tell when nothing new arrived. */
  lemma MergedMeaning(known: WordFact, incoming: WordFact)
    ensures var merged := WordFact(incoming.depth, Intersection(known.locals, incoming.locals));
      && Meaning(merged) == Fact(incoming.depth, Meaning(known).locals * Meaning(incoming).locals)
      && (merged.locals == known.locals <==> Meaning(merged).locals == Meaning(known).locals)
  {
    hide Slots, Intersection;
    IntersectionMeets(known.locals, incoming.locals);
    EqualWordsEqualSets(Intersection(known.locals, incoming.locals), known.locals);
  }

  function CheckWords(f: Function, env: Env, ip: nat, fact: WordFact): (r: Option<Reason>)
    requires WellFormed(f, env) && ip < |f.code|
    ensures r == Check(f, env, ip, Meaning(fact))
  {
    hide Contains;
    var op := f.code[ip];
    assert OpInRange(op, f, env);
    FirstFailure(op, env, fact.depth, (op.LocalGet? || op.LocalTake?) && !Contains(fact.locals, op.slot))
  }

  function WordsAfter(f: Function, env: Env, ip: nat, fact: WordFact): (after: WordFact)
    requires WellFormed(f, env) && ip < |f.code| && fact.depth >= Required(f.code[ip], env)
    ensures Meaning(after) == FactAfter(f, env, ip, Meaning(fact))
  {
    hide Slots, Mark, Clear;
    var op := f.code[ip];
    assert OpInRange(op, f, env);
    var locals :=
      if op.LocalSet? then MarkAndClear(fact.locals, op.slot); Mark(fact.locals, op.slot)
      else if op.LocalTake? then MarkAndClear(fact.locals, op.slot); Clear(fact.locals, op.slot)
      else fact.locals;
    WordFact(NextDepth(op, env, fact.depth), locals)
  }

  function WordPushes(f: Function, env: Env, ip: nat, fact: WordFact): (pushes: seq<WordItem>)
    requires WellFormed(f, env) && ip < |f.code| && fact.depth >= Required(f.code[ip], env)
    ensures Arrivals(pushes) == Pushes(f, env, ip, Meaning(fact))
  {
    hide Meaning, FactAfter, Targets;
    var targets, after := Targets(f.code[ip], ip), WordsAfter(f, env, ip, fact);
    seq(|targets|, i requires 0 <= i < |targets| => WordItem(targets[i], after))
  }

  // ----- the analysis -----

  lemma OutOfVisits(f: Function, env: Env, ip: nat)
    requires ip < |f.code|
    ensures Evidence(f, env, Rejection(ip, VisitLimit))
  {
  }

  lemma NothingVisited(f: Function, env: Env, table: Table, worklist: seq<Item>)
    requires WellFormed(f, env) && |table| == |f.code| && forall ip :: 0 <= ip < |table| ==> table[ip].None?
    ensures PassedOn(f, env, table, worklist) && TablePeak(f, env, table, 0)
  {
  }

  lemma PushedJustified(f: Function, env: Env, rest: seq<Item>, ip: nat, fact: Fact)
    requires WellFormed(f, env) && ItemsJustified(f, env, rest) && ip < |f.code| && Justified(f, env, ip, fact)
    requires fact.depth >= Required(f.code[ip], env)
    ensures ItemsJustified(f, env, rest + Pushes(f, env, ip, fact))
    ensures |Pushes(f, env, ip, fact)| <= 2
  {
    var pushes := Pushes(f, env, ip, fact);
    PushesAreSuccessors(f, env, ip, fact);
    forall i | 0 <= i < |pushes|
      ensures pushes[i].ip < |f.code| && Justified(f, env, pushes[i].ip, pushes[i].fact)
    {
      assert pushes[i] in pushes;
      SuccessorJustified(f, env, ip, fact, pushes[i].ip);
    }
  }

  /** The state of the analysis: everything recorded and everything still to be visited is justified by paths,
      every recorded fact runs and has been passed on, and the peak is that of the table. */
  ghost predicate Analysed(f: Function, env: Env, states: Table, arrivals: seq<Item>, peak: nat) {
    && WellFormed(f, env) && |states| == |f.code| && peak <= MAX_OPERAND_STACK
    && TableJustified(f, env, states) && ItemsJustified(f, env, arrivals) && TableRuns(f, env, states)
    && PassedOn(f, env, states, arrivals) && Pending(states, arrivals, 0, Fact(0, Parameters(f.arity)))
    && TablePeak(f, env, states, peak)
  }

  lemma AnalysisStarts(f: Function, env: Env, states: Table)
    requires WellFormed(f, env) && states == seq(|f.code|, _ => None)
    ensures Analysed(f, env, states, [Item(0, Fact(0, Parameters(f.arity)))], 0)
    ensures TotalRoom(states, f.localCount) == |f.code| * (f.localCount + 1)
  {
    EntryJustified(f, env);
    UnvisitedRoom(|f.code|, f.localCount);
    NothingVisited(f, env, states, [Item(0, Fact(0, Parameters(f.arity)))]);
  }

  /** What is known of the arrival that is taken off the worklist, and of its join with the table. */
  lemma NextArrival(f: Function, env: Env, states: Table, left: seq<Item>, item: Item, peak: nat)
    requires Analysed(f, env, states, left + [item], peak)
    ensures item.ip < |f.code| == |states| && Justified(f, env, item.ip, item.fact)
    ensures states[item.ip].Some? ==> Justified(f, env, item.ip, states[item.ip].value)
    ensures states[item.ip].Some? && states[item.ip].value.depth == item.fact.depth ==>
      Justified(f, env, item.ip, Fact(item.fact.depth, states[item.ip].value.locals * item.fact.locals))
  {
    hide Justified;
    assert (left + [item])[|left|] == item;
    if states[item.ip].Some? && states[item.ip].value.depth == item.fact.depth {
      MergeJustified(f, env, item.ip, states[item.ip].value, item.fact);
    }
  }

  lemma VisitSkipped(f: Function, env: Env, states: Table, left: seq<Item>, item: Item, peak: nat)
    requires Analysed(f, env, states, left + [item], peak) && item.ip < |states| && Absorbs(states[item.ip], item.fact)
    ensures Analysed(f, env, states, left, peak)
  {
    hide Justified, PassedOn, TablePeak;
    SkippedVisit(f, env, states, left, item);
    assert ItemsJustified(f, env, left) by {
      assert forall i :: 0 <= i < |left| ==> left[i] == (left + [item])[i];
    }
  }

  lemma VisitRecorded(f: Function, env: Env, states: Table, left: seq<Item>, item: Item, peak: nat, fact: Fact)
    requires Analysed(f, env, states, left + [item], peak) && item.ip < |states| && Justified(f, env, item.ip, fact)
    requires fact.depth == item.fact.depth && fact.locals <= item.fact.locals
    requires states[item.ip].Some? ==> fact.depth == states[item.ip].value.depth && fact.locals < states[item.ip].value.locals
    requires Runs(f.code[item.ip], env, fact.depth, fact.locals)
    ensures var next := NextDepth(f.code[item.ip], env, fact.depth);
      next >= 0 &&
      Analysed(f, env, states[item.ip := Some(fact)], left + Pushes(f, env, item.ip, fact), Max(peak, next))
    ensures TotalRoom(states[item.ip := Some(fact)], f.localCount) < TotalRoom(states, f.localCount)
    ensures |Pushes(f, env, item.ip, fact)| <= 2
  {
    hide Justified, PassedOn, TablePeak, TotalRoom, Pushes, NextDepth, Required;
    RecordedVisit(f, env, states, left, item, fact);
    RoomShrinks(f, env, states, item.ip, fact);
    assert ItemsJustified(f, env, left) by {
      assert forall i :: 0 <= i < |left| ==> left[i] == (left + [item])[i];
    }
    PushedJustified(f, env, left, item.ip, fact);
    PeakRecorded(f, env, states, peak, item.ip, fact);
  }

  lemma AnalysisEnds(f: Function, env: Env, states: Table, peak: nat)
    requires Analysed(f, env, states, [], peak)
    ensures Exact(f, env, states) && Safe(f, env) && PeakDepth(f, env, peak)
  {
    FixpointExact(f, env, states);
    PeakOfTable(f, env, states, peak);
  }

  /** Accepts exactly the functions all of whose paths are safe, as long as the visit budget lasts;
      the budget lasts for `VisitBound` visits. `states` is what the final table stands for. */
  method ValidateFunction(f: Function, env: Env, visits: nat)
    returns (r: Result<nat, Rejection>, visitsRemaining: nat, ghost states: Table)
    requires WellFormed(f, env)
    ensures visitsRemaining <= visits && visits - visitsRemaining <= VisitBound(f)
    ensures r.Ok? ==> Safe(f, env) && PeakDepth(f, env, r.value) && Exact(f, env, states)
    ensures r.Ok? ==> r.value <= MAX_OPERAND_STACK
    ensures r.Err? && r.error.reason != VisitLimit ==> !Safe(f, env)
    ensures r.Err? && r.error.reason == VisitLimit ==> visitsRemaining == 0 && visits < VisitBound(f)
    ensures r.Err? ==> Evidence(f, env, r.error)
  {
    hide Evidence, Justified, NextDepth, Required, Exact, Safe, PeakDepth, Analysed, TotalRoom, Slots, Intersection, Check, Pushes,
      Runs, Arrivals, Meanings;
    var table: WordTable := seq(|f.code|, _ => None);
    var parameters := FirstSlots(f.arity);
    var worklist := [WordItem(0, WordFact(0, parameters))];
    var maxStack: nat := 0;
    visitsRemaining := visits;
    states := Meanings(table);
    ghost var arrivals := Arrivals(worklist);
    NothingRecorded(|f.code|, f.arity, parameters);
    AnalysisStarts(f, env, states);
    while worklist != []
      invariant |table| == |f.code| && visitsRemaining <= visits && maxStack <= MAX_OPERAND_STACK
      invariant states == Meanings(table) && arrivals == Arrivals(worklist) && Analysed(f, env, states, arrivals, maxStack)
      invariant visits - visitsRemaining + |worklist| + 2 * TotalRoom(states, f.localCount) <= VisitBound(f)
      decreases visitsRemaining, |worklist|
    {
      var item := worklist[|worklist| - 1];
      var rest := worklist[..|worklist| - 1];
      ghost var left, arrival := Arrivals(rest), Item(item.ip, Meaning(item.fact));
      LastArrival(worklist);
      NextArrival(f, env, states, left, arrival, maxStack);
      var ip, merged := item.ip, item.fact;
      MeaningsAt(table, ip, merged);
      if visitsRemaining == 0 {
        OutOfVisits(f, env, ip);
        return Err(Rejection(ip, VisitLimit)), visitsRemaining, states;
      }
      visitsRemaining := visitsRemaining - 1;
      if table[ip].Some? {
        var known := table[ip].value;
        if known.depth != item.fact.depth {
          DisagreeingJoin(f, env, ip, Meaning(known), arrival.fact);
          return Err(Rejection(ip, JoinDepth)), visitsRemaining, states;
        }
        merged := WordFact(item.fact.depth, Intersection(known.locals, item.fact.locals));
        MergedMeaning(known, item.fact);
        if merged == known {
          VisitSkipped(f, env, states, left, arrival, maxStack);
          worklist, arrivals := rest, left;
          continue;
        }
      }
      ghost var fact := Meaning(merged);
      var reason := CheckWords(f, env, ip, merged);
      if reason.Some? {
        RejectedPath(f, env, ip, fact);
        return Err(Rejection(ip, reason.value)), visitsRemaining, states;
      }
      VisitRecorded(f, env, states, left, arrival, maxStack, fact);
      maxStack := Max(maxStack, NextDepth(f.code[ip], env, merged.depth));
      MeaningsAt(table, ip, merged);
      ArrivalsJoin(rest, WordPushes(f, env, ip, merged));
      table, states := table[ip := Some(merged)], states[ip := Some(fact)];
      worklist, arrivals := rest + WordPushes(f, env, ip, merged), left + Pushes(f, env, ip, fact);
    }
    AnalysisEnds(f, env, states, maxStack);
    r := Ok(maxStack);
  }
}
