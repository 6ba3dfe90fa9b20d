/** Two runs of small programs, from the events to the groups, in which grouping does
    what it should not (tools/PrintBug/GroupMemory.cpp, lines 162-201, 249-254). */
module GroupingRuns {
  import opened Common
  import opened Events
  import opened Merge
  import opened Recording
  import opened Runs
  import Grouping
  import ArgumentPassing

  type View = Grouping.View

  /** A thread starts with block 0, runs it up to number c, where it calls the function
      of block 1, and stands at the start of that. */
  lemma {:induction false} CallsIn(prog: Program, tid: Tid, events: seq<Event>, c: nat) returns (st: State)
    requires GoodCode(prog) && |prog.bb2ins| == 2 && 0 < c < |prog.bb2ins[0]| && |prog.bb2ins[1]| > 0
    requires DrainEnd(prog, 0, 0) == c && DrainEnd(prog, 1, 0) == 0
    requires |events| >= 2 && events[0] == BasicBlockEvent(tid, 0) && events[1] == BasicBlockEvent(tid, 1)
    ensures Merged(prog, {}, events[..2]) == Some(st)
    ensures st.out == [Normal(tid, StackInfo(0, None, 0), c, (2, Some(0)))]
    ensures st.threads == map[tid := Thread([StackInfo(0, None, c), StackInfo(1, None, 0)],
                                            (1, Some(prog.bb2ins[0][c - 1])), {})]
  {
    hide DrainEnd, GoodBB, Merged;
    var st0 := Starts(prog, events, tid, 0, c);
    st := CallsTo(prog, events, 1, st0, tid, StackInfo(0, None, c), 1);
  }

  // ------------------------------------------------- a deleted group is used

  /** Block 0 calls the function of block 1 with its pointer 0, and then loads through
      the pointer; the function loads through its argument at once. */
  const LOADER := Program(
    [Plainly(NormalInst, true, []), Plainly(CallInst, false, [(Inst, 0)]), Plainly(LoadInst, false, [(Inst, 0)]),
     Plainly(ReturnInst, false, []), Plainly(LoadInst, false, [(PointerArg, 0)]), Plainly(ReturnInst, false, [])],
    [[0, 1, 2, 3], [4, 5]])

  function LoaderEvents(tid: Tid): seq<Event> {
    [BasicBlockEvent(tid, 0), BasicBlockEvent(tid, 1), MemoryEvent(tid, 4, 0, 8), MemoryEvent(tid, 2, 100, 8)]
  }

  function LoaderTrace(tid: Tid): seq<SmallestBlock> {
    [Ordinary(tid, 0, 0, 2, 2, 0, 0), Access(tid, 1, 0, 0, 8, 1, 1), Ordinary(tid, 1, 1, 2, 0, 1, 1),
     Access(tid, 0, 2, 100, 108, 0, 0), Ordinary(tid, 0, 3, 4, 0, 2, 0)]
  }

  lemma {:induction false} LoaderIs()
    ensures GoodCode(LOADER)
    ensures DrainEnd(LOADER, 0, 0) == 2 && DrainEnd(LOADER, 0, 2) == 2 && DrainEnd(LOADER, 0, 3) == 4
    ensures DrainEnd(LOADER, 1, 0) == 0 && DrainEnd(LOADER, 1, 1) == 2
  {
    forall bb | 0 <= bb < |LOADER.bb2ins| ensures GoodBB(LOADER, bb) {
    }
    assert SilentEnd(LOADER, 0, 1) == 1 && SilentEnd(LOADER, 0, 4) == 4 && SilentEnd(LOADER, 1, 2) == 2;
  }

  lemma {:induction false} LoaderReturns(tid: Tid)
    requires GoodCode(LOADER) && DrainEnd(LOADER, 0, 2) == 2 && DrainEnd(LOADER, 1, 1) == 2
    ensures var (f1, f2) := (StackInfo(1, None, 1), StackInfo(0, None, 2));
            && GoodStack(LOADER, [f2] + [f1])
            && Drain(LOADER, tid, [f2] + [f1], NOT_FIRST) ==
               Some(Drained([f2], NOT_FIRST, [Ordinary(tid, 1, 1, 2, 0, 1, 1)]))
  {
    hide DrainEnd, GoodBB, Drain;
    var (b, f1, f2) := (Ordinary(tid, 1, 1, 2, 0, 1, 1), StackInfo(1, None, 1), StackInfo(0, None, 2));
    assert [] + [f2] == [f2] && [b] + [] == [b];
    DrainBefore(LOADER, tid, [], f2, NOT_FIRST, 2);
    DrainReturns(LOADER, tid, [f2], f1, NOT_FIRST, 2, b, Drained([f2], NOT_FIRST, []));
  }

  /** The load in the function, which returns after it. */
  lemma {:induction false} LoaderLoads(tid: Tid) returns (st: State)
    requires GoodCode(LOADER) && DrainEnd(LOADER, 0, 0) == 2 && DrainEnd(LOADER, 0, 2) == 2
    requires DrainEnd(LOADER, 1, 0) == 0 && DrainEnd(LOADER, 1, 1) == 2
    ensures Merged(LOADER, {}, LoaderEvents(tid)[..3]) == Some(st) && st.out == LoaderTrace(tid)[..3]
    ensures st.threads == map[tid := Thread([StackInfo(0, None, 2)], NOT_FIRST, {})]
  {
    hide DrainEnd, GoodBB, Drain, Merged, Next;
    var (e, b) := (LoaderEvents(tid), Ordinary(tid, 1, 1, 2, 0, 1, 1));
    var (f1, f2) := (StackInfo(1, None, 0), StackInfo(0, None, 2));
    assert [f2] + [f1] == [f2, f1];
    var st1 := CallsIn(LOADER, tid, e, 2);
    LoaderReturns(tid);
    NextAccess(LOADER, st1, tid, 4, 0, 8, [f2], f1, (1, Some(1)), Drained([f2], NOT_FIRST, [b]));
    st := More(LOADER, e, 2, st1);
  }

  lemma {:induction false} LoaderMerges(tid: Tid, stale: Option<nat>)
    ensures GoodCode(LOADER) && BlockTrace(LOADER, {}, LoaderEvents(tid), stale) == Some(LoaderTrace(tid))
  {
    LoaderIs();
    hide DrainEnd, GoodBB, Drain, Merged, Next;
    var (e, b) := (LoaderEvents(tid), Ordinary(tid, 0, 3, 4, 0, 2, 0));
    var (f2, f3) := (StackInfo(0, None, 2), StackInfo(0, None, 3));
    assert [] + [f2] == [f2] && [] + [f3] == [f3] && [b] + [] == [b];
    var st := LoaderLoads(tid);
    EmptyDrain(LOADER, tid);
    DrainReturns(LOADER, tid, [], f3, NOT_FIRST, 4, b, Drained([], NOT_FIRST, []));
    NextAccess(LOADER, st, tid, 2, 100, 8, [], f2, NOT_FIRST, Drained([], NOT_FIRST, [b]));
    var st' := More(LOADER, e, 3, st);
    assert e[..4] == e && st'.out == LoaderTrace(tid);
    AllEnded(LOADER, e, st', stale);
  }

  // ------------------------------------------------------------ grouping loads

  predicate Holds(prog: Program, b: SmallestBlock, id: nat, dep: (DepType, nat)) {
    && prog.HasInst(b.bb, b.start) && prog.bb2ins[b.bb][b.start] == id && b.typ == MemoryAccessBlock && |b.addr| == 2
    && b.addr[0] < b.addr[1] && prog.ins[id].ssa == [dep] && Grouping.PointerDep(prog, dep)
  }

  lemma {:induction false} OneOperand(prog: Program, tid: Tid, dep: (DepType, nat))
    requires Grouping.PointerDep(prog, dep)
    ensures Grouping.DepKeys(prog, tid, [dep]) == [Grouping.DepKey(prog, tid, dep)]
    ensures Grouping.ArgKeys(prog, [dep]) == if dep.0 == PointerArg then {dep.1 + |prog.ins|} else {}
  {
    assert [dep][1..] == [];
  }

  /** The view after an instruction with one operand, which has no group yet. */
  function Labelled(prog: Program, v: View, tid: Tid, dep: (DepType, nat), g: int): View {
    v.(max := g, vars := v.vars[Grouping.DepKey(prog, tid, dep) := g], live := v.live + {g},
       labeled := if dep.0 == PointerArg then v.labeled[tid := Grouping.LabeledOf(v, tid) + {dep.1 + |prog.ins|}]
                  else v.labeled)
  }

  lemma {:induction false} FreshOperand(prog: Program, v: View, key: Key, dep: (DepType, nat))
    requires key.1 < |prog.ins| && prog.ins[key.1].ssa == [dep] && Grouping.PointerDep(prog, dep)
    requires key !in v.vars && Grouping.DepKey(prog, key.0, dep) !in v.vars
    ensures Grouping.MergeOperands(prog, v, {}, key) == (Labelled(prog, v, key.0, dep, v.max + 1), v.max + 1)
  {
    OneOperand(prog, key.0, dep);
    var keys := [Grouping.DepKey(prog, key.0, dep)];
    assert Grouping.GroupsOf(v.vars, [key] + keys) == {};
    assert {} + Grouping.GroupsOf(v.vars, [key] + keys) == {};
    assert v.vars - {key} == v.vars;
    assert Grouping.Assign(v.vars, keys, v.max + 1) == v.vars[keys[0] := v.max + 1];
  }

  /** A load from where nothing has been accessed later, through an operand that has
      not been used later. */
  lemma {:induction false} FreshLoad(prog: Program, v: View, b: SmallestBlock, id: nat, dep: (DepType, nat))
    requires Holds(prog, b, id, dep) && b.isFirst == 0
    requires (b.tid, id) !in v.vars && Grouping.DepKey(prog, b.tid, dep) !in v.vars
    requires forall x :: b.addr[0] <= x < b.addr[1] ==> x !in v.owner
    ensures Grouping.Groupable(prog, b)
    ensures Grouping.GroupBlock(prog, v, b) ==
            Some(Grouping.Fill(Labelled(prog, v, b.tid, dep, v.max + 1), b.addr[0], b.addr[1], v.max + 1))
  {
    hide Grouping.MergeOperands, Grouping.Fill;
    FreshOperand(prog, v, (b.tid, id), dep);
    assert Grouping.GroupsIn(v, b.addr[0], b.addr[1]) == {};
    assert b.addr[0] !in v.owner;
  }

  /** Blocks without pointers change no groups. */
  lemma {:induction false} NoPointers(prog: Program, v: View, b: SmallestBlock)
    requires b.typ == NormalBlock && Grouping.Groupable(prog, b) && b.end == b.start + 1
    requires !prog.ins[prog.bb2ins[b.bb][b.start]].isPointer
    ensures Grouping.GroupBlock(prog, v, b) == Some(v)
  {
    hide Grouping.MergeInst;
    var ids := prog.bb2ins[b.bb][b.start..b.end];
    assert ids[..|ids| - 1] == [];
    assert Grouping.GroupInstructions(prog, v, b, []) == Some(v);
  }

  /** Well-formed as the program and the recorded run are, grouping fails: the group of
      the function's first load is merged into that of its caller's pointer, which
      deletes it, and is then given the addresses loaded. */
  lemma {:induction false} DeletedGroupUsed(tid: Tid, stale: Option<nat>)
    ensures var trace := LoaderTrace(tid);
            && GoodCode(LOADER) && BlockTrace(LOADER, {}, LoaderEvents(tid), stale) == Some(trace)
            && Grouping.GroupableTrace(LOADER, trace)
            && (forall j :: 0 <= j < |trace| ==> !Grouping.Rejected(trace[j]))
            && Grouping.GroupTrace(LOADER, trace, 2).Some? && Grouping.GroupTrace(LOADER, trace, 0) == None
  {
    LoaderMerges(tid, stale);
    hide Merge.BlockTrace, GoodCode, Grouping.GroupBlock;
    var trace := LoaderTrace(tid);
    var v := Grouping.NO_GROUPS;
    assert Grouping.GroupTrace(LOADER, trace, 5) == Some(v);
    NoPointers(LOADER, v, trace[4]);
    assert Grouping.GroupTrace(LOADER, trace, 4) == Some(v);
    FreshLoad(LOADER, v, trace[3], 2, (Inst, 0));
    var v1 := Grouping.GroupTrace(LOADER, trace, 3).value;
    NoPointers(LOADER, v1, trace[2]);
    assert Grouping.GroupTrace(LOADER, trace, 2) == Some(v1);
    FirstLoad(tid, v1, trace[1]);
  }

  lemma {:induction false} FirstLoad(tid: Tid, v: View, b: SmallestBlock)
    requires b == LoaderTrace(tid)[1]
    requires v.max == 1 && v.live == {1} && v.labeled == map[] && v.vars == map[(tid, 0) := 1] && Grouping.Live(v)
    requires 0 !in v.owner && (forall x :: 0 <= x < 8 ==> x !in v.owner)
    ensures Grouping.Groupable(LOADER, b) && Grouping.GroupBlock(LOADER, v, b) == None
  {
    hide Grouping.MergeOperands, Grouping.GroupBlock, Grouping.Live, ArgumentPassing.PassingDeletes;
    assert Grouping.GroupsIn(v, 0, 8) == {} && ArgumentPassing.AccessGroups(v, b) == {};
    FirstLoadDeletes(tid, v, b);
    ArgumentPassing.GroupBlockFails(LOADER, v, b);
  }

  lemma {:induction false} FirstLoadDeletes(tid: Tid, v: View, b: SmallestBlock)
    requires b == LoaderTrace(tid)[1]
    requires v.max == 1 && v.live == {1} && v.labeled == map[] && v.vars == map[(tid, 0) := 1]
    ensures ArgumentPassing.PassingDeletes(LOADER, v, {}, (tid, 4), b)
  {
    hide Grouping.MergeOperands, ArgumentPassing.Joined, ArgumentPassing.EndsAt;
    var key: Key := (tid, 4);
    FreshOperand(LOADER, v, key, (PointerArg, 0));
    SortedOne(6);
    var place := ArgumentPassing.Ends(LOADER, b, [6]);
    ArgumentHanded(LOADER, b, 6, (tid, 0));
    var v2 := ArgumentPassing.BeforePassing(LOADER, v, {}, key, b);
    assert v2.vars == map[(tid, 0) := 1, (tid, 6) := 2];
    SamePlace(place, v2.vars, (tid, 6), (tid, 0));
    assert 1 in v2.live;
  }

  lemma {:induction false} SamePlace(place: Key -> ArgumentPassing.Place, vars: map<Key, int>, k: Key, k': Key)
    requires k in vars && k' in vars && place(k) == place(k')
    ensures ArgumentPassing.Joined(place, vars, vars[k], vars[k'])
  {
  }

  lemma {:induction false} ArgumentHanded(prog: Program, b: SmallestBlock, i: nat, k: Key)
    requires ArgumentPassing.Sent(prog, b, i) == ArgumentPassing.At(k) && k != (b.tid, i)
    ensures ArgumentPassing.EndsAt(prog, b, [i], (b.tid, i)) == ArgumentPassing.At(k)
    ensures ArgumentPassing.EndsAt(prog, b, [i], k) == ArgumentPassing.At(k)
  {
    assert [i][1..] == [];
  }

  lemma {:induction false} SortedOne(x: int)
    ensures Grouping.Sorted({x}) == [x]
  {
    assert Smallest({x}) == x;
    assert {x} - {x} == {};
    assert Grouping.Sorted({x}) == [x] + Grouping.Sorted({});
  }

  // ------------------------------------------- swapped arguments are confused

  /** Block 0 calls the function of block 1 with its own two arguments swapped; the
      function loads through the first, the second, and the first again. */
  const SWAPPER := Program(
    [Plainly(CallInst, false, [(PointerArg, 1), (PointerArg, 0)]), Plainly(ReturnInst, false, []),
     Plainly(LoadInst, false, [(PointerArg, 0)]), Plainly(LoadInst, false, [(PointerArg, 1)]),
     Plainly(LoadInst, false, [(PointerArg, 0)]), Plainly(ReturnInst, false, [])],
    [[0, 1], [2, 3, 4, 5]])

  function SwapperEvents(tid: Tid): seq<Event> {
    [BasicBlockEvent(tid, 0), BasicBlockEvent(tid, 1), MemoryEvent(tid, 2, 0, 8), MemoryEvent(tid, 3, 100, 8),
     MemoryEvent(tid, 4, 0, 8)]
  }

  function SwapperTrace(tid: Tid): seq<SmallestBlock> {
    [Ordinary(tid, 0, 0, 1, 2, 0, 0), Access(tid, 1, 0, 0, 8, 1, 0), Access(tid, 1, 1, 100, 108, 0, 0),
     Access(tid, 1, 2, 0, 8, 0, 0), Ordinary(tid, 1, 3, 4, 0, 1, 0), Ordinary(tid, 0, 1, 2, 0, 2, 0)]
  }

  lemma {:induction false} SwapperIs()
    ensures GoodCode(SWAPPER)
    ensures DrainEnd(SWAPPER, 0, 0) == 1 && DrainEnd(SWAPPER, 0, 1) == 2
    ensures DrainEnd(SWAPPER, 1, 0) == 0 && DrainEnd(SWAPPER, 1, 1) == 1 && DrainEnd(SWAPPER, 1, 2) == 2
    ensures DrainEnd(SWAPPER, 1, 3) == 4
  {
    forall bb | 0 <= bb < |SWAPPER.bb2ins| ensures GoodBB(SWAPPER, bb) {
    }
    assert SilentEnd(SWAPPER, 0, 2) == 2 && SilentEnd(SWAPPER, 1, 4) == 4;
  }

  /** The first two loads. */
  lemma {:induction false} SwapperLoads(tid: Tid) returns (st: State)
    requires GoodCode(SWAPPER) && DrainEnd(SWAPPER, 0, 0) == 1 && DrainEnd(SWAPPER, 1, 0) == 0
    requires DrainEnd(SWAPPER, 1, 1) == 1 && DrainEnd(SWAPPER, 1, 2) == 2
    ensures Merged(SWAPPER, {}, SwapperEvents(tid)[..4]) == Some(st) && st.out == SwapperTrace(tid)[..3]
    ensures st.threads == map[tid := Thread([StackInfo(0, None, 1), StackInfo(1, None, 2)], NOT_FIRST, {})]
  {
    hide DrainEnd, GoodBB, Drain, Merged, Next;
    var e := SwapperEvents(tid);
    var (f1, f2) := (StackInfo(1, None, 0), StackInfo(0, None, 1));
    assert [f2] + [f1] == [f2, f1] && [f2] + [f1.(cur := 2)] == [f2, f1.(cur := 2)];
    var st1 := CallsIn(SWAPPER, tid, e, 1);
    DrainBefore(SWAPPER, tid, [f2], f1.(cur := 1), NOT_FIRST, 1);
    NextAccess(SWAPPER, st1, tid, 2, 0, 8, [f2], f1, (1, Some(0)), Drained([f2] + [f1.(cur := 1)], NOT_FIRST, []));
    var st2 := More(SWAPPER, e, 2, st1);
    DrainBefore(SWAPPER, tid, [f2], f1.(cur := 2), NOT_FIRST, 2);
    NextAccess(SWAPPER, st2, tid, 3, 100, 8, [f2], f1.(cur := 1), NOT_FIRST,
               Drained([f2] + [f1.(cur := 2)], NOT_FIRST, []));
    st := More(SWAPPER, e, 3, st2);
  }

  lemma {:induction false} SwapperMerges(tid: Tid, stale: Option<nat>)
    ensures GoodCode(SWAPPER) && BlockTrace(SWAPPER, {}, SwapperEvents(tid), stale) == Some(SwapperTrace(tid))
  {
    SwapperIs();
    hide DrainEnd, GoodBB, Drain, Merged, Next;
    var (e, t) := (SwapperEvents(tid), SwapperTrace(tid));
    var (f1, f2) := (StackInfo(1, None, 0), StackInfo(0, None, 1));
    assert [f2] + [f1.(cur := 2)] == [f2, f1.(cur := 2)] && [] + [f2] == [f2];
    assert [t[5]] + [] == [t[5]] && [t[4]] + [t[5]] == [t[4], t[5]];
    var st := SwapperLoads(tid);
    EmptyDrain(SWAPPER, tid);
    DrainReturns(SWAPPER, tid, [], f2, NOT_FIRST, 2, t[5], Drained([], NOT_FIRST, []));
    DrainReturns(SWAPPER, tid, [f2], f1.(cur := 3), NOT_FIRST, 4, t[4], Drained([], NOT_FIRST, [t[5]]));
    NextAccess(SWAPPER, st, tid, 4, 0, 8, [f2], f1.(cur := 2), NOT_FIRST, Drained([], NOT_FIRST, [t[4], t[5]]));
    var st' := More(SWAPPER, e, 4, st);
    assert e[..5] == e && st'.out == t;
    AllEnded(SWAPPER, e, st', stale);
  }

  lemma {:induction false} SortedTwo(x: int)
    ensures Grouping.Sorted({x, x + 1}) == [x, x + 1]
  {
    var s := {x, x + 1};
    assert Smallest(s) == x;
    assert s - {x} == {x + 1};
    SortedOne(x + 1);
    assert Grouping.Sorted(s) == [x] + Grouping.Sorted({x + 1});
  }

  /** Nothing connects what is loaded through the two arguments, and before the call is
      reached they are in two groups; but arguments of caller and callee share their
      numbers, so that the passing of the first meets the second. */
  lemma {:induction false} SwappedArgumentsMeet(tid: Tid, stale: Option<nat>)
    ensures var trace := SwapperTrace(tid);
            && GoodCode(SWAPPER) && BlockTrace(SWAPPER, {}, SwapperEvents(tid), stale) == Some(trace)
            && Grouping.GroupableTrace(SWAPPER, trace) && !ArgumentPassing.Orderly(SWAPPER, trace[1], [6, 7])
    ensures var (v, v') := (Grouping.GroupTrace(SWAPPER, SwapperTrace(tid), 2),
                            Grouping.GroupTrace(SWAPPER, SwapperTrace(tid), 0));
            && v.Some? && 0 in v.value.owner && 100 in v.value.owner && !Grouping.Same(v.value, 0, 100)
            && v'.Some? && Grouping.Same(v'.value, 0, 100)
  {
    SwapperMerges(tid, stale);
    hide Merge.BlockTrace, GoodCode, Grouping.GroupBlock, ArgumentPassing.Orderly;
    var trace := SwapperTrace(tid);
    var v := SwapperLater(tid);
    SwapLoad(tid, v, trace[1]);
    var v1 := Grouping.GroupTrace(SWAPPER, trace, 1).value;
    NoPointers(SWAPPER, v1, trace[0]);
  }

  /** The groups before the first load is come to. */
  lemma {:induction false} SwapperLater(tid: Tid) returns (v: View)
    ensures Grouping.GroupableTrace(SWAPPER, SwapperTrace(tid))
    ensures Grouping.GroupTrace(SWAPPER, SwapperTrace(tid), 2) == Some(v) && SwapperView(tid, v)
  {
    hide Grouping.GroupBlock, Grouping.Fill;
    var trace := SwapperTrace(tid);
    var v0 := Grouping.NO_GROUPS;
    assert Grouping.GroupTrace(SWAPPER, trace, 6) == Some(v0);
    NoPointers(SWAPPER, v0, trace[5]);
    assert Grouping.GroupTrace(SWAPPER, trace, 5) == Some(v0);
    NoPointers(SWAPPER, v0, trace[4]);
    assert Grouping.GroupTrace(SWAPPER, trace, 4) == Some(v0);
    var v1 := LastLoad(tid, trace[3]);
    assert Grouping.GroupTrace(SWAPPER, trace, 3) == Some(v1);
    v := MiddleLoad(tid, v1, trace[2]);
  }

  lemma {:induction false} LastLoad(tid: Tid, b: SmallestBlock) returns (v: View)
    requires b == SwapperTrace(tid)[3]
    ensures Grouping.Groupable(SWAPPER, b) && Grouping.GroupBlock(SWAPPER, Grouping.NO_GROUPS, b) == Some(v)
    ensures v.max == 1 && v.live == {1} && v.labeled == map[tid := {6}] && v.vars == map[(tid, 6) := 1]
    ensures forall x :: (x in v.owner <==> 0 <= x < 8) && (x in v.owner ==> v.owner[x] == 1)
  {
    hide Grouping.GroupBlock;
    FreshLoad(SWAPPER, Grouping.NO_GROUPS, b, 4, (PointerArg, 0));
    assert Grouping.LabeledOf(Grouping.NO_GROUPS, tid) + {6} == {6};
    v := Grouping.GroupBlock(SWAPPER, Grouping.NO_GROUPS, b).value;
  }

  lemma {:induction false} MiddleLoad(tid: Tid, v: View, b: SmallestBlock) returns (v': View)
    requires b == SwapperTrace(tid)[2]
    requires v.max == 1 && v.live == {1} && v.labeled == map[tid := {6}] && v.vars == map[(tid, 6) := 1]
    requires forall x :: (x in v.owner <==> 0 <= x < 8) && (x in v.owner ==> v.owner[x] == 1)
    ensures Grouping.Groupable(SWAPPER, b) && Grouping.GroupBlock(SWAPPER, v, b) == Some(v') && SwapperView(tid, v')
  {
    hide Grouping.GroupBlock;
    FreshLoad(SWAPPER, v, b, 3, (PointerArg, 1));
    assert Grouping.LabeledOf(v, tid) + {7} == {6, 7};
    v' := Grouping.GroupBlock(SWAPPER, v, b).value;
  }

  ghost predicate SwapperView(tid: Tid, v: View) {
    && v.max == 2 && v.live == {1, 2} && v.labeled == map[tid := {6, 7}]
    && v.vars == map[(tid, 6) := 1, (tid, 7) := 2] && Grouping.Live(v)
    && (forall x :: 0 <= x < 8 ==> x in v.owner && v.owner[x] == 1) && 100 in v.owner && v.owner[100] == 2
  }

  lemma {:induction false} SwapLoad(tid: Tid, v: View, b: SmallestBlock)
    requires b == SwapperTrace(tid)[1] && SwapperView(tid, v)
    ensures Grouping.Groupable(SWAPPER, b) && Grouping.GroupBlock(SWAPPER, v, b).Some?
    ensures Grouping.Same(Grouping.GroupBlock(SWAPPER, v, b).value, 0, 100)
    ensures !ArgumentPassing.Orderly(SWAPPER, b, [6, 7])
  {
    hide Grouping.MergeOperands, Grouping.PassArguments, ArgumentPassing.Orderly;
    assert Grouping.GroupsIn(v, 0, 8) == {1} by { assert 0 in v.owner && v.owner[0] == 1; }
    UsedOperand(SWAPPER, v, (tid, 2), (PointerArg, 0), 1);
    SortedTwo(6);
    var v1 := v.(labeled := v.labeled[tid := {}]);
    assert Grouping.Live(v1);
    SwapPasses(tid, v1, b);
    assert !Grouping.Gap(v, 0, 8);
  }

  /** A load whose address and argument are in one group changes nothing. */
  lemma {:induction false} UsedOperand(prog: Program, v: View, key: Key, dep: (DepType, nat), g: int)
    requires key.1 < |prog.ins| && prog.ins[key.1].ssa == [dep] && dep.0 == PointerArg && g in v.live
    requires key !in v.vars && Grouping.DepKey(prog, key.0, dep) in v.vars
    requires v.vars[Grouping.DepKey(prog, key.0, dep)] == g
    requires key.0 in v.labeled && dep.1 + |prog.ins| in v.labeled[key.0]
    ensures Grouping.MergeOperands(prog, v, {g}, key) == (v, g)
  {
    hide Grouping.DepKeys, Grouping.ArgKeys, Grouping.Merge;
    OneOperand(prog, key.0, dep);
    var keys := [Grouping.DepKey(prog, key.0, dep)];
    assert {g} + Grouping.GroupsOf(v.vars, [key] + keys) == {g};
    MergeOne(v, g);
    assert Grouping.Assign(v.vars - {key}, keys, g) == v.vars;
    assert Grouping.LabeledOf(v, key.0) + {dep.1 + |prog.ins|} == v.labeled[key.0];
    assert v.labeled[key.0 := Grouping.LabeledOf(v, key.0) + {dep.1 + |prog.ins|}] == v.labeled;
  }

  lemma {:induction false} MergeOne(v: View, g: int)
    requires g in v.live
    ensures Grouping.Merge(v, {g}) == (v, g)
  {
    var (v', m) := Grouping.Merge(v, {g});
    assert m == g && v'.vars == v.vars && v'.owner == v.owner && v'.live == v.live;
  }

  lemma {:induction false} SwapPasses(tid: Tid, v: View, b: SmallestBlock)
    requires b == SwapperTrace(tid)[1] && Grouping.Live(v) && v.vars == map[(tid, 6) := 1, (tid, 7) := 2]
    requires 0 in v.owner && v.owner[0] == 1 && 100 in v.owner && v.owner[100] == 2
    ensures var r := Grouping.PassArguments(SWAPPER, b, v, [6, 7]);
            r.Some? && Grouping.Same(r.value, 0, 100) && !ArgumentPassing.Orderly(SWAPPER, b, [6, 7])
  {
    hide Grouping.PassArguments, Grouping.Live, ArgumentPassing.Joined, ArgumentPassing.EndsAt;
    var args := [6, 7];
    SwapEnds(tid, b);
    ArgumentPassing.LosesOnly(SWAPPER, b, v.vars, args);
    ArgumentPassing.PassedGroups(SWAPPER, b, v, args);
    SamePlace(ArgumentPassing.Ends(SWAPPER, b, args), v.vars, (tid, 6), (tid, 7));
    ArgumentPassing.PassedSame(SWAPPER, b, v, args, 0, 100);
  }

  lemma {:induction false} SwapEnds(tid: Tid, b: SmallestBlock)
    requires b == SwapperTrace(tid)[1]
    ensures ArgumentPassing.EndsAt(SWAPPER, b, [6, 7], (tid, 6))
            == ArgumentPassing.EndsAt(SWAPPER, b, [6, 7], (tid, 7))
    ensures !ArgumentPassing.Orderly(SWAPPER, b, [6, 7])
  {
    var args := [6, 7];
    assert args[1..] == [7];
    assert SWAPPER.ins[0].ssa[0] == (PointerArg, 1) && SWAPPER.ins[0].ssa[1] == (PointerArg, 0);
    assert ArgumentPassing.Sent(SWAPPER, b, args[0]) == ArgumentPassing.At((tid, 7));
    assert ArgumentPassing.Sent(SWAPPER, b, args[1]) == ArgumentPassing.At((tid, 6));
  }
}
