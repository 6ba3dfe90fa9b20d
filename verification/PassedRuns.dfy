/** Two runs, from the events to the report, on which a call of `free` that the slicer passes
    over hides something: a store from the load that reads it, and the call of a function
    from what the function does (tools/PrintBug/PrintBug.cpp, lines 251-258, 333-337;
    ExtractMemoryDependency.cpp, lines 69-90). */
module PassedRuns {
  import opened Common
  import opened Events
  import opened Executions
  import opened Merge
  import opened Runs
  import opened Losses
  import A = AddressIndexes
  import Atomics
  import Frames
  import Framing
  import Grouping
  import M = MemoryDependency
  import Numbering
  import PassedCalls
  import Pipeline
  import PostDominator
  import Reasons
  import Slice
  import SliceSound
  import Soundness
  import Terminators

  type Context = Slice.Context

  /** A store, a call of `free` with the address, a load from there, and a call of `write`
      with what was loaded. */
  const FREED := Program(
    [Info(StoreInst, [], [], []), Info(ExternalCallInst, [], [], []).(fun := "free"), Info(LoadInst, [], [], []),
     Info(ExternalCallInst, [(Inst, 2)], [], []), Info(ReturnInst, [], [], [])],
    [[0, 1, 2, 3, 4]])

  function FreedEvents(tid: Tid): seq<Event> {
    [BasicBlockEvent(tid, 0), MemoryEvent(tid, 0, 16, 8), ArgumentEvent(tid, 16), ReturnEvent(tid, 1, 2),
     MemoryEvent(tid, 2, 16, 8), ReturnEvent(tid, 3, 1)]
  }

  function FreedTrace(tid: Tid): (trace: seq<SmallestBlock>)
    ensures |trace| == 5
  {
    [Access(tid, 0, 0, 16, 24, 2, 0), SmallestBlock(ExternalCallBlock, tid, 0, 1, 2, [2, 16], 0, 0, Some(0), None),
     Access(tid, 0, 2, 16, 24, 0, 0), SmallestBlock(ImpactfulCallBlock, tid, 0, 3, 4, [1], 0, 0, Some(0), None),
     Ordinary(tid, 0, 4, 5, 0, 2, 0)]
  }

  // -------------------------------------------------------------- the trace

  ghost predicate FreedCode(prog: Program) {
    && GoodCode(prog) && |prog.ins| == 5 && prog.bb2ins == [[0, 1, 2, 3, 4]]
    && DrainEnd(prog, 0, 0) == 0 && DrainEnd(prog, 0, 1) == 1 && DrainEnd(prog, 0, 2) == 2 && DrainEnd(prog, 0, 3) == 3
    && DrainEnd(prog, 0, 4) == 5
    && !AtReturn(prog, 0, 0) && !AtReturn(prog, 0, 1) && !AtReturn(prog, 0, 2) && !AtReturn(prog, 0, 3)
    && AtReturn(prog, 0, 5) && ImpactfulName(prog.ins[3].fun) && !ImpactfulName(prog.ins[1].fun)
  }

  lemma {:induction false} FreedGood()
    ensures GoodCode(FREED)
  {
    assert GoodBB(FREED, 0);
  }

  lemma {:induction false} FreedReturns()
    requires GoodCode(FREED)
    ensures !AtReturn(FREED, 0, 0) && !AtReturn(FREED, 0, 1) && !AtReturn(FREED, 0, 2) && !AtReturn(FREED, 0, 3)
    ensures AtReturn(FREED, 0, 5) && ImpactfulName(FREED.ins[3].fun) && !ImpactfulName(FREED.ins[1].fun)
  {
    hide GoodCode;
    assert "free"[0] == 'f' && "pthread_"[0] == 'p';
  }

  lemma {:induction false} FreedIs()
    ensures FreedCode(FREED)
  {
    hide GoodBB, AtReturn, ImpactfulName;
    FreedGood();
    FreedReturns();
    assert SilentEnd(FREED, 0, 5) == 5;
  }

  lemma {:induction false} FreedTaken(prog: Program, tid: Tid, stale: Option<nat>)
    requires FreedCode(prog)
    ensures BlockTrace(prog, {}, FreedEvents(tid), stale) == Some(FreedTrace(tid))
  {
    hide DrainEnd, GoodBB, Drain, Merged, Next, AtReturn, InfoAt, ImpactfulName, BlockTrace;
    var (e, f) := (FreedEvents(tid), StackInfo(0, None, 0));
    var st0 := Starts(prog, e, tid, 0, 0);
    var st1 := Touches(prog, e, 1, st0, tid, f, (2, Some(0)), 0, 16, 8);
    var st2 := CallsWith(prog, e, 2, st1, tid, f.(cur := 1), 16, 1, 2);
    var st3 := Touches(prog, e, 4, st2, tid, f.(cur := 2), NOT_FIRST, 2, 16, 8);
    var st4 := CallsLast(prog, e, 5, st3, tid, f.(cur := 3), 3, 1);
    assert e[..6] == e;
    AllEnded(prog, e, st4, stale);
    assert st4.out == FreedTrace(tid);
  }

  lemma {:induction false} FreedMerges(tid: Tid, stale: Option<nat>)
    ensures GoodCode(FREED) && BlockTrace(FREED, {}, FreedEvents(tid), stale) == Some(FreedTrace(tid))
  {
    hide GoodBB, BlockTrace, DrainEnd;
    FreedIs();
    FreedTaken(FREED, tid, stale);
  }

  // ------------------------------------------------------------- the groups

  /** The trace can be grouped. */
  lemma {:induction false} FreedGroups(tid: Tid)
    ensures Grouping.GroupableTrace(FREED, FreedTrace(tid)) && Grouping.GroupTrace(FREED, FreedTrace(tid), 0).Some?
  {
    hide Grouping.GroupTrace, Grouping.BlockGrouped, Grouping.Live;
    Grouping.GroupTraceGroups(FREED, FreedTrace(tid), 0);
  }

  /** Whoever is given address 16 reaches all that is stored there. */
  lemma {:induction false} FreedReaches(env: M.Env, tid: Tid)
    requires Pipeline.GroupedAs(FREED, FreedTrace(tid), env)
    ensures forall x :: 16 <= x < 24 ==> M.ArgReaches(env, FreedTrace(tid)[1], 1, x)
  {
    var trace := FreedTrace(tid);
    hide FreedTrace, Grouping.GroupTrace, Grouping.Live, M.InGroup;
    Grouping.GroupTraceGroups(FREED, trace, 0);
    var v := Grouping.GroupTrace(FREED, trace, 0).value;
    assert Grouping.BlockGrouped(v, trace[0]);
    FreedTogether(tid, v);
    forall x | 16 <= x < 24 ensures M.ArgReaches(env, trace[1], 1, x) {
      assert Grouping.Same(v, x, 16);
      FreedArgument(env, tid, v, x);
    }
  }

  lemma {:induction false} FreedTogether(tid: Tid, v: Grouping.View)
    requires Grouping.BlockGrouped(v, FreedTrace(tid)[0])
    ensures forall x :: 16 <= x < 24 ==> Grouping.Same(v, x, 16)
  {
  }

  lemma {:induction false} FreedArgument(env: M.Env, tid: Tid, v: Grouping.View, x: uint64)
    requires M.GoodEnv(env) && M.OneGroupEach(env) && A.OwnerOf(env.owner) == v.owner
    requires 16 in v.owner && x in v.owner && v.owner[x] == v.owner[16] && 16 <= x < 24
    ensures M.ArgReaches(env, FreedTrace(tid)[1], 1, x)
  {
    hide M.InGroup;
  }

  // -------------------------------------------------------- what is hidden

  lemma {:induction false} FreedKinds(tid: Tid)
    requires FormedTrace(FREED, FreedTrace(tid))
    ensures var trace := FreedTrace(tid);
            && (forall i :: 0 <= i < 4 ==> M.InsOf(FREED, trace[i]) == i)
            && Skipped(FREED, trace[1]) && (forall i :: 0 <= i < 5 && i != 1 ==> !Skipped(FREED, trace[i]))
  {
  }

  /** To the dependency pass the load depends on the call of `free`, and that on the store.
      In truth the load depends on the store. */
  lemma {:induction false} FreedHides(env: M.Env, tid: Tid)
    requires env.prog == FREED && M.GoodEnv(env) && FormedTrace(FREED, FreedTrace(tid))
    requires forall x :: 16 <= x < 24 ==> M.ArgReaches(env, FreedTrace(tid)[1], 1, x)
    ensures var trace := FreedTrace(tid);
            && M.Depends(env, trace, 2, 1) && M.Depends(env, trace, 1, 0) && PassedCalls.RealDepends(env, trace, 2, 0)
            && forall i: nat :: i < 5 && M.Depends(env, trace, i, 0) ==> i == 1
  {
    hide M.ArgReaches, Skipped;
    var trace := FreedTrace(tid);
    FreedKinds(tid);
    assert M.ArgReaches(env, trace[1], 1, 16) && M.CallReaches(env, trace[1], 16);
    assert M.LastWriter(env, trace, 1, 16) == Some(0) && M.Reads(env, trace[1], 16);
    assert M.LastWriter(env, trace, 2, 16) == Some(1) && M.Reads(env, trace[2], 16);
    assert PassedCalls.RealWriter(env, trace, 1, 16) == Some(0);
    assert PassedCalls.RealWriter(env, trace, 2, 16) == Some(0);
    forall i: nat | i < 5 && i != 1 ensures !M.Depends(env, trace, i, 0) { FreedUnseen(env, tid, i); }
  }

  lemma {:induction false} FreedNoArgument(env: M.Env, tid: Tid)
    requires env.prog == FREED && M.GoodEnv(env) && FormedTrace(FREED, FreedTrace(tid))
    ensures forall x :: !M.Reads(env, FreedTrace(tid)[3], x)
    ensures forall i :: 0 <= i < 5 && i != 1 ==> !M.SelfEdge(env, FreedTrace(tid)[i])
  {
    hide M.InGroup;
  }

  lemma {:induction false} FreedUnseen(env: M.Env, tid: Tid, i: nat)
    requires env.prog == FREED && M.GoodEnv(env) && FormedTrace(FREED, FreedTrace(tid)) && i < 5 && i != 1
    requires forall x :: 16 <= x < 24 ==> M.ArgReaches(env, FreedTrace(tid)[1], 1, x)
    ensures !M.Depends(env, FreedTrace(tid), i, 0)
  {
    FreedNoArgument(env, tid);
    hide M.ArgReaches;
    var trace := FreedTrace(tid);
    forall x | 16 <= x < 24 ensures M.LastWriter(env, trace, 2, x) == Some(1) {
      assert M.ArgReaches(env, trace[1], 1, x) && M.CallReaches(env, trace[1], x);
    }
  }

  // ------------------------------------------------------------ what is lost

  lemma {:induction false} FreedIds(tid: Tid)
    requires GoodTrace(FREED, FreedTrace(tid))
    ensures var t := FreedTrace(tid);
            Ids(FREED, t[0]) == [0] && Ids(FREED, t[1]) == [] && Ids(FREED, t[2]) == [2] && Ids(FREED, t[3]) == [3]
            && Ids(FREED, t[4]) == [4]
  {
  }

  lemma {:induction false} FreedExecs(prog: Program, trace: seq<SmallestBlock>, tid: Tid)
    requires prog == FREED && trace == FreedTrace(tid) && GoodTrace(prog, trace)
    ensures |Execs(prog, trace)| == 4 && Execs(prog, trace)[0] == Exec(tid, 0, 0, None)
    ensures Execs(prog, trace)[1] == Exec(tid, 2, 2, None) && Execs(prog, trace)[2] == Exec(tid, 3, 3, None)
    ensures Execs(prog, trace)[3] == Exec(tid, 4, 4, None)
  {
    FreedIds(tid);
    assert Base(prog, trace, 0) == 0;
    hide Base, Execs, Ids;
    BaseStep(prog, trace, 0);
    BaseStep(prog, trace, 1);
    BaseStep(prog, trace, 2);
    BaseStep(prog, trace, 3);
    BaseStep(prog, trace, 4);
    SliceSound.ExecsEnd(prog, trace);
    ExecOfBlock(prog, trace, 0, 0);
    ExecOfBlock(prog, trace, 2, 0);
    ExecOfBlock(prog, trace, 3, 0);
    ExecOfBlock(prog, trace, 4, 0);
  }

  lemma {:induction false} BackId(prog: Program, trace: seq<SmallestBlock>, i: nat)
    requires FormedTrace(prog, trace) && i < |trace| && IsAccess(trace[i])
    ensures M.Back(prog, trace, i).id == M.InsOf(prog, trace[i])
  {
  }

  /** No execution the scan looks at depends on the store, as far as has been extracted. */
  lemma {:induction false} FreedUnasked(env: M.Env, trace: seq<SmallestBlock>, memDep: DepMap, e: DynamicInst,
                                        d: DynamicInst)
    requires M.GoodEnv(env) && FormedTrace(env.prog, trace) && M.Extracted(env, trace, memDep) && e.id != 1
    requires |trace| == 5 && IsAccess(trace[0]) && IsAccess(trace[1]) && M.InsOf(env.prog, trace[1]) == 1
    requires forall i: nat :: i < 5 && M.Depends(env, trace, i, 0) ==> i == 1
    requires M.Back(env.prog, trace, 0) == d
    ensures !InDeps(memDep, e, d)
  {
    hide M.Depends, FormedTrace, M.Back, M.InsOf;
    if InDeps(memDep, e, d) {
      var i: nat :| i < |trace| && IsAccess(trace[i]) && e == M.Back(env.prog, trace, i);
      assert M.ExtractedBlock(env, trace, i, memDep);
      var k: nat :| k <= i && IsAccess(trace[k]) && M.Depends(env, trace, i, k) && d == M.Back(env.prog, trace, k);
      Atomics.BackInjective(env.prog, trace, k, 0);
      BackId(env.prog, trace, i);
    }
  }

  lemma {:induction false} FreedUses(tid: Tid)
    ensures |FREED.ins| == 5 && forall id: nat, lastBB :: id < 5 ==> !Uses(FREED, id, lastBB, 0)
    ensures forall id: nat :: id < 5 ==> FREED.ins[id].typ != TerminatorInst
    ensures FREED.ins[0].typ == StoreInst && Uses(FREED, 3, None, 2)
  {
  }

  lemma {:induction false} FreedNotOwed(ctx: Context, tid: Tid, kept: set<nat>)
    requires ctx.Good() && ctx.prog == FREED && ctx.trace == FreedTrace(tid)
    requires |ctx.E| == 4 && ctx.E[0] == Exec(tid, 0, 0, None)
    requires forall m: nat :: m < 4 ==> !InDeps(ctx.memDep, DynAt(ctx.E, m), DynAt(ctx.E, 0))
    ensures !Reasons.Owed(ctx, kept, 0)
  {
    FreedUses(tid);
    hide DynAt, Base, InDeps, Uses, Execs;
  }

  /** What `write`, executed at position 2, is called with was loaded at position 1 from where
      the execution at position 0 has stored it; and that is reported. */
  lemma {:induction false} FreedLost(tid: Tid, stale: Option<nat>, env: M.Env, edges: seq<(nat, nat)>, ctx: Context,
                                     unneeded: set<DynamicInst>)
    requires Pipeline.GroupedAs(FREED, FreedTrace(tid), env)
    requires Pipeline.SlicedAs(FREED, FreedTrace(tid), env, edges, ctx, unneeded)
    ensures GoodCode(FREED) && BlockTrace(FREED, {}, FreedEvents(tid), stale) == Some(FreedTrace(tid))
    ensures Grouping.GroupableTrace(FREED, FreedTrace(tid)) && Grouping.GroupTrace(FREED, FreedTrace(tid), 0).Some?
    ensures M.GoodEnv(env) && ctx.Good() && FormedTrace(env.prog, ctx.trace)
    ensures M.Depends(env, ctx.trace, 2, 1) && M.Depends(env, ctx.trace, 1, 0)
    ensures Loses(env, edges, ctx, unneeded, [2, 1, 0])
  {
    hide GoodCode, BlockTrace, FreedTrace, Pipeline.GroupedAs, Grouping.GroupableTrace, Grouping.GroupTrace, Loses,
         Slice.Scanned, M.Extracted, M.Depends, Execs;
    FreedMerges(tid, stale);
    FreedGroups(tid);
    FreedReaches(env, tid);
    FreedHides(env, tid);
    FreedLoses(tid, env, edges, ctx, unneeded);
  }

  lemma {:induction false} FreedTyped(tid: Tid)
    requires GoodTrace(FREED, FreedTrace(tid))
    ensures Numbering.TypedTrace(FREED, FreedTrace(tid)) && Pipeline.Unmixed(FREED, FreedTrace(tid))
  {
    hide Numbering.TypedTrace, M.KeyOf;
    FreedAllTyped(tid);
    FreedKeys(tid);
  }

  lemma {:induction false} FreedAllTyped(tid: Tid)
    requires GoodTrace(FREED, FreedTrace(tid))
    ensures Numbering.TypedTrace(FREED, FreedTrace(tid))
  {
    hide GoodTrace;
  }

  lemma {:induction false} FreedKeys(tid: Tid)
    requires FormedTrace(FREED, FreedTrace(tid))
    ensures forall i, j :: 0 <= i < 4 && 0 <= j < 4 && i != j ==>
              M.KeyOf(FREED, FreedTrace(tid)[i]) != M.KeyOf(FREED, FreedTrace(tid)[j])
    ensures !IsAccess(FreedTrace(tid)[4])
  {
  }

  lemma {:induction false} FreedLoses(tid: Tid, env: M.Env, edges: seq<(nat, nat)>, ctx: Context,
                                      unneeded: set<DynamicInst>)
    requires Pipeline.SlicedAs(FREED, FreedTrace(tid), env, edges, ctx, unneeded)
    requires PassedCalls.RealDepends(env, FreedTrace(tid), 2, 0)
    requires forall i: nat :: i < 5 && M.Depends(env, FreedTrace(tid), i, 0) ==> i == 1
    ensures Loses(env, edges, ctx, unneeded, [2, 1, 0])
  {
    hide Slice.Scanned, Slice.Framed, Slice.ReturnsMarked, M.Extracted, Execs, Base, Numbering.TypedTrace,
         Pipeline.Unmixed, M.Depends, PassedCalls.RealDepends, DynAt, Reasons.Owed, M.Back, Soundness.Chain;
    FreedTyped(tid);
    FreedKinds(tid);
    FreedExecs(ctx.prog, ctx.trace, tid);
    Pipeline.SameNumber(FREED, ctx.trace, 0);
    forall m: nat | m < 4 ensures !InDeps(ctx.memDep, DynAt(ctx.E, m), DynAt(ctx.E, 0)) {
      Reasons.DynAtKey(ctx.E, m);
      FreedUnasked(env, ctx.trace, ctx.memDep, DynAt(ctx.E, m), DynAt(ctx.E, 0));
    }
    FreedNotOwed(ctx, tid, Slice.Scanned(ctx, 0).kept);
    FreedUses(tid);
    UnaskedReported(ctx, 0);
    FreedChain(env, edges, ctx, tid);
  }

  lemma {:induction false} FreedChain(env: M.Env, edges: seq<(nat, nat)>, ctx: Context, tid: Tid)
    requires Pipeline.Matched(env, ctx) && ctx.prog == FREED && ctx.trace == FreedTrace(tid)
    requires PassedCalls.RealDepends(env, ctx.trace, 2, 0)
    ensures Soundness.Chain(ctx, Pipeline.TrueLinks(env, edges, ctx), [2, 1, 0])
  {
    hide Execs, Base, Numbering.TypedTrace, PassedCalls.RealDepends, Frames.FrameDep, Frames.TrueCall,
         Frames.TrueReturn, Frames.TrueBranch, Soundness.Chain;
    FreedExecs(ctx.prog, ctx.trace, tid);
    FreedUses(tid);
    assert SsaDep(ctx.prog, ctx.E, 2, 1);
    OneOperand(ctx, tid, 2, 1);
    assert Pipeline.ByteDep(ctx, Pipeline.Real(env, ctx), 1, 0);
    TwoLinks(ctx, Pipeline.TrueLinks(env, edges, ctx), 2, 1, 0);
  }

  // ------------------------------------------ a frame that begins with a passed call

  /** A function calls another, which calls `free` at once, and then `write`. */
  const OPENS := Program(
    [Info(CallInst, [], [], []), Info(ReturnInst, [], [], []), Info(ExternalCallInst, [], [], []).(fun := "free"),
     Info(ExternalCallInst, [], [], []), Info(ReturnInst, [], [], [])],
    [[0, 1], [2, 3, 4]])

  function OpensEvents(tid: Tid): seq<Event> {
    [BasicBlockEvent(tid, 0), BasicBlockEvent(tid, 1), ReturnEvent(tid, 2, 2), ReturnEvent(tid, 3, 1)]
  }

  function OpensTrace(tid: Tid): (trace: seq<SmallestBlock>)
    ensures |trace| == 5
  {
    [Ordinary(tid, 0, 0, 1, 2, 0, 0), SmallestBlock(ExternalCallBlock, tid, 1, 0, 1, [2], 1, 0, Some(0), None),
     SmallestBlock(ImpactfulCallBlock, tid, 1, 1, 2, [1], 0, 0, Some(0), None), Ordinary(tid, 1, 2, 3, 0, 1, 0),
     Ordinary(tid, 0, 1, 2, 0, 2, 0)]
  }

  ghost predicate OpensCode(prog: Program) {
    && GoodCode(prog) && |prog.ins| == 5 && prog.bb2ins == [[0, 1], [2, 3, 4]]
    && DrainEnd(prog, 0, 0) == 1 && DrainEnd(prog, 0, 1) == 2 && DrainEnd(prog, 1, 0) == 0 && DrainEnd(prog, 1, 1) == 1
    && DrainEnd(prog, 1, 2) == 3
    && !AtReturn(prog, 0, 1) && AtReturn(prog, 0, 2) && !AtReturn(prog, 1, 0) && !AtReturn(prog, 1, 1)
    && AtReturn(prog, 1, 3) && InfoAt(prog, 0, 0).typ == CallInst
    && ImpactfulName(prog.ins[3].fun) && !ImpactfulName(prog.ins[2].fun)
  }

  lemma {:induction false} OpensGood()
    ensures GoodCode(OPENS)
  {
    forall bb | 0 <= bb < |OPENS.bb2ins| ensures GoodBB(OPENS, bb) {
    }
  }

  lemma {:induction false} OpensReturns()
    requires GoodCode(OPENS)
    ensures !AtReturn(OPENS, 0, 1) && AtReturn(OPENS, 0, 2) && !AtReturn(OPENS, 1, 0) && !AtReturn(OPENS, 1, 1)
    ensures AtReturn(OPENS, 1, 3) && InfoAt(OPENS, 0, 0).typ == CallInst
    ensures ImpactfulName(OPENS.ins[3].fun) && !ImpactfulName(OPENS.ins[2].fun)
  {
    hide GoodCode;
    assert "free"[0] == 'f' && "pthread_"[0] == 'p';
  }

  lemma {:induction false} OpensIs()
    ensures OpensCode(OPENS)
  {
    hide GoodBB, AtReturn, ImpactfulName;
    OpensGood();
    OpensReturns();
    assert SilentEnd(OPENS, 0, 2) == 2 && SilentEnd(OPENS, 1, 3) == 3;
  }

  /** It enters the other function, which calls `free`. */
  lemma {:induction false} OpensEnters(prog: Program, tid: Tid) returns (st: State)
    requires OpensCode(prog)
    ensures var (f, g) := (StackInfo(0, None, 1), StackInfo(1, None, 1));
            After(prog, OpensEvents(tid), 3, st, tid, Thread([f, g], NOT_FIRST, {})) && st.out == OpensTrace(tid)[..2]
  {
    hide DrainEnd, GoodBB, Drain, Merged, Next, AtReturn, InfoAt, ImpactfulName;
    var (e, f, g) := (OpensEvents(tid), StackInfo(0, None, 1), StackInfo(1, None, 0));
    var g1 := g.(cur := 1);
    var (first: First, free: uint64) := ((1, Some(0)), 2);
    assert [f] + [g1] == [f, g1] && [f, g][1 := g1] == [f, g1] && [free] + Listed({}) == [free];
    var st0 := Starts(prog, e, tid, 0, 1);
    var st1 := CallsTo(prog, e, 1, st0, tid, f, 1);
    DrainBefore(prog, tid, [f], g1, NOT_FIRST, 1);
    st := OneEvent(prog, e, 2, st1, tid, Thread([f, g], first, {}),
                   Effect(Thread([f, g1], NOT_FIRST, {}), [Single(tid, ExternalCallBlock, g, first, [free])]),
                   Drained([f, g1], NOT_FIRST, []));
  }

  lemma {:induction false} OpensTaken(prog: Program, tid: Tid, stale: Option<nat>)
    requires OpensCode(prog)
    ensures BlockTrace(prog, {}, OpensEvents(tid), stale) == Some(OpensTrace(tid))
  {
    hide DrainEnd, GoodBB, Drain, Merged, Next, AtReturn, InfoAt, ImpactfulName, BlockTrace;
    var (e, f, g) := (OpensEvents(tid), StackInfo(0, None, 1), StackInfo(1, None, 1));
    var g2 := g.(cur := 2);
    var write: uint64 := 1;
    assert [f] + [g2] == [f, g2] && [f, g][1 := g2] == [f, g2] && [write] + Listed({}) == [write] && [] + [f] == [f];
    var st := OpensEnters(prog, tid);
    var (b, c) := (Normal(tid, g2, 3, NOT_FIRST).(isLast := 1, caller := Some(0)),
                   Normal(tid, f, 2, NOT_FIRST).(isLast := 2));
    EmptyDrain(prog, tid);
    DrainReturns(prog, tid, [], f, NOT_FIRST, 2, c, Drained([], NOT_FIRST, []));
    DrainReturns(prog, tid, [f], g2, NOT_FIRST, 3, b, Drained([], NOT_FIRST, [c] + []));
    var st3 := OneEvent(prog, e, 3, st, tid, Thread([f, g], NOT_FIRST, {}),
                        Effect(Thread([f, g2], NOT_FIRST, {}),
                               [Single(tid, ImpactfulCallBlock, g, NOT_FIRST, [write])]),
                        Drained([], NOT_FIRST, [b] + ([c] + [])));
    assert e[..4] == e;
    AllEnded(prog, e, st3, stale);
    assert st3.out == OpensTrace(tid);
  }

  lemma {:induction false} OpensMerges(tid: Tid, stale: Option<nat>)
    ensures GoodCode(OPENS) && BlockTrace(OPENS, {}, OpensEvents(tid), stale) == Some(OpensTrace(tid))
  {
    hide GoodBB, BlockTrace, DrainEnd;
    OpensIs();
    OpensTaken(OPENS, tid, stale);
  }

  lemma {:induction false} OpensIds(tid: Tid)
    requires GoodTrace(OPENS, OpensTrace(tid))
    ensures var t := OpensTrace(tid);
            Ids(OPENS, t[0]) == [0] && Ids(OPENS, t[1]) == [] && Ids(OPENS, t[2]) == [3] && Ids(OPENS, t[3]) == [4]
            && Ids(OPENS, t[4]) == [1] && Skipped(OPENS, t[1])
  {
  }

  lemma {:induction false} OpensExecs(prog: Program, trace: seq<SmallestBlock>, tid: Tid)
    requires prog == OPENS && trace == OpensTrace(tid) && GoodTrace(prog, trace)
    ensures Execs(prog, trace) == [Exec(tid, 0, 0, None), Exec(tid, 3, 2, None), Exec(tid, 4, 3, None),
                                   Exec(tid, 1, 4, None)]
    ensures Base(prog, trace, 1) == 1
  {
    OpensIds(tid);
    assert Base(prog, trace, 0) == 0;
    hide Base, Execs, Ids;
    BaseStep(prog, trace, 0);
    BaseStep(prog, trace, 1);
    BaseStep(prog, trace, 2);
    BaseStep(prog, trace, 3);
    BaseStep(prog, trace, 4);
    SliceSound.ExecsEnd(prog, trace);
    ExecOfBlock(prog, trace, 0, 0);
    ExecOfBlock(prog, trace, 2, 0);
    ExecOfBlock(prog, trace, 3, 0);
    ExecOfBlock(prog, trace, 4, 0);
  }

  lemma {:induction false} OpensFrames(tid: Tid)
    ensures Frames.SameFrame(OpensTrace(tid), 1, 2)
  {
    var t := OpensTrace(tid);
    assert t[..0] == [];
    Framing.LevelStep(t, 0, tid);
    Framing.LevelStep(t, 1, tid);
    assert Frames.OpenAt(t, 1, tid) == 1 && Frames.OpenAt(t, 2, tid) == 2;
    hide Framing.Level;
  }

  lemma {:induction false} OpensUses()
    ensures |OPENS.ins| == 5 && forall id: nat, lastBB :: id < 5 ==> !Uses(OPENS, id, lastBB, 0)
    ensures forall id: nat :: id < 5 ==> OPENS.ins[id].typ != TerminatorInst
    ensures OPENS.ins[0].typ == CallInst
  {
  }

  lemma {:induction false} OpensNotOwed(ctx: Context, tid: Tid, kept: set<nat>)
    requires ctx.Good() && ctx.prog == OPENS && ctx.trace == OpensTrace(tid)
    requires |ctx.E| == 4 && ctx.E[0] == Exec(tid, 0, 0, None)
    ensures !Reasons.Owed(ctx, kept, 0)
  {
    OpensUses();
    OpensIds(tid);
    hide DynAt, Base, InDeps, Uses, Execs, Skipped;
  }

  lemma {:induction false} OpensTyped(tid: Tid)
    requires GoodTrace(OPENS, OpensTrace(tid))
    ensures Numbering.TypedTrace(OPENS, OpensTrace(tid))
  {
    hide GoodTrace;
  }

  /** The call at position 0 has opened the frame in which `write` is called at position 1;
      but the scan passes over the first block of that frame, and the call is reported. */
  lemma {:induction false} OpensLost(tid: Tid, stale: Option<nat>, env: M.Env, edges: seq<(nat, nat)>, ctx: Context,
                                     unneeded: set<DynamicInst>)
    requires Pipeline.SlicedAs(OPENS, OpensTrace(tid), env, edges, ctx, unneeded)
    ensures GoodCode(OPENS) && BlockTrace(OPENS, {}, OpensEvents(tid), stale) == Some(OpensTrace(tid))
    ensures Loses(env, edges, ctx, unneeded, [1, 0])
  {
    hide GoodCode, BlockTrace, Slice.Scanned, Slice.Framed, Slice.ReturnsMarked, M.Extracted, Execs, Base,
         Numbering.TypedTrace, Soundness.Chain, Reasons.Owed, OpensTrace, DynAt;
    OpensMerges(tid, stale);
    OpensTyped(tid);
    OpensExecs(ctx.prog, ctx.trace, tid);
    OpensUses();
    OpensNotOwed(ctx, tid, Slice.Scanned(ctx, 0).kept);
    UnaskedReported(ctx, 0);
    OpensChain(env, edges, ctx, tid);
  }

  lemma {:induction false} OpensChain(env: M.Env, edges: seq<(nat, nat)>, ctx: Context, tid: Tid)
    requires Pipeline.Matched(env, ctx) && ctx.prog == OPENS && ctx.trace == OpensTrace(tid)
    ensures Soundness.Chain(ctx, Pipeline.TrueLinks(env, edges, ctx), [1, 0])
  {
    OpensExecs(ctx.prog, ctx.trace, tid);
    OpensFrames(tid);
    hide Execs, Base, Numbering.TypedTrace, Frames.FrameDep, Frames.TrueReturn, Frames.TrueBranch, Soundness.Chain,
         Pipeline.ByteDep, Frames.SameFrame;
    assert Soundness.Calls(ctx, 0, 1);
    assert Frames.TrueCall(ctx, 1, 0);
    OneLink(ctx, Pipeline.TrueLinks(env, edges, ctx), 1, 0);
  }
}
