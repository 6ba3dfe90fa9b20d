/** Atomic accesses are reported whatever depends on them through memory; and a run, from
    the events to the report, on which an impactful call loses what it depends on
    (tools/PrintBug/ExtractMemoryDependency.cpp, lines 28-40). */
module AtomicRuns {
  import opened Common
  import opened Events
  import opened Executions
  import opened Merge
  import opened Runs
  import opened Losses
  import Atomics
  import Frames
  import Grouping
  import LateKept
  import M = MemoryDependency
  import Numbering
  import PassedCalls
  import Pipeline
  import PostDominator
  import Reasons
  import Slice
  import SliceSound
  import Soundness

  type Context = Slice.Context

  // -------------------------------------------------- atomics are reported

  /** The scan has been given the extracted dependencies of a merged trace. */
  ghost predicate Analysed(env: M.Env, ctx: Context) {
    && M.GoodEnv(env) && env.prog == ctx.prog && ctx.Good() && Numbering.TypedTrace(ctx.prog, ctx.trace)
    && Pipeline.Unmixed(ctx.prog, ctx.trace) && M.Extracted(env, ctx.trace, ctx.memDep)
    && Slice.Framed(ctx.prog, ctx.trace) && Slice.ReturnsMarked(ctx.prog, ctx.trace)
  }

  /** Block j is an atomic access. */
  ghost predicate IsAtomic(ctx: Context, j: nat)
    requires ctx.Good()
  {
    && j < |ctx.trace| && ctx.trace[j].typ == MemoryAccessBlock
    && ctx.prog.ins[ctx.prog.bb2ins[ctx.trace[j].bb][ctx.trace[j].start]].typ == AtomicInst
  }

  /** Nothing uses the value of instruction x, and it calls nothing. */
  ghost predicate ValueUnused(ctx: Context, x: nat) {
    && (forall id: nat, lastBB :: id < |ctx.prog.ins| ==> !Uses(ctx.prog, id, lastBB, x))
    && (forall i :: 0 <= i < |ctx.trace| ==> ctx.trace[i].caller != Some(x))
  }

  lemma {:induction false} AtomicExec(ctx: Context, j: nat) returns (q: nat)
    requires ctx.Good() && IsAtomic(ctx, j)
    ensures q == Base(ctx.prog, ctx.trace, j) < |ctx.E| && ctx.E[q].block == j
    ensures ctx.E[q].id == ctx.prog.bb2ins[ctx.trace[j].bb][ctx.trace[j].start]
  {
    hide Base, Execs;
    q := Base(ctx.prog, ctx.trace, j);
    SliceSound.AccessExec(ctx, j, q);
  }

  /** No execution depends on an atomic access, as far as has been extracted. */
  lemma {:induction false} NothingDepends(env: M.Env, ctx: Context, j: nat, q: nat)
    requires Analysed(env, ctx) && IsAtomic(ctx, j) && q < |ctx.E| && ctx.E[q].block == j
    ensures forall e :: !InDeps(ctx.memDep, e, DynAt(ctx.E, q))
  {
    hide M.Depends, M.Back, Slice.Framed, Slice.ReturnsMarked, Pipeline.Unmixed, Numbering.TypedTrace, DynAt;
    var d := DynAt(ctx.E, q);
    Pipeline.TypedGood(ctx.prog, ctx.trace);
    Pipeline.SameNumber(ctx.prog, ctx.trace, q);
    forall e ensures !InDeps(ctx.memDep, e, d) {
      if InDeps(ctx.memDep, e, d) {
        var i: nat :| i < |ctx.trace| && IsAccess(ctx.trace[i]) && e == M.Back(ctx.prog, ctx.trace, i);
        assert M.ExtractedBlock(env, ctx.trace, i, ctx.memDep);
        var k: nat :| k <= i && IsAccess(ctx.trace[k]) && M.Depends(env, ctx.trace, i, k)
                      && d == M.Back(ctx.prog, ctx.trace, k);
        Atomics.BackInjective(ctx.prog, ctx.trace, k, j);
        NeverSource(env, ctx, i, j);
      }
    }
  }

  lemma {:induction false} NeverSource(env: M.Env, ctx: Context, i: nat, j: nat)
    requires ctx.Good() && M.GoodEnv(env) && env.prog == ctx.prog && FormedTrace(ctx.prog, ctx.trace)
    requires i < |ctx.trace| && IsAtomic(ctx, j)
    ensures !M.Depends(env, ctx.trace, i, j)
  {
    hide M.LastWriter, M.GoodEnv;
  }

  /** Every atomic access whose value is not used is reported, on every trace. */
  lemma {:induction false} AtomicReported(env: M.Env, ctx: Context, j: nat, q: nat)
    requires Analysed(env, ctx) && IsAtomic(ctx, j) && q == Base(ctx.prog, ctx.trace, j)
    requires ValueUnused(ctx, ctx.prog.bb2ins[ctx.trace[j].bb][ctx.trace[j].start])
    ensures q < |ctx.E| && DynAt(ctx.E, q) in Slice.Scanned(ctx, 0).unneeded
  {
    hide Base, Execs, M.Extracted, Slice.Framed, Slice.ReturnsMarked, Pipeline.Unmixed, Numbering.TypedTrace, DynAt,
         Slice.Scanned, Reasons.Owed, Reasons.OwedLate, SliceSound.Exempt, LateKept.HeadOf, LateKept.TakenBy;
    var q' := AtomicExec(ctx, j);
    NothingDepends(env, ctx, j, q);
    LateKept.ReportedExactly(ctx, q);
    var s := Slice.Scanned(ctx, 0);
    NotExempt(ctx, j, q);
    NotOwed(ctx, j, q, s.kept, s.late);
    NotLate(ctx, j, q, s);
  }

  lemma {:induction false} NotExempt(ctx: Context, j: nat, q: nat)
    requires ctx.Good() && IsAtomic(ctx, j) && q < |ctx.E| && ctx.E[q].block == j
    ensures !SliceSound.Exempt(ctx, q) && Reasons.AnAccess(ctx, q)
  {
  }

  lemma {:induction false} NotOwed(ctx: Context, j: nat, q: nat, kept: set<nat>, late: set<Slice.Later>)
    requires ctx.Good() && IsAtomic(ctx, j) && q < |ctx.E| && ctx.E[q].block == j && ValueUnused(ctx, ctx.E[q].id)
    requires forall e :: !InDeps(ctx.memDep, e, DynAt(ctx.E, q))
    ensures !Reasons.Owed(ctx, kept, q) && !Reasons.OwedLate(ctx, late, q)
  {
    hide DynAt, Base, InDeps, Uses;
  }

  lemma {:induction false} NotLate(ctx: Context, j: nat, q: nat, s: Slice.Scan)
    requires ctx.Good() && IsAtomic(ctx, j) && q < |ctx.E| && ctx.E[q].block == j && ValueUnused(ctx, ctx.E[q].id)
    requires (forall e :: !InDeps(ctx.memDep, e, DynAt(ctx.E, q))) && s == Slice.Scanned(ctx, 0)
    requires Slice.Framed(ctx.prog, ctx.trace) && Slice.ReturnsMarked(ctx.prog, ctx.trace)
    ensures !LateKept.HeadOf(ctx, s.late, DynAt(ctx.E, q))
    ensures !LateKept.TakenBy(ctx, s.kept, s.late, DynAt(ctx.E, q))
  {
    hide DynAt, Base, InDeps, Uses, Slice.Framed, Slice.ReturnsMarked, Slice.Scanned, Reasons.Exact, Reasons.Member,
         Reasons.AskedAt, SliceSound.Partition;
    LateKept.ScannedWhole(ctx);
    var d := DynAt(ctx.E, q);
    if LateKept.HeadOf(ctx, s.late, d) {
      var w :| w in s.late && Reasons.Head(ctx, w) && w.dyn == d;
      HeadUsed(ctx, s, w);
      NotExempt(ctx, j, q);
      LateKept.NotTerminator(ctx, s.kept, q);
    }
    if LateKept.TakenBy(ctx, s.kept, s.late, d) {
      var t, k: nat :| t in s.late && Reasons.Head(ctx, t) && LateKept.Takes(ctx, t, k, d)
        && Reasons.AskedAt(ctx, s.kept, s.late, Reasons.Member(ctx, t, k));
      NotAsked(ctx, q, s.kept, s.late, Reasons.Member(ctx, t, k));
    }
  }

  lemma {:induction false} HeadUsed(ctx: Context, s: Slice.Scan, w: Slice.Later)
    requires ctx.Good() && Reasons.Exact(ctx, 0, 0, s) && w in s.late && Reasons.Head(ctx, w)
    ensures Reasons.UsedTerminator(ctx, s.kept, w.dyn, w.bb)
  {
    hide Reasons.LateExact, Reasons.KeysExact, Reasons.DepsExact, Reasons.KeptExact, Reasons.UsedTerminator,
         Reasons.OfHead;
    var t := LateKept.LateOf(ctx, 0, s, w);
  }

  lemma {:induction false} NotAsked(ctx: Context, q: nat, kept: set<nat>, late: set<Slice.Later>, w: Slice.Later)
    requires ctx.Good() && q < |ctx.E| && ValueUnused(ctx, ctx.E[q].id) && w.dyn == DynAt(ctx.E, q)
    requires forall e :: !InDeps(ctx.memDep, e, DynAt(ctx.E, q))
    ensures !Reasons.AskedAt(ctx, kept, late, w)
  {
    Reasons.DynAtKey(ctx.E, q);
    hide DynAt, InDeps, Uses, Slice.BlockIds;
  }

  // --------------------------------------------------------------- a run

  /** A store, an atomic access, a load, all of the same bytes, and a call of `write` with
      what was loaded. */
  const ATOMIC := Program(
    [Info(StoreInst, [], [], []), Info(AtomicInst, [], [], []), Info(LoadInst, [], [], []),
     Info(ExternalCallInst, [(Inst, 2)], [], []), Info(ReturnInst, [], [], [])],
    [[0, 1, 2, 3, 4]])

  function AtomicEvents(tid: Tid): seq<Event> {
    [BasicBlockEvent(tid, 0), MemoryEvent(tid, 0, 16, 8), MemoryEvent(tid, 1, 16, 8), MemoryEvent(tid, 2, 16, 8),
     ReturnEvent(tid, 3, 1)]
  }

  function AtomicTrace(tid: Tid): (trace: seq<SmallestBlock>)
    ensures |trace| == 5
  {
    [Access(tid, 0, 0, 16, 24, 2, 0), Access(tid, 0, 1, 16, 24, 0, 0), Access(tid, 0, 2, 16, 24, 0, 0),
     SmallestBlock(ImpactfulCallBlock, tid, 0, 3, 4, [1], 0, 0, Some(0), None),
     Ordinary(tid, 0, 4, 5, 0, 2, 0)]
  }

  ghost predicate AtomicCode(prog: Program) {
    && GoodCode(prog) && |prog.ins| == 5 && prog.bb2ins == [[0, 1, 2, 3, 4]]
    && DrainEnd(prog, 0, 0) == 0 && DrainEnd(prog, 0, 1) == 1 && DrainEnd(prog, 0, 2) == 2 && DrainEnd(prog, 0, 3) == 3
    && DrainEnd(prog, 0, 4) == 5
    && !AtReturn(prog, 0, 0) && !AtReturn(prog, 0, 1) && !AtReturn(prog, 0, 2) && !AtReturn(prog, 0, 3)
    && AtReturn(prog, 0, 5) && ImpactfulName(prog.ins[3].fun)
  }

  lemma {:induction false} AtomicGood()
    ensures GoodCode(ATOMIC)
  {
    assert GoodBB(ATOMIC, 0);
  }

  lemma {:induction false} AtomicReturns()
    requires GoodCode(ATOMIC)
    ensures !AtReturn(ATOMIC, 0, 0) && !AtReturn(ATOMIC, 0, 1) && !AtReturn(ATOMIC, 0, 2) && !AtReturn(ATOMIC, 0, 3)
    ensures AtReturn(ATOMIC, 0, 5) && ImpactfulName(ATOMIC.ins[3].fun)
  {
    hide GoodCode;
  }

  lemma {:induction false} AtomicIs()
    ensures AtomicCode(ATOMIC)
  {
    hide GoodBB, AtReturn, ImpactfulName;
    AtomicGood();
    AtomicReturns();
    assert SilentEnd(ATOMIC, 0, 5) == 5;
  }

  lemma {:induction false} AtomicTaken(prog: Program, tid: Tid, stale: Option<nat>)
    requires AtomicCode(prog)
    ensures BlockTrace(prog, {}, AtomicEvents(tid), stale) == Some(AtomicTrace(tid))
  {
    hide DrainEnd, GoodBB, Drain, Merged, Next, AtReturn, InfoAt, ImpactfulName, BlockTrace;
    var (e, f) := (AtomicEvents(tid), StackInfo(0, None, 0));
    var st0 := Starts(prog, e, tid, 0, 0);
    var st1 := Touches(prog, e, 1, st0, tid, f, (2, Some(0)), 0, 16, 8);
    var st2 := Touches(prog, e, 2, st1, tid, f.(cur := 1), NOT_FIRST, 1, 16, 8);
    var st3 := Touches(prog, e, 3, st2, tid, f.(cur := 2), NOT_FIRST, 2, 16, 8);
    var st4 := CallsLast(prog, e, 4, st3, tid, f.(cur := 3), 3, 1);
    assert e[..5] == e;
    AllEnded(prog, e, st4, stale);
    assert st4.out == AtomicTrace(tid);
  }

  lemma {:induction false} AtomicMerges(tid: Tid, stale: Option<nat>)
    ensures GoodCode(ATOMIC) && BlockTrace(ATOMIC, {}, AtomicEvents(tid), stale) == Some(AtomicTrace(tid))
  {
    hide GoodBB, BlockTrace, DrainEnd;
    AtomicIs();
    AtomicTaken(ATOMIC, tid, stale);
  }

  /** The load truly depends on the atomic access, but is given the store that the atomic
      access has overwritten. */
  lemma {:induction false} AtomicMissed(env: M.Env, tid: Tid)
    requires M.GoodEnv(env) && env.prog == ATOMIC && FormedTrace(env.prog, AtomicTrace(tid))
    ensures var trace := AtomicTrace(tid);
            && PassedCalls.RealDepends(env, trace, 2, 1) && !M.Depends(env, trace, 2, 1) && M.Depends(env, trace, 2, 0)
  {
    hide M.InGroup;
    var trace := AtomicTrace(tid);
    assert Atomics.TrulyReads(env, trace[2], 16) && PassedCalls.RealWriter(env, trace, 2, 16) == Some(1);
    Atomics.AtomicUnseen(env, trace, 2, 1, 16);
    assert M.LastWriter(env, trace, 1, 16) == Some(0);
    assert M.Reads(env, trace[2], 16) && M.LastWriter(env, trace, 2, 16) == Some(0);
  }

  lemma {:induction false} AtomicTyped(tid: Tid)
    requires GoodTrace(ATOMIC, AtomicTrace(tid))
    ensures Numbering.TypedTrace(ATOMIC, AtomicTrace(tid)) && Pipeline.Unmixed(ATOMIC, AtomicTrace(tid))
  {
    hide Numbering.TypedTrace, IsAccess, M.KeyOf;
    AtomicAllTyped(tid);
    assert forall i :: 0 <= i < 5 ==> !Skipped(ATOMIC, AtomicTrace(tid)[i]);
  }

  lemma {:induction false} AtomicAllTyped(tid: Tid)
    requires GoodTrace(ATOMIC, AtomicTrace(tid))
    ensures Numbering.TypedTrace(ATOMIC, AtomicTrace(tid))
  {
    hide GoodTrace;
  }

  lemma {:induction false} AtomicExecs(prog: Program, trace: seq<SmallestBlock>, tid: Tid)
    requires prog == ATOMIC && trace == AtomicTrace(tid) && GoodTrace(prog, trace)
    ensures Base(prog, trace, 1) == 1 && |Execs(prog, trace)| == 5
    ensures forall i :: 0 <= i < 4 ==> Execs(prog, trace)[i] == Exec(tid, i, i, None)
  {
    AtomicIds(prog, tid);
    assert Base(prog, trace, 0) == 0;
    hide Base, Execs, Ids, AtomicTrace;
    forall i: nat | i < 5 ensures Base(prog, trace, i + 1) == Base(prog, trace, i) + 1 { BaseStep(prog, trace, i); }
    assert Base(prog, trace, 0 + 1) == 1 && Base(prog, trace, 1 + 1) == 2 && Base(prog, trace, 2 + 1) == 3;
    assert Base(prog, trace, 3 + 1) == 4 && Base(prog, trace, 4 + 1) == 5;
    SliceSound.ExecsEnd(prog, trace);
    forall i: nat | i < 4 ensures Execs(prog, trace)[i] == Exec(tid, i, i, None) { ExecOfBlock(prog, trace, i, 0); }
  }

  lemma {:induction false} AtomicIds(prog: Program, tid: Tid)
    requires prog == ATOMIC && GoodTrace(prog, AtomicTrace(tid))
    ensures var t := AtomicTrace(tid);
            && (forall i :: 0 <= i < 5 ==> Ids(prog, t[i]) == [i])
            && (forall i :: 0 <= i < 4 ==> t[i].tid == tid && t[i].lastBB == None)
  {
    var t := AtomicTrace(tid);
    assert Ids(prog, t[0]) == [0] && Ids(prog, t[1]) == [1] && Ids(prog, t[2]) == [2] && Ids(prog, t[3]) == [3];
    assert Ids(prog, t[4]) == [4];
  }

  /** What `write`, executed at position 3, is called with depends on the atomic access at
      position 1, which is reported: the impactful call loses what it truly depends on. */
  lemma {:induction false} AtomicLost(tid: Tid, stale: Option<nat>, env: M.Env, edges: seq<(nat, nat)>, ctx: Context,
                                      unneeded: set<DynamicInst>)
    requires Pipeline.SlicedAs(ATOMIC, AtomicTrace(tid), env, edges, ctx, unneeded)
    ensures GoodCode(ATOMIC) && BlockTrace(ATOMIC, {}, AtomicEvents(tid), stale) == Some(AtomicTrace(tid))
    ensures Loses(env, edges, ctx, unneeded, [3, 2, 1])
  {
    hide GoodCode, BlockTrace, Pipeline.SlicedAs, Loses;
    AtomicMerges(tid, stale);
    AtomicLoses(tid, env, edges, ctx, unneeded);
  }

  lemma {:induction false} AtomicLoses(tid: Tid, env: M.Env, edges: seq<(nat, nat)>, ctx: Context,
                                       unneeded: set<DynamicInst>)
    requires Pipeline.SlicedAs(ATOMIC, AtomicTrace(tid), env, edges, ctx, unneeded)
    ensures Loses(env, edges, ctx, unneeded, [3, 2, 1])
  {
    hide AtomicTrace, Slice.Scanned, Slice.Framed, Slice.ReturnsMarked, M.Extracted, Execs, Base, Numbering.TypedTrace,
         Pipeline.Unmixed, Soundness.Chain;
    AtomicTyped(tid);
    AtomicExecs(ctx.prog, ctx.trace, tid);
    AtomicUnused(ctx, tid);
    AtomicReported(env, ctx, 1, 1);
    AtomicChain(env, edges, ctx, tid);
  }

  lemma {:induction false} AtomicUnused(ctx: Context, tid: Tid)
    requires ctx.Good() && ctx.prog == ATOMIC && ctx.trace == AtomicTrace(tid)
    ensures IsAtomic(ctx, 1) && ctx.prog.bb2ins[ctx.trace[1].bb][ctx.trace[1].start] == 1 && ValueUnused(ctx, 1)
  {
    hide Execs;
  }

  lemma {:induction false} AtomicChain(env: M.Env, edges: seq<(nat, nat)>, ctx: Context, tid: Tid)
    requires Pipeline.Matched(env, ctx) && ctx.prog == ATOMIC && ctx.trace == AtomicTrace(tid)
    ensures Soundness.Chain(ctx, Pipeline.TrueLinks(env, edges, ctx), [3, 2, 1])
  {
    hide Execs, Numbering.TypedTrace, PassedCalls.RealDepends, M.Depends, M.GoodEnv, Frames.FrameDep, Frames.TrueCall,
         Frames.TrueReturn, Frames.TrueBranch, Soundness.Chain;
    AtomicExecs(ctx.prog, ctx.trace, tid);
    Pipeline.TypedGood(ctx.prog, ctx.trace);
    AtomicMissed(env, tid);
    assert Uses(ATOMIC, 3, None, 2);
    assert SsaDep(ctx.prog, ctx.E, 3, 2);
    OneOperand(ctx, tid, 3, 2);
    assert Pipeline.ByteDep(ctx, Pipeline.Real(env, ctx), 2, 1);
    TwoLinks(ctx, Pipeline.TrueLinks(env, edges, ctx), 3, 2, 1);
  }
}
