/** A run, from the events to the report, on which a function that is entered again while it
    is open takes the operand of an impactful call away from its caller's frame
    (tools/PrintBug/PrintBug.cpp, lines 119-130, 284). */
module RecursionRuns {
  import opened Common
  import opened Events
  import opened Executions
  import opened Merge
  import opened Runs
  import opened Losses
  import Frames
  import Framing
  import M = MemoryDependency
  import Numbering
  import Pipeline
  import PostDominator
  import Reasons
  import Slice
  import SliceSound
  import Soundness

  type Context = Slice.Context

  /** A function computes a value, calls, computes another value from the first, and passes
      that to `write`. Another function returns at once. */
  const AGAIN := Program(
    [Info(NormalInst, [], [], []), Info(CallInst, [], [], []), Info(NormalInst, [(Inst, 0)], [], []),
     Info(ExternalCallInst, [(Inst, 2)], [], []), Info(ReturnInst, [], [], []), Info(ReturnInst, [], [], [])],
    [[0, 1, 2, 3, 4], [5]])

  /** The first function calls itself, and then the other one. */
  function AgainEvents(tid: Tid): seq<Event> {
    [BasicBlockEvent(tid, 0), BasicBlockEvent(tid, 0), BasicBlockEvent(tid, 1), ReturnEvent(tid, 3, 1),
     ReturnEvent(tid, 3, 1)]
  }

  function Writing(tid: Tid): SmallestBlock {
    SmallestBlock(ImpactfulCallBlock, tid, 0, 3, 4, [1], 0, 0, Some(0), None)
  }

  function AgainTrace(tid: Tid): (trace: seq<SmallestBlock>)
    ensures |trace| == 9
  {
    [Ordinary(tid, 0, 0, 2, 2, 0, 0), Ordinary(tid, 0, 0, 2, 1, 0, 1), Ordinary(tid, 1, 0, 1, 1, 1, 1),
     Ordinary(tid, 0, 2, 3, 0, 0, 0), Writing(tid), Ordinary(tid, 0, 4, 5, 0, 1, 1),
     Ordinary(tid, 0, 2, 3, 0, 0, 0), Writing(tid), Ordinary(tid, 0, 4, 5, 0, 2, 0)]
  }

  // -------------------------------------------------------------- the trace

  ghost predicate AgainCode(prog: Program) {
    && GoodCode(prog) && |prog.ins| == 6 && prog.bb2ins == [[0, 1, 2, 3, 4], [5]]
    && DrainEnd(prog, 0, 0) == 2 && DrainEnd(prog, 0, 2) == 3 && DrainEnd(prog, 0, 4) == 5 && DrainEnd(prog, 1, 0) == 1
    && !AtReturn(prog, 0, 2) && !AtReturn(prog, 0, 3) && AtReturn(prog, 0, 5) && AtReturn(prog, 1, 1)
    && InfoAt(prog, 0, 1).typ == CallInst && ImpactfulName(prog.ins[3].fun)
  }

  lemma {:induction false} AgainGood()
    ensures GoodCode(AGAIN)
  {
    forall bb | 0 <= bb < |AGAIN.bb2ins| ensures GoodBB(AGAIN, bb) {
    }
  }

  lemma {:induction false} AgainReturns()
    requires GoodCode(AGAIN)
    ensures !AtReturn(AGAIN, 0, 2) && !AtReturn(AGAIN, 0, 3) && AtReturn(AGAIN, 0, 5) && AtReturn(AGAIN, 1, 1)
    ensures InfoAt(AGAIN, 0, 1).typ == CallInst && ImpactfulName(AGAIN.ins[3].fun)
  {
    hide GoodCode;
  }

  lemma {:induction false} AgainIs()
    ensures AgainCode(AGAIN)
  {
    hide GoodBB, AtReturn, ImpactfulName;
    AgainGood();
    AgainReturns();
    assert SilentEnd(AGAIN, 0, 1) == 1 && SilentEnd(AGAIN, 0, 3) == 3 && SilentEnd(AGAIN, 0, 5) == 5;
    assert SilentEnd(AGAIN, 1, 1) == 1;
  }

  /** It calls itself, and its second frame calls the other function and comes back. */
  lemma {:induction false} AgainCalls(prog: Program, tid: Tid) returns (st: State)
    requires AgainCode(prog)
    ensures var (f, g) := (StackInfo(0, None, 2), StackInfo(0, None, 3));
            && After(prog, AgainEvents(tid), 3, st, tid, Thread([f, g], NOT_FIRST, {}))
            && st.out == AgainTrace(tid)[..4]
  {
    hide DrainEnd, GoodBB, Drain, Merged, Next, AtReturn, InfoAt, ImpactfulName;
    var (e, f, h) := (AgainEvents(tid), StackInfo(0, None, 0), StackInfo(1, None, 0));
    var (f2, f3) := (f.(cur := 2), f.(cur := 3));
    var first: First := (1, Some(1));
    var st0 := Starts(prog, e, tid, 0, 2);
    DrainBefore(prog, tid, [f2], f, first, 2);
    assert [f2] + [f] == [f2, f] && [f2] + [f2] == [f2, f2] && [f2] + [f3] == [f2, f3];
    assert [f2, f2] + [h] == [f2, f2, h];
    var st1 := OneEvent(prog, e, 1, st0, tid, Thread([f2], NOT_FIRST, {}), Effect(Thread([f2, f], first, {}), []),
                     Drained([f2, f2], NOT_FIRST, [Normal(tid, f, 2, first)]));
    var (b, c) := (Normal(tid, h, 1, first).(isLast := 1, caller := Some(1)), Normal(tid, f2, 3, NOT_FIRST));
    DrainBefore(prog, tid, [f2], f2, NOT_FIRST, 3);
    DrainReturns(prog, tid, [f2, f2], h, first, 1, b, Drained([f2, f3], NOT_FIRST, [c]));
    st := OneEvent(prog, e, 2, st1, tid, Thread([f2, f2], NOT_FIRST, {}), Effect(Thread([f2, f2, h], first, {}), []),
                Drained([f2, f3], NOT_FIRST, [b] + [c]));
  }

  lemma {:induction false} AgainTaken(prog: Program, tid: Tid, stale: Option<nat>)
    requires AgainCode(prog)
    ensures BlockTrace(prog, {}, AgainEvents(tid), stale) == Some(AgainTrace(tid))
  {
    hide DrainEnd, GoodBB, Drain, Merged, Next, AtReturn, InfoAt, ImpactfulName, BlockTrace;
    var (e, f) := (AgainEvents(tid), StackInfo(0, None, 0));
    var (f2, f3, f4) := (f.(cur := 2), f.(cur := 3), f.(cur := 4));
    var st := AgainCalls(prog, tid);
    var (b, c) := (Normal(tid, f4, 5, NOT_FIRST).(isLast := 1, caller := Some(1)), Normal(tid, f2, 3, NOT_FIRST));
    assert [] + [f2] == [f2] && [] + [f3] == [f3] && [f2] + [f4] == [f2, f4] && [f2, f3][1 := f4] == [f2, f4];
    var fun: uint64 := 1;
    assert [fun] + Listed({}) == [fun];
    DrainBefore(prog, tid, [], f2, NOT_FIRST, 3);
    DrainReturns(prog, tid, [f2], f4, NOT_FIRST, 5, b, Drained([f3], NOT_FIRST, [c]));
    var st1 := OneEvent(prog, e, 3, st, tid, Thread([f2, f3], NOT_FIRST, {}),
                     Effect(Thread([f2, f4], NOT_FIRST, {}), [Single(tid, ImpactfulCallBlock, f3, NOT_FIRST, [1])]),
                     Drained([f3], NOT_FIRST, [b] + [c]));
    var st2 := CallsLast(prog, e, 4, st1, tid, f3, 3, 1);
    assert e[..5] == e;
    AllEnded(prog, e, st2, stale);
    assert st2.out == AgainTrace(tid);
  }

  lemma {:induction false} AgainMerges(tid: Tid, stale: Option<nat>)
    ensures GoodCode(AGAIN) && BlockTrace(AGAIN, {}, AgainEvents(tid), stale) == Some(AgainTrace(tid))
  {
    hide GoodBB, BlockTrace, DrainEnd;
    AgainIs();
    AgainTaken(AGAIN, tid, stale);
  }

  // ------------------------------------------------- executions and frames

  function AgainExecs(tid: Tid): (E: seq<Exec>)
    ensures |E| == 11
  {
    [Exec(tid, 0, 0, None), Exec(tid, 1, 0, None), Exec(tid, 0, 1, None), Exec(tid, 1, 1, None), Exec(tid, 5, 2, None),
     Exec(tid, 2, 3, None), Exec(tid, 3, 4, None), Exec(tid, 4, 5, None), Exec(tid, 2, 6, None), Exec(tid, 3, 7, None),
     Exec(tid, 4, 8, None)]
  }

  lemma {:induction false} AgainIds(tid: Tid)
    requires GoodTrace(AGAIN, AgainTrace(tid))
    ensures var t := AgainTrace(tid);
            && Ids(AGAIN, t[0]) == Ids(AGAIN, t[1]) == [0, 1] && Ids(AGAIN, t[2]) == [5]
            && Ids(AGAIN, t[3]) == Ids(AGAIN, t[6]) == [2] && Ids(AGAIN, t[4]) == Ids(AGAIN, t[7]) == [3]
            && Ids(AGAIN, t[5]) == Ids(AGAIN, t[8]) == [4]
            && forall i :: 0 <= i < 9 ==> t[i].tid == tid && t[i].lastBB == None
  {
  }

  lemma {:induction false} AgainBases(prog: Program, trace: seq<SmallestBlock>, tid: Tid)
    requires prog == AGAIN && trace == AgainTrace(tid) && GoodTrace(prog, trace)
    ensures Base(prog, trace, 0) == 0 && Base(prog, trace, 1) == 2 && Base(prog, trace, 2) == 4
    ensures forall i :: 3 <= i < 9 ==> Base(prog, trace, i) == i + 2
    ensures |Execs(prog, trace)| == 11
  {
    AgainIds(tid);
    assert Base(prog, trace, 0) == 0;
    hide Base, Execs, Ids, AgainTrace;
    forall i: nat | i < 9 ensures Base(prog, trace, i + 1) == Base(prog, trace, i) + if i < 2 then 2 else 1 {
      BaseStep(prog, trace, i);
    }
    assert Base(prog, trace, 0 + 1) == 2 && Base(prog, trace, 1 + 1) == 4 && Base(prog, trace, 2 + 1) == 5;
    assert Base(prog, trace, 3 + 1) == 6 && Base(prog, trace, 4 + 1) == 7 && Base(prog, trace, 5 + 1) == 8;
    assert Base(prog, trace, 6 + 1) == 9 && Base(prog, trace, 7 + 1) == 10 && Base(prog, trace, 8 + 1) == 11;
    SliceSound.ExecsEnd(prog, trace);
  }

  lemma {:induction false} AgainExecuted(prog: Program, trace: seq<SmallestBlock>, tid: Tid)
    requires prog == AGAIN && trace == AgainTrace(tid) && GoodTrace(prog, trace)
    ensures Execs(prog, trace) == AgainExecs(tid)
  {
    AgainIds(tid);
    AgainBases(prog, trace, tid);
    hide Base, Execs, Ids, AgainTrace;
    ExecOfBlock(prog, trace, 0, 0);
    ExecOfBlock(prog, trace, 0, 1);
    ExecOfBlock(prog, trace, 1, 0);
    ExecOfBlock(prog, trace, 1, 1);
    forall i: nat | 2 <= i < 9 ensures Execs(prog, trace)[i + 2] == Exec(tid, Ids(prog, trace[i])[0], i, None) {
      ExecOfBlock(prog, trace, i, 0);
    }
    var E := Execs(prog, trace);
    assert E[2 + 2] == Exec(tid, 5, 2, None) && E[3 + 2] == Exec(tid, 2, 3, None) && E[4 + 2] == Exec(tid, 3, 4, None);
    assert E[5 + 2] == Exec(tid, 4, 5, None) && E[6 + 2] == Exec(tid, 2, 6, None) && E[7 + 2] == Exec(tid, 3, 7, None);
    assert E[8 + 2] == Exec(tid, 4, 8, None);
  }

  /** How many frames are open before each block. */
  lemma {:induction false} AgainOpen(tid: Tid)
    ensures var t := AgainTrace(tid);
            && Frames.OpenAt(t, 0, tid) == 0 && Frames.OpenAt(t, 1, tid) == 1
            && (forall i :: 2 <= i <= 5 ==> Frames.OpenAt(t, i, tid) == 2)
            && Frames.OpenAt(t, 6, tid) == Frames.OpenAt(t, 7, tid) == 1
  {
    var t := AgainTrace(tid);
    assert t[..0] == [];
    forall i: nat | i < 9
      ensures Frames.OpenAt(t, i + 1, tid) == Frames.OpenAt(t, i, tid) + Framing.Net(t[i], tid)
    {
      Framing.LevelStep(t, i, tid);
    }
    hide Framing.Level, Frames.OpenAt;
    assert Frames.OpenAt(t, 0 + 1, tid) == 1 && Frames.OpenAt(t, 1 + 1, tid) == 2 && Frames.OpenAt(t, 2 + 1, tid) == 2;
    assert Frames.OpenAt(t, 3 + 1, tid) == 2 && Frames.OpenAt(t, 4 + 1, tid) == 2 && Frames.OpenAt(t, 5 + 1, tid) == 1;
    assert Frames.OpenAt(t, 6 + 1, tid) == 1;
  }

  lemma {:induction false} AgainFrames(tid: Tid)
    ensures var t := AgainTrace(tid);
            Frames.SameFrame(t, 0, 6) && Frames.SameFrame(t, 6, 7) && !Frames.SameFrame(t, 1, 6)
  {
    AgainOpen(tid);
    hide Frames.OpenAt;
  }

  lemma {:induction false} AgainUses()
    ensures |AGAIN.ins| == 6 && Uses(AGAIN, 2, None, 0) && Uses(AGAIN, 3, None, 2)
    ensures forall id: nat, lastBB :: id < 6 && Uses(AGAIN, id, lastBB, 0) ==> id == 2
    ensures forall id: nat :: id < 6 ==> AGAIN.ins[id].typ != TerminatorInst
    ensures AGAIN.ins[0].typ == NormalInst
  {
  }

  // ------------------------------------------------------------ what is lost

  /** The value the outer frame computed first is asked for by nobody: in the thread, it has
      been computed again before it is used. */
  lemma {:induction false} AgainNotOwed(ctx: Context, tid: Tid, kept: set<nat>)
    requires ctx.Good() && ctx.prog == AGAIN && ctx.trace == AgainTrace(tid) && ctx.E == AgainExecs(tid)
    ensures !Reasons.Owed(ctx, kept, 0)
  {
    hide DynAt, Base, InDeps, Uses, Execs, Skipped, AgainTrace, AgainExecs;
    AgainUses();
    AgainFacts(tid);
    assert ctx.E[2].Key() == (tid, 0);
  }

  lemma {:induction false} AgainFacts(tid: Tid)
    ensures var t := AgainTrace(tid);
            t[0].typ == NormalBlock && forall j :: 0 <= j < 9 && t[j].isFirst == 1 ==> t[j].caller == Some(1)
    ensures var E := AgainExecs(tid);
            && E[0] == Exec(tid, 0, 0, None) && E[2] == Exec(tid, 0, 1, None)
            && forall m :: 0 <= m < 11 ==> E[m].id < 6 && (E[m].id == 2 ==> m > 2)
  {
  }

  /** What the outer `write`, executed at position 9, is called with was computed at position
      8 from the value computed in the same frame at position 0; which is reported. The scan
      takes the value computed in the inner frame, at position 2. */
  lemma {:induction false} AgainLost(tid: Tid, stale: Option<nat>, env: M.Env, edges: seq<(nat, nat)>, ctx: Context,
                                     unneeded: set<DynamicInst>)
    requires Pipeline.SlicedAs(AGAIN, AgainTrace(tid), env, edges, ctx, unneeded)
    ensures GoodCode(AGAIN) && BlockTrace(AGAIN, {}, AgainEvents(tid), stale) == Some(AgainTrace(tid))
    ensures Loses(env, edges, ctx, unneeded, [9, 8, 0])
    ensures ctx.Good() && |ctx.E| == 11 && Frames.FrameDep(ctx, 8, 0) && SsaDep(ctx.prog, ctx.E, 8, 2)
  {
    hide GoodCode, BlockTrace, Slice.Scanned, Slice.Framed, Slice.ReturnsMarked, M.Extracted, Execs, Base,
         Numbering.TypedTrace, Soundness.Chain, Reasons.Owed, AgainTrace, Frames.FrameDep, DynAt;
    AgainMerges(tid, stale);
    AgainTyped(tid);
    AgainExecuted(ctx.prog, ctx.trace, tid);
    AgainUses();
    AgainNotOwed(ctx, tid, Slice.Scanned(ctx, 0).kept);
    UnaskedReported(ctx, 0);
    AgainChain(env, edges, ctx, tid);
  }

  lemma {:induction false} AgainTyped(tid: Tid)
    requires GoodTrace(AGAIN, AgainTrace(tid))
    ensures Numbering.TypedTrace(AGAIN, AgainTrace(tid))
  {
    hide GoodTrace;
  }

  lemma {:induction false} AgainDeps(ctx: Context, tid: Tid)
    requires ctx.Good() && ctx.prog == AGAIN && ctx.trace == AgainTrace(tid) && ctx.E == AgainExecs(tid)
    ensures Frames.FrameDep(ctx, 8, 0) && Frames.FrameDep(ctx, 9, 8) && SsaDep(ctx.prog, ctx.E, 8, 2)
  {
    AgainUses();
    AgainFrames(tid);
    hide Uses, Frames.SameFrame, AgainTrace, Execs;
  }

  lemma {:induction false} AgainChain(env: M.Env, edges: seq<(nat, nat)>, ctx: Context, tid: Tid)
    requires Pipeline.Matched(env, ctx) && ctx.prog == AGAIN && ctx.trace == AgainTrace(tid)
    requires ctx.E == AgainExecs(tid)
    ensures Soundness.Chain(ctx, Pipeline.TrueLinks(env, edges, ctx), [9, 8, 0])
    ensures Frames.FrameDep(ctx, 8, 0) && SsaDep(ctx.prog, ctx.E, 8, 2)
  {
    hide Execs, Base, Numbering.TypedTrace, Frames.FrameDep, Frames.TrueCall, Frames.TrueReturn, Frames.TrueBranch,
         Soundness.Chain, Pipeline.ByteDep, SsaDep;
    AgainDeps(ctx, tid);
    TwoLinks(ctx, Pipeline.TrueLinks(env, edges, ctx), 9, 8, 0);
  }
}
