/** The blocks that close a frame may be given a `LastBBID` that belongs to another
    thread, or to no frame at all (tools/PrintBug/MergeTrace.cpp, lines 265-291). They are
    empty, and nothing that comes after the merger looks at it. */
module StaleFrames {
  import opened Common
  import opened Executions
  import opened Slice
  import Events
  import Grouping
  import Merge
  import M = MemoryDependency

  /** The blocks are the same, or both close a frame and differ in `LastBBID` only. */
  predicate Alike(b: SmallestBlock, b': SmallestBlock) {
    || b' == b
    || (b.typ == NormalBlock && b.start == b.end && b.isFirst == 0 && b.isLast > 0 && b' == b.(lastBB := b'.lastBB))
  }

  predicate AllAlike(trace: seq<SmallestBlock>, trace': seq<SmallestBlock>) {
    |trace| == |trace'| && forall i :: 0 <= i < |trace| ==> Alike(trace[i], trace'[i])
  }

  ghost predicate BothAlike(r: Option<seq<SmallestBlock>>, r': Option<seq<SmallestBlock>>) {
    (r.None? <==> r'.None?) && (r.Some? && r'.Some? ==> AllAlike(r.value, r'.value))
  }

  // ----------------------------------------------------------------- merging

  lemma {:induction false} ClosingAlike(prog: Program, st: Merge.State, tid: Tid, stack: seq<Merge.StackInfo>,
                                        stale: Option<nat>, stale': Option<nat>)
    requires Events.GoodCode(prog) && Merge.GoodStack(prog, stack)
    ensures BothAlike(Merge.Closing(prog, st, tid, stack, stale), Merge.Closing(prog, st, tid, stack, stale'))
    decreases |stack|
  {
    hide Events.GoodCode;
    if stack != [] { ClosingAlike(prog, st, tid, stack[..|stack| - 1], stale, stale'); }
  }

  lemma {:induction false} ClosingAllAlike(prog: Program, st: Merge.State, tids: set<Tid>, stale: Option<nat>,
                                           stale': Option<nat>)
    requires Events.GoodCode(prog) && Merge.GoodState(prog, st)
    ensures BothAlike(Merge.ClosingAll(prog, st, tids, stale), Merge.ClosingAll(prog, st, tids, stale'))
    decreases |tids|
  {
    hide Events.GoodCode, Merge.Closing, Merge.GoodStack, Alike;
    if tids != {} {
      var tid := Least(tids);
      GoodStackOf(prog, st, tid);
      ClosingAlike(prog, st, tid, Merge.ThreadOf(st, tid).stack, stale, stale');
      assert |tids - {tid}| < |tids|;
      ClosingAllAlike(prog, st, tids - {tid}, stale, stale');
    } else {
      assert AllAlike([], []);
    }
  }

  lemma {:induction false} GoodStackOf(prog: Program, st: Merge.State, tid: Tid)
    requires Merge.GoodState(prog, st)
    ensures Merge.GoodStack(prog, Merge.ThreadOf(st, tid).stack)
  {
  }

  /** Whatever is read, merging fails or succeeds alike, and the traces are alike. */
  lemma {:induction false} BlockTraceAlike(prog: Program, impactful: set<uint64>, events: seq<Events.Event>,
                                           stale: Option<nat>, stale': Option<nat>)
    requires Events.GoodCode(prog)
    ensures BothAlike(Merge.BlockTrace(prog, impactful, events, stale),
                      Merge.BlockTrace(prog, impactful, events, stale'))
  {
    hide Events.GoodCode, Merge.ClosingAll, Merge.Merged;
    if Merge.Merged(prog, impactful, events).Some? {
      var st := Merge.Merged(prog, impactful, events).value;
      ClosingAllAlike(prog, st, Merge.OpenThreads(st), stale, stale');
    }
  }

  // ---------------------------------------------------- groups, dependencies

  lemma {:induction false} GroupTraceAlike(prog: Program, trace: seq<SmallestBlock>, trace': seq<SmallestBlock>,
                                           i: nat)
    requires AllAlike(trace, trace') && Grouping.GroupableTrace(prog, trace) && Grouping.GroupableTrace(prog, trace')
    requires i <= |trace|
    ensures Grouping.GroupTrace(prog, trace, i) == Grouping.GroupTrace(prog, trace', i)
    decreases |trace| - i
  {
    hide Grouping.GroupBlock, Alike;
    if i < |trace| {
      GroupTraceAlike(prog, trace, trace', i + 1);
      var v := Grouping.GroupTrace(prog, trace, i + 1);
      if v.Some? { GroupBlockAlike(prog, v.value, trace[i], trace'[i]); }
    }
  }

  lemma {:induction false} GroupBlockAlike(prog: Program, v: Grouping.View, b: SmallestBlock, b': SmallestBlock)
    requires Alike(b, b') && Grouping.Groupable(prog, b) && Grouping.Groupable(prog, b')
    ensures Grouping.GroupBlock(prog, v, b) == Grouping.GroupBlock(prog, v, b')
  {
    if b' != b { assert prog.bb2ins[b.bb][b.start..b.end] == []; }
  }

  lemma {:induction false} CountAlike(prog: Program, trace: seq<SmallestBlock>, trace': seq<SmallestBlock>, key: Key)
    requires AllAlike(trace, trace') && FormedTrace(prog, trace) && FormedTrace(prog, trace')
    ensures M.Count(prog, trace, key) == M.Count(prog, trace', key)
    decreases |trace|
  {
    if trace != [] {
      var n := |trace| - 1;
      CountAlike(prog, trace[..n], trace'[..n], key);
      assert Alike(trace[n], trace'[n]);
    }
  }

  lemma {:induction false} BackAlike(prog: Program, trace: seq<SmallestBlock>, trace': seq<SmallestBlock>, i: nat)
    requires AllAlike(trace, trace') && FormedTrace(prog, trace) && FormedTrace(prog, trace')
    requires i < |trace| && IsAccess(trace[i])
    ensures trace'[i] == trace[i] && M.Back(prog, trace, i) == M.Back(prog, trace', i)
  {
    assert Alike(trace[i], trace'[i]);
    CountAlike(prog, trace, trace', M.KeyOf(prog, trace[i]));
    CountAlike(prog, trace[..i], trace'[..i], M.KeyOf(prog, trace[i]));
  }

  lemma {:induction false} LastWriterAlike(env: M.Env, trace: seq<SmallestBlock>, trace': seq<SmallestBlock>, i: nat,
                                           x: uint64)
    requires M.GoodEnv(env) && AllAlike(trace, trace') && i <= |trace|
    requires FormedTrace(env.prog, trace) && FormedTrace(env.prog, trace')
    ensures M.LastWriter(env, trace, i, x) == M.LastWriter(env, trace', i, x)
  {
    if i > 0 {
      LastWriterAlike(env, trace, trace', i - 1, x);
      assert Alike(trace[i - 1], trace'[i - 1]);
    }
  }

  lemma {:induction false} DependsAlike(env: M.Env, trace: seq<SmallestBlock>, trace': seq<SmallestBlock>, i: nat,
                                        j: nat)
    requires M.GoodEnv(env) && AllAlike(trace, trace') && i < |trace| && IsAccess(trace[i])
    requires FormedTrace(env.prog, trace) && FormedTrace(env.prog, trace')
    ensures M.Depends(env, trace, i, j) <==> M.Depends(env, trace', i, j)
  {
    hide M.Reads, M.SelfEdge, M.LastWriter;
    assert Alike(trace[i], trace'[i]);
    forall x ensures M.LastWriter(env, trace, i, x) == M.LastWriter(env, trace', i, x) {
      LastWriterAlike(env, trace, trace', i, x);
    }
  }

  lemma {:induction false} ExtractedAlike(env: M.Env, trace: seq<SmallestBlock>, trace': seq<SmallestBlock>,
                                          memDep: DepMap)
    requires M.GoodEnv(env) && AllAlike(trace, trace')
    requires FormedTrace(env.prog, trace) && FormedTrace(env.prog, trace') && M.Extracted(env, trace, memDep)
    ensures M.Extracted(env, trace', memDep)
  {
    hide M.Depends, M.Back;
    forall i | 0 <= i < |trace| ensures IsAccess(trace[i]) <==> IsAccess(trace'[i]) {
      assert Alike(trace[i], trace'[i]);
    }
    forall i: nat | i < |trace| && IsAccess(trace[i])
      ensures M.Back(env.prog, trace, i) == M.Back(env.prog, trace', i)
    {
      BackAlike(env.prog, trace, trace', i);
    }
    forall i: nat | i < |trace| && IsAccess(trace[i]) ensures M.ExtractedBlock(env, trace', i, memDep) {
      assert M.ExtractedBlock(env, trace, i, memDep);
      forall j: nat ensures M.Depends(env, trace, i, j) <==> M.Depends(env, trace', i, j) {
        DependsAlike(env, trace, trace', i, j);
      }
      forall d ensures M.DependsBack(env, trace, i, d) <==> M.DependsBack(env, trace', i, d) {
      }
    }
  }

  // ---------------------------------------------------------------- the slice

  /** The inputs of the scan differ in the blocks that close frames only. */
  ghost predicate ContextsAlike(ctx: Context, ctx': Context) {
    && ctx.Good() && ctx'.Good() && AllAlike(ctx.trace, ctx'.trace)
    && ctx'.prog == ctx.prog && ctx'.memDep == ctx.memDep && ctx'.postDom == ctx.postDom
  }

  lemma {:induction false} WalkedAlike(ctx: Context, ctx': Context, s: Scan, p: nat, dyn: DynamicInst,
                                       lastBB: Option<nat>, bb: nat, k: nat)
    requires ContextsAlike(ctx, ctx')
    ensures Walked(ctx, s, p, dyn, lastBB, bb, k) == Walked(ctx', s, p, dyn, lastBB, bb, k)
    decreases |BlockIds(ctx.prog, bb)| - k
  {
    hide AllAlike, Operands;
    if k < |BlockIds(ctx.prog, bb)| { WalkedAlike(ctx, ctx', s, p, dyn, lastBB, bb, k + 1); }
  }

  lemma {:induction false} TerminatorKeptAlike(ctx: Context, ctx': Context, s: Scan, p: nat, b: SmallestBlock, bb: nat)
    requires ContextsAlike(ctx, ctx')
    ensures TerminatorKept(ctx, s, p, b, bb) == TerminatorKept(ctx', s, p, b, bb)
  {
    hide AllAlike, Walked;
    var t := TopOr(StackOf(s.terminators, b.tid), Terminator(bb, NO_TERMINATOR, true));
    WalkedAlike(ctx, ctx', s, p, t.dyn, b.lastBB, bb, 0);
  }

  lemma {:induction false} PassingAlike(ctx: Context, ctx': Context, s: Scan, p: nat, d: DynamicInst,
                                        lastBB: Option<nat>, isNeeded: bool, report: bool)
    requires ContextsAlike(ctx, ctx')
    ensures Passing(ctx, s, p, d, lastBB, isNeeded, report) == Passing(ctx', s, p, d, lastBB, isNeeded, report)
  {
    hide AllAlike, Operands, Marked;
  }

  lemma {:induction false} NormalDoneAlike(ctx: Context, ctx': Context, s: Scan, b: SmallestBlock, lo: nat, k: nat)
    requires ContextsAlike(ctx, ctx')
    requires b.typ == NormalBlock && GoodProgram(ctx.prog) && GoodBlock(ctx.prog, b) && b.start <= k <= b.end
    ensures NormalDone(ctx, s, b, lo, k) == NormalDone(ctx', s, b, lo, k)
    decreases b.end - k
  {
    hide AllAlike, Passing, Placed;
    if k < b.end {
      NormalDoneAlike(ctx, ctx', s, b, lo, k + 1);
      var s1 := NormalDone(ctx, s, b, lo, k + 1);
      NormalStepAlike(ctx, ctx', s1, b, ctx.prog.bb2ins[b.bb][k], lo + (k - b.start));
    }
  }

  lemma {:induction false} NormalStepAlike(ctx: Context, ctx': Context, s: Scan, b: SmallestBlock, id: nat, p: nat)
    requires ContextsAlike(ctx, ctx') && id < |ctx.prog.ins|
    ensures NormalStep(ctx, s, b, id, p) == NormalStep(ctx', s, b, id, p)
  {
    hide AllAlike, Passing, Placed;
    var d := Numbered(s, b.tid, id);
    var info := ctx.prog.ins[id];
    var isNeeded := NormalNeeded(ctx, s, b, d);
    assert isNeeded == NormalNeeded(ctx', s, b, d);
    var t := Terminator(b.bb, d, isNeeded);
    var s1 := if info.typ == TerminatorInst then s.(terminators := Placed(s.terminators, b.tid, t)) else s;
    PassingAlike(ctx, ctx', s1, p, d, b.lastBB, isNeeded, !(info.typ == TerminatorInst && |info.successors| <= 1));
  }

  lemma {:induction false} LinesAlike(prog: Program, trace: seq<SmallestBlock>, trace': seq<SmallestBlock>)
    requires AllAlike(trace, trace') && GoodTrace(prog, trace) && GoodTrace(prog, trace')
    ensures Lines(prog, trace) == Lines(prog, trace')
  {
    forall i | 0 <= i < |trace| ensures Lines(prog, trace)[i] == Lines(prog, trace')[i] {
      assert Alike(trace[i], trace'[i]);
    }
  }

  lemma {:induction false} AccessDoneAlike(ctx: Context, ctx': Context, s: Scan, b: SmallestBlock, lo: nat)
    requires ContextsAlike(ctx, ctx') && IsAccess(b) && GoodBlock(ctx.prog, b)
    ensures AccessDone(ctx, s, b, lo) == AccessDone(ctx', s, b, lo)
  {
    hide AllAlike, Passing, AccessNeeded, Addressed;
    var d := Numbered(s, b.tid, ctx.prog.bb2ins[b.bb][b.start]);
    PassingAlike(ctx, ctx', s, lo, d, b.lastBB, AccessNeeded(s, b, d), true);
  }

  lemma {:induction false} EnteredAlike(ctx: Context, ctx': Context, s: Scan, p: nat, b: SmallestBlock)
    requires ContextsAlike(ctx, ctx')
    ensures Entered(ctx, s, p, b) == Entered(ctx', s, p, b)
  {
    hide AllAlike, TerminatorKept, Pushed, Placed;
    var next := StackOf(s.nextBB, b.tid);
    if next != [] { TerminatorKeptAlike(ctx, ctx', s, p, b, Top(next).0); }
  }

  lemma {:induction false} LeftAlike(ctx: Context, ctx': Context, s: Scan, p: nat, b: SmallestBlock, used: bool)
    requires ContextsAlike(ctx, ctx')
    ensures Left(ctx, s, p, b, used) == Left(ctx', s, p, b, used)
  {
    hide AllAlike, TerminatorKept, Popped, Noted, CallerNeeded;
    TerminatorKeptAlike(ctx, ctx', CallerNeeded(s.(nextBB := Noted(s.nextBB, b, used)), b), p, b, b.bb);
  }

  /** A block that closes a frame opens it for the scan, and `LastBBID` is not read. */
  lemma {:induction false} ClosingDone(ctx: Context, ctx': Context, s: Scan, i: nat)
    requires ContextsAlike(ctx, ctx') && i < |ctx.trace| && ctx.trace[i] != ctx'.trace[i]
    ensures BlockDone(ctx, s, i) == BlockDone(ctx', s, i)
  {
    hide AllAlike, TerminatorKept, Pushed, Base;
    AlikeAt(ctx.trace, ctx'.trace, i);
    var b := ctx.trace[i];
    var lo := Base(ctx.prog, ctx.trace, i);
    LinesAlike(ctx.prog, ctx.trace, ctx'.trace);
  }

  lemma {:induction false} AlikeAt(trace: seq<SmallestBlock>, trace': seq<SmallestBlock>, i: nat)
    requires AllAlike(trace, trace') && i < |trace|
    ensures i < |trace'| && Alike(trace[i], trace'[i])
  {
  }

  lemma {:induction false} BlockDoneAlike(ctx: Context, ctx': Context, s: Scan, i: nat)
    requires ContextsAlike(ctx, ctx') && i < |ctx.trace| && ctx.trace[i] == ctx'.trace[i]
    ensures BlockDone(ctx, s, i) == BlockDone(ctx', s, i)
  {
    hide AllAlike, NormalDone, AccessDone, Entered, Left, Lines;
    var b := ctx.trace[i];
    LinesAlike(ctx.prog, ctx.trace, ctx'.trace);
    var (lo, hi) := (Base(ctx.prog, ctx.trace, i), Base(ctx.prog, ctx.trace, i + 1));
    if b.typ != DeclareBlock {
      EnteredAlike(ctx, ctx', s, hi, b);
      var s1 := Entered(ctx, s, hi, b);
      if !Skipped(ctx.prog, b) {
        if b.typ == NormalBlock {
          NormalDoneAlike(ctx, ctx', s1, b, lo, b.start);
        } else {
          AccessDoneAlike(ctx, ctx', s1, b, lo);
        }
        var s2 := if b.typ == NormalBlock then NormalDone(ctx, s1, b, lo, b.start) else AccessDone(ctx, s1, b, lo);
        LeftAlike(ctx, ctx', s2, lo, b, KeptWithin(s2.kept, lo, lo + |Ids(ctx.prog, b)|));
      }
    }
  }

  lemma {:induction false} ScannedAlike(ctx: Context, ctx': Context, n: nat)
    requires ContextsAlike(ctx, ctx') && n <= |ctx.trace|
    ensures Scanned(ctx, n) == Scanned(ctx', n)
    decreases |ctx.trace| - n
  {
    hide BlockDone;
    if n < |ctx.trace| {
      ScannedAlike(ctx, ctx', n + 1);
      if ctx.trace[n] == ctx'.trace[n] {
        BlockDoneAlike(ctx, ctx', Scanned(ctx, n + 1), n);
      } else {
        ClosingDone(ctx, ctx', Scanned(ctx, n + 1), n);
      }
    }
  }

  /** The rest of the analysis does not depend on what the merger read there: the groups
      are the same, so are the dependencies, and so is the scan with all it reports. */
  lemma {:induction false} StaleHarmless(impactful: set<uint64>, events: seq<Events.Event>, stale: Option<nat>,
                                         stale': Option<nat>, env: M.Env, ctx: Context, ctx': Context)
    requires Events.GoodCode(ctx.prog) && ctx.Good() && ctx'.Good() && M.GoodEnv(env) && env.prog == ctx.prog
    requires ctx' == ctx.(trace := ctx'.trace, E := ctx'.E)
    requires Merge.BlockTrace(ctx.prog, impactful, events, stale) == Some(ctx.trace)
    requires Merge.BlockTrace(ctx.prog, impactful, events, stale') == Some(ctx'.trace)
    requires Grouping.GroupableTrace(ctx.prog, ctx.trace) && Grouping.GroupableTrace(ctx.prog, ctx'.trace)
    requires FormedTrace(ctx.prog, ctx.trace) && FormedTrace(ctx.prog, ctx'.trace)
    ensures Grouping.GroupTrace(ctx.prog, ctx.trace, 0) == Grouping.GroupTrace(ctx.prog, ctx'.trace, 0)
    ensures M.Extracted(env, ctx.trace, ctx.memDep) ==> M.Extracted(env, ctx'.trace, ctx.memDep)
    ensures Scanned(ctx, 0) == Scanned(ctx', 0)
  {
    hide Events.GoodCode, Merge.BlockTrace, AllAlike, Scanned, M.Extracted, Grouping.GroupTrace;
    BlockTraceAlike(ctx.prog, impactful, events, stale, stale');
    GroupTraceAlike(ctx.prog, ctx.trace, ctx'.trace, 0);
    if M.Extracted(env, ctx.trace, ctx.memDep) { ExtractedAlike(env, ctx.trace, ctx'.trace, ctx.memDep); }
    ScannedAlike(ctx, ctx', 0);
  }
}
