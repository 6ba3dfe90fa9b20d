/** Frames as the marks of the trace tell them. An operand is what its instruction computed
    last in the same frame; the scan takes what it computed last in the thread, which is
    the same unless a deeper frame has executed the instruction in between
    (tools/PrintBug/PrintBug.cpp, lines 119-130, 302, 333-337). */
module Frames {
  import opened Common
  import opened Executions
  import opened Slice
  import opened SliceSound
  import opened Flags
  import opened Terminators
  import opened Reasons
  import opened Soundness
  import Framing
  import PostDominator
  import Visits

  // ------------------------------------------------------------------ frames

  /** How many more frames of a thread have been opened before block i than closed. */
  function OpenAt(trace: seq<SmallestBlock>, i: nat, tid: Tid): int
    requires i <= |trace|
  {
    Framing.Level(trace[..i], tid)
  }

  /** The level of the frame that block z lies in. */
  function LevelOf(trace: seq<SmallestBlock>, z: nat): int
    requires z < |trace|
  {
    OpenAt(trace, z, trace[z].tid) + Framing.One(trace[z].isFirst)
  }

  /** From after block x up to block y, the frame at level l is not closed. */
  ghost predicate StillOpen(trace: seq<SmallestBlock>, x: nat, y: nat, tid: Tid, l: int) {
    y < |trace| && forall z: nat :: x < z <= y ==> OpenAt(trace, z, tid) >= l
  }

  /** Block y lies in the frame of block x, at x or later. */
  ghost predicate SameFrame(trace: seq<SmallestBlock>, x: nat, y: nat) {
    && x <= y < |trace| && trace[x].tid == trace[y].tid && LevelOf(trace, x) == LevelOf(trace, y)
    && StillOpen(trace, x, y, trace[x].tid, LevelOf(trace, x))
  }

  /** A block of the thread in between lies in the frame, or in a deeper one. */
  lemma {:induction false} Between(trace: seq<SmallestBlock>, x: nat, z: nat, y: nat)
    requires SameFrame(trace, x, y) && x <= z <= y && trace[z].tid == trace[x].tid
    ensures LevelOf(trace, z) >= LevelOf(trace, x)
    ensures LevelOf(trace, z) == LevelOf(trace, x) <==> SameFrame(trace, z, y)
    ensures LevelOf(trace, z) == LevelOf(trace, x) <==> SameFrame(trace, x, z)
  {
    hide OpenAt;
  }

  // ---------------------------------------------------------------- operands

  ghost predicate InOneFrame(ctx: Context, q: nat, m: nat) {
    q < |ctx.E| && m < |ctx.E| && SameFrame(ctx.trace, ctx.E[q].block, ctx.E[m].block)
  }

  /** Execution q computed a value that execution m uses: it is the last before m of one of
      its operands, in the same frame. */
  ghost predicate FrameDep(ctx: Context, m: nat, q: nat)
    requires ctx.Good()
  {
    && q < m < |ctx.E| && InOneFrame(ctx, q, m) && Uses(ctx.prog, ctx.E[m].id, ctx.E[m].lastBB, ctx.E[q].id)
    && forall r: nat :: q < r < m && ctx.E[r].Key() == ctx.E[q].Key() ==> !InOneFrame(ctx, r, m)
  }

  /** Execution r lies in a deeper frame than execution q. */
  ghost predicate Deeper(ctx: Context, q: nat, r: nat) {
    && q < |ctx.E| && r < |ctx.E| && ctx.E[q].block < |ctx.trace| && ctx.E[r].block < |ctx.trace|
    && LevelOf(ctx.trace, ctx.E[r].block) > LevelOf(ctx.trace, ctx.E[q].block)
  }

  /** Between q and m, no deeper frame executes the instruction of q. */
  ghost predicate NoneDeeper(ctx: Context, q: nat, m: nat)
    requires q < |ctx.E| && m < |ctx.E|
  {
    forall r: nat :: q < r < m && ctx.E[r].Key() == ctx.E[q].Key() ==>
      !Deeper(ctx, q, r)
  }

  /** Executions stand in the order of their blocks, and are of their blocks' threads. */
  lemma {:induction false} ExecPlaced(ctx: Context, q: nat, m: nat)
    requires ctx.Good() && q <= m < |ctx.E|
    ensures ctx.E[q].block <= ctx.E[m].block < |ctx.trace|
    ensures ctx.E[q].tid == ctx.trace[ctx.E[q].block].tid && ctx.E[m].tid == ctx.trace[ctx.E[m].block].tid
  {
    hide Base, Execs, Ids;
    ExecBlock(ctx, q);
    ExecBlock(ctx, m);
    BlockFrom(ctx, ctx.E[q].block, q);
    BlockFrom(ctx, ctx.E[q].block, m);
  }

  lemma {:induction false} ExecBlock(ctx: Context, q: nat)
    requires ctx.Good() && q < |ctx.E|
    ensures var x := ctx.E[q].block;
            x < |ctx.trace| && Looked(ctx, x) && ctx.E[q].tid == ctx.trace[x].tid
            && ctx.trace[x].bb < |ctx.prog.bb2ins| && ctx.E[q].id in ctx.prog.bb2ins[ctx.trace[x].bb]
  {
    hide Base, Execs;
    BlockOfExec(ctx.prog, ctx.trace, q);
    var x := ctx.E[q].block;
    ExecOfBlock(ctx.prog, ctx.trace, x, q - Base(ctx.prog, ctx.trace, x));
  }

  /** The true operand is the one the scan takes, exactly if no deeper frame executes its
      instruction in between; and what the scan takes is the true one, if it lies in the
      frame at all. */
  lemma {:induction false} OperandExactly(ctx: Context, m: nat, q: nat)
    requires ctx.Good() && q < m < |ctx.E|
    ensures FrameDep(ctx, m, q) && NoneDeeper(ctx, q, m) <==> SsaDep(ctx.prog, ctx.E, m, q) && InOneFrame(ctx, q, m)
  {
    hide Uses, LevelOf, SameFrame;
    ExecPlaced(ctx, q, m);
    if InOneFrame(ctx, q, m) {
      FramesEqual(ctx, q, m);
      forall r: nat | q < r < m && ctx.E[r].Key() == ctx.E[q].Key()
        ensures ctx.E[r].block < |ctx.trace|
        ensures InOneFrame(ctx, r, m) <==> !Deeper(ctx, q, r)
      {
        ExecPlaced(ctx, q, r);
        ExecPlaced(ctx, r, m);
        Between(ctx.trace, ctx.E[q].block, ctx.E[r].block, ctx.E[m].block);
      }
    }
  }

  lemma {:induction false} FramesEqual(ctx: Context, q: nat, m: nat)
    requires ctx.Good() && q < m < |ctx.E| && InOneFrame(ctx, q, m)
    ensures ctx.E[q].tid == ctx.E[m].tid
  {
    hide LevelOf, StillOpen;
    ExecPlaced(ctx, q, m);
  }

  /** No instruction whose value is still to be used is executed in a deeper frame. */
  ghost predicate Unrepeated(ctx: Context)
    requires ctx.Good()
  {
    forall m: nat, q: nat :: FrameDep(ctx, m, q) ==> NoneDeeper(ctx, q, m)
  }

  /** The scan takes the true operands for all executions, exactly under this condition. */
  lemma {:induction false} OperandsExactly(ctx: Context)
    requires ctx.Good()
    ensures Unrepeated(ctx) <==>
              forall m: nat, q: nat :: FrameDep(ctx, m, q) ==> m < |ctx.E| && SsaDep(ctx.prog, ctx.E, m, q)
  {
    hide NoneDeeper, SsaDep, FrameDep;
    forall m: nat, q: nat | FrameDep(ctx, m, q)
      ensures q < m < |ctx.E| && ctx.E[q].block < |ctx.trace|
      ensures (NoneDeeper(ctx, q, m) <==> SsaDep(ctx.prog, ctx.E, m, q))
    {
      DepOrdered(ctx, m, q);
      OperandExactly(ctx, m, q);
    }
  }

  lemma {:induction false} DepOrdered(ctx: Context, m: nat, q: nat)
    requires ctx.Good() && FrameDep(ctx, m, q)
    ensures q < m < |ctx.E| && InOneFrame(ctx, q, m)
  {
    hide Uses, InOneFrame;
  }

  // --------------------------------------------------------------- recursion

  /** No function is entered while a frame of it is open; `fun` tells which function a
      basic block is of. */
  ghost predicate NoRecursion(ctx: Context, fun: nat -> nat) {
    forall x: nat, z: nat :: DeeperIn(ctx.trace, x, z) ==> fun(ctx.trace[z].bb) != fun(ctx.trace[x].bb)
  }

  /** Block z lies in a frame that has been opened while that of block x is open. */
  ghost predicate DeeperIn(trace: seq<SmallestBlock>, x: nat, z: nat) {
    && x < z < |trace| && trace[x].tid == trace[z].tid && StillOpen(trace, x, z, trace[x].tid, LevelOf(trace, x))
    && LevelOf(trace, z) > LevelOf(trace, x)
  }

  /** Every instruction is of one function. */
  ghost predicate InOneFunction(prog: Program, fun: nat -> nat) {
    forall a: nat, b: nat, id: nat ::
      a < |prog.bb2ins| && b < |prog.bb2ins| && id in prog.bb2ins[a] && id in prog.bb2ins[b] ==> fun(a) == fun(b)
  }

  lemma {:induction false} WithoutRecursion(ctx: Context, fun: nat -> nat)
    requires ctx.Good() && NoRecursion(ctx, fun) && InOneFunction(ctx.prog, fun)
    ensures Unrepeated(ctx)
  {
    hide Uses, LevelOf, NoRecursion, InOneFunction;
    forall m: nat, q: nat | FrameDep(ctx, m, q) ensures NoneDeeper(ctx, q, m) {
      ExecPlaced(ctx, q, m);
      forall r: nat | q < r < m && ctx.E[r].Key() == ctx.E[q].Key()
        ensures !Deeper(ctx, q, r)
      {
        DeeperDiffers(ctx, fun, m, q, r);
      }
    }
  }

  lemma {:induction false} DeeperDiffers(ctx: Context, fun: nat -> nat, m: nat, q: nat, r: nat)
    requires ctx.Good() && NoRecursion(ctx, fun) && InOneFunction(ctx.prog, fun) && InOneFrame(ctx, q, m)
    requires q < r < m && ctx.E[r].Key() == ctx.E[q].Key()
    ensures !Deeper(ctx, q, r)
  {
    hide LevelOf, OpenAt, Looked;
    var (x, z) := (ctx.E[q].block, ctx.E[r].block);
    ExecPlaced(ctx, q, r);
    ExecPlaced(ctx, r, m);
    ExecBlock(ctx, q);
    ExecBlock(ctx, r);
    assert fun(ctx.trace[x].bb) == fun(ctx.trace[z].bb);
  }

  // ----------------------------------------------------- calls, returns, branches

  /** Execution m lies in the frame that call q has opened. */
  ghost predicate TrueCall(ctx: Context, m: nat, q: nat)
    requires ctx.Good()
  {
    exists j: nat :: Calls(ctx, q, j) && m < |ctx.E| && SameFrame(ctx.trace, j, ctx.E[m].block)
  }

  /** Execution m uses the value of a call, and p returns from the frame the call opened. */
  ghost predicate TrueReturn(ctx: Context, m: nat, p: nat)
    requires ctx.Good()
  {
    exists q: nat, j: nat :: ReturnsVia(ctx, m, p, q, j)
  }

  ghost predicate ReturnsVia(ctx: Context, m: nat, p: nat, q: nat, j: nat)
    requires ctx.Good()
  {
    && FrameDep(ctx, m, q) && Calls(ctx, q, j) && q < p < m && IsReturn(ctx, p)
    && SameFrame(ctx.trace, j, ctx.E[p].block) && ReturnsTo(ctx, p) == Some(ctx.E[q].Key())
  }

  /** Block j is part of the run of a basic block that comes next in the frame of block i. */
  ghost predicate NextRun(ctx: Context, i: nat, j: nat)
    requires ctx.Good()
  {
    && i < j < |ctx.trace| && Looked(ctx, j) && SameFrame(ctx.trace, i, j)
    && forall z: nat :: i < z <= j && Looked(ctx, z) && SameFrame(ctx.trace, i, z) ==>
         ctx.trace[z].bb == ctx.trace[j].bb
  }

  /** Branch p has let the run of m come next in its frame, where control need not have
      come. */
  ghost predicate TrueBranch(ctx: Context, edges: seq<(nat, nat)>, m: nat, p: nat)
    requires ctx.Good()
  {
    && m < |ctx.E| && IsTerminator(ctx, p) && NextRun(ctx, ctx.E[p].block, ctx.E[m].block)
    && PostDominator.GoesOn(edges, ctx.trace[ctx.E[p].block].bb)
    && !PostDominator.MustMeet(edges, ctx.trace[ctx.E[p].block].bb, ctx.trace[ctx.E[m].block].bb)
  }

  /** The scan passes over no first block of a frame. */
  ghost predicate FirstsLooked(ctx: Context)
    requires ctx.Good()
  {
    forall i :: 0 <= i < |ctx.trace| && ctx.trace[i].isFirst > 0 ==> !Skipped(ctx.prog, ctx.trace[i])
  }

  /** Then the frames the scan sees are those of the trace. */
  lemma {:induction false} LevelsAgree(ctx: Context, z: nat, tid: Tid)
    requires ctx.Good() && FirstsLooked(ctx) && z <= |ctx.trace|
    ensures DepthAt(ctx.prog, ctx.trace, z)(tid) == OpenAt(ctx.trace, z, tid) - Framing.Level(ctx.trace, tid)
  {
    hide DepthAt, Framing.Level, Framing.PassedOver;
    Framing.DepthLevel(ctx.prog, ctx.trace, z, tid);
    Visits.NonePassedOver(ctx, z, tid);
  }

  lemma {:induction false} LevelAgrees(ctx: Context, z: nat)
    requires ctx.Good() && FirstsLooked(ctx) && z < |ctx.trace| && ctx.trace[z].typ != DeclareBlock
    ensures Level(ctx, z) == LevelOf(ctx.trace, z) - Framing.Level(ctx.trace, ctx.trace[z].tid)
  {
    hide DepthAt, Framing.Level, Level, FirstsLooked;
    LevelsAgree(ctx, z + 1, ctx.trace[z].tid);
    Visits.LevelIs(ctx, z);
    Framing.LevelStep(ctx.trace, z, ctx.trace[z].tid);
  }

  lemma {:induction false} FramesAgree(ctx: Context, x: nat, y: nat)
    requires ctx.Good() && FirstsLooked(ctx) && x < |ctx.trace| && ctx.trace[x].typ != DeclareBlock
    ensures InFrame(ctx, x, y, ctx.trace[x].tid, Level(ctx, x)) <==> SameFrame(ctx.trace, x, y) && Looked(ctx, y)
  {
    hide Level, LevelOf, FirstsLooked, Skipped, DepthAt, OpenAt;
    var (tid, l) := (ctx.trace[x].tid, Level(ctx, x));
    LevelAgrees(ctx, x);
    if y < |ctx.trace| && ctx.trace[y].typ != DeclareBlock { LevelAgrees(ctx, y); }
    forall z: nat | z <= |ctx.trace|
      ensures LevelFrom(ctx, z, tid, l) <==> OpenAt(ctx.trace, z, tid) >= LevelOf(ctx.trace, x)
    {
      LevelsAgree(ctx, z, tid);
    }
  }

  lemma {:induction false} TrueCallSeen(ctx: Context, m: nat, q: nat)
    requires ctx.Good() && FirstsLooked(ctx) && TrueCall(ctx, m, q)
    ensures CallDep(ctx, m, q)
  {
    hide SameFrame, InFrame, Level, Base;
    var j: nat :| Calls(ctx, q, j) && m < |ctx.E| && SameFrame(ctx.trace, j, ctx.E[m].block);
    ExecBlock(ctx, m);
    CallsLooked(ctx, q, j);
    FramesAgree(ctx, j, ctx.E[m].block);
    assert CallDepBy(ctx, m, q, j);
  }

  lemma {:induction false} CallsLooked(ctx: Context, q: nat, j: nat)
    requires ctx.Good() && FirstsLooked(ctx) && Calls(ctx, q, j) && ctx.trace[j].typ != DeclareBlock
    ensures Looked(ctx, j)
  {
    hide Base;
  }

  lemma {:induction false} TrueReturnSeen(ctx: Context, m: nat, p: nat)
    requires ctx.Good() && Unrepeated(ctx) && TrueReturn(ctx, m, p)
    ensures ReturnDep(ctx, m, p)
  {
    hide SameFrame, Calls, FrameDep, Unrepeated, IsReturn, ReturnsTo, Uses;
    var q: nat, j: nat :| ReturnsVia(ctx, m, p, q, j);
    OperandsExactly(ctx);
    assert SsaDep(ctx.prog, ctx.E, m, q);
  }

  lemma {:induction false} TrueBranchSeen(ctx: Context, edges: seq<(nat, nat)>, m: nat, p: nat)
    requires ctx.Good() && FirstsLooked(ctx) && TrueBranch(ctx, edges, m, p)
    requires PostDominator.Answers(edges, ctx.postDom) && PostDominator.Undisturbed(PostDominator.Read(edges))
    ensures BranchDep(ctx, m, p)
  {
    hide SameFrame, InFrame, Level, PostDominator.Undisturbed, PostDominator.MustMeet, Looked, PostDominator.GoesOn;
    var (i, j) := (ctx.E[p].block, ctx.E[m].block);
    var bb := ctx.trace[j].bb;
    ExecBlock(ctx, p);
    forall z: nat
      ensures InFrame(ctx, i, z, ctx.E[p].tid, Level(ctx, i)) <==> SameFrame(ctx.trace, i, z) && Looked(ctx, z)
    {
      FramesAgree(ctx, i, z);
    }
    assert RunReaches(ctx, i, i + 1, ctx.E[p].tid, Level(ctx, i), bb, j);
    assert bb !in PostDominators(ctx.postDom, ctx.trace[i].bb);
  }
}
