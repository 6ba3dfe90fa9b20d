/** How a recorded run is shown to lose something: nothing asks for an execution, so that it
    is reported, although a chain of true links leads to it from an impactful call. */
module Losses {
  import opened Common
  import opened Executions
  import opened Slice
  import opened SliceSound
  import opened Flags
  import opened Terminators
  import opened Reasons
  import opened LateKept
  import opened Frames
  import Framing
  import M = MemoryDependency
  import Pipeline
  import PostDominator
  import Soundness

  /** A chain of true links leads from an impactful call to an execution that is reported. */
  ghost predicate Loses(env: M.Env, edges: seq<(nat, nat)>, ctx: Context, unneeded: set<DynamicInst>, path: seq<nat>) {
    && Pipeline.Matched(env, ctx) && Soundness.Chain(ctx, Pipeline.TrueLinks(env, edges, ctx), path)
    && DynAt(ctx.E, path[|path| - 1]) in unneeded
  }

  lemma {:induction false} OneLink(ctx: Context, link: Soundness.Links, a: nat, b: nat)
    requires a < |ctx.E| && b < |ctx.E| && Impactful(ctx, a) && link(a, b)
    ensures Soundness.Chain(ctx, link, [a, b])
  {
  }

  lemma {:induction false} TwoLinks(ctx: Context, link: Soundness.Links, a: nat, b: nat, c: nat)
    requires a < |ctx.E| && b < |ctx.E| && c < |ctx.E| && Impactful(ctx, a) && link(a, b) && link(b, c)
    ensures Soundness.Chain(ctx, link, [a, b, c])
  {
  }

  // ------------------------------------------------- without branches

  /** Where no branch is executed, nothing is kept late. */
  lemma {:induction false} NoneLate(ctx: Context)
    requires ctx.Good() && Framed(ctx.prog, ctx.trace) && ReturnsMarked(ctx.prog, ctx.trace)
    requires forall q: nat :: !IsTerminator(ctx, q)
    ensures Scanned(ctx, 0).late == {}
  {
    hide Framed, ReturnsMarked, Scanned, LateReason, IsTerminator, KeysExact, DepsExact, KeptExact, LateExact, OfHead;
    ScannedWhole(ctx);
    var s := Scanned(ctx, 0);
    if w :| w in s.late {
      var t := LateOf(ctx, 0, s, w);
      var t' := LateOf(ctx, 0, s, t);
      HeadBranches(ctx, s.kept, s.late, t);
    }
  }

  lemma {:induction false} HeadBranches(ctx: Context, kept: set<nat>, late: set<Later>, t: Later)
    requires ctx.Good() && Head(ctx, t) && LateReason(ctx, kept, late, t)
    ensures exists q: nat :: IsTerminator(ctx, q)
  {
    hide InFrame, RunBegins, RunUsed, Base, IsTerminator;
    var i: nat, l: int, q: nat :| q < |ctx.E| && EndsUsed(ctx, kept, i, t.dyn.tid, l, t.bb, q)
                                  && t.dyn == DynAt(ctx.E, q);
    assert IsTerminator(ctx, q);
  }

  /** There, what nothing asks for is reported. */
  lemma {:induction false} UnaskedReported(ctx: Context, q: nat)
    requires ctx.Good() && Framed(ctx.prog, ctx.trace) && ReturnsMarked(ctx.prog, ctx.trace) && q < |ctx.E|
    requires forall p: nat :: !IsTerminator(ctx, p)
    requires !Owed(ctx, Scanned(ctx, 0).kept, q)
    ensures DynAt(ctx.E, q) in Scanned(ctx, 0).unneeded
  {
    hide Framed, ReturnsMarked, Scanned, Owed, OwedLate, DynAt, Exempt, HeadOf, TakenBy, IsTerminator;
    NoneLate(ctx);
    ReportedExactly(ctx, q);
    NobodyLate(ctx, Scanned(ctx, 0).kept, q);
    assert !IsTerminator(ctx, q);
  }

  lemma {:induction false} NobodyLate(ctx: Context, kept: set<nat>, q: nat)
    requires ctx.Good() && q < |ctx.E|
    ensures !OwedLate(ctx, {}, q) && !HeadOf(ctx, {}, DynAt(ctx.E, q)) && !TakenBy(ctx, kept, {}, DynAt(ctx.E, q))
    ensures Exempt(ctx, q) ==> IsTerminator(ctx, q)
  {
    hide DynAt;
  }

  // ------------------------------------------------------ traces of one frame

  /** One thread runs one function, which is left, if at all, by its last block. */
  predicate OneFunction(trace: seq<SmallestBlock>, tid: Tid) {
    && |trace| > 0 && trace[0].isFirst > 0
    && (forall i :: 0 <= i < |trace| ==> trace[i].tid == tid && trace[i].typ != DeclareBlock)
    && (forall i :: 1 <= i < |trace| ==> trace[i].isFirst == 0)
    && (forall i :: 0 <= i < |trace| - 1 ==> trace[i].isLast == 0)
  }

  lemma {:induction false} OneOpen(trace: seq<SmallestBlock>, tid: Tid, i: nat)
    requires OneFunction(trace, tid) && i < |trace|
    ensures OpenAt(trace, i, tid) == if i == 0 then 0 else 1
  {
    if i == 0 {
      assert trace[..0] == [];
    } else {
      OneOpen(trace, tid, i - 1);
      hide Framing.Level;
      Framing.LevelStep(trace, i - 1, tid);
    }
  }

  lemma {:induction false} OneFrame(trace: seq<SmallestBlock>, tid: Tid, x: nat, y: nat)
    requires OneFunction(trace, tid) && x <= y < |trace|
    ensures SameFrame(trace, x, y)
  {
    hide OpenAt;
    forall i: nat | i < |trace| ensures OpenAt(trace, i, tid) == if i == 0 then 0 else 1 { OneOpen(trace, tid, i); }
  }

  /** There, the scan takes the true operands. */
  lemma {:induction false} OneOperand(ctx: Context, tid: Tid, m: nat, q: nat)
    requires ctx.Good() && OneFunction(ctx.trace, tid) && m < |ctx.E| && SsaDep(ctx.prog, ctx.E, m, q)
    ensures FrameDep(ctx, m, q)
  {
    hide Uses, SameFrame, LevelOf, NoneDeeper, OneFunction;
    ExecPlaced(ctx, q, m);
    OneFrame(ctx.trace, tid, ctx.E[q].block, ctx.E[m].block);
    OperandExactly(ctx, m, q);
  }
}
