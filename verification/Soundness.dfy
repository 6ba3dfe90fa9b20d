/** What the slice keeps once it keeps something: the values, bytes, branches, calls and
    returned values that it was made with. Nothing that an impactful call is linked with in
    these ways, however indirectly, is reported (tools/PrintBug/PrintBug.cpp, lines 202-353). */
module Soundness {
  import opened Common
  import opened Executions
  import opened Slice
  import opened SliceSound
  import opened Flags
  import opened Terminators
  import opened Reasons

  // -------------------------------------------------------------------- links

  /** Block j opens a function called by execution q: the last one, before block j, of the
      instruction that block j names as its caller. */
  ghost predicate Calls(ctx: Context, q: nat, j: nat)
    requires ctx.Good()
  {
    && j < |ctx.trace| && q < |ctx.E| && ctx.trace[j].typ != DeclareBlock && ctx.trace[j].isFirst == 1
    && ctx.trace[j].tid == ctx.E[q].tid && ctx.trace[j].caller == Some(ctx.E[q].id) && q < Base(ctx.prog, ctx.trace, j)
    && forall r: nat :: q < r < Base(ctx.prog, ctx.trace, j) && r < |ctx.E| ==> ctx.E[r].Key() != ctx.E[q].Key()
  }

  /** Execution m lies in the frame that call q has opened. */
  ghost predicate CallDep(ctx: Context, m: nat, q: nat)
    requires ctx.Good()
  {
    m < |ctx.E| && exists j: nat :: CallDepBy(ctx, m, q, j)
  }

  ghost predicate CallDepBy(ctx: Context, m: nat, q: nat, j: nat)
    requires ctx.Good() && m < |ctx.E|
  {
    Looked(ctx, j) && Calls(ctx, q, j) && InFrame(ctx, j, ctx.E[m].block, ctx.trace[j].tid, Level(ctx, j))
  }

  /** Execution m uses the value of a call to which execution p returns. */
  ghost predicate ReturnDep(ctx: Context, m: nat, p: nat)
    requires ctx.Good()
  {
    IsReturn(ctx, p) && ReturnsTo(ctx, p).Some? && UserOf(ctx, m, p + 1, ReturnsTo(ctx, p).value)
  }

  /** Execution m lies in the run of a basic block that comes next in the frame after
      branch p, and that does not post-dominate it. */
  ghost predicate BranchDep(ctx: Context, m: nat, p: nat)
    requires ctx.Good()
  {
    && m < |ctx.E| && IsTerminator(ctx, p)
    && var i := ctx.E[p].block;
       exists bb: nat :: bb !in PostDominators(ctx.postDom, ctx.trace[i].bb)
         && RunReaches(ctx, i, i + 1, ctx.E[p].tid, Level(ctx, i), bb, ctx.E[m].block)
  }

  /** Execution m could not be as it is without execution q: a call, a return, a branch. */
  ghost predicate ControlDep(ctx: Context, m: nat, q: nat)
    requires ctx.Good()
  {
    CallDep(ctx, m, q) || ReturnDep(ctx, m, q) || BranchDep(ctx, m, q)
  }

  /** The scan keeps q for the sake of m. */
  ghost predicate Follows(ctx: Context, m: nat, q: nat)
    requires ctx.Good()
  {
    m < |ctx.E| && q < |ctx.E|
    && (DataDep(ctx.prog, ctx.memDep, ctx.trace, ctx.E, m, q) || ControlDep(ctx, m, q))
  }

  // ------------------------------------------------------------ what is kept

  lemma {:induction false} OperandOwed(ctx: Context, kept: set<nat>, m: nat, q: nat)
    requires ctx.Good() && m in kept && m < |ctx.E| && SsaDep(ctx.prog, ctx.E, m, q)
    ensures Owed(ctx, kept, q)
  {
    hide Uses, CallerOf;
    assert UserOf(ctx, m, q + 1, ctx.E[q].Key());
  }

  lemma {:induction false} ByteOwed(ctx: Context, kept: set<nat>, m: nat, q: nat)
    requires ctx.Good() && m in kept && m < |ctx.E| && MemDep(ctx.memDep, ctx.trace, ctx.E, m, q)
    ensures Owed(ctx, kept, q)
  {
    hide KeyOwed, InDeps, DynAt;
    assert DepOwed(ctx, kept, q, DynAt(ctx.E, q));
  }

  lemma {:induction false} CallOwed(ctx: Context, kept: set<nat>, m: nat, q: nat)
    requires ctx.Good() && m in kept && CallDep(ctx, m, q)
    ensures Owed(ctx, kept, q)
  {
    hide UserOf, Base, InFrame, Level, Skipped, CallerOf;
    var j: nat :| CallDepBy(ctx, m, q, j);
    BlockFrom(ctx, j, q);
    CallAsked(ctx, kept, m, q, j);
  }

  lemma {:induction false} CallAsked(ctx: Context, kept: set<nat>, m: nat, q: nat, j: nat)
    requires ctx.Good() && m in kept && m < |ctx.E| && CallDepBy(ctx, m, q, j)
    ensures q < |ctx.E| && CallerOf(ctx, kept, q + 1, j, ctx.E[q].Key())
  {
    hide Base, InFrame, Level, Skipped;
    EntersLater(ctx, j, m);
    assert UsedSince(ctx, kept, j, j, ctx.E[q].tid, Level(ctx, j));
    BaseStep(ctx.prog, ctx.trace, j);
  }

  lemma {:induction false} EntersLater(ctx: Context, j: nat, m: nat)
    requires ctx.Good() && j < |ctx.trace| && m < |ctx.E|
    requires InFrame(ctx, j, ctx.E[m].block, ctx.trace[j].tid, Level(ctx, j))
    ensures j <= ctx.E[m].block
  {
  }

  lemma {:induction false} ReturnOwed(ctx: Context, kept: set<nat>, m: nat, p: nat)
    requires ctx.Good() && m in kept && ReturnDep(ctx, m, p)
    ensures Owed(ctx, kept, p)
  {
    hide UserOf, CallerOf;
  }

  lemma {:induction false} BranchOwedBy(ctx: Context, kept: set<nat>, m: nat, p: nat)
    requires ctx.Good() && m in kept && BranchDep(ctx, m, p)
    ensures Owed(ctx, kept, p)
  {
    hide RunReaches, KeyOwed, Level;
    var i := ctx.E[p].block;
    var bb: nat :| bb !in PostDominators(ctx.postDom, ctx.trace[i].bb)
                   && RunReaches(ctx, i, i + 1, ctx.E[p].tid, Level(ctx, i), bb, ctx.E[m].block);
    assert RunUsed(ctx, kept, i, i + 1, ctx.E[p].tid, Level(ctx, i), bb);
  }

  /** Whatever is linked with something kept is asked for. */
  lemma {:induction false} FollowsOwed(ctx: Context, kept: set<nat>, m: nat, q: nat)
    requires ctx.Good() && m in kept && Follows(ctx, m, q)
    ensures Owed(ctx, kept, q)
  {
    hide Owed, SsaDep, MemDep, CallDep, ReturnDep, BranchDep;
    if SsaDep(ctx.prog, ctx.E, m, q) { OperandOwed(ctx, kept, m, q); }
    else if MemDep(ctx.memDep, ctx.trace, ctx.E, m, q) { ByteOwed(ctx, kept, m, q); }
    else if CallDep(ctx, m, q) { CallOwed(ctx, kept, m, q); }
    else if ReturnDep(ctx, m, q) { ReturnOwed(ctx, kept, m, q); }
    else { BranchOwedBy(ctx, kept, m, q); }
  }

  // -------------------------------------------------------------------- chains

  type Links = (nat, nat) -> bool

  /** A chain of links that starts at an impactful call. */
  ghost predicate Chain(ctx: Context, link: Links, path: seq<nat>) {
    && |path| > 0 && (forall k :: 0 <= k < |path| ==> path[k] < |ctx.E|) && Impactful(ctx, path[0])
    && forall k: nat, n: nat :: n == k + 1 < |path| ==> link(path[k], path[n])
  }

  /** Nothing an impactful call is linked with, however indirectly, is reported. */
  ghost predicate Lossless(ctx: Context, link: Links, unneeded: set<DynamicInst>) {
    forall path :: Chain(ctx, link, path) ==> DynAt(ctx.E, path[|path| - 1]) !in unneeded
  }

  /** The links the scan follows. */
  ghost function Followed(ctx: Context): Links
    requires ctx.Good()
  {
    (m: nat, q: nat) => Follows(ctx, m, q)
  }

  lemma {:induction false} ChainKept(ctx: Context, kept: set<nat>, path: seq<nat>)
    requires ctx.Good() && Chain(ctx, Followed(ctx), path)
    requires forall q: nat :: q < |ctx.E| && Owed(ctx, kept, q) ==> q in kept
    ensures path[|path| - 1] in kept
  {
    hide Follows;
    var n := |path| - 1;
    if n == 0 {
      assert Owed(ctx, kept, path[0]);
    } else {
      var k: nat := n - 1;
      ChainKept(ctx, kept, path[..n]);
      assert Followed(ctx)(path[k], path[n]);
      FollowsOwed(ctx, kept, path[k], path[n]);
    }
  }

  /** Nothing that an impactful call is linked with is reported: whatever a kept execution
      used, was called by or was let run by, as far as the scan can tell. */
  lemma {:induction false} ScannedSound(ctx: Context)
    requires ctx.Good() && Framed(ctx.prog, ctx.trace) && ReturnsMarked(ctx.prog, ctx.trace)
    ensures Lossless(ctx, Followed(ctx), Scanned(ctx, 0).unneeded)
  {
    hide Base, Framed, ReturnsMarked, Scanned, Owed, OwedLate, LateReason, Followed;
    var s := Scanned(ctx, 0);
    KeptExactly(ctx);
    ScannedPartition(ctx);
    forall path | Chain(ctx, Followed(ctx), path) ensures DynAt(ctx.E, path[|path| - 1]) !in s.unneeded {
      ChainKept(ctx, s.kept, path);
      KeptUnreported(ctx, s, path[|path| - 1]);
    }
  }

  lemma {:induction false} KeptUnreported(ctx: Context, s: Scan, p: nat)
    requires Partition(ctx, s.kept, s.retro, s.unneeded) && p in s.kept && p < |ctx.E|
    ensures DynAt(ctx.E, p) !in s.unneeded
  {
    hide DynAt;
  }

  /** Fewer links lose no more. */
  lemma {:induction false} FewerLinks(ctx: Context, link: Links, more: Links, unneeded: set<DynamicInst>)
    requires Lossless(ctx, more, unneeded)
    requires forall m: nat, q: nat :: m < |ctx.E| && q < |ctx.E| && link(m, q) ==> more(m, q)
    ensures Lossless(ctx, link, unneeded)
  {
    hide Impactful;
    forall path | Chain(ctx, link, path) ensures Chain(ctx, more, path) {
    }
  }
}
