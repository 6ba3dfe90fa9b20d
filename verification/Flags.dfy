/** What the flags on the slicer's stacks mean: a function is marked used exactly if
    an execution of its frame is kept, a block exactly if an execution of its latest
    run in the frame is (tools/PrintBug/PrintBug.cpp, lines 218-236, 327-351). */
module Flags {
  import opened Common
  import opened Executions
  import opened Slice
  import opened SliceSound

  /** The level of the frame that block i lies in. */
  ghost function Level(ctx: Context, i: nat): int
    requires ctx.Good() && i < |ctx.trace|
  {
    Opened(ctx.trace[i], DepthAt(ctx.prog, ctx.trace, i + 1))(ctx.trace[i].tid)
  }

  ghost predicate Looked(ctx: Context, i: nat)
    requires ctx.Good()
  {
    i < |ctx.trace| && ctx.trace[i].typ != DeclareBlock && !Skipped(ctx.prog, ctx.trace[i])
  }

  ghost predicate LevelFrom(ctx: Context, x: nat, tid: Tid, l: int)
    requires ctx.Good()
  {
    x <= |ctx.trace| && DepthAt(ctx.prog, ctx.trace, x)(tid) >= l
  }

  /** Block j lies in the frame of thread `tid` that is at level l at block i. */
  ghost predicate InFrame(ctx: Context, i: nat, j: nat, tid: Tid, l: int)
    requires ctx.Good()
  {
    && i <= j && Looked(ctx, j) && ctx.trace[j].tid == tid && Level(ctx, j) == l
    && forall x: nat :: i < x <= j ==> LevelFrom(ctx, x, tid, l)
  }

  lemma {:induction false} FrameStep(ctx: Context, i: nat, j: nat, tid: Tid, l: int)
    requires ctx.Good() && i < j
    ensures InFrame(ctx, i, j, tid, l) <==> InFrame(ctx, i + 1, j, tid, l) && LevelFrom(ctx, i + 1, tid, l)
  {
    hide Looked, Level, LevelFrom;
  }

  // --------------------------------------------------------- what flags mean

  /** An execution of the frame is kept, in block `from` or later. */
  ghost predicate UsedSince(ctx: Context, kept: set<nat>, i: nat, from: nat, tid: Tid, l: int)
    requires ctx.Good()
  {
    exists m: nat :: m in kept && m < |ctx.E| && from <= ctx.E[m].block && InFrame(ctx, i, ctx.E[m].block, tid, l)
  }

  /** The frame goes on with basic block bb. */
  ghost predicate RunIs(ctx: Context, i: nat, from: nat, tid: Tid, l: int, bb: nat)
    requires ctx.Good()
  {
    forall x: nat :: from <= x && InFrame(ctx, i, x, tid, l) && (forall y: nat :: from <= y < x ==>
          !InFrame(ctx, i, y, tid, l)) ==>
      ctx.trace[x].bb == bb
  }

  /** The frame goes on with basic block bb, up to an execution that is kept. */
  ghost predicate RunUsed(ctx: Context, kept: set<nat>, i: nat, from: nat, tid: Tid, l: int, bb: nat)
    requires ctx.Good()
  {
    exists m: nat :: m in kept && m < |ctx.E| && RunReaches(ctx, i, from, tid, l, bb, ctx.E[m].block)
  }

  ghost predicate RunReaches(ctx: Context, i: nat, from: nat, tid: Tid, l: int, bb: nat, j: nat)
    requires ctx.Good()
  {
    && from <= j && InFrame(ctx, i, j, tid, l)
    && forall x: nat :: from <= x <= j && InFrame(ctx, i, x, tid, l) ==> ctx.trace[x].bb == bb
  }

  ghost predicate FunMeans(ctx: Context, i: nat, from: nat, kept: set<nat>, funUsed: map<Tid, seq<bool>>)
    requires ctx.Good()
  {
    forall tid, k: nat :: k < |StackOf(funUsed, tid)| ==>
      (StackOf(funUsed, tid)[k] <==> UsedSince(ctx, kept, i, from, tid, k + 1))
  }

  ghost predicate RunEntry(ctx: Context, i: nat, from: nat, kept: set<nat>, tid: Tid, l: int, e: (nat, bool))
    requires ctx.Good()
  {
    RunIs(ctx, i, from, tid, l, e.0) && (e.1 <==> RunUsed(ctx, kept, i, from, tid, l, e.0))
  }

  ghost predicate RunMeans(ctx: Context, i: nat, from: nat, kept: set<nat>, nextBB: map<Tid, seq<(nat, bool)>>)
    requires ctx.Good()
  {
    forall tid, k: nat :: k < |StackOf(nextBB, tid)| ==>
          RunEntry(ctx, i, from, kept, tid, k + 1, StackOf(nextBB, tid)[k])
  }

  /** Everything kept so far lies in block n or later. */
  ghost predicate KeptFrom(ctx: Context, kept: set<nat>, n: nat) {
    forall m :: m in kept ==> m < |ctx.E| && ctx.E[m].block >= n
  }

  /** At block i: before it is noted `from` is i + 1, afterwards i. */
  ghost predicate Meant(ctx: Context, i: nat, from: nat, s: Scan)
    requires ctx.Good()
  {
    && KeptFrom(ctx, s.kept, i) && FunMeans(ctx, i, i, s.kept, s.funUsed)
    && RunMeans(ctx, i, from, s.kept, s.nextBB)
  }

  // -------------------------------------------------------- the stacks' steps

  ghost function DepthIn(ctx: Context, i: nat): Tid -> int
    requires ctx.Good() && i < |ctx.trace|
  {
    Opened(ctx.trace[i], DepthAt(ctx.prog, ctx.trace, i + 1))
  }

  /** The frames that were open at block i + 1. */
  lemma {:induction false} UsedSinceStep(ctx: Context, kept: set<nat>, i: nat, tid: Tid, l: int)
    requires ctx.Good() && i < |ctx.trace| && KeptFrom(ctx, kept, i + 1)
    ensures UsedSince(ctx, kept, i, i, tid, l) <==>
              UsedSince(ctx, kept, i + 1, i + 1, tid, l) && LevelFrom(ctx, i + 1, tid, l)
  {
    hide InFrame, LevelFrom;
    forall m: nat | m in kept
      ensures InFrame(ctx, i, ctx.E[m].block, tid, l) <==>
                InFrame(ctx, i + 1, ctx.E[m].block, tid, l) && LevelFrom(ctx, i + 1, tid, l)
    {
      FrameStep(ctx, i, ctx.E[m].block, tid, l);
    }
  }

  lemma {:induction false} RunEntryStep(ctx: Context, kept: set<nat>, i: nat, tid: Tid, l: int, e: (nat, bool))
    requires ctx.Good() && i < |ctx.trace| && LevelFrom(ctx, i + 1, tid, l)
    ensures RunEntry(ctx, i, i + 1, kept, tid, l, e) <==> RunEntry(ctx, i + 1, i + 1, kept, tid, l, e)
  {
    hide InFrame, LevelFrom;
    var n := i + 1;
    forall j: nat | n <= j ensures InFrame(ctx, i, j, tid, l) <==> InFrame(ctx, n, j, tid, l) {
      FrameStep(ctx, i, j, tid, l);
    }
    forall j: nat
      ensures RunReaches(ctx, i, n, tid, l, e.0, j) <==> RunReaches(ctx, n, n, tid, l, e.0, j)
    {
    }
  }

  /** A frame that has just been opened holds nothing yet. */
  lemma {:induction false} NewFrame(ctx: Context, kept: set<nat>, i: nat, tid: Tid, l: int, bb: nat)
    requires ctx.Good() && i < |ctx.trace| && KeptFrom(ctx, kept, i + 1) && !LevelFrom(ctx, i + 1, tid, l)
    ensures !UsedSince(ctx, kept, i, i, tid, l) && RunEntry(ctx, i, i + 1, kept, tid, l, (bb, false))
  {
    hide LevelFrom;
    UsedSinceStep(ctx, kept, i, tid, l);
    forall j: nat | i + 1 <= j ensures !InFrame(ctx, i, j, tid, l) {
      FrameStep(ctx, i, j, tid, l);
    }
  }

  lemma {:induction false} OpenLevel(ctx: Context, i: nat, tid: Tid, k: nat)
    requires ctx.Good() && i < |ctx.trace|
    ensures k < DepthAt(ctx.prog, ctx.trace, i + 1)(tid) <==> LevelFrom(ctx, i + 1, tid, k + 1)
  {
  }

  // ------------------------------------------------------- entering a block

  lemma {:induction false} EnteredStacks(ctx: Context, s: Scan, p: nat, b: SmallestBlock)
    ensures var s' := Entered(ctx, s, p, b);
            && s'.kept == s.kept
            && s'.funUsed == (if b.isLast > 0 then Pushed(s.funUsed, b.tid, false) else s.funUsed)
            && s'.nextBB == (if b.isLast > 0 then Pushed(s.nextBB, b.tid, (b.bb, false)) else s.nextBB)
  {
    hide TerminatorKept;
    var next := StackOf(s.nextBB, b.tid);
    if next != [] { TerminatorKeptFrame(ctx, s, p, b, Top(next).0); }
  }

  lemma {:induction false} EnteredMeant(ctx: Context, i: nat, s: Scan, p: nat)
    requires ctx.Good() && i < |ctx.trace| && Meant(ctx, i + 1, i + 1, s)
    requires Heights(s, DepthAt(ctx.prog, ctx.trace, i + 1))
    ensures Meant(ctx, i, i + 1, Entered(ctx, s, p, ctx.trace[i]))
  {
    hide Entered, UsedSince, RunEntry, LevelFrom, DepthAt, Heights;
    var b := ctx.trace[i];
    var s' := Entered(ctx, s, p, b);
    EnteredStacks(ctx, s, p, b);
    forall tid, k: nat | k < |StackOf(s'.funUsed, tid)|
      ensures StackOf(s'.funUsed, tid)[k] <==> UsedSince(ctx, s'.kept, i, i, tid, k + 1)
    {
      EnteredFun(ctx, i, s, p, tid, k);
    }
    forall tid, k: nat | k < |StackOf(s'.nextBB, tid)|
      ensures RunEntry(ctx, i, i + 1, s'.kept, tid, k + 1, StackOf(s'.nextBB, tid)[k])
    {
      EnteredRun(ctx, i, s, p, tid, k);
    }
  }

  lemma {:induction false} HeightAt(s: Scan, depth: Tid -> int, tid: Tid)
    requires Heights(s, depth)
    ensures |StackOf(s.funUsed, tid)| == |StackOf(s.nextBB, tid)| == |StackOf(s.terminators, tid)| == depth(tid)
  {
  }

  lemma {:induction false} EnteredFun(ctx: Context, i: nat, s: Scan, p: nat, tid: Tid, k: nat)
    requires ctx.Good() && i < |ctx.trace| && Meant(ctx, i + 1, i + 1, s)
    requires Heights(s, DepthAt(ctx.prog, ctx.trace, i + 1))
    requires k < |StackOf(Entered(ctx, s, p, ctx.trace[i]).funUsed, tid)|
    ensures StackOf(Entered(ctx, s, p, ctx.trace[i]).funUsed, tid)[k] <==> UsedSince(ctx, s.kept, i, i, tid, k + 1)
  {
    hide Entered, UsedSince, RunMeans, LevelFrom, DepthAt, Heights;
    EnteredStacks(ctx, s, p, ctx.trace[i]);
    HeightAt(s, DepthAt(ctx.prog, ctx.trace, i + 1), tid);
    OpenLevel(ctx, i, tid, k);
    if k < |StackOf(s.funUsed, tid)| {
      UsedSinceStep(ctx, s.kept, i, tid, k + 1);
    } else {
      NewFrame(ctx, s.kept, i, tid, k + 1, 0);
    }
  }

  lemma {:induction false} EnteredRun(ctx: Context, i: nat, s: Scan, p: nat, tid: Tid, k: nat)
    requires ctx.Good() && i < |ctx.trace| && Meant(ctx, i + 1, i + 1, s)
    requires Heights(s, DepthAt(ctx.prog, ctx.trace, i + 1))
    requires k < |StackOf(Entered(ctx, s, p, ctx.trace[i]).nextBB, tid)|
    ensures RunEntry(ctx, i, i + 1, s.kept, tid, k + 1, StackOf(Entered(ctx, s, p, ctx.trace[i]).nextBB, tid)[k])
  {
    hide Entered, FunMeans, RunEntry, LevelFrom, DepthAt, Heights;
    EnteredStacks(ctx, s, p, ctx.trace[i]);
    HeightAt(s, DepthAt(ctx.prog, ctx.trace, i + 1), tid);
    OpenLevel(ctx, i, tid, k);
    if k < |StackOf(s.nextBB, tid)| {
      RunEntryStep(ctx, s.kept, i, tid, k + 1, StackOf(s.nextBB, tid)[k]);
    } else {
      NewFrame(ctx, s.kept, i, tid, k + 1, ctx.trace[i].bb);
    }
  }

  // --------------------------------------------------------- one instruction

  /** The frame of block i itself. */
  lemma {:induction false} OwnFrame(ctx: Context, i: nat, tid: Tid, l: int)
    requires ctx.Good() && i < |ctx.trace|
    ensures InFrame(ctx, i, i, tid, l) <==> Looked(ctx, i) && ctx.trace[i].tid == tid && Level(ctx, i) == l
  {
  }

  /** One more execution of block i is passed. */
  lemma {:induction false} PassingMeant(ctx: Context, i: nat, p: nat, s: Scan, d: DynamicInst, lastBB: Option<nat>,
                                        isNeeded: bool, report: bool)
    requires ctx.Good() && i < |ctx.trace| && Looked(ctx, i) && p < |ctx.E| && ctx.E[p].block == i
             && d.tid == ctx.trace[i].tid
    requires Meant(ctx, i, i + 1, s) && Heights(s, DepthIn(ctx, i)) && DepthIn(ctx, i)(d.tid) >= 1
    ensures Meant(ctx, i, i + 1, Passing(ctx, s, p, d, lastBB, isNeeded, report))
  {
    hide UsedSince, RunEntry, LevelFrom, DepthAt, Heights, Passing, Looked;
    var s' := Passing(ctx, s, p, d, lastBB, isNeeded, report);
    PassingKept(ctx, s, p, d, lastBB, isNeeded, report);
    forall tid, k: nat | k < |StackOf(s'.funUsed, tid)|
      ensures StackOf(s'.funUsed, tid)[k] <==> UsedSince(ctx, s'.kept, i, i, tid, k + 1)
    {
      PassingFun(ctx, i, p, s, d, lastBB, isNeeded, report, tid, k);
    }
    forall tid, k: nat | k < |StackOf(s'.nextBB, tid)|
      ensures RunEntry(ctx, i, i + 1, s'.kept, tid, k + 1, StackOf(s'.nextBB, tid)[k])
    {
      RunEntryMore(ctx, i, s.kept, s'.kept, tid, k + 1, StackOf(s.nextBB, tid)[k]);
    }
  }

  lemma {:induction false} RunEntryMore(ctx: Context, i: nat, kept: set<nat>, kept': set<nat>, tid: Tid, l: int,
                                        e: (nat, bool))
    requires ctx.Good() && RunEntry(ctx, i, i + 1, kept, tid, l, e)
    requires kept <= kept' && forall m :: m in kept' && m !in kept ==> m < |ctx.E| && ctx.E[m].block <= i
    ensures RunEntry(ctx, i, i + 1, kept', tid, l, e)
  {
    hide InFrame, RunIs;
    assert forall m: nat ::
              m in kept' && m < |ctx.E| && RunReaches(ctx, i, i + 1, tid, l, e.0, ctx.E[m].block) ==> m in kept;
  }

  lemma {:induction false} UsedSinceMore(ctx: Context, i: nat, kept: set<nat>, p: nat, tid: Tid, l: int)
    requires ctx.Good() && p < |ctx.E| && ctx.E[p].block == i
    ensures UsedSince(ctx, kept + {p}, i, i, tid, l) <==>
              UsedSince(ctx, kept, i, i, tid, l) || InFrame(ctx, i, i, tid, l)
  {
    hide InFrame;
    var kept' := kept + {p};
    if UsedSince(ctx, kept, i, i, tid, l) {
      var m: nat :| m in kept && m < |ctx.E| && i <= ctx.E[m].block && InFrame(ctx, i, ctx.E[m].block, tid, l);
      assert m in kept';
    }
    if InFrame(ctx, i, i, tid, l) { assert p in kept'; }
  }

  lemma {:induction false} PassingFun(ctx: Context, i: nat, p: nat, s: Scan, d: DynamicInst, lastBB: Option<nat>,
                                      isNeeded: bool, report: bool, tid: Tid, k: nat)
    requires ctx.Good() && i < |ctx.trace| && Looked(ctx, i) && p < |ctx.E| && ctx.E[p].block == i
             && d.tid == ctx.trace[i].tid
    requires FunMeans(ctx, i, i, s.kept, s.funUsed) && Heights(s, DepthIn(ctx, i)) && DepthIn(ctx, i)(d.tid) >= 1
    requires k < |StackOf(Passing(ctx, s, p, d, lastBB, isNeeded, report).funUsed, tid)|
    ensures var s' := Passing(ctx, s, p, d, lastBB, isNeeded, report);
            StackOf(s'.funUsed, tid)[k] <==> UsedSince(ctx, s'.kept, i, i, tid, k + 1)
  {
    hide UsedSince, InFrame, DepthAt, Looked, Needing, Depending;
    HeightAt(s, DepthIn(ctx, i), tid);
    OwnFrame(ctx, i, tid, k + 1);
    if isNeeded { UsedSinceMore(ctx, i, s.kept, p, tid, k + 1); }
  }

  lemma {:induction false} AccessMeant(ctx: Context, i: nat, lo: nat, hi: nat, s: Scan, depth: Tid -> int)
    requires ctx.Good() && i < |ctx.trace| && Looked(ctx, i) && IsAccess(ctx.trace[i]) && depth == DepthIn(ctx, i)
    requires lo == Base(ctx.prog, ctx.trace, i) && hi == lo + 1 && Stable(ctx, hi, depth, s)
             && depth(ctx.trace[i].tid) >= 1
    requires Meant(ctx, i, i + 1, s)
    ensures Meant(ctx, i, i + 1, AccessDone(ctx, s, ctx.trace[i], lo))
  {
    hide Base, Meant, Inv, TerminatorsPassed, BlocksKnown, DepthIn, Heights, Passing;
    var b := ctx.trace[i];
    AccessExec(ctx, i, lo);
    var d := Numbered(s, b.tid, ctx.prog.bb2ins[b.bb][b.start]);
    var isNeeded := AccessNeeded(s, b, d);
    PassingMeant(ctx, i, lo, s, d, b.lastBB, isNeeded, true);
    AddressedMeant(ctx, i, Passing(ctx, s, lo, d, b.lastBB, isNeeded, true), b, d.id, isNeeded);
  }

  lemma {:induction false} AddressedMeant(ctx: Context, i: nat, s: Scan, b: SmallestBlock, id: nat, isNeeded: bool)
    requires ctx.Good() && Meant(ctx, i, i + 1, s) && (b.typ == MemoryAccessBlock ==> |b.addr| == 2)
    ensures Meant(ctx, i, i + 1, Addressed(s, b, id, isNeeded))
  {
    hide FunMeans, RunMeans;
  }

  lemma {:induction false} NormalStepMeant(ctx: Context, i: nat, p: nat, above: nat, s: Scan, b: SmallestBlock,
                                           id: nat, depth: Tid -> int)
    requires ctx.Good() && i < |ctx.trace| && Looked(ctx, i) && depth == DepthIn(ctx, i) && b == ctx.trace[i]
    requires above == p + 1 && Stable(ctx, above, depth, s) && InNormal(ctx, p, b, id)
             && ctx.E[p].block == i && depth(b.tid) >= 1
    requires Meant(ctx, i, i + 1, s)
    ensures Meant(ctx, i, i + 1, NormalStep(ctx, s, b, id, p))
  {
    hide Meant, CountsAt, AllWait, Reported, TerminatorsPassed, BlocksKnown, DepthIn, Heights, Passing, NormalNeeded,
         DynAt, Looked, Placed;
    var d := Numbered(s, b.tid, id);
    NumberedAt(ctx.E, p, above, s);
    var isNeeded := NormalNeeded(ctx, s, b, d);
    var info := ctx.prog.ins[id];
    var t := Terminator(b.bb, d, isNeeded);
    var s1 := if info.typ == TerminatorInst then s.(terminators := Placed(s.terminators, b.tid, t)) else s;
    if info.typ == TerminatorInst {
      SameMeant(ctx, i, s, s1);
      PlacedHeights(s, b.tid, Terminator(b.bb, d, isNeeded), depth);
    }
    PassingMeant(ctx, i, p, s1, d, b.lastBB, isNeeded, !(info.typ == TerminatorInst && |info.successors| <= 1));
  }

  lemma {:induction false} SameMeant(ctx: Context, i: nat, s: Scan, s': Scan)
    requires ctx.Good() && Meant(ctx, i, i + 1, s) && s'.kept == s.kept && s'.funUsed == s.funUsed
             && s'.nextBB == s.nextBB
    ensures Meant(ctx, i, i + 1, s')
  {
  }

  lemma {:induction false} PlacedHeights(s: Scan, tid: Tid, t: Terminator, depth: Tid -> int)
    requires Heights(s, depth)
    ensures Heights(s.(terminators := Placed(s.terminators, tid, t)), depth)
  {
  }

  lemma {:induction false} NormalDoneMeant(ctx: Context, i: nat, lo: nat, hi: nat, s: Scan, k: nat, depth: Tid -> int)
    requires ctx.Good() && i < |ctx.trace| && Looked(ctx, i) && depth == DepthIn(ctx, i)
    requires ctx.trace[i].typ == NormalBlock && BlockReturnsMarked(ctx.prog, ctx.trace[i])
    requires ctx.trace[i].start <= k <= ctx.trace[i].end && depth(ctx.trace[i].tid) >= 1
    requires lo == Base(ctx.prog, ctx.trace, i) && hi == lo + (ctx.trace[i].end - ctx.trace[i].start)
    requires Stable(ctx, hi, depth, s) && Meant(ctx, i, i + 1, s)
    ensures Meant(ctx, i, i + 1, NormalDone(ctx, s, ctx.trace[i], lo, k))
    decreases ctx.trace[i].end - k
  {
    hide Base, Stable, NormalStep, Meant, DepthIn, Looked;
    var b := ctx.trace[i];
    if k < b.end {
      NormalDoneMeant(ctx, i, lo, hi, s, k + 1, depth);
      NormalDoneStable(ctx, i, lo, hi, s, k + 1, depth);
      var (p, above) := (lo + (k - b.start), lo + (k + 1 - b.start));
      NormalExec(ctx, i, k, p);
      NormalStepMeant(ctx, i, p, above, NormalDone(ctx, s, b, lo, k + 1), b, ctx.prog.bb2ins[b.bb][k], depth);
    }
  }

  // -------------------------------------------------------- leaving a block

  lemma {:induction false} FirstInFrame(ctx: Context, i: nat, from: nat, j: nat, tid: Tid, l: int) returns (x: nat)
    requires ctx.Good() && from <= j && InFrame(ctx, i, j, tid, l)
    ensures from <= x <= j && InFrame(ctx, i, x, tid, l) && forall y: nat :: from <= y < x ==>
              !InFrame(ctx, i, y, tid, l)
    decreases j - from
  {
    hide InFrame;
    if InFrame(ctx, i, from, tid, l) { x := from; } else { x := FirstInFrame(ctx, i, from + 1, j, tid, l); }
  }

  /** An entry for another frame stays as it is when block i is noted. */
  lemma {:induction false} NotedOther(ctx: Context, i: nat, kept: set<nat>, tid: Tid, l: int, e: (nat, bool))
    requires ctx.Good() && RunEntry(ctx, i, i + 1, kept, tid, l, e) && !InFrame(ctx, i, i, tid, l)
    ensures RunEntry(ctx, i, i, kept, tid, l, e)
  {
    hide InFrame;
    assert forall x: nat :: i <= x && InFrame(ctx, i, x, tid, l) ==> i + 1 <= x;
    assert RunIs(ctx, i, i, tid, l, e.0);
    forall j: nat
      ensures RunReaches(ctx, i, i, tid, l, e.0, j) <==> RunReaches(ctx, i, i + 1, tid, l, e.0, j)
    {
    }
  }

  /** The entry for the frame of block i itself. */
  lemma {:induction false} NotedOwn(ctx: Context, i: nat, kept: set<nat>, tid: Tid, l: int, e: (nat, bool), used: bool)
    requires ctx.Good() && i < |ctx.trace| && RunEntry(ctx, i, i + 1, kept, tid, l, e) && InFrame(ctx, i, i, tid, l)
    requires KeptFrom(ctx, kept, i)
    requires used <==> exists m: nat :: m in kept && ctx.E[m].block == i
    ensures var bb := ctx.trace[i].bb; RunEntry(ctx, i, i, kept, tid, l, (bb, used || (e.0 == bb && e.1)))
  {
    hide InFrame, RunIs;
    var bb := ctx.trace[i].bb;
    assert RunIs(ctx, i, i, tid, l, bb) by { RunStarts(ctx, i, tid, l); }
    if RunUsed(ctx, kept, i, i, tid, l, bb) && !used {
      var m: nat :| m in kept && m < |ctx.E| && RunReaches(ctx, i, i, tid, l, bb, ctx.E[m].block);
      RunContinues(ctx, i, ctx.E[m].block, tid, l, e.0, bb);
      assert RunReaches(ctx, i, i + 1, tid, l, bb, ctx.E[m].block);
    }
    if used {
      var m: nat :| m in kept && ctx.E[m].block == i;
      assert RunReaches(ctx, i, i, tid, l, bb, i);
    } else if e.0 == bb && e.1 {
      var m: nat :| m in kept && m < |ctx.E| && RunReaches(ctx, i, i + 1, tid, l, bb, ctx.E[m].block);
      assert RunReaches(ctx, i, i, tid, l, bb, ctx.E[m].block);
    }
  }

  lemma {:induction false} RunStarts(ctx: Context, i: nat, tid: Tid, l: int)
    requires ctx.Good() && i < |ctx.trace| && InFrame(ctx, i, i, tid, l)
    ensures RunIs(ctx, i, i, tid, l, ctx.trace[i].bb)
  {
    hide InFrame;
  }

  lemma {:induction false} RunContinues(ctx: Context, i: nat, j: nat, tid: Tid, l: int, next: nat, bb: nat)
    requires ctx.Good() && i < j && RunIs(ctx, i, i + 1, tid, l, next) && RunReaches(ctx, i, i, tid, l, bb, j)
    ensures next == bb
  {
    hide InFrame;
    var x := FirstInFrame(ctx, i, i + 1, j, tid, l);
  }

  lemma {:induction false} NotedMeant(ctx: Context, i: nat, s: Scan, used: bool)
    requires ctx.Good() && i < |ctx.trace| && Looked(ctx, i) && Meant(ctx, i, i + 1, s)
             && Heights(s, DepthIn(ctx, i)) && DepthIn(ctx, i)(ctx.trace[i].tid) >= 1
    requires used <==> exists m: nat :: m in s.kept && ctx.E[m].block == i
    ensures Meant(ctx, i, i, s.(nextBB := Noted(s.nextBB, ctx.trace[i], used)))
  {
    hide InFrame, FunMeans, RunEntry, DepthAt, Looked;
    var b := ctx.trace[i];
    var next := Noted(s.nextBB, b, used);
    forall tid, k: nat | k < |StackOf(next, tid)|
      ensures RunEntry(ctx, i, i, s.kept, tid, k + 1, StackOf(next, tid)[k])
    {
      HeightAt(s, DepthIn(ctx, i), tid);
      OwnFrame(ctx, i, tid, k + 1);
      var e := StackOf(s.nextBB, tid)[k];
      if InFrame(ctx, i, i, tid, k + 1) {
        NotedOwn(ctx, i, s.kept, tid, k + 1, e, used);
      } else {
        NotedOther(ctx, i, s.kept, tid, k + 1, e);
      }
    }
  }

  /** Popping stacks leaves the other entries alone. */
  lemma {:induction false} PoppedMeant(ctx: Context, i: nat, s: Scan, tid: Tid)
    requires ctx.Good() && Meant(ctx, i, i, s)
    ensures Meant(ctx, i, i, s.(funUsed := Popped(s.funUsed, tid), nextBB := Popped(s.nextBB, tid),
                                terminators := Popped(s.terminators, tid)))
  {
    hide UsedSince, RunEntry, Popped, StackOf;
    var (f, n) := (Popped(s.funUsed, tid), Popped(s.nextBB, tid));
    forall x, k: nat | k < |StackOf(f, x)| ensures StackOf(f, x)[k] <==> UsedSince(ctx, s.kept, i, i, x, k + 1) {
      PoppedAt(s.funUsed, tid, x, k);
    }
    forall x, k: nat | k < |StackOf(n, x)| ensures RunEntry(ctx, i, i, s.kept, x, k + 1, StackOf(n, x)[k]) {
      PoppedAt(s.nextBB, tid, x, k);
    }
  }

  lemma {:induction false} PoppedAt<T>(m: map<Tid, seq<T>>, tid: Tid, x: Tid, k: nat)
    requires k < |StackOf(Popped(m, tid), x)|
    ensures k < |StackOf(m, x)| && StackOf(Popped(m, tid), x)[k] == StackOf(m, x)[k]
  {
  }

  lemma {:induction false} LeftStacks(ctx: Context, s: Scan, p: nat, b: SmallestBlock, used: bool)
    ensures var s1 := s.(nextBB := Noted(s.nextBB, b, used));
            var s2 := RunEnded(ctx, CallerNeeded(s1, b), p, b);
            && s2.kept == s.kept && s2.funUsed == s.funUsed && s2.nextBB == s1.nextBB
            && s2.terminators == s.terminators
  {
    hide TerminatorKept, Noted;
    TerminatorKeptFrame(ctx, CallerNeeded(s.(nextBB := Noted(s.nextBB, b, used)), b), p, b, b.bb);
  }

  lemma {:induction false} LeftMeant(ctx: Context, i: nat, s: Scan, p: nat, used: bool)
    requires ctx.Good() && i < |ctx.trace| && Looked(ctx, i) && Meant(ctx, i, i + 1, s)
             && Heights(s, DepthIn(ctx, i)) && DepthIn(ctx, i)(ctx.trace[i].tid) >= 1
    requires used <==> exists m: nat :: m in s.kept && ctx.E[m].block == i
    ensures Meant(ctx, i, i, Left(ctx, s, p, ctx.trace[i], used))
  {
    hide FunMeans, RunMeans, Heights, DepthIn, Looked, Noted, RunEnded, CallerNeeded, Popped;
    var b := ctx.trace[i];
    NotedMeant(ctx, i, s, used);
    LeftStacks(ctx, s, p, b, used);
    var s1 := s.(nextBB := Noted(s.nextBB, b, used));
    PoppedMeant(ctx, i, RunEnded(ctx, CallerNeeded(s1, b), p, b), b.tid);
  }

  // --------------------------------------------------------------- the scan

  /** Positions and blocks ascend together. */
  lemma {:induction false} BlockFrom(ctx: Context, n: nat, m: nat)
    requires ctx.Good() && n <= |ctx.trace| && m < |ctx.E|
    ensures m >= Base(ctx.prog, ctx.trace, n) <==> ctx.E[m].block >= n
  {
    hide Base, Execs, Ids;
    var i := ctx.E[m].block;
    BlockOfExec(ctx.prog, ctx.trace, m);
    BaseStep(ctx.prog, ctx.trace, i);
    if i >= n { BaseMono(ctx.prog, ctx.trace, n, i); } else { BaseMono(ctx.prog, ctx.trace, i + 1, n); }
  }

  /** What has been kept between the positions of block i belongs to it. */
  lemma {:induction false} KeptInBlock(ctx: Context, i: nat, lo: nat, hi: nat, kept: set<nat>)
    requires ctx.Good() && i < |ctx.trace| && KeptFrom(ctx, kept, i)
    requires lo == Base(ctx.prog, ctx.trace, i) && hi == lo + |Ids(ctx.prog, ctx.trace[i])|
    ensures KeptWithin(kept, lo, hi) <==> exists m: nat :: m in kept && ctx.E[m].block == i
  {
    hide Base, Ids, Execs;
    BaseStep(ctx.prog, ctx.trace, i);
    forall m: nat | m in kept ensures lo <= m < hi <==> ctx.E[m].block == i {
      BlockFrom(ctx, i, m);
      BlockFrom(ctx, i + 1, m);
    }
    if m: nat :| m in kept && ctx.E[m].block == i {
      assert lo <= m < hi && m in kept;
    }
  }

  lemma {:induction false} InstructionsMeant(ctx: Context, i: nat, lo: nat, hi: nat, s: Scan, depth: Tid -> int)
    requires ctx.Good() && i < |ctx.trace| && Looked(ctx, i)
    requires depth == DepthIn(ctx, i) && depth(ctx.trace[i].tid) >= 1
    requires BlockReturnsMarked(ctx.prog, ctx.trace[i])
    requires lo == Base(ctx.prog, ctx.trace, i) && hi == lo + |Ids(ctx.prog, ctx.trace[i])|
    requires Stable(ctx, hi, depth, s) && Meant(ctx, i, i + 1, s)
    ensures Meant(ctx, i, i, InstructionsDone(ctx, s, i))
  {
    hide Base, Inv, TerminatorsPassed, BlocksKnown, Heights, BlockReturnsMarked, NormalDone, AccessDone, Left, Meant,
         DepthIn;
    var b := ctx.trace[i];
    if b.typ == NormalBlock {
      NormalDoneMeant(ctx, i, lo, hi, s, b.start, depth);
    } else {
      AccessMeant(ctx, i, lo, hi, s, depth);
    }
    BeforeLeaving(ctx, i, lo, hi, s, depth);
    var s1 := if b.typ == NormalBlock then NormalDone(ctx, s, b, lo, b.start) else AccessDone(ctx, s, b, lo);
    assert KeptFrom(ctx, s1.kept, i) by { MeantKept(ctx, i, i + 1, s1); }
    KeptInBlock(ctx, i, lo, hi, s1.kept);
    LeftMeant(ctx, i, s1, lo, KeptWithin(s1.kept, lo, hi));
  }

  lemma {:induction false} MeantKept(ctx: Context, i: nat, from: nat, s: Scan)
    requires ctx.Good() && Meant(ctx, i, from, s)
    ensures KeptFrom(ctx, s.kept, i)
  {
  }

  /** A block without executions leaves no trace in the frames. */
  lemma {:induction false} NoneMeant(ctx: Context, i: nat, s: Scan)
    requires ctx.Good() && i < |ctx.trace| && !Looked(ctx, i) && Meant(ctx, i, i + 1, s)
    ensures Meant(ctx, i, i, s)
  {
    hide FunMeans, RunEntry, Looked;
    forall tid, k: nat | k < |StackOf(s.nextBB, tid)|
      ensures RunEntry(ctx, i, i, s.kept, tid, k + 1, StackOf(s.nextBB, tid)[k])
    {
      OwnFrame(ctx, i, tid, k + 1);
      NotedOther(ctx, i, s.kept, tid, k + 1, StackOf(s.nextBB, tid)[k]);
    }
  }

  lemma {:induction false} DeclareMeant(ctx: Context, i: nat, s: Scan)
    requires ctx.Good() && i < |ctx.trace| && ctx.trace[i].typ == DeclareBlock && Meant(ctx, i + 1, i + 1, s)
    requires Heights(s, DepthAt(ctx.prog, ctx.trace, i + 1))
    ensures Meant(ctx, i, i, s)
  {
    hide UsedSince, RunEntry, LevelFrom, DepthAt, Heights, Meant;
    DeclareMeantAt(ctx, i, s);
    NoneMeant(ctx, i, s);
  }

  lemma {:induction false} DeclareMeantAt(ctx: Context, i: nat, s: Scan)
    requires ctx.Good() && i < |ctx.trace| && Meant(ctx, i + 1, i + 1, s)
    requires Heights(s, DepthAt(ctx.prog, ctx.trace, i + 1))
    ensures Meant(ctx, i, i + 1, s)
  {
    hide UsedSince, RunEntry, LevelFrom, DepthAt, Heights;
    forall tid, k: nat | k < |StackOf(s.funUsed, tid)|
      ensures StackOf(s.funUsed, tid)[k] <==> UsedSince(ctx, s.kept, i, i, tid, k + 1)
    {
      HeightAt(s, DepthAt(ctx.prog, ctx.trace, i + 1), tid);
      OpenLevel(ctx, i, tid, k);
      UsedSinceStep(ctx, s.kept, i, tid, k + 1);
    }
    forall tid, k: nat | k < |StackOf(s.nextBB, tid)|
      ensures RunEntry(ctx, i, i + 1, s.kept, tid, k + 1, StackOf(s.nextBB, tid)[k])
    {
      HeightAt(s, DepthAt(ctx.prog, ctx.trace, i + 1), tid);
      OpenLevel(ctx, i, tid, k);
      RunEntryStep(ctx, s.kept, i, tid, k + 1, StackOf(s.nextBB, tid)[k]);
    }
  }

  lemma {:induction false} NothingMeant(ctx: Context, n: nat)
    requires ctx.Good()
    ensures Meant(ctx, n, n, NOTHING_YET)
  {
  }

  /** In every state of the scan the flags mean what they should. */
  lemma {:induction false} ScannedMeant(ctx: Context, n: nat)
    requires ctx.Good() && n <= |ctx.trace| && Framed(ctx.prog, ctx.trace) && ReturnsMarked(ctx.prog, ctx.trace)
    ensures Meant(ctx, n, n, Scanned(ctx, n))
    decreases |ctx.trace| - n
  {
    hide Base, Framed, ReturnsMarked, BlockDone, Meant, Stable, DepthAt, BlockReturnsMarked, Skipped;
    if n == |ctx.trace| {
      NothingMeant(ctx, n);
    } else {
      ScannedMeant(ctx, n + 1);
      ScannedStable(ctx, n + 1);
      BaseStep(ctx.prog, ctx.trace, n);
      FramedAt(ctx, n);
      MarkedAt(ctx, n);
      BlockMeant(ctx, n, Base(ctx.prog, ctx.trace, n), Base(ctx.prog, ctx.trace, n + 1), Scanned(ctx, n + 1),
                 DepthAt(ctx.prog, ctx.trace, n + 1));
    }
  }

  lemma {:induction false} BlockMeant(ctx: Context, i: nat, lo: nat, hi: nat, s: Scan, depth: Tid -> int)
    requires ctx.Good() && i < |ctx.trace| && depth == DepthAt(ctx.prog, ctx.trace, i + 1)
    requires lo == Base(ctx.prog, ctx.trace, i) && hi == lo + |Ids(ctx.prog, ctx.trace[i])|
             && BlockReturnsMarked(ctx.prog, ctx.trace[i])
    requires Looked(ctx, i) ==> Opened(ctx.trace[i], depth)(ctx.trace[i].tid) >= 1
    requires Stable(ctx, hi, depth, s) && Meant(ctx, i + 1, i + 1, s)
    ensures Meant(ctx, i, i, BlockDone(ctx, s, i))
  {
    hide Base, Meant, Inv, TerminatorsPassed, BlocksKnown, Heights, Entered, InstructionsDone, DepthAt,
         BlockReturnsMarked, Ids;
    var b := ctx.trace[i];
    if b.typ == DeclareBlock {
      DeclareMeant(ctx, i, s);
    } else {
      BaseStep(ctx.prog, ctx.trace, i);
      EnteredMeant(ctx, i, s, hi);
      if Looked(ctx, i) {
        EnteredStable(ctx, hi, s, b, depth);
        InstructionsMeant(ctx, i, lo, hi, Entered(ctx, s, hi, b), Opened(b, depth));
      } else {
        NoneMeant(ctx, i, Entered(ctx, s, hi, b));
      }
    }
  }
}
