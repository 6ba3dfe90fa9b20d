/** What the slicer's stack of terminators holds: for each frame the first terminator
    passed in it, until it is kept; and so the terminator of every used run of a block is
    kept, at once or late (tools/PrintBug/PrintBug.cpp, lines 218-236, 291-298, 339-350). */
module Terminators {
  import opened Common
  import opened Executions
  import opened Slice
  import opened SliceSound
  import opened Flags

  ghost predicate IsTerminator(ctx: Context, q: nat)
    requires ctx.Good()
  {
    && q < |ctx.E| && ctx.E[q].block < |ctx.trace| && ctx.trace[ctx.E[q].block].typ == NormalBlock
    && ctx.prog.ins[ctx.E[q].id].typ == TerminatorInst
  }

  /** Execution q is a terminator of the frame. */
  ghost predicate TerminatorIn(ctx: Context, i: nat, tid: Tid, l: int, q: nat)
    requires ctx.Good()
  {
    IsTerminator(ctx, q) && InFrame(ctx, i, ctx.E[q].block, tid, l)
  }

  /** ... and the first from position p on. */
  ghost predicate FirstIn(ctx: Context, i: nat, p: nat, tid: Tid, l: int, q: nat)
    requires ctx.Good()
  {
    p <= q && TerminatorIn(ctx, i, tid, l, q) && forall m: nat :: p <= m < q ==> !TerminatorIn(ctx, i, tid, l, m)
  }

  ghost predicate KeptDyn(ctx: Context, kept: set<nat>, d: DynamicInst) {
    exists m: nat :: m in kept && m < |ctx.E| && d == DynAt(ctx.E, m)
  }

  /** d is kept, at once or late. */
  ghost predicate Spared(ctx: Context, kept: set<nat>, retro: set<DynamicInst>, d: DynamicInst) {
    d in retro || KeptDyn(ctx, kept, d)
  }

  /** A terminator that needs a further look is the first of the frame; if the one on the
      stack needs none, the first of the frame is kept. */
  ghost predicate Settled(ctx: Context, i: nat, p: nat, kept: set<nat>, retro: set<DynamicInst>, tid: Tid, l: int,
                          t: Terminator)
    requires ctx.Good()
  {
    if t.used then
      forall q: nat :: q < |ctx.E| && FirstIn(ctx, i, p, tid, l, q) ==> Spared(ctx, kept, retro, DynAt(ctx.E, q))
    else exists q: nat :: q < |ctx.E| && FirstIn(ctx, i, p, tid, l, q) && t.dyn == DynAt(ctx.E, q)
  }

  ghost predicate AllSettled(ctx: Context, i: nat, p: nat, s: Scan)
    requires ctx.Good()
  {
    forall tid, k: nat :: k < |StackOf(s.terminators, tid)| ==>
      Settled(ctx, i, p, s.kept, s.retro, tid, k + 1, StackOf(s.terminators, tid)[k])
  }

  // ------------------------------------------------- the first of a frame

  lemma {:induction false} OnlyFirst(ctx: Context, i: nat, p: nat, tid: Tid, l: int, q: nat, r: nat)
    requires ctx.Good() && FirstIn(ctx, i, p, tid, l, q) && FirstIn(ctx, i, p, tid, l, r)
    ensures q == r
  {
    hide TerminatorIn;
  }

  /** Going on to an earlier block, before any execution of it. */
  lemma {:induction false} FirstEarlier(ctx: Context, i: nat, p: nat, tid: Tid, l: int, q: nat)
    requires ctx.Good() && i < |ctx.trace| && p == Base(ctx.prog, ctx.trace, i + 1)
    ensures FirstIn(ctx, i, p, tid, l, q) <==> LevelFrom(ctx, i + 1, tid, l) && FirstIn(ctx, i + 1, p, tid, l, q)
  {
    hide InFrame, LevelFrom, Base;
    forall m: nat | p <= m && IsTerminator(ctx, m)
      ensures TerminatorIn(ctx, i, tid, l, m) <==> LevelFrom(ctx, i + 1, tid, l) && TerminatorIn(ctx, i + 1, tid, l, m)
    {
      BlockFrom(ctx, i + 1, m);
      FrameStep(ctx, i, ctx.E[m].block, tid, l);
    }
  }

  /** Passing an execution. */
  lemma {:induction false} FirstPassing(ctx: Context, i: nat, p: nat, above: nat, tid: Tid, l: int, q: nat)
    requires ctx.Good() && above == p + 1
    ensures FirstIn(ctx, i, p, tid, l, q) <==>
              if TerminatorIn(ctx, i, tid, l, p) then q == p else FirstIn(ctx, i, above, tid, l, q)
  {
    hide TerminatorIn;
  }

  lemma {:induction false} SparedMore(ctx: Context, kept: set<nat>, kept': set<nat>, retro: set<DynamicInst>,
                                      retro': set<DynamicInst>, d: DynamicInst)
    requires kept <= kept' && retro <= retro' && Spared(ctx, kept, retro, d)
    ensures Spared(ctx, kept', retro', d)
  {
    hide DynAt;
  }

  /** An entry stays settled, as long as the first of the frame is the same. */
  lemma {:induction false} StaysSettled(ctx: Context, i: nat, p: nat, i': nat, p': nat, s: Scan, s': Scan, tid: Tid,
                                        l: int, t: Terminator)
    requires ctx.Good() && Settled(ctx, i, p, s.kept, s.retro, tid, l, t)
    requires s.kept <= s'.kept && s.retro <= s'.retro
    requires forall q: nat :: FirstIn(ctx, i', p', tid, l, q) <==> FirstIn(ctx, i, p, tid, l, q)
    ensures Settled(ctx, i', p', s'.kept, s'.retro, tid, l, t)
  {
    hide FirstIn, Spared, DynAt;
    forall q: nat | q < |ctx.E| && FirstIn(ctx, i', p', tid, l, q) && t.used
      ensures Spared(ctx, s'.kept, s'.retro, DynAt(ctx.E, q))
    {
      SparedMore(ctx, s.kept, s'.kept, s.retro, s'.retro, DynAt(ctx.E, q));
    }
  }

  // ------------------------------------------------------ keeping a terminator

  lemma {:induction false} WalkKeeps(ctx: Context, s: Scan, p: nat, dyn: DynamicInst, lastBB: Option<nat>, bb: nat,
                                     k: nat)
    ensures dyn in Walked(ctx, s, p, dyn, lastBB, bb, k).step
    decreases |BlockIds(ctx.prog, bb)| - k
  {
    hide BlockIds, Needing, Depending;
    if k < |BlockIds(ctx.prog, bb)| { WalkKeeps(ctx, s, p, dyn, lastBB, bb, k + 1); }
  }

  lemma {:induction false} TerminatorSpared(ctx: Context, s: Scan, p: nat, b: SmallestBlock, bb: nat)
    requires StackOf(s.terminators, b.tid) != []
    ensures var (s', t) := (TerminatorKept(ctx, s, p, b, bb), Top(StackOf(s.terminators, b.tid)));
            && s'.kept == s.kept && s.retro <= s'.retro && s'.terminators == s.terminators
            && (t.used || t.dyn in s'.retro)
  {
    hide Walked;
    var t := Top(StackOf(s.terminators, b.tid));
    if !t.used { WalkKeeps(ctx, s, p, t.dyn, b.lastBB, bb, 0); }
  }

  /** Once kept, the terminator of the top frame needs no further look. */
  lemma {:induction false} KeptSettled(ctx: Context, i: nat, p: nat, s: Scan, b: SmallestBlock, bb: nat, l: int,
                                       t: Terminator)
    requires ctx.Good() && StackOf(s.terminators, b.tid) != [] && t.used
    requires Settled(ctx, i, p, s.kept, s.retro, b.tid, l, Top(StackOf(s.terminators, b.tid)))
    ensures var s' := TerminatorKept(ctx, s, p, b, bb); Settled(ctx, i, p, s'.kept, s'.retro, b.tid, l, t)
  {
    hide FirstIn, TerminatorKept, KeptDyn, DynAt;
    TerminatorSpared(ctx, s, p, b, bb);
    var top := Top(StackOf(s.terminators, b.tid));
    if !top.used {
      var r: nat :| r < |ctx.E| && FirstIn(ctx, i, p, b.tid, l, r) && top.dyn == DynAt(ctx.E, r);
      forall q: nat | FirstIn(ctx, i, p, b.tid, l, q) ensures q == r { OnlyFirst(ctx, i, p, b.tid, l, q, r); }
    } else {
      StaysSettled(ctx, i, p, i, p, s, TerminatorKept(ctx, s, p, b, bb), b.tid, l, t);
    }
  }

  // ------------------------------------------------------------- one block

  lemma {:induction false} EnteredSettled(ctx: Context, i: nat, p: nat, s: Scan)
    requires ctx.Good() && i < |ctx.trace| && p == Base(ctx.prog, ctx.trace, i + 1)
    requires AllSettled(ctx, i + 1, p, s) && Heights(s, DepthAt(ctx.prog, ctx.trace, i + 1))
    ensures AllSettled(ctx, i, p, Entered(ctx, s, p, ctx.trace[i]))
  {
    hide Base, Settled, DepthAt, Heights, Entered;
    var s' := Entered(ctx, s, p, ctx.trace[i]);
    forall tid, k: nat | k < |StackOf(s'.terminators, tid)|
      ensures Settled(ctx, i, p, s'.kept, s'.retro, tid, k + 1, StackOf(s'.terminators, tid)[k])
    {
      EntrySettled(ctx, i, p, s, tid, k);
    }
  }

  /** The first terminator of a frame that was open already. */
  lemma {:induction false} SameFirst(ctx: Context, i: nat, p: nat, s: Scan, tid: Tid, k: nat, t: Terminator)
    requires ctx.Good() && i < |ctx.trace| && p == Base(ctx.prog, ctx.trace, i + 1)
    requires k < DepthAt(ctx.prog, ctx.trace, i + 1)(tid)
    requires Settled(ctx, i + 1, p, s.kept, s.retro, tid, k + 1, t)
    ensures Settled(ctx, i, p, s.kept, s.retro, tid, k + 1, t)
  {
    hide Base, Settled, DepthAt, FirstIn, LevelFrom;
    var (n, l) := (i + 1, k + 1);
    OpenLevel(ctx, i, tid, k);
    forall q: nat ensures FirstIn(ctx, i, p, tid, l, q) <==> FirstIn(ctx, n, p, tid, l, q) {
      FirstEarlier(ctx, i, p, tid, l, q);
    }
    StaysSettled(ctx, n, p, i, p, s, s, tid, l, t);
  }

  lemma {:induction false} EntrySettled(ctx: Context, i: nat, p: nat, s: Scan, tid: Tid, k: nat)
    requires ctx.Good() && i < |ctx.trace| && p == Base(ctx.prog, ctx.trace, i + 1)
    requires AllSettled(ctx, i + 1, p, s) && Heights(s, DepthAt(ctx.prog, ctx.trace, i + 1))
    requires k < |StackOf(Entered(ctx, s, p, ctx.trace[i]).terminators, tid)|
    ensures var s' := Entered(ctx, s, p, ctx.trace[i]);
            Settled(ctx, i, p, s'.kept, s'.retro, tid, k + 1, StackOf(s'.terminators, tid)[k])
  {
    hide Base, Settled, DepthAt, FirstIn, LevelFrom, TerminatorKept, Heights, Entered, InFrame;
    var b := ctx.trace[i];
    var (s', next, ts) := (Entered(ctx, s, p, b), StackOf(s.nextBB, b.tid), StackOf(s.terminators, tid));
    HeightAt(s, DepthAt(ctx.prog, ctx.trace, i + 1), tid);
    HeightAt(s, DepthAt(ctx.prog, ctx.trace, i + 1), b.tid);
    EnteredTop(ctx, p, s, b, tid);
    if k == |ts| {
      NewSettled(ctx, i, p, s'.kept, s'.retro, tid, k, StackOf(s'.terminators, tid)[k]);
    } else {
      SameFirst(ctx, i, p, s, tid, k, ts[k]);
      if RunOver(s, b) {
        TerminatorSpared(ctx, s, p, b, Top(next).0);
        if tid == b.tid && k == |ts| - 1 {
          KeptSettled(ctx, i, p, s, b, Top(next).0, k + 1, StackOf(s'.terminators, tid)[k]);
        } else {
          StaysSettled(ctx, i, p, i, p, s, s', tid, k + 1, ts[k]);
        }
      }
    }
  }

  ghost predicate RunOver(s: Scan, b: SmallestBlock) {
    var next := StackOf(s.nextBB, b.tid);
    b.isLast == 0 && next != [] && Top(next).0 != b.bb && Top(next).1
  }

  lemma {:induction false} EnteredTop(ctx: Context, p: nat, s: Scan, b: SmallestBlock, tid: Tid)
    requires RunOver(s, b) ==> StackOf(s.terminators, b.tid) != []
    ensures var (s', ts) := (Entered(ctx, s, p, b), StackOf(s.terminators, tid));
            var ts' := StackOf(s'.terminators, tid);
            && (if b.isLast > 0 && tid == b.tid then |ts'| == |ts| + 1 && Top(ts').used else |ts'| == |ts|)
            && (forall k: nat :: k < |ts| && !(RunOver(s, b) && tid == b.tid && k == |ts| - 1) ==> ts'[k] == ts[k])
            && (RunOver(s, b) && tid == b.tid ==> Top(ts').used)
            && (var s1 := if RunOver(s, b) then TerminatorKept(ctx, s, p, b, Top(StackOf(s.nextBB, b.tid)).0) else s;
                s'.kept == s1.kept && s'.retro == s1.retro)
  {
    hide TerminatorKept;
    if RunOver(s, b) { TerminatorSpared(ctx, s, p, b, Top(StackOf(s.nextBB, b.tid)).0); }
  }

  lemma {:induction false} NewSettled(ctx: Context, i: nat, p: nat, kept: set<nat>, retro: set<DynamicInst>, tid: Tid,
                                      k: nat, t: Terminator)
    requires ctx.Good() && i < |ctx.trace| && p == Base(ctx.prog, ctx.trace, i + 1) && t.used
    requires k == DepthAt(ctx.prog, ctx.trace, i + 1)(tid)
    ensures Settled(ctx, i, p, kept, retro, tid, k + 1, t)
  {
    hide Base, DepthAt, FirstIn, LevelFrom;
    var l := k + 1;
    OpenLevel(ctx, i, tid, k);
    forall q: nat ensures !FirstIn(ctx, i, p, tid, l, q) { FirstEarlier(ctx, i, p, tid, l, q); }
  }

  /** An execution that is no terminator is passed. */
  lemma {:induction false} PassingSettled(ctx: Context, i: nat, p: nat, above: nat, s: Scan, s': Scan)
    requires ctx.Good() && above == p + 1 && AllSettled(ctx, i, above, s) && !IsTerminator(ctx, p)
    requires s'.terminators == s.terminators && s.kept <= s'.kept && s.retro <= s'.retro
    ensures AllSettled(ctx, i, p, s')
  {
    hide Settled, FirstIn, IsTerminator;
    forall tid, k: nat | k < |StackOf(s'.terminators, tid)|
      ensures Settled(ctx, i, p, s'.kept, s'.retro, tid, k + 1, StackOf(s'.terminators, tid)[k])
    {
      var l := k + 1;
      forall q: nat ensures FirstIn(ctx, i, p, tid, l, q) <==> FirstIn(ctx, i, above, tid, l, q) {
        FirstPassing(ctx, i, p, above, tid, l, q);
      }
      StaysSettled(ctx, i, above, i, p, s, s', tid, l, StackOf(s.terminators, tid)[k]);
    }
  }

  /** A terminator is passed, and put on top of the stack. */
  lemma {:induction false} PlacedSettled(ctx: Context, i: nat, p: nat, above: nat, s: Scan, s': Scan, isNeeded: bool)
    requires ctx.Good() && i < |ctx.trace| && Looked(ctx, i) && IsTerminator(ctx, p) && ctx.E[p].block == i
    requires above == p + 1 && AllSettled(ctx, i, above, s) && Heights(s, DepthIn(ctx, i))
    requires var b := ctx.trace[i];
             s'.terminators == Placed(s.terminators, b.tid, Terminator(b.bb, DynAt(ctx.E, p), isNeeded))
    requires s'.kept == (if isNeeded then s.kept + {p} else s.kept) && s'.retro == s.retro
    ensures AllSettled(ctx, i, p, s')
  {
    hide Settled, FirstIn, Heights, DepthIn, InFrame, Looked, Level, DynAt;
    var b := ctx.trace[i];
    forall tid, k: nat | k < |StackOf(s'.terminators, tid)|
      ensures Settled(ctx, i, p, s'.kept, s'.retro, tid, k + 1, StackOf(s'.terminators, tid)[k])
    {
      HeightAt(s, DepthIn(ctx, i), tid);
      OwnLevel(ctx, i, tid);
      var l := k + 1;
      OwnFrame(ctx, i, tid, l);
      forall q: nat
        ensures FirstIn(ctx, i, p, tid, l, q) <==>
                  if InFrame(ctx, i, i, tid, l) then q == p else FirstIn(ctx, i, above, tid, l, q)
      {
        FirstPassing(ctx, i, p, above, tid, l, q);
      }
      if InFrame(ctx, i, i, tid, l) {
        assert k == |StackOf(s.terminators, tid)| - 1;
        JustSettled(ctx, i, p, s'.kept, s'.retro, tid, l, StackOf(s'.terminators, tid)[k]);
      } else {
        StaysSettled(ctx, i, above, i, p, s, s', tid, l, StackOf(s.terminators, tid)[k]);
      }
    }
  }

  lemma {:induction false} JustSettled(ctx: Context, i: nat, p: nat, kept: set<nat>, retro: set<DynamicInst>, tid: Tid,
                                       l: int, t: Terminator)
    requires ctx.Good() && p < |ctx.E| && t.dyn == DynAt(ctx.E, p) && (t.used ==> p in kept)
    requires forall q: nat :: FirstIn(ctx, i, p, tid, l, q) <==> q == p
    ensures Settled(ctx, i, p, kept, retro, tid, l, t)
  {
    hide FirstIn, DynAt;
  }

  lemma {:induction false} OwnLevel(ctx: Context, i: nat, tid: Tid)
    requires ctx.Good() && i < |ctx.trace|
    ensures tid == ctx.trace[i].tid ==> Level(ctx, i) == DepthIn(ctx, i)(tid)
  {
  }

  lemma {:induction false} NormalStepSettled(ctx: Context, i: nat, p: nat, above: nat, s: Scan, b: SmallestBlock,
                                             id: nat, depth: Tid -> int)
    requires ctx.Good() && i < |ctx.trace| && Looked(ctx, i) && depth == DepthIn(ctx, i) && b == ctx.trace[i]
    requires above == p + 1 && Stable(ctx, above, depth, s) && InNormal(ctx, p, b, id) && ctx.E[p].block == i
    requires AllSettled(ctx, i, above, s)
    ensures AllSettled(ctx, i, p, NormalStep(ctx, s, b, id, p))
  {
    hide AllSettled, CountsAt, AllWait, Reported, TerminatorsPassed, BlocksKnown, DepthIn, Heights, NormalNeeded,
         DynAt, Looked, Placed, Needing, Depending, Marked;
    NumberedAt(ctx.E, p, above, s);
    var s' := NormalStep(ctx, s, b, id, p);
    if ctx.prog.ins[id].typ == TerminatorInst {
      PlacedSettled(ctx, i, p, above, s, s', NormalNeeded(ctx, s, b, Numbered(s, b.tid, id)));
    } else {
      PassingSettled(ctx, i, p, above, s, s');
    }
  }

  lemma {:induction false} NormalDoneSettled(ctx: Context, i: nat, lo: nat, hi: nat, s: Scan, k: nat,
                                             depth: Tid -> int)
    requires ctx.Good() && i < |ctx.trace| && Looked(ctx, i) && depth == DepthIn(ctx, i)
    requires ctx.trace[i].typ == NormalBlock && BlockReturnsMarked(ctx.prog, ctx.trace[i])
    requires ctx.trace[i].start <= k <= ctx.trace[i].end
    requires lo == Base(ctx.prog, ctx.trace, i) && hi == lo + (ctx.trace[i].end - ctx.trace[i].start)
    requires Stable(ctx, hi, depth, s) && AllSettled(ctx, i, hi, s)
    ensures AllSettled(ctx, i, lo + (k - ctx.trace[i].start), NormalDone(ctx, s, ctx.trace[i], lo, k))
    decreases ctx.trace[i].end - k
  {
    hide Base, Stable, NormalStep, AllSettled, DepthIn, Looked;
    var b := ctx.trace[i];
    if k < b.end {
      NormalDoneSettled(ctx, i, lo, hi, s, k + 1, depth);
      NormalDoneStable(ctx, i, lo, hi, s, k + 1, depth);
      var (p, above) := (lo + (k - b.start), lo + (k + 1 - b.start));
      NormalExec(ctx, i, k, p);
      NormalStepSettled(ctx, i, p, above, NormalDone(ctx, s, b, lo, k + 1), b, ctx.prog.bb2ins[b.bb][k], depth);
    }
  }

  /** Passing a block keeps nothing late. */
  lemma {:induction false} AccessLate(ctx: Context, s: Scan, b: SmallestBlock, lo: nat)
    requires IsAccess(b) && GoodBlock(ctx.prog, b)
    ensures var s' := AccessDone(ctx, s, b, lo);
            s'.terminators == s.terminators && s.kept <= s'.kept && s'.retro == s.retro && s'.late == s.late
  {
    var d := Numbered(s, b.tid, ctx.prog.bb2ins[b.bb][b.start]);
    var isNeeded := AccessNeeded(s, b, d);
    hide AccessNeeded, Needing, Depending, Marked, Recorded, Numbered, Touches;
    PassingKept(ctx, s, lo, d, b.lastBB, isNeeded, true);
  }

  lemma {:induction false} StepLate(ctx: Context, s: Scan, b: SmallestBlock, id: nat, p: nat)
    requires id < |ctx.prog.ins|
    ensures var s' := NormalStep(ctx, s, b, id, p); s.kept <= s'.kept && s'.retro == s.retro && s'.late == s.late
  {
    hide Passing, Placed, NormalNeeded;
    var d := Numbered(s, b.tid, id);
    var isNeeded := NormalNeeded(ctx, s, b, d);
    var info := ctx.prog.ins[id];
    var t := Terminator(b.bb, d, isNeeded);
    var s1 := if info.typ == TerminatorInst then s.(terminators := Placed(s.terminators, b.tid, t)) else s;
    PassingKept(ctx, s1, p, d, b.lastBB, isNeeded, !(info.typ == TerminatorInst && |info.successors| <= 1));
  }

  lemma {:induction false} NormalLate(ctx: Context, s: Scan, b: SmallestBlock, lo: nat, k: nat)
    requires b.typ == NormalBlock && GoodProgram(ctx.prog) && GoodBlock(ctx.prog, b) && b.start <= k <= b.end
    ensures var s' := NormalDone(ctx, s, b, lo, k); s.kept <= s'.kept && s'.retro == s.retro && s'.late == s.late
    decreases b.end - k
  {
    hide NormalStep;
    if k < b.end {
      NormalLate(ctx, s, b, lo, k + 1);
      StepLate(ctx, NormalDone(ctx, s, b, lo, k + 1), b, ctx.prog.bb2ins[b.bb][k], lo + (k - b.start));
    }
  }

  lemma {:induction false} AccessSettled(ctx: Context, i: nat, lo: nat, hi: nat, s: Scan)
    requires ctx.Good() && i < |ctx.trace| && Looked(ctx, i) && IsAccess(ctx.trace[i])
    requires lo == Base(ctx.prog, ctx.trace, i) && hi == lo + 1 && AllSettled(ctx, i, hi, s)
    ensures AllSettled(ctx, i, lo, AccessDone(ctx, s, ctx.trace[i], lo))
  {
    hide Base, AllSettled, AccessDone;
    AccessExec(ctx, i, lo);
    AccessLate(ctx, s, ctx.trace[i], lo);
    PassingSettled(ctx, i, lo, hi, s, AccessDone(ctx, s, ctx.trace[i], lo));
  }

  /** The instructions of a block are passed. */
  lemma {:induction false} PassedSettled(ctx: Context, i: nat, lo: nat, hi: nat, s: Scan, depth: Tid -> int)
    requires ctx.Good() && i < |ctx.trace| && Looked(ctx, i) && depth == DepthIn(ctx, i)
    requires BlockReturnsMarked(ctx.prog, ctx.trace[i])
    requires lo == Base(ctx.prog, ctx.trace, i) && hi == lo + |Ids(ctx.prog, ctx.trace[i])|
    requires Stable(ctx, hi, depth, s) && AllSettled(ctx, i, hi, s)
    ensures AllSettled(ctx, i, lo, PassedOver(ctx, s, i))
  {
    hide Base, Stable, BlockReturnsMarked, NormalDone, AccessDone, AllSettled, DepthIn;
    var b := ctx.trace[i];
    if b.typ == NormalBlock {
      NormalDoneSettled(ctx, i, lo, hi, s, b.start, depth);
    } else {
      AccessSettled(ctx, i, lo, hi, s);
    }
  }

  /** The state when the instructions of block i have been passed. */
  ghost function PassedOver(ctx: Context, s: Scan, i: nat): Scan
    requires ctx.Good() && Looked(ctx, i)
  {
    var (b, lo) := (ctx.trace[i], Base(ctx.prog, ctx.trace, i));
    if b.typ == NormalBlock then NormalDone(ctx, s, b, lo, b.start) else AccessDone(ctx, s, b, lo)
  }

  lemma {:induction false} LeftSettled(ctx: Context, i: nat, lo: nat, s: Scan, used: bool)
    requires ctx.Good() && i < |ctx.trace| && AllSettled(ctx, i, lo, s)
    requires StackOf(s.terminators, ctx.trace[i].tid) != []
    ensures AllSettled(ctx, i, lo, Left(ctx, s, lo, ctx.trace[i], used))
  {
    hide Settled, TerminatorKept, Noted, Popped;
    var b := ctx.trace[i];
    var s1 := s.(nextBB := Noted(s.nextBB, b, used));
    var s2 := CallerNeeded(s1, b);
    var s' := Left(ctx, s, lo, b, used);
    TerminatorSpared(ctx, s2, lo, b, b.bb);
    forall tid, k: nat | k < |StackOf(s'.terminators, tid)|
      ensures Settled(ctx, i, lo, s'.kept, s'.retro, tid, k + 1, StackOf(s'.terminators, tid)[k])
    {
      if b.isFirst > 0 { PoppedAt(s.terminators, b.tid, tid, k); }
      StaysSettled(ctx, i, lo, i, lo, s, s', tid, k + 1, StackOf(s.terminators, tid)[k]);
    }
  }

  lemma {:induction false} BlockSettled(ctx: Context, i: nat, lo: nat, hi: nat, s: Scan, depth: Tid -> int)
    requires ctx.Good() && i < |ctx.trace| && depth == DepthAt(ctx.prog, ctx.trace, i + 1)
    requires lo == Base(ctx.prog, ctx.trace, i) && hi == Base(ctx.prog, ctx.trace, i + 1)
    requires BlockReturnsMarked(ctx.prog, ctx.trace[i])
    requires Looked(ctx, i) ==> Opened(ctx.trace[i], depth)(ctx.trace[i].tid) >= 1
    requires Stable(ctx, hi, depth, s) && AllSettled(ctx, i + 1, hi, s)
    ensures AllSettled(ctx, i, lo, BlockDone(ctx, s, i))
  {
    hide Base, Inv, TerminatorsPassed, BlocksKnown, Heights, Entered, DepthAt, BlockReturnsMarked, AllSettled,
         NormalDone, AccessDone, Left;
    var b := ctx.trace[i];
    BaseStep(ctx.prog, ctx.trace, i);
    if b.typ == DeclareBlock {
      DeclareSettled(ctx, i, hi, s);
    } else {
      EnteredSettled(ctx, i, hi, s);
      if Looked(ctx, i) {
        var s1 := Entered(ctx, s, hi, b);
        EnteredStable(ctx, hi, s, b, depth);
        PassedSettled(ctx, i, lo, hi, s1, Opened(b, depth));
        BeforeLeaving(ctx, i, lo, hi, s1, Opened(b, depth));
        var s2 := PassedOver(ctx, s1, i);
        HeightAt(s2, Opened(b, depth), b.tid);
        LeftSettled(ctx, i, lo, s2, KeptWithin(s2.kept, lo, lo + |Ids(ctx.prog, b)|));
      }
    }
  }

  lemma {:induction false} DeclareSettled(ctx: Context, i: nat, p: nat, s: Scan)
    requires ctx.Good() && i < |ctx.trace| && p == Base(ctx.prog, ctx.trace, i + 1)
    requires AllSettled(ctx, i + 1, p, s) && Heights(s, DepthAt(ctx.prog, ctx.trace, i + 1))
    ensures AllSettled(ctx, i, p, s)
  {
    hide Base, Settled, DepthAt, Heights;
    forall tid, k: nat | k < |StackOf(s.terminators, tid)|
      ensures Settled(ctx, i, p, s.kept, s.retro, tid, k + 1, StackOf(s.terminators, tid)[k])
    {
      HeightAt(s, DepthAt(ctx.prog, ctx.trace, i + 1), tid);
      SameFirst(ctx, i, p, s, tid, k, StackOf(s.terminators, tid)[k]);
    }
  }

  /** Whatever needs a further look is the first terminator of its frame. */
  lemma {:induction false} ScannedSettled(ctx: Context, n: nat)
    requires ctx.Good() && n <= |ctx.trace| && Framed(ctx.prog, ctx.trace) && ReturnsMarked(ctx.prog, ctx.trace)
    ensures AllSettled(ctx, n, Base(ctx.prog, ctx.trace, n), Scanned(ctx, n))
    decreases |ctx.trace| - n
  {
    hide Base, Framed, ReturnsMarked, BlockDone, Settled, Stable, DepthAt, BlockReturnsMarked, Skipped;
    if n < |ctx.trace| {
      ScannedSettled(ctx, n + 1);
      ScannedStable(ctx, n + 1);
      FramedAt(ctx, n);
      MarkedAt(ctx, n);
      BlockSettled(ctx, n, Base(ctx.prog, ctx.trace, n), Base(ctx.prog, ctx.trace, n + 1), Scanned(ctx, n + 1),
                   DepthAt(ctx.prog, ctx.trace, n + 1));
    }
  }
}
