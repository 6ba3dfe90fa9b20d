/** Which terminators are kept late: exactly the first of each used run of a basic block
    (tools/PrintBug/PrintBug.cpp, lines 218-236, 339-346). In a loop of a single block that
    is the first round's only. */
module RunEnds {
  import opened Common
  import opened Executions
  import opened Slice
  import opened SliceSound
  import opened Flags
  import opened Terminators
  import opened Reasons
  import opened LateKept
  import opened Visits

  // --------------------------------------------------- what is kept stays kept

  ghost predicate Grows(s: Scan, s': Scan) { s.kept <= s'.kept && s.retro <= s'.retro }

  lemma {:induction false} EnteredGrows(ctx: Context, s: Scan, p: nat, b: SmallestBlock)
    ensures Grows(s, Entered(ctx, s, p, b))
  {
    hide TerminatorKept, Placed, Pushed;
    var next := StackOf(s.nextBB, b.tid);
    if next != [] { KeptGrows(ctx, s, p, b, Top(next).0); }
  }

  lemma {:induction false} KeptGrows(ctx: Context, s: Scan, p: nat, b: SmallestBlock, bb: nat)
    ensures Grows(s, TerminatorKept(ctx, s, p, b, bb))
  {
    hide Walked;
  }

  lemma {:induction false} LeftGrows(ctx: Context, s: Scan, p: nat, b: SmallestBlock, used: bool)
    ensures Grows(s, Left(ctx, s, p, b, used))
  {
    hide TerminatorKept, Noted, Popped;
    KeptGrows(ctx, CallerNeeded(s.(nextBB := Noted(s.nextBB, b, used)), b), p, b, b.bb);
  }

  /** The rest of a block's round keeps what entering it has kept. */
  lemma {:induction false} AfterEntering(ctx: Context, y: nat, i: nat)
    requires ctx.Good() && i == y + 1 <= |ctx.trace| && ctx.trace[y].typ != DeclareBlock
    ensures Grows(Entered(ctx, Scanned(ctx, i), Base(ctx.prog, ctx.trace, i), ctx.trace[y]), Scanned(ctx, y))
  {
    hide Base, Entered, NormalDone, AccessDone, Left;
    var (b, s) := (ctx.trace[y], Scanned(ctx, i));
    var (lo, hi) := (Base(ctx.prog, ctx.trace, y), Base(ctx.prog, ctx.trace, i));
    var s1 := Entered(ctx, s, hi, b);
    if Looked(ctx, y) {
      if b.typ == NormalBlock { NormalLate(ctx, s1, b, lo, b.start); } else { AccessLate(ctx, s1, b, lo); }
      var s2 := PassedOver(ctx, s1, y);
      LeftGrows(ctx, s2, lo, b, KeptWithin(s2.kept, lo, lo + |Ids(ctx.prog, b)|));
    }
  }

  lemma {:induction false} StepGrows(ctx: Context, n: nat)
    requires ctx.Good() && n < |ctx.trace| && Framed(ctx.prog, ctx.trace) && ReturnsMarked(ctx.prog, ctx.trace)
    ensures Grows(Scanned(ctx, n + 1), Scanned(ctx, n))
    ensures NewBelow(Scanned(ctx, n + 1).kept, Scanned(ctx, n).kept, Base(ctx.prog, ctx.trace, n + 1))
  {
    hide Base, Framed, ReturnsMarked, Stable, Entered, InstructionsDone;
    ScannedStable(ctx, n + 1);
    var (b, s) := (ctx.trace[n], Scanned(ctx, n + 1));
    BlockStable(ctx, n, n + 1, s);
    if b.typ != DeclareBlock {
      EnteredGrows(ctx, s, Base(ctx.prog, ctx.trace, n + 1), b);
      AfterEntering(ctx, n, n + 1);
    }
  }

  /** What is kept at block i is kept at the end, and nothing more of the blocks from i on
      is. */
  lemma {:induction false} ScannedGrows(ctx: Context, n: nat, i: nat)
    requires ctx.Good() && n <= i <= |ctx.trace| && Framed(ctx.prog, ctx.trace) && ReturnsMarked(ctx.prog, ctx.trace)
    ensures Grows(Scanned(ctx, i), Scanned(ctx, n))
    ensures NewBelow(Scanned(ctx, i).kept, Scanned(ctx, n).kept, Base(ctx.prog, ctx.trace, i))
    decreases i - n
  {
    hide Base, Framed, ReturnsMarked, Scanned;
    if n < i {
      ScannedGrows(ctx, n + 1, i);
      StepGrows(ctx, n);
      BaseMono(ctx.prog, ctx.trace, n + 1, i);
    }
  }

  /** Whether a run is used can be told when the scan has come to its beginning. */
  lemma {:induction false} UsedEarly(ctx: Context, i: nat, kept: set<nat>, kept': set<nat>, tid: Tid, l: int, bb: nat)
    requires ctx.Good() && i <= |ctx.trace| && NewBelow(kept, kept', Base(ctx.prog, ctx.trace, i))
    requires RunUsed(ctx, kept', i, i, tid, l, bb)
    ensures RunUsed(ctx, kept, i, i, tid, l, bb)
  {
    hide Base, InFrame;
    var m: nat :| m in kept' && m < |ctx.E| && RunReaches(ctx, i, i, tid, l, bb, ctx.E[m].block);
    BlockFrom(ctx, i, m);
  }

  // ------------------------------------------- a used run's terminator is kept

  lemma {:induction false} RunBlock(ctx: Context, i: nat, tid: Tid, l: int, next: nat, bb: nat, j: nat)
    requires ctx.Good() && RunIs(ctx, i, i, tid, l, next) && RunReaches(ctx, i, i, tid, l, bb, j)
    ensures next == bb
  {
    hide InFrame;
    var x := FirstInFrame(ctx, i, i, j, tid, l);
  }

  /** The entry of a used run says so. */
  lemma {:induction false} EntryUsed(ctx: Context, i: nat, kept: set<nat>, tid: Tid, l: int, e: (nat, bool), bb: nat)
    requires ctx.Good() && RunEntry(ctx, i, i, kept, tid, l, e) && RunUsed(ctx, kept, i, i, tid, l, bb)
    ensures e == (bb, true)
  {
    hide RunIs, RunReaches;
    var m: nat :| m in kept && m < |ctx.E| && RunReaches(ctx, i, i, tid, l, bb, ctx.E[m].block);
    RunBlock(ctx, i, tid, l, e.0, bb, ctx.E[m].block);
  }

  /** When the terminator on top has been kept, the first of the frame is kept. */
  lemma {:induction false} TopSpared(ctx: Context, i: nat, p: nat, s: Scan, b: SmallestBlock, bb: nat, q: nat)
    requires ctx.Good() && AllSettled(ctx, i, p, s) && StackOf(s.terminators, b.tid) != []
    requires q < |ctx.E| && FirstIn(ctx, i, p, b.tid, |StackOf(s.terminators, b.tid)|, q)
    ensures var s' := TerminatorKept(ctx, s, p, b, bb); Spared(ctx, s'.kept, s'.retro, DynAt(ctx.E, q))
  {
    hide FirstIn, TerminatorKept, Spared, DynAt;
    var l := |StackOf(s.terminators, b.tid)|;
    KeptSettled(ctx, i, p, s, b, bb, l, Terminator(bb, NO_TERMINATOR, true));
  }

  /** The run comes after a block of another basic block. */
  lemma {:induction false} SparedEntering(ctx: Context, i: nat, y: nat, l: int, bb: nat, q: nat)
    requires ctx.Good() && Framed(ctx.prog, ctx.trace) && ReturnsMarked(ctx.prog, ctx.trace)
    requires i == y + 1 <= |ctx.trace| && ctx.trace[y].typ != DeclareBlock && ctx.trace[y].isLast == 0
    requires Level(ctx, y) == l && ctx.trace[y].bb != bb && q < |ctx.E|
    requires RunUsed(ctx, Scanned(ctx, i).kept, i, i, ctx.trace[y].tid, l, bb)
    requires FirstIn(ctx, i, Base(ctx.prog, ctx.trace, i), ctx.trace[y].tid, l, q)
    ensures Spared(ctx, Scanned(ctx, y).kept, Scanned(ctx, y).retro, DynAt(ctx.E, q))
  {
    hide Base, Framed, ReturnsMarked, FunMeans, RunEntry, AllSettled, Inv, TerminatorsPassed, BlocksKnown, Heights,
         Left, FirstIn, RunUsed, Spared, DynAt, TerminatorKept, NormalDone, AccessDone, DepthAt, Scanned;
    var (b, s, p) := (ctx.trace[y], Scanned(ctx, i), Base(ctx.prog, ctx.trace, i));
    ScannedStable(ctx, i);
    ScannedMeant(ctx, i);
    ScannedSettled(ctx, i);
    HeightAt(s, DepthAt(ctx.prog, ctx.trace, i), b.tid);
    OpenHeight(ctx, i, y, l, q);
    var k: nat := l - 1;
    EntryUsed(ctx, i, s.kept, b.tid, l, StackOf(s.nextBB, b.tid)[k], bb);
    TopSpared(ctx, i, p, s, b, bb, q);
    AfterEntering(ctx, y, i);
    EnteredSpares(ctx, s, p, b, DynAt(ctx.E, q));
    var (s1, s2) := (Entered(ctx, s, p, b), Scanned(ctx, y));
    SparedMore(ctx, s1.kept, s2.kept, s1.retro, s2.retro, DynAt(ctx.E, q));
  }

  lemma {:induction false} OpenHeight(ctx: Context, i: nat, y: nat, l: int, q: nat)
    requires ctx.Good() && Framed(ctx.prog, ctx.trace) && i == y + 1 <= |ctx.trace| && Level(ctx, y) == l
    requires ctx.trace[y].isLast == 0 && q < |ctx.E|
    requires FirstIn(ctx, i, Base(ctx.prog, ctx.trace, i), ctx.trace[y].tid, l, q)
    ensures l == DepthAt(ctx.prog, ctx.trace, i)(ctx.trace[y].tid) >= 1
  {
    hide Base, Framed, LevelFrom;
    FramedAt(ctx, ctx.E[q].block);
  }

  lemma {:induction false} EnteredSpares(ctx: Context, s: Scan, p: nat, b: SmallestBlock, d: DynamicInst)
    requires RunOver(s, b)
    requires var s' := TerminatorKept(ctx, s, p, b, Top(StackOf(s.nextBB, b.tid)).0); Spared(ctx, s'.kept, s'.retro, d)
    ensures Spared(ctx, Entered(ctx, s, p, b).kept, Entered(ctx, s, p, b).retro, d)
  {
    hide TerminatorKept, Placed, KeptDyn;
  }

  /** The run begins its frame. */
  lemma {:induction false} SparedLeaving(ctx: Context, i: nat, q: nat)
    requires ctx.Good() && Framed(ctx.prog, ctx.trace) && ReturnsMarked(ctx.prog, ctx.trace)
    requires i < |ctx.trace| && Looked(ctx, i) && ctx.trace[i].isFirst > 0 && q < |ctx.E|
    requires RunUsed(ctx, Scanned(ctx, i).kept, i, i, ctx.trace[i].tid, Level(ctx, i), ctx.trace[i].bb)
    requires FirstIn(ctx, i, Base(ctx.prog, ctx.trace, i), ctx.trace[i].tid, Level(ctx, i), q)
    ensures Spared(ctx, Scanned(ctx, i).kept, Scanned(ctx, i).retro, DynAt(ctx.E, q))
  {
    hide Base, Framed, ReturnsMarked, Meant, AllSettled, Stable, Entered, FirstIn, RunUsed, Spared, DynAt, NormalDone,
         AccessDone, DepthAt, Left, Skipped, BlockReturnsMarked, InstructionsDone, Level;
    var (b, s, n) := (ctx.trace[i], Scanned(ctx, i + 1), i + 1);
    var (lo, hi) := (Base(ctx.prog, ctx.trace, i), Base(ctx.prog, ctx.trace, n));
    var depth := DepthAt(ctx.prog, ctx.trace, n);
    ScannedStable(ctx, n);
    ScannedMeant(ctx, n);
    ScannedSettled(ctx, n);
    FramedAt(ctx, i);
    MarkedAt(ctx, i);
    LookedKnown(ctx, i);
    BaseStep(ctx.prog, ctx.trace, i);
    StableHeights(ctx, hi, depth, s);
    EnteredStable(ctx, hi, s, b, depth);
    EnteredMeant(ctx, i, s, hi);
    EnteredSettled(ctx, i, hi, s);
    LeavingSpares(ctx, i, lo, hi, Entered(ctx, s, hi, b), q);
  }

  lemma {:induction false} StableHeights(ctx: Context, p: nat, depth: Tid -> int, s: Scan)
    requires Stable(ctx, p, depth, s)
    ensures Heights(s, depth)
  {
  }

  lemma {:induction false} LeavingSpares(ctx: Context, i: nat, lo: nat, hi: nat, s: Scan, q: nat)
    requires ctx.Good() && i < |ctx.trace| && Looked(ctx, i) && ctx.trace[i].isFirst > 0
    requires BlockReturnsMarked(ctx.prog, ctx.trace[i])
    requires lo == Base(ctx.prog, ctx.trace, i) && hi == lo + |Ids(ctx.prog, ctx.trace[i])| && q < |ctx.E|
    requires Stable(ctx, hi, DepthIn(ctx, i), s) && Meant(ctx, i, i + 1, s) && AllSettled(ctx, i, hi, s)
    requires DepthIn(ctx, i)(ctx.trace[i].tid) >= 1
    requires RunUsed(ctx, InstructionsDone(ctx, s, i).kept, i, i, ctx.trace[i].tid, Level(ctx, i), ctx.trace[i].bb)
    requires FirstIn(ctx, i, lo, ctx.trace[i].tid, Level(ctx, i), q)
    ensures var s' := InstructionsDone(ctx, s, i); Spared(ctx, s'.kept, s'.retro, DynAt(ctx.E, q))
  {
    hide Base, Meant, AllSettled, Stable, FirstIn, RunUsed, Spared, DynAt, NormalDone, AccessDone, DepthIn, Left,
         Level, BlockReturnsMarked;
    var (b, depth) := (ctx.trace[i], DepthIn(ctx, i));
    if b.typ == NormalBlock {
      NormalDoneMeant(ctx, i, lo, hi, s, b.start, depth);
    } else {
      AccessMeant(ctx, i, lo, hi, s, depth);
    }
    BeforeLeaving(ctx, i, lo, hi, s, depth);
    PassedSettled(ctx, i, lo, hi, s, depth);
    var s1 := PassedOver(ctx, s, i);
    MeantKept(ctx, i, i + 1, s1);
    KeptInBlock(ctx, i, lo, hi, s1.kept);
    StableHeights(ctx, lo, depth, s1);
    LeftKept(ctx, s1, lo, b, KeptWithin(s1.kept, lo, hi));
    LeftSpares(ctx, i, lo, s1, KeptWithin(s1.kept, lo, hi), q);
  }

  lemma {:induction false} LeftSpares(ctx: Context, i: nat, lo: nat, s: Scan, used: bool, q: nat)
    requires ctx.Good() && i < |ctx.trace| && Looked(ctx, i) && ctx.trace[i].isFirst > 0
    requires lo == Base(ctx.prog, ctx.trace, i)
    requires Heights(s, DepthIn(ctx, i)) && Meant(ctx, i, i + 1, s) && AllSettled(ctx, i, lo, s)
    requires DepthIn(ctx, i)(ctx.trace[i].tid) >= 1 && q < |ctx.E|
    requires used <==> exists m: nat :: m in s.kept && ctx.E[m].block == i
    requires RunUsed(ctx, s.kept, i, i, ctx.trace[i].tid, Level(ctx, i), ctx.trace[i].bb)
    requires FirstIn(ctx, i, lo, ctx.trace[i].tid, Level(ctx, i), q)
    ensures var s' := Left(ctx, s, lo, ctx.trace[i], used); Spared(ctx, s'.kept, s'.retro, DynAt(ctx.E, q))
  {
    hide Base, FunMeans, RunEntry, AllSettled, FirstIn, RunUsed, KeptDyn, DynAt, DepthIn, Level, Noted, Heights,
         TerminatorKept, Popped, Looked;
    var b := ctx.trace[i];
    var l := Level(ctx, i);
    NotedMeant(ctx, i, s, used);
    OwnLevel(ctx, i, b.tid);
    var s1 := s.(nextBB := Noted(s.nextBB, b, used));
    HeightAt(s, DepthIn(ctx, i), b.tid);
    NotedHeight(s, b, used);
    var k: nat := l - 1;
    EntryUsed(ctx, i, s.kept, b.tid, l, StackOf(s1.nextBB, b.tid)[k], b.bb);
    CallerSettled(ctx, i, lo, s, b, used);
    TopSpared(ctx, i, lo, CallerNeeded(s1, b), b, b.bb, q);
  }

  lemma {:induction false} NotedHeight(s: Scan, b: SmallestBlock, used: bool)
    ensures |StackOf(Noted(s.nextBB, b, used), b.tid)| == |StackOf(s.nextBB, b.tid)|
  {
  }

  /** The terminator of every used run is kept, at once or late. */
  lemma {:induction false} UsedEndKept(ctx: Context, i: nat, tid: Tid, l: int, bb: nat, q: nat)
    requires ctx.Good() && Framed(ctx.prog, ctx.trace) && ReturnsMarked(ctx.prog, ctx.trace)
    requires q < |ctx.E| && EndsUsed(ctx, Scanned(ctx, 0).kept, i, tid, l, bb, q)
    ensures Spared(ctx, Scanned(ctx, 0).kept, Scanned(ctx, 0).retro, DynAt(ctx.E, q))
  {
    hide Base, Framed, ReturnsMarked, Scanned, FirstIn, RunUsed, Spared, DynAt, Skipped, Level;
    var s := Scanned(ctx, 0);
    ScannedGrows(ctx, 0, i);
    UsedEarly(ctx, i, Scanned(ctx, i).kept, s.kept, tid, l, bb);
    if i < |ctx.trace| && Looked(ctx, i) && ctx.trace[i].isFirst > 0 && ctx.trace[i].tid == tid
       && Level(ctx, i) == l && ctx.trace[i].bb == bb {
      SparedLeaving(ctx, i, q);
      SparedMore(ctx, Scanned(ctx, i).kept, s.kept, Scanned(ctx, i).retro, s.retro, DynAt(ctx.E, q));
    } else {
      var y := i - 1;
      SparedEntering(ctx, i, y, l, bb, q);
      ScannedGrows(ctx, 0, y);
      SparedMore(ctx, Scanned(ctx, y).kept, s.kept, Scanned(ctx, y).retro, s.retro, DynAt(ctx.E, q));
    }
  }

  // ------------------------------------------ exactly which terminators are kept

  ghost predicate EndsSome(ctx: Context, kept: set<nat>, q: nat)
    requires ctx.Good() && q < |ctx.E|
  {
    exists i: nat, l: int, bb: nat :: EndsUsed(ctx, kept, i, ctx.E[q].tid, l, bb, q)
  }

  /** Exactly which executions are reported, with the heads of the walks told by the runs. */
  lemma {:induction false} EndReported(ctx: Context, q: nat)
    requires ctx.Good() && Framed(ctx.prog, ctx.trace) && ReturnsMarked(ctx.prog, ctx.trace) && q < |ctx.E|
    ensures var (s, d) := (Scanned(ctx, 0), DynAt(ctx.E, q));
            d !in s.unneeded <==>
              || Exempt(ctx, q) || Owed(ctx, s.kept, q) || OwedLate(ctx, s.late, q)
              || EndsSome(ctx, s.kept, q) || TakenBy(ctx, s.kept, s.late, d)
  {
    hide Base, Framed, ReturnsMarked, Scanned, Exact, Owed, OwedLate, TakenBy, DynAt, Exempt, EndsUsed, HeadOf, Spared;
    var (s, d) := (Scanned(ctx, 0), DynAt(ctx.E, q));
    ScannedWhole(ctx);
    ReportedExactly(ctx, q);
    if EndsSome(ctx, s.kept, q) {
      var i: nat, l: int, bb: nat :| EndsUsed(ctx, s.kept, i, ctx.E[q].tid, l, bb, q);
      UsedEndKept(ctx, i, ctx.E[q].tid, l, bb, q);
      SparedUnreported(ctx, s, q);
    }
    if HeadOf(ctx, s.late, d) { HeadEnds(ctx, s, q); }
  }

  lemma {:induction false} SparedUnreported(ctx: Context, s: Scan, q: nat)
    requires ctx.Good() && q < |ctx.E| && Partition(ctx, s.kept, s.retro, s.unneeded)
    requires Spared(ctx, s.kept, s.retro, DynAt(ctx.E, q))
    ensures DynAt(ctx.E, q) !in s.unneeded
  {
    hide DynAt, Exempt;
    KeptDynAt(ctx, s.kept, q);
  }

  lemma {:induction false} HeadEnds(ctx: Context, s: Scan, q: nat)
    requires ctx.Good() && q < |ctx.E| && Exact(ctx, 0, 0, s) && HeadOf(ctx, s.late, DynAt(ctx.E, q))
    ensures EndsSome(ctx, s.kept, q)
  {
    hide KeysExact, DepsExact, KeptExact, LateExact, EndsUsed, OfHead;
    var d := DynAt(ctx.E, q);
    var w :| w in s.late && Head(ctx, w) && w.dyn == d;
    var t := LateOf(ctx, 0, s, w);
    var i: nat, l: int, r: nat :| r < |ctx.E| && EndsUsed(ctx, s.kept, i, d.tid, l, w.bb, r) && d == DynAt(ctx.E, r);
    DynAtInjective(ctx.E, q, r);
  }

  // ------------------------------------------------------- loops of one block

  /** Terminators m and q lie in one frame, which holds nothing but one basic block from m
      to q. */
  ghost predicate OneBlockLoop(ctx: Context, m: nat, q: nat)
    requires ctx.Good()
  {
    && IsTerminator(ctx, m) && IsTerminator(ctx, q) && ctx.E[m].block < ctx.E[q].block
    && var (x, y) := (ctx.E[m].block, ctx.E[q].block);
       var (tid, l) := (ctx.trace[y].tid, Level(ctx, y));
       && OfFrame(ctx, x, tid, l) && StaysOpen(ctx, x, y, tid, l)
       && forall z: nat :: x <= z <= y && OfFrame(ctx, z, tid, l) ==> ctx.trace[z].bb == ctx.trace[y].bb
  }

  /** In a loop of one block, no terminator but the first round's is kept for the sake of
      its block. */
  lemma {:induction false} LaterRounds(ctx: Context, kept: set<nat>, m: nat, q: nat)
    requires ctx.Good() && OneBlockLoop(ctx, m, q)
    ensures q < |ctx.E| && !EndsSome(ctx, kept, q)
  {
    hide Base, OneBlockLoop, EndsUsed;
    LoopKnown(ctx, m, q);
    forall i: nat, l: int, bb: nat ensures !EndsUsed(ctx, kept, i, ctx.E[q].tid, l, bb, q) {
      NotThere(ctx, kept, m, q, i, l, bb);
    }
  }

  lemma {:induction false} NotThere(ctx: Context, kept: set<nat>, m: nat, q: nat, i: nat, l: int, bb: nat)
    requires ctx.Good() && OneBlockLoop(ctx, m, q) && q < |ctx.E|
    ensures !EndsUsed(ctx, kept, i, ctx.E[q].tid, l, bb, q)
  {
    hide Base, LevelFrom, Level, RunUsed, RunBegins, OneBlockLoop, FirstIn, InFrame;
    LoopKnown(ctx, m, q);
    ExecOf(ctx, q);
    if EndsUsed(ctx, kept, i, ctx.E[q].tid, l, bb, q) {
      FirstLies(ctx, i, ctx.E[q].tid, l, q);
      if i <= ctx.E[m].block {
        RoundBefore(ctx, m, q, i, ctx.E[q].tid, l);
      } else {
        WithinLoop(ctx, m, q, i, l, bb, kept);
      }
    }
  }

  lemma {:induction false} ExecOf(ctx: Context, q: nat)
    requires ctx.Good() && q < |ctx.E|
    ensures ctx.E[q].block < |ctx.trace| && ctx.E[q].tid == ctx.trace[ctx.E[q].block].tid
  {
    hide Base, Execs;
    BlockOfExec(ctx.prog, ctx.trace, q);
    var y := ctx.E[q].block;
    ExecOfBlock(ctx.prog, ctx.trace, y, q - Base(ctx.prog, ctx.trace, y));
  }

  lemma {:induction false} FirstLies(ctx: Context, i: nat, tid: Tid, l: int, q: nat)
    requires ctx.Good() && i <= |ctx.trace| && FirstIn(ctx, i, Base(ctx.prog, ctx.trace, i), tid, l, q)
    ensures i <= ctx.E[q].block && Level(ctx, ctx.E[q].block) == l && InFrame(ctx, i, ctx.E[q].block, tid, l)
  {
    hide Base, LevelFrom, Level;
  }

  lemma {:induction false} LoopKnown(ctx: Context, m: nat, q: nat)
    requires ctx.Good() && OneBlockLoop(ctx, m, q)
    ensures m < |ctx.E| && q < |ctx.E| && ctx.E[m].block < ctx.E[q].block < |ctx.trace|
  {
  }

  /** The terminator of an earlier round lies in the frame. */
  lemma {:induction false} RoundThere(ctx: Context, m: nat, q: nat, i: nat, tid: Tid, l: int)
    requires ctx.Good() && OneBlockLoop(ctx, m, q) && i <= ctx.E[m].block && InFrame(ctx, i, ctx.E[q].block, tid, l)
    ensures TerminatorIn(ctx, i, tid, l, m) && Base(ctx.prog, ctx.trace, i) <= m < q
  {
    hide Base, LevelFrom, Level;
    BlockFrom(ctx, i, m);
    BlockFrom(ctx, ctx.E[q].block, m);
    BlockFrom(ctx, ctx.E[q].block, q);
  }

  /** From the beginning of the loop, it comes first. */
  lemma {:induction false} RoundBefore(ctx: Context, m: nat, q: nat, i: nat, tid: Tid, l: int)
    requires ctx.Good() && OneBlockLoop(ctx, m, q) && i <= ctx.E[m].block && InFrame(ctx, i, ctx.E[q].block, tid, l)
    ensures !FirstIn(ctx, i, Base(ctx.prog, ctx.trace, i), tid, l, q)
  {
    hide Base, TerminatorIn, OneBlockLoop;
    RoundThere(ctx, m, q, i, tid, l);
  }

  /** No run begins within the loop. */
  lemma {:induction false} WithinLoop(ctx: Context, m: nat, q: nat, i: nat, l: int, bb: nat, kept: set<nat>)
    requires ctx.Good() && OneBlockLoop(ctx, m, q) && q < |ctx.E| && ctx.E[q].tid == ctx.trace[ctx.E[q].block].tid
    requires ctx.E[m].block < i <= ctx.E[q].block && l == Level(ctx, ctx.E[q].block)
    requires RunUsed(ctx, kept, i, i, ctx.E[q].tid, l, bb) && InFrame(ctx, i, ctx.E[q].block, ctx.E[q].tid, l)
    ensures !RunBegins(ctx, i, ctx.E[q].tid, l, bb)
  {
    hide Base, Level, InFrame, Looked;
    var (y, tid) := (ctx.E[q].block, ctx.E[q].tid);
    var e: nat :| e in kept && e < |ctx.E| && RunReaches(ctx, i, i, tid, l, bb, ctx.E[e].block);
    var z := FirstInFrame(ctx, i, i, ctx.E[e].block, tid, l);
    FrameHolds(ctx, i, z, tid, l);
    if Looked(ctx, i) && ctx.trace[i].isFirst > 0 && ctx.trace[i].tid == tid { FirstCloses(ctx, i, l); }
  }

  lemma {:induction false} FrameHolds(ctx: Context, i: nat, z: nat, tid: Tid, l: int)
    requires ctx.Good() && InFrame(ctx, i, z, tid, l)
    ensures OfFrame(ctx, z, tid, l)
  {
    hide LevelFrom, Level;
  }

  /** Before the block that begins it, a frame is not open. */
  lemma {:induction false} FirstCloses(ctx: Context, i: nat, l: int)
    requires ctx.Good() && Looked(ctx, i) && ctx.trace[i].isFirst > 0 && LevelFrom(ctx, i, ctx.trace[i].tid, l)
    ensures Level(ctx, i) > l
  {
  }
}
