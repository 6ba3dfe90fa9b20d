/** Where each walk back through a used block is made, and when it chooses the inputs of
    phi nodes by the block that control really came from (tools/PrintBug/PrintBug.cpp,
    lines 180, 190, 218-232, 339-346). */
module LateInputs {
  import opened Common
  import opened Executions
  import opened Slice
  import opened SliceSound
  import opened Flags
  import opened Reasons
  import opened Terminators
  import opened Visits
  import Events
  import Flow
  import Framing

  // ------------------------------------------------ where walks are made

  /** The walk of w was made when the scan left block i, the first of its frame. */
  ghost predicate MadeLeaving(ctx: Context, w: Later, i: nat)
    requires ctx.Good()
  {
    && Looked(ctx, i) && ctx.trace[i].isFirst > 0 && w.pos == Base(ctx.prog, ctx.trace, i)
    && w.bb == ctx.trace[i].bb && w.lastBB == ctx.trace[i].lastBB
  }

  /** The level of the frame that block i goes on in. */
  ghost function LevelAfter(ctx: Context, i: nat): int
    requires ctx.Good() && i < |ctx.trace|
  {
    DepthAt(ctx.prog, ctx.trace, i + 1)(ctx.trace[i].tid)
  }

  /** Block x is the next of the frame that the scan has looked at. */
  ghost predicate LookedNext(ctx: Context, i: nat, x: nat)
    requires ctx.Good() && i < |ctx.trace|
  {
    FirstOf(ctx, i + 1, x, ctx.trace[i].tid, LevelAfter(ctx, i))
  }

  ghost predicate FirstOf(ctx: Context, from: nat, x: nat, tid: Tid, l: int)
    requires ctx.Good()
  {
    InFrame(ctx, from, x, tid, l) && forall y: nat :: from <= y < x ==> !InFrame(ctx, from, y, tid, l)
  }

  /** ... or when it came to block i, from block x of another basic block. */
  ghost predicate MadeEntering(ctx: Context, w: Later, i: nat, x: nat)
    requires ctx.Good()
  {
    && i < |ctx.trace| && ctx.trace[i].typ != DeclareBlock && ctx.trace[i].isLast == 0
    && w.pos == Base(ctx.prog, ctx.trace, i + 1) && w.lastBB == ctx.trace[i].lastBB
    && LookedNext(ctx, i, x) && w.bb == ctx.trace[x].bb != ctx.trace[i].bb
    && exists m: nat :: m < |ctx.E|
         && RunReaches(ctx, i + 1, i + 1, ctx.trace[i].tid, LevelAfter(ctx, i), w.bb, ctx.E[m].block)
  }

  ghost predicate Made(ctx: Context, w: Later, n: nat)
    requires ctx.Good()
  {
    || (exists i: nat :: n <= i && MadeLeaving(ctx, w, i))
    || (exists i: nat, x: nat :: n <= i && MadeEntering(ctx, w, i, x))
  }

  ghost predicate AllMade(ctx: Context, late: set<Later>, n: nat)
    requires ctx.Good()
  {
    forall w :: w in late ==> Made(ctx, w, n)
  }

  lemma {:induction false} AllMadeEarlier(ctx: Context, late: set<Later>, n: nat, i: nat)
    requires ctx.Good() && i <= n && AllMade(ctx, late, n)
    ensures AllMade(ctx, late, i)
  {
    hide MadeLeaving, MadeEntering;
    forall w | w in late ensures Made(ctx, w, i) { assert Made(ctx, w, n); }
  }

  lemma {:induction false} WalkMade(ctx: Context, s: Scan, p: nat, b: SmallestBlock, bb: nat)
    ensures forall w :: w in TerminatorKept(ctx, s, p, b, bb).late ==>
              w in s.late || (w.pos == p && w.bb == bb && w.lastBB == b.lastBB)
  {
    hide Walked, OutsideSome, DepOfSome, WalkReason, BlockIds;
    var t := TopOr(StackOf(s.terminators, b.tid), Terminator(bb, NO_TERMINATOR, true));
    WalkedReasons(ctx, s, p, t.dyn, b.lastBB, bb, 0);
  }

  lemma {:induction false} EnteredMade(ctx: Context, i: nat, p: nat, s: Scan, depth: Tid -> int)
    requires ctx.Good() && i < |ctx.trace| && ctx.trace[i].typ != DeclareBlock
    requires p == Base(ctx.prog, ctx.trace, i + 1) && depth == DepthAt(ctx.prog, ctx.trace, i + 1)
    requires Meant(ctx, i + 1, i + 1, s) && Heights(s, depth) && AllMade(ctx, s.late, i + 1)
    ensures AllMade(ctx, Entered(ctx, s, p, ctx.trace[i]).late, i)
  {
    hide Base, TerminatorKept, Heights, DepthAt, Made, FunMeans, RunEntry;
    var b := ctx.trace[i];
    var next := StackOf(s.nextBB, b.tid);
    AllMadeEarlier(ctx, s.late, i + 1, i);
    if b.isLast == 0 && next != [] && Top(next).0 != b.bb && Top(next).1 {
      HeightAt(s, depth, b.tid);
      var k: nat := |next| - 1;
      assert RunEntry(ctx, i + 1, i + 1, s.kept, b.tid, k + 1, next[k]);
      WalkMade(ctx, s, p, b, Top(next).0);
      forall w | w in TerminatorKept(ctx, s, p, b, Top(next).0).late && w !in s.late ensures Made(ctx, w, i) {
        EntryMade(ctx, i, s, w, next[k]);
      }
    }
  }

  lemma {:induction false} EntryMade(ctx: Context, i: nat, s: Scan, w: Later, e: (nat, bool))
    requires ctx.Good() && i < |ctx.trace| && ctx.trace[i].typ != DeclareBlock && ctx.trace[i].isLast == 0
    requires RunEntry(ctx, i + 1, i + 1, s.kept, ctx.trace[i].tid, LevelAfter(ctx, i), e) && e.1
    requires w.pos == Base(ctx.prog, ctx.trace, i + 1) && w.bb == e.0 != ctx.trace[i].bb
    requires w.lastBB == ctx.trace[i].lastBB
    ensures Made(ctx, w, i)
  {
    hide InFrame, Base, LevelAfter;
    var (tid, l, from) := (ctx.trace[i].tid, LevelAfter(ctx, i), i + 1);
    var m: nat :| m in s.kept && m < |ctx.E| && RunReaches(ctx, from, from, tid, l, e.0, ctx.E[m].block);
    var x := FirstInFrame(ctx, from, from, ctx.E[m].block, tid, l);
    assert MadeEntering(ctx, w, i, x);
  }

  lemma {:induction false} LeftMade(ctx: Context, i: nat, lo: nat, s: Scan, used: bool)
    requires ctx.Good() && i < |ctx.trace| && Looked(ctx, i) && lo == Base(ctx.prog, ctx.trace, i)
    requires AllMade(ctx, s.late, i)
    ensures AllMade(ctx, Left(ctx, s, lo, ctx.trace[i], used).late, i)
  {
    hide Base, TerminatorKept, Noted, Popped, Looked, Made;
    var b := ctx.trace[i];
    if b.isFirst > 0 {
      var s1 := s.(nextBB := Noted(s.nextBB, b, used));
      var s2 := CallerNeeded(s1, b);
      WalkMade(ctx, s2, lo, b, b.bb);
      forall w | w in TerminatorKept(ctx, s2, lo, b, b.bb).late && w !in s.late ensures Made(ctx, w, i) {
        MadeHere(ctx, i, w);
      }
    }
  }

  lemma {:induction false} MadeHere(ctx: Context, i: nat, w: Later)
    requires ctx.Good() && MadeLeaving(ctx, w, i)
    ensures Made(ctx, w, i)
  {
  }

  lemma {:induction false} BlockMade(ctx: Context, i: nat, s: Scan)
    requires ctx.Good() && i < |ctx.trace| && AllMade(ctx, s.late, i + 1)
    requires Meant(ctx, i + 1, i + 1, s) && Heights(s, DepthAt(ctx.prog, ctx.trace, i + 1))
    ensures AllMade(ctx, BlockDone(ctx, s, i).late, i)
  {
    hide Base, AllMade, Meant, Heights, NormalDone, AccessDone, Left, Entered, DepthAt;
    var b := ctx.trace[i];
    AllMadeEarlier(ctx, s.late, i + 1, i);
    if b.typ != DeclareBlock {
      var (lo, hi) := (Base(ctx.prog, ctx.trace, i), Base(ctx.prog, ctx.trace, i + 1));
      EnteredMade(ctx, i, hi, s, DepthAt(ctx.prog, ctx.trace, i + 1));
      var s1 := Entered(ctx, s, hi, b);
      if !Skipped(ctx.prog, b) {
        if b.typ == NormalBlock { NormalLate(ctx, s1, b, lo, b.start); } else { AccessLate(ctx, s1, b, lo); }
        var s2 := if b.typ == NormalBlock then NormalDone(ctx, s1, b, lo, b.start) else AccessDone(ctx, s1, b, lo);
        LeftMade(ctx, i, lo, s2, KeptWithin(s2.kept, lo, lo + |Ids(ctx.prog, b)|));
      }
    }
  }

  lemma {:induction false} ScannedMade(ctx: Context, n: nat)
    requires ctx.Good() && n <= |ctx.trace| && Framed(ctx.prog, ctx.trace) && ReturnsMarked(ctx.prog, ctx.trace)
    ensures AllMade(ctx, Scanned(ctx, n).late, n)
    decreases |ctx.trace| - n
  {
    hide Base, Framed, ReturnsMarked, BlockDone, Meant, Inv, TerminatorsPassed, BlocksKnown, Heights, DepthAt, Made;
    if n < |ctx.trace| {
      ScannedMade(ctx, n + 1);
      ScannedMeant(ctx, n + 1);
      ScannedStable(ctx, n + 1);
      BlockMade(ctx, n, Scanned(ctx, n + 1));
    }
  }

  // ------------------------------------------ the run of a basic block

  /** Block y goes on in the run of a basic block that block x is part of. */
  ghost predicate SameRun(ctx: Context, x: nat, y: nat)
    requires ctx.Good()
  {
    && x <= y && x < |ctx.trace|
    && var (tid, l) := (ctx.trace[x].tid, Level(ctx, x));
       && OfFrame(ctx, x, tid, l) && OfFrame(ctx, y, tid, l) && StaysOpen(ctx, x, y, tid, l)
       && forall z: nat :: x < z <= y && OfFrame(ctx, z, tid, l) ==> ctx.trace[z].start > 0
  }

  lemma {:induction false} LastBefore(ctx: Context, x: nat, y: nat, tid: Tid, l: int) returns (j: nat)
    requires ctx.Good() && x < y && OfFrame(ctx, x, tid, l) && OfFrame(ctx, y, tid, l) && StaysOpen(ctx, x, y, tid, l)
    ensures x <= j < y && NextOf(ctx, j, y, tid, l) && StaysOpen(ctx, x, j, tid, l)
  {
    hide OfFrame, LevelFrom;
    j := LastOf(ctx, x, y - 1, tid, l);
  }

  lemma {:induction false} LastOf(ctx: Context, x: nat, y: nat, tid: Tid, l: int) returns (j: nat)
    requires ctx.Good() && x <= y && OfFrame(ctx, x, tid, l)
    ensures x <= j <= y && OfFrame(ctx, j, tid, l) && forall z: nat :: j < z <= y ==> !OfFrame(ctx, z, tid, l)
  {
    hide OfFrame;
    if OfFrame(ctx, y, tid, l) { j := y; } else { j := LastOf(ctx, x, y - 1, tid, l); }
  }

  /** A run is of one basic block, entered from one other. */
  lemma {:induction false} RunAlike(ctx: Context, n: nat, c: nat, x: nat, y: nat)
    requires ctx.Good() && SameRun(ctx, x, y) && y < n && Seen(ctx, n, ctx.trace[x].tid, c)
    ensures ctx.trace[y].bb == ctx.trace[x].bb && ctx.trace[y].lastBB == ctx.trace[x].lastBB
    decreases y
  {
    hide OfFrame, LevelFrom, Seen, Level;
    var (tid, l) := (ctx.trace[x].tid, Level(ctx, x));
    if x < y {
      var j := LastBefore(ctx, x, y, tid, l);
      NextFollows(ctx, n, c, j, y, tid, l);
      RunAlike(ctx, n, c, x, j);
    }
  }

  /** A call that is passed over does not end its basic block. */
  lemma {:induction false} SkippedInside(ctx: Context, j: nat)
    requires ctx.Good() && Events.GoodCode(ctx.prog) && j < |ctx.trace| && ctx.trace[j].typ != DeclareBlock
    requires !Looked(ctx, j) && Framing.Typed(ctx.prog, ctx.trace[j])
    ensures ctx.trace[j].typ == ExternalCallBlock && ctx.trace[j].bb < |ctx.prog.bb2ins|
    ensures ctx.trace[j].start + 1 < |ctx.prog.bb2ins[ctx.trace[j].bb]|
  {
    assert Events.GoodBB(ctx.prog, ctx.trace[j].bb);
  }

  /** Control came to block x, the next that was looked at, from block i. */
  lemma {:induction false} CameFrom(ctx: Context, n: nat, c: nat, i: nat, x: nat, tid: Tid, l: int)
    requires ctx.Good() && Events.GoodCode(ctx.prog) && Seen(ctx, n, tid, c) && i < x < n
    requires forall j :: 0 <= j < |ctx.trace| ==> Framing.Typed(ctx.prog, ctx.trace[j])
    requires OfFrame(ctx, i, tid, l) && OfFrame(ctx, x, tid, l) && StaysOpen(ctx, i, x, tid, l)
    requires forall z: nat :: i < z < x && OfFrame(ctx, z, tid, l) ==> !Looked(ctx, z)
    requires ctx.trace[x].bb != ctx.trace[i].bb
    ensures ctx.trace[x].lastBB == Some(ctx.trace[i].bb)
    decreases x
  {
    hide LevelFrom, Seen, Level, Looked, Framing.Typed;
    var j := LastBefore(ctx, i, x, tid, l);
    NextFollows(ctx, n, c, j, x, tid, l);
    if j > i {
      SkippedInside(ctx, j);
      CameFrom(ctx, n, c, i, j, tid, l);
    }
  }

  // -------------------------------------------------------------- the inputs

  /** Execution q lies in the run of a basic block that block x is part of. */
  ghost predicate InRun(ctx: Context, x: nat, q: nat)
    requires ctx.Good()
  {
    q < |ctx.E| && SameRun(ctx, x, ctx.E[q].block)
  }

  /** If the walk was made at the first block of a frame, it chooses right. */
  ghost predicate ChoosesRight(ctx: Context, w: Later, i: nat)
    requires ctx.Good()
  {
    MadeLeaving(ctx, w, i) && forall q: nat :: InRun(ctx, i, q) ==> w.lastBB == ctx.E[q].lastBB
  }

  /** Otherwise it chooses by the block before the one that control came from; that is
      right exactly if the two coincide. */
  ghost predicate ChoosesEarlier(ctx: Context, w: Later, i: nat, x: nat)
    requires ctx.Good()
  {
    && MadeEntering(ctx, w, i, x)
    && forall q: nat :: InRun(ctx, x, q) ==>
         && ctx.E[q].lastBB == Some(ctx.trace[i].bb)
         && (w.lastBB == ctx.E[q].lastBB <==> ctx.trace[i].lastBB == Some(ctx.trace[i].bb))
  }

  /** Everything kept late has its inputs chosen in one of the two ways. */
  lemma {:induction false} LateInput(ctx: Context, impactful: set<uint64>, events: seq<Events.Event>,
                                     stale: Option<nat>, w: Later)
    requires MergedFrom(ctx, impactful, events, stale) && w in Scanned(ctx, 0).late
    ensures (exists i: nat :: ChoosesRight(ctx, w, i)) || (exists i: nat, x: nat :: ChoosesEarlier(ctx, w, i, x))
  {
    hide MergedFrom, Scanned, MadeLeaving, MadeEntering, InRun, Framed, ReturnsMarked;
    RecordedFit(ctx, impactful, events, stale);
    ScannedMade(ctx, 0);
    assert Made(ctx, w, 0);
    if i: nat :| MadeLeaving(ctx, w, i) {
      LeavingRight(ctx, impactful, events, stale, w, i);
      assert ChoosesRight(ctx, w, i);
    } else {
      var i: nat, x: nat :| MadeEntering(ctx, w, i, x);
      EnteringEarlier(ctx, impactful, events, stale, w, i, x);
      assert ChoosesEarlier(ctx, w, i, x);
    }
  }

  /** Block y is part of the run of a basic block that begins with block z, to which control
      came from block c. */
  ghost predicate EnteredFrom(ctx: Context, c: nat, z: nat, y: nat)
    requires ctx.Good()
  {
    SameRun(ctx, z, y) && ctx.trace[z].start == 0 && NextOf(ctx, c, z, ctx.trace[z].tid, Level(ctx, z))
  }

  /** Whatever execution q a walk takes, of the walked run or of another, inputs are chosen
      for it by the block before block i, where the walk was made; that is right exactly if
      control came to the run of q from a block of the same number. */
  lemma {:induction false} AnyInput(ctx: Context, impactful: set<uint64>, events: seq<Events.Event>,
                                    stale: Option<nat>, w: Later, i: nat, x: nat, c: nat, z: nat, q: nat)
    requires MergedFrom(ctx, impactful, events, stale) && (MadeLeaving(ctx, w, i) || MadeEntering(ctx, w, i, x))
    requires q < |ctx.E| && w.dyn == DynAt(ctx.E, q) && EnteredFrom(ctx, c, z, ctx.E[q].block)
    ensures ctx.E[q].lastBB == Some(ctx.trace[c].bb)
    ensures w.lastBB == ctx.E[q].lastBB <==> ctx.trace[i].lastBB == Some(ctx.trace[c].bb)
  {
    hide MergedFrom, Seen, SameRun, Base, Skipped, InFrame, OfFrame, StaysOpen, NextOf, Level, DynAt, RunReaches;
    RecordedFit(ctx, impactful, events, stale);
    var y := ctx.E[q].block;
    SameRunFrom(ctx, z, y);
    var tid := ctx.trace[z].tid;
    var n, k := RecordedSeen(ctx, impactful, events, stale, tid);
    ExecRecorded(ctx, n, tid, k, q);
    NextFollows(ctx, n, k, c, z, tid, Level(ctx, z));
    RunAlike(ctx, n, k, z, y);
  }

  lemma {:induction false} RecordedFit(ctx: Context, impactful: set<uint64>, events: seq<Events.Event>,
                                       stale: Option<nat>)
    requires MergedFrom(ctx, impactful, events, stale)
    ensures ctx.Good() && Events.GoodCode(ctx.prog) && Framed(ctx.prog, ctx.trace)
    ensures ReturnsMarked(ctx.prog, ctx.trace)
    ensures forall j :: 0 <= j < |ctx.trace| ==> Framing.Typed(ctx.prog, ctx.trace[j])
  {
    Framing.BlockTraceFit(ctx.prog, impactful, events, stale);
  }

  /** An execution lies in a block that was recorded before the trace was closed. */
  lemma {:induction false} ExecRecorded(ctx: Context, n: nat, tid: Tid, c: nat, q: nat)
    requires ctx.Good() && Seen(ctx, n, tid, c) && q < |ctx.E|
    ensures ctx.E[q].block < n && ctx.E[q].lastBB == ctx.trace[ctx.E[q].block].lastBB
  {
    hide Base, Execs, Flow.Flows, DepthAt, Spots;
    BlockOfExec(ctx.prog, ctx.trace, q);
    var y := ctx.E[q].block;
    ExecOfBlock(ctx.prog, ctx.trace, y, q - Base(ctx.prog, ctx.trace, y));
  }

  lemma {:induction false} LeavingRight(ctx: Context, impactful: set<uint64>, events: seq<Events.Event>,
                                        stale: Option<nat>, w: Later, i: nat)
    requires MergedFrom(ctx, impactful, events, stale) && MadeLeaving(ctx, w, i)
    ensures forall q: nat :: InRun(ctx, i, q) ==> w.lastBB == ctx.E[q].lastBB
  {
    hide MergedFrom, Seen, SameRun, Base, Skipped;
    RecordedFit(ctx, impactful, events, stale);
    var n, c := RecordedSeen(ctx, impactful, events, stale, ctx.trace[i].tid);
    forall q: nat | InRun(ctx, i, q) ensures w.lastBB == ctx.E[q].lastBB {
      ExecRecorded(ctx, n, ctx.trace[i].tid, c, q);
      RunAlike(ctx, n, c, i, ctx.E[q].block);
    }
  }

  lemma {:induction false} EnteringEarlier(ctx: Context, impactful: set<uint64>, events: seq<Events.Event>,
                                           stale: Option<nat>, w: Later, i: nat, x: nat)
    requires MergedFrom(ctx, impactful, events, stale) && MadeEntering(ctx, w, i, x)
    ensures forall q: nat :: InRun(ctx, x, q) ==>
              && ctx.E[q].lastBB == Some(ctx.trace[i].bb)
              && (w.lastBB == ctx.E[q].lastBB <==> ctx.trace[i].lastBB == Some(ctx.trace[i].bb))
  {
    hide MergedFrom, Seen, SameRun, Base, Skipped, InFrame, OfFrame, StaysOpen, Framing.Typed;
    RecordedFit(ctx, impactful, events, stale);
    var tid := ctx.trace[i].tid;
    var n, c := RecordedSeen(ctx, impactful, events, stale, tid);
    forall q: nat | InRun(ctx, x, q) ensures ctx.E[q].lastBB == Some(ctx.trace[i].bb) {
      ExecRecorded(ctx, n, tid, c, q);
      SameRunFrom(ctx, x, ctx.E[q].block);
      NextLine(ctx, i, x);
      CameFrom(ctx, n, c, i, x, tid, LevelAfter(ctx, i));
      NextTid(ctx, i, x);
      RunAlike(ctx, n, c, x, ctx.E[q].block);
    }
  }

  lemma {:induction false} SameRunFrom(ctx: Context, x: nat, y: nat)
    requires ctx.Good() && SameRun(ctx, x, y)
    ensures x <= y && x < |ctx.trace|
  {
  }

  lemma {:induction false} NextTid(ctx: Context, i: nat, x: nat)
    requires ctx.Good() && i < |ctx.trace| && LookedNext(ctx, i, x)
    ensures x < |ctx.trace| && ctx.trace[x].tid == ctx.trace[i].tid
  {
  }

  /** Between block i and the next that was looked at, the frame has only calls that are
      passed over. */
  lemma {:induction false} NextLine(ctx: Context, i: nat, x: nat)
    requires ctx.Good() && i < |ctx.trace| && ctx.trace[i].typ != DeclareBlock && ctx.trace[i].isLast == 0
    requires LookedNext(ctx, i, x)
    ensures var (tid, l) := (ctx.trace[i].tid, LevelAfter(ctx, i));
            && i < x && OfFrame(ctx, i, tid, l) && OfFrame(ctx, x, tid, l) && StaysOpen(ctx, i, x, tid, l)
            && forall z: nat :: i < z < x && OfFrame(ctx, z, tid, l) ==> !Looked(ctx, z)
  {
    hide DepthAt, Skipped;
    var (tid, l) := (ctx.trace[i].tid, LevelAfter(ctx, i));
    LevelIs(ctx, i);
    var from := i + 1;
    assert forall z: nat :: i < z < x && OfFrame(ctx, z, tid, l) && Looked(ctx, z) ==> InFrame(ctx, from, z, tid, l);
  }
}
