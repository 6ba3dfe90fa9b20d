/** A run, from the events to the bugs, on which an unneeded execution and the unneeded
    execution it used are not linked, because the operand has been executed once more
    (tools/PrintBug/PrintBug.cpp, lines 403-412). */
module BugRuns {
  import opened Common
  import opened Events
  import opened Executions
  import opened Merge
  import opened Runs
  import opened Slice
  import opened Flags
  import opened Terminators
  import opened Reasons
  import opened LateKept
  import Addresses
  import Components
  import M = MemoryDependency
  import Pipeline
  import SliceSound
  import Soundness
  import TrueBugs

  /** Block 0 computes a value; block 1 computes another from it, and goes back; from block
      0, which computes its value again, control goes on to block 2, which passes the value
      to `write`. */
  const ROUND := Program(
    [Info(NormalInst, [], [], []), Info(TerminatorInst, [], [1, 2], []), Info(NormalInst, [(Inst, 0)], [], []),
     Info(TerminatorInst, [], [0], []), Info(ExternalCallInst, [(Inst, 0)], [], []), Info(ReturnInst, [], [], [])],
    [[0, 1], [2, 3], [4, 5]])

  function RoundEvents(tid: Tid): seq<Event> {
    [BasicBlockEvent(tid, 0), BasicBlockEvent(tid, 1), BasicBlockEvent(tid, 0), BasicBlockEvent(tid, 2),
     ReturnEvent(tid, 4, 1)]
  }

  function From(b: SmallestBlock, bb: nat): SmallestBlock { b.(lastBB := Some(bb)) }

  function RoundTrace(tid: Tid): (trace: seq<SmallestBlock>)
    ensures |trace| == 5
  {
    [Ordinary(tid, 0, 0, 2, 2, 0, 0), From(Ordinary(tid, 1, 0, 2, 0, 0, 0), 0),
     From(Ordinary(tid, 0, 0, 2, 0, 0, 0), 1),
     SmallestBlock(ImpactfulCallBlock, tid, 2, 0, 1, [1], 0, 0, Some(0), Some(0)),
     From(Ordinary(tid, 2, 1, 2, 0, 2, 0), 0)]
  }

  // -------------------------------------------------------------- the trace

  ghost predicate RoundCode(prog: Program) {
    && GoodCode(prog) && |prog.ins| == 6 && prog.bb2ins == [[0, 1], [2, 3], [4, 5]]
    && DrainEnd(prog, 0, 0) == 2 && DrainEnd(prog, 1, 0) == 2 && DrainEnd(prog, 2, 0) == 0 && DrainEnd(prog, 2, 1) == 2
    && !AtReturn(prog, 0, 2) && !AtReturn(prog, 1, 2) && !AtReturn(prog, 2, 0) && AtReturn(prog, 2, 2)
    && ImpactfulName(prog.ins[4].fun)
  }

  lemma {:induction false} RoundGood()
    ensures GoodCode(ROUND)
  {
    forall bb | 0 <= bb < |ROUND.bb2ins| ensures GoodBB(ROUND, bb) {
    }
  }

  lemma {:induction false} RoundReturns()
    requires GoodCode(ROUND)
    ensures !AtReturn(ROUND, 0, 2) && !AtReturn(ROUND, 1, 2) && !AtReturn(ROUND, 2, 0) && AtReturn(ROUND, 2, 2)
    ensures ImpactfulName(ROUND.ins[4].fun)
  {
    hide GoodCode;
  }

  lemma {:induction false} RoundIs()
    ensures RoundCode(ROUND)
  {
    hide GoodBB, AtReturn, ImpactfulName;
    RoundGood();
    RoundReturns();
    assert SilentEnd(ROUND, 0, 2) == 2 && SilentEnd(ROUND, 0, 1) == 2 && SilentEnd(ROUND, 1, 2) == 2;
    assert SilentEnd(ROUND, 1, 1) == 2 && SilentEnd(ROUND, 2, 2) == 2;
  }

  lemma {:induction false} RoundTaken(prog: Program, tid: Tid, stale: Option<nat>)
    requires RoundCode(prog)
    ensures BlockTrace(prog, {}, RoundEvents(tid), stale) == Some(RoundTrace(tid))
  {
    hide DrainEnd, GoodBB, Drain, Merged, Next, AtReturn, InfoAt, ImpactfulName, BlockTrace;
    var e := RoundEvents(tid);
    var (f, g) := (StackInfo(0, Some(1), 2), StackInfo(2, Some(0), 0));
    var st0 := Starts(prog, e, tid, 0, 2);
    var st1 := GoesTo(prog, e, 1, st0, tid, StackInfo(0, None, 2), 1, 2);
    var st2 := GoesTo(prog, e, 2, st1, tid, StackInfo(1, Some(0), 2), 0, 2);
    assert [] + [g] == [g] && [f][0 := g] == [g];
    DrainBefore(prog, tid, [], g, NOT_FIRST, 0);
    var st3 := OneEvent(prog, e, 3, st2, tid, Thread([f], NOT_FIRST, {}), Effect(Thread([g], NOT_FIRST, {}), []),
                     Drained([g], NOT_FIRST, []));
    var st4 := CallsLast(prog, e, 4, st3, tid, g, 4, 1);
    assert e[..5] == e;
    AllEnded(prog, e, st4, stale);
    assert st4.out == RoundTrace(tid);
  }

  lemma {:induction false} RoundMerges(tid: Tid, stale: Option<nat>)
    ensures GoodCode(ROUND) && BlockTrace(ROUND, {}, RoundEvents(tid), stale) == Some(RoundTrace(tid))
  {
    hide GoodBB, BlockTrace, DrainEnd;
    RoundIs();
    RoundTaken(ROUND, tid, stale);
  }

  // -------------------------------------------------------------- executions

  function RoundExecs(tid: Tid): (E: seq<Exec>)
    ensures |E| == 8
  {
    [Exec(tid, 0, 0, None), Exec(tid, 1, 0, None), Exec(tid, 2, 1, Some(0)), Exec(tid, 3, 1, Some(0)),
     Exec(tid, 0, 2, Some(1)), Exec(tid, 1, 2, Some(1)), Exec(tid, 4, 3, Some(0)), Exec(tid, 5, 4, Some(0))]
  }

  lemma {:induction false} RoundIds(tid: Tid)
    requires GoodTrace(ROUND, RoundTrace(tid))
    ensures var t := RoundTrace(tid);
            && Ids(ROUND, t[0]) == Ids(ROUND, t[2]) == [0, 1] && Ids(ROUND, t[1]) == [2, 3]
            && Ids(ROUND, t[3]) == [4] && Ids(ROUND, t[4]) == [5]
  {
  }

  lemma {:induction false} RoundExecuted(prog: Program, trace: seq<SmallestBlock>, tid: Tid)
    requires prog == ROUND && trace == RoundTrace(tid) && GoodTrace(prog, trace)
    ensures Execs(prog, trace) == RoundExecs(tid) && Base(prog, trace, 3) == 6
  {
    RoundIds(tid);
    assert Base(prog, trace, 0) == 0;
    hide Base, Execs, Ids;
    BaseStep(prog, trace, 0);
    BaseStep(prog, trace, 1);
    BaseStep(prog, trace, 2);
    BaseStep(prog, trace, 3);
    BaseStep(prog, trace, 4);
    SliceSound.ExecsEnd(prog, trace);
    ExecOfBlock(prog, trace, 0, 0);
    ExecOfBlock(prog, trace, 0, 1);
    ExecOfBlock(prog, trace, 1, 0);
    ExecOfBlock(prog, trace, 1, 1);
    ExecOfBlock(prog, trace, 2, 0);
    ExecOfBlock(prog, trace, 2, 1);
    ExecOfBlock(prog, trace, 3, 0);
    ExecOfBlock(prog, trace, 4, 0);
  }

  lemma {:induction false} RoundUses()
    ensures |ROUND.ins| == 6
    ensures forall id: nat, lastBB, x: nat :: id < 6 ==> (Uses(ROUND, id, lastBB, x) <==> x == 0 && id in {2, 4})
    ensures forall id: nat :: id < 6 ==> (ROUND.ins[id].typ == TerminatorInst <==> id in {1, 3})
    ensures ROUND.ins[0].typ == ROUND.ins[2].typ == NormalInst
  {
  }

  // ---------------------------------------------------- what is asked for

  /** The scan's input: nothing depends on memory, and only value 0 is ever used. */
  ghost predicate RoundContext(ctx: Context, tid: Tid) {
    && ctx.Good() && ctx.prog == ROUND && ctx.trace == RoundTrace(tid) && ctx.E == RoundExecs(tid)
    && Framed(ctx.prog, ctx.trace) && ReturnsMarked(ctx.prog, ctx.trace) && forall e, d :: !InDeps(ctx.memDep, e, d)
  }

  /** No access reads anything. */
  lemma {:induction false} RoundDeps(env: M.Env, tid: Tid, memDep: DepMap)
    requires M.GoodEnv(env) && env.prog == ROUND && FormedTrace(ROUND, RoundTrace(tid))
    requires M.Extracted(env, RoundTrace(tid), memDep)
    ensures forall e, d :: !InDeps(memDep, e, d)
  {
    var trace := RoundTrace(tid);
    forall i: nat, k: nat | i < 5 && IsAccess(trace[i]) ensures !M.Depends(env, trace, i, k) {
    }
    hide RoundTrace, M.Depends, M.Back;
    forall e, d ensures !InDeps(memDep, e, d) {
    }
  }

  /** Only branches are kept late. */
  lemma {:induction false} RoundLate(ctx: Context, tid: Tid, w: Later)
    requires RoundContext(ctx, tid) && w in Scanned(ctx, 0).late
    ensures w.dyn.id in {1, 3} && Head(ctx, w)
  {
    hide Framed, ReturnsMarked, Scanned, LateReason, KeysExact, DepsExact, KeptExact, LateExact, OfHead, RoundTrace,
         RoundExecs;
    ScannedWhole(ctx);
    var s := Scanned(ctx, 0);
    var t := LateOf(ctx, 0, s, w);
    if Head(ctx, w) {
      RoundHead(ctx, tid, s.kept, s.late, w);
    } else {
      var v := RoundAsker(ctx, tid, s.kept, s.late, w);
      var t' := LateOf(ctx, 0, s, v);
      if Head(ctx, v) {
        RoundHead(ctx, tid, s.kept, s.late, v);
      } else {
        var v' := RoundAsker(ctx, tid, s.kept, s.late, v);
      }
    }
  }

  lemma {:induction false} RoundHead(ctx: Context, tid: Tid, kept: set<nat>, late: set<Later>, w: Later)
    requires RoundContext(ctx, tid) && Head(ctx, w) && LateReason(ctx, kept, late, w)
    ensures w.dyn.id in {1, 3}
  {
    hide InFrame, RunBegins, RunUsed, Base, Framed, ReturnsMarked, DynAt;
    RoundUses();
    var i: nat, l: int, q: nat :| q < |ctx.E| && EndsUsed(ctx, kept, i, w.dyn.tid, l, w.bb, q)
                                  && w.dyn == DynAt(ctx.E, q);
    DynAtKey(ctx.E, q);
    assert IsTerminator(ctx, q);
  }

  /** Anything else would have to be value 0, and to be asked for by a user of it. */
  lemma {:induction false} RoundAsker(ctx: Context, tid: Tid, kept: set<nat>, late: set<Later>, w: Later)
    returns (v: Later)
    requires RoundContext(ctx, tid) && !Head(ctx, w) && LateReason(ctx, kept, late, w)
    ensures v in late && w.dyn.id == 0 && v.dyn.id in {2, 4}
  {
    hide DynAt, Uses, BlockIds, InDeps, Framed, ReturnsMarked, RoundTrace, RoundExecs;
    RoundUses();
    v :| v in late && v.walk == w.walk && w.index < v.index && Outside(ctx, v, w.index + 1, (w.dyn.tid, w.dyn.id));
  }

  /** Nobody asks for the second value; and only the second value asks for the first. */
  lemma {:induction false} RoundOwed(ctx: Context, tid: Tid, kept: set<nat>)
    requires RoundContext(ctx, tid)
    ensures !Owed(ctx, kept, 2) && (Owed(ctx, kept, 0) ==> 2 in kept) && (6 in kept ==> Owed(ctx, kept, 4))
    ensures Impactful(ctx, 6)
  {
    RoundUses();
    hide DynAt, Base, InDeps, Uses, Execs, Framed, ReturnsMarked, RunUsed, UsedSince;
    if 6 in kept { assert UserOf(ctx, 6, 5, ctx.E[4].Key()); }
    assert ctx.E[4].Key() == (tid, 0);
  }

  lemma {:induction false} RoundKinds(ctx: Context, tid: Tid, q: nat)
    requires RoundContext(ctx, tid) && q in {0, 2}
    ensures ctx.Good() && q < |ctx.E| && ctx.E[q].id == q && DynAt(ctx.E, q).id == q
    ensures !AnAccess(ctx, q) && !IsReturn(ctx, q) && !SliceSound.Exempt(ctx, q)
    ensures forall id: nat, lastBB, x: nat :: id in {1, 3} ==> id < |ctx.prog.ins| && !Uses(ctx.prog, id, lastBB, x)
    ensures forall e, d :: !InDeps(ctx.memDep, e, d)
  {
    RoundUses();
    DynAtKey(ctx.E, q);
    hide Uses, DynAt, Execs, Framed, ReturnsMarked, InDeps;
  }

  lemma {:induction false} RoundNotLate(ctx: Context, tid: Tid, q: nat)
    requires RoundContext(ctx, tid) && q in {0, 2}
    ensures var s := Scanned(ctx, 0);
            && !OwedLate(ctx, s.late, q) && !HeadOf(ctx, s.late, DynAt(ctx.E, q))
            && !TakenBy(ctx, s.kept, s.late, DynAt(ctx.E, q)) && !SliceSound.Exempt(ctx, q)
  {
    hide RoundContext, Scanned, DynAt, InDeps, Uses, BlockIds, Member, Head, SliceSound.Exempt;
    RoundKinds(ctx, tid, q);
    var (s, d) := (Scanned(ctx, 0), DynAt(ctx.E, q));
    forall w | w in s.late ensures w.dyn.id in {1, 3} { RoundLate(ctx, tid, w); }
    if TakenBy(ctx, s.kept, s.late, d) {
      var t, k: nat :| t in s.late && Head(ctx, t) && Takes(ctx, t, k, d)
        && AskedAt(ctx, s.kept, s.late, Member(ctx, t, k));
      NothingAsks(ctx, s.kept, s.late, Member(ctx, t, k));
    }
  }

  lemma {:induction false} NothingAsks(ctx: Context, kept: set<nat>, late: set<Later>, w: Later)
    requires ctx.Good() && forall e, d :: !InDeps(ctx.memDep, e, d)
    requires forall v, lastBB, x: nat :: v in late && v.dyn.id < |ctx.prog.ins| ==>
               !Uses(ctx.prog, v.dyn.id, lastBB, x)
    ensures !AskedAt(ctx, kept, late, w)
  {
    hide Uses, InDeps, DynAt, BlockIds;
  }

  lemma {:induction false} RoundReported(ctx: Context, tid: Tid)
    requires RoundContext(ctx, tid)
    ensures var s := Scanned(ctx, 0);
            DynAt(ctx.E, 0) in s.unneeded && DynAt(ctx.E, 2) in s.unneeded && DynAt(ctx.E, 4) !in s.unneeded
  {
    hide RoundTrace, RoundExecs, Scanned, Owed, OwedLate, HeadOf, TakenBy, DynAt, SliceSound.Exempt, Framed,
         ReturnsMarked, LateReason;
    var s := Scanned(ctx, 0);
    KeptExactly(ctx);
    RoundOwed(ctx, tid, s.kept);
    RoundNotLate(ctx, tid, 0);
    RoundNotLate(ctx, tid, 2);
    ReportedExactly(ctx, 0);
    ReportedExactly(ctx, 2);
    SliceSound.ScannedPartition(ctx);
    Soundness.KeptUnreported(ctx, s, 4);
  }

  // ------------------------------------------------------------------ bugs

  lemma {:induction false} RoundNumbers(tid: Tid)
    ensures DynAt(RoundExecs(tid), 2) == DynamicInst(tid, 2, 0) && DynAt(RoundExecs(tid), 4) == DynamicInst(tid, 0, 0)
    ensures DynAt(RoundExecs(tid), 0).id == 0
  {
    var E := RoundExecs(tid);
    assert CountKey(E, 8, (tid, 2)) == 0 && CountKey(E, 7, (tid, 2)) == 0 && CountKey(E, 6, (tid, 2)) == 0;
    assert CountKey(E, 5, (tid, 2)) == 0 && CountKey(E, 4, (tid, 2)) == 0 && CountKey(E, 3, (tid, 2)) == 0;
    assert CountKey(E, 8, (tid, 0)) == 0 && CountKey(E, 7, (tid, 0)) == 0 && CountKey(E, 6, (tid, 0)) == 0;
    assert CountKey(E, 5, (tid, 0)) == 0;
  }

  /** The report links nothing with anything. */
  lemma {:induction false} RoundApart(ctx: Context, tid: Tid, v: nat, w: nat)
    requires RoundContext(ctx, tid) && Addresses.RecordsDropped(ctx, 0, Scanned(ctx, 0))
    ensures var s := Scanned(ctx, 0); !Components.Together(ctx.prog, ctx.memDep, s.unneeded, s.sameAddr, v, w)
  {
    hide Scanned, DynAt, InDeps, Execs, Framed, ReturnsMarked, Base;
    var s := Scanned(ctx, 0);
    forall i | i in s.unneeded ensures !Components.DependsOn(ctx.prog, ctx.memDep, s.unneeded, i, v) {
      RoundUnlinked(ctx, tid, i, v);
    }
    forall i | i in s.unneeded ensures !Components.DependsOn(ctx.prog, ctx.memDep, s.unneeded, i, w) {
      RoundUnlinked(ctx, tid, i, w);
    }
  }

  lemma {:induction false} RoundSsa(ctx: Context, tid: Tid, p: nat, w: nat)
    requires RoundContext(ctx, tid) && p < |ctx.E|
    ensures ctx.E[p].id < |ctx.prog.ins|
    ensures (Inst, w) in ctx.prog.ins[ctx.E[p].id].ssa ==> w == 0 && p in {2, 6} && ctx.E[p].tid == tid
    ensures ctx.E == RoundExecs(tid)
    ensures forall e, d :: !InDeps(ctx.memDep, e, d)
  {
    hide Execs, Framed, ReturnsMarked, RoundTrace;
  }

  lemma {:induction false} RoundUnlinked(ctx: Context, tid: Tid, i: DynamicInst, w: nat)
    requires RoundContext(ctx, tid) && ctx.Good() && i in Scanned(ctx, 0).unneeded
    ensures !Components.DependsOn(ctx.prog, ctx.memDep, Scanned(ctx, 0).unneeded, i, w)
  {
    RoundPartition(ctx, tid);
    hide RoundContext, Scanned, InDeps, DynAt, RoundExecs, SliceSound.Partition;
    RoundNumbers(tid);
    RoundReported(ctx, tid);
    RoundImpactful(ctx, tid);
    var s := Scanned(ctx, 0);
    TrueBugs.ReportNumbers(ctx, s.kept, s.retro, s.unneeded);
    var p: nat :| TrueBugs.UnneededAt(ctx, s.unneeded, p) && i == DynAt(ctx.E, p);
    DynAtKey(ctx.E, p);
    RoundSsa(ctx, tid, p, w);
  }

  lemma {:induction false} RoundPartition(ctx: Context, tid: Tid)
    requires RoundContext(ctx, tid)
    ensures var s := Scanned(ctx, 0); SliceSound.Partition(ctx, s.kept, s.retro, s.unneeded)
  {
    hide Execs, Framed, ReturnsMarked, RoundTrace, RoundExecs, Scanned;
    SliceSound.ScannedPartition(ctx);
  }

  lemma {:induction false} RoundImpactful(ctx: Context, tid: Tid)
    requires RoundContext(ctx, tid)
    ensures DynAt(ctx.E, 6) !in Scanned(ctx, 0).unneeded
  {
    hide Scanned, InDeps, Execs, Framed, ReturnsMarked, Base, RoundTrace, DynAt, Owed, OwedLate;
    KeptExactly(ctx);
    RoundOwed(ctx, tid, {});
    SliceSound.ScannedPartition(ctx);
    Soundness.KeptUnreported(ctx, Scanned(ctx, 0), 6);
  }

  /** What the bugs are: the first two values are both unneeded, and the second was computed
      from the first; yet they are in different bugs. */
  ghost predicate ToldApart(ctx: Context, unneeded: set<DynamicInst>, bugs: seq<set<nat>>)
    requires ctx.Good()
  {
    && |ctx.E| == 8 && SsaDep(ctx.prog, ctx.E, 2, 0) && DynAt(ctx.E, 0) in unneeded && DynAt(ctx.E, 2) in unneeded
    && TrueBugs.TrulyRelated(ctx, unneeded, 2, 0)
    && (exists k :: 0 <= k < |bugs| && 2 in bugs[k]) && (exists k :: 0 <= k < |bugs| && 0 in bugs[k])
    && forall k :: 0 <= k < |bugs| ==> !(0 in bugs[k] && 2 in bugs[k])
  }

  lemma {:induction false} RoundLost(tid: Tid, stale: Option<nat>, env: M.Env, edges: seq<(nat, nat)>, ctx: Context,
                                     unneeded: set<DynamicInst>, bugs: seq<set<nat>>)
    requires Pipeline.SlicedAs(ROUND, RoundTrace(tid), env, edges, ctx, unneeded)
    requires Pipeline.Reported(ctx, unneeded, bugs)
    ensures GoodCode(ROUND) && BlockTrace(ROUND, {}, RoundEvents(tid), stale) == Some(RoundTrace(tid))
    ensures ctx.Good() && ToldApart(ctx, unneeded, bugs)
  {
    hide GoodCode, BlockTrace, RoundTrace, Scanned, Framed, ReturnsMarked, M.Extracted, Execs, ToldApart, RoundExecs,
         Components.Reports;
    RoundMerges(tid, stale);
    RoundDeps(env, tid, ctx.memDep);
    RoundExecuted(ctx.prog, ctx.trace, tid);
    assert RoundContext(ctx, tid);
    RoundBugs(ctx, tid, bugs);
  }

  lemma {:induction false} RoundBugs(ctx: Context, tid: Tid, bugs: seq<set<nat>>)
    requires RoundContext(ctx, tid) && Addresses.RecordsDropped(ctx, 0, Scanned(ctx, 0))
    requires var s := Scanned(ctx, 0); Components.Reports(ctx.prog, ctx.memDep, s.unneeded, s.sameAddr, bugs)
    ensures ToldApart(ctx, Scanned(ctx, 0).unneeded, bugs)
  {
    var s := Scanned(ctx, 0);
    RoundReported(ctx, tid);
    RoundRelated(ctx, tid);
    hide RoundTrace, RoundExecs, Scanned, DynAt, InDeps, Execs, Framed, ReturnsMarked, Base, Components.Together,
         Addresses.RecordsDropped, SsaDep, TrueBugs.TrulyRelated, RoundContext;
    RoundIn(ctx, tid, bugs, 0, 0);
    RoundIn(ctx, tid, bugs, 2, 2);
    forall k | 0 <= k < |bugs| ensures !(0 in bugs[k] && 2 in bugs[k]) { RoundAlone(ctx, tid, bugs[k]); }
  }

  lemma {:induction false} RoundIn(ctx: Context, tid: Tid, bugs: seq<set<nat>>, p: nat, id: nat)
    requires p < |ctx.E| && DynAt(ctx.E, p).id == id && ctx.Good() && DynAt(ctx.E, p) in Scanned(ctx, 0).unneeded
    requires var s := Scanned(ctx, 0); Components.Reports(ctx.prog, ctx.memDep, s.unneeded, s.sameAddr, bugs)
    ensures exists k :: 0 <= k < |bugs| && id in bugs[k]
  {
    hide Scanned, DynAt, Components.IsBug;
    assert id in Components.IdsOf(Scanned(ctx, 0).unneeded);
    assert Components.InSome(bugs, id);
  }

  /** A bug of which nothing is linked with anything is one instruction. */
  lemma {:induction false} RoundAlone(ctx: Context, tid: Tid, bug: set<nat>)
    requires RoundContext(ctx, tid) && ctx.Good() && Addresses.RecordsDropped(ctx, 0, Scanned(ctx, 0))
    requires var s := Scanned(ctx, 0); Components.IsBug(ctx.prog, ctx.memDep, s.unneeded, s.sameAddr, bug)
    ensures !(0 in bug && 2 in bug)
  {
    hide Scanned, RoundContext, Addresses.RecordsDropped, Components.Together, Components.IdsOf;
    var s := Scanned(ctx, 0);
    var u :| u in bug && u in Components.IdsOf(s.unneeded)
        && forall v: nat :: v in bug <==> Components.Connected(ctx.prog, ctx.memDep, s.unneeded, s.sameAddr, u, v);
    forall v: nat | v in bug ensures v == u {
      var p :| Components.Connection(ctx.prog, ctx.memDep, s.unneeded, s.sameAddr, p) && p[0] == u && p[|p| - 1] == v;
      if |p| > 1 {
        var k: nat := 0;
        RoundApart(ctx, tid, p[k], p[k + 1]);
      }
    }
  }

  lemma {:induction false} RoundSsaDep(ctx: Context, tid: Tid)
    requires RoundContext(ctx, tid)
    ensures |ctx.E| == 8 && SsaDep(ctx.prog, ctx.E, 2, 0)
  {
    RoundUses();
    hide Uses, Execs, Framed, ReturnsMarked, RoundTrace;
  }

  lemma {:induction false} RoundRelated(ctx: Context, tid: Tid)
    requires RoundContext(ctx, tid)
    requires DynAt(ctx.E, 0) in Scanned(ctx, 0).unneeded && DynAt(ctx.E, 2) in Scanned(ctx, 0).unneeded
    ensures |ctx.E| == 8 && SsaDep(ctx.prog, ctx.E, 2, 0) && DynAt(ctx.E, 0).id == 0 && DynAt(ctx.E, 2).id == 2
    ensures TrueBugs.TrulyRelated(ctx, Scanned(ctx, 0).unneeded, 2, 0)
  {
    hide RoundContext, Scanned, DynAt, InDeps, SsaDep, Uses, AnAccess, IsReturn, SliceSound.Exempt;
    RoundKinds(ctx, tid, 0);
    RoundKinds(ctx, tid, 2);
    RoundSsaDep(ctx, tid);
    assert TrueBugs.RelatedBy(ctx, Scanned(ctx, 0).unneeded, 2, 0);
  }
}
