/** The backward dynamic slice loses nothing: the functions of module Slice keep,
    block by block, what makes the final report sound. */
module SliceSound {
  import opened Common
  import opened Executions
  import opened Slice

  // ------------------------------------------------- what one step preserves

  ghost predicate CountsAt(E: seq<Exec>, p: nat, count: map<Key, nat>)
    requires p <= |E|
  {
    forall key :: Tally(count, key) == CountKey(E, p, key)
  }

  lemma {:induction false} CountsStep(E: seq<Exec>, p: nat, above: nat, count: map<Key, nat>, count': map<Key, nat>)
    requires p < |E| && above == p + 1 && CountsAt(E, above, count)
    requires count' == count[E[p].Key() := Tally(count, E[p].Key()) + 1]
    ensures CountsAt(E, p, count')
  {
    forall key ensures Tally(count', key) == CountKey(E, p, key) {
      assert Tally(count, key) == CountKey(E, above, key);
    }
  }

  /** A dependency q of a kept execution m is either kept, or not yet reached
      and waiting to be. */
  ghost predicate Waits(ctx: Context, p: nat, m: nat, q: nat, st: Sets)
    requires ctx.Good() && p <= |ctx.E| && m < |ctx.E| && q < m
  {
    && (q >= p && DataDep(ctx.prog, ctx.memDep, ctx.trace, ctx.E, m, q) ==> q in st.kept)
    && (q < p && SsaDep(ctx.prog, ctx.E, m, q) ==> ctx.E[q].Key() in st.needed)
    && (q < p && MemDep(ctx.memDep, ctx.trace, ctx.E, m, q) ==> DynAt(ctx.E, q) in st.memDepended)
  }

  ghost predicate AllWait(ctx: Context, p: nat, st: Sets)
    requires ctx.Good() && p <= |ctx.E|
  {
    && (forall m :: m in st.kept ==> p <= m < |ctx.E|)
    && (forall m, q :: m in st.kept && 0 <= q < m < |ctx.E| ==> Waits(ctx, p, m, q, st))
  }

  datatype Sets = Sets(needed: set<Key>, memDepended: set<DynamicInst>, kept: set<nat>)

  /** What processing one needed instruction does to the two pending sets. */
  ghost predicate Processed(prog: Program, memDep: DepMap, dyn: DynamicInst, lastBB: Option<nat>, needed: set<Key>,
                            memDepended: set<DynamicInst>, needed': set<Key>, memDepended': set<DynamicInst>)
    requires dyn.id < |prog.ins|
  {
    && (forall k :: k in needed' <==>
          (k in needed && k != (dyn.tid, dyn.id)) || (k.0 == dyn.tid && Uses(prog, dyn.id, lastBB, k.1)))
    && (forall d :: d in memDepended' <==> (d in memDepended && d != dyn) || InDeps(memDep, dyn, d))
  }

  /** Keeping execution p: its dependencies wait from now on. */
  lemma {:induction false} KeepStep(ctx: Context, p: nat, above: nat, st: Sets, st': Sets)
    requires ctx.Good() && p < |ctx.E| && above == p + 1 && AllWait(ctx, above, st)
    requires Processed(ctx.prog, ctx.memDep, DynAt(ctx.E, p), ctx.E[p].lastBB,
                       st.needed, st.memDepended, st'.needed, st'.memDepended)
    requires st'.kept == st.kept + {p}
    ensures AllWait(ctx, p, st')
  {
    forall m, q | m in st'.kept && 0 <= q < m < |ctx.E| ensures Waits(ctx, p, m, q, st') {
      if m != p {
        assert Waits(ctx, above, m, q, st);
        KeepStepOld(ctx, p, above, st, st', m, q);
      }
    }
  }

  lemma {:induction false} KeepStepOld(ctx: Context, p: nat, above: nat, st: Sets, st': Sets, m: nat, q: nat)
    requires ctx.Good() && p < |ctx.E| && m < |ctx.E| && q < m && m in st.kept && p < m
    requires above == p + 1 && Waits(ctx, above, m, q, st)
    requires Processed(ctx.prog, ctx.memDep, DynAt(ctx.E, p), ctx.E[p].lastBB,
                       st.needed, st.memDepended, st'.needed, st'.memDepended)
    requires st'.kept == st.kept + {p}
    ensures Waits(ctx, p, m, q, st')
  {
    if q < p && MemDep(ctx.memDep, ctx.trace, ctx.E, m, q) {
      if DynAt(ctx.E, q) == DynAt(ctx.E, p) { DynAtInjective(ctx.E, p, q); }
    }
  }

  /** Dropping execution p, for which nothing waits. */
  lemma {:induction false} DropStep(ctx: Context, p: nat, above: nat, st: Sets)
    requires ctx.Good() && p < |ctx.E| && above == p + 1 && AllWait(ctx, above, st)
    requires ctx.E[p].Key() !in st.needed
    requires ctx.E[p].block < |ctx.trace| && IsAccess(ctx.trace[ctx.E[p].block]) ==> DynAt(ctx.E, p) !in st.memDepended
    ensures AllWait(ctx, p, st)
  {
    forall m, q | m in st.kept && 0 <= q < m < |ctx.E| ensures Waits(ctx, p, m, q, st) {
      assert Waits(ctx, above, m, q, st);
    }
  }

  /** Enlarging the pending sets, or forgetting executions already passed,
      loses nothing. */
  lemma {:induction false} RelaxStep(ctx: Context, p: nat, st: Sets, st': Sets)
    requires ctx.Good() && p <= |ctx.E| && AllWait(ctx, p, st)
    requires st'.kept == st.kept && st.needed <= st'.needed
    requires forall d :: d in st.memDepended && d !in st'.memDepended ==>
               d.cnt + CountKey(ctx.E, p, (d.tid, d.id)) >= 1
    ensures AllWait(ctx, p, st')
  {
    forall m, q | m in st'.kept && 0 <= q < m < |ctx.E| ensures Waits(ctx, p, m, q, st') {
      assert Waits(ctx, p, m, q, st);
      if q < p {
        CountKeyMono(ctx.E, q + 1, p, ctx.E[q].Key());
      }
    }
  }

  // ------------------------------------------------------- the final report

  /** Terminators with a single successor are never reported. */
  ghost predicate Exempt(ctx: Context, q: nat)
    requires ctx.Good() && q < |ctx.E|
  {
    && ctx.E[q].block < |ctx.trace| && ctx.trace[ctx.E[q].block].typ == NormalBlock
    && ctx.prog.ins[ctx.E[q].id].typ == TerminatorInst && |ctx.prog.ins[ctx.E[q].id].successors| <= 1
  }

  /** Execution q is to be reported: it was neither kept by the scan nor kept later,
      and is not exempt. */
  ghost predicate Dropped(ctx: Context, kept: set<nat>, retro: set<DynamicInst>, q: nat)
    requires ctx.Good() && q < |ctx.E|
  {
    q !in kept && DynAt(ctx.E, q) !in retro && !Exempt(ctx, q)
  }

  /** What is reported is exactly what is to be reported, from position p on. */
  ghost predicate Reported(ctx: Context, p: nat, kept: set<nat>, retro: set<DynamicInst>, unneeded: set<DynamicInst>)
    requires ctx.Good() && p <= |ctx.E|
  {
    && (forall d :: d in unneeded ==> exists q: nat :: p <= q < |ctx.E| && d == DynAt(ctx.E, q))
    && (forall q: nat :: p <= q < |ctx.E| ==> (DynAt(ctx.E, q) in unneeded <==> Dropped(ctx, kept, retro, q)))
  }

  lemma {:induction false} ReportStep(ctx: Context, p: nat, above: nat, kept: set<nat>, retro: set<DynamicInst>,
                                      unneeded: set<DynamicInst>, keep: bool, kept': set<nat>,
                                      unneeded': set<DynamicInst>)
    requires ctx.Good() && p < |ctx.E| && above == p + 1 && Reported(ctx, above, kept, retro, unneeded)
    requires forall q :: q in kept ==> p < q
    requires DynAt(ctx.E, p) !in retro
    requires kept' == if keep then kept + {p} else kept
    requires unneeded' == if keep || Exempt(ctx, p) then unneeded else unneeded + {DynAt(ctx.E, p)}
    ensures Reported(ctx, p, kept', retro, unneeded')
  {
    hide DynAt, Exempt;
    NotYet(ctx, p, above, kept, retro, unneeded);
    forall q: nat | above <= q < |ctx.E| ensures DynAt(ctx.E, q) in unneeded' <==> Dropped(ctx, kept', retro, q) {
      if DynAt(ctx.E, q) == DynAt(ctx.E, p) { DynAtInjective(ctx.E, p, q); }
    }
  }

  lemma {:induction false} NotYet(ctx: Context, p: nat, above: nat, kept: set<nat>, retro: set<DynamicInst>,
                                  unneeded: set<DynamicInst>)
    requires ctx.Good() && p < |ctx.E| && above == p + 1 && Reported(ctx, above, kept, retro, unneeded)
    ensures DynAt(ctx.E, p) !in unneeded
  {
    hide DynAt, Dropped;
    if DynAt(ctx.E, p) in unneeded {
      var q: nat :| above <= q < |ctx.E| && DynAt(ctx.E, p) == DynAt(ctx.E, q);
      DynAtInjective(ctx.E, p, q);
    }
  }

  // ----------------------------------------------------------- the slicer

  /** The one instruction of an access, as an execution. */
  lemma {:induction false} AccessExec(ctx: Context, i: nat, p: nat)
    requires ctx.Good() && i < |ctx.trace| && IsAccess(ctx.trace[i]) && !Skipped(ctx.prog, ctx.trace[i])
    requires p == Base(ctx.prog, ctx.trace, i)
    ensures p < |ctx.E|
    ensures var b := ctx.trace[i]; ctx.E[p] == Exec(b.tid, ctx.prog.bb2ins[b.bb][b.start], i, b.lastBB)
  {
    ExecOfBlock(ctx.prog, ctx.trace, i, 0);
  }

  /** Instruction k of a normal block, as an execution. */
  lemma {:induction false} NormalExec(ctx: Context, i: nat, k: nat, p: nat)
    requires ctx.Good() && i < |ctx.trace| && ctx.trace[i].typ == NormalBlock
             && BlockReturnsMarked(ctx.prog, ctx.trace[i])
    requires ctx.trace[i].start <= k < ctx.trace[i].end && p == Base(ctx.prog, ctx.trace, i) + (k - ctx.trace[i].start)
    ensures p < |ctx.E|
    ensures var b := ctx.trace[i];
            var id := ctx.prog.bb2ins[b.bb][k];
            && ctx.E[p] == Exec(b.tid, id, i, b.lastBB)
            && (ctx.prog.ins[id].typ == ReturnInst && !ReturnVoid(ctx.prog.ins[id].code) ==> b.isLast in {1, 2})
  {
    hide Base, Execs, Formed;
    var b := ctx.trace[i];
    var j := k - b.start;
    assert Ids(ctx.prog, b)[j] == ctx.prog.bb2ins[b.bb][k];
    ExecOfBlock(ctx.prog, ctx.trace, i, j);
  }

  /** Executions numbered like this have all been passed. */
  ghost predicate Passed(count: map<Key, nat>, d: DynamicInst) {
    d.cnt + Tally(count, (d.tid, d.id)) >= 1
  }

  lemma {:induction false} RetroStep(E: seq<Exec>, p: nat, above: nat, count: map<Key, nat>, retro: set<DynamicInst>)
    requires p < |E| && above == p + 1 && CountsAt(E, above, count)
    requires forall d :: d in retro ==> Passed(count, d)
    ensures DynAt(E, p) !in retro
    ensures forall d :: d in retro ==> Passed(count[E[p].Key() := Tally(count, E[p].Key()) + 1], d)
  {
    assert Tally(count, E[p].Key()) == CountKey(E, above, E[p].Key());
  }

  // ----------------------------------------------- the scan between two steps

  /** Everything the scan has established when it stands at position p. */
  ghost predicate Inv(ctx: Context, p: nat, s: Scan) {
    && ctx.Good() && p <= |ctx.E|
    && CountsAt(ctx.E, p, s.count)
    && AllWait(ctx, p, Sets(s.needed, s.memDepended, s.kept))
    && Reported(ctx, p, s.kept, s.retro, s.unneeded)
    && (forall d :: d in s.retro ==> Passed(s.count, d))
  }

  /** A terminator that may still have to be kept has already been passed. */
  ghost predicate TerminatorsPassed(prog: Program, s: Scan) {
    forall tid, k :: tid in s.terminators && 0 <= k < |s.terminators[tid]| && !s.terminators[tid][k].used ==>
      var d := s.terminators[tid][k].dyn;
      d.tid == tid && d.id < |prog.ins| && Passed(s.count, d)
  }

  /** The same, while execution `dyn` is being passed. */
  ghost predicate TerminatorsPassedOr(prog: Program, s: Scan, dyn: DynamicInst) {
    forall tid, k :: tid in s.terminators && 0 <= k < |s.terminators[tid]| && !s.terminators[tid][k].used ==>
      var d := s.terminators[tid][k].dyn;
      d.tid == tid && d.id < |prog.ins| && (Passed(s.count, d) || d == dyn)
  }

  /** The three stacks of every thread have the given height. */
  ghost predicate Heights(s: Scan, depth: Tid -> int) {
    && (forall tid :: |StackOf(s.funUsed, tid)| == depth(tid))
    && (forall tid :: |StackOf(s.nextBB, tid)| == depth(tid))
    && (forall tid :: |StackOf(s.terminators, tid)| == depth(tid))
  }

  ghost predicate BlocksKnown(prog: Program, s: Scan) {
    forall tid, k :: tid in s.nextBB && 0 <= k < |s.nextBB[tid]| ==> s.nextBB[tid][k].0 < |prog.bb2ins|
  }

  ghost predicate Stacks(prog: Program, depth: Tid -> int, s: Scan) {
    TerminatorsPassed(prog, s) && BlocksKnown(prog, s) && Heights(s, depth)
  }

  ghost predicate Stable(ctx: Context, p: nat, depth: Tid -> int, s: Scan) {
    Inv(ctx, p, s) && Stacks(ctx.prog, depth, s)
  }

  /** Only the stacks and the addresses have changed. */
  ghost predicate StacksOnly(s: Scan, s': Scan) {
    s' == s.(funUsed := s'.funUsed, nextBB := s'.nextBB, terminators := s'.terminators, sameAddr := s'.sameAddr)
  }

  lemma {:induction false} InvSame(ctx: Context, p: nat, s: Scan, s': Scan)
    requires Inv(ctx, p, s) && StacksOnly(s, s')
    ensures Inv(ctx, p, s')
  {
    hide CountsAt, AllWait, Reported, Passed;
  }

  // --------------------------------------------------------- one instruction

  lemma {:induction false} ProcessedBy(ctx: Context, d: DynamicInst, lastBB: Option<nat>, needed: set<Key>,
                                       memDepended: set<DynamicInst>)
    requires d.id < |ctx.prog.ins|
    ensures Processed(ctx.prog, ctx.memDep, d, lastBB, needed, memDepended,
                      Needing(ctx, needed, d, lastBB), Depending(ctx, memDepended, d))
  {
    hide Uses;
  }

  /** Execution p may be treated like this. */
  ghost predicate Rightly(ctx: Context, p: nat, s: Scan, d: DynamicInst, lastBB: Option<nat>, isNeeded: bool,
                          report: bool) {
    && ctx.Good() && p < |ctx.E| && d == DynAt(ctx.E, p) && lastBB == ctx.E[p].lastBB
    && ((d.tid, d.id) in s.needed ==> isNeeded)
    && (ctx.E[p].block < |ctx.trace| && IsAccess(ctx.trace[ctx.E[p].block]) && d in s.memDepended ==> isNeeded)
    && (report <==> !Exempt(ctx, p))
  }

  lemma {:induction false} AccountedInv(ctx: Context, p: nat, above: nat, s: Scan, d: DynamicInst, lastBB: Option<nat>,
                                        isNeeded: bool, report: bool)
    requires above == p + 1 && Inv(ctx, above, s) && Rightly(ctx, p, s, d, lastBB, isNeeded, report)
    ensures Inv(ctx, p, Accounted(ctx, s, p, d, lastBB, isNeeded, report))
  {
    hide CountsAt, Processed, Needing, Depending, Exempt, Passed, Reported, Waits, IsAccess;
    var s' := Accounted(ctx, s, p, d, lastBB, isNeeded, report);
    var (st, st') := (Sets(s.needed, s.memDepended, s.kept), Sets(s'.needed, s'.memDepended, s'.kept));
    if isNeeded {
      ProcessedBy(ctx, d, lastBB, s.needed, s.memDepended);
      KeepStep(ctx, p, above, st, st');
    } else {
      DropStep(ctx, p, above, st);
    }
    RetroStep(ctx.E, p, above, s.count, s.retro);
    ReportStep(ctx, p, above, s.kept, s.retro, s.unneeded, isNeeded, s'.kept, s'.unneeded);
    CountsStep(ctx.E, p, above, s.count, s'.count);
  }

  lemma {:induction false} PassingStable(ctx: Context, p: nat, above: nat, s: Scan, d: DynamicInst,
                                         lastBB: Option<nat>, isNeeded: bool, report: bool, depth: Tid -> int)
    requires above == p + 1 && Inv(ctx, above, s) && Rightly(ctx, p, s, d, lastBB, isNeeded, report)
    requires TerminatorsPassedOr(ctx.prog, s, d) && BlocksKnown(ctx.prog, s) && Heights(s, depth)
    ensures Stable(ctx, p, depth, Passing(ctx, s, p, d, lastBB, isNeeded, report))
  {
    hide CountsAt, AllWait, Reported, Rightly, Accounted, Tally, Inv, Passed, Marked;
    AccountedInv(ctx, p, above, s, d, lastBB, isNeeded, report);
    var s1 := Accounted(ctx, s, p, d, lastBB, isNeeded, report);
    InvSame(ctx, p, s1, Passing(ctx, s, p, d, lastBB, isNeeded, report));
    AccountedStacks(ctx, p, above, s, d, lastBB, isNeeded, report);
    MarkedHeights(s1, d.tid, isNeeded, depth);
  }

  lemma {:induction false} AccountedStacks(ctx: Context, p: nat, above: nat, s: Scan, d: DynamicInst,
                                           lastBB: Option<nat>, isNeeded: bool, report: bool)
    requires above == p + 1 && Inv(ctx, above, s) && Rightly(ctx, p, s, d, lastBB, isNeeded, report)
    requires TerminatorsPassedOr(ctx.prog, s, d)
    ensures var s' := Accounted(ctx, s, p, d, lastBB, isNeeded, report);
            && s'.nextBB == s.nextBB && s'.terminators == s.terminators && s'.funUsed == s.funUsed
            && TerminatorsPassed(ctx.prog, s')
  {
    JustPassed(ctx, p, above, s.count, d);
    hide AllWait, Reported, Rightly, Needing, Depending, Tally, Passed, CountsAt;
  }

  lemma {:induction false} MarkedHeights(s: Scan, tid: Tid, used: bool, depth: Tid -> int)
    requires Heights(s, depth)
    ensures Heights(s.(funUsed := Marked(s.funUsed, tid, used)), depth)
  {
  }

  lemma {:induction false} JustPassed(ctx: Context, p: nat, above: nat, count: map<Key, nat>, d: DynamicInst)
    requires p < |ctx.E| && above == p + 1 && d == DynAt(ctx.E, p) && CountsAt(ctx.E, above, count)
    ensures var count' := count[(d.tid, d.id) := Tally(count, (d.tid, d.id)) + 1];
            Passed(count', d) && forall d' :: Passed(count, d') ==> Passed(count', d')
  {
    assert Tally(count, ctx.E[p].Key()) == CountKey(ctx.E, above, ctx.E[p].Key());
  }

  // ------------------------------------------- a terminator that is kept later

  lemma {:induction false} WalkedMeets(ctx: Context, s: Scan, p: nat, dyn: DynamicInst, lastBB: Option<nat>, bb: nat,
                                       k: nat)
    requires GoodProgram(ctx.prog) && dyn.id < |ctx.prog.ins| && Passed(s.count, dyn)
    ensures var l := Walked(ctx, s, p, dyn, lastBB, bb, k);
            && dyn in l.step && (forall d :: d in l.step ==> Passed(s.count, d))
            && (forall d :: d in s.memDepended && d !in l.memDepended ==> d in l.step)
            && NeedsMet(ctx.prog, ctx.memDep, lastBB, dyn.tid, l.step, {}, l.needed, l.memDepended)
    decreases |BlockIds(ctx.prog, bb)| - k
  {
    hide NeedsMet, Processed, Uses, Operands;
    var ids := BlockIds(ctx.prog, bb);
    if k >= |ids| {
      ProcessedBy(ctx, dyn, lastBB, {}, s.memDepended);
      NoNeeds(ctx, lastBB, dyn.tid, s.memDepended);
      KeepMeets(ctx, dyn.tid, Late({}, s.memDepended, {}, {}), Terminating(ctx, s.walks, p, dyn, lastBB, bb));
    } else {
      WalkedMeets(ctx, s, p, dyn, lastBB, bb, k + 1);
      var l := Walked(ctx, s, p, dyn, lastBB, bb, k + 1);
      KeepMeets(ctx, dyn.tid, l, Later(Beside(s.count, dyn, ids[k]), s.walks, p, bb, k, lastBB));
    }
  }

  lemma {:induction false} NoNeeds(ctx: Context, lastBB: Option<nat>, tid: Tid, memDepended: set<DynamicInst>)
    ensures NeedsMet(ctx.prog, ctx.memDep, lastBB, tid, {}, {}, {}, memDepended)
  {
  }

  lemma {:induction false} KeepMeets(ctx: Context, tid: Tid, l: Late, w: Later)
    requires w.dyn.id < |ctx.prog.ins| && w.dyn.tid == tid
    requires NeedsMet(ctx.prog, ctx.memDep, w.lastBB, tid, l.step, {}, l.needed, l.memDepended)
    ensures var l' := Keep(ctx, l, w);
            && NeedsMet(ctx.prog, ctx.memDep, w.lastBB, tid, l'.step, {}, l'.needed, l'.memDepended)
            && forall x :: x in l.memDepended && x !in l'.memDepended ==> x == w.dyn
  {
    hide NeedsMet;
    ProcessedBy(ctx, w.dyn, w.lastBB, l.needed, l.memDepended);
    NeedsStep(ctx.prog, ctx.memDep, w.lastBB, w.dyn, l.step, l.needed, l.memDepended,
              Needing(ctx, l.needed, w.dyn, w.lastBB), Depending(ctx, l.memDepended, w.dyn));
  }

  /** Only executions already passed are touched, so nothing pending is consumed;
      what they need in turn is left pending. */
  lemma {:induction false} BlockKeptInv(ctx: Context, p: nat, s: Scan, dyn: DynamicInst, lastBB: Option<nat>, bb: nat)
    requires Inv(ctx, p, s) && dyn.id < |ctx.prog.ins| && Passed(s.count, dyn)
    ensures var s' := BlockKept(ctx, s, p, dyn, lastBB, bb);
            && Inv(ctx, p, s') && dyn in s'.retro
            && NeedsMet(ctx.prog, ctx.memDep, lastBB, dyn.tid, s'.retro, s.retro, s'.needed, s'.memDepended)
  {
    hide CountsAt, AllWait, Reported, Uses;
    WalkedMeets(ctx, s, p, dyn, lastBB, bb, 0);
    var l := Walked(ctx, s, p, dyn, lastBB, bb, 0);
    PassedAt(ctx.E, p, s.count);
    RelaxStep(ctx, p, Sets(s.needed, s.memDepended, s.kept), Sets(s.needed + l.needed, l.memDepended, s.kept));
    RetroReported(ctx, p, s.kept, s.retro, l.step, s.unneeded);
  }

  lemma {:induction false} PassedAt(E: seq<Exec>, p: nat, count: map<Key, nat>)
    requires p <= |E| && CountsAt(E, p, count)
    ensures forall d :: Passed(count, d) ==> d.cnt + CountKey(E, p, (d.tid, d.id)) >= 1
  {
    forall d | Passed(count, d) ensures d.cnt + CountKey(E, p, (d.tid, d.id)) >= 1 {
      assert Tally(count, (d.tid, d.id)) == CountKey(E, p, (d.tid, d.id));
    }
  }

  lemma {:induction false} TerminatorKeptStable(ctx: Context, p: nat, s: Scan, b: SmallestBlock, bb: nat,
                                                depth: Tid -> int)
    requires Stable(ctx, p, depth, s)
    ensures Stable(ctx, p, depth, TerminatorKept(ctx, s, p, b, bb))
    ensures var t := TopOr(StackOf(s.terminators, b.tid), Terminator(bb, NO_TERMINATOR, true));
            t.used || t.dyn in TerminatorKept(ctx, s, p, b, bb).retro
  {
    hide CountsAt, AllWait, Reported, Passed, Walked;
    var t := TopOr(StackOf(s.terminators, b.tid), Terminator(bb, NO_TERMINATOR, true));
    if !t.used { BlockKeptInv(ctx, p, s, t.dyn, b.lastBB, bb); }
  }

  // ------------------------------------------------------------- one block

  lemma {:induction false} PlacedPassed(prog: Program, s: Scan, tid: Tid, t: Terminator)
    requires TerminatorsPassed(prog, s)
    ensures var s' := s.(terminators := Placed(s.terminators, tid, t));
            && (t.used ==> TerminatorsPassed(prog, s'))
            && (t.dyn.tid == tid && t.dyn.id < |prog.ins| ==> TerminatorsPassedOr(prog, s', t.dyn))
  {
    hide Passed;
  }

  lemma {:induction false} PushStacks(prog: Program, s: Scan, b: SmallestBlock, depth: Tid -> int)
    requires Stacks(prog, depth, s) && b.bb < |prog.bb2ins|
    ensures Stacks(prog, Raise(depth, b.tid, 1),
                   s.(funUsed := Pushed(s.funUsed, b.tid, false), nextBB := Pushed(s.nextBB, b.tid, (b.bb, false)),
                      terminators := Pushed(s.terminators, b.tid, Terminator(b.bb, NO_TERMINATOR, true))))
  {
    hide Passed;
  }

  lemma {:induction false} PopStacks(prog: Program, s: Scan, tid: Tid, depth: Tid -> int)
    requires Stacks(prog, depth, s) && depth(tid) >= 1
    ensures Stacks(prog, Raise(depth, tid, -1),
                   s.(funUsed := Popped(s.funUsed, tid), nextBB := Popped(s.nextBB, tid),
                      terminators := Popped(s.terminators, tid)))
  {
    hide Passed;
  }

  lemma {:induction false} PlacedStacks(prog: Program, s: Scan, tid: Tid, t: Terminator, depth: Tid -> int)
    requires Stacks(prog, depth, s) && t.used
    ensures Stacks(prog, depth, s.(terminators := Placed(s.terminators, tid, t)))
  {
    hide Passed, TerminatorsPassed, BlocksKnown;
    PlacedPassed(prog, s, tid, t);
    SameBlocks(prog, s, s.(terminators := Placed(s.terminators, tid, t)));
  }

  lemma {:induction false} SameBlocks(prog: Program, s: Scan, s': Scan)
    requires BlocksKnown(prog, s) && s.nextBB == s'.nextBB
    ensures BlocksKnown(prog, s')
  {
  }

  lemma {:induction false} EnteredStable(ctx: Context, p: nat, s: Scan, b: SmallestBlock, depth: Tid -> int)
    requires Stable(ctx, p, depth, s) && b.bb < |ctx.prog.bb2ins|
    ensures Stable(ctx, p, Opened(b, depth), Entered(ctx, s, p, b))
  {
    hide Inv, Stacks, TerminatorKept, Pushed, Placed;
    var next := StackOf(s.nextBB, b.tid);
    var s' := Entered(ctx, s, p, b);
    if b.isLast > 0 {
      PushStacks(ctx.prog, s, b, depth);
      InvSame(ctx, p, s, s');
    } else if next != [] && Top(next).0 != b.bb && Top(next).1 {
      var s1 := TerminatorKept(ctx, s, p, b, Top(next).0);
      TerminatorKeptStable(ctx, p, s, b, Top(next).0, depth);
      PlacedStacks(ctx.prog, s1, b.tid, Terminator(b.bb, NO_TERMINATOR, true), depth);
      InvSame(ctx, p, s1, s');
    }
  }

  lemma {:induction false} AccessStable(ctx: Context, i: nat, lo: nat, hi: nat, s: Scan, depth: Tid -> int)
    requires ctx.Good() && i < |ctx.trace| && IsAccess(ctx.trace[i]) && !Skipped(ctx.prog, ctx.trace[i])
    requires lo == Base(ctx.prog, ctx.trace, i) && hi == lo + 1 && Stable(ctx, hi, depth, s)
    ensures var s' := AccessDone(ctx, s, ctx.trace[i], lo);
            && Stable(ctx, lo, depth, s') && s.kept <= s'.kept <= s.kept + {lo}
            && (ctx.trace[i].typ == ImpactfulCallBlock ==> lo in s'.kept)
  {
    hide Base, CountsAt, AllWait, Reported, Passed, Heights, BlocksKnown, Needing, Depending, Marked;
    var b := ctx.trace[i];
    AccessExec(ctx, i, lo);
    var d := Numbered(s, b.tid, ctx.prog.bb2ins[b.bb][b.start]);
    NumberedAt(ctx.E, lo, hi, s);
    var isNeeded := AccessNeeded(s, b, d);
    PassingStable(ctx, lo, hi, s, d, b.lastBB, isNeeded, true, depth);
    AddressedSame(ctx, lo, Passing(ctx, s, lo, d, b.lastBB, isNeeded, true), b, d.id, isNeeded, depth);
  }

  lemma {:induction false} AddressedSame(ctx: Context, p: nat, s: Scan, b: SmallestBlock, id: nat, isNeeded: bool,
                                         depth: Tid -> int)
    requires Stable(ctx, p, depth, s) && (b.typ == MemoryAccessBlock ==> |b.addr| == 2)
    ensures Stable(ctx, p, depth, Addressed(s, b, id, isNeeded)) && Addressed(s, b, id, isNeeded).kept == s.kept
  {
    hide CountsAt, AllWait, Reported, Passed;
  }

  /** The number the scan gives an execution. */
  lemma {:induction false} NumberedAt(E: seq<Exec>, p: nat, above: nat, s: Scan)
    requires p < |E| && above == p + 1 && CountsAt(E, above, s.count)
    ensures Numbered(s, E[p].tid, E[p].id) == DynAt(E, p)
  {
    assert Tally(s.count, E[p].Key()) == CountKey(E, above, E[p].Key());
  }

  /** What is newly kept lies before position hi. */
  ghost predicate NewBelow(kept: set<nat>, kept': set<nat>, hi: nat) {
    kept <= kept' && forall m :: m in kept' ==> m in kept || m < hi
  }

  /** Position p executes instruction `id` of the normal block b. */
  ghost predicate InNormal(ctx: Context, p: nat, b: SmallestBlock, id: nat) {
    && ctx.Good() && p < |ctx.E| && ctx.E[p].block < |ctx.trace| && b == ctx.trace[ctx.E[p].block]
        && b.typ == NormalBlock
    && ctx.E[p] == Exec(b.tid, id, ctx.E[p].block, b.lastBB)
  }

  lemma {:induction false} NormalStepStable(ctx: Context, p: nat, above: nat, s: Scan, b: SmallestBlock, id: nat,
                                            depth: Tid -> int)
    requires above == p + 1 && Stable(ctx, above, depth, s) && InNormal(ctx, p, b, id)
    ensures Stable(ctx, p, depth, NormalStep(ctx, s, b, id, p))
    ensures s.kept <= NormalStep(ctx, s, b, id, p).kept <= s.kept + {p}
  {
    hide CountsAt, AllWait, Reported, Passed, Needing, Depending, Branches, Returns, DynAt, Waits, Passing;
    var d := Numbered(s, b.tid, id);
    NumberedAt(ctx.E, p, above, s);
    var isNeeded := NormalNeeded(ctx, s, b, d);
    var info := ctx.prog.ins[id];
    var t := Terminator(b.bb, d, isNeeded);
    PlacedPassed(ctx.prog, s, b.tid, t);
    var s1 := if info.typ == TerminatorInst then s.(terminators := Placed(s.terminators, b.tid, t)) else s;
    SameButTerminators(ctx, above, s, s1, d, depth);
    PassingStable(ctx, p, above, s1, d, b.lastBB, isNeeded, !(info.typ == TerminatorInst
        && |info.successors| <= 1), depth);
    PassingKept(ctx, s1, p, d, b.lastBB, isNeeded, !(info.typ == TerminatorInst && |info.successors| <= 1));
  }

  lemma {:induction false} PassingKept(ctx: Context, s: Scan, p: nat, d: DynamicInst, lastBB: Option<nat>,
                                       isNeeded: bool, report: bool)
    ensures var s' := Passing(ctx, s, p, d, lastBB, isNeeded, report);
            && s'.kept == (if isNeeded then s.kept + {p} else s.kept)
            && s'.nextBB == s.nextBB && s'.terminators == s.terminators && s'.retro == s.retro && s'.late == s.late
  {
  }

  lemma {:induction false} SameButTerminators(ctx: Context, above: nat, s: Scan, s1: Scan, d: DynamicInst,
                                              depth: Tid -> int)
    requires Stable(ctx, above, depth, s)
    requires || s1 == s
             || (TerminatorsPassedOr(ctx.prog, s1, d)
                 && exists tid, t :: s1 == s.(terminators := Placed(s.terminators, tid, t)))
    ensures Inv(ctx, above, s1) && TerminatorsPassedOr(ctx.prog, s1, d) && BlocksKnown(ctx.prog, s1)
            && Heights(s1, depth)
  {
    hide CountsAt, AllWait, Reported, Passed;
  }

  lemma {:induction false} NormalDoneStable(ctx: Context, i: nat, lo: nat, hi: nat, s: Scan, k: nat, depth: Tid -> int)
    requires ctx.Good() && i < |ctx.trace| && ctx.trace[i].typ == NormalBlock
             && BlockReturnsMarked(ctx.prog, ctx.trace[i])
    requires ctx.trace[i].start <= k <= ctx.trace[i].end
    requires lo == Base(ctx.prog, ctx.trace, i) && hi == lo + (ctx.trace[i].end - ctx.trace[i].start)
    requires Stable(ctx, hi, depth, s)
    ensures var s' := NormalDone(ctx, s, ctx.trace[i], lo, k);
            Stable(ctx, lo + (k - ctx.trace[i].start), depth, s') && NewBelow(s.kept, s'.kept, hi)
    decreases ctx.trace[i].end - k
  {
    hide Base, Stable, NormalStep;
    var b := ctx.trace[i];
    if k < b.end {
      NormalDoneStable(ctx, i, lo, hi, s, k + 1, depth);
      var (p, above) := (lo + (k - b.start), lo + (k + 1 - b.start));
      NormalExec(ctx, i, k, p);
      NormalStepStable(ctx, p, above, NormalDone(ctx, s, b, lo, k + 1), b, ctx.prog.bb2ins[b.bb][k], depth);
    }
  }

  lemma {:induction false} NotedStacks(prog: Program, s: Scan, b: SmallestBlock, used: bool, depth: Tid -> int)
    requires Stacks(prog, depth, s) && b.bb < |prog.bb2ins|
    ensures Stacks(prog, depth, s.(nextBB := Noted(s.nextBB, b, used)))
  {
    hide Passed;
  }

  lemma {:induction false} NeedMore(ctx: Context, p: nat, s: Scan, keys: set<Key>, depth: Tid -> int)
    requires Stable(ctx, p, depth, s)
    ensures Stable(ctx, p, depth, s.(needed := s.needed + keys))
  {
    hide CountsAt, AllWait, Reported, Passed;
    RelaxStep(ctx, p, Sets(s.needed, s.memDepended, s.kept), Sets(s.needed + keys, s.memDepended, s.kept));
  }

  lemma {:induction false} LeftStable(ctx: Context, p: nat, s: Scan, b: SmallestBlock, used: bool, depth: Tid -> int)
    requires Stable(ctx, p, depth, s) && depth(b.tid) >= 1 && b.bb < |ctx.prog.bb2ins|
    ensures Stable(ctx, p, Closed(b, depth), Left(ctx, s, p, b, used))
  {
    hide Inv, Stacks, TerminatorKept, Noted, Popped;
    var s1 := s.(nextBB := Noted(s.nextBB, b, used));
    NotedStacks(ctx.prog, s, b, used, depth);
    InvSame(ctx, p, s, s1);
    if b.isFirst > 0 {
      var s2 := CallerNeeded(s1, b);
      if s2 != s1 { NeedMore(ctx, p, s1, {(b.tid, b.caller.value)}, depth); }
      TerminatorKeptStable(ctx, p, s2, b, b.bb, depth);
      var s3 := RunEnded(ctx, s2, p, b);
      PopStacks(ctx.prog, s3, b.tid, depth);
      InvSame(ctx, p, s3, Left(ctx, s, p, b, used));
    }
  }

  lemma {:induction false} BeforeLeaving(ctx: Context, i: nat, lo: nat, hi: nat, s: Scan, depth: Tid -> int)
    requires ctx.Good() && i < |ctx.trace| && ctx.trace[i].typ != DeclareBlock && !Skipped(ctx.prog, ctx.trace[i])
    requires BlockReturnsMarked(ctx.prog, ctx.trace[i])
    requires lo == Base(ctx.prog, ctx.trace, i) && hi == lo + |Ids(ctx.prog, ctx.trace[i])|
    requires Stable(ctx, hi, depth, s)
    ensures var b := ctx.trace[i];
            var s' := if b.typ == NormalBlock then NormalDone(ctx, s, b, lo, b.start) else AccessDone(ctx, s, b, lo);
            && Stable(ctx, lo, depth, s') && NewBelow(s.kept, s'.kept, hi)
            && (b.typ == ImpactfulCallBlock ==> lo in s'.kept)
  {
    hide Base, Stable, BlockReturnsMarked, NormalDone, AccessDone;
    var b := ctx.trace[i];
    if b.typ == NormalBlock {
      NormalDoneStable(ctx, i, lo, hi, s, b.start, depth);
    } else {
      AccessStable(ctx, i, lo, hi, s, depth);
    }
  }

  lemma {:induction false} InstructionsStable(ctx: Context, i: nat, lo: nat, hi: nat, s: Scan, depth: Tid -> int)
    requires ctx.Good() && i < |ctx.trace| && ctx.trace[i].typ != DeclareBlock && !Skipped(ctx.prog, ctx.trace[i])
    requires BlockReturnsMarked(ctx.prog, ctx.trace[i])
    requires lo == Base(ctx.prog, ctx.trace, i) && hi == lo + |Ids(ctx.prog, ctx.trace[i])|
    requires Stable(ctx, hi, depth, s) && depth(ctx.trace[i].tid) >= 1
    ensures var s' := InstructionsDone(ctx, s, i);
            && Stable(ctx, lo, Closed(ctx.trace[i], depth), s') && NewBelow(s.kept, s'.kept, hi)
            && (ctx.trace[i].typ == ImpactfulCallBlock ==> lo in s'.kept)
  {
    hide Base, Stable, BlockReturnsMarked, NormalDone, AccessDone, Skipped, Left;
    var b := ctx.trace[i];
    BeforeLeaving(ctx, i, lo, hi, s, depth);
    var s1 := if b.typ == NormalBlock then NormalDone(ctx, s, b, lo, b.start) else AccessDone(ctx, s, b, lo);
    var used := KeptWithin(s1.kept, lo, lo + |Ids(ctx.prog, b)|);
    LeftStable(ctx, lo, s1, b, used, depth);
    LeftKept(ctx, s1, lo, b, used);
  }

  /** Nothing before the scan's position has been kept. */
  lemma {:induction false} StableFresh(ctx: Context, p: nat, depth: Tid -> int, s: Scan)
    requires Stable(ctx, p, depth, s)
    ensures forall q :: 0 <= q < p ==> q !in s.kept
  {
  }

  lemma {:induction false} TerminatorKeptFrame(ctx: Context, s: Scan, p: nat, b: SmallestBlock, bb: nat)
    ensures var s' := TerminatorKept(ctx, s, p, b, bb);
            s' == s.(needed := s'.needed, memDepended := s'.memDepended, unneeded := s'.unneeded, retro := s'.retro,
                     late := s'.late, walks := s'.walks)
  {
    hide Walked;
  }

  lemma {:induction false} LeftKept(ctx: Context, s: Scan, p: nat, b: SmallestBlock, used: bool)
    ensures Left(ctx, s, p, b, used).kept == s.kept && Entered(ctx, s, p, b).kept == s.kept
    ensures Left(ctx, s, p, b, used).sameAddr == s.sameAddr && Entered(ctx, s, p, b).sameAddr == s.sameAddr
  {
    hide TerminatorKept, Noted, Popped, Placed, Pushed;
    var next := StackOf(s.nextBB, b.tid);
    if next != [] { TerminatorKeptFrame(ctx, s, p, b, Top(next).0); }
    TerminatorKeptFrame(ctx, CallerNeeded(s.(nextBB := Noted(s.nextBB, b, used)), b), p, b, b.bb);
  }

  lemma {:induction false} BlockStable(ctx: Context, i: nat, n: nat, s: Scan)
    requires ctx.Good() && i < |ctx.trace| && n == i + 1
    requires Framed(ctx.prog, ctx.trace) && ReturnsMarked(ctx.prog, ctx.trace)
    requires Stable(ctx, Base(ctx.prog, ctx.trace, n), DepthAt(ctx.prog, ctx.trace, n), s)
    ensures var s' := BlockDone(ctx, s, i);
            && Stable(ctx, Base(ctx.prog, ctx.trace, i), DepthAt(ctx.prog, ctx.trace, i), s')
            && NewBelow(s.kept, s'.kept, Base(ctx.prog, ctx.trace, n))
            && (ctx.trace[i].typ == ImpactfulCallBlock ==> Base(ctx.prog, ctx.trace, i) in s'.kept)
  {
    hide Base, Stable, ReturnsMarked, BlockReturnsMarked, InstructionsDone, Entered, Framed;
    var b := ctx.trace[i];
    FramedAt(ctx, i);
    MarkedAt(ctx, i);
    var (lo, hi) := (Base(ctx.prog, ctx.trace, i), Base(ctx.prog, ctx.trace, n));
    var depth := DepthAt(ctx.prog, ctx.trace, n);
    BaseStep(ctx.prog, ctx.trace, i);
    assert DepthAt(ctx.prog, ctx.trace, i) == DepthAfter(ctx.prog, b, depth);
    if b.typ != DeclareBlock {
      EnteredStable(ctx, hi, s, b, depth);
      LeftKept(ctx, s, hi, b, false);
      if !Skipped(ctx.prog, b) { InstructionsStable(ctx, i, lo, hi, Entered(ctx, s, hi, b), Opened(b, depth)); }
    }
  }

  lemma {:induction false} FramedAt(ctx: Context, i: nat)
    requires ctx.Good() && i < |ctx.trace| && Framed(ctx.prog, ctx.trace)
    ensures var b := ctx.trace[i];
            b.typ != DeclareBlock && !Skipped(ctx.prog, b) ==>
                  Opened(b, DepthAt(ctx.prog, ctx.trace, i + 1))(b.tid) >= 1
  {
  }

  lemma {:induction false} MarkedAt(ctx: Context, i: nat)
    requires ctx.Good() && i < |ctx.trace| && ReturnsMarked(ctx.prog, ctx.trace)
    ensures BlockReturnsMarked(ctx.prog, ctx.trace[i])
  {
  }

  lemma {:induction false} ScannedStable(ctx: Context, n: nat)
    requires ctx.Good() && n <= |ctx.trace| && Framed(ctx.prog, ctx.trace) && ReturnsMarked(ctx.prog, ctx.trace)
    ensures Stable(ctx, Base(ctx.prog, ctx.trace, n), DepthAt(ctx.prog, ctx.trace, n), Scanned(ctx, n))
    ensures ImpactfulKept(ctx, n, Scanned(ctx, n).kept)
    decreases |ctx.trace| - n
  {
    hide Base, ReturnsMarked, Framed, BlockDone;
    if n == |ctx.trace| {
      ExecsEnd(ctx.prog, ctx.trace);
    } else {
      hide Stable;
      ScannedStable(ctx, n + 1);
      BlockStable(ctx, n, n + 1, Scanned(ctx, n + 1));
      ImpactfulStep(ctx, n, n + 1, Scanned(ctx, n + 1).kept, Scanned(ctx, n).kept);
    }
  }

  /** Every execution is either kept, or kept later, or reported, or the terminator of a
      block with one successor; and impactful calls are kept. */
  lemma {:induction false} ScannedPartition(ctx: Context)
    requires ctx.Good() && Framed(ctx.prog, ctx.trace) && ReturnsMarked(ctx.prog, ctx.trace)
    ensures var s := Scanned(ctx, 0); Partition(ctx, s.kept, s.retro, s.unneeded)
    ensures forall p :: 0 <= p < |ctx.E| && Impactful(ctx, p) ==> p in Scanned(ctx, 0).kept
  {
    hide Base, Framed, ReturnsMarked, CountsAt, Scanned;
    ScannedStable(ctx, 0);
    assert Base(ctx.prog, ctx.trace, 0) == 0 by { FirstBase(ctx); }
    AllImpactfulKept(ctx, Scanned(ctx, 0).kept);
  }

  lemma {:induction false} FirstBase(ctx: Context)
    requires ctx.Good()
    ensures Base(ctx.prog, ctx.trace, 0) == 0
  {
  }

  ghost predicate Partition(ctx: Context, kept: set<nat>, retro: set<DynamicInst>, unneeded: set<DynamicInst>) {
    ctx.Good() && Reported(ctx, 0, kept, retro, unneeded)
  }

  // -------------------------------------------------- impactful calls are kept

  ghost predicate ImpactfulKept(ctx: Context, n: nat, kept: set<nat>)
    requires ctx.Good() && n <= |ctx.trace|
  {
    forall j :: n <= j < |ctx.trace| && ctx.trace[j].typ == ImpactfulCallBlock ==> Base(ctx.prog, ctx.trace, j) in kept
  }

  lemma {:induction false} AllImpactfulKept(ctx: Context, kept: set<nat>)
    requires ctx.Good() && ImpactfulKept(ctx, 0, kept)
    ensures forall p :: 0 <= p < |ctx.E| && Impactful(ctx, p) ==> p in kept
  {
    hide Base, Execs;
    forall p | 0 <= p < |ctx.E| && Impactful(ctx, p) ensures p in kept {
      BlockOfExec(ctx.prog, ctx.trace, p);
      var j := ctx.E[p].block;
      assert Base(ctx.prog, ctx.trace, j) in kept;
    }
  }

  lemma {:induction false} ExecsEnd(prog: Program, trace: seq<SmallestBlock>)
    requires GoodTrace(prog, trace)
    ensures Base(prog, trace, |trace|) == |Execs(prog, trace)|
  {
    FlattenLength(Lines(prog, trace));
  }

  lemma {:induction false} ImpactfulStep(ctx: Context, i: nat, n: nat, kept0: set<nat>, kept: set<nat>)
    requires ctx.Good() && i < |ctx.trace| && n == i + 1 && ImpactfulKept(ctx, n, kept0) && kept0 <= kept
    requires ctx.trace[i].typ == ImpactfulCallBlock ==> Base(ctx.prog, ctx.trace, i) in kept
    ensures ImpactfulKept(ctx, i, kept)
  {
    forall j | i <= j < |ctx.trace| && ctx.trace[j].typ == ImpactfulCallBlock
      ensures Base(ctx.prog, ctx.trace, j) in kept
    {
      if j != i { assert Base(ctx.prog, ctx.trace, j) in kept0; }
    }
  }

  /** Whatever a newly kept execution needs is pending, or newly kept too. */
  ghost predicate NeedsMet(prog: Program, memDep: DepMap, lastBB: Option<nat>, tid: Tid, retro: set<DynamicInst>,
                           before: set<DynamicInst>, needed: set<Key>, memDepended: set<DynamicInst>) {
    forall r :: r in retro && r !in before && r.id < |prog.ins| ==>
      && (forall x: nat :: Uses(prog, r.id, lastBB, x) ==>
            (tid, x) in needed || exists r' :: r' in retro && (r'.tid, r'.id) == (tid, x))
      && (forall d :: InDeps(memDep, r, d) ==> d in memDepended || d in retro)
  }

  lemma {:induction false} NeedsStep(prog: Program, memDep: DepMap, lastBB: Option<nat>, dyn: DynamicInst,
                                     step: set<DynamicInst>, needed0: set<Key>, memDepended0: set<DynamicInst>,
                                     needed1: set<Key>, memDepended1: set<DynamicInst>)
    requires dyn.id < |prog.ins|
    requires NeedsMet(prog, memDep, lastBB, dyn.tid, step, {}, needed0, memDepended0)
    requires Processed(prog, memDep, dyn, lastBB, needed0, memDepended0, needed1, memDepended1)
    ensures NeedsMet(prog, memDep, lastBB, dyn.tid, step + {dyn}, {}, needed1, memDepended1)
  {
    forall r, x: nat | r in step + {dyn} && r.id < |prog.ins| && Uses(prog, r.id, lastBB, x)
      ensures (dyn.tid, x) in needed1 || exists r' :: r' in step + {dyn} && (r'.tid, r'.id) == (dyn.tid, x)
    {
      if r != dyn && (dyn.tid, x) !in needed0 {
        var r' :| r' in step && (r'.tid, r'.id) == (dyn.tid, x);
        assert r' in step + {dyn};
      } else if x == dyn.id {
        assert dyn in step + {dyn};
      }
    }
  }

  lemma {:induction false} RetroReported(ctx: Context, p: nat, kept: set<nat>, retro: set<DynamicInst>,
                                         step: set<DynamicInst>, unneeded: set<DynamicInst>)
    requires ctx.Good() && p <= |ctx.E| && Reported(ctx, p, kept, retro, unneeded)
    ensures Reported(ctx, p, kept, retro + step, unneeded - step)
  {
    hide DynAt, Exempt;
  }
}
