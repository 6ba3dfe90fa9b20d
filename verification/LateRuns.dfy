/** A run, from the events to the report, on which what is kept late is not given what it
    depends on (tools/PrintBug/PrintBug.cpp, lines 173-194, 218-236, 262-275, 422-428). */
module LateRuns {
  import opened Common
  import opened Events
  import opened Merge
  import opened Recording
  import opened Runs
  import opened Executions
  import Components
  import M = MemoryDependency
  import Pipeline
  import Slice
  import SliceSound

  /** Block 0 computes two values and goes to block 1, which goes to block 2. There a phi
      node takes the first value if control came from block 0, and the second if it came
      from block 1; a function is called, which stores (block 3); the stored value is
      loaded; and after a call of `write`, the branch uses the phi node and the load. */
  const LATE := Program(
    [Info(NormalInst, [], [], []), Info(NormalInst, [], [], []), Info(TerminatorInst, [], [1, 2], []),
     Info(TerminatorInst, [], [2], []),
     Info(PhiNode, [], [], [(0, Inst, 0), (1, Inst, 1)]), Info(CallInst, [], [], []), Info(LoadInst, [], [], []),
     Info(ExternalCallInst, [], [], []), Info(TerminatorInst, [(Inst, 4), (Inst, 6)], [0, 1], []),
     Info(StoreInst, [], [], []), Info(ReturnInst, [], [], [])],
    [[0, 1, 2], [3], [4, 5, 6, 7, 8], [9, 10]])

  function LateEvents(tid: Tid): seq<Event> {
    [BasicBlockEvent(tid, 0), BasicBlockEvent(tid, 1), BasicBlockEvent(tid, 2), BasicBlockEvent(tid, 3),
     MemoryEvent(tid, 9, 16, 8), MemoryEvent(tid, 6, 16, 8), ReturnEvent(tid, 7, 1)]
  }

  function Plain(tid: Tid, bb: nat, start: nat, end: nat, lastBB: Option<nat>): SmallestBlock {
    Ordinary(tid, bb, start, end, 0, 0, 0).(lastBB := lastBB)
  }

  function LateTrace(tid: Tid): (trace: seq<SmallestBlock>)
    ensures |trace| == 9
  {
    [Ordinary(tid, 0, 0, 3, 2, 0, 0), Plain(tid, 1, 0, 1, Some(0)), Plain(tid, 2, 0, 2, Some(1)),
     Access(tid, 3, 0, 16, 24, 1, 5), Ordinary(tid, 3, 1, 2, 0, 1, 5),
     Access(tid, 2, 2, 16, 24, 0, 0).(lastBB := Some(1)),
     SmallestBlock(ImpactfulCallBlock, tid, 2, 3, 4, [1], 0, 0, Some(0), Some(1)),
     Plain(tid, 2, 4, 5, Some(1)), Plain(tid, 2, 5, 5, Some(1)).(isLast := 2)]
  }

  /** What the merger asks of the program. */
  ghost predicate LateCode(prog: Program) {
    && GoodCode(prog) && |prog.ins| == 11 && prog.bb2ins == [[0, 1, 2], [3], [4, 5, 6, 7, 8], [9, 10]]
    && DrainEnd(prog, 0, 0) == 3 && DrainEnd(prog, 1, 0) == 1 && DrainEnd(prog, 2, 0) == 2
    && DrainEnd(prog, 2, 2) == 2 && DrainEnd(prog, 2, 3) == 3 && DrainEnd(prog, 2, 4) == 5
    && DrainEnd(prog, 3, 0) == 0 && DrainEnd(prog, 3, 1) == 2
    && !AtReturn(prog, 0, 3) && !AtReturn(prog, 1, 1) && !AtReturn(prog, 2, 2) && !AtReturn(prog, 2, 3)
    && !AtReturn(prog, 2, 5) && !AtReturn(prog, 3, 0) && AtReturn(prog, 3, 2)
    && InfoAt(prog, 2, 1).typ == CallInst && ImpactfulName(prog.ins[7].fun)
  }

  lemma {:induction false} LateGood()
    ensures GoodCode(LATE)
  {
    forall bb | 0 <= bb < |LATE.bb2ins| ensures GoodBB(LATE, bb) {
    }
  }

  lemma {:induction false} LateDrains()
    requires GoodCode(LATE)
    ensures DrainEnd(LATE, 0, 0) == 3 && DrainEnd(LATE, 1, 0) == 1
    ensures DrainEnd(LATE, 3, 0) == 0 && DrainEnd(LATE, 3, 1) == 2
  {
    assert SilentEnd(LATE, 0, 3) == 3 && SilentEnd(LATE, 0, 2) == 3 && SilentEnd(LATE, 0, 1) == 3;
    assert SilentEnd(LATE, 1, 1) == 1 && SilentEnd(LATE, 3, 2) == 2;
  }

  lemma {:induction false} LateDrainsUsed()
    requires GoodCode(LATE)
    ensures DrainEnd(LATE, 2, 0) == 2 && DrainEnd(LATE, 2, 2) == 2 && DrainEnd(LATE, 2, 3) == 3
    ensures DrainEnd(LATE, 2, 4) == 5
  {
    assert SilentEnd(LATE, 2, 1) == 1 && SilentEnd(LATE, 2, 5) == 5;
  }

  lemma {:induction false} LateReturns()
    requires GoodCode(LATE)
    ensures !AtReturn(LATE, 0, 3) && !AtReturn(LATE, 1, 1) && !AtReturn(LATE, 2, 2) && !AtReturn(LATE, 2, 3)
    ensures !AtReturn(LATE, 2, 5) && !AtReturn(LATE, 3, 0) && AtReturn(LATE, 3, 2)
    ensures InfoAt(LATE, 2, 1).typ == CallInst && ImpactfulName(LATE.ins[7].fun)
  {
    hide GoodCode;
  }

  lemma {:induction false} LateIs()
    ensures LateCode(LATE)
  {
    hide DrainEnd, AtReturn, InfoAt, GoodCode, ImpactfulName;
    LateGood();
    LateDrains();
    LateDrainsUsed();
    LateReturns();
  }

  lemma {:induction false} LateTaken(prog: Program, tid: Tid, stale: Option<nat>)
    requires LateCode(prog)
    ensures BlockTrace(prog, {}, LateEvents(tid), stale) == Some(LateTrace(tid))
  {
    hide DrainEnd, GoodBB, Drain, Merged, Next, AtReturn, InfoAt, ImpactfulName, BlockTrace;
    var e := LateEvents(tid);
    var st0 := Starts(prog, e, tid, 0, 3);
    var st1 := GoesTo(prog, e, 1, st0, tid, StackInfo(0, None, 3), 1, 1);
    var st2 := GoesTo(prog, e, 2, st1, tid, StackInfo(1, Some(0), 1), 2, 2);
    var (f2, f3) := (StackInfo(2, Some(1), 2), StackInfo(3, None, 0));
    var st3 := CallsTo(prog, e, 3, st2, tid, f2, 3);
    var st4 := TouchesBack(prog, e, 4, st3, tid, f2, f3, (1, Some(5)), 9, 16, 8);
    var st5 := Touches(prog, e, 5, st4, tid, f2, NOT_FIRST, 6, 16, 8);
    var st6 := CallsOut(prog, e, 6, st5, tid, f2.(cur := 3), 7, 1);
    assert e[..7] == e;
    OneStopped(prog, e, st6, tid, f2.(cur := 5), stale);
    assert st6.out + [Normal(tid, f2.(cur := 5), 5, NOT_FIRST).(isLast := 2)] == LateTrace(tid);
  }

  lemma {:induction false} LateMerges(tid: Tid, stale: Option<nat>)
    ensures GoodCode(LATE) && BlockTrace(LATE, {}, LateEvents(tid), stale) == Some(LateTrace(tid))
  {
    hide GoodBB, BlockTrace, DrainEnd;
    LateIs();
    LateTaken(LATE, tid, stale);
  }
  // ------------------------------------------------------------- executions

  type Context = Slice.Context
  type Scan = Slice.Scan

  function Dyn(tid: Tid, id: nat): DynamicInst { DynamicInst(tid, id, 0) }

  /** What is executed, in order. */
  function LateExecs(tid: Tid): (E: seq<Exec>)
    ensures |E| == 11
  {
    [Exec(tid, 0, 0, None), Exec(tid, 1, 0, None), Exec(tid, 2, 0, None), Exec(tid, 3, 1, Some(0)),
     Exec(tid, 4, 2, Some(1)), Exec(tid, 5, 2, Some(1)), Exec(tid, 9, 3, None), Exec(tid, 10, 4, None),
     Exec(tid, 6, 5, Some(1)), Exec(tid, 7, 6, Some(1)), Exec(tid, 8, 7, Some(1))]
  }

  lemma {:induction false} LateBases(prog: Program, trace: seq<SmallestBlock>, tid: Tid)
    requires prog == LATE && trace == LateTrace(tid) && GoodTrace(prog, trace)
    ensures Base(prog, trace, 0) == 0 && Base(prog, trace, 1) == 3 && Base(prog, trace, 2) == 4
    ensures Base(prog, trace, 3) == 6 && Base(prog, trace, 4) == 7 && Base(prog, trace, 5) == 8
    ensures Base(prog, trace, 6) == 9 && Base(prog, trace, 7) == 10 && Base(prog, trace, 8) == 11
    ensures Base(prog, trace, 9) == 11 == |Execs(prog, trace)|
  {
    assert Base(prog, trace, 0) == 0;
    hide Base, Execs, LateTrace;
    LateIds(prog, tid);
    SliceSound.ExecsEnd(prog, trace);
    forall i: nat | i < 9 ensures Base(prog, trace, i + 1) == Base(prog, trace, i) + |Ids(prog, trace[i])| {
      BaseStep(prog, trace, i);
    }
    hide Ids;
    assert Base(prog, trace, 0 + 1) == 3 && Base(prog, trace, 1 + 1) == 4 && Base(prog, trace, 2 + 1) == 6;
    assert Base(prog, trace, 3 + 1) == 7 && Base(prog, trace, 4 + 1) == 8 && Base(prog, trace, 5 + 1) == 9;
    assert Base(prog, trace, 6 + 1) == 10 && Base(prog, trace, 7 + 1) == 11 && Base(prog, trace, 8 + 1) == 11;
  }

  lemma {:induction false} LateIds(prog: Program, tid: Tid)
    requires prog == LATE && GoodTrace(prog, LateTrace(tid))
    ensures var t := LateTrace(tid);
            && Ids(prog, t[0]) == [0, 1, 2] && Ids(prog, t[1]) == [3] && Ids(prog, t[2]) == [4, 5]
            && Ids(prog, t[3]) == [9] && Ids(prog, t[4]) == [10] && Ids(prog, t[5]) == [6] && Ids(prog, t[6]) == [7]
            && Ids(prog, t[7]) == [8] && Ids(prog, t[8]) == []
  {
  }

  lemma {:induction false} ExecsAre(prog: Program, trace: seq<SmallestBlock>, tid: Tid)
    requires prog == LATE && trace == LateTrace(tid) && GoodTrace(prog, trace)
    ensures Execs(prog, trace) == LateExecs(tid)
  {
    hide Base, Execs, Ids;
    LateBases(prog, trace, tid);
    LateIds(prog, tid);
    ExecOfBlock(prog, trace, 0, 0);
    ExecOfBlock(prog, trace, 0, 1);
    ExecOfBlock(prog, trace, 0, 2);
    ExecOfBlock(prog, trace, 1, 0);
    ExecOfBlock(prog, trace, 2, 0);
    ExecOfBlock(prog, trace, 2, 1);
    ExecOfBlock(prog, trace, 3, 0);
    ExecOfBlock(prog, trace, 4, 0);
    ExecOfBlock(prog, trace, 5, 0);
    ExecOfBlock(prog, trace, 6, 0);
    ExecOfBlock(prog, trace, 7, 0);
  }

  lemma {:induction false} NoneLater(E: seq<Exec>, p: nat, key: Key)
    requires p <= |E| && forall q :: p <= q < |E| ==> E[q].Key() != key
    ensures CountKey(E, p, key) == 0
    decreases |E| - p
  {
    if p < |E| { NoneLater(E, p + 1, key); }
  }

  /** Every instruction is executed once. */
  lemma {:induction false} DynsAre(tid: Tid, p: nat)
    requires p < 11
    ensures var E := LateExecs(tid); DynAt(E, p) == Dyn(E[p].tid, E[p].id)
  {
    NoneLater(LateExecs(tid), p + 1, LateExecs(tid)[p].Key());
  }

  // ------------------------------------------------------------------ the scan

  /** The scan's input: the merged trace, on which the load depends on the store. */
  ghost predicate LateContext(ctx: Context, tid: Tid) {
    && ctx.Good() && ctx.prog == LATE && ctx.trace == LateTrace(tid)
    && forall e, d :: InDeps(ctx.memDep, e, d) <==> e == Dyn(tid, 6) && d == Dyn(tid, 9)
  }

  /** One execution each of the given instructions has been passed. */
  function Counts(tid: Tid, ids: set<nat>): map<Key, nat> { map id | id in ids :: (tid, id) := 1 }

  function Dyns(tid: Tid, ids: set<nat>): set<DynamicInst> { set id | id in ids :: Dyn(tid, id) }

  lemma {:induction false} OneMoreId(tid: Tid, ids: set<nat>, id: nat)
    ensures Counts(tid, ids)[(tid, id) := 1] == Counts(tid, ids + {id})
    ensures Dyns(tid, ids) + {Dyn(tid, id)} == Dyns(tid, ids + {id})
    ensures (tid, id) in Counts(tid, ids) <==> id in ids
    ensures forall t, x :: Tally(Counts(tid, ids), (t, x)) == if t == tid && x in ids then 1 else 0
  {
    var (a, b) := (Counts(tid, ids)[(tid, id) := 1], Counts(tid, ids + {id}));
    forall k: Key ensures (k in a <==> k in b) && (k in a ==> a[k] == b[k]) {
    }
    assert a.Keys == b.Keys;
    assert a == b;
  }

  /** The scan while nothing waits and nothing has been kept late: `ids` have been passed,
      `drops` dropped. */
  ghost function Idle(tid: Tid, ids: set<nat>, drops: set<nat>, funs: seq<bool>, next: seq<(nat, bool)>,
                      terms: seq<Slice.Terminator>, addr: map<uint64, set<nat>>, kept: set<nat>): Scan
  {
    Slice.Scan(Counts(tid, ids), {}, {}, Dyns(tid, drops), map[tid := funs], map[tid := next], map[tid := terms], addr,
               kept, {}, {}, 0)
  }

  const NONE := Slice.Terminator(2, Slice.NO_TERMINATOR, true)

  lemma {:induction false} FirstPushed<T>(tid: Tid, x: T)
    ensures Slice.Pushed<T>(map[], tid, x) == map[tid := [x]]
  {
    assert [] + [x] == [x];
  }

  lemma {:induction false} OnePushed<T>(m: map<Tid, seq<T>>, tid: Tid, st: seq<T>, x: T)
    requires m == map[tid := st]
    ensures Slice.Pushed(m, tid, x) == map[tid := st + [x]] && Slice.Popped(Slice.Pushed(m, tid, x), tid) == m
  {
    assert (st + [x])[..|st|] == st;
  }

  /** Block i stands at positions lo to hi. */
  ghost predicate StandsAt(ctx: Context, i: nat, b: SmallestBlock, lo: nat, hi: nat) {
    && ctx.Good() && i < |ctx.trace| && b == ctx.trace[i] && b.typ != DeclareBlock && !Skipped(ctx.prog, b)
    && lo == Base(ctx.prog, ctx.trace, i) && hi == Base(ctx.prog, ctx.trace, i + 1) == lo + |Ids(ctx.prog, b)|
  }

  lemma {:induction false} BlockIs(ctx: Context, i: nat, b: SmallestBlock, lo: nat, hi: nat, s: Scan, s2: Scan)
    requires StandsAt(ctx, i, b, lo, hi) && Slice.Scanned(ctx, i + 1) == s
    requires var s1 := Slice.Entered(ctx, s, hi, b);
             s2 == if b.typ == NormalBlock then Slice.NormalDone(ctx, s1, b, lo, b.start)
                   else Slice.AccessDone(ctx, s1, b, lo)
    ensures Slice.Scanned(ctx, i) == Slice.Left(ctx, s2, lo, b, Slice.KeptWithin(s2.kept, lo, hi))
  {
    hide Base, Slice.Entered, Slice.NormalDone, Slice.AccessDone, Slice.Left;
  }

  lemma {:induction false} LateStands(ctx: Context, tid: Tid)
    requires LateContext(ctx, tid)
    ensures var t := LateTrace(tid);
            && StandsAt(ctx, 0, t[0], 0, 3) && StandsAt(ctx, 1, t[1], 3, 4) && StandsAt(ctx, 2, t[2], 4, 6)
            && StandsAt(ctx, 3, t[3], 6, 7) && StandsAt(ctx, 4, t[4], 7, 8) && StandsAt(ctx, 5, t[5], 8, 9)
            && StandsAt(ctx, 6, t[6], 9, 10) && StandsAt(ctx, 7, t[7], 10, 11) && StandsAt(ctx, 8, t[8], 11, 11)
  {
    hide Base, Ids;
    LateBases(ctx.prog, ctx.trace, tid);
    LateIds(ctx.prog, tid);
  }

  /** Noting a block of the run on top. */
  lemma {:induction false} NotedSame(m: map<Tid, seq<(nat, bool)>>, b: SmallestBlock, next: seq<(nat, bool)>,
                                     used: bool)
    requires m == map[b.tid := next] && next != [] && next[|next| - 1].0 == b.bb
    ensures Slice.Noted(m, b, used) == map[b.tid := next[|next| - 1 := (b.bb, used || next[|next| - 1].1)]]
    ensures !used ==> Slice.Noted(m, b, used) == m
  {
    var n := |next| - 1;
    assert !used ==> next[n := (b.bb, used || next[n].1)] == next;
    assert m[b.tid := next] == m;
  }

  /** An instruction that is dropped. */
  lemma {:induction false} Dropped(ctx: Context, s: Scan, b: SmallestBlock, id: nat, p: nat, funs: seq<bool>)
    requires id < |ctx.prog.ins| && ctx.prog.ins[id].typ != TerminatorInst && s.funUsed == map[b.tid := funs]
    requires (b.tid, id) !in s.count && !Slice.NormalNeeded(ctx, s, b, Dyn(b.tid, id))
    ensures Slice.NormalStep(ctx, s, b, id, p)
            == s.(count := s.count[(b.tid, id) := 1], unneeded := s.unneeded + {Dyn(b.tid, id)})
  {
    hide Slice.NormalNeeded;
    assert Slice.Numbered(s, b.tid, id) == Dyn(b.tid, id);
    NotMarked(s.funUsed, b.tid, funs);
  }

  lemma {:induction false} NotMarked(m: map<Tid, seq<bool>>, tid: Tid, funs: seq<bool>)
    requires m == map[tid := funs]
    ensures Slice.Marked(m, tid, false) == m
  {
    assert Slice.SetTop(funs, Slice.TopOr(funs, false)) == funs;
    assert m[tid := funs] == m;
  }

  lemma {:induction false} OnePlaced(m: map<Tid, seq<Slice.Terminator>>, tid: Tid, t0: Slice.Terminator,
                                     t: Slice.Terminator)
    requires m == map[tid := [t0]]
    ensures Slice.Placed(m, tid, t) == map[tid := [t]]
  {
    assert Slice.SetTop([t0], t) == [t];
    assert m[tid := [t]] == map[tid := [t]];
  }

  /** The thread's stacks. */
  ghost predicate Stacked(s: Scan, tid: Tid, funs: seq<bool>, next: seq<(nat, bool)>, terms: seq<Slice.Terminator>) {
    && s.funUsed == map[tid := funs] && s.nextBB == map[tid := next] && s.terminators == map[tid := terms]
    && funs != [] && next != [] && terms != []
  }

  /** Block b goes on in the run on top of the stack. */
  ghost predicate Continues(ctx: Context, s: Scan, b: SmallestBlock, funs: seq<bool>, next: seq<(nat, bool)>,
                            terms: seq<Slice.Terminator>)
  {
    && Stacked(s, b.tid, funs, next, terms) && b.isLast == 0 && next[|next| - 1].0 == b.bb
    && GoodProgram(ctx.prog) && GoodBlock(ctx.prog, b)
  }

  /** The access of block b, which is of instruction id, has not been passed before. */
  ghost predicate AccessBlock(ctx: Context, s: Scan, b: SmallestBlock, id: nat) {
    && GoodBlock(ctx.prog, b) && IsAccess(b) && ctx.prog.bb2ins[b.bb][b.start] == id && (b.tid, id) !in s.count
  }

  /** An access that is dropped. */
  lemma {:induction false} PassAccess(ctx: Context, s: Scan, b: SmallestBlock, lo: nat, id: nat, funs: seq<bool>,
                                      next: seq<(nat, bool)>, terms: seq<Slice.Terminator>)
    requires Continues(ctx, s, b, funs, next, terms) && AccessBlock(ctx, s, b, id)
    requires b.typ == MemoryAccessBlock && |b.addr| == 2 && b.addr[0] < b.addr[1]
    requires (b.tid, id) !in s.needed && Dyn(b.tid, id) !in s.memDepended && forall p :: p in s.kept ==> p > lo
    ensures var s1 := Slice.Entered(ctx, s, lo + 1, b);
            var s2 := Slice.AccessDone(ctx, s1, b, lo);
            && s2 == s.(count := s.count[(b.tid, id) := 1], unneeded := s.unneeded + {Dyn(b.tid, id)},
                        sameAddr := Slice.Recorded(s.sameAddr, b.addr[0], id))
            && !Slice.KeptWithin(s2.kept, lo, lo + 1)
  {
    hide Slice.Recorded;
    assert Slice.Entered(ctx, s, lo + 1, b) == s;
    assert Slice.Numbered(s, b.tid, id) == Dyn(b.tid, id);
    NotMarked(s.funUsed, b.tid, funs);
  }

  /** An impactful call that uses nothing. */
  lemma {:induction false} PassImpactful(ctx: Context, s: Scan, b: SmallestBlock, lo: nat, id: nat, funs: seq<bool>,
                                         next: seq<(nat, bool)>, terms: seq<Slice.Terminator>)
    requires Continues(ctx, s, b, funs, next, terms) && AccessBlock(ctx, s, b, id) && b.typ == ImpactfulCallBlock
    requires s.needed == {} && s.memDepended == {} && b.isFirst == 0 && funs == [false] && |next| == 1
    requires Slice.Operands(ctx.prog, b.tid, id, b.lastBB) == {} && Slice.Deps(ctx.memDep, Dyn(b.tid, id)) == {}
    ensures var s2 := Slice.AccessDone(ctx, Slice.Entered(ctx, s, lo + 1, b), b, lo);
            Slice.Left(ctx, s2, lo, b, Slice.KeptWithin(s2.kept, lo, lo + 1))
            == s.(count := s.count[(b.tid, id) := 1], kept := s.kept + {lo}, funUsed := map[b.tid := [true]],
                  nextBB := map[b.tid := [(b.bb, true)]])
  {
    hide Slice.Operands;
    assert Slice.Entered(ctx, s, lo + 1, b) == s;
    assert Slice.Numbered(s, b.tid, id) == Dyn(b.tid, id);
    assert Slice.SetTop(funs, true) == [true] && s.funUsed[b.tid := [true]] == map[b.tid := [true]];
    assert Slice.Marked(s.funUsed, b.tid, true) == map[b.tid := [true]];
    var s2 := Slice.AccessDone(ctx, s, b, lo);
    assert lo in s2.kept;
    assert Slice.KeptWithin(s2.kept, lo, lo + 1);
    NotedSame(s2.nextBB, b, next, true);
    assert next[0 := (b.bb, true)] == [(b.bb, true)];
  }

  /** Leaving a block of which nothing is kept, within a frame. */
  lemma {:induction false} LeaveInside(ctx: Context, s: Scan, b: SmallestBlock, lo: nat, funs: seq<bool>,
                                       next: seq<(nat, bool)>, terms: seq<Slice.Terminator>)
    requires Stacked(s, b.tid, funs, next, terms) && b.isFirst == 0 && next[|next| - 1].0 == b.bb
    ensures Slice.Left(ctx, s, lo, b, false) == s
  {
    NotedSame(s.nextBB, b, next, false);
  }

  /** ... and at the start of a frame that is not used at all. */
  lemma {:induction false} LeaveUnused(ctx: Context, s: Scan, b: SmallestBlock, lo: nat, funs: seq<bool>,
                                       next: seq<(nat, bool)>, terms: seq<Slice.Terminator>, t: Slice.Terminator)
    requires Stacked(s, b.tid, funs + [false], next + [(b.bb, false)], terms + [t]) && b.isFirst == 1
    ensures Slice.Left(ctx, s, lo, b, false)
            == s.(funUsed := map[b.tid := funs], nextBB := map[b.tid := next], terminators := map[b.tid := terms])
  {
    NotedSame(s.nextBB, b, next + [(b.bb, false)], false);
    OnePopped(s.funUsed, b.tid, funs, false);
    OnePopped<(nat, bool)>(s.nextBB, b.tid, next, (b.bb, false));
    OnePopped(s.terminators, b.tid, terms, t);
    hide Slice.Popped;
  }

  lemma {:induction false} OnePopped<T>(m: map<Tid, seq<T>>, tid: Tid, st: seq<T>, x: T)
    requires m == map[tid := st + [x]]
    ensures Slice.Popped(m, tid) == map[tid := st]
  {
    assert (st + [x])[..|st|] == st;
    assert m[tid := st] == map[tid := st];
  }

  /** The branch of block 2, dropped but on top of its stack. */
  function Branch(tid: Tid): Slice.Terminator { Slice.Terminator(2, Dyn(tid, 8), false) }

  /** An instruction that uses and depends on nothing. */
  lemma {:induction false} AsksNothing(ctx: Context, tid: Tid, d: DynamicInst, lastBB: Option<nat>)
    requires LateContext(ctx, tid) && d.id in {0, 1, 2, 3, 5, 7} && d.tid == tid
    ensures Slice.Operands(ctx.prog, d.tid, d.id, lastBB) == {} && Slice.Deps(ctx.memDep, d) == {}
  {
    forall x ensures x !in Slice.Deps(ctx.memDep, d) { assert !InDeps(ctx.memDep, d, x); }
  }

  /** A block that opens a frame. */
  lemma {:induction false} Opens(ctx: Context, s: Scan, p: nat, b: SmallestBlock, funs: seq<bool>,
                                 next: seq<(nat, bool)>, terms: seq<Slice.Terminator>)
    requires Stacked(s, b.tid, funs, next, terms) && b.isLast > 0
    ensures var t := Slice.Terminator(b.bb, Slice.NO_TERMINATOR, true);
            Slice.Entered(ctx, s, p, b)
            == s.(funUsed := map[b.tid := funs + [false]], nextBB := map[b.tid := next + [(b.bb, false)]],
                  terminators := map[b.tid := terms + [t]])
  {
    OnePushed(s.funUsed, b.tid, funs, false);
    OnePushed<(nat, bool)>(s.nextBB, b.tid, next, (b.bb, false));
    OnePushed(s.terminators, b.tid, terms, Slice.Terminator(b.bb, Slice.NO_TERMINATOR, true));
    hide Slice.Pushed, Slice.Popped;
  }

  /** A block of one instruction that is dropped. */
  lemma {:induction false} DropsOne(ctx: Context, s: Scan, b: SmallestBlock, lo: nat, id: nat, funs: seq<bool>)
    requires b.typ == NormalBlock && GoodProgram(ctx.prog) && GoodBlock(ctx.prog, b) && b.end == b.start + 1
    requires ctx.prog.bb2ins[b.bb][b.start] == id && ctx.prog.ins[id].typ != TerminatorInst
    requires s.funUsed == map[b.tid := funs]
    requires (b.tid, id) !in s.count && !Slice.NormalNeeded(ctx, s, b, Dyn(b.tid, id))
    ensures Slice.NormalDone(ctx, s, b, lo, b.start)
            == s.(count := s.count[(b.tid, id) := 1], unneeded := s.unneeded + {Dyn(b.tid, id)})
  {
    Dropped(ctx, s, b, id, lo, funs);
    hide Slice.NormalStep, Slice.NormalNeeded;
    assert Slice.NormalDone(ctx, s, b, lo, b.start + 1) == s;
  }

  /** A return that nobody asks for. */
  lemma {:induction false} NoReturn(ctx: Context, s: Scan, b: SmallestBlock, id: nat)
    requires id < |ctx.prog.ins| && ctx.prog.ins[id].typ == ReturnInst && ctx.prog.ins[id].code == ""
    requires s.needed == {} && b.isLast == 1
    ensures !Slice.NormalNeeded(ctx, s, b, Dyn(b.tid, id))
  {
  }

  /** A block of two instructions that are dropped. */
  lemma {:induction false} DropsTwo(ctx: Context, s: Scan, b: SmallestBlock, lo: nat, x: nat, y: nat, funs: seq<bool>)
    requires b.typ == NormalBlock && GoodProgram(ctx.prog) && GoodBlock(ctx.prog, b) && b.end == b.start + 2
    requires ctx.prog.bb2ins[b.bb][b.start] == x && ctx.prog.bb2ins[b.bb][b.start + 1] == y
    requires ctx.prog.ins[x].typ !in {TerminatorInst, ReturnInst}
    requires ctx.prog.ins[y].typ !in {TerminatorInst, ReturnInst}
    requires s.funUsed == map[b.tid := funs] && s.needed == {}
    requires (b.tid, x) !in s.count && (b.tid, y) !in s.count && x != y
    ensures Slice.NormalDone(ctx, s, b, lo, b.start)
            == s.(count := s.count[(b.tid, y) := 1][(b.tid, x) := 1],
                  unneeded := s.unneeded + {Dyn(b.tid, y)} + {Dyn(b.tid, x)})
  {
    hide Slice.NormalStep;
    Dropped(ctx, s, b, y, lo + 1, funs);
    var s1 := Slice.NormalStep(ctx, s, b, y, lo + 1);
    Dropped(ctx, s1, b, x, lo, funs);
    assert Slice.NormalDone(ctx, s, b, lo, b.start + 2) == s && Slice.NormalDone(ctx, s, b, lo, b.start + 1) == s1;
  }

  lemma {:induction false} TwoMoreIds(tid: Tid, ids: set<nat>, x: nat, y: nat)
    ensures Counts(tid, ids)[(tid, x) := 1][(tid, y) := 1] == Counts(tid, ids + {x} + {y})
    ensures Dyns(tid, ids) + {Dyn(tid, x)} + {Dyn(tid, y)} == Dyns(tid, ids + {x} + {y})
    ensures (tid, x) in Counts(tid, ids) <==> x in ids
    ensures (tid, y) in Counts(tid, ids) <==> y in ids
  {
    hide Counts, Dyns;
    OneMoreId(tid, ids, x);
    OneMoreId(tid, ids, y);
    OneMoreId(tid, ids + {x}, y);
  }

  // ---------------------------------------------------- steps of an idle scan

  /** An access that is dropped, within a frame. */
  lemma {:induction false} IdleAccess(ctx: Context, i: nat, b: SmallestBlock, lo: nat, ids: set<nat>, drops: set<nat>,
                                      funs: seq<bool>, next: seq<(nat, bool)>, terms: seq<Slice.Terminator>,
                                      addr: map<uint64, set<nat>>, kept: set<nat>, id: nat)
    requires StandsAt(ctx, i, b, lo, lo + 1)
             && Slice.Scanned(ctx, i + 1) == Idle(b.tid, ids, drops, funs, next, terms, addr, kept)
    requires funs != [] && next != [] && terms != [] && b.isLast == 0 && b.isFirst == 0 && next[|next| - 1].0 == b.bb
    requires ctx.prog.bb2ins[b.bb][b.start] == id && id !in ids
    requires b.typ == MemoryAccessBlock && b.addr[0] < b.addr[1] && forall p :: p in kept ==> p > lo
    ensures Slice.Scanned(ctx, i) == Idle(b.tid, ids + {id}, drops + {id}, funs, next, terms,
                                          Slice.Recorded(addr, b.addr[0], id), kept)
  {
    hide Base, Ids, Slice.Entered, Slice.AccessDone, Slice.Left, Slice.KeptWithin, Slice.Recorded, Counts, Dyns;
    var s := Slice.Scanned(ctx, i + 1);
    OneMoreId(b.tid, ids, id);
    OneMoreId(b.tid, drops, id);
    PassAccess(ctx, s, b, lo, id, funs, next, terms);
    var s2 := Slice.AccessDone(ctx, Slice.Entered(ctx, s, lo + 1, b), b, lo);
    BlockIs(ctx, i, b, lo, lo + 1, s, s2);
    LeaveInside(ctx, s2, b, lo, funs, next, terms);
  }

  /** ... and as the first block of a function that is not used. */
  lemma {:induction false} IdleFirst(ctx: Context, i: nat, b: SmallestBlock, lo: nat, ids: set<nat>, drops: set<nat>,
                                     funs: seq<bool>, next: seq<(nat, bool)>, terms: seq<Slice.Terminator>,
                                     t: Slice.Terminator, addr: map<uint64, set<nat>>, kept: set<nat>, id: nat)
    requires StandsAt(ctx, i, b, lo, lo + 1)
    requires Slice.Scanned(ctx, i + 1)
             == Idle(b.tid, ids, drops, funs + [false], next + [(b.bb, false)], terms + [t], addr, kept)
    requires b.isLast == 0 && b.isFirst == 1 && ctx.prog.bb2ins[b.bb][b.start] == id && id !in ids
    requires b.typ == MemoryAccessBlock && b.addr[0] < b.addr[1] && forall p :: p in kept ==> p > lo
    ensures Slice.Scanned(ctx, i) == Idle(b.tid, ids + {id}, drops + {id}, funs, next, terms,
                                          Slice.Recorded(addr, b.addr[0], id), kept)
  {
    hide Base, Ids, Slice.Entered, Slice.AccessDone, Slice.Left, Slice.KeptWithin, Slice.Recorded, Counts, Dyns;
    var s := Slice.Scanned(ctx, i + 1);
    OneMoreId(b.tid, ids, id);
    OneMoreId(b.tid, drops, id);
    PassAccess(ctx, s, b, lo, id, funs + [false], next + [(b.bb, false)], terms + [t]);
    var s2 := Slice.AccessDone(ctx, Slice.Entered(ctx, s, lo + 1, b), b, lo);
    BlockIs(ctx, i, b, lo, lo + 1, s, s2);
    LeaveUnused(ctx, s2, b, lo, funs, next, terms, t);
  }

  /** The return of a function whose value is not used. */
  lemma {:induction false} IdleReturn(ctx: Context, i: nat, b: SmallestBlock, lo: nat, ids: set<nat>, drops: set<nat>,
                                      funs: seq<bool>, next: seq<(nat, bool)>, terms: seq<Slice.Terminator>,
                                      addr: map<uint64, set<nat>>, kept: set<nat>, id: nat)
    requires StandsAt(ctx, i, b, lo, lo + 1)
             && Slice.Scanned(ctx, i + 1) == Idle(b.tid, ids, drops, funs, next, terms, addr, kept)
    requires funs != [] && next != [] && terms != [] && b.isLast == 1 && b.isFirst == 0
    requires b.typ == NormalBlock && b.end == b.start + 1 && ctx.prog.bb2ins[b.bb][b.start] == id && id !in ids
    requires ctx.prog.ins[id].typ == ReturnInst && ctx.prog.ins[id].code == "" && lo !in kept
    ensures Slice.Scanned(ctx, i) == Idle(b.tid, ids + {id}, drops + {id}, funs + [false], next + [(b.bb, false)],
                                          terms + [Slice.Terminator(b.bb, Slice.NO_TERMINATOR, true)], addr, kept)
  {
    hide Base, Ids, Slice.Entered, Slice.NormalDone, Slice.Left, Slice.NormalNeeded, Counts, Dyns;
    var s := Slice.Scanned(ctx, i + 1);
    OneMoreId(b.tid, ids, id);
    OneMoreId(b.tid, drops, id);
    Opens(ctx, s, lo + 1, b, funs, next, terms);
    var s1 := Slice.Entered(ctx, s, lo + 1, b);
    NoReturn(ctx, s1, b, id);
    DropsOne(ctx, s1, b, lo, id, funs + [false]);
    var s2 := Slice.NormalDone(ctx, s1, b, lo, b.start);
    BlockIs(ctx, i, b, lo, lo + 1, s, s2);
    LeaveInside(ctx, s2, b, lo, funs + [false], next + [(b.bb, false)],
                terms + [Slice.Terminator(b.bb, Slice.NO_TERMINATOR, true)]);
    assert !Slice.KeptWithin(kept, lo, lo + 1);
  }

  lemma {:induction false} GoesInside(ctx: Context, s: Scan, p: nat, b: SmallestBlock, next: seq<(nat, bool)>)
    requires s.nextBB == map[b.tid := next] && next != [] && next[|next| - 1].0 == b.bb && b.isLast == 0
    ensures Slice.Entered(ctx, s, p, b) == s
  {
  }

  /** Two instructions that are dropped. */
  lemma {:induction false} IdleTwo(ctx: Context, i: nat, b: SmallestBlock, lo: nat, ids: set<nat>, drops: set<nat>,
                                   funs: seq<bool>, next: seq<(nat, bool)>, terms: seq<Slice.Terminator>,
                                   addr: map<uint64, set<nat>>, kept: set<nat>, x: nat, y: nat)
    requires StandsAt(ctx, i, b, lo, lo + 2)
             && Slice.Scanned(ctx, i + 1) == Idle(b.tid, ids, drops, funs, next, terms, addr, kept)
    requires funs != [] && next != [] && terms != [] && b.isLast == 0 && b.isFirst == 0 && next[|next| - 1].0 == b.bb
    requires b.typ == NormalBlock && b.end == b.start + 2 && x != y
    requires ctx.prog.bb2ins[b.bb][b.start] == x && ctx.prog.bb2ins[b.bb][b.start + 1] == y && x !in ids && y !in ids
    requires ctx.prog.ins[x].typ !in {TerminatorInst, ReturnInst}
    requires ctx.prog.ins[y].typ !in {TerminatorInst, ReturnInst}
    requires lo !in kept && lo + 1 !in kept
    ensures Slice.Scanned(ctx, i) == Idle(b.tid, ids + {y} + {x}, drops + {y} + {x}, funs, next, terms, addr, kept)
  {
    hide Base, Ids, Slice.NormalDone, Slice.Left, Slice.Entered, Counts, Dyns;
    var s := Slice.Scanned(ctx, i + 1);
    TwoMoreIds(b.tid, ids, y, x);
    TwoMoreIds(b.tid, drops, y, x);
    GoesInside(ctx, s, lo + 2, b, next);
    DropsTwo(ctx, s, b, lo, x, y, funs);
    var s2 := Slice.NormalDone(ctx, s, b, lo, b.start);
    BlockIs(ctx, i, b, lo, lo + 2, s, s2);
    assert !Slice.KeptWithin(kept, lo, lo + 2);
    LeaveInside(ctx, s2, b, lo, funs, next, terms);
  }

  // ------------------------------------------------------- block by block

  lemma {:induction false} ScanEnd(ctx: Context, tid: Tid, b: SmallestBlock)
    requires LateContext(ctx, tid) && b == LateTrace(tid)[8]
    ensures Slice.Scanned(ctx, 8) == Idle(tid, {}, {}, [false], [(2, false)], [NONE], map[], {})
  {
    hide Base, Slice.Pushed, Ids;
    LateStands(ctx, tid);
    assert Slice.Scanned(ctx, 9) == Slice.NOTHING_YET;
    FirstPushed(tid, false);
    FirstPushed<(nat, bool)>(tid, (2, false));
    FirstPushed(tid, NONE);
    var s := Slice.Entered(ctx, Slice.NOTHING_YET, 11, b);
    assert Counts(tid, {}) == map[] && Dyns(tid, {}) == {};
    assert s == Idle(tid, {}, {}, [false], [(2, false)], [NONE], map[], {});
    assert Slice.NormalDone(ctx, s, b, 11, 5) == s;
    BlockIs(ctx, 8, b, 11, 11, Slice.NOTHING_YET, s);
    NotedSame(s.nextBB, b, [(2, false)], false);
  }

  /** A branch that is dropped, put on top of its stack. */
  lemma {:induction false} DropsBranch(ctx: Context, s: Scan, b: SmallestBlock, lo: nat, id: nat, funs: seq<bool>,
                                       t0: Slice.Terminator)
    requires b.typ == NormalBlock && GoodProgram(ctx.prog) && GoodBlock(ctx.prog, b) && b.end == b.start + 1
    requires ctx.prog.bb2ins[b.bb][b.start] == id && ctx.prog.ins[id].typ == TerminatorInst
    requires |ctx.prog.ins[id].successors| > 1 && s.funUsed == map[b.tid := funs]
    requires s.terminators == map[b.tid := [t0]]
    requires (b.tid, id) !in s.count && !Slice.NormalNeeded(ctx, s, b, Dyn(b.tid, id))
    ensures Slice.NormalDone(ctx, s, b, lo, b.start)
            == s.(count := s.count[(b.tid, id) := 1], unneeded := s.unneeded + {Dyn(b.tid, id)},
                  terminators := map[b.tid := [Slice.Terminator(b.bb, Dyn(b.tid, id), false)]])
  {
    hide Slice.Placed, Slice.NormalNeeded;
    assert Slice.Numbered(s, b.tid, id) == Dyn(b.tid, id);
    OnePlaced(s.terminators, b.tid, t0, Slice.Terminator(b.bb, Dyn(b.tid, id), false));
    NotMarked(s.funUsed, b.tid, funs);
    assert Slice.NormalDone(ctx, s, b, lo, b.start + 1) == s;
  }

  lemma {:induction false} ScanBranch(ctx: Context, tid: Tid, b: SmallestBlock)
    requires LateContext(ctx, tid) && b == LateTrace(tid)[7]
    ensures Slice.Scanned(ctx, 7) == Idle(tid, {8}, {8}, [false], [(2, false)], [Branch(tid)], map[], {})
  {
    hide Base, Ids, Slice.NormalDone, Counts, Dyns;
    LateStands(ctx, tid);
    ScanEnd(ctx, tid, LateTrace(tid)[8]);
    var s := Slice.Scanned(ctx, 8);
    hide LateContext, LateTrace, StandsAt;
    OneMoreId(tid, {}, 8);
    assert {} + {8} == {8};
    assert Slice.Entered(ctx, s, 11, b) == s;
    DropsBranch(ctx, s, b, 10, 8, [false], NONE);
    var s2 := Slice.NormalDone(ctx, s, b, 10, 4);
    BlockIs(ctx, 7, b, 10, 11, s, s2);
    assert !Slice.KeptWithin({}, 10, 11);
    LeaveInside(ctx, s2, b, 10, [false], [(2, false)], [Branch(tid)]);
  }

  lemma {:induction false} ScanWrite(ctx: Context, tid: Tid, b: SmallestBlock)
    requires LateContext(ctx, tid) && b == LateTrace(tid)[6]
    ensures Slice.Scanned(ctx, 6) == Idle(tid, {8} + {7}, {8}, [true], [(2, true)], [Branch(tid)], map[], {9})
  {
    hide Base, Ids, Slice.Entered, Slice.AccessDone, Slice.Left, Slice.KeptWithin, Slice.Operands, Counts, Dyns;
    LateStands(ctx, tid);
    ScanBranch(ctx, tid, LateTrace(tid)[7]);
    AsksNothing(ctx, tid, Dyn(tid, 7), Some(1));
    var s := Slice.Scanned(ctx, 7);
    hide LateContext, LateTrace, StandsAt;
    OneMoreId(tid, {8}, 7);
    assert {} + {9} == {9};
    PassImpactful(ctx, s, b, 9, 7, [false], [(2, false)], [Branch(tid)]);
    BlockIs(ctx, 6, b, 9, 10, s, Slice.AccessDone(ctx, Slice.Entered(ctx, s, 10, b), b, 9));
  }

  lemma {:induction false} ScanLoad(ctx: Context, tid: Tid, b: SmallestBlock)
    requires LateContext(ctx, tid) && b == LateTrace(tid)[5]
    ensures Slice.Scanned(ctx, 5)
            == Idle(tid, {8} + {7} + {6}, {8} + {6}, [true], [(2, true)], [Branch(tid)], map[16 := {6}], {9})
  {
    hide Base, Ids, Slice.Scanned, Idle, StandsAt;
    LateStands(ctx, tid);
    ScanWrite(ctx, tid, LateTrace(tid)[6]);
    IdleAccess(ctx, 5, b, 8, {8} + {7}, {8}, [true], [(2, true)], [Branch(tid)], map[], {9}, 6);
    assert AtAddr(map[], 16) + {6} == {6};
  }

  /** The function called: first its return, then its store, with which it began. */
  lemma {:induction false} ScanCallee(ctx: Context, tid: Tid, b: SmallestBlock, a: SmallestBlock)
    requires LateContext(ctx, tid) && b == LateTrace(tid)[4] && a == LateTrace(tid)[3]
    ensures Slice.Scanned(ctx, 3) == Idle(tid, {8} + {7} + {6} + {10} + {9}, {8} + {6} + {10} + {9}, [true],
                                          [(2, true)], [Branch(tid)], map[16 := {6, 9}], {9})
  {
    hide Base, Ids, Slice.Scanned, Idle, StandsAt;
    LateStands(ctx, tid);
    ScanLoad(ctx, tid, LateTrace(tid)[5]);
    IdleReturn(ctx, 4, b, 7, {8} + {7} + {6}, {8} + {6}, [true], [(2, true)], [Branch(tid)], map[16 := {6}], {9}, 10);
    IdleFirst(ctx, 3, a, 6, {8} + {7} + {6} + {10}, {8} + {6} + {10}, [true], [(2, true)], [Branch(tid)],
              Slice.Terminator(3, Slice.NO_TERMINATOR, true), map[16 := {6}], {9}, 9);
    assert AtAddr(map[16 := {6}], 16) + {9} == {6, 9};
    assert Slice.Recorded(map[16 := {6}], 16, 9) == map[16 := {6, 9}];
  }

  /** Before the call, the phi node is dropped as well. */
  lemma {:induction false} ScanPhi(ctx: Context, tid: Tid, b: SmallestBlock)
    requires LateContext(ctx, tid) && b == LateTrace(tid)[2]
    ensures Slice.Scanned(ctx, 2)
            == Idle(tid, {8} + {7} + {6} + {10} + {9} + {5} + {4}, {8} + {6} + {10} + {9} + {5} + {4}, [true],
                    [(2, true)], [Branch(tid)], map[16 := {6, 9}], {9})
  {
    hide Base, Ids, Slice.Scanned, Idle, StandsAt;
    LateStands(ctx, tid);
    ScanCallee(ctx, tid, LateTrace(tid)[4], LateTrace(tid)[3]);
    IdleTwo(ctx, 2, b, 4, {8} + {7} + {6} + {10} + {9}, {8} + {6} + {10} + {9}, [true], [(2, true)], [Branch(tid)],
            map[16 := {6, 9}], {9}, 4, 5);
  }

  // ---------------------------------------------------------------- the walk

  function Phi(tid: Tid): Slice.Later { Slice.Later(Dyn(tid, 4), 0, 4, 2, 0, Some(0)) }

  function Load(tid: Tid): Slice.Later { Slice.Later(Dyn(tid, 6), 0, 4, 2, 2, Some(0)) }

  function Start(tid: Tid): Slice.Later { Slice.Later(Dyn(tid, 8), 0, 4, 2, 5, Some(0)) }

  lemma {:induction false} Asks(ctx: Context, tid: Tid)
    requires LateContext(ctx, tid)
    ensures Slice.Operands(ctx.prog, tid, 8, Some(0)) == {(tid, 4), (tid, 6)}
    ensures Slice.Operands(ctx.prog, tid, 6, Some(0)) == {} && Slice.Operands(ctx.prog, tid, 4, Some(0)) == {(tid, 0)}
    ensures Slice.Deps(ctx.memDep, Dyn(tid, 8)) == {} && Slice.Deps(ctx.memDep, Dyn(tid, 4)) == {}
    ensures Slice.Deps(ctx.memDep, Dyn(tid, 6)) == {Dyn(tid, 9)}
  {
    forall e, x ensures x in Slice.Deps(ctx.memDep, e) <==> InDeps(ctx.memDep, e, x) {
    }
    assert PhiInput(LATE.ins[4].phi, Some(0)) == Some((Inst, 0));
    forall k ensures k in Slice.Operands(ctx.prog, tid, 8, Some(0)) <==> k in {(tid, 4), (tid, 6)} {
    }
  }

  /** The instructions of block 2 stand beside its branch, each having been executed once. */
  lemma {:induction false} Besides(tid: Tid, ids: set<nat>, id: nat)
    requires 8 in ids && id in ids
    ensures Slice.Beside(Counts(tid, ids), Dyn(tid, 8), id) == Dyn(tid, id)
  {
    OneMoreId(tid, ids, id);
  }

  /** One instruction of a walk. */
  lemma {:induction false} WalkStep(ctx: Context, s: Scan, p: nat, dyn: DynamicInst, lastBB: Option<nat>, bb: nat,
                                    k: nat, l: Slice.Late, d: DynamicInst)
    requires k < |Slice.BlockIds(ctx.prog, bb)| && Slice.Walked(ctx, s, p, dyn, lastBB, bb, k + 1) == l
    requires Slice.Beside(s.count, dyn, Slice.BlockIds(ctx.prog, bb)[k]) == d
    ensures Slice.Walked(ctx, s, p, dyn, lastBB, bb, k)
            == if (d.tid, d.id) in l.needed || d in l.memDepended
               then Slice.Keep(ctx, l, Slice.Later(d, s.walks, p, bb, k, lastBB)) else l
  {
    hide Slice.Keep, Slice.Beside, Slice.BlockIds;
  }

  lemma {:induction false} WalkFirst(ctx: Context, s: Scan, p: nat, dyn: DynamicInst, lastBB: Option<nat>, bb: nat)
    ensures Slice.Walked(ctx, s, p, dyn, lastBB, bb, |Slice.BlockIds(ctx.prog, bb)|)
            == Slice.Keep(ctx, Slice.Late({}, s.memDepended, {}, {}),
                          Slice.Terminating(ctx, s.walks, p, dyn, lastBB, bb))
  {
    hide Slice.Keep, Slice.BlockIds;
  }

  /** What the walk back through block 2 keeps. */
  lemma {:induction false} WalkIs(ctx: Context, tid: Tid, s: Scan, ids: set<nat>)
    requires LateContext(ctx, tid) && s.count == Counts(tid, ids) && 8 in ids && 7 in ids && 6 in ids && 5 in ids
    requires 4 in ids
    requires s.memDepended == {} && s.walks == 0
    ensures Slice.Walked(ctx, s, 4, Dyn(tid, 8), Some(0), 2, 0)
            == Slice.Late({(tid, 0)}, {Dyn(tid, 9)}, {Dyn(tid, 8), Dyn(tid, 6), Dyn(tid, 4)},
                          {Start(tid), Load(tid), Phi(tid)})
  {
    hide LateContext, Counts, Slice.Beside, Slice.Keep, Slice.BlockIds, Slice.Walked;
    LateBlock(ctx, tid);
    Besides(tid, ids, 8);
    Besides(tid, ids, 7);
    Besides(tid, ids, 6);
    Besides(tid, ids, 5);
    Besides(tid, ids, 4);
    KeepStart(ctx, tid);
    KeepLoad(ctx, tid);
    KeepPhi(ctx, tid);
    var d := Dyn(tid, 8);
    var l5 := Slice.Keep(ctx, Slice.Late({}, {}, {}, {}), Start(tid));
    WalkFirst(ctx, s, 4, d, Some(0), 2);
    WalkStep(ctx, s, 4, d, Some(0), 2, 4, l5, Dyn(tid, 8));
    WalkStep(ctx, s, 4, d, Some(0), 2, 3, l5, Dyn(tid, 7));
    WalkStep(ctx, s, 4, d, Some(0), 2, 2, l5, Dyn(tid, 6));
    var l2 := Slice.Keep(ctx, l5, Load(tid));
    WalkStep(ctx, s, 4, d, Some(0), 2, 1, l2, Dyn(tid, 5));
    WalkStep(ctx, s, 4, d, Some(0), 2, 0, l2, Dyn(tid, 4));
  }

  lemma {:induction false} KeepStart(ctx: Context, tid: Tid)
    requires LateContext(ctx, tid)
    ensures Slice.Keep(ctx, Slice.Late({}, {}, {}, {}), Start(tid))
            == Slice.Late({(tid, 4), (tid, 6)}, {}, {Dyn(tid, 8)}, {Start(tid)})
  {
    Asks(ctx, tid);
    hide LateContext, Slice.Operands, Slice.Deps;
  }

  lemma {:induction false} KeepLoad(ctx: Context, tid: Tid)
    requires LateContext(ctx, tid)
    ensures Slice.Keep(ctx, Slice.Late({(tid, 4), (tid, 6)}, {}, {Dyn(tid, 8)}, {Start(tid)}), Load(tid))
            == Slice.Late({(tid, 4)}, {Dyn(tid, 9)}, {Dyn(tid, 8), Dyn(tid, 6)}, {Start(tid), Load(tid)})
  {
    Asks(ctx, tid);
    hide LateContext, Slice.Operands, Slice.Deps;
  }

  lemma {:induction false} KeepPhi(ctx: Context, tid: Tid)
    requires LateContext(ctx, tid)
    ensures Slice.Keep(ctx, Slice.Late({(tid, 4)}, {Dyn(tid, 9)}, {Dyn(tid, 8), Dyn(tid, 6)}, {Start(tid), Load(tid)}),
                       Phi(tid))
            == Slice.Late({(tid, 0)}, {Dyn(tid, 9)}, {Dyn(tid, 8), Dyn(tid, 6), Dyn(tid, 4)},
                          {Start(tid), Load(tid), Phi(tid)})
  {
    Asks(ctx, tid);
    hide LateContext, Slice.Operands, Slice.Deps;
  }

  lemma {:induction false} LateBlock(ctx: Context, tid: Tid)
    requires LateContext(ctx, tid)
    ensures Slice.BlockIds(ctx.prog, 2) == [4, 5, 6, 7, 8] && Slice.BlockIds(ctx.prog, 0) == [0, 1, 2]
  {
  }

  /** The scan once block 2 has been walked: b tells whether the branch before it is kept. */
  ghost predicate AfterWalk(s: Scan, tid: Tid, b: bool) {
    && s.needed == {(tid, 0)} && s.memDepended == {Dyn(tid, 9)} && s.unneeded == Dyns(tid, {5, 9, 10})
    && s.late == {Start(tid), Load(tid), Phi(tid)} && s.sameAddr == map[16 := {6, 9}]
    && s.retro == {Dyn(tid, 8), Dyn(tid, 6), Dyn(tid, 4)} && s.walks == 1
    && s.count == Counts(tid, {3, 4, 5, 6, 7, 8, 9, 10}) && 9 in s.kept && (forall p :: p in s.kept ==> p >= 3)
    && Stacked(s, tid, [true], [(1, b)], [Slice.Terminator(1, Dyn(tid, 3), b)])
  }

  /** The branch of block 1 may be kept or not: nothing depends on it. */
  lemma {:induction false} BranchPasses(ctx: Context, s: Scan, b: SmallestBlock, p: nat, id: nat)
    requires id < |ctx.prog.ins| && ctx.prog.ins[id].typ == TerminatorInst && (b.tid, id) !in s.count
    requires (b.tid, id) !in s.needed && Dyn(b.tid, id) !in s.memDepended
    requires Slice.Operands(ctx.prog, b.tid, id, b.lastBB) == {} && Slice.Deps(ctx.memDep, Dyn(b.tid, id)) == {}
    ensures var (d, s') := (Dyn(b.tid, id), Slice.NormalStep(ctx, s, b, id, p));
            var isNeeded := Slice.NormalNeeded(ctx, s, b, d);
            s' == s.(count := s.count[(b.tid, id) := 1],
                     kept := if isNeeded then s.kept + {p} else s.kept,
                     unneeded := if !isNeeded && |ctx.prog.ins[id].successors| > 1 then s.unneeded + {d}
                                 else s.unneeded,
                     funUsed := Slice.Marked(s.funUsed, b.tid, isNeeded),
                     terminators := Slice.Placed(s.terminators, b.tid, Slice.Terminator(b.bb, d, isNeeded)))
  {
    hide Slice.Operands, Slice.NormalNeeded, Slice.Marked, Slice.Placed;
    assert Slice.Numbered(s, b.tid, id) == Dyn(b.tid, id);
    assert s.needed - {(b.tid, id)} == s.needed && s.memDepended - {Dyn(b.tid, id)} == s.memDepended;
  }

  /** Coming from a used block to one that leads to it, the scan walks back through the
      used one. */
  lemma {:induction false} EntersWalk(ctx: Context, s: Scan, p: nat, b: SmallestBlock, bb: nat, dyn: DynamicInst,
                                      l: Slice.Late)
    requires s.nextBB == map[b.tid := [(bb, true)]]
    requires s.terminators == map[b.tid := [Slice.Terminator(bb, dyn, false)]]
    requires b.isLast == 0 && b.bb != bb && l == Slice.Walked(ctx, s, p, dyn, b.lastBB, bb, 0)
    ensures Slice.Entered(ctx, s, p, b)
            == s.(needed := s.needed + l.needed, memDepended := l.memDepended, unneeded := s.unneeded - l.step,
                  retro := s.retro + l.step, late := s.late + l.late, walks := s.walks + 1,
                  terminators := map[b.tid := [Slice.Terminator(b.bb, Slice.NO_TERMINATOR, true)]])
  {
    hide Slice.Walked, Slice.Placed;
    OnePlaced(s.terminators, b.tid, Slice.Terminator(bb, dyn, false),
              Slice.Terminator(b.bb, Slice.NO_TERMINATOR, true));
  }

  /** Coming to block 1, the scan walks back through block 2. */
  lemma {:induction false} EntersMiddle(ctx: Context, tid: Tid, s: Scan, b: SmallestBlock, ids: set<nat>,
                                        drops: set<nat>, addr: map<uint64, set<nat>>)
    requires LateContext(ctx, tid) && b == LateTrace(tid)[1] && 8 in ids && 7 in ids && 6 in ids && 5 in ids
    requires 4 in ids
    requires s == Idle(tid, ids, drops, [true], [(2, true)], [Branch(tid)], addr, {9})
    ensures Slice.Entered(ctx, s, 4, b)
            == s.(needed := {(tid, 0)}, memDepended := {Dyn(tid, 9)},
                  unneeded := s.unneeded - {Dyn(tid, 8), Dyn(tid, 6), Dyn(tid, 4)},
                  retro := {Dyn(tid, 8), Dyn(tid, 6), Dyn(tid, 4)}, late := {Start(tid), Load(tid), Phi(tid)},
                  walks := 1,
                  terminators := map[tid := [Slice.Terminator(1, Slice.NO_TERMINATOR, true)]])
  {
    WalkIs(ctx, tid, s, ids);
    hide LateContext, Slice.Walked, Slice.Entered, Counts, Dyns;
    EntersWalk(ctx, s, 4, b, 2, Dyn(tid, 8), Slice.Walked(ctx, s, 4, Dyn(tid, 8), Some(0), 2, 0));
  }

  /** A block of one branch to one block, where another run starts. */
  lemma {:induction false} BranchBlock(ctx: Context, i: nat, b: SmallestBlock, lo: nat, s: Scan, s1: Scan, id: nat,
                                       e: (nat, bool), t0: Slice.Terminator)
    requires StandsAt(ctx, i, b, lo, lo + 1) && Slice.Scanned(ctx, i + 1) == s
    requires s1 == Slice.Entered(ctx, s, lo + 1, b)
    requires b.typ == NormalBlock && b.isFirst == 0 && b.end == b.start + 1 && ctx.prog.bb2ins[b.bb][b.start] == id
    requires ctx.prog.ins[id].typ == TerminatorInst && |ctx.prog.ins[id].successors| <= 1
    requires (b.tid, id) !in s1.count && (b.tid, id) !in s1.needed && Dyn(b.tid, id) !in s1.memDepended
    requires Slice.Operands(ctx.prog, b.tid, id, b.lastBB) == {} && Slice.Deps(ctx.memDep, Dyn(b.tid, id)) == {}
    requires Stacked(s1, b.tid, [true], [e], [t0]) && e.0 != b.bb && lo !in s1.kept
    ensures var isNeeded := Slice.NormalNeeded(ctx, s1, b, Dyn(b.tid, id));
            Slice.Scanned(ctx, i)
            == s1.(count := s1.count[(b.tid, id) := 1], kept := if isNeeded then s1.kept + {lo} else s1.kept,
                   nextBB := map[b.tid := [(b.bb, isNeeded)]],
                   terminators := map[b.tid := [Slice.Terminator(b.bb, Dyn(b.tid, id), isNeeded)]])
  {
    hide Base, Ids, Slice.Entered, Slice.NormalNeeded, Slice.Placed, Slice.Marked, Slice.Operands, Slice.Noted;
    var isNeeded := Slice.NormalNeeded(ctx, s1, b, Dyn(b.tid, id));
    BranchPasses(ctx, s1, b, lo, id);
    var s2 := Slice.NormalStep(ctx, s1, b, id, lo);
    OnePlaced(s1.terminators, b.tid, t0, Slice.Terminator(b.bb, Dyn(b.tid, id), isNeeded));
    StillMarked(s1.funUsed, b.tid, isNeeded);
    hide Slice.NormalStep;
    assert Slice.NormalDone(ctx, s1, b, lo, b.start + 1) == s1 && Slice.NormalDone(ctx, s1, b, lo, b.start) == s2;
    BlockIs(ctx, i, b, lo, lo + 1, s, s2);
    WithinOne(s1.kept, s2.kept, lo, isNeeded);
    NotedNew(s2.nextBB, b, e, isNeeded);
  }

  lemma {:induction false} WithinOne(kept: set<nat>, kept': set<nat>, lo: nat, isNeeded: bool)
    requires lo !in kept && kept' == if isNeeded then kept + {lo} else kept
    ensures Slice.KeptWithin(kept', lo, lo + 1) <==> isNeeded
  {
    assert isNeeded ==> lo in kept';
  }

  /** ... and whether its branch is needed or not, drops nothing. */
  lemma {:induction false} ScanMiddle(ctx: Context, tid: Tid, b: SmallestBlock) returns (isNeeded: bool)
    requires LateContext(ctx, tid) && b == LateTrace(tid)[1]
    ensures AfterWalk(Slice.Scanned(ctx, 1), tid, isNeeded)
  {
    hide Base, Ids, Slice.Entered, Slice.NormalNeeded, Counts, Dyns, LateContext, LateTrace, StandsAt, Slice.Scanned,
         Slice.Operands, Slice.Deps, AfterWalk;
    LateStands(ctx, tid);
    LateBranch(ctx, tid, b);
    ScanPhi(ctx, tid, LateTrace(tid)[2]);
    var s := Slice.Scanned(ctx, 2);
    var (ids, drops) := ({8} + {7} + {6} + {10} + {9} + {5} + {4}, {8} + {6} + {10} + {9} + {5} + {4});
    EntersMiddle(ctx, tid, s, b, ids, drops, map[16 := {6, 9}]);
    AsksNothing(ctx, tid, Dyn(tid, 3), Some(0));
    var s1 := Slice.Entered(ctx, s, 4, b);
    OneMoreId(tid, ids, 3);
    BranchBlock(ctx, 1, b, 3, s, s1, 3, (2, true), Slice.Terminator(1, Slice.NO_TERMINATOR, true));
    isNeeded := Slice.NormalNeeded(ctx, s1, b, Dyn(tid, 3));
    IsWalked(Slice.Scanned(ctx, 1), tid, isNeeded);
  }

  lemma {:induction false} LateBranch(ctx: Context, tid: Tid, b: SmallestBlock)
    requires LateContext(ctx, tid) && b == LateTrace(tid)[1]
    ensures ctx.Good() && |ctx.trace| == |LateTrace(tid)| == 9 && |ctx.prog.ins| == 11 && |ctx.prog.bb2ins| == 4
    ensures b == Plain(tid, 1, 0, 1, Some(0)) && ctx.prog.bb2ins[1] == [3] && ctx.prog.ins[3].typ == TerminatorInst
    ensures |ctx.prog.ins[3].successors| == 1
  {
  }

  lemma {:induction false} IsWalked(s: Scan, tid: Tid, b: bool)
    requires s.needed == {(tid, 0)} && s.memDepended == {Dyn(tid, 9)}
    requires s.unneeded == Dyns(tid, {8} + {6} + {10} + {9} + {5} + {4}) - {Dyn(tid, 8), Dyn(tid, 6), Dyn(tid, 4)}
    requires s.late == {Start(tid), Load(tid), Phi(tid)} && s.sameAddr == map[16 := {6, 9}]
    requires s.retro == {Dyn(tid, 8), Dyn(tid, 6), Dyn(tid, 4)} && s.walks == 1
    requires s.count == Counts(tid, {8} + {7} + {6} + {10} + {9} + {5} + {4} + {3})
    requires s.kept == (if b then {9} + {3} else {9}) && s.funUsed == map[tid := [true]]
    requires s.nextBB == map[tid := [(1, b)]] && s.terminators == map[tid := [Slice.Terminator(1, Dyn(tid, 3), b)]]
    ensures AfterWalk(s, tid, b)
  {
    hide Counts, Dyns;
    FewerDyns(tid);
    assert {8} + {7} + {6} + {10} + {9} + {5} + {4} + {3} == {3, 4, 5, 6, 7, 8, 9, 10};
  }

  lemma {:induction false} FewerDyns(tid: Tid)
    ensures Dyns(tid, {8} + {6} + {10} + {9} + {5} + {4}) - {Dyn(tid, 8), Dyn(tid, 6), Dyn(tid, 4)}
            == Dyns(tid, {5, 9, 10})
  {
    forall d ensures d in Dyns(tid, {8} + {6} + {10} + {9} + {5} + {4}) - {Dyn(tid, 8), Dyn(tid, 6), Dyn(tid, 4)}
                     <==> d in Dyns(tid, {5, 9, 10})
    {
    }
  }

  lemma {:induction false} StillMarked(m: map<Tid, seq<bool>>, tid: Tid, used: bool)
    requires m == map[tid := [true]]
    ensures Slice.Marked(m, tid, used) == m
  {
    assert Slice.SetTop([true], true) == [true];
    assert m[tid := [true]] == m;
  }

  /** Noting the first block of another run. */
  lemma {:induction false} NotedNew(m: map<Tid, seq<(nat, bool)>>, b: SmallestBlock, e: (nat, bool), used: bool)
    requires m == map[b.tid := [e]] && e.0 != b.bb
    ensures Slice.Noted(m, b, used) == map[b.tid := [(b.bb, used)]]
  {
    assert Slice.SetTop([e], (b.bb, used)) == [(b.bb, used)];
    assert m[b.tid := [(b.bb, used)]] == map[b.tid := [(b.bb, used)]];
  }

  lemma {:induction false} LateEntry(ctx: Context, tid: Tid, b: SmallestBlock)
    requires LateContext(ctx, tid) && b == LateTrace(tid)[0]
    ensures ctx.Good() && |ctx.trace| == |LateTrace(tid)| == 9 && |ctx.prog.ins| == 11 && |ctx.prog.bb2ins| == 4
    ensures b == Ordinary(tid, 0, 0, 3, 2, 0, 0) && ctx.prog.bb2ins[0] == [0, 1, 2]
    ensures ctx.prog.ins[0].typ == ctx.prog.ins[1].typ == NormalInst && ctx.prog.ins[2].typ == TerminatorInst
    ensures |ctx.prog.ins[2].successors| == 2
  {
  }

  /** The first value is asked for, and kept. */
  lemma {:induction false} Keeps(ctx: Context, s: Scan, b: SmallestBlock, id: nat, p: nat, funs: seq<bool>)
    requires id < |ctx.prog.ins| && ctx.prog.ins[id].typ == NormalInst && s.needed == {(b.tid, id)}
    requires (b.tid, id) !in s.count && Dyn(b.tid, id) !in s.memDepended && s.funUsed == map[b.tid := [true]]
    requires Slice.Operands(ctx.prog, b.tid, id, b.lastBB) == {} && Slice.Deps(ctx.memDep, Dyn(b.tid, id)) == {}
    ensures Slice.NormalStep(ctx, s, b, id, p)
            == s.(count := s.count[(b.tid, id) := 1], needed := {}, kept := s.kept + {p})
  {
    hide Slice.Operands, Slice.Marked;
    assert Slice.Numbered(s, b.tid, id) == Dyn(b.tid, id);
    StillMarked(s.funUsed, b.tid, true);
    assert s.needed - {(b.tid, id)} + {} == {} && s.memDepended - {Dyn(b.tid, id)} + {} == s.memDepended;
  }

  /** Block 0: the second value is dropped. */
  lemma {:induction false} ScanEntry(ctx: Context, tid: Tid, s: Scan, b: SmallestBlock, t0: Slice.Terminator)
    returns (s': Scan, used: bool)
    requires LateContext(ctx, tid) && b == LateTrace(tid)[0]
    requires s.needed == {(tid, 0)} && s.memDepended == {Dyn(tid, 9)} && s.funUsed == map[tid := [true]]
    requires s.terminators == map[tid := [t0]]
    requires (tid, 0) !in s.count && (tid, 1) !in s.count && (tid, 2) !in s.count
    ensures s' == Slice.NormalDone(ctx, s, b, 0, 0) && s'.needed == {} && s'.memDepended == {Dyn(tid, 9)}
    ensures 0 in s'.kept && s'.late == s.late && s'.retro == s.retro && s'.sameAddr == s.sameAddr
    ensures s.unneeded + {Dyn(tid, 1)} <= s'.unneeded <= s.unneeded + {Dyn(tid, 1), Dyn(tid, 2)}
    ensures s'.nextBB == s.nextBB && s'.funUsed == s.funUsed && s'.walks == s.walks
    ensures s'.count == s.count[(tid, 2) := 1][(tid, 1) := 1][(tid, 0) := 1]
    ensures s'.terminators == map[tid := [Slice.Terminator(0, Dyn(tid, 2), used)]]
  {
    hide LateContext, LateTrace, Slice.NormalStep, Slice.NormalNeeded, Slice.Operands, Slice.Deps, Slice.Placed,
         Slice.Marked;
    LateEntry(ctx, tid, b);
    AsksNothing(ctx, tid, Dyn(tid, 2), None);
    AsksNothing(ctx, tid, Dyn(tid, 0), None);
    BranchPasses(ctx, s, b, 2, 2);
    used := Slice.NormalNeeded(ctx, s, b, Dyn(tid, 2));
    OnePlaced(s.terminators, tid, t0, Slice.Terminator(0, Dyn(tid, 2), used));
    StillMarked(s.funUsed, tid, used);
    var s1 := Slice.NormalStep(ctx, s, b, 2, 2);
    NotAsked(ctx, s1, b, 1);
    Dropped(ctx, s1, b, 1, 1, [true]);
    var s2 := Slice.NormalStep(ctx, s1, b, 1, 1);
    Keeps(ctx, s2, b, 0, 0, [true]);
    s' := Slice.NormalStep(ctx, s2, b, 0, 0);
    assert Slice.NormalDone(ctx, s, b, 0, 3) == s && Slice.NormalDone(ctx, s, b, 0, 2) == s1;
    assert Slice.NormalDone(ctx, s, b, 0, 1) == s2;
  }

  lemma {:induction false} NotAsked(ctx: Context, s: Scan, b: SmallestBlock, id: nat)
    requires id < |ctx.prog.ins| && ctx.prog.ins[id].typ == NormalInst && (b.tid, id) !in s.needed
    ensures !Slice.NormalNeeded(ctx, s, b, Dyn(b.tid, id))
  {
  }

  /** The walk back through block 0 keeps its branch only. */
  lemma {:induction false} WalkEntry(ctx: Context, tid: Tid, s: Scan)
    requires LateContext(ctx, tid) && s.memDepended == {Dyn(tid, 9)}
    requires s.count[(tid, 2) := 1] == s.count[(tid, 1) := 1] == s.count[(tid, 0) := 1] == s.count
    ensures var l := Slice.Walked(ctx, s, 0, Dyn(tid, 2), None, 0, 0);
            l.needed == {} && l.memDepended == {Dyn(tid, 9)} && l.step == {Dyn(tid, 2)}
  {
    hide LateContext, Slice.Beside, Slice.Keep, Slice.BlockIds, Slice.Walked, Slice.Operands, Slice.Deps;
    LateBlock(ctx, tid);
    AsksNothing(ctx, tid, Dyn(tid, 2), None);
    var d := Dyn(tid, 2);
    WalkFirst(ctx, s, 0, d, None, 0);
    var l := Slice.Keep(ctx, Slice.Late({}, s.memDepended, {}, {}), Slice.Terminating(ctx, s.walks, 0, d, None, 0));
    KeepEntry(ctx, tid, s);
    BesideEntry(tid, s.count, 2);
    BesideEntry(tid, s.count, 1);
    BesideEntry(tid, s.count, 0);
    WalkStep(ctx, s, 0, d, None, 0, 2, l, Dyn(tid, 2));
    WalkStep(ctx, s, 0, d, None, 0, 1, l, Dyn(tid, 1));
    WalkStep(ctx, s, 0, d, None, 0, 0, l, Dyn(tid, 0));
  }

  lemma {:induction false} KeepEntry(ctx: Context, tid: Tid, s: Scan)
    requires LateContext(ctx, tid) && s.memDepended == {Dyn(tid, 9)}
    ensures var l := Slice.Keep(ctx, Slice.Late({}, s.memDepended, {}, {}),
                                Slice.Terminating(ctx, s.walks, 0, Dyn(tid, 2), None, 0));
            l.needed == {} && l.memDepended == {Dyn(tid, 9)} && l.step == {Dyn(tid, 2)}
  {
    AsksNothing(ctx, tid, Dyn(tid, 2), None);
    hide LateContext, Slice.Operands, Slice.Deps;
  }

  lemma {:induction false} BesideEntry(tid: Tid, count: map<Key, nat>, id: nat)
    requires count[(tid, 2) := 1] == count && count[(tid, id) := 1] == count
    ensures Slice.Beside(count, Dyn(tid, 2), id) == Dyn(tid, id)
  {
    assert count[(tid, 2) := 1][(tid, 2)] == 1 && count[(tid, id) := 1][(tid, id)] == 1;
  }

  /** The scan comes to block 0. */
  lemma {:induction false} EntersEntry(ctx: Context, tid: Tid, s: Scan, b: SmallestBlock, e: bool)
    returns (t0: Slice.Terminator)
    requires LateContext(ctx, tid) && b == LateTrace(tid)[0] && AfterWalk(s, tid, e)
    ensures Slice.Entered(ctx, s, 3, b) == s.(terminators := map[tid := [t0]])
  {
    hide LateContext, LateTrace, Slice.Placed, Slice.BlockKept;
    LateEntry(ctx, tid, b);
    var t1 := Slice.Terminator(1, Dyn(tid, 3), e);
    t0 := if e then Slice.Terminator(0, Slice.NO_TERMINATOR, true) else t1;
    OnePlaced(s.terminators, tid, t1, Slice.Terminator(0, Slice.NO_TERMINATOR, true));
  }

  /** Leaving block 0, the scan keeps its branch. */
  lemma {:induction false} LeavesEntry(ctx: Context, tid: Tid, s: Scan, b: SmallestBlock, e: bool, used: bool)
    requires LateContext(ctx, tid) && b == LateTrace(tid)[0] && s.memDepended == {Dyn(tid, 9)} && 0 in s.kept
    requires s.count[(tid, 2) := 1] == s.count[(tid, 1) := 1] == s.count[(tid, 0) := 1] == s.count
    requires s.nextBB == map[tid := [(1, e)]] && s.terminators == map[tid := [Slice.Terminator(0, Dyn(tid, 2), used)]]
    ensures var s' := Slice.Left(ctx, s, 0, b, true);
            && s.late <= s'.late && s'.kept == s.kept && s'.sameAddr == s.sameAddr
            && s.unneeded - {Dyn(tid, 2)} <= s'.unneeded <= s.unneeded
  {
    hide LateContext, LateTrace, Slice.Popped, Slice.Walked, Slice.Noted;
    LateEntry(ctx, tid, b);
    NotedNew(s.nextBB, b, (1, e), true);
    var s1 := s.(nextBB := map[tid := [(0, true)]]);
    WalkEntry(ctx, tid, s1);
  }

  lemma {:induction false} CountsThree(tid: Tid, count: map<Key, nat>, count': map<Key, nat>)
    requires count' == count[(tid, 2) := 1][(tid, 1) := 1][(tid, 0) := 1]
    ensures count'[(tid, 2) := 1] == count'[(tid, 1) := 1] == count'[(tid, 0) := 1] == count'
  {
  }

  /** What the scan ends with. */
  lemma {:induction false} LateScanned(ctx: Context, tid: Tid)
    requires LateContext(ctx, tid)
    ensures var s := Slice.Scanned(ctx, 0);
            && Phi(tid) in s.late && Load(tid) in s.late && 0 in s.kept && s.sameAddr == map[16 := {6, 9}]
            && Dyn(tid, 1) in s.unneeded && Dyn(tid, 9) in s.unneeded && forall d :: d in s.unneeded ==> d.id != 6
  {
    hide Base, Ids, LateContext, LateTrace, StandsAt, Slice.Scanned, Slice.Entered, Slice.NormalDone, Slice.Left,
         Slice.KeptWithin, AfterWalk, Dyns;
    var b := LateTrace(tid)[0];
    LateStands(ctx, tid);
    LateEntry(ctx, tid, b);
    var e := ScanMiddle(ctx, tid, LateTrace(tid)[1]);
    var s := Slice.Scanned(ctx, 1);
    WalkedSo(s, tid, e);
    var t0 := EntersEntry(ctx, tid, s, b, e);
    var s1 := Slice.Entered(ctx, s, 3, b);
    var s2, used := ScanEntry(ctx, tid, s1, b, t0);
    BlockIs(ctx, 0, b, 0, 3, s, s2);
    KeptFirst(s2.kept);
    CountsThree(tid, s1.count, s2.count);
    LeavesEntry(ctx, tid, s2, b, e, used);
  }

  lemma {:induction false} WalkedSo(s: Scan, tid: Tid, e: bool)
    requires AfterWalk(s, tid, e)
    ensures s.needed == {(tid, 0)} && s.memDepended == {Dyn(tid, 9)} && s.funUsed == map[tid := [true]]
    ensures s.nextBB == map[tid := [(1, e)]] && s.sameAddr == map[16 := {6, 9}]
    ensures (tid, 0) !in s.count && (tid, 1) !in s.count && (tid, 2) !in s.count
    ensures Phi(tid) in s.late && Load(tid) in s.late
    ensures Dyn(tid, 9) in s.unneeded && forall d :: d in s.unneeded ==> d.id != 6
  {
  }

  lemma {:induction false} KeptFirst(kept: set<nat>)
    requires 0 in kept
    ensures Slice.KeptWithin(kept, 0, 3)
  {
  }

  // ----------------------------------------------------------- the dependency

  lemma {:induction false} LateDepends(env: M.Env, tid: Tid, i: nat, j: nat)
    requires M.GoodEnv(env) && env.prog == LATE && FormedTrace(env.prog, LateTrace(tid)) && i < 9
    ensures M.Depends(env, LateTrace(tid), i, j) <==> i == 5 && j == 3
  {
    var trace := LateTrace(tid);
    LateAccesses(env, tid);
    hide LateTrace, M.InGroup, M.LastWriter, M.Reads, M.Writes;
    if i == 5 {
      LastOfLate(env, tid, 16);
      forall x ensures M.Reads(env, trace[5], x) ==> M.LastWriter(env, trace, 5, x) == Some(3) {
        LastOfLate(env, tid, x);
      }
    }
  }

  /** Block 3 writes what block 5 reads. */
  lemma {:induction false} LateAccesses(env: M.Env, tid: Tid)
    requires M.GoodEnv(env) && env.prog == LATE && FormedTrace(env.prog, LateTrace(tid))
    ensures var trace := LateTrace(tid);
            && (forall i, x :: 0 <= i < 9 && i != 5 ==> !M.Reads(env, trace[i], x))
            && (forall x :: M.Reads(env, trace[5], x) <==> 16 <= x < 24)
            && (forall x :: M.Writes(env, trace[3], x) <==> 16 <= x < 24)
            && (forall x :: !M.Writes(env, trace[4], x)) && (forall i :: 0 <= i < 9 ==> !M.SelfEdge(env, trace[i]))
  {
    hide M.InGroup;
  }

  lemma {:induction false} LastOfLate(env: M.Env, tid: Tid, x: uint64)
    requires M.GoodEnv(env) && env.prog == LATE && FormedTrace(env.prog, LateTrace(tid))
    ensures 16 <= x < 24 ==> M.LastWriter(env, LateTrace(tid), 5, x) == Some(3)
  {
    LateAccesses(env, tid);
    hide LateTrace, M.Writes, M.Reads;
    var trace := LateTrace(tid);
    if 16 <= x < 24 { assert M.LastWriter(env, trace, 4, x) == Some(3); }
  }

  /** An access that is the only one of its instruction has the number 0. */
  lemma {:induction false} CountOnce(prog: Program, trace: seq<SmallestBlock>, n: nat, i: nat)
    requires FormedTrace(prog, trace) && i < |trace| && n <= |trace| && IsAccess(trace[i])
    requires forall j :: 0 <= j < |trace| && j != i && IsAccess(trace[j]) ==>
               M.KeyOf(prog, trace[j]) != M.KeyOf(prog, trace[i])
    ensures M.Count(prog, trace[..n], M.KeyOf(prog, trace[i])) == if i < n then 1 else 0
  {
    if n > 0 {
      CountOnce(prog, trace, n - 1, i);
      assert trace[..n][..n - 1] == trace[..n - 1];
    }
  }

  lemma {:induction false} LateBacks(prog: Program, tid: Tid)
    requires prog == LATE && FormedTrace(prog, LateTrace(tid))
    ensures M.Back(prog, LateTrace(tid), 3) == Dyn(tid, 9) && M.Back(prog, LateTrace(tid), 5) == Dyn(tid, 6)
    ensures M.Back(prog, LateTrace(tid), 6) == Dyn(tid, 7)
  {
    var trace := LateTrace(tid);
    assert trace[..9] == trace;
    LateKeys(prog, tid);
    CountOnce(prog, trace, 3, 3);
    CountOnce(prog, trace, 9, 3);
    CountOnce(prog, trace, 5, 5);
    CountOnce(prog, trace, 9, 5);
    CountOnce(prog, trace, 6, 6);
    CountOnce(prog, trace, 9, 6);
    hide M.Count;
  }

  lemma {:induction false} LateKeys(prog: Program, tid: Tid)
    requires prog == LATE && FormedTrace(prog, LateTrace(tid))
    ensures var t := LateTrace(tid);
            && (forall j :: 0 <= j < 9 ==> (IsAccess(t[j]) <==> j == 3 || j == 5 || j == 6))
            && M.KeyOf(prog, t[3]) == (tid, 9) && M.KeyOf(prog, t[5]) == (tid, 6) && M.KeyOf(prog, t[6]) == (tid, 7)
  {
  }

  /** The load depends on the store, and nothing else on anything. */
  lemma {:induction false} LateDeps(env: M.Env, tid: Tid, memDep: DepMap)
    requires M.GoodEnv(env) && env.prog == LATE && FormedTrace(env.prog, LateTrace(tid))
    requires M.Extracted(env, LateTrace(tid), memDep)
    ensures forall e, d :: InDeps(memDep, e, d) <==> e == Dyn(tid, 6) && d == Dyn(tid, 9)
  {
    hide M.Depends, M.Back, LateTrace, M.GoodEnv, Formed;
    var trace := LateTrace(tid);
    LateBacks(env.prog, tid);
    LateKeys(env.prog, tid);
    forall i: nat, j: nat | i < 9 ensures M.Depends(env, trace, i, j) <==> i == 5 && j == 3 {
      LateDepends(env, tid, i, j);
    }
    forall e, d ensures InDeps(memDep, e, d) <==> e == Dyn(tid, 6) && d == Dyn(tid, 9) {
      if InDeps(memDep, e, d) {
        var i: nat :| i < |trace| && IsAccess(trace[i]) && e == M.Back(env.prog, trace, i);
        assert M.ExtractedBlock(env, trace, i, memDep);
        var j: nat :| j <= i && IsAccess(trace[j]) && M.Depends(env, trace, i, j) && d == M.Back(env.prog, trace, j);
      }
      if e == Dyn(tid, 6) && d == Dyn(tid, 9) {
        assert M.ExtractedBlock(env, trace, 5, memDep);
        assert M.DependsBack(env, trace, 5, d);
      }
    }
  }

  // --------------------------------------------------------- what went wrong

  /** The phi node, executed at position 4, took the second value; but what it is kept
      for asks for the first, because the block before the one that control came from is
      block 0. The second value is reported, although the phi node is kept and took it;
      the first is kept, although nothing uses it. */
  ghost predicate WrongInput(ctx: Context, tid: Tid)
    requires ctx.Good()
  {
    var s := Slice.Scanned(ctx, 0);
    && |ctx.E| == 11 && Phi(tid) in s.late && Phi(tid).dyn == DynAt(ctx.E, 4)
    && SsaDep(ctx.prog, ctx.E, 4, 1) && DynAt(ctx.E, 1) in s.unneeded
    && 0 in s.kept && forall m: nat :: m < |ctx.E| && ctx.E[m].id < |ctx.prog.ins| ==> !SsaDep(ctx.prog, ctx.E, m, 0)
  }

  /** The load, executed at position 8, is kept; but the store at position 6, whose bytes
      it loads, is reported. */
  ghost predicate LostStore(ctx: Context, tid: Tid)
    requires ctx.Good()
  {
    var s := Slice.Scanned(ctx, 0);
    && |ctx.E| == 11 && Load(tid) in s.late && Load(tid).dyn == DynAt(ctx.E, 8)
    && MemDep(ctx.memDep, ctx.trace, ctx.E, 8, 6) && DynAt(ctx.E, 6) in s.unneeded
  }

  /** The load, kept but recorded under its address, is printed in the bug of the store. */
  ghost predicate NeededPrinted(ctx: Context, bugs: seq<set<nat>>)
    requires ctx.Good()
  {
    var ids := Components.IdsOf(Slice.Scanned(ctx, 0).unneeded);
    9 in ids && 6 !in ids && exists k :: 0 <= k < |bugs| && 9 in bugs[k] && 6 in bugs[k]
  }

  lemma {:induction false} LateContextOf(env: M.Env, edges: seq<(nat, nat)>, ctx: Context, unneeded: set<DynamicInst>,
                                         tid: Tid)
    requires Pipeline.SlicedAs(LATE, LateTrace(tid), env, edges, ctx, unneeded)
    ensures LateContext(ctx, tid)
  {
    hide LateTrace, M.Extracted, Slice.Framed, Slice.ReturnsMarked, Slice.Scanned;
    LateDeps(env, tid, ctx.memDep);
  }

  /** All three on one recorded run of a well-formed program. */
  lemma {:induction false} KeptLateWrongly(tid: Tid, stale: Option<nat>, env: M.Env, edges: seq<(nat, nat)>,
                                           ctx: Context, unneeded: set<DynamicInst>, bugs: seq<set<nat>>)
    requires Pipeline.SlicedAs(LATE, LateTrace(tid), env, edges, ctx, unneeded)
    requires Pipeline.Reported(ctx, unneeded, bugs)
    ensures GoodCode(LATE) && BlockTrace(LATE, {}, LateEvents(tid), stale) == Some(LateTrace(tid))
    ensures ctx.Good() && WrongInput(ctx, tid) && LostStore(ctx, tid) && NeededPrinted(ctx, bugs)
  {
    LateMerges(tid, stale);
    LateContextOf(env, edges, ctx, unneeded, tid);
    hide GoodCode, BlockTrace, LateContext, Pipeline.SlicedAs, Pipeline.Reported, Slice.Scanned, WrongInput, LostStore,
         NeededPrinted;
    GoodLate(ctx, tid);
    WrongInputAt(ctx, tid);
    LostStoreAt(ctx, tid);
    PrintedAt(ctx, tid, unneeded, bugs);
  }

  lemma {:induction false} GoodLate(ctx: Context, tid: Tid)
    requires LateContext(ctx, tid)
    ensures ctx.Good() && ctx.E == LateExecs(tid) && ctx.prog == LATE && ctx.trace == LateTrace(tid)
  {
    hide LateTrace, LateExecs, Execs;
    ExecsAre(ctx.prog, ctx.trace, tid);
  }

  lemma {:induction false} WrongInputAt(ctx: Context, tid: Tid)
    requires LateContext(ctx, tid) && ctx.Good()
    ensures WrongInput(ctx, tid)
  {
    hide LateContext, LateTrace, Slice.Scanned;
    GoodLate(ctx, tid);
    LateScanned(ctx, tid);
    DynsAre(tid, 4);
    DynsAre(tid, 1);
    LateUses();
  }

  lemma {:induction false} LateUses()
    ensures |LATE.ins| == 11 && PhiInput(LATE.ins[4].phi, Some(1)) == Some((Inst, 1))
    ensures Uses(LATE, 4, Some(1), 1) && !Uses(LATE, 4, Some(1), 0)
    ensures forall id, lastBB :: 0 <= id < 11 && id != 4 ==> !Uses(LATE, id, lastBB, 0)
  {
  }

  lemma {:induction false} LostStoreAt(ctx: Context, tid: Tid)
    requires LateContext(ctx, tid) && ctx.Good()
    ensures LostStore(ctx, tid)
  {
    hide Slice.Scanned;
    GoodLate(ctx, tid);
    LateScanned(ctx, tid);
    DynsAre(tid, 8);
    DynsAre(tid, 6);
  }

  lemma {:induction false} PrintedAt(ctx: Context, tid: Tid, unneeded: set<DynamicInst>, bugs: seq<set<nat>>)
    requires LateContext(ctx, tid) && ctx.Good() && unneeded == Slice.Scanned(ctx, 0).unneeded
    requires Pipeline.Reported(ctx, unneeded, bugs)
    ensures NeededPrinted(ctx, bugs)
  {
    hide LateContext, Slice.Scanned, Components.IsBug;
    LateScanned(ctx, tid);
    var s := Slice.Scanned(ctx, 0);
    assert 9 in Components.IdsOf(unneeded) by { assert Dyn(tid, 9) in unneeded; }
    var bug := Components.BugOf(bugs, 9);
    assert Components.SharesAddress(s.sameAddr, 9, 6) by {
      assert 9 in AtAddr(s.sameAddr, 16) && 6 in AtAddr(s.sameAddr, 16);
    }
    Components.SharedInBug(ctx.prog, ctx.memDep, unneeded, s.sameAddr, bug, 9, 6);
  }
}
