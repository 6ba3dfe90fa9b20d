/** What one step of the backward dynamic slice does to its sets, counters and
    stacks (tools/PrintBug/PrintBug.cpp, lines 106-353), as functions of values. */
module Slice {
  import opened Common
  import opened Executions

  /** The scan's input. */
  datatype Context = Context(
    prog: Program, memDep: DepMap, postDom: map<nat, set<nat>>, trace: seq<SmallestBlock>, E: seq<Exec>)
  {
    ghost predicate Good() {
      GoodTrace(prog, trace) && E == Execs(prog, trace) && forall p :: 0 <= p < |E| ==> E[p].id < |prog.ins|
    }
  }

  // --------------------------------------------------------------- frames

  ghost function Raise(depth: Tid -> int, tid: Tid, n: int): Tid -> int {
    (t: Tid) => depth(t) + if t == tid then n else 0
  }

  ghost function Opened(b: SmallestBlock, depth: Tid -> int): Tid -> int {
    if b.isLast > 0 then Raise(depth, b.tid, 1) else depth
  }

  ghost function Closed(b: SmallestBlock, depth: Tid -> int): Tid -> int {
    if b.isFirst > 0 then Raise(depth, b.tid, -1) else depth
  }

  /** The open frames of each thread after one more block, going backward. */
  ghost function DepthAfter(prog: Program, b: SmallestBlock, depth: Tid -> int): Tid -> int
    requires GoodBlock(prog, b)
  {
    if b.typ == DeclareBlock then depth
    else if Skipped(prog, b) then Opened(b, depth)
    else Closed(b, Opened(b, depth))
  }

  /** How many frames of each thread are open once the scan has passed block i. */
  ghost function DepthAt(prog: Program, trace: seq<SmallestBlock>, i: nat): Tid -> int
    requires GoodTrace(prog, trace) && i <= |trace|
    decreases |trace| - i
  {
    if i == |trace| then (t: Tid) => 0 else DepthAfter(prog, trace[i], DepthAt(prog, trace, i + 1))
  }

  /** Every block the scan looks into lies in an open frame. */
  ghost predicate Framed(prog: Program, trace: seq<SmallestBlock>)
    requires GoodTrace(prog, trace)
  {
    forall i: nat :: i < |trace| && trace[i].typ != DeclareBlock && !Skipped(prog, trace[i]) ==>
      Opened(trace[i], DepthAt(prog, trace, i + 1))(trace[i].tid) >= 1
  }

  function Spaces(code: string): (n: nat)
    ensures n <= |code|
  {
    if code != "" && code[0] in {' ', '\t', '\n', '\r', '\U{B}', '\U{C}'} then 1 + Spaces(code[1..]) else 0
  }

  predicate ReturnVoid(code: string) {
    "ret void" <= code[Spaces(code)..]
  }

  /** What `isspace` holds of: the space, and the characters 9 to 13. */
  predicate White(c: char) { c == ' ' || 9 <= c as int <= 13 }

  /** The code of an instruction begins at n. */
  ghost predicate BeginsAt(code: string, n: nat) {
    n < |code| && !White(code[n]) && forall k :: 0 <= k < n ==> White(code[k])
  }

  lemma {:induction false} SpacesWhite(code: string)
    ensures var n := Spaces(code);
            (forall k :: 0 <= k < n ==> White(code[k])) && (n < |code| ==> !White(code[n]))
  {
    if code != "" && White(code[0]) {
      SpacesWhite(code[1..]);
      var n := Spaces(code);
      assert n > 0;
      forall k | 0 <= k < n ensures White(code[k]) {
        if k > 0 { assert code[k] == code[1..][k - 1]; }
      }
    }
  }

  lemma {:induction false} BeginsOnce(code: string, n: nat)
    requires BeginsAt(code, n)
    ensures Spaces(code) == n
  {
    SpacesWhite(code);
  }

  /** A return of nothing is what reads "ret void" once white space is skipped. */
  lemma {:induction false} ReturnVoidMeans(code: string)
    ensures ReturnVoid(code) <==> exists n: nat :: BeginsAt(code, n) && n + 8 <= |code| && code[n..n + 8] == "ret void"
  {
    var n := Spaces(code);
    SpacesWhite(code);
    if ReturnVoid(code) {
      assert code[n..][..8] == code[n..n + 8];
      assert code[n..n + 8][0] == code[n];
      assert BeginsAt(code, n);
    }
    if n': nat :| BeginsAt(code, n') && n' + 8 <= |code| && code[n'..n' + 8] == "ret void" {
      BeginsOnce(code, n');
      assert code[n..][..8] == code[n..n + 8];
    }
  }

  /** A value is only returned by the last block of a function or thread. */
  ghost predicate BlockReturnsMarked(prog: Program, b: SmallestBlock)
    requires GoodProgram(prog) && GoodBlock(prog, b)
  {
    forall k :: b.typ == NormalBlock && b.start <= k < b.end ==>
      var id := prog.bb2ins[b.bb][k];
      prog.ins[id].typ == ReturnInst && !ReturnVoid(prog.ins[id].code) ==> b.isLast in {1, 2}
  }

  ghost predicate ReturnsMarked(prog: Program, trace: seq<SmallestBlock>)
    requires GoodTrace(prog, trace)
  {
    forall i :: 0 <= i < |trace| ==> BlockReturnsMarked(prog, trace[i])
  }

  ghost predicate Impactful(ctx: Context, p: nat)
    requires p < |ctx.E|
  {
    ctx.E[p].block < |ctx.trace| && ctx.trace[ctx.E[p].block].typ == ImpactfulCallBlock
  }

  // ----------------------------------------------------------- the state

  function StackOf<T>(m: map<Tid, seq<T>>, tid: Tid): seq<T> {
    if tid in m then m[tid] else []
  }

  function Top<T>(s: seq<T>): T
    requires s != []
  {
    s[|s| - 1]
  }

  function SetTop<T>(s: seq<T>, x: T): (r: seq<T>)
    ensures |r| == |s|
  {
    if s == [] then s else s[|s| - 1 := x]
  }

  function TopOr<T>(s: seq<T>, x: T): T { if s == [] then x else Top(s) }

  function Pop<T>(s: seq<T>): seq<T> { if s == [] then s else s[..|s| - 1] }

  /** A terminator on the stack: its block, its execution, and whether it needs
      no further look. */
  datatype Terminator = Terminator(bb: nat, dyn: DynamicInst, used: bool)

  /** An execution kept late: in walk number `walk` the scan stood at position `pos`,
      and went back through basic block `bb`, choosing the inputs of phi nodes by
      `lastBB`. The terminator comes before the block's instructions. */
  datatype Later = Later(dyn: DynamicInst, walk: nat, pos: nat, bb: nat, index: nat, lastBB: Option<nat>)

  /** The state of the scan. `kept` holds the positions of the executions the scan
      has found needed, `retro` the numbers of those kept late, when a whole block
      turned out to be used, and `late` how those came to be kept, in `walks` walks.
      `sameAddr` holds the instructions of the accesses found unneeded, by start
      address. */
  datatype Scan = Scan(
    count: map<Key, nat>, needed: set<Key>, memDepended: set<DynamicInst>, unneeded: set<DynamicInst>,
    funUsed: map<Tid, seq<bool>>, nextBB: map<Tid, seq<(nat, bool)>>, terminators: map<Tid, seq<Terminator>>,
    sameAddr: map<uint64, set<nat>>,
    kept: set<nat>, retro: set<DynamicInst>, late: set<Later>, walks: nat)

  const NOTHING_YET := Scan(map[], {}, {}, {}, map[], map[], map[], map[], {}, {}, {}, 0)

  const NO_TERMINATOR := DynamicInst(0, 0, 0)

  // ------------------------------------------------------- one instruction

  /** The values instruction `id` uses when reached from `lastBB`. */
  ghost function Operands(prog: Program, tid: Tid, id: nat, lastBB: Option<nat>): (keys: set<Key>)
    ensures forall k :: k in keys <==> k.0 == tid && id < |prog.ins| && Uses(prog, id, lastBB, k.1)
  {
    if id >= |prog.ins| then {}
    else
      var ssa := prog.ins[id].ssa;
      var phi := PhiInput(prog.ins[id].phi, lastBB);
      (set x | x in ssa && x.0 == Inst :: (tid, x.1))
      + (if phi.Some? && phi.value.0 == Inst then {(tid, phi.value.1)} else {})
  }

  function Deps(memDep: DepMap, d: DynamicInst): (deps: set<DynamicInst>)
    ensures forall d' :: d' in deps <==> InDeps(memDep, d, d')
  {
    if d in memDep then memDep[d] else {}
  }

  ghost function Needing(ctx: Context, needed: set<Key>, d: DynamicInst, lastBB: Option<nat>): set<Key> {
    needed - {(d.tid, d.id)} + Operands(ctx.prog, d.tid, d.id, lastBB)
  }

  ghost function Depending(ctx: Context, memDepended: set<DynamicInst>, d: DynamicInst): set<DynamicInst> {
    memDepended - {d} + Deps(ctx.memDep, d)
  }

  /** The execution of `id` the scan comes to next. */
  ghost function Numbered(s: Scan, tid: Tid, id: nat): DynamicInst {
    var later: int := Tally(s.count, (tid, id));
    DynamicInst(tid, id, -later)
  }

  function Marked(funUsed: map<Tid, seq<bool>>, tid: Tid, used: bool): map<Tid, seq<bool>> {
    var st := StackOf(funUsed, tid);
    funUsed[tid := SetTop(st, TopOr(st, false) || used)]
  }

  /** Execution p is kept or dropped, and counted. */
  ghost function Accounted(ctx: Context, s: Scan, p: nat, d: DynamicInst, lastBB: Option<nat>, isNeeded: bool,
                           report: bool): Scan {
    var s := s.(count := s.count[(d.tid, d.id) := Tally(s.count, (d.tid, d.id)) + 1]);
    if isNeeded then
      s.(needed := Needing(ctx, s.needed, d, lastBB), memDepended := Depending(ctx, s.memDepended, d),
         kept := s.kept + {p})
    else if report then s.(unneeded := s.unneeded + {d})
    else s
  }

  ghost function Passing(ctx: Context, s: Scan, p: nat, d: DynamicInst, lastBB: Option<nat>, isNeeded: bool,
                         report: bool): Scan {
    var s' := Accounted(ctx, s, p, d, lastBB, isNeeded, report);
    s'.(funUsed := Marked(s'.funUsed, d.tid, isNeeded))
  }

  // --------------------------------------- keeping the terminator of a block

  datatype Late = Late(needed: set<Key>, memDepended: set<DynamicInst>, step: set<DynamicInst>, late: set<Later>)

  ghost function Keep(ctx: Context, l: Late, w: Later): Late {
    Late(Needing(ctx, l.needed, w.dyn, w.lastBB), Depending(ctx, l.memDepended, w.dyn), l.step + {w.dyn}, l.late + {w})
  }

  /** The execution of `id` that belongs to the same run of the block as `dyn`. */
  ghost function Beside(count: map<Key, nat>, dyn: DynamicInst, id: nat): DynamicInst {
    DynamicInst(dyn.tid, id, dyn.cnt + Tally(count, (dyn.tid, dyn.id)) - Tally(count, (dyn.tid, id)))
  }

  function BlockIds(prog: Program, bb: nat): seq<nat> { if bb < |prog.bb2ins| then prog.bb2ins[bb] else [] }

  /** The terminator `dyn`, kept late at position p, in walk n. */
  ghost function Terminating(ctx: Context, n: nat, p: nat, dyn: DynamicInst, lastBB: Option<nat>, bb: nat): Later {
    Later(dyn, n, p, bb, |BlockIds(ctx.prog, bb)|, lastBB)
  }

  /** Back through a block from its terminator, down to its instruction k. */
  ghost function Walked(ctx: Context, s: Scan, p: nat, dyn: DynamicInst, lastBB: Option<nat>, bb: nat, k: nat): Late
    decreases |BlockIds(ctx.prog, bb)| - k
  {
    var ids := BlockIds(ctx.prog, bb);
    if k >= |ids| then Keep(ctx, Late({}, s.memDepended, {}, {}), Terminating(ctx, s.walks, p, dyn, lastBB, bb))
    else
      var l := Walked(ctx, s, p, dyn, lastBB, bb, k + 1);
      var d := Beside(s.count, dyn, ids[k]);
      if (d.tid, d.id) in l.needed || d in l.memDepended then Keep(ctx, l, Later(d, s.walks, p, bb, k, lastBB)) else l
  }

  ghost function BlockKept(ctx: Context, s: Scan, p: nat, dyn: DynamicInst, lastBB: Option<nat>, bb: nat): Scan {
    var l := Walked(ctx, s, p, dyn, lastBB, bb, 0);
    s.(needed := s.needed + l.needed, memDepended := l.memDepended, unneeded := s.unneeded - l.step,
       retro := s.retro + l.step, late := s.late + l.late, walks := s.walks + 1)
  }

  ghost function TerminatorKept(ctx: Context, s: Scan, p: nat, b: SmallestBlock, bb: nat): Scan {
    var t := TopOr(StackOf(s.terminators, b.tid), Terminator(bb, NO_TERMINATOR, true));
    if t.used then s else BlockKept(ctx, s, p, t.dyn, b.lastBB, bb)
  }

  function Placed(terminators: map<Tid, seq<Terminator>>, tid: Tid, t: Terminator): map<Tid, seq<Terminator>> {
    terminators[tid := SetTop(StackOf(terminators, tid), t)]
  }

  // -------------------------------------------------------------- one block

  function Pushed<T>(m: map<Tid, seq<T>>, tid: Tid, x: T): map<Tid, seq<T>> { m[tid := StackOf(m, tid) + [x]] }

  function Popped<T>(m: map<Tid, seq<T>>, tid: Tid): map<Tid, seq<T>> { m[tid := Pop(StackOf(m, tid))] }

  /** A block ends a frame, or precedes the block on top of the stack. */
  ghost function Entered(ctx: Context, s: Scan, p: nat, b: SmallestBlock): Scan {
    var next := StackOf(s.nextBB, b.tid);
    if b.isLast > 0 then
      s.(funUsed := Pushed(s.funUsed, b.tid, false), nextBB := Pushed(s.nextBB, b.tid, (b.bb, false)),
         terminators := Pushed(s.terminators, b.tid, Terminator(b.bb, NO_TERMINATOR, true)))
    else if next != [] && Top(next).0 != b.bb && Top(next).1 then
      var s' := TerminatorKept(ctx, s, p, b, Top(next).0);
      s'.(terminators := Placed(s'.terminators, b.tid, Terminator(b.bb, NO_TERMINATOR, true)))
    else s
  }

  ghost predicate AccessNeeded(s: Scan, b: SmallestBlock, d: DynamicInst) {
    b.typ == ImpactfulCallBlock || (d.tid, d.id) in s.needed || d in s.memDepended
  }

  /** A load, store or the like of at least one byte. */
  predicate Touches(b: SmallestBlock)
    requires b.typ == MemoryAccessBlock ==> |b.addr| == 2
  {
    b.typ == MemoryAccessBlock && b.addr[0] < b.addr[1]
  }

  function Recorded(m: map<uint64, set<nat>>, a: uint64, id: nat): map<uint64, set<nat>> {
    m[a := AtAddr(m, a) + {id}]
  }

  ghost function Addressed(s: Scan, b: SmallestBlock, id: nat, isNeeded: bool): Scan
    requires b.typ == MemoryAccessBlock ==> |b.addr| == 2
  {
    if !isNeeded && Touches(b) then s.(sameAddr := Recorded(s.sameAddr, b.addr[0], id)) else s
  }

  ghost function AccessDone(ctx: Context, s: Scan, b: SmallestBlock, lo: nat): Scan
    requires IsAccess(b) && GoodBlock(ctx.prog, b)
  {
    var d := Numbered(s, b.tid, ctx.prog.bb2ins[b.bb][b.start]);
    var isNeeded := AccessNeeded(s, b, d);
    Addressed(Passing(ctx, s, lo, d, b.lastBB, isNeeded, true), b, d.id, isNeeded)
  }

  function PostDominators(postDom: map<nat, set<nat>>, bb: nat): (bbs: set<nat>)
    ensures forall d: nat :: d in bbs <==> bb in postDom && d in postDom[bb]
  {
    if bb in postDom then postDom[bb] else {}
  }

  /** Control reaches what is used: the next block is used, and need not have been
      reached from here. */
  ghost predicate Branches(ctx: Context, s: Scan, b: SmallestBlock) {
    var next := TopOr(StackOf(s.nextBB, b.tid), (b.bb, false));
    next.1 && next.0 !in PostDominators(ctx.postDom, b.bb)
  }

  /** The return is that of a thread, or nothing is returned, or the value is used. */
  ghost predicate Returns(s: Scan, b: SmallestBlock, tid: Tid, code: string) {
    ReturnVoid(code) || b.isLast == 2 || (b.caller.Some? && (tid, b.caller.value) in s.needed)
  }

  ghost predicate NormalNeeded(ctx: Context, s: Scan, b: SmallestBlock, d: DynamicInst)
    requires d.id < |ctx.prog.ins|
  {
    var info := ctx.prog.ins[d.id];
    || (d.tid, d.id) in s.needed
    || (info.typ == TerminatorInst && Branches(ctx, s, b))
    || (info.typ == ReturnInst && Returns(s, b, d.tid, info.code))
  }

  /** One instruction of a normal block. */
  ghost function NormalStep(ctx: Context, s: Scan, b: SmallestBlock, id: nat, p: nat): Scan
    requires id < |ctx.prog.ins|
  {
    var d := Numbered(s, b.tid, id);
    var isNeeded := NormalNeeded(ctx, s, b, d);
    var info := ctx.prog.ins[id];
    var t := Terminator(b.bb, d, isNeeded);
    var s' := if info.typ == TerminatorInst then s.(terminators := Placed(s.terminators, b.tid, t)) else s;
    Passing(ctx, s', p, d, b.lastBB, isNeeded, !(info.typ == TerminatorInst && |info.successors| <= 1))
  }

  /** The instructions of a normal block, backward down to instruction k. */
  ghost function NormalDone(ctx: Context, s: Scan, b: SmallestBlock, lo: nat, k: nat): Scan
    requires b.typ == NormalBlock && GoodProgram(ctx.prog) && GoodBlock(ctx.prog, b) && b.start <= k <= b.end
    decreases b.end - k
  {
    if k == b.end then s
    else NormalStep(ctx, NormalDone(ctx, s, b, lo, k + 1), b, ctx.prog.bb2ins[b.bb][k], lo + (k - b.start))
  }

  ghost function Noted(nextBB: map<Tid, seq<(nat, bool)>>, b: SmallestBlock, used: bool): map<Tid, seq<(nat, bool)>> {
    var next := StackOf(nextBB, b.tid);
    var top := TopOr(next, (b.bb, false));
    nextBB[b.tid := SetTop(next, (b.bb, used || (top.0 == b.bb && top.1)))]
  }

  /** The caller of a used function is needed. */
  ghost function CallerNeeded(s: Scan, b: SmallestBlock): Scan {
    if b.isFirst == 1 && TopOr(StackOf(s.funUsed, b.tid), false) && b.caller.Some?
    then s.(needed := s.needed + {(b.tid, b.caller.value)}) else s
  }

  /** The first block of a frame, if used, needs its terminator. */
  ghost function RunEnded(ctx: Context, s: Scan, p: nat, b: SmallestBlock): Scan {
    if TopOr(StackOf(s.nextBB, b.tid), (b.bb, false)).1 then TerminatorKept(ctx, s, p, b, b.bb) else s
  }

  ghost function Left(ctx: Context, s: Scan, p: nat, b: SmallestBlock, used: bool): Scan {
    var s1 := s.(nextBB := Noted(s.nextBB, b, used));
    if b.isFirst == 0 then s1
    else
      var s2 := RunEnded(ctx, CallerNeeded(s1, b), p, b);
      s2.(funUsed := Popped(s2.funUsed, b.tid), nextBB := Popped(s2.nextBB, b.tid),
          terminators := Popped(s2.terminators, b.tid))
  }

  /** Something between two positions is kept. */
  ghost predicate KeptWithin(kept: set<nat>, lo: nat, hi: nat) {
    exists p: nat :: lo <= p < hi && p in kept
  }

  ghost function InstructionsDone(ctx: Context, s: Scan, i: nat): Scan
    requires ctx.Good() && i < |ctx.trace| && ctx.trace[i].typ != DeclareBlock
  {
    var b := ctx.trace[i];
    var lo := Base(ctx.prog, ctx.trace, i);
    var s' := if b.typ == NormalBlock then NormalDone(ctx, s, b, lo, b.start) else AccessDone(ctx, s, b, lo);
    Left(ctx, s', lo, b, KeptWithin(s'.kept, lo, lo + |Ids(ctx.prog, b)|))
  }

  ghost function BlockDone(ctx: Context, s: Scan, i: nat): Scan
    requires ctx.Good() && i < |ctx.trace|
  {
    var b := ctx.trace[i];
    if b.typ == DeclareBlock then s
    else
      var s1 := Entered(ctx, s, Base(ctx.prog, ctx.trace, i + 1), b);
      if Skipped(ctx.prog, b) then s1 else InstructionsDone(ctx, s1, i)
  }

  /** The scan, from the end of the trace down to block n. */
  ghost function Scanned(ctx: Context, n: nat): Scan
    requires ctx.Good() && n <= |ctx.trace|
    decreases |ctx.trace| - n
  {
    if n == |ctx.trace| then NOTHING_YET else BlockDone(ctx, Scanned(ctx, n + 1), n)
  }
}
