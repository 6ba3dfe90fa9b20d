/** What every merged trace is like, whatever the events: blocks are well made,
    and the marks of first and last blocks nest. */
module Framing {
  import opened Common
  import opened Events
  import opened Merge
  import Executions
  import Grouping
  import MemoryDependency
  import Slice

  // ------------------------------------------------------------------ levels

  function One(n: nat): int { if n > 0 then 1 else 0 }

  /** How many frames of `tid` a block opens, less those it closes. */
  function Net(b: SmallestBlock, tid: Tid): int {
    if b.typ == DeclareBlock || b.tid != tid then 0 else One(b.isFirst) - One(b.isLast)
  }

  function Level(blocks: seq<SmallestBlock>, tid: Tid): int {
    if blocks == [] then 0 else Level(blocks[..|blocks| - 1], tid) + Net(blocks[|blocks| - 1], tid)
  }

  lemma {:induction false} LevelConcat(a: seq<SmallestBlock>, b: seq<SmallestBlock>, tid: Tid)
    ensures Level(a + b, tid) == Level(a, tid) + Level(b, tid)
    decreases |b|
  {
    if b == [] {
      assert a + b == a;
    } else {
      var n := |b| - 1;
      assert (a + b)[..|a + b| - 1] == a + b[..n];
      LevelConcat(a, b[..n], tid);
    }
  }

  lemma {:induction false} LevelOne(b: SmallestBlock, tid: Tid)
    ensures Level([b], tid) == Net(b, tid)
  {
    assert [b][..0] == [];
  }

  /** Block i lies in an open frame, if `base` frames were open at the start. */
  ghost predicate Inside(blocks: seq<SmallestBlock>, i: nat, tid: Tid, base: int)
    requires i < |blocks|
  {
    blocks[i].typ != DeclareBlock && blocks[i].tid == tid ==>
      base + Level(blocks[..i], tid) + One(blocks[i].isFirst) >= 1
  }

  ghost predicate Nested(blocks: seq<SmallestBlock>, tid: Tid, base: int) {
    forall i: nat :: i < |blocks| ==> Inside(blocks, i, tid, base)
  }

  lemma {:induction false} NestedConcat(a: seq<SmallestBlock>, b: seq<SmallestBlock>, tid: Tid, base: int, mid: int)
    requires Nested(a, tid, base) && Nested(b, tid, mid) && mid == base + Level(a, tid)
    ensures Nested(a + b, tid, base)
  {
    forall i: nat | i < |a + b| ensures Inside(a + b, i, tid, base) {
      if i < |a| {
        assert Inside(a, i, tid, base);
        assert (a + b)[..i] == a[..i];
      } else {
        var k: nat := i - |a|;
        assert Inside(b, k, tid, mid);
        assert (a + b)[..i] == a + b[..k];
        LevelConcat(a, b[..k], tid);
      }
    }
  }

  lemma {:induction false} NestedRaise(a: seq<SmallestBlock>, tid: Tid, base: int, more: int)
    requires Nested(a, tid, base) && base <= more
    ensures Nested(a, tid, more)
  {
    forall i: nat | i < |a| ensures Inside(a, i, tid, more) { assert Inside(a, i, tid, base); }
  }

  lemma {:induction false} NestedOne(b: SmallestBlock, tid: Tid, base: int)
    requires b.typ != DeclareBlock && b.tid == tid ==> base + One(b.isFirst) >= 1
    ensures Nested([b], tid, base)
  {
    assert [b][..0] == [];
  }

  /** Blocks of one thread move no other. */
  ghost predicate OnlyOf(blocks: seq<SmallestBlock>, tid: Tid) {
    forall i :: 0 <= i < |blocks| ==> blocks[i].typ == DeclareBlock || blocks[i].tid == tid
  }

  lemma {:induction false} OtherLevel(blocks: seq<SmallestBlock>, tid: Tid, other: Tid, base: int)
    requires OnlyOf(blocks, tid) && other != tid
    ensures Level(blocks, other) == 0 && Nested(blocks, other, base)
    decreases |blocks|
  {
    if blocks != [] {
      var n := |blocks| - 1;
      OtherLevel(blocks[..n], tid, other, base);
      forall i: nat | i < |blocks| ensures Inside(blocks, i, other, base) {
      }
    }
  }

  // --------------------------------------------------------- frames and marks

  /** Frames whose opening mark has been written. */
  function Height(stack: seq<StackInfo>, first: First): int { |stack| - One(first.0) }

  /** A mark not yet written belongs to a frame that has not started. */
  ghost predicate Awaiting(stack: seq<StackInfo>, first: First) {
    first.0 <= 2 && (first.0 > 0 ==> stack != [] && Top(stack).cur == 0)
  }

  /** The blocks move thread `tid` from one height to another. */
  ghost predicate Moves(blocks: seq<SmallestBlock>, tid: Tid, from: int, to: int) {
    OnlyOf(blocks, tid) && Nested(blocks, tid, from) && Level(blocks, tid) == to - from
  }

  lemma {:induction false} MovesNone(tid: Tid, height: int)
    ensures Moves([], tid, height, height)
  {
  }

  lemma {:induction false} MovesOne(b: SmallestBlock, tid: Tid, from: int)
    requires b.typ != DeclareBlock && b.tid == tid && from + One(b.isFirst) >= 1
    ensures Moves([b], tid, from, from + Net(b, tid))
  {
    LevelOne(b, tid);
    NestedOne(b, tid, from);
  }

  lemma {:induction false} MovesConcat(a: seq<SmallestBlock>, b: seq<SmallestBlock>, tid: Tid, from: int, mid: int,
                                       to: int)
    requires Moves(a, tid, from, mid) && Moves(b, tid, mid, to)
    ensures Moves(a + b, tid, from, to)
  {
    hide Nested, Level;
    LevelConcat(a, b, tid);
    NestedConcat(a, b, tid, from, mid);
  }

  lemma {:induction false} DrainMoves(prog: Program, tid: Tid, stack: seq<StackInfo>, first: First)
    requires GoodCode(prog) && GoodStack(prog, stack) && Awaiting(stack, first)
    ensures var d := Drain(prog, tid, stack, first);
            d.Some? ==> Awaiting(d.value.stack, d.value.first)
                        && Moves(d.value.blocks, tid, Height(stack, first), Height(d.value.stack, d.value.first))
    decreases |stack|
  {
    hide Moves, AtReturn, DrainEnd;
    MovesNone(tid, Height(stack, first));
    if stack != [] {
      var f := Top(stack);
      var end := DrainEnd(prog, f.bb, f.cur);
      var rest := stack[..|stack| - 1];
      var b := Normal(tid, f, end, first);
      MovesOne(b, tid, Height(stack, first));
      var b' := CloseFrame(prog, b, rest);
      if b'.Some? { MovesOne(b'.value, tid, Height(stack, first)); }
      DrainMoves(prog, tid, rest, NOT_FIRST);
      var d := Drain(prog, tid, rest, NOT_FIRST);
      if d.Some? && b'.Some? {
        MovesConcat([b'.value], d.value.blocks, tid, Height(stack, first), Height(rest, NOT_FIRST),
                    Height(d.value.stack, d.value.first));
      }
    }
  }

  /** The effect of an event on its thread. */
  ghost predicate Shifts(tid: Tid, ts: Thread, eff: Effect) {
    && Awaiting(eff.thread.stack, eff.thread.first)
    && Moves(eff.blocks, tid, Height(ts.stack, ts.first), Height(eff.thread.stack, eff.thread.first))
  }

  lemma {:induction false} AdvanceShifts(prog: Program, tid: Tid, ts: Thread, id: nat, typ: BlockType,
                                         addr: seq<uint64>)
    requires GoodCode(prog) && GoodStack(prog, ts.stack) && Awaiting(ts.stack, ts.first) && typ != DeclareBlock
    ensures var eff := Advance(prog, tid, ts, id, typ, addr); eff.Some? ==> Shifts(tid, ts, eff.value)
  {
    hide Moves;
    if ts.stack != [] {
      var b := Single(tid, typ, Top(ts.stack), ts.first, addr);
      MovesOne(b, tid, Height(ts.stack, ts.first));
    }
  }

  lemma {:induction false} HandleShifts(prog: Program, impactful: set<uint64>, ts: Thread, e: Event)
    requires GoodCode(prog) && GoodStack(prog, ts.stack) && e.HasTid() && Awaiting(ts.stack, ts.first)
    ensures var eff := Handle(prog, impactful, ts, e); eff.Some? ==> Shifts(e.tid, ts, eff.value)
  {
    hide Moves, Past, Listed, Advance;
    MovesNone(e.tid, Height(ts.stack, ts.first));
    match e {
      case BasicBlockEvent(_, _) => if ts.stack != [] { assert GoodBB(prog, Top(ts.stack).bb); }
      case ArgumentEvent(_, _) =>
      case MemoryEvent(tid, id, addr, length) =>
        DeclareMoves(tid, [addr, Past(addr, length)], Height(ts.stack, ts.first));
        AdvanceShifts(prog, tid, ts, id as nat, MemoryAccessBlock, [addr, Past(addr, length)]);
      case ReturnEvent(tid, id, fun) =>
        AdvanceShifts(prog, tid, ts, id as nat, CallType(prog, impactful, id as nat, fun), [fun] + Listed(ts.args));
      case MemsetEvent(tid, id, addr, length) =>
        AdvanceShifts(prog, tid, ts, id as nat, MemsetBlock, [addr, Past(addr, length)]);
      case MemmoveEvent(tid, id, dest, src, length) =>
        AdvanceShifts(prog, tid, ts, id as nat, MemmoveBlock, [dest, Past(dest, length), src, Past(src, length)]);
    }
  }

  lemma {:induction false} DeclareMoves(tid: Tid, addr: seq<uint64>, height: int)
    ensures Moves([Declared(tid, addr)], tid, height, height)
  {
    LevelOne(Declared(tid, addr), tid);
    NestedOne(Declared(tid, addr), tid, height);
  }

  lemma {:induction false} DrainShifts(prog: Program, tid: Tid, ts: Thread, eff: Effect)
    requires GoodCode(prog) && GoodStack(prog, eff.thread.stack) && Shifts(tid, ts, eff)
    ensures var r := DrainEffect(prog, tid, eff); r.Some? ==> Shifts(tid, ts, r.value)
  {
    hide Moves, Drain;
    var d := Drain(prog, tid, eff.thread.stack, eff.thread.first);
    DrainMoves(prog, tid, eff.thread.stack, eff.thread.first);
    if d.Some? {
      MovesConcat(eff.blocks, d.value.blocks, tid, Height(ts.stack, ts.first),
                  Height(eff.thread.stack, eff.thread.first), Height(d.value.stack, d.value.first));
    }
  }

  /** At every moment each thread's blocks are nested, and open as many frames
      as the thread has that have started. */
  ghost predicate Framing(st: State) {
    forall tid :: FramingOf(st, tid)
  }

  ghost predicate FramingOf(st: State, tid: Tid) {
    var ts := ThreadOf(st, tid);
    Awaiting(ts.stack, ts.first) && Nested(st.out, tid, 0) && Level(st.out, tid) == Height(ts.stack, ts.first)
  }

  lemma {:induction false} PutFraming(st: State, tid: Tid, eff: Effect)
    requires Framing(st) && Shifts(tid, ThreadOf(st, tid), eff)
    ensures Framing(Put(st, tid, eff))
  {
    hide Level, Nested, Awaiting, Height, OnlyOf;
    var st' := Put(st, tid, eff);
    forall t ensures FramingOf(st', t) {
      assert FramingOf(st, t);
      var height := Height(ThreadOf(st, t).stack, ThreadOf(st, t).first);
      LevelConcat(st.out, eff.blocks, t);
      if t != tid { OtherLevel(eff.blocks, tid, t, height); }
      NestedConcat(st.out, eff.blocks, t, 0, height);
    }
  }

  lemma {:induction false} NextFraming(prog: Program, impactful: set<uint64>, st: State, e: Event)
    requires GoodCode(prog) && GoodState(prog, st) && Framing(st)
    ensures var st' := Next(prog, impactful, st, e); st'.Some? ==> Framing(st'.value)
  {
    hide Shifts, Framing, DrainEffect, Handle, FramingOf, GoodStack;
    var tid := if e.HasTid() then e.tid else if st.last.Some? then st.last.value else 0;
    var ts := ThreadOf(st, tid);
    FramingThread(prog, st, tid);
    if e.HasTid() {
      HandleShifts(prog, impactful, ts, e);
      var eff := Handle(prog, impactful, ts, e);
      if eff.Some? { DrainShifts(prog, tid, ts, eff.value); }
    } else {
      Unshifted(tid, ts);
      DrainShifts(prog, tid, ts, Effect(ts, []));
    }
    var st' := Next(prog, impactful, st, e);
    if st'.Some? {
      var eff :| Shifts(tid, ts, eff) && st'.value == Put(st, tid, eff);
      PutFraming(st, tid, eff);
    }
  }

  lemma {:induction false} FramingThread(prog: Program, st: State, tid: Tid)
    requires GoodState(prog, st) && Framing(st)
    ensures GoodStack(prog, ThreadOf(st, tid).stack)
    ensures Awaiting(ThreadOf(st, tid).stack, ThreadOf(st, tid).first)
  {
    assert FramingOf(st, tid);
  }

  lemma {:induction false} Unshifted(tid: Tid, ts: Thread)
    requires Awaiting(ts.stack, ts.first)
    ensures Shifts(tid, ts, Effect(ts, []))
  {
    MovesNone(tid, Height(ts.stack, ts.first));
  }

  lemma {:induction false} MergedFraming(prog: Program, impactful: set<uint64>, events: seq<Event>)
    requires GoodCode(prog)
    ensures var st := Merged(prog, impactful, events); st.Some? ==> Framing(st.value)
    decreases |events|
  {
    hide FramingOf, Next;
    if events == [] {
      forall tid ensures FramingOf(START, tid) { StartFraming(tid); }
    } else {
      var n := |events| - 1;
      MergedFraming(prog, impactful, events[..n]);
      var st := Merged(prog, impactful, events[..n]);
      if st.Some? { NextFraming(prog, impactful, st.value, events[n]); }
    }
  }

  lemma {:induction false} StartFraming(tid: Tid)
    ensures FramingOf(START, tid)
  {
  }

  // ------------------------------------------------------------ closing blocks

  lemma {:induction false} ClosingMoves(prog: Program, st: State, tid: Tid, stack: seq<StackInfo>, stale: Option<nat>)
    requires GoodCode(prog) && GoodStack(prog, stack)
    ensures var bs := Closing(prog, st, tid, stack, stale); bs.Some? ==> Moves(bs.value, tid, |stack|, 0)
    decreases |stack|
  {
    hide Moves, ClosingBB;
    if stack == [] {
      MovesNone(tid, 0);
    } else {
      var f := Top(stack);
      var rest := stack[..|stack| - 1];
      var b := CloseFrame(prog, Normal(tid, f.(lastBB := ClosingBB(st, tid, f, stale)), f.cur, NOT_FIRST), rest);
      ClosingMoves(prog, st, tid, rest, stale);
      var bs := Closing(prog, st, tid, rest, stale);
      if b.Some? && bs.Some? {
        MovesOne(b.value, tid, |stack|);
        MovesConcat([b.value], bs.value, tid, |stack|, |rest|, 0);
      }
    }
  }

  function OpenFrames(st: State, tids: set<Tid>, tid: Tid): int {
    if tid in tids then |ThreadOf(st, tid).stack| else 0
  }

  ghost predicate Closes(bs: seq<SmallestBlock>, st: State, tids: set<Tid>) {
    forall tid :: ClosesOf(bs, st, tids, tid)
  }

  ghost predicate ClosesOf(bs: seq<SmallestBlock>, st: State, tids: set<Tid>, tid: Tid) {
    Nested(bs, tid, OpenFrames(st, tids, tid)) && Level(bs, tid) == -OpenFrames(st, tids, tid)
  }

  lemma {:induction false} ClosingAllCloses(prog: Program, st: State, tids: set<Tid>, stale: Option<nat>)
    requires GoodCode(prog) && GoodState(prog, st)
    ensures var bs := ClosingAll(prog, st, tids, stale); bs.Some? ==> Closes(bs.value, st, tids)
    decreases |tids|
  {
    hide Closing, ClosesOf, GoodStack;
    if tids == {} {
      forall tid ensures ClosesOf([], st, tids, tid) { NothingCloses(st, tid); }
    } else {
      var tid := Least(tids);
      assert |tids - {tid}| < |tids|;
      GoodThread(prog, st, tid);
      ClosingMoves(prog, st, tid, ThreadOf(st, tid).stack, stale);
      ClosingAllCloses(prog, st, tids - {tid}, stale);
      var a, b := Closing(prog, st, tid, ThreadOf(st, tid).stack, stale), ClosingAll(prog, st, tids - {tid}, stale);
      if a.Some? && b.Some? {
        forall t ensures ClosesOf(a.value + b.value, st, tids, t) {
          assert ClosesOf(b.value, st, tids - {tid}, t);
          ClosesConcat(a.value, b.value, st, tids, tid, t);
        }
      }
    }
  }

  lemma {:induction false} GoodThread(prog: Program, st: State, tid: Tid)
    requires GoodState(prog, st)
    ensures GoodStack(prog, ThreadOf(st, tid).stack)
  {
  }

  lemma {:induction false} NothingCloses(st: State, tid: Tid)
    ensures ClosesOf([], st, {}, tid)
  {
  }

  lemma {:induction false} ClosesConcat(a: seq<SmallestBlock>, b: seq<SmallestBlock>, st: State, tids: set<Tid>,
                                        tid: Tid, t: Tid)
    requires tid in tids && Moves(a, tid, |ThreadOf(st, tid).stack|, 0) && ClosesOf(b, st, tids - {tid}, t)
    ensures ClosesOf(a + b, st, tids, t)
  {
    hide Nested, Level;
    var from, mid := OpenFrames(st, tids, t), OpenFrames(st, tids - {tid}, t);
    LevelConcat(a, b, t);
    if t != tid { OtherLevel(a, tid, t, from); }
    NestedConcat(a, b, t, from, mid);
  }

  // ---------------------------------------------------- the slicer's view of it

  lemma {:induction false} LevelStep(trace: seq<SmallestBlock>, i: nat, tid: Tid)
    requires i < |trace|
    ensures Level(trace[..i + 1], tid) == Level(trace[..i], tid) + Net(trace[i], tid)
  {
    assert trace[..i + 1][..i] == trace[..i];
  }

  /** Frames of `tid` whose first block, from block i on, the scan passes over. */
  ghost function PassedOver(prog: Program, trace: seq<SmallestBlock>, i: nat, tid: Tid): nat
    requires Executions.GoodTrace(prog, trace) && i <= |trace|
    decreases |trace| - i
  {
    if i == |trace| then 0
    else
      PassedOver(prog, trace, i + 1, tid)
      + if trace[i].tid == tid && trace[i].isFirst > 0 && Executions.Skipped(prog, trace[i]) then 1 else 0
  }

  /** Going backward, the open frames are those opened before and closed after;
      the calls that are passed over only leave more of them open. */
  lemma {:induction false} DepthLevel(prog: Program, trace: seq<SmallestBlock>, i: nat, tid: Tid)
    requires Executions.GoodTrace(prog, trace) && i <= |trace|
    ensures Slice.DepthAt(prog, trace, i)(tid)
            == Level(trace[..i], tid) - Level(trace, tid) + PassedOver(prog, trace, i, tid)
    decreases |trace| - i
  {
    if i == |trace| {
      assert trace[..i] == trace;
    } else {
      LevelStep(trace, i, tid);
      DepthLevel(prog, trace, i + 1, tid);
    }
  }

  lemma {:induction false} NestedFramed(prog: Program, trace: seq<SmallestBlock>)
    requires Executions.GoodTrace(prog, trace)
    requires forall tid :: Nested(trace, tid, -Level(trace, tid))
    ensures Slice.Framed(prog, trace)
  {
    hide Slice.DepthAt, Executions.Skipped;
    forall i: nat | i < |trace| && trace[i].typ != DeclareBlock && !Executions.Skipped(prog, trace[i])
      ensures Slice.Opened(trace[i], Slice.DepthAt(prog, trace, i + 1))(trace[i].tid) >= 1
    {
      var tid := trace[i].tid;
      assert Nested(trace, tid, -Level(trace, tid)) && Inside(trace, i, tid, -Level(trace, tid));
      LevelStep(trace, i, tid);
      DepthLevel(prog, trace, i + 1, tid);
    }
  }

  /** The blocks of a merged trace nest; a frame whose first block never came
      is closed without having been opened. */
  lemma {:induction false} BlockTraceNested(prog: Program, impactful: set<uint64>, events: seq<Event>,
                                            stale: Option<nat>, tid: Tid)
    requires GoodCode(prog) && BlockTrace(prog, impactful, events, stale).Some?
    ensures var trace := BlockTrace(prog, impactful, events, stale).value;
            var ts := ThreadOf(Merged(prog, impactful, events).value, tid);
            Level(trace, tid) == -One(ts.first.0) && Nested(trace, tid, One(ts.first.0))
  {
    hide Nested, Level, Merged, ClosingAll;
    MergedFraming(prog, impactful, events);
    var st := Merged(prog, impactful, events).value;
    assert FramingOf(st, tid);
    var tids := OpenThreads(st);
    ClosingAllCloses(prog, st, tids, stale);
    var bs := ClosingAll(prog, st, tids, stale).value;
    assert ClosesOf(bs, st, tids, tid);
    var pending := One(ThreadOf(st, tid).first.0);
    NestedRaise(st.out, tid, 0, pending);
    LevelConcat(st.out, bs, tid);
    assert OpenFrames(st, tids, tid) == |ThreadOf(st, tid).stack|;
    NestedConcat(st.out, bs, tid, pending, OpenFrames(st, tids, tid));
  }

  // -------------------------------------------------------- well-made blocks

  /** Instructions that belong to normal blocks. */
  predicate Plain(info: InstInfo) { Silent(info) || Calls(info) }

  predicate Accesses(typ: InstType) { typ in {LoadInst, StoreInst, AtomicInst, AllocaInst} }

  /** An event names an instruction of its own kind; the functions whose calls
      the slicer passes over are not impactful. */
  predicate KindMatches(prog: Program, impactful: set<uint64>, e: Event) {
    match e
    case MemoryEvent(_, id, _, _) => id as int < |prog.ins| ==> Accesses(prog.ins[id].typ)
    case ReturnEvent(_, id, fun) =>
      id as int < |prog.ins| ==>
        prog.ins[id].typ == ExternalCallInst && (prog.ins[id].fun in PASSED_OVER ==> fun !in impactful)
    case MemsetEvent(_, id, _, _) => id as int < |prog.ins| ==> prog.ins[id].typ == CallInst && !Calls(prog.ins[id])
    case MemmoveEvent(_, id, _, _, _) =>
      id as int < |prog.ins| ==> prog.ins[id].typ == CallInst && !Calls(prog.ins[id])
    case _ => true
  }

  /** An instruction fit for a block of the given type. */
  predicate Suits(info: InstInfo, typ: BlockType) {
    && !Plain(info)
    && (typ in {ExternalCallBlock, ImpactfulCallBlock} <==> info.typ == ExternalCallInst)
    && (typ == ImpactfulCallBlock ==> info.fun !in PASSED_OVER)
  }

  /** A function or thread returns only in a block marked as its last. */
  ghost predicate Marked(prog: Program, b: SmallestBlock)
    requires Executions.GoodBlock(prog, b) && Executions.GoodProgram(prog)
  {
    b.typ == NormalBlock ==>
      forall k :: b.start <= k < b.end && prog.ins[prog.bb2ins[b.bb][k]].typ == ReturnInst ==> b.isLast in {1, 2}
  }

  /** No instruction occurs both in normal blocks and in accesses. */
  ghost predicate Typed(prog: Program, b: SmallestBlock)
    requires Executions.GoodBlock(prog, b) && Executions.GoodProgram(prog)
  {
    && (b.typ == NormalBlock ==> forall k :: b.start <= k < b.end ==> Plain(prog.ins[prog.bb2ins[b.bb][k]]))
    && (IsAccess(b) ==> Suits(prog.ins[prog.bb2ins[b.bb][b.start]], b.typ))
  }

  ghost predicate Made(prog: Program, typed: bool, b: SmallestBlock)
    requires Executions.GoodProgram(prog)
  {
    && Grouping.Groupable(prog, b) && Marked(prog, b)
    && (typed ==> Typed(prog, b))
  }

  ghost predicate AllMade(prog: Program, typed: bool, blocks: seq<SmallestBlock>)
    requires Executions.GoodProgram(prog)
  {
    forall i :: 0 <= i < |blocks| ==> Made(prog, typed, blocks[i])
  }

  lemma {:induction false} GoodCodeProgram(prog: Program)
    requires GoodCode(prog)
    ensures Executions.GoodProgram(prog)
  {
    forall bb, k | 0 <= bb < |prog.bb2ins| && 0 <= k < |prog.bb2ins[bb]| ensures prog.bb2ins[bb][k] < |prog.ins| {
      assert GoodBB(prog, bb);
    }
  }

  /** Only the last instruction of a block returns. */
  lemma {:induction false} ReturnsLast(prog: Program, bb: nat, k: nat)
    requires GoodCode(prog) && bb < |prog.bb2ins| && k < |prog.bb2ins[bb]|
    requires InfoAt(prog, bb, k).typ == ReturnInst
    ensures k == |prog.bb2ins[bb]| - 1
  {
    assert GoodBB(prog, bb);
  }

  lemma {:induction false} PlainUntil(prog: Program, bb: nat, i: nat, k: nat)
    requires GoodCode(prog) && bb < |prog.bb2ins| && i <= |prog.bb2ins[bb]|
    requires i <= k < DrainEnd(prog, bb, i)
    ensures Plain(InfoAt(prog, bb, k))
  {
  }

  /** The block a drained frame yields, once it is marked as it should be. */
  lemma {:induction false} NormalMade(prog: Program, typed: bool, tid: Tid, f: StackInfo, end: nat, first: First,
                                      b: SmallestBlock)
    requires GoodCode(prog) && Executions.GoodProgram(prog) && GoodFrame(prog, f)
    requires end == DrainEnd(prog, f.bb, f.cur) || end == f.cur
    requires b == Normal(tid, f, end, first).(isLast := b.isLast, caller := b.caller)
    requires b.isLast in {1, 2} || !AtReturn(prog, f.bb, end)
    ensures Made(prog, typed, b)
  {
    hide DrainEnd, Plain, GoodBB;
    forall k | b.start <= k < b.end && prog.ins[prog.bb2ins[b.bb][k]].typ == ReturnInst ensures b.isLast in {1, 2} {
      assert InfoAt(prog, f.bb, k) == prog.ins[prog.bb2ins[f.bb][k]];
      ReturnsLast(prog, f.bb, k);
    }
    forall k | b.start <= k < b.end ensures Plain(prog.ins[prog.bb2ins[b.bb][k]]) {
      assert InfoAt(prog, f.bb, k) == prog.ins[prog.bb2ins[f.bb][k]];
      PlainUntil(prog, f.bb, f.cur, k);
    }
  }

  lemma {:induction false} DrainMade(prog: Program, typed: bool, tid: Tid, stack: seq<StackInfo>, first: First)
    requires GoodCode(prog) && Executions.GoodProgram(prog) && GoodStack(prog, stack)
    ensures var d := Drain(prog, tid, stack, first); d.Some? ==> AllMade(prog, typed, d.value.blocks)
    decreases |stack|
  {
    hide Made, DrainEnd, AtReturn;
    if stack != [] {
      var f := Top(stack);
      var end := DrainEnd(prog, f.bb, f.cur);
      var rest := stack[..|stack| - 1];
      var b := Normal(tid, f, end, first);
      if !AtReturn(prog, f.bb, end) {
        NormalMade(prog, typed, tid, f, end, first, b);
      } else {
        var b' := CloseFrame(prog, b, rest);
        if b'.Some? { NormalMade(prog, typed, tid, f, end, first, b'.value); }
        DrainMade(prog, typed, tid, rest, NOT_FIRST);
      }
    }
  }

  lemma {:induction false} AdvanceMade(prog: Program, typed: bool, tid: Tid, ts: Thread, id: nat, typ: BlockType,
                                       addr: seq<uint64>)
    requires GoodCode(prog) && Executions.GoodProgram(prog) && GoodStack(prog, ts.stack)
    requires typ !in {NormalBlock, DeclareBlock}
    requires typ in {MemoryAccessBlock, MemsetBlock} ==> |addr| == 2
    requires typ == MemmoveBlock ==> |addr| == 4
    requires typed && id < |prog.ins| ==> Suits(prog.ins[id], typ)
    ensures var eff := Advance(prog, tid, ts, id, typ, addr); eff.Some? ==> AllMade(prog, typed, eff.value.blocks)
  {
    hide Suits;
    if ts.stack != [] && Top(ts.stack).cur < |prog.bb2ins[Top(ts.stack).bb]| {
      assert GoodBB(prog, Top(ts.stack).bb);
    }
  }

  lemma {:induction false} PassedOverOrdinary(name: string)
    requires name in PASSED_OVER
    ensures !ImpactfulName(name)
  {
    assert name[0] in {'f', 'v'};
    assert "pthread_"[0] == 'p';
  }

  lemma {:induction false} HandleMade(prog: Program, impactful: set<uint64>, typed: bool, ts: Thread, e: Event)
    requires GoodCode(prog) && Executions.GoodProgram(prog) && GoodStack(prog, ts.stack) && e.HasTid()
    requires typed ==> KindMatches(prog, impactful, e)
    ensures var eff := Handle(prog, impactful, ts, e); eff.Some? ==> AllMade(prog, typed, eff.value.blocks)
  {
    hide Past, Listed, Advance, EnterBB;
    match e {
      case MemoryEvent(tid, id, addr, length) =>
        AdvanceMade(prog, typed, tid, ts, id as nat, MemoryAccessBlock, [addr, Past(addr, length)]);
      case ReturnEvent(tid, id, fun) =>
        if id as int < |prog.ins| && prog.ins[id].fun in PASSED_OVER { PassedOverOrdinary(prog.ins[id].fun); }
        var typ := CallType(prog, impactful, id as nat, fun);
        AdvanceMade(prog, typed, tid, ts, id as nat, typ, [fun] + Listed(ts.args));
      case MemsetEvent(tid, id, addr, length) =>
        AdvanceMade(prog, typed, tid, ts, id as nat, MemsetBlock, [addr, Past(addr, length)]);
      case MemmoveEvent(tid, id, dest, src, length) =>
        AdvanceMade(prog, typed, tid, ts, id as nat, MemmoveBlock, [dest, Past(dest, length), src, Past(src, length)]);
      case _ =>
    }
  }

  lemma {:induction false} NextMade(prog: Program, impactful: set<uint64>, typed: bool, st: State, e: Event)
    requires GoodCode(prog) && Executions.GoodProgram(prog) && GoodState(prog, st)
    requires AllMade(prog, typed, st.out) && (typed ==> KindMatches(prog, impactful, e))
    ensures var st' := Next(prog, impactful, st, e); st'.Some? ==> AllMade(prog, typed, st'.value.out)
  {
    hide Made, Handle, Drain, KindMatches, GoodStack;
    var tid := if e.HasTid() then e.tid else if st.last.Some? then st.last.value else 0;
    var ts := ThreadOf(st, tid);
    GoodThread(prog, st, tid);
    if e.HasTid() {
      HandleMade(prog, impactful, typed, ts, e);
      var eff := Handle(prog, impactful, ts, e);
      if eff.Some? { DrainMade(prog, typed, tid, eff.value.thread.stack, eff.value.thread.first); }
    } else {
      DrainMade(prog, typed, tid, ts.stack, ts.first);
    }
  }

  lemma {:induction false} MergedMade(prog: Program, impactful: set<uint64>, typed: bool, events: seq<Event>)
    requires GoodCode(prog) && Executions.GoodProgram(prog)
    requires typed ==> forall i :: 0 <= i < |events| ==> KindMatches(prog, impactful, events[i])
    ensures var st := Merged(prog, impactful, events); st.Some? ==> AllMade(prog, typed, st.value.out)
    decreases |events|
  {
    hide Next, KindMatches;
    if events != [] {
      var n := |events| - 1;
      MergedMade(prog, impactful, typed, events[..n]);
      var st := Merged(prog, impactful, events[..n]);
      if st.Some? { NextMade(prog, impactful, typed, st.value, events[n]); }
    }
  }

  lemma {:induction false} ClosingMade(prog: Program, typed: bool, st: State, tid: Tid, stack: seq<StackInfo>,
                                       stale: Option<nat>)
    requires GoodCode(prog) && Executions.GoodProgram(prog) && GoodStack(prog, stack)
    ensures var bs := Closing(prog, st, tid, stack, stale); bs.Some? ==> AllMade(prog, typed, bs.value)
    decreases |stack|
  {
    hide Made, ClosingBB;
    if stack != [] {
      var f := Top(stack);
      var rest := stack[..|stack| - 1];
      var f' := f.(lastBB := ClosingBB(st, tid, f, stale));
      var b := CloseFrame(prog, Normal(tid, f', f.cur, NOT_FIRST), rest);
      if b.Some? { NormalMade(prog, typed, tid, f', f.cur, NOT_FIRST, b.value); }
      ClosingMade(prog, typed, st, tid, rest, stale);
    }
  }

  lemma {:induction false} ClosingAllMade(prog: Program, typed: bool, st: State, tids: set<Tid>, stale: Option<nat>)
    requires GoodCode(prog) && Executions.GoodProgram(prog) && GoodState(prog, st)
    ensures var bs := ClosingAll(prog, st, tids, stale); bs.Some? ==> AllMade(prog, typed, bs.value)
    decreases |tids|
  {
    hide Made, Closing, GoodStack;
    if tids != {} {
      var tid := Least(tids);
      assert |tids - {tid}| < |tids|;
      GoodThread(prog, st, tid);
      ClosingMade(prog, typed, st, tid, ThreadOf(st, tid).stack, stale);
      ClosingAllMade(prog, typed, st, tids - {tid}, stale);
    }
  }

  lemma {:induction false} BlockTraceMade(prog: Program, impactful: set<uint64>, typed: bool, events: seq<Event>,
                                          stale: Option<nat>)
    requires GoodCode(prog) && Executions.GoodProgram(prog)
    requires typed ==> forall i :: 0 <= i < |events| ==> KindMatches(prog, impactful, events[i])
    ensures var trace := BlockTrace(prog, impactful, events, stale); trace.Some? ==> AllMade(prog, typed, trace.value)
  {
    hide Made, Merged, ClosingAll, KindMatches;
    MergedMade(prog, impactful, typed, events);
    var st := Merged(prog, impactful, events);
    if st.Some? { ClosingAllMade(prog, typed, st.value, OpenThreads(st.value), stale); }
  }

  /** Any trace the merger accepts is fit for the passes after it: in range,
      with every block inside a frame and every return marked. */
  lemma {:induction false} BlockTraceFit(prog: Program, impactful: set<uint64>, events: seq<Event>, stale: Option<nat>)
    requires GoodCode(prog) && BlockTrace(prog, impactful, events, stale).Some?
    ensures var trace := BlockTrace(prog, impactful, events, stale).value;
            && Executions.GoodTrace(prog, trace) && FormedTrace(prog, trace)
            && Grouping.GroupableTrace(prog, trace)
            && Slice.Framed(prog, trace) && Slice.ReturnsMarked(prog, trace)
  {
    hide BlockTrace, Nested, Level, Slice.Framed;
    GoodCodeProgram(prog);
    BlockTraceMade(prog, impactful, false, events, stale);
    var trace := BlockTrace(prog, impactful, events, stale).value;
    forall i | 0 <= i < |trace| ensures Grouping.Groupable(prog, trace[i]) {
      assert Made(prog, false, trace[i]);
    }
    forall tid ensures Nested(trace, tid, -Level(trace, tid)) {
      BlockTraceNested(prog, impactful, events, stale, tid);
    }
    NestedFramed(prog, trace);
    forall i | 0 <= i < |trace| ensures Marked(prog, trace[i]) { assert Made(prog, false, trace[i]); }
  }

  /** The stacks the scan keeps for a thread end up empty exactly when every
      frame of the thread wrote a block that the scan does not pass over. */
  lemma {:induction false} StacksBalance(prog: Program, impactful: set<uint64>, events: seq<Event>, stale: Option<nat>,
                                         tid: Tid)
    requires GoodCode(prog) && BlockTrace(prog, impactful, events, stale).Some?
    ensures var trace := BlockTrace(prog, impactful, events, stale).value;
            var ts := ThreadOf(Merged(prog, impactful, events).value, tid);
            && Executions.GoodTrace(prog, trace)
            && Slice.DepthAt(prog, trace, 0)(tid) == One(ts.first.0) + PassedOver(prog, trace, 0, tid)
  {
    hide BlockTrace, Merged, Nested, Slice.DepthAt, Slice.Framed, PassedOver;
    BlockTraceFit(prog, impactful, events, stale);
    BlockTraceNested(prog, impactful, events, stale, tid);
    var trace := BlockTrace(prog, impactful, events, stale).value;
    DepthLevel(prog, trace, 0, tid);
    assert trace[..0] == [];
  }
}
