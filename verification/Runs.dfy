/** Small programs and the events of their runs: how the merger takes them in, step by
    step. The modules that show where the analysis goes wrong start from here. */
module Runs {
  import opened Common
  import opened Events
  import opened Merge
  import opened Recording

  function Plainly(typ: InstType, isPointer: bool, ssa: seq<(DepType, nat)>): InstInfo {
    InstInfo(typ, isPointer, "", "", ssa, [], [])
  }

  /** An external call is one of `write`. */
  function Info(typ: InstType, ssa: seq<(DepType, nat)>, successors: seq<nat>, phi: seq<(nat, DepType, nat)>): InstInfo
  {
    InstInfo(typ, false, if typ == ExternalCallInst then "write" else "", "", ssa, successors, phi)
  }

  // ------------------------------------------------------------ merging events

  /** The silent instructions of a block that does not return yet. */
  lemma {:induction false} DrainBefore(prog: Program, tid: Tid, rest: seq<StackInfo>, f: StackInfo, first: First,
                                       end: nat)
    requires GoodCode(prog) && GoodStack(prog, rest) && GoodFrame(prog, f)
    requires DrainEnd(prog, f.bb, f.cur) == end && !AtReturn(prog, f.bb, end)
    ensures GoodStack(prog, rest + [f])
    ensures Drain(prog, tid, rest + [f], first) ==
            Some(if end > f.cur then Drained(rest + [f.(cur := end)], NOT_FIRST, [Normal(tid, f, end, first)])
                 else Drained(rest + [f], first, []))
  {
    hide DrainEnd, AtReturn;
    var stack := rest + [f];
    assert stack[..|stack| - 1] == rest && Top(stack) == f;
  }

  /** ... and of one that does. */
  lemma {:induction false} DrainReturns(prog: Program, tid: Tid, rest: seq<StackInfo>, f: StackInfo, first: First,
                                        end: nat, b: SmallestBlock, d: Drained)
    requires GoodCode(prog) && GoodStack(prog, rest) && GoodFrame(prog, f)
    requires DrainEnd(prog, f.bb, f.cur) == end > f.cur && AtReturn(prog, f.bb, end)
    requires CloseFrame(prog, Normal(tid, f, end, first), rest) == Some(b)
    requires Drain(prog, tid, rest, NOT_FIRST) == Some(d)
    ensures GoodStack(prog, rest + [f])
    ensures Drain(prog, tid, rest + [f], first) == Some(d.(blocks := [b] + d.blocks))
  {
    hide DrainEnd, AtReturn, CloseFrame;
    var stack := rest + [f];
    assert stack[..|stack| - 1] == rest && Top(stack) == f;
  }

  /** A thread reports an access, and goes on. */
  lemma {:induction false} NextAccess(prog: Program, st: State, tid: Tid, id: uint32, addr: uint64, length: uint64,
                                      rest: seq<StackInfo>, f: StackInfo, first: First, d: Drained)
    requires GoodCode(prog) && GoodState(prog, st) && GoodStack(prog, rest) && GoodFrame(prog, f)
    requires ThreadOf(st, tid) == Thread(rest + [f], first, {}) && id != DECLARED
    requires f.cur < |prog.bb2ins[f.bb]| && prog.bb2ins[f.bb][f.cur] == id as nat
    requires GoodStack(prog, rest + [f.(cur := f.cur + 1)])
             && Drain(prog, tid, rest + [f.(cur := f.cur + 1)], NOT_FIRST) == Some(d)
    ensures var b := Single(tid, MemoryAccessBlock, f, first, [addr, Past(addr, length)]);
            Next(prog, {}, st, MemoryEvent(tid, id, addr, length)) ==
            Some(State(st.threads[tid := Thread(d.stack, d.first, {})], Some(tid), st.out + ([b] + d.blocks)))
  {
    hide Drain;
    var stack := rest + [f];
    assert Top(stack) == f && stack[|stack| - 1 := f.(cur := f.cur + 1)] == rest + [f.(cur := f.cur + 1)];
  }

  /** A thread reports an external call without arguments, which is impactful, and goes
      on. */
  lemma {:induction false} NextCall(prog: Program, st: State, tid: Tid, id: uint32, fun: uint64, rest: seq<StackInfo>,
                                    f: StackInfo, first: First, d: Drained)
    requires GoodCode(prog) && GoodState(prog, st) && GoodStack(prog, rest) && GoodFrame(prog, f)
    requires ThreadOf(st, tid) == Thread(rest + [f], first, {})
    requires f.cur < |prog.bb2ins[f.bb]| && prog.bb2ins[f.bb][f.cur] == id as nat
    requires id as nat < |prog.ins| && ImpactfulName(prog.ins[id].fun)
    requires GoodStack(prog, rest + [f.(cur := f.cur + 1)])
             && Drain(prog, tid, rest + [f.(cur := f.cur + 1)], NOT_FIRST) == Some(d)
    ensures var b := Single(tid, ImpactfulCallBlock, f, first, [fun]);
            Next(prog, {}, st, ReturnEvent(tid, id, fun)) ==
            Some(State(st.threads[tid := Thread(d.stack, d.first, {})], Some(tid), st.out + ([b] + d.blocks)))
  {
    hide Drain, ImpactfulName;
    var stack := rest + [f];
    assert Top(stack) == f && stack[|stack| - 1 := f.(cur := f.cur + 1)] == rest + [f.(cur := f.cur + 1)];
    assert [fun] + Listed({}) == [fun];
  }

  lemma {:induction false} NoneMerged(prog: Program, events: seq<Event>)
    requires GoodCode(prog)
    ensures Merged(prog, {}, events[..0]) == Some(START)
  {
  }

  lemma {:induction false} EmptyDrain(prog: Program, tid: Tid)
    requires GoodCode(prog)
    ensures Drain(prog, tid, [], NOT_FIRST) == Some(Drained([], NOT_FIRST, []))
  {
  }

  lemma {:induction false} More(prog: Program, events: seq<Event>, n: nat, st: State) returns (st': State)
    requires GoodCode(prog) && n < |events| && Merged(prog, {}, events[..n]) == Some(st)
    requires Next(prog, {}, st, events[n]).Some?
    ensures Some(st') == Next(prog, {}, st, events[n]) == Merged(prog, {}, events[..n + 1])
  {
    hide Next;
    assert events[..n + 1][..n] == events[..n];
    st' := Next(prog, {}, st, events[n]).value;
  }

  /** The merger has taken in the first n events, all of one thread. */
  ghost predicate After(prog: Program, events: seq<Event>, n: nat, st: State, tid: Tid, ts: Thread)
    requires GoodCode(prog)
  {
    && n <= |events| && Merged(prog, {}, events[..n]) == Some(st)
    && st.threads == map[tid := ts] && st.last == Some(tid)
  }

  /** One event of the thread, and what is drained after it. */
  lemma {:induction false} OneEvent(prog: Program, events: seq<Event>, n: nat, st: State, tid: Tid, ts: Thread,
                                    eff: Effect, d: Drained) returns (st': State)
    requires GoodCode(prog) && After(prog, events, n, st, tid, ts) && n < |events| && GoodStack(prog, ts.stack)
    requires events[n].HasTid() && events[n].tid == tid && !NoDrain(events[n])
    requires Handle(prog, {}, ts, events[n]) == Some(eff) && GoodStack(prog, eff.thread.stack)
    requires Drain(prog, tid, eff.thread.stack, eff.thread.first) == Some(d)
    ensures After(prog, events, n + 1, st', tid, eff.thread.(stack := d.stack, first := d.first))
    ensures st'.out == st.out + (eff.blocks + d.blocks)
  {
    hide Drain, Merged, Handle, GoodStack;
    st' := More(prog, events, n, st);
  }

  /** A thread starts with block bb, and runs it up to its first event or call. */
  lemma {:induction false} Starts(prog: Program, events: seq<Event>, tid: Tid, bb: uint32, end: nat)
    returns (st: State)
    requires GoodCode(prog) && bb as nat < |prog.bb2ins| && events != [] && events[0] == BasicBlockEvent(tid, bb)
    requires DrainEnd(prog, bb as nat, 0) == end && !AtReturn(prog, bb as nat, end)
    ensures var f := StackInfo(bb as nat, None, 0);
            && After(prog, events, 1, st, tid, if end > 0 then Thread([f.(cur := end)], NOT_FIRST, {})
                                               else Thread([f], (2, Some(0)), {}))
            && st.out == if end > 0 then [Normal(tid, f, end, (2, Some(0)))] else []
  {
    hide DrainEnd, GoodBB, Drain, Merged, Next, AtReturn;
    var f := StackInfo(bb as nat, None, 0);
    assert [] + [f] == [f] && [] + [f.(cur := end)] == [f.(cur := end)];
    NoneMerged(prog, events);
    DrainBefore(prog, tid, [], f, (2, Some(0)), end);
    NextEnter(prog, START, tid, bb, Thread([f], (2, Some(0)), {}));
    st := More(prog, events, 0, START);
  }

  /** At the end of a block of its outermost function, it goes to another. */
  lemma {:induction false} GoesTo(prog: Program, events: seq<Event>, n: nat, st: State, tid: Tid, f: StackInfo,
                                  bb: uint32, end: nat) returns (st': State)
    requires GoodCode(prog) && GoodFrame(prog, f) && After(prog, events, n, st, tid, Thread([f], NOT_FIRST, {}))
    requires n < |events| && events[n] == BasicBlockEvent(tid, bb) && bb as nat < |prog.bb2ins|
    requires f.cur == |prog.bb2ins[f.bb]| && DrainEnd(prog, bb as nat, 0) == end > 0 && !AtReturn(prog, bb as nat, end)
    ensures var g := StackInfo(bb as nat, Some(f.bb), 0);
            && After(prog, events, n + 1, st', tid, Thread([g.(cur := end)], NOT_FIRST, {}))
            && st'.out == st.out + [Normal(tid, g, end, NOT_FIRST)]
  {
    hide DrainEnd, GoodBB, Drain, Merged, Next, AtReturn;
    var g := StackInfo(bb as nat, Some(f.bb), 0);
    assert [] + [g] == [g] && [] + [g.(cur := end)] == [g.(cur := end)] && [f][0 := g] == [g];
    DrainBefore(prog, tid, [], g, NOT_FIRST, end);
    NextEnter(prog, st, tid, bb, Thread([g], NOT_FIRST, {}));
    st' := More(prog, events, n, st);
  }

  /** Waiting after a call, it enters the function at block bb, which starts with an
      event. */
  lemma {:induction false} CallsTo(prog: Program, events: seq<Event>, n: nat, st: State, tid: Tid, f: StackInfo,
                                   bb: uint32) returns (st': State)
    requires GoodCode(prog) && GoodFrame(prog, f) && After(prog, events, n, st, tid, Thread([f], NOT_FIRST, {}))
    requires n < |events| && events[n] == BasicBlockEvent(tid, bb) && bb as nat < |prog.bb2ins|
    requires 0 < f.cur < |prog.bb2ins[f.bb]| && DrainEnd(prog, bb as nat, 0) == 0 && !AtReturn(prog, bb as nat, 0)
    ensures var first: First := (1, Some(prog.bb2ins[f.bb][f.cur - 1]));
            && After(prog, events, n + 1, st', tid, Thread([f, StackInfo(bb as nat, None, 0)], first, {}))
            && st'.out == st.out
  {
    hide DrainEnd, GoodBB, Drain, Merged, Next, AtReturn;
    var g := StackInfo(bb as nat, None, 0);
    var first: First := (1, Some(prog.bb2ins[f.bb][f.cur - 1]));
    assert [f] + [g] == [f, g];
    DrainBefore(prog, tid, [f], g, first, 0);
    NextEnter(prog, st, tid, bb, Thread([f, g], first, {}));
    st' := More(prog, events, n, st);
  }

  /** In the function called it makes one access, after which the function returns to
      where the caller waits for its own next event. */
  lemma {:induction false} TouchesBack(prog: Program, events: seq<Event>, n: nat, st: State, tid: Tid, f: StackInfo,
                                       g: StackInfo, first: First, id: uint32, addr: uint64, length: uint64)
    returns (st': State)
    requires GoodCode(prog) && GoodFrame(prog, f) && GoodFrame(prog, g)
    requires After(prog, events, n, st, tid, Thread([f, g], first, {})) && n < |events|
    requires events[n] == MemoryEvent(tid, id, addr, length) && id != DECLARED
    requires g.cur + 1 < |prog.bb2ins[g.bb]| && prog.bb2ins[g.bb][g.cur] == id as nat
    requires DrainEnd(prog, g.bb, g.cur + 1) == |prog.bb2ins[g.bb]| && AtReturn(prog, g.bb, |prog.bb2ins[g.bb]|)
    requires 0 < f.cur < |prog.bb2ins[f.bb]| && DrainEnd(prog, f.bb, f.cur) == f.cur && !AtReturn(prog, f.bb, f.cur)
    requires InfoAt(prog, f.bb, f.cur - 1).typ == CallInst
    ensures var b := Normal(tid, g.(cur := g.cur + 1), |prog.bb2ins[g.bb]|, NOT_FIRST);
            && After(prog, events, n + 1, st', tid, Thread([f], NOT_FIRST, {}))
            && st'.out == st.out + [Single(tid, MemoryAccessBlock, g, first, [addr, Past(addr, length)]),
                                    b.(isLast := 1, caller := Some(prog.bb2ins[f.bb][f.cur - 1]))]
  {
    hide DrainEnd, GoodBB, Drain, Merged, Next, AtReturn, InfoAt;
    var (g1, end) := (g.(cur := g.cur + 1), |prog.bb2ins[g.bb]|);
    var b := Normal(tid, g1, end, NOT_FIRST).(isLast := 1, caller := Some(prog.bb2ins[f.bb][f.cur - 1]));
    assert [f] + [g] == [f, g] && [] + [f] == [f] && [b] + [] == [b];
    DrainBefore(prog, tid, [], f, NOT_FIRST, f.cur);
    DrainReturns(prog, tid, [f], g1, NOT_FIRST, end, b, Drained([f], NOT_FIRST, []));
    NextAccess(prog, st, tid, id, addr, length, [f], g, first, Drained([f], NOT_FIRST, [b]));
    st' := More(prog, events, n, st);
    var a := Single(tid, MemoryAccessBlock, g, first, [addr, Past(addr, length)]);
    assert [a] + [b] == [a, b];
  }

  /** In its outermost function it makes one access, and runs on to the next event. */
  lemma {:induction false} Touches(prog: Program, events: seq<Event>, n: nat, st: State, tid: Tid, f: StackInfo,
                                   first: First, id: uint32, addr: uint64, length: uint64) returns (st': State)
    requires GoodCode(prog) && GoodFrame(prog, f) && After(prog, events, n, st, tid, Thread([f], first, {}))
    requires n < |events| && events[n] == MemoryEvent(tid, id, addr, length) && id != DECLARED
    requires f.cur + 1 < |prog.bb2ins[f.bb]| && prog.bb2ins[f.bb][f.cur] == id as nat
    requires DrainEnd(prog, f.bb, f.cur + 1) == f.cur + 1 && !AtReturn(prog, f.bb, f.cur + 1)
    ensures After(prog, events, n + 1, st', tid, Thread([f.(cur := f.cur + 1)], NOT_FIRST, {}))
    ensures st'.out == st.out + [Single(tid, MemoryAccessBlock, f, first, [addr, Past(addr, length)])]
  {
    hide DrainEnd, GoodBB, Drain, Merged, Next, AtReturn;
    var f1 := f.(cur := f.cur + 1);
    assert [] + [f] == [f] && [] + [f1] == [f1];
    DrainBefore(prog, tid, [], f1, NOT_FIRST, f1.cur);
    NextAccess(prog, st, tid, id, addr, length, [], f, first, Drained([f1], NOT_FIRST, []));
    st' := More(prog, events, n, st);
    var a := Single(tid, MemoryAccessBlock, f, first, [addr, Past(addr, length)]);
    assert [a] + [] == [a];
  }

  /** ... or passes one argument to an external call that is not impactful. */
  lemma {:induction false} CallsWith(prog: Program, events: seq<Event>, n: nat, st: State, tid: Tid, f: StackInfo,
                                     arg: uint64, id: uint32, fun: uint64) returns (st': State)
    requires GoodCode(prog) && GoodFrame(prog, f) && After(prog, events, n, st, tid, Thread([f], NOT_FIRST, {}))
    requires n + 1 < |events| && events[n] == ArgumentEvent(tid, arg) && events[n + 1] == ReturnEvent(tid, id, fun)
    requires f.cur + 1 < |prog.bb2ins[f.bb]| && prog.bb2ins[f.bb][f.cur] == id as nat
    requires id as nat < |prog.ins| && !ImpactfulName(prog.ins[id].fun)
    requires DrainEnd(prog, f.bb, f.cur + 1) == f.cur + 1 && !AtReturn(prog, f.bb, f.cur + 1)
    ensures After(prog, events, n + 2, st', tid, Thread([f.(cur := f.cur + 1)], NOT_FIRST, {}))
    ensures st'.out == st.out + [Single(tid, ExternalCallBlock, f, NOT_FIRST, [fun, arg])]
  {
    hide DrainEnd, GoodBB, Drain, Merged, AtReturn, ImpactfulName;
    var f1 := f.(cur := f.cur + 1);
    var ts := Thread([f], NOT_FIRST, {arg});
    assert {} + {arg} == {arg} && st.out + [] == st.out;
    var st1 := More(prog, events, n, st);
    assert After(prog, events, n + 1, st1, tid, ts);
    assert [] + [f1] == [f1] && [f][0 := f1] == [f1];
    OneListed(arg);
    DrainBefore(prog, tid, [], f1, NOT_FIRST, f1.cur);
    st' := OneEvent(prog, events, n + 1, st1, tid, ts,
                 Effect(Thread([f1], NOT_FIRST, {}), [Single(tid, ExternalCallBlock, f, NOT_FIRST, [fun, arg])]),
                 Drained([f1], NOT_FIRST, []));
  }

  lemma {:induction false} OneListed(x: uint64)
    ensures forall fun: uint64 :: [fun] + Listed({x}) == [fun, x]
  {
    assert Least({x}) == x && {x} - {x} == {};
    assert Listed({x}) == [x] + Listed({});
  }

  /** ... or an impactful call, and runs on to the end of the block. */
  lemma {:induction false} CallsOut(prog: Program, events: seq<Event>, n: nat, st: State, tid: Tid, f: StackInfo,
                                    id: uint32, fun: uint64) returns (st': State)
    requires GoodCode(prog) && GoodFrame(prog, f) && After(prog, events, n, st, tid, Thread([f], NOT_FIRST, {}))
    requires n < |events| && events[n] == ReturnEvent(tid, id, fun)
    requires f.cur + 1 < |prog.bb2ins[f.bb]| && prog.bb2ins[f.bb][f.cur] == id as nat
    requires id as nat < |prog.ins| && ImpactfulName(prog.ins[id].fun)
    requires var end := |prog.bb2ins[f.bb]|; DrainEnd(prog, f.bb, f.cur + 1) == end && !AtReturn(prog, f.bb, end)
    ensures var end := |prog.bb2ins[f.bb]|;
            && After(prog, events, n + 1, st', tid, Thread([f.(cur := end)], NOT_FIRST, {}))
            && st'.out == st.out + [Single(tid, ImpactfulCallBlock, f, NOT_FIRST, [fun]),
                                    Normal(tid, f.(cur := f.cur + 1), end, NOT_FIRST)]
  {
    hide DrainEnd, GoodBB, Drain, Merged, Next, AtReturn, ImpactfulName;
    var (f1, end) := (f.(cur := f.cur + 1), |prog.bb2ins[f.bb]|);
    var b := Normal(tid, f1, end, NOT_FIRST);
    assert [] + [f] == [f] && [] + [f1] == [f1] && [] + [f1.(cur := end)] == [f1.(cur := end)];
    DrainBefore(prog, tid, [], f1, NOT_FIRST, end);
    NextCall(prog, st, tid, id, fun, [], f, NOT_FIRST, Drained([f.(cur := end)], NOT_FIRST, [b]));
    st' := More(prog, events, n, st);
    var a := Single(tid, ImpactfulCallBlock, f, NOT_FIRST, [fun]);
    assert [a] + [b] == [a, b];
  }

  /** ... or an impactful call, after which the thread returns. */
  lemma {:induction false} CallsLast(prog: Program, events: seq<Event>, n: nat, st: State, tid: Tid, f: StackInfo,
                                     id: uint32, fun: uint64) returns (st': State)
    requires GoodCode(prog) && GoodFrame(prog, f) && After(prog, events, n, st, tid, Thread([f], NOT_FIRST, {}))
    requires n < |events| && events[n] == ReturnEvent(tid, id, fun)
    requires f.cur + 1 < |prog.bb2ins[f.bb]| && prog.bb2ins[f.bb][f.cur] == id as nat
    requires id as nat < |prog.ins| && ImpactfulName(prog.ins[id].fun)
    requires var end := |prog.bb2ins[f.bb]|; DrainEnd(prog, f.bb, f.cur + 1) == end && AtReturn(prog, f.bb, end)
    ensures var b := Normal(tid, f.(cur := f.cur + 1), |prog.bb2ins[f.bb]|, NOT_FIRST);
            && After(prog, events, n + 1, st', tid, Thread([], NOT_FIRST, {}))
            && st'.out == st.out + [Single(tid, ImpactfulCallBlock, f, NOT_FIRST, [fun]), b.(isLast := 2)]
  {
    hide DrainEnd, GoodBB, Drain, Merged, Next, AtReturn, ImpactfulName;
    var (f1, end) := (f.(cur := f.cur + 1), |prog.bb2ins[f.bb]|);
    var b := Normal(tid, f1, end, NOT_FIRST).(isLast := 2);
    assert [] + [f] == [f] && [b] + [] == [b];
    EmptyDrain(prog, tid);
    DrainReturns(prog, tid, [], f1, NOT_FIRST, end, b, Drained([], NOT_FIRST, []));
    NextCall(prog, st, tid, id, fun, [], f, NOT_FIRST, Drained([], NOT_FIRST, [b]));
    st' := More(prog, events, n, st);
    var a := Single(tid, ImpactfulCallBlock, f, NOT_FIRST, [fun]);
    assert [a] + [b] == [a, b];
  }

  /** If every thread has come to its end, nothing is left to close. */
  lemma {:induction false} AllEnded(prog: Program, events: seq<Event>, st: State, stale: Option<nat>)
    requires GoodCode(prog) && Merged(prog, {}, events) == Some(st)
    requires forall t :: t in st.threads ==> st.threads[t].stack == []
    ensures BlockTrace(prog, {}, events, stale) == Some(st.out)
  {
    hide Merged;
    assert OpenThreads(st) == {};
    assert st.out + [] == st.out;
  }

  /** One thread is stopped in its outermost function. */
  lemma {:induction false} OneStopped(prog: Program, events: seq<Event>, st: State, tid: Tid, f: StackInfo,
                                      stale: Option<nat>)
    requires GoodCode(prog) && Merged(prog, {}, events) == Some(st) && GoodFrame(prog, f)
    requires st.threads == map[tid := Thread([f], NOT_FIRST, {})] && st.last == Some(tid)
    ensures BlockTrace(prog, {}, events, stale) == Some(st.out + [Normal(tid, f, f.cur, NOT_FIRST).(isLast := 2)])
  {
    hide Merged;
    assert OpenThreads(st) == {tid};
    assert Least({tid}) == tid && {tid} - {tid} == {};
    var b := Normal(tid, f, f.cur, NOT_FIRST).(isLast := 2);
    assert [f][..0] == [] && [b] + [] == [b];
    assert Closing(prog, st, tid, [f], stale) == Some([b]);
    assert ClosingAll(prog, st, {}, stale) == Some([]);
  }

  function Ordinary(tid: Tid, bb: nat, start: nat, end: nat, isFirst: nat, isLast: nat, caller: nat): SmallestBlock {
    SmallestBlock(NormalBlock, tid, bb, start, end, [], isFirst, isLast, Some(caller), None)
  }

  function Access(tid: Tid, bb: nat, start: nat, l: uint64, r: uint64, isFirst: nat, caller: nat): SmallestBlock {
    SmallestBlock(MemoryAccessBlock, tid, bb, start, start + 1, [l, r], isFirst, 0, Some(caller), None)
  }
}
