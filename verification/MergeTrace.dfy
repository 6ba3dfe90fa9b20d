/** The loops of tools/PrintBug/MergeTrace.cpp, over maps updated in place. They
    compute what module Merge says; a method that answers false stands for a
    failed assertion, an index out of range, or a drain that would not end. */
module MergeTrace {
  import opened Common
  import opened Events
  import opened Merge

  class Merger {
    const prog: Program
    const impactful: set<uint64>
    var callStack: map<Tid, seq<StackInfo>>
    var isFirst: map<Tid, First>
    var args: map<Tid, set<uint64>>
    var blockTrace: seq<SmallestBlock>
    var last: Option<Tid>              // the thread the last event with a thread named

    constructor (prog: Program, impactful: set<uint64>)
      ensures this.prog == prog && this.impactful == impactful && Is(START)
    {
      this.prog, this.impactful := prog, impactful;
      callStack, isFirst, args, blockTrace, last := map[], map[], map[], [], None;
    }

    function StackOf(tid: Tid): seq<StackInfo>
      reads `callStack
    {
      if tid in callStack then callStack[tid] else []
    }

    function FirstOf(tid: Tid): First
      reads `isFirst
    {
      if tid in isFirst then isFirst[tid] else NOT_FIRST
    }

    function ArgsOf(tid: Tid): set<uint64>
      reads `args
    {
      if tid in args then args[tid] else {}
    }

    ghost function ThreadNow(tid: Tid): Thread
      reads `callStack, `isFirst, `args
    {
      Thread(StackOf(tid), FirstOf(tid), ArgsOf(tid))
    }

    /** The merger is in state `st`. */
    ghost predicate Is(st: State)
      reads `callStack, `isFirst, `args, `blockTrace, `last
    {
      blockTrace == st.out && last == st.last && forall tid :: ThreadNow(tid) == ThreadOf(st, tid)
    }

    // ------------------------------------------------------------- draining

    method SilentRun(bb: nat, start: nat) returns (e: nat)
      requires GoodCode(prog) && bb < |prog.bb2ins| && start <= |prog.bb2ins[bb]|
      ensures e == DrainEnd(prog, bb, start)
    {
      e := start;
      while e < |prog.bb2ins[bb]| && Silent(InfoAt(prog, bb, e))
        invariant e <= |prog.bb2ins[bb]|
        invariant SilentEnd(prog, bb, start) == SilentEnd(prog, bb, e)
      {
        e := e + 1;
      }
      if e < |prog.bb2ins[bb]| && Calls(InfoAt(prog, bb, e)) { e := e + 1; }
    }

    /** What is left to drain, put after what has been drained already. */
    static ghost function Rest(done: seq<SmallestBlock>, r: Option<Drained>): Option<Drained> {
      match r
      case None => None
      case Some(d) => Some(d.(blocks := done + d.blocks))
    }

    /** The first round of draining, and what is left after it. */
    static lemma {:induction false} DrainRound(prog: Program, tid: Tid, stack: seq<StackInfo>, first: First)
      requires GoodCode(prog) && GoodStack(prog, stack) && stack != []
      ensures var f := Top(stack);
              var rest := stack[..|stack| - 1];
              var end := DrainEnd(prog, f.bb, f.cur);
              var b := Normal(tid, f, end, first);
              && GoodFrame(prog, f) && end >= f.cur && GoodStack(prog, rest)
              && GoodStack(prog, rest + [f.(cur := end)])
              && Drain(prog, tid, stack, first)
                 == if AtReturn(prog, f.bb, end) then
                      if end == f.cur || CloseFrame(prog, b, rest).None? then None
                      else Rest([CloseFrame(prog, b, rest).value], Drain(prog, tid, rest, NOT_FIRST))
                    else if end > f.cur then Some(Drained(rest + [f.(cur := end)], NOT_FIRST, [b]))
                    else Some(Drained(stack, first, []))
    {
    }

    /** One round of the drain loop. */
    method DrainFrame(tid: Tid) returns (ok: bool, more: bool)
      requires GoodCode(prog) && GoodStack(prog, StackOf(tid)) && StackOf(tid) != []
      modifies this`callStack, this`isFirst, this`blockTrace
      ensures forall t :: t != tid ==> ThreadNow(t) == old(ThreadNow(t))
      ensures GoodStack(prog, StackOf(tid)) && old(blockTrace) <= blockTrace
      ensures var r := old(Drain(prog, tid, StackOf(tid), FirstOf(tid)));
              if !ok then r == None
              else if more then
                |StackOf(tid)| < |old(StackOf(tid))|
                && r == Rest(blockTrace[|old(blockTrace)|..], Drain(prog, tid, StackOf(tid), FirstOf(tid)))
              else r == Some(Drained(StackOf(tid), FirstOf(tid), blockTrace[|old(blockTrace)|..]))
    {
      hide Drain, DrainEnd, AtReturn, CloseFrame, Normal, GoodStack;
      var stack := callStack[tid];
      DrainRound(prog, tid, stack, FirstOf(tid));
      var f := Top(stack);
      var rest := stack[..|stack| - 1];
      var end := SilentRun(f.bb, f.cur);
      more := AtReturn(prog, f.bb, end);
      ok := true;
      if end > f.cur {
        var b := Normal(tid, f, end, FirstOf(tid));
        if more {
          var closed := CloseFrame(prog, b, rest);
          if closed.None? { ok := false; return; }
          b := closed.value;
          callStack := callStack[tid := rest];
        } else {
          callStack := callStack[tid := rest + [f.(cur := end)]];
        }
        isFirst := isFirst[tid := NOT_FIRST];
        blockTrace := blockTrace + [b];
        assert blockTrace[|old(blockTrace)|..] == [b];
      } else if more {
        ok := false;
      } else {
        assert blockTrace[|old(blockTrace)|..] == [];
      }
    }

    method DrainThread(tid: Tid) returns (ok: bool)
      requires GoodCode(prog) && GoodStack(prog, StackOf(tid))
      modifies this`callStack, this`isFirst, this`blockTrace
      ensures forall t :: t != tid ==> ThreadNow(t) == old(ThreadNow(t))
      ensures var d := old(Drain(prog, tid, StackOf(tid), FirstOf(tid)));
              && ok == d.Some?
              && (ok ==> StackOf(tid) == d.value.stack && FirstOf(tid) == d.value.first
                         && blockTrace == old(blockTrace) + d.value.blocks)
    {
      hide Drain;
      ok := true;
      var more := true;
      ghost var out := blockTrace;
      ghost var all := Drain(prog, tid, StackOf(tid), FirstOf(tid));
      RestNone(all);
      assert blockTrace[|out|..] == [];
      while more && StackOf(tid) != []
        invariant GoodStack(prog, StackOf(tid)) && out <= blockTrace
        invariant forall t :: t != tid ==> ThreadNow(t) == old(ThreadNow(t))
        invariant more ==> all == Rest(blockTrace[|out|..], Drain(prog, tid, StackOf(tid), FirstOf(tid)))
        invariant !more ==> all == Some(Drained(StackOf(tid), FirstOf(tid), blockTrace[|out|..]))
        decreases more, |StackOf(tid)|
      {
        ghost var done, mid := blockTrace[|out|..], blockTrace;
        ghost var r := Drain(prog, tid, StackOf(tid), FirstOf(tid));
        ok, more := DrainFrame(tid);
        if !ok { return; }
        assert blockTrace[|out|..] == done + blockTrace[|mid|..];
        if more { RestRest(done, blockTrace[|mid|..], Drain(prog, tid, StackOf(tid), FirstOf(tid))); }
      }
      if more { DrainEmpty(tid); }
    }

    lemma {:induction false} DrainEmpty(tid: Tid)
      requires GoodCode(prog) && StackOf(tid) == []
      ensures Drain(prog, tid, StackOf(tid), FirstOf(tid)) == Some(Drained([], FirstOf(tid), []))
    {
    }

    static lemma {:induction false} RestNone(r: Option<Drained>)
      ensures Rest([], r) == r
    {
      if r.Some? { assert [] + r.value.blocks == r.value.blocks; }
    }

    static lemma {:induction false} RestRest(a: seq<SmallestBlock>, b: seq<SmallestBlock>, r: Option<Drained>)
      ensures Rest(a, Rest(b, r)) == Rest(a + b, r)
    {
      if r.Some? { assert a + (b + r.value.blocks) == (a + b) + r.value.blocks; }
    }

    // ------------------------------------------------------------ one event

    /** A basic block of the thread starts. */
    method StartBlock(tid: Tid, bb: nat) returns (ok: bool)
      requires GoodCode(prog) && GoodStack(prog, StackOf(tid))
      modifies this`callStack, this`isFirst
      ensures forall t :: t != tid ==> ThreadNow(t) == old(ThreadNow(t))
      ensures var ts := old(EnterBB(prog, ThreadNow(tid), bb));
              ok == ts.Some? && (ok ==> ThreadNow(tid) == ts.value)
    {
      if bb >= |prog.bb2ins| { return false; }
      var stack := StackOf(tid);
      if stack == [] {
        isFirst := isFirst[tid := (2, Some(0))];
        callStack := callStack[tid := [StackInfo(bb, None, 0)]];
      } else {
        var info := Top(stack);
        if info.cur >= |prog.bb2ins[info.bb]| {
          isFirst := isFirst[tid := NOT_FIRST];
          callStack := callStack[tid := stack[|stack| - 1 := StackInfo(bb, Some(info.bb), 0)]];
        } else if info.cur == 0 {
          return false;
        } else {
          isFirst := isFirst[tid := (1, Some(prog.bb2ins[info.bb][info.cur - 1]))];
          callStack := callStack[tid := stack + [StackInfo(bb, None, 0)]];
        }
      }
      return true;
    }

    /** The next instruction of the thread is `id`; it left an event. */
    method PassInstruction(tid: Tid, id: nat, typ: BlockType, addr: seq<uint64>) returns (ok: bool)
      requires GoodCode(prog) && GoodStack(prog, StackOf(tid))
      modifies this`callStack, this`isFirst, this`blockTrace
      ensures forall t :: t != tid ==> ThreadNow(t) == old(ThreadNow(t))
      ensures var eff := old(Advance(prog, tid, ThreadNow(tid), id, typ, addr));
              && ok == eff.Some?
              && (ok ==> ThreadNow(tid) == eff.value.thread && blockTrace == old(blockTrace) + eff.value.blocks)
    {
      var stack := StackOf(tid);
      if stack == [] { return false; }
      var info := Top(stack);
      if info.cur >= |prog.bb2ins[info.bb]| || prog.bb2ins[info.bb][info.cur] != id { return false; }
      blockTrace := blockTrace + [Single(tid, typ, info, FirstOf(tid), addr)];
      callStack := callStack[tid := stack[|stack| - 1 := info.(cur := info.cur + 1)]];
      isFirst := isFirst[tid := NOT_FIRST];
      return true;
    }

    /** The arguments collected so far, in order. */
    static method ListArguments(s: set<uint64>) returns (l: seq<uint64>)
      ensures l == Listed(s)
    {
      hide Listed, Least;
      l := [];
      var rest := s;
      assert [] + Listed(s) == Listed(s);
      while rest != {}
        invariant Listed(s) == l + Listed(rest)
        decreases |rest|
      {
        var m := LeastWord(rest);
        ListedStep(rest);
        assert l + ([m] + Listed(rest - {m})) == (l + [m]) + Listed(rest - {m});
        l := l + [m];
        rest := rest - {m};
      }
      assert l + [] == l;
      ListedNone();
    }

    static lemma {:induction false} ListedNone()
      ensures Listed({}) == []
    {
    }

    static lemma {:induction false} ListedStep(s: set<uint64>)
      requires s != {}
      ensures Listed(s) == [Least(s)] + Listed(s - {Least(s)}) && |s - {Least(s)}| < |s|
    {
      assert |s - {Least(s)}| < |s|;
    }

    method CallReturns(tid: Tid, id: nat, fun: uint64) returns (ok: bool)
      requires GoodCode(prog) && GoodStack(prog, StackOf(tid))
      modifies this`callStack, this`isFirst, this`args, this`blockTrace
      ensures forall t :: t != tid ==> ThreadNow(t) == old(ThreadNow(t))
      ensures var eff := old(Advance(prog, tid, ThreadNow(tid), id, CallType(prog, impactful, id, fun),
                                     [fun] + Listed(ArgsOf(tid))));
              && ok == eff.Some?
              && (ok ==> ThreadNow(tid) == eff.value.thread.(args := {})
                         && blockTrace == old(blockTrace) + eff.value.blocks)
    {
      var arguments := ListArguments(ArgsOf(tid));
      ok := PassInstruction(tid, id, CallType(prog, impactful, id, fun), [fun] + arguments);
      if ok {
        label Passed:
        args := args[tid := {}];
        forall t | t != tid ensures ThreadNow(t) == old(ThreadNow(t)) {
          assert old@Passed(ThreadNow(t)) == old(ThreadNow(t));
        }
      }
    }

    /** Dispatch on the kind of event. */
    method HandleEvent(e: Event) returns (ok: bool)
      requires GoodCode(prog) && e.HasTid() && GoodStack(prog, StackOf(e.tid))
      modifies this`callStack, this`isFirst, this`args, this`blockTrace
      ensures forall t :: t != e.tid ==> ThreadNow(t) == old(ThreadNow(t))
      ensures var eff := old(Handle(prog, impactful, ThreadNow(e.tid), e));
              && ok == eff.Some?
              && (ok ==> ThreadNow(e.tid) == eff.value.thread && blockTrace == old(blockTrace) + eff.value.blocks)
    {
      hide Advance, EnterBB, Listed, Past, CallType;
      ok := true;
      match e {
        case ArgumentEvent(tid, arg) => args := args[tid := ArgsOf(tid) + {arg}];
        case BasicBlockEvent(tid, id) => ok := StartBlock(tid, id as nat);
        case MemoryEvent(tid, id, addr, length) =>
          if id == DECLARED {
            blockTrace := blockTrace + [Declared(tid, [addr, Past(addr, length)])];
          } else {
            ok := PassInstruction(tid, id as nat, MemoryAccessBlock, [addr, Past(addr, length)]);
          }
        case ReturnEvent(tid, id, fun) => ok := CallReturns(tid, id as nat, fun);
        case MemsetEvent(tid, id, addr, length) =>
          ok := PassInstruction(tid, id as nat, MemsetBlock, [addr, Past(addr, length)]);
        case MemmoveEvent(tid, id, dest, src, length) =>
          ok := PassInstruction(tid, id as nat, MemmoveBlock, [dest, Past(dest, length), src, Past(src, length)]);
      }
    }

    /** The drain loop after an event of thread `tid`. */
    method DrainAfter(ghost st: State, tid: Tid, ghost eff: Effect) returns (ok: bool)
      requires GoodCode(prog) && GoodStack(prog, StackOf(tid))
      requires ThreadNow(tid) == eff.thread && blockTrace == st.out + eff.blocks && last == Some(tid)
      requires forall t :: t != tid ==> ThreadNow(t) == ThreadOf(st, t)
      modifies this`callStack, this`isFirst, this`blockTrace
      ensures var eff' := DrainEffect(prog, tid, eff);
              ok == eff'.Some? && (ok ==> Is(Put(st, tid, eff'.value)))
    {
      hide Drain, GoodStack;
      ghost var d := Drain(prog, tid, eff.thread.stack, eff.thread.first);
      ok := DrainThread(tid);
      if ok {
        assert (st.out + eff.blocks) + d.value.blocks == st.out + (eff.blocks + d.value.blocks);
        ghost var st' := Put(st, tid, DrainEffect(prog, tid, eff).value);
        forall t ensures ThreadNow(t) == ThreadOf(st', t) {
          if t != tid { assert old(ThreadNow(t)) == ThreadOf(st, t); }
        }
      }
    }

    /** One round of the event loop. */
    method ProcessEvent(ghost st: State, e: Event) returns (ok: bool)
      requires GoodCode(prog) && GoodState(prog, st) && Is(st)
      modifies this`callStack, this`isFirst, this`args, this`blockTrace, this`last
      ensures var st' := Next(prog, impactful, st, e); ok == st'.Some? && (ok ==> Is(st'.value))
    {
      hide Handle, GoodStack, Drain, DrainEffect;
      if e.HasTid() {
        ghost var ts := ThreadOf(st, e.tid);
        assert ThreadNow(e.tid) == ts;
        GoodThread(prog, st, e.tid);
        last := Some(e.tid);
        ok := HandleEvent(e);
        if ok {
          ghost var eff := Handle(prog, impactful, ts, e).value;
          forall t | t != e.tid ensures ThreadNow(t) == ThreadOf(st, t) {
            assert old(ThreadNow(t)) == ThreadOf(st, t);
          }
          if NoDrain(e) {
            assert Is(Put(st, e.tid, eff));
          } else {
            ok := DrainAfter(st, e.tid, eff);
          }
        }
      } else {
        if last == None { return false; }
        assert ThreadNow(last.value) == ThreadOf(st, last.value);
        GoodThread(prog, st, last.value);
        assert st.out + [] == st.out;
        ok := DrainAfter(st, last.value, Effect(ThreadOf(st, last.value), []));
      }
    }

    lemma {:induction false} GoodThread(prog: Program, st: State, tid: Tid)
      requires GoodState(prog, st)
      ensures GoodStack(prog, ThreadOf(st, tid).stack)
    {
    }

    // ------------------------------------------------------------- closing

    /** The `LastBBID` a closing block is given. */
    function LastBlock(tid: Tid, f: StackInfo, stale: Option<nat>): (bb: Option<nat>)
      reads `callStack, `last
    {
      if last == Some(tid) then f.lastBB
      else if last.Some? && tid < last.value && StackOf(last.value) != [] then Top(StackOf(last.value)).lastBB
      else stale
    }

    /** Blocks still to come, put after those already written. */
    static ghost function Ahead(done: seq<SmallestBlock>, r: Option<seq<SmallestBlock>>): Option<seq<SmallestBlock>> {
      if r.None? then None else Some(done + r.value)
    }

    static lemma {:induction false} AheadAhead(a: seq<SmallestBlock>, b: seq<SmallestBlock>,
                                               r: Option<seq<SmallestBlock>>)
      ensures Ahead(a, Ahead(b, r)) == Ahead(a + b, r)
    {
      if r.Some? { assert a + (b + r.value) == (a + b) + r.value; }
    }

    /** Close the top frame of a thread. */
    method CloseTop(ghost st: State, tid: Tid, stale: Option<nat>) returns (ok: bool)
      requires GoodCode(prog) && GoodStack(prog, StackOf(tid)) && last == st.last && StackOf(tid) != []
      requires last.Some? && tid < last.value ==> StackOf(last.value) == ThreadOf(st, last.value).stack
      modifies this`callStack, this`blockTrace
      ensures forall t :: t != tid ==> StackOf(t) == old(StackOf(t))
      ensures GoodStack(prog, StackOf(tid)) && old(blockTrace) <= blockTrace
      ensures ok ==> |StackOf(tid)| < |old(StackOf(tid))|
      ensures old(Closing(prog, st, tid, StackOf(tid), stale))
              == if ok then Ahead(blockTrace[|old(blockTrace)|..], Closing(prog, st, tid, StackOf(tid), stale))
                 else None
    {
      var stack := StackOf(tid);
      var f := Top(stack);
      var rest := stack[..|stack| - 1];
      var b := Normal(tid, f.(lastBB := LastBlock(tid, f, stale)), f.cur, NOT_FIRST);
      assert LastBlock(tid, f, stale) == ClosingBB(st, tid, f, stale);
      var closed := CloseFrame(prog, b, rest);
      if closed.None? { return false; }
      callStack := callStack[tid := rest];
      blockTrace := blockTrace + [closed.value];
      assert blockTrace[|old(blockTrace)|..] == [closed.value];
      return true;
    }

    /** Close every frame of one thread. */
    method CloseThread(ghost st: State, tid: Tid, stale: Option<nat>) returns (ok: bool)
      requires GoodCode(prog) && GoodStack(prog, StackOf(tid)) && last == st.last
      requires last.Some? && tid < last.value ==> StackOf(last.value) == ThreadOf(st, last.value).stack
      modifies this`callStack, this`blockTrace
      ensures forall t :: t != tid ==> StackOf(t) == old(StackOf(t))
      ensures var bs := old(Closing(prog, st, tid, StackOf(tid), stale));
              ok == bs.Some? && (ok ==> blockTrace == old(blockTrace) + bs.value)
    {
      hide Closing, GoodStack, ClosingBB;
      ghost var out, all := blockTrace, Closing(prog, st, tid, StackOf(tid), stale);
      assert blockTrace[|out|..] == [];
      ClosingNone(st, tid, stale, all);
      while StackOf(tid) != []
        invariant GoodStack(prog, StackOf(tid)) && out <= blockTrace
        invariant forall t :: t != tid ==> StackOf(t) == old(StackOf(t))
        invariant all == Ahead(blockTrace[|out|..], Closing(prog, st, tid, StackOf(tid), stale))
        decreases |StackOf(tid)|
      {
        ghost var done, mid := blockTrace[|out|..], blockTrace;
        ok := CloseTop(st, tid, stale);
        if !ok { return; }
        assert blockTrace[|out|..] == done + blockTrace[|mid|..];
        AheadAhead(done, blockTrace[|mid|..], Closing(prog, st, tid, StackOf(tid), stale));
      }
      ok := true;
      ClosingNone(st, tid, stale, all);
      assert blockTrace[|out|..] + [] == blockTrace[|out|..];
    }

    lemma {:induction false} ClosingNone(st: State, tid: Tid, stale: Option<nat>, r: Option<seq<SmallestBlock>>)
      requires GoodCode(prog)
      ensures Closing(prog, st, tid, [], stale) == Some([]) && Ahead([], r) == r
    {
      if r.Some? { assert [] + r.value == r.value; }
    }

    lemma {:induction false} OpenNow(st: State)
      requires Is(st)
      ensures (set tid | tid in callStack && callStack[tid] != []) == OpenThreads(st)
    {
      forall tid ensures tid in callStack && callStack[tid] != [] <==> tid in OpenThreads(st) {
        assert ThreadNow(tid) == ThreadOf(st, tid);
      }
    }

    /** Not closed yet; threads are closed in ascending order. */
    ghost predicate Untouched(st: State, tids: set<Tid>, tid: Tid)
      reads `callStack
    {
      StackOf(tid) == ThreadOf(st, tid).stack || forall t :: t in tids ==> tid < t
    }

    /** Close the threads that still have frames, in ascending order. */
    method CloseAll(ghost st: State, stale: Option<nat>) returns (ok: bool)
      requires GoodCode(prog) && GoodState(prog, st) && Is(st)
      modifies this`callStack, this`blockTrace
      ensures var bs := ClosingAll(prog, st, OpenThreads(st), stale);
              ok == bs.Some? && (ok ==> blockTrace == st.out + bs.value)
    {
      hide Closing, ClosingAll, GoodStack, ThreadOf, OpenThreads, Is, GoodState, Least;
      var tids := set tid | tid in callStack && callStack[tid] != [];
      OpenNow(st);
      AllUntouched(st, tids);
      ghost var out, all := blockTrace, ClosingAll(prog, st, tids, stale);
      assert blockTrace[|out|..] == [];
      ClosingNone(st, 0, stale, all);
      while tids != {}
        invariant out <= blockTrace && last == st.last
        invariant forall tid :: Untouched(st, tids, tid)
        invariant all == Ahead(blockTrace[|out|..], ClosingAll(prog, st, tids, stale))
        decreases |tids|
      {
        ghost var done, mid, before := blockTrace[|out|..], blockTrace, tids;
        ok, tids := CloseLeast(st, tids, stale);
        if !ok { return; }
        assert blockTrace[|out|..] == done + blockTrace[|mid|..];
        AheadAhead(done, blockTrace[|mid|..], ClosingAll(prog, st, tids, stale));
      }
      ok := true;
      assert ClosingAll(prog, st, {}, stale) == Some([]) by { ClosingAllNone(st, stale); }
      assert blockTrace[|out|..] + [] == blockTrace[|out|..];
    }

    lemma {:induction false} ClosingAllNone(st: State, stale: Option<nat>)
      requires GoodCode(prog) && GoodState(prog, st)
      ensures ClosingAll(prog, st, {}, stale) == Some([])
    {
    }

    lemma {:induction false} AllUntouched(st: State, tids: set<Tid>)
      requires Is(st)
      ensures (forall tid :: Untouched(st, tids, tid)) && blockTrace == st.out && last == st.last
    {
      forall tid ensures Untouched(st, tids, tid) { assert ThreadNow(tid) == ThreadOf(st, tid); }
    }

    /** Close the first of the remaining threads. */
    method CloseLeast(ghost st: State, tids: set<Tid>, stale: Option<nat>) returns (ok: bool, rest: set<Tid>)
      requires GoodCode(prog) && GoodState(prog, st) && last == st.last && tids != {}
      requires forall tid :: Untouched(st, tids, tid)
      modifies this`callStack, this`blockTrace
      ensures ok ==> |rest| < |tids| && old(blockTrace) <= blockTrace
      ensures ok ==> forall tid :: Untouched(st, rest, tid)
      ensures ClosingAll(prog, st, tids, stale)
              == if ok then Ahead(blockTrace[|old(blockTrace)|..], ClosingAll(prog, st, rest, stale)) else None
    {
      hide Closing, GoodStack;
      var tid := LeastWord(tids);
      rest := tids - {tid};
      assert |rest| < |tids|;
      assert Untouched(st, tids, tid);
      if last.Some? { assert Untouched(st, tids, last.value); }
      GoodThread(prog, st, tid);
      ok := CloseThread(st, tid, stale);
      if !ok { return; }
      forall t ensures Untouched(st, rest, t) { assert old(Untouched(st, tids, t)); }
      ghost var bs := Closing(prog, st, tid, ThreadOf(st, tid).stack, stale).value;
      assert blockTrace[|old(blockTrace)|..] == bs;
    }

    /** The whole of MergeTrace. */
    method Merge(events: seq<Event>, stale: Option<nat>) returns (ok: bool)
      requires GoodCode(prog) && Is(START)
      modifies this
      ensures var trace := BlockTrace(prog, impactful, events, stale);
              ok == trace.Some? && (ok ==> blockTrace == trace.value)
    {
      hide Next, ClosingAll, GoodStack;
      var n := 0;
      ghost var st := START;
      assert events[..0] == [];
      while n < |events|
        invariant 0 <= n <= |events| && GoodState(prog, st) && Is(st)
        invariant Merged(prog, impactful, events[..n]) == Some(st)
      {
        assert events[..n + 1][..n] == events[..n];
        ok := ProcessEvent(st, events[n]);
        if !ok {
          MergedFails(prog, impactful, events, n + 1);
          return;
        }
        st := Next(prog, impactful, st, events[n]).value;
        n := n + 1;
      }
      assert events[..n] == events;
      ok := CloseAll(st, stale);
    }

    /** A trace with a prefix that is rejected is rejected. */
    static lemma {:induction false} MergedFails(prog: Program, impactful: set<uint64>, events: seq<Event>, n: nat)
      requires GoodCode(prog) && n <= |events| && Merged(prog, impactful, events[..n]).None?
      ensures Merged(prog, impactful, events).None?
      decreases |events| - n
    {
      hide Next;
      if n == |events| {
        assert events[..n] == events;
      } else {
        assert events[..n + 1][..n] == events[..n];
        MergedFails(prog, impactful, events, n + 1);
      }
    }
  }
}
