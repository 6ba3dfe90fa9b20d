/** What is recorded of each access and call, event by event: the blocks that the merger
    makes of it (tools/PrintBug/MergeTrace.cpp, lines 78-198), and what the machine that
    left the event did. Both are told over the fields of the event, in integers. */
module Records {
  import opened Common
  import opened Events
  import opened Merge
  import opened Machine
  import Framing
  import Recording

  // ---------------------------------------------------- what an event records

  /** The events that stand for a block of their own. */
  predicate Leaves(e: Event) {
    e.MemoryEvent? || e.ReturnEvent? || e.MemsetEvent? || e.MemmoveEvent?
  }

  predicate Between(addr: seq<uint64>, k: nat, x: uint64)
    requires k + 1 < |addr|
  {
    addr[k] <= x < addr[k + 1]
  }

  /** Addresses k and k + 1 bound the `length` bytes from `a` on. Where the machine's 64
      bits do not suffice for the end, they wrap around. */
  ghost predicate Bounds(addr: seq<uint64>, k: nat, a: uint64, length: uint64)
    requires k + 1 < |addr|
  {
    var end := a as int + length as int;
    && addr[k] == a
    && addr[k + 1] as int == (if end < 0x1_0000_0000_0000_0000 then end else end - 0x1_0000_0000_0000_0000)
    && (end < 0x1_0000_0000_0000_0000 ==>
          forall x: uint64 :: Between(addr, k, x) <==> a as int <= x as int < end)
  }

  /** Thread `tid` has passed `x` as an argument since its last return from a call. */
  ghost predicate GivenTo(events: seq<Event>, tid: Tid, x: uint64) {
    exists k :: 0 <= k < |events| && events[k] == ArgumentEvent(tid, x) && NoReturn(events, k, tid)
  }

  predicate NoReturn(events: seq<Event>, k: int, tid: Tid)
    requires 0 <= k < |events|
  {
    forall m :: k < m < |events| ==> !(events[m].ReturnEvent? && events[m].tid == tid)
  }

  predicate Executes(prog: Program, bb: nat, k: nat, id: uint32) {
    prog.HasInst(bb, k) && prog.bb2ins[bb][k] == id as nat
  }

  /** What the event `e`, after the events `past`, records: the kind of block, the
      instruction, and the addresses. */
  ghost predicate Shows(prog: Program, impactful: set<uint64>, past: seq<Event>, e: Event, typ: BlockType, bb: nat,
                        k: nat, addr: seq<uint64>)
    requires Leaves(e)
  {
    match e
    case MemoryEvent(_, id, a, length) =>
      && |addr| == 2 && Bounds(addr, 0, a, length)
      && (if id == 0xFFFF_FFFF then typ == DeclareBlock
          else typ == MemoryAccessBlock && Executes(prog, bb, k, id))
    case MemsetEvent(_, id, a, length) =>
      typ == MemsetBlock && Executes(prog, bb, k, id) && |addr| == 2 && Bounds(addr, 0, a, length)
    case MemmoveEvent(_, id, dest, src, length) =>
      && typ == MemmoveBlock && Executes(prog, bb, k, id)
      && |addr| == 4 && Bounds(addr, 0, dest, length) && Bounds(addr, 2, src, length)
    case ReturnEvent(tid, id, fun) =>
      && Executes(prog, bb, k, id)
      && typ == (if fun in impactful || ImpactfulName(prog.ins[id as nat].fun) then ImpactfulCallBlock
                 else ExternalCallBlock)
      && |addr| > 0 && addr[0] == fun && Ascending(addr[1..])
      && forall x :: x in addr[1..] <==> GivenTo(past, tid, x)
  }

  lemma {:induction false} GivenMore(events: seq<Event>, e: Event, tid: Tid, x: uint64)
    ensures GivenTo(events + [e], tid, x) <==>
              e == ArgumentEvent(tid, x) || (GivenTo(events, tid, x) && !(e.ReturnEvent? && e.tid == tid))
  {
    var all := events + [e];
    assert all[|events|] == e && forall k :: 0 <= k < |events| ==> all[k] == events[k];
    if GivenTo(events, tid, x) {
      var k :| 0 <= k < |events| && events[k] == ArgumentEvent(tid, x) && NoReturn(events, k, tid);
      assert all[k] == ArgumentEvent(tid, x);
    }
  }

  lemma {:induction false} PastBounds(a: uint64, length: uint64, addr: seq<uint64>, k: nat)
    requires k + 1 < |addr| && addr[k] == a && addr[k + 1] == Past(a, length)
    ensures Bounds(addr, k, a, length)
  {
  }

  // ------------------------------------------------------- the merger's blocks

  ghost predicate ShownBy(prog: Program, impactful: set<uint64>, past: seq<Event>, e: Event, b: SmallestBlock)
    requires Leaves(e)
  {
    && Shows(prog, impactful, past, e, b.typ, b.bb, b.start, b.addr)
    && (b.typ != DeclareBlock ==> b.tid == e.tid && b.end == b.start + 1)
  }

  /** The blocks that are not parts of basic blocks. */
  function Own(blocks: seq<SmallestBlock>): seq<SmallestBlock> {
    if blocks == [] then []
    else
      var n := |blocks| - 1;
      Own(blocks[..n]) + if blocks[n].typ == NormalBlock then [] else [blocks[n]]
  }

  /** One block for each event that stands for one, in the order of the events, each as
      its event shows it. */
  ghost predicate Tell(prog: Program, impactful: set<uint64>, events: seq<Event>, blocks: seq<SmallestBlock>)
    decreases |events|
  {
    if events == [] then blocks == []
    else
      var n := |events| - 1;
      if Leaves(events[n]) then
        && blocks != [] && ShownBy(prog, impactful, events[..n], events[n], blocks[|blocks| - 1])
        && Tell(prog, impactful, events[..n], blocks[..|blocks| - 1])
      else Tell(prog, impactful, events[..n], blocks)
  }

  lemma {:induction false} OwnConcat(a: seq<SmallestBlock>, b: seq<SmallestBlock>)
    ensures Own(a + b) == Own(a) + Own(b)
    decreases |b|
  {
    if b == [] {
      assert a + b == a;
    } else {
      var n := |b| - 1;
      assert (a + b)[..|a + b| - 1] == a + b[..n];
      OwnConcat(a, b[..n]);
    }
  }

  lemma {:induction false} OwnNormal(blocks: seq<SmallestBlock>)
    requires forall i :: 0 <= i < |blocks| ==> blocks[i].typ == NormalBlock
    ensures Own(blocks) == []
    decreases |blocks|
  {
    if blocks != [] { OwnNormal(blocks[..|blocks| - 1]); }
  }

  lemma {:induction false} OwnOne(b: SmallestBlock)
    requires b.typ != NormalBlock
    ensures Own([b]) == [b]
  {
    assert [b][..0] == [];
  }

  lemma {:induction false} DrainNormal(prog: Program, tid: Tid, stack: seq<StackInfo>, first: First)
    requires GoodCode(prog) && GoodStack(prog, stack)
    ensures var d := Drain(prog, tid, stack, first);
            d.Some? ==> forall i :: 0 <= i < |d.value.blocks| ==> d.value.blocks[i].typ == NormalBlock
    decreases |stack|
  {
    hide DrainEnd, AtReturn;
    if stack != [] { DrainNormal(prog, tid, stack[..|stack| - 1], NOT_FIRST); }
  }

  lemma {:induction false} ClosingNormal(prog: Program, st: State, tid: Tid, stack: seq<StackInfo>,
                                         stale: Option<nat>)
    requires GoodCode(prog) && GoodStack(prog, stack)
    ensures var bs := Closing(prog, st, tid, stack, stale); bs.Some? ==> Own(bs.value) == []
    decreases |stack|
  {
    hide ClosingBB, Own;
    if stack == [] {
      OwnNormal([]);
    } else {
      var f := Top(stack);
      var rest := stack[..|stack| - 1];
      ClosingNormal(prog, st, tid, rest, stale);
      var b := CloseFrame(prog, Normal(tid, f.(lastBB := ClosingBB(st, tid, f, stale)), f.cur, NOT_FIRST), rest);
      var bs := Closing(prog, st, tid, rest, stale);
      if b.Some? && bs.Some? {
        OwnNormal([b.value]);
        OwnConcat([b.value], bs.value);
      }
    }
  }

  lemma {:induction false} ClosingAllNormal(prog: Program, st: State, tids: set<Tid>, stale: Option<nat>)
    requires GoodCode(prog) && GoodState(prog, st)
    ensures var bs := ClosingAll(prog, st, tids, stale); bs.Some? ==> Own(bs.value) == []
    decreases |tids|
  {
    hide Closing, Own;
    if tids == {} {
      OwnNormal([]);
    } else {
      var tid := Least(tids);
      assert |tids - {tid}| < |tids|;
      Framing.GoodThread(prog, st, tid);
      ClosingNormal(prog, st, tid, ThreadOf(st, tid).stack, stale);
      ClosingAllNormal(prog, st, tids - {tid}, stale);
      var a, b := Closing(prog, st, tid, ThreadOf(st, tid).stack, stale), ClosingAll(prog, st, tids - {tid}, stale);
      if a.Some? && b.Some? { OwnConcat(a.value, b.value); }
    }
  }

  /** The arguments that the merger keeps for a thread. */
  ghost predicate Keeps(events: seq<Event>, args: set<uint64>, tid: Tid) {
    forall x :: x in args <==> GivenTo(events, tid, x)
  }

  /** What one event adds. */
  ghost predicate Adds(prog: Program, impactful: set<uint64>, past: seq<Event>, e: Event, blocks: seq<SmallestBlock>)
  {
    if Leaves(e) then |blocks| == 1 && blocks[0].typ != NormalBlock && ShownBy(prog, impactful, past, e, blocks[0])
    else blocks == []
  }

  lemma {:induction false} AdvanceShows(prog: Program, impactful: set<uint64>, past: seq<Event>, ts: Thread, e: Event,
                                        id: uint32, typ: BlockType, addr: seq<uint64>)
    requires GoodCode(prog) && GoodStack(prog, ts.stack) && e.HasTid() && Leaves(e) && typ != NormalBlock
    requires forall bb, k :: Executes(prog, bb, k, id) ==> Shows(prog, impactful, past, e, typ, bb, k, addr)
    ensures var eff := Advance(prog, e.tid, ts, id as nat, typ, addr);
            eff.Some? ==> eff.value.thread.args == ts.args && Adds(prog, impactful, past, e, eff.value.blocks)
  {
    hide Shows;
    if Advance(prog, e.tid, ts, id as nat, typ, addr).Some? {
      var f := Top(ts.stack);
      assert GoodBB(prog, f.bb);
      assert Executes(prog, f.bb, f.cur, id);
    }
  }

  lemma {:induction false} HandleShows(prog: Program, impactful: set<uint64>, past: seq<Event>, ts: Thread, e: Event)
    requires GoodCode(prog) && GoodStack(prog, ts.stack) && e.HasTid() && Keeps(past, ts.args, e.tid)
    ensures var eff := Handle(prog, impactful, ts, e); eff.Some? ==>
              Keeps(past + [e], eff.value.thread.args, e.tid) && Adds(prog, impactful, past, e, eff.value.blocks)
  {
    hide Past, Listed, Advance, EnterBB, GivenTo, Bounds;
    forall x ensures GivenTo(past + [e], e.tid, x) <==>
        e == ArgumentEvent(e.tid, x) || (GivenTo(past, e.tid, x) && !e.ReturnEvent?) {
      GivenMore(past, e, e.tid, x);
    }
    match e {
      case MemoryEvent(tid, id, addr, length) =>
        PastBounds(addr, length, [addr, Past(addr, length)], 0);
        if id != DECLARED {
          AdvanceShows(prog, impactful, past, ts, e, id, MemoryAccessBlock, [addr, Past(addr, length)]);
        }
      case ReturnEvent(tid, id, fun) =>
        var all := [fun] + Listed(ts.args);
        assert all[1..] == Listed(ts.args);
        AdvanceShows(prog, impactful, past, ts, e, id, CallType(prog, impactful, id as nat, fun), all);
      case MemsetEvent(tid, id, addr, length) =>
        PastBounds(addr, length, [addr, Past(addr, length)], 0);
        AdvanceShows(prog, impactful, past, ts, e, id, MemsetBlock, [addr, Past(addr, length)]);
      case MemmoveEvent(tid, id, dest, src, length) =>
        var all := [dest, Past(dest, length), src, Past(src, length)];
        PastBounds(dest, length, all, 0);
        PastBounds(src, length, all, 2);
        AdvanceShows(prog, impactful, past, ts, e, id, MemmoveBlock, all);
      case BasicBlockEvent(tid, id) => EnterKeeps(prog, ts, id as nat);
      case ArgumentEvent(_, _) =>
    }
  }

  lemma {:induction false} EnterKeeps(prog: Program, ts: Thread, bb: nat)
    requires GoodCode(prog) && GoodStack(prog, ts.stack)
    ensures var r := EnterBB(prog, ts, bb); r.Some? ==> r.value.args == ts.args
  {
  }

  lemma {:induction false} DrainShows(prog: Program, tid: Tid, eff: Effect)
    requires GoodCode(prog) && GoodStack(prog, eff.thread.stack)
    ensures var r := DrainEffect(prog, tid, eff);
            r.Some? ==> r.value.thread.args == eff.thread.args && Own(r.value.blocks) == Own(eff.blocks)
  {
    hide Drain, Own;
    var d := Drain(prog, tid, eff.thread.stack, eff.thread.first);
    if d.Some? {
      DrainNormal(prog, tid, eff.thread.stack, eff.thread.first);
      OwnNormal(d.value.blocks);
      OwnConcat(eff.blocks, d.value.blocks);
    }
  }

  ghost predicate AllKept(events: seq<Event>, st: State) {
    forall tid :: Keeps(events, ThreadOf(st, tid).args, tid)
  }

  lemma {:induction false} NextShows(prog: Program, impactful: set<uint64>, past: seq<Event>, st: State, e: Event)
    requires GoodCode(prog) && GoodState(prog, st) && AllKept(past, st)
    ensures var st' := Next(prog, impactful, st, e); st'.Some? ==>
              && AllKept(past + [e], st'.value)
              && exists more :: Own(st'.value.out) == Own(st.out) + more && Adds(prog, impactful, past, e, more)
  {
    hide DrainEffect, Handle, GoodStack, Own, GivenTo, Adds;
    var tid := if e.HasTid() then e.tid else if st.last.Some? then st.last.value else 0;
    var ts := ThreadOf(st, tid);
    Framing.GoodThread(prog, st, tid);
    assert Keeps(past, ts.args, tid);
    var st' := Next(prog, impactful, st, e);
    if st'.Some? {
      var eff0 := if e.HasTid() then Handle(prog, impactful, ts, e).value else Effect(ts, []);
      if e.HasTid() { HandleShows(prog, impactful, past, ts, e); } else { PlainKeeps(past, e, ts.args, tid); }
      if !e.HasTid() { NothingAdded(prog, impactful, past, e); }
      assert Adds(prog, impactful, past, e, eff0.blocks);
      DrainShows(prog, tid, eff0);
      var eff := (if e.HasTid() then Step(prog, impactful, ts, e) else DrainEffect(prog, tid, eff0)).value;
      assert st'.value == Put(st, tid, eff) && Own(eff.blocks) == Own(eff0.blocks);
      OwnConcat(st.out, eff.blocks);
      AddsOwn(prog, impactful, past, e, eff0.blocks);
      forall t ensures Keeps(past + [e], ThreadOf(st'.value, t).args, t) {
        if t != tid {
          assert Keeps(past, ThreadOf(st, t).args, t);
          forall x ensures GivenTo(past + [e], t, x) <==> GivenTo(past, t, x) { GivenMore(past, e, t, x); }
        }
      }
    }
  }

  lemma {:induction false} PlainKeeps(past: seq<Event>, e: Event, args: set<uint64>, tid: Tid)
    requires !e.HasTid() && Keeps(past, args, tid)
    ensures Keeps(past + [e], args, tid)
  {
    forall x ensures GivenTo(past + [e], tid, x) <==> GivenTo(past, tid, x) { GivenMore(past, e, tid, x); }
  }

  lemma {:induction false} NothingAdded(prog: Program, impactful: set<uint64>, past: seq<Event>, e: Event)
    requires !e.HasTid()
    ensures Adds(prog, impactful, past, e, [])
  {
  }

  lemma {:induction false} AddsOwn(prog: Program, impactful: set<uint64>, past: seq<Event>, e: Event,
                                   blocks: seq<SmallestBlock>)
    requires Adds(prog, impactful, past, e, blocks)
    ensures Own(blocks) == blocks
  {
    hide ShownBy;
    if Leaves(e) {
      OwnOne(blocks[0]);
      assert blocks == [blocks[0]];
    }
  }

  lemma {:induction false} MergedTells(prog: Program, impactful: set<uint64>, events: seq<Event>)
    requires GoodCode(prog)
    ensures var st := Merged(prog, impactful, events);
            st.Some? ==> AllKept(events, st.value) && Tell(prog, impactful, events, Own(st.value.out))
    decreases |events|
  {
    hide Next, Own, GivenTo, ShownBy;
    if events == [] {
      NoneOwn();
    } else {
      var n := |events| - 1;
      MergedTells(prog, impactful, events[..n]);
      var st := Merged(prog, impactful, events[..n]);
      if st.Some? {
        NextShows(prog, impactful, events[..n], st.value, events[n]);
        assert events == events[..n] + [events[n]];
        var st' := Next(prog, impactful, st.value, events[n]);
        if st'.Some? {
          var more :| Own(st'.value.out) == Own(st.value.out) + more
                      && Adds(prog, impactful, events[..n], events[n], more);
          MoreTold(prog, impactful, events, Own(st.value.out), more);
        }
      }
    }
  }

  lemma {:induction false} MoreTold(prog: Program, impactful: set<uint64>, events: seq<Event>,
                                    blocks: seq<SmallestBlock>, more: seq<SmallestBlock>)
    requires events != [] && Tell(prog, impactful, events[..|events| - 1], blocks)
    requires Adds(prog, impactful, events[..|events| - 1], events[|events| - 1], more)
    ensures Tell(prog, impactful, events, blocks + more)
  {
    hide ShownBy;
    if Leaves(events[|events| - 1]) {
      assert (blocks + more)[..|blocks + more| - 1] == blocks;
    } else {
      assert blocks + more == blocks;
    }
  }

  lemma {:induction false} NoneOwn()
    ensures Own([]) == [] && forall tid, x :: !GivenTo([], tid, x)
  {
  }

  /** The accesses, calls and declarations of all threads stand in the block trace in the
      order in which their events were recorded, each for the instruction, with the bytes
      and the arguments that its event tells; and nothing else is recorded of them. */
  lemma {:induction false} AccessOrder(prog: Program, impactful: set<uint64>, events: seq<Event>, stale: Option<nat>)
    requires GoodCode(prog)
    ensures var trace := BlockTrace(prog, impactful, events, stale);
            trace.Some? ==> Tell(prog, impactful, events, Own(trace.value))
  {
    hide Merged, ClosingAll, Own, Tell;
    MergedTells(prog, impactful, events);
    var st := Merged(prog, impactful, events);
    if st.Some? {
      var closing := ClosingAll(prog, st.value, OpenThreads(st.value), stale);
      if closing.Some? {
        ClosingAllNormal(prog, st.value, OpenThreads(st.value), stale);
        OwnConcat(st.value.out, closing.value);
        assert Own(st.value.out) + [] == Own(st.value.out);
      }
    }
  }

  // -------------------------------------------------------- the machine's log

  function Deeds(log: seq<Mark>): seq<Mark> {
    if log == [] then []
    else
      var n := |log| - 1;
      Deeds(log[..n]) + if log[n].Item? && log[n].deed.Did? then [log[n]] else []
  }

  /** The events that record what thread `tid` did. */
  predicate Deed(e: Event, tid: Tid) {
    Leaves(e) && e.tid == tid && !(e.MemoryEvent? && e.id == 0xFFFF_FFFF)
  }

  ghost predicate DoneAs(prog: Program, impactful: set<uint64>, past: seq<Event>, e: Event, m: Mark)
    requires Leaves(e)
  {
    m.Item? && m.deed.Did? && Shows(prog, impactful, past, e, m.deed.typ, m.bb, m.k, m.deed.addr)
  }

  /** One deed of thread `tid` for each of its events that record one, in their order, as
      the event shows it. */
  ghost predicate Done(prog: Program, impactful: set<uint64>, events: seq<Event>, tid: Tid, deeds: seq<Mark>)
    decreases |events|
  {
    if events == [] then deeds == []
    else
      var n := |events| - 1;
      if Deed(events[n], tid) then
        && deeds != [] && DoneAs(prog, impactful, events[..n], events[n], deeds[|deeds| - 1])
        && Done(prog, impactful, events[..n], tid, deeds[..|deeds| - 1])
      else Done(prog, impactful, events[..n], tid, deeds)
  }

  lemma {:induction false} DeedsConcat(a: seq<Mark>, b: seq<Mark>)
    ensures Deeds(a + b) == Deeds(a) + Deeds(b)
    decreases |b|
  {
    if b == [] {
      assert a + b == a;
    } else {
      var n := |b| - 1;
      assert (a + b)[..|a + b| - 1] == a + b[..n];
      DeedsConcat(a, b[..n]);
    }
  }

  /** What one event of the trace adds to the log of thread `tid`. */
  ghost predicate AddsDeeds(prog: Program, impactful: set<uint64>, past: seq<Event>, e: Event, tid: Tid,
                            deeds: seq<Mark>)
  {
    if Deed(e, tid) then |deeds| == 1 && DoneAs(prog, impactful, past, e, deeds[0]) else deeds == []
  }

  lemma {:induction false} MoreDid(prog: Program, impactful: set<uint64>, past: seq<Event>, e: Event, tid: Tid,
                                   deeds: seq<Mark>, more: seq<Mark>)
    requires Done(prog, impactful, past, tid, deeds) && AddsDeeds(prog, impactful, past, e, tid, more)
    ensures Done(prog, impactful, past + [e], tid, deeds + more)
  {
    hide DoneAs;
    assert (past + [e])[..|past|] == past;
    if Deed(e, tid) {
      assert (deeds + more)[..|deeds + more| - 1] == deeds;
    } else {
      assert deeds + more == deeds;
    }
  }

  /** What thread `tid` did is what was recorded of it; its arguments are kept too. */
  ghost predicate Recorded(prog: Program, impactful: set<uint64>, events: seq<Event>, task: Task, tid: Tid) {
    Keeps(events, task.args, tid) && Done(prog, impactful, events, tid, Deeds(task.log))
  }

  lemma {:induction false} DoRecords(prog: Program, impactful: set<uint64>, past: seq<Event>, task: Task, tid: Tid,
                                     a: Action)
    requires GoodCode(prog) && GoodFrames(prog, task.stack) && Enabled(prog, task, a)
    requires Recorded(prog, impactful, past, task, tid)
    ensures var task' := Do(prog, impactful, task, a);
            var e := Emits(prog, tid, task, a);
            Recorded(prog, impactful, if e.Some? then past + [e.value] else past, task', tid)
  {
    hide GivenTo, GoodFrames, DoneAs, Done, Deeds;
    var e := Emits(prog, tid, task, a);
    var task' := Do(prog, impactful, task, a);
    var more := DoneBy(prog, impactful, past, task, tid, a);
    DeedsConcat(task.log, more);
    if e.Some? {
      MoreDid(prog, impactful, past, e.value, tid, Deeds(task.log), Deeds(more));
      forall x ensures GivenTo(past + [e.value], tid, x) <==>
          e.value == ArgumentEvent(tid, x) || (GivenTo(past, tid, x) && !e.value.ReturnEvent?) {
        GivenMore(past, e.value, tid, x);
      }
    } else {
      assert Deeds(task.log) + [] == Deeds(task.log);
    }
  }

  lemma {:induction false} DoneBy(prog: Program, impactful: set<uint64>, past: seq<Event>, task: Task, tid: Tid,
                                  a: Action)
    returns (more: seq<Mark>)
    requires GoodCode(prog) && GoodFrames(prog, task.stack) && Enabled(prog, task, a)
    requires Keeps(past, task.args, tid)
    ensures Do(prog, impactful, task, a).log == task.log + more
    ensures var e := Emits(prog, tid, task, a);
            if e.Some? then AddsDeeds(prog, impactful, past, e.value, tid, Deeds(more)) else Deeds(more) == []
  {
    hide GivenTo, Past, Bounds, Listed, Deeds, Shows, Go;
    if a.Touch? || a.SetBytes? || a.MoveBytes? || a.CallOutside? {
      var f := TopFrame(task.stack);
      var typ, addr := DeedOf(prog, impactful, past, task, tid, a);
      more := [Item(f.bb, f.cur, f.lastBB, Did(typ, addr))];
      OneDeed(more[0]);
    } else if a.Execute? {
      more := Go(prog, task.stack).1;
      GoesQuietly(prog, task.stack);
    } else {
      more := Do(prog, impactful, task, a).log[|task.log|..];
      NoDeeds(more);
    }
  }

  lemma {:induction false} DeedOf(prog: Program, impactful: set<uint64>, past: seq<Event>, task: Task, tid: Tid,
                                  a: Action)
    returns (typ: BlockType, addr: seq<uint64>)
    requires GoodCode(prog) && GoodFrames(prog, task.stack) && Enabled(prog, task, a) && Keeps(past, task.args, tid)
    requires a.Touch? || a.SetBytes? || a.MoveBytes? || a.CallOutside?
    ensures var f := TopFrame(task.stack);
            && Do(prog, impactful, task, a).log == task.log + [Item(f.bb, f.cur, f.lastBB, Did(typ, addr))]
            && Deed(Emits(prog, tid, task, a).value, tid)
            && Shows(prog, impactful, past, Emits(prog, tid, task, a).value, typ, f.bb, f.cur, addr)
  {
    hide GivenTo, Past, Bounds, Listed, GoodFrames;
    var id := NextId(prog, task.stack);
    var f := TopFrame(task.stack);
    FrameRuns(prog, task.stack, id);
    match a
    case Touch(at, length) =>
      typ, addr := MemoryAccessBlock, [at, Past(at, length)];
      PastBounds(at, length, addr, 0);
    case SetBytes(at, length) =>
      typ, addr := MemsetBlock, [at, Past(at, length)];
      PastBounds(at, length, addr, 0);
    case MoveBytes(dest, src, length) =>
      typ, addr := MemmoveBlock, [dest, Past(dest, length), src, Past(src, length)];
      PastBounds(dest, length, addr, 0);
      PastBounds(src, length, addr, 2);
    case CallOutside(fun) =>
      typ, addr := CallType(prog, impactful, id as nat, fun), [fun] + Listed(task.args);
      assert addr[1..] == Listed(task.args);
  }

  lemma {:induction false} FrameRuns(prog: Program, stack: seq<Frame>, id: uint32)
    requires GoodCode(prog) && GoodFrames(prog, stack) && Ready(prog, stack) && NextId(prog, stack) == id
    ensures Executes(prog, TopFrame(stack).bb, TopFrame(stack).cur, id)
  {
    assert GoodBB(prog, TopFrame(stack).bb);
  }

  lemma {:induction false} OneDeed(m: Mark)
    ensures Deeds([m]) == if m.Item? && m.deed.Did? then [m] else []
  {
    assert [m][..0] == [];
  }

  lemma {:induction false} NoDeeds(marks: seq<Mark>)
    requires forall i :: 0 <= i < |marks| ==> !marks[i].Item? || marks[i].deed.Quiet?
    ensures Deeds(marks) == []
    decreases |marks|
  {
    if marks != [] { NoDeeds(marks[..|marks| - 1]); }
  }

  lemma {:induction false} GoesQuietly(prog: Program, stack: seq<Frame>)
    requires GoodCode(prog) && GoodFrames(prog, stack) && Ready(prog, stack)
    requires Silent(NextInfo(prog, stack)) || Calls(NextInfo(prog, stack))
    ensures Deeds(Go(prog, stack).1) == []
  {
    NoDeeds(Go(prog, stack).1);
  }

  lemma {:induction false} RunRecorded(prog: Program, impactful: set<uint64>, run: seq<Recording.Happening>, tid: Tid)
    requires GoodCode(prog) && Recording.Run(prog, impactful, run).Some?
    ensures var w := Recording.Run(prog, impactful, run).value;
            Recorded(prog, impactful, w.events, Recording.TaskOf(w, tid), tid)
    decreases |run|
  {
    hide GivenTo, Do, Emits, Enabled, Recording.Possible, GoodFrames, Recorded;
    if run == [] {
      NothingRecorded(prog, impactful, tid);
    } else {
      var n := |run| - 1;
      RunRecorded(prog, impactful, run[..n], tid);
      var w := Recording.Run(prog, impactful, run[..n]).value;
      HappeningRecorded(prog, impactful, w, run[n], tid);
    }
  }

  lemma {:induction false} NothingRecorded(prog: Program, impactful: set<uint64>, tid: Tid)
    ensures Recorded(prog, impactful, [], IDLE, tid)
  {
  }

  lemma {:induction false} HappeningRecorded(prog: Program, impactful: set<uint64>, w: Recording.World,
                                             h: Recording.Happening, tid: Tid)
    requires GoodCode(prog) && Recording.GoodWorld(prog, w) && Recording.Possible(prog, w, h)
    requires Recorded(prog, impactful, w.events, Recording.TaskOf(w, tid), tid)
    ensures var w' := Recording.After(prog, impactful, w, h);
            Recorded(prog, impactful, w'.events, Recording.TaskOf(w', tid), tid)
  {
    hide GivenTo, Do, Emits, Enabled, GoodFrames, Recorded;
    match h
    case Act(t, a) =>
      var task := Recording.TaskOf(w, t);
      Recording.GoodTask(prog, w, t);
      if t == tid {
        DoRecords(prog, impactful, w.events, task, tid, a);
      } else {
        var e := Emits(prog, t, task, a);
        EmitsOwn(prog, t, task, a);
        if e.Some? { OthersRecorded(prog, impactful, w.events, e.value, Recording.TaskOf(w, tid), tid); }
      }
    case Pad => OthersRecorded(prog, impactful, w.events, PlaceHolderEvent, Recording.TaskOf(w, tid), tid);
    case Finish => OthersRecorded(prog, impactful, w.events, EndEvent, Recording.TaskOf(w, tid), tid);
  }

  lemma {:induction false} EmitsOwn(prog: Program, tid: Tid, task: Task, a: Action)
    requires GoodCode(prog) && GoodFrames(prog, task.stack) && Enabled(prog, task, a)
    ensures var e := Emits(prog, tid, task, a); e.Some? ==> e.value.HasTid() && e.value.tid == tid
  {
  }

  lemma {:induction false} OthersRecorded(prog: Program, impactful: set<uint64>, past: seq<Event>, e: Event,
                                          task: Task, tid: Tid)
    requires Recorded(prog, impactful, past, task, tid) && (e.HasTid() ==> e.tid != tid)
    ensures Recorded(prog, impactful, past + [e], task, tid)
  {
    hide GivenTo, DoneAs;
    forall x ensures GivenTo(past + [e], tid, x) <==> GivenTo(past, tid, x) { GivenMore(past, e, tid, x); }
    MoreDid(prog, impactful, past, e, tid, Deeds(task.log), []);
    assert Deeds(task.log) + [] == Deeds(task.log);
  }

  /** At every moment of every run, what each thread did with memory and outside calls is
      told by its events: as many, in the same order, for the same instructions, with the
      same bytes and arguments. */
  lemma {:induction false} LogTold(prog: Program, impactful: set<uint64>, run: seq<Recording.Happening>, tid: Tid)
    requires GoodCode(prog) && Recording.Run(prog, impactful, run).Some?
    ensures var w := Recording.Run(prog, impactful, run).value;
            Done(prog, impactful, w.events, tid, Deeds(Recording.TaskOf(w, tid).log))
  {
    RunRecorded(prog, impactful, run, tid);
  }

  // ------------------------------------------------------- moves that are even

  /** If both its ranges are ranges, they are of one length. */
  predicate Even(b: SmallestBlock) {
    b.typ == MemmoveBlock && |b.addr| == 4 && b.addr[0] < b.addr[1] && b.addr[2] < b.addr[3] ==>
      b.addr[3] as int - b.addr[2] as int == b.addr[1] as int - b.addr[0] as int
  }

  lemma {:induction false} ToldEven(prog: Program, impactful: set<uint64>, events: seq<Event>,
                                    blocks: seq<SmallestBlock>, i: nat)
    requires Tell(prog, impactful, events, blocks) && i < |blocks|
    ensures Even(blocks[i])
    decreases |events|
  {
    hide GivenTo, Executes;
    var n := |events| - 1;
    if Leaves(events[n]) {
      if i < |blocks| - 1 {
        ToldEven(prog, impactful, events[..n], blocks[..|blocks| - 1], i);
      } else {
        ShownEven(prog, impactful, events[..n], events[n], blocks[i]);
      }
    } else {
      ToldEven(prog, impactful, events[..n], blocks, i);
    }
  }

  lemma {:induction false} ShownEven(prog: Program, impactful: set<uint64>, past: seq<Event>, e: Event,
                                     b: SmallestBlock)
    requires Leaves(e) && ShownBy(prog, impactful, past, e, b)
    ensures Even(b)
  {
  }

  lemma {:induction false} OwnAt(blocks: seq<SmallestBlock>, i: nat) returns (k: nat)
    requires i < |blocks| && blocks[i].typ != NormalBlock
    ensures k < |Own(blocks)| && Own(blocks)[k] == blocks[i]
    decreases |blocks|
  {
    var n := |blocks| - 1;
    if i < n { k := OwnAt(blocks[..n], i); } else { k := |Own(blocks[..n])|; }
  }

  /** Every move of a merged trace is even. */
  lemma {:induction false} MergedEven(prog: Program, impactful: set<uint64>, events: seq<Event>,
                                      trace: seq<SmallestBlock>)
    requires Tell(prog, impactful, events, Own(trace))
    ensures forall i :: 0 <= i < |trace| ==> Even(trace[i])
  {
    hide Tell, Own;
    forall i | 0 <= i < |trace| ensures Even(trace[i]) {
      if trace[i].typ != NormalBlock {
        var k := OwnAt(trace, i);
        ToldEven(prog, impactful, events, Own(trace), k);
      }
    }
  }
}
