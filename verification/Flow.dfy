/** How control goes from block to block in a merged trace: within a frame every block
    goes on where the one before it stopped, or starts a basic block entered from
    there (tools/PrintBug/MergeTrace.cpp, lines 94-262). */
module Flow {
  import opened Common
  import opened Events
  import opened Merge
  import Executions
  import Framing
  import Slice

  /** Where a frame stands after one of its blocks. */
  datatype Spot = Spot(bb: nat, lastBB: Option<nat>, end: nat)

  function SpotOf(b: SmallestBlock): Spot { Spot(b.bb, b.lastBB, b.end) }

  /** Block b goes on in the same run of its basic block. */
  predicate GoesOn(s: Spot, b: SmallestBlock) { b.bb == s.bb && b.lastBB == s.lastBB && b.start == s.end > 0 }

  /** Block b starts a basic block, entered from where the frame stood. */
  predicate JumpsTo(prog: Program, s: Spot, b: SmallestBlock) {
    s.bb < |prog.bb2ins| && s.end == |prog.bb2ins[s.bb]| && b.start == 0 && b.lastBB == Some(s.bb)
  }

  predicate Follows(prog: Program, s: Spot, b: SmallestBlock) { GoesOn(s, b) || JumpsTo(prog, s, b) }

  function Leave(b: SmallestBlock, spots: seq<Spot>): seq<Spot>
    requires spots != []
  {
    if b.isLast > 0 then spots[..|spots| - 1] else spots
  }

  /** The open frames of a thread after one more block, innermost last; None if the block
      does not follow, or an access is not of one instruction. */
  function Step(prog: Program, spots: seq<Spot>, b: SmallestBlock, tid: Tid): Option<seq<Spot>> {
    if b.typ == DeclareBlock || b.tid != tid then Some(spots)
    else if b.typ != NormalBlock && b.end != b.start + 1 then None
    else if b.isFirst > 0 then Some(Leave(b, spots + [SpotOf(b)]))
    else if spots == [] || !Follows(prog, spots[|spots| - 1], b) then None
    else Some(Leave(b, spots[|spots| - 1 := SpotOf(b)]))
  }

  function Flows(prog: Program, spots: seq<Spot>, blocks: seq<SmallestBlock>, tid: Tid): Option<seq<Spot>> {
    if blocks == [] then Some(spots)
    else
      match Flows(prog, spots, blocks[..|blocks| - 1], tid)
      case None => None
      case Some(s) => Step(prog, s, blocks[|blocks| - 1], tid)
  }

  lemma {:induction false} FlowsConcat(prog: Program, spots: seq<Spot>, a: seq<SmallestBlock>, b: seq<SmallestBlock>,
                                       tid: Tid)
    ensures var m := Flows(prog, spots, a, tid);
            Flows(prog, spots, a + b, tid) == if m.None? then None else Flows(prog, m.value, b, tid)
    decreases |b|
  {
    hide Step;
    if b == [] {
      assert a + b == a;
    } else {
      var n := |b| - 1;
      assert (a + b)[..|a + b| - 1] == a + b[..n];
      FlowsConcat(prog, spots, a, b[..n], tid);
    }
  }

  lemma {:induction false} FlowsOne(prog: Program, spots: seq<Spot>, b: SmallestBlock, tid: Tid)
    ensures Flows(prog, spots, [b], tid) == Step(prog, spots, b, tid)
  {
    assert [b][..0] == [];
  }

  lemma {:induction false} FlowsOther(prog: Program, spots: seq<Spot>, blocks: seq<SmallestBlock>, tid: Tid)
    requires forall i :: 0 <= i < |blocks| ==> blocks[i].typ == DeclareBlock || blocks[i].tid != tid
    ensures Flows(prog, spots, blocks, tid) == Some(spots)
    decreases |blocks|
  {
    if blocks != [] { FlowsOther(prog, spots, blocks[..|blocks| - 1], tid); }
  }

  // -------------------------------------------------------- what the merger keeps

  /** The frame stands at the spot, or has been sent on from there. */
  predicate Stands(prog: Program, s: Spot, f: StackInfo) {
    || (f.bb == s.bb && f.lastBB == s.lastBB && f.cur == s.end > 0)
    || (f.cur == 0 && f.lastBB == Some(s.bb) && s.bb < |prog.bb2ins| && s.end == |prog.bb2ins[s.bb]|)
  }

  /** The frames that have started stand at the spots, and the next one has not. */
  ghost predicate Standing(prog: Program, spots: seq<Spot>, stack: seq<StackInfo>, first: First) {
    && Framing.Awaiting(stack, first) && |spots| == Framing.Height(stack, first)
    && forall k :: 0 <= k < |spots| ==> k < |stack| && Stands(prog, spots[k], stack[k])
  }

  /** The blocks take the thread from one state to another. */
  ghost predicate Carries(prog: Program, blocks: seq<SmallestBlock>, tid: Tid, ts: Thread, ts': Thread) {
    forall spots :: Standing(prog, spots, ts.stack, ts.first) ==>
      var r := Flows(prog, spots, blocks, tid); r.Some? && Standing(prog, r.value, ts'.stack, ts'.first)
  }

  lemma {:induction false} CarriesConcat(prog: Program, a: seq<SmallestBlock>, b: seq<SmallestBlock>, tid: Tid,
                                         t0: Thread, t1: Thread, t2: Thread)
    requires Carries(prog, a, tid, t0, t1) && Carries(prog, b, tid, t1, t2)
    ensures Carries(prog, a + b, tid, t0, t2)
  {
    hide Flows, Standing;
    forall spots | Standing(prog, spots, t0.stack, t0.first)
      ensures var r := Flows(prog, spots, a + b, tid); r.Some? && Standing(prog, r.value, t2.stack, t2.first)
    {
      FlowsConcat(prog, spots, a, b, tid);
    }
  }

  lemma {:induction false} CarriesNone(prog: Program, tid: Tid, ts: Thread, args: set<uint64>)
    ensures Carries(prog, [], tid, ts, ts.(args := args))
  {
    hide Standing;
  }

  /** A block of the top frame, from where it stands up to `end`. */
  lemma {:induction false} CarriesOn(prog: Program, tid: Tid, ts: Thread, b: SmallestBlock, end: nat)
    requires ts.stack != [] && b.typ != DeclareBlock && b.tid == tid && b.isLast == 0 && b.isFirst == ts.first.0
    requires var f := Top(ts.stack); b.bb == f.bb && b.lastBB == f.lastBB && b.start == f.cur < end == b.end
    requires b.typ != NormalBlock ==> b.end == b.start + 1
    ensures var stack := ts.stack[|ts.stack| - 1 := Top(ts.stack).(cur := end)];
            Carries(prog, [b], tid, ts, ts.(stack := stack, first := NOT_FIRST))
  {
    var stack := ts.stack[|ts.stack| - 1 := Top(ts.stack).(cur := end)];
    forall spots | Standing(prog, spots, ts.stack, ts.first)
      ensures var r := Flows(prog, spots, [b], tid); r.Some? && Standing(prog, r.value, stack, NOT_FIRST)
    {
      FlowsOne(prog, spots, b, tid);
    }
  }

  /** The block with which the top frame returns. */
  lemma {:induction false} CarriesBack(prog: Program, tid: Tid, ts: Thread, b: SmallestBlock)
    requires ts.stack != [] && b.typ == NormalBlock && b.tid == tid && b.isLast > 0 && b.isFirst == ts.first.0
    requires var f := Top(ts.stack); b.bb == f.bb && b.lastBB == f.lastBB && b.start == f.cur
    ensures Carries(prog, [b], tid, ts, ts.(stack := ts.stack[..|ts.stack| - 1], first := NOT_FIRST))
  {
    var stack := ts.stack[..|ts.stack| - 1];
    forall spots | Standing(prog, spots, ts.stack, ts.first)
      ensures var r := Flows(prog, spots, [b], tid); r.Some? && Standing(prog, r.value, stack, NOT_FIRST)
    {
      FlowsOne(prog, spots, b, tid);
    }
  }

  lemma {:induction false} DrainCarries(prog: Program, tid: Tid, ts: Thread)
    requires GoodCode(prog) && GoodStack(prog, ts.stack)
    ensures var d := Drain(prog, tid, ts.stack, ts.first);
            d.Some? ==> Carries(prog, d.value.blocks, tid, ts, ts.(stack := d.value.stack, first := d.value.first))
    decreases |ts.stack|
  {
    hide Carries, AtReturn, DrainEnd, GoodBB;
    CarriesNone(prog, tid, ts, ts.args);
    if ts.stack != [] {
      var f := Top(ts.stack);
      var end := DrainEnd(prog, f.bb, f.cur);
      var rest := ts.stack[..|ts.stack| - 1];
      var b := Normal(tid, f, end, ts.first);
      if !AtReturn(prog, f.bb, end) {
        if end > f.cur {
          CarriesOn(prog, tid, ts, b, end);
          assert ts.stack[|ts.stack| - 1 := f.(cur := end)] == rest + [f.(cur := end)];
        }
      } else if end > f.cur {
        var b' := CloseFrame(prog, b, rest);
        var mid := ts.(stack := rest, first := NOT_FIRST);
        DrainCarries(prog, tid, mid);
        var d := Drain(prog, tid, rest, NOT_FIRST);
        if b'.Some? && d.Some? {
          ClosedFrame(prog, b, rest);
          CarriesBack(prog, tid, ts, b'.value);
          CarriesConcat(prog, [b'.value], d.value.blocks, tid, ts, mid,
                        mid.(stack := d.value.stack, first := d.value.first));
        }
      }
    }
  }

  /** Closing changes the closing marks only; the caller of a first block, too, may be
      overwritten. */
  lemma {:induction false} ClosedFrame(prog: Program, b: SmallestBlock, rest: seq<StackInfo>)
    requires GoodCode(prog) && GoodStack(prog, rest)
    ensures var r := CloseFrame(prog, b, rest);
            r.Some? ==> r.value.isLast > 0 && r.value == b.(isLast := r.value.isLast, caller := r.value.caller)
  {
  }

  ghost predicate EffectCarries(prog: Program, tid: Tid, ts: Thread, eff: Effect) {
    Carries(prog, eff.blocks, tid, ts, eff.thread)
  }

  lemma {:induction false} AdvanceCarries(prog: Program, tid: Tid, ts: Thread, id: nat, typ: BlockType,
                                          addr: seq<uint64>)
    requires GoodCode(prog) && GoodStack(prog, ts.stack) && typ != DeclareBlock
    ensures var eff := Advance(prog, tid, ts, id, typ, addr); eff.Some? ==> EffectCarries(prog, tid, ts, eff.value)
  {
    hide Carries;
    if ts.stack != [] {
      CarriesOn(prog, tid, ts, Single(tid, typ, Top(ts.stack), ts.first, addr), Top(ts.stack).cur + 1);
    }
  }

  lemma {:induction false} EnterCarries(prog: Program, tid: Tid, ts: Thread, bb: nat)
    requires GoodCode(prog) && GoodStack(prog, ts.stack)
    ensures var ts' := EnterBB(prog, ts, bb); ts'.Some? ==> Carries(prog, [], tid, ts, ts'.value)
  {
    if ts.stack != [] { assert GoodBB(prog, Top(ts.stack).bb); }
  }

  lemma {:induction false} HandleCarries(prog: Program, impactful: set<uint64>, ts: Thread, e: Event)
    requires GoodCode(prog) && GoodStack(prog, ts.stack) && e.HasTid()
    ensures var eff := Handle(prog, impactful, ts, e); eff.Some? ==> EffectCarries(prog, e.tid, ts, eff.value)
  {
    hide Carries, Past, Listed, Advance, EnterBB;
    match e {
      case BasicBlockEvent(tid, id) => EnterCarries(prog, tid, ts, id as nat);
      case ArgumentEvent(tid, arg) => CarriesNone(prog, tid, ts, ts.args + {arg});
      case MemoryEvent(tid, id, addr, length) =>
        if id == DECLARED { DeclareCarries(prog, tid, ts, [addr, Past(addr, length)]); }
        AdvanceCarries(prog, tid, ts, id as nat, MemoryAccessBlock, [addr, Past(addr, length)]);
      case ReturnEvent(tid, id, fun) =>
        var typ := CallType(prog, impactful, id as nat, fun);
        AdvanceCarries(prog, tid, ts, id as nat, typ, [fun] + Listed(ts.args));
        var eff := Advance(prog, tid, ts, id as nat, typ, [fun] + Listed(ts.args));
        if eff.Some? { ArgsCarry(prog, tid, ts, eff.value); }
      case MemsetEvent(tid, id, addr, length) =>
        AdvanceCarries(prog, tid, ts, id as nat, MemsetBlock, [addr, Past(addr, length)]);
      case MemmoveEvent(tid, id, dest, src, length) =>
        AdvanceCarries(prog, tid, ts, id as nat, MemmoveBlock, [dest, Past(dest, length), src, Past(src, length)]);
    }
  }

  lemma {:induction false} ArgsCarry(prog: Program, tid: Tid, ts: Thread, eff: Effect)
    requires EffectCarries(prog, tid, ts, eff)
    ensures EffectCarries(prog, tid, ts, eff.(thread := eff.thread.(args := {})))
  {
    hide Flows, Standing;
  }

  lemma {:induction false} DeclareCarries(prog: Program, tid: Tid, ts: Thread, addr: seq<uint64>)
    ensures Carries(prog, [Declared(tid, addr)], tid, ts, ts)
  {
    hide Standing;
    forall spots ensures Flows(prog, spots, [Declared(tid, addr)], tid) == Some(spots) {
      FlowsOne(prog, spots, Declared(tid, addr), tid);
    }
  }

  lemma {:induction false} DrainEffectCarries(prog: Program, tid: Tid, ts: Thread, eff: Effect)
    requires GoodCode(prog) && GoodStack(prog, eff.thread.stack) && EffectCarries(prog, tid, ts, eff)
    ensures var r := DrainEffect(prog, tid, eff); r.Some? ==> EffectCarries(prog, tid, ts, r.value)
  {
    hide Carries, Drain;
    DrainCarries(prog, tid, eff.thread);
    var d := Drain(prog, tid, eff.thread.stack, eff.thread.first);
    if d.Some? {
      CarriesConcat(prog, eff.blocks, d.value.blocks, tid, ts, eff.thread,
                    eff.thread.(stack := d.value.stack, first := d.value.first));
    }
  }

  /** The blocks of every thread flow, up to where its frames stand. */
  ghost predicate Flowing(prog: Program, st: State) {
    forall tid :: FlowingOf(prog, st, tid)
  }

  ghost predicate FlowingOf(prog: Program, st: State, tid: Tid) {
    var r := Flows(prog, [], st.out, tid);
    r.Some? && Standing(prog, r.value, ThreadOf(st, tid).stack, ThreadOf(st, tid).first)
  }

  lemma {:induction false} PutFlowing(prog: Program, st: State, tid: Tid, eff: Effect)
    requires Flowing(prog, st) && EffectCarries(prog, tid, ThreadOf(st, tid), eff) && Framing.OnlyOf(eff.blocks, tid)
    ensures Flowing(prog, Put(st, tid, eff))
  {
    hide Flows, Standing;
    var st' := Put(st, tid, eff);
    forall t ensures FlowingOf(prog, st', t) {
      assert FlowingOf(prog, st, t);
      FlowsConcat(prog, [], st.out, eff.blocks, t);
      if t != tid { FlowsOther(prog, Flows(prog, [], st.out, t).value, eff.blocks, t); }
    }
  }

  lemma {:induction false} ShiftsOnly(tid: Tid, ts: Thread, eff: Effect)
    requires Framing.Shifts(tid, ts, eff)
    ensures Framing.OnlyOf(eff.blocks, tid)
  {
  }

  lemma {:induction false} NextFlowing(prog: Program, impactful: set<uint64>, st: State, e: Event)
    requires GoodCode(prog) && GoodState(prog, st) && Flowing(prog, st) && Framing.Framing(st)
    ensures var st' := Next(prog, impactful, st, e); st'.Some? ==> Flowing(prog, st'.value)
  {
    hide EffectCarries, Flowing, Framing.Framing, Framing.Shifts, DrainEffect, Handle, GoodStack;
    var tid := if e.HasTid() then e.tid else if st.last.Some? then st.last.value else 0;
    var ts := ThreadOf(st, tid);
    Framing.FramingThread(prog, st, tid);
    var eff0 := if e.HasTid() then Handle(prog, impactful, ts, e) else Some(Effect(ts, []));
    if e.HasTid() {
      HandleCarries(prog, impactful, ts, e);
      Framing.HandleShifts(prog, impactful, ts, e);
    } else {
      NoEffect(prog, tid, ts);
      Framing.Unshifted(tid, ts);
    }
    if eff0.Some? {
      DrainEffectCarries(prog, tid, ts, eff0.value);
      Framing.DrainShifts(prog, tid, ts, eff0.value);
    }
    var st' := Next(prog, impactful, st, e);
    if st'.Some? {
      var eff :| EffectCarries(prog, tid, ts, eff) && Framing.Shifts(tid, ts, eff) && st'.value == Put(st, tid, eff);
      ShiftsOnly(tid, ts, eff);
      PutFlowing(prog, st, tid, eff);
    }
  }

  lemma {:induction false} NoEffect(prog: Program, tid: Tid, ts: Thread)
    ensures EffectCarries(prog, tid, ts, Effect(ts, []))
  {
    CarriesNone(prog, tid, ts, ts.args);
  }

  lemma {:induction false} MergedFlowing(prog: Program, impactful: set<uint64>, events: seq<Event>)
    requires GoodCode(prog)
    ensures var st := Merged(prog, impactful, events); st.Some? ==> Flowing(prog, st.value)
    decreases |events|
  {
    hide FlowingOf, Next, Framing.Framing;
    if events == [] {
      forall tid ensures FlowingOf(prog, START, tid) { StartFlowing(prog, tid); }
    } else {
      var n := |events| - 1;
      MergedFlowing(prog, impactful, events[..n]);
      Framing.MergedFraming(prog, impactful, events[..n]);
      var st := Merged(prog, impactful, events[..n]);
      if st.Some? { NextFlowing(prog, impactful, st.value, events[n]); }
    }
  }

  lemma {:induction false} StartFlowing(prog: Program, tid: Tid)
    ensures FlowingOf(prog, START, tid)
  {
  }
}
