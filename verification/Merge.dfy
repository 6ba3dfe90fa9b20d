/** What merging a trace means (tools/PrintBug/MergeTrace.cpp), thread by thread:
    the effect of one event on its thread, and the draining that follows. None
    stands for a failed assertion, an index out of range, or a drain that would
    not end. */
module Merge {
  import opened Common
  import opened Events

  /** One frame of the call stack: the next instruction is number `cur` of block
      `bb`, which was entered from block `lastBB`. */
  datatype StackInfo = StackInfo(bb: nat, lastBB: Option<nat>, cur: nat)

  /** Marks for the next block: kind of first block, and caller. */
  type First = (nat, Option<nat>)

  const NOT_FIRST: First := (0, Some(0))

  datatype Thread = Thread(stack: seq<StackInfo>, first: First, args: set<uint64>)

  const NO_THREAD := Thread([], NOT_FIRST, {})

  function Top(s: seq<StackInfo>): StackInfo
    requires s != []
  {
    s[|s| - 1]
  }

  function InfoAt(prog: Program, bb: nat, k: nat): InstInfo
    requires GoodCode(prog) && bb < |prog.bb2ins| && k < |prog.bb2ins[bb]|
  {
    assert GoodBB(prog, bb);
    prog.ins[prog.bb2ins[bb][k]]
  }

  // -------------------------------------------------------------- draining

  /** The end of the silent instructions from number i on. */
  function SilentEnd(prog: Program, bb: nat, i: nat): (e: nat)
    requires GoodCode(prog) && bb < |prog.bb2ins| && i <= |prog.bb2ins[bb]|
    ensures i <= e <= |prog.bb2ins[bb]|
    ensures forall k :: i <= k < e ==> Silent(InfoAt(prog, bb, k))
    ensures e < |prog.bb2ins[bb]| ==> !Silent(InfoAt(prog, bb, e))
    decreases |prog.bb2ins[bb]| - i
  {
    if i < |prog.bb2ins[bb]| && Silent(InfoAt(prog, bb, i)) then SilentEnd(prog, bb, i + 1) else i
  }

  /** ... and the call that follows them, if one does. */
  function DrainEnd(prog: Program, bb: nat, i: nat): (e: nat)
    requires GoodCode(prog) && bb < |prog.bb2ins| && i <= |prog.bb2ins[bb]|
    ensures i <= e <= |prog.bb2ins[bb]|
  {
    var e := SilentEnd(prog, bb, i);
    if e < |prog.bb2ins[bb]| && Calls(InfoAt(prog, bb, e)) then e + 1 else e
  }

  predicate GoodFrame(prog: Program, f: StackInfo) {
    f.bb < |prog.bb2ins| && f.cur <= |prog.bb2ins[f.bb]|
  }

  predicate GoodStack(prog: Program, stack: seq<StackInfo>) {
    forall i :: 0 <= i < |stack| ==> GoodFrame(prog, stack[i])
  }

  /** The call a frame is waiting in: the instruction just passed. */
  function CallerOf(prog: Program, f: StackInfo): Option<nat>
    requires GoodCode(prog) && GoodFrame(prog, f) && f.cur > 0
  {
    if InfoAt(prog, f.bb, f.cur - 1).typ == CallInst then Some(prog.bb2ins[f.bb][f.cur - 1]) else None
  }

  predicate AtReturn(prog: Program, bb: nat, cur: nat)
    requires GoodCode(prog) && bb < |prog.bb2ins|
  {
    assert GoodBB(prog, bb);
    cur == |prog.bb2ins[bb]| && InfoAt(prog, bb, |prog.bb2ins[bb]| - 1).typ == ReturnInst
  }

  function Normal(tid: Tid, f: StackInfo, end: nat, first: First): SmallestBlock {
    SmallestBlock(NormalBlock, tid, f.bb, f.cur, end, [], first.0, 0, first.1, f.lastBB)
  }

  /** Close a frame: what its last block records of the frame below. */
  function CloseFrame(prog: Program, b: SmallestBlock, rest: seq<StackInfo>): Option<SmallestBlock>
    requires GoodCode(prog) && GoodStack(prog, rest)
  {
    if rest == [] then Some(b.(isLast := 2))
    else if Top(rest).cur == 0 || Top(rest).cur >= |prog.bb2ins[Top(rest).bb]| then None
    else Some(b.(isLast := 1, caller := CallerOf(prog, Top(rest))))
  }

  datatype Drained = Drained(stack: seq<StackInfo>, first: First, blocks: seq<SmallestBlock>)

  /** Run the silent instructions of the top frame, and of the frames below as
      it returns. */
  function Drain(prog: Program, tid: Tid, stack: seq<StackInfo>, first: First): (r: Option<Drained>)
    requires GoodCode(prog) && GoodStack(prog, stack)
    ensures r.Some? ==> GoodStack(prog, r.value.stack)
  {
    if stack == [] then Some(Drained(stack, first, []))
    else
      var f := Top(stack);
      var end := DrainEnd(prog, f.bb, f.cur);
      var rest := stack[..|stack| - 1];
      var b := Normal(tid, f, end, first);
      if !AtReturn(prog, f.bb, end) then
        Some(if end > f.cur then Drained(rest + [f.(cur := end)], NOT_FIRST, [b])
             else Drained(stack, first, []))
      else if end == f.cur then None
      else
        match CloseFrame(prog, b, rest)
        case None => None
        case Some(b') =>
          match Drain(prog, tid, rest, NOT_FIRST)
          case None => None
          case Some(d) => Some(d.(blocks := [b'] + d.blocks))
  }

  // ------------------------------------------------------------ one event

  /** The ascending list of a set, as std::set iterates. */
  ghost predicate Ascending(s: seq<uint64>) {
    forall i, j :: 0 <= i < j < |s| ==> s[i] < s[j]
  }

  ghost function Listed(s: set<uint64>): (l: seq<uint64>)
    ensures forall x :: x in l <==> x in s
    ensures Ascending(l)
    decreases |s|
  {
    if s == {} then []
    else
      var m := Least(s);
      assert |s - {m}| < |s|;
      [m] + Listed(s - {m})
  }

  /** The block of a single event, of instruction number f.cur. */
  function Single(tid: Tid, typ: BlockType, f: StackInfo, first: First, addr: seq<uint64>): SmallestBlock {
    SmallestBlock(typ, tid, f.bb, f.cur, f.cur + 1, addr, first.0, 0, first.1, f.lastBB)
  }

  function Declared(tid: Tid, addr: seq<uint64>): SmallestBlock {
    SmallestBlock(DeclareBlock, tid, 0, 0, 0, addr, 0, 0, None, None)
  }

  /** The thread after one event, and the blocks the event adds. */
  datatype Effect = Effect(thread: Thread, blocks: seq<SmallestBlock>)

  /** Advance past the instruction `id`, which must be the next one. */
  function Advance(prog: Program, tid: Tid, ts: Thread, id: nat, typ: BlockType, addr: seq<uint64>): Option<Effect>
    requires GoodCode(prog) && GoodStack(prog, ts.stack)
  {
    if ts.stack == [] then None
    else
      var f := Top(ts.stack);
      if f.cur >= |prog.bb2ins[f.bb]| || prog.bb2ins[f.bb][f.cur] != id then None
      else
        var stack := ts.stack[|ts.stack| - 1 := f.(cur := f.cur + 1)];
        Some(Effect(ts.(stack := stack, first := NOT_FIRST), [Single(tid, typ, f, ts.first, addr)]))
  }

  /** Enter basic block `bb`: of a new thread, of the same function, or of a
      called one. */
  function EnterBB(prog: Program, ts: Thread, bb: nat): Option<Thread>
    requires GoodCode(prog) && GoodStack(prog, ts.stack)
  {
    if bb >= |prog.bb2ins| then None
    else if ts.stack == [] then Some(ts.(stack := [StackInfo(bb, None, 0)], first := (2, Some(0))))
    else
      var f := Top(ts.stack);
      if f.cur >= |prog.bb2ins[f.bb]| then
        Some(ts.(stack := ts.stack[|ts.stack| - 1 := StackInfo(bb, Some(f.bb), 0)], first := NOT_FIRST))
      else if f.cur == 0 then None
      else
        Some(ts.(stack := ts.stack + [StackInfo(bb, None, 0)], first := (1, Some(prog.bb2ins[f.bb][f.cur - 1]))))
  }

  /** The type of the block of an external call. */
  function CallType(prog: Program, impactful: set<uint64>, id: nat, fun: uint64): BlockType {
    if fun in impactful || (id < |prog.ins| && ImpactfulName(prog.ins[id].fun)) then ImpactfulCallBlock
    else ExternalCallBlock
  }

  /** What an event does to its thread before draining. */
  ghost function Handle(prog: Program, impactful: set<uint64>, ts: Thread, e: Event): (r: Option<Effect>)
    requires GoodCode(prog) && GoodStack(prog, ts.stack) && e.HasTid()
    ensures r.Some? ==> GoodStack(prog, r.value.thread.stack)
  {
    match e
    case BasicBlockEvent(_, id) =>
      (match EnterBB(prog, ts, id as nat)
       case None => None
       case Some(ts') => Some(Effect(ts', [])))
    case MemoryEvent(tid, id, addr, length) =>
      if id == DECLARED then Some(Effect(ts, [Declared(tid, [addr, Past(addr, length)])]))
      else Advance(prog, tid, ts, id as nat, MemoryAccessBlock, [addr, Past(addr, length)])
    case ReturnEvent(tid, id, fun) =>
      (match Advance(prog, tid, ts, id as nat, CallType(prog, impactful, id as nat, fun), [fun] + Listed(ts.args))
       case None => None
       case Some(eff) => Some(eff.(thread := eff.thread.(args := {}))))
    case ArgumentEvent(_, arg) => Some(Effect(ts.(args := ts.args + {arg}), []))
    case MemsetEvent(tid, id, addr, length) =>
      Advance(prog, tid, ts, id as nat, MemsetBlock, [addr, Past(addr, length)])
    case MemmoveEvent(tid, id, dest, src, length) =>
      Advance(prog, tid, ts, id as nat, MemmoveBlock, [dest, Past(dest, length), src, Past(src, length)])
  }

  /** Events after which nothing is drained. */
  predicate NoDrain(e: Event) {
    e.ArgumentEvent? || (e.MemoryEvent? && e.id == DECLARED && e.tid == 0)
  }

  ghost function DrainEffect(prog: Program, tid: Tid, eff: Effect): (r: Option<Effect>)
    requires GoodCode(prog) && GoodStack(prog, eff.thread.stack)
    ensures r.Some? ==> GoodStack(prog, r.value.thread.stack)
  {
    match Drain(prog, tid, eff.thread.stack, eff.thread.first)
    case None => None
    case Some(d) => Some(Effect(eff.thread.(stack := d.stack, first := d.first), eff.blocks + d.blocks))
  }

  /** An event together with the draining it triggers. */
  ghost function Step(prog: Program, impactful: set<uint64>, ts: Thread, e: Event): (r: Option<Effect>)
    requires GoodCode(prog) && GoodStack(prog, ts.stack) && e.HasTid()
    ensures r.Some? ==> GoodStack(prog, r.value.thread.stack)
  {
    match Handle(prog, impactful, ts, e)
    case None => None
    case Some(eff) => if NoDrain(e) then Some(eff) else DrainEffect(prog, e.tid, eff)
  }

  // ----------------------------------------------------------- the whole trace

  /** The merger between two events: every thread, the thread of the last event
      that had one, and the blocks so far. */
  datatype State = State(threads: map<Tid, Thread>, last: Option<Tid>, out: seq<SmallestBlock>)

  const START := State(map[], None, [])

  function ThreadOf(st: State, tid: Tid): Thread {
    if tid in st.threads then st.threads[tid] else NO_THREAD
  }

  predicate GoodState(prog: Program, st: State) {
    forall tid :: tid in st.threads ==> GoodStack(prog, st.threads[tid].stack)
  }

  function Put(st: State, tid: Tid, eff: Effect): State {
    State(st.threads[tid := eff.thread], Some(tid), st.out + eff.blocks)
  }

  /** One round of the event loop. An event without a thread drains the thread
      of the last event that had one. */
  ghost function Next(prog: Program, impactful: set<uint64>, st: State, e: Event): (r: Option<State>)
    requires GoodCode(prog) && GoodState(prog, st)
    ensures r.Some? ==> GoodState(prog, r.value)
  {
    if e.HasTid() then
      match Step(prog, impactful, ThreadOf(st, e.tid), e)
      case None => None
      case Some(eff) => Some(Put(st, e.tid, eff))
    else if st.last == None then None
    else
      match DrainEffect(prog, st.last.value, Effect(ThreadOf(st, st.last.value), []))
      case None => None
      case Some(eff) => Some(Put(st, st.last.value, eff))
  }

  ghost function Merged(prog: Program, impactful: set<uint64>, events: seq<Event>): (r: Option<State>)
    requires GoodCode(prog)
    ensures r.Some? ==> GoodState(prog, r.value)
  {
    if events == [] then Some(START)
    else
      match Merged(prog, impactful, events[..|events| - 1])
      case None => None
      case Some(st) => Next(prog, impactful, st, events[|events| - 1])
  }

  // ---------------------------------------------------------- the closing loop

  /** The `LastBBID` given to the blocks that close thread `tid`: that of the
      top frame of the thread of the last event. Once that thread has no frame
      left, the value read is `stale`, whatever it may be. */
  function ClosingBB(st: State, tid: Tid, f: StackInfo, stale: Option<nat>): Option<nat> {
    if st.last == Some(tid) then f.lastBB
    else if st.last.Some? && tid < st.last.value && ThreadOf(st, st.last.value).stack != [] then
      Top(ThreadOf(st, st.last.value).stack).lastBB
    else stale
  }

  /** An empty block for each frame that is still open, innermost first. */
  function Closing(prog: Program, st: State, tid: Tid, stack: seq<StackInfo>, stale: Option<nat>)
    : Option<seq<SmallestBlock>>
    requires GoodCode(prog) && GoodStack(prog, stack)
  {
    if stack == [] then Some([])
    else
      var f := Top(stack);
      var rest := stack[..|stack| - 1];
      var b := Normal(tid, f.(lastBB := ClosingBB(st, tid, f, stale)), f.cur, NOT_FIRST);
      match CloseFrame(prog, b, rest)
      case None => None
      case Some(b') =>
        match Closing(prog, st, tid, rest, stale)
        case None => None
        case Some(bs) => Some([b'] + bs)
  }

  ghost function OpenThreads(st: State): set<Tid> {
    set tid | tid in st.threads && st.threads[tid].stack != []
  }

  /** Close the given threads, in ascending order. */
  ghost function ClosingAll(prog: Program, st: State, tids: set<Tid>, stale: Option<nat>): Option<seq<SmallestBlock>>
    requires GoodCode(prog) && GoodState(prog, st)
    decreases |tids|
  {
    if tids == {} then Some([])
    else
      var tid := Least(tids);
      match Closing(prog, st, tid, ThreadOf(st, tid).stack, stale)
      case None => None
      case Some(bs) =>
        assert |tids - {tid}| < |tids|;
        match ClosingAll(prog, st, tids - {tid}, stale)
        case None => None
        case Some(rest) => Some(bs + rest)
  }

  /** The whole of MergeTrace. */
  ghost function BlockTrace(prog: Program, impactful: set<uint64>, events: seq<Event>, stale: Option<nat>)
    : Option<seq<SmallestBlock>>
    requires GoodCode(prog)
  {
    match Merged(prog, impactful, events)
    case None => None
    case Some(st) =>
      match ClosingAll(prog, st, OpenThreads(st), stale)
      case None => None
      case Some(bs) => Some(st.out + bs)
  }
}
