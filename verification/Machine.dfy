/** The instrumented program as an abstract machine: threads that call, return,
    jump and touch memory, and the event each step emits. The machine keeps, for
    every thread, the list of what it did; the block trace has to tell the same
    story. */
module Machine {
  import opened Common
  import opened Events
  import opened Merge

  /** What an instruction did that left an event: the kind of access and the
      addresses involved. */
  datatype Deed = Quiet | Did(typ: BlockType, addr: seq<uint64>)

  datatype Mark =
    | Enter(kind: nat, caller: Option<nat>)   // 1: called by `caller`, 2: first frame of a thread
    | Item(bb: nat, k: nat, lastBB: Option<nat>, deed: Deed)
    | Leave(kind: nat, caller: Option<nat>)

  /** A frame; `calling` while the instruction before `cur` is a call that has
      not returned. */
  datatype Frame = Frame(bb: nat, lastBB: Option<nat>, cur: nat, calling: bool) {
    function Erase(): StackInfo { StackInfo(bb, lastBB, cur) }
  }

  datatype Task = Task(stack: seq<Frame>, args: set<uint64>, log: seq<Mark>)

  const IDLE := Task([], {}, [])

  function Erased(stack: seq<Frame>): (s: seq<StackInfo>)
    ensures |s| == |stack| && forall i :: 0 <= i < |s| ==> s[i] == stack[i].Erase()
  {
    seq(|stack|, i requires 0 <= i < |stack| => stack[i].Erase())
  }

  function TopFrame(s: seq<Frame>): Frame
    requires s != []
  {
    s[|s| - 1]
  }

  function SetTop(s: seq<Frame>, f: Frame): seq<Frame>
    requires s != []
  {
    s[..|s| - 1] + [f]
  }

  /** A frame inside a call: not at its end, and just past the call. */
  predicate Waiting(prog: Program, f: Frame)
    requires GoodCode(prog)
  {
    && f.calling && f.bb < |prog.bb2ins| && 0 < f.cur < |prog.bb2ins[f.bb]|
    && Calls(InfoAt(prog, f.bb, f.cur - 1))
  }

  predicate Running(prog: Program, f: Frame)
    requires GoodCode(prog)
  {
    && !f.calling && f.bb < |prog.bb2ins| && f.cur <= |prog.bb2ins[f.bb]|
    && !AtReturn(prog, f.bb, f.cur)
  }

  /** Every frame but the top one is inside a call. */
  predicate GoodFrames(prog: Program, stack: seq<Frame>)
    requires GoodCode(prog)
  {
    && (forall i :: 0 <= i < |stack| - 1 ==> Waiting(prog, stack[i]))
    && (stack != [] ==> Waiting(prog, TopFrame(stack)) || Running(prog, TopFrame(stack)))
  }

  function Quietly(f: Frame): Mark { Item(f.bb, f.cur, f.lastBB, Quiet) }

  /** The frames below a returning one: the caller goes on. */
  function Resumed(rest: seq<Frame>): seq<Frame> {
    if rest == [] then rest else SetTop(rest, TopFrame(rest).(calling := false))
  }

  function LeaveMark(prog: Program, rest: seq<Frame>): Mark
    requires GoodCode(prog) && GoodFrames(prog, rest) && (rest != [] ==> TopFrame(rest).calling)
  {
    if rest == [] then Leave(2, None)
    else Leave(1, Some(prog.bb2ins[TopFrame(rest).bb][TopFrame(rest).cur - 1]))
  }

  /** The next instruction, if the recorded thread is not inside a call or at the end of a
      block. */
  predicate Ready(prog: Program, stack: seq<Frame>)
    requires GoodCode(prog) && GoodFrames(prog, stack)
  {
    stack != [] && !TopFrame(stack).calling && TopFrame(stack).cur < |prog.bb2ins[TopFrame(stack).bb]|
  }

  function NextInfo(prog: Program, stack: seq<Frame>): InstInfo
    requires GoodCode(prog) && GoodFrames(prog, stack) && Ready(prog, stack)
  {
    InfoAt(prog, TopFrame(stack).bb, TopFrame(stack).cur)
  }

  /** One instruction that emits no event by itself. */
  function Go(prog: Program, stack: seq<Frame>): (r: (seq<Frame>, seq<Mark>))
    requires GoodCode(prog) && GoodFrames(prog, stack) && Ready(prog, stack)
    requires Silent(NextInfo(prog, stack)) || Calls(NextInfo(prog, stack))
    ensures GoodFrames(prog, r.0)
  {
    var f := TopFrame(stack);
    var info := NextInfo(prog, stack);
    var rest := stack[..|stack| - 1];
    assert GoodBB(prog, f.bb);
    if info.typ == ReturnInst then
      assert rest != [] ==> TopFrame(rest) == stack[|stack| - 2];
      (Resumed(rest), [Quietly(f), LeaveMark(prog, rest)])
    else
      (rest + [f.(cur := f.cur + 1, calling := Calls(info))], [Quietly(f)])
  }

  function Remaining(prog: Program, stack: seq<Frame>): nat {
    if stack == [] || TopFrame(stack).bb >= |prog.bb2ins|
        || TopFrame(stack).cur > |prog.bb2ins[TopFrame(stack).bb]| then 0
    else |prog.bb2ins[TopFrame(stack).bb]| - TopFrame(stack).cur
  }

  /** Everything the recorded thread can do before its next event. */
  function RunOn(prog: Program, stack: seq<Frame>): (r: (seq<Frame>, seq<Mark>))
    requires GoodCode(prog) && GoodFrames(prog, stack)
    ensures GoodFrames(prog, r.0)
    decreases |stack|, Remaining(prog, stack)
  {
    if Ready(prog, stack) && (Silent(NextInfo(prog, stack)) || Calls(NextInfo(prog, stack))) then
      var (stack', marks) := Go(prog, stack);
      var (stack'', marks') := RunOn(prog, stack');
      (stack'', marks + marks')
    else (stack, [])
  }

  // ----------------------------------------------------------------- actions

  datatype Action =
    | Execute                                             // an instruction without an event
    | StartThread(bb: uint32)                             // first block of a thread
    | EnterCallee(bb: uint32)                             // first block of the function called
    | Jump(bb: uint32)                                    // next block of the same function
    | Touch(addr: uint64, length: uint64)                 // load, store, atomic, allocation
    | SetBytes(addr: uint64, length: uint64)              // memset
    | MoveBytes(dest: uint64, src: uint64, length: uint64)
    | PassArgument(arg: uint64)
    | CallOutside(fun: uint64)
    | Declare(addr: uint64, length: uint64)               // a global variable

  predicate Enabled(prog: Program, task: Task, a: Action)
    requires GoodCode(prog) && GoodFrames(prog, task.stack)
  {
    match a
    case Execute =>
      Ready(prog, task.stack) && (Silent(NextInfo(prog, task.stack)) || Calls(NextInfo(prog, task.stack)))
    case StartThread(bb) => task.stack == [] && bb as int < |prog.bb2ins|
    case EnterCallee(bb) => task.stack != [] && TopFrame(task.stack).calling && bb as int < |prog.bb2ins|
    case Jump(bb) =>
      task.stack != [] && !TopFrame(task.stack).calling && !Ready(prog, task.stack) && bb as int < |prog.bb2ins|
    case Touch(_, _) =>
      Ready(prog, task.stack) && NextInfo(prog, task.stack).typ in {LoadInst, StoreInst, AtomicInst, AllocaInst}
    case SetBytes(_, _) => AtIntrinsic(prog, task)
    case MoveBytes(_, _, _) => AtIntrinsic(prog, task)
    case PassArgument(_) => AtExternal(prog, task)
    case CallOutside(_) => AtExternal(prog, task)
    case Declare(_, _) => true
  }

  predicate AtIntrinsic(prog: Program, task: Task)
    requires GoodCode(prog) && GoodFrames(prog, task.stack)
  {
    Ready(prog, task.stack) && NextInfo(prog, task.stack).typ == CallInst && !Calls(NextInfo(prog, task.stack))
  }

  predicate AtExternal(prog: Program, task: Task)
    requires GoodCode(prog) && GoodFrames(prog, task.stack)
  {
    Ready(prog, task.stack) && NextInfo(prog, task.stack).typ == ExternalCallInst
  }

  function NextId(prog: Program, stack: seq<Frame>): (id: uint32)
    requires GoodCode(prog) && GoodFrames(prog, stack) && Ready(prog, stack)
    ensures id as int == prog.bb2ins[TopFrame(stack).bb][TopFrame(stack).cur] && id != DECLARED
  {
    assert GoodBB(prog, TopFrame(stack).bb);
    prog.bb2ins[TopFrame(stack).bb][TopFrame(stack).cur] as uint32
  }

  /** The event an action leaves in the trace. */
  function Emits(prog: Program, tid: Tid, task: Task, a: Action): Option<Event>
    requires GoodCode(prog) && GoodFrames(prog, task.stack) && Enabled(prog, task, a)
  {
    match a
    case Execute => None
    case StartThread(bb) => Some(BasicBlockEvent(tid, bb))
    case EnterCallee(bb) => Some(BasicBlockEvent(tid, bb))
    case Jump(bb) => Some(BasicBlockEvent(tid, bb))
    case Touch(addr, length) => Some(MemoryEvent(tid, NextId(prog, task.stack), addr, length))
    case SetBytes(addr, length) => Some(MemsetEvent(tid, NextId(prog, task.stack), addr, length))
    case MoveBytes(dest, src, length) => Some(MemmoveEvent(tid, NextId(prog, task.stack), dest, src, length))
    case PassArgument(arg) => Some(ArgumentEvent(tid, arg))
    case CallOutside(fun) => Some(ReturnEvent(tid, NextId(prog, task.stack), fun))
    case Declare(addr, length) => Some(MemoryEvent(tid, DECLARED, addr, length))
  }

  /** Past the next instruction, which did `deed`. */
  function Passed(prog: Program, task: Task, deed: Deed): Task
    requires GoodCode(prog) && GoodFrames(prog, task.stack) && Ready(prog, task.stack)
  {
    var f := TopFrame(task.stack);
    task.(stack := SetTop(task.stack, f.(cur := f.cur + 1)),
          log := task.log + [Item(f.bb, f.cur, f.lastBB, deed)])
  }

  function Entered(task: Task, stack: seq<Frame>, marks: seq<Mark>): Task {
    task.(stack := stack, log := task.log + marks)
  }

  ghost function Do(prog: Program, impactful: set<uint64>, task: Task, a: Action): (task': Task)
    requires GoodCode(prog) && GoodFrames(prog, task.stack) && Enabled(prog, task, a)
    ensures GoodFrames(prog, task'.stack)
  {
    match a
    case Execute => var (stack, marks) := Go(prog, task.stack); Entered(task, stack, marks)
    case StartThread(bb) =>
      assert GoodBB(prog, bb as nat);
      Entered(task, [Frame(bb as nat, None, 0, false)], [Enter(2, None)])
    case EnterCallee(bb) =>
      assert GoodBB(prog, bb as nat);
      assert Waiting(prog, TopFrame(task.stack));
      var f := TopFrame(task.stack);
      Entered(task, task.stack + [Frame(bb as nat, None, 0, false)], [Enter(1, Some(prog.bb2ins[f.bb][f.cur - 1]))])
    case Jump(bb) =>
      assert GoodBB(prog, bb as nat);
      Entered(task, SetTop(task.stack, Frame(bb as nat, Some(TopFrame(task.stack).bb), 0, false)), [])
    case Touch(addr, length) =>
      NotLast(prog, task.stack); Passed(prog, task, Did(MemoryAccessBlock, [addr, Past(addr, length)]))
    case SetBytes(addr, length) =>
      NotLast(prog, task.stack); Passed(prog, task, Did(MemsetBlock, [addr, Past(addr, length)]))
    case MoveBytes(dest, src, length) =>
      NotLast(prog, task.stack);
      Passed(prog, task, Did(MemmoveBlock, [dest, Past(dest, length), src, Past(src, length)]))
    case PassArgument(arg) => task.(args := task.args + {arg})
    case CallOutside(fun) =>
      NotLast(prog, task.stack);
      var id := NextId(prog, task.stack) as nat;
      Passed(prog, task, Did(CallType(prog, impactful, id, fun), [fun] + Listed(task.args))).(args := {})
    case Declare(_, _) => task
  }

  /** An instruction that leaves an event is never the last of its block. */
  lemma {:induction false} NotLast(prog: Program, stack: seq<Frame>)
    requires GoodCode(prog) && GoodFrames(prog, stack) && Ready(prog, stack)
    requires NextInfo(prog, stack).typ !in {ReturnInst, TerminatorInst}
    ensures var f := TopFrame(stack); f.cur + 1 < |prog.bb2ins[f.bb]|
    ensures var f := TopFrame(stack); GoodFrames(prog, SetTop(stack, f.(cur := f.cur + 1)))
  {
    var f := TopFrame(stack);
    assert GoodBB(prog, f.bb);
  }

  /** A thread can always go on, and its program alone decides whether its next step leaves
      an event: no instruction is left out, and none is traced in one run and not in another.
      Accesses, outside calls and calls of intrinsics do, and nothing else in a block. */
  lemma {:induction false} WayOn(prog: Program, tid: Tid, task: Task)
    requires GoodCode(prog) && GoodFrames(prog, task.stack) && prog.bb2ins != []
    ensures exists a: Action :: !a.Declare? && Enabled(prog, task, a)
    ensures forall a: Action, a': Action ::
              !a.Declare? && !a'.Declare? && Enabled(prog, task, a) && Enabled(prog, task, a') ==>
              (Emits(prog, tid, task, a) == None <==> Emits(prog, tid, task, a') == None)
    ensures Ready(prog, task.stack) ==>
              var info := NextInfo(prog, task.stack);
              Enabled(prog, task, Execute) <==>
                && info.typ !in {LoadInst, StoreInst, AtomicInst, AllocaInst, ExternalCallInst}
                && !(info.typ == CallInst && |info.fun| >= 5 && info.fun[..5] == "llvm.")
  {
    if task.stack == [] {
      assert Enabled(prog, task, StartThread(0));
    } else if TopFrame(task.stack).calling {
      assert Enabled(prog, task, EnterCallee(0));
    } else if !Ready(prog, task.stack) {
      assert Enabled(prog, task, Jump(0));
    } else {
      var info := NextInfo(prog, task.stack);
      var a := if Silent(info) || Calls(info) then Execute
               else if info.typ == CallInst then SetBytes(0, 0)
               else if info.typ == ExternalCallInst then CallOutside(0)
               else Touch(0, 0);
      assert Enabled(prog, task, a);
    }
  }
}
