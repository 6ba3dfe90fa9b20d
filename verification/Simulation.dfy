/** Step by step, the merger follows the machine. */
module Simulation {
  import opened Common
  import opened Events
  import opened Merge
  import opened Machine
  import opened Replay

  /** The merger's thread stands where the recorded thread stands before its next event, and
      the story so far is what the recorded thread did and will do until then. */
  ghost predicate Matches(prog: Program, task: Task, ts: Thread, story: seq<Mark>)
    requires GoodCode(prog)
  {
    && GoodFrames(prog, task.stack)
    && ts.stack == Erased(RunOn(prog, task.stack).0)
    && ts.args == task.args
    && Pending(prog, ts.first, RunOn(prog, task.stack).0)
    && story + EnterMarks(ts.first) == task.log + RunOn(prog, task.stack).1
  }

  /** Nothing to do before the next event. */
  ghost predicate Blocked(prog: Program, stack: seq<Frame>)
    requires GoodCode(prog) && GoodFrames(prog, stack)
  {
    !(Ready(prog, stack) && (Silent(NextInfo(prog, stack)) || Calls(NextInfo(prog, stack))))
  }

  lemma {:induction false} SimExecute(prog: Program, impactful: set<uint64>, task: Task, ts: Thread, story: seq<Mark>)
    requires GoodCode(prog) && Matches(prog, task, ts, story) && Enabled(prog, task, Execute)
    ensures Matches(prog, Do(prog, impactful, task, Execute), ts, story)
  {
    hide EnterMarks, Pending, Erased, GoodBB;
    var (stack, marks) := Go(prog, task.stack);
    var (_, marks') := RunOn(prog, stack);
    assert RunOn(prog, task.stack).1 == marks + marks';
    assert task.log + (marks + marks') == (task.log + marks) + marks';
  }

  /** What a task that was just moved on tells, once its thread is drained. */
  lemma {:induction false} SimDrain(prog: Program, tid: Tid, task: Task, eff: Effect, story: seq<Mark>)
    requires GoodCode(prog) && GoodFrames(prog, task.stack)
    requires task.stack != [] ==> !TopFrame(task.stack).calling
    requires eff.thread.stack == Erased(task.stack) && eff.thread.args == task.args
    requires Pending(prog, eff.thread.first, task.stack)
    requires story + Story(eff.blocks, tid) + EnterMarks(eff.thread.first) == task.log
    ensures GoodStack(prog, eff.thread.stack)
    ensures var r := DrainEffect(prog, tid, eff);
            && r.Some? && Matches(prog, task, r.value.thread, story + Story(r.value.blocks, tid))
            && eff.blocks <= r.value.blocks
            && forall i :: |eff.blocks| <= i < |r.value.blocks| ==> r.value.blocks[i].tid == tid
  {
    hide EnterMarks, Erased, GoodBB, Drain, RunOn, GoodFrames, Flatten, Parts, Story, Pending;
    DrainTells(prog, tid, task.stack, eff.thread.first);
    var d := Drain(prog, tid, eff.thread.stack, eff.thread.first).value;
    var marks := RunOn(prog, task.stack).1;
    StoryConcat(eff.blocks, d.blocks, tid);
    var a, b, c, e := Story(eff.blocks, tid), Story(d.blocks, tid), EnterMarks(d.first), EnterMarks(eff.thread.first);
    assert (story + (a + b)) + c == (story + a) + (b + c);
    assert (story + a) + (e + marks) == ((story + a) + e) + marks;
  }

  /** The merger's step on the event of action `a` keeps up with the recorded thread. */
  ghost predicate Follows(prog: Program, impactful: set<uint64>, tid: Tid, task: Task, ts: Thread, story: seq<Mark>,
                          a: Action)
    requires GoodCode(prog) && GoodFrames(prog, task.stack) && GoodStack(prog, ts.stack)
    requires Enabled(prog, task, a) && a != Execute
  {
    var r := Step(prog, impactful, ts, Emits(prog, tid, task, a).value);
    && r.Some?
    && Matches(prog, Do(prog, impactful, task, a), r.value.thread, story + Story(r.value.blocks, tid))
    && OnlyFrom(r.value.blocks, tid)
  }

  ghost predicate OnlyFrom(blocks: seq<SmallestBlock>, tid: Tid) {
    forall i :: 0 <= i < |blocks| ==> blocks[i].typ == DeclareBlock || blocks[i].tid == tid
  }

  /** Before an event the merger's thread stands exactly where the recorded thread does. */
  lemma {:induction false} AtEvent(prog: Program, task: Task, ts: Thread, story: seq<Mark>)
    requires GoodCode(prog) && Matches(prog, task, ts, story) && Blocked(prog, task.stack)
    ensures ts.stack == Erased(task.stack) && GoodStack(prog, ts.stack)
    ensures Pending(prog, ts.first, task.stack) && story + EnterMarks(ts.first) == task.log
  {
    hide EnterMarks, Erased, GoodBB, Pending;
    assert RunOn(prog, task.stack) == (task.stack, []);
    assert task.log + [] == task.log;
    ErasedGood(prog, task.stack);
  }

  lemma {:induction false} ErasedTop(stack: seq<Frame>, f: Frame)
    requires stack != []
    ensures Top(Erased(stack)) == TopFrame(stack).Erase()
    ensures Erased(SetTop(stack, f)) == Erased(stack)[|stack| - 1 := f.Erase()]
  {
  }

  /** An instruction with an event of its own: one block, then drain. */
  lemma {:induction false} SimPass(prog: Program, tid: Tid, task: Task, ts: Thread, story: seq<Mark>, typ: BlockType,
                                   addr: seq<uint64>)
    returns (eff: Effect)
    requires GoodCode(prog) && Matches(prog, task, ts, story)
    requires Ready(prog, task.stack) && Blocked(prog, task.stack)
    requires typ != NormalBlock && typ != DeclareBlock
    requires GoodStack(prog, ts.stack)
    ensures Advance(prog, tid, ts, NextId(prog, task.stack) as nat, typ, addr) == Some(eff)
    ensures var task' := Passed(prog, task, Did(typ, addr));
            && GoodFrames(prog, task'.stack) && !TopFrame(task'.stack).calling
            && eff.thread.stack == Erased(task'.stack) && eff.thread.args == task.args
            && Pending(prog, eff.thread.first, task'.stack)
            && story + Story(eff.blocks, tid) + EnterMarks(eff.thread.first) == task'.log
            && OnlyFrom(eff.blocks, tid)
  {
    hide EnterMarks, Erased, GoodBB, RunOn, Pending, Story;
    AtEvent(prog, task, ts, story);
    NotLast(prog, task.stack);
    var f := TopFrame(task.stack);
    ErasedTop(task.stack, f.(cur := f.cur + 1));
    eff := Advance(prog, tid, ts, NextId(prog, task.stack) as nat, typ, addr).value;
    var b := Single(tid, typ, f.Erase(), ts.first, addr);
    assert eff.blocks == [b];
    PassTold(tid, typ, f, ts.first, addr, story, task.log);
    PassPending(prog, Passed(prog, task, Did(typ, addr)).stack);
  }

  lemma {:induction false} PassPending(prog: Program, stack: seq<Frame>)
    requires GoodCode(prog) && GoodFrames(prog, stack)
    ensures Pending(prog, NOT_FIRST, stack) && EnterMarks(NOT_FIRST) == []
  {
  }

  lemma {:induction false} PassTold(tid: Tid, typ: BlockType, f: Frame, first: First, addr: seq<uint64>,
                                    story: seq<Mark>, log: seq<Mark>)
    requires typ != NormalBlock && typ != DeclareBlock
    requires story + EnterMarks(first) == log
    ensures story + Story([Single(tid, typ, f.Erase(), first, addr)], tid) + EnterMarks(NOT_FIRST)
            == log + [Item(f.bb, f.cur, f.lastBB, Did(typ, addr))]
  {
    hide Flatten, Parts;
    var b := Single(tid, typ, f.Erase(), first, addr);
    StoryOne(b, tid);
    assert Told(b) == EnterMarks(first) + [Item(f.bb, f.cur, f.lastBB, Did(typ, addr))];
    assert story + (EnterMarks(first) + [Item(f.bb, f.cur, f.lastBB, Did(typ, addr))])
           == (story + EnterMarks(first)) + [Item(f.bb, f.cur, f.lastBB, Did(typ, addr))];
  }

  lemma {:induction false} SimTouch(prog: Program, impactful: set<uint64>, tid: Tid, task: Task, ts: Thread,
                                    story: seq<Mark>, a: Action)
    requires GoodCode(prog) && Matches(prog, task, ts, story) && Enabled(prog, task, a)
    requires a.Touch? || a.SetBytes? || a.MoveBytes?
    requires GoodStack(prog, ts.stack)
    ensures Follows(prog, impactful, tid, task, ts, story, a)
  {
    hide EnterMarks, Erased, GoodBB, RunOn, Pending, Story, Advance, DrainEffect, GoodFrames;
    var (typ, addr) := match a {
      case Touch(addr, length) => (MemoryAccessBlock, [addr, Past(addr, length)])
      case SetBytes(addr, length) => (MemsetBlock, [addr, Past(addr, length)])
      case MoveBytes(dest, src, length) => (MemmoveBlock, [dest, Past(dest, length), src, Past(src, length)])
    };
    var eff := SimPass(prog, tid, task, ts, story, typ, addr);
    var task' := Do(prog, impactful, task, a);
    assert task' == Passed(prog, task, Did(typ, addr));
    SimDrain(prog, tid, task', eff, story);
  }

  lemma {:induction false} SimCallOutside(prog: Program, impactful: set<uint64>, tid: Tid, task: Task, ts: Thread,
                                          story: seq<Mark>, a: Action)
    requires GoodCode(prog) && Matches(prog, task, ts, story) && Enabled(prog, task, a) && a.CallOutside?
    requires GoodStack(prog, ts.stack)
    ensures Follows(prog, impactful, tid, task, ts, story, a)
  {
    hide EnterMarks, Erased, GoodBB, RunOn, Pending, Story, Advance, DrainEffect, GoodFrames;
    var id := NextId(prog, task.stack) as nat;
    var typ, addr := CallType(prog, impactful, id, a.fun), [a.fun] + Listed(task.args);
    var eff := SimPass(prog, tid, task, ts, story, typ, addr);
    SimDrain(prog, tid, Do(prog, impactful, task, a), eff.(thread := eff.thread.(args := {})), story);
  }

  lemma {:induction false} SimPassArgument(prog: Program, impactful: set<uint64>, tid: Tid, task: Task, ts: Thread,
                                           story: seq<Mark>, a: Action)
    requires GoodCode(prog) && Matches(prog, task, ts, story) && Enabled(prog, task, a) && a.PassArgument?
    requires GoodStack(prog, ts.stack)
    ensures Follows(prog, impactful, tid, task, ts, story, a)
  {
    hide EnterMarks, Erased, GoodBB, RunOn, Pending, GoodFrames;
    assert Story([], tid) == [];
    assert story + [] == story;
  }

  /** Draining again a thread that is already drained, unless it was parked
      just past a call and could go on from there. */
  ghost predicate Parked(prog: Program, stack: seq<StackInfo>)
    requires GoodCode(prog) && GoodStack(prog, stack)
  {
    stack != [] ==> DrainEnd(prog, Top(stack).bb, Top(stack).cur) == Top(stack).cur
                    && !AtReturn(prog, Top(stack).bb, Top(stack).cur)
  }

  /** Exactly the parked threads are unmoved by draining. */
  lemma {:induction false} DrainParked(prog: Program, tid: Tid, stack: seq<StackInfo>, first: First)
    requires GoodCode(prog) && GoodStack(prog, stack)
    ensures Drain(prog, tid, stack, first) == Some(Drained(stack, first, [])) <==> Parked(prog, stack)
  {
    if stack != [] && !Parked(prog, stack) {
      var f := Top(stack);
      var end := DrainEnd(prog, f.bb, f.cur);
      if AtReturn(prog, f.bb, end) && end > f.cur {
        var d := Drain(prog, tid, stack, first);
        assert d.Some? ==> |d.value.blocks| > 0;
      }
    }
  }

  lemma {:induction false} SimDeclare(prog: Program, impactful: set<uint64>, tid: Tid, task: Task, ts: Thread,
                                      story: seq<Mark>, a: Action)
    requires GoodCode(prog) && Matches(prog, task, ts, story) && a.Declare?
    requires GoodStack(prog, ts.stack) && (tid != 0 ==> Parked(prog, ts.stack))
    ensures Follows(prog, impactful, tid, task, ts, story, a)
  {
    hide EnterMarks, Erased, GoodBB, RunOn, Pending, GoodFrames, Drain, Flatten, Parts;
    var b := Declared(tid, [a.addr, Past(a.addr, a.length)]);
    StoryOne(b, tid);
    assert story + [] == story;
    DrainParked(prog, tid, ts.stack, ts.first);
    assert [b] + [] == [b];
  }

  // ------------------------------------------------------ entering a block

  lemma {:induction false} SimEnter(prog: Program, impactful: set<uint64>, tid: Tid, task: Task, ts: Thread,
                                    story: seq<Mark>, a: Action)
    requires GoodCode(prog) && Matches(prog, task, ts, story) && Enabled(prog, task, a)
    requires a.StartThread? || a.EnterCallee? || a.Jump?
    requires GoodStack(prog, ts.stack)
    ensures Follows(prog, impactful, tid, task, ts, story, a)
  {
    hide EnterMarks, Erased, GoodBB, RunOn, Pending, Story, EnterBB, DrainEffect, GoodFrames;
    var ts' := SimEnterBB(prog, impactful, tid, task, ts, story, a);
    var task' := Do(prog, impactful, task, a);
    StoryNone(tid);
    assert story + [] == story;
    SimDrain(prog, tid, task', Effect(ts', []), story);
  }

  lemma {:induction false} StoryNone(tid: Tid)
    ensures Story([], tid) == []
  {
  }

  lemma {:induction false} NonePending(prog: Program, task: Task, first: First, a: Action)
    requires GoodCode(prog) && GoodFrames(prog, task.stack) && Enabled(prog, task, a)
    requires a.StartThread? || a.EnterCallee? || a.Jump?
    requires Pending(prog, first, task.stack)
    ensures first.0 == 0
  {
    if a.Jump? { assert GoodBB(prog, TopFrame(task.stack).bb); }
  }

  lemma {:induction false} SimEnterBB(prog: Program, impactful: set<uint64>, tid: Tid, task: Task, ts: Thread,
                                      story: seq<Mark>, a: Action)
    returns (ts': Thread)
    requires GoodCode(prog) && Matches(prog, task, ts, story) && Enabled(prog, task, a)
    requires a.StartThread? || a.EnterCallee? || a.Jump?
    requires GoodStack(prog, ts.stack)
    ensures EnterBB(prog, ts, a.bb as nat) == Some(ts')
    ensures var task' := Do(prog, impactful, task, a);
            && GoodFrames(prog, task'.stack) && task'.stack != [] && !TopFrame(task'.stack).calling
            && ts'.stack == Erased(task'.stack) && ts'.args == task'.args
            && Pending(prog, ts'.first, task'.stack)
            && story + EnterMarks(ts'.first) == task'.log
  {
    hide Erased, GoodBB, RunOn, InfoAt, AtReturn, CallerOf;
    AtEvent(prog, task, ts, story);
    NonePending(prog, task, ts.first, a);
    assert story + [] == story == task.log;
    ts' := EnterBB(prog, ts, a.bb as nat).value;
    match a {
      case StartThread(bb) =>
        var f := Frame(bb as nat, None, 0, false);
        assert Erased([f]) == [f.Erase()];
      case EnterCallee(bb) =>
        var f := Frame(bb as nat, None, 0, false);
        assert Erased(task.stack + [f]) == Erased(task.stack) + [f.Erase()];
        assert (task.stack + [f])[..|task.stack|] == task.stack;
      case Jump(bb) =>
        ErasedTop(task.stack, Frame(bb as nat, Some(TopFrame(task.stack).bb), 0, false));
    }
  }
}
