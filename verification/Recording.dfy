/** Whole runs: any interleaving of the threads, cut into trace blocks by
    placeholders. Merging what such a run recorded tells its story again. */
module Recording {
  import opened Common
  import opened Events
  import opened Merge
  import opened Machine
  import opened Replay
  import opened Simulation

  datatype World = World(tasks: map<Tid, Task>, last: Option<Tid>, events: seq<Event>)

  /** A thread acts, the current trace block is padded, or the trace ends. */
  datatype Happening = Act(tid: Tid, action: Action) | Pad | Finish

  function TaskOf(w: World, tid: Tid): Task {
    if tid in w.tasks then w.tasks[tid] else IDLE
  }

  ghost predicate GoodWorld(prog: Program, w: World)
    requires GoodCode(prog)
  {
    forall tid :: tid in w.tasks ==> GoodFrames(prog, w.tasks[tid].stack)
  }

  /** The recorded thread is not about to come back from a call to an instruction that it
      could execute without leaving an event. */
  ghost predicate AtRest(prog: Program, task: Task)
    requires GoodCode(prog) && GoodFrames(prog, task.stack)
  {
    var stack := RunOn(prog, task.stack).0;
    stack != [] && TopFrame(stack).calling ==>
      var next := InfoAt(prog, TopFrame(stack).bb, TopFrame(stack).cur);
      !Silent(next) && !Calls(next)
  }

  ghost predicate Possible(prog: Program, w: World, h: Happening)
    requires GoodCode(prog) && GoodWorld(prog, w)
  {
    match h
    case Act(tid, a) =>
      Enabled(prog, TaskOf(w, tid), a) && (a.Declare? && tid != 0 ==> AtRest(prog, TaskOf(w, tid)))
    case _ => w.last.Some? && AtRest(prog, TaskOf(w, w.last.value))
  }

  ghost function After(prog: Program, impactful: set<uint64>, w: World, h: Happening): (w': World)
    requires GoodCode(prog) && GoodWorld(prog, w) && Possible(prog, w, h)
    ensures GoodWorld(prog, w')
  {
    match h
    case Act(tid, a) =>
      var tasks := w.tasks[tid := Do(prog, impactful, TaskOf(w, tid), a)];
      (match Emits(prog, tid, TaskOf(w, tid), a)
       case None => World(tasks, w.last, w.events)
       case Some(e) => World(tasks, Some(tid), w.events + [e]))
    case Pad => w.(events := w.events + [PlaceHolderEvent])
    case Finish => w.(events := w.events + [EndEvent])
  }

  /** Where a run leads; None if one of its steps cannot happen. */
  ghost function Run(prog: Program, impactful: set<uint64>, run: seq<Happening>): (w: Option<World>)
    requires GoodCode(prog)
    ensures w.Some? ==> GoodWorld(prog, w.value)
  {
    if run == [] then Some(World(map[], None, []))
    else
      var n := |run| - 1;
      match Run(prog, impactful, run[..n])
      case None => None
      case Some(w) => if Possible(prog, w, run[n]) then Some(After(prog, impactful, w, run[n])) else None
  }

  // --------------------------------------------------------------- following

  /** The merger follows one thread of the world. */
  ghost predicate Keeps(prog: Program, w: World, st: State, tid: Tid)
    requires GoodCode(prog)
  {
    Matches(prog, TaskOf(w, tid), ThreadOf(st, tid), Story(st.out, tid))
  }

  ghost predicate Follow(prog: Program, w: World, st: State)
    requires GoodCode(prog)
  {
    GoodWorld(prog, w) && GoodState(prog, st) && st.last == w.last && forall tid :: Keeps(prog, w, st, tid)
  }

  lemma {:induction false} StoryOther(blocks: seq<SmallestBlock>, tid: Tid, other: Tid)
    requires OnlyFrom(blocks, tid) && other != tid
    ensures Story(blocks, other) == []
    decreases |blocks|
  {
    if blocks == [] {
      StoryNone(other);
    } else {
      var n := |blocks| - 1;
      StoryOther(blocks[..n], tid, other);
      assert blocks == blocks[..n] + [blocks[n]];
      StoryConcat(blocks[..n], [blocks[n]], other);
      StoryOne(blocks[n], other);
    }
  }

  /** Putting a thread's step in place disturbs no other thread. */
  lemma {:induction false} PutKeeps(prog: Program, w: World, st: State, tid: Tid, eff: Effect, w': World)
    requires GoodCode(prog) && Follow(prog, w, st) && GoodWorld(prog, w')
    requires GoodStack(prog, eff.thread.stack) && OnlyFrom(eff.blocks, tid)
    requires Matches(prog, TaskOf(w', tid), eff.thread, Story(st.out, tid) + Story(eff.blocks, tid))
    requires forall t :: t != tid ==> TaskOf(w', t) == TaskOf(w, t)
    requires w'.last == Some(tid)
    ensures Follow(prog, w', Put(st, tid, eff))
  {
    hide Matches, Story, GoodFrames, GoodStack, OnlyFrom;
    var st' := Put(st, tid, eff);
    forall t ensures Keeps(prog, w', st', t) {
      StoryConcat(st.out, eff.blocks, t);
      if t != tid {
        StoryOther(eff.blocks, tid, t);
        assert Keeps(prog, w, st, t);
        assert Story(st.out, t) + [] == Story(st.out, t);
      }
    }
  }

  /** Every event of an action finds the merger ready for it. */
  lemma {:induction false} SimAct(prog: Program, impactful: set<uint64>, tid: Tid, task: Task, ts: Thread,
                                  story: seq<Mark>, a: Action)
    requires GoodCode(prog) && Matches(prog, task, ts, story) && Enabled(prog, task, a) && a != Execute
    requires GoodStack(prog, ts.stack)
    requires a.Declare? && tid != 0 ==> AtRest(prog, task)
    ensures Follows(prog, impactful, tid, task, ts, story, a)
  {
    hide Follows, Matches, Enabled, GoodFrames;
    match a {
      case StartThread(_) => SimEnter(prog, impactful, tid, task, ts, story, a);
      case EnterCallee(_) => SimEnter(prog, impactful, tid, task, ts, story, a);
      case Jump(_) => SimEnter(prog, impactful, tid, task, ts, story, a);
      case Touch(_, _) => SimTouch(prog, impactful, tid, task, ts, story, a);
      case SetBytes(_, _) => SimTouch(prog, impactful, tid, task, ts, story, a);
      case MoveBytes(_, _, _) => SimTouch(prog, impactful, tid, task, ts, story, a);
      case PassArgument(_) => SimPassArgument(prog, impactful, tid, task, ts, story, a);
      case CallOutside(_) => SimCallOutside(prog, impactful, tid, task, ts, story, a);
      case Declare(_, _) =>
        if tid != 0 { RestIsParked(prog, task, ts, story); }
        SimDeclare(prog, impactful, tid, task, ts, story, a);
    }
  }

  lemma {:induction false} RunOnBlocks(prog: Program, stack: seq<Frame>)
    requires GoodCode(prog) && GoodFrames(prog, stack)
    ensures Blocked(prog, RunOn(prog, stack).0)
    decreases |stack|, Remaining(prog, stack)
  {
    hide GoodBB, Items;
    if !Blocked(prog, stack) { RunOnBlocks(prog, Go(prog, stack).0); }
  }

  /** Draining again does nothing exactly when the recorded thread is at rest. */
  lemma {:induction false} RestIsParked(prog: Program, task: Task, ts: Thread, story: seq<Mark>)
    requires GoodCode(prog) && Matches(prog, task, ts, story) && GoodStack(prog, ts.stack)
    ensures AtRest(prog, task) <==> Parked(prog, ts.stack)
  {
    hide RunOn, GoodBB, Erased, DrainEnd, Silent, Calls, Pending;
    var stack := RunOn(prog, task.stack).0;
    RunOnBlocks(prog, task.stack);
    if stack != [] {
      var f := TopFrame(stack);
      assert Top(ts.stack) == f.Erase();
      if f.cur < |prog.bb2ins[f.bb]| { DrainEndStep(prog, f.bb, f.cur); } else { DrainEndLast(prog, f.bb); }
    }
  }

  lemma {:induction false} DrainEndLast(prog: Program, bb: nat)
    requires GoodCode(prog) && bb < |prog.bb2ins|
    ensures DrainEnd(prog, bb, |prog.bb2ins[bb]|) == |prog.bb2ins[bb]|
  {
  }

  lemma {:induction false} ActKeeps(prog: Program, impactful: set<uint64>, w: World, st: State, tid: Tid, a: Action)
    requires GoodCode(prog) && Follow(prog, w, st) && Possible(prog, w, Act(tid, a)) && a != Execute
    ensures var w' := After(prog, impactful, w, Act(tid, a));
            var e := Emits(prog, tid, TaskOf(w, tid), a);
            && e.Some? && Next(prog, impactful, st, e.value).Some?
            && Follow(prog, w', Next(prog, impactful, st, e.value).value)
  {
    hide Matches, Story, GoodFrames, GoodStack, OnlyFrom, Enabled, Step, Do, AtRest;
    assert Keeps(prog, w, st, tid);
    var task, ts := TaskOf(w, tid), ThreadOf(st, tid);
    GoodTask(prog, w, tid);
    GoodThread(prog, st, tid);
    SimAct(prog, impactful, tid, task, ts, Story(st.out, tid), a);
    var w' := After(prog, impactful, w, Act(tid, a));
    var e := Emits(prog, tid, task, a).value;
    var eff := Step(prog, impactful, ts, e).value;
    PutKeeps(prog, w, st, tid, eff, w');
  }

  lemma {:induction false} GoodTask(prog: Program, w: World, tid: Tid)
    requires GoodCode(prog) && GoodWorld(prog, w)
    ensures GoodFrames(prog, TaskOf(w, tid).stack)
  {
  }

  lemma {:induction false} GoodThread(prog: Program, st: State, tid: Tid)
    requires GoodState(prog, st)
    ensures GoodStack(prog, ThreadOf(st, tid).stack)
  {
  }

  lemma {:induction false} ExecuteKeeps(prog: Program, impactful: set<uint64>, w: World, st: State, tid: Tid)
    requires GoodCode(prog) && Follow(prog, w, st) && Possible(prog, w, Act(tid, Execute))
    ensures Follow(prog, After(prog, impactful, w, Act(tid, Execute)), st)
  {
    hide Matches, Story, GoodFrames, GoodStack, Do;
    var w' := After(prog, impactful, w, Act(tid, Execute));
    forall t ensures Keeps(prog, w', st, t) {
      assert Keeps(prog, w, st, t);
      if t == tid { SimExecute(prog, impactful, TaskOf(w, t), ThreadOf(st, t), Story(st.out, t)); }
    }
  }

  /** An event without a thread leaves the merger alone if, and only if, the
      thread of the last event is at rest. */
  lemma {:induction false} PadKeeps(prog: Program, impactful: set<uint64>, w: World, st: State, e: Event)
    requires GoodCode(prog) && Follow(prog, w, st) && w.last.Some? && !e.HasTid()
    ensures var st' := Next(prog, impactful, st, e);
            && (AtRest(prog, TaskOf(w, w.last.value)) ==>
                      st'.Some? && Follow(prog, w, st'.value) && st'.value.out == st.out)
            && (!AtRest(prog, TaskOf(w, w.last.value)) ==> st'.None? || !Follow(prog, w, st'.value))
  {
    hide Matches, Story, GoodFrames, GoodStack, OnlyFrom, AtRest, Drain;
    var tid := w.last.value;
    assert Keeps(prog, w, st, tid);
    var task, ts := TaskOf(w, tid), ThreadOf(st, tid);
    GoodTask(prog, w, tid);
    GoodThread(prog, st, tid);
    RestIsParked(prog, task, ts, Story(st.out, tid));
    DrainParked(prog, tid, ts.stack, ts.first);
    if AtRest(prog, task) {
      var eff := Effect(ts, []);
      assert eff.blocks + [] == eff.blocks;
      assert DrainEffect(prog, tid, eff) == Some(eff);
      NoStory(st.out, tid);
      PutKeeps(prog, w, st, tid, eff, w);
      assert st.out + [] == st.out;
    } else {
      DrainMoves(prog, tid, ts.stack, ts.first);
      var st' := Next(prog, impactful, st, e);
      if st'.Some? && Follow(prog, w, st'.value) {
        assert Keeps(prog, w, st'.value, tid);
        SameStack(prog, task, ts, ThreadOf(st'.value, tid), Story(st.out, tid), Story(st'.value.out, tid));
      }
    }
  }

  lemma {:induction false} NoStory(out: seq<SmallestBlock>, tid: Tid)
    ensures Story(out, tid) + Story([], tid) == Story(out, tid)
    ensures OnlyFrom([], tid)
  {
    StoryNone(tid);
  }

  lemma {:induction false} SameStack(prog: Program, task: Task, a: Thread, b: Thread, s: seq<Mark>, t: seq<Mark>)
    requires GoodCode(prog) && Matches(prog, task, a, s) && Matches(prog, task, b, t)
    ensures a.stack == b.stack
  {
  }

  /** Draining a thread that is not parked changes its stack. */
  lemma {:induction false} DrainMoves(prog: Program, tid: Tid, stack: seq<StackInfo>, first: First)
    requires GoodCode(prog) && GoodStack(prog, stack)
    ensures var d := Drain(prog, tid, stack, first);
            d.Some? ==> |d.value.stack| <= |stack| && (!Parked(prog, stack) ==> d.value.stack != stack)
    decreases |stack|
  {
    hide DrainEnd, AtReturn, Normal, CloseFrame;
    if stack != [] { DrainMoves(prog, tid, stack[..|stack| - 1], NOT_FIRST); }
  }

  lemma {:induction false} HappeningKeeps(prog: Program, impactful: set<uint64>, w: World, st: State, h: Happening)
    requires GoodCode(prog) && Follow(prog, w, st) && Possible(prog, w, h)
    ensures var w' := After(prog, impactful, w, h);
            if |w'.events| == |w.events| then w' == w'.(events := w.events) && Follow(prog, w', st)
            else |w'.events| == |w.events| + 1 && w'.events[..|w.events|] == w.events
                 && Next(prog, impactful, st, w'.events[|w.events|]).Some?
                 && Follow(prog, w', Next(prog, impactful, st, w'.events[|w.events|]).value)
  {
    hide Keeps, Story, GoodFrames, GoodStack, Enabled, Do, AtRest, Next;
    match h {
      case Act(tid, a) =>
        if a == Execute {
          ExecuteKeeps(prog, impactful, w, st, tid);
        } else {
          ActKeeps(prog, impactful, w, st, tid, a);
        }
      case Pad => PadFollows(prog, impactful, w, st, PlaceHolderEvent);
      case Finish => PadFollows(prog, impactful, w, st, EndEvent);
    }
  }

  lemma {:induction false} PadFollows(prog: Program, impactful: set<uint64>, w: World, st: State, e: Event)
    requires GoodCode(prog) && Follow(prog, w, st) && !e.HasTid() && w.last.Some?
    requires AtRest(prog, TaskOf(w, w.last.value))
    ensures Next(prog, impactful, st, e).Some?
    ensures Follow(prog, w.(events := w.events + [e]), Next(prog, impactful, st, e).value)
  {
    hide Matches, Story, GoodFrames, GoodStack, AtRest, Next;
    PadKeeps(prog, impactful, w, st, e);
    var st' := Next(prog, impactful, st, e).value;
    forall t ensures Keeps(prog, w.(events := w.events + [e]), st', t) { assert Keeps(prog, w, st', t); }
  }

  /** The merger accepts whatever a run records and keeps up with it. */
  lemma {:induction false} MergeFollows(prog: Program, impactful: set<uint64>, run: seq<Happening>)
    requires GoodCode(prog) && Run(prog, impactful, run).Some?
    ensures var w := Run(prog, impactful, run).value;
            var st := Merged(prog, impactful, w.events);
            st.Some? && Follow(prog, w, st.value)
    decreases |run|
  {
    hide Keeps, Story, GoodFrames, GoodStack, Possible, After, Next;
    if run == [] {
      StartFollows(prog);
    } else {
      var n := |run| - 1;
      MergeFollows(prog, impactful, run[..n]);
      var w := Run(prog, impactful, run[..n]).value;
      var st := Merged(prog, impactful, w.events).value;
      HappeningKeeps(prog, impactful, w, st, run[n]);
    }
  }

  lemma {:induction false} StartFollows(prog: Program)
    requires GoodCode(prog)
    ensures Follow(prog, World(map[], None, []), START)
  {
    forall tid ensures Keeps(prog, World(map[], None, []), START, tid) {
      assert RunOn(prog, []) == ([], []);
      StoryNone(tid);
    }
  }

  /** Once every task has come to its next event, the blocks of each thread tell
      exactly what that thread did. */
  lemma {:induction false} MergeReplays(prog: Program, impactful: set<uint64>, run: seq<Happening>, tid: Tid)
    requires GoodCode(prog) && Run(prog, impactful, run).Some?
    requires Blocked(prog, TaskOf(Run(prog, impactful, run).value, tid).stack)
    ensures var w := Run(prog, impactful, run).value;
            var st := Merged(prog, impactful, w.events);
            && st.Some?
            && Story(st.value.out, tid) + EnterMarks(ThreadOf(st.value, tid).first) == TaskOf(w, tid).log
            && ThreadOf(st.value, tid).stack == Erased(TaskOf(w, tid).stack)
            && (TaskOf(w, tid).stack == [] ==> Story(st.value.out, tid) == TaskOf(w, tid).log)
  {
    hide Matches, Story, GoodFrames, GoodStack, Run, Merged;
    MergeFollows(prog, impactful, run);
    var w := Run(prog, impactful, run).value;
    var st := Merged(prog, impactful, w.events).value;
    assert Keeps(prog, w, st, tid);
    GoodTask(prog, w, tid);
    AtEvent(prog, TaskOf(w, tid), ThreadOf(st, tid), Story(st.out, tid));
    assert Story(st.out, tid) + [] == Story(st.out, tid);
  }

  // ------------------------------------------------------------- the end of it

  /** What it would take for every open frame to return. */
  function Leaves(prog: Program, stack: seq<Frame>): seq<Mark>
    requires GoodCode(prog) && GoodFrames(prog, stack)
  {
    if stack == [] then []
    else
      var rest := stack[..|stack| - 1];
      assert rest != [] ==> TopFrame(rest) == stack[|stack| - 2];
      [LeaveMark(prog, rest)] + Leaves(prog, rest)
  }

  /** The closing loop fails no assertion, and tells that every frame is left. */
  lemma {:induction false} ClosingTells(prog: Program, st: State, tid: Tid, stack: seq<Frame>, stale: Option<nat>)
    requires GoodCode(prog) && GoodFrames(prog, stack)
    ensures GoodStack(prog, Erased(stack))
    ensures var bs := Closing(prog, st, tid, Erased(stack), stale);
            bs.Some? && Story(bs.value, tid) == Leaves(prog, stack) && OnlyFrom(bs.value, tid)
    decreases |stack|
  {
    hide Story, ClosingBB, InfoAt, GoodBB, CloseFrame, Told;
    ErasedGood(prog, stack);
    if stack == [] {
      StoryNone(tid);
    } else {
      var f := TopFrame(stack);
      var rest := stack[..|stack| - 1];
      assert rest != [] ==> TopFrame(rest) == stack[|stack| - 2];
      assert Erased(stack)[..|stack| - 1] == Erased(rest);
      ClosingTells(prog, st, tid, rest, stale);
      var b := ClosingTold(prog, tid, f.Erase().(lastBB := ClosingBB(st, tid, f.Erase(), stale)), rest);
      var bs := Closing(prog, st, tid, Erased(rest), stale).value;
      StoryConcat([b], bs, tid);
      StoryOne(b, tid);
    }
  }

  lemma {:induction false} ClosingTold(prog: Program, tid: Tid, f: StackInfo, rest: seq<Frame>)
    returns (b: SmallestBlock)
    requires GoodCode(prog) && GoodFrames(prog, rest) && (rest != [] ==> TopFrame(rest).calling)
    requires GoodStack(prog, Erased(rest))
    ensures CloseFrame(prog, Normal(tid, f, f.cur, NOT_FIRST), Erased(rest)) == Some(b)
    ensures b.typ == NormalBlock && b.tid == tid && Told(b) == [LeaveMark(prog, rest)]
  {
    if rest != [] {
      assert Top(Erased(rest)) == TopFrame(rest).Erase();
      WaitingCaller(prog, TopFrame(rest));
    }
    b := CloseFrame(prog, Normal(tid, f, f.cur, NOT_FIRST), Erased(rest)).value;
  }

  /** The stack of a thread that is closed, as the machine sees it. */
  ghost function OpenStack(prog: Program, w: World, tids: set<Tid>, tid: Tid): (s: seq<Frame>)
    requires GoodCode(prog) && GoodWorld(prog, w)
    ensures GoodFrames(prog, s)
  {
    if tid in tids then RunOn(prog, TaskOf(w, tid).stack).0 else []
  }

  ghost predicate AllClosed(prog: Program, w: World, tids: set<Tid>, bs: seq<SmallestBlock>)
    requires GoodCode(prog) && GoodWorld(prog, w)
  {
    forall tid :: Story(bs, tid) == Leaves(prog, OpenStack(prog, w, tids, tid))
  }

  lemma {:induction false} ClosingAllTells(prog: Program, w: World, st: State, tids: set<Tid>, stale: Option<nat>)
    requires GoodCode(prog) && Follow(prog, w, st)
    ensures var bs := ClosingAll(prog, st, tids, stale); bs.Some? && AllClosed(prog, w, tids, bs.value)
    decreases |tids|
  {
    hide Story, Closing, GoodStack, RunOn, Matches, GoodFrames, Erased, OnlyFrom;
    if tids == {} {
      forall tid ensures Story([], tid) == Leaves(prog, OpenStack(prog, w, tids, tid)) { StoryNone(tid); }
    } else {
      var tid := Least(tids);
      assert |tids - {tid}| < |tids|;
      ClosingAllTells(prog, w, st, tids - {tid}, stale);
      assert Keeps(prog, w, st, tid);
      KeepsStack(prog, TaskOf(w, tid), ThreadOf(st, tid), Story(st.out, tid));
      ClosingTells(prog, st, tid, RunOn(prog, TaskOf(w, tid).stack).0, stale);
      var a := Closing(prog, st, tid, ThreadOf(st, tid).stack, stale).value;
      var b := ClosingAll(prog, st, tids - {tid}, stale).value;
      forall t ensures Story(a + b, t) == Leaves(prog, OpenStack(prog, w, tids, t)) {
        StoryConcat(a, b, t);
        if t != tid { StoryOther(a, tid, t); }
        assert Story(b, t) == Leaves(prog, OpenStack(prog, w, tids - {tid}, t));
      }
    }
  }

  lemma {:induction false} KeepsStack(prog: Program, task: Task, ts: Thread, story: seq<Mark>)
    requires GoodCode(prog) && Matches(prog, task, ts, story)
    ensures GoodFrames(prog, task.stack) && GoodFrames(prog, RunOn(prog, task.stack).0)
    ensures ts.stack == Erased(RunOn(prog, task.stack).0)
  {
  }

  /** MergeTrace undoes the instrumentation: it accepts what any run recorded;
      of every thread, its blocks tell what the thread did, ran on to its next
      event, and then left every frame. A frame that has not yet written a
      block is the one thing it does not tell of. */
  lemma {:induction false} MergeInverts(prog: Program, impactful: set<uint64>, run: seq<Happening>, stale: Option<nat>,
                                        tid: Tid)
    requires GoodCode(prog) && Run(prog, impactful, run).Some?
    ensures var w := Run(prog, impactful, run).value;
            var trace := BlockTrace(prog, impactful, w.events, stale);
            var (stack, ahead) := RunOn(prog, TaskOf(w, tid).stack);
            && trace.Some?
            && exists story, silent ::
                 && Story(trace.value, tid) == story + Leaves(prog, stack)
                 && story + silent == TaskOf(w, tid).log + ahead
                 && silent == EnterMarks(ThreadOf(Merged(prog, impactful, w.events).value, tid).first)
                 && (silent != [] ==> stack != [] && TopFrame(stack).cur == 0)
  {
    hide Story, Closing, GoodStack, RunOn, GoodFrames, Erased, OnlyFrom, Merged, Run, Leaves;
    MergeFollows(prog, impactful, run);
    var w := Run(prog, impactful, run).value;
    var st := Merged(prog, impactful, w.events).value;
    var tids := OpenThreads(st);
    ClosingAllTells(prog, w, st, tids, stale);
    var bs := ClosingAll(prog, st, tids, stale).value;
    assert Keeps(prog, w, st, tid);
    StoryConcat(st.out, bs, tid);
    var stack := RunOn(prog, TaskOf(w, tid).stack).0;
    assert OpenStack(prog, w, tids, tid) == stack by {
      if tid !in tids {
        assert ThreadOf(st, tid).stack == [];
        NoFrames(stack);
      }
    }
    assert Story(st.out + bs, tid) == Story(st.out, tid) + Leaves(prog, stack);
    var silent := EnterMarks(ThreadOf(st, tid).first);
    assert silent != [] ==> stack != [] && TopFrame(stack).cur == 0;
  }

  lemma {:induction false} NoFrames(stack: seq<Frame>)
    requires Erased(stack) == []
    ensures stack == []
  {
    assert |Erased(stack)| == |stack|;
  }

  // --------------------------------------------- padding at the wrong moment

  /** Block 0 calls a function and returns; block 1 returns. */
  const CALLER := Program(
    [InstInfo(CallInst, false, "f", "call void @f()", [], [], []),
     InstInfo(ReturnInst, false, "", "ret void", [], [], []),
     InstInfo(ReturnInst, false, "", "ret void", [], [], [])],
    [[0, 1], [2]])

  function Block(tid: Tid, bb: nat, start: nat, end: nat, isFirst: nat, isLast: nat): SmallestBlock {
    SmallestBlock(NormalBlock, tid, bb, start, end, [], isFirst, isLast, Some(0), None)
  }

  /** The facts about CALLER that matter. */
  ghost predicate IsCaller(prog: Program) {
    && GoodCode(prog) && |prog.bb2ins| == 2 && prog.bb2ins[0] == [0, 1] && prog.bb2ins[1] == [2]
    && |prog.ins| == 3 && prog.ins[0].typ == CallInst
    && DrainEnd(prog, 0, 0) == 1 && DrainEnd(prog, 0, 1) == 2 && DrainEnd(prog, 1, 0) == 1
    && !AtReturn(prog, 0, 1) && AtReturn(prog, 0, 2) && AtReturn(prog, 1, 1)
  }

  lemma {:induction false} CallerIs()
    ensures IsCaller(CALLER)
  {
    assert GoodBB(CALLER, 0) && GoodBB(CALLER, 1);
    assert !Silent(InfoAt(CALLER, 0, 0)) && Silent(InfoAt(CALLER, 0, 1)) && Silent(InfoAt(CALLER, 1, 0));
    assert !("llvm." <= "f");
  }

  lemma {:induction false} CallerStops(prog: Program, tid: Tid)
    requires IsCaller(prog)
    ensures GoodStack(prog, [StackInfo(0, None, 0)])
    ensures Drain(prog, tid, [StackInfo(0, None, 0)], (2, Some(0)))
            == Some(Drained([StackInfo(0, None, 1)], NOT_FIRST, [Block(tid, 0, 0, 1, 2, 0)]))
  {
    hide DrainEnd, AtReturn, GoodBB;
    var stack := [StackInfo(0, None, 0)];
    assert stack[..0] + [StackInfo(0, None, 1)] == [StackInfo(0, None, 1)];
  }

  lemma {:induction false} OneReturns(prog: Program, tid: Tid, bb: nat, cur: nat, first: First)
    requires IsCaller(prog) && (bb, cur) in {(0, 1), (1, 0)} && first.1 == Some(0)
    ensures GoodStack(prog, [StackInfo(bb, None, cur)])
    ensures Drain(prog, tid, [StackInfo(bb, None, cur)], first)
            == Some(Drained([], NOT_FIRST, [Block(tid, bb, cur, cur + 1, first.0, 2)]))
  {
    hide DrainEnd, AtReturn, GoodBB;
    var stack := [StackInfo(bb, None, cur)];
    assert stack[..0] == [];
    var b := Block(tid, bb, cur, cur + 1, first.0, 2);
    assert CloseFrame(prog, Normal(tid, stack[0], cur + 1, first), []) == Some(b);
    assert [b] + [] == [b];
  }

  lemma {:induction false} BothReturn(prog: Program, tid: Tid)
    requires IsCaller(prog)
    ensures GoodStack(prog, [StackInfo(0, None, 1), StackInfo(1, None, 0)])
    ensures Drain(prog, tid, [StackInfo(0, None, 1), StackInfo(1, None, 0)], (1, Some(0)))
            == Some(Drained([], NOT_FIRST, [Block(tid, 1, 0, 1, 1, 1), Block(tid, 0, 1, 2, 0, 2)]))
  {
    hide DrainEnd, AtReturn, GoodBB;
    OneReturns(prog, tid, 0, 1, NOT_FIRST);
    var stack := [StackInfo(0, None, 1), StackInfo(1, None, 0)];
    assert stack[..1] == [StackInfo(0, None, 1)];
    var a, b := Block(tid, 1, 0, 1, 1, 1), Block(tid, 0, 1, 2, 0, 2);
    assert CloseFrame(prog, Normal(tid, stack[1], 1, (1, Some(0))), stack[..1]) == Some(a);
    assert [a] + [b] == [a, b];
  }

  /** A placeholder between a call and the first block of the callee: the
      merger takes the caller to have returned, and the callee for the first
      function of a thread. */
  lemma {:induction false} PaddedTooEarly(tid: Tid)
    ensures GoodCode(CALLER)
    ensures var st := Merged(CALLER, {}, [BasicBlockEvent(tid, 0), PlaceHolderEvent, BasicBlockEvent(tid, 1)]);
            && st.Some?
            && st.value.out == [Block(tid, 0, 0, 1, 2, 0), Block(tid, 0, 1, 2, 0, 2), Block(tid, 1, 0, 1, 2, 2)]
    ensures var st := Merged(CALLER, {}, [BasicBlockEvent(tid, 0), BasicBlockEvent(tid, 1)]);
            && st.Some?
            && st.value.out == [Block(tid, 0, 0, 1, 2, 0), Block(tid, 1, 0, 1, 1, 1), Block(tid, 0, 1, 2, 0, 2)]
  {
    CallerIs();
    PaddedIn(CALLER, tid);
  }

  lemma {:induction false} PaddedIn(prog: Program, tid: Tid)
    requires IsCaller(prog)
    ensures var st := Merged(prog, {}, [BasicBlockEvent(tid, 0), PlaceHolderEvent, BasicBlockEvent(tid, 1)]);
            && st.Some?
            && st.value.out == [Block(tid, 0, 0, 1, 2, 0), Block(tid, 0, 1, 2, 0, 2), Block(tid, 1, 0, 1, 2, 2)]
    ensures var st := Merged(prog, {}, [BasicBlockEvent(tid, 0), BasicBlockEvent(tid, 1)]);
            && st.Some?
            && st.value.out == [Block(tid, 0, 0, 1, 2, 0), Block(tid, 1, 0, 1, 1, 1), Block(tid, 0, 1, 2, 0, 2)]
  {
    hide Drain, Block, GoodBB, DrainEnd, AtReturn, InfoAt, Merged, Next;
    CallerStops(prog, tid);
    OneReturns(prog, tid, 0, 1, NOT_FIRST);
    OneReturns(prog, tid, 1, 0, (2, Some(0)));
    BothReturn(prog, tid);
    var e0, e1 := BasicBlockEvent(tid, 0), BasicBlockEvent(tid, 1);
    assert [] + [e0] == [e0] && [e0] + [PlaceHolderEvent] == [e0, PlaceHolderEvent] && [e0] + [e1] == [e0, e1];
    assert [e0, PlaceHolderEvent] + [e1] == [e0, PlaceHolderEvent, e1];
    var calling := Thread([StackInfo(0, None, 1)], NOT_FIRST, {});
    assert [StackInfo(0, None, 1)] + [StackInfo(1, None, 0)] == [StackInfo(0, None, 1), StackInfo(1, None, 0)];
    NextEnter(prog, START, tid, 0, Thread([StackInfo(0, None, 0)], (2, Some(0)), {}));
    var st0 := OneMore(prog, [], e0, START);
    NextPad(prog, st0, tid);
    var st1 := OneMore(prog, [e0], PlaceHolderEvent, st0);
    NextEnter(prog, st1, tid, 1, Thread([StackInfo(1, None, 0)], (2, Some(0)), {}));
    var st2 := OneMore(prog, [e0, PlaceHolderEvent], e1, st1);
    NextEnter(prog, st0, tid, 1, Thread([StackInfo(0, None, 1), StackInfo(1, None, 0)], (1, Some(0)), {}));
    var st3 := OneMore(prog, [e0], e1, st0);
  }

  lemma {:induction false} NextEnter(prog: Program, st: State, tid: Tid, bb: uint32, ts: Thread)
    requires GoodCode(prog) && GoodState(prog, st) && GoodStack(prog, ThreadOf(st, tid).stack)
    requires GoodStack(prog, ts.stack) && EnterBB(prog, ThreadOf(st, tid), bb as nat) == Some(ts)
    requires Drain(prog, tid, ts.stack, ts.first).Some?
    ensures var d := Drain(prog, tid, ts.stack, ts.first).value;
            Next(prog, {}, st, BasicBlockEvent(tid, bb))
            == Some(State(st.threads[tid := Thread(d.stack, d.first, ts.args)], Some(tid), st.out + d.blocks))
  {
    hide Drain, EnterBB;
    var d := Drain(prog, tid, ts.stack, ts.first).value;
    assert [] + d.blocks == d.blocks;
  }

  lemma {:induction false} NextPad(prog: Program, st: State, tid: Tid)
    requires GoodCode(prog) && GoodState(prog, st) && GoodStack(prog, ThreadOf(st, tid).stack) && st.last == Some(tid)
    requires Drain(prog, tid, ThreadOf(st, tid).stack, ThreadOf(st, tid).first).Some?
    ensures var ts := ThreadOf(st, tid);
            var d := Drain(prog, tid, ts.stack, ts.first).value;
            Next(prog, {}, st, PlaceHolderEvent)
            == Some(State(st.threads[tid := Thread(d.stack, d.first, ts.args)], Some(tid), st.out + d.blocks))
  {
    hide Drain;
    var d := Drain(prog, tid, ThreadOf(st, tid).stack, ThreadOf(st, tid).first).value;
    assert [] + d.blocks == d.blocks;
  }

  lemma {:induction false} OneMore(prog: Program, events: seq<Event>, e: Event, st: State) returns (st': State)
    requires GoodCode(prog) && (if events == [] then st == START else Merged(prog, {}, events) == Some(st))
    requires GoodState(prog, st) && Next(prog, {}, st, e).Some?
    ensures Some(st') == Next(prog, {}, st, e) == Merged(prog, {}, events + [e])
  {
    hide Next;
    assert (events + [e])[..|events|] == events;
    st' := Next(prog, {}, st, e).value;
  }
}
