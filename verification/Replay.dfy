/** The block trace tells the story of the run: merging undoes the
    instrumentation. */
module Replay {
  import opened Common
  import opened Events
  import opened Merge
  import opened Machine

  // ------------------------------------------------------ reading blocks back

  /** Instructions from..to of a block, executed without an event. */
  function Items(bb: nat, lastBB: Option<nat>, from: nat, to: nat): (r: seq<Mark>)
    decreases to - from
  {
    if from >= to then [] else [Item(bb, from, lastBB, Quiet)] + Items(bb, lastBB, from + 1, to)
  }

  function EnterMarks(first: First): seq<Mark> {
    if first.0 == 1 then [Enter(1, first.1)] else if first.0 == 2 then [Enter(2, None)] else []
  }

  function LeaveMarks(b: SmallestBlock): seq<Mark> {
    if b.isLast == 1 then [Leave(1, b.caller)] else if b.isLast == 2 then [Leave(2, None)] else []
  }

  function Body(b: SmallestBlock): seq<Mark> {
    if b.typ == NormalBlock then Items(b.bb, b.lastBB, b.start, b.end)
    else if b.typ == DeclareBlock then []
    else [Item(b.bb, b.start, b.lastBB, Did(b.typ, b.addr))]
  }

  /** The story one block tells. */
  function Told(b: SmallestBlock): seq<Mark> {
    EnterMarks((b.isFirst, b.caller)) + Body(b) + LeaveMarks(b)
  }

  function Part(b: SmallestBlock, tid: Tid): seq<Mark> {
    if b.typ != DeclareBlock && b.tid == tid then Told(b) else []
  }

  function Parts(blocks: seq<SmallestBlock>, tid: Tid): (r: seq<seq<Mark>>)
    ensures |r| == |blocks|
  {
    seq(|blocks|, i requires 0 <= i < |blocks| => Part(blocks[i], tid))
  }

  lemma {:induction false} FlattenOne<T>(line: seq<T>)
    ensures Flatten([line]) == line
  {
    assert [line][..0] == [];
    assert Flatten<T>([]) + line == line;
  }

  /** The story the blocks tell about one thread. */
  function Story(blocks: seq<SmallestBlock>, tid: Tid): seq<Mark> {
    Flatten(Parts(blocks, tid))
  }

  lemma {:induction false} StoryConcat(a: seq<SmallestBlock>, b: seq<SmallestBlock>, tid: Tid)
    ensures Story(a + b, tid) == Story(a, tid) + Story(b, tid)
  {
    PartsConcat(a, b, tid);
    FlattenConcat(Parts(a, tid), Parts(b, tid));
  }

  lemma {:induction false} PartsConcat(a: seq<SmallestBlock>, b: seq<SmallestBlock>, tid: Tid)
    ensures Parts(a + b, tid) == Parts(a, tid) + Parts(b, tid)
  {
  }

  lemma {:induction false} StoryOne(b: SmallestBlock, tid: Tid)
    ensures Story([b], tid) == Part(b, tid)
  {
    assert Parts([b], tid) == [Part(b, tid)];
    FlattenOne(Part(b, tid));
  }

  // ------------------------------------------------- one frame, run to its end

  lemma {:induction false} ItemsSplit(bb: nat, lastBB: Option<nat>, from: nat, mid: nat, to: nat)
    requires from <= mid <= to
    ensures Items(bb, lastBB, from, to) == Items(bb, lastBB, from, mid) + Items(bb, lastBB, mid, to)
    decreases mid - from
  {
    if from < mid { ItemsSplit(bb, lastBB, from + 1, mid, to); }
  }

  lemma {:induction false} DrainEndStep(prog: Program, bb: nat, i: nat)
    requires GoodCode(prog) && bb < |prog.bb2ins| && i < |prog.bb2ins[bb]|
    ensures Silent(InfoAt(prog, bb, i)) ==> DrainEnd(prog, bb, i) == DrainEnd(prog, bb, i + 1)
    ensures !Silent(InfoAt(prog, bb, i)) ==>
              DrainEnd(prog, bb, i) == if Calls(InfoAt(prog, bb, i)) then i + 1 else i
  {
  }

  /** What RunFrame says of a stack. */
  ghost predicate FrameRun(prog: Program, stack: seq<Frame>)
    requires GoodCode(prog) && GoodFrames(prog, stack) && stack != [] && Running(prog, TopFrame(stack))
  {
    var f := TopFrame(stack);
    var rest := stack[..|stack| - 1];
    var end := DrainEnd(prog, f.bb, f.cur);
    var items := Items(f.bb, f.lastBB, f.cur, end);
    if AtReturn(prog, f.bb, end) then
      && f.cur < end && GoodFrames(prog, Resumed(rest)) && GoodFrames(prog, rest)
      && (rest != [] ==> TopFrame(rest).calling)
      && RunOn(prog, stack).0 == RunOn(prog, Resumed(rest)).0
      && RunOn(prog, stack).1 == items + [LeaveMark(prog, rest)] + RunOn(prog, Resumed(rest)).1
    else
      && RunOn(prog, stack).0
         == rest + [f.(cur := end, calling := end > f.cur && Calls(InfoAt(prog, f.bb, end - 1)))]
      && RunOn(prog, stack).1 == items
  }

  /** What the recorded thread does in its top frame, in one go. */
  lemma {:induction false} RunFrame(prog: Program, stack: seq<Frame>)
    requires GoodCode(prog) && GoodFrames(prog, stack) && stack != [] && Running(prog, TopFrame(stack))
    ensures FrameRun(prog, stack)
    decreases Remaining(prog, stack)
  {
    var f := TopFrame(stack);
    var rest := stack[..|stack| - 1];
    assert stack == rest + [f];
    assert GoodBB(prog, f.bb);
    if f.cur < |prog.bb2ins[f.bb]| {
      DrainEndStep(prog, f.bb, f.cur);
      var info := InfoAt(prog, f.bb, f.cur);
      if info.typ == ReturnInst {
        RunReturn(prog, stack);
      } else if Silent(info) {
        var stack' := rest + [f.(cur := f.cur + 1)];
        RunFrame(prog, stack');
        RunSilent(prog, stack, stack');
      } else if Calls(info) {
        RunCall(prog, stack);
      }
    }
  }

  lemma {:induction false} RunSilent(prog: Program, stack: seq<Frame>, stack': seq<Frame>)
    requires GoodCode(prog) && GoodFrames(prog, stack) && Ready(prog, stack)
    requires Silent(NextInfo(prog, stack)) && NextInfo(prog, stack).typ != ReturnInst
    requires stack' == stack[..|stack| - 1] + [TopFrame(stack).(cur := TopFrame(stack).cur + 1)]
    requires GoodFrames(prog, stack') && Running(prog, TopFrame(stack')) && FrameRun(prog, stack')
    ensures FrameRun(prog, stack)
  {
    hide SilentEnd, DrainEnd, LeaveMark, RunOn;
    var f := TopFrame(stack);
    var rest := stack[..|stack| - 1];
    assert GoodBB(prog, f.bb);
    DrainEndStep(prog, f.bb, f.cur);
    assert stack'[..|stack'| - 1] == rest;
    RunOnSilent(prog, stack, stack');
    var end := DrainEnd(prog, f.bb, f.cur);
    assert Items(f.bb, f.lastBB, f.cur, end) == [Quietly(f)] + Items(f.bb, f.lastBB, f.cur + 1, end);
  }

  lemma {:induction false} RunOnSilent(prog: Program, stack: seq<Frame>, stack': seq<Frame>)
    requires GoodCode(prog) && GoodFrames(prog, stack) && Ready(prog, stack)
    requires Silent(NextInfo(prog, stack)) && NextInfo(prog, stack).typ != ReturnInst
    requires stack' == stack[..|stack| - 1] + [TopFrame(stack).(cur := TopFrame(stack).cur + 1)]
    ensures GoodFrames(prog, stack')
    ensures RunOn(prog, stack) == (RunOn(prog, stack').0, [Quietly(TopFrame(stack))] + RunOn(prog, stack').1)
  {
    assert GoodBB(prog, TopFrame(stack).bb);
    assert Go(prog, stack) == (stack', [Quietly(TopFrame(stack))]);
  }

  lemma {:induction false} RunReturn(prog: Program, stack: seq<Frame>)
    requires GoodCode(prog) && GoodFrames(prog, stack) && Ready(prog, stack)
    requires NextInfo(prog, stack).typ == ReturnInst
    ensures FrameRun(prog, stack)
  {
    var f := TopFrame(stack);
    var rest := stack[..|stack| - 1];
    assert GoodBB(prog, f.bb);
    DrainEndStep(prog, f.bb, f.cur);
    if rest != [] { assert TopFrame(rest) == stack[|stack| - 2]; }
    assert Items(f.bb, f.lastBB, f.cur, f.cur + 1) == [Quietly(f)];
    assert Go(prog, stack) == (Resumed(rest), [Quietly(f), LeaveMark(prog, rest)]);
    assert [Quietly(f), LeaveMark(prog, rest)] == [Quietly(f)] + [LeaveMark(prog, rest)];
  }

  lemma {:induction false} RunCall(prog: Program, stack: seq<Frame>)
    requires GoodCode(prog) && GoodFrames(prog, stack) && Ready(prog, stack)
    requires Calls(NextInfo(prog, stack))
    ensures FrameRun(prog, stack)
  {
    var f := TopFrame(stack);
    var rest := stack[..|stack| - 1];
    assert GoodBB(prog, f.bb);
    DrainEndStep(prog, f.bb, f.cur);
    assert Items(f.bb, f.lastBB, f.cur, f.cur + 1) == [Quietly(f)];
    var stack' := rest + [f.(cur := f.cur + 1, calling := true)];
    assert Go(prog, stack) == (stack', [Quietly(f)]);
    assert TopFrame(stack').calling;
    assert RunOn(prog, stack') == (stack', []);
  }

  // ---------------------------------------------------- draining is running on

  /** Marks that the next block of the thread will carry. */
  ghost predicate Pending(prog: Program, first: First, stack: seq<Frame>)
    requires GoodCode(prog) && GoodFrames(prog, stack)
  {
    && first.0 <= 2
    && (first.0 != 0 ==> stack != [] && TopFrame(stack).cur == 0 && !TopFrame(stack).calling)
    && (first.0 == 1 ==> |stack| >= 2 && [Leave(1, first.1)] == [LeaveMark(prog, stack[..|stack| - 1])])
    && (first.0 == 2 ==> |stack| == 1)
  }

  lemma {:induction false} WaitingCaller(prog: Program, f: Frame)
    requires GoodCode(prog) && Waiting(prog, f)
    ensures GoodFrame(prog, f.Erase())
    ensures CallerOf(prog, f.Erase()) == Some(prog.bb2ins[f.bb][f.cur - 1])
  {
  }

  lemma {:induction false} ErasedGood(prog: Program, stack: seq<Frame>)
    requires GoodCode(prog) && GoodFrames(prog, stack)
    ensures GoodStack(prog, Erased(stack))
  {
    forall i | 0 <= i < |stack| ensures GoodFrame(prog, Erased(stack)[i]) {
      if i < |stack| - 1 { assert Waiting(prog, stack[i]); }
    }
  }

  /** The last block of a frame tells of everything up to its end. */
  lemma {:induction false} ToldReturning(prog: Program, tid: Tid, stack: seq<Frame>, first: First, end: nat)
    requires GoodCode(prog) && GoodFrames(prog, stack) && stack != [] && Pending(prog, first, stack)
    requires var rest := stack[..|stack| - 1];
             GoodFrames(prog, rest) && (rest != [] ==> TopFrame(rest).calling)
    ensures var f := TopFrame(stack);
            var rest := stack[..|stack| - 1];
            var b := CloseFrame(prog, Normal(tid, f.Erase(), end, first), Erased(rest));
            && GoodStack(prog, Erased(rest)) && b.Some? && b.value.typ == NormalBlock && b.value.tid == tid
            && Told(b.value) == EnterMarks(first) + (Items(f.bb, f.lastBB, f.cur, end) + [LeaveMark(prog, rest)])
  {
    var rest := stack[..|stack| - 1];
    ErasedGood(prog, rest);
    if rest != [] {
      assert Top(Erased(rest)) == TopFrame(rest).Erase();
      WaitingCaller(prog, TopFrame(rest));
    }
  }

  /** `d` is where draining should leave the thread, and what it should tell. */
  ghost predicate TellsAs(prog: Program, tid: Tid, d: Drained, first: First, stack': seq<Frame>, marks: seq<Mark>)
    requires GoodCode(prog) && GoodFrames(prog, stack')
  {
    && d.stack == Erased(stack')
    && (forall i :: 0 <= i < |d.blocks| ==> d.blocks[i].typ == NormalBlock && d.blocks[i].tid == tid)
    && Story(d.blocks, tid) + EnterMarks(d.first) == EnterMarks(first) + marks
    && Pending(prog, d.first, stack')
  }

  ghost predicate Tells(prog: Program, tid: Tid, stack: seq<Frame>, first: First)
    requires GoodCode(prog) && GoodFrames(prog, stack) && GoodStack(prog, Erased(stack))
  {
    var d := Drain(prog, tid, Erased(stack), first);
    d.Some? && TellsAs(prog, tid, d.value, first, RunOn(prog, stack).0, RunOn(prog, stack).1)
  }

  /** Draining a thread tells what the recorded thread does up to its next event, and
      leaves it where the recorded thread then is. */
  lemma {:induction false} DrainTells(prog: Program, tid: Tid, stack: seq<Frame>, first: First)
    requires GoodCode(prog) && GoodFrames(prog, stack) && Pending(prog, first, stack)
    requires stack != [] ==> !TopFrame(stack).calling
    ensures GoodStack(prog, Erased(stack)) && Tells(prog, tid, stack, first)
    decreases |stack|
  {
    ErasedGood(prog, stack);
    if stack == [] {
      assert Story([], tid) == [];
    } else {
      var f := TopFrame(stack);
      RunFrame(prog, stack);
      if AtReturn(prog, f.bb, DrainEnd(prog, f.bb, f.cur)) {
        var below := Resumed(stack[..|stack| - 1]);
        DrainTells(prog, tid, below, NOT_FIRST);
        TellsReturning(prog, tid, stack, first, below);
      } else {
        var d := DrainStopping(prog, tid, stack, first);
        StoppingTells(prog, tid, stack, first, d);
      }
    }
  }

  lemma {:induction false} TellsReturning(prog: Program, tid: Tid, stack: seq<Frame>, first: First, below: seq<Frame>)
    requires GoodCode(prog) && GoodFrames(prog, stack) && Pending(prog, first, stack) && stack != []
    requires Running(prog, TopFrame(stack)) && FrameRun(prog, stack) && GoodStack(prog, Erased(stack))
    requires AtReturn(prog, TopFrame(stack).bb, DrainEnd(prog, TopFrame(stack).bb, TopFrame(stack).cur))
    requires below == Resumed(stack[..|stack| - 1]) && GoodFrames(prog, below)
    requires GoodStack(prog, Erased(below)) && Tells(prog, tid, below, NOT_FIRST)
    ensures Tells(prog, tid, stack, first)
  {
    hide Drain, RunOn, TellsAs, Told, Items, DrainEnd, GoodBB;
    var f := TopFrame(stack);
    var rest := stack[..|stack| - 1];
    var end := DrainEnd(prog, f.bb, f.cur);
    assert Erased(below) == Erased(rest);
    var d := Drain(prog, tid, Erased(rest), NOT_FIRST).value;
    var b := DrainReturning(prog, tid, stack, first, d);
    var items := Items(f.bb, f.lastBB, f.cur, end) + [LeaveMark(prog, rest)];
    PrefixTells(prog, tid, b, items, first, d, RunOn(prog, below).0, RunOn(prog, below).1);
  }

  lemma {:induction false} DrainStopping(prog: Program, tid: Tid, stack: seq<Frame>, first: First) returns (d: Drained)
    requires GoodCode(prog) && GoodFrames(prog, stack) && stack != [] && Running(prog, TopFrame(stack))
    requires GoodStack(prog, Erased(stack))
    requires !AtReturn(prog, TopFrame(stack).bb, DrainEnd(prog, TopFrame(stack).bb, TopFrame(stack).cur))
    ensures Drain(prog, tid, Erased(stack), first) == Some(d)
    ensures var f := TopFrame(stack);
            var end := DrainEnd(prog, f.bb, f.cur);
            d == if end > f.cur then
                   Drained(Erased(stack[..|stack| - 1]) + [f.Erase().(cur := end)], NOT_FIRST,
                           [Normal(tid, f.Erase(), end, first)])
                 else Drained(Erased(stack), first, [])
  {
    assert Erased(stack)[..|stack| - 1] == Erased(stack[..|stack| - 1]);
    d := Drain(prog, tid, Erased(stack), first).value;
  }

  lemma {:induction false} StoppingTells(prog: Program, tid: Tid, stack: seq<Frame>, first: First, d: Drained)
    requires GoodCode(prog) && GoodFrames(prog, stack) && Pending(prog, first, stack) && stack != []
    requires Running(prog, TopFrame(stack)) && FrameRun(prog, stack)
    requires !AtReturn(prog, TopFrame(stack).bb, DrainEnd(prog, TopFrame(stack).bb, TopFrame(stack).cur))
    requires var f := TopFrame(stack);
             var end := DrainEnd(prog, f.bb, f.cur);
             d == if end > f.cur then
                    Drained(Erased(stack[..|stack| - 1]) + [f.Erase().(cur := end)], NOT_FIRST,
                            [Normal(tid, f.Erase(), end, first)])
                  else Drained(Erased(stack), first, [])
    ensures TellsAs(prog, tid, d, first, RunOn(prog, stack).0, RunOn(prog, stack).1)
  {
    hide Drain, RunOn, GoodBB, DrainEnd, TellsAs, Erased, GoodFrames;
    var f := TopFrame(stack);
    var rest := stack[..|stack| - 1];
    var end := DrainEnd(prog, f.bb, f.cur);
    assert stack == rest + [f];
    if end > f.cur {
      var f' := f.(cur := end, calling := Calls(InfoAt(prog, f.bb, end - 1)));
      MovedTells(prog, tid, rest, f, f', first, d);
    } else {
      assert f.(cur := end, calling := false) == f;
      ParkedTells(prog, tid, stack, first, d);
    }
  }

  lemma {:induction false} MovedTells(prog: Program, tid: Tid, rest: seq<Frame>, f: Frame, f': Frame, first: First,
                                      d: Drained)
    requires GoodCode(prog) && GoodFrames(prog, rest + [f'])
    requires f' == f.(cur := f'.cur, calling := f'.calling)
    requires d == Drained(Erased(rest) + [f.Erase().(cur := f'.cur)], NOT_FIRST,
                          [Normal(tid, f.Erase(), f'.cur, first)])
    ensures TellsAs(prog, tid, d, first, rest + [f'], Items(f.bb, f.lastBB, f.cur, f'.cur))
  {
    hide Flatten, Parts;
    var b := Normal(tid, f.Erase(), f'.cur, first);
    StoryOne(b, tid);
    assert Told(b) == EnterMarks(first) + Items(f.bb, f.lastBB, f.cur, f'.cur);
    assert Erased(rest + [f']) == Erased(rest) + [f'.Erase()];
  }

  lemma {:induction false} ParkedTells(prog: Program, tid: Tid, stack: seq<Frame>, first: First, d: Drained)
    requires GoodCode(prog) && GoodFrames(prog, stack) && Pending(prog, first, stack)
    requires d == Drained(Erased(stack), first, [])
    ensures TellsAs(prog, tid, d, first, stack, [])
  {
    assert Story([], tid) == [];
  }

  lemma {:induction false} DrainReturning(prog: Program, tid: Tid, stack: seq<Frame>, first: First, d: Drained)
    returns (b: SmallestBlock)
    requires GoodCode(prog) && GoodFrames(prog, stack) && stack != [] && Running(prog, TopFrame(stack))
    requires FrameRun(prog, stack) && Pending(prog, first, stack)
    requires GoodStack(prog, Erased(stack)) && GoodStack(prog, Erased(stack[..|stack| - 1]))
    requires AtReturn(prog, TopFrame(stack).bb, DrainEnd(prog, TopFrame(stack).bb, TopFrame(stack).cur))
    requires Drain(prog, tid, Erased(stack[..|stack| - 1]), NOT_FIRST) == Some(d)
    ensures Drain(prog, tid, Erased(stack), first) == Some(d.(blocks := [b] + d.blocks))
    ensures b.typ == NormalBlock && b.tid == tid
    ensures var f := TopFrame(stack);
            Told(b) == EnterMarks(first) + (Items(f.bb, f.lastBB, f.cur, DrainEnd(prog, f.bb, f.cur))
                                            + [LeaveMark(prog, stack[..|stack| - 1])])
  {
    var f := TopFrame(stack);
    var end := DrainEnd(prog, f.bb, f.cur);
    assert Erased(stack)[..|stack| - 1] == Erased(stack[..|stack| - 1]);
    assert Top(Erased(stack)) == f.Erase();
    ToldReturning(prog, tid, stack, first, end);
    b := CloseFrame(prog, Normal(tid, f.Erase(), end, first), Erased(stack[..|stack| - 1])).value;
  }

  /** One more block in front. */
  lemma {:induction false} PrefixTells(prog: Program, tid: Tid, b: SmallestBlock, items: seq<Mark>, first: First,
                                       d: Drained, stack': seq<Frame>, marks: seq<Mark>)
    requires GoodCode(prog) && GoodFrames(prog, stack') && TellsAs(prog, tid, d, NOT_FIRST, stack', marks)
    requires b.typ == NormalBlock && b.tid == tid && Told(b) == EnterMarks(first) + items
    ensures TellsAs(prog, tid, d.(blocks := [b] + d.blocks), first, stack', items + marks)
  {
    StoryOne(b, tid);
    StoryConcat([b], d.blocks, tid);
    Regroup(Told(b), Story(d.blocks, tid), EnterMarks(d.first), EnterMarks(first), items, marks);
  }

  lemma {:induction false} Regroup(told: seq<Mark>, story: seq<Mark>, pending: seq<Mark>, enter: seq<Mark>,
                                   items: seq<Mark>, marks: seq<Mark>)
    requires told == enter + items && story + pending == [] + marks
    ensures (told + story) + pending == enter + (items + marks)
  {
    assert (told + story) + pending == told + (story + pending);
    assert [] + marks == marks;
    assert (enter + items) + marks == enter + (items + marks);
  }
}
