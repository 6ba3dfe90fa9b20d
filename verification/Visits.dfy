/** The frames the scan sees are those of the recorded run, and within a frame each basic
    block is entered from the one before. So it can be told when a walk back through a
    block takes control to have come from the right place. */
module Visits {
  import opened Common
  import opened Executions
  import opened Slice
  import opened SliceSound
  import opened Flags
  import Events
  import Merge
  import Framing
  import Flow
  import Numbering

  /** The trace has been merged from events of the right kind, and the scan passes over no
      first block of a frame. */
  ghost predicate MergedFrom(ctx: Context, impactful: set<uint64>, events: seq<Events.Event>, stale: Option<nat>) {
    && Events.GoodCode(ctx.prog) && ctx.Good()
    && Merge.BlockTrace(ctx.prog, impactful, events, stale) == Some(ctx.trace)
    && Numbering.TypedTrace(ctx.prog, ctx.trace)
    && forall i :: 0 <= i < |ctx.trace| && ctx.trace[i].isFirst > 0 ==> !Skipped(ctx.prog, ctx.trace[i])
  }

  // ----------------------------------------------------------- spots and levels

  lemma {:induction false} FlowsPrefix(prog: Program, blocks: seq<SmallestBlock>, tid: Tid, z: nat)
    requires z <= |blocks| && Flow.Flows(prog, [], blocks, tid).Some?
    ensures Flow.Flows(prog, [], blocks[..z], tid).Some?
  {
    Flow.FlowsConcat(prog, [], blocks[..z], blocks[z..], tid);
    assert blocks[..z] + blocks[z..] == blocks;
  }

  lemma {:induction false} FlowsStep(prog: Program, blocks: seq<SmallestBlock>, tid: Tid, z: nat)
    requires z < |blocks| && Flow.Flows(prog, [], blocks[..z], tid).Some?
    ensures Flow.Flows(prog, [], blocks[..z + 1], tid)
            == Flow.Step(prog, Flow.Flows(prog, [], blocks[..z], tid).value, blocks[z], tid)
  {
    assert blocks[..z + 1][..z] == blocks[..z];
  }

  /** As many frames are open as the marks say. */
  lemma {:induction false} SpotsLevel(prog: Program, blocks: seq<SmallestBlock>, tid: Tid)
    requires Flow.Flows(prog, [], blocks, tid).Some?
    ensures |Flow.Flows(prog, [], blocks, tid).value| == Framing.Level(blocks, tid)
    decreases |blocks|
  {
    hide Flow.Follows;
    if blocks != [] { SpotsLevel(prog, blocks[..|blocks| - 1], tid); }
  }

  /** The frames of the thread once the scan stands before block z of the recorded part. */
  ghost function Spots(ctx: Context, z: nat, tid: Tid): seq<Flow.Spot>
    requires z <= |ctx.trace|
  {
    var r := Flow.Flows(ctx.prog, [], ctx.trace[..z], tid);
    if r.Some? then r.value else []
  }

  /** Up to block n the trace flows; from there on it only closes frames. And the scan
      sees c frames more than there are. */
  ghost predicate Seen(ctx: Context, n: nat, tid: Tid, c: nat)
    requires ctx.Good()
  {
    && n <= |ctx.trace|
    && (forall z: nat :: z <= n ==> Flow.Flows(ctx.prog, [], ctx.trace[..z], tid).Some?
                                    && |Spots(ctx, z, tid)| + c == DepthAt(ctx.prog, ctx.trace, z)(tid))
    && (forall z: nat :: n <= z < |ctx.trace| ==> Closer(ctx.trace[z]))
  }

  /** An empty block that closes a frame. */
  predicate Closer(b: SmallestBlock) { b.typ == NormalBlock && b.start == b.end && b.isLast > 0 }

  lemma {:induction false} ClosersOnly(prog: Program, st: Merge.State, tid: Tid, stack: seq<Merge.StackInfo>,
                                       stale: Option<nat>)
    requires Events.GoodCode(prog) && Merge.GoodStack(prog, stack) && Merge.Closing(prog, st, tid, stack, stale).Some?
    ensures forall b :: b in Merge.Closing(prog, st, tid, stack, stale).value ==> Closer(b)
    decreases |stack|
  {
    hide Events.GoodCode, Merge.ClosingBB;
    if stack != [] { ClosersOnly(prog, st, tid, stack[..|stack| - 1], stale); }
  }

  lemma {:induction false} AllClosers(prog: Program, st: Merge.State, tids: set<Tid>, stale: Option<nat>)
    requires Events.GoodCode(prog) && Merge.GoodState(prog, st) && Merge.ClosingAll(prog, st, tids, stale).Some?
    ensures forall b :: b in Merge.ClosingAll(prog, st, tids, stale).value ==> Closer(b)
    decreases |tids|
  {
    hide Events.GoodCode, Merge.Closing, Merge.GoodStack, Closer;
    if tids != {} {
      var tid := Least(tids);
      Framing.GoodThread(prog, st, tid);
      ClosersOnly(prog, st, tid, Merge.ThreadOf(st, tid).stack, stale);
      assert |tids - {tid}| < |tids|;
      AllClosers(prog, st, tids - {tid}, stale);
    }
  }

  lemma {:induction false} NonePassedOver(ctx: Context, i: nat, tid: Tid)
    requires ctx.Good() && i <= |ctx.trace|
    requires forall j :: 0 <= j < |ctx.trace| && ctx.trace[j].isFirst > 0 ==> !Skipped(ctx.prog, ctx.trace[j])
    ensures Framing.PassedOver(ctx.prog, ctx.trace, i, tid) == 0
    decreases |ctx.trace| - i
  {
    hide Skipped;
    if i < |ctx.trace| { NonePassedOver(ctx, i + 1, tid); }
  }

  lemma {:induction false} RecordedSeen(ctx: Context, impactful: set<uint64>, events: seq<Events.Event>,
                                        stale: Option<nat>, tid: Tid) returns (n: nat, c: nat)
    requires MergedFrom(ctx, impactful, events, stale)
    ensures Seen(ctx, n, tid, c)
  {
    hide Merge.Merged, Merge.ClosingAll, Numbering.TypedTrace, Flow.Flows, Closer, Skipped, DepthAt, Framing.Level,
         Framing.Nested;
    var st := Merge.Merged(ctx.prog, impactful, events).value;
    var bs := Merge.ClosingAll(ctx.prog, st, Merge.OpenThreads(st), stale).value;
    n := |st.out|;
    c := if Merge.ThreadOf(st, tid).first.0 > 0 then 1 else 0;
    Flow.MergedFlowing(ctx.prog, impactful, events);
    assert Flow.FlowingOf(ctx.prog, st, tid);
    AllClosers(ctx.prog, st, Merge.OpenThreads(st), stale);
    Framing.BlockTraceNested(ctx.prog, impactful, events, stale, tid);
    forall z: nat | z <= n
      ensures Flow.Flows(ctx.prog, [], ctx.trace[..z], tid).Some?
      ensures |Spots(ctx, z, tid)| + c == DepthAt(ctx.prog, ctx.trace, z)(tid)
    {
      assert ctx.trace[..z] == st.out[..z];
      FlowsPrefix(ctx.prog, st.out, tid, z);
      SpotsLevel(ctx.prog, ctx.trace[..z], tid);
      Framing.DepthLevel(ctx.prog, ctx.trace, z, tid);
      NonePassedOver(ctx, z, tid);
    }
    forall z: nat | n <= z < |ctx.trace| ensures Closer(ctx.trace[z]) {
      assert ctx.trace[z] == bs[z - n];
    }
  }

  // ------------------------------------------------------ blocks of one frame

  /** Block z is one of the frame of thread `tid` at level l. */
  ghost predicate OfFrame(ctx: Context, z: nat, tid: Tid, l: int)
    requires ctx.Good()
  {
    z < |ctx.trace| && ctx.trace[z].typ != DeclareBlock && ctx.trace[z].tid == tid && Level(ctx, z) == l
  }

  /** The frame stays open from after block i up to block x. */
  ghost predicate StaysOpen(ctx: Context, i: nat, x: nat, tid: Tid, l: int)
    requires ctx.Good()
  {
    forall z: nat :: i < z <= x ==> LevelFrom(ctx, z, tid, l)
  }

  /** Block x is the next of the frame after block i. */
  ghost predicate NextOf(ctx: Context, i: nat, x: nat, tid: Tid, l: int)
    requires ctx.Good()
  {
    && i < x && OfFrame(ctx, i, tid, l) && OfFrame(ctx, x, tid, l) && StaysOpen(ctx, i, x, tid, l)
    && forall z: nat :: i < z < x ==> !OfFrame(ctx, z, tid, l)
  }

  lemma {:induction false} LevelIs(ctx: Context, z: nat)
    requires ctx.Good() && z < |ctx.trace| && ctx.trace[z].typ != DeclareBlock
    ensures var (b, tid) := (ctx.trace[z], ctx.trace[z].tid);
            Level(ctx, z) == DepthAt(ctx.prog, ctx.trace, z + 1)(tid) + if b.isLast > 0 then 1 else 0
  {
    hide DepthAt;
  }

  lemma {:induction false} LevelFromIs(ctx: Context, x: nat, tid: Tid, l: int)
    requires ctx.Good() && LevelFrom(ctx, x, tid, l)
    ensures x <= |ctx.trace| && DepthAt(ctx.prog, ctx.trace, x)(tid) >= l
  {
  }

  lemma {:induction false} StepCounts(prog: Program, spots: seq<Flow.Spot>, b: SmallestBlock, tid: Tid,
                                      after: seq<Flow.Spot>)
    requires Flow.Step(prog, spots, b, tid) == Some(after) && b.typ != DeclareBlock && b.tid == tid
    ensures |after| == |spots| + (if b.isFirst > 0 then 1 else 0) - if b.isLast > 0 then 1 else 0
  {
    hide Flow.Follows;
  }

  /** Between two of its blocks, a frame stands where the first has left it. */
  lemma {:induction false} SpotStays(ctx: Context, n: nat, c: nat, i: nat, x: nat, tid: Tid, l: int)
    requires ctx.Good() && Seen(ctx, n, tid, c) && i < x <= n && OfFrame(ctx, i, tid, l)
    requires StaysOpen(ctx, i, x, tid, l)
    requires forall z: nat :: i < z < x ==> !OfFrame(ctx, z, tid, l)
    ensures var spots := Spots(ctx, x, tid);
            0 <= l - c - 1 < |spots| && spots[l - c - 1] == Flow.SpotOf(ctx.trace[i])
    decreases x
  {
    hide DepthAt, Flow.Flows, Flow.Step, Level, LevelFrom;
    var z: nat := x - 1;
    assert DepthAt(ctx.prog, ctx.trace, x)(tid) >= l by { LevelFromIs(ctx, x, tid, l); }
    assert LevelFrom(ctx, x, tid, l);
    FlowsStep(ctx.prog, ctx.trace, tid, z);
    var (b, before, after) := (ctx.trace[z], Spots(ctx, z, tid), Spots(ctx, x, tid));
    if z == i {
      LevelIs(ctx, i);
      StepPuts(ctx.prog, before, b, tid, after);
    } else {
      SpotStays(ctx, n, c, i, z, tid, l);
      assert LevelFrom(ctx, z, tid, l);
      if b.typ != DeclareBlock && b.tid == tid {
        LevelIs(ctx, z);
        StepCounts(ctx.prog, before, b, tid, after);
        assert !OfFrame(ctx, z, tid, l);
        assert Level(ctx, z) > l;
      }
      StepLeaves(ctx.prog, before, b, tid, after, l - c - 1);
    }
  }

  /** A block of the thread stands on top, unless it closes its frame. */
  lemma {:induction false} StepPuts(prog: Program, spots: seq<Flow.Spot>, b: SmallestBlock, tid: Tid,
                                    after: seq<Flow.Spot>)
    requires Flow.Step(prog, spots, b, tid) == Some(after) && b.typ != DeclareBlock && b.tid == tid && b.isLast == 0
    ensures after != [] && after[|after| - 1] == Flow.SpotOf(b)
  {
    hide Flow.Follows;
  }

  /** ... and leaves the frames below it alone. */
  lemma {:induction false} StepLeaves(prog: Program, spots: seq<Flow.Spot>, b: SmallestBlock, tid: Tid,
                                      after: seq<Flow.Spot>, k: nat)
    requires Flow.Step(prog, spots, b, tid) == Some(after) && k < |spots| && k < |after|
    requires b.typ != DeclareBlock && b.tid == tid ==>
               k + 1 < |spots| + if b.isFirst > 0 then 1 else 0
    ensures after[k] == spots[k]
  {
    hide Flow.Follows;
  }

  /** In a frame each block follows the one before it. */
  lemma {:induction false} NextFollows(ctx: Context, n: nat, c: nat, i: nat, x: nat, tid: Tid, l: int)
    requires ctx.Good() && Seen(ctx, n, tid, c) && NextOf(ctx, i, x, tid, l) && x < n
    ensures Flow.Follows(ctx.prog, Flow.SpotOf(ctx.trace[i]), ctx.trace[x])
    ensures ctx.trace[i].typ != NormalBlock ==> ctx.trace[i].end == ctx.trace[i].start + 1
  {
    hide DepthAt, Flow.Flows, Flow.Follows, Level;
    SpotStays(ctx, n, c, i, x, tid, l);
    FlowsStep(ctx.prog, ctx.trace, tid, x);
    FlowsStep(ctx.prog, ctx.trace, tid, i);
    LevelIs(ctx, x);
  }
}
