/** The analyser from end to end: merge the trace, group memory, extract the
    dependencies, find the post-dominators, slice, report the bugs (tools/PrintBug/PrintBug.cpp, lines 484-519). */
module Pipeline {
  import opened Common
  import opened SegmentTrees
  import opened Executions
  import opened MemoryDependency
  import A = AddressIndexes
  import ByteMemory
  import Components
  import Addresses
  import Events
  import Frames
  import Framing
  import G = Grouping
  import GroupMemory
  import Machine
  import Merge
  import MergeTrace
  import Numbering
  import PassedCalls
  import PostDominator
  import Records
  import Recording
  import Slice
  import Slicer
  import SliceSound
  import Soundness
  import TrueBugs

  // -------------------------------------------------------- from group to group

  ghost function EnvOf(prog: Program, index: A.AddressIndex): Env
    reads index
  {
    Env(prog, index.ownerTree, index.shapes)
  }

  /** The address indexes are an environment for the dependency pass. */
  lemma {:induction false} IndexesHold(prog: Program, index: A.AddressIndex)
    requires index.Valid()
    ensures GoodEnv(EnvOf(prog, index)) && Holds(EnvOf(prog, index), index.addr2Group, index.group2Addr)
    ensures OneGroupEach(EnvOf(prog, index))
  {
    var env := EnvOf(prog, index);
    forall g | g in env.groups ensures Fits(env.groups[g], 0, MAX_RANGE) {
      assert A.Rooted(index.group2Addr[g], index.shapes[g], index.nodes[g]);
    }
    InverseOwners(env, index.owner);
  }

  lemma {:induction false} InverseOwners(env: Env, owner: imap<uint64, int>)
    requires Fits(env.owner, 0, MAX_RANGE) && owner == A.OwnerOf(env.owner) && A.Inverse(owner, env.groups)
    ensures GoodEnv(env) && OneGroupEach(env)
  {
    forall x | Look(env.owner, 0, MAX_RANGE, x).Some? ensures Look(env.owner, 0, MAX_RANGE, x).value in env.groups {
      var y := if x == MAX_RANGE then x - 1 else x;
      if x == MAX_RANGE { A.LookPast(env.owner, 0, MAX_RANGE, x); }
      assert y in owner;
      A.InverseAt(owner, env.groups, y);
    }
    forall g, x | x < MAX_RANGE ensures InGroup(env, g, x) <==> Look(env.owner, 0, MAX_RANGE, x) == Some(g) {
      if g in env.groups {
        assert A.Covers(env.groups[g], x) <==> x in owner && owner[x] == g;
      }
      if Look(env.owner, 0, MAX_RANGE, x) == Some(g) {
        assert x in owner;
        A.InverseAt(owner, env.groups, x);
      }
    }
  }

  /** Dependencies point strictly back, but for a call that reads what it has
      itself written. */
  lemma {:induction false} DependsEarlier(env: Env, trace: seq<SmallestBlock>, i: nat, j: nat)
    requires GoodEnv(env) && FormedTrace(env.prog, trace) && i < |trace| && Depends(env, trace, i, j)
    ensures j < i || (j == i && SelfEdge(env, trace[i]))
  {
  }

  /** A call depends on itself exactly if two of its arguments point into one
      group. */
  lemma {:induction false} SelfEdgeExactly(env: Env, b: SmallestBlock)
    requires GoodEnv(env) && OneGroupEach(env)
    ensures SelfEdge(env, b) <==>
              && b.typ in {ExternalCallBlock, ImpactfulCallBlock}
              && exists k, k' :: 1 <= k < k' < |b.addr| && SameGroup(env, b.addr[k], b.addr[k'])
  {
    hide InGroup;
    if SelfEdge(env, b) {
      var k: nat, k': nat, x :| k < k' && ArgReaches(env, b, k, x) && ArgReaches(env, b, k', x);
      var (g, g') := (Look(env.owner, 0, MAX_RANGE, b.addr[k]).value, Look(env.owner, 0, MAX_RANGE, b.addr[k']).value);
      InOneGroup(env, g, g', x);
      assert SameGroup(env, b.addr[k], b.addr[k']);
    }
    if b.typ in {ExternalCallBlock, ImpactfulCallBlock} {
      if k, k' :| 1 <= k < k' < |b.addr| && SameGroup(env, b.addr[k], b.addr[k']) {
        var x := LookedUp(env, b.addr[k]);
        assert ArgReaches(env, b, k, x) && ArgReaches(env, b, k', x);
      }
    }
  }

  ghost predicate SameGroup(env: Env, x: uint64, y: uint64)
    requires GoodEnv(env)
  {
    Look(env.owner, 0, MAX_RANGE, x).Some? && Look(env.owner, 0, MAX_RANGE, x) == Look(env.owner, 0, MAX_RANGE, y)
  }

  lemma {:induction false} InOneGroup(env: Env, g: int, h: int, x: uint64)
    requires GoodEnv(env) && OneGroupEach(env) && InGroup(env, g, x) && InGroup(env, h, x)
    ensures g == h
  {
  }

  lemma {:induction false} LookedUp(env: Env, a: uint64) returns (x: uint64)
    requires GoodEnv(env) && OneGroupEach(env) && Look(env.owner, 0, MAX_RANGE, a).Some?
    ensures InGroup(env, Look(env.owner, 0, MAX_RANGE, a).value, x)
  {
    x := if a == MAX_RANGE then a - 1 else a;
    if a == MAX_RANGE { A.LookPast(env.owner, 0, MAX_RANGE, a); }
    assert InGroup(env, Look(env.owner, 0, MAX_RANGE, a).value, x) <==>
          Look(env.owner, 0, MAX_RANGE, x) == Look(env.owner, 0, MAX_RANGE, a);
  }

  // ---------------------------------------------------------- from byte to slice

  type Links = Soundness.Links

  /** A thread executes an instruction either always or never as a call that the
      slicer passes over. */
  ghost predicate Unmixed(prog: Program, trace: seq<SmallestBlock>)
    requires Numbering.TypedTrace(prog, trace)
  {
    forall i, j :: 0 <= i < |trace| && 0 <= j < |trace| && IsAccess(trace[i]) && IsAccess(trace[j])
                   && KeyOf(prog, trace[i]) == KeyOf(prog, trace[j]) ==>
      (Skipped(prog, trace[i]) <==> Skipped(prog, trace[j]))
  }

  /** The environment and the scan are of one program and trace. */
  ghost predicate Matched(env: Env, ctx: Slice.Context) {
    GoodEnv(env) && ctx.Good() && env.prog == ctx.prog && Numbering.TypedTrace(ctx.prog, ctx.trace)
  }

  /** A relation between blocks: dependence as the dependency pass sees it ... */
  ghost function Seen(env: Env, ctx: Slice.Context): Links
    requires Matched(env, ctx)
  {
    (i: nat, j: nat) => i < |ctx.trace| && Depends(env, ctx.trace, i, j)
  }

  /** ... and as it truly is, with atomic accesses and without calls that are passed over. */
  ghost function Real(env: Env, ctx: Slice.Context): Links
    requires Matched(env, ctx)
  {
    (i: nat, j: nat) => i < |ctx.trace| && PassedCalls.RealDepends(env, ctx.trace, i, j)
  }

  /** Execution m reads a byte that execution q was last to write. */
  ghost predicate ByteDep(ctx: Slice.Context, dep: Links, m: nat, q: nat) {
    q < m < |ctx.E| && BlockDep(ctx.trace, dep, ctx.E[m].block, ctx.E[q].block)
  }

  ghost predicate BlockDep(trace: seq<SmallestBlock>, dep: Links, i: nat, j: nat) {
    i < |trace| && j < |trace| && IsAccess(trace[i]) && IsAccess(trace[j]) && dep(i, j)
  }

  /** What execution m was made with, as far as the passes can tell: the last execution of
      an operand in its thread, the last writer of a byte that the dependency pass takes it
      to read, the call of its function, the return behind a call whose value it uses, and
      the branch to its run. */
  ghost function SeenLinks(env: Env, ctx: Slice.Context): Links
    requires Matched(env, ctx)
  {
    (m: nat, q: nat) =>
      m < |ctx.E| && q < |ctx.E| &&
      (SsaDep(ctx.prog, ctx.E, m, q) || ByteDep(ctx, Seen(env, ctx), m, q) || Soundness.ControlDep(ctx, m, q))
  }

  /** What it was truly made with. */
  ghost function TrueLinks(env: Env, edges: seq<(nat, nat)>, ctx: Slice.Context): Links
    requires Matched(env, ctx)
  {
    (m: nat, q: nat) =>
      || Frames.FrameDep(ctx, m, q) || ByteDep(ctx, Real(env, ctx), m, q) || Frames.TrueCall(ctx, m, q)
      || Frames.TrueReturn(ctx, m, q) || Frames.TrueBranch(ctx, edges, m, q)
  }

  lemma {:induction false} NoneSkipped(prog: Program, trace: seq<SmallestBlock>, i: nat, n: nat)
    requires Numbering.TypedTrace(prog, trace) && Unmixed(prog, trace) && i < |trace| && n <= |trace|
    requires IsAccess(trace[i]) && !Skipped(prog, trace[i])
    ensures Numbering.SkippedFrom(prog, trace, n, KeyOf(prog, trace[i])) == 0
    decreases |trace| - n
  {
    hide Skipped;
    if n < |trace| { NoneSkipped(prog, trace, i, n + 1); }
  }

  /** The number an access has in the dependencies is the slicer's. */
  lemma {:induction false} SameNumber(prog: Program, trace: seq<SmallestBlock>, p: nat)
    requires Numbering.TypedTrace(prog, trace) && Unmixed(prog, trace) && p < |Execs(prog, trace)|
    ensures var i := Execs(prog, trace)[p].block;
            i < |trace| && (IsAccess(trace[i]) ==> Back(prog, trace, i) == DynAt(Execs(prog, trace), p))
  {
    hide Execs, Base, Unmixed, DynAt, Skipped;
    BlockOfExec(prog, trace, p);
    var i := Execs(prog, trace)[p].block;
    if IsAccess(trace[i]) {
      assert !Skipped(prog, trace[i]) && p == Base(prog, trace, i);
      Numbering.NumberingAgrees(prog, trace, i);
      NoneSkipped(prog, trace, i, i + 1);
    }
  }

  /** Byte-level dependencies, as far as the pass sees them, are among those the slicer
      follows. */
  lemma {:induction false} ByteDepFollowed(env: Env, ctx: Slice.Context, m: nat, q: nat)
    requires Matched(env, ctx) && Unmixed(ctx.prog, ctx.trace) && Extracted(env, ctx.trace, ctx.memDep)
    requires ByteDep(ctx, Seen(env, ctx), m, q)
    ensures MemDep(ctx.memDep, ctx.trace, ctx.E, m, q)
  {
    hide Execs, Unmixed, DynAt, Depends;
    var (i, j, trace) := (ctx.E[m].block, ctx.E[q].block, ctx.trace);
    SameNumber(ctx.prog, trace, m);
    SameNumber(ctx.prog, trace, q);
    DependsEarlier(env, trace, i, j);
    assert ExtractedBlock(env, trace, i, ctx.memDep);
    assert DependsBack(env, trace, i, Back(ctx.prog, trace, j));
    assert InDeps(ctx.memDep, DynAt(ctx.E, m), DynAt(ctx.E, q));
  }

  /** What the passes cannot tell makes no difference: no atomic access, and no call that is
      passed over, stands between a byte and who reads it; no deeper frame executes an
      instruction whose value is still to be used; no frame begins with a call that is
      passed over; and no exit of the graph is disturbed. */
  ghost predicate Transparent(env: Env, edges: seq<(nat, nat)>, ctx: Slice.Context)
    requires Matched(env, ctx)
  {
    && PassedCalls.AllPlain(env, ctx.trace) && Frames.Unrepeated(ctx) && Frames.FirstsLooked(ctx)
    && PostDominator.Undisturbed(PostDominator.Read(edges))
  }

  /** Nothing that an impactful call is linked with is reported: on every trace, of the
      links the passes can tell; of the true ones, if that makes no difference. */
  ghost predicate NothingLost(env: Env, edges: seq<(nat, nat)>, ctx: Slice.Context, unneeded: set<DynamicInst>)
    requires Matched(env, ctx)
  {
    && Soundness.Lossless(ctx, SeenLinks(env, ctx), unneeded)
    && (Transparent(env, edges, ctx) ==> Soundness.Lossless(ctx, TrueLinks(env, edges, ctx), unneeded))
  }

  lemma {:induction false} SoundEndToEnd(env: Env, edges: seq<(nat, nat)>, ctx: Slice.Context,
                                         unneeded: set<DynamicInst>)
    requires SlicedAs(ctx.prog, ctx.trace, env, edges, ctx, unneeded)
    requires Numbering.TypedTrace(ctx.prog, ctx.trace) && Unmixed(ctx.prog, ctx.trace)
    ensures NothingLost(env, edges, ctx, unneeded)
  {
    hide Execs, Unmixed, Numbering.TypedTrace, Extracted, Slice.Framed, Slice.ReturnsMarked, Slice.Scanned,
         PostDominator.Answers, Soundness.Lossless, SeenLinks, TrueLinks, Transparent;
    SeenSound(env, ctx, unneeded);
    if Transparent(env, edges, ctx) { RealSound(env, edges, ctx, unneeded); }
  }

  lemma {:induction false} SeenSound(env: Env, ctx: Slice.Context, unneeded: set<DynamicInst>)
    requires Matched(env, ctx) && Unmixed(ctx.prog, ctx.trace) && Extracted(env, ctx.trace, ctx.memDep)
    requires Slice.Framed(ctx.prog, ctx.trace) && Slice.ReturnsMarked(ctx.prog, ctx.trace)
    requires unneeded == Slice.Scanned(ctx, 0).unneeded
    ensures Soundness.Lossless(ctx, SeenLinks(env, ctx), unneeded)
  {
    hide Execs, Unmixed, Extracted, Slice.Framed, Slice.ReturnsMarked, Slice.Scanned, Seen, ByteDep,
         Soundness.Lossless, SsaDep, MemDep, Soundness.ControlDep, Matched;
    MatchedGood(env, ctx);
    Soundness.ScannedSound(ctx);
    forall m: nat, q: nat | m < |ctx.E| && q < |ctx.E| && SeenLinks(env, ctx)(m, q)
      ensures Soundness.Followed(ctx)(m, q)
    {
      if ByteDep(ctx, Seen(env, ctx), m, q) { ByteDepFollowed(env, ctx, m, q); }
    }
    Soundness.FewerLinks(ctx, SeenLinks(env, ctx), Soundness.Followed(ctx), unneeded);
  }

  lemma {:induction false} RealSound(env: Env, edges: seq<(nat, nat)>, ctx: Slice.Context, unneeded: set<DynamicInst>)
    requires Matched(env, ctx) && Transparent(env, edges, ctx) && PostDominator.Answers(edges, ctx.postDom)
    requires Soundness.Lossless(ctx, SeenLinks(env, ctx), unneeded)
    ensures Soundness.Lossless(ctx, TrueLinks(env, edges, ctx), unneeded)
  {
    hide Matched, Transparent, Soundness.Lossless, SeenLinks, TrueLinks, PostDominator.Answers;
    MatchedGood(env, ctx);
    forall m: nat, q: nat | m < |ctx.E| && q < |ctx.E| && TrueLinks(env, edges, ctx)(m, q)
      ensures SeenLinks(env, ctx)(m, q)
    {
      TrueLinkSeen(env, edges, ctx, m, q);
    }
    Soundness.FewerLinks(ctx, TrueLinks(env, edges, ctx), SeenLinks(env, ctx), unneeded);
  }

  lemma {:induction false} MatchedGood(env: Env, ctx: Slice.Context)
    requires Matched(env, ctx)
    ensures ctx.Good() && env.prog == ctx.prog && GoodEnv(env) && FormedTrace(ctx.prog, ctx.trace)
  {
    TypedGood(ctx.prog, ctx.trace);
  }

  /** If it makes no difference, the passes can tell all true links. */
  lemma {:induction false} TrueLinkSeen(env: Env, edges: seq<(nat, nat)>, ctx: Slice.Context, m: nat, q: nat)
    requires Matched(env, ctx) && Transparent(env, edges, ctx) && PostDominator.Answers(edges, ctx.postDom)
    requires m < |ctx.E| && q < |ctx.E| && TrueLinks(env, edges, ctx)(m, q)
    ensures SeenLinks(env, ctx)(m, q)
  {
    hide Matched, PassedCalls.AllPlain, PassedCalls.RealDepends, Depends, Frames.Unrepeated, Frames.FirstsLooked,
         PostDominator.Undisturbed, PostDominator.Answers, SsaDep, Soundness.CallDep, Soundness.ReturnDep,
         Soundness.BranchDep, Frames.FrameDep, Frames.TrueCall, Frames.TrueReturn, Frames.TrueBranch;
    MatchedGood(env, ctx);
    if Frames.FrameDep(ctx, m, q) {
      Frames.OperandsExactly(ctx);
    } else if ByteDep(ctx, Real(env, ctx), m, q) {
      PassedCalls.RealSeen(env, ctx.trace, ctx.E[m].block, ctx.E[q].block);
    } else if Frames.TrueCall(ctx, m, q) {
      Frames.TrueCallSeen(ctx, m, q);
    } else if Frames.TrueReturn(ctx, m, q) {
      Frames.TrueReturnSeen(ctx, m, q);
    } else {
      Frames.TrueBranchSeen(ctx, edges, m, q);
    }
  }

  lemma {:induction false} TypedGood(prog: Program, trace: seq<SmallestBlock>)
    requires Numbering.TypedTrace(prog, trace)
    ensures FormedTrace(prog, trace)
  {
  }

  // -------------------------------------------------------------- all passes

  ghost predicate Ordinary(prog: Program, impactful: set<uint64>, events: seq<Events.Event>) {
    forall i :: 0 <= i < |events| ==> Framing.KindMatches(prog, impactful, events[i])
  }

  /** The functions whose calls the slicer passes over are not impactful. */
  ghost predicate FreeHarmless(prog: Program, impactful: set<uint64>, e: Events.Event) {
    e.ReturnEvent? && e.id as int < |prog.ins| && prog.ins[e.id].fun in PASSED_OVER ==> e.fun !in impactful
  }

  /** A run records events of the right kind. */
  lemma {:induction false} RunOrdinary(prog: Program, impactful: set<uint64>, run: seq<Recording.Happening>)
    requires Events.GoodCode(prog) && Recording.Run(prog, impactful, run).Some?
    ensures forall e :: e in Recording.Run(prog, impactful, run).value.events && FreeHarmless(prog, impactful, e) ==>
              Framing.KindMatches(prog, impactful, e)
    decreases |run|
  {
    hide Framing.KindMatches, FreeHarmless, Recording.Possible, Recording.After;
    if run != [] {
      var n := |run| - 1;
      RunOrdinary(prog, impactful, run[..n]);
      var w := Recording.Run(prog, impactful, run[..n]).value;
      AfterOrdinary(prog, impactful, w, run[n]);
    }
  }

  lemma {:induction false} AfterOrdinary(prog: Program, impactful: set<uint64>, w: Recording.World,
                                         h: Recording.Happening)
    requires Events.GoodCode(prog) && Recording.GoodWorld(prog, w) && Recording.Possible(prog, w, h)
    ensures forall e :: e in Recording.After(prog, impactful, w, h).events ==>
              e in w.events || (FreeHarmless(prog, impactful, e) ==> Framing.KindMatches(prog, impactful, e))
  {
    hide Recording.AtRest, Machine.Do;
    if h.Act? {
      Recording.GoodTask(prog, w, h.tid);
      var e := Machine.Emits(prog, h.tid, Recording.TaskOf(w, h.tid), h.action);
      if e.Some? { EmitsOrdinary(prog, impactful, h.tid, Recording.TaskOf(w, h.tid), h.action); }
    }
  }

  lemma {:induction false} EmitsOrdinary(prog: Program, impactful: set<uint64>, tid: Tid, task: Machine.Task,
                                         a: Machine.Action)
    requires Events.GoodCode(prog) && Machine.GoodFrames(prog, task.stack) && Machine.Enabled(prog, task, a)
    requires Machine.Emits(prog, tid, task, a).Some?
    ensures var e := Machine.Emits(prog, tid, task, a).value;
            FreeHarmless(prog, impactful, e) ==> Framing.KindMatches(prog, impactful, e)
  {
  }

  /** If every event is of the kind of its instruction, the passes number
      executions alike. */
  lemma {:induction false} MergedTyped(prog: Program, impactful: set<uint64>, events: seq<Events.Event>,
                                       stale: Option<nat>)
    requires Events.GoodCode(prog) && Ordinary(prog, impactful, events)
    requires Merge.BlockTrace(prog, impactful, events, stale).Some?
    ensures var trace := Merge.BlockTrace(prog, impactful, events, stale).value;
            Numbering.TypedTrace(prog, trace) && Unmixed(prog, trace)
  {
    hide Merge.BlockTrace, Framing.KindMatches, Framing.Plain;
    Framing.GoodCodeProgram(prog);
    Framing.BlockTraceMade(prog, impactful, true, events, stale);
    var trace := Merge.BlockTrace(prog, impactful, events, stale).value;
    forall i | 0 <= i < |trace|
      ensures Executions.GoodBlock(prog, trace[i]) && Framing.Typed(prog, trace[i])
    {
      assert Framing.Made(prog, true, trace[i]);
    }
  }

  lemma {:induction false} ExecsDescribed(prog: Program, trace: seq<SmallestBlock>)
    requires Executions.GoodTrace(prog, trace)
    ensures forall p :: 0 <= p < |Execs(prog, trace)| ==> Execs(prog, trace)[p].id < |prog.ins|
  {
    hide Execs, Base;
    forall p: nat | p < |Execs(prog, trace)| ensures Execs(prog, trace)[p].id < |prog.ins| {
      BlockOfExec(prog, trace, p);
      var i := Execs(prog, trace)[p].block;
      ExecOfBlock(prog, trace, i, p - Base(prog, trace, i));
    }
  }

  /** The environment holds the groups that grouping the trace makes. */
  ghost predicate GroupedAs(prog: Program, trace: seq<SmallestBlock>, env: Env) {
    && env.prog == prog && GoodEnv(env) && OneGroupEach(env) && G.GroupableTrace(prog, trace)
    && var v := G.GroupTrace(prog, trace, 0); v.Some? && A.OwnerOf(env.owner) == v.value.owner
  }

  /** The slicer has been given the extracted dependencies and the blocks that no
      walk escapes, and has scanned the whole trace. */
  ghost predicate SlicedAs(prog: Program, trace: seq<SmallestBlock>, env: Env, edges: seq<(nat, nat)>,
                           ctx: Slice.Context, unneeded: set<DynamicInst>) {
    && ctx.prog == prog && ctx.trace == trace && ctx.Good() && GoodEnv(env) && env.prog == prog
    && FormedTrace(prog, trace) && Extracted(env, trace, ctx.memDep)
    && PostDominator.Answers(edges, ctx.postDom)
    && Slice.Framed(prog, trace) && Slice.ReturnsMarked(prog, trace)
    && unneeded == Slice.Scanned(ctx, 0).unneeded
  }

  /** The bugs are what is connected, through what the report looks up or through an
      address, with an unneeded instruction; the accesses recorded under an address are
      those the scan passed without keeping them; a bug holds unneeded instructions only,
      exactly if none that was kept later shares an address with one that was not; and if
      operands are found and no phi node takes part, bugs are what is truly connected. */
  ghost predicate Reported(ctx: Slice.Context, unneeded: set<DynamicInst>, bugs: seq<set<nat>>) {
    && ctx.Good()
    && var s := Slice.Scanned(ctx, 0);
       && Addresses.RecordsDropped(ctx, 0, s)
       && Components.Reports(ctx.prog, ctx.memDep, unneeded, s.sameAddr, bugs)
       && ((forall k :: 0 <= k < |bugs| ==> bugs[k] <= Components.IdsOf(unneeded)) <==>
             Components.AddressesAgree(unneeded, s.sameAddr))
       && (TrueBugs.AllFound(ctx, unneeded) && TrueBugs.PhisApart(ctx, unneeded) ==>
             TrueBugs.TrulyReports(ctx, unneeded, s.sameAddr, bugs))
  }

  /** The blocks tell what the events recorded; and earlier blocks are extracted for a block
      exactly if what it takes from memory depends on them. */
  ghost predicate ReadAs(prog: Program, impactful: set<uint64>, events: seq<Events.Event>, trace: seq<SmallestBlock>,
                         env: Env, memDep: DepMap) {
    && Records.Tell(prog, impactful, events, Records.Own(trace))
    && env.prog == prog && ByteMemory.Ready(env, trace)
    && forall i: nat, j: nat :: j < i < |trace| && IsAccess(trace[i]) && IsAccess(trace[j]) ==>
         (InDeps(memDep, Back(prog, trace, i), Back(prog, trace, j)) <==> ByteMemory.Matters(env, trace, false, i, j))
  }

  lemma {:induction false} MergedRead(prog: Program, impactful: set<uint64>, events: seq<Events.Event>,
                                      stale: Option<nat>, env: Env, memDep: DepMap)
    requires Events.GoodCode(prog) && Merge.BlockTrace(prog, impactful, events, stale).Some?
    requires var trace := Merge.BlockTrace(prog, impactful, events, stale).value;
             GroupedAs(prog, trace, env) && FormedTrace(prog, trace) && Extracted(env, trace, memDep)
    ensures var trace := Merge.BlockTrace(prog, impactful, events, stale).value;
            ReadAs(prog, impactful, events, trace, env, memDep)
  {
    hide Merge.BlockTrace, G.GroupTrace, OneGroupEach, Extracted, ByteMemory.Matters, Back, Records.Tell, G.Rejected;
    var trace := Merge.BlockTrace(prog, impactful, events, stale).value;
    Records.AccessOrder(prog, impactful, events, stale);
    Records.MergedEven(prog, impactful, events, trace);
    GroupedEven(prog, trace);
    forall i: nat, j: nat | j < i < |trace| && IsAccess(trace[i]) && IsAccess(trace[j])
      ensures InDeps(memDep, Back(prog, trace, i), Back(prog, trace, j)) <==>
              ByteMemory.Matters(env, trace, false, i, j)
    {
      ByteMemory.ExtractedMatters(env, trace, memDep, i, j);
    }
  }

  lemma {:induction false} GroupedEven(prog: Program, trace: seq<SmallestBlock>)
    requires G.GroupableTrace(prog, trace) && G.GroupTrace(prog, trace, 0).Some?
    requires forall i :: 0 <= i < |trace| ==> Records.Even(trace[i])
    ensures ByteMemory.EvenMoves(trace)
  {
    hide G.GroupTrace;
    NoneRejected(prog, trace, 0);
  }

  lemma {:induction false} NoneRejected(prog: Program, trace: seq<SmallestBlock>, i: nat)
    requires G.GroupableTrace(prog, trace) && i <= |trace| && G.GroupTrace(prog, trace, i).Some?
    ensures forall j :: i <= j < |trace| ==> !G.Rejected(trace[j])
    decreases |trace| - i
  {
    hide G.GroupBlock, G.Live, G.Coarser, G.BlockGrouped, G.Rejected;
    if i < |trace| {
      NoneRejected(prog, trace, i + 1);
      G.GroupTraceGroups(prog, trace, i + 1);
      G.GroupBlockKeeps(prog, G.GroupTrace(prog, trace, i + 1).value, trace[i]);
    }
  }

  /** The analysis of one recorded trace. */
  method Analyse(prog: Program, impactful: set<uint64>, events: seq<Events.Event>, stale: Option<nat>,
                 edges: seq<(nat, nat)>)
    returns (ok: bool, trace: seq<SmallestBlock>, ghost env: Env, ghost ctx: Slice.Context,
             unneeded: set<DynamicInst>, bugs: seq<set<nat>>)
    requires Events.GoodCode(prog)
    ensures ok ==> Merge.BlockTrace(prog, impactful, events, stale) == Some(trace)
    ensures ok ==> GroupedAs(prog, trace, env) && SlicedAs(prog, trace, env, edges, ctx, unneeded)
    ensures ok ==> ReadAs(prog, impactful, events, trace, env, ctx.memDep)
    ensures ok && Ordinary(prog, impactful, events) ==>
              Matched(env, ctx) && NothingLost(env, edges, ctx, unneeded)
    ensures ok ==> Reported(ctx, unneeded, bugs)
  {
    hide Merge.BlockTrace, Ordinary, NothingLost, G.GroupTrace, Slice.Framed, Slice.ReturnsMarked, Executions.Execs,
         Slice.Scanned, Reported, PostDominator.Answers, Extracted, Soundness.Lossless, SliceSound.Partition, ReadAs;
    trace, unneeded, bugs, env := [], {}, [], Env(prog, Empty(0), map[]);
    ctx := Slice.Context(prog, map[], map[], [], []);
    var merger := new MergeTrace.Merger(prog, impactful);
    ok := merger.Merge(events, stale);
    if !ok { return; }
    trace := merger.blockTrace;
    Framing.BlockTraceFit(prog, impactful, events, stale);
    var pass := new GroupMemory.Pass(prog);
    ok := pass.GroupMemory(trace);
    if !ok { return; }
    env := EnvOf(prog, pass.addrs);
    IndexesHold(prog, pass.addrs);
    var memDep := ExtractMemoryDependency(env, prog, trace, pass.addrs.addr2Group, pass.addrs.group2Addr);
    ctx, unneeded, bugs := SliceAndReport(env, prog, trace, memDep, edges);
    MergedRead(prog, impactful, events, stale, env, memDep);
    if Ordinary(prog, impactful, events) {
      MergedTyped(prog, impactful, events, stale);
      SoundEndToEnd(env, edges, ctx, unneeded);
    }
  }

  method SliceAndReport(ghost env: Env, prog: Program, trace: seq<SmallestBlock>, memDep: DepMap,
                        edges: seq<(nat, nat)>)
    returns (ghost ctx: Slice.Context, unneeded: set<DynamicInst>, bugs: seq<set<nat>>)
    requires Executions.GoodTrace(prog, trace) && Slice.Framed(prog, trace) && Slice.ReturnsMarked(prog, trace)
    requires GoodEnv(env) && env.prog == prog && FormedTrace(prog, trace)
             && Extracted(env, trace, memDep)
    ensures SlicedAs(prog, trace, env, edges, ctx, unneeded) && ctx.memDep == memDep
    ensures Reported(ctx, unneeded, bugs)
  {
    hide Slice.Framed, Slice.ReturnsMarked, Executions.Execs, Slice.Scanned, PostDominator.Answers, Extracted,
         Soundness.Lossless, SliceSound.Partition, Components.Reports, Components.AddressesAgree,
         Addresses.DroppedFrom, TrueBugs.AllFound, TrueBugs.PhisApart, TrueBugs.TrulyReports;
    var postDominators := new PostDominator.PostDominators();
    postDominators.PreparePostDominator(edges);
    var postDom := postDominators.postDominator;
    var slicer := new Slicer.Slicer(prog, memDep, postDom);
    ctx := Slice.Context(prog, memDep, postDom, trace, Execs(prog, trace));
    ExecsDescribed(prog, trace);
    slicer.ExtractUneededOperation(ctx, trace);
    unneeded := slicer.unneeded;
    Addresses.ScannedRecords(ctx, 0);
    bugs := Components.PrintBug(prog, memDep, unneeded, slicer.addr2Unneeded);
    TrueBugs.ReportNumbers(ctx, slicer.kept, slicer.retro, unneeded);
    if TrueBugs.AllFound(ctx, unneeded) && TrueBugs.PhisApart(ctx, unneeded) {
      TrueBugs.BugsTrue(ctx, unneeded, slicer.addr2Unneeded, bugs);
    }
  }
}
