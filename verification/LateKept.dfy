/** What becomes of the executions that those kept late depend on: exactly which of them
    are reported all the same (tools/PrintBug/PrintBug.cpp, lines 173-194). */
module LateKept {
  import opened Common
  import opened Executions
  import opened Slice
  import opened SliceSound
  import opened Flags
  import opened Reasons
  import opened Terminators
  import Frames

  lemma {:induction false} ScannedWhole(ctx: Context)
    requires ctx.Good() && Framed(ctx.prog, ctx.trace) && ReturnsMarked(ctx.prog, ctx.trace)
    ensures Exact(ctx, 0, 0, Scanned(ctx, 0))
    ensures Partition(ctx, Scanned(ctx, 0).kept, Scanned(ctx, 0).retro, Scanned(ctx, 0).unneeded)
  {
    hide Base, Framed, ReturnsMarked, Scanned, Exact, Partition;
    ScannedExactly(ctx, 0);
    ScannedPartition(ctx);
    FirstBase(ctx);
  }

  /** What is known of an execution kept late. */
  lemma {:induction false} LateOf(ctx: Context, p: nat, s: Scan, w: Later) returns (t: Later)
    requires ctx.Good() && LateExact(ctx, p, s) && w in s.late
    ensures w.pos <= |ctx.E| && w.dyn in s.retro && LateReason(ctx, s.kept, s.late, w)
    ensures t in s.late && Head(ctx, t) && t.pos <= |ctx.E| && OfHead(ctx, t, w)
  {
    hide LateReason, WalkDone, OncePerWalk, OfHead;
    assert LateWell(ctx, p, s.retro, s.late, s.walks, w);
    if Head(ctx, w) {
      t := w;
      OwnHead(ctx, t);
    } else {
      t :| t in s.late && Head(ctx, t) && OfHead(ctx, t, w);
      assert LateWell(ctx, p, s.retro, s.late, s.walks, t);
    }
  }

  lemma {:induction false} OwnHead(ctx: Context, t: Later)
    ensures OfHead(ctx, t, t)
  {
  }

  lemma {:induction false} RetroOf(ctx: Context, p: nat, s: Scan, d: DynamicInst) returns (w: Later)
    requires ctx.Good() && LateExact(ctx, p, s) && d in s.retro
    ensures w in s.late && w.dyn == d
  {
    hide LateReason, LateWell, WalkDone, OncePerWalk;
    w :| w in s.late && w.dyn == d;
  }

  /** A walk keeps what it is asked for. */
  lemma {:induction false} Walks(ctx: Context, p: nat, s: Scan, t: Later, k: nat)
    requires ctx.Good() && LateExact(ctx, p, s) && t in s.late && Head(ctx, t) && t.pos <= |ctx.E|
    requires k < |BlockIds(ctx.prog, t.bb)| && AskedAt(ctx, s.kept, s.late, Member(ctx, t, k))
    ensures Spared(ctx, s.kept, s.retro, Member(ctx, t, k).dyn)
  {
    hide LateReason, LateWell, OncePerWalk, AskedAt, Spared, Member;
    assert WalkDone(ctx, s.kept, s.retro, s.late, t);
  }

  lemma {:induction false} OnceOf(ctx: Context, p: nat, s: Scan, v: Later, w: Later)
    requires ctx.Good() && LateExact(ctx, p, s) && v in s.late && w in s.late
    requires v.walk == w.walk && v.index == w.index
    ensures v == w
  {
    hide LateReason, LateWell, WalkDone;
  }

  // ------------------------------------------------ exactly what is reported

  /** d is the terminator some walk starts from. */
  ghost predicate HeadOf(ctx: Context, late: set<Later>, d: DynamicInst) {
    exists t :: t in late && Head(ctx, t) && t.dyn == d
  }

  /** Some walk takes d for an instruction of its block, and is asked for it when it comes
      there. */
  ghost predicate TakenBy(ctx: Context, kept: set<nat>, late: set<Later>, d: DynamicInst)
    requires ctx.Good()
  {
    exists t, k: nat :: t in late && Head(ctx, t) && Takes(ctx, t, k, d) && AskedAt(ctx, kept, late, Member(ctx, t, k))
  }

  ghost predicate Takes(ctx: Context, t: Later, k: nat, d: DynamicInst) {
    t.pos <= |ctx.E| && k < |BlockIds(ctx.prog, t.bb)| && Member(ctx, t, k).dyn == d
  }

  /** An execution is kept, at once or late, exactly if it is asked for, is the terminator
      of a block that is walked, or is asked for when a walk comes to it. */
  lemma {:induction false} SparedExactly(ctx: Context, p: nat, s: Scan, d: DynamicInst)
    requires ctx.Good() && LateExact(ctx, p, s)
    ensures Spared(ctx, s.kept, s.retro, d) <==>
              KeptDyn(ctx, s.kept, d) || HeadOf(ctx, s.late, d) || TakenBy(ctx, s.kept, s.late, d)
  {
    hide AskedAt, KeptDyn, Member, UsedTerminator, LateExact, BlockIds;
    if d in s.retro {
      var w := RetroOf(ctx, p, s, d);
      var t := LateOf(ctx, p, s, w);
      if !Head(ctx, w) { assert Takes(ctx, t, w.index, d); }
    }
    if TakenBy(ctx, s.kept, s.late, d) {
      var t, k: nat :|
        t in s.late && Head(ctx, t) && Takes(ctx, t, k, d) && AskedAt(ctx, s.kept, s.late, Member(ctx, t, k));
      Walks(ctx, p, s, t, k);
    }
    if HeadOf(ctx, s.late, d) {
      var w :| w in s.late && Head(ctx, w) && w.dyn == d;
      var t := LateOf(ctx, p, s, w);
    }
  }

  /** Exactly which executions are reported. */
  lemma {:induction false} ReportedExactly(ctx: Context, r: nat)
    requires ctx.Good() && Framed(ctx.prog, ctx.trace) && ReturnsMarked(ctx.prog, ctx.trace) && r < |ctx.E|
    ensures var (s, d) := (Scanned(ctx, 0), DynAt(ctx.E, r));
            d !in s.unneeded <==>
              || Exempt(ctx, r) || Owed(ctx, s.kept, r) || OwedLate(ctx, s.late, r)
              || HeadOf(ctx, s.late, d) || TakenBy(ctx, s.kept, s.late, d)
  {
    hide Base, Framed, ReturnsMarked, Scanned, KeysExact, DepsExact, LateExact, Owed, OwedLate, HeadOf, TakenBy, DynAt,
         Exempt;
    ScannedWhole(ctx);
    var s := Scanned(ctx, 0);
    SparedExactly(ctx, 0, s, DynAt(ctx.E, r));
    KeptDynAt(ctx, s.kept, r);
  }

  lemma {:induction false} KeptDynAt(ctx: Context, kept: set<nat>, r: nat)
    requires r < |ctx.E|
    ensures KeptDyn(ctx, kept, DynAt(ctx.E, r)) <==> r in kept
  {
    hide DynAt;
    if m: nat :| m in kept && m < |ctx.E| && DynAt(ctx.E, r) == DynAt(ctx.E, m) { DynAtInjective(ctx.E, r, m); }
  }

  // --------------------------------------------------- memory dependencies

  /** The walk that kept w late, or a later one, takes d for an instruction of its block
      that it comes to after w. */
  ghost predicate WalkedAfter(ctx: Context, late: set<Later>, w: Later, d: DynamicInst) {
    exists t, k: nat :: t in late && Head(ctx, t) && Takes(ctx, t, k, d) && Earlier(w, Member(ctx, t, k))
  }

  /** d had been kept late before w was. */
  ghost predicate KeptBefore(late: set<Later>, w: Later, d: DynamicInst) {
    exists v :: v in late && v.dyn == d && Earlier(v, w)
  }

  /** A memory dependency r of an execution kept late is kept if the scan had not come to
      it yet. If it had been dropped, it is reported unless the walk, or one after it,
      still comes to it (or one before it had kept it). */
  lemma {:induction false} LateDependency(ctx: Context, w: Later, r: nat)
    requires ctx.Good() && Framed(ctx.prog, ctx.trace) && ReturnsMarked(ctx.prog, ctx.trace)
    requires w in Scanned(ctx, 0).late && r < |ctx.E| && AnAccess(ctx, r)
    requires InDeps(ctx.memDep, w.dyn, DynAt(ctx.E, r)) && w.dyn != DynAt(ctx.E, r)
    ensures var (s, d) := (Scanned(ctx, 0), DynAt(ctx.E, r));
            && (r < w.pos ==> r in s.kept)
            && (r !in s.kept ==> (d !in s.unneeded <==> WalkedAfter(ctx, s.late, w, d) || KeptBefore(s.late, w, d)))
  {
    hide Base, Framed, ReturnsMarked, Scanned, KeysExact, DepsExact, Owed, DynAt, InDeps, WalkedAfter, KeptBefore,
         LateExact;
    ScannedWhole(ctx);
    var (s, d) := (Scanned(ctx, 0), DynAt(ctx.E, r));
    KeptDynAt(ctx, s.kept, r);
    AccessReported(ctx, r);
    if r < w.pos {
      assert LateDep(ctx, s.late, r + 1, d);
    }
    if WalkedAfter(ctx, s.late, w, d) { TakenAfter(ctx, s, w, d); }
    if d in s.retro { KeptWhen(ctx, s, w, r); }
    if KeptBefore(s.late, w, d) { LateRetro(ctx, s, w, d); }
  }

  lemma {:induction false} AccessReported(ctx: Context, r: nat)
    requires ctx.Good() && r < |ctx.E| && AnAccess(ctx, r)
    ensures !Exempt(ctx, r)
  {
  }

  lemma {:induction false} LateRetro(ctx: Context, s: Scan, w: Later, d: DynamicInst)
    requires ctx.Good() && LateExact(ctx, 0, s) && KeptBefore(s.late, w, d)
    ensures d in s.retro
  {
    hide LateExact, LateReason, OfHead;
    var v :| v in s.late && v.dyn == d && Earlier(v, w);
    var t := LateOf(ctx, 0, s, v);
  }

  lemma {:induction false} TakenAfter(ctx: Context, s: Scan, w: Later, d: DynamicInst)
    requires ctx.Good() && LateExact(ctx, 0, s) && w in s.late && InDeps(ctx.memDep, w.dyn, d)
    requires WalkedAfter(ctx, s.late, w, d)
    ensures Spared(ctx, s.kept, s.retro, d)
  {
    hide AskedWithin, DepBy, KeptDyn, Member, LateExact, InDeps, BlockIds;
    var t, k: nat :| t in s.late && Head(ctx, t) && Takes(ctx, t, k, d) && Earlier(w, Member(ctx, t, k));
    assert EarlierDep(ctx, s.late, Member(ctx, t, k));
    Walks(ctx, 0, s, t, k);
  }

  lemma {:induction false} KeptWhen(ctx: Context, s: Scan, w: Later, r: nat)
    requires ctx.Good() && LateExact(ctx, 0, s) && w in s.late && r < |ctx.E| && AnAccess(ctx, r)
    requires DynAt(ctx.E, r) in s.retro && w.dyn != DynAt(ctx.E, r)
    ensures WalkedAfter(ctx, s.late, w, DynAt(ctx.E, r)) || KeptBefore(s.late, w, DynAt(ctx.E, r))
  {
    hide AskedAt, Member, UsedTerminator, LateExact, DynAt, BlockIds;
    var d := DynAt(ctx.E, r);
    var v := RetroOf(ctx, 0, s, d);
    var t := LateOf(ctx, 0, s, v);
    NotTerminator(ctx, s.kept, r);
    if v.walk == w.walk && v.index == w.index { OnceOf(ctx, 0, s, v, w); }
    if !Earlier(v, w) { assert Takes(ctx, t, v.index, d) && Earlier(w, Member(ctx, t, v.index)); }
  }

  lemma {:induction false} NotTerminator(ctx: Context, kept: set<nat>, r: nat)
    requires ctx.Good() && r < |ctx.E| && AnAccess(ctx, r)
    ensures forall bb :: !UsedTerminator(ctx, kept, DynAt(ctx.E, r), bb)
  {
    hide DynAt, InFrame, RunBegins, RunUsed, Base;
    var d := DynAt(ctx.E, r);
    forall bb ensures !UsedTerminator(ctx, kept, d, bb) {
      if UsedTerminator(ctx, kept, d, bb) {
        var i: nat, l: int, q: nat :| q < |ctx.E| && EndsUsed(ctx, kept, i, d.tid, l, bb, q) && d == DynAt(ctx.E, q);
        DynAtInjective(ctx.E, r, q);
      }
    }
  }

  // -------------------------------------------------------------- operands

  /** The instruction of the block that provides x to w: the last one before w. */
  ghost predicate Provides(ctx: Context, w: Later, j: nat, x: nat) {
    var ids := BlockIds(ctx.prog, w.bb);
    && j < w.index && j < |ids| && ids[j] == x
    && forall i: nat :: j < i < w.index && i < |ids| ==> ids[i] != x
  }

  ghost predicate WalkProvides(ctx: Context, t: Later, w: Later, j: nat, x: nat) {
    t.pos <= |ctx.E| && w.bb == t.bb && OfHead(ctx, t, w) && Provides(ctx, w, j, x)
  }

  /** Execution r is the last of `key` before position p. */
  ghost predicate LatestBefore(ctx: Context, r: nat, p: nat, key: Key) {
    && r < p && r < |ctx.E| && ctx.E[r].Key() == key
    && forall q: nat :: r < q < p && q < |ctx.E| ==> ctx.E[q].Key() != key
  }

  /** An execution kept late asks for instruction x. If its block provides x, what the
      walk takes for it is kept; otherwise the last execution of x that the scan had not
      come to yet. */
  lemma {:induction false} LateOperand(ctx: Context, w: Later, x: nat)
    requires ctx.Good() && Framed(ctx.prog, ctx.trace) && ReturnsMarked(ctx.prog, ctx.trace)
    requires w in Scanned(ctx, 0).late && w.dyn.id < |ctx.prog.ins| && Uses(ctx.prog, w.dyn.id, w.lastBB, x)
    ensures var s := Scanned(ctx, 0);
            && (forall t, j: nat :: t in s.late && Head(ctx, t) && WalkProvides(ctx, t, w, j, x) ==>
                  Spared(ctx, s.kept, s.retro, Member(ctx, t, j).dyn))
            && ((forall j: nat :: !Provides(ctx, w, j, x)) ==>
                  forall r: nat :: LatestBefore(ctx, r, w.pos, (w.dyn.tid, x)) ==> r in s.kept)
  {
    hide Base, Framed, ReturnsMarked, Scanned, KeysExact, DepsExact, LateExact, Owed, Uses;
    ScannedWhole(ctx);
    var s := Scanned(ctx, 0);
    forall t, j: nat | t in s.late && Head(ctx, t) && WalkProvides(ctx, t, w, j, x)
      ensures Spared(ctx, s.kept, s.retro, Member(ctx, t, j).dyn)
    {
      ProvidedKept(ctx, s, t, w, j, x);
    }
    if forall j: nat :: !Provides(ctx, w, j, x) {
      AsksOutside(ctx, w, x);
      LatePosition(ctx, s, w);
      forall r: nat | LatestBefore(ctx, r, w.pos, (w.dyn.tid, x)) ensures r in s.kept {
        assert LateUser(ctx, w, r + 1, ctx.E[r].Key());
      }
    }
  }

  /** The operand r that an execution kept late truly used, in its frame. It is kept if the
      walk asks for its instruction, and either the scan had not come to it, the block does
      not provide it and no deeper frame has executed it again, or the walk takes it for
      what the block provides. If it was not kept when the scan came to it, it is reported
      exactly unless some walk starts from it, or takes it and is asked for it. */
  lemma {:induction false} TrueOperand(ctx: Context, w: Later, q: nat, r: nat)
    requires ctx.Good() && Framed(ctx.prog, ctx.trace) && ReturnsMarked(ctx.prog, ctx.trace)
    requires w in Scanned(ctx, 0).late && r < |ctx.E| && w.pos <= q < |ctx.E| && w.dyn == DynAt(ctx.E, q)
    requires Frames.FrameDep(ctx, q, r)
    ensures var (s, d) := (Scanned(ctx, 0), DynAt(ctx.E, r));
            && (AsksAhead(ctx, w, r) && SsaDep(ctx.prog, ctx.E, q, r) ==> r in s.kept)
            && (AsksFor(ctx, w, r) && ProvidedBy(ctx, s.late, w, r) ==> d !in s.unneeded)
            && (r !in s.kept ==>
                  (d !in s.unneeded <==> Exempt(ctx, r) || HeadOf(ctx, s.late, d) || TakenBy(ctx, s.kept, s.late, d)))
  {
    hide Base, Framed, ReturnsMarked, Scanned, KeysExact, DepsExact, LateExact, Owed, OwedLate, Uses, DynAt, Exempt,
         HeadOf, TakenBy, Provides;
    var (s, d) := (Scanned(ctx, 0), DynAt(ctx.E, r));
    ScannedWhole(ctx);
    KeyOfDyn(ctx, q, w.dyn);
    if AsksFor(ctx, w, r) { LateOperand(ctx, w, ctx.E[r].id); }
    if AsksFor(ctx, w, r) && r < w.pos && SsaDep(ctx.prog, ctx.E, q, r) {
      assert LatestBefore(ctx, r, w.pos, (w.dyn.tid, ctx.E[r].id));
    }
    ReportedExactly(ctx, r);
    KeptDynAt(ctx, s.kept, r);
    if AsksFor(ctx, w, r) && ProvidedBy(ctx, s.late, w, r) {
      var t, j: nat :| t in s.late && Head(ctx, t) && WalkProvides(ctx, t, w, j, ctx.E[r].id)
                       && Takes(ctx, t, j, d);
      SparedExactly(ctx, 0, s, d);
    }
  }

  /** w asks for the instruction that r executes: always, unless it is a phi node that
      chooses another input. */
  ghost predicate AsksFor(ctx: Context, w: Later, r: nat)
    requires r < |ctx.E|
  {
    w.dyn.id < |ctx.prog.ins| && Uses(ctx.prog, w.dyn.id, w.lastBB, ctx.E[r].id)
  }

  /** ... and neither has the scan come to r, nor does w's block provide it. */
  ghost predicate AsksAhead(ctx: Context, w: Later, r: nat)
    requires r < |ctx.E|
  {
    AsksFor(ctx, w, r) && r < w.pos && forall j: nat :: !Provides(ctx, w, j, ctx.E[r].id)
  }

  /** The walk takes r for what w's block provides to w. */
  ghost predicate ProvidedBy(ctx: Context, late: set<Later>, w: Later, r: nat)
    requires r < |ctx.E|
  {
    exists t, j: nat :: t in late && Head(ctx, t) && WalkProvides(ctx, t, w, j, ctx.E[r].id)
                        && Takes(ctx, t, j, DynAt(ctx.E, r))
  }

  lemma {:induction false} KeyOfDyn(ctx: Context, q: nat, d: DynamicInst)
    requires q < |ctx.E| && d == DynAt(ctx.E, q)
    ensures (d.tid, d.id) == ctx.E[q].Key()
  {
  }

  lemma {:induction false} LatePosition(ctx: Context, s: Scan, w: Later)
    requires ctx.Good() && LateExact(ctx, 0, s) && w in s.late
    ensures w.pos <= |ctx.E|
  {
    hide LateExact, LateReason, OfHead;
    var t := LateOf(ctx, 0, s, w);
  }

  /** If the block has x at all, it provides it. */
  lemma {:induction false} ProviderOf(ctx: Context, w: Later, x: nat, n: nat) returns (j: nat)
    requires n <= w.index && n <= |BlockIds(ctx.prog, w.bb)|
    requires exists i: nat :: i < n && BlockIds(ctx.prog, w.bb)[i] == x
    requires forall i: nat :: n <= i < w.index && i < |BlockIds(ctx.prog, w.bb)| ==> BlockIds(ctx.prog, w.bb)[i] != x
    ensures Provides(ctx, w, j, x)
  {
    hide BlockIds;
    if BlockIds(ctx.prog, w.bb)[n - 1] == x { j := n - 1; } else { j := ProviderOf(ctx, w, x, n - 1); }
  }

  lemma {:induction false} AsksOutside(ctx: Context, w: Later, x: nat)
    requires w.dyn.id < |ctx.prog.ins| && Uses(ctx.prog, w.dyn.id, w.lastBB, x)
    requires forall j: nat :: !Provides(ctx, w, j, x)
    ensures Outside(ctx, w, 0, (w.dyn.tid, x))
  {
    hide BlockIds, Provides;
    var ids := BlockIds(ctx.prog, w.bb);
    var n := if w.index < |ids| then w.index else |ids|;
    if i: nat :| i < n && ids[i] == x { var j := ProviderOf(ctx, w, x, n); }
  }

  lemma {:induction false} ProvidedKept(ctx: Context, s: Scan, t: Later, w: Later, j: nat, x: nat)
    requires ctx.Good() && LateExact(ctx, 0, s) && t in s.late && Head(ctx, t) && t.pos <= |ctx.E|
    requires w in s.late && OfHead(ctx, t, w) && Provides(ctx, w, j, x)
    requires w.dyn.id < |ctx.prog.ins| && Uses(ctx.prog, w.dyn.id, w.lastBB, x)
    ensures Spared(ctx, s.kept, s.retro, Member(ctx, t, j).dyn)
  {
    hide EarlierDep, DepBy, Spared, LateExact, BlockIds, Uses;
    var v := Member(ctx, t, j);
    assert Outside(ctx, w, v.index + 1, (v.dyn.tid, v.dyn.id));
    assert AskedWithin(ctx, s.late, v);
    Walks(ctx, 0, s, t, j);
  }

  // --------------------------------------------------------- which execution

  /** How often `key` is executed from position p up to q. */
  ghost function Between(E: seq<Exec>, p: nat, q: nat, key: Key): int
    requires p <= |E| && q < |E|
  {
    CountKey(E, p, key) - CountKey(E, q + 1, key)
  }

  /** The walk takes execution q for instruction k of the block, exactly if from where the
      scan stands up to q the instruction has been executed as often as the terminator
      has up to the one the walk starts from. */
  lemma {:induction false} MemberIs(ctx: Context, t: Later, k: nat, e: nat, q: nat)
    requires t.pos <= |ctx.E| && k < |BlockIds(ctx.prog, t.bb)| && e < |ctx.E| && t.dyn == DynAt(ctx.E, e)
    requires q < |ctx.E| && ctx.E[q].Key() == (t.dyn.tid, BlockIds(ctx.prog, t.bb)[k])
    ensures Member(ctx, t, k).dyn == DynAt(ctx.E, q) <==>
              Between(ctx.E, t.pos, q, ctx.E[q].Key()) == Between(ctx.E, t.pos, e, ctx.E[e].Key())
  {
  }
}
