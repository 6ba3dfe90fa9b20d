/** Why an execution is kept: the slice contains what control, returns, calls and
    data dependences ask for, and nothing else. */
module Reasons {
  import opened Common
  import opened Executions
  import opened Slice
  import opened SliceSound
  import opened Flags
  import opened Terminators

  // ---------------------------------------------------------- asking for keys

  /** Execution m uses the value that `key` had last before position p. */
  ghost predicate UserOf(ctx: Context, m: nat, p: nat, key: Key)
    requires ctx.Good()
  {
    && p <= m < |ctx.E| && ctx.E[m].tid == key.0 && Uses(ctx.prog, ctx.E[m].id, ctx.E[m].lastBB, key.1)
    && forall r: nat :: p <= r < m ==> ctx.E[r].Key() != key
  }

  /** `key` is the call by which a function was entered at block j, an execution of
      which is kept; it has not been executed again between position p and block j. */
  ghost predicate CallerOf(ctx: Context, kept: set<nat>, p: nat, j: nat, key: Key)
    requires ctx.Good()
  {
    && Looked(ctx, j) && p <= Base(ctx.prog, ctx.trace, j) <= |ctx.E|
    && ctx.trace[j].isFirst == 1 && ctx.trace[j].tid == key.0 && ctx.trace[j].caller == Some(key.1)
    && UsedSince(ctx, kept, j, j, key.0, Level(ctx, j))
    && forall r: nat :: p <= r < Base(ctx.prog, ctx.trace, j) ==> ctx.E[r].Key() != key
  }

  /** Something kept from block n on asks for the last execution of `key` before
      position p. */
  ghost predicate KeyOwed(ctx: Context, kept: set<nat>, p: nat, n: nat, key: Key)
    requires ctx.Good()
  {
    || (exists m: nat :: m in kept && UserOf(ctx, m, p, key))
    || (exists j: nat :: n <= j && CallerOf(ctx, kept, p, j, key))
  }

  /** The block reached next in the frame is used, and control need not have come
      there from execution p. */
  ghost predicate BranchOwed(ctx: Context, kept: set<nat>, p: nat)
    requires ctx.Good()
  {
    && IsTerminator(ctx, p)
    && var i := ctx.E[p].block;
       exists bb: nat :: RunUsed(ctx, kept, i, i + 1, ctx.E[p].tid, Level(ctx, i), bb)
           && bb !in PostDominators(ctx.postDom, ctx.trace[i].bb)
  }

  ghost predicate IsReturn(ctx: Context, p: nat)
    requires ctx.Good()
  {
    && p < |ctx.E| && ctx.E[p].block < |ctx.trace| && ctx.trace[ctx.E[p].block].typ == NormalBlock
    && ctx.prog.ins[ctx.E[p].id].typ == ReturnInst
  }

  /** A return that is kept in any case. */
  ghost predicate PlainReturn(ctx: Context, p: nat)
    requires ctx.Good() && IsReturn(ctx, p)
  {
    ReturnVoid(ctx.prog.ins[ctx.E[p].id].code) || ctx.trace[ctx.E[p].block].isLast == 2
  }

  /** The call that a return goes back to. */
  ghost function ReturnsTo(ctx: Context, p: nat): Option<Key>
    requires ctx.Good() && IsReturn(ctx, p)
  {
    var b := ctx.trace[ctx.E[p].block];
    if b.caller.Some? then Some((b.tid, b.caller.value)) else None
  }

  ghost predicate DepOwed(ctx: Context, kept: set<nat>, p: nat, d: DynamicInst)
    requires ctx.Good()
  {
    exists m: nat :: m in kept && p < m < |ctx.E| && InDeps(ctx.memDep, DynAt(ctx.E, m), d)
  }

  ghost predicate AnAccess(ctx: Context, p: nat)
    requires p < |ctx.E|
  {
    ctx.E[p].block < |ctx.trace| && IsAccess(ctx.trace[ctx.E[p].block])
  }

  /** Execution p is asked for by what is kept after it. */
  ghost predicate Owed(ctx: Context, kept: set<nat>, p: nat)
    requires ctx.Good() && p < |ctx.E|
  {
    var n := ctx.E[p].block + 1;
    || Impactful(ctx, p)
    || KeyOwed(ctx, kept, p + 1, n, ctx.E[p].Key())
    || (AnAccess(ctx, p) && DepOwed(ctx, kept, p, DynAt(ctx.E, p)))
    || BranchOwed(ctx, kept, p)
    || (IsReturn(ctx, p) && (PlainReturn(ctx, p)
                             || (ReturnsTo(ctx, p).Some? && KeyOwed(ctx, kept, p + 1, n, ReturnsTo(ctx, p).value))))
  }

  // ---------------------------------------------- what is kept late asks for

  /** Late execution w uses the value of `key`, and no instruction of its block that
      the walk came to afterwards, down to k, provides it. */
  ghost predicate Outside(ctx: Context, w: Later, k: nat, key: Key) {
    && w.dyn.tid == key.0 && w.dyn.id < |ctx.prog.ins| && Uses(ctx.prog, w.dyn.id, w.lastBB, key.1)
    && forall j: nat :: k <= j < w.index && j < |BlockIds(ctx.prog, w.bb)| ==> BlockIds(ctx.prog, w.bb)[j] != key.1
  }

  /** Late execution w asks for the last execution of `key` before position p; it was
      kept late there or after, and `key` was not executed in between. */
  ghost predicate LateUser(ctx: Context, w: Later, p: nat, key: Key)
    requires ctx.Good()
  {
    && Outside(ctx, w, 0, key) && p <= w.pos <= |ctx.E|
    && forall r: nat :: p <= r < w.pos ==> ctx.E[r].Key() != key
  }

  ghost predicate LateOwed(ctx: Context, late: set<Later>, p: nat, key: Key)
    requires ctx.Good()
  {
    exists w :: w in late && LateUser(ctx, w, p, key)
  }

  ghost predicate LateDep(ctx: Context, late: set<Later>, p: nat, d: DynamicInst) {
    exists w :: w in late && p <= w.pos && InDeps(ctx.memDep, w.dyn, d)
  }

  /** Execution p is asked for by what was kept late after it. */
  ghost predicate OwedLate(ctx: Context, late: set<Later>, p: nat)
    requires ctx.Good() && p < |ctx.E|
  {
    || LateOwed(ctx, late, p + 1, ctx.E[p].Key())
    || (AnAccess(ctx, p) && LateDep(ctx, late, p + 1, DynAt(ctx.E, p)))
    || (IsReturn(ctx, p) && ReturnsTo(ctx, p).Some? && LateOwed(ctx, late, p + 1, ReturnsTo(ctx, p).value))
  }

  ghost predicate DepBy(ctx: Context, kept: set<nat>, p: nat, d: DynamicInst)
    requires ctx.Good()
  {
    exists m: nat :: m in kept && p <= m < |ctx.E| && InDeps(ctx.memDep, DynAt(ctx.E, m), d)
  }

  /** The run of basic block bb that begins at block i begins its frame, or comes after
      block i - 1, of another basic block. */
  ghost predicate RunBegins(ctx: Context, i: nat, tid: Tid, l: int, bb: nat)
    requires ctx.Good()
  {
    || (Looked(ctx, i) && ctx.trace[i].isFirst > 0 && ctx.trace[i].tid == tid && Level(ctx, i) == l
        && ctx.trace[i].bb == bb)
    || (0 < i <= |ctx.trace| && ctx.trace[i - 1].typ != DeclareBlock && ctx.trace[i - 1].isLast == 0
        && ctx.trace[i - 1].tid == tid && Level(ctx, i - 1) == l && ctx.trace[i - 1].bb != bb)
  }

  /** Execution q is the first terminator from the beginning of a run of basic block bb of
      which an execution is kept. */
  ghost predicate EndsUsed(ctx: Context, kept: set<nat>, i: nat, tid: Tid, l: int, bb: nat, q: nat)
    requires ctx.Good()
  {
    && RunBegins(ctx, i, tid, l, bb) && RunUsed(ctx, kept, i, i, tid, l, bb)
    && i <= |ctx.trace| && FirstIn(ctx, i, Base(ctx.prog, ctx.trace, i), tid, l, q)
  }

  /** `d` is the terminator of a used run of basic block bb. */
  ghost predicate UsedTerminator(ctx: Context, kept: set<nat>, d: DynamicInst, bb: nat)
    requires ctx.Good()
  {
    exists i: nat, l: int, q: nat :: q < |ctx.E| && EndsUsed(ctx, kept, i, d.tid, l, bb, q) && d == DynAt(ctx.E, q)
  }

  /** Another execution of the same walk asks for w. */
  ghost predicate AskedWithin(ctx: Context, late: set<Later>, w: Later) {
    exists v :: v in late && v.walk == w.walk && w.index < v.index
        && Outside(ctx, v, w.index + 1, (w.dyn.tid, w.dyn.id))
  }

  /** The scan came to v before w. */
  predicate Earlier(v: Later, w: Later) { v.walk < w.walk || (v.walk == w.walk && w.index < v.index) }

  /** Something kept late before w depends on it. */
  ghost predicate EarlierDep(ctx: Context, late: set<Later>, w: Later) {
    exists v :: v in late && Earlier(v, w) && InDeps(ctx.memDep, v.dyn, w.dyn)
  }

  /** When the walk comes to w, something asks for it. */
  ghost predicate AskedAt(ctx: Context, kept: set<nat>, late: set<Later>, w: Later)
    requires ctx.Good()
  {
    AskedWithin(ctx, late, w) || EarlierDep(ctx, late, w) || DepBy(ctx, kept, w.pos, w.dyn)
  }

  /** w is the terminator a walk starts from. */
  predicate Head(ctx: Context, w: Later) { w.index == |BlockIds(ctx.prog, w.bb)| }

  /** Why an execution has been kept late. */
  ghost predicate LateReason(ctx: Context, kept: set<nat>, late: set<Later>, w: Later)
    requires ctx.Good()
  {
    if Head(ctx, w) then UsedTerminator(ctx, kept, w.dyn, w.bb) else AskedAt(ctx, kept, late, w)
  }

  /** The execution that the walk from t takes for instruction k of the block: as many of
      its executions lie behind as of the terminator. */
  ghost function Member(ctx: Context, t: Later, k: nat): Later
    requires k < |BlockIds(ctx.prog, t.bb)| && t.pos <= |ctx.E|
  {
    var id := BlockIds(ctx.prog, t.bb)[k];
    var diff := t.dyn.cnt + CountKey(ctx.E, t.pos, (t.dyn.tid, t.dyn.id));
    Later(DynamicInst(t.dyn.tid, id, diff - CountKey(ctx.E, t.pos, (t.dyn.tid, id))), t.walk, t.pos, t.bb, k, t.lastBB)
  }

  /** w belongs to a walk that is recorded from its terminator on. */
  ghost predicate OfSome(ctx: Context, late: set<Later>, w: Later) {
    exists t :: t in late && Head(ctx, t) && OfHead(ctx, t, w)
  }

  ghost predicate OfHead(ctx: Context, t: Later, w: Later) {
    w == t || (w.index < |BlockIds(ctx.prog, t.bb)| && t.pos <= |ctx.E| && w == Member(ctx, t, w.index))
  }

  /** The walk from t has kept whatever it was asked for. */
  ghost predicate WalkDone(ctx: Context, kept: set<nat>, retro: set<DynamicInst>, late: set<Later>, t: Later)
    requires ctx.Good() && t.pos <= |ctx.E|
  {
    forall k: nat :: k < |BlockIds(ctx.prog, t.bb)| && AskedAt(ctx, kept, late, Member(ctx, t, k)) ==>
      Spared(ctx, kept, retro, Member(ctx, t, k).dyn)
  }

  // ------------------------------------------------------------ the invariant

  /** The pending keys are exactly those asked for, at position p and block n. */
  ghost predicate KeysExact(ctx: Context, p: nat, n: nat, s: Scan)
    requires ctx.Good()
  {
    forall k :: k in s.needed <==> KeyOwed(ctx, s.kept, p, n, k) || LateOwed(ctx, s.late, p, k)
  }

  ghost predicate AskedDep(ctx: Context, p: nat, kept: set<nat>, late: set<Later>, d: DynamicInst)
    requires ctx.Good()
  {
    DepBy(ctx, kept, p, d) || LateDep(ctx, late, p, d)
  }

  /** The pending dependencies are asked for; and all that are asked for are pending, or
      have been kept. Of the executions still to come, all that are asked for are
      pending. */
  ghost predicate DepsExact(ctx: Context, p: nat, s: Scan)
    requires ctx.Good()
  {
    && (forall d :: d in s.memDepended ==> AskedDep(ctx, p, s.kept, s.late, d))
    && (forall d :: AskedDep(ctx, p, s.kept, s.late, d) ==> d in s.memDepended || Spared(ctx, s.kept, s.retro, d))
    && (forall q: nat :: q < p && q < |ctx.E| && LateDep(ctx, s.late, p, DynAt(ctx.E, q)) ==>
          DynAt(ctx.E, q) in s.memDepended)
  }

  ghost predicate KeptExact(ctx: Context, p: nat, kept: set<nat>, late: set<Later>)
    requires ctx.Good()
  {
    forall q: nat :: p <= q < |ctx.E| ==> (q in kept <==> Owed(ctx, kept, q) || OwedLate(ctx, late, q))
  }

  /** Everything kept late has a reason, was kept late at position p or after, and
      makes up `retro`; and every walk has kept what it was asked for. */
  ghost predicate LateExact(ctx: Context, p: nat, s: Scan)
    requires ctx.Good()
  {
    && (forall w :: w in s.late ==>
          LateWell(ctx, p, s.retro, s.late, s.walks, w) && LateReason(ctx, s.kept, s.late, w))
    && (forall d :: d in s.retro ==> exists w :: w in s.late && w.dyn == d)
    && (forall t :: t in s.late && Head(ctx, t) ==> WalkDone(ctx, s.kept, s.retro, s.late, t))
    && OncePerWalk(s.late)
  }

  /** A walk comes to each instruction of its block once. */
  ghost predicate OncePerWalk(late: set<Later>) {
    forall v, w :: v in late && w in late && v.walk == w.walk && v.index == w.index ==> v == w
  }

  ghost predicate LateWell(ctx: Context, p: nat, retro: set<DynamicInst>, late: set<Later>, walks: nat, w: Later)
    requires ctx.Good()
  {
    p <= w.pos <= |ctx.E| && w.walk < walks && w.dyn in retro && (Head(ctx, w) || OfSome(ctx, late, w))
  }

  ghost predicate Exact(ctx: Context, p: nat, n: nat, s: Scan)
    requires ctx.Good()
  {
    KeysExact(ctx, p, n, s) && DepsExact(ctx, p, s) && KeptExact(ctx, p, s.kept, s.late) && LateExact(ctx, p, s)
  }

  // --------------------------------------------------- keeping or dropping p

  /** What is asked for by later blocks does not change when p is kept. */
  lemma {:induction false} UsedSinceSame(ctx: Context, kept: set<nat>, p: nat, i: nat, from: nat, tid: Tid, l: int)
    requires ctx.Good() && p < |ctx.E| && ctx.E[p].block < from
    ensures UsedSince(ctx, kept + {p}, i, from, tid, l) <==> UsedSince(ctx, kept, i, from, tid, l)
  {
    hide InFrame;
    if UsedSince(ctx, kept, i, from, tid, l) {
      var m: nat :| m in kept && m < |ctx.E| && from <= ctx.E[m].block && InFrame(ctx, i, ctx.E[m].block, tid, l);
      assert m in kept + {p};
    }
  }

  lemma {:induction false} RunUsedSame(ctx: Context, kept: set<nat>, p: nat, i: nat, from: nat, tid: Tid, l: int,
                                       bb: nat)
    requires ctx.Good() && p < |ctx.E| && ctx.E[p].block < from
    ensures RunUsed(ctx, kept + {p}, i, from, tid, l, bb) <==> RunUsed(ctx, kept, i, from, tid, l, bb)
  {
    hide InFrame;
    if RunUsed(ctx, kept, i, from, tid, l, bb) {
      var m: nat :| m in kept && m < |ctx.E| && RunReaches(ctx, i, from, tid, l, bb, ctx.E[m].block);
      assert m in kept + {p};
    }
  }

  /** A later block starts at a later position. */
  lemma {:induction false} LaterBase(ctx: Context, p: nat, j: nat)
    requires ctx.Good() && p < |ctx.E| && j < |ctx.trace| && ctx.E[p].block < j
    ensures p < Base(ctx.prog, ctx.trace, j)
  {
    hide Base;
    BlockFrom(ctx, j, p);
  }

  lemma {:induction false} CallerOfStep(ctx: Context, kept: set<nat>, p: nat, j: nat, key: Key)
    requires ctx.Good() && p < |ctx.E| && ctx.E[p].block < j
    ensures CallerOf(ctx, kept, p, j, key) <==> CallerOf(ctx, kept, p + 1, j, key) && key != ctx.E[p].Key()
    ensures CallerOf(ctx, kept + {p}, p, j, key) <==> CallerOf(ctx, kept, p, j, key)
  {
    hide Base, UsedSince, Level, Skipped;
    if Looked(ctx, j) {
      LaterBase(ctx, p, j);
      UsedSinceSame(ctx, kept, p, j, j, key.0, Level(ctx, j));
    }
  }

  lemma {:induction false} UserOfStep(ctx: Context, m: nat, p: nat, key: Key)
    requires ctx.Good() && p < m < |ctx.E|
    ensures UserOf(ctx, m, p, key) <==> UserOf(ctx, m, p + 1, key) && key != ctx.E[p].Key()
  {
    hide Uses;
  }

  /** If p is dropped, what is asked for before it is what was asked for after it,
      but for its own key. */
  lemma {:induction false} KeyOwedDrop(ctx: Context, kept: set<nat>, p: nat, n: nat, key: Key)
    requires ctx.Good() && p < |ctx.E| && n == ctx.E[p].block + 1 && forall m :: m in kept ==> p < m < |ctx.E|
    ensures KeyOwed(ctx, kept, p, n, key) <==> key != ctx.E[p].Key() && KeyOwed(ctx, kept, p + 1, n, key)
  {
    hide UserOf, CallerOf;
    var above := p + 1;
    forall m: nat | m in kept ensures UserOf(ctx, m, p, key) <==> UserOf(ctx, m, above, key) && key != ctx.E[p].Key() {
      UserOfStep(ctx, m, p, key);
    }
    forall j: nat | n <= j
      ensures CallerOf(ctx, kept, p, j, key) <==> CallerOf(ctx, kept, above, j, key) && key != ctx.E[p].Key()
    {
      CallerOfStep(ctx, kept, p, j, key);
    }
  }

  /** If p is kept, it asks for its operands as well. */
  lemma {:induction false} KeyOwedKeep(ctx: Context, kept: set<nat>, p: nat, n: nat, key: Key)
    requires ctx.Good() && p < |ctx.E| && n == ctx.E[p].block + 1
    ensures KeyOwed(ctx, kept + {p}, p, n, key) <==>
              KeyOwed(ctx, kept, p, n, key) || (ctx.E[p].tid == key.0
                  && Uses(ctx.prog, ctx.E[p].id, ctx.E[p].lastBB, key.1))
  {
    hide CallerOf, Uses;
    var kept' := kept + {p};
    forall j: nat | n <= j ensures CallerOf(ctx, kept', p, j, key) <==> CallerOf(ctx, kept, p, j, key) {
      CallerOfStep(ctx, kept, p, j, key);
    }
    if m: nat :| m in kept && UserOf(ctx, m, p, key) { assert m in kept'; }
    if ctx.E[p].tid == key.0 && Uses(ctx.prog, ctx.E[p].id, ctx.E[p].lastBB, key.1) {
      assert p in kept' && UserOf(ctx, p, p, key);
    }
  }

  lemma {:induction false} LateOwedStep(ctx: Context, late: set<Later>, p: nat, key: Key)
    requires ctx.Good() && p < |ctx.E| && forall w :: w in late ==> p < w.pos
    ensures LateOwed(ctx, late, p, key) <==> LateOwed(ctx, late, p + 1, key) && key != ctx.E[p].Key()
  {
    hide Outside;
    var above := p + 1;
    forall w | w in late ensures LateUser(ctx, w, p, key) <==> LateUser(ctx, w, above, key) && key != ctx.E[p].Key() {
    }
  }

  lemma {:induction false} KeysStep(ctx: Context, p: nat, above: nat, n: nat, s: Scan, d: DynamicInst,
                                    lastBB: Option<nat>, isNeeded: bool, report: bool)
    requires ctx.Good() && above == p + 1 && p < |ctx.E| && n == ctx.E[p].block + 1
    requires (forall m :: m in s.kept ==> p < m < |ctx.E|) && (forall w :: w in s.late ==> p < w.pos)
    requires KeysExact(ctx, above, n, s)
    requires d == DynAt(ctx.E, p) && lastBB == ctx.E[p].lastBB && ((d.tid, d.id) in s.needed ==> isNeeded)
    ensures KeysExact(ctx, p, n, Passing(ctx, s, p, d, lastBB, isNeeded, report))
  {
    hide KeyOwed, LateOwed, Uses, Depending, Marked;
    var s' := Passing(ctx, s, p, d, lastBB, isNeeded, report);
    forall k ensures k in s'.needed <==> KeyOwed(ctx, s'.kept, p, n, k) || LateOwed(ctx, s'.late, p, k) {
      KeyOwedDrop(ctx, s.kept, p, n, k);
      KeyOwedKeep(ctx, s.kept, p, n, k);
      LateOwedStep(ctx, s.late, p, k);
    }
  }

  lemma {:induction false} DepByMore(ctx: Context, kept: set<nat>, p: nat, from: nat, d: DynamicInst)
    requires ctx.Good()
    ensures DepBy(ctx, kept, from, d) ==> DepBy(ctx, kept + {p}, from, d)
    ensures from <= p < |ctx.E| && InDeps(ctx.memDep, DynAt(ctx.E, p), d) ==> DepBy(ctx, kept + {p}, from, d)
  {
    hide DynAt, InDeps;
    if m: nat :| m in kept && from <= m < |ctx.E| && InDeps(ctx.memDep, DynAt(ctx.E, m), d) { assert m in kept + {p}; }
    assert p in kept + {p};
  }

  lemma {:induction false} DepByEarlier(ctx: Context, kept: set<nat>, late: set<Later>, p: nat, above: nat,
                                        d: DynamicInst)
    requires ctx.Good() && p <= above
    ensures DepBy(ctx, kept, above, d) ==> DepBy(ctx, kept, p, d)
    ensures LateDep(ctx, late, above, d) ==> LateDep(ctx, late, p, d)
    ensures LateDep(ctx, late, p, d) && (forall w :: w in late ==> above <= w.pos) ==> LateDep(ctx, late, above, d)
  {
    hide DynAt, InDeps;
  }

  lemma {:induction false} DepByOnly(ctx: Context, kept: set<nat>, p: nat, above: nat, d: DynamicInst)
    requires ctx.Good() && p < |ctx.E| && above == p + 1
    ensures DepBy(ctx, kept + {p}, p, d) ==> DepBy(ctx, kept, above, d) || InDeps(ctx.memDep, DynAt(ctx.E, p), d)
    ensures (forall m :: m in kept ==> p < m) && DepBy(ctx, kept, p, d) ==> DepBy(ctx, kept, above, d)
  {
    hide DynAt, InDeps;
  }

  lemma {:induction false} KeptMore(ctx: Context, kept: set<nat>, p: nat, d: DynamicInst)
    requires p < |ctx.E|
    ensures KeptDyn(ctx, kept, d) || d == DynAt(ctx.E, p) ==> KeptDyn(ctx, kept + {p}, d)
  {
    hide DynAt;
    if m: nat :| m in kept && m < |ctx.E| && d == DynAt(ctx.E, m) { assert m in kept + {p}; }
    assert p in kept + {p};
  }

  lemma {:induction false} DepsStep(ctx: Context, p: nat, above: nat, s: Scan, d: DynamicInst, lastBB: Option<nat>,
                                    isNeeded: bool, report: bool)
    requires ctx.Good() && p < |ctx.E| && above == p + 1 && d == DynAt(ctx.E, p) && DepsExact(ctx, above, s)
    requires (forall w :: w in s.late ==> above <= w.pos) && forall m :: m in s.kept ==> p < m
    ensures DepsExact(ctx, p, Passing(ctx, s, p, d, lastBB, isNeeded, report))
  {
    hide DepBy, LateDep, KeptDyn, DynAt, Needing, Marked;
    var s' := Passing(ctx, s, p, d, lastBB, isNeeded, report);
    forall x
      ensures x in s'.memDepended ==> AskedDep(ctx, p, s'.kept, s'.late, x)
      ensures AskedDep(ctx, p, s'.kept, s'.late, x) ==> x in s'.memDepended || Spared(ctx, s'.kept, s'.retro, x)
    {
      assert AskedDep(ctx, above, s.kept, s.late, x) ==> x in s.memDepended || Spared(ctx, s.kept, s.retro, x);
      DepByMore(ctx, s.kept, p, p, x);
      DepByEarlier(ctx, s.kept, s.late, p, above, x);
      DepByOnly(ctx, s.kept, p, above, x);
      KeptMore(ctx, s.kept, p, x);
    }
    forall q: nat | q < p && LateDep(ctx, s'.late, p, DynAt(ctx.E, q)) ensures DynAt(ctx.E, q) in s'.memDepended {
      DepByEarlier(ctx, s.kept, s.late, p, above, DynAt(ctx.E, q));
      if DynAt(ctx.E, q) == d { DynAtInjective(ctx.E, p, q); }
    }
  }

  lemma {:induction false} BlocksAscend(ctx: Context, p: nat, q: nat)
    requires ctx.Good() && p <= q < |ctx.E|
    ensures ctx.E[p].block <= ctx.E[q].block
  {
    hide Base, Execs;
    BlockOfExec(ctx.prog, ctx.trace, q);
    BlockOfExec(ctx.prog, ctx.trace, p);
    var i := ctx.E[p].block;
    BlockFrom(ctx, i, p);
    BlockFrom(ctx, i, q);
  }

  /** Whether q is asked for does not depend on whether p, not after it, is kept. */
  lemma {:induction false} OwedSame(ctx: Context, kept: set<nat>, p: nat, q: nat)
    requires ctx.Good() && p <= q < |ctx.E|
    ensures Owed(ctx, kept + {p}, q) <==> Owed(ctx, kept, q)
  {
    hide KeyOwed, RunUsed, DynAt, InDeps, PostDominators, Level;
    var (kept', n) := (kept + {p}, ctx.E[q].block + 1);
    BlocksAscend(ctx, p, q);
    KeyOwedSame(ctx, kept, p, q + 1, n, ctx.E[q].Key());
    if IsReturn(ctx, q) && ReturnsTo(ctx, q).Some? { KeyOwedSame(ctx, kept, p, q + 1, n, ReturnsTo(ctx, q).value); }
    DepOwedSame(ctx, kept, p, q, DynAt(ctx.E, q));
    BranchSame(ctx, kept, p, q);
  }

  lemma {:induction false} DepOwedSame(ctx: Context, kept: set<nat>, p: nat, q: nat, d: DynamicInst)
    requires ctx.Good() && p <= q
    ensures DepOwed(ctx, kept + {p}, q, d) <==> DepOwed(ctx, kept, q, d)
  {
    hide DynAt, InDeps;
    if m: nat :| m in kept && q < m < |ctx.E| && InDeps(ctx.memDep, DynAt(ctx.E, m), d) { assert m in kept + {p}; }
  }

  lemma {:induction false} BranchSame(ctx: Context, kept: set<nat>, p: nat, q: nat)
    requires ctx.Good() && p <= q < |ctx.E| && ctx.E[p].block <= ctx.E[q].block
    ensures BranchOwed(ctx, kept + {p}, q) <==> BranchOwed(ctx, kept, q)
  {
    hide RunUsed, Level;
    if IsTerminator(ctx, q) {
      var i := ctx.E[q].block;
      var (kept', n, tid, l) := (kept + {p}, i + 1, ctx.E[q].tid, Level(ctx, i));
      forall bb: nat ensures RunUsed(ctx, kept', i, n, tid, l, bb) <==> RunUsed(ctx, kept, i, n, tid, l, bb) {
        RunUsedSame(ctx, kept, p, i, n, tid, l, bb);
      }
    }
  }

  lemma {:induction false} KeyOwedSame(ctx: Context, kept: set<nat>, p: nat, q: nat, n: nat, key: Key)
    requires ctx.Good() && p < |ctx.E| && p < q && ctx.E[p].block < n
    ensures KeyOwed(ctx, kept + {p}, q, n, key) <==> KeyOwed(ctx, kept, q, n, key)
  {
    hide Uses, UsedSince, Base, Level, Skipped;
    var kept' := kept + {p};
    if m: nat :| m in kept && UserOf(ctx, m, q, key) { assert m in kept'; }
    forall j: nat | n <= j && Looked(ctx, j)
      ensures UsedSince(ctx, kept', j, j, key.0, Level(ctx, j)) <==> UsedSince(ctx, kept, j, j, key.0, Level(ctx, j))
    {
      UsedSinceSame(ctx, kept, p, j, j, key.0, Level(ctx, j));
    }
    forall j: nat | n <= j ensures CallerOf(ctx, kept', q, j, key) <==> CallerOf(ctx, kept, q, j, key) {
    }
  }

  lemma {:induction false} KeptStep(ctx: Context, p: nat, above: nat, kept: set<nat>, late: set<Later>, isNeeded: bool,
                                    kept': set<nat>)
    requires ctx.Good() && above == p + 1 && p < |ctx.E| && KeptExact(ctx, above, kept, late) && p !in kept
    requires kept' == if isNeeded then kept + {p} else kept
    requires isNeeded <==> Owed(ctx, kept, p) || OwedLate(ctx, late, p)
    ensures KeptExact(ctx, p, kept', late)
  {
    hide Owed, OwedLate;
    forall q: nat | p <= q < |ctx.E| ensures q in kept' <==> Owed(ctx, kept', q) || OwedLate(ctx, late, q) {
      OwedSame(ctx, kept, p, q);
    }
  }

  lemma {:induction false} ReasonMore(ctx: Context, kept: set<nat>, p: nat, late: set<Later>, w: Later)
    requires ctx.Good() && LateReason(ctx, kept, late, w)
    ensures LateReason(ctx, kept + {p}, late, w)
  {
    hide AskedWithin, EarlierDep, DepBy, RunBegins, RunUsed, FirstIn, Base;
    var kept' := kept + {p};
    DepByMore(ctx, kept, p, w.pos, w.dyn);
    if UsedTerminator(ctx, kept, w.dyn, w.bb) {
      var i: nat, l: int, q: nat :| q < |ctx.E| && EndsUsed(ctx, kept, i, w.dyn.tid, l, w.bb, q)
                                    && w.dyn == DynAt(ctx.E, q);
      RunUsedMore(ctx, kept, kept', i, w.dyn.tid, l, w.bb);
      assert EndsUsed(ctx, kept', i, w.dyn.tid, l, w.bb, q);
    }
  }

  lemma {:induction false} RunUsedMore(ctx: Context, kept: set<nat>, kept': set<nat>, i: nat, tid: Tid, l: int,
                                       bb: nat)
    requires ctx.Good() && kept <= kept' && RunUsed(ctx, kept, i, i, tid, l, bb)
    ensures RunUsed(ctx, kept', i, i, tid, l, bb)
  {
    hide RunReaches;
  }

  lemma {:induction false} LateStep(ctx: Context, p: nat, above: nat, s: Scan, s': Scan)
    requires ctx.Good() && above == p + 1 && LateExact(ctx, above, s)
    requires s'.late == s.late && s'.retro == s.retro && s'.walks == s.walks
    requires s'.kept == s.kept || s'.kept == s.kept + {p}
    ensures LateExact(ctx, p, s')
  {
    hide LateReason, OfSome, WalkDone, OncePerWalk;
    forall w | w in s'.late ensures LateReason(ctx, s'.kept, s'.late, w) { ReasonMore(ctx, s.kept, p, s.late, w); }
    forall t | t in s'.late && Head(ctx, t) ensures WalkDone(ctx, s'.kept, s'.retro, s'.late, t) {
      DoneMore(ctx, p, s, s', t);
    }
  }

  /** Keeping an execution before the walk asks the walk for nothing. */
  lemma {:induction false} DoneMore(ctx: Context, p: nat, s: Scan, s': Scan, t: Later)
    requires ctx.Good() && p < t.pos <= |ctx.E| && WalkDone(ctx, s.kept, s.retro, s.late, t)
    requires s'.late == s.late && s'.retro == s.retro && (s'.kept == s.kept || s'.kept == s.kept + {p})
    ensures WalkDone(ctx, s'.kept, s'.retro, s'.late, t)
  {
    hide AskedWithin, EarlierDep, DynAt, InDeps;
    forall k: nat | k < |BlockIds(ctx.prog, t.bb)| && AskedAt(ctx, s'.kept, s'.late, Member(ctx, t, k))
      ensures Spared(ctx, s'.kept, s'.retro, Member(ctx, t, k).dyn)
    {
      assert AskedAt(ctx, s.kept, s.late, Member(ctx, t, k));
      SparedMore(ctx, s.kept, s'.kept, s.retro, s'.retro, Member(ctx, t, k).dyn);
    }
  }

  lemma {:induction false} PassingExact(ctx: Context, p: nat, above: nat, n: nat, s: Scan, d: DynamicInst,
                                        lastBB: Option<nat>, isNeeded: bool, report: bool)
    requires ctx.Good() && above == p + 1 && p < |ctx.E| && n == ctx.E[p].block + 1
    requires (forall m :: m in s.kept ==> p < m < |ctx.E|) && Exact(ctx, above, n, s)
    requires d == DynAt(ctx.E, p) && lastBB == ctx.E[p].lastBB && ((d.tid, d.id) in s.needed ==> isNeeded)
    requires isNeeded <==> Owed(ctx, s.kept, p) || OwedLate(ctx, s.late, p)
    ensures Exact(ctx, p, n, Passing(ctx, s, p, d, lastBB, isNeeded, report))
  {
    hide KeysExact, DepsExact, KeptExact, Owed, OwedLate, DynAt, Needing, Depending, Marked, LateReason;
    var s' := Passing(ctx, s, p, d, lastBB, isNeeded, report);
    KeysStep(ctx, p, above, n, s, d, lastBB, isNeeded, report);
    DepsStep(ctx, p, above, s, d, lastBB, isNeeded, report);
    KeptStep(ctx, p, above, s.kept, s.late, isNeeded, s'.kept);
    LateStep(ctx, p, above, s, s');
  }

  // -------------------------------------------------------- what is decided

  lemma {:induction false} AccessRight(ctx: Context, p: nat, above: nat, n: nat, s: Scan, b: SmallestBlock)
    requires ctx.Good() && above == p + 1 && p < |ctx.E| && n == ctx.E[p].block + 1 && n <= |ctx.trace|
    requires b == ctx.trace[ctx.E[p].block] && IsAccess(b)
    requires Inv(ctx, above, s) && Exact(ctx, above, n, s)
    ensures AccessNeeded(s, b, DynAt(ctx.E, p)) <==> Owed(ctx, s.kept, p) || OwedLate(ctx, s.late, p)
  {
    hide CountsAt, Reported, Passed, KeyOwed, LateOwed, LateDep, KeptExact, LateExact, DynAt, SsaDep;
    var d := DynAt(ctx.E, p);
    assert (d.tid, d.id) == ctx.E[p].Key() by { DynAtKey(ctx.E, p); }
    if m: nat :| m in s.kept && p < m < |ctx.E| && InDeps(ctx.memDep, DynAt(ctx.E, m), d) {
      assert Waits(ctx, above, m, p, Sets(s.needed, s.memDepended, s.kept));
    }
  }

  lemma {:induction false} DynAtKey(E: seq<Exec>, p: nat)
    requires p < |E|
    ensures (DynAt(E, p).tid, DynAt(E, p).id) == E[p].Key()
  {
  }

  lemma {:induction false} RunUnique(ctx: Context, kept: set<nat>, i: nat, from: nat, tid: Tid, l: int, next: nat,
                                     bb: nat)
    requires ctx.Good() && RunIs(ctx, i, from, tid, l, next) && RunUsed(ctx, kept, i, from, tid, l, bb)
    ensures next == bb
  {
    hide InFrame, RunIs, RunReaches;
    var m: nat :| m in kept && m < |ctx.E| && RunReaches(ctx, i, from, tid, l, bb, ctx.E[m].block);
    RunReachesFirst(ctx, i, from, tid, l, next, bb, ctx.E[m].block);
  }

  lemma {:induction false} RunReachesFirst(ctx: Context, i: nat, from: nat, tid: Tid, l: int, next: nat, bb: nat,
                                           j: nat)
    requires ctx.Good() && RunIs(ctx, i, from, tid, l, next) && RunReaches(ctx, i, from, tid, l, bb, j)
    ensures next == bb
  {
    hide InFrame;
    var x := FirstInFrame(ctx, i, from, j, tid, l);
  }

  /** The top of the stack tells whether a branch is asked for. */
  lemma {:induction false} BranchRight(ctx: Context, p: nat, s: Scan, b: SmallestBlock)
    requires ctx.Good() && IsTerminator(ctx, p) && b == ctx.trace[ctx.E[p].block] && b.tid == ctx.E[p].tid
    requires var i := ctx.E[p].block;
               RunMeans(ctx, i, i + 1, s.kept, s.nextBB) && Heights(s, DepthIn(ctx, i)) && DepthIn(ctx, i)(b.tid) >= 1
    ensures Branches(ctx, s, b) <==> BranchOwed(ctx, s.kept, p)
  {
    hide RunIs, RunUsed, PostDominators;
    var i := ctx.E[p].block;
    HeightAt(s, DepthIn(ctx, i), b.tid);
    var next := StackOf(s.nextBB, b.tid);
    var k: nat := |next| - 1;
    assert k + 1 == Level(ctx, i) && TopOr(next, (b.bb, false)) == next[k];
    assert RunEntry(ctx, i, i + 1, s.kept, b.tid, k + 1, next[k]);
    if bb: nat :|
      RunUsed(ctx, s.kept, i, i + 1, b.tid, Level(ctx, i), bb) && bb !in PostDominators(ctx.postDom, b.bb)
    {
      RunUnique(ctx, s.kept, i, i + 1, b.tid, k + 1, next[k].0, bb);
    }
  }

  lemma {:induction false} NormalRight(ctx: Context, p: nat, above: nat, n: nat, s: Scan, b: SmallestBlock, id: nat)
    requires ctx.Good() && above == p + 1 && InNormal(ctx, p, b, id) && n == ctx.E[p].block + 1
    requires Exact(ctx, above, n, s)
    requires DepthIn(ctx, ctx.E[p].block)(b.tid) >= 1 && Heights(s, DepthIn(ctx, ctx.E[p].block))
    requires var i := ctx.E[p].block; RunMeans(ctx, i, i + 1, s.kept, s.nextBB)
    ensures NormalNeeded(ctx, s, b, DynAt(ctx.E, p)) <==> Owed(ctx, s.kept, p) || OwedLate(ctx, s.late, p)
  {
    hide KeyOwed, LateOwed, LateDep, KeptExact, LateExact, DepsExact, DynAt, Branches, RunMeans, Heights, DepthIn,
         BranchOwed, DepOwed, ReturnVoid;
    DynAtKey(ctx.E, p);
    if ctx.prog.ins[id].typ == TerminatorInst { BranchRight(ctx, p, s, b); }
    if BranchOwed(ctx, s.kept, p) { BranchIs(ctx, s.kept, p); }
  }

  lemma {:induction false} BranchIs(ctx: Context, kept: set<nat>, p: nat)
    requires ctx.Good() && BranchOwed(ctx, kept, p)
    ensures IsTerminator(ctx, p)
  {
  }

  // ------------------------------------------------------ terminators kept late

  ghost predicate OfWalk(t: Later, w: Later) {
    w.walk == t.walk && w.pos == t.pos && w.bb == t.bb && w.lastBB == t.lastBB && w.dyn.tid == t.dyn.tid
  }

  ghost predicate OutsideSome(ctx: Context, late: set<Later>, k: nat, key: Key) {
    exists w :: w in late && Outside(ctx, w, k, key)
  }

  ghost predicate DepOfSome(ctx: Context, late: set<Later>, d: DynamicInst) {
    exists w :: w in late && InDeps(ctx.memDep, w.dyn, d)
  }

  /** What the walk from t asks for, down to instruction k, and why it keeps what it
      keeps. */
  ghost predicate WalkReasons(ctx: Context, t: Later, before: set<DynamicInst>, l: Late, k: nat) {
    && t in l.late
    && (forall w :: w in l.late ==> OfWalk(t, w) && k <= w.index && w.dyn in l.step)
    && (forall d :: d in l.step ==> exists w :: w in l.late && w.dyn == d)
    && (forall key :: key in l.needed <==> OutsideSome(ctx, l.late, k, key))
    && (forall d :: d in l.memDepended ==> d in before || DepOfSome(ctx, l.late, d))
    && (forall w :: w in l.late ==> WalkReason(ctx, before, l.late, w))
  }

  ghost predicate WalkReason(ctx: Context, before: set<DynamicInst>, late: set<Later>, w: Later) {
    Head(ctx, w) || AskedWithin(ctx, late, w) || EarlierDep(ctx, late, w) || w.dyn in before
  }

  lemma {:induction false} WalkMore(ctx: Context, before: set<DynamicInst>, late: set<Later>, late': set<Later>)
    requires late <= late'
    ensures forall d :: DepOfSome(ctx, late, d) ==> DepOfSome(ctx, late', d)
    ensures forall w :: AskedWithin(ctx, late, w) ==> AskedWithin(ctx, late', w)
    ensures forall w :: EarlierDep(ctx, late, w) ==> EarlierDep(ctx, late', w)
    ensures forall w :: WalkReason(ctx, before, late, w) ==> WalkReason(ctx, before, late', w)
  {
    hide Outside, InDeps, BlockIds, Earlier;
    forall w | AskedWithin(ctx, late, w) ensures AskedWithin(ctx, late', w) {
      var v :| v in late && v.walk == w.walk && w.index < v.index
               && Outside(ctx, v, w.index + 1, (w.dyn.tid, w.dyn.id));
      assert v in late';
    }
    forall w | EarlierDep(ctx, late, w) ensures EarlierDep(ctx, late', w) {
      var v :| v in late && Earlier(v, w) && InDeps(ctx.memDep, v.dyn, w.dyn);
      assert v in late';
    }
  }

  /** One instruction further back, a value is still asked for if that instruction
      does not provide it. */
  lemma {:induction false} OutsideStep(ctx: Context, w: Later, bb: nat, k: nat, key: Key)
    requires w.bb == bb && k < |BlockIds(ctx.prog, bb)| && k < w.index
    ensures Outside(ctx, w, k, key) <==> Outside(ctx, w, k + 1, key) && key.1 != BlockIds(ctx.prog, bb)[k]
  {
    hide Uses;
  }

  lemma {:induction false} OutsideOwn(ctx: Context, w: Later, key: Key)
    ensures Outside(ctx, w, w.index, key) <==> key in Operands(ctx.prog, w.dyn.tid, w.dyn.id, w.lastBB)
  {
    hide Uses;
  }

  lemma {:induction false} SomeStep(ctx: Context, t: Later, late: set<Later>, k: nat, key: Key)
    requires k < |BlockIds(ctx.prog, t.bb)| && forall w :: w in late ==> OfWalk(t, w) && k < w.index
    ensures OutsideSome(ctx, late, k, key) <==>
              OutsideSome(ctx, late, k + 1, key) && key != (t.dyn.tid, BlockIds(ctx.prog, t.bb)[k])
  {
    hide Uses;
    var n := k + 1;
    forall w | w in late
      ensures Outside(ctx, w, k, key) <==> Outside(ctx, w, n, key) && key.1 != BlockIds(ctx.prog, t.bb)[k]
      ensures Outside(ctx, w, n, key) ==> key.0 == t.dyn.tid
    {
      OutsideStep(ctx, w, t.bb, k, key);
    }
  }

  lemma {:induction false} SomeOr(ctx: Context, late: set<Later>, w: Later, k: nat, key: Key)
    ensures OutsideSome(ctx, late + {w}, k, key) <==> OutsideSome(ctx, late, k, key) || Outside(ctx, w, k, key)
  {
    hide Outside;
    var late' := late + {w};
    if v :| v in late && Outside(ctx, v, k, key) { assert v in late'; }
    assert w in late';
  }

  lemma {:induction false} DepsOf(ctx: Context, late: set<Later>, w: Later)
    requires w in late
    ensures forall d :: d in Deps(ctx.memDep, w.dyn) ==> DepOfSome(ctx, late, d)
  {
  }

  lemma {:induction false} SkipReasons(ctx: Context, t: Later, before: set<DynamicInst>, l: Late, k: nat)
    requires k < |BlockIds(ctx.prog, t.bb)| && WalkReasons(ctx, t, before, l, k + 1)
    requires (t.dyn.tid, BlockIds(ctx.prog, t.bb)[k]) !in l.needed
    ensures WalkReasons(ctx, t, before, l, k)
  {
    hide Outside, DepOfSome, WalkReason;
    forall key ensures key in l.needed <==> OutsideSome(ctx, l.late, k, key) {
      SomeStep(ctx, t, l.late, k, key);
    }
  }

  lemma {:induction false} KeepReasons(ctx: Context, t: Later, before: set<DynamicInst>, l: Late, w: Later, k: nat)
    requires k < |BlockIds(ctx.prog, t.bb)| && WalkReasons(ctx, t, before, l, k + 1)
    requires OfWalk(t, w) && w.index == k && w.dyn.id == BlockIds(ctx.prog, t.bb)[k]
    requires (t.dyn.tid, w.dyn.id) in l.needed || w.dyn in l.memDepended
    ensures WalkReasons(ctx, t, before, Keep(ctx, l, w), k)
  {
    hide Outside, Uses, DepOfSome, InDeps, AskedWithin, EarlierDep;
    var l' := Keep(ctx, l, w);
    WalkMore(ctx, before, l.late, l'.late);
    forall key ensures key in l'.needed <==> OutsideSome(ctx, l'.late, k, key) {
      SomeStep(ctx, t, l.late, k, key);
      OutsideOwn(ctx, w, key);
      SomeOr(ctx, l.late, w, k, key);
    }
    DepsOf(ctx, l'.late, w);
    if (t.dyn.tid, w.dyn.id) in l.needed {
      AskedBy(ctx, t, l.late, w);
    } else if w.dyn !in before {
      DepBefore(ctx, t, l.late, w);
    }
    assert WalkReason(ctx, before, l'.late, w);
  }

  lemma {:induction false} AskedBy(ctx: Context, t: Later, late: set<Later>, w: Later)
    requires OfWalk(t, w) && forall v :: v in late ==> OfWalk(t, v) && w.index < v.index
    requires OutsideSome(ctx, late, w.index + 1, (t.dyn.tid, w.dyn.id))
    ensures AskedWithin(ctx, late, w)
  {
    hide Outside;
  }

  lemma {:induction false} DepBefore(ctx: Context, t: Later, late: set<Later>, w: Later)
    requires OfWalk(t, w) && forall v :: v in late ==> OfWalk(t, v) && w.index < v.index
    requires DepOfSome(ctx, late, w.dyn)
    ensures EarlierDep(ctx, late, w)
  {
    hide InDeps;
  }

  lemma {:induction false} FirstReasons(ctx: Context, t: Later, before: set<DynamicInst>, k: nat)
    requires k == |BlockIds(ctx.prog, t.bb)| && Head(ctx, t)
    ensures WalkReasons(ctx, t, before, Keep(ctx, Late({}, before, {}, {}), t), k)
  {
    hide Outside, Uses, DepOfSome, InDeps, AskedWithin, EarlierDep;
    var l' := Keep(ctx, Late({}, before, {}, {}), t);
    forall key ensures key in l'.needed <==> OutsideSome(ctx, l'.late, k, key) {
      OutsideOwn(ctx, t, key);
      SomeOr(ctx, {}, t, k, key);
      assert !OutsideSome(ctx, {}, k, key);
    }
    assert l'.late == {} + {t};
    DepsOf(ctx, l'.late, t);
  }

  lemma {:induction false} WalkedReasons(ctx: Context, s: Scan, p: nat, dyn: DynamicInst, lastBB: Option<nat>, bb: nat,
                                         k: nat)
    requires k <= |BlockIds(ctx.prog, bb)|
    ensures WalkReasons(ctx, Terminating(ctx, s.walks, p, dyn, lastBB, bb), s.memDepended,
                        Walked(ctx, s, p, dyn, lastBB, bb, k), k)
    decreases |BlockIds(ctx.prog, bb)| - k
  {
    hide WalkReasons, Keep, BlockIds;
    var t := Terminating(ctx, s.walks, p, dyn, lastBB, bb);
    if k >= |BlockIds(ctx.prog, bb)| {
      FirstReasons(ctx, t, s.memDepended, k);
    } else {
      WalkedReasons(ctx, s, p, dyn, lastBB, bb, k + 1);
      var l := Walked(ctx, s, p, dyn, lastBB, bb, k + 1);
      var d := Beside(s.count, dyn, BlockIds(ctx.prog, bb)[k]);
      if (d.tid, d.id) in l.needed || d in l.memDepended {
        KeepReasons(ctx, t, s.memDepended, l, Later(d, s.walks, p, bb, k, lastBB), k);
      } else {
        SkipReasons(ctx, t, s.memDepended, l, k);
      }
    }
  }

  /** The walk takes its executions by number, as `Member` says. */
  lemma {:induction false} BesideMember(ctx: Context, s: Scan, p: nat, dyn: DynamicInst, lastBB: Option<nat>, bb: nat,
                                        k: nat)
    requires p <= |ctx.E| && CountsAt(ctx.E, p, s.count) && k < |BlockIds(ctx.prog, bb)|
    ensures Later(Beside(s.count, dyn, BlockIds(ctx.prog, bb)[k]), s.walks, p, bb, k, lastBB)
            == Member(ctx, Terminating(ctx, s.walks, p, dyn, lastBB, bb), k)
  {
    var id := BlockIds(ctx.prog, bb)[k];
    assert Tally(s.count, (dyn.tid, dyn.id)) == CountKey(ctx.E, p, (dyn.tid, dyn.id));
    assert Tally(s.count, (dyn.tid, id)) == CountKey(ctx.E, p, (dyn.tid, id));
  }

  lemma {:induction false} WalkedMembers(ctx: Context, s: Scan, p: nat, dyn: DynamicInst, lastBB: Option<nat>, bb: nat,
                                         k: nat)
    requires p <= |ctx.E| && CountsAt(ctx.E, p, s.count)
    ensures forall w :: w in Walked(ctx, s, p, dyn, lastBB, bb, k).late ==>
              OfHead(ctx, Terminating(ctx, s.walks, p, dyn, lastBB, bb), w)
    decreases |BlockIds(ctx.prog, bb)| - k
  {
    hide CountsAt, Beside, Member;
    if k < |BlockIds(ctx.prog, bb)| {
      WalkedMembers(ctx, s, p, dyn, lastBB, bb, k + 1);
      BesideMember(ctx, s, p, dyn, lastBB, bb, k);
    }
  }

  /** The walk down to j continues the walk down to k. */
  lemma {:induction false} WalkedAbove(ctx: Context, s: Scan, p: nat, dyn: DynamicInst, lastBB: Option<nat>, bb: nat,
                                       j: nat, k: nat)
    requires j <= k <= |BlockIds(ctx.prog, bb)|
    ensures var (l, l') := (Walked(ctx, s, p, dyn, lastBB, bb, k), Walked(ctx, s, p, dyn, lastBB, bb, j));
            l.step <= l'.step && forall w :: w in l'.late && k <= w.index ==> w in l.late
    decreases k - j
  {
    hide Beside, BlockIds;
    if j < k { WalkedAbove(ctx, s, p, dyn, lastBB, bb, j + 1, k); }
  }

  /** The pending keys after a walk. */
  lemma {:induction false} WalkKeys(ctx: Context, p: nat, n: nat, s: Scan, l: Late, key: Key)
    requires ctx.Good() && p <= |ctx.E| && forall w :: w in l.late ==> w.pos == p
    ensures LateOwed(ctx, s.late + l.late, p, key) <==>
              LateOwed(ctx, s.late, p, key) || OutsideSome(ctx, l.late, 0, key)
  {
    hide Outside;
    var late := s.late + l.late;
    if w :| w in s.late && LateUser(ctx, w, p, key) { assert w in late; }
    if w :| w in l.late && Outside(ctx, w, 0, key) { assert w in late && LateUser(ctx, w, p, key); }
  }

  lemma {:induction false} LateDepOr(ctx: Context, p: nat, a: set<Later>, b: set<Later>, d: DynamicInst)
    requires forall w :: w in b ==> w.pos == p
    ensures LateDep(ctx, a + b, p, d) <==> LateDep(ctx, a, p, d) || DepOfSome(ctx, b, d)
  {
    hide InDeps;
    var c := a + b;
    if w :| w in a && p <= w.pos && InDeps(ctx.memDep, w.dyn, d) { assert w in c; }
    if w :| w in b && InDeps(ctx.memDep, w.dyn, d) { assert w in c; }
  }

  /** What a walk depends on is pending, or part of the walk. */
  lemma {:induction false} StepDeps(ctx: Context, lastBB: Option<nat>, tid: Tid, l: Late, d: DynamicInst)
    requires NeedsMet(ctx.prog, ctx.memDep, lastBB, tid, l.step, {}, l.needed, l.memDepended)
    requires GoodProgram(ctx.prog) && DepOfSome(ctx, l.late, d)
    requires forall w :: w in l.late ==> w.dyn in l.step && w.dyn.id < |ctx.prog.ins|
    ensures d in l.memDepended || d in l.step
  {
    hide InDeps, Uses;
  }

  lemma {:induction false} WalkedIds(ctx: Context, s: Scan, p: nat, dyn: DynamicInst, lastBB: Option<nat>, bb: nat,
                                     k: nat)
    requires GoodProgram(ctx.prog) && dyn.id < |ctx.prog.ins|
    ensures forall w :: w in Walked(ctx, s, p, dyn, lastBB, bb, k).late ==> w.dyn.id < |ctx.prog.ins|
    decreases |BlockIds(ctx.prog, bb)| - k
  {
    if k < |BlockIds(ctx.prog, bb)| { WalkedIds(ctx, s, p, dyn, lastBB, bb, k + 1); }
  }

  /** What was pending, or is a dependency of the walk, is pending after the walk or
      part of it. */
  lemma {:induction false} WalkedDeps(ctx: Context, s: Scan, p: nat, dyn: DynamicInst, lastBB: Option<nat>, bb: nat,
                                      k: nat, d: DynamicInst)
    requires GoodProgram(ctx.prog) && dyn.id < |ctx.prog.ins| && Passed(s.count, dyn) && k <= |BlockIds(ctx.prog, bb)|
    ensures var l := Walked(ctx, s, p, dyn, lastBB, bb, k);
            d in s.memDepended || DepOfSome(ctx, l.late, d) ==> d in l.memDepended || d in l.step
  {
    hide InDeps, Uses, Passed, WalkReason, OutsideSome, BlockIds, DepOfSome, NeedsMet;
    var l := Walked(ctx, s, p, dyn, lastBB, bb, k);
    WalkedReasons(ctx, s, p, dyn, lastBB, bb, k);
    WalkedMeets(ctx, s, p, dyn, lastBB, bb, k);
    WalkedIds(ctx, s, p, dyn, lastBB, bb, k);
    if DepOfSome(ctx, l.late, d) { StepDeps(ctx, lastBB, dyn.tid, l, d); }
  }

  lemma {:induction false} WalkDeps(ctx: Context, p: nat, s: Scan, dyn: DynamicInst, lastBB: Option<nat>, bb: nat)
    requires Inv(ctx, p, s) && DepsExact(ctx, p, s) && dyn.id < |ctx.prog.ins| && Passed(s.count, dyn)
    ensures DepsExact(ctx, p, BlockKept(ctx, s, p, dyn, lastBB, bb))
  {
    hide CountsAt, AllWait, Reported, DepBy, DynAt, WalkReason, OutsideSome, DepOfSome, LateDep, KeptDyn, Passed,
         BlockIds, Walked;
    var l := Walked(ctx, s, p, dyn, lastBB, bb, 0);
    var s' := BlockKept(ctx, s, p, dyn, lastBB, bb);
    WalkedReasons(ctx, s, p, dyn, lastBB, bb, 0);
    forall d ensures LateDep(ctx, s'.late, p, d) <==> LateDep(ctx, s.late, p, d) || DepOfSome(ctx, l.late, d) {
      LateDepOr(ctx, p, s.late, l.late, d);
    }
    forall d ensures d in s.memDepended || DepOfSome(ctx, l.late, d) ==> d in l.memDepended || d in l.step {
      WalkedDeps(ctx, s, p, dyn, lastBB, bb, 0, d);
    }
    StepPassed(ctx, s, p, dyn, lastBB, bb);
    forall q: nat | q < p && q < |ctx.E| && LateDep(ctx, s'.late, p, DynAt(ctx.E, q))
      ensures DynAt(ctx.E, q) in s'.memDepended
    {
      NotPassed(ctx.E, p, q, s.count);
    }
  }

  lemma {:induction false} StepPassed(ctx: Context, s: Scan, p: nat, dyn: DynamicInst, lastBB: Option<nat>, bb: nat)
    requires GoodProgram(ctx.prog) && dyn.id < |ctx.prog.ins| && Passed(s.count, dyn)
    ensures forall d :: d in Walked(ctx, s, p, dyn, lastBB, bb, 0).step ==> Passed(s.count, d)
  {
    hide Passed, Walked, NeedsMet;
    WalkedMeets(ctx, s, p, dyn, lastBB, bb, 0);
  }

  lemma {:induction false} NotPassed(E: seq<Exec>, p: nat, q: nat, count: map<Key, nat>)
    requires q < p <= |E| && CountsAt(E, p, count)
    ensures !Passed(count, DynAt(E, q))
  {
    var key := E[q].Key();
    assert Tally(count, key) == CountKey(E, p, key);
    CountKeyMono(E, q + 1, p, key);
  }

  // ------------------------------------------------- what a walk leaves behind

  /** When the walk comes to instruction k, it keeps it if something asks for it. */
  lemma {:induction false} WalkComplete(ctx: Context, p: nat, s: Scan, dyn: DynamicInst, lastBB: Option<nat>, bb: nat,
                                        k: nat)
    requires Inv(ctx, p, s) && DepsExact(ctx, p, s) && dyn.id < |ctx.prog.ins| && Passed(s.count, dyn)
    requires k < |BlockIds(ctx.prog, bb)| && forall w :: w in s.late ==> p <= w.pos && w.walk < s.walks
    ensures var (s', t) := (BlockKept(ctx, s, p, dyn, lastBB, bb), Terminating(ctx, s.walks, p, dyn, lastBB, bb));
            AskedAt(ctx, s'.kept, s'.late, Member(ctx, t, k)) ==>
              Spared(ctx, s'.kept, s'.retro, Member(ctx, t, k).dyn)
  {
    hide CountsAt, AllWait, Reported, DepBy, DynAt, Passed, WalkReason, Outside, KeptDyn, InDeps, Walked;
    var (s', t) := (BlockKept(ctx, s, p, dyn, lastBB, bb), Terminating(ctx, s.walks, p, dyn, lastBB, bb));
    var (l, l1) := (Walked(ctx, s, p, dyn, lastBB, bb, 0), Walked(ctx, s, p, dyn, lastBB, bb, k + 1));
    var w := Member(ctx, t, k);
    WalkedReasons(ctx, s, p, dyn, lastBB, bb, 0);
    WalkedReasons(ctx, s, p, dyn, lastBB, bb, k + 1);
    WalkedAbove(ctx, s, p, dyn, lastBB, bb, 0, k);
    WalkedAbove(ctx, s, p, dyn, lastBB, bb, 0, k + 1);
    WalkedDeps(ctx, s, p, dyn, lastBB, bb, k + 1, w.dyn);
    WalkedKeeps(ctx, s, p, dyn, lastBB, bb, k);
    if AskedWithin(ctx, s'.late, w) {
      var v :| v in s'.late && v.walk == w.walk && w.index < v.index
               && Outside(ctx, v, w.index + 1, (w.dyn.tid, w.dyn.id));
      assert v in l1.late;
    } else if EarlierDep(ctx, s'.late, w) {
      var v :| v in s'.late && Earlier(v, w) && InDeps(ctx.memDep, v.dyn, w.dyn);
      if v in s.late {
        assert LateDep(ctx, s.late, p, w.dyn);
      } else {
        assert v in l1.late;
      }
    }
  }

  lemma {:induction false} WalkedKeeps(ctx: Context, s: Scan, p: nat, dyn: DynamicInst, lastBB: Option<nat>, bb: nat,
                                       k: nat)
    requires p <= |ctx.E| && CountsAt(ctx.E, p, s.count) && k < |BlockIds(ctx.prog, bb)|
    ensures var w := Member(ctx, Terminating(ctx, s.walks, p, dyn, lastBB, bb), k);
            var l := Walked(ctx, s, p, dyn, lastBB, bb, k + 1);
            (w.dyn.tid, w.dyn.id) in l.needed || w.dyn in l.memDepended ==>
              w.dyn in Walked(ctx, s, p, dyn, lastBB, bb, k).step
  {
    hide CountsAt, Member, Beside;
    BesideMember(ctx, s, p, dyn, lastBB, bb, k);
  }

  /** What earlier walks were asked for does not change. */
  lemma {:induction false} EarlierAsked(ctx: Context, kept: set<nat>, late: set<Later>, more: set<Later>, n: nat,
                                        w: Later)
    requires ctx.Good() && w.walk < n && forall v :: v in more ==> v.walk == n
    ensures AskedAt(ctx, kept, late + more, w) ==> AskedAt(ctx, kept, late, w)
  {
    hide Outside, InDeps, DepBy;
  }

  lemma {:induction false} WalkLate(ctx: Context, p: nat, s: Scan, dyn: DynamicInst, lastBB: Option<nat>, bb: nat)
    requires Inv(ctx, p, s) && DepsExact(ctx, p, s) && LateExact(ctx, p, s) && UsedTerminator(ctx, s.kept, dyn, bb)
    requires dyn.id < |ctx.prog.ins| && Passed(s.count, dyn)
    ensures LateExact(ctx, p, BlockKept(ctx, s, p, dyn, lastBB, bb))
  {
    hide Inv, DepsExact, Walked, LateReason, OfSome, WalkDone, OncePerWalk, BlockIds;
    PositionIn(ctx, p, s);
    var s' := BlockKept(ctx, s, p, dyn, lastBB, bb);
    forall w | w in s'.late
      ensures LateWell(ctx, p, s'.retro, s'.late, s'.walks, w) && LateReason(ctx, s'.kept, s'.late, w)
    {
      if w in s.late {
        OldLate(ctx, p, s, dyn, lastBB, bb, w);
      } else {
        NewLate(ctx, p, s, dyn, lastBB, bb, w);
      }
    }
    RetroOfLate(ctx, p, s, dyn, lastBB, bb);
    OnceStill(ctx, p, s, dyn, lastBB, bb);
    forall t | t in s'.late && Head(ctx, t) ensures WalkDone(ctx, s'.kept, s'.retro, s'.late, t) {
      WalkDoneStill(ctx, p, s, dyn, lastBB, bb, t);
    }
  }

  lemma {:induction false} OldLate(ctx: Context, p: nat, s: Scan, dyn: DynamicInst, lastBB: Option<nat>, bb: nat,
                                   w: Later)
    requires ctx.Good() && w in s.late && LateWell(ctx, p, s.retro, s.late, s.walks, w)
    requires LateReason(ctx, s.kept, s.late, w)
    ensures var s' := BlockKept(ctx, s, p, dyn, lastBB, bb);
            LateWell(ctx, p, s'.retro, s'.late, s'.walks, w) && LateReason(ctx, s'.kept, s'.late, w)
  {
    hide Walked, UsedTerminator, AskedWithin, EarlierDep, DepBy, OfHead;
    var s' := BlockKept(ctx, s, p, dyn, lastBB, bb);
    WalkMore(ctx, {}, s.late, s'.late);
    if !Head(ctx, w) {
      var t :| t in s.late && Head(ctx, t) && OfHead(ctx, t, w);
      assert t in s'.late;
    }
  }

  lemma {:induction false} NewLate(ctx: Context, p: nat, s: Scan, dyn: DynamicInst, lastBB: Option<nat>, bb: nat,
                                   w: Later)
    requires Inv(ctx, p, s) && DepsExact(ctx, p, s) && UsedTerminator(ctx, s.kept, dyn, bb)
    requires w in Walked(ctx, s, p, dyn, lastBB, bb, 0).late && forall v :: v in s.late ==> v.walk < s.walks
    ensures var s' := BlockKept(ctx, s, p, dyn, lastBB, bb);
            LateWell(ctx, p, s'.retro, s'.late, s'.walks, w) && LateReason(ctx, s'.kept, s'.late, w)
  {
    hide CountsAt, AllWait, Reported, Passed, Walked, UsedTerminator, AskedWithin, EarlierDep, DepBy, OfHead, BlockIds,
         OutsideSome, DepOfSome;
    var (s', l) := (BlockKept(ctx, s, p, dyn, lastBB, bb), Walked(ctx, s, p, dyn, lastBB, bb, 0));
    var t := Terminating(ctx, s.walks, p, dyn, lastBB, bb);
    WalkedReasons(ctx, s, p, dyn, lastBB, bb, 0);
    WalkedMembers(ctx, s, p, dyn, lastBB, bb, 0);
    WalkMore(ctx, {}, l.late, s'.late);
    assert t in s'.late && OfHead(ctx, t, w) && WalkReason(ctx, s.memDepended, l.late, w);
    if Head(ctx, w) { OneTerminator(ctx, s, p, dyn, lastBB, bb, 0, w); }
    if w.dyn in s.memDepended && LateDep(ctx, s.late, p, w.dyn) { PendingEarlier(ctx, p, s, s'.late, w); }
  }

  lemma {:induction false} PendingEarlier(ctx: Context, p: nat, s: Scan, late: set<Later>, w: Later)
    requires LateDep(ctx, s.late, p, w.dyn) && s.late <= late && forall v :: v in s.late ==> v.walk < w.walk
    ensures EarlierDep(ctx, late, w)
  {
    hide InDeps;
    var v :| v in s.late && p <= v.pos && InDeps(ctx.memDep, v.dyn, w.dyn);
    assert v in late && Earlier(v, w);
  }

  lemma {:induction false} RetroOfLate(ctx: Context, p: nat, s: Scan, dyn: DynamicInst, lastBB: Option<nat>, bb: nat)
    requires forall d :: d in s.retro ==> exists w :: w in s.late && w.dyn == d
    ensures var s' := BlockKept(ctx, s, p, dyn, lastBB, bb);
            forall d :: d in s'.retro ==> exists w :: w in s'.late && w.dyn == d
  {
    hide Walked, OutsideSome, WalkReason, DepOfSome;
    var (s', l) := (BlockKept(ctx, s, p, dyn, lastBB, bb), Walked(ctx, s, p, dyn, lastBB, bb, 0));
    WalkedReasons(ctx, s, p, dyn, lastBB, bb, 0);
    forall d | d in s'.retro ensures exists w :: w in s'.late && w.dyn == d {
      if d in s.retro {
        var w :| w in s.late && w.dyn == d;
        assert w in s'.late;
      } else {
        var w :| w in l.late && w.dyn == d;
        assert w in s'.late;
      }
    }
  }

  lemma {:induction false} WalkDoneStill(ctx: Context, p: nat, s: Scan, dyn: DynamicInst, lastBB: Option<nat>, bb: nat,
                                         t: Later)
    requires Inv(ctx, p, s) && DepsExact(ctx, p, s) && LateExact(ctx, p, s)
    requires dyn.id < |ctx.prog.ins| && Passed(s.count, dyn)
    requires t in BlockKept(ctx, s, p, dyn, lastBB, bb).late && Head(ctx, t) && t.pos <= |ctx.E|
    ensures var s' := BlockKept(ctx, s, p, dyn, lastBB, bb); WalkDone(ctx, s'.kept, s'.retro, s'.late, t)
  {
    hide Inv, DepsExact, Walked, LateReason, OfSome, AskedAt, KeptDyn, Passed, OutsideSome, DepOfSome, WalkReason;
    PositionIn(ctx, p, s);
    var (s', l) := (BlockKept(ctx, s, p, dyn, lastBB, bb), Walked(ctx, s, p, dyn, lastBB, bb, 0));
    WalkedReasons(ctx, s, p, dyn, lastBB, bb, 0);
    var ids := BlockIds(ctx.prog, t.bb);
    if t in s.late {
      assert WalkDone(ctx, s.kept, s.retro, s.late, t);
      forall k: nat | k < |ids| && AskedAt(ctx, s'.kept, s'.late, Member(ctx, t, k))
        ensures Spared(ctx, s'.kept, s'.retro, Member(ctx, t, k).dyn)
      {
        EarlierAsked(ctx, s.kept, s.late, l.late, s.walks, Member(ctx, t, k));
      }
    } else {
      OneHead(ctx, s, p, dyn, lastBB, bb, 0, t);
      forall k: nat | k < |ids| && AskedAt(ctx, s'.kept, s'.late, Member(ctx, t, k))
        ensures Spared(ctx, s'.kept, s'.retro, Member(ctx, t, k).dyn)
      {
        WalkComplete(ctx, p, s, dyn, lastBB, bb, k);
      }
    }
  }

  lemma {:induction false} OnceStill(ctx: Context, p: nat, s: Scan, dyn: DynamicInst, lastBB: Option<nat>, bb: nat)
    requires Inv(ctx, p, s) && OncePerWalk(s.late) && forall w :: w in s.late ==> w.walk < s.walks
    ensures OncePerWalk(BlockKept(ctx, s, p, dyn, lastBB, bb).late)
  {
    hide CountsAt, AllWait, Reported, Passed, Walked, Member, OutsideSome, WalkReason, DepOfSome, BlockIds;
    WalkedReasons(ctx, s, p, dyn, lastBB, bb, 0);
    WalkedMembers(ctx, s, p, dyn, lastBB, bb, 0);
  }

  lemma {:induction false} OneHead(ctx: Context, s: Scan, p: nat, dyn: DynamicInst, lastBB: Option<nat>, bb: nat,
                                   k: nat, t: Later)
    requires t in Walked(ctx, s, p, dyn, lastBB, bb, k).late && Head(ctx, t)
    ensures t == Terminating(ctx, s.walks, p, dyn, lastBB, bb)
    decreases |BlockIds(ctx.prog, bb)| - k
  {
    hide BlockIds;
    if k < |BlockIds(ctx.prog, bb)| { OneHead(ctx, s, p, dyn, lastBB, bb, k + 1, t); }
  }

  lemma {:induction false} OneTerminator(ctx: Context, s: Scan, p: nat, dyn: DynamicInst, lastBB: Option<nat>, bb: nat,
                                         k: nat, w: Later)
    requires w in Walked(ctx, s, p, dyn, lastBB, bb, k).late && Head(ctx, w)
    ensures w.dyn == dyn
  {
    hide Walked;
    OneHead(ctx, s, p, dyn, lastBB, bb, k, w);
  }

  lemma {:induction false} BlockKeptExact(ctx: Context, p: nat, n: nat, s: Scan, dyn: DynamicInst, lastBB: Option<nat>,
                                          bb: nat)
    requires Inv(ctx, p, s) && Exact(ctx, p, n, s) && UsedTerminator(ctx, s.kept, dyn, bb)
    requires dyn.id < |ctx.prog.ins| && Passed(s.count, dyn)
    ensures Exact(ctx, p, n, BlockKept(ctx, s, p, dyn, lastBB, bb))
  {
    hide Inv, KeyOwed, LateOwed, LateDep, DepBy, Owed, UsedTerminator, Walked, DepsExact, LateExact, OutsideSome,
         WalkReason, DepOfSome;
    var s' := BlockKept(ctx, s, p, dyn, lastBB, bb);
    var l := Walked(ctx, s, p, dyn, lastBB, bb, 0);
    WalkedReasons(ctx, s, p, dyn, lastBB, bb, 0);
    PositionIn(ctx, p, s);
    forall key ensures key in s'.needed <==> KeyOwed(ctx, s'.kept, p, n, key) || LateOwed(ctx, s'.late, p, key) {
      WalkKeys(ctx, p, n, s, l, key);
    }
    WalkDeps(ctx, p, s, dyn, lastBB, bb);
    WalkLate(ctx, p, s, dyn, lastBB, bb);
    forall q: nat | p <= q < |ctx.E| ensures OwedLate(ctx, s'.late, q) <==> OwedLate(ctx, s.late, q) {
      OwedLateSame(ctx, s.late, l.late, p, q);
    }
  }

  lemma {:induction false} PositionIn(ctx: Context, p: nat, s: Scan)
    requires Inv(ctx, p, s)
    ensures ctx.Good() && p <= |ctx.E|
  {
  }

  /** What is kept late asks for nothing that lies behind. */
  lemma {:induction false} OwedLateSame(ctx: Context, late: set<Later>, more: set<Later>, p: nat, q: nat)
    requires ctx.Good() && p <= q < |ctx.E| && forall w :: w in more ==> w.pos == p
    ensures OwedLate(ctx, late + more, q) <==> OwedLate(ctx, late, q)
  {
    hide Outside, InDeps, DynAt;
    var (late', n) := (late + more, q + 1);
    forall key ensures LateOwed(ctx, late', n, key) <==> LateOwed(ctx, late, n, key) {
      if w :| w in late && LateUser(ctx, w, n, key) { assert w in late'; }
    }
    forall d ensures LateDep(ctx, late', n, d) <==> LateDep(ctx, late, n, d) {
      if w :| w in late && n <= w.pos && InDeps(ctx.memDep, w.dyn, d) { assert w in late'; }
    }
  }

  lemma {:induction false} TerminatorKeptExact(ctx: Context, p: nat, n: nat, s: Scan, b: SmallestBlock, bb: nat)
    requires Inv(ctx, p, s) && TerminatorsPassed(ctx.prog, s) && Exact(ctx, p, n, s)
    requires StackOf(s.terminators, b.tid) != [] && !Top(StackOf(s.terminators, b.tid)).used ==>
               UsedTerminator(ctx, s.kept, Top(StackOf(s.terminators, b.tid)).dyn, bb)
    ensures Exact(ctx, p, n, TerminatorKept(ctx, s, p, b, bb))
  {
    hide Inv, Exact, UsedTerminator, BlockKept, Passed;
    var t := TopOr(StackOf(s.terminators, b.tid), Terminator(bb, NO_TERMINATOR, true));
    if !t.used { BlockKeptExact(ctx, p, n, s, t.dyn, b.lastBB, bb); }
  }

  /** If the run on top of the stack is used and begins here, the terminator on top is that
      of a used run. */
  lemma {:induction false} TopUsed(ctx: Context, i: nat, p: nat, s: Scan, tid: Tid)
    requires ctx.Good() && i <= |ctx.trace| && p == Base(ctx.prog, ctx.trace, i)
    requires RunMeans(ctx, i, i, s.kept, s.nextBB)
    requires AllSettled(ctx, i, p, s) && TerminatorsPassed(ctx.prog, s)
    requires |StackOf(s.nextBB, tid)| == |StackOf(s.terminators, tid)| > 0 && Top(StackOf(s.nextBB, tid)).1
    requires !Top(StackOf(s.terminators, tid)).used
    requires RunBegins(ctx, i, tid, |StackOf(s.nextBB, tid)|, Top(StackOf(s.nextBB, tid)).0)
    ensures UsedTerminator(ctx, s.kept, Top(StackOf(s.terminators, tid)).dyn, Top(StackOf(s.nextBB, tid)).0)
  {
    hide Passed, FirstIn, RunBegins, RunUsed, RunIs, Base, DynAt, Spared;
    var (next, ts) := (StackOf(s.nextBB, tid), StackOf(s.terminators, tid));
    var k: nat := |next| - 1;
    var (e, t) := (next[k], ts[k]);
    assert t.dyn.tid == tid;
    assert RunEntry(ctx, i, i, s.kept, tid, k + 1, e);
    assert Settled(ctx, i, p, s.kept, s.retro, tid, k + 1, t);
    var q: nat :| q < |ctx.E| && FirstIn(ctx, i, p, tid, k + 1, q) && t.dyn == DynAt(ctx.E, q);
    assert EndsUsed(ctx, s.kept, i, tid, k + 1, e.0, q);
  }

  // ---------------------------------------------------------------- one block

  /** Only the stacks and the addresses differ. */
  lemma {:induction false} ExactSame(ctx: Context, p: nat, n: nat, s: Scan, s': Scan)
    requires ctx.Good() && Exact(ctx, p, n, s)
    requires s'.needed == s.needed && s'.memDepended == s.memDepended && s'.kept == s.kept
    requires s'.retro == s.retro && s'.late == s.late && s'.walks == s.walks
    ensures Exact(ctx, p, n, s')
  {
    hide KeyOwed, LateOwed, KeptExact, LateReason, LateWell, WalkDone, OncePerWalk, AskedDep, Spared, LateDep, DynAt;
  }

  lemma {:induction false} EnteredExact(ctx: Context, i: nat, p: nat, s: Scan, depth: Tid -> int)
    requires ctx.Good() && i < |ctx.trace| && ctx.trace[i].typ != DeclareBlock && Exact(ctx, p, i + 1, s)
    requires p == Base(ctx.prog, ctx.trace, i + 1) && depth == DepthAt(ctx.prog, ctx.trace, i + 1)
    requires Stable(ctx, p, depth, s) && RunMeans(ctx, i + 1, i + 1, s.kept, s.nextBB) && AllSettled(ctx, i + 1, p, s)
    ensures Exact(ctx, p, i + 1, Entered(ctx, s, p, ctx.trace[i]))
  {
    hide Base, Inv, TerminatorsPassed, BlocksKnown, Exact, RunMeans, AllSettled, UsedTerminator, TerminatorKept,
         DepthAt, Looked;
    var b := ctx.trace[i];
    var next := StackOf(s.nextBB, b.tid);
    var s' := Entered(ctx, s, p, b);
    HeightAt(s, depth, b.tid);
    if b.isLast == 0 && next != [] && Top(next).0 != b.bb && Top(next).1 {
      if !Top(StackOf(s.terminators, b.tid)).used { TopUsed(ctx, i + 1, p, s, b.tid); }
      TerminatorKeptExact(ctx, p, i + 1, s, b, Top(next).0);
      ExactSame(ctx, p, i + 1, TerminatorKept(ctx, s, p, b, Top(next).0), s');
    } else {
      ExactSame(ctx, p, i + 1, s, s');
    }
  }

  lemma {:induction false} AccessExact(ctx: Context, i: nat, lo: nat, hi: nat, s: Scan, depth: Tid -> int)
    requires ctx.Good() && i < |ctx.trace| && Looked(ctx, i) && IsAccess(ctx.trace[i])
    requires lo == Base(ctx.prog, ctx.trace, i) && hi == lo + 1 && Stable(ctx, hi, depth, s)
    requires Exact(ctx, hi, i + 1, s)
    ensures Exact(ctx, lo, i + 1, AccessDone(ctx, s, ctx.trace[i], lo))
  {
    hide Base, Stacks, CountsAt, Waits, Reported, Passed, Exact, Passing, Owed, OwedLate, DynAt;
    var b := ctx.trace[i];
    AccessExec(ctx, i, lo);
    NumberedAt(ctx.E, lo, hi, s);
    AccessRight(ctx, lo, hi, i + 1, s, b);
    var (d, isNeeded) := (DynAt(ctx.E, lo), AccessNeeded(s, b, DynAt(ctx.E, lo)));
    PassingExact(ctx, lo, hi, i + 1, s, d, b.lastBB, isNeeded, true);
    ExactSame(ctx, lo, i + 1, Passing(ctx, s, lo, d, b.lastBB, isNeeded, true), AccessDone(ctx, s, b, lo));
  }

  lemma {:induction false} NormalStepExact(ctx: Context, i: nat, p: nat, above: nat, s: Scan, b: SmallestBlock,
                                           id: nat, depth: Tid -> int)
    requires ctx.Good() && i < |ctx.trace| && depth == DepthIn(ctx, i) && depth(b.tid) >= 1
    requires above == p + 1 && Stable(ctx, above, depth, s) && InNormal(ctx, p, b, id) && ctx.E[p].block == i
    requires Exact(ctx, above, i + 1, s) && Meant(ctx, i, i + 1, s)
    ensures Exact(ctx, p, i + 1, NormalStep(ctx, s, b, id, p))
  {
    hide CountsAt, Waits, Reported, Passed, Exact, Passing, Owed, OwedLate, DynAt, TerminatorsPassed, BlocksKnown,
         Heights, NormalNeeded, Placed, RunMeans, FunMeans, KeptFrom, DepthIn;
    NumberedAt(ctx.E, p, above, s);
    NormalRight(ctx, p, above, i + 1, s, b, id);
    var d := Numbered(s, b.tid, id);
    var isNeeded := NormalNeeded(ctx, s, b, d);
    var info := ctx.prog.ins[id];
    var t := Terminator(b.bb, d, isNeeded);
    var s1 := if info.typ == TerminatorInst then s.(terminators := Placed(s.terminators, b.tid, t)) else s;
    ExactSame(ctx, above, i + 1, s, s1);
    KeyWaits(ctx, s, b, d);
    PassingExact(ctx, p, above, i + 1, s1, d, b.lastBB, isNeeded, !(info.typ == TerminatorInst
        && |info.successors| <= 1));
  }

  lemma {:induction false} KeyWaits(ctx: Context, s: Scan, b: SmallestBlock, d: DynamicInst)
    requires d.id < |ctx.prog.ins|
    ensures (d.tid, d.id) in s.needed ==> NormalNeeded(ctx, s, b, d)
  {
  }

  lemma {:induction false} NormalDoneExact(ctx: Context, i: nat, lo: nat, hi: nat, s: Scan, k: nat, depth: Tid -> int)
    requires ctx.Good() && i < |ctx.trace| && Looked(ctx, i) && depth == DepthIn(ctx, i)
    requires ctx.trace[i].typ == NormalBlock && BlockReturnsMarked(ctx.prog, ctx.trace[i])
    requires ctx.trace[i].start <= k <= ctx.trace[i].end && depth(ctx.trace[i].tid) >= 1
    requires lo == Base(ctx.prog, ctx.trace, i) && hi == lo + (ctx.trace[i].end - ctx.trace[i].start)
    requires Stable(ctx, hi, depth, s) && Meant(ctx, i, i + 1, s) && Exact(ctx, hi, i + 1, s)
    ensures Exact(ctx, lo + (k - ctx.trace[i].start), i + 1, NormalDone(ctx, s, ctx.trace[i], lo, k))
    decreases ctx.trace[i].end - k
  {
    hide Base, Stable, NormalStep, Meant, DepthIn, Looked, Exact;
    var b := ctx.trace[i];
    if k < b.end {
      NormalDoneExact(ctx, i, lo, hi, s, k + 1, depth);
      NormalDoneMeant(ctx, i, lo, hi, s, k + 1, depth);
      NormalDoneStable(ctx, i, lo, hi, s, k + 1, depth);
      var (p, above) := (lo + (k - b.start), lo + (k + 1 - b.start));
      NormalExec(ctx, i, k, p);
      NormalStepExact(ctx, i, p, above, NormalDone(ctx, s, b, lo, k + 1), b, ctx.prog.bb2ins[b.bb][k], depth);
    }
  }

  // ------------------------------------------------------------ leaving a block

  /** Passing the start of block i, its caller may be asked for as well. */
  lemma {:induction false} KeyOwedFrom(ctx: Context, kept: set<nat>, p: nat, i: nat, key: Key)
    requires ctx.Good() && i < |ctx.trace|
    ensures KeyOwed(ctx, kept, p, i, key) <==> KeyOwed(ctx, kept, p, i + 1, key) || CallerOf(ctx, kept, p, i, key)
  {
    hide UserOf, CallerOf;
  }

  lemma {:induction false} CallerHere(ctx: Context, i: nat, lo: nat, s: Scan, key: Key)
    requires ctx.Good() && i < |ctx.trace| && Looked(ctx, i) && lo == Base(ctx.prog, ctx.trace, i)
    requires FunMeans(ctx, i, i, s.kept, s.funUsed) && Heights(s, DepthIn(ctx, i))
             && DepthIn(ctx, i)(ctx.trace[i].tid) >= 1
    ensures CallerOf(ctx, s.kept, lo, i, key) <==>
              var b := ctx.trace[i];
              b.isFirst == 1 && TopOr(StackOf(s.funUsed, b.tid), false) && b.caller == Some(key.1) && b.tid == key.0
  {
    hide Base, UsedSince, Looked;
    var b := ctx.trace[i];
    BaseStep(ctx.prog, ctx.trace, i);
    HeightAt(s, DepthIn(ctx, i), b.tid);
    var k: nat := |StackOf(s.funUsed, b.tid)| - 1;
    assert k + 1 == Level(ctx, i) && TopOr(StackOf(s.funUsed, b.tid), false) == StackOf(s.funUsed, b.tid)[k];
  }

  lemma {:induction false} CallerNeededExact(ctx: Context, i: nat, lo: nat, s: Scan)
    requires ctx.Good() && i < |ctx.trace| && Looked(ctx, i) && lo == Base(ctx.prog, ctx.trace, i)
    requires FunMeans(ctx, i, i, s.kept, s.funUsed) && Heights(s, DepthIn(ctx, i))
             && DepthIn(ctx, i)(ctx.trace[i].tid) >= 1
    requires Exact(ctx, lo, i + 1, s)
    ensures Exact(ctx, lo, i, CallerNeeded(s, ctx.trace[i]))
  {
    hide Base, KeyOwed, CallerOf, LateOwed, FunMeans, Heights, DepthIn, DepsExact, KeptExact, LateExact, Looked;
    var s' := CallerNeeded(s, ctx.trace[i]);
    forall k ensures k in s'.needed <==> KeyOwed(ctx, s'.kept, lo, i, k) || LateOwed(ctx, s'.late, lo, k) {
      KeyOwedFrom(ctx, s.kept, lo, i, k);
      CallerHere(ctx, i, lo, s, k);
    }
    OthersSame(ctx, lo, s, s');
  }

  lemma {:induction false} OthersSame(ctx: Context, p: nat, s: Scan, s': Scan)
    requires ctx.Good() && DepsExact(ctx, p, s) && LateExact(ctx, p, s)
    requires s'.memDepended == s.memDepended && s'.kept == s.kept && s'.retro == s.retro && s'.late == s.late
    requires s'.walks == s.walks
    ensures DepsExact(ctx, p, s') && LateExact(ctx, p, s')
  {
    hide LateReason, LateWell, WalkDone, OncePerWalk, AskedDep, Spared, LateDep, DynAt;
  }

  /** The block that begins the frame: if its run is used, its terminator is kept. */
  lemma {:induction false} RunEndedExact(ctx: Context, i: nat, lo: nat, s: Scan, depth: Tid -> int)
    requires ctx.Good() && i < |ctx.trace| && Looked(ctx, i) && lo == Base(ctx.prog, ctx.trace, i)
    requires ctx.trace[i].isFirst > 0 && depth == DepthIn(ctx, i) && depth(ctx.trace[i].tid) >= 1
    requires Inv(ctx, lo, s) && TerminatorsPassed(ctx.prog, s) && Heights(s, depth) && Exact(ctx, lo, i, s)
    requires RunMeans(ctx, i, i, s.kept, s.nextBB) && AllSettled(ctx, i, lo, s)
    requires var b := ctx.trace[i]; StackOf(s.nextBB, b.tid) != [] ==> Top(StackOf(s.nextBB, b.tid)).0 == b.bb
    ensures Exact(ctx, lo, i, RunEnded(ctx, s, lo, ctx.trace[i]))
  {
    hide Base, Inv, TerminatorsPassed, Heights, Exact, RunMeans, AllSettled, UsedTerminator, TerminatorKept, DepthIn,
         Looked, Level;
    var b := ctx.trace[i];
    HeightAt(s, depth, b.tid);
    OwnLevel(ctx, i, b.tid);
    if Top(StackOf(s.nextBB, b.tid)).1 {
      if !Top(StackOf(s.terminators, b.tid)).used { TopUsed(ctx, i, lo, s, b.tid); }
      TerminatorKeptExact(ctx, lo, i, s, b, b.bb);
    }
  }

  lemma {:induction false} NotedTop(s: Scan, b: SmallestBlock, used: bool)
    ensures var next := StackOf(Noted(s.nextBB, b, used), b.tid); next != [] ==> Top(next).0 == b.bb
  {
  }

  lemma {:induction false} CallerSettled(ctx: Context, i: nat, lo: nat, s: Scan, b: SmallestBlock, used: bool)
    requires ctx.Good() && AllSettled(ctx, i, lo, s)
    ensures AllSettled(ctx, i, lo, CallerNeeded(s.(nextBB := Noted(s.nextBB, b, used)), b))
  {
    hide Settled, Noted;
  }

  lemma {:induction false} LeftExact(ctx: Context, i: nat, lo: nat, s: Scan, used: bool, depth: Tid -> int)
    requires ctx.Good() && i < |ctx.trace| && Looked(ctx, i) && lo == Base(ctx.prog, ctx.trace, i)
    requires depth == DepthIn(ctx, i) && depth(ctx.trace[i].tid) >= 1 && Stable(ctx, lo, depth, s)
    requires Meant(ctx, i, i + 1, s) && AllSettled(ctx, i, lo, s) && Exact(ctx, lo, i + 1, s)
    requires used <==> exists m: nat :: m in s.kept && ctx.E[m].block == i
    ensures Exact(ctx, lo, i, Left(ctx, s, lo, ctx.trace[i], used))
  {
    hide Base, Inv, TerminatorsPassed, BlocksKnown, Heights, Exact, Meant, AllSettled, DepthIn, Looked, Noted,
         CallerNeeded, RunEnded, Popped;
    var b := ctx.trace[i];
    var s1 := s.(nextBB := Noted(s.nextBB, b, used));
    NotedMeant(ctx, i, s, used);
    LookedKnown(ctx, i);
    NotedStacks(ctx.prog, s, b, used, depth);
    ExactSame(ctx, lo, i + 1, s, s1);
    InvSame(ctx, lo, s, s1);
    MeantFun(ctx, i, i, s1);
    CallerNeededExact(ctx, i, lo, s1);
    var s2 := CallerNeeded(s1, b);
    CallerStacks(ctx, i, s1);
    if b.isFirst == 0 {
      assert s2 == s1 by { CallerNone(s1, b); }
    } else {
      CallerInv(ctx, lo, s1, b, depth);
      CallerSettled(ctx, i, lo, s, b, used);
      MeantRuns(ctx, i, i, s2);
      NotedTop(s, b, used);
      RunEndedExact(ctx, i, lo, s2, depth);
      ExactSame(ctx, lo, i, RunEnded(ctx, s2, lo, b), Left(ctx, s, lo, b, used));
    }
  }

  lemma {:induction false} CallerInv(ctx: Context, p: nat, s: Scan, b: SmallestBlock, depth: Tid -> int)
    requires Stable(ctx, p, depth, s)
    ensures Inv(ctx, p, CallerNeeded(s, b))
  {
    hide Inv, TerminatorsPassed, BlocksKnown, Heights;
    if b.caller.Some? { NeedMore(ctx, p, s, {(b.tid, b.caller.value)}, depth); }
  }

  lemma {:induction false} LookedKnown(ctx: Context, i: nat)
    requires ctx.Good() && Looked(ctx, i)
    ensures ctx.trace[i].bb < |ctx.prog.bb2ins|
  {
  }

  lemma {:induction false} MeantFun(ctx: Context, i: nat, from: nat, s: Scan)
    requires ctx.Good() && Meant(ctx, i, from, s)
    ensures FunMeans(ctx, i, i, s.kept, s.funUsed)
  {
  }

  lemma {:induction false} MeantRuns(ctx: Context, i: nat, from: nat, s: Scan)
    requires ctx.Good() && Meant(ctx, i, from, s)
    ensures RunMeans(ctx, i, from, s.kept, s.nextBB)
  {
  }

  lemma {:induction false} CallerNone(s: Scan, b: SmallestBlock)
    requires b.isFirst == 0
    ensures CallerNeeded(s, b) == s
  {
  }

  lemma {:induction false} CallerStacks(ctx: Context, i: nat, s: Scan)
    requires ctx.Good() && i < |ctx.trace| && Meant(ctx, i, i, s)
    ensures var s' := CallerNeeded(s, ctx.trace[i]);
            && Meant(ctx, i, i, s') && s'.nextBB == s.nextBB && s'.terminators == s.terminators
            && (forall depth :: Heights(s, depth) ==> Heights(s', depth))
            && (TerminatorsPassed(ctx.prog, s) ==> TerminatorsPassed(ctx.prog, s'))
  {
    hide FunMeans, RunMeans, Passed;
  }

  // ------------------------------------------------------------------ the scan

  lemma {:induction false} InstructionsExact(ctx: Context, i: nat, lo: nat, hi: nat, s: Scan, depth: Tid -> int)
    requires ctx.Good() && i < |ctx.trace| && Looked(ctx, i)
    requires depth == DepthIn(ctx, i) && depth(ctx.trace[i].tid) >= 1
    requires BlockReturnsMarked(ctx.prog, ctx.trace[i])
    requires lo == Base(ctx.prog, ctx.trace, i) && hi == lo + |Ids(ctx.prog, ctx.trace[i])|
    requires Stable(ctx, hi, depth, s) && Meant(ctx, i, i + 1, s) && Exact(ctx, hi, i + 1, s)
    requires AllSettled(ctx, i, hi, s)
    ensures Exact(ctx, lo, i, InstructionsDone(ctx, s, i))
  {
    hide Base, Stable, BlockReturnsMarked, NormalDone, AccessDone, Left, Meant, DepthIn, Exact, AllSettled;
    PassedSettled(ctx, i, lo, hi, s, depth);
    var b := ctx.trace[i];
    if b.typ == NormalBlock {
      NormalDoneExact(ctx, i, lo, hi, s, b.start, depth);
      NormalDoneMeant(ctx, i, lo, hi, s, b.start, depth);
    } else {
      AccessExact(ctx, i, lo, hi, s, depth);
      AccessMeant(ctx, i, lo, hi, s, depth);
    }
    BeforeLeaving(ctx, i, lo, hi, s, depth);
    var s1 := if b.typ == NormalBlock then NormalDone(ctx, s, b, lo, b.start) else AccessDone(ctx, s, b, lo);
    MeantKept(ctx, i, i + 1, s1);
    KeptInBlock(ctx, i, lo, hi, s1.kept);
    LeftExact(ctx, i, lo, s1, KeptWithin(s1.kept, lo, hi), depth);
  }

  lemma {:induction false} NothingHere(ctx: Context, i: nat, p: nat, s: Scan)
    requires ctx.Good() && i < |ctx.trace| && !Looked(ctx, i) && Exact(ctx, p, i + 1, s)
    ensures Exact(ctx, p, i, s)
  {
    hide KeyOwed, LateOwed, DepsExact, KeptExact, LateExact, Looked;
    forall k ensures KeyOwed(ctx, s.kept, p, i, k) <==> KeyOwed(ctx, s.kept, p, i + 1, k) {
      KeyOwedFrom(ctx, s.kept, p, i, k);
    }
  }

  lemma {:induction false} BlockExact(ctx: Context, i: nat, lo: nat, hi: nat, s: Scan, depth: Tid -> int)
    requires ctx.Good() && i < |ctx.trace| && depth == DepthAt(ctx.prog, ctx.trace, i + 1)
    requires lo == Base(ctx.prog, ctx.trace, i) && hi == lo + |Ids(ctx.prog, ctx.trace[i])|
             && BlockReturnsMarked(ctx.prog, ctx.trace[i])
    requires Looked(ctx, i) ==> Opened(ctx.trace[i], depth)(ctx.trace[i].tid) >= 1
    requires Stable(ctx, hi, depth, s) && Meant(ctx, i + 1, i + 1, s) && Exact(ctx, hi, i + 1, s)
    requires AllSettled(ctx, i + 1, hi, s)
    ensures Exact(ctx, lo, i, BlockDone(ctx, s, i))
  {
    hide Base, AllSettled, Meant, Inv, TerminatorsPassed, BlocksKnown, Heights, Entered, InstructionsDone, DepthAt,
         BlockReturnsMarked, Exact;
    var b := ctx.trace[i];
    if b.typ == DeclareBlock {
      NothingHere(ctx, i, lo, s);
    } else {
      BaseStep(ctx.prog, ctx.trace, i);
      MeantRuns(ctx, i + 1, i + 1, s);
      EnteredExact(ctx, i, hi, s, depth);
      if Looked(ctx, i) {
        EnteredStable(ctx, hi, s, b, depth);
        EnteredMeant(ctx, i, s, hi);
        EnteredSettled(ctx, i, hi, s);
        InstructionsExact(ctx, i, lo, hi, Entered(ctx, s, hi, b), Opened(b, depth));
      } else {
        NothingHere(ctx, i, lo, Entered(ctx, s, hi, b));
      }
    }
  }

  lemma {:induction false} NothingExact(ctx: Context, p: nat, n: nat)
    requires ctx.Good() && p == |ctx.E| && n == |ctx.trace|
    ensures Exact(ctx, p, n, NOTHING_YET)
  {
    hide InFrame, Base;
  }

  lemma {:induction false} ScannedExactly(ctx: Context, n: nat)
    requires ctx.Good() && n <= |ctx.trace| && Framed(ctx.prog, ctx.trace) && ReturnsMarked(ctx.prog, ctx.trace)
    ensures Exact(ctx, Base(ctx.prog, ctx.trace, n), n, Scanned(ctx, n))
    decreases |ctx.trace| - n
  {
    hide Base, Framed, ReturnsMarked, BlockDone, Meant, Stable, DepthAt, BlockReturnsMarked, Skipped, Exact,
         AllSettled;
    if n == |ctx.trace| {
      ExecsEnd(ctx.prog, ctx.trace);
      NothingExact(ctx, |ctx.E|, n);
    } else {
      ScannedExactly(ctx, n + 1);
      ScannedMeant(ctx, n + 1);
      ScannedSettled(ctx, n + 1);
      ScannedStable(ctx, n + 1);
      BaseStep(ctx.prog, ctx.trace, n);
      FramedAt(ctx, n);
      MarkedAt(ctx, n);
      BlockExact(ctx, n, Base(ctx.prog, ctx.trace, n), Base(ctx.prog, ctx.trace, n + 1), Scanned(ctx, n + 1),
                 DepthAt(ctx.prog, ctx.trace, n + 1));
    }
  }

  /** An execution is kept exactly if something kept after it, or kept late before the
      scan came to it, asks for it; what is kept late has a reason too, and makes up the
      executions taken out of the report. */
  lemma {:induction false} KeptExactly(ctx: Context)
    requires ctx.Good() && Framed(ctx.prog, ctx.trace) && ReturnsMarked(ctx.prog, ctx.trace)
    ensures var s := Scanned(ctx, 0);
            && (forall p: nat :: p < |ctx.E| ==> (p in s.kept <==> Owed(ctx, s.kept, p) || OwedLate(ctx, s.late, p)))
            && (forall w :: w in s.late ==> LateReason(ctx, s.kept, s.late, w))
            && (forall d :: d in s.retro <==> exists w :: w in s.late && w.dyn == d)
  {
    hide Base, Framed, ReturnsMarked, Scanned, KeysExact, DepsExact, Owed, OwedLate, LateReason, WalkDone, OfSome;
    ScannedExactly(ctx, 0);
    FirstBase(ctx);
  }
}
