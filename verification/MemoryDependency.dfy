/** Last-writer extraction (tools/PrintBug/ExtractMemoryDependency.cpp).

    The specification is a byte-granular one: the last writer of an address
    before block i is the latest earlier block that writes it. The method, which
    works on ranges held in a segment tree, is proved to find exactly these. */
module MemoryDependency {
  import opened Common
  import opened SegmentTrees

  /** The program, and the grouping of memory: which group owns an address and
      which addresses make up a group. */
  datatype Env = Env(prog: Program, owner: Tree<int>, groups: map<int, Tree<int>>)

  ghost predicate GoodEnv(env: Env) {
    && Fits(env.owner, 0, MAX_RANGE)
    && (forall g :: g in env.groups ==> Fits(env.groups[g], 0, MAX_RANGE))
    && (forall x :: Look(env.owner, 0, MAX_RANGE, x).Some? ==>
          Look(env.owner, 0, MAX_RANGE, x).value in env.groups)
  }

  // -------------------------------------------------------------- executions

  function InsOf(prog: Program, b: SmallestBlock): nat
    requires IsAccess(b) && Formed(prog, b)
  {
    prog.bb2ins[b.bb][b.start]
  }

  function KeyOf(prog: Program, b: SmallestBlock): Key
    requires IsAccess(b) && Formed(prog, b)
  {
    (b.tid, InsOf(prog, b))
  }

  /** How many of the given blocks execute `key`. */
  ghost function Count(prog: Program, trace: seq<SmallestBlock>, key: Key): nat
    requires FormedTrace(prog, trace)
  {
    if trace == [] then 0
    else
      var b := trace[|trace| - 1];
      Count(prog, trace[..|trace| - 1], key) + if IsAccess(b) && KeyOf(prog, b) == key then 1 else 0
  }

  /** Block i as an execution, numbered from the start of the trace. */
  ghost function Dyn(prog: Program, trace: seq<SmallestBlock>, i: nat): DynamicInst
    requires FormedTrace(prog, trace) && i < |trace| && IsAccess(trace[i])
  {
    var key := KeyOf(prog, trace[i]);
    DynamicInst(key.0, key.1, Count(prog, trace[..i], key))
  }

  // ------------------------------------------------------ bytes read, written

  ghost predicate InGroup(env: Env, g: int, x: uint64)
    requires GoodEnv(env)
  {
    g in env.groups && x < MAX_RANGE && Look(env.groups[g], 0, MAX_RANGE, x).Some?
  }

  /** A group owns exactly the addresses that are looked up in it. */
  ghost predicate OneGroupEach(env: Env)
    requires GoodEnv(env)
  {
    forall g, x :: x < MAX_RANGE ==> (InGroup(env, g, x) <==> Look(env.owner, 0, MAX_RANGE, x) == Some(g))
  }

  /** Argument k of call b points into a group that contains x. */
  ghost predicate ArgReaches(env: Env, b: SmallestBlock, k: nat, x: uint64)
    requires GoodEnv(env)
  {
    && 1 <= k < |b.addr|
    && Look(env.owner, 0, MAX_RANGE, b.addr[k]).Some?
    && InGroup(env, Look(env.owner, 0, MAX_RANGE, b.addr[k]).value, x)
  }

  ghost predicate CallReaches(env: Env, b: SmallestBlock, x: uint64)
    requires GoodEnv(env)
  {
    exists k :: ArgReaches(env, b, k, x)
  }

  ghost predicate Writes(env: Env, b: SmallestBlock, x: uint64)
    requires GoodEnv(env) && Formed(env.prog, b)
  {
    match b.typ
    case MemoryAccessBlock => b.addr[0] <= x < b.addr[1] && env.prog.ins[InsOf(env.prog, b)].typ == StoreInst
    case MemsetBlock => b.addr[0] <= x < b.addr[1]
    case MemmoveBlock => b.addr[0] <= x < b.addr[1]
    case ExternalCallBlock => CallReaches(env, b, x)
    case ImpactfulCallBlock => CallReaches(env, b, x)
    case _ => false
  }

  ghost predicate Reads(env: Env, b: SmallestBlock, x: uint64)
    requires GoodEnv(env) && Formed(env.prog, b)
  {
    match b.typ
    case MemoryAccessBlock => b.addr[0] <= x < b.addr[1] && env.prog.ins[InsOf(env.prog, b)].typ == LoadInst
    case MemmoveBlock => b.addr[0] < b.addr[1] && b.addr[2] <= x < b.addr[3]
    case ExternalCallBlock => CallReaches(env, b, x)
    case ImpactfulCallBlock => CallReaches(env, b, x)
    case _ => false
  }

  /** The last of the first i blocks that writes x. */
  ghost function LastWriter(env: Env, trace: seq<SmallestBlock>, i: nat, x: uint64): (w: Option<nat>)
    requires GoodEnv(env) && FormedTrace(env.prog, trace) && i <= |trace|
    ensures w.Some? ==> w.value < i && IsAccess(trace[w.value]) && Writes(env, trace[w.value], x)
  {
    if i == 0 then None
    else if Writes(env, trace[i - 1], x) then Some(i - 1)
    else LastWriter(env, trace, i - 1, x)
  }

  /** A call whose arguments reach one byte twice reads what it has itself
      just written. */
  ghost predicate SelfEdge(env: Env, b: SmallestBlock)
    requires GoodEnv(env)
  {
    && b.typ in {ExternalCallBlock, ImpactfulCallBlock}
    && exists k, k', x :: k < k' && ArgReaches(env, b, k, x) && ArgReaches(env, b, k', x)
  }

  /** Block i depends on block j: it reads a byte that j was last to write. */
  ghost predicate Depends(env: Env, trace: seq<SmallestBlock>, i: nat, j: nat)
    requires GoodEnv(env) && FormedTrace(env.prog, trace) && i < |trace|
  {
    || (exists x :: x < MAX_RANGE && Reads(env, trace[i], x) && LastWriter(env, trace, i, x) == Some(j))
    || (i == j && SelfEdge(env, trace[i]))
  }

  // ---------------------------------------------------------- one access

  /** Add the writers of [l, r) to the dependencies found so far. */
  method ReadRange(store: SegmentTree<DynamicInst>, l: uint64, r: uint64, deps: set<DynamicInst>)
    returns (deps': set<DynamicInst>)
    requires store.Valid() && store.left == 0 && store.right == MAX_RANGE
    ensures forall d :: d in deps' <==> d in deps || exists x :: l <= x < r && store.At(x) == Some(d)
  {
    deps' := deps;
    var runs := store.Collect(l, r);
    if l >= r { return; }
    ghost var f := MapOf(store.tree, store.left, store.right);
    var n := 0;
    while n < |runs|
      invariant 0 <= n <= |runs|
      invariant forall d :: d in deps' <==>
                  d in deps || exists k :: 0 <= k < n && runs[k].typ == CoveredSegment && runs[k].value == d
    {
      if runs[n].typ == CoveredSegment { deps' := deps' + {runs[n].value}; }
      n := n + 1;
    }
    forall d ensures d in deps' <==> d in deps || exists x :: l <= x < r && store.At(x) == Some(d) {
      if k :| 0 <= k < |runs| && runs[k].typ == CoveredSegment && runs[k].value == d {
        RunMeets(runs, f, l, r, k);
        var x := Max(l, runs[k].left);
        assert Says(runs[k], f(x)) && store.At(x) == Some(d);
      }
      if x :| l <= x < r && store.At(x) == Some(d) {
        var k := RunContaining(runs, f, x);
        assert Says(runs[k], f(x));
      }
    }
  }

  lemma {:induction false} RunMeets<T>(runs: seq<Segment<T>>, f: uint64 -> Option<T>, l: uint64, r: uint64, k: nat)
    requires Encodes(runs, f) && Spans(runs, l, r) && l < r && k < |runs|
    ensures runs[k].left < r && l < runs[k].right
  {
    if k > 0 { RunsAscend(runs, f, 0, k); }
    if k < |runs| - 1 { RunsAscend(runs, f, k, |runs| - 1); }
  }

  /** Read the writers of [l, r), then become the writer of it. */
  method AccessRange(store: SegmentTree<DynamicInst>, l: uint64, r: uint64, dyn: DynamicInst, deps: set<DynamicInst>)
    returns (deps': set<DynamicInst>)
    requires store.Valid() && store.left == 0 && store.right == MAX_RANGE
    modifies store.Repr
    ensures store.Valid() && fresh(store.Repr - old(store.Repr))
    ensures var before := old(MapOf(store.tree, 0, MAX_RANGE));
            && (forall x :: x < MAX_RANGE ==>
                  MapOf(store.tree, 0, MAX_RANGE)(x) == if l <= x < r then Some(dyn) else before(x))
            && (forall d :: d in deps' <==> d in deps || exists x :: l <= x < r && before(x) == Some(d))
  {
    ghost var before := MapOf(store.tree, 0, MAX_RANGE);
    deps' := ReadRange(store, l, r, deps);
    assert forall d :: d in deps' <==> d in deps || exists x :: l <= x < r && before(x) == Some(d) by {
      assert forall x :: store.At(x) == before(x);
    }
    assert forall x :: old(store.At(x)) == before(x);
    store.Set(l, r, dyn);
    assert forall x :: store.At(x) == MapOf(store.tree, 0, MAX_RANGE)(x);
  }

  /** Where a run starts, given where the finished part of the span ends. */
  lemma {:induction false} RunFollows<T>(runs: seq<Segment<T>>, f: uint64 -> Option<T>, n: nat)
    requires Encodes(runs, f) && Spans(runs, 0, MAX_RANGE) && n < |runs|
    ensures runs[n].left == if n == 0 then 0 else runs[n - 1].right
    ensures forall x :: runs[n].left <= x < runs[n].right ==> (f(x).Some? <==> runs[n].typ == CoveredSegment)
  {
    if n > 0 { assert Joined(runs, n - 1); }
    assert forall x :: runs[n].left <= x < runs[n].right ==> Says(runs[n], f(x));
  }

  /** The shadow memory once every byte of `group` below `done` has been read
      and written. */
  ghost predicate SweptStore(after: uint64 -> Option<DynamicInst>, group: uint64 -> Option<int>, done: uint64,
                             before: uint64 -> Option<DynamicInst>, dyn: DynamicInst) {
    forall x :: x < MAX_RANGE ==> after(x) == if x < done && group(x).Some? then Some(dyn) else before(x)
  }

  ghost predicate SweptDeps(deps': set<DynamicInst>, group: uint64 -> Option<int>, done: uint64,
                            before: uint64 -> Option<DynamicInst>, deps: set<DynamicInst>) {
    forall d :: d in deps' <==> d in deps || exists x :: x < done && group(x).Some? && before(x) == Some(d)
  }

  /** A call reads, then overwrites, every byte of the group of one argument. */
  method AccessGroup(store: SegmentTree<DynamicInst>, group: SegmentTree<int>, dyn: DynamicInst,
                     deps: set<DynamicInst>) returns (deps': set<DynamicInst>)
    requires store.Valid() && store.left == 0 && store.right == MAX_RANGE
    requires group.Valid() && group.left == 0 && group.right == MAX_RANGE
    modifies store.Repr
    ensures store.Valid() && fresh(store.Repr - old(store.Repr))
    ensures SweptStore(MapOf(store.tree, 0, MAX_RANGE), old(MapOf(group.tree, 0, MAX_RANGE)), MAX_RANGE,
                       old(MapOf(store.tree, 0, MAX_RANGE)), dyn)
    ensures SweptDeps(deps', old(MapOf(group.tree, 0, MAX_RANGE)), MAX_RANGE,
                      old(MapOf(store.tree, 0, MAX_RANGE)), deps)
  {
    deps' := deps;
    var runs := group.Collect(0, MAX_RANGE);
    ghost var f := MapOf(group.tree, 0, MAX_RANGE);
    ghost var before := MapOf(store.tree, 0, MAX_RANGE);
    var n := 0;
    ghost var done: uint64 := 0;   // the bytes below are finished
    while n < |runs|
      invariant 0 <= n <= |runs|
      invariant done == if n == 0 then 0 else runs[n - 1].right
      invariant store.Valid() && fresh(store.Repr - old(store.Repr))
      invariant SweptStore(MapOf(store.tree, 0, MAX_RANGE), f, done, before, dyn)
      invariant SweptDeps(deps', f, done, before, deps)
    {
      var run := runs[n];
      RunFollows(runs, f, n);
      ghost var was, mid := deps', MapOf(store.tree, 0, MAX_RANGE);
      if run.typ == CoveredSegment {
        deps' := AccessRange(store, run.left, run.right, dyn, deps');
      }
      SweepRun(MapOf(store.tree, 0, MAX_RANGE), mid, deps', was, f, run, before, dyn, deps);
      done := run.right;
      n := n + 1;
    }
  }

  lemma {:induction false} SweepRun(after: uint64 -> Option<DynamicInst>, mid: uint64 -> Option<DynamicInst>,
                                    deps': set<DynamicInst>, was: set<DynamicInst>, group: uint64 -> Option<int>,
                                    run: Segment<int>, before: uint64 -> Option<DynamicInst>, dyn: DynamicInst,
                                    deps: set<DynamicInst>)
    requires run.left < run.right
    requires forall x :: run.left <= x < run.right ==> (group(x).Some? <==> run.typ == CoveredSegment)
    requires SweptStore(mid, group, run.left, before, dyn) && SweptDeps(was, group, run.left, before, deps)
    requires if run.typ == CoveredSegment then
               && (forall x :: x < MAX_RANGE ==> after(x) == if run.left <= x < run.right then Some(dyn) else mid(x))
               && (forall d :: d in deps' <==> d in was || exists x :: run.left <= x < run.right && mid(x) == Some(d))
             else after == mid && deps' == was
    requires run.right <= MAX_RANGE
    ensures SweptStore(after, group, run.right, before, dyn) && SweptDeps(deps', group, run.right, before, deps)
  {
    forall d ensures d in deps' <==>
                d in deps || exists x :: x < run.right && group(x).Some? && before(x) == Some(d)
    {
      if x :| x < run.right && group(x).Some? && before(x) == Some(d) {
        assert x < run.left || (run.left <= x < run.right && mid(x) == Some(d));
      }
      if d in deps' && d !in was {
        var x :| run.left <= x < run.right && mid(x) == Some(d);
        assert group(x).Some? && before(x) == Some(d);
      }
    }
  }

  // ------------------------------------------------------------- one call

  /** The trees hold what the environment says. */
  ghost predicate Holds(env: Env, owner: SegmentTree<int>, groups: map<int, SegmentTree<int>>)
    reads owner, owner.Repr
    reads groups.Values, set t, o | t in groups.Values && o in t.Repr :: o
  {
    && owner.Valid() && owner.left == 0 && owner.right == MAX_RANGE && owner.tree == env.owner
    && groups.Keys == env.groups.Keys
    && (forall g :: g in groups ==>
          groups[g].Valid() && groups[g].left == 0 && groups[g].right == MAX_RANGE && groups[g].tree == env.groups[g])
  }

  ghost predicate Apart(store: SegmentTree<DynamicInst>, owner: SegmentTree<int>, groups: map<int, SegmentTree<int>>)
    reads store, owner, groups.Values
  {
    owner.Repr !! store.Repr && forall g :: g in groups ==> groups[g].Repr !! store.Repr
  }

  ghost predicate ReachedBelow(env: Env, b: SmallestBlock, k: nat, x: uint64)
    requires GoodEnv(env)
  {
    exists k': nat :: k' < k && ArgReaches(env, b, k', x)
  }

  /** One of the first k arguments reaches x after an earlier one did. */
  ghost predicate TwiceBelow(env: Env, b: SmallestBlock, k: nat)
    requires GoodEnv(env)
  {
    exists k': nat, x :: k' < k && ArgReaches(env, b, k', x) && ReachedBelow(env, b, k', x)
  }

  ghost predicate CallDep(env: Env, b: SmallestBlock, k: nat, before: uint64 -> Option<DynamicInst>, dyn: DynamicInst,
                          d: DynamicInst)
    requires GoodEnv(env)
  {
    || (exists x :: ReachedBelow(env, b, k, x) && before(x) == Some(d))
    || (d == dyn && TwiceBelow(env, b, k))
  }

  ghost predicate CallStore(env: Env, b: SmallestBlock, k: nat, after: uint64 -> Option<DynamicInst>,
                            before: uint64 -> Option<DynamicInst>, dyn: DynamicInst)
    requires GoodEnv(env)
  {
    forall x :: x < MAX_RANGE ==> after(x) == if ReachedBelow(env, b, k, x) then Some(dyn) else before(x)
  }

  lemma {:induction false} CallDepStep(env: Env, b: SmallestBlock, k: nat, before: uint64 -> Option<DynamicInst>,
                                       mid: uint64 -> Option<DynamicInst>, dyn: DynamicInst, d: DynamicInst)
    requires GoodEnv(env) && 1 <= k < |b.addr|
    requires forall x :: x < MAX_RANGE ==> mid(x) == if ReachedBelow(env, b, k, x) then Some(dyn) else before(x)
    ensures CallDep(env, b, k + 1, before, dyn, d) <==>
              CallDep(env, b, k, before, dyn, d) || exists x :: ArgReaches(env, b, k, x) && mid(x) == Some(d)
  {
    if x :| ArgReaches(env, b, k, x) && mid(x) == Some(d) {
      if ReachedBelow(env, b, k, x) {
        assert TwiceBelow(env, b, k + 1);
      } else {
        assert ReachedBelow(env, b, k + 1, x) && before(x) == Some(d);
      }
    }
    if CallDep(env, b, k, before, dyn, d) {
      if x :| ReachedBelow(env, b, k, x) && before(x) == Some(d) {
        assert ReachedBelow(env, b, k + 1, x);
      }
    }
    if CallDep(env, b, k + 1, before, dyn, d) && !CallDep(env, b, k, before, dyn, d) {
      if x :| ReachedBelow(env, b, k + 1, x) && before(x) == Some(d) {
        assert !ReachedBelow(env, b, k, x);
        assert ArgReaches(env, b, k, x) && mid(x) == Some(d);
      } else {
        var k': nat, x :| k' < k + 1 && ArgReaches(env, b, k', x) && ReachedBelow(env, b, k', x);
        assert k' == k;
        assert mid(x) == Some(dyn);
      }
    }
  }

  /** A call accesses the groups of its arguments one after the other. */
  method AccessArguments(ghost env: Env, b: SmallestBlock, dyn: DynamicInst, store: SegmentTree<DynamicInst>,
                         owner: SegmentTree<int>, groups: map<int, SegmentTree<int>>)
    returns (deps: set<DynamicInst>)
    requires GoodEnv(env) && Holds(env, owner, groups) && Apart(store, owner, groups)
    requires store.Valid() && store.left == 0 && store.right == MAX_RANGE
    modifies store.Repr
    ensures store.Valid() && fresh(store.Repr - old(store.Repr))
    ensures CallStore(env, b, |b.addr|, MapOf(store.tree, 0, MAX_RANGE), old(MapOf(store.tree, 0, MAX_RANGE)), dyn)
    ensures forall d :: d in deps <==>
              CallDep(env, b, |b.addr|, old(MapOf(store.tree, 0, MAX_RANGE)), dyn, d)
  {
    deps := {};
    ghost var before := MapOf(store.tree, 0, MAX_RANGE);
    var i := 1;
    while i < |b.addr|
      invariant 1 <= i && (i <= |b.addr| || i == 1)
      invariant store.Valid() && fresh(store.Repr - old(store.Repr))
      invariant Holds(env, owner, groups) && Apart(store, owner, groups)
      invariant CallStore(env, b, i, MapOf(store.tree, 0, MAX_RANGE), before, dyn)
      invariant forall d :: d in deps <==> CallDep(env, b, i, before, dyn, d)
    {
      deps := AccessArgument(env, b, i, dyn, store, owner, groups, before, deps);
      i := i + 1;
    }
    assert forall x :: ReachedBelow(env, b, i, x) <==> ReachedBelow(env, b, |b.addr|, x);
  }

  method AccessArgument(ghost env: Env, b: SmallestBlock, i: nat, dyn: DynamicInst, store: SegmentTree<DynamicInst>,
                        owner: SegmentTree<int>, groups: map<int, SegmentTree<int>>,
                        ghost before: uint64 -> Option<DynamicInst>, deps: set<DynamicInst>)
    returns (deps': set<DynamicInst>)
    requires GoodEnv(env) && Holds(env, owner, groups) && Apart(store, owner, groups)
    requires store.Valid() && store.left == 0 && store.right == MAX_RANGE
    requires 1 <= i < |b.addr| && CallStore(env, b, i, MapOf(store.tree, 0, MAX_RANGE), before, dyn)
    requires forall d :: d in deps <==> CallDep(env, b, i, before, dyn, d)
    modifies store.Repr
    ensures store.Valid() && fresh(store.Repr - old(store.Repr))
    ensures CallStore(env, b, i + 1, MapOf(store.tree, 0, MAX_RANGE), before, dyn)
    ensures forall d :: d in deps' <==> CallDep(env, b, i + 1, before, dyn, d)
  {
    ghost var mid := MapOf(store.tree, 0, MAX_RANGE);
    deps' := deps;
    var g := owner.Get(b.addr[i]);
    assert g == Look(env.owner, 0, MAX_RANGE, b.addr[i]);
    if g.Some? {
      var id := g.value;
      assert id in groups;
      assert groups[id].Valid();
      ghost var group := MapOf(groups[g.value].tree, 0, MAX_RANGE);
      assert forall x :: ArgReaches(env, b, i, x) <==> x < MAX_RANGE && group(x).Some?;
      deps' := AccessGroup(store, groups[g.value], dyn, deps);
    } else {
      assert forall x :: !ArgReaches(env, b, i, x);
    }
    forall d ensures d in deps' <==> CallDep(env, b, i + 1, before, dyn, d) {
      CallDepStep(env, b, i, before, mid, dyn, d);
    }
    assert forall x :: ReachedBelow(env, b, i + 1, x) <==> ReachedBelow(env, b, i, x) || ArgReaches(env, b, i, x);
  }

  // ------------------------------------------------------------ the pass

  /** The shadow memory before block i. */
  ghost function Shadow(env: Env, trace: seq<SmallestBlock>, i: nat): uint64 -> Option<DynamicInst>
    requires GoodEnv(env) && FormedTrace(env.prog, trace) && i <= |trace|
  {
    x => match LastWriter(env, trace, i, x)
         case None => None
         case Some(j) => Some(Dyn(env.prog, trace, j))
  }

  ghost predicate ShadowHolds(env: Env, trace: seq<SmallestBlock>, i: nat, after: uint64 -> Option<DynamicInst>)
    requires GoodEnv(env) && FormedTrace(env.prog, trace) && i <= |trace|
  {
    forall x :: x < MAX_RANGE ==> after(x) == Shadow(env, trace, i)(x)
  }

  ghost predicate DependsAs(env: Env, trace: seq<SmallestBlock>, i: nat, d: DynamicInst)
    requires GoodEnv(env) && FormedTrace(env.prog, trace) && i < |trace|
  {
    exists j: nat :: j <= i && IsAccess(trace[j]) && Depends(env, trace, i, j) && d == Dyn(env.prog, trace, j)
  }

  /** Dependencies of block i, in terms of the shadow memory. */
  lemma {:induction false} DependsAsShadow(env: Env, trace: seq<SmallestBlock>, i: nat, d: DynamicInst)
    requires GoodEnv(env) && FormedTrace(env.prog, trace) && i < |trace| && IsAccess(trace[i])
    ensures DependsAs(env, trace, i, d) <==>
              || (exists x :: x < MAX_RANGE && Reads(env, trace[i], x) && Shadow(env, trace, i)(x) == Some(d))
              || (SelfEdge(env, trace[i]) && d == Dyn(env.prog, trace, i))
  {
    if x :| x < MAX_RANGE && Reads(env, trace[i], x) && Shadow(env, trace, i)(x) == Some(d) {
      var j := LastWriter(env, trace, i, x).value;
      assert Depends(env, trace, i, j);
    }
    if SelfEdge(env, trace[i]) && d == Dyn(env.prog, trace, i) {
      assert Depends(env, trace, i, i);
    }
    if DependsAs(env, trace, i, d) {
      var j: nat :| j <= i && IsAccess(trace[j]) && Depends(env, trace, i, j) && d == Dyn(env.prog, trace, j);
      if x :| x < MAX_RANGE && Reads(env, trace[i], x) && LastWriter(env, trace, i, x) == Some(j) {
        assert Shadow(env, trace, i)(x) == Some(d);
      }
    }
  }

  lemma {:induction false} CallShadow(env: Env, b: SmallestBlock)
    requires GoodEnv(env)
    ensures forall x :: ReachedBelow(env, b, |b.addr|, x) <==> CallReaches(env, b, x)
    ensures b.typ in {ExternalCallBlock, ImpactfulCallBlock} ==>
              (TwiceBelow(env, b, |b.addr|) <==> SelfEdge(env, b))
  {
    forall x ensures ReachedBelow(env, b, |b.addr|, x) <==> CallReaches(env, b, x) {
      if CallReaches(env, b, x) {
        var k: nat :| ArgReaches(env, b, k, x);
        assert k < |b.addr|;
      }
    }
    if TwiceBelow(env, b, |b.addr|) {
      var k': nat, x :| k' < |b.addr| && ArgReaches(env, b, k', x) && ReachedBelow(env, b, k', x);
      var k: nat :| k < k' && ArgReaches(env, b, k, x);
      assert ArgReaches(env, b, k, x) && ArgReaches(env, b, k', x);
    }
    if SelfEdge(env, b) {
      var k: nat, k': nat, x :| k < k' && ArgReaches(env, b, k, x) && ArgReaches(env, b, k', x);
      assert ReachedBelow(env, b, k', x);
    }
  }

  ghost predicate BlockStore(env: Env, b: SmallestBlock, after: uint64 -> Option<DynamicInst>,
                             before: uint64 -> Option<DynamicInst>, dyn: DynamicInst)
    requires GoodEnv(env) && Formed(env.prog, b)
  {
    forall x :: x < MAX_RANGE ==> after(x) == if Writes(env, b, x) then Some(dyn) else before(x)
  }

  ghost predicate BlockDeps(env: Env, b: SmallestBlock, deps: set<DynamicInst>, before: uint64 -> Option<DynamicInst>,
                            dyn: DynamicInst)
    requires GoodEnv(env) && Formed(env.prog, b)
  {
    forall d :: d in deps <==>
      || (exists x :: x < MAX_RANGE && Reads(env, b, x) && before(x) == Some(d))
      || (SelfEdge(env, b) && d == dyn)
  }

  /** Load, store, memset or memmove. An atomic instruction takes neither
      branch: its test stands inside the one for loads, where it cannot hold. */
  method AccessMemory(ghost env: Env, prog: Program, b: SmallestBlock, dyn: DynamicInst,
                      store: SegmentTree<DynamicInst>) returns (deps: set<DynamicInst>)
    requires GoodEnv(env) && env.prog == prog && Formed(prog, b)
    requires b.typ in {MemoryAccessBlock, MemsetBlock, MemmoveBlock}
    requires store.Valid() && store.left == 0 && store.right == MAX_RANGE
    modifies store.Repr
    ensures store.Valid() && fresh(store.Repr - old(store.Repr))
    ensures BlockStore(env, b, MapOf(store.tree, 0, MAX_RANGE), old(MapOf(store.tree, 0, MAX_RANGE)), dyn)
    ensures BlockDeps(env, b, deps, old(MapOf(store.tree, 0, MAX_RANGE)), dyn)
  {
    deps := {};
    if b.addr[0] >= b.addr[1] { return; }   // inefficacious write
    if b.typ == MemoryAccessBlock {
      var typ := prog.ins[InsOf(prog, b)].typ;
      if typ == StoreInst {
        deps := Overwrite(store, b.addr[0], b.addr[1], dyn);
      } else if typ == LoadInst {
        deps := ReadOnly(store, b.addr[0], b.addr[1]);
      }
    } else if b.typ == MemsetBlock {
      deps := Overwrite(store, b.addr[0], b.addr[1], dyn);
    } else {
      deps := ReadOnly(store, b.addr[2], b.addr[3]);
      var _ := Overwrite(store, b.addr[0], b.addr[1], dyn);
    }
  }

  method Overwrite(store: SegmentTree<DynamicInst>, l: uint64, r: uint64, dyn: DynamicInst)
    returns (none: set<DynamicInst>)
    requires store.Valid() && store.left == 0 && store.right == MAX_RANGE
    modifies store.Repr
    ensures store.Valid() && fresh(store.Repr - old(store.Repr)) && none == {}
    ensures forall x :: x < MAX_RANGE ==>
              MapOf(store.tree, 0, MAX_RANGE)(x)
              == if l <= x < r then Some(dyn) else old(MapOf(store.tree, 0, MAX_RANGE))(x)
  {
    none := {};
    store.Set(l, r, dyn);
    assert forall x :: store.At(x) == MapOf(store.tree, 0, MAX_RANGE)(x);
  }

  method ReadOnly(store: SegmentTree<DynamicInst>, l: uint64, r: uint64) returns (deps: set<DynamicInst>)
    requires store.Valid() && store.left == 0 && store.right == MAX_RANGE
    ensures forall d :: d in deps <==> exists x :: l <= x < r && MapOf(store.tree, 0, MAX_RANGE)(x) == Some(d)
  {
    deps := ReadRange(store, l, r, {});
    assert forall x :: store.At(x) == MapOf(store.tree, 0, MAX_RANGE)(x);
  }

  lemma {:induction false} ShadowStep(env: Env, trace: seq<SmallestBlock>, i: nat,
                                      after: uint64 -> Option<DynamicInst>, before: uint64 -> Option<DynamicInst>)
    requires GoodEnv(env) && FormedTrace(env.prog, trace) && i < |trace|
    requires ShadowHolds(env, trace, i, before)
    requires IsAccess(trace[i]) ==> BlockStore(env, trace[i], after, before, Dyn(env.prog, trace, i))
    requires !IsAccess(trace[i]) ==> after == before
    ensures ShadowHolds(env, trace, i + 1, after)
  {
    forall x | x < MAX_RANGE ensures after(x) == Shadow(env, trace, i + 1)(x) {
      assert before(x) == Shadow(env, trace, i)(x);
    }
  }

  /** Process one block: find what it depends on and record what it writes. */
  method ProcessBlock(ghost env: Env, prog: Program, ghost trace: seq<SmallestBlock>, ghost i: nat, b: SmallestBlock,
                      dyn: DynamicInst, store: SegmentTree<DynamicInst>, owner: SegmentTree<int>,
                      groups: map<int, SegmentTree<int>>)
    returns (deps: set<DynamicInst>)
    requires GoodEnv(env) && env.prog == prog && FormedTrace(prog, trace) && i < |trace| && b == trace[i]
    requires IsAccess(b) && dyn == Dyn(prog, trace, i)
    requires Holds(env, owner, groups) && Apart(store, owner, groups)
    requires store.Valid() && store.left == 0 && store.right == MAX_RANGE
    requires ShadowHolds(env, trace, i, MapOf(store.tree, 0, MAX_RANGE))
    modifies store.Repr
    ensures store.Valid() && fresh(store.Repr - old(store.Repr))
    ensures ShadowHolds(env, trace, i + 1, MapOf(store.tree, 0, MAX_RANGE))
    ensures forall d :: d in deps <==> DependsAs(env, trace, i, d)
  {
    ghost var before := MapOf(store.tree, 0, MAX_RANGE);
    if b.typ in {ExternalCallBlock, ImpactfulCallBlock} {
      deps := AccessArguments(env, b, dyn, store, owner, groups);
      CallAccess(env, b, deps, MapOf(store.tree, 0, MAX_RANGE), before, dyn);
    } else {
      deps := AccessMemory(env, prog, b, dyn, store);
    }
    ShadowStep(env, trace, i, MapOf(store.tree, 0, MAX_RANGE), before);
    DepsStep(env, trace, i, deps, before);
  }

  lemma {:induction false} CallAccess(env: Env, b: SmallestBlock, deps: set<DynamicInst>,
                                      after: uint64 -> Option<DynamicInst>, before: uint64 -> Option<DynamicInst>,
                                      dyn: DynamicInst)
    requires GoodEnv(env) && Formed(env.prog, b) && b.typ in {ExternalCallBlock, ImpactfulCallBlock}
    requires CallStore(env, b, |b.addr|, after, before, dyn)
    requires forall d :: d in deps <==> CallDep(env, b, |b.addr|, before, dyn, d)
    ensures BlockStore(env, b, after, before, dyn) && BlockDeps(env, b, deps, before, dyn)
  {
    CallShadow(env, b);
    forall d ensures d in deps <==>
                || (exists x :: x < MAX_RANGE && Reads(env, b, x) && before(x) == Some(d))
                || (SelfEdge(env, b) && d == dyn)
    {
      if x :| ReachedBelow(env, b, |b.addr|, x) && before(x) == Some(d) {
        assert Reads(env, b, x);
      }
      if x :| x < MAX_RANGE && Reads(env, b, x) && before(x) == Some(d) {
        assert ReachedBelow(env, b, |b.addr|, x);
      }
    }
  }

  lemma {:induction false} DepsStep(env: Env, trace: seq<SmallestBlock>, i: nat, deps: set<DynamicInst>,
                                    before: uint64 -> Option<DynamicInst>)
    requires GoodEnv(env) && FormedTrace(env.prog, trace) && i < |trace| && IsAccess(trace[i])
    requires ShadowHolds(env, trace, i, before)
    requires BlockDeps(env, trace[i], deps, before, Dyn(env.prog, trace, i))
    ensures forall d :: d in deps <==> DependsAs(env, trace, i, d)
  {
    forall d ensures d in deps <==> DependsAs(env, trace, i, d) {
      DependsAsShadow(env, trace, i, d);
    }
  }

  ghost predicate CountsHold(prog: Program, trace: seq<SmallestBlock>, count: map<Key, nat>)
    requires FormedTrace(prog, trace)
  {
    forall key :: Tally(count, key) == Count(prog, trace, key)
  }

  /** `raw` records, in forward numbering, exactly what block i depends on. */
  ghost predicate RawBlock(env: Env, trace: seq<SmallestBlock>, i: nat, raw: DepMap)
    requires GoodEnv(env) && FormedTrace(env.prog, trace) && i < |trace| && IsAccess(trace[i])
  {
    forall d :: InDeps(raw, Dyn(env.prog, trace, i), d) <==> DependsAs(env, trace, i, d)
  }

  /** `e` is one of the first n executions. */
  ghost predicate AmongFirst(prog: Program, trace: seq<SmallestBlock>, n: nat, e: DynamicInst)
    requires FormedTrace(prog, trace) && n <= |trace|
  {
    exists i: nat :: i < n && IsAccess(trace[i]) && e == Dyn(prog, trace, i)
  }

  ghost predicate RawHolds(env: Env, trace: seq<SmallestBlock>, n: nat, raw: DepMap)
    requires GoodEnv(env) && FormedTrace(env.prog, trace) && n <= |trace|
  {
    && (forall i: nat :: i < n && IsAccess(trace[i]) ==> RawBlock(env, trace, i, raw))
    && (forall e :: e in raw ==> AmongFirst(env.prog, trace, n, e))
  }

  lemma {:induction false} CountPrefix(prog: Program, trace: seq<SmallestBlock>, i: nat, j: nat, key: Key)
    requires FormedTrace(prog, trace) && i <= j <= |trace|
    ensures Count(prog, trace[..i], key) <= Count(prog, trace[..j], key)
    ensures i < j && IsAccess(trace[i]) && KeyOf(prog, trace[i]) == key ==>
              Count(prog, trace[..i], key) < Count(prog, trace[..j], key)
    decreases j - i
  {
    if i < j {
      assert trace[..i + 1][..i] == trace[..i];
      CountPrefix(prog, trace, i + 1, j, key);
    }
  }

  /** An execution is determined by its number. */
  lemma {:induction false} DynInjective(prog: Program, trace: seq<SmallestBlock>, i: nat, j: nat)
    requires FormedTrace(prog, trace) && i < |trace| && j < |trace|
    requires IsAccess(trace[i]) && IsAccess(trace[j])
    requires Dyn(prog, trace, i) == Dyn(prog, trace, j)
    ensures i == j
  {
    if i < j { CountPrefix(prog, trace, i, j, KeyOf(prog, trace[i])); }
    if j < i { CountPrefix(prog, trace, j, i, KeyOf(prog, trace[i])); }
  }

  lemma {:induction false} CountStep(prog: Program, trace: seq<SmallestBlock>, i: nat, key: Key)
    requires FormedTrace(prog, trace) && i < |trace|
    ensures Count(prog, trace[..i + 1], key)
            == Count(prog, trace[..i], key) + if IsAccess(trace[i]) && KeyOf(prog, trace[i]) == key then 1 else 0
  {
    assert trace[..i + 1][..i] == trace[..i];
  }

  lemma {:induction false} RawStep(env: Env, trace: seq<SmallestBlock>, i: nat, raw: DepMap, raw': DepMap,
                                   deps: set<DynamicInst>)
    requires GoodEnv(env) && FormedTrace(env.prog, trace) && i < |trace| && IsAccess(trace[i])
    requires RawHolds(env, trace, i, raw)
    requires forall d :: d in deps <==> DependsAs(env, trace, i, d)
    requires raw' == if deps == {} then raw else raw[Dyn(env.prog, trace, i) := deps]
    ensures RawHolds(env, trace, i + 1, raw')
  {
    var e := Dyn(env.prog, trace, i);
    if AmongFirst(env.prog, trace, i, e) {
      var k: nat :| k < i && IsAccess(trace[k]) && e == Dyn(env.prog, trace, k);
      DynInjective(env.prog, trace, k, i);
      assert false;
    }
    forall k: nat | k < i && IsAccess(trace[k]) ensures RawBlock(env, trace, k, raw') {
      assert RawBlock(env, trace, k, raw);
      assert Dyn(env.prog, trace, k) != e;
    }
    assert RawBlock(env, trace, i, raw');
    forall e' | e' in raw' ensures AmongFirst(env.prog, trace, i + 1, e') {
      if e' != e {
        assert AmongFirst(env.prog, trace, i, e');
      }
    }
  }

  lemma {:induction false} CountsStep(prog: Program, trace: seq<SmallestBlock>, i: nat, count: map<Key, nat>,
                                      count': map<Key, nat>)
    requires FormedTrace(prog, trace) && i < |trace|
    requires CountsHold(prog, trace[..i], count)
    requires count' == if IsAccess(trace[i]) then
                         var key := KeyOf(prog, trace[i]);
                         count[key := Tally(count, key) + 1]
                       else count
    ensures CountsHold(prog, trace[..i + 1], count')
  {
    forall key ensures Tally(count', key) == Count(prog, trace[..i + 1], key) {
      CountStep(prog, trace, i, key);
      assert Tally(count, key) == Count(prog, trace[..i], key);
    }
  }

  lemma {:induction false} RawSkip(env: Env, trace: seq<SmallestBlock>, i: nat, raw: DepMap)
    requires GoodEnv(env) && FormedTrace(env.prog, trace) && i < |trace| && !IsAccess(trace[i])
    requires RawHolds(env, trace, i, raw)
    ensures RawHolds(env, trace, i + 1, raw)
  {
    forall e | e in raw ensures AmongFirst(env.prog, trace, i + 1, e) {
      assert AmongFirst(env.prog, trace, i, e);
    }
  }

  /** Number the execution in block b, if it is one. */
  method NextDyn(prog: Program, ghost trace: seq<SmallestBlock>, ghost i: nat, b: SmallestBlock, count: map<Key, nat>)
    returns (dyn: DynamicInst, count': map<Key, nat>)
    requires FormedTrace(prog, trace) && i < |trace| && b == trace[i] && CountsHold(prog, trace[..i], count)
    ensures IsAccess(b) ==> dyn == Dyn(prog, trace, i)
    ensures CountsHold(prog, trace[..i + 1], count')
  {
    dyn, count' := DynamicInst(0, 0, 0), count;
    if IsAccess(b) {
      var key := KeyOf(prog, b);
      dyn := DynamicInst(key.0, key.1, Tally(count, key));
      count' := count[key := Tally(count, key) + 1];
    }
    CountsStep(prog, trace, i, count, count');
  }

  /** Process one block and file its dependencies under `dyn`. */
  method ProcessNext(ghost env: Env, prog: Program, ghost trace: seq<SmallestBlock>, ghost i: nat, b: SmallestBlock,
                     dyn: DynamicInst, store: SegmentTree<DynamicInst>, owner: SegmentTree<int>,
                     groups: map<int, SegmentTree<int>>, raw: DepMap)
    returns (raw': DepMap)
    requires GoodEnv(env) && env.prog == prog && FormedTrace(prog, trace) && i < |trace| && b == trace[i]
    requires IsAccess(b) ==> dyn == Dyn(prog, trace, i)
    requires Holds(env, owner, groups) && Apart(store, owner, groups)
    requires store.Valid() && store.left == 0 && store.right == MAX_RANGE
    requires ShadowHolds(env, trace, i, MapOf(store.tree, 0, MAX_RANGE))
    requires RawHolds(env, trace, i, raw)
    modifies store.Repr
    ensures store.Valid() && fresh(store.Repr - old(store.Repr))
    ensures ShadowHolds(env, trace, i + 1, MapOf(store.tree, 0, MAX_RANGE))
    ensures RawHolds(env, trace, i + 1, raw')
  {
    raw' := raw;
    if IsAccess(b) {
      var deps := ProcessBlock(env, prog, trace, i, b, dyn, store, owner, groups);
      if deps != {} { raw' := raw[dyn := deps]; }
      RawStep(env, trace, i, raw, raw', deps);
    } else {
      ShadowStep(env, trace, i, MapOf(store.tree, 0, MAX_RANGE), MapOf(store.tree, 0, MAX_RANGE));
      RawSkip(env, trace, i, raw);
    }
  }

  /** First loop: the dependencies in forward numbering. */
  method CollectDependencies(ghost env: Env, prog: Program, trace: seq<SmallestBlock>, owner: SegmentTree<int>,
                             groups: map<int, SegmentTree<int>>)
    returns (raw: DepMap, count: map<Key, nat>)
    requires GoodEnv(env) && env.prog == prog && FormedTrace(prog, trace) && Holds(env, owner, groups)
    ensures RawHolds(env, trace, |trace|, raw) && CountsHold(prog, trace, count)
  {
    raw, count := map[], map[];
    var store := new SegmentTree<DynamicInst>.NewTree(DynamicInst(0, 0, 0));
    var i := 0;
    while i < |trace|
      invariant 0 <= i <= |trace|
      invariant store.Valid() && fresh(store.Repr) && store.left == 0 && store.right == MAX_RANGE
      invariant ShadowHolds(env, trace, i, MapOf(store.tree, 0, MAX_RANGE))
      invariant RawHolds(env, trace, i, raw)
      invariant CountsHold(prog, trace[..i], count)
    {
      var dyn;
      dyn, count := NextDyn(prog, trace, i, trace[i], count);
      raw := ProcessNext(env, prog, trace, i, trace[i], dyn, store, owner, groups, raw);
      i := i + 1;
    }
    assert trace[..|trace|] == trace;
  }

  // -------------------------------------------------------- renumbering

  /** Block i as an execution, numbered from the end of the trace: 0 is the
      last execution, -1 the one before it. */
  ghost function Back(prog: Program, trace: seq<SmallestBlock>, i: nat): DynamicInst
    requires FormedTrace(prog, trace) && i < |trace| && IsAccess(trace[i])
  {
    var d := Dyn(prog, trace, i);
    d.(cnt := d.cnt - (Count(prog, trace, KeyOf(prog, trace[i])) - 1))
  }

  function Renumber(count: map<Key, nat>, d: DynamicInst): DynamicInst {
    d.(cnt := d.cnt - (Tally(count, (d.tid, d.id)) - 1))
  }

  ghost function Restore(count: map<Key, nat>, d: DynamicInst): DynamicInst {
    d.(cnt := d.cnt + (Tally(count, (d.tid, d.id)) - 1))
  }

  ghost predicate DependsBack(env: Env, trace: seq<SmallestBlock>, i: nat, d: DynamicInst)
    requires GoodEnv(env) && FormedTrace(env.prog, trace) && i < |trace|
  {
    exists j: nat :: j <= i && IsAccess(trace[j]) && Depends(env, trace, i, j) && d == Back(env.prog, trace, j)
  }

  ghost predicate ExtractedBlock(env: Env, trace: seq<SmallestBlock>, i: nat, memDep: DepMap)
    requires GoodEnv(env) && FormedTrace(env.prog, trace) && i < |trace| && IsAccess(trace[i])
  {
    forall d :: InDeps(memDep, Back(env.prog, trace, i), d) <==> DependsBack(env, trace, i, d)
  }

  ghost predicate IsExecution(prog: Program, trace: seq<SmallestBlock>, e: DynamicInst)
    requires FormedTrace(prog, trace)
  {
    exists i: nat :: i < |trace| && IsAccess(trace[i]) && e == Back(prog, trace, i)
  }

  /** What the pass promises: the dependencies of block i are the blocks that
      last wrote the bytes it reads, and nothing else is recorded. */
  ghost predicate Extracted(env: Env, trace: seq<SmallestBlock>, memDep: DepMap)
    requires GoodEnv(env) && FormedTrace(env.prog, trace)
  {
    && (forall i: nat :: i < |trace| && IsAccess(trace[i]) ==> ExtractedBlock(env, trace, i, memDep))
    && (forall e :: e in memDep ==> IsExecution(env.prog, trace, e))
  }

  lemma {:induction false} BackOfDyn(prog: Program, trace: seq<SmallestBlock>, count: map<Key, nat>, i: nat)
    requires FormedTrace(prog, trace) && i < |trace| && IsAccess(trace[i]) && CountsHold(prog, trace, count)
    ensures Renumber(count, Dyn(prog, trace, i)) == Back(prog, trace, i)
    ensures Restore(count, Back(prog, trace, i)) == Dyn(prog, trace, i)
  {
    assert Tally(count, KeyOf(prog, trace[i])) == Count(prog, trace, KeyOf(prog, trace[i]));
  }

  /** Second loop: number the executions from the end instead. */
  method RenumberAll(raw: DepMap, count: map<Key, nat>) returns (memDep: DepMap)
    ensures forall e :: e in memDep <==> Restore(count, e) in raw
    ensures forall e, d :: InDeps(memDep, e, d) <==> InDeps(raw, Restore(count, e), Restore(count, d))
  {
    memDep := map[];
    var todo := raw.Keys;
    while todo != {}
      invariant todo <= raw.Keys
      invariant forall e :: e in memDep <==> Restore(count, e) in raw.Keys - todo
      invariant forall e, d :: InDeps(memDep, e, d) <==>
                  Restore(count, e) !in todo && InDeps(raw, Restore(count, e), Restore(count, d))
      decreases todo
    {
      var e :| e in todo;
      var deps := RenumberSet(raw[e], count);
      memDep := memDep[Renumber(count, e) := deps];
      todo := todo - {e};
    }
  }

  method RenumberSet(deps: set<DynamicInst>, count: map<Key, nat>) returns (out: set<DynamicInst>)
    ensures forall d :: d in out <==> Restore(count, d) in deps
  {
    out := {};
    var todo := deps;
    while todo != {}
      invariant todo <= deps
      invariant forall d :: d in out <==> Restore(count, d) in deps - todo
      decreases todo
    {
      var d :| d in todo;
      out := out + {Renumber(count, d)};
      todo := todo - {d};
    }
  }

  method ExtractMemoryDependency(ghost env: Env, prog: Program, trace: seq<SmallestBlock>, owner: SegmentTree<int>,
                                 groups: map<int, SegmentTree<int>>)
    returns (memDep: DepMap)
    requires GoodEnv(env) && env.prog == prog && FormedTrace(prog, trace) && Holds(env, owner, groups)
    ensures Extracted(env, trace, memDep)
  {
    var raw, count := CollectDependencies(env, prog, trace, owner, groups);
    memDep := RenumberAll(raw, count);
    forall i: nat | i < |trace| && IsAccess(trace[i]) ensures ExtractedBlock(env, trace, i, memDep) {
      ExtractBlock(env, trace, i, raw, count, memDep);
    }
    forall e | e in memDep ensures IsExecution(prog, trace, e) {
      assert AmongFirst(prog, trace, |trace|, Restore(count, e));
      var i: nat :| i < |trace| && IsAccess(trace[i]) && Restore(count, e) == Dyn(prog, trace, i);
      BackOfDyn(prog, trace, count, i);
      assert Renumber(count, Restore(count, e)) == e;
    }
  }

  lemma {:induction false} ExtractBlock(env: Env, trace: seq<SmallestBlock>, i: nat, raw: DepMap, count: map<Key, nat>,
                                        memDep: DepMap)
    requires GoodEnv(env) && FormedTrace(env.prog, trace) && i < |trace| && IsAccess(trace[i])
    requires RawBlock(env, trace, i, raw) && CountsHold(env.prog, trace, count)
    requires forall e, d :: InDeps(memDep, e, d) <==> InDeps(raw, Restore(count, e), Restore(count, d))
    ensures ExtractedBlock(env, trace, i, memDep)
  {
    BackOfDyn(env.prog, trace, count, i);
    forall d ensures InDeps(memDep, Back(env.prog, trace, i), d) <==> DependsBack(env, trace, i, d) {
      assert InDeps(memDep, Back(env.prog, trace, i), d) <==> DependsAs(env, trace, i, Restore(count, d));
      if DependsAs(env, trace, i, Restore(count, d)) {
        var j: nat :| j <= i && IsAccess(trace[j]) && Depends(env, trace, i, j)
            && Restore(count, d) == Dyn(env.prog, trace, j);
        BackOfDyn(env.prog, trace, count, j);
        assert Renumber(count, Restore(count, d)) == d;
      }
      if DependsBack(env, trace, i, d) {
        var j: nat :| j <= i && IsAccess(trace[j]) && Depends(env, trace, i, j) && d == Back(env.prog, trace, j);
        BackOfDyn(env.prog, trace, count, j);
      }
    }
  }
}
