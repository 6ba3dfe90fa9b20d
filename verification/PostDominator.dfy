/** Post-dominators of basic blocks (tools/PrintBug/PrintBug.cpp, lines 36-100).

    The fixpoint keeps, for every block, a set that starts as what the block can
    reach. For a block without successors the source compares, and stores, what
    is left over from the block before it; this is part of the model. */
module PostDominator {
  import opened Common

  type Graph = map<nat, seq<nat>>

  type Sets = map<nat, set<nat>>

  function Succ(g: Graph, v: nat): seq<nat> { if v in g then g[v] else [] }

  predicate Exit(g: Graph, v: nat) { Succ(g, v) == [] }

  function At(pd: Sets, v: nat): set<nat> { if v in pd then pd[v] else {} }

  // ------------------------------------------------------------------- paths

  ghost predicate Hop(g: Graph, p: seq<nat>, k: nat)
    requires k + 1 < |p|
  {
    p[k + 1] in Succ(g, p[k])
  }

  ghost predicate Path(g: Graph, p: seq<nat>) {
    |p| > 0 && forall k: nat :: k + 1 < |p| ==> Hop(g, p, k)
  }

  function Last(p: seq<nat>): nat
    requires p != []
  {
    p[|p| - 1]
  }

  ghost predicate Reach(g: Graph, u: nat, v: nat) {
    exists p :: Path(g, p) && p[0] == u && Last(p) == v
  }

  /** The path does not meet d after its start. */
  ghost predicate Avoids(p: seq<nat>, d: nat) {
    forall k :: 1 <= k < |p| ==> p[k] != d
  }

  /** A walk from i that has not met d yet can always still get to d. */
  ghost predicate Inevitable(g: Graph, i: nat, d: nat) {
    forall p :: Path(g, p) && p[0] == i && Avoids(p, d) ==> Reach(g, Last(p), d)
  }

  /** Every path from i to an exit meets d after its start. */
  ghost predicate StrictPostDom(g: Graph, i: nat, d: nat) {
    forall p :: Path(g, p) && p[0] == i && Exit(g, Last(p)) ==> !Avoids(p, d)
  }

  lemma {:induction false} PathJoin(g: Graph, p: seq<nat>, q: seq<nat>)
    requires Path(g, p) && Path(g, q) && Last(p) == q[0]
    ensures Path(g, p + q[1..]) && Last(p + q[1..]) == Last(q)
  {
    var r := p + q[1..];
    forall k: nat | k + 1 < |r| ensures Hop(g, r, k) {
      if k + 1 < |p| {
        assert Hop(g, p, k);
      } else {
        var n: nat := k + 1 - |p|;
        assert Hop(g, q, n);
        assert r[k] == q[n] && r[k + 1] == q[n + 1];
      }
    }
  }

  lemma {:induction false} PathPart(g: Graph, p: seq<nat>, lo: nat, hi: nat)
    requires Path(g, p) && lo < hi <= |p|
    ensures Path(g, p[lo..hi])
  {
    forall k: nat | k + 1 < |p[lo..hi]| ensures Hop(g, p[lo..hi], k) { assert Hop(g, p, lo + k); }
  }

  lemma {:induction false} PathEdge(g: Graph, u: nat, v: nat)
    requires v in Succ(g, u)
    ensures Path(g, [u, v])
  {
    assert Hop(g, [u, v], 0);
  }

  lemma {:induction false} ReachSelf(g: Graph, u: nat)
    ensures Reach(g, u, u)
  {
    assert Path(g, [u]);
  }

  lemma {:induction false} ReachStep(g: Graph, u: nat, v: nat, w: nat)
    requires v in Succ(g, u) && Reach(g, v, w)
    ensures Reach(g, u, w)
  {
    var p :| Path(g, p) && p[0] == v && Last(p) == w;
    PathEdge(g, u, v);
    PathJoin(g, [u, v], p);
  }

  /** From an exit nothing else is reached. */
  lemma {:induction false} ReachFromExit(g: Graph, e: nat, v: nat)
    requires Exit(g, e) && Reach(g, e, v)
    ensures v == e
  {
    var p :| Path(g, p) && p[0] == e && Last(p) == v;
    assert |p| > 1 ==> Hop(g, p, 0);
  }

  // ----------------------------------------------- what the fixpoint stands for

  ghost predicate CanEnd(g: Graph, v: nat) {
    exists e: nat :: Exit(g, e) && Reach(g, v, e)
  }

  /** A walk from i that has not met d yet can always still get to an exit. */
  ghost predicate EndsPast(g: Graph, i: nat, d: nat) {
    forall p :: Path(g, p) && p[0] == i && Avoids(p, d) ==> CanEnd(g, Last(p))
  }

  /** Which strict post-dominators are inevitable: exactly those past which no walk
      can lose sight of the exits. (Without an exit in reach, every block is a strict
      post-dominator.) */
  lemma {:induction false} StrictInevitable(g: Graph, i: nat, d: nat)
    requires CanEnd(g, i) && StrictPostDom(g, i, d)
    ensures Inevitable(g, i, d) <==> EndsPast(g, i, d)
  {
    hide Inevitable, EndsPast, StrictPostDom, CanEnd;
    if Inevitable(g, i, d) { InevitableEnds(g, i, d); }
    if EndsPast(g, i, d) { EndsInevitable(g, i, d); }
  }

  lemma {:induction false} InevitableEnds(g: Graph, i: nat, d: nat)
    requires CanEnd(g, i) && StrictPostDom(g, i, d) && Inevitable(g, i, d)
    ensures EndsPast(g, i, d)
  {
    hide Reach;
    EndsFrom(g, i, d);
    forall p | Path(g, p) && p[0] == i && Avoids(p, d) ensures CanEnd(g, Last(p)) {
      EndsThrough(g, Last(p), d);
    }
  }

  /** The way to an exit meets d, so d can get there. */
  lemma {:induction false} EndsFrom(g: Graph, i: nat, d: nat)
    requires CanEnd(g, i) && StrictPostDom(g, i, d)
    ensures CanEnd(g, d)
  {
    var e: nat :| Exit(g, e) && Reach(g, i, e);
    var p :| Path(g, p) && p[0] == i && Last(p) == e;
    var k :| 1 <= k < |p| && p[k] == d;
    PathPart(g, p, k, |p|);
    assert Reach(g, d, e);
  }

  lemma {:induction false} EndsThrough(g: Graph, v: nat, d: nat)
    requires Reach(g, v, d) && CanEnd(g, d)
    ensures CanEnd(g, v)
  {
    var e: nat :| Exit(g, e) && Reach(g, d, e);
    var p :| Path(g, p) && p[0] == v && Last(p) == d;
    var q :| Path(g, q) && q[0] == d && Last(q) == e;
    PathJoin(g, p, q);
    assert (p + q[1..])[0] == v;
    assert Reach(g, v, e);
  }

  lemma {:induction false} EndsInevitable(g: Graph, i: nat, d: nat)
    requires StrictPostDom(g, i, d) && EndsPast(g, i, d)
    ensures Inevitable(g, i, d)
  {
    forall p | Path(g, p) && p[0] == i && Avoids(p, d) ensures Reach(g, Last(p), d) {
      StrictAhead(g, p, d);
    }
  }

  /** A path that has not met d can be led to an exit, and so to d. */
  lemma {:induction false} StrictAhead(g: Graph, p: seq<nat>, d: nat)
    requires Path(g, p) && Avoids(p, d) && StrictPostDom(g, p[0], d) && CanEnd(g, Last(p))
    ensures Reach(g, Last(p), d)
  {
    hide Reach;
    var q := EndOf(g, Last(p));
    PathJoin(g, p, q);
    var r := p + q[1..];
    var k :| 1 <= k < |r| && r[k] == d;
    var n: nat := k + 1 - |p|;
    PathPart(g, q, 0, n + 1);
    assert Last(q[0..n + 1]) == d;
    ReachBy(g, q[0..n + 1]);
  }

  lemma {:induction false} ReachBy(g: Graph, p: seq<nat>)
    requires Path(g, p)
    ensures Reach(g, p[0], Last(p))
  {
  }

  lemma {:induction false} EndOf(g: Graph, v: nat) returns (q: seq<nat>)
    requires CanEnd(g, v)
    ensures Path(g, q) && q[0] == v && Exit(g, Last(q))
  {
    var e: nat :| Exit(g, e) && Reach(g, v, e);
    q :| Path(g, q) && q[0] == v && Last(q) == e;
  }

  /** Where everything can end, the inevitable blocks are the strict
      post-dominators. */
  lemma {:induction false} InevitableIsStrict(g: Graph, i: nat, d: nat)
    requires !Exit(g, i) && forall v :: Reach(g, i, v) ==> CanEnd(g, v)
    ensures Inevitable(g, i, d) <==> StrictPostDom(g, i, d)
  {
    hide CanEnd;
    if Inevitable(g, i, d) {
      forall p | Path(g, p) && p[0] == i && Exit(g, Last(p)) ensures !Avoids(p, d) {
        if Avoids(p, d) { ReachFromExit(g, Last(p), d); }
      }
    }
    if StrictPostDom(g, i, d) {
      forall p | Path(g, p) && p[0] == i && Avoids(p, d) ensures CanEnd(g, Last(p)) { ReachBy(g, p); }
      EndsInevitable(g, i, d);
    }
  }

  /** A block on the way to an endless loop loses its post-dominators: block 0
      goes to block 1, which loops, or to block 2, which goes to the exit. Every
      path from 0 to an exit meets 2, yet the fixpoint does not find it. */
  lemma {:induction false} LoopHidesPostDom(g: Graph)
    requires g == map[0 := [1, 2], 1 := [1], 2 := [3]]
    ensures StrictPostDom(g, 0, 2) && CanEnd(g, 0) && !EndsPast(g, 0, 2) && !Inevitable(g, 0, 2)
    ensures Undisturbed(g) && forall pd :: Sufficient(g, pd) ==> 2 !in At(pd, 0)
  {
    hide Inevitable, CanEnd, Reach, StrictPostDom;
    LateOrFirst(g);
    assert StrictPostDom(g, 0, 2) by { LoopPassed(g); }
    LoopEnds(g);
    StrictInevitable(g, 0, 2);
    assert !Exit(g, 0);
  }

  lemma {:induction false} LoopPassed(g: Graph)
    requires g == map[0 := [1, 2], 1 := [1], 2 := [3]]
    ensures StrictPostDom(g, 0, 2)
  {
    forall p | Path(g, p) && p[0] == 0 && Exit(g, Last(p)) ensures !Avoids(p, 2) {
      assert |p| > 1 && Hop(g, p, 0);
      if p[1] == 1 { StaysInLoop(g, p, |p| - 1); }
    }
  }

  lemma {:induction false} LoopEnds(g: Graph)
    requires g == map[0 := [1, 2], 1 := [1], 2 := [3]]
    ensures CanEnd(g, 0) && !EndsPast(g, 0, 2)
  {
    assert Hop(g, [0, 2, 3], 0) && Hop(g, [0, 2, 3], 1);
    assert Path(g, [0, 2, 3]);
    assert Exit(g, 3) && Reach(g, 0, 3);
    assert Path(g, [0, 1]) by { PathEdge(g, 0, 1); }
    if CanEnd(g, 1) {
      var p := EndOf(g, 1);
      LoopForever(g, p, |p| - 1);
    }
    assert Avoids([0, 1], 2) && Last([0, 1]) == 1;
  }

  lemma {:induction false} StaysInLoop(g: Graph, p: seq<nat>, k: nat)
    requires g == map[0 := [1, 2], 1 := [1], 2 := [3]] && Path(g, p) && 1 <= k < |p| && p[1] == 1
    ensures p[k] == 1
  {
    if k > 1 { StaysInLoop(g, p, k - 1); assert Hop(g, p, k - 1); }
  }

  lemma {:induction false} LoopForever(g: Graph, p: seq<nat>, k: nat)
    requires g == map[0 := [1, 2], 1 := [1], 2 := [3]] && Path(g, p) && k < |p| && p[0] == 1
    ensures p[k] == 1
  {
    if k > 0 { LoopForever(g, p, k - 1); assert Hop(g, p, k - 1); }
  }

  // ------------------------------------------------------------- one pass

  /** Intersect with what the successors keep, each with itself added. */
  function Meet(pd: Sets, acc: set<nat>, js: seq<nat>): set<nat>
    decreases |js|
  {
    if js == [] then acc else Meet(pd, acc * (At(pd, js[0]) + {js[0]}), js[1..])
  }

  lemma {:induction false} MeetMeets(pd: Sets, acc: set<nat>, js: seq<nat>)
    ensures forall d :: d in Meet(pd, acc, js) <==> d in acc && forall j :: j in js ==> d == j || d in At(pd, j)
    decreases |js|
  {
    if js != [] {
      MeetMeets(pd, acc * (At(pd, js[0]) + {js[0]}), js[1..]);
      assert forall j :: j in js <==> j == js[0] || j in js[1..];
    }
  }

  /** What is stored for block i is `res`: its own meet, or for an exit what is
      left over. It replaces the old set if it has a different size. */
  function Result(g: Graph, pd: Sets, res: set<nat>, i: nat): set<nat> {
    if Exit(g, i) then res else Meet(pd, At(pd, i), Succ(g, i))
  }

  function Stored(pd: Sets, i: nat, r: set<nat>): Sets {
    if |r| != |At(pd, i)| then pd[i := r] else pd
  }

  function PassOver(g: Graph, pd: Sets, res: set<nat>, ids: seq<nat>): Sets
    decreases |ids|
  {
    if ids == [] then pd
    else
      var r := Result(g, pd, res, ids[0]);
      PassOver(g, Stored(pd, ids[0], r), r, ids[1..])
  }

  // ------------------------------------------------------- what a pass keeps

  /** The sets are large enough, and hold only what can be reached. */
  ghost predicate Bounded(g: Graph, pd: Sets) {
    && (forall i, d :: !Exit(g, i) && Inevitable(g, i, d) ==> d in At(pd, i))
    && (forall i, d :: !Exit(g, i) && d in At(pd, i) ==> Reach(g, i, d))
  }

  /** The last block below n that is no exit. */
  function InnerBelow(g: Graph, n: nat): Option<nat> {
    if n == 0 then None else if !Exit(g, n - 1) then Some(n - 1) else InnerBelow(g, n - 1)
  }

  /** Every exit is numbered after the blocks that lead to it; or, where one is not,
      nothing else can be reached both from such a block and from the last inner block
      before the exit, which is the one whose set is left over when the exit's turn comes. */
  ghost predicate Undisturbed(g: Graph) {
    forall i: nat, e: nat :: e in Succ(g, i) && Exit(g, e) && e <= i ==> OnlyShares(g, i, e)
  }

  ghost predicate OnlyShares(g: Graph, i: nat, e: nat) {
    forall d: nat :: LeftFrom(g, e, d) && Reach(g, i, d) ==> d == e
  }

  /** The last inner block below n can reach d. */
  ghost predicate LeftFrom(g: Graph, n: nat, d: nat) {
    InnerBelow(g, n).Some? && Reach(g, InnerBelow(g, n).value, d)
  }

  /** So it is, if every exit comes after the blocks that lead to it, or before all inner
      blocks. */
  lemma {:induction false} LateOrFirst(g: Graph)
    requires forall i: nat, e: nat :: e in Succ(g, i) && Exit(g, e) ==> i < e || forall k: nat :: k < e ==> Exit(g, k)
    ensures Undisturbed(g)
  {
    hide Reach;
    forall i: nat, e: nat | e in Succ(g, i) && Exit(g, e) && e <= i ensures OnlyShares(g, i, e) { NoneBelow(g, e); }
  }

  lemma {:induction false} NoneBelow(g: Graph, n: nat)
    requires forall k: nat :: k < n ==> Exit(g, k)
    ensures InnerBelow(g, n).None?
  {
    if n > 0 { NoneBelow(g, n - 1); }
  }

  lemma {:induction false} InnerBelowSkip(g: Graph, n: nat, m: nat)
    requires n <= m && forall k: nat :: n <= k < m ==> Exit(g, k)
    ensures InnerBelow(g, m) == InnerBelow(g, n)
    decreases m
  {
    if n < m {
      assert Exit(g, m - 1);
      InnerBelowSkip(g, n, m - 1);
    }
  }

  /** An exit holds itself, and what the last inner block before it can reach. */
  ghost predicate ExitsBounded(g: Graph, pd: Sets) {
    forall e: nat, d: nat :: Exit(g, e) && d in At(pd, e) ==> d == e || LeftFrom(g, e, d)
  }

  ghost predicate RestBounded(g: Graph, res: set<nat>, n: nat) {
    forall d: nat :: d in res ==> LeftFrom(g, n, d)
  }

  /** Blocks below n that lead to an exit keep at most that exit. */
  ghost predicate Tight(g: Graph, pd: Sets, n: nat) {
    forall i: nat, e: nat :: i < n && e in Succ(g, i) && Exit(g, e) ==> At(pd, i) <= {e}
  }

  /** The sets of exits from n on have not been overwritten yet. */
  ghost predicate Clean(g: Graph, pd: Sets, n: nat) {
    forall e: nat :: n <= e && Exit(g, e) ==> At(pd, e) <= {e}
  }

  lemma {:induction false} InevitableStep(g: Graph, i: nat, j: nat, d: nat)
    requires Inevitable(g, i, d) && j in Succ(g, i) && j != d
    ensures Inevitable(g, j, d) && !Exit(g, j)
  {
    forall p | Path(g, p) && p[0] == j && Avoids(p, d) ensures Reach(g, Last(p), d) {
      PathEdge(g, i, j);
      PathJoin(g, [i, j], p);
      var q := [i, j] + p[1..];
      forall k | 1 <= k < |q| ensures q[k] != d {
        if k >= 2 { assert q[k] == p[k - 1]; }
      }
      assert Avoids(q, d);
    }
    PathEdge(g, i, j);
    assert Avoids([i, j], d);
    assert Reach(g, j, d);
    if Exit(g, j) { ReachFromExit(g, j, d); }
  }

  /** The set of a block with successors only shrinks, and keeps what is
      inevitable. */
  lemma {:induction false} ResultShrinks(g: Graph, pd: Sets, res: set<nat>, i: nat)
    requires !Exit(g, i)
    ensures var r := Result(g, pd, res, i);
            && r <= At(pd, i) && At(Stored(pd, i, r), i) == r
            && (Stored(pd, i, r) == pd <==> r == At(pd, i))
            && (forall j, d :: j in Succ(g, i) && d in r ==> d == j || d in At(pd, j))
            && (forall d :: d in At(pd, i) && (forall j :: j in Succ(g, i) ==> d == j || d in At(pd, j)) ==> d in r)
  {
    MeetMeets(pd, At(pd, i), Succ(g, i));
    SmallerSet(Meet(pd, At(pd, i), Succ(g, i)), At(pd, i));
  }

  lemma {:induction false} SmallerSet(a: set<nat>, b: set<nat>)
    requires a <= b
    ensures |a| <= |b| && (|a| == |b| ==> a == b)
  {
    var rest := b - a;
    assert b == a + rest && a !! rest;
  }

  lemma {:induction false} StepBounded(g: Graph, pd: Sets, res: set<nat>, i: nat)
    requires Bounded(g, pd)
    ensures Bounded(g, Stored(pd, i, Result(g, pd, res, i)))
  {
    hide Inevitable, Reach;
    var pd' := Stored(pd, i, Result(g, pd, res, i));
    if !Exit(g, i) {
      ResultShrinks(g, pd, res, i);
      forall d | Inevitable(g, i, d) ensures d in At(pd', i) {
        forall j | j in Succ(g, i) ensures d == j || d in At(pd, j) {
          if d != j { InevitableStep(g, i, j, d); }
        }
      }
    }
  }

  lemma {:induction false} StepTight(g: Graph, pd: Sets, res: set<nat>, i: nat, n: nat)
    requires n <= i && Undisturbed(g) && Clean(g, pd, n) && Tight(g, pd, n) && ExitsBounded(g, pd) && Bounded(g, pd)
    requires forall k: nat :: n <= k < i ==> Exit(g, k)
    ensures var pd' := Stored(pd, i, Result(g, pd, res, i)); Clean(g, pd', i + 1) && Tight(g, pd', i + 1)
  {
    hide Reach, LeftFrom, Inevitable;
    var pd' := Stored(pd, i, Result(g, pd, res, i));
    if !Exit(g, i) { ResultShrinks(g, pd, res, i); }
    forall k: nat, e: nat | k < i + 1 && e in Succ(g, k) && Exit(g, e) ensures At(pd', k) <= {e} {
      if k == i {
        if i < e { assert At(pd, e) <= {e}; } else { assert OnlyShares(g, i, e); }
      }
      assert n <= k < i ==> Exit(g, k);
    }
  }

  /** What is left over is what the block before could reach. */
  lemma {:induction false} StepExits(g: Graph, pd: Sets, res: set<nat>, i: nat)
    requires ExitsBounded(g, pd) && Bounded(g, pd) && RestBounded(g, res, i)
    ensures var r := Result(g, pd, res, i);
            ExitsBounded(g, Stored(pd, i, r)) && RestBounded(g, r, i + 1)
  {
    hide Reach, Inevitable;
    if !Exit(g, i) { ResultShrinks(g, pd, res, i); }
  }

  lemma {:induction false} StepStaysTight(g: Graph, pd: Sets, res: set<nat>, i: nat, n: nat)
    requires Tight(g, pd, n)
    ensures Tight(g, Stored(pd, i, Result(g, pd, res, i)), n)
  {
    if !Exit(g, i) { ResultShrinks(g, pd, res, i); }
  }

  // ------------------------------------------------------ a pass as a whole

  /** The blocks of the graph, in ascending order. */
  ghost predicate Ascending(ids: seq<nat>) {
    forall a, b :: 0 <= a < b < |ids| ==> ids[a] < ids[b]
  }

  lemma {:induction false} PassBounded(g: Graph, pd: Sets, res: set<nat>, ids: seq<nat>)
    requires Bounded(g, pd)
    ensures Bounded(g, PassOver(g, pd, res, ids))
    decreases |ids|
  {
    hide Bounded;
    if ids != [] {
      StepBounded(g, pd, res, ids[0]);
      var r := Result(g, pd, res, ids[0]);
      PassBounded(g, Stored(pd, ids[0], r), r, ids[1..]);
    }
  }

  lemma {:induction false} PassStaysTight(g: Graph, pd: Sets, res: set<nat>, ids: seq<nat>, n: nat)
    requires Tight(g, pd, n)
    ensures Tight(g, PassOver(g, pd, res, ids), n)
    decreases |ids|
  {
    hide Tight;
    if ids != [] {
      StepStaysTight(g, pd, res, ids[0], n);
      var r := Result(g, pd, res, ids[0]);
      PassStaysTight(g, Stored(pd, ids[0], r), r, ids[1..], n);
    }
  }

  /** The first pass: blocks that lead to an exit are done before the exit is overwritten,
      or after it has been overwritten with what does no harm. */
  lemma {:induction false} FirstPass(g: Graph, pd: Sets, res: set<nat>, ids: seq<nat>, n: nat, top: nat)
    requires Undisturbed(g) && Clean(g, pd, n) && Tight(g, pd, n) && Ascending(ids)
    requires Bounded(g, pd) && ExitsBounded(g, pd) && RestBounded(g, res, n)
    requires forall k: nat :: n <= k < top && k !in ids ==> Exit(g, k)
    requires forall k :: 0 <= k < |ids| ==> n <= ids[k] < top
    ensures Tight(g, PassOver(g, pd, res, ids), top)
    decreases |ids|
  {
    hide Tight, Clean, Undisturbed, ExitsBounded, Bounded, LeftFrom;
    if ids == [] {
      TightAbove(g, pd, n, top);
    } else {
      var i := ids[0];
      forall k: nat | n <= k < i ensures Exit(g, k) {
        AscendingSplit(ids, k);
      }
      InnerBelowSkip(g, n, i);
      SameLeft(g, n, i);
      StepTight(g, pd, res, i, n);
      StepBounded(g, pd, res, i);
      StepExits(g, pd, res, i);
      var r := Result(g, pd, res, i);
      forall k: nat | i + 1 <= k < top && k !in ids[1..] ensures Exit(g, k) {
        AscendingSplit(ids, k);
      }
      FirstPass(g, Stored(pd, i, r), r, ids[1..], i + 1, top);
    }
  }

  lemma {:induction false} SameLeft(g: Graph, n: nat, m: nat)
    requires InnerBelow(g, n) == InnerBelow(g, m)
    ensures forall d: nat :: LeftFrom(g, n, d) <==> LeftFrom(g, m, d)
  {
    hide Reach;
  }

  lemma {:induction false} TightAbove(g: Graph, pd: Sets, n: nat, top: nat)
    requires Tight(g, pd, n) && forall k: nat :: n <= k < top ==> Exit(g, k)
    ensures Tight(g, pd, top)
  {
    forall i: nat, e: nat | i < top && e in Succ(g, i) && Exit(g, e) ensures At(pd, i) <= {e} {
      assert n <= i ==> Exit(g, i);
    }
  }

  lemma {:induction false} AscendingSplit(ids: seq<nat>, k: nat)
    requires Ascending(ids) && ids != []
    ensures k in ids <==> k == ids[0] || k in ids[1..]
    ensures k in ids ==> ids[0] <= k
    ensures k in ids[1..] ==> ids[0] < k
    ensures Ascending(ids[1..])
  {
    if k in ids[1..] { var a :| 0 <= a < |ids[1..]| && ids[1..][a] == k; assert ids[a + 1] == k; }
  }

  /** No set would change. */
  ghost predicate Settled(g: Graph, pd: Sets) {
    forall i, j, d :: j in Succ(g, i) && d in At(pd, i) ==> d == j || d in At(pd, j)
  }

  lemma {:induction false} Unchanged(g: Graph, pd: Sets, res: set<nat>, ids: seq<nat>, a: nat)
    requires PassSame(g, pd, res, ids) && a < |ids|
    ensures forall j, d :: j in Succ(g, ids[a]) && d in At(pd, ids[a]) ==> d == j || d in At(pd, j)
    decreases a
  {
    var i := ids[0];
    var r := Result(g, pd, res, i);
    if a == 0 {
      if !Exit(g, i) { ResultShrinks(g, pd, res, i); }
    } else {
      Unchanged(g, pd, r, ids[1..], a - 1);
    }
  }

  /** No step of the pass stores anything. */
  ghost predicate PassSame(g: Graph, pd: Sets, res: set<nat>, ids: seq<nat>)
    decreases |ids|
  {
    ids != [] ==>
      var r := Result(g, pd, res, ids[0]);
      Stored(pd, ids[0], r) == pd && PassSame(g, pd, r, ids[1..])
  }

  /** A pass that changes nothing has reached the fixpoint. */
  lemma {:induction false} SameIsSettled(g: Graph, pd: Sets, ids: seq<nat>)
    requires PassSame(g, pd, {}, ids) && forall i: nat :: !Exit(g, i) ==> i in ids
    ensures Settled(g, pd)
  {
    forall i: nat, j: nat, d: nat | j in Succ(g, i) && d in At(pd, i) ensures d == j || d in At(pd, j) {
      assert !Exit(g, i) && i in ids;
      var a :| 0 <= a < |ids| && ids[a] == i;
      Unchanged(g, pd, {}, ids, a);
    }
  }

  /** At the fixpoint, if the sets are tight, they hold exactly what is
      inevitable. */
  lemma {:induction false} SettledExact(g: Graph, pd: Sets, i: nat, d: nat, top: nat)
    requires Bounded(g, pd) && Settled(g, pd) && Tight(g, pd, top) && forall k: nat :: !Exit(g, k) ==> k < top
    requires !Exit(g, i)
    ensures d in At(pd, i) <==> Inevitable(g, i, d)
  {
    if d in At(pd, i) {
      forall p | Path(g, p) && p[0] == i && Avoids(p, d) ensures Reach(g, Last(p), d) {
        StaysIn(g, pd, p, d, |p| - 1, top);
      }
    }
  }

  /** In any graph, the settled sets are exact if and only if no block that leads to
      an exit holds anything but that exit: the value left over from another block
      does harm only by being let in there. */
  lemma {:induction false} SettledExactly(g: Graph, pd: Sets, top: nat)
    requires Bounded(g, pd) && Settled(g, pd) && forall k: nat :: !Exit(g, k) ==> k < top
    ensures (forall i: nat, d: nat :: !Exit(g, i) ==> (d in At(pd, i) <==> Inevitable(g, i, d))) <==> Tight(g, pd, top)
  {
    hide Inevitable, Bounded, Settled, Tight;
    if Tight(g, pd, top) {
      forall i: nat, d: nat | !Exit(g, i) ensures d in At(pd, i) <==> Inevitable(g, i, d) {
        SettledExact(g, pd, i, d, top);
      }
    }
    if forall i: nat, d: nat :: !Exit(g, i) ==> (d in At(pd, i) <==> Inevitable(g, i, d)) {
      ExactTight(g, pd, top);
    }
  }

  lemma {:induction false} ExactTight(g: Graph, pd: Sets, top: nat)
    requires forall i: nat, d: nat :: !Exit(g, i) ==> (d in At(pd, i) <==> Inevitable(g, i, d))
    ensures Tight(g, pd, top)
  {
    hide Inevitable, Reach;
    forall i: nat, e: nat, d: nat | e in Succ(g, i) && Exit(g, e) && d in At(pd, i) ensures d == e {
      if d != e { InevitableStep(g, i, e, d); }
    }
  }

  lemma {:induction false} StaysIn(g: Graph, pd: Sets, p: seq<nat>, d: nat, k: nat, top: nat)
    requires Settled(g, pd) && Tight(g, pd, top) && forall k: nat :: !Exit(g, k) ==> k < top
    requires Path(g, p) && Avoids(p, d) && k < |p| && !Exit(g, p[0]) && d in At(pd, p[0])
    ensures d in At(pd, p[k]) && !Exit(g, p[k])
  {
    if k > 0 {
      StaysIn(g, pd, p, d, k - 1, top);
      assert Hop(g, p, k - 1) && p[k] != d;
    }
  }

  // ------------------------------------------------------------- termination

  /** What is left over when the blocks below n are done. */
  function LeftOver(g: Graph, pd: Sets, n: nat): set<nat> {
    if n == 0 then {} else if !Exit(g, n - 1) then At(pd, n - 1) else LeftOver(g, pd, n - 1)
  }

  /** The members of the sets that can only shrink. */
  ghost function Pairs(g: Graph, pd: Sets, top: nat): set<(nat, nat)> {
    set i: nat, d: nat | i < top && d in At(pd, i) && !Exit(g, i) :: (i, d)
  }

  ghost predicate SameInner(g: Graph, pd: Sets, pd': Sets) {
    forall i: nat :: !Exit(g, i) ==> At(pd', i) == At(pd, i)
  }

  /** Every exit has as many members as what is left over before it. */
  ghost predicate Synced(g: Graph, pd: Sets, ids: seq<nat>) {
    forall k :: 0 <= k < |ids| && Exit(g, ids[k]) ==> |At(pd, ids[k])| == |LeftOver(g, pd, ids[k])|
  }

  lemma {:induction false} LeftOverInner(g: Graph, pd: Sets, pd': Sets, n: nat)
    requires SameInner(g, pd, pd')
    ensures LeftOver(g, pd', n) == LeftOver(g, pd, n)
  {
    if n > 0 { LeftOverInner(g, pd, pd', n - 1); }
  }

  lemma {:induction false} LeftOverSkip(g: Graph, pd: Sets, n: nat, m: nat)
    requires n <= m && forall k: nat :: n <= k < m ==> Exit(g, k)
    ensures LeftOver(g, pd, m) == LeftOver(g, pd, n)
    decreases m
  {
    if n < m { assert Exit(g, m - 1); LeftOverSkip(g, pd, n, m - 1); }
  }

  lemma {:induction false} PassElsewhere(g: Graph, pd: Sets, res: set<nat>, ids: seq<nat>, k: nat)
    requires k !in ids
    ensures At(PassOver(g, pd, res, ids), k) == At(pd, k)
    decreases |ids|
  {
    if ids != [] {
      var r := Result(g, pd, res, ids[0]);
      PassElsewhere(g, Stored(pd, ids[0], r), r, ids[1..], k);
    }
  }

  /** Inner sets only shrink. */
  lemma {:induction false} PassShrinks(g: Graph, pd: Sets, res: set<nat>, ids: seq<nat>, i: nat)
    requires !Exit(g, i)
    ensures At(PassOver(g, pd, res, ids), i) <= At(pd, i)
    decreases |ids|
  {
    if ids != [] {
      var r := Result(g, pd, res, ids[0]);
      if !Exit(g, ids[0]) { ResultShrinks(g, pd, res, ids[0]); }
      PassShrinks(g, Stored(pd, ids[0], r), r, ids[1..], i);
    }
  }

  /** A pass that changes no inner set leaves the exits synced, and changes
      nothing at all if they were so before. */
  lemma {:induction false} PassSyncs(g: Graph, pd: Sets, res: set<nat>, ids: seq<nat>, n: nat)
    requires Ascending(ids) && (forall i: nat :: n <= i && !Exit(g, i) ==> i in ids)
    requires forall k :: 0 <= k < |ids| ==> n <= ids[k]
    requires res == LeftOver(g, pd, n) && SameInner(g, pd, PassOver(g, pd, res, ids))
    ensures Synced(g, PassOver(g, pd, res, ids), ids)
    ensures Synced(g, pd, ids) ==> PassSame(g, pd, res, ids)
    decreases |ids|
  {
    if ids != [] {
      var i := ids[0];
      forall k: nat | n <= k < i ensures Exit(g, k) { AscendingSplit(ids, k); }
      LeftOverSkip(g, pd, n, i);
      AscendingSplit(ids, i);
      var r := Result(g, pd, res, i);
      var pd1 := Stored(pd, i, r);
      var end := PassOver(g, pd1, r, ids[1..]);
      PassElsewhere(g, pd1, r, ids[1..], i);
      if !Exit(g, i) { ResultShrinks(g, pd, res, i); }
      assert SameInner(g, pd, pd1);
      LeftOverInner(g, pd, pd1, i);
      LeftOverInner(g, pd1, end, i);
      SyncRest(g, pd1, r, ids, i);
      if Synced(g, pd, ids) { SyncTail(g, pd, pd1, ids); }
    }
  }

  lemma {:induction false} SyncRest(g: Graph, pd: Sets, res: set<nat>, ids: seq<nat>, i: nat)
    requires Ascending(ids) && ids != [] && i == ids[0] && (forall k: nat :: i <= k && !Exit(g, k) ==> k in ids)
    requires res == LeftOver(g, pd, i + 1)
    requires SameInner(g, pd, PassOver(g, pd, res, ids[1..]))
    ensures Synced(g, PassOver(g, pd, res, ids[1..]), ids[1..])
    ensures Synced(g, pd, ids[1..]) ==> PassSame(g, pd, res, ids[1..])
    decreases |ids|, 0
  {
    forall k: nat | i + 1 <= k && !Exit(g, k) ensures k in ids[1..] { AscendingSplit(ids, k); }
    forall k | 0 <= k < |ids[1..]| ensures i + 1 <= ids[1..][k] { AscendingSplit(ids, ids[1..][k]); }
    AscendingSplit(ids, i);
    PassSyncs(g, pd, res, ids[1..], i + 1);
  }

  lemma {:induction false} SyncTail(g: Graph, pd: Sets, pd1: Sets, ids: seq<nat>)
    requires Synced(g, pd, ids) && ids != [] && SameInner(g, pd, pd1)
    requires Ascending(ids) && forall k :: k != ids[0] ==> At(pd1, k) == At(pd, k)
    ensures Synced(g, pd1, ids[1..])
  {
    forall k | 0 <= k < |ids[1..]| && Exit(g, ids[1..][k])
      ensures |At(pd1, ids[1..][k])| == |LeftOver(g, pd1, ids[1..][k])|
    {
      LeftOverInner(g, pd, pd1, ids[1..][k]);
      assert ids[1..][k] == ids[k + 1];
    }
  }

  // ------------------------------------------------------------ the program

  /** The blocks of a set, in ascending order. */
  ghost function InOrder(s: set<nat>): (l: seq<nat>)
    ensures Ascending(l) && forall x: nat :: x in l <==> x in s
    decreases |s|
  {
    if s == {} then []
    else
      var m: nat := Smallest(s);
      assert |s - {m}| < |s|;
      [m] + InOrder(s - {m})
  }

  /** The edges read from the graph file, by source. */
  function Read(edges: seq<(nat, nat)>): Graph {
    if edges == [] then map[]
    else
      var g := Read(edges[..|edges| - 1]);
      var e := edges[|edges| - 1];
      g[e.0 := Succ(g, e.0) + [e.1]]
  }

  /** What is read: every edge, from its first block to its second, and nothing else. */
  lemma {:induction false} ReadMeans(edges: seq<(nat, nat)>, a: nat, b: nat)
    ensures b in Succ(Read(edges), a) <==> (a, b) in edges
    decreases |edges|
  {
    if edges != [] {
      var n := |edges| - 1;
      ReadMeans(edges[..n], a, b);
      assert edges == edges[..n] + [edges[n]];
    }
  }

  // --------------------------------------------------- walks over the edges

  /** A walk takes one edge after the other. */
  ghost predicate Walk(edges: seq<(nat, nat)>, p: seq<nat>) {
    |p| > 0 && forall k: nat, n: nat :: n == k + 1 < |p| ==> (p[k], p[n]) in edges
  }

  ghost predicate Gets(edges: seq<(nat, nat)>, u: nat, v: nat) {
    exists p :: Walk(edges, p) && p[0] == u && p[|p| - 1] == v
  }

  /** Some edge leads on from block i. */
  ghost predicate GoesOn(edges: seq<(nat, nat)>, i: nat) { exists b: nat :: (i, b) in edges }

  /** No walk from i gets past d for good: as long as it has not come to d, it still can. */
  ghost predicate MustMeet(edges: seq<(nat, nat)>, i: nat, d: nat) {
    forall p :: Walk(edges, p) && p[0] == i && (forall k :: 1 <= k < |p| ==> p[k] != d) ==> Gets(edges, p[|p| - 1], d)
  }

  /** The post-dominators of the blocks from which an edge leads on: every block that no walk
      gets past for good; and nothing else, if no exit is disturbed. */
  ghost predicate Answers(edges: seq<(nat, nat)>, pd: Sets) {
    && (forall i: nat, d: nat :: GoesOn(edges, i) && MustMeet(edges, i, d) ==> d in At(pd, i))
    && (Undisturbed(Read(edges)) ==>
          forall i: nat, d: nat :: GoesOn(edges, i) && d in At(pd, i) ==> MustMeet(edges, i, d))
  }

  lemma {:induction false} WalkIsPath(edges: seq<(nat, nat)>, p: seq<nat>)
    ensures Walk(edges, p) <==> Path(Read(edges), p)
  {
    hide Read;
    forall k: nat, n: nat | n == k + 1 < |p| ensures (p[k], p[n]) in edges <==> Hop(Read(edges), p, k) {
      ReadMeans(edges, p[k], p[n]);
    }
    if Walk(edges, p) {
      forall k: nat | k + 1 < |p| ensures Hop(Read(edges), p, k) {
        var n := k + 1;
        assert (p[k], p[n]) in edges;
      }
    }
  }

  lemma {:induction false} GetsIsReach(edges: seq<(nat, nat)>, u: nat, v: nat)
    ensures Gets(edges, u, v) <==> Reach(Read(edges), u, v)
  {
    hide Read;
    forall p ensures Walk(edges, p) <==> Path(Read(edges), p) { WalkIsPath(edges, p); }
  }

  lemma {:induction false} GoesOnExit(edges: seq<(nat, nat)>, i: nat)
    ensures GoesOn(edges, i) <==> !Exit(Read(edges), i)
  {
    hide Read;
    if b: nat :| (i, b) in edges { ReadMeans(edges, i, b); }
    if !Exit(Read(edges), i) { ReadMeans(edges, i, Succ(Read(edges), i)[0]); }
  }

  lemma {:induction false} MustMeetInevitable(edges: seq<(nat, nat)>, i: nat, d: nat)
    ensures MustMeet(edges, i, d) <==> Inevitable(Read(edges), i, d)
  {
    hide Read, Walk, Path, Gets, Reach;
    forall p ensures Walk(edges, p) <==> Path(Read(edges), p) { WalkIsPath(edges, p); }
    forall u: nat ensures Gets(edges, u, d) <==> Reach(Read(edges), u, d) { GetsIsReach(edges, u, d); }
    forall p: seq<nat> | Walk(edges, p) ensures |p| > 0 { WalkSome(edges, p); }
  }

  lemma {:induction false} WalkSome(edges: seq<(nat, nat)>, p: seq<nat>)
    requires Walk(edges, p)
    ensures |p| > 0
  {
  }

  lemma {:induction false} SufficientAnswers(edges: seq<(nat, nat)>, pd: Sets)
    ensures Sufficient(Read(edges), pd) <==> Answers(edges, pd)
  {
    hide Read, MustMeet, Inevitable, GoesOn, Exit, Undisturbed;
    forall i: nat ensures GoesOn(edges, i) <==> !Exit(Read(edges), i) { GoesOnExit(edges, i); }
    forall i: nat, d: nat ensures MustMeet(edges, i, d) <==> Inevitable(Read(edges), i, d) {
      MustMeetInevitable(edges, i, d);
    }
  }

  ghost predicate SameGraph(a: Graph, b: Graph) {
    forall v: nat :: Succ(a, v) == Succ(b, v)
  }

  /** Every block of the graph is below `top`. */
  ghost predicate Below(g: Graph, top: nat) {
    && (forall v: nat :: v in g ==> v < top)
    && (forall v: nat, w: nat :: w in Succ(g, v) ==> w < top)
  }

  ghost function Numbers(top: nat): (s: set<nat>)
    ensures forall v: nat :: v in s <==> v < top
  {
    if top == 0 then {} else Numbers(top - 1) + {top - 1}
  }

  class PostDominators {
    var successor: Graph
    var postDominator: Sets

    constructor ()
      ensures successor == map[] && postDominator == map[]
    {
      successor, postDominator := map[], map[];
    }

    method ReadEdges(edges: seq<(nat, nat)>)
      requires successor == map[]
      modifies this`successor
      ensures successor == Read(edges)
    {
      var n := 0;
      while n < |edges|
        invariant 0 <= n <= |edges| && successor == Read(edges[..n])
      {
        var (a, b) := edges[n];
        assert edges[..n + 1][..n] == edges[..n];
        successor := successor[a := Succ(successor, a) + [b]];
        n := n + 1;
      }
      assert edges[..n] == edges;
    }

    // ------------------------------------------------- what can be reached

    /** What a search from `bb` adds to the marked blocks. */
    static ghost predicate Searched(g: Graph, bb: nat, before: set<nat>, after: set<nat>) {
      && before <= after && bb in after
      && (forall v: nat :: v in after && v !in before ==> Reach(g, bb, v))
      && (forall v: nat, w: nat :: v in after && v !in before && w in Succ(g, v) ==> w in after)
    }

    /** Nothing changes but the set of `root` and empty lists of successors. */
    twostate predicate Kept(g: Graph, top: nat, root: nat)
      reads this
    {
      && SameGraph(successor, g) && Below(successor, top) && old(successor).Keys <= successor.Keys
      && forall k: nat :: k != root ==> At(postDominator, k) == At(old(postDominator), k)
    }

    /** Mark `bb`. Looking up the successors of a block without any adds an empty
        list for it. */
    method Mark(ghost g: Graph, ghost top: nat, root: nat, bb: nat) returns (next: seq<nat>)
      requires SameGraph(successor, g) && Below(successor, top) && bb < top
      modifies this
      ensures Kept(g, top, root) && At(postDominator, root) == At(old(postDominator), root) + {bb}
      ensures next == Succ(g, bb) && bb in successor
    {
      postDominator := postDominator[root := At(postDominator, root) + {bb}];
      if bb !in successor { successor := successor[bb := []]; }
      next := successor[bb];
      assert next == Succ(g, bb);
    }

    /** Mark, in the set of `root`, what can be reached from `bb`. */
    method Search(ghost g: Graph, ghost top: nat, root: nat, bb: nat)
      requires SameGraph(successor, g) && Below(successor, top) && Below(g, top) && bb < top
      requires bb !in At(postDominator, root)
      modifies this
      ensures Kept(g, top, root)
      ensures Searched(g, bb, At(old(postDominator), root), At(postDominator, root))
      ensures bb in successor
      decreases Numbers(top) - At(postDominator, root), 1
    {
      ghost var before := At(postDominator, root);
      var next := Mark(g, top, root, bb);
      ReachSelf(g, bb);
      assert Searching(g, bb, before, At(postDominator, root), []);
      var n := 0;
      while n < |next|
        invariant 0 <= n <= |next|
        invariant Kept(g, top, root) && bb in successor
        invariant Searching(g, bb, before, At(postDominator, root), next[..n])
      {
        assert next[..n + 1] == next[..n] + [next[n]];
        SearchNext(g, top, root, bb, next[n], before, next[..n]);
        n := n + 1;
      }
      assert next[..n] == next;
    }

    method SearchNext(ghost g: Graph, ghost top: nat, root: nat, ghost bb: nat, w: nat, ghost before: set<nat>,
                      ghost done: seq<nat>)
      requires SameGraph(successor, g) && Below(successor, top) && Below(g, top) && w in Succ(g, bb) && bb < top
      requires Searching(g, bb, before, At(postDominator, root), done)
      modifies this
      ensures Kept(g, top, root)
      ensures Searching(g, bb, before, At(postDominator, root), done + [w])
      decreases Numbers(top) - before, 0
    {
      hide Reach, Searched;
      if w !in At(postDominator, root) {
        ghost var mid := At(postDominator, root);
        assert bb in mid && bb !in before && bb in Numbers(top);
        Search(g, top, root, w);
        SearchedMore(g, bb, w, before, mid, At(postDominator, root), done);
      }
    }

    /** The search from `bb`, some of its successors done. */
    ghost predicate Searching(g: Graph, bb: nat, before: set<nat>, now: set<nat>, done: seq<nat>) {
      && before <= now && bb in now && bb !in before
      && (forall v: nat :: v in now && v !in before ==> Reach(g, bb, v))
      && (forall v: nat, w: nat :: v in now && v !in before && v != bb && w in Succ(g, v) ==> w in now)
      && (forall w: nat :: w in done ==> w in now)
    }

    lemma {:induction false} SearchedMore(g: Graph, bb: nat, w: nat, before: set<nat>, mid: set<nat>, now: set<nat>,
                                          done: seq<nat>)
      requires Searching(g, bb, before, mid, done) && w in Succ(g, bb) && Searched(g, w, mid, now)
      ensures Searching(g, bb, before, now, done + [w])
    {
      hide Reach;
      forall v: nat | v in now && v !in before ensures Reach(g, bb, v) {
        if v !in mid { ReachStep(g, bb, w, v); }
      }
    }

    /** Start every set with what its block can reach. The loop goes over the
        blocks in order, and also meets those that are added on the way, if they
        come later. */
    method ReachAll(ghost g: Graph, ghost top: nat)
      requires successor == g && postDominator == map[] && Below(g, top)
      modifies this
      ensures SameGraph(successor, g) && Below(successor, top) && g.Keys <= successor.Keys
      ensures forall k :: k in g ==> Full(g, postDominator, k)
      ensures forall k: nat :: At(postDominator, k) == {} || Full(g, postDominator, k)
    {
      hide Full, Searched;
      var n := 0;
      var rest := successor.Keys;
      while rest != {}
        invariant SameGraph(successor, g) && Below(successor, top) && g.Keys <= successor.Keys
        invariant rest == set k | k in successor && n <= k
        invariant forall k :: k in g && k < n ==> Full(g, postDominator, k)
        invariant forall k: nat :: At(postDominator, k) == {} || (k < n && Full(g, postDominator, k))
        decreases top - n
      {
        var i: nat := LeastOf(rest);
        assert At(postDominator, i) == {};
        forall k: nat | k in g && k < i + 1 ensures k < n || k == i {
          assert n <= k ==> k in rest;
        }
        label Before:
        Search(g, top, i, i);
        SearchedAll(g, i, postDominator);
        forall k: nat | k != i ensures Full(g, postDominator, k) <==> old@Before(Full(g, postDominator, k)) {
          FullAt(g, old@Before(postDominator), postDominator, k);
        }
        n := i + 1;
        rest := set k | k in successor && n <= k;
      }
      forall k | k in g ensures k < n {
        assert n <= k ==> k in rest;
      }
    }

    // ---------------------------------------------------------- the fixpoint

    static method SetIntersection(a: set<nat>, b: set<nat>) returns (c: set<nat>)
      ensures c == a * b
    {
      c := {};
      var rest := a;
      while rest != {}
        invariant rest <= a && c == (a - rest) * b
        decreases |rest|
      {
        var x :| x in rest;
        if x in b { c := c + {x}; }
        rest := rest - {x};
      }
    }

    /** What is to be stored for block i. */
    method Combine(ghost g: Graph, i: nat, res: set<nat>) returns (r: set<nat>)
      requires SameGraph(successor, g)
      ensures r == Result(g, postDominator, res, i)
    {
      var next := Succ(successor, i);
      assert next == Succ(g, i);
      r := if |next| > 0 then At(postDominator, i) else res;
      var n := 0;
      assert next[0..] == next;
      while n < |next|
        invariant 0 <= n <= |next|
        invariant |next| > 0 ==> Meet(postDominator, At(postDominator, i), next) == Meet(postDominator, r, next[n..])
        invariant |next| == 0 ==> r == res
      {
        assert next[n..][1..] == next[n + 1..];
        r := SetIntersection(r, At(postDominator, next[n]) + {next[n]});
        n := n + 1;
      }
    }

    method Pass(ghost g: Graph) returns (changed: bool)
      requires SameGraph(successor, g)
      modifies this`postDominator
      ensures postDominator == PassOver(g, old(postDominator), {}, InOrder(successor.Keys))
      ensures !changed ==>
                PassSame(g, old(postDominator), {}, InOrder(successor.Keys)) && postDominator == old(postDominator)
      ensures PassSame(g, old(postDominator), {}, InOrder(successor.Keys)) ==> !changed
    {
      hide Result, Stored, InOrder;
      changed := false;
      var res: set<nat> := {};
      var rest := successor.Keys;
      ghost var before, ids := postDominator, InOrder(rest);
      while rest != {}
        invariant PassOver(g, before, {}, ids) == PassOver(g, postDominator, res, InOrder(rest))
        invariant !changed ==> postDominator == before
        invariant !changed ==> (PassSame(g, before, {}, ids) <==> PassSame(g, postDominator, res, InOrder(rest)))
        invariant changed ==> !PassSame(g, before, {}, ids)
        decreases |rest|
      {
        var i: nat := LeastOf(rest);
        InOrderStep(rest);
        res := Combine(g, i, res);
        StoredSame(postDominator, i, res);
        if |res| != |At(postDominator, i)| {
          postDominator := postDominator[i := res];
          changed := true;
        }
        rest := rest - {i};
      }
      InOrderNone();
    }

    /** Pass over all blocks until nothing changes. */
    method Settle(ghost g: Graph, ghost top: nat)
      requires SameGraph(successor, g) && g.Keys <= successor.Keys && Below(successor, top)
      requires Bounded(g, postDominator) && Clean(g, postDominator, 0)
      modifies this`postDominator
      ensures Bounded(g, postDominator) && Settled(g, postDominator)
      ensures Undisturbed(g) ==> Tight(g, postDominator, top)
    {
      hide Bounded, Clean, Settled, Undisturbed, Tight, Pairs, Synced, PassSame, PassOver, InOrder, Below;
      ghost var ids := InOrder(successor.Keys);
      InOrderKeys(g, successor, top);
      TightNone(g, postDominator);
      ghost var first := true;
      var changed := true;
      while changed
        invariant Bounded(g, postDominator)
        invariant first ==> changed && Clean(g, postDominator, 0) && Tight(g, postDominator, 0)
        invariant Undisturbed(g) && !first ==> Tight(g, postDominator, top)
        invariant !changed ==> Settled(g, postDominator)
        decreases changed, Pairs(g, postDominator, top), !Synced(g, postDominator, ids)
      {
        ghost var was := postDominator;
        changed := Pass(g);
        PassBounded(g, was, {}, ids);
        if Undisturbed(g) {
          if first {
            CleanExits(g, was);
            FirstPass(g, was, {}, ids, 0, top);
          } else {
            PassStaysTight(g, was, {}, ids, top);
          }
        }
        if changed {
          PassProgress(g, was, ids, top);
        } else {
          SameIsSettled(g, was, ids);
        }
        first := false;
      }
    }

    method PreparePostDominator(edges: seq<(nat, nat)>)
      requires successor == map[] && postDominator == map[]
      modifies this
      ensures Answers(edges, postDominator)
      ensures Bounded(Read(edges), postDominator) && Settled(Read(edges), postDominator)
    {
      ReadEdges(edges);
      ghost var g := successor;
      ghost var top := ReadBelow(edges);
      ReachAll(g, top);
      StartBounded(g, postDominator);
      Settle(g, top);
      if Undisturbed(g) {
        forall i, d | !Exit(g, i) ensures d in At(postDominator, i) <==> Inevitable(g, i, d) {
          SettledExact(g, postDominator, i, d, top);
        }
      }
      SufficientAnswers(edges, postDominator);
    }
  }

  /** Every inevitable block is there; and nothing else, if no exit is disturbed. */
  ghost predicate Sufficient(g: Graph, pd: Sets) {
    && (forall i, d :: !Exit(g, i) && Inevitable(g, i, d) ==> d in At(pd, i))
    && (Undisturbed(g) ==> forall i, d :: !Exit(g, i) ==> (d in At(pd, i) <==> Inevitable(g, i, d)))
  }

  /** Every block has exactly what it can reach. */
  ghost predicate Full(g: Graph, pd: Sets, k: nat) {
    forall d: nat :: d in At(pd, k) <==> Reach(g, k, d)
  }

  lemma {:induction false} FullAt(g: Graph, pd: Sets, pd': Sets, k: nat)
    requires At(pd, k) == At(pd', k)
    ensures Full(g, pd, k) <==> Full(g, pd', k)
  {
  }

  /** A finished search has marked all that can be reached. */
  lemma {:induction false} SearchedAll(g: Graph, i: nat, pd: Sets)
    requires PostDominators.Searched(g, i, {}, At(pd, i))
    ensures Full(g, pd, i)
  {
    forall d: nat | Reach(g, i, d) ensures d in At(pd, i) {
      var p :| Path(g, p) && p[0] == i && Last(p) == d;
      SearchedPath(g, i, At(pd, i), p, |p| - 1);
    }
  }

  lemma {:induction false} SearchedPath(g: Graph, i: nat, after: set<nat>, p: seq<nat>, k: nat)
    requires PostDominators.Searched(g, i, {}, after) && Path(g, p) && p[0] == i && k < |p|
    ensures p[k] in after
  {
    if k > 0 {
      SearchedPath(g, i, after, p, k - 1);
      assert Hop(g, p, k - 1);
    }
  }

  lemma {:induction false} ReadBelow(edges: seq<(nat, nat)>) returns (top: nat)
    ensures Below(Read(edges), top) && forall v: nat :: Exit(Read(edges), v) <==> v !in Read(edges)
    decreases |edges|
  {
    if edges == [] {
      top := 0;
    } else {
      var e := edges[|edges| - 1];
      top := ReadBelow(edges[..|edges| - 1]);
      top := top + e.0 + e.1 + 1;
    }
  }

  lemma {:induction false} StartBounded(g: Graph, pd: Sets)
    requires forall i: nat :: !Exit(g, i) ==> Full(g, pd, i)
    requires forall k: nat :: At(pd, k) == {} || Full(g, pd, k)
    ensures Bounded(g, pd) && Clean(g, pd, 0)
  {
    forall i: nat, d: nat | !Exit(g, i) && Inevitable(g, i, d) ensures d in At(pd, i) {
      assert Path(g, [i]) && Avoids([i], d);
      assert Reach(g, i, d);
      assert Full(g, pd, i);
    }
    forall i: nat, d: nat | !Exit(g, i) && d in At(pd, i) ensures Reach(g, i, d) { assert Full(g, pd, i); }
    forall e: nat | Exit(g, e) ensures At(pd, e) <= {e} {
      if At(pd, e) != {} {
        assert Full(g, pd, e);
        forall d: nat | d in At(pd, e) ensures d == e { ReachFromExit(g, e, d); }
      }
    }
  }

  lemma {:induction false} CleanExits(g: Graph, pd: Sets)
    requires Clean(g, pd, 0)
    ensures ExitsBounded(g, pd) && RestBounded(g, {}, 0)
  {
    hide LeftFrom;
  }

  lemma {:induction false} TightNone(g: Graph, pd: Sets)
    ensures Tight(g, pd, 0)
  {
  }

  lemma {:induction false} InOrderStep(s: set<nat>)
    requires s != {}
    ensures var m: nat := Smallest(s);
            InOrder(s)[0..1] == [m] && InOrder(s)[1..] == InOrder(s - {m}) && |s - {m}| < |s|
    ensures InOrder(s) != [] && InOrder(s)[0] == Smallest(s)
  {
    var m: nat := Smallest(s);
    assert |s - {m}| < |s|;
    assert InOrder(s) == [m] + InOrder(s - {m});
  }

  lemma {:induction false} InOrderNone()
    ensures InOrder({}) == []
  {
  }

  lemma {:induction false} InOrderKeys(g: Graph, successor: Graph, top: nat)
    requires g.Keys <= successor.Keys && Below(successor, top)
    ensures var ids := InOrder(successor.Keys);
            && Ascending(ids) && (forall k :: 0 <= k < |ids| ==> 0 <= ids[k] < top)
            && (forall i: nat :: !Exit(g, i) ==> i in ids)
  {
    forall k | 0 <= k < |InOrder(successor.Keys)| ensures InOrder(successor.Keys)[k] < top {
      assert InOrder(successor.Keys)[k] in successor.Keys;
    }
  }

  lemma {:induction false} StoredSame(pd: Sets, i: nat, r: set<nat>)
    ensures Stored(pd, i, r) == if |r| != |At(pd, i)| then pd[i := r] else pd
    ensures |r| != |At(pd, i)| ==> Stored(pd, i, r) != pd
  {
  }

  /** A pass that changes something shrinks an inner set, or else syncs the
      exits, which were not synced before. */
  lemma {:induction false} PassProgress(g: Graph, pd: Sets, ids: seq<nat>, top: nat)
    requires Ascending(ids) && (forall i: nat :: !Exit(g, i) ==> i in ids)
    requires forall k :: 0 <= k < |ids| ==> 0 <= ids[k] < top
    requires !PassSame(g, pd, {}, ids)
    ensures var pd' := PassOver(g, pd, {}, ids);
            || Pairs(g, pd', top) < Pairs(g, pd, top)
            || (Pairs(g, pd', top) == Pairs(g, pd, top) && Synced(g, pd', ids) && !Synced(g, pd, ids))
  {
    hide PassOver, PassSame, Synced;
    var pd' := PassOver(g, pd, {}, ids);
    forall i: nat, d: nat | i < top && d in At(pd', i) && !Exit(g, i) ensures d in At(pd, i) {
      PassShrinks(g, pd, {}, ids, i);
    }
    assert Pairs(g, pd', top) <= Pairs(g, pd, top);
    if Pairs(g, pd', top) == Pairs(g, pd, top) {
      forall i: nat | !Exit(g, i) ensures At(pd', i) == At(pd, i) {
        assert i in ids;
        forall d: nat ensures d in At(pd, i) <==> d in At(pd', i) {
          assert (i, d) in Pairs(g, pd, top) <==> (i, d) in Pairs(g, pd', top);
        }
      }
      PassSyncs(g, pd, {}, ids, 0);
    }
  }

  /** An exit with a smaller number than a block that leads to it: 0 goes to 3, and
      2 to 1 or 3. Exit 1 is given what is left over from block 0, which is {3};
      block 2 then keeps 3, although it can leave through 1. */
  lemma {:induction false} SmallExitMisleads(g: Graph, pd: Sets)
    requires g == map[0 := [3], 2 := [1, 3]]
    requires pd == map[0 := {0, 3}, 2 := {1, 2, 3}, 3 := {3}]
    ensures Full(g, pd, 0) && Full(g, pd, 2)
    ensures var pd' := PassOver(g, pd, {}, [0, 1, 2, 3]);
            3 in At(pd', 2) && PassSame(g, pd', {}, [0, 1, 2, 3])
    ensures !Inevitable(g, 2, 3) && !Undisturbed(g)
  {
    hide PassOver, PassSame, Inevitable, Undisturbed;
    SmallFull(g, pd);
    SmallDisturbed(g);
    SmallPass(g, pd);
    SmallAvoids(g);
  }

  lemma {:induction false} SmallDisturbed(g: Graph)
    requires g == map[0 := [3], 2 := [1, 3]]
    ensures !Undisturbed(g)
  {
    hide Reach;
    SmallReach(g, 0);
    SmallReach(g, 2);
    assert LeftFrom(g, 1, 3) && !OnlyShares(g, 2, 1);
  }

  lemma {:induction false} SmallFull(g: Graph, pd: Sets)
    requires g == map[0 := [3], 2 := [1, 3]]
    requires pd == map[0 := {0, 3}, 2 := {1, 2, 3}, 3 := {3}]
    ensures Full(g, pd, 0) && Full(g, pd, 2)
  {
    hide Reach;
    SmallReach(g, 0);
    SmallReach(g, 2);
  }

  lemma {:induction false} SmallAvoids(g: Graph)
    requires g == map[0 := [3], 2 := [1, 3]]
    ensures !Inevitable(g, 2, 3)
  {
    hide Reach;
    PathEdge(g, 2, 1);
    assert Avoids([2, 1], 3) && Last([2, 1]) == 1;
    if Reach(g, 1, 3) { ReachFromExit(g, 1, 3); }
  }

  lemma {:induction false} SmallReach(g: Graph, i: nat)
    requires g == map[0 := [3], 2 := [1, 3]] && i in {0, 2}
    ensures forall d: nat :: Reach(g, i, d) <==> d == i || d in Succ(g, i)
  {
    forall d: nat ensures Reach(g, i, d) <==> d == i || d in Succ(g, i) {
      ReachSelf(g, i);
      if d in Succ(g, i) { ReachSelf(g, d); ReachStep(g, i, d, d); }
      if Reach(g, i, d) && d != i {
        var p :| Path(g, p) && p[0] == i && Last(p) == d;
        assert |p| > 1 && Hop(g, p, 0);
        assert |p| > 2 ==> Hop(g, p, 1);
      }
    }
  }

  lemma {:induction false} SmallPass(g: Graph, pd: Sets)
    requires g == map[0 := [3], 2 := [1, 3]]
    requires pd == map[0 := {0, 3}, 2 := {1, 2, 3}, 3 := {3}]
    ensures var pd' := PassOver(g, pd, {}, [0, 1, 2, 3]);
            3 in At(pd', 2) && PassSame(g, pd', {}, [0, 1, 2, 3])
  {
    hide Result, PassOver, PassSame;
    var pd1 := pd[0 := {3}];
    var pd2 := pd1[1 := {3}];
    var pd3 := pd2[2 := {3}];
    SmallStep(g, pd, {});
    SmallStep(g, pd1, {3});
    SmallStep(g, pd2, {3});
    SmallStep(g, pd3, {3});
    SmallSizes();
    assert {0, 3} * ({3} + {3}) == {3};
    assert {1, 2, 3} * ({3} + {1}) * ({3} + {3}) == {3};
    OneStep(g, pd, {}, 0, [1, 2, 3], {3}, pd1);
    OneStep(g, pd1, {3}, 1, [2, 3], {3}, pd2);
    OneStep(g, pd2, {3}, 2, [3], {3}, pd3);
    OneStep(g, pd3, {3}, 3, [], {3}, pd3);
    SmallSame(g, pd3);
  }

  lemma {:induction false} SmallSizes()
    ensures |{3}| == 1 && |{0, 3}| == 2 && |{1, 2, 3}| == 3
  {
    assert {0, 3} - {0} == {3} && {1, 2, 3} - {1} == {2, 3} && {2, 3} - {2} == {3};
  }

  lemma {:induction false} OneStep(g: Graph, pd: Sets, res: set<nat>, i: nat, rest: seq<nat>, r: set<nat>, pd': Sets)
    requires Result(g, pd, res, i) == r && Stored(pd, i, r) == pd'
    ensures PassOver(g, pd, res, [i] + rest) == PassOver(g, pd', r, rest)
    ensures PassOver(g, pd, res, []) == pd && PassSame(g, pd, res, [])
    ensures pd' == pd ==> (PassSame(g, pd, res, [i] + rest) <==> PassSame(g, pd, r, rest))
    ensures PassOver(g, pd', r, []) == pd' && PassSame(g, pd', r, [])
    ensures [0] + [1, 2, 3] == [0, 1, 2, 3] && [1] + [2, 3] == [1, 2, 3] && [2] + [3] == [2, 3] && [3] + [] == [3]
  {
    assert ([i] + rest)[1..] == rest;
  }

  lemma {:induction false} SmallSame(g: Graph, pd: Sets)
    requires g == map[0 := [3], 2 := [1, 3]] && pd == map[0 := {3}, 1 := {3}, 2 := {3}, 3 := {3}]
    ensures PassSame(g, pd, {}, [0, 1, 2, 3])
  {
    hide Result, PassOver, PassSame;
    SmallStep(g, pd, {});
    SmallStep(g, pd, {3});
    assert {3} * ({3} + {3}) == {3} && {3} * ({3} + {1}) * ({3} + {3}) == {3};
    OneStep(g, pd, {3}, 3, [], {3}, pd);
    OneStep(g, pd, {3}, 2, [3], {3}, pd);
    OneStep(g, pd, {3}, 1, [2, 3], {3}, pd);
    OneStep(g, pd, {}, 0, [1, 2, 3], {3}, pd);
  }

  lemma {:induction false} SmallStep(g: Graph, pd: Sets, res: set<nat>)
    requires g == map[0 := [3], 2 := [1, 3]]
    ensures Result(g, pd, res, 0) == At(pd, 0) * (At(pd, 3) + {3})
    ensures Result(g, pd, res, 2) == At(pd, 2) * (At(pd, 1) + {1}) * (At(pd, 3) + {3})
    ensures Result(g, pd, res, 1) == res && Result(g, pd, res, 3) == res
  {
    hide At;
    assert [1, 3][1..] == [3] && [3][1..] == [];
    assert Meet(pd, At(pd, 2), [1, 3]) == Meet(pd, At(pd, 2) * (At(pd, 1) + {1}), [3]);
  }
}
