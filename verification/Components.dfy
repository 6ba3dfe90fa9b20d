/** Unneeded instructions that belong together are reported as one bug: the search
    of tools/PrintBug/PrintBug.cpp, lines 377-394, over an explicit stack, and the
    loop that starts it (lines 430-435). */
module Components {
  import opened Common

  type Graph = map<nat, set<nat>>

  function Neighbours(g: Graph, v: nat): set<nat> { if v in g then g[v] else {} }

  ghost predicate Symmetric(g: Graph) {
    forall v: nat, w: nat :: w in Neighbours(g, v) ==> v in Neighbours(g, w)
  }

  /** Instructions that depend on each other are linked both ways. */
  function Link(g: Graph, v: nat, w: nat): Graph {
    var g' := g[v := Neighbours(g, v) + {w}];
    g'[w := Neighbours(g', w) + {v}]
  }

  /** A link adds itself, in both directions, and nothing else. */
  lemma {:induction false} Linked(g: Graph, a: nat, b: nat, v: nat, w: nat)
    ensures w in Neighbours(Link(g, a, b), v) <==> w in Neighbours(g, v) || (v, w) == (a, b) || (v, w) == (b, a)
  {
    assert Neighbours(g[a := Neighbours(g, a) + {b}], b) == Neighbours(g, b) + if a == b then {b} else {};
  }

  // ------------------------------------------- which instructions are linked

  /** What unneeded execution i depends on, as far as that is unneeded too. */
  ghost predicate DependsOn(prog: Program, memDep: DepMap, bug: set<DynamicInst>, i: DynamicInst, w: nat) {
    || (i.id < |prog.ins| && (Inst, w) in prog.ins[i.id].ssa && DynamicInst(i.tid, w, i.cnt) in bug)
    || (exists d :: d in bug && InDeps(memDep, i, d) && d.id == w)
  }

  /** An unneeded execution of v depends on an unneeded execution of w. */
  ghost predicate Related(prog: Program, memDep: DepMap, bug: set<DynamicInst>, done: set<DynamicInst>, v: nat, w: nat)
  {
    exists i :: i in done && i.id == v && DependsOn(prog, memDep, bug, i, w)
  }

  ghost predicate Tied(prog: Program, memDep: DepMap, bug: set<DynamicInst>, done: set<DynamicInst>, v: nat, w: nat) {
    Related(prog, memDep, bug, done, v, w) || Related(prog, memDep, bug, done, w, v)
  }

  /** The graph over the instructions of unneeded executions
      (tools/PrintBug/PrintBug.cpp, lines 396-421). */
  method Relate(prog: Program, memDep: DepMap, bug: set<DynamicInst>) returns (g: Graph)
    ensures Symmetric(g)
    ensures forall v: nat, w: nat :: w in Neighbours(g, v) <==> Tied(prog, memDep, bug, bug, v, w)
  {
    hide DependsOn;
    g := map[];
    var rest := bug;
    while rest != {}
      invariant rest <= bug && Symmetric(g)
      invariant forall v: nat, w: nat :: w in Neighbours(g, v) <==> Tied(prog, memDep, bug, bug - rest, v, w)
      decreases |rest|
    {
      var i :| i in rest;
      ghost var done := bug - rest;
      g := RelateOne(prog, memDep, bug, i, g);
      RelatedMore(prog, memDep, bug, done, i);
      rest := rest - {i};
      assert bug - rest == done + {i};
    }
    assert bug - rest == bug;
  }

  ghost predicate TiedBy(prog: Program, memDep: DepMap, bug: set<DynamicInst>, i: DynamicInst, v: nat, w: nat) {
    (v == i.id && DependsOn(prog, memDep, bug, i, w)) || (w == i.id && DependsOn(prog, memDep, bug, i, v))
  }

  lemma {:induction false} RelatedMore(prog: Program, memDep: DepMap, bug: set<DynamicInst>, done: set<DynamicInst>,
                                       i: DynamicInst)
    ensures forall v: nat, w: nat ::
              Tied(prog, memDep, bug, done + {i}, v, w) <==>
                        Tied(prog, memDep, bug, done, v, w) || TiedBy(prog, memDep, bug, i, v, w)
  {
    hide DependsOn;
    forall v: nat, w: nat
      ensures Related(prog, memDep, bug, done + {i}, v, w) <==>
              Related(prog, memDep, bug, done, v, w) || (v == i.id && DependsOn(prog, memDep, bug, i, w))
    {
      if x :| x in done && x.id == v && DependsOn(prog, memDep, bug, x, w) { assert x in done + {i}; }
      assert i in done + {i};
    }
  }

  /** Link an unneeded execution with all it depends on. */
  method RelateOne(prog: Program, memDep: DepMap, bug: set<DynamicInst>, i: DynamicInst, g: Graph) returns (g': Graph)
    requires Symmetric(g)
    ensures Symmetric(g')
    ensures forall v: nat, w: nat :: w in Neighbours(g', v) <==>
              w in Neighbours(g, v) || TiedBy(prog, memDep, bug, i, v, w)
  {
    hide Neighbours, Link, DependsOn;
    g' := g;
    ghost var linked: set<nat> := {};
    if i.id < |prog.ins| {
      var ssa := prog.ins[i.id].ssa;
      var n := 0;
      while n < |ssa|
        invariant 0 <= n <= |ssa| && Linking(g, g', i.id, linked)
        invariant forall w: nat :: w in linked <==> (Inst, w) in ssa[..n] && DynamicInst(i.tid, w, i.cnt) in bug
      {
        if ssa[n].0 == Inst && DynamicInst(i.tid, ssa[n].1, i.cnt) in bug {
          LinkMore(g, g', i.id, linked, ssa[n].1);
          g' := Link(g', i.id, ssa[n].1);
          linked := linked + {ssa[n].1};
        }
        n := n + 1;
      }
      assert ssa[..n] == ssa;
    }
    ghost var before := linked;
    if i in memDep {
      var rest := memDep[i];
      while rest != {}
        invariant rest <= memDep[i] && Linking(g, g', i.id, linked)
        invariant forall w: nat ::
                    w in linked <==> w in before || exists d :: d in memDep[i] - rest && d in bug && d.id == w
        decreases |rest|
      {
        var d :| d in rest;
        if d in bug {
          LinkMore(g, g', i.id, linked, d.id);
          g' := Link(g', i.id, d.id);
          linked := linked + {d.id};
        }
        ghost var rest' := rest - {d};
        assert memDep[i] - rest' == (memDep[i] - rest) + {d};
        rest := rest - {d};
      }
      assert memDep[i] - rest == memDep[i];
    }
    forall w: nat ensures w in linked <==> DependsOn(prog, memDep, bug, i, w) {
      DependsIf(prog, memDep, bug, i, before, linked, w);
    }
  }

  lemma {:induction false} DependsIf(prog: Program, memDep: DepMap, bug: set<DynamicInst>, i: DynamicInst,
                                     before: set<nat>, linked: set<nat>, w: nat)
    requires w in before <==>
               i.id < |prog.ins| && (Inst, w) in prog.ins[i.id].ssa && DynamicInst(i.tid, w, i.cnt) in bug
    requires w in linked <==> w in before || (i in memDep && exists d :: d in memDep[i] && d in bug && d.id == w)
    ensures w in linked <==> DependsOn(prog, memDep, bug, i, w)
  {
  }

  /** g' is g with v linked to some others, both ways. */
  ghost predicate Linking(g: Graph, g': Graph, v: nat, linked: set<nat>) {
    && Symmetric(g')
    && forall x: nat, w: nat :: w in Neighbours(g', x) <==> Joined(g, v, linked, x, w)
  }

  ghost predicate Joined(g: Graph, v: nat, linked: set<nat>, x: nat, w: nat) {
    w in Neighbours(g, x) || (x == v && w in linked) || (w == v && x in linked)
  }

  lemma {:induction false} LinkMore(g: Graph, g': Graph, v: nat, linked: set<nat>, a: nat)
    requires Linking(g, g', v, linked)
    ensures Linking(g, Link(g', v, a), v, linked + {a})
  {
    hide Link;
    var h := Link(g', v, a);
    forall x: nat, w: nat ensures w in Neighbours(h, x) <==>
              w in Neighbours(g', x) || (x, w) == (v, a) || (x, w) == (a, v) {
      Linked(g', v, a, x, w);
    }
    forall x: nat, w: nat ensures w in Neighbours(h, x) <==> Joined(g, v, linked + {a}, x, w) {
      assert w in Neighbours(g', x) <==> Joined(g, v, linked, x, w);
    }
    assert forall x: nat, w: nat :: w in Neighbours(h, x) ==> x in Neighbours(h, w);
  }

  // ------------------------------------------- accesses at the same address

  /** Accesses of both instructions are recorded under one address. */
  ghost predicate SharesAddress(sameAddr: map<uint64, set<nat>>, v: nat, w: nat) {
    exists a :: v in AtAddr(sameAddr, a) && w in AtAddr(sameAddr, a)
  }

  /** One of the two is the least instruction recorded under the address. */
  ghost predicate StarredAt(ids: set<nat>, v: nat, w: nat) {
    v in ids && w in ids && (v == Smallest(ids) || w == Smallest(ids))
  }

  ghost predicate Starred(sameAddr: map<uint64, set<nat>>, v: nat, w: nat) {
    exists a :: StarredAt(AtAddr(sameAddr, a), v, w)
  }

  ghost predicate StarredIn(sameAddr: map<uint64, set<nat>>, done: set<uint64>, v: nat, w: nat) {
    exists a :: a in done && StarredAt(AtAddr(sameAddr, a), v, w)
  }

  /** Link the instructions under each address with the least of them
      (tools/PrintBug/PrintBug.cpp, lines 422-428). */
  method RelateAddresses(sameAddr: map<uint64, set<nat>>, g: Graph) returns (g': Graph)
    requires Symmetric(g) && forall a :: a in sameAddr ==> sameAddr[a] != {}
    ensures Symmetric(g')
    ensures forall v: nat, w: nat :: w in Neighbours(g', v) <==> w in Neighbours(g, v) || Starred(sameAddr, v, w)
  {
    hide StarredAt, Neighbours, Symmetric;
    g' := g;
    var rest := sameAddr.Keys;
    while rest != {}
      invariant rest <= sameAddr.Keys && Symmetric(g')
      invariant forall v: nat, w: nat ::
                  w in Neighbours(g', v) <==> w in Neighbours(g, v) || StarredIn(sameAddr, sameAddr.Keys - rest, v, w)
      decreases |rest|
    {
      var a :| a in rest;
      ghost var done := sameAddr.Keys - rest;
      g' := RelateStar(sameAddr[a], g');
      StarredMore(sameAddr, done, a);
      rest := rest - {a};
      assert sameAddr.Keys - rest == done + {a};
    }
    assert sameAddr.Keys - rest == sameAddr.Keys;
    StarredAll(sameAddr);
  }

  lemma {:induction false} StarredMore(sameAddr: map<uint64, set<nat>>, done: set<uint64>, a: uint64)
    ensures forall v: nat, w: nat ::
              StarredIn(sameAddr, done + {a}, v, w) <==>
                        StarredIn(sameAddr, done, v, w) || StarredAt(AtAddr(sameAddr, a), v, w)
  {
    hide StarredAt, AtAddr;
    forall v: nat, w: nat
      ensures StarredIn(sameAddr, done + {a}, v, w) <==>
              StarredIn(sameAddr, done, v, w) || StarredAt(AtAddr(sameAddr, a), v, w)
    {
      if b :| b in done && StarredAt(AtAddr(sameAddr, b), v, w) { assert b in done + {a}; }
      assert a in done + {a};
    }
  }

  lemma {:induction false} StarredAll(sameAddr: map<uint64, set<nat>>)
    ensures forall v: nat, w: nat :: StarredIn(sameAddr, sameAddr.Keys, v, w) <==> Starred(sameAddr, v, w)
  {
    forall v: nat, w: nat ensures StarredIn(sameAddr, sameAddr.Keys, v, w) <==> Starred(sameAddr, v, w) {
      if a :| StarredAt(AtAddr(sameAddr, a), v, w) { assert a in sameAddr.Keys; }
    }
  }

  /** One address: the least instruction is linked with all of them. */
  method RelateStar(ids: set<nat>, g: Graph) returns (g': Graph)
    requires Symmetric(g) && ids != {}
    ensures Symmetric(g')
    ensures forall v: nat, w: nat :: w in Neighbours(g', v) <==> w in Neighbours(g, v) || StarredAt(ids, v, w)
  {
    hide Link, Neighbours;
    g' := g;
    var id: nat := LeastOf(ids);
    var rest := ids;
    while rest != {}
      invariant rest <= ids && Linking(g, g', id, ids - rest)
      decreases |rest|
    {
      var j :| j in rest;
      LinkMore(g, g', id, ids - rest, j);
      g' := Link(g', id, j);
      assert ids - (rest - {j}) == (ids - rest) + {j};
      rest := rest - {j};
    }
    assert ids - rest == ids;
  }

  // ------------------------------------------------------------------- paths

  ghost predicate Hop(g: Graph, p: seq<nat>, k: nat)
    requires k + 1 < |p|
  {
    p[k + 1] in Neighbours(g, p[k])
  }

  /** A path outside `done`. */
  ghost predicate Path(g: Graph, done: set<nat>, p: seq<nat>) {
    && |p| > 0 && (forall k :: 0 <= k < |p| ==> p[k] !in done)
    && forall k: nat :: k + 1 < |p| ==> Hop(g, p, k)
  }

  ghost predicate Reach(g: Graph, done: set<nat>, u: nat, v: nat) {
    exists p :: Path(g, done, p) && p[0] == u && p[|p| - 1] == v
  }

  lemma {:induction false} ReachMore(g: Graph, done: set<nat>, u: nat, v: nat, w: nat)
    requires Reach(g, done, u, v) && w in Neighbours(g, v) && w !in done
    ensures Reach(g, done, u, w)
  {
    var p :| Path(g, done, p) && p[0] == u && p[|p| - 1] == v;
    var q := p + [w];
    forall k: nat | k + 1 < |q| ensures Hop(g, q, k) {
      if k + 1 < |p| { assert Hop(g, p, k); }
    }
    assert Path(g, done, q);
  }

  lemma {:induction false} ReachSelf(g: Graph, done: set<nat>, u: nat)
    requires u !in done
    ensures Reach(g, done, u, u)
  {
    assert Path(g, done, [u]);
  }

  /** A set that holds u and is closed outside `done` holds all u reaches. */
  lemma {:induction false} ClosedHolds(g: Graph, done: set<nat>, closed: set<nat>, p: seq<nat>, k: nat)
    requires Path(g, done, p) && k < |p| && p[0] in closed
    requires forall v: nat, w: nat :: v in closed && w in Neighbours(g, v) && w !in done ==> w in closed
    ensures p[k] in closed
  {
    if k > 0 {
      ClosedHolds(g, done, closed, p, k - 1);
      assert Hop(g, p, k - 1);
    }
  }

  lemma {:induction false} PathReverse(g: Graph, p: seq<nat>) returns (q: seq<nat>)
    requires Symmetric(g) && Path(g, {}, p)
    ensures Path(g, {}, q) && q[0] == p[|p| - 1] && q[|q| - 1] == p[0]
    decreases |p|
  {
    if |p| == 1 {
      q := p;
    } else {
      var init := p[..|p| - 1];
      forall k: nat | k + 1 < |init| ensures Hop(g, init, k) { assert Hop(g, p, k); }
      var r := PathReverse(g, init);
      q := [p[|p| - 1]] + r;
      assert Hop(g, p, |p| - 2);
      forall k: nat | k + 1 < |q| ensures Hop(g, q, k) {
        if k > 0 { assert Hop(g, r, k - 1); }
      }
    }
  }

  lemma {:induction false} PathJoin(g: Graph, p: seq<nat>, q: seq<nat>)
    requires Path(g, {}, p) && Path(g, {}, q) && p[|p| - 1] == q[0]
    ensures Path(g, {}, p + q[1..])
  {
    var r := p + q[1..];
    forall k: nat | k + 1 < |r| ensures Hop(g, r, k) {
      if k + 1 < |p| {
        assert Hop(g, p, k);
      } else {
        var n: nat := k + 1 - |p|;
        assert Hop(g, q, n) && r[k] == q[n] && r[k + 1] == q[n + 1];
      }
    }
  }

  // -------------------------------------------------------------- the search

  ghost predicate Inside(g: Graph, nodes: set<nat>) {
    forall v: nat :: v in nodes ==> Neighbours(g, v) <= nodes
  }

  /** What is printed lies below what it still leads to: the neighbours of a
      printed entry are printed, or above it on the stack. */
  ghost predicate Covered(g: Graph, printed: set<nat>, q: seq<nat>) {
    forall k: nat :: k < |q| && q[k] in printed ==> Above(g, printed, q, k)
  }

  ghost predicate Above(g: Graph, printed: set<nat>, q: seq<nat>, k: nat)
    requires k < |q|
  {
    forall w: nat :: w in Neighbours(g, q[k]) && w !in printed ==> w in q[k + 1..]
  }

  /** The neighbours of what this search has printed are printed or waiting. */
  ghost predicate Pending(g: Graph, done: set<nat>, printed: set<nat>, q: seq<nat>) {
    forall v: nat, w: nat :: v in printed && v !in done && w in Neighbours(g, v) && w !in printed ==> w in q
  }

  lemma {:induction false} TopPrinted(g: Graph, printed: set<nat>, q: seq<nat>)
    requires Covered(g, printed, q) && q != [] && q[|q| - 1] in printed
    ensures Neighbours(g, q[|q| - 1]) <= printed
  {
    assert Above(g, printed, q, |q| - 1);
  }

  /** Printing the top entry and putting its new neighbours in its place. */
  lemma {:induction false} PushCovers(g: Graph, printed: set<nat>, q: seq<nat>, next: seq<nat>)
    requires q != [] && Covered(g, printed, q)
    requires forall w: nat :: w in next <==> w in Neighbours(g, q[|q| - 1]) && w !in printed + {q[|q| - 1]}
    ensures Covered(g, printed + {q[|q| - 1]}, q[..|q| - 1] + next)
  {
    var n := |q| - 1;
    var top, printed', q' := q[n], printed + {q[n]}, q[..n] + next;
    forall k: nat | n <= k < |q'| ensures q'[k] !in printed' {
      assert q'[k] == next[k - n] && next[k - n] in next;
    }
    forall k: nat | k < n && q'[k] in printed' ensures Above(g, printed', q', k) {
      assert q'[k] == q[k];
      assert q'[k + 1..] == q[k + 1..n] + next;
      if q[k] in printed {
        assert Above(g, printed, q, k);
        assert q[k + 1..] == q[k + 1..n] + [top];
      }
    }
  }

  /** The neighbours of `id` that have not been printed, in order. */
  method Unprinted(g: Graph, id: nat, printed: set<nat>) returns (next: seq<nat>)
    ensures forall w: nat :: w in next <==> w in Neighbours(g, id) && w !in printed
    ensures next != [] ==> next[0] in Neighbours(g, id) && next[0] !in printed
  {
    next := [];
    var rest := Neighbours(g, id);
    while rest != {}
      invariant rest <= Neighbours(g, id)
      invariant forall w: nat :: w in next <==> w in Neighbours(g, id) && w !in rest && w !in printed
      decreases |rest|
    {
      var i: nat := LeastOf(rest);
      if i !in printed { next := next + [i]; }
      rest := rest - {i};
    }
    assert next != [] ==> next[0] in next;
  }

  class Printer {
    var bug: set<nat>
    var printed: set<nat>

    constructor ()
      ensures bug == {} && printed == {}
    {
      bug, printed := {}, {};
    }

    /** Add to `bug` all that can be reached from `id` without entering what has
        been printed before. The stack may hold an instruction several times. */
    method Search(g: Graph, id: nat, ghost nodes: set<nat>)
      requires Inside(g, nodes) && id in nodes
      modifies this
      ensures forall v: nat :: v in printed <==> v in old(printed) || Reach(g, old(printed), id, v)
      ensures forall v: nat :: v in bug <==> v in old(bug) || Reach(g, old(printed), id, v)
      ensures bug <= old(bug) + nodes
    {
      hide Reach, Path;
      ghost var done := printed;
      if id in printed {
        NoneReached(g, done, id);
        return;
      }
      ReachSelf(g, done, id);
      var q := [id];
      while q != []
        invariant Searching(g, done, id, q, old(bug), nodes)
        decreases nodes - printed, |q|
      {
        q := Visit(g, done, id, q, old(bug), nodes);
      }
      forall v: nat | Reach(g, done, id, v) ensures v in printed - done {
        AllReached(g, done, printed, id, v);
      }
    }

    /** Everything the search has established between two rounds. */
    ghost predicate Searching(g: Graph, done: set<nat>, id: nat, q: seq<nat>, before: set<nat>, nodes: set<nat>)
      reads this
    {
      && done <= printed && (id in q || id in printed)
      && (forall k :: 0 <= k < |q| ==> q[k] in nodes && Reach(g, done, id, q[k]))
      && (forall v: nat :: v in printed && v !in done ==> Reach(g, done, id, v))
      && bug == before + (printed - done) && printed <= done + nodes
      && Covered(g, printed, q) && Pending(g, done, printed, q)
    }

    /** One round: print the top of the stack. */
    method Visit(g: Graph, ghost done: set<nat>, ghost id: nat, q: seq<nat>, ghost before: set<nat>,
                 ghost nodes: set<nat>)
      returns (q': seq<nat>)
      requires Searching(g, done, id, q, before, nodes) && q != [] && Inside(g, nodes)
      modifies this
      ensures Searching(g, done, id, q', before, nodes)
      ensures nodes - printed < nodes - old(printed) || (printed == old(printed) && |q'| < |q|)
    {
      hide Reach;
      var x := q[|q| - 1];
      ghost var was := printed;
      q' := q[..|q| - 1];
      NotDone(g, done, id, x);
      bug := bug + {x};
      printed := printed + {x};
      var next := Unprinted(g, x, printed);
      PushCovers(g, was, q, next);
      q' := q' + next;
      forall k | 0 <= k < |q'| ensures q'[k] in nodes && Reach(g, done, id, q'[k]) {
        if k >= |q| - 1 {
          var w := q'[k];
          assert w in next;
          ReachMore(g, done, id, x, w);
        }
      }
      assert q == q[..|q| - 1] + [x];
      if x in was {
        TopPrinted(g, was, q);
        assert printed == was && next == [];
      } else {
        assert x in nodes - was && x !in nodes - printed;
      }
    }
  }

  lemma {:induction false} NotDone(g: Graph, done: set<nat>, u: nat, v: nat)
    requires Reach(g, done, u, v)
    ensures v !in done
  {
    var p :| Path(g, done, p) && p[0] == u && p[|p| - 1] == v;
    assert p[|p| - 1] !in done;
  }

  lemma {:induction false} NoneReached(g: Graph, done: set<nat>, id: nat)
    requires id in done
    ensures forall v: nat :: !Reach(g, done, id, v)
  {
    forall v: nat ensures !Reach(g, done, id, v) {
      if Reach(g, done, id, v) { NotStarted(g, done, id, v); }
    }
  }

  lemma {:induction false} NotStarted(g: Graph, done: set<nat>, u: nat, v: nat)
    requires Reach(g, done, u, v)
    ensures u !in done
  {
    var p :| Path(g, done, p) && p[0] == u && p[|p| - 1] == v;
    assert p[0] !in done;
  }

  /** When nothing waits, everything reachable has been printed. */
  lemma {:induction false} AllReached(g: Graph, done: set<nat>, printed: set<nat>, id: nat, v: nat)
    requires Pending(g, done, printed, []) && id in printed && Reach(g, done, id, v)
    ensures v in printed && v !in done
  {
    var p :| Path(g, done, p) && p[0] == id && p[|p| - 1] == v;
    ClosedHolds(g, done, printed - done, p, |p| - 1);
  }

  // ------------------------------------------------------------- all the bugs

  /** The connected component of one of `ids`. */
  ghost predicate Found(g: Graph, ids: set<nat>, c: set<nat>) {
    exists u :: u in c && u in ids && forall v: nat :: v in c <==> Reach(g, {}, u, v)
  }

  /** If what has been printed is a union of components, a search from outside of
      it finds a whole component. */
  ghost predicate Whole(g: Graph, printed: set<nat>) {
    forall v: nat, w: nat :: v in printed && Reach(g, {}, v, w) ==> w in printed
  }

  lemma {:induction false} OutsideWhole(g: Graph, printed: set<nat>, u: nat, v: nat)
    requires Symmetric(g) && Whole(g, printed) && u !in printed
    ensures Reach(g, printed, u, v) <==> Reach(g, {}, u, v)
  {
    if Reach(g, {}, u, v) {
      var p :| Path(g, {}, p) && p[0] == u && p[|p| - 1] == v;
      forall k | 0 <= k < |p| ensures p[k] !in printed {
        BackTo(g, p, k);
      }
      assert Path(g, printed, p);
    }
    if Reach(g, printed, u, v) {
      var p :| Path(g, printed, p) && p[0] == u && p[|p| - 1] == v;
      assert Path(g, {}, p);
    }
  }

  lemma {:induction false} BackTo(g: Graph, p: seq<nat>, k: nat)
    requires Symmetric(g) && Path(g, {}, p) && k < |p|
    ensures Reach(g, {}, p[k], p[0])
  {
    var init := p[..k + 1];
    forall i: nat | i + 1 < |init| ensures Hop(g, init, i) { assert Hop(g, p, i); }
    var q := PathReverse(g, init);
  }

  lemma {:induction false} ReachJoin(g: Graph, u: nat, v: nat, w: nat)
    requires Reach(g, {}, u, v) && Reach(g, {}, v, w)
    ensures Reach(g, {}, u, w)
  {
    var p :| Path(g, {}, p) && p[0] == u && p[|p| - 1] == v;
    var q :| Path(g, {}, q) && q[0] == v && q[|q| - 1] == w;
    PathJoin(g, p, q);
  }

  lemma {:induction false} WholeMore(g: Graph, printed: set<nat>, u: nat, printed': set<nat>)
    requires Symmetric(g) && Whole(g, printed) && u !in printed
    requires forall v: nat :: v in printed' <==> v in printed || Reach(g, printed, u, v)
    ensures Whole(g, printed')
    ensures forall v: nat :: v in printed' - printed <==> Reach(g, {}, u, v)
    ensures forall v: nat :: v in printed' - printed <==> Reach(g, printed, u, v)
  {
    hide Reach;
    forall v: nat
      ensures v in printed' - printed <==> Reach(g, {}, u, v)
      ensures v in printed' - printed <==> Reach(g, printed, u, v)
    {
      OutsideWhole(g, printed, u, v);
      if Reach(g, printed, u, v) { NotDone(g, printed, u, v); }
    }
    forall v: nat, w: nat | v in printed' && Reach(g, {}, v, w) ensures w in printed' {
      if v !in printed {
        ReachJoin(g, u, v, w);
        OutsideWhole(g, printed, u, w);
      }
    }
  }

  /** The loop of PrintBug: every unneeded instruction ends up in exactly one bug,
      and every bug is a connected component. */
  method PrintBugs(g: Graph, ids: set<nat>, ghost nodes: set<nat>) returns (bugs: seq<set<nat>>)
    requires Symmetric(g) && Inside(g, nodes) && ids <= nodes
    ensures forall k :: 0 <= k < |bugs| ==> Found(g, ids, bugs[k])
    ensures forall j, k :: 0 <= j < k < |bugs| ==> bugs[j] !! bugs[k]
    ensures forall id :: id in ids ==> InSome(bugs, id)
    ensures forall k :: 0 <= k < |bugs| ==> bugs[k] <= nodes
  {
    hide Reach, Found;
    bugs := [];
    var printer := new Printer();
    var rest := ids;
    WholeNone(g);
    while rest != {}
      invariant fresh(printer) && rest <= ids && Whole(g, printer.printed)
      invariant forall k :: 0 <= k < |bugs| ==>
                 Found(g, ids, bugs[k]) && bugs[k] <= printer.printed && bugs[k] <= nodes
      invariant forall j, k :: 0 <= j < k < |bugs| ==> bugs[j] !! bugs[k]
      invariant forall v: nat :: v in printer.printed ==> InSome(bugs, v)
      invariant forall id :: id in ids && id !in rest ==> id in printer.printed
      decreases |rest|
    {
      var id: nat := LeastOf(rest);
      if id !in printer.printed {
        printer.bug := {};
        ghost var was := printer.printed;
        printer.Search(g, id, nodes);
        WholeMore(g, was, id, printer.printed);
        ReachSelf(g, {}, id);
        assert printer.bug == printer.printed - was;
        ComponentOf(g, ids, printer.bug, id);
        SomeMore(bugs, printer.bug);
        bugs := bugs + [printer.bug];
      }
      rest := rest - {id};
    }
  }

  ghost predicate InSome(bugs: seq<set<nat>>, v: nat) {
    exists k :: 0 <= k < |bugs| && v in bugs[k]
  }

  lemma {:induction false} SomeMore(bugs: seq<set<nat>>, bug: set<nat>)
    ensures forall v: nat :: InSome(bugs, v) || v in bug ==> InSome(bugs + [bug], v)
  {
    forall v: nat | InSome(bugs, v) || v in bug ensures InSome(bugs + [bug], v) {
      var all := bugs + [bug];
      if v in bug {
        assert v in all[|bugs|];
      } else {
        var k :| 0 <= k < |bugs| && v in bugs[k];
        assert v in all[k];
      }
    }
  }

  lemma {:induction false} WholeNone(g: Graph)
    ensures Whole(g, {})
  {
  }

  lemma {:induction false} ComponentOf(g: Graph, ids: set<nat>, c: set<nat>, u: nat)
    requires u in c && u in ids && forall v: nat :: v in c <==> Reach(g, {}, u, v)
    ensures Found(g, ids, c)
  {
  }

  function IdsOf(unneeded: set<DynamicInst>): (ids: set<nat>)
    ensures forall v: nat :: v in ids <==> exists d :: d in unneeded && d.id == v
  {
    set d | d in unneeded :: d.id
  }

  // ------------------------------------------------- what the bugs stand for

  /** Two instructions belong together: an unneeded execution of one depends on an
      unneeded execution of the other, or accesses of both are recorded under one
      address. */
  ghost predicate Together(prog: Program, memDep: DepMap, unneeded: set<DynamicInst>, sameAddr: map<uint64, set<nat>>,
                           v: nat, w: nat) {
    Tied(prog, memDep, unneeded, unneeded, v, w) || SharesAddress(sameAddr, v, w)
  }

  /** A chain of instructions of which each belongs together with the next. */
  ghost predicate Connection(prog: Program, memDep: DepMap, unneeded: set<DynamicInst>,
                             sameAddr: map<uint64, set<nat>>, p: seq<nat>) {
    |p| > 0 && forall k: nat, n: nat :: n == k + 1 < |p| ==> Together(prog, memDep, unneeded, sameAddr, p[k], p[n])
  }

  ghost predicate Connected(prog: Program, memDep: DepMap, unneeded: set<DynamicInst>, sameAddr: map<uint64, set<nat>>,
                            u: nat, v: nat) {
    exists p :: Connection(prog, memDep, unneeded, sameAddr, p) && p[0] == u && p[|p| - 1] == v
  }

  /** All instructions connected with an unneeded one. */
  ghost predicate IsBug(prog: Program, memDep: DepMap, unneeded: set<DynamicInst>, sameAddr: map<uint64, set<nat>>,
                        bug: set<nat>) {
    exists u :: u in bug && u in IdsOf(unneeded)
        && forall v: nat :: v in bug <==> Connected(prog, memDep, unneeded, sameAddr, u, v)
  }

  /** The bugs are disjoint, every unneeded instruction is in one, and each is all
      that is connected with an unneeded instruction. */
  ghost predicate Reports(prog: Program, memDep: DepMap, unneeded: set<DynamicInst>, sameAddr: map<uint64, set<nat>>,
                          bugs: seq<set<nat>>) {
    && (forall j, k :: 0 <= j < k < |bugs| ==> bugs[j] !! bugs[k])
    && (forall k :: 0 <= k < |bugs| ==> IsBug(prog, memDep, unneeded, sameAddr, bugs[k]))
    && (forall id :: id in IdsOf(unneeded) ==> InSome(bugs, id))
  }

  /** Accesses recorded under one address are all unneeded, or none of them is. */
  ghost predicate AddressesAgree(unneeded: set<DynamicInst>, sameAddr: map<uint64, set<nat>>) {
    forall v: nat, w: nat :: SharesAddress(sameAddr, v, w) && v in IdsOf(unneeded) ==> w in IdsOf(unneeded)
  }

  lemma {:induction false} TiedInside(prog: Program, memDep: DepMap, unneeded: set<DynamicInst>, v: nat, w: nat)
    requires Tied(prog, memDep, unneeded, unneeded, v, w)
    ensures v in IdsOf(unneeded) && w in IdsOf(unneeded)
  {
    hide DependsOn;
    if i :| i in unneeded && i.id == v && DependsOn(prog, memDep, unneeded, i, w) {
      DependsInside(prog, memDep, unneeded, i, w);
    }
    if i :| i in unneeded && i.id == w && DependsOn(prog, memDep, unneeded, i, v) {
      DependsInside(prog, memDep, unneeded, i, v);
    }
  }

  lemma {:induction false} DependsInside(prog: Program, memDep: DepMap, unneeded: set<DynamicInst>, i: DynamicInst,
                                         w: nat)
    requires DependsOn(prog, memDep, unneeded, i, w)
    ensures w in IdsOf(unneeded)
  {
    if !exists d :: d in unneeded && InDeps(memDep, i, d) && d.id == w {
      assert DynamicInst(i.tid, w, i.cnt) in unneeded;
    }
  }

  /** The graph that is searched: the dependences, and the star of every address. */
  ghost predicate Searches(prog: Program, memDep: DepMap, unneeded: set<DynamicInst>, sameAddr: map<uint64, set<nat>>,
                           g: Graph) {
    forall v: nat, w: nat ::
      w in Neighbours(g, v) <==> Tied(prog, memDep, unneeded, unneeded, v, w) || Starred(sameAddr, v, w)
  }

  lemma {:induction false} ReachConnected(prog: Program, memDep: DepMap, unneeded: set<DynamicInst>,
                                          sameAddr: map<uint64, set<nat>>, g: Graph, u: nat, v: nat)
    requires Searches(prog, memDep, unneeded, sameAddr, g)
    ensures Reach(g, {}, u, v) <==> Connected(prog, memDep, unneeded, sameAddr, u, v)
  {
    hide Tied, SharesAddress, Starred;
    if Reach(g, {}, u, v) {
      var p :| Path(g, {}, p) && p[0] == u && p[|p| - 1] == v;
      forall k: nat, n: nat | n == k + 1 < |p| ensures Together(prog, memDep, unneeded, sameAddr, p[k], p[n]) {
        assert Hop(g, p, k);
        StarShares(sameAddr, p[k], p[n]);
      }
      assert Connection(prog, memDep, unneeded, sameAddr, p);
    }
    if Connected(prog, memDep, unneeded, sameAddr, u, v) {
      var p :| Connection(prog, memDep, unneeded, sameAddr, p) && p[0] == u && p[|p| - 1] == v;
      ConnectionReaches(prog, memDep, unneeded, sameAddr, g, p, |p| - 1);
    }
  }

  lemma {:induction false} StarShares(sameAddr: map<uint64, set<nat>>, v: nat, w: nat)
    ensures Starred(sameAddr, v, w) ==> SharesAddress(sameAddr, v, w)
  {
  }

  /** The star of an address connects what a clique over it would. */
  lemma {:induction false} ConnectionReaches(prog: Program, memDep: DepMap, unneeded: set<DynamicInst>,
                                             sameAddr: map<uint64, set<nat>>, g: Graph, p: seq<nat>, k: nat)
    requires Searches(prog, memDep, unneeded, sameAddr, g) && Connection(prog, memDep, unneeded, sameAddr, p)
    requires k < |p|
    ensures Reach(g, {}, p[0], p[k])
  {
    hide Tied, Reach;
    if k == 0 {
      ReachSelf(g, {}, p[0]);
    } else {
      var n: nat := k - 1;
      ConnectionReaches(prog, memDep, unneeded, sameAddr, g, p, n);
      assert Together(prog, memDep, unneeded, sameAddr, p[n], p[k]);
      if Tied(prog, memDep, unneeded, unneeded, p[n], p[k]) {
        ReachMore(g, {}, p[0], p[n], p[k]);
      } else {
        var c := Centre(sameAddr, p[n], p[k]);
        ReachMore(g, {}, p[0], p[n], c);
        ReachMore(g, {}, p[0], c, p[k]);
      }
    }
  }

  lemma {:induction false} Centre(sameAddr: map<uint64, set<nat>>, v: nat, w: nat) returns (c: nat)
    requires SharesAddress(sameAddr, v, w)
    ensures Starred(sameAddr, v, c) && Starred(sameAddr, c, w)
  {
    var a :| v in AtAddr(sameAddr, a) && w in AtAddr(sameAddr, a);
    c := Smallest(AtAddr(sameAddr, a));
  }

  /** A bug leaves the unneeded instructions only through an address. */
  lemma {:induction false} ConnectionInside(prog: Program, memDep: DepMap, unneeded: set<DynamicInst>,
                                            sameAddr: map<uint64, set<nat>>, p: seq<nat>, k: nat)
    requires Connection(prog, memDep, unneeded, sameAddr, p) && k < |p| && p[0] in IdsOf(unneeded)
    requires AddressesAgree(unneeded, sameAddr)
    ensures p[k] in IdsOf(unneeded)
  {
    hide Tied, SharesAddress, IdsOf;
    if k > 0 {
      var n: nat := k - 1;
      ConnectionInside(prog, memDep, unneeded, sameAddr, p, n);
      assert Together(prog, memDep, unneeded, sameAddr, p[n], p[k]);
      if Tied(prog, memDep, unneeded, unneeded, p[n], p[k]) { TiedInside(prog, memDep, unneeded, p[n], p[k]); }
    }
  }

  lemma {:induction false} ConnectedMore(prog: Program, memDep: DepMap, unneeded: set<DynamicInst>,
                                         sameAddr: map<uint64, set<nat>>, u: nat, v: nat, w: nat)
    requires Connected(prog, memDep, unneeded, sameAddr, u, v) && Together(prog, memDep, unneeded, sameAddr, v, w)
    ensures Connected(prog, memDep, unneeded, sameAddr, u, w)
  {
    hide Together;
    var p :| Connection(prog, memDep, unneeded, sameAddr, p) && p[0] == u && p[|p| - 1] == v;
    assert Connection(prog, memDep, unneeded, sameAddr, p + [w]);
  }

  /** The report names unneeded instructions only, exactly if no address is shared by
      an unneeded instruction and one all of whose executions were kept after all. */
  lemma {:induction false} ReportsUnneeded(prog: Program, memDep: DepMap, unneeded: set<DynamicInst>,
                                           sameAddr: map<uint64, set<nat>>, bugs: seq<set<nat>>)
    requires Reports(prog, memDep, unneeded, sameAddr, bugs)
    ensures (forall k :: 0 <= k < |bugs| ==> bugs[k] <= IdsOf(unneeded)) <==> AddressesAgree(unneeded, sameAddr)
  {
    hide SharesAddress, IdsOf, IsBug, InSome;
    if AddressesAgree(unneeded, sameAddr) {
      forall k | 0 <= k < |bugs| ensures bugs[k] <= IdsOf(unneeded) {
        BugInside(prog, memDep, unneeded, sameAddr, bugs[k]);
      }
    }
    if forall k :: 0 <= k < |bugs| ==> bugs[k] <= IdsOf(unneeded) {
      forall v: nat, w: nat | SharesAddress(sameAddr, v, w) && v in IdsOf(unneeded) ensures w in IdsOf(unneeded) {
        var bug := BugOf(bugs, v);
        SharedInBug(prog, memDep, unneeded, sameAddr, bug, v, w);
      }
    }
  }

  lemma {:induction false} BugOf(bugs: seq<set<nat>>, v: nat) returns (bug: set<nat>)
    requires InSome(bugs, v)
    ensures bug in bugs && v in bug
  {
    var k :| 0 <= k < |bugs| && v in bugs[k];
    bug := bugs[k];
  }

  lemma {:induction false} SharedInBug(prog: Program, memDep: DepMap, unneeded: set<DynamicInst>,
                                       sameAddr: map<uint64, set<nat>>, bug: set<nat>, v: nat, w: nat)
    requires IsBug(prog, memDep, unneeded, sameAddr, bug) && v in bug && SharesAddress(sameAddr, v, w)
    ensures w in bug
  {
    hide Together, SharesAddress, IdsOf, Connected;
    var u :| u in bug && forall x: nat :: x in bug <==> Connected(prog, memDep, unneeded, sameAddr, u, x);
    SharedTogether(prog, memDep, unneeded, sameAddr, v, w);
    ConnectedMore(prog, memDep, unneeded, sameAddr, u, v, w);
  }

  lemma {:induction false} SharedTogether(prog: Program, memDep: DepMap, unneeded: set<DynamicInst>,
                                          sameAddr: map<uint64, set<nat>>, v: nat, w: nat)
    requires SharesAddress(sameAddr, v, w)
    ensures Together(prog, memDep, unneeded, sameAddr, v, w)
  {
  }

  lemma {:induction false} BugInside(prog: Program, memDep: DepMap, unneeded: set<DynamicInst>,
                                     sameAddr: map<uint64, set<nat>>, bug: set<nat>)
    requires IsBug(prog, memDep, unneeded, sameAddr, bug) && AddressesAgree(unneeded, sameAddr)
    ensures bug <= IdsOf(unneeded)
  {
    hide IdsOf, Together;
    var u :| u in bug && u in IdsOf(unneeded)
        && forall v: nat :: v in bug <==> Connected(prog, memDep, unneeded, sameAddr, u, v);
    forall v | v in bug ensures v in IdsOf(unneeded) {
      var p :| Connection(prog, memDep, unneeded, sameAddr, p) && p[0] == u && p[|p| - 1] == v;
      ConnectionInside(prog, memDep, unneeded, sameAddr, p, |p| - 1);
    }
  }

  // ------------------------------------------------------------ the whole pass

  /** PrintBug: the unneeded executions, told apart by instruction, fall into bugs. */
  method PrintBug(prog: Program, memDep: DepMap, unneeded: set<DynamicInst>, sameAddr: map<uint64, set<nat>>)
    returns (bugs: seq<set<nat>>)
    requires forall a :: a in sameAddr ==> sameAddr[a] != {}
    ensures Reports(prog, memDep, unneeded, sameAddr, bugs)
    ensures (forall k :: 0 <= k < |bugs| ==> bugs[k] <= IdsOf(unneeded)) <==> AddressesAgree(unneeded, sameAddr)
  {
    hide Found, DependsOn, Tied, Starred, AddressesAgree, Connected, Reach;
    var g := Relate(prog, memDep, unneeded);
    g := RelateAddresses(sameAddr, g);
    var ids := IdsOf(unneeded);
    ghost var nodes := ids + Recorded(sameAddr);
    SearchesInside(prog, memDep, unneeded, sameAddr, g, nodes);
    bugs := PrintBugs(g, ids, nodes);
    forall k | 0 <= k < |bugs| ensures IsBug(prog, memDep, unneeded, sameAddr, bugs[k]) {
      FoundBug(prog, memDep, unneeded, sameAddr, g, bugs[k]);
    }
    ReportsUnneeded(prog, memDep, unneeded, sameAddr, bugs);
  }

  /** All instructions recorded under some address. */
  ghost function Recorded(sameAddr: map<uint64, set<nat>>): set<nat> {
    set a, id | a in sameAddr && id in sameAddr[a] :: id
  }

  lemma {:induction false} SearchesInside(prog: Program, memDep: DepMap, unneeded: set<DynamicInst>,
                                          sameAddr: map<uint64, set<nat>>, g: Graph, nodes: set<nat>)
    requires Searches(prog, memDep, unneeded, sameAddr, g) && nodes == IdsOf(unneeded) + Recorded(sameAddr)
    ensures Inside(g, nodes)
  {
    hide IdsOf, Tied;
    forall v: nat, w: nat | w in Neighbours(g, v) ensures w in nodes {
      if Tied(prog, memDep, unneeded, unneeded, v, w) { TiedInside(prog, memDep, unneeded, v, w); }
    }
  }

  lemma {:induction false} FoundBug(prog: Program, memDep: DepMap, unneeded: set<DynamicInst>,
                                    sameAddr: map<uint64, set<nat>>, g: Graph, bug: set<nat>)
    requires Searches(prog, memDep, unneeded, sameAddr, g) && Found(g, IdsOf(unneeded), bug)
    ensures IsBug(prog, memDep, unneeded, sameAddr, bug)
  {
    hide Searches, Reach, Connected, IdsOf;
    var u: nat :| u in bug && u in IdsOf(unneeded) && forall v: nat :: v in bug <==> Reach(g, {}, u, v);
    forall v: nat ensures v in bug <==> Connected(prog, memDep, unneeded, sameAddr, u, v) {
      ReachConnected(prog, memDep, unneeded, sameAddr, g, u, v);
    }
  }
}
