/** Merging segment trees over the same range into one (the first Merging of
    tools/PrintBug/GroupMemory.cpp, lines 39-59), by recursion over all of them at
    once. */
module GroupTrees {
  import opened Common
  import opened SegmentTrees

  // ------------------------------------------------------- merging the trees

  ghost predicate FitAll(shapes: seq<Tree<int>>, left: uint64, right: uint64) {
    forall i :: 0 <= i < |shapes| ==> Fits(shapes[i], left, right)
  }

  /** One of the trees has something at x. */
  ghost predicate AnyCovers(shapes: seq<Tree<int>>, left: uint64, right: uint64, x: uint64)
    requires FitAll(shapes, left, right)
  {
    exists i :: 0 <= i < |shapes| && Look(shapes[i], left, right, x).Some?
  }

  ghost predicate Shaped(trees: seq<SegmentTree<int>>, shapes: seq<Tree<int>>, left: uint64, right: uint64)
    reads trees, set i, o | 0 <= i < |trees| && o in trees[i].Repr :: o
  {
    && |shapes| == |trees|
    && forall i :: 0 <= i < |trees| ==>
         trees[i].Valid() && trees[i].left == left && trees[i].right == right && trees[i].tree == shapes[i]
  }

  ghost predicate AllApart(trees: seq<SegmentTree<int>>, owner: SegmentTree<int>)
    reads trees, owner
  {
    forall i :: 0 <= i < |trees| ==> trees[i].Repr !! owner.Repr
  }

  function Lefts(shapes: seq<Tree<int>>): seq<Tree<int>> {
    if shapes == [] then []
    else if shapes[|shapes| - 1].Partial? then Lefts(shapes[..|shapes| - 1]) + [shapes[|shapes| - 1].lc]
    else Lefts(shapes[..|shapes| - 1])
  }

  function Rights(shapes: seq<Tree<int>>): seq<Tree<int>> {
    if shapes == [] then []
    else if shapes[|shapes| - 1].Partial? then Rights(shapes[..|shapes| - 1]) + [shapes[|shapes| - 1].rc]
    else Rights(shapes[..|shapes| - 1])
  }

  lemma {:induction false} HalvesFit(shapes: seq<Tree<int>>, left: uint64, right: uint64)
    requires left < right && FitAll(shapes, left, right)
    ensures |Lefts(shapes)| == |Rights(shapes)|
    ensures |Lefts(shapes)| > 0 ==> left < Mid(left, right)
    ensures FitAll(Lefts(shapes), left, Mid(left, right))
    ensures FitAll(Rights(shapes), Mid(left, right), right)
    decreases |shapes|
  {
    if shapes != [] { HalvesFit(shapes[..|shapes| - 1], left, right); }
  }

  /** Trees without a covered root cover x if one of their halves does. */
  lemma {:induction false} HalvesCover(shapes: seq<Tree<int>>, left: uint64, right: uint64, x: uint64)
    requires left < right && FitAll(shapes, left, right) && forall i :: 0 <= i < |shapes| ==> !shapes[i].Covered?
    requires FitAll(Lefts(shapes), left, Mid(left, right))
    requires FitAll(Rights(shapes), Mid(left, right), right)
    ensures AnyCovers(shapes, left, right, x) <==>
              if x < Mid(left, right) then AnyCovers(Lefts(shapes), left, Mid(left, right), x)
              else AnyCovers(Rights(shapes), Mid(left, right), right, x)
    decreases |shapes|
  {
    if shapes != [] {
      var n := |shapes| - 1;
      var init := shapes[..n];
      HalvesFit(init, left, right);
      HalvesCover(init, left, right, x);
      var mid := Mid(left, right);
      assert AnyCovers(shapes, left, right, x) <==>
                AnyCovers(init, left, right, x) || Look(shapes[n], left, right, x).Some? by {
        MoreCovers(init, shapes[n], left, right, x);
        assert init + [shapes[n]] == shapes;
      }
      if shapes[n].Partial? {
        if x < mid { MoreCovers(Lefts(init), shapes[n].lc, left, mid, x); }
        else { MoreCovers(Rights(init), shapes[n].rc, mid, right, x); }
      }
    }
  }

  lemma {:induction false} MoreCovers(shapes: seq<Tree<int>>, t: Tree<int>, left: uint64, right: uint64, x: uint64)
    requires Fits(t, left, right) && FitAll(shapes, left, right)
    ensures AnyCovers(shapes + [t], left, right, x) <==>
              AnyCovers(shapes, left, right, x) || Look(t, left, right, x).Some?
  {
    var all := shapes + [t];
    if i :| 0 <= i < |shapes| && Look(shapes[i], left, right, x).Some? { assert all[i] == shapes[i]; }
    if Look(t, left, right, x).Some? { assert all[|shapes|] == t; }
  }

  lemma {:induction false} SameSize(trees: seq<SegmentTree<int>>, shapes: seq<Tree<int>>, left: uint64, right: uint64)
    requires Shaped(trees, shapes, left, right)
    ensures |shapes| == |trees|
  {
  }

  lemma {:induction false} NoneShaped(left: uint64, right: uint64)
    ensures Shaped([], [], left, right)
  {
  }

  lemma {:induction false} ShapedAt(trees: seq<SegmentTree<int>>, shapes: seq<Tree<int>>, left: uint64,
                                    right: uint64, n: nat)
    requires Shaped(trees, shapes, left, right) && n < |trees|
    ensures |shapes| == |trees| && trees[n].Valid() && trees[n].left == left && trees[n].right == right
    ensures trees[n].tree == shapes[n]
  {
  }

  lemma {:induction false} MoreShaped(trees: seq<SegmentTree<int>>, shapes: seq<Tree<int>>, t: SegmentTree<int>,
                                      left: uint64, right: uint64)
    requires Shaped(trees, shapes, left, right) && t.Valid() && t.left == left && t.right == right
    ensures Shaped(trees + [t], shapes + [t.tree], left, right)
  {
  }

  /** Sort the children of the partial roots; stop at a covered one. */
  method Children(trees: seq<SegmentTree<int>>, ghost shapes: seq<Tree<int>>, left: uint64, right: uint64)
    returns (covered: bool, ls: seq<SegmentTree<int>>, rs: seq<SegmentTree<int>>)
    requires left < right && Shaped(trees, shapes, left, right)
    ensures covered <==> exists i :: 0 <= i < |shapes| && shapes[i].Covered?
    ensures !covered ==>
              && Shaped(ls, Lefts(shapes), left, Mid(left, right))
              && Shaped(rs, Rights(shapes), Mid(left, right), right)
              && (forall t :: t in ls || t in rs ==> exists i :: 0 <= i < |trees| && t.Repr <= trees[i].Repr)
  {
    hide Shaped;
    covered, ls, rs := false, [], [];
    SameSize(trees, shapes, left, right);
    NoneShaped(left, Mid(left, right));
    NoneShaped(Mid(left, right), right);
    var n := 0;
    assert shapes[..0] == [];
    while n < |trees|
      invariant 0 <= n <= |trees| == |shapes|
      invariant forall i :: 0 <= i < n ==> !shapes[i].Covered?
      invariant Shaped(ls, Lefts(shapes[..n]), left, Mid(left, right))
      invariant Shaped(rs, Rights(shapes[..n]), Mid(left, right), right)
      invariant forall t :: t in ls || t in rs ==> exists i :: 0 <= i < |trees| && t.Repr <= trees[i].Repr
    {
      var t := trees[n];
      ShapedAt(trees, shapes, left, right, n);
      assert shapes[..n + 1][..n] == shapes[..n];
      if t.typ == CoveredSegment { return true, [], []; }
      if t.typ == PartialSegment {
        MoreShaped(ls, Lefts(shapes[..n]), t.lChild, left, Mid(left, right));
        MoreShaped(rs, Rights(shapes[..n]), t.rChild, Mid(left, right), right);
        ls := ls + [t.lChild];
        rs := rs + [t.rChild];
      }
      n := n + 1;
    }
    assert shapes[..n] == shapes;
  }

  /** The map after relabeling what the given trees cover. */
  ghost predicate Labels(after: Tree<int>, before: Tree<int>, shapes: seq<Tree<int>>, left: uint64, right: uint64,
                         g: int)
    requires Fits(after, 0, MAX_RANGE) && Fits(before, 0, MAX_RANGE)
    requires FitAll(shapes, left, right)
  {
    forall x :: x < MAX_RANGE ==>
      Look(after, 0, MAX_RANGE, x)
      == if left <= x < right && AnyCovers(shapes, left, right, x) then Some(g) else Look(before, 0, MAX_RANGE, x)
  }

  /** The union of the given trees. */
  ghost predicate Union(t: Tree<int>, shapes: seq<Tree<int>>, left: uint64, right: uint64)
    requires Fits(t, left, right)
    requires FitAll(shapes, left, right)
  {
    forall x :: left <= x < right ==>
      Look(t, left, right, x) == if AnyCovers(shapes, left, right, x) then Some(1) else None
  }

  lemma {:induction false} UnionOfHalves(lc: Tree<int>, rc: Tree<int>, shapes: seq<Tree<int>>, left: uint64,
                                         right: uint64, before: Tree<int>, mid: Tree<int>, after: Tree<int>, g: int)
    requires left < right <= MAX_RANGE && left < Mid(left, right)
    requires FitAll(shapes, left, right) && forall i :: 0 <= i < |shapes| ==> !shapes[i].Covered?
    requires FitAll(Lefts(shapes), left, Mid(left, right))
    requires FitAll(Rights(shapes), Mid(left, right), right)
    requires Fits(lc, left, Mid(left, right)) && Union(lc, Lefts(shapes), left, Mid(left, right))
    requires Fits(rc, Mid(left, right), right) && Union(rc, Rights(shapes), Mid(left, right), right)
    requires Fits(before, 0, MAX_RANGE) && Fits(mid, 0, MAX_RANGE) && Fits(after, 0, MAX_RANGE)
    requires Labels(mid, before, Lefts(shapes), left, Mid(left, right), g)
    requires Labels(after, mid, Rights(shapes), Mid(left, right), right, g)
    ensures Union(Partial(lc, rc), shapes, left, right) && Labels(after, before, shapes, left, right, g)
  {
    hide AnyCovers, Lefts, Rights;
    forall x | left <= x < right
      ensures Look(Partial(lc, rc), left, right, x) == if AnyCovers(shapes, left, right, x) then Some(1) else None
    {
      HalvesCover(shapes, left, right, x);
    }
    forall x | x < MAX_RANGE
      ensures Look(after, 0, MAX_RANGE, x)
              == if left <= x < right && AnyCovers(shapes, left, right, x) then Some(g)
                 else Look(before, 0, MAX_RANGE, x)
    {
      HalvesCover(shapes, left, right, x);
    }
  }

  lemma {:induction false} CoveredUnion(shapes: seq<Tree<int>>, left: uint64, right: uint64, before: Tree<int>,
                                        after: Tree<int>, g: int)
    requires left < right <= MAX_RANGE && FitAll(shapes, left, right)
    requires exists i :: 0 <= i < |shapes| && shapes[i].Covered?
    requires Fits(before, 0, MAX_RANGE) && Fits(after, 0, MAX_RANGE)
    requires forall x :: x < MAX_RANGE ==>
               Look(after, 0, MAX_RANGE, x) == if left <= x < right then Some(g) else Look(before, 0, MAX_RANGE, x)
    ensures Union(Covered(1), shapes, left, right) && Labels(after, before, shapes, left, right, g)
  {
    var i :| 0 <= i < |shapes| && shapes[i].Covered?;
    forall x | left <= x < right ensures AnyCovers(shapes, left, right, x) {
      assert Look(shapes[i], left, right, x).Some?;
    }
  }

  lemma {:induction false} EmptyUnion(shapes: seq<Tree<int>>, left: uint64, right: uint64, before: Tree<int>, g: int)
    requires left < right <= MAX_RANGE && FitAll(shapes, left, right)
    requires forall i :: 0 <= i < |shapes| ==> shapes[i].Empty?
    requires Fits(before, 0, MAX_RANGE)
    ensures Union(Empty(0), shapes, left, right) && Labels(before, before, shapes, left, right, g)
  {
  }

  lemma {:induction false} NoHalves(shapes: seq<Tree<int>>)
    requires Lefts(shapes) == [] && forall i :: 0 <= i < |shapes| ==> !shapes[i].Covered?
    ensures forall i :: 0 <= i < |shapes| ==> shapes[i].Empty?
    decreases |shapes|
  {
    if shapes != [] { NoHalves(shapes[..|shapes| - 1]); }
  }

  /** Merge trees over one range into a new tree, and relabel all they cover. The
      new tree shares no node with the old ones. */
  method MergeTrees(trees: seq<SegmentTree<int>>, ghost shapes: seq<Tree<int>>, left: uint64, right: uint64,
                    newGroup: int, addrGroup: SegmentTree<int>)
    returns (t: SegmentTree<int>)
    requires left < right <= MAX_RANGE && Shaped(trees, shapes, left, right) && AllApart(trees, addrGroup)
    requires addrGroup.Valid() && addrGroup.left == 0 && addrGroup.right == MAX_RANGE
    modifies addrGroup.Repr
    ensures addrGroup.Valid() && fresh(addrGroup.Repr - old(addrGroup.Repr))
    ensures t.Valid() && t.left == left && t.right == right && fresh(t.Repr) && t.Repr !! addrGroup.Repr
    ensures Union(t.tree, shapes, left, right)
    ensures Labels(addrGroup.tree, old(addrGroup.tree), shapes, left, right, newGroup)
    decreases right as int - left as int, 1
  {
    hide AnyCovers, Union, Labels, Lefts, Rights;
    var covered, ls, rs := Children(trees, shapes, left, right);
    ghost var before := addrGroup.tree;
    if covered {
      addrGroup.Set(left, right, newGroup);
      t := new SegmentTree.Leaf(CoveredSegment, 1, left, right);
      LookAt(addrGroup);
      CoveredUnion(shapes, left, right, before, addrGroup.tree, newGroup);
      return;
    }
    if |ls| == 0 {
      t := new SegmentTree.Leaf(EmptySegment, 0, left, right);
      NoHalves(shapes);
      EmptyUnion(shapes, left, right, before, newGroup);
      return;
    }
    HalvesFit(shapes, left, right);
    t := MergeHalves(shapes, ls, rs, left, right, newGroup, addrGroup);
  }

  lemma {:induction false} LookAt(t: SegmentTree<int>)
    requires t.Valid()
    ensures forall x :: t.At(x) == Look(t.tree, t.left, t.right, x)
  {
  }

  method MergeHalves(ghost shapes: seq<Tree<int>>, ls: seq<SegmentTree<int>>, rs: seq<SegmentTree<int>>, left: uint64,
                     right: uint64, newGroup: int, addrGroup: SegmentTree<int>)
    returns (t: SegmentTree<int>)
    requires left < right <= MAX_RANGE && left < Mid(left, right)
    requires FitAll(shapes, left, right) && forall i :: 0 <= i < |shapes| ==> !shapes[i].Covered?
    requires Shaped(ls, Lefts(shapes), left, Mid(left, right)) && AllApart(ls, addrGroup)
    requires Shaped(rs, Rights(shapes), Mid(left, right), right) && AllApart(rs, addrGroup)
    requires addrGroup.Valid() && addrGroup.left == 0 && addrGroup.right == MAX_RANGE
    modifies addrGroup.Repr
    ensures addrGroup.Valid() && fresh(addrGroup.Repr - old(addrGroup.Repr))
    ensures t.Valid() && t.left == left && t.right == right && fresh(t.Repr) && t.Repr !! addrGroup.Repr
    ensures Union(t.tree, shapes, left, right)
    ensures Labels(addrGroup.tree, old(addrGroup.tree), shapes, left, right, newGroup)
    decreases right as int - left as int, 0
  {
    hide AnyCovers, Union, Labels, Lefts, Rights;
    var mid := Mid(left, right);
    ghost var before := addrGroup.tree;
    var lc := MergeTrees(ls, Lefts(shapes), left, mid, newGroup, addrGroup);
    ghost var between := addrGroup.tree;
    assert Shaped(rs, Rights(shapes), mid, right) && AllApart(rs, addrGroup);
    var rc := MergeTrees(rs, Rights(shapes), mid, right, newGroup, addrGroup);
    assert lc.Valid();
    UnionOfHalves(lc.tree, rc.tree, shapes, left, right, before, between, addrGroup.tree, newGroup);
    t := new SegmentTree.Node(-1, left, right, lc, rc);
  }
}
