/** The two indexes from addresses to groups and back (Addr2Group and Group2Addr
    of tools/PrintBug/GroupMemory.cpp), which stay inverse to each other. */
module AddressIndexes {
  import opened Common
  import opened SegmentTrees
  import opened Grouping
  import opened GroupTrees

  ghost function OwnerOf(t: Tree<int>): imap<uint64, int>
    requires Fits(t, 0, MAX_RANGE)
  {
    imap x | x < MAX_RANGE && Look(t, 0, MAX_RANGE, x).Some? :: Look(t, 0, MAX_RANGE, x).value
  }

  ghost predicate Covers(t: Tree<int>, x: uint64)
    requires Fits(t, 0, MAX_RANGE)
  {
    x < MAX_RANGE && Look(t, 0, MAX_RANGE, x).Some?
  }

  /** The trees of the groups hold exactly what the owner index says. */
  ghost predicate Inverse(owner: imap<uint64, int>, shapes: map<int, Tree<int>>) {
    && (forall g :: g in shapes ==> Fits(shapes[g], 0, MAX_RANGE))
    && (forall x :: x in owner ==> owner[x] in shapes)
    && (forall g, x :: g in shapes ==> (Covers(shapes[g], x) <==> x in owner && owner[x] == g))
  }

  /** A tree over all addresses, with its shape and its nodes. */
  ghost predicate Rooted(t: SegmentTree<int>, shape: Tree<int>, ns: set<object>)
    reads t, ns
    ensures Rooted(t, shape, ns) ==> Fits(shape, 0, MAX_RANGE)
  {
    t in ns && t.Repr == ns && t.Valid() && t.left == 0 && t.right == MAX_RANGE && t.tree == shape
  }

  method SetRooted(t: SegmentTree<int>, ghost shape: Tree<int>, ghost ns: set<object>, l: uint64, r: uint64, v: int)
    returns (ghost shape': Tree<int>, ghost ns': set<object>)
    requires Rooted(t, shape, ns)
    modifies ns
    ensures t in ns' && Rooted(t, shape', ns') && fresh(ns' - ns) && shape' == SetTree(shape, 0, MAX_RANGE, l, r, v)
  {
    t.Set(l, r, v);
    shape', ns' := t.tree, t.Repr;
  }

  ghost function NodesOf(nodes: map<int, set<object>>): set<object> {
    set g, o | g in nodes && o in nodes[g] :: o
  }

  /** Every group has its tree. */
  ghost predicate AllRooted(groups: map<int, SegmentTree<int>>, shapes: map<int, Tree<int>>,
                            nodes: map<int, set<object>>)
    reads NodesOf(nodes)
  {
    && groups.Keys == shapes.Keys == nodes.Keys
    && forall g :: g in groups ==> groups[g] in nodes[g] && Rooted(groups[g], shapes[g], nodes[g])
  }

  method SetGroup(groups: map<int, SegmentTree<int>>, ghost shapes: map<int, Tree<int>>,
                  ghost nodes: map<int, set<object>>, g: int, l: uint64, r: uint64)
    returns (ghost shape: Tree<int>, ghost ns: set<object>)
    requires AllRooted(groups, shapes, nodes) && g in groups
    requires forall h :: h in nodes && h != g ==> nodes[h] !! nodes[g]
    modifies nodes[g]
    ensures AllRooted(groups, shapes[g := shape], nodes[g := ns])
    ensures fresh(ns - nodes[g]) && Fits(shapes[g], 0, MAX_RANGE) && Fits(shape, 0, MAX_RANGE)
    ensures shape == SetTree(shapes[g], 0, MAX_RANGE, l, r, 1)
  {
    hide Rooted;
    shape, ns := SetRooted(groups[g], shapes[g], nodes[g], l, r, 1);
  }

  lemma {:induction false} OneMoreRooted(groups: map<int, SegmentTree<int>>, shapes: map<int, Tree<int>>,
                                         nodes: map<int, set<object>>, g: int, t: SegmentTree<int>, shape: Tree<int>,
                                         ns: set<object>)
    requires AllRooted(groups, shapes, nodes) && t in ns && Rooted(t, shape, ns)
    ensures AllRooted(groups[g := t], shapes[g := shape], nodes[g := ns])
    ensures groups.Keys == shapes.Keys == nodes.Keys
  {
    hide Rooted;
  }

  method NewRooted() returns (t: SegmentTree<int>, ghost ns: set<object>)
    ensures t in ns && Rooted(t, Empty(0), ns) && fresh(ns)
  {
    t := new SegmentTree.NewTree(0);
    ns := t.Repr;
  }

  /** No node belongs to two trees. */
  ghost predicate Apart(index: object, ownerNodes: set<object>, nodes: map<int, set<object>>) {
    && index !in ownerNodes
    && (forall g :: g in nodes ==> index !in nodes[g] && nodes[g] !! ownerNodes)
    && (forall g, h :: g in nodes && h in nodes && g != h ==> nodes[g] !! nodes[h])
  }

  /** Everything belongs to one set of objects. */
  ghost predicate Within(index: object, ownerNodes: set<object>, nodes: map<int, set<object>>, all: set<object>) {
    index in all && ownerNodes <= all && NodesOf(nodes) <= all
  }

  lemma {:induction false} StillApart(index: object, ownerNodes: set<object>, nodes: map<int, set<object>>,
                                      all: set<object>, g: int, ns: set<object>, ns1: set<object>)
    requires Apart(index, ownerNodes, nodes) && Within(index, ownerNodes, nodes, all)
    requires ns - (if g in nodes then nodes[g] else {}) !! all
    requires ns1 - ownerNodes !! all + ns
    ensures Apart(index, ns1, nodes[g := ns]) && Within(index, ns1, nodes[g := ns], all + ns + ns1)
    ensures index !in ns1 && index !in NodesOf(nodes[g := ns])
  {
    var nodes' := nodes[g := ns];
    forall h | h in nodes ensures nodes[h] <= all {
      assert forall o :: o in nodes[h] ==> o in NodesOf(nodes);
    }
    forall h | h in nodes' ensures index !in nodes'[h] && nodes'[h] !! ns1 {
    }
    forall h, k | h in nodes' && k in nodes' && h != k ensures nodes'[h] !! nodes'[k] {
    }
  }

  lemma {:induction false} ApartFrom(index: object, ownerNodes: set<object>, nodes: map<int, set<object>>, g: int)
    requires Apart(index, ownerNodes, nodes) && g in nodes
    ensures index !in nodes[g] && index !in ownerNodes && nodes[g] !! ownerNodes
    ensures forall h :: h in nodes && h != g ==> nodes[h] !! nodes[g]
    ensures index !in NodesOf(nodes) && NodesOf(nodes) !! ownerNodes
  {
  }

  class AddressIndex {
    const addr2Group: SegmentTree<int>
    var group2Addr: map<int, SegmentTree<int>>
    ghost var owner: imap<uint64, int>
    ghost var shapes: map<int, Tree<int>>
    ghost var ownerTree: Tree<int>
    ghost var ownerNodes: set<object>
    ghost var nodes: map<int, set<object>>
    ghost var Repr: set<object>

    /** The trees are as recorded. */
    ghost predicate Sound()
      reads this, Repr
    {
      && Within(this, ownerNodes, nodes, Repr) && Apart(this, ownerNodes, nodes)
      && addr2Group in ownerNodes && Rooted(addr2Group, ownerTree, ownerNodes) && AllRooted(group2Addr, shapes, nodes)
    }

    ghost predicate Valid()
      reads this, Repr
    {
      Sound() && owner == OwnerOf(ownerTree) && Inverse(owner, shapes)
    }

    constructor ()
      ensures Valid() && fresh(Repr) && owner == imap[] && group2Addr == map[]
    {
      addr2Group := new SegmentTree.NewTree(0);
      group2Addr, owner, shapes, nodes := map[], imap[], map[], map[];
      new;
      ownerTree, ownerNodes := addr2Group.tree, addr2Group.Repr;
      Repr := {this} + ownerNodes;
    }

    // ------------------------------------------------------------ looking up

    /** The group an address is looked up in. The address past the last has no
        group of its own. */
    method Lookup(x: uint64) returns (g: Option<int>)
      requires Valid()
      ensures var y := if x == MAX_RANGE then x - 1 else x;
              g == if y in owner then Some(owner[y]) else None
    {
      if x == MAX_RANGE { LookPast(addr2Group.tree, 0, MAX_RANGE, x); }
      g := addr2Group.Get(x);
    }

    /** The runs of equal group that make up [l, r). There is no such list for an
        empty range: its first element would be written to. */
    method CollectClipped(l: uint64, r: uint64) returns (runs: seq<Segment<int>>)
      requires Valid() && l < r
      ensures Encodes(runs, MapOf(addr2Group.tree, 0, MAX_RANGE))
      ensures |runs| > 0 && runs[0].left == l && runs[|runs| - 1].right == r
    {
      ghost var f := MapOf(addr2Group.tree, 0, MAX_RANGE);
      runs := addr2Group.Collect(l, r);
      ClipEncodes(runs, f, l, r);
      runs := runs[0 := runs[0].(left := l)];
      runs := runs[|runs| - 1 := runs[|runs| - 1].(right := r)];
    }

    /** The groups that own part of [l, r), and the parts that have no group. */
    method Survey(l: uint64, r: uint64) returns (groups: set<int>, gaps: seq<(uint64, uint64)>)
      requires Valid() && l < r
      ensures Surveyed(owner, l, r, groups, gaps)
    {
      hide Surveyed;
      var runs := CollectClipped(l, r);
      groups, gaps := {}, [];
      ghost var f := MapOf(addr2Group.tree, 0, MAX_RANGE);
      assert Tells(f, owner);
      ghost var done := l;
      NoneSurveyed(owner, l);
      var n := 0;
      while n < |runs|
        invariant 0 <= n <= |runs|
        invariant done == if n == 0 then l else runs[n - 1].right
        invariant Surveyed(owner, l, done, groups, gaps)
      {
        var run := runs[n];
        ClippedRun(runs, f, l, r, n);
        SurveyRun(owner, f, l, run, groups, gaps);
        if run.typ == EmptySegment {
          gaps := gaps + [(run.left, run.right)];
        } else {
          groups := groups + {run.value};
        }
        done := run.right;
        n := n + 1;
      }
    }

    // -------------------------------------------------------------- changing

    /** A new group without addresses. */
    method Create(g: int)
      requires Valid() && g !in group2Addr
      modifies this
      ensures Valid() && fresh(Repr - old(Repr)) && owner == old(owner)
      ensures group2Addr.Keys == old(group2Addr.Keys) + {g}
    {
      hide Inverse, Covers, OwnerOf, Rooted, Apart, AllRooted, NodesOf;
      var t, ns := NewRooted();
      OneMoreRooted(group2Addr, shapes, nodes, g, t, Empty(0), ns);
      StillApart(this, ownerNodes, nodes, Repr, g, ns, ownerNodes);
      CreateInverse(owner, shapes, g, Empty(0));
      group2Addr, shapes, nodes := group2Addr[g := t], shapes[g := Empty(0)], nodes[g := ns];
      Repr := Repr + ns + ownerNodes;
    }

    method SetGroupTree(g: int, l: uint64, r: uint64)
      requires Sound() && g in group2Addr
      modifies Repr
      ensures Sound() && fresh(Repr - old(Repr))
      ensures group2Addr == old(group2Addr) && owner == old(owner) && ownerTree == old(ownerTree)
      ensures g in old(shapes) && Fits(old(shapes)[g], 0, MAX_RANGE)
      ensures shapes == old(shapes)[g := SetTree(old(shapes)[g], 0, MAX_RANGE, l, r, 1)]
    {
      hide Rooted, Apart, AllRooted, NodesOf, SetTree;
      GroupRooted(g);
      ApartFrom(this, ownerNodes, nodes, g);
      ghost var shape, ns := SetGroup(group2Addr, shapes, nodes, g, l, r);
      StillApart(this, ownerNodes, nodes, Repr, g, ns, ownerNodes);
      shapes, nodes := shapes[g := shape], nodes[g := ns];
      Repr := Repr + ns + ownerNodes;
    }

    method SetOwnerTree(l: uint64, r: uint64, g: int, ghost owner': imap<uint64, int>)
      requires Sound() && g in group2Addr
      modifies Repr
      ensures Sound() && fresh(Repr - old(Repr))
      ensures group2Addr == old(group2Addr) && owner == owner' && shapes == old(shapes)
      ensures Fits(old(ownerTree), 0, MAX_RANGE) && ownerTree == SetTree(old(ownerTree), 0, MAX_RANGE, l, r, g)
    {
      hide Rooted, Apart, AllRooted, NodesOf, SetTree;
      GroupRooted(g);
      ApartFrom(this, ownerNodes, nodes, g);
      ghost var shape, ns := SetRooted(addr2Group, ownerTree, ownerNodes, l, r, g);
      SameNodes(g);
      StillApart(this, ownerNodes, nodes, Repr, g, nodes[g], ns);
      ownerTree, ownerNodes, owner := shape, ns, owner';
      Repr := Repr + nodes[g] + ns;
    }

    lemma {:induction false} SameNodes(g: int)
      requires g in nodes
      ensures nodes[g := nodes[g]] == nodes
    {
    }

    lemma {:induction false} GroupRooted(g: int)
      requires Sound() && g in group2Addr
      ensures g in nodes && g in shapes && nodes[g] <= Repr && Fits(shapes[g], 0, MAX_RANGE)
              && Fits(ownerTree, 0, MAX_RANGE)
    {
    }

    /** Give [l, r) to group g; none of it belongs to another group. */
    method Claim(l: uint64, r: uint64, g: int)
      requires Valid() && g in group2Addr && l < r
      requires forall x :: l <= x < r && x in owner ==> owner[x] == g
      modifies Repr
      ensures Valid() && fresh(Repr - old(Repr)) && group2Addr == old(group2Addr)
      ensures owner == Claimed(old(owner), l, r, g)
    {
      hide Claimed, Inverse, Covers, OwnerOf, Sound, SetTree;
      ghost var was, owned := shapes, ownerTree;
      GroupRooted(g);
      ClaimInverse(owner, was, l, r, g);
      ClaimOwner(owned, l, r, g);
      SetGroupTree(g, l, r);
      SetOwnerTree(l, r, g, Claimed(owner, l, r, g));
    }

    /** The trees of the given groups. */
    method ListTrees(groups: set<int>)
      returns (trees: seq<SegmentTree<int>>, ghost list: seq<Tree<int>>, ghost ids: seq<int>)
      requires Sound() && groups <= group2Addr.Keys
      ensures Listing(list, ids, shapes, groups) && Shaped(trees, list, 0, MAX_RANGE) && AllApart(trees, addr2Group)
    {
      trees, list, ids := [], [], [];
      var rest := groups;
      while rest != {}
        invariant rest <= groups && Listing(list, ids, shapes, groups - rest)
        invariant Shaped(trees, list, 0, MAX_RANGE) && AllApart(trees, addr2Group)
        decreases |rest|
      {
        trees, list, ids, rest := ListTree(groups, trees, list, ids, rest);
      }
      assert groups - rest == groups;
    }

    method ListTree(groups: set<int>, trees: seq<SegmentTree<int>>, ghost list: seq<Tree<int>>, ghost ids: seq<int>,
                    rest: set<int>)
      returns (trees': seq<SegmentTree<int>>, ghost list': seq<Tree<int>>, ghost ids': seq<int>, rest': set<int>)
      requires Sound() && groups <= group2Addr.Keys && rest != {} && rest <= groups
      requires Listing(list, ids, shapes, groups - rest) && Shaped(trees, list, 0, MAX_RANGE)
               && AllApart(trees, addr2Group)
      ensures rest' < rest && |rest'| < |rest| && Listing(list', ids', shapes, groups - rest')
      ensures Shaped(trees', list', 0, MAX_RANGE) && AllApart(trees', addr2Group)
    {
      hide Listing, Shaped, AllApart;
      var g := LeastOf(rest);
      ListMore(list, ids, shapes, groups - rest, g);
      OneMoreShaped(trees, list, g);
      trees', list', ids', rest' := trees + [group2Addr[g]], list + [shapes[g]], ids + [g], rest - {g};
      assert (groups - rest) + {g} == groups - rest';
      assert rest == rest' + {g};
    }

    lemma {:induction false} OneMoreShaped(trees: seq<SegmentTree<int>>, list: seq<Tree<int>>, g: int)
      requires Sound() && g in group2Addr && Shaped(trees, list, 0, MAX_RANGE) && AllApart(trees, addr2Group)
      ensures g in shapes
      ensures Shaped(trees + [group2Addr[g]], list + [shapes[g]], 0, MAX_RANGE)
      ensures AllApart(trees + [group2Addr[g]], addr2Group)
    {
      GroupRooted(g);
      ApartFrom(this, ownerNodes, nodes, g);
      assert Rooted(group2Addr[g], shapes[g], nodes[g]);
    }

    /** Merge several groups into the first of them; the others are deleted. */
    method Absorb(groups: set<int>, m: int)
      requires Valid() && groups <= group2Addr.Keys && m in groups
      modifies Repr
      ensures Valid() && fresh(Repr - old(Repr))
      ensures group2Addr.Keys == old(group2Addr).Keys - groups + {m}
      ensures owner == MovedOwner(old(owner), groups, m)
    {
      hide Sound, Inverse, OwnerOf, MovedOwner, Listing, Shaped, AllApart, Union, Labels;
      var trees, list, ids := ListTrees(groups);
      GroupRooted(m);
      AbsorbInverse(owner, shapes, groups, m, list, ids);
      ghost var owned, was := ownerTree, shapes;
      ghost var t := Replace(trees, list, groups, m, MovedOwner(owner, groups, m));
      AbsorbOwner(owned, ownerTree, was, groups, m, list, ids);
    }

    /** Put the merged tree in place of those it was made from. */
    method Replace(trees: seq<SegmentTree<int>>, ghost list: seq<Tree<int>>, groups: set<int>, m: int,
                   ghost owner': imap<uint64, int>)
      returns (ghost shape: Tree<int>)
      requires Sound() && groups <= group2Addr.Keys && m in groups
      requires Shaped(trees, list, 0, MAX_RANGE) && AllApart(trees, addr2Group) && FitAll(list, 0, MAX_RANGE)
      modifies Repr
      ensures Sound() && fresh(Repr - old(Repr)) && owner == owner'
      ensures group2Addr.Keys == old(group2Addr).Keys - groups + {m}
      ensures Fits(shape, 0, MAX_RANGE) && Union(shape, list, 0, MAX_RANGE)
              && shapes == (old(shapes) - groups)[m := shape]
      ensures Fits(old(ownerTree), 0, MAX_RANGE) && Fits(ownerTree, 0, MAX_RANGE)
      ensures Labels(ownerTree, old(ownerTree), list, 0, MAX_RANGE, m)
    {
      hide Apart, AllRooted, NodesOf, Union, Labels, Shaped, AllApart, Rooted, Within;
      ghost var before := Repr;
      var t, tree, ns := Relabel(trees, list, m, owner');
      shape := tree;
      FewerApart(this, ownerNodes, nodes, groups, Repr);
      StillApart(this, ownerNodes, nodes - groups, Repr, m, ns, ownerNodes);
      FewerRooted(group2Addr, shapes, nodes, groups);
      OneMoreRooted(group2Addr - groups, shapes - groups, nodes - groups, m, t, shape, ns);
      group2Addr, shapes, nodes := (group2Addr - groups)[m := t], (shapes - groups)[m := shape],
            (nodes - groups)[m := ns];
      Repr := Repr + ns + ownerNodes;
    }

    /** Build the merged tree, and relabel its addresses. */
    method Relabel(trees: seq<SegmentTree<int>>, ghost list: seq<Tree<int>>, m: int, ghost owner': imap<uint64, int>)
      returns (t: SegmentTree<int>, ghost shape: Tree<int>, ghost ns: set<object>)
      requires Sound() && m in group2Addr
      requires Shaped(trees, list, 0, MAX_RANGE) && AllApart(trees, addr2Group) && FitAll(list, 0, MAX_RANGE)
      modifies Repr
      ensures Sound() && fresh(Repr - old(Repr)) && owner == owner'
      ensures group2Addr == old(group2Addr) && shapes == old(shapes) && nodes == old(nodes)
      ensures t in ns && Rooted(t, shape, ns) && fresh(ns) && ns !! Repr
      ensures Fits(shape, 0, MAX_RANGE) && Union(shape, list, 0, MAX_RANGE)
      ensures Fits(old(ownerTree), 0, MAX_RANGE) && Fits(ownerTree, 0, MAX_RANGE)
      ensures Labels(ownerTree, old(ownerTree), list, 0, MAX_RANGE, m)
    {
      hide Apart, AllRooted, NodesOf, Union, Labels, Shaped, AllApart;
      GroupRooted(m);
      ApartFrom(this, ownerNodes, nodes, m);
      t := MergeTrees(trees, list, 0, MAX_RANGE, m, addr2Group);
      shape, ns := t.tree, t.Repr;
      SameNodes(m);
      StillApart(this, ownerNodes, nodes, Repr, m, nodes[m], addr2Group.Repr);
      ownerTree, ownerNodes, owner := addr2Group.tree, addr2Group.Repr, owner';
      Repr := Repr + nodes[m] + ownerNodes;
    }
  }

  ghost function Claimed(owner: imap<uint64, int>, l: uint64, r: uint64, g: int): imap<uint64, int> {
    imap x | x in owner || l <= x < r :: if l <= x < r then g else owner[x]
  }

  /** The shapes of the given groups, in some order. */
  ghost predicate Listing(list: seq<Tree<int>>, ids: seq<int>, shapes: map<int, Tree<int>>, groups: set<int>) {
    && groups <= shapes.Keys && |ids| == |list|
    && (forall i :: 0 <= i < |list| ==> ids[i] in groups && list[i] == shapes[ids[i]])
    && (forall g :: g in groups ==> g in ids)
  }

  lemma {:induction false} ListMore(list: seq<Tree<int>>, ids: seq<int>, shapes: map<int, Tree<int>>, groups: set<int>,
                                    g: int)
    requires Listing(list, ids, shapes, groups) && g in shapes
    ensures Listing(list + [shapes[g]], ids + [g], shapes, groups + {g})
  {
  }

  ghost function MovedOwner(owner: imap<uint64, int>, groups: set<int>, m: int): imap<uint64, int> {
    imap x | x in owner :: Moved(groups, m, owner[x])
  }

  /** What the listed trees cover belongs to their groups. */
  lemma {:induction false} ListingCovers(owner: imap<uint64, int>, shapes: map<int, Tree<int>>, groups: set<int>,
                                         list: seq<Tree<int>>, ids: seq<int>)
    requires Inverse(owner, shapes) && Listing(list, ids, shapes, groups)
    ensures FitAll(list, 0, MAX_RANGE)
    ensures forall x :: x < MAX_RANGE ==> (AnyCovers(list, 0, MAX_RANGE, x) <==> x in owner && owner[x] in groups)
  {
    forall i | 0 <= i < |list| ensures Fits(list[i], 0, MAX_RANGE) {
      var g := ids[i];
      assert g in shapes;
    }
    forall x | x < MAX_RANGE ensures AnyCovers(list, 0, MAX_RANGE, x) <==> x in owner && owner[x] in groups {
      if i :| 0 <= i < |list| && Look(list[i], 0, MAX_RANGE, x).Some? {
        var g := ids[i];
        assert g in shapes && Covers(shapes[g], x);
      }
      if x in owner && owner[x] in groups {
        InverseAt(owner, shapes, x);
        var i :| 0 <= i < |ids| && ids[i] == owner[x];
        assert Look(list[i], 0, MAX_RANGE, x).Some?;
      }
    }
  }

  lemma {:induction false} InverseAt(owner: imap<uint64, int>, shapes: map<int, Tree<int>>, x: uint64)
    requires Inverse(owner, shapes) && x in owner
    ensures owner[x] in shapes && Fits(shapes[owner[x]], 0, MAX_RANGE) && Covers(shapes[owner[x]], x)
  {
    var g := owner[x];
    assert g in shapes;
    assert Covers(shapes[g], x) <==> x in owner && owner[x] == g;
  }

  lemma {:induction false} AbsorbInverse(owner: imap<uint64, int>, shapes: map<int, Tree<int>>, groups: set<int>,
                                         m: int, list: seq<Tree<int>>, ids: seq<int>)
    requires Inverse(owner, shapes) && Listing(list, ids, shapes, groups) && m in groups
    ensures FitAll(list, 0, MAX_RANGE)
    ensures forall t :: Fits(t, 0, MAX_RANGE) && Union(t, list, 0, MAX_RANGE) ==>
              Inverse(MovedOwner(owner, groups, m), (shapes - groups)[m := t])
  {
    ListingCovers(owner, shapes, groups, list, ids);
    forall t | Fits(t, 0, MAX_RANGE) && Union(t, list, 0, MAX_RANGE)
      ensures Inverse(MovedOwner(owner, groups, m), (shapes - groups)[m := t])
    {
      forall x ensures Covers(t, x) <==> x in owner && owner[x] in groups {
        if x in owner { assert Covers(shapes[owner[x]], x); }
      }
      MovedInverse(owner, shapes, groups, m, t);
    }
  }

  lemma {:induction false} MovedInverse(owner: imap<uint64, int>, shapes: map<int, Tree<int>>, groups: set<int>,
                                        m: int, t: Tree<int>)
    requires Inverse(owner, shapes) && m in groups && Fits(t, 0, MAX_RANGE)
    requires forall x :: Covers(t, x) <==> x in owner && owner[x] in groups
    ensures Inverse(MovedOwner(owner, groups, m), (shapes - groups)[m := t])
  {
    hide Covers;
    var owner', shapes' := MovedOwner(owner, groups, m), (shapes - groups)[m := t];
    forall h, x | h in shapes' ensures Covers(shapes'[h], x) <==> x in owner' && owner'[x] == h {
      if h != m { assert Covers(shapes[h], x) <==> x in owner && owner[x] == h; }
    }
    forall x | x in owner' ensures owner'[x] in shapes' { }
  }

  lemma {:induction false} AbsorbOwner(before: Tree<int>, after: Tree<int>, shapes: map<int, Tree<int>>,
                                       groups: set<int>, m: int, list: seq<Tree<int>>, ids: seq<int>)
    requires Fits(before, 0, MAX_RANGE) && Fits(after, 0, MAX_RANGE)
    requires Inverse(OwnerOf(before), shapes) && Listing(list, ids, shapes, groups)
    requires FitAll(list, 0, MAX_RANGE) && Labels(after, before, list, 0, MAX_RANGE, m)
    ensures OwnerOf(after) == MovedOwner(OwnerOf(before), groups, m)
  {
    ListingCovers(OwnerOf(before), shapes, groups, list, ids);
  }

  lemma {:induction false} FewerApart(index: object, ownerNodes: set<object>, nodes: map<int, set<object>>,
                                      groups: set<int>, all: set<object>)
    requires Apart(index, ownerNodes, nodes) && Within(index, ownerNodes, nodes, all)
    ensures Apart(index, ownerNodes, nodes - groups) && Within(index, ownerNodes, nodes - groups, all)
  {
  }

  lemma {:induction false} FewerRooted(groups: map<int, SegmentTree<int>>, shapes: map<int, Tree<int>>,
                                       nodes: map<int, set<object>>, dropped: set<int>)
    requires AllRooted(groups, shapes, nodes)
    ensures AllRooted(groups - dropped, shapes - dropped, nodes - dropped)
  {
    hide Rooted;
    assert (groups - dropped).Keys == (shapes - dropped).Keys == (nodes - dropped).Keys;
  }

  lemma {:induction false} CreateInverse(owner: imap<uint64, int>, shapes: map<int, Tree<int>>, g: int, t: Tree<int>)
    requires Inverse(owner, shapes) && g !in shapes && t == Empty(0)
    ensures Inverse(owner, shapes[g := t])
  {
  }

  lemma {:induction false} ClaimInverse(owner: imap<uint64, int>, shapes: map<int, Tree<int>>, l: uint64, r: uint64,
                                        g: int)
    requires Inverse(owner, shapes) && g in shapes && l < r
    requires forall x :: l <= x < r && x in owner ==> owner[x] == g
    ensures Inverse(Claimed(owner, l, r, g), shapes[g := SetTree(shapes[g], 0, MAX_RANGE, l, r, 1)])
  {
    hide SetTree, Inverse, Claimed;
    InverseFits(owner, shapes, g);
    SetTreeUpdates(shapes[g], 0, MAX_RANGE, l, r, 1);
    var t := SetTree(shapes[g], 0, MAX_RANGE, l, r, 1);
    forall x ensures Covers(t, x) <==> l <= x < r || Covers(shapes[g], x) { }
    WiderInverse(owner, shapes, l, r, g, t);
  }

  lemma {:induction false} InverseFits(owner: imap<uint64, int>, shapes: map<int, Tree<int>>, g: int)
    requires Inverse(owner, shapes) && g in shapes
    ensures Fits(shapes[g], 0, MAX_RANGE)
  {
  }

  lemma {:induction false} WiderInverse(owner: imap<uint64, int>, shapes: map<int, Tree<int>>, l: uint64, r: uint64,
                                        g: int, t: Tree<int>)
    requires Inverse(owner, shapes) && g in shapes && Fits(t, 0, MAX_RANGE)
    requires forall x :: l <= x < r && x in owner ==> owner[x] == g
    requires forall x :: Covers(t, x) <==> l <= x < r || Covers(shapes[g], x)
    ensures Inverse(Claimed(owner, l, r, g), shapes[g := t])
  {
    hide Covers;
    var owner', shapes' := Claimed(owner, l, r, g), shapes[g := t];
    forall h, x | h in shapes' ensures Covers(shapes'[h], x) <==> x in owner' && owner'[x] == h {
      assert Covers(shapes[h], x) <==> x in owner && owner[x] == h;
    }
  }

  lemma {:induction false} ClaimOwner(before: Tree<int>, l: uint64, r: uint64, g: int)
    requires Fits(before, 0, MAX_RANGE) && l < r
    ensures var after := SetTree(before, 0, MAX_RANGE, l, r, g);
            Fits(after, 0, MAX_RANGE) && OwnerOf(after) == Claimed(OwnerOf(before), l, r, g)
  {
    SetTreeUpdates(before, 0, MAX_RANGE, l, r, g);
  }

  ghost predicate InGaps(gaps: seq<(uint64, uint64)>, x: uint64) {
    exists k :: 0 <= k < |gaps| && gaps[k].0 <= x < gaps[k].1
  }

  /** What is known of [l, done): its groups, and where it has none. */
  ghost predicate Surveyed(owner: imap<uint64, int>, l: uint64, done: uint64, groups: set<int>,
                           gaps: seq<(uint64, uint64)>) {
    && (forall g :: g in groups <==> exists x :: l <= x < done && x in owner && owner[x] == g)
    && (forall k :: 0 <= k < |gaps| ==> l <= gaps[k].0 < gaps[k].1 <= done)
    && (forall x :: l <= x < done ==> (x !in owner <==> InGaps(gaps, x)))
  }

  ghost predicate Tells(f: uint64 -> Option<int>, owner: imap<uint64, int>) {
    forall x :: x < MAX_RANGE ==> f(x) == if x in owner then Some(owner[x]) else None
  }

  lemma {:induction false} NoneSurveyed(owner: imap<uint64, int>, l: uint64)
    ensures Surveyed(owner, l, l, {}, [])
  {
  }

  lemma {:induction false} SurveyRun(owner: imap<uint64, int>, f: uint64 -> Option<int>, l: uint64, run: Segment<int>,
                                     groups: set<int>, gaps: seq<(uint64, uint64)>)
    requires Tells(f, owner) && Surveyed(owner, l, run.left, groups, gaps) && l <= run.left < run.right
    requires forall x :: run.left <= x < run.right ==>
               if run.typ == EmptySegment then f(x) == None else f(x) == Some(run.value)
    ensures if run.typ == EmptySegment then Surveyed(owner, l, run.right, groups, gaps + [(run.left, run.right)])
            else Surveyed(owner, l, run.right, groups + {run.value}, gaps)
  {
    if run.typ == EmptySegment {
      var gaps' := gaps + [(run.left, run.right)];
      forall x | l <= x < run.right ensures x !in owner <==> InGaps(gaps', x) {
        MoreGaps(gaps, (run.left, run.right), x);
        if x >= run.left { assert f(x) == None && x !in owner; }
      }
      forall g ensures g in groups <==> exists x :: l <= x < run.right && x in owner && owner[x] == g {
        if x :| l <= x < run.right && x in owner && owner[x] == g { assert x < run.left || f(x) == None; }
      }
    } else {
      assert f(run.left) == Some(run.value);
      forall g ensures g in groups + {run.value} <==> exists x :: l <= x < run.right && x in owner && owner[x] == g {
        if x :| l <= x < run.right && x in owner && owner[x] == g { assert x < run.left || f(x) == Some(run.value); }
        if g == run.value { assert run.left in owner && owner[run.left] == g; }
      }
      forall x | l <= x < run.right ensures x !in owner <==> InGaps(gaps, x) {
        if x >= run.left { assert f(x) == Some(run.value); }
      }
    }
  }

  lemma {:induction false} MoreGaps(gaps: seq<(uint64, uint64)>, gap: (uint64, uint64), x: uint64)
    ensures InGaps(gaps + [gap], x) <==> InGaps(gaps, x) || gap.0 <= x < gap.1
  {
    var all := gaps + [gap];
    if k :| 0 <= k < |gaps| && gaps[k].0 <= x < gaps[k].1 { assert all[k] == gaps[k]; }
    assert all[|gaps|] == gap;
  }

  /** Where a clipped run starts and ends, and what it says. */
  lemma {:induction false} ClippedRun(runs: seq<Segment<int>>, f: uint64 -> Option<int>, l: uint64, r: uint64, n: nat)
    requires Encodes(runs, f) && |runs| > 0 && runs[0].left == l && runs[|runs| - 1].right == r && n < |runs|
    ensures runs[n].left == (if n == 0 then l else runs[n - 1].right) && l <= runs[n].left < runs[n].right <= r
    ensures forall x :: runs[n].left <= x < runs[n].right ==>
              if runs[n].typ == EmptySegment then f(x) == None else f(x) == Some(runs[n].value)
  {
    if n > 0 { assert Joined(runs, n - 1); RunsAscend(runs, f, 0, n); }
    if n < |runs| - 1 { RunsAscend(runs, f, n, |runs| - 1); }
    forall x | runs[n].left <= x < runs[n].right
      ensures if runs[n].typ == EmptySegment then f(x) == None else f(x) == Some(runs[n].value)
    {
      assert Says(runs[n], f(x));
    }
  }

  /** Cutting the first and last run to size. */
  lemma {:induction false} ClipEncodes<T>(runs: seq<Segment<T>>, f: uint64 -> Option<T>, l: uint64, r: uint64)
    requires l < r && Encodes(runs, f) && Spans(runs, l, r)
    ensures var runs1 := runs[0 := runs[0].(left := l)];
            Encodes(runs1[|runs1| - 1 := runs1[|runs1| - 1].(right := r)], f)
  {
    var runs1 := runs[0 := runs[0].(left := l)];
    var out := runs1[|runs1| - 1 := runs1[|runs1| - 1].(right := r)];
    forall k: nat | k + 1 < |out| ensures Joined(out, k) { assert Joined(runs, k); }
    forall k, x | 0 <= k < |out| && out[k].left <= x < out[k].right ensures Says(out[k], f(x)) {
      assert Says(runs[k], f(x));
    }
    forall k | 0 <= k < |out| ensures out[k].left < out[k].right { }
  }

  /** Looking up past the end finds the last address. */
  lemma {:induction false} LookPast(t: Tree<int>, left: uint64, right: uint64, x: uint64)
    requires Fits(t, left, right) && x >= right
    ensures Look(t, left, right, x) == Look(t, left, right, right - 1)
  {
    if t.Partial? { LookPast(t.rc, Mid(left, right), right, x); }
  }
}
