/** The range-assignment tree of include/SegmentTree.hpp.

    `Tree` is the shape of such a tree as a value: the lemmas about it say what
    the operations mean. `SegmentTree` is the mutable tree itself, rewritten in
    place; its ghost field `tree` is the shape it currently has. */
module SegmentTrees {
  import opened Common

  datatype SegmentType = EmptySegment | PartialSegment | CoveredSegment

  datatype Segment<T> = Segment(typ: SegmentType, value: T, left: uint64, right: uint64)

  /** The midpoint of [l, r), computed without leaving 64 bits. */
  function Mid(l: uint64, r: uint64): (m: uint64)
    requires l < r
    ensures m as int == (l as int + r as int) / 2
  {
    var m := l / 2 + r / 2;
    if l % 2 == 1 && r % 2 == 1 then m + 1 else m
  }

  // ------------------------------------------------------------ tree shapes

  datatype Tree<T> = Empty(value: T) | Covered(value: T) | Partial(lc: Tree<T>, rc: Tree<T>)

  /** Only a range of two or more addresses is ever split. */
  ghost predicate Fits<T>(t: Tree<T>, left: uint64, right: uint64) {
    left < right &&
    (t.Partial? ==>
       var mid := Mid(left, right);
       left < mid && Fits(t.lc, left, mid) && Fits(t.rc, mid, right))
  }

  /** The value stored for address x, if it has one. */
  ghost function Look<T>(t: Tree<T>, left: uint64, right: uint64, x: uint64): Option<T>
    requires Fits(t, left, right)
  {
    match t
    case Empty(_) => None
    case Covered(v) => Some(v)
    case Partial(lc, rc) =>
      var mid := Mid(left, right);
      if x < mid then Look(lc, left, mid, x) else Look(rc, mid, right, x)
  }

  /** Both halves say the same, so the node should have been one leaf. */
  ghost predicate Mergeable<T>(a: Tree<T>, b: Tree<T>) {
    (a.Covered? && b.Covered? && a.value == b.value) || (a.Empty? && b.Empty?)
  }

  ghost function Coalesce<T>(a: Tree<T>, b: Tree<T>): Tree<T> {
    if Mergeable(a, b) then a else Partial(a, b)
  }

  ghost function SetTree<T>(t: Tree<T>, left: uint64, right: uint64, l: uint64, r: uint64, v: T): Tree<T>
    requires Fits(t, left, right)
    requires l < r ==> left <= l && r <= right
    decreases t, right as int - left as int
  {
    if l >= r || t == Covered(v) then t
    else if l <= left && r >= right then Covered(v)
    else
      var mid := Mid(left, right);
      assert left < mid;
      var lc := if t.Partial? then t.lc else t;
      var rc := if t.Partial? then t.rc else t;
      Coalesce(if l < mid then SetTree(lc, left, mid, l, Min(r, mid), v) else lc,
               if r > mid then SetTree(rc, mid, right, Max(l, mid), r, v) else rc)
  }

  /** Set is map update on [l, r), and keeps the tree well-formed: in particular
      a range of width one is never split. */
  lemma {:induction false} SetTreeUpdates<T>(t: Tree<T>, left: uint64, right: uint64, l: uint64, r: uint64, v: T)
    requires Fits(t, left, right)
    requires l < r ==> left <= l && r <= right
    ensures Fits(SetTree(t, left, right, l, r, v), left, right)
    ensures forall x :: left <= x < right ==>
              Look(SetTree(t, left, right, l, r, v), left, right, x)
              == if l <= x < r then Some(v) else Look(t, left, right, x)
    decreases t, right as int - left as int
  {
    if l >= r || t == Covered(v) {
    } else if l <= left && r >= right {
    } else {
      var mid := Mid(left, right);
      var lc := if t.Partial? then t.lc else t;
      var rc := if t.Partial? then t.rc else t;
      if l < mid { SetTreeUpdates(lc, left, mid, l, Min(r, mid), v); }
      if r > mid { SetTreeUpdates(rc, mid, right, Max(l, mid), r, v); }
      var lc' := if l < mid then SetTree(lc, left, mid, l, Min(r, mid), v) else lc;
      var rc' := if r > mid then SetTree(rc, mid, right, Max(l, mid), r, v) else rc;
      assert SetTree(t, left, right, l, r, v) == Coalesce(lc', rc');
      forall x | left <= x < right
        ensures Look(Coalesce(lc', rc'), left, right, x)
                == if l <= x < r then Some(v) else Look(t, left, right, x)
      {
        CoalesceKeeps(lc', rc', left, right, x);
        if x < mid {
          assert Look(t, left, right, x) == Look(lc, left, mid, x);
        } else {
          assert Look(t, left, right, x) == Look(rc, mid, right, x);
        }
      }
    }
  }

  lemma {:induction false} CoalesceKeeps<T>(a: Tree<T>, b: Tree<T>, left: uint64, right: uint64, x: uint64)
    requires left < right && left < Mid(left, right)
    requires Fits(a, left, Mid(left, right)) && Fits(b, Mid(left, right), right)
    ensures Fits(Coalesce(a, b), left, right)
    ensures Look(Coalesce(a, b), left, right, x)
            == if x < Mid(left, right) then Look(a, left, Mid(left, right), x)
               else Look(b, Mid(left, right), right, x)
  {
  }

  // ------------------------------------------------------------ allocation

  /** How many nodes Set allocates. */
  ghost function MadeBy<T>(t: Tree<T>, left: uint64, right: uint64, l: uint64, r: uint64, v: T): nat
    requires Fits(t, left, right)
    requires l < r ==> left <= l && r <= right
    decreases t, right as int - left as int
  {
    if l >= r || t == Covered(v) || (l <= left && r >= right) then 0
    else
      var mid := Mid(left, right);
      var lc := if t.Partial? then t.lc else t;
      var rc := if t.Partial? then t.rc else t;
      (if t.Partial? then 0 else 2)
      + (if l < mid then MadeBy(lc, left, mid, l, Min(r, mid), v) else 0)
      + (if r > mid then MadeBy(rc, mid, right, Max(l, mid), r, v) else 0)
  }

  /** How many of them lie d levels below the root. */
  ghost function MadeAt<T>(t: Tree<T>, left: uint64, right: uint64, l: uint64, r: uint64, v: T, d: nat): nat
    requires Fits(t, left, right)
    requires l < r ==> left <= l && r <= right
    decreases t, right as int - left as int
  {
    if l >= r || t == Covered(v) || (l <= left && r >= right) || d == 0 then 0
    else if d == 1 then if t.Partial? then 0 else 2
    else
      var mid := Mid(left, right);
      var lc := if t.Partial? then t.lc else t;
      var rc := if t.Partial? then t.rc else t;
      (if l < mid then MadeAt(lc, left, mid, l, Min(r, mid), v, d - 1) else 0)
      + (if r > mid then MadeAt(rc, mid, right, Max(l, mid), r, v, d - 1) else 0)
  }

  ghost function Pow2(k: nat): (n: nat)
    ensures n >= 1
  {
    if k == 0 then 1 else 2 * Pow2(k - 1)
  }

  /** Set allocates at most four nodes on a level, and none below level k if the
      range has at most 2^k addresses. Nodes are split only where an end of [l, r)
      lies inside, so at most two on a level. */
  lemma {:induction false} FourOnALevel<T>(t: Tree<T>, left: uint64, right: uint64, l: uint64, r: uint64, v: T, d: nat,
                                           k: nat)
    requires Fits(t, left, right)
    requires l < r ==> left <= l && r <= right
    requires right as int - left as int <= Pow2(k)
    ensures MadeAt(t, left, right, l, r, v, d) <= 4
    ensures l <= left || r >= right ==> MadeAt(t, left, right, l, r, v, d) <= 2
    ensures d > k ==> MadeAt(t, left, right, l, r, v, d) == 0
    decreases t, right as int - left as int
  {
    if l >= r || t == Covered(v) || (l <= left && r >= right) || d <= 1 {
    } else {
      var mid := Mid(left, right);
      var lc := if t.Partial? then t.lc else t;
      var rc := if t.Partial? then t.rc else t;
      assert k > 0;
      if l < mid { FourOnALevel(lc, left, mid, l, Min(r, mid), v, d - 1, k - 1); }
      if r > mid { FourOnALevel(rc, mid, right, Max(l, mid), r, v, d - 1, k - 1); }
    }
  }

  /** In all, at most four for each of k levels. */
  lemma {:induction false} FourPerLevel<T>(t: Tree<T>, left: uint64, right: uint64, l: uint64, r: uint64, v: T, k: nat)
    requires Fits(t, left, right)
    requires l < r ==> left <= l && r <= right
    requires right as int - left as int <= Pow2(k)
    ensures MadeBy(t, left, right, l, r, v) <= 4 * k
    ensures l <= left || r >= right ==> MadeBy(t, left, right, l, r, v) <= 2 * k
    decreases t, right as int - left as int
  {
    if l >= r || t == Covered(v) || (l <= left && r >= right) {
    } else {
      var mid := Mid(left, right);
      var lc := if t.Partial? then t.lc else t;
      var rc := if t.Partial? then t.rc else t;
      assert k > 0;
      if l < mid { FourPerLevel(lc, left, mid, l, Min(r, mid), v, k - 1); }
      if r > mid { FourPerLevel(rc, mid, right, Max(l, mid), r, v, k - 1); }
    }
  }

  lemma {:induction false} Pow2Add(j: nat, k: nat)
    ensures Pow2(j + k) == Pow2(j) * Pow2(k)
  {
    if j > 0 { Pow2Add(j - 1, k); }
  }

  lemma {:induction false} Pow64()
    ensures Pow2(64) == 0x1_0000_0000_0000_0000
  {
    assert Pow2(8) == 0x100 by { assert Pow2(4) == 16; Pow2Add(4, 4); }
    Pow2Add(8, 8);
    Pow2Add(16, 16);
    Pow2Add(32, 32);
  }

  /** A tree over the whole address space grows by at most 256 nodes at a time. */
  lemma {:induction false} SetAllocates<T>(t: Tree<T>, l: uint64, r: uint64, v: T, d: nat)
    requires Fits(t, 0, MAX_RANGE) && (l < r ==> r <= MAX_RANGE)
    ensures MadeBy(t, 0, MAX_RANGE, l, r, v) <= 4 * 64
    ensures MadeAt(t, 0, MAX_RANGE, l, r, v, d) <= 4 && (d > 64 ==> MadeAt(t, 0, MAX_RANGE, l, r, v, d) == 0)
  {
    Pow64();
    FourPerLevel(t, 0, MAX_RANGE, l, r, v, 64);
    FourOnALevel(t, 0, MAX_RANGE, l, r, v, d, 64);
  }

  // --------------------------------------------------------- canonical form

  /** No node could be replaced by a leaf. */
  ghost predicate Canonical<T>(t: Tree<T>) {
    t.Partial? ==> !Mergeable(t.lc, t.rc) && Canonical(t.lc) && Canonical(t.rc)
  }

  lemma {:induction false} SetTreeCanonical<T>(t: Tree<T>, left: uint64, right: uint64, l: uint64, r: uint64, v: T)
    requires Fits(t, left, right) && Canonical(t)
    requires l < r ==> left <= l && r <= right
    ensures Canonical(SetTree(t, left, right, l, r, v))
    decreases t, right as int - left as int
  {
    if l < r && t != Covered(v) && !(l <= left && r >= right) {
      var mid := Mid(left, right);
      var lc := if t.Partial? then t.lc else t;
      var rc := if t.Partial? then t.rc else t;
      if l < mid { SetTreeCanonical(lc, left, mid, l, Min(r, mid), v); }
      if r > mid { SetTreeCanonical(rc, mid, right, Max(l, mid), r, v); }
    }
  }

  /** Equal up to the meaningless value an empty leaf carries. */
  ghost predicate SameShape<T>(a: Tree<T>, b: Tree<T>) {
    match a
    case Empty(_) => b.Empty?
    case Covered(v) => b == Covered(v)
    case Partial(lc, rc) => b.Partial? && SameShape(lc, b.lc) && SameShape(rc, b.rc)
  }

  ghost predicate SameMap<T>(a: Tree<T>, b: Tree<T>, left: uint64, right: uint64)
    requires Fits(a, left, right) && Fits(b, left, right)
  {
    forall x :: left <= x < right ==> Look(a, left, right, x) == Look(b, left, right, x)
  }

  /** A canonical tree that stands for a constant map is a leaf. */
  lemma {:induction false} ConstantIsLeaf<T>(t: Tree<T>, left: uint64, right: uint64, c: Option<T>)
    requires Fits(t, left, right) && Canonical(t)
    requires forall x :: left <= x < right ==> Look(t, left, right, x) == c
    ensures !t.Partial? && (t.Empty? <==> c == None) && (t.Covered? ==> c == Some(t.value))
  {
    if t.Partial? {
      var mid := Mid(left, right);
      forall x | left <= x < mid ensures Look(t.lc, left, mid, x) == c {
        assert Look(t, left, right, x) == c;
      }
      forall x | mid <= x < right ensures Look(t.rc, mid, right, x) == c {
        assert Look(t, left, right, x) == c;
      }
      ConstantIsLeaf(t.lc, left, mid, c);
      ConstantIsLeaf(t.rc, mid, right, c);
      assert false;
    } else {
      assert Look(t, left, right, left) == c;
    }
  }

  /** The shape of a tree built by Set depends on the map alone, not on the
      history of updates. */
  lemma {:induction false} CanonicalUnique<T>(a: Tree<T>, b: Tree<T>, left: uint64, right: uint64)
    requires Fits(a, left, right) && Fits(b, left, right)
    requires Canonical(a) && Canonical(b)
    requires SameMap(a, b, left, right)
    ensures SameShape(a, b)
  {
    if !a.Partial? {
      ConstantIsLeaf(b, left, right, Look(a, left, right, left));
    } else if !b.Partial? {
      ConstantIsLeaf(a, left, right, Look(b, left, right, left));
      assert false;
    } else {
      var mid := Mid(left, right);
      forall x | left <= x < mid ensures Look(a.lc, left, mid, x) == Look(b.lc, left, mid, x) {
        assert Look(a, left, right, x) == Look(b, left, right, x);
      }
      forall x | mid <= x < right ensures Look(a.rc, mid, right, x) == Look(b.rc, mid, right, x) {
        assert Look(a, left, right, x) == Look(b, left, right, x);
      }
      CanonicalUnique(a.lc, b.lc, left, mid);
      CanonicalUnique(a.rc, b.rc, mid, right);
    }
  }

  // ---------------------------------------------------------------- Collect

  function KindOf<T>(v: Option<T>): SegmentType {
    if v.None? then EmptySegment else CoveredSegment
  }

  ghost function MapOf<T>(t: Tree<T>, left: uint64, right: uint64): uint64 -> Option<T>
    requires Fits(t, left, right)
  {
    x => if Fits(t, left, right) then Look(t, left, right, x) else None
  }

  /** Neighbouring runs that should have been one. */
  predicate SameRun<T(==)>(a: Segment<T>, b: Segment<T>) {
    (a.typ == EmptySegment && b.typ == EmptySegment) || (a.typ == b.typ && a.value == b.value)
  }

  /** Append one leaf to the runs found so far. */
  function AppendRun<T(==)>(res: seq<Segment<T>>, s: Segment<T>): seq<Segment<T>> {
    if |res| >= 1 && SameRun(res[|res| - 1], s) && res[|res| - 1].right == s.left
    then res[|res| - 1 := res[|res| - 1].(right := s.right)]
    else res + [s]
  }

  ghost function CollectTree<T>(t: Tree<T>, left: uint64, right: uint64, l: uint64, r: uint64, res: seq<Segment<T>>)
    : seq<Segment<T>>
    requires Fits(t, left, right)
  {
    if l >= r then res
    else
      match t
      case Empty(v) => AppendRun(res, Segment(EmptySegment, v, left, right))
      case Covered(v) => AppendRun(res, Segment(CoveredSegment, v, left, right))
      case Partial(lc, rc) =>
        var mid := Mid(left, right);
        var res1 := if l < mid then CollectTree(lc, left, mid, l, Min(r, mid), res) else res;
        if r > mid then CollectTree(rc, mid, right, Max(l, mid), r, res1) else res1
  }

  /** What segment s says about address x, which it contains. */
  ghost predicate Says<T>(s: Segment<T>, v: Option<T>) {
    s.typ == KindOf(v) && (v.Some? ==> s.value == v.value)
  }

  /** Run k + 1 starts where run k ends, and differs from it. */
  ghost predicate Joined<T>(res: seq<Segment<T>>, k: nat)
    requires k + 1 < |res|
  {
    res[k].right == res[k + 1].left && !SameRun(res[k], res[k + 1])
  }

  /** `res` is a run-length encoding of `f`: non-empty runs, one after the
      other, neighbours different, each telling the truth about its addresses. */
  ghost predicate Encodes<T>(res: seq<Segment<T>>, f: uint64 -> Option<T>) {
    && (forall k :: 0 <= k < |res| ==> res[k].left < res[k].right && res[k].typ != PartialSegment)
    && (forall k: nat :: k + 1 < |res| ==> Joined(res, k))
    && (forall k, x :: 0 <= k < |res| && res[k].left <= x < res[k].right ==> Says(res[k], f(x)))
  }

  /** The runs cover [l, r), and every one of them meets it. */
  ghost predicate Spans<T>(res: seq<Segment<T>>, l: uint64, r: uint64) {
    |res| > 0 && res[0].left <= l < res[0].right && res[|res| - 1].left < r <= res[|res| - 1].right
  }

  /** `out` continues the runs `res`, which stop where [l, r) starts, up to r. */
  ghost predicate Continues<T>(res: seq<Segment<T>>, out: seq<Segment<T>>, l: uint64, r: uint64) {
    && |out| > 0
    && (if |res| > 0 then out[0].left == res[0].left && res[0].right <= out[0].right
        else out[0].left <= l < out[0].right)
    && out[|out| - 1].left < r <= out[|out| - 1].right
  }

  ghost predicate EndsAt<T>(res: seq<Segment<T>>, x: uint64) {
    |res| > 0 ==> res[|res| - 1].right == x
  }

  lemma {:induction false} AppendRunEncodes<T>(res: seq<Segment<T>>, s: Segment<T>, f: uint64 -> Option<T>)
    requires Encodes(res, f) && EndsAt(res, s.left)
    requires s.left < s.right && s.typ != PartialSegment
    requires forall x :: s.left <= x < s.right ==> Says(s, f(x))
    ensures Encodes(AppendRun(res, s), f)
  {
    var n := |res| - 1;
    var out := AppendRun(res, s);
    forall k: nat | k + 1 < |out| ensures Joined(out, k) {
      if k + 1 < |res| { assert Joined(res, k); }
    }
    if n >= 0 && SameRun(res[n], s) {
      forall x | res[n].left <= x < s.right ensures Says(out[n], f(x)) {
        if x < s.left { assert Says(res[n], f(x)); } else { assert Says(s, f(x)); }
      }
    }
  }

  lemma {:induction false} AppendRunContinues<T>(res: seq<Segment<T>>, s: Segment<T>, f: uint64 -> Option<T>,
                                                 l: uint64, r: uint64)
    requires Encodes(res, f) && EndsAt(res, s.left)
    requires s.left <= l < r <= s.right
    ensures Continues(res, AppendRun(res, s), l, r) && EndsAt(AppendRun(res, s), s.right)
  {
  }

  lemma {:induction false} CollectEncodes<T>(t: Tree<T>, left: uint64, right: uint64, l: uint64, r: uint64,
                                             res: seq<Segment<T>>, f: uint64 -> Option<T>)
    requires Fits(t, left, right)
    requires left <= l < r <= right
    requires forall x :: left <= x < right ==> f(x) == Look(t, left, right, x)
    requires Encodes(res, f) && EndsAt(res, left) && (|res| > 0 ==> l == left)
    ensures Encodes(CollectTree(t, left, right, l, r, res), f)
    ensures Continues(res, CollectTree(t, left, right, l, r, res), l, r)
    ensures r == right ==> EndsAt(CollectTree(t, left, right, l, r, res), right)
    decreases t
  {
    if !t.Partial? {
      var s := Segment(if t.Empty? then EmptySegment else CoveredSegment, t.value, left, right);
      forall x | s.left <= x < s.right ensures Says(s, f(x)) {
        assert f(x) == Look(t, left, right, x);
      }
      AppendRunEncodes(res, s, f);
      AppendRunContinues(res, s, f, l, r);
    } else {
      CollectPartial(t, left, right, l, r, res, f);
    }
  }

  lemma {:induction false} LookHalves<T>(t: Tree<T>, left: uint64, right: uint64, f: uint64 -> Option<T>)
    requires Fits(t, left, right) && t.Partial?
    requires forall x :: left <= x < right ==> f(x) == Look(t, left, right, x)
    ensures forall x :: left <= x < Mid(left, right) ==> f(x) == Look(t.lc, left, Mid(left, right), x)
    ensures forall x :: Mid(left, right) <= x < right ==> f(x) == Look(t.rc, Mid(left, right), right, x)
  {
    var mid := Mid(left, right);
    forall x | left <= x < mid ensures f(x) == Look(t.lc, left, mid, x) {
      assert f(x) == Look(t, left, right, x);
    }
    forall x | mid <= x < right ensures f(x) == Look(t.rc, mid, right, x) {
      assert f(x) == Look(t, left, right, x);
    }
  }

  lemma {:induction false} CollectPartial<T>(t: Tree<T>, left: uint64, right: uint64, l: uint64, r: uint64,
                                             res: seq<Segment<T>>, f: uint64 -> Option<T>)
    requires Fits(t, left, right) && t.Partial?
    requires left <= l < r <= right
    requires forall x :: left <= x < right ==> f(x) == Look(t, left, right, x)
    requires Encodes(res, f) && EndsAt(res, left) && (|res| > 0 ==> l == left)
    ensures Encodes(CollectTree(t, left, right, l, r, res), f)
    ensures Continues(res, CollectTree(t, left, right, l, r, res), l, r)
    ensures r == right ==> EndsAt(CollectTree(t, left, right, l, r, res), right)
    decreases t, 0
  {
    var mid := Mid(left, right);
    LookHalves(t, left, right, f);
    if r <= mid {
      CollectEncodes(t.lc, left, mid, l, r, res, f);
    } else if mid <= l {
      CollectEncodes(t.rc, mid, right, l, r, res, f);
    } else {
      CollectEncodes(t.lc, left, mid, l, mid, res, f);
      CollectEncodes(t.rc, mid, right, mid, r, CollectTree(t.lc, left, mid, l, mid, res), f);
    }
  }

  /** Every address of the span lies in one of the runs. */
  lemma {:induction false} RunContaining<T>(res: seq<Segment<T>>, f: uint64 -> Option<T>, x: uint64) returns (k: nat)
    requires Encodes(res, f) && |res| > 0 && res[0].left <= x < res[|res| - 1].right
    ensures k < |res| && res[k].left <= x < res[k].right
  {
    k := 0;
    while x >= res[k].right
      invariant k < |res| && res[k].left <= x
      decreases |res| - k
    {
      assert Joined(res, k);
      k := k + 1;
    }
  }

  lemma {:induction false} RunsAscend<T>(res: seq<Segment<T>>, f: uint64 -> Option<T>, i: nat, j: nat)
    requires Encodes(res, f) && i < j < |res|
    ensures res[i].right <= res[j].left
  {
    assert Joined(res, j - 1);
    if i + 1 < j { RunsAscend(res, f, i, j - 1); }
  }

  // ------------------------------------------------------- the mutable tree

  class SegmentTree<T(==)> {
    var typ: SegmentType
    var value: T
    const left: uint64
    const right: uint64
    var lChild: SegmentTree?<T>
    var rChild: SegmentTree?<T>

    ghost var tree: Tree<T>        // the current shape
    ghost var Repr: set<object>
    ghost var made: nat            // how many nodes Set has allocated below this one

    ghost predicate Valid()
      reads this, Repr
      ensures Valid() ==> this in Repr && Fits(tree, left, right)
    {
      && this in Repr && left < right
      && (typ == EmptySegment ==> lChild == null && rChild == null && tree == Empty(value))
      && (typ == CoveredSegment ==> lChild == null && rChild == null && tree == Covered(value))
      && (typ == PartialSegment ==>
            && left < Mid(left, right)
            && lChild != null && rChild != null
            && lChild in Repr && lChild.Repr <= Repr && this !in lChild.Repr
            && rChild in Repr && rChild.Repr <= Repr && this !in rChild.Repr
            && lChild.Repr !! rChild.Repr
            && lChild.Valid() && rChild.Valid()
            && lChild.left == left && lChild.right == Mid(left, right)
            && rChild.left == Mid(left, right) && rChild.right == right
            && tree == Partial(lChild.tree, rChild.tree))
    }

    /** The map this tree stands for. */
    ghost function At(x: uint64): Option<T>
      reads this, Repr
      requires Valid()
    {
      Look(tree, left, right, x)
    }

    /** A leaf. */
    constructor Leaf(t: SegmentType, v: T, l: uint64, r: uint64)
      requires l < r && t != PartialSegment
      ensures Valid() && fresh(Repr)
      ensures left == l && right == r
      ensures tree == if t == EmptySegment then Empty(v) else Covered(v)
    {
      typ, value, left, right, lChild, rChild := t, v, l, r, null, null;
      tree := if t == EmptySegment then Empty(v) else Covered(v);
      Repr, made := {this}, 0;
    }

    /** An inner node over two trees. */
    constructor Node(v: T, l: uint64, r: uint64, lc: SegmentTree<T>, rc: SegmentTree<T>)
      requires l < r && l < Mid(l, r)
      requires lc.Valid() && rc.Valid() && lc.Repr !! rc.Repr
      requires lc.left == l && lc.right == Mid(l, r) && rc.left == Mid(l, r) && rc.right == r
      ensures Valid() && fresh(Repr - lc.Repr - rc.Repr) && Repr == {this} + lc.Repr + rc.Repr
      ensures left == l && right == r
      ensures tree == Partial(lc.tree, rc.tree)
    {
      typ, value, left, right, lChild, rChild := PartialSegment, v, l, r, lc, rc;
      tree := Partial(lc.tree, rc.tree);
      Repr, made := {this} + lc.Repr + rc.Repr, 0;
    }

    /** The empty tree over the whole address space. */
    constructor NewTree(v: T)
      ensures Valid() && fresh(Repr)
      ensures left == 0 && right == MAX_RANGE
      ensures tree == Empty(v) && forall x :: At(x) == None
    {
      typ, value, left, right, lChild, rChild := EmptySegment, v, 0, MAX_RANGE, null, null;
      tree := Empty(v);
      Repr, made := {this}, 0;
    }

    /** Set every address of [l, r) to v. */
    method Set(l: uint64, r: uint64, v: T)
      requires Valid()
      requires l < r ==> left <= l && r <= right
      modifies Repr
      ensures Valid() && fresh(Repr - old(Repr))
      ensures tree == SetTree(old(tree), left, right, l, r, v)
      ensures forall x :: left <= x < right ==> At(x) == if l <= x < r then Some(v) else old(At(x))
      ensures old(Canonical(tree)) ==> Canonical(tree)
      ensures made == old(made) + MadeBy(old(tree), left, right, l, r, v)
      decreases right as int - left as int, 2
    {
      SetTreeUpdates(tree, left, right, l, r, v);
      if Canonical(tree) { SetTreeCanonical(tree, left, right, l, r, v); }
      if l >= r { return; }
      if typ == CoveredSegment && value == v { return; }
      if l <= left && r >= right {
        typ, value, lChild, rChild := CoveredSegment, v, null, null;
        tree, Repr := Covered(v), {this};
        return;
      }
      if typ != PartialSegment { Split(); }
      SetChildren(l, r, v);
    }

    /** Give a leaf two leaves of its own kind as children. */
    method Split()
      requires Valid() && typ != PartialSegment && left < Mid(left, right)
      modifies this
      ensures Valid() && fresh(Repr - old(Repr)) && typ == PartialSegment
      ensures tree == Partial(old(tree), old(tree)) && made == old(made) + 2
    {
      var mid := Mid(left, right);
      lChild := new SegmentTree.Leaf(typ, value, left, mid);
      rChild := new SegmentTree.Leaf(typ, value, mid, right);
      typ := PartialSegment;
      tree := Partial(tree, tree);
      Repr, made := {this} + lChild.Repr + rChild.Repr, made + 2;
    }

    method SetChildren(l: uint64, r: uint64, v: T)
      requires Valid() && typ == PartialSegment
      requires left <= l < r <= right
      modifies Repr
      ensures Valid() && fresh(Repr - old(Repr))
      ensures var mid := Mid(left, right);
              tree == Coalesce(
                if l < mid then SetTree(old(tree.lc), left, mid, l, Min(r, mid), v) else old(tree.lc),
                if r > mid then SetTree(old(tree.rc), mid, right, Max(l, mid), r, v) else old(tree.rc))
      ensures var mid := Mid(left, right);
              made == old(made)
                + (if l < mid then MadeBy(old(tree.lc), left, mid, l, Min(r, mid), v) else 0)
                + (if r > mid then MadeBy(old(tree.rc), mid, right, Max(l, mid), r, v) else 0)
      decreases right as int - left as int, 1
    {
      var mid := Mid(left, right);
      if l < mid { SetLeft(l, Min(r, mid), v); }
      if r > mid { SetRight(Max(l, mid), r, v); }
      MergeChildren();
    }

    method SetLeft(l: uint64, r: uint64, v: T)
      requires Valid() && typ == PartialSegment
      requires left <= l < r <= Mid(left, right)
      modifies Repr
      ensures Valid() && typ == PartialSegment && fresh(Repr - old(Repr))
      ensures tree == Partial(SetTree(old(tree.lc), left, Mid(left, right), l, r, v), old(tree.rc))
      ensures made == old(made) + MadeBy(old(tree.lc), left, Mid(left, right), l, r, v)
      decreases right as int - left as int, 0
    {
      ghost var before := lChild.made;
      lChild.Set(l, r, v);
      made := made + (lChild.made - before);
      Repr, tree := Repr + lChild.Repr, Partial(lChild.tree, rChild.tree);
    }

    method SetRight(l: uint64, r: uint64, v: T)
      requires Valid() && typ == PartialSegment
      requires Mid(left, right) <= l < r <= right
      modifies Repr
      ensures Valid() && typ == PartialSegment && fresh(Repr - old(Repr))
      ensures tree == Partial(old(tree.lc), SetTree(old(tree.rc), Mid(left, right), right, l, r, v))
      ensures made == old(made) + MadeBy(old(tree.rc), Mid(left, right), right, l, r, v)
      decreases right as int - left as int, 0
    {
      ghost var before := rChild.made;
      rChild.Set(l, r, v);
      made := made + (rChild.made - before);
      Repr, tree := Repr + rChild.Repr, Partial(lChild.tree, rChild.tree);
    }

    /** Turn the node back into a leaf if its children agree. */
    method MergeChildren()
      requires Valid() && typ == PartialSegment
      modifies this
      ensures Valid() && Repr <= old(Repr)
      ensures tree == Coalesce(old(tree.lc), old(tree.rc)) && made == old(made)
    {
      if (lChild.typ == CoveredSegment && rChild.typ == CoveredSegment && lChild.value == rChild.value)
         || (lChild.typ == EmptySegment && rChild.typ == EmptySegment) {
        typ, value, tree := lChild.typ, lChild.value, lChild.tree;
        lChild, rChild := null, null;
      }
    }

    /** The value at x, if it is covered. */
    method Get(x: uint64) returns (v: Option<T>)
      requires Valid()
      ensures v == At(x)
      decreases right as int - left as int
    {
      if typ == EmptySegment { return None; }
      if typ == CoveredSegment { return Some(value); }
      if x < Mid(left, right) { v := lChild.Get(x); } else { v := rChild.Get(x); }
    }

    /** The runs of equal value that meet [l, r). */
    method Collect(l: uint64, r: uint64) returns (res: seq<Segment<T>>)
      requires Valid()
      requires l < r ==> left <= l && r <= right
      ensures l >= r ==> res == []
      ensures l < r ==> Encodes(res, MapOf(tree, left, right)) && Spans(res, l, r)
    {
      res := Collect2(l, r, []);
      if l < r {
        CollectEncodes(tree, left, right, l, r, [], MapOf(tree, left, right));
      }
    }

    method Collect2(l: uint64, r: uint64, res: seq<Segment<T>>) returns (out: seq<Segment<T>>)
      requires Valid()
      ensures out == CollectTree(tree, left, right, l, r, res)
      decreases right as int - left as int
    {
      out := res;
      if l >= r { return; }
      if typ != PartialSegment {
        out := AppendRun(out, Segment(typ, value, left, right));
      } else {
        var mid := Mid(left, right);
        if l < mid { out := lChild.Collect2(l, Min(r, mid), out); }
        if r > mid { out := rChild.Collect2(Max(l, mid), r, out); }
      }
    }
  }
}
