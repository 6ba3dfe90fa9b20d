/** What grouping memory means (tools/PrintBug/GroupMemory.cpp): which group owns
    an address, and which group a pointer variable points into. None stands for
    an index out of range or the use of a deleted group. */
module Grouping {
  import opened Common
  import Executions

  /** The groups between two steps. A variable is an instruction, or an argument
      numbered from |prog.ins| on. */
  datatype View = View(
    max: int,                      // the latest group ID
    vars: map<Key, int>,           // variable -> the group it points into
    owner: imap<uint64, int>,      // address -> its group
    live: set<int>,                // the groups that exist
    labeled: map<Tid, set<nat>>)   // arguments of the current function that have a group

  const NO_GROUPS := View(0, map[], imap[], {}, map[])

  // ----------------------------------------------------------- sets in order

  /** The ascending list of a set. */
  ghost function Sorted(s: set<int>): (l: seq<int>)
    ensures forall x :: x in l <==> x in s
    ensures forall k :: 0 <= k < |l| ==> l[k] in s
    decreases |s|
  {
    if s == {} then []
    else
      var m := Smallest(s);
      assert |s - {m}| < |s|;
      [m] + Sorted(s - {m})
  }

  // ------------------------------------------------------------ merging groups

  function Moved(groups: set<int>, to: int, g: int): int { if g in groups then to else g }

  /** Merge groups into the one with the smallest ID; no group at all makes a
      new one. */
  ghost function Merge(v: View, groups: set<int>): (View, int) {
    if groups == {} then (v.(max := v.max + 1, live := v.live + {v.max + 1}), v.max + 1)
    else
      var m := Smallest(groups);
      (v.(vars := map k | k in v.vars :: Moved(groups, m, v.vars[k]),
          owner := imap x | x in v.owner :: Moved(groups, m, v.owner[x]),
          live := v.live - groups + {m}), m)
  }

  // ------------------------------------------------------------- instructions

  /** Operands that are pointers. */
  predicate PointerDep(prog: Program, dep: (DepType, nat)) {
    (dep.0 == Inst && dep.1 < |prog.ins| && prog.ins[dep.1].isPointer) || dep.0 == PointerArg
  }

  function DepKey(prog: Program, tid: Tid, dep: (DepType, nat)): Key {
    (tid, if dep.0 == PointerArg then dep.1 + |prog.ins| else dep.1)
  }

  /** The pointer operands of an instruction, as variables. */
  function DepKeys(prog: Program, tid: Tid, ssa: seq<(DepType, nat)>): seq<Key> {
    if ssa == [] then []
    else if PointerDep(prog, ssa[0]) then [DepKey(prog, tid, ssa[0])] + DepKeys(prog, tid, ssa[1..])
    else DepKeys(prog, tid, ssa[1..])
  }

  /** The arguments among them. */
  function ArgKeys(prog: Program, ssa: seq<(DepType, nat)>): set<nat> {
    set dep | dep in ssa && dep.0 == PointerArg :: dep.1 + |prog.ins|
  }

  function GroupsOf(vars: map<Key, int>, keys: seq<Key>): set<int> {
    set k | k in keys && k in vars :: vars[k]
  }

  function LabeledOf(v: View, tid: Tid): set<nat> {
    if tid in v.labeled then v.labeled[tid] else {}
  }

  /** Give every variable of a list the same group. */
  function Assign(vars: map<Key, int>, keys: seq<Key>, g: int): map<Key, int> {
    vars + map k | k in keys :: g
  }

  /** At the first block of a function, argument i gives its group to the
      variable the caller passed. */
  ghost function PassArgument(prog: Program, b: SmallestBlock, v: View, i: nat): Option<View> {
    var key := (b.tid, i);
    if key !in v.vars then Some(v)
    else
      var g := v.vars[key];
      var v1 := v.(vars := v.vars - {key});
      if b.isFirst != 1 || b.caller.None? then Some(v1)
      else if b.caller.value >= |prog.ins| || i < |prog.ins|
          || i - |prog.ins| >= |prog.ins[b.caller.value].ssa| then None
      else
        var dep := prog.ins[b.caller.value].ssa[i - |prog.ins|];
        if !PointerDep(prog, dep) then Some(v1)
        else
          var key' := DepKey(prog, b.tid, dep);
          var labels := LabeledOf(v1, b.tid) + {key'.1};
          var v2 := if dep.0 == PointerArg then v1.(labeled := v1.labeled[b.tid := labels]) else v1;
          var (v3, g') := if key' in v2.vars then Merge(v2, {g, v2.vars[key']}) else (v2, g);
          Some(v3.(vars := v3.vars[key' := g']))
  }

  ghost function PassArguments(prog: Program, b: SmallestBlock, v: View, args: seq<int>): Option<View>
    requires forall k :: 0 <= k < |args| ==> args[k] >= 0
    decreases |args|
  {
    if args == [] then Some(v)
    else
      match PassArgument(prog, b, v, args[0])
      case None => None
      case Some(v') => PassArguments(prog, b, v', args[1..])
  }

  /** The result variable and the pointer operands of an instruction point into
      one group, as do the addresses it accesses, which are in `groups`. The
      result variable is then forgotten: before this instruction it had no
      value. */
  ghost function MergeOperands(prog: Program, v: View, groups: set<int>, key: Key): (View, int)
    requires key.1 < |prog.ins|
  {
    var ssa := prog.ins[key.1].ssa;
    var keys := DepKeys(prog, key.0, ssa);
    var (v1, m) := Merge(v, groups + GroupsOf(v.vars, [key] + keys));
    (v1.(vars := Assign(v1.vars - {key}, keys, m),
         labeled := if ArgKeys(prog, ssa) == {} then v1.labeled
                    else v1.labeled[key.0 := LabeledOf(v1, key.0) + ArgKeys(prog, ssa)]), m)
  }

  ghost function MergeInst(prog: Program, v: View, groups: set<int>, key: Key, b: SmallestBlock): Option<(View, int)>
    requires key.1 < |prog.ins|
  {
    var (v1, m) := MergeOperands(prog, v, groups, key);
    if b.isFirst !in {1, 2} then Some((v1, m))
    else
      match PassArguments(prog, b, v1.(labeled := v1.labeled[b.tid := {}]), Sorted(LabeledOf(v1, b.tid)))
      case None => None
      case Some(v2) => Some((v2, m))
  }

  // ------------------------------------------------------------------- blocks

  /** The groups that own part of [l, r). */
  ghost function GroupsIn(v: View, l: uint64, r: uint64): set<int> {
    set g | g in v.live && exists x :: l <= x < r && x in v.owner && v.owner[x] == g
  }

  /** Is some address of [l, r) without a group? */
  ghost predicate Gap(v: View, l: uint64, r: uint64) {
    exists x :: l <= x < r && x !in v.owner
  }

  /** Give every address of [l, r) that has no group yet to g. */
  ghost function Fill(v: View, l: uint64, r: uint64, g: int): View {
    v.(owner := imap x | x in v.owner || l <= x < r :: if x in v.owner then v.owner[x] else g)
  }

  ghost function GroupRange(prog: Program, v: View, b: SmallestBlock, key: Key): Option<View>
    requires key.1 < |prog.ins| && |b.addr| >= 2
  {
    match MergeInst(prog, v, GroupsIn(v, b.addr[0], b.addr[1]), key, b)
    case None => None
    case Some((v', m)) =>
      if !Gap(v, b.addr[0], b.addr[1]) then Some(v')
      else if m !in v'.live then None
      else Some(Fill(v', b.addr[0], b.addr[1], m))
  }

  ghost function GroupMove(prog: Program, v: View, b: SmallestBlock, key: Key): Option<View>
    requires key.1 < |prog.ins| && |b.addr| >= 4
  {
    if b.addr[2] >= b.addr[3] then None
    else
      match MergeInst(prog, v, GroupsIn(v, b.addr[0], b.addr[1]) + GroupsIn(v, b.addr[2], b.addr[3]), key, b)
      case None => None
      case Some((v', m)) =>
        if !Gap(v, b.addr[0], b.addr[1]) && !Gap(v, b.addr[2], b.addr[3]) then Some(v')
        else if m !in v'.live then None
        else Some(Fill(Fill(v', b.addr[0], b.addr[1], m), b.addr[2], b.addr[3], m))
  }

  ghost function GroupDeclared(v: View, b: SmallestBlock): Option<View>
    requires |b.addr| >= 2
  {
    if b.addr[0] >= b.addr[1] then None
    else
      var (v', m) := Merge(v, GroupsIn(v, b.addr[0], b.addr[1]));
      Some(Fill(v', b.addr[0], b.addr[1], m))
  }

  /** An argument of an external call that has no group gets one of its own. The
      address past the last is looked up where the last one is, and is never
      given a group. */
  ghost function GroupArgument(v: View, x: uint64): View {
    if (if x == MAX_RANGE then x - 1 else x) in v.owner then v
    else
      var v' := v.(max := v.max + 1, live := v.live + {v.max + 1});
      if x == MAX_RANGE then v' else v'.(owner := v'.owner[x := v'.max])
  }

  ghost function GroupArguments(v: View, addr: seq<uint64>): View
    decreases |addr|
  {
    if addr == [] then v else GroupArguments(GroupArgument(v, addr[0]), addr[1..])
  }

  /** Instructions of a normal block that matter: pointers other than calls. */
  predicate Grouped(info: InstInfo) { info.isPointer && info.typ != CallInst }

  ghost function GroupInstructions(prog: Program, v: View, b: SmallestBlock, ids: seq<nat>): Option<View>
    requires forall k :: 0 <= k < |ids| ==> ids[k] < |prog.ins|
    decreases |ids|
  {
    if ids == [] then Some(v)
    else
      var id := ids[|ids| - 1];
      var r := if Grouped(prog.ins[id]) then MergeInst(prog, v, {}, (b.tid, id), b) else Some((v, 0));
      match r
      case None => None
      case Some((v', _)) => GroupInstructions(prog, v', b, ids[..|ids| - 1])
  }

  /** Block b is one of the program, down to its instructions. */
  predicate Groupable(prog: Program, b: SmallestBlock) {
    && Executions.GoodBlock(prog, b)
    && (b.typ == NormalBlock ==> forall k :: b.start <= k < b.end ==> prog.bb2ins[b.bb][k] < |prog.ins|)
  }

  predicate GroupableTrace(prog: Program, trace: seq<SmallestBlock>) {
    forall i :: 0 <= i < |trace| ==> Groupable(prog, trace[i])
  }

  ghost function GroupBlock(prog: Program, v: View, b: SmallestBlock): Option<View>
    requires Groupable(prog, b)
  {
    if b.typ == NormalBlock then GroupInstructions(prog, v, b, prog.bb2ins[b.bb][b.start..b.end])
    else if b.typ == DeclareBlock then GroupDeclared(v, b)
    else if b.typ in {ExternalCallBlock, ImpactfulCallBlock} then
      Some(GroupArguments(v, if |b.addr| > 0 then b.addr[1..] else []))
    else if b.addr[0] >= b.addr[1] then Some(v)
    else
      var key := (b.tid, prog.bb2ins[b.bb][b.start]);
      if b.typ == MemmoveBlock then GroupMove(prog, v, b, key) else GroupRange(prog, v, b, key)
  }

  /** The groups after the blocks from number i on, last block first. */
  ghost function GroupTrace(prog: Program, trace: seq<SmallestBlock>, i: nat): Option<View>
    requires GroupableTrace(prog, trace) && i <= |trace|
    decreases |trace| - i
  {
    if i == |trace| then Some(NO_GROUPS)
    else
      match GroupTrace(prog, trace, i + 1)
      case None => None
      case Some(v) => GroupBlock(prog, v, trace[i])
  }

  // --------------------------------------------------------------- invariants

  /** Every group that owns an address or that a variable points into exists,
      and the next new ID is free. */
  ghost predicate Live(v: View) {
    && (forall k :: k in v.vars ==> v.vars[k] in v.live)
    && (forall x :: x in v.owner ==> v.owner[x] in v.live)
    && (forall g :: g in v.live ==> 1 <= g <= v.max) && v.max >= 0
  }

  ghost predicate Same(v: View, x: uint64, y: uint64) {
    x in v.owner && y in v.owner && v.owner[x] == v.owner[y]
  }

  /** Addresses once in one group stay together. */
  ghost predicate Coarser(v: View, v': View) {
    forall x, y :: Same(v, x, y) ==> Same(v', x, y)
  }

  /** No group was made, none changed its addresses except to be merged away. */
  ghost predicate Steady(v: View, v': View) {
    && v'.live <= v.live && v'.owner.Keys == v.owner.Keys
    && forall x :: x in v.owner && v.owner[x] in v'.live ==> v'.owner[x] == v.owner[x]
  }

  /** Merging puts together what was together before, and the groups given. */
  lemma {:induction false} MergeMerges(v: View, groups: set<int>)
    requires Live(v) && groups <= v.live
    ensures var (v', m) := Merge(v, groups);
            && Live(v') && m in v'.live && v'.labeled == v.labeled
            && v'.owner.Keys == v.owner.Keys && v'.vars.Keys == v.vars.Keys
            && (forall k :: k in v.vars ==> v'.vars[k] == Moved(groups, m, v.vars[k]))
            && (forall x :: x in v.owner ==> v'.owner[x] == Moved(groups, m, v.owner[x]))
            && (forall x, y :: Same(v', x, y) <==>
                  Same(v, x, y) || (x in v.owner && y in v.owner && v.owner[x] in groups && v.owner[y] in groups))
            && (groups != {} ==> Steady(v, v'))
  {
    var (v', m) := Merge(v, groups);
    forall x, y ensures Same(v', x, y) <==>
              Same(v, x, y) || (x in v.owner && y in v.owner && v.owner[x] in groups && v.owner[y] in groups)
    {
    }
  }

  lemma {:induction false} CoarserTrans(a: View, b: View, c: View)
    requires Coarser(a, b) && Coarser(b, c)
    ensures Coarser(a, c)
  {
    forall x, y | Same(a, x, y) ensures Same(c, x, y) { assert Same(b, x, y); }
  }

  lemma {:induction false} SteadyCoarser(a: View, b: View, c: View)
    requires Steady(a, b) && Steady(b, c)
    ensures Steady(a, c)
  {
    forall x | x in a.owner && a.owner[x] in c.live ensures c.owner[x] == a.owner[x] {
      assert x in b.owner;
    }
  }

  /** Passing arguments only merges. */
  lemma {:induction false} PassArgumentKeeps(prog: Program, b: SmallestBlock, v: View, i: nat)
    requires Live(v)
    ensures var r := PassArgument(prog, b, v, i);
            r.Some? ==> Live(r.value) && Coarser(v, r.value) && Steady(v, r.value)
  {
    hide Coarser, Steady, Merge;
    var key := (b.tid, i);
    assert Coarser(v, v) && Steady(v, v) by { Reflexive(v, v); }
    var r := PassArgument(prog, b, v, i);
    if key in v.vars {
      var v1 := v.(vars := v.vars - {key});
      Reflexive(v, v1);
      if r.Some? && r.value != v1 {
        var dep := prog.ins[b.caller.value].ssa[i - |prog.ins|];
        var key' := DepKey(prog, b.tid, dep);
        var labels := LabeledOf(v1, b.tid) + {key'.1};
        var v2 := if dep.0 == PointerArg then v1.(labeled := v1.labeled[b.tid := labels]) else v1;
        PassInto(v, v2, key', v.vars[key]);
      }
    }
  }

  lemma {:induction false} Reflexive(v: View, v': View)
    requires v'.owner == v.owner && v'.live == v.live
    ensures Coarser(v, v') && Steady(v, v')
  {
    forall x, y | Same(v, x, y) ensures Same(v', x, y) {
    }
  }

  lemma {:induction false} PassInto(v: View, v2: View, key: Key, g: int)
    requires Live(v) && Live(v2) && v2.owner == v.owner && v2.live == v.live && g in v.live
    ensures var (v3, g') := if key in v2.vars then Merge(v2, {g, v2.vars[key]}) else (v2, g);
            var v4 := v3.(vars := v3.vars[key := g']);
            Live(v4) && Coarser(v, v4) && Steady(v, v4)
  {
    if key in v2.vars { MergeMerges(v2, {g, v2.vars[key]}); }
    var (v3, g') := if key in v2.vars then Merge(v2, {g, v2.vars[key]}) else (v2, g);
    var v4 := v3.(vars := v3.vars[key := g']);
    forall x, y | Same(v, x, y) ensures Same(v4, x, y) {
      assert Same(v2, x, y) && Same(v3, x, y);
    }
  }

  lemma {:induction false} PassArgumentsKeeps(prog: Program, b: SmallestBlock, v: View, args: seq<int>)
    requires Live(v) && forall k :: 0 <= k < |args| ==> args[k] >= 0
    ensures var r := PassArguments(prog, b, v, args);
            r.Some? ==> Live(r.value) && Coarser(v, r.value) && Steady(v, r.value)
    decreases |args|
  {
    hide Coarser, Steady, PassArgument;
    Reflexive(v, v);
    if args != [] {
      PassArgumentKeeps(prog, b, v, args[0]);
      var r := PassArgument(prog, b, v, args[0]);
      if r.Some? {
        PassArgumentsKeeps(prog, b, r.value, args[1..]);
        var r' := PassArguments(prog, b, r.value, args[1..]);
        if r'.Some? {
          CoarserTrans(v, r.value, r'.value);
          SteadyCoarser(v, r.value, r'.value);
        }
      }
    }
  }

  /** Every address of the given groups is in group m, if m exists. */
  ghost predicate Gathered(v: View, groups: set<int>, v': View, m: int) {
    && (forall x, y :: x in v.owner && y in v.owner && v.owner[x] in groups && v.owner[y] in groups ==> Same(v', x, y))
    && (m in v'.live ==> forall x :: x in v.owner && v.owner[x] in groups ==> x in v'.owner && v'.owner[x] == m)
  }

  lemma {:induction false} MergeOperandsKeeps(prog: Program, v: View, groups: set<int>, key: Key)
    requires key.1 < |prog.ins| && Live(v) && groups <= v.live
    ensures var (v', m) := MergeOperands(prog, v, groups, key);
            && Live(v') && Coarser(v, v') && m in v'.live && v'.owner.Keys == v.owner.Keys
            && Gathered(v, groups, v', m)
  {
    hide DepKeys, ArgKeys, Merge;
    var keys := DepKeys(prog, key.0, prog.ins[key.1].ssa);
    var all := groups + GroupsOf(v.vars, [key] + keys);
    MergeMerges(v, all);
    var (v1, m) := Merge(v, all);
    var (v', _) := MergeOperands(prog, v, groups, key);
    assert forall k :: k in v'.vars ==> v'.vars[k] in v'.live;
    forall x, y | Same(v, x, y) || (x in v.owner && y in v.owner && v.owner[x] in groups && v.owner[y] in groups)
      ensures Same(v', x, y)
    {
      assert Same(v1, x, y);
    }
  }

  /** The group a merged instruction ends up in exists, unless it is the first
      of a called function. */
  lemma {:induction false} MergeInstKeeps(prog: Program, v: View, groups: set<int>, key: Key, b: SmallestBlock)
    requires key.1 < |prog.ins| && Live(v) && groups <= v.live
    ensures var r := MergeInst(prog, v, groups, key, b);
            && (r.Some? ==> var (v', m) := r.value;
                  && Live(v') && Coarser(v, v') && v'.owner.Keys == v.owner.Keys && Gathered(v, groups, v', m)
                  && (b.isFirst != 1 ==> m in v'.live))
            && (b.isFirst != 1 ==> r.Some?)
  {
    hide Coarser, MergeOperands, Live, PassArguments, Same;
    MergeOperandsKeeps(prog, v, groups, key);
    var (v1, m) := MergeOperands(prog, v, groups, key);
    if b.isFirst in {1, 2} {
      var v2 := v1.(labeled := v1.labeled[b.tid := {}]);
      var args := Sorted(LabeledOf(v1, b.tid));
      Relabeled(v1, v2, v);
      PassArgumentsKeeps(prog, b, v2, args);
      if b.isFirst == 2 { ForgetArguments(prog, b, v2, args); }
      var r := PassArguments(prog, b, v2, args);
      if r.Some? {
        CoarserTrans(v, v2, r.value);
        StillGathered(v, groups, v2, r.value, m);
      }
    }
  }

  lemma {:induction false} Relabeled(v1: View, v2: View, v: View)
    requires Live(v1) && Coarser(v, v1) && v2 == v1.(labeled := v2.labeled)
    ensures Live(v2) && Coarser(v, v2)
    ensures forall groups, m :: Gathered(v, groups, v1, m) ==> Gathered(v, groups, v2, m)
  {
    assert forall x, y :: Same(v1, x, y) <==> Same(v2, x, y);
  }

  lemma {:induction false} StillGathered(v: View, groups: set<int>, v1: View, v2: View, m: int)
    requires Gathered(v, groups, v1, m) && Coarser(v1, v2) && Steady(v1, v2)
    ensures Gathered(v, groups, v2, m)
  {
  }

  /** In a new thread arguments are only forgotten. */
  lemma {:induction false} ForgetArguments(prog: Program, b: SmallestBlock, v: View, args: seq<int>)
    requires b.isFirst == 2 && forall k :: 0 <= k < |args| ==> args[k] >= 0
    ensures var r := PassArguments(prog, b, v, args); r.Some? && r.value.live == v.live
    decreases |args|
  {
    if args != [] { ForgetArguments(prog, b, PassArgument(prog, b, v, args[0]).value, args[1..]); }
  }

  // ------------------------------------------------------------------- results

  /** All of [l, r) is in one group. */
  ghost predicate Together(v: View, l: uint64, r: uint64) {
    forall x, y :: l <= x < r && l <= y < r ==> Same(v, x, y)
  }

  /** ... and all of [l2, r2) in the same one. */
  ghost predicate TogetherWith(v: View, l: uint64, r: uint64, l2: uint64, r2: uint64) {
    Together(v, l, r) && Together(v, l2, r2) && forall x, y :: l <= x < r && l2 <= y < r2 ==> Same(v, x, y)
  }

  /** What grouping promises about a block: its addresses share a group. */
  ghost predicate BlockGrouped(v: View, b: SmallestBlock) {
    && (b.typ in {MemoryAccessBlock, MemsetBlock, DeclareBlock} && |b.addr| == 2 ==> Together(v, b.addr[0], b.addr[1]))
    && (b.typ == MemmoveBlock && |b.addr| == 4 && b.addr[0] < b.addr[1] ==>
          TogetherWith(v, b.addr[0], b.addr[1], b.addr[2], b.addr[3]))
    && (b.typ in {ExternalCallBlock, ImpactfulCallBlock} ==>
          forall k :: 1 <= k < |b.addr| && b.addr[k] < MAX_RANGE ==> b.addr[k] in v.owner)
  }

  lemma {:induction false} GroupedStays(v: View, v': View, b: SmallestBlock)
    requires Coarser(v, v') && BlockGrouped(v, b)
    ensures BlockGrouped(v', b)
  {
    if b.typ in {ExternalCallBlock, ImpactfulCallBlock} {
      forall k | 1 <= k < |b.addr| && b.addr[k] < MAX_RANGE ensures b.addr[k] in v'.owner {
        assert Same(v, b.addr[k], b.addr[k]);
      }
    }
  }

  /** Filling the gaps of a range whose groups have been gathered in m. */
  lemma {:induction false} FillKeeps(v: View, l: uint64, r: uint64, m: int)
    requires Live(v) && m in v.live
    ensures var v' := Fill(v, l, r, m);
            && Live(v') && Coarser(v, v') && v'.live == v.live
            && (forall x :: l <= x < r ==> x in v'.owner && (x in v.owner || v'.owner[x] == m))
            && (forall x :: x in v.owner ==> v'.owner[x] == v.owner[x])
  {
  }

  /** The groups of [l, r) are gathered in m: its addresses are in m, or in
      none. */
  lemma {:induction false} GatheredRange(v: View, groups: set<int>, v': View, m: int, l: uint64, r: uint64)
    requires Live(v) && Gathered(v, groups, v', m) && GroupsIn(v, l, r) <= groups && v'.owner.Keys == v.owner.Keys
    ensures forall x :: l <= x < r && x in v.owner ==> v.owner[x] in groups
    ensures m in v'.live ==> forall x :: l <= x < r && x in v'.owner ==> v'.owner[x] == m
    ensures !Gap(v, l, r) ==> Together(v', l, r)
  {
    forall x | l <= x < r && x in v.owner ensures v.owner[x] in groups {
      assert v.owner[x] in GroupsIn(v, l, r);
    }
  }

  lemma {:induction false} GroupRangeKeeps(prog: Program, v: View, b: SmallestBlock, key: Key)
    requires key.1 < |prog.ins| && |b.addr| == 2 && Live(v)
    ensures var r := GroupRange(prog, v, b, key);
            && (r.Some? ==> Live(r.value) && Coarser(v, r.value) && Together(r.value, b.addr[0], b.addr[1]))
            && (b.isFirst != 1 ==> r.Some?)
  {
    hide MergeInst, Coarser, Live, Same, Gathered, Fill;
    var l, r := b.addr[0], b.addr[1];
    var groups := GroupsIn(v, l, r);
    MergeInstKeeps(prog, v, groups, key, b);
    var res := MergeInst(prog, v, groups, key, b);
    if res.Some? {
      var (v', m) := res.value;
      GatheredRange(v, groups, v', m, l, r);
      if m in v'.live {
        FillKeeps(v', l, r, m);
        CoarserTrans(v, v', Fill(v', l, r, m));
        FilledTogether(v', l, r, m);
      }
    }
  }

  lemma {:induction false} FilledTogether(v: View, l: uint64, r: uint64, m: int)
    requires forall x :: l <= x < r && x in v.owner ==> v.owner[x] == m
    ensures forall x :: l <= x < r ==> x in Fill(v, l, r, m).owner && Fill(v, l, r, m).owner[x] == m
    ensures Together(Fill(v, l, r, m), l, r)
  {
  }

  lemma {:induction false} GroupMoveKeeps(prog: Program, v: View, b: SmallestBlock, key: Key)
    requires key.1 < |prog.ins| && |b.addr| == 4 && Live(v)
    ensures var r := GroupMove(prog, v, b, key);
            && (r.Some? ==> Live(r.value) && Coarser(v, r.value)
                            && TogetherWith(r.value, b.addr[0], b.addr[1], b.addr[2], b.addr[3]))
            && (b.isFirst != 1 ==> (r.Some? <==> b.addr[2] < b.addr[3]))
  {
    hide MergeInst, Coarser, Live, Same, Gathered, Fill;
    var (l, r, l2, r2) := (b.addr[0], b.addr[1], b.addr[2], b.addr[3]);
    var groups := GroupsIn(v, l, r) + GroupsIn(v, l2, r2);
    MergeInstKeeps(prog, v, groups, key, b);
    var res := MergeInst(prog, v, groups, key, b);
    if res.Some? && l2 < r2 {
      var (v', m) := res.value;
      GatheredRange(v, groups, v', m, l, r);
      GatheredRange(v, groups, v', m, l2, r2);
      if m in v'.live {
        var v1 := Fill(v', l, r, m);
        var v2 := Fill(v1, l2, r2, m);
        FillKeeps(v', l, r, m);
        FillKeeps(v1, l2, r2, m);
        CoarserTrans(v, v', v1);
        CoarserTrans(v, v1, v2);
        BothFilled(v', l, r, l2, r2, m);
      }
      if !Gap(v, l, r) && !Gap(v, l2, r2) {
        BothGathered(v, groups, v', m, l, r, l2, r2);
      }
    }
  }

  lemma {:induction false} BothFilled(v: View, l: uint64, r: uint64, l2: uint64, r2: uint64, m: int)
    requires forall x :: (l <= x < r || l2 <= x < r2) && x in v.owner ==> v.owner[x] == m
    ensures TogetherWith(Fill(Fill(v, l, r, m), l2, r2, m), l, r, l2, r2)
  {
    var v' := Fill(Fill(v, l, r, m), l2, r2, m);
    assert forall x :: l <= x < r || l2 <= x < r2 ==> x in v'.owner && v'.owner[x] == m;
  }

  lemma {:induction false} BothGathered(v: View, groups: set<int>, v': View, m: int, l: uint64, r: uint64, l2: uint64,
                                        r2: uint64)
    requires Gathered(v, groups, v', m) && !Gap(v, l, r) && !Gap(v, l2, r2)
    requires forall x :: (l <= x < r || l2 <= x < r2) && x in v.owner ==> v.owner[x] in groups
    ensures TogetherWith(v', l, r, l2, r2)
  {
    assert forall x :: l <= x < r || l2 <= x < r2 ==> x in v.owner;
  }

  lemma {:induction false} GroupDeclaredKeeps(v: View, b: SmallestBlock)
    requires |b.addr| == 2 && Live(v)
    ensures var r := GroupDeclared(v, b);
            && (r.Some? <==> b.addr[0] < b.addr[1])
            && (r.Some? ==> Live(r.value) && Coarser(v, r.value) && Together(r.value, b.addr[0], b.addr[1]))
  {
    hide Coarser, Live, Fill;
    var (l, r) := (b.addr[0], b.addr[1]);
    var groups := GroupsIn(v, l, r);
    MergeMerges(v, groups);
    var (v', m) := Merge(v, groups);
    assert Coarser(v, v') by { MergeCoarser(v, groups); }
    FillKeeps(v', l, r, m);
    CoarserTrans(v, v', Fill(v', l, r, m));
    forall x | l <= x < r && x in v'.owner ensures v'.owner[x] == m {
      OwnerIn(v, l, r, x);
    }
    FilledTogether(v', l, r, m);
  }

  lemma {:induction false} OwnerIn(v: View, l: uint64, r: uint64, x: uint64)
    requires Live(v) && l <= x < r && x in v.owner
    ensures v.owner[x] in GroupsIn(v, l, r)
  {
  }

  lemma {:induction false} MergeCoarser(v: View, groups: set<int>)
    requires Live(v) && groups <= v.live
    ensures Coarser(v, Merge(v, groups).0)
  {
    MergeMerges(v, groups);
  }

  lemma {:induction false} GroupArgumentsKeeps(v: View, addr: seq<uint64>)
    requires Live(v)
    ensures var v' := GroupArguments(v, addr);
            && Live(v') && Coarser(v, v')
            && forall k :: 0 <= k < |addr| && addr[k] < MAX_RANGE ==> addr[k] in v'.owner
    decreases |addr|
  {
    Reflexive(v, v);
    if addr != [] {
      var v1 := GroupArgument(v, addr[0]);
      assert Coarser(v, v1) && Live(v1);
      GroupArgumentsKeeps(v1, addr[1..]);
      var v' := GroupArguments(v1, addr[1..]);
      CoarserTrans(v, v1, v');
      forall k | 0 <= k < |addr| && addr[k] < MAX_RANGE ensures addr[k] in v'.owner {
        if k > 0 { assert addr[k] == addr[1..][k - 1]; } else { assert Same(v1, addr[0], addr[0]); }
      }
    }
  }

  lemma {:induction false} GroupInstructionsKeeps(prog: Program, v: View, b: SmallestBlock, ids: seq<nat>)
    requires Live(v) && forall k :: 0 <= k < |ids| ==> ids[k] < |prog.ins|
    ensures var r := GroupInstructions(prog, v, b, ids);
            && (r.Some? ==> Live(r.value) && Coarser(v, r.value))
            && (b.isFirst != 1 ==> r.Some?)
    decreases |ids|
  {
    hide Coarser, Live, MergeInst;
    Reflexive(v, v);
    if ids != [] {
      var id := ids[|ids| - 1];
      MergeInstKeeps(prog, v, {}, (b.tid, id), b);
      var r := if Grouped(prog.ins[id]) then MergeInst(prog, v, {}, (b.tid, id), b) else Some((v, 0));
      if r.Some? {
        var v1 := r.value.0;
        GroupInstructionsKeeps(prog, v1, b, ids[..|ids| - 1]);
        var r' := GroupInstructions(prog, v1, b, ids[..|ids| - 1]);
        if r'.Some? { CoarserTrans(v, v1, r'.value); }
      }
    }
  }

  /** A block the pass cannot be given: an empty declaration, or an effective
      move from an empty range. */
  predicate Rejected(b: SmallestBlock)
    requires b.typ == DeclareBlock ==> |b.addr| == 2
    requires b.typ == MemmoveBlock ==> |b.addr| == 4
  {
    || (b.typ == DeclareBlock && b.addr[0] >= b.addr[1])
    || (b.typ == MemmoveBlock && b.addr[0] < b.addr[1] && b.addr[2] >= b.addr[3])
  }

  /** Each block leaves its addresses grouped and splits no group. Outside the
      first blocks of called functions it fails exactly on rejected blocks. */
  lemma {:induction false} GroupBlockKeeps(prog: Program, v: View, b: SmallestBlock)
    requires Groupable(prog, b) && Live(v)
    ensures var r := GroupBlock(prog, v, b);
            && (r.Some? ==> Live(r.value) && Coarser(v, r.value) && BlockGrouped(r.value, b))
            && (b.isFirst != 1 ==> (r.Some? <==> !Rejected(b)))
            && (Rejected(b) ==> r.None?)
  {
    hide Coarser, Live, MergeInst, GroupArguments, GroupInstructions, GroupRange, GroupMove, GroupDeclared, Together,
         TogetherWith;
    Reflexive(v, v);
    if b.typ == NormalBlock {
      GroupInstructionsKeeps(prog, v, b, prog.bb2ins[b.bb][b.start..b.end]);
    } else if b.typ == DeclareBlock {
      GroupDeclaredKeeps(v, b);
    } else if b.typ in {ExternalCallBlock, ImpactfulCallBlock} {
      GroupArgumentsKeeps(v, if |b.addr| > 0 then b.addr[1..] else []);
      if |b.addr| > 0 {
        forall k | 1 <= k < |b.addr| && b.addr[k] < MAX_RANGE
          ensures b.addr[k] in GroupArguments(v, b.addr[1..]).owner
        {
          assert b.addr[k] == b.addr[1..][k - 1];
        }
      }
    } else if b.addr[0] < b.addr[1] {
      var key := (b.tid, prog.bb2ins[b.bb][b.start]);
      if b.typ == MemmoveBlock {
        GroupMoveKeeps(prog, v, b, key);
        MoveRejected(prog, v, b, key);
      } else {
        GroupRangeKeeps(prog, v, b, key);
      }
    } else {
      EmptyTogether(v, b.addr[0], b.addr[1]);
    }
  }

  lemma {:induction false} EmptyTogether(v: View, l: uint64, r: uint64)
    requires l >= r
    ensures Together(v, l, r)
  {
  }

  lemma {:induction false} MoveRejected(prog: Program, v: View, b: SmallestBlock, key: Key)
    requires key.1 < |prog.ins| && |b.addr| == 4
    ensures b.addr[2] >= b.addr[3] ==> GroupMove(prog, v, b, key).None?
  {
  }

  /** Grouping as a whole: at the end every accessed or declared range lies in a
      single group, and so do the two ranges of a move together. */
  lemma {:induction false} GroupTraceGroups(prog: Program, trace: seq<SmallestBlock>, i: nat)
    requires GroupableTrace(prog, trace) && i <= |trace|
    ensures var r := GroupTrace(prog, trace, i);
            && (r.Some? ==> Live(r.value) && forall j :: i <= j < |trace| ==> BlockGrouped(r.value, trace[j]))
            && ((forall j :: i <= j < |trace| ==> trace[j].isFirst != 1) ==>
                  (r.Some? <==> forall j :: i <= j < |trace| ==> !Rejected(trace[j])))
    decreases |trace| - i
  {
    hide Live, Coarser, GroupBlock, BlockGrouped, Rejected;
    if i == |trace| {
      NoneLive();
    } else {
      GroupTraceGroups(prog, trace, i + 1);
      var v := GroupTrace(prog, trace, i + 1);
      if v.Some? {
        GroupBlockKeeps(prog, v.value, trace[i]);
        var r := GroupBlock(prog, v.value, trace[i]);
        if r.Some? {
          forall j | i <= j < |trace| ensures BlockGrouped(r.value, trace[j]) {
            if j != i { GroupedStays(v.value, r.value, trace[j]); }
          }
        }
      }
    }
  }

  lemma {:induction false} NoneLive()
    ensures Live(NO_GROUPS)
  {
  }
}
