/** The grouping pass of tools/PrintBug/GroupMemory.cpp: blocks are taken last to
    first, and groups merged in two pairs of inverse indexes updated in place. It
    computes what module Grouping says. A method that answers false stands for an
    index out of range or the use of a deleted group. */
module GroupMemory {
  import opened Common
  import opened Grouping
  import opened AddressIndexes

  // --------------------------------------------------- variables and groups

  function Members(group2Ins: map<int, set<Key>>, g: int): set<Key> {
    if g in group2Ins then group2Ins[g] else {}
  }

  /** The two indexes of variables are inverse to each other. */
  ghost predicate VarInverse(ins2Group: map<Key, int>, group2Ins: map<int, set<Key>>) {
    forall g, k :: k in Members(group2Ins, g) <==> k in ins2Group && ins2Group[k] == g
  }

  class VariableIndex {
    var ins2Group: map<Key, int>
    var group2Ins: map<int, set<Key>>

    ghost predicate Valid()
      reads this
    {
      VarInverse(ins2Group, group2Ins)
    }

    constructor ()
      ensures Valid() && ins2Group == map[]
    {
      ins2Group, group2Ins := map[], map[];
    }

    method Forget(key: Key)
      requires Valid()
      modifies this
      ensures Valid() && ins2Group == old(ins2Group) - {key}
    {
      if key in ins2Group {
        var g := ins2Group[key];
        ForgetInverse(ins2Group, group2Ins, key, g);
        group2Ins := group2Ins[g := Members(group2Ins, g) - {key}];
        ins2Group := ins2Group - {key};
      }
    }

    /** Let a variable point into group g. It has no group yet, or that one. */
    method Assign(key: Key, g: int)
      requires Valid() && (key in ins2Group ==> ins2Group[key] == g)
      modifies this
      ensures Valid() && ins2Group == old(ins2Group)[key := g]
    {
      AssignInverse(ins2Group, group2Ins, key, g);
      ins2Group := ins2Group[key := g];
      group2Ins := group2Ins[g := Members(group2Ins, g) + {key}];
    }

    /** Give the variables of group i to group m. */
    method Move(i: int, m: int)
      requires Valid() && i != m
      modifies this
      ensures Valid() && ins2Group == map k | k in old(ins2Group) :: Moved({i}, m, old(ins2Group)[k])
    {
      MoveInverse(ins2Group, group2Ins, i, m);
      ins2Group := ins2Group + map k | k in Members(group2Ins, i) :: m;
      group2Ins := group2Ins[m := Members(group2Ins, m) + Members(group2Ins, i)] - {i};
    }

    /** Give the variables of all groups to group m, one of them. */
    method MoveAll(groups: set<int>, m: int)
      requires Valid() && m in groups
      modifies this
      ensures Valid() && ins2Group == map k | k in old(ins2Group) :: Moved(groups, m, old(ins2Group)[k])
    {
      var rest := groups;
      while rest != {}
        invariant Valid() && rest <= groups
        invariant ins2Group == map k | k in old(ins2Group) :: Moved(groups - rest, m, old(ins2Group)[k])
        decreases |rest|
      {
        var i := LeastOf(rest);
        if i != m { Move(i, m); }
        assert rest == (rest - {i}) + {i};
        assert groups - (rest - {i}) == (groups - rest) + {i};
        rest := rest - {i};
      }
      assert groups - rest == groups;
    }
  }

  lemma {:induction false} ForgetInverse(ins2Group: map<Key, int>, group2Ins: map<int, set<Key>>, key: Key, g: int)
    requires VarInverse(ins2Group, group2Ins) && key in ins2Group && ins2Group[key] == g
    ensures VarInverse(ins2Group - {key}, group2Ins[g := Members(group2Ins, g) - {key}])
  {
    var group2Ins' := group2Ins[g := Members(group2Ins, g) - {key}];
    forall h, k ensures k in Members(group2Ins', h) <==> k in ins2Group - {key} && (ins2Group - {key})[k] == h {
      assert k in Members(group2Ins, h) <==> k in ins2Group && ins2Group[k] == h;
    }
  }

  lemma {:induction false} AssignInverse(ins2Group: map<Key, int>, group2Ins: map<int, set<Key>>, key: Key, g: int)
    requires VarInverse(ins2Group, group2Ins) && (key in ins2Group ==> ins2Group[key] == g)
    ensures VarInverse(ins2Group[key := g], group2Ins[g := Members(group2Ins, g) + {key}])
  {
    var group2Ins' := group2Ins[g := Members(group2Ins, g) + {key}];
    forall h, k ensures k in Members(group2Ins', h) <==> k in ins2Group[key := g] && ins2Group[key := g][k] == h {
      assert k in Members(group2Ins, h) <==> k in ins2Group && ins2Group[k] == h;
    }
  }

  lemma {:induction false} MoveInverse(ins2Group: map<Key, int>, group2Ins: map<int, set<Key>>, i: int, m: int)
    requires VarInverse(ins2Group, group2Ins) && i != m
    ensures var ins2Group' := ins2Group + map k | k in Members(group2Ins, i) :: m;
            && VarInverse(ins2Group', group2Ins[m := Members(group2Ins, m) + Members(group2Ins, i)] - {i})
            && ins2Group' == map k | k in ins2Group :: Moved({i}, m, ins2Group[k])
  {
    var ins2Group' := ins2Group + map k | k in Members(group2Ins, i) :: m;
    var group2Ins' := group2Ins[m := Members(group2Ins, m) + Members(group2Ins, i)] - {i};
    forall k ensures k in ins2Group' <==> k in ins2Group {
      assert k in Members(group2Ins, i) <==> k in ins2Group && ins2Group[k] == i;
    }
    forall h, k ensures k in Members(group2Ins', h) <==> k in ins2Group' && ins2Group'[k] == h {
      assert k in Members(group2Ins, h) <==> k in ins2Group && ins2Group[k] == h;
      assert k in Members(group2Ins, i) <==> k in ins2Group && ins2Group[k] == i;
    }
  }

  // ------------------------------------------------------------------ the pass

  class Pass {
    const prog: Program
    const addrs: AddressIndex
    const vars: VariableIndex
    var maxGroupID: int
    var labeledArgs: map<Tid, set<nat>>

    ghost predicate Valid()
      reads this, vars, addrs, addrs.Repr
    {
      && addrs.Valid() && vars.Valid() && this !in addrs.Repr && vars !in addrs.Repr
      && Live(Now())
    }

    /** The groups as they are now. */
    ghost function Now(): View
      reads this, vars, addrs
    {
      View(maxGroupID, vars.ins2Group, addrs.owner, addrs.group2Addr.Keys, labeledArgs)
    }

    constructor (prog: Program)
      ensures this.prog == prog && Valid() && Now() == NO_GROUPS && fresh(addrs) && fresh(vars) && fresh(addrs.Repr)
    {
      this.prog := prog;
      addrs := new AddressIndex();
      vars := new VariableIndex();
      maxGroupID, labeledArgs := 0, map[];
    }

    // ------------------------------------------------------------- merging

    method NewGroup() returns (g: int)
      requires Valid()
      modifies this, vars, addrs, addrs.Repr
      ensures Valid() && fresh(addrs.Repr - old(addrs.Repr))
      ensures (Now(), g) == Grouping.Merge(old(Now()), {})
    {
      hide AddressIndex.Valid, VariableIndex.Valid;
      MergeMerges(Now(), {});
      maxGroupID := maxGroupID + 1;
      g := maxGroupID;
      addrs.Create(g);
    }

    /** Merge several groups into one; none at all make a new one. */
    method Merge(groups: set<int>) returns (m: int)
      requires Valid() && groups <= Now().live
      modifies this, vars, addrs, addrs.Repr
      ensures Valid() && fresh(addrs.Repr - old(addrs.Repr))
      ensures (Now(), m) == Grouping.Merge(old(Now()), groups)
    {
      hide AddressIndex.Valid, VariableIndex.Valid;
      MergeMerges(Now(), groups);
      if groups == {} {
        m := NewGroup();
      } else {
        m := LeastOf(groups);
        if |groups| == 1 {
          MergeOne(Now(), groups, m);
        } else {
          addrs.Absorb(groups, m);
          vars.MoveAll(groups, m);
        }
      }
    }

    // -------------------------------------------------------- instructions

    /** The groups the result and the pointer operands of an instruction point into. */
    method OperandGroups(key: Key) returns (groups: set<int>)
      requires key.1 < |prog.ins|
      ensures groups == GroupsOf(vars.ins2Group, [key] + DepKeys(prog, key.0, prog.ins[key.1].ssa))
    {
      var ssa := prog.ins[key.1].ssa;
      groups := if key in vars.ins2Group then {vars.ins2Group[key]} else {};
      ghost var done := [key];
      assert ssa[0..] == ssa;
      var n := 0;
      while n < |ssa|
        invariant 0 <= n <= |ssa|
        invariant [key] + DepKeys(prog, key.0, ssa) == done + DepKeys(prog, key.0, ssa[n..])
        invariant groups == GroupsOf(vars.ins2Group, done)
      {
        assert ssa[n..][1..] == ssa[n + 1..];
        if PointerDep(prog, ssa[n]) {
          var dep := DepKey(prog, key.0, ssa[n]);
          if dep in vars.ins2Group { groups := groups + {vars.ins2Group[dep]}; }
          MoreGroups(vars.ins2Group, done, dep);
          assert done + ([dep] + DepKeys(prog, key.0, ssa[n + 1..]))
                 == (done + [dep]) + DepKeys(prog, key.0, ssa[n + 1..]);
          done := done + [dep];
        }
        n := n + 1;
      }
      assert done + [] == done;
    }

    method LabelOperand(tid: Tid, dep: (DepType, nat), m: int)
      requires vars.Valid() && PointerDep(prog, dep)
      requires var k := DepKey(prog, tid, dep); k in vars.ins2Group ==> vars.ins2Group[k] == m
      modifies this`labeledArgs, vars
      ensures vars.Valid() && vars.ins2Group == old(vars.ins2Group)[DepKey(prog, tid, dep) := m]
      ensures labeledArgs == AddLabel(prog, old(labeledArgs), tid, dep)
    {
      var k := DepKey(prog, tid, dep);
      if dep.0 == PointerArg {
        labeledArgs := labeledArgs[tid := (if tid in labeledArgs then labeledArgs[tid] else {}) + {k.1}];
      }
      vars.Assign(k, m);
    }

    /** Let the pointer operands of an instruction point into group m. */
    method LabelOperands(key: Key, m: int)
      requires key.1 < |prog.ins| && vars.Valid()
      requires forall k :: k in DepKeys(prog, key.0, prog.ins[key.1].ssa) && k in vars.ins2Group ==>
                 vars.ins2Group[k] == m
      modifies this`labeledArgs, vars
      ensures vars.Valid()
      ensures var ssa := prog.ins[key.1].ssa;
              && vars.ins2Group == Grouping.Assign(old(vars.ins2Group), DepKeys(prog, key.0, ssa), m)
              && labeledArgs == Labeled(old(labeledArgs), key.0, ArgKeys(prog, ssa))
    {
      hide GroupsOf, Labeled, Grouping.Assign, ArgKeys;
      var ssa := prog.ins[key.1].ssa;
      ghost var done: seq<Key> := [];
      ghost var before := vars.ins2Group;
      assert ssa[0..] == ssa && ssa[..0] == [];
      NothingLabeled(prog, before, m, labeledArgs, key.0);
      var n := 0;
      while n < |ssa|
        invariant 0 <= n <= |ssa| && vars.Valid()
        invariant DepKeys(prog, key.0, ssa) == done + DepKeys(prog, key.0, ssa[n..])
        invariant vars.ins2Group == Grouping.Assign(before, done, m)
        invariant labeledArgs == Labeled(old(labeledArgs), key.0, ArgKeys(prog, ssa[..n]))
      {
        assert ssa[n..][1..] == ssa[n + 1..];
        assert ssa[..n + 1] == ssa[..n] + [ssa[n]];
        MoreArgs(prog, ssa[..n], ssa[n], old(labeledArgs), key.0);
        if PointerDep(prog, ssa[n]) {
          ghost var dep := DepKey(prog, key.0, ssa[n]);
          assert DepKeys(prog, key.0, ssa[n..])[0] == dep;
          AssignMore(before, done, dep, m);
          assert dep in done + DepKeys(prog, key.0, ssa[n..]);
          AssignSame(before, done, dep, m);
          LabelOperand(key.0, ssa[n], m);
          assert done + ([dep] + DepKeys(prog, key.0, ssa[n + 1..]))
                 == (done + [dep]) + DepKeys(prog, key.0, ssa[n + 1..]);
          done := done + [dep];
        }
        n := n + 1;
      }
      assert done + [] == done && ssa[..n] == ssa;
    }

    method MergeOperands(groups: set<int>, key: Key) returns (m: int)
      requires Valid() && groups <= Now().live && key.1 < |prog.ins|
      modifies this, vars, addrs, addrs.Repr
      ensures Valid() && fresh(addrs.Repr - old(addrs.Repr))
      ensures (Now(), m) == Grouping.MergeOperands(prog, old(Now()), groups, key)
    {
      hide AddressIndex.Valid, VariableIndex.Valid, Live, GroupsOf, DepKeys, ArgKeys, Grouping.Merge;
      ghost var v := Now();
      MergeOperandsKeeps(prog, v, groups, key);
      OperandsLive(prog, v, groups, key);
      var operands := OperandGroups(key);
      m := Merge(groups + operands);
      vars.Forget(key);
      LabelOperands(key, m);
    }

    // ----------------------------------------------------------- arguments

    /** Pass argument i to the caller. */
    method PassArgument(b: SmallestBlock, i: nat) returns (ok: bool)
      requires Valid()
      modifies this, vars, addrs, addrs.Repr
      ensures fresh(addrs.Repr - old(addrs.Repr))
      ensures var v := Grouping.PassArgument(prog, b, old(Now()), i);
              ok == v.Some? && (ok ==> Valid() && Now() == v.value)
    {
      hide AddressIndex.Valid, VariableIndex.Valid, Live, Grouping.Merge;
      PassArgumentKeeps(prog, b, Now(), i);
      var key := (b.tid, i);
      if key !in vars.ins2Group { return true; }
      var g := vars.ins2Group[key];
      GroupLive(Now(), key);
      ForgetLive(Now(), key);
      vars.Forget(key);
      if b.isFirst != 1 || b.caller.None? { return true; }
      if b.caller.value >= |prog.ins| || i < |prog.ins| { return false; }
      var ssa := prog.ins[b.caller.value].ssa;
      if i - |prog.ins| >= |ssa| { return false; }
      var dep := ssa[i - |prog.ins|];
      if PointerDep(prog, dep) { PassTo(b.tid, dep, g); }
      return true;
    }

    /** ... to the variable `dep` of the caller. */
    method PassTo(tid: Tid, dep: (DepType, nat), g: int)
      requires Valid() && g in Now().live
      modifies this, vars, addrs, addrs.Repr
      ensures Valid() && fresh(addrs.Repr - old(addrs.Repr))
      ensures Now() == PassedTo(prog, old(Now()), tid, dep, g)
    {
      hide AddressIndex.Valid, VariableIndex.Valid, Grouping.Merge, JoinedTo;
      var key := DepKey(prog, tid, dep);
      if dep.0 == PointerArg {
        labeledArgs := labeledArgs[tid := (if tid in labeledArgs then labeledArgs[tid] else {}) + {key.1}];
      }
      JoinVariable(key, g);
    }

    /** Let a variable point into group g, merged with the group it has. */
    method JoinVariable(key: Key, g: int)
      requires Valid() && g in Now().live
      modifies this, vars, addrs, addrs.Repr
      ensures Valid() && fresh(addrs.Repr - old(addrs.Repr))
      ensures Now() == JoinedTo(old(Now()), key, g)
    {
      hide AddressIndex.Valid, VariableIndex.Valid, Grouping.Merge, Live;
      ghost var v := Now();
      JoinLive(v, key, g);
      var g' := g;
      if key in vars.ins2Group {
        g' := Merge({g, vars.ins2Group[key]});
      }
      vars.Assign(key, g');
    }

    /** Pass the labeled arguments to the caller, in order. */
    method PassArguments(b: SmallestBlock, args: set<nat>) returns (ok: bool)
      requires Valid()
      modifies this, vars, addrs, addrs.Repr
      ensures fresh(addrs.Repr - old(addrs.Repr))
      ensures var v := Grouping.PassArguments(prog, b, old(Now()), Sorted(args));
              ok == v.Some? && (ok ==> Valid() && Now() == v.value)
    {
      hide AddressIndex.Valid, VariableIndex.Valid, Live, Grouping.PassArgument, Grouping.PassArguments, Sorted,
           Smallest;
      var rest := args;
      ghost var all := Grouping.PassArguments(prog, b, Now(), Sorted(args));
      while rest != {}
        invariant Valid() && fresh(addrs.Repr - old(addrs.Repr))
        invariant all == Grouping.PassArguments(prog, b, Now(), Sorted(rest))
        decreases |rest|
      {
        var i := LeastOf(rest);
        SortedStep(prog, b, Now(), rest);
        ok := PassArgument(b, i);
        if !ok { return; }
        rest := rest - {i};
      }
      ok := true;
      SortedNone(prog, b, Now());
    }

    method MergeInst(groups: set<int>, key: Key, b: SmallestBlock) returns (ok: bool, m: int)
      requires Valid() && groups <= Now().live && key.1 < |prog.ins|
      modifies this, vars, addrs, addrs.Repr
      ensures fresh(addrs.Repr - old(addrs.Repr))
      ensures var r := Grouping.MergeInst(prog, old(Now()), groups, key, b);
              ok == r.Some? && (ok ==> Valid() && (Now(), m) == r.value)
    {
      hide AddressIndex.Valid, VariableIndex.Valid, Grouping.MergeOperands, Grouping.PassArguments, Sorted;
      m := MergeOperands(groups, key);
      ok := true;
      if b.isFirst == 1 || b.isFirst == 2 {
        var args := if b.tid in labeledArgs then labeledArgs[b.tid] else {};
        labeledArgs := labeledArgs[b.tid := {}];
        ok := PassArguments(b, args);
      }
    }

    // -------------------------------------------------------------- blocks

    /** Give all gaps to group m. */
    method FillGaps(l: uint64, r: uint64, gaps: seq<(uint64, uint64)>, m: int)
      requires Valid() && m in Now().live
      requires forall k :: 0 <= k < |gaps| ==> l <= gaps[k].0 < gaps[k].1 <= r
      requires forall x :: l <= x < r && x !in Now().owner ==> InGaps(gaps, x)
      requires forall x :: InGaps(gaps, x) && x in Now().owner ==> Now().owner[x] == m
      modifies this, vars, addrs, addrs.Repr
      ensures Valid() && fresh(addrs.Repr - old(addrs.Repr))
      ensures Now() == Fill(old(Now()), l, r, m)
    {
      hide AddressIndex.Valid, VariableIndex.Valid, Live, InGaps;
      ghost var v := Now();
      FillLive(v, l, r, m);
      var n := 0;
      assert gaps[..0] == [];
      NothingFilled(v.owner, m);
      while n < |gaps|
        invariant 0 <= n <= |gaps|
        invariant addrs.Valid() && fresh(addrs.Repr - old(addrs.Repr)) && this !in addrs.Repr && vars !in addrs.Repr
        invariant vars.Valid() && Now() == v.(owner := Filled(v.owner, gaps[..n], m))
      {
        var gap := gaps[n];
        assert gaps[..n + 1] == gaps[..n] + [gap];
        FillMore(v.owner, l, r, gaps, n, m);
        addrs.Claim(gap.0, gap.1, m);
        n := n + 1;
      }
      assert gaps[..n] == gaps;
      AllFilled(v, l, r, gaps, m);
    }

    /** All addresses of the range belong to one group, with the operands. */
    method GroupRange(b: SmallestBlock, key: Key) returns (ok: bool)
      requires Valid() && key.1 < |prog.ins| && |b.addr| == 2 && b.addr[0] < b.addr[1]
      modifies this, vars, addrs, addrs.Repr
      ensures fresh(addrs.Repr - old(addrs.Repr))
      ensures var v := Grouping.GroupRange(prog, old(Now()), b, key);
              ok == v.Some? && (ok ==> Valid() && Now() == v.value)
    {
      hide AddressIndex.Valid, VariableIndex.Valid, Live, Grouping.MergeInst, Gap, GroupsIn, Surveyed, Fill, Gathered,
           Coarser;
      var groups, gaps := addrs.Survey(b.addr[0], b.addr[1]);
      SurveyMeans(Now(), b.addr[0], b.addr[1], groups, gaps);
      MergeInstKeeps(prog, Now(), groups, key, b);
      var m;
      ok, m := MergeInst(groups, key, b);
      if ok && gaps != [] {
        if m !in addrs.group2Addr { return false; }
        FillGaps(b.addr[0], b.addr[1], gaps, m);
      }
    }

    /** ... and so do those of the range moved from. */
    method GroupMove(b: SmallestBlock, key: Key) returns (ok: bool)
      requires Valid() && key.1 < |prog.ins| && |b.addr| == 4 && b.addr[0] < b.addr[1]
      modifies this, vars, addrs, addrs.Repr
      ensures fresh(addrs.Repr - old(addrs.Repr))
      ensures var v := Grouping.GroupMove(prog, old(Now()), b, key);
              ok == v.Some? && (ok ==> Valid() && Now() == v.value)
    {
      hide AddressIndex.Valid, VariableIndex.Valid, Live, Grouping.MergeInst, Gap, GroupsIn, Surveyed, Fill, Gathered,
           Coarser;
      if b.addr[2] >= b.addr[3] { return false; }
      var groups, gaps := addrs.Survey(b.addr[0], b.addr[1]);
      SurveyMeans(Now(), b.addr[0], b.addr[1], groups, gaps);
      var groups2, gaps2 := addrs.Survey(b.addr[2], b.addr[3]);
      SurveyMeans(Now(), b.addr[2], b.addr[3], groups2, gaps2);
      MergeInstKeeps(prog, Now(), groups + groups2, key, b);
      var m;
      ok, m := MergeInst(groups + groups2, key, b);
      if ok && (gaps != [] || gaps2 != []) {
        if m !in addrs.group2Addr { return false; }
        FillBoth(b.addr, gaps, gaps2, m);
      }
    }

    /** Fill both ranges of a move, which may overlap. */
    method FillBoth(addr: seq<uint64>, gaps: seq<(uint64, uint64)>, gaps2: seq<(uint64, uint64)>, m: int)
      requires Valid() && m in Now().live && |addr| == 4
      requires forall k :: 0 <= k < |gaps| ==> addr[0] <= gaps[k].0 < gaps[k].1 <= addr[1]
      requires forall k :: 0 <= k < |gaps2| ==> addr[2] <= gaps2[k].0 < gaps2[k].1 <= addr[3]
      requires forall x :: addr[0] <= x < addr[1] && x !in Now().owner ==> InGaps(gaps, x)
      requires forall x :: InGaps(gaps, x) && x in Now().owner ==> Now().owner[x] == m
      requires forall x :: addr[2] <= x < addr[3] ==> (x !in Now().owner <==> InGaps(gaps2, x))
      modifies this, vars, addrs, addrs.Repr
      ensures Valid() && fresh(addrs.Repr - old(addrs.Repr))
      ensures Now() == Fill(Fill(old(Now()), addr[0], addr[1], m), addr[2], addr[3], m)
    {
      hide AddressIndex.Valid, VariableIndex.Valid, Live, Fill, InGaps;
      ghost var v := Now();
      FillGaps(addr[0], addr[1], gaps, m);
      FillSecond(v, addr[0], addr[1], addr[2], addr[3], gaps2, m);
      FillGaps(addr[2], addr[3], gaps2, m);
    }

    method GroupDeclared(b: SmallestBlock) returns (ok: bool)
      requires Valid() && |b.addr| == 2
      modifies this, vars, addrs, addrs.Repr
      ensures fresh(addrs.Repr - old(addrs.Repr))
      ensures var v := Grouping.GroupDeclared(old(Now()), b);
              ok == v.Some? && (ok ==> Valid() && Now() == v.value)
    {
      hide AddressIndex.Valid, VariableIndex.Valid, Live, Gap, GroupsIn, Surveyed, Fill, Grouping.Merge, Steady;
      if b.addr[0] >= b.addr[1] { return false; }
      var groups, gaps := addrs.Survey(b.addr[0], b.addr[1]);
      SurveyMeans(Now(), b.addr[0], b.addr[1], groups, gaps);
      MergeMerges(Now(), groups);
      var m := Merge(groups);
      FillGaps(b.addr[0], b.addr[1], gaps, m);
      ok := true;
    }

    /** An argument of an external call that has no group gets a new one. */
    method GroupArgument(x: uint64)
      requires Valid()
      modifies this, vars, addrs, addrs.Repr
      ensures Valid() && fresh(addrs.Repr - old(addrs.Repr))
      ensures Now() == Grouping.GroupArgument(old(Now()), x)
    {
      hide AddressIndex.Valid, VariableIndex.Valid, Live, Claimed;
      ghost var v := Now();
      var g := addrs.Lookup(x);
      ArgumentLive(v, x);
      if g.None? {
        var m := NewGroup();
        if x < MAX_RANGE {
          ClaimOne(v.owner, x, m);
          addrs.Claim(x, x + 1, m);
        }
      }
    }

    method GroupArguments(b: SmallestBlock)
      requires Valid()
      modifies this, vars, addrs, addrs.Repr
      ensures Valid() && fresh(addrs.Repr - old(addrs.Repr))
      ensures Now() == Grouping.GroupArguments(old(Now()), if |b.addr| > 0 then b.addr[1..] else [])
    {
      hide AddressIndex.Valid, VariableIndex.Valid, Live, Grouping.GroupArgument;
      var n := 1;
      while n < |b.addr|
        invariant 1 <= n && (n <= |b.addr| || n == 1)
        invariant Valid() && fresh(addrs.Repr - old(addrs.Repr))
        invariant Grouping.GroupArguments(old(Now()), if |b.addr| > 0 then b.addr[1..] else [])
                  == Grouping.GroupArguments(Now(), if n <= |b.addr| then b.addr[n..] else [])
      {
        assert b.addr[n..][1..] == b.addr[n + 1..];
        GroupArgument(b.addr[n]);
        n := n + 1;
      }
      assert n == |b.addr| ==> b.addr[n..] == [];
    }

    /** The pointers a normal block computes, last instruction first. */
    method GroupInstructions(b: SmallestBlock) returns (ok: bool)
      requires Valid() && b.typ == NormalBlock && Groupable(prog, b)
      modifies this, vars, addrs, addrs.Repr
      ensures fresh(addrs.Repr - old(addrs.Repr))
      ensures var v := Grouping.GroupInstructions(prog, old(Now()), b, prog.bb2ins[b.bb][b.start..b.end]);
              ok == v.Some? && (ok ==> Valid() && Now() == v.value)
    {
      hide AddressIndex.Valid, VariableIndex.Valid, Live, Grouping.MergeInst;
      var ids := prog.bb2ins[b.bb][b.start..b.end];
      var n := |ids|;
      assert ids[..n] == ids;
      while n > 0
        invariant 0 <= n <= |ids|
        invariant Valid() && fresh(addrs.Repr - old(addrs.Repr))
        invariant Grouping.GroupInstructions(prog, old(Now()), b, ids)
                  == Grouping.GroupInstructions(prog, Now(), b, ids[..n])
      {
        n := n - 1;
        assert ids[..n + 1][..n] == ids[..n];
        if Grouped(prog.ins[ids[n]]) {
          var m;
          ok, m := MergeInst({}, (b.tid, ids[n]), b);
          if !ok { return; }
        }
      }
      ok := true;
    }

    method GroupBlock(b: SmallestBlock) returns (ok: bool)
      requires Valid() && Groupable(prog, b)
      modifies this, vars, addrs, addrs.Repr
      ensures fresh(addrs.Repr - old(addrs.Repr))
      ensures var v := Grouping.GroupBlock(prog, old(Now()), b);
              ok == v.Some? && (ok ==> Valid() && Now() == v.value)
    {
      hide Valid, Now, Grouping.GroupInstructions, Grouping.GroupDeclared, Grouping.GroupArguments, Grouping.GroupMove,
           Grouping.GroupRange;
      ok := true;
      if b.typ == NormalBlock {
        ok := GroupInstructions(b);
      } else if b.typ == DeclareBlock {
        ok := GroupDeclared(b);
      } else if b.typ == ExternalCallBlock || b.typ == ImpactfulCallBlock {
        GroupArguments(b);
      } else if b.addr[0] < b.addr[1] {
        var key := (b.tid, prog.bb2ins[b.bb][b.start]);
        if b.typ == MemmoveBlock { ok := GroupMove(b, key); } else { ok := GroupRange(b, key); }
      }
    }

    /** The whole pass over the block trace. */
    method GroupMemory(trace: seq<SmallestBlock>) returns (ok: bool)
      requires Valid() && Now() == NO_GROUPS && Grouping.GroupableTrace(prog, trace)
      modifies this, vars, addrs, addrs.Repr
      ensures fresh(addrs.Repr - old(addrs.Repr))
      ensures var v := GroupTrace(prog, trace, 0);
              ok == v.Some? && (ok ==> Valid() && Now() == v.value)
    {
      hide Valid, Now, Grouping.GroupBlock;
      var n := |trace|;
      while n > 0
        invariant 0 <= n <= |trace|
        invariant Valid() && fresh(addrs.Repr - old(addrs.Repr))
        invariant GroupTrace(prog, trace, n) == Some(Now())
      {
        n := n - 1;
        ok := GroupBlock(trace[n]);
        if !ok {
          GroupTraceFails(prog, trace, n);
          return;
        }
      }
      ok := true;
    }
  }

  /** Merging a single group changes nothing. */
  lemma {:induction false} MergeOne(v: View, groups: set<int>, m: int)
    requires |groups| == 1 && m in groups && groups <= v.live
    ensures Grouping.Merge(v, groups) == (v, m)
  {
    OneElement(groups, m);
    var v' := Grouping.Merge(v, groups).0;
    assert v'.vars == v.vars && v'.owner == v.owner && v'.live == v.live;
  }

  lemma {:induction false} OneElement(s: set<int>, m: int)
    requires |s| == 1 && m in s
    ensures s == {m}
  {
    assert |s - {m}| == 0;
    assert s == (s - {m}) + {m};
  }

  lemma {:induction false} MoreGroups(ins2Group: map<Key, int>, keys: seq<Key>, key: Key)
    ensures GroupsOf(ins2Group, keys + [key])
            == GroupsOf(ins2Group, keys) + if key in ins2Group then {ins2Group[key]} else {}
  {
    forall k | k in keys + [key] ensures k in keys || k == key { }
    if key in ins2Group { assert key in keys + [key]; }
  }

  function Labeled(labeled: map<Tid, set<nat>>, tid: Tid, args: set<nat>): map<Tid, set<nat>> {
    if args == {} then labeled else labeled[tid := (if tid in labeled then labeled[tid] else {}) + args]
  }

  lemma {:induction false} MoreArgs(prog: Program, ssa: seq<(DepType, nat)>, dep: (DepType, nat),
                                    labeled: map<Tid, set<nat>>, tid: Tid)
    ensures Labeled(labeled, tid, ArgKeys(prog, ssa + [dep]))
            == AddLabel(prog, Labeled(labeled, tid, ArgKeys(prog, ssa)), tid, dep)
  {
    var all := ssa + [dep];
    assert dep in all;
    assert forall d :: d in all <==> d in ssa || d == dep;
    var args := ArgKeys(prog, ssa);
    var prior := if tid in labeled then labeled[tid] else {};
    if dep.0 == PointerArg {
      var d := {dep.1 + |prog.ins|};
      assert ArgKeys(prog, all) == args + d;
      assert (prior + args) + d == prior + (args + d);
      if args == {} { assert args + d == d; }
      assert labeled[tid := prior + args][tid := (prior + args) + d] == labeled[tid := prior + (args + d)];
    } else {
      assert ArgKeys(prog, all) == args;
    }
  }

  function AddLabel(prog: Program, labeled: map<Tid, set<nat>>, tid: Tid, dep: (DepType, nat)): map<Tid, set<nat>> {
    if dep.0 == PointerArg then labeled[tid := (if tid in labeled then labeled[tid] else {}) + {dep.1 + |prog.ins|}]
    else labeled
  }

  lemma {:induction false} AssignMore(vars: map<Key, int>, keys: seq<Key>, key: Key, m: int)
    ensures Assign(vars, keys, m)[key := m] == Assign(vars, keys + [key], m)
  {
    assert key in keys + [key];
    assert forall k :: k in keys + [key] <==> k in keys || k == key;
  }

  lemma {:induction false} AssignSame(vars: map<Key, int>, keys: seq<Key>, key: Key, m: int)
    requires key in vars ==> vars[key] == m
    ensures var vars' := Assign(vars, keys, m); key in vars' ==> vars'[key] == m
  {
  }

  lemma {:induction false} NothingLabeled(prog: Program, vars: map<Key, int>, m: int, labeled: map<Tid, set<nat>>,
                                          tid: Tid)
    ensures Assign(vars, [], m) == vars && Labeled(labeled, tid, ArgKeys(prog, [])) == labeled
  {
  }

  /** What MergeOperands needs of the groups it merges, and leaves of the variables. */
  lemma {:induction false} OperandsLive(prog: Program, v: View, groups: set<int>, key: Key)
    requires key.1 < |prog.ins| && Live(v) && groups <= v.live
    ensures var keys := DepKeys(prog, key.0, prog.ins[key.1].ssa);
            var all := groups + GroupsOf(v.vars, [key] + keys);
            var (v', m) := Grouping.Merge(v, all);
            && all <= v.live
            && forall k :: k in keys && k in v'.vars ==> v'.vars[k] == m
  {
    var keys := DepKeys(prog, key.0, prog.ins[key.1].ssa);
    var all := groups + GroupsOf(v.vars, [key] + keys);
    MergeMerges(v, all);
    forall k | k in keys && k in v.vars ensures v.vars[k] in all { assert k in [key] + keys; }
  }

  lemma {:induction false} GroupLive(v: View, key: Key)
    requires Live(v) && key in v.vars
    ensures v.vars[key] in v.live
  {
  }

  ghost function JoinedTo(v: View, key: Key, g: int): View {
    var (v', g') := if key in v.vars then Grouping.Merge(v, {g, v.vars[key]}) else (v, g);
    v'.(vars := v'.vars[key := g'])
  }

  lemma {:induction false} JoinLive(v: View, key: Key, g: int)
    requires Live(v) && g in v.live
    ensures Live(JoinedTo(v, key, g))
    ensures key in v.vars ==>
              var (v', g') := Grouping.Merge(v, {g, v.vars[key]});
              {g, v.vars[key]} <= v.live && key in v'.vars && v'.vars[key] == g'
  {
    hide Grouping.Merge;
    if key in v.vars { MergeMerges(v, {g, v.vars[key]}); }
  }

  lemma {:induction false} ForgetLive(v: View, key: Key)
    requires Live(v)
    ensures Live(v.(vars := v.vars - {key}))
  {
  }

  ghost function PassedTo(prog: Program, v: View, tid: Tid, dep: (DepType, nat), g: int): View {
    var key := DepKey(prog, tid, dep);
    JoinedTo(if dep.0 == PointerArg then v.(labeled := v.labeled[tid := LabeledOf(v, tid) + {key.1}]) else v, key, g)
  }

  lemma {:induction false} SortedStep(prog: Program, b: SmallestBlock, v: View, rest: set<nat>)
    requires rest != {}
    ensures var i := Smallest(rest);
            var r := Grouping.PassArgument(prog, b, v, i);
            && i in rest && |rest - {i}| < |rest|
            && Grouping.PassArguments(prog, b, v, Sorted(rest))
               == if r.None? then None else Grouping.PassArguments(prog, b, r.value, Sorted(rest - {i}))
  {
    hide Grouping.PassArgument;
    var i := Smallest(rest);
    assert |rest - {i}| < |rest|;
    assert Sorted(rest) == [i] + Sorted(rest - {i});
    assert Sorted(rest)[1..] == Sorted(rest - {i});
  }

  lemma {:induction false} SortedNone(prog: Program, b: SmallestBlock, v: View)
    ensures Grouping.PassArguments(prog, b, v, Sorted({})) == Some(v)
  {
  }

  ghost function Filled(owner: imap<uint64, int>, gaps: seq<(uint64, uint64)>, m: int): imap<uint64, int> {
    imap x | x in owner || InGaps(gaps, x) :: if InGaps(gaps, x) then m else owner[x]
  }

  lemma {:induction false} NothingFilled(owner: imap<uint64, int>, m: int)
    ensures Filled(owner, [], m) == owner
  {
  }

  lemma {:induction false} FillMore(owner: imap<uint64, int>, l: uint64, r: uint64, gaps: seq<(uint64, uint64)>,
                                    n: nat, m: int)
    requires n < |gaps| && forall k :: 0 <= k < |gaps| ==> l <= gaps[k].0 < gaps[k].1 <= r
    requires forall x :: InGaps(gaps, x) && x in owner ==> owner[x] == m
    ensures var gap := gaps[n];
            var owner' := Filled(owner, gaps[..n], m);
            && (forall x :: gap.0 <= x < gap.1 && x in owner' ==> owner'[x] == m)
            && Claimed(owner', gap.0, gap.1, m) == Filled(owner, gaps[..n] + [gap], m)
  {
    var gap := gaps[n];
    forall x | gap.0 <= x < gap.1 ensures InGaps(gaps, x) { assert gaps[n].0 <= x < gaps[n].1; }
    forall x ensures InGaps(gaps[..n] + [gap], x) <==> InGaps(gaps[..n], x) || gap.0 <= x < gap.1 {
      MoreGaps(gaps[..n], gap, x);
    }
  }

  lemma {:induction false} AllFilled(v: View, l: uint64, r: uint64, gaps: seq<(uint64, uint64)>, m: int)
    requires forall k :: 0 <= k < |gaps| ==> l <= gaps[k].0 < gaps[k].1 <= r
    requires forall x :: l <= x < r && x !in v.owner ==> InGaps(gaps, x)
    requires forall x :: InGaps(gaps, x) && x in v.owner ==> v.owner[x] == m
    ensures v.(owner := Filled(v.owner, gaps, m)) == Fill(v, l, r, m)
  {
    forall x | InGaps(gaps, x) ensures l <= x < r {
      var k :| 0 <= k < |gaps| && gaps[k].0 <= x < gaps[k].1;
    }
    assert Filled(v.owner, gaps, m) == Fill(v, l, r, m).owner;
  }

  lemma {:induction false} FillLive(v: View, l: uint64, r: uint64, m: int)
    requires Live(v) && m in v.live
    ensures Live(Fill(v, l, r, m))
  {
    FillKeeps(v, l, r, m);
  }

  lemma {:induction false} SurveyMeans(v: View, l: uint64, r: uint64, groups: set<int>, gaps: seq<(uint64, uint64)>)
    requires Live(v) && Surveyed(v.owner, l, r, groups, gaps)
    ensures groups == GroupsIn(v, l, r) && groups <= v.live && (gaps != [] <==> Gap(v, l, r))
    ensures forall k :: 0 <= k < |gaps| ==> l <= gaps[k].0 < gaps[k].1 <= r
    ensures forall x :: l <= x < r ==> (x !in v.owner <==> InGaps(gaps, x))
  {
    if gaps != [] {
      assert InGaps(gaps, gaps[0].0);
    }
    forall g ensures g in groups <==> g in GroupsIn(v, l, r) {
      if g in groups {
        var x :| l <= x < r && x in v.owner && v.owner[x] == g;
        assert v.owner[x] in v.live;
      }
    }
  }

  /** The two ranges of a move may overlap: what the first has filled of the
      second belongs to m already. */
  lemma {:induction false} FillSecond(v: View, l: uint64, r: uint64, l2: uint64, r2: uint64,
                                      gaps: seq<(uint64, uint64)>, m: int)
    requires m in v.live
    requires forall x :: l2 <= x < r2 ==> (x !in v.owner <==> InGaps(gaps, x))
    requires forall k :: 0 <= k < |gaps| ==> l2 <= gaps[k].0 < gaps[k].1 <= r2
    ensures var v' := Fill(v, l, r, m);
            && m in v'.live
            && (forall x :: l2 <= x < r2 && x !in v'.owner ==> InGaps(gaps, x))
            && (forall x :: InGaps(gaps, x) && x in v'.owner ==> v'.owner[x] == m)
  {
    var v' := Fill(v, l, r, m);
    forall x | InGaps(gaps, x) && x in v'.owner ensures v'.owner[x] == m {
      var k :| 0 <= k < |gaps| && gaps[k].0 <= x < gaps[k].1;
      assert x !in v.owner;
    }
  }

  lemma {:induction false} ArgumentLive(v: View, x: uint64)
    requires Live(v)
    ensures Live(Grouping.GroupArgument(v, x))
  {
  }

  lemma {:induction false} GroupTraceFails(prog: Program, trace: seq<SmallestBlock>, n: nat)
    requires Grouping.GroupableTrace(prog, trace) && n <= |trace| && GroupTrace(prog, trace, n).None?
    ensures GroupTrace(prog, trace, 0).None?
    decreases n
  {
    if n > 0 { GroupTraceFails(prog, trace, n - 1); }
  }

  lemma {:induction false} ClaimOne(owner: imap<uint64, int>, x: uint64, m: int)
    requires x < MAX_RANGE
    ensures Claimed(owner, x, x + 1, m) == owner[x := m]
  {
  }
}
