/** Which addresses grouping puts together (tools/PrintBug/GroupMemory.cpp, lines 118-202):
    those that are accessed through pointers computed from one another. Operands and
    arguments are told here by the places they have in the program. */
module Pointers {
  import opened Common
  import opened Grouping
  import opened ArgumentPassing

  // ----------------------------------------------------------- pointer operands

  /** What the entry `dep` of an operand list names is the pointer variable `k` of thread `tid`: a
      pointer instruction, or an argument. */
  predicate Names(prog: Program, tid: Tid, dep: (DepType, nat), k: Key) {
    match dep.0
    case Inst => dep.1 < |prog.ins| && prog.ins[dep.1].isPointer && k == (tid, dep.1)
    case PointerArg => k == (tid, |prog.ins| + dep.1)
    case _ => false
  }

  /** Variable k is a pointer operand of instruction `key`. */
  ghost predicate Operand(prog: Program, key: Key, k: Key)
    requires key.1 < |prog.ins|
  {
    exists n :: 0 <= n < |prog.ins[key.1].ssa| && Names(prog, key.0, prog.ins[key.1].ssa[n], k)
  }

  /** The instruction touches group g: by an address, its result, or a pointer operand. */
  ghost predicate Touches(prog: Program, v: View, groups: set<int>, key: Key, g: int)
    requires key.1 < |prog.ins|
  {
    g in groups || exists k :: (k == key || Operand(prog, key, k)) && k in v.vars && v.vars[k] == g
  }

  ghost predicate Touched(prog: Program, v: View, groups: set<int>, key: Key, x: uint64)
    requires key.1 < |prog.ins|
  {
    x in v.owner && Touches(prog, v, groups, key, v.owner[x])
  }

  lemma {:induction false} DepKeysAre(prog: Program, tid: Tid, ssa: seq<(DepType, nat)>, k: Key)
    ensures k in DepKeys(prog, tid, ssa) <==> exists n :: 0 <= n < |ssa| && Names(prog, tid, ssa[n], k)
    decreases |ssa|
  {
    if ssa != [] {
      DepKeysAre(prog, tid, ssa[1..], k);
      if n :| 0 <= n < |ssa| && Names(prog, tid, ssa[n], k) {
        if n > 0 { assert ssa[1..][n - 1] == ssa[n]; }
      }
      if n :| 0 <= n < |ssa[1..]| && Names(prog, tid, ssa[1..][n], k) {
        var n' := n + 1;
        assert ssa[n'] == ssa[1..][n];
      }
    }
  }

  lemma {:induction false} OperandKey(prog: Program, key: Key, k: Key)
    requires key.1 < |prog.ins|
    ensures Operand(prog, key, k) <==> k in DepKeys(prog, key.0, prog.ins[key.1].ssa)
  {
    DepKeysAre(prog, key.0, prog.ins[key.1].ssa, k);
  }

  lemma {:induction false} ArgKeysAre(prog: Program, key: Key, i: nat)
    requires key.1 < |prog.ins|
    ensures i in ArgKeys(prog, prog.ins[key.1].ssa) <==> i >= |prog.ins| && Operand(prog, key, (key.0, i))
  {
    var ssa := prog.ins[key.1].ssa;
    if i in ArgKeys(prog, ssa) {
      var dep :| dep in ssa && dep.0 == PointerArg && dep.1 + |prog.ins| == i;
      var n :| 0 <= n < |ssa| && ssa[n] == dep;
      assert Names(prog, key.0, ssa[n], (key.0, i));
    }
    if i >= |prog.ins| && Operand(prog, key, (key.0, i)) {
      var n :| 0 <= n < |ssa| && Names(prog, key.0, ssa[n], (key.0, i));
      assert ssa[n] in ssa;
    }
  }

  // ------------------------------------------------------------ one instruction

  /** What merging an instruction does, before any argument is passed: all that it touches
      becomes one group, m; nothing else moves. Its result has no group any more, its
      pointer operands have m. */
  ghost predicate MergedAs(prog: Program, v: View, groups: set<int>, key: Key, v': View, m: int)
    requires key.1 < |prog.ins|
  {
    && v'.owner.Keys == v.owner.Keys && m in v'.live && (Touches(prog, v, groups, key, m) || m !in v.live)
    && (forall x :: x in v.owner ==>
          v'.owner[x] == if Touched(prog, v, groups, key, x) then m else v.owner[x])
    && (forall x, y :: Same(v', x, y) <==>
          Same(v, x, y) || (Touched(prog, v, groups, key, x) && Touched(prog, v, groups, key, y)))
    && (forall k :: k in v'.vars <==> Operand(prog, key, k) || (k in v.vars && k != key))
    && (forall k :: Operand(prog, key, k) ==> v'.vars[k] == m)
    && (forall k :: k in v.vars && k != key && !Operand(prog, key, k) ==>
          v'.vars[k] == if Touches(prog, v, groups, key, v.vars[k]) then m else v.vars[k])
  }

  /** ... and the arguments among them are labelled. */
  ghost predicate LabelledAs(prog: Program, v: View, key: Key, v': View)
    requires key.1 < |prog.ins|
  {
    forall tid, i :: i in LabeledOf(v', tid) <==>
      i in LabeledOf(v, tid) || (tid == key.0 && i >= |prog.ins| && Operand(prog, key, (tid, i)))
  }

  lemma {:induction false} TouchesIs(prog: Program, v: View, groups: set<int>, key: Key, g: int)
    requires key.1 < |prog.ins|
    ensures Touches(prog, v, groups, key, g) <==>
              g in groups + GroupsOf(v.vars, [key] + DepKeys(prog, key.0, prog.ins[key.1].ssa))
  {
    hide DepKeys, Operand;
    var keys := DepKeys(prog, key.0, prog.ins[key.1].ssa);
    forall k ensures Operand(prog, key, k) <==> k in keys { OperandKey(prog, key, k); }
    assert forall k :: k in [key] + keys <==> k == key || k in keys;
  }

  lemma {:induction false} OperandsLabelled(prog: Program, v: View, groups: set<int>, key: Key)
    requires key.1 < |prog.ins|
    ensures LabelledAs(prog, v, key, MergeOperands(prog, v, groups, key).0)
  {
    hide DepKeys, ArgKeys, Operand, Smallest;
    forall i: nat ensures i in ArgKeys(prog, prog.ins[key.1].ssa) <==>
        i >= |prog.ins| && Operand(prog, key, (key.0, i)) {
      ArgKeysAre(prog, key, i);
    }
  }

  lemma {:induction false} OperandsMerged(prog: Program, v: View, groups: set<int>, key: Key)
    requires key.1 < |prog.ins| && Live(v) && groups <= v.live
    ensures var (v', m) := MergeOperands(prog, v, groups, key);
            Live(v') && Coarser(v, v') && MergedAs(prog, v, groups, key, v', m)
  {
    hide DepKeys, ArgKeys, Merge, Operand, Touches, GroupsOf, Live, Coarser;
    var keys := DepKeys(prog, key.0, prog.ins[key.1].ssa);
    var all := groups + GroupsOf(v.vars, [key] + keys);
    forall g ensures Touches(prog, v, groups, key, g) <==> g in all { TouchesIs(prog, v, groups, key, g); }
    forall k ensures Operand(prog, key, k) <==> k in keys { OperandKey(prog, key, k); }
    GroupsOfLive(v, [key] + keys);
    MergeMerges(v, all);
    MergeOperandsKeeps(prog, v, groups, key);
    MergesInto(v, all);
    var (v1, m) := Merge(v, all);
    var v' := MergeOperands(prog, v, groups, key).0;
    forall x, y ensures Same(v', x, y) <==> Same(v1, x, y) { }
  }

  lemma {:induction false} MergesInto(v: View, groups: set<int>)
    requires Live(v)
    ensures Merge(v, groups).1 in groups || Merge(v, groups).1 !in v.live
  {
  }

  lemma {:induction false} GroupsOfLive(v: View, keys: seq<Key>)
    requires Live(v)
    ensures GroupsOf(v.vars, keys) <= v.live
  {
  }

  // ---------------------------------------------- handing arguments to the caller

  /** What variable k stands for before the block: at the first block of a function, an
      argument stands for what the caller has in its place. An argument that the caller
      has itself got in a later place is left out: it is handed on once more. */
  ghost predicate StandsFor(prog: Program, b: SmallestBlock, k: Key, k': Key) {
    if b.isFirst !in {1, 2} || k.0 != b.tid || k.1 < |prog.ins| then k' == k
    else
      && b.isFirst == 1 && b.caller.Some? && b.caller.value < |prog.ins|
      && var ssa := prog.ins[b.caller.value].ssa;
         var i := k.1 - |prog.ins|;
         i < |ssa| && Names(prog, b.tid, ssa[i], k') && (ssa[i].0 == PointerArg ==> ssa[i].1 <= i)
  }

  /** The arguments with a group are labelled, and nothing but arguments is. */
  ghost predicate WellLabelled(prog: Program, v: View) {
    && (forall k :: k in v.vars && k.1 >= |prog.ins| ==> k.1 in LabeledOf(v, k.0))
    && (forall tid, i :: i in LabeledOf(v, tid) ==> i >= |prog.ins|)
  }

  lemma {:induction false} SortedAscends(s: set<int>)
    ensures forall j, k :: 0 <= j < k < |Sorted(s)| ==> Sorted(s)[j] < Sorted(s)[k]
    decreases |s|
  {
    if s != {} {
      var m := Smallest(s);
      assert |s - {m}| < |s|;
      SortedAscends(s - {m});
      var rest := Sorted(s - {m});
      forall k | 0 <= k < |rest| ensures m < rest[k] { assert rest[k] in s - {m}; }
    }
  }

  lemma {:induction false} EndsHere(prog: Program, b: SmallestBlock, args: seq<int>, k: Key)
    requires k.0 == b.tid ==> k.1 !in args
    ensures EndsAt(prog, b, args, k) == At(k)
    decreases |args|
  {
    hide Sent;
    if args != [] { EndsHere(prog, b, args[1..], k); }
  }

  lemma {:induction false} StandsAtEnd(prog: Program, b: SmallestBlock, args: seq<int>, k: Key, k': Key)
    requires forall i, j :: 0 <= i < j < |args| ==> args[i] < args[j]
    requires forall i :: 0 <= i < |args| ==> args[i] >= |prog.ins|
    requires b.isFirst in {1, 2} && StandsFor(prog, b, k, k')
    requires k.0 == b.tid && k.1 >= |prog.ins| ==> k.1 in args
    ensures EndsAt(prog, b, args, k) == At(k')
    decreases |args|
  {
    if k.0 != b.tid || k.1 < |prog.ins| {
      EndsHere(prog, b, args, k);
    } else if args[0] == k.1 {
      assert Sent(prog, b, k.1) == At(k');
      EndsHere(prog, b, args[1..], k');
    } else {
      StandsAtEnd(prog, b, args[1..], k, k');
    }
  }

  // ------------------------------------------------ labels stay with arguments

  /** While the arguments are passed, those whose turn is still to come need no label. */
  ghost predicate LabelledBut(prog: Program, v: View, tid: Tid, args: seq<int>) {
    && (forall k :: k in v.vars && k.1 >= |prog.ins| ==> k.1 in LabeledOf(v, k.0) || (k.0 == tid && k.1 in args))
    && (forall t, i :: i in LabeledOf(v, t) ==> i >= |prog.ins|)
  }

  lemma {:induction false} MergeLabels(v: View, groups: set<int>)
    ensures Merge(v, groups).0.labeled == v.labeled && Merge(v, groups).0.vars.Keys == v.vars.Keys
  {
  }

  lemma {:induction false} MoreLabels(prog: Program, v: View, v2: View, tid: Tid, dep: (DepType, nat), key: Key)
    requires PointerDep(prog, dep) && key == DepKey(prog, tid, dep)
    requires v2.labeled == if dep.0 == PointerArg then v.labeled[tid := LabeledOf(v, tid) + {key.1}] else v.labeled
    ensures key.1 >= |prog.ins| ==> key.1 in LabeledOf(v2, tid)
    ensures forall t, i :: i in LabeledOf(v, t) ==> i in LabeledOf(v2, t)
    ensures forall t, i :: i in LabeledOf(v2, t) ==> i in LabeledOf(v, t) || i >= |prog.ins|
  {
  }

  lemma {:induction false} LabelsEqual(v: View, v': View)
    requires v'.labeled == v.labeled
    ensures forall t :: LabeledOf(v', t) == LabeledOf(v, t)
  {
  }

  /** Only variable `key`, if any, is new; it is labelled if it is an argument. */
  lemma {:induction false} LabelsStay(prog: Program, v: View, v': View, tid: Tid, args: seq<int>, key: Key)
    requires args != [] && args[0] >= 0 && LabelledBut(prog, v, tid, args)
    requires v'.vars.Keys <= v.vars.Keys - {(tid, args[0] as nat)} + {key}
    requires key in v'.vars && key.1 >= |prog.ins| ==>
               key.1 in LabeledOf(v', key.0) || (key in v.vars && key != (tid, args[0] as nat))
    requires forall t, i :: i in LabeledOf(v, t) ==> i in LabeledOf(v', t)
    requires forall t, i :: i in LabeledOf(v', t) ==> i in LabeledOf(v, t) || i >= |prog.ins|
    ensures LabelledBut(prog, v', tid, args[1..])
  {
    hide LabeledOf;
    assert forall j :: j in args ==> j == args[0] || j in args[1..];
  }

  lemma {:induction false} PassArgumentLabels(prog: Program, b: SmallestBlock, v: View, args: seq<int>)
    requires args != [] && args[0] >= 0 && LabelledBut(prog, v, b.tid, args)
    ensures var r := PassArgument(prog, b, v, args[0]); r.Some? ==> LabelledBut(prog, r.value, b.tid, args[1..])
  {
    hide Merge, LabelledBut, LabeledOf, PointerDep;
    var i: nat := args[0];
    var arg: Key := (b.tid, i);
    var r := PassArgument(prog, b, v, i);
    if r.Some? {
      if arg !in v.vars || b.isFirst != 1 || b.caller.None?
          || !PointerDep(prog, prog.ins[b.caller.value].ssa[i - |prog.ins|]) {
        LabelsEqual(v, r.value);
        LabelsStay(prog, v, r.value, b.tid, args, arg);
      } else {
        var dep := prog.ins[b.caller.value].ssa[i - |prog.ins|];
        var v1 := v.(vars := v.vars - {arg});
        var key := DepKey(prog, b.tid, dep);
        var v2 := if dep.0 == PointerArg then v1.(labeled := v1.labeled[b.tid := LabeledOf(v1, b.tid) + {key.1}])
                  else v1;
        LabelsEqual(v, v1);
        if key in v2.vars { MergeLabels(v2, {v.vars[arg], v2.vars[key]}); }
        assert r.value.labeled == v2.labeled && r.value.vars.Keys == v2.vars.Keys + {key};
        MoreLabels(prog, v, r.value, b.tid, dep, key);
        LabelsStay(prog, v, r.value, b.tid, args, key);
      }
    }
  }

  lemma {:induction false} PassArgumentsLabel(prog: Program, b: SmallestBlock, v: View, args: seq<int>)
    requires (forall k :: 0 <= k < |args| ==> args[k] >= 0) && LabelledBut(prog, v, b.tid, args)
    ensures var r := PassArguments(prog, b, v, args); r.Some? ==> LabelledBut(prog, r.value, b.tid, [])
    decreases |args|
  {
    hide PassArgument, LabelledBut;
    if args != [] {
      PassArgumentLabels(prog, b, v, args);
      var r := PassArgument(prog, b, v, args[0]);
      if r.Some? { PassArgumentsLabel(prog, b, r.value, args[1..]); }
    }
  }

  // ------------------------------------------- pointers and what they lead to

  /** Variable k points into the group that owns x. */
  ghost predicate Linked(v: View, k: Key, x: uint64) {
    k in v.vars && x in v.owner && v.vars[k] == v.owner[x]
  }

  /** All arguments having been passed, a variable leads where what stood for it led. */
  lemma {:induction false} PassedLinks(prog: Program, b: SmallestBlock, v: View, v': View, m: int)
    requires Live(v) && m in v.live && b.isFirst in {1, 2} && WellLabelled(prog, v)
    requires PassArguments(prog, b, v.(labeled := v.labeled[b.tid := {}]), Sorted(LabeledOf(v, b.tid))) == Some(v')
    ensures forall k, k', x :: StandsFor(prog, b, k, k') && Linked(v, k, x) ==> Linked(v', k', x)
    ensures forall k, k' :: StandsFor(prog, b, k, k') && k in v.vars && v.vars[k] == m && m in v'.live ==>
              k' in v'.vars && v'.vars[k'] == m
    ensures WellLabelled(prog, v') && v'.owner.Keys == v.owner.Keys
  {
    hide PassArguments, LeastJoined, Live, StandsFor, LabelledBut;
    var args := Sorted(LabeledOf(v, b.tid));
    var v1 := v.(labeled := v.labeled[b.tid := {}]);
    var place := Ends(prog, b, args);
    SortedAscends(LabeledOf(v, b.tid));
    SortedDistinct(LabeledOf(v, b.tid));
    Unlabelled(v, v1);
    PassedGroups(prog, b, v1, args);
    BeforeLabelled(prog, v, v1, b.tid, args);
    PassArgumentsLabel(prog, b, v1, args);
    AfterLabelled(prog, v', b.tid);
    forall k, k' | StandsFor(prog, b, k, k') && k in v.vars ensures place(k) == At(k') {
      StandsAtEnd(prog, b, args, k, k');
    }
    forall k, k', x | StandsFor(prog, b, k, k') && Linked(v, k, x) ensures Linked(v', k', x) {
      LeastOne(place, v1.vars, v1.live, v1.owner[x], v'.owner[x], v'.vars[k']);
    }
    forall k, k' | StandsFor(prog, b, k, k') && k in v.vars && v.vars[k] == m && m in v'.live
      ensures k' in v'.vars && v'.vars[k'] == m
    {
      LeastOne(place, v1.vars, v1.live, m, m, v'.vars[k']);
    }
  }

  lemma {:induction false} Unlabelled(v: View, v1: View)
    requires Live(v) && v1 == v.(labeled := v1.labeled)
    ensures Live(v1)
  {
  }

  lemma {:induction false} BeforeLabelled(prog: Program, v: View, v1: View, tid: Tid, args: seq<int>)
    requires WellLabelled(prog, v) && v1 == v.(labeled := v.labeled[tid := {}])
    requires forall i :: i in args <==> i in LabeledOf(v, tid)
    ensures LabelledBut(prog, v1, tid, args)
  {
    assert forall t, i :: i in LabeledOf(v1, t) <==> t != tid && i in LabeledOf(v, t);
  }

  lemma {:induction false} AfterLabelled(prog: Program, v: View, tid: Tid)
    requires LabelledBut(prog, v, tid, [])
    ensures WellLabelled(prog, v)
  {
  }

  lemma {:induction false} LeastOne(place: Key -> Place, vars: map<Key, int>, live: set<int>, g: int, m: int, m': int)
    requires LeastJoined(place, vars, live, g, m) && LeastJoined(place, vars, live, g, m')
    ensures m == m'
  {
  }

  /** What merging an instruction does to what variables lead to. Through an operand one
      gets wherever the instruction touches; through any other variable but the result,
      where one got before. Everything it touches shares a group; and outside first blocks
      no other addresses come together. */
  ghost predicate InstLinks(prog: Program, v: View, groups: set<int>, key: Key, b: SmallestBlock, v': View, m: int)
    requires key.1 < |prog.ins|
  {
    && (forall x, y :: Touched(prog, v, groups, key, x) && Touched(prog, v, groups, key, y) ==> Same(v', x, y))
    && (b.isFirst !in {1, 2} ==> MergedAs(prog, v, groups, key, v', m))
    && (forall k, k', x :: StandsFor(prog, b, k, k') && Operand(prog, key, k) && Touched(prog, v, groups, key, x) ==>
          Linked(v', k', x))
    && (forall k, k' :: StandsFor(prog, b, k, k') && Operand(prog, key, k) && m in v'.live ==>
          k' in v'.vars && v'.vars[k'] == m)
    && (forall k, k', x :: StandsFor(prog, b, k, k') && k != key && Linked(v, k, x) ==> Linked(v', k', x))
  }

  lemma {:induction false} OperandLinks(prog: Program, v: View, groups: set<int>, key: Key, v': View, m: int)
    requires key.1 < |prog.ins| && MergedAs(prog, v, groups, key, v', m)
    ensures forall k, x :: Operand(prog, key, k) && Touched(prog, v, groups, key, x) ==> Linked(v', k, x)
    ensures forall k :: Operand(prog, key, k) ==> k in v'.vars && v'.vars[k] == m
    ensures forall k, x :: k != key && Linked(v, k, x) ==> Linked(v', k, x)
  {
    hide Operand;
    forall k, x | k != key && Linked(v, k, x) ensures Linked(v', k, x) {
      if Operand(prog, key, k) { assert Touched(prog, v, groups, key, x); }
    }
  }

  lemma {:induction false} OperandsWellLabelled(prog: Program, v: View, groups: set<int>, key: Key, v': View, m: int)
    requires key.1 < |prog.ins| && WellLabelled(prog, v)
    requires MergedAs(prog, v, groups, key, v', m) && LabelledAs(prog, v, key, v')
    ensures WellLabelled(prog, v')
  {
    hide Operand, Touches;
    forall k | k in v'.vars && k.1 >= |prog.ins| ensures k.1 in LabeledOf(v', k.0) {
      if Operand(prog, key, k) { OperandThread(prog, key, k); } else { assert k in v.vars; }
    }
  }

  lemma {:induction false} OperandThread(prog: Program, key: Key, k: Key)
    requires key.1 < |prog.ins| && Operand(prog, key, k)
    ensures k.0 == key.0
  {
  }

  /** The instruction's own thread is the block's. */
  lemma {:induction false} MergeInstLinks(prog: Program, v: View, groups: set<int>, key: Key, b: SmallestBlock)
    requires key.1 < |prog.ins| && Live(v) && groups <= v.live && WellLabelled(prog, v)
    ensures var r := MergeInst(prog, v, groups, key, b);
            r.Some? ==> WellLabelled(prog, r.value.0) && InstLinks(prog, v, groups, key, b, r.value.0, r.value.1)
  {
    hide MergeOperands, PassArguments, Live, Touched, Operand, StandsFor, MergedAs, LabelledAs, WellLabelled, Linked,
         Coarser;
    OperandsMerged(prog, v, groups, key);
    OperandsLabelled(prog, v, groups, key);
    var (v1, m) := MergeOperands(prog, v, groups, key);
    OperandLinks(prog, v, groups, key, v1, m);
    OperandsWellLabelled(prog, v, groups, key, v1, m);
    AllSame(prog, v, groups, key, v1, m);
    var r := MergeInst(prog, v, groups, key, b);
    if b.isFirst in {1, 2} {
      if r.Some? {
        var v' := r.value.0;
        MergedLive(prog, v, groups, key, v1, m);
        PassedLinks(prog, b, v1, v', m);
        PassedCoarser(prog, b, v1, v');
        forall x, y | Touched(prog, v, groups, key, x) && Touched(prog, v, groups, key, y) ensures Same(v', x, y) {
          CoarserAt(v1, v', x, y);
        }
      }
    } else {
      forall k, k' ensures StandsFor(prog, b, k, k') <==> k' == k { StandsItself(prog, b, k, k'); }
    }
  }

  lemma {:induction false} MergedLive(prog: Program, v: View, groups: set<int>, key: Key, v': View, m: int)
    requires key.1 < |prog.ins| && MergedAs(prog, v, groups, key, v', m)
    ensures m in v'.live
  {
  }

  lemma {:induction false} StandsItself(prog: Program, b: SmallestBlock, k: Key, k': Key)
    requires b.isFirst !in {1, 2}
    ensures StandsFor(prog, b, k, k') <==> k' == k
  {
  }

  lemma {:induction false} AllSame(prog: Program, v: View, groups: set<int>, key: Key, v': View, m: int)
    requires key.1 < |prog.ins| && MergedAs(prog, v, groups, key, v', m)
    ensures forall x, y :: Touched(prog, v, groups, key, x) && Touched(prog, v, groups, key, y) ==> Same(v', x, y)
  {
  }

  lemma {:induction false} PassedCoarser(prog: Program, b: SmallestBlock, v: View, v': View)
    requires Live(v)
    requires PassArguments(prog, b, v.(labeled := v.labeled[b.tid := {}]), Sorted(LabeledOf(v, b.tid))) == Some(v')
    ensures Live(v') && Coarser(v, v')
  {
    hide PassArguments;
    var v1 := v.(labeled := v.labeled[b.tid := {}]);
    Unlabelled(v, v1);
    PassArgumentsKeeps(prog, b, v1, Sorted(LabeledOf(v, b.tid)));
    forall x, y | Same(v, x, y) ensures Same(v', x, y) { assert Same(v1, x, y); }
  }

  lemma {:induction false} CoarserAt(v: View, v': View, x: uint64, y: uint64)
    requires Coarser(v, v') && Same(v, x, y)
    ensures Same(v', x, y)
  {
  }

  // ------------------------------------------------------------- through a trace

  /** The instructions of a block that may be merged, in order. */
  function Steps(prog: Program, b: SmallestBlock): (ids: seq<nat>)
    requires Groupable(prog, b)
    ensures forall n :: 0 <= n < |ids| ==> ids[n] < |prog.ins|
  {
    if b.typ == NormalBlock then prog.bb2ins[b.bb][b.start..b.end]
    else if b.typ in {MemoryAccessBlock, MemsetBlock, MemmoveBlock} && b.addr[0] < b.addr[1] then
      [prog.bb2ins[b.bb][b.start]]
    else []
  }

  /** An access of one byte at least. A move accesses both of its ranges. */
  predicate Accessed(prog: Program, b: SmallestBlock, x: uint64)
    requires Groupable(prog, b)
  {
    && b.typ in {MemoryAccessBlock, MemsetBlock, MemmoveBlock} && b.addr[0] < b.addr[1]
    && (b.addr[0] <= x < b.addr[1] || (b.typ == MemmoveBlock && b.addr[2] <= x < b.addr[3]))
  }

  /** Every access is merged, and every instruction that yields a pointer but a call. */
  predicate Matters(prog: Program, b: SmallestBlock, id: nat)
    requires id < |prog.ins|
  {
    b.typ == NormalBlock ==> prog.ins[id].isPointer && prog.ins[id].typ != CallInst
  }

  /** From step n of block i on, the value that variable k has there leads to address x: x
      is accessed through k, or through a pointer computed from k, at any depth; or k
      keeps its value, and leads to x later. What is passed to a function is followed into
      it. */
  ghost predicate Leads(prog: Program, trace: seq<SmallestBlock>, i: nat, n: nat, k: Key, x: uint64)
    requires GroupableTrace(prog, trace) && i <= |trace| && n <= if i < |trace| then |Steps(prog, trace[i])| else 0
    decreases |trace| - i, if i < |trace| then |Steps(prog, trace[i])| - n else 0
  {
    if i == |trace| then false
    else if n == |Steps(prog, trace[i])| then Leads(prog, trace, i + 1, 0, k, x)
    else
      var b := trace[i];
      var key: Key := (b.tid, Steps(prog, b)[n]);
      if !Matters(prog, b, key.1) then Leads(prog, trace, i, n + 1, k, x)
      else
        exists k0 :: StandsFor(prog, b, k0, k) &&
          ((Operand(prog, key, k0) && (Accessed(prog, b, x) || Leads(prog, trace, i, n + 1, key, x)))
           || (k0 != key && Leads(prog, trace, i, n + 1, k0, x)))
  }

  // ----------------------------------------------------------------- one step

  ghost function Step(prog: Program, v: View, b: SmallestBlock, id: nat): Option<View>
    requires id < |prog.ins|
  {
    if !Grouped(prog.ins[id]) then Some(v)
    else
      match MergeInst(prog, v, {}, (b.tid, id), b)
      case None => None
      case Some((v', _)) => Some(v')
  }

  /** An instruction reaches what it accesses, and what its result leads to. */
  ghost predicate Reached(prog: Program, v: View, b: SmallestBlock, id: nat, x: uint64)
    requires Groupable(prog, b)
  {
    Accessed(prog, b, x) || Linked(v, (b.tid, id), x)
  }

  /** What one merged instruction does to what variables lead to. */
  ghost predicate StepLinks(prog: Program, v: View, b: SmallestBlock, id: nat, v': View)
    requires Groupable(prog, b) && id < |prog.ins|
  {
    && (forall k, k', x :: StandsFor(prog, b, k, k') && Operand(prog, (b.tid, id), k) && Reached(prog, v, b, id, x) ==>
          Linked(v', k', x))
    && (forall k, k', x :: StandsFor(prog, b, k, k') && k != (b.tid, id) && Linked(v, k, x) ==> Linked(v', k', x))
  }

  ghost predicate Sound(prog: Program, v: View) { Live(v) && WellLabelled(prog, v) }

  lemma {:induction false} InstStep(prog: Program, v: View, b: SmallestBlock, id: nat)
    requires Groupable(prog, b) && b.typ == NormalBlock && id < |prog.ins| && Sound(prog, v)
    ensures var r := Step(prog, v, b, id); r.Some? ==>
              && Sound(prog, r.value) && Coarser(v, r.value)
              && (if Matters(prog, b, id) then StepLinks(prog, v, b, id, r.value) else r.value == v)
  {
    hide MergeInst, Live, WellLabelled, Touched, StandsFor, Operand, MergedAs, Coarser;
    Reflexive(v, v);
    if Grouped(prog.ins[id]) {
      MergeInstKeeps(prog, v, {}, (b.tid, id), b);
      MergeInstLinks(prog, v, {}, (b.tid, id), b);
      ResultTouched(prog, v, {}, (b.tid, id));
    }
  }

  lemma {:induction false} ResultTouched(prog: Program, v: View, groups: set<int>, key: Key)
    requires key.1 < |prog.ins|
    ensures forall x :: Linked(v, key, x) ==> Touched(prog, v, groups, key, x)
  {
  }

  lemma {:induction false} FillLinks(v: View, l: uint64, r: uint64, m: int)
    ensures forall k, x :: Linked(v, k, x) ==> Linked(Fill(v, l, r, m), k, x)
    ensures forall k, x :: k in v.vars && v.vars[k] == m && l <= x < r && x !in v.owner ==>
              Linked(Fill(v, l, r, m), k, x)
    ensures Fill(v, l, r, m).vars == v.vars && Fill(v, l, r, m).labeled == v.labeled
  {
  }

  lemma {:induction false} LabelsOnly(prog: Program, v: View, v': View)
    requires WellLabelled(prog, v) && v'.labeled == v.labeled && v'.vars.Keys <= v.vars.Keys
    ensures WellLabelled(prog, v')
  {
    LabelsEqual(v, v');
  }

  lemma {:induction false} InGroups(prog: Program, v: View, groups: set<int>, key: Key, l: uint64, r: uint64,
                                    x: uint64)
    requires key.1 < |prog.ins| && Live(v) && GroupsIn(v, l, r) <= groups && l <= x < r && x in v.owner
    ensures Touched(prog, v, groups, key, x)
  {
    OwnerIn(v, l, r, x);
  }

  lemma {:induction false} RangeStep(prog: Program, v: View, b: SmallestBlock, id: nat)
    requires Groupable(prog, b) && b.typ in {MemoryAccessBlock, MemsetBlock} && b.addr[0] < b.addr[1]
    requires id < |prog.ins| && Sound(prog, v)
    ensures var r := GroupRange(prog, v, b, (b.tid, id)); r.Some? ==>
              WellLabelled(prog, r.value) && StepLinks(prog, v, b, id, r.value)
  {
    hide MergeInst, Live, WellLabelled, Touched, StandsFor, Operand, MergedAs, GroupsIn, Linked, Fill;
    var key: Key := (b.tid, id);
    var (l, r) := (b.addr[0], b.addr[1]);
    var groups := GroupsIn(v, l, r);
    var res := MergeInst(prog, v, groups, key, b);
    SomeGroups(v, l, r);
    MergeInstKeeps(prog, v, groups, key, b);
    MergeInstLinks(prog, v, groups, key, b);
    ResultTouched(prog, v, groups, key);
    forall x | l <= x < r && x in v.owner ensures Touched(prog, v, groups, key, x) {
      InGroups(prog, v, groups, key, l, r, x);
    }
    if res.Some? && Gap(v, l, r) && res.value.1 in res.value.0.live {
      var (v1, m) := res.value;
      FillLinks(v1, l, r, m);
      LabelsOnly(prog, v1, Fill(v1, l, r, m));
    }
  }

  lemma {:induction false} SomeGroups(v: View, l: uint64, r: uint64)
    ensures GroupsIn(v, l, r) <= v.live
  {
  }

  lemma {:induction false} MoveStep(prog: Program, v: View, b: SmallestBlock, id: nat)
    requires Groupable(prog, b) && b.typ == MemmoveBlock && b.addr[0] < b.addr[1]
    requires id < |prog.ins| && Sound(prog, v)
    ensures var r := GroupMove(prog, v, b, (b.tid, id)); r.Some? ==>
              WellLabelled(prog, r.value) && StepLinks(prog, v, b, id, r.value)
  {
    hide MergeInst, Live, WellLabelled, Touched, StandsFor, Operand, MergedAs, GroupsIn, Linked, Fill;
    var key: Key := (b.tid, id);
    var (l, r, l2, r2) := (b.addr[0], b.addr[1], b.addr[2], b.addr[3]);
    var groups := GroupsIn(v, l, r) + GroupsIn(v, l2, r2);
    var res := MergeInst(prog, v, groups, key, b);
    SomeGroups(v, l, r);
    SomeGroups(v, l2, r2);
    MergeInstKeeps(prog, v, groups, key, b);
    MergeInstLinks(prog, v, groups, key, b);
    ResultTouched(prog, v, groups, key);
    forall x | (l <= x < r || l2 <= x < r2) && x in v.owner ensures Touched(prog, v, groups, key, x) {
      if l <= x < r { InGroups(prog, v, groups, key, l, r, x); } else { InGroups(prog, v, groups, key, l2, r2, x); }
    }
    if l2 < r2 && res.Some? && (Gap(v, l, r) || Gap(v, l2, r2)) && res.value.1 in res.value.0.live {
      var (v1, m) := res.value;
      var v2 := Fill(v1, l, r, m);
      FillLinks(v1, l, r, m);
      FillLinks(v2, l2, r2, m);
      FillOwners(v1, l, r, m);
      LabelsOnly(prog, v1, Fill(v2, l2, r2, m));
    }
  }

  lemma {:induction false} FillOwners(v: View, l: uint64, r: uint64, m: int)
    ensures forall x :: x in Fill(v, l, r, m).owner <==> x in v.owner || l <= x < r
  {
  }

  /** Declarations and outside calls leave the variables alone. */
  lemma {:induction false} DeclaredLinks(prog: Program, v: View, b: SmallestBlock)
    requires |b.addr| == 2 && Sound(prog, v)
    ensures var r := GroupDeclared(v, b); r.Some? ==>
              WellLabelled(prog, r.value) && forall k, x :: Linked(v, k, x) ==> Linked(r.value, k, x)
  {
    hide Fill, GroupsIn, WellLabelled, Merge;
    var groups := GroupsIn(v, b.addr[0], b.addr[1]);
    SomeGroups(v, b.addr[0], b.addr[1]);
    MergeMerges(v, groups);
    var (v1, m) := Merge(v, groups);
    FillLinks(v1, b.addr[0], b.addr[1], m);
    LabelsOnly(prog, v, v1);
    LabelsOnly(prog, v1, Fill(v1, b.addr[0], b.addr[1], m));
    forall k, x | Linked(v, k, x) ensures Linked(v1, k, x) {
    }
  }

  lemma {:induction false} ArgumentsLink(prog: Program, v: View, addr: seq<uint64>)
    requires WellLabelled(prog, v)
    ensures var v' := GroupArguments(v, addr);
            WellLabelled(prog, v') && forall k, x :: Linked(v, k, x) ==> Linked(v', k, x)
    decreases |addr|
  {
    hide WellLabelled;
    if addr != [] {
      var v1 := GroupArgument(v, addr[0]);
      LabelsOnly(prog, v, v1);
      assert forall k, x :: Linked(v, k, x) ==> Linked(v1, k, x);
      ArgumentsLink(prog, v1, addr[1..]);
    }
  }

  // -------------------------------------------------------- from step to step

  /** The groups as grouping finds them when it has come back to step n of block i. */
  ghost function ViewAt(prog: Program, trace: seq<SmallestBlock>, i: nat, n: nat): Option<View>
    requires GroupableTrace(prog, trace) && i <= |trace| && n <= if i < |trace| then |Steps(prog, trace[i])| else 0
  {
    if i == |trace| then Some(NO_GROUPS)
    else
      match GroupTrace(prog, trace, i + 1)
      case None => None
      case Some(v) =>
        if trace[i].typ == NormalBlock then GroupInstructions(prog, v, trace[i], Steps(prog, trace[i])[n..])
        else if n == 0 then GroupBlock(prog, v, trace[i])
        else Some(v)
  }

  lemma {:induction false} FirstStep(prog: Program, v: View, b: SmallestBlock, id: nat, rest: seq<nat>)
    requires id < |prog.ins| && forall k :: 0 <= k < |rest| ==> rest[k] < |prog.ins|
    ensures var r := GroupInstructions(prog, v, b, rest);
            GroupInstructions(prog, v, b, [id] + rest) == if r.None? then None else Step(prog, r.value, b, id)
    decreases |rest|
  {
    hide MergeInst;
    var all := [id] + rest;
    if rest == [] {
      assert all == [id] && [id][..0] == [];
    } else {
      var n := |rest| - 1;
      assert all[..|all| - 1] == [id] + rest[..n] && all[|all| - 1] == rest[n];
      var r := Step(prog, v, b, rest[n]);
      if r.Some? { FirstStep(prog, r.value, b, id, rest[..n]); }
    }
  }

  lemma {:induction false} NormalStep(prog: Program, trace: seq<SmallestBlock>, i: nat, n: nat)
    requires GroupableTrace(prog, trace) && i < |trace| && n < |Steps(prog, trace[i])|
    requires trace[i].typ == NormalBlock
    ensures var (r, r') := (ViewAt(prog, trace, i, n), ViewAt(prog, trace, i, n + 1));
            r == if r'.None? then None else Step(prog, r'.value, trace[i], Steps(prog, trace[i])[n])
  {
    hide GroupInstructions, Step;
    var ids := Steps(prog, trace[i]);
    assert ids[n..] == [ids[n]] + ids[n + 1..];
    var v := GroupTrace(prog, trace, i + 1);
    if v.Some? { FirstStep(prog, v.value, trace[i], ids[n], ids[n + 1..]); }
  }

  /** The views at the two ends of a block. */
  lemma {:induction false} BlockEnds(prog: Program, trace: seq<SmallestBlock>, i: nat)
    requires GroupableTrace(prog, trace) && i < |trace|
    ensures ViewAt(prog, trace, i, 0) == GroupTrace(prog, trace, i)
    ensures trace[i].typ == NormalBlock || Steps(prog, trace[i]) != [] ==>
              ViewAt(prog, trace, i, |Steps(prog, trace[i])|) == GroupTrace(prog, trace, i + 1)
  {
    hide MergeInst;
    var ids := Steps(prog, trace[i]);
    assert ids[0..] == ids && ids[|ids|..] == [];
  }

  /** Where variables lead at a point, when what comes after is known. */
  ghost predicate LeadsIn(prog: Program, trace: seq<SmallestBlock>, i: nat, n: nat, v: View)
    requires GroupableTrace(prog, trace) && i <= |trace| && n <= if i < |trace| then |Steps(prog, trace[i])| else 0
  {
    forall k, x :: Leads(prog, trace, i, n, k, x) ==> Linked(v, k, x)
  }

  lemma {:induction false} StepLeads(prog: Program, trace: seq<SmallestBlock>, i: nat, n: nat, v: View, v': View)
    requires GroupableTrace(prog, trace) && i < |trace| && n < |Steps(prog, trace[i])|
    requires LeadsIn(prog, trace, i, n + 1, v)
    requires var id := Steps(prog, trace[i])[n];
             if Matters(prog, trace[i], id) then StepLinks(prog, v, trace[i], id, v') else v' == v
    ensures LeadsIn(prog, trace, i, n, v')
  {
    hide Linked, StandsFor, Operand, Accessed;
    var b := trace[i];
    var key: Key := (b.tid, Steps(prog, b)[n]);
    forall k, x | Leads(prog, trace, i, n, k, x) ensures Linked(v', k, x) {
      if Matters(prog, b, key.1) {
        var k0 :| StandsFor(prog, b, k0, k)
            && ((Operand(prog, key, k0) && (Accessed(prog, b, x) || Leads(prog, trace, i, n + 1, key, x)))
                || (k0 != key && Leads(prog, trace, i, n + 1, k0, x)));
      }
    }
  }

  lemma {:induction false} QuietStep(prog: Program, v: View, b: SmallestBlock)
    requires Groupable(prog, b) && Sound(prog, v) && b.typ != NormalBlock && Steps(prog, b) == []
    ensures var r := GroupBlock(prog, v, b); r.Some? ==>
              Sound(prog, r.value) && forall k, x :: Linked(v, k, x) ==> Linked(r.value, k, x)
  {
    hide GroupDeclared, GroupArguments, Live, WellLabelled, Linked, BlockGrouped, Rejected, Coarser;
    GroupBlockKeeps(prog, v, b);
    if b.typ == DeclareBlock {
      DeclaredLinks(prog, v, b);
    } else if b.typ in {ExternalCallBlock, ImpactfulCallBlock} {
      ArgumentsLink(prog, v, if |b.addr| > 0 then b.addr[1..] else []);
    }
  }

  lemma {:induction false} AccessStep(prog: Program, v: View, b: SmallestBlock)
    requires Groupable(prog, b) && Sound(prog, v) && b.typ != NormalBlock && Steps(prog, b) != []
    ensures var r := GroupBlock(prog, v, b); r.Some? ==>
              Sound(prog, r.value) && StepLinks(prog, v, b, Steps(prog, b)[0], r.value)
  {
    hide GroupRange, GroupMove, Live, WellLabelled, StepLinks, BlockGrouped, Rejected, Coarser;
    GroupBlockKeeps(prog, v, b);
    var id := prog.bb2ins[b.bb][b.start];
    if b.typ == MemmoveBlock { MoveStep(prog, v, b, id); } else { RangeStep(prog, v, b, id); }
  }

  lemma {:induction false} NoneSound(prog: Program)
    ensures Sound(prog, NO_GROUPS)
  {
    assert forall tid :: LabeledOf(NO_GROUPS, tid) == {};
  }

  /** Whatever a variable leads to at a point is, as grouping comes back to the point, in
      the group that it points into. */
  lemma {:induction false} LeadsLinked(prog: Program, trace: seq<SmallestBlock>, i: nat, n: nat)
    requires GroupableTrace(prog, trace) && i <= |trace| && n <= if i < |trace| then |Steps(prog, trace[i])| else 0
    ensures var r := ViewAt(prog, trace, i, n); r.Some? ==> Sound(prog, r.value) && LeadsIn(prog, trace, i, n, r.value)
    decreases |trace| - i, if i < |trace| then |Steps(prog, trace[i])| - n else 0
  {
    hide ViewAt, Sound, Linked, GroupBlock, Step, StepLinks, Coarser;
    if i == |trace| {
      NoneSound(prog);
      AtTheEnd(prog, trace);
    } else if n == |Steps(prog, trace[i])| {
      LeadsLinked(prog, trace, i + 1, 0);
      NextBlock(prog, trace, i + 1);
      BlockEnds(prog, trace, i);
      var v := GroupTrace(prog, trace, i + 1);
      if v.Some? && trace[i].typ != NormalBlock && n == 0 { QuietStep(prog, v.value, trace[i]); }
    } else {
      LeadsLinked(prog, trace, i, n + 1);
      var r' := ViewAt(prog, trace, i, n + 1);
      BlockEnds(prog, trace, i);
      if trace[i].typ == NormalBlock {
        NormalStep(prog, trace, i, n);
        if r'.Some? { InstStep(prog, r'.value, trace[i], Steps(prog, trace[i])[n]); }
      } else if r'.Some? {
        AccessStep(prog, r'.value, trace[i]);
      }
      var r := ViewAt(prog, trace, i, n);
      if r'.Some? && r.Some? { StepLeads(prog, trace, i, n, r'.value, r.value); }
    }
  }

  lemma {:induction false} AtTheEnd(prog: Program, trace: seq<SmallestBlock>)
    requires GroupableTrace(prog, trace)
    ensures ViewAt(prog, trace, |trace|, 0) == Some(NO_GROUPS) == GroupTrace(prog, trace, |trace|)
  {
  }

  lemma {:induction false} NextBlock(prog: Program, trace: seq<SmallestBlock>, i: nat)
    requires GroupableTrace(prog, trace) && i <= |trace|
    ensures ViewAt(prog, trace, i, 0) == GroupTrace(prog, trace, i)
  {
    if i < |trace| { BlockEnds(prog, trace, i); } else { AtTheEnd(prog, trace); }
  }

  // ------------------------------------------------------------------- results

  /** Before any point of the trace groups only grow together. */
  lemma {:induction false} PointCoarser(prog: Program, trace: seq<SmallestBlock>, i: nat, n: nat)
    requires GroupableTrace(prog, trace) && i < |trace| && n <= |Steps(prog, trace[i])|
    requires GroupTrace(prog, trace, i).Some?
    ensures var r := ViewAt(prog, trace, i, n);
            r.Some? && Sound(prog, r.value) && Coarser(r.value, GroupTrace(prog, trace, i).value)
    decreases n
  {
    hide ViewAt, Sound, GroupBlock, Step, StepLinks, Coarser, LeadsIn;
    BlockEnds(prog, trace, i);
    LeadsLinked(prog, trace, i, n);
    if n == 0 {
      ReflexiveView(GroupTrace(prog, trace, i).value);
    } else if trace[i].typ == NormalBlock {
      PointCoarser(prog, trace, i, n - 1);
      NormalStep(prog, trace, i, n - 1);
      LeadsLinked(prog, trace, i, n);
      var r := ViewAt(prog, trace, i, n).value;
      InstStep(prog, r, trace[i], Steps(prog, trace[i])[n - 1]);
      CoarserTrans(r, ViewAt(prog, trace, i, n - 1).value, GroupTrace(prog, trace, i).value);
    } else {
      BlockCoarser(prog, trace, i);
    }
  }

  lemma {:induction false} ReflexiveView(v: View)
    ensures Coarser(v, v)
  {
  }

  lemma {:induction false} BlockCoarser(prog: Program, trace: seq<SmallestBlock>, i: nat)
    requires GroupableTrace(prog, trace) && i < |trace| && GroupTrace(prog, trace, i).Some?
    ensures var r := GroupTrace(prog, trace, i + 1); r.Some? && Coarser(r.value, GroupTrace(prog, trace, i).value)
  {
    hide GroupBlock, BlockGrouped, Coarser, Live, Rejected;
    GroupTraceGroups(prog, trace, i + 1);
    GroupBlockKeeps(prog, GroupTrace(prog, trace, i + 1).value, trace[i]);
  }

  lemma {:induction false} TraceCoarser(prog: Program, trace: seq<SmallestBlock>, i: nat)
    requires GroupableTrace(prog, trace) && i <= |trace| && GroupTrace(prog, trace, 0).Some?
    ensures GroupTrace(prog, trace, i).Some?
    ensures Coarser(GroupTrace(prog, trace, i).value, GroupTrace(prog, trace, 0).value)
  {
    hide Coarser, GroupBlock;
    if i == 0 {
      ReflexiveView(GroupTrace(prog, trace, 0).value);
    } else {
      TraceCoarser(prog, trace, i - 1);
      BlockCoarser(prog, trace, i - 1);
      CoarserTrans(GroupTrace(prog, trace, i).value, GroupTrace(prog, trace, i - 1).value,
                   GroupTrace(prog, trace, 0).value);
    }
  }

  /** Two addresses that one pointer leads to, from one point of the trace on, are in one
      group at the end: be they accessed through it or through what was computed from it,
      here or in the functions it was passed to. */
  lemma {:induction false} PointersGroup(prog: Program, trace: seq<SmallestBlock>, i: nat, n: nat, k: Key, x: uint64,
                                         y: uint64)
    requires GroupableTrace(prog, trace) && i < |trace| && n <= |Steps(prog, trace[i])|
    requires GroupTrace(prog, trace, 0).Some?
    requires Leads(prog, trace, i, n, k, x) && Leads(prog, trace, i, n, k, y)
    ensures Same(GroupTrace(prog, trace, 0).value, x, y)
  {
    hide ViewAt, Sound, Coarser, Leads;
    TraceCoarser(prog, trace, i);
    PointCoarser(prog, trace, i, n);
    LeadsLinked(prog, trace, i, n);
    var v := ViewAt(prog, trace, i, n).value;
    assert Linked(v, k, x) && Linked(v, k, y);
    CoarserAt(v, GroupTrace(prog, trace, i).value, x, y);
    CoarserAt(GroupTrace(prog, trace, i).value, GroupTrace(prog, trace, 0).value, x, y);
  }

  // ---------------------------------------------------- and nothing but that

  /** An instruction draws together what it accesses, what shares a group with that, and
      what its result and its pointer operands lead to. */
  ghost predicate Drawn(prog: Program, v: View, b: SmallestBlock, id: nat, x: uint64)
    requires Groupable(prog, b) && id < |prog.ins|
  {
    || Accessed(prog, b, x)
    || (exists y :: Accessed(prog, b, y) && Same(v, x, y))
    || (exists k :: (k == (b.tid, id) || Operand(prog, (b.tid, id), k)) && Linked(v, k, x))
  }

  ghost predicate Draws(prog: Program, v: View, b: SmallestBlock, id: nat, v': View)
    requires Groupable(prog, b) && id < |prog.ins|
  {
    forall x, y :: Same(v', x, y) <==>
      Same(v, x, y) || (Drawn(prog, v, b, id, x) && Drawn(prog, v, b, id, y))
  }

  /** The groups of what the block accesses. */
  ghost predicate AccessedGroups(prog: Program, v: View, b: SmallestBlock, groups: set<int>)
    requires Groupable(prog, b)
  {
    && (forall g :: g in groups ==> exists y :: Accessed(prog, b, y) && y in v.owner && v.owner[y] == g)
    && (forall y :: Accessed(prog, b, y) && y in v.owner ==> v.owner[y] in groups)
  }

  /** The view v1 once what is accessed and has no group has been given group m. */
  ghost predicate Completed(prog: Program, b: SmallestBlock, v1: View, m: int, v': View)
    requires Groupable(prog, b)
  {
    && (forall x :: x in v'.owner <==> x in v1.owner || Accessed(prog, b, x))
    && (forall x :: x in v1.owner ==> v'.owner[x] == v1.owner[x])
    && (forall x :: Accessed(prog, b, x) && x !in v1.owner ==> v'.owner[x] == m)
  }

  lemma {:induction false} DrawnTouched(prog: Program, v: View, b: SmallestBlock, id: nat, groups: set<int>, x: uint64)
    requires Groupable(prog, b) && id < |prog.ins| && AccessedGroups(prog, v, b, groups)
    ensures Drawn(prog, v, b, id, x) <==>
              Touched(prog, v, groups, (b.tid, id), x) || (Accessed(prog, b, x) && x !in v.owner)
  {
    hide Accessed, Operand;
    if Touched(prog, v, groups, (b.tid, id), x) {
      if v.owner[x] in groups {
        var y :| Accessed(prog, b, y) && y in v.owner && v.owner[y] == v.owner[x];
        assert Same(v, x, y);
      } else {
        var k :| (k == (b.tid, id) || Operand(prog, (b.tid, id), k)) && k in v.vars && v.vars[k] == v.owner[x];
        assert Linked(v, k, x);
      }
    }
  }

  lemma {:induction false} CompletedDraws(prog: Program, v: View, b: SmallestBlock, id: nat, groups: set<int>,
                                          v1: View, m: int, v': View)
    requires Groupable(prog, b) && id < |prog.ins| && Live(v) && AccessedGroups(prog, v, b, groups)
    requires MergedAs(prog, v, groups, (b.tid, id), v1, m) && Completed(prog, b, v1, m, v')
    ensures Draws(prog, v, b, id, v')
  {
    hide Accessed, Operand, Drawn, Touches;
    forall x ensures Drawn(prog, v, b, id, x) <==>
        Touched(prog, v, groups, (b.tid, id), x) || (Accessed(prog, b, x) && x !in v.owner) {
      DrawnTouched(prog, v, b, id, groups, x);
    }
    forall x ensures Drawn(prog, v, b, id, x) <==> x in v'.owner && v'.owner[x] == m {
      if x in v.owner && v.owner[x] == m { assert Touched(prog, v, groups, (b.tid, id), x); }
    }
    forall x, y ensures Same(v', x, y) <==> Same(v, x, y) || (Drawn(prog, v, b, id, x) && Drawn(prog, v, b, id, y)) {
      if Same(v', x, y) && v'.owner[x] != m { assert x in v.owner && y in v.owner; }
      if Same(v, x, y) {
        assert Touched(prog, v, groups, (b.tid, id), x) <==> Touched(prog, v, groups, (b.tid, id), y);
      }
    }
  }

  lemma {:induction false} RangeCompletes(prog: Program, v: View, b: SmallestBlock, id: nat)
    requires Groupable(prog, b) && b.typ in {MemoryAccessBlock, MemsetBlock} && b.addr[0] < b.addr[1]
    requires id < |prog.ins| && Sound(prog, v) && b.isFirst !in {1, 2}
    ensures var r := GroupRange(prog, v, b, (b.tid, id)); r.Some? ==> Draws(prog, v, b, id, r.value)
  {
    hide MergeInst, Live, WellLabelled, MergedAs, GroupsIn, Coarser, Gathered, Draws, Completed;
    var key: Key := (b.tid, id);
    var (l, r) := (b.addr[0], b.addr[1]);
    var groups := GroupsIn(v, l, r);
    SomeGroups(v, l, r);
    MergeInstKeeps(prog, v, groups, key, b);
    MergeInstLinks(prog, v, groups, key, b);
    var (v1, m) := MergeInst(prog, v, groups, key, b).value;
    RangeGroups(prog, v, b, groups);
    FillCompletes(prog, b, v1, m, Fill(v1, l, r, m));
    if !Gap(v, l, r) { NoGap(v1, l, r, m); }
    CompletedDraws(prog, v, b, id, groups, v1, m, Fill(v1, l, r, m));
  }

  lemma {:induction false} RangeGroups(prog: Program, v: View, b: SmallestBlock, groups: set<int>)
    requires Groupable(prog, b) && b.typ in {MemoryAccessBlock, MemsetBlock} && b.addr[0] < b.addr[1] && Live(v)
    requires groups == GroupsIn(v, b.addr[0], b.addr[1])
    ensures AccessedGroups(prog, v, b, groups)
  {
    forall y | Accessed(prog, b, y) && y in v.owner ensures v.owner[y] in groups {
      OwnerIn(v, b.addr[0], b.addr[1], y);
    }
    forall g | g in groups ensures exists y :: Accessed(prog, b, y) && y in v.owner && v.owner[y] == g {
      var y :| b.addr[0] <= y < b.addr[1] && y in v.owner && v.owner[y] == g;
      assert Accessed(prog, b, y);
    }
  }

  lemma {:induction false} FillCompletes(prog: Program, b: SmallestBlock, v: View, m: int, v': View)
    requires Groupable(prog, b) && b.typ in {MemoryAccessBlock, MemsetBlock} && b.addr[0] < b.addr[1]
    requires v' == Fill(v, b.addr[0], b.addr[1], m)
    ensures Completed(prog, b, v, m, v')
  {
  }

  lemma {:induction false} NoGap(v: View, l: uint64, r: uint64, m: int)
    requires !Gap(v, l, r)
    ensures Fill(v, l, r, m) == v
  {
    assert Fill(v, l, r, m).owner == v.owner;
  }

  lemma {:induction false} MoveCompletes(prog: Program, v: View, b: SmallestBlock, id: nat)
    requires Groupable(prog, b) && b.typ == MemmoveBlock && b.addr[0] < b.addr[1]
    requires id < |prog.ins| && Sound(prog, v) && b.isFirst !in {1, 2}
    ensures var r := GroupMove(prog, v, b, (b.tid, id)); r.Some? ==> Draws(prog, v, b, id, r.value)
  {
    hide MergeInst, Live, WellLabelled, MergedAs, GroupsIn, Coarser, Gathered, Draws, Completed;
    var key: Key := (b.tid, id);
    var (l, r, l2, r2) := (b.addr[0], b.addr[1], b.addr[2], b.addr[3]);
    var groups := GroupsIn(v, l, r) + GroupsIn(v, l2, r2);
    SomeGroups(v, l, r);
    SomeGroups(v, l2, r2);
    if l2 < r2 {
      MergeInstKeeps(prog, v, groups, key, b);
      MergeInstLinks(prog, v, groups, key, b);
      var (v1, m) := MergeInst(prog, v, groups, key, b).value;
      MoveGroups(prog, v, b, groups);
      var v2 := Fill(Fill(v1, l, r, m), l2, r2, m);
      BothComplete(prog, b, v1, m, v2);
      if !Gap(v, l, r) && !Gap(v, l2, r2) {
        NoGap(v1, l, r, m);
        NoGap(v1, l2, r2, m);
      }
      CompletedDraws(prog, v, b, id, groups, v1, m, v2);
    }
  }

  lemma {:induction false} MoveGroups(prog: Program, v: View, b: SmallestBlock, groups: set<int>)
    requires Groupable(prog, b) && b.typ == MemmoveBlock && b.addr[0] < b.addr[1] && Live(v)
    requires groups == GroupsIn(v, b.addr[0], b.addr[1]) + GroupsIn(v, b.addr[2], b.addr[3])
    ensures AccessedGroups(prog, v, b, groups)
  {
    forall y | Accessed(prog, b, y) && y in v.owner ensures v.owner[y] in groups {
      if b.addr[0] <= y < b.addr[1] {
        OwnerIn(v, b.addr[0], b.addr[1], y);
      } else {
        OwnerIn(v, b.addr[2], b.addr[3], y);
      }
    }
    forall g | g in groups ensures exists y :: Accessed(prog, b, y) && y in v.owner && v.owner[y] == g {
      var y :| (b.addr[0] <= y < b.addr[1] || b.addr[2] <= y < b.addr[3]) && y in v.owner && v.owner[y] == g;
      assert Accessed(prog, b, y);
    }
  }

  lemma {:induction false} BothComplete(prog: Program, b: SmallestBlock, v: View, m: int, v': View)
    requires Groupable(prog, b) && b.typ == MemmoveBlock && b.addr[0] < b.addr[1]
    requires v' == Fill(Fill(v, b.addr[0], b.addr[1], m), b.addr[2], b.addr[3], m)
    ensures Completed(prog, b, v, m, v')
  {
  }

  lemma {:induction false} InstDraws(prog: Program, v: View, b: SmallestBlock, id: nat)
    requires Groupable(prog, b) && b.typ == NormalBlock && id < |prog.ins| && Sound(prog, v)
    requires Matters(prog, b, id) && b.isFirst !in {1, 2}
    ensures var r := Step(prog, v, b, id); r.Some? ==> Draws(prog, v, b, id, r.value)
  {
    hide MergeInst, Live, WellLabelled, MergedAs, Coarser, Gathered, Draws;
    var key: Key := (b.tid, id);
    MergeInstKeeps(prog, v, {}, key, b);
    MergeInstLinks(prog, v, {}, key, b);
    var (v1, m) := MergeInst(prog, v, {}, key, b).value;
    CompletedDraws(prog, v, b, id, {}, v1, m, v1);
  }

  /** Outside the first blocks of functions, an instruction puts together what it draws,
      and no other addresses. */
  lemma {:induction false} StepDraws(prog: Program, trace: seq<SmallestBlock>, i: nat, n: nat)
    requires GroupableTrace(prog, trace) && i < |trace| && n < |Steps(prog, trace[i])|
    requires trace[i].isFirst !in {1, 2} && ViewAt(prog, trace, i, n).Some?
    ensures var (b, id) := (trace[i], Steps(prog, trace[i])[n]);
            var (r, r') := (ViewAt(prog, trace, i, n + 1), ViewAt(prog, trace, i, n));
            && r.Some?
            && (if Matters(prog, b, id) then Draws(prog, r.value, b, id, r'.value) else r'.value == r.value)
  {
    hide ViewAt, Live, WellLabelled, GroupRange, GroupMove, Step, Draws, GroupInstructions, LeadsIn;
    LeadsLinked(prog, trace, i, n + 1);
    BlockEnds(prog, trace, i);
    var (b, id) := (trace[i], Steps(prog, trace[i])[n]);
    var r := ViewAt(prog, trace, i, n + 1);
    if b.typ == NormalBlock {
      NormalStep(prog, trace, i, n);
      if Matters(prog, b, id) { InstDraws(prog, r.value, b, id); } else { NoStep(prog, r.value, b, id); }
    } else if b.typ == MemmoveBlock {
      MoveCompletes(prog, r.value, b, id);
    } else {
      RangeCompletes(prog, r.value, b, id);
    }
  }

  lemma {:induction false} NoStep(prog: Program, v: View, b: SmallestBlock, id: nat)
    requires id < |prog.ins| && b.typ == NormalBlock && !Matters(prog, b, id)
    ensures Step(prog, v, b, id) == Some(v)
  {
  }

  predicate InRange(b: SmallestBlock, x: uint64)
    requires |b.addr| == 2
  {
    b.addr[0] <= x < b.addr[1]
  }

  /** In the declared range, or in a group with part of it. */
  ghost predicate Declares(v: View, b: SmallestBlock, x: uint64)
    requires |b.addr| == 2
  {
    InRange(b, x) || exists y :: InRange(b, y) && Same(v, x, y)
  }

  lemma {:induction false} DeclaredDraws(v: View, b: SmallestBlock)
    requires |b.addr| == 2 && Live(v)
    ensures var r := GroupDeclared(v, b); r.Some? ==>
              forall x, y :: Same(r.value, x, y) <==> Same(v, x, y) || (Declares(v, b, x) && Declares(v, b, y))
  {
    hide Merge, Live, GroupsIn, Declares;
    var (l, r) := (b.addr[0], b.addr[1]);
    var groups := GroupsIn(v, l, r);
    SomeGroups(v, l, r);
    MergeMerges(v, groups);
    MergesInto(v, groups);
    var (v1, m) := Merge(v, groups);
    forall x ensures Declares(v, b, x) <==> InRange(b, x) || (x in v.owner && v.owner[x] in groups) {
      DeclaresIs(v, b, x);
    }
    if l < r {
      var v' := Fill(v1, l, r, m);
      forall x ensures Declares(v, b, x) <==> x in v'.owner && v'.owner[x] == m {
        if x in v.owner { OwnerLive(v, x); }
        if InRange(b, x) && x in v.owner { OwnerIn(v, l, r, x); }
      }
      forall x, y ensures Same(v', x, y) <==> Same(v, x, y) || (Declares(v, b, x) && Declares(v, b, y)) {
        if Same(v', x, y) && v'.owner[x] != m { assert x in v.owner && y in v.owner; }
        if Same(v, x, y) { assert Same(v1, x, y); }
      }
    }
  }

  lemma {:induction false} OwnerLive(v: View, x: uint64)
    requires Live(v) && x in v.owner
    ensures v.owner[x] in v.live
  {
  }

  lemma {:induction false} DeclaresIs(v: View, b: SmallestBlock, x: uint64)
    requires |b.addr| == 2 && Live(v)
    ensures Declares(v, b, x) <==>
              InRange(b, x) || (x in v.owner && v.owner[x] in GroupsIn(v, b.addr[0], b.addr[1]))
  {
    var groups := GroupsIn(v, b.addr[0], b.addr[1]);
    if y :| InRange(b, y) && Same(v, x, y) { OwnerIn(v, b.addr[0], b.addr[1], y); }
    if x in v.owner && v.owner[x] in groups {
      var y :| b.addr[0] <= y < b.addr[1] && y in v.owner && v.owner[y] == v.owner[x];
      assert InRange(b, y) && Same(v, x, y);
    }
  }

  /** x is an argument of the outside call. */
  ghost predicate IsGiven(b: SmallestBlock, x: uint64) {
    exists k :: 1 <= k < |b.addr| && b.addr[k] == x
  }

  lemma {:induction false} ArgumentsDraw(v: View, addr: seq<uint64>)
    requires Live(v)
    ensures var v' := GroupArguments(v, addr);
            forall x, y :: Same(v', x, y) <==> Same(v, x, y) || (x == y && x < MAX_RANGE && x in addr)
    decreases |addr|
  {
    hide Same, GroupArgument, Live;
    if addr != [] {
      var v1 := GroupArgument(v, addr[0]);
      GroupArgumentLive(v, addr[0]);
      ArgumentsDraw(v1, addr[1..]);
      OneDraws(v, addr[0]);
      assert forall x :: x in addr <==> x == addr[0] || x in addr[1..];
      forall x, y ensures Same(GroupArguments(v, addr), x, y) <==>
          Same(v, x, y) || (x == y && x < MAX_RANGE && x in addr) {
        assert Same(GroupArguments(v1, addr[1..]), x, y) <==>
               Same(v1, x, y) || (x == y && x < MAX_RANGE && x in addr[1..]);
      }
    }
  }

  lemma {:induction false} GroupArgumentLive(v: View, a: uint64)
    requires Live(v)
    ensures Live(GroupArgument(v, a))
  {
  }

  lemma {:induction false} OneDraws(v: View, a: uint64)
    requires Live(v)
    ensures forall x, y :: Same(GroupArgument(v, a), x, y) <==> Same(v, x, y) || (x == y == a && x < MAX_RANGE)
  {
  }

  /** Beside them, a declaration puts its range together with what shares a group with it,
      and an outside call gives its arguments groups of their own. */
  lemma {:induction false} QuietDraws(prog: Program, v: View, b: SmallestBlock)
    requires Groupable(prog, b) && Live(v) && GroupBlock(prog, v, b).Some?
    requires b.typ in {DeclareBlock, ExternalCallBlock, ImpactfulCallBlock}
    ensures var v' := GroupBlock(prog, v, b).value;
            forall x, y :: Same(v', x, y) <==>
              Same(v, x, y) || (if b.typ == DeclareBlock then Declares(v, b, x) && Declares(v, b, y)
                                else x == y && x < MAX_RANGE && IsGiven(b, x))
  {
    hide Live, GroupDeclared, GroupArguments, Declares, Same;
    if b.typ == DeclareBlock {
      DeclaredDraws(v, b);
    } else {
      var addr := if |b.addr| > 0 then b.addr[1..] else [];
      ArgumentsDraw(v, addr);
      forall x ensures x in addr <==> IsGiven(b, x) {
        if k :| 1 <= k < |b.addr| && b.addr[k] == x { assert addr[k - 1] == x; }
        if x in addr {
          var j :| 0 <= j < |addr| && addr[j] == x;
          var k := j + 1;
          assert b.addr[k] == x;
        }
      }
    }
  }
}
