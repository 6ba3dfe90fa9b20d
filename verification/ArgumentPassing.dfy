/** At the first block of a function, every argument that has a group hands it to the
    variable that the caller passed (tools/PrintBug/GroupMemory.cpp, lines 162-201):
    which groups that merges, when it fails, and when it deletes a group in use. */
module ArgumentPassing {
  import opened Common
  import opened Grouping

  // --------------------------------------------------- where a group ends up

  /** A group is handed to a variable, or forgotten with an argument, or belongs to
      an argument for which the caller has no operand. */
  datatype Place = At(key: Key) | Dropped(arg: int) | Lost(arg: int)

  predicate Beyond(prog: Program, b: SmallestBlock, i: int) {
    && b.isFirst == 1 && b.caller.Some?
    && (b.caller.value >= |prog.ins| || i < |prog.ins| || i - |prog.ins| >= |prog.ins[b.caller.value].ssa|)
  }

  /** The variable of the caller that argument i stands for. */
  function Sent(prog: Program, b: SmallestBlock, i: int): Place {
    if b.isFirst != 1 || b.caller.None? then Dropped(i)
    else if Beyond(prog, b, i) then Lost(i)
    else
      var dep := prog.ins[b.caller.value].ssa[i - |prog.ins|];
      if PointerDep(prog, dep) then At(DepKey(prog, b.tid, dep)) else Dropped(i)
  }

  predicate IsArgument(b: SmallestBlock, i: int, k: Key) { k.0 == b.tid && k.1 == i }

  /** Where the group of variable k ends up once the arguments have been passed in
      order. The variable an argument is handed to may itself be an argument whose
      turn is still to come. */
  function EndsAt(prog: Program, b: SmallestBlock, args: seq<int>, k: Key): Place
    decreases |args|
  {
    if args == [] then At(k)
    else if !IsArgument(b, args[0], k) then EndsAt(prog, b, args[1..], k)
    else
      var place := Sent(prog, b, args[0]);
      if place.At? then EndsAt(prog, b, args[1..], place.key) else place
  }

  ghost function Ends(prog: Program, b: SmallestBlock, args: seq<int>): Key -> Place {
    (k: Key) => EndsAt(prog, b, args, k)
  }

  // ---------------------------------------------------------- joined groups

  /** With the group of one variable, the set holds that of every other variable that
      ends up in the same place. */
  ghost predicate Closed(place: Key -> Place, vars: map<Key, int>, s: set<int>) {
    forall k, k' :: k in vars && k' in vars && place(k) == place(k') && vars[k] in s ==> vars[k'] in s
  }

  /** Group h is in the least closed set around g. */
  ghost predicate Joined(place: Key -> Place, vars: map<Key, int>, g: int, h: int) {
    forall s :: Closed(place, vars, s) && g in s ==> h in s
  }

  /** m is the least of the groups joined with g. */
  ghost predicate LeastJoined(place: Key -> Place, vars: map<Key, int>, live: set<int>, g: int, m: int) {
    m in live && Joined(place, vars, g, m) && forall h :: h in live && Joined(place, vars, g, h) ==> m <= h
  }

  /** The variables after some groups have been merged into m: each comes from one
      that ends up in the same place; those that have gone were dropped alone. */
  ghost predicate Follows(place: Key -> Place, vars: map<Key, int>, place1: Key -> Place, vars1: map<Key, int>,
                          groups: set<int>, m: int) {
    && (forall k :: k in vars ==> Alone(place, vars, k) || Kept(place1, vars1, place(k), Moved(groups, m, vars[k])))
    && (forall k :: k in vars1 ==> Came(place, vars, groups, m, place1(k), vars1[k]))
    && (forall s, g, h :: Closed(place, vars, s) && g in groups && g in s && h in groups ==> h in s)
    && (groups != {} ==> m in groups)
  }

  /** The group of k is dropped, and no other with it. */
  ghost predicate Alone(place: Key -> Place, vars: map<Key, int>, k: Key) {
    !place(k).At? && forall k' :: k' in vars && place(k') == place(k) ==> k' == k
  }

  ghost predicate Kept(place: Key -> Place, vars: map<Key, int>, at: Place, g: int) {
    exists k :: k in vars && place(k) == at && vars[k] == g
  }

  ghost predicate Came(place: Key -> Place, vars: map<Key, int>, groups: set<int>, m: int, at: Place, g: int) {
    exists k :: k in vars && place(k) == at && Moved(groups, m, vars[k]) == g
  }

  /** Merging joined groups joins no others. */
  lemma {:induction false} JoinedStep(place: Key -> Place, vars: map<Key, int>, place1: Key -> Place,
                                      vars1: map<Key, int>, groups: set<int>, m: int, live: set<int>, g: int, h: int)
    requires Follows(place, vars, place1, vars1, groups, m) && (forall k :: k in vars ==> vars[k] in live)
    requires g in live && h in live
    ensures Joined(place, vars, g, h) <==>
              Joined(place1, vars1, Moved(groups, m, g), Moved(groups, m, h))
  {
    var (g1, h1) := (Moved(groups, m, g), Moved(groups, m, h));
    if Joined(place, vars, g, h) {
      forall s1 | Closed(place1, vars1, s1) && g1 in s1 ensures h1 in s1 {
        var s := set x | x in live && Moved(groups, m, x) in s1;
        ClosedBefore(place, vars, place1, vars1, groups, m, live, s1, s);
      }
    }
    if Joined(place1, vars1, g1, h1) {
      forall s | Closed(place, vars, s) && g in s ensures h in s {
        var s1 := set x | x in s :: Moved(groups, m, x);
        ClosedAfter(place, vars, place1, vars1, groups, m, s, s1);
        assert h1 in s1;
        var y :| y in s && Moved(groups, m, y) == h1;
      }
    }
  }

  lemma {:induction false} ClosedBefore(place: Key -> Place, vars: map<Key, int>, place1: Key -> Place,
                                        vars1: map<Key, int>, groups: set<int>, m: int, live: set<int>, s1: set<int>,
                                        s: set<int>)
    requires Follows(place, vars, place1, vars1, groups, m) && (forall k :: k in vars ==> vars[k] in live)
    requires Closed(place1, vars1, s1) && s == set x | x in live && Moved(groups, m, x) in s1
    ensures Closed(place, vars, s)
  {
    forall k, k' | k in vars && k' in vars && place(k) == place(k') && vars[k] in s ensures vars[k'] in s {
      if k != k' {
        assert !Alone(place, vars, k) && !Alone(place, vars, k');
        var a :| a in vars1 && place1(a) == place(k) && vars1[a] == Moved(groups, m, vars[k]);
        var c :| c in vars1 && place1(c) == place(k') && vars1[c] == Moved(groups, m, vars[k']);
      }
    }
  }

  lemma {:induction false} ClosedAfter(place: Key -> Place, vars: map<Key, int>, place1: Key -> Place,
                                       vars1: map<Key, int>, groups: set<int>, m: int, s: set<int>, s1: set<int>)
    requires Follows(place, vars, place1, vars1, groups, m)
    requires Closed(place, vars, s) && s1 == set x | x in s :: Moved(groups, m, x)
    ensures Closed(place1, vars1, s1)
  {
    forall k, k' | k in vars1 && k' in vars1 && place1(k) == place1(k') && vars1[k] in s1 ensures vars1[k'] in s1 {
      assert Came(place, vars, groups, m, place1(k), vars1[k]) && Came(place, vars, groups, m, place1(k'), vars1[k']);
      var a :| a in vars && place(a) == place1(k) && Moved(groups, m, vars[a]) == vars1[k];
      var c :| c in vars && place(c) == place1(k') && Moved(groups, m, vars[c]) == vars1[k'];
      var x :| x in s && Moved(groups, m, x) == vars1[k];
      assert vars[a] in s;
    }
  }

  // ------------------------------------------------------------ one argument

  /** The groups merged on behalf of argument i. */
  ghost function Paired(prog: Program, b: SmallestBlock, vars: map<Key, int>, i: nat): set<int> {
    var (key, place) := ((b.tid, i), Sent(prog, b, i));
    if key in vars && place.At? && place.key != key && place.key in vars then {vars[key], vars[place.key]} else {}
  }

  ghost function Into(groups: set<int>): int { if groups == {} then 0 else Smallest(groups) }

  /** The variables once argument i has been passed. */
  ghost function VarsAfter(prog: Program, b: SmallestBlock, vars: map<Key, int>, i: nat): map<Key, int> {
    var (key, place, groups) := ((b.tid, i), Sent(prog, b, i), Paired(prog, b, vars, i));
    if key !in vars then vars
    else
      var rest := map k | k in vars && k != key :: Moved(groups, Into(groups), vars[k]);
      if place.At? then rest[place.key := Moved(groups, Into(groups), vars[key])] else rest
  }

  lemma {:induction false} MergeIs(v: View, groups: set<int>)
    requires groups != {}
    ensures var (v', m) := Merge(v, groups);
            && m == Into(groups) && v'.live == v.live - groups + {m} && v'.vars.Keys == v.vars.Keys
            && (forall k :: k in v.vars ==> v'.vars[k] == Moved(groups, m, v.vars[k]))
            && v'.owner.Keys == v.owner.Keys
            && forall x :: x in v.owner ==> v'.owner[x] == Moved(groups, m, v.owner[x])
  {
  }

  /** Passing one argument, told by what it merges and by the variables it leaves. */
  lemma {:induction false} PassArgumentIs(prog: Program, b: SmallestBlock, v: View, i: nat)
    ensures var r := PassArgument(prog, b, v, i);
            var groups := Paired(prog, b, v.vars, i);
            && (r.None? <==> (b.tid, i) in v.vars && Sent(prog, b, i).Lost?)
            && (r.Some? ==>
                  && r.value.vars == VarsAfter(prog, b, v.vars, i)
                  && r.value.live == (if groups == {} then v.live else v.live - groups + {Into(groups)})
                  && r.value.owner.Keys == v.owner.Keys
                  && forall x :: x in v.owner ==> r.value.owner[x] == Moved(groups, Into(groups), v.owner[x]))
  {
    hide Merge, Smallest, PointerDep, LabeledOf, Into;
    var key: Key := (b.tid, i);
    var place := Sent(prog, b, i);
    if key in v.vars && place.At? && place.key != key && place.key in v.vars {
      var v1 := v.(vars := v.vars - {key});
      var v2 := v1.(labeled := v1.labeled[b.tid := LabeledOf(v1, b.tid) + {place.key.1}]);
      MergeIs(v1, {v.vars[key], v.vars[place.key]});
      MergeIs(v2, {v.vars[key], v.vars[place.key]});
    }
  }

  lemma {:induction false} EndsStep(prog: Program, b: SmallestBlock, args: seq<int>, k: Key)
    requires args != []
    ensures EndsAt(prog, b, args, k) ==
            if !IsArgument(b, args[0], k) then EndsAt(prog, b, args[1..], k)
            else if Sent(prog, b, args[0]).At? then EndsAt(prog, b, args[1..], Sent(prog, b, args[0]).key)
            else Sent(prog, b, args[0])
  {
  }

  /** Only argument i is dropped, or lost, as argument i. */
  lemma {:induction false} EndsOther(prog: Program, b: SmallestBlock, args: seq<int>, k: Key)
    ensures var place := EndsAt(prog, b, args, k); place.At? || place.arg in args
    decreases |args|
  {
    if args != [] {
      EndsOther(prog, b, args[1..], k);
      if Sent(prog, b, args[0]).At? { EndsOther(prog, b, args[1..], Sent(prog, b, args[0]).key); }
    }
  }

  predicate Distinct(args: seq<int>) {
    forall j, k :: 0 <= j < k < |args| ==> args[j] != args[k]
  }

  lemma {:induction false} KeptStep(prog: Program, b: SmallestBlock, vars: map<Key, int>, args: seq<int>, k: Key)
    requires args != [] && args[0] >= 0 && Distinct(args) && k in vars
    requires (b.tid, args[0] as nat) in vars ==> !Sent(prog, b, args[0]).Lost?
    ensures var (i: nat, before) := (args[0], Ends(prog, b, args));
            var (groups, vars1) := (Paired(prog, b, vars, i), VarsAfter(prog, b, vars, i));
            || Alone(before, vars, k)
            || Kept(Ends(prog, b, args[1..]), vars1, before(k), Moved(groups, Into(groups), vars[k]))
  {
    hide Sent, Into, Alone;
    var i: nat := args[0];
    var groups := Paired(prog, b, vars, i);
    var (m, vars1) := (Into(groups), VarsAfter(prog, b, vars, i));
    EndsStep(prog, b, args, k);
    if k != (b.tid, i) {
      assert k in vars1 && EndsAt(prog, b, args[1..], k) == EndsAt(prog, b, args, k)
             && vars1[k] == Moved(groups, m, vars[k]);
    } else if Sent(prog, b, i).At? {
      var k1 := Sent(prog, b, i).key;
      assert k1 in vars1 && vars1[k1] == Moved(groups, m, vars[k]);
    } else {
      DroppedAlone(prog, b, vars, args);
    }
  }

  lemma {:induction false} CameStep(prog: Program, b: SmallestBlock, vars: map<Key, int>, args: seq<int>, k: Key)
    requires args != [] && args[0] >= 0 && k in VarsAfter(prog, b, vars, args[0])
    ensures var i: nat := args[0];
            var (groups, vars1) := (Paired(prog, b, vars, i), VarsAfter(prog, b, vars, i));
            Came(Ends(prog, b, args), vars, groups, Into(groups), EndsAt(prog, b, args[1..], k), vars1[k])
  {
    hide Sent, Into;
    var key: Key := (b.tid, args[0] as nat);
    var from := if key in vars && Sent(prog, b, args[0]) == At(k) then key else k;
    EndsStep(prog, b, args, from);
    assert from in vars && Ends(prog, b, args)(from) == EndsAt(prog, b, args[1..], k);
  }

  lemma {:induction false} PairJoined(prog: Program, b: SmallestBlock, vars: map<Key, int>, args: seq<int>,
                                      s: set<int>)
    requires args != [] && args[0] >= 0 && Closed(Ends(prog, b, args), vars, s)
    ensures var groups := Paired(prog, b, vars, args[0]);
            forall g, h :: g in groups && g in s && h in groups ==> h in s
  {
    hide Sent;
    var key: Key := (b.tid, args[0] as nat);
    EndsStep(prog, b, args, key);
    var place := Sent(prog, b, args[0]);
    if place.At? {
      EndsStep(prog, b, args, place.key);
      assert place.key != key ==> Ends(prog, b, args)(place.key) == Ends(prog, b, args)(key);
    }
  }

  /** Passing the first argument merges joined groups only. */
  lemma {:induction false} FollowsStep(prog: Program, b: SmallestBlock, vars: map<Key, int>, args: seq<int>)
    requires args != [] && args[0] >= 0 && Distinct(args)
    requires (b.tid, args[0] as nat) in vars ==> !Sent(prog, b, args[0]).Lost?
    ensures var i: nat := args[0];
            var (groups, vars1) := (Paired(prog, b, vars, i), VarsAfter(prog, b, vars, i));
            Follows(Ends(prog, b, args), vars, Ends(prog, b, args[1..]), vars1, groups, Into(groups))
  {
    hide Sent, Smallest, Paired, VarsAfter, Alone, Kept, Came, Closed, EndsAt;
    var i: nat := args[0];
    var groups := Paired(prog, b, vars, i);
    var (before, after, vars1) := (Ends(prog, b, args), Ends(prog, b, args[1..]), VarsAfter(prog, b, vars, i));
    forall k | k in vars
      ensures Alone(before, vars, k) || Kept(after, vars1, before(k), Moved(groups, Into(groups), vars[k]))
    {
      KeptStep(prog, b, vars, args, k);
    }
    forall k | k in vars1 ensures Came(before, vars, groups, Into(groups), after(k), vars1[k]) {
      CameStep(prog, b, vars, args, k);
    }
    forall s | Closed(before, vars, s) ensures forall g, h :: g in groups && g in s && h in groups ==> h in s {
      PairJoined(prog, b, vars, args, s);
    }
    if groups != {} { IntoIn(groups); }
  }

  lemma {:induction false} IntoIn(groups: set<int>)
    requires groups != {}
    ensures Into(groups) in groups && forall g :: g in groups ==> Into(groups) <= g
  {
  }

  lemma {:induction false} DroppedAlone(prog: Program, b: SmallestBlock, vars: map<Key, int>, args: seq<int>)
    requires args != [] && args[0] >= 0 && Distinct(args) && Sent(prog, b, args[0]).Dropped?
    ensures Alone(Ends(prog, b, args), vars, (b.tid, args[0] as nat))
  {
    hide Sent;
    var key := (b.tid, args[0] as nat);
    SentSame(prog, b, args[0]);
    forall k | k in vars && EndsAt(prog, b, args, k) == EndsAt(prog, b, args, key) ensures k == key {
      EndsStep(prog, b, args, k);
      EndsStep(prog, b, args, key);
      EndsOther(prog, b, args[1..], k);
    }
  }

  lemma {:induction false} SentSame(prog: Program, b: SmallestBlock, i: int)
    ensures !Sent(prog, b, i).At? ==> Sent(prog, b, i).arg == i
  {
  }

  // ----------------------------------------------------------- all arguments

  /** Passing the arguments fails exactly if the group of some variable comes by an
      argument for which the caller has no operand. */
  ghost predicate Loses(prog: Program, b: SmallestBlock, vars: map<Key, int>, args: seq<int>) {
    exists k :: k in vars && EndsAt(prog, b, args, k).Lost?
  }

  lemma {:induction false} LosesStep(prog: Program, b: SmallestBlock, v: View, args: seq<int>)
    requires Live(v) && args != [] && args[0] >= 0 && Distinct(args)
    ensures var r := PassArgument(prog, b, v, args[0]);
            Loses(prog, b, v.vars, args) <==> r.None? || Loses(prog, b, r.value.vars, args[1..])
  {
    hide PassArgument, Live, Paired, Sent, EndsAt;
    var i: nat := args[0];
    var key: Key := (b.tid, i);
    PassArgumentIs(prog, b, v, i);
    EndsStep(prog, b, args, key);
    var r := PassArgument(prog, b, v, i);
    if r.Some? {
      var vars1 := r.value.vars;
      if k :| k in v.vars && EndsAt(prog, b, args, k).Lost? {
        EndsStep(prog, b, args, k);
        var k1 := if k == key then Sent(prog, b, i).key else k;
        assert k1 in vars1 && EndsAt(prog, b, args[1..], k1).Lost?;
      }
      if k :| k in vars1 && EndsAt(prog, b, args[1..], k).Lost? {
        var from := if key in v.vars && Sent(prog, b, i) == At(k) then key else k;
        EndsStep(prog, b, args, from);
        assert from in v.vars && EndsAt(prog, b, args, from).Lost?;
      }
    }
  }

  /** What passing the arguments does to all groups and variables: each group becomes
      the least of those it is joined with, and a group still exists exactly if it is
      that itself. */
  ghost predicate PassedAs(place: Key -> Place, v: View, v': View) {
    && v'.owner.Keys == v.owner.Keys
    && (forall x :: x in v.owner ==> LeastJoined(place, v.vars, v.live, v.owner[x], v'.owner[x]))
    && (forall g :: g in v'.live <==> g in v.live && LeastJoined(place, v.vars, v.live, g, g))
    && (forall k :: k in v'.vars <==> Filled(place, v.vars, k))
    && (forall k :: k in v.vars && place(k).At? ==>
          place(k).key in v'.vars && LeastJoined(place, v.vars, v.live, v.vars[k], v'.vars[place(k).key]))
  }

  ghost predicate Filled(place: Key -> Place, vars: map<Key, int>, k: Key) {
    exists from :: from in vars && place(from) == At(k)
  }

  lemma {:induction false} LeastStep(place: Key -> Place, vars: map<Key, int>, place1: Key -> Place,
                                     vars1: map<Key, int>, groups: set<int>, live: set<int>, live1: set<int>, g: int,
                                     m: int)
    requires Follows(place, vars, place1, vars1, groups, Into(groups)) && (forall k :: k in vars ==> vars[k] in live)
    requires g in live && groups <= live && live1 == if groups == {} then live else live - groups + {Into(groups)}
    ensures LeastJoined(place, vars, live, g, m) <==>
              LeastJoined(place1, vars1, live1, Moved(groups, Into(groups), g), m)
  {
    hide Follows, Joined, Into;
    var s := Into(groups);
    var g1 := Moved(groups, s, g);
    if groups != {} { IntoIn(groups); }
    forall h | h in live
      ensures Joined(place, vars, g, h) <==> Joined(place1, vars1, g1, Moved(groups, s, h))
    {
      JoinedStep(place, vars, place1, vars1, groups, s, live, g, h);
    }
    assert forall h :: h in live1 ==> h in live && Moved(groups, s, h) == h;
    assert forall h :: h in live ==> Moved(groups, s, h) in live1 && Moved(groups, s, h) <= h;
  }

  /** What has been passed: the whole result, in terms of where the variables end up. */
  lemma {:induction false} PassedGroups(prog: Program, b: SmallestBlock, v: View, args: seq<int>)
    requires Live(v) && Distinct(args) && forall k :: 0 <= k < |args| ==> args[k] >= 0
    ensures var r := PassArguments(prog, b, v, args);
            && (r.None? <==> Loses(prog, b, v.vars, args))
            && (r.Some? ==> PassedAs(Ends(prog, b, args), v, r.value))
    decreases |args|
  {
    hide PassArgument, Loses, PassedAs, Live;
    if args == [] {
      NothingPassed(prog, b, v);
    } else {
      LosesStep(prog, b, v, args);
      var r := PassArgument(prog, b, v, args[0]);
      if r.Some? {
        PassArgumentKeeps(prog, b, v, args[0]);
        PassedGroups(prog, b, r.value, args[1..]);
        var r' := PassArguments(prog, b, r.value, args[1..]);
        if r'.Some? { PassedStep(prog, b, v, args, r.value, r'.value); }
      }
    }
  }

  lemma {:induction false} NothingPassed(prog: Program, b: SmallestBlock, v: View)
    requires Live(v)
    ensures !Loses(prog, b, v.vars, []) && PassedAs(Ends(prog, b, []), v, v)
  {
    var place := Ends(prog, b, []);
    assert forall k :: place(k) == At(k);
    forall g ensures Closed(place, v.vars, {g}) {
    }
    forall g | g in v.live ensures LeastJoined(place, v.vars, v.live, g, g) {
      forall h | Joined(place, v.vars, g, h) ensures h == g {
        var s := {g};
        assert Closed(place, v.vars, s);
      }
    }
    forall k ensures k in v.vars <==> Filled(place, v.vars, k) {
      if k in v.vars { assert place(k) == At(k); }
    }
  }

  lemma {:induction false} PassedStep(prog: Program, b: SmallestBlock, v: View, args: seq<int>, v1: View, v': View)
    requires Live(v) && args != [] && args[0] >= 0 && Distinct(args)
    requires PassArgument(prog, b, v, args[0]) == Some(v1) && PassedAs(Ends(prog, b, args[1..]), v1, v')
    ensures PassedAs(Ends(prog, b, args), v, v')
  {
    hide PassArgument, Paired, VarsAfter, LeastJoined, Follows, Sent, EndsAt, Into;
    var i: nat := args[0];
    var groups := Paired(prog, b, v.vars, i);
    var (before, after) := (Ends(prog, b, args), Ends(prog, b, args[1..]));
    PassArgumentIs(prog, b, v, i);
    FollowsStep(prog, b, v.vars, args);
    PairedLive(prog, b, v, i);
    if groups != {} { IntoIn(groups); }
    forall g, m | g in v.live
      ensures LeastJoined(before, v.vars, v.live, g, m) <==>
              LeastJoined(after, v1.vars, v1.live, Moved(groups, Into(groups), g), m)
    {
      LeastStep(before, v.vars, after, v1.vars, groups, v.live, v1.live, g, m);
    }
    forall g | g in v.live ensures g in v'.live <==> LeastJoined(before, v.vars, v.live, g, g) {
      LeastLives(after, v1.vars, v1.live, Moved(groups, Into(groups), g), g);
    }
    forall k | k in v.vars && before(k).At?
      ensures Filled(after, v1.vars, before(k).key)
      ensures before(k).key in v'.vars && LeastJoined(before, v.vars, v.live, v.vars[k], v'.vars[before(k).key])
    {
      FollowKept(before, v.vars, after, v1.vars, groups, Into(groups), k);
      var k1 :| k1 in v1.vars && after(k1) == before(k) && v1.vars[k1] == Moved(groups, Into(groups), v.vars[k]);
    }
    forall k | Filled(after, v1.vars, k) ensures Filled(before, v.vars, k) {
      FollowCame(before, v.vars, after, v1.vars, groups, Into(groups), k);
    }
  }

  lemma {:induction false} LeastLives(place: Key -> Place, vars: map<Key, int>, live: set<int>, g: int, m: int)
    ensures LeastJoined(place, vars, live, g, m) ==> m in live
  {
  }

  lemma {:induction false} FollowKept(place: Key -> Place, vars: map<Key, int>, place1: Key -> Place,
                                      vars1: map<Key, int>, groups: set<int>, m: int, k: Key)
    requires Follows(place, vars, place1, vars1, groups, m) && k in vars && place(k).At?
    ensures Kept(place1, vars1, place(k), Moved(groups, m, vars[k]))
  {
  }

  lemma {:induction false} FollowCame(place: Key -> Place, vars: map<Key, int>, place1: Key -> Place,
                                      vars1: map<Key, int>, groups: set<int>, m: int, k: Key)
    requires Follows(place, vars, place1, vars1, groups, m) && Filled(place1, vars1, k)
    ensures Filled(place, vars, k)
  {
    var from :| from in vars1 && place1(from) == At(k);
    assert Came(place, vars, groups, m, place1(from), vars1[from]);
  }

  lemma {:induction false} PairedLive(prog: Program, b: SmallestBlock, v: View, i: nat)
    requires Live(v)
    ensures Paired(prog, b, v.vars, i) <= v.live
  {
    hide Sent;
  }

  // ------------------------------------------------------- when a block fails

  lemma {:induction false} SortedDistinct(s: set<int>)
    ensures Distinct(Sorted(s))
    decreases |s|
  {
    if s != {} {
      var m := Smallest(s);
      assert |s - {m}| < |s|;
      SortedDistinct(s - {m});
      assert m !in Sorted(s - {m});
    }
  }

  /** The view in which instruction `key` passes the arguments: its own operands have
      been merged already. */
  ghost function BeforePassing(prog: Program, v: View, groups: set<int>, key: Key, b: SmallestBlock): View
    requires key.1 < |prog.ins|
  {
    var v1 := MergeOperands(prog, v, groups, key).0;
    v1.(labeled := v1.labeled[b.tid := {}])
  }

  ghost function Labels(prog: Program, v: View, groups: set<int>, key: Key, b: SmallestBlock): (args: seq<int>)
    requires key.1 < |prog.ins|
    ensures Distinct(args) && forall k :: 0 <= k < |args| ==> args[k] >= 0
  {
    var args := LabeledOf(MergeOperands(prog, v, groups, key).0, b.tid);
    SortedDistinct(args);
    Sorted(args)
  }

  /** A labelled argument with a group, or one handed on to it, has no operand. */
  ghost predicate PassingLoses(prog: Program, v: View, groups: set<int>, key: Key, b: SmallestBlock)
    requires key.1 < |prog.ins|
  {
    b.isFirst in {1, 2} && Loses(prog, b, BeforePassing(prog, v, groups, key, b).vars, Labels(prog, v, groups, key, b))
  }

  /** Passing the arguments joins the instruction's group with a smaller one. */
  ghost predicate PassingDeletes(prog: Program, v: View, groups: set<int>, key: Key, b: SmallestBlock)
    requires key.1 < |prog.ins|
  {
    b.isFirst in {1, 2} && JoinsSmaller(Ends(prog, b, Labels(prog, v, groups, key, b)),
                                        BeforePassing(prog, v, groups, key, b), MergeOperands(prog, v, groups, key).1)
  }

  ghost predicate JoinsSmaller(place: Key -> Place, v: View, m: int) {
    exists g :: g in v.live && g < m && Joined(place, v.vars, m, g)
  }

  lemma {:induction false} MergeInstExactly(prog: Program, v: View, groups: set<int>, key: Key, b: SmallestBlock)
    requires key.1 < |prog.ins| && Live(v) && groups <= v.live
    ensures var r := MergeInst(prog, v, groups, key, b);
            && (r.None? <==> PassingLoses(prog, v, groups, key, b))
            && (r.Some? ==> (r.value.1 in r.value.0.live <==> !PassingDeletes(prog, v, groups, key, b)))
  {
    hide MergeOperands, PassArguments, Loses, Joined, PassedAs, Live;
    MergeOperandsKeeps(prog, v, groups, key);
    if b.isFirst in {1, 2} {
      var (v2, args) := (BeforePassing(prog, v, groups, key, b), Labels(prog, v, groups, key, b));
      Relabeled(MergeOperands(prog, v, groups, key).0, v2, v);
      PassedGroups(prog, b, v2, args);
      var m := MergeOperands(prog, v, groups, key).1;
      var place := Ends(prog, b, args);
      JoinedSelf(place, v2.vars, m);
      if PassArguments(prog, b, v2, args).Some? { PassedLives(place, v2, PassArguments(prog, b, v2, args).value, m); }
      assert m in v2.live;
    }
  }

  lemma {:induction false} PassedLives(place: Key -> Place, v: View, v': View, g: int)
    requires PassedAs(place, v, v') && g in v.live
    ensures g in v'.live <==> LeastJoined(place, v.vars, v.live, g, g)
  {
  }

  lemma {:induction false} JoinedSelf(place: Key -> Place, vars: map<Key, int>, g: int)
    ensures Joined(place, vars, g, g)
  {
  }

  /** The groups that own part of what an access touches. */
  ghost function AccessGroups(v: View, b: SmallestBlock): set<int>
    requires |b.addr| >= 2 && (b.typ == MemmoveBlock ==> |b.addr| >= 4)
  {
    GroupsIn(v, b.addr[0], b.addr[1]) + if b.typ == MemmoveBlock then GroupsIn(v, b.addr[2], b.addr[3]) else {}
  }

  ghost predicate AccessGap(v: View, b: SmallestBlock)
    requires |b.addr| >= 2 && (b.typ == MemmoveBlock ==> |b.addr| >= 4)
  {
    Gap(v, b.addr[0], b.addr[1]) || (b.typ == MemmoveBlock && Gap(v, b.addr[2], b.addr[3]))
  }

  predicate Accesses(b: SmallestBlock)
    requires b.typ in {MemoryAccessBlock, MemsetBlock} ==> |b.addr| == 2
    requires b.typ == MemmoveBlock ==> |b.addr| == 4
  {
    b.typ in {MemoryAccessBlock, MemsetBlock, MemmoveBlock} && b.addr[0] < b.addr[1]
  }

  /** At some instruction of the block, a labelled argument has no operand. */
  ghost predicate ArgumentLost(prog: Program, v: View, b: SmallestBlock)
    requires Groupable(prog, b)
  {
    || (Accesses(b) && PassingLoses(prog, v, AccessGroups(v, b), (b.tid, prog.bb2ins[b.bb][b.start]), b))
    || (b.typ == NormalBlock && InstructionsLose(prog, v, b, prog.bb2ins[b.bb][b.start..b.end]))
  }

  ghost predicate InstructionsLose(prog: Program, v: View, b: SmallestBlock, ids: seq<nat>)
    requires forall k :: 0 <= k < |ids| ==> ids[k] < |prog.ins|
  {
    exists k, n :: 0 <= k < n <= |ids| && n == k + 1
        && InstructionLoses(prog, GroupInstructions(prog, v, b, ids[n..]), b, ids[k])
  }

  ghost predicate InstructionLoses(prog: Program, v: Option<View>, b: SmallestBlock, id: nat)
    requires id < |prog.ins|
  {
    v.Some? && Grouped(prog.ins[id]) && PassingLoses(prog, v.value, {}, (b.tid, id), b)
  }

  /** The access has to give addresses to its group, which the passing deletes. */
  ghost predicate GroupDeleted(prog: Program, v: View, b: SmallestBlock)
    requires Groupable(prog, b)
  {
    && Accesses(b) && AccessGap(v, b)
    && PassingDeletes(prog, v, AccessGroups(v, b), (b.tid, prog.bb2ins[b.bb][b.start]), b)
  }

  /** Passing the last instruction first, all others are passed as before. */
  lemma {:induction false} InstructionsStep(prog: Program, v: View, b: SmallestBlock, ids: seq<nat>, v1: View, k: nat)
    requires ids != [] && k < |ids| && forall k :: 0 <= k < |ids| ==> ids[k] < |prog.ins|
    requires GroupInstructions(prog, v, b, [ids[|ids| - 1]]) == Some(v1)
    ensures GroupInstructions(prog, v, b, ids[k..]) == GroupInstructions(prog, v1, b, ids[..|ids| - 1][k..])
  {
    hide MergeInst;
    var n := |ids| - 1;
    assert ids[k..][..n - k] == ids[..n][k..];
    assert [ids[n]][..0] == [];
  }

  lemma {:induction false} LastExactly(prog: Program, v: View, b: SmallestBlock, id: nat)
    requires Live(v) && id < |prog.ins|
    ensures GroupInstructions(prog, v, b, [id]).None? <==> InstructionLoses(prog, Some(v), b, id)
    ensures GroupInstructions(prog, v, b, [id]).Some? ==> Live(GroupInstructions(prog, v, b, [id]).value)
  {
    hide Live, MergeInst, PassingLoses;
    MergeInstExactly(prog, v, {}, (b.tid, id), b);
    MergeInstKeeps(prog, v, {}, (b.tid, id), b);
    assert [id][..0] == [];
  }

  lemma {:induction false} InstructionsExactly(prog: Program, v: View, b: SmallestBlock, ids: seq<nat>)
    requires Live(v) && forall k :: 0 <= k < |ids| ==> ids[k] < |prog.ins|
    ensures GroupInstructions(prog, v, b, ids).None? <==> InstructionsLose(prog, v, b, ids)
    decreases |ids|
  {
    hide Live, GroupInstructions, InstructionLoses;
    if ids == [] {
      NoInstructions(prog, v, b);
    } else {
      var n := |ids| - 1;
      LastExactly(prog, v, b, ids[n]);
      NoInstructions(prog, v, b);
      assert ids[n + 1..] == [] && ids[n..] == [ids[n]] && ids[0..] == ids;
      var r := GroupInstructions(prog, v, b, [ids[n]]);
      if r.Some? {
        InstructionsExactly(prog, r.value, b, ids[..n]);
        assert ids[..n][0..] == ids[..n];
        forall k | 0 <= k <= n
          ensures GroupInstructions(prog, v, b, ids[k..]) == GroupInstructions(prog, r.value, b, ids[..n][k..])
        {
          InstructionsStep(prog, v, b, ids, r.value, k);
        }
      } else {
        InstructionsFail(prog, v, b, ids);
      }
    }
  }

  lemma {:induction false} NoInstructions(prog: Program, v: View, b: SmallestBlock)
    ensures GroupInstructions(prog, v, b, []) == Some(v)
  {
  }

  lemma {:induction false} InstructionsFail(prog: Program, v: View, b: SmallestBlock, ids: seq<nat>)
    requires ids != [] && forall k :: 0 <= k < |ids| ==> ids[k] < |prog.ins|
    requires GroupInstructions(prog, v, b, [ids[|ids| - 1]]).None?
    ensures GroupInstructions(prog, v, b, ids).None?
  {
    hide MergeInst;
    assert [ids[|ids| - 1]][..0] == [];
  }

  /** Exactly when grouping a block fails: the block itself is rejected, an argument is
      lost, or the group it needs is deleted. */
  lemma {:induction false} GroupBlockFails(prog: Program, v: View, b: SmallestBlock)
    requires Groupable(prog, b) && Live(v)
    ensures GroupBlock(prog, v, b).None? <==> Rejected(b) || ArgumentLost(prog, v, b) || GroupDeleted(prog, v, b)
  {
    hide Live, MergeInst, GroupInstructions, PassingLoses, PassingDeletes, InstructionsLose, Gap, GroupsIn, Fill;
    if b.typ == NormalBlock {
      InstructionsExactly(prog, v, b, prog.bb2ins[b.bb][b.start..b.end]);
    } else if Accesses(b) {
      GroupsLive(v, b);
      MergeInstExactly(prog, v, AccessGroups(v, b), (b.tid, prog.bb2ins[b.bb][b.start]), b);
      assert b.typ != MemmoveBlock ==> AccessGroups(v, b) == GroupsIn(v, b.addr[0], b.addr[1]);
    }
  }

  lemma {:induction false} GroupsLive(v: View, b: SmallestBlock)
    requires |b.addr| >= 2 && (b.typ == MemmoveBlock ==> |b.addr| >= 4)
    ensures AccessGroups(v, b) <= v.live
  {
  }

  ghost predicate FailsAt(prog: Program, trace: seq<SmallestBlock>, j: nat)
    requires GroupableTrace(prog, trace) && j < |trace|
  {
    && GroupTrace(prog, trace, j + 1).Some?
    && var v := GroupTrace(prog, trace, j + 1).value;
       Rejected(trace[j]) || ArgumentLost(prog, v, trace[j]) || GroupDeleted(prog, v, trace[j])
  }

  /** Exactly when grouping a trace fails. */
  lemma {:induction false} GroupTraceFails(prog: Program, trace: seq<SmallestBlock>, i: nat)
    requires GroupableTrace(prog, trace) && i <= |trace|
    ensures GroupTrace(prog, trace, i).None? <==> exists j: nat :: i <= j < |trace| && FailsAt(prog, trace, j)
    decreases |trace| - i
  {
    hide Live, GroupBlock, ArgumentLost, GroupDeleted, Rejected;
    if i < |trace| {
      GroupTraceFails(prog, trace, i + 1);
      var v := GroupTrace(prog, trace, i + 1);
      if v.Some? {
        GroupTraceGroups(prog, trace, i + 1);
        GroupBlockFails(prog, v.value, trace[i]);
        assert FailsAt(prog, trace, i) <==> GroupTrace(prog, trace, i).None?;
      }
    }
  }

  /** A caller with an operand for every labelled argument loses none; and it loses
      every labelled argument with a group for which it has none. */
  lemma {:induction false} LosesOnly(prog: Program, b: SmallestBlock, vars: map<Key, int>, args: seq<int>)
    ensures Loses(prog, b, vars, args) ==> exists i :: i in args && Beyond(prog, b, i)
    ensures (exists i: nat :: i in args && Beyond(prog, b, i) && (b.tid, i) in vars) ==> Loses(prog, b, vars, args)
  {
    hide Beyond;
    if k :| k in vars && EndsAt(prog, b, args, k).Lost? { LostBeyond(prog, b, args, k); }
    if i: nat :| i in args && Beyond(prog, b, i) && (b.tid, i) in vars { BeyondLost(prog, b, args, i); }
  }

  lemma {:induction false} LostBeyond(prog: Program, b: SmallestBlock, args: seq<int>, k: Key)
    requires EndsAt(prog, b, args, k).Lost?
    ensures exists i :: i in args && Beyond(prog, b, i)
    decreases |args|
  {
    hide Beyond;
    assert args != [];
    var place := Sent(prog, b, args[0]);
    if !IsArgument(b, args[0], k) {
      LostBeyond(prog, b, args[1..], k);
    } else if place.At? {
      LostBeyond(prog, b, args[1..], place.key);
    } else {
      assert args[0] in args && Beyond(prog, b, args[0]);
    }
  }

  lemma {:induction false} BeyondLost(prog: Program, b: SmallestBlock, args: seq<int>, i: nat)
    requires i in args && Beyond(prog, b, i)
    ensures EndsAt(prog, b, args, (b.tid, i)).Lost?
    decreases |args|
  {
    if args[0] != i { BeyondLost(prog, b, args[1..], i); }
  }

  // --------------------------------------------------- merging what it should

  /** Where variable k should end up: an argument at the caller's variable it stands
      for, every other variable where it is. */
  function SentAt(prog: Program, b: SmallestBlock, args: seq<int>, k: Key): Place {
    if k.0 == b.tid && k.1 in args then Sent(prog, b, k.1) else At(k)
  }

  ghost function Directly(prog: Program, b: SmallestBlock, args: seq<int>): Key -> Place {
    (k: Key) => SentAt(prog, b, args, k)
  }

  /** If an argument stands for a variable that is itself an argument still to be
      passed, that one stands for itself. */
  predicate Orderly(prog: Program, b: SmallestBlock, args: seq<int>) {
    forall j, k :: 0 <= j < k < |args| && args[k] >= 0 && Sent(prog, b, args[j]) == At((b.tid, args[k])) ==>
      Sent(prog, b, args[k]) == Sent(prog, b, args[j])
  }

  /** Two addresses share a group afterwards exactly if their groups are joined by
      arguments and the caller's own variables. */
  ghost predicate MergesDirectly(prog: Program, b: SmallestBlock, v: View, args: seq<int>)
    requires forall k :: 0 <= k < |args| ==> args[k] >= 0
  {
    var r := PassArguments(prog, b, v, args);
    && r.Some?
    && forall x, y :: x in v.owner && y in v.owner ==>
      (Same(r.value, x, y) <==> Joined(Directly(prog, b, args), v.vars, v.owner[x], v.owner[y]))
  }

  lemma {:induction false} OrderlyEnds(prog: Program, b: SmallestBlock, args: seq<int>, k: Key)
    requires Distinct(args) && Orderly(prog, b, args) && forall k :: 0 <= k < |args| ==> args[k] >= 0
    ensures EndsAt(prog, b, args, k) == SentAt(prog, b, args, k)
    decreases |args|
  {
    hide Sent;
    if args != [] {
      if !IsArgument(b, args[0], k) {
        OrderlyEnds(prog, b, args[1..], k);
      } else if Sent(prog, b, args[0]).At? {
        var key := Sent(prog, b, args[0]).key;
        OrderlyEnds(prog, b, args[1..], key);
        if key.0 == b.tid && key.1 in args[1..] {
          var n :| 0 < n < |args| && args[n] == key.1;
          assert Sent(prog, b, args[n]) == Sent(prog, b, args[0]);
        }
      }
    }
  }

  lemma {:induction false} JoinedBack(place: Key -> Place, vars: map<Key, int>, live: set<int>, g: int, h: int)
    requires (forall k :: k in vars ==> vars[k] in live) && g in live && Joined(place, vars, g, h)
    ensures Joined(place, vars, h, g)
  {
    forall s | Closed(place, vars, s) && h in s ensures g in s {
      var rest := live - s;
      assert Closed(place, vars, rest);
    }
  }

  lemma {:induction false} JoinedOn(place: Key -> Place, vars: map<Key, int>, f: int, g: int, h: int)
    requires Joined(place, vars, f, g) && Joined(place, vars, g, h)
    ensures Joined(place, vars, f, h)
  {
  }

  /** Two groups become one exactly if they are joined. */
  lemma {:induction false} LeastSame(place: Key -> Place, vars: map<Key, int>, live: set<int>, g: int, g': int, h: int,
                                     h': int)
    requires (forall k :: k in vars ==> vars[k] in live) && g in live && h in live
    requires LeastJoined(place, vars, live, g, g') && LeastJoined(place, vars, live, h, h')
    ensures g' == h' <==> Joined(place, vars, g, h)
  {
    hide Joined;
    JoinedBack(place, vars, live, g, g');
    JoinedBack(place, vars, live, h, h');
    if g' == h' {
      JoinedOn(place, vars, g, g', h);
    }
    if Joined(place, vars, g, h) {
      JoinedBack(place, vars, live, g, h);
      JoinedOn(place, vars, g, h, h');
      JoinedOn(place, vars, h, g, g');
    }
  }

  /** After passing, two addresses share a group exactly if their groups were joined. */
  lemma {:induction false} PassedSame(prog: Program, b: SmallestBlock, v: View, args: seq<int>, x: uint64, y: uint64)
    requires Live(v) && Distinct(args) && forall k :: 0 <= k < |args| ==> args[k] >= 0
    requires PassArguments(prog, b, v, args).Some? && x in v.owner && y in v.owner
    ensures Same(PassArguments(prog, b, v, args).value, x, y) <==>
              Joined(Ends(prog, b, args), v.vars, v.owner[x], v.owner[y])
  {
    hide Joined, PassArguments, LeastJoined;
    PassedGroups(prog, b, v, args);
    var v' := PassArguments(prog, b, v, args).value;
    LeastSame(Ends(prog, b, args), v.vars, v.live, v.owner[x], v'.owner[x], v.owner[y], v'.owner[y]);
  }

  lemma {:induction false} JoinedAlike(place: Key -> Place, place': Key -> Place, vars: map<Key, int>, g: int, h: int)
    requires forall k :: place(k) == place'(k)
    ensures Joined(place, vars, g, h) <==> Joined(place', vars, g, h)
  {
    forall s ensures Closed(place, vars, s) <==> Closed(place', vars, s) {
    }
  }

  lemma {:induction false} OrderlyMerges(prog: Program, b: SmallestBlock, v: View, args: seq<int>)
    requires Distinct(args) && (forall k :: 0 <= k < |args| ==> args[k] >= 0 && !Sent(prog, b, args[k]).Lost?)
    requires Live(v) && Orderly(prog, b, args)
    ensures MergesDirectly(prog, b, v, args)
  {
    hide Joined, PassArguments, Sent, Live, Beyond;
    forall i | i in args ensures !Beyond(prog, b, i) { BeyondSent(prog, b, i); }
    LosesOnly(prog, b, v.vars, args);
    PassedGroups(prog, b, v, args);
    forall k ensures Ends(prog, b, args)(k) == Directly(prog, b, args)(k) { OrderlyEnds(prog, b, args, k); }
    forall x, y | x in v.owner && y in v.owner
      ensures Same(PassArguments(prog, b, v, args).value, x, y) <==>
              Joined(Directly(prog, b, args), v.vars, v.owner[x], v.owner[y])
    {
      PassedSame(prog, b, v, args, x, y);
      JoinedAlike(Ends(prog, b, args), Directly(prog, b, args), v.vars, v.owner[x], v.owner[y]);
    }
  }

  lemma {:induction false} BeyondSent(prog: Program, b: SmallestBlock, i: int)
    ensures Beyond(prog, b, i) <==> Sent(prog, b, i).Lost?
  {
  }

  /** Arguments before the turn of variable k leave it where it is. */
  lemma {:induction false} EndsLater(prog: Program, b: SmallestBlock, args: seq<int>, k: Key, n: nat)
    requires n <= |args| && forall j :: 0 <= j < n ==> !IsArgument(b, args[j], k)
    ensures EndsAt(prog, b, args, k) == EndsAt(prog, b, args[n..], k)
  {
    if n > 0 {
      EndsLater(prog, b, args, k, n - 1);
      assert args[n - 1..][1..] == args[n..];
    }
  }

  /** Two arguments with a group each. */
  function TwoGroups(tid: Tid, i: nat, l: nat): View {
    View(2, map[(tid, i) := 1, (tid, l) := 2], imap[0 := 1, 1 := 2], {1, 2}, map[])
  }

  lemma {:induction false} MeetEarly(prog: Program, b: SmallestBlock, args: seq<int>, j: nat, k: nat)
    requires Distinct(args) && j < k < |args| && args[j] >= 0 && args[k] >= 0
    requires Sent(prog, b, args[j]) == At((b.tid, args[k])) != Sent(prog, b, args[k])
    ensures var v := TwoGroups(b.tid, args[j], args[k]);
            && Live(v) && Joined(Ends(prog, b, args), v.vars, 1, 2) && !Joined(Directly(prog, b, args), v.vars, 1, 2)
  {
    hide Sent;
    var (i: nat, l: nat) := (args[j], args[k]);
    var v := TwoGroups(b.tid, i, l);
    EndsLater(prog, b, args, (b.tid, i), j);
    EndsStep(prog, b, args[j..], (b.tid, i));
    EndsLater(prog, b, args, (b.tid, l), j + 1);
    assert args[j..][1..] == args[j + 1..];
    assert i in args && l in args && i != l;
    var place := Ends(prog, b, args);
    assert place((b.tid, i)) == place((b.tid, l));
    forall s | Closed(place, v.vars, s) && 1 in s ensures 2 in s {
      assert (b.tid, i) in v.vars && (b.tid, l) in v.vars;
    }
    assert Closed(Directly(prog, b, args), v.vars, {1});
  }

  /** Passing merges no groups but those of an argument and of the caller's variable it
      stands for, whatever the groups are, exactly if the operands are orderly. */
  lemma {:induction false} MergesDirectlyExactly(prog: Program, b: SmallestBlock, args: seq<int>)
    requires Distinct(args) && (forall k :: 0 <= k < |args| ==> args[k] >= 0 && !Sent(prog, b, args[k]).Lost?)
    ensures Orderly(prog, b, args) <==> forall v :: Live(v) ==> MergesDirectly(prog, b, v, args)
  {
    hide Live, MergesDirectly, Sent;
    if Orderly(prog, b, args) {
      forall v | Live(v) ensures MergesDirectly(prog, b, v, args) { OrderlyMerges(prog, b, v, args); }
    } else {
      var j, k :| 0 <= j < k < |args| && Sent(prog, b, args[j]) == At((b.tid, args[k]))
        && Sent(prog, b, args[k]) != Sent(prog, b, args[j]);
      MeetEarly(prog, b, args, j, k);
      MeetMerges(prog, b, args, TwoGroups(b.tid, args[j], args[k]));
    }
  }

  lemma {:induction false} MeetMerges(prog: Program, b: SmallestBlock, args: seq<int>, v: View)
    requires Distinct(args) && (forall k :: 0 <= k < |args| ==> args[k] >= 0)
    requires Live(v) && 0 in v.owner && 1 in v.owner && v.owner[0] == 1 && v.owner[1] == 2
    requires Joined(Ends(prog, b, args), v.vars, 1, 2) && !Joined(Directly(prog, b, args), v.vars, 1, 2)
    ensures !MergesDirectly(prog, b, v, args)
  {
    hide Joined, PassArguments, Live;
    if PassArguments(prog, b, v, args).Some? { PassedSame(prog, b, v, args, 0, 1); }
  }
}
