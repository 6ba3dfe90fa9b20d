/** What the links of a bug mean. For an operand the report looks up the execution of the
    same number as its user's (tools/PrintBug/PrintBug.cpp, lines 403-412), and phi nodes
    have no operands there. Exactly when what it finds is what was used. */
module TrueBugs {
  import opened Common
  import opened Executions
  import opened Slice
  import opened SliceSound
  import opened Components

  // ------------------------------------------------------------- one lookup

  /** Execution q is what the report looks up for an operand of execution m. */
  ghost predicate LookedUp(ctx: Context, m: nat, q: nat)
    requires ctx.Good()
  {
    && m < |ctx.E| && q < |ctx.E| && (Inst, ctx.E[q].id) in ctx.prog.ins[ctx.E[m].id].ssa
    && DynAt(ctx.E, q) == DynamicInst(ctx.E[m].tid, ctx.E[q].id, DynAt(ctx.E, m).cnt)
  }

  /** Execution q is the last before m of an operand that m does not choose as a phi node. */
  ghost predicate OperandOf(ctx: Context, m: nat, q: nat)
    requires ctx.Good()
  {
    && m < |ctx.E| && SsaDep(ctx.prog, ctx.E, m, q) && (Inst, ctx.E[q].id) in ctx.prog.ins[ctx.E[m].id].ssa
  }

  /** After m, instruction x is executed as often as the instruction of m. */
  ghost predicate Balanced(E: seq<Exec>, m: nat, x: nat)
    requires m < |E|
  {
    x != E[m].id && CountKey(E, m + 1, (E[m].tid, x)) == CountKey(E, m + 1, E[m].Key())
  }

  lemma {:induction false} CountAlike(E: seq<Exec>, p: nat, q: nat, key: Key)
    requires p <= q <= |E| && forall r: nat :: p <= r < q ==> E[r].Key() != key
    ensures CountKey(E, p, key) == CountKey(E, q, key)
    decreases q - p
  {
    if p < q { CountAlike(E, p + 1, q, key); }
  }

  /** The operand that was used is the one looked up, exactly if it is executed as often
      afterwards as its user is. */
  lemma {:induction false} LookupExactly(ctx: Context, m: nat, q: nat)
    requires ctx.Good() && OperandOf(ctx, m, q)
    ensures LookedUp(ctx, m, q) <==> Balanced(ctx.E, m, ctx.E[q].id)
  {
    hide Uses;
    CountAlike(ctx.E, q + 1, m, ctx.E[q].Key());
    if ctx.E[q].id == ctx.E[m].id { CountKeyMono(ctx.E, m, m + 1, ctx.E[m].Key()); }
  }

  lemma {:induction false} OrderedCounts(E: seq<Exec>, p: nat, q: nat, key: Key)
    requires p <= q < |E| && E[q].Key() == key
    ensures CountKey(E, q + 1, key) < CountKey(E, p, key)
  {
    CountKeyMono(E, p, q, key);
    CountKeyMono(E, q, q + 1, key);
  }

  /** And then nothing else is looked up for it. */
  lemma {:induction false} LookedUpUsed(ctx: Context, m: nat, q: nat)
    requires ctx.Good() && LookedUp(ctx, m, q) && Balanced(ctx.E, m, ctx.E[q].id)
    ensures OperandOf(ctx, m, q)
  {
    var key := ctx.E[q].Key();
    if q > m { OrderedCounts(ctx.E, m + 1, q, key); }
    forall r: nat | q < r < m ensures ctx.E[r].Key() != key {
      if ctx.E[r].Key() == key {
        CountKeyMono(ctx.E, q + 1, r, key);
        CountKeyMono(ctx.E, r, r + 1, key);
        CountKeyMono(ctx.E, r + 1, m + 1, key);
      }
    }
  }

  // ------------------------------------------------------------- all lookups

  ghost predicate UnneededAt(ctx: Context, unneeded: set<DynamicInst>, p: nat) {
    p < |ctx.E| && DynAt(ctx.E, p) in unneeded
  }

  /** What is looked up for operand x of m is what was used; or neither is unneeded. */
  ghost predicate Found(ctx: Context, unneeded: set<DynamicInst>, m: nat, x: nat)
    requires ctx.Good() && m < |ctx.E|
  {
    || Balanced(ctx.E, m, x)
    || forall q: nat :: UnneededAt(ctx, unneeded, q) && ctx.E[q].id == x ==>
         !LookedUp(ctx, m, q) && !OperandOf(ctx, m, q)
  }

  ghost predicate AllFound(ctx: Context, unneeded: set<DynamicInst>)
    requires ctx.Good()
  {
    forall m: nat, x: nat :: UnneededAt(ctx, unneeded, m) && (Inst, x) in ctx.prog.ins[ctx.E[m].id].ssa ==>
      Found(ctx, unneeded, m, x)
  }

  /** No unneeded phi node has taken an unneeded value, unless that is an operand as well. */
  ghost predicate PhisApart(ctx: Context, unneeded: set<DynamicInst>)
    requires ctx.Good()
  {
    forall m: nat, q: nat :: BothUnneeded(ctx, unneeded, m, q) && SsaDep(ctx.prog, ctx.E, m, q) ==>
      OperandOf(ctx, m, q)
  }

  ghost predicate BothUnneeded(ctx: Context, unneeded: set<DynamicInst>, m: nat, q: nat) {
    UnneededAt(ctx, unneeded, m) && UnneededAt(ctx, unneeded, q)
  }

  ghost predicate SameLinks(ctx: Context, unneeded: set<DynamicInst>)
    requires ctx.Good()
  {
    forall m: nat, q: nat :: BothUnneeded(ctx, unneeded, m, q) ==>
      (LookedUp(ctx, m, q) <==> SsaDep(ctx.prog, ctx.E, m, q))
  }

  /** Between unneeded executions, the report links exactly users with what they used, if
      and only if every operand is found and no phi node has taken part. */
  lemma {:induction false} LinksExactly(ctx: Context, unneeded: set<DynamicInst>)
    requires ctx.Good()
    ensures SameLinks(ctx, unneeded) <==> AllFound(ctx, unneeded) && PhisApart(ctx, unneeded)
  {
    hide Balanced, UnneededAt, SsaDep, CountKey, DynAt;
    forall m: nat, q: nat | UnneededAt(ctx, unneeded, m) && UnneededAt(ctx, unneeded, q)
      ensures m < |ctx.E| && q < |ctx.E|
      ensures LookedUp(ctx, m, q) && Balanced(ctx.E, m, ctx.E[q].id) ==> OperandOf(ctx, m, q)
      ensures OperandOf(ctx, m, q) ==> (LookedUp(ctx, m, q) <==> Balanced(ctx.E, m, ctx.E[q].id))
    {
      AtLess(ctx, unneeded, m);
      AtLess(ctx, unneeded, q);
      if LookedUp(ctx, m, q) && Balanced(ctx.E, m, ctx.E[q].id) { LookedUpUsed(ctx, m, q); }
      if OperandOf(ctx, m, q) { LookupExactly(ctx, m, q); }
    }
    if SameLinks(ctx, unneeded) { FoundIfSame(ctx, unneeded); }
  }

  lemma {:induction false} AtLess(ctx: Context, unneeded: set<DynamicInst>, p: nat)
    requires UnneededAt(ctx, unneeded, p)
    ensures p < |ctx.E|
  {
  }

  lemma {:induction false} FoundIfSame(ctx: Context, unneeded: set<DynamicInst>)
    requires ctx.Good() && SameLinks(ctx, unneeded)
    ensures AllFound(ctx, unneeded) && PhisApart(ctx, unneeded)
  {
    hide Balanced, SsaDep, CountKey, DynAt;
    forall m: nat, x: nat | UnneededAt(ctx, unneeded, m) && (Inst, x) in ctx.prog.ins[ctx.E[m].id].ssa
      ensures Found(ctx, unneeded, m, x)
    {
      if q: nat :| UnneededAt(ctx, unneeded, q) && ctx.E[q].id == x && (LookedUp(ctx, m, q) || OperandOf(ctx, m, q)) {
        LookupExactly(ctx, m, q);
      }
    }
  }

  // ---------------------------------------------------------- what bugs are

  /** An unneeded execution of v used, or read from, an unneeded execution of w. */
  ghost predicate TrulyRelated(ctx: Context, unneeded: set<DynamicInst>, v: nat, w: nat)
    requires ctx.Good()
  {
    exists m: nat, q: nat :: RelatedBy(ctx, unneeded, m, q) && ctx.E[m].id == v && ctx.E[q].id == w
  }

  ghost predicate RelatedBy(ctx: Context, unneeded: set<DynamicInst>, m: nat, q: nat)
    requires ctx.Good()
  {
    && BothUnneeded(ctx, unneeded, m, q)
    && (SsaDep(ctx.prog, ctx.E, m, q) || InDeps(ctx.memDep, DynAt(ctx.E, m), DynAt(ctx.E, q)))
  }

  /** Every number in the report is that of an execution. */
  ghost predicate Numbers(ctx: Context, unneeded: set<DynamicInst>) {
    forall d :: d in unneeded ==> exists p: nat :: UnneededAt(ctx, unneeded, p) && d == DynAt(ctx.E, p)
  }

  lemma {:induction false} RelatedTruly(ctx: Context, unneeded: set<DynamicInst>, v: nat, w: nat)
    requires ctx.Good() && Numbers(ctx, unneeded) && SameLinks(ctx, unneeded)
    ensures Related(ctx.prog, ctx.memDep, unneeded, unneeded, v, w) <==> TrulyRelated(ctx, unneeded, v, w)
  {
    hide SsaDep, InDeps, DynAt;
    if i :| i in unneeded && i.id == v && DependsOn(ctx.prog, ctx.memDep, unneeded, i, w) {
      RelatedIf(ctx, unneeded, i, w);
    }
    if TrulyRelated(ctx, unneeded, v, w) {
      var m: nat, q: nat :| RelatedBy(ctx, unneeded, m, q) && ctx.E[m].id == v && ctx.E[q].id == w;
      DynIs(ctx, m);
      DynIs(ctx, q);
      assert DependsOn(ctx.prog, ctx.memDep, unneeded, DynAt(ctx.E, m), w) by {
        if SsaDep(ctx.prog, ctx.E, m, q) { assert LookedUp(ctx, m, q); }
      }
    }
  }

  lemma {:induction false} DynIs(ctx: Context, p: nat)
    requires p < |ctx.E|
    ensures var d := DynAt(ctx.E, p); d.tid == ctx.E[p].tid && d.id == ctx.E[p].id
  {
  }

  lemma {:induction false} RelatedIf(ctx: Context, unneeded: set<DynamicInst>, i: DynamicInst, w: nat)
    requires ctx.Good() && Numbers(ctx, unneeded) && SameLinks(ctx, unneeded) && i in unneeded
    requires DependsOn(ctx.prog, ctx.memDep, unneeded, i, w)
    ensures TrulyRelated(ctx, unneeded, i.id, w)
  {
    hide SsaDep, InDeps, DynAt;
    var m: nat :| UnneededAt(ctx, unneeded, m) && i == DynAt(ctx.E, m);
    DynIs(ctx, m);
    if d :| d in unneeded && InDeps(ctx.memDep, i, d) && d.id == w {
      var q: nat :| UnneededAt(ctx, unneeded, q) && d == DynAt(ctx.E, q);
      DynIs(ctx, q);
      assert RelatedBy(ctx, unneeded, m, q);
    } else {
      var d := DynamicInst(i.tid, w, i.cnt);
      var q: nat :| UnneededAt(ctx, unneeded, q) && d == DynAt(ctx.E, q);
      DynIs(ctx, q);
      assert LookedUp(ctx, m, q);
      assert RelatedBy(ctx, unneeded, m, q);
    }
  }

  ghost predicate TrulyTogether(ctx: Context, unneeded: set<DynamicInst>, sameAddr: map<uint64, set<nat>>, v: nat,
                                w: nat)
    requires ctx.Good()
  {
    TrulyRelated(ctx, unneeded, v, w) || TrulyRelated(ctx, unneeded, w, v) || SharesAddress(sameAddr, v, w)
  }

  ghost predicate TrulyConnected(ctx: Context, unneeded: set<DynamicInst>, sameAddr: map<uint64, set<nat>>, u: nat,
                                 v: nat)
    requires ctx.Good()
  {
    exists p: seq<nat> :: |p| > 0 && p[0] == u && p[|p| - 1] == v && TrueConnection(ctx, unneeded, sameAddr, p)
  }

  ghost predicate TrueConnection(ctx: Context, unneeded: set<DynamicInst>, sameAddr: map<uint64, set<nat>>,
                                 p: seq<nat>)
    requires ctx.Good()
  {
    forall k: nat, n: nat :: n == k + 1 < |p| ==> TrulyTogether(ctx, unneeded, sameAddr, p[k], p[n])
  }

  /** Each bug is all that is truly connected with an unneeded instruction. */
  ghost predicate TrulyReports(ctx: Context, unneeded: set<DynamicInst>, sameAddr: map<uint64, set<nat>>,
                               bugs: seq<set<nat>>)
    requires ctx.Good()
  {
    forall k :: 0 <= k < |bugs| ==> TrueBug(ctx, unneeded, sameAddr, bugs[k])
  }

  ghost predicate TrueBug(ctx: Context, unneeded: set<DynamicInst>, sameAddr: map<uint64, set<nat>>, bug: set<nat>)
    requires ctx.Good()
  {
    exists u :: u in bug && u in IdsOf(unneeded)
        && forall v: nat :: v in bug <==> TrulyConnected(ctx, unneeded, sameAddr, u, v)
  }

  lemma {:induction false} ConnectedTruly(ctx: Context, unneeded: set<DynamicInst>, sameAddr: map<uint64, set<nat>>,
                                          u: nat, v: nat)
    requires ctx.Good() && Numbers(ctx, unneeded) && SameLinks(ctx, unneeded)
    ensures Connected(ctx.prog, ctx.memDep, unneeded, sameAddr, u, v) <==>
              TrulyConnected(ctx, unneeded, sameAddr, u, v)
  {
    hide Numbers, SameLinks, TrulyRelated, Related, SharesAddress;
    forall a: nat, b: nat
      ensures Together(ctx.prog, ctx.memDep, unneeded, sameAddr, a, b) <==>
                TrulyTogether(ctx, unneeded, sameAddr, a, b)
    {
      RelatedTruly(ctx, unneeded, a, b);
      RelatedTruly(ctx, unneeded, b, a);
    }
    TogetherConnected(ctx, unneeded, sameAddr, u, v);
  }

  lemma {:induction false} TogetherConnected(ctx: Context, unneeded: set<DynamicInst>, sameAddr: map<uint64, set<nat>>,
                                             u: nat, v: nat)
    requires ctx.Good()
    requires forall a: nat, b: nat :: Together(ctx.prog, ctx.memDep, unneeded, sameAddr, a, b) <==>
                                        TrulyTogether(ctx, unneeded, sameAddr, a, b)
    ensures Connected(ctx.prog, ctx.memDep, unneeded, sameAddr, u, v) <==>
              TrulyConnected(ctx, unneeded, sameAddr, u, v)
  {
    hide Together, TrulyTogether;
    if Connected(ctx.prog, ctx.memDep, unneeded, sameAddr, u, v) {
      var p :| Connection(ctx.prog, ctx.memDep, unneeded, sameAddr, p) && p[0] == u && p[|p| - 1] == v;
      assert TrueConnection(ctx, unneeded, sameAddr, p);
    }
    if TrulyConnected(ctx, unneeded, sameAddr, u, v) {
      var p: seq<nat> :| |p| > 0 && p[0] == u && p[|p| - 1] == v && TrueConnection(ctx, unneeded, sameAddr, p);
      assert Connection(ctx.prog, ctx.memDep, unneeded, sameAddr, p);
    }
  }

  /** If every operand is found and no phi node takes part, bugs are what is truly
      connected. */
  lemma {:induction false} BugsTrue(ctx: Context, unneeded: set<DynamicInst>, sameAddr: map<uint64, set<nat>>,
                                    bugs: seq<set<nat>>)
    requires ctx.Good() && Numbers(ctx, unneeded) && AllFound(ctx, unneeded) && PhisApart(ctx, unneeded)
    requires Reports(ctx.prog, ctx.memDep, unneeded, sameAddr, bugs)
    ensures TrulyReports(ctx, unneeded, sameAddr, bugs)
  {
    hide Numbers, SameLinks, AllFound, PhisApart, Connected, TrulyConnected, IdsOf, InSome;
    LinksExactly(ctx, unneeded);
    forall k | 0 <= k < |bugs| ensures TrueBug(ctx, unneeded, sameAddr, bugs[k]) {
      var bug := bugs[k];
      assert IsBug(ctx.prog, ctx.memDep, unneeded, sameAddr, bug);
      var u :| u in bug && u in IdsOf(unneeded)
          && forall v: nat :: v in bug <==> Connected(ctx.prog, ctx.memDep, unneeded, sameAddr, u, v);
      forall v: nat ensures v in bug <==> TrulyConnected(ctx, unneeded, sameAddr, u, v) {
        ConnectedTruly(ctx, unneeded, sameAddr, u, v);
      }
    }
  }

  lemma {:induction false} ReportNumbers(ctx: Context, kept: set<nat>, retro: set<DynamicInst>,
                                         unneeded: set<DynamicInst>)
    requires Partition(ctx, kept, retro, unneeded)
    ensures Numbers(ctx, unneeded)
  {
    hide DynAt;
  }
}
