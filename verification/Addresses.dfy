/** What the scan records of the accesses it finds unneeded, by the address they
    start at (tools/PrintBug/PrintBug.cpp, lines 262-275). */
module Addresses {
  import opened Common
  import opened Executions
  import opened Slice
  import opened SliceSound

  /** Block j accesses memory from address a on with instruction `id`, and the scan
      did not keep it. */
  ghost predicate DroppedAt(ctx: Context, kept: set<nat>, j: nat, a: uint64, id: nat)
    requires ctx.Good()
  {
    && j < |ctx.trace| && ctx.trace[j].typ == MemoryAccessBlock && ctx.trace[j].addr[0] == a < ctx.trace[j].addr[1]
    && id == ctx.prog.bb2ins[ctx.trace[j].bb][ctx.trace[j].start] && Base(ctx.prog, ctx.trace, j) !in kept
  }

  ghost predicate DroppedFrom(ctx: Context, kept: set<nat>, n: nat, a: uint64, id: nat)
    requires ctx.Good()
  {
    exists j: nat :: n <= j && DroppedAt(ctx, kept, j, a, id)
  }

  /** Recorded under an address are exactly the instructions of the accesses from
      block n on that start there and were not kept when the scan came to them. */
  ghost predicate RecordsDropped(ctx: Context, n: nat, s: Scan)
    requires ctx.Good()
  {
    && (forall a, id: nat :: id in AtAddr(s.sameAddr, a) <==> DroppedFrom(ctx, s.kept, n, a, id))
    && (forall a :: a in s.sameAddr ==> s.sameAddr[a] != {})
  }

  // ----------------------------------------------- what one block may change

  lemma {:induction false} NormalStepFrame(ctx: Context, s: Scan, b: SmallestBlock, id: nat, p: nat)
    requires id < |ctx.prog.ins|
    ensures var s' := NormalStep(ctx, s, b, id, p);
            s'.sameAddr == s.sameAddr && s.kept <= s'.kept <= s.kept + {p}
  {
    hide Needing, Depending, Marked, Placed, NormalNeeded;
  }

  lemma {:induction false} NormalDoneFrame(ctx: Context, s: Scan, b: SmallestBlock, lo: nat, k: nat)
    requires b.typ == NormalBlock && GoodProgram(ctx.prog) && GoodBlock(ctx.prog, b) && b.start <= k <= b.end
    ensures var s' := NormalDone(ctx, s, b, lo, k);
            && s'.sameAddr == s.sameAddr && s.kept <= s'.kept
            && forall p :: p in s'.kept ==> p in s.kept || p < lo + (b.end - b.start)
    decreases b.end - k
  {
    hide NormalStep;
    if k < b.end {
      NormalDoneFrame(ctx, s, b, lo, k + 1);
      NormalStepFrame(ctx, NormalDone(ctx, s, b, lo, k + 1), b, ctx.prog.bb2ins[b.bb][k], lo + (k - b.start));
    }
  }

  lemma {:induction false} AccessFrame(ctx: Context, s: Scan, b: SmallestBlock, lo: nat)
    requires IsAccess(b) && GoodBlock(ctx.prog, b) && lo !in s.kept
    ensures var s' := AccessDone(ctx, s, b, lo);
            && s.kept <= s'.kept <= s.kept + {lo}
            && s'.sameAddr == if Touches(b) && lo !in s'.kept
                              then Recorded(s.sameAddr, b.addr[0], ctx.prog.bb2ins[b.bb][b.start]) else s.sameAddr
  {
    hide Needing, Depending, Marked, Recorded, AccessNeeded;
  }

  /** Passing block i leaves the later executions as they are, and records block i if
      it is an access that is not kept. */
  lemma {:induction false} BlockFrame(ctx: Context, i: nat, lo: nat, hi: nat, s: Scan)
    requires ctx.Good() && i < |ctx.trace| && (forall p :: p in s.kept ==> hi <= p)
    requires lo == Base(ctx.prog, ctx.trace, i) && hi == lo + |Ids(ctx.prog, ctx.trace[i])|
    ensures var (b, s') := (ctx.trace[i], BlockDone(ctx, s, i));
            && s.kept <= s'.kept && (forall p :: p in s'.kept ==> p in s.kept || p < hi)
            && s'.sameAddr == if Touches(b) && lo !in s'.kept
                              then Recorded(s.sameAddr, b.addr[0], ctx.prog.bb2ins[b.bb][b.start]) else s.sameAddr
  {
    hide Base, NormalDone, AccessDone, Left, Entered, Recorded;
    var b := ctx.trace[i];
    BaseStep(ctx.prog, ctx.trace, i);
    if b.typ != DeclareBlock {
      LeftKept(ctx, s, hi, b, false);
      var s1 := Entered(ctx, s, hi, b);
      if !Skipped(ctx.prog, b) {
        if b.typ == NormalBlock { NormalDoneFrame(ctx, s1, b, lo, b.start); } else { AccessFrame(ctx, s1, b, lo); }
        var s2 := if b.typ == NormalBlock then NormalDone(ctx, s1, b, lo, b.start) else AccessDone(ctx, s1, b, lo);
        LeftKept(ctx, s2, lo, b, KeptWithin(s2.kept, lo, lo + |Ids(ctx.prog, b)|));
      }
    }
  }

  // ------------------------------------------------------------- the records

  lemma {:induction false} DroppedStep(ctx: Context, i: nat, kept: set<nat>, kept': set<nat>, a: uint64, id: nat)
    requires ctx.Good() && i < |ctx.trace| && kept <= kept'
    requires forall p :: p in kept' ==> p in kept || p < Base(ctx.prog, ctx.trace, i + 1)
    ensures DroppedFrom(ctx, kept', i, a, id) <==>
              DroppedFrom(ctx, kept, i + 1, a, id) || DroppedAt(ctx, kept', i, a, id)
  {
    hide Base;
    forall j: nat | i < j < |ctx.trace| ensures DroppedAt(ctx, kept', j, a, id) <==> DroppedAt(ctx, kept, j, a, id) {
      BaseMono(ctx.prog, ctx.trace, i + 1, j);
    }
  }

  lemma {:induction false} RecordsStep(ctx: Context, i: nat, s: Scan)
    requires ctx.Good() && i < |ctx.trace| && RecordsDropped(ctx, i + 1, s)
    requires forall p :: p in s.kept ==> Base(ctx.prog, ctx.trace, i + 1) <= p
    ensures RecordsDropped(ctx, i, BlockDone(ctx, s, i))
  {
    hide Base, BlockDone, DroppedFrom;
    var (b, s') := (ctx.trace[i], BlockDone(ctx, s, i));
    BaseStep(ctx.prog, ctx.trace, i);
    BlockFrame(ctx, i, Base(ctx.prog, ctx.trace, i), Base(ctx.prog, ctx.trace, i + 1), s);
    forall a, id: nat ensures id in AtAddr(s'.sameAddr, a) <==> DroppedFrom(ctx, s'.kept, i, a, id) {
      DroppedStep(ctx, i, s.kept, s'.kept, a, id);
    }
  }

  /** At every block, the records hold exactly the unneeded accesses scanned so far. */
  lemma {:induction false} ScannedRecords(ctx: Context, n: nat)
    requires ctx.Good() && n <= |ctx.trace| && Framed(ctx.prog, ctx.trace) && ReturnsMarked(ctx.prog, ctx.trace)
    ensures RecordsDropped(ctx, n, Scanned(ctx, n))
    decreases |ctx.trace| - n
  {
    hide Base, Framed, ReturnsMarked, BlockDone, Stable, DepthAt;
    if n < |ctx.trace| {
      ScannedRecords(ctx, n + 1);
      ScannedStable(ctx, n + 1);
      StableFresh(ctx, Base(ctx.prog, ctx.trace, n + 1), DepthAt(ctx.prog, ctx.trace, n + 1), Scanned(ctx, n + 1));
      RecordsStep(ctx, n, Scanned(ctx, n + 1));
    }
  }
}
