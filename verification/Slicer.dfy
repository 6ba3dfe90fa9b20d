/** The backward dynamic slice (tools/PrintBug/PrintBug.cpp, lines 106-353), in
    place. What each step does is said by the functions of module Slice; what the
    whole scan achieves is proved about those in modules SliceSound and Reasons. */
module Slicer {
  import opened Common
  import opened Executions
  import opened Slice
  import opened SliceSound
  import Soundness

  class Slicer {
    const prog: Program
    const memDep: DepMap
    const postDom: map<nat, set<nat>>

    var count: map<Key, nat>
    var needed: set<Key>
    var memDepended: set<DynamicInst>
    var unneeded: set<DynamicInst>
    var funUsed: map<Tid, seq<bool>>
    var nextBB: map<Tid, seq<(nat, bool)>>
    var terminators: map<Tid, seq<Terminator>>

    var addr2Unneeded: map<uint64, set<nat>>

    ghost var kept: set<nat>
    ghost var retro: set<DynamicInst>
    ghost var late: set<Later>
    ghost var walks: nat

    constructor (prog: Program, memDep: DepMap, postDom: map<nat, set<nat>>)
      ensures this.prog == prog && this.memDep == memDep && this.postDom == postDom
      ensures View() == NOTHING_YET
    {
      this.prog, this.memDep, this.postDom := prog, memDep, postDom;
      count, needed, memDepended, unneeded := map[], {}, {}, {};
      funUsed, nextBB, terminators, addr2Unneeded := map[], map[], map[], map[];
      kept, retro, late, walks := {}, {}, {}, 0;
    }

    ghost predicate Describes(ctx: Context) {
      ctx.prog == prog && ctx.memDep == memDep && ctx.postDom == postDom
    }

    ghost function View(): Scan
      reads this
    {
      Scan(count, needed, memDepended, unneeded, funUsed, nextBB, terminators, addr2Unneeded, kept, retro, late, walks)
    }

    // -------------------------------------------------------- one instruction

    /** Process the dependencies of one needed instruction. */
    method OneInstruction(ghost ctx: Context, dyn: DynamicInst, lastBB: Option<nat>, needed0: set<Key>,
                          memDepended0: set<DynamicInst>)
      returns (needed1: set<Key>, memDepended1: set<DynamicInst>)
      requires Describes(ctx) && dyn.id < |prog.ins|
      ensures needed1 == Needing(ctx, needed0, dyn, lastBB) && memDepended1 == Depending(ctx, memDepended0, dyn)
    {
      needed1 := needed0 - {(dyn.tid, dyn.id)};
      memDepended1 := memDepended0 - {dyn};
      var ssa := prog.ins[dyn.id].ssa;
      ghost var base := needed1;
      var n := 0;
      while n < |ssa|
        invariant 0 <= n <= |ssa|
        invariant forall k :: k in needed1 <==> k in base || (k.0 == dyn.tid && (Inst, k.1) in ssa[..n])
      {
        if ssa[n].0 == Inst { needed1 := needed1 + {(dyn.tid, ssa[n].1)}; }
        n := n + 1;
      }
      assert ssa[..|ssa|] == ssa;
      if dyn in memDep { memDepended1 := memDepended1 + memDep[dyn]; }
      var input := FirstInput(prog.ins[dyn.id].phi, lastBB);
      if input.Some? && input.value.0 == Inst {
        needed1 := needed1 + {(dyn.tid, input.value.1)};
      }
    }

    static method FirstInput(phi: seq<(nat, DepType, nat)>, lastBB: Option<nat>) returns (r: Option<(DepType, nat)>)
      ensures r == PhiInput(phi, lastBB)
    {
      var n := 0;
      while n < |phi|
        invariant 0 <= n <= |phi|
        invariant PhiInput(phi, lastBB) == PhiInput(phi[n..], lastBB)
      {
        if Some(phi[n].0) == lastBB { return Some((phi[n].1, phi[n].2)); }
        n := n + 1;
      }
      return None;
    }

    static method IsReturnVoid(code: string) returns (r: bool)
      ensures r == ReturnVoid(code)
      ensures r <==> exists n: nat :: BeginsAt(code, n) && n + 8 <= |code| && code[n..n + 8] == "ret void"
    {
      ReturnVoidMeans(code);
      var i := 0;
      while i < |code| && code[i] in {' ', '\t', '\n', '\r', '\U{B}', '\U{C}'}
        invariant 0 <= i <= |code|
        invariant Spaces(code) == i + Spaces(code[i..])
      {
        i := i + 1;
      }
      r := "ret void" <= code[i..];
    }

    /** Keep execution p, or report it unless told not to, and count it. */
    method Account(ghost ctx: Context, ghost p: nat, dyn: DynamicInst, lastBB: Option<nat>, isNeeded: bool,
                   report: bool)
      requires Describes(ctx) && dyn.id < |prog.ins|
      modifies this`needed, this`memDepended, this`unneeded, this`count, this`kept, this`funUsed
      ensures View() == Passing(ctx, old(View()), p, dyn, lastBB, isNeeded, report)
    {
      hide Needing, Depending, SetTop, TopOr, Tally, StackOf;
      if isNeeded {
        needed, memDepended := OneInstruction(ctx, dyn, lastBB, needed, memDepended);
        kept := kept + {p};
      } else if report {
        unneeded := unneeded + {dyn};
      }
      count := count[(dyn.tid, dyn.id) := Tally(count, (dyn.tid, dyn.id)) + 1];
      var used := StackOf(funUsed, dyn.tid);
      funUsed := funUsed[dyn.tid := SetTop(used, TopOr(used, false) || isNeeded)];
    }

    // ------------------------------------------ the terminator of a used block

    /** A used block needs its terminator after all: keep it, and what it needs
        within the block. */
    method OneBlock(ghost ctx: Context, ghost p: nat, dyn: DynamicInst, lastBB: Option<nat>, nextBBID: nat)
      requires Describes(ctx) && GoodProgram(prog) && dyn.id < |prog.ins| && nextBBID < |prog.bb2ins|
      modifies this`needed, this`memDepended, this`unneeded, this`retro, this`late, this`walks
      ensures View() == BlockKept(ctx, old(View()), p, dyn, lastBB, nextBBID)
    {
      hide Walked;
      var thisNeeded, step, how := SliceBlock(ctx, p, dyn, lastBB, nextBBID);
      needed := needed + thisNeeded;
      retro, late, walks := retro + step, late + how, walks + 1;
    }

    /** Walk a block backward, keeping what its terminator needs. */
    method SliceBlock(ghost ctx: Context, ghost p: nat, dyn: DynamicInst, lastBB: Option<nat>, nextBBID: nat)
      returns (thisNeeded: set<Key>, ghost step: set<DynamicInst>, ghost how: set<Later>)
      requires Describes(ctx) && GoodProgram(prog) && dyn.id < |prog.ins| && nextBBID < |prog.bb2ins|
      modifies this`memDepended, this`unneeded
      ensures Late(thisNeeded, memDepended, step, how) == Walked(ctx, old(View()), p, dyn, lastBB, nextBBID, 0)
      ensures unneeded == old(unneeded) - step
    {
      hide Needing, Depending;
      ghost var s := View();
      var diff := dyn.cnt + Tally(count, (dyn.tid, dyn.id));
      thisNeeded, memDepended := OneInstruction(ctx, dyn, lastBB, {}, memDepended);
      step, how := {dyn}, {Terminating(ctx, walks, p, dyn, lastBB, nextBBID)};
      unneeded := unneeded - {dyn};
      var ids := prog.bb2ins[nextBBID];
      var k := |ids|;
      while k > 0
        invariant 0 <= k <= |ids|
        invariant unneeded == old(unneeded) - step
        invariant Late(thisNeeded, memDepended, step, how) == Walked(ctx, s, p, dyn, lastBB, nextBBID, k)
      {
        k := k - 1;
        var dyn2 := DynamicInst(dyn.tid, ids[k], diff - Tally(count, (dyn.tid, ids[k])));
        if (dyn2.tid, dyn2.id) in thisNeeded || dyn2 in memDepended {
          thisNeeded, memDepended := OneInstruction(ctx, dyn2, lastBB, thisNeeded, memDepended);
          unneeded := unneeded - {dyn2};
          step, how := step + {dyn2}, how + {Later(dyn2, walks, p, nextBBID, k, lastBB)};
        }
      }
    }

    /** The scan looks at the tops of a thread's three stacks, and may keep the
        terminator on top. */
    ghost predicate Open(tid: Tid)
      reads this
    {
      && StackOf(funUsed, tid) != [] && StackOf(nextBB, tid) != [] && StackOf(terminators, tid) != []
      && (Top(StackOf(nextBB, tid)).0 < |prog.bb2ins|)
      && (!Top(StackOf(terminators, tid)).used ==> Top(StackOf(terminators, tid)).dyn.id < |prog.ins|)
    }

    lemma {:induction false} StableOpen(ctx: Context, p: nat, depth: Tid -> int, tid: Tid)
      requires Describes(ctx) && Stable(ctx, p, depth, View()) && depth(tid) >= 1
      ensures Open(tid)
    {
      hide Inv, Passed;
    }

    method KeepTerminator(ghost ctx: Context, ghost p: nat, b: SmallestBlock, bb: nat)
      requires Describes(ctx) && GoodProgram(prog) && Open(b.tid) && bb < |prog.bb2ins|
      modifies this`needed, this`memDepended, this`unneeded, this`retro, this`late, this`walks
      ensures View() == TerminatorKept(ctx, old(View()), p, b, bb)
    {
      hide BlockKept;
      var t := Top(StackOf(terminators, b.tid));
      if !t.used { OneBlock(ctx, p, t.dyn, b.lastBB, bb); }
    }

    // ------------------------------------------------------------- one block

    /** Open a frame, or look back at the block that has just ended. */
    method EnterBlock(ghost ctx: Context, ghost p: nat, b: SmallestBlock)
      requires Describes(ctx) && GoodProgram(prog) && (StackOf(nextBB, b.tid) != [] ==> Open(b.tid))
      modifies this`needed, this`memDepended, this`unneeded, this`retro, this`late, this`walks
      modifies this`funUsed, this`nextBB, this`terminators
      ensures View() == Entered(ctx, old(View()), p, b)
    {
      hide TerminatorKept;
      var next := StackOf(nextBB, b.tid);
      if b.isLast > 0 {
        funUsed := funUsed[b.tid := StackOf(funUsed, b.tid) + [false]];
        nextBB := nextBB[b.tid := StackOf(nextBB, b.tid) + [(b.bb, false)]];
        terminators := terminators[b.tid := StackOf(terminators, b.tid) + [Terminator(b.bb, NO_TERMINATOR, true)]];
      } else if |next| > 0 && Top(next).0 != b.bb && Top(next).1 {
        KeepTerminator(ctx, p, b, Top(next).0);
        var t := Terminator(b.bb, NO_TERMINATOR, true);
        terminators := terminators[b.tid := SetTop(StackOf(terminators, b.tid), t)];
      }
    }

    /** An access: kept if something waits for it, or if it is impactful. One that is
        not kept is noted under its address. */
    method AccessBlock(ghost ctx: Context, b: SmallestBlock, ghost lo: nat) returns (used: bool)
      requires Describes(ctx) && IsAccess(b) && GoodBlock(prog, b) && lo !in kept
      modifies this`needed, this`memDepended, this`unneeded, this`count, this`kept, this`funUsed, this`addr2Unneeded
      ensures View() == AccessDone(ctx, old(View()), b, lo) && (used <==> lo in kept)
    {
      hide Needing, Depending;
      var id := prog.bb2ins[b.bb][b.start];
      var dyn := DynamicInst(b.tid, id, -(Tally(count, (b.tid, id)) as int));
      used := b.typ == ImpactfulCallBlock || (dyn.tid, dyn.id) in needed || dyn in memDepended;
      if !used && b.typ == MemoryAccessBlock && b.addr[0] < b.addr[1] {
        addr2Unneeded := addr2Unneeded[b.addr[0] := AtAddr(addr2Unneeded, b.addr[0]) + {id}];
      }
      Account(ctx, lo, dyn, b.lastBB, used, true);
    }

    /** Is the instruction needed: something waits for it, or control or a
        return depends on it? */
    method IsNeeded(ghost ctx: Context, b: SmallestBlock, dyn: DynamicInst) returns (isNeeded: bool)
      requires Describes(ctx) && dyn.id < |prog.ins| && StackOf(nextBB, b.tid) != []
      requires prog.ins[dyn.id].typ == ReturnInst && !ReturnVoid(prog.ins[dyn.id].code) ==> b.isLast in {1, 2}
      ensures isNeeded == NormalNeeded(ctx, View(), b, dyn)
    {
      isNeeded := (dyn.tid, dyn.id) in needed;
      var info := prog.ins[dyn.id];
      if info.typ == TerminatorInst {
        var next := Top(StackOf(nextBB, b.tid));
        if next.0 !in PostDominators(postDom, b.bb) { isNeeded := isNeeded || next.1; }
      } else if info.typ == ReturnInst {
        var void := IsReturnVoid(info.code);
        if void {
          isNeeded := true;
        } else {
          assert b.isLast == 1 || b.isLast == 2;
          isNeeded := isNeeded || b.isLast == 2 || (b.caller.Some? && (dyn.tid, b.caller.value) in needed);
        }
      }
    }

    /** One instruction of a normal block. */
    method NormalInstruction(ghost ctx: Context, ghost p: nat, b: SmallestBlock, id: nat) returns (used: bool)
      requires Describes(ctx) && id < |prog.ins| && StackOf(nextBB, b.tid) != [] && p !in kept
      requires prog.ins[id].typ == ReturnInst && !ReturnVoid(prog.ins[id].code) ==> b.isLast in {1, 2}
      modifies this`needed, this`memDepended, this`unneeded, this`count, this`kept, this`funUsed, this`terminators
      ensures View() == NormalStep(ctx, old(View()), b, id, p) && (used <==> p in kept)
      ensures kept == (if used then old(kept) + {p} else old(kept)) && nextBB == old(nextBB)
    {
      hide Needing, Depending, NormalNeeded;
      var dyn := DynamicInst(b.tid, id, -(Tally(count, (b.tid, id)) as int));
      used := IsNeeded(ctx, b, dyn);
      var isTerminator := prog.ins[id].typ == TerminatorInst;
      if isTerminator {
        terminators := terminators[b.tid := SetTop(StackOf(terminators, b.tid), Terminator(b.bb, dyn, used))];
      }
      Account(ctx, p, dyn, b.lastBB, used, !(isTerminator && |prog.ins[id].successors| <= 1));
    }

    method NormalInstructions(ghost ctx: Context, b: SmallestBlock, ghost lo: nat) returns (used: bool)
      requires Describes(ctx) && b.typ == NormalBlock && GoodProgram(prog) && GoodBlock(prog, b)
      requires BlockReturnsMarked(prog, b) && StackOf(nextBB, b.tid) != []
      requires forall p :: lo <= p < lo + (b.end - b.start) ==> p !in kept
      modifies this`needed, this`memDepended, this`unneeded, this`count, this`kept, this`funUsed, this`terminators
      ensures View() == NormalDone(ctx, old(View()), b, lo, b.start)
      ensures used <==> KeptWithin(kept, lo, lo + (b.end - b.start))
    {
      hide NormalStep;
      used := false;
      var ids := prog.bb2ins[b.bb];
      var k := b.end;
      ghost var s, hi := View(), lo + (b.end - b.start);
      while k > b.start
        invariant b.start <= k <= b.end && nextBB == old(nextBB)
        invariant View() == NormalDone(ctx, s, b, lo, k)
        invariant used <==> KeptWithin(kept, lo + (k - b.start), hi)
        invariant forall p :: lo <= p < lo + (k - b.start) ==> p !in kept
      {
        k := k - 1;
        ghost var kept0, p := kept, lo + (k - b.start);
        var u := NormalInstruction(ctx, p, b, ids[k]);
        KeptMore(kept0, kept, p, hi);
        used := used || u;
      }
    }

    method NoteBlock(b: SmallestBlock, used: bool)
      requires Open(b.tid) && b.bb < |prog.bb2ins|
      modifies this`nextBB
      ensures Open(b.tid) && nextBB == Noted(old(nextBB), b, used)
    {
      var next := StackOf(nextBB, b.tid);
      if Top(next).0 != b.bb {
        nextBB := nextBB[b.tid := SetTop(next, (b.bb, used))];
      } else {
        nextBB := nextBB[b.tid := SetTop(next, (b.bb, Top(next).1 || used))];
      }
    }

    /** Note whether the block is used; at the start of a frame, need the caller of
        a used function and the terminator of a used block. */
    method LeaveBlock(ghost ctx: Context, ghost p: nat, b: SmallestBlock, used: bool)
      requires Describes(ctx) && GoodProgram(prog) && Open(b.tid) && b.bb < |prog.bb2ins|
      modifies this`needed, this`memDepended, this`unneeded, this`retro, this`late, this`walks
      modifies this`funUsed, this`nextBB, this`terminators
      ensures View() == Left(ctx, old(View()), p, b, used)
    {
      hide Noted, Popped, CallerNeeded, RunEnded;
      NoteBlock(b, used);
      if b.isFirst > 0 {
        EndFunction(ctx, p, b);
        PopFrame(b.tid);
      }
    }

    method EndFunction(ghost ctx: Context, ghost p: nat, b: SmallestBlock)
      requires Describes(ctx) && GoodProgram(prog) && Open(b.tid) && b.bb < |prog.bb2ins|
      modifies this`needed, this`memDepended, this`unneeded, this`retro, this`late, this`walks
      ensures View() == RunEnded(ctx, CallerNeeded(old(View()), b), p, b)
    {
      hide TerminatorKept;
      if b.isFirst == 1 && Top(StackOf(funUsed, b.tid)) && b.caller.Some? {
        needed := needed + {(b.tid, b.caller.value)};
      }
      if Top(StackOf(nextBB, b.tid)).1 { KeepTerminator(ctx, p, b, b.bb); }
    }

    method PopFrame(tid: Tid)
      requires StackOf(funUsed, tid) != [] && StackOf(nextBB, tid) != [] && StackOf(terminators, tid) != []
      modifies this`funUsed, this`nextBB, this`terminators
      ensures funUsed == Popped(old(funUsed), tid) && nextBB == Popped(old(nextBB), tid)
      ensures terminators == Popped(old(terminators), tid)
    {
      var f, n, t := StackOf(funUsed, tid), StackOf(nextBB, tid), StackOf(terminators, tid);
      funUsed := funUsed[tid := f[..|f| - 1]];
      nextBB := nextBB[tid := n[..|n| - 1]];
      terminators := terminators[tid := t[..|t| - 1]];
    }

    // ------------------------------------------------------------- the scan

    /** One round of the scan: block i, which stands at positions lo to hi. */
    method ProcessBlock(ghost ctx: Context, ghost i: nat, b: SmallestBlock, ghost lo: nat, ghost hi: nat,
                        ghost depth: Tid -> int)
      requires ctx.Good() && Describes(ctx) && i < |ctx.trace| && b == ctx.trace[i] && b.typ != DeclareBlock
      requires lo == Base(prog, ctx.trace, i) && hi == lo + |Ids(prog, b)| && BlockReturnsMarked(prog, b)
      requires Stable(ctx, hi, depth, View()) && (!Skipped(prog, b) ==> Opened(b, depth)(b.tid) >= 1)
      modifies this
      ensures View() == BlockDone(ctx, old(View()), i)
    {
      hide Base, Stable, Entered, InstructionsDone, Open;
      BaseStep(prog, ctx.trace, i);
      EnterStable(ctx, hi, b, depth);
      if !Skipped(prog, b) {
        ghost var s := View();
        EnteredStable(ctx, hi, old(View()), b, depth);
        ScanInstructions(ctx, i, b, lo, hi, Opened(b, depth));
      }
    }

    method EnterStable(ghost ctx: Context, ghost p: nat, b: SmallestBlock, ghost depth: Tid -> int)
      requires ctx.Good() && Describes(ctx) && Stable(ctx, p, depth, View())
      modifies this`needed, this`memDepended, this`unneeded, this`retro, this`late, this`walks
      modifies this`funUsed, this`nextBB, this`terminators
      ensures View() == Entered(ctx, old(View()), p, b)
    {
      hide Entered, Open, Inv, TerminatorsPassed, BlocksKnown;
      if StackOf(nextBB, b.tid) != [] { StableOpen(ctx, p, depth, b.tid); }
      EnterBlock(ctx, p, b);
    }

    method ScanInstructions(ghost ctx: Context, ghost i: nat, b: SmallestBlock, ghost lo: nat, ghost hi: nat,
                            ghost depth: Tid -> int)
      requires ctx.Good() && Describes(ctx) && i < |ctx.trace| && b == ctx.trace[i] && b.typ != DeclareBlock
               && !Skipped(prog, b)
      requires lo == Base(prog, ctx.trace, i) && hi == lo + |Ids(prog, b)| && BlockReturnsMarked(prog, b)
      requires Stable(ctx, hi, depth, View()) && depth(b.tid) >= 1
      modifies this
      ensures View() == InstructionsDone(ctx, old(View()), i)
    {
      hide Base, Stable, AccessDone, NormalDone, Left, BlockReturnsMarked;
      ghost var s := View();
      StableOpen(ctx, hi, depth, b.tid);
      StableFresh(ctx, hi, depth, s);
      var used;
      if b.typ == NormalBlock {
        used := NormalInstructions(ctx, b, lo);
      } else {
        used := AccessBlock(ctx, b, lo);
        KeptOne(kept, lo);
      }
      BeforeLeaving(ctx, i, lo, hi, s, depth);
      StableOpen(ctx, lo, depth, b.tid);
      LeaveBlock(ctx, lo, b, used);
    }

    method ExtractUneededOperation(ghost ctx: Context, trace: seq<SmallestBlock>)
      requires ctx.Good() && ctx.trace == trace && Describes(ctx)
      requires Framed(ctx.prog, trace) && ReturnsMarked(ctx.prog, trace)
      requires View() == NOTHING_YET
      modifies this
      ensures View() == Scanned(ctx, 0)
      ensures Soundness.Lossless(ctx, Soundness.Followed(ctx), unneeded)
      ensures Partition(ctx, kept, retro, unneeded)
    {
      hide Base, Stable, Framed, ReturnsMarked, BlockDone, DepthAt, Soundness.Lossless, Soundness.Followed, Partition;
      var n := |trace|;
      while n > 0
        invariant 0 <= n <= |trace| && View() == Scanned(ctx, n)
      {
        n := n - 1;
        ghost var depth := DepthAt(prog, trace, n + 1);
        ScannedStable(ctx, n + 1);
        BaseStep(prog, trace, n);
        FramedAt(ctx, n);
        MarkedAt(ctx, n);
        if trace[n].typ == DeclareBlock {
          DeclareDone(ctx, View(), n);
        } else {
          ProcessBlock(ctx, n, trace[n], Base(prog, trace, n), Base(prog, trace, n + 1), depth);
        }
      }
      ScannedPartition(ctx);
      Soundness.ScannedSound(ctx);
    }
  }

  lemma {:induction false} KeptMore(kept0: set<nat>, kept: set<nat>, p: nat, hi: nat)
    requires kept == kept0 || kept == kept0 + {p}
    requires p < hi && p !in kept0
    ensures KeptWithin(kept, p, hi) <==> KeptWithin(kept0, p + 1, hi) || p in kept
  {
    if KeptWithin(kept0, p + 1, hi) {
      var q: nat :| p + 1 <= q < hi && q in kept0;
      assert q in kept;
    }
    if KeptWithin(kept, p, hi) {
      var q: nat :| p <= q < hi && q in kept;
      assert q == p || q in kept0;
    }
  }

  lemma {:induction false} KeptOne(kept: set<nat>, p: nat)
    ensures KeptWithin(kept, p, p + 1) <==> p in kept
  {
  }

  lemma {:induction false} DeclareDone(ctx: Context, s: Scan, i: nat)
    requires ctx.Good() && i < |ctx.trace| && ctx.trace[i].typ == DeclareBlock
    ensures BlockDone(ctx, s, i) == s
  {
  }
}
