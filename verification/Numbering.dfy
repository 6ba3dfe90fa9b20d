/** The two passes that number executions from the end of the trace agree: the
    dependency pass counts access blocks forward and renumbers them, the slicer
    counts every execution backward but passes over some calls. */
module Numbering {
  import opened Common
  import opened Executions
  import Framing
  import MemoryDependency

  /** Blocks fit for both passes, with no instruction both in normal blocks and
      in accesses. */
  ghost predicate TypedTrace(prog: Program, trace: seq<SmallestBlock>) {
    && GoodTrace(prog, trace)
    && forall i :: 0 <= i < |trace| ==> Framing.Typed(prog, trace[i])
  }

  /** The calls that execute `key` from block i on and are passed over. */
  ghost function SkippedFrom(prog: Program, trace: seq<SmallestBlock>, i: nat, key: Key): nat
    requires TypedTrace(prog, trace) && i <= |trace|
    decreases |trace| - i
  {
    if i == |trace| then 0
    else
      SkippedFrom(prog, trace, i + 1, key)
      + if IsAccess(trace[i]) && Skipped(prog, trace[i]) && MemoryDependency.KeyOf(prog, trace[i]) == key then 1 else 0
  }

  /** How often `key` occurs among the executions of one block. */
  ghost function Occurs(es: seq<Exec>, key: Key): nat {
    if es == [] then 0 else (if es[0].Key() == key then 1 else 0) + Occurs(es[1..], key)
  }

  lemma {:induction false} CountRun(E: seq<Exec>, lo: nat, hi: nat, es: seq<Exec>, key: Key)
    requires lo <= hi <= |E| && E[lo..hi] == es
    ensures CountKey(E, lo, key) == Occurs(es, key) + CountKey(E, hi, key)
    decreases |es|
  {
    if lo < hi {
      assert es[0] == E[lo] && es[1..] == E[lo + 1..hi];
      CountRun(E, lo + 1, hi, es[1..], key);
    }
  }

  /** The executions of block i, cut out of the whole. */
  lemma {:induction false} BlockRun(prog: Program, trace: seq<SmallestBlock>, i: nat)
    requires GoodTrace(prog, trace) && i < |trace|
    ensures var lo, hi := Base(prog, trace, i), Base(prog, trace, i + 1);
            lo <= hi <= |Execs(prog, trace)| && Execs(prog, trace)[lo..hi] == Line(prog, trace[i], i)
  {
    hide Execs, Base;
    BaseStep(prog, trace, i);
    var lo, hi := Base(prog, trace, i), Base(prog, trace, i + 1);
    var line := Line(prog, trace[i], i);
    forall k: nat | k < |line| ensures Execs(prog, trace)[lo..hi][k] == line[k] {
      ExecOfBlock(prog, trace, i, k);
    }
  }

  lemma {:induction false} NoneOccurs(es: seq<Exec>, key: Key)
    requires forall k :: 0 <= k < |es| ==> es[k].Key() != key
    ensures Occurs(es, key) == 0
    decreases |es|
  {
    if es != [] { NoneOccurs(es[1..], key); }
  }

  /** An access instruction occurs only in the accesses that are not passed over. */
  lemma {:induction false} LineOccurs(prog: Program, trace: seq<SmallestBlock>, i: nat, key: Key)
    requires TypedTrace(prog, trace) && i < |trace| && key.1 < |prog.ins| && !Framing.Plain(prog.ins[key.1])
    ensures var b := trace[i];
            Occurs(Line(prog, b, i), key)
            == if IsAccess(b) && !Skipped(prog, b) && MemoryDependency.KeyOf(prog, b) == key then 1 else 0
  {
    hide Framing.Plain;
    var b := trace[i];
    var es := Line(prog, b, i);
    assert Framing.Typed(prog, b);
    if b.typ == NormalBlock {
      forall k | 0 <= k < |es| ensures es[k].Key() != key {
        assert es[k].id == prog.bb2ins[b.bb][b.start + k];
      }
      NoneOccurs(es, key);
    } else if IsAccess(b) && !Skipped(prog, b) {
      assert es == [Exec(b.tid, prog.bb2ins[b.bb][b.start], i, b.lastBB)];
      assert es[1..] == [];
    }
  }

  lemma {:induction false} CountsAgree(prog: Program, trace: seq<SmallestBlock>, i: nat, key: Key)
    requires TypedTrace(prog, trace) && GoodTrace(prog, trace) && i <= |trace|
    requires key.1 < |prog.ins| && !Framing.Plain(prog.ins[key.1])
    ensures Base(prog, trace, i) <= |Execs(prog, trace)|
    ensures CountKey(Execs(prog, trace), Base(prog, trace, i), key) + SkippedFrom(prog, trace, i, key)
            == MemoryDependency.Count(prog, trace, key) - MemoryDependency.Count(prog, trace[..i], key)
    decreases |trace| - i
  {
    hide Execs, Base, Framing.Plain, Skipped, Line, CountKey, Occurs, MemoryDependency.Count, TypedTrace;
    if i == |trace| {
      assert trace[..i] == trace;
      LastBase(prog, trace);
    } else {
      CountsAgree(prog, trace, i + 1, key);
      BlockRun(prog, trace, i);
      CountRun(Execs(prog, trace), Base(prog, trace, i), Base(prog, trace, i + 1), Line(prog, trace[i], i), key);
      LineOccurs(prog, trace, i, key);
      MemoryDependency.CountStep(prog, trace, i, key);
    }
  }

  lemma {:induction false} LastBase(prog: Program, trace: seq<SmallestBlock>)
    requires GoodTrace(prog, trace)
    ensures var n := Base(prog, trace, |trace|);
            n == |Execs(prog, trace)| && forall key :: CountKey(Execs(prog, trace), n, key) == 0
  {
    FlattenLength(Lines(prog, trace));
  }

  /** Both passes give one execution the same number, less the later executions
      of the same instruction that the slicer passes over. */
  lemma {:induction false} NumberingAgrees(prog: Program, trace: seq<SmallestBlock>, i: nat)
    requires TypedTrace(prog, trace) && i < |trace| && IsAccess(trace[i]) && !Skipped(prog, trace[i])
    ensures var p := Base(prog, trace, i);
            var key := MemoryDependency.KeyOf(prog, trace[i]);
            && p < |Execs(prog, trace)|
            && var slicer := DynAt(Execs(prog, trace), p);
               var skipped := SkippedFrom(prog, trace, i + 1, key);
               MemoryDependency.Back(prog, trace, i) == slicer.(cnt := slicer.cnt - skipped)
  {
    hide Execs, Base, Framing.Plain, Skipped, Line;
    var key := MemoryDependency.KeyOf(prog, trace[i]);
    assert Framing.Typed(prog, trace[i]);
    AccessAt(prog, trace, i);
    CountsAgree(prog, trace, i + 1, key);
    MemoryDependency.CountStep(prog, trace, i, key);
  }

  lemma {:induction false} AccessAt(prog: Program, trace: seq<SmallestBlock>, i: nat)
    requires TypedTrace(prog, trace) && i < |trace| && IsAccess(trace[i]) && !Skipped(prog, trace[i])
    ensures var p := Base(prog, trace, i);
            var key := MemoryDependency.KeyOf(prog, trace[i]);
            && p < |Execs(prog, trace)| && Base(prog, trace, i + 1) == p + 1
            && Execs(prog, trace)[p] == Exec(key.0, key.1, i, trace[i].lastBB)
  {
    hide Execs, Base;
    BaseStep(prog, trace, i);
    ExecOfBlock(prog, trace, i, 0);
  }
}
