/** An atomic instruction reads and writes memory. The dependency pass takes it for
    neither: its case (tools/PrintBug/ExtractMemoryDependency.cpp, lines 36-40) lies under
    the test for loads. What should be extracted, and exactly when it is. */
module Atomics {
  import opened Common
  import opened MemoryDependency

  // -------------------------------------------------- true reads and writes

  /** Block b is an atomic access to byte x. */
  predicate AtomicAt(prog: Program, b: SmallestBlock, x: uint64)
    requires Formed(prog, b)
  {
    b.typ == MemoryAccessBlock && b.addr[0] <= x < b.addr[1] && prog.ins[InsOf(prog, b)].typ == AtomicInst
  }

  ghost predicate TrulyWrites(env: Env, b: SmallestBlock, x: uint64)
    requires GoodEnv(env) && Formed(env.prog, b)
  {
    Writes(env, b, x) || AtomicAt(env.prog, b, x)
  }

  ghost predicate TrulyReads(env: Env, b: SmallestBlock, x: uint64)
    requires GoodEnv(env) && Formed(env.prog, b)
  {
    Reads(env, b, x) || AtomicAt(env.prog, b, x)
  }

  /** The last of the first i blocks that writes x, atomically or not. */
  ghost function TrueWriter(env: Env, trace: seq<SmallestBlock>, i: nat, x: uint64): (w: Option<nat>)
    requires GoodEnv(env) && FormedTrace(env.prog, trace) && i <= |trace|
    ensures w.Some? ==> w.value < i && IsAccess(trace[w.value]) && TrulyWrites(env, trace[w.value], x)
  {
    if i == 0 then None
    else if TrulyWrites(env, trace[i - 1], x) then Some(i - 1)
    else TrueWriter(env, trace, i - 1, x)
  }

  /** Block i depends on block j: it reads a byte that j was last to write. */
  ghost predicate TrulyDepends(env: Env, trace: seq<SmallestBlock>, i: nat, j: nat)
    requires GoodEnv(env) && FormedTrace(env.prog, trace) && i < |trace|
  {
    || (exists x :: x < MAX_RANGE && TrulyReads(env, trace[i], x) && TrueWriter(env, trace, i, x) == Some(j))
    || (i == j && SelfEdge(env, trace[i]))
  }

  /** At byte x, block i is no atomic access to what has been written before, and reads
      nothing that an atomic access was last to write. */
  ghost predicate Apart(env: Env, trace: seq<SmallestBlock>, i: nat, x: uint64)
    requires GoodEnv(env) && FormedTrace(env.prog, trace) && i < |trace|
  {
    var w := TrueWriter(env, trace, i, x);
    w.Some? ==> !AtomicAt(env.prog, trace[i], x)
                && (Reads(env, trace[i], x) ==> !AtomicAt(env.prog, trace[w.value], x))
  }

  ghost predicate AtomicsApart(env: Env, trace: seq<SmallestBlock>)
    requires GoodEnv(env) && FormedTrace(env.prog, trace)
  {
    forall i: nat, x :: i < |trace| && x < MAX_RANGE ==> Apart(env, trace, i, x)
  }

  // ------------------------------------------- exactly when the two agree

  lemma {:induction false} WriterTrue(env: Env, trace: seq<SmallestBlock>, i: nat, x: uint64)
    requires GoodEnv(env) && FormedTrace(env.prog, trace) && i <= |trace|
    ensures var w := TrueWriter(env, trace, i, x);
            w.None? || !AtomicAt(env.prog, trace[w.value], x) ==> LastWriter(env, trace, i, x) == w
  {
    hide Writes;
    if i > 0 { WriterTrue(env, trace, i - 1, x); }
  }

  lemma {:induction false} ApartAgrees(env: Env, trace: seq<SmallestBlock>, i: nat, j: nat)
    requires GoodEnv(env) && FormedTrace(env.prog, trace) && i < |trace| && AtomicsApart(env, trace)
    ensures TrulyDepends(env, trace, i, j) <==> Depends(env, trace, i, j)
  {
    hide Writes, Reads, SelfEdge, AtomicAt, TrueWriter, LastWriter;
    forall x | x < MAX_RANGE
      ensures TrulyReads(env, trace[i], x) && TrueWriter(env, trace, i, x) == Some(j) <==>
              Reads(env, trace[i], x) && LastWriter(env, trace, i, x) == Some(j)
    {
      assert Apart(env, trace, i, x);
      WriterTrue(env, trace, i, x);
      if Reads(env, trace[i], x) && LastWriter(env, trace, i, x).Some? { WriterAtLeast(env, trace, i, x); }
    }
  }

  /** Whoever is recorded as writer, somebody truly wrote. */
  lemma {:induction false} WriterAtLeast(env: Env, trace: seq<SmallestBlock>, i: nat, x: uint64)
    requires GoodEnv(env) && FormedTrace(env.prog, trace) && i <= |trace|
    requires LastWriter(env, trace, i, x).Some?
    ensures TrueWriter(env, trace, i, x).Some?
  {
    hide Writes, AtomicAt;
    if !TrulyWrites(env, trace[i - 1], x) { WriterAtLeast(env, trace, i - 1, x); }
  }

  /** An atomic access is on neither side of an extracted dependency. */
  lemma {:induction false} AtomicUnseen(env: Env, trace: seq<SmallestBlock>, i: nat, j: nat, x: uint64)
    requires GoodEnv(env) && FormedTrace(env.prog, trace) && i < |trace| && j < |trace|
    requires AtomicAt(env.prog, trace[i], x) || AtomicAt(env.prog, trace[j], x)
    ensures !Depends(env, trace, i, j)
  {
    hide LastWriter;
  }

  /** If nothing is missed, atomic accesses are apart. */
  lemma {:induction false} MissedUnlessApart(env: Env, trace: seq<SmallestBlock>)
    requires GoodEnv(env) && FormedTrace(env.prog, trace)
    requires forall i: nat, j: nat :: i < |trace| && TrulyDepends(env, trace, i, j) ==> Depends(env, trace, i, j)
    ensures AtomicsApart(env, trace)
  {
    hide Writes, Reads, Depends, TrueWriter;
    forall i: nat, x | i < |trace| && x < MAX_RANGE ensures Apart(env, trace, i, x) {
      var w := TrueWriter(env, trace, i, x);
      if w.Some? && TrulyReads(env, trace[i], x) {
        assert TrulyDepends(env, trace, i, w.value);
        if AtomicAt(env.prog, trace[i], x) || AtomicAt(env.prog, trace[w.value], x) {
          AtomicUnseen(env, trace, i, w.value, x);
        }
      }
    }
  }

  /** The extracted relation is the true one, exactly if no atomic access reads a byte
      already written, and no byte is read that an atomic access was last to write. */
  lemma {:induction false} DependsTruly(env: Env, trace: seq<SmallestBlock>)
    requires GoodEnv(env) && FormedTrace(env.prog, trace)
    ensures AtomicsApart(env, trace) <==>
              forall i: nat, j: nat :: i < |trace| ==> (TrulyDepends(env, trace, i, j) <==> Depends(env, trace, i, j))
  {
    hide Depends, TrulyDepends, AtomicsApart;
    if AtomicsApart(env, trace) {
      forall i: nat, j: nat | i < |trace|
        ensures TrulyDepends(env, trace, i, j) <==> Depends(env, trace, i, j)
      {
        ApartAgrees(env, trace, i, j);
      }
    }
    if forall i: nat, j: nat :: i < |trace| ==> (TrulyDepends(env, trace, i, j) <==> Depends(env, trace, i, j)) {
      MissedUnlessApart(env, trace);
    }
  }

  ghost predicate TrulyDependsBack(env: Env, trace: seq<SmallestBlock>, i: nat, d: DynamicInst)
    requires GoodEnv(env) && FormedTrace(env.prog, trace) && i < |trace|
  {
    exists j: nat :: j <= i && IsAccess(trace[j]) && TrulyDepends(env, trace, i, j) && d == Back(env.prog, trace, j)
  }

  /** The dependencies of every access are those that last wrote the bytes it truly
      reads. */
  ghost predicate TrulyExtracted(env: Env, trace: seq<SmallestBlock>, memDep: DepMap)
    requires GoodEnv(env) && FormedTrace(env.prog, trace)
  {
    forall i: nat, d :: i < |trace| && IsAccess(trace[i]) ==>
      (InDeps(memDep, Back(env.prog, trace, i), d) <==> TrulyDependsBack(env, trace, i, d))
  }

  lemma {:induction false} BackInjective(prog: Program, trace: seq<SmallestBlock>, i: nat, j: nat)
    requires FormedTrace(prog, trace) && i < |trace| && j < |trace|
    requires IsAccess(trace[i]) && IsAccess(trace[j]) && Back(prog, trace, i) == Back(prog, trace, j)
    ensures i == j
  {
    if i != j { DynInjective(prog, trace, i, j); }
  }

  lemma {:induction false} TrulySources(env: Env, trace: seq<SmallestBlock>, i: nat, j: nat)
    requires GoodEnv(env) && FormedTrace(env.prog, trace) && i < |trace|
    requires TrulyDepends(env, trace, i, j) || Depends(env, trace, i, j)
    ensures j <= i && IsAccess(trace[i]) && IsAccess(trace[j])
  {
    hide TrueWriter, LastWriter;
  }

  /** What the pass leaves is what it should have extracted, exactly under the same
      condition. */
  lemma {:induction false} ExtractedTruly(env: Env, trace: seq<SmallestBlock>, memDep: DepMap)
    requires GoodEnv(env) && FormedTrace(env.prog, trace) && Extracted(env, trace, memDep)
    ensures TrulyExtracted(env, trace, memDep) <==> AtomicsApart(env, trace)
  {
    hide Depends, TrulyDepends, AtomicsApart, Back;
    DependsTruly(env, trace);
    if AtomicsApart(env, trace) {
      forall i: nat, d | i < |trace| && IsAccess(trace[i])
        ensures InDeps(memDep, Back(env.prog, trace, i), d) <==> TrulyDependsBack(env, trace, i, d)
      {
        assert ExtractedBlock(env, trace, i, memDep);
        assert DependsBack(env, trace, i, d) <==> TrulyDependsBack(env, trace, i, d);
      }
    }
    if TrulyExtracted(env, trace, memDep) {
      forall i: nat, j: nat | i < |trace|
        ensures TrulyDepends(env, trace, i, j) <==> Depends(env, trace, i, j)
      {
        SameSources(env, trace, memDep, i, j);
      }
    }
  }

  lemma {:induction false} SameSources(env: Env, trace: seq<SmallestBlock>, memDep: DepMap, i: nat, j: nat)
    requires GoodEnv(env) && FormedTrace(env.prog, trace) && i < |trace|
    requires Extracted(env, trace, memDep) && TrulyExtracted(env, trace, memDep)
    ensures TrulyDepends(env, trace, i, j) <==> Depends(env, trace, i, j)
  {
    hide Depends, TrulyDepends, Back;
    if TrulyDepends(env, trace, i, j) || Depends(env, trace, i, j) {
      TrulySources(env, trace, i, j);
      var d := Back(env.prog, trace, j);
      assert ExtractedBlock(env, trace, i, memDep);
      assert DependsBack(env, trace, i, d) <==> TrulyDependsBack(env, trace, i, d);
      forall j': nat | j' <= i && IsAccess(trace[j']) && d == Back(env.prog, trace, j') ensures j' == j {
        BackInjective(env.prog, trace, j', j);
      }
    }
  }

  /** In particular it is, if no atomic access touches a byte. */
  lemma {:induction false} WithoutAtomics(env: Env, trace: seq<SmallestBlock>, memDep: DepMap)
    requires GoodEnv(env) && FormedTrace(env.prog, trace) && Extracted(env, trace, memDep)
    requires forall i, x :: 0 <= i < |trace| ==> !AtomicAt(env.prog, trace[i], x)
    ensures TrulyExtracted(env, trace, memDep)
  {
    hide TrueWriter;
    ExtractedTruly(env, trace, memDep);
  }
}
