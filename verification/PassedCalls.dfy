/** `free`, `va_start` and `va_end` neither read nor write what the program computes with.
    The slicer passes over calls of them, but to the dependency pass they read and write
    all they are given, like other external calls; so they hide what was written before
    (tools/PrintBug/PrintBug.cpp, lines 251-258; ExtractMemoryDependency.cpp, lines 69-90).
    What truly depends on what, and exactly when that is what is seen. */
module PassedCalls {
  import opened Common
  import opened MemoryDependency
  import opened Atomics
  import Executions

  predicate Passed(env: Env, b: SmallestBlock)
    requires Formed(env.prog, b)
  {
    Executions.Skipped(env.prog, b)
  }

  /** The last of the first i blocks that writes x, atomically or not, and is not passed
      over. */
  ghost function RealWriter(env: Env, trace: seq<SmallestBlock>, i: nat, x: uint64): (w: Option<nat>)
    requires GoodEnv(env) && FormedTrace(env.prog, trace) && i <= |trace|
    ensures w.Some? ==> w.value < i && IsAccess(trace[w.value]) && TrulyWrites(env, trace[w.value], x)
                        && !Passed(env, trace[w.value])
  {
    if i == 0 then None
    else if !Passed(env, trace[i - 1]) && TrulyWrites(env, trace[i - 1], x) then Some(i - 1)
    else RealWriter(env, trace, i - 1, x)
  }

  /** Block i depends on block j: it reads a byte that j was last to write. Neither is a
      call that is passed over, nor is any such call taken to write. */
  ghost predicate RealDepends(env: Env, trace: seq<SmallestBlock>, i: nat, j: nat)
    requires GoodEnv(env) && FormedTrace(env.prog, trace) && i < |trace|
  {
    && !Passed(env, trace[i])
    && ((exists x :: x < MAX_RANGE && TrulyReads(env, trace[i], x) && RealWriter(env, trace, i, x) == Some(j))
        || (i == j && SelfEdge(env, trace[i])))
  }

  // --------------------------------------------- exactly when that is seen

  /** A call that is passed over writes x between blocks j and i. */
  ghost predicate Hidden(env: Env, trace: seq<SmallestBlock>, j: nat, i: nat, x: uint64)
    requires GoodEnv(env) && FormedTrace(env.prog, trace) && i <= |trace|
  {
    exists k: nat :: j < k < i && Passed(env, trace[k]) && Writes(env, trace[k], x)
  }

  /** Block i reads some byte that, as the pass sees it, block j was last to write. */
  ghost predicate ReadsFrom(env: Env, trace: seq<SmallestBlock>, i: nat, j: nat)
    requires GoodEnv(env) && FormedTrace(env.prog, trace) && i < |trace|
  {
    exists y :: y < MAX_RANGE && Reads(env, trace[i], y) && LastWriter(env, trace, i, y) == Some(j)
  }

  /** At byte x, block i and the last writer are no atomic accesses; and if a call that is
      passed over hides what was written, block i reads it at another byte. */
  ghost predicate Plain(env: Env, trace: seq<SmallestBlock>, i: nat, x: uint64)
    requires GoodEnv(env) && FormedTrace(env.prog, trace) && i < |trace|
  {
    var w := RealWriter(env, trace, i, x);
    w.Some? && TrulyReads(env, trace[i], x) ==>
      && !AtomicAt(env.prog, trace[i], x) && !AtomicAt(env.prog, trace[w.value], x)
      && (Hidden(env, trace, w.value, i, x) ==> ReadsFrom(env, trace, i, w.value))
  }

  ghost predicate AllPlain(env: Env, trace: seq<SmallestBlock>)
    requires GoodEnv(env) && FormedTrace(env.prog, trace)
  {
    forall i: nat, x :: i < |trace| && x < MAX_RANGE && !Passed(env, trace[i]) ==> Plain(env, trace, i, x)
  }

  /** What is not hidden is seen, unless it was written atomically. */
  lemma {:induction false} WriterSeen(env: Env, trace: seq<SmallestBlock>, i: nat, x: uint64)
    requires GoodEnv(env) && FormedTrace(env.prog, trace) && i <= |trace|
    requires var w := RealWriter(env, trace, i, x);
             w.Some? && !AtomicAt(env.prog, trace[w.value], x) && !Hidden(env, trace, w.value, i, x)
    ensures LastWriter(env, trace, i, x) == RealWriter(env, trace, i, x)
  {
    hide Writes, AtomicAt, Passed;
    if Passed(env, trace[i - 1]) || !TrulyWrites(env, trace[i - 1], x) {
      WriterSeen(env, trace, i - 1, x);
    }
  }

  /** What is seen is real, unless it was overwritten atomically. */
  lemma {:induction false} WriterReal(env: Env, trace: seq<SmallestBlock>, i: nat, x: uint64)
    requires GoodEnv(env) && FormedTrace(env.prog, trace) && i <= |trace|
    requires LastWriter(env, trace, i, x).Some? && !Passed(env, trace[LastWriter(env, trace, i, x).value])
    ensures var w := RealWriter(env, trace, i, x);
            w.Some? && (w == LastWriter(env, trace, i, x) || AtomicAt(env.prog, trace[w.value], x))
  {
    hide Writes, AtomicAt, Passed;
    if !Writes(env, trace[i - 1], x) && (Passed(env, trace[i - 1]) || !TrulyWrites(env, trace[i - 1], x)) {
      WriterReal(env, trace, i - 1, x);
    }
  }

  lemma {:induction false} RealSeen(env: Env, trace: seq<SmallestBlock>, i: nat, j: nat)
    requires GoodEnv(env) && FormedTrace(env.prog, trace) && i < |trace| && AllPlain(env, trace)
    requires RealDepends(env, trace, i, j)
    ensures Depends(env, trace, i, j)
  {
    hide Writes, Reads, SelfEdge, AtomicAt, Passed, LastWriter, RealWriter, Hidden;
    if !(i == j && SelfEdge(env, trace[i])) {
      var x :| x < MAX_RANGE && TrulyReads(env, trace[i], x) && RealWriter(env, trace, i, x) == Some(j);
      assert Plain(env, trace, i, x);
      if !Hidden(env, trace, j, i, x) { WriterSeen(env, trace, i, x); }
    }
  }

  lemma {:induction false} SeenReal(env: Env, trace: seq<SmallestBlock>, i: nat, j: nat)
    requires GoodEnv(env) && FormedTrace(env.prog, trace) && i < |trace| && j < |trace|
    requires AllPlain(env, trace) && !Passed(env, trace[i]) && !Passed(env, trace[j]) && Depends(env, trace, i, j)
    ensures RealDepends(env, trace, i, j)
  {
    hide Writes, Reads, SelfEdge, AtomicAt, Passed, LastWriter, RealWriter, Hidden;
    if !(i == j && SelfEdge(env, trace[i])) {
      var x :| x < MAX_RANGE && Reads(env, trace[i], x) && LastWriter(env, trace, i, x) == Some(j);
      WriterReal(env, trace, i, x);
      assert Plain(env, trace, i, x);
    }
  }

  lemma {:induction false} PlainIfSeen(env: Env, trace: seq<SmallestBlock>, i: nat, x: uint64)
    requires GoodEnv(env) && FormedTrace(env.prog, trace) && i < |trace| && x < MAX_RANGE
    requires !Passed(env, trace[i])
    requires forall j: nat :: RealDepends(env, trace, i, j) ==> Depends(env, trace, i, j)
    ensures Plain(env, trace, i, x)
  {
    hide Writes, Reads, SelfEdge, Passed, LastWriter, RealWriter, Hidden, AtomicAt;
    var w := RealWriter(env, trace, i, x);
    if w.Some? && TrulyReads(env, trace[i], x) {
      assert RealDepends(env, trace, i, w.value);
      if AtomicAt(env.prog, trace[i], x) || AtomicAt(env.prog, trace[w.value], x) {
        AtomicUnseen(env, trace, i, w.value, x);
      }
    }
  }

  /** Between blocks that are not passed over, the pass sees what truly depends on what,
      exactly if no atomic access is on either side of a true dependence, and no call that
      is passed over hides what was written from a block that reads it nowhere else. */
  lemma {:induction false} SeenExactly(env: Env, trace: seq<SmallestBlock>)
    requires GoodEnv(env) && FormedTrace(env.prog, trace)
    ensures AllPlain(env, trace) <==>
              forall i: nat, j: nat :: BothLooked(env, trace, i, j) ==>
                (RealDepends(env, trace, i, j) <==> Depends(env, trace, i, j))
  {
    hide Depends, RealDepends, Plain, Passed;
    if AllPlain(env, trace) {
      forall i: nat, j: nat | BothLooked(env, trace, i, j)
        ensures RealDepends(env, trace, i, j) <==> Depends(env, trace, i, j)
      {
        if RealDepends(env, trace, i, j) { RealSeen(env, trace, i, j); }
        if Depends(env, trace, i, j) { SeenReal(env, trace, i, j); }
      }
    }
    if forall i: nat, j: nat :: BothLooked(env, trace, i, j) ==>
         (RealDepends(env, trace, i, j) <==> Depends(env, trace, i, j)) {
      forall i: nat, x | i < |trace| && x < MAX_RANGE && !Passed(env, trace[i]) ensures Plain(env, trace, i, x) {
        forall j: nat | RealDepends(env, trace, i, j) ensures Depends(env, trace, i, j) {
          RealSources(env, trace, i, j);
        }
        PlainIfSeen(env, trace, i, x);
      }
    }
  }

  ghost predicate BothLooked(env: Env, trace: seq<SmallestBlock>, i: nat, j: nat)
    requires FormedTrace(env.prog, trace)
  {
    i < |trace| && j < |trace| && !Passed(env, trace[i]) && !Passed(env, trace[j])
  }

  lemma {:induction false} RealSources(env: Env, trace: seq<SmallestBlock>, i: nat, j: nat)
    requires GoodEnv(env) && FormedTrace(env.prog, trace) && i < |trace|
    requires RealDepends(env, trace, i, j)
    ensures j <= i && !Passed(env, trace[i]) && !Passed(env, trace[j]) && IsAccess(trace[i]) && IsAccess(trace[j])
  {
    hide RealWriter, Passed;
  }

  /** A call that is passed over was last to write x. */
  ghost predicate LastPassed(env: Env, trace: seq<SmallestBlock>, i: nat, x: uint64)
    requires GoodEnv(env) && FormedTrace(env.prog, trace) && i <= |trace|
  {
    var w := LastWriter(env, trace, i, x);
    w.Some? && Passed(env, trace[w.value])
  }

  /** In particular it does, if no atomic access touches a byte, and nothing reads a byte
      that a call that is passed over was last to write. */
  lemma {:induction false} NothingHidden(env: Env, trace: seq<SmallestBlock>)
    requires GoodEnv(env) && FormedTrace(env.prog, trace)
    requires forall i, x :: 0 <= i < |trace| ==> !AtomicAt(env.prog, trace[i], x)
    requires forall i: nat, x :: i < |trace| && !Passed(env, trace[i]) && Reads(env, trace[i], x) ==>
               !LastPassed(env, trace, i, x)
    ensures AllPlain(env, trace)
  {
    hide Writes, Reads, AtomicAt, Passed, LastWriter, RealWriter;
    forall i: nat, x | i < |trace| && x < MAX_RANGE && !Passed(env, trace[i]) ensures Plain(env, trace, i, x) {
      var w := RealWriter(env, trace, i, x);
      if w.Some? && TrulyReads(env, trace[i], x) && Hidden(env, trace, w.value, i, x) {
        var k: nat :| w.value < k < i && Passed(env, trace[k]) && Writes(env, trace[k], x);
        WriterAfter(env, trace, i, x, k);
        WriterReal(env, trace, i, x);
      }
    }
  }

  lemma {:induction false} WriterAfter(env: Env, trace: seq<SmallestBlock>, i: nat, x: uint64, k: nat)
    requires GoodEnv(env) && FormedTrace(env.prog, trace) && k < i <= |trace|
    requires Writes(env, trace[k], x)
    ensures LastWriter(env, trace, i, x).Some? && LastWriter(env, trace, i, x).value >= k
  {
    hide Writes;
    if k < i - 1 { WriterAfter(env, trace, i - 1, x, k); }
  }
}
