/** The executions a block trace stands for, in order, and how the backward
    scan of tools/PrintBug/PrintBug.cpp numbers them. */
module Executions {
  import opened Common

  datatype Exec = Exec(tid: Tid, id: nat, block: nat, lastBB: Option<nat>) {
    function Key(): Key { (tid, id) }
  }

  /** Calls the scan passes over without counting them. */
  predicate Skipped(prog: Program, b: SmallestBlock)
    requires b.typ == ExternalCallBlock ==> prog.HasInst(b.bb, b.start)
  {
    b.typ == ExternalCallBlock && prog.ins[prog.bb2ins[b.bb][b.start]].fun in PASSED_OVER
  }

  predicate GoodProgram(prog: Program) {
    forall bb, k :: 0 <= bb < |prog.bb2ins| && 0 <= k < |prog.bb2ins[bb]| ==> prog.bb2ins[bb][k] < |prog.ins|
  }

  predicate GoodBlock(prog: Program, b: SmallestBlock) {
    && Formed(prog, b)
    && (b.typ == NormalBlock ==> b.bb < |prog.bb2ins| && b.start <= b.end <= |prog.bb2ins[b.bb]|)
  }

  predicate GoodTrace(prog: Program, trace: seq<SmallestBlock>) {
    GoodProgram(prog) && forall i :: 0 <= i < |trace| ==> GoodBlock(prog, trace[i])
  }

  /** The instructions a block executes, as far as the scan counts them. */
  function Ids(prog: Program, b: SmallestBlock): seq<nat>
    requires GoodBlock(prog, b)
  {
    if b.typ == NormalBlock then prog.bb2ins[b.bb][b.start..b.end]
    else if b.typ == DeclareBlock || Skipped(prog, b) then []
    else [prog.bb2ins[b.bb][b.start]]
  }

  // -------------------------------------------------- lines laid end to end

  /** Where line i starts. */
  ghost function Offset<T>(lines: seq<seq<T>>, i: nat): nat
    requires i <= |lines|
  {
    if i == 0 then 0 else Offset(lines, i - 1) + |lines[i - 1]|
  }

  lemma {:induction false} OffsetMono<T>(lines: seq<seq<T>>, i: nat, j: nat)
    requires i <= j <= |lines|
    ensures Offset(lines, i) <= Offset(lines, j)
    decreases j - i
  {
    if i < j { OffsetMono(lines, i, j - 1); }
  }

  lemma {:induction false} OffsetPrefix<T>(lines: seq<seq<T>>, n: nat, i: nat)
    requires i <= n <= |lines|
    ensures Offset(lines[..n], i) == Offset(lines, i)
  {
    if i > 0 { OffsetPrefix(lines, n, i - 1); }
  }

  lemma {:induction false} FlattenAt<T>(lines: seq<seq<T>>, i: nat, k: nat)
    requires i < |lines| && k < |lines[i]|
    ensures |Flatten(lines)| == Offset(lines, |lines|) > Offset(lines, i) + k
    ensures Flatten(lines)[Offset(lines, i) + k] == lines[i][k]
    decreases |lines|
  {
    var n := |lines| - 1;
    FlattenLength(lines);
    FlattenLength(lines[..n]);
    OffsetPrefix(lines, n, n);
    OffsetMono(lines, i + 1, |lines|);
    if i < n {
      OffsetPrefix(lines, n, i);
      FlattenAt(lines[..n], i, k);
    }
  }

  lemma {:induction false} FlattenLength<T>(lines: seq<seq<T>>)
    ensures |Flatten(lines)| == Offset(lines, |lines|)
    decreases |lines|
  {
    if lines != [] {
      FlattenLength(lines[..|lines| - 1]);
      OffsetPrefix(lines, |lines| - 1, |lines| - 1);
    }
  }

  lemma {:induction false} FlatFind<T>(lines: seq<seq<T>>, n: nat, p: nat) returns (i: nat, k: nat)
    requires n <= |lines| && p < Offset(lines, n)
    ensures i < n && k < |lines[i]| && p == Offset(lines, i) + k
  {
    i := n - 1;
    k := 0;
    if p < Offset(lines, i) { i, k := FlatFind(lines, i, p); } else { k := p - Offset(lines, i); }
  }

  // ------------------------------------------------- executions of a trace

  ghost function Line(prog: Program, b: SmallestBlock, i: nat): (es: seq<Exec>)
    requires GoodBlock(prog, b)
    ensures |es| == |Ids(prog, b)|
  {
    var ids := Ids(prog, b);
    seq(|ids|, k requires 0 <= k < |ids| => Exec(b.tid, ids[k], i, b.lastBB))
  }

  ghost function Lines(prog: Program, trace: seq<SmallestBlock>): (ls: seq<seq<Exec>>)
    requires GoodTrace(prog, trace)
    ensures |ls| == |trace|
  {
    seq(|trace|, i requires 0 <= i < |trace| => Line(prog, trace[i], i))
  }

  /** Every execution of the trace, in order. */
  ghost function Execs(prog: Program, trace: seq<SmallestBlock>): seq<Exec>
    requires GoodTrace(prog, trace)
  {
    Flatten(Lines(prog, trace))
  }

  /** Where the executions of block i start. */
  ghost function Base(prog: Program, trace: seq<SmallestBlock>, i: nat): nat
    requires GoodTrace(prog, trace) && i <= |trace|
  {
    Offset(Lines(prog, trace), i)
  }

  lemma {:induction false} BaseStep(prog: Program, trace: seq<SmallestBlock>, i: nat)
    requires GoodTrace(prog, trace) && i < |trace|
    ensures Base(prog, trace, i) + |Ids(prog, trace[i])| == Base(prog, trace, i + 1) <= |Execs(prog, trace)|
  {
    var lines := Lines(prog, trace);
    assert |lines[i]| == |Ids(prog, trace[i])|;
    OffsetMono(lines, i + 1, |trace|);
    FlattenLength(lines);
  }

  lemma {:induction false} BaseMono(prog: Program, trace: seq<SmallestBlock>, i: nat, j: nat)
    requires GoodTrace(prog, trace) && i <= j <= |trace|
    ensures Base(prog, trace, i) <= Base(prog, trace, j)
  {
    hide Lines;
    OffsetMono(Lines(prog, trace), i, j);
  }

  /** The executions of block i stand at Base(i), Base(i) + 1, ... */
  lemma {:induction false} ExecOfBlock(prog: Program, trace: seq<SmallestBlock>, i: nat, k: nat)
    requires GoodTrace(prog, trace) && i < |trace| && k < |Ids(prog, trace[i])|
    ensures Base(prog, trace, i) + k < |Execs(prog, trace)|
    ensures Execs(prog, trace)[Base(prog, trace, i) + k]
            == Exec(trace[i].tid, Ids(prog, trace[i])[k], i, trace[i].lastBB)
  {
    LineAt(prog, trace, i, k);
    hide Lines, Ids;
    FlattenAt(Lines(prog, trace), i, k);
  }

  lemma {:induction false} LineAt(prog: Program, trace: seq<SmallestBlock>, i: nat, k: nat)
    requires GoodTrace(prog, trace) && i < |trace| && k < |Ids(prog, trace[i])|
    ensures |Lines(prog, trace)[i]| == |Ids(prog, trace[i])|
    ensures Lines(prog, trace)[i][k] == Exec(trace[i].tid, Ids(prog, trace[i])[k], i, trace[i].lastBB)
  {
  }

  /** Every execution belongs to the block it names. */
  lemma {:induction false} BlockOfExec(prog: Program, trace: seq<SmallestBlock>, p: nat)
    requires GoodTrace(prog, trace) && p < |Execs(prog, trace)|
    ensures var i := Execs(prog, trace)[p].block;
            && i < |trace| && Base(prog, trace, i) <= p < Base(prog, trace, i) + |Ids(prog, trace[i])|
  {
    var lines := Lines(prog, trace);
    LineSizes(prog, trace);
    FlattenLength(lines);
    hide Lines, Ids;
    var i, k := FlatFind(lines, |trace|, p);
    LineAt(prog, trace, i, k);
    FlattenAt(lines, i, k);
  }

  lemma {:induction false} LineSizes(prog: Program, trace: seq<SmallestBlock>)
    requires GoodTrace(prog, trace)
    ensures forall i :: 0 <= i < |trace| ==> |Lines(prog, trace)[i]| == |Ids(prog, trace[i])|
  {
  }

  // ------------------------------------------------------------- numbering

  /** How many executions of `key` stand at position p or later. */
  ghost function CountKey(E: seq<Exec>, p: nat, key: Key): nat
    requires p <= |E|
    decreases |E| - p
  {
    if p == |E| then 0 else (if E[p].Key() == key then 1 else 0) + CountKey(E, p + 1, key)
  }

  /** Execution p, numbered from the end: 0 is the last one of its
      instruction and thread, -1 the one before it. */
  ghost function DynAt(E: seq<Exec>, p: nat): DynamicInst
    requires p < |E|
  {
    var later: int := CountKey(E, p + 1, E[p].Key());
    DynamicInst(E[p].tid, E[p].id, -later)
  }

  lemma {:induction false} CountKeyMono(E: seq<Exec>, p: nat, q: nat, key: Key)
    requires p <= q <= |E|
    ensures CountKey(E, q, key) <= CountKey(E, p, key)
    ensures p < q && E[p].Key() == key ==> CountKey(E, q, key) < CountKey(E, p, key)
    decreases q - p
  {
    if p < q { CountKeyMono(E, p + 1, q, key); }
  }

  lemma {:induction false} DynAtInjective(E: seq<Exec>, p: nat, q: nat)
    requires p < |E| && q < |E| && DynAt(E, p) == DynAt(E, q)
    ensures p == q
  {
    if p < q { CountKeyMono(E, p + 1, q, E[p].Key()); }
    if q < p { CountKeyMono(E, q + 1, p, E[p].Key()); }
  }

  // ---------------------------------------------------------- dependencies

  /** The value a phi node takes when control came from `lastBB`: the first
      entry for that block. */
  function PhiInput(phi: seq<(nat, DepType, nat)>, lastBB: Option<nat>): Option<(DepType, nat)> {
    if phi == [] then None
    else if Some(phi[0].0) == lastBB then Some((phi[0].1, phi[0].2))
    else PhiInput(phi[1..], lastBB)
  }

  /** Instruction `id`, reached from `lastBB`, uses the value of instruction x. */
  ghost predicate Uses(prog: Program, id: nat, lastBB: Option<nat>, x: nat)
    requires id < |prog.ins|
  {
    (Inst, x) in prog.ins[id].ssa || PhiInput(prog.ins[id].phi, lastBB) == Some((Inst, x))
  }

  /** Execution q produced a value that execution m uses: it is the last
      earlier execution, in the same thread, of an operand of m. */
  ghost predicate SsaDep(prog: Program, E: seq<Exec>, m: nat, q: nat)
    requires m < |E| && E[m].id < |prog.ins|
  {
    && q < m && E[q].tid == E[m].tid
    && Uses(prog, E[m].id, E[m].lastBB, E[q].id)
    && forall r :: q < r < m ==> E[r].Key() != E[q].Key()
  }

  /** Execution q is an earlier memory dependency of execution m. */
  ghost predicate MemDep(memDep: DepMap, trace: seq<SmallestBlock>, E: seq<Exec>, m: nat, q: nat)
    requires m < |E|
  {
    && q < m && E[q].block < |trace| && IsAccess(trace[E[q].block])
    && InDeps(memDep, DynAt(E, m), DynAt(E, q))
  }

  ghost predicate DataDep(prog: Program, memDep: DepMap, trace: seq<SmallestBlock>, E: seq<Exec>, m: nat, q: nat)
    requires m < |E| && E[m].id < |prog.ins|
  {
    SsaDep(prog, E, m, q) || MemDep(memDep, trace, E, m, q)
  }
}
