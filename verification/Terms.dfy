/** What the results about the slice speak of, in the program's own data: which values an
    instruction uses, and which executions a trace of blocks stands for
    (tools/PrintBug/PrintBug.cpp, lines 106-137, 251-258, 276-311). */
module Terms {
  import opened Common
  import opened Executions

  /** Entry n of a phi node is the first for block `lastBB`. */
  ghost predicate FirstEntry(phi: seq<(nat, DepType, nat)>, lastBB: Option<nat>, n: nat) {
    n < |phi| && Some(phi[n].0) == lastBB && forall m :: 0 <= m < n ==> Some(phi[m].0) != lastBB
  }

  lemma {:induction false} PhiInputMeans(phi: seq<(nat, DepType, nat)>, lastBB: Option<nat>, input: (DepType, nat))
    ensures PhiInput(phi, lastBB) == Some(input) <==>
              exists n: nat :: FirstEntry(phi, lastBB, n) && (phi[n].1, phi[n].2) == input
    decreases |phi|
  {
    if phi != [] {
      var rest := phi[1..];
      PhiInputMeans(rest, lastBB, input);
      if Some(phi[0].0) == lastBB {
        assert FirstEntry(phi, lastBB, 0);
      } else {
        forall n: nat ensures FirstEntry(rest, lastBB, n) <==> FirstEntry(phi, lastBB, n + 1) {
          LaterEntry(phi, lastBB, n);
        }
        if n: nat :| FirstEntry(phi, lastBB, n) && (phi[n].1, phi[n].2) == input {
          var k: nat := n - 1;
          assert FirstEntry(rest, lastBB, k) && (rest[k].1, rest[k].2) == input;
        }
        if k: nat :| FirstEntry(rest, lastBB, k) && (rest[k].1, rest[k].2) == input {
          var n := k + 1;
          assert FirstEntry(phi, lastBB, n) && (phi[n].1, phi[n].2) == input;
        }
      }
    }
  }

  lemma {:induction false} LaterEntry(phi: seq<(nat, DepType, nat)>, lastBB: Option<nat>, n: nat)
    requires phi != [] && Some(phi[0].0) != lastBB
    ensures FirstEntry(phi[1..], lastBB, n) <==> FirstEntry(phi, lastBB, n + 1)
  {
    var rest := phi[1..];
    if FirstEntry(rest, lastBB, n) {
      forall m | 0 <= m < n + 1 ensures Some(phi[m].0) != lastBB {
        if m > 0 { assert phi[m] == rest[m - 1]; }
      }
    }
    if FirstEntry(phi, lastBB, n + 1) {
      forall m | 0 <= m < n ensures Some(rest[m].0) != lastBB { assert rest[m] == phi[m + 1]; }
    }
  }

  /** An instruction uses the instructions among its operands and, if it is a phi node, the
      one in its first entry for the block that control came from. */
  lemma {:induction false} UsesMeans(prog: Program, id: nat, lastBB: Option<nat>, x: nat)
    requires id < |prog.ins|
    ensures var (ssa, phi) := (prog.ins[id].ssa, prog.ins[id].phi);
            Uses(prog, id, lastBB, x) <==>
              || (exists n :: 0 <= n < |ssa| && ssa[n] == (Inst, x))
              || (exists n: nat :: FirstEntry(phi, lastBB, n) && phi[n].1 == Inst && phi[n].2 == x)
  {
    hide PhiInput;
    PhiInputMeans(prog.ins[id].phi, lastBB, (Inst, x));
  }

  /** A block stands for one execution of each of its instructions, in order: a part of a
      basic block for those from `start` up to `end`; an access or a call for one. A
      declaration stands for none, nor does a call of `free`, `va_start` or `va_end`. */
  lemma {:induction false} ExecsAre(prog: Program, trace: seq<SmallestBlock>, i: nat)
    requires GoodTrace(prog, trace) && i < |trace|
    ensures Base(prog, trace, 0) == 0 && Base(prog, trace, |trace|) == |Execs(prog, trace)|
    ensures var (b, lo, hi) := (trace[i], Base(prog, trace, i), Base(prog, trace, i + 1));
            if b.typ == NormalBlock then
              && hi == lo + (b.end - b.start) <= |Execs(prog, trace)|
              && forall p: nat :: lo <= p < hi ==>
                   Execs(prog, trace)[p] == Exec(b.tid, prog.bb2ins[b.bb][b.start + (p - lo)], i, b.lastBB)
            else if b.typ == DeclareBlock || (b.typ == ExternalCallBlock
                      && prog.ins[prog.bb2ins[b.bb][b.start]].fun in {"free", "va_start", "va_end"}) then hi == lo
            else
              && hi == lo + 1 <= |Execs(prog, trace)|
              && Execs(prog, trace)[lo] == Exec(b.tid, prog.bb2ins[b.bb][b.start], i, b.lastBB)
  {
    hide Execs, Base;
    WholeTrace(prog, trace);
    BaseStep(prog, trace, i);
    var (b, lo, hi) := (trace[i], Base(prog, trace, i), Base(prog, trace, i + 1));
    forall p: nat | lo <= p < hi
      ensures p < |Execs(prog, trace)|
      ensures Execs(prog, trace)[p] == Exec(b.tid, Ids(prog, b)[p - lo], i, b.lastBB)
    {
      ExecOfBlock(prog, trace, i, p - lo);
    }
  }

  lemma {:induction false} WholeTrace(prog: Program, trace: seq<SmallestBlock>)
    requires GoodTrace(prog, trace)
    ensures Base(prog, trace, 0) == 0 && Base(prog, trace, |trace|) == |Execs(prog, trace)|
  {
    FlattenLength(Lines(prog, trace));
  }
}
