/** What it means to depend on memory: a memory of bytes with values, and what each block
    does to it. The dependencies extracted (tools/PrintBug/ExtractMemoryDependency.cpp) are
    then those on which it depends what a block takes from memory. */
module ByteMemory {
  import opened Common
  import opened SegmentTrees
  import opened MemoryDependency
  import opened Atomics
  import opened PassedCalls

  /** The values of a run: what memory holds at first, and what each block computes for
      each byte. A move that goes amiss writes what it computes, and not what it copies. */
  datatype Values = Values(init: uint64 -> int, own: (nat, uint64) -> int, amiss: nat -> bool)

  /** The two ranges of an effective move are of one length. */
  predicate EvenMoves(trace: seq<SmallestBlock>) {
    forall i :: 0 <= i < |trace| && trace[i].typ == MemmoveBlock && |trace[i].addr| == 4
                && trace[i].addr[0] < trace[i].addr[1] ==>
      trace[i].addr[3] as int - trace[i].addr[2] as int == trace[i].addr[1] as int - trace[i].addr[0] as int
  }

  ghost predicate Ready(env: Env, trace: seq<SmallestBlock>) {
    GoodEnv(env) && OneGroupEach(env) && FormedTrace(env.prog, trace) && EvenMoves(trace)
  }

  /** x is in one of the groups that a call is given addresses of. */
  ghost predicate Given(env: Env, b: SmallestBlock, x: uint64)
    requires GoodEnv(env)
  {
    x < MAX_RANGE && exists k :: 1 <= k < |b.addr| && InOne(env, b.addr[k], x)
  }

  ghost predicate InOne(env: Env, a: uint64, x: uint64)
    requires GoodEnv(env)
  {
    Look(env.owner, 0, MAX_RANGE, a).Some? && Look(env.owner, 0, MAX_RANGE, a) == Look(env.owner, 0, MAX_RANGE, x)
  }

  /** What the instruction of a block is: of what kind, or of which function. */
  function Info(env: Env, b: SmallestBlock): InstInfo
    requires Formed(env.prog, b) && IsAccess(b)
  {
    env.prog.ins[env.prog.bb2ins[b.bb][b.start]]
  }

  /** A call of `free`, `va_start` or `va_end`. */
  predicate Frees(env: Env, b: SmallestBlock)
    requires Formed(env.prog, b)
  {
    b.typ == ExternalCallBlock && Info(env, b).fun in {"free", "va_start", "va_end"}
  }

  /** Byte k of the source of a move, for byte x == addr[0] + k of its destination. */
  function Source(b: SmallestBlock, x: uint64): uint64
    requires |b.addr| == 4 && b.addr[0] <= x < b.addr[1]
    requires b.addr[3] as int - b.addr[2] as int == b.addr[1] as int - b.addr[0] as int
  {
    b.addr[2] + (x - b.addr[0])
  }

  /** What byte x holds before block i. With `all`, atomic accesses read and write, and calls
      that are passed over do neither; without, it is the other way round, as the pass sees
      it. */
  ghost function Memory(env: Env, trace: seq<SmallestBlock>, all: bool, r: Values, i: nat, x: uint64): int
    requires Ready(env, trace) && i <= |trace|
    decreases i, 0
  {
    if i == 0 then r.init(x)
    else
      match Written(env, trace, all, r, i - 1, x)
      case Some(value) => value
      case None => Memory(env, trace, all, r, i - 1, x)
  }

  /** What block i writes to byte x, if it writes it. */
  ghost function Written(env: Env, trace: seq<SmallestBlock>, all: bool, r: Values, i: nat, x: uint64): Option<int>
    requires Ready(env, trace) && i < |trace|
    decreases i, 1
  {
    var b := trace[i];
    match b.typ
    case MemoryAccessBlock =>
      if b.addr[0] <= x < b.addr[1]
         && (Info(env, b).typ == StoreInst || (all && Info(env, b).typ == AtomicInst)) then Some(r.own(i, x))
      else None
    case MemsetBlock => if b.addr[0] <= x < b.addr[1] then Some(r.own(i, x)) else None
    case MemmoveBlock =>
      if !(b.addr[0] <= x < b.addr[1]) then None
      else if r.amiss(i) then Some(r.own(i, x))
      else Some(Memory(env, trace, all, r, i, Source(b, x)))
    case ExternalCallBlock => if Given(env, b, x) && !(all && Frees(env, b)) then Some(r.own(i, x)) else None
    case ImpactfulCallBlock => if Given(env, b, x) then Some(r.own(i, x)) else None
    case _ => None
  }

  /** What block i takes from memory at byte x: a load the byte itself, a move the one it
      copies to x, a call every byte it is given. */
  ghost function Taken(env: Env, trace: seq<SmallestBlock>, all: bool, r: Values, i: nat, x: uint64): Option<int>
    requires Ready(env, trace) && i < |trace|
  {
    var b := trace[i];
    match b.typ
    case MemoryAccessBlock =>
      if b.addr[0] <= x < b.addr[1]
         && (Info(env, b).typ == LoadInst || (all && Info(env, b).typ == AtomicInst)) then
        Some(Memory(env, trace, all, r, i, x))
      else None
    case MemmoveBlock =>
      if b.addr[0] <= x < b.addr[1] then Some(Memory(env, trace, all, r, i, Source(b, x))) else None
    case ExternalCallBlock =>
      if Given(env, b, x) && !(all && Frees(env, b)) then Some(Memory(env, trace, all, r, i, x)) else None
    case ImpactfulCallBlock => if Given(env, b, x) then Some(Memory(env, trace, all, r, i, x)) else None
    case _ => None
  }

  /** Block j writes the same in both runs. */
  ghost predicate WritesAlike(env: Env, trace: seq<SmallestBlock>, all: bool, r: Values, r': Values, j: nat)
    requires Ready(env, trace) && j < |trace|
  {
    forall x :: Written(env, trace, all, r, j, x) == Written(env, trace, all, r', j, x)
  }

  /** Block i takes the same from memory in both. */
  ghost predicate TakesAlike(env: Env, trace: seq<SmallestBlock>, all: bool, r: Values, r': Values, i: nat)
    requires Ready(env, trace) && i < |trace|
  {
    forall x :: Taken(env, trace, all, r, i, x) == Taken(env, trace, all, r', i, x)
  }

  /** A byte that no block before i writes is at first the same in both. */
  ghost predicate StartsAlike(env: Env, trace: seq<SmallestBlock>, all: bool, r: Values, r': Values, i: nat)
    requires Ready(env, trace) && i <= |trace|
  {
    forall x :: Untouched(env, trace, all, r, i, x) ==> r.init(x) == r'.init(x)
  }

  ghost predicate Untouched(env: Env, trace: seq<SmallestBlock>, all: bool, r: Values, i: nat, x: uint64)
    requires Ready(env, trace) && i <= |trace|
  {
    forall j: nat :: j < i ==> Written(env, trace, all, r, j, x).None?
  }

  /** What block i takes depends on what block j wrote: there are runs that differ, before
      block i, in nothing but that, and in which block i takes different values. */
  ghost predicate Matters(env: Env, trace: seq<SmallestBlock>, all: bool, i: nat, j: nat)
    requires Ready(env, trace) && i < |trace|
  {
    exists r, r' :: Differ(env, trace, all, r, r', i, j)
  }

  ghost predicate Differ(env: Env, trace: seq<SmallestBlock>, all: bool, r: Values, r': Values, i: nat, j: nat)
    requires Ready(env, trace) && i < |trace|
  {
    && !TakesAlike(env, trace, all, r, r', i)
    && r.init == r'.init
    && forall k: nat :: k < i && k != j ==> WritesAlike(env, trace, all, r, r', k)
  }

  // ------------------------------------------------------ writers and readers

  ghost predicate Changes(env: Env, all: bool, b: SmallestBlock, x: uint64)
    requires GoodEnv(env) && Formed(env.prog, b)
  {
    if all then !Passed(env, b) && TrulyWrites(env, b, x) else Writes(env, b, x)
  }

  ghost function Writer(env: Env, all: bool, trace: seq<SmallestBlock>, i: nat, x: uint64): Option<nat>
    requires GoodEnv(env) && FormedTrace(env.prog, trace) && i <= |trace|
  {
    if all then RealWriter(env, trace, i, x) else LastWriter(env, trace, i, x)
  }

  lemma {:induction false} GivenReaches(env: Env, b: SmallestBlock, x: uint64)
    requires GoodEnv(env) && OneGroupEach(env)
    ensures Given(env, b, x) <==> CallReaches(env, b, x)
  {
    if Given(env, b, x) {
      var k :| 1 <= k < |b.addr| && InOne(env, b.addr[k], x);
      assert InGroup(env, Look(env.owner, 0, MAX_RANGE, x).value, x);
      assert ArgReaches(env, b, k, x);
    }
    if CallReaches(env, b, x) {
      var k: nat :| ArgReaches(env, b, k, x);
      assert InOne(env, b.addr[k], x);
    }
  }

  lemma {:induction false} WrittenIs(env: Env, trace: seq<SmallestBlock>, all: bool, r: Values, i: nat, x: uint64)
    requires Ready(env, trace) && i < |trace|
    ensures Written(env, trace, all, r, i, x).Some? <==> Changes(env, all, trace[i], x)
  {
    hide Given, CallReaches, Memory, GoodEnv, OneGroupEach;
    GivenReaches(env, trace[i], x);
  }

  lemma {:induction false} MemoryIs(env: Env, trace: seq<SmallestBlock>, all: bool, r: Values, i: nat, x: uint64)
    requires Ready(env, trace) && i <= |trace|
    ensures var w := Writer(env, all, trace, i, x);
            && (w.Some? ==> w.value < i && Written(env, trace, all, r, w.value, x)
                                          == Some(Memory(env, trace, all, r, i, x)))
            && (w.None? ==> Untouched(env, trace, all, r, i, x) && Memory(env, trace, all, r, i, x) == r.init(x))
  {
    hide Written, Writes, TrulyWrites, Passed, Ready;
    if i > 0 {
      MemoryIs(env, trace, all, r, i - 1, x);
      WrittenIs(env, trace, all, r, i - 1, x);
    }
  }

  ghost predicate Dependence(env: Env, trace: seq<SmallestBlock>, all: bool, i: nat, j: nat)
    requires GoodEnv(env) && FormedTrace(env.prog, trace) && i < |trace|
  {
    if all then RealDepends(env, trace, i, j) else Depends(env, trace, i, j)
  }

  ghost predicate Fetches(env: Env, all: bool, b: SmallestBlock, y: uint64)
    requires GoodEnv(env) && Formed(env.prog, b)
  {
    if all then !Passed(env, b) && TrulyReads(env, b, y) else Reads(env, b, y)
  }

  lemma {:induction false} TakenIs(env: Env, trace: seq<SmallestBlock>, all: bool, r: Values, i: nat, x: uint64)
    requires Ready(env, trace) && i < |trace|
    ensures var y := TakenAt(trace[i], x);
            && (Taken(env, trace, all, r, i, x).Some? <==> InRange(trace[i], x) && Fetches(env, all, trace[i], y))
            && (Taken(env, trace, all, r, i, x).Some? ==>
                  y < MAX_RANGE && Taken(env, trace, all, r, i, x) == Some(Memory(env, trace, all, r, i, y)))
  {
    hide Given, CallReaches, Memory, GoodEnv, OneGroupEach;
    GivenReaches(env, trace[i], x);
    GivenBelow(env, trace[i], x);
  }

  lemma {:induction false} GivenBelow(env: Env, b: SmallestBlock, x: uint64)
    requires GoodEnv(env)
    ensures Given(env, b, x) ==> x < MAX_RANGE
  {
  }

  /** Only a move takes at x another byte than x. */
  function TakenAt(b: SmallestBlock, x: uint64): uint64 {
    if b.typ == MemmoveBlock && |b.addr| == 4 && b.addr[0] <= x < b.addr[1]
       && b.addr[3] as int - b.addr[2] as int == b.addr[1] as int - b.addr[0] as int then Source(b, x)
    else x
  }

  predicate InRange(b: SmallestBlock, x: uint64) {
    b.typ == MemmoveBlock && |b.addr| == 4 ==> b.addr[0] <= x < b.addr[1]
  }

  /** Every byte that a block fetches is taken somewhere. */
  lemma {:induction false} FetchedAt(env: Env, trace: seq<SmallestBlock>, all: bool, i: nat, y: uint64)
    returns (x: uint64)
    requires Ready(env, trace) && i < |trace| && Fetches(env, all, trace[i], y)
    ensures TakenAt(trace[i], x) == y && InRange(trace[i], x)
  {
    hide GoodEnv, OneGroupEach, CallReaches;
    var b := trace[i];
    x := if b.typ == MemmoveBlock then b.addr[0] + (y - b.addr[2]) else y;
  }

  lemma {:induction false} DependenceIs(env: Env, trace: seq<SmallestBlock>, all: bool, i: nat, j: nat)
    requires GoodEnv(env) && FormedTrace(env.prog, trace) && i < |trace| && j < i
    ensures Dependence(env, trace, all, i, j) <==>
              exists y :: y < MAX_RANGE && Fetches(env, all, trace[i], y) && Writer(env, all, trace, i, y) == Some(j)
  {
    hide Reads, TrulyReads, Passed, LastWriter, RealWriter, SelfEdge;
    if Dependence(env, trace, all, i, j) {
      if all {
        var y :| y < MAX_RANGE && TrulyReads(env, trace[i], y) && RealWriter(env, trace, i, y) == Some(j);
        assert Fetches(env, all, trace[i], y) && Writer(env, all, trace, i, y) == Some(j);
      } else {
        var y :| y < MAX_RANGE && Reads(env, trace[i], y) && LastWriter(env, trace, i, y) == Some(j);
        assert Fetches(env, all, trace[i], y) && Writer(env, all, trace, i, y) == Some(j);
      }
    }
    if y :| y < MAX_RANGE && Fetches(env, all, trace[i], y) && Writer(env, all, trace, i, y) == Some(j) {
      assert all ==> RealWriter(env, trace, i, y) == Some(j);
      assert !all ==> LastWriter(env, trace, i, y) == Some(j);
    }
  }

  // ----------------------------------------------------------------- results

  /** What a block takes is settled by what the blocks wrote on which it depends, and by
      the bytes that no block wrote. */
  lemma {:induction false} DependencesSettle(env: Env, trace: seq<SmallestBlock>, all: bool, r: Values, r': Values,
                                             i: nat)
    requires Ready(env, trace) && i < |trace| && StartsAlike(env, trace, all, r, r', i)
    requires forall j: nat :: j < i && Dependence(env, trace, all, i, j) ==> WritesAlike(env, trace, all, r, r', j)
    ensures TakesAlike(env, trace, all, r, r', i)
  {
    hide Ready, Taken, Written, Memory, Fetches, Writer, Dependence, Untouched, TakenAt, InRange;
    ReadyIs(env, trace);
    forall x ensures Taken(env, trace, all, r, i, x) == Taken(env, trace, all, r', i, x) {
      TakenIs(env, trace, all, r, i, x);
      TakenIs(env, trace, all, r', i, x);
      var y := TakenAt(trace[i], x);
      if Taken(env, trace, all, r, i, x).Some? {
        MemoryIs(env, trace, all, r, i, y);
        MemoryIs(env, trace, all, r', i, y);
        var w := Writer(env, all, trace, i, y);
        if w.Some? {
          DependenceIs(env, trace, all, i, w.value);
          assert WritesAlike(env, trace, all, r, r', w.value);
        }
      }
    }
  }

  lemma {:induction false} ReadyIs(env: Env, trace: seq<SmallestBlock>)
    requires Ready(env, trace)
    ensures GoodEnv(env) && FormedTrace(env.prog, trace)
  {
  }

  /** Runs in which every move goes amiss, alike but for what block j writes. */
  function Alike(j: nat, value: int): Values {
    Values((x: uint64) => 0, (k: nat, x: uint64) => if k == j then value else 0, (k: nat) => true)
  }

  lemma {:induction false} AlikeWrites(env: Env, trace: seq<SmallestBlock>, all: bool, j: nat, value: int, k: nat,
                                       x: uint64)
    requires Ready(env, trace) && k < |trace|
    ensures var w := Written(env, trace, all, Alike(j, value), k, x);
            w.Some? ==> w.value == if k == j then value else 0
  {
    hide Given, GoodEnv, OneGroupEach, Memory;
  }

  /** And each of them is needed. */
  lemma {:induction false} DependenceNeeded(env: Env, trace: seq<SmallestBlock>, all: bool, i: nat, j: nat)
    requires Ready(env, trace) && i < |trace| && j < i && Dependence(env, trace, all, i, j)
    ensures Matters(env, trace, all, i, j)
  {
    hide Ready, Taken, Written, Memory, Fetches, Writer, Dependence, TakenAt, InRange, Untouched;
    ReadyIs(env, trace);
    DependenceIs(env, trace, all, i, j);
    var y :| y < MAX_RANGE && Fetches(env, all, trace[i], y) && Writer(env, all, trace, i, y) == Some(j);
    var x := FetchedAt(env, trace, all, i, y);
    var (r, r') := (Alike(j, 0), Alike(j, 1));
    forall k: nat | k < i && k != j ensures WritesAlike(env, trace, all, r, r', k) {
      forall x ensures Written(env, trace, all, r, k, x) == Written(env, trace, all, r', k, x) {
        AlikeWrites(env, trace, all, j, 0, k, x);
        AlikeWrites(env, trace, all, j, 1, k, x);
        WrittenIs(env, trace, all, r, k, x);
        WrittenIs(env, trace, all, r', k, x);
      }
    }
    TakenIs(env, trace, all, r, i, x);
    TakenIs(env, trace, all, r', i, x);
    MemoryIs(env, trace, all, r, i, y);
    MemoryIs(env, trace, all, r', i, y);
    AlikeWrites(env, trace, all, j, 0, j, y);
    AlikeWrites(env, trace, all, j, 1, j, y);
    assert Taken(env, trace, all, r, i, x) != Taken(env, trace, all, r', i, x);
    assert Differ(env, trace, all, r, r', i, j);
  }

  lemma {:induction false} MattersExactly(env: Env, trace: seq<SmallestBlock>, all: bool, i: nat, j: nat)
    requires Ready(env, trace) && i < |trace| && j < i
    ensures GoodEnv(env) && FormedTrace(env.prog, trace)
    ensures Dependence(env, trace, all, i, j) <==> Matters(env, trace, all, i, j)
  {
    hide Ready, Taken, Written, Dependence, TakesAlike, WritesAlike;
    ReadyIs(env, trace);
    if Dependence(env, trace, all, i, j) { DependenceNeeded(env, trace, all, i, j); }
    if !Dependence(env, trace, all, i, j) {
      forall r: Values, r': Values ensures !Differ(env, trace, all, r, r', i, j) {
        if Differ(env, trace, all, r, r', i, j) { DependencesSettle(env, trace, all, r, r', i); }
      }
    }
  }

  /** The dependencies extracted for a block are the earlier blocks on which it depends
      what it takes from memory, as the pass sees memory. */
  lemma {:induction false} ExtractedMatters(env: Env, trace: seq<SmallestBlock>, memDep: DepMap, i: nat, j: nat)
    requires Ready(env, trace) && Extracted(env, trace, memDep)
    requires j < i < |trace| && IsAccess(trace[i]) && IsAccess(trace[j])
    ensures InDeps(memDep, Back(env.prog, trace, i), Back(env.prog, trace, j)) <==> Matters(env, trace, false, i, j)
  {
    hide Ready, Matters, Depends, Back;
    MattersExactly(env, trace, false, i, j);
    assert ExtractedBlock(env, trace, i, memDep);
    var d := Back(env.prog, trace, j);
    forall j': nat | j' <= i && IsAccess(trace[j']) && d == Back(env.prog, trace, j') ensures j' == j {
      BackInjective(env.prog, trace, j', j);
    }
    assert DependsBack(env, trace, i, d) <==> Depends(env, trace, i, j);
  }

  /** Where atomic accesses and the calls passed over make no difference, they are those on
      which it truly depends. */
  lemma {:induction false} ExtractedTrulyMatters(env: Env, trace: seq<SmallestBlock>, memDep: DepMap, i: nat, j: nat)
    requires Ready(env, trace) && Extracted(env, trace, memDep) && AllPlain(env, trace)
    requires j < i < |trace| && IsAccess(trace[i]) && IsAccess(trace[j])
    requires !Frees(env, trace[i]) && !Frees(env, trace[j])
    ensures InDeps(memDep, Back(env.prog, trace, i), Back(env.prog, trace, j)) <==> Matters(env, trace, true, i, j)
  {
    hide Ready, Matters, Depends, RealDepends, Back, AllPlain;
    ReadyIs(env, trace);
    ExtractedMatters(env, trace, memDep, i, j);
    MattersExactly(env, trace, false, i, j);
    MattersExactly(env, trace, true, i, j);
    SeenExactly(env, trace);
    assert BothLooked(env, trace, i, j);
  }
}
