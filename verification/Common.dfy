/** Types shared by every stage of the analyser: machine integers, the static
    description of the instrumented program, dynamic instructions and blocks. */
module Common {

  newtype uint32 = x: int | 0 <= x < 0x1_0000_0000

  newtype uint64 = x: int | 0 <= x < 0x1_0000_0000_0000_0000

  const MAX_RANGE: uint64 := 0xFFFF_FFFF_FFFF_FFFF

  datatype Option<+T> = None | Some(value: T)

  lemma {:induction false} AnElement<T>(s: set<T>) returns (x: T)
    requires s != {}
    ensures x in s
  {
    x :| x in s;
  }

  lemma {:induction false} SmallestExists(s: set<int>)
    requires s != {}
    ensures exists m :: m in s && forall x :: x in s ==> m <= x
    decreases |s|
  {
    var m := AnElement(s);
    var rest := s - {m};
    assert s == rest + {m};
    if rest != {} {
      SmallestExists(rest);
      var m' :| m' in rest && forall x :: x in rest ==> m' <= x;
      assert if m' < m then forall x :: x in s ==> m' <= x else forall x :: x in s ==> m <= x;
    }
  }

  ghost function Smallest(s: set<int>): (m: int)
    requires s != {}
    ensures m in s && forall x :: x in s ==> m <= x
  {
    SmallestExists(s);
    var m :| m in s && forall x :: x in s ==> m <= x;
    m
  }

  ghost function Least(s: set<uint64>): (m: uint64)
    requires s != {}
    ensures m in s && forall x :: x in s ==> m <= x
  {
    var all := set x | x in s :: x as int;
    assert forall x :: x in s ==> x as int in all;
    var x :| x in s;
    Smallest(all) as uint64
  }

  method LeastOf(s: set<int>) returns (m: int)
    requires s != {}
    ensures m == Smallest(s)
  {
    SmallestExists(s);
    m :| m in s && forall x :: x in s ==> m <= x;
  }

  method LeastWord(s: set<uint64>) returns (m: uint64)
    requires s != {}
    ensures m == Least(s)
  {
    assert Least(s) in s;
    m :| m in s && forall x :: x in s ==> m <= x;
  }

  /** Lists laid end to end. */
  function Flatten<T>(lines: seq<seq<T>>): seq<T> {
    if lines == [] then [] else Flatten(lines[..|lines| - 1]) + lines[|lines| - 1]
  }

  lemma {:induction false} FlattenConcat<T>(a: seq<seq<T>>, b: seq<seq<T>>)
    ensures Flatten(a + b) == Flatten(a) + Flatten(b)
    decreases |b|
  {
    if b == [] {
      assert a + b == a;
    } else {
      var n := |b| - 1;
      assert (a + b)[..|a + b| - 1] == a + b[..n];
      FlattenConcat(a, b[..n]);
    }
  }

  function Min(a: uint64, b: uint64): uint64 { if a < b then a else b }

  function Max(a: uint64, b: uint64): uint64 { if a < b then b else a }

  // ---------------------------------------------------------------- program

  datatype DepType = Inst | Arg | PointerArg | Constant

  datatype InstType =
    | NormalInst | LoadInst | StoreInst | CallInst | ExternalCallInst | ReturnInst
    | TerminatorInst | PhiNode | VarArg | AtomicInst | AllocaInst

  /** What the Inst file records of one instruction. */
  datatype InstInfo = InstInfo(
    typ: InstType,
    isPointer: bool,
    fun: string,                              // called function, for calls
    code: string,                             // LLVM IR text
    ssa: seq<(DepType, nat)>,                 // operands
    successors: seq<nat>,                     // of a terminator
    phi: seq<(nat, DepType, nat)>)            // incoming block, kind, value

  /** `ins` maps an instruction ID to its information, `bb2ins` a basic block ID
      to the IDs of its instructions. */
  datatype Program = Program(ins: seq<InstInfo>, bb2ins: seq<seq<nat>>) {
    /** Instruction k of block bb exists and is described. */
    predicate HasInst(bb: nat, k: nat) {
      bb < |bb2ins| && k < |bb2ins[bb]| && bb2ins[bb][k] < |ins|
    }
  }

  // ----------------------------------------------------------- block trace

  type Tid = uint64

  /** One execution of an instruction: `cnt` numbers the executions of
      instruction `id` by thread `tid`. */
  datatype DynamicInst = DynamicInst(tid: Tid, id: nat, cnt: int)

  type Key = (Tid, nat)

  datatype BlockType =
    | NormalBlock | MemoryAccessBlock | ExternalCallBlock | ImpactfulCallBlock
    | MemsetBlock | MemmoveBlock | DeclareBlock

  /** A part of a basic block that is always executed without interruption:
      instructions `start` up to (excluding) `end` of block `bb`. */
  datatype SmallestBlock = SmallestBlock(
    typ: BlockType,
    tid: Tid,
    bb: nat,
    start: nat,
    end: nat,
    addr: seq<uint64>,
    isFirst: nat,        // 1: first of a called function, 2: first of a thread
    isLast: nat,         // 1: last of a called function, 2: last of a thread
    caller: Option<nat>, // None stands for (uint32_t) -1
    lastBB: Option<nat>) // None stands for -1

  /** Blocks that are one memory access or one external call. */
  predicate IsAccess(b: SmallestBlock) {
    b.typ in {MemoryAccessBlock, MemsetBlock, MemmoveBlock, ExternalCallBlock, ImpactfulCallBlock}
  }

  /** What every pass asks of a block: an access is of some instruction, and has the
      addresses of its kind. */
  predicate Formed(prog: Program, b: SmallestBlock) {
    && (IsAccess(b) ==> prog.HasInst(b.bb, b.start))
    && (b.typ in {MemoryAccessBlock, MemsetBlock, DeclareBlock} ==> |b.addr| == 2)
    && (b.typ == MemmoveBlock ==> |b.addr| == 4)
  }

  predicate FormedTrace(prog: Program, trace: seq<SmallestBlock>) {
    forall i :: 0 <= i < |trace| ==> Formed(prog, trace[i])
  }

  /** Functions whose calls the slicer passes over. */
  const PASSED_OVER: set<string> := {"free", "va_start", "va_end"}

  // ---------------------------------------------------------- dependencies

  /** What each execution depends on. */
  type DepMap = map<DynamicInst, set<DynamicInst>>

  predicate InDeps(deps: DepMap, e: DynamicInst, d: DynamicInst) {
    e in deps && d in deps[e]
  }

  /** What is recorded under an address. */
  function AtAddr(m: map<uint64, set<nat>>, a: uint64): set<nat> { if a in m then m[a] else {} }

  function Tally(count: map<Key, nat>, key: Key): nat {
    if key in count then count[key] else 0
  }
}
