/** Trace events, and the shape of the programs that emit them. */
module Events {
  import opened Common

  datatype Event =
    | BasicBlockEvent(tid: Tid, id: uint32)
    | MemoryEvent(tid: Tid, id: uint32, addr: uint64, length: uint64)
    | ReturnEvent(tid: Tid, id: uint32, fun: uint64)
    | ArgumentEvent(tid: Tid, arg: uint64)
    | MemsetEvent(tid: Tid, id: uint32, addr: uint64, length: uint64)
    | MemmoveEvent(tid: Tid, id: uint32, dest: uint64, src: uint64, length: uint64)
    | EndEvent
    | PlaceHolderEvent
  {
    /** End and placeholders carry no thread. */
    predicate HasTid() { !EndEvent? && !PlaceHolderEvent? }
  }

  /** The instruction ID of a declaration, (uint32_t) -1. */
  const DECLARED: uint32 := 0xFFFF_FFFF

  /** addr + length in 64 bits. */
  function Past(addr: uint64, length: uint64): uint64 {
    ((addr as int + length as int) % 0x1_0000_0000_0000_0000) as uint64
  }

  // -------------------------------------------------------------- programs

  /** Instructions that emit no event and never leave the block. */
  predicate Silent(info: InstInfo) {
    info.typ in {NormalInst, ReturnInst, TerminatorInst, PhiNode, VarArg}
  }

  /** Calls into instrumented code; intrinsic calls are not. */
  predicate Calls(info: InstInfo) {
    info.typ == CallInst && !("llvm." <= info.fun)
  }

  /** The block of instruction IDs, as the static pass writes it: not empty, and
      ended by its only terminator or return. */
  predicate GoodBB(prog: Program, bb: nat)
    requires bb < |prog.bb2ins|
  {
    var ids := prog.bb2ins[bb];
    && |ids| > 0
    && (forall k :: 0 <= k < |ids| ==> ids[k] < |prog.ins|)
    && (forall k :: 0 <= k < |ids| ==>
          (prog.ins[ids[k]].typ in {ReturnInst, TerminatorInst} <==> k == |ids| - 1))
  }

  /** Instruction IDs fit 32 bits, and -1 is not one of them. */
  predicate GoodCode(prog: Program) {
    |prog.ins| <= DECLARED as int && forall bb :: 0 <= bb < |prog.bb2ins| ==> GoodBB(prog, bb)
  }

  /** Names that are impactful whatever their address. */
  predicate ImpactfulName(name: string) {
    || name in {"poll", "fcntl", "fclose", "write", "getpid", "listen", "close", "fflush", "signal", "fstate", "exit"}
    || "pthread_" <= name
  }
}
