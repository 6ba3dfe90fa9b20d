/** The ring of buffers between the traced program and its trace file
    (lib/SlimmerRuntime/SlimmerRuntime.cpp, lines 85-211): a producer fills the
    slots in turn, a compressor and a dumper follow it, and four semaphores per
    slot keep them apart. Every wait, signal, flag and copy is a step of its own;
    the steps of the three threads interleave freely. */
module Ring {
  import opened Common

  datatype Producer = Writing | Waiting | ClosingOne | ClosingTwo | Joining

  datatype Compressor = CheckC | WaitFilled | WaitEmpty | Compressing | SignalFilled | SignalEmpty | EndedC

  datatype Dumper = CheckD | WaitCompressed | Dumping | SignalDumped | EndedD

  /** `slot`, `compSlot` and `dumpSlot` are the loop counters of the threads.
      `handed` lists the blocks handed over so far, the last one included. */
  datatype State<B, C> = State(
    producer: Producer, slot: nat, handed: seq<B>,
    compressor: Compressor, compSlot: nat,
    dumper: Dumper, dumpSlot: nat,
    buffer: seq<B>, compressed: seq<C>,
    emptyBuffer: seq<nat>, filledBuffer: seq<nat>, emptyCompressed: seq<nat>, filledCompressed: seq<nat>,
    compressDone: bool, dumpDone: bool,
    file: seq<C>)

  datatype Step<B> =
    | Write(block: B)       // change the block being written
    | HandOver              // it is full: signal it filled, go to the next slot
    | TakeSlot              // ... once that is empty
    | StopCompressor        // CloseBufferFile: compress_done = true
    | StopDumper            // ... dump_done = true
    | HandLast              // ... signal the last block, then join
    | CheckCompressor | TakeFilled | TakeEmpty | Compress | GiveFilled | GiveEmpty
    | CheckDumper | TakeCompressed | Dump | GiveDumped

  /** n slots, all arrays as long. */
  predicate Sized<B, C>(s: State<B, C>, n: nat) {
    && n >= 1 && s.slot < n && s.compSlot < n && s.dumpSlot < n
    && |s.buffer| == |s.compressed| == n
    && |s.emptyBuffer| == |s.filledBuffer| == |s.emptyCompressed| == |s.filledCompressed| == n
  }

  /** After Init. */
  function Start<B, C>(n: nat, buffer: seq<B>, compressed: seq<C>): State<B, C>
    requires n >= 1 && |buffer| == |compressed| == n
  {
    State(Writing, 0, [], CheckC, 0, CheckD, 0, buffer, compressed,
          seq(n, i => if i == 0 then 0 else 1), seq(n, i => 0), seq(n, i => 1), seq(n, i => 0),
          false, false, [])
  }

  function After(i: nat, n: nat): nat
    requires n >= 1
  {
    if i + 1 == n then 0 else i + 1
  }

  function Signal(a: seq<nat>, i: nat): seq<nat>
    requires i < |a|
  {
    a[i := a[i] + 1]
  }

  function Take(a: seq<nat>, i: nat): seq<nat>
    requires i < |a| && a[i] > 0
  {
    a[i := a[i] - 1]
  }

  /** Can the thread make this step now? A wait needs a signal. */
  predicate Enabled<B, C>(s: State<B, C>, n: nat, a: Step<B>)
    requires Sized(s, n)
  {
    match a
    case Write(_) => s.producer == Writing
    case HandOver => s.producer == Writing
    case TakeSlot => s.producer == Waiting && s.emptyBuffer[s.slot] > 0
    case StopCompressor => s.producer == Writing
    case StopDumper => s.producer == ClosingOne
    case HandLast => s.producer == ClosingTwo
    case CheckCompressor => s.compressor == CheckC
    case TakeFilled => s.compressor == WaitFilled && s.filledBuffer[s.compSlot] > 0
    case TakeEmpty => s.compressor == WaitEmpty && s.emptyCompressed[s.compSlot] > 0
    case Compress => s.compressor == Compressing
    case GiveFilled => s.compressor == SignalFilled
    case GiveEmpty => s.compressor == SignalEmpty
    case CheckDumper => s.dumper == CheckD
    case TakeCompressed => s.dumper == WaitCompressed && s.filledCompressed[s.dumpSlot] > 0
    case Dump => s.dumper == Dumping
    case GiveDumped => s.dumper == SignalDumped
  }

  function Next<B, C>(z: B -> C, s: State<B, C>, n: nat, a: Step<B>): (s': State<B, C>)
    requires Sized(s, n) && Enabled(s, n, a)
    ensures Sized(s', n)
  {
    match a
    case Write(block) => s.(buffer := s.buffer[s.slot := block])
    case HandOver =>
      s.(producer := Waiting, handed := s.handed + [s.buffer[s.slot]],
         filledBuffer := Signal(s.filledBuffer, s.slot), slot := After(s.slot, n))
    case TakeSlot => s.(producer := Writing, emptyBuffer := Take(s.emptyBuffer, s.slot))
    case StopCompressor => s.(producer := ClosingOne, compressDone := true)
    case StopDumper => s.(producer := ClosingTwo, dumpDone := true)
    case HandLast =>
      s.(producer := Joining, handed := s.handed + [s.buffer[s.slot]], filledBuffer := Signal(s.filledBuffer, s.slot))
    case CheckCompressor => s.(compressor := if s.compressDone then EndedC else WaitFilled)
    case TakeFilled => s.(compressor := WaitEmpty, filledBuffer := Take(s.filledBuffer, s.compSlot))
    case TakeEmpty => s.(compressor := Compressing, emptyCompressed := Take(s.emptyCompressed, s.compSlot))
    case Compress =>
      s.(compressor := SignalFilled, compressed := s.compressed[s.compSlot := z(s.buffer[s.compSlot])])
    case GiveFilled => s.(compressor := SignalEmpty, filledCompressed := Signal(s.filledCompressed, s.compSlot))
    case GiveEmpty =>
      s.(compressor := CheckC, emptyBuffer := Signal(s.emptyBuffer, s.compSlot), compSlot := After(s.compSlot, n))
    case CheckDumper => s.(dumper := if s.dumpDone then EndedD else WaitCompressed)
    case TakeCompressed => s.(dumper := Dumping, filledCompressed := Take(s.filledCompressed, s.dumpSlot))
    case Dump => s.(dumper := SignalDumped, file := s.file + [s.compressed[s.dumpSlot]])
    case GiveDumped =>
      s.(dumper := CheckD, emptyCompressed := Signal(s.emptyCompressed, s.dumpSlot), dumpSlot := After(s.dumpSlot, n))
  }

  // -------------------------------------------------- slots and block numbers

  /** The slot of block number k: the slots are used in turn. */
  function SlotOf(k: nat, n: nat): (i: nat)
    requires n >= 1
    ensures i < n
  {
    if k == 0 then 0 else After(SlotOf(k - 1, n), n)
  }

  /** Some block number of lo..hi uses slot i. */
  ghost predicate Uses(i: nat, lo: nat, hi: nat, n: nat)
    requires n >= 1
  {
    exists k: nat :: lo <= k < hi && SlotOf(k, n) == i
  }

  lemma {:induction false} SlotAhead(j: nat, d: nat, n: nat)
    requires n >= 1 && d < n
    ensures SlotOf(j + d, n) == if SlotOf(j, n) + d < n then SlotOf(j, n) + d else SlotOf(j, n) + d - n
  {
    if d > 0 { SlotAhead(j, d - 1, n); }
  }

  lemma {:induction false} SameSlot(j: nat, k: nat, n: nat)
    requires n >= 1 && j <= k < j + n && SlotOf(j, n) == SlotOf(k, n)
    ensures j == k
  {
    SlotAhead(j, k - j, n);
  }

  /** Taking the first block of a stretch frees exactly its slot. */
  lemma {:induction false} UsesRest(lo: nat, hi: nat, n: nat)
    requires n >= 1 && lo < hi <= lo + n
    ensures forall i: nat :: Uses(i, lo + 1, hi, n) <==> Uses(i, lo, hi, n) && i != SlotOf(lo, n)
    ensures Uses(SlotOf(lo, n), lo, hi, n)
  {
    hide SlotOf;
    forall i: nat ensures Uses(i, lo + 1, hi, n) <==> Uses(i, lo, hi, n) && i != SlotOf(lo, n) {
      if Uses(i, lo + 1, hi, n) {
        var k: nat :| lo + 1 <= k < hi && SlotOf(k, n) == i;
        if i == SlotOf(lo, n) { SameSlot(lo, k, n); }
      }
      if Uses(i, lo, hi, n) && i != SlotOf(lo, n) { var k: nat :| lo <= k < hi && SlotOf(k, n) == i; }
    }
  }

  lemma {:induction false} UsesMore(lo: nat, hi: nat, n: nat)
    requires n >= 1 && lo <= hi < lo + n
    ensures forall i: nat :: Uses(i, lo, hi + 1, n) <==> Uses(i, lo, hi, n) || i == SlotOf(hi, n)
    ensures !Uses(SlotOf(hi, n), lo, hi, n)
  {
    hide SlotOf;
    forall i: nat ensures Uses(i, lo, hi + 1, n) <==> Uses(i, lo, hi, n) || i == SlotOf(hi, n) {
      if Uses(i, lo, hi + 1, n) { var k: nat :| lo <= k < hi + 1 && SlotOf(k, n) == i; }
      if Uses(i, lo, hi, n) { var k: nat :| lo <= k < hi && SlotOf(k, n) == i; }
    }
    if Uses(SlotOf(hi, n), lo, hi, n) {
      var k: nat :| lo <= k < hi && SlotOf(k, n) == SlotOf(hi, n);
      SameSlot(k, hi, n);
    }
  }

  // ----------------------------------------------------------- the invariant

  /** How far each thread has come, in blocks. */
  datatype Marks = Marks(
    given: nat,        // handed over
    owned: nat,        // handed over or being written
    taken: nat,        // taken by the compressor
    claimed: nat,      // slots for compressed blocks taken by the compressor
    packed: nat,       // compressed
    offered: nat,      // ... and signalled
    freed: nat,        // buffers given back
    fetched: nat,      // taken by the dumper
    dumped: nat,       // written to the file
    cleared: nat)      // slots for compressed blocks given back

  ghost predicate InIteration(c: Compressor) { c !in {CheckC, EndedC} }

  /** The marks of a state, given how many rounds the two workers have finished. */
  ghost function MarksOf<B, C>(s: State<B, C>, freed: nat, cleared: nat): Marks {
    Marks(|s.handed|, |s.handed| + (if s.producer in {Waiting, Joining} then 0 else 1),
          freed + (if s.compressor in {WaitEmpty, Compressing, SignalFilled, SignalEmpty} then 1 else 0),
          freed + (if s.compressor in {Compressing, SignalFilled, SignalEmpty} then 1 else 0),
          freed + (if s.compressor in {SignalFilled, SignalEmpty} then 1 else 0),
          freed + (if s.compressor == SignalEmpty then 1 else 0),
          freed,
          cleared + (if s.dumper in {Dumping, SignalDumped} then 1 else 0),
          cleared + (if s.dumper == SignalDumped then 1 else 0),
          cleared)
  }

  /** A semaphore array that is up exactly for the slots of lo..hi. */
  ghost predicate Up(a: seq<nat>, lo: nat, hi: nat, n: nat)
    requires n >= 1
  {
    |a| == n && forall i: nat :: i < n ==> a[i] == if Uses(i, lo, hi, n) then 1 else 0
  }

  ghost predicate InStep<B, C>(s: State<B, C>, m: Marks, n: nat)
    requires Sized(s, n)
  {
    && (s.producer != Joining ==> s.slot == SlotOf(m.given, n))
    && s.compSlot == SlotOf(m.freed, n) && s.dumpSlot == SlotOf(m.cleared, n)
    && m.freed <= m.taken <= m.given <= m.owned <= m.freed + n
    && m.cleared <= m.fetched <= m.offered && m.claimed <= m.cleared + n
    && |s.file| == m.dumped
  }

  ghost predicate Counted<B, C>(s: State<B, C>, m: Marks, n: nat)
    requires Sized(s, n)
  {
    && Up(s.emptyBuffer, m.owned, m.freed + n, n) && Up(s.filledBuffer, m.taken, m.given, n)
    && Up(s.emptyCompressed, m.claimed, m.cleared + n, n) && Up(s.filledCompressed, m.fetched, m.offered, n)
  }

  ghost predicate Filled<B, C>(z: B -> C, s: State<B, C>, m: Marks, n: nat)
    requires Sized(s, n)
  {
    && (forall k: nat :: m.freed <= k < |s.handed| ==> s.buffer[SlotOf(k, n)] == s.handed[k])
    && (forall k: nat :: m.cleared <= k < m.packed && k < |s.handed| ==> s.compressed[SlotOf(k, n)] == z(s.handed[k]))
    && (forall k: nat :: k < |s.file| && k < |s.handed| ==> s.file[k] == z(s.handed[k]))
  }

  ghost predicate Inv<B, C>(z: B -> C, s: State<B, C>, m: Marks, n: nat) {
    Sized(s, n) && m == MarksOf(s, m.freed, m.cleared) && InStep(s, m, n) && Counted(s, m, n) && Filled(z, s, m, n)
  }

  lemma {:induction false} SlotAround(k: nat, n: nat)
    requires n >= 1
    ensures SlotOf(k + n, n) == SlotOf(k, n)
  {
    SlotAhead(k, n - 1, n);
    assert SlotOf(k + n, n) == After(SlotOf(k + (n - 1), n), n);
  }

  lemma {:induction false} UpTake(a: seq<nat>, lo: nat, hi: nat, n: nat)
    requires n >= 1 && Up(a, lo, hi, n) && lo <= hi <= lo + n && a[SlotOf(lo, n)] > 0
    ensures lo < hi && Up(Take(a, SlotOf(lo, n)), lo + 1, hi, n)
  {
    hide Uses, SlotOf;
    SomeUses(lo, hi, n);
    UsesRest(lo, hi, n);
  }

  lemma {:induction false} SomeUses(lo: nat, hi: nat, n: nat)
    requires n >= 1
    ensures Uses(SlotOf(lo, n), lo, hi, n) ==> lo < hi
  {
  }

  lemma {:induction false} UpSignal(a: seq<nat>, lo: nat, hi: nat, n: nat)
    requires n >= 1 && Up(a, lo, hi, n) && lo <= hi < lo + n
    ensures Up(Signal(a, SlotOf(hi, n)), lo, hi + 1, n)
  {
    hide Uses, SlotOf;
    UsesMore(lo, hi, n);
  }

  /** A semaphore is up if the next block has come. */
  lemma {:induction false} UpReady(a: seq<nat>, lo: nat, hi: nat, n: nat)
    requires n >= 1 && Up(a, lo, hi, n) && lo < hi <= lo + n
    ensures a[SlotOf(lo, n)] == 1
  {
    UsesRest(lo, hi, n);
  }

  function Freed<B>(m: Marks, a: Step<B>): nat { if a.GiveEmpty? then m.freed + 1 else m.freed }

  function Cleared<B>(m: Marks, a: Step<B>): nat { if a.GiveDumped? then m.cleared + 1 else m.cleared }

  lemma {:induction false} ProducerCounted<B, C>(z: B -> C, s: State<B, C>, m: Marks, n: nat, a: Step<B>)
    requires Inv(z, s, m, n) && Enabled(s, n, a)
    requires a.Write? || a.HandOver? || a.TakeSlot? || a.StopCompressor? || a.StopDumper? || a.HandLast?
    ensures var s' := Next(z, s, n, a);
            var m' := MarksOf(s', m.freed, m.cleared);
            InStep(s', m', n) && Counted(s', m', n)
  {
    hide Up, SlotOf, Filled;
    if a.HandOver? || a.HandLast? {
      UpSignal(s.filledBuffer, m.taken, m.given, n);
      NextSlot(m.given, n);
    }
    if a.TakeSlot? { UpTake(s.emptyBuffer, m.owned, m.freed + n, n); }
  }

  lemma {:induction false} NextSlot(k: nat, n: nat)
    requires n >= 1
    ensures SlotOf(k + 1, n) == After(SlotOf(k, n), n)
  {
  }

  lemma {:induction false} CompressorTakes<B, C>(z: B -> C, s: State<B, C>, m: Marks, n: nat, a: Step<B>)
    requires Inv(z, s, m, n) && Enabled(s, n, a)
    requires a.CheckCompressor? || a.TakeFilled? || a.TakeEmpty? || a.Compress?
    ensures var s' := Next(z, s, n, a);
            var m' := MarksOf(s', m.freed, m.cleared);
            InStep(s', m', n) && Counted(s', m', n)
  {
    hide Up, SlotOf, Filled;
    if a.TakeFilled? { UpTake(s.filledBuffer, m.taken, m.given, n); }
    if a.TakeEmpty? { UpTake(s.emptyCompressed, m.claimed, m.cleared + n, n); }
  }

  lemma {:induction false} CompressorGives<B, C>(z: B -> C, s: State<B, C>, m: Marks, n: nat, a: Step<B>)
    requires Inv(z, s, m, n) && Enabled(s, n, a)
    requires a.GiveFilled? || a.GiveEmpty?
    ensures var s' := Next(z, s, n, a);
            var m' := MarksOf(s', Freed(m, a), m.cleared);
            InStep(s', m', n) && Counted(s', m', n)
  {
    hide Up, SlotOf, Filled;
    if a.GiveFilled? {
      UpSignal(s.filledCompressed, m.fetched, m.offered, n);
    } else {
      SlotAround(m.freed, n);
      UpSignal(s.emptyBuffer, m.owned, m.freed + n, n);
      NextSlot(m.freed, n);
    }
  }

  lemma {:induction false} DumperCounted<B, C>(z: B -> C, s: State<B, C>, m: Marks, n: nat, a: Step<B>)
    requires Inv(z, s, m, n) && Enabled(s, n, a)
    requires a.CheckDumper? || a.TakeCompressed? || a.Dump? || a.GiveDumped?
    ensures var s' := Next(z, s, n, a);
            var m' := MarksOf(s', m.freed, Cleared(m, a));
            InStep(s', m', n) && Counted(s', m', n)
  {
    hide Up, SlotOf, Filled;
    if a.TakeCompressed? { UpTake(s.filledCompressed, m.fetched, m.offered, n); }
    if a.GiveDumped? {
      SlotAround(m.cleared, n);
      UpSignal(s.emptyCompressed, m.claimed, m.cleared + n, n);
      NextSlot(m.cleared, n);
    }
  }

  lemma {:induction false} WriteFilled<B, C>(z: B -> C, s: State<B, C>, m: Marks, n: nat, a: Step<B>)
    requires Inv(z, s, m, n) && Enabled(s, n, a) && a.Write?
    ensures Filled(z, Next(z, s, n, a), m, n)
  {
    hide Up, Counted, SlotOf;
    forall k: nat | m.freed <= k < |s.handed| ensures SlotOf(k, n) != s.slot {
      if SlotOf(k, n) == s.slot { SameSlot(k, m.given, n); }
    }
  }

  lemma {:induction false} HandFilled<B, C>(z: B -> C, s: State<B, C>, m: Marks, n: nat, a: Step<B>)
    requires Inv(z, s, m, n) && Enabled(s, n, a) && (a.HandOver? || a.HandLast?)
    ensures var s' := Next(z, s, n, a); Filled(z, s', MarksOf(s', m.freed, m.cleared), n)
  {
    hide Up, Counted, SlotOf;
  }

  lemma {:induction false} CompressFilled<B, C>(z: B -> C, s: State<B, C>, m: Marks, n: nat, a: Step<B>)
    requires Inv(z, s, m, n) && Enabled(s, n, a) && a.Compress?
    ensures var s' := Next(z, s, n, a); Filled(z, s', MarksOf(s', m.freed, m.cleared), n)
  {
    hide Up, Counted, SlotOf;
    forall k: nat | m.cleared <= k < m.freed ensures SlotOf(k, n) != s.compSlot {
      if SlotOf(k, n) == s.compSlot { SameSlot(k, m.freed, n); }
    }
  }

  lemma {:induction false} DumpFilled<B, C>(z: B -> C, s: State<B, C>, m: Marks, n: nat, a: Step<B>)
    requires Inv(z, s, m, n) && Enabled(s, n, a) && a.Dump?
    ensures var s' := Next(z, s, n, a); Filled(z, s', MarksOf(s', m.freed, m.cleared), n)
  {
    hide Up, Counted, SlotOf;
  }

  /** No step but these touches a block. */
  lemma {:induction false} OtherFields<B, C>(z: B -> C, s: State<B, C>, m: Marks, n: nat, a: Step<B>)
    requires Sized(s, n) && m == MarksOf(s, m.freed, m.cleared) && Enabled(s, n, a)
    requires !a.Write? && !a.HandOver? && !a.HandLast? && !a.Compress? && !a.Dump?
    ensures var s' := Next(z, s, n, a);
            var m' := MarksOf(s', Freed(m, a), Cleared(m, a));
            && s'.buffer == s.buffer && s'.compressed == s.compressed && s'.handed == s.handed && s'.file == s.file
            && m.freed <= m'.freed && m.cleared <= m'.cleared && m'.packed == m.packed
  {
  }

  lemma {:induction false} OtherFilled<B, C>(z: B -> C, s: State<B, C>, m: Marks, n: nat, a: Step<B>)
    requires Inv(z, s, m, n) && Enabled(s, n, a)
    requires !a.Write? && !a.HandOver? && !a.HandLast? && !a.Compress? && !a.Dump?
    ensures var s' := Next(z, s, n, a);
            Sized(s', n) && Filled(z, s', MarksOf(s', Freed(m, a), Cleared(m, a)), n)
  {
    hide Up, Counted, SlotOf, InStep, Enabled, MarksOf, Next;
    OtherFields(z, s, m, n, a);
  }

  lemma {:induction false} StepFilled<B, C>(z: B -> C, s: State<B, C>, m: Marks, n: nat, a: Step<B>)
    requires Inv(z, s, m, n) && Enabled(s, n, a)
    ensures var s' := Next(z, s, n, a); Filled(z, s', MarksOf(s', Freed(m, a), Cleared(m, a)), n)
  {
    hide Filled, InStep, Counted;
    if a.Write? {
      WriteFilled(z, s, m, n, a);
    } else if a.HandOver? || a.HandLast? {
      HandFilled(z, s, m, n, a);
    } else if a.Compress? {
      CompressFilled(z, s, m, n, a);
    } else if a.Dump? {
      DumpFilled(z, s, m, n, a);
    } else {
      OtherFilled(z, s, m, n, a);
    }
  }

  /** Every step of every thread keeps the invariant. */
  lemma {:induction false} StepKeeps<B, C>(z: B -> C, s: State<B, C>, m: Marks, n: nat, a: Step<B>)
    requires Inv(z, s, m, n) && Enabled(s, n, a)
    ensures var s' := Next(z, s, n, a); Inv(z, s', MarksOf(s', Freed(m, a), Cleared(m, a)), n)
  {
    hide Counted, InStep, Filled, SlotOf;
    StepFilled(z, s, m, n, a);
    if a.CheckCompressor? || a.TakeFilled? || a.TakeEmpty? || a.Compress? {
      CompressorTakes(z, s, m, n, a);
    } else if a.GiveFilled? || a.GiveEmpty? {
      CompressorGives(z, s, m, n, a);
    } else if a.CheckDumper? || a.TakeCompressed? || a.Dump? || a.GiveDumped? {
      DumperCounted(z, s, m, n, a);
    } else {
      ProducerCounted(z, s, m, n, a);
    }
  }

  // -------------------------------------------------------------------- runs

  /** Where a run leads; None if one of its steps cannot be made. */
  ghost function Run<B, C>(z: B -> C, s: State<B, C>, n: nat, run: seq<Step<B>>): (r: Option<State<B, C>>)
    requires Sized(s, n)
    ensures r.Some? ==> Sized(r.value, n)
  {
    if run == [] then Some(s)
    else
      match Run(z, s, n, run[..|run| - 1])
      case None => None
      case Some(s1) =>
        if Enabled(s1, n, run[|run| - 1]) then Some(Next(z, s1, n, run[|run| - 1])) else None
  }

  lemma {:induction false} StartInv<B, C>(z: B -> C, n: nat, buffer: seq<B>, compressed: seq<C>)
    requires n >= 1 && |buffer| == |compressed| == n
    ensures var s := Start<B, C>(n, buffer, compressed); Inv(z, s, MarksOf(s, 0, 0), n)
  {
    forall i: nat | i < n ensures Uses(i, 1, n, n) <==> i != 0 {
      if i != 0 { SlotAhead(0, i, n); assert SlotOf(i, n) == i; }
      if Uses(i, 1, n, n) {
        var k: nat :| 1 <= k < n && SlotOf(k, n) == i;
        SlotAhead(0, k, n);
      }
    }
    forall i: nat | i < n ensures Uses(i, 0, n, n) {
      SlotAhead(0, i, n);
      assert SlotOf(i, n) == i;
    }
  }

  lemma {:induction false} RunKeeps<B, C>(z: B -> C, s: State<B, C>, m: Marks, n: nat, run: seq<Step<B>>)
    returns (m': Marks)
    requires Inv(z, s, m, n) && Run(z, s, n, run).Some?
    ensures Inv(z, Run(z, s, n, run).value, m', n)
    decreases |run|
  {
    hide Next, Enabled, InStep, Counted, Filled;
    m' := m;
    if run != [] {
      var a := run[|run| - 1];
      m' := RunKeeps(z, s, m, n, run[..|run| - 1]);
      var s1 := Run(z, s, n, run[..|run| - 1]).value;
      StepKeeps(z, s1, m', n, a);
      m' := MarksOf(Next(z, s1, n, a), Freed(m', a), Cleared(m', a));
    }
  }

  // ------------------------------------------------------------------ safety

  ghost predicate ProducerHolds<B, C>(s: State<B, C>, i: nat) { s.producer !in {Waiting, Joining} && s.slot == i }

  ghost predicate CompressorReads<B, C>(s: State<B, C>, i: nat) {
    s.compressor in {WaitEmpty, Compressing, SignalFilled, SignalEmpty} && s.compSlot == i
  }

  ghost predicate CompressorFills<B, C>(s: State<B, C>, i: nat) {
    s.compressor in {Compressing, SignalFilled} && s.compSlot == i
  }

  ghost predicate DumperReads<B, C>(s: State<B, C>, i: nat) { s.dumper in {Dumping, SignalDumped} && s.dumpSlot == i }

  function Bit(b: bool): nat { if b then 1 else 0 }

  lemma {:induction false} EverySlot(i: nat, lo: nat, n: nat)
    requires n >= 1 && i < n
    ensures Uses(i, lo, lo + n, n)
  {
    var d: nat := if i >= SlotOf(lo, n) then i - SlotOf(lo, n) else i + n - SlotOf(lo, n);
    SlotAhead(lo, d, n);
    assert SlotOf(lo + d, n) == i;
  }

  /** Of four stretches that make up n blocks in a row, one uses slot i. */
  lemma {:induction false} OneOfFour(i: nat, lo: nat, a: nat, b: nat, c: nat, n: nat)
    requires n >= 1 && i < n && lo <= a <= b <= c <= lo + n
    ensures Bit(Uses(i, lo, a, n)) + Bit(Uses(i, a, b, n)) + Bit(Uses(i, b, c, n)) + Bit(Uses(i, c, lo + n, n)) == 1
  {
    hide SlotOf;
    EverySlot(i, lo, n);
    var k: nat :| lo <= k < lo + n && SlotOf(k, n) == i;
    forall l: nat, h: nat | lo <= l <= h <= lo + n ensures Uses(i, l, h, n) <==> l <= k < h {
      if Uses(i, l, h, n) {
        var k': nat :| l <= k' < h && SlotOf(k', n) == i;
        if k <= k' { SameSlot(k, k', n); } else { SameSlot(k', k, n); }
      }
    }
  }

  lemma {:induction false} UsesOne(i: nat, k: nat, n: nat)
    requires n >= 1
    ensures Uses(i, k, k + 1, n) <==> i == SlotOf(k, n)
    ensures !Uses(i, k, k, n)
  {
    assert SlotOf(k, n) == i ==> k <= k < k + 1;
  }

  /** Nothing is lost, doubled or overtaken: each slot of either kind is free,
      full or held by one thread, and never two of these; the file is a prefix of
      the blocks handed over, in their order. */
  ghost predicate Safe<B, C>(z: B -> C, s: State<B, C>, n: nat)
    requires Sized(s, n)
  {
    && (forall i: nat :: i < n ==> SlotSafe(s, i, n))
    && |s.file| <= |s.handed| && forall k: nat :: k < |s.file| ==> s.file[k] == z(s.handed[k])
  }

  ghost predicate SlotSafe<B, C>(s: State<B, C>, i: nat, n: nat)
    requires Sized(s, n) && i < n
  {
    && s.emptyBuffer[i] + s.filledBuffer[i] + Bit(ProducerHolds(s, i)) + Bit(CompressorReads(s, i)) == 1
    && s.emptyCompressed[i] + s.filledCompressed[i] + Bit(CompressorFills(s, i)) + Bit(DumperReads(s, i)) == 1
  }

  lemma {:induction false} InvSafe<B, C>(z: B -> C, s: State<B, C>, m: Marks, n: nat)
    requires Inv(z, s, m, n)
    ensures Safe(z, s, n)
  {
    hide Uses, SlotOf;
    forall i: nat | i < n ensures SlotSafe(s, i, n) {
      OneOfFour(i, m.freed, m.taken, m.given, m.owned, n);
      OneOfFour(i, m.cleared, m.fetched, m.offered, m.claimed, n);
      UsesOne(i, m.freed, n);
      UsesOne(i, m.given, n);
      UsesOne(i, m.cleared, n);
      UsesOne(i, m.offered, n);
    }
  }

  /** Safety over every run, with any number of slots. */
  lemma {:induction false} RunSafe<B, C>(z: B -> C, n: nat, buffer: seq<B>, compressed: seq<C>, run: seq<Step<B>>)
    requires n >= 1 && |buffer| == |compressed| == n
    requires Run(z, Start<B, C>(n, buffer, compressed), n, run).Some?
    ensures Safe(z, Run(z, Start<B, C>(n, buffer, compressed), n, run).value, n)
  {
    hide Inv, Safe, Run, Start;
    StartInv(z, n, buffer, compressed);
    var s := Start<B, C>(n, buffer, compressed);
    var m := RunKeeps(z, s, MarksOf(s, 0, 0), n, run);
    InvSafe(z, Run(z, s, n, run).value, m, n);
  }

  // ---------------------------------------------------------------- progress

  ghost predicate CompressorCan<B, C>(s: State<B, C>, n: nat)
    requires Sized(s, n)
  {
    || Enabled(s, n, Step<B>.CheckCompressor) || Enabled(s, n, Step<B>.TakeFilled) || Enabled(s, n, Step<B>.TakeEmpty)
    || Enabled(s, n, Step<B>.Compress) || Enabled(s, n, Step<B>.GiveFilled) || Enabled(s, n, Step<B>.GiveEmpty)
  }

  ghost predicate DumperCan<B, C>(s: State<B, C>, n: nat)
    requires Sized(s, n)
  {
    || Enabled(s, n, Step<B>.CheckDumper) || Enabled(s, n, Step<B>.TakeCompressed)
    || Enabled(s, n, Step<B>.Dump) || Enabled(s, n, Step<B>.GiveDumped)
  }

  ghost predicate Open<B, C>(s: State<B, C>) {
    s.producer in {Writing, Waiting} && s.compressor != EndedC && s.dumper != EndedD
  }

  /** Before shutdown a blocked thread always waits for one that can go on, and
      the workers rest only when everything handed over is in the file. */
  lemma {:induction false} NoDeadlock<B, C>(z: B -> C, s: State<B, C>, m: Marks, n: nat)
    requires Inv(z, s, m, n) && Open(s)
    ensures s.producer == Waiting && s.emptyBuffer[s.slot] == 0 ==> CompressorCan(s, n) || DumperCan(s, n)
    ensures s.compressor == WaitEmpty && s.emptyCompressed[s.compSlot] == 0 ==> DumperCan(s, n)
    ensures !CompressorCan(s, n) && !DumperCan(s, n) ==> |s.file| == |s.handed|
  {
    hide Uses, SlotOf, Filled, Counted, Up;
    WaitsReady(z, s, m, n);
  }

  /** A wait is over as soon as its block has come. */
  lemma {:induction false} WaitsReady<B, C>(z: B -> C, s: State<B, C>, m: Marks, n: nat)
    requires Inv(z, s, m, n)
    ensures s.producer == Waiting && m.owned < m.freed + n ==> s.emptyBuffer[s.slot] > 0
    ensures s.compressor == WaitFilled && m.taken < m.given ==> s.filledBuffer[s.compSlot] > 0
    ensures s.compressor == WaitEmpty && m.claimed < m.cleared + n ==> s.emptyCompressed[s.compSlot] > 0
    ensures s.dumper == WaitCompressed && m.fetched < m.offered ==> s.filledCompressed[s.dumpSlot] > 0
  {
    hide Uses, SlotOf, Filled, Up;
    if m.owned < m.freed + n { UpReady(s.emptyBuffer, m.owned, m.freed + n, n); }
    if m.taken < m.given { UpReady(s.filledBuffer, m.taken, m.given, n); }
    if m.claimed < m.cleared + n { UpReady(s.emptyCompressed, m.claimed, m.cleared + n, n); }
    if m.fetched < m.offered { UpReady(s.filledCompressed, m.fetched, m.offered, n); }
  }

  function StageC(c: Compressor): int {
    match c
    case CheckC => 0
    case WaitFilled => 1
    case WaitEmpty => 2
    case Compressing => 3
    case SignalFilled => 4
    case SignalEmpty => 5
    case EndedC => 1
  }

  function StageD(d: Dumper): int {
    match d
    case CheckD => 0
    case WaitCompressed => 1
    case Dumping => 2
    case SignalDumped => 3
    case EndedD => 1
  }

  /** The steps the workers can still make before they need the producer. */
  function Work<B, C>(s: State<B, C>, m: Marks): int {
    (6 * (m.given - m.freed) - StageC(s.compressor) + 1) + (4 * (m.given - m.cleared) - StageD(s.dumper) + 1)
  }

  predicate ByWorker<B>(a: Step<B>) {
    !a.Write? && !a.HandOver? && !a.TakeSlot? && !a.StopCompressor? && !a.StopDumper? && !a.HandLast?
  }

  /** Left alone, the workers come to rest. */
  lemma {:induction false} WorkersRest<B, C>(z: B -> C, s: State<B, C>, m: Marks, n: nat, a: Step<B>)
    requires Inv(z, s, m, n) && Enabled(s, n, a) && ByWorker(a)
    ensures var s' := Next(z, s, n, a); Work(s', MarksOf(s', Freed(m, a), Cleared(m, a))) == Work(s, m) - 1
    ensures Work(s, m) >= 1
  {
    hide Counted, Filled, SlotOf, Up;
    WorkLeft(z, s, m, n);
    StepKeeps(z, s, m, n, a);
    var s' := Next(z, s, n, a);
    WorkLeft(z, s', MarksOf(s', Freed(m, a), Cleared(m, a)), n);
  }

  lemma {:induction false} WorkLeft<B, C>(z: B -> C, s: State<B, C>, m: Marks, n: nat)
    requires Inv(z, s, m, n)
    ensures Work(s, m) >= 0
  {
    hide Counted, Filled, SlotOf, Up;
  }

  // ---------------------------------------------------------------- shutdown

  /** Both workers wait for the block being written, with nothing left behind. */
  ghost predicate CaughtUp<B, C>(s: State<B, C>) {
    s.compressor == WaitFilled && s.dumper == WaitCompressed && |s.file| == |s.handed|
  }

  /** After both flags are set. */
  ghost predicate Closing<B, C>(s: State<B, C>) { s.compressDone && s.dumpDone && s.producer in {ClosingTwo, Joining} }

  /** The number of blocks the workers can still reach once the flags are set. */
  ghost function LimitC<B, C>(s: State<B, C>, m: Marks): nat { m.freed + Bit(InIteration(s.compressor)) }

  ghost function LimitD<B, C>(s: State<B, C>, m: Marks): nat { m.cleared + Bit(s.dumper !in {CheckD, EndedD}) }

  ghost function Total<B, C>(s: State<B, C>): nat { |s.handed| + if s.producer == Joining then 0 else 1 }

  lemma {:induction false} ClosingStep<B, C>(z: B -> C, s: State<B, C>, m: Marks, n: nat, a: Step<B>)
    requires Inv(z, s, m, n) && Enabled(s, n, a) && Closing(s)
    ensures var s' := Next(z, s, n, a);
            var m' := MarksOf(s', Freed(m, a), Cleared(m, a));
            Closing(s') && LimitC(s', m') == LimitC(s, m) && LimitD(s', m') == LimitD(s, m) && Total(s') == Total(s)
  {
    hide InStep, Counted, Filled;
  }

  lemma {:induction false} ClosingRun<B, C>(z: B -> C, s: State<B, C>, m: Marks, n: nat, run: seq<Step<B>>)
    returns (m': Marks)
    requires Inv(z, s, m, n) && Closing(s) && Run(z, s, n, run).Some?
    ensures var s' := Run(z, s, n, run).value;
            && Inv(z, s', m', n) && Closing(s')
            && LimitC(s', m') == LimitC(s, m) && LimitD(s', m') == LimitD(s, m) && Total(s') == Total(s)
    decreases |run|
  {
    hide Next, Enabled, InStep, Counted, Filled, Closing, LimitC, LimitD, Total;
    m' := m;
    if run != [] {
      var a := run[|run| - 1];
      m' := ClosingRun(z, s, m, n, run[..|run| - 1]);
      var s1 := Run(z, s, n, run[..|run| - 1]).value;
      ClosingStep(z, s1, m', n, a);
      StepKeeps(z, s1, m', n, a);
      m' := MarksOf(Next(z, s1, n, a), Freed(m', a), Cleared(m', a));
    }
  }

  ghost predicate Stuck<B, C>(s: State<B, C>, n: nat)
    requires Sized(s, n)
  {
    s.producer == Joining && !CompressorCan(s, n) && !DumperCan(s, n)
  }

  /** A shutdown that finds the workers caught up ends with both of them
      finished and every block in the file. */
  lemma {:induction false} ClosesComplete<B, C>(z: B -> C, s: State<B, C>, m: Marks, n: nat, run: seq<Step<B>>)
    requires Inv(z, s, m, n) && s.producer == ClosingTwo && Closing(s) && CaughtUp(s)
    requires Run(z, s, n, run).Some? && Stuck(Run(z, s, n, run).value, n)
    ensures var s' := Run(z, s, n, run).value;
            s'.compressor == EndedC && s'.dumper == EndedD && |s'.file| == |s'.handed| == |s.handed| + 1
  {
    hide Uses, SlotOf, Filled, Run, Counted, Up;
    var m' := ClosingRun(z, s, m, n, run);
    WaitsReady(z, Run(z, s, n, run).value, m', n);
  }

  /** A shutdown leaves the compressor waiting if and only if it still has more than
      n blocks to take beyond those the dumper will, and the dumper waiting if and
      only if it still is to take a block that the compressor will not. */
  lemma {:induction false} ShutdownLeaves<B, C>(z: B -> C, s: State<B, C>, m: Marks, n: nat, run: seq<Step<B>>)
    requires Inv(z, s, m, n) && s.producer == ClosingTwo && Closing(s)
    requires Run(z, s, n, run).Some? && Stuck(Run(z, s, n, run).value, n)
    ensures var s' := Run(z, s, n, run).value;
            && (s'.compressor != EndedC <==> LimitC(s, m) > LimitD(s, m) + n)
            && (s'.dumper != EndedD <==> LimitD(s, m) > LimitC(s, m))
            && (s'.compressor != EndedC ==> s'.compressor == WaitEmpty)
            && (s'.dumper != EndedD ==> s'.dumper == WaitCompressed)
  {
    hide Uses, SlotOf, Filled, Run, Counted, Up;
    var m' := ClosingRun(z, s, m, n, run);
    WaitsReady(z, Run(z, s, n, run).value, m', n);
  }

  /** Any other shutdown loses a block, however it goes on. */
  lemma {:induction false} ClosesIncomplete<B, C>(z: B -> C, s: State<B, C>, m: Marks, n: nat, run: seq<Step<B>>)
    requires Inv(z, s, m, n) && s.producer == ClosingTwo && Closing(s) && !CaughtUp(s)
    requires Run(z, s, n, run).Some?
    ensures |Run(z, s, n, run).value.file| <= |s.handed| < Total(Run(z, s, n, run).value)
  {
    hide Uses, SlotOf, Filled, Run, Counted, Up;
    var m' := ClosingRun(z, s, m, n, run);
  }

  function ClosingWork<B, C>(s: State<B, C>, m: Marks): int {
    Work(s, m) + if s.producer == ClosingTwo then 11 else 0
  }

  /** Each step of a shutdown brings its end nearer. */
  lemma {:induction false} ClosingEnds<B, C>(z: B -> C, s: State<B, C>, m: Marks, n: nat, a: Step<B>)
    requires Inv(z, s, m, n) && Enabled(s, n, a) && Closing(s)
    ensures var s' := Next(z, s, n, a);
            0 <= ClosingWork(s', MarksOf(s', Freed(m, a), Cleared(m, a))) < ClosingWork(s, m)
  {
    hide Counted, Filled, SlotOf, Up;
    StepKeeps(z, s, m, n, a);
    var s' := Next(z, s, n, a);
    WorkLeft(z, s', MarksOf(s', Freed(m, a), Cleared(m, a)), n);
  }

  lemma {:induction false} OneMore<B, C>(z: B -> C, s: State<B, C>, n: nat, run: seq<Step<B>>, a: Step<B>,
                                         s1: State<B, C>)
    requires Sized(s, n) && Run(z, s, n, run) == Some(s1) && Enabled(s1, n, a)
    ensures Run(z, s, n, run + [a]) == Some(Next(z, s1, n, a))
  {
    assert (run + [a])[..|run|] == run;
  }

  /** The program can hang in its destructor: the dumper waits for a block that the
      compressor, stopped before it began, never delivers. */
  lemma {:induction false} ShutdownHangs<B, C>(z: B -> C, n: nat, buffer: seq<B>, compressed: seq<C>)
    requires n >= 1 && |buffer| == |compressed| == n
    ensures var r := Run(z, Start<B, C>(n, buffer, compressed), n,
                         [CheckDumper, StopCompressor, StopDumper, HandLast, CheckCompressor]);
            r.Some? && Stuck(r.value, n) && r.value.dumper == WaitCompressed && r.value.file == []
  {
    hide Run, Next, Enabled, Start;
    var s0 := Start<B, C>(n, buffer, compressed);
    StartIs(n, buffer, compressed);
    NoSteps(z, s0, n);
    HangNext(z, s0, n);
    OneMore(z, s0, n, [], CheckDumper, s0);
    var s1 := s0.(dumper := WaitCompressed);
    HangNext(z, s1, n);
    OneMore(z, s0, n, [CheckDumper], StopCompressor, s1);
    var s2 := s1.(producer := ClosingOne, compressDone := true);
    HangNext(z, s2, n);
    OneMore(z, s0, n, [CheckDumper, StopCompressor], StopDumper, s2);
    var s3 := s2.(producer := ClosingTwo, dumpDone := true);
    HangNext(z, s3, n);
    OneMore(z, s0, n, [CheckDumper, StopCompressor, StopDumper], HandLast, s3);
    HangEnds(z, s0, s3, n);
  }

  lemma {:induction false} HangEnds<B, C>(z: B -> C, s0: State<B, C>, s3: State<B, C>, n: nat)
    requires Sized(s0, n) && Sized(s3, n) && s3.producer == ClosingTwo && s3.compressDone
    requires s3.compressor == CheckC && s3.dumper == WaitCompressed && s3.filledCompressed[s3.dumpSlot] == 0
             && s3.file == []
    requires Run(z, s0, n, [CheckDumper, StopCompressor, StopDumper]) == Some(s3)
    ensures var r := Run(z, s0, n, [CheckDumper, StopCompressor, StopDumper, HandLast, CheckCompressor]);
            r.Some? && Stuck(r.value, n) && r.value.dumper == WaitCompressed && r.value.file == []
  {
    hide Run;
    OneMore(z, s0, n, [CheckDumper, StopCompressor, StopDumper], HandLast, s3);
    var s4 := Next(z, s3, n, HandLast);
    assert [Step<B>.CheckDumper, StopCompressor, StopDumper] + [HandLast]
           == [CheckDumper, StopCompressor, StopDumper, HandLast];
    OneMore(z, s0, n, [CheckDumper, StopCompressor, StopDumper, HandLast], CheckCompressor, s4);
    assert [Step<B>.CheckDumper, StopCompressor, StopDumper, HandLast] + [CheckCompressor]
           == [CheckDumper, StopCompressor, StopDumper, HandLast, CheckCompressor];
  }

  // The compressor can be left behind as well.

  /** A ring of one slot. */
  function OneSlot<B, C>(p: Producer, h: seq<B>, c: Compressor, d: Dumper, b: B, k: C, eb: nat, fb: nat, ec: nat,
                         fc: nat, stopped: (bool, bool)): (s: State<B, C>)
    ensures Sized(s, 1)
  {
    State(p, 0, h, c, 0, d, 0, [b], [k], [eb], [fb], [ec], [fc], stopped.0, stopped.1, [])
  }

  /** A step in a ring of one slot. */
  lemma {:induction false} OneSlotStep<B, C>(z: B -> C, s0: State<B, C>, run: seq<Step<B>>, p: Producer, h: seq<B>,
                                             c: Compressor, d: Dumper, b: B, k: C, eb: nat, fb: nat, ec: nat, fc: nat,
                                             f: (bool, bool), a: Step<B>)
    requires Sized(s0, 1) && Run(z, s0, 1, run) == Some(OneSlot(p, h, c, d, b, k, eb, fb, ec, fc, f))
    requires Enabled(OneSlot(p, h, c, d, b, k, eb, fb, ec, fc, f), 1, a)
    ensures var r := Run(z, s0, 1, run + [a]);
            && (a.HandOver? ==> r == Some(OneSlot(Waiting, h + [b], c, d, b, k, eb, fb + 1, ec, fc, f)))
            && (a.TakeSlot? ==> r == Some(OneSlot(Writing, h, c, d, b, k, eb - 1, fb, ec, fc, f)))
            && (a.StopCompressor? ==> r == Some(OneSlot(ClosingOne, h, c, d, b, k, eb, fb, ec, fc, (true, f.1))))
            && (a.StopDumper? ==> r == Some(OneSlot(ClosingTwo, h, c, d, b, k, eb, fb, ec, fc, (f.0, true))))
            && (a.HandLast? ==> r == Some(OneSlot(Joining, h + [b], c, d, b, k, eb, fb + 1, ec, fc, f)))
            && (a.CheckCompressor? && !f.0 ==> r == Some(OneSlot(p, h, WaitFilled, d, b, k, eb, fb, ec, fc, f)))
            && (a.TakeFilled? ==> r == Some(OneSlot(p, h, WaitEmpty, d, b, k, eb, fb - 1, ec, fc, f)))
            && (a.TakeEmpty? ==> r == Some(OneSlot(p, h, Compressing, d, b, k, eb, fb, ec - 1, fc, f)))
            && (a.Compress? ==> r == Some(OneSlot(p, h, SignalFilled, d, b, z(b), eb, fb, ec, fc, f)))
            && (a.GiveFilled? ==> r == Some(OneSlot(p, h, SignalEmpty, d, b, k, eb, fb, ec, fc + 1, f)))
            && (a.GiveEmpty? ==> r == Some(OneSlot(p, h, CheckC, d, b, k, eb + 1, fb, ec, fc, f)))
            && (a.CheckDumper? && f.1 ==> r == Some(OneSlot(p, h, c, EndedD, b, k, eb, fb, ec, fc, f)))
  {
    hide Run;
    assert [fb][0 := fb + 1] == [fb + 1] && [fc][0 := fc + 1] == [fc + 1] && [eb][0 := eb + 1] == [eb + 1];
    assert a.TakeFilled? ==> [fb][0 := fb - 1] == [fb - 1];
    assert a.TakeEmpty? ==> [ec][0 := ec - 1] == [ec - 1];
    assert a.TakeSlot? ==> [eb][0 := eb - 1] == [eb - 1];
    assert [k][0 := z(b)] == [z(b)];
    OneMore(z, s0, 1, run, a, OneSlot(p, h, c, d, b, k, eb, fb, ec, fc, f));
  }

  /** When the threads of such a ring can make a step. */
  lemma {:induction false} OneSlotEnabled<B, C>(p: Producer, h: seq<B>, c: Compressor, d: Dumper, b: B, k: C, eb: nat,
                                                fb: nat, ec: nat, fc: nat, f: (bool, bool), a: Step<B>)
    ensures var s := OneSlot(p, h, c, d, b, k, eb, fb, ec, fc, f);
            && (a in {HandOver, StopCompressor} && p == Writing ==> Enabled(s, 1, a))
            && (a == TakeSlot && p == Waiting && eb > 0 ==> Enabled(s, 1, a))
            && (a == StopDumper && p == ClosingOne ==> Enabled(s, 1, a))
            && (a == HandLast && p == ClosingTwo ==> Enabled(s, 1, a))
            && (a == CheckCompressor && c == CheckC ==> Enabled(s, 1, a))
            && (a == TakeFilled && c == WaitFilled && fb > 0 ==> Enabled(s, 1, a))
            && (a == TakeEmpty && c == WaitEmpty && ec > 0 ==> Enabled(s, 1, a))
            && (a == Compress && c == Compressing ==> Enabled(s, 1, a))
            && (a == GiveFilled && c == SignalFilled ==> Enabled(s, 1, a))
            && (a == GiveEmpty && c == SignalEmpty ==> Enabled(s, 1, a))
            && (a == CheckDumper && d == CheckD ==> Enabled(s, 1, a))
  {
  }

  /** The first block is taken and compressed ... */
  lemma {:induction false} FirstTaken<B, C>(z: B -> C, s0: State<B, C>, b: B, k: C) returns (r: seq<Step<B>>)
    requires s0 == OneSlot(Writing, [], CheckC, CheckD, b, k, 0, 0, 1, 0, (false, false))
    ensures r == [HandOver, CheckCompressor, TakeFilled, TakeEmpty, Compress]
    ensures Run(z, s0, 1, r) == Some(OneSlot(Waiting, [b], SignalFilled, CheckD, b, z(b), 0, 0, 0, 0, (false, false)))
  {
    hide Run, Enabled, OneSlot;
    r := [];
    NoSteps(z, s0, 1);
    assert [] + [b] == [b];
    OneSlotEnabled(Writing, [], CheckC, CheckD, b, k, 0, 0, 1, 0, (false, false), Step<B>.HandOver);
    OneSlotStep(z, s0, r, Writing, [], CheckC, CheckD, b, k, 0, 0, 1, 0, (false, false), HandOver);
    r := r + [HandOver];
    OneSlotEnabled(Waiting, [b], CheckC, CheckD, b, k, 0, 1, 1, 0, (false, false), Step<B>.CheckCompressor);
    OneSlotStep(z, s0, r, Waiting, [b], CheckC, CheckD, b, k, 0, 1, 1, 0, (false, false), CheckCompressor);
    r := r + [CheckCompressor];
    OneSlotEnabled(Waiting, [b], WaitFilled, CheckD, b, k, 0, 1, 1, 0, (false, false), Step<B>.TakeFilled);
    OneSlotStep(z, s0, r, Waiting, [b], WaitFilled, CheckD, b, k, 0, 1, 1, 0, (false, false), TakeFilled);
    r := r + [TakeFilled];
    OneSlotEnabled(Waiting, [b], WaitEmpty, CheckD, b, k, 0, 0, 1, 0, (false, false), Step<B>.TakeEmpty);
    OneSlotStep(z, s0, r, Waiting, [b], WaitEmpty, CheckD, b, k, 0, 0, 1, 0, (false, false), TakeEmpty);
    r := r + [TakeEmpty];
    OneSlotEnabled(Waiting, [b], Compressing, CheckD, b, k, 0, 0, 0, 0, (false, false), Step<B>.Compress);
    OneSlotStep(z, s0, r, Waiting, [b], Compressing, CheckD, b, k, 0, 0, 0, 0, (false, false), Compress);
    r := r + [Compress];
  }

  /** ... and given on; the compressor waits for the next. */
  lemma {:induction false} FirstGiven<B, C>(z: B -> C, s0: State<B, C>, b: B, k: C) returns (r: seq<Step<B>>)
    requires s0 == OneSlot(Writing, [], CheckC, CheckD, b, k, 0, 0, 1, 0, (false, false))
    ensures r == [HandOver, CheckCompressor, TakeFilled, TakeEmpty, Compress]
                 + [GiveFilled, GiveEmpty, TakeSlot, CheckCompressor]
    ensures Run(z, s0, 1, r) == Some(OneSlot(Writing, [b], WaitFilled, CheckD, b, z(b), 0, 0, 0, 1, (false, false)))
  {
    hide Run, Enabled, OneSlot;
    r := FirstTaken(z, s0, b, k);
    OneSlotEnabled(Waiting, [b], SignalFilled, CheckD, b, z(b), 0, 0, 0, 0, (false, false), Step<B>.GiveFilled);
    OneSlotStep(z, s0, r, Waiting, [b], SignalFilled, CheckD, b, z(b), 0, 0, 0, 0, (false, false), GiveFilled);
    r := r + [GiveFilled];
    OneSlotEnabled(Waiting, [b], SignalEmpty, CheckD, b, z(b), 0, 0, 0, 1, (false, false), Step<B>.GiveEmpty);
    OneSlotStep(z, s0, r, Waiting, [b], SignalEmpty, CheckD, b, z(b), 0, 0, 0, 1, (false, false), GiveEmpty);
    r := r + [GiveEmpty];
    OneSlotEnabled(Waiting, [b], CheckC, CheckD, b, z(b), 1, 0, 0, 1, (false, false), Step<B>.TakeSlot);
    OneSlotStep(z, s0, r, Waiting, [b], CheckC, CheckD, b, z(b), 1, 0, 0, 1, (false, false), TakeSlot);
    r := r + [TakeSlot];
    OneSlotEnabled(Writing, [b], CheckC, CheckD, b, z(b), 0, 0, 0, 1, (false, false), Step<B>.CheckCompressor);
    OneSlotStep(z, s0, r, Writing, [b], CheckC, CheckD, b, z(b), 0, 0, 0, 1, (false, false), CheckCompressor);
    r := r + [CheckCompressor];
  }

  /** The other hang: the dumper, still on its first block, finds its flag set and
      ends; the compressor has taken the last block and waits for a slot that nobody
      will empty. Nothing is written. */
  lemma {:induction false} CompressorHangs<B, C>(z: B -> C, b: B, k: C) returns (r: seq<Step<B>>)
    ensures r == [HandOver, CheckCompressor, TakeFilled, TakeEmpty, Compress]
                 + [GiveFilled, GiveEmpty, TakeSlot, CheckCompressor]
                 + [StopCompressor, StopDumper, HandLast, TakeFilled, CheckDumper]
    ensures var s := Run(z, Start<B, C>(1, [b], [k]), 1, r);
            && s.Some? && Stuck(s.value, 1)
            && s.value.compressor == WaitEmpty && s.value.dumper == EndedD && s.value.file == []
  {
    hide Run, Enabled, OneSlot, Start;
    var s0 := Start<B, C>(1, [b], [k]);
    StartOne(b, k);
    r := FirstGiven(z, s0, b, k);
    assert [b] + [b] == [b, b];
    OneSlotEnabled(Writing, [b], WaitFilled, CheckD, b, z(b), 0, 0, 0, 1, (false, false), Step<B>.StopCompressor);
    OneSlotStep(z, s0, r, Writing, [b], WaitFilled, CheckD, b, z(b), 0, 0, 0, 1, (false, false), StopCompressor);
    r := r + [StopCompressor];
    OneSlotEnabled(ClosingOne, [b], WaitFilled, CheckD, b, z(b), 0, 0, 0, 1, (true, false), Step<B>.StopDumper);
    OneSlotStep(z, s0, r, ClosingOne, [b], WaitFilled, CheckD, b, z(b), 0, 0, 0, 1, (true, false), StopDumper);
    r := r + [StopDumper];
    OneSlotEnabled(ClosingTwo, [b], WaitFilled, CheckD, b, z(b), 0, 0, 0, 1, (true, true), Step<B>.HandLast);
    OneSlotStep(z, s0, r, ClosingTwo, [b], WaitFilled, CheckD, b, z(b), 0, 0, 0, 1, (true, true), HandLast);
    r := r + [HandLast];
    OneSlotEnabled(Joining, [b, b], WaitFilled, CheckD, b, z(b), 0, 1, 0, 1, (true, true), Step<B>.TakeFilled);
    OneSlotStep(z, s0, r, Joining, [b, b], WaitFilled, CheckD, b, z(b), 0, 1, 0, 1, (true, true), TakeFilled);
    r := r + [TakeFilled];
    OneSlotEnabled(Joining, [b, b], WaitEmpty, CheckD, b, z(b), 0, 0, 0, 1, (true, true), Step<B>.CheckDumper);
    OneSlotStep(z, s0, r, Joining, [b, b], WaitEmpty, CheckD, b, z(b), 0, 0, 0, 1, (true, true), CheckDumper);
    r := r + [CheckDumper];
    LeftWaiting<B, C>([b, b], b, z(b));
  }

  lemma {:induction false} LeftWaiting<B, C>(h: seq<B>, b: B, k: C)
    ensures var s := OneSlot(Joining, h, WaitEmpty, EndedD, b, k, 0, 0, 0, 1, (true, true));
            Stuck(s, 1) && s.compressor == WaitEmpty && s.dumper == EndedD && s.file == []
  {
  }

  lemma {:induction false} StartOne<B, C>(b: B, k: C)
    ensures Start<B, C>(1, [b], [k]) == OneSlot(Writing, [], CheckC, CheckD, b, k, 0, 0, 1, 0, (false, false))
  {
  }

  lemma {:induction false} StartIs<B, C>(n: nat, buffer: seq<B>, compressed: seq<C>)
    requires n >= 1 && |buffer| == |compressed| == n
    ensures var s := Start<B, C>(n, buffer, compressed);
            && Sized(s, n) && s.producer == Writing && s.compressor == CheckC && s.dumper == CheckD
            && !s.compressDone && !s.dumpDone && s.file == [] && s.filledCompressed[s.dumpSlot] == 0
    ensures [] + [Step<B>.CheckDumper] == [Step<B>.CheckDumper]
    ensures [Step<B>.CheckDumper] + [StopCompressor] == [CheckDumper, StopCompressor]
    ensures [Step<B>.CheckDumper, StopCompressor] + [StopDumper] == [CheckDumper, StopCompressor, StopDumper]
  {
  }

  /** The producer's and the dumper's first steps, spelled out. */
  lemma {:induction false} HangNext<B, C>(z: B -> C, s: State<B, C>, n: nat)
    requires Sized(s, n)
    ensures s.dumper == CheckD && !s.dumpDone ==>
              Enabled(s, n, Step<B>.CheckDumper) && Next(z, s, n, Step<B>.CheckDumper) == s.(dumper := WaitCompressed)
    ensures s.producer == Writing ==>
              && Enabled(s, n, Step<B>.StopCompressor)
              && Next(z, s, n, Step<B>.StopCompressor) == s.(producer := ClosingOne, compressDone := true)
    ensures s.producer == ClosingOne ==>
              && Enabled(s, n, Step<B>.StopDumper)
              && Next(z, s, n, Step<B>.StopDumper) == s.(producer := ClosingTwo, dumpDone := true)
    ensures s.producer == ClosingTwo ==> Enabled(s, n, Step<B>.HandLast)
  {
  }

  lemma {:induction false} NoSteps<B, C>(z: B -> C, s: State<B, C>, n: nat)
    requires Sized(s, n)
    ensures Run(z, s, n, []) == Some(s)
  {
  }
}
