/** Writing a trace into padded, compressed blocks (CircularBuffer in
    lib/SlimmerRuntime/SlimmerRuntime.cpp) and reading it back (TraceIter in
    tools/PrintBug/Util.cpp). */
module TraceFile {
  import opened Common
  import opened Events
  import opened Codec

  // ------------------------------------------------------------------ blocks

  /** The largest event. */
  const LARGEST := 38

  function Pads(n: nat): seq<Event> { seq(n, _ => PlaceHolderEvent) }

  /** The events of one block, with the placeholders that fill it. */
  function Padded(size: nat, events: seq<Event>): seq<Event>
    requires |EncodeAll(events)| <= size
  {
    events + Pads(size - |EncodeAll(events)|)
  }

  lemma {:induction false} PadsEncoded(n: nat)
    ensures EncodeAll(Pads(n)) == seq(n, _ => PLACEHOLDER)
  {
    if n > 0 {
      PadsEncoded(n - 1);
      assert Pads(n)[..n - 1] == Pads(n - 1);
      assert seq(n, _ => PLACEHOLDER) == seq(n - 1, _ => PLACEHOLDER) + [PLACEHOLDER];
    }
  }

  /** A block of events followed by placeholder bytes is again a block of events. */
  lemma {:induction false} PaddedEncoded(size: nat, events: seq<Event>)
    requires |EncodeAll(events)| <= size
    ensures EncodeAll(Padded(size, events)) == EncodeAll(events) + seq(size - |EncodeAll(events)|, _ => PLACEHOLDER)
    ensures |EncodeAll(Padded(size, events))| == size
  {
    var n := size - |EncodeAll(events)|;
    EncodeConcat(events, Pads(n));
    PadsEncoded(n);
  }

  // ----------------------------------------------------------------- writing

  /** The buffer of the traced program. Slots, semaphores and the two worker
      threads are the subject of module Ring; here full blocks go to `blocks`. */
  class TraceBuffer {
    const size: nat
    const buffer: array<byte>
    var offset: nat
    var blocks: seq<bytes>

    ghost var full: seq<seq<Event>>   // the events of the full blocks
    ghost var current: seq<Event>     // the events of the block being written

    ghost predicate Valid()
      reads this, buffer
    {
      && size >= LARGEST && buffer.Length == size && offset <= size
      && buffer[..offset] == EncodeAll(current)
      && |blocks| == |full|
      && forall k :: 0 <= k < |full| ==> IsBlock(size, blocks[k], full[k])
    }

    /** Every event appended so far, in order. */
    ghost function Written(): seq<Event>
      reads this
    {
      Flatten(full) + current
    }

    constructor (size: nat)
      requires size >= LARGEST
      ensures Valid() && Written() == [] && this.size == size && blocks == [] && fresh(buffer)
    {
      this.size := size;
      buffer := new byte[size];
      offset, blocks, full, current := 0, [], [], [];
    }

    /** Fill the rest of the block with placeholders. */
    method PadBuffer()
      requires Valid()
      modifies buffer
      ensures buffer[..] == EncodeAll(Padded(size, current))
    {
      ghost var start := buffer[..offset];
      var i := offset;
      while i < size
        invariant offset <= i <= size && buffer[..offset] == start
        invariant forall k :: offset <= k < i ==> buffer[k] == PLACEHOLDER
      {
        buffer[i] := PLACEHOLDER;
        i := i + 1;
      }
      PaddedEncoded(size, current);
      assert buffer[..] == start + seq(size - offset, _ => PLACEHOLDER);
    }

    /** ... and hand it over. */
    method HandOver()
      requires Valid()
      modifies this`offset, this`blocks, this`full, this`current, buffer
      ensures Valid() && Written() == old(Written()) && offset == 0 && current == []
      ensures blocks == old(blocks) + [buffer[..]] && full == old(full) + [old(current)]
    {
      hide EncodeAll, Padded;
      PadBuffer();
      blocks := blocks + [buffer[..]];
      FlattenMore(full, current);
      full, current, offset := full + [current], [], 0;
      NoneEncoded();
      assert Flatten(full) + [] == Flatten(full);
    }

    /** Room for an event: the start of it. An event never straddles two blocks. */
    method StartAppend(length: nat) returns (start: nat)
      requires Valid() && length <= LARGEST
      modifies this`offset, this`blocks, this`full, this`current, buffer
      ensures Valid() && Written() == old(Written()) && start == offset && offset + length <= size
      ensures blocks == if old(offset) + length > size then old(blocks) + [buffer[..]] else old(blocks)
    {
      if offset + length > size { HandOver(); }
      start := offset;
    }

    /** Append an event: what the record functions do between StartAppend and
        EndAppend. */
    method Append(e: Event)
      requires Valid()
      modifies this`offset, this`blocks, this`full, this`current, buffer
      ensures Valid() && Written() == old(Written()) + [e]
      ensures current != [] && current[|current| - 1] == e
    {
      hide EncodeAll, Encode, Padded;
      var code := Encode(e);
      EncodeSmall(e);
      var start := StartAppend(|code|);
      PutBytes(start, code);
      ghost var before := current;
      EncodeConcat(current, [e]);
      EncodeOne(e);
      offset, current := offset + |code|, current + [e];
      assert Flatten(full) + (before + [e]) == (Flatten(full) + before) + [e];
    }

    method PutBytes(start: nat, code: bytes)
      requires Valid() && start == offset && start + |code| <= size
      modifies buffer
      ensures Valid() && buffer[..offset + |code|] == EncodeAll(current) + code
    {
      var i := 0;
      while i < |code|
        invariant 0 <= i <= |code|
        invariant buffer[..offset] == EncodeAll(current)
        invariant buffer[offset..offset + i] == code[..i]
      {
        buffer[start + i] := code[i];
        i := i + 1;
      }
      assert code[..i] == code;
      assert buffer[..offset + |code|] == buffer[..offset] + buffer[offset..offset + |code|];
    }

    /** CloseBufferFile: write the end mark, pad, hand over the last block. */
    method Close()
      requires Valid()
      modifies this`offset, this`blocks, this`full, this`current, buffer
      ensures Valid() && Flatten(full) == old(Written()) + [EndEvent] && full != []
      ensures full[|full| - 1] != [] && full[|full| - 1][|full[|full| - 1]| - 1] == EndEvent
    {
      Append(EndEvent);
      HandOver();
      assert Flatten(full) + [] == Flatten(full);
    }
  }

  ghost predicate IsBlock(size: nat, block: bytes, events: seq<Event>) {
    |EncodeAll(events)| <= size && block == EncodeAll(Padded(size, events))
  }

  lemma {:induction false} FlattenMore<T>(lines: seq<seq<T>>, line: seq<T>)
    ensures Flatten(lines + [line]) == Flatten(lines) + line
  {
    assert (lines + [line])[..|lines|] == lines;
  }

  lemma {:induction false} NoneEncoded()
    ensures EncodeAll([]) == []
  {
  }

  lemma {:induction false} EncodeSmall(e: Event)
    ensures |Encode(e)| <= LARGEST
  {
  }

  // ------------------------------------------------------------------ frames

  /** LZ4, of which only its being lossless matters. */
  datatype Lz = Lz(compress: bytes -> bytes, decompress: bytes -> Option<bytes>)

  ghost predicate Lossless(lz: Lz, size: nat) {
    forall b: bytes :: |b| == size ==>
      lz.decompress(lz.compress(b)) == Some(b) && 0 < |lz.compress(b)| < 0x1_0000_0000_0000_0000
  }

  /** What Dump writes for a block: its compressed length on both sides. */
  function Frame(c: bytes): bytes
    requires |c| < 0x1_0000_0000_0000_0000
  {
    Word64(|c| as uint64) + c + Word64(|c| as uint64)
  }

  /** The trace file: the frames of the blocks, in order. */
  ghost function FileOf(lz: Lz, size: nat, blocks: seq<bytes>): bytes
    requires Lossless(lz, size) && forall k :: 0 <= k < |blocks| ==> |blocks[k]| == size
  {
    if blocks == [] then [] else Frame(lz.compress(blocks[0])) + FileOf(lz, size, blocks[1..])
  }

  // ----------------------------------------------------------------- reading

  /** The frame at position p of the file: what it decompresses to, and where the
      next one starts. None for a cut-off frame or an empty block. */
  function Unframe(lz: Lz, data: bytes, p: nat): Option<(bytes, nat)>
    requires p <= |data|
  {
    if p + 8 > |data| then None
    else
      var length := Read64(data, p) as nat;
      if p + 8 + length > |data| then None
      else
        match lz.decompress(data[p + 8..p + 8 + length])
        case None => None
        case Some(block) => if block == [] then None else Some((block, p + 8 + length + 8))
  }

  /** What NextEvent will still return: from position i of the decoded block on,
      then from position p of the file on. Once the end mark has been read no
      further block is. None if reading fails on the way. */
  function Remaining(lz: Lz, data: bytes, p: nat, decoded: bytes, i: nat, ended: bool): Option<seq<Event>>
    decreases if p <= |data| then |data| - p else 0, if i <= |decoded| then |decoded| - i else 0
  {
    if i < |decoded| then
      match GetEvent(false, decoded, i)
      case None => None
      case Some((e, n)) =>
        match Remaining(lz, data, p, decoded, i + n, ended || e == EndEvent)
        case None => None
        case Some(es) => Some([e] + es)
    else if ended || p >= |data| then Some([])
    else
      match Unframe(lz, data, p)
      case None => None
      case Some((block, p')) => Remaining(lz, data, p', block, 0, false)
  }

  class TraceIter {
    const lz: Lz
    const data: bytes
    var dataIter: nat
    var decoded: bytes
    var decodedIter: nat
    var ended: bool

    constructor (lz: Lz, data: bytes)
      ensures this.lz == lz && this.data == data
      ensures Left() == Remaining(lz, data, 0, [], 0, false)
    {
      this.lz, this.data := lz, data;
      dataIter, decoded, decodedIter, ended := 0, [], 0, false;
    }

    /** What is still to be read. */
    function Left(): Option<seq<Event>>
      reads this
    {
      Remaining(lz, data, dataIter, decoded, decodedIter, ended)
    }

    /** Decompress the next block if the current one has been read. */
    method Prepare() returns (ok: bool, more: bool)
      modifies this`dataIter, this`decoded, this`decodedIter
      ensures old(Left()).Some? ==> ok && Left() == old(Left()) && (more <==> Left().value != [])
      ensures ok && more ==> decodedIter < |decoded|
    {
      if decodedIter >= |decoded| {
        if ended || dataIter >= |data| { return true, false; }
        var frame := Unframe(lz, data, dataIter);
        if frame.None? { return false, false; }
        decoded, dataIter := frame.value.0, frame.value.1;
        decodedIter := 0;
      }
      return true, true;
    }

    /** The next event, if there is one. */
    method NextEvent() returns (ok: bool, more: bool, e: Event)
      modifies this
      ensures old(Left()).Some? ==>
                && ok && (more <==> old(Left()).value != [])
                && (more ==> Left() == Some(old(Left()).value[1..]) && e == old(Left()).value[0])
                && (!more ==> Left() == old(Left()))
    {
      e := PlaceHolderEvent;
      ok, more := Prepare();
      if !ok || !more { return; }
      var r := GetEvent(false, decoded, decodedIter);
      if r.None? { return false, false, e; }
      e := r.value.0;
      decodedIter := decodedIter + r.value.1;
      if e == EndEvent { ended := true; }
    }
  }

  // -------------------------------------------------------------- round trip

  function DropPads(events: seq<Event>): seq<Event> {
    if events == [] then []
    else
      DropPads(events[..|events| - 1])
      + if events[|events| - 1] == PlaceHolderEvent then [] else [events[|events| - 1]]
  }

  lemma {:induction false} DropConcat(a: seq<Event>, b: seq<Event>)
    ensures DropPads(a + b) == DropPads(a) + DropPads(b)
    decreases |b|
  {
    if b == [] {
      assert a + b == a;
    } else {
      var n := |b| - 1;
      assert (a + b)[..|a + b| - 1] == a + b[..n];
      DropConcat(a, b[..n]);
    }
  }

  lemma {:induction false} DropNone(events: seq<Event>)
    requires forall k :: 0 <= k < |events| ==> events[k] != PlaceHolderEvent
    ensures DropPads(events) == events
    decreases |events|
  {
    if events != [] { DropNone(events[..|events| - 1]); }
  }

  lemma {:induction false} DropAll(n: nat)
    ensures DropPads(Pads(n)) == []
  {
    if n > 0 {
      assert Pads(n)[..n - 1] == Pads(n - 1);
      DropAll(n - 1);
    }
  }

  /** The events of a decoded block come first; if the end mark is among them
      nothing else does. */
  lemma {:induction false} RemainingBlock(lz: Lz, data: bytes, p: nat, a: bytes, events: seq<Event>, ended: bool)
    ensures var b := a + EncodeAll(events);
            var ended' := ended || EndEvent in events;
            var rest := Remaining(lz, data, p, b, |b|, ended');
            Remaining(lz, data, p, b, |a|, ended) == if rest.None? then None else Some(events + rest.value)
    decreases |events|
  {
    hide Encode, GetEvent, Unframe;
    var b := a + EncodeAll(events);
    if events == [] {
      assert b == a;
      var rest := Remaining(lz, data, p, b, |b|, ended);
      if rest.Some? { assert [] + rest.value == rest.value; }
    } else {
      var e, others := events[0], events[1..];
      RemainingOne(lz, data, p, a, events, ended);
      assert (EndEvent in events) == (e == EndEvent || EndEvent in others);
      RemainingBlock(lz, data, p, a + Encode(e), others, ended || e == EndEvent);
      var rest := Remaining(lz, data, p, b, |b|, ended || EndEvent in events);
      if rest.Some? { assert [e] + (others + rest.value) == events + rest.value; }
    }
  }

  lemma {:induction false} RemainingOne(lz: Lz, data: bytes, p: nat, a: bytes, events: seq<Event>, ended: bool)
    requires events != []
    ensures var b := a + EncodeAll(events);
            var e := events[0];
            var rest := Remaining(lz, data, p, b, |a + Encode(e)|, ended || e == EndEvent);
            && b == (a + Encode(e)) + EncodeAll(events[1..])
            && Remaining(lz, data, p, b, |a|, ended) == if rest.None? then None else Some([e] + rest.value)
  {
    hide Encode, GetEvent, Unframe;
    var e, others := events[0], events[1..];
    assert events == [e] + others;
    EncodeConcat([e], others);
    EncodeOne(e);
    ReadForward(a, e, EncodeAll(others));
    Regroup2(a, Encode(e), EncodeAll(others));
  }

  /** A frame gives its block back. */
  lemma {:induction false} UnframeFrame(lz: Lz, size: nat, a: bytes, block: bytes, c: bytes)
    requires Lossless(lz, size) && |block| == size > 0
    ensures var f := Frame(lz.compress(block));
            Unframe(lz, a + (f + c), |a|) == Some((block, |a| + |f|)) && a + (f + c) == (a + f) + c
  {
    hide Word64, Read64;
    var z := lz.compress(block);
    var w := Word64(|z| as uint64);
    var data := a + (Frame(z) + c);
    assert data == a + w + (z + (w + c));
    ReadWord64(a, |z| as uint64, z + (w + c));
    assert data[|a| + 8..|a| + 8 + |z|] == z;
  }

  /** Between two blocks it does not matter which one was read last. */
  lemma {:induction false} RemainingBetween(lz: Lz, data: bytes, p: nat, b: bytes, b': bytes, ended: bool)
    ensures Remaining(lz, data, p, b, |b|, ended) == Remaining(lz, data, p, b', |b'|, ended)
  {
  }

  ghost predicate AreBlocks(size: nat, blocks: seq<bytes>, full: seq<seq<Event>>) {
    |blocks| == |full| && forall k :: 0 <= k < |full| ==> IsBlock(size, blocks[k], full[k]) && |blocks[k]| == size
  }

  /** The end mark is in the last block only. */
  ghost predicate EndsLast(full: seq<seq<Event>>) {
    && full != [] && EndEvent in full[|full| - 1]
    && forall k :: 0 <= k < |full| - 1 ==> EndEvent !in full[k]
  }

  /** All blocks, with their padding. */
  ghost function AllPadded(size: nat, full: seq<seq<Event>>): seq<Event>
    requires forall k :: 0 <= k < |full| ==> |EncodeAll(full[k])| <= size
  {
    if full == [] then [] else Padded(size, full[0]) + AllPadded(size, full[1..])
  }

  lemma {:induction false} PadsNoEnd(size: nat, events: seq<Event>)
    requires |EncodeAll(events)| <= size
    ensures EndEvent in Padded(size, events) <==> EndEvent in events
  {
  }

  /** Reading a file yields the events of its blocks, one block after the other; what comes
      after the block with the end mark is not read. */
  lemma {:induction false} RemainingFile(lz: Lz, size: nat, a: bytes, blocks: seq<bytes>, full: seq<seq<Event>>,
                                         c: bytes)
    requires Lossless(lz, size) && size > 0 && AreBlocks(size, blocks, full) && EndsLast(full)
    ensures Remaining(lz, a + (FileOf(lz, size, blocks) + c), |a|, [], 0, false) == Some(AllPadded(size, full))
    decreases |blocks|
  {
    hide EncodeAll, Padded, Unframe, GetEvent, Word64;
    var block, es := blocks[0], Padded(size, full[0]);
    var f := Frame(lz.compress(block));
    var rest := FileOf(lz, size, blocks[1..]) + c;
    var data := a + (f + rest);
    assert FileOf(lz, size, blocks) + c == f + rest;
    UnframeFrame(lz, size, a, block, rest);
    assert IsBlock(size, block, full[0]);
    assert [] + EncodeAll(es) == block;
    assert Remaining(lz, data, |a|, [], 0, false) == Remaining(lz, data, |a + f|, block, 0, false);
    RemainingBlock(lz, data, |a + f|, [], es, false);
    PadsNoEnd(size, full[0]);
    if |blocks| == 1 {
      assert full[1..] == [];
      assert Remaining(lz, data, |a + f|, block, |block|, true) == Some([]);
    } else {
      assert EndsLast(full[1..]) by { assert full[1..][|full| - 2] == full[|full| - 1]; }
      RemainingFile(lz, size, a + f, blocks[1..], full[1..], c);
      RemainingBetween(lz, data, |a + f|, block, [], false);
    }
  }

  lemma {:induction false} FlattenFront<T>(lines: seq<seq<T>>)
    requires lines != []
    ensures Flatten(lines) == lines[0] + Flatten(lines[1..])
    decreases |lines|
  {
    var n := |lines| - 1;
    if n > 0 {
      FlattenFront(lines[..n]);
      assert lines[..n][1..] == lines[1..][..n - 1];
      var mid := Flatten(lines[1..][..n - 1]);
      assert lines[0] + (mid + lines[n]) == (lines[0] + mid) + lines[n];
    } else {
      assert lines[..n] == [] && lines[1..] == [];
      assert Flatten(lines) == [] + lines[0];
      assert lines[0] + [] == lines[0];
    }
  }

  lemma {:induction false} DropPadded(size: nat, full: seq<seq<Event>>)
    requires forall k :: 0 <= k < |full| ==> |EncodeAll(full[k])| <= size
    requires forall k, i :: 0 <= k < |full| && 0 <= i < |full[k]| ==> full[k][i] != PlaceHolderEvent
    ensures DropPads(AllPadded(size, full)) == Flatten(full)
    decreases |full|
  {
    hide EncodeAll;
    if full != [] {
      var n := size - |EncodeAll(full[0])|;
      DropConcat(Padded(size, full[0]), AllPadded(size, full[1..]));
      DropConcat(full[0], Pads(n));
      DropNone(full[0]);
      DropAll(n);
      DropPadded(size, full[1..]);
      FlattenFront(full);
      assert full[0] + [] == full[0];
    }
  }

  lemma {:induction false} InFlatten<T>(lines: seq<seq<T>>, k: nat, i: nat)
    requires k < |lines| && i < |lines[k]|
    ensures lines[k][i] in Flatten(lines)
    decreases |lines|
  {
    if k < |lines| - 1 {
      InFlatten(lines[..|lines| - 1], k, i);
    } else {
      assert Flatten(lines)[|Flatten(lines)| - |lines[k]| + i] == lines[k][i];
    }
  }

  /** What was appended before the end mark holds no other one. */
  lemma {:induction false} OneEnd(full: seq<seq<Event>>, events: seq<Event>)
    requires Flatten(full) == events + [EndEvent] && full != [] && full[|full| - 1] != []
    requires forall e :: e in events ==> e.HasTid()
    ensures EndsLast(full)
    ensures forall k, i :: 0 <= k < |full| && 0 <= i < |full[k]| ==> full[k][i] != PlaceHolderEvent
  {
    var n := |full| - 1;
    var before := Flatten(full[..n]);
    assert Flatten(full) == before + full[n];
    assert full[n][|full[n]| - 1] == Flatten(full)[|Flatten(full)| - 1] == EndEvent;
    assert before <= events by { assert before == (events + [EndEvent])[..|before|]; }
    forall j | 0 <= j < |before| ensures before[j].HasTid() { assert events[j] in events; }
    forall k, i | 0 <= k < n && 0 <= i < |full[k]| ensures full[k][i].HasTid() {
      InFlatten(full[..n], k, i);
    }
    forall k, i | 0 <= k < |full| && 0 <= i < |full[k]| ensures full[k][i] != PlaceHolderEvent {
      InFlatten(full, k, i);
    }
  }

  /** Every block can be read on its own, from either end: no event straddles two
      blocks, and both ways meet the same events. */
  lemma {:induction false} BlockReadsBothWays(size: nat, block: bytes, events: seq<Event>)
    requires IsBlock(size, block, events)
    ensures Parse(block, 0) == Some(Padded(size, events))
    ensures ParseBack(block, |block|) == Some(Reverse(Padded(size, events)))
  {
    hide EncodeAll, Padded, GetEvent;
    var es := Padded(size, events);
    ParseEncoded([], es);
    ParseBackEncoded(es, []);
    assert [] + EncodeAll(es) == block && EncodeAll(es) + [] == block;
  }

  /** Writing a trace and reading it back: all events come back in their order,
      followed by the end mark, once the placeholders are dropped. Whatever else has been
      appended to the file makes no difference. */
  lemma {:induction false} RoundTrip(lz: Lz, size: nat, blocks: seq<bytes>, full: seq<seq<Event>>, events: seq<Event>,
                                     more: bytes)
    requires Lossless(lz, size) && size > 0 && AreBlocks(size, blocks, full)
    requires Flatten(full) == events + [EndEvent] && full != [] && full[|full| - 1] != []
    requires forall e :: e in events ==> e.HasTid()
    ensures var r := Remaining(lz, FileOf(lz, size, blocks) + more, 0, [], 0, false);
            r.Some? && DropPads(r.value) == events + [EndEvent]
  {
    hide EncodeAll, Padded, Remaining, FileOf, Lossless;
    OneEnd(full, events);
    RemainingFile(lz, size, [], blocks, full, more);
    assert [] + (FileOf(lz, size, blocks) + more) == FileOf(lz, size, blocks) + more;
    DropPadded(size, full);
  }

  /** Append all events, and close. */
  method RecordAll(size: nat, events: seq<Event>) returns (blocks: seq<bytes>, ghost full: seq<seq<Event>>)
    requires size >= LARGEST
    ensures AreBlocks(size, blocks, full) && Flatten(full) == events + [EndEvent]
    ensures full != [] && full[|full| - 1] != []
  {
    hide IsBlock, TraceBuffer.Valid, TraceBuffer.Written, AreBlocks;
    var buffer := new TraceBuffer(size);
    var n := 0;
    while n < |events|
      invariant 0 <= n <= |events| && buffer.Valid() && fresh(buffer) && fresh(buffer.buffer) && buffer.size == size
      invariant buffer.Written() == events[..n]
    {
      buffer.Append(events[n]);
      assert events[..n + 1] == events[..n] + [events[n]];
      n := n + 1;
    }
    assert events[..n] == events;
    buffer.Close();
    BlocksSized(buffer);
    blocks, full := buffer.blocks, buffer.full;
  }

  /** Read until there is no further event. */
  method ReadAll(iter: TraceIter) returns (read: seq<Event>)
    requires iter.Left().Some?
    modifies iter
    ensures read == old(iter.Left()).value
  {
    hide Remaining;
    ghost var all := iter.Left().value;
    read := [];
    assert read + all == all;
    var more := true;
    while more
      invariant iter.Left().Some? && all == read + iter.Left().value
      invariant !more ==> iter.Left().value == []
      decreases |iter.Left().value|, more
    {
      var ok, e;
      ghost var left := iter.Left().value;
      ok, more, e := iter.NextEvent();
      if more {
        assert left == [e] + left[1..];
        read := read + [e];
      }
    }
    assert read + [] == read;
  }

  /** Record a trace, write its file, read it back. */
  method RecordAndRead(lz: Lz, size: nat, events: seq<Event>) returns (read: seq<Event>)
    requires Lossless(lz, size) && size >= LARGEST && forall e :: e in events ==> e.HasTid()
    ensures DropPads(read) == events + [EndEvent]
  {
    hide Lossless, Remaining, DropPads, IsBlock;
    var blocks, full := RecordAll(size, events);
    var data := WriteFile(lz, size, blocks);
    RoundTrip(lz, size, blocks, full, events, []);
    assert data + [] == data;
    var iter := new TraceIter(lz, data);
    read := ReadAll(iter);
  }

  lemma {:induction false} BlocksSized(buffer: TraceBuffer)
    requires buffer.Valid()
    ensures AreBlocks(buffer.size, buffer.blocks, buffer.full)
  {
    hide EncodeAll;
    forall k | 0 <= k < |buffer.full| ensures |buffer.blocks[k]| == buffer.size {
      PaddedEncoded(buffer.size, buffer.full[k]);
    }
  }

  /** DumpCompressed: one frame after the other. */
  method WriteFile(lz: Lz, size: nat, blocks: seq<bytes>) returns (data: bytes)
    requires Lossless(lz, size) && forall k :: 0 <= k < |blocks| ==> |blocks[k]| == size
    ensures data == FileOf(lz, size, blocks)
  {
    data := [];
    var n := 0;
    assert blocks[0..] == blocks;
    while n < |blocks|
      invariant 0 <= n <= |blocks|
      invariant data + FileOf(lz, size, blocks[n..]) == FileOf(lz, size, blocks)
    {
      assert blocks[n..][1..] == blocks[n + 1..];
      var f := Frame(lz.compress(blocks[n]));
      assert data + (f + FileOf(lz, size, blocks[n + 1..])) == (data + f) + FileOf(lz, size, blocks[n + 1..]);
      data := data + f;
      n := n + 1;
    }
    assert data + [] == data;
  }
}
