/** The bytes of events and frames, told position by position
    (lib/SlimmerRuntime/SlimmerRuntime.cpp, lines 232-248 and 308-482; labels and sizes in
    include/SlimmerUtil.h, lines 142-166). */
module Layout {
  import opened Common
  import opened Events
  import opened Codec
  import opened TraceFile

  // ------------------------------------------------------------------ integers

  /** Four bytes from position p on, the least significant one first. */
  function Four(b: bytes, p: nat): nat
    requires p + 4 <= |b|
  {
    b[p] as nat + 0x100 * b[p + 1] as nat + 0x1_0000 * b[p + 2] as nat + 0x100_0000 * b[p + 3] as nat
  }

  predicate Holds32(b: bytes, p: nat, x: nat)
    requires p + 4 <= |b|
  {
    x == Four(b, p)
  }

  predicate Holds64(b: bytes, p: nat, x: nat)
    requires p + 8 <= |b|
  {
    x == Four(b, p) + 0x1_0000_0000 * Four(b, p + 4)
  }

  lemma {:induction false} FourBytes(b: bytes)
    requires |b| >= 4
    ensures FromBytes(b) == Four(b, 0) + 0x1_0000_0000 * FromBytes(b[4..])
  {
    assert b[1..][1..] == b[2..] && b[2..][1..] == b[3..] && b[3..][1..] == b[4..];
    assert FromBytes(b[3..]) == b[3] as nat + 0x100 * FromBytes(b[4..]);
    assert FromBytes(b[2..]) == b[2] as nat + 0x100 * FromBytes(b[3..]);
    assert FromBytes(b[1..]) == b[1] as nat + 0x100 * FromBytes(b[2..]);
  }

  lemma {:induction false} Read32Is(b: bytes, p: nat, x: uint32)
    requires p + 4 <= |b|
    ensures Read32(b, p) == x <==> Holds32(b, p, x as nat)
  {
    var c := b[p..p + 4];
    FourBytes(c);
    assert c[4..] == [];
  }

  lemma {:induction false} Read64Is(b: bytes, p: nat, x: uint64)
    requires p + 8 <= |b|
    ensures Read64(b, p) == x <==> Holds64(b, p, x as nat)
  {
    var c := b[p..p + 8];
    FourBytes(c);
    FourBytes(c[4..]);
    assert c[4..][4..] == [];
  }

  // -------------------------------------------------------------------- events

  /** The fields that most events begin with. */
  predicate Head(b: bytes, p: nat, tid: uint64, id: uint32)
    requires p + 13 <= |b|
  {
    Holds64(b, p + 1, tid as nat) && Holds32(b, p + 9, id as nat)
  }

  /** An event with label `tag`, of `size` bytes from position p on, is e. */
  predicate Reads(b: bytes, p: nat, tag: byte, size: nat, e: Event)
    requires p + size <= |b|
  {
    match e
    case BasicBlockEvent(tid, id) => tag == 0 && size == 14 && Head(b, p, tid, id)
    case MemoryEvent(tid, id, addr, length) =>
      && tag == 1 && size == 30 && Head(b, p, tid, id)
      && Holds64(b, p + 13, addr as nat) && Holds64(b, p + 21, length as nat)
    case ReturnEvent(tid, id, fun) => tag == 3 && size == 22 && Head(b, p, tid, id) && Holds64(b, p + 13, fun as nat)
    case ArgumentEvent(tid, arg) =>
      tag == 5 && size == 18 && Holds64(b, p + 1, tid as nat) && Holds64(b, p + 9, arg as nat)
    case MemsetEvent(tid, id, addr, length) =>
      && tag == 6 && size == 30 && Head(b, p, tid, id)
      && Holds64(b, p + 13, addr as nat) && Holds64(b, p + 21, length as nat)
    case MemmoveEvent(tid, id, dest, src, length) =>
      && tag == 7 && size == 38 && Head(b, p, tid, id)
      && Holds64(b, p + 13, dest as nat) && Holds64(b, p + 21, src as nat) && Holds64(b, p + 29, length as nat)
    case EndEvent => tag == 125 && size == 1
    case PlaceHolderEvent => tag == 126 && size == 1
  }

  lemma {:induction false} DecodeReads(b: bytes, p: nat, tag: byte, size: nat, e: Event)
    requires p + size <= |b|
    ensures Reads(b, p, tag, size, e) <==> SizeOf(tag) == Some(size) && Decode(b, p, tag) == e
  {
    hide Read64, Read32, Holds64, Holds32;
    match e
    case BasicBlockEvent(tid, id) => if size == 14 { HeadIs(b, p, tid, id); }
    case MemoryEvent(tid, id, addr, length) => if size == 30 { RangeIs(b, p, tid, id, addr, length); }
    case ReturnEvent(tid, id, fun) =>
      if size == 22 {
        HeadIs(b, p, tid, id);
        Read64Is(b, p + 13, fun);
      }
    case ArgumentEvent(tid, arg) =>
      if size == 18 {
        Read64Is(b, p + 1, tid);
        Read64Is(b, p + 9, arg);
      }
    case MemsetEvent(tid, id, addr, length) => if size == 30 { RangeIs(b, p, tid, id, addr, length); }
    case MemmoveEvent(tid, id, dest, src, length) =>
      if size == 38 {
        RangeIs(b, p, tid, id, dest, src);
        Read64Is(b, p + 29, length);
      }
    case EndEvent =>
    case PlaceHolderEvent =>
  }

  lemma {:induction false} HeadIs(b: bytes, p: nat, tid: uint64, id: uint32)
    requires p + 13 <= |b|
    ensures Head(b, p, tid, id) <==> Read64(b, p + 1) == tid && Read32(b, p + 9) == id
  {
    Read64Is(b, p + 1, tid);
    Read32Is(b, p + 9, id);
  }

  lemma {:induction false} RangeIs(b: bytes, p: nat, tid: uint64, id: uint32, x: uint64, y: uint64)
    requires p + 29 <= |b|
    ensures Head(b, p, tid, id) && Holds64(b, p + 13, x as nat) && Holds64(b, p + 21, y as nat) <==>
              Read64(b, p + 1) == tid && Read32(b, p + 9) == id && Read64(b, p + 13) == x && Read64(b, p + 21) == y
  {
    hide Holds64, Read64, Read32;
    HeadIs(b, p, tid, id);
    Read64Is(b, p + 13, x);
    Read64Is(b, p + 21, y);
  }

  /** What GetEvent reads, of any bytes: the event told by the label at the position, if
      it is a label and all of the event is there, before the position or from it on. */
  lemma {:induction false} GetEventReads(backward: bool, b: bytes, cur: nat, e: Event, size: nat)
    ensures GetEvent(backward, b, cur) == Some((e, size)) <==>
              && cur < |b| && size > 0
              && var start := if backward then cur + 1 - size else cur;
                 0 <= start <= |b| - size && Reads(b, start, b[cur], size, e)
  {
    hide Decode, Reads;
    if cur < |b| && size > 0 {
      var start := if backward then cur + 1 - size else cur;
      if 0 <= start <= |b| - size { DecodeReads(b, start, b[cur], size, e); }
    }
  }

  /** What is recorded of an event: its bytes, one by one, with the label at both ends. */
  lemma {:induction false} EncodeLaysOut(e: Event)
    ensures var b := Encode(e);
            Reads(b, 0, b[0], |b|, e) && b[|b| - 1] == b[0]
  {
    hide Decode, Reads, SizeOf;
    var b := Encode(e);
    DecodeEncode([], e, []);
    assert [] + b + [] == b;
    DecodeReads(b, 0, b[0], |b|, e);
  }

  // -------------------------------------------------------------------- frames

  /** A compressed block stands in the file between two copies of its length. */
  lemma {:induction false} FrameLaysOut(c: bytes)
    requires |c| < 0x1_0000_0000_0000_0000
    ensures var f := Frame(c);
            |f| == |c| + 16 && Holds64(f, 0, |c|) && f[8..|c| + 8] == c && Holds64(f, |c| + 8, |c|)
  {
    hide Holds64, Word64;
    var n := |c| as uint64;
    var f := Frame(c);
    assert f == [] + Word64(n) + (c + Word64(n)) && f == (Word64(n) + c) + Word64(n) + [];
    ReadWord64([], n, c + Word64(n));
    ReadWord64(Word64(n) + c, n, []);
    Read64Is(f, 0, n);
    Read64Is(f, |c| + 8, n);
  }

  /** What is read as a frame, of any file: a length, so many bytes that can be decompressed
      to a block, and eight bytes that are passed over. */
  lemma {:induction false} UnframeReads(lz: Lz, data: bytes, p: nat, block: bytes, next: nat)
    requires p <= |data|
    ensures Unframe(lz, data, p) == Some((block, next)) <==>
              && next >= p + 16 && next <= |data| + 8 && Holds64(data, p, next - p - 16)
              && lz.decompress(data[p + 8..next - 8]) == Some(block) && block != []
  {
    hide Holds64, Read64;
    if p + 8 <= |data| {
      var length := Read64(data, p);
      Read64Is(data, p, length);
      if p + 16 <= next <= |data| + 8 && Holds64(data, p, next - p - 16) {
        OneNumber(data, p, length as nat, next - p - 16);
        assert next - 8 == p + 8 + length as nat;
      }
    }
  }

  lemma {:induction false} OneNumber(b: bytes, p: nat, x: nat, y: nat)
    requires p + 8 <= |b| && Holds64(b, p, x) && Holds64(b, p, y)
    ensures x == y
  {
  }
}
