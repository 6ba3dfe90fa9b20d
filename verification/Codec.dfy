/** The bytes of a trace: event layouts as the runtime writes them
    (lib/SlimmerRuntime/SlimmerRuntime.cpp, lines 294-482; sizes in
    include/SlimmerUtil.h) and GetEvent, which reads one event from either end
    (lib/SlimmerUtil/Routines.cpp, lines 198-254). */
module Codec {
  import opened Common
  import opened Events

  newtype byte = x: int | 0 <= x < 256

  type bytes = seq<byte>

  // ------------------------------------------------------------- integers

  /** Little-endian, in k bytes. */
  function ToBytes(x: nat, k: nat): (b: bytes)
    ensures |b| == k
  {
    if k == 0 then [] else [(x % 256) as byte] + ToBytes(x / 256, k - 1)
  }

  function FromBytes(b: bytes): nat {
    if b == [] then 0 else b[0] as nat + 256 * FromBytes(b[1..])
  }

  function Power(k: nat): nat { if k == 0 then 1 else 256 * Power(k - 1) }

  lemma {:induction false} BytesInverse(x: nat, k: nat)
    requires x < Power(k)
    ensures FromBytes(ToBytes(x, k)) == x
  {
    if k > 0 {
      assert x / 256 < Power(k - 1);
      BytesInverse(x / 256, k - 1);
      assert ToBytes(x, k)[1..] == ToBytes(x / 256, k - 1);
    }
  }

  lemma {:induction false} Powers()
    ensures Power(4) == 0x1_0000_0000 && Power(8) == 0x1_0000_0000_0000_0000
  {
    assert Power(1) == 0x100 && Power(2) == 0x1_0000 && Power(3) == 0x100_0000 && Power(4) == 0x1_0000_0000;
    assert Power(5) == 0x100_0000_0000 && Power(6) == 0x1_0000_0000_0000 && Power(7) == 0x100_0000_0000_0000;
  }

  lemma {:induction false} FromBytesBound(b: bytes)
    ensures FromBytes(b) < Power(|b|)
  {
    if b != [] { FromBytesBound(b[1..]); }
  }

  function Word64(x: uint64): (b: bytes)
    ensures |b| == 8
  {
    ToBytes(x as nat, 8)
  }

  function Word32(x: uint32): (b: bytes)
    ensures |b| == 4
  {
    ToBytes(x as nat, 4)
  }

  /** Eight bytes of `b` from position p on. */
  function Read64(b: bytes, p: nat): uint64
    requires p + 8 <= |b|
  {
    FromBytesBound(b[p..p + 8]);
    Powers();
    FromBytes(b[p..p + 8]) as uint64
  }

  function Read32(b: bytes, p: nat): uint32
    requires p + 4 <= |b|
  {
    FromBytesBound(b[p..p + 4]);
    Powers();
    FromBytes(b[p..p + 4]) as uint32
  }

  lemma {:induction false} ReadWord64(a: bytes, x: uint64, c: bytes)
    ensures Read64(a + Word64(x) + c, |a|) == x
  {
    var b := a + Word64(x) + c;
    assert b[|a|..|a| + 8] == Word64(x);
    Powers();
    BytesInverse(x as nat, 8);
  }

  lemma {:induction false} ReadWord32(a: bytes, x: uint32, c: bytes)
    ensures Read32(a + Word32(x) + c, |a|) == x
  {
    var b := a + Word32(x) + c;
    assert b[|a|..|a| + 4] == Word32(x);
    Powers();
    BytesInverse(x as nat, 4);
  }

  // --------------------------------------------------------------- layouts

  const BASIC_BLOCK: byte := 0
  const MEMORY: byte := 1
  const RETURN: byte := 3
  const ARGUMENT: byte := 5
  const MEMSET: byte := 6
  const MEMMOVE: byte := 7
  const END: byte := 125
  const PLACEHOLDER: byte := 126

  /** The first byte of an event, and the last. */
  function Label(e: Event): byte {
    match e
    case BasicBlockEvent(_, _) => BASIC_BLOCK
    case MemoryEvent(_, _, _, _) => MEMORY
    case ReturnEvent(_, _, _) => RETURN
    case ArgumentEvent(_, _) => ARGUMENT
    case MemsetEvent(_, _, _, _) => MEMSET
    case MemmoveEvent(_, _, _, _, _) => MEMMOVE
    case EndEvent => END
    case PlaceHolderEvent => PLACEHOLDER
  }

  /** What stands between the labels. */
  function Fields(e: Event): bytes {
    match e
    case BasicBlockEvent(tid, id) => Word64(tid) + Word32(id)
    case MemoryEvent(tid, id, addr, length) => Word64(tid) + Word32(id) + Word64(addr) + Word64(length)
    case ReturnEvent(tid, id, fun) => Word64(tid) + Word32(id) + Word64(fun)
    case ArgumentEvent(tid, arg) => Word64(tid) + Word64(arg)
    case MemsetEvent(tid, id, addr, length) => Word64(tid) + Word32(id) + Word64(addr) + Word64(length)
    case MemmoveEvent(tid, id, dest, src, length) =>
      Word64(tid) + Word32(id) + Word64(dest) + Word64(src) + Word64(length)
    case EndEvent => []
    case PlaceHolderEvent => []
  }

  function Encode(e: Event): (b: bytes)
    ensures |b| >= 1 && b[0] == Label(e) && b[|b| - 1] == Label(e) && Some(|b|) == SizeOf(Label(e))
  {
    if e.HasTid() then [Label(e)] + Fields(e) + [Label(e)] else [Label(e)]
  }

  /** The size of an event by its label; there is none for other bytes. */
  function SizeOf(tag: byte): Option<nat> {
    if tag == BASIC_BLOCK then Some(14)
    else if tag == MEMORY || tag == MEMSET then Some(30)
    else if tag == RETURN then Some(22)
    else if tag == ARGUMENT then Some(18)
    else if tag == MEMMOVE then Some(38)
    else if tag == END || tag == PLACEHOLDER then Some(1)
    else None
  }

  /** The event that starts at position p, with the given label. */
  function Decode(b: bytes, p: nat, tag: byte): Event
    requires SizeOf(tag).Some? && p + SizeOf(tag).value <= |b|
  {
    if tag == BASIC_BLOCK then BasicBlockEvent(Read64(b, p + 1), Read32(b, p + 9))
    else if tag == MEMORY then MemoryEvent(Read64(b, p + 1), Read32(b, p + 9), Read64(b, p + 13), Read64(b, p + 21))
    else if tag == RETURN then ReturnEvent(Read64(b, p + 1), Read32(b, p + 9), Read64(b, p + 13))
    else if tag == ARGUMENT then ArgumentEvent(Read64(b, p + 1), Read64(b, p + 9))
    else if tag == MEMSET then MemsetEvent(Read64(b, p + 1), Read32(b, p + 9), Read64(b, p + 13), Read64(b, p + 21))
    else if tag == MEMMOVE then
      MemmoveEvent(Read64(b, p + 1), Read32(b, p + 9), Read64(b, p + 13), Read64(b, p + 21), Read64(b, p + 29))
    else if tag == END then EndEvent
    else PlaceHolderEvent
  }

  /** Read an event that starts, or with `backward` ends, at position cur: the
      event and its size. None for an unknown label, or outside the buffer. */
  function GetEvent(backward: bool, b: bytes, cur: nat): (r: Option<(Event, nat)>)
    ensures r.Some? ==> r.value.1 >= 1 && if backward then r.value.1 <= cur + 1 else cur + r.value.1 <= |b|
  {
    if cur >= |b| || SizeOf(b[cur]).None? then None
    else
      var size := SizeOf(b[cur]).value;
      var start := if backward then cur + 1 - size else cur;
      if start < 0 || start + size > |b| then None else Some((Decode(b, start, b[cur]), size))
  }

  /** Reading back what stands between a and c, a piece at a time. */
  lemma {:induction false} Piece64(b: bytes, a: bytes, x: uint64, c: bytes)
    requires b == a + (Word64(x) + c)
    ensures Read64(b, |a|) == x && b == (a + Word64(x)) + c && |a + Word64(x)| == |a| + 8
  {
    assert b == a + Word64(x) + c;
    ReadWord64(a, x, c);
  }

  lemma {:induction false} Piece32(b: bytes, a: bytes, x: uint32, c: bytes)
    requires b == a + (Word32(x) + c)
    ensures Read32(b, |a|) == x && b == (a + Word32(x)) + c && |a + Word32(x)| == |a| + 4
  {
    assert b == a + Word32(x) + c;
    ReadWord32(a, x, c);
  }

  lemma {:induction false} Head(b: bytes, a: bytes, tid: uint64, id: uint32, c: bytes)
    requires b == a + (Word64(tid) + (Word32(id) + c))
    ensures Read64(b, |a|) == tid && Read32(b, |a| + 8) == id
    ensures var a' := a + Word64(tid) + Word32(id); |a'| == |a| + 12 && b == a' + c
  {
    hide Read64, Read32, Word64, Word32;
    Piece64(b, a, tid, Word32(id) + c);
    Piece32(b, a + Word64(tid), id, c);
  }

  lemma {:induction false} Tail2(b: bytes, a: bytes, x: uint64, y: uint64, c: bytes)
    requires b == a + (Word64(x) + (Word64(y) + c))
    ensures Read64(b, |a|) == x && Read64(b, |a| + 8) == y
    ensures var a' := a + Word64(x) + Word64(y); |a'| == |a| + 16 && b == a' + c
  {
    hide Read64, Word64;
    Piece64(b, a, x, Word64(y) + c);
    Piece64(b, a + Word64(x), y, c);
  }

  lemma {:induction false} DecodeEncode(a: bytes, e: Event, c: bytes)
    ensures Decode(a + Encode(e) + c, |a|, Label(e)) == e
  {
    hide Read64, Read32, Word64, Word32, Encode, Decode;
    match e {
      case BasicBlockEvent(_, _) => DecodeBlock(a, e, c);
      case ReturnEvent(_, _, _) => DecodeReturn(a, e, c);
      case ArgumentEvent(_, _) => DecodeArgument(a, e, c);
      case MemoryEvent(_, _, _, _) => DecodeRange(a, e, c);
      case MemsetEvent(_, _, _, _) => DecodeRange(a, e, c);
      case MemmoveEvent(_, _, _, _, _) => DecodeMove(a, e, c);
      case EndEvent => DecodeMark(a, e, c);
      case PlaceHolderEvent => DecodeMark(a, e, c);
    }
  }

  lemma {:induction false} Wrapped(a: bytes, l: bytes, f: bytes, c: bytes)
    ensures a + (l + f + l) + c == (a + l) + (f + (l + c))
  {
  }

  lemma {:induction false} Regroup2(u: bytes, v: bytes, c: bytes)
    ensures (u + v) + c == u + (v + c)
  {
  }

  lemma {:induction false} Regroup3(u: bytes, v: bytes, w: bytes, c: bytes)
    ensures (u + v + w) + c == u + (v + (w + c))
  {
    assert (u + v + w) + c == (u + v) + (w + c);
    Regroup2(u, v, w + c);
  }

  lemma {:induction false} Regroup4(u: bytes, v: bytes, w: bytes, x: bytes, c: bytes)
    ensures (u + v + w + x) + c == u + (v + (w + (x + c)))
  {
    assert (u + v + w + x) + c == (u + v + w) + (x + c);
    Regroup3(u, v, w, x + c);
  }

  lemma {:induction false} Regroup5(u: bytes, v: bytes, w: bytes, x: bytes, y: bytes, c: bytes)
    ensures (u + v + w + x + y) + c == u + (v + (w + (x + (y + c))))
  {
    assert (u + v + w + x + y) + c == (u + v + w + x) + (y + c);
    Regroup4(u, v, w, x, y + c);
  }

  lemma {:induction false} DecodeMark(a: bytes, e: Event, c: bytes)
    requires !e.HasTid()
    ensures Decode(a + Encode(e) + c, |a|, Label(e)) == e
  {
  }

  lemma {:induction false} DecodeBlock(a: bytes, e: Event, c: bytes)
    requires e.BasicBlockEvent?
    ensures Decode(a + Encode(e) + c, |a|, Label(e)) == e
  {
    hide Read64, Read32, Word64, Word32;
    var b, a1, c1 := a + Encode(e) + c, a + [Label(e)], [Label(e)] + c;
    Wrapped(a, [Label(e)], Fields(e), c);
    Regroup2(Word64(e.tid), Word32(e.id), c1);
    Head(b, a1, e.tid, e.id, c1);
  }

  lemma {:induction false} DecodeReturn(a: bytes, e: Event, c: bytes)
    requires e.ReturnEvent?
    ensures Decode(a + Encode(e) + c, |a|, Label(e)) == e
  {
    hide Read64, Read32, Word64, Word32;
    var b, a1, c1 := a + Encode(e) + c, a + [Label(e)], [Label(e)] + c;
    Wrapped(a, [Label(e)], Fields(e), c);
    Regroup3(Word64(e.tid), Word32(e.id), Word64(e.fun), c1);
    Head(b, a1, e.tid, e.id, Word64(e.fun) + c1);
    Piece64(b, a1 + Word64(e.tid) + Word32(e.id), e.fun, c1);
  }

  lemma {:induction false} DecodeArgument(a: bytes, e: Event, c: bytes)
    requires e.ArgumentEvent?
    ensures Decode(a + Encode(e) + c, |a|, Label(e)) == e
  {
    hide Read64, Read32, Word64, Word32;
    var b, a1, c1 := a + Encode(e) + c, a + [Label(e)], [Label(e)] + c;
    Wrapped(a, [Label(e)], Fields(e), c);
    Regroup2(Word64(e.tid), Word64(e.arg), c1);
    Tail2(b, a1, e.tid, e.arg, c1);
  }

  lemma {:induction false} DecodeRange(a: bytes, e: Event, c: bytes)
    requires e.MemoryEvent? || e.MemsetEvent?
    ensures Decode(a + Encode(e) + c, |a|, Label(e)) == e
  {
    hide Read64, Read32, Word64, Word32;
    var b, a1, c1 := a + Encode(e) + c, a + [Label(e)], [Label(e)] + c;
    Wrapped(a, [Label(e)], Fields(e), c);
    Regroup4(Word64(e.tid), Word32(e.id), Word64(e.addr), Word64(e.length), c1);
    Head(b, a1, e.tid, e.id, Word64(e.addr) + (Word64(e.length) + c1));
    Tail2(b, a1 + Word64(e.tid) + Word32(e.id), e.addr, e.length, c1);
  }

  lemma {:induction false} DecodeMove(a: bytes, e: Event, c: bytes)
    requires e.MemmoveEvent?
    ensures Decode(a + Encode(e) + c, |a|, Label(e)) == e
  {
    hide Read64, Read32, Word64, Word32;
    var b, a1, c1 := a + Encode(e) + c, a + [Label(e)], [Label(e)] + c;
    Wrapped(a, [Label(e)], Fields(e), c);
    Regroup5(Word64(e.tid), Word32(e.id), Word64(e.dest), Word64(e.src), Word64(e.length), c1);
    Head(b, a1, e.tid, e.id, Word64(e.dest) + (Word64(e.src) + (Word64(e.length) + c1)));
    Tail2(b, a1 + Word64(e.tid) + Word32(e.id), e.dest, e.src, Word64(e.length) + c1);
    Piece64(b, a1 + Word64(e.tid) + Word32(e.id) + Word64(e.dest) + Word64(e.src), e.length, c1);
  }

  /** GetEvent reads an event back from its start. */
  lemma {:induction false} ReadForward(a: bytes, e: Event, c: bytes)
    ensures GetEvent(false, a + Encode(e) + c, |a|) == Some((e, |Encode(e)|))
  {
    hide Encode, Decode, SizeOf;
    var b := a + Encode(e) + c;
    assert b[|a|] == Encode(e)[0];
    DecodeEncode(a, e, c);
  }

  /** ... and from its last byte. */
  lemma {:induction false} ReadBackward(a: bytes, e: Event, c: bytes)
    ensures GetEvent(true, a + Encode(e) + c, |a| + |Encode(e)| - 1) == Some((e, |Encode(e)|))
  {
    hide Encode, Decode, SizeOf;
    var b := a + Encode(e) + c;
    var n := |Encode(e)|;
    assert b[|a| + n - 1] == Encode(e)[n - 1];
    DecodeEncode(a, e, c);
  }

  // ------------------------------------------------------------ whole blocks

  function EncodeAll(events: seq<Event>): bytes {
    if events == [] then [] else EncodeAll(events[..|events| - 1]) + Encode(events[|events| - 1])
  }

  lemma {:induction false} EncodeConcat(a: seq<Event>, b: seq<Event>)
    ensures EncodeAll(a + b) == EncodeAll(a) + EncodeAll(b)
    decreases |b|
  {
    hide Encode;
    if b == [] {
      assert a + b == a;
    } else {
      var n := |b| - 1;
      assert (a + b)[..|a + b| - 1] == a + b[..n];
      EncodeConcat(a, b[..n]);
      Regroup2(EncodeAll(a), EncodeAll(b[..n]), Encode(b[n]));
    }
  }

  lemma {:induction false} EncodeOne(e: Event)
    ensures EncodeAll([e]) == Encode(e)
  {
    assert [e][..0] == [];
  }

  /** All events of a buffer from position p on. */
  function Parse(b: bytes, p: nat): Option<seq<Event>>
    requires p <= |b|
    decreases |b| - p
  {
    if p == |b| then Some([])
    else
      match GetEvent(false, b, p)
      case None => None
      case Some((e, size)) =>
        match Parse(b, p + size)
        case None => None
        case Some(es) => Some([e] + es)
  }

  /** All events of a buffer that end at or before position p, last one first. */
  function ParseBack(b: bytes, p: nat): Option<seq<Event>>
    requires p <= |b|
    decreases p
  {
    if p == 0 then Some([])
    else
      match GetEvent(true, b, p - 1)
      case None => None
      case Some((e, size)) =>
        match ParseBack(b, p - size)
        case None => None
        case Some(es) => Some([e] + es)
  }

  function Reverse<T>(s: seq<T>): seq<T> {
    if s == [] then [] else [s[|s| - 1]] + Reverse(s[..|s| - 1])
  }

  lemma {:induction false} ParseEncoded(a: bytes, events: seq<Event>)
    ensures Parse(a + EncodeAll(events), |a|) == Some(events)
    decreases |events|
  {
    hide Encode, GetEvent;
    if events != [] {
      var e, rest := events[0], events[1..];
      assert events == [e] + rest;
      EncodeConcat([e], rest);
      EncodeOne(e);
      ReadForward(a, e, EncodeAll(rest));
      assert a + EncodeAll(events) == a + Encode(e) + EncodeAll(rest) == (a + Encode(e)) + EncodeAll(rest);
      ParseEncoded(a + Encode(e), rest);
    } else {
      assert a + EncodeAll(events) == a;
    }
  }

  /** Read backward, a block yields the same events in reverse. */
  lemma {:induction false} ParseBackEncoded(events: seq<Event>, c: bytes)
    ensures ParseBack(EncodeAll(events) + c, |EncodeAll(events)|) == Some(Reverse(events))
    decreases |events|
  {
    hide Encode, GetEvent;
    if events != [] {
      var n := |events| - 1;
      var a, e := EncodeAll(events[..n]), events[n];
      ReadBackward(a, e, c);
      assert EncodeAll(events) + c == a + (Encode(e) + c);
      ParseBackEncoded(events[..n], Encode(e) + c);
    }
  }
}
