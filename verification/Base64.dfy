/** Base 64 (lib/SlimmerUtil/base64.cpp, lines 36-121), in which source paths and
    code are stored. The specification is that of RFC 4648, section 4: 24 bits make
    four digits of 6 bits each. */
module Base64 {
  import opened Codec

  // ------------------------------------------------------------- the alphabet

  /** The letter of a digit: A-Z, a-z, 0-9, + and /. */
  function Letter(d: nat): (c: char)
    requires d < 64
    ensures IsLetter(c)
  {
    if d < 26 then ('A' as int + d) as char
    else if d < 52 then ('a' as int + d - 26) as char
    else if d < 62 then ('0' as int + d - 52) as char
    else if d == 62 then '+' else '/'
  }

  predicate IsLetter(c: char) { 'A' <= c <= 'Z' || 'a' <= c <= 'z' || '0' <= c <= '9' || c == '+' || c == '/' }

  /** Where a letter stands in the alphabet; what is not there is found at the
      position -1, which is 255 in a byte. */
  function Digit(c: char): (d: nat)
    ensures d < 64 <==> IsLetter(c)
    ensures d <= 255
  {
    if 'A' <= c <= 'Z' then c as int - 'A' as int
    else if 'a' <= c <= 'z' then c as int - 'a' as int + 26
    else if '0' <= c <= '9' then c as int - '0' as int + 52
    else if c == '+' then 62
    else if c == '/' then 63
    else 255
  }

  lemma {:induction false} DigitLetter(d: nat)
    requires d < 64
    ensures Digit(Letter(d)) == d
  {
  }

  // -------------------------------------------------------- the specification

  /** Three bytes as one number. */
  function Group(b: bytes): (n: nat)
    requires |b| == 3
    ensures n < 0x100_0000
  {
    b[0] as nat * 0x1_0000 + b[1] as nat * 0x100 + b[2] as nat
  }

  /** The four digits of a number of 24 bits, first one first. */
  function Letters(n: nat): (s: string)
    requires n < 0x100_0000
    ensures |s| == 4 && forall k :: 0 <= k < 4 ==> IsLetter(s[k])
  {
    [Letter(n / 0x4_0000), Letter(n / 0x1000 % 64), Letter(n / 64 % 64), Letter(n % 64)]
  }

  /** RFC 4648, section 4: three bytes at a time; at the end zero bits are added and
      '=' stands for what is missing. */
  function Encoded(b: bytes): string {
    if |b| == 0 then ""
    else if |b| == 1 then Letters(Group(b + [0, 0]))[..2] + "=="
    else if |b| == 2 then Letters(Group(b + [0]))[..3] + "="
    else Letters(Group(b[..3])) + Encoded(b[3..])
  }

  // ----------------------------------------------------------------- encoding

  /** Four digits out of three bytes; `SplitMasks` tells how they are masked out. */
  function Split(b: seq<nat>): (d: seq<nat>)
    requires |b| == 3 && forall k :: 0 <= k < 3 ==> b[k] < 256
    ensures |d| == 4 && forall k :: 0 <= k < 4 ==> d[k] < 64
  {
    [b[0] / 4, b[0] % 4 * 16 + b[1] / 16, b[1] % 16 * 4 + b[2] / 64, b[2] % 64]
  }

  /** Masking bits out and shifting them down divides; keeping the low bits and
      shifting them up leaves a remainder and multiplies it. */
  lemma {:induction false} HighBits(x: bv8)
    ensures ((x & 0xfc) >> 2) as nat == x as nat / 4 && ((x & 0xf0) >> 4) as nat == x as nat / 16
    ensures ((x & 0xc0) >> 6) as nat == x as nat / 64
  {
  }

  lemma {:induction false} LowBits(x: bv8)
    ensures ((x & 0x03) << 4) as nat == x as nat % 4 * 16 && ((x & 0x0f) << 2) as nat == x as nat % 16 * 4
    ensures (x & 0x3f) as nat == x as nat % 64
  {
  }

  lemma {:induction false} RaisedBits(x: bv8)
    ensures ((x & 0x0f) << 4) as nat == x as nat % 16 * 16 && ((x & 0x03) << 6) as nat == x as nat % 4 * 64
  {
  }

  lemma {:induction false} MiddleTwo(x: bv8)
    ensures ((x & 0x30) >> 4) as nat == x as nat / 16 % 4
  {
  }

  lemma {:induction false} MiddleFour(x: bv8)
    ensures ((x & 0x3c) >> 2) as nat == x as nat / 4 % 16
  {
  }

  /** The masks and shifts of the encoder; sums are taken in `int`. */
  lemma {:induction false} SplitMasks(x: bv8, y: bv8, z: bv8)
    ensures Split([x as nat, y as nat, z as nat]) ==
            [((x & 0xfc) >> 2) as nat, ((x & 0x03) << 4) as nat + ((y & 0xf0) >> 4) as nat,
             ((y & 0x0f) << 2) as nat + ((z & 0xc0) >> 6) as nat, (z & 0x3f) as nat]
  {
    HighBits(x);
    LowBits(x);
    HighBits(y);
    LowBits(y);
    HighBits(z);
    LowBits(z);
  }

  lemma {:induction false} SplitDigits(x: nat, y: nat, z: nat)
    requires x < 256 && y < 256 && z < 256
    ensures var n := x * 0x1_0000 + y * 0x100 + z;
            var d := Split([x, y, z]);
            d[0] == n / 0x4_0000 && d[1] == n / 0x1000 % 64 && d[2] == n / 64 % 64 && d[3] == n % 64
  {
    var n := x * 0x1_0000 + y * 0x100 + z;
    var (x1, x2) := (x / 4, x % 4);
    var (y1, y2) := (y / 16, y % 16);
    var (z1, z2) := (z / 64, z % 64);
    assert n == x1 * 0x4_0000 + x2 * 0x1_0000 + y1 * 0x1000 + y2 * 0x100 + z1 * 64 + z2;
    assert n / 64 == x1 * 0x1000 + x2 * 0x400 + y1 * 64 + y2 * 4 + z1;
    assert n / 0x1000 == x1 * 64 + x2 * 16 + y1;
    assert n / 0x4_0000 == x1;
  }

  /** The digits of three bytes are the digits of the number they make. */
  lemma {:induction false} SplitLetters(b: bytes)
    requires |b| == 3
    ensures var d := Split([b[0] as nat, b[1] as nat, b[2] as nat]);
            Letters(Group(b)) == [Letter(d[0]), Letter(d[1]), Letter(d[2]), Letter(d[3])]
  {
    hide Letter, Split;
    SplitDigits(b[0] as nat, b[1] as nat, b[2] as nat);
  }

  method SplitInto(a3: array<byte>, a4: array<nat>)
    requires a3.Length == 3 && a4.Length == 4
    modifies a4
    ensures forall k :: 0 <= k < 4 ==> a4[k] < 64
    ensures [Letter(a4[0]), Letter(a4[1]), Letter(a4[2]), Letter(a4[3])] == Letters(Group(a3[..]))
  {
    hide Letters, Letter, Group, Split;
    var d := Split([a3[0] as nat, a3[1] as nat, a3[2] as nat]);
    a4[0], a4[1], a4[2], a4[3] := d[0], d[1], d[2], d[3];
    SplitLetters(a3[..]);
  }

  method Append(ret: string, a4: array<nat>, n: nat) returns (ret': string)
    requires n <= a4.Length == 4 && forall k :: 0 <= k < 4 ==> a4[k] < 64
    ensures ret' == ret + [Letter(a4[0]), Letter(a4[1]), Letter(a4[2]), Letter(a4[3])][..n]
  {
    ret' := ret;
    ghost var all := [Letter(a4[0]), Letter(a4[1]), Letter(a4[2]), Letter(a4[3])];
    for j := 0 to n
      invariant ret' == ret + all[..j]
    {
      assert all[..j + 1] == all[..j] + [Letter(a4[j])];
      ret' := ret' + [Letter(a4[j])];
    }
  }

  /** The last one or two bytes. */
  method EncodeTail(ret: string, a3: array<byte>, a4: array<nat>, i: nat) returns (ret': string)
    requires a3.Length == 3 && a4.Length == 4 && 0 < i < 3
    modifies a3, a4
    ensures ret' == ret + Encoded(old(a3[..i]))
  {
    hide Letters, Group;
    ghost var b := a3[..i];
    for j := i to 3
      invariant a3[..i] == b && forall k :: i <= k < j ==> a3[k] == 0
    {
      a3[j] := 0;
    }
    assert a3[..] == if i == 1 then b + [0, 0] else b + [0];
    SplitInto(a3, a4);
    ret' := Append(ret, a4, i + 1);
    ghost var letters := Letters(Group(a3[..]))[..i + 1];
    assert ret' == ret + letters;
    var k := i;
    ghost var pad := "";
    while k < 3
      invariant i <= k <= 3 && ret' == ret + (letters + pad)
      invariant pad == if k == i then "" else if k == i + 1 then "=" else "=="
    {
      pad := pad + "=";
      ret' := ret' + ['='];
      k := k + 1;
    }
  }

  lemma {:induction false} EncodedStep(b: bytes, start: nat, g: bytes, ret: string)
    requires start + 3 <= |b| && g == b[start..start + 3]
    ensures ret + Encoded(b[start..]) == ret + Letters(Group(g))[..4] + Encoded(b[start + 3..])
  {
    hide Letters, Group;
    var rest, tail := b[start..], b[start + 3..];
    assert rest[..3] == g && rest[3..] == tail && |Letters(Group(g))| == 4;
    assert ret + (Letters(Group(g)) + Encoded(tail)) == ret + Letters(Group(g)) + Encoded(tail);
  }

  method Encode(b: bytes) returns (ret: string)
    ensures ret == Encoded(b)
  {
    hide Letters, Letter, Group;
    var a3, a4 := new byte[3], new nat[4];
    ret := "";
    var i, p := 0, 0;
    ghost var start := 0;
    assert b[start..] == b;
    while p < |b|
      invariant i < 3 && p <= |b| && p == start + i && forall k :: 0 <= k < i ==> a3[k] == b[start + k]
      invariant ret + Encoded(b[start..]) == Encoded(b)
    {
      a3[i] := b[p];
      i, p := i + 1, p + 1;
      if i == 3 {
        SplitInto(a3, a4);
        assert a3[..] == b[start..p];
        EncodedStep(b, start, a3[..], ret);
        ret := Append(ret, a4, 4);
        start := p;
        i := 0;
      }
    }
    if i > 0 {
      assert b[start..] == a3[..i];
      ret := EncodeTail(ret, a3, a4, i);
    }
  }

  // ----------------------------------------------------------------- decoding

  /** How many letters the string starts with: '=' is not one. */
  function Run(s: string): (n: nat)
    ensures n <= |s| && (forall k :: 0 <= k < n ==> IsLetter(s[k])) && (n < |s| ==> !IsLetter(s[n]))
  {
    if s == "" || !IsLetter(s[0]) then 0 else 1 + Run(s[1..])
  }

  /** Four digits as one number of 24 bits. */
  function Number(s: string): (n: nat)
    requires |s| == 4 && forall k :: 0 <= k < 4 ==> IsLetter(s[k])
    ensures n < 0x100_0000
  {
    Digit(s[0]) * 0x4_0000 + Digit(s[1]) * 0x1000 + Digit(s[2]) * 64 + Digit(s[3])
  }

  /** The three bytes of a number of 24 bits, first one first. */
  function Ungroup(n: nat): (b: bytes)
    requires n < 0x100_0000
    ensures |b| == 3
  {
    [(n / 0x1_0000) as byte, (n / 0x100 % 0x100) as byte, (n % 0x100) as byte]
  }

  /** RFC 4648, section 4, read backward: four digits at a time; at the end the
      missing digits count as zero bits, and a digit carries no whole byte of its
      own. Whatever follows the letters is not looked at. */
  function Decoded(s: string): bytes {
    var r := Run(s);
    if r == 0 then []
    else if r == 1 then []
    else if r == 2 then Ungroup(Number(s[..2] + "AA"))[..1]
    else if r == 3 then Ungroup(Number(s[..3] + "A"))[..2]
    else Ungroup(Number(s[..4])) + Decoded(s[4..])
  }

  /** Three bytes out of four digits; what does not fit into a byte is cut off. */
  function Join(d: seq<nat>): (b: bytes)
    requires |d| == 4
    ensures |b| == 3
  {
    [((d[0] * 4 + d[1] / 16 % 4) % 256) as byte,
     ((d[1] % 16 * 16 + d[2] / 4 % 16) % 256) as byte,
     ((d[2] % 4 * 64 + d[3]) % 256) as byte]
  }

  /** The masks and shifts of the decoder; sums, and the first shift, are taken in
      `int`. */
  lemma {:induction false} JoinMasks(w: bv8, x: bv8, y: bv8, z: bv8)
    ensures Join([w as nat, x as nat, y as nat, z as nat]) ==
            [((w as nat * 4 + ((x & 0x30) >> 4) as nat) % 256) as byte,
             ((((x & 0x0f) << 4) as nat + ((y & 0x3c) >> 2) as nat) % 256) as byte,
             ((((y & 0x03) << 6) as nat + z as nat) % 256) as byte]
  {
    MiddleTwo(x);
    RaisedBits(x);
    MiddleFour(y);
    RaisedBits(y);
  }

  /** Three times eight bits out of four times six. */
  lemma {:induction false} EightBits(w: nat, x: nat, y: nat, z: nat)
    requires w < 64 && x < 64 && y < 64 && z < 64
    ensures var n := w * 0x4_0000 + x * 0x1000 + y * 64 + z;
            && n / 0x1_0000 == w * 4 + x / 16 < 0x100
            && n / 0x100 % 0x100 == x % 16 * 16 + y / 4 < 0x100
            && n % 0x100 == y % 4 * 64 + z < 0x100
  {
    var n := w * 0x4_0000 + x * 0x1000 + y * 64 + z;
    var (x1, x2) := (x / 16, x % 16);
    var (y1, y2) := (y / 4, y % 4);
    assert n == (w * 4 + x1) * 0x1_0000 + (x2 * 16 + y1) * 0x100 + (y2 * 64 + z);
    assert n / 0x100 == (w * 4 + x1) * 0x100 + (x2 * 16 + y1);
    assert n / 0x1_0000 == w * 4 + x1;
  }

  /** Nothing is cut off if the digits are digits. */
  lemma {:induction false} NothingCut(w: nat, x: nat, y: nat, z: nat)
    requires w < 64 && x < 64 && y < 64 && z < 64
    ensures w * 4 + x / 16 < 256 && x % 16 * 16 + y / 4 < 256 && y % 4 * 64 + z < 256
    ensures Join([w, x, y, z]) == [(w * 4 + x / 16) as byte, (x % 16 * 16 + y / 4) as byte, (y % 4 * 64 + z) as byte]
  {
    var (x1, x2, y1, y2) := (x / 16, x % 16, y / 4, y % 4);
    assert x1 < 4 && x2 < 16 && y1 < 16 && y2 < 4;
    assert x1 % 4 == x1 && y1 % 16 == y1;
  }

  lemma {:induction false} JoinNumber(w: nat, x: nat, y: nat, z: nat)
    requires w < 64 && x < 64 && y < 64 && z < 64
    ensures Join([w, x, y, z]) == Ungroup(w * 0x4_0000 + x * 0x1000 + y * 64 + z)
  {
    hide Join;
    NothingCut(w, x, y, z);
    EightBits(w, x, y, z);
  }

  method FindDigits(a4: array<nat>)
    requires a4.Length == 4 && forall k :: 0 <= k < 4 ==> a4[k] < 256
    modifies a4
    ensures forall k :: 0 <= k < 4 ==> a4[k] == Digit(old(a4[k]) as char)
  {
    for i := 0 to 4
      invariant forall k :: 0 <= k < 4 ==> a4[k] == if k < i then Digit(old(a4[k]) as char) else old(a4[k])
    {
      a4[i] := Digit(a4[i] as char);
    }
  }

  method JoinInto(a4: array<nat>, ret: bytes, n: nat) returns (ret': bytes)
    requires a4.Length == 4 && n <= 3
    ensures ret' == ret + Join(a4[..])[..n]
  {
    var a3 := new byte[3];
    var b := Join(a4[..]);
    a3[0], a3[1], a3[2] := b[0], b[1], b[2];
    ret' := ret;
    for i := 0 to n
      invariant ret' == ret + b[..i]
    {
      assert b[..i + 1] == b[..i] + [a3[i]];
      ret' := ret' + [a3[i]];
    }
  }

  /** The last letters, when they are not four: the digit of what is missing is not
      found, and what it would have contributed is not output. */
  method DecodeTail(ret: bytes, a4: array<nat>, i: nat, ghost t: string) returns (ret': bytes)
    requires a4.Length == 4 && 0 < i < 4 && Run(t) == i
    requires forall k :: 0 <= k < i ==> a4[k] == t[k] as nat && a4[k] < 256
    modifies a4
    ensures ret' == ret + Decoded(t)
  {
    hide Digit;
    for j := i to 4
      invariant forall k :: 0 <= k < i ==> a4[k] == t[k] as nat
      invariant forall k :: i <= k < j ==> a4[k] == 0
    {
      a4[j] := 0;
    }
    FindDigits(a4);
    ret' := JoinInto(a4, ret, i - 1);
    TailBytes(t, a4[..]);
  }

  lemma {:induction false} TailBytes(t: string, d: seq<nat>)
    requires 0 < Run(t) < 4 && |d| == 4 && forall k :: 0 <= k < Run(t) ==> d[k] == Digit(t[k])
    ensures Decoded(t) == Join(d)[..Run(t) - 1]
  {
    hide Ungroup;
    var r := Run(t);
    assert Digit('A') == 0;
    if r == 2 {
      JoinNumber(d[0], d[1], 0, 0);
      assert Decoded(t) == Join([d[0], d[1], 0, 0])[..1];
    } else if r == 3 {
      JoinNumber(d[0], d[1], d[2], 0);
      assert Decoded(t) == Join([d[0], d[1], d[2], 0])[..2];
    }
  }

  lemma {:induction false} DecodedStep(s: string, start: nat, d: seq<nat>, ret: bytes)
    requires start + 4 <= |s| && |d| == 4
    requires forall k :: 0 <= k < 4 ==> IsLetter(s[start..][k]) && d[k] == Digit(s[start..][k])
    ensures ret + Decoded(s[start..]) == ret + Join(d)[..3] + Decoded(s[start + 4..])
  {
    hide Digit, Join, Ungroup;
    var t := s[start..];
    RunLeast(t, 4);
    assert t[4..] == s[start + 4..];
    JoinNumber(d[0], d[1], d[2], d[3]);
    assert d == [d[0], d[1], d[2], d[3]];
    assert Join(d)[..3] == Join(d) == Ungroup(Number(t[..4]));
    assert ret + (Join(d) + Decoded(t[4..])) == ret + Join(d) + Decoded(t[4..]);
  }

  method Decode(s: string) returns (ret: bytes)
    ensures ret == Decoded(s)
  {
    hide Digit, Decoded, Join;
    var a4 := new nat[4];
    ret := [];
    var i, p := 0, 0;
    ghost var start := 0;
    assert s[start..] == s;
    while p < |s| && s[p] != '=' && IsLetter(s[p])
      invariant i < 4 && p <= |s| && p == start + i
      invariant forall k :: 0 <= k < i ==> IsLetter(s[start..][k]) && a4[k] == s[start..][k] as nat
      invariant ret + Decoded(s[start..]) == Decoded(s)
    {
      a4[i] := s[p] as nat;
      i, p := i + 1, p + 1;
      if i == 4 {
        FindDigits(a4);
        DecodedStep(s, start, a4[..], ret);
        ret := JoinInto(a4, ret, 3);
        i := 0;
        start := p;
      }
    }
    RunIs(s[start..], i);
    if i > 0 {
      ret := DecodeTail(ret, a4, i, s[start..]);
    } else {
      NothingLeft(s[start..]);
    }
  }

  lemma {:induction false} RunIs(s: string, n: nat)
    requires n <= |s| && (forall k :: 0 <= k < n ==> IsLetter(s[k])) && (n < |s| ==> !IsLetter(s[n]))
    ensures Run(s) == n
  {
    if n > 0 { RunIs(s[1..], n - 1); }
  }

  lemma {:induction false} RunLeast(s: string, n: nat)
    requires n <= |s| && forall k :: 0 <= k < n ==> IsLetter(s[k])
    ensures Run(s) >= n
  {
    if n > 0 { RunLeast(s[1..], n - 1); }
  }

  lemma {:induction false} NothingLeft(t: string)
    requires Run(t) == 0
    ensures Decoded(t) == []
  {
  }

  // ---------------------------------------------------------------- both ways

  /** A number is made up of its four digits. */
  lemma {:induction false} FourDigits(n: nat)
    requires n < 0x100_0000
    ensures n / 0x4_0000 * 0x4_0000 + n / 0x1000 % 64 * 0x1000 + n / 64 % 64 * 64 + n % 64 == n
  {
    var m := n / 64;
    var l := m / 64;
    assert n == m * 64 + n % 64;
    assert m == l * 64 + m % 64;
    assert l == n / 0x1000;
    assert l / 64 == n / 0x4_0000;
  }

  lemma {:induction false} NumberLetters(n: nat)
    requires n < 0x100_0000
    ensures Number(Letters(n)) == n
  {
    hide Letter, Digit;
    DigitLetter(n / 0x4_0000);
    DigitLetter(n / 0x1000 % 64);
    DigitLetter(n / 64 % 64);
    DigitLetter(n % 64);
    FourDigits(n);
  }

  lemma {:induction false} UngroupGroup(b: bytes)
    requires |b| == 3
    ensures Ungroup(Group(b)) == b
  {
  }

  /** Decoding gives back every byte string that was encoded. */
  lemma {:induction false} DecodedEncoded(b: bytes)
    ensures Decoded(Encoded(b)) == b
    decreases |b|
  {
    var s := Encoded(b);
    if |b| >= 3 {
      var n := Group(b[..3]);
      DecodedEncoded(b[3..]);
      NumberLetters(n);
      UngroupGroup(b[..3]);
      FourLetters(Letters(n), Encoded(b[3..]));
      assert b == b[..3] + b[3..];
    } else if |b| > 0 {
      EndLetters(b);
    }
  }

  lemma {:induction false} FourLetters(four: string, rest: string)
    requires |four| == 4 && forall k :: 0 <= k < 4 ==> IsLetter(four[k])
    ensures Decoded(four + rest) == Ungroup(Number(four)) + Decoded(rest)
  {
    var s := four + rest;
    assert s[..4] == four && s[4..] == rest;
    RunLeast(s, 4);
  }

  /** One byte fills two digits, two bytes fill three; the others are zero. */
  lemma {:induction false} EndLetters(b: bytes)
    requires |b| == 1 || |b| == 2
    ensures Decoded(Encoded(b)) == b
  {
    var g := if |b| == 1 then b + [0, 0] else b + [0];
    var (n, k) := (Group(g), |b| + 1);
    var letters, s := Letters(n), Encoded(b);
    assert s[..k] == letters[..k];
    RunIs(s, k);
    PadLetters(g, |b|);
    assert letters == s[..k] + if |b| == 1 then "AA" else "A";
    NumberLetters(n);
    UngroupGroup(g);
    assert g[..|b|] == b;
  }

  lemma {:induction false} PadLetters(g: bytes, k: nat)
    requires |g| == 3 && 1 <= k <= 2 && g[2] == 0 && (k == 1 ==> g[1] == 0)
    ensures Letters(Group(g))[3] == 'A' && (k == 1 ==> Letters(Group(g))[2] == 'A')
  {
    var n := Group(g);
    var (x, y) := (g[0] as nat, g[1] as nat);
    assert n == 64 * (x * 1024 + y * 4);
    assert n % 64 == 0 && n / 64 == x * 1024 + y * 4;
    assert k == 1 ==> n / 64 == 64 * (x * 16) && n / 64 % 64 == 0;
    assert Letter(0) == 'A';
  }

  // ---------------------------------------------------------- digit by digit

  function Upper(): string { "ABCDEFGHIJKLMNOPQRSTUVWXYZ" }

  function Lower(): string { "abcdefghijklmnopqrstuvwxyz" }

  function Others(): string { "0123456789+/" }

  /** The letters, as they stand in the alphabet. */
  function Alphabet(): string { Upper() + Lower() + Others() }

  /** Bit j of a byte string, the highest bit of each byte first; zero past its end. */
  function Bit(b: bytes, j: nat): nat {
    if j / 8 < |b| then b[j / 8] as nat / Weight(7 - j % 8) % 2 else 0
  }

  function Weight(k: nat): (w: nat)
    ensures w > 0
  {
    if k == 0 then 1 else 2 * Weight(k - 1)
  }

  /** Six bits, from bit j on, as a number. */
  function Six(b: bytes, j: nat): (d: nat)
    ensures d < 64
  {
    32 * Bit(b, j) + 16 * Bit(b, j + 1) + 8 * Bit(b, j + 2) + 4 * Bit(b, j + 3) + 2 * Bit(b, j + 4) + Bit(b, j + 5)
  }

  lemma {:induction false} Weights()
    ensures Weight(0) == 1 && Weight(1) == 2 && Weight(2) == 4 && Weight(3) == 8
    ensures Weight(4) == 16 && Weight(5) == 32 && Weight(6) == 64 && Weight(7) == 128
  {
    assert Weight(1) == 2 && Weight(2) == 4 && Weight(3) == 8 && Weight(4) == 16;
  }

  lemma {:induction false} UpperIs(d: nat)
    requires d < 26
    ensures |Upper()| == 26 && Upper()[d] == Letter(d)
  {
  }

  lemma {:induction false} LowerIs(d: nat)
    requires 26 <= d < 52
    ensures |Lower()| == 26 && Lower()[d - 26] == Letter(d)
  {
  }

  lemma {:induction false} OthersIs(d: nat)
    requires 52 <= d < 64
    ensures |Others()| == 12 && Others()[d - 52] == Letter(d)
  {
  }

  /** The letter of a digit is the one at its place in the alphabet. */
  lemma {:induction false} AlphabetIs(d: nat)
    requires d < 64
    ensures |Alphabet()| == 64 && Letter(d) == Alphabet()[d]
  {
    hide Upper, Lower, Others, Letter;
    UpperIs(if d < 26 then d else 0);
    LowerIs(if 26 <= d < 52 then d else 26);
    OthersIs(if d < 52 then 52 else d);
    Thirds(Upper(), Lower(), Others(), d);
  }

  lemma {:induction false} Thirds(a: string, b: string, c: string, d: nat)
    requires d < |a| + |b| + |c|
    ensures (a + b + c)[d] ==
            if d < |a| then a[d] else if d < |a| + |b| then b[d - |a|] else c[d - |a| - |b|]
  {
  }

  predicate AreBits(b: seq<nat>) { |b| == 8 && forall k :: 0 <= k < 8 ==> b[k] < 2 }

  /** What bits make up, divided. */
  lemma {:induction false} High(b: seq<nat>, x: nat)
    requires AreBits(b)
    requires x == 128 * b[0] + 64 * b[1] + 32 * b[2] + 16 * b[3] + 8 * b[4] + 4 * b[5] + 2 * b[6] + b[7]
    ensures x / 128 == b[0] && x / 64 == 2 * b[0] + b[1] && x / 32 == 4 * b[0] + 2 * b[1] + b[2]
    ensures x / 16 == 8 * b[0] + 4 * b[1] + 2 * b[2] + b[3]
    ensures x / 8 == 16 * b[0] + 8 * b[1] + 4 * b[2] + 2 * b[3] + b[4]
    ensures x / 4 == 32 * b[0] + 16 * b[1] + 8 * b[2] + 4 * b[3] + 2 * b[4] + b[5]
    ensures x / 2 == 64 * b[0] + 32 * b[1] + 16 * b[2] + 8 * b[3] + 4 * b[4] + 2 * b[5] + b[6]
  {
  }

  lemma {:induction false} Low(b: seq<nat>, x: nat)
    requires AreBits(b)
    requires x == 128 * b[0] + 64 * b[1] + 32 * b[2] + 16 * b[3] + 8 * b[4] + 4 * b[5] + 2 * b[6] + b[7]
    ensures x % 4 == 2 * b[6] + b[7] && x % 16 == 8 * b[4] + 4 * b[5] + 2 * b[6] + b[7]
    ensures x % 64 == 32 * b[2] + 16 * b[3] + 8 * b[4] + 4 * b[5] + 2 * b[6] + b[7]
  {
    High(b, x);
  }

  lemma {:induction false} Halves(x: nat, h1: nat, h2: nat, h3: nat, h4: nat, h5: nat, h6: nat)
    requires h1 == x / 2 && h2 == h1 / 2 && h3 == h2 / 2 && h4 == h3 / 2 && h5 == h4 / 2 && h6 == h5 / 2
    ensures h2 == x / 4 && h3 == x / 8 && h4 == x / 16 && h5 == x / 32 && h6 == x / 64 && h6 / 2 == x / 128
    ensures x == 128 * (h6 / 2) + 64 * (h6 % 2) + 32 * (h5 % 2) + 16 * (h4 % 2) + 8 * (h3 % 2) + 4 * (h2 % 2)
                 + 2 * (h1 % 2) + x % 2
  {
    assert x == 2 * h1 + x % 2;
    assert x == 4 * h2 + 2 * (h1 % 2) + x % 2;
    assert x == 8 * h3 + 4 * (h2 % 2) + 2 * (h1 % 2) + x % 2;
    assert x == 16 * h4 + 8 * (h3 % 2) + 4 * (h2 % 2) + 2 * (h1 % 2) + x % 2;
    assert x == 32 * h5 + 16 * (h4 % 2) + 8 * (h3 % 2) + 4 * (h2 % 2) + 2 * (h1 % 2) + x % 2;
    assert x == 64 * h6 + 32 * (h5 % 2) + 16 * (h4 % 2) + 8 * (h3 % 2) + 4 * (h2 % 2) + 2 * (h1 % 2) + x % 2;
  }

  /** The bits of a byte, highest first. */
  function BitsOf(x: nat): (b: seq<nat>)
    ensures AreBits(b)
  {
    [x / 128 % 2, x / 64 % 2, x / 32 % 2, x / 16 % 2, x / 8 % 2, x / 4 % 2, x / 2 % 2, x % 2]
  }

  lemma {:induction false} MadeOfBits(x: nat)
    requires x < 256
    ensures var b := BitsOf(x);
            x == 128 * b[0] + 64 * b[1] + 32 * b[2] + 16 * b[3] + 8 * b[4] + 4 * b[5] + 2 * b[6] + b[7]
  {
    Halves(x, x / 2, x / 2 / 2, x / 2 / 2 / 2, x / 2 / 2 / 2 / 2, x / 2 / 2 / 2 / 2 / 2, x / 2 / 2 / 2 / 2 / 2 / 2);
    assert x / 128 < 2;
  }

  /** The six bits from 6k on, out of 24, are digit k. */
  lemma {:induction false} GroupDigits(g: bytes, k: nat)
    requires |g| == 3 && k < 4
    ensures Letters(Group(g))[k] == Letter(Six(g, 6 * k))
  {
    hide Letter;
    Weights();
    SplitLetters(g);
    var (x, y, z) := (g[0] as nat, g[1] as nat, g[2] as nat);
    assert Split([x, y, z])[k] == Six(g, 6 * k) by { SplitSix(g, k); }
  }

  /** The parts that the encoder takes of a byte. */
  lemma {:induction false} Parts(x: nat)
    requires x < 256
    ensures var b := BitsOf(x);
            && x / 4 == 32 * b[0] + 16 * b[1] + 8 * b[2] + 4 * b[3] + 2 * b[4] + b[5]
            && x / 16 == 8 * b[0] + 4 * b[1] + 2 * b[2] + b[3] && x / 64 == 2 * b[0] + b[1]
            && x % 4 == 2 * b[6] + b[7] && x % 16 == 8 * b[4] + 4 * b[5] + 2 * b[6] + b[7]
            && x % 64 == 32 * b[2] + 16 * b[3] + 8 * b[4] + 4 * b[5] + 2 * b[6] + b[7]
  {
    hide BitsOf;
    MadeOfBits(x);
    High(BitsOf(x), x);
    Low(BitsOf(x), x);
  }

  /** Six bits from j on, by the bits of the bytes they lie in. */
  lemma {:induction false} SixIs(g: bytes, j: nat)
    requires (j + 5) / 8 < |g|
    ensures Six(g, j) == 32 * ByteBit(g, j) + 16 * ByteBit(g, j + 1) + 8 * ByteBit(g, j + 2) + 4 * ByteBit(g, j + 3)
                         + 2 * ByteBit(g, j + 4) + ByteBit(g, j + 5)
  {
    hide Bit, BitsOf;
    BitIs(g, j);
    BitIs(g, j + 1);
    BitIs(g, j + 2);
    BitIs(g, j + 3);
    BitIs(g, j + 4);
    BitIs(g, j + 5);
  }

  function ByteBit(g: bytes, j: nat): nat {
    if j / 8 < |g| then BitsOf(g[j / 8] as nat)[j % 8] else 0
  }

  lemma {:induction false} FirstSix(g: bytes)
    requires |g| == 3
    ensures Six(g, 0) == g[0] as nat / 4
  {
    hide BitsOf, Six;
    Parts(g[0] as nat);
    SixIs(g, 0);
  }

  lemma {:induction false} SecondSix(g: bytes)
    requires |g| == 3
    ensures Six(g, 6) == g[0] as nat % 4 * 16 + g[1] as nat / 16
  {
    hide BitsOf, Six;
    Parts(g[0] as nat);
    Parts(g[1] as nat);
    SixIs(g, 6);
  }

  lemma {:induction false} ThirdSix(g: bytes)
    requires |g| == 3
    ensures Six(g, 12) == g[1] as nat % 16 * 4 + g[2] as nat / 64
  {
    hide BitsOf, Six;
    Parts(g[1] as nat);
    Parts(g[2] as nat);
    SixIs(g, 12);
  }

  lemma {:induction false} FourthSix(g: bytes)
    requires |g| == 3
    ensures Six(g, 18) == g[2] as nat % 64
  {
    hide BitsOf, Six;
    Parts(g[2] as nat);
    SixIs(g, 18);
  }

  lemma {:induction false} SplitSix(g: bytes, k: nat)
    requires |g| == 3 && k < 4
    ensures Split([g[0] as nat, g[1] as nat, g[2] as nat])[k] == Six(g, 6 * k)
  {
    hide Six;
    FirstSix(g);
    SecondSix(g);
    ThirdSix(g);
    FourthSix(g);
  }

  lemma {:induction false} BitIs(g: bytes, j: nat)
    requires j / 8 < |g|
    ensures Bit(g, j) == ByteBit(g, j)
  {
    Weights();
    var k := j % 8;
    assert k == 0 || k == 1 || k == 2 || k == 3 || k == 4 || k == 5 || k == 6 || k == 7;
  }

  lemma {:induction false} BitLater(b: bytes, n: nat)
    requires |b| >= 3
    ensures Bit(b, n + 24) == Bit(b[3..], n)
  {
    hide Weight;
    assert (n + 24) / 8 == n / 8 + 3 && (n + 24) % 8 == n % 8;
  }

  lemma {:induction false} SixLater(b: bytes, j: nat)
    requires |b| >= 3
    ensures Six(b, j + 24) == Six(b[3..], j)
  {
    hide Bit;
    BitLater(b, j);
    BitLater(b, j + 1);
    BitLater(b, j + 2);
    BitLater(b, j + 3);
    BitLater(b, j + 4);
    BitLater(b, j + 5);
  }

  /** What stands after the last byte does not matter, if it is zero. */
  lemma {:induction false} SixSame(b: bytes, g: bytes, j: nat)
    requires |g| == 3 && j + 5 < 24
    requires forall i :: 0 <= i < 3 ==> g[i] == if i < |b| then b[i] else 0
    ensures Six(b, j) == Six(g, j)
  {
    hide Weight;
    forall n: nat | n < 24 ensures Bit(b, n) == Bit(g, n) {
      var (i, w) := (n / 8, Weight(7 - n % 8));
      if i >= |b| { assert 0 / w % 2 == 0; }
    }
  }

  /** RFC 4648, section 4, bit by bit: letter k of what is encoded is the letter in the
      alphabet of the six bits from 6k on, and '=' where there are none; the letters are as
      many as there are groups of three bytes begun, times four. */
  lemma {:induction false} EncodedBits(b: bytes, k: nat)
    ensures |Encoded(b)| == (|b| + 2) / 3 * 4
    ensures k < |Encoded(b)| ==>
              |Alphabet()| == 64
              && Encoded(b)[k] == if 6 * k < 8 * |b| then Alphabet()[Six(b, 6 * k)] else '='
    decreases |b|
  {
    hide Six, Alphabet, Letter, Letters, Group;
    if |b| >= 3 {
      EncodedBits(b[3..], if k < 4 then 0 else k - 4);
      assert (|b| + 2) / 3 == (|b| - 3 + 2) / 3 + 1;
      AlphabetIs(Six(b, 6 * k));
      if k < 4 {
        GroupDigits(b[..3], k);
        SixSame(b, b[..3], 6 * k);
      } else {
        SixLater(b, 6 * (k - 4));
      }
    } else if |b| > 0 {
      EncodedEnd(b, k);
    }
  }

  lemma {:induction false} EncodedEnd(b: bytes, k: nat)
    requires 0 < |b| < 3
    ensures |Encoded(b)| == 4
    ensures k < 4 ==> |Alphabet()| == 64
                      && Encoded(b)[k] == if 6 * k < 8 * |b| then Alphabet()[Six(b, 6 * k)] else '='
  {
    hide Six, Alphabet, Letter, Letters, Group;
    var g := if |b| == 1 then b + [0, 0] else b + [0];
    AlphabetIs(Six(b, 6 * k));
    if k < 4 {
      GroupDigits(g, k);
      SixSame(b, g, 6 * k);
    }
  }

  // ------------------------------------------------------------- byte by byte

  /** Bit j of the digits that a string starts with, the highest bit of each first; zero
      past them. */
  function DigitBit(s: string, j: nat): nat {
    if j / 6 < Run(s) then Digit(s[j / 6]) / Weight(5 - j % 6) % 2 else 0
  }

  /** Eight bits, from bit j on, as a number. */
  function Eight(s: string, j: nat): nat {
    128 * DigitBit(s, j) + 64 * DigitBit(s, j + 1) + 32 * DigitBit(s, j + 2) + 16 * DigitBit(s, j + 3)
    + 8 * DigitBit(s, j + 4) + 4 * DigitBit(s, j + 5) + 2 * DigitBit(s, j + 6) + DigitBit(s, j + 7)
  }

  lemma {:induction false} DigitBitIs(t: string, j: nat)
    requires j / 6 < Run(t)
    ensures DigitBit(t, j) == LetterBit(t, j)
  {
    hide Digit;
    Weights();
    var k := j % 6;
    assert k == 0 || k == 1 || k == 2 || k == 3 || k == 4 || k == 5;
  }

  /** A digit has no bits above its six. */
  lemma {:induction false} SixBits(d: nat)
    requires d < 64
    ensures var b := BitsOf(d);
            && b[0] == 0 && b[1] == 0
            && d == 32 * b[2] + 16 * b[3] + 8 * b[4] + 4 * b[5] + 2 * b[6] + b[7]
            && d / 16 == 2 * b[2] + b[3] && d / 4 == 8 * b[2] + 4 * b[3] + 2 * b[4] + b[5]
            && d % 16 == 8 * b[4] + 4 * b[5] + 2 * b[6] + b[7] && d % 4 == 2 * b[6] + b[7]
  {
    Parts(d);
    MadeOfBits(d);
    hide BitsOf;
    HighZero(BitsOf(d), d);
  }

  lemma {:induction false} HighZero(b: seq<nat>, d: nat)
    requires AreBits(b) && d < 64
    requires d == 128 * b[0] + 64 * b[1] + 32 * b[2] + 16 * b[3] + 8 * b[4] + 4 * b[5] + 2 * b[6] + b[7]
    ensures b[0] == 0 && b[1] == 0
  {
  }

  function LetterBit(t: string, j: nat): nat {
    if j / 6 < |t| then BitsOf(Digit(t[j / 6]))[j % 6 + 2] else 0
  }

  lemma {:induction false} EightIs(t: string, j: nat)
    requires (j + 7) / 6 < Run(t)
    ensures Eight(t, j) ==
              128 * LetterBit(t, j) + 64 * LetterBit(t, j + 1) + 32 * LetterBit(t, j + 2) + 16 * LetterBit(t, j + 3)
              + 8 * LetterBit(t, j + 4) + 4 * LetterBit(t, j + 5) + 2 * LetterBit(t, j + 6) + LetterBit(t, j + 7)
  {
    hide LetterBit, DigitBit, Run;
    DigitBitIs(t, j);
    DigitBitIs(t, j + 1);
    DigitBitIs(t, j + 2);
    DigitBitIs(t, j + 3);
    DigitBitIs(t, j + 4);
    DigitBitIs(t, j + 5);
    DigitBitIs(t, j + 6);
    DigitBitIs(t, j + 7);
  }

  lemma {:induction false} BitAt(t: string, d: nat, k: nat)
    requires d < |t| && k < 6
    ensures LetterBit(t, 6 * d + k) == BitsOf(Digit(t[d]))[k + 2]
  {
    hide Digit, BitsOf;
    assert (6 * d + k) / 6 == d && (6 * d + k) % 6 == k;
  }

  /** All bits of digit d. */
  lemma {:induction false} BitsAt(t: string, d: nat)
    requires d < |t|
    ensures var b := BitsOf(Digit(t[d]));
            && LetterBit(t, 6 * d) == b[2] && LetterBit(t, 6 * d + 1) == b[3] && LetterBit(t, 6 * d + 2) == b[4]
            && LetterBit(t, 6 * d + 3) == b[5] && LetterBit(t, 6 * d + 4) == b[6] && LetterBit(t, 6 * d + 5) == b[7]
  {
    hide Digit, BitsOf, LetterBit;
    BitAt(t, d, 0);
    BitAt(t, d, 1);
    BitAt(t, d, 2);
    BitAt(t, d, 3);
    BitAt(t, d, 4);
    BitAt(t, d, 5);
  }

  lemma {:induction false} FirstEight(t: string)
    requires |t| == 4 && Run(t) == 4
    ensures Eight(t, 0) == Digit(t[0]) * 4 + Digit(t[1]) / 16
  {
    hide BitsOf, Digit, Eight, Run, LetterBit;
    LettersOf(t);
    SixBits(Digit(t[0]));
    SixBits(Digit(t[1]));
    BitsAt(t, 0);
    BitsAt(t, 1);
    EightIs(t, 0);
  }

  lemma {:induction false} SecondEight(t: string)
    requires |t| == 4 && Run(t) == 4
    ensures Eight(t, 8) == Digit(t[1]) % 16 * 16 + Digit(t[2]) / 4
  {
    hide BitsOf, Digit, Eight, Run, LetterBit;
    LettersOf(t);
    SixBits(Digit(t[1]));
    SixBits(Digit(t[2]));
    BitsAt(t, 1);
    BitsAt(t, 2);
    EightIs(t, 8);
  }

  lemma {:induction false} ThirdEight(t: string)
    requires |t| == 4 && Run(t) == 4
    ensures Eight(t, 16) == Digit(t[2]) % 4 * 64 + Digit(t[3])
  {
    hide BitsOf, Digit, Eight, Run, LetterBit;
    LettersOf(t);
    SixBits(Digit(t[2]));
    SixBits(Digit(t[3]));
    BitsAt(t, 2);
    BitsAt(t, 3);
    EightIs(t, 16);
  }

  lemma {:induction false} LettersOf(t: string)
    requires |t| == 4 && Run(t) == 4
    ensures forall k :: 0 <= k < 4 ==> IsLetter(t[k]) && Digit(t[k]) < 64
  {
    hide Digit;
  }

  lemma {:induction false} FourBytes(t: string, k: nat)
    requires |t| == 4 && Run(t) == 4 && k < 3 && forall j :: 0 <= j < 4 ==> IsLetter(t[j])
    ensures Ungroup(Number(t))[k] as nat == Eight(t, 8 * k)
  {
    hide Digit, Eight, Run;
    LettersOf(t);
    FirstEight(t);
    SecondEight(t);
    ThirdEight(t);
    EightBits(Digit(t[0]), Digit(t[1]), Digit(t[2]), Digit(t[3]));
  }

  lemma {:induction false} EightSame(s: string, t: string, j: nat)
    requires (j + 7) / 6 < Run(s) && (j + 7) / 6 < Run(t)
    requires forall i :: 0 <= i <= (j + 7) / 6 ==> s[i] == t[i]
    ensures Eight(s, j) == Eight(t, j)
  {
    hide Digit, Weight, Run;
    forall n: nat | n <= j + 7 ensures DigitBit(s, n) == DigitBit(t, n) {
      assert n / 6 <= (j + 7) / 6;
    }
  }

  lemma {:induction false} EightLater(s: string, j: nat)
    requires Run(s) >= 4
    ensures Run(s[4..]) == Run(s) - 4 && Eight(s, j + 24) == Eight(s[4..], j)
  {
    hide Digit, Weight;
    RunIs(s[4..], Run(s) - 4);
    forall n: nat ensures DigitBit(s, n + 24) == DigitBit(s[4..], n) {
      assert (n + 24) / 6 == n / 6 + 4 && (n + 24) % 6 == n % 6;
    }
  }

  /** ... and read backward: byte k of what is decoded is made up of the eight bits from 8k
      on of the digits the string starts with, and there are as many bytes as those bits
      fill. */
  lemma {:induction false} DecodedBits(s: string, k: nat)
    ensures |Decoded(s)| == Run(s) * 6 / 8
    ensures k < |Decoded(s)| ==> Decoded(s)[k] as nat == Eight(s, 8 * k)
    decreases |s|
  {
    hide Digit, Eight, Number, Ungroup;
    var r := Run(s);
    if r >= 4 {
      EightLater(s, if k < 3 then 0 else 8 * (k - 3));
      DecodedBits(s[4..], if k < 3 then 0 else k - 3);
      assert r * 6 / 8 == (r - 4) * 6 / 8 + 3;
      if k < 3 {
        RunIs(s[..4], 4);
        FourBytes(s[..4], k);
        EightSame(s, s[..4], 8 * k);
      }
    } else if r >= 2 {
      DecodedEnd(s, k);
    }
  }

  lemma {:induction false} DecodedEnd(s: string, k: nat)
    requires 2 <= Run(s) < 4
    ensures |Decoded(s)| == Run(s) - 1
    ensures k < |Decoded(s)| ==> Decoded(s)[k] as nat == Eight(s, 8 * k)
  {
    hide Digit, Eight, Number, Ungroup;
    var t := if Run(s) == 2 then s[..2] + "AA" else s[..3] + "A";
    RunIs(t, 4);
    if k < Run(s) - 1 {
      FourBytes(t, k);
      EightSame(s, t, 8 * k);
    }
  }
}
