/** Variable-length and big-endian integers, as the loops that write and read them. */
module Codec {
  import opened Basics
  import opened Values

  const U64: nat := 0x1_0000_0000_0000_0000

  datatype Read<T> = Got(value: T, n: nat) | Malformed

  // ------------------------------------ varints ------------------------------------

  /** Unsigned LEB128: seven bits a byte, low bits first, the top bit set on all but the last. */
  function Varint(v: nat): (s: seq<Byte>)
    ensures |s| >= 1
  {
    if v < 128 then [v] else [v % 128 + 128] + Varint(v / 128)
  }

  /** The value encoded at the start of p in at most `left` bytes, and how many it takes. */
  function Leb(p: seq<Byte>, left: nat): (r: Read<nat>)
    ensures r.Got? ==> 1 <= r.n <= |p|
    decreases left
  {
    if left == 0 || p == [] then Malformed
    else if p[0] < 128 then Got(p[0], 1)
    else
      var r := Leb(p[1..], left - 1);
      if r.Malformed? then Malformed else Got(p[0] - 128 + 128 * r.value, r.n + 1)
  }

  /** What the reader returns: at most ten bytes, and the value in 64 bits. */
  function ReadVarint(p: seq<Byte>): (r: Read<nat>)
    ensures r.Got? ==> 1 <= r.n <= |p| && r.value < U64
  {
    var r := Leb(p, 10);
    if r.Malformed? then Malformed else Got(r.value % U64, r.n)
  }

  lemma {:induction false} LebInverts(v: nat, tail: seq<Byte>, left: nat)
    requires |Varint(v)| <= left
    ensures Leb(Varint(v) + tail, left) == Got(v, |Varint(v)|)
    decreases v
  {
    var s := Varint(v);
    if v >= 128 {
      LebInverts(v / 128, tail, left - 1);
      assert (s + tail)[1..] == Varint(v / 128) + tail;
    }
  }

  lemma {:induction false} LebShort(p: seq<Byte>, left: nat)
    ensures Leb(p, left).Got? ==> Leb(p, left).n <= left
    decreases left
  {
    if left > 0 && p != [] && p[0] >= 128 { LebShort(p[1..], left - 1); }
  }

  /** No number takes more than ten bytes. */
  lemma AtMostTenBytes(p: seq<Byte>)
    ensures ReadVarint(p).Got? ==> ReadVarint(p).n <= 10
  {
    LebShort(p, 10);
  }

  lemma {:induction false} LebCut(v: nat, k: nat, left: nat)
    requires k < |Varint(v)|
    ensures Leb(Varint(v)[..k], left).Malformed?
    decreases v
  {
    if k > 0 && left > 0 {
      LebCut(v / 128, k - 1, left - 1);
      assert Varint(v)[..k][1..] == Varint(v / 128)[..k - 1];
    }
  }

  /** A number that lost its last bytes is malformed. */
  lemma VarintCut(v: nat, k: nat)
    requires k < |Varint(v)|
    ensures ReadVarint(Varint(v)[..k]).Malformed?
  {
    LebCut(v, k, 10);
  }

  function Pow128(n: nat): nat { if n == 0 then 1 else 128 * Pow128(n - 1) }

  lemma {:induction false} VarintLength(v: nat, n: nat)
    requires n >= 1 && v < Pow128(n)
    ensures |Varint(v)| <= n
  {
    if v >= 128 {
      Pow128Quot(v, n);
      VarintLength(v / 128, n - 1);
    }
  }

  lemma Pow128Quot(v: nat, n: nat)
    requires n >= 1 && 128 <= v < Pow128(n)
    ensures n >= 2 && v / 128 < Pow128(n - 1)
  {
    assert Pow128(1) == 128 * Pow128(0) == 128;
    assert Pow128(n) == 128 * Pow128(n - 1);
  }

  lemma TenBytes()
    ensures U64 <= Pow128(10)
  {
    assert Pow128(2) == 128 * Pow128(1) == 16384;
    assert Pow128(4) == 128 * Pow128(3) == 16384 * 16384;
    assert Pow128(6) == 128 * Pow128(5) == 16384 * 16384 * 16384;
    assert Pow128(8) == 128 * Pow128(7) == 16384 * 16384 * 16384 * 16384;
    assert Pow128(10) == 128 * Pow128(9) == 16384 * 16384 * 16384 * 16384 * 16384;
  }

  /** Reading inverts writing on every 64-bit value, whatever follows it. */
  lemma VarintRoundTrip(v: nat, tail: seq<Byte>)
    requires v < U64
    ensures ReadVarint(Varint(v) + tail) == Got(v, |Varint(v)|)
    ensures |Varint(v)| <= 10
  {
    TenBytes();
    VarintLength(v, 10);
    LebInverts(v, tail, 10);
  }

  lemma {:induction false} VarintLenIs(v: nat)
    ensures |Varint(v)| == VarintLen(v)
  {
    if v >= 128 { VarintLenIs(v / 128); }
  }

  method MeasureVarint(v: nat) returns (n: nat)
    ensures n == VarintLen(v) == |Varint(v)|
  {
    VarintLenIs(v);
    n := 1;
    var x := v;
    while x >= 128
      invariant |Varint(v)| == n - 1 + |Varint(x)|
    {
      x := x / 128;
      n := n + 1;
    }
  }

  method PutVarint(v: nat) returns (p: seq<Byte>)
    ensures p == Varint(v)
  {
    p := [];
    var x := v;
    while x >= 128
      invariant Varint(v) == p + Varint(x)
    {
      p := p + [x % 128 + 128];
      x := x / 128;
    }
    p := p + [x];
  }

  method GetVarint(p: seq<Byte>) returns (r: Read<nat>)
    ensures r == ReadVarint(p)
  {
    hide ReadVarint, Leb, Shifted, Pow128;
    var result: nat, i: nat, scale: nat := 0, 0, 1;
    ghost var whole: nat := 0;
    Begin(p);
    while i < |p| && i < 10
      invariant 0 <= i <= 10 && i <= |p|
      invariant result == whole % U64
      invariant Leb(p, 10) == Shifted(Leb(p[i..], 10 - i), whole, scale, i)
    {
      var b: nat := p[i];
      Continue(p, i, whole, scale);
      ModAdd(whole, b % 128 * scale);
      result := (result + b % 128 * scale) % U64;
      whole := whole + b % 128 * scale;
      i := i + 1;
      if b < 128 {
        ReadIs(p, whole, i);
        return Got(result, i);
      }
      scale := scale * 128;
    }
    Exhausted(p, i, whole, scale);
    ReadFails(p);
    r := Malformed;
  }

  lemma Begin(p: seq<Byte>)
    ensures p[0..] == p && Leb(p, 10) == Shifted(Leb(p, 10), 0, 1, 0)
  {
  }

  lemma ModAdd(a: nat, b: nat)
    ensures (a % U64 + b) % U64 == (a + b) % U64
  {
    var q, r := a / U64, a % U64;
    assert a + b == q * U64 + (r + b);
    ModMultiple(r + b, q);
  }

  lemma {:induction false} ModMultiple(x: nat, q: nat)
    ensures (q * U64 + x) % U64 == x % U64
  {
    if q > 0 {
      ModMultiple(x, q - 1);
      assert q * U64 + x == (q - 1) * U64 + x + U64;
    }
  }

  lemma Exhausted(p: seq<Byte>, i: nat, whole: nat, scale: nat)
    requires i <= |p| && i <= 10 && (i == |p| || i == 10)
    ensures Shifted(Leb(p[i..], 10 - i), whole, scale, i).Malformed?
  {
  }

  /** A value read further on, put in its place above the `whole` read before it. */
  function Shifted(r: Read<nat>, whole: nat, scale: nat, i: nat): Read<nat> {
    if r.Malformed? then Malformed else Got(whole + scale * r.value, i + r.n)
  }

  lemma Continue(p: seq<Byte>, i: nat, whole: nat, scale: nat)
    requires i < |p| && i < 10
    ensures var b := p[i]; var r := Leb(p[i..], 10 - i);
            if b < 128 then r == Got(b, 1) && Shifted(r, whole, scale, i) == Got(whole + b % 128 * scale, i + 1)
            else Shifted(r, whole, scale, i) == Shifted(Leb(p[i + 1..], 10 - (i + 1)), whole + b % 128 * scale, scale * 128, i + 1)
  {
    var b, r, next := p[i], Leb(p[i..], 10 - i), Leb(p[i + 1..], 9 - i);
    assert p[i..][1..] == p[i + 1..];
    if b >= 128 && next.Got? {
      assert b % 128 == b - 128;
      Spread(scale, b - 128, next.value);
    }
  }

  lemma Spread(scale: nat, low: nat, v: nat)
    ensures scale * (low + 128 * v) == low * scale + scale * 128 * v
  {
  }

  lemma ReadIs(p: seq<Byte>, v: nat, n: nat)
    requires Leb(p, 10) == Got(v, n)
    ensures ReadVarint(p) == Got(v % U64, n)
  {
  }

  lemma ReadFails(p: seq<Byte>)
    requires Leb(p, 10).Malformed?
    ensures ReadVarint(p) == Malformed
  {
  }

  // ------------------------------- big-endian integers -------------------------------

  /** The low n bytes of v, most significant first; a negative v in two's complement. */
  function BigEndian(v: int, n: nat): (s: seq<Byte>)
    ensures |s| == n
    decreases n
  {
    if n == 0 then [] else BigEndian(v / 256, n - 1) + [v % 256]
  }

  function Unsigned(p: seq<Byte>): nat {
    if p == [] then 0 else Unsigned(p[..|p| - 1]) * 256 + p[|p| - 1]
  }

  function Pow256(n: nat): (r: nat)
    ensures r >= 1
  {
    if n == 0 then 1 else 256 * Pow256(n - 1)
  }

  /** Two's complement: a first byte of 128 or more makes the number negative. */
  function Signed(p: seq<Byte>): int {
    if p != [] && p[0] >= 128 then Unsigned(p) - Pow256(|p|) else Unsigned(p)
  }

  lemma {:induction false} UnsignedRoundTrip(v: nat, n: nat)
    requires v < Pow256(n)
    ensures Unsigned(BigEndian(v, n)) == v
    decreases n
  {
    if n > 0 {
      UnsignedRoundTrip(v / 256, n - 1);
      assert BigEndian(v, n)[..n - 1] == BigEndian(v / 256, n - 1);
    }
  }

  /** Adding a multiple of the modulus does not change the bytes. */
  lemma {:induction false} Wraps(v: int, n: nat)
    ensures BigEndian(v + Pow256(n), n) == BigEndian(v, n)
    decreases n
  {
    if n > 0 {
      Wraps(v / 256, n - 1);
      AddMultiple(v, Pow256(n - 1));
    }
  }

  lemma AddMultiple(v: int, k: nat)
    ensures (v + 256 * k) / 256 == v / 256 + k && (v + 256 * k) % 256 == v % 256
  {
  }

  lemma {:induction false} FirstByte(v: nat, n: nat)
    requires n >= 1 && v < Pow256(n)
    ensures BigEndian(v, n)[0] >= 128 <==> v >= 128 * Pow256(n - 1)
    decreases n
  {
    if n == 1 {
      assert Pow256(1) == 256 * Pow256(0);
      assert BigEndian(v, 1) == BigEndian(v / 256, 0) + [v % 256];
    } else {
      FirstByte(v / 256, n - 1);
      assert BigEndian(v, n)[0] == BigEndian(v / 256, n - 1)[0];
      assert Pow256(n - 1) == 256 * Pow256(n - 2);
    }
  }

  /** Sign extension inverts truncation for every number that fits n bytes. */
  /** n bytes hold the numbers of 8n bits and no others. */
  lemma SignedRange(p: seq<Byte>)
    requires p != []
    ensures -128 * Pow256(|p| - 1) <= Signed(p) < 128 * Pow256(|p| - 1)
  {
    UnsignedSplit(p);
    UnsignedBound(p[1..]);
  }

  lemma {:induction false} UnsignedBound(p: seq<Byte>)
    ensures Unsigned(p) < Pow256(|p|)
  {
    if p != [] { UnsignedBound(p[..|p| - 1]); }
  }

  lemma {:induction false} UnsignedSplit(p: seq<Byte>)
    requires p != []
    ensures Unsigned(p) == p[0] * Pow256(|p| - 1) + Unsigned(p[1..])
  {
    if |p| > 1 {
      var q := p[..|p| - 1];
      UnsignedSplit(q);
      assert p[1..][..|p| - 2] == q[1..];
      Distribute(p[0], Pow256(|p| - 2), Unsigned(q[1..]));
    }
  }

  lemma Distribute(a: nat, b: nat, c: nat)
    ensures (a * b + c) * 256 == a * (256 * b) + c * 256
  {
  }

  lemma SignedRoundTrip(v: int, n: nat)
    requires n >= 1 && -128 * Pow256(n - 1) <= v < 128 * Pow256(n - 1)
    ensures Signed(BigEndian(v, n)) == v
  {
    var u := if v < 0 then v + Pow256(n) else v;
    Wraps(v, n);
    FirstByte(u, n);
    UnsignedRoundTrip(u, n);
  }

  method PutBigEndian(v: int, n: nat) returns (p: seq<Byte>)
    ensures p == BigEndian(v, n)
  {
    var bytes := new Byte[n](i => 0);
    var x, i := v, n;
    while i > 0
      invariant 0 <= i <= n
      invariant BigEndian(v, n) == BigEndian(x, i) + bytes[i..]
    {
      i := i - 1;
      bytes[i] := x % 256;
      x := x / 256;
      assert bytes[i..] == [bytes[i]] + bytes[i + 1..];
    }
    p := bytes[..];
  }

  method GetBigEndian(p: seq<Byte>) returns (v: int)
    ensures v == Signed(p)
  {
    if p == [] { return 0; }
    v := if p[0] >= 128 then -1 else 0;
    for i := 0 to |p|
      invariant v == Unsigned(p[..i]) - (if p[0] >= 128 then Pow256(i) else 0)
    {
      v := v * 256 + p[i];
      assert p[..i + 1][..i] == p[..i];
    }
    assert p[..|p|] == p;
  }

  // ------------------------------------ key order ------------------------------------

  /** Byte-by-byte comparison of keys of equal length. */
  predicate BytesLess(a: seq<Byte>, b: seq<Byte>)
    requires |a| == |b|
  {
    a != [] && (a[0] < b[0] || (a[0] == b[0] && BytesLess(a[1..], b[1..])))
  }

  lemma {:induction false} LessAppend(a: seq<Byte>, b: seq<Byte>, x: Byte, y: Byte)
    requires |a| == |b|
    ensures BytesLess(a + [x], b + [y]) <==> BytesLess(a, b) || (a == b && x < y)
  {
    if a == [] {
      assert (a + [x])[1..] == [] && (b + [y])[1..] == [];
    } else {
      LessAppend(a[1..], b[1..], x, y);
      assert (a + [x])[1..] == a[1..] + [x] && (b + [y])[1..] == b[1..] + [y];
      assert a == [a[0]] + a[1..] && b == [b[0]] + b[1..];
    }
  }

  /** Comparing the bytes of big-endian keys is comparing the numbers. */
  lemma {:induction false} BigEndianOrder(v: nat, w: nat, n: nat)
    requires v < Pow256(n) && w < Pow256(n)
    ensures BytesLess(BigEndian(v, n), BigEndian(w, n)) <==> v < w
    ensures BigEndian(v, n) == BigEndian(w, n) <==> v == w
    decreases n
  {
    UnsignedRoundTrip(v, n);
    UnsignedRoundTrip(w, n);
    if n > 0 {
      BigEndianOrder(v / 256, w / 256, n - 1);
      LessAppend(BigEndian(v / 256, n - 1), BigEndian(w / 256, n - 1), v % 256, w % 256);
    }
  }
}
