/** The record codec: a column count, a serial type for each column, then the column bodies. */
module Records {
  import opened Basics
  import opened Values
  import opened Codec

  const I64_MIN: int := -0x8000_0000_0000_0000
  const I64_MAX: int := 0x7FFF_FFFF_FFFF_FFFF
  const MAX_LEN: nat := 0x7FFF_FFFF

  /** Values the engine can hold: 64-bit integers and bit patterns, lengths that are C ints. */
  predicate Storable(v: Value) {
    match v
    case Null => true
    case Int(i) => I64_MIN <= i <= I64_MAX
    case Real(bits) => bits < U64
    case _ => |v.bytes| <= MAX_LEN
  }

  /** A composite comes back as a blob with the same bytes. */
  function Plain(v: Value): Value { if v.Composite? then Blob(v.bytes) else v }

  // ---------------------------------- serial types ----------------------------------

  /** The narrowest of 0, 1, 2, 3, 4, 6 or 8 bytes; the numbers 0 and 1 need none. */
  function IntSerial(v: int): (st: nat)
    ensures st in {1, 2, 3, 4, 5, 6, 8, 9}
  {
    if v == 0 then 8
    else if v == 1 then 9
    else if -128 <= v <= 127 then 1
    else if -32768 <= v <= 32767 then 2
    else if -8388608 <= v <= 8388607 then 3
    else if -2147483648 <= v <= 2147483647 then 4
    else if -140737488355328 <= v <= 140737488355327 then 5
    else 6
  }

  function Serial(v: Value): nat {
    match v
    case Null => 0
    case Int(i) => IntSerial(i)
    case Real(_) => 7
    case Text(b) => 13 + 2 * |b|
    case _ => 12 + 2 * |v.bytes|
  }

  /** Conversion of an unsigned 64-bit number to a C int. */
  function ToInt(x: nat): int { (x + 0x8000_0000) % 0x1_0000_0000 - 0x8000_0000 }

  /** Body length of a serial type; negative for the reserved types 10 and 11. */
  function BodyLen(st: nat): int {
    if st == 0 || st == 8 || st == 9 then 0
    else if st <= 4 then st
    else if st == 5 then 6
    else if st <= 7 then 8
    else if st >= 12 then ToInt((st - 12) / 2)
    else -1
  }

  function Body(v: Value): seq<Byte>
    requires Storable(v)
  {
    match v
    case Null => []
    case Int(i) => BigEndian(i, BodyLen(IntSerial(i)))
    case Real(bits) => BigEndian(bits, 8)
    case _ => v.bytes
  }

  /** What a serial type makes of a body. */
  function Value0(st: nat, body: seq<Byte>): Value {
    if st == 0 then Null
    else if st == 8 then Int(0)
    else if st == 9 then Int(1)
    else if 1 <= st <= 6 then Int(Signed(body))
    else if st == 7 then Real(Unsigned(body))
    else if st >= 12 && st % 2 == 0 then Blob(body)
    else Text(body)
  }

  lemma Powers()
    ensures Pow256(0) == 1 && Pow256(1) == 0x100 && Pow256(2) == 0x1_0000 && Pow256(3) == 0x100_0000
            && Pow256(5) == 0x100_0000_0000
    ensures Pow256(7) == 0x100_0000_0000_0000 && Pow256(8) == U64
  {
    assert Pow256(4) == 256 * Pow256(3);
    assert Pow256(6) == 256 * Pow256(5);
  }

  /** The chosen width is wide enough, so sign extension restores the number. */
  lemma IntBody(i: int)
    requires I64_MIN <= i <= I64_MAX
    ensures var st := IntSerial(i); var n := BodyLen(st);
            n >= 0 && (st < 8 ==> Signed(BigEndian(i, n)) == i) && (st == 8 ==> i == 0) && (st == 9 ==> i == 1)
  {
    Powers();
    var n := BodyLen(IntSerial(i));
    if n > 0 { SignedRoundTrip(i, n); }
  }

  /** No narrower body holds the number: no body only 0 and 1, n bytes only numbers of 8n bits. */
  lemma IntNarrowest(i: int, n: nat)
    requires I64_MIN <= i <= I64_MAX && n in {0, 1, 2, 3, 4, 6, 8} && n < BodyLen(IntSerial(i))
    ensures if n == 0 then i != 0 && i != 1 else Signed(BigEndian(i, n)) != i
  {
    if n > 0 {
      Powers();
      SignedRange(BigEndian(i, n));
    }
  }

  lemma ColumnRoundTrip(v: Value)
    requires Storable(v)
    ensures BodyLen(Serial(v)) == |Body(v)| && Value0(Serial(v), Body(v)) == Plain(v) && Serial(v) < U64
  {
    match v {
      case Int(i) => IntBody(i);
      case Real(bits) =>
        Powers();
        UnsignedRoundTrip(bits, 8);
      case _ =>
    }
  }

  // ------------------------------------ records ------------------------------------

  predicate AllStorable(vs: seq<Value>) { forall i :: 0 <= i < |vs| ==> Storable(vs[i]) }

  function Serials(vs: seq<Value>): seq<Byte> {
    if vs == [] then [] else Varint(Serial(vs[0])) + Serials(vs[1..])
  }

  function Bodies(vs: seq<Value>): seq<Byte>
    requires AllStorable(vs)
  {
    if vs == [] then [] else Body(vs[0]) + Bodies(vs[1..])
  }

  function Encode(vs: seq<Value>): seq<Byte>
    requires AllStorable(vs)
  {
    Varint(|vs|) + Serials(vs) + Bodies(vs)
  }

  /** n serial types at the start of p. */
  function ReadSerials(p: seq<Byte>, n: nat): (r: Read<seq<nat>>)
    ensures r.Got? ==> r.n <= |p| && |r.value| == n
    decreases n
  {
    if n == 0 then Got([], 0)
    else
      var r := ReadVarint(p);
      if r.Malformed? then Malformed
      else
        var rest := ReadSerials(p[r.n..], n - 1);
        if rest.Malformed? then Malformed else Got([r.value] + rest.value, r.n + rest.n)
  }

  /** The bodies at the start of p, as their serial types say. */
  function ReadBodies(p: seq<Byte>, sts: seq<nat>): Read<seq<Value>> {
    if sts == [] then Got([], 0)
    else
      var bl := BodyLen(sts[0]);
      if bl < 0 || bl > |p| then Malformed
      else
        var rest := ReadBodies(p[bl..], sts[1..]);
        if rest.Malformed? then Malformed else Got([Value0(sts[0], p[..bl])] + rest.value, bl + rest.n)
  }

  datatype Decoded = Columns(vals: seq<Value>, ncols: int) | Corrupt

  /** Decoding keeps at most `max` columns but checks them all. */
  function Decode(p: seq<Byte>, max: nat): Decoded {
    var n := ReadVarint(p);
    if n.Malformed? then Corrupt
    else
      var sts := ReadSerials(p[n.n..], n.value);
      if sts.Malformed? then Corrupt
      else
        var vals := ReadBodies(p[n.n + sts.n..], sts.value);
        if vals.Malformed? then Corrupt
        else Columns(FirstOf(vals.value, max), ToInt(n.value))
  }

  function SerialList(vs: seq<Value>): seq<nat> { if vs == [] then [] else [Serial(vs[0])] + SerialList(vs[1..]) }

  function PlainList(vs: seq<Value>): (r: seq<Value>)
    ensures |r| == |vs| && forall i :: 0 <= i < |vs| ==> r[i] == Plain(vs[i])
  {
    if vs == [] then [] else [Plain(vs[0])] + PlainList(vs[1..])
  }

  lemma {:induction false} SerialsRoundTrip(vs: seq<Value>, tail: seq<Byte>)
    requires AllStorable(vs)
    ensures ReadSerials(Serials(vs) + tail, |vs|) == Got(SerialList(vs), |Serials(vs)|)
  {
    hide ReadVarint, Varint;
    if vs != [] {
      var a, b := Varint(Serial(vs[0])), Serials(vs[1..]);
      ColumnRoundTrip(vs[0]);
      SerialsRoundTrip(vs[1..], tail);
      assert a + b + tail == a + (b + tail);
      VarintRoundTrip(Serial(vs[0]), b + tail);
      assert (a + (b + tail))[|a|..] == b + tail;
    }
  }

  lemma {:induction false} BodiesRoundTrip(vs: seq<Value>, tail: seq<Byte>)
    requires AllStorable(vs)
    ensures ReadBodies(Bodies(vs) + tail, SerialList(vs)) == Got(PlainList(vs), |Bodies(vs)|)
  {
    hide Body, Serial, BodyLen, Value0, Storable;
    if vs != [] {
      var a, b := Body(vs[0]), Bodies(vs[1..]);
      ColumnRoundTrip(vs[0]);
      BodiesRoundTrip(vs[1..], tail);
      assert a + b + tail == a + (b + tail);
      assert (a + (b + tail))[|a|..] == b + tail && (a + (b + tail))[..|a|] == a;
      assert SerialList(vs)[1..] == SerialList(vs[1..]);
    }
  }

  /** The first columns that fit in `max`. */
  function FirstOf(vals: seq<Value>, max: nat): seq<Value> { if |vals| <= max then vals else vals[..max] }

  /**
   Decoding inverts encoding for every list of values and whatever follows it, up to composites
   coming back as blobs; it counts all columns and returns those there is room for.
   */
  lemma RecordRoundTrip(vs: seq<Value>, tail: seq<Byte>, max: nat)
    requires AllStorable(vs) && |vs| <= MAX_LEN
    ensures Decode(Encode(vs) + tail, max) == Columns(FirstOf(PlainList(vs), max), |vs|)
  {
    hide ReadVarint, Varint, ReadSerials, ReadBodies, Serials, Bodies, AllStorable, Decode, ToInt;
    var a, b, c := Varint(|vs|), Serials(vs), Bodies(vs);
    Slices(a, b, c + tail);
    assert a + b + c + tail == a + b + (c + tail);
    VarintRoundTrip(|vs|, b + (c + tail));
    SerialsRoundTrip(vs, c + tail);
    BodiesRoundTrip(vs, tail);
    DecodesTo(a + b + (c + tail), |vs|, |a|, SerialList(vs), |b|, PlainList(vs), max);
  }

  lemma DecodesTo(p: seq<Byte>, n: nat, k: nat, sts: seq<nat>, j: nat, vals: seq<Value>, max: nat)
    requires ReadVarint(p) == Got(n, k) && k + j <= |p| && ReadSerials(p[k..], n) == Got(sts, j)
    requires ReadBodies(p[k + j..], sts).Got? && ReadBodies(p[k + j..], sts).value == vals
    requires n <= MAX_LEN
    ensures Decode(p, max) == Columns(FirstOf(vals, max), n)
  {
    hide ReadVarint, ReadSerials, ReadBodies;
  }

  // ----------------------------------- truncation -----------------------------------

  lemma {:induction false} SerialsCut(vs: seq<Value>, k: nat)
    requires AllStorable(vs) && k < |Serials(vs)|
    ensures ReadSerials(Serials(vs)[..k], |vs|).Malformed?
  {
    hide ReadVarint, Varint;
    var a, b := Varint(Serial(vs[0])), Serials(vs[1..]);
    ColumnRoundTrip(vs[0]);
    var p := (a + b)[..k];
    if k < |a| {
      assert p == a[..k];
      VarintCut(Serial(vs[0]), k);
    } else {
      assert p == a + b[..k - |a|];
      VarintRoundTrip(Serial(vs[0]), b[..k - |a|]);
      assert p[|a|..] == b[..k - |a|];
      SerialsCut(vs[1..], k - |a|);
    }
  }

  lemma {:induction false} BodiesCut(vs: seq<Value>, k: nat)
    requires AllStorable(vs) && k < |Bodies(vs)|
    ensures ReadBodies(Bodies(vs)[..k], SerialList(vs)).Malformed?
  {
    hide Body, Serial, BodyLen, Value0, Storable;
    var a, b := Body(vs[0]), Bodies(vs[1..]);
    ColumnRoundTrip(vs[0]);
    var p := (a + b)[..k];
    assert SerialList(vs)[1..] == SerialList(vs[1..]);
    if k >= |a| {
      assert p == a + b[..k - |a|] && p[|a|..] == b[..k - |a|];
      BodiesCut(vs[1..], k - |a|);
    }
  }

  /** A record that lost any bytes at its end is reported as corrupt. */
  lemma TruncationDetected(vs: seq<Value>, k: nat, max: nat)
    requires AllStorable(vs) && |vs| <= MAX_LEN && k < |Encode(vs)|
    ensures Decode(Encode(vs)[..k], max) == Corrupt
  {
    hide ReadVarint, Varint, ReadSerials, ReadBodies, Serials, Bodies, AllStorable, ToInt;
    var a, b, c := Varint(|vs|), Serials(vs), Bodies(vs);
    var p := (a + b + c)[..k];
    if k < |a| {
      assert p == a[..k];
      VarintCut(|vs|, k);
    } else if k < |a| + |b| {
      assert p == a + b[..k - |a|] && p[|a|..] == b[..k - |a|];
      VarintRoundTrip(|vs|, b[..k - |a|]);
      SerialsCut(vs, k - |a|);
    } else {
      var rest := c[..k - |a| - |b|];
      assert p == a + (b + rest) && p[|a|..] == b + rest && p[|a| + |b|..] == rest;
      VarintRoundTrip(|vs|, b + rest);
      SerialsRoundTrip(vs, rest);
      BodiesCut(vs, |rest|);
    }
  }

  /** The bytes of one record: count, serial types, then bodies. */
  lemma EncodedBytes()
    ensures Encode([Int(300), Text([97]), Blob([1])]) == [3, 2, 15, 14, 1, 44, 97, 1]
  {
    SampleParts();
    OneColumn(Int(300), [Text([97]), Blob([1])]);
    OneColumn(Text([97]), [Blob([1])]);
    OneColumn(Blob([1]), []);
    hide Serials, Bodies, Body, Varint, Serial, Storable;
    assert [Int(300), Text([97]), Blob([1])] == [Int(300)] + [Text([97]), Blob([1])];
    assert [Text([97]), Blob([1])] == [Text([97])] + [Blob([1])] && [Blob([1])] == [Blob([1])] + [];
  }

  lemma SampleParts()
    ensures Varint(3) == [3] && Varint(Serial(Int(300))) == [2] && Varint(Serial(Text([97]))) == [15]
            && Varint(Serial(Blob([1]))) == [14]
    ensures Body(Int(300)) == [1, 44]
  {
    assert BigEndian(300, 2) == BigEndian(1, 1) + [44];
    assert BigEndian(1, 1) == BigEndian(0, 0) + [1];
  }

  lemma OneColumn(v: Value, rest: seq<Value>)
    requires Storable(v) && AllStorable(rest)
    ensures AllStorable([v] + rest) && Serials([]) == [] && Bodies([]) == []
    ensures Serials([v] + rest) == Varint(Serial(v)) + Serials(rest) && Bodies([v] + rest) == Body(v) + Bodies(rest)
  {
    assert ([v] + rest)[1..] == rest;
  }

  lemma Slices(a: seq<Byte>, b: seq<Byte>, c: seq<Byte>)
    ensures a + b + c == a + (b + c) && (a + b + c)[|a|..] == b + c && (a + b + c)[|a| + |b|..] == c && c + [] == c
  {
  }

  // ------------------------------------ the loops ------------------------------------

  method EncodeRecord(vs: seq<Value>) returns (out: seq<Byte>)
    requires AllStorable(vs)
    ensures out == Encode(vs)
  {
    hide Storable, Body, Serial, Varint;
    out := PutVarint(|vs|);
    ghost var head := out;
    assert vs[0..] == vs;
    for i := 0 to |vs|
      invariant out + Serials(vs[i..]) == head + Serials(vs)
    {
      var v := PutVarint(Serial(vs[i]));
      assert vs[i..][1..] == vs[i + 1..];
      Shift(out, v, Serials(vs[i + 1..]));
      out := out + v;
    }
    head := out;
    assert out + Serials(vs[|vs|..]) == out;
    assert vs[0..] == vs;
    for i := 0 to |vs|
      invariant out + Bodies(vs[i..]) == head + Bodies(vs)
    {
      var b := PutBody(vs[i]);
      assert vs[i..][1..] == vs[i + 1..];
      Shift(out, b, Bodies(vs[i + 1..]));
      out := out + b;
    }
    assert out + Bodies(vs[|vs|..]) == out;
  }

  lemma Shift(a: seq<Byte>, b: seq<Byte>, c: seq<Byte>)
    ensures a + (b + c) == a + b + c
  {
  }

  /** A column's body; a number that needs no bytes writes none. */
  method PutBody(v: Value) returns (b: seq<Byte>)
    requires Storable(v)
    ensures b == Body(v)
  {
    match v {
      case Null => b := [];
      case Int(i) =>
        IntBody(i);
        b := PutBigEndian(i, BodyLen(IntSerial(i)));
      case Real(bits) => b := PutBigEndian(bits, 8);
      case _ => b := v.bytes;
    }
  }

  method DecodeRecord(p: seq<Byte>, max: nat) returns (r: Decoded)
    ensures r == Decode(p, max)
  {
    hide ReadVarint, ReadSerials, ReadBodies, ToInt;
    var n := GetVarint(p);
    if n.Malformed? { return Corrupt; }
    var sts := GetSerials(p, n.n, n.value);
    if sts.Malformed? { return Corrupt; }
    var off := n.n + sts.n;
    var vals := GetBodies(p, off, sts.value);
    if vals.Malformed? { return Corrupt; }
    r := Columns(FirstOf(vals.value, max), ToInt(n.value));
  }

  method GetSerials(p: seq<Byte>, start: nat, n: nat) returns (r: Read<seq<nat>>)
    requires start <= |p|
    ensures r == ReadSerials(p[start..], n)
  {
    hide ReadVarint;
    var sts: seq<nat>, off := [], start;
    BeforeEnds(sts, 0, ReadSerials(p[start..], n));
    for i := 0 to n
      invariant start <= off <= |p|
      invariant ReadSerials(p[start..], n) == Before(sts, off - start, ReadSerials(p[off..], n - i))
    {
      var v := GetVarint(p[off..]);
      if v.Malformed? { return Malformed; }
      GotLength(p[off..]);
      assert p[off..][v.n..] == p[off + v.n..];
      BeforeOne(sts, off - start, [v.value], v.n, ReadSerials(p[off + v.n..], n - i - 1));
      sts, off := sts + [v.value], off + v.n;
    }
    BeforeEnds(sts, off - start, Malformed);
    r := Got(sts, off - start);
  }

  lemma GotLength(p: seq<Byte>)
    ensures ReadVarint(p).Got? ==> ReadVarint(p).n <= |p|
  {
  }

  /** Results read so far, in front of those still to come. */
  function Before<T>(done: seq<T>, n: nat, rest: Read<seq<T>>): Read<seq<T>> {
    if rest.Malformed? then Malformed else Got(done + rest.value, n + rest.n)
  }

  lemma BeforeEnds<T>(done: seq<T>, n: nat, rest: Read<seq<T>>)
    ensures Before([], 0, rest) == rest && Before(done, n, Got([], 0)) == Got(done, n)
  {
    if rest.Got? { assert [] + rest.value == rest.value; }
    assert done + [] == done;
  }

  lemma BeforeOne<T>(done: seq<T>, n: nat, one: seq<T>, k: nat, rest: Read<seq<T>>)
    ensures Before(done, n, Before(one, k, rest)) == Before(done + one, n + k, rest)
  {
    if rest.Got? { assert done + (one + rest.value) == done + one + rest.value; }
  }

  method GetBodies(p: seq<Byte>, start: nat, sts: seq<nat>) returns (r: Read<seq<Value>>)
    requires start <= |p|
    ensures r == ReadBodies(p[start..], sts)
  {
    hide BodyLen, Value0, Signed, Unsigned;
    var vals: seq<Value>, off := [], start;
    assert sts[0..] == sts;
    BeforeEnds(vals, 0, ReadBodies(p[start..], sts));
    for i := 0 to |sts|
      invariant start <= off <= |p|
      invariant ReadBodies(p[start..], sts) == Before(vals, off - start, ReadBodies(p[off..], sts[i..]))
    {
      var bl := BodyLen(sts[i]);
      assert sts[i..][1..] == sts[i + 1..];
      if bl < 0 || off + bl > |p| { return Malformed; }
      var body := p[off..][..bl];
      var v := GetValue(sts[i], body);
      assert p[off..][bl..] == p[off + bl..];
      BeforeOne(vals, off - start, [v], bl, ReadBodies(p[off + bl..], sts[i + 1..]));
      vals, off := vals + [v], off + bl;
    }
    assert sts[|sts|..] == [];
    BeforeEnds(vals, off - start, Malformed);
    r := Got(vals, off - start);
  }

  method GetValue(st: nat, body: seq<Byte>) returns (v: Value)
    ensures v == Value0(st, body)
  {
    if st == 0 {
      v := Null;
    } else if st == 8 {
      v := Int(0);
    } else if st == 9 {
      v := Int(1);
    } else if 1 <= st <= 6 {
      var i := GetBigEndian(body);
      v := Int(i);
    } else if st == 7 {
      var bits := GetUnsigned(body);
      v := Real(bits);
    } else if st >= 12 && st % 2 == 0 {
      v := Blob(body);
    } else {
      v := Text(body);
    }
  }

  method GetUnsigned(p: seq<Byte>) returns (v: nat)
    ensures v == Unsigned(p)
  {
    v := 0;
    for i := 0 to |p|
      invariant v == Unsigned(p[..i])
    {
      v := v * 256 + p[i];
      assert p[..i + 1][..i] == p[..i];
    }
    assert p[..|p|] == p;
  }
}
