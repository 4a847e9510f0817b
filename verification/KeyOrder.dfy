/**
 The order of index keys: values by type class, then by content; keys column by column, a key
 that is a prefix of another first. Reals, which compare through doubles, are not ordered here.
 */
module KeyOrder {
  import opened Basics
  import opened Values

  type Key = seq<Value>

  /** The comparison decodes both keys into arrays of this length. */
  const MAX_KEY_VALUES := 16

  /** Stored composites decode as blobs, so no key holds one. */
  predicate Keyable(v: Value) { !v.Real? && !v.Composite? }

  predicate KeyableKey(k: Key) { |k| <= MAX_KEY_VALUES && forall i :: 0 <= i < |k| ==> Keyable(k[i]) }

  function Class(v: Value): nat {
    match v
    case Null => 0
    case Int(_) => 1
    case Real(_) => 1
    case Text(_) => 2
    case Blob(_) => 3
    case Composite(_) => 4
  }

  function Sign(a: int, b: int): int { if a < b then -1 else if a > b then 1 else 0 }

  /** Byte by byte, the shorter first when one is a prefix of the other. */
  function BytesCompare(a: seq<Byte>, b: seq<Byte>): int {
    if a == [] || b == [] then Sign(|a|, |b|)
    else if a[0] != b[0] then Sign(a[0], b[0])
    else BytesCompare(a[1..], b[1..])
  }

  function ValueCompare(a: Value, b: Value): int
    requires Keyable(a) && Keyable(b)
  {
    if Class(a) != Class(b) then Sign(Class(a), Class(b))
    else if a.Null? then 0
    else if a.Int? then Sign(a.i, b.i)
    else BytesCompare(a.bytes, b.bytes)
  }

  function KeyCompare(a: Key, b: Key): int
    requires KeyableKey(a) && KeyableKey(b)
  {
    if a == [] || b == [] then Sign(|a|, |b|)
    else if ValueCompare(a[0], b[0]) != 0 then ValueCompare(a[0], b[0])
    else KeyCompare(a[1..], b[1..])
  }

  // ------------------------------- it is a total order -------------------------------

  lemma {:induction false} BytesOrder(a: seq<Byte>, b: seq<Byte>)
    ensures BytesCompare(a, b) == -BytesCompare(b, a)
    ensures BytesCompare(a, b) == 0 <==> a == b
  {
    if a != [] && b != [] && a[0] == b[0] {
      BytesOrder(a[1..], b[1..]);
      assert a == [a[0]] + a[1..] && b == [b[0]] + b[1..];
    }
  }

  lemma {:induction false} BytesTrans(a: seq<Byte>, b: seq<Byte>, c: seq<Byte>)
    requires BytesCompare(a, b) < 0 && BytesCompare(b, c) < 0
    ensures BytesCompare(a, c) < 0
  {
    if a != [] && b != [] && c != [] && a[0] == b[0] == c[0] { BytesTrans(a[1..], b[1..], c[1..]); }
  }

  lemma ValueOrder(a: Value, b: Value)
    requires Keyable(a) && Keyable(b)
    ensures ValueCompare(a, b) == -ValueCompare(b, a)
    ensures ValueCompare(a, b) == 0 <==> a == b
  {
    if Class(a) == Class(b) && Class(a) >= 2 { BytesOrder(a.bytes, b.bytes); }
  }

  // -------------------------------- what the order is --------------------------------

  /** a is a proper prefix of b, or has the smaller byte where they first differ. */
  ghost predicate BytesBelow(a: seq<Byte>, b: seq<Byte>) {
    exists k: nat :: AgreeTo(a, b, k) && k < |b| && (k == |a| || a[k] < b[k])
  }

  ghost predicate AgreeTo<T>(a: seq<T>, b: seq<T>, k: nat) {
    k <= |a| && k <= |b| && forall i :: 0 <= i < k ==> a[i] == b[i]
  }

  /** NULL is below integers, integers below text, text below blobs; each kind in its own order. */
  ghost predicate Below(a: Value, b: Value) {
    match (a, b)
    case (Null, _) => !b.Null?
    case (Int(x), Int(y)) => x < y
    case (Int(_), Text(_)) => true
    case (Int(_), Blob(_)) => true
    case (Text(x), Text(y)) => BytesBelow(x, y)
    case (Text(_), Blob(_)) => true
    case (Blob(x), Blob(y)) => BytesBelow(x, y)
    case _ => false
  }

  lemma {:induction false} BytesMeans(a: seq<Byte>, b: seq<Byte>)
    ensures BytesCompare(a, b) < 0 <==> BytesBelow(a, b)
  {
    if a == [] || b == [] || a[0] != b[0] {
      assert AgreeTo(a, b, 0);
    } else {
      BytesMeans(a[1..], b[1..]);
      if BytesBelow(a[1..], b[1..]) {
        var k: nat :| AgreeTo(a[1..], b[1..], k) && k < |b| - 1 && (k == |a| - 1 || a[1..][k] < b[1..][k]);
        assert AgreeTo(a, b, k + 1);
      }
      if BytesBelow(a, b) {
        var k: nat :| AgreeTo(a, b, k) && k < |b| && (k == |a| || a[k] < b[k]);
        assert AgreeTo(a[1..], b[1..], k - 1);
      }
    }
  }

  /** The comparison decides that order. */
  lemma ValueMeans(a: Value, b: Value)
    requires Keyable(a) && Keyable(b)
    ensures ValueCompare(a, b) < 0 <==> Below(a, b)
    ensures ValueCompare(a, b) > 0 <==> Below(b, a)
    ensures ValueCompare(a, b) == 0 <==> a == b
  {
    ValueOrder(a, b);
    if Class(a) == Class(b) && Class(a) >= 2 {
      BytesMeans(a.bytes, b.bytes);
      BytesMeans(b.bytes, a.bytes);
    }
  }

  /** Keys are compared at the first column where they differ; a proper prefix comes first. */
  ghost predicate KeyBelow(a: Key, b: Key) {
    exists k: nat :: AgreeTo(a, b, k) && k < |b| && (k == |a| || Below(a[k], b[k]))
  }

  lemma {:induction false} KeyMeans(a: Key, b: Key)
    requires KeyableKey(a) && KeyableKey(b)
    ensures KeyCompare(a, b) < 0 <==> KeyBelow(a, b)
  {
    hide ValueCompare, Below;
    if a == [] || b == [] {
      assert AgreeTo(a, b, 0);
    } else {
      ValueMeans(a[0], b[0]);
      if a[0] != b[0] {
        assert AgreeTo(a, b, 0);
      } else {
        KeyMeans(a[1..], b[1..]);
        KeyBelowTail(a, b);
      }
    }
  }

  lemma KeyBelowTail(a: Key, b: Key)
    requires KeyableKey(a) && a != [] && b != [] && a[0] == b[0]
    ensures KeyBelow(a, b) <==> KeyBelow(a[1..], b[1..])
  {
    hide Below;
    ValueMeans(a[0], a[0]);
    if KeyBelow(a, b) {
      var k: nat :| AgreeTo(a, b, k) && k < |b| && (k == |a| || Below(a[k], b[k]));
      assert AgreeTo(a[1..], b[1..], k - 1);
    }
    if KeyBelow(a[1..], b[1..]) {
      var k: nat :| AgreeTo(a[1..], b[1..], k) && k < |b| - 1 && (k == |a| - 1 || Below(a[1..][k], b[1..][k]));
      assert AgreeTo(a, b, k + 1);
    }
  }

  lemma ValueTrans(a: Value, b: Value, c: Value)
    requires Keyable(a) && Keyable(b) && Keyable(c) && ValueCompare(a, b) < 0 && ValueCompare(b, c) < 0
    ensures ValueCompare(a, c) < 0
  {
    if Class(a) == Class(b) == Class(c) && Class(a) >= 2 { BytesTrans(a.bytes, b.bytes, c.bytes); }
  }

  lemma {:induction false} Order(a: Key, b: Key)
    requires KeyableKey(a) && KeyableKey(b)
    ensures KeyCompare(a, b) == -KeyCompare(b, a)
    ensures KeyCompare(a, b) == 0 <==> a == b
  {
    hide ValueCompare;
    if a != [] && b != [] {
      ValueOrder(a[0], b[0]);
      if a[0] == b[0] {
        Order(a[1..], b[1..]);
        assert a == [a[0]] + a[1..] && b == [b[0]] + b[1..];
      }
    }
  }

  lemma {:induction false} Trans(a: Key, b: Key, c: Key)
    requires KeyableKey(a) && KeyableKey(b) && KeyableKey(c) && KeyCompare(a, b) < 0 && KeyCompare(b, c) < 0
    ensures KeyCompare(a, c) < 0
  {
    hide ValueCompare;
    if a != [] && b != [] && c != [] {
      ValueOrder(a[0], b[0]);
      ValueOrder(b[0], c[0]);
      if a[0] == b[0] && b[0] == c[0] {
        Trans(a[1..], b[1..], c[1..]);
      } else if a[0] != b[0] && b[0] != c[0] {
        ValueTrans(a[0], b[0], c[0]);
      }
    }
  }

  /** A smaller key does not have a larger leading value. */
  lemma LeadOrder(a: Key, b: Key)
    requires KeyableKey(a) && KeyableKey(b) && a != [] && b != [] && KeyCompare(a, b) < 0
    ensures ValueCompare(a[0], b[0]) <= 0
  {
  }

  /** A key is smaller than the one-column key [v] exactly when its leading value is smaller than v. */
  lemma BelowProbe(a: Key, v: Value)
    requires KeyableKey(a) && a != [] && Keyable(v)
    ensures KeyCompare(a, [v]) < 0 <==> ValueCompare(a[0], v) < 0
  {
    assert [v][1..] == [];
  }

  // --------------------------------- sorted keys ---------------------------------

  ghost predicate Sorted(s: seq<Key>) {
    && (forall i :: 0 <= i < |s| ==> KeyableKey(s[i]))
    && (forall i, j :: 0 <= i < j < |s| ==> KeyCompare(s[i], s[j]) < 0)
  }

  /** Everything before i is smaller than k, nothing from i on is. */
  ghost predicate Place(s: seq<Key>, k: Key, i: nat)
    requires Sorted(s) && KeyableKey(k)
  {
    && i <= |s|
    && (forall j :: 0 <= j < i ==> KeyCompare(s[j], k) < 0)
    && (forall j :: i <= j < |s| ==> KeyCompare(s[j], k) >= 0)
  }

  method Find(s: seq<Key>, k: Key) returns (i: nat)
    requires Sorted(s) && KeyableKey(k)
    ensures Place(s, k, i)
  {
    hide KeyCompare;
    i := 0;
    while i < |s| && KeyCompare(s[i], k) < 0
      invariant i <= |s|
      invariant forall j :: 0 <= j < i ==> KeyCompare(s[j], k) < 0
    {
      i := i + 1;
    }
    forall j | i <= j < |s| ensures KeyCompare(s[j], k) >= 0 { NotBelow(s, k, i, j); }
  }

  lemma NotBelow(s: seq<Key>, k: Key, i: nat, j: nat)
    requires Sorted(s) && KeyableKey(k) && i <= j < |s| && KeyCompare(s[i], k) >= 0
    ensures KeyCompare(s[j], k) >= 0
  {
    hide KeyCompare;
    if i < j && KeyCompare(s[j], k) < 0 { Trans(s[i], s[j], k); }
  }

  /** Adding a key keeps the order and adds just that key. */
  method Put(s: seq<Key>, k: Key) returns (o: seq<Key>)
    requires Sorted(s) && KeyableKey(k)
    ensures Sorted(o)
    ensures forall x :: x in o <==> x in s || x == k
  {
    hide KeyCompare, KeyableKey;
    var i := Find(s, k);
    if i < |s| && KeyCompare(s[i], k) == 0 {
      Order(s[i], k);
      return s;
    }
    Inserted(s, k, i);
    o := s[..i] + [k] + s[i..];
  }

  lemma Inserted(s: seq<Key>, k: Key, i: nat)
    requires Sorted(s) && KeyableKey(k) && Place(s, k, i) && (i < |s| ==> KeyCompare(s[i], k) != 0)
    ensures Sorted(s[..i] + [k] + s[i..])
    ensures forall x :: x in s[..i] + [k] + s[i..] <==> x in s || x == k
  {
    hide KeyCompare, KeyableKey;
    forall j | i <= j < |s| ensures KeyCompare(k, s[j]) < 0 {
      Order(k, s[i]);
      if j > i { Trans(k, s[i], s[j]); }
    }
    InsertedMembers(s, k, i);
  }

  lemma InsertedMembers(s: seq<Key>, k: Key, i: nat)
    requires i <= |s|
    ensures forall x :: x in s[..i] + [k] + s[i..] <==> x in s || x == k
  {
    assert s == s[..i] + s[i..];
  }
}
