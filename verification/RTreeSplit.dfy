/**
 Boxes, and Guttman's quadratic split of an overflowing R-tree node into two groups.
 Coordinates are reals; an initial bound that every value beats is written as "none yet".
 */
module RTreeSplit {
  datatype Box = Box(minx: real, miny: real, maxx: real, maxy: real)

  /** A row's box and rowid in a leaf; a child's box and page number in an interior node. */
  datatype Entry = Entry(bb: Box, pl: nat)

  // ----------------------------------- geometry -----------------------------------

  function Area(b: Box): real {
    var w, h := b.maxx - b.minx, b.maxy - b.miny;
    (if w < 0.0 then 0.0 else w) * (if h < 0.0 then 0.0 else h)
  }

  /** Width times height; nothing for a box without points. */
  lemma AreaIs(b: Box)
    ensures NonEmpty(b) ==> Area(b) == (b.maxx - b.minx) * (b.maxy - b.miny)
    ensures !NonEmpty(b) ==> Area(b) == 0.0
  {
  }

  function Union(a: Box, b: Box): (u: Box)
    ensures Covers(u, a) && Covers(u, b)
    ensures forall c :: Covers(c, a) && Covers(c, b) ==> Covers(c, u)
  {
    Box(if a.minx < b.minx then a.minx else b.minx, if a.miny < b.miny then a.miny else b.miny,
        if a.maxx > b.maxx then a.maxx else b.maxx, if a.maxy > b.maxy then a.maxy else b.maxy)
  }

  function Enlarge(a: Box, b: Box): real { Area(Union(a, b)) - Area(a) }

  predicate Covers(a: Box, b: Box) {
    a.minx <= b.minx && a.miny <= b.miny && b.maxx <= a.maxx && b.maxy <= a.maxy
  }

  predicate Meets(a: Box, b: Box) {
    !(a.maxx < b.minx || a.minx > b.maxx || a.maxy < b.miny || a.miny > b.maxy)
  }

  ghost predicate Contains(b: Box, x: real, y: real) { b.minx <= x <= b.maxx && b.miny <= y <= b.maxy }

  predicate NonEmpty(b: Box) { b.minx <= b.maxx && b.miny <= b.maxy }

  /** Two boxes meet exactly when some point lies in both. */
  lemma MeetsIff(a: Box, b: Box)
    requires NonEmpty(a) && NonEmpty(b)
    ensures Meets(a, b) <==> exists x, y :: Contains(a, x, y) && Contains(b, x, y)
  {
    if Meets(a, b) {
      var x, y := if a.minx < b.minx then b.minx else a.minx, if a.miny < b.miny then b.miny else a.miny;
      assert Contains(a, x, y) && Contains(b, x, y);
    }
  }

  /** One box covers another exactly when it holds all its points. */
  lemma CoversIff(a: Box, b: Box)
    requires NonEmpty(b)
    ensures Covers(a, b) <==> forall x, y :: Contains(b, x, y) ==> Contains(a, x, y)
  {
    if forall x, y :: Contains(b, x, y) ==> Contains(a, x, y) {
      assert Contains(b, b.minx, b.miny) && Contains(b, b.maxx, b.maxy);
    }
  }

  predicate CoversAll(b: Box, s: seq<Entry>) { forall i :: 0 <= i < |s| ==> Covers(b, s[i].bb) }

  /** The least box over all the entries. */
  ghost predicate IsCover(b: Box, s: seq<Entry>) { CoversAll(b, s) && forall c :: CoversAll(c, s) ==> Covers(c, b) }

  /** The covering box of a node's entries; an empty node has the box at the origin. */
  method CoverOf(s: seq<Entry>) returns (b: Box)
    ensures CoversAll(b, s)
    ensures if s == [] then b == Box(0.0, 0.0, 0.0, 0.0) else IsCover(b, s)
  {
    if s == [] { return Box(0.0, 0.0, 0.0, 0.0); }
    b := s[0].bb;
    for k := 1 to |s|
      invariant IsCover(b, s[..k])
    {
      CoverMore(b, s[..k], s[k]);
      assert s[..k + 1] == s[..k] + [s[k]];
      b := Union(b, s[k].bb);
    }
    assert s[..|s|] == s;
  }

  lemma CoverMore(b: Box, s: seq<Entry>, e: Entry)
    requires IsCover(b, s)
    ensures IsCover(Union(b, e.bb), s + [e])
  {
    var t := s + [e];
    assert forall c :: CoversAll(c, t) ==> CoversAll(c, s) && Covers(c, e.bb) by {
      assert forall i :: 0 <= i < |s| ==> t[i] == s[i];
      assert t[|s|] == e;
    }
  }

  // ------------------------------------- seeds -------------------------------------

  /** Area wasted by putting two boxes in one group. */
  function Waste(a: Box, b: Box): real { Area(Union(a, b)) - Area(a) - Area(b) }

  /** The pair that wastes most. */
  method PickSeeds(s: seq<Entry>) returns (s1: nat, s2: nat)
    requires |s| >= 2
    ensures s1 < s2 < |s|
    ensures forall i, j :: 0 <= i < j < |s| ==> Waste(s[i].bb, s[j].bb) <= Waste(s[s1].bb, s[s2].bb)
  {
    hide Waste;
    s1, s2 := 0, 1;
    var worst := Waste(s[0].bb, s[1].bb);
    for i := 0 to |s|
      invariant s1 < s2 < |s| && worst == Waste(s[s1].bb, s[s2].bb)
      invariant forall a, b :: 0 <= a < i && a < b < |s| ==> Waste(s[a].bb, s[b].bb) <= worst
    {
      for j := i + 1 to |s|
        invariant s1 < s2 < |s| && worst == Waste(s[s1].bb, s[s2].bb)
        invariant forall a, b :: 0 <= a < i && a < b < |s| ==> Waste(s[a].bb, s[b].bb) <= worst
        invariant forall b :: i < b < j ==> Waste(s[i].bb, s[b].bb) <= worst
      {
        var d := Waste(s[i].bb, s[j].bb);
        if d > worst { worst, s1, s2 := d, i, j; }
      }
    }
  }

  // ------------------------------------ groups ------------------------------------

  function Pick(s: seq<Entry>, g: seq<nat>): (r: seq<Entry>)
    requires forall i :: 0 <= i < |g| ==> g[i] < |s|
    ensures |r| == |g| && forall i :: 0 <= i < |g| ==> r[i] == s[g[i]]
  {
    seq(|g|, i requires 0 <= i < |g| => s[g[i]])
  }

  lemma PickMore(s: seq<Entry>, g: seq<nat>, i: nat)
    requires (forall k :: 0 <= k < |g| ==> g[k] < |s|) && i < |s|
    ensures multiset(Pick(s, g + [i])) == multiset(Pick(s, g)) + multiset{s[i]}
  {
    assert Pick(s, g + [i]) == Pick(s, g) + [s[i]];
  }

  /** The entries not yet in a group, in order. */
  ghost function Rest(s: seq<Entry>, taken: seq<bool>): seq<Entry>
    requires |s| == |taken|
  {
    if s == [] then [] else (if taken[0] then [] else [s[0]]) + Rest(s[1..], taken[1..])
  }

  lemma {:induction false} RestAll(s: seq<Entry>, taken: seq<bool>)
    requires |s| == |taken|
    requires forall i :: 0 <= i < |s| ==> !taken[i]
    ensures Rest(s, taken) == s
  {
    if s != [] { RestAll(s[1..], taken[1..]); }
  }

  lemma {:induction false} RestNone(s: seq<Entry>, taken: seq<bool>)
    requires |s| == |taken|
    ensures (forall i :: 0 <= i < |s| ==> taken[i]) <==> Rest(s, taken) == []
  {
    if s != [] {
      RestNone(s[1..], taken[1..]);
      assert forall i :: 0 < i < |s| ==> taken[1..][i - 1] == taken[i];
    }
  }

  /** Putting one entry into a group takes exactly that entry out of the rest. */
  lemma {:induction false} RestTake(s: seq<Entry>, taken: seq<bool>, i: nat)
    requires |s| == |taken| && i < |s| && !taken[i]
    ensures multiset(Rest(s, taken)) == multiset(Rest(s, taken[i := true])) + multiset{s[i]}
    ensures |Rest(s, taken)| == |Rest(s, taken[i := true])| + 1
  {
    if i == 0 {
      assert taken[0 := true][1..] == taken[1..];
      assert Rest(s, taken) == [s[0]] + Rest(s[1..], taken[1..]);
    } else {
      RestTake(s[1..], taken[1..], i - 1);
      assert taken[i := true][1..] == taken[1..][i - 1 := true];
    }
  }

  /** How differently the two groups would grow. */
  function Preference(ba: Box, bb: Box, e: Box): real {
    var da, db := Enlarge(ba, e), Enlarge(bb, e);
    if da > db then da - db else db - da
  }

  /** The untaken entry with the strongest preference for one group, and which group it prefers. */
  method PickNext(s: seq<Entry>, taken: array<bool>, ba: Box, bb: Box) returns (pick: nat, toA: bool)
    requires taken.Length == |s| && exists i :: 0 <= i < |s| && !taken[i]
    ensures pick < |s| && !taken[pick]
    ensures toA <==> Enlarge(ba, s[pick].bb) < Enlarge(bb, s[pick].bb)
    ensures forall i :: 0 <= i < |s| && !taken[i] ==> Preference(ba, bb, s[i].bb) <= Preference(ba, bb, s[pick].bb)
  {
    hide Enlarge;
    var none, best := true, 0.0;
    pick, toA := 0, true;
    for i := 0 to |s|
      invariant none ==> forall k :: 0 <= k < i ==> taken[k]
      invariant !none ==> pick < i && !taken[pick] && best == Preference(ba, bb, s[pick].bb)
      invariant !none ==> (toA <==> Enlarge(ba, s[pick].bb) < Enlarge(bb, s[pick].bb))
      invariant !none ==> forall k :: 0 <= k < i && !taken[k] ==> Preference(ba, bb, s[k].bb) <= best
    {
      if !taken[i] {
        var da, db := Enlarge(ba, s[i].bb), Enlarge(bb, s[i].bb);
        var diff := if da > db then da - db else db - da;
        if none || diff > best { none, best, pick, toA := false, diff, i, da < db; }
      }
    }
  }

  function MinFill(cap: nat): nat { if cap * 2 / 5 < 1 then 1 else cap * 2 / 5 }

  /** Where a split stands: two groups and the rest together are all the entries. */
  ghost predicate Splitting(s: seq<Entry>, taken: seq<bool>, ga: seq<nat>, gb: seq<nat>) {
    && |taken| == |s|
    && (forall i :: 0 <= i < |ga| ==> ga[i] < |s|)
    && (forall i :: 0 <= i < |gb| ==> gb[i] < |s|)
    && multiset(Pick(s, ga)) + multiset(Pick(s, gb)) + multiset(Rest(s, taken)) == multiset(s)
  }

  lemma TakeA(s: seq<Entry>, taken: seq<bool>, ga: seq<nat>, gb: seq<nat>, i: nat)
    requires Splitting(s, taken, ga, gb) && i < |s| && !taken[i]
    ensures Splitting(s, taken[i := true], ga + [i], gb)
    ensures |Rest(s, taken)| == |Rest(s, taken[i := true])| + 1
  {
    RestTake(s, taken, i);
    PickMore(s, ga, i);
  }

  lemma TakeB(s: seq<Entry>, taken: seq<bool>, ga: seq<nat>, gb: seq<nat>, i: nat)
    requires Splitting(s, taken, ga, gb) && i < |s| && !taken[i]
    ensures Splitting(s, taken[i := true], ga, gb + [i])
    ensures |Rest(s, taken)| == |Rest(s, taken[i := true])| + 1
  {
    RestTake(s, taken, i);
    PickMore(s, gb, i);
  }

  lemma Empty(s: seq<Entry>, taken: seq<bool>)
    requires |taken| == |s| && forall i :: 0 <= i < |s| ==> !taken[i]
    ensures Splitting(s, taken, [], []) && |Rest(s, taken)| == |s|
  {
    RestAll(s, taken);
  }

  lemma SomeLeft(s: seq<Entry>, taken: seq<bool>)
    requires |taken| == |s| && |Rest(s, taken)| > 0
    ensures exists i :: 0 <= i < |s| && !taken[i]
  {
    RestNone(s, taken);
  }

  /** Every entry not yet taken, in order: what one group gets when it would otherwise end up too small. */
  method TakeRest(s: seq<Entry>, taken: array<bool>, g: seq<nat>, ghost other: seq<nat>) returns (all: seq<nat>)
    requires Splitting(s, taken[..], g, other)
    modifies taken
    ensures Splitting(s, taken[..], all, other)
    ensures |Rest(s, taken[..])| == 0 && |all| == |g| + old(|Rest(s, taken[..])|)
  {
    hide Splitting, Rest;
    SplitLength(s, taken[..], g, other);
    all := g;
    for i := 0 to |s|
      invariant Splitting(s, taken[..], all, other)
      invariant forall k :: 0 <= k < i ==> taken[k]
      invariant |all| + |Rest(s, taken[..])| == |g| + old(|Rest(s, taken[..])|)
    {
      if !taken[i] {
        TakeA(s, taken[..], all, other, i);
        ghost var was := taken[..];
        all := all + [i];
        taken[i] := true;
        assert taken[..] == was[i := true];
      }
    }
    RestNone(s, taken[..]);
  }

  lemma SplitLength(s: seq<Entry>, taken: seq<bool>, ga: seq<nat>, gb: seq<nat>)
    requires Splitting(s, taken, ga, gb)
    ensures |taken| == |s|
  {
  }

  lemma Swap(s: seq<Entry>, taken: seq<bool>, ga: seq<nat>, gb: seq<nat>)
    requires Splitting(s, taken, ga, gb)
    ensures Splitting(s, taken, gb, ga)
  {
  }

  lemma AllTaken(s: seq<Entry>, taken: seq<bool>, ga: seq<nat>, gb: seq<nat>)
    requires Splitting(s, taken, ga, gb) && |Rest(s, taken)| == 0
    ensures Partition(s, ga, gb)
  {
    assert Rest(s, taken) == [];
  }

  /** The two groups hold every entry exactly once between them. */
  ghost predicate Partition(s: seq<Entry>, ga: seq<nat>, gb: seq<nat>) {
    && (forall i :: 0 <= i < |ga| ==> ga[i] < |s|)
    && (forall i :: 0 <= i < |gb| ==> gb[i] < |s|)
    && multiset(Pick(s, ga)) + multiset(Pick(s, gb)) == multiset(s)
  }

  /**
   Splits the cap + 1 entries of an overflowing node. Both groups get at least two fifths of
   the capacity and at most the capacity.
   */
  method QuadSplit(s: seq<Entry>, cap: nat) returns (ga: seq<nat>, gb: seq<nat>)
    requires cap >= 1 && |s| == cap + 1
    ensures Partition(s, ga, gb)
    ensures MinFill(cap) <= |ga| <= cap && MinFill(cap) <= |gb| <= cap
  {
    hide Splitting, Rest, Union, Enlarge, Partition, Preference, Waste, Grouped;
    var taken := new bool[|s|](i => false);
    var s1, s2 := PickSeeds(s);
    Empty(s, taken[..]);
    TakeA(s, taken[..], [], [], s1);
    ghost var was := taken[..];
    taken[s1] := true;
    assert taken[..] == was[s1 := true];
    ga := [s1];
    assert [] + ga == ga;
    TakeB(s, taken[..], ga, [], s2);
    was := taken[..];
    taken[s2] := true;
    assert taken[..] == was[s2 := true];
    gb := [s2];
    assert [] + gb == gb;
    GroupOne(s, s1);
    GroupOne(s, s2);
    ga, gb := Distribute(s, cap, taken, ga, gb, s[s1].bb, s[s2].bb);
  }

  /** The box kept for a group is the group's covering box. */
  ghost predicate Grouped(s: seq<Entry>, g: seq<nat>, b: Box) {
    (forall i :: 0 <= i < |g| ==> g[i] < |s|) && IsCover(b, Pick(s, g))
  }

  lemma GroupOne(s: seq<Entry>, i: nat)
    requires i < |s|
    ensures Grouped(s, [i], s[i].bb)
  {
    assert Pick(s, [i]) == [s[i]];
    forall c | CoversAll(c, [s[i]]) ensures Covers(c, s[i].bb) { assert Covers(c, [s[i]][0].bb); }
  }

  lemma GroupMore(s: seq<Entry>, g: seq<nat>, b: Box, i: nat)
    requires Grouped(s, g, b) && i < |s|
    ensures Grouped(s, g + [i], Union(b, s[i].bb))
  {
    assert Pick(s, g + [i]) == Pick(s, g) + [s[i]];
    CoverMore(b, Pick(s, g), s[i]);
  }

  /** PickNext until one group must take all the rest; the preferences are those for the groups' covering boxes. */
  method Distribute(s: seq<Entry>, cap: nat, taken: array<bool>, a: seq<nat>, b: seq<nat>, ba0: Box, bb0: Box)
    returns (ga: seq<nat>, gb: seq<nat>)
    requires cap >= 1 && |s| == cap + 1 == taken.Length && |a| == |b| == 1 && Splitting(s, taken[..], a, b)
             && |Rest(s, taken[..])| == cap - 1
    requires Grouped(s, a, ba0) && Grouped(s, b, bb0)
    modifies taken
    ensures Partition(s, ga, gb)
    ensures MinFill(cap) <= |ga| <= cap && MinFill(cap) <= |gb| <= cap
  {
    hide Splitting, Rest, Union, Enlarge, Partition, Preference, Grouped;
    var min, remaining, ba, bb := MinFill(cap), cap - 1, ba0, bb0;
    ga, gb := a, b;
    while remaining > 0
      invariant taken.Length == |s| && Splitting(s, taken[..], ga, gb) && |Rest(s, taken[..])| == remaining
      invariant |ga| >= 1 && |gb| >= 1
      invariant |ga| + |gb| + remaining == cap + 1
      invariant |ga| + remaining >= min && |gb| + remaining >= min
      invariant remaining > 0 ==> Grouped(s, ga, ba) && Grouped(s, gb, bb)
      decreases remaining
    {
      if |ga| + remaining == min {
        ga := TakeRest(s, taken, ga, gb);
        remaining := 0;
        break;
      }
      if |gb| + remaining == min {
        Swap(s, taken[..], ga, gb);
        gb := TakeRest(s, taken, gb, ga);
        Swap(s, taken[..], gb, ga);
        remaining := 0;
        break;
      }
      SplitLength(s, taken[..], ga, gb);
      SomeLeft(s, taken[..]);
      var pick, toA := PickNext(s, taken, ba, bb);
      if toA { TakeA(s, taken[..], ga, gb, pick); } else { TakeB(s, taken[..], ga, gb, pick); }
      ghost var was := taken[..];
      taken[pick] := true;
      assert taken[..] == was[pick := true];
      remaining := remaining - 1;
      if toA {
        GroupMore(s, ga, ba, pick);
        ga, ba := ga + [pick], Union(ba, s[pick].bb);
      } else {
        GroupMore(s, gb, bb, pick);
        gb, bb := gb + [pick], Union(bb, s[pick].bb);
      }
    }
    AllTaken(s, taken[..], ga, gb);
  }
}
