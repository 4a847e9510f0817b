/**
 The nested-loop join. A combined row has the columns of every source side by side; the columns
 of sources not yet joined are NULL. The ON and WHERE conditions are functions of a combined row.
 */
module Joins {
  import opened Values

  type Row = seq<Value>

  datatype Kind = Inner | Left | Right | Full

  datatype Condition = Always | When(test: Row -> bool)

  /** A source's columns begin at `base` of the combined row. */
  datatype Source = Source(base: nat, ncol: nat, kind: Kind, on: Condition, rows: seq<Row>)

  predicate Holds(c: Condition, row: Row) { c.Always? || c.test(row) }

  predicate KeepsLeft(k: Kind) { k.Left? || k.Full? }

  predicate KeepsRight(k: Kind) { k.Right? || k.Full? }

  predicate Fits(src: Source, total: nat) {
    src.base + src.ncol <= total && forall i :: 0 <= i < |src.rows| ==> |src.rows[i]| == src.ncol
  }

  function Nulls(n: nat): (r: Row)
    ensures |r| == n && forall i :: 0 <= i < n ==> r[i] == Null
  {
    seq(n, i => Null)
  }

  /** The combined row with a source's columns overwritten. */
  function Put(row: Row, base: nat, r: Row): (o: Row)
    requires base + |r| <= |row|
    ensures |o| == |row|
  {
    row[..base] + r + row[base + |r|..]
  }

  /** The source's columns are the row's values, the others are as they were. */
  lemma PutAt(row: Row, base: nat, r: Row, k: nat)
    requires base + |r| <= |row| && k < |row|
    ensures Put(row, base, r)[k] == if base <= k < base + |r| then r[k - base] else row[k]
  {
  }

  // ------------------------------- what a join means -------------------------------

  /** Row l with the rows of rs that satisfy ON, in order. */
  function Pairs(l: Row, src: Source, rs: seq<Row>): (o: seq<Row>)
    requires Fits(src, |l|) && forall i :: 0 <= i < |rs| ==> |rs[i]| == src.ncol
  {
    if rs == [] then []
    else
      var c := Put(l, src.base, rs[|rs| - 1]);
      Pairs(l, src, rs[..|rs| - 1]) + if Holds(src.on, c) then [c] else []
  }

  /** A left row that matches nothing is kept as it is by LEFT and FULL joins. */
  function Matches(l: Row, src: Source): seq<Row>
    requires Fits(src, |l|)
  {
    var ps := Pairs(l, src, src.rows);
    if ps == [] && KeepsLeft(src.kind) then [l] else ps
  }

  predicate AllWide(rows: seq<Row>, total: nat) { forall i :: 0 <= i < |rows| ==> |rows[i]| == total }

  function AllMatches(left: seq<Row>, src: Source, total: nat): seq<Row>
    requires AllWide(left, total) && Fits(src, total)
  {
    if left == [] then [] else AllMatches(left[..|left| - 1], src, total) + Matches(left[|left| - 1], src)
  }

  predicate Matched(left: seq<Row>, src: Source, r: Row, total: nat)
    requires AllWide(left, total) && Fits(src, total) && |r| == src.ncol
  {
    exists i :: 0 <= i < |left| && Holds(src.on, Put(left[i], src.base, r))
  }

  /** Right rows that match no left row, padded with NULL, for RIGHT and FULL joins. */
  function Unmatched(left: seq<Row>, src: Source, rs: seq<Row>, total: nat): seq<Row>
    requires AllWide(left, total) && Fits(src, total) && forall i :: 0 <= i < |rs| ==> |rs[i]| == src.ncol
  {
    if rs == [] then []
    else
      var r := rs[|rs| - 1];
      Unmatched(left, src, rs[..|rs| - 1], total) + if Matched(left, src, r, total) then [] else [Put(Nulls(total), src.base, r)]
  }

  function Join(left: seq<Row>, src: Source, total: nat): seq<Row>
    requires AllWide(left, total) && Fits(src, total)
  {
    AllMatches(left, src, total) + if KeepsRight(src.kind) then Unmatched(left, src, src.rows, total) else []
  }

  /** The columns of the source are still NULL. */
  predicate Blank(row: Row, src: Source)
    requires Fits(src, |row|)
  {
    forall k :: src.base <= k < src.base + src.ncol ==> row[k] == Null
  }

  // -------------------------- membership, both directions --------------------------

  lemma {:induction false} PairsHold(l: Row, src: Source, rs: seq<Row>, x: Row)
    requires Fits(src, |l|) && forall i :: 0 <= i < |rs| ==> |rs[i]| == src.ncol
    ensures x in Pairs(l, src, rs) <==> exists i :: 0 <= i < |rs| && x == Put(l, src.base, rs[i]) && Holds(src.on, x)
  {
    if rs != [] {
      var front := rs[..|rs| - 1];
      PairsHold(l, src, front, x);
      assert forall i :: 0 <= i < |front| ==> front[i] == rs[i];
      var c := Put(l, src.base, rs[|rs| - 1]);
      assert x in Pairs(l, src, rs) <==> x in Pairs(l, src, front) || (Holds(src.on, c) && x == c);
    }
  }

  lemma {:induction false} AllMatchesHold(left: seq<Row>, src: Source, total: nat, x: Row)
    requires AllWide(left, total) && Fits(src, total)
    ensures x in AllMatches(left, src, total) <==> exists i :: 0 <= i < |left| && x in Matches(left[i], src)
  {
    hide Matches;
    if left != [] {
      var front := left[..|left| - 1];
      AllMatchesHold(front, src, total, x);
      assert forall i :: 0 <= i < |front| ==> front[i] == left[i];
      assert x in AllMatches(left, src, total) <==> x in AllMatches(front, src, total) || x in Matches(left[|left| - 1], src);
    }
  }

  lemma {:induction false} UnmatchedHold(left: seq<Row>, src: Source, rs: seq<Row>, total: nat, x: Row)
    requires AllWide(left, total) && Fits(src, total) && forall i :: 0 <= i < |rs| ==> |rs[i]| == src.ncol
    ensures x in Unmatched(left, src, rs, total)
       <==> exists i :: 0 <= i < |rs| && x == Put(Nulls(total), src.base, rs[i]) && !Matched(left, src, rs[i], total)
  {
    hide Matched, Nulls;
    if rs != [] {
      var front := rs[..|rs| - 1];
      UnmatchedHold(left, src, front, total, x);
      assert forall i :: 0 <= i < |front| ==> front[i] == rs[i];
      var r := rs[|rs| - 1];
      assert x in Unmatched(left, src, rs, total)
        <==> x in Unmatched(left, src, front, total) || (!Matched(left, src, r, total) && x == Put(Nulls(total), src.base, r));
    }
  }

  ghost predicate IsPair(left: seq<Row>, src: Source, total: nat, x: Row)
    requires AllWide(left, total) && Fits(src, total)
  {
    exists i, j :: 0 <= i < |left| && 0 <= j < |src.rows| && x == Put(left[i], src.base, src.rows[j]) && Holds(src.on, x)
  }

  ghost predicate IsLoneLeft(left: seq<Row>, src: Source, total: nat, x: Row)
    requires AllWide(left, total) && Fits(src, total)
  {
    x in left && forall j :: 0 <= j < |src.rows| ==> |x| == total && !Holds(src.on, Put(x, src.base, src.rows[j]))
  }

  ghost predicate IsLoneRight(left: seq<Row>, src: Source, total: nat, x: Row)
    requires AllWide(left, total) && Fits(src, total)
  {
    exists j :: 0 <= j < |src.rows| && x == Put(Nulls(total), src.base, src.rows[j]) && !Matched(left, src, src.rows[j], total)
  }

  lemma MatchesHold(left: seq<Row>, src: Source, total: nat, i: nat, x: Row)
    requires AllWide(left, total) && Fits(src, total) && i < |left|
    ensures x in Matches(left[i], src) <==>
      (exists j :: 0 <= j < |src.rows| && x == Put(left[i], src.base, src.rows[j]) && Holds(src.on, x))
      || (KeepsLeft(src.kind) && x == left[i] && forall j :: 0 <= j < |src.rows| ==> !Holds(src.on, Put(left[i], src.base, src.rows[j])))
  {
    var ps := Pairs(left[i], src, src.rows);
    PairsHold(left[i], src, src.rows, x);
    if ps == [] {
      forall j | 0 <= j < |src.rows| ensures !Holds(src.on, Put(left[i], src.base, src.rows[j])) {
        PairsHold(left[i], src, src.rows, Put(left[i], src.base, src.rows[j]));
      }
    } else {
      PairsHold(left[i], src, src.rows, ps[0]);
    }
  }

  /** A joined row is a matching pair, or a row that matches nothing on a side the join keeps. */
  lemma JoinMembers(left: seq<Row>, src: Source, total: nat, x: Row)
    requires AllWide(left, total) && Fits(src, total)
    ensures x in Join(left, src, total) <==>
      IsPair(left, src, total, x) || (KeepsLeft(src.kind) && IsLoneLeft(left, src, total, x)) || (KeepsRight(src.kind) && IsLoneRight(left, src, total, x))
  {
    hide Matches, AllMatches, Unmatched, Matched, Holds, Put, Nulls;
    AllMatchesHold(left, src, total, x);
    UnmatchedHold(left, src, src.rows, total, x);
    forall i: nat | i < |left|
      ensures x in Matches(left[i], src) <==>
        (exists j :: 0 <= j < |src.rows| && x == Put(left[i], src.base, src.rows[j]) && Holds(src.on, x))
        || (KeepsLeft(src.kind) && x == left[i] && forall j :: 0 <= j < |src.rows| ==> !Holds(src.on, Put(left[i], src.base, src.rows[j])))
    {
      MatchesHold(left, src, total, i, x);
    }
  }

  // ------------------------- where each joined row comes from -------------------------

  /** A left and a right row that match, or one of either side that matches nothing. */
  datatype Origin = Pair(i: nat, j: nat) | LoneLeft(i: nat) | LoneRight(j: nat)

  ghost predicate Matching(left: seq<Row>, src: Source, total: nat, i: nat, j: nat)
    requires AllWide(left, total) && Fits(src, total) && i < |left| && j < |src.rows|
  {
    Holds(src.on, Put(left[i], src.base, src.rows[j]))
  }

  /** The join has a row for this origin. */
  ghost predicate Occurs(left: seq<Row>, src: Source, total: nat, o: Origin)
    requires AllWide(left, total) && Fits(src, total)
  {
    match o
    case Pair(i, j) => i < |left| && j < |src.rows| && Matching(left, src, total, i, j)
    case LoneLeft(i) =>
      (src.kind == Left || src.kind == Full) && i < |left|
      && forall j :: 0 <= j < |src.rows| ==> !Matching(left, src, total, i, j)
    case LoneRight(j) =>
      (src.kind == Right || src.kind == Full) && j < |src.rows|
      && forall i :: 0 <= i < |left| ==> !Matching(left, src, total, i, j)
  }

  ghost function RowFrom(left: seq<Row>, src: Source, total: nat, o: Origin): Row
    requires AllWide(left, total) && Fits(src, total) && Occurs(left, src, total, o)
  {
    match o
    case Pair(i, j) => Put(left[i], src.base, src.rows[j])
    case LoneLeft(i) => left[i]
    case LoneRight(j) => Put(Nulls(total), src.base, src.rows[j])
  }

  /** Left rows in order, each with its right rows in order; lone right rows at the end. */
  ghost predicate Before(a: Origin, b: Origin) {
    match (a, b)
    case (LoneRight(j), LoneRight(j')) => j < j'
    case (LoneRight(_), _) => false
    case (_, LoneRight(_)) => true
    case (Pair(i, j), Pair(i', j')) => i < i' || (i == i' && j < j')
    case _ => a.i < b.i
  }

  /** `os` are the origins in `dom` that occur, each once and in order, and `rows` are their rows. */
  ghost predicate Lists(left: seq<Row>, src: Source, total: nat, rows: seq<Row>, os: seq<Origin>, dom: iset<Origin>)
    requires AllWide(left, total) && Fits(src, total)
  {
    && |os| == |rows| && (forall a, b :: 0 <= a < b < |os| ==> Before(os[a], os[b]))
    && (forall k :: 0 <= k < |os| ==> os[k] in dom && Occurs(left, src, total, os[k]) && rows[k] == RowFrom(left, src, total, os[k]))
    && (forall o :: o in dom && Occurs(left, src, total, o) ==> o in os)
  }

  /** The same of all origins. */
  ghost predicate ListsAll(left: seq<Row>, src: Source, total: nat, rows: seq<Row>, os: seq<Origin>)
    requires AllWide(left, total) && Fits(src, total)
  {
    && |os| == |rows| && (forall a, b :: 0 <= a < b < |os| ==> Before(os[a], os[b]))
    && (forall k :: 0 <= k < |os| ==> Occurs(left, src, total, os[k]) && rows[k] == RowFrom(left, src, total, os[k]))
    && (forall o :: Occurs(left, src, total, o) ==> o in os)
  }

  lemma ListsConcat(left: seq<Row>, src: Source, total: nat, rows: seq<Row>, os: seq<Origin>, dom: iset<Origin>,
                    rows': seq<Row>, os': seq<Origin>, dom': iset<Origin>)
    requires AllWide(left, total) && Fits(src, total)
    requires Lists(left, src, total, rows, os, dom) && Lists(left, src, total, rows', os', dom')
    requires forall a, b :: a in dom && b in dom' ==> Before(a, b)
    ensures Lists(left, src, total, rows + rows', os + os', dom + dom')
  {
    hide Occurs, Before, RowFrom;
  }

  lemma ListsNothing(left: seq<Row>, src: Source, total: nat, dom: iset<Origin>)
    requires AllWide(left, total) && Fits(src, total)
    requires forall o :: o in dom ==> !Occurs(left, src, total, o)
    ensures Lists(left, src, total, [], [], dom)
  {
  }

  lemma ListsOne(left: seq<Row>, src: Source, total: nat, o: Origin)
    requires AllWide(left, total) && Fits(src, total) && Occurs(left, src, total, o)
    ensures Lists(left, src, total, [RowFrom(left, src, total, o)], [o], iset{o})
  {
    hide Occurs, RowFrom;
  }

  /** The pairs of left row i with the first n right rows. */
  ghost function PairsAt(i: nat, n: nat): iset<Origin> { iset o: Origin | o.Pair? && o.i == i && o.j < n }

  /** The first n right rows that match nothing. */
  ghost function FromRight(n: nat): iset<Origin> { iset o: Origin | o.LoneRight? && o.j < n }

  lemma {:induction false} PairsListed(left: seq<Row>, src: Source, total: nat, i: nat, n: nat)
    returns (os: seq<Origin>)
    requires AllWide(left, total) && Fits(src, total) && i < |left| && n <= |src.rows|
    ensures Lists(left, src, total, Pairs(left[i], src, src.rows[..n]), os, PairsAt(i, n))
    decreases n
  {
    hide Lists, Put, Holds;
    if n == 0 {
      os := [];
      ListsNothing(left, src, total, PairsAt(i, 0));
    } else {
      os := PairsListed(left, src, total, i, n - 1);
      PairsMore(left[i], src, n - 1);
      var o := Pair(i, n - 1);
      assert PairsAt(i, n) == PairsAt(i, n - 1) + iset{o};
      var more: seq<Row>, os' := [], [];
      if Occurs(left, src, total, o) {
        more, os' := [RowFrom(left, src, total, o)], [o];
        ListsOne(left, src, total, o);
      } else {
        ListsNothing(left, src, total, iset{o});
      }
      ListsConcat(left, src, total, Pairs(left[i], src, src.rows[..n - 1]), os, PairsAt(i, n - 1), more, os', iset{o});
      os := os + os';
    }
  }

  ghost function RowOrigins(i: nat, n: nat): iset<Origin> { PairsAt(i, n) + iset{LoneLeft(i)} }

  lemma MatchesListed(left: seq<Row>, src: Source, total: nat, i: nat) returns (os: seq<Origin>)
    requires AllWide(left, total) && Fits(src, total) && i < |left|
    ensures Lists(left, src, total, Matches(left[i], src), os, RowOrigins(i, |src.rows|))
  {
    var n := |src.rows|;
    assert src.rows[..n] == src.rows;
    os := PairsListed(left, src, total, i, n);
    var ps := Pairs(left[i], src, src.rows);
    PairsNone(left, src, total, i, ps, os);
    hide Put, Holds, Pairs;
    if ps == [] && KeepsLeft(src.kind) {
      assert Occurs(left, src, total, LoneLeft(i));
      os := [LoneLeft(i)];
    } else {
      assert !Occurs(left, src, total, LoneLeft(i));
    }
  }

  lemma PairsNone(left: seq<Row>, src: Source, total: nat, i: nat, ps: seq<Row>, os: seq<Origin>)
    requires AllWide(left, total) && Fits(src, total) && i < |left|
    requires Lists(left, src, total, ps, os, PairsAt(i, |src.rows|))
    ensures ps == [] <==> forall j :: 0 <= j < |src.rows| ==> !Matching(left, src, total, i, j)
  {
    if ps == [] {
      forall j | 0 <= j < |src.rows| ensures !Matching(left, src, total, i, j) {
        assert Pair(i, j) in PairsAt(i, |src.rows|);
      }
    } else {
      assert Occurs(left, src, total, os[0]) && os[0] in PairsAt(i, |src.rows|);
    }
  }

  lemma {:induction false} LeftListed(left: seq<Row>, src: Source, total: nat, n: nat) returns (os: seq<Origin>)
    requires AllWide(left, total) && Fits(src, total) && n <= |left|
    ensures AllWide(left[..n], total)
            && Lists(left, src, total, AllMatches(left[..n], src, total), os, LeftOrigins(n, |src.rows|))
    decreases n
  {
    hide Lists, Matches;
    if n == 0 {
      os := [];
      ListsNothing(left, src, total, LeftOrigins(0, |src.rows|));
    } else {
      os := LeftListed(left, src, total, n - 1);
      var os' := MatchesListed(left, src, total, n - 1);
      assert left[..n][..n - 1] == left[..n - 1] && left[..n][n - 1] == left[n - 1];
      var m := |src.rows|;
      ListsConcat(left, src, total, AllMatches(left[..n - 1], src, total), os, LeftOrigins(n - 1, m),
                  Matches(left[n - 1], src), os', RowOrigins(n - 1, m));
      assert LeftOrigins(n, m) == LeftOrigins(n - 1, m) + RowOrigins(n - 1, m);
      os := os + os';
    }
  }

  ghost function LeftOrigins(n: nat, m: nat): iset<Origin> {
    iset o: Origin | (o.Pair? && o.i < n && o.j < m) || (o.LoneLeft? && o.i < n)
  }

  lemma LoneRightIff(left: seq<Row>, src: Source, total: nat, j: nat)
    requires AllWide(left, total) && Fits(src, total) && j < |src.rows| && KeepsRight(src.kind)
    ensures Occurs(left, src, total, LoneRight(j)) <==> !Matched(left, src, src.rows[j], total)
  {
    hide Put, Holds;
    if Matched(left, src, src.rows[j], total) {
      var i :| 0 <= i < |left| && Holds(src.on, Put(left[i], src.base, src.rows[j]));
      assert Matching(left, src, total, i, j);
    }
  }

  lemma {:induction false} RightListed(left: seq<Row>, src: Source, total: nat, n: nat) returns (os: seq<Origin>)
    requires AllWide(left, total) && Fits(src, total) && n <= |src.rows| && KeepsRight(src.kind)
    ensures Lists(left, src, total, Unmatched(left, src, src.rows[..n], total), os, FromRight(n))
    decreases n
  {
    hide Lists, Put, Holds;
    if n == 0 {
      os := [];
      ListsNothing(left, src, total, FromRight(0));
    } else {
      os := RightListed(left, src, total, n - 1);
      var o := LoneRight(n - 1);
      assert src.rows[..n][..n - 1] == src.rows[..n - 1];
      assert FromRight(n) == FromRight(n - 1) + iset{o};
      LoneRightIff(left, src, total, n - 1);
      var more: seq<Row>, os' := [], [];
      if Occurs(left, src, total, o) {
        more, os' := [RowFrom(left, src, total, o)], [o];
        ListsOne(left, src, total, o);
      } else {
        ListsNothing(left, src, total, iset{o});
      }
      ListsConcat(left, src, total, Unmatched(left, src, src.rows[..n - 1], total), os, FromRight(n - 1), more, os', iset{o});
      os := os + os';
    }
  }

  /**
   A join has exactly one row for each matching pair, for each lone left row where it keeps left
   ones and for each lone right row where it keeps right ones: pairs in the order of the left and
   then the right row, lone right rows at the end.
   */
  lemma JoinOrigins(left: seq<Row>, src: Source, total: nat) returns (os: seq<Origin>)
    requires AllWide(left, total) && Fits(src, total)
    ensures ListsAll(left, src, total, Join(left, src, total), os)
  {
    hide AllMatches, Unmatched, Matches;
    assert left[..|left|] == left && src.rows[..|src.rows|] == src.rows;
    os := LeftListed(left, src, total, |left|);
    var more: seq<Row>, os' := [], [];
    if KeepsRight(src.kind) {
      os' := RightListed(left, src, total, |src.rows|);
      more := Unmatched(left, src, src.rows, total);
    } else {
      ListsNothing(left, src, total, FromRight(|src.rows|));
    }
    ListsConcat(left, src, total, AllMatches(left, src, total), os, LeftOrigins(|left|, |src.rows|), more, os', FromRight(|src.rows|));
    os := os + os';
    AllListed(left, src, total, Join(left, src, total), os);
  }

  lemma AllListed(left: seq<Row>, src: Source, total: nat, rows: seq<Row>, os: seq<Origin>)
    requires AllWide(left, total) && Fits(src, total)
    requires Lists(left, src, total, rows, os, LeftOrigins(|left|, |src.rows|) + FromRight(|src.rows|))
    ensures ListsAll(left, src, total, rows, os)
  {
  }

  /** The origins of one row of the join. */
  ghost function Origins(left: seq<Row>, src: Source, total: nat, x: Row): set<Origin>
    requires AllWide(left, total) && Fits(src, total)
  {
    PairsOf(left, src, total, x) + LoneLeftsOf(left, src, total, x) + LoneRightsOf(left, src, total, x)
  }

  ghost function PairsOf(left: seq<Row>, src: Source, total: nat, x: Row): set<Origin>
    requires AllWide(left, total) && Fits(src, total)
  {
    set i: nat, j: nat | i < |left| && j < |src.rows| && IsFrom(left, src, total, Pair(i, j), x) :: Pair(i, j)
  }

  ghost function LoneLeftsOf(left: seq<Row>, src: Source, total: nat, x: Row): set<Origin>
    requires AllWide(left, total) && Fits(src, total)
  {
    set i: nat | i < |left| && IsFrom(left, src, total, LoneLeft(i), x) :: LoneLeft(i)
  }

  ghost function LoneRightsOf(left: seq<Row>, src: Source, total: nat, x: Row): set<Origin>
    requires AllWide(left, total) && Fits(src, total)
  {
    set j: nat | j < |src.rows| && IsFrom(left, src, total, LoneRight(j), x) :: LoneRight(j)
  }

  ghost predicate IsFrom(left: seq<Row>, src: Source, total: nat, o: Origin, x: Row)
    requires AllWide(left, total) && Fits(src, total)
  {
    Occurs(left, src, total, o) && RowFrom(left, src, total, o) == x
  }

  /** A row occurs in the join as often as there are matching pairs and lone rows that give it. */
  lemma JoinCounts(left: seq<Row>, src: Source, total: nat, x: Row)
    requires AllWide(left, total) && Fits(src, total)
    ensures multiset(Join(left, src, total))[x]
         == |PairsOf(left, src, total, x)| + |LoneLeftsOf(left, src, total, x)| + |LoneRightsOf(left, src, total, x)|
  {
    hide Join, Occurs, RowFrom, Before;
    var rows := Join(left, src, total);
    var os := JoinOrigins(left, src, total);
    forall a, b | 0 <= a < b < |os| ensures os[a] != os[b] { BeforeDiffers(os[a], os[b]); }
    CountByOrigin(rows, os, x);
    assert Picked(rows, os, x) == Origins(left, src, total, x) by { PickedAre(left, src, total, rows, os, x); }
    var p, l, r := PairsOf(left, src, total, x), LoneLeftsOf(left, src, total, x), LoneRightsOf(left, src, total, x);
    assert p !! l && (p + l) !! r;
  }

  lemma BeforeDiffers(a: Origin, b: Origin)
    requires Before(a, b)
    ensures a != b
  {
  }

  ghost function Picked(rows: seq<Row>, os: seq<Origin>, x: Row): set<Origin>
    requires |os| == |rows|
  {
    set k | 0 <= k < |rows| && rows[k] == x :: os[k]
  }

  lemma {:induction false} CountByOrigin(rows: seq<Row>, os: seq<Origin>, x: Row)
    requires |os| == |rows| && forall a, b :: 0 <= a < b < |os| ==> os[a] != os[b]
    ensures multiset(rows)[x] == |Picked(rows, os, x)|
  {
    if rows != [] {
      var n := |rows| - 1;
      CountByOrigin(rows[..n], os[..n], x);
      assert rows == rows[..n] + [rows[n]];
      assert Picked(rows, os, x) == Picked(rows[..n], os[..n], x) + if rows[n] == x then {os[n]} else {};
    } else {
      assert Picked(rows, os, x) == {};
    }
  }

  lemma PickedAre(left: seq<Row>, src: Source, total: nat, rows: seq<Row>, os: seq<Origin>, x: Row)
    requires AllWide(left, total) && Fits(src, total) && ListsAll(left, src, total, rows, os)
    ensures Picked(rows, os, x) == Origins(left, src, total, x)
  {
    hide RowFrom, Before;
    forall o ensures o in Picked(rows, os, x) <==> IsFrom(left, src, total, o, x) {
      if IsFrom(left, src, total, o, x) {
        var k :| 0 <= k < |os| && os[k] == o;
      }
    }
    forall o ensures o in Origins(left, src, total, x) <==> IsFrom(left, src, total, o, x) { OriginBounds(left, src, total, o); }
  }

  lemma OriginBounds(left: seq<Row>, src: Source, total: nat, o: Origin)
    requires AllWide(left, total) && Fits(src, total)
    ensures Occurs(left, src, total, o) ==> (!o.LoneRight? ==> o.i < |left|) && (!o.LoneLeft? ==> o.j < |src.rows|)
  {
  }

  // ----------------------------------- one source -----------------------------------

  /** Equal outside the columns of the source. */
  predicate SameOutside(a: Row, b: Row, src: Source) {
    |a| == |b| && Fits(src, |a|) && a[..src.base] == b[..src.base] && a[src.base + src.ncol..] == b[src.base + src.ncol..]
  }

  /** Overwriting a candidate again gives the pair of the original left row. */
  lemma PutAgain(a: Row, l: Row, src: Source, r: Row)
    requires SameOutside(a, l, src) && |r| == src.ncol
    ensures Put(a, src.base, r) == Put(l, src.base, r) && SameOutside(Put(a, src.base, r), l, src)
  {
  }

  /** Setting the source's columns to NULL restores the left row. */
  lemma PutBack(a: Row, l: Row, src: Source)
    requires SameOutside(a, l, src) && Blank(l, src)
    ensures Put(a, src.base, Nulls(src.ncol)) == l
  {
    var n := Nulls(src.ncol);
    assert l == l[..src.base] + l[src.base..src.base + src.ncol] + l[src.base + src.ncol..];
    assert l[src.base..src.base + src.ncol] == n;
  }

  lemma PairsMore(l: Row, src: Source, k: nat)
    requires Fits(src, |l|) && k < |src.rows|
    ensures var c := Put(l, src.base, src.rows[k]);
            Pairs(l, src, src.rows[..k + 1]) == Pairs(l, src, src.rows[..k]) + if Holds(src.on, c) then [c] else []
  {
    assert src.rows[..k + 1][..k] == src.rows[..k];
  }

  /** Right row k has matched one of the first n left rows. */
  ghost predicate Seen(left: seq<Row>, n: nat, src: Source, k: nat, total: nat)
    requires AllWide(left, total) && Fits(src, total) && n <= |left| && k < |src.rows|
  {
    exists i :: 0 <= i < n && Holds(src.on, Put(left[i], src.base, src.rows[k]))
  }

  lemma SeenNext(left: seq<Row>, n: nat, src: Source, k: nat, total: nat)
    requires AllWide(left, total) && Fits(src, total) && n < |left| && k < |src.rows|
    ensures Seen(left, n + 1, src, k, total) <==> Seen(left, n, src, k, total) || Holds(src.on, Put(left[n], src.base, src.rows[k]))
  {
  }

  /** One left row against every right row: the candidate is written over the left row itself. */
  method JoinRow(acc: array<Row>, li: nat, src: Source, total: nat, rmatched: array<bool>) returns (next: seq<Row>)
    requires li < acc.Length && AllWide(acc[..], total) && Fits(src, total) && Blank(acc[li], src)
             && rmatched.Length == |src.rows|
    modifies acc, rmatched
    ensures acc[..] == old(acc[..])
    ensures next == Matches(acc[li], src)
    ensures forall k :: 0 <= k < |src.rows|
              ==> (rmatched[k] <==> old(rmatched[k]) || Holds(src.on, Put(acc[li], src.base, src.rows[k])))
  {
    hide Holds, Put;
    ghost var was, l := acc[..], acc[li];
    var lmatched := false;
    next := [];
    assert src.rows[..0] == [];
    for ri := 0 to |src.rows|
      invariant SameOutside(acc[li], l, src) && acc[..] == was[li := acc[li]]
      invariant next == Pairs(l, src, src.rows[..ri]) && (lmatched <==> next != [])
      invariant forall k :: 0 <= k < ri
                  ==> (rmatched[k] <==> old(rmatched[k]) || Holds(src.on, Put(l, src.base, src.rows[k])))
      invariant forall k :: ri <= k < |src.rows| ==> rmatched[k] == old(rmatched[k])
    {
      PutAgain(acc[li], l, src, src.rows[ri]);
      PairsMore(l, src, ri);
      acc[li] := Put(acc[li], src.base, src.rows[ri]);
      if Holds(src.on, acc[li]) {
        next := next + [acc[li]];
        lmatched, rmatched[ri] := true, true;
      }
    }
    assert src.rows[..|src.rows|] == src.rows;
    PutBack(acc[li], l, src);
    acc[li] := Put(acc[li], src.base, Nulls(src.ncol));
    assert acc[..] == was;
    if !lmatched && KeepsLeft(src.kind) { next := next + [acc[li]]; }
  }

  /** One source: every left row, then the right rows that matched nothing. */
  method JoinSource(acc: array<Row>, src: Source, total: nat) returns (next: seq<Row>)
    requires AllWide(acc[..], total) && Fits(src, total) && forall i :: 0 <= i < acc.Length ==> Blank(acc[i], src)
    modifies acc
    ensures acc[..] == old(acc[..])
    ensures next == Join(acc[..], src, total)
  {
    hide Holds, Put, Matches, Pairs, Blank;
    ghost var left := acc[..];
    var rmatched := new bool[|src.rows|](i => false);
    next := [];
    for li := 0 to acc.Length
      invariant acc[..] == left && AllWide(left[..li], total)
      invariant next == AllMatches(left[..li], src, total)
      invariant forall k :: 0 <= k < |src.rows| ==> (rmatched[k] <==> Seen(left, li, src, k, total))
    {
      assert left[..li + 1][..li] == left[..li] && acc[li] == left[li] == left[..li + 1][li];
      ghost var before := rmatched[..];
      var more := JoinRow(acc, li, src, total, rmatched);
      next := next + more;
      forall k | 0 <= k < |src.rows| ensures rmatched[k] <==> Seen(left, li + 1, src, k, total) {
        assert before[k] <==> Seen(left, li, src, k, total);
        SeenNext(left, li, src, k, total);
      }
    }
    assert left[..acc.Length] == left;
    if KeepsRight(src.kind) {
      var lone := LoneRights(src, total, rmatched, left);
      next := next + lone;
    }
  }

  method LoneRights(src: Source, total: nat, rmatched: array<bool>, ghost left: seq<Row>) returns (lone: seq<Row>)
    requires AllWide(left, total) && Fits(src, total) && rmatched.Length == |src.rows|
    requires forall k :: 0 <= k < |src.rows| ==> (rmatched[k] <==> Seen(left, |left|, src, k, total))
    ensures lone == Unmatched(left, src, src.rows, total)
  {
    hide Holds, Put;
    lone := [];
    assert src.rows[..0] == [];
    for ri := 0 to |src.rows|
      invariant lone == Unmatched(left, src, src.rows[..ri], total)
    {
      assert src.rows[..ri + 1][..ri] == src.rows[..ri];
      assert rmatched[ri] <==> Seen(left, |left|, src, ri, total);
      if !rmatched[ri] { lone := lone + [Put(Nulls(total), src.base, src.rows[ri])]; }
    }
    assert src.rows[..|src.rows|] == src.rows;
  }

  // ----------------------------------- every source -----------------------------------

  /** Sources stand side by side in the combined row. */
  predicate Layout(srcs: seq<Source>, total: nat) {
    && (forall s :: 0 <= s < |srcs| ==> Fits(srcs[s], total))
    && (forall t, s :: 0 <= t < s < |srcs| ==> srcs[t].base + srcs[t].ncol <= srcs[s].base)
  }

  /** The first source's rows, padded with NULL. */
  function First(src: Source, total: nat): (o: seq<Row>)
    requires Fits(src, total)
    ensures |o| == |src.rows| && forall i :: 0 <= i < |o| ==> o[i] == Put(Nulls(total), src.base, src.rows[i])
  {
    seq(|src.rows|, i requires 0 <= i < |src.rows| => Put(Nulls(total), src.base, src.rows[i]))
  }

  /** The first n sources joined, left to right. */
  function JoinFirst(srcs: seq<Source>, n: nat, total: nat): (o: seq<Row>)
    requires 1 <= n <= |srcs| && Layout(srcs, total)
    ensures AllWide(o, total)
    decreases n
  {
    if n == 1 then First(srcs[0], total)
    else
      var left := JoinFirst(srcs, n - 1, total);
      JoinWide(left, srcs[n - 1], total);
      Join(left, srcs[n - 1], total)
  }

  function Filter(rows: seq<Row>, where: Condition): seq<Row> {
    if rows == [] then []
    else Filter(rows[..|rows| - 1], where) + if Holds(where, rows[|rows| - 1]) then [rows[|rows| - 1]] else []
  }

  ghost predicate InSources(srcs: seq<Source>, pick: seq<nat>, n: nat) {
    1 <= n <= |pick| && n <= |srcs| && forall s :: 0 <= s < n ==> pick[s] < |srcs[s].rows|
  }

  /** The rows picked from the first n sources, side by side. */
  ghost function Combined(srcs: seq<Source>, pick: seq<nat>, n: nat, total: nat): (o: Row)
    requires Layout(srcs, total) && InSources(srcs, pick, n)
    ensures |o| == total
  {
    Put(if n == 1 then Nulls(total) else Combined(srcs, pick, n - 1, total), srcs[n - 1].base, srcs[n - 1].rows[pick[n - 1]])
  }

  /** Every ON condition holds of the rows picked up to its source. */
  ghost predicate Agrees(srcs: seq<Source>, pick: seq<nat>, n: nat, total: nat)
    requires Layout(srcs, total)
  {
    && InSources(srcs, pick, n)
    && (n > 1 ==> Agrees(srcs, pick, n - 1, total) && Holds(srcs[n - 1].on, Combined(srcs, pick, n, total)))
  }

  /** x is the combination of rows picked from the first n sources that agree. */
  ghost predicate IsPick(srcs: seq<Source>, n: nat, total: nat, pick: seq<nat>, x: Row)
    requires Layout(srcs, total)
  {
    |pick| == n && Agrees(srcs, pick, n, total) && Combined(srcs, pick, n, total) == x
  }

  /** Only the first n picks matter. */
  lemma {:induction false} PickPrefix(srcs: seq<Source>, p: seq<nat>, q: seq<nat>, n: nat, total: nat)
    requires Layout(srcs, total) && InSources(srcs, p, n) && InSources(srcs, q, n)
    requires forall s :: 0 <= s < n ==> p[s] == q[s]
    ensures Combined(srcs, p, n, total) == Combined(srcs, q, n, total)
    ensures Agrees(srcs, p, n, total) <==> Agrees(srcs, q, n, total)
  {
    hide Put, Nulls, Holds, Layout;
    if n > 1 { PickPrefix(srcs, p, q, n - 1, total); }
  }

  /** A join of inner sources has exactly the combinations of one row from each that satisfy every ON. */
  lemma {:induction false} InnerJoinIs(srcs: seq<Source>, n: nat, total: nat, x: Row)
    requires 1 <= n <= |srcs| && Layout(srcs, total) && forall s :: 1 <= s < n ==> srcs[s].kind == Inner
    ensures x in JoinFirst(srcs, n, total) <==> exists pick :: IsPick(srcs, n, total, pick, x)
    decreases n
  {
    hide Join, IsPick, Layout, Fits;
    if n == 1 {
      FirstPicks(srcs, total, x);
    } else {
      var left, src := JoinFirst(srcs, n - 1, total), srcs[n - 1];
      if x in JoinFirst(srcs, n, total) {
        var i, j := PairOf(srcs, n, total, x);
        InnerJoinIs(srcs, n - 1, total, left[i]);
        var p :| IsPick(srcs, n - 1, total, p, left[i]);
        PickMore(srcs, n, p, left[i], j, total);
      }
      if pick :| IsPick(srcs, n, total, pick, x) {
        var l := PickLess(srcs, n, pick, total, x);
        InnerJoinIs(srcs, n - 1, total, l);
        assert IsPick(srcs, n - 1, total, pick[..n - 1], l);
        var i :| 0 <= i < |left| && left[i] == l;
        PairJoins(srcs, n, total, i, pick[n - 1], x);
      }
    }
  }

  lemma FirstPicks(srcs: seq<Source>, total: nat, x: Row)
    requires 1 <= |srcs| && Layout(srcs, total)
    ensures x in JoinFirst(srcs, 1, total) <==> exists pick :: IsPick(srcs, 1, total, pick, x)
  {
    hide Put, Nulls, Holds;
    if x in JoinFirst(srcs, 1, total) {
      var i :| 0 <= i < |srcs[0].rows| && First(srcs[0], total)[i] == x;
      assert IsPick(srcs, 1, total, [i], x);
    }
    if pick :| IsPick(srcs, 1, total, pick, x) {
      assert First(srcs[0], total)[pick[0]] == x;
    }
  }

  lemma PairOf(srcs: seq<Source>, n: nat, total: nat, x: Row) returns (i: nat, j: nat)
    requires 2 <= n <= |srcs| && Layout(srcs, total) && srcs[n - 1].kind == Inner && x in JoinFirst(srcs, n, total)
    ensures i < |JoinFirst(srcs, n - 1, total)| && j < |srcs[n - 1].rows|
    ensures Holds(srcs[n - 1].on, x)
            && x == Put(JoinFirst(srcs, n - 1, total)[i], srcs[n - 1].base, srcs[n - 1].rows[j])
  {
    hide Join, Put, Nulls, Holds;
    var left, src := JoinFirst(srcs, n - 1, total), srcs[n - 1];
    JoinMembers(left, src, total, x);
    i, j :| 0 <= i < |left| && 0 <= j < |src.rows| && x == Put(left[i], src.base, src.rows[j]) && Holds(src.on, x);
  }

  lemma PairJoins(srcs: seq<Source>, n: nat, total: nat, i: nat, j: nat, x: Row)
    requires 2 <= n <= |srcs| && Layout(srcs, total) && i < |JoinFirst(srcs, n - 1, total)| && j < |srcs[n - 1].rows|
    requires Holds(srcs[n - 1].on, x)
             && x == Put(JoinFirst(srcs, n - 1, total)[i], srcs[n - 1].base, srcs[n - 1].rows[j])
    ensures x in JoinFirst(srcs, n, total)
  {
    hide Join, Put, Nulls, Holds;
    JoinMembers(JoinFirst(srcs, n - 1, total), srcs[n - 1], total, x);
  }

  lemma PickMore(srcs: seq<Source>, n: nat, p: seq<nat>, l: Row, j: nat, total: nat)
    requires 2 <= n <= |srcs| && Layout(srcs, total) && IsPick(srcs, n - 1, total, p, l) && j < |srcs[n - 1].rows|
    requires |l| == total && Holds(srcs[n - 1].on, Put(l, srcs[n - 1].base, srcs[n - 1].rows[j]))
    ensures IsPick(srcs, n, total, p + [j], Put(l, srcs[n - 1].base, srcs[n - 1].rows[j]))
  {
    hide Holds, Put, Nulls, Layout;
    PickPrefix(srcs, p, p + [j], n - 1, total);
  }

  lemma PickLess(srcs: seq<Source>, n: nat, pick: seq<nat>, total: nat, x: Row) returns (l: Row)
    requires 2 <= n <= |srcs| && Layout(srcs, total) && IsPick(srcs, n, total, pick, x)
    ensures |pick| == n && IsPick(srcs, n - 1, total, pick[..n - 1], l) && pick[n - 1] < |srcs[n - 1].rows|
            && |l| == total
    ensures Holds(srcs[n - 1].on, x) && x == Put(l, srcs[n - 1].base, srcs[n - 1].rows[pick[n - 1]])
  {
    hide Holds, Put, Nulls, Layout;
    l := Combined(srcs, pick, n - 1, total);
    PickPrefix(srcs, pick, pick[..n - 1], n - 1, total);
  }

  lemma JoinWide(left: seq<Row>, src: Source, total: nat)
    requires AllWide(left, total) && Fits(src, total)
    ensures AllWide(Join(left, src, total), total)
  {
    hide Join, Put, Holds, Matched;
    var o := Join(left, src, total);
    forall i | 0 <= i < |o| ensures |o[i]| == total {
      JoinMembers(left, src, total, o[i]);
      SizeOfMember(left, src, total, o[i]);
    }
  }

  lemma SizeOfMember(left: seq<Row>, src: Source, total: nat, x: Row)
    requires AllWide(left, total) && Fits(src, total)
    requires IsPair(left, src, total, x) || IsLoneLeft(left, src, total, x) || IsLoneRight(left, src, total, x)
    ensures |x| == total
  {
  }

  /** Joining one source leaves the columns of a later one as they were. */
  lemma JoinBlank(left: seq<Row>, src: Source, later: Source, total: nat)
    requires AllWide(left, total) && Fits(src, total) && Fits(later, total) && src.base + src.ncol <= later.base
    requires forall i :: 0 <= i < |left| ==> Blank(left[i], later)
    ensures AllWide(Join(left, src, total), total)
    ensures forall i :: 0 <= i < |Join(left, src, total)| ==> Blank(Join(left, src, total)[i], later)
  {
    hide Join, Holds, Matched;
    JoinWide(left, src, total);
    var o := Join(left, src, total);
    forall i | 0 <= i < |o| ensures Blank(o[i], later) {
      JoinMembers(left, src, total, o[i]);
      BlankMember(left, src, later, total, o[i]);
    }
  }

  lemma PutBlank(row: Row, src: Source, r: Row, later: Source)
    requires Fits(src, |row|) && Fits(later, |row|) && src.base + src.ncol <= later.base && |r| == src.ncol
             && Blank(row, later)
    ensures Blank(Put(row, src.base, r), later)
  {
    var o := Put(row, src.base, r);
    assert forall k :: src.base + src.ncol <= k < |row| ==> o[k] == row[k];
  }

  lemma BlankMember(left: seq<Row>, src: Source, later: Source, total: nat, x: Row)
    requires AllWide(left, total) && Fits(src, total) && Fits(later, total) && src.base + src.ncol <= later.base
    requires forall i :: 0 <= i < |left| ==> Blank(left[i], later)
    requires IsPair(left, src, total, x) || IsLoneLeft(left, src, total, x) || IsLoneRight(left, src, total, x)
    ensures |x| == total && Blank(x, later)
  {
    hide Holds, Matched;
    if IsPair(left, src, total, x) {
      var i, j :| 0 <= i < |left| && 0 <= j < |src.rows| && x == Put(left[i], src.base, src.rows[j]) && Holds(src.on, x);
      PutBlank(left[i], src, src.rows[j], later);
    } else if IsLoneRight(left, src, total, x) {
      var j :| 0 <= j < |src.rows| && x == Put(Nulls(total), src.base, src.rows[j]) && !Matched(left, src, src.rows[j], total);
      PutBlank(Nulls(total), src, src.rows[j], later);
    }
  }

  lemma {:induction false} StillBlank(srcs: seq<Source>, n: nat, s: nat, total: nat)
    requires 1 <= n <= s < |srcs| && Layout(srcs, total)
    ensures forall i :: 0 <= i < |JoinFirst(srcs, n, total)| ==> Blank(JoinFirst(srcs, n, total)[i], srcs[s])
    decreases n
  {
    hide Join, Blank;
    if n == 1 {
      forall i | 0 <= i < |srcs[0].rows| ensures Blank(First(srcs[0], total)[i], srcs[s]) {
        NullsBlank(srcs[s], total);
        PutBlank(Nulls(total), srcs[0], srcs[0].rows[i], srcs[s]);
      }
    } else {
      StillBlank(srcs, n - 1, s, total);
      JoinBlank(JoinFirst(srcs, n - 1, total), srcs[n - 1], srcs[s], total);
    }
  }

  lemma NullsBlank(src: Source, total: nat)
    requires Fits(src, total)
    ensures Blank(Nulls(total), src)
  {
  }

  /** The whole join: sources left to right, then WHERE. */
  method JoinBuild(srcs: seq<Source>, where: Condition, total: nat) returns (out: seq<Row>)
    requires |srcs| >= 1 && Layout(srcs, total)
    ensures out == Filter(JoinFirst(srcs, |srcs|, total), where)
  {
    hide Join, Blank, First;
    var rows := PlaceFirst(srcs[0], total);
    for s := 1 to |srcs|
      invariant rows == JoinFirst(srcs, s, total)
    {
      StillBlank(srcs, s, s, total);
      var acc := new Row[|rows|](i requires 0 <= i < |rows| => rows[i]);
      assert acc[..] == rows;
      rows := JoinSource(acc, srcs[s], total);
    }
    out := [];
    assert rows[..0] == [];
    for i := 0 to |rows|
      invariant out == Filter(rows[..i], where)
    {
      assert rows[..i + 1][..i] == rows[..i];
      if Holds(where, rows[i]) { out := out + [rows[i]]; }
    }
    assert rows[..|rows|] == rows;
  }

  method PlaceFirst(src: Source, total: nat) returns (rows: seq<Row>)
    requires Fits(src, total)
    ensures rows == First(src, total)
  {
    rows := [];
    for i := 0 to |src.rows|
      invariant |rows| == i && forall k :: 0 <= k < i ==> rows[k] == Put(Nulls(total), src.base, src.rows[k])
    {
      rows := rows + [Put(Nulls(total), src.base, src.rows[i])];
    }
  }

  /** WHERE keeps exactly the rows that satisfy it, in order and with their multiplicity. */
  lemma {:induction false} FilterCounts(rows: seq<Row>, where: Condition, x: Row)
    ensures multiset(Filter(rows, where))[x] == if Holds(where, x) then multiset(rows)[x] else 0
  {
    if rows != [] {
      FilterCounts(rows[..|rows| - 1], where, x);
      assert rows == rows[..|rows| - 1] + [rows[|rows| - 1]];
    }
  }

  /** and they are the rows at ascending places. */
  lemma {:induction false} FilterPicks(rows: seq<Row>, where: Condition) returns (at: seq<nat>)
    ensures |at| == |Filter(rows, where)| && forall a, b :: 0 <= a < b < |at| ==> at[a] < at[b]
    ensures forall k :: 0 <= k < |at| ==> at[k] < |rows| && Filter(rows, where)[k] == rows[at[k]]
    ensures forall i: nat :: i in at <==> i < |rows| && Holds(where, rows[i])
  {
    at := [];
    if rows != [] {
      var n := |rows| - 1;
      at := FilterPicks(rows[..n], where);
      if Holds(where, rows[n]) { at := at + [n]; }
    }
  }
}
