/**
 R-tree pages and the tree a page store holds below a page. As for the B-tree, a tree is read
 straight off the store and a page's height is passed along.
 */
module RTreePages {
  import opened RTreeSplit

  type Pgno = nat
  datatype Node = Leaf(ents: seq<Entry>) | Interior(ents: seq<Entry>)
  type Store = map<Pgno, Node>

  /** The rows' entries below page p. */
  ghost function Below(st: Store, p: Pgno, h: nat): multiset<Entry>
    decreases h, 0, 0
  {
    if p !in st then multiset{} else if h == 0 then multiset(st[p].ents) else Sum(st, st[p].ents, h - 1)
  }

  ghost function Sum(st: Store, s: seq<Entry>, h: nat): multiset<Entry>
    decreases h, 1, |s|
  {
    if s == [] then multiset{} else Below(st, s[0].pl, h) + Sum(st, s[1..], h)
  }

  /** The pages at and below page p. */
  ghost function Foot(st: Store, p: Pgno, h: nat): set<Pgno>
    decreases h, 0, 0
  {
    {p} + if p !in st || h == 0 then {} else Feet(st, st[p].ents, h - 1)
  }

  ghost function Feet(st: Store, s: seq<Entry>, h: nat): set<Pgno>
    decreases h, 1, |s|
  {
    if s == [] then {} else Foot(st, s[0].pl, h) + Feet(st, s[1..], h)
  }

  /** Every box of these entries covers the entries of the page it stands for. */
  ghost predicate Boxes(st: Store, s: seq<Entry>) {
    forall i :: 0 <= i < |s| ==> s[i].pl in st && CoversAll(s[i].bb, st[s[i].pl].ents)
  }

  ghost predicate Sound(st: Store, cap: nat, p: Pgno, h: nat)
    decreases h, 0, 0
  {
    && p in st && |st[p].ents| <= cap
    && if h == 0 then st[p].Leaf? else
         st[p].Interior? && st[p].ents != [] && p !in Feet(st, st[p].ents, h - 1) && Kids(st, cap, st[p].ents, h - 1) && Boxes(st, st[p].ents)
  }

  /** Sound trees that share no page. */
  ghost predicate Kids(st: Store, cap: nat, s: seq<Entry>, h: nat)
    decreases h, 1, |s|
  {
    s == [] || (Sound(st, cap, s[0].pl, h) && Foot(st, s[0].pl, h) !! Feet(st, s[1..], h) && Kids(st, cap, s[1..], h))
  }

  // ----------------------------------- framing -----------------------------------

  ghost predicate SameOn(st: Store, st': Store, ps: set<Pgno>) {
    forall p :: p in ps ==> p in st && p in st' && st'[p] == st[p]
  }

  lemma {:induction false} Frame(st: Store, st': Store, cap: nat, p: Pgno, h: nat)
    requires Sound(st, cap, p, h) && SameOn(st, st', Foot(st, p, h))
    ensures Sound(st', cap, p, h) && Foot(st', p, h) == Foot(st, p, h) && Below(st', p, h) == Below(st, p, h)
    decreases h, 0, 0
  {
    assert p in Foot(st, p, h);
    if h > 0 {
      FrameKids(st, st', cap, st[p].ents, h - 1);
      FrameBoxes(st, st', cap, st[p].ents, h - 1);
    }
  }

  lemma {:induction false} FrameKids(st: Store, st': Store, cap: nat, s: seq<Entry>, h: nat)
    requires Kids(st, cap, s, h) && SameOn(st, st', Feet(st, s, h))
    ensures Kids(st', cap, s, h) && Feet(st', s, h) == Feet(st, s, h) && Sum(st', s, h) == Sum(st, s, h)
    decreases h, 1, |s|
  {
    if s != [] {
      Frame(st, st', cap, s[0].pl, h);
      FrameKids(st, st', cap, s[1..], h);
    }
  }

  lemma {:induction false} KidIn(st: Store, cap: nat, s: seq<Entry>, h: nat, i: nat)
    requires Kids(st, cap, s, h) && i < |s|
    ensures Sound(st, cap, s[i].pl, h) && Foot(st, s[i].pl, h) <= Feet(st, s, h) && s[i].pl in Feet(st, s, h)
    ensures Below(st, s[i].pl, h) <= Sum(st, s, h)
  {
    if i > 0 { KidIn(st, cap, s[1..], h, i - 1); }
  }

  lemma FrameBoxes(st: Store, st': Store, cap: nat, s: seq<Entry>, h: nat)
    requires Kids(st, cap, s, h) && SameOn(st, st', Feet(st, s, h)) && Boxes(st, s)
    ensures Boxes(st', s)
  {
    hide Kids, Feet;
    forall i | 0 <= i < |s| ensures s[i].pl in st' && CoversAll(s[i].bb, st'[s[i].pl].ents) { KidIn(st, cap, s, h, i); }
  }

  lemma {:induction false} FootIn(st: Store, cap: nat, p: Pgno, h: nat)
    requires Sound(st, cap, p, h)
    ensures Foot(st, p, h) <= st.Keys
    decreases h, 0, 0
  {
    if h > 0 { FeetIn(st, cap, st[p].ents, h - 1); }
  }

  lemma {:induction false} FeetIn(st: Store, cap: nat, s: seq<Entry>, h: nat)
    requires Kids(st, cap, s, h)
    ensures Feet(st, s, h) <= st.Keys
    decreases h, 1, |s|
  {
    if s != [] {
      FootIn(st, cap, s[0].pl, h);
      FeetIn(st, cap, s[1..], h);
    }
  }

  // ------------------------------- lists of children -------------------------------

  lemma {:induction false} Concat(st: Store, cap: nat, a: seq<Entry>, b: seq<Entry>, h: nat)
    ensures Sum(st, a + b, h) == Sum(st, a, h) + Sum(st, b, h)
    ensures Feet(st, a + b, h) == Feet(st, a, h) + Feet(st, b, h)
    ensures Kids(st, cap, a + b, h) <==> Kids(st, cap, a, h) && Kids(st, cap, b, h) && Feet(st, a, h) !! Feet(st, b, h)
  {
    if a == [] {
      assert a + b == b;
    } else {
      assert (a + b)[0] == a[0] && (a + b)[1..] == a[1..] + b;
      Concat(st, cap, a[1..], b, h);
    }
  }

  lemma One(st: Store, cap: nat, e: Entry, h: nat)
    ensures Sum(st, [e], h) == Below(st, e.pl, h)
    ensures Feet(st, [e], h) == Foot(st, e.pl, h)
    ensures Kids(st, cap, [e], h) <==> Sound(st, cap, e.pl, h)
  {
    assert [e][1..] == [];
    assert Sum(st, [], h) == multiset{} && Feet(st, [], h) == {} && Kids(st, cap, [], h);
  }

  /** The order of the children does not matter. */
  lemma {:induction false} Reordered(st: Store, cap: nat, s: seq<Entry>, t: seq<Entry>, h: nat)
    requires multiset(s) == multiset(t)
    ensures Sum(st, s, h) == Sum(st, t, h) && Feet(st, s, h) == Feet(st, t, h)
            && (Kids(st, cap, s, h) <==> Kids(st, cap, t, h))
    decreases |s|
  {
    if s == [] {
      assert |multiset(t)| == |multiset(s)| == 0;
      assert t == [];
    } else {
      var a, b := HeadIn(s, t);
      Reordered(st, cap, s[1..], a + b, h);
      HeadFirst(st, cap, s, a, b, h);
    }
  }

  lemma HeadFirst(st: Store, cap: nat, s: seq<Entry>, a: seq<Entry>, b: seq<Entry>, h: nat)
    requires s != []
    requires Sum(st, s[1..], h) == Sum(st, a + b, h) && Feet(st, s[1..], h) == Feet(st, a + b, h)
             && (Kids(st, cap, s[1..], h) <==> Kids(st, cap, a + b, h))
    ensures var t := a + [s[0]] + b;
            Sum(st, s, h) == Sum(st, t, h) && Feet(st, s, h) == Feet(st, t, h) && (Kids(st, cap, s, h) <==> Kids(st, cap, t, h))
  {
    hide *;
    Moved(st, cap, a, b, [s[0]], h);
    Concat(st, cap, [s[0]], s[1..], h);
    assert [s[0]] + s[1..] == s;
  }

  lemma HeadIn(s: seq<Entry>, t: seq<Entry>) returns (a: seq<Entry>, b: seq<Entry>)
    requires multiset(s) == multiset(t) && s != []
    ensures t == a + [s[0]] + b && multiset(s[1..]) == multiset(a + b)
  {
    assert s[0] in multiset(s);
    assert s[0] in t;
    var j :| 0 <= j < |t| && t[j] == s[0];
    a, b := t[..j], t[j + 1..];
    assert t == a + [s[0]] + b;
    assert s == [s[0]] + s[1..];
    assert multiset(t) == multiset(a + b) + multiset{s[0]};
    assert multiset(s) == multiset(s[1..]) + multiset{s[0]};
    Cancel(multiset(s[1..]), multiset(a + b), multiset{s[0]});
  }

  lemma Cancel<T>(x: multiset<T>, y: multiset<T>, z: multiset<T>)
    requires x + z == y + z
    ensures x == y
  {
    assert x == (x + z) - z;
    assert y == (y + z) - z;
  }

  lemma Moved(st: Store, cap: nat, a: seq<Entry>, b: seq<Entry>, x: seq<Entry>, h: nat)
    ensures Sum(st, a + x + b, h) == Sum(st, x, h) + Sum(st, a + b, h)
    ensures Feet(st, a + x + b, h) == Feet(st, x, h) + Feet(st, a + b, h)
    ensures Kids(st, cap, a + x + b, h) <==> Kids(st, cap, x, h) && Kids(st, cap, a + b, h) && Feet(st, x, h) !! Feet(st, a + b, h)
  {
    hide *;
    Concat(st, cap, a + x, b, h);
    Concat(st, cap, a, x, h);
    Concat(st, cap, a, b, h);
  }
}
