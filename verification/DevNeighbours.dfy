/**
  What the lists of direct neighbours hold after any history of links: exactly the links that were
  made, in the order in which they were made, except that the master, of which there is at most
  one, stands first.  And every device is held once for every entry that names it.
 */
module DevNeighbours {
  import opened DevGraph
  import opened DevClosure

  /** The links that were made, in order. */
  ghost function MadeInOrder(g: Graph, es: seq<Attempt>): seq<Attempt>
    decreases |es|
  {
    if es == [] then [] else (if Passes(g, es[0]) then [es[0]] else []) + MadeInOrder(Try(g, es[0]), es[1..])
  }

  ghost function Pairs(ms: seq<Attempt>): set<Pair> {
    set a | a in ms :: a.p
  }

  lemma {:induction false} MadeIs(g: Graph, es: seq<Attempt>)
    ensures Made(g, es) == Pairs(MadeInOrder(g, es))
    decreases |es|
  {
    hide Passes, Try;
    if es == [] {
    } else {
      MadeIs(Try(g, es[0]), es[1..]);
    }
  }

  /** The entries that links make in the upper list of `d`: those of a master, or the others. */
  ghost function UpperEntries(ms: seq<Attempt>, d: nat, master: bool): seq<Adj> {
    if ms == [] then []
    else
      var a := ms[|ms| - 1];
      UpperEntries(ms[..|ms| - 1], d, master)
      + (if a.p.lower == d && a.master == master then [Adj(a.p.upper, 1, master)] else [])
  }

  ghost function LowerEntries(ms: seq<Attempt>, d: nat): seq<Adj> {
    if ms == [] then []
    else
      var a := ms[|ms| - 1];
      LowerEntries(ms[..|ms| - 1], d) + (if a.p.upper == d then [Adj(a.p.lower, 1, false)] else [])
  }

  lemma EntriesSnoc(ms: seq<Attempt>, a: Attempt, d: nat, master: bool)
    ensures UpperEntries(ms + [a], d, master)
         == UpperEntries(ms, d, master) + (if a.p.lower == d && a.master == master then [Adj(a.p.upper, 1, master)] else [])
    ensures LowerEntries(ms + [a], d)
         == LowerEntries(ms, d) + (if a.p.upper == d then [Adj(a.p.lower, 1, false)] else [])
  {
    assert (ms + [a])[..|ms + [a]| - 1] == ms;
  }

  lemma {:induction false} EntriesAreLinks(ms: seq<Attempt>, d: nat, master: bool)
    ensures forall i :: 0 <= i < |UpperEntries(ms, d, master)| ==>
      var x := UpperEntries(ms, d, master)[i];
      x.refs == 1 && x.master == master && Attempt(Pair(d, x.dev), master) in ms
    ensures forall i :: 0 <= i < |LowerEntries(ms, d)| ==>
      var x := LowerEntries(ms, d)[i];
      x.refs == 1 && !x.master && Pair(x.dev, d) in Pairs(ms)
    ensures forall a :: a in ms && a.p.lower == d && a.master == master ==> Adj(a.p.upper, 1, master) in UpperEntries(ms, d, master)
    ensures forall a :: a in ms && a.p.upper == d ==> Adj(a.p.lower, 1, false) in LowerEntries(ms, d)
  {
    if ms == [] {
    } else {
      var n := |ms| - 1;
      EntriesAreLinks(ms[..n], d, master);
      EntriesSnoc(ms[..n], ms[n], d, master);
      assert ms == ms[..n] + [ms[n]];
    }
  }

  /** The lists of neighbours are those of the links `ms`. */
  ghost predicate Neighbours(g: Graph, ms: seq<Attempt>) {
    && Closed(g, Pairs(ms))
    && (forall d: nat :: |UpperEntries(ms, d, true)| <= 1)
    && (forall d: nat :: List(g, AdjUpper, d) == UpperEntries(ms, d, true) + UpperEntries(ms, d, false))
    && (forall d: nat :: List(g, AdjLower, d) == LowerEntries(ms, d))
  }

  lemma {:induction false} HasNot(l: seq<Adj>, d: nat)
    requires forall i :: 0 <= i < |l| ==> l[i].dev != d
    ensures !Has(l, d)
  {
    if l == [] {
    } else {
      HasNot(l[1..], d);
    }
  }

  /** What a link does to the lists of neighbours. */
  lemma EstablishedNeighbours(g: Graph, p: Pair, master: bool, d: nat)
    requires WellFormed(g) && InGraph(g, p)
    ensures var t := Established(g, p, master);
      && List(t, AdjUpper, d) == (if d == p.lower then AddedAs(List(g, AdjUpper, d), p.upper, master) else List(g, AdjUpper, d))
      && List(t, AdjLower, d) == (if d == p.upper then Added(List(g, AdjLower, d), p.lower) else List(g, AdjLower, d))
  {
    var ls, us, h := Lowers(g, p.lower), Uppers(g, p.upper), LinkNeighbour(g, p, master);
    EstablishedAsOne(g, p, master);
    NeighbourListsSame(h, Mesh(ls, us) + Row(p.lower, us) + Col(ls, p.upper), Key(AdjUpper, d));
    NeighbourListsSame(h, Mesh(ls, us) + Row(p.lower, us) + Col(ls, p.upper), Key(AdjLower, d));
    InGraphKeys(g, p);
    hide Added, AddedAs, Has, Established, LinkAll, Clean, Mesh;
    NeighbourOnly(g, p, master, d);
  }

  lemma NeighbourOnly(g: Graph, p: Pair, master: bool, d: nat)
    requires HasKeys(g, p)
    ensures var t := LinkNeighbour(g, p, master);
      && List(t, AdjUpper, d) == (if d == p.lower then AddedAs(List(g, AdjUpper, d), p.upper, master) else List(g, AdjUpper, d))
      && List(t, AdjLower, d) == (if d == p.upper then AddedAs(List(g, AdjLower, d), p.lower, false) else List(g, AdjLower, d))
  {
    hide Added, AddedAs, Has;
  }

  /** The link is new. */
  lemma NotLinkedYet(g: Graph, ms: seq<Attempt>, a: Attempt)
    requires Neighbours(g, ms) && Passes(g, a)
    ensures !Has(List(g, AdjUpper, a.p.lower), a.p.upper) && !Has(List(g, AdjLower, a.p.upper), a.p.lower)
    ensures a.master ==> UpperEntries(ms, a.p.lower, true) == []
  {
    var x, u := a.p.lower, a.p.upper;
    NotAbove(g, a.p);
    assert a.p !in Pairs(ms);
    EntriesAreLinks(ms, x, true);
    EntriesAreLinks(ms, x, false);
    EntriesAreLinks(ms, u, true);
    hide Has, Closed;
    HasNot(List(g, AdjUpper, x), u);
    HasNot(List(g, AdjLower, u), x);
  }

  lemma TryNeighbours(g: Graph, ms: seq<Attempt>, a: Attempt)
    requires Neighbours(g, ms) && Passes(g, a)
    ensures Neighbours(Try(g, a), ms + [a])
  {
    hide Closed, Established, Has, UpperEntries, LowerEntries, MayLink, HasMaster, InGraph, List;
    NotLinkedYet(g, ms, a);
    LinkCloses(g, a.p, a.master, Pairs(ms));
    assert Pairs(ms + [a]) == Pairs(ms) + {a.p};
    ClosedWell(g, Pairs(ms));
    forall d: nat
      ensures |UpperEntries(ms + [a], d, true)| <= 1
      ensures List(Try(g, a), AdjUpper, d) == UpperEntries(ms + [a], d, true) + UpperEntries(ms + [a], d, false)
      ensures List(Try(g, a), AdjLower, d) == LowerEntries(ms + [a], d)
    {
      TryUpper(g, ms, a, d);
      TryLower(g, ms, a, d);
    }
  }

  lemma TryUpper(g: Graph, ms: seq<Attempt>, a: Attempt, d: nat)
    requires WellFormed(g) && InGraph(g, a.p) && !Has(List(g, AdjUpper, a.p.lower), a.p.upper)
    requires (a.master ==> UpperEntries(ms, a.p.lower, true) == []) && |UpperEntries(ms, d, true)| <= 1
    requires List(g, AdjUpper, d) == UpperEntries(ms, d, true) + UpperEntries(ms, d, false)
    ensures |UpperEntries(ms + [a], d, true)| <= 1
    ensures List(Established(g, a.p, a.master), AdjUpper, d) == UpperEntries(ms + [a], d, true) + UpperEntries(ms + [a], d, false)
  {
    hide WellFormed, Established, Has, Added, UpperEntries, LowerEntries, InGraph, List;
    EstablishedNeighbours(g, a.p, a.master, d);
    EntriesSnoc(ms, a, d, true);
    EntriesSnoc(ms, a, d, false);
    AddedOther(List(g, AdjUpper, d), a.p.upper);
    if d == a.p.lower {
      AddedIs(List(g, AdjUpper, d), a.p.upper, a.master);
    }
  }

  lemma AddedIs(l: seq<Adj>, d: nat, master: bool)
    requires !Has(l, d)
    ensures AddedAs(l, d, master) == if master then [Adj(d, 1, true)] + l else Added(l, d)
  {
  }

  lemma TryLower(g: Graph, ms: seq<Attempt>, a: Attempt, d: nat)
    requires WellFormed(g) && InGraph(g, a.p) && !Has(List(g, AdjLower, a.p.upper), a.p.lower)
    requires List(g, AdjLower, d) == LowerEntries(ms, d)
    ensures List(Established(g, a.p, a.master), AdjLower, d) == LowerEntries(ms + [a], d)
  {
    hide WellFormed, Established, Has, Added, LowerEntries, UpperEntries, InGraph, List;
    EstablishedNeighbours(g, a.p, a.master, d);
    EntriesSnoc(ms, a, d, true);
    AddedOther(List(g, AdjLower, d), a.p.lower);
  }

  lemma ClosedWell(g: Graph, edges: set<Pair>)
    requires Closed(g, edges)
    ensures WellFormed(g)
  {
  }

  lemma AddedOther(l: seq<Adj>, d: nat)
    ensures !Has(l, d) ==> Added(l, d) == l + [Adj(d, 1, false)]
  {
    if !Has(l, d) {
      NotAmong(l, d);
      AddedNew(l, d);
    }
  }

  lemma {:induction false} NotAmong(l: seq<Adj>, d: nat)
    requires !Has(l, d)
    ensures forall i :: 0 <= i < |l| ==> l[i].dev != d
  {
    if l == [] {
    } else {
      NotAmong(l[1..], d);
    }
  }

  lemma {:induction false} RunNeighbours(g: Graph, ms: seq<Attempt>, es: seq<Attempt>)
    requires Neighbours(g, ms)
    ensures Neighbours(Run(g, es), ms + MadeInOrder(g, es))
    decreases |es|
  {
    hide Neighbours, Passes, Established;
    if es == [] {
      assert ms + [] == ms;
    } else {
      var now := if Passes(g, es[0]) then [es[0]] else [];
      if Passes(g, es[0]) { TryNeighbours(g, ms, es[0]); } else { assert ms + [] == ms; }
      RunNeighbours(Try(g, es[0]), ms + now, es[1..]);
      assert ms + now + MadeInOrder(Try(g, es[0]), es[1..]) == ms + MadeInOrder(g, es);
    }
  }

  lemma NoLinksNeighbours(n: nat)
    ensures Neighbours(NoLinks(n), [])
  {
    NoLinksClosed(n);
    assert Pairs([]) == {};
  }

  /** After any history of attempts to link `n` devices: the upper list of neighbours of a device
      is its master, if it has one, and then the other devices above it, in the order in which
      they were linked; the lower list is the devices below it in that order; every entry has one
      reference. */
  lemma NeighboursAreTheLinks(n: nat, es: seq<Attempt>, d: nat)
    ensures var g, ms := Run(NoLinks(n), es), MadeInOrder(NoLinks(n), es);
      && List(g, AdjUpper, d) == UpperEntries(ms, d, true) + UpperEntries(ms, d, false) && |UpperEntries(ms, d, true)| <= 1
      && List(g, AdjLower, d) == LowerEntries(ms, d)
  {
    NoLinksNeighbours(n);
    RunNeighbours(NoLinks(n), [], es);
    assert [] + MadeInOrder(NoLinks(n), es) == MadeInOrder(NoLinks(n), es);
  }

  /** Only the first entry can be the master, so that looking at it is enough: it is one if and
      only if some link to a master was made, and then there is no other. */
  lemma MasterIff(n: nat, es: seq<Attempt>, d: nat)
    ensures var g, ms := Run(NoLinks(n), es), MadeInOrder(NoLinks(n), es);
      && (HasMaster(g, d) <==> exists a :: a in ms && a.p.lower == d && a.master)
      && (HasMaster(g, d) <==> exists i :: 0 <= i < |List(g, AdjUpper, d)| && List(g, AdjUpper, d)[i].master)
      && (forall i :: 0 < i < |List(g, AdjUpper, d)| ==> !List(g, AdjUpper, d)[i].master)
      && (forall a, b :: a in ms && b in ms && a.p.lower == d == b.p.lower && a.master && b.master ==> a.p == b.p)
  {
    var ms, l := MadeInOrder(NoLinks(n), es), List(Run(NoLinks(n), es), AdjUpper, d);
    NeighboursAreTheLinks(n, es, d);
    EntriesAreLinks(ms, d, true);
    EntriesAreLinks(ms, d, false);
    hide MadeInOrder, UpperEntries, LowerEntries, List, Run;
    var x, y := UpperEntries(ms, d, true), UpperEntries(ms, d, false);
    assert forall i :: 0 <= i < |y| ==> !y[i].master;
    assert forall i :: 0 <= i < |x| ==> x[i].master;
    MasterFirst(x, y);
    forall a, b | a in ms && b in ms && a.p.lower == d == b.p.lower && a.master && b.master
      ensures a.p == b.p
    {
      assert Adj(a.p.upper, 1, true) in x && Adj(b.p.upper, 1, true) in x;
    }
    if x != [] {
      assert Attempt(Pair(d, x[0].dev), true) in ms;
    }
  }

  lemma MasterFirst(x: seq<Adj>, y: seq<Adj>)
    requires |x| <= 1 && (forall i :: 0 <= i < |x| ==> x[i].master) && forall i :: 0 <= i < |y| ==> !y[i].master
    ensures x + y != [] && (x + y)[0].master <==> x != []
    ensures (exists i :: 0 <= i < |x + y| && (x + y)[i].master) <==> x != []
    ensures forall i :: 0 < i < |x + y| ==> !(x + y)[i].master
  {
    if x != [] { assert (x + y)[0].master; }
    assert forall i :: |x| <= i < |x + y| ==> (x + y)[i] == y[i - |x|];
  }

  // ---------------------------------------------------------------------------------------
  // dev_hold.

  /** The lists that name `d`. */
  ghost function Naming(g: Graph, d: nat): set<Key> {
    set k | k in g.lists && Has(g.lists[k], d)
  }

  ghost predicate Counted(g: Graph) {
    forall d :: 0 <= d < |g.holds| ==> g.holds[d] == |Naming(g, d)|
  }

  lemma InsertCounted(g: Graph, k: Key, d: nat, master: bool)
    requires WellFormed(g) && k in g.lists && d < |g.holds| && Counted(g)
    ensures Counted(InsertAs(g, k, d, master))
  {
    InsertFacts(g, k, d, master);
    hide AddedAs, Has, Refs, Clean;
    var t := InsertAs(g, k, d, master);
    forall e: nat | e < |t.holds|
      ensures t.holds[e] == |Naming(t, e)|
    {
      if e != d || Has(g.lists[k], d) {
        assert Naming(t, e) == Naming(g, e);
      } else {
        assert Naming(t, e) == Naming(g, e) + {k} && k !in Naming(g, e);
      }
    }
  }

  lemma LinkCounted(g: Graph, p: Pair)
    requires WellFormed(g) && InGraph(g, p) && Counted(g)
    ensures Counted(Link(g, p))
  {
    hide InsertAs, Counted;
    InGraphKeys(g, p);
    InsertFacts(g, Key(AllUpper, p.lower), p.upper, false);
    InsertCounted(g, Key(AllUpper, p.lower), p.upper, false);
    InsertCounted(Insert(g, Key(AllUpper, p.lower), p.upper), Key(AllLower, p.upper), p.lower, false);
  }

  lemma {:induction false} LinkAllCounted(g: Graph, ps: seq<Pair>)
    requires WellFormed(g) && AllInGraph(g, ps) && Counted(g)
    ensures Counted(LinkAll(g, ps))
    decreases |ps|
  {
    hide Link, Counted, WellFormed, Linked;
    if ps == [] {
    } else {
      LinkFacts(g, ps[0]);
      LinkCounted(g, ps[0]);
      LinkAllCounted(Link(g, ps[0]), ps[1..]);
    }
  }

  lemma NeighbourCounted(g: Graph, p: Pair, master: bool)
    requires WellFormed(g) && InGraph(g, p) && Counted(g)
    ensures Counted(LinkNeighbour(g, p, master))
  {
    hide InsertAs, Counted, Link, Linked;
    LinkFacts(g, p);
    LinkCounted(g, p);
    var h := Link(g, p);
    InGraphKeys(h, p);
    InsertFacts(h, Key(AdjUpper, p.lower), p.upper, master);
    InsertCounted(h, Key(AdjUpper, p.lower), p.upper, master);
    InsertCounted(InsertAs(h, Key(AdjUpper, p.lower), p.upper, master), Key(AdjLower, p.upper), p.lower, false);
  }

  lemma EstablishedCounted(g: Graph, p: Pair, master: bool)
    requires WellFormed(g) && Mirrored(g) && InGraph(g, p) && MayLink(g, p) && Counted(g)
    ensures Counted(Established(g, p, master))
  {
    var ls, us := Lowers(g, p.lower), Uppers(g, p.upper);
    hide LinkAll, LinkNeighbour, Established, Mesh, WellFormed, Mirrored, MayLink, Counted, Sides, Distinct, Linked, List;
    SidesOfLink(g, p);
    BlocksApart(g, p, ls, us);
    EstablishedAsOne(g, p, master);
    NeighbourFacts(g, p, master);
    NeighbourCounted(g, p, master);
    LinkAllCounted(LinkNeighbour(g, p, master), Mesh(ls, us) + Row(p.lower, us) + Col(ls, p.upper));
  }

  lemma {:induction false} RunCounted(g: Graph, es: seq<Attempt>, edges: set<Pair>)
    requires Closed(g, edges) && Counted(g)
    ensures Counted(Run(g, es))
    decreases |es|
  {
    hide WellFormed, Mirrored, Transitive, MayLink, InGraph, Established, HasMaster, Counted, Above, Reach;
    if es == [] {
    } else if Passes(g, es[0]) {
      EstablishedCounted(g, es[0].p, es[0].master);
      LinkCloses(g, es[0].p, es[0].master, edges);
      RunCounted(Try(g, es[0]), es[1..], edges + {es[0].p});
    } else {
      RunCounted(g, es[1..], edges);
    }
  }

  /** After any history, a device is held once for every list that names it. */
  lemma HoldsCountEntries(n: nat, es: seq<Attempt>, d: nat)
    requires d < |Run(NoLinks(n), es).holds|
    ensures var g := Run(NoLinks(n), es);
      g.holds[d] == |set k | k in g.lists && Has(g.lists[k], d)|
  {
    NoLinksClosed(n);
    assert forall e: nat :: Naming(NoLinks(n), e) == {};
    RunCounted(NoLinks(n), es, {});
    assert Naming(Run(NoLinks(n), es), d) == set k | k in Run(NoLinks(n), es).lists && Has(Run(NoLinks(n), es).lists[k], d);
  }
}
