/**
  After any history of links, the list of all devices above a device holds exactly those that
  can be reached from it along links, the lists above and below mirror each other with equal
  counts, and no device is above itself.
 */
module DevClosure {
  import opened DevGraph

  ghost predicate Above(g: Graph, a: nat, b: nat) {
    Has(List(g, AllUpper, a), b)
  }

  /** Links that follow one another. */
  ghost predicate Path(edges: set<Pair>, p: seq<nat>) {
    |p| >= 2 && forall i :: 0 <= i < |p| - 1 ==> Pair(p[i], p[i + 1]) in edges
  }

  ghost predicate Joins(edges: set<Pair>, p: seq<nat>, a: nat, b: nat) {
    Path(edges, p) && p[0] == a && p[|p| - 1] == b
  }

  ghost predicate Reach(edges: set<Pair>, a: nat, b: nat) {
    exists p :: Joins(edges, p, a, b)
  }

  lemma ReachJoined(edges: set<Pair>, a: nat, b: nat, c: nat)
    requires Reach(edges, a, b) && Reach(edges, b, c)
    ensures Reach(edges, a, c)
  {
    var p :| Joins(edges, p, a, b);
    var q :| Joins(edges, q, b, c);
    var r := p + q[1..];
    forall i | 0 <= i < |r| - 1
      ensures Pair(r[i], r[i + 1]) in edges
    {
      if i >= |p| - 1 {
        assert r[i] == q[i - |p| + 1] && r[i + 1] == q[i - |p| + 2];
      }
    }
    assert Joins(edges, r, a, c);
  }

  lemma ReachMore(edges: set<Pair>, more: set<Pair>, a: nat, b: nat)
    requires Reach(edges, a, b) && edges <= more
    ensures Reach(more, a, b)
  {
    var p :| Joins(edges, p, a, b);
    assert Joins(more, p, a, b);
  }

  lemma ReachEdge(edges: set<Pair>, p: Pair)
    requires p in edges
    ensures Reach(edges, p.lower, p.upper)
  {
    assert Joins(edges, [p.lower, p.upper], p.lower, p.upper);
  }

  // ---------------------------------------------------------------------------------------
  // What one link adds.

  lemma InsertRefs(g: Graph, k: Key, d: nat, master: bool, kind: Kind, a: nat, e: nat)
    requires WellFormed(g) && k in g.lists
    ensures Refs(List(InsertAs(g, k, d, master), kind, a), e)
         == Refs(List(g, kind, a), e) + if (Key(kind, a), e) == (k, d) then 1 else 0
  {
    hide AddedAs, Refs, Has, Clean;
    InsertFacts(g, k, d, master);
  }

  lemma LinkRefs(g: Graph, p: Pair, a: nat, b: nat)
    requires WellFormed(g) && InGraph(g, p)
    ensures Refs(List(Link(g, p), AllUpper, a), b) == Refs(List(g, AllUpper, a), b) + if p == Pair(a, b) then 1 else 0
    ensures Refs(List(Link(g, p), AllLower, b), a) == Refs(List(g, AllLower, b), a) + if p == Pair(a, b) then 1 else 0
  {
    hide InsertAs, Refs, List, WellFormed;
    InGraphKeys(g, p);
    var k1, k2 := Key(AllUpper, p.lower), Key(AllLower, p.upper);
    InsertFacts(g, k1, p.upper, false);
    InsertRefs(g, k1, p.upper, false, AllUpper, a, b);
    InsertRefs(g, k1, p.upper, false, AllLower, b, a);
    InsertRefs(Insert(g, k1, p.upper), k2, p.lower, false, AllUpper, a, b);
    InsertRefs(Insert(g, k1, p.upper), k2, p.lower, false, AllLower, b, a);
  }

  lemma {:induction false} LinkAllRefs(g: Graph, ps: seq<Pair>, a: nat, b: nat)
    requires WellFormed(g) && AllInGraph(g, ps)
    ensures Refs(List(LinkAll(g, ps), AllUpper, a), b) == Refs(List(g, AllUpper, a), b) + multiset(ps)[Pair(a, b)]
    ensures Refs(List(LinkAll(g, ps), AllLower, b), a) == Refs(List(g, AllLower, b), a) + multiset(ps)[Pair(a, b)]
    decreases |ps|
  {
    hide Link, Refs, List, WellFormed, Linked;
    if ps == [] {
    } else {
      LinkFacts(g, ps[0]);
      LinkRefs(g, ps[0], a, b);
      LinkAllRefs(Link(g, ps[0]), ps[1..], a, b);
      assert ps == [ps[0]] + ps[1..];
    }
  }

  lemma NeighbourRefs(g: Graph, p: Pair, master: bool, a: nat, b: nat)
    requires WellFormed(g) && InGraph(g, p)
    ensures var t := LinkNeighbour(g, p, master);
      && Refs(List(t, AllUpper, a), b) == Refs(List(g, AllUpper, a), b) + (if p == Pair(a, b) then 1 else 0)
      && Refs(List(t, AllLower, b), a) == Refs(List(g, AllLower, b), a) + (if p == Pair(a, b) then 1 else 0)
  {
    hide Link, Refs, WellFormed, LinkNeighbour, List;
    NeighbourFacts(g, p, master);
    LinkRefs(g, p, a, b);
  }

  lemma {:induction false} MeshHas(ls: seq<nat>, us: seq<nat>, a: nat, b: nat)
    ensures Pair(a, b) in Mesh(ls, us) <==> a in ls && b in us
    decreases |ls|
  {
    if ls == [] {
    } else {
      var n := |ls| - 1;
      MeshHas(ls[..n], us, a, b);
      assert ls == ls[..n] + [ls[n]];
      if a == ls[n] && b in us {
        var j :| 0 <= j < |us| && us[j] == b;
        assert Row(ls[n], us)[j] == Pair(a, b);
      }
    }
  }

  lemma RowColHas(ls: seq<nat>, us: seq<nat>, p: Pair, a: nat, b: nat)
    ensures Pair(a, b) in Row(p.lower, us) <==> a == p.lower && b in us
    ensures Pair(a, b) in Col(ls, p.upper) <==> a in ls && b == p.upper
  {
    if a == p.lower && b in us {
      var j :| 0 <= j < |us| && us[j] == b;
      assert Row(p.lower, us)[j] == Pair(a, b);
    }
    if a in ls && b == p.upper {
      var j :| 0 <= j < |ls| && ls[j] == a;
      assert Col(ls, p.upper)[j] == Pair(a, b);
    }
  }

  lemma DistinctOnce(ps: seq<Pair>, q: Pair)
    requires Distinct(ps)
    ensures multiset(ps)[q] == if q in ps then 1 else 0
  {
    if q in ps {
      var i :| 0 <= i < |ps| && ps[i] == q;
      assert ps == ps[..i] + [q] + ps[i + 1..];
      assert q !in ps[..i] && q !in ps[i + 1..];
      assert multiset(ps) == multiset(ps[..i]) + multiset{q} + multiset(ps[i + 1..]);
    }
  }

  /** The devices that a link puts together: those at or below one, those at or above the other. */
  ghost predicate New(g: Graph, p: Pair, a: nat, b: nat) {
    (a in Lowers(g, p.lower) || a == p.lower) && (b in Uppers(g, p.upper) || b == p.upper)
  }

  lemma BlocksCount(g: Graph, p: Pair, ls: seq<nat>, us: seq<nat>, a: nat, b: nat)
    requires Sides(g, p, ls, us)
    ensures multiset(Mesh(ls, us) + Row(p.lower, us) + Col(ls, p.upper))[Pair(a, b)] + (if p == Pair(a, b) then 1 else 0)
         == if (a in ls || a == p.lower) && (b in us || b == p.upper) then 1 else 0
  {
    var x, y, z, q := Mesh(ls, us), Row(p.lower, us), Col(ls, p.upper), Pair(a, b);
    BlocksApart(g, p, ls, us);
    MeshHas(ls, us, a, b);
    RowColHas(ls, us, p, a, b);
    hide *;
    SidesApart(g, p, ls, us);
    DistinctOnce(x, q);
    DistinctOnce(y, q);
    DistinctOnce(z, q);
    assert multiset(x + y + z) == multiset(x) + multiset(y) + multiset(z);
  }

  lemma SidesApart(g: Graph, p: Pair, ls: seq<nat>, us: seq<nat>)
    requires Sides(g, p, ls, us)
    ensures p.lower !in ls && p.lower !in us && p.upper !in ls && p.upper !in us && p.lower != p.upper
  {
  }

  lemma EstablishedRefs(g: Graph, p: Pair, master: bool, a: nat, b: nat)
    requires WellFormed(g) && Mirrored(g) && InGraph(g, p) && MayLink(g, p)
    ensures var t, n := Established(g, p, master), if New(g, p, a, b) then 1 else 0;
      && WellFormed(t) && |t.holds| == |g.holds|
      && Refs(List(t, AllUpper, a), b) == Refs(List(g, AllUpper, a), b) + n
      && Refs(List(t, AllLower, b), a) == Refs(List(g, AllLower, b), a) + n
  {
    var ls, us := Lowers(g, p.lower), Uppers(g, p.upper);
    hide LinkAll, LinkNeighbour, Mesh, WellFormed, Established, Mirrored, MayLink, List, Refs, Distinct, Linked, Sides;
    SidesOfLink(g, p);
    BlocksApart(g, p, ls, us);
    BlocksCount(g, p, ls, us, a, b);
    EstablishedAsOne(g, p, master);
    NeighbourFacts(g, p, master);
    NeighbourRefs(g, p, master, a, b);
    LinkAllFacts(LinkNeighbour(g, p, master), Mesh(ls, us) + Row(p.lower, us) + Col(ls, p.upper));
    LinkAllRefs(LinkNeighbour(g, p, master), Mesh(ls, us) + Row(p.lower, us) + Col(ls, p.upper), a, b);
  }

  // ---------------------------------------------------------------------------------------
  // Histories.

  ghost predicate Transitive(g: Graph) {
    forall a: nat, b: nat, c: nat :: Above(g, a, b) && Above(g, b, c) ==> Above(g, a, c)
  }

  /** The lists above are the closure of `edges`. */
  ghost predicate Closed(g: Graph, edges: set<Pair>) {
    && WellFormed(g) && Mirrored(g) && Transitive(g)
    && (forall p :: p in edges ==> Above(g, p.lower, p.upper))
    && (forall a: nat, b: nat :: Above(g, a, b) ==> Reach(edges, a, b))
  }

  lemma NewMeans(g: Graph, p: Pair, a: nat, b: nat)
    requires WellFormed(g) && Mirrored(g)
    ensures New(g, p, a, b) <==> (Above(g, a, p.lower) || a == p.lower) && (Above(g, p.upper, b) || b == p.upper)
  {
    HasDev(List(g, AllLower, p.lower), a);
    HasDev(List(g, AllUpper, p.upper), b);
    MirrorHas(g, a, p.lower);
  }

  lemma AboveAfter(g: Graph, p: Pair, master: bool, a: nat, b: nat)
    requires WellFormed(g) && Mirrored(g) && InGraph(g, p) && MayLink(g, p)
    ensures Above(Established(g, p, master), a, b) <==> Above(g, a, b) || New(g, p, a, b)
  {
    hide New, Mirrored, MayLink, Established, Has, Clean;
    EstablishedRefs(g, p, master, a, b);
    RefsHas(List(g, AllUpper, a), b);
    RefsHas(List(Established(g, p, master), AllUpper, a), b);
  }

  lemma AboveTable(g: Graph, p: Pair, master: bool)
    requires WellFormed(g) && Mirrored(g) && InGraph(g, p) && MayLink(g, p)
    ensures forall a: nat, b: nat :: Above(Established(g, p, master), a, b) <==>
      (Above(g, a, b) || ((Above(g, a, p.lower) || a == p.lower) && (Above(g, p.upper, b) || b == p.upper)))
  {
    hide *;
    forall a: nat, b: nat
      ensures Above(Established(g, p, master), a, b) <==>
        (Above(g, a, b) || ((Above(g, a, p.lower) || a == p.lower) && (Above(g, p.upper, b) || b == p.upper)))
    {
      AboveAfter(g, p, master, a, b);
      NewMeans(g, p, a, b);
    }
  }

  /** Transitivity survives. */
  lemma LinkTransitive(g: Graph, p: Pair, master: bool)
    requires WellFormed(g) && Mirrored(g) && InGraph(g, p) && MayLink(g, p) && Transitive(g)
    ensures Transitive(Established(g, p, master))
  {
    hide Above, WellFormed, Mirrored, Established;
    AboveTable(g, p, master);
    NotAbove(g, p);
  }

  lemma NotAbove(g: Graph, p: Pair)
    requires MayLink(g, p)
    ensures p.lower != p.upper && !Above(g, p.upper, p.lower) && !Above(g, p.lower, p.upper)
  {
  }

  lemma LinkReach(g: Graph, p: Pair, master: bool, edges: set<Pair>)
    requires Closed(g, edges) && InGraph(g, p) && MayLink(g, p)
    ensures forall q :: q in edges + {p} ==> Above(Established(g, p, master), q.lower, q.upper)
    ensures forall a: nat, b: nat :: Above(Established(g, p, master), a, b) ==> Reach(edges + {p}, a, b)
  {
    hide Above, WellFormed, Mirrored, Established, Reach, MayLink;
    AboveTable(g, p, master);
    var more := edges + {p};
    ReachEdge(more, p);
    forall a: nat, b: nat | Above(Established(g, p, master), a, b)
      ensures Reach(more, a, b)
    {
      if Above(g, a, b) {
        ReachMore(edges, more, a, b);
      } else {
        ReachThrough(g, p, edges, a, b);
      }
    }
  }

  lemma ReachThrough(g: Graph, p: Pair, edges: set<Pair>, a: nat, b: nat)
    requires Closed(g, edges)
    requires (Above(g, a, p.lower) || a == p.lower) && (Above(g, p.upper, b) || b == p.upper)
    ensures Reach(edges + {p}, a, b)
  {
    hide Above, WellFormed, Mirrored, Reach, Transitive;
    var more := edges + {p};
    ReachEdge(more, p);
    if a != p.lower {
      ReachMore(edges, more, a, p.lower);
      ReachJoined(more, a, p.lower, p.upper);
    }
    if b != p.upper {
      ReachMore(edges, more, p.upper, b);
      ReachJoined(more, a, p.upper, b);
    }
  }

  lemma LinkMirrored(g: Graph, p: Pair, master: bool)
    requires WellFormed(g) && Mirrored(g) && InGraph(g, p) && MayLink(g, p) && Transitive(g)
    ensures Mirrored(Established(g, p, master))
  {
    hide WellFormed, Established, Has, Refs, List;
    var t := Established(g, p, master);
    forall a: nat, b: nat
      ensures Refs(List(t, AllUpper, a), b) == Refs(List(t, AllLower, b), a)
    {
      EstablishedRefs(g, p, master, a, b);
    }
    AboveTable(g, p, master);
    NotAbove(g, p);
    forall a: nat
      ensures !Has(List(t, AllUpper, a), a)
    {
      assert !Above(g, a, a) && !Above(t, a, a);
    }
    EntriesAreDevices(g, p, master);
  }

  lemma EntriesAreDevices(g: Graph, p: Pair, master: bool)
    requires WellFormed(g) && Mirrored(g) && InGraph(g, p) && MayLink(g, p)
    ensures var t := Established(g, p, master);
      forall k, d: nat :: k in t.lists && Has(t.lists[k], d) ==> d < |t.holds|
  {
    var ls, us := Lowers(g, p.lower), Uppers(g, p.upper);
    var ps := Mesh(ls, us) + Row(p.lower, us) + Col(ls, p.upper);
    hide WellFormed, LinkAll, LinkNeighbour, Established, Has, Refs, List, Mesh, Sides, MayLink, Linked, Distinct;
    SidesOfLink(g, p);
    BlocksApart(g, p, ls, us);
    EstablishedAsOne(g, p, master);
    NeighbourFacts(g, p, master);
    NeighbourBounded(g, p, master);
    LinkAllBounded(LinkNeighbour(g, p, master), ps);
  }

  ghost predicate Bounded(g: Graph) {
    forall k, d: nat :: k in g.lists && Has(g.lists[k], d) ==> d < |g.holds|
  }

  lemma InsertBounded(g: Graph, k: Key, d: nat, master: bool)
    requires WellFormed(g) && Bounded(g) && k in g.lists && d < |g.holds|
    ensures Bounded(InsertAs(g, k, d, master))
  {
    hide Has, Refs, Clean, InsertAs, WellFormed;
    InsertFacts(g, k, d, master);
  }

  lemma LinkBounded(g: Graph, p: Pair)
    requires WellFormed(g) && Bounded(g) && InGraph(g, p)
    ensures Bounded(Link(g, p))
  {
    hide Bounded, InsertAs, WellFormed;
    InGraphKeys(g, p);
    InsertFacts(g, Key(AllUpper, p.lower), p.upper, false);
    InsertBounded(g, Key(AllUpper, p.lower), p.upper, false);
    InsertBounded(Insert(g, Key(AllUpper, p.lower), p.upper), Key(AllLower, p.upper), p.lower, false);
  }

  lemma NeighbourBounded(g: Graph, p: Pair, master: bool)
    requires WellFormed(g) && Bounded(g) && InGraph(g, p)
    ensures Bounded(LinkNeighbour(g, p, master))
  {
    hide Bounded, InsertAs, WellFormed, Link, Linked;
    LinkFacts(g, p);
    LinkBounded(g, p);
    var h := Link(g, p);
    InGraphKeys(h, p);
    InsertFacts(h, Key(AdjUpper, p.lower), p.upper, master);
    InsertBounded(h, Key(AdjUpper, p.lower), p.upper, master);
    InsertBounded(InsertAs(h, Key(AdjUpper, p.lower), p.upper, master), Key(AdjLower, p.upper), p.lower, false);
  }

  lemma {:induction false} LinkAllBounded(g: Graph, ps: seq<Pair>)
    requires WellFormed(g) && Bounded(g) && AllInGraph(g, ps)
    ensures Bounded(LinkAll(g, ps))
    decreases |ps|
  {
    hide Bounded, Link, WellFormed, Linked;
    if ps == [] {
    } else {
      LinkFacts(g, ps[0]);
      LinkBounded(g, ps[0]);
      LinkAllBounded(Link(g, ps[0]), ps[1..]);
    }
  }

  lemma LinkCloses(g: Graph, p: Pair, master: bool, edges: set<Pair>)
    requires Closed(g, edges) && InGraph(g, p) && MayLink(g, p)
    ensures Closed(Established(g, p, master), edges + {p})
  {
    hide Above, WellFormed, Mirrored, Established, Reach, MayLink, Transitive;
    EstablishedRefs(g, p, master, 0, 0);
    LinkMirrored(g, p, master);
    LinkTransitive(g, p, master);
    LinkReach(g, p, master, edges);
  }

  datatype Attempt = Attempt(p: Pair, master: bool)

  /** The tests of __netdev_upper_dev_link. */
  predicate Passes(g: Graph, a: Attempt) {
    InGraph(g, a.p) && MayLink(g, a.p) && !(a.master && HasMaster(g, a.p.lower))
  }

  /** A link is made if the tests allow it and nothing fails; otherwise nothing changes. */
  function Try(g: Graph, a: Attempt): Graph {
    if Passes(g, a) then Established(g, a.p, a.master) else g
  }

  function Run(g: Graph, es: seq<Attempt>): Graph
    decreases |es|
  {
    if es == [] then g else Run(Try(g, es[0]), es[1..])
  }

  /** The links that were made. */
  ghost function Made(g: Graph, es: seq<Attempt>): set<Pair>
    decreases |es|
  {
    if es == [] then {}
    else (if Passes(g, es[0]) then {es[0].p} else {}) + Made(Try(g, es[0]), es[1..])
  }

  function NoLinks(n: nat): Graph {
    Graph(map k: Key | k in AllKeys(n) :: [], seq(n, _ => 0))
  }

  function AllKeys(n: nat): set<Key> {
    if n == 0 then {}
    else AllKeys(n - 1)
         + {Key(AllUpper, n - 1), Key(AllLower, n - 1), Key(AdjUpper, n - 1), Key(AdjLower, n - 1)}
  }

  lemma {:induction false} AllKeysHas(n: nat, kind: Kind, d: nat)
    ensures Key(kind, d) in AllKeys(n) <==> d < n
  {
    if n == 0 {
    } else {
      AllKeysHas(n - 1, kind, d);
    }
  }

  lemma NoLinksClosed(n: nat)
    ensures Closed(NoLinks(n), {})
  {
    forall kind: Kind, d: nat
      ensures Key(kind, d) in AllKeys(n) <==> d < n
    {
      AllKeysHas(n, kind, d);
    }
  }

  lemma {:induction false} RunCloses(g: Graph, es: seq<Attempt>, edges: set<Pair>)
    requires Closed(g, edges)
    ensures Closed(Run(g, es), edges + Made(g, es))
    decreases |es|
  {
    hide Closed, MayLink, InGraph, Established, HasMaster;
    if es != [] {
      var more := if Passes(g, es[0]) then {es[0].p} else {};
      if Passes(g, es[0]) {
        LinkCloses(g, es[0].p, es[0].master, edges);
      }
      assert edges + {} == edges;
      RunCloses(Try(g, es[0]), es[1..], edges + more);
      assert edges + more + Made(Try(g, es[0]), es[1..]) == edges + Made(g, es);
    } else {
      assert edges + {} == edges;
    }
  }

  /** After any history of links between `n` devices: the list above each device is exactly what
      can be reached, upper and lower lists mirror each other with equal counts, and no device is
      its own upper. */
  lemma ListsAreTheClosure(n: nat, es: seq<Attempt>, a: nat, b: nat)
    ensures var g := Run(NoLinks(n), es);
      && (Above(g, a, b) <==> Reach(Made(NoLinks(n), es), a, b))
      && Refs(List(g, AllUpper, a), b) == Refs(List(g, AllLower, b), a)
      && !Above(g, a, a)
  {
    var g, edges := Run(NoLinks(n), es), {} + Made(NoLinks(n), es);
    NoLinksClosed(n);
    RunCloses(NoLinks(n), es, {});
    assert edges == Made(NoLinks(n), es);
    hide Run, Made, WellFormed;
    if Reach(edges, a, b) {
      var p :| Joins(edges, p, a, b);
      PathIsAbove(g, edges, p);
    }
  }

  lemma {:induction false} PathIsAbove(g: Graph, edges: set<Pair>, p: seq<nat>)
    requires Transitive(g) && (forall q :: q in edges ==> Above(g, q.lower, q.upper)) && Path(edges, p)
    ensures Above(g, p[0], p[|p| - 1])
    decreases |p|
  {
    hide Above;
    assert Pair(p[0], p[1]) in edges;
    if |p| <= 2 {
    } else {
      PathIsAbove(g, edges, p[1..]);
    }
  }
}
