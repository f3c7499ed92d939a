/**
  The adjacency lists of network devices: every device has a list of the devices directly above
  and below it, and a list of all devices above and below it, each entry with a count of the
  ways it came about.  Here are the lists as values; what linking does to them and what undoes
  it.
 */
module DevGraph {
  datatype Adj = Adj(dev: nat, refs: nat, master: bool)

  datatype Kind = AllUpper | AllLower | AdjUpper | AdjLower

  datatype Key = Key(kind: Kind, dev: nat)

  /** All lists, and the references taken to each device (dev_hold). */
  datatype Graph = Graph(lists: map<Key, seq<Adj>>, holds: seq<int>)

  predicate Has(l: seq<Adj>, d: nat) {
    l != [] && (l[0].dev == d || Has(l[1..], d))
  }

  function Refs(l: seq<Adj>, d: nat): nat {
    if l == [] then 0 else if l[0].dev == d then l[0].refs else Refs(l[1..], d)
  }

  /** One more reference to `d`, with a new entry at the end if there is none. */
  function Added(l: seq<Adj>, d: nat): seq<Adj> {
    if l == [] then [Adj(d, 1, false)]
    else if l[0].dev == d then [l[0].(refs := l[0].refs + 1)] + l[1..]
    else [l[0]] + Added(l[1..], d)
  }

  /** One reference less, and no entry after the last one. */
  function Removed(l: seq<Adj>, d: nat): seq<Adj> {
    if l == [] then []
    else if l[0].dev == d then (if l[0].refs > 1 then [l[0].(refs := l[0].refs - 1)] else []) + l[1..]
    else [l[0]] + Removed(l[1..], d)
  }

  /** Entries are for different devices and have references. */
  ghost predicate Clean(l: seq<Adj>) {
    l == [] || (l[0].refs > 0 && !Has(l[1..], l[0].dev) && Clean(l[1..]))
  }

  lemma {:induction false} RefsHas(l: seq<Adj>, d: nat)
    requires Clean(l)
    ensures Refs(l, d) > 0 <==> Has(l, d)
  {
    if l == [] {
    } else {
      RefsHas(l[1..], d);
    }
  }

  lemma {:induction false} AddedFacts(l: seq<Adj>, d: nat, e: nat)
    requires Clean(l)
    ensures Clean(Added(l, d)) && (Has(Added(l, d), e) <==> e == d || Has(l, e))
    ensures Refs(Added(l, d), e) == Refs(l, e) + if e == d then 1 else 0
  {
    if l == [] {
    } else if l[0].dev == d {
      RefsHas(l, e);
    } else {
      AddedFacts(l[1..], d, e);
      AddedFacts(l[1..], d, l[0].dev);
    }
  }

  lemma {:induction false} RemovedFacts(l: seq<Adj>, d: nat, e: nat)
    requires Clean(l) && Has(l, d)
    ensures Clean(Removed(l, d)) && (Has(Removed(l, d), e) <==> if e == d then Refs(l, d) > 1 else Has(l, e))
    ensures Refs(Removed(l, d), e) == Refs(l, e) - if e == d then 1 else 0
  {
    RefsHas(l[1..], d);
    RefsHas(l[1..], e);
    if l[0].dev != d {
      RemovedFacts(l[1..], d, e);
      RemovedFacts(l[1..], d, l[0].dev);
      assert Removed(l, d)[1..] == Removed(l[1..], d);
    } else if l[0].refs > 1 {
      assert Removed(l, d)[1..] == l[1..];
    } else {
      assert Removed(l, d) == l[1..];
    }
  }

  /** A master is put in front instead. */
  function AddedAs(l: seq<Adj>, d: nat, master: bool): seq<Adj> {
    if master && !Has(l, d) then [Adj(d, 1, true)] + l else Added(l, d)
  }

  lemma AddedAsFacts(l: seq<Adj>, d: nat, master: bool, e: nat)
    requires Clean(l)
    ensures var r := AddedAs(l, d, master);
      && Clean(r) && (Has(r, e) <==> e == d || Has(l, e)) && Refs(r, e) == Refs(l, e) + (if e == d then 1 else 0)
      && Removed(r, d) == l
  {
    AddedFacts(l, d, e);
    RemoveUndoesAdd(l, d);
    RefsHas(l, d);
    if master && !Has(l, d) {
      assert ([Adj(d, 1, true)] + l)[1..] == l;
    }
  }

  lemma {:induction false} RemoveUndoesAdd(l: seq<Adj>, d: nat)
    requires Clean(l)
    ensures Removed(Added(l, d), d) == l
  {
    if l == [] {
      assert Removed([Adj(d, 1, false)], d) == [];
    } else if l[0].dev == d {
    } else {
      RemoveUndoesAdd(l[1..], d);
      assert Added(l, d)[1..] == Added(l[1..], d);
    }
  }

  lemma {:induction false} AddedNew(l: seq<Adj>, d: nat)
    requires forall j :: 0 <= j < |l| ==> l[j].dev != d
    ensures !Has(l, d) && Added(l, d) == l + [Adj(d, 1, false)]
  {
    if l == [] {
    } else {
      AddedNew(l[1..], d);
      assert l == [l[0]] + l[1..];
    }
  }

  /** References to different devices are added and removed independently. */
  lemma {:induction false} RemoveAddCommute(l: seq<Adj>, d: nat, e: nat)
    requires d != e && Has(l, e)
    ensures Removed(Added(l, d), e) == Added(Removed(l, e), d)
  {
    if l[0].dev == e {
      RemoveFirstCommutes(l, d, e);
    } else if l[0].dev == d {
      AddFirstCommutes(l, d, e);
    } else {
      RemoveAddCommute(l[1..], d, e);
      assert Added(l, d)[1..] == Added(l[1..], d);
      assert Removed(l, e)[1..] == Removed(l[1..], e);
    }
  }

  lemma RemoveFirstCommutes(l: seq<Adj>, d: nat, e: nat)
    requires d != e && l != [] && l[0].dev == e
    ensures Removed(Added(l, d), e) == Added(Removed(l, e), d)
  {
    assert Added(l, d) == [l[0]] + Added(l[1..], d);
    assert Added(l, d)[1..] == Added(l[1..], d);
    if l[0].refs > 1 {
      assert Removed(l, e)[1..] == l[1..];
    } else {
      assert Removed(l, e) == l[1..];
      assert [] + Added(l[1..], d) == Added(l[1..], d);
    }
  }

  lemma AddFirstCommutes(l: seq<Adj>, d: nat, e: nat)
    requires d != e && l != [] && l[0].dev == d
    ensures Removed(Added(l, d), e) == Added(Removed(l, e), d)
  {
    assert Added(l, d)[1..] == l[1..];
    assert Removed(l, e) == [l[0]] + Removed(l[1..], e);
    assert Removed(l, e)[1..] == Removed(l[1..], e);
  }

  // ---------------------------------------------------------------------------------------
  // The graph.

  function List(g: Graph, kind: Kind, dev: nat): seq<Adj> {
    if Key(kind, dev) in g.lists then g.lists[Key(kind, dev)] else []
  }

  function Hold(g: Graph, d: nat, n: int): seq<int> {
    if d < |g.holds| then g.holds[d := g.holds[d] + n] else g.holds
  }

  /** __netdev_adjacent_dev_insert, when it succeeds. */
  function InsertAs(g: Graph, k: Key, d: nat, master: bool): Graph {
    if k !in g.lists then g
    else Graph(g.lists[k := AddedAs(g.lists[k], d, master)], Hold(g, d, if Has(g.lists[k], d) then 0 else 1))
  }

  function Insert(g: Graph, k: Key, d: nat): Graph {
    InsertAs(g, k, d, false)
  }

  /** __netdev_adjacent_dev_remove. */
  function Remove(g: Graph, k: Key, d: nat): Graph {
    if k !in g.lists then g
    else Graph(g.lists[k := Removed(g.lists[k], d)], Hold(g, d, if Refs(g.lists[k], d) > 1 then 0 else -1))
  }

  /** Two lists that mirror each other. */
  datatype Pair = Pair(lower: nat, upper: nat)

  /** __netdev_adjacent_dev_link and its inverse. */
  function Link(g: Graph, p: Pair): Graph {
    Insert(Insert(g, Key(AllUpper, p.lower), p.upper), Key(AllLower, p.upper), p.lower)
  }

  function Unlink(g: Graph, p: Pair): Graph {
    Remove(Remove(g, Key(AllUpper, p.lower), p.upper), Key(AllLower, p.upper), p.lower)
  }

  ghost predicate WellFormed(g: Graph) {
    && (forall kind, d: nat :: d < |g.holds| ==> Key(kind, d) in g.lists)
    && (forall k :: k in g.lists ==> Clean(g.lists[k]))
  }

  lemma RemoveUndoesInsert(g: Graph, k: Key, d: nat, master: bool)
    requires k in g.lists && Clean(g.lists[k]) && d < |g.holds|
    ensures Remove(InsertAs(g, k, d, master), k, d) == g
  {
    AddedAsFacts(g.lists[k], d, master, d);
    RefsHas(g.lists[k], d);
    hide AddedAs, Removed, Has, Refs, Clean;
    var t := InsertAs(g, k, d, master);
    assert t.lists[k := g.lists[k]] == g.lists;
    assert Hold(t, d, if Refs(t.lists[k], d) > 1 then 0 else -1) == g.holds;
  }

  /** Removing one entry and adding another can be done in either order. */
  lemma RemoveInsertCommute(g: Graph, k: Key, d: nat, k': Key, e: nat)
    requires k in g.lists && k' in g.lists && (k, d) != (k', e) && Clean(g.lists[k]) && Clean(g.lists[k'])
    requires Has(g.lists[k'], e)
    ensures Remove(Insert(g, k, d), k', e) == Insert(Remove(g, k', e), k, d)
  {
    if k == k' {
      RemoveAddCommute(g.lists[k], d, e);
      AddedFacts(g.lists[k], d, e);
      RemovedFacts(g.lists[k], e, d);
      SameList(g, k, d, e);
    } else {
      OtherList(g, k, d, false, k', e);
    }
  }

  lemma SameList(g: Graph, k: Key, d: nat, e: nat)
    requires k in g.lists && d != e
    requires Removed(Added(g.lists[k], d), e) == Added(Removed(g.lists[k], e), d)
    requires Refs(Added(g.lists[k], d), e) == Refs(g.lists[k], e) && (Has(Removed(g.lists[k], e), d) <==> Has(g.lists[k], d))
    ensures Remove(Insert(g, k, d), k, e) == Insert(Remove(g, k, e), k, d)
  {
    hide Added, Removed, Has, Refs;
    var l := g.lists[k];
    var x, y := Removed(Added(l, d), e), Added(l, d);
    assert g.lists[k := y][k := x] == g.lists[k := Removed(l, e)][k := x];
    HoldsCommute(g.holds, d, if Has(l, d) then 0 else 1, e, if Refs(l, e) > 1 then 0 else -1);
  }

  lemma OtherList(g: Graph, k: Key, d: nat, master: bool, k': Key, e: nat)
    requires k in g.lists && k' in g.lists && k != k'
    ensures Remove(InsertAs(g, k, d, master), k', e) == InsertAs(Remove(g, k', e), k, d, master)
  {
    hide AddedAs, Removed, Has, Refs;
    var l, l' := g.lists[k], g.lists[k'];
    assert g.lists[k := AddedAs(l, d, master)][k' := Removed(l', e)] == g.lists[k' := Removed(l', e)][k := AddedAs(l, d, master)];
    HoldsCommute(g.holds, d, if Has(l, d) then 0 else 1, e, if Refs(l', e) > 1 then 0 else -1);
  }

  lemma HoldsCommute(h: seq<int>, d: nat, m: int, e: nat, n: int)
    ensures var f := (h: seq<int>, d: nat, n: int) => if d < |h| then h[d := h[d] + n] else h;
      f(f(h, d, m), e, n) == f(f(h, e, n), d, m)
  {
  }

  // ---------------------------------------------------------------------------------------
  // Pairs of mirrored entries.

  predicate InGraph(g: Graph, p: Pair) {
    p.lower < |g.holds| && p.upper < |g.holds|
  }

  ghost predicate Linked(g: Graph, p: Pair) {
    Has(List(g, AllUpper, p.lower), p.upper) && Has(List(g, AllLower, p.upper), p.lower)
  }

  lemma InsertFacts(g: Graph, k: Key, d: nat, master: bool)
    requires WellFormed(g) && k in g.lists
    ensures var t := InsertAs(g, k, d, master);
      && WellFormed(t) && |t.holds| == |g.holds| && t.lists.Keys == g.lists.Keys
      && forall k', e: nat :: k' in g.lists ==>
           (Has(t.lists[k'], e) <==> (k', e) == (k, d) || Has(g.lists[k'], e))
           && Refs(t.lists[k'], e) == Refs(g.lists[k'], e) + if (k', e) == (k, d) then 1 else 0
  {
    hide AddedAs, Has, Refs, Clean;
    AddedAsFacts(g.lists[k], d, master, d);
    forall e: nat
      ensures Has(AddedAs(g.lists[k], d, master), e) <==> e == d || Has(g.lists[k], e)
      ensures Refs(AddedAs(g.lists[k], d, master), e) == Refs(g.lists[k], e) + if e == d then 1 else 0
    {
      AddedAsFacts(g.lists[k], d, master, e);
    }
  }

  lemma RemoveFacts(g: Graph, k: Key, d: nat)
    requires WellFormed(g) && k in g.lists && Has(g.lists[k], d)
    ensures var t := Remove(g, k, d);
      && WellFormed(t) && |t.holds| == |g.holds| && t.lists.Keys == g.lists.Keys
      && forall k', e: nat :: k' in g.lists ==> (k', e) != (k, d) ==> (Has(t.lists[k'], e) <==> Has(g.lists[k'], e))
  {
    hide Removed, Has, Refs, Clean;
    RemovedFacts(g.lists[k], d, d);
    forall e: nat
      ensures e != d ==> (Has(Removed(g.lists[k], d), e) <==> Has(g.lists[k], e))
    {
      RemovedFacts(g.lists[k], d, e);
    }
  }

  lemma LinkFacts(g: Graph, p: Pair)
    requires WellFormed(g) && InGraph(g, p)
    ensures var t := Link(g, p);
      && WellFormed(t) && |t.holds| == |g.holds| && t.lists.Keys == g.lists.Keys && Linked(t, p)
      && (forall q: Pair :: InGraph(g, q) && Linked(g, q) ==> Linked(t, q))
  {
    hide WellFormed, InsertAs, Has, Refs;
    InGraphKeys(g, p);
    InsertFacts(g, Key(AllUpper, p.lower), p.upper, false);
    InsertFacts(Insert(g, Key(AllUpper, p.lower), p.upper), Key(AllLower, p.upper), p.lower, false);
    forall q: Pair | InGraph(g, q) && Linked(g, q)
      ensures Linked(Link(g, p), q)
    {
      InGraphKeys(g, q);
    }
  }

  lemma InGraphKeys(g: Graph, p: Pair)
    requires WellFormed(g) && InGraph(g, p)
    ensures forall kind :: Key(kind, p.lower) in g.lists && Key(kind, p.upper) in g.lists
  {
  }

  lemma UnlinkUndoesLink(g: Graph, p: Pair)
    requires WellFormed(g) && InGraph(g, p)
    ensures Unlink(Link(g, p), p) == g
  {
    hide InsertAs, Remove, Has, Refs;
    var k1, k2 := Key(AllUpper, p.lower), Key(AllLower, p.upper);
    InGraphKeys(g, p);
    InsertFacts(g, k1, p.upper, false);
    OtherList(Insert(g, k1, p.upper), k2, p.lower, false, k1, p.upper);
    RemoveUndoesInsert(g, k1, p.upper, false);
    RemoveUndoesInsert(g, k2, p.lower, false);
  }

  lemma UnlinkLinkCommute(g: Graph, p: Pair, q: Pair)
    requires WellFormed(g) && InGraph(g, p) && InGraph(g, q) && p != q && Linked(g, q)
    ensures Unlink(Link(g, p), q) == Link(Unlink(g, q), p)
  {
    hide InsertAs, Remove, Has, Refs, Clean;
    var p1, p2, q1, q2 := Key(AllUpper, p.lower), Key(AllLower, p.upper), Key(AllUpper, q.lower), Key(AllLower, q.upper);
    InGraphKeys(g, p);
    InGraphKeys(g, q);
    var a := Insert(g, p1, p.upper);
    InsertFacts(g, p1, p.upper, false);
    RemoveInsertCommute(a, p2, p.lower, q1, q.upper);
    RemoveInsertCommute(g, p1, p.upper, q1, q.upper);
    var h := Remove(g, q1, q.upper);
    RemoveFacts(g, q1, q.upper);
    var b := Insert(h, p1, p.upper);
    InsertFacts(h, p1, p.upper, false);
    RemoveInsertCommute(b, p2, p.lower, q2, q.lower);
    RemoveInsertCommute(h, p1, p.upper, q2, q.lower);
  }

  function LinkAll(g: Graph, ps: seq<Pair>): Graph
    decreases |ps|
  {
    if ps == [] then g else LinkAll(Link(g, ps[0]), ps[1..])
  }

  function UnlinkAll(g: Graph, ps: seq<Pair>): Graph
    decreases |ps|
  {
    if ps == [] then g else UnlinkAll(Unlink(g, ps[0]), ps[1..])
  }

  ghost predicate AllInGraph(g: Graph, ps: seq<Pair>) {
    forall i :: 0 <= i < |ps| ==> InGraph(g, ps[i])
  }

  ghost predicate Distinct(ps: seq<Pair>) {
    forall i, j :: 0 <= i < j < |ps| ==> ps[i] != ps[j]
  }

  lemma {:induction false} UnlinkPast(g: Graph, ps: seq<Pair>, q: Pair)
    requires WellFormed(g) && AllInGraph(g, ps) && InGraph(g, q) && q !in ps && Linked(g, q)
    ensures Unlink(LinkAll(g, ps), q) == LinkAll(Unlink(g, q), ps)
    decreases |ps|
  {
    hide Link, Unlink, Linked, WellFormed;
    if ps == [] {
    } else {
      LinkFacts(g, ps[0]);
      UnlinkPast(Link(g, ps[0]), ps[1..], q);
      UnlinkLinkCommute(g, ps[0], q);
    }
  }

  lemma {:induction false} LinkAllFacts(g: Graph, ps: seq<Pair>)
    requires WellFormed(g) && AllInGraph(g, ps)
    ensures var t := LinkAll(g, ps);
      && WellFormed(t) && |t.holds| == |g.holds| && t.lists.Keys == g.lists.Keys
      && (forall q: Pair :: InGraph(g, q) && Linked(g, q) ==> Linked(t, q))
    decreases |ps|
  {
    hide Link, Linked, WellFormed;
    if ps == [] {
    } else {
      LinkFacts(g, ps[0]);
      LinkAllFacts(Link(g, ps[0]), ps[1..]);
    }
  }

  /** A block of links is undone, first link first, also from under later links of other pairs. */
  lemma {:induction false} UnlinkAllUndoes(g: Graph, a: seq<Pair>, ps: seq<Pair>)
    requires WellFormed(g) && AllInGraph(g, a) && AllInGraph(g, ps) && Distinct(a)
    requires forall i :: 0 <= i < |a| ==> a[i] !in ps
    ensures UnlinkAll(LinkAll(LinkAll(g, a), ps), a) == LinkAll(g, ps)
    decreases |a|
  {
    hide Link, Unlink, Linked, WellFormed;
    if a == [] {
    } else {
      var p, rest := a[0], a[1..];
      var h := Link(g, p);
      LinkFacts(g, p);
      LinkAllFacts(h, rest);
      UnlinkPast(LinkAll(h, rest), ps, p);
      UnlinkPast(h, rest, p);
      UnlinkUndoesLink(g, p);
      UnlinkAllUndoes(g, rest, ps);
    }
  }

  // ---------------------------------------------------------------------------------------
  // Linking and unlinking two devices.

  /** The entries in the lists of neighbours. */
  function LinkAdjacent(g: Graph, p: Pair, master: bool): Graph {
    Insert(InsertAs(g, Key(AdjUpper, p.lower), p.upper, master), Key(AdjLower, p.upper), p.lower)
  }

  function UnlinkAdjacent(g: Graph, p: Pair): Graph {
    Remove(Remove(g, Key(AdjUpper, p.lower), p.upper), Key(AdjLower, p.upper), p.lower)
  }

  function LinkNeighbour(g: Graph, p: Pair, master: bool): Graph {
    LinkAdjacent(Link(g, p), p, master)
  }

  function UnlinkNeighbour(g: Graph, p: Pair): Graph {
    UnlinkAdjacent(Unlink(g, p), p)
  }

  function Devs(l: seq<Adj>): (s: seq<nat>)
    ensures |s| == |l| && forall i :: 0 <= i < |l| ==> s[i] == l[i].dev
  {
    seq(|l|, i requires 0 <= i < |l| => l[i].dev)
  }

  function Row(a: nat, us: seq<nat>): (s: seq<Pair>)
    ensures |s| == |us| && forall i :: 0 <= i < |us| ==> s[i] == Pair(a, us[i])
  {
    seq(|us|, i requires 0 <= i < |us| => Pair(a, us[i]))
  }

  function Col(ls: seq<nat>, b: nat): (s: seq<Pair>)
    ensures |s| == |ls| && forall i :: 0 <= i < |ls| ==> s[i] == Pair(ls[i], b)
  {
    seq(|ls|, i requires 0 <= i < |ls| => Pair(ls[i], b))
  }

  /** Everything below with everything above. */
  function Mesh(ls: seq<nat>, us: seq<nat>): (s: seq<Pair>)
    ensures forall i :: 0 <= i < |s| ==> s[i].lower in ls && s[i].upper in us
  {
    if ls == [] then [] else Mesh(ls[..|ls| - 1], us) + Row(ls[|ls| - 1], us)
  }

  function Lowers(g: Graph, dev: nat): seq<nat> {
    Devs(List(g, AllLower, dev))
  }

  function Uppers(g: Graph, dev: nat): seq<nat> {
    Devs(List(g, AllUpper, dev))
  }

  /** A successful __netdev_upper_dev_link. */
  function Established(g: Graph, p: Pair, master: bool): Graph {
    var ls, us := Lowers(g, p.lower), Uppers(g, p.upper);
    LinkAll(LinkAll(LinkAll(LinkNeighbour(g, p, master), Mesh(ls, us)), Row(p.lower, us)), Col(ls, p.upper))
  }

  /** netdev_upper_dev_unlink. */
  function Dissolved(g: Graph, p: Pair): Graph {
    var h := UnlinkNeighbour(g, p);
    var ls, us := Lowers(h, p.lower), Uppers(h, p.upper);
    UnlinkAll(UnlinkAll(UnlinkAll(h, Mesh(ls, us)), Col(ls, p.upper)), Row(p.lower, us))
  }

  /** What __netdev_upper_dev_link tests before it changes anything. */
  predicate MayLink(g: Graph, p: Pair) {
    && p.lower != p.upper && !Has(List(g, AllUpper, p.upper), p.lower) && !Has(List(g, AllUpper, p.lower), p.upper)
  }

  /** The device is already below a master, which stands first in its list. */
  predicate HasMaster(g: Graph, dev: nat) {
    var l := List(g, AdjUpper, dev);
    l != [] && l[0].master
  }

  /** The lists mirror each other, no device is above itself, and all entries are devices. */
  ghost predicate Mirrored(g: Graph) {
    && (forall a: nat, b: nat :: Refs(List(g, AllUpper, a), b) == Refs(List(g, AllLower, b), a))
    && (forall a: nat :: !Has(List(g, AllUpper, a), a))
    && (forall k, d: nat :: k in g.lists && Has(g.lists[k], d) ==> d < |g.holds|)
  }

  lemma {:induction false} HasDev(l: seq<Adj>, d: nat)
    ensures Has(l, d) <==> d in Devs(l)
  {
    if l == [] {
    } else {
      HasDev(l[1..], d);
      assert Devs(l) == [l[0].dev] + Devs(l[1..]);
    }
  }

  lemma {:induction false} CleanDistinct(l: seq<Adj>)
    requires Clean(l)
    ensures forall i, j :: 0 <= i < j < |l| ==> Devs(l)[i] != Devs(l)[j]
  {
    if l == [] {
    } else {
      CleanDistinct(l[1..]);
      HasDev(l[1..], l[0].dev);
      assert Devs(l) == [l[0].dev] + Devs(l[1..]);
    }
  }

  /** What is known of the devices that a link concerns. */
  ghost predicate Sides(g: Graph, p: Pair, ls: seq<nat>, us: seq<nat>) {
    && (forall i, j :: 0 <= i < j < |ls| ==> ls[i] != ls[j]) && (forall i, j :: 0 <= i < j < |us| ==> us[i] != us[j])
    && p.lower != p.upper && InGraph(g, p)
    && (forall d :: d in ls ==> d < |g.holds| && d != p.lower && d != p.upper)
    && (forall d :: d in us ==> d < |g.holds| && d != p.lower && d != p.upper)
  }

  lemma SidesOfLink(g: Graph, p: Pair)
    requires WellFormed(g) && Mirrored(g) && InGraph(g, p) && MayLink(g, p)
    ensures Sides(g, p, Lowers(g, p.lower), Uppers(g, p.upper))
  {
    var l, u := List(g, AllLower, p.lower), List(g, AllUpper, p.upper);
    CleanDistinct(l);
    CleanDistinct(u);
    forall d: nat
      ensures Has(l, d) <==> d in Devs(l)
      ensures Has(u, d) <==> d in Devs(u)
    {
      HasDev(l, d);
      HasDev(u, d);
    }
    MirrorHas(g, p.upper, p.lower);
    MirrorHas(g, p.lower, p.lower);
    hide Has, Refs, Clean;
  }

  lemma MirrorHas(g: Graph, a: nat, b: nat)
    requires WellFormed(g) && Mirrored(g)
    ensures Has(List(g, AllUpper, a), b) <==> Has(List(g, AllLower, b), a)
  {
    hide Has, Refs, Clean;
    RefsHas(List(g, AllUpper, a), b);
    RefsHas(List(g, AllLower, b), a);
  }

  lemma {:induction false} MeshDistinct(ls: seq<nat>, us: seq<nat>)
    requires forall i, j :: 0 <= i < j < |ls| ==> ls[i] != ls[j]
    requires forall i, j :: 0 <= i < j < |us| ==> us[i] != us[j]
    ensures Distinct(Mesh(ls, us))
    decreases |ls|
  {
    if ls == [] {
    } else {
      var a, z := Mesh(ls[..|ls| - 1], us), Row(ls[|ls| - 1], us);
      MeshDistinct(ls[..|ls| - 1], us);
      assert forall i :: 0 <= i < |a| ==> a[i].lower != ls[|ls| - 1];
      forall i, j | 0 <= i < j < |a + z|
        ensures (a + z)[i] != (a + z)[j]
      {
      }
    }
  }

  lemma KeysKept(g: Graph, k: Key, d: nat, master: bool)
    ensures Remove(g, k, d).lists.Keys == g.lists.Keys && |Remove(g, k, d).holds| == |g.holds|
    ensures InsertAs(g, k, d, master).lists.Keys == g.lists.Keys && |InsertAs(g, k, d, master).holds| == |g.holds|
  {
    hide AddedAs, Removed, Has, Refs;
  }

  /** The lists of all four kinds exist for both devices. */
  ghost predicate HasKeys(g: Graph, p: Pair) {
    forall kind :: Key(kind, p.lower) in g.lists && Key(kind, p.upper) in g.lists
  }

  /** Entries of neighbours and of all devices do not touch each other. */
  lemma AdjacentLinkCommute(g: Graph, p: Pair, q: Pair)
    requires HasKeys(g, p) && HasKeys(g, q)
    ensures UnlinkAdjacent(Link(g, q), p) == Link(UnlinkAdjacent(g, p), q)
  {
    hide InsertAs, Remove;
    var p1, p2, q1, q2 := Key(AdjUpper, p.lower), Key(AdjLower, p.upper), Key(AllUpper, q.lower), Key(AllLower, q.upper);
    KeysKept(g, q1, q.upper, false);
    OtherList(Insert(g, q1, q.upper), q2, q.lower, false, p1, p.upper);
    OtherList(g, q1, q.upper, false, p1, p.upper);
    var h := Remove(g, p1, p.upper);
    KeysKept(g, p1, p.upper, false);
    KeysKept(h, q1, q.upper, false);
    OtherList(Insert(h, q1, q.upper), q2, q.lower, false, p2, p.lower);
    OtherList(h, q1, q.upper, false, p2, p.lower);
  }

  lemma {:induction false} AdjacentPast(g: Graph, p: Pair, ps: seq<Pair>)
    requires WellFormed(g) && InGraph(g, p) && AllInGraph(g, ps)
    ensures UnlinkAdjacent(LinkAll(g, ps), p) == LinkAll(UnlinkAdjacent(g, p), ps)
    decreases |ps|
  {
    hide Link, UnlinkAdjacent, Linked, WellFormed;
    if ps == [] {
    } else {
      LinkFacts(g, ps[0]);
      InGraphKeys(g, ps[0]);
      InGraphKeys(g, p);
      AdjacentPast(Link(g, ps[0]), p, ps[1..]);
      AdjacentLinkCommute(g, p, ps[0]);
    }
  }

  lemma UnlinkAdjacentCommute(g: Graph, p: Pair, master: bool, q: Pair)
    requires HasKeys(g, p) && HasKeys(g, q)
    ensures Unlink(LinkAdjacent(g, p, master), q) == LinkAdjacent(Unlink(g, q), p, master)
  {
    hide InsertAs, Remove;
    var p1, p2, q1, q2 := Key(AdjUpper, p.lower), Key(AdjLower, p.upper), Key(AllUpper, q.lower), Key(AllLower, q.upper);
    KeysKept(g, p1, p.upper, master);
    OtherList(InsertAs(g, p1, p.upper, master), p2, p.lower, false, q1, q.upper);
    OtherList(g, p1, p.upper, master, q1, q.upper);
    var h := Remove(g, q1, q.upper);
    KeysKept(g, q1, q.upper, false);
    KeysKept(h, p1, p.upper, master);
    OtherList(InsertAs(h, p1, p.upper, master), p2, p.lower, false, q2, q.lower);
    OtherList(h, p1, p.upper, master, q2, q.lower);
  }

  lemma AdjacentUndone(g: Graph, p: Pair, master: bool)
    requires WellFormed(g) && InGraph(g, p)
    ensures UnlinkAdjacent(LinkAdjacent(g, p, master), p) == g
  {
    hide InsertAs, Remove, Has, Refs;
    var k1, k2 := Key(AdjUpper, p.lower), Key(AdjLower, p.upper);
    InGraphKeys(g, p);
    InsertFacts(g, k1, p.upper, master);
    OtherList(InsertAs(g, k1, p.upper, master), k2, p.lower, false, k1, p.upper);
    RemoveUndoesInsert(g, k1, p.upper, master);
    RemoveUndoesInsert(g, k2, p.lower, false);
  }

  lemma NeighbourFacts(g: Graph, p: Pair, master: bool)
    requires WellFormed(g) && InGraph(g, p)
    ensures var t := LinkNeighbour(g, p, master);
      && WellFormed(t) && |t.holds| == |g.holds| && t.lists.Keys == g.lists.Keys && Linked(t, p)
      && (forall a: nat :: List(t, AllLower, a) == List(Link(g, p), AllLower, a))
      && (forall a: nat :: List(t, AllUpper, a) == List(Link(g, p), AllUpper, a))
  {
    LinkFacts(g, p);
    var h := Link(g, p);
    InGraphKeys(h, p);
    hide Link, Clean, Has, Refs, AddedAs;
    InsertFacts(h, Key(AdjUpper, p.lower), p.upper, master);
    InsertFacts(InsertAs(h, Key(AdjUpper, p.lower), p.upper, master), Key(AdjLower, p.upper), p.lower, false);
  }

  lemma AllEntryPast(g: Graph, p: Pair, master: bool, ps: seq<Pair>)
    requires WellFormed(g) && InGraph(g, p) && AllInGraph(g, ps) && p !in ps
    ensures Unlink(LinkAll(LinkNeighbour(g, p, master), ps), p) == LinkAll(LinkAdjacent(g, p, master), ps)
  {
    hide Link, Unlink, LinkAdjacent, Linked, WellFormed, LinkAll;
    NeighbourFacts(g, p, master);
    UnlinkPast(LinkNeighbour(g, p, master), ps, p);
    LinkFacts(g, p);
    InGraphKeys(Link(g, p), p);
    UnlinkAdjacentCommute(Link(g, p), p, master, p);
    UnlinkUndoesLink(g, p);
  }

  /** The link between the two devices themselves is undone from under the others. */
  lemma NeighbourPast(g: Graph, p: Pair, master: bool, ps: seq<Pair>)
    requires WellFormed(g) && InGraph(g, p) && AllInGraph(g, ps) && p !in ps
    ensures UnlinkNeighbour(LinkAll(LinkNeighbour(g, p, master), ps), p) == LinkAll(g, ps)
  {
    hide Unlink, LinkAdjacent, UnlinkAdjacent, LinkNeighbour, WellFormed, LinkAll;
    AllEntryPast(g, p, master, ps);
    AdjacentWellFormed(g, p, master);
    AdjacentPast(LinkAdjacent(g, p, master), p, ps);
    AdjacentUndone(g, p, master);
  }

  lemma AdjacentWellFormed(g: Graph, p: Pair, master: bool)
    requires WellFormed(g) && InGraph(g, p)
    ensures WellFormed(LinkAdjacent(g, p, master)) && |LinkAdjacent(g, p, master).holds| == |g.holds|
  {
    InGraphKeys(g, p);
    hide InsertAs, Has, Refs, Clean;
    InsertFacts(g, Key(AdjUpper, p.lower), p.upper, master);
    InsertFacts(InsertAs(g, Key(AdjUpper, p.lower), p.upper, master), Key(AdjLower, p.upper), p.lower, false);
  }

  /** The lists that are walked do not change while other pairs are linked. */
  lemma {:induction false} WalkedListsSame(g: Graph, dev: nat, upper: nat, ps: seq<Pair>)
    requires forall i :: 0 <= i < |ps| ==> ps[i].upper != dev && ps[i].lower != upper
    ensures List(LinkAll(g, ps), AllLower, dev) == List(g, AllLower, dev)
    ensures List(LinkAll(g, ps), AllUpper, upper) == List(g, AllUpper, upper)
    decreases |ps|
  {
    hide AddedAs;
    if ps == [] {
    } else {
      WalkedListsSame(Link(g, ps[0]), dev, upper, ps[1..]);
    }
  }

  /** Links between devices that are not neighbours leave the lists of neighbours alone. */
  lemma {:induction false} NeighbourListsSame(g: Graph, ps: seq<Pair>, k: Key)
    requires k.kind.AdjUpper? || k.kind.AdjLower?
    ensures k in LinkAll(g, ps).lists <==> k in g.lists
    ensures k in g.lists ==> LinkAll(g, ps).lists[k] == g.lists[k]
    decreases |ps|
  {
    hide AddedAs, Has;
    if ps == [] {
    } else {
      NeighbourListsSame(Link(g, ps[0]), ps[1..], k);
    }
  }

  lemma {:induction false} LinkAllConcat(g: Graph, a: seq<Pair>, b: seq<Pair>)
    ensures LinkAll(g, a + b) == LinkAll(LinkAll(g, a), b)
    decreases |a|
  {
    hide Link;
    if a == [] {
      assert a + b == b;
    } else {
      assert (a + b)[1..] == a[1..] + b;
      LinkAllConcat(Link(g, a[0]), a[1..], b);
    }
  }

  /** The blocks of pairs that a link adds have nothing in common. */
  lemma BlocksApart(g: Graph, p: Pair, ls: seq<nat>, us: seq<nat>)
    requires Sides(g, p, ls, us)
    ensures var a, b, c := Mesh(ls, us), Row(p.lower, us), Col(ls, p.upper);
      && Distinct(a) && Distinct(b) && Distinct(c) && AllInGraph(g, a) && AllInGraph(g, b) && AllInGraph(g, c)
      && (forall i :: 0 <= i < |a| ==> a[i] !in b + c && a[i] != p)
      && (forall i :: 0 <= i < |b| ==> b[i] !in c && b[i] != p)
      && (forall i :: 0 <= i < |c| ==> c[i] != p)
      && (forall i :: 0 <= i < |a + b + c| ==> (a + b + c)[i].upper != p.lower && (a + b + c)[i].lower != p.upper)
  {
    MeshDistinct(ls, us);
    var a, b, c := Mesh(ls, us), Row(p.lower, us), Col(ls, p.upper);
    hide Mesh;
    assert forall i :: 0 <= i < |a| ==> a[i].lower != p.lower && a[i].upper != p.upper;
    assert forall i :: 0 <= i < |b| ==> b[i].lower == p.lower && b[i].upper in us;
    assert forall i :: 0 <= i < |c| ==> c[i].upper == p.upper && c[i].lower in ls;
  }

  lemma EstablishedAsOne(g: Graph, p: Pair, master: bool)
    ensures var ls, us := Lowers(g, p.lower), Uppers(g, p.upper);
      Established(g, p, master) == LinkAll(LinkNeighbour(g, p, master), Mesh(ls, us) + Row(p.lower, us) + Col(ls, p.upper))
  {
    hide LinkAll, LinkNeighbour, Mesh;
    var ls, us, h := Lowers(g, p.lower), Uppers(g, p.upper), LinkNeighbour(g, p, master);
    LinkAllConcat(h, Mesh(ls, us) + Row(p.lower, us), Col(ls, p.upper));
    LinkAllConcat(h, Mesh(ls, us), Row(p.lower, us));
  }

  lemma UnlinkAllAlone(g: Graph, a: seq<Pair>)
    requires WellFormed(g) && AllInGraph(g, a) && Distinct(a)
    ensures UnlinkAll(LinkAll(g, a), a) == g
  {
    UnlinkAllUndoes(g, a, []);
  }

  lemma BlocksUndone(g: Graph, a: seq<Pair>, b: seq<Pair>, c: seq<Pair>)
    requires WellFormed(g) && AllInGraph(g, a) && AllInGraph(g, b) && AllInGraph(g, c)
    requires Distinct(a) && Distinct(b) && Distinct(c) && forall i :: 0 <= i < |a| ==> a[i] !in b + c
    ensures UnlinkAll(UnlinkAll(UnlinkAll(LinkAll(g, a + b + c), a), c), b) == g
  {
    hide LinkAll, UnlinkAll, WellFormed, Distinct;
    LinkAllFacts(g, b);
    assert AllInGraph(g, b + c);
    assert a + b + c == a + (b + c);
    LinkAllConcat(g, a, b + c);
    UnlinkAllUndoes(g, a, b + c);
    LinkAllConcat(g, b, c);
    UnlinkAllAlone(LinkAll(g, b), c);
    UnlinkAllAlone(g, b);
  }

  lemma DissolvedAfter(g: Graph, p: Pair, master: bool)
    requires WellFormed(g) && Mirrored(g) && InGraph(g, p) && MayLink(g, p)
    ensures var ls, us := Lowers(g, p.lower), Uppers(g, p.upper);
      var a, b, c := Mesh(ls, us), Row(p.lower, us), Col(ls, p.upper);
      Dissolved(Established(g, p, master), p) == UnlinkAll(UnlinkAll(UnlinkAll(LinkAll(g, a + b + c), a), c), b)
  {
    hide LinkAll, UnlinkAll, UnlinkNeighbour, LinkNeighbour, Mesh, WellFormed, Established, Mirrored, MayLink, List, InGraph;
    var ls, us := Lowers(g, p.lower), Uppers(g, p.upper);
    var a, b, c := Mesh(ls, us), Row(p.lower, us), Col(ls, p.upper);
    SidesOfLink(g, p);
    BlocksApart(g, p, ls, us);
    EstablishedAsOne(g, p, master);
    NeighbourPast(g, p, master, a + b + c);
    WalkedListsSame(g, p.lower, p.upper, a + b + c);
  }

  /** Linking two devices and unlinking them again leaves every list, every count and every
      reference to a device as it was. */
  lemma UnlinkUndoesEstablish(g: Graph, p: Pair, master: bool)
    requires WellFormed(g) && Mirrored(g) && InGraph(g, p) && MayLink(g, p)
    ensures Dissolved(Established(g, p, master), p) == g
  {
    var ls, us := Lowers(g, p.lower), Uppers(g, p.upper);
    hide LinkAll, UnlinkAll, Dissolved, Established, Mesh, WellFormed, Mirrored, MayLink, Distinct;
    SidesOfLink(g, p);
    BlocksApart(g, p, ls, us);
    DissolvedAfter(g, p, master);
    BlocksUndone(g, Mesh(ls, us), Row(p.lower, us), Col(ls, p.upper));
  }
}
