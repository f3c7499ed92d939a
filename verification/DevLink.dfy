/**
  Linking and unlinking network devices as the code does it: walking the lists, inserting entry
  by entry, any insertion may fail for lack of memory, and a failure undoes in three stages what
  was done.
 */
module DevLink {
  import opened DevGraph

  lemma {:induction false} AddedAt(l: seq<Adj>, d: nat, i: nat)
    requires i < |l| && l[i].dev == d && forall j :: 0 <= j < i ==> l[j].dev != d
    ensures Has(l, d) && Added(l, d) == l[i := l[i].(refs := l[i].refs + 1)] && Refs(l, d) == l[i].refs
    ensures Removed(l, d) == if l[i].refs > 1 then l[i := l[i].(refs := l[i].refs - 1)] else l[..i] + l[i + 1..]
  {
    if i == 0 {
    } else {
      assert l[0].dev != d;
      AddedAt(l[1..], d, i - 1);
      assert l == [l[0]] + l[1..];
    }
  }

  function LinkLists(g: Graph, p: Pair, up: Kind, down: Kind, master: bool): Graph {
    Insert(InsertAs(g, Key(up, p.lower), p.upper, master), Key(down, p.upper), p.lower)
  }

  /** What a new entry needs: memory, an entry in sysfs if it is one of a neighbour, and another
      one if that is the master. */
  function Attempts(k: Key, master: bool): nat {
    1 + (if k.kind.AdjUpper? || k.kind.AdjLower? then 1 else 0) + (if master then 1 else 0)
  }

  class Devices {
    var lists: map<Key, seq<Adj>>
    var holds: seq<int>
    /** Attempts to get memory, or an entry in sysfs, made so far, and those of them that fail. */
    var tried: nat
    const fail: set<nat>

    ghost function G(): Graph
      reads this
    {
      Graph(lists, holds)
    }

    /** Every attempt since the `n`-th has succeeded. */
    ghost predicate GotAll(n: nat)
      reads this
    {
      n <= tried && forall i :: n <= i < tried ==> i !in fail
    }

    /** Some attempt since the `n`-th has failed. */
    ghost predicate Missed(n: nat)
      reads this
    {
      exists i :: n <= i < tried && i in fail
    }

    method TryAlloc() returns (ok: bool)
      modifies this`tried
      ensures tried == old(tried) + 1 && (ok <==> old(tried) !in fail)
    {
      ok := tried !in fail;
      tried := tried + 1;
    }

    /** __netdev_find_adj: the index of `d`, or the length of the list. */
    method FindAdj(l: seq<Adj>, d: nat) returns (i: nat)
      ensures i <= |l| && (i < |l| ==> l[i].dev == d) && forall j :: 0 <= j < i ==> l[j].dev != d
    {
      i := 0;
      while i < |l| && l[i].dev != d
        invariant i <= |l| && forall j :: 0 <= j < i ==> l[j].dev != d
      {
        i := i + 1;
      }
    }

    /** __netdev_adjacent_dev_insert. */
    method AdjacentDevInsert(k: Key, d: nat, master: bool) returns (ok: bool)
      requires k in lists && d < |holds|
      modifies this
      ensures G() == if ok then InsertAs(old(G()), k, d, master) else old(G())
      ensures old(tried) <= tried && (ok ==> tried == old(tried) + if Has(old(lists)[k], d) then 0 else Attempts(k, master))
      ensures if ok then GotAll(old(tried)) else Missed(old(tried))
    {
      hide Has, Added;
      var l := lists[k];
      var i := FindAdj(l, d);
      if i < |l| {
        AddedAt(l, d, i);
        lists := lists[k := l[i := l[i].(refs := l[i].refs + 1)]];
        assert holds[d := holds[d] + 0] == holds;
        return true;
      }
      AddedNew(l, d);
      ok := TryAlloc();
      if !ok {
        return;
      }
      ghost var before := holds;
      holds := holds[d := holds[d] + 1];
      if k.kind.AdjUpper? || k.kind.AdjLower? {
        ok := TryAlloc();
      }
      if ok && master {
        ok := TryAlloc();
      }
      if !ok {
        holds := holds[d := holds[d] - 1];
        assert holds == before;
        return;
      }
      lists := lists[k := if master then [Adj(d, 1, true)] + l else l + [Adj(d, 1, false)]];
    }

    /** __netdev_adjacent_dev_remove. */
    method AdjacentDevRemove(k: Key, d: nat)
      requires k in lists && d < |holds| && Has(lists[k], d)
      modifies this`lists, this`holds
      ensures G() == Remove(old(G()), k, d)
    {
      var l := lists[k];
      var i := FindAdj(l, d);
      if i == |l| {
        AddedNew(l, d);
      }
      AddedAt(l, d, i);
      hide Has, Removed, Refs;
      if l[i].refs > 1 {
        lists := lists[k := l[i := l[i].(refs := l[i].refs - 1)]];
        assert holds[d := holds[d] + 0] == holds;
      } else {
        lists := lists[k := l[..i] + l[i + 1..]];
        holds := holds[d := holds[d] - 1];
      }
    }

    /** __netdev_adjacent_dev_link_lists: both mirrored entries or none. */
    method AdjacentDevLinkLists(p: Pair, up: Kind, down: Kind, master: bool) returns (ok: bool)
      requires WellFormed(G()) && InGraph(G(), p)
      modifies this
      ensures G() == if ok then LinkLists(old(G()), p, up, down, master) else old(G())
      ensures if ok then GotAll(old(tried)) else old(tried) <= tried && Missed(old(tried))
    {
      hide InsertAs, Remove, Has;
      ghost var g := G();
      InGraphKeys(g, p);
      InsertFacts(g, Key(up, p.lower), p.upper, master);
      ok := AdjacentDevInsert(Key(up, p.lower), p.upper, master);
      if !ok {
        return;
      }
      ok := AdjacentDevInsert(Key(down, p.upper), p.lower, false);
      if !ok {
        RemoveUndoesInsert(g, Key(up, p.lower), p.upper, master);
        AdjacentDevRemove(Key(up, p.lower), p.upper);
      }
    }

    /** __netdev_adjacent_dev_link. */
    method AdjacentDevLink(p: Pair) returns (ok: bool)
      requires WellFormed(G()) && InGraph(G(), p)
      modifies this
      ensures G() == if ok then Link(old(G()), p) else old(G())
      ensures if ok then GotAll(old(tried)) else old(tried) <= tried && Missed(old(tried))
    {
      ok := AdjacentDevLinkLists(p, AllUpper, AllLower, false);
    }

    /** __netdev_adjacent_dev_unlink. */
    method AdjacentDevUnlink(p: Pair)
      requires WellFormed(G()) && InGraph(G(), p) && Linked(G(), p)
      modifies this`lists, this`holds
      ensures G() == Unlink(old(G()), p)
    {
      hide InsertAs, Remove, Has;
      ghost var g := G();
      InGraphKeys(g, p);
      RemoveFacts(g, Key(AllUpper, p.lower), p.upper);
      AdjacentDevRemove(Key(AllUpper, p.lower), p.upper);
      AdjacentDevRemove(Key(AllLower, p.upper), p.lower);
    }

    /** __netdev_adjacent_dev_link_neighbour. */
    method AdjacentDevLinkNeighbour(p: Pair, master: bool) returns (ok: bool)
      requires WellFormed(G()) && InGraph(G(), p)
      modifies this
      ensures G() == if ok then LinkNeighbour(old(G()), p, master) else old(G())
      ensures if ok then GotAll(old(tried)) else old(tried) <= tried && Missed(old(tried))
    {
      hide Link, Unlink, InsertAs, Remove, Has, Refs;
      ghost var g := G();
      LinkFacts(g, p);
      UnlinkUndoesLink(g, p);
      ok := AdjacentDevLink(p);
      if ok {
        ok := AdjacentDevLinkLists(p, AdjUpper, AdjLower, master);
        if !ok {
          AdjacentDevUnlink(p);
        }
      }
    }

    /** __netdev_adjacent_dev_unlink_neighbour, after other links `ps` have been made. */
    method AdjacentDevUnlinkNeighbour(p: Pair, ghost g: Graph, ghost master: bool, ghost ps: seq<Pair>)
      requires WellFormed(g) && InGraph(g, p) && AllInGraph(g, ps) && p !in ps
      requires G() == LinkAll(LinkNeighbour(g, p, master), ps)
      modifies this`lists, this`holds
      ensures G() == LinkAll(g, ps)
    {
      NeighbourPast(g, p, master, ps);
      NeighbourEntries(g, p, master, ps);
      hide Link, Unlink, InsertAs, Remove, Has, Refs, LinkNeighbour, LinkAll;
      AdjacentDevUnlink(p);
      AdjacentDevRemove(Key(AdjUpper, p.lower), p.upper);
      AdjacentDevRemove(Key(AdjLower, p.upper), p.lower);
    }

    // -------------------------------------------------------------------------------------
    // Walking one list.

    /** Links `a` to every device above `upper`; `y` counts those that were linked. */
    method LinkRow(a: nat, dev: nat, upper: nat, ghost g: Graph, ghost us: seq<nat>) returns (ok: bool, y: nat)
      requires WellFormed(g) && G() == g && us == Uppers(g, upper) && AllInGraph(g, Row(a, us))
      requires a != upper && dev !in us && Key(AllUpper, upper) in lists
      modifies this
      ensures y <= |us| && (ok ==> y == |us|) && G() == LinkAll(g, Row(a, us[..y]))
      ensures if ok then GotAll(old(tried)) else old(tried) <= tried && Missed(old(tried))
    {
      hide Link, LinkAll, WellFormed, Linked;
      y, ok := 0, true;
      LinkNone(g, Row(a, us[..0]));
      while y < |lists[Key(AllUpper, upper)]|
        invariant Key(AllUpper, upper) in lists && y <= |us| && G() == LinkAll(g, Row(a, us[..y])) && Uppers(G(), upper) == us
        invariant GotAll(old(tried))
        decreases |us| - y
      {
        ghost var ps := Row(a, us[..y]);
        var j := lists[Key(AllUpper, upper)][y].dev;
        LinkAllFacts(g, ps);
        RowNext(g, a, us, y);
        ok := AdjacentDevLink(Pair(a, j));
        if !ok {
          return;
        }
        y := y + 1;
        WalkedListsSame(g, dev, upper, Row(a, us[..y]));
      }
    }

    /** Links every device below `dev` to `upper`; `x` counts those that were linked. */
    method LinkCol(dev: nat, upper: nat, ghost g: Graph, ghost ls: seq<nat>) returns (ok: bool, x: nat)
      requires WellFormed(g) && G() == g && ls == Lowers(g, dev) && AllInGraph(g, Col(ls, upper))
      requires upper != dev && upper !in ls && Key(AllLower, dev) in lists
      modifies this
      ensures x <= |ls| && (ok ==> x == |ls|) && G() == LinkAll(g, Col(ls[..x], upper))
      ensures if ok then GotAll(old(tried)) else old(tried) <= tried && Missed(old(tried))
    {
      hide Link, LinkAll, WellFormed, Linked;
      x, ok := 0, true;
      LinkNone(g, Col(ls[..0], upper));
      while x < |lists[Key(AllLower, dev)]|
        invariant Key(AllLower, dev) in lists && x <= |ls| && G() == LinkAll(g, Col(ls[..x], upper)) && Lowers(G(), dev) == ls
        invariant GotAll(old(tried))
        decreases |ls| - x
      {
        ghost var ps := Col(ls[..x], upper);
        var i := lists[Key(AllLower, dev)][x].dev;
        LinkAllFacts(g, ps);
        ColNext(g, ls, upper, x);
        ok := AdjacentDevLink(Pair(i, upper));
        if !ok {
          return;
        }
        x := x + 1;
        WalkedListsSame(g, dev, upper, Col(ls[..x], upper));
      }
    }

    /** Links every device below `dev` to every device above `upper`, row by row. */
    method LinkMesh(dev: nat, upper: nat, ghost g: Graph, ghost ls: seq<nat>, ghost us: seq<nat>)
        returns (ok: bool, x: nat, y: nat)
      requires WellFormed(g) && G() == g && ls == Lowers(g, dev) && us == Uppers(g, upper)
      requires Sides(g, Pair(dev, upper), ls, us) && Key(AllLower, dev) in lists && Key(AllUpper, upper) in lists
      modifies this
      ensures ok ==> G() == LinkAll(g, Mesh(ls, us))
      ensures if ok then GotAll(old(tried)) else old(tried) <= tried && Missed(old(tried))
      ensures !ok ==> x < |ls| && y <= |us| && G() == LinkAll(LinkAll(g, Mesh(ls[..x], us)), Row(ls[x], us[..y]))
    {
      hide Link, LinkAll, WellFormed, Linked, Mesh, Sides;
      x, y, ok := 0, 0, true;
      MeshNone(g, us);
      while x < |lists[Key(AllLower, dev)]|
        invariant Key(AllLower, dev) in lists && Key(AllUpper, upper) in lists && x <= |ls|
        invariant ls[..0] == [] && G() == LinkAll(g, Mesh(ls[..x], us)) && Lowers(G(), dev) == ls && Uppers(G(), upper) == us
        invariant GotAll(old(tried))
        decreases |ls| - x
      {
        var i := lists[Key(AllLower, dev)][x].dev;
        MeshNext(g, Pair(dev, upper), ls, us, x);
        ghost var h := G();
        ok, y := LinkRow(i, dev, upper, h, us);
        if !ok {
          return;
        }
        assert us[..y] == us;
        x := x + 1;
      }
      assert ls[..x] == ls;
    }

    // -------------------------------------------------------------------------------------
    // Undoing, first link first.

    /** Unlinks `a` from the first `n` devices above `upper`; `rest` was linked as well. */
    method UnlinkRow(a: nat, dev: nat, upper: nat, n: nat, ghost g: Graph, ghost us: seq<nat>, ghost rest: seq<Pair>)
      requires WellFormed(g) && us == Uppers(g, upper) && n <= |us| && Key(AllUpper, upper) in g.lists
      requires G() == LinkAll(g, Row(a, us[..n]) + rest)
      requires Distinct(Row(a, us[..n]) + rest) && AllInGraph(g, Row(a, us[..n]) + rest)
      requires Unwalked(Row(a, us[..n]) + rest, dev, upper)
      modifies this`lists, this`holds
      ensures G() == LinkAll(g, rest)
    {
      hide Link, LinkAll, WellFormed, Linked, Unlink, Distinct, AllInGraph, Unwalked;
      var y := 0;
      assert us[0..n] == us[..n];
      while y < n
        invariant y <= n && Distinct(Row(a, us[y..n]) + rest) && AllInGraph(g, Row(a, us[y..n]) + rest)
        invariant Unwalked(Row(a, us[y..n]) + rest, dev, upper)
        invariant G() == LinkAll(g, Row(a, us[y..n]) + rest)
        decreases n - y
      {
        RowFirst(a, us, y, n, rest);
        ghost var q, more := Pair(a, us[y]), Row(a, us[y + 1..n]) + rest;
        UnlinkFirst(g, q, more, dev, upper);
        var j := lists[Key(AllUpper, upper)][y].dev;
        AdjacentDevUnlink(Pair(a, j));
        y := y + 1;
      }
      assert Row(a, us[n..n]) + rest == rest;
    }

    /** Unlinks the first `n` devices below `dev` from `upper`. */
    method UnlinkCol(dev: nat, upper: nat, n: nat, ghost g: Graph, ghost ls: seq<nat>)
      requires WellFormed(g) && ls == Lowers(g, dev) && n <= |ls| && Key(AllLower, dev) in g.lists
      requires G() == LinkAll(g, Col(ls[..n], upper))
      requires Distinct(Col(ls[..n], upper)) && AllInGraph(g, Col(ls[..n], upper)) && Unwalked(Col(ls[..n], upper), dev, upper)
      modifies this`lists, this`holds
      ensures G() == g
    {
      hide Link, LinkAll, WellFormed, Linked, Unlink, Distinct, AllInGraph, Unwalked;
      var x := 0;
      assert ls[0..n] == ls[..n];
      while x < n
        invariant x <= n && Distinct(Col(ls[x..n], upper)) && AllInGraph(g, Col(ls[x..n], upper))
        invariant Unwalked(Col(ls[x..n], upper), dev, upper)
        invariant G() == LinkAll(g, Col(ls[x..n], upper))
        decreases n - x
      {
        ColFirst(ls, upper, x, n);
        UnlinkFirst(g, Pair(ls[x], upper), Col(ls[x + 1..n], upper), dev, upper);
        var i := lists[Key(AllLower, dev)][x].dev;
        AdjacentDevUnlink(Pair(i, upper));
        x := x + 1;
      }
      LinkNone(g, Col(ls[n..n], upper));
    }

    /** Unlinks the first `x` devices below `dev` from all devices above `upper`, and the next one
        from the first `y`; `rest` was linked as well. */
    method UnlinkMesh(dev: nat, upper: nat, x: nat, y: nat, ghost g: Graph, ghost ls: seq<nat>, ghost us: seq<nat>,
                      ghost rest: seq<Pair>)
      requires WellFormed(g) && ls == Lowers(g, dev) && us == Uppers(g, upper)
      requires Key(AllLower, dev) in g.lists && Key(AllUpper, upper) in g.lists
      requires x <= |ls| && y <= |us| && (x == |ls| ==> y == 0)
      requires G() == LinkAll(g, Mesh(ls[..x], us) + (PartRow(ls, us, x, y) + rest))
      requires Removable(g, Mesh(ls[..x], us) + (PartRow(ls, us, x, y) + rest), dev, upper)
      modifies this`lists, this`holds
      ensures G() == LinkAll(g, rest)
    {
      hide Link, LinkAll, WellFormed, Linked, Unlink, Distinct, AllInGraph, Unwalked, Mesh;
      ghost var last := PartRow(ls, us, x, y) + rest;
      var k := 0;
      assert ls[0..x] == ls[..x];
      while k < x
        invariant k <= x && G() == LinkAll(g, Mesh(ls[k..x], us) + last)
        invariant Removable(g, Mesh(ls[k..x], us) + last, dev, upper)
        decreases x - k
      {
        MeshFirst(ls, us, k, x, last);
        ghost var more := Mesh(ls[k + 1..x], us) + last;
        assert us[..|us|] == us;
        ListsSame(g, Row(ls[k], us) + more, dev, upper);
        RemovableTail(g, Row(ls[k], us), more, dev, upper);
        var i := lists[Key(AllLower, dev)][k].dev;
        UnlinkRow(i, dev, upper, |lists[Key(AllUpper, upper)]|, g, us, more);
        k := k + 1;
      }
      MeshEmpty(ls, us, x, last);
      if y > 0 {
        ListsSame(g, last, dev, upper);
        UnlinkRow(lists[Key(AllLower, dev)][x].dev, dev, upper, y, g, us, rest);
      } else {
        assert PartRow(ls, us, x, y) + rest == rest;
      }
    }

    // -------------------------------------------------------------------------------------
    // The whole operation.

    /** The tests of __netdev_upper_dev_link. */
    method Test(p: Pair, master: bool) returns (ret: Ret)
      requires WellFormed(G()) && InGraph(G(), p)
      ensures ret.Ok? <==> MayLink(G(), p) && !(master && HasMaster(G(), p.lower))
      ensures !ret.Ok? ==> ret.Busy? || ret.Exists?
    {
      InGraphKeys(G(), p);
      hide Has;
      if p.lower == p.upper {
        return Busy;
      }
      var i := FindAdj(lists[Key(AllUpper, p.upper)], p.lower);
      if i < |lists[Key(AllUpper, p.upper)]| {
        AddedAt(lists[Key(AllUpper, p.upper)], p.lower, i);
        return Busy;
      }
      AddedNew(lists[Key(AllUpper, p.upper)], p.lower);
      i := FindAdj(lists[Key(AllUpper, p.lower)], p.upper);
      if i < |lists[Key(AllUpper, p.lower)]| {
        AddedAt(lists[Key(AllUpper, p.lower)], p.upper, i);
        return Exists;
      }
      AddedNew(lists[Key(AllUpper, p.lower)], p.upper);
      if master && lists[Key(AdjUpper, p.lower)] != [] && lists[Key(AdjUpper, p.lower)][0].master {
        return Busy;
      }
      return Ok;
    }

    /** The links between everything below and everything above, undone if one of them fails. */
    method LinkOthers(p: Pair, ghost g: Graph, ghost ls: seq<nat>, ghost us: seq<nat>) returns (ok: bool)
      requires Ready(g, p, ls, us) && G() == g
      modifies this
      ensures G() == if ok then LinkAll(LinkAll(LinkAll(g, Mesh(ls, us)), Row(p.lower, us)), Col(ls, p.upper)) else g
      ensures if ok then GotAll(old(tried)) else old(tried) <= tried && Missed(old(tried))
    {
      hide LinkAll, WellFormed, Mesh, Removable, Sides, Unwalked, Distinct, Linked;
      var x, y, n, m;
      Stages(g, p, ls, us);
      ok, x, y := LinkMesh(p.lower, p.upper, g, ls, us);
      ghost var a := LinkAll(g, Mesh(ls, us));
      if ok {
        ok, n := LinkRow(p.lower, p.lower, p.upper, a, us);
        ghost var b := LinkAll(a, Row(p.lower, us));
        if ok {
          assert us[..n] == us;
          ok, m := LinkCol(p.lower, p.upper, b, ls);
          if ok {
            assert ls[..m] == ls;
            return;
          }
          ColPrefix(b, p, ls, m);
          UnlinkCol(p.lower, p.upper, m, b, ls);
        }
        RowPrefix(a, p, us, n);
        UnlinkRow(p.lower, p.lower, p.upper, n, a, us, []);
        LinkNone(a, []);
        x, y := |lists[Key(AllLower, p.lower)]|, 0;
        assert ls[..x] == ls && G() == a;
        MeshWhole(g, p, ls, us);
      } else {
        MeshPrefix(g, p, ls, us, x, y);
      }
      UnlinkMesh(p.lower, p.upper, x, y, g, ls, us, []);
      LinkNone(g, []);
    }

    /** __netdev_upper_dev_link: all or nothing. */
    method UpperDevLink(p: Pair, master: bool) returns (ret: Ret)
      requires WellFormed(G()) && Mirrored(G()) && InGraph(G(), p)
      modifies this
      ensures G() == if ret.Ok? then Established(old(G()), p, master) else old(G())
      ensures ret.Busy? || ret.Exists? <==> !(MayLink(old(G()), p) && !(master && HasMaster(old(G()), p.lower)))
      ensures ret.Ok? ==> GotAll(old(tried))
      ensures ret.NoMemory? ==> Missed(old(tried))
    {
      hide LinkAll, WellFormed, Mesh, Mirrored, MayLink, LinkNeighbour, Ready;
      ghost var g, ls, us := G(), Lowers(G(), p.lower), Uppers(G(), p.upper);
      ret := Test(p, master);
      if !ret.Ok? {
        return;
      }
      LinkReady(g, p, master);
      var ok := AdjacentDevLinkNeighbour(p, master);
      if !ok {
        return NoMemory;
      }
      ghost var n := G();
      ok := LinkOthers(p, n, ls, us);
      if !ok {
        LinkNone(n, []);
        LinkNone(g, []);
        AdjacentDevUnlinkNeighbour(p, g, master, []);
        return NoMemory;
      }
    }

    /** netdev_upper_dev_unlink, for two devices that have just been linked. */
    method UpperDevUnlink(p: Pair, ghost g: Graph, ghost master: bool)
      requires WellFormed(g) && Mirrored(g) && InGraph(g, p) && MayLink(g, p)
      requires G() == Established(g, p, master)
      modifies this`lists, this`holds
      ensures G() == g
    {
      hide LinkAll, WellFormed, Mesh, Mirrored, MayLink, LinkNeighbour, Established, Distinct, Sides, List;
      ghost var ls, us := Lowers(g, p.lower), Uppers(g, p.upper);
      ghost var a, b, c := Mesh(ls, us), Row(p.lower, us), Col(ls, p.upper);
      SidesOfLink(g, p);
      InGraphKeys(g, p);
      BlocksApart(g, p, ls, us);
      EstablishedAsOne(g, p, master);
      UnlinkReady(g, p, ls, us);
      AdjacentDevUnlinkNeighbour(p, g, master, a + b + c);
      WalksLength(G(), p, ls, us);
      UnlinkMesh(p.lower, p.upper, |lists[Key(AllLower, p.lower)]|, 0, g, ls, us, b + c);
      ghost var h := LinkAll(g, b);
      assert ls[..|ls|] == ls && us[..|us|] == us && b + [] == b;
      WalksLength(G(), p, ls, us);
      UnlinkCol(p.lower, p.upper, |lists[Key(AllLower, p.lower)]|, h, ls);
      WalksLength(G(), p, ls, us);
      UnlinkRow(p.lower, p.lower, p.upper, |lists[Key(AllUpper, p.upper)]|, g, us, []);
      LinkNone(g, []);
    }
  }

  lemma WalksLength(g: Graph, p: Pair, ls: seq<nat>, us: seq<nat>)
    requires Walks(g, p, ls, us)
    ensures |g.lists[Key(AllLower, p.lower)]| == |ls| && |g.lists[Key(AllUpper, p.upper)]| == |us|
  {
  }

  lemma DistinctConcat(a: seq<Pair>, b: seq<Pair>)
    requires Distinct(a) && Distinct(b) && forall i :: 0 <= i < |a| ==> a[i] !in b
    ensures Distinct(a + b)
  {
    forall i, j | 0 <= i < j < |a + b|
      ensures (a + b)[i] != (a + b)[j]
    {
      if i < |a| <= j { assert b[j - |a|] in b; }
    }
  }

  lemma BlocksRemovable(g: Graph, p: Pair, ls: seq<nat>, us: seq<nat>)
    requires Sides(g, p, ls, us)
    ensures Removable(g, Mesh(ls, us) + (Row(p.lower, us) + Col(ls, p.upper)), p.lower, p.upper)
  {
    var a, b, c := Mesh(ls, us), Row(p.lower, us), Col(ls, p.upper);
    BlocksApart(g, p, ls, us);
    hide Mesh, Sides, Distinct;
    DistinctConcat(b, c);
    DistinctConcat(a, b + c);
    assert a + (b + c) == a + b + c;
  }

  /** The walked lists are those of `ls` and `us`. */
  ghost predicate Walks(g: Graph, p: Pair, ls: seq<nat>, us: seq<nat>) {
    && Key(AllLower, p.lower) in g.lists && Key(AllUpper, p.upper) in g.lists
    && ls == Lowers(g, p.lower) && us == Uppers(g, p.upper)
  }

  lemma StillWalks(g: Graph, p: Pair, ls: seq<nat>, us: seq<nat>, ps: seq<Pair>)
    requires WellFormed(g) && Walks(g, p, ls, us) && Removable(g, ps, p.lower, p.upper)
    ensures Walks(LinkAll(g, ps), p, ls, us) && WellFormed(LinkAll(g, ps)) && |LinkAll(g, ps).holds| == |g.holds|
  {
    hide LinkAll, WellFormed, Removable, List, Linked;
    ListsSame(g, ps, p.lower, p.upper);
    assert AllInGraph(g, ps) by { RemovableInGraph(g, ps, p.lower, p.upper); }
    LinkAllFacts(g, ps);
  }

  lemma RemovableInGraph(g: Graph, ps: seq<Pair>, dev: nat, upper: nat)
    requires Removable(g, ps, dev, upper)
    ensures AllInGraph(g, ps)
  {
  }

  lemma RemovableElsewhere(g: Graph, h: Graph, ps: seq<Pair>, dev: nat, upper: nat)
    requires Removable(g, ps, dev, upper) && |g.holds| == |h.holds|
    ensures Removable(h, ps, dev, upper)
  {
  }

  /** What the stages of unlinking need to know. */
  lemma UnlinkReady(g: Graph, p: Pair, ls: seq<nat>, us: seq<nat>)
    requires WellFormed(g) && Sides(g, p, ls, us) && Walks(g, p, ls, us)
    ensures var a, b, c := Mesh(ls, us), Row(p.lower, us), Col(ls, p.upper);
      var h := LinkAll(g, b);
      && a + b + c == Mesh(ls[..|ls|], us) + (PartRow(ls, us, |ls|, 0) + (b + c))
      && Removable(g, a + b + c, p.lower, p.upper)
      && LinkAll(g, b + c) == LinkAll(h, c) && WellFormed(h)
      && Removable(h, c, p.lower, p.upper) && Removable(g, b, p.lower, p.upper)
      && Walks(h, p, ls, us) && Walks(LinkAll(g, a + b + c), p, ls, us) && Walks(LinkAll(g, b + c), p, ls, us)
  {
    hide LinkAll, WellFormed, Mesh, Removable, Sides, Walks;
    var a, b, c := Mesh(ls, us), Row(p.lower, us), Col(ls, p.upper);
    BlocksRemovable(g, p, ls, us);
    RemovableTail(g, a, b + c, p.lower, p.upper);
    RemovableTail(g, b, c, p.lower, p.upper);
    StillWalks(g, p, ls, us, b);
    StillWalks(g, p, ls, us, b + c);
    RemovableElsewhere(g, LinkAll(g, b), c, p.lower, p.upper);
    LinkAllConcat(g, b, c);
    assert ls[..|ls|] == ls;
    assert a + ([] + (b + c)) == a + (b + c) == a + b + c;
    StillWalks(g, p, ls, us, a + b + c);
  }

  datatype Ret = Ok | Busy | Exists | NoMemory

  /** The two devices are linked, and everything below and above them is about to be. */
  ghost predicate Ready(g: Graph, p: Pair, ls: seq<nat>, us: seq<nat>) {
    WellFormed(g) && Sides(g, p, ls, us) && ls == Lowers(g, p.lower) && us == Uppers(g, p.upper)
  }

  lemma LinkReady(g: Graph, p: Pair, master: bool)
    requires WellFormed(g) && Mirrored(g) && InGraph(g, p) && MayLink(g, p)
    ensures Ready(LinkNeighbour(g, p, master), p, Lowers(g, p.lower), Uppers(g, p.upper))
  {
    hide LinkNeighbour, Link, List, WellFormed, Mirrored, Linked, LinkAll;
    SidesOfLink(g, p);
    NeighbourFacts(g, p, master);
    LinkOne(g, p);
    WalkedListsSame(g, p.lower, p.upper, [p]);
  }

  lemma LinkOne(g: Graph, p: Pair)
    ensures LinkAll(g, [p]) == Link(g, p)
  {
    hide Link;
    assert [p][1..] == [];
    assert LinkAll(Link(g, p), []) == Link(g, p);
  }

  lemma AllRemovable(g: Graph, p: Pair, ls: seq<nat>, us: seq<nat>)
    requires Sides(g, p, ls, us)
    ensures Removable(g, Mesh(ls, us), p.lower, p.upper) && Removable(g, Row(p.lower, us), p.lower, p.upper)
    ensures Removable(g, Col(ls, p.upper), p.lower, p.upper)
  {
    hide Mesh, Removable, Sides;
    BlocksRemovable(g, p, ls, us);
    RemovableTail(g, Mesh(ls, us), Row(p.lower, us) + Col(ls, p.upper), p.lower, p.upper);
    RemovableTail(g, Row(p.lower, us), Col(ls, p.upper), p.lower, p.upper);
  }

  ghost predicate Walkable(t: Graph, p: Pair, ls: seq<nat>, us: seq<nat>) {
    && Key(AllLower, p.lower) in t.lists && Key(AllUpper, p.upper) in t.lists
    && Removable(t, Mesh(ls, us), p.lower, p.upper) && Removable(t, Row(p.lower, us), p.lower, p.upper)
    && Removable(t, Col(ls, p.upper), p.lower, p.upper)
    && AllInGraph(t, Row(p.lower, us)) && AllInGraph(t, Col(ls, p.upper))
  }

  /** What each stage needs to know of the one before. */
  lemma Stages(g: Graph, p: Pair, ls: seq<nat>, us: seq<nat>)
    requires Ready(g, p, ls, us)
    ensures var a := LinkAll(g, Mesh(ls, us));
      var b := LinkAll(a, Row(p.lower, us));
      && Ready(a, p, ls, us) && Ready(b, p, ls, us)
      && Walkable(g, p, ls, us) && Walkable(a, p, ls, us) && Walkable(b, p, ls, us)
      && p.lower != p.upper && p.lower !in us && p.upper !in ls
  {
    hide LinkAll, WellFormed, Mesh, List, Linked, Distinct;
    var a := LinkAll(g, Mesh(ls, us));
    AllRemovable(g, p, ls, us);
    ListsSame(g, Mesh(ls, us), p.lower, p.upper);
    LinkAllFacts(g, Mesh(ls, us));
    AllRemovable(a, p, ls, us);
    ListsSame(a, Row(p.lower, us), p.lower, p.upper);
    LinkAllFacts(a, Row(p.lower, us));
    AllRemovable(LinkAll(a, Row(p.lower, us)), p, ls, us);
    InGraphKeys(g, p);
  }

  lemma ColPrefix(g: Graph, p: Pair, ls: seq<nat>, m: nat)
    requires Removable(g, Col(ls, p.upper), p.lower, p.upper) && m <= |ls|
    ensures Removable(g, Col(ls[..m], p.upper), p.lower, p.upper)
  {
    assert Col(ls, p.upper) == Col(ls[..m], p.upper) + Col(ls[m..], p.upper);
    RemovableTail(g, Col(ls[..m], p.upper), Col(ls[m..], p.upper), p.lower, p.upper);
  }

  lemma RowPrefix(g: Graph, p: Pair, us: seq<nat>, n: nat)
    requires Removable(g, Row(p.lower, us), p.lower, p.upper) && n <= |us|
    ensures Removable(g, Row(p.lower, us[..n]) + [], p.lower, p.upper)
    ensures Row(p.lower, us[..n]) + [] == Row(p.lower, us[..n])
  {
    assert Row(p.lower, us) == Row(p.lower, us[..n]) + Row(p.lower, us[n..]);
    RemovableTail(g, Row(p.lower, us[..n]), Row(p.lower, us[n..]), p.lower, p.upper);
    assert Row(p.lower, us[..n]) + [] == Row(p.lower, us[..n]);
  }

  lemma MeshWhole(g: Graph, p: Pair, ls: seq<nat>, us: seq<nat>)
    requires Removable(g, Mesh(ls, us), p.lower, p.upper)
    ensures var ps := Mesh(ls[..|ls|], us) + (PartRow(ls, us, |ls|, 0) + []);
      Removable(g, ps, p.lower, p.upper) && ps == Mesh(ls, us)
  {
    hide Mesh;
    assert ls[..|ls|] == ls;
    assert Mesh(ls, us) + ([] + []) == Mesh(ls, us);
  }

  lemma MeshPrefix(g: Graph, p: Pair, ls: seq<nat>, us: seq<nat>, x: nat, y: nat)
    requires Removable(g, Mesh(ls, us), p.lower, p.upper) && x < |ls| && y <= |us|
    ensures var ps := Mesh(ls[..x], us) + (PartRow(ls, us, x, y) + []);
      && Removable(g, ps, p.lower, p.upper)
      && LinkAll(g, ps) == LinkAll(LinkAll(g, Mesh(ls[..x], us)), Row(ls[x], us[..y]))
  {
    hide LinkAll, Mesh;
    MeshSplit(ls, us, x);
    var a, r, z := Mesh(ls[..x], us), Row(ls[x], us), Mesh(ls[x + 1..], us);
    var part, left := Row(ls[x], us[..y]), Row(ls[x], us[y..]);
    assert r == part + left;
    assert Mesh(ls, us) == (a + part) + (left + z);
    RemovableTail(g, a + part, left + z, p.lower, p.upper);
    assert a + (part + []) == a + part;
    LinkAllConcat(g, a, part);
  }

  lemma {:induction false} MeshConcat(a: seq<nat>, b: seq<nat>, us: seq<nat>)
    ensures Mesh(a + b, us) == Mesh(a, us) + Mesh(b, us)
    decreases |b|
  {
    if b == [] {
      assert a + b == a;
    } else {
      var n := |b| - 1;
      assert (a + b)[..|a + b| - 1] == a + b[..n];
      MeshConcat(a, b[..n], us);
    }
  }

  lemma MeshOne(l: nat, us: seq<nat>)
    ensures Mesh([l], us) == Row(l, us)
  {
    assert [l][..0] == [];
    assert Mesh([], us) + Row(l, us) == Row(l, us);
  }

  lemma MeshSplit(ls: seq<nat>, us: seq<nat>, x: nat)
    requires x < |ls|
    ensures Mesh(ls, us) == Mesh(ls[..x], us) + Row(ls[x], us) + Mesh(ls[x + 1..], us)
  {
    hide Mesh;
    assert ls == ls[..x] + [ls[x]] + ls[x + 1..];
    MeshConcat(ls[..x] + [ls[x]], ls[x + 1..], us);
    MeshConcat(ls[..x], [ls[x]], us);
    MeshOne(ls[x], us);
  }

  /** The pairs of an unfinished row. */
  ghost function PartRow(ls: seq<nat>, us: seq<nat>, x: nat, y: nat): seq<Pair>
    requires x <= |ls| && y <= |us|
  {
    if x < |ls| then Row(ls[x], us[..y]) else []
  }

  ghost predicate Removable(g: Graph, ps: seq<Pair>, dev: nat, upper: nat) {
    Distinct(ps) && AllInGraph(g, ps) && Unwalked(ps, dev, upper)
  }

  lemma RemovableTail(g: Graph, a: seq<Pair>, b: seq<Pair>, dev: nat, upper: nat)
    requires Removable(g, a + b, dev, upper)
    ensures Removable(g, a, dev, upper) && Removable(g, b, dev, upper)
  {
    var ps := a + b;
    assert forall i :: 0 <= i < |a| ==> a[i] == ps[i];
    assert forall i :: 0 <= i < |b| ==> b[i] == ps[|a| + i];
  }

  lemma ListsSame(g: Graph, ps: seq<Pair>, dev: nat, upper: nat)
    requires WellFormed(g) && Removable(g, ps, dev, upper)
    ensures var t := LinkAll(g, ps);
      && List(t, AllUpper, upper) == List(g, AllUpper, upper) && List(t, AllLower, dev) == List(g, AllLower, dev)
      && t.lists.Keys == g.lists.Keys
  {
    hide LinkAll, List, WellFormed, Linked;
    LinkAllFacts(g, ps);
    WalkedListsSame(g, dev, upper, ps);
  }

  lemma ColFirst(ls: seq<nat>, b: nat, x: nat, n: nat)
    requires x < n <= |ls|
    ensures Col(ls[x..n], b) == [Pair(ls[x], b)] + Col(ls[x + 1..n], b)
  {
  }

  lemma {:induction false} MeshCons(ls: seq<nat>, us: seq<nat>)
    requires ls != []
    ensures Mesh(ls, us) == Row(ls[0], us) + Mesh(ls[1..], us)
    decreases |ls|
  {
    var n := |ls| - 1;
    if n == 0 {
    } else {
      MeshCons(ls[..n], us);
      assert ls[..n][1..] == ls[1..][..n - 1] && ls[1..][n - 1] == ls[n];
      assert Mesh(ls[1..], us) == Mesh(ls[1..][..n - 1], us) + Row(ls[n], us);
    }
  }

  lemma MeshFirst(ls: seq<nat>, us: seq<nat>, k: nat, x: nat, last: seq<Pair>)
    requires k < x <= |ls|
    ensures Mesh(ls[k..x], us) + last == Row(ls[k], us) + (Mesh(ls[k + 1..x], us) + last)
  {
    MeshCons(ls[k..x], us);
    assert ls[k..x][1..] == ls[k + 1..x];
  }

  lemma MeshEmpty(ls: seq<nat>, us: seq<nat>, x: nat, last: seq<Pair>)
    requires x <= |ls|
    ensures Mesh(ls[x..x], us) + last == last
  {
  }

  lemma ColNext(g: Graph, ls: seq<nat>, b: nat, x: nat)
    requires x < |ls|
    ensures Col(ls[..x + 1], b) == Col(ls[..x], b) + [Pair(ls[x], b)]
    ensures LinkAll(g, Col(ls[..x + 1], b)) == Link(LinkAll(g, Col(ls[..x], b)), Pair(ls[x], b))
    ensures AllInGraph(g, Col(ls, b)) ==> AllInGraph(g, Col(ls[..x], b)) && InGraph(g, Pair(ls[x], b))
  {
    assert Col(ls[..x + 1], b) == Col(ls[..x], b) + [Pair(ls[x], b)];
    LinkSnoc(g, Col(ls[..x], b), Pair(ls[x], b));
    assert Col(ls, b)[x] == Pair(ls[x], b);
    assert forall i :: 0 <= i < x ==> Col(ls[..x], b)[i] == Col(ls, b)[i];
  }

  lemma MeshNone(g: Graph, us: seq<nat>)
    ensures LinkAll(g, Mesh([], us)) == g
  {
  }

  lemma MeshSnoc(ls: seq<nat>, us: seq<nat>, x: nat)
    requires x < |ls|
    ensures Mesh(ls[..x + 1], us) == Mesh(ls[..x], us) + Row(ls[x], us)
  {
    assert ls[..x + 1][..x] == ls[..x] && ls[..x + 1][x] == ls[x];
  }

  /** Pairs of a mesh are pairs of devices, and leave the walked lists alone. */
  lemma MeshFacts(g: Graph, p: Pair, ls: seq<nat>, us: seq<nat>, x: nat)
    requires Sides(g, p, ls, us) && x <= |ls|
    ensures var ps := Mesh(ls[..x], us);
      AllInGraph(g, ps) && forall i :: 0 <= i < |ps| ==> ps[i].upper != p.lower && ps[i].lower != p.upper
  {
    var ps := Mesh(ls[..x], us);
    forall i | 0 <= i < |ps|
      ensures InGraph(g, ps[i]) && ps[i].upper != p.lower && ps[i].lower != p.upper
    {
      assert ps[i].lower in ls && ps[i].upper in us;
    }
  }

  lemma MeshNext(g: Graph, p: Pair, ls: seq<nat>, us: seq<nat>, x: nat)
    requires WellFormed(g) && Sides(g, p, ls, us) && x < |ls|
    requires Lowers(g, p.lower) == ls && Uppers(g, p.upper) == us
    ensures var h, t := LinkAll(g, Mesh(ls[..x], us)), LinkAll(g, Mesh(ls[..x + 1], us));
      && WellFormed(h) && t == LinkAll(h, Row(ls[x], us)) && AllInGraph(h, Row(ls[x], us))
      && ls[x] != p.upper && p.lower !in us
      && Lowers(t, p.lower) == ls && Uppers(t, p.upper) == us && t.lists.Keys == g.lists.Keys
  {
    hide LinkAll, Mesh, List, WellFormed, Linked;
    MeshFacts(g, p, ls, us, x);
    MeshFacts(g, p, ls, us, x + 1);
    MeshSnoc(ls, us, x);
    LinkAllConcat(g, Mesh(ls[..x], us), Row(ls[x], us));
    LinkAllFacts(g, Mesh(ls[..x], us));
    LinkAllFacts(g, Mesh(ls[..x + 1], us));
    WalkedListsSame(g, p.lower, p.upper, Mesh(ls[..x + 1], us));
    assert ls[x] in ls && forall i :: 0 <= i < |us| ==> us[i] in us;
  }

  /** Linking these pairs does not change the lists below `dev` and above `upper`. */
  ghost predicate Unwalked(ps: seq<Pair>, dev: nat, upper: nat) {
    forall i :: 0 <= i < |ps| ==> ps[i].upper != dev && ps[i].lower != upper
  }

  lemma RowFirst(a: nat, us: seq<nat>, y: nat, n: nat, rest: seq<Pair>)
    requires y < n <= |us|
    ensures Row(a, us[y..n]) + rest == [Pair(a, us[y])] + (Row(a, us[y + 1..n]) + rest)
  {
    assert Row(a, us[y..n]) == [Pair(a, us[y])] + Row(a, us[y + 1..n]);
  }

  /** The first of several links is undone from under the others. */
  lemma UnlinkFirst(g: Graph, q: Pair, more: seq<Pair>, dev: nat, upper: nat)
    requires WellFormed(g) && Distinct([q] + more) && AllInGraph(g, [q] + more) && Unwalked([q] + more, dev, upper)
    ensures var t := LinkAll(g, [q] + more);
      && Unlink(t, q) == LinkAll(g, more) && WellFormed(t) && InGraph(t, q) && Linked(t, q)
      && List(t, AllUpper, upper) == List(g, AllUpper, upper) && List(t, AllLower, dev) == List(g, AllLower, dev)
      && t.lists.Keys == g.lists.Keys
    ensures Distinct(more) && AllInGraph(g, more) && Unwalked(more, dev, upper)
  {
    var ps := [q] + more;
    assert ps[0] == q && ps[1..] == more && forall i :: 0 <= i < |more| ==> more[i] == ps[i + 1];
    LinkFacts(g, q);
    assert LinkAll(g, ps) == LinkAll(Link(g, q), more);
    hide Link, LinkAll, WellFormed, Linked, Unlink, List;
    LinkAllFacts(Link(g, q), more);
    UnlinkPast(Link(g, q), more, q);
    UnlinkUndoesLink(g, q);
    WalkedListsSame(g, dev, upper, ps);
  }

  lemma LinkNone(g: Graph, ps: seq<Pair>)
    requires ps == []
    ensures LinkAll(g, ps) == g
  {
  }

  lemma LinkSnoc(g: Graph, ps: seq<Pair>, q: Pair)
    ensures LinkAll(g, ps + [q]) == Link(LinkAll(g, ps), q)
  {
    hide Link;
    LinkAllConcat(g, ps, [q]);
    assert [q][1..] == [];
    assert LinkAll(Link(LinkAll(g, ps), q), []) == Link(LinkAll(g, ps), q);
  }

  lemma RowNext(g: Graph, a: nat, us: seq<nat>, y: nat)
    requires y < |us|
    ensures Row(a, us[..y + 1]) == Row(a, us[..y]) + [Pair(a, us[y])]
    ensures LinkAll(g, Row(a, us[..y + 1])) == Link(LinkAll(g, Row(a, us[..y])), Pair(a, us[y]))
    ensures AllInGraph(g, Row(a, us)) ==> AllInGraph(g, Row(a, us[..y])) && InGraph(g, Pair(a, us[y]))
  {
    assert Row(a, us[..y + 1]) == Row(a, us[..y]) + [Pair(a, us[y])];
    LinkSnoc(g, Row(a, us[..y]), Pair(a, us[y]));
    assert Row(a, us)[y] == Pair(a, us[y]);
    assert forall i :: 0 <= i < y ==> Row(a, us[..y])[i] == Row(a, us)[i];
  }

  lemma AdjacentEntries(g: Graph, p: Pair, master: bool)
    requires WellFormed(g) && InGraph(g, p)
    ensures var t, k1, k2 := LinkAdjacent(g, p, master), Key(AdjUpper, p.lower), Key(AdjLower, p.upper);
      k1 in t.lists && Has(t.lists[k1], p.upper) && k2 in t.lists && Has(t.lists[k2], p.lower)
  {
    hide InsertAs, Has, Refs, Clean;
    InGraphKeys(g, p);
    InsertFacts(g, Key(AdjUpper, p.lower), p.upper, master);
    InsertFacts(InsertAs(g, Key(AdjUpper, p.lower), p.upper, master), Key(AdjLower, p.upper), p.lower, false);
  }

  lemma RemoveElsewhere(g: Graph, k: Key, d: nat, k': Key)
    requires k != k' && k' in g.lists
    ensures k' in Remove(g, k, d).lists && Remove(g, k, d).lists[k'] == g.lists[k'] && |Remove(g, k, d).holds| == |g.holds|
  {
  }

  /** The entries that are about to be removed are there. */
  lemma NeighbourEntries(g: Graph, p: Pair, master: bool, ps: seq<Pair>)
    requires WellFormed(g) && InGraph(g, p) && AllInGraph(g, ps) && p !in ps
    ensures var t := LinkAll(LinkNeighbour(g, p, master), ps);
      && WellFormed(t) && InGraph(t, p) && Linked(t, p)
      && Key(AdjUpper, p.lower) in Unlink(t, p).lists && Has(Unlink(t, p).lists[Key(AdjUpper, p.lower)], p.upper)
      && var h := Remove(Unlink(t, p), Key(AdjUpper, p.lower), p.upper);
      Key(AdjLower, p.upper) in h.lists && Has(h.lists[Key(AdjLower, p.upper)], p.lower)
      && |Unlink(t, p).holds| == |h.holds| == |g.holds|
  {
    hide WellFormed, Linked, LinkNeighbour, Unlink, LinkAdjacent, LinkAll, Has, Remove;
    var k1, k2, u := Key(AdjUpper, p.lower), Key(AdjLower, p.upper), LinkAdjacent(g, p, master);
    NeighbourFacts(g, p, master);
    LinkAllFacts(LinkNeighbour(g, p, master), ps);
    AllEntryPast(g, p, master, ps);
    AdjacentEntries(g, p, master);
    AdjacentWellFormed(g, p, master);
    LinkAllFacts(u, ps);
    NeighbourListsSame(u, ps, k1);
    NeighbourListsSame(u, ps, k2);
    RemoveElsewhere(LinkAll(u, ps), k1, p.upper, k2);
  }
}
