/**
  skb_store_bits: writing a range of a buffer through its layout into linear bytes and pages.
 */
module SkbStore {
  import opened SkbData
  import opened SkbCopy

  /** Page memory after writing `d` at byte `k` of fragment `f`. */
  function Put(m: Mem, f: Frag, k: nat, d: seq<byte>): (r: Mem)
    requires FragOk(m, f) && k + |d| <= f.size
    ensures SameShape(m, r)
  {
    m[f.page := Splice(m[f.page], f.off + k, d)]
  }

  predicate SameShape(m: Mem, r: Mem) {
    m.Keys == r.Keys && forall p :: p in m ==> |r[p]| == |m[p]|
  }

  lemma {:induction false} ShapeKeeps(m: Mem, r: Mem, s: Skb)
    requires SameShape(m, r) && Ok(m, s)
    ensures Ok(r, s)
    decreases s, 1
  {
    ShapeKeepsList(m, r, s.list);
  }

  lemma {:induction false} ShapeKeepsList(m: Mem, r: Mem, l: seq<Skb>)
    requires SameShape(m, r) && ListOk(m, l)
    ensures ListOk(r, l)
    decreases l, 0
  {
    if l == [] {
    } else {
      ShapeKeeps(m, r, l[0]);
      ShapeKeepsList(m, r, l[1..]);
    }
  }

  /** Writes the share of `d` that falls in `f`. */
  function PutShare(m: Mem, f: Frag, k: nat, d: seq<byte>): (r: Mem)
    requires FragOk(m, f)
    ensures SameShape(m, r)
  {
    var c := Share(f.size, k, |d|);
    if c > 0 then Put(m, f, k, d[..c]) else m
  }

  /** Writes the share of `d` that falls in the fragments, and hands on what is left of `d`
      with its offset behind them. */
  function StoreFrags(m: Mem, fs: seq<Frag>, k: nat, d: seq<byte>): (r: (Mem, nat, seq<byte>))
    requires FragsOk(m, fs)
    ensures SameShape(m, r.0)
    decreases |fs|
  {
    if fs == [] then (m, k, d)
    else
      StoreFrags(PutShare(m, fs[0], k, d), fs[1..], Beyond(fs[0].size, k), d[Share(fs[0].size, k, |d|)..])
  }

  function Store(m: Mem, s: Skb, k: nat, d: seq<byte>): (r: (Mem, Skb))
    requires Ok(m, s)
    ensures SameShape(m, r.0)
    decreases s, 1
  {
    var a := Share(|s.lin|, k, |d|);
    var lin := if a > 0 then Splice(s.lin, k, d[..a]) else s.lin;
    var (m1, k1, d1) := StoreFrags(m, s.frags, Beyond(|s.lin|, k), d[a..]);
    ShapeKeepsList(m, m1, s.list);
    var (m2, l) := StoreList(m1, s.list, k1, d1);
    (m2, Skb(lin, s.frags, l))
  }

  function StoreList(m: Mem, l: seq<Skb>, k: nat, d: seq<byte>): (r: (Mem, seq<Skb>))
    requires ListOk(m, l)
    ensures SameShape(m, r.0) && |r.1| == |l|
    decreases l, 0
  {
    if l == [] then (m, [])
    else
      var (m1, s) := StoreMember(m, l[0], k, d);
      ShapeKeepsList(m, m1, l[1..]);
      var (m2, t) := StoreList(m1, l[1..], Beyond(Len(l[0]), k), d[Share(Len(l[0]), k, |d|)..]);
      (m2, [s] + t)
  }

  function StoreMember(m: Mem, f: Skb, k: nat, d: seq<byte>): (r: (Mem, Skb))
    requires Ok(m, f)
    ensures SameShape(m, r.0)
    decreases f, 2
  {
    var c := Share(Len(f), k, |d|);
    if c > 0 then Store(m, f, k, d[..c]) else (m, f)
  }

  // ---------------------------------------------------------------------------------------

  lemma {:induction false} StoreFragsNothing(m: Mem, fs: seq<Frag>, k: nat)
    requires FragsOk(m, fs)
    ensures StoreFrags(m, fs, k, []).0 == m && StoreFrags(m, fs, k, []).2 == []
    decreases |fs|
  {
    if fs == [] {
    } else {
      StoreFragsNothing(m, fs[1..], Beyond(fs[0].size, k));
    }
  }

  lemma StoreListUnfold(m: Mem, l: seq<Skb>, k: nat, d: seq<byte>)
    requires ListOk(m, l) && l != []
    ensures Ok(m, l[0]) && ListOk(m, l[1..])
    ensures var (m1, s) := StoreMember(m, l[0], k, d);
      && ListOk(m1, l[1..])
      && var r := StoreList(m1, l[1..], Beyond(Len(l[0]), k), d[Share(Len(l[0]), k, |d|)..]);
      StoreList(m, l, k, d) == (r.0, [s] + r.1)
  {
    ShapeKeepsList(m, StoreMember(m, l[0], k, d).0, l[1..]);
  }

  lemma {:induction false} StoreListNothing(m: Mem, l: seq<Skb>, k: nat)
    requires ListOk(m, l)
    ensures StoreList(m, l, k, []) == (m, l)
    decreases |l|
  {
    if l == [] {
    } else {
      var none: seq<byte> := [];
      assert none[Share(Len(l[0]), k, 0)..] == none;
      hide *;
      StoreListUnfold(m, l, k, none);
      StoreMemberNothing(m, l[0], k);
      StoreListNothing(m, l[1..], Beyond(Len(l[0]), k));
      assert [l[0]] + l[1..] == l;
    }
  }

  lemma StoreMemberNothing(m: Mem, f: Skb, k: nat)
    requires Ok(m, f)
    ensures StoreMember(m, f, k, []) == (m, f)
  {
  }

  lemma StoreFragsStep(m: Mem, fs: seq<Frag>, i: nat, k: nat, d: seq<byte>)
    requires FragsOk(m, fs) && i < |fs|
    ensures StoreFrags(m, fs[i..], k, d)
         == StoreFrags(PutShare(m, fs[i], k, d), fs[i + 1..], Beyond(fs[i].size, k), d[Share(fs[i].size, k, |d|)..])
  {
    assert fs[i..][1..] == fs[i + 1..];
  }

  /** One fragment, which starts at `start`. */
  method StoreInFrag(m: Mem, f: Frag, start: nat, offset: nat, from: seq<byte>)
      returns (m': Mem, o: nat, d: seq<byte>)
    requires FragOk(m, f) && start <= offset && from != []
    ensures m' == PutShare(m, f, offset - start, from) && d == from[Share(f.size, offset - start, |from|)..]
    ensures d != [] ==> start + f.size <= o && o - (start + f.size) == Beyond(f.size, offset - start)
  {
    m', o, d := m, offset, from;
    if start + f.size - o > 0 {
      var copy := Min(start + f.size - o, |d|);
      m' := Put(m', f, o - start, d[..copy]);
      d, o := d[copy..], o + copy;
    }
  }

  /** The fragment loop; it ends early when nothing is left to write. */
  method StoreInFrags(m: Mem, fs: seq<Frag>, start0: nat, offset: nat, from: seq<byte>)
      returns (m': Mem, start: nat, o: nat, d: seq<byte>)
    requires FragsOk(m, fs) && start0 <= offset && from != []
    ensures m' == StoreFrags(m, fs, offset - start0, from).0
    ensures d == StoreFrags(m, fs, offset - start0, from).2
    ensures d != [] ==> start <= o && o - start == StoreFrags(m, fs, offset - start0, from).1
  {
    ghost var r := StoreFrags(m, fs, offset - start0, from);
    m', start, o, d := m, start0, offset, from;
    assert fs[0..] == fs && fs[|fs|..] == [];
    hide StoreFrags, PutShare;
    var i := 0;
    while i < |fs|
      invariant 0 <= i <= |fs| && FragsOk(m', fs) && d != [] && start <= o
      invariant StoreFrags(m', fs[i..], o - start, d) == r
    {
      StoreFragsStep(m', fs, i, o - start, d);
      ghost var k := Beyond(fs[i].size, o - start);
      m', o, d := StoreInFrag(m', fs[i], start, o, d);
      if d == [] {
        StoreFragsNothing(m', fs[i + 1..], k);
        return;
      }
      start := start + fs[i].size;
      i := i + 1;
    }
    StoreFragsEnd(m', o - start, d);
  }

  lemma StoreFragsEnd(m: Mem, k: nat, d: seq<byte>)
    ensures StoreFrags(m, [], k, d) == (m, k, d)
  {
  }

  lemma SuffixOk(m: Mem, l: seq<Skb>, i: nat)
    requires i < |l| && ListOk(m, l[i..])
    ensures Ok(m, l[i]) && ListOk(m, l[i + 1..])
  {
    assert l[i..][1..] == l[i + 1..];
  }

  lemma StoreListStep(m: Mem, l: seq<Skb>, i: nat, k: nat, d: seq<byte>)
    requires i < |l| && ListOk(m, l[i..]) && Ok(m, l[i]) && ListOk(m, l[i + 1..])
    ensures var (m1, s) := StoreMember(m, l[i], k, d);
      && ListOk(m1, l[i + 1..])
      && var r := StoreList(m1, l[i + 1..], Beyond(Len(l[i]), k), d[Share(Len(l[i]), k, |d|)..]);
      StoreList(m, l[i..], k, d) == (r.0, [s] + r.1)
  {
    assert l[i..][1..] == l[i + 1..];
    StoreListUnfold(m, l[i..], k, d);
  }

  /** One member of the frag_list, which starts at `start`. */
  method StoreInMember(m: Mem, f: Skb, start: nat, offset: nat, from: seq<byte>)
      returns (m': Mem, f': Skb, o: nat, d: seq<byte>)
    requires Ok(m, f) && start <= offset && from != []
    ensures (m', f') == StoreMember(m, f, offset - start, from)
    ensures d == from[Share(Len(f), offset - start, |from|)..]
    ensures d != [] ==> start + Len(f) <= o && o - (start + Len(f)) == Beyond(Len(f), offset - start)
    decreases f, 4
  {
    m', f', o, d := m, f, offset, from;
    if start + Len(f) - o > 0 {
      var copy := Min(start + Len(f) - o, |d|);
      var stored;
      var none;
      stored, none, m', f' := StoreBits(m, [], f, o - start, d[..copy]);
      d, o := d[copy..], o + copy;
    }
  }

  /** `r` is the result when `done` has been stored and `x` comes out of the rest. */
  ghost predicate Joins(r: (Mem, seq<Skb>), done: seq<Skb>, x: (Mem, seq<Skb>)) {
    r == (x.0, done + x.1)
  }

  lemma JoinsNext(r: (Mem, seq<Skb>), done: seq<Skb>, f: Skb, x: (Mem, seq<Skb>))
    requires Joins(r, done, (x.0, [f] + x.1))
    ensures Joins(r, done + [f], x)
  {
    assert done + [f] + x.1 == done + ([f] + x.1);
  }

  lemma JoinsEnd(r: (Mem, seq<Skb>), done: seq<Skb>, m: Mem, l: seq<Skb>)
    requires Joins(r, done, (m, l))
    ensures r == (m, done + l)
  {
  }

  /** The frag_list loop. */
  method StoreInList(m: Mem, l: seq<Skb>, start0: nat, offset: nat, from: seq<byte>)
      returns (m': Mem, l': seq<Skb>)
    requires ListOk(m, l) && start0 <= offset && from != []
    ensures (m', l') == StoreList(m, l, offset - start0, from)
    decreases l, 0
  {
    hide *;
    ghost var r := StoreList(m, l, offset - start0, from);
    m', l' := m, [];
    var start, o, d := start0, offset, from;
    StoreListBegins(m, l, r);
    var i := 0;
    while i < |l| && d != []
      invariant 0 <= i <= |l| && ListOk(m', l[i..]) && (d != [] ==> 0 <= start <= o)
      invariant Joins(r, l', StoreList(m', l[i..], if d == [] then 0 else o - start, d))
    {
      SuffixOk(m', l, i);
      StoreListJoins(r, l', m', l, i, o - start, d);
      var f1;
      m', f1, o, d := StoreInMember(m', l[i], start, o, d);
      l' := l' + [f1];
      start := start + Len(l[i]);
      i := i + 1;
    }
    StoreListEnd(m', l[i..], if d == [] then 0 else o - start, d);
    JoinsEnd(r, l', m', l[i..]);
    l' := l' + l[i..];
  }

  lemma StoreListBegins(m: Mem, l: seq<Skb>, r: (Mem, seq<Skb>))
    ensures l[0..] == l && l[|l|..] == [] && Joins(r, [], r)
  {
    assert [] + r.1 == r.1;
  }

  lemma StoreListJoins(r: (Mem, seq<Skb>), done: seq<Skb>, m: Mem, l: seq<Skb>, i: nat, k: nat, d: seq<byte>)
    requires i < |l| && ListOk(m, l[i..]) && Ok(m, l[i])
    requires Joins(r, done, StoreList(m, l[i..], k, d))
    ensures var (m1, s), d1 := StoreMember(m, l[i], k, d), d[Share(Len(l[i]), k, |d|)..];
      && ListOk(m1, l[i + 1..])
      && Joins(r, done + [s], StoreList(m1, l[i + 1..], if d1 == [] then 0 else Beyond(Len(l[i]), k), d1))
  {
    SuffixOk(m, l, i);
    StoreListStep(m, l, i, k, d);
    hide StoreList, StoreMember, Len, Joins;
    var (m1, s) := StoreMember(m, l[i], k, d);
    var d1 := d[Share(Len(l[i]), k, |d|)..];
    JoinsNext(r, done, s, StoreList(m1, l[i + 1..], Beyond(Len(l[i]), k), d1));
    StoreListNowhere(m1, l[i + 1..], Beyond(Len(l[i]), k), d1);
  }

  lemma StoreListNowhere(m: Mem, l: seq<Skb>, k: nat, d: seq<byte>)
    requires ListOk(m, l)
    ensures d == [] ==> StoreList(m, l, k, d) == StoreList(m, l, 0, d)
  {
    StoreListNothing(m, l, k);
    StoreListNothing(m, l, 0);
  }

  lemma StoreListEnd(m: Mem, l: seq<Skb>, k: nat, d: seq<byte>)
    requires ListOk(m, l) && (l == [] || d == [])
    ensures StoreList(m, l, k, d) == (m, l)
  {
    StoreListNothing(m, l, k);
  }

  lemma StoreParts(m: Mem, s: Skb, k: nat, d: seq<byte>)
    requires Ok(m, s)
    ensures var a := Share(|s.lin|, k, |d|);
      var (m1, k1, d1) := StoreFrags(m, s.frags, Beyond(|s.lin|, k), d[a..]);
      && SameShape(m, m1) && ListOk(m1, s.list)
      && Store(m, s, k, d).0 == StoreList(m1, s.list, k1, d1).0
      && Store(m, s, k, d).1 == Skb(if a > 0 then Splice(s.lin, k, d[..a]) else s.lin, s.frags, StoreList(m1, s.list, k1, d1).1)
  {
    ShapeKeepsList(m, StoreFrags(m, s.frags, Beyond(|s.lin|, k), d[Share(|s.lin|, k, |d|)..]).0, s.list);
  }

  /** How many of `n` bytes stored at `offset` fall in front of the data. */
  function InFront(offset: int, n: nat): nat {
    if offset >= 0 then 0 else Min(-offset, n)
  }

  /** skb_store_bits, all or nothing: a range that does not end in the buffer leaves everything as
      it was.  A negative offset reaches into `head`, the bytes in front of the data. */
  method StoreBits(m: Mem, head: seq<byte>, s: Skb, offset: int, from: seq<byte>)
      returns (ok: bool, head': seq<byte>, m': Mem, s': Skb)
    requires Ok(m, s) && -|head| <= offset
    ensures ok <==> offset + |from| <= Len(s)
    ensures !ok ==> head' == head && m' == m && s' == s
    ensures ok ==> var c := InFront(offset, |from|);
      && head' == (if c > 0 then Splice(head, |head| + offset, from[..c]) else head)
      && (m', s') == Store(m, s, if offset < 0 then 0 else offset, from[c..])
    decreases s, 3
  {
    if offset > Len(s) - |from| {
      return false, head, m, s;
    }
    ghost var c := InFront(offset, |from|);
    ghost var k: nat := if offset < 0 then 0 else offset;
    StoreParts(m, s, k, from[c..]);
    hide Store, StoreList, StoreFrags, Splice, Len, ListOk;
    var lin, o, d;
    head', lin, o, d := StoreInLinear(head, s.lin, offset, from);
    var l;
    m', l := StoreInPages(m, s, o, d, Beyond(|s.lin|, k));
    return true, head', m', Skb(lin, s.frags, l);
  }

  method StoreInLinear(head: seq<byte>, lin: seq<byte>, offset: int, from: seq<byte>)
      returns (head': seq<byte>, lin': seq<byte>, o: int, d: seq<byte>)
    requires -|head| <= offset
    ensures var c := InFront(offset, |from|);
      var k: nat := if offset < 0 then 0 else offset;
      var a := Share(|lin|, k, |from| - c);
      && head' == (if c > 0 then Splice(head, |head| + offset, from[..c]) else head)
      && lin' == (if a > 0 then Splice(lin, k, from[c..][..a]) else lin) && d == from[c..][a..]
      && (d != [] ==> |lin| <= o && o - |lin| == Beyond(|lin|, k))
  {
    hide Splice, Share, Beyond, InFront;
    LinearShare(|lin|, offset, |from|);
    o, d, head', lin' := offset, from, head, lin;
    if |lin| - o > 0 {
      var copy := Min(|lin| - o, |d|);
      SliceParts(from, InFront(offset, |from|), copy);
      if copy > 0 {
        SplitSplice(head, lin, offset, d[..copy]);
        var x := Splice(head + lin, |head| + o, d[..copy]);
        head', lin' := x[..|head|], x[|head|..];
      }
      o, d := o + copy, d[copy..];
    }
  }

  lemma LinearShare(size: nat, offset: int, n: nat)
    ensures InFront(offset, n) <= n
    ensures var c, k: nat := InFront(offset, n), if offset < 0 then 0 else offset;
      var a := Share(size, k, n - c);
      && a <= n - c
      && (if size - offset > 0 then
            Min(size - offset, n) == c + a && InFront(offset, c + a) == c && (c + a < n ==> offset + (c + a) - size == Beyond(size, k))
          else c == 0 && a == 0 && offset - size == Beyond(size, k))
  {
  }

  lemma SliceParts<T>(s: seq<T>, c: nat, n: nat)
    requires c <= n <= |s|
    ensures s[..n][..c] == s[..c] && s[..n][c..] == s[c..][..n - c] && s[c..][n - c..] == s[n..]
  {
  }

  /** Writing over the boundary between the bytes in front of the data and the data. */
  lemma SplitSplice(head: seq<byte>, lin: seq<byte>, offset: int, d: seq<byte>)
    requires -|head| <= offset && offset + |d| <= |lin| && d != []
    ensures var x, c := Splice(head + lin, |head| + offset, d), InFront(offset, |d|);
      && x[..|head|] == (if c > 0 then Splice(head, |head| + offset, d[..c]) else head)
      && x[|head|..] == (if c < |d| then Splice(lin, if offset < 0 then 0 else offset, d[c..]) else lin)
  {
  }

  method StoreInPages(m: Mem, s: Skb, o0: int, d0: seq<byte>, ghost k: nat) returns (m': Mem, l: seq<Skb>)
    requires Ok(m, s) && (d0 != [] ==> |s.lin| <= o0 && o0 - |s.lin| == k)
    requires SameShape(m, StoreFrags(m, s.frags, k, d0).0) && ListOk(StoreFrags(m, s.frags, k, d0).0, s.list)
    ensures var (m1, k1, d1) := StoreFrags(m, s.frags, k, d0);
      (m', l) == StoreList(m1, s.list, k1, d1)
    decreases s, 0
  {
    hide StoreList, StoreFrags, ListOk;
    if d0 == [] {
      StoreFragsNothing(m, s.frags, k);
      StoreListNothing(m, s.list, StoreFrags(m, s.frags, k, []).1);
      return m, s.list;
    }
    var start, o, d;
    m', start, o, d := StoreInFrags(m, s.frags, |s.lin|, o0, d0);
    if d == [] {
      StoreListNothing(m', s.list, StoreFrags(m, s.frags, k, d0).1);
      return m', s.list;
    }
    m', l := StoreInList(m', s.list, start, o, d);
  }
}
