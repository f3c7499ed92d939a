/**
  __skb_checksum: the checksum of a range of a buffer, computed chunk by chunk over its layout.
 */
module SkbChecksum {
  import opened Serial
  import opened SkbData
  import opened SkbCopy

  /** The two operations a caller supplies: `update` continues a checksum over more bytes,
      `combine` adds the checksum of a chunk that starts `pos` bytes into the range. */
  datatype Ops<!W> = Ops(zero: W, update: (seq<byte>, W) -> W, combine: (W, W, nat, nat) -> W)

  /** Sums that differ may stand for the same checksum: `same` is an equivalence that both
      operations respect. */
  ghost predicate Congruence<W(!new)>(ops: Ops<W>, same: (W, W) -> bool) {
    && (forall c :: same(c, c))
    && (forall c, d :: same(c, d) ==> same(d, c))
    && (forall c, d, e :: same(c, d) && same(d, e) ==> same(c, e))
    && (forall x, c, d :: same(c, d) ==> same(ops.update(x, c), ops.update(x, d)))
    && (forall c, d, c', d', pos, len :: same(c, c') && same(d, d') ==> same(ops.combine(c, d, pos, len), ops.combine(c', d', pos, len)))
  }

  /** What makes the result independent of where a range is cut. */
  ghost predicate SplitLaw<W(!new)>(ops: Ops<W>, same: (W, W) -> bool) {
    && Congruence(ops, same)
    && (forall c :: same(ops.update([], c), c))
    && (forall a, b, c :: same(ops.combine(ops.update(a, c), ops.update(b, ops.zero), |a|, |b|), ops.update(a + b, c)))
  }

  /** `r` is a sum of `d` after `csum`. */
  ghost predicate Sums<W(!new)>(ops: Ops<W>, same: (W, W) -> bool, r: W, d: seq<byte>, csum: W) {
    same(r, ops.update(d, csum))
  }

  lemma SumSelf<W(!new)>(ops: Ops<W>, same: (W, W) -> bool, d: seq<byte>, csum: W)
    requires SplitLaw(ops, same)
    ensures Sums(ops, same, ops.update(d, csum), d, csum) && Sums(ops, same, csum, [], csum)
  {
  }

  /** A sum of `a`, and one of the chunk `b` behind it. */
  lemma SumStep<W(!new)>(ops: Ops<W>, same: (W, W) -> bool, csum: W, a: seq<byte>, b: seq<byte>, r: W, r2: W)
    requires SplitLaw(ops, same) && Sums(ops, same, r, a, csum) && Sums(ops, same, r2, b, ops.zero)
    ensures Sums(ops, same, ops.combine(r, r2, |a|, |b|), a + b, csum)
  {
    var x, y := ops.update(a, csum), ops.update(b, ops.zero);
    assert same(ops.combine(r, r2, |a|, |b|), ops.combine(x, y, |a|, |b|));
    assert same(ops.combine(x, y, |a|, |b|), ops.update(a + b, csum));
  }

  // ---------------------------------------------------------------------------------------
  // What __skb_checksum computes.

  /** Where a sum has come to: offset in what follows, bytes to go, bytes done, and the sum. */
  datatype Sum<W> = Sum(k: nat, n: nat, pos: nat, r: W)

  function SumFragsOf<W>(ops: Ops<W>, m: Mem, fs: seq<Frag>, t: Sum<W>): Sum<W>
    requires FragsOk(m, fs)
  {
    if fs == [] || t.n == 0 then t else SumFragsOf(ops, m, fs[1..], SumFragOf(ops, m, fs[0], t))
  }

  function SumFragOf<W>(ops: Ops<W>, m: Mem, f: Frag, t: Sum<W>): Sum<W>
    requires FragOk(m, f)
  {
    var c := Share(f.size, t.k, t.n);
    Sum(Beyond(f.size, t.k), t.n - c, t.pos + c,
        if c > 0 then ops.combine(t.r, ops.update(Bytes(m, f)[t.k..t.k + c], ops.zero), t.pos, c) else t.r)
  }

  function Summed<W>(ops: Ops<W>, m: Mem, s: Skb, offset: nat, len: nat, csum: W): W
    requires Ok(m, s)
    decreases s, 1
  {
    SumListOf(ops, m, s.list, SumFragsOf(ops, m, s.frags, SumLinearOf(ops, s.lin, offset, len, csum)))
  }

  function SumLinearOf<W>(ops: Ops<W>, lin: seq<byte>, offset: nat, len: nat, csum: W): Sum<W> {
    var c := Share(|lin|, offset, len);
    Sum(Beyond(|lin|, offset), len - c, c, if c > 0 then ops.update(lin[offset..offset + c], csum) else csum)
  }

  function SumListOf<W>(ops: Ops<W>, m: Mem, l: seq<Skb>, t: Sum<W>): W
    requires ListOk(m, l)
    decreases l, 0
  {
    if l == [] || t.n == 0 then t.r else SumListOf(ops, m, l[1..], SumMemberOf(ops, m, l[0], t))
  }

  function SumMemberOf<W>(ops: Ops<W>, m: Mem, f: Skb, t: Sum<W>): Sum<W>
    requires Ok(m, f)
    decreases f, 2
  {
    var c := Share(Len(f), t.k, t.n);
    Sum(Beyond(Len(f), t.k), t.n - c, t.pos + c,
        if c > 0 then ops.combine(t.r, Summed(ops, m, f, t.k, c, ops.zero), t.pos, c) else t.r)
  }

  /** `t.r` is a sum of the bytes `d` done so far. */
  ghost predicate SumsTo<W(!new)>(ops: Ops<W>, same: (W, W) -> bool, t: Sum<W>, d: seq<byte>, csum: W) {
    t.pos == |d| && Sums(ops, same, t.r, d, csum)
  }

  lemma SumFragMeaning<W(!new)>(ops: Ops<W>, same: (W, W) -> bool, m: Mem, f: Frag, t: Sum<W>, d: seq<byte>, csum: W)
    requires SplitLaw(ops, same) && FragOk(m, f) && SumsTo(ops, same, t, d, csum)
    ensures var u := SumFragOf(ops, m, f, t);
      && SumsTo(ops, same, u, d + Hit(Bytes(m, f), t.k, t.n), csum)
      && u.k == Beyond(f.size, t.k) && u.n == t.n - Share(f.size, t.k, t.n)
  {
    hide SplitLaw, Sums, Bytes;
    var c := Share(f.size, t.k, t.n);
    if c > 0 {
      var b := Bytes(m, f)[t.k..t.k + c];
      SumSelf(ops, same, b, ops.zero);
      SumStep(ops, same, csum, d, b, t.r, ops.update(b, ops.zero));
    } else {
      assert d + [] == d;
    }
  }

  lemma {:induction false} SumFragsMeaning<W(!new)>(ops: Ops<W>, same: (W, W) -> bool, m: Mem, fs: seq<Frag>, t: Sum<W>, d: seq<byte>, csum: W)
    requires SplitLaw(ops, same) && FragsOk(m, fs) && SumsTo(ops, same, t, d, csum)
    ensures var u := SumFragsOf(ops, m, fs, t);
      && SumsTo(ops, same, u, d + Hit(FragsFlat(m, fs), t.k, t.n), csum)
      && u.n == t.n - Share(Sizes(fs), t.k, t.n) && (u.n > 0 ==> u.k == Beyond(Sizes(fs), t.k))
    decreases |fs|
  {
    hide SplitLaw, SumsTo, SumFragOf, Bytes;
    if fs == [] || t.n == 0 {
      assert Hit(FragsFlat(m, fs), t.k, t.n) == [];
      assert d + [] == d;
    } else {
      SumFragMeaning(ops, same, m, fs[0], t, d, csum);
      var u, h := SumFragOf(ops, m, fs[0], t), Hit(Bytes(m, fs[0]), t.k, t.n);
      SumFragsMeaning(ops, same, m, fs[1..], u, d + h, csum);
      HitConcat(Bytes(m, fs[0]), FragsFlat(m, fs[1..]), t.k, t.n);
      assert d + h + Hit(FragsFlat(m, fs[1..]), u.k, u.n) == d + (h + Hit(FragsFlat(m, fs[1..]), u.k, u.n));
    }
  }

  lemma SumLinearMeaning<W(!new)>(ops: Ops<W>, same: (W, W) -> bool, lin: seq<byte>, offset: nat, len: nat, csum: W)
    requires SplitLaw(ops, same)
    ensures var t := SumLinearOf(ops, lin, offset, len, csum);
      && SumsTo(ops, same, t, Hit(lin, offset, len), csum)
      && t.k == Beyond(|lin|, offset) && t.n == len - Share(|lin|, offset, len)
  {
    hide SplitLaw, Sums;
    SumSelf(ops, same, Hit(lin, offset, len), csum);
    SumSelf(ops, same, [], csum);
  }

  lemma HitThree<T>(a: seq<T>, b: seq<T>, c: seq<T>, k: nat, n: nat)
    ensures Share(|a|, k, n) <= n
    ensures var k1, n1 := Beyond(|a|, k), n - Share(|a|, k, n);
      && Share(|b|, k1, n1) <= n1
      && Hit(a + (b + c), k, n) == Hit(a, k, n) + Hit(b, k1, n1) + Hit(c, Beyond(|b|, k1), n1 - Share(|b|, k1, n1))
  {
    hide Hit, Share, Beyond;
    HitConcat(a, b + c, k, n);
    HitConcat(b, c, Beyond(|a|, k), n - Share(|a|, k, n));
  }

  /** The definitions, for use where they are hidden. */
  lemma SummedUnfold<W>(ops: Ops<W>, m: Mem, s: Skb, offset: nat, len: nat, csum: W)
    requires Ok(m, s)
    ensures FragsOk(m, s.frags) && ListOk(m, s.list) && Flat(m, s) == s.lin + (FragsFlat(m, s.frags) + ListFlat(m, s.list))
    ensures Summed(ops, m, s, offset, len, csum)
         == SumListOf(ops, m, s.list, SumFragsOf(ops, m, s.frags, SumLinearOf(ops, s.lin, offset, len, csum)))
  {
  }

  /** For operations that obey the split law the layout does not matter: the result is a sum of
      the flat bytes in the range. */
  lemma {:induction false} SummedMeaning<W(!new)>(ops: Ops<W>, same: (W, W) -> bool, m: Mem, s: Skb, offset: nat, len: nat, csum: W)
    requires SplitLaw(ops, same) && Ok(m, s)
    ensures Sums(ops, same, Summed(ops, m, s, offset, len, csum), Hit(Flat(m, s), offset, len), csum)
    decreases s, 1
  {
    hide *;
    SummedUnfold(ops, m, s, offset, len, csum);
    SumLinearMeaning(ops, same, s.lin, offset, len, csum);
    var t := SumLinearOf(ops, s.lin, offset, len, csum);
    SumFragsMeaning(ops, same, m, s.frags, t, Hit(s.lin, offset, len), csum);
    var u := SumFragsOf(ops, m, s.frags, t);
    SumListMeaning(ops, same, m, s.list, u, Hit(s.lin, offset, len) + Hit(FragsFlat(m, s.frags), t.k, t.n), csum);
    HitThree(s.lin, FragsFlat(m, s.frags), ListFlat(m, s.list), offset, len);
    NoneLeftToHit(ListFlat(m, s.list), u.k, u.n, Beyond(Sizes(s.frags), t.k));
  }

  lemma NoneLeftToHit<T>(s: seq<T>, k: nat, n: nat, k': nat)
    requires n > 0 ==> k == k'
    ensures Hit(s, k, n) == Hit(s, k', n)
  {
  }

  lemma SumMemberMeaning<W(!new)>(ops: Ops<W>, same: (W, W) -> bool, m: Mem, f: Skb, t: Sum<W>, d: seq<byte>, csum: W)
    requires SplitLaw(ops, same) && Ok(m, f) && SumsTo(ops, same, t, d, csum)
    ensures var u := SumMemberOf(ops, m, f, t);
      && SumsTo(ops, same, u, d + Hit(Flat(m, f), t.k, t.n), csum)
      && u.k == Beyond(Len(f), t.k) && u.n == t.n - Share(Len(f), t.k, t.n)
    decreases f, 2
  {
    hide SplitLaw, Sums, Summed, Flat, Len, Ok;
    var c := Share(Len(f), t.k, t.n);
    if c > 0 {
      SummedMeaning(ops, same, m, f, t.k, c, ops.zero);
      assert Hit(Flat(m, f), t.k, c) == Hit(Flat(m, f), t.k, t.n);
      SumStep(ops, same, csum, d, Hit(Flat(m, f), t.k, t.n), t.r, Summed(ops, m, f, t.k, c, ops.zero));
    } else {
      assert d + [] == d;
    }
  }

  lemma {:induction false} SumListMeaning<W(!new)>(ops: Ops<W>, same: (W, W) -> bool, m: Mem, l: seq<Skb>, t: Sum<W>, d: seq<byte>, csum: W)
    requires SplitLaw(ops, same) && ListOk(m, l) && SumsTo(ops, same, t, d, csum)
    ensures Sums(ops, same, SumListOf(ops, m, l, t), d + Hit(ListFlat(m, l), t.k, t.n), csum)
    decreases l, 0
  {
    hide *;
    if l == [] || t.n == 0 {
      SumListEnd(ops, same, m, l, t, d, csum);
    } else {
      SumListUnfold(ops, m, l, t);
      SumMemberMeaning(ops, same, m, l[0], t, d, csum);
      var u, h := SumMemberOf(ops, m, l[0], t), Hit(Flat(m, l[0]), t.k, t.n);
      SumListMeaning(ops, same, m, l[1..], u, d + h, csum);
      HitConcat(Flat(m, l[0]), ListFlat(m, l[1..]), t.k, t.n);
      assert d + h + Hit(ListFlat(m, l[1..]), u.k, u.n) == d + (h + Hit(ListFlat(m, l[1..]), u.k, u.n));
    }
  }

  lemma SumListEnd<W(!new)>(ops: Ops<W>, same: (W, W) -> bool, m: Mem, l: seq<Skb>, t: Sum<W>, d: seq<byte>, csum: W)
    requires ListOk(m, l) && SumsTo(ops, same, t, d, csum) && (l == [] || t.n == 0)
    ensures Sums(ops, same, SumListOf(ops, m, l, t), d + Hit(ListFlat(m, l), t.k, t.n), csum)
  {
    assert Hit(ListFlat(m, l), t.k, t.n) == [];
    assert d + [] == d;
  }

  lemma SumListUnfold<W>(ops: Ops<W>, m: Mem, l: seq<Skb>, t: Sum<W>)
    requires ListOk(m, l) && l != [] && t.n > 0
    ensures Ok(m, l[0]) && ListOk(m, l[1..]) && ListFlat(m, l) == Flat(m, l[0]) + ListFlat(m, l[1..])
    ensures SumListOf(ops, m, l, t) == SumListOf(ops, m, l[1..], SumMemberOf(ops, m, l[0], t))
  {
  }

  // ---------------------------------------------------------------------------------------
  // The code.

  /** __skb_checksum.  A negative offset reaches into `head`, the bytes in front of the data. */
  method Checksum<W(!new)>(ops: Ops<W>, m: Mem, head: seq<byte>, s: Skb, offset: int, len: nat, csum: W) returns (r: W)
    requires Ok(m, s) && -|head| <= offset && offset + len <= Len(s)
    ensures r == Summed(ops, m, s.(lin := head + s.lin), |head| + offset, len, csum)
    decreases s, 2
  {
    var o, n, pos := offset, len, 0;
    r := csum;
    hide SumFragsOf, SumListOf;
    ghost var t := SumLinearOf(ops, head + s.lin, |head| + offset, len, csum);
    if |s.lin| - o > 0 {
      var copy := Min(|s.lin| - o, n);
      if copy > 0 {
        r := ops.update((head + s.lin)[|head| + o..|head| + o + copy], r);
      }
      n := n - copy;
      if n == 0 {
        SumDone(ops, m, s.frags, s.list, t);
        return;
      }
      o, pos := o + copy, copy;
    }
    if n == 0 {
      SumDone(ops, m, s.frags, s.list, t);
      return;
    }
    r := SumPaged(ops, m, s, o, n, pos, r);
  }

  lemma SumDone<W>(ops: Ops<W>, m: Mem, fs: seq<Frag>, l: seq<Skb>, t: Sum<W>)
    requires FragsOk(m, fs) && ListOk(m, l) && t.n == 0
    ensures SumListOf(ops, m, l, SumFragsOf(ops, m, fs, t)) == t.r
  {
  }

  method SumPaged<W(!new)>(ops: Ops<W>, m: Mem, s: Skb, o0: nat, n0: nat, pos0: nat, r0: W) returns (r: W)
    requires Ok(m, s) && |s.lin| <= o0 && 0 < n0
    ensures r == SumListOf(ops, m, s.list, SumFragsOf(ops, m, s.frags, Sum(o0 - |s.lin|, n0, pos0, r0)))
    decreases s, 1
  {
    hide SumFragsOf, SumListOf;
    var start, o, n, pos;
    start, o, n, pos, r := SumFrags(ops, m, s, o0, n0, pos0, r0);
    if n > 0 {
      r := SumList(ops, m, s.list, start, o, n, pos, r);
    } else {
      SumDone(ops, m, [], s.list, SumFragsOf(ops, m, s.frags, Sum(o0 - |s.lin|, n0, pos0, r0)));
      SumNoFrags(ops, m, SumFragsOf(ops, m, s.frags, Sum(o0 - |s.lin|, n0, pos0, r0)));
    }
  }

  lemma SumNoFrags<W>(ops: Ops<W>, m: Mem, t: Sum<W>)
    ensures SumFragsOf(ops, m, [], t) == t && SumListOf(ops, m, [], t) == t.r
  {
  }

  lemma SumFragsStep<W>(ops: Ops<W>, m: Mem, fs: seq<Frag>, i: nat, t: Sum<W>)
    requires FragsOk(m, fs) && i < |fs|
    ensures t.n > 0 ==> SumFragsOf(ops, m, fs[i..], t) == SumFragsOf(ops, m, fs[i + 1..], SumFragOf(ops, m, fs[i], t))
    ensures t.n == 0 ==> SumFragsOf(ops, m, fs[i..], t) == t
    ensures t.n == 0 ==> SumFragsOf(ops, m, fs[i + 1..], t) == t
  {
    assert fs[i..][1..] == fs[i + 1..];
  }

  method SumFrags<W(!new)>(ops: Ops<W>, m: Mem, s: Skb, o0: nat, n0: nat, pos0: nat, r0: W)
      returns (start: nat, o: nat, n: nat, pos: nat, r: W)
    requires Ok(m, s) && |s.lin| <= o0 && 0 < n0
    ensures var t := SumFragsOf(ops, m, s.frags, Sum(o0 - |s.lin|, n0, pos0, r0));
      && n == t.n && r == t.r && (n > 0 ==> start <= o && o - start == t.k && pos == t.pos)
  {
    hide SumFragsOf, SumFragOf;
    ghost var t := SumFragsOf(ops, m, s.frags, Sum(o0 - |s.lin|, n0, pos0, r0));
    start, o, n, pos, r := |s.lin|, o0, n0, pos0, r0;
    assert s.frags[0..] == s.frags && s.frags[|s.frags|..] == [];
    var i := 0;
    while i < |s.frags|
      invariant 0 <= i <= |s.frags| && 0 < n && start <= o
      invariant SumFragsOf(ops, m, s.frags[i..], Sum(o - start, n, pos, r)) == t
    {
      SumFragsStep(ops, m, s.frags, i, Sum(o - start, n, pos, r));
      ghost var u := SumFragOf(ops, m, s.frags[i], Sum(o - start, n, pos, r));
      o, n, pos, r := SumFrag(ops, m, s.frags[i], start, o, n, pos, r);
      if n == 0 {
        SumFragsStep(ops, m, s.frags, i, u);
        return;
      }
      start := start + s.frags[i].size;
      i := i + 1;
    }
    SumNoFrags(ops, m, Sum(o - start, n, pos, r));
  }

  /** One fragment, which starts at `start`. */
  method SumFrag<W>(ops: Ops<W>, m: Mem, f: Frag, start: nat, o0: nat, n0: nat, pos0: nat, r0: W)
      returns (o: nat, n: nat, pos: nat, r: W)
    requires FragOk(m, f) && start <= o0 && 0 < n0
    ensures var t := SumFragOf(ops, m, f, Sum(o0 - start, n0, pos0, r0));
      n == t.n && r == t.r && (n > 0 ==> start + f.size <= o && t == Sum(o - (start + f.size), n, pos, r))
  {
    o, n, pos, r := o0, n0, pos0, r0;
    if start + f.size - o > 0 {
      var copy := Min(start + f.size - o, n);
      BytesSlice(m, f, o - start, copy);
      var csum2 := ops.update(m[f.page][f.off + (o - start)..f.off + (o - start) + copy], ops.zero);
      r := ops.combine(r, csum2, pos, copy);
      n := n - copy;
      o, pos := o + copy, pos + copy;
    }
  }

  lemma SumListStep<W>(ops: Ops<W>, m: Mem, l: seq<Skb>, i: nat, t: Sum<W>)
    requires i < |l| && ListOk(m, l[i..]) && t.n > 0
    ensures Ok(m, l[i]) && ListOk(m, l[i + 1..])
    ensures SumListOf(ops, m, l[i..], t) == SumListOf(ops, m, l[i + 1..], SumMemberOf(ops, m, l[i], t))
  {
    assert l[i..][1..] == l[i + 1..];
  }

  method SumList<W(!new)>(ops: Ops<W>, m: Mem, l: seq<Skb>, start0: nat, o0: nat, n0: nat, pos0: nat, r0: W) returns (r: W)
    requires ListOk(m, l) && start0 <= o0 && 0 < n0
    ensures r == SumListOf(ops, m, l, Sum(o0 - start0, n0, pos0, r0))
    decreases l, 0
  {
    hide SumListOf, SumMemberOf, Len, ListOk;
    var start: nat, o: nat, n: nat, pos := start0, o0, n0, pos0;
    r := r0;
    assert l[0..] == l && l[|l|..] == [];
    var i := 0;
    while i < |l|
      invariant 0 <= i <= |l| && 0 < n && start <= o && ListOk(m, l[i..])
      invariant SumListOf(ops, m, l[i..], Sum(o - start, n, pos, r)) == SumListOf(ops, m, l, Sum(o0 - start0, n0, pos0, r0))
    {
      SumListStep(ops, m, l, i, Sum(o - start, n, pos, r));
      ghost var u := SumMemberOf(ops, m, l[i], Sum(o - start, n, pos, r));
      o, n, pos, r := SumMember(ops, m, l[i], start, o, n, pos, r);
      if n == 0 {
        SumNothingLeft(ops, m, l[i + 1..], u);
        return;
      }
      start := start + Len(l[i]);
      i := i + 1;
    }
    SumNoFrags(ops, m, Sum(o - start, n, pos, r));
  }

  /** One member of the frag_list, which starts at `start`. */
  method SumMember<W(!new)>(ops: Ops<W>, m: Mem, f: Skb, start: nat, o0: nat, n0: nat, pos0: nat, r0: W)
      returns (o: nat, n: nat, pos: nat, r: W)
    requires Ok(m, f) && start <= o0 && 0 < n0
    ensures var t := SumMemberOf(ops, m, f, Sum(o0 - start, n0, pos0, r0));
      n == t.n && r == t.r && (n > 0 ==> start + Len(f) <= o && t == Sum(o - (start + Len(f)), n, pos, r))
    decreases f, 3
  {
    hide Len, Ok, Summed;
    o, n, pos, r := o0, n0, pos0, r0;
    if start + Len(f) - o > 0 {
      var copy := Min(start + Len(f) - o, n);
      NoHeadSkb(f);
      var csum2 := Checksum(ops, m, [], f, o - start, copy, ops.zero);
      r := ops.combine(r, csum2, pos, copy);
      n := n - copy;
      o, pos := o + copy, pos + copy;
    }
  }

  lemma SumNothingLeft<W>(ops: Ops<W>, m: Mem, l: seq<Skb>, t: Sum<W>)
    requires ListOk(m, l) && t.n == 0
    ensures SumListOf(ops, m, l, t) == t.r
  {
  }

  lemma NoHeadSkb(s: Skb)
    ensures s.(lin := [] + s.lin) == s
  {
    assert [] + s.lin == s.lin;
  }

  // ---------------------------------------------------------------------------------------
  // The 32-bit sums of skb_checksum (section 2 of RFC 1071).

  /** Sum of the 16-bit words, `low` when the first byte is the low half of its word. */
  function Words(d: seq<byte>, low: bool): nat {
    if d == [] then 0
    else (if low then d[0] else 256 * d[0]) + Words(d[1..], !low)
  }

  /** Numbers that fold to the same 16-bit sum: 0 and 65535 are told apart. */
  predicate Alike(x: nat, y: nat) {
    x % 65535 == y % 65535 && (x == 0 <==> y == 0)
  }

  /** csum_add: 32-bit addition with end-around carry. */
  function CsumAdd(a: u32, b: u32): u32 {
    var r := (a + b) % 0x1_0000_0000;
    if r < b then r + 1 else r
  }

  /** Both 16-bit halves with their bytes exchanged. */
  function Swap(s: u32): u32 {
    65536 * SwapHalf(s / 65536) + SwapHalf(s % 65536)
  }

  function SwapHalf(h: int): (r: int)
    requires 0 <= h < 65536
    ensures 0 <= r < 65536 && 256 * h == r + 65535 * (h / 256) && (r == 0 <==> h == 0)
  {
    h % 256 * 256 + h / 256
  }

  /** csum_block_add: a chunk at an odd position has its bytes in exchanged halves. */
  function CsumBlockAdd(c: u32, c2: u32, pos: nat, len: nat): u32 {
    CsumAdd(c, if pos % 2 == 1 then Swap(c2) else c2)
  }

  /** csum_fold, without the final complement. */
  function Fold(s: u32): (r: nat) {
    var t := s % 65536 + s / 65536;
    t % 65536 + t / 65536
  }

  /** Folding sees nothing but what `Alike` compares. */
  lemma FoldAlike(x: u32, y: u32)
    ensures Fold(x) == Fold(y) <==> Alike(x, y)
  {
    hide Fold;
    FoldMeaning(x);
    FoldMeaning(y);
    SixteenBits(Fold(x), Fold(y));
    hide Alike;
    if Alike(x, y) {
      AlikeTrans(Fold(x), x, y, Fold(y));
    } else if Fold(x) == Fold(y) {
      AlikeBack(x, Fold(x), y);
    }
  }

  lemma SixteenBits(x: nat, y: nat)
    requires x <= 65535 && y <= 65535
    ensures Alike(x, y) <==> x == y
  {
  }

  lemma AlikeBack(x: nat, f: nat, y: nat)
    requires Alike(f, x) && Alike(f, y)
    ensures Alike(x, y)
  {
  }

  lemma FoldMeaning(x: u32)
    ensures Fold(x) <= 65535 && Alike(Fold(x), x)
  {
    var t := x % 65536 + x / 65536;
    ModEqual(x, t, x / 65536);
    ModEqual(t, Fold(x), t / 65536);
  }

  lemma ModEqual(x: int, y: int, q: int)
    requires x == y + 65535 * q
    ensures x % 65535 == y % 65535
  {
  }

  lemma CsumAddMeaning(a: u32, b: u32)
    ensures Alike(CsumAdd(a, b), a + b)
  {
    if CsumAdd(a, b) != a + b {
      ModEqual(a + b, CsumAdd(a, b), 65537);
    }
  }

  lemma SwapMeaning(s: u32)
    ensures Alike(Swap(s), 256 * s)
  {
    hide SwapHalf;
    var h, l := s / 65536, s % 65536;
    assert 256 * s == 65536 * (256 * h) + 256 * l;
    ModEqual(256 * s, Swap(s), 65536 * (h / 256) + l / 256);
  }

  lemma {:induction false} WordsConcat(a: seq<byte>, b: seq<byte>, low: bool)
    ensures Words(a + b, low) == Words(a, low) + Words(b, if |a| % 2 == 1 then !low else low)
  {
    if a == [] {
      assert a + b == b;
    } else {
      assert (a + b)[1..] == a[1..] + b;
      WordsConcat(a[1..], b, !low);
    }
  }

  /** Exchanging the halves of every word multiplies the sum by 256. */
  lemma {:induction false} WordsSwap(d: seq<byte>, low: bool)
    ensures exists q: int :: 256 * Words(d, low) == Words(d, !low) + 65535 * q
    ensures Words(d, low) == 0 <==> Words(d, !low) == 0
  {
    if d == [] {
      assert 256 * Words(d, low) == Words(d, !low) + 65535 * 0;
    } else {
      WordsSwap(d[1..], !low);
      var q: int :| 256 * Words(d[1..], !low) == Words(d[1..], low) + 65535 * q;
      var t: int := if low then 0 else d[0];
      assert 256 * Words(d, low) == Words(d, !low) + 65535 * (q + t);
    }
  }

  lemma AlikeAdd(x: nat, x': nat, y: nat, y': nat)
    requires Alike(x, x') && Alike(y, y')
    ensures Alike(x + y, x' + y')
  {
    ModEqual(x + y, x % 65535 + y % 65535, x / 65535 + y / 65535);
    ModEqual(x' + y', x' % 65535 + y' % 65535, x' / 65535 + y' / 65535);
  }

  lemma AlikeSwapped(y: u32, d: seq<byte>)
    requires Alike(y, Words(d, false))
    ensures Alike(Swap(y), Words(d, true))
  {
    hide Words;
    var w := Words(d, false);
    SwapMeaning(y);
    hide Swap;
    WordsSwap(d, false);
    var q: int :| 256 * w == Words(d, true) + 65535 * q;
    ModEqual(256 * w, Words(d, true), q);
    ModEqual(256 * y, 256 * (y % 65535), 256 * (y / 65535));
    ModEqual(256 * w, 256 * (w % 65535), 256 * (w / 65535));
  }

  /** csum_partial differs between machines, and how often it folds is not specified.  It returns
      some 32-bit number with the right 16-bit sum. */
  ghost predicate AddsWords(partial: (seq<byte>, u32) -> u32) {
    forall d: seq<byte>, c: u32 :: Alike(partial(d, c), c + Words(d, false))
  }

  function CsumOps(partial: (seq<byte>, u32) -> u32): Ops<u32> {
    Ops(0, partial, (c, c2, pos, len) => CsumBlockAdd(c, c2, pos, len))
  }

  const ALIKE: (u32, u32) -> bool := (x: u32, y: u32) => Alike(x, y)

  lemma PartialRespects(partial: (seq<byte>, u32) -> u32, d: seq<byte>, c: u32, c': u32)
    requires AddsWords(partial) && Alike(c, c')
    ensures Alike(partial(d, c), partial(d, c'))
  {
    AlikeAdd(c, c', Words(d, false), Words(d, false));
    assert Alike(partial(d, c), c + Words(d, false)) && Alike(partial(d, c'), c' + Words(d, false));
  }

  lemma BlockAddRespects(c: u32, d: u32, c': u32, d': u32, pos: nat, len: nat)
    requires Alike(c, c') && Alike(d, d')
    ensures Alike(CsumBlockAdd(c, d, pos, len), CsumBlockAdd(c', d', pos, len))
  {
    hide Alike, CsumAdd, Swap;
    var e, e' := if pos % 2 == 1 then Swap(d) else d, if pos % 2 == 1 then Swap(d') else d';
    SwapRespects(d, d');
    AlikeAdd(c, c', e, e');
    CsumAddMeaning(c, e);
    CsumAddMeaning(c', e');
    AlikeTrans(CsumAdd(c, e), c + e, c' + e', CsumAdd(c', e'));
  }

  lemma SwapRespects(d: u32, d': u32)
    requires Alike(d, d')
    ensures Alike(Swap(d), Swap(d'))
  {
    SwapMeaning(d);
    SwapMeaning(d');
    hide Swap;
    ModEqual(256 * d, 256 * (d % 65535), 256 * (d / 65535));
    ModEqual(256 * d', 256 * (d' % 65535), 256 * (d' / 65535));
  }

  lemma AlikeTrans(x: nat, y: nat, y': nat, x': nat)
    requires Alike(x, y) && Alike(y, y') && Alike(x', y')
    ensures Alike(x, x')
  {
  }

  lemma BlockAddJoins(partial: (seq<byte>, u32) -> u32, a: seq<byte>, b: seq<byte>, c: u32)
    requires AddsWords(partial)
    ensures Alike(CsumBlockAdd(partial(a, c), partial(b, 0), |a|, |b|), partial(a + b, c))
  {
    hide Alike, CsumAdd, Swap, Words;
    var x, y := partial(a, c), partial(b, 0);
    var e := if |a| % 2 == 1 then Swap(y) else y;
    var u, v := c + Words(a, false), Words(b, |a| % 2 == 1);
    WordsConcat(a, b, false);
    assert Alike(x, u) && Alike(y, 0 + Words(b, false));
    if |a| % 2 == 1 {
      AlikeSwapped(y, b);
    }
    AlikeAdd(x, u, e, v);
    CsumAddMeaning(x, e);
    assert Alike(partial(a + b, c), c + Words(a + b, false));
    AlikeTrans(CsumAdd(x, e), x + e, u + v, partial(a + b, c));
  }

  /** The operations of skb_checksum obey the split law, up to what folding sees. */
  lemma CsumObeysSplitLaw(partial: (seq<byte>, u32) -> u32)
    requires AddsWords(partial)
    ensures SplitLaw(CsumOps(partial), ALIKE)
  {
    var ops := CsumOps(partial);
    forall x: seq<byte>, c: u32, d: u32 | ALIKE(c, d)
      ensures ALIKE(ops.update(x, c), ops.update(x, d))
    {
      PartialRespects(partial, x, c, d);
    }
    forall c: u32, d: u32, c': u32, d': u32, pos: nat, len: nat | ALIKE(c, c') && ALIKE(d, d')
      ensures ALIKE(ops.combine(c, d, pos, len), ops.combine(c', d', pos, len))
    {
      BlockAddRespects(c, d, c', d', pos, len);
    }
    forall c: u32
      ensures ALIKE(ops.update([], c), c)
    {
      assert Alike(partial([], c), c + Words([], false));
    }
    forall a: seq<byte>, b: seq<byte>, c: u32
      ensures ALIKE(ops.combine(ops.update(a, c), ops.update(b, ops.zero), |a|, |b|), ops.update(a + b, c))
    {
      BlockAddJoins(partial, a, b, c);
    }
  }

  lemma WithHead(m: Mem, head: seq<byte>, s: Skb)
    requires Ok(m, s)
    ensures Ok(m, s.(lin := head + s.lin)) && Flat(m, s.(lin := head + s.lin)) == head + Flat(m, s)
  {
    var x := FragsFlat(m, s.frags) + ListFlat(m, s.list);
    assert head + s.lin + x == head + (s.lin + x);
  }

  /** skb_checksum: its 16-bit sum is that of the flat bytes, wherever the layout cuts them. */
  method SumBytes(partial: (seq<byte>, u32) -> u32, m: Mem, head: seq<byte>, s: Skb, offset: int, len: nat, csum: u32)
      returns (r: u32)
    requires AddsWords(partial) && Ok(m, s) && -|head| <= offset && offset + len <= Len(s)
    ensures var d := (head + Flat(m, s))[|head| + offset..|head| + offset + len];
      Fold(r) == Fold(partial(d, csum)) && Alike(r, csum + Words(d, false))
  {
    hide Flat, Summed, Fold, Words;
    WithHead(m, head, s);
    CsumObeysSplitLaw(partial);
    r := Checksum(CsumOps(partial), m, head, s, offset, len, csum);
    SummedMeaning(CsumOps(partial), ALIKE, m, s.(lin := head + s.lin), |head| + offset, len, csum);
    ghost var d := (head + Flat(m, s))[|head| + offset..|head| + offset + len];
    HitAll(head + Flat(m, s), |head| + offset, len);
    FoldAlike(r, partial(d, csum));
  }

  lemma HitAll<T>(s: seq<T>, k: nat, n: nat)
    requires k + n <= |s|
    ensures Hit(s, k, n) == s[k..k + n]
  {
  }

  /** A csum_partial that folds the words of a block to 16 bits before it adds them. */
  function FoldedPartial(d: seq<byte>, c: u32): u32 {
    CsumAdd(c, Words(d, false) % 65535 + if Words(d, false) % 65535 == 0 < Words(d, false) then 65535 else 0)
  }

  lemma FoldedPartialAddsWords()
    ensures AddsWords(FoldedPartial)
  {
    forall d: seq<byte>, c: u32
      ensures Alike(FoldedPartial(d, c), c + Words(d, false))
    {
      var w := Words(d, false);
      var f := w % 65535 + if w % 65535 == 0 < w then 65535 else 0;
      CsumAddMeaning(c, f);
      AlikeAdd(c, c, f, w);
    }
  }

  /** The 32-bit numbers themselves do depend on the layout: the same four bytes, all linear or
      half of them in a page. */
  lemma SumsDependOnLayout()
    ensures var m: Mem, ops := map[0 := [0, 1]], CsumOps(FoldedPartial);
      var s, t := Skb([255, 255, 0, 1], [], []), Skb([255, 255], [Frag(0, 0, 2)], []);
      && Ok(m, s) && Ok(m, t) && Flat(m, s) == Flat(m, t)
      && Summed(ops, m, s, 0, 4, 0) == 1 && Summed(ops, m, t, 0, 4, 0) == 65536
  {
    var m: Mem, ops := map[0 := [0, 1]], CsumOps(FoldedPartial);
    var a, b: seq<byte> := [255, 255], [0, 1];
    var f := Frag(0, 0, 2);
    hide Summed, FoldedPartial;
    assert a + b == [255, 255, 0, 1];
    FoldedExamples(a, b);
    LayoutsAlike(m, Skb(a + b, [], []), Skb(a, [f], []), a, b);
    OneChunk(ops, m, a + b, 0);
    TwoChunks(ops, m, a, f, 0);
    assert Bytes(m, f) == b;
  }

  lemma OneChunk<W>(ops: Ops<W>, m: Mem, d: seq<byte>, csum: W)
    requires d != []
    ensures Summed(ops, m, Skb(d, [], []), 0, |d|, csum) == ops.update(d, csum)
  {
    assert d[0..|d|] == d;
  }

  lemma TwoChunks<W>(ops: Ops<W>, m: Mem, d: seq<byte>, f: Frag, csum: W)
    requires d != [] && FragOk(m, f) && f.size > 0
    ensures Summed(ops, m, Skb(d, [f], []), 0, |d| + f.size, csum)
         == ops.combine(ops.update(d, csum), ops.update(Bytes(m, f), ops.zero), |d|, f.size)
  {
    var t := SumLinearOf(ops, d, 0, |d| + f.size, csum);
    assert d[0..|d|] == d && t == Sum(0, f.size, |d|, ops.update(d, csum));
    var u := SumFragOf(ops, m, f, t);
    assert Bytes(m, f)[0..f.size] == Bytes(m, f);
    assert [f][1..] == [] && SumFragsOf(ops, m, [f], t) == SumFragsOf(ops, m, [], u) == u;
  }

  lemma LayoutsAlike(m: Mem, s: Skb, t: Skb, a: seq<byte>, b: seq<byte>)
    requires m == map[0 := b] && |b| == 2 && s == Skb(a + b, [], []) && t == Skb(a, [Frag(0, 0, 2)], [])
    ensures Ok(m, s) && Ok(m, t) && Flat(m, s) == Flat(m, t) == a + b
  {
    OneFragFlat(m, Frag(0, 0, 2));
    assert Bytes(m, Frag(0, 0, 2)) == b;
    assert a + b + ([] + []) == a + b && a + (b + []) == a + b;
  }

  lemma FoldedExamples(a: seq<byte>, b: seq<byte>)
    requires a == [255, 255] && b == [0, 1]
    ensures FoldedPartial(a, 0) == 65535 && FoldedPartial(b, 0) == 1 && FoldedPartial(a + b, 0) == 1
  {
    assert a[1..] == [255] && b[1..] == [1] && [255][1..] == [] && [1][1..] == [];
    assert Words([255], true) == 255 && Words([1], true) == 1;
    WordsConcat(a, b, false);
    assert Words(a, false) == 65535 && Words(b, false) == 1 && Words(a + b, false) == 65536;
    hide Words;
  }
}
