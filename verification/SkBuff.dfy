/**
  The packet buffer object: fixed array of fragments, counts, and the operations of skbuff.c
  that rearrange it in place.
 */
module SkBuff {
  import opened SkbData
  import opened SkbCopy
  import opened SkbLayout

  // Some places may have to allocate: a cloned buffer gets a header of its own (pskb_expand_head),
  // a shared list member is cloned.  They are counted in the order in which they are reached, and
  // `fail` holds those that need memory and do not get it.

  /** None of the `n` places from `at` on fails. */
  ghost predicate NoneFails(fail: set<nat>, at: nat, n: nat) {
    forall i :: at <= i < at + n ==> i !in fail
  }

  /** The places that __pskb_pull_tail reaches when none of them fails. */
  function PullSites(s: Skb, delta: nat): nat
    requires delta <= Sizes(s.frags) + ListLen(s.list)
    decreases s, 1
  {
    1 + PullListSites(s.list, Excess(s.frags, delta))
  }

  function PullListSites(l: seq<Skb>, n: nat): nat
    requires n <= ListLen(l)
    decreases l, 0
  {
    if n == 0 then 0
    else if Len(l[0]) <= n then PullListSites(l[1..], n - Len(l[0]))
    else PullMemberSites(l[0], n)
  }

  function PullMemberSites(s: Skb, n: nat): nat
    requires n <= Len(s)
    decreases s, 2
  {
    1 + if n <= |s.lin| then 0 else PullSites(s, n - |s.lin|)
  }

  /** The places that ___pskb_trim reaches when none of them fails. */
  function TrimSites(s: Skb, n: nat): nat
    requires n <= Len(s)
    decreases s, 1
  {
    1 + if n <= |s.lin| + Sizes(s.frags) then 0 else TrimListSites(s.list, n - |s.lin| - Sizes(s.frags))
  }

  function TrimListSites(l: seq<Skb>, n: nat): nat
    requires 0 < n <= ListLen(l)
    decreases l, 0
  {
    1 + if Len(l[0]) < n then TrimListSites(l[1..], n - Len(l[0]))
        else if Len(l[0]) > n then TrimMemberSites(l[0], n)
        else 0
  }

  function TrimMemberSites(s: Skb, n: nat): nat
    requires n <= Len(s)
    decreases s, 2
  {
    if Len(s) == |s.lin| then 0 else TrimSites(s, n)
  }

  /** Members that are eaten as a whole need nothing; of a pull that ends inside member `k`, only
      that member and the buffer itself may have to allocate. */
  lemma {:induction false} PullListSitesAre(l: seq<Skb>, n: nat, k: nat)
    requires k <= |l| && n <= ListLen(l) && ListLen(l[..k]) <= n && (k < |l| ==> n < ListLen(l[..k]) + Len(l[k]))
    ensures k == |l| ==> n == ListLen(l[..k])
    ensures PullListSites(l, n) == if n == ListLen(l[..k]) then 0 else PullMemberSites(l[k], n - ListLen(l[..k]))
    decreases |l|
  {
    assert l[..|l|] == l;
    if n == 0 || k == 0 {
    } else {
      assert l[..k][0] == l[0] && l[..k][1..] == l[1..][..k - 1];
      PullListSitesAre(l[1..], n - Len(l[0]), k - 1);
    }
  }

  lemma PullSitesAre(s: Skb, delta: nat, k: nat)
    requires delta <= Sizes(s.frags) + ListLen(s.list) && k <= |s.list|
    requires Sizes(s.frags) + ListLen(s.list[..k]) <= delta
    requires k < |s.list| ==> delta < Sizes(s.frags) + ListLen(s.list[..k]) + Len(s.list[k])
    ensures PullSites(s, delta) ==
      var rest := delta - Sizes(s.frags) - ListLen(s.list[..k]);
      if rest == 0 || k == |s.list| then 1
      else if rest <= |s.list[k].lin| then 2
      else 2 + PullSites(s.list[k], rest - |s.list[k].lin|)
  {
    PullListSitesAre(s.list, delta - Sizes(s.frags), k);
  }

  /** A pull that ends inside the fragments may have to allocate for the buffer itself only, and so
      may a trim. */
  lemma SitesInside(s: Skb, n: nat)
    ensures n <= Sizes(s.frags) ==> PullSites(s, n) == 1
    ensures n <= |s.lin| + Sizes(s.frags) ==> TrimSites(s, n) == 1
  {
  }

  /** A trim that ends inside or behind member `k` may have to allocate for each member up to it,
      and once more for pages of this one if it is cut. */
  lemma {:induction false} TrimListSitesAre(l: seq<Skb>, n: nat, k: nat)
    requires k < |l| && n <= ListLen(l) && ListLen(l[..k]) < n <= ListLen(l[..k]) + Len(l[k])
    ensures TrimListSites(l, n) == k + 1 +
      var rest := n - ListLen(l[..k]);
      if rest == Len(l[k]) || Len(l[k]) == |l[k].lin| then 0 else TrimSites(l[k], rest)
    decreases |l|
  {
    if k == 0 {
    } else {
      assert l[..k][0] == l[0] && l[..k][1..] == l[1..][..k - 1];
      TrimListSitesAre(l[1..], n - Len(l[0]), k - 1);
    }
  }

  lemma SlicePrefix<T>(s: seq<T>, n: nat)
    requires n < |s|
    ensures s[..n + 1] == s[..n] + [s[n]]
  {
  }

  lemma {:induction false} SizesUpTo(fs: seq<Frag>, i: nat)
    requires i < |fs|
    ensures Sizes(fs[..i + 1]) == Sizes(fs[..i]) + fs[i].size
    ensures Sizes(fs[i..]) == fs[i].size + Sizes(fs[i + 1..])
    ensures Sizes(fs) == Sizes(fs[..i]) + Sizes(fs[i..])
  {
    SlicePrefix(fs, i);
    SizesConcat(fs[..i], [fs[i]]);
    assert fs[i..][1..] == fs[i + 1..];
    assert fs == fs[..i] + fs[i..];
    SizesConcat(fs[..i], fs[i..]);
  }

  class Buffer {
    var lin: seq<byte>
    const frags: array<Frag>
    var nrFrags: nat
    var list: seq<Skb>
    var len: nat
    var dataLen: nat

    ghost predicate Valid()
      reads this, frags
    {
      && frags.Length == MAX_SKB_FRAGS && nrFrags <= MAX_SKB_FRAGS
      && dataLen == Sizes(frags[..nrFrags]) + ListLen(list)
      && len == |lin| + dataLen
    }

    function Abs(): Skb
      requires nrFrags <= frags.Length
      reads this, frags
    {
      Skb(lin, frags[..nrFrags], list)
    }

    /** A buffer object for the layout `s`. */
    constructor (s: Skb)
      requires |s.frags| <= MAX_SKB_FRAGS
      ensures Valid() && Abs() == s && fresh(frags)
    {
      lin, list, nrFrags := s.lin, s.list, |s.frags|;
      frags := new Frag[MAX_SKB_FRAGS](i => if 0 <= i < |s.frags| then s.frags[i] else Frag(0, 0, 0));
      dataLen := Sizes(s.frags) + ListLen(s.list);
      len := |s.lin| + Sizes(s.frags) + ListLen(s.list);
      new;
      assert frags[..nrFrags] == s.frags;
    }

    // -------------------------------------------------------------------------------------

    /** `i` of the fragments `fs` have been passed; what the pull leaves of them is in the first
        `k` places, and `eat` bytes are to be dropped from the rest. */
    ghost predicate Pulling(fs: seq<Frag>, delta: nat, i: nat, eat: nat, k: nat)
      reads frags
    {
      && k <= i <= |fs| <= frags.Length
      && (forall j :: i <= j < |fs| ==> frags[j] == fs[j])
      && Joined(frags[..k], DropBytes(fs[i..], eat), DropBytes(fs, delta))
    }

    /** Drops the first `delta` bytes of the fragments, closing the gaps in the array. */
    method PullPages(delta: nat)
      requires frags.Length == MAX_SKB_FRAGS && nrFrags <= MAX_SKB_FRAGS
      modifies this`nrFrags, frags
      ensures nrFrags <= old(nrFrags) && frags[..nrFrags] == DropBytes(old(frags[..nrFrags]), delta)
    {
      ghost var fs := frags[..nrFrags];
      var eat: nat, k: nat, i: nat := delta, 0, 0;
      PullStart(fs, delta);
      hide Pulling, DropBytes;
      while i < nrFrags
        invariant i <= nrFrags == |fs| && Pulling(fs, delta, i, eat, k)
        decreases nrFrags - i
        modifies frags
      {
        eat, k := PullFrag(i, eat, k, fs, delta);
        i := i + 1;
      }
      PullEnd(fs, delta, i, eat, k);
      nrFrags := k;
    }

    /** One turn of that loop: fragment `i` loses `eat` bytes, and what remains of it goes to
        place `k`. */
    method PullFrag(i: nat, eat: nat, k: nat, ghost fs: seq<Frag>, ghost delta: nat) returns (eat': nat, k': nat)
      requires i < |fs| && Pulling(fs, delta, i, eat, k)
      modifies frags
      ensures Pulling(fs, delta, i + 1, eat', k')
    {
      DropBytesStep(fs, i, eat);
      eat', k' := eat, k;
      ghost var before := frags[..k];
      hide DropBytes, Joined;
      var size := frags[i].size;
      if size <= eat' {
        eat' := eat' - size;
      } else {
        frags[k] := Advance(frags[i], eat');
        eat' := 0;
        k' := k' + 1;
      }
      assert frags[..k'] == before + DropOne(fs[i], eat);
      JoinedStep(before, DropOne(fs[i], eat), DropBytes(fs[i + 1..], eat'), DropBytes(fs, delta));
    }

    lemma PullStart(fs: seq<Frag>, delta: nat)
      requires |fs| <= frags.Length && fs == frags[..|fs|]
      ensures Pulling(fs, delta, 0, delta, 0)
    {
      assert fs[0..] == fs && frags[..0] == [];
    }

    lemma PullEnd(fs: seq<Frag>, delta: nat, i: nat, eat: nat, k: nat)
      requires Pulling(fs, delta, i, eat, k) && i == |fs|
      ensures k <= |fs| && frags[..k] == DropBytes(fs, delta)
    {
      assert fs[i..] == [];
      JoinedEnd(frags[..k], DropBytes(fs, delta));
    }

    /** How many of the `delta` bytes to pull lie behind the fragments, in the frag_list. */
    method ExcessOverFrags(delta: nat) returns (eat: nat)
      requires Valid()
      ensures eat == Excess(frags[..nrFrags], delta)
    {
      ghost var fs := frags[..nrFrags];
      eat := delta;
      var i := 0;
      assert fs[..0] == [] && fs[..|fs|] == fs;
      while i < nrFrags
        invariant 0 <= i <= nrFrags && eat + Sizes(fs[..i]) == delta
      {
        SizesUpTo(fs, i);
        var size := frags[i].size;
        if size >= eat {
          return 0;
        }
        eat := eat - size;
        i := i + 1;
      }
    }

    /** __pskb_pull_tail. */
    method PullTail(m: Mem, delta: nat, fail: set<nat>, at: nat) returns (ok: bool)
      requires Valid() && Ok(m, Abs()) && Fits(Abs()) && delta <= dataLen
      modifies this, frags
      ensures ok <==> NoneFails(fail, at, PullSites(old(Abs()), delta))
      ensures Valid() && lin == old(lin) + (if ok then Paged(m, old(Abs()))[..delta] else [])
      ensures Abs() == if ok then SkbLayout.PullTail(m, old(Abs()), delta) else old(Abs())
      ensures Ok(m, Abs()) && Flat(m, Abs()) == Flat(m, old(Abs()))
      decreases Abs(), 1
    {
      ghost var s := Abs();
      PullTailKeeps(m, s, delta);
      hide DropBytes, DropList, Excess, Paged, Fits, Ok, Flat, Sizes, ListLen, PullListSites;
      ok := at !in fail;  // pskb_expand_head, when room is missing or the buffer is cloned
      if ok {
        var pulled := CopyPaged(m, delta);
        ok := PullFromList(m, delta, fail, at + 1);
        if ok {
          AdvanceTail(s, delta, pulled);
        }
      }
    }

    /** The end of a pull: the copied bytes are counted in, the pages close up. */
    method AdvanceTail(ghost s: Skb, delta: nat, pulled: seq<byte>)
      requires frags.Length == MAX_SKB_FRAGS && nrFrags <= MAX_SKB_FRAGS && |pulled| == delta <= dataLen
      requires lin == s.lin && frags[..nrFrags] == s.frags && len == Len(s) && dataLen == Sizes(s.frags) + ListLen(s.list)
      requires list == DropList(s.list, Excess(s.frags, delta))
      modifies this, frags
      ensures Valid() && Abs() == Skb(s.lin + pulled, DropBytes(s.frags, delta), old(list))
    {
      PulledLen(s, delta);
      hide DropBytes, DropList, Sizes, ListLen;
      PullPages(delta);
      lin := lin + pulled;
      dataLen := dataLen - delta;
    }

    /** The part of the pull that reaches the frag_list. */
    method PullFromList(m: Mem, delta: nat, fail: set<nat>, at: nat) returns (ok: bool)
      requires Valid() && Ok(m, Abs()) && Fits(Abs()) && delta <= dataLen
      modifies this`list
      ensures ok <==> NoneFails(fail, at, PullListSites(old(list), Excess(frags[..nrFrags], delta)))
      ensures list == if ok then DropList(old(list), Excess(frags[..nrFrags], delta)) else old(list)
      decreases Abs(), 0
    {
      ok := true;
      if list != [] {
        var eat := ExcessOverFrags(delta);
        if eat > 0 {
          ok, list := PullList(m, list, eat, fail, at);
        }
      }
    }

    /** The first `delta` paged bytes, read through the layout. */
    method CopyPaged(m: Mem, delta: nat) returns (pulled: seq<byte>)
      requires Valid() && Ok(m, Abs()) && delta <= dataLen
      ensures pulled == Paged(m, Abs())[..delta]
    {
      var buf := new byte[delta];
      NoHead(Flat(m, Abs()), |lin|, delta);
      var copied := CopyBits(m, [], Abs(), |lin|, buf, 0, delta);
      pulled := buf[..];
      SliceRight(lin, Paged(m, Abs()), |lin|, |lin| + delta);
    }

    // -------------------------------------------------------------------------------------

    /** Keeps the first `k` bytes of the fragments, if there are as many; otherwise reports
        how many bytes are still to be kept behind them. */
    method TrimPages(k: nat) returns (missing: nat)
      requires Valid() && k > 0
      modifies this`nrFrags, frags
      ensures frags.Length == MAX_SKB_FRAGS && nrFrags <= MAX_SKB_FRAGS
      ensures var fs := old(frags[..nrFrags]);
        if k <= Sizes(fs) then missing == 0 && frags[..nrFrags] == TakeBytes(fs, k)
        else missing == k - Sizes(fs) && nrFrags == old(nrFrags) && frags[..nrFrags] == fs
    {
      ghost var fs := frags[..nrFrags];
      missing := k;
      var i := 0;
      assert fs[..0] == [] && fs[..|fs|] == fs;
      while i < nrFrags
        invariant 0 <= i <= nrFrags == |fs| && frags[..nrFrags] == fs
        invariant 0 < missing && missing + Sizes(fs[..i]) == k
        invariant Sizes(fs) == Sizes(fs[..i]) + Sizes(fs[i..])
        invariant k <= Sizes(fs) ==> fs[..i] + TakeBytes(fs[i..], missing) == TakeBytes(fs, k)
        decreases nrFrags - i
      {
        SizesUpTo(fs, i);
        if missing <= Sizes(fs[i..]) {
          TakeBytesStep(fs, i, missing);
        }
        var size := frags[i].size;
        if missing > size {
          missing := missing - size;
          i := i + 1;
        } else {
          frags[i] := Cut(frags[i], missing);
          nrFrags := i + 1;
          assert frags[..nrFrags] == fs[..i] + [Cut(fs[i], missing)];
          return 0;
        }
      }
    }

    /** ___pskb_trim. */
    method Trim(n: nat, fail: set<nat>, at: nat) returns (ok: bool)
      requires Valid() && Fits(Abs()) && n <= len
      modifies this, frags
      ensures ok <==> NoneFails(fail, at, TrimSites(old(Abs()), n))
      ensures Valid() && Abs() == if ok then SkbLayout.Trim(old(Abs()), n) else old(Abs())
      ensures ok ==> KeepsPrefix(old(Abs()), Abs(), n)
      decreases Abs(), 1
    {
      ghost var s := Abs();
      TrimLen(s, n);
      TrimKeepsPrefix(s, n);
      hide TrimListSites, KeepsPrefix, TakeBytes, TakeList;
      ok := at !in fail;  // pskb_expand_head, when the buffer is cloned
      if !ok {
        return;
      }
      if |lin| >= n {
        nrFrags := 0;
        list := [];
      } else {
        var missing := TrimPages(n - |lin|);
        if missing == 0 {
          list := [];
        } else {
          ok, list := TrimList(list, missing, fail, at + 1);
          if !ok {
            return;
          }
        }
      }
      if n > |lin| {
        dataLen := dataLen - (len - n);
        len := n;
      } else {
        len := n;
        dataLen := 0;
        lin := lin[..n];
      }
    }
  }

  /** Eats `n` bytes off a frag_list: whole members, then a part of one.  On failure the list
      is as it was. */
  method PullList(m: Mem, l: seq<Skb>, n: nat, fail: set<nat>, at: nat) returns (ok: bool, r: seq<Skb>)
    requires ListOk(m, l) && ListFits(l) && 0 < n <= ListLen(l)
    ensures ok <==> NoneFails(fail, at, PullListSites(l, n))
    ensures r == if ok then DropList(l, n) else l
    decreases l, 0
  {
    r := l;
    var eat: nat := n;
    while eat > 0
      invariant ListOk(m, r) && ListFits(r) && eat <= ListLen(r) && DropList(r, eat) == DropList(l, n)
      invariant PullListSites(r, eat) == PullListSites(l, n)
      invariant |r| <= |l| && r == l[|l| - |r|..]
      decreases |r|
    {
      if Len(r[0]) <= eat {
        eat := eat - Len(r[0]);
        r := r[1..];
      } else {
        var member;
        assert r[0] == l[|l| - |r|];
        ok, member := PskbPull(m, r[0], eat, fail, at);
        if !ok {
          return false, l;
        }
        r := [member] + r[1..];
        return;
      }
    }
    ok := true;
  }

  /** Keeps the first `n` bytes of a frag_list.  On failure the list is as it was. */
  method TrimList(l: seq<Skb>, n: nat, fail: set<nat>, at: nat) returns (ok: bool, r: seq<Skb>)
    requires ListFits(l) && 0 < n <= ListLen(l)
    ensures ok <==> NoneFails(fail, at, TrimListSites(l, n))
    ensures r == if ok then TakeList(l, n) else l
    decreases l, 0
  {
    var i: nat, missing: nat := 0, n;
    assert l[0..] == l && l[..0] == [];
    JoinedStart(TakeList(l, n));
    hide TakeList, TrimListSites, TrimMemberSites, ListLen, Len, Fits, ListFits, Joined, SkbLayout.PskbTrim;
    while true
      invariant i <= |l| && ListFits(l[i..]) && 0 < missing <= ListLen(l[i..])
      invariant Joined(l[..i], TakeList(l[i..], missing), TakeList(l, n))
      invariant TrimListSites(l, n) == i + TrimListSites(l[i..], missing) && NoneFails(fail, at, i)
      decreases |l| - i
    {
      TrimListStep(l, i, missing, TakeList(l, n));
      ok := at + i !in fail;  // a shared member is cloned
      if !ok {
        return false, l;
      }
      if Len(l[i]) < missing {
        missing := missing - Len(l[i]);
        i := i + 1;
      } else {
        var member := l[i];
        if Len(l[i]) > missing {
          ok, member := PskbTrim(l[i], missing, fail, at + i + 1);
          if !ok {
            return false, l;
          }
        }
        return true, l[..i] + [member];
      }
    }
  }

  lemma TrimListStep(l: seq<Skb>, i: nat, n: nat, all: seq<Skb>)
    requires i <= |l| && ListFits(l[i..]) && 0 < n <= ListLen(l[i..]) && Joined(l[..i], TakeList(l[i..], n), all)
    ensures i < |l| && Fits(l[i]) && ListFits(l[i + 1..])
    ensures if Len(l[i]) < n then
        && n - Len(l[i]) <= ListLen(l[i + 1..])
        && Joined(l[..i + 1], TakeList(l[i + 1..], n - Len(l[i])), all)
        && TrimListSites(l[i..], n) == 1 + TrimListSites(l[i + 1..], n - Len(l[i]))
      else
        && l[..i] + [if Len(l[i]) > n then SkbLayout.PskbTrim(l[i], n) else l[i]] == all
        && TrimListSites(l[i..], n) == 1 + if Len(l[i]) > n then TrimMemberSites(l[i], n) else 0
  {
    assert i < |l| && l[i..][1..] == l[i + 1..] && l[..i + 1] == l[..i] + [l[i]];
    if Len(l[i]) < n {
      JoinedStep(l[..i], [l[i]], TakeList(l[i + 1..], n - Len(l[i])), all);
    }
  }

  /** pskb_trim on a list member. */
  method PskbTrim(s: Skb, n: nat, fail: set<nat>, at: nat) returns (ok: bool, r: Skb)
    requires Fits(s) && n <= Len(s)
    ensures ok <==> NoneFails(fail, at, TrimMemberSites(s, n))
    ensures ok ==> r == SkbLayout.PskbTrim(s, n)
    decreases s, 2
  {
    if Len(s) == |s.lin| {
      return true, s.(lin := s.lin[..n]);
    }
    var b := new Buffer(s);
    ok := b.Trim(n, fail, at);
    r := b.Abs();
  }

  /** pskb_pull on a list member, which is cloned first when it is shared. */
  method PskbPull(m: Mem, s: Skb, n: nat, fail: set<nat>, at: nat) returns (ok: bool, r: Skb)
    requires Ok(m, s) && Fits(s) && n <= Len(s)
    ensures ok <==> NoneFails(fail, at, PullMemberSites(s, n))
    ensures ok ==> r == PullHead(s, n)
    decreases s, 2
  {
    r := s;
    ok := at !in fail;
    if ok && n > |s.lin| {
      var b := new Buffer(s);
      ok := b.PullTail(m, n - |s.lin|, fail, at + 1);
      r := b.Abs();
    }
    if ok {
      r := r.(lin := r.lin[n..]);
    }
  }

  /** Whatever the pages contain, `t` stands for the first `n` bytes of `s`. */
  ghost predicate KeepsPrefix(s: Skb, t: Skb, n: nat) {
    n <= Len(s) && forall m: Mem :: Ok(m, s) ==> Ok(m, t) && Flat(m, t) == Flat(m, s)[..n]
  }

  lemma TrimKeepsPrefix(s: Skb, n: nat)
    requires n <= Len(s)
    ensures KeepsPrefix(s, SkbLayout.Trim(s, n), n)
  {
    forall m: Mem | Ok(m, s)
      ensures Ok(m, SkbLayout.Trim(s, n)) && Flat(m, SkbLayout.Trim(s, n)) == Flat(m, s)[..n]
    {
      TrimFlat(m, s, n);
    }
  }

  lemma TakeBytesStep(fs: seq<Frag>, i: nat, n: nat)
    requires i < |fs| && n <= Sizes(fs[i..])
    ensures fs[i..][1..] == fs[i + 1..]
    ensures fs[..i] + TakeBytes(fs[i..], n) ==
      if fs[i].size < n then fs[..i + 1] + TakeBytes(fs[i + 1..], n - fs[i].size)
      else fs[..i] + [Cut(fs[i], n)]
  {
    assert fs[i..][1..] == fs[i + 1..];
    assert fs[..i + 1] == fs[..i] + [fs[i]];
  }

  lemma PulledLen(s: Skb, delta: nat)
    requires delta <= Sizes(s.frags) + ListLen(s.list)
    ensures Sizes(DropBytes(s.frags, delta)) + ListLen(DropList(s.list, Excess(s.frags, delta)))
         == Sizes(s.frags) + ListLen(s.list) - delta
  {
    DropBytesSize(s.frags, delta);
    DropListLen(s.list, Excess(s.frags, delta));
  }

  /** What remains of a fragment without its first `n` bytes. */
  function DropOne(f: Frag, n: nat): seq<Frag> {
    if f.size <= n then [] else [Advance(f, n)]
  }

  lemma DropBytesStep(fs: seq<Frag>, i: nat, n: nat)
    requires i < |fs|
    ensures DropBytes(fs[i..], n)
         == DropOne(fs[i], n) + DropBytes(fs[i + 1..], if fs[i].size <= n then n - fs[i].size else 0)
  {
    assert fs[i..][1..] == fs[i + 1..];
  }
}
