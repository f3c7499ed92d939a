/**
  Operations that change the layout of a buffer: pulling bytes into the linear part, trimming.
  The functions say which layout results; the lemmas say what that does to the bytes.
 */
module SkbLayout {
  import opened SkbData
  import opened SkbCopy

  // ---------------------------------------------------------------------------------------
  // Pulling.

  /** How many of the first `k` paged bytes lie behind the fragments, in the frag_list. */
  function Excess(fs: seq<Frag>, k: nat): nat {
    if k <= Sizes(fs) then 0 else k - Sizes(fs)
  }

  /** `n` bytes gone from the front of a buffer (pskb_pull). */
  function PullHead(s: Skb, n: nat): Skb
    requires n <= Len(s)
    decreases s, 1
  {
    if n <= |s.lin| then s.(lin := s.lin[n..])
    else
      var k := n - |s.lin|;
      Skb([], DropBytes(s.frags, k), DropList(s.list, Excess(s.frags, k)))
  }

  /** `n` bytes gone from the front of a frag_list. */
  function DropList(l: seq<Skb>, n: nat): seq<Skb>
    requires n <= ListLen(l)
    decreases l, 0
  {
    if n == 0 then l
    else if Len(l[0]) <= n then DropList(l[1..], n - Len(l[0]))
    else [PullHead(l[0], n)] + l[1..]
  }

  /** The paged bytes: everything behind the linear part. */
  function Paged(m: Mem, s: Skb): (r: seq<byte>)
    requires Ok(m, s)
    ensures |r| == Len(s) - |s.lin|
  {
    FragsFlat(m, s.frags) + ListFlat(m, s.list)
  }

  /** `delta` bytes moved from the pages into the linear part. */
  function PullTail(m: Mem, s: Skb, delta: nat): Skb
    requires Ok(m, s) && delta <= Len(s) - |s.lin|
  {
    Skb(s.lin + Paged(m, s)[..delta], DropBytes(s.frags, delta),
        DropList(s.list, Excess(s.frags, delta)))
  }

  lemma {:induction false} DropAllFrags(m: Mem, fs: seq<Frag>, n: nat)
    requires n >= Sizes(fs)
    ensures DropBytes(fs, n) == [] && FragsFlat(m, []) == []
  {
    if fs == [] {
    } else {
      DropAllFrags(m, fs[1..], n - fs[0].size);
    }
  }

  lemma DropListNothing(m: Mem, l: seq<Skb>)
    ensures DropList(l, 0) == l
  {
  }

  /** Dropping `k` paged bytes from the fragments and, beyond them, from the list. */
  lemma {:induction false} DropPagedFlat(m: Mem, s: Skb, k: nat)
    requires Ok(m, s) && k <= Len(s) - |s.lin|
    ensures var fs := DropBytes(s.frags, k);
      var l := DropList(s.list, Excess(s.frags, k));
      && FragsOk(m, fs) && ListOk(m, l)
      && FragsFlat(m, fs) + ListFlat(m, l) == Paged(m, s)[k..]
    decreases s, 0
  {
    hide DropBytes, DropList, FragsFlat, ListFlat, Sizes, ListLen;
    var n := Sizes(s.frags);
    DropConcat(FragsFlat(m, s.frags), ListFlat(m, s.list), k);
    if k <= n {
      DropBytesFlat(m, s.frags, k);
      DropListNothing(m, s.list);
    } else {
      DropAllFrags(m, s.frags, k);
      DropListFlat(m, s.list, k - n);
    }
  }

  lemma {:induction false} PullHeadFlat(m: Mem, s: Skb, n: nat)
    requires Ok(m, s) && n <= Len(s)
    ensures Ok(m, PullHead(s, n)) && Flat(m, PullHead(s, n)) == Flat(m, s)[n..]
    decreases s, 1
  {
    DropConcat(s.lin, Paged(m, s), n);
    if n > |s.lin| {
      DropPagedFlat(m, s, n - |s.lin|);
    }
  }

  lemma {:induction false} DropListFlat(m: Mem, l: seq<Skb>, n: nat)
    requires ListOk(m, l) && n <= ListLen(l)
    ensures ListOk(m, DropList(l, n)) && ListFlat(m, DropList(l, n)) == ListFlat(m, l)[n..]
    decreases l, 0
  {
    if n == 0 {
    } else {
      DropConcat(Flat(m, l[0]), ListFlat(m, l[1..]), n);
      if Len(l[0]) <= n {
        DropListFlat(m, l[1..], n - Len(l[0]));
      } else {
        PullHeadFlat(m, l[0], n);
        var d := DropList(l, n);
        assert d[0] == PullHead(l[0], n) && d[1..] == l[1..];
      }
    }
  }

  lemma {:induction false} DropListLen(l: seq<Skb>, n: nat)
    requires n <= ListLen(l)
    ensures ListLen(DropList(l, n)) == ListLen(l) - n
    decreases l, 0
  {
    if n == 0 {
    } else {
      if Len(l[0]) <= n {
        DropListLen(l[1..], n - Len(l[0]));
      } else {
        PullHeadLen(l[0], n);
        assert DropList(l, n)[1..] == l[1..];
      }
    }
  }

  lemma PullHeadLen(s: Skb, n: nat)
    requires n <= Len(s)
    ensures Len(PullHead(s, n)) == Len(s) - n
    decreases s, 1
  {
    if n > |s.lin| {
      var k := n - |s.lin|;
      DropBytesSize(s.frags, k);
      if k > Sizes(s.frags) {
        DropListLen(s.list, k - Sizes(s.frags));
      }
    }
  }

  /** Pulling leaves the bytes of the buffer as they are and moves `delta` of them. */
  lemma PullTailKeeps(m: Mem, s: Skb, delta: nat)
    requires Ok(m, s) && delta <= Len(s) - |s.lin|
    ensures var t := PullTail(m, s, delta);
      && Ok(m, t) && Flat(m, t) == Flat(m, s)
      && t.lin == Flat(m, s)[..|s.lin| + delta]
  {
    DropPagedFlat(m, s, delta);
    var p := Paged(m, s);
    assert p == p[..delta] + p[delta..];
    assert s.lin + p[..delta] + p[delta..] == s.lin + p;
    assert (s.lin + p)[..|s.lin| + delta] == s.lin + p[..delta];
  }

  // ---------------------------------------------------------------------------------------
  // Trimming.

  /** The first `n` bytes of a buffer (pskb_trim). */
  function Trim(s: Skb, n: nat): Skb
    requires n <= Len(s)
    decreases s, 1
  {
    if n <= |s.lin| then Skb(s.lin[..n], [], [])
    else if n - |s.lin| <= Sizes(s.frags) then Skb(s.lin, TakeBytes(s.frags, n - |s.lin|), [])
    else Skb(s.lin, s.frags, TakeList(s.list, n - |s.lin| - Sizes(s.frags)))
  }

  /** The first `n` bytes of a frag_list: whole members, then one trimmed. */
  function TakeList(l: seq<Skb>, n: nat): seq<Skb>
    requires 0 < n <= ListLen(l)
    decreases l, 0
  {
    if Len(l[0]) < n then [l[0]] + TakeList(l[1..], n - Len(l[0]))
    else if Len(l[0]) > n then [PskbTrim(l[0], n)]
    else [l[0]]
  }

  /** A member without paged bytes is only shortened in its linear part. */
  function PskbTrim(s: Skb, n: nat): Skb
    requires n <= Len(s)
    decreases s, 2
  {
    if Len(s) == |s.lin| then s.(lin := s.lin[..n]) else Trim(s, n)
  }

  lemma TakeConcat<T>(a: seq<T>, b: seq<T>, n: nat)
    requires n <= |a| + |b|
    ensures (a + b)[..n] == if n <= |a| then a[..n] else a + b[..n - |a|]
  {
  }

  lemma NoPages(m: Mem)
    ensures FragsFlat(m, []) == [] && ListFlat(m, []) == [] && ListOk(m, [])
  {
  }

  lemma {:induction false} TrimFlat(m: Mem, s: Skb, n: nat)
    requires Ok(m, s) && n <= Len(s)
    ensures Ok(m, Trim(s, n)) && Flat(m, Trim(s, n)) == Flat(m, s)[..n]
    decreases s, 1
  {
    hide TakeBytes, TakeList, FragsFlat, ListFlat, Sizes, ListLen;
    var f, l := FragsFlat(m, s.frags), ListFlat(m, s.list);
    NoPages(m);
    TakeConcat(s.lin, f + l, n);
    if n > |s.lin| {
      var k := n - |s.lin|;
      TakeConcat(f, l, k);
      if k <= Sizes(s.frags) {
        TakeBytesFlat(m, s.frags, k);
      } else {
        TakeListFlat(m, s.list, k - Sizes(s.frags));
      }
    }
  }

  lemma PskbTrimFlat(m: Mem, s: Skb, n: nat)
    requires Ok(m, s) && n <= Len(s)
    ensures Ok(m, PskbTrim(s, n)) && Flat(m, PskbTrim(s, n)) == Flat(m, s)[..n]
    decreases s, 2
  {
    if Len(s) == |s.lin| {
      assert FragsFlat(m, s.frags) == [] && ListFlat(m, s.list) == [];
    } else {
      TrimFlat(m, s, n);
    }
  }

  lemma {:induction false} TakeListFlat(m: Mem, l: seq<Skb>, n: nat)
    requires ListOk(m, l) && 0 < n <= ListLen(l)
    ensures ListOk(m, TakeList(l, n)) && ListFlat(m, TakeList(l, n)) == ListFlat(m, l)[..n]
    decreases l, 0
  {
    var t := TakeList(l, n);
    TakeConcat(Flat(m, l[0]), ListFlat(m, l[1..]), n);
    if Len(l[0]) < n {
      TakeListFlat(m, l[1..], n - Len(l[0]));
      assert t[0] == l[0] && t[1..] == TakeList(l[1..], n - Len(l[0]));
    } else {
      if Len(l[0]) > n {
        PskbTrimFlat(m, l[0], n);
      }
      assert t[1..] == [];
    }
  }

  lemma TrimLen(s: Skb, n: nat)
    requires n <= Len(s)
    ensures Len(Trim(s, n)) == n
    decreases s, 1
  {
    if n > |s.lin| {
      var k := n - |s.lin|;
      if k <= Sizes(s.frags) {
        TakeBytesSize(s.frags, k);
      } else {
        TakeListLen(s.list, k - Sizes(s.frags));
      }
    }
  }

  lemma {:induction false} TakeListLen(l: seq<Skb>, n: nat)
    requires 0 < n <= ListLen(l)
    ensures ListLen(TakeList(l, n)) == n
    decreases l, 0
  {
    var t := TakeList(l, n);
    if Len(l[0]) < n {
      TakeListLen(l[1..], n - Len(l[0]));
      assert t[1..] == TakeList(l[1..], n - Len(l[0]));
    } else {
      if Len(l[0]) > n && Len(l[0]) != |l[0].lin| {
        TrimLen(l[0], n);
      }
      assert t[1..] == [];
    }
  }
}
