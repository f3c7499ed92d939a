/**
  Reading, writing and checksumming a range of a buffer without regard to its layout.
 */
module SkbCopy {
  import opened SkbData

  function Splice<T>(s: seq<T>, at: nat, d: seq<T>): (r: seq<T>)
    requires at + |d| <= |s|
    ensures |r| == |s|
  {
    s[..at] + d + s[at + |d|..]
  }

  lemma SpliceMore<T>(s: seq<T>, at: nat, a: seq<T>, b: seq<T>)
    requires at + |a| + |b| <= |s|
    ensures Splice(Splice(s, at, a), at + |a|, b) == Splice(s, at, a + b)
  {
  }

  lemma SpliceNothing<T>(s: seq<T>, at: nat)
    requires at <= |s|
    ensures Splice(s, at, []) == s
  {
  }

  lemma SliceConcat<T>(s: seq<T>, i: nat, j: nat, k: nat)
    requires i <= j <= k <= |s|
    ensures s[i..j] + s[j..k] == s[i..k]
  {
  }

  /** How much of `n` bytes at offset `k` falls in a part of `size` bytes. */
  function Share(size: nat, k: nat, n: nat): nat {
    if k >= size then 0 else Min(size - k, n)
  }

  /** The offset in what follows a part of `size` bytes. */
  function Beyond(size: nat, k: nat): nat {
    if k >= size then k - size else 0
  }

  /** What of `s` lies within `n` positions from `k` on. */
  function Hit<T>(s: seq<T>, k: nat, n: nat): (r: seq<T>)
    ensures |r| == Share(|s|, k, n)
  {
    if k >= |s| then [] else s[k..k + Share(|s|, k, n)]
  }

  lemma HitConcat<T>(a: seq<T>, b: seq<T>, k: nat, n: nat)
    ensures Share(|a|, k, n) <= n
    ensures var k1, n1 := Beyond(|a|, k), n - Share(|a|, k, n);
      && n1 >= Share(|b|, k1, n1)
      && Share(|a| + |b|, k, n) == Share(|a|, k, n) + Share(|b|, k1, n1)
      && Hit(a + b, k, n) == Hit(a, k, n) + Hit(b, k1, n1)
  {
    var l, r := Hit(a + b, k, n), Hit(a, k, n) + Hit(b, Beyond(|a|, k), n - Share(|a|, k, n));
    assert |l| == |r|;
    forall i | 0 <= i < |l|
      ensures l[i] == r[i]
    {
      assert l[i] == (a + b)[k + i];
    }
  }

  method Memcpy(to: array<byte>, at: nat, from: seq<byte>)
    requires at + |from| <= to.Length
    modifies to
    ensures to[..] == Splice(old(to[..]), at, from)
  {
    forall i | 0 <= i < |from| {
      to[at + i] := from[i];
    }
  }

  /** What remains of the buffer behind its first `i` fragments. */
  ghost function After(m: Mem, s: Skb, i: nat): seq<byte>
    requires Ok(m, s) && i <= |s.frags|
  {
    FragsFlat(m, s.frags[i..]) + ListFlat(m, s.list)
  }

  lemma AfterFrag(m: Mem, s: Skb, i: nat)
    requires Ok(m, s) && i < |s.frags|
    ensures After(m, s, i) == Bytes(m, s.frags[i]) + After(m, s, i + 1)
  {
    assert s.frags[i..][1..] == s.frags[i + 1..];
  }

  lemma {:induction false} ListOkAt(m: Mem, l: seq<Skb>, i: nat)
    requires ListOk(m, l) && i < |l|
    ensures Ok(m, l[i]) && ListOk(m, l[i..]) && ListOk(m, l[i + 1..])
    ensures ListFlat(m, l[i..]) == Flat(m, l[i]) + ListFlat(m, l[i + 1..])
  {
    if i == 0 {
      assert l[0..] == l;
    } else {
      ListOkAt(m, l[1..], i - 1);
      assert l[1..][i - 1..] == l[i..] && l[1..][i..] == l[i + 1..];
    }
  }

  /** The bytes at `[o, o + c)` lie in the chunk of `flat` that starts at `start`. */
  lemma ChunkSlice<T>(flat: seq<T>, start: nat, chunk: seq<T>, rest: seq<T>, o: nat, c: nat)
    requires start <= |flat| && flat[start..] == chunk + rest
    requires start <= o && o + c <= start + |chunk|
    ensures flat[o..o + c] == chunk[o - start..o - start + c]
  {
    assert forall i :: start <= i < |flat| ==> flat[i] == flat[start..][i - start];
  }

  lemma NextChunk<T>(flat: seq<T>, start: nat, chunk: seq<T>, rest: seq<T>)
    requires start <= |flat| && flat[start..] == chunk + rest
    ensures start + |chunk| <= |flat| && flat[start + |chunk|..] == rest
  {
    assert flat[start..][|chunk|..] == flat[start + |chunk|..];
  }

  /** `[offset, o)` has been copied; the next `c` bytes come out of one chunk. */
  lemma CopyStep<T>(was: seq<T>, at: nat, flat: seq<T>, offset: nat, o: nat, start: nat, chunk: seq<T>, rest: seq<T>, c: nat)
    requires start <= |flat| && flat[start..] == chunk + rest
    requires offset <= o && start <= o && o + c <= start + |chunk| && at + (o + c - offset) <= |was|
    ensures Splice(Splice(was, at, flat[offset..o]), at + (o - offset), chunk[o - start..o - start + c])
         == Splice(was, at, flat[offset..o + c])
  {
    ChunkSlice(flat, start, chunk, rest, o, c);
    SpliceMore(was, at, flat[offset..o], flat[o..o + c]);
    SliceConcat(flat, offset, o, o + c);
  }

  lemma BytesSlice(m: Mem, f: Frag, i: nat, c: nat)
    requires FragOk(m, f) && i + c <= f.size
    ensures Bytes(m, f)[i..i + c] == m[f.page][f.off + i..f.off + i + c]
  {
    SliceOfSlice(m[f.page], f.off, f.off + f.size, i, i + c);
  }

  lemma FlatParts(m: Mem, s: Skb)
    requires Ok(m, s)
    ensures Flat(m, s)[0..] == s.lin + After(m, s, 0)
    ensures After(m, s, |s.frags|) == ListFlat(m, s.list[0..])
  {
    assert s.frags[0..] == s.frags && s.list[0..] == s.list && s.frags[|s.frags|..] == [];
  }

  function Min(a: int, b: int): int {
    if a < b then a else b
  }

  /** skb_copy_bits.  A negative offset reaches into `head`, the bytes in front of the data. */
  method CopyBits(m: Mem, head: seq<byte>, s: Skb, offset: int, to: array<byte>, at: nat, len: nat) returns (ok: bool)
    requires Ok(m, s) && at + len <= to.Length && -|head| <= offset
    modifies to
    ensures ok <==> offset + len <= Len(s)
    ensures !ok ==> to[..] == old(to[..])
    ensures ok ==> to[..] == Splice(old(to[..]), at, (head + Flat(m, s))[|head| + offset..|head| + offset + len])
    decreases s, 2
  {
    hide Splice, Flat, After, ListFlat, Len, Ok;
    if offset > Len(s) - len {
      return false;
    }
    ghost var flat, was := Flat(m, s), to[..];
    FlatParts(m, s);
    NextChunk(flat, 0, s.lin, After(m, s, 0));
    var o, n := CopyLinear(head, s.lin, After(m, s, 0), flat, offset, to, at, len);
    if n > 0 {
      ghost var more := to[..];
      SpliceNothing(more, at + (len - n));
      assert flat[o..o] == [];
      ghost var n0 := n;
      n := CopyPaged(m, s, flat, more, o, o, to, at + (len - n), n);
      WithHead(head, flat, offset, o, n0, was, at);
    }
    return n == 0;
  }

  lemma NoHead(flat: seq<byte>, offset: nat, len: nat)
    requires offset + len <= |flat|
    ensures ([] + flat)[0 + offset..0 + offset + len] == flat[offset..offset + len]
  {
    assert [] + flat == flat;
  }

  /** Bytes of the linear part first, then those behind it. */
  lemma WithHead(head: seq<byte>, flat: seq<byte>, offset: int, o: nat, n: nat, was: seq<byte>, at: nat)
    requires -|head| <= offset <= o && o + n <= |flat| && at + (o + n - offset) <= |was|
    ensures var x, h := head + flat, |head| + offset;
      Splice(Splice(was, at, x[h..|head| + o]), at + (o - offset), flat[o..o + n]) == Splice(was, at, x[h..|head| + o + n])
  {
    var x, h := head + flat, |head| + offset;
    SliceRight(head, flat, |head| + o, |head| + o + n);
    SliceConcat(x, h, |head| + o, |head| + o + n);
    SpliceMore(was, at, x[h..|head| + o], flat[o..o + n]);
  }

  method CopyLinear(head: seq<byte>, lin: seq<byte>, ghost rest: seq<byte>, ghost flat: seq<byte>, offset: int,
      to: array<byte>, at: nat, len: nat) returns (o: int, n: nat)
    requires flat == lin + rest && -|head| <= offset && offset + len <= |flat| && at + len <= to.Length
    modifies to
    ensures offset <= o && o + n == offset + len && (n > 0 ==> |lin| <= o)
    ensures to[..] == Splice(old(to[..]), at, (head + flat)[|head| + offset..|head| + o])
  {
    hide Splice;
    o, n := offset, len;
    if |lin| - o > 0 {
      var copy := Min(|lin| - o, n);
      assert (head + flat)[|head| + o..|head| + o + copy] == (head + lin)[|head| + o..|head| + o + copy];
      Memcpy(to, at, (head + lin)[|head| + o..|head| + o + copy]);
      n, o := n - copy, o + copy;
    } else {
      SpliceNothing(to[..], at);
      assert (head + flat)[|head| + o..|head| + o] == [];
    }
  }

  method CopyPaged(m: Mem, s: Skb, ghost flat: seq<byte>, ghost was: seq<byte>, offset: nat, o0: nat,
      to: array<byte>, at: nat, n0: nat) returns (n: nat)
    requires Ok(m, s) && |s.lin| <= |flat| && flat[|s.lin|..] == After(m, s, 0)
    requires offset <= o0 && |s.lin| <= o0 && o0 + n0 <= |flat| && 0 < n0
    requires |was| == to.Length && at + (o0 - offset) + n0 <= to.Length
    requires to[..] == Splice(was, at, flat[offset..o0])
    modifies to
    ensures n == 0 && to[..] == Splice(was, at, flat[offset..o0 + n0])
    decreases s, 1
  {
    hide Splice, After, Ok;
    var start, o;
    start, o, n := CopyFrags(m, s, flat, was, offset, o0, to, at, n0);
    if n > 0 {
      n := CopyList(m, s, flat, was, offset, start, o, to, at, n);
    }
  }

  method CopyFrags(m: Mem, s: Skb, ghost flat: seq<byte>, ghost was: seq<byte>, offset: nat, o0: nat,
      to: array<byte>, at: nat, n0: nat) returns (start: nat, o: nat, n: nat)
    requires Ok(m, s) && |s.lin| <= |flat| && flat[|s.lin|..] == After(m, s, 0)
    requires offset <= o0 && |s.lin| <= o0 && o0 + n0 <= |flat| && 0 < n0
    requires |was| == to.Length && at + (o0 - offset) + n0 <= to.Length
    requires to[..] == Splice(was, at, flat[offset..o0])
    modifies to
    ensures o0 <= o && o + n == o0 + n0 && to[..] == Splice(was, at, flat[offset..o])
    ensures n > 0 ==> start <= o && start <= |flat| && flat[start..] == After(m, s, |s.frags|)
  {
    hide Splice, After, Bytes;
    start, o, n := |s.lin|, o0, n0;
    var i := 0;
    while i < |s.frags|
      invariant 0 <= i <= |s.frags| && 0 < n && o + n == o0 + n0 && o0 <= o && start <= o
      invariant start <= |flat| && flat[start..] == After(m, s, i)
      invariant to[..] == Splice(was, at, flat[offset..o])
    {
      AfterFrag(m, s, i);
      var f := s.frags[i];
      var end := start + f.size;
      if end - o > 0 {
        var copy := Min(end - o, n);
        CopyStep(was, at, flat, offset, o, start, Bytes(m, f), After(m, s, i + 1), copy);
        BytesSlice(m, f, o - start, copy);
        Memcpy(to, at + (o - offset), m[f.page][f.off + (o - start)..f.off + (o - start) + copy]);
        n, o := n - copy, o + copy;
        if n == 0 {
          return;
        }
      }
      NextChunk(flat, start, Bytes(m, f), After(m, s, i + 1));
      start := end;
      i := i + 1;
    }
  }

  /** One member of the frag_list, which starts at `start`. */
  method CopyMember(m: Mem, f: Skb, ghost flat: seq<byte>, ghost rest: seq<byte>, ghost was: seq<byte>, offset: nat,
      start: nat, o0: nat, to: array<byte>, at: nat, n0: nat) returns (o: nat, n: nat)
    requires Ok(m, f) && start <= |flat| && flat[start..] == Flat(m, f) + rest
    requires offset <= o0 && start <= o0 && o0 + n0 <= |flat| && 0 < n0
    requires |was| == to.Length && at + (o0 - offset) + n0 <= to.Length
    requires to[..] == Splice(was, at, flat[offset..o0])
    modifies to
    ensures o0 <= o && o + n == o0 + n0 && to[..] == Splice(was, at, flat[offset..o])
    ensures n > 0 ==> start + Len(f) <= o
    decreases f, 3
  {
    hide Splice, Flat, Len, Ok;
    o, n := o0, n0;
    if start + Len(f) - o > 0 {
      var copy := Min(start + Len(f) - o, n);
      CopyStep(was, at, flat, offset, o, start, Flat(m, f), rest, copy);
      NoHead(Flat(m, f), o - start, copy);
      var copied := CopyBits(m, [], f, o - start, to, at + (o - offset), copy);
      n, o := n - copy, o + copy;
    }
  }

  method CopyList(m: Mem, s: Skb, ghost flat: seq<byte>, ghost was: seq<byte>, offset: nat, start0: nat, o0: nat,
      to: array<byte>, at: nat, n0: nat) returns (n: nat)
    requires Ok(m, s) && start0 <= |flat| && flat[start0..] == After(m, s, |s.frags|)
    requires offset <= o0 && start0 <= o0 && o0 + n0 <= |flat| && 0 < n0
    requires |was| == to.Length && at + (o0 - offset) + n0 <= to.Length
    requires to[..] == Splice(was, at, flat[offset..o0])
    modifies to
    ensures n <= n0 && to[..] == Splice(was, at, flat[offset..o0 + n0 - n])
    ensures n > 0 ==> o0 + n0 - n >= |flat|
    decreases s, 0
  {
    hide Splice, Flat, After, ListFlat, Len, ListLen, Ok, ListOk;
    FlatParts(m, s);
    ListParts(m, s);
    var start: nat, o: nat := start0, o0;
    n := n0;
    var i := 0;
    while i < |s.list| && n > 0
      invariant 0 <= i <= |s.list| && o + n == o0 + n0 && o0 <= o
      invariant ListOk(m, s.list[i..])
      invariant to[..] == Splice(was, at, flat[offset..o])
      invariant n > 0 ==> start <= o && start <= |flat| && flat[start..] == ListFlat(m, s.list[i..])
    {
      ListOkAt(m, s.list, i);
      var f := s.list[i];
      o, n := CopyMember(m, f, flat, ListFlat(m, s.list[i + 1..]), was, offset, start, o, to, at, n);
      NextChunk(flat, start, Flat(m, f), ListFlat(m, s.list[i + 1..]));
      start := start + Len(f);
      i := i + 1;
    }
    ListEnd(m, s.list);
  }

  lemma ListParts(m: Mem, s: Skb)
    requires Ok(m, s)
    ensures ListOk(m, s.list) && s.list[0..] == s.list
  {
  }

  lemma ListEnd(m: Mem, l: seq<Skb>)
    ensures l[|l|..] == [] && ListFlat(m, []) == []
  {
  }
}
