/**
  A packet buffer as data: a linear part, page fragments, and a list of further buffers
  (`frag_list`).  The bytes of a fragment live in a page; `Flat` is the packet that the layout
  stands for.
 */
module SkbData {
  type byte = x: int | 0 <= x < 256

  /** Page contents, by page number. */
  type Mem = map<nat, seq<byte>>

  datatype Frag = Frag(page: nat, off: nat, size: nat)

  datatype Skb = Skb(lin: seq<byte>, frags: seq<Frag>, list: seq<Skb>)

  /** 65536 / PAGE_SIZE + 1 with 4096-byte pages. */
  const MAX_SKB_FRAGS: int := 17

  predicate FragOk(m: Mem, f: Frag) {
    f.page in m && f.off + f.size <= |m[f.page]|
  }

  predicate FragsOk(m: Mem, fs: seq<Frag>) {
    forall i :: 0 <= i < |fs| ==> FragOk(m, fs[i])
  }

  predicate Ok(m: Mem, s: Skb) {
    FragsOk(m, s.frags) && ListOk(m, s.list)
  }

  predicate ListOk(m: Mem, l: seq<Skb>) {
    l != [] ==> Ok(m, l[0]) && ListOk(m, l[1..])
  }

  /** Every fragment array is within its fixed size. */
  predicate Fits(s: Skb) {
    |s.frags| <= MAX_SKB_FRAGS && ListFits(s.list)
  }

  predicate ListFits(l: seq<Skb>) {
    l != [] ==> Fits(l[0]) && ListFits(l[1..])
  }

  function Bytes(m: Mem, f: Frag): (r: seq<byte>)
    requires FragOk(m, f)
    ensures |r| == f.size
  {
    m[f.page][f.off..f.off + f.size]
  }

  function Sizes(fs: seq<Frag>): nat {
    if fs == [] then 0 else fs[0].size + Sizes(fs[1..])
  }

  function Len(s: Skb): nat {
    |s.lin| + Sizes(s.frags) + ListLen(s.list)
  }

  function ListLen(l: seq<Skb>): nat {
    if l == [] then 0 else Len(l[0]) + ListLen(l[1..])
  }

  function FragsFlat(m: Mem, fs: seq<Frag>): (r: seq<byte>)
    requires FragsOk(m, fs)
    ensures |r| == Sizes(fs)
  {
    if fs == [] then [] else Bytes(m, fs[0]) + FragsFlat(m, fs[1..])
  }

  function Flat(m: Mem, s: Skb): (r: seq<byte>)
    requires Ok(m, s)
    ensures |r| == Len(s)
  {
    s.lin + (FragsFlat(m, s.frags) + ListFlat(m, s.list))
  }

  function ListFlat(m: Mem, l: seq<Skb>): (r: seq<byte>)
    requires ListOk(m, l)
    ensures |r| == ListLen(l)
  {
    if l == [] then [] else Flat(m, l[0]) + ListFlat(m, l[1..])
  }

  // ---------------------------------------------------------------------------------------
  // Slices of concatenations.

  lemma SliceOfSlice<T>(s: seq<T>, a: nat, b: nat, i: nat, j: nat)
    requires a <= b <= |s| && i <= j <= b - a
    ensures s[a..b][i..j] == s[a + i..a + j]
  {
    var l, r := s[a..b][i..j], s[a + i..a + j];
    assert |l| == |r| == j - i;
    forall k | 0 <= k < j - i
      ensures l[k] == r[k]
    {
      assert l[k] == s[a..b][i + k] == s[a + i + k];
    }
  }

  lemma SliceLeft<T>(a: seq<T>, b: seq<T>, i: nat, j: nat)
    requires i <= j <= |a|
    ensures (a + b)[i..j] == a[i..j]
  {
  }

  lemma SliceRight<T>(a: seq<T>, b: seq<T>, i: nat, j: nat)
    requires |a| <= i <= j <= |a| + |b|
    ensures (a + b)[i..j] == b[i - |a|..j - |a|]
  {
  }

  lemma DropConcat<T>(a: seq<T>, b: seq<T>, n: nat)
    requires n <= |a| + |b|
    ensures (a + b)[n..] == if n <= |a| then a[n..] + b else b[n - |a|..]
  {
  }

  /** A slice goes over the boundary between `a` and `b` as the source loops do: what lies in
      `a` first, then the remaining length from the start of `b`. */
  lemma SliceSplit<T>(a: seq<T>, b: seq<T>, i: nat, n: nat)
    requires i <= |a| && i + n <= |a| + |b|
    ensures var c := if |a| - i < n then |a| - i else n;
      (a + b)[i..i + n] == a[i..i + c] + b[..n - c]
  {
  }

  /** A loop has produced `done` of `all`; `rest` comes out of what it has not yet seen. */
  ghost predicate Joined<T>(done: seq<T>, rest: seq<T>, all: seq<T>) {
    done + rest == all
  }

  lemma JoinedStep<T>(done: seq<T>, x: seq<T>, rest: seq<T>, all: seq<T>)
    requires Joined(done, x + rest, all)
    ensures Joined(done + x, rest, all)
  {
    assert done + x + rest == done + (x + rest);
  }

  lemma JoinedStart<T>(all: seq<T>)
    ensures Joined([], all, all)
  {
  }

  lemma JoinedEnd<T>(done: seq<T>, all: seq<T>)
    requires Joined(done, [], all)
    ensures done == all
  {
    assert done + [] == done;
  }

  // ---------------------------------------------------------------------------------------
  // Fragment lists.

  lemma {:induction false} SizesConcat(a: seq<Frag>, b: seq<Frag>)
    ensures Sizes(a + b) == Sizes(a) + Sizes(b)
  {
    if a == [] {
      assert a + b == b;
    } else {
      assert (a + b)[1..] == a[1..] + b;
      SizesConcat(a[1..], b);
    }
  }

  lemma {:induction false} FragsFlatConcat(m: Mem, a: seq<Frag>, b: seq<Frag>)
    requires FragsOk(m, a) && FragsOk(m, b)
    ensures FragsFlat(m, a + b) == FragsFlat(m, a) + FragsFlat(m, b)
  {
    if a == [] {
      assert a + b == b;
    } else {
      assert (a + b)[1..] == a[1..] + b && (a + b)[0] == a[0];
      FragsFlatConcat(m, a[1..], b);
      assert Bytes(m, a[0]) + (FragsFlat(m, a[1..]) + FragsFlat(m, b))
          == Bytes(m, a[0]) + FragsFlat(m, a[1..]) + FragsFlat(m, b);
    }
  }

  lemma OneFragFlat(m: Mem, f: Frag)
    requires FragOk(m, f)
    ensures FragsOk(m, [f]) && FragsFlat(m, [f]) == Bytes(m, f)
  {
    assert Bytes(m, f) + [] == Bytes(m, f);
  }

  lemma FragsOkConcat(m: Mem, a: seq<Frag>, b: seq<Frag>)
    requires FragsOk(m, a) && FragsOk(m, b)
    ensures FragsOk(m, a + b)
  {
  }

  function Advance(f: Frag, n: nat): Frag
    requires n <= f.size
  {
    Frag(f.page, f.off + n, f.size - n)
  }

  function Cut(f: Frag, n: nat): Frag
    requires n <= f.size
  {
    f.(size := n)
  }

  lemma CutBytes(m: Mem, f: Frag, n: nat)
    requires FragOk(m, f) && n <= f.size
    ensures Bytes(m, Advance(f, n)) == Bytes(m, f)[n..]
    ensures Bytes(m, Cut(f, n)) == Bytes(m, f)[..n]
  {
    SliceOfSlice(m[f.page], f.off, f.off + f.size, n, f.size);
    SliceOfSlice(m[f.page], f.off, f.off + f.size, 0, n);
    assert Bytes(m, f)[n..f.size] == Bytes(m, f)[n..] && Bytes(m, f)[0..n] == Bytes(m, f)[..n];
  }

  /** The fragments without their first `n` bytes; consumed and empty ones are gone. */
  function DropBytes(fs: seq<Frag>, n: nat): seq<Frag> {
    if fs == [] then []
    else if fs[0].size <= n then DropBytes(fs[1..], n - fs[0].size)
    else [Advance(fs[0], n)] + DropBytes(fs[1..], 0)
  }

  /** The first `n` bytes: whole fragments, then one cut to what is missing. */
  function TakeBytes(fs: seq<Frag>, n: nat): seq<Frag>
    requires n <= Sizes(fs)
  {
    if fs == [] then []
    else if fs[0].size < n then [fs[0]] + TakeBytes(fs[1..], n - fs[0].size)
    else [Cut(fs[0], n)]
  }

  lemma {:induction false} DropBytesFlat(m: Mem, fs: seq<Frag>, n: nat)
    requires FragsOk(m, fs) && n <= Sizes(fs)
    ensures FragsOk(m, DropBytes(fs, n))
    ensures FragsFlat(m, DropBytes(fs, n)) == FragsFlat(m, fs)[n..]
  {
    if fs == [] {
    } else {
      var b, rest := Bytes(m, fs[0]), FragsFlat(m, fs[1..]);
      DropConcat(b, rest, n);
      if fs[0].size <= n {
        DropBytesFlat(m, fs[1..], n - fs[0].size);
      } else {
        DropBytesFlat(m, fs[1..], 0);
        CutBytes(m, fs[0], n);
        var d := DropBytes(fs, n);
        assert d[0] == Advance(fs[0], n) && d[1..] == DropBytes(fs[1..], 0);
      }
    }
  }

  lemma {:induction false} TakeBytesFlat(m: Mem, fs: seq<Frag>, n: nat)
    requires FragsOk(m, fs) && n <= Sizes(fs)
    ensures FragsOk(m, TakeBytes(fs, n))
    ensures FragsFlat(m, TakeBytes(fs, n)) == FragsFlat(m, fs)[..n]
  {
    if fs == [] {
    } else {
      var b, rest, t := Bytes(m, fs[0]), FragsFlat(m, fs[1..]), TakeBytes(fs, n);
      if fs[0].size < n {
        TakeBytesFlat(m, fs[1..], n - fs[0].size);
        assert t[0] == fs[0] && t[1..] == TakeBytes(fs[1..], n - fs[0].size);
        assert (b + rest)[..n] == b + rest[..n - |b|];
      } else {
        CutBytes(m, fs[0], n);
        assert t[1..] == [];
        assert (b + rest)[..n] == b[..n];
      }
    }
  }

  lemma {:induction false} DropBytesSize(fs: seq<Frag>, n: nat)
    ensures Sizes(DropBytes(fs, n)) == if n <= Sizes(fs) then Sizes(fs) - n else 0
    ensures |DropBytes(fs, n)| <= |fs|
  {
    if fs == [] {
    } else {
      if fs[0].size <= n {
        DropBytesSize(fs[1..], n - fs[0].size);
      } else {
        DropBytesSize(fs[1..], 0);
        assert DropBytes(fs, n)[1..] == DropBytes(fs[1..], 0);
      }
    }
  }

  lemma {:induction false} TakeBytesSize(fs: seq<Frag>, n: nat)
    requires n <= Sizes(fs)
    ensures Sizes(TakeBytes(fs, n)) == n
    ensures |TakeBytes(fs, n)| <= |fs|
  {
    if fs == [] {
    } else {
      var t := TakeBytes(fs, n);
      if fs[0].size < n {
        TakeBytesSize(fs[1..], n - fs[0].size);
        assert t[1..] == TakeBytes(fs[1..], n - fs[0].size);
      } else {
        assert t[1..] == [];
      }
    }
  }
}
