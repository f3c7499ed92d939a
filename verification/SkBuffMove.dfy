/**
  Moving bytes between two buffers: skb_split and skb_shift.  Neither copies paged bytes, so
  what they do is stated for any page contents `m`.
 */
module SkBuffMove {
  import opened SkbData
  import opened SkbLayout
  import opened SkBuff

  /** The fragments that stay in front of byte `n`. */
  function SplitLeft(fs: seq<Frag>, n: nat): seq<Frag> {
    if fs == [] then []
    else if fs[0].size <= n then [fs[0]] + SplitLeft(fs[1..], n - fs[0].size)
    else if n > 0 then [Cut(fs[0], n)]
    else []
  }

  /** The fragments from byte `n` on. */
  function SplitRight(fs: seq<Frag>, n: nat): seq<Frag> {
    if fs == [] then []
    else if fs[0].size <= n then SplitRight(fs[1..], n - fs[0].size)
    else [Advance(fs[0], n)] + fs[1..]
  }

  // Pulling, trimming, splitting and shifting cut a list of fragments in the same place; they
  // differ in what becomes of empty fragments.  `DropBytes(fs, 0)` is `fs` without these.

  lemma {:induction false} SplitAgrees(fs: seq<Frag>, n: nat)
    requires n <= Sizes(fs)
    ensures DropBytes(SplitLeft(fs, n), 0) == DropBytes(TakeBytes(fs, n), 0)
    ensures DropBytes(SplitRight(fs, n), 0) == DropBytes(fs, n)
    ensures |SplitLeft(fs, n)| <= |fs| && |SplitRight(fs, n)| <= |fs|
  {
    if fs == [] {
    } else if fs[0].size <= n {
      SplitAgrees(fs[1..], n - fs[0].size);
      DropFirst(fs[0], SplitLeft(fs[1..], n - fs[0].size));
      if fs[0].size < n {
        DropFirst(fs[0], TakeBytes(fs[1..], n - fs[0].size));
      } else {
        NothingTaken(fs[1..]);
        DropFirst(fs[0], []);
      }
    } else {
      DropFirst(Advance(fs[0], n), fs[1..]);
      DropFirst(Cut(fs[0], n), []);
    }
  }

  lemma DropFirst(f: Frag, fs: seq<Frag>)
    ensures DropBytes([f] + fs, 0) == (if f.size == 0 then [] else [f]) + DropBytes(fs, 0)
  {
    assert ([f] + fs)[1..] == fs;
    assert [f] + [] == [f];
  }

  lemma {:induction false} NothingTaken(fs: seq<Frag>)
    ensures DropBytes(SplitLeft(fs, 0), 0) == [] && DropBytes(TakeBytes(fs, 0), 0) == []
  {
    if fs == [] {
    } else {
      DropFirst(Cut(fs[0], 0), []);
      if fs[0].size == 0 {
        NothingTaken(fs[1..]);
        DropFirst(fs[0], SplitLeft(fs[1..], 0));
      }
    }
  }

  lemma {:induction false} SplitOk(m: Mem, fs: seq<Frag>, n: nat)
    requires FragsOk(m, fs)
    ensures FragsOk(m, SplitLeft(fs, n)) && FragsOk(m, SplitRight(fs, n))
  {
    if fs == [] {
    } else if fs[0].size <= n {
      SplitOk(m, fs[1..], n - fs[0].size);
    } else {
    }
  }

  /** Lists that differ in empty fragments only stand for the same bytes. */
  lemma SameBytes(m: Mem, a: seq<Frag>, b: seq<Frag>)
    requires FragsOk(m, a) && FragsOk(m, b) && DropBytes(a, 0) == DropBytes(b, 0)
    ensures FragsFlat(m, a) == FragsFlat(m, b)
  {
    DropBytesFlat(m, a, 0);
    DropBytesFlat(m, b, 0);
    assert FragsFlat(m, a)[0..] == FragsFlat(m, a) && FragsFlat(m, b)[0..] == FragsFlat(m, b);
  }

  lemma SameSizes(a: seq<Frag>, b: seq<Frag>)
    requires DropBytes(a, 0) == DropBytes(b, 0)
    ensures Sizes(a) == Sizes(b)
  {
    DropBytesSize(a, 0);
    DropBytesSize(b, 0);
  }

  lemma {:induction false} DropTwice(fs: seq<Frag>, n: nat)
    ensures DropBytes(DropBytes(fs, n), 0) == DropBytes(fs, n)
  {
    if fs == [] {
    } else if fs[0].size <= n {
      DropTwice(fs[1..], n - fs[0].size);
    } else {
      DropTwice(fs[1..], 0);
      DropFirst(Advance(fs[0], n), DropBytes(fs[1..], 0));
    }
  }

  lemma SplitFlat(m: Mem, fs: seq<Frag>, n: nat)
    requires FragsOk(m, fs) && n <= Sizes(fs)
    ensures FragsOk(m, SplitLeft(fs, n)) && FragsOk(m, SplitRight(fs, n))
    ensures FragsFlat(m, SplitLeft(fs, n)) == FragsFlat(m, fs)[..n]
    ensures FragsFlat(m, SplitRight(fs, n)) == FragsFlat(m, fs)[n..]
  {
    hide *;
    SplitOk(m, fs, n);
    SplitAgrees(fs, n);
    TakeBytesFlat(m, fs, n);
    DropBytesFlat(m, fs, n);
    DropTwice(fs, n);
    SameBytes(m, SplitLeft(fs, n), TakeBytes(fs, n));
    SameBytes(m, SplitRight(fs, n), DropBytes(fs, n));
  }

  lemma SplitSizes(fs: seq<Frag>, n: nat)
    requires n <= Sizes(fs)
    ensures Sizes(SplitLeft(fs, n)) == n && Sizes(SplitRight(fs, n)) == Sizes(fs) - n
    ensures |SplitLeft(fs, n)| <= |fs| && |SplitRight(fs, n)| <= |fs|
  {
    hide *;
    SplitAgrees(fs, n);
    TakeBytesSize(fs, n);
    DropBytesSize(fs, n);
    DropTwice(fs, n);
    SameSizes(SplitLeft(fs, n), TakeBytes(fs, n));
    SameSizes(SplitRight(fs, n), DropBytes(fs, n));
  }

  /** What is still to be put left and right when `pos` bytes have been passed. */
  ghost function LeftFrom(fs: seq<Frag>, n: nat, pos: nat): seq<Frag> {
    if pos <= n then SplitLeft(fs, n - pos) else []
  }

  ghost function RightFrom(fs: seq<Frag>, n: nat, pos: nat): seq<Frag> {
    if pos <= n then SplitRight(fs, n - pos) else fs
  }

  /** What one fragment adds on either side. */
  function ToLeft(f: Frag, n: nat, pos: nat): seq<Frag> {
    if pos + f.size <= n then [f] else if pos < n then [Cut(f, n - pos)] else []
  }

  function ToRight(f: Frag, n: nat, pos: nat): seq<Frag> {
    if pos + f.size <= n then [] else [if pos < n then Advance(f, n - pos) else f]
  }

  lemma SplitStep(fs: seq<Frag>, i: nat, n: nat, pos: nat)
    requires i < |fs|
    ensures LeftFrom(fs[i..], n, pos) == ToLeft(fs[i], n, pos) + LeftFrom(fs[i + 1..], n, pos + fs[i].size)
    ensures RightFrom(fs[i..], n, pos) == ToRight(fs[i], n, pos) + RightFrom(fs[i + 1..], n, pos + fs[i].size)
  {
    assert fs[i..][1..] == fs[i + 1..];
    assert fs[i..] == [fs[i]] + fs[i + 1..];
  }

  /** `l` and `r` are the two sides after the first `i` fragments, which hold `pos` bytes. */
  ghost predicate SplitSoFar(l: seq<Frag>, r: seq<Frag>, fs: seq<Frag>, i: nat, n: nat, pos: nat)
    requires i <= |fs|
  {
    && Joined(l, LeftFrom(fs[i..], n, pos), SplitLeft(fs, n))
    && Joined(r, RightFrom(fs[i..], n, pos), SplitRight(fs, n))
  }

  lemma SplitNext(l: seq<Frag>, r: seq<Frag>, fs: seq<Frag>, i: nat, n: nat, pos: nat)
    requires i < |fs| && SplitSoFar(l, r, fs, i, n, pos)
    ensures SplitSoFar(l + ToLeft(fs[i], n, pos), r + ToRight(fs[i], n, pos), fs, i + 1, n, pos + fs[i].size)
  {
    SplitStep(fs, i, n, pos);
    hide LeftFrom, RightFrom, ToLeft, ToRight, SplitLeft, SplitRight, Joined;
    JoinedStep(l, ToLeft(fs[i], n, pos), LeftFrom(fs[i + 1..], n, pos + fs[i].size), SplitLeft(fs, n));
    JoinedStep(r, ToRight(fs[i], n, pos), RightFrom(fs[i + 1..], n, pos + fs[i].size), SplitRight(fs, n));
  }

  lemma SplitEnd(skb: Buffer, skb1: Buffer, fs: seq<Frag>, n: nat, i: nat, pos: nat, nr: nat, k: nat)
    requires Splitting(skb, skb1, fs, n, i, pos, nr, k) && i == |fs|
    ensures nr <= MAX_SKB_FRAGS && k <= MAX_SKB_FRAGS && skb.frags.Length == skb1.frags.Length == MAX_SKB_FRAGS
    ensures skb.frags[..nr] == SplitLeft(fs, n) && skb1.frags[..k] == SplitRight(fs, n)
  {
    assert fs[i..] == [];
    JoinedEnd(skb.frags[..nr], SplitLeft(fs, n));
    JoinedEnd(skb1.frags[..k], SplitRight(fs, n));
  }

  /** Where that loop stands: `i` of the fragments `fs` have been passed, which hold `pos` bytes;
      the left side is in the first `nr` places of `skb`, the right one in the first `k` of `skb1`. */
  ghost predicate Splitting(skb: Buffer, skb1: Buffer, fs: seq<Frag>, n: nat, i: nat, pos: nat, nr: nat, k: nat)
    reads skb.frags, skb1.frags
  {
    && skb.frags.Length == skb1.frags.Length == MAX_SKB_FRAGS && nr <= i <= |fs| <= MAX_SKB_FRAGS && k <= i
    && (pos <= n ==> nr == i && k == 0)
    && (forall j :: i <= j < |fs| ==> skb.frags[j] == fs[j])
    && SplitSoFar(skb.frags[..nr], skb1.frags[..k], fs, i, n, pos)
  }

  lemma SplitStart(skb: Buffer, skb1: Buffer, fs: seq<Frag>, n: nat)
    requires skb.frags.Length == skb1.frags.Length == MAX_SKB_FRAGS && |fs| <= MAX_SKB_FRAGS && skb.frags[..|fs|] == fs
    ensures Splitting(skb, skb1, fs, n, 0, 0, 0, 0)
  {
    assert fs[0..] == fs && skb.frags[..0] == [] && skb1.frags[..0] == [];
    assert forall x: seq<Frag> :: [] + x == x;
  }

  /** The fragment loop of skb_split_no_header. */
  method SplitPages(skb: Buffer, skb1: Buffer, n: nat)
    requires skb.frags != skb1.frags && skb != skb1
    requires skb.frags.Length == skb1.frags.Length == MAX_SKB_FRAGS && skb.nrFrags <= MAX_SKB_FRAGS
    modifies skb`nrFrags, skb.frags, skb1`nrFrags, skb1.frags
    ensures skb.nrFrags <= MAX_SKB_FRAGS && skb1.nrFrags <= MAX_SKB_FRAGS
    ensures skb.frags[..skb.nrFrags] == SplitLeft(old(skb.frags[..skb.nrFrags]), n)
    ensures skb1.frags[..skb1.nrFrags] == SplitRight(old(skb.frags[..skb.nrFrags]), n)
  {
    hide *;
    ghost var fs := skb.frags[..skb.nrFrags];
    var nfrags, nr: nat, k: nat, pos: nat, i: nat := skb.nrFrags, 0, 0, 0, 0;
    SplitStart(skb, skb1, fs, n);
    while i < nfrags
      invariant i <= nfrags == |fs| && Splitting(skb, skb1, fs, n, i, pos, nr, k)
      modifies skb.frags, skb1.frags
    {
      nr, k, pos := SplitFrag(skb, skb1, fs, n, i, pos, nr, k);
      i := i + 1;
    }
    SplitEnd(skb, skb1, fs, n, i, pos, nr, k);
    skb.nrFrags := nr;
    skb1.nrFrags := k;
  }

  /** One turn of that loop. */
  method SplitFrag(skb: Buffer, skb1: Buffer, ghost fs: seq<Frag>, n: nat, i: nat, pos: nat, nr: nat, k: nat)
      returns (nr': nat, k': nat, pos': nat)
    requires skb.frags != skb1.frags && i < |fs| && Splitting(skb, skb1, fs, n, i, pos, nr, k)
    modifies skb.frags, skb1.frags
    ensures Splitting(skb, skb1, fs, n, i + 1, pos', nr', k')
  {
    hide SplitSoFar, Joined, LeftFrom, RightFrom, SplitLeft, SplitRight;
    ghost var l, r := skb.frags[..nr], skb1.frags[..k];
    SplitNext(l, r, fs, i, n, pos);
    nr', k' := nr, k;
    var f := skb.frags[i];
    if pos + f.size > n {
      skb1.frags[k] := f;
      if pos < n {
        skb1.frags[0] := Advance(f, n - pos);
        skb.frags[i] := Cut(f, n - pos);
        nr' := nr' + 1;
      }
      k' := k' + 1;
    } else {
      nr' := nr' + 1;
    }
    pos' := pos + f.size;
    assert skb.frags[..nr'] == l + ToLeft(f, n, pos) && skb1.frags[..k'] == r + ToRight(f, n, pos);
  }

  /** skb_split: `skb1`, empty before, receives everything from byte `n` on. */
  method Split(skb: Buffer, skb1: Buffer, n: nat)
    requires skb != skb1 && skb.frags != skb1.frags && skb.Valid() && skb1.Valid()
    requires skb.list == [] && skb1.Abs() == Skb([], [], []) && n <= skb.len
    modifies skb, skb.frags, skb1, skb1.frags
    ensures skb.Valid() && skb1.Valid() && skb.len == n && skb1.len == old(skb.len) - n
    ensures skb.Abs() == SplitLower(old(skb.Abs()), n) && skb1.Abs() == SplitUpper(old(skb.Abs()), n)
    ensures BytesCut(old(skb.Abs()), skb.Abs(), skb1.Abs(), n)
  {
    hide BytesCut;
    SplitCutsBytes(skb.Abs(), n);
    var pos := |skb.lin|;
    if n < pos {
      SplitInsideHeader(skb, skb1, n, pos);
    } else {
      SplitSizes(skb.frags[..skb.nrFrags], n - pos);
      SplitPages(skb, skb1, n - pos);
      skb1.len, skb1.dataLen := skb.len - n, skb.len - n;
      skb.len := n;
      skb.dataLen := n - pos;
    }
  }

  method SplitInsideHeader(skb: Buffer, skb1: Buffer, n: nat, pos: nat)
    requires skb != skb1 && skb.frags != skb1.frags && skb.Valid() && skb1.Valid()
    requires skb.list == [] && skb1.Abs() == Skb([], [], []) && n < pos == |skb.lin|
    modifies skb, skb1, skb1.frags
    ensures skb.Valid() && skb1.Valid() && skb.len == n && skb1.len == old(skb.len) - n
    ensures skb.Abs() == Skb(old(skb.lin[..n]), [], [])
    ensures skb1.Abs() == Skb(old(skb.lin[n..]), old(skb.frags[..skb.nrFrags]), [])
  {
    skb1.lin := skb1.lin + skb.lin[n..pos];
    skb1.len := skb1.len + (pos - n);
    var i := 0;
    while i < skb.nrFrags
      invariant 0 <= i <= skb.nrFrags && skb1.frags[..i] == skb.frags[..i]
      modifies skb1.frags
    {
      skb1.frags[i] := skb.frags[i];
      i := i + 1;
    }
    skb1.nrFrags := skb.nrFrags;
    skb.nrFrags := 0;
    skb1.dataLen := skb.dataLen;
    skb1.len := skb1.len + skb1.dataLen;
    skb.dataLen := 0;
    skb.len := n;
    skb.lin := skb.lin[..n];
  }

  function SplitLower(s: Skb, n: nat): Skb {
    if n < |s.lin| then Skb(s.lin[..n], [], []) else Skb(s.lin, SplitLeft(s.frags, n - |s.lin|), [])
  }

  function SplitUpper(s: Skb, n: nat): Skb {
    if n < |s.lin| then Skb(s.lin[n..], s.frags, []) else Skb([], SplitRight(s.frags, n - |s.lin|), [])
  }

  /** The two halves of a split are the bytes before and from `n`; nothing is lost or doubled. */
  lemma SplitCuts(m: Mem, s: Skb, n: nat)
    requires Ok(m, s) && s.list == [] && n <= Len(s)
    ensures Ok(m, SplitLower(s, n)) && Ok(m, SplitUpper(s, n))
    ensures Flat(m, SplitLower(s, n)) == Flat(m, s)[..n] && Flat(m, SplitUpper(s, n)) == Flat(m, s)[n..]
  {
    var f := FragsFlat(m, s.frags);
    assert f + ListFlat(m, []) == f;
    TakeConcat(s.lin, f, n);
    DropConcat(s.lin, f, n);
    if n >= |s.lin| {
      SplitFlat(m, s.frags, n - |s.lin|);
      assert n == |s.lin| ==> s.lin[..n] == s.lin && s.lin[n..] == [] && f[..0] == [];
    }
  }

  /** Whatever the pages contain, `a` and `b` stand for the bytes of `s` before and from `n`. */
  ghost predicate BytesCut(s: Skb, a: Skb, b: Skb, n: nat) {
    && n <= Len(s)
    && forall m: Mem :: Ok(m, s) ==>
      Ok(m, a) && Ok(m, b) && Flat(m, a) == Flat(m, s)[..n] && Flat(m, b) == Flat(m, s)[n..]
  }

  lemma SplitCutsBytes(s: Skb, n: nat)
    requires s.list == [] && n <= Len(s)
    ensures BytesCut(s, SplitLower(s, n), SplitUpper(s, n), n)
  {
    forall m: Mem | Ok(m, s)
      ensures var a, b := SplitLower(s, n), SplitUpper(s, n);
        Ok(m, a) && Ok(m, b) && Flat(m, a) == Flat(m, s)[..n] && Flat(m, b) == Flat(m, s)[n..]
    {
      SplitCuts(m, s, n);
    }
  }

  // ---------------------------------------------------------------------------------------
  // Shifting.

  /** skb_can_coalesce: `f` continues the last fragment of `fs` in the same page. */
  predicate CanCoalesce(fs: seq<Frag>, f: Frag) {
    fs != [] && var l := fs[|fs| - 1]; l.page == f.page && f.off == l.off + l.size
  }

  function Grow(f: Frag, n: nat): Frag {
    f.(size := f.size + n)
  }

  /** The fragments `to` with the bytes of `x`, which continue its last one, appended in place. */
  function GrowLast(to: seq<Frag>, n: nat): seq<Frag>
    requires to != []
  {
    to[|to| - 1 := Grow(to[|to| - 1], n)]
  }

  lemma GrowLastFlat(m: Mem, to: seq<Frag>, f: Frag, n: nat)
    requires FragsOk(m, to) && FragOk(m, f) && CanCoalesce(to, f) && n <= f.size
    ensures FragsOk(m, GrowLast(to, n))
    ensures FragsFlat(m, GrowLast(to, n)) == FragsFlat(m, to) + Bytes(m, f)[..n]
  {
    hide FragsFlat;
    var k := |to| - 1;
    var l := to[k];
    var g := Grow(l, n);
    assert to == to[..k] + [l] && GrowLast(to, n) == to[..k] + [g];
    FragsFlatConcat(m, to[..k], [l]);
    FragsFlatConcat(m, to[..k], [g]);
    GrownBytes(m, l, f, n);
    OneFragFlat(m, l);
    OneFragFlat(m, g);
    Concat3(FragsFlat(m, to[..k]), Bytes(m, l), Bytes(m, f)[..n]);
  }

  lemma GrownBytes(m: Mem, l: Frag, f: Frag, n: nat)
    requires FragOk(m, l) && FragOk(m, f) && n <= f.size && l.page == f.page && f.off == l.off + l.size
    ensures FragOk(m, Grow(l, n)) && Bytes(m, Grow(l, n)) == Bytes(m, l) + Bytes(m, f)[..n]
  {
  }

  /** The fragments moved when `t` bytes are taken off the front of `fs`, the last one cut. */
  function TakeShift(fs: seq<Frag>, t: nat): seq<Frag> {
    if t == 0 || fs == [] then []
    else if t >= fs[0].size then [fs[0]] + TakeShift(fs[1..], t - fs[0].size)
    else [Cut(fs[0], t)]
  }

  /** The fragments that stay. */
  function DropShift(fs: seq<Frag>, t: nat): seq<Frag> {
    if t == 0 || fs == [] then fs
    else if t >= fs[0].size then DropShift(fs[1..], t - fs[0].size)
    else [Advance(fs[0], t)] + fs[1..]
  }

  lemma {:induction false} ShiftAgrees(fs: seq<Frag>, t: nat)
    requires t <= Sizes(fs)
    ensures DropBytes(TakeShift(fs, t), 0) == DropBytes(TakeBytes(fs, t), 0)
    ensures DropBytes(DropShift(fs, t), 0) == DropBytes(fs, t)
    ensures |DropShift(fs, t)| <= |fs|
  {
    if t == 0 || fs == [] {
      NothingTaken(fs);
    } else if t == fs[0].size {
      assert TakeShift(fs, t) == [fs[0]] && DropShift(fs, t) == fs[1..];
      assert TakeBytes(fs, t) == [fs[0]] && DropBytes(fs, t) == DropBytes(fs[1..], 0);
    } else if t > fs[0].size {
      var k := t - fs[0].size;
      ShiftAgrees(fs[1..], k);
      assert TakeShift(fs, t) == [fs[0]] + TakeShift(fs[1..], k) && TakeBytes(fs, t) == [fs[0]] + TakeBytes(fs[1..], k);
      DropFirst(fs[0], TakeShift(fs[1..], k));
      DropFirst(fs[0], TakeBytes(fs[1..], k));
    } else {
      DropFirst(Advance(fs[0], t), fs[1..]);
      DropFirst(Cut(fs[0], t), []);
    }
  }

  lemma {:induction false} ShiftOk(m: Mem, fs: seq<Frag>, t: nat)
    requires FragsOk(m, fs)
    ensures FragsOk(m, TakeShift(fs, t)) && FragsOk(m, DropShift(fs, t))
  {
    if t == 0 || fs == [] {
    } else if t >= fs[0].size {
      ShiftOk(m, fs[1..], t - fs[0].size);
    } else {
    }
  }

  lemma ShiftFlat(m: Mem, fs: seq<Frag>, t: nat)
    requires FragsOk(m, fs) && t <= Sizes(fs)
    ensures FragsOk(m, TakeShift(fs, t)) && FragsOk(m, DropShift(fs, t))
    ensures FragsFlat(m, TakeShift(fs, t)) == FragsFlat(m, fs)[..t]
    ensures FragsFlat(m, DropShift(fs, t)) == FragsFlat(m, fs)[t..]
  {
    hide *;
    ShiftOk(m, fs, t);
    ShiftAgrees(fs, t);
    TakeBytesFlat(m, fs, t);
    DropBytesFlat(m, fs, t);
    DropTwice(fs, t);
    SameBytes(m, TakeShift(fs, t), TakeBytes(fs, t));
    SameBytes(m, DropShift(fs, t), DropBytes(fs, t));
  }

  lemma ShiftSizes(fs: seq<Frag>, t: nat)
    requires t <= Sizes(fs)
    ensures Sizes(TakeShift(fs, t)) == t && Sizes(DropShift(fs, t)) == Sizes(fs) - t
    ensures |DropShift(fs, t)| <= |fs|
  {
    hide *;
    ShiftAgrees(fs, t);
    TakeBytesSize(fs, t);
    DropBytesSize(fs, t);
    DropTwice(fs, t);
    SameSizes(TakeShift(fs, t), TakeBytes(fs, t));
    SameSizes(DropShift(fs, t), DropBytes(fs, t));
  }

  /** `done` has been moved; fragment `i` of `fs` is next and `t` bytes are to go. */
  ghost predicate ShiftSoFar(done: seq<Frag>, fs: seq<Frag>, i: nat, t: nat, from: nat, n: nat)
    requires i <= |fs| && from <= |fs|
  {
    && Joined(done, TakeShift(fs[i..], t), TakeShift(fs[from..], n))
    && DropShift(fs[i..], t) == DropShift(fs[from..], n)
  }

  lemma ShiftStart(fs: seq<Frag>, from: nat, n: nat)
    requires from <= |fs|
    ensures ShiftSoFar([], fs, from, n, from, n)
  {
  }

  lemma ShiftWhole(done: seq<Frag>, fs: seq<Frag>, i: nat, t: nat, from: nat, n: nat)
    requires i < |fs| && from <= |fs| && ShiftSoFar(done, fs, i, t, from, n) && t > 0 && t >= fs[i].size
    ensures ShiftSoFar(done + [fs[i]], fs, i + 1, t - fs[i].size, from, n)
  {
    assert fs[i..][1..] == fs[i + 1..];
    JoinedStep(done, [fs[i]], TakeShift(fs[i + 1..], t - fs[i].size), TakeShift(fs[from..], n));
  }

  lemma ShiftPart(done: seq<Frag>, fs: seq<Frag>, i: nat, t: nat, from: nat, n: nat)
    requires i < |fs| && from <= |fs| && ShiftSoFar(done, fs, i, t, from, n) && 0 < t < fs[i].size
    ensures done + [Cut(fs[i], t)] == TakeShift(fs[from..], n)
    ensures [Advance(fs[i], t)] + fs[i + 1..] == DropShift(fs[from..], n)
  {
    assert fs[i..][1..] == fs[i + 1..];
  }

  lemma ShiftEnd(done: seq<Frag>, fs: seq<Frag>, i: nat, t: nat, from: nat, n: nat)
    requires i <= |fs| && from <= |fs| && ShiftSoFar(done, fs, i, t, from, n) && (t == 0 || i == |fs|)
    ensures done == TakeShift(fs[from..], n) && fs[i..] == DropShift(fs[from..], n)
  {
    JoinedEnd(done, TakeShift(fs[from..], n));
  }

  /** A fragment that is still to be moved. */
  lemma ShiftMore(done: seq<Frag>, fs: seq<Frag>, i: nat, t: nat, from: nat, n: nat)
    requires i < |fs| && from <= |fs| && ShiftSoFar(done, fs, i, t, from, n) && t > 0
    ensures |done| < |TakeShift(fs[from..], n)|
  {
  }

  method MoveFragPart(tgt: Buffer, skb: Buffer, from: nat, to: nat, t: nat)
    requires tgt.frags != skb.frags && from < skb.nrFrags <= skb.frags.Length
    requires tgt.nrFrags <= to < tgt.frags.Length && t <= skb.frags[from].size
    modifies tgt.frags, skb.frags
    ensures tgt.frags[..tgt.nrFrags] == old(tgt.frags[..tgt.nrFrags])
    ensures tgt.frags[tgt.nrFrags..to + 1] == old(tgt.frags[tgt.nrFrags..to]) + [Cut(old(skb.frags[from]), t)]
    ensures from > 0 ==> skb.frags[0] == old(skb.frags[0])
    ensures skb.frags[from..skb.nrFrags] == [Advance(old(skb.frags[from]), t)] + old(skb.frags[..skb.nrFrags])[from + 1..]
  {
    tgt.frags[to] := Cut(skb.frags[from], t);
    skb.frags[from] := Advance(skb.frags[from], t);
  }

  /** The loop of skb_shift: fragments go to the end of `tgt`, beyond its current count, which
      is raised only by the caller. */
  method MoveFrags(tgt: Buffer, skb: Buffer, from0: nat, n: nat) returns (ok: bool, from: nat, to: nat)
    requires tgt.frags != skb.frags && tgt.frags.Length == skb.frags.Length == MAX_SKB_FRAGS
    requires tgt.nrFrags <= MAX_SKB_FRAGS && from0 <= skb.nrFrags <= MAX_SKB_FRAGS
    modifies tgt.frags, skb.frags
    ensures ok <==> tgt.nrFrags + |TakeShift(old(skb.frags[..skb.nrFrags])[from0..], n)| <= MAX_SKB_FRAGS
    ensures tgt.frags[..tgt.nrFrags] == old(tgt.frags[..tgt.nrFrags])
    ensures !ok ==> skb.frags[..skb.nrFrags] == old(skb.frags[..skb.nrFrags])
    ensures ok ==> tgt.nrFrags <= to <= MAX_SKB_FRAGS && from0 <= from <= skb.nrFrags
    ensures ok && from0 > 0 ==> skb.frags[0] == old(skb.frags[0])
    ensures ok ==> tgt.frags[tgt.nrFrags..to] == TakeShift(old(skb.frags[..skb.nrFrags])[from0..], n)
    ensures ok ==> skb.frags[from..skb.nrFrags] == DropShift(old(skb.frags[..skb.nrFrags])[from0..], n)
  {
    hide *;
    ghost var fs := skb.frags[..skb.nrFrags];
    var todo: nat := n;
    from, to := from0, tgt.nrFrags;
    ShiftStart(fs, from0, n);
    assert tgt.frags[tgt.nrFrags..to] == [];
    while todo > 0 && from < skb.nrFrags
      invariant from0 <= from <= |fs| == skb.nrFrags && tgt.nrFrags <= to <= MAX_SKB_FRAGS
      invariant skb.frags[..skb.nrFrags] == fs
      invariant tgt.frags[..tgt.nrFrags] == old(tgt.frags[..tgt.nrFrags])
      invariant ShiftSoFar(tgt.frags[tgt.nrFrags..to], fs, from, todo, from0, n)
      decreases skb.nrFrags - from
    {
      if to == MAX_SKB_FRAGS {
        ShiftMore(tgt.frags[tgt.nrFrags..to], fs, from, todo, from0, n);
        return false, from, to;
      }
      ghost var done := tgt.frags[tgt.nrFrags..to];
      assert skb.frags[from] == fs[from];
      if todo >= skb.frags[from].size {
        ShiftWhole(done, fs, from, todo, from0, n);
        todo := todo - skb.frags[from].size;
        tgt.frags[to] := skb.frags[from];
        from, to := from + 1, to + 1;
        assert tgt.frags[tgt.nrFrags..to] == done + [fs[from - 1]];
      } else {
        ShiftPart(done, fs, from, todo, from0, n);
        MoveFragPart(tgt, skb, from, to, todo);
        return true, from, to + 1;
      }
    }
    ShiftEnd(tgt.frags[tgt.nrFrags..to], fs, from, todo, from0, n);
    assert skb.frags[from..skb.nrFrags] == fs[from..];
    ok := true;
  }

  /** What a shift of `n` bytes makes of the two fragment lists, `merge` telling whether the
      first fragment continues the last one of `t`. */
  function ShiftedTgt(t: seq<Frag>, s: seq<Frag>, n: nat): seq<Frag>
    requires s != []
  {
    if !CanCoalesce(t, s[0]) then t + TakeShift(s, n)
    else if n < s[0].size then GrowLast(t, n)
    else GrowLast(t, s[0].size) + TakeShift(s[1..], n - s[0].size)
  }

  function ShiftedSkb(t: seq<Frag>, s: seq<Frag>, n: nat): seq<Frag>
    requires s != []
  {
    if !CanCoalesce(t, s[0]) then DropShift(s, n)
    else if n < s[0].size then [Advance(s[0], n)] + s[1..]
    else DropShift(s[1..], n - s[0].size)
  }

  /** Exactly the first `n` bytes move to the end of the target, whether they are copied as
      fragments, cut out of one, or joined to the fragment they continue. */
  lemma ShiftMoves(m: Mem, t: seq<Frag>, s: seq<Frag>, n: nat)
    requires FragsOk(m, t) && FragsOk(m, s) && s != [] && n <= Sizes(s)
    ensures FragsOk(m, ShiftedTgt(t, s, n)) && FragsOk(m, ShiftedSkb(t, s, n))
    ensures FragsFlat(m, ShiftedTgt(t, s, n)) == FragsFlat(m, t) + FragsFlat(m, s)[..n]
    ensures FragsFlat(m, ShiftedSkb(t, s, n)) == FragsFlat(m, s)[n..]
  {
    if !CanCoalesce(t, s[0]) {
      hide TakeShift, DropShift, Sizes;
      ShiftFlat(m, s, n);
      FragsFlatConcat(m, t, TakeShift(s, n));
    } else if n < s[0].size {
      ShiftMovesPart(m, t, s, n);
    } else {
      ShiftMovesWhole(m, t, s, n);
    }
  }

  lemma ShiftMovesPart(m: Mem, t: seq<Frag>, s: seq<Frag>, n: nat)
    requires FragsOk(m, t) && FragsOk(m, s) && s != [] && CanCoalesce(t, s[0]) && n < s[0].size
    ensures var y := [Advance(s[0], n)] + s[1..];
      && FragsOk(m, GrowLast(t, n)) && FragsOk(m, y)
      && FragsFlat(m, GrowLast(t, n)) == FragsFlat(m, t) + FragsFlat(m, s)[..n]
      && FragsFlat(m, y) == FragsFlat(m, s)[n..]
  {
    var b, rest := Bytes(m, s[0]), FragsFlat(m, s[1..]);
    TakeConcat(b, rest, n);
    DropConcat(b, rest, n);
    GrowLastFlat(m, t, s[0], n);
    CutBytes(m, s[0], n);
    hide GrowLast;
    var y := [Advance(s[0], n)] + s[1..];
    assert y[0] == Advance(s[0], n) && y[1..] == s[1..];
  }

  lemma ShiftMovesWhole(m: Mem, t: seq<Frag>, s: seq<Frag>, n: nat)
    requires FragsOk(m, t) && FragsOk(m, s) && s != [] && CanCoalesce(t, s[0]) && s[0].size <= n <= Sizes(s)
    ensures var x, y := GrowLast(t, s[0].size) + TakeShift(s[1..], n - s[0].size), DropShift(s[1..], n - s[0].size);
      && FragsOk(m, x) && FragsOk(m, y)
      && FragsFlat(m, x) == FragsFlat(m, t) + FragsFlat(m, s)[..n]
      && FragsFlat(m, y) == FragsFlat(m, s)[n..]
  {
    hide GrowLast, TakeShift, DropShift, Bytes;
    var b, rest, k := Bytes(m, s[0]), FragsFlat(m, s[1..]), n - s[0].size;
    assert FragsFlat(m, s) == b + rest && |b| == s[0].size && Sizes(s) == s[0].size + Sizes(s[1..]);
    hide FragsFlat, Sizes;
    TakeSplit(FragsFlat(m, t), b, rest, k);
    GrowLastFlat(m, t, s[0], s[0].size);
    assert b[..|b|] == b;
    ShiftFlat(m, s[1..], k);
    FragsFlatConcat(m, GrowLast(t, s[0].size), TakeShift(s[1..], k));
  }

  lemma TakeSplit<T>(a: seq<T>, b: seq<T>, c: seq<T>, k: nat)
    requires k <= |c|
    ensures (a + b) + c[..k] == a + (b + c)[..|b| + k]
    ensures (b + c)[|b| + k..] == c[k..]
  {
  }

  lemma ShiftedSizes(t: seq<Frag>, s: seq<Frag>, n: nat)
    requires s != [] && n <= Sizes(s)
    ensures Sizes(ShiftedTgt(t, s, n)) == Sizes(t) + n && Sizes(ShiftedSkb(t, s, n)) == Sizes(s) - n
    ensures |ShiftedSkb(t, s, n)| <= |s|
  {
    if !CanCoalesce(t, s[0]) {
      ShiftSizes(s, n);
      SizesConcat(t, TakeShift(s, n));
    } else if n < s[0].size {
      GrowLastSize(t, n);
      assert ShiftedSkb(t, s, n)[1..] == s[1..];
    } else {
      GrowLastSize(t, s[0].size);
      ShiftSizes(s[1..], n - s[0].size);
      SizesConcat(GrowLast(t, s[0].size), TakeShift(s[1..], n - s[0].size));
    }
  }

  lemma GrowLastSize(t: seq<Frag>, n: nat)
    requires t != []
    ensures Sizes(GrowLast(t, n)) == Sizes(t) + n
  {
    var k := |t| - 1;
    assert t == t[..k] + [t[k]] && GrowLast(t, n) == t[..k] + [Grow(t[k], n)];
    SizesConcat(t[..k], [t[k]]);
    SizesConcat(t[..k], [Grow(t[k], n)]);
  }

  /** The bytes to move end inside the first fragment, which continues the last one of `t`. */
  predicate JoinsLast(t: seq<Frag>, s: seq<Frag>, n: nat)
    requires s != []
  {
    CanCoalesce(t, s[0]) && n < s[0].size
  }

  /** The fragments that need a place of their own behind those of `t`. */
  function NewFrags(t: seq<Frag>, s: seq<Frag>, n: nat): seq<Frag>
    requires s != [] && !JoinsLast(t, s, n)
  {
    if CanCoalesce(t, s[0]) then TakeShift(s[1..], n - s[0].size) else TakeShift(s, n)
  }

  /** The early test: all bytes are to be moved, and there are more fragments than places. */
  predicate SkippedEarly(t: seq<Frag>, s: seq<Frag>, n: nat)
    requires s != []
  {
    n == Sizes(s) && |s| - (if CanCoalesce(t, s[0]) then 1 else 0) > MAX_SKB_FRAGS - |t|
  }

  /** When skb_shift moves the bytes, if both buffers can be written to. */
  predicate Shiftable(t: seq<Frag>, s: seq<Frag>, n: nat)
    requires s != []
  {
    JoinsLast(t, s, n) || (!SkippedEarly(t, s, n) && |t| + |NewFrags(t, s, n)| <= MAX_SKB_FRAGS)
  }

  lemma {:induction false} TakeShiftAll(s: seq<Frag>)
    requires forall i :: 0 <= i < |s| ==> s[i].size > 0
    ensures TakeShift(s, Sizes(s)) == s
  {
    if s == [] {
    } else {
      TakeShiftAll(s[1..]);
    }
  }

  /** Without empty fragments the early test only anticipates what the loop would find. */
  lemma EarlyTestIsExact(t: seq<Frag>, s: seq<Frag>, n: nat)
    requires s != [] && forall i :: 0 <= i < |s| ==> s[i].size > 0
    ensures Shiftable(t, s, n) <==> JoinsLast(t, s, n) || |t| + |NewFrags(t, s, n)| <= MAX_SKB_FRAGS
  {
    TakeShiftAll(s);
    TakeShiftAll(s[1..]);
  }

  /** The first `k` fragments, and no fewer, hold the first `n` bytes. */
  ghost predicate HoldFirst(fs: seq<Frag>, n: nat, k: nat) {
    k <= |fs| && n <= Sizes(fs[..k]) && (k > 0 ==> Sizes(fs[..k - 1]) < n)
  }

  lemma HoldFirstTail(fs: seq<Frag>, n: nat, k: nat)
    requires HoldFirst(fs, n, k) && fs != [] && fs[0].size <= n && k > 0
    ensures HoldFirst(fs[1..], n - fs[0].size, k - 1)
  {
    assert fs[..k][1..] == fs[1..][..k - 1];
    if k > 1 {
      assert fs[..k - 1][1..] == fs[1..][..k - 2];
    }
  }

  lemma {:induction false} TakeShiftCount(fs: seq<Frag>, n: nat, k: nat)
    requires HoldFirst(fs, n, k) && forall i :: 0 <= i < |fs| ==> fs[i].size > 0
    ensures |TakeShift(fs, n)| == k
    decreases |fs|
  {
    HoldFirstSize(fs, n, k);
    if n == 0 || fs == [] {
    } else if fs[0].size <= n {
      HoldFirstTail(fs, n, k);
      TakeShiftCount(fs[1..], n - fs[0].size, k - 1);
    } else {
    }
  }

  lemma HoldFirstSize(fs: seq<Frag>, n: nat, k: nat)
    requires HoldFirst(fs, n, k)
    ensures (n == 0 <==> k == 0) && (fs != [] && 0 < n < fs[0].size ==> k == 1)
  {
    assert fs[..0] == [];
    if k > 1 {
      FirstOfSizes(fs, k - 1);
    }
  }

  lemma FirstOfSizes(fs: seq<Frag>, k: nat)
    requires 0 < k <= |fs|
    ensures fs[0].size <= Sizes(fs[..k])
  {
    assert fs[..k][0] == fs[0];
  }

  /** Without empty fragments: the bytes can be moved if and only if the fragments that hold them
      fit behind those of the target, the first one taking no place when it continues the last
      one of the target; and then they take no more. */
  lemma ShiftableIff(t: seq<Frag>, s: seq<Frag>, n: nat, k: nat)
    requires s != [] && |t| <= MAX_SKB_FRAGS && 0 < n && HoldFirst(s, n, k) && forall i :: 0 <= i < |s| ==> s[i].size > 0
    ensures var continues := t != [] && t[|t| - 1].page == s[0].page && s[0].off == t[|t| - 1].off + t[|t| - 1].size;
      var places := |t| + k - if continues then 1 else 0;
      && (Shiftable(t, s, n) <==> places <= MAX_SKB_FRAGS) && |ShiftedTgt(t, s, n)| == places
  {
    EarlyTestIsExact(t, s, n);
    HoldFirstSize(s, n, k);
    TakeShiftCount(s, n, k);
    if s[0].size <= n {
      HoldFirstTail(s, n, k);
      TakeShiftCount(s[1..], n - s[0].size, k - 1);
    }
  }

  /** With an empty fragment at the end it refuses what would have fitted. */
  lemma EarlyTestRefusesMore(t: seq<Frag>)
    requires |t| == MAX_SKB_FRAGS - 1
    ensures var page := t[|t| - 1].page + 1;
      var s := [Frag(page, 0, 1), Frag(page, 1, 0)];
      && Sizes(s) == 1 && !Shiftable(t, s, 1)
      && !JoinsLast(t, s, 1) && |t| + |NewFrags(t, s, 1)| <= MAX_SKB_FRAGS
  {
    var page := t[|t| - 1].page + 1;
    var a, b := Frag(page, 0, 1), Frag(page, 1, 0);
    var s := [a, b];
    assert s[1..] == [b] && [b][1..] == [];
    assert Sizes([b]) == 0 && TakeShift([b], 0) == [] && TakeShift(s, 1) == [a] + TakeShift([b], 0);
    assert !CanCoalesce(t, a);
  }

  /** Whatever the pages contain, `n` bytes have moved from the front of `s` to the end of `t`. */
  ghost predicate BytesMoved(t: Skb, s: Skb, t': Skb, s': Skb, n: nat) {
    && n <= Len(s)
    && forall m: Mem :: Ok(m, t) && Ok(m, s) ==>
      Ok(m, t') && Ok(m, s') && Flat(m, t') == Flat(m, t) + Flat(m, s)[..n] && Flat(m, s') == Flat(m, s)[n..]
  }

  lemma ShiftMovesBytes(t: Skb, s: Skb, n: nat)
    requires t.list == [] && s.list == [] && s.lin == [] && s.frags != [] && n <= Sizes(s.frags)
    ensures BytesMoved(t, s, t.(frags := ShiftedTgt(t.frags, s.frags, n)), s.(frags := ShiftedSkb(t.frags, s.frags, n)), n)
  {
    forall m: Mem | Ok(m, t) && Ok(m, s)
      ensures var t', s' := t.(frags := ShiftedTgt(t.frags, s.frags, n)), s.(frags := ShiftedSkb(t.frags, s.frags, n));
        Ok(m, t') && Ok(m, s') && Flat(m, t') == Flat(m, t) + Flat(m, s)[..n] && Flat(m, s') == Flat(m, s)[n..]
    {
      ShiftMovesIn(m, t, s, n);
    }
  }

  lemma ShiftMovesIn(m: Mem, t: Skb, s: Skb, n: nat)
    requires Ok(m, t) && Ok(m, s)
    requires t.list == [] && s.list == [] && s.lin == [] && s.frags != [] && n <= Sizes(s.frags)
    ensures var t', s' := t.(frags := ShiftedTgt(t.frags, s.frags, n)), s.(frags := ShiftedSkb(t.frags, s.frags, n));
      Ok(m, t') && Ok(m, s') && Flat(m, t') == Flat(m, t) + Flat(m, s)[..n] && Flat(m, s') == Flat(m, s)[n..]
  {
    var tf, sf := ShiftedTgt(t.frags, s.frags, n), ShiftedSkb(t.frags, s.frags, n);
    ShiftMoves(m, t.frags, s.frags, n);
    hide *;
    PagedOnly(m, t);
    PagedOnly(m, s);
    PagedOnly(m, t.(frags := tf));
    PagedOnly(m, s.(frags := sf));
    Concat3(t.lin, FragsFlat(m, t.frags), FragsFlat(m, s.frags)[..n]);
  }

  lemma Concat3<T>(a: seq<T>, b: seq<T>, c: seq<T>)
    ensures a + (b + c) == a + b + c
  {
  }

  lemma PagedOnly(m: Mem, s: Skb)
    requires s.list == [] && (Ok(m, s) || FragsOk(m, s.frags))
    ensures FragsOk(m, s.frags) && Ok(m, s) && Flat(m, s) == s.lin + FragsFlat(m, s.frags)
    ensures s.lin == [] ==> Flat(m, s) == FragsFlat(m, s.frags)
  {
    assert FragsFlat(m, s.frags) + [] == FragsFlat(m, s.frags);
    assert [] + FragsFlat(m, s.frags) == FragsFlat(m, s.frags);
  }

  lemma ShiftReady(t: Skb, s: Skb, n: nat)
    requires t.list == [] && s.list == [] && s.lin == [] && s.frags != [] && n <= Len(s)
    ensures Len(s) == Sizes(s.frags) && ListLen([]) == 0
    ensures var tf, sf := ShiftedTgt(t.frags, s.frags, n), ShiftedSkb(t.frags, s.frags, n);
      && Sizes(tf) == Sizes(t.frags) + n && Sizes(sf) == Sizes(s.frags) - n
      && BytesMoved(t, s, t.(frags := tf), s.(frags := sf), n)
  {
    ShiftedSizes(t.frags, s.frags, n);
    ShiftMovesBytes(t, s, n);
  }

  /** skb_shift moves the first `n` bytes, or returns 0 with both buffers as they were.  A cloned
      buffer has to be given a header of its own first; `skbReady` and `tgtReady` tell whether
      that is not needed, or succeeds. */
  method Shift(tgt: Buffer, skb: Buffer, n: nat, skbReady: bool, tgtReady: bool) returns (r: nat)
    requires tgt != skb && tgt.frags != skb.frags && tgt.Valid() && skb.Valid()
    requires tgt.list == [] && skb.list == [] && skb.lin == [] && skb.nrFrags > 0 && n <= skb.len
    modifies tgt, tgt.frags, skb, skb.frags
    ensures tgt.Valid() && skb.Valid()
    ensures var t, s := old(tgt.Abs()), old(skb.Abs());
      if skbReady && tgtReady && Shiftable(t.frags, s.frags, n) then
        && r == n && tgt.Abs() == t.(frags := ShiftedTgt(t.frags, s.frags, n))
        && skb.Abs() == s.(frags := ShiftedSkb(t.frags, s.frags, n))
        && BytesMoved(t, s, tgt.Abs(), skb.Abs(), n)
      else r == 0 && tgt.Abs() == t && skb.Abs() == s
  {
    hide ShiftedTgt, ShiftedSkb, Sizes, NewFrags, BytesMoved;
    ghost var t, s := tgt.Abs(), skb.Abs();
    ShiftReady(t, s, n);
    assert tgt.nrFrags > 0 ==> t.frags[tgt.nrFrags - 1] == tgt.frags[tgt.nrFrags - 1];
    assert s.frags[0] == skb.frags[0];
    var to := tgt.nrFrags;
    var merge := to > 0 && tgt.frags[to - 1].page == skb.frags[0].page
                 && skb.frags[0].off == tgt.frags[to - 1].off + tgt.frags[to - 1].size;
    assert merge == CanCoalesce(t.frags, s.frags[0]) && (n == skb.len <==> n == Sizes(s.frags));
    var ok;
    hide CanCoalesce;
    if merge && n < skb.frags[0].size {
      ok := ShiftIntoLast(tgt, skb, n, skbReady, tgtReady);
    } else if n == skb.len && skb.nrFrags - (if merge then 1 else 0) > MAX_SKB_FRAGS - to {
      return 0;  // will not fit, so the expensive part is skipped
    } else {
      ok := ShiftFrags(tgt, skb, n, merge, skbReady, tgtReady);
    }
    if !ok {
      return 0;
    }
    skb.len, skb.dataLen := skb.len - n, skb.dataLen - n;
    tgt.len, tgt.dataLen := tgt.len + n, tgt.dataLen + n;
    return n;
  }

  /** All of it continues the last fragment of the target. */
  method ShiftIntoLast(tgt: Buffer, skb: Buffer, n: nat, skbReady: bool, tgtReady: bool) returns (ok: bool)
    requires tgt != skb && tgt.frags != skb.frags && tgt.Valid() && skb.Valid() && skb.nrFrags > 0
    requires JoinsLast(tgt.Abs().frags, skb.Abs().frags, n)
    modifies tgt.frags, skb.frags
    ensures ok <==> skbReady && tgtReady
    ensures tgt.frags[..tgt.nrFrags] == if !ok then old(tgt.Abs()).frags else ShiftedTgt(old(tgt.Abs()).frags, old(skb.Abs()).frags, n)
    ensures skb.frags[..skb.nrFrags] == if !ok then old(skb.Abs()).frags else ShiftedSkb(old(tgt.Abs()).frags, old(skb.Abs()).frags, n)
  {
    ok := skbReady && tgtReady;
    if ok {
      var last := tgt.nrFrags - 1;
      tgt.frags[last] := Grow(tgt.frags[last], n);
      skb.frags[0] := Advance(skb.frags[0], n);
    }
  }

  method ShiftFrags(tgt: Buffer, skb: Buffer, n: nat, merge: bool, skbReady: bool, tgtReady: bool) returns (ok: bool)
    requires tgt != skb && tgt.frags != skb.frags && tgt.Valid() && skb.Valid() && skb.nrFrags > 0
    requires merge == CanCoalesce(tgt.Abs().frags, skb.Abs().frags[0]) && (merge ==> tgt.nrFrags > 0)
    requires !JoinsLast(tgt.Abs().frags, skb.Abs().frags, n)
    modifies tgt`nrFrags, tgt.frags, skb`nrFrags, skb.frags
    ensures tgt.nrFrags <= MAX_SKB_FRAGS && skb.nrFrags <= MAX_SKB_FRAGS
    ensures var room := old(tgt.nrFrags) + |NewFrags(old(tgt.Abs()).frags, old(skb.Abs()).frags, n)| <= MAX_SKB_FRAGS;
      ok <==> skbReady && tgtReady && room
    ensures tgt.frags[..tgt.nrFrags] == if !ok then old(tgt.Abs()).frags else ShiftedTgt(old(tgt.Abs()).frags, old(skb.Abs()).frags, n)
    ensures skb.frags[..skb.nrFrags] == if !ok then old(skb.Abs()).frags else ShiftedSkb(old(tgt.Abs()).frags, old(skb.Abs()).frags, n)
  {
    hide TakeShift, DropShift, GrowLast, CanCoalesce, Sizes, ListLen;
    ok := skbReady && tgtReady;
    if !ok {
      return;
    }
    var from, to, todo := 0, 0, n;
    if merge {
      todo := todo - skb.frags[0].size;
      from := 1;
    }
    ghost var t, f := tgt.frags[..tgt.nrFrags], skb.frags[..skb.nrFrags];
    assert f[0..] == f && f[0] == skb.frags[0];
    ok, from, to := MoveFrags(tgt, skb, from, todo);
    if ok {
      CommitShift(tgt, skb, from, to, merge);
    }
  }

  /** The moved fragments are counted in and the remaining ones close up. */
  method CommitShift(tgt: Buffer, skb: Buffer, from: nat, to: nat, merge: bool)
    requires tgt != skb && tgt.frags != skb.frags && tgt.frags.Length == skb.frags.Length == MAX_SKB_FRAGS
    requires tgt.nrFrags <= to <= MAX_SKB_FRAGS && from <= skb.nrFrags <= MAX_SKB_FRAGS && skb.nrFrags > 0
    requires merge ==> tgt.nrFrags > 0
    modifies tgt`nrFrags, tgt.frags, skb`nrFrags, skb.frags
    ensures tgt.nrFrags == to && skb.nrFrags == old(skb.nrFrags) - from
    ensures tgt.frags[..to] ==
      (if merge then GrowLast(old(tgt.frags[..tgt.nrFrags]), old(skb.frags[0].size)) else old(tgt.frags[..tgt.nrFrags]))
      + old(tgt.frags[tgt.nrFrags..to])
    ensures skb.frags[..skb.nrFrags] == old(skb.frags[from..skb.nrFrags])
  {
    var last := tgt.nrFrags;
    tgt.nrFrags := to;
    if merge {
      tgt.frags[last - 1] := Grow(tgt.frags[last - 1], skb.frags[0].size);
    }
    CloseUp(skb, from);
  }

  method CloseUp(skb: Buffer, from: nat)
    requires skb.frags.Length == MAX_SKB_FRAGS && from <= skb.nrFrags <= MAX_SKB_FRAGS
    modifies skb`nrFrags, skb.frags
    ensures skb.nrFrags == old(skb.nrFrags) - from
    ensures skb.frags[..skb.nrFrags] == old(skb.frags[from..skb.nrFrags])
  {
    ghost var rest := skb.frags[from..skb.nrFrags];
    var i, k := from, 0;
    while i < skb.nrFrags
      invariant from <= i <= skb.nrFrags && k == i - from
      invariant forall j :: k <= j < |rest| ==> skb.frags[from + j] == rest[j]
      invariant forall j :: 0 <= j < k ==> skb.frags[j] == rest[j]
      modifies skb.frags
    {
      skb.frags[k] := skb.frags[i];
      i, k := i + 1, k + 1;
    }
    assert skb.frags[..k] == rest;
    skb.nrFrags := k;
  }
}
