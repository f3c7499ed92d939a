/**
  Cutting a large TCP packet into segments (skb_segment, tcp_gso_segment), and its inverse,
  the merging of received packets (skb_gro_merge).
 */
module SkbSegment {
  import opened Serial
  import opened SkbData
  import opened SkbCopy
  import opened SkbLayout
  import opened SkBuff

  // ---------------------------------------------------------------------------------------
  // What segmentation means for the payload.

  /** `p` in pieces of `mss` bytes, the last one possibly shorter. */
  function Slices(p: seq<byte>, mss: nat): (r: seq<seq<byte>>)
    requires mss > 0
    ensures r != []
    decreases |p|
  {
    if |p| <= mss then [p] else [p[..mss]] + Slices(p[mss..], mss)
  }

  function Concat(ps: seq<seq<byte>>): seq<byte> {
    if ps == [] then [] else ps[0] + Concat(ps[1..])
  }

  /** Pieces of exactly `mss` bytes, except for a last one of 1 to `mss`. */
  ghost predicate EvenPieces(ps: seq<seq<byte>>, mss: nat) {
    && ps != []
    && (forall i :: 0 <= i < |ps| - 1 ==> |ps[i]| == mss)
    && 0 < |ps[|ps| - 1]| <= mss
  }

  /** The pieces put together are the payload, and their number and sizes are as they should. */
  lemma {:induction false} SlicesMeaning(p: seq<byte>, mss: nat)
    requires mss > 0 && p != []
    ensures var r := Slices(p, mss);
      && EvenPieces(r, mss) && Concat(r) == p
      && (|r| - 1) * mss < |p| <= |r| * mss
    decreases |p|
  {
    var r := Slices(p, mss);
    if |p| <= mss {
      assert r[1..] == [] && p + [] == p;
    } else {
      var t := Slices(p[mss..], mss);
      assert r[0] == p[..mss] && r[1..] == t;
      SlicesMeaning(p[mss..], mss);
      hide Slices;
      EvenMore(r, mss);
      assert p[..mss] + p[mss..] == p;
      OneMore(|t|, mss);
    }
  }

  lemma EvenMore(r: seq<seq<byte>>, mss: nat)
    requires r != [] && |r[0]| == mss && EvenPieces(r[1..], mss)
    ensures EvenPieces(r, mss)
  {
    forall i | 0 <= i < |r| - 1 ensures |r[i]| == mss {
      if i > 0 { assert r[i] == r[1..][i - 1]; }
    }
    assert r[|r| - 1] == r[1..][|r| - 2];
  }

  lemma OneMore(n: nat, mss: nat)
    ensures (n + 1) * mss == n * mss + mss && n * mss == (n - 1) * mss + mss
  {
  }

  /** Segmentation undoes concatenation of even pieces. */
  lemma {:induction false} SlicesOfConcat(ps: seq<seq<byte>>, mss: nat)
    requires mss > 0 && EvenPieces(ps, mss)
    ensures Slices(Concat(ps), mss) == ps
  {
    if |ps| == 1 {
      assert ps[1..] == [] && ps[0] + [] == ps[0] && ps == [ps[0]];
    } else {
      var rest := ps[1..];
      assert EvenPieces(rest, mss) by {
        assert rest[|rest| - 1] == ps[|ps| - 1];
      }
      SlicesOfConcat(rest, mss);
      ConcatNonempty(rest, mss);
      var p := Concat(ps);
      assert p[..mss] == ps[0] && p[mss..] == Concat(rest);
      assert [ps[0]] + rest == ps;
    }
  }

  lemma ConcatNonempty(ps: seq<seq<byte>>, mss: nat)
    requires mss > 0 && EvenPieces(ps, mss)
    ensures |Concat(ps)| > 0
  {
    if |ps| == 1 {
      assert Concat(ps) == ps[0] + Concat(ps[1..]);
    } else {
      assert |ps[0]| == mss;
    }
  }

  // ---------------------------------------------------------------------------------------
  // skb_segment.

  function Max(a: int, b: int): int {
    if a < b then b else a
  }

  lemma FragAt(m: Mem, fs: seq<Frag>, i: nat)
    requires FragsOk(m, fs) && i < |fs|
    ensures var a := Sizes(fs[..i]);
      && a + fs[i].size <= Sizes(fs) && Sizes(fs[..i + 1]) == a + fs[i].size
      && FragsFlat(m, fs)[a..a + fs[i].size] == Bytes(m, fs[i])
  {
    SizesUpTo(fs, i);
    assert fs == fs[..i] + fs[i..] && fs[i..][1..] == fs[i + 1..];
    FragsFlatConcat(m, fs[..i], fs[i..]);
    var x, y := FragsFlat(m, fs[..i]), FragsFlat(m, fs[i..]);
    SliceRight(x, y, |x|, |x| + fs[i].size);
    SliceLeft(Bytes(m, fs[i]), FragsFlat(m, fs[i + 1..]), 0, fs[i].size);
  }

  /** The cursor `i`, `pos` points at the fragment that holds byte `at` of the buffer, whose
      linear part has `h` bytes. */
  predicate Cursor(fs: seq<Frag>, h: nat, i: nat, pos: nat, at: nat) {
    && i <= |fs| && pos == h + Sizes(fs[..i])
    && (pos <= at || pos <= h)
    && (pos < at ==> i < |fs| && at < pos + fs[i].size)
  }

  /** `out` stands for the paged bytes from `lo` up to `hi` (or nothing yet): what comes before
      `lo`, followed by `out`, is what comes before `hi`. */
  ghost predicate Covered(m: Mem, out: seq<Frag>, fs: seq<Frag>, h: nat, lo: nat, hi: nat)
    requires FragsOk(m, fs)
  {
    && FragsOk(m, out)
    && h <= lo <= hi <= h + Sizes(fs)
    && FragsFlat(m, fs)[..hi - h] == FragsFlat(m, fs)[..lo - h] + FragsFlat(m, out)
  }

  lemma CoveredNothing(m: Mem, fs: seq<Frag>, h: nat, offset: nat)
    requires FragsOk(m, fs) && offset <= h + Sizes(fs)
    ensures Covered(m, [], fs, h, Max(offset, h), Max(offset, h))
  {
  }

  /** Adding the part of fragment `i` between `from` and `to`. */
  lemma CoveredMore(m: Mem, out: seq<Frag>, fs: seq<Frag>, h: nat, lo: nat, i: nat, pos: nat, from: nat, to: nat)
    requires FragsOk(m, fs) && i < |fs| && pos == h + Sizes(fs[..i])
    requires pos <= from <= to <= pos + fs[i].size && Covered(m, out, fs, h, lo, from)
    ensures Covered(m, out + [Cut(Advance(fs[i], from - pos), to - from)], fs, h, lo, to)
  {
    hide FragsFlat, Sizes, FragsOk, FragOk, Bytes;
    var g := Cut(Advance(fs[i], from - pos), to - from);
    BetweenPrefixes(FragsFlat(m, fs), lo - h, from - h, FragsFlat(m, out));
    PieceBytes(m, fs, h, i, pos, from, to);
    OneFragFlat(m, g);
    FragsOkConcat(m, out, [g]);
    FragsFlatConcat(m, out, [g]);
    SliceConcat(FragsFlat(m, fs), lo - h, from - h, to - h);
  }

  lemma PieceBytes(m: Mem, fs: seq<Frag>, h: nat, i: nat, pos: nat, from: nat, to: nat)
    requires FragsOk(m, fs) && i < |fs| && pos == h + Sizes(fs[..i])
    requires pos <= from <= to <= pos + fs[i].size
    ensures to - h <= Sizes(fs)
    ensures var g := Cut(Advance(fs[i], from - pos), to - from);
      FragOk(m, g) && Bytes(m, g) == FragsFlat(m, fs)[from - h..to - h]
  {
    hide FragsFlat, Sizes, Bytes;
    FragAt(m, fs, i);
    var p, f := FragsFlat(m, fs), fs[i];
    CutBytes(m, f, from - pos);
    CutBytes(m, Advance(f, from - pos), to - from);
    SliceChain(p, pos - h, Bytes(m, f), from - pos, to - from);
  }

  lemma SliceChain<T>(p: seq<T>, b: nat, f: seq<T>, a: nat, n: nat)
    requires b + |f| <= |p| && f == p[b..b + |f|] && a + n <= |f|
    ensures f[a..][..n] == p[b + a..b + a + n]
  {
    var x, y := f[a..][..n], p[b + a..b + a + n];
    forall k | 0 <= k < n ensures x[k] == y[k] {
      assert x[k] == f[a + k] == p[b + a + k];
    }
  }

  /** The loop over fragments is at fragment `i`; `out` holds what it has collected. */
  ghost predicate Gathering(m: Mem, out: seq<Frag>, fs: seq<Frag>, h: nat, i0: nat, i: nat, pos: nat, offset: nat, len: nat) {
    && FragsOk(m, fs) && |fs| <= MAX_SKB_FRAGS && offset + len <= h + Sizes(fs)
    && i0 <= i <= |fs| && pos == h + Sizes(fs[..i]) && |out| == i - i0
    && (pos <= offset + len || pos <= h)
    && (pos < offset ==> i < |fs| && offset < pos + fs[i].size)
    && Covered(m, out, fs, h, Max(offset, h), Max(pos, Max(offset, h)))
  }

  lemma GatherStart(m: Mem, fs: seq<Frag>, h: nat, i0: nat, pos0: nat, offset: nat, len: nat)
    requires FragsOk(m, fs) && |fs| <= MAX_SKB_FRAGS && offset + len <= h + Sizes(fs)
    requires Cursor(fs, h, i0, pos0, offset) && Covered(m, [], fs, h, Max(offset, h), Max(offset, h))
    ensures i0 <= |fs| && Gathering(m, [], fs, h, i0, i0, pos0, offset, len)
  {
    hide Covered, Sizes, FragsFlat;
  }

  /** While bytes are missing there is a fragment to take them from, and room in the segment;
      taking them gets further, or completes the segment inside this fragment. */
  lemma GatherPiece(m: Mem, out: seq<Frag>, fs: seq<Frag>, h: nat, i0: nat, i: nat, pos: nat, offset: nat, len: nat)
    requires Gathering(m, out, fs, h, i0, i, pos, offset, len) && pos < offset + len
    ensures i < |fs| && |out| < MAX_SKB_FRAGS
    ensures var end := Min(pos + fs[i].size, offset + len);
      && pos <= end <= pos + fs[i].size && offset <= end && pos <= Max(pos, offset) <= end
      && var r := out + [Cut(Advance(fs[i], Max(pos, offset) - pos), end - Max(pos, offset))];
      if pos + fs[i].size <= offset + len then end == pos + fs[i].size && Gathering(m, r, fs, h, i0, i + 1, end, offset, len)
      else Covered(m, r, fs, h, Max(offset, h), Max(offset + len, h)) && Cursor(fs, h, i, pos, offset + len)
  {
    GatherFacts(m, out, fs, h, i0, i, pos, offset, len);
    MaxChain(pos, offset, h);
    hide Gathering, Covered, Cursor, FragsOk, FragsFlat, Sizes, Advance, Cut;
    if pos + fs[i].size <= offset + len {
      GatherWhole(m, out, fs, h, i0, i, pos, offset, len);
    } else {
      GatherLast(m, out, fs, h, i0, i, pos, offset, len);
    }
  }

  lemma MaxChain(pos: nat, offset: nat, h: nat)
    requires h <= pos
    ensures Max(pos, Max(offset, h)) == Max(pos, offset)
  {
  }

  lemma GatherFacts(m: Mem, out: seq<Frag>, fs: seq<Frag>, h: nat, i0: nat, i: nat, pos: nat, offset: nat, len: nat)
    requires Gathering(m, out, fs, h, i0, i, pos, offset, len) && pos < offset + len
    ensures i < |fs| && |out| < MAX_SKB_FRAGS && h <= pos
    ensures pos < offset ==> offset < pos + fs[i].size
    ensures FragsOk(m, fs) && pos == h + Sizes(fs[..i]) && Sizes(fs[..i + 1]) == Sizes(fs[..i]) + fs[i].size
    ensures Covered(m, out, fs, h, Max(offset, h), Max(pos, offset))
  {
    hide Covered, FragsOk, FragsFlat;
    NotAtEnd(fs, i, h, pos);
    SizesUpTo(fs, i);
  }

  lemma GatherWhole(m: Mem, out: seq<Frag>, fs: seq<Frag>, h: nat, i0: nat, i: nat, pos: nat, offset: nat, len: nat)
    requires Gathering(m, out, fs, h, i0, i, pos, offset, len) && pos < offset + len && i < |fs|
    requires pos + fs[i].size <= offset + len && Max(pos, offset) <= pos + fs[i].size
    ensures Gathering(m, out + [Cut(Advance(fs[i], Max(pos, offset) - pos), pos + fs[i].size - Max(pos, offset))],
                      fs, h, i0, i + 1, pos + fs[i].size, offset, len)
  {
    GatherFacts(m, out, fs, h, i0, i, pos, offset, len);
    MaxChain(pos, offset, h);
    hide Covered, FragsOk, FragsFlat, Sizes, Advance, Cut;
    CoveredMore(m, out, fs, h, Max(offset, h), i, pos, Max(pos, offset), pos + fs[i].size);
  }

  lemma GatherLast(m: Mem, out: seq<Frag>, fs: seq<Frag>, h: nat, i0: nat, i: nat, pos: nat, offset: nat, len: nat)
    requires Gathering(m, out, fs, h, i0, i, pos, offset, len) && pos < offset + len && i < |fs|
    requires pos + fs[i].size > offset + len && Max(pos, offset) <= offset + len
    ensures Covered(m, out + [Cut(Advance(fs[i], Max(pos, offset) - pos), offset + len - Max(pos, offset))],
                    fs, h, Max(offset, h), Max(offset + len, h))
    ensures Cursor(fs, h, i, pos, offset + len)
  {
    GatherFacts(m, out, fs, h, i0, i, pos, offset, len);
    MaxChain(pos, offset, h);
    hide Gathering, Covered, FragsOk, FragsFlat, Sizes, Advance, Cut;
    CoveredMore(m, out, fs, h, Max(offset, h), i, pos, Max(pos, offset), offset + len);
  }

  lemma GatherEnd(m: Mem, out: seq<Frag>, fs: seq<Frag>, h: nat, i0: nat, i: nat, pos: nat, offset: nat, len: nat)
    requires Gathering(m, out, fs, h, i0, i, pos, offset, len) && pos >= offset + len
    ensures Covered(m, out, fs, h, Max(offset, h), Max(offset + len, h))
    ensures Cursor(fs, h, i, pos, offset + len) && i0 <= i && |out| <= MAX_SKB_FRAGS
  {
  }

  /** The fragment loop for one segment: the paged part of bytes `[offset, offset + len)`.
      The source refuses when a segment would need more than MAX_SKB_FRAGS fragments; that
      cannot happen here. */
  method SegmentFrags(ghost m: Mem, fs: seq<Frag>, h: nat, i0: nat, pos0: nat, offset: nat, len: nat)
      returns (out: seq<Frag>, i: nat, pos: nat)
    requires FragsOk(m, fs) && |fs| <= MAX_SKB_FRAGS && offset + len <= h + Sizes(fs)
    requires Cursor(fs, h, i0, pos0, offset)
    ensures Covered(m, out, fs, h, Max(offset, h), Max(offset + len, h))
    ensures Cursor(fs, h, i, pos, offset + len) && |out| <= MAX_SKB_FRAGS
  {
    hide *;
    out, i, pos := [], i0, pos0;
    CoveredNothing(m, fs, h, offset);
    GatherStart(m, fs, h, i0, pos0, offset, len);
    while pos < offset + len
      invariant i <= |fs| && Gathering(m, out, fs, h, i0, i, pos, offset, len)
      decreases |fs| - i
    {
      GatherPiece(m, out, fs, h, i0, i, pos, offset, len);
      var end := Min(pos + fs[i].size, offset + len);
      var piece := FragPiece(fs[i], pos, offset, end);
      out := out + [piece];
      if pos + fs[i].size > offset + len {
        return;
      }
      i, pos := i + 1, end;
    }
    GatherEnd(m, out, fs, h, i0, i, pos, offset, len);
  }

  /** The part of `f`, which starts at `pos`, that lies between `offset` and `end`. */
  method FragPiece(f: Frag, pos: nat, offset: nat, end: nat) returns (g: Frag)
    requires pos <= end <= pos + f.size && offset <= end
    ensures pos <= Max(pos, offset) <= end && g == Cut(Advance(f, Max(pos, offset) - pos), end - Max(pos, offset))
  {
    g := f;
    if pos < offset {
      g := Frag(g.page, g.off + (offset - pos), g.size - (offset - pos));
    }
    g := g.(size := g.size - (pos + f.size - end));
  }

  lemma NotAtEnd(fs: seq<Frag>, i: nat, h: nat, pos: nat)
    requires i <= |fs| && pos == h + Sizes(fs[..i]) && pos < h + Sizes(fs)
    ensures i < |fs|
  {
    assert fs[..|fs|] == fs;
  }

  /** Byte strings: header plus the bytes from `offset`, gathered from the linear part and
      the pages. */
  lemma SegmentFlat(m: Mem, lin: seq<byte>, fs: seq<Frag>, hdr: seq<byte>, offset: nat, len: nat, hsize: nat, out: seq<Frag>)
    requires FragsOk(m, fs) && offset + len <= |lin| + Sizes(fs)
    requires hsize == Max(0, Min(|lin| - offset, len))
    requires Covered(m, out, fs, |lin|, Max(offset, |lin|), Max(offset + len, |lin|))
    ensures var g := Skb(hdr + (if hsize > 0 then lin[offset..offset + hsize] else []), out, []);
      Ok(m, g) && Flat(m, g) == hdr + (lin + FragsFlat(m, fs))[offset..offset + len]
  {
    hide Ok, Flat, FragsOk, FragsFlat, Sizes, Covered;
    var x := if hsize > 0 then lin[offset..offset + hsize] else [];
    CoveredBytes(m, out, fs, |lin|, Max(offset, |lin|), Max(offset + len, |lin|));
    NoListFlat(m, hdr + x, out);
    GatherParts(lin, FragsFlat(m, fs), offset, len, hsize);
    assert hdr + x + FragsFlat(m, out) == hdr + (x + FragsFlat(m, out));
  }

  lemma CoveredBytes(m: Mem, out: seq<Frag>, fs: seq<Frag>, h: nat, lo: nat, hi: nat)
    requires FragsOk(m, fs) && h <= lo <= hi <= h + Sizes(fs) && Covered(m, out, fs, h, lo, hi)
    ensures FragsOk(m, out) && FragsFlat(m, out) == FragsFlat(m, fs)[lo - h..hi - h]
  {
    hide FragsOk, FragsFlat;
    BetweenPrefixes(FragsFlat(m, fs), lo - h, hi - h, FragsFlat(m, out));
  }

  lemma BetweenPrefixes(p: seq<byte>, a: nat, b: nat, o: seq<byte>)
    requires a <= b <= |p| && p[..b] == p[..a] + o
    ensures o == p[a..b]
  {
    assert p[..b][a..] == p[a..b];
  }

  lemma NoListFlat(m: Mem, lin: seq<byte>, fs: seq<Frag>)
    requires FragsOk(m, fs)
    ensures Ok(m, Skb(lin, fs, [])) && Flat(m, Skb(lin, fs, [])) == lin + FragsFlat(m, fs)
  {
    assert FragsFlat(m, fs) + [] == FragsFlat(m, fs);
  }

  lemma GatherParts(lin: seq<byte>, p: seq<byte>, offset: nat, len: nat, hsize: nat)
    requires offset + len <= |lin| + |p| && hsize == Max(0, Min(|lin| - offset, len))
    ensures (if hsize > 0 then lin[offset..offset + hsize] else []) + p[Max(offset, |lin|) - |lin|..Max(offset + len, |lin|) - |lin|]
         == (lin + p)[offset..offset + len]
  {
    var a, b := Max(offset, |lin|) - |lin|, Max(offset + len, |lin|) - |lin|;
    if offset >= |lin| {
      SliceRight(lin, p, offset, offset + len);
      assert [] + p[a..b] == p[a..b];
    } else if offset + len <= |lin| {
      SliceLeft(lin, p, offset, offset + len);
      assert p[a..b] == [] && lin[offset..offset + len] + [] == lin[offset..offset + len];
    } else {
      SliceSplit(lin, p, offset, len);
      assert p[a..b] == p[..len - (|lin| - offset)];
    }
  }

  ghost predicate SegmentsOf(m: Mem, segs: seq<Skb>, hdr: seq<byte>, ps: seq<seq<byte>>) {
    && |segs| == |ps|
    && forall k :: 0 <= k < |segs| ==> Ok(m, segs[k]) && Flat(m, segs[k]) == hdr + ps[k]
  }

  lemma SegmentsMore(m: Mem, segs: seq<Skb>, hdr: seq<byte>, ps: seq<seq<byte>>, g: Skb, p: seq<byte>)
    requires SegmentsOf(m, segs, hdr, ps) && Ok(m, g) && Flat(m, g) == hdr + p
    ensures SegmentsOf(m, segs + [g], hdr, ps + [p])
  {
  }

  /** skb_segment on a buffer without frag_list: `doffset` bytes of headers are repeated in
      front of every piece of the payload.  `sg` is whether the device takes page fragments. */
  method Segment(ghost m: Mem, s: Skb, doffset: nat, mss: nat, sg: bool, flat: seq<byte>) returns (segs: seq<Skb>)
    requires Ok(m, s) && s.list == [] && |s.frags| <= MAX_SKB_FRAGS && mss > 0
    requires doffset <= |s.lin| && doffset < Len(s) && flat == Flat(m, s)
    ensures SegmentsOf(m, segs, s.lin[..doffset], Slices(flat[doffset..], mss))
    ensures AllInPlace(segs, doffset, sg) && (sg ==> Copied(segs, doffset) == s.lin[doffset..])
  {
    hide SegmentsOf, Joined, Covered, Slices, Rest, Flat, Cursor, Ok, FragsFlat, Sizes, Copied, AllInPlace, InPlace, CopiedUpTo;
    var hdr := s.lin[..doffset];
    var offset: nat, i: nat, pos: nat := doffset, 0, |s.lin|;
    segs := [];
    ghost var done: seq<seq<byte>> := [];
    ghost var all := Slices(flat[doffset..], mss);
    CopiedNothing(doffset, sg, s.lin);
    RestEnds(flat, doffset, mss);
    JoinedStart(all);
    CursorAtStart(s.frags, |s.lin|, offset);
    SegmentsNone(m, hdr);
    while offset < Len(s)
      invariant doffset <= offset <= Len(s) && (sg ==> Cursor(s.frags, |s.lin|, i, pos, offset))
      invariant SegmentsOf(m, segs, hdr, done)
      invariant Joined(done, Rest(flat, offset, mss), all)
      invariant CopiedUpTo(segs, doffset, sg, s.lin, offset)
      decreases Len(s) - offset
    {
      var len := Min(Len(s) - offset, mss);
      ghost var p := flat[offset..offset + len];
      SlicesNext(flat, offset, mss);
      var g;
      g, i, pos := OneSegment(m, s, doffset, offset, len, sg, flat, i, pos);
      SegmentsMore(m, segs, hdr, done, g, p);
      CopiedMore(segs, g, doffset, sg, s.lin, offset, len);
      JoinedStep(done, [p], Rest(flat, offset + len, mss), all);
      segs := segs + [g];
      done := done + [p];
      offset := offset + len;
    }
    JoinedEnd(done, all);
    CopiedAll(segs, doffset, sg, s.lin, offset);
  }

  /** A segment has no frag_list, and page fragments only if the device takes them. */
  ghost predicate InPlace(g: Skb, doffset: nat, sg: bool) {
    g.list == [] && |g.frags| <= MAX_SKB_FRAGS && (!sg ==> g.frags == []) && |g.lin| >= doffset
  }

  ghost predicate AllInPlace(segs: seq<Skb>, doffset: nat, sg: bool) {
    forall k :: 0 <= k < |segs| ==> InPlace(segs[k], doffset, sg)
  }

  /** The payload bytes that are in the linear parts of segments. */
  ghost function Copied(segs: seq<Skb>, doffset: nat): seq<byte>
  {
    if segs == [] then []
    else Copied(segs[..|segs| - 1], doffset) + segs[|segs| - 1].lin[Min(doffset, |segs[|segs| - 1].lin|)..]
  }

  /** With page fragments, the linear bytes up to `at` are copied, and no others. */
  ghost predicate CopiedUpTo(segs: seq<Skb>, doffset: nat, sg: bool, lin: seq<byte>, at: nat)
    requires doffset <= |lin| && doffset <= at
  {
    AllInPlace(segs, doffset, sg) && (sg ==> Copied(segs, doffset) == lin[doffset..Min(at, |lin|)])
  }

  lemma CopiedNothing(doffset: nat, sg: bool, lin: seq<byte>)
    requires doffset <= |lin|
    ensures CopiedUpTo([], doffset, sg, lin, doffset)
  {
  }

  lemma CopiedMore(segs: seq<Skb>, g: Skb, doffset: nat, sg: bool, lin: seq<byte>, offset: nat, len: nat)
    requires doffset <= |lin| && doffset <= offset && CopiedUpTo(segs, doffset, sg, lin, offset) && InPlace(g, doffset, sg)
    requires sg ==> g.lin[doffset..] == lin[Min(offset, |lin|)..Min(offset + len, |lin|)]
    ensures CopiedUpTo(segs + [g], doffset, sg, lin, offset + len)
  {
    assert (segs + [g])[..|segs|] == segs;
  }

  lemma CopiedAll(segs: seq<Skb>, doffset: nat, sg: bool, lin: seq<byte>, at: nat)
    requires doffset <= |lin| <= at && CopiedUpTo(segs, doffset, sg, lin, at)
    ensures AllInPlace(segs, doffset, sg) && (sg ==> Copied(segs, doffset) == lin[doffset..])
  {
  }

  lemma LinearShare(lin: seq<byte>, doffset: nat, offset: nat, len: nat, hsize: nat)
    requires doffset <= |lin| && hsize == Max(0, Min(|lin| - offset, len))
    ensures var g := lin[..doffset] + (if hsize > 0 then lin[offset..offset + hsize] else []);
      |g| >= doffset && g[doffset..] == lin[Min(offset, |lin|)..Min(offset + len, |lin|)]
  {
  }

  lemma CursorAtStart(fs: seq<Frag>, h: nat, at: nat)
    requires at <= h
    ensures Cursor(fs, h, 0, h, at)
  {
    assert fs[..0] == [];
  }

  lemma SegmentsNone(m: Mem, hdr: seq<byte>)
    ensures SegmentsOf(m, [], hdr, [])
  {
  }

  /** The pieces from `offset` on. */
  function Rest(flat: seq<byte>, offset: nat, mss: nat): seq<seq<byte>>
    requires mss > 0
  {
    if offset < |flat| then Slices(flat[offset..], mss) else []
  }

  lemma RestEnds(flat: seq<byte>, doffset: nat, mss: nat)
    requires mss > 0 && doffset < |flat|
    ensures Rest(flat, doffset, mss) == Slices(flat[doffset..], mss)
    ensures forall at :: at >= |flat| ==> Rest(flat, at, mss) == []
  {
  }

  lemma SlicesNext(flat: seq<byte>, offset: nat, mss: nat)
    requires mss > 0 && offset < |flat|
    ensures var len := Min(|flat| - offset, mss);
      Rest(flat, offset, mss) == [flat[offset..offset + len]] + Rest(flat, offset + len, mss)
  {
    var len := Min(|flat| - offset, mss);
    var p := flat[offset..];
    if |p| <= mss {
      assert flat[offset..offset + len] == p;
      assert Slices(p, mss) == [p] && [p] + [] == [p];
    } else {
      assert p[..len] == flat[offset..offset + len];
      assert p[len..] == flat[offset + len..];
    }
  }

  method OneSegment(ghost m: Mem, s: Skb, doffset: nat, offset: nat, len: nat, sg: bool, flat: seq<byte>, i0: nat, pos0: nat)
      returns (g: Skb, i: nat, pos: nat)
    requires Ok(m, s) && s.list == [] && |s.frags| <= MAX_SKB_FRAGS && flat == Flat(m, s)
    requires doffset <= |s.lin| && offset + len <= Len(s) && (sg ==> Cursor(s.frags, |s.lin|, i0, pos0, offset))
    ensures Ok(m, g) && Flat(m, g) == s.lin[..doffset] + flat[offset..offset + len]
    ensures InPlace(g, doffset, sg) && (sg ==> g.lin[doffset..] == s.lin[Min(offset, |s.lin|)..Min(offset + len, |s.lin|)])
    ensures sg ==> Cursor(s.frags, |s.lin|, i, pos, offset + len)
  {
    NoListFlat(m, s.lin, s.frags);
    assert s == Skb(s.lin, s.frags, []);
    hide Flat, Covered, Cursor, FragsFlat, Ok, Sizes, Slices;
    i, pos := i0, pos0;
    if sg {
      var hsize := Max(0, Min(|s.lin| - offset, len));
      LinearShare(s.lin, doffset, offset, len, hsize);
      var out;
      out, i, pos := SegmentFrags(m, s.frags, |s.lin|, i0, pos0, offset, len);
      SegmentFlat(m, s.lin, s.frags, s.lin[..doffset], offset, len, hsize, out);
      g := Skb(s.lin[..doffset] + (if hsize > 0 then s.lin[offset..offset + hsize] else []), out, []);
    } else {
      // skb_copy_and_csum_bits: one linear segment
      g := Skb(s.lin[..doffset] + flat[offset..offset + len], [], []);
      LinearFlat(m, g.lin);
    }
  }

  lemma LinearFlat(m: Mem, lin: seq<byte>)
    ensures Ok(m, Skb(lin, [], [])) && Flat(m, Skb(lin, [], [])) == lin
  {
    assert lin + ([] + []) == lin;
  }
}
