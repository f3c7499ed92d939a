/**
  Merging received packets into one buffer (skb_gro_merge) and the numbering of the segments
  that undo it (tcp_gso_segment).
 */
module SkbGro {
  import opened Serial
  import opened SkbData
  import opened SkbCopy
  import opened SkbLayout
  import opened SkBuff
  import opened SkbSegment

  /** Where the linear part lies when it was allocated as a page fragment (`head_frag`). */
  datatype HeadPage = NoPage | InPage(page: nat, off: nat)

  /** A received packet: `off` bytes of headers, then payload. */
  datatype GroBuf = GroBuf(lin: seq<byte>, frags: seq<Frag>, off: nat, head: HeadPage)

  datatype MergeResult = Merged(buf: GroBuf) | TooBig | Invalid

  function Total(b: GroBuf): nat {
    |b.lin| + Sizes(b.frags)
  }

  /** The headers end inside the linear part or the first fragment. */
  predicate Shaped(b: GroBuf) {
    && |b.frags| <= MAX_SKB_FRAGS
    && b.off < Total(b)
    && (|b.lin| < b.off ==> b.frags != [] && b.off - |b.lin| <= b.frags[0].size)
  }

  function GroLen(b: GroBuf): nat
    requires Shaped(b)
  {
    Total(b) - b.off
  }

  ghost predicate GroOk(m: Mem, b: GroBuf) {
    && Shaped(b) && FragsOk(m, b.frags)
    && (b.head.InPage? ==>
          var f := Frag(b.head.page, b.head.off, |b.lin|);
          FragOk(m, f) && Bytes(m, f) == b.lin)
  }

  ghost function Payload(m: Mem, b: GroBuf): (r: seq<byte>)
    requires GroOk(m, b)
    ensures |r| == GroLen(b)
  {
    (b.lin + FragsFlat(m, b.frags))[b.off..]
  }

  /** The fragments that hold the payload of `b`, or nothing if its linear bytes cannot be
      referred to as a fragment. */
  function PayloadFrags(b: GroBuf): seq<Frag>
    requires Shaped(b)
  {
    if |b.lin| <= b.off then
      if b.frags == [] then [] else [Advance(b.frags[0], b.off - |b.lin|)] + b.frags[1..]
    else if b.head.InPage? then [Frag(b.head.page, b.head.off + b.off, |b.lin| - b.off)] + b.frags
    else []
  }

  function Merge(p: GroBuf, q: GroBuf): MergeResult
    requires Shaped(q)
  {
    if Total(p) + GroLen(q) >= 65536 then TooBig
    else if |q.lin| <= q.off || q.head.InPage? then
      if |p.frags| + |PayloadFrags(q)| > MAX_SKB_FRAGS then TooBig
      else Merged(p.(frags := p.frags + PayloadFrags(q)))
    else Invalid
  }

  lemma PayloadFragsMeaning(m: Mem, b: GroBuf)
    requires GroOk(m, b) && (|b.lin| <= b.off || b.head.InPage?)
    ensures FragsOk(m, PayloadFrags(b)) && FragsFlat(m, PayloadFrags(b)) == Payload(m, b)
    ensures Sizes(PayloadFrags(b)) == GroLen(b)
  {
    var r := PayloadFrags(b);
    var f := FragsFlat(m, b.frags);
    if |b.lin| <= b.off {
      assert b.frags != [];
      var n := b.off - |b.lin|;
      CutBytes(m, b.frags[0], n);
      assert r[0] == Advance(b.frags[0], n) && r[1..] == b.frags[1..];
      DropConcat(Bytes(m, b.frags[0]), FragsFlat(m, b.frags[1..]), n);
      DropConcat(b.lin, f, b.off);
    } else {
      var h := Frag(b.head.page, b.head.off, |b.lin|);
      assert r[0] == Advance(h, b.off) && r[1..] == b.frags;
      CutBytes(m, h, b.off);
      DropConcat(b.lin, f, b.off);
    }
  }

  /** Merging appends exactly the payload of `q` to `p`, whose headers stay. */
  lemma MergeMeaning(m: Mem, p: GroBuf, q: GroBuf)
    requires GroOk(m, p) && GroOk(m, q) && Merge(p, q).Merged?
    ensures var r := Merge(p, q).buf;
      && GroOk(m, r) && Payload(m, r) == Payload(m, p) + Payload(m, q)
      && GroLen(r) == GroLen(p) + GroLen(q)
      && r.lin == p.lin && r.off == p.off && r.head == p.head && |p.frags| <= |r.frags|
  {
    hide PayloadFrags, FragsFlat, Sizes, FragOk;
    var r := Merge(p, q).buf;
    PayloadFragsMeaning(m, q);
    FragsFlatConcat(m, p.frags, PayloadFrags(q));
    SizesConcat(p.frags, PayloadFrags(q));
    assert |p.lin| < p.off ==> r.frags[0] == p.frags[0];
    AppendPayload(p.lin, FragsFlat(m, p.frags), Payload(m, q), p.off);
  }

  lemma AppendPayload(x: seq<byte>, y: seq<byte>, z: seq<byte>, off: nat)
    requires off <= |x| + |y|
    ensures (x + (y + z))[off..] == (x + y)[off..] + z
  {
    assert x + (y + z) == x + y + z;
    DropConcat(x + y, z, off);
  }

  /** A refusal for size depends on the total length and the number of fragments only, and
      a larger packet on either side is refused as well. */
  lemma TooBigStays(p: GroBuf, q: GroBuf, p': GroBuf, q': GroBuf)
    requires Shaped(q) && Shaped(q') && Merge(p, q) == TooBig
    requires Total(p) <= Total(p') && |p.frags| <= |p'.frags|
    requires GroLen(q) <= GroLen(q') && |q.frags| <= |q'.frags|
    requires q.lin == q'.lin && q.off == q'.off && q.head == q'.head
    ensures Merge(p', q') == TooBig
  {
  }

  /** Packets are merged if and only if the payload of the second can be referred to as page
      fragments and the result is within the limits of a packet; a packet too long is refused as
      such in any case. */
  lemma MergedIff(p: GroBuf, q: GroBuf)
    requires Shaped(p) && Shaped(q)
    ensures Merge(p, q).Merged? <==>
      && (|q.lin| <= q.off || q.head.InPage?) && Total(p) + GroLen(q) < 65536
      && |p.frags| + |q.frags| + (if |q.lin| <= q.off then 0 else 1) <= MAX_SKB_FRAGS
    ensures Merge(p, q).Invalid? <==> |q.lin| > q.off && q.head.NoPage? && Total(p) + GroLen(q) < 65536
    ensures Merge(p, q).Merged? ==> Total(Merge(p, q).buf) < 65536 && |Merge(p, q).buf.frags| <= MAX_SKB_FRAGS
  {
    if |q.lin| <= q.off || q.head.InPage? {
      PayloadFragsSize(q);
      SizesConcat(p.frags, PayloadFrags(q));
    }
  }

  /** What merging does to the shape of a packet. */
  lemma MergeShape(p: GroBuf, q: GroBuf)
    requires Shaped(p) && Shaped(q) && Merge(p, q).Merged?
    ensures var r := Merge(p, q).buf;
      && Shaped(r) && GroLen(r) == GroLen(p) + GroLen(q) && Total(r) == Total(p) + GroLen(q)
      && r.lin == p.lin && r.off == p.off && r.head == p.head
      && |p.frags| <= |r.frags| && |q.frags| <= |r.frags|
  {
    PayloadFragsSize(q);
    SizesConcat(p.frags, PayloadFrags(q));
  }

  // ---------------------------------------------------------------------------------------
  // The code of skb_gro_merge: the fragment array of `p` takes the fragments of `q`.

  /** Copies `i` fragments of `q` to the end of `p`, from the last to the first. */
  method AppendFrags(p: Buffer, q: Buffer, at: nat, i0: nat)
    requires p.frags != q.frags && p.frags.Length == q.frags.Length == MAX_SKB_FRAGS
    requires at + i0 <= MAX_SKB_FRAGS
    modifies p.frags
    ensures p.frags[..at + i0] == old(p.frags[..at]) + q.frags[..i0]
  {
    var i := i0;
    while i > 0
      invariant 0 <= i <= i0
      invariant forall j :: 0 <= j < at ==> p.frags[j] == old(p.frags[j])
      invariant forall j :: i <= j < i0 ==> p.frags[at + j] == q.frags[j]
      modifies p.frags
    {
      i := i - 1;
      p.frags[at + i] := q.frags[i];
    }
    assert forall j :: 0 <= j < at + i0 ==> p.frags[j] == (old(p.frags[..at]) + q.frags[..i0])[j];
  }

  ghost function View(b: Buffer, off: nat, head: HeadPage): GroBuf
    requires b.nrFrags <= b.frags.Length
    reads b, b.frags
  {
    GroBuf(b.lin, b.frags[..b.nrFrags], off, head)
  }

  lemma PayloadFragsSize(b: GroBuf)
    requires Shaped(b) && (|b.lin| <= b.off || b.head.InPage?)
    ensures Sizes(PayloadFrags(b)) == GroLen(b) && PayloadFrags(b) != []
    ensures |PayloadFrags(b)| == |b.frags| + if |b.lin| <= b.off then 0 else 1
  {
    assert PayloadFrags(b)[1..] == if |b.lin| <= b.off then b.frags[1..] else b.frags;
  }

  /** The payload of `q` is all in page fragments: the first one loses its header bytes. */
  method TakePages(p: Buffer, q: Buffer, off: nat, ghost head: HeadPage)
    requires p != q && p.frags != q.frags && p.frags.Length == q.frags.Length == MAX_SKB_FRAGS
    requires p.nrFrags + q.nrFrags <= MAX_SKB_FRAGS
    requires Shaped(View(q, off, head)) && |q.lin| <= off
    modifies p`nrFrags, p.frags
    ensures p.nrFrags == old(p.nrFrags) + q.nrFrags
    ensures p.frags[..p.nrFrags] == old(p.frags[..p.nrFrags]) + PayloadFrags(View(q, off, head))
  {
    ghost var pf, qf := p.frags[..p.nrFrags], q.frags[..q.nrFrags];
    FirstAdvanced(pf, View(q, off, head));
    hide *;
    var at := p.nrFrags;
    AppendFrags(p, q, at, q.nrFrags);
    assert p.frags[at] == (pf + qf)[at] by {
      assert p.frags[..at + q.nrFrags][at] == p.frags[at];
    }
    p.frags[at] := Advance(p.frags[at], off - |q.lin|);
    p.nrFrags := at + q.nrFrags;
    assert p.frags[..p.nrFrags] == (pf + qf)[at := Advance((pf + qf)[at], off - |q.lin|)];
  }

  lemma FirstAdvanced(pf: seq<Frag>, b: GroBuf)
    requires Shaped(b) && |b.lin| <= b.off
    ensures b.frags != [] && b.off - |b.lin| <= b.frags[0].size
    ensures (pf + b.frags)[|pf| := Advance((pf + b.frags)[|pf|], b.off - |b.lin|)] == pf + PayloadFrags(b)
  {
    PayloadFragsSize(b);
  }

  /** The linear bytes behind the headers become a fragment of the page they lie in. */
  method TakeHead(p: Buffer, q: Buffer, off: nat, head: HeadPage)
    requires p != q && p.frags != q.frags && p.frags.Length == q.frags.Length == MAX_SKB_FRAGS
    requires p.nrFrags + 1 + q.nrFrags <= MAX_SKB_FRAGS
    requires Shaped(View(q, off, head)) && |q.lin| > off && head.InPage?
    modifies p`nrFrags, p.frags
    ensures p.nrFrags == old(p.nrFrags) + 1 + q.nrFrags
    ensures p.frags[..p.nrFrags] == old(p.frags[..p.nrFrags]) + PayloadFrags(View(q, off, head))
  {
    var at, f := p.nrFrags, Frag(head.page, head.off + off, |q.lin| - off);
    ghost var pf, qf := p.frags[..at], q.frags[..q.nrFrags];
    assert PayloadFrags(View(q, off, head)) == [f] + qf;
    hide *;
    p.frags[at] := f;
    assert p.frags[..at + 1] == pf + [f];
    AppendFrags(p, q, at + 1, q.nrFrags);
    p.nrFrags := at + 1 + q.nrFrags;
    assert pf + [f] + qf == pf + ([f] + qf);
  }

  /** skb_gro_merge on two buffers without frag_list; `off` and `head` belong to `q`, which loses
      the fragments that `p` takes over. */
  method GroMerge(p: Buffer, q: Buffer, ghost offP: nat, ghost headP: HeadPage, off: nat, head: HeadPage)
      returns (tooBig: bool, invalid: bool)
    requires p != q && p.frags != q.frags && p.Valid() && q.Valid() && p.list == [] && q.list == []
    requires Shaped(View(q, off, head))
    modifies p, p.frags, q
    ensures p.Valid()
    ensures var r := Merge(old(View(p, offP, headP)), old(View(q, off, head)));
      && tooBig == r.TooBig? && invalid == r.Invalid?
      && View(p, offP, headP) == (if r.Merged? then r.buf else old(View(p, offP, headP)))
      && q.Valid() && q.Abs() == (if r.Merged? && |q.lin| <= off then old(q.Abs()).(frags := []) else old(q.Abs()))
  {
    ghost var v := View(q, off, head);
    if |q.lin| <= off || head.InPage? {
      PayloadFragsSize(v);
      SizesConcat(p.frags[..p.nrFrags], PayloadFrags(v));
    }
    hide Sizes, PayloadFrags;
    tooBig, invalid := false, false;
    var len := q.len - off;
    if p.len + len >= 65536 {
      return true, false;
    }
    if |q.lin| <= off {
      if p.nrFrags + q.nrFrags > MAX_SKB_FRAGS {
        return true, false;
      }
      TakePages(p, q, off, head);
      q.nrFrags, q.len, q.dataLen := 0, q.len - q.dataLen, 0;
    } else if head.InPage? {
      if p.nrFrags + 1 + q.nrFrags > MAX_SKB_FRAGS {
        return true, false;
      }
      TakeHead(p, q, off, head);
    } else {
      return false, true;
    }
    p.dataLen, p.len := p.dataLen + len, p.len + len;
  }

  // ---------------------------------------------------------------------------------------
  // Segmentation undoes merging.

  ghost predicate AllOk(m: Mem, bs: seq<GroBuf>) {
    forall i :: 0 <= i < |bs| ==> GroOk(m, bs[i])
  }

  /** The packets merged one after the other into the first. */
  function MergeAll(p: GroBuf, qs: seq<GroBuf>): MergeResult
    decreases |qs|
  {
    if qs == [] then Merged(p)
    else if !Shaped(qs[0]) then Invalid
    else
      match Merge(p, qs[0])
      case Merged(r) => MergeAll(r, qs[1..])
      case TooBig => TooBig
      case Invalid => Invalid
  }

  predicate AllShaped(qs: seq<GroBuf>) {
    forall i :: 0 <= i < |qs| ==> Shaped(qs[i])
  }

  /** Payload bytes and fragments that a row of packets brings. */
  ghost function Lengths(qs: seq<GroBuf>): nat
    requires AllShaped(qs)
  {
    if qs == [] then 0 else GroLen(qs[0]) + Lengths(qs[1..])
  }

  ghost function Places(qs: seq<GroBuf>): nat {
    if qs == [] then 0 else |qs[0].frags| + (if |qs[0].lin| <= qs[0].off then 0 else 1) + Places(qs[1..])
  }

  /** A row of packets is merged if and only if all payloads can be referred to as fragments and
      the result is within the limits of one packet. */
  lemma {:induction false} AllMergedIff(p: GroBuf, qs: seq<GroBuf>)
    requires Shaped(p) && AllShaped(qs) && qs != []
    ensures MergeAll(p, qs).Merged? <==>
      && (forall i :: 0 <= i < |qs| ==> |qs[i].lin| <= qs[i].off || qs[i].head.InPage?)
      && Total(p) + Lengths(qs) < 65536 && |p.frags| + Places(qs) <= MAX_SKB_FRAGS
    decreases |qs|
  {
    MergedIff(p, qs[0]);
    if Merge(p, qs[0]).Merged? {
      PayloadFragsSize(qs[0]);
      MergeShape(p, qs[0]);
      AllMergedStep(p, qs);
      if |qs| == 1 {
      } else {
        AllMergedIff(Merge(p, qs[0]).buf, qs[1..]);
      }
    }
  }

  lemma AllMergedStep(p: GroBuf, qs: seq<GroBuf>)
    requires qs != [] && Shaped(qs[0]) && Merge(p, qs[0]).Merged?
    ensures MergeAll(p, qs) == MergeAll(Merge(p, qs[0]).buf, qs[1..])
    ensures |Merge(p, qs[0]).buf.frags| == |p.frags| + |PayloadFrags(qs[0])|
  {
  }

  ghost function Payloads(m: Mem, bs: seq<GroBuf>): (r: seq<seq<byte>>)
    requires AllOk(m, bs)
    ensures |r| == |bs|
  {
    if bs == [] then [] else [Payload(m, bs[0])] + Payloads(m, bs[1..])
  }

  lemma {:induction false} MergeAllMeaning(m: Mem, p: GroBuf, qs: seq<GroBuf>)
    requires GroOk(m, p) && AllOk(m, qs) && MergeAll(p, qs).Merged?
    ensures var r := MergeAll(p, qs).buf;
      && GroOk(m, r) && r.lin == p.lin && r.off == p.off
      && Payload(m, r) == Payload(m, p) + Concat(Payloads(m, qs))
    decreases |qs|
  {
    hide *;
    if qs == [] {
      MergeAllNone(m, p);
      assert Payload(m, p) + [] == Payload(m, p);
    } else {
      PayloadsUnfold(m, qs);
      MergeAllUnfold(p, qs);
      MergeMeaning(m, p, qs[0]);
      MergeAllMeaning(m, Merge(p, qs[0]).buf, qs[1..]);
      var x, y, z := Payload(m, p), Payload(m, qs[0]), Concat(Payloads(m, qs[1..]));
      assert x + y + z == x + (y + z);
    }
  }

  lemma MergeAllNone(m: Mem, p: GroBuf)
    ensures MergeAll(p, []) == Merged(p) && AllOk(m, []) && Concat(Payloads(m, [])) == []
  {
  }

  lemma PayloadsUnfold(m: Mem, qs: seq<GroBuf>)
    requires AllOk(m, qs) && qs != []
    ensures GroOk(m, qs[0]) && AllOk(m, qs[1..]) && Payloads(m, qs)[0] == Payload(m, qs[0])
    ensures Payloads(m, qs)[1..] == Payloads(m, qs[1..])
    ensures Concat(Payloads(m, qs)) == Payload(m, qs[0]) + Concat(Payloads(m, qs[1..]))
  {
  }

  lemma MergeAllUnfold(p: GroBuf, qs: seq<GroBuf>)
    requires qs != [] && MergeAll(p, qs).Merged?
    ensures Shaped(qs[0]) && Merge(p, qs[0]).Merged? && MergeAll(Merge(p, qs[0]).buf, qs[1..]) == MergeAll(p, qs)
  {
  }

  datatype TcpHdr = TcpHdr(sn: int, fin: bool, psh: bool, cwr: bool)

  /** The header of segment `k` out of `n` made from one with header `h`. */
  function Numbered(h: TcpHdr, k: nat, n: nat, mss: nat): TcpHdr {
    TcpHdr(Wrap(h.sn + k * mss), h.fin && k == n - 1, h.psh && k == n - 1, h.cwr && k == 0)
  }

  /** The header loop of tcp_gso_segment over two or more segments with copies of one header. */
  method NumberSegments(th: array<TcpHdr>, ghost h: TcpHdr, mss: nat)
    requires th.Length >= 2 && 0 <= h.sn < M32 && forall k :: 0 <= k < th.Length ==> th[k] == h
    modifies th
    ensures forall k :: 0 <= k < th.Length ==> th[k] == Numbered(h, k, th.Length, mss)
  {
    var i: nat := 0;
    var sn := th[0].sn;
    assert sn == Wrap(h.sn + 0 * mss);
    while i + 1 < th.Length
      invariant i < th.Length && sn == Wrap(h.sn + i * mss)
      invariant forall k :: 0 <= k < i ==> th[k] == Numbered(h, k, th.Length, mss)
      invariant th[i] == TcpHdr(sn, h.fin, h.psh, h.cwr && i == 0)
      invariant forall k :: i < k < th.Length ==> th[k] == h
    {
      th[i] := th[i].(fin := false, psh := false);
      WrapAdd(h.sn + i * mss, mss);
      assert (i + 1) * mss == i * mss + mss;
      sn := Wrap(sn + mss);
      i := i + 1;
      th[i] := th[i].(sn := sn, cwr := false);
    }
  }

  /** Consecutive packets of the stream: each starts where the one before ends. */
  ghost predicate Consecutive(ps: seq<seq<byte>>, sns: seq<int>) {
    && |sns| == |ps|
    && forall i :: 0 < i < |sns| ==> sns[i] == Wrap(sns[i - 1] + |ps[i - 1]|)
  }

  lemma {:induction false} ConsecutiveNumbers(ps: seq<seq<byte>>, sns: seq<int>, mss: nat, k: nat)
    requires mss > 0 && EvenPieces(ps, mss) && Consecutive(ps, sns) && 0 <= sns[0] < M32 && k < |ps|
    ensures sns[k] == Wrap(sns[0] + k * mss)
  {
    if k > 0 {
      ConsecutiveNumbers(ps, sns, mss, k - 1);
      assert |ps[k - 1]| == mss;
      WrapAdd(sns[0] + (k - 1) * mss, mss);
      assert k * mss == (k - 1) * mss + mss;
    } else {
      assert k * mss == 0;
    }
  }

  /** Consecutive packets of `mss` bytes, the last one possibly shorter, that were merged into
      one are given back by segmentation: as many segments, each with the payload and the
      sequence number of the packet in its place. */
  lemma SegmentationUndoesMerging(m: Mem, bs: seq<GroBuf>, sns: seq<int>, mss: nat, h: TcpHdr)
    requires bs != [] && AllOk(m, bs) && MergeAll(bs[0], bs[1..]).Merged?
    requires mss > 0 && EvenPieces(Payloads(m, bs), mss) && Consecutive(Payloads(m, bs), sns)
    requires 0 <= h.sn < M32 && h.sn == sns[0]
    ensures var r := MergeAll(bs[0], bs[1..]).buf;
      && GroOk(m, r) && r.off == bs[0].off && r.lin == bs[0].lin
      && Slices(Payload(m, r), mss) == Payloads(m, bs)
      && forall k :: 0 <= k < |bs| ==> Numbered(h, k, |bs|, mss).sn == sns[k]
  {
    hide *;
    var ps := Payloads(m, bs);
    PayloadsUnfold(m, bs);
    MergeAllMeaning(m, bs[0], bs[1..]);
    SlicesOfConcat(ps, mss);
    NumberedLikePackets(ps, sns, mss, h);
  }

  /** tcp_gso_segment on a buffer without frag_list whose headers, `doffset` bytes with TCP header
      `h`, are linear: nothing to do when the payload fits one segment. */
  method TcpGsoSegment(ghost m: Mem, s: Skb, h: TcpHdr, doffset: nat, mss: nat, sg: bool, flat: seq<byte>)
      returns (ok: bool, segs: seq<Skb>, ths: seq<TcpHdr>)
    requires Ok(m, s) && s.list == [] && |s.frags| <= MAX_SKB_FRAGS && mss > 0 && 0 <= h.sn < M32
    requires doffset <= |s.lin| && doffset < Len(s) && flat == Flat(m, s)
    ensures ok <==> Len(s) - doffset > mss
    ensures ok ==> SegmentsOf(m, segs, s.lin[..doffset], Slices(flat[doffset..], mss))
    ensures ok ==> |ths| == |segs| && forall k :: 0 <= k < |segs| ==> ths[k] == Numbered(h, k, |segs|, mss)
    ensures ok ==> |ths| >= 2 && ths[0].sn == h.sn
    ensures ok ==> forall k :: 0 < k < |ths| ==> ths[k].sn == Wrap(ths[k - 1].sn + |Slices(flat[doffset..], mss)[k - 1]|)
    ensures ok ==> forall k :: 0 <= k < |ths| ==>
      if k + 1 < |ths| then !ths[k].fin && !ths[k].psh else ths[k].fin == h.fin && ths[k].psh == h.psh
    ensures ok ==> ths[0].cwr == h.cwr && forall k :: 0 < k < |ths| ==> !ths[k].cwr
  {
    hide Slices, Numbered;
    if Len(s) - doffset <= mss {
      return false, [], [];
    }
    segs := Segment(m, s, doffset, mss, sg, flat);
    TwoSlices(flat[doffset..], mss);
    var th := new TcpHdr[|segs|](_ => h);
    NumberSegments(th, h, mss);
    NumbersFollow(th[..], h, flat[doffset..], mss);
    return true, segs, th[..];
  }

  /** The number of a segment is where the one before ends, and flags are given out once. */
  lemma NumbersFollow(ths: seq<TcpHdr>, h: TcpHdr, p: seq<byte>, mss: nat)
    requires 0 < mss < |p| && 0 <= h.sn < M32 && |ths| == |Slices(p, mss)| >= 2
    requires forall k :: 0 <= k < |ths| ==> ths[k] == Numbered(h, k, |ths|, mss)
    ensures ths[0].sn == h.sn && forall k :: 0 < k < |ths| ==> ths[k].sn == Wrap(ths[k - 1].sn + |Slices(p, mss)[k - 1]|)
    ensures forall k :: 0 <= k < |ths| ==>
      if k + 1 < |ths| then !ths[k].fin && !ths[k].psh else ths[k].fin == h.fin && ths[k].psh == h.psh
    ensures ths[0].cwr == h.cwr && forall k :: 0 < k < |ths| ==> !ths[k].cwr
  {
    hide Slices, Wrap, Concat;
    SlicesMeaning(p, mss);
    NumberZero(h, |ths|, mss);
    forall k | 0 < k < |ths|
      ensures ths[k].sn == Wrap(ths[k - 1].sn + |Slices(p, mss)[k - 1]|)
    {
      NumberNext(h, k, |ths|, mss);
    }
  }

  lemma NumberZero(h: TcpHdr, n: nat, mss: nat)
    requires 0 <= h.sn < M32
    ensures Numbered(h, 0, n, mss).sn == h.sn
  {
    assert h.sn + 0 * mss == h.sn;
  }

  lemma NumberNext(h: TcpHdr, k: nat, n: nat, mss: nat)
    requires k > 0
    ensures Numbered(h, k, n, mss).sn == Wrap(Numbered(h, k - 1, n, mss).sn + mss)
  {
    hide Wrap;
    assert k * mss == (k - 1) * mss + mss;
    WrapAdd(h.sn + (k - 1) * mss, mss);
  }

  lemma TwoSlices(p: seq<byte>, mss: nat)
    requires 0 < mss < |p|
    ensures |Slices(p, mss)| >= 2
  {
  }

  /** The segments that tcp_gso_segment makes of packets merged by skb_gro_merge are these
      packets: as many, each with the headers of the first, its own payload and its own sequence
      number. */
  lemma GsoUndoesGro(m: Mem, bs: seq<GroBuf>, sns: seq<int>, mss: nat, h: TcpHdr, segs: seq<Skb>, ths: seq<TcpHdr>)
    requires bs != [] && AllOk(m, bs) && MergeAll(bs[0], bs[1..]).Merged? && bs[0].off <= |bs[0].lin|
    requires mss > 0 && EvenPieces(Payloads(m, bs), mss) && Consecutive(Payloads(m, bs), sns)
    requires 0 <= h.sn < M32 && h.sn == sns[0]
    requires var r := MergeAll(bs[0], bs[1..]).buf;
      && Ok(m, Skb(r.lin, r.frags, [])) && r.off <= Len(Skb(r.lin, r.frags, [])) && r.off <= |r.lin|
      && SegmentsOf(m, segs, r.lin[..r.off], Slices(Flat(m, Skb(r.lin, r.frags, []))[r.off..], mss))
    requires |ths| == |segs| && forall k :: 0 <= k < |segs| ==> ths[k] == Numbered(h, k, |segs|, mss)
    ensures |segs| == |bs| && SegmentsOf(m, segs, bs[0].lin[..bs[0].off], Payloads(m, bs))
    ensures forall k :: 0 <= k < |bs| ==> ths[k].sn == sns[k]
  {
    hide *;
    var r := MergeAll(bs[0], bs[1..]).buf;
    SegmentationUndoesMerging(m, bs, sns, mss, h);
    PayloadOfFlat(m, r);
    SegmentsLength(m, segs, r.lin[..r.off], Payloads(m, bs));
  }

  lemma PayloadOfFlat(m: Mem, b: GroBuf)
    requires GroOk(m, b)
    ensures Ok(m, Skb(b.lin, b.frags, [])) && b.off <= Len(Skb(b.lin, b.frags, []))
    ensures Payload(m, b) == Flat(m, Skb(b.lin, b.frags, []))[b.off..]
  {
    assert FragsFlat(m, b.frags) + [] == FragsFlat(m, b.frags);
  }

  lemma SegmentsLength(m: Mem, segs: seq<Skb>, hdr: seq<byte>, ps: seq<seq<byte>>)
    requires SegmentsOf(m, segs, hdr, ps)
    ensures |segs| == |ps|
  {
  }

  lemma NumberedLikePackets(ps: seq<seq<byte>>, sns: seq<int>, mss: nat, h: TcpHdr)
    requires mss > 0 && EvenPieces(ps, mss) && Consecutive(ps, sns)
    requires 0 <= h.sn < M32 && h.sn == sns[0]
    ensures forall k :: 0 <= k < |ps| ==> Numbered(h, k, |ps|, mss).sn == sns[k]
  {
    hide Wrap;
    forall k | 0 <= k < |ps|
      ensures Numbered(h, k, |ps|, mss).sn == sns[k]
    {
      ConsecutiveNumbers(ps, sns, mss, k);
    }
  }
}
