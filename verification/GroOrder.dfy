/**
  What the out-of-order queue keeps over every history, on stream positions: it is sorted and
  disjoint, two neighbours touch only when merging them is refused for size, and packets leave
  it in strictly increasing order.  They leave it without overlaps exactly as long as no
  arrival clashes with the queue.
 */
module GroOrder {
  import opened Serial
  import opened SkbData
  import opened SkbGro
  import opened GroQueue

  /** A packet the queue may hold: `off` header bytes, and a payload. */
  ghost predicate Good(p: Pkt, off: nat) {
    p.len > 0 && Shaped(p.buf) && GroLen(p.buf) == p.len && p.buf.off == off
  }

  ghost predicate AllGood(q: seq<Pkt>, off: nat) {
    forall i :: 0 <= i < |q| ==> Good(q[i], off)
  }

  /** `u` may be held in front of `v`. */
  ghost predicate Joint(u: Pkt, v: Pkt) {
    && u.sn + u.len <= v.sn
    && (u.sn + u.len == v.sn ==> Join(u.buf, v.buf) == TooBig)
  }

  ghost predicate Fits(q: seq<Pkt>) {
    forall i :: 0 <= i < |q| - 1 ==> Joint(q[i], q[i + 1])
  }

  ghost predicate Disjoint(q: seq<Pkt>) {
    forall i, j :: 0 <= i < j < |q| ==> q[i].sn + q[i].len <= q[j].sn
  }

  ghost predicate Rising(q: seq<Pkt>) {
    forall i, j :: 0 <= i < j < |q| ==> q[i].sn < q[j].sn
  }

  /** Everything in `d` ends at or before `x`. */
  ghost predicate EndBy(d: seq<Pkt>, x: int) {
    forall i :: 0 <= i < |d| ==> d[i].sn + d[i].len <= x
  }

  /** What is known of a queue about to be completed as a whole. */
  ghost predicate Loose(s: Queue, off: nat) {
    && AllGood(s.q, off) && Rising(Line(s)) && EndBy(s.done, s.next)
    && forall i :: 0 <= i < |s.done| ==> s.done[i].len > 0
  }

  /** Disjoint, and ahead of everything that has left. */
  ghost predicate Calm(s: Queue, off: nat) {
    Loose(s, off) && Disjoint(s.q) && (s.q != [] ==> EndBy(s.done, s.q[0].sn))
  }

  ghost predicate Inv(s: Queue, off: nat) {
    Calm(s, off) && Fits(s.q)
  }

  // ---------------------------------------------------------------------------------------
  // Changes of the queue.

  function Splice(q: seq<Pkt>, a: nat, b: nat, w: Pkt): (r: seq<Pkt>)
    requires a <= b <= |q|
    ensures |r| == a + 1 + |q| - b && r[a] == w
    ensures forall i :: 0 <= i < a ==> r[i] == q[i]
    ensures forall i :: a < i < |r| ==> r[i] == q[i - a - 1 + b]
  {
    q[..a] + [w] + q[b..]
  }

  /** The packets from `a` to before `b` are replaced by `w`. */
  lemma SpliceDisjoint(q: seq<Pkt>, a: nat, b: nat, w: Pkt, off: nat)
    requires AllGood(q, off) && Disjoint(q) && a <= b <= |q| && Good(w, off)
    requires a > 0 ==> q[a - 1].sn + q[a - 1].len <= w.sn
    requires b < |q| ==> w.sn + w.len <= q[b].sn
    ensures AllGood(Splice(q, a, b, w), off) && Disjoint(Splice(q, a, b, w))
  {
    hide Shaped, GroLen;
    var r := Splice(q, a, b, w);
    forall i, j | 0 <= i < j < |r|
      ensures r[i].sn + r[i].len <= r[j].sn
    {
      SplicePair(q, a, b, w, off, i, j);
    }
  }

  lemma SpliceFits(q: seq<Pkt>, a: nat, b: nat, w: Pkt)
    requires Fits(q) && a <= b <= |q|
    requires a > 0 ==> Joint(q[a - 1], w)
    requires b < |q| ==> Joint(w, q[b])
    ensures Fits(Splice(q, a, b, w))
  {
    hide Joint;
    var r := Splice(q, a, b, w);
    forall i | 0 <= i < |r| - 1
      ensures Joint(r[i], r[i + 1])
    {
      if i + 1 < a { assert Joint(q[i], q[i + 1]); }
      else if i > a { assert Joint(q[i - a - 1 + b], q[i - a - 1 + b + 1]); }
    }
  }

  lemma SplicePair(q: seq<Pkt>, a: nat, b: nat, w: Pkt, off: nat, i: nat, j: nat)
    requires AllGood(q, off) && Disjoint(q) && a <= b <= |q| && Good(w, off)
    requires a > 0 ==> q[a - 1].sn + q[a - 1].len <= w.sn
    requires b < |q| ==> w.sn + w.len <= q[b].sn
    requires i < j < |q| + a + 1 - b
    ensures var r := Splice(q, a, b, w);
      r[i].sn + r[i].len <= r[j].sn
  {
    hide Shaped, GroLen;
    if i < a {
      assert q[i].sn + q[i].len <= q[a - 1].sn + q[a - 1].len by {
        if i < a - 1 { assert q[i].sn + q[i].len <= q[a - 1].sn; }
      }
      if j > a {
        var k := j - a - 1 + b;
        if b < k { assert q[b].sn + q[b].len <= q[k].sn; }
      }
    } else if i == a {
      var k := j - a - 1 + b;
      if b < k { assert q[b].sn + q[b].len <= q[k].sn; }
    }
  }

  lemma CalmIntro(s: Queue, off: nat)
    requires AllGood(s.q, off) && Disjoint(s.q)
    requires Rising(s.done) && EndBy(s.done, s.next) && (s.q != [] ==> EndBy(s.done, s.q[0].sn))
    requires forall i :: 0 <= i < |s.done| ==> s.done[i].len > 0
    ensures Calm(s, off)
  {
    hide Shaped, GroLen;
    var d, q, n := s.done, s.q, |s.done|;
    forall i, j | 0 <= i < j < n + |q|
      ensures Line(s)[i].sn < Line(s)[j].sn
    {
      if i < n <= j {
        assert q[0].sn <= q[j - n].sn by { if j > n { assert q[0].sn + q[0].len <= q[j - n].sn; } }
      }
    }
  }

  lemma DoneRises(s: Queue, off: nat)
    requires Loose(s, off)
    ensures Rising(s.done)
  {
    hide Shaped, GroLen;
    assert forall i :: 0 <= i < |s.done| ==> s.done[i] == Line(s)[i];
  }

  lemma CalmAfterSplice(s: Queue, a: nat, b: nat, w: Pkt, off: nat)
    requires Calm(s, off) && a <= b <= |s.q| && Good(w, off)
    requires a > 0 ==> s.q[a - 1].sn + s.q[a - 1].len <= w.sn
    requires b < |s.q| ==> w.sn + w.len <= s.q[b].sn
    requires a == 0 ==> EndBy(s.done, w.sn)
    ensures Calm(s.(q := Splice(s.q, a, b, w)), off)
  {
    hide Shaped, GroLen;
    SpliceDisjoint(s.q, a, b, w, off);
    DoneRises(s, off);
    CalmIntro(s.(q := Splice(s.q, a, b, w)), off);
  }

  lemma InvAfterSplice(s: Queue, a: nat, b: nat, w: Pkt, off: nat)
    requires Inv(s, off) && a <= b <= |s.q| && Good(w, off)
    requires a > 0 ==> Joint(s.q[a - 1], w)
    requires b < |s.q| ==> Joint(w, s.q[b])
    requires a == 0 ==> EndBy(s.done, w.sn)
    ensures Inv(s.(q := Splice(s.q, a, b, w)), off)
  {
    hide Calm, Good, Join, EndBy, Fits;
    CalmAfterSplice(s, a, b, w, off);
    SpliceFits(s.q, a, b, w);
  }

  // ---------------------------------------------------------------------------------------
  // Packets leave from the front, and the line stays as it is.

  lemma LineDisjoint(s: Queue, off: nat)
    requires Calm(s, off)
    ensures Disjoint(Line(s)) <==> Disjoint(s.done)
  {
    hide Shaped, GroLen;
    var d, n := s.done, |s.done|;
    if Disjoint(d) {
      forall i, j | 0 <= i < j < n + |s.q|
        ensures Line(s)[i].sn + Line(s)[i].len <= Line(s)[j].sn
      {
        if i < n <= j && j > n { assert s.q[0].sn + s.q[0].len <= s.q[j - n].sn; }
      }
    } else {
      assert forall i :: 0 <= i < n ==> d[i] == Line(s)[i];
    }
  }

  lemma FlushThroughKeeps(s: Queue, i: nat, off: nat)
    requires Calm(s, off) && i < |s.q|
    ensures var r := FlushThrough(Exact, s, i);
      && Calm(r, off) && Line(r) == Line(s) && s.done <= r.done
      && r.next == s.q[i].sn + s.q[i].len && (Fits(s.q) ==> Fits(r.q))
  {
    hide Shaped, GroLen, Fits;
    var n, r := |s.done|, FlushThrough(Exact, s, i);
    assert s.q == s.q[..i + 1] + s.q[i + 1..];
    assert Line(r) == Line(s);
    assert s.q[0].sn <= s.q[i].sn;
    forall j | 0 <= j < |r.done|
      ensures r.done[j].sn + r.done[j].len <= r.next && r.done[j].len > 0
    {
      if j >= n { assert r.done[j] == s.q[j - n]; }
    }
    SuffixKeeps(s.q, i + 1, off);
  }

  lemma PopHeadKeeps(s: Queue, off: nat)
    requires Loose(s, off) && s.q != []
    ensures var r := PopHead(Exact, s);
      && Loose(r, off) && Line(r) == Line(s) && s.done <= r.done && s.next <= r.next
      && (Inv(s, off) ==> Inv(r, off))
  {
    hide Shaped, GroLen, Join;
    hide Fits, Disjoint, Rising;
    var r, x := PopHead(Exact, s), s.q[0];
    assert s.q == [x] + s.q[1..];
    assert Line(r) == Line(s);
    if Inv(s, off) {
      SuffixKeeps(s.q, 1, off);
      if |s.q| > 1 { FirstBeforeSecond(s.q); }
    }
  }

  lemma FirstBeforeSecond(q: seq<Pkt>)
    requires |q| > 1 && Disjoint(q)
    ensures q[0].sn + q[0].len <= q[1].sn
  {
  }

  lemma SuffixKeeps(q: seq<Pkt>, k: nat, off: nat)
    requires k <= |q|
    ensures Fits(q) ==> Fits(q[k..])
    ensures Disjoint(q) ==> Disjoint(q[k..])
    ensures AllGood(q, off) ==> AllGood(q[k..], off)
  {
    hide Joint, Good;
    if Fits(q) {
      forall j | 0 <= j < |q[k..]| - 1
        ensures Joint(q[k..][j], q[k..][j + 1])
      {
        assert Joint(q[k + j], q[k + j + 1]);
      }
    }
  }

  lemma {:induction false} PopManyKeeps(s: Queue, k: nat, off: nat)
    requires Loose(s, off) && k <= |s.q|
    ensures var r := PopMany(Exact, s, k);
      && Loose(r, off) && Line(r) == Line(s) && s.done <= r.done && s.next <= r.next
      && r.q == s.q[k..] && (Inv(s, off) ==> Inv(r, off))
    decreases k
  {
    hide Loose, Inv, Line;
    if k == 0 {
    } else {
      PopHeadKeeps(s, off);
      PopManyKeeps(PopHead(Exact, s), k - 1, off);
    }
  }

  lemma {:induction false} PopInSequenceKeeps(s: Queue, off: nat) returns (k: nat)
    requires Loose(s, off)
    ensures var r := PopInSequence(Exact, s);
      && Loose(r, off) && Line(r) == Line(s) && s.done <= r.done && s.next <= r.next
      && k <= |s.q| && r.q == s.q[k..] && (Inv(s, off) ==> Inv(r, off))
      && (r.q != [] ==> r.next < r.q[0].sn)
    decreases |s.q|
  {
    hide Loose, Inv, Line;
    k := 0;
    if s.q == [] || s.next < s.q[0].sn {
    } else {
      PopHeadKeeps(s, off);
      k := PopInSequenceKeeps(PopHead(Exact, s), off);
      k := k + 1;
    }
  }

  lemma SameLine(d: seq<Pkt>, q: seq<Pkt>, d': seq<Pkt>, k: nat)
    requires k <= |q| && d' + q[k..] == d + q
    ensures d' == d + q[..k]
  {
    assert d + q == d + q[..k] + q[k..];
    assert |d'| == |d + q[..k]|;
    assert d' == (d' + q[k..])[..|d'|];
  }

  /** A flush by timeout: a prefix leaves, in order; what stays is younger than the timeout and
      starts behind everything that has left. */
  lemma CompleteKeeps(s: Queue, now: int, timeout: nat, off: nat) returns (k: nat)
    requires Loose(s, off)
    ensures var r := Complete(Exact, s, now, timeout);
      && k <= |s.q| && r.q == s.q[k..] && r.done == s.done + s.q[..k]
      && (timeout == 0 ==> r.q == [])
      && (forall i :: 0 <= i < |r.q| ==> Young(r.q[i], now, timeout))
      && (r.q != [] ==> r.next < r.q[0].sn) && s.next <= r.next
      && Loose(r, off) && (Inv(s, off) || r.q == [] ==> Inv(r, off)) && Line(r) == Line(s)
  {
    hide Loose, Inv, Line, Young, KeepFrom, PopMany, PopInSequence;
    var n := Expired(s.q, now, timeout);
    PopManyKeeps(s, n, off);
    k := PopInSequenceKeeps(PopMany(Exact, s, n), off);
    assert s.q[n..][k..] == s.q[n + k..];
    k := n + k;
    assert forall i :: 0 <= i < |s.q[k..]| ==> Young(s.q[k..][i], now, timeout);
    CompleteTail(s, Complete(Exact, s, now, timeout), k, off);
  }

  lemma CompleteTail(s: Queue, r: Queue, k: nat, off: nat)
    requires k <= |s.q| && r.q == s.q[k..] && Line(r) == Line(s)
    requires Loose(r, off)
    ensures r.done == s.done + s.q[..k]
    ensures r.q == [] ==> Inv(r, off)
  {
    SameLine(s.done, s.q, r.done, k);
    if r.q == [] {
      DoneRises(r, off);
      hide Rising, EndBy;
      CalmIntro(r, off);
    }
  }

  // ---------------------------------------------------------------------------------------
  // Merging keeps what is known of the neighbours.

  ghost predicate IsMerge(x: Pkt, y: Pkt, w: Pkt) {
    Join(x.buf, y.buf) == Merged(w.buf) && w.sn == x.sn && w.len == x.len + y.len
  }

  lemma MergeGood(x: Pkt, y: Pkt, w: Pkt, off: nat)
    requires Good(x, off) && Good(y, off) && IsMerge(x, y, w)
    ensures Good(w, off)
  {
    MergeShape(x.buf, y.buf);
  }

  lemma MergeJoinsLeft(u: Pkt, x: Pkt, y: Pkt, w: Pkt, off: nat)
    requires Good(x, off) && Good(y, off) && IsMerge(x, y, w) && Joint(u, x)
    ensures Joint(u, w)
  {
    MergeShape(x.buf, y.buf);
    if u.sn + u.len == x.sn {
      TooBigStays(u.buf, x.buf, u.buf, w.buf);
    }
  }

  lemma MergeJoinsRight(x: Pkt, y: Pkt, w: Pkt, v: Pkt, off: nat)
    requires Good(x, off) && Good(y, off) && Good(v, off) && IsMerge(x, y, w) && Joint(y, v)
    requires x.sn + x.len == y.sn
    ensures Joint(w, v)
  {
    MergeShape(x.buf, y.buf);
    if y.sn + y.len == v.sn {
      TooBigStays(y.buf, v.buf, w.buf, v.buf);
    }
  }

  /** All packets before index `i` may stay in front of `p`. */
  ghost predicate Passed(q: seq<Pkt>, p: Pkt, i: nat)
    requires i <= |q|
  {
    forall j :: 0 <= j < i ==> Joint(q[j], p)
  }

  /** The arriving packet joins the one it follows and then runs into the next one
      (tcp_offload.c, "flush point 7"). */
  ghost predicate Clash(q: seq<Pkt>, p: Pkt) {
    exists i :: 0 <= i < |q| - 1 && ClashAt(q, p, i)
  }

  ghost predicate ClashAt(q: seq<Pkt>, p: Pkt, i: nat)
    requires i + 1 < |q|
  {
    q[i].sn + q[i].len == p.sn && Join(q[i].buf, p.buf).Merged? && p.sn + p.len > q[i + 1].sn
  }

  /** What a call makes of `s`: the invariant holds, or the queue is to be completed as a whole;
      and the line is disjoint if it was and there is no clash. */
  ghost predicate Kept(s: Queue, o: Outcome, off: nat, clash: bool) {
    && (if o.flush then Loose(o.s, off) else Inv(o.s, off))
    && s.done <= o.s.done
    && (Disjoint(Line(o.s)) <==> Disjoint(s.done) && !clash)
    && (clash ==> o.held && o.flush)
  }

  /** The queue was changed in place and is still calm. */
  lemma KeptInPlace(s: Queue, o: Outcome, off: nat)
    requires Calm(o.s, off) && o.s.done == s.done && (Fits(o.s.q) || o.flush)
    ensures Kept(s, o, off, false)
  {
    hide Loose, Disjoint, Line, Fits;
    LineDisjoint(o.s, off);
  }

  lemma KeptFlushThrough(s: Queue, t: Queue, i: nat, o: Outcome, off: nat)
    requires Calm(t, off) && t.done == s.done && i < |t.q| && o.s == FlushThrough(Exact, t, i)
    requires Fits(t.q[i + 1..])
    ensures Kept(s, o, off, false)
  {
    hide Loose, Disjoint, Line, Fits;
    FlushThroughKeeps(t, i, off);
    LineDisjoint(t, off);
  }

  lemma RefuseKeeps(s: Queue, i: nat, off: nat)
    requires Inv(s, off) && i < |s.q|
    ensures Kept(s, Refuse(Exact, s, i), off, false)
  {
    hide Calm, Fits, Kept;
    SuffixKeeps(s.q, i + 1, off);
    if i + 1 < |s.q| {
      KeptFlushThrough(s, s, i, Refuse(Exact, s, i), off);
    } else {
      KeptInPlace(s, Refuse(Exact, s, i), off);
    }
  }

  lemma InsertKeeps(s: Queue, i: nat, p: Pkt, off: nat)
    requires Inv(s, off) && i <= |s.q| && Good(p, off) && s.next <= p.sn && Passed(s.q, p, i)
    requires i < |s.q| ==> Joint(p, s.q[i])
    ensures Inv(s.(q := InsertAt(s.q, i, p)), off)
  {
    InvAfterSplice(s, i, i, p, off);
  }

  lemma MergeLeftKeeps(s: Queue, p: Pkt, i: nat, w: Pkt, off: nat)
    requires Inv(s, off) && i < |s.q| && Good(p, off) && s.next <= p.sn && Passed(s.q, p, i)
    requires p.sn + p.len == s.q[i].sn && IsMerge(p, s.q[i], w)
    ensures Inv(s.(q := s.q[i := w]), off)
  {
    hide Joint, Good, Join, IsMerge, EndBy, Disjoint, Rising;
    var x := s.q[i];
    MergeGood(p, x, w, off);
    if i > 0 {
      MergeJoinsLeft(s.q[i - 1], p, x, w, off);
    }
    if i + 1 < |s.q| {
      assert Joint(s.q[i], s.q[i + 1]);
      MergeJoinsRight(p, x, w, s.q[i + 1], off);
    }
    MergeStart(s, p, x, w);
    InvAfterSplice(s, i, i + 1, w, off);
    assert Splice(s.q, i, i + 1, w) == s.q[i := w];
  }

  lemma MergeStart(s: Queue, p: Pkt, x: Pkt, w: Pkt)
    requires EndBy(s.done, s.next) && s.next <= p.sn && IsMerge(p, x, w)
    ensures EndBy(s.done, w.sn)
  {
  }

  lemma JoinLeftKeeps(s: Queue, p: Pkt, i: nat, inSeq: int, off: nat)
    requires Inv(s, off) && i < |s.q| && Good(p, off) && s.next <= p.sn && Passed(s.q, p, i)
    requires p.sn + p.len == s.q[i].sn
    ensures Kept(s, JoinLeft(Exact, s, p, i, inSeq), off, false)
  {
    var x, o := s.q[i], JoinLeft(Exact, s, p, i, inSeq);
    RefuseKeeps(s, i, off);
    hide Calm, Disjoint, Join, InsertAt, Refuse, Passed, Kept, Fits;
    match Join(p.buf, x.buf)
    case Merged(b) =>
      MergeLeftKeeps(s, p, i, Pkt(p.sn, p.len + x.len, b, x.ts), off);
      KeptInPlace(s, o, off);
    case TooBig =>
      InsertKeeps(s, i, p, off);
      if o.held {
        KeptInPlace(s, o, off);
      }
    case Invalid =>
  }

  /** `p` joined the packet at `i` and does not reach beyond the start of the next one. */
  lemma MergeRightCalm(s: Queue, p: Pkt, i: nat, y: Pkt, off: nat)
    requires Inv(s, off) && i < |s.q| && Good(p, off)
    requires s.q[i].sn + s.q[i].len == p.sn && IsMerge(s.q[i], p, y)
    requires i + 1 < |s.q| ==> p.sn + p.len <= s.q[i + 1].sn
    ensures var t := s.(q := s.q[i := y]);
      && Calm(t, off) && Good(y, off) && (i > 0 ==> Joint(s.q[i - 1], y))
      && ((i + 1 < |s.q| ==> Joint(y, s.q[i + 1])) ==> Fits(t.q))
  {
    hide Join, Shaped, GroLen;
    var x := s.q[i];
    MergeGood(x, p, y, off);
    if i > 0 {
      MergeJoinsLeft(s.q[i - 1], x, p, y, off);
    }
    CalmAfterSplice(s, i, i + 1, y, off);
    assert Splice(s.q, i, i + 1, y) == s.q[i := y];
  }

  /** `p` fills the gap between the packets at `i` and `i + 1`. */
  lemma BridgedKeeps(s: Queue, p: Pkt, i: nat, y: Pkt, w: Pkt, off: nat)
    requires Inv(s, off) && i + 1 < |s.q| && Good(p, off)
    requires s.q[i].sn + s.q[i].len == p.sn && IsMerge(s.q[i], p, y)
    requires p.sn + p.len == s.q[i + 1].sn && IsMerge(y, s.q[i + 1], w)
    ensures Inv(s.(q := s.q[..i] + [w] + s.q[i + 2..]), off)
  {
    hide Join, Shaped, GroLen, Disjoint, Rising;
    var z := s.q[i + 1];
    MergeRightCalm(s, p, i, y, off);
    MergeGood(y, z, w, off);
    if i > 0 {
      MergeJoinsLeft(s.q[i - 1], y, z, w, off);
    }
    if i + 2 < |s.q| {
      assert Joint(z, s.q[i + 2]);
      MergeJoinsRight(y, z, w, s.q[i + 2], off);
    }
    InvAfterSplice(s, i, i + 2, w, off);
    assert Splice(s.q, i, i + 2, w) == s.q[..i] + [w] + s.q[i + 2..];
  }

  /** `p` joined the packet at `i` and overlaps the next one. */
  lemma ClashKeeps(s: Queue, p: Pkt, i: nat, y: Pkt, o: Outcome, off: nat)
    requires Inv(s, off) && i + 1 < |s.q| && Good(p, off)
    requires s.q[i].sn + s.q[i].len == p.sn && IsMerge(s.q[i], p, y)
    requires p.sn + p.len > s.q[i + 1].sn
    requires o == Outcome(s.(q := s.q[i := y]), true, true)
    ensures Kept(s, o, off, true)
  {
    hide Join, Shaped, GroLen, Fits;
    MergeGood(s.q[i], p, y, off);
    var l, l', k := Line(s), Line(o.s), |s.done| + i;
    assert l' == l[k := y] && l[k] == s.q[i];
    assert !Disjoint(l') by {
      assert l'[k] == y && l'[k + 1] == s.q[i + 1];
    }
  }

  lemma BridgeKeeps(s: Queue, p: Pkt, y: Pkt, i: nat, inOrder: bool, short: bool, off: nat)
    requires Inv(s, off) && i < |s.q| && Good(p, off)
    requires s.q[i].sn + s.q[i].len == p.sn && IsMerge(s.q[i], p, y)
    ensures Kept(s, Bridge(Exact, s, y, i, p.sn + p.len, inOrder, short), off,
                 i + 1 < |s.q| && p.sn + p.len > s.q[i + 1].sn)
  {
    var o, t := Bridge(Exact, s, y, i, p.sn + p.len, inOrder, short), s.(q := s.q[i := y]);
    if i + 1 < |s.q| && p.sn + p.len > s.q[i + 1].sn {
      hide Kept, Inv, Join;
      ClashKeeps(s, p, i, y, o, off);
    } else {
      hide Calm, Kept, Fits, Disjoint, Join, IsMerge, Good;
      MergeRightCalm(s, p, i, y, off);
      if i + 1 < |s.q| && p.sn + p.len == s.q[i + 1].sn {
        BridgeTouching(s, p, y, i, inOrder, short, off);
      } else {
        BridgeApart(s, p, y, i, off);
        KeptInPlace(s, o, off);
      }
    }
  }

  lemma BridgeApart(s: Queue, p: Pkt, y: Pkt, i: nat, off: nat)
    requires i < |s.q| && s.q[i].sn + s.q[i].len == p.sn && IsMerge(s.q[i], p, y)
    requires i + 1 < |s.q| ==> p.sn + p.len < s.q[i + 1].sn
    ensures i + 1 < |s.q| ==> Joint(y, s.q[i + 1])
  {
  }

  lemma SuffixFits(s: Queue, i: nat, y: Pkt, k: nat, off: nat)
    requires Inv(s, off) && i < k <= |s.q|
    ensures Fits(s.q[i := y][k..])
  {
    SuffixKeeps(s.q, k, off);
    assert s.q[i := y][k..] == s.q[k..];
  }

  lemma BridgeTouching(s: Queue, p: Pkt, y: Pkt, i: nat, inOrder: bool, short: bool, off: nat)
    requires Inv(s, off) && i + 1 < |s.q| && Good(p, off)
    requires s.q[i].sn + s.q[i].len == p.sn && IsMerge(s.q[i], p, y)
    requires p.sn + p.len == s.q[i + 1].sn
    ensures Kept(s, Bridge(Exact, s, y, i, p.sn + p.len, inOrder, short), off, false)
  {
    var o, t := Bridge(Exact, s, y, i, p.sn + p.len, inOrder, short), s.(q := s.q[i := y]);
    var z := s.q[i + 1];
    hide Calm, Kept, Fits, Disjoint, Join, Good;
    MergeRightCalm(s, p, i, y, off);
    SuffixFits(s, i, y, i + 1, off);
    SuffixFits(s, i, y, i + 2, off);
    match Join(y.buf, z.buf)
    case Merged(b) =>
      BridgedKeeps(s, p, i, y, Pkt(y.sn, y.len + z.len, b, if y.ts < z.ts then y.ts else z.ts), off);
      KeptInPlace(s, o, off);
    case TooBig =>
      if inOrder {
        KeptFlushThrough(s, t, i, o, off);
      } else {
        KeptInPlace(s, o, off);
      }
    case Invalid =>
      if i + 2 < |s.q| {
        KeptFlushThrough(s, t, i + 1, o, off);
      } else {
        KeptInPlace(s, o, off);
      }
  }

  /** Only the packet that `p` follows directly can be the place of a clash. */
  lemma ClashOnly(q: seq<Pkt>, p: Pkt, i: nat, off: nat)
    requires AllGood(q, off) && Disjoint(q) && i < |q| && Passed(q, p, i)
    requires p.sn <= q[i].sn + q[i].len || i + 1 == |q|
    ensures Clash(q, p) <==> i + 1 < |q| && ClashAt(q, p, i)
  {
    hide Shaped, GroLen, Join;
    assert forall j :: 0 <= j < i && j < |q| - 1 ==> Joint(q[j], p) && !ClashAt(q, p, j);
  }

  lemma PassOne(q: seq<Pkt>, p: Pkt, i: nat)
    requires i < |q| && Passed(q, p, i) && Joint(q[i], p)
    ensures Passed(q, p, i + 1)
  {
  }

  lemma KeptTransitive(s: Queue, t: Queue, o: Outcome, off: nat)
    requires s.done <= t.done && (Disjoint(t.done) <==> Disjoint(s.done)) && Kept(t, o, off, false)
    ensures Kept(s, o, off, false)
  {
  }

  /** The branches of the loop that end it. */
  lemma WalkStops(s: Queue, p: Pkt, i: nat, inSeq: int, short: bool, off: nat)
    requires Inv(s, off) && i < |s.q| && Good(p, off) && s.next <= p.sn && Passed(s.q, p, i)
    requires p.sn < s.q[i].sn + s.q[i].len
    ensures Kept(s, Walk(Exact, s, p, i, inSeq, short), off, false)
  {
    var x, o := s.q[i], Walk(Exact, s, p, i, inSeq, short);
    if p.sn + p.len == x.sn {
      JoinLeftKeeps(s, p, i, inSeq, off);
      hide Inv, JoinLeft, Disjoint;
      WalkStopsLeft(s, p, i, inSeq, short, off);
    } else {
      hide Calm, Disjoint, Join, Kept, Fits, Passed;
      if p.sn + p.len < x.sn {
        InsertKeeps(s, i, p, off);
      }
      KeptInPlace(s, o, off);
    }
  }

  lemma WalkStopsLeft(s: Queue, p: Pkt, i: nat, inSeq: int, short: bool, off: nat)
    requires i < |s.q| && p.sn + p.len == s.q[i].sn
    requires Kept(s, JoinLeft(Exact, s, p, i, inSeq), off, false)
    ensures Kept(s, Walk(Exact, s, p, i, inSeq, short), off, false)
  {
    hide Loose, Line, Disjoint, Fits;
  }

  lemma WalkAppends(s: Queue, p: Pkt, i: nat, inSeq: int, short: bool, off: nat)
    requires Inv(s, off) && i + 1 == |s.q| && Good(p, off) && s.next <= p.sn && Passed(s.q, p, i)
    requires Joint(s.q[i], p) && p.sn >= s.q[i].sn + s.q[i].len
    ensures Kept(s, Walk(Exact, s, p, i, inSeq, short), off, false)
  {
    var x, o := s.q[i], Walk(Exact, s, p, i, inSeq, short);
    var t := s.(q := InsertAt(s.q, i + 1, p));
    assert t.q == s.q + [p];
    PassOne(s.q, p, i);
    InsertKeeps(s, i + 1, p, off);
    hide Calm, Disjoint, Kept, Fits, Passed, Loose;
    if o.s == t {
      KeptInPlace(s, o, off);
    } else {
      SuffixKeeps(t.q, i + 1, off);
      KeptFlushThrough(s, t, i, o, off);
    }
  }

  lemma WalkRefuses(s: Queue, p: Pkt, i: nat, inSeq: int, short: bool, off: nat)
    requires Inv(s, off) && i < |s.q| && p.len > 0
    requires p.sn == s.q[i].sn + s.q[i].len && Join(s.q[i].buf, p.buf).Invalid?
    ensures Kept(s, Walk(Exact, s, p, i, inSeq, short), off, false)
  {
    RefuseKeeps(s, i, off);
    hide Kept, Calm, Join;
  }

  lemma WalkMerges(s: Queue, p: Pkt, i: nat, inSeq: int, short: bool) returns (y: Pkt)
    requires i < |s.q| && p.len > 0
    requires p.sn == s.q[i].sn + s.q[i].len && Join(s.q[i].buf, p.buf).Merged?
    ensures IsMerge(s.q[i], p, y)
    ensures Walk(Exact, s, p, i, inSeq, short) == Bridge(Exact, s, y, i, p.sn + p.len, inSeq == s.q[i].sn, short)
  {
    hide Bridge, Join, FlushThrough, GroLen;
    var x := s.q[i];
    y := Pkt(x.sn, x.len + p.len, Join(x.buf, p.buf).buf, x.ts);
  }

  lemma WalkFollows(s: Queue, p: Pkt, i: nat, inSeq: int, short: bool, off: nat)
    requires Inv(s, off) && i < |s.q| && Good(p, off) && s.next <= p.sn
    requires p.sn == s.q[i].sn + s.q[i].len && Join(s.q[i].buf, p.buf).Merged?
    ensures Kept(s, Walk(Exact, s, p, i, inSeq, short), off, i + 1 < |s.q| && p.sn + p.len > s.q[i + 1].sn)
  {
    hide Walk, Inv, Kept, IsMerge, Bridge, Join;
    var y := WalkMerges(s, p, i, inSeq, short);
    BridgeKeeps(s, p, y, i, inSeq == s.q[i].sn, short, off);
  }

  /** The branches that go on with the next packet. */
  lemma WalkGoesOn(s: Queue, p: Pkt, i: nat, inSeq: int, short: bool)
    requires i + 1 < |s.q| && p.sn >= s.q[i].sn + s.q[i].len && s.q[i].len > 0 && p.len > 0
    requires Joint(s.q[i], p)
    ensures var x := s.q[i];
      var inSeq' := if inSeq == x.sn then x.sn + x.len else inSeq;
      Walk(Exact, s, p, i, inSeq, short) ==
        if p.sn == x.sn + x.len && inSeq == x.sn then Walk(Exact, FlushThrough(Exact, s, i), p, 0, inSeq', short)
        else Walk(Exact, s, p, i + 1, inSeq', short)
  {
  }

  lemma {:induction false} WalkKeeps(s: Queue, p: Pkt, i: nat, inSeq: int, short: bool, off: nat)
    requires Inv(s, off) && i < |s.q| && Good(p, off) && s.next <= p.sn && Passed(s.q, p, i)
    ensures Kept(s, Walk(Exact, s, p, i, inSeq, short), off, Clash(s.q, p))
    decreases |s.q| - i
  {
    hide Walk, Kept, Fits, Disjoint, Rising, EndBy, Clash, Join, Passed, Shaped, GroLen;
    var x := s.q[i];
    var xEnd := x.sn + x.len;
    if p.sn <= xEnd || i + 1 == |s.q| {
      ClashOnly(s.q, p, i, off);
    }
    if p.sn < xEnd {
      WalkStops(s, p, i, inSeq, short, off);
    } else if p.sn == xEnd && Join(x.buf, p.buf).Merged? {
      WalkFollows(s, p, i, inSeq, short, off);
    } else if p.sn == xEnd && Join(x.buf, p.buf).Invalid? {
      WalkRefuses(s, p, i, inSeq, short, off);
    } else if i + 1 == |s.q| {
      WalkAppends(s, p, i, inSeq, short, off);
    } else {
      WalkGoesOn(s, p, i, inSeq, short);
      PassOne(s.q, p, i);
      if p.sn == xEnd && inSeq == x.sn {
        WalkAfterFlush(s, p, i, off);
        WalkKeeps(FlushThrough(Exact, s, i), p, 0, xEnd, short, off);
        KeptTransitive(s, FlushThrough(Exact, s, i), Walk(Exact, s, p, i, inSeq, short), off);
      } else {
        WalkKeeps(s, p, i + 1, if inSeq == x.sn then xEnd else inSeq, short, off);
      }
    }
  }

  lemma WalkAfterFlush(s: Queue, p: Pkt, i: nat, off: nat)
    requires Inv(s, off) && i + 1 < |s.q| && p.sn == s.q[i].sn + s.q[i].len && Joint(s.q[i], p)
    ensures var t := FlushThrough(Exact, s, i);
      && Inv(t, off) && t.next == p.sn && Passed(t.q, p, 0) && !Clash(t.q, p) && |t.q| == |s.q| - i - 1
      && s.done <= t.done && (Disjoint(t.done) <==> Disjoint(s.done))
  {
    var t := FlushThrough(Exact, s, i);
    hide Fits, Join, Shaped, GroLen, Rising, EndBy;
    FlushThroughKeeps(s, i, off);
    LineDisjoint(s, off);
    LineDisjoint(t, off);
    assert p.sn <= t.q[0].sn;
    ClashOnly(t.q, p, 0, off);
  }

  // ---------------------------------------------------------------------------------------
  // One event, and any history.

  /** The header length of the held packets. */
  ghost function Off(s: Queue): nat {
    if s.q == [] then 0 else s.q[0].buf.off
  }

  ghost predicate FlowInv(f: Flow) {
    Inv(f.s, Off(f.s))
  }

  /** The length of a packet with payload is what lies behind its headers. */
  ghost predicate Proper(e: Event) {
    e.Arrive? && e.p.len > 0 ==> Shaped(e.p.buf) && GroLen(e.p.buf) == e.p.len
  }

  /** The arrival gets as far as the queue and clashes with it. */
  ghost predicate Clashes(f: Flow, e: Event) {
    && e.Arrive? && f.s.q != [] && !e.differs && e.p.buf.off == f.s.q[0].buf.off
    && 0 < e.p.len <= f.mss && f.s.next <= e.p.sn && Clash(f.s.q, e.p)
  }

  lemma OffIrrelevant(s: Queue, off: nat)
    requires Inv(s, off)
    ensures Inv(s, Off(s))
  {
    hide Fits, Rising, Disjoint;
  }

  lemma NextGrows(s: Queue, n: int, off: nat)
    requires Inv(s, off) && s.next <= n
    ensures Inv(s.(next := n), off)
  {
    hide Fits, Rising, Disjoint, Good;
  }

  lemma FinishKeeps(s: Queue, o: Outcome, r: Queue, off: nat, clash: bool)
    requires Kept(s, o, off, clash) && r == if o.flush then CompleteAll(Exact, o.s) else o.s
    ensures Inv(r, off) && s.done <= r.done && (Disjoint(r.done) <==> Disjoint(s.done) && !clash)
  {
    hide Loose, Calm, Complete, Fits, Disjoint;
    if o.flush {
      var k := CompleteKeeps(o.s, 0, 0, off);
      assert r.done + [] == r.done;
    } else {
      hide Line;
      LineDisjoint(o.s, off);
    }
  }

  lemma ReceiveKeeps(f: Flow, p: Pkt, differs: bool)
    requires FlowInv(f) && f.s.q != [] && Proper(Arrive(p, differs))
    ensures var r := Receive(Exact, f, p, differs);
      && FlowInv(r) && f.s.done <= r.s.done
      && (Disjoint(r.s.done) <==> Disjoint(f.s.done) && !Clashes(f, Arrive(p, differs)))
  {
    var off, o := Off(f.s), TcpGroReceive(Exact, f, p, differs);
    var clash := Clashes(f, Arrive(p, differs));
    hide Calm, Fits, Disjoint, Clash, Walk, Kept, CompleteAll;
    assert Kept(f.s, o, off, clash) by {
      if differs || p.buf.off != f.s.q[0].buf.off || p.len == 0 || p.len > f.mss || p.sn < f.s.next {
        KeptInPlace(f.s, o, off);
      } else {
        WalkKeeps(f.s, p, 0, f.s.next, p.len < f.mss, off);
      }
    }
    var r := if o.flush then CompleteAll(Exact, o.s) else o.s;
    FinishKeeps(f.s, o, r, off, clash);
    OffIrrelevant(r, off);
    NextGrows(r, Exact.Max(r.next, End(Exact, p)), off);
    OffIrrelevant(r.(next := Exact.Max(r.next, End(Exact, p))), off);
  }

  lemma OpenKeeps(f: Flow, p: Pkt, differs: bool)
    requires FlowInv(f) && f.s.q == [] && Proper(Arrive(p, false))
    ensures var r := Open(Exact, f, p, differs);
      FlowInv(r) && f.s.done == r.s.done
  {
    var n := Exact.Max(f.s.next, End(Exact, p));
    NextGrows(f.s, n, 0);
    if p.len > 0 && f.s.next <= p.sn {
      hide Rising, Shaped, GroLen;
      DoneRises(f.s, 0);
      CalmIntro(f.s.(q := [p]), p.buf.off);
    }
  }

  /** One event: the queue stays sorted and disjoint, with neighbours that touch only when they
      are too big to merge; what has left only grows, and overlaps exactly after a clash. */
  lemma StepKeeps(f: Flow, e: Event)
    requires FlowInv(f) && Proper(e)
    ensures var r := Step(Exact, f, e);
      && FlowInv(r) && f.s.done <= r.s.done
      && (Disjoint(r.s.done) <==> Disjoint(f.s.done) && !Clashes(f, e))
  {
    match e
    case Arrive(p, differs) =>
      hide Inv, Disjoint, Clash, Receive, Open;
      if f.s.q == [] { OpenKeeps(f, p, differs); } else { ReceiveKeeps(f, p, differs); }
    case Timer(now, timeout) => CompleteStep(f, now, timeout);
    case Evict => CompleteStep(f, 0, 0);
  }

  lemma CompleteStep(f: Flow, now: int, timeout: nat)
    requires FlowInv(f)
    ensures var r := Complete(Exact, f.s, now, timeout);
      Inv(r, Off(r)) && f.s.done <= r.done && (Disjoint(r.done) <==> Disjoint(f.s.done))
  {
    hide Complete, Disjoint, Loose, Fits, Line;
    var off, r := Off(f.s), Complete(Exact, f.s, now, timeout);
    var k := CompleteKeeps(f.s, now, timeout, off);
    OffIrrelevant(r, off);
    LineDisjoint(f.s, off);
    LineDisjoint(r, off);
  }

  ghost predicate AllProper(es: seq<Event>) {
    forall i :: 0 <= i < |es| ==> Proper(es[i])
  }

  ghost predicate NoClash(f: Flow, es: seq<Event>)
    decreases |es|
  {
    es == [] || (!Clashes(f, es[0]) && NoClash(Step(Exact, f, es[0]), es[1..]))
  }

  /** Over the whole life of a queue, packets leave it in strictly rising order, and without
      overlaps if and only if no arrival clashes with the queue it finds. */
  lemma {:induction false} RunKeeps(f: Flow, es: seq<Event>)
    requires FlowInv(f) && AllProper(es)
    ensures var r := Run(Exact, f, es);
      && FlowInv(r) && f.s.done <= r.s.done && Rising(r.s.done)
      && (Disjoint(r.s.done) <==> Disjoint(f.s.done) && NoClash(f, es))
    decreases |es|
  {
    hide Inv, Disjoint, Step, Clashes, Rising, Proper;
    if es == [] {
      RunOrdered(f);
    } else {
      StepKeeps(f, es[0]);
      RunKeeps(Step(Exact, f, es[0]), es[1..]);
    }
  }

  lemma RunOrdered(f: Flow)
    requires FlowInv(f)
    ensures Rising(f.s.done)
  {
    hide Rising;
    DoneRises(f.s, Off(f.s));
  }

  /** A new queue meets the invariant. */
  lemma NewFlow(next: int)
    ensures FlowInv(Flow(Queue(next, [], []), 0, []))
  {
  }

  // ---------------------------------------------------------------------------------------
  // A clash can happen.

  function Sample(sn: int): Pkt {
    Pkt(sn, 100, GroBuf([], [Frag(0, 0, 140)], 40, NoPage), 0)
  }

  lemma SampleIsProper(sn: int)
    ensures Proper(Arrive(Sample(sn), false))
  {
    assert Sample(sn).buf.frags[1..] == [];
  }

  lemma SamplesClash()
    ensures Clash([Sample(0), Sample(150)], Sample(100))
  {
    SampleIsProper(100);
    SampleIsProper(0);
    assert ClashAt([Sample(0), Sample(150)], Sample(100), 0);
  }

  lemma FirstIsHeld()
    ensures Step(Exact, Flow(Queue(0, [], []), 0, []), Arrive(Sample(0), false))
         == Flow(Queue(0, [Sample(0)], []), 100, [])
  {
  }

  lemma SecondIsHeld()
    ensures Step(Exact, Flow(Queue(0, [Sample(0)], []), 100, []), Arrive(Sample(150), false))
         == Flow(Queue(0, [Sample(0), Sample(150)], []), 100, [])
  {
  }

  /** Three packets of 100 bytes at 0, 150 and 100: the third joins the first and overlaps the
      second, and both leave. */
  lemma ClashHappens()
    ensures var f := Flow(Queue(0, [], []), 0, []);
      var es := [Arrive(Sample(0), false), Arrive(Sample(150), false), Arrive(Sample(100), false)];
      && FlowInv(f) && AllProper(es) && !NoClash(f, es)
      && !Disjoint(Run(Exact, f, es).s.done)
  {
    hide Step, Clash, Rising, NoClash, Run, FlowInv;
    var f := Flow(Queue(0, [], []), 0, []);
    var es := [Arrive(Sample(0), false), Arrive(Sample(150), false), Arrive(Sample(100), false)];
    SampleIsProper(0);
    SampleIsProper(150);
    SampleIsProper(100);
    NewFlow(0);
    FirstIsHeld();
    SecondIsHeld();
    SamplesClash();
    ThirdClashes(f, es[0], es[1], es[2]);
    RunKeeps(f, es);
  }

  lemma ThirdClashes(f: Flow, a: Event, b: Event, c: Event)
    requires Clashes(Step(Exact, Step(Exact, f, a), b), c)
    ensures !NoClash(f, [a, b, c])
  {
    hide Step, Clashes;
    assert [a, b, c][1..] == [b, c] && [b, c][1..] == [c];
    assert !NoClash(Step(Exact, Step(Exact, f, a), b), [c]);
    assert !NoClash(Step(Exact, f, a), [b, c]);
  }
}
