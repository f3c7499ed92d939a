/**
  What merging means: if every arriving packet carries the sender's bytes at its sequence
  number, so does everything the queue holds or hands up, and every position of the stream is
  held or handed up exactly as often as it was received.
 */
module GroMeaning {
  import opened Serial
  import opened SkbData
  import opened SkbGro
  import opened GroQueue

  /** The sender's stream: the byte at every position. */
  type Stream = int -> byte

  /** The payload of `p` is the slice of the stream from `p.sn` on, `p.len` bytes long. */
  ghost predicate Carries(m: Mem, st: Stream, p: Pkt) {
    && GroOk(m, p.buf) && GroLen(p.buf) == p.len
    && forall k :: 0 <= k < p.len ==> Payload(m, p.buf)[k] == st(p.sn + k)
  }

  ghost predicate AllCarry(m: Mem, st: Stream, q: seq<Pkt>) {
    forall i :: 0 <= i < |q| ==> Carries(m, st, q[i])
  }

  function Covers(p: Pkt, x: int): nat {
    if p.sn <= x < p.sn + p.len then 1 else 0
  }

  /** How many packets of `q` contain position `x`. */
  function Cover(q: seq<Pkt>, x: int): nat {
    if q == [] then 0 else Covers(q[0], x) + Cover(q[1..], x)
  }

  lemma {:induction false} CoverConcat(a: seq<Pkt>, b: seq<Pkt>, x: int)
    ensures Cover(a + b, x) == Cover(a, x) + Cover(b, x)
  {
    if a == [] {
      assert a + b == b;
    } else {
      assert (a + b)[1..] == a[1..] + b;
      CoverConcat(a[1..], b, x);
    }
  }

  /** From `s` to `t` position `x` is covered `n` more times, and what is carried is the stream. */
  ghost predicate Grows(m: Mem, st: Stream, s: Queue, t: Queue, x: int, n: nat) {
    && Cover(Line(t), x) == Cover(Line(s), x) + n
    && (AllCarry(m, st, Line(s)) ==> AllCarry(m, st, Line(t)))
  }

  lemma LineParts(d: seq<Pkt>, q: seq<Pkt>, a: nat, b: nat, put: seq<Pkt>)
    requires a <= b <= |q|
    ensures d + q == d + q[..a] + q[a..b] + q[b..]
    ensures d + (q[..a] + put + q[b..]) == d + q[..a] + put + q[b..]
  {
    assert q == q[..a] + q[a..b] + q[b..];
  }

  lemma CoverParts(a: seq<Pkt>, b: seq<Pkt>, c: seq<Pkt>, x: int)
    ensures Cover(a + b + c, x) == Cover(a, x) + Cover(b, x) + Cover(c, x)
  {
    CoverConcat(a + b, c, x);
    CoverConcat(a, b, x);
  }

  /** In the queue, the packets from `a` to before `b` are replaced by those of `put`. */
  lemma GrowsBySplice(m: Mem, st: Stream, s: Queue, a: nat, b: nat, put: seq<Pkt>, x: int, n: nat)
    requires a <= b <= |s.q|
    requires Cover(put, x) == Cover(s.q[a..b], x) + n
    requires AllCarry(m, st, s.q[a..b]) ==> AllCarry(m, st, put)
    ensures Grows(m, st, s, s.(q := s.q[..a] + put + s.q[b..]), x, n)
  {
    LineParts(s.done, s.q, a, b, put);
    hide Cover, AllCarry;
    var l, r, out := s.done + s.q[..a], s.q[b..], s.q[a..b];
    CoverParts(l, out, r, x);
    CoverParts(l, put, r, x);
    if AllCarry(m, st, l + out + r) {
      CarryParts(m, st, l, out, r);
      CarryWhole(m, st, l, put, r);
    }
  }

  lemma CarryParts(m: Mem, st: Stream, a: seq<Pkt>, b: seq<Pkt>, c: seq<Pkt>)
    requires AllCarry(m, st, a + b + c)
    ensures AllCarry(m, st, a) && AllCarry(m, st, b) && AllCarry(m, st, c)
  {
    hide Carries;
    var l := a + b + c;
    assert forall i :: 0 <= i < |a| ==> a[i] == l[i];
    assert forall i :: 0 <= i < |b| ==> b[i] == l[|a| + i];
    assert forall i :: 0 <= i < |c| ==> c[i] == l[|a| + |b| + i];
  }

  lemma CarryWhole(m: Mem, st: Stream, a: seq<Pkt>, b: seq<Pkt>, c: seq<Pkt>)
    requires AllCarry(m, st, a) && AllCarry(m, st, b) && AllCarry(m, st, c)
    ensures AllCarry(m, st, a + b + c)
  {
    hide Carries;
  }

  /** Merging `y` into `x`, which ends where `y` begins, carries on the stream. */
  lemma MergeCarries(m: Mem, st: Stream, x: Pkt, y: Pkt, w: Pkt)
    requires Join(x.buf, y.buf) == Merged(w.buf) && w.sn == x.sn && w.len == x.len + y.len
    requires x.sn + x.len == y.sn
    requires Carries(m, st, x) && Carries(m, st, y)
    ensures Carries(m, st, w)
  {
    hide GroOk, Merge, GroLen;
    MergeMeaning(m, x.buf, y.buf);
    Paste(st, x.sn, Payload(m, x.buf), Payload(m, y.buf));
  }

  lemma Paste(st: Stream, sn: int, a: seq<byte>, b: seq<byte>)
    requires forall k :: 0 <= k < |a| ==> a[k] == st(sn + k)
    requires forall k :: 0 <= k < |b| ==> b[k] == st(sn + |a| + k)
    ensures forall k :: 0 <= k < |a + b| ==> (a + b)[k] == st(sn + k)
  {
    forall k | |a| <= k < |a + b|
      ensures (a + b)[k] == st(sn + k)
    {
      assert b[k - |a|] == st(sn + |a| + (k - |a|));
    }
  }

  lemma InsertGrows(m: Mem, st: Stream, s: Queue, i: nat, p: Pkt, x: int)
    requires i <= |s.q| && Carries(m, st, p)
    ensures Grows(m, st, s, s.(q := InsertAt(s.q, i, p)), x, Covers(p, x))
  {
    hide Carries, Grows;
    assert s.q[i..i] == [];
    GrowsBySplice(m, st, s, i, i, [p], x, Covers(p, x));
  }

  /** The packet at `i` becomes `w` by merging with `p` on either side. */
  lemma ReplaceGrows(m: Mem, st: Stream, s: Queue, i: nat, p: Pkt, w: Pkt, x: int)
    requires i < |s.q| && Carries(m, st, p)
    requires var y := s.q[i];
      || (Join(p.buf, y.buf) == Merged(w.buf) && w.sn == p.sn && w.len == p.len + y.len && p.sn + p.len == y.sn)
      || (Join(y.buf, p.buf) == Merged(w.buf) && w.sn == y.sn && w.len == y.len + p.len && y.sn + y.len == p.sn)
    ensures Grows(m, st, s, s.(q := s.q[i := w]), x, Covers(p, x))
    ensures Carries(m, st, s.q[i]) ==> Carries(m, st, w)
  {
    hide Carries, Grows, Join;
    var y := s.q[i];
    if Carries(m, st, y) {
      if Join(p.buf, y.buf) == Merged(w.buf) && p.sn + p.len == y.sn && w.sn == p.sn {
        MergeCarries(m, st, p, y, w);
      } else {
        MergeCarries(m, st, y, p, w);
      }
    }
    assert s.q[i..i + 1] == [y];
    GrowsBySplice(m, st, s, i, i + 1, [w], x, Covers(p, x));
    assert s.q[i := w] == s.q[..i] + [w] + s.q[i + 1..];
  }

  /** The packets at `i` and `i + 1` become one, which `p` bridges. */
  lemma BridgeGrows(m: Mem, st: Stream, s: Queue, i: nat, p: Pkt, y: Pkt, w: Pkt, x: int)
    requires i + 1 < |s.q| && Carries(m, st, p)
    requires Join(s.q[i].buf, p.buf) == Merged(y.buf) && s.q[i].sn + s.q[i].len == p.sn
    requires y.sn == s.q[i].sn && y.len == s.q[i].len + p.len
    requires Join(y.buf, s.q[i + 1].buf) == Merged(w.buf) && p.sn + p.len == s.q[i + 1].sn
    requires w.sn == y.sn && w.len == y.len + s.q[i + 1].len
    ensures Grows(m, st, s, s.(q := s.q[..i] + [w] + s.q[i + 2..]), x, Covers(p, x))
  {
    hide Carries, Grows, Join;
    var u, v := s.q[i], s.q[i + 1];
    var mid := s.q[i..i + 2];
    assert mid == [u, v] && [u, v][1..] == [v];
    assert Cover([v], x) == Covers(v, x);
    if AllCarry(m, st, mid) {
      assert mid[0] == u && mid[1] == v;
      MergeCarries(m, st, u, p, y);
      MergeCarries(m, st, y, v, w);
    }
    GrowsBySplice(m, st, s, i, i + 2, [w], x, Covers(p, x));
  }

  // ---------------------------------------------------------------------------------------
  // Leaving the queue changes nothing.

  lemma FlushThroughSame(ar: Arith, s: Queue, i: nat)
    requires i < |s.q|
    ensures Line(FlushThrough(ar, s, i)) == Line(s)
  {
    assert s.q == s.q[..i + 1] + s.q[i + 1..];
  }

  lemma PopHeadSame(ar: Arith, s: Queue)
    requires s.q != []
    ensures Line(PopHead(ar, s)) == Line(s)
  {
    assert s.q == [s.q[0]] + s.q[1..];
  }

  lemma {:induction false} PopManySame(ar: Arith, s: Queue, k: nat)
    requires k <= |s.q|
    ensures Line(PopMany(ar, s, k)) == Line(s)
    decreases k
  {
    hide Line;
    if k == 0 {
    } else {
      PopHeadSame(ar, s);
      PopManySame(ar, PopHead(ar, s), k - 1);
    }
  }

  lemma {:induction false} PopInSequenceSame(ar: Arith, s: Queue)
    ensures Line(PopInSequence(ar, s)) == Line(s)
    decreases |s.q|
  {
    hide Line;
    if s.q == [] || ar.Before(s.next, s.q[0].sn) {
    } else {
      PopHeadSame(ar, s);
      PopInSequenceSame(ar, PopHead(ar, s));
    }
  }

  lemma CompleteSame(ar: Arith, s: Queue, now: int, timeout: nat)
    ensures Line(Complete(ar, s, now, timeout)) == Line(s)
  {
    hide Line, KeepFrom, PopMany, PopInSequence;
    PopManySame(ar, s, Expired(s.q, now, timeout));
    PopInSequenceSame(ar, PopMany(ar, s, Expired(s.q, now, timeout)));
  }

  lemma GrowsSame(m: Mem, st: Stream, s: Queue, t: Queue, u: Queue, x: int, n: nat)
    requires Grows(m, st, s, t, x, n) && Line(u) == Line(t)
    ensures Grows(m, st, s, u, x, n)
  {
  }

  lemma GrowsFrom(m: Mem, st: Stream, s: Queue, t: Queue, u: Queue, x: int, n: nat)
    requires Line(s) == Line(t) && Grows(m, st, t, u, x, n)
    ensures Grows(m, st, s, u, x, n)
  {
  }

  lemma GrowsNot(m: Mem, st: Stream, s: Queue, t: Queue, x: int)
    requires Line(t) == Line(s)
    ensures Grows(m, st, s, t, x, 0)
  {
  }

  // ---------------------------------------------------------------------------------------
  // One call.

  ghost predicate Accounted(m: Mem, st: Stream, s: Queue, p: Pkt, o: Outcome, x: int) {
    Grows(m, st, s, o.s, x, if o.held then Covers(p, x) else 0)
  }

  lemma RefuseAccounts(m: Mem, st: Stream, s: Queue, p: Pkt, i: nat, x: int)
    requires i < |s.q|
    ensures Accounted(m, st, s, p, Refuse(Exact, s, i), x)
  {
    hide Grows, Line;
    FlushThroughSame(Exact, s, i);
    GrowsNot(m, st, s, Refuse(Exact, s, i).s, x);
  }

  lemma JoinLeftAccounts(m: Mem, st: Stream, s: Queue, p: Pkt, i: nat, inSeq: int, x: int)
    requires i < |s.q| && Carries(m, st, p) && p.sn + p.len == s.q[i].sn
    ensures Accounted(m, st, s, p, JoinLeft(Exact, s, p, i, inSeq), x)
  {
    RefuseAccounts(m, st, s, p, i, x);
    hide Grows, Line, Join, InsertAt, Refuse, Carries, Covers;
    match Join(p.buf, s.q[i].buf)
    case Merged(b) =>
      var y := s.q[i];
      ReplaceGrows(m, st, s, i, p, Pkt(p.sn, p.len + y.len, b, y.ts), x);
    case TooBig => InsertGrows(m, st, s, i, p, x);
    case Invalid =>
  }

  lemma BridgeAccounts(m: Mem, st: Stream, s: Queue, p: Pkt, y: Pkt, i: nat, inOrder: bool, short: bool, x: int)
    requires i < |s.q| && Carries(m, st, p) && s.q[i].sn + s.q[i].len == p.sn
    requires Join(s.q[i].buf, p.buf) == Merged(y.buf) && y.sn == s.q[i].sn && y.len == s.q[i].len + p.len
    ensures Accounted(m, st, s, p, Bridge(Exact, s, y, i, p.sn + p.len, inOrder, short), x)
  {
    hide Grows, Line, Join, Carries, Covers;
    var o, t := Bridge(Exact, s, y, i, p.sn + p.len, inOrder, short), s.(q := s.q[i := y]);
    ReplaceGrows(m, st, s, i, p, y, x);
    FlushThroughSame(Exact, t, i);
    if i + 1 < |s.q| {
      FlushThroughSame(Exact, t, i + 1);
    }
    if i + 1 < |s.q| && p.sn + p.len == s.q[i + 1].sn && Join(y.buf, s.q[i + 1].buf).Merged? {
      var z := s.q[i + 1];
      var w := Pkt(y.sn, y.len + z.len, Join(y.buf, z.buf).buf, if y.ts < z.ts then y.ts else z.ts);
      BridgeGrows(m, st, s, i, p, y, w, x);
    } else {
      GrowsSame(m, st, s, t, o.s, x, Covers(p, x));
    }
  }

  lemma {:induction false} WalkAccounts(m: Mem, st: Stream, s: Queue, p: Pkt, i: nat, inSeq: int, short: bool, x: int)
    requires i < |s.q| && Carries(m, st, p)
    ensures Accounted(m, st, s, p, Walk(Exact, s, p, i, inSeq, short), x)
    decreases |s.q| - i
  {
    hide Grows, Line, Join, Carries, Covers, JoinLeft, Bridge, Refuse;
    var o, y := Walk(Exact, s, p, i, inSeq, short), s.q[i];
    var yEnd := y.sn + y.len;
    var inSeq' := if inSeq == y.sn then yEnd else inSeq;
    if p.sn + p.len < y.sn {
      InsertGrows(m, st, s, i, p, x);
    } else if p.sn + p.len == y.sn {
      JoinLeftAccounts(m, st, s, p, i, inSeq, x);
    } else if p.sn == yEnd {
      if Join(y.buf, p.buf).TooBig? && i + 1 < |s.q| {
        if inSeq == y.sn {
          FlushThroughSame(Exact, s, i);
          WalkAccounts(m, st, FlushThrough(Exact, s, i), p, 0, inSeq', short, x);
          GrowsFrom(m, st, s, FlushThrough(Exact, s, i), o.s, x, if o.held then Covers(p, x) else 0);
        } else {
          WalkAccounts(m, st, s, p, i + 1, inSeq', short, x);
        }
      } else {
        WalkTouching(m, st, s, p, i, inSeq, short, x);
      }
    } else if p.sn > yEnd {
      if i + 1 == |s.q| {
        InsertGrows(m, st, s, i + 1, p, x);
        assert InsertAt(s.q, i + 1, p) == s.q + [p];
      } else {
        WalkAccounts(m, st, s, p, i + 1, inSeq', short, x);
      }
    } else {
      GrowsNot(m, st, s, o.s, x);
    }
  }

  /** The packet follows the one at `i` directly and the loop ends there. */
  lemma WalkTouching(m: Mem, st: Stream, s: Queue, p: Pkt, i: nat, inSeq: int, short: bool, x: int)
    requires i < |s.q| && Carries(m, st, p) && p.sn == s.q[i].sn + s.q[i].len
    requires p.sn + p.len > s.q[i].sn
    requires !(Join(s.q[i].buf, p.buf).TooBig? && i + 1 < |s.q|)
    ensures Accounted(m, st, s, p, Walk(Exact, s, p, i, inSeq, short), x)
  {
    hide Grows, Line, Join, Carries, Covers, Bridge, Refuse;
    var o, y := Walk(Exact, s, p, i, inSeq, short), s.q[i];
    match Join(y.buf, p.buf)
    case Merged(b) =>
      BridgeAccounts(m, st, s, p, Pkt(y.sn, y.len + p.len, b, y.ts), i, inSeq == y.sn, short, x);
    case TooBig =>
      var t := s.(q := s.q + [p]);
      InsertGrows(m, st, s, i + 1, p, x);
      assert InsertAt(s.q, i + 1, p) == s.q + [p];
      FlushThroughSame(Exact, t, i);
      GrowsSame(m, st, s, t, o.s, x, Covers(p, x));
    case Invalid =>
      RefuseAccounts(m, st, s, p, i, x);
  }

  // ---------------------------------------------------------------------------------------
  // Events and histories.

  /** Packets passed up directly may be empty. */
  ghost predicate NormalCarry(m: Mem, st: Stream, q: seq<Pkt>) {
    forall i :: 0 <= i < |q| ==> q[i].len > 0 ==> Carries(m, st, q[i])
  }

  ghost predicate EventCarries(m: Mem, st: Stream, e: Event) {
    e.Arrive? && e.p.len > 0 ==> Carries(m, st, e.p)
  }

  /** Held, completed, and passed up directly. */
  ghost function FlowCover(f: Flow, x: int): nat {
    Cover(Line(f.s), x) + Cover(f.normal, x)
  }

  ghost predicate FlowCarries(m: Mem, st: Stream, f: Flow) {
    AllCarry(m, st, Line(f.s)) && NormalCarry(m, st, f.normal)
  }

  function Arrived(e: Event, x: int): nat {
    if e.Arrive? then Covers(e.p, x) else 0
  }

  lemma BypassAccounts(m: Mem, st: Stream, f: Flow, p: Pkt, x: int)
    requires FlowCarries(m, st, f) && (p.len > 0 ==> Carries(m, st, p))
    ensures FlowCarries(m, st, Bypass(Exact, f, p))
    ensures FlowCover(Bypass(Exact, f, p), x) == FlowCover(f, x) + Covers(p, x)
  {
    hide Carries, Covers;
    CoverConcat(f.normal, [p], x);
  }

  lemma ReceiveAccounts(m: Mem, st: Stream, f: Flow, p: Pkt, differs: bool, x: int)
    requires f.s.q != [] && FlowCarries(m, st, f) && EventCarries(m, st, Arrive(p, differs))
    ensures var r := Receive(Exact, f, p, differs);
      FlowCarries(m, st, r) && FlowCover(r, x) == FlowCover(f, x) + Covers(p, x)
  {
    hide Carries, Covers, Walk, Cover, AllCarry, Complete, NormalCarry, Line;
    var o := TcpGroReceive(Exact, f, p, differs);
    var r := if o.flush then CompleteAll(Exact, o.s) else o.s;
    assert Grows(m, st, f.s, o.s, x, if o.held then Covers(p, x) else 0) by {
      if differs || p.buf.off != f.s.q[0].buf.off || p.len == 0 || p.len > f.mss || p.sn < f.s.next {
        GrowsNot(m, st, f.s, o.s, x);
      } else {
        WalkAccounts(m, st, f.s, p, 0, f.s.next, p.len < f.mss, x);
      }
    }
    CompleteSame(Exact, o.s, 0, 0);
    BypassAccounts(m, st, f.(s := r), p, x);
  }

  lemma OpenAccounts(m: Mem, st: Stream, f: Flow, p: Pkt, differs: bool, x: int)
    requires f.s.q == [] && FlowCarries(m, st, f) && EventCarries(m, st, Arrive(p, false))
    ensures var r := Open(Exact, f, p, differs);
      FlowCarries(m, st, r) && FlowCover(r, x) == FlowCover(f, x) + Covers(p, x)
  {
    hide Carries, Covers;
    BypassAccounts(m, st, f, p, x);
    CoverConcat(f.s.done, [p], x);
    assert f.s.done + [] == f.s.done;
    assert Cover([p], x) == Covers(p, x);
  }

  lemma StepAccounts(m: Mem, st: Stream, f: Flow, e: Event, x: int)
    requires FlowCarries(m, st, f) && EventCarries(m, st, e)
    ensures var r := Step(Exact, f, e);
      FlowCarries(m, st, r) && FlowCover(r, x) == FlowCover(f, x) + Arrived(e, x)
  {
    hide Carries, Covers, Receive, Open, Complete, Line, AllCarry, Cover;
    match e
    case Arrive(p, differs) =>
      if f.s.q == [] { OpenAccounts(m, st, f, p, differs, x); } else { ReceiveAccounts(m, st, f, p, differs, x); }
    case Timer(now, timeout) => CompleteSame(Exact, f.s, now, timeout);
    case Evict => CompleteSame(Exact, f.s, 0, 0);
  }

  ghost predicate HistoryCarries(m: Mem, st: Stream, es: seq<Event>) {
    forall i :: 0 <= i < |es| ==> EventCarries(m, st, es[i])
  }

  /** Over any history: what the queue holds, what it completed and what was passed up directly
      are slices of the sender's stream, and each position of the stream is contained in as
      many of them as there were packets received with it. */
  lemma {:induction false} RunAccounts(m: Mem, st: Stream, f: Flow, es: seq<Event>, x: int)
    requires FlowCarries(m, st, f) && HistoryCarries(m, st, es)
    ensures var r := Run(Exact, f, es);
      FlowCarries(m, st, r) && FlowCover(r, x) == FlowCover(f, x) + Cover(Arrivals(es), x)
    decreases |es|
  {
    hide FlowCarries, FlowCover, Step, EventCarries, Covers;
    if es == [] {
    } else {
      StepAccounts(m, st, f, es[0], x);
      RunAccounts(m, st, Step(Exact, f, es[0]), es[1..], x);
      CoverConcat(if es[0].Arrive? then [es[0].p] else [], Arrivals(es[1..]), x);
      CoverOne(es[0], x);
    }
  }

  lemma CoverOne(e: Event, x: int)
    ensures Cover(if e.Arrive? then [e.p] else [], x) == Arrived(e, x)
  {
  }
}
