/**
  What one packet does to the reordering queue, spelled out for every case, on stream positions;
  and in-order delivery of a stream with the packet without payload that ends it.
 */
module ReorderFate {
  import opened Serial
  import opened Reorder
  import opened ReorderOrder

  function Later(x: int, y: int): int {
    if x < y then y else x
  }

  /** Where the stream has got to when everything held has been delivered. */
  ghost function HeldEnd(s: State, k: nat): int
    requires k <= |s.q|
  {
    if k == 0 then s.next else s.q[k - 1].sn + s.q[k - 1].len
  }

  /** A SYN or a packet without payload follows everything that is held. */
  lemma EmptyFollowsAll(s: State, p: Packet)
    requires Inv(s) && (p.syn || p.len == 0)
    ensures Step(Exact, s, Arrive(p))
         == State(if p.syn then p.sn + 1 else Later(HeldEnd(s, |s.q|), p.sn), [], s.out + s.q + [p])
  {
  }

  /** The same of the order alone, on 32-bit numbers and in any state. */
  lemma EmptyFollowsAllWords(s: State, p: Packet)
    requires p.syn || p.len == 0
    ensures var t := Step(Mod32, s, Arrive(p));
      t.q == [] && t.out == s.out + s.q + [p]
    ensures var t := Step(Mod32, s, Arrive(p));
      !p.syn && s.q == [] && 0 <= p.sn < M32 && s.next == p.sn ==> t.next == p.sn
  {
  }

  /** The timer lets everything leave in order. */
  lemma TimeoutIs(s: State)
    ensures Step(Exact, s, Timeout) == State(HeldEnd(s, |s.q|), [], s.out + s.q)
  {
  }

  /** Old data is passed on at once, and nothing else changes. */
  lemma OldPasses(s: State, p: Packet)
    requires !p.syn && p.len > 0 && p.sn + p.len <= s.next
    ensures Step(Exact, s, Arrive(p)) == s.(out := s.out + [p])
  {
  }

  /** Where the stream has got to from `end` on when `k` of the packets have been delivered. */
  ghost function OnTo(end: int, q: seq<Packet>, k: nat): int
    requires k <= |q|
  {
    if k == 0 then end else Later(end, q[k - 1].sn + q[k - 1].len)
  }

  /** The first `k` packets continue the stream from `end` on, and the next one does not. */
  ghost predicate InReach(end: int, q: seq<Packet>, k: nat) {
    && k <= |q| && (forall i :: 0 <= i < k ==> q[i].sn <= OnTo(end, q, i))
    && (k < |q| ==> OnTo(end, q, k) < q[k].sn)
  }

  lemma OnToTail(end: int, q: seq<Packet>, k: nat)
    requires Sorted(q) && 0 < k <= |q|
    ensures OnTo(end, q, k) == OnTo(OnTo(end, q, 1), q[1..], k - 1)
  {
    if k > 1 {
      assert q[0].sn + q[0].len <= q[k - 1].sn && q[1..][k - 2] == q[k - 1];
    }
  }

  lemma {:induction false} DrainIs(s: State) returns (k: nat)
    requires Sorted(s.q)
    ensures k <= |s.q| && InReach(s.next, s.q, k)
    ensures Drain(Exact, s) == State(OnTo(s.next, s.q, k), s.q[k..], s.out + s.q[..k])
    decreases |s.q|
  {
    hide Drain, OnTo, Sorted, InReach;
    if s.q == [] || s.next < s.q[0].sn {
      k := 0;
      DrainNone(s);
    } else {
      var t := State(OnTo(s.next, s.q, 1), s.q[1..], s.out + [s.q[0]]);
      DrainOne(s, t);
      var n := DrainIs(t);
      k := n + 1;
      ReachLength(t.next, t.q, n);
      Joined(s, n);
      OnToTail(s.next, s.q, k);
      DrainReach(s.next, s.q, n);
    }
  }

  lemma ReachLength(end: int, q: seq<Packet>, k: nat)
    requires InReach(end, q, k)
    ensures k <= |q|
  {
  }

  lemma Joined(s: State, n: nat)
    requires n < |s.q|
    ensures s.out + [s.q[0]] + s.q[1..][..n] == s.out + s.q[..n + 1] && s.q[1..][n..] == s.q[n + 1..]
  {
  }

  lemma DrainNone(s: State)
    requires s.q == [] || s.next < s.q[0].sn
    ensures InReach(s.next, s.q, 0) && Drain(Exact, s) == State(OnTo(s.next, s.q, 0), s.q[0..], s.out + s.q[..0])
  {
    assert s.out + [] == s.out;
  }

  lemma DrainOne(s: State, t: State)
    requires Sorted(s.q) && s.q != [] && s.q[0].sn <= s.next
    requires t == State(OnTo(s.next, s.q, 1), s.q[1..], s.out + [s.q[0]])
    ensures Drain(Exact, s) == Drain(Exact, t) && Sorted(t.q)
  {
  }

  lemma DrainReach(end: int, q: seq<Packet>, n: nat)
    requires Sorted(q) && q != [] && q[0].sn <= end && InReach(OnTo(end, q, 1), q[1..], n)
    ensures InReach(end, q, n + 1)
  {
    OnToNone(end, q);
    hide OnTo, Sorted;
    forall i | 0 <= i < n + 1
      ensures q[i].sn <= OnTo(end, q, i)
    {
      if i > 0 {
        OnToTail(end, q, i);
        assert q[i] == q[1..][i - 1];
      }
    }
    OnToTail(end, q, n + 1);
  }

  lemma OnToNone(end: int, q: seq<Packet>)
    ensures OnTo(end, q, 0) == end
  {
  }

  /** A packet that reaches over seq_next is passed on, and behind it all that is held without a
      gap, no more and no less. */
  lemma NextDrains(s: State, p: Packet) returns (k: nat)
    requires Inv(s) && !p.syn && p.len > 0 && p.sn <= s.next < p.sn + p.len
    ensures k <= |s.q| && InReach(p.sn + p.len, s.q, k)
    ensures Step(Exact, s, Arrive(p)) == State(OnTo(p.sn + p.len, s.q, k), s.q[k..], s.out + [p] + s.q[..k])
  {
    hide OnTo, Sorted, Drain, InReach;
    k := DrainIs(State(p.sn + p.len, s.q, s.out + [p]));
    ReachLength(p.sn + p.len, s.q, k);
  }

  /** The packets before index `k` are those that start in front of the end of `p`. */
  ghost predicate StartBefore(q: seq<Packet>, p: Packet, k: nat) {
    && k <= |q| && (forall i :: 0 <= i < k ==> q[i].sn < p.sn + p.len)
    && (k < |q| ==> p.sn + p.len <= q[k].sn)
  }

  /** A packet beyond a gap: a full queue leaves as a whole in front of it; one that overlaps held
      ones lets those leave that start in front of its end, and leaves behind them; any other is
      held at its place. */
  lemma GapHolds(s: State, p: Packet, k: nat)
    requires Inv(s) && !p.syn && p.len > 0 && s.next < p.sn && StartBefore(s.q, p, k)
    ensures Step(Exact, s, Arrive(p)) ==
      if |s.q| > 10 then State(Later(HeldEnd(s, |s.q|), p.sn + p.len), [], s.out + s.q + [p])
      else if exists i :: 0 <= i < |s.q| && s.q[i].sn < p.sn + p.len && p.sn < s.q[i].sn + s.q[i].len
      then State(Later(HeldEnd(s, k), p.sn + p.len), s.q[k..], s.out + s.q[..k] + [p])
      else s.(q := s.q[..k] + [p] + s.q[k..])
  {
    hide Slot, Sorted, InsertAt;
    SlotIs(s.q, p, k);
    OverlapIs(s.q, p, k);
    assert InsertAt(s.q, k, p) == s.q[..k] + [p] + s.q[k..] by { InsertIs(s.q, k, p); }
  }

  lemma InsertIs(q: seq<Packet>, k: nat, p: Packet)
    requires k <= |q|
    ensures InsertAt(q, k, p) == q[..k] + [p] + q[k..]
  {
  }

  lemma OverlapIs(q: seq<Packet>, p: Packet, k: nat)
    requires Sorted(q) && StartBefore(q, p, k)
    ensures (exists i :: 0 <= i < |q| && q[i].sn < p.sn + p.len && p.sn < q[i].sn + q[i].len)
      <==> k > 0 && p.sn < q[k - 1].sn + q[k - 1].len
  {
    forall j | 0 <= j < |q| && q[j].sn < p.sn + p.len && p.sn < q[j].sn + q[j].len
      ensures k > 0 && p.sn < q[k - 1].sn + q[k - 1].len
    {
      if j < k - 1 { assert q[j].sn + q[j].len <= q[k - 1].sn; }
      if k < j { assert q[k].sn + q[k].len <= q[j].sn; }
    }
  }

  lemma SlotIs(q: seq<Packet>, p: Packet, k: nat)
    requires StartBefore(q, p, k) && Sorted(q)
    ensures Slot(Exact, q, p.sn + p.len) == k
  {
    hide Slot;
    var i := Slot(Exact, q, p.sn + p.len);
    assert i > k ==> Exact.Diff(p.sn + p.len, q[k].sn) > 0;
  }

  // ---------------------------------------------------------------------------------------
  // A stream and its end.

  /** The history of the pieces with `fin` in the place `t`. */
  function WithFin(es: seq<Event>, t: nat, fin: Packet): seq<Event>
    requires t <= |es|
  {
    es[..t] + [Arrive(fin)] + es[t..]
  }

  /** After a SYN, let all pieces of the stream and a packet without payload, which ends it, arrive
      in any order.  They are reinjected in sequence order if and only if the latter comes last
      and no piece beyond the missing one arrives while more than MAX_REORDER_COUNT wait. */
  lemma DeliversFinIff(s: State, syn: Packet, b: seq<int>, order: seq<nat>, t: nat, fin: Packet)
    requires syn.syn && 0 <= syn.sn < M32 && Words(s.q) && Words(s.out)
    requires Cut(b) && Wrap(b[0]) == Wrap(syn.sn + 1)
    requires Arrangement(b, order) && |order| == |b| - 1 && Near(b, order)
    requires t <= |order| && !fin.syn && fin.len == 0 && fin.sn == Wrap(b[|b| - 1])
    ensures var start := Step(Mod32, s, Arrive(syn));
      var end := Run(Mod32, start, WithFin(WrapEvents(Events(b, order)), t, fin));
      && (end.out == start.out + WrapAll(InOrder(b, |b| - 1)) + [fin] <==> t == |order| && NeverOverflows(b, order))
      && (t == |order| && NeverOverflows(b, order) ==> end.q == [] && end.next == fin.sn)
  {
    hide Step, Run, Near, NeverOverflows, Wrap;
    var start, es := Step(Mod32, s, Arrive(syn)), WrapEvents(Events(b, order));
    StartOfSyn(s, syn, b);
    if t == |order| {
      FinLast(s, syn, b, order, fin);
    } else {
      FinEarly(start, b, order, t, fin);
    }
  }

  lemma StartOfSyn(s: State, syn: Packet, b: seq<int>)
    requires syn.syn && 0 <= syn.sn < M32 && Words(s.q) && Words(s.out) && |b| > 0 && Wrap(b[0]) == Wrap(syn.sn + 1)
    ensures var start := Step(Mod32, s, Arrive(syn));
      start.q == [] && Words(start.out) && start == WrapState(State(b[0], [], start.out))
  {
    var start := Step(Mod32, s, Arrive(syn));
    assert WrapAll(start.out) == start.out;
  }

  lemma FinLast(s: State, syn: Packet, b: seq<int>, order: seq<nat>, fin: Packet)
    requires syn.syn && 0 <= syn.sn < M32 && Words(s.q) && Words(s.out)
    requires Cut(b) && Wrap(b[0]) == Wrap(syn.sn + 1)
    requires Arrangement(b, order) && |order| == |b| - 1 && Near(b, order)
    requires !fin.syn && fin.len == 0 && fin.sn == Wrap(b[|b| - 1])
    ensures var start := Step(Mod32, s, Arrive(syn));
      var end := Run(Mod32, start, WithFin(WrapEvents(Events(b, order)), |order|, fin));
      && (end.out == start.out + WrapAll(InOrder(b, |b| - 1)) + [fin] <==> NeverOverflows(b, order))
      && (NeverOverflows(b, order) ==> end.q == [] && end.next == fin.sn)
  {
    hide Step, Run, Near, Wrap, Overflows;
    var start, es := Step(Mod32, s, Arrive(syn)), WrapEvents(Events(b, order));
    var whole, u := start.out + WrapAll(InOrder(b, |b| - 1)), Run(Mod32, start, es);
    StartOfSyn(s, syn, b);
    DeliversInOrderIff(s, syn, b, order);
    assert WithFin(es, |order|, fin) == es + [Arrive(fin)];
    RunSnoc(Mod32, start, es, Arrive(fin));
    EmptyFollowsAllWords(u, fin);
    if !NeverOverflows(b, order) {
      var t := FirstOverflow(b, order, |order|);
      OverflowMisorders(b, order, t, start.out);
      NotMisordered(b, start.out);
      assert WrapAll(start.out) == start.out;
      MisorderedMore(u.out, u.q + [fin], |start.out|, |b|);
      FinIsPlaced(b, start.out, fin, u.out, u.q);
    } else {
      assert u.out + u.q + [fin] == whole + [fin];
    }
  }

  lemma MisorderedMore(out: seq<Packet>, more: seq<Packet>, from: nat, n: nat)
    requires Misordered(out, from, n)
    ensures Misordered(out + more, from, n)
  {
    var i :| from <= i < |out| && i - from < n && out[i].id != i - from;
    assert (out + more)[i] == out[i];
  }

  lemma FinIsPlaced(b: seq<int>, pre: seq<Packet>, fin: Packet, out: seq<Packet>, q: seq<Packet>)
    requires |b| > 0 && Misordered(out, |pre|, |b|)
    requires !Misordered(pre + WrapAll(InOrder(b, |b| - 1)), |pre|, |b|)
    ensures out + q + [fin] != pre + WrapAll(InOrder(b, |b| - 1)) + [fin]
  {
    var whole := pre + WrapAll(InOrder(b, |b| - 1));
    if out + q + [fin] == whole + [fin] {
      assert out + q == (out + q + [fin])[..|out + q|] == whole;
      MisorderedMore(out, q, |pre|, |b|);
      assert false;
    }
  }

  /** A packet without payload that comes too early is reinjected in front of a piece. */
  lemma FinEarly(start: State, b: seq<int>, order: seq<nat>, t: nat, fin: Packet)
    requires start.q == [] && Cut(b) && |order| == |b| - 1 && Arrangement(b, order)
    requires t < |order| && !fin.syn && fin.len == 0
    ensures Run(Mod32, start, WithFin(WrapEvents(Events(b, order)), t, fin)).out
         != start.out + WrapAll(InOrder(b, |b| - 1)) + [fin]
  {
    hide Step, Run, Wrap;
    var es := WrapEvents(Events(b, order));
    var all := WithFin(es, t, fin);
    assert all[..t + 1] == es[..t] + [Arrive(fin)];
    RunSplit(Mod32, start, all, t + 1);
    RunSnoc(Mod32, start, es[..t], Arrive(fin));
    EmptyFollowsAllWords(Run(Mod32, start, es[..t]), fin);
    var u := Run(Mod32, start, all[..t + 1]);
    RunAccounts(Mod32, start, es[..t]);
    ArrivalsCount(es[..t]);
    RunAccounts(Mod32, u, all[t + 1..]);
    HoldingsSize(start, Run(Mod32, start, es[..t]), Arrivals(es[..t]));
    assert u.out[|start.out| + t] == fin;
    PiecesHaveLength(b, start.out, t, fin);
  }

  lemma HoldingsSize(s: State, t: State, a: seq<Packet>)
    requires Holdings(t) == Holdings(s) + multiset(a)
    ensures |t.out| + |t.q| == |s.out| + |s.q| + |a|
  {
    assert |Holdings(t)| == |t.q| + |t.out| && |Holdings(s)| == |s.q| + |s.out|;
  }

  lemma {:induction false} ArrivalsCount(es: seq<Event>)
    requires forall i :: 0 <= i < |es| ==> es[i].Arrive?
    ensures |Arrivals(es)| == |es|
  {
    if es == [] {
    } else {
      ArrivalsCount(es[1..]);
    }
  }

  lemma PiecesHaveLength(b: seq<int>, pre: seq<Packet>, t: nat, fin: Packet)
    requires Cut(b) && t < |b| - 1 && fin.len == 0
    ensures (pre + WrapAll(InOrder(b, |b| - 1)) + [fin])[|pre| + t] != fin
  {
    assert InOrder(b, |b| - 1)[t] == Piece(b, t) && b[t] < b[t + 1];
  }
}
