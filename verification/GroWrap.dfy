/**
  The queue on 32-bit sequence numbers is the image of the queue on stream positions, as long
  as the numbers that are compared lie within half of the number space.
 */
module GroWrap {
  import opened Serial
  import opened SkbGro
  import opened GroQueue
  import Order = GroOrder
  import Meaning = GroMeaning
  import Data = SkbData

  function WrapPkt(p: Pkt): Pkt {
    p.(sn := Wrap(p.sn))
  }

  function WrapAll(q: seq<Pkt>): (r: seq<Pkt>)
    ensures |r| == |q|
    ensures forall i :: 0 <= i < |q| ==> r[i] == WrapPkt(q[i])
  {
    seq(|q|, i requires 0 <= i < |q| => WrapPkt(q[i]))
  }

  function WrapQueue(s: Queue): Queue {
    Queue(Wrap(s.next), WrapAll(s.q), WrapAll(s.done))
  }

  function WrapFlow(f: Flow): Flow {
    Flow(WrapQueue(f.s), f.mss, WrapAll(f.normal))
  }

  function WrapOutcome(o: Outcome): Outcome {
    o.(s := WrapQueue(o.s))
  }

  function WrapEvent(e: Event): Event {
    if e.Arrive? then e.(p := WrapPkt(e.p)) else e
  }

  ghost predicate InWindow(lo: int, p: Pkt) {
    Within(lo, p.sn) && Within(lo, p.sn + p.len)
  }

  ghost predicate Window(lo: int, s: Queue) {
    Within(lo, s.next) && forall i :: 0 <= i < |s.q| ==> InWindow(lo, s.q[i])
  }

  ghost predicate EventWindow(lo: int, f: Flow, e: Event) {
    Window(lo, f.s) && (e.Arrive? ==> InWindow(lo, e.p))
  }

  lemma EqualInWindow(lo: int, x: int, y: int)
    requires Within(lo, x) && Within(lo, y)
    ensures Wrap(x) == Wrap(y) <==> x == y
  {
    DiffInWindow(lo, x, y);
  }

  lemma EndWrap(p: Pkt)
    ensures End(Mod32, WrapPkt(p)) == Wrap(p.sn + p.len)
  {
    WrapAdd(p.sn, p.len);
  }

  lemma MaxWrap(lo: int, x: int, y: int)
    requires Within(lo, x) && Within(lo, y)
    ensures Mod32.Max(Wrap(x), Wrap(y)) == Wrap(Exact.Max(x, y)) && Within(lo, Exact.Max(x, y))
  {
    DiffInWindow(lo, x, y);
  }

  lemma WrapConcat(a: seq<Pkt>, b: seq<Pkt>)
    ensures WrapAll(a + b) == WrapAll(a) + WrapAll(b)
  {
  }

  lemma WrapSplit(q: seq<Pkt>, k: nat)
    requires k <= |q|
    ensures WrapAll(q[..k]) == WrapAll(q)[..k] && WrapAll(q[k..]) == WrapAll(q)[k..]
  {
  }

  lemma WrapOne(p: Pkt)
    ensures WrapAll([p]) == [WrapPkt(p)]
  {
  }

  /** Replacing a stretch of the queue by one packet. */
  lemma WrapSplice(q: seq<Pkt>, a: nat, b: nat, p: Pkt)
    requires a <= b <= |q|
    ensures WrapAll(q[..a] + [p] + q[b..]) == WrapAll(q)[..a] + [WrapPkt(p)] + WrapAll(q)[b..]
  {
  }

  lemma FlushThroughWrap(lo: int, s: Queue, i: nat)
    requires Window(lo, s) && i < |s.q|
    ensures FlushThrough(Mod32, WrapQueue(s), i) == WrapQueue(FlushThrough(Exact, s, i))
    ensures Window(lo, FlushThrough(Exact, s, i))
  {
    hide Wrap;
    EndWrap(s.q[i]);
    WrapSplit(s.q, i + 1);
    WrapConcat(s.done, s.q[..i + 1]);
  }

  lemma PopHeadWrap(lo: int, s: Queue)
    requires Window(lo, s) && s.q != []
    ensures PopHead(Mod32, WrapQueue(s)) == WrapQueue(PopHead(Exact, s))
    ensures Window(lo, PopHead(Exact, s))
  {
    hide Wrap, Arith.Diff;
    EndWrap(s.q[0]);
    MaxWrap(lo, s.next, s.q[0].sn + s.q[0].len);
    WrapSplit(s.q, 1);
    WrapConcat(s.done, [s.q[0]]);
    WrapOne(s.q[0]);
  }

  lemma {:induction false} PopManyWrap(lo: int, s: Queue, k: nat)
    requires Window(lo, s) && k <= |s.q|
    ensures PopMany(Mod32, WrapQueue(s), k) == WrapQueue(PopMany(Exact, s, k))
    ensures Window(lo, PopMany(Exact, s, k))
    decreases k
  {
    hide PopHead, Window, Wrap;
    if k == 0 {
    } else {
      PopHeadWrap(lo, s);
      PopHeadLength(s);
      PopManyWrap(lo, PopHead(Exact, s), k - 1);
    }
  }

  lemma PopHeadLength(s: Queue)
    requires s.q != []
    ensures |PopHead(Exact, s).q| == |s.q| - 1
  {
  }

  lemma {:induction false} PopInSequenceWrap(lo: int, s: Queue)
    requires Window(lo, s)
    ensures PopInSequence(Mod32, WrapQueue(s)) == WrapQueue(PopInSequence(Exact, s))
    ensures Window(lo, PopInSequence(Exact, s))
    decreases |s.q|
  {
    hide PopHead, Wrap, Arith.Diff;
    if s.q == [] {
    } else {
      DiffInWindow(lo, s.next, s.q[0].sn);
      ExactDiff(s.next, s.q[0].sn);
      if !(s.next < s.q[0].sn) {
        PopHeadWrap(lo, s);
        PopHeadLength(s);
        PopInSequenceWrap(lo, PopHead(Exact, s));
      }
    }
  }

  lemma ExactDiff(x: int, y: int)
    ensures Exact.Diff(x, y) == x - y
  {
  }

  lemma {:induction false} KeepFromWrap(q: seq<Pkt>, now: int, timeout: nat)
    ensures KeepFrom(WrapAll(q), now, timeout) == KeepFrom(q, now, timeout)
  {
    hide Wrap;
    if q == [] {
    } else {
      WrapSplit(q, |q| - 1);
      hide WrapAll;
      KeepFromWrap(q[..|q| - 1], now, timeout);
    }
  }

  lemma CompleteWrap(lo: int, s: Queue, now: int, timeout: nat)
    requires Window(lo, s)
    ensures Complete(Mod32, WrapQueue(s), now, timeout) == WrapQueue(Complete(Exact, s, now, timeout))
    ensures Window(lo, Complete(Exact, s, now, timeout))
  {
    hide PopMany, PopInSequence, KeepFrom, Window, Wrap;
    var k := Expired(s.q, now, timeout);
    KeepFromWrap(s.q, now, timeout);
    PopManyWrap(lo, s, k);
    PopInSequenceWrap(lo, PopMany(Exact, s, k));
  }

  lemma RefuseWrap(lo: int, s: Queue, i: nat)
    requires Window(lo, s) && i < |s.q|
    ensures Refuse(Mod32, WrapQueue(s), i) == WrapOutcome(Refuse(Exact, s, i))
    ensures Window(lo, Refuse(Exact, s, i).s)
  {
    hide FlushThrough, Wrap;
    FlushThroughWrap(lo, s, i);
  }

  lemma InsertWrap(lo: int, s: Queue, i: nat, p: Pkt)
    requires Window(lo, s) && i <= |s.q| && InWindow(lo, p)
    ensures WrapQueue(s.(q := InsertAt(s.q, i, p))) == WrapQueue(s).(q := InsertAt(WrapAll(s.q), i, WrapPkt(p)))
    ensures Window(lo, s.(q := InsertAt(s.q, i, p)))
  {
    WrapSplice(s.q, i, i, p);
  }

  lemma ReplaceWrap(lo: int, s: Queue, i: nat, p: Pkt)
    requires Window(lo, s) && i < |s.q| && InWindow(lo, p)
    ensures WrapQueue(s.(q := s.q[i := p])) == WrapQueue(s).(q := WrapAll(s.q)[i := WrapPkt(p)])
    ensures Window(lo, s.(q := s.q[i := p]))
  {
    assert WrapAll(s.q[i := p]) == WrapAll(s.q)[i := WrapPkt(p)];
  }

  lemma JoinLeftWrap(lo: int, s: Queue, p: Pkt, i: nat, inSeq: int)
    requires Window(lo, s) && i < |s.q| && InWindow(lo, p) && Within(lo, inSeq)
    ensures JoinLeft(Mod32, WrapQueue(s), WrapPkt(p), i, Wrap(inSeq)) == WrapOutcome(JoinLeft(Exact, s, p, i, inSeq))
    ensures p.sn + p.len == s.q[i].sn ==> Window(lo, JoinLeft(Exact, s, p, i, inSeq).s)
  {
    var x := s.q[i];
    EqualInWindow(lo, inSeq, p.sn);
    RefuseWrap(lo, s, i);
    InsertWrap(lo, s, i, p);
    hide Wrap, Refuse, InsertAt, Join;
    match Join(p.buf, x.buf)
    case Merged(b) => JoinedLeftWrap(lo, s, p, i, b);
    case TooBig =>
    case Invalid =>
  }

  lemma JoinedLeftWrap(lo: int, s: Queue, p: Pkt, i: nat, b: GroBuf)
    requires Window(lo, s) && i < |s.q| && InWindow(lo, p)
    ensures var x := s.q[i];
      var w := Pkt(p.sn, p.len + x.len, b, x.ts);
      && WrapQueue(s.(q := s.q[i := w])) == WrapQueue(s).(q := WrapAll(s.q)[i := WrapPkt(w)])
      && (p.sn + p.len == x.sn ==> Window(lo, s.(q := s.q[i := w])))
  {
    hide Wrap;
    var w := Pkt(p.sn, p.len + s.q[i].len, b, s.q[i].ts);
    assert WrapAll(s.q[i := w]) == WrapAll(s.q)[i := WrapPkt(w)];
  }

  lemma BridgeWrap(lo: int, s: Queue, y: Pkt, i: nat, pEnd: int, inOrder: bool, short: bool)
    requires Window(lo, s) && i < |s.q| && InWindow(lo, y) && y.sn + y.len == pEnd
    ensures Bridge(Mod32, WrapQueue(s), WrapPkt(y), i, Wrap(pEnd), inOrder, short)
         == WrapOutcome(Bridge(Exact, s, y, i, pEnd, inOrder, short))
    ensures Window(lo, Bridge(Exact, s, y, i, pEnd, inOrder, short).s)
  {
    hide Wrap, Arith.Diff, FlushThrough, Join, Window, Within;
    var t := s.(q := s.q[i := y]);
    ReplaceWrap(lo, s, i, y);
    if i + 1 < |s.q| {
      var z := s.q[i + 1];
      NeighbourInWindow(lo, s, y, i + 1);
      EqualInWindow(lo, pEnd, z.sn);
      DiffInWindow(lo, z.sn, pEnd);
      ExactDiff(z.sn, pEnd);
      FlushThroughWrap(lo, t, i);
      FlushThroughWrap(lo, t, i + 1);
      if pEnd == z.sn && Join(y.buf, z.buf).Merged? {
        BridgedWrap(lo, s, y, i, Join(y.buf, z.buf).buf, if y.ts < z.ts then y.ts else z.ts);
      }
    }
  }

  lemma NeighbourInWindow(lo: int, s: Queue, y: Pkt, i: nat)
    requires Window(lo, s) && i < |s.q| && InWindow(lo, y)
    ensures Within(lo, s.q[i].sn) && Within(lo, s.q[i].sn + s.q[i].len) && Within(lo, y.sn + y.len)
  {
  }

  lemma BridgedWrap(lo: int, s: Queue, y: Pkt, i: nat, b: GroBuf, ts: int)
    requires Window(lo, s) && i + 1 < |s.q| && InWindow(lo, y) && y.sn + y.len == s.q[i + 1].sn
    ensures var w := Pkt(y.sn, y.len + s.q[i + 1].len, b, ts);
      var u := s.(q := s.q[..i] + [w] + s.q[i + 2..]);
      && WrapQueue(u) == WrapQueue(s).(q := WrapAll(s.q)[..i] + [WrapPkt(w)] + WrapAll(s.q)[i + 2..])
      && Window(lo, u)
  {
    hide Wrap;
    WrapSplice(s.q, i, i + 2, Pkt(y.sn, y.len + s.q[i + 1].len, b, ts));
  }

  /** The three comparisons by which the loop finds its branch, and the test for the run that
      starts at seq_next. */
  lemma TestsWrap(lo: int, x: Pkt, p: Pkt, inSeq: int)
    requires InWindow(lo, x) && InWindow(lo, p) && Within(lo, inSeq)
    ensures var x', p' := WrapPkt(x), WrapPkt(p);
      && End(Mod32, x') == Wrap(x.sn + x.len) && End(Mod32, p') == Wrap(p.sn + p.len)
      && (Mod32.Before(End(Mod32, p'), x'.sn) <==> p.sn + p.len < x.sn)
      && (End(Mod32, p') == x'.sn <==> p.sn + p.len == x.sn)
      && (p'.sn == End(Mod32, x') <==> p.sn == x.sn + x.len)
      && (After(Mod32, p'.sn, End(Mod32, x')) <==> p.sn > x.sn + x.len)
      && (Wrap(inSeq) == x'.sn <==> inSeq == x.sn)
  {
    EndWrap(x);
    EndWrap(p);
    DiffInWindow(lo, p.sn + p.len, x.sn);
    DiffInWindow(lo, x.sn + x.len, p.sn);
    EqualInWindow(lo, p.sn + p.len, x.sn);
    EqualInWindow(lo, p.sn, x.sn + x.len);
    EqualInWindow(lo, inSeq, x.sn);
  }

  lemma ExactTests(x: Pkt, p: Pkt)
    ensures End(Exact, x) == x.sn + x.len && End(Exact, p) == p.sn + p.len
    ensures Exact.Before(End(Exact, p), x.sn) <==> p.sn + p.len < x.sn
    ensures After(Exact, p.sn, End(Exact, x)) <==> p.sn > x.sn + x.len
  {
  }

  lemma AppendWrap(lo: int, s: Queue, p: Pkt)
    requires Window(lo, s) && InWindow(lo, p)
    ensures WrapQueue(s.(q := s.q + [p])) == WrapQueue(s).(q := WrapAll(s.q) + [WrapPkt(p)])
    ensures Window(lo, s.(q := s.q + [p]))
  {
  }

  /** The packet follows the one at `i` directly and the loop ends there. */
  lemma WalkTouchingWrap(lo: int, s: Queue, p: Pkt, i: nat, inSeq: int, short: bool)
    requires Window(lo, s) && i < |s.q| && InWindow(lo, p) && Within(lo, inSeq)
    requires var x := s.q[i];
      p.sn == x.sn + x.len && p.sn + p.len > x.sn && !(Join(x.buf, p.buf).TooBig? && i + 1 < |s.q|)
    ensures Walk(Mod32, WrapQueue(s), WrapPkt(p), i, Wrap(inSeq), short)
         == WrapOutcome(Walk(Exact, s, p, i, inSeq, short))
    ensures Window(lo, Walk(Exact, s, p, i, inSeq, short).s)
  {
    hide Wrap, Arith.Before, FlushThrough, Join, Bridge, Refuse, JoinLeft, InsertAt, After, End, Window, Within;
    var x := s.q[i];
    NeighbourInWindow(lo, s, p, i);
    TestsWrap(lo, x, p, inSeq);
    ExactTests(x, p);
    match Join(x.buf, p.buf)
    case Merged(b) =>
      BridgeWrap(lo, s, Pkt(x.sn, x.len + p.len, b, x.ts), i, p.sn + p.len, inSeq == x.sn, short);
    case TooBig =>
      AppendWrap(lo, s, p);
      FlushThroughWrap(lo, s.(q := s.q + [p]), i);
    case Invalid =>
      RefuseWrap(lo, s, i);
  }

  /** The branches that end the loop without the packet following the one at `i`. */
  lemma WalkStopsWrap(lo: int, s: Queue, p: Pkt, i: nat, inSeq: int, short: bool)
    requires Window(lo, s) && i < |s.q| && InWindow(lo, p) && Within(lo, inSeq)
    requires var x := s.q[i];
      && (p.sn + p.len > x.sn ==> p.sn != x.sn + x.len)
      && (p.sn + p.len > x.sn && p.sn > x.sn + x.len ==> i + 1 == |s.q|)
    ensures Walk(Mod32, WrapQueue(s), WrapPkt(p), i, Wrap(inSeq), short)
         == WrapOutcome(Walk(Exact, s, p, i, inSeq, short))
    ensures Window(lo, Walk(Exact, s, p, i, inSeq, short).s)
  {
    hide Wrap, Arith.Before, FlushThrough, Join, Bridge, Refuse, JoinLeft, InsertAt, After, End, Window, Within;
    var x := s.q[i];
    NeighbourInWindow(lo, s, p, i);
    TestsWrap(lo, x, p, inSeq);
    ExactTests(x, p);
    JoinLeftWrap(lo, s, p, i, inSeq);
    InsertWrap(lo, s, i, p);
    AppendWrap(lo, s, p);
  }

  lemma WalkGoesOn(ar: Arith, s: Queue, p: Pkt, i: nat, inSeq: int, short: bool)
    requires i + 1 < |s.q|
    requires var x := s.q[i];
      && !ar.Before(End(ar, p), x.sn) && End(ar, p) != x.sn
      && (if p.sn == End(ar, x) then Join(x.buf, p.buf).TooBig? else After(ar, p.sn, End(ar, x)))
    ensures var x := s.q[i];
      var inSeq' := if inSeq == x.sn then End(ar, x) else inSeq;
      Walk(ar, s, p, i, inSeq, short) ==
        if p.sn == End(ar, x) && inSeq == x.sn then Walk(ar, FlushThrough(ar, s, i), p, 0, inSeq', short)
        else Walk(ar, s, p, i + 1, inSeq', short)
  {
    hide Wrap, Arith.Before, FlushThrough, Join, Bridge, Refuse, JoinLeft, InsertAt, After, End;
  }

  lemma {:induction false} WalkWrap(lo: int, s: Queue, p: Pkt, i: nat, inSeq: int, short: bool)
    requires Window(lo, s) && i < |s.q| && InWindow(lo, p) && Within(lo, inSeq)
    ensures Walk(Mod32, WrapQueue(s), WrapPkt(p), i, Wrap(inSeq), short)
         == WrapOutcome(Walk(Exact, s, p, i, inSeq, short))
    ensures Window(lo, Walk(Exact, s, p, i, inSeq, short).s)
    decreases |s.q| - i
  {
    hide Walk, Wrap, Arith.Before, FlushThrough, Join, After, End, Window, Within;
    var x := s.q[i];
    NeighbourInWindow(lo, s, p, i);
    TestsWrap(lo, x, p, inSeq);
    ExactTests(x, p);
    if p.sn + p.len <= x.sn || p.sn < x.sn + x.len || (p.sn > x.sn + x.len && i + 1 == |s.q|) {
      WalkStopsWrap(lo, s, p, i, inSeq, short);
    } else if p.sn == x.sn + x.len && !(Join(x.buf, p.buf).TooBig? && i + 1 < |s.q|) {
      WalkTouchingWrap(lo, s, p, i, inSeq, short);
    } else {
      WalkGoesOn(Exact, s, p, i, inSeq, short);
      WalkGoesOn(Mod32, WrapQueue(s), WrapPkt(p), i, Wrap(inSeq), short);
      var inSeq' := if inSeq == x.sn then x.sn + x.len else inSeq;
      if p.sn == x.sn + x.len && inSeq == x.sn {
        FlushThroughWrap(lo, s, i);
        FlushThroughLength(s, i);
        WalkWrap(lo, FlushThrough(Exact, s, i), p, 0, inSeq', short);
      } else {
        WalkWrap(lo, s, p, i + 1, inSeq', short);
      }
    }
  }

  lemma FlushThroughLength(s: Queue, i: nat)
    requires i < |s.q|
    ensures |FlushThrough(Exact, s, i).q| == |s.q| - i - 1
  {
  }

  // ---------------------------------------------------------------------------------------

  lemma BypassWrap(lo: int, f: Flow, p: Pkt)
    requires Within(lo, f.s.next) && InWindow(lo, p)
    ensures Bypass(Mod32, WrapFlow(f), WrapPkt(p)) == WrapFlow(Bypass(Exact, f, p))
  {
    hide Wrap, Arith.Diff;
    EndWrap(p);
    MaxWrap(lo, f.s.next, p.sn + p.len);
    WrapConcat(f.normal, [p]);
    WrapOne(p);
  }

  lemma ReceiveWrap(lo: int, f: Flow, p: Pkt, differs: bool)
    requires f.s.q != [] && Window(lo, f.s) && InWindow(lo, p)
    ensures Receive(Mod32, WrapFlow(f), WrapPkt(p), differs) == WrapFlow(Receive(Exact, f, p, differs))
  {
    hide Wrap, Arith.Diff, Walk, Complete, Bypass;
    ExactDiff(p.sn, f.s.next);
    DiffInWindow(lo, p.sn, f.s.next);
    WalkWrap(lo, f.s, p, 0, f.s.next, p.len < f.mss);
    var o := TcpGroReceive(Exact, f, p, differs);
    CompleteWrap(lo, o.s, 0, 0);
    BypassWrap(lo, f.(s := if o.flush then CompleteAll(Exact, o.s) else o.s), p);
  }

  lemma OpenWrap(lo: int, f: Flow, p: Pkt, differs: bool)
    requires f.s.q == [] && Window(lo, f.s) && InWindow(lo, p)
    ensures Open(Mod32, WrapFlow(f), WrapPkt(p), differs) == WrapFlow(Open(Exact, f, p, differs))
  {
    hide Wrap, Arith.Diff, Bypass;
    ExactDiff(p.sn, f.s.next);
    DiffInWindow(lo, p.sn, f.s.next);
    BypassWrap(lo, f, p);
    WrapOne(p);
  }

  /** One event. */
  lemma StepWrap(lo: int, f: Flow, e: Event)
    requires EventWindow(lo, f, e)
    ensures Step(Mod32, WrapFlow(f), WrapEvent(e)) == WrapFlow(Step(Exact, f, e))
  {
    hide Receive, Open, Complete, Wrap, Within;
    match e
    case Arrive(p, differs) =>
      if f.s.q == [] { OpenWrap(lo, f, p, differs); } else { ReceiveWrap(lo, f, p, differs); }
    case Timer(now, timeout) => CompleteWrap(lo, f.s, now, timeout);
    case Evict => CompleteWrap(lo, f.s, 0, 0);
  }

  /** A history whose every event meets the window condition in the state it finds. */
  ghost predicate LiveWindow(f: Flow, es: seq<Event>)
    decreases |es|
  {
    es == [] ||
    ((exists lo :: EventWindow(lo, f, es[0])) && LiveWindow(Step(Exact, f, es[0]), es[1..]))
  }

  function WrapEvents(es: seq<Event>): (r: seq<Event>)
    ensures |r| == |es|
    ensures forall i :: 0 <= i < |es| ==> r[i] == WrapEvent(es[i])
  {
    seq(|es|, i requires 0 <= i < |es| => WrapEvent(es[i]))
  }

  /** Whole histories, however often the 32-bit numbers wrap. */
  lemma {:induction false} RunWrap(f: Flow, es: seq<Event>)
    requires LiveWindow(f, es)
    ensures Run(Mod32, WrapFlow(f), WrapEvents(es)) == WrapFlow(Run(Exact, f, es))
    decreases |es|
  {
    hide Step, EventWindow, WrapFlow, WrapEvent;
    if es == [] {
    } else {
      var lo :| EventWindow(lo, f, es[0]);
      StepWrap(lo, f, es[0]);
      assert WrapEvents(es)[1..] == WrapEvents(es[1..]);
      RunWrap(Step(Exact, f, es[0]), es[1..]);
    }
  }

  /** On 32-bit numbers, what leaves the queue is the image of packets in strictly rising
      order, disjoint exactly when no arrival clashed. */
  lemma RunWrapOrdered(f: Flow, es: seq<Event>)
    requires LiveWindow(f, es) && Order.FlowInv(f) && Order.AllProper(es)
    ensures var r := Run(Exact, f, es);
      && Run(Mod32, WrapFlow(f), WrapEvents(es)).s.done == WrapAll(r.s.done)
      && Order.Rising(r.s.done)
      && (Order.Disjoint(r.s.done) <==> Order.Disjoint(f.s.done) && Order.NoClash(f, es))
  {
    hide *;
    RunWrap(f, es);
    Order.RunKeeps(f, es);
    WrapFlowDone(Run(Exact, f, es));
  }

  lemma WrapFlowDone(f: Flow)
    ensures WrapFlow(f).s.done == WrapAll(f.s.done) && WrapFlow(f).s.q == WrapAll(f.s.q) && WrapFlow(f).normal == WrapAll(f.normal)
  {
  }

  /** On 32-bit numbers, too, what is held, completed and passed up are slices of the sender's
      stream: images of packets that contain every position as often as it was received. */
  lemma RunWrapAccounts(m: Data.Mem, st: Meaning.Stream, f: Flow, es: seq<Event>)
    requires LiveWindow(f, es) && Meaning.FlowCarries(m, st, f) && Meaning.HistoryCarries(m, st, es)
    ensures var r, u := Run(Exact, f, es), Run(Mod32, WrapFlow(f), WrapEvents(es));
      && u.s.q == WrapAll(r.s.q) && u.s.done == WrapAll(r.s.done) && u.normal == WrapAll(r.normal)
      && Meaning.FlowCarries(m, st, r)
      && forall x :: Meaning.FlowCover(r, x) == Meaning.FlowCover(f, x) + Meaning.Cover(Arrivals(es), x)
  {
    hide *;
    RunWrap(f, es);
    var r := Run(Exact, f, es);
    WrapFlowDone(r);
    forall x
      ensures Meaning.FlowCarries(m, st, r) && Meaning.FlowCover(r, x) == Meaning.FlowCover(f, x) + Meaning.Cover(Arrivals(es), x)
    {
      Meaning.RunAccounts(m, st, f, es, x);
    }
    Meaning.RunAccounts(m, st, f, es, 0);
  }
}
