/**
  The reordering queue of the netfilter module as a function from state to state.
  `ReorderQueue.dfy` proves the linked-list code against it.
 */
module Reorder {
  import opened Serial

  /** A queued packet: `len` is the TCP payload length computed from the headers. */
  datatype Packet = Packet(id: int, sn: int, len: int, syn: bool)

  /** `out` lists the packets reinjected so far, oldest first. */
  datatype State = State(next: int, q: seq<Packet>, out: seq<Packet>)

  datatype Event = Arrive(p: Packet) | Timeout

  const MAX_REORDER_COUNT := 10

  function End(ar: Arith, p: Packet): int {
    ar.Norm(p.sn + p.len)
  }

  /** The first `k` queued packets leave, each moving `next` to its end. */
  function FlushPrefix(ar: Arith, s: State, k: nat): State
    requires k <= |s.q|
  {
    State(if k == 0 then s.next else End(ar, s.q[k - 1]), s.q[k..], s.out + s.q[..k])
  }

  function FlushAll(ar: Arith, s: State): State {
    FlushPrefix(ar, s, |s.q|)
  }

  function Accept(s: State, p: Packet): State {
    s.(out := s.out + [p])
  }

  function Bump(ar: Arith, s: State, end: int): State {
    s.(next := ar.Max(s.next, end))
  }

  /** Packets leave from the head for as long as they start at or before `next`. */
  function Drain(ar: Arith, s: State): State
    decreases |s.q|
  {
    if s.q != [] && ar.Diff(s.q[0].sn, s.next) <= 0 then
      Drain(ar, State(ar.Max(s.next, End(ar, s.q[0])), s.q[1..], s.out + [s.q[0]]))
    else s
  }

  /** Position of the first queued packet that starts at or after `end`. */
  function Slot(ar: Arith, q: seq<Packet>, end: int): (i: nat)
    ensures i <= |q|
    ensures forall j :: 0 <= j < i ==> ar.Diff(end, q[j].sn) > 0
    ensures i < |q| ==> ar.Diff(end, q[i].sn) <= 0
  {
    if q == [] || ar.Diff(end, q[0].sn) <= 0 then 0
    else 1 + Slot(ar, q[1..], end)
  }

  function InsertAt(q: seq<Packet>, i: nat, p: Packet): seq<Packet>
    requires i <= |q|
  {
    q[..i] + [p] + q[i..]
  }

  function Enqueue(ar: Arith, s: State, p: Packet): State {
    var end := End(ar, p);
    if p.syn then
      Accept(FlushAll(ar, s).(next := ar.Norm(p.sn + 1)), p)
    else if p.len == 0 then
      Accept(Bump(ar, FlushAll(ar, s), end), p)
    else if ar.Diff(end, s.next) <= 0 then
      Accept(s, p)
    else if ar.Diff(p.sn, s.next) <= 0 then
      Drain(ar, Accept(s.(next := end), p))
    else
      EnqueueGap(ar, s, p)
  }

  /** The packet starts beyond `next`: hold it, unless the queue is full or it overlaps. */
  function EnqueueGap(ar: Arith, s: State, p: Packet): State {
    var end := End(ar, p);
    var i := Slot(ar, s.q, end);
    if |s.q| > MAX_REORDER_COUNT then
      Bump(ar, Accept(FlushAll(ar, s), p), end)
    else if Overlaps(ar, s.q, i, p) then
      Bump(ar, Accept(FlushPrefix(ar, s, i), p), end)
    else
      s.(q := InsertAt(s.q, i, p))
  }

  predicate Overlaps(ar: Arith, q: seq<Packet>, i: nat, p: Packet)
    requires i <= |q|
  {
    i > 0 && ar.Diff(p.sn, End(ar, q[i - 1])) < 0
  }

  function Step(ar: Arith, s: State, e: Event): State {
    match e
    case Arrive(p) => Enqueue(ar, s, p)
    case Timeout => FlushAll(ar, s)
  }

  function Run(ar: Arith, s: State, es: seq<Event>): State
    decreases |es|
  {
    if es == [] then s else Run(ar, Step(ar, s, es[0]), es[1..])
  }

  lemma {:induction false} RunSnoc(ar: Arith, s: State, es: seq<Event>, e: Event)
    ensures Run(ar, s, es + [e]) == Step(ar, Run(ar, s, es), e)
    decreases |es|
  {
    if es != [] {
      assert (es + [e])[0] == es[0] && (es + [e])[1..] == es[1..] + [e];
      RunSnoc(ar, Step(ar, s, es[0]), es[1..], e);
    } else {
      assert [e][1..] == [];
    }
  }

  /** The packets of a history, in arrival order. */
  function Arrivals(es: seq<Event>): seq<Packet> {
    if es == [] then []
    else (if es[0].Arrive? then [es[0].p] else []) + Arrivals(es[1..])
  }

  // ---------------------------------------------------------------------------------------
  // Every packet is reinjected exactly once or still queued, whatever the numbers are.

  ghost function Holdings(s: State): multiset<Packet> {
    multiset(s.q) + multiset(s.out)
  }

  lemma FlushKeeps(ar: Arith, s: State, k: nat)
    requires k <= |s.q|
    ensures Holdings(FlushPrefix(ar, s, k)) == Holdings(s)
  {
    assert s.q == s.q[..k] + s.q[k..];
  }

  lemma {:induction false} DrainKeeps(ar: Arith, s: State)
    ensures Holdings(Drain(ar, s)) == Holdings(s)
    ensures |Drain(ar, s).q| <= |s.q|
    ensures s.out <= Drain(ar, s).out
    decreases |s.q|
  {
    if s.q == [] || ar.Diff(s.q[0].sn, s.next) > 0 {
    } else {
      assert s.q == [s.q[0]] + s.q[1..];
      DrainKeeps(ar, State(ar.Max(s.next, End(ar, s.q[0])), s.q[1..], s.out + [s.q[0]]));
    }
  }

  lemma AcceptKeeps(s: State, p: Packet)
    ensures Holdings(Accept(s, p)) == Holdings(s) + multiset{p}
  {
  }

  lemma InsertKeeps(q: seq<Packet>, i: nat, p: Packet)
    requires i <= |q|
    ensures multiset(InsertAt(q, i, p)) == multiset(q) + multiset{p}
  {
    assert q == q[..i] + q[i..];
  }

  lemma GapKeeps(ar: Arith, s: State, p: Packet)
    ensures Holdings(EnqueueGap(ar, s, p)) == Holdings(s) + multiset{p}
    ensures |EnqueueGap(ar, s, p).q| <= MAX_REORDER_COUNT + 1
    ensures s.out <= EnqueueGap(ar, s, p).out
  {
    hide Slot, InsertAt, Arith.Diff;
    var i := Slot(ar, s.q, End(ar, p));
    if |s.q| > MAX_REORDER_COUNT {
      FlushKeeps(ar, s, |s.q|);
      AcceptKeeps(FlushAll(ar, s), p);
    } else if Overlaps(ar, s.q, i, p) {
      FlushKeeps(ar, s, i);
      AcceptKeeps(FlushPrefix(ar, s, i), p);
    } else {
      InsertKeeps(s.q, i, p);
    }
  }

  lemma EnqueueAccounts(ar: Arith, s: State, p: Packet)
    requires |s.q| <= MAX_REORDER_COUNT + 1
    ensures Holdings(Enqueue(ar, s, p)) == Holdings(s) + multiset{p}
    ensures |Enqueue(ar, s, p).q| <= MAX_REORDER_COUNT + 1
    ensures s.out <= Enqueue(ar, s, p).out
  {
    var end := End(ar, p);
    if p.syn || p.len == 0 {
      FlushKeeps(ar, s, |s.q|);
      AcceptKeeps(FlushAll(ar, s), p);
    } else if ar.Diff(end, s.next) <= 0 {
      AcceptKeeps(s, p);
    } else if ar.Diff(p.sn, s.next) <= 0 {
      AcceptKeeps(s.(next := end), p);
      DrainKeeps(ar, Accept(s.(next := end), p));
    } else {
      GapKeeps(ar, s, p);
    }
  }

  /** One event: nothing is lost or duplicated, nothing reinjected is taken back, and at most
      one more than MAX_REORDER_COUNT packets are ever held. */
  lemma StepAccounts(ar: Arith, s: State, e: Event)
    requires |s.q| <= MAX_REORDER_COUNT + 1
    ensures Holdings(Step(ar, s, e)) == Holdings(s) + multiset(if e.Arrive? then [e.p] else [])
    ensures |Step(ar, s, e).q| <= MAX_REORDER_COUNT + 1
    ensures s.out <= Step(ar, s, e).out
  {
    match e
    case Timeout => FlushKeeps(ar, s, |s.q|);
    case Arrive(p) => EnqueueAccounts(ar, s, p);
  }

  /** Over any history from an empty queue, also when sequence numbers are arbitrary 32-bit
      words: what was received is exactly what was reinjected plus what is held. */
  lemma {:induction false} RunAccounts(ar: Arith, s: State, es: seq<Event>)
    requires |s.q| <= MAX_REORDER_COUNT + 1
    ensures Holdings(Run(ar, s, es)) == Holdings(s) + multiset(Arrivals(es))
    ensures |Run(ar, s, es).q| <= MAX_REORDER_COUNT + 1
    ensures s.out <= Run(ar, s, es).out
    decreases |es|
  {
    if es == [] {
    } else {
      StepAccounts(ar, s, es[0]);
      RunAccounts(ar, Step(ar, s, es[0]), es[1..]);
    }
  }

  // ---------------------------------------------------------------------------------------
  // On stream positions the queue is always sorted and disjoint, ahead of `next`.

  ghost predicate Sorted(q: seq<Packet>) {
    && (forall i :: 0 <= i < |q| ==> q[i].len > 0)
    && (forall i, j :: 0 <= i < j < |q| ==> q[i].sn + q[i].len <= q[j].sn)
  }

  ghost predicate Inv(s: State) {
    && Sorted(s.q)
    && (s.q != [] ==> s.next <= s.q[0].sn)
    && |s.q| <= MAX_REORDER_COUNT + 1
  }

  ghost predicate Proper(e: Event) {
    e.Arrive? ==> e.p.len >= 0
  }

  lemma {:induction false} DrainInv(s: State)
    requires Sorted(s.q) && |s.q| <= MAX_REORDER_COUNT + 1
    ensures Inv(Drain(Exact, s))
    ensures s.next <= Drain(Exact, s).next
    ensures Drain(Exact, s).q != [] ==> Drain(Exact, s).next < Drain(Exact, s).q[0].sn
    decreases |s.q|
  {
    if s.q == [] || s.next < s.q[0].sn {
    } else {
      DrainInv(State(Exact.Max(s.next, End(Exact, s.q[0])), s.q[1..], s.out + [s.q[0]]));
    }
  }

  lemma SortedLast(q: seq<Packet>, k: nat)
    requires Sorted(q) && 0 < k <= |q|
    ensures q[0].sn < q[k - 1].sn + q[k - 1].len
  {
    if k > 1 {
      assert q[0].sn + q[0].len <= q[k - 1].sn;
    }
  }

  lemma FlushInv(s: State, k: nat)
    requires Inv(s) && k <= |s.q|
    ensures Inv(FlushPrefix(Exact, s, k))
    ensures s.next <= FlushPrefix(Exact, s, k).next
  {
    if k > 0 {
      SortedLast(s.q, k);
    }
  }

  lemma StepInv(s: State, e: Event)
    requires Inv(s) && Proper(e)
    ensures Inv(Step(Exact, s, e))
    ensures !(e.Arrive? && e.p.syn) ==> s.next <= Step(Exact, s, e).next
  {
    FlushInv(s, |s.q|);
    match e
    case Timeout =>
    case Arrive(p) =>
      var end := End(Exact, p);
      if !p.syn && p.len != 0 && end > s.next {
        if p.sn <= s.next {
          DrainInv(Accept(s.(next := end), p));
        } else {
          GapInv(s, p);
        }
      }
  }

  lemma GapInv(s: State, p: Packet)
    requires Inv(s) && p.len > 0 && s.next < p.sn
    ensures Inv(EnqueueGap(Exact, s, p))
    ensures s.next <= EnqueueGap(Exact, s, p).next
  {
    var end := End(Exact, p);
    var i := Slot(Exact, s.q, end);
    FlushInv(s, |s.q|);
    FlushInv(s, i);
    if !Overlaps(Exact, s.q, i, p) {
      InsertSorted(s.q, i, p);
      assert InsertAt(s.q, i, p)[0] == if i == 0 then p else s.q[0];
    }
  }

  lemma InsertSorted(q: seq<Packet>, i: nat, p: Packet)
    requires Sorted(q) && i <= |q| && p.len > 0
    requires i > 0 ==> q[i - 1].sn + q[i - 1].len <= p.sn
    requires i < |q| ==> p.sn + p.len <= q[i].sn
    ensures Sorted(InsertAt(q, i, p))
  {
    var r := InsertAt(q, i, p);
    forall a, b | 0 <= a < b < |r|
      ensures r[a].sn + r[a].len <= r[b].sn
    {
      var a' := if a < i then a else a - 1;
      var b' := if b < i then b else b - 1;
      if a == i {
        assert r[b] == q[b'];
        if b' > i { assert q[i].sn + q[i].len <= q[b'].sn; assert q[i].len > 0; }
      } else if b == i {
        assert r[a] == q[a];
        if a < i - 1 { assert q[a].sn + q[a].len <= q[i - 1].sn; assert q[i - 1].len > 0; }
      } else {
        assert r[a] == q[a'] && r[b] == q[b'] && a' < b';
      }
    }
  }

  ghost predicate NoSyn(es: seq<Event>) {
    forall i :: 0 <= i < |es| ==> es[i].Arrive? ==> !es[i].p.syn
  }

  /** The reachable-state invariant over any history of arrivals and timer expirations. */
  lemma {:induction false} RunInv(s: State, es: seq<Event>)
    requires Inv(s)
    requires forall i :: 0 <= i < |es| ==> Proper(es[i])
    ensures Inv(Run(Exact, s, es))
    ensures NoSyn(es) ==> s.next <= Run(Exact, s, es).next
    decreases |es|
  {
    if es == [] {
    } else {
      StepInv(s, es[0]);
      RunInv(Step(Exact, s, es[0]), es[1..]);
      assert NoSyn(es) ==> NoSyn(es[1..]);
    }
  }

  // ---------------------------------------------------------------------------------------
  // The 32-bit code is the image of the algorithm on positions.

  function WrapPacket(p: Packet): Packet {
    p.(sn := Wrap(p.sn))
  }

  function WrapAll(q: seq<Packet>): (r: seq<Packet>)
    ensures |r| == |q|
    ensures forall i :: 0 <= i < |q| ==> r[i] == WrapPacket(q[i])
  {
    seq(|q|, i requires 0 <= i < |q| => WrapPacket(q[i]))
  }

  function WrapState(s: State): State {
    State(Wrap(s.next), WrapAll(s.q), WrapAll(s.out))
  }

  function WrapEvent(e: Event): Event {
    if e.Arrive? then Arrive(WrapPacket(e.p)) else e
  }

  /** All numbers that the code may compare lie in the half window that starts at `lo`. */
  ghost predicate Window(lo: int, s: State) {
    && Within(lo, s.next)
    && (forall i :: 0 <= i < |s.q| ==> s.q[i].len >= 0 && Within(lo, s.q[i].sn) && Within(lo, s.q[i].sn + s.q[i].len))
  }

  /** A SYN starts a new numbering and is not compared with anything. */
  ghost predicate EventWindow(lo: int, s: State, e: Event) {
    match e
    case Timeout => true
    case Arrive(p) =>
      0 <= p.len < HALF && (p.syn || (Window(lo, s) && Within(lo, p.sn) && Within(lo, p.sn + p.len)))
  }

  lemma EndWrap(p: Packet)
    ensures End(Mod32, WrapPacket(p)) == Wrap(End(Exact, p))
  {
    WrapAdd(p.sn, p.len);
  }

  lemma WrapAllConcat(a: seq<Packet>, b: seq<Packet>)
    ensures WrapAll(a + b) == WrapAll(a) + WrapAll(b)
  {
  }

  lemma MaxWrap(lo: int, x: int, y: int)
    requires Within(lo, x) && Within(lo, y)
    ensures Mod32.Max(Wrap(x), Wrap(y)) == Wrap(Exact.Max(x, y))
  {
    DiffInWindow(lo, x, y);
  }

  lemma FlushWrap(s: State, k: nat)
    requires k <= |s.q|
    ensures FlushPrefix(Mod32, WrapState(s), k) == WrapState(FlushPrefix(Exact, s, k))
  {
    if k > 0 {
      EndWrap(s.q[k - 1]);
    }
    WrapAllConcat(s.out, s.q[..k]);
    assert WrapAll(s.q)[..k] == WrapAll(s.q[..k]);
    assert WrapAll(s.q)[k..] == WrapAll(s.q[k..]);
  }

  lemma {:induction false} DrainWrap(lo: int, s: State)
    requires Window(lo, s)
    ensures Drain(Mod32, WrapState(s)) == WrapState(Drain(Exact, s))
    decreases |s.q|
  {
    if s.q == [] {
    } else {
      DiffInWindow(lo, s.q[0].sn, s.next);
      if s.q[0].sn <= s.next {
        EndWrap(s.q[0]);
        MaxWrap(lo, s.next, s.q[0].sn + s.q[0].len);
        var t := State(Exact.Max(s.next, End(Exact, s.q[0])), s.q[1..], s.out + [s.q[0]]);
        assert WrapAll(s.q)[1..] == WrapAll(s.q[1..]);
        WrapAllConcat(s.out, [s.q[0]]);
        assert WrapAll([s.q[0]]) == [WrapPacket(s.q[0])];
        DrainWrap(lo, t);
      }
    }
  }

  lemma {:induction false} SlotWrap(lo: int, q: seq<Packet>, end: int)
    requires Within(lo, end) && forall i :: 0 <= i < |q| ==> Within(lo, q[i].sn)
    ensures Slot(Mod32, WrapAll(q), Wrap(end)) == Slot(Exact, q, end)
  {
    if q == [] {
    } else {
      DiffInWindow(lo, end, q[0].sn);
      assert WrapAll(q)[1..] == WrapAll(q[1..]);
      SlotWrap(lo, q[1..], end);
    }
  }

  lemma AcceptWrap(s: State, p: Packet)
    ensures WrapState(Accept(s, p)) == Accept(WrapState(s), WrapPacket(p))
  {
    WrapAllConcat(s.out, [p]);
    assert WrapAll([p]) == [WrapPacket(p)];
  }

  /** Refinement: one step of the 32-bit code on wrapped numbers is the wrapped image of one
      step on positions. */
  lemma StepWrap(lo: int, s: State, e: Event)
    requires Inv(s) && EventWindow(lo, s, e)
    ensures Step(Mod32, WrapState(s), WrapEvent(e)) == WrapState(Step(Exact, s, e))
  {
    FlushWrap(s, |s.q|);
    match e
    case Timeout =>
    case Arrive(p) =>
      EndWrap(p);
      if p.syn {
        WrapAdd(p.sn, 1);
        AcceptWrap(FlushAll(Exact, s).(next := p.sn + 1), p);
      } else {
        EnqueueWrap(lo, s, p);
      }
  }

  lemma EnqueueWrap(lo: int, s: State, p: Packet)
    requires Inv(s) && EventWindow(lo, s, Arrive(p)) && !p.syn
    ensures Enqueue(Mod32, WrapState(s), WrapPacket(p)) == WrapState(Enqueue(Exact, s, p))
  {
    var end := End(Exact, p);
    EndWrap(p);
    DiffInWindow(lo, end, s.next);
    DiffInWindow(lo, p.sn, s.next);
    if p.len == 0 {
      FlushWrap(s, |s.q|);
      var f := FlushAll(Exact, s);
      FlushWindow(lo, s, |s.q|);
      MaxWrap(lo, f.next, end);
      AcceptWrap(Bump(Exact, f, end), p);
    } else if end <= s.next {
      AcceptWrap(s, p);
    } else if p.sn <= s.next {
      AcceptWrap(s.(next := end), p);
      DrainWrap(lo, Accept(s.(next := end), p));
    } else {
      GapWrap(lo, s, p);
    }
  }

  lemma FlushWindow(lo: int, s: State, k: nat)
    requires Window(lo, s) && k <= |s.q|
    ensures Within(lo, FlushPrefix(Exact, s, k).next)
  {
  }

  lemma FlushAcceptBumpWrap(lo: int, s: State, k: nat, p: Packet)
    requires Window(lo, s) && k <= |s.q| && Within(lo, End(Exact, p))
    ensures Bump(Mod32, Accept(FlushPrefix(Mod32, WrapState(s), k), WrapPacket(p)), Wrap(End(Exact, p)))
         == WrapState(Bump(Exact, Accept(FlushPrefix(Exact, s, k), p), End(Exact, p)))
  {
    var f := FlushPrefix(Exact, s, k);
    FlushWrap(s, k);
    FlushWindow(lo, s, k);
    MaxWrap(lo, f.next, End(Exact, p));
    AcceptWrap(f, p);
  }

  lemma GapWrap(lo: int, s: State, p: Packet)
    requires Window(lo, s) && Within(lo, p.sn) && Within(lo, p.sn + p.len)
    ensures EnqueueGap(Mod32, WrapState(s), WrapPacket(p)) == WrapState(EnqueueGap(Exact, s, p))
  {
    var i := Slot(Exact, s.q, End(Exact, p));
    EndWrap(p);
    SlotWrap(lo, s.q, End(Exact, p));
    FlushAcceptBumpWrap(lo, s, |s.q|, p);
    FlushAcceptBumpWrap(lo, s, i, p);
    InsertWrap(s.q, i, p);
    if i > 0 {
      EndWrap(s.q[i - 1]);
      DiffInWindow(lo, p.sn, s.q[i - 1].sn + s.q[i - 1].len);
    }
  }

  lemma InsertWrap(q: seq<Packet>, i: nat, p: Packet)
    requires i <= |q|
    ensures WrapAll(InsertAt(q, i, p)) == InsertAt(WrapAll(q), i, WrapPacket(p))
  {
  }

  /** A history whose every event meets the window condition in the state it finds. */
  ghost predicate LiveWindow(s: State, es: seq<Event>)
    decreases |es|
  {
    es == [] ||
    ((exists lo :: EventWindow(lo, s, es[0])) && LiveWindow(Step(Exact, s, es[0]), es[1..]))
  }

  function WrapEvents(es: seq<Event>): (r: seq<Event>)
    ensures |r| == |es|
    ensures forall i :: 0 <= i < |es| ==> r[i] == WrapEvent(es[i])
  {
    seq(|es|, i requires 0 <= i < |es| => WrapEvent(es[i]))
  }

  /** Refinement over whole histories, however often the 32-bit numbers wrap. */
  lemma {:induction false} RunWrap(s: State, es: seq<Event>)
    requires Inv(s) && LiveWindow(s, es)
    ensures Run(Mod32, WrapState(s), WrapEvents(es)) == WrapState(Run(Exact, s, es))
    ensures Inv(Run(Exact, s, es))
    decreases |es|
  {
    if es == [] {
    } else {
      var lo :| EventWindow(lo, s, es[0]);
      StepWrap(lo, s, es[0]);
      StepInv(s, es[0]);
      assert WrapEvents(es)[1..] == WrapEvents(es[1..]);
      RunWrap(Step(Exact, s, es[0]), es[1..]);
    }
  }
}
