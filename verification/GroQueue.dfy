/**
  The per-flow out-of-order queue of the reordering GRO as functions from state to state:
  tcp_gro_receive with what dev_gro_receive does to the queue afterwards, skb_gro_flush, and
  dev_gro_complete.  `GroList.dfy` proves the pointer code against these functions.
 */
module GroQueue {
  import opened Serial
  import opened SkbData
  import opened SkbGro

  /** A packet in the queue: first sequence number, payload length, contents, arrival time. */
  datatype Pkt = Pkt(sn: int, len: nat, buf: GroBuf, ts: int)

  /** `next` is the queue's seq_next; `done` lists the packets completed from the queue. */
  datatype Queue = Queue(next: int, q: seq<Pkt>, done: seq<Pkt>)

  /** What tcp_gro_receive asks of its caller: `held` when the packet is in the queue, by itself
      or merged (otherwise it is passed up as GRO_NORMAL); `flush` to complete the whole queue. */
  datatype Outcome = Outcome(s: Queue, held: bool, flush: bool)

  /** All that has left the queue, then all that it holds. */
  ghost function Line(s: Queue): seq<Pkt> {
    s.done + s.q
  }

  function End(ar: Arith, p: Pkt): int {
    ar.Norm(p.sn + p.len)
  }

  function After(ar: Arith, a: int, b: int): bool {
    ar.Before(b, a)
  }

  /** skb_gro_flush: the packets up to and including index `i` are completed. */
  function FlushThrough(ar: Arith, s: Queue, i: nat): Queue
    requires i < |s.q|
  {
    Queue(End(ar, s.q[i]), s.q[i + 1..], s.done + s.q[..i + 1])
  }

  /** Completing the head as dev_gro_complete does. */
  function PopHead(ar: Arith, s: Queue): Queue
    requires s.q != []
  {
    Queue(ar.Max(s.next, End(ar, s.q[0])), s.q[1..], s.done + [s.q[0]])
  }

  function PopMany(ar: Arith, s: Queue, k: nat): Queue
    requires k <= |s.q|
    decreases k
  {
    if k == 0 then s else PopMany(ar, PopHead(ar, s), k - 1)
  }

  function PopInSequence(ar: Arith, s: Queue): Queue
    decreases |s.q|
  {
    if s.q != [] && !ar.Before(s.next, s.q[0].sn) then PopInSequence(ar, PopHead(ar, s)) else s
  }

  /** `timestamp - NAPI_GRO_CB(p)->timestamp < timeout` in 64-bit unsigned arithmetic. */
  predicate Young(p: Pkt, now: int, timeout: nat) {
    (now - p.ts) % 0x1_0000_0000_0000_0000 < timeout
  }

  /** The first index from which on all packets are young. */
  function KeepFrom(q: seq<Pkt>, now: int, timeout: nat): (k: nat)
    ensures k <= |q|
    ensures forall i :: k <= i < |q| ==> Young(q[i], now, timeout)
    ensures k > 0 ==> !Young(q[k - 1], now, timeout)
  {
    if q == [] || !Young(q[|q| - 1], now, timeout) then |q| else KeepFrom(q[..|q| - 1], now, timeout)
  }

  /** How many packets leave because of the timeout; a timeout of 0 completes everything. */
  function Expired(q: seq<Pkt>, now: int, timeout: nat): (k: nat)
    ensures k <= |q| && forall i :: k <= i < |q| ==> Young(q[i], now, timeout)
  {
    if timeout == 0 then |q| else KeepFrom(q, now, timeout)
  }

  /** dev_gro_complete. */
  function Complete(ar: Arith, s: Queue, now: int, timeout: nat): Queue {
    PopInSequence(ar, PopMany(ar, s, Expired(s.q, now, timeout)))
  }

  function CompleteAll(ar: Arith, s: Queue): Queue {
    Complete(ar, s, 0, 0)
  }

  function InsertAt(q: seq<Pkt>, i: nat, p: Pkt): seq<Pkt>
    requires i <= |q|
  {
    q[..i] + [p] + q[i..]
  }

  lemma {:induction false} PopManyLength(ar: Arith, s: Queue, k: nat)
    requires k <= |s.q|
    ensures |PopMany(ar, s, k).q| == |s.q| - k
    decreases k
  {
    if k == 0 {
    } else {
      PopManyLength(ar, PopHead(ar, s), k - 1);
    }
  }

  lemma CompleteAllEmpties(ar: Arith, s: Queue, now: int)
    ensures Complete(ar, s, now, 0) == CompleteAll(ar, s) && CompleteAll(ar, s).q == []
  {
    PopManyLength(ar, s, |s.q|);
  }

  function Held(s: Queue): Outcome {
    Outcome(s, true, false)
  }

  /** skb_gro_merge; only packets of the right shape ever reach it (GroOrder.StepInv). */
  function Join(p: GroBuf, q: GroBuf): MergeResult {
    if Shaped(q) then Merge(p, q) else Invalid
  }

  /** `p` ends where `x`, the packet at `i`, begins. */
  function JoinLeft(ar: Arith, s: Queue, p: Pkt, i: nat, inSeq: int): (o: Outcome)
    requires i < |s.q|
    ensures o.s.q != []
  {
    var x := s.q[i];
    match Join(p.buf, x.buf)
    case Merged(b) => Held(s.(q := s.q[i := Pkt(p.sn, p.len + x.len, b, x.ts)]))
    case TooBig =>
      if inSeq != p.sn then Held(s.(q := InsertAt(s.q, i, p))) else Refuse(ar, s, i)
    case Invalid => Refuse(ar, s, i)
  }

  /** The packet at `i` cannot be merged with the arriving one: everything up to it leaves, and
      the arriving packet is not held.  If that is the whole queue, the caller completes it. */
  function Refuse(ar: Arith, s: Queue, i: nat): (o: Outcome)
    requires i < |s.q|
    ensures o.s.q != []
  {
    if i + 1 < |s.q| then Outcome(FlushThrough(ar, s, i), false, false)
    else Outcome(s, false, true)
  }

  /** `p` has been appended to the packet at `i`, giving `y`: see to the packet behind. */
  function Bridge(ar: Arith, s: Queue, y: Pkt, i: nat, pEnd: int, inOrder: bool, short: bool): (o: Outcome)
    requires i < |s.q|
    ensures o.s.q != []
  {
    var t := s.(q := s.q[i := y]);
    if i + 1 == |s.q| then Outcome(t, true, short)
    else
      var z := s.q[i + 1];
      if pEnd == z.sn then
        match Join(y.buf, z.buf)
        case Merged(b) =>
          var w := Pkt(y.sn, y.len + z.len, b, if y.ts < z.ts then y.ts else z.ts);
          Outcome(s.(q := s.q[..i] + [w] + s.q[i + 2..]), true, short)
        case TooBig =>
          Held(if inOrder then FlushThrough(ar, t, i) else t)
        case Invalid =>
          if i + 2 < |s.q| then Held(FlushThrough(ar, t, i + 1)) else Outcome(t, true, true)
      else if After(ar, pEnd, z.sn) then Outcome(t, true, true)
      else Outcome(t, true, short)
  }

  /** The loop of tcp_gro_receive, at index `i`; `inSeq` is where the in-sequence run that
      starts at seq_next has got to, `short` whether the packet is shorter than a segment. */
  function Walk(ar: Arith, s: Queue, p: Pkt, i: nat, inSeq: int, short: bool): (o: Outcome)
    requires i < |s.q|
    ensures o.s.q != []
    decreases |s.q| - i
  {
    var x := s.q[i];
    var xEnd, pEnd := End(ar, x), End(ar, p);
    var inOrder := inSeq == x.sn;
    var inSeq' := if inOrder then xEnd else inSeq;
    if ar.Before(pEnd, x.sn) then
      Outcome(s.(q := InsertAt(s.q, i, p)), true, short)
    else if pEnd == x.sn then
      var o := JoinLeft(ar, s, p, i, inSeq);
      if o.held then o.(flush := short) else o
    else if p.sn == xEnd then
      match Join(x.buf, p.buf)
      case Merged(b) =>
        Bridge(ar, s, Pkt(x.sn, x.len + p.len, b, x.ts), i, pEnd, inOrder, short)
      case TooBig =>
        if i + 1 < |s.q| then
          if inOrder then Walk(ar, FlushThrough(ar, s, i), p, 0, inSeq', short)
          else Walk(ar, s, p, i + 1, inSeq', short)
        else
          var t := s.(q := s.q + [p]);
          Outcome(if inOrder then FlushThrough(ar, t, i) else t, true, short)
      case Invalid => Refuse(ar, s, i)
    else if After(ar, p.sn, xEnd) then
      if i + 1 == |s.q| then Outcome(s.(q := s.q + [p]), true, short)
      else Walk(ar, s, p, i + 1, inSeq', short)
    else
      Outcome(s, false, true)
  }

  // ---------------------------------------------------------------------------------------

  /** One flow: its queue, the segment size fixed by its first packet, and the packets passed
      up without being queued. */
  datatype Flow = Flow(s: Queue, mss: int, normal: seq<Pkt>)

  /** Passing a packet up as GRO_NORMAL moves seq_next to its end. */
  function Bypass(ar: Arith, f: Flow, p: Pkt): Flow {
    f.(s := f.s.(next := ar.Max(f.s.next, End(ar, p))), normal := f.normal + [p])
  }

  /** tcp_gro_receive for a packet of a flow whose queue is not empty.  `differs` is set when
      the headers forbid merging; their lengths are among what is compared. */
  function TcpGroReceive(ar: Arith, f: Flow, p: Pkt, differs: bool): (o: Outcome)
    requires f.s.q != []
    ensures o.s.q != []
  {
    if differs || p.buf.off != f.s.q[0].buf.off || p.len == 0 || p.len > f.mss then Outcome(f.s, false, true)
    else if ar.Before(p.sn, f.s.next) then Outcome(f.s, false, false)
    else Walk(ar, f.s, p, 0, f.s.next, p.len < f.mss)
  }

  /** What dev_gro_receive makes of it. */
  function Receive(ar: Arith, f: Flow, p: Pkt, differs: bool): Flow
    requires f.s.q != []
  {
    var o := TcpGroReceive(ar, f, p, differs);
    var g := f.(s := if o.flush then CompleteAll(ar, o.s) else o.s);
    if o.held then g else Bypass(ar, g, p)
  }

  /** The first packet of a flow that takes an empty queue out of the pool; `differs` is set when
      the network layer forbids merging. */
  function Open(ar: Arith, f: Flow, p: Pkt, differs: bool): Flow
    requires f.s.q == []
  {
    if differs || p.len == 0 || ar.Before(p.sn, f.s.next) then Bypass(ar, f, p)
    else f.(s := f.s.(q := [p]), mss := p.len)
  }

  datatype Event =
    | Arrive(p: Pkt, differs: bool)
    | Timer(now: int, timeout: nat)
    | Evict

  /** The life of a queue between two resets: packets of its flow, timed flushes, evictions
      from the list of flows, and returns from the pool. */
  function Step(ar: Arith, f: Flow, e: Event): Flow {
    match e
    case Arrive(p, differs) => if f.s.q == [] then Open(ar, f, p, differs) else Receive(ar, f, p, differs)
    case Timer(now, timeout) => f.(s := Complete(ar, f.s, now, timeout))
    case Evict => f.(s := CompleteAll(ar, f.s))
  }

  function Run(ar: Arith, f: Flow, es: seq<Event>): Flow
    decreases |es|
  {
    if es == [] then f else Run(ar, Step(ar, f, es[0]), es[1..])
  }

  /** The packets of a history, in arrival order. */
  function Arrivals(es: seq<Event>): seq<Pkt> {
    if es == [] then [] else (if es[0].Arrive? then [es[0].p] else []) + Arrivals(es[1..])
  }
}
