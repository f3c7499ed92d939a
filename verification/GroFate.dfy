/**
  What becomes of a packet that arrives at a flow with held packets, on stream positions: whether
  it is held by itself, joins the packets it touches, or is passed up, and which packets leave.
  All of it is decided by the ranges, by what skb_gro_merge says of touching ones, and by the
  run of held packets that starts at seq_next.
 */
module GroFate {
  import opened Serial
  import opened SkbData
  import opened SkbGro
  import opened GroQueue
  import opened GroOrder
  import opened GroTimeout

  /** The packet belongs in front of index `i`. */
  ghost predicate Placed(q: seq<Pkt>, p: Pkt, i: nat) {
    && i <= |q| && (forall j :: 0 <= j < i ==> q[j].sn + q[j].len <= p.sn)
    && (i < |q| ==> p.sn < q[i].sn + q[i].len)
  }

  ghost predicate TouchesLeft(q: seq<Pkt>, p: Pkt, i: nat)
    requires i <= |q|
  {
    i > 0 && q[i - 1].sn + q[i - 1].len == p.sn
  }

  ghost predicate TouchesRight(q: seq<Pkt>, p: Pkt, i: nat) {
    i < |q| && p.sn + p.len == q[i].sn
  }

  ghost predicate Overlaps(q: seq<Pkt>, p: Pkt, i: nat) {
    i < |q| && p.sn + p.len > q[i].sn
  }

  ghost predicate RunFrom(s: Queue, m: nat, i: nat)
    requires m <= i < |s.q|
  {
    s.q[m].sn == s.next && forall j :: m <= j < i ==> s.q[j].sn + s.q[j].len == s.q[j + 1].sn
  }

  /** The held packets fill the stream from seq_next to the end of packet `i`. */
  ghost predicate InRun(s: Queue, i: nat)
    requires i < |s.q|
  {
    exists m :: 0 <= m <= i && RunFrom(s, m, i)
  }

  /** The stream is complete from seq_next to the beginning of `p`. */
  ghost predicate Continues(s: Queue, p: Pkt, i: nat)
    requires i <= |s.q|
  {
    p.sn == s.next || (TouchesLeft(s.q, p, i) && InRun(s, i - 1))
  }

  // ---------------------------------------------------------------------------------------
  // The run in sequence, as the loop follows it.

  ghost function Trail(s: Queue, i: nat): int
    requires i <= |s.q|
  {
    if i == 0 then s.next
    else if Trail(s, i - 1) == s.q[i - 1].sn then s.q[i - 1].sn + s.q[i - 1].len
    else Trail(s, i - 1)
  }

  ghost predicate Ranges(q: seq<Pkt>) {
    Disjoint(q) && forall i :: 0 <= i < |q| ==> q[i].len > 0
  }

  lemma {:induction false} TrailEnds(s: Queue, i: nat)
    requires Ranges(s.q) && i <= |s.q|
    ensures Trail(s, i) == s.next || exists e :: 0 <= e < i && InRun(s, e) && Trail(s, i) == s.q[e].sn + s.q[e].len
    ensures i < |s.q| ==> (Trail(s, i) == s.q[i].sn <==> InRun(s, i))
  {
    if i == 0 {
      if |s.q| > 0 && s.next == s.q[0].sn { assert RunFrom(s, 0, 0); }
    } else {
      TrailEnds(s, i - 1);
      if Trail(s, i - 1) == s.q[i - 1].sn {
        RunGrows(s, i);
      } else {
        RunStarts(s, i);
        if Trail(s, i) != s.next {
          var e :| 0 <= e < i - 1 && InRun(s, e) && Trail(s, i) == s.q[e].sn + s.q[e].len;
        }
      }
    }
  }

  lemma RunGrows(s: Queue, i: nat)
    requires Ranges(s.q) && 0 < i <= |s.q| && InRun(s, i - 1)
    ensures i < |s.q| ==> (InRun(s, i) <==> s.q[i - 1].sn + s.q[i - 1].len == s.q[i].sn)
  {
    var m :| 0 <= m <= i - 1 && RunFrom(s, m, i - 1);
    if i < |s.q| {
      assert s.q[m].sn + s.q[m].len <= s.q[i].sn;
      if s.q[i - 1].sn + s.q[i - 1].len == s.q[i].sn {
        assert RunFrom(s, m, i);
      }
      if InRun(s, i) {
        var m' :| 0 <= m' <= i && RunFrom(s, m', i);
      }
    }
  }

  lemma RunStarts(s: Queue, i: nat)
    requires Ranges(s.q) && 0 < i <= |s.q| && !InRun(s, i - 1)
    ensures i < |s.q| ==> (InRun(s, i) <==> s.next == s.q[i].sn)
  {
    if i < |s.q| {
      if s.next == s.q[i].sn { assert RunFrom(s, i, i); }
      if InRun(s, i) {
        var m :| 0 <= m <= i && RunFrom(s, m, i);
        if m < i { RunShorter(s, m, i); }
      }
    }
  }

  lemma RunShorter(s: Queue, m: nat, i: nat)
    requires m < i < |s.q| && RunFrom(s, m, i)
    ensures InRun(s, i - 1)
  {
    assert RunFrom(s, m, i - 1);
  }

  lemma TrailContinues(s: Queue, p: Pkt, i: nat)
    requires Ranges(s.q) && Placed(s.q, p, i) && s.next <= p.sn
    ensures Trail(s, i) == p.sn <==> Continues(s, p, i)
  {
    hide Trail, Ranges, InRun;
    TrailEnds(s, i);
    if i > 0 { TrailOfRun(s, i); }
    if Trail(s, i) != s.next {
      var e :| 0 <= e < i && InRun(s, e) && Trail(s, i) == s.q[e].sn + s.q[e].len;
      RunBehind(s, p, e, i);
    }
  }

  lemma TrailOfRun(s: Queue, i: nat)
    requires Ranges(s.q) && 0 < i <= |s.q|
    ensures InRun(s, i - 1) ==> Trail(s, i) == s.q[i - 1].sn + s.q[i - 1].len
  {
    hide Ranges, InRun;
    TrailEnds(s, i - 1);
  }

  /** A run is beyond seq_next, and only the last packet in front of `p` touches it. */
  lemma RunBehind(s: Queue, p: Pkt, e: nat, i: nat)
    requires Ranges(s.q) && Placed(s.q, p, i) && e < i && InRun(s, e)
    ensures s.next < p.sn && (s.q[e].sn + s.q[e].len == p.sn <==> e == i - 1 && TouchesLeft(s.q, p, i))
  {
    var m :| 0 <= m <= e && RunFrom(s, m, e);
    assert m < e ==> s.q[m].sn + s.q[m].len <= s.q[e].sn;
    assert e < i - 1 ==> s.q[e].sn + s.q[e].len <= s.q[i - 1].sn;
  }

  /** The loop passes over packets that end in front of `p`. */
  lemma {:induction false} WalkSkips(s: Queue, p: Pkt, i: nat, short: bool)
    requires Ranges(s.q) && p.len > 0 && i < |s.q| && forall j :: 0 <= j < i ==> s.q[j].sn + s.q[j].len < p.sn
    ensures Walk(Exact, s, p, 0, s.next, short) == Walk(Exact, s, p, i, Trail(s, i), short)
  {
    hide Join, Bridge, JoinLeft, FlushThrough, Refuse, InsertAt, Disjoint, Ranges;
    if i == 0 {
    } else {
      HeadOfRanges(s.q, p, i);
      WalkSkips(s, p, i - 1, short);
    }
  }

  lemma HeadOfRanges(q: seq<Pkt>, p: Pkt, i: nat)
    requires Ranges(q) && 0 < i < |q| && q[i - 1].sn + q[i - 1].len < p.sn
    ensures q[i - 1].sn < p.sn
  {
  }

  /** The loop at the packet in front of which `p` belongs, or which it reaches into. */
  lemma WalkAt(s: Queue, p: Pkt, i: nat, inSeq: int, short: bool)
    requires i < |s.q| && p.len > 0 && p.sn < s.q[i].sn + s.q[i].len
    ensures Walk(Exact, s, p, i, inSeq, short)
         == if p.sn + p.len < s.q[i].sn then Outcome(s.(q := InsertAt(s.q, i, p)), true, short)
            else if p.sn + p.len > s.q[i].sn then Outcome(s, false, true)
            else match Join(p.buf, s.q[i].buf)
              case Merged(b) => Outcome(s.(q := s.q[i := Pkt(p.sn, p.len + s.q[i].len, b, s.q[i].ts)]), true, short)
              case TooBig => if inSeq != p.sn then Outcome(s.(q := InsertAt(s.q, i, p)), true, short) else Refuse(Exact, s, i)
              case Invalid => Refuse(Exact, s, i)
  {
    hide Join, Bridge, FlushThrough, InsertAt;
  }

  /** What the loop does, without a loop. */
  ghost function Verdict(s: Queue, p: Pkt, i: nat, short: bool): Outcome
    requires s.q != [] && i <= |s.q|
  {
    if TouchesLeft(s.q, p, i) then
      match Join(s.q[i - 1].buf, p.buf)
      case Merged(b) =>
        Bridge(Exact, s, Pkt(s.q[i - 1].sn, s.q[i - 1].len + p.len, b, s.q[i - 1].ts), i - 1, p.sn + p.len, InRun(s, i - 1), short)
      case Invalid => Refuse(Exact, s, i - 1)
      case TooBig =>
        if i == |s.q| then
          Outcome(if InRun(s, i - 1) then FlushThrough(Exact, s.(q := s.q + [p]), i - 1) else s.(q := s.q + [p]), true, short)
        else if InRun(s, i - 1) then OnTheRight(FlushThrough(Exact, s, i - 1), p, 0, true, short)
        else OnTheRight(s, p, i, Continues(s, p, i), short)
    else if i == |s.q| then Outcome(s.(q := s.q + [p]), true, short)
    else OnTheRight(s, p, i, Continues(s, p, i), short)
  }

  ghost function OnTheRight(s: Queue, p: Pkt, i: nat, continues: bool, short: bool): Outcome
    requires i < |s.q|
  {
    if p.sn + p.len < s.q[i].sn then Outcome(s.(q := InsertAt(s.q, i, p)), true, short)
    else if p.sn + p.len > s.q[i].sn then Outcome(s, false, true)
    else match Join(p.buf, s.q[i].buf)
      case Merged(b) => Outcome(s.(q := s.q[i := Pkt(p.sn, p.len + s.q[i].len, b, s.q[i].ts)]), true, short)
      case TooBig => if !continues then Outcome(s.(q := InsertAt(s.q, i, p)), true, short) else Refuse(Exact, s, i)
      case Invalid => Refuse(Exact, s, i)
  }

  lemma WalkIsVerdict(s: Queue, p: Pkt, i: nat, short: bool)
    requires Ranges(s.q) && p.len > 0 && s.q != [] && Placed(s.q, p, i) && s.next <= p.sn
    ensures Walk(Exact, s, p, 0, s.next, short) == Verdict(s, p, i, short)
  {
    hide Walk, Join, Bridge, FlushThrough, Refuse, InsertAt, InRun, Disjoint;
    TrailContinues(s, p, i);
    if TouchesLeft(s.q, p, i) {
      LeftReached(s, p, i);
      WalkSkips(s, p, i - 1, short);
      TrailEnds(s, i - 1);
      WalkTouching(s, p, i, short);
    } else if i == |s.q| {
      NotTouched(s, p, i);
      WalkSkips(s, p, i - 1, short);
      WalkBehind(s, p, Trail(s, i - 1), short);
    } else {
      NotTouched(s, p, i);
      WalkSkips(s, p, i, short);
      WalkAt(s, p, i, Trail(s, i), short);
    }
  }

  lemma LeftReached(s: Queue, p: Pkt, i: nat)
    requires Ranges(s.q) && Placed(s.q, p, i) && TouchesLeft(s.q, p, i)
    ensures forall j :: 0 <= j < i - 1 ==> s.q[j].sn + s.q[j].len < p.sn
  {
    assert forall j :: 0 <= j < i - 1 ==> s.q[j].sn + s.q[j].len <= s.q[i - 1].sn;
  }

  lemma NotTouched(s: Queue, p: Pkt, i: nat)
    requires Ranges(s.q) && Placed(s.q, p, i) && !TouchesLeft(s.q, p, i)
    ensures forall j :: 0 <= j < i ==> s.q[j].sn + s.q[j].len < p.sn
  {
    if i > 0 {
      assert forall j :: 0 <= j < i - 1 ==> s.q[j].sn + s.q[j].len <= s.q[i - 1].sn;
    }
  }

  lemma WalkBehind(s: Queue, p: Pkt, inSeq: int, short: bool)
    requires s.q != [] && p.len > 0 && s.q[|s.q| - 1].sn + s.q[|s.q| - 1].len < p.sn && s.q[|s.q| - 1].len > 0
    ensures Walk(Exact, s, p, |s.q| - 1, inSeq, short) == Outcome(s.(q := s.q + [p]), true, short)
  {
    hide Join, Bridge, FlushThrough, InsertAt, JoinLeft;
  }

  lemma WalkTouching(s: Queue, p: Pkt, i: nat, short: bool)
    requires Ranges(s.q) && p.len > 0 && Placed(s.q, p, i) && s.next <= p.sn && TouchesLeft(s.q, p, i)
    ensures Walk(Exact, s, p, i - 1, Trail(s, i - 1), short) == Verdict(s, p, i, short)
  {
    hide Walk, Bridge, FlushThrough, Refuse, InsertAt, InRun, Disjoint, Join;
    TrailContinues(s, p, i);
    TrailEnds(s, i - 1);
    WalkTouchingOnce(s, p, i - 1, Trail(s, i - 1), short);
    if Join(s.q[i - 1].buf, p.buf).TooBig? && i < |s.q| {
      if InRun(s, i - 1) {
        FlushedFirst(s, i);
        WalkAt(FlushThrough(Exact, s, i - 1), p, 0, p.sn, short);
      } else {
        WalkAt(s, p, i, Trail(s, i), short);
      }
    }
  }

  lemma FlushedFirst(s: Queue, i: nat)
    requires 0 < i < |s.q|
    ensures var t := FlushThrough(Exact, s, i - 1); t.q != [] && t.q[0] == s.q[i]
  {
  }

  lemma WalkTouchingOnce(s: Queue, p: Pkt, j: nat, inSeq: int, short: bool)
    requires j < |s.q| && p.len > 0 && s.q[j].len > 0 && p.sn == s.q[j].sn + s.q[j].len
    ensures var x := s.q[j];
      Walk(Exact, s, p, j, inSeq, short) == match Join(x.buf, p.buf)
        case Merged(b) => Bridge(Exact, s, Pkt(x.sn, x.len + p.len, b, x.ts), j, p.sn + p.len, inSeq == x.sn, short)
        case Invalid => Refuse(Exact, s, j)
        case TooBig =>
          if j + 1 == |s.q| then
            Outcome(if inSeq == x.sn then FlushThrough(Exact, s.(q := s.q + [p]), j) else s.(q := s.q + [p]), true, short)
          else if inSeq == x.sn then Walk(Exact, FlushThrough(Exact, s, j), p, 0, p.sn, short)
          else Walk(Exact, s, p, j + 1, inSeq, short)
  {
    hide Join, Bridge, FlushThrough, InsertAt, JoinLeft, Refuse;
  }

  // ---------------------------------------------------------------------------------------
  // One arrival.

  /** The packet gets as far as the queue. */
  ghost predicate Admitted(f: Flow, p: Pkt, differs: bool) {
    && f.s.q != [] && !differs && p.buf.off == f.s.q[0].buf.off
    && 0 < p.len <= f.mss && f.s.next <= p.sn
  }

  /** Everything is completed. */
  ghost function Emptied(s: Queue): Queue {
    Queue(Reached(s.next, s.q), [], s.done + s.q)
  }

  /** A packet shorter than a segment completes the queue it has joined. */
  ghost function Taken(f: Flow, p: Pkt, t: Queue): Flow {
    f.(s := if p.len == f.mss then t else Emptied(t))
  }

  ghost function PassedUp(f: Flow, p: Pkt, t: Queue): Flow {
    f.(s := t.(next := if t.next < p.sn + p.len then p.sn + p.len else t.next), normal := f.normal + [p])
  }

  /** The packets before index `k` leave, the last of them setting seq_next. */
  ghost function Left(s: Queue, k: nat): Queue
    requires 0 < k <= |s.q|
  {
    Queue(s.q[k - 1].sn + s.q[k - 1].len, s.q[k..], s.done + s.q[..k])
  }

  lemma EmptiedIs(s: Queue)
    ensures CompleteAll(Exact, s) == Emptied(s)
  {
    var k := CompletesLeast(s, 0, 0);
    CompleteAllEmpties(Exact, s, 0);
    assert s.q[..|s.q|] == s.q;
  }

  /** Two packets that touch are joined if and only if the payload of the second can be referred to
      as page fragments and the result is within the limits of a packet; beyond the limits they
      are too big. */
  lemma JoinedIff(x: Pkt, y: Pkt, off: nat)
    requires Good(x, off) && Good(y, off)
    ensures var pages := |y.buf.lin| <= off || y.buf.head.InPage?;
      var fits := |x.buf.frags| + |y.buf.frags| + (if |y.buf.lin| <= off then 0 else 1) <= MAX_SKB_FRAGS;
      var short := off + x.len + y.len < 65536;
      && (Join(x.buf, y.buf).Merged? <==> pages && fits && short)
      && (Join(x.buf, y.buf).TooBig? <==> !short || (pages && !fits))
  {
    MergedIff(x.buf, y.buf);
    hide Merge;
  }

  /** There is exactly one place for a packet. */
  lemma {:induction false} PlaceExists(q: seq<Pkt>, p: Pkt) returns (i: nat)
    requires Ranges(q)
    ensures Placed(q, p, i)
    decreases |q|
  {
    if q == [] || p.sn < q[0].sn + q[0].len {
      i := 0;
    } else {
      var j := PlaceExists(q[1..], p);
      i := j + 1;
      forall k | 0 <= k < i
        ensures q[k].sn + q[k].len <= p.sn
      {
        if k > 0 { assert q[k] == q[1..][k - 1]; }
      }
    }
  }

  lemma PlaceUnique(q: seq<Pkt>, p: Pkt, i: nat, j: nat)
    requires Placed(q, p, i) && Placed(q, p, j)
    ensures i == j
  {
  }

  lemma HeldRanges(f: Flow)
    requires FlowInv(f)
    ensures Ranges(f.s.q)
  {
  }

  lemma StepIs(f: Flow, p: Pkt, i: nat)
    requires FlowInv(f) && Admitted(f, p, false) && Placed(f.s.q, p, i)
    ensures var o := Verdict(f.s, p, i, p.len < f.mss);
      var t := if o.flush then Emptied(o.s) else o.s;
      Step(Exact, f, Arrive(p, false)) == if o.held then f.(s := t) else PassedUp(f, p, t)
  {
    hide Verdict, Walk, Emptied, CompleteAll, FlowInv, Ranges;
    HeldRanges(f);
    WalkIsVerdict(f.s, p, i, p.len < f.mss);
    EmptiedIs(Walk(Exact, f.s, p, 0, f.s.next, p.len < f.mss).s);
  }

  /** A packet that does not get as far as the queue is passed up; unless it only comes too late,
      the queue is completed first. */
  lemma PassesBy(f: Flow, p: Pkt, differs: bool)
    requires f.s.q != [] && !Admitted(f, p, differs)
    ensures var late := !differs && p.buf.off == f.s.q[0].buf.off && 0 < p.len <= f.mss;
      Step(Exact, f, Arrive(p, differs)) == PassedUp(f, p, if late then f.s else Emptied(f.s))
  {
    EmptiedIs(f.s);
    hide CompleteAll, Emptied, Walk;
  }

  /** The first packet of a queue is held and sets the segment size, unless the network layer marks
      it, it has no payload, or it starts before seq_next. */
  lemma FirstPacket(f: Flow, p: Pkt, differs: bool)
    requires f.s.q == []
    ensures Step(Exact, f, Arrive(p, differs)) ==
      if !differs && p.len > 0 && f.s.next <= p.sn then Flow(Queue(f.s.next, [p], f.s.done), p.len, f.normal)
      else PassedUp(f, p, f.s)
  {
  }

  /** A packet that neither touches nor overlaps a held one is held at its place. */
  lemma GapIsHeld(f: Flow, p: Pkt, i: nat)
    requires FlowInv(f) && Admitted(f, p, false) && Placed(f.s.q, p, i)
    requires !TouchesLeft(f.s.q, p, i) && !TouchesRight(f.s.q, p, i) && !Overlaps(f.s.q, p, i)
    ensures Step(Exact, f, Arrive(p, false)) == Taken(f, p, f.s.(q := f.s.q[..i] + [p] + f.s.q[i..]))
  {
    hide Emptied, FlowInv, Bridge, Join;
    StepIs(f, p, i);
    if i == |f.s.q| { assert f.s.q + [p] == f.s.q[..i] + [p] + f.s.q[i..]; }
  }

  /** A packet that follows a held one and may be merged with it joins it.  Then it is the turn
      of the next one: if that is reached into, everything leaves; if it is touched, it is merged
      as well, or, too big for that, lets what is in sequence leave, or, of the wrong shape,
      leaves with all in front of it. */
  lemma JoinsLeft(f: Flow, p: Pkt, i: nat, b: GroBuf)
    requires FlowInv(f) && Admitted(f, p, false) && Placed(f.s.q, p, i)
    requires TouchesLeft(f.s.q, p, i) && Join(f.s.q[i - 1].buf, p.buf) == Merged(b)
    ensures var x := f.s.q[i - 1];
      var y := Pkt(x.sn, x.len + p.len, b, x.ts);
      var t := f.s.(q := f.s.q[i - 1 := y]);
      Step(Exact, f, Arrive(p, false)) ==
        if Overlaps(f.s.q, p, i) then f.(s := Emptied(t))
        else if !TouchesRight(f.s.q, p, i) then Taken(f, p, t)
        else
          var z := f.s.q[i];
          match Join(b, z.buf)
          case Merged(c) =>
            var w := Pkt(x.sn, x.len + p.len + z.len, c, if x.ts < z.ts then x.ts else z.ts);
            Taken(f, p, f.s.(q := f.s.q[..i - 1] + [w] + f.s.q[i + 1..]))
          case TooBig => f.(s := if InRun(f.s, i - 1) then Left(t, i) else t)
          case Invalid => f.(s := if i + 1 < |f.s.q| then Left(t, i + 1) else Emptied(t))
  {
    hide Emptied, FlowInv, InRun, Join, Reached;
    StepIs(f, p, i);
  }

  /** A packet that is followed by a held one, and not merged with the one before it, joins that
      one; if it touches the one before, too, what is in sequence leaves first. */
  lemma JoinsRight(f: Flow, p: Pkt, i: nat, b: GroBuf)
    requires FlowInv(f) && Admitted(f, p, false) && Placed(f.s.q, p, i)
    requires TouchesLeft(f.s.q, p, i) ==> Join(f.s.q[i - 1].buf, p.buf).TooBig?
    requires TouchesRight(f.s.q, p, i) && Join(p.buf, f.s.q[i].buf) == Merged(b)
    ensures var t := f.s.(q := f.s.q[i := Pkt(p.sn, p.len + f.s.q[i].len, b, f.s.q[i].ts)]);
      Step(Exact, f, Arrive(p, false)) == Taken(f, p, if TouchesLeft(f.s.q, p, i) && InRun(f.s, i - 1) then Left(t, i) else t)
  {
    hide Emptied, FlowInv, InRun, Join, Bridge, Reached;
    StepIs(f, p, i);
    if i > 0 {
      var w := Pkt(p.sn, p.len + f.s.q[i].len, b, f.s.q[i].ts);
      assert f.s.q[i..][0 := w] == f.s.q[i := w][i..] && f.s.q[i := w][..i] == f.s.q[..i];
    }
  }

  /** A packet that touches others but is too big to be merged with any is held by itself, if it
      does not continue the stream in front of one it touches; what is in sequence up to it leaves. */
  lemma StaysApart(f: Flow, p: Pkt, i: nat)
    requires FlowInv(f) && Admitted(f, p, false) && Placed(f.s.q, p, i) && !Overlaps(f.s.q, p, i)
    requires TouchesLeft(f.s.q, p, i) ==> Join(f.s.q[i - 1].buf, p.buf).TooBig?
    requires TouchesRight(f.s.q, p, i) ==> Join(p.buf, f.s.q[i].buf).TooBig? && !Continues(f.s, p, i)
    ensures var t := f.s.(q := f.s.q[..i] + [p] + f.s.q[i..]);
      Step(Exact, f, Arrive(p, false)) == Taken(f, p, if TouchesLeft(f.s.q, p, i) && InRun(f.s, i - 1) then Left(t, i) else t)
  {
    hide Emptied, FlowInv, InRun, Join, Bridge, Reached;
    StepIs(f, p, i);
    var q := f.s.q;
    var t := q[..i] + [p] + q[i..];
    if i == |q| { assert q + [p] == t; }
    assert t[..i] == q[..i] && t[i..] == [p] + q[i..];
    if 0 < i < |q| { assert q[i..][..0] + [p] + q[i..][0..] == [p] + q[i..]; }
  }

  /** The arrival is passed up: the packet it follows is of the wrong shape, or, not merged with
      one in front of it, it reaches into the next one, or touches it without being mergeable
      and continues the stream or is of the wrong shape. */
  ghost predicate Refused(s: Queue, p: Pkt, i: nat)
    requires i <= |s.q|
  {
    || (TouchesLeft(s.q, p, i) && Join(s.q[i - 1].buf, p.buf).Invalid?)
    || ((TouchesLeft(s.q, p, i) ==> Join(s.q[i - 1].buf, p.buf).TooBig?)
        && (|| Overlaps(s.q, p, i)
            || (TouchesRight(s.q, p, i)
                && (Join(p.buf, s.q[i].buf).Invalid? || (Join(p.buf, s.q[i].buf).TooBig? && Continues(s, p, i))))))
  }

  lemma RefusedIff(f: Flow, p: Pkt, i: nat)
    requires FlowInv(f) && Admitted(f, p, false) && Placed(f.s.q, p, i)
    ensures Step(Exact, f, Arrive(p, false)).normal == if Refused(f.s, p, i) then f.normal + [p] else f.normal
  {
    hide Emptied, FlowInv, InRun, Join, Reached;
    StepIs(f, p, i);
  }

  /** What leaves with a refusal: everything up to the packet of the wrong shape or size, or
      everything if that is the last one or one is overlapped. */
  lemma RefusalCompletes(f: Flow, p: Pkt, i: nat)
    requires FlowInv(f) && Admitted(f, p, false) && Placed(f.s.q, p, i) && Refused(f.s, p, i)
    ensures var k := if TouchesLeft(f.s.q, p, i) && Join(f.s.q[i - 1].buf, p.buf).Invalid? then i
                     else if Overlaps(f.s.q, p, i) then |f.s.q| else i + 1;
      && 0 < k <= |f.s.q|
      && Step(Exact, f, Arrive(p, false)) == PassedUp(f, p, if k < |f.s.q| then Left(f.s, k) else Emptied(f.s))
  {
    hide Emptied, FlowInv, InRun, Join, Reached;
    StepIs(f, p, i);
    if TouchesLeft(f.s.q, p, i) && InRun(f.s, i - 1) && i < |f.s.q| {
      FlushedEmptied(f, p, i);
      assert f.s.q[i..][0] == f.s.q[i] && f.s.q[i..][1..] == f.s.q[i + 1..] && f.s.q[..i] + f.s.q[i..][..1] == f.s.q[..i + 1];
    }
  }

  lemma FlushedEmptied(f: Flow, p: Pkt, i: nat)
    requires FlowInv(f) && Admitted(f, p, false) && Placed(f.s.q, p, i) && TouchesLeft(f.s.q, p, i)
    ensures Emptied(FlushThrough(Exact, f.s, i - 1)) == Emptied(f.s)
  {
    var q := f.s.q;
    assert q == q[..i] + q[i..];
    ReachedConcat(f.s.next, q[..i], q[i..]);
    ReachedIsMax(f.s.next, q[..i]);
    assert q[..i][i - 1] == q[i - 1];
    assert f.s.done + q[..i] + q[i..] == f.s.done + q;
  }
}
