/**
  When the transmit path moves: a packet is taken whenever it fits, a queue is stopped only when
  the next packet might not, one pass of the handler takes back what is complete and wakes the
  queues when there is room, and no queue sleeps while nothing is under way.
 */
module Nf10Wake {
  import opened Nf10Ring
  import opened Nf10

  /** A packet is accepted if and only if fewer than 32 are under way and its lines fit into
      those that these leave; it takes the next slot and the next lines. */
  lemma ReservedIff(r: Ring, skb: nat, lines: nat)
    requires Inv(r)
    ensures Nf10Ring.Step(r, Reserve(skb, lines)).jobs
         == if |r.jobs| < 32 && Total(r.jobs) + lines <= 512 then r.jobs + [Job(skb, r.wrDsc / 64, r.wrPkt / 64, lines, Reserved)]
            else r.jobs
  {
    hide Total, SlotsOk, StartsOk, BooksOk, DoneOk;
  }

  /** The stations of a packet: its books are written, it is posted, and the card completes it when
      it has completed all before it, setting the mark of its slot. */
  lemma Stations(r: Ring, k: nat)
    requires Inv(r) && k < |r.jobs|
    ensures var j := r.jobs[k];
      && j.slot < 32 && |r.bk| == |r.dne| == 32
      && var booked := r.(bk := r.bk[j.slot := Book(j.skb, j.lines)], jobs := r.jobs[k := j.(phase := Booked)]);
         var posted := r.(jobs := r.jobs[k := j.(phase := Posted)]);
         var completed := r.(dne := r.dne[j.slot := true], jobs := r.jobs[k := j.(phase := Completed)]);
      && (j.phase.Reserved? ==> Nf10Ring.Step(r, Bookkeep(k)) == booked)
      && (j.phase.Booked? ==> Nf10Ring.Step(r, Post(k)) == posted)
      && (j.phase.Posted? && (forall i :: 0 <= i < k ==> r.jobs[i].phase in {Completed, Lost, Taken, Released}) ==>
            Nf10Ring.Step(r, Complete) == completed)
  {
    hide SlotsOk, StartsOk, BooksOk, DoneOk, CountsOk, HeldOk;
    Facts(r);
    if r.jobs[k].phase.Posted? && forall i :: 0 <= i < k ==> r.jobs[i].phase in {Completed, Lost, Taken, Released} {
      NextForCardUnique(r, k);
    }
  }

  /** A packet sent without interruption: it is added if it fits, and then the queue is stopped
      if and only if another packet of any size might not. */
  lemma SendStopsIff(t: Tx, port: nat, skb: nat, len: nat)
    requires Inv(t.ring) && t.send.NoSend? && port < |t.stopped|
    ensures var u, n := TxRun(t, SendEvents(port, skb, len)), CacheLines(len);
      && u.send.NoSend? && u.wake == t.wake
      && if |t.ring.jobs| < 32 && Total(t.ring.jobs) + n <= 512
         then u.ring.jobs == t.ring.jobs + [Job(skb, t.ring.wrDsc / 64, t.ring.wrPkt / 64, n, Reserved)]
              && u.stopped == if |t.ring.jobs| < 31 && Total(t.ring.jobs) + n + 32 <= 512 then t.stopped else t.stopped[port := true]
         else u == t
  {
    hide Inv, Total, TxRun, SendEvents;
    SendRun(t, port, skb, len);
    Counters(t.ring);
  }

  lemma Counters(r: Ring)
    requires Inv(r)
    ensures r.cntDsc == |r.jobs| <= 32 && r.cntPkt == Total(r.jobs) <= 512
  {
    hide Total, SlotsOk, StartsOk, BooksOk, DoneOk;
  }

  /** The tests of the handler see the counters in memory, in which the packet of a sender in progress
      may not be counted yet, first not at all and then without its lines. */
  lemma TestsSee(t: Tx)
    requires Awake(t) && (t.wake.TestSlots? || t.wake.TestLines?)
    ensures var jobs, n := t.ring.jobs, |t.ring.jobs|;
      if t.wake.TestSlots? then
        TxStep(t, CheckSlots) == t.(late := false, wake := if |if t.send.Fitted? then jobs[..n - 1] else jobs| <= 24 then TestLines else NoWake)
      else
        TxStep(t, CheckLines)
        == t.(wake := if Total(if t.send.Fitted? || t.send.SlotCounted? then jobs[..n - 1] else jobs) <= 384 then Waking(0) else NoWake)
  {
    hide Inv, Total;
    Counters(t.ring);
    if t.ring.jobs != [] {
      TotalLast(t.ring.jobs);
    }
  }

  lemma TotalLast(jobs: seq<Job>)
    requires jobs != []
    ensures Total(jobs) == Total(jobs[..|jobs| - 1]) + jobs[|jobs| - 1].lines
  {
    var a, z := jobs[..|jobs| - 1], jobs[|jobs| - 1];
    assert jobs == a + [z] && [z][1..] == [];
    TotalConcat(a, [z]);
    assert Total([z]) == z.lines + Total([]);
  }

  /** One pass of the handler with nothing in between: it takes back the oldest packet if and only
      if that is complete, and then wakes all queues if and only if eight slots and the lines of
      four packets are free. */
  lemma PassIs(t: Tx)
    requires Inv(t.ring) && t.ring.pc.Idle? && t.wake.NoWake? && t.send.NoSend? && |t.stopped| == PORTS
    ensures var u, jobs := TxRun(t, PassEvents([], [])), t.ring.jobs;
      && u.ring.pc.Idle? && u.wake.NoWake? && u.send.NoSend?
      && if jobs != [] && jobs[0].phase.Completed?
         then u.ring.jobs == jobs[1..] && u.ring.freed == t.ring.freed + [jobs[0].skb]
              && u.stopped == if |jobs| - 1 <= 24 && Total(jobs[1..]) <= 384 then [false, false, false, false] else t.stopped
         else u == t
  {
    hide Inv, Total, TxRun, TxStep, AllSent, PassEvents, Wakes;
    PassParts(t, [], []);
    Facts(t.ring);
    NoneSent(t);
    var a := TxStep(TxStep(TxStep(t, Inner(Take)), Inner(ReturnLines)), Inner(ReturnSlot));
    var c := TxStep(TxStep(TxStep(a, Inner(ClearMark)), CheckSlots), CheckLines);
    NoneSent(a);
    NoneSent(c);
    TakenIs(t);
    if t.ring.jobs != [] && t.ring.jobs[0].phase.Completed? {
      TestedIs(a, t.ring.jobs[1..]);
      if c.wake.Waking? {
        Woken(c, 0, 4);
      } else {
        WakesNothing(c, 4);
      }
    } else {
      NothingCleared(t);
      WakesNothing(t, 4);
    }
  }

  lemma NoneSent(t: Tx)
    ensures TxRun(t, AllSent([])) == t
  {
  }

  /** The first three steps of the handler. */
  lemma TakenIs(t: Tx)
    requires Inv(t.ring) && t.ring.pc.Idle? && t.wake.NoWake?
    ensures var a, jobs := TxStep(TxStep(TxStep(t, Inner(Take)), Inner(ReturnLines)), Inner(ReturnSlot)), t.ring.jobs;
      && Inv(a.ring) && a == t.(ring := a.ring)
      && if jobs != [] && jobs[0].phase.Completed?
         then a.ring.jobs == jobs[1..] && a.ring.freed == t.ring.freed + [jobs[0].skb] && a.ring.pc.SlotBack?
         else a == t
  {
    hide Inv, Total, SlotsOk, StartsOk, DoneOk;
    TakeFinds(t.ring);
    Facts(t.ring);
    TxStepKeeps(t, Inner(Take));
    TxStepKeeps(TxStep(t, Inner(Take)), Inner(ReturnLines));
    TxStepKeeps(TxStep(TxStep(t, Inner(Take)), Inner(ReturnLines)), Inner(ReturnSlot));
  }

  /** The other three. */
  lemma TestedIs(a: Tx, jobs: seq<Job>)
    requires Inv(a.ring) && a.ring.pc.SlotBack? && a.wake.NoWake? && a.send.NoSend? && a.ring.jobs == jobs && |jobs| < 32
    ensures var c := TxStep(TxStep(TxStep(a, Inner(ClearMark)), CheckSlots), CheckLines);
      && c == a.(ring := c.ring, wake := c.wake, late := false)
      && c.ring.jobs == jobs && c.ring.freed == a.ring.freed && c.ring.pc.Idle?
      && c.wake == if |jobs| <= 24 && Total(jobs) <= 384 then Waking(0) else NoWake
  {
    hide Inv, Total;
    Facts(a.ring);
    Counters(a.ring);
  }

  lemma NothingCleared(t: Tx)
    requires t.ring.pc.Idle? && t.wake.NoWake?
    ensures TxStep(TxStep(TxStep(t, Inner(ClearMark)), CheckSlots), CheckLines) == t
  {
  }

  // ---------------------------------------------------------------------------------------
  // No queue sleeps over an empty ring.

  /** The sender writes the books of its packet when it has released the lock. */
  ghost predicate BooksAfterLock(t: Tx, es: seq<TxEvent>)
    decreases |es|
  {
    es == [] || (BooksLater(t, es[0]) && BooksAfterLock(TxStep(t, es[0]), es[1..]))
  }

  predicate BooksLater(t: Tx, e: TxEvent) {
    e.Inner? && e.e.Bookkeep? && !t.send.NoSend? ==> e.e.k + 1 != |t.ring.jobs|
  }

  ghost predicate Awake(t: Tx) {
    && Inv(t.ring) && |t.stopped| == PORTS
    && (!t.send.NoSend? ==> t.ring.jobs != [] && t.ring.jobs[|t.ring.jobs| - 1].phase.Reserved?)
    && (t.send.Fitted? || t.send.SlotCounted? ==> t.ring.jobs[|t.ring.jobs| - 1].lines == t.send.lines)
    && (!t.wake.NoWake? ==> t.ring.pc.Idle?)
    && forall p :: 0 <= p < PORTS && t.stopped[p] ==>
         t.ring.jobs != [] || !t.ring.pc.Idle? || t.wake.TestSlots? || Before(t.wake, p)
  }

  lemma StepAwake(t: Tx, e: TxEvent)
    requires Awake(t) && BooksLater(t, e)
    ensures Awake(TxStep(t, e))
  {
    hide Inv, Nf10Ring.Step, Reserving, Total;
    TxStepKeeps(t, e);
    match e
    case Begin(port, skb, len) => ReservingAdds(t.ring, skb, CacheLines(len));
    case Inner(e) => InnerAwake(t, e);
    case CheckSlots => Counters(t.ring);
    case CheckLines => Counters(t.ring); TotalOfNone();
    case _ =>
  }

  lemma TotalOfNone()
    ensures Total([]) == 0
  {
  }

  lemma ReservingAdds(r: Ring, skb: nat, lines: nat)
    ensures Reserving(r, skb, lines).pc == r.pc
    ensures if Nf10Ring.Fits(r, lines) then Reserving(r, skb, lines).jobs == r.jobs + [Job(skb, r.wrDsc / 64, r.wrPkt / 64, lines, Reserved)]
            else Reserving(r, skb, lines) == r
  {
  }

  /** The packets under way go only when the handler gives back the slot of the oldest one, which
      is not that of the sender, and then it goes on to test for room. */
  lemma InnerAwake(t: Tx, e: Event)
    requires Awake(t) && BooksLater(t, Inner(e)) && Inv(TxStep(t, Inner(e)).ring)
    ensures Awake(TxStep(t, Inner(e)))
  {
    hide Inv, Total, NextForCard;
    Facts(t.ring);
    if e.Take? && t.ring.pc.Idle? {
      TakeFinds(t.ring);
    }
  }

  lemma {:induction false} RunAwake(t: Tx, es: seq<TxEvent>)
    requires Awake(t) && BooksAfterLock(t, es)
    ensures Awake(TxRun(t, es))
    decreases |es|
  {
    hide Awake, TxStep, BooksLater;
    if es == [] {
    } else {
      StepAwake(t, es[0]);
      RunAwake(TxStep(t, es[0]), es[1..]);
    }
  }

  /** From the start, with any number of ports and in any interleaving of senders, card and handler:
      when the handler rests and a queue is stopped, a packet is under way, whose completion will
      bring the handler back. */
  lemma NeverAsleep(es: seq<TxEvent>, p: nat)
    requires BooksAfterLock(NewTx(), es) && p < PORTS
    ensures var t := TxRun(NewTx(), es);
      && |t.stopped| == PORTS
      && (t.stopped[p] && t.ring.pc.Idle? && t.wake.NoWake? ==> t.ring.jobs != [])
  {
    NewRingInv();
    hide Inv, TxRun;
    assert Awake(NewTx());
    RunAwake(NewTx(), es);
  }
}
