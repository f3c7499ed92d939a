/**
  The driver on top of the rings: sending from four ports with queues that are stopped and
  woken, receive descriptors, and the room a packet needs at any alignment of its data.

  A sender works under tx_lock and the handler under work_lock, so that every access of the one
  to what they share may fall between two of the other.  Each is a step of its own here.
 */
module Nf10 {
  import opened Nf10Ring

  const PORTS: int := 4
  const MAX_FRAME: int := 1514
  const SK_BUFF_ALLOC_SIZE: int := 1533

  /** Lines for a packet to send: enough for any alignment. */
  function CacheLines(len: nat): nat {
    (len + 2 * 63) / 64
  }

  /** Lines for a receive buffer. */
  const RX_LINES: nat := (SK_BUFF_ALLOC_SIZE + 66) / 64

  /** The packet fits behind the offset that its data has within a line. */
  lemma TxRoomAtAnyAlignment(len: nat, dma: nat)
    ensures dma % 64 + len <= 64 * CacheLines(len)
  {
  }

  /** A receive buffer fits behind the two low address bits, with nothing to spare. */
  lemma RxRoomAtAnyAlignment(dma: nat)
    ensures dma % 4 + SK_BUFF_ALLOC_SIZE <= 64 * RX_LINES
    ensures dma % 4 == 3 ==> dma % 4 + SK_BUFF_ALLOC_SIZE == 64 * RX_LINES
  {
  }

  lemma {:induction false} TotalOfEqual(jobs: seq<Job>, lines: nat)
    requires forall i :: 0 <= i < |jobs| ==> jobs[i].lines == lines
    ensures Total(jobs) == |jobs| * lines
  {
    if jobs == [] {
    } else {
      TotalOfEqual(jobs[1..], lines);
    }
  }

  /** The packet buffer, not the descriptor ring, limits the receive descriptors: to 21. */
  lemma RxDescriptors(r: Ring)
    requires Inv(r) && forall i :: 0 <= i < |r.jobs| ==> r.jobs[i].lines == RX_LINES
    ensures |r.jobs| <= 21 && (Nf10Ring.Fits(r, RX_LINES) <==> |r.jobs| < 21)
  {
    hide SlotsOk, StartsOk, BooksOk, DoneOk, Total;
    TotalOfEqual(r.jobs, RX_LINES);
    assert RX_LINES == 24;
  }

  // ---------------------------------------------------------------------------------------

  /** Where the sender that holds the lock is: pointers moved, slot counted, lines counted, or
      no room was found and the queue is to be stopped. */
  datatype Send =
    | NoSend
    | Fitted(port: nat, lines: nat)
    | SlotCounted(port: nat, lines: nat)
    | Counted(port: nat)
    | Full(port: nat)

  /** Where the handler is after it has cleared a mark: about to test slots, then lines, then
      waking the queue of `port`. */
  datatype Wake = NoWake | TestSlots | TestLines | Waking(port: nat)

  /** `ring` counts a packet from the moment it has fitted.  `late` tells whether a sender has
      found no room since the handler last began to test. */
  datatype Tx = Tx(ring: Ring, stopped: seq<bool>, send: Send, wake: Wake, late: bool)

  datatype TxEvent =
    | Begin(port: nat, skb: nat, len: nat)
    | CountSlot
    | CountLines
    | TestRoom
    | StopQueue
    | Inner(e: Event)
    | CheckSlots
    | CheckLines
    | WakeNext

  /** The two counters in memory. */
  function Slots(t: Tx): int {
    t.ring.cntDsc - if t.send.Fitted? then 1 else 0
  }

  function Lines(t: Tx): int {
    t.ring.cntPkt - if t.send.Fitted? || t.send.SlotCounted? then t.send.lines else 0
  }

  /** Room for one more packet of any size. */
  predicate Room(r: Ring) {
    r.cntDsc + 1 <= SLOTS && r.cntPkt + 32 <= LINES
  }

  /** A packet is given to the driver.  It fits if slots and lines are found to suffice, one
      after the other; the handler can only lower the counters in between. */
  function Beginning(t: Tx, port: nat, skb: nat, len: nat): Tx {
    if !t.send.NoSend? || !Nf10Ring.Fits(t.ring, CacheLines(len)) then t
    else t.(ring := Reserving(t.ring, skb, CacheLines(len)), send := Fitted(port, CacheLines(len)))
  }

  /** The same of the test for room after the packet is counted. */
  function Testing(t: Tx): Tx {
    if !t.send.Counted? then t
    else if Room(t.ring) then t.(send := NoSend)
    else t.(send := Full(t.send.port), late := true)
  }

  /** What runs beside sender and handler, and the handler up to clearing the mark. */
  function Inside(t: Tx, e: Event): Tx {
    if e.Reserve? || (e.Take? && !t.wake.NoWake?) then t
    else t.(ring := Step(t.ring, e), wake := if e.ClearMark? && t.ring.pc.SlotBack? then TestSlots else t.wake)
  }

  /** Enough room to wake the queues. */
  function CheckingSlots(t: Tx): Tx {
    if !t.wake.TestSlots? then t
    else t.(wake := if Slots(t) + 8 * 1 <= SLOTS then TestLines else NoWake, late := false)
  }

  function CheckingLines(t: Tx): Tx {
    if !t.wake.TestLines? then t
    else t.(wake := if Lines(t) + 4 * 32 <= LINES then Waking(0) else NoWake)
  }

  function WakingNext(t: Tx): Tx {
    if !t.wake.Waking? then t
    else t.(stopped := if t.wake.port < |t.stopped| then t.stopped[t.wake.port := false] else t.stopped,
            wake := if t.wake.port + 1 < PORTS then Waking(t.wake.port + 1) else NoWake)
  }

  function TxStep(t: Tx, e: TxEvent): Tx {
    match e
    case Begin(port, skb, len) => Beginning(t, port, skb, len)
    case CountSlot => if t.send.Fitted? then t.(send := SlotCounted(t.send.port, t.send.lines)) else t
    case CountLines => if t.send.SlotCounted? then t.(send := Counted(t.send.port)) else t
    case TestRoom => Testing(t)
    case StopQueue =>
      if t.send.Full? && t.send.port < |t.stopped| then t.(stopped := t.stopped[t.send.port := true], send := NoSend) else t
    case Inner(e) => Inside(t, e)
    case CheckSlots => CheckingSlots(t)
    case CheckLines => CheckingLines(t)
    case WakeNext => WakingNext(t)
  }

  function TxRun(t: Tx, es: seq<TxEvent>): Tx
    decreases |es|
  {
    if es == [] then t else TxRun(TxStep(t, es[0]), es[1..])
  }

  lemma TxStepKeeps(t: Tx, e: TxEvent)
    requires Inv(t.ring)
    ensures Inv(TxStep(t, e).ring)
  {
    hide Inv, Step, Reserving;
    match e
    case Begin(port, skb, len) => StepKeeps(t.ring, Reserve(skb, CacheLines(len))); ReserveStep(t.ring, skb, CacheLines(len));
    case Inner(e) => StepKeeps(t.ring, e);
    case _ =>
  }

  lemma ReserveStep(r: Ring, skb: nat, lines: nat)
    ensures Step(r, Reserve(skb, lines)) == Reserving(r, skb, lines)
  {
  }

  // ---------------------------------------------------------------------------------------
  // One port sends.

  /** Only `port` sends, and as the network layer does: while its queue is not stopped. */
  ghost predicate Solo(t: Tx, es: seq<TxEvent>, port: nat)
    decreases |es|
  {
    es == [] || (SoloEvent(t, es[0], port) && Solo(TxStep(t, es[0]), es[1..], port))
  }

  predicate SoloEvent(t: Tx, e: TxEvent, port: nat) {
    e.Begin? && t.send.NoSend? ==> e.port == port && port < |t.stopped| && !t.stopped[port]
  }

  /** A queue that takes packets has room for any. */
  predicate Accepting(t: Tx, port: nat) {
    port < |t.stopped| && t.send.NoSend? && !t.stopped[port] ==> Room(t.ring)
  }

  /** The handler wakes a queue that a sender, finding no room, has stopped since the handler
      began to test for room. */
  predicate LateWake(t: Tx, e: TxEvent, port: nat) {
    e.WakeNext? && t.wake == Waking(port) && port < |t.stopped| && t.stopped[port] && t.late
  }

  /** The handler is between its test and waking `port`. */
  predicate Before(w: Wake, port: nat) {
    w.TestLines? || (w.Waking? && w.port <= port)
  }

  /** The queue takes no packet before it is woken. */
  predicate Blocked(t: Tx, port: nat)
    requires port < |t.stopped|
  {
    (t.send.NoSend? && t.stopped[port]) || t.send.Full?
  }

  ghost predicate SoloInv(t: Tx, port: nat) {
    && Inv(t.ring) && port < |t.stopped| == PORTS
    && (!t.send.NoSend? ==> t.send.port == port && !t.stopped[port])
    && Accepting(t, port)
    && (!t.wake.NoWake? ==> t.ring.pc.Idle?)
    && (Before(t.wake, port) && Blocked(t, port) ==>
          if t.late then !Room(t.ring)
          else t.ring.cntDsc + 8 <= SLOTS && (t.wake.Waking? ==> t.ring.cntPkt + 4 * 32 <= LINES))
    && (Before(t.wake, port) && t.late ==> Blocked(t, port))
  }

  /** While the handler tests and wakes, the ring only fills. */
  lemma InnerLess(r: Ring, e: Event)
    requires Inv(r) && !e.Reserve?
    ensures Step(r, e).cntDsc <= r.cntDsc && Step(r, e).cntPkt <= r.cntPkt
    ensures r.pc.Idle? ==> Step(r, e).cntDsc == r.cntDsc && Step(r, e).cntPkt == r.cntPkt
    ensures r.pc.Idle? && !e.Take? ==> Step(r, e).pc == r.pc
    ensures e.ClearMark? && r.pc.SlotBack? ==> Step(r, e).pc.Idle?
  {
    hide Inv, NextForCard;
    Facts(r);
    if r.pc.Found? {
      HeldFinds(r);
    }
  }

  lemma SoloStep(t: Tx, e: TxEvent, port: nat)
    requires SoloInv(t, port) && SoloEvent(t, e, port)
    ensures if LateWake(t, e, port) then !Accepting(TxStep(t, e), port) else SoloInv(TxStep(t, e), port)
  {
    hide Inv, Step, Reserving;
    TxStepKeeps(t, e);
    if e.Inner? && !e.e.Reserve? {
      InnerLess(t.ring, e.e);
    }
    if e.Begin? {
      ReservingCounts(t.ring, e.skb, CacheLines(e.len));
    }
  }

  lemma ReservingCounts(r: Ring, skb: nat, lines: nat)
    ensures Reserving(r, skb, lines).pc == r.pc
    ensures Nf10Ring.Fits(r, lines) ==> Reserving(r, skb, lines).cntDsc == r.cntDsc + 1 && Reserving(r, skb, lines).cntPkt == r.cntPkt + lines
  {
  }

  /** In every state on the way. */
  ghost predicate AlwaysAccepting(t: Tx, es: seq<TxEvent>, port: nat)
    decreases |es|
  {
    Accepting(t, port) && (es == [] || AlwaysAccepting(TxStep(t, es[0]), es[1..], port))
  }

  ghost predicate NeverLate(t: Tx, es: seq<TxEvent>, port: nat)
    decreases |es|
  {
    es == [] || (!LateWake(t, es[0], port) && NeverLate(TxStep(t, es[0]), es[1..], port))
  }

  /** With one sending port, in every interleaving: a queue that takes packets always has room,
      if and only if the handler never wakes it after a sender has stopped it since the test. */
  lemma {:induction false} SoloHasRoomIff(t: Tx, es: seq<TxEvent>, port: nat)
    requires SoloInv(t, port) && Solo(t, es, port)
    ensures AlwaysAccepting(t, es, port) <==> NeverLate(t, es, port)
    decreases |es|
  {
    hide Inv, TxStep;
    if es == [] {
    } else {
      SoloStep(t, es[0], port);
      var u := TxStep(t, es[0]);
      if LateWake(t, es[0], port) {
        assert !AlwaysAccepting(u, es[1..], port);
      } else {
        SoloHasRoomIff(u, es[1..], port);
      }
    }
  }

  /** Then it refuses no packet of at most 1514 bytes. */
  lemma {:induction false} SoloNeverRefused(t: Tx, es: seq<TxEvent>, port: nat, len: nat)
    requires SoloInv(t, port) && Solo(t, es, port) && NeverLate(t, es, port) && len <= MAX_FRAME
    ensures var u := TxRun(t, es);
      SoloInv(u, port) && (u.send.NoSend? && !u.stopped[port] ==> Nf10Ring.Fits(u.ring, CacheLines(len)))
    decreases |es|
  {
    hide Inv, TxStep;
    if es == [] {
    } else {
      SoloStep(t, es[0], port);
      SoloNeverRefused(TxStep(t, es[0]), es[1..], port, len);
    }
  }

  function NewTx(): Tx {
    Tx(NewRing(), [false, false, false, false], NoSend, NoWake, false)
  }

  lemma NewTxSolo(port: nat)
    requires port < PORTS
    ensures SoloInv(NewTx(), port)
  {
    NewRingInv();
  }

  // ---------------------------------------------------------------------------------------
  // Sending without interruption.

  function SendEvents(port: nat, skb: nat, len: nat): seq<TxEvent> {
    [Begin(port, skb, len), CountSlot, CountLines, TestRoom, StopQueue]
  }

  /** nf10priv_xmit up to the release of the lock. */
  function Sending(t: Tx, port: nat, skb: nat, len: nat): Tx {
    if !Nf10Ring.Fits(t.ring, CacheLines(len)) then t
    else
      var r := Reserving(t.ring, skb, CacheLines(len));
      if Room(r) || port >= |t.stopped| then t.(ring := r)
      else t.(ring := r, stopped := t.stopped[port := true], late := true)
  }

  lemma SendRun(t: Tx, port: nat, skb: nat, len: nat)
    requires t.send.NoSend? && port < |t.stopped|
    ensures TxRun(t, SendEvents(port, skb, len)) == Sending(t, port, skb, len)
  {
    hide Reserving;
    var es := SendEvents(port, skb, len);
    assert es[1..][1..][1..][1..][1..] == [];
    assert es[1..][0] == CountSlot && es[1..][1..][0] == CountLines && es[1..][1..][1..][0] == TestRoom
        && es[1..][1..][1..][1..][0] == StopQueue;
    var a := TxStep(t, es[0]);
    var b := TxStep(a, CountSlot);
    var c := TxStep(b, CountLines);
    var d := TxStep(c, TestRoom);
    assert TxRun(d, es[1..][1..][1..][1..]) == TxStep(d, StopQueue);
    assert TxRun(c, es[1..][1..][1..]) == TxRun(d, es[1..][1..][1..][1..]);
    assert TxRun(b, es[1..][1..]) == TxRun(c, es[1..][1..][1..]);
    assert TxRun(a, es[1..]) == TxRun(b, es[1..][1..]);
  }

  lemma {:induction false} TxRunConcat(t: Tx, a: seq<TxEvent>, b: seq<TxEvent>)
    ensures TxRun(t, a + b) == TxRun(TxRun(t, a), b)
    decreases |a|
  {
    hide TxStep;
    if a == [] {
      assert a + b == b;
    } else {
      assert (a + b)[1..] == a[1..] + b;
      TxRunConcat(TxStep(t, a[0]), a[1..], b);
    }
  }

  lemma TxRunOne(t: Tx, e: TxEvent)
    ensures TxRun(t, [e]) == TxStep(t, e) && TxRun(t, []) == t
  {
    assert [e][1..] == [];
  }

  // ---------------------------------------------------------------------------------------
  // Histories.

  lemma {:induction false} SoloConcat(t: Tx, a: seq<TxEvent>, b: seq<TxEvent>, port: nat)
    requires Solo(t, a, port) && Solo(TxRun(t, a), b, port)
    ensures Solo(t, a + b, port)
    decreases |a|
  {
    hide TxStep;
    if a == [] {
      assert a + b == b;
    } else {
      assert (a + b)[1..] == a[1..] + b;
      SoloConcat(TxStep(t, a[0]), a[1..], b, port);
    }
  }

  lemma {:induction false} SoloSilent(t: Tx, es: seq<TxEvent>, port: nat)
    requires forall i :: 0 <= i < |es| ==> !es[i].Begin?
    ensures Solo(t, es, port)
    decreases |es|
  {
    hide TxStep;
    if es == [] {
    } else {
      SoloSilent(TxStep(t, es[0]), es[1..], port);
    }
  }

  /** One packet of 60 bytes, the `n`-th in the ring, sent, booked and posted. */
  function OneSent(port: nat, n: nat): seq<TxEvent> {
    SendEvents(port, n, 60) + ([Inner(Bookkeep(n))] + [Inner(Post(n))])
  }

  /** `n` packets when there are `p` in the ring. */
  function Burst(port: nat, p: nat, n: nat): seq<TxEvent> {
    if n == 0 then [] else Burst(port, p, n - 1) + OneSent(port, p + n - 1)
  }

  /** The ring holds `n` posted packets of two lines. */
  ghost predicate Filled(t: Tx, n: nat) {
    Row(t.ring, 0, n) && t.send.NoSend? && |t.stopped| == PORTS
  }

  lemma SendPosted(t: Tx, port: nat, n: nat)
    requires Filled(t, n) && n < 32 && port < PORTS
    ensures var u := TxRun(t, OneSent(port, n));
      && Filled(u, n + 1) && u.ring.pc == t.ring.pc && u.ring.dne == t.ring.dne && u.wake == t.wake
      && u.stopped == (if n + 1 == 32 then t.stopped[port := true] else t.stopped) && u.late == (t.late || n + 1 == 32)
    ensures !t.stopped[port] ==> Solo(t, OneSent(port, n), port)
  {
    hide Row, TxRun, Run, Solo;
    var a, b := SendEvents(port, n, 60), [Inner(Bookkeep(n))] + [Inner(Post(n))];
    SendRun(t, port, n, 60);
    RowCounts(t.ring, 0, n);
    TxRunConcat(t, a, b);
    var x := TxRun(t, a);
    TxRunConcat(x, [Inner(Bookkeep(n))], [Inner(Post(n))]);
    TxRunOne(x, Inner(Bookkeep(n)));
    TxRunOne(TxStep(x, Inner(Bookkeep(n))), Inner(Post(n)));
    RunThree(t.ring, Reserve(n, 2), Bookkeep(n), Post(n));
    SendOne(t.ring, n);
    SoloSilent(x, b, port);
    if !t.stopped[port] {
      SoloSend(t, port, n);
      SoloConcat(t, a, b, port);
    }
  }

  lemma SoloSend(t: Tx, port: nat, skb: nat)
    requires port < |t.stopped| && !t.stopped[port]
    ensures Solo(t, SendEvents(port, skb, 60), port)
  {
    hide TxStep;
    var es := SendEvents(port, skb, 60);
    SoloSilent(TxStep(t, es[0]), es[1..], port);
  }

  lemma RowCounts(r: Ring, done: nat, n: nat)
    requires Row(r, done, n)
    ensures r.cntDsc == n <= 32 && r.cntPkt == 2 * n
  {
    hide Inv;
    Facts(r);
  }

  lemma {:induction false} BurstFills(t: Tx, port: nat, p: nat, n: nat)
    requires Filled(t, p) && p + n <= 32 && p < 32 && port < PORTS
    ensures var u := TxRun(t, Burst(port, p, n));
      && Filled(u, p + n) && u.ring.pc == t.ring.pc && u.wake == t.wake
      && u.stopped == (if p + n == 32 then t.stopped[port := true] else t.stopped) && u.late == (t.late || p + n == 32)
    ensures !t.stopped[port] ==> Solo(t, Burst(port, p, n), port)
    decreases n
  {
    hide Filled, TxRun, Solo, OneSent;
    FilledPorts(t, p);
    if n == 0 {
      TxRunOne(t, StopQueue);
      SoloSilent(t, [], port);
    } else {
      BurstFills(t, port, p, n - 1);
      var u := TxRun(t, Burst(port, p, n - 1));
      TxRunConcat(t, Burst(port, p, n - 1), OneSent(port, p + n - 1));
      SendPosted(u, port, p + n - 1);
      if !t.stopped[port] {
        SoloConcat(t, Burst(port, p, n - 1), OneSent(port, p + n - 1), port);
      }
    }
  }

  lemma FilledPorts(t: Tx, n: nat)
    requires Filled(t, n)
    ensures |t.stopped| == PORTS
  {
  }

  lemma NewFilled()
    ensures var t := NewTx();
      Filled(t, 0) && t.ring.pc.Idle? && t.wake.NoWake? && forall i :: 0 <= i < 4 ==> !t.stopped[i]
  {
    hide Row;
    NewRow();
  }

  /** With two sending ports this fails: one fills the descriptor ring, only its own queue is
      stopped, and a packet from the other is refused. */
  lemma SecondPortIsRefused(a: nat, b: nat)
    requires a < PORTS && b < PORTS && a != b
    ensures var u := TxRun(NewTx(), Burst(a, 0, 32));
      |u.stopped| == PORTS && u.send.NoSend? && !u.stopped[b] && !Nf10Ring.Fits(u.ring, CacheLines(60))
  {
    hide TxRun, Burst, Row;
    NewFilled();
    BurstFills(NewTx(), a, 0, 32);
    RowCounts(TxRun(NewTx(), Burst(a, 0, 32)).ring, 0, 32);
  }

  function Wakes(n: nat): seq<TxEvent> {
    if n == 0 then [] else Wakes(n - 1) + [WakeNext]
  }

  function TakenBack(): seq<TxEvent> {
    [Inner(Complete)] + ([Inner(Take)] + ([Inner(ReturnLines)] + ([Inner(ReturnSlot)] + [Inner(ClearMark)])))
  }

  /** 25 packets are sent and one is taken back; while the handler goes from its test to waking
      the queue, 8 more packets fill the ring. */
  function LateHistory(port: nat): seq<TxEvent> {
    Burst(port, 0, 25) + (TakenBack() + (([CheckSlots] + [CheckLines]) + (Burst(port, 24, 8) + Wakes(port + 1))))
  }

  /** Even with one sending port the queue can be woken with a full ring; its next packet, of
      any size, is refused. */
  lemma LateWakeRefuses(port: nat, len: nat)
    requires port < PORTS
    ensures Solo(NewTx(), LateHistory(port), port)
    ensures var u := TxRun(NewTx(), LateHistory(port));
      |u.stopped| == PORTS && u.send.NoSend? && !u.stopped[port] && !Nf10Ring.Fits(u.ring, CacheLines(len))
  {
    hide TxRun, Burst, Filled, Solo, Wakes, TakenBack, LateHistory, NewTx, CacheLines, Nf10Ring.Fits;
    var t := NewTx();
    NewFilled();
    FilledPorts(t, 0);
    BurstFills(t, port, 0, 25);
    var a := TxRun(t, Burst(port, 0, 25));
    OneTaken(a, port, 25);
    var b := TxRun(a, TakenBack());
    Passes(b, port, 24);
    var c := TxRun(b, [CheckSlots] + [CheckLines]);
    FilledPorts(c, 24);
    BurstFills(c, port, 24, 8);
    var d := TxRun(c, Burst(port, 24, 8));
    FilledPorts(d, 32);
    Woken(d, port, port + 1);
    Chain(c, Burst(port, 24, 8), Wakes(port + 1), port);
    Chain(b, [CheckSlots] + [CheckLines], Burst(port, 24, 8) + Wakes(port + 1), port);
    Chain(a, TakenBack(), ([CheckSlots] + [CheckLines]) + (Burst(port, 24, 8) + Wakes(port + 1)), port);
    Chain(t, Burst(port, 0, 25), TakenBack() + (([CheckSlots] + [CheckLines]) + (Burst(port, 24, 8) + Wakes(port + 1))), port);
    LateHistoryParts(port);
    FullRing(d, len);
  }

  lemma LateHistoryParts(port: nat)
    ensures LateHistory(port)
         == Burst(port, 0, 25) + (TakenBack() + (([CheckSlots] + [CheckLines]) + (Burst(port, 24, 8) + Wakes(port + 1))))
  {
  }

  lemma Chain(t: Tx, a: seq<TxEvent>, b: seq<TxEvent>, port: nat)
    requires Solo(t, a, port) && Solo(TxRun(t, a), b, port)
    ensures Solo(t, a + b, port) && TxRun(t, a + b) == TxRun(TxRun(t, a), b)
  {
    SoloConcat(t, a, b, port);
    TxRunConcat(t, a, b);
  }

  lemma ClearRow(r: Ring, n: nat)
    requires Row(r, 0, n) && n < 32 && r.pc.SlotBack?
    ensures Row(Step(r, ClearMark), 0, n) && Step(r, ClearMark).pc.Idle?
  {
    hide Inv;
    StepKeeps(r, ClearMark);
    Facts(r);
  }

  lemma OneTaken(t: Tx, port: nat, n: nat)
    requires Filled(t, n) && n > 0 && t.wake.NoWake? && t.ring.pc.Idle?
    ensures var u := TxRun(t, TakenBack());
      && Filled(u, n - 1) && u.ring.pc.Idle? && u.wake.TestSlots? && u.stopped == t.stopped && u.late == t.late
    ensures Solo(t, TakenBack(), port)
  {
    hide Row, Step, Run, TxRun;
    SoloSilent(t, TakenBack(), port);
    TxRunConcat(t, [Inner(Complete)], [Inner(Take)] + ([Inner(ReturnLines)] + ([Inner(ReturnSlot)] + [Inner(ClearMark)])));
    TxRunOne(t, Inner(Complete));
    var a := TxStep(t, Inner(Complete));
    CompleteOne(t.ring, 0, n);
    TxRunConcat(a, [Inner(Take)], [Inner(ReturnLines)] + ([Inner(ReturnSlot)] + [Inner(ClearMark)]));
    TxRunOne(a, Inner(Take));
    var b := TxStep(a, Inner(Take));
    TxRunConcat(b, [Inner(ReturnLines)], [Inner(ReturnSlot)] + [Inner(ClearMark)]);
    TxRunOne(b, Inner(ReturnLines));
    var c := TxStep(b, Inner(ReturnLines));
    TxRunConcat(c, [Inner(ReturnSlot)], [Inner(ClearMark)]);
    TxRunOne(c, Inner(ReturnSlot));
    var d := TxStep(c, Inner(ReturnSlot));
    TxRunOne(d, Inner(ClearMark));
    TakeOne(a.ring, n);
    RunThree(a.ring, Take, ReturnLines, ReturnSlot);
    assert d.ring == Run(a.ring, [Take, ReturnLines, ReturnSlot]);
    RowCounts(d.ring, 0, n - 1);
    RowCounts(a.ring, 1, n);
    ClearRow(d.ring, n - 1);
  }

  lemma Passes(t: Tx, port: nat, n: nat)
    requires Filled(t, n) && t.wake.TestSlots? && n <= 24
    ensures var u := TxRun(t, [CheckSlots] + [CheckLines]);
      && Filled(u, n) && u.ring == t.ring && u.wake == Waking(0) && u.stopped == t.stopped
    ensures Solo(t, [CheckSlots] + [CheckLines], port)
  {
    hide Row, TxRun;
    RowCounts(t.ring, 0, n);
    SoloSilent(t, [CheckSlots] + [CheckLines], port);
    TxRunConcat(t, [CheckSlots], [CheckLines]);
    TxRunOne(t, CheckSlots);
    TxRunOne(TxStep(t, CheckSlots), CheckLines);
  }

  lemma {:induction false} Woken(t: Tx, port: nat, n: nat)
    requires t.wake == Waking(0) && n <= PORTS == |t.stopped|
    ensures var u := TxRun(t, Wakes(n));
      && u.ring == t.ring && u.send == t.send && u.late == t.late && |u.stopped| == PORTS
      && u.wake == (if n < PORTS then Waking(n) else NoWake)
      && (forall i :: 0 <= i < PORTS ==> u.stopped[i] == (i >= n && t.stopped[i]))
    ensures Solo(t, Wakes(n), port)
  {
    hide TxRun;
    if n == 0 {
      TxRunOne(t, WakeNext);
      SoloSilent(t, [], port);
    } else {
      Woken(t, port, n - 1);
      var u := TxRun(t, Wakes(n - 1));
      SoloSilent(u, [WakeNext], port);
      Chain(t, Wakes(n - 1), [WakeNext], port);
      TxRunOne(u, WakeNext);
    }
  }

  lemma FullRing(t: Tx, len: nat)
    requires Filled(t, 32)
    ensures t.send.NoSend? && t.ring.cntDsc == 32 && !Nf10Ring.Fits(t.ring, CacheLines(len))
  {
    RowCounts(t.ring, 0, 32);
  }

  // ---------------------------------------------------------------------------------------
  // The code.

  datatype Packet = Packet(port: nat, skb: nat, len: nat)

  /** Packets sent one after the other. */
  function AllSent(ps: seq<Packet>): seq<TxEvent> {
    if ps == [] then [] else AllSent(ps[..|ps| - 1]) + SendEvents(ps[|ps| - 1].port, ps[|ps| - 1].skb, ps[|ps| - 1].len)
  }

  /** One pass of the handler, with packets sent by other CPUs before the mark is cleared and
      before the queues are woken. */
  function PassEvents(early: seq<Packet>, late: seq<Packet>): seq<TxEvent> {
    [Inner(Take)] + [Inner(ReturnLines)] + [Inner(ReturnSlot)] + AllSent(early)
    + [Inner(ClearMark)] + [CheckSlots] + [CheckLines] + AllSent(late) + Wakes(4)
  }

  class Card {
    var wrDsc: nat
    var wrPkt: nat
    var cntDsc: int
    var cntPkt: int
    var rd: nat
    const bkSkb: array<nat>
    const bkSize: array<nat>
    const dne: array<bool>
    const stopped: array<bool>
    var freed: seq<nat>
    ghost var jobs: seq<Job>
    ghost var pc: Pc
    ghost var wake: Wake
    ghost var late: bool

    ghost predicate Arrays() {
      && bkSkb.Length == bkSize.Length == dne.Length == 32 && stopped.Length == PORTS
      && bkSkb != bkSize && dne != stopped
    }

    ghost function Books(): (s: seq<Book>)
      requires Arrays()
      reads bkSkb, bkSize
      ensures |s| == 32 && forall i :: 0 <= i < 32 ==> s[i] == Book(bkSkb[i], bkSize[i])
    {
      seq(32, i requires 0 <= i < 32 reads bkSkb, bkSize => Book(bkSkb[i], bkSize[i]))
    }

    /** Between two methods nobody holds the lock of the senders. */
    ghost function Abs(): Tx
      requires Arrays()
      reads this, bkSkb, bkSize, dne, stopped
    {
      Tx(Ring(wrDsc, wrPkt, cntDsc, cntPkt, rd, Books(), dne[..], jobs, freed, pc), stopped[..], NoSend, wake, late)
    }

    ghost predicate Valid()
      reads this, bkSkb, bkSize, dne, stopped
    {
      Arrays() && Inv(Abs().ring)
    }

    constructor ()
      ensures Valid() && Abs() == NewTx()
    {
      wrDsc, wrPkt, cntDsc, cntPkt, rd := 0, 0, 0, 0, 0;
      bkSkb := new nat[32](_ => 0);
      bkSize := new nat[32](_ => 0);
      dne := new bool[32](_ => false);
      stopped := new bool[PORTS](_ => false);
      freed, jobs, pc, wake, late := [], [], Idle, NoWake, false;
      new;
      NewRingInv();
      assert Books() == NewRing().bk && dne[..] == NewRing().dne && stopped[..] == [false, false, false, false];
    }

    /** nf10priv_xmit up to the release of the lock: reserves a slot and lines. */
    method Reserve(skb: nat, len: nat, port: nat) returns (ok: bool, dscIndex: nat, pktAddr: nat)
      requires Valid() && port < PORTS
      modifies this`wrDsc, this`wrPkt, this`cntDsc, this`cntPkt, this`jobs, this`late, stopped
      ensures Valid() && Abs() == TxRun(old(Abs()), SendEvents(port, skb, len))
      ensures ok <==> Nf10Ring.Fits(old(Abs()).ring, CacheLines(len))
      ensures ok ==> |jobs| > 0 && jobs[|jobs| - 1] == Job(skb, dscIndex, pktAddr / 64, CacheLines(len), Reserved)
    {
      hide Inv, TxRun;
      var clSize := (len + 2 * 63) / 64;
      SendRun(Abs(), port, skb, len);
      SendingKeeps(Abs(), port, skb, len);
      if cntDsc + 1 <= SLOTS && cntPkt + clSize <= LINES {
        pktAddr := wrPkt;
        wrPkt := (pktAddr + 64 * clSize) % (64 * 512);
        var dscAddr := wrDsc;
        wrDsc := (dscAddr + 64) % (64 * 32);
        cntDsc := cntDsc + 1;
        cntPkt := cntPkt + clSize;
        dscIndex := dscAddr / 64;
        jobs := jobs + [Job(skb, dscIndex, pktAddr / 64, clSize, Reserved)];
        if !(cntDsc + 1 <= SLOTS && cntPkt + 32 <= LINES) {
          late := true;
          stopped[port] := true;
        }
        ok := true;
      } else {
        ok, dscIndex, pktAddr := false, 0, 0;
      }
    }

    /** The bookkeeping behind the lock, for the packet with index `k` among those under way. */
    method Bookkeep(dscIndex: nat, skb: nat, clSize: nat, ghost k: nat)
      requires Valid() && k < |jobs| && jobs[k] == Job(skb, dscIndex, jobs[k].start, clSize, Reserved)
      modifies this`jobs, bkSkb, bkSize
      ensures Valid() && Abs() == TxStep(old(Abs()), Inner(Event.Bookkeep(k)))
    {
      hide Inv;
      ghost var t := Abs();
      TxStepKeeps(t, Inner(Event.Bookkeep(k)));
      Facts(t.ring);
      bkSkb[dscIndex] := skb;
      bkSize[dscIndex] := clSize;
      jobs := jobs[k := jobs[k].(phase := Booked)];
      assert Books() == t.ring.bk[dscIndex := Book(skb, clSize)];
    }

    /** Senders on other CPUs. */
    method OthersSend(ps: seq<Packet>)
      requires Valid() && forall i :: 0 <= i < |ps| ==> ps[i].port < PORTS
      modifies this`wrDsc, this`wrPkt, this`cntDsc, this`cntPkt, this`jobs, this`late, stopped
      ensures Valid() && Abs() == TxRun(old(Abs()), AllSent(ps))
    {
      hide Inv, TxRun, SendEvents;
      ghost var t := Abs();
      TxRunOne(t, StopQueue);
      var i := 0;
      while i < |ps|
        invariant 0 <= i <= |ps| && Valid() && Abs() == TxRun(t, AllSent(ps[..i]))
      {
        TxRunConcat(t, AllSent(ps[..i]), SendEvents(ps[i].port, ps[i].skb, ps[i].len));
        assert ps[..i + 1][..i] == ps[..i];
        var ok, dscIndex, pktAddr := Reserve(ps[i].skb, ps[i].len, ps[i].port);
        i := i + 1;
      }
      assert ps[..|ps|] == ps;
    }

    /** The transmit part of one pass of work_handler, while other CPUs send packets before the
        mark is cleared and before the queues are woken. */
    method CleanTx(early: seq<Packet>, later: seq<Packet>) returns (found: bool)
      requires Valid() && pc.Idle? && wake.NoWake?
      requires forall i :: 0 <= i < |early| ==> early[i].port < PORTS
      requires forall i :: 0 <= i < |later| ==> later[i].port < PORTS
      modifies this, dne, stopped
      ensures Valid() && pc.Idle? && wake.NoWake? && Abs() == TxRun(old(Abs()), PassEvents(early, later))
      ensures found <==> old(jobs) != [] && old(jobs)[0].phase.Completed?
      ensures freed == old(freed) + if found then [old(jobs)[0].skb] else []
    {
      hide Inv, TxRun, TxStep, AllSent, PassEvents, Wakes;
      PassParts(Abs(), early, later);
      var index, enough;
      found, index := TakeCompletion();
      ReturnRoom(found, index);
      OthersSend(early);
      enough := ClearAndTest(found, index);
      OthersSend(later);
      WakeQueues(enough);
    }

    /** Looks at the mark behind the read pointer, and frees the buffer it stands for. */
    method TakeCompletion() returns (found: bool, index: nat)
      requires Valid() && pc.Idle? && wake.NoWake?
      modifies this`rd, this`freed, this`jobs, this`pc
      ensures Valid() && Abs() == TxStep(old(Abs()), Inner(Take))
      ensures found <==> old(jobs) != [] && old(jobs)[0].phase.Completed?
      ensures freed == old(freed) + if found then [old(jobs)[0].skb] else []
      ensures pc == if found then Found(index) else Idle
    {
      hide Inv;
      TxStepKeeps(Abs(), Inner(Take));
      TakeFinds(Abs().ring);
      Facts(Abs().ring);
      index := rd / 64;
      found := dne[index];
      if found {
        rd := (rd + 64) % (64 * 32);
        freed := freed + [bkSkb[index]];
        pc, jobs := Found(index), jobs[0 := jobs[0].(phase := Taken)];
      }
    }

    /** Gives back its lines and its slot. */
    method ReturnRoom(found: bool, index: nat)
      requires Valid() && pc == if found then Found(index) else Idle
      modifies this`cntPkt, this`cntDsc, this`jobs, this`pc
      ensures Valid() && Abs() == TxStep(TxStep(old(Abs()), Inner(ReturnLines)), Inner(ReturnSlot))
      ensures pc == if found then SlotBack(index) else Idle
    {
      hide Inv;
      ghost var t := Abs();
      TxStepKeeps(t, Inner(ReturnLines));
      TxStepKeeps(TxStep(t, Inner(ReturnLines)), Inner(ReturnSlot));
      Facts(t.ring);
      if found {
        HeldFinds(t.ring);
        cntPkt := cntPkt - bkSize[index];
        pc, jobs := LinesBack(index), jobs[0 := Emptied(jobs[0])];
        assert Abs() == TxStep(t, Inner(ReturnLines));
        cntDsc := cntDsc - 1;
        pc, jobs := SlotBack(index), jobs[1..];
      }
    }

    /** Clears the mark, and tests whether there is enough room to wake the queues. */
    method ClearAndTest(found: bool, index: nat) returns (enough: bool)
      requires Valid() && pc == (if found then SlotBack(index) else Idle) && wake.NoWake?
      modifies dne, this`jobs, this`pc, this`wake, this`late
      ensures Valid() && Abs() == TxStep(TxStep(TxStep(old(Abs()), Inner(ClearMark)), CheckSlots), CheckLines)
      ensures pc.Idle? && wake == if enough then Waking(0) else NoWake
    {
      hide Inv;
      ghost var t := Abs();
      TxStepKeeps(t, Inner(ClearMark));
      Facts(t.ring);
      enough := false;
      if found {
        ghost var lost := LosesMark(t.ring);
        dne[index] := false;
        jobs := if lost then jobs[31 := jobs[31].(phase := Lost)] else jobs;
        pc, wake := Idle, TestSlots;
        assert dne[..] == t.ring.dne[index := false];
        assert Abs() == TxStep(t, Inner(ClearMark));
        enough := cntDsc + 8 * 1 <= SLOTS;
        wake, late := if enough then TestLines else NoWake, false;
        if enough {
          enough := cntPkt + 4 * 32 <= LINES;
          wake := if enough then Waking(0) else NoWake;
        }
      }
    }

    method WakeQueues(enough: bool)
      requires Valid() && wake == if enough then Waking(0) else NoWake
      modifies stopped, this`wake
      ensures Valid() && wake.NoWake? && Abs() == TxRun(old(Abs()), Wakes(4))
    {
      hide Inv, TxRun;
      ghost var t := Abs();
      if !enough {
        WakesNothing(t, 4);
        return;
      }
      TxRunOne(t, WakeNext);
      var i := 0;
      while i < PORTS
        invariant 0 <= i <= PORTS && Valid() && Abs() == TxRun(t, Wakes(i))
        invariant wake == if i < PORTS then Waking(i) else NoWake
        modifies stopped, this`wake
      {
        ghost var u := Abs();
        TxRunConcat(t, Wakes(i), [WakeNext]);
        TxRunOne(u, WakeNext);
        if stopped[i] {
          stopped[i] := false;
        }
        wake := if i + 1 < PORTS then Waking(i + 1) else NoWake;
        assert stopped[..] == u.stopped[i := false];
        i := i + 1;
      }
    }
  }

  lemma {:induction false} WakesNothing(t: Tx, n: nat)
    requires t.wake.NoWake?
    ensures TxRun(t, Wakes(n)) == t
  {
    if n == 0 {
    } else {
      WakesNothing(t, n - 1);
      TxRunConcat(t, Wakes(n - 1), [WakeNext]);
      TxRunOne(t, WakeNext);
    }
  }

  lemma SendingKeeps(t: Tx, port: nat, skb: nat, len: nat)
    requires Inv(t.ring)
    ensures Inv(Sending(t, port, skb, len).ring)
  {
    hide Inv, Step, Reserving;
    StepKeeps(t.ring, Reserve(skb, CacheLines(len)));
    ReserveStep(t.ring, skb, CacheLines(len));
  }

  lemma PassParts(t: Tx, early: seq<Packet>, later: seq<Packet>)
    ensures var a := TxStep(TxStep(TxStep(t, Inner(Take)), Inner(ReturnLines)), Inner(ReturnSlot));
      var b := TxRun(a, AllSent(early));
      var c := TxStep(TxStep(TxStep(b, Inner(ClearMark)), CheckSlots), CheckLines);
      TxRun(t, PassEvents(early, later)) == TxRun(TxRun(c, AllSent(later)), Wakes(4))
  {
    hide TxStep, TxRun, AllSent, Wakes;
    var x1 := [Inner(Take)];
    var x2 := x1 + [Inner(ReturnLines)];
    var x3 := x2 + [Inner(ReturnSlot)];
    var x4 := x3 + AllSent(early);
    var x5 := x4 + [Inner(ClearMark)];
    var x6 := x5 + [CheckSlots];
    var x7 := x6 + [CheckLines];
    var x8 := x7 + AllSent(later);
    TxRunOne(t, Inner(Take));
    Then(t, x1, Inner(ReturnLines));
    Then(t, x2, Inner(ReturnSlot));
    TxRunConcat(t, x3, AllSent(early));
    Then(t, x4, Inner(ClearMark));
    Then(t, x5, CheckSlots);
    Then(t, x6, CheckLines);
    TxRunConcat(t, x7, AllSent(later));
    TxRunConcat(t, x8, Wakes(4));
  }

  lemma Then(t: Tx, es: seq<TxEvent>, e: TxEvent)
    ensures TxRun(t, es + [e]) == TxStep(TxRun(t, es), e)
  {
    TxRunConcat(t, es, [e]);
    TxRunOne(TxRun(t, es), e);
  }
}
