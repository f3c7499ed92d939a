/**
  The DMA rings of the NetFPGA driver: a descriptor ring of 32 slots and a packet buffer of
  512 lines of 64 bytes, with write pointers and counters, bookkeeping arrays indexed by
  descriptor slot, and the completion ring the card writes.  Reserving, bookkeeping, posting and
  completing are steps taken by different CPUs and the card in any order; the card completes
  descriptors in ring order.  Taking a completion back is four steps, because the handler and the
  senders hold different locks: the buffer is freed, its lines and then its slot are given back,
  and only then is the completion mark cleared.
 */
module Nf10Ring {
  /** (mask + 1) / 64 of the descriptor and completion rings, and of the packet buffer. */
  const SLOTS: int := 32
  const LINES: int := 512

  /** What has become of a packet.  It is `Lost` when its completion mark was cleared before the
      handler saw it; the handler has `Taken` the oldest packet, or `Released` its lines. */
  datatype Phase = Reserved | Booked | Posted | Completed | Lost | Taken | Released

  /** Where the handler is with the completion at `index`. */
  datatype Pc = Idle | Found(index: nat) | LinesBack(index: nat) | SlotBack(index: nat)

  /** A packet between its reservation and its cleanup: buffer, descriptor slot, first line in
      the packet buffer and number of lines. */
  datatype Job = Job(skb: nat, slot: nat, start: nat, lines: nat, phase: Phase)

  /** tx_bk_skb and tx_bk_size of one slot. */
  datatype Book = Book(skb: nat, lines: nat)

  /** `jobs` lists the packets under way in the order of their reservation, `freed` the buffers
      given back. */
  datatype Ring = Ring(wrDsc: nat, wrPkt: nat, cntDsc: int, cntPkt: int, rd: nat,
                       bk: seq<Book>, dne: seq<bool>, jobs: seq<Job>, freed: seq<nat>, pc: Pc)

  datatype Event =
    | Reserve(skb: nat, lines: nat)
    | Bookkeep(k: nat)
    | Post(k: nat)
    | Complete
    | Take
    | ReturnLines
    | ReturnSlot
    | ClearMark

  predicate Fits(r: Ring, lines: nat) {
    r.cntDsc + 1 <= SLOTS && r.cntPkt + lines <= LINES
  }

  function Reserving(r: Ring, skb: nat, lines: nat): Ring {
    if !Fits(r, lines) then r
    else r.(wrPkt := (r.wrPkt + 64 * lines) % (64 * 512), wrDsc := (r.wrDsc + 64) % (64 * 32),
            cntDsc := r.cntDsc + 1, cntPkt := r.cntPkt + lines,
            jobs := r.jobs + [Job(skb, r.wrDsc / 64, r.wrPkt / 64, lines, Reserved)])
  }

  function Bookkeeping(r: Ring, k: nat): Ring {
    if k >= |r.jobs| || !r.jobs[k].phase.Reserved? || r.jobs[k].slot >= |r.bk| then r
    else r.(bk := r.bk[r.jobs[k].slot := Book(r.jobs[k].skb, r.jobs[k].lines)],
            jobs := r.jobs[k := r.jobs[k].(phase := Booked)])
  }

  function Posting(r: Ring, k: nat): Ring {
    if k >= |r.jobs| || !r.jobs[k].phase.Booked? then r
    else r.(jobs := r.jobs[k := r.jobs[k].(phase := Posted)])
  }

  /** The card is done with the packet. */
  predicate Finished(p: Phase) {
    p.Completed? || p.Lost? || p.Taken? || p.Released?
  }

  /** The oldest packet that the card has not completed. */
  function NextForCard(jobs: seq<Job>): (n: nat)
    ensures n <= |jobs| && (n < |jobs| ==> !Finished(jobs[n].phase))
    ensures forall i :: 0 <= i < n ==> Finished(jobs[i].phase)
  {
    if jobs == [] || !Finished(jobs[0].phase) then 0 else 1 + NextForCard(jobs[1..])
  }

  function Completing(r: Ring): Ring {
    var n := NextForCard(r.jobs);
    if n == |r.jobs| || !r.jobs[n].phase.Posted? || r.jobs[n].slot >= |r.dne| then r
    else r.(dne := r.dne[r.jobs[n].slot := true], jobs := r.jobs[n := r.jobs[n].(phase := Completed)])
  }

  /** The completion at the read pointer, if there is one: its buffer is freed. */
  function Taking(r: Ring): Ring {
    var i := r.rd / 64;
    if !r.pc.Idle? || i >= |r.dne| || i >= |r.bk| || !r.dne[i] then r
    else r.(rd := (r.rd + 64) % (64 * 32), freed := r.freed + [r.bk[i].skb], pc := Found(i),
            jobs := if r.jobs == [] then [] else r.jobs[0 := r.jobs[0].(phase := Taken)])
  }

  /** Its lines are given back: what is left of its region is empty. */
  function ReturningLines(r: Ring): Ring {
    if !r.pc.Found? || r.pc.index >= |r.bk| then r
    else r.(cntPkt := r.cntPkt - r.bk[r.pc.index].lines, pc := LinesBack(r.pc.index),
            jobs := if r.jobs == [] then [] else r.jobs[0 := Emptied(r.jobs[0])])
  }

  function Emptied(j: Job): Job {
    j.(start := (j.start + j.lines) % 512, lines := 0, phase := Released)
  }

  /** Its slot is given back. */
  function ReturningSlot(r: Ring): Ring {
    if !r.pc.LinesBack? then r
    else r.(cntDsc := r.cntDsc - 1, pc := SlotBack(r.pc.index), jobs := if r.jobs == [] then [] else r.jobs[1..])
  }

  /** The mark of its slot is cleared, whosever it is by now. */
  function Clearing(r: Ring): Ring {
    if !r.pc.SlotBack? || r.pc.index >= |r.dne| then r
    else r.(dne := r.dne[r.pc.index := false], pc := Idle,
            jobs := if LosesMark(r) then r.jobs[31 := r.jobs[31].(phase := Lost)] else r.jobs)
  }

  /** In the time between giving the slot back and clearing its mark the whole ring was filled,
      and the card has completed all of it, up to the packet that now has the slot. */
  predicate LosesMark(r: Ring) {
    r.pc.SlotBack? && |r.jobs| == 32 && r.jobs[31].phase.Completed?
  }

  function Step(r: Ring, e: Event): Ring {
    match e
    case Reserve(skb, lines) => Reserving(r, skb, lines)
    case Bookkeep(k) => Bookkeeping(r, k)
    case Post(k) => Posting(r, k)
    case Complete => Completing(r)
    case Take => Taking(r)
    case ReturnLines => ReturningLines(r)
    case ReturnSlot => ReturningSlot(r)
    case ClearMark => Clearing(r)
  }

  function Run(r: Ring, es: seq<Event>): Ring
    decreases |es|
  {
    if es == [] then r else Run(Step(r, es[0]), es[1..])
  }

  // ---------------------------------------------------------------------------------------

  function Total(jobs: seq<Job>): nat {
    if jobs == [] then 0 else jobs[0].lines + Total(jobs[1..])
  }

  /** The slot `i` places behind the read pointer, and the place of slot `x`. */
  function SlotAt(rd: nat, i: nat): nat {
    (rd / 64 + i) % 32
  }

  function Rank(rd: nat, x: nat): nat {
    Behind(rd / 64, x)
  }

  /** How far slot `x` lies behind slot `s`. */
  function Behind(s: nat, x: nat): nat {
    (x - s) % 32
  }

  /** The line `n` lines before the write pointer. */
  function LineAt(wrPkt: nat, n: nat): nat {
    (wrPkt / 64 - n) % 512
  }

  /** The handler has taken the oldest packet, which still has its slot. */
  predicate Held(r: Ring) {
    r.pc.Found? || r.pc.LinesBack?
  }

  /** The address of the oldest packet's slot. */
  function First(r: Ring): nat {
    if Held(r) then 64 * r.pc.index else r.rd
  }

  ghost predicate SlotsOk(r: Ring) {
    && r.rd % 64 == 0 && r.rd < 64 * 32
    && (!r.pc.Idle? ==> r.pc.index < 32 && r.rd == 64 * ((r.pc.index + 1) % 32))
    && r.wrDsc == 64 * SlotAt(First(r), |r.jobs|)
    && forall i :: 0 <= i < |r.jobs| ==> r.jobs[i].slot == SlotAt(First(r), i)
  }

  /** Every packet starts where the one before it ends, the next one at the write pointer. */
  ghost predicate StartsOk(r: Ring) {
    && r.wrPkt % 64 == 0 && r.wrPkt < 64 * 512
    && forall i :: 0 <= i < |r.jobs| ==> r.jobs[i].start == LineAt(r.wrPkt, Total(r.jobs[i..]))
  }

  ghost predicate CountsOk(r: Ring) {
    && r.cntDsc == |r.jobs| <= SLOTS && r.cntPkt == Total(r.jobs) <= LINES
    && |r.bk| == |r.dne| == SLOTS
  }

  ghost predicate BooksOk(r: Ring) {
    forall i :: 0 <= i < |r.jobs| && !r.jobs[i].phase.Reserved? && !r.jobs[i].phase.Released? ==>
      r.jobs[i].slot < |r.bk| && r.bk[r.jobs[i].slot] == Book(r.jobs[i].skb, r.jobs[i].lines)
  }

  /** Slot `x` is marked: its packet is completed and not lost, or the handler has found it and
      not yet cleared the mark. */
  predicate Marked(r: Ring, x: nat) {
    || (0 <= Rank(First(r), x) < |r.jobs| && r.jobs[Rank(First(r), x)].phase.Completed?)
    || (!r.pc.Idle? && x == r.pc.index)
  }

  /** The card has completed a prefix of the packets. */
  ghost predicate DoneOk(r: Ring) {
    && (forall i, j :: 0 <= i < j < |r.jobs| && Finished(r.jobs[j].phase) ==> Finished(r.jobs[i].phase))
    && (forall x :: 0 <= x < |r.dne| ==> (r.dne[x] <==> Marked(r, x)))
  }

  /** The packet the handler holds, if any, is the oldest one. */
  ghost predicate HeldOk(r: Ring) {
    && (Held(r) ==> r.jobs != [] && (r.pc.LinesBack? ==> r.jobs[0].lines == 0))
    && forall i :: 0 <= i < |r.jobs| ==>
         (r.jobs[i].phase.Taken? <==> i == 0 && r.pc.Found?) && (r.jobs[i].phase.Released? <==> i == 0 && r.pc.LinesBack?)
  }

  ghost predicate Inv(r: Ring) {
    SlotsOk(r) && StartsOk(r) && CountsOk(r) && BooksOk(r) && DoneOk(r) && HeldOk(r)
  }

  // ---------------------------------------------------------------------------------------
  // Ring arithmetic.

  lemma Shift512(x: int, k: int)
    ensures (x - 512 * k) % 512 == x % 512
  {
    assert x - 512 * k == 512 * (x / 512 - k) + x % 512;
  }

  lemma Shift32(x: int, k: int)
    ensures (x - 32 * k) % 32 == x % 32
  {
    assert x - 32 * k == 32 * (x / 32 - k) + x % 32;
  }

  lemma AddMod512(x: int, a: int)
    ensures (x % 512 + a) % 512 == (x + a) % 512
  {
    Shift512(x + a, x / 512);
  }

  lemma AddMod32(x: int, a: int)
    ensures (x % 32 + a) % 32 == (x + a) % 32
  {
    Shift32(x + a, x / 32);
  }

  /** Within one turn of the ring, places and slots correspond. */
  lemma SlotRank(rd: nat, i: nat)
    requires rd < 64 * 32 && i < 32
    ensures SlotAt(rd, i) < 32 && Rank(rd, SlotAt(rd, i)) == i
    ensures Rank(rd, i) < 32 && SlotAt(rd, Rank(rd, i)) == i
  {
    AddMod32(rd / 64 + i, -(rd / 64));
    AddMod32(i - rd / 64, rd / 64);
  }

  lemma Turn(s: nat)
    requires s < 32
    ensures (64 * s + 64) % (64 * 32) == 64 * ((s + 1) % 32) && 64 * s / 64 == s
  {
  }

  /** The ring one slot further. */
  lemma NextSlot(rd: nat, i: nat)
    requires rd < 64 * 32 && rd % 64 == 0
    ensures SlotAt((rd + 64) % (64 * 32), i) == SlotAt(rd, i + 1)
    ensures (64 * SlotAt(rd, i) + 64) % (64 * 32) == 64 * SlotAt(rd, i + 1) && 64 * SlotAt(rd, i) / 64 == SlotAt(rd, i)
    ensures (rd + 64) % (64 * 32) % 64 == 0 && rd / 64 == SlotAt(rd, 0)
  {
    var s := rd / 64;
    Turn(s);
    Turn((s + 1) % 32);
    Turn((s + i) % 32);
    AddMod32(s + i, 1);
    AddMod32(s + 1, i);
  }

  lemma NextPlace(rd: nat)
    requires rd < 64 * 32 && rd % 64 == 0
    ensures rd / 64 < 32 && (rd + 64) % (64 * 32) / 64 == (rd / 64 + 1) % 32
  {
    var s := rd / 64;
    Turn(s);
    Turn((s + 1) % 32);
  }

  lemma NextRank(rd: nat, x: nat)
    requires rd < 64 * 32 && rd % 64 == 0 && x < 32
    ensures Rank((rd + 64) % (64 * 32), x) == if Rank(rd, x) == 0 then 31 else Rank(rd, x) - 1
    ensures Rank(rd, x) == 0 <==> x == rd / 64
  {
    hide Behind;
    NextPlace(rd);
    BehindStep(rd / 64, x);
  }

  lemma BehindStep(s: nat, x: nat)
    requires s < 32 && x < 32
    ensures Behind((s + 1) % 32, x) == if Behind(s, x) == 0 then 31 else Behind(s, x) - 1
    ensures Behind(s, x) == 0 <==> x == s
  {
    var d := x - s;
    Shift32(d, -1);
    Shift32(x - s - 1, (s + 1) / 32);
    Shift32(d - 1, -1);
  }

  /** No bookkeeping slot is in use twice. */
  lemma SlotsDistinct(r: Ring, i: nat, j: nat)
    requires SlotsOk(r) && i < j < |r.jobs| <= 32
    ensures r.jobs[i].slot < 32 && r.jobs[j].slot < 32 && r.jobs[i].slot != r.jobs[j].slot
  {
    hide SlotAt, Rank;
    SlotRank(First(r), i);
    SlotRank(First(r), j);
  }

  lemma {:induction false} TotalConcat(a: seq<Job>, b: seq<Job>)
    ensures Total(a + b) == Total(a) + Total(b)
  {
    if a == [] {
      assert a + b == b;
    } else {
      assert (a + b)[1..] == a[1..] + b;
      TotalConcat(a[1..], b);
    }
  }

  lemma TotalTail(jobs: seq<Job>, i: nat)
    requires i < |jobs|
    ensures Total(jobs[i..]) == jobs[i].lines + Total(jobs[i + 1..])
  {
    assert jobs[i..][1..] == jobs[i + 1..];
  }

  lemma {:induction false} TotalDrop(jobs: seq<Job>, i: nat, j: nat)
    requires i <= j <= |jobs|
    ensures Total(jobs[j..]) <= Total(jobs[i..]) <= Total(jobs)
    decreases j + i
  {
    if i < j {
      TotalDrop(jobs, i, j - 1);
      TotalTail(jobs, j - 1);
    } else if i > 0 {
      TotalDrop(jobs, i - 1, i - 1);
      TotalTail(jobs, i - 1);
    } else {
    }
  }

  /** The lines of different packets are different, modulo the size of the packet buffer. */
  lemma RegionsDisjoint(r: Ring, i: nat, j: nat, a: nat, b: nat)
    requires Inv(r) && i < j < |r.jobs| && a < r.jobs[i].lines && b < r.jobs[j].lines
    ensures (r.jobs[i].start + a) % 512 != (r.jobs[j].start + b) % 512
  {
    hide Total, LineAt, SlotAt, SlotsOk, BooksOk, DoneOk, HeldOk;
    TotalTail(r.jobs, i);
    TotalTail(r.jobs, j);
    TotalDrop(r.jobs, i + 1, j);
    TotalDrop(r.jobs, i, i);
    Apart(r.wrPkt, Total(r.jobs[i..]), Total(r.jobs[j..]), a, b);
  }

  lemma Apart(w: nat, s: nat, t: nat, a: nat, b: nat)
    requires t <= s <= 512 && a < s - t && b < t
    ensures (LineAt(w, s) + a) % 512 != (LineAt(w, t) + b) % 512
  {
    AddMod512(w / 64 - s, a);
    AddMod512(w / 64 - t, b);
    NotCongruent(w / 64 - s + a, w / 64 - t + b);
  }

  lemma NotCongruent(x: int, y: int)
    requires 0 < y - x < 512
    ensures x % 512 != y % 512
  {
  }

  // ---------------------------------------------------------------------------------------
  // Every step keeps the invariant.

  /** 64 bytes to a line. */
  lemma Scaled(l: nat)
    ensures 64 * l % (64 * 512) == 64 * (l % 512)
    ensures 64 * (l % 512) % 64 == 0 && 64 * (l % 512) / 64 == l % 512
  {
    var q := l / 512;
    assert 64 * l == 64 * (l % 512) + (64 * 512) * q;
  }

  lemma NextLine(w: nat, t: nat, n: nat)
    requires w % 64 == 0 && w < 64 * 512
    ensures var w' := (w + 64 * n) % (64 * 512);
      w' % 64 == 0 && LineAt(w', t + n) == LineAt(w, t) && LineAt(w', n) == w / 64
  {
    var l := w / 64;
    Scaled(l + n);
    Shift512(l - t, (l + n) / 512);
    Shift512(l, (l + n) / 512);
  }

  lemma ReserveStarts(r: Ring, skb: nat, lines: nat)
    requires StartsOk(r) && Fits(r, lines)
    ensures StartsOk(Reserving(r, skb, lines))
  {
    hide LineAt;
    var t := Reserving(r, skb, lines);
    NextLine(r.wrPkt, 0, lines);
    forall i | 0 <= i < |t.jobs|
      ensures t.jobs[i].start == LineAt(t.wrPkt, Total(t.jobs[i..]))
    {
      var last := t.jobs[|r.jobs|..];
      assert last == [t.jobs[|r.jobs|]] && Total(last) == lines;
      if i < |r.jobs| {
        assert t.jobs[i..] == r.jobs[i..] + last;
        TotalConcat(r.jobs[i..], last);
        NextLine(r.wrPkt, Total(r.jobs[i..]), lines);
      }
    }
  }

  lemma ReserveRest(r: Ring, skb: nat, lines: nat)
    requires SlotsOk(r) && CountsOk(r) && BooksOk(r) && DoneOk(r) && HeldOk(r) && Fits(r, lines)
    ensures var t := Reserving(r, skb, lines);
      SlotsOk(t) && CountsOk(t) && BooksOk(t) && DoneOk(t) && HeldOk(t)
  {
    hide SlotAt, Rank;
    NextSlot(First(r), |r.jobs|);
    var t := Reserving(r, skb, lines);
    TotalConcat(r.jobs, [t.jobs[|r.jobs|]]);
  }

  lemma BookkeepKeeps(r: Ring, k: nat)
    requires Inv(r)
    ensures Inv(Bookkeeping(r, k))
  {
    hide SlotAt, Rank, LineAt, Total;
    if k < |r.jobs| {
      PhaseChange(r, k, Booked);
      BookkeepDone(r, k);
      BookkeepBooks(r, k);
    }
  }

  lemma BookkeepBooks(r: Ring, k: nat)
    requires SlotsOk(r) && CountsOk(r) && BooksOk(r) && k < |r.jobs|
    ensures BooksOk(Bookkeeping(r, k))
  {
    hide SlotAt, Rank, Total, First;
    var t := Bookkeeping(r, k);
    forall i | 0 <= i < |t.jobs| && !t.jobs[i].phase.Reserved? && !t.jobs[i].phase.Released?
      ensures t.jobs[i].slot < |t.bk| && t.bk[t.jobs[i].slot] == Book(t.jobs[i].skb, t.jobs[i].lines)
    {
      if i < k { SlotsDistinct(r, i, k); } else if i > k { SlotsDistinct(r, k, i); }
    }
  }

  lemma BookkeepDone(r: Ring, k: nat)
    requires DoneOk(r)
    ensures DoneOk(Bookkeeping(r, k))
  {
    hide SlotAt, Rank;
  }

  lemma SameFirst(r: Ring, jobs: seq<Job>)
    ensures First(r.(jobs := jobs)) == First(r)
  {
  }

  /** A change of phase leaves places and sizes alone. */
  lemma PhaseChange(r: Ring, k: nat, phase: Phase)
    requires k < |r.jobs|
    ensures var t := r.(jobs := r.jobs[k := r.jobs[k].(phase := phase)]);
      && (SlotsOk(r) ==> SlotsOk(t)) && (StartsOk(r) ==> StartsOk(t)) && (CountsOk(r) ==> CountsOk(t))
  {
    hide SlotAt, Rank, LineAt, Total, First;
    var t := r.(jobs := r.jobs[k := r.jobs[k].(phase := phase)]);
    assert First(t) == First(r) by { SameFirst(r, t.jobs); }
    forall i | 0 <= i <= |r.jobs|
      ensures Total(t.jobs[i..]) == Total(r.jobs[i..])
    {
      TotalSame(r.jobs[i..], t.jobs[i..]);
    }
    assert t.jobs[0..] == t.jobs && r.jobs[0..] == r.jobs;
  }

  lemma {:induction false} TotalSame(a: seq<Job>, b: seq<Job>)
    requires |a| == |b| && forall i :: 0 <= i < |a| ==> a[i].lines == b[i].lines
    ensures Total(a) == Total(b)
  {
    if a == [] {
    } else {
      TotalSame(a[1..], b[1..]);
    }
  }

  lemma PostKeeps(r: Ring, k: nat)
    requires Inv(r)
    ensures Inv(Posting(r, k))
  {
    hide SlotAt, Rank, LineAt, Total, StartsOk;
    if k < |r.jobs| {
      PhaseChange(r, k, Posted);
    }
  }

  lemma NextForCardUnique(r: Ring, k: nat)
    requires DoneOk(r) && k < |r.jobs|
    ensures Finished(r.jobs[k].phase) <==> k < NextForCard(r.jobs)
  {
    hide Rank;
  }

  lemma CompleteKeeps(r: Ring)
    requires Inv(r)
    ensures Inv(Completing(r))
  {
    hide SlotAt, Rank, LineAt, Total, NextForCard;
    var n := NextForCard(r.jobs);
    if n < |r.jobs| && r.jobs[n].phase.Posted? {
      PhaseChange(r, n, Completed);
      SlotRank(First(r), n);
      CompleteDone(r, n);
    }
  }

  lemma CompleteDone(r: Ring, n: nat)
    requires SlotsOk(r) && CountsOk(r) && DoneOk(r) && n == NextForCard(r.jobs) < |r.jobs| && r.jobs[n].phase.Posted?
    ensures DoneOk(Completing(r))
  {
    hide SlotAt, Rank, NextForCard;
    var t := Completing(r);
    SlotRank(First(r), n);
    forall i | 0 <= i < |r.jobs|
      ensures Finished(t.jobs[i].phase) <==> i <= n
    {
      NextForCardUnique(r, i);
    }
    forall x | 0 <= x < 32
      ensures t.dne[x] <==> Marked(t, x)
    {
      SlotRank(First(r), x);
      SlotRank(First(r), Rank(First(r), x));
    }
  }

  /** A mark that an idle handler finds belongs to the oldest packet, and so do the books. */
  lemma TakeFinds(r: Ring)
    requires Inv(r) && r.pc.Idle?
    ensures var i := r.rd / 64;
      && i < 32 && (r.dne[i] <==> r.jobs != [] && r.jobs[0].phase.Completed?)
      && (r.dne[i] ==> r.bk[i] == Book(r.jobs[0].skb, r.jobs[0].lines))
  {
    hide Total, LineAt;
    NextRank(r.rd, r.rd / 64);
    NextSlot(r.rd, 0);
    hide SlotAt, Rank;
  }

  /** The packet the handler holds has the slot, and the books, that it goes by. */
  lemma HeldFinds(r: Ring)
    requires Inv(r) && Held(r)
    ensures r.pc.index < 32 && r.jobs != [] && r.jobs[0].slot == r.pc.index
    ensures r.pc.Found? ==> r.bk[r.pc.index] == Book(r.jobs[0].skb, r.jobs[0].lines)
  {
    hide Total, LineAt, Rank, StartsOk, DoneOk;
    NextSlot(First(r), 0);
  }

  lemma TakeKeeps(r: Ring)
    requires Inv(r)
    ensures Inv(Taking(r))
  {
    hide SlotAt, Rank, LineAt, Total;
    if r.pc.Idle? && r.dne[r.rd / 64] {
      TakeFinds(r);
      TakePlace(r);
      PhaseChange(r, 0, Taken);
      TakeDone(r);
    }
  }

  /** The read pointer moves on, the oldest packet keeps its slot. */
  lemma TakePlace(r: Ring)
    requires SlotsOk(r) && CountsOk(r) && r.pc.Idle? && r.rd / 64 < 32
    ensures 64 * (r.rd / 64) == r.rd && (r.dne[r.rd / 64] ==> First(Taking(r)) == First(r))
    ensures (r.rd + 64) % (64 * 32) == 64 * ((r.rd / 64 + 1) % 32) && (r.rd + 64) % (64 * 32) % 64 == 0
  {
    Turn(r.rd / 64);
  }

  lemma TakeDone(r: Ring)
    requires SlotsOk(r) && CountsOk(r) && DoneOk(r) && r.pc.Idle? && r.rd / 64 < 32 && r.dne[r.rd / 64]
    requires r.jobs != [] && r.jobs[0].phase.Completed?
    ensures DoneOk(Taking(r))
  {
    hide Rank, SlotAt;
    TakePlace(r);
    var t := Taking(r);
    forall x | 0 <= x < 32
      ensures t.dne[x] <==> Marked(t, x)
    {
      NextRank(r.rd, x);
    }
  }

  lemma ReturnLinesKeeps(r: Ring)
    requires Inv(r)
    ensures Inv(ReturningLines(r))
  {
    hide SlotAt, Rank, LineAt, Total;
    if r.pc.Found? {
      HeldFinds(r);
      EmptiedStarts(r);
      EmptiedTotal(r.jobs);
    }
  }

  lemma EmptiedTotal(jobs: seq<Job>)
    requires jobs != []
    ensures var t := jobs[0 := Emptied(jobs[0])];
      && Total(t) == Total(jobs) - jobs[0].lines == Total(jobs[1..])
      && forall i :: 0 < i < |t| ==> t[i..] == jobs[i..]
  {
    assert jobs[0 := Emptied(jobs[0])][1..] == jobs[1..];
  }

  lemma EmptiedStarts(r: Ring)
    requires StartsOk(r) && r.jobs != []
    ensures StartsOk(r.(jobs := r.jobs[0 := Emptied(r.jobs[0])]))
  {
    var t := r.(jobs := r.jobs[0 := Emptied(r.jobs[0])]);
    EmptiedTotal(r.jobs);
    assert r.jobs[0..] == r.jobs && t.jobs[0..] == t.jobs;
    AddMod512(r.wrPkt / 64 - Total(r.jobs), r.jobs[0].lines);
    hide Total;
  }

  lemma ReturnSlotKeeps(r: Ring)
    requires Inv(r)
    ensures Inv(ReturningSlot(r))
  {
    hide SlotAt, Rank, LineAt, Total;
    if r.pc.LinesBack? {
      HeldFinds(r);
      ReturnSlotPlaces(r);
      ReturnSlotStarts(r);
      ReturnSlotDone(r);
      ReturnSlotBooks(r);
    }
  }

  lemma ReturnSlotPlaces(r: Ring)
    requires SlotsOk(r) && CountsOk(r) && HeldOk(r) && r.pc.LinesBack? && r.jobs != []
    requires r.jobs[0].lines == 0
    ensures SlotsOk(ReturningSlot(r)) && CountsOk(ReturningSlot(r))
  {
    hide SlotAt, Rank;
    var t := ReturningSlot(r);
    Turn(r.pc.index);
    NextSlot(First(r), |t.jobs|);
    forall i | 0 <= i < |t.jobs|
      ensures t.jobs[i].slot == SlotAt(t.rd, i)
    {
      NextSlot(First(r), i);
    }
  }

  lemma ReturnSlotStarts(r: Ring)
    requires StartsOk(r)
    ensures StartsOk(ReturningSlot(r))
  {
    hide LineAt, Total;
    var t := ReturningSlot(r);
    if t != r {
      forall i | 0 <= i < |t.jobs|
        ensures t.jobs[i].start == LineAt(t.wrPkt, Total(t.jobs[i..]))
      {
        assert t.jobs[i..] == r.jobs[i + 1..];
      }
    }
  }

  lemma ReturnSlotBooks(r: Ring)
    requires BooksOk(r) && HeldOk(r) && r.pc.LinesBack?
    ensures BooksOk(ReturningSlot(r)) && HeldOk(ReturningSlot(r))
  {
    var t := ReturningSlot(r);
    forall i | 0 <= i < |t.jobs|
      ensures t.jobs[i] == r.jobs[i + 1]
    {
    }
  }

  lemma ReturnSlotDone(r: Ring)
    requires SlotsOk(r) && CountsOk(r) && DoneOk(r) && HeldOk(r) && r.pc.LinesBack?
    ensures DoneOk(ReturningSlot(r))
  {
    hide Rank, SlotAt;
    var t := ReturningSlot(r);
    forall i, j | 0 <= i < j < |t.jobs| && Finished(t.jobs[j].phase)
      ensures Finished(t.jobs[i].phase)
    {
      assert Finished(r.jobs[j + 1].phase) && t.jobs[i] == r.jobs[i + 1];
    }
    Turn(r.pc.index);
    forall x | 0 <= x < 32
      ensures t.dne[x] <==> Marked(t, x)
    {
      NextRank(First(r), x);
    }
  }

  lemma ClearKeeps(r: Ring)
    requires Inv(r)
    ensures Inv(Clearing(r))
  {
    hide SlotAt, Rank, LineAt, Total;
    if r.pc.SlotBack? {
      if LosesMark(r) {
        PhaseChange(r, 31, Lost);
      }
      ClearDone(r);
    }
  }

  lemma ClearDone(r: Ring)
    requires SlotsOk(r) && CountsOk(r) && DoneOk(r) && r.pc.SlotBack?
    ensures DoneOk(Clearing(r))
  {
    hide Rank, SlotAt;
    var t := Clearing(r);
    forall x | 0 <= x < 32
      ensures t.dne[x] <==> Marked(t, x)
    {
      Turn(r.pc.index);
      NextRank(64 * r.pc.index, x);
      SlotRank(64 * r.pc.index, x);
    }
  }

  // ---------------------------------------------------------------------------------------
  // Any interleaving.

  lemma StepKeeps(r: Ring, e: Event)
    requires Inv(r)
    ensures Inv(Step(r, e))
  {
    hide StartsOk, SlotsOk, CountsOk, BooksOk, DoneOk, HeldOk, Taking, ReturningLines, ReturningSlot, Clearing;
    match e
    case Reserve(skb, lines) =>
      if Fits(r, lines) {
        ReserveStarts(r, skb, lines);
        ReserveRest(r, skb, lines);
      }
    case Bookkeep(k) => BookkeepKeeps(r, k);
    case Post(k) => PostKeeps(r, k);
    case Complete => CompleteKeeps(r);
    case Take => TakeKeeps(r);
    case ReturnLines => ReturnLinesKeeps(r);
    case ReturnSlot => ReturnSlotKeeps(r);
    case ClearMark => ClearKeeps(r);
  }

  /** What the invariant says of sizes and indices. */
  lemma Facts(r: Ring)
    requires Inv(r)
    ensures |r.bk| == |r.dne| == 32 && r.cntDsc == |r.jobs| <= 32 && r.cntPkt <= 512
    ensures (!r.pc.Idle? ==> r.pc.index < 32) && (Held(r) ==> r.jobs != [])
    ensures forall i :: 0 <= i < |r.jobs| ==>
      r.jobs[i].slot < 32 && (r.jobs[i].phase.Taken? || r.jobs[i].phase.Released? <==> i == 0 && Held(r))
  {
    hide Total, SlotAt, Rank, StartsOk, BooksOk, DoneOk;
    forall i | 0 <= i < |r.jobs| ensures r.jobs[i].slot < 32 {
      SlotRank(First(r), i);
    }
  }

  function Skbs(jobs: seq<Job>): (s: seq<nat>)
    ensures |s| == |jobs| && forall i :: 0 <= i < |jobs| ==> s[i] == jobs[i].skb
  {
    seq(|jobs|, i requires 0 <= i < |jobs| => jobs[i].skb)
  }

  /** The buffers that a history hands to the ring. */
  function Accepted(r: Ring, es: seq<Event>): seq<nat>
    decreases |es|
  {
    if es == [] then []
    else (if es[0].Reserve? && Fits(r, es[0].lines) then [es[0].skb] else []) + Accepted(Step(r, es[0]), es[1..])
  }

  /** The packets whose buffers are not freed. */
  function Waiting(r: Ring): seq<Job> {
    if Held(r) && r.jobs != [] then r.jobs[1..] else r.jobs
  }

  /** Freed and under way: a step adds what it reserves and takes nothing away. */
  lemma StepAccounts(r: Ring, e: Event)
    requires Inv(r)
    ensures var t := Step(r, e);
      t.freed + Skbs(Waiting(t)) == r.freed + Skbs(Waiting(r)) + if e.Reserve? && Fits(r, e.lines) then [e.skb] else []
  {
    hide Inv, Total, NextForCard, Skbs;
    if e.Take? {
      TakeAccounts(r);
    } else {
      WaitingSame(r, e);
      var t := Step(r, e);
      if e.Reserve? && Fits(r, e.lines) {
        var j := Job(e.skb, r.wrDsc / 64, r.wrPkt / 64, e.lines, Reserved);
        SkbsSame(Waiting(t), Waiting(r) + [j]);
        SkbsSnoc(Waiting(r), j);
        assert r.freed + (Skbs(Waiting(r)) + [e.skb]) == r.freed + Skbs(Waiting(r)) + [e.skb];
      } else {
        SkbsSame(Waiting(r), Waiting(t));
      }
    }
  }

  /** Only taking a completion changes which buffers wait, and a reservation adds one. */
  lemma WaitingSame(r: Ring, e: Event)
    requires Inv(r) && !e.Take?
    ensures var t := Step(r, e);
      && t.freed == r.freed
      && (if e.Reserve? && Fits(r, e.lines) then
            Waiting(t) == Waiting(r) + [Job(e.skb, r.wrDsc / 64, r.wrPkt / 64, e.lines, Reserved)]
          else |Waiting(t)| == |Waiting(r)| && forall i :: 0 <= i < |Waiting(r)| ==> Waiting(t)[i].skb == Waiting(r)[i].skb)
  {
    hide Inv, NextForCard;
    Facts(r);
  }

  lemma TakeAccounts(r: Ring)
    requires Inv(r)
    ensures Taking(r).freed + Skbs(Waiting(Taking(r))) == r.freed + Skbs(Waiting(r)) + []
  {
    hide Inv, Skbs;
    Facts(r);
    if r.pc.Idle? {
      TakeFinds(r);
      if r.dne[r.rd / 64] {
        var t := Taking(r);
        SkbsFirst(r.jobs);
        assert Waiting(t) == r.jobs[1..];
        assert r.freed + [r.jobs[0].skb] + Skbs(r.jobs[1..]) == r.freed + ([r.jobs[0].skb] + Skbs(r.jobs[1..]));
      }
    }
  }

  lemma SkbsFirst(jobs: seq<Job>)
    requires jobs != []
    ensures Skbs(jobs) == [jobs[0].skb] + Skbs(jobs[1..])
  {
  }

  lemma SkbsSnoc(jobs: seq<Job>, j: Job)
    ensures Skbs(jobs + [j]) == Skbs(jobs) + [j.skb]
  {
  }

  lemma SkbsSame(a: seq<Job>, b: seq<Job>)
    requires |a| == |b| && forall i :: 0 <= i < |a| ==> a[i].skb == b[i].skb
    ensures Skbs(a) == Skbs(b)
  {
  }

  /** In every interleaving the invariant holds, and the buffers are freed in the order in which
      they were accepted, each once and none before the card has completed it. */
  lemma {:induction false} RunKeeps(r: Ring, es: seq<Event>)
    requires Inv(r)
    ensures var t := Run(r, es);
      Inv(t) && t.freed + Skbs(Waiting(t)) == r.freed + Skbs(Waiting(r)) + Accepted(r, es)
    decreases |es|
  {
    hide Inv, Step, Fits, Waiting, Skbs;
    if es == [] {
      assert r.freed + Skbs(Waiting(r)) + [] == r.freed + Skbs(Waiting(r));
    } else {
      StepKeeps(r, es[0]);
      StepAccounts(r, es[0]);
      RunKeeps(Step(r, es[0]), es[1..]);
      var x, y, z := r.freed + Skbs(Waiting(r)), if es[0].Reserve? && Fits(r, es[0].lines) then [es[0].skb] else [],
                     Accepted(Step(r, es[0]), es[1..]);
      assert x + y + z == x + (y + z);
    }
  }

  // ---------------------------------------------------------------------------------------
  // Lost completions.

  /** Every completed packet is marked, or the handler holds it. */
  ghost predicate NoneLost(r: Ring) {
    forall i :: 0 <= i < |r.jobs| ==> !r.jobs[i].phase.Lost?
  }

  /** No mark is cleared while the packet that now has the slot is completed. */
  ghost predicate MarksKept(r: Ring, es: seq<Event>)
    decreases |es|
  {
    es == [] || (!(es[0].ClearMark? && LosesMark(r)) && MarksKept(Step(r, es[0]), es[1..]))
  }

  lemma StepLoses(r: Ring, e: Event)
    requires Inv(r) && NoneLost(r)
    ensures NoneLost(Step(r, e)) <==> !(e.ClearMark? && LosesMark(r))
  {
    hide Inv, NextForCard;
    Facts(r);
    if e.ClearMark? && LosesMark(r) {
      assert Step(r, e).jobs[31].phase.Lost?;
    }
  }

  /** How many buffers are to be freed before that of packet `k`. */
  function Ahead(r: Ring, k: nat): int {
    if Held(r) then k - 1 else k
  }

  /** The handler never gets past a packet whose mark is lost: it stays where it is, and at most
      the buffers in front of it are freed. */
  lemma LostStep(r: Ring, e: Event, k: nat) returns (k': nat)
    requires Inv(r) && k < |r.jobs| && r.jobs[k].phase.Lost?
    ensures var t := Step(r, e);
      k' < |t.jobs| && t.jobs[k'] == r.jobs[k] && |t.freed| + Ahead(t, k') == |r.freed| + Ahead(r, k)
  {
    hide Inv, NextForCard;
    Facts(r);
    k' := if e.ReturnSlot? && r.pc.LinesBack? then k - 1 else k;
    if e.Take? {
      if r.pc.Idle? {
        TakeFinds(r);
      }
    }
  }

  lemma {:induction false} LostForGood(r: Ring, es: seq<Event>, k: nat) returns (k': nat)
    requires Inv(r) && k < |r.jobs| && r.jobs[k].phase.Lost?
    ensures var t := Run(r, es);
      k' < |t.jobs| && t.jobs[k'] == r.jobs[k] && |t.freed| + Ahead(t, k') == |r.freed| + Ahead(r, k)
      && 0 <= Ahead(t, k')
    decreases |es|
  {
    hide Step, Inv;
    if es == [] {
      k' := k;
      Facts(r);
    } else {
      StepKeeps(r, es[0]);
      k' := LostStep(r, es[0], k);
      k' := LostForGood(Step(r, es[0]), es[1..], k');
    }
  }

  /** No completion is ever lost if and only if no mark is cleared under a completed packet. */
  lemma {:induction false} NoneLostIff(r: Ring, es: seq<Event>)
    requires Inv(r) && NoneLost(r)
    ensures NoneLost(Run(r, es)) <==> MarksKept(r, es)
    decreases |es|
  {
    hide Inv, Step, LosesMark;
    if es == [] {
    } else {
      StepLoses(r, es[0]);
      StepKeeps(r, es[0]);
      var s := Step(r, es[0]);
      if NoneLost(s) {
        NoneLostIff(s, es[1..]);
      } else {
        var k :| 0 <= k < |s.jobs| && s.jobs[k].phase.Lost?;
        var k' := LostForGood(s, es[1..], k);
        assert Run(s, es[1..]).jobs[k'].phase.Lost?;
      }
    }
  }

  /** The rings as nf10_probe sets them up. */
  function NewRing(): Ring {
    Ring(0, 0, 0, 0, 0, seq(32, _ => Book(0, 0)), seq(32, _ => false), [], [], Idle)
  }

  lemma NewRingInv()
    ensures Inv(NewRing())
  {
  }

  // ---------------------------------------------------------------------------------------
  // A history that loses a completion: while the handler is about to clear the mark of slot 0,
  // the rest of the ring is completed, and a new packet in slot 0 as well.

  /** `n` packets of two lines, each booked and posted at once; there are `p` already. */
  function Sends(p: nat, n: nat): seq<Event> {
    if n == 0 then [] else Sends(p, n - 1) + [Reserve(p + n - 1, 2), Bookkeep(p + n - 1), Post(p + n - 1)]
  }

  function Completes(n: nat): seq<Event> {
    if n == 0 then [] else Completes(n - 1) + [Complete]
  }

  function LostHistory(): seq<Event> {
    Sends(0, 32) + Completes(1) + [Take, ReturnLines, ReturnSlot] + Sends(31, 1) + Completes(32) + [ClearMark]
  }

  /** `n` packets of two lines, the first `done` completed and the others posted. */
  ghost predicate Row(r: Ring, done: nat, n: nat) {
    && Inv(r) && |r.jobs| == n && r.cntPkt == 2 * n && !Held(r)
    && forall i :: 0 <= i < n ==> r.jobs[i].lines == 2 && r.jobs[i].phase == if i < done then Completed else Posted
  }

  lemma {:induction false} RunConcat(r: Ring, a: seq<Event>, b: seq<Event>)
    ensures Run(r, a + b) == Run(Run(r, a), b)
    decreases |a|
  {
    hide Step;
    if a == [] {
      assert a + b == b;
    } else {
      assert (a + b)[1..] == a[1..] + b;
      RunConcat(Step(r, a[0]), a[1..], b);
    }
  }

  lemma RunOne(r: Ring, e: Event)
    ensures Run(r, [e]) == Step(r, e)
  {
    assert [e][1..] == [];
  }

  lemma RunThree(r: Ring, a: Event, b: Event, c: Event)
    ensures Run(r, [a, b, c]) == Step(Step(Step(r, a), b), c)
  {
    hide Step;
    assert [a, b, c] == [a] + ([b] + [c]);
    RunConcat(r, [a], [b] + [c]);
    RunConcat(Step(r, a), [b], [c]);
    RunOne(r, a);
    RunOne(Step(r, a), b);
    RunOne(Step(Step(r, a), b), c);
  }

  lemma SendOne(r: Ring, n: nat)
    requires Row(r, 0, n) && n < 32
    ensures var t := Run(r, [Reserve(n, 2), Bookkeep(n), Post(n)]);
      Row(t, 0, n + 1) && t.pc == r.pc && t.dne == r.dne
  {
    hide Inv, Run;
    RunThree(r, Reserve(n, 2), Bookkeep(n), Post(n));
    Facts(r);
    StepKeeps(r, Reserve(n, 2));
    var a := Step(r, Reserve(n, 2));
    Facts(a);
    StepKeeps(a, Bookkeep(n));
    var b := Step(a, Bookkeep(n));
    StepKeeps(b, Post(n));
  }

  lemma {:induction false} SendMany(r: Ring, p: nat, n: nat)
    requires Row(r, 0, p) && p + n <= 32
    ensures var t := Run(r, Sends(p, n));
      Row(t, 0, p + n) && t.pc == r.pc
    decreases n
  {
    hide Row, Run;
    if n == 0 {
      RunNone(r);
    } else {
      SendMany(r, p, n - 1);
      var t := Run(r, Sends(p, n - 1));
      RunConcat(r, Sends(p, n - 1), [Reserve(p + n - 1, 2), Bookkeep(p + n - 1), Post(p + n - 1)]);
      SendOne(t, p + n - 1);
    }
  }

  lemma RunNone(r: Ring)
    ensures Run(r, []) == r
  {
  }

  lemma CompleteOne(r: Ring, done: nat, n: nat)
    requires Row(r, done, n) && done < n
    ensures Row(Step(r, Complete), done + 1, n) && Step(r, Complete).pc == r.pc
  {
    hide Inv, NextForCard;
    Facts(r);
    StepKeeps(r, Complete);
    NextIs(r.jobs, done);
  }

  lemma {:induction false} NextIs(jobs: seq<Job>, n: nat)
    requires n < |jobs| && !Finished(jobs[n].phase) && forall i :: 0 <= i < n ==> Finished(jobs[i].phase)
    ensures NextForCard(jobs) == n
  {
    if n == 0 {
    } else {
      NextIs(jobs[1..], n - 1);
    }
  }

  lemma {:induction false} CompleteMany(r: Ring, m: nat, n: nat)
    requires Row(r, 0, n) && m <= n
    ensures var t := Run(r, Completes(m));
      Row(t, m, n) && t.pc == r.pc
    decreases m
  {
    hide Row, Run, Step;
    if m == 0 {
      RunNone(r);
    } else {
      CompleteMany(r, m - 1, n);
      RunConcat(r, Completes(m - 1), [Complete]);
      RunOne(Run(r, Completes(m - 1)), Complete);
      CompleteOne(Run(r, Completes(m - 1)), m - 1, n);
    }
  }

  lemma TakeOne(r: Ring, n: nat)
    requires Row(r, 1, n) && n > 0 && r.pc.Idle?
    ensures var t := Run(r, [Take, ReturnLines, ReturnSlot]);
      Row(t, 0, n - 1) && t.pc.SlotBack?
  {
    hide Inv, Run;
    RunThree(r, Take, ReturnLines, ReturnSlot);
    Facts(r);
    TakeFinds(r);
    StepKeeps(r, Take);
    var a := Step(r, Take);
    HeldFinds(a);
    Facts(a);
    StepKeeps(a, ReturnLines);
    var b := Step(a, ReturnLines);
    StepKeeps(b, ReturnSlot);
  }

  /** The completion of the packet in slot 0 is lost. */
  lemma LostHistoryLoses()
    ensures Inv(Run(NewRing(), LostHistory())) && !NoneLost(Run(NewRing(), LostHistory()))
  {
    hide Run, Row, Step, Inv, Sends, Completes, Held;
    var r := NewRing();
    NewRow();
    SendMany(r, 0, 32);
    var a := Run(r, Sends(0, 32));
    CompleteMany(a, 1, 32);
    var b := Run(a, Completes(1));
    TakeOne(b, 32);
    var c := Run(b, [Take, ReturnLines, ReturnSlot]);
    SendMany(c, 31, 1);
    var d := Run(c, Sends(31, 1));
    CompleteMany(d, 32, 32);
    var e := Run(d, Completes(32));
    RunConcat(r, Sends(0, 32), Completes(1));
    RunConcat(r, Sends(0, 32) + Completes(1), [Take, ReturnLines, ReturnSlot]);
    RunConcat(r, Sends(0, 32) + Completes(1) + [Take, ReturnLines, ReturnSlot], Sends(31, 1));
    RunConcat(r, Sends(0, 32) + Completes(1) + [Take, ReturnLines, ReturnSlot] + Sends(31, 1), Completes(32));
    RunConcat(r, Sends(0, 32) + Completes(1) + [Take, ReturnLines, ReturnSlot] + Sends(31, 1) + Completes(32), [ClearMark]);
    RunOne(e, ClearMark);
    LastLoses(e);
  }

  lemma NewRow()
    ensures Row(NewRing(), 0, 0) && NewRing().pc.Idle?
  {
    NewRingInv();
  }

  lemma LastLoses(r: Ring)
    requires Row(r, 32, 32) && r.pc.SlotBack?
    ensures Inv(Step(r, ClearMark)) && !NoneLost(Step(r, ClearMark))
  {
    hide Inv;
    StepKeeps(r, ClearMark);
    Facts(r);
    assert Step(r, ClearMark).jobs[31].phase.Lost?;
  }
}
