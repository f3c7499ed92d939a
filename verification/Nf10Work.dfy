/**
  The polling loop of the NetFPGA driver.  It takes completions from the transmit and receive
  rings with the card's interrupts switched off while there is work, and goes on until a pass
  made with interrupts on has found both rings empty.  The card writes completions at any time.
 */
module Nf10Work {
  /** What the card writes in one pass: before the transmit ring is read, between the two reads,
      and after the second one, which is where interrupts may be switched. */
  datatype Arrivals = Arrivals(tx0: nat, rx0: nat, tx1: nat, rx1: nat, tx2: nat, rx2: nat)

  function TxOf(a: Arrivals): nat { a.tx0 + a.tx1 + a.tx2 }
  function RxOf(a: Arrivals): nat { a.rx0 + a.rx1 + a.rx2 }

  function TxSum(card: seq<Arrivals>): nat {
    if card == [] then 0 else TxOf(card[0]) + TxSum(card[1..])
  }

  function RxSum(card: seq<Arrivals>): nat {
    if card == [] then 0 else RxOf(card[0]) + RxSum(card[1..])
  }

  /** What arrives in the first `n` passes. */
  function Upto(card: seq<Arrivals>, n: nat): seq<Arrivals> {
    if n < |card| then card[..n] else card
  }

  function InPass(card: seq<Arrivals>, n: nat): Arrivals {
    if n < |card| then card[n] else Arrivals(0, 0, 0, 0, 0, 0)
  }

  lemma {:induction false} SumSnoc(card: seq<Arrivals>, a: Arrivals)
    ensures TxSum(card + [a]) == TxSum(card) + TxOf(a)
    ensures RxSum(card + [a]) == RxSum(card) + RxOf(a)
  {
    if card == [] {
      assert [] + [a] == [a] && [a][1..] == [];
    } else {
      assert (card + [a])[1..] == card[1..] + [a];
      SumSnoc(card[1..], a);
    }
  }

  lemma {:induction false} SumPrefix(card: seq<Arrivals>, n: nat)
    requires n <= |card|
    ensures TxSum(card[..n]) <= TxSum(card) && RxSum(card[..n]) <= RxSum(card)
    decreases |card| - n
  {
    if n < |card| {
      assert card[..n + 1] == card[..n] + [card[n]];
      SumSnoc(card[..n], card[n]);
      SumPrefix(card, n + 1);
    } else {
      assert card[..n] == card;
    }
  }

  lemma NextPass(card: seq<Arrivals>, n: nat)
    ensures TxSum(Upto(card, n + 1)) == TxSum(Upto(card, n)) + TxOf(InPass(card, n))
    ensures RxSum(Upto(card, n + 1)) == RxSum(Upto(card, n)) + RxOf(InPass(card, n))
    ensures TxSum(Upto(card, n + 1)) <= TxSum(card) && RxSum(Upto(card, n + 1)) <= RxSum(card)
  {
    hide TxSum, RxSum, Upto;
    if n < |card| {
      NextOfCard(card, n);
    } else {
      UptoEnd(card, n);
    }
  }

  lemma NextOfCard(card: seq<Arrivals>, n: nat)
    requires n < |card|
    ensures TxSum(Upto(card, n + 1)) == TxSum(Upto(card, n)) + TxOf(card[n])
    ensures RxSum(Upto(card, n + 1)) == RxSum(Upto(card, n)) + RxOf(card[n])
    ensures TxSum(Upto(card, n + 1)) <= TxSum(card) && RxSum(Upto(card, n + 1)) <= RxSum(card)
  {
    SumSnoc(card[..n], card[n]);
    SumPrefix(card, n + 1);
    UptoNext(card, n);
    hide *;
  }

  lemma UptoEnd(card: seq<Arrivals>, n: nat)
    requires n >= |card|
    ensures Upto(card, n + 1) == Upto(card, n) == card
  {
  }

  lemma UptoNext(card: seq<Arrivals>, n: nat)
    requires n < |card|
    ensures Upto(card, n + 1) == card[..n] + [card[n]] == card[..n + 1] && Upto(card, n) == card[..n]
  {
  }

  lemma NothingYet(card: seq<Arrivals>)
    ensures TxSum(Upto(card, 0)) == 0 && RxSum(Upto(card, 0)) == 0
  {
  }

  /** The card's side: completions not yet taken, interrupts on or off, an interrupt raised in
      this pass. */
  datatype Status = Status(tx: nat, rx: nat, enabled: bool, raised: bool)

  /** The card writes completions, and raises an interrupt if it may. */
  function Write(c: Status, tx: nat, rx: nat): Status {
    c.(tx := c.tx + tx, rx := c.rx + rx, raised := c.raised || (c.enabled && tx + rx > 0))
  }

  /** After a pass with interrupts on that has found both rings empty. */
  predicate LastPass(c: Status, a: Arrivals) {
    c.tx == a.tx1 + a.tx2 && c.rx == a.rx2 && (c.raised <==> TxOf(a) + RxOf(a) > 0)
  }

  /** work_handler.  `card` says what arrives in each pass; after that nothing does.  The last
      pass, made with interrupts on, finds both rings empty: what is left at the end arrived in
      it behind the look at its ring, and has raised an interrupt. */
  method WorkHandler(card: seq<Arrivals>, start: Status)
      returns (end: Status, txTaken: nat, rxTaken: nat, passes: nat)
    requires start.enabled
    ensures end.enabled && passes > 0
    ensures var last := InPass(card, passes - 1);
      && end.tx == last.tx1 + last.tx2 && end.rx == last.rx2
      && (end.raised <==> TxOf(last) + RxOf(last) > 0)
    ensures end.tx + end.rx > 0 ==> end.raised
    ensures end.tx + txTaken == start.tx + TxSum(Upto(card, passes))
    ensures end.rx + rxTaken == start.rx + RxSum(Upto(card, passes))
  {
    hide TxSum, RxSum, Upto, InPass;
    NothingYet(card);
    var c := start;
    txTaken, rxTaken, passes := 0, 0, 0;
    var workCounter, tcnt, intEnabled := 0, 1, true;
    while tcnt > 0
      invariant c.enabled == intEnabled && tcnt >= 0
      invariant intEnabled ==> (workCounter == 0 && tcnt <= 1) || (workCounter == 1 && tcnt in {0, 2})
      invariant !intEnabled ==> tcnt >= 2
      invariant tcnt == 0 ==> intEnabled && passes > 0 && LastPass(c, InPass(card, passes - 1))
      invariant c.tx + txTaken == start.tx + TxSum(Upto(card, passes))
      invariant c.rx + rxTaken == start.rx + RxSum(Upto(card, passes))
      decreases start.tx + TxSum(card) - txTaken + start.rx + RxSum(card) - rxTaken,
                if tcnt == 0 then 0 else if intEnabled && workCounter == 0 then 1 else tcnt + 2
    {
      if intEnabled && workCounter > 0 {
        intEnabled := false;
        c := c.(enabled := false);
      }
      c := c.(raised := false);
      var irqDone := true;
      var a := InPass(card, passes);
      NextPass(card, passes);
      c := Write(c, a.tx0, a.rx0);
      var txInt := c.tx > 0;
      c := Write(c, a.tx1, a.rx1);
      var rxInt := c.rx > 0;
      c := Write(c, a.tx2, a.rx2);
      if txInt {
        irqDone := false;
        c := c.(tx := c.tx - 1);
        txTaken := txTaken + 1;
      }
      if rxInt {
        irqDone := false;
        c := c.(rx := c.rx - 1);
        rxTaken := rxTaken + 1;
      }
      passes := passes + 1;
      workCounter := workCounter + 1;
      if irqDone {
        tcnt := tcnt - 1;
      } else if tcnt < 10000 {
        tcnt := tcnt + 1;
      }
      if tcnt <= 1 && !intEnabled {
        workCounter, tcnt, intEnabled := 0, 1, true;
        c := c.(enabled := true);
      }
    }
    end := c;
  }
}
