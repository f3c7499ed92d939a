/**
  When the netfilter reorder module delivers a stream in order.

  A stream is cut at positions `b[0] < b[1] < ... < b[n]`; piece `k` carries the bytes from
  `b[k]` to `b[k + 1]`.  The pieces arrive in some order after a SYN.
 */
module ReorderOrder {
  import opened Serial
  import opened Reorder

  ghost predicate Cut(b: seq<int>) {
    && |b| > 0
    && forall i, j :: 0 <= i < j < |b| ==> b[i] < b[j]
  }

  function Piece(b: seq<int>, k: nat): Packet
    requires k + 1 < |b|
  {
    Packet(k, b[k], b[k + 1] - b[k], false)
  }

  /** The stream in order, up to piece `m`. */
  function InOrder(b: seq<int>, m: nat): (r: seq<Packet>)
    requires m < |b|
    ensures |r| == m
  {
    seq(m, i requires 0 <= i < m => Piece(b, i))
  }

  /** The first piece at or after `j` that has not arrived. */
  ghost function Missing(b: seq<int>, A: set<nat>, j: nat): (m: nat)
    requires j < |b|
    ensures j <= m < |b|
    ensures forall i :: j <= i < m ==> i in A
    ensures m + 1 < |b| ==> m !in A
    decreases |b| - j
  {
    if j + 1 == |b| || j !in A then j else Missing(b, A, j + 1)
  }

  /** The arrived pieces from `j` on, in order. */
  ghost function Pend(b: seq<int>, A: set<nat>, j: nat): seq<Packet>
    requires j < |b|
    decreases |b| - j
  {
    if j + 1 == |b| then []
    else (if j in A then [Piece(b, j)] else []) + Pend(b, A, j + 1)
  }

  /** The state in which the pieces before `m` have been delivered and the others are held. */
  ghost function Delivered(b: seq<int>, A: set<nat>, m: nat, pre: seq<Packet>): State
    requires m < |b|
  {
    State(b[m], Pend(b, A, m), pre + InOrder(b, m))
  }

  ghost function Canon(b: seq<int>, A: set<nat>, pre: seq<Packet>): State
    requires |b| > 0
  {
    Delivered(b, A, Missing(b, A, 0), pre)
  }

  /** `p` is an arrived piece at or after `j`. */
  ghost predicate IsPiece(b: seq<int>, A: set<nat>, j: nat, p: Packet) {
    && j <= p.id && p.id + 1 < |b|
    && p.id in A
    && p == Piece(b, p.id)
  }

  lemma {:induction false} PendPieces(b: seq<int>, A: set<nat>, j: nat)
    requires j < |b|
    ensures forall i :: 0 <= i < |Pend(b, A, j)| ==> IsPiece(b, A, j, Pend(b, A, j)[i])
    decreases |b| - j
  {
    if j + 1 == |b| {
    } else {
      PendPieces(b, A, j + 1);
      var rest := Pend(b, A, j + 1);
      forall i | 0 <= i < |Pend(b, A, j)|
        ensures IsPiece(b, A, j, Pend(b, A, j)[i])
      {
        var i' := if j in A then i - 1 else i;
        if i' >= 0 {
          assert Pend(b, A, j)[i] == rest[i'] && IsPiece(b, A, j + 1, rest[i']);
        }
      }
    }
  }

  lemma PendBounds(b: seq<int>, A: set<nat>, j: nat)
    requires Cut(b) && j < |b|
    ensures forall i :: 0 <= i < |Pend(b, A, j)| ==> b[j] <= Pend(b, A, j)[i].sn && Pend(b, A, j)[i].len > 0
  {
    PendPieces(b, A, j);
    forall i | 0 <= i < |Pend(b, A, j)|
      ensures b[j] <= Pend(b, A, j)[i].sn && Pend(b, A, j)[i].len > 0
    {
      assert IsPiece(b, A, j, Pend(b, A, j)[i]);
    }
  }

  lemma {:induction false} PendSame(b: seq<int>, A: set<nat>, A': set<nat>, j: nat)
    requires j < |b| && forall i :: j <= i ==> (i in A <==> i in A')
    ensures Pend(b, A, j) == Pend(b, A', j)
    decreases |b| - j
  {
    if j + 1 == |b| {
    } else {
      PendSame(b, A, A', j + 1);
    }
  }

  /** Draining delivers exactly the run of consecutive pieces that is present. */
  lemma {:induction false} DrainDelivers(b: seq<int>, A: set<nat>, j: nat, pre: seq<Packet>)
    requires Cut(b) && j < |b|
    ensures Drain(Exact, Delivered(b, A, j, pre)) == Delivered(b, A, Missing(b, A, j), pre)
    decreases |b| - j
  {
    var s := Delivered(b, A, j, pre);
    if j + 1 == |b| {
    } else if j in A {
      assert s.q == [Piece(b, j)] + Pend(b, A, j + 1);
      assert s.q[1..] == Pend(b, A, j + 1);
      assert InOrder(b, j + 1) == InOrder(b, j) + [Piece(b, j)];
      assert pre + InOrder(b, j + 1) == s.out + [s.q[0]];
      DrainDelivers(b, A, j + 1, pre);
    } else {
      assert s.q == Pend(b, A, j + 1);
      PendBounds(b, A, j + 1);
    }
  }

  /** A piece beyond the missing one goes to its place among the held ones. */
  lemma {:induction false} InsertDelivers(b: seq<int>, A: set<nat>, k: nat, j: nat)
    requires Cut(b) && j <= k && k + 1 < |b| && k !in A
    ensures GoesInPlace(Pend(b, A, j), Piece(b, k), Pend(b, A + {k}, j))
    decreases k - j
  {
    hide GoesInPlace, Wrap;
    if j == k {
      PendBounds(b, A, k + 1);
      PendSame(b, A, A + {k}, k + 1);
      GoesFirst(Pend(b, A, k + 1), Piece(b, k));
      assert Pend(b, A, k) == Pend(b, A, k + 1);
    } else {
      InsertDelivers(b, A, k, j + 1);
      InsertBelow(b, A, k, j);
    }
  }

  lemma InsertBelow(b: seq<int>, A: set<nat>, k: nat, j: nat)
    requires Cut(b) && j < k && k + 1 < |b|
    requires GoesInPlace(Pend(b, A, j + 1), Piece(b, k), Pend(b, A + {k}, j + 1))
    ensures GoesInPlace(Pend(b, A, j), Piece(b, k), Pend(b, A + {k}, j))
  {
    hide GoesInPlace, Wrap;
    var q, r := Pend(b, A, j + 1), Pend(b, A + {k}, j + 1);
    if j in A {
      assert b[j] < b[j + 1] <= b[k] < b[k + 1];
      assert Pend(b, A, j) == [Piece(b, j)] + q && Pend(b, A + {k}, j) == [Piece(b, j)] + r;
      SlotCons(Piece(b, j), q, Piece(b, k), r);
    } else {
      assert Pend(b, A, j) == q && Pend(b, A + {k}, j) == r;
    }
  }

  /** Holding `p` in queue `q` is not refused as an overlap and gives queue `r`. */
  ghost predicate GoesInPlace(q: seq<Packet>, p: Packet, r: seq<Packet>) {
    var i := Slot(Exact, q, p.sn + p.len);
    !Overlaps(Exact, q, i, p) && InsertAt(q, i, p) == r
  }

  lemma GoesFirst(q: seq<Packet>, p: Packet)
    requires q != [] ==> p.sn + p.len <= q[0].sn
    ensures GoesInPlace(q, p, [p] + q)
  {
    assert InsertAt(q, 0, p) == [p] + q;
  }

  lemma SlotCons(h: Packet, q: seq<Packet>, p: Packet, r: seq<Packet>)
    requires h.sn < h.sn + h.len <= p.sn <= p.sn + p.len
    requires GoesInPlace(q, p, r)
    ensures GoesInPlace([h] + q, p, [h] + r)
  {
    hide InsertAt, Slot, Wrap;
    var i := Slot(Exact, q, p.sn + p.len);
    SlotSkips(h, q, p.sn + p.len);
    InsertSkips(h, q, i, p);
    assert ([h] + q)[i] == if i > 0 then q[i - 1] else h;
  }

  lemma SlotSkips(h: Packet, q: seq<Packet>, end: int)
    requires h.sn < end
    ensures Slot(Exact, [h] + q, end) == 1 + Slot(Exact, q, end)
  {
    assert ([h] + q)[1..] == q;
  }

  lemma InsertSkips(h: Packet, q: seq<Packet>, i: nat, p: Packet)
    requires i <= |q|
    ensures InsertAt([h] + q, i + 1, p) == [h] + InsertAt(q, i, p)
  {
    assert ([h] + q)[..i + 1] == [h] + q[..i];
    assert ([h] + q)[i + 1..] == q[i..];
  }

  // ---------------------------------------------------------------------------------------

  lemma SubsetCard(A: set<nat>, B: set<nat>)
    requires A <= B
    ensures |A| <= |B|
  {
    if A == {} {
    } else {
      var x :| x in A;
      SubsetCard(A - {x}, B - {x});
    }
  }

  /** How many packets are held can be read off the arrived pieces. */
  lemma {:induction false} PendLength(b: seq<int>, A: set<nat>, j: nat)
    requires j < |b| && forall i :: i in A ==> i + 1 < |b|
    ensures |Pend(b, A, j)| == |set i | i in A && i >= j|
    decreases |b| - j
  {
    var S := set i | i in A && i >= j;
    if j + 1 == |b| {
      assert S == {};
    } else {
      PendLength(b, A, j + 1);
      var T := set i | i in A && i >= j + 1;
      if j in A {
        assert S == T + {j};
      } else {
        assert S == T;
      }
    }
  }

  ghost function Waiting(b: seq<int>, A: set<nat>): set<nat>
    requires |b| > 0
  {
    set i | i in A && i >= Missing(b, A, 0)
  }

  /** Piece `k` arrives beyond the missing piece while more than MAX_REORDER_COUNT pieces
      beyond the missing one are already there. */
  ghost predicate Overflows(b: seq<int>, A: set<nat>, k: nat)
    requires |b| > 0
  {
    k > Missing(b, A, 0) && |Waiting(b, A)| > MAX_REORDER_COUNT
  }

  lemma ArrivalDelivers(b: seq<int>, A: set<nat>, k: nat, pre: seq<Packet>)
    requires Cut(b) && k + 1 < |b| && k !in A && forall i :: i in A ==> i + 1 < |b|
    requires !Overflows(b, A, k)
    ensures Step(Exact, Canon(b, A, pre), Arrive(Piece(b, k))) == Canon(b, A + {k}, pre)
  {
    if k == Missing(b, A, 0) {
      MissingArrives(b, A, pre);
    } else {
      LaterArrives(b, A, k, pre);
    }
  }

  lemma MissingArrives(b: seq<int>, A: set<nat>, pre: seq<Packet>)
    requires Cut(b) && Missing(b, A, 0) + 1 < |b|
    ensures var m := Missing(b, A, 0);
      Step(Exact, Canon(b, A, pre), Arrive(Piece(b, m))) == Canon(b, A + {m}, pre)
  {
    hide Drain, Wrap;
    var m := Missing(b, A, 0);
    var s := Canon(b, A, pre);
    var t := Accept(s.(next := b[m + 1]), Piece(b, m));
    PendSame(b, A, A + {m}, m + 1);
    assert t.out == pre + InOrder(b, m + 1);
    assert t == Delivered(b, A + {m}, m + 1, pre);
    DrainDelivers(b, A + {m}, m + 1, pre);
    MissingSkips(b, A + {m}, m + 1);
  }

  lemma LaterArrives(b: seq<int>, A: set<nat>, k: nat, pre: seq<Packet>)
    requires Cut(b) && k + 1 < |b| && k !in A && forall i :: i in A ==> i + 1 < |b|
    requires k > Missing(b, A, 0) && !Overflows(b, A, k)
    ensures Step(Exact, Canon(b, A, pre), Arrive(Piece(b, k))) == Canon(b, A + {k}, pre)
  {
    hide InsertAt, Pend, Wrap;
    var m := Missing(b, A, 0);
    PendLength(b, A, m);
    InsertDelivers(b, A, k, m);
    MissingSame(b, A, k, 0);
    assert b[m] < b[k] < b[k + 1];
  }

  lemma {:induction false} MissingFrom(b: seq<int>, A: set<nat>, j: nat, m: nat)
    requires j <= m < |b| && forall i :: j <= i < m ==> i in A
    ensures Missing(b, A, j) == Missing(b, A, m)
    decreases m - j
  {
    if j == m {
    } else {
      MissingFrom(b, A, j + 1, m);
    }
  }

  lemma MissingSkips(b: seq<int>, A: set<nat>, m: nat)
    requires m < |b| && forall i :: 0 <= i < m ==> i in A
    ensures Missing(b, A, 0) == Missing(b, A, m)
  {
    MissingFrom(b, A, 0, m);
  }

  lemma {:induction false} MissingSame(b: seq<int>, A: set<nat>, k: nat, j: nat)
    requires j < |b| && k > Missing(b, A, j)
    ensures Missing(b, A + {k}, j) == Missing(b, A, j)
    decreases |b| - j
  {
    if j + 1 == |b| || j !in A {
    } else {
      MissingSame(b, A, k, j + 1);
    }
  }

  // ---------------------------------------------------------------------------------------

  ghost predicate Arrangement(b: seq<int>, order: seq<nat>) {
    && (forall t :: 0 <= t < |order| ==> order[t] + 1 < |b|)
    && (forall t, u :: 0 <= t < u < |order| ==> order[t] != order[u])
  }

  /** The pieces among the first `t` arrivals. */
  ghost function Arrived(order: seq<nat>, t: nat): set<nat>
    requires t <= |order|
  {
    set u | 0 <= u < t :: order[u]
  }

  function Events(b: seq<int>, order: seq<nat>): (r: seq<Event>)
    requires forall t :: 0 <= t < |order| ==> order[t] + 1 < |b|
    ensures |r| == |order|
  {
    seq(|order|, t requires 0 <= t < |order| => Arrive(Piece(b, order[t])))
  }

  /** No arrival finds the queue full; decided by the arrival order alone. */
  ghost predicate NeverOverflows(b: seq<int>, order: seq<nat>)
    requires |b| > 0
  {
    forall t :: 0 <= t < |order| ==> !Overflows(b, Arrived(order, t), order[t])
  }

  /** No piece arrives so early that it ends half the number space after the missing piece. */
  ghost predicate Near(b: seq<int>, order: seq<nat>)
    requires |b| > 0 && forall t :: 0 <= t < |order| ==> order[t] + 1 < |b|
  {
    forall t :: 0 <= t < |order| ==>
      b[order[t] + 1] - b[Missing(b, Arrived(order, t), 0)] < HALF
  }

  lemma ArrivedNext(order: seq<nat>, t: nat)
    requires t < |order|
    ensures Arrived(order, t + 1) == Arrived(order, t) + {order[t]}
  {
    assert forall x :: x in Arrived(order, t) ==> x in Arrived(order, t + 1);
    assert order[t] in Arrived(order, t + 1);
  }

  lemma {:induction false} MissingGrows(b: seq<int>, A: set<nat>, A': set<nat>, j: nat)
    requires j < |b| && A <= A'
    ensures Missing(b, A, j) <= Missing(b, A', j)
    decreases |b| - j
  {
    if j + 1 == |b| || j !in A {
    } else {
      MissingGrows(b, A, A', j + 1);
    }
  }

  lemma ArrivedGrows(order: seq<nat>, t: nat, u: nat)
    requires t <= u <= |order|
    ensures Arrived(order, t) <= Arrived(order, u)
  {
  }

  /** Every held piece was near when it arrived, so all live numbers fit in half a window. */
  lemma CanonWindow(b: seq<int>, order: seq<nat>, t: nat, pre: seq<Packet>)
    requires Cut(b) && Arrangement(b, order) && Near(b, order) && t < |order|
    ensures var A := Arrived(order, t);
      EventWindow(b[Missing(b, A, 0)], Canon(b, A, pre), Arrive(Piece(b, order[t])))
  {
    var A := Arrived(order, t);
    var m := Missing(b, A, 0);
    var s := Canon(b, A, pre);
    var k := order[t];
    NotYet(b, order, t);
    assert k >= m;
    PendPieces(b, A, m);
    forall i | 0 <= i < |s.q|
      ensures s.q[i].len >= 0 && Within(b[m], s.q[i].sn) && Within(b[m], s.q[i].sn + s.q[i].len)
    {
      assert IsPiece(b, A, m, s.q[i]);
      HeldNear(b, order, t, s.q[i].id);
    }
    assert b[m] <= b[k] < b[k + 1];
  }

  lemma HeldNear(b: seq<int>, order: seq<nat>, t: nat, h: nat)
    requires Cut(b) && Arrangement(b, order) && Near(b, order) && t <= |order|
    requires h in Arrived(order, t) && h + 1 < |b|
    ensures b[h + 1] - b[Missing(b, Arrived(order, t), 0)] < HALF
  {
    hide Missing, Arrived, Arrangement;
    var u := ArrivedAt(order, t, h);
    ArrivedGrows(order, u, t);
    MissingGrows(b, Arrived(order, u), Arrived(order, t), 0);
    assert b[h + 1] - b[Missing(b, Arrived(order, u), 0)] < HALF;
  }

  lemma ArrivedAt(order: seq<nat>, t: nat, h: nat) returns (u: nat)
    requires t <= |order| && h in Arrived(order, t)
    ensures u < t && order[u] == h
  {
    u :| 0 <= u < t && order[u] == h;
  }

  lemma NotYet(b: seq<int>, order: seq<nat>, t: nat)
    requires Arrangement(b, order) && t < |order|
    ensures order[t] !in Arrived(order, t)
    ensures forall i :: i in Arrived(order, t) ==> i + 1 < |b|
  {
  }

  /** The state after each prefix of the arrivals without overflow: the pieces before the
      missing one have been delivered in order and all others that arrived are held. */
  lemma {:induction false} PrefixDelivers(b: seq<int>, order: seq<nat>, t: nat, pre: seq<Packet>)
    requires Cut(b) && Arrangement(b, order) && Near(b, order) && t <= |order|
    requires forall u :: 0 <= u < t ==> !Overflows(b, Arrived(order, u), order[u])
    ensures Run(Mod32, WrapState(State(b[0], [], pre)), WrapEvents(Events(b, order))[..t])
         == WrapState(Canon(b, Arrived(order, t), pre))
    ensures Inv(Canon(b, Arrived(order, t), pre))
    decreases t
  {
    hide Step, Inv, EventWindow, Wrap, Canon, Near;
    var s0 := State(b[0], [], pre);
    var es := WrapEvents(Events(b, order));
    if t == 0 {
      StartInv(b[0], pre);
      assert Arrived(order, 0) == {};
      CanonEmpty(b, pre);
    } else {
      var u := t - 1;
      PrefixDelivers(b, order, u, pre);
      var A := Arrived(order, u);
      NotYet(b, order, u);
      ArrivalDelivers(b, A, order[u], pre);
      CanonWindow(b, order, u, pre);
      ArrivedNext(order, u);
      StepInv(Canon(b, A, pre), Arrive(Piece(b, order[u])));
      StepWrap(b[Missing(b, A, 0)], Canon(b, A, pre), Arrive(Piece(b, order[u])));
      assert es[..t] == es[..u] + [es[u]];
      RunSnoc(Mod32, WrapState(s0), es[..u], es[u]);
    }
  }

  lemma StartInv(next: int, pre: seq<Packet>)
    ensures Inv(State(next, [], pre))
  {
  }

  lemma CanonEmpty(b: seq<int>, pre: seq<Packet>)
    requires Cut(b)
    ensures Canon(b, {}, pre) == State(b[0], [], pre)
  {
    var none: set<nat> := {};
    PendLength(b, none, 0);
    assert (set i | i in none && i >= 0) == none;
    assert pre + InOrder(b, 0) == pre;
  }

  /** An arrival that finds the queue full puts a later piece where the missing one belongs,
      and what has been reinjected is never taken back. */
  lemma OverflowMisorders(b: seq<int>, order: seq<nat>, t: nat, pre: seq<Packet>)
    requires Cut(b) && Arrangement(b, order) && Near(b, order) && t < |order|
    requires forall u :: 0 <= u < t ==> !Overflows(b, Arrived(order, u), order[u])
    requires Overflows(b, Arrived(order, t), order[t])
    ensures Misordered(Run(Mod32, WrapState(State(b[0], [], pre)), WrapEvents(Events(b, order))).out, |pre|, |b|)
  {
    hide Step, Run, Overflows, Holdings, Arrivals, Near;
    var s0 := WrapState(State(b[0], [], pre));
    var es := WrapEvents(Events(b, order));
    OverflowStep(b, order, t, pre);
    RunSplit(Mod32, s0, es, t + 1);
    RunAccounts(Mod32, s0, es[..t + 1]);
    RunAccounts(Mod32, Run(Mod32, s0, es[..t + 1]), es[t + 1..]);
  }

  /** Some of the first `n` places after the first `from` does not hold the piece due there. */
  ghost predicate Misordered(out: seq<Packet>, from: nat, n: nat) {
    exists i :: from <= i < |out| && i - from < n && out[i].id != i - from
  }

  lemma OverflowStep(b: seq<int>, order: seq<nat>, t: nat, pre: seq<Packet>)
    requires Cut(b) && Arrangement(b, order) && Near(b, order) && t < |order|
    requires forall u :: 0 <= u < t ==> !Overflows(b, Arrived(order, u), order[u])
    requires Overflows(b, Arrived(order, t), order[t])
    ensures Misordered(Run(Mod32, WrapState(State(b[0], [], pre)), WrapEvents(Events(b, order))[..t + 1]).out, |pre|, |b|)
  {
    hide Step, Run, Canon, Near, EventWindow, Inv, Wrap;
    var s0 := WrapState(State(b[0], [], pre));
    var es := WrapEvents(Events(b, order));
    var A := Arrived(order, t);
    PrefixDelivers(b, order, t, pre);
    NotYet(b, order, t);
    CanonWindow(b, order, t, pre);
    StepWrap(b[Missing(b, A, 0)], Canon(b, A, pre), Arrive(Piece(b, order[t])));
    FullQueueMisorders(b, A, order[t], pre);
    RunSnoc(Mod32, s0, es[..t], es[t]);
    assert es[..t + 1] == es[..t] + [es[t]];
  }

  lemma FullQueueMisorders(b: seq<int>, A: set<nat>, k: nat, pre: seq<Packet>)
    requires Cut(b) && k + 1 < |b| && k !in A && forall i :: i in A ==> i + 1 < |b|
    requires Overflows(b, A, k)
    ensures var m, out := Missing(b, A, 0), Step(Exact, Canon(b, A, pre), Arrive(Piece(b, k))).out;
      |pre| + m < |out| && out[|pre| + m].id != m
  {
    var m := Missing(b, A, 0);
    var c := Canon(b, A, pre);
    PendLength(b, A, m);
    PendPieces(b, A, m);
    assert IsPiece(b, A, m, c.q[0]);
    assert b[m] < b[k] < b[k + 1];
    var d := Step(Exact, c, Arrive(Piece(b, k)));
    assert d.out == c.out + c.q + [Piece(b, k)];
    assert d.out[|pre| + m] == c.q[0];
  }

  lemma {:induction false} RunSplit(ar: Arith, s: State, es: seq<Event>, t: nat)
    requires t <= |es|
    ensures Run(ar, s, es) == Run(ar, Run(ar, s, es[..t]), es[t..])
    decreases t
  {
    if t == 0 {
      assert es[..0] == [] && es[0..] == es;
    } else {
      RunSplit(ar, s, es, t - 1);
      assert es[..t] == es[..t - 1] + [es[t - 1]];
      RunSnoc(ar, s, es[..t - 1], es[t - 1]);
      assert es[t - 1..][0] == es[t - 1] && es[t - 1..][1..] == es[t..];
    }
  }

  ghost predicate Words(q: seq<Packet>) {
    forall i :: 0 <= i < |q| ==> 0 <= q[i].sn < M32
  }

  /** In-order delivery.  After a SYN, in whatever state it found the queue, let all pieces of
      the stream behind it arrive in any order, the timer not firing.  They are reinjected in
      sequence order if and only if no piece beyond the missing one arrives while more than
      MAX_REORDER_COUNT pieces beyond it are waiting.  Sequence numbers may wrap any number
      of times. */
  lemma DeliversInOrderIff(s: State, syn: Packet, b: seq<int>, order: seq<nat>)
    requires syn.syn && 0 <= syn.sn < M32 && Words(s.q) && Words(s.out)
    requires Cut(b) && Wrap(b[0]) == Wrap(syn.sn + 1)
    requires Arrangement(b, order) && |order| == |b| - 1 && Near(b, order)
    ensures var start := Step(Mod32, s, Arrive(syn));
      var end := Run(Mod32, start, WrapEvents(Events(b, order)));
      && (end.out == start.out + WrapAll(InOrder(b, |b| - 1)) <==> NeverOverflows(b, order))
      && (NeverOverflows(b, order) ==> end.q == [] && end.next == Wrap(b[|b| - 1]))
  {
    var pre := Step(Mod32, s, Arrive(syn)).out;
    assert Words(pre);
    assert WrapAll(pre) == pre;
    if NeverOverflows(b, order) {
      RoomDelivers(b, order, pre);
    } else {
      var t := FirstOverflow(b, order, |order|);
      OverflowMisorders(b, order, t, pre);
      NotMisordered(b, pre);
    }
  }

  lemma NotMisordered(b: seq<int>, pre: seq<Packet>)
    requires |b| > 0
    ensures !Misordered(pre + WrapAll(InOrder(b, |b| - 1)), |pre|, |b|)
  {
  }

  lemma RoomDelivers(b: seq<int>, order: seq<nat>, pre: seq<Packet>)
    requires Cut(b) && Arrangement(b, order) && |order| == |b| - 1 && Near(b, order)
    requires NeverOverflows(b, order)
    ensures Run(Mod32, WrapState(State(b[0], [], pre)), WrapEvents(Events(b, order)))
         == State(Wrap(b[|b| - 1]), [], WrapAll(pre) + WrapAll(InOrder(b, |b| - 1)))
  {
    var es := WrapEvents(Events(b, order));
    PrefixDelivers(b, order, |order|, pre);
    assert es[..|order|] == es;
    AllArrived(b, order);
    WrapAllConcat(pre, InOrder(b, |b| - 1));
  }

  /** An overflow takes the missing piece, the arriving one and eleven that wait. */
  lemma OverflowNeedsThirteen(b: seq<int>, A: set<nat>, k: nat)
    requires |b| > 0 && k !in A && k + 1 < |b| && (forall i :: i in A ==> i + 1 < |b|) && Overflows(b, A, k)
    ensures |b| - 1 >= MAX_REORDER_COUNT + 3
  {
    var m, W := Missing(b, A, 0), Waiting(b, A);
    UpToHas(|b| - 1);
    assert m !in W && k !in W && m != k;
    Subset(W + {m, k}, UpTo(|b| - 1));
  }

  ghost function UpTo(n: nat): set<nat> {
    if n == 0 then {} else UpTo(n - 1) + {n - 1}
  }

  lemma {:induction false} UpToHas(n: nat)
    ensures |UpTo(n)| == n && forall i: nat :: i in UpTo(n) <==> i < n
  {
    if n == 0 {
    } else {
      UpToHas(n - 1);
    }
  }

  lemma {:induction false} Subset(a: set<nat>, b: set<nat>)
    requires a <= b
    ensures |a| <= |b|
  {
    if a == {} {
    } else {
      var x :| x in a;
      Subset(a - {x}, b - {x});
    }
  }

  /** At most twelve pieces are always delivered in sequence order, whatever the order of arrival. */
  lemma TwelveDeliver(b: seq<int>, order: seq<nat>, pre: seq<Packet>)
    requires Cut(b) && Arrangement(b, order) && |order| == |b| - 1 && Near(b, order)
    requires |b| - 1 <= MAX_REORDER_COUNT + 2
    ensures Run(Mod32, WrapState(State(b[0], [], pre)), WrapEvents(Events(b, order)))
         == State(Wrap(b[|b| - 1]), [], WrapAll(pre) + WrapAll(InOrder(b, |b| - 1)))
  {
    hide Overflows, Near;
    forall t | 0 <= t < |order|
      ensures !Overflows(b, Arrived(order, t), order[t])
    {
      NotYet(b, order, t);
      if Overflows(b, Arrived(order, t), order[t]) {
        OverflowNeedsThirteen(b, Arrived(order, t), order[t]);
      }
    }
    RoomDelivers(b, order, pre);
  }

  /** Thirteen or more need not be: all but the first arrive in order, and then the first. */
  lemma ThirteenOverflow(b: seq<int>, order: seq<nat>)
    requires Cut(b) && |b| - 1 >= MAX_REORDER_COUNT + 3 && |order| == |b| - 1
    requires forall t :: 0 <= t < |order| ==> order[t] == if t + 1 < |order| then t + 1 else 0
    ensures Arrangement(b, order) && !NeverOverflows(b, order)
  {
    hide Waiting, Missing;
    AllButFirstWait(b, order, 11);
    assert Overflows(b, Arrived(order, 11), order[11]);
  }

  lemma AllButFirstWait(b: seq<int>, order: seq<nat>, n: nat)
    requires n < |order| == |b| - 1 && forall t :: 0 <= t < n ==> order[t] == t + 1
    ensures Missing(b, Arrived(order, n), 0) == 0 && |Waiting(b, Arrived(order, n))| >= n
  {
    hide UpTo;
    var A := Arrived(order, n);
    UpToHas(n + 1);
    assert 0 !in A;
    assert Missing(b, A, 0) == 0;
    forall i: nat | i in UpTo(n + 1) - {0}
      ensures i in Waiting(b, A)
    {
      assert order[i - 1] == i && order[i - 1] in A;
    }
    Subset(UpTo(n + 1) - {0}, Waiting(b, A));
  }

  lemma {:induction false} FirstOverflow(b: seq<int>, order: seq<nat>, n: nat) returns (t: nat)
    requires |b| > 0 && n <= |order|
    requires exists u :: 0 <= u < n && Overflows(b, Arrived(order, u), order[u])
    ensures t < n && Overflows(b, Arrived(order, t), order[t])
    ensures forall u :: 0 <= u < t ==> !Overflows(b, Arrived(order, u), order[u])
  {
    if exists u :: 0 <= u < n - 1 && Overflows(b, Arrived(order, u), order[u]) {
      t := FirstOverflow(b, order, n - 1);
    } else {
      t := n - 1;
    }
  }

  lemma {:induction false} ArrivedSize(order: seq<nat>, t: nat)
    requires t <= |order| && forall t, u :: 0 <= t < u < |order| ==> order[t] != order[u]
    ensures |Arrived(order, t)| == t
  {
    if t == 0 {
      assert Arrived(order, t) == {};
    } else {
      ArrivedSize(order, t - 1);
      ArrivedNext(order, t - 1);
    }
  }

  ghost function Range(n: nat): (r: set<nat>)
    ensures forall i: nat :: i in r <==> i < n
    ensures |r| == n
  {
    if n == 0 then {} else Range(n - 1) + {n - 1}
  }

  /** When every piece has arrived, none is missing and none is held. */
  lemma AllArrived(b: seq<int>, order: seq<nat>)
    requires Cut(b) && Arrangement(b, order) && |order| == |b| - 1
    ensures Missing(b, Arrived(order, |order|), 0) == |b| - 1
    ensures Pend(b, Arrived(order, |order|), |b| - 1) == []
  {
    var A := Arrived(order, |order|);
    var m := Missing(b, A, 0);
    if m < |b| - 1 {
      ArrivedSize(order, |order|);
      var R := Range(|b| - 1);
      assert m in R && A <= R - {m};
      SubsetCard(A, R - {m});
    }
  }
}
