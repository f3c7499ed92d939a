/**
  The out-of-order queue itself: socket buffers in a doubly linked list, the counters of the
  queue, and the slot the flow has in the list of flows, which always names the first buffer.
  Every operation is proved equal to the corresponding function of module GroQueue on 32-bit
  numbers.

  `completed` records the buffers given to napi_gro_complete and `normal` those passed up
  without being queued, in order.
 */
module GroList {
  import opened Serial
  import opened SkbGro
  import opened GroQueue

  class SkbNode {
    var pkt: Pkt
    var prev: SkbNode?
    var next: SkbNode?

    constructor (pkt: Pkt)
      ensures this.pkt == pkt
    {
      this.pkt, prev, next := pkt, null, null;
    }
  }

  function Amount(q: seq<Pkt>): nat {
    if q == [] then 0 else q[0].len + Amount(q[1..])
  }

  lemma {:induction false} AmountConcat(a: seq<Pkt>, b: seq<Pkt>)
    ensures Amount(a + b) == Amount(a) + Amount(b)
  {
    if a == [] {
      assert a + b == b;
    } else {
      assert (a + b)[1..] == a[1..] + b;
      AmountConcat(a[1..], b);
    }
  }

  lemma AmountOne(p: Pkt)
    ensures Amount([p]) == p.len
  {
  }

  /** In a queue the packets from `a` to before `b` are replaced by `p`. */
  lemma AmountSplice(q: seq<Pkt>, a: nat, b: nat, p: Pkt)
    requires a <= b <= |q|
    ensures Amount(q[..a] + [p] + q[b..]) == Amount(q) - Amount(q[a..b]) + p.len
  {
    hide Amount;
    var l, m, r := q[..a], q[a..b], q[b..];
    assert q == l + m + r;
    AmountConcat(l + m, r);
    AmountConcat(l, m);
    AmountConcat(l + [p], r);
    AmountConcat(l, [p]);
    AmountOne(p);
  }

  lemma AmountReplace(q: seq<Pkt>, k: nat, p: Pkt)
    requires k < |q|
    ensures Amount(q[k := p]) == Amount(q) - q[k].len + p.len
  {
    AmountSplice(q, k, k + 1, p);
    assert q[k..k + 1] == [q[k]] && q[k := p] == q[..k] + [p] + q[k + 1..];
    AmountOne(q[k]);
  }

  ghost function InsertNode(ns: seq<SkbNode>, k: nat, n: SkbNode): (r: seq<SkbNode>)
    requires k <= |ns|
    ensures |r| == |ns| + 1 && r[k] == n
    ensures forall i :: 0 <= i < k ==> r[i] == ns[i]
    ensures forall i :: k < i < |r| ==> r[i] == ns[i - 1]
  {
    ns[..k] + [n] + ns[k..]
  }

  lemma InsertAtIndex(q: seq<Pkt>, k: nat, p: Pkt)
    requires k <= |q|
    ensures var r := InsertAt(q, k, p);
      && |r| == |q| + 1 && r[k] == p && (forall i :: 0 <= i < k ==> r[i] == q[i])
      && (forall i :: k < i < |r| ==> r[i] == q[i - 1])
      && Amount(r) == Amount(q) + p.len
  {
    AmountSplice(q, k, k, p);
    assert q[k..k] == [];
  }

  lemma NextSlice(ns: seq<SkbNode>, ps: seq<Pkt>, done: seq<Pkt>, j: nat)
    requires j < |ns| == |ps|
    ensures ns[j..][1..] == ns[j + 1..] && ps[j..][1..] == ps[j + 1..]
    ensures done + ps[..j] + [ps[j]] == done + ps[..j + 1]
  {
  }

  class FlowQueue {
    var head: SkbNode?
    var tail: SkbNode?
    var slot: SkbNode?
    var qlen: int
    var skbNum: int
    var seqNext: int
    var mss: int
    var completed: seq<Pkt>
    var normal: seq<Pkt>
    ghost var nodes: seq<SkbNode>
    ghost var pkts: seq<Pkt>
    ghost var repr: set<SkbNode>

    /** `nodes` is the list in order and `pkts` its contents; the first node's `prev` is free. */
    ghost predicate Chain()
      reads this`nodes, this`pkts, this`repr, repr
    {
      && |pkts| == |nodes|
      && (forall i :: 0 <= i < |nodes| ==> nodes[i] in repr)
      && (forall i {:trigger nodes[i].pkt} :: 0 <= i < |nodes| ==> nodes[i].pkt == pkts[i])
      && (forall i, j :: 0 <= i < j < |nodes| ==> nodes[i] != nodes[j])
      && (forall i {:trigger nodes[i].prev} :: 0 < i < |nodes| ==> nodes[i].prev == nodes[i - 1])
      && (forall i {:trigger nodes[i].next} :: 0 <= i < |nodes| ==>
            nodes[i].next == if i == |nodes| - 1 then null else nodes[i + 1])
    }

    ghost predicate Counted()
      reads this`qlen, this`skbNum, this`pkts
    {
      qlen == Amount(pkts) && skbNum == |pkts|
    }

    /** An empty queue is back in the pool, with stale pointers. */
    ghost predicate Linked()
      reads this`head, this`tail, this`qlen, this`skbNum, this`nodes, this`pkts, this`repr, repr
    {
      && Chain() && Counted()
      && (nodes != [] ==> head == nodes[0] && tail == nodes[|nodes| - 1] && nodes[0].prev == null)
    }

    ghost predicate Valid()
      reads this`head, this`tail, this`slot, this`qlen, this`skbNum, this`nodes, this`pkts, this`repr, repr
    {
      Linked() && slot == if nodes == [] then null else nodes[0]
    }

    ghost function Abs(): Queue
      reads this`seqNext, this`pkts, this`completed
    {
      Queue(seqNext, pkts, completed)
    }

    ghost function AbsFlow(): Flow
      reads this
    {
      Flow(Abs(), mss, normal)
    }

    constructor (seqNext: int)
      ensures Valid() && AbsFlow() == Flow(Queue(seqNext, [], []), 0, []) && repr == {}
    {
      head, tail, slot, qlen, skbNum, this.seqNext, mss := null, null, null, 0, 0, seqNext, 0;
      completed, normal, nodes, pkts, repr := [], [], [], [], {};
    }

    // -------------------------------------------------------------------------------------
    // Changes of the list.

    /** `skb` goes in front of `p2`, the node at index `k`. */
    method InsertBefore(skb: SkbNode, p2: SkbNode, ghost k: nat)
      requires Valid() && k < |nodes| && p2 == nodes[k] && skb !in repr
      modifies this`head, this`slot, this`qlen, this`skbNum, this`nodes, this`pkts, this`repr, skb, p2, p2.prev
      ensures Valid() && repr == old(repr) + {skb}
      ensures pkts == InsertAt(old(pkts), k, old(skb.pkt))
    {
      qlen := qlen + skb.pkt.len;
      skbNum := skbNum + 1;
      if p2.prev == null {
        InsertFirst(skb, p2);
      } else {
        InsertInside(skb, p2, k);
      }
    }

    method InsertFirst(skb: SkbNode, p2: SkbNode)
      requires Chain() && nodes != [] && p2 == nodes[0] && skb !in repr
      requires qlen == Amount(pkts) + skb.pkt.len && skbNum == |pkts| + 1
      requires tail == nodes[|nodes| - 1]
      modifies this`head, this`slot, this`nodes, this`pkts, this`repr, skb, p2
      ensures Valid() && repr == old(repr) + {skb}
      ensures pkts == InsertAt(old(pkts), 0, old(skb.pkt))
    {
      hide InsertAt, InsertNode, Amount;
      InsertAtIndex(pkts, 0, skb.pkt);
      skb.prev := null;
      skb.next := p2;
      head := skb;
      p2.prev := skb;
      slot := skb;
      nodes, pkts, repr := InsertNode(nodes, 0, skb), InsertAt(pkts, 0, skb.pkt), repr + {skb};
    }

    method InsertInside(skb: SkbNode, p2: SkbNode, ghost k: nat)
      requires Chain() && 0 < k < |nodes| && p2 == nodes[k] && skb !in repr
      requires qlen == Amount(pkts) + skb.pkt.len && skbNum == |pkts| + 1
      requires head == slot == nodes[0] && tail == nodes[|nodes| - 1] && nodes[0].prev == null
      modifies this`nodes, this`pkts, this`repr, skb, p2, p2.prev
      ensures Valid() && repr == old(repr) + {skb}
      ensures pkts == InsertAt(old(pkts), k, old(skb.pkt))
    {
      hide InsertAt, InsertNode, Amount;
      InsertAtIndex(pkts, k, skb.pkt);
      var p1 := p2.prev;
      assert p1 == nodes[k - 1];
      skb.prev := p1;
      skb.next := p2;
      p1.next := skb;
      p2.prev := skb;
      nodes, pkts, repr := InsertNode(nodes, k, skb), InsertAt(pkts, k, skb.pkt), repr + {skb};
    }

    /** `skb` goes behind `p2`, the last node. */
    method Append(skb: SkbNode, p2: SkbNode)
      requires Valid() && nodes != [] && p2 == nodes[|nodes| - 1] && skb !in repr
      modifies this`tail, this`qlen, this`skbNum, this`nodes, this`pkts, this`repr, skb, p2
      ensures Valid() && repr == old(repr) + {skb}
      ensures pkts == old(pkts) + [old(skb.pkt)] && nodes == old(nodes) + [skb]
    {
      hide InsertNode, Amount;
      AmountConcat(pkts, [skb.pkt]);
      AmountOne(skb.pkt);
      skb.prev := p2;
      skb.next := null;
      qlen := qlen + skb.pkt.len;
      skbNum := skbNum + 1;
      tail := skb;
      p2.next := skb;
      nodes, pkts, repr := nodes + [skb], pkts + [skb.pkt], repr + {skb};
    }

    /** `Valid`, except that the node behind index `k` (or `tail`) still points elsewhere. */
    ghost predicate HalfLinked(k: nat)
      reads this, repr
    {
      && |pkts| == |nodes| && k < |nodes| && Counted()
      && (forall i :: 0 <= i < |nodes| ==> nodes[i] in repr)
      && (forall i {:trigger nodes[i].pkt} :: 0 <= i < |nodes| ==> nodes[i].pkt == pkts[i])
      && (forall i, j :: 0 <= i < j < |nodes| ==> nodes[i] != nodes[j])
      && (forall i {:trigger nodes[i].prev} :: 0 < i < |nodes| && i != k + 1 ==> nodes[i].prev == nodes[i - 1])
      && (forall i {:trigger nodes[i].next} :: 0 <= i < |nodes| ==>
            nodes[i].next == if i == |nodes| - 1 then null else nodes[i + 1])
      && (k + 1 < |nodes| ==> tail == nodes[|nodes| - 1])
      && head == slot == nodes[0] && nodes[0].prev == null
    }

    /** `skb`, which now holds the contents `w` of both, takes the place of `p2`. */
    method TakePlace(skb: SkbNode, p2: SkbNode, w: Pkt, ghost k: nat)
      requires Valid() && k < |nodes| && p2 == nodes[k] && skb !in repr
      requires w.len == skb.pkt.len + p2.pkt.len
      modifies this`head, this`tail, this`slot, this`qlen, this`nodes, this`pkts, this`repr, skb, p2.prev, p2.next
      ensures Valid() && repr == old(repr) + {skb}
      ensures pkts == old(pkts)[k := w]
    {
      skb.prev := p2.prev;
      skb.next := p2.next;
      TakeFront(skb, p2, w, k);
      if p2.next == null {
        tail := skb;
      } else {
        p2.next.prev := skb;
      }
    }

    method TakeFront(skb: SkbNode, p2: SkbNode, w: Pkt, ghost k: nat)
      requires Valid() && k < |nodes| && p2 == nodes[k] && skb !in repr
      requires w.len == skb.pkt.len + p2.pkt.len && skb.prev == p2.prev && skb.next == p2.next
      modifies this`head, this`slot, this`qlen, this`nodes, this`pkts, this`repr, skb`pkt,
        (if p2.prev == null then {} else {p2.prev})`next
      ensures HalfLinked(k) && repr == old(repr) + {skb} && nodes[k] == skb && |nodes| == |old(nodes)|
      ensures p2 !in nodes && p2.next == if k + 1 < |nodes| then nodes[k + 1] else null
      ensures pkts == old(pkts)[k := w]
    {
      hide Amount;
      AmountReplace(pkts, k, w);
      qlen := qlen + skb.pkt.len;
      skb.pkt := w;
      if p2.prev == null {
        head := skb;
        slot := skb;
      } else {
        p2.prev.next := skb;
      }
      nodes, pkts, repr := nodes[k := skb], pkts[k := w], repr + {skb};
    }

    /** `p2` takes in `n` more bytes and now holds `y`. */
    method Extend(p2: SkbNode, y: Pkt, n: nat, ghost k: nat)
      requires Valid() && k < |nodes| && p2 == nodes[k] && y.len == p2.pkt.len + n
      modifies this`qlen, this`pkts, p2`pkt
      ensures Valid() && pkts == old(pkts)[k := y]
    {
      AmountReplace(pkts, k, y);
      hide Amount;
      p2.pkt := y;
      qlen := qlen + n;
      pkts := pkts[k := y];
    }

    /** `p2` takes in its successor `p3`, which is freed, and now holds `w`. */
    method TakeNext(p2: SkbNode, p3: SkbNode, w: Pkt, ghost k: nat)
      requires Valid() && k + 1 < |nodes| && p2 == nodes[k] && p3 == nodes[k + 1]
      requires w.len == p2.pkt.len + p3.pkt.len
      modifies this`skbNum, this`tail, this`nodes, this`pkts, p2, p3.next
      ensures Valid() && pkts == old(pkts)[..k] + [w] + old(pkts)[k + 2..]
    {
      Unlink(p2, p3, w, k);
      if p2.next == null {
        tail := p2;
      } else {
        p2.next.prev := p2;
      }
    }

    method Unlink(p2: SkbNode, p3: SkbNode, w: Pkt, ghost k: nat)
      requires Valid() && k + 1 < |nodes| && p2 == nodes[k] && p3 == nodes[k + 1]
      requires w.len == p2.pkt.len + p3.pkt.len
      modifies this`skbNum, this`nodes, this`pkts, p2`next, p2`pkt
      ensures HalfLinked(k) && p2 == nodes[k] && |nodes| == |old(nodes)| - 1
      ensures p2.next == p3.next == if k + 1 < |nodes| then nodes[k + 1] else null
      ensures pkts == old(pkts)[..k] + [w] + old(pkts)[k + 2..]
    {
      hide Amount;
      AmountPair(pkts, k, w);
      skbNum := skbNum - 1;
      p2.pkt := w;
      p2.next := p3.next;
      nodes, pkts := nodes[..k + 1] + nodes[k + 2..], pkts[..k] + [w] + pkts[k + 2..];
    }

    // -------------------------------------------------------------------------------------
    // Leaving the queue.

    /** The first buffer is completed; `head` and its successor's `prev` stay as they are. */
    method CompleteFirst(p: SkbNode)
      requires Chain() && Counted() && nodes != [] && p == nodes[0]
      modifies this`qlen, this`skbNum, this`completed, this`nodes, this`pkts
      ensures Chain() && Counted() && nodes == old(nodes)[1..] && pkts == old(pkts)[1..]
      ensures completed == old(completed) + [p.pkt]
    {
      qlen := qlen - p.pkt.len;
      skbNum := skbNum - 1;
      completed := completed + [p.pkt];
      hide Amount;
      nodes, pkts := nodes[1..], pkts[1..];
    }

    /** skb_gro_flush: everything up to and including `skb`, the node at index `i`, leaves. */
    method SkbGroFlush(skb: SkbNode, ghost i: nat)
      requires Linked() && i < |nodes| && skb == nodes[i]
      modifies this`head, this`tail, this`qlen, this`skbNum, this`seqNext, this`completed, this`nodes, this`pkts, repr`prev
      ensures Linked() && nodes == old(nodes)[i + 1..]
      ensures nodes == [] ==> head == null && tail == null
      ensures Abs() == FlushThrough(Mod32, old(Abs()), i)
    {
      ghost var j, ns, ps := 0, nodes, pkts;
      hide Amount, Wrap;
      var p := head;
      while p != null
        invariant 0 <= j <= i && nodes == ns[j..] && pkts == ps[j..] && p == nodes[0]
        invariant Chain() && Counted() && completed == old(completed) + ps[..j] && tail == ns[|ns| - 1]
        modifies this`head, this`tail, this`qlen, this`skbNum, this`seqNext, this`completed, this`nodes, this`pkts, repr`prev
        decreases i - j
      {
        assert p == skb ==> j == i by { assert skb == nodes[i - j]; }
        var p2 := p.next;
        head := p2;
        seqNext := Wrap(p.pkt.sn + p.pkt.len);
        CompleteFirst(p);
        NextSlice(ns, ps, old(completed), j);
        if p != skb {
          p := p2;
        } else {
          if p2 != null {
            p2.prev := null;
          } else {
            tail := null;
          }
          break;
        }
        j := j + 1;
      }
    }

    /** `Linked`, but `head` has not followed yet: the list starts at `p`. */
    ghost predicate Front(p: SkbNode?)
      reads this, repr
    {
      && Chain() && Counted()
      && p == (if nodes == [] then null else nodes[0])
      && (nodes != [] ==> tail == nodes[|nodes| - 1] && nodes[0].prev == null)
    }

    /** One turn of the loops of dev_gro_complete. */
    method PopFront(p: SkbNode) returns (p2: SkbNode?)
      requires Front(p)
      modifies this`qlen, this`skbNum, this`seqNext, this`completed, this`nodes, this`pkts, repr`prev
      ensures Front(p2) && nodes == old(nodes)[1..] && Abs() == PopHead(Mod32, old(Abs()))
    {
      hide Wrap, Arith.Diff;
      p2 := p.next;
      if p2 != null {
        p2.prev := null;
      }
      qlen := qlen - p.pkt.len;
      skbNum := skbNum - 1;
      seqNext := Mod32.Max(seqNext, Wrap(p.pkt.sn + p.pkt.len));
      completed := completed + [p.pkt];
      nodes, pkts := nodes[1..], pkts[1..];
    }

    /** The first buffer of the run of young ones at the end of the list. */
    method FirstYoung(now: int, timeout: nat) returns (last: SkbNode?, ghost k: nat)
      requires Linked() && nodes != []
      ensures |pkts| == |nodes| && k == KeepFrom(pkts, now, timeout) <= |nodes|
      ensures last == if k == |nodes| then null else nodes[k]
    {
      var pl := tail;
      last := null;
      k := |nodes|;
      while pl != null
        invariant k <= |nodes| && pl == if k == 0 then null else nodes[k - 1]
        invariant last == if k == |nodes| then null else nodes[k]
        invariant forall i :: k <= i < |pkts| ==> Young(pkts[i], now, timeout)
        decreases k
      {
        if Young(pl.pkt, now, timeout) {
          last := pl;
          pl := pl.prev;
          k := k - 1;
        } else {
          break;
        }
      }
      KeepFromUnique(pkts, now, timeout, k);
    }

    lemma FrontIs(p: SkbNode?, i: nat)
      requires Front(p) && i < |nodes|
      ensures p == nodes[0] && |pkts| == |nodes| && p.pkt == pkts[0] && (p == nodes[i] ==> i == 0)
    {
    }

    lemma FrontLength(p: SkbNode?)
      requires Front(p)
      ensures |pkts| == |nodes| && (p == null <==> nodes == [])
    {
    }

    /** The first loop of dev_gro_complete: everything before `last`, the node at index `k`. */
    method CompleteBefore(p0: SkbNode?, last: SkbNode?, ghost k: nat) returns (p: SkbNode?)
      requires Front(p0) && k <= |nodes| && last == if k == |nodes| then null else nodes[k]
      modifies this`qlen, this`skbNum, this`seqNext, this`completed, this`nodes, this`pkts, repr`prev
      ensures Front(p)
      ensures k <= |old(pkts)| && Abs() == PopMany(Mod32, old(Abs()), k)
    {
      hide FlowQueue.Front, Wrap, Arith.Diff, PopHead;
      ghost var j: nat, s, ns := 0, Abs(), nodes;
      p := p0;
      FrontLength(p);
      while p != last
        invariant j <= k && nodes == ns[j..] && |pkts| == |nodes| && Front(p)
        invariant k <= |s.q| && PopMany(Mod32, s, k) == PopMany(Mod32, Abs(), k - j)
        modifies this`qlen, this`skbNum, this`seqNext, this`completed, this`nodes, this`pkts, repr`prev
        decreases k - j
      {
        FrontLength(p);
        if nodes != [] { FrontIs(p, 0); }
        p := PopFront(p);
        FrontLength(p);
        j := j + 1;
      }
      FrontLength(p);
      if k < |ns| {
        FrontIs(p, k - j);
      }
    }

    /** The second loop: whatever starts at or before seq_next. */
    method CompleteInSequence(p0: SkbNode?) returns (p: SkbNode?)
      requires Front(p0)
      modifies this`qlen, this`skbNum, this`seqNext, this`completed, this`nodes, this`pkts, repr`prev
      ensures Front(p) && Abs() == PopInSequence(Mod32, old(Abs()))
    {
      hide FlowQueue.Front, Wrap, Arith.Diff, PopHead;
      ghost var t := PopInSequence(Mod32, Abs());
      p := p0;
      FrontLength(p);
      while p != null && !Mod32.Before(seqNext, p.pkt.sn)
        invariant Front(p) && PopInSequence(Mod32, Abs()) == t
        modifies this`qlen, this`skbNum, this`seqNext, this`completed, this`nodes, this`pkts, repr`prev
        decreases |nodes|
      {
        FrontLength(p);
        FrontIs(p, 0);
        p := PopFront(p);
      }
      FrontLength(p);
      if p != null {
        FrontIs(p, 0);
      }
    }

    /** dev_gro_complete; returns the new first buffer, or null if the queue went back to the
        pool. */
    method DevGroComplete(now: int, timeout: nat) returns (p: SkbNode?)
      requires Linked() && nodes != []
      modifies this`head, this`qlen, this`skbNum, this`seqNext, this`completed, this`nodes, this`pkts, repr`prev
      ensures Linked() && p == (if nodes == [] then null else nodes[0])
      ensures Abs() == Complete(Mod32, old(Abs()), now, timeout)
    {
      hide FlowQueue.Chain, FlowQueue.Counted, Wrap, Arith.Diff, KeepFrom, PopMany, PopInSequence;
      var last: SkbNode? := null;
      FrontLength(head);
      ghost var k := |nodes|;
      if timeout != 0 {
        last, k := FirstYoung(now, timeout);
      }
      p := CompleteBefore(head, last, k);
      p := CompleteInSequence(p);
      if p != null {
        head := p;
      }
    }

    // -------------------------------------------------------------------------------------
    // tcp_gro_receive.

    lemma NodeAt(i: nat)
      requires Linked() && i < |nodes|
      ensures |pkts| == |nodes| && nodes[i].pkt == pkts[i]
      ensures nodes[i].next == if i + 1 == |nodes| then null else nodes[i + 1]
      ensures nodes[i] in repr && (nodes[i].prev != null ==> nodes[i].prev in repr)
      ensures i + 1 < |nodes| ==> nodes[i + 1] in repr
    {
    }

    /** The arriving packet is not held: everything up to `p2` leaves, unless that is the whole
        queue, which the caller then completes. */
    method RefuseAt(p2: SkbNode, ghost i: nat) returns (flush: bool)
      requires Valid() && i < |nodes| && p2 == nodes[i]
      modifies this`head, this`tail, this`slot, this`qlen, this`skbNum, this`seqNext, this`completed, this`nodes, this`pkts, repr`prev
      ensures Valid() && Outcome(Abs(), false, flush) == Refuse(Mod32, old(Abs()), i)
    {
      hide FlowQueue.Linked, Wrap, FlushThrough;
      NodeAt(i);
      var p3 := p2.next;
      if p3 != null {
        slot := p3;
        SkbGroFlush(p2, i);
        return false;
      } else {
        return true;
      }
    }

    /** `skb` ends where `p2` begins. */
    method MeetLeft(skb: SkbNode, p2: SkbNode, inSeq: int, ghost i: nat) returns (held: bool, flush: bool)
      requires Valid() && i < |nodes| && p2 == nodes[i] && skb !in repr
      modifies this`head, this`tail, this`slot, this`qlen, this`skbNum, this`seqNext, this`completed, this`nodes, this`pkts, this`repr, repr, skb
      ensures Valid() && old(repr) <= repr <= old(repr) + {skb}
      ensures Outcome(Abs(), held, flush) == JoinLeft(Mod32, old(Abs()), old(skb.pkt), i, inSeq)
    {
      hide FlowQueue.Linked, Wrap, FlushThrough, Join, Refuse, InsertAt;
      NodeAt(i);
      match Join(skb.pkt.buf, p2.pkt.buf) {
        case Merged(b) =>
          TakePlace(skb, p2, Pkt(skb.pkt.sn, skb.pkt.len + p2.pkt.len, b, p2.pkt.ts), i);
          return true, false;
        case TooBig =>
          if inSeq != skb.pkt.sn {
            InsertBefore(skb, p2, i);
            return true, false;
          }
        case Invalid =>
      }
      held := false;
      flush := RefuseAt(p2, i);
    }

    /** `p` has been merged into `p2`, which becomes `y`; `p3` behind it begins where `p` ends. */
    method MeetNext(p2: SkbNode, p3: SkbNode, y: Pkt, pEnd: int, inOrder: bool, short: bool, ghost i: nat) returns (flush: bool)
      requires Valid() && i + 1 < |nodes| && p2 == nodes[i] && p3 == nodes[i + 1] && p2.pkt == y
      requires pEnd == p3.pkt.sn
      modifies this`head, this`tail, this`slot, this`qlen, this`skbNum, this`seqNext, this`completed, this`nodes, this`pkts, repr
      ensures Valid() && repr == old(repr)
      ensures Outcome(Abs(), true, flush) == Bridge(Mod32, old(Abs()), y, i, pEnd, inOrder, short)
    {
      hide FlowQueue.Linked, Wrap, FlushThrough, Join;
      NodeAt(i);
      NodeAt(i + 1);
      assert pkts[i := y] == pkts;
      var z := p3.pkt;
      match Join(y.buf, z.buf) {
        case Merged(b) =>
          TakeNext(p2, p3, Pkt(y.sn, y.len + z.len, b, if y.ts < z.ts then y.ts else z.ts), i);
          return short;
        case TooBig =>
          if inOrder {
            slot := p3;
            SkbGroFlush(p2, i);
          }
          return false;
        case Invalid =>
          var p4 := p3.next;
          if p4 != null {
            slot := p4;
            SkbGroFlush(p3, i + 1);
            return false;
          } else {
            return true;
          }
      }
    }

    /** `p`, which follows `p2` directly, has been merged to `b`. */
    method MeetRight(p: Pkt, p2: SkbNode, b: GroBuf, inOrder: bool, short: bool, ghost i: nat) returns (flush: bool)
      requires Valid() && i < |nodes| && p2 == nodes[i]
      modifies this`head, this`tail, this`slot, this`qlen, this`skbNum, this`seqNext, this`completed, this`nodes, this`pkts, repr
      ensures Valid() && repr == old(repr)
      ensures var x := old(p2.pkt);
        var y := Pkt(x.sn, x.len + p.len, b, x.ts);
        Outcome(Abs(), true, flush) == Bridge(Mod32, old(Abs()), y, i, End(Mod32, p), inOrder, short)
    {
      hide FlowQueue.Linked, Wrap, FlushThrough, Join, Arith.Diff;
      NodeAt(i);
      var x := p2.pkt;
      var y := Pkt(x.sn, x.len + p.len, b, x.ts);
      BridgeAgain(Abs(), y, i, End(Mod32, p), inOrder, short);
      Extend(p2, y, p.len, i);
      NodeAt(i);
      var end := Wrap(p.sn + p.len);
      var p3 := p2.next;
      if p3 != null {
        NodeAt(i + 1);
        if end == p3.pkt.sn {
          flush := MeetNext(p2, p3, y, end, inOrder, short, i);
          return;
        } else if Mod32.Before(p3.pkt.sn, end) {
          return true;
        }
      }
      return short;
    }

    /** `skb` follows the last node `p2` directly but cannot be merged into it. */
    method AppendTouching(skb: SkbNode, p2: SkbNode, inOrder: bool)
      requires Valid() && nodes != [] && p2 == nodes[|nodes| - 1] && skb !in repr
      modifies this`head, this`tail, this`slot, this`qlen, this`skbNum, this`seqNext, this`completed, this`nodes, this`pkts, this`repr, repr, skb
      ensures Valid() && repr == old(repr) + {skb}
      ensures var t := old(Abs()).(q := old(pkts) + [old(skb.pkt)]);
        Abs() == if inOrder then FlushThrough(Mod32, t, |t.q| - 2) else t
    {
      hide FlowQueue.Linked, Wrap, FlushThrough;
      NodeAt(|nodes| - 1);
      Append(skb, p2);
      HeadIsFirst();
      if inOrder {
        slot := skb;
        SkbGroFlush(p2, |nodes| - 2);
      }
    }

    /** The loop of tcp_gro_receive; `short` is set when `skb` is shorter than a segment. */
    method WalkQueue(skb: SkbNode, short: bool) returns (held: bool, flush: bool)
      requires Valid() && nodes != [] && skb !in repr
      modifies this`head, this`tail, this`slot, this`qlen, this`skbNum, this`seqNext, this`completed, this`nodes, this`pkts, this`repr, repr, skb
      ensures Valid() && old(repr) <= repr <= old(repr) + {skb}
      ensures Outcome(Abs(), held, flush) == Walk(Mod32, old(Abs()), old(skb.pkt), 0, old(seqNext), short)
    {
      hide FlowQueue.Linked, Wrap, FlushThrough, Join, JoinLeft, Bridge, Refuse, InsertAt, Arith.Diff;
      var p := skb.pkt;
      var end := Wrap(p.sn + p.len);
      var p2, inSeqNext := head, seqNext;
      HeadIsFirst();
      ghost var i: nat, o := 0, Walk(Mod32, Abs(), p, 0, seqNext, short);
      while true
        invariant Valid() && i < |nodes| && p2 == nodes[i] && repr == old(repr) && skb.pkt == p && |pkts| == |nodes|
        invariant Walk(Mod32, Abs(), p, i, inSeqNext, short) == o
        decreases |nodes| - i
      {
        NodeAt(i);
        var x, inSeq := p2.pkt, inSeqNext;
        var xEnd := Wrap(x.sn + x.len);
        if inSeq == x.sn {
          inSeqNext := xEnd;
        }
        if Mod32.Before(end, x.sn) {
          InsertBefore(skb, p2, i);
          return true, short;
        } else if end == x.sn {
          held, flush := MeetLeft(skb, p2, inSeq, i);
          flush := if held then short else flush;
          return;
        } else if p.sn == xEnd {
          match Join(x.buf, p.buf) {
            case Merged(b) =>
              held := true;
              flush := MeetRight(p, p2, b, inSeq == x.sn, short, i);
              return;
            case TooBig =>
              var p3 := p2.next;
              if p3 != null {
                if inSeq == x.sn {
                  slot := p3;
                  SkbGroFlush(p2, i);
                  HeadIsFirst();
                  i := 0;
                } else {
                  i := i + 1;
                }
                p2 := p3;
              } else {
                AppendTouching(skb, p2, inSeq == x.sn);
                return true, short;
              }
            case Invalid =>
              held := false;
              flush := RefuseAt(p2, i);
              return;
          }
        } else if After(Mod32, p.sn, xEnd) {
          if p2.next == null {
            Append(skb, p2);
            return true, short;
          } else {
            p2 := p2.next;
            i := i + 1;
          }
        } else {
          return false, true;
        }
      }
    }

    lemma HeadIsFirst()
      requires Linked()
      ensures |pkts| == |nodes| && (nodes != [] ==> head == nodes[0])
    {
    }

    /** tcp_gro_receive for a flow that has its slot in the list of flows. */
    method TcpGroReceive(skb: SkbNode, differs: bool) returns (held: bool, flush: bool)
      requires Valid() && nodes != [] && skb !in repr
      modifies this`head, this`tail, this`slot, this`qlen, this`skbNum, this`seqNext, this`completed, this`nodes, this`pkts, this`repr, repr, skb
      ensures Valid() && old(repr) <= repr <= old(repr) + {skb}
      ensures |old(pkts)| > 0
      ensures Outcome(Abs(), held, flush) == GroQueue.TcpGroReceive(Mod32, old(AbsFlow()), old(skb.pkt), differs)
    {
      hide FlowQueue.Linked, Walk, Arith.Diff;
      HeadIsFirst();
      NodeAt(0);
      var p := skb.pkt;
      if differs || p.buf.off != slot.pkt.buf.off || p.len == 0 || p.len > mss {
        return false, true;
      } else if Mod32.Before(p.sn, seqNext) {
        return false, false;
      } else {
        held, flush := WalkQueue(skb, p.len < mss);
      }
    }

    /** GRO_NORMAL. */
    method PassUp(p: Pkt)
      modifies this`seqNext, this`normal
      ensures AbsFlow() == Bypass(Mod32, old(AbsFlow()), p)
    {
      seqNext := Mod32.Max(seqNext, Wrap(p.sn + p.len));
      normal := normal + [p];
    }

    /** `skb` becomes the only packet of an empty queue. */
    method Start(skb: SkbNode)
      requires Valid() && nodes == [] && skb !in repr
      modifies this`head, this`tail, this`slot, this`qlen, this`skbNum, this`mss, this`nodes, this`pkts, this`repr, skb
      ensures Valid() && repr == old(repr) + {skb} && pkts == [old(skb.pkt)] && mss == old(skb.pkt.len)
    {
      AmountOne(skb.pkt);
      head, tail, slot := skb, skb, skb;
      qlen, skbNum, mss := skb.pkt.len, 1, skb.pkt.len;
      skb.prev, skb.next := null, null;
      nodes, pkts, repr := [skb], [skb.pkt], repr + {skb};
    }

    /** The flow has no packets queued: `skb` is the first, unless it is empty or late. */
    method OpenQueue(skb: SkbNode, differs: bool)
      requires Valid() && nodes == [] && skb !in repr
      modifies this, skb
      ensures Valid() && old(repr) <= repr <= old(repr) + {skb}
      ensures old(AbsFlow()).s.q == [] && AbsFlow() == Open(Mod32, old(AbsFlow()), old(skb.pkt), differs)
    {
      hide Arith.Diff, FlowQueue.Linked, Bypass;
      HeadIsFirst();
      if differs || skb.pkt.len == 0 || Mod32.Before(skb.pkt.sn, seqNext) {
        PassUp(skb.pkt);
      } else {
        Start(skb);
      }
    }

    /** What dev_gro_receive does for a packet of this flow. */
    method DevGroReceive(skb: SkbNode, differs: bool, now: int)
      requires Valid() && skb !in repr
      modifies this, repr, skb
      ensures Valid() && old(repr) <= repr <= old(repr) + {skb}
      ensures AbsFlow() == Step(Mod32, old(AbsFlow()), Arrive(old(skb.pkt), differs))
    {
      hide FlowQueue.Linked, Complete, Bypass, Open, GroQueue.TcpGroReceive, Arith.Diff, Expired;
      HeadIsFirst();
      var p := skb.pkt;
      if slot == null {
        OpenQueue(skb, differs);
      } else {
        var held, flush := TcpGroReceive(skb, differs);
        HeadIsFirst();
        if flush {
          CompleteAllFlow(now);
        }
        if !held {
          PassUp(p);
        }
      }
    }

    /** The flow loses its slot and everything it holds. */
    method CompleteAllFlow(now: int)
      requires Valid() && nodes != []
      modifies this`head, this`slot, this`qlen, this`skbNum, this`seqNext, this`completed, this`nodes, this`pkts, repr`prev
      ensures Valid() && nodes == [] && Abs() == CompleteAll(Mod32, old(Abs()))
    {
      hide FlowQueue.Linked, Complete;
      CompleteAllEmpties(Mod32, Abs(), now);
      HeadIsFirst();
      slot := null;
      var p := DevGroComplete(now, 0);
      HeadIsFirst();
    }

    /** What napi_gro_flush does for this flow. */
    method FlushOld(now: int, timeout: nat)
      requires Valid() && nodes != []
      modifies this`head, this`slot, this`qlen, this`skbNum, this`seqNext, this`completed, this`nodes, this`pkts, repr`prev
      ensures Valid() && AbsFlow() == Step(Mod32, old(AbsFlow()), Timer(now, timeout))
    {
      hide FlowQueue.Linked, Complete;
      var p := DevGroComplete(now, timeout);
      slot := p;
    }
  }

  lemma BridgeAgain(s: Queue, y: Pkt, i: nat, pEnd: int, inOrder: bool, short: bool)
    requires i < |s.q|
    ensures Bridge(Mod32, s.(q := s.q[i := y]), y, i, pEnd, inOrder, short)
         == Bridge(Mod32, s, y, i, pEnd, inOrder, short)
  {
    hide FlushThrough, Join, After;
    var q := s.q[i := y];
    assert q[i := y] == q && q[..i] == s.q[..i];
    if i + 1 < |q| {
      assert q[i + 2..] == s.q[i + 2..];
    }
  }

  lemma {:induction false} KeepFromUnique(q: seq<Pkt>, now: int, timeout: nat, k: nat)
    requires k <= |q| && forall i :: k <= i < |q| ==> Young(q[i], now, timeout)
    requires k > 0 ==> !Young(q[k - 1], now, timeout)
    ensures KeepFrom(q, now, timeout) == k
  {
  }

  lemma AmountPair(q: seq<Pkt>, k: nat, w: Pkt)
    requires k + 1 < |q| && w.len == q[k].len + q[k + 1].len
    ensures Amount(q[..k] + [w] + q[k + 2..]) == Amount(q)
  {
    AmountSplice(q, k, k + 2, w);
    assert q[k..k + 2] == [q[k]] + [q[k + 1]];
    AmountConcat([q[k]], [q[k + 1]]);
    AmountOne(q[k]);
    AmountOne(q[k + 1]);
  }
}
