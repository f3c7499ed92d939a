/**
  The netfilter reorder module itself: global pointers to a doubly linked list of held
  packets, a counter, and the next expected sequence number.  Every operation is proved equal
  to the corresponding function of module Reorder on 32-bit numbers.

  `accepted` records the packets given to nf_reinject, in order.
 */
module ReorderQueue {
  import opened Serial
  import opened Reorder

  class Node {
    const entry: Packet
    const sn: int := entry.sn
    const snNext: int := End(Mod32, entry)
    var prev: Node?
    var next: Node?

    constructor (entry: Packet, prev: Node?, next: Node?)
      ensures this.entry == entry && this.prev == prev && this.next == next
    {
      this.entry, this.prev, this.next := entry, prev, next;
    }
  }

  function Entries(ns: seq<Node>): (r: seq<Packet>)
    ensures |r| == |ns|
    ensures forall i :: 0 <= i < |ns| ==> r[i] == ns[i].entry
  {
    seq(|ns|, i requires 0 <= i < |ns| => ns[i].entry)
  }

  lemma EntriesDrop(ns: seq<Node>, k: nat)
    requires k <= |ns|
    ensures Entries(ns[k..]) == Entries(ns)[k..]
  {
  }

  ghost function InsertNode(ns: seq<Node>, k: nat, n: Node): (r: seq<Node>)
    requires k <= |ns|
    ensures |r| == |ns| + 1 && r[k] == n
    ensures forall i :: 0 <= i < k ==> r[i] == ns[i]
    ensures forall i :: k < i < |r| ==> r[i] == ns[i - 1]
    ensures Entries(r) == InsertAt(Entries(ns), k, n.entry)
  {
    ns[..k] + [n] + ns[k..]
  }

  lemma TakeNext(out: seq<Packet>, q: seq<Packet>, j: nat)
    requires j < |q|
    ensures out + q[..j] + [q[j]] == out + q[..j + 1]
  {
  }

  lemma DrainHead(next: int, q: seq<Packet>, j: nat, out: seq<Packet>)
    requires j < |q| && Mod32.Diff(q[j].sn, next) <= 0
    ensures Drain(Mod32, State(next, q[j..], out))
         == Drain(Mod32, State(Mod32.Max(next, End(Mod32, q[j])), q[j + 1..], out + [q[j]]))
  {
    assert q[j..][1..] == q[j + 1..];
  }

  lemma DrainEnd(s: State)
    requires s.q != [] ==> Mod32.Diff(s.q[0].sn, s.next) > 0
    ensures Drain(Mod32, s) == s
  {
  }

  lemma GapCases(s: State, p: Packet)
    ensures var i := Slot(Mod32, s.q, End(Mod32, p));
      EnqueueGap(Mod32, s, p) ==
        if |s.q| > MAX_REORDER_COUNT then
          Bump(Mod32, Accept(FlushPrefix(Mod32, s, |s.q|), p), End(Mod32, p))
        else if i > 0 && Mod32.Diff(p.sn, End(Mod32, s.q[i - 1])) < 0 then
          Bump(Mod32, Accept(FlushPrefix(Mod32, s, i), p), End(Mod32, p))
        else s.(q := InsertAt(s.q, i, p))
  {
  }

  class ReorderList {
    var head: Node?
    var tail: Node?
    var count: int
    var seqNext: int
    var accepted: seq<Packet>
    ghost var nodes: seq<Node>

    ghost var repr: set<Node>

    /** `nodes` is a chain in list order; the first node's `prev` is not constrained. */
    ghost predicate Chain()
      reads this, repr
    {
      && (forall i :: 0 <= i < |nodes| ==> nodes[i] in repr)
      && (forall i, j :: 0 <= i < j < |nodes| ==> nodes[i] != nodes[j])
      && (forall i {:trigger nodes[i].prev} :: 0 < i < |nodes| ==> nodes[i].prev == nodes[i - 1])
      && (forall i {:trigger nodes[i].next} :: 0 <= i < |nodes| ==>
            nodes[i].next == if i == |nodes| - 1 then null else nodes[i + 1])
    }

    ghost predicate Valid()
      reads this, repr
    {
      && Chain()
      && count == |nodes|
      && (if nodes == [] then head == null && tail == null
          else head == nodes[0] && tail == nodes[|nodes| - 1] && nodes[0].prev == null)
    }

    ghost function Abs(): State
      reads this
    {
      State(seqNext, Entries(nodes), accepted)
    }

    constructor ()
      ensures Valid() && nodes == [] && Abs() == State(0, [], [])
    {
      head, tail, count, seqNext, accepted := null, null, 0, 0, [];
      nodes, repr := [], {};
    }

    method Reinject(p: Packet)
      modifies this`accepted
      ensures accepted == old(accepted) + [p]
    {
      accepted := accepted + [p];
    }

    /** `Valid` while the head is being advanced: the nodes before index `j` have left. */
    ghost predicate Draining(j: nat)
      reads this, repr
    {
      && Chain()
      && j <= |nodes|
      && count == |nodes| - j
      && head == (if j == |nodes| then null else nodes[j])
      && (nodes != [] ==> tail == nodes[|nodes| - 1])
    }

    /** Resets `tail` of an emptied list and clears `prev` of the new head (see README.md). */
    method CloseHead(ghost j: nat)
      requires Draining(j)
      modifies this`tail, this`nodes, if head == null then {} else {head}
      ensures Valid() && nodes == old(nodes)[j..]
      ensures repr == old(repr) && seqNext == old(seqNext) && accepted == old(accepted)
    {
      if head == null {
        tail := null;
      } else {
        head.prev := null;
      }
      nodes := nodes[j..];
    }

    /** The head packet is accepted and its node freed. */
    method AcceptHead(ghost j: nat)
      requires Draining(j) && head != null
      modifies this`head, this`count, this`accepted
      ensures Draining(j + 1)
      ensures nodes == old(nodes) && repr == old(repr) && seqNext == old(seqNext)
      ensures accepted == old(accepted) + [nodes[j].entry]
    {
      Reinject(head.entry);
      head := head.next;
      count := count - 1;
    }

    /** Accepts and frees the nodes before `stop`, which is the node at index `k`, or null for
        the whole list. */
    method FlushReorderQueue(stop: Node?, ghost k: nat)
      requires Valid() && k <= |nodes|
      requires stop == if k == |nodes| then null else nodes[k]
      modifies this, repr
      ensures Valid() && repr == old(repr) && nodes == old(nodes[k..])
      ensures Abs() == FlushPrefix(Mod32, old(Abs()), k)
    {
      hide Wrap, Entries;
      ghost var j, q := 0, Entries(nodes);
      while head != stop && head != null
        invariant Draining(j) && j <= k && nodes == old(nodes) && repr == old(repr)
        invariant seqNext == if j == 0 then old(seqNext) else End(Mod32, q[j - 1])
        invariant accepted == old(accepted) + q[..j]
        modifies this`head, this`count, this`accepted, this`seqNext
        decreases k - j
      {
        TakeNext(old(accepted), q, j);
        seqNext := head.snNext;
        AcceptHead(j);
        j := j + 1;
      }
      assert j == k;
      EntriesDrop(nodes, k);
      CloseHead(k);
    }

    method HrtimerCallback()
      requires Valid()
      modifies this, repr
      ensures Valid() && repr == old(repr) && nodes == []
      ensures Abs() == Step(Mod32, old(Abs()), Timeout)
    {
      FlushReorderQueue(null, |nodes|);
    }

    /** Accepts the head for as long as it starts at or before `seqNext`. */
    method DrainInSequence()
      requires Valid()
      modifies this, repr
      ensures Valid() && repr == old(repr)
      ensures Abs() == Drain(Mod32, old(Abs()))
    {
      hide Drain, Wrap, Arith.Diff;
      ghost var j, q, d := 0, Entries(nodes), Drain(Mod32, Abs());
      while head != null && Mod32.Diff(head.sn, seqNext) <= 0
        invariant Draining(j) && nodes == old(nodes) && repr == old(repr)
        invariant Drain(Mod32, State(seqNext, q[j..], accepted)) == d
        modifies this`head, this`count, this`accepted, this`seqNext
        decreases |nodes| - j
      {
        assert head.sn == q[j].sn && head.snNext == End(Mod32, q[j]);
        DrainHead(seqNext, q, j, accepted);
        if Mod32.Diff(seqNext, head.snNext) < 0 {
          seqNext := head.snNext;
        }
        AcceptHead(j);
        j := j + 1;
      }
      DrainEnd(State(seqNext, q[j..], accepted));
      EntriesDrop(nodes, j);
      CloseHead(j);
    }

    /** Links a new node for `p` in front of `at`, the node at index `k`, or behind the tail. */
    method LinkBefore(p: Packet, at: Node?, ghost k: nat)
      requires Valid() && k <= |nodes|
      requires at == if k == |nodes| then null else nodes[k]
      modifies this, repr
      ensures Valid() && fresh(repr - old(repr))
      ensures Abs() == old(Abs()).(q := InsertAt(old(Abs()).q, k, p))
    {
      if head == null {
        LinkOnly(p);
      } else if at == null {
        LinkTail(p);
      } else if at.prev == null {
        LinkHead(p);
      } else {
        LinkMiddle(p, at, k);
      }
    }

    method LinkOnly(p: Packet)
      requires Valid() && head == null
      modifies this
      ensures Valid() && fresh(repr - old(repr))
      ensures Entries(nodes) == InsertAt(old(Entries(nodes)), 0, p)
      ensures seqNext == old(seqNext) && accepted == old(accepted)
    {
      head := new Node(p, null, null);
      tail := head;
      count := 1;
      nodes, repr := InsertNode(nodes, 0, head), {head};
    }

    method LinkTail(p: Packet)
      requires Valid() && head != null
      modifies this, tail
      ensures Valid() && fresh(repr - old(repr))
      ensures Entries(nodes) == InsertAt(old(Entries(nodes)), |old(nodes)|, p)
      ensures seqNext == old(seqNext) && accepted == old(accepted)
    {
      hide InsertNode, InsertAt, Wrap;
      var n := new Node(p, tail, null);
      tail.next := n;
      tail := n;
      count := count + 1;
      nodes, repr := InsertNode(nodes, |nodes|, n), repr + {n};
    }

    method LinkHead(p: Packet)
      requires Valid() && head != null
      modifies this, head
      ensures Valid() && fresh(repr - old(repr))
      ensures Entries(nodes) == InsertAt(old(Entries(nodes)), 0, p)
      ensures seqNext == old(seqNext) && accepted == old(accepted)
    {
      hide InsertNode, InsertAt, Wrap;
      var n := new Node(p, null, head);
      head.prev := n;
      head := n;
      count := count + 1;
      nodes, repr := InsertNode(nodes, 0, n), repr + {n};
    }

    method LinkMiddle(p: Packet, at: Node, ghost k: nat)
      requires Valid() && 0 < k < |nodes| && at == nodes[k]
      modifies this, at, at.prev
      ensures Valid() && fresh(repr - old(repr))
      ensures Entries(nodes) == InsertAt(old(Entries(nodes)), k, p)
      ensures seqNext == old(seqNext) && accepted == old(accepted)
    {
      hide InsertNode, InsertAt, Wrap;
      var n := new Node(p, at.prev, at);
      n.prev.next := n;
      n.next.prev := n;
      count := count + 1;
      nodes, repr := InsertNode(nodes, k, n), repr + {n};
    }

    /** The first node that starts at or after `end`, and the node in front of that place. */
    method FindSlot(end: int) returns (at: Node?, before: Node?, ghost k: nat)
      requires Valid()
      ensures |nodes| == count && k == Slot(Mod32, Entries(nodes), end) <= |nodes|
      ensures at == if k == |nodes| then null else nodes[k]
      ensures before == if k == 0 then null else nodes[k - 1]
      ensures before != null ==> before.snNext == End(Mod32, nodes[k - 1].entry)
    {
      at := head;
      k := 0;
      while at != null
        invariant k <= |nodes|
        invariant at == if k == |nodes| then null else nodes[k]
        invariant forall j :: 0 <= j < k ==> Mod32.Diff(end, nodes[j].entry.sn) > 0
        decreases |nodes| - k
      {
        if Mod32.Diff(end, at.sn) <= 0 {
          break;
        }
        at := at.next;
        k := k + 1;
      }
      before := if at == null then tail else at.prev;
    }

    method FlushAndAccept(stop: Node?, p: Packet, end: int, ghost k: nat)
      requires Valid() && k <= |nodes|
      requires stop == if k == |nodes| then null else nodes[k]
      modifies this, repr
      ensures Valid() && repr == old(repr)
      ensures Abs() == Bump(Mod32, Accept(FlushPrefix(Mod32, old(Abs()), k), p), end)
    {
      hide FlushPrefix, Wrap, Entries;
      FlushReorderQueue(stop, k);
      Reinject(p);
      if Mod32.Diff(seqNext, end) < 0 {
        seqNext := end;
      }
    }

    /** Room is left: hold the packet, unless it overlaps the one in front of its place. */
    method HoldPacket(p: Packet, end: int)
      requires Valid() && count <= MAX_REORDER_COUNT && end == End(Mod32, p)
      modifies this, repr
      ensures Valid() && fresh(repr - old(repr))
      ensures Abs() == EnqueueGap(Mod32, old(Abs()), p)
    {
      GapCases(Abs(), p);
      hide ReorderList.Valid, ReorderList.Chain, EnqueueGap, FlushPrefix, InsertAt, Bump, Accept, Slot, End, Arith.Diff;
      var at, before, k := FindSlot(end);
      if before != null && Mod32.Diff(p.sn, before.snNext) < 0 {
        FlushAndAccept(at, p, end, k);
      } else {
        LinkBefore(p, at, k);
      }
    }

    method EnqueueGapPacket(p: Packet, end: int)
      requires Valid() && end == End(Mod32, p)
      modifies this, repr
      ensures Valid() && fresh(repr - old(repr))
      ensures Abs() == EnqueueGap(Mod32, old(Abs()), p)
    {
      GapCases(Abs(), p);
      hide EnqueueGap, FlushPrefix, InsertAt, Bump, Accept, Slot, End, Arith.Diff;
      if count > MAX_REORDER_COUNT {
        FlushAndAccept(null, p, end, |nodes|);
      } else {
        HoldPacket(p, end);
      }
    }

    /** The queue handler registered with netfilter. */
    method EnqueuePacket(p: Packet)
      requires Valid()
      modifies this, repr
      ensures Valid() && fresh(repr - old(repr))
      ensures Abs() == Step(Mod32, old(Abs()), Arrive(p))
    {
      hide Drain, EnqueueGap, FlushPrefix, Wrap, Arith.Diff;
      var end := Wrap(p.sn + p.len);
      if p.syn {
        FlushReorderQueue(null, |nodes|);
        seqNext := Wrap(p.sn + 1);
        Reinject(p);
      } else if p.len == 0 {
        FlushReorderQueue(null, |nodes|);
        if Mod32.Diff(seqNext, end) < 0 {
          seqNext := end;
        }
        Reinject(p);
      } else if Mod32.Diff(end, seqNext) <= 0 {
        Reinject(p);
      } else if Mod32.Diff(p.sn, seqNext) <= 0 {
        Reinject(p);
        seqNext := end;
        DrainInSequence();
      } else {
        EnqueueGapPacket(p, end);
      }
    }
  }
}
