/**
  Receive Packet Steering as a state machine over its atomic steps: the receive path of one
  device queue chooses a CPU for every packet and puts it on the backlog of that CPU, while
  every CPU works through its own backlog.  An entry of the flow table is moved to another CPU
  only when the head counter of the old one has passed the tail recorded in the entry; the
  counters are 32-bit words that wrap.

  The main theorem: a packet that its entry routed finishes protocol processing before all later
  packets of the entry, and that is so for every packet if and only if its entry has a CPU.
 */
module Rps {
  import opened Serial
  import opened Wrappers

  /** A packet: its place in the order of arrival, the table entry its hash selects, and whether
      that entry chose its CPU (`tracked`). */
  datatype Item = Item(id: nat, slot: nat, tracked: bool)

  /** What a CPU does with the packet it took off the backlog: it is in protocol processing, or
      that is over and the head counter not yet advanced. */
  datatype Work = Free | Busy(item: Item) | Finished

  /** softnet_data: input_pkt_queue, process_queue, and the two counters. */
  datatype Softnet = Softnet(input: seq<Item>, process: seq<Item>, work: Work, head: int, tail: int)

  /** rps_dev_flow; no CPU is RPS_NO_CPU. */
  datatype Flow = Flow(cpu: Option<nat>, lastQtail: int)

  /** Between the choice of a CPU and the enqueueing there is one packet under way. */
  datatype Pending = Nothing | Routed(item: Item, cpu: nat)

  /** `done` lists the packets in the order in which their protocol processing ended. */
  datatype State = State(cpus: seq<Softnet>, table: seq<Flow>, pending: Pending, arrived: nat, done: seq<Item>)

  datatype Event =
    | Receive(slot: nat, desired: Option<nat>, fallback: nat)
    | Enqueue(limited: bool)
    | Other(cpu: nat, id: nat)
    | Splice(cpu: nat)
    | Dequeue(cpu: nat)
    | Finish(cpu: nat)
    | Advance(cpu: nat)

  /** set_rps_cpu, without accelerated steering. */
  function MovedTo(cpus: seq<Softnet>, flow: Flow, desired: Option<nat>): Flow
    requires desired.Some? ==> desired.value < |cpus|
  {
    if desired.Some? then Flow(desired, cpus[desired.value].head) else flow.(cpu := None)
  }

  /** The entry may be moved: it has no CPU, or its last packet is done. */
  predicate MayMove(cpus: seq<Softnet>, flow: Flow)
    requires flow.cpu.Some? ==> flow.cpu.value < |cpus|
  {
    flow.cpu.None? || Mod32.Diff(cpus[flow.cpu.value].head, flow.lastQtail) >= 0
  }

  /** The table part of get_rps_cpu: the entry afterwards. */
  function Steer(cpus: seq<Softnet>, flow: Flow, desired: Option<nat>): Flow
    requires flow.cpu.Some? ==> flow.cpu.value < |cpus|
    requires desired.Some? ==> desired.value < |cpus|
  {
    if flow.cpu != desired && MayMove(cpus, flow) then MovedTo(cpus, flow, desired) else flow
  }

  /** enqueue_to_backlog on a CPU whose queue has room. */
  function Pushed(c: Softnet, item: Item): Softnet {
    c.(input := c.input + [item], tail := Wrap(c.tail + 1))
  }

  predicate Room(c: Softnet, maxBacklog: nat) {
    |c.input| <= maxBacklog
  }

  predicate Known(s: State, cpu: nat) {
    cpu < |s.cpus|
  }

  function Received(s: State, slot: nat, desired: Option<nat>, fallback: nat): State
    requires slot < |s.table| && (s.table[slot].cpu.Some? ==> Known(s, s.table[slot].cpu.value))
    requires desired.Some? ==> Known(s, desired.value)
  {
    var flow := Steer(s.cpus, s.table[slot], desired);
    s.(table := s.table[slot := flow], arrived := s.arrived + 1,
       pending := if flow.cpu.Some? then Routed(Item(s.arrived, slot, true), flow.cpu.value)
                  else Routed(Item(s.arrived, slot, false), fallback))
  }

  /** The packet under way is queued, or dropped when the queue is full or the flow limited. */
  function Enqueued(s: State, limited: bool, maxBacklog: nat): State
    requires s.pending.Routed? && Known(s, s.pending.cpu)
    requires s.pending.item.tracked ==> s.pending.item.slot < |s.table|
  {
    var Routed(item, cpu) := s.pending;
    if limited || !Room(s.cpus[cpu], maxBacklog) then s.(pending := Nothing)
    else
      var c := Pushed(s.cpus[cpu], item);
      var t := if item.tracked then s.table[item.slot := s.table[item.slot].(lastQtail := c.tail)] else s.table;
      s.(cpus := s.cpus[cpu := c], table := t, pending := Nothing)
  }

  /** One atomic step; an event that is not possible in `s` changes nothing.  Other receive
      queues and netif_rx put packets on the backlogs too (`Other`); these belong to no entry. */
  function Step(s: State, e: Event, maxBacklog: nat): State {
    match e
    case Receive(slot, desired, fallback) =>
      if s.pending.Nothing? && slot < |s.table| && Known(s, fallback)
         && (desired.Some? ==> Known(s, desired.value))
         && (s.table[slot].cpu.Some? ==> Known(s, s.table[slot].cpu.value))
      then Received(s, slot, desired, fallback) else s
    case Enqueue(limited) =>
      if s.pending.Routed? && Known(s, s.pending.cpu) && (s.pending.item.tracked ==> s.pending.item.slot < |s.table|)
      then Enqueued(s, limited, maxBacklog) else s
    case Other(cpu, id) =>
      if Known(s, cpu) && Room(s.cpus[cpu], maxBacklog)
      then s.(cpus := s.cpus[cpu := Pushed(s.cpus[cpu], Item(id, |s.table|, false))]) else s
    case Splice(cpu) =>
      if Known(s, cpu) && s.cpus[cpu].process == []
      then s.(cpus := s.cpus[cpu := s.cpus[cpu].(process := s.cpus[cpu].input, input := [])]) else s
    case Dequeue(cpu) =>
      if Known(s, cpu) && s.cpus[cpu].work.Free? && s.cpus[cpu].process != []
      then s.(cpus := s.cpus[cpu := s.cpus[cpu].(process := s.cpus[cpu].process[1..],
                                                 work := Busy(s.cpus[cpu].process[0]))]) else s
    case Finish(cpu) =>
      if Known(s, cpu) && s.cpus[cpu].work.Busy?
      then s.(cpus := s.cpus[cpu := s.cpus[cpu].(work := Finished)], done := s.done + [s.cpus[cpu].work.item]) else s
    case Advance(cpu) =>
      if Known(s, cpu) && s.cpus[cpu].work.Finished?
      then s.(cpus := s.cpus[cpu := s.cpus[cpu].(work := Free, head := Wrap(s.cpus[cpu].head + 1))]) else s
  }

  function Run(s: State, es: seq<Event>, maxBacklog: nat): State
    decreases |es|
  {
    if es == [] then s else Run(Step(s, es[0], maxBacklog), es[1..], maxBacklog)
  }

  // ---------------------------------------------------------------------------------------
  // The invariant.

  /** The packets a CPU still has to finish, in the order in which it will. */
  ghost function Line(c: Softnet): seq<Item> {
    (if c.work.Busy? then [c.work.item] else []) + c.process + c.input
  }

  /** The number of packets the CPU has finished, as a 32-bit word. */
  ghost function Base(c: Softnet): int {
    Wrap(c.head + if c.work.Finished? then 1 else 0)
  }

  ghost predicate Related(a: Item, b: Item) {
    a.tracked && b.tracked && a.slot == b.slot
  }

  ghost predicate Ordered(l: seq<Item>) {
    forall i, j :: 0 <= i < j < |l| && Related(l[i], l[j]) ==> l[i].id < l[j].id
  }

  ghost predicate Precedes(l: seq<Item>, r: seq<Item>) {
    forall i, j :: 0 <= i < |l| && 0 <= j < |r| && Related(l[i], r[j]) ==> l[i].id < r[j].id
  }

  ghost predicate Below(l: seq<Item>, n: nat) {
    forall i :: 0 <= i < |l| && l[i].tracked ==> l[i].id < n
  }

  /** Tracked packets are on the CPU of their entry. */
  ghost predicate Home(table: seq<Flow>, l: seq<Item>, cpu: nat) {
    forall k :: 0 <= k < |l| && l[k].tracked ==> l[k].slot < |table| && table[l[k].slot].cpu == Some(cpu)
  }

  /** The tail recorded in an entry is behind each of its unfinished packets and not behind the
      end of the line. */
  ghost predicate Marked(table: seq<Flow>, l: seq<Item>, base: int) {
    forall k :: 0 <= k < |l| && l[k].tracked ==>
      l[k].slot < |table| && k < Wrap(table[l[k].slot].lastQtail - base) <= |l|
  }

  ghost predicate Sized(c: Softnet, maxBacklog: nat) {
    |c.input| <= maxBacklog + 1 && |c.process| <= maxBacklog + 1 && c.tail == Wrap(Base(c) + |Line(c)|)
  }

  /** The number below which all packets are that have left the receive path. */
  ghost function Limit(s: State): nat {
    if s.pending.Routed? then s.pending.item.id else s.arrived
  }

  ghost predicate CpuOk(s: State, cpu: nat, maxBacklog: nat)
    requires cpu < |s.cpus|
  {
    var c := s.cpus[cpu];
    && Ordered(Line(c)) && Precedes(s.done, Line(c)) && Below(Line(c), Limit(s))
    && Home(s.table, Line(c), cpu) && Marked(s.table, Line(c), Base(c)) && Sized(c, maxBacklog)
  }

  ghost predicate Inv(s: State, maxBacklog: nat) {
    && Ordered(s.done) && Below(s.done, Limit(s))
    && (forall cpu :: 0 <= cpu < |s.cpus| ==> CpuOk(s, cpu, maxBacklog))
    && (s.pending.Routed? ==>
          && s.pending.cpu < |s.cpus| && s.pending.item.id < s.arrived
          && (s.pending.item.tracked ==>
                s.pending.item.slot < |s.table| && s.table[s.pending.item.slot].cpu == Some(s.pending.cpu)))
  }

  /** What the lines of the other CPUs need when one CPU, the table or the finished packets
      change. */
  lemma OthersKeep(s: State, t: State, cpu: nat, maxBacklog: nat)
    requires Inv(s, maxBacklog) && |t.cpus| == |s.cpus|
    requires forall i :: 0 <= i < |s.cpus| && i != cpu ==> t.cpus[i] == s.cpus[i]
    requires t.table == s.table && t.done == s.done && Limit(s) <= Limit(t)
    ensures forall i :: 0 <= i < |t.cpus| && i != cpu ==> CpuOk(t, i, maxBacklog)
  {
    hide Ordered, Precedes, Home, Marked, Line, Sized;
    forall i | 0 <= i < |t.cpus| && i != cpu
      ensures CpuOk(t, i, maxBacklog)
    {
      assert CpuOk(s, i, maxBacklog);
    }
  }

  /** The line of a CPU stays as it is. */
  lemma SameLineKeeps(s: State, t: State, cpu: nat, maxBacklog: nat)
    requires Inv(s, maxBacklog) && cpu < |s.cpus| == |t.cpus| && t == s.(cpus := s.cpus[cpu := t.cpus[cpu]])
    requires Line(t.cpus[cpu]) == Line(s.cpus[cpu]) && Base(t.cpus[cpu]) == Base(s.cpus[cpu])
    requires Sized(t.cpus[cpu], maxBacklog)
    ensures Inv(t, maxBacklog)
  {
    hide Ordered, Precedes, Home, Marked, Line, Sized, Base, Below;
    assert CpuOk(s, cpu, maxBacklog);
    OthersKeep(s, t, cpu, maxBacklog);
    assert CpuOk(t, cpu, maxBacklog);
  }

  lemma SpliceKeeps(s: State, cpu: nat, maxBacklog: nat)
    requires Inv(s, maxBacklog)
    ensures Inv(Step(s, Splice(cpu), maxBacklog), maxBacklog)
  {
    hide Ordered, Precedes, Home, Marked, Below;
    var t := Step(s, Splice(cpu), maxBacklog);
    if t != s {
      assert CpuOk(s, cpu, maxBacklog);
      assert Line(t.cpus[cpu]) == Line(s.cpus[cpu]);
      SameLineKeeps(s, t, cpu, maxBacklog);
    }
  }

  lemma DequeueKeeps(s: State, cpu: nat, maxBacklog: nat)
    requires Inv(s, maxBacklog)
    ensures Inv(Step(s, Dequeue(cpu), maxBacklog), maxBacklog)
  {
    hide Ordered, Precedes, Home, Marked, Below;
    var t := Step(s, Dequeue(cpu), maxBacklog);
    if t != s {
      assert CpuOk(s, cpu, maxBacklog);
      assert Line(t.cpus[cpu]) == Line(s.cpus[cpu]) by {
        var p := s.cpus[cpu].process;
        assert p == [p[0]] + p[1..];
      }
      SameLineKeeps(s, t, cpu, maxBacklog);
    }
  }

  lemma WrapShift(x: int, y: int)
    ensures Wrap(Wrap(x) + y) == Wrap(x + y) && Wrap(x - Wrap(y)) == Wrap(x - y)
  {
    WrapAdd(x, y);
    var q := y / M32;
    assert Wrap(y) == y - M32 * q;
    ModShift(x - y, -q);
  }

  lemma AdvanceKeeps(s: State, cpu: nat, maxBacklog: nat)
    requires Inv(s, maxBacklog)
    ensures Inv(Step(s, Advance(cpu), maxBacklog), maxBacklog)
  {
    hide Ordered, Precedes, Home, Marked, Below;
    var t := Step(s, Advance(cpu), maxBacklog);
    if t != s {
      assert CpuOk(s, cpu, maxBacklog);
      assert Line(t.cpus[cpu]) == Line(s.cpus[cpu]);
      WrapShift(s.cpus[cpu].head + 1, 0);
      SameLineKeeps(s, t, cpu, maxBacklog);
    }
  }

  /** The first packet of a line is finished. */
  lemma MarkedTail(table: seq<Flow>, l: seq<Item>, base: int)
    requires Marked(table, l, base) && l != [] && |l| < M32
    ensures Marked(table, l[1..], Wrap(base + 1))
  {
    var r := l[1..];
    forall k | 0 <= k < |r| && r[k].tracked
      ensures r[k].slot < |table| && k < Wrap(table[r[k].slot].lastQtail - Wrap(base + 1)) <= |r|
    {
      assert r[k] == l[k + 1];
      MarkedOne(table[r[k].slot].lastQtail, base, k + 1, |l|);
    }
  }

  lemma MarkedOne(last: int, base: int, k: nat, n: nat)
    requires 0 < k < Wrap(last - base) <= n
    ensures k - 1 < Wrap(last - Wrap(base + 1)) <= n - 1
  {
    WrapShift(last, base + 1);
    WrapShift(last - base, -1);
    assert Wrap(last - base) - 1 == Wrap(Wrap(last - base) - 1);
  }

  lemma TailKeeps(s: State, l: seq<Item>, cpu: nat)
    requires l != [] && Ordered(l) && Precedes(s.done, l) && Ordered(s.done) && Home(s.table, l, cpu)
    ensures Ordered(l[1..]) && Ordered(s.done + [l[0]]) && Precedes(s.done + [l[0]], l[1..]) && Home(s.table, l[1..], cpu)
  {
    hide Related;
    var d := s.done + [l[0]];
    forall i, j | 0 <= i < j < |d| && Related(d[i], d[j])
      ensures d[i].id < d[j].id
    {
      if j == |s.done| { assert Related(s.done[i], l[0]); }
    }
  }

  /** A packet finished on one CPU is not related to any on another. */
  lemma StrangerPrecedes(table: seq<Flow>, done: seq<Item>, item: Item, cpu: nat, l: seq<Item>, other: nat)
    requires Precedes(done, l) && Home(table, l, other) && cpu != other
    requires item.tracked ==> item.slot < |table| && table[item.slot].cpu == Some(cpu)
    ensures Precedes(done + [item], l)
  {
    assert forall j :: 0 <= j < |l| ==> !Related(item, l[j]);
  }

  lemma FinishKeeps(s: State, cpu: nat, maxBacklog: nat)
    requires Inv(s, maxBacklog) && 2 * maxBacklog + 3 < HALF
    ensures Inv(Step(s, Finish(cpu), maxBacklog), maxBacklog)
  {
    var t := Step(s, Finish(cpu), maxBacklog);
    if t != s {
      assert CpuOk(s, cpu, maxBacklog);
      var l, item := Line(s.cpus[cpu]), s.cpus[cpu].work.item;
      assert l[0] == item && Line(t.cpus[cpu]) == l[1..];
      FinishTail(s.cpus[cpu], maxBacklog);
      hide Ordered, Precedes, Home, Marked, Line, Sized, Base;
      TailKeeps(s, l, cpu);
      MarkedTail(s.table, l, Base(s.cpus[cpu]));
      forall i | 0 <= i < |t.cpus|
        ensures CpuOk(t, i, maxBacklog)
      {
        assert CpuOk(s, i, maxBacklog);
        if i != cpu {
          HomeFirst(s.table, l, cpu);
          StrangerPrecedes(s.table, s.done, item, cpu, Line(s.cpus[i]), i);
        }
      }
    }
  }

  lemma HomeFirst(table: seq<Flow>, l: seq<Item>, cpu: nat)
    requires l != [] && Home(table, l, cpu)
    ensures l[0].tracked ==> l[0].slot < |table| && table[l[0].slot].cpu == Some(cpu)
  {
  }

  lemma FinishTail(c: Softnet, maxBacklog: nat)
    requires Sized(c, maxBacklog) && c.work.Busy?
    ensures Sized(c.(work := Finished), maxBacklog)
    ensures Base(c.(work := Finished)) == Wrap(Base(c) + 1)
    ensures |Line(c)| <= 2 * maxBacklog + 3
  {
    WrapShift(c.head, 1);
    WrapShift(c.head, |Line(c)|);
    WrapShift(c.head + 1, |Line(c)| - 1);
  }

  // ---------------------------------------------------------------------------------------
  // Putting packets on a backlog.

  lemma PushedLine(c: Softnet, item: Item, maxBacklog: nat)
    requires Sized(c, maxBacklog) && Room(c, maxBacklog)
    ensures var d := Pushed(c, item);
      && Sized(d, maxBacklog) && Line(d) == Line(c) + [item] && Base(d) == Base(c)
      && d.tail == Wrap(Base(c) + |Line(c)| + 1)
  {
    WrapShift(Base(c) + |Line(c)|, 1);
  }

  lemma OtherKeeps(s: State, cpu: nat, id: nat, maxBacklog: nat)
    requires Inv(s, maxBacklog)
    ensures Inv(Step(s, Other(cpu, id), maxBacklog), maxBacklog)
  {
    var t, item := Step(s, Other(cpu, id), maxBacklog), Item(id, |s.table|, false);
    if t != s {
      assert CpuOk(s, cpu, maxBacklog);
      PushedLine(s.cpus[cpu], item, maxBacklog);
      hide Line, Sized, Base, Room, Related;
      UntrackedAtEnd(s, Line(s.cpus[cpu]), item, cpu, Base(s.cpus[cpu]));
      OthersKeep(s, t, cpu, maxBacklog);
      assert CpuOk(t, cpu, maxBacklog);
    }
  }

  /** A packet that no entry routed may be anywhere in a line. */
  lemma UntrackedAtEnd(s: State, l: seq<Item>, item: Item, cpu: nat, base: int)
    requires !item.tracked
    ensures Ordered(l) ==> Ordered(l + [item])
    ensures Precedes(s.done, l) ==> Precedes(s.done, l + [item])
    ensures Below(l, Limit(s)) ==> Below(l + [item], Limit(s))
    ensures Home(s.table, l, cpu) ==> Home(s.table, l + [item], cpu)
    ensures Marked(s.table, l, base) ==> Marked(s.table, l + [item], base)
  {
  }

  /** The packet under way is the last of its entry so far. */
  lemma TrackedAtEnd(s: State, l: seq<Item>, cpu: nat, base: int, t: seq<Flow>)
    requires s.pending.Routed? && s.pending.item.tracked && s.pending.item.slot < |s.table| && |l| + 1 < M32
    requires s.table[s.pending.item.slot].cpu == Some(cpu)
    requires t == s.table[s.pending.item.slot := Flow(Some(cpu), Wrap(base + |l| + 1))]
    requires Ordered(l) && Precedes(s.done, l) && Below(l, Limit(s)) && Below(s.done, Limit(s))
    requires Home(s.table, l, cpu) && Marked(s.table, l, base)
    ensures var l' := l + [s.pending.item];
      && Ordered(l') && Precedes(s.done, l') && Below(l', s.pending.item.id + 1)
      && Home(t, l', cpu) && Marked(t, l', base)
  {
    var n := |l| + 1;
    WrapShift(base + n, -base);
    assert Wrap(Wrap(base + n) - base) == n;
  }

  /** Only packets on the CPU of an entry look at its tail. */
  lemma StrangerTail(s: State, t: seq<Flow>, slot: nat, l: seq<Item>, other: nat, base: int)
    requires slot < |s.table| == |t| && t == s.table[slot := t[slot]] && t[slot].cpu == s.table[slot].cpu != Some(other)
    requires Home(s.table, l, other) && Marked(s.table, l, base)
    ensures Home(t, l, other) && Marked(t, l, base)
  {
    assert forall k :: 0 <= k < |l| && l[k].tracked ==> l[k].slot != slot;
  }

  lemma BelowMore(l: seq<Item>, m: nat, n: nat)
    requires Below(l, m) && m <= n
    ensures Below(l, n)
  {
  }

  lemma EnqueueKeeps(s: State, limited: bool, maxBacklog: nat)
    requires Inv(s, maxBacklog) && 2 * maxBacklog + 3 < HALF
    ensures Inv(Step(s, Enqueue(limited), maxBacklog), maxBacklog)
  {
    var t := Step(s, Enqueue(limited), maxBacklog);
    if s.pending.Routed? {
      var Routed(item, cpu) := s.pending;
      if limited || !Room(s.cpus[cpu], maxBacklog) {
        DropKeeps(s, t, maxBacklog);
      } else {
        AcceptKeeps(s, t, maxBacklog);
      }
    }
  }

  lemma DropKeeps(s: State, t: State, maxBacklog: nat)
    requires Inv(s, maxBacklog) && s.pending.Routed? && t == s.(pending := Nothing)
    ensures Inv(t, maxBacklog)
  {
    hide Ordered, Precedes, Home, Marked, Line, Sized, Base, Below;
    BelowMore(s.done, Limit(s), Limit(t));
    forall i | 0 <= i < |t.cpus|
      ensures CpuOk(t, i, maxBacklog)
    {
      assert CpuOk(s, i, maxBacklog);
      BelowMore(Line(s.cpus[i]), Limit(s), Limit(t));
    }
  }

  lemma AcceptKeeps(s: State, t: State, maxBacklog: nat)
    requires Inv(s, maxBacklog) && 2 * maxBacklog + 3 < HALF && s.pending.Routed?
    requires Room(s.cpus[s.pending.cpu], maxBacklog) && t == Enqueued(s, false, maxBacklog)
    ensures Inv(t, maxBacklog)
  {
    var Routed(item, cpu) := s.pending;
    assert CpuOk(s, cpu, maxBacklog);
    var c := s.cpus[cpu];
    PushedLine(c, item, maxBacklog);
    LineLength(c, maxBacklog);
    hide Ordered, Precedes, Home, Marked, Line, Sized, Base, Below, Pushed;
    if item.tracked {
      TrackedAtEnd(s, Line(c), cpu, Base(c), t.table);
    } else {
      UntrackedAtEnd(s, Line(c), item, cpu, Base(c));
      BelowMore(Line(c) + [item], Limit(s), Limit(t));
    }
    BelowMore(Line(c) + [item], item.id + 1, Limit(t));
    BelowMore(s.done, Limit(s), Limit(t));
    forall i | 0 <= i < |t.cpus|
      ensures CpuOk(t, i, maxBacklog)
    {
      if i != cpu {
        assert CpuOk(s, i, maxBacklog);
        BelowMore(Line(s.cpus[i]), Limit(s), Limit(t));
        if item.tracked {
          StrangerTail(s, t.table, item.slot, Line(s.cpus[i]), i, Base(s.cpus[i]));
        }
      }
    }
  }

  lemma LineLength(c: Softnet, maxBacklog: nat)
    requires Sized(c, maxBacklog)
    ensures |Line(c)| <= 2 * maxBacklog + 3
  {
  }

  // ---------------------------------------------------------------------------------------
  // Choosing a CPU.

  /** An entry may move only when none of its packets is unfinished, although the counters are
      compared as 32-bit words. */
  lemma MayMoveMeansDone(s: State, slot: nat, cpu: nat, maxBacklog: nat)
    requires Inv(s, maxBacklog) && 2 * maxBacklog + 3 < HALF - 1
    requires slot < |s.table| && (s.table[slot].cpu.Some? ==> Known(s, s.table[slot].cpu.value))
    requires MayMove(s.cpus, s.table[slot]) && cpu < |s.cpus|
    ensures forall k :: 0 <= k < |Line(s.cpus[cpu])| && Line(s.cpus[cpu])[k].tracked ==> Line(s.cpus[cpu])[k].slot != slot
  {
    var c, l, flow := s.cpus[cpu], Line(s.cpus[cpu]), s.table[slot];
    assert CpuOk(s, cpu, maxBacklog);
    LineLength(c, maxBacklog);
    hide Line, Sized, Ordered, Precedes, Below;
    forall k | 0 <= k < |l| && l[k].tracked
      ensures l[k].slot != slot
    {
      if l[k].slot == slot {
        BehindHead(c, flow.lastQtail, k, |l|);
        assert false;
      }
    }
  }

  lemma BehindHead(c: Softnet, last: int, k: nat, n: nat)
    requires k < Wrap(last - Base(c)) <= n < HALF - 1
    ensures Mod32.Diff(c.head, last) < 0
  {
    var w, f := Wrap(last - Base(c)), if c.work.Finished? then 1 else 0;
    WrapShift(last, c.head + f);
    WrapShift(last - (c.head + f), f);
    assert Wrap(last - c.head) == w + f;
    WrapNegate(last - c.head);
  }

  lemma WrapNegate(x: int)
    requires Wrap(x) != 0
    ensures Wrap(-x) + Wrap(x) == M32
  {
    WrapShift(0, x);
    assert Wrap(0 - Wrap(x)) + Wrap(x) == M32;
  }

  /** No packet in `l` was routed by the entry that changes. */
  lemma ForeignEntry(table: seq<Flow>, slot: nat, flow: Flow, l: seq<Item>, cpu: nat, base: int)
    requires slot < |table| && forall k :: 0 <= k < |l| && l[k].tracked ==> l[k].slot != slot
    requires Home(table, l, cpu) && Marked(table, l, base)
    ensures Home(table[slot := flow], l, cpu) && Marked(table[slot := flow], l, base)
  {
  }

  lemma ReceiveKeeps(s: State, slot: nat, desired: Option<nat>, fallback: nat, maxBacklog: nat)
    requires Inv(s, maxBacklog) && 2 * maxBacklog + 3 < HALF - 1
    ensures Inv(Step(s, Receive(slot, desired, fallback), maxBacklog), maxBacklog)
  {
    var t := Step(s, Receive(slot, desired, fallback), maxBacklog);
    if t != s {
      var flow := s.table[slot];
      var flow' := Steer(s.cpus, flow, desired);
      hide Ordered, Precedes, Home, Marked, Line, Sized, Base, Below, Steer, MovedTo;
      SteerCases(s.cpus, flow, desired);
      forall i | 0 <= i < |t.cpus|
        ensures CpuOk(t, i, maxBacklog)
      {
        assert CpuOk(s, i, maxBacklog);
        if flow' == flow {
          assert s.table[slot := flow] == s.table;
        } else {
          MayMoveMeansDone(s, slot, i, maxBacklog);
          ForeignEntry(s.table, slot, flow', Line(s.cpus[i]), i, Base(s.cpus[i]));
        }
      }
    }
  }

  lemma SteerCases(cpus: seq<Softnet>, flow: Flow, desired: Option<nat>)
    requires flow.cpu.Some? ==> flow.cpu.value < |cpus|
    requires desired.Some? ==> desired.value < |cpus|
    ensures var flow' := Steer(cpus, flow, desired);
      flow' == flow || (MayMove(cpus, flow) && flow'.cpu == desired)
  {
  }

  // ---------------------------------------------------------------------------------------
  // Any interleaving.

  lemma StepKeeps(s: State, e: Event, maxBacklog: nat)
    requires Inv(s, maxBacklog) && 2 * maxBacklog + 3 < HALF - 1
    ensures Inv(Step(s, e, maxBacklog), maxBacklog)
  {
    hide Inv, Step;
    match e
    case Receive(slot, desired, fallback) => ReceiveKeeps(s, slot, desired, fallback, maxBacklog);
    case Enqueue(limited) => EnqueueKeeps(s, limited, maxBacklog);
    case Other(cpu, id) => OtherKeeps(s, cpu, id, maxBacklog);
    case Splice(cpu) => SpliceKeeps(s, cpu, maxBacklog);
    case Dequeue(cpu) => DequeueKeeps(s, cpu, maxBacklog);
    case Finish(cpu) => FinishKeeps(s, cpu, maxBacklog);
    case Advance(cpu) => AdvanceKeeps(s, cpu, maxBacklog);
  }

  /** Backlogs empty, nothing under way; counters and table entries are arbitrary. */
  ghost predicate Quiet(s: State) {
    && s.pending.Nothing? && s.done == []
    && forall i :: 0 <= i < |s.cpus| ==>
         Line(s.cpus[i]) == [] && s.cpus[i].work.Free? && Wrap(s.cpus[i].tail) == s.cpus[i].tail == Wrap(s.cpus[i].head)
  }

  lemma QuietInv(s: State, maxBacklog: nat)
    requires Quiet(s)
    ensures Inv(s, maxBacklog)
  {
    forall i | 0 <= i < |s.cpus|
      ensures CpuOk(s, i, maxBacklog)
    {
      assert Line(s.cpus[i]) == [];
    }
  }

  lemma {:induction false} RunKeeps(s: State, es: seq<Event>, maxBacklog: nat)
    requires Inv(s, maxBacklog) && 2 * maxBacklog + 3 < HALF - 1
    ensures Inv(Run(s, es, maxBacklog), maxBacklog)
    decreases |es|
  {
    hide Inv, Step;
    if es == [] {
    } else {
      StepKeeps(s, es[0], maxBacklog);
      RunKeeps(Step(s, es[0], maxBacklog), es[1..], maxBacklog);
    }
  }

  // Packets of an entry that had no CPU, and went elsewhere.

  ghost predicate Queued(s: State, x: Item) {
    exists c :: 0 <= c < |s.cpus| && x in Line(s.cpus[c])
  }

  ghost predicate Waiting(s: State, x: Item) {
    Queued(s, x) || s.pending == Routed(x, if s.pending.Routed? then s.pending.cpu else 0)
  }

  /** `y` was routed by its entry, `q` is of the same entry and was not. */
  ghost predicate Mixed(q: Item, y: Item) {
    !q.tracked && y.tracked && q.slot == y.slot
  }

  /** Packets that an entry did not route came before those it routed that wait or came behind
      them. */
  ghost predicate Young(s: State) {
    && (forall q, y :: (q in s.done || Waiting(s, q)) && Waiting(s, y) && Mixed(q, y) ==> q.id < y.id)
    && (forall x :: (x in s.done || Waiting(s, x)) && x.slot < |s.table| ==> x.id < s.arrived)
    && (forall i, j :: 0 <= i < j < |s.done| && Mixed(s.done[i], s.done[j]) ==> s.done[i].id < s.done[j].id)
  }

  lemma WaitingTracked(s: State, y: Item, maxBacklog: nat)
    requires Inv(s, maxBacklog) && Waiting(s, y) && y.tracked
    ensures y.slot < |s.table| && s.table[y.slot].cpu.Some?
  {
    if Queued(s, y) {
      var c :| 0 <= c < |s.cpus| && y in Line(s.cpus[c]);
      assert CpuOk(s, c, maxBacklog);
    }
  }

  /** A packet that has just arrived, or of no entry. */
  ghost predicate New(s: State, e: Event, maxBacklog: nat, x: Item) {
    || (e.Other? && x.slot == |s.table| && !x.tracked)
    || (e.Receive? && s.pending.Nothing? && e.slot < |s.table| && x.id == s.arrived && x.slot == e.slot
        && Step(s, e, maxBacklog) != s && e.slot < |Step(s, e, maxBacklog).table|
        && x.tracked == Step(s, e, maxBacklog).table[e.slot].cpu.Some?)
  }

  /** What waits after a step waited before, except for the packet that has just arrived and
      for packets of no entry. */
  lemma StepWaiting(s: State, e: Event, maxBacklog: nat, x: Item)
    requires Waiting(Step(s, e, maxBacklog), x)
    ensures Waiting(s, x) || New(s, e, maxBacklog, x)
  {
    var t := Step(s, e, maxBacklog);
    hide Steer;
    if t != s && Queued(t, x) {
      var c :| 0 <= c < |t.cpus| && x in Line(t.cpus[c]);
      if x in Line(s.cpus[c]) {
        assert Queued(s, x);
      } else {
        LineMember(s, e, maxBacklog, c, x);
      }
    }
  }

  lemma LineMember(s: State, e: Event, maxBacklog: nat, c: nat, x: Item)
    requires var t := Step(s, e, maxBacklog); |t.cpus| == |s.cpus| && c < |s.cpus| && x in Line(t.cpus[c]) && x !in Line(s.cpus[c])
    ensures (e.Other? && x.slot == |s.table| && !x.tracked) || (e.Enqueue? && s.pending.Routed? && x == s.pending.item)
  {
    hide Steer, Wrap;
  }

  lemma StepDone(s: State, e: Event, maxBacklog: nat)
    ensures var t := Step(s, e, maxBacklog);
      && |t.table| == |s.table| && t.arrived >= s.arrived
      && (t.done == s.done || exists item :: t.done == s.done + [item] && Queued(s, item))
      && (e.Receive? && t != s ==> t.arrived == s.arrived + 1)
  {
    hide Steer, Wrap;
    var t := Step(s, e, maxBacklog);
    if e.Finish? && t != s {
      assert s.cpus[e.cpu].work.item in Line(s.cpus[e.cpu]);
      assert Queued(s, s.cpus[e.cpu].work.item);
    }
  }

  /** An entry that has routed a packet which is not finished has a CPU after the test, too. */
  lemma NoneLeft(s: State, slot: nat, desired: Option<nat>, fallback: nat, maxBacklog: nat, y: Item)
    requires Inv(s, maxBacklog) && 2 * maxBacklog + 3 < HALF - 1 && s.pending.Nothing? && Waiting(s, y) && y.tracked && y.slot == slot
    requires Step(s, Receive(slot, desired, fallback), maxBacklog) != s
    ensures Step(s, Receive(slot, desired, fallback), maxBacklog).table[slot].cpu.Some?
  {
    hide Line, Inv, CpuOk;
    WaitingTracked(s, y, maxBacklog);
    SteerCases(s.cpus, s.table[slot], desired);
    if MayMove(s.cpus, s.table[slot]) {
      var c :| 0 <= c < |s.cpus| && y in Line(s.cpus[c]);
      MayMoveMeansDone(s, slot, c, maxBacklog);
    }
  }

  lemma StepYoung(s: State, e: Event, maxBacklog: nat)
    requires Inv(s, maxBacklog) && Young(s) && 2 * maxBacklog + 3 < HALF - 1
    ensures Young(Step(s, e, maxBacklog))
  {
    var t := Step(s, e, maxBacklog);
    StepDone(s, e, maxBacklog);
    hide Step, Inv, Queued, Waiting;
    QueuedWaits(s);
    forall q, y | (q in t.done || Waiting(t, q)) && Waiting(t, y) && Mixed(q, y)
      ensures q.id < y.id
    {
      if q !in t.done { StepWaiting(s, e, maxBacklog, q); }
      StepWaiting(s, e, maxBacklog, y);
      MixedOrder(s, e, maxBacklog, q, y);
    }
    forall x | (x in t.done || Waiting(t, x)) && x.slot < |t.table|
      ensures x.id < t.arrived
    {
      if x !in t.done { StepWaiting(s, e, maxBacklog, x); }
    }
  }

  lemma QueuedWaits(s: State)
    ensures forall x :: Queued(s, x) ==> Waiting(s, x)
  {
  }

  /** Of two packets of one entry, old or just arrived. */
  lemma MixedOrder(s: State, e: Event, maxBacklog: nat, q: Item, y: Item)
    requires Inv(s, maxBacklog) && Young(s) && 2 * maxBacklog + 3 < HALF - 1 && Mixed(q, y)
    requires q in s.done || Waiting(s, q) || New(s, e, maxBacklog, q)
    requires Waiting(s, y) || New(s, e, maxBacklog, y)
    ensures q.id < y.id
  {
    if Waiting(s, y) {
      WaitingTracked(s, y, maxBacklog);
      if !(q in s.done || Waiting(s, q)) {
        NoneLeft(s, q.slot, e.desired, e.fallback, maxBacklog, y);
      }
    }
  }

  lemma {:induction false} RunYoung(s: State, es: seq<Event>, maxBacklog: nat)
    requires Inv(s, maxBacklog) && Young(s) && 2 * maxBacklog + 3 < HALF - 1
    ensures Young(Run(s, es, maxBacklog)) && |Run(s, es, maxBacklog).table| == |s.table|
    decreases |es|
  {
    hide Inv, Step, Young;
    if es == [] {
    } else {
      StepKeeps(s, es[0], maxBacklog);
      StepYoung(s, es[0], maxBacklog);
      StepDone(s, es[0], maxBacklog);
      RunYoung(Step(s, es[0], maxBacklog), es[1..], maxBacklog);
    }
  }

  lemma QuietYoung(s: State)
    requires Quiet(s)
    ensures Young(s)
  {
  }

  /** In every interleaving, a packet that was routed by its table entry finishes protocol
      processing before all packets of the entry that arrived later. */
  lemma InOrder(s: State, es: seq<Event>, maxBacklog: nat, i: nat, j: nat)
    requires Quiet(s) && 2 * maxBacklog + 3 < HALF - 1
    requires i < j < |Run(s, es, maxBacklog).done|
    requires Run(s, es, maxBacklog).done[j].tracked && Run(s, es, maxBacklog).done[i].slot == Run(s, es, maxBacklog).done[j].slot
    ensures Run(s, es, maxBacklog).done[i].id < Run(s, es, maxBacklog).done[j].id
  {
    hide Run, Quiet, CpuOk, Queued, Waiting;
    QuietInv(s, maxBacklog);
    QuietYoung(s);
    RunKeeps(s, es, maxBacklog);
    RunYoung(s, es, maxBacklog);
    var d := Run(s, es, maxBacklog).done;
    if d[i].tracked {
      assert Related(d[i], d[j]);
    } else {
      assert Mixed(d[i], d[j]);
    }
  }

  // ---------------------------------------------------------------------------------------
  // Nothing that was queued is lost.

  ghost function Lines(cpus: seq<Softnet>): multiset<Item> {
    if cpus == [] then multiset{} else multiset(Line(cpus[0])) + Lines(cpus[1..])
  }

  lemma {:induction false} LinesUpdate(cpus: seq<Softnet>, i: nat, c: Softnet)
    requires i < |cpus|
    ensures Lines(cpus[i := c]) + multiset(Line(cpus[i])) == Lines(cpus) + multiset(Line(c))
  {
    hide Line;
    var d := cpus[i := c];
    if i > 0 {
      assert d[0] == cpus[0] && d[1..] == cpus[1..][i - 1 := c];
      LinesUpdate(cpus[1..], i - 1, c);
      var r, f, x, y := cpus[1..], multiset(Line(cpus[0])), multiset(Line(cpus[i])), multiset(Line(c));
      assert Lines(d) == f + Lines(r[i - 1 := c]) && Lines(cpus) == f + Lines(r);
      assert f + Lines(r[i - 1 := c]) + x == f + (Lines(r[i - 1 := c]) + x);
      assert f + Lines(r) + y == f + (Lines(r) + y);
    } else {
      assert d[0] == c && d[1..] == cpus[1..];
    }
  }

  lemma Cancel(a: multiset<Item>, b: multiset<Item>, m: multiset<Item>)
    requires a + m == b + m
    ensures a == b
  {
    assert forall x :: (a + m)[x] == a[x] + m[x] && (b + m)[x] == b[x] + m[x];
    assert forall x :: (a + m)[x] == (b + m)[x];
  }

  /** Queued or finished. */
  ghost function Holdings(s: State): multiset<Item> {
    multiset(s.done) + Lines(s.cpus)
  }

  /** What an event adds to the backlogs. */
  ghost function Added(s: State, e: Event, maxBacklog: nat): multiset<Item> {
    match e
    case Enqueue(limited) =>
      if s.pending.Routed? && Known(s, s.pending.cpu) && (s.pending.item.tracked ==> s.pending.item.slot < |s.table|)
         && !limited && Room(s.cpus[s.pending.cpu], maxBacklog)
      then multiset{s.pending.item} else multiset{}
    case Other(cpu, id) =>
      if Known(s, cpu) && Room(s.cpus[cpu], maxBacklog) then multiset{Item(id, |s.table|, false)} else multiset{}
    case _ => multiset{}
  }

  /** The line of one CPU gets `more` behind it. */
  lemma LinesGrow(cpus: seq<Softnet>, cpu: nat, c: Softnet, more: seq<Item>)
    requires cpu < |cpus| && Line(c) == Line(cpus[cpu]) + more
    ensures Lines(cpus[cpu := c]) == Lines(cpus) + multiset(more)
  {
    LinesUpdate(cpus, cpu, c);
    hide *;
    Cancel(Lines(cpus[cpu := c]), Lines(cpus) + multiset(more), multiset(Line(cpus[cpu])));
  }

  lemma PushedHoldings(cpus: seq<Softnet>, cpu: nat, item: Item)
    requires cpu < |cpus|
    ensures Lines(cpus[cpu := Pushed(cpus[cpu], item)]) == Lines(cpus) + multiset{item}
  {
    assert Line(Pushed(cpus[cpu], item)) == Line(cpus[cpu]) + [item];
    LinesGrow(cpus, cpu, Pushed(cpus[cpu], item), [item]);
  }

  lemma SameHoldings(cpus: seq<Softnet>, cpu: nat, c: Softnet)
    requires cpu < |cpus| && Line(c) == Line(cpus[cpu])
    ensures Lines(cpus[cpu := c]) == Lines(cpus)
  {
    assert Line(c) == Line(cpus[cpu]) + [];
    LinesGrow(cpus, cpu, c, []);
  }

  lemma FinishedHoldings(s: State, cpu: nat, c: Softnet, item: Item)
    requires cpu < |s.cpus| && Line(s.cpus[cpu]) == [item] + Line(c)
    ensures multiset(s.done + [item]) + Lines(s.cpus[cpu := c]) == multiset(s.done) + Lines(s.cpus)
  {
    LinesUpdate(s.cpus, cpu, c);
    hide *;
    var a, m := Lines(s.cpus[cpu := c]), multiset(Line(c));
    assert multiset([item] + Line(c)) == multiset{item} + m;
    assert a + multiset{item} + m == Lines(s.cpus) + m;
    Cancel(a + multiset{item}, Lines(s.cpus), m);
  }

  lemma DequeuedLine(c: Softnet)
    requires c.work.Free? && c.process != []
    ensures Line(c.(process := c.process[1..], work := Busy(c.process[0]))) == Line(c)
  {
    assert c.process == [c.process[0]] + c.process[1..];
  }

  /** One step: what is queued or finished stays so, and nothing else joins it. */
  lemma StepAccounts(s: State, e: Event, maxBacklog: nat)
    ensures Holdings(Step(s, e, maxBacklog)) == Holdings(s) + Added(s, e, maxBacklog)
  {
    hide Lines, Wrap, Steer, Line, Pushed;
    match e
    case Receive(_, _, _) =>
    case Enqueue(limited) => EnqueueAccounts(s, limited, maxBacklog);
    case Other(cpu, id) =>
      if Known(s, cpu) {
        PushedHoldings(s.cpus, cpu, Item(id, |s.table|, false));
      }
    case _ => WorkAccounts(s, e, maxBacklog);
  }

  lemma EnqueueAccounts(s: State, limited: bool, maxBacklog: nat)
    ensures Holdings(Step(s, Enqueue(limited), maxBacklog)) == Holdings(s) + Added(s, Enqueue(limited), maxBacklog)
  {
    hide Lines, Wrap, Steer, Line, Pushed;
    if s.pending.Routed? && Known(s, s.pending.cpu) {
      PushedHoldings(s.cpus, s.pending.cpu, s.pending.item);
    }
  }

  lemma WorkAccounts(s: State, e: Event, maxBacklog: nat)
    requires e.Splice? || e.Dequeue? || e.Finish? || e.Advance?
    ensures Holdings(Step(s, e, maxBacklog)) == Holdings(s)
  {
    hide Lines, Wrap;
    var t := Step(s, e, maxBacklog);
    if t != s {
      var c := t.cpus[e.cpu];
      if e.Finish? {
        assert Line(s.cpus[e.cpu]) == [s.cpus[e.cpu].work.item] + Line(c);
        FinishedHoldings(s, e.cpu, c, s.cpus[e.cpu].work.item);
      } else {
        if e.Dequeue? { DequeuedLine(s.cpus[e.cpu]); }
        assert Line(c) == Line(s.cpus[e.cpu]);
        SameHoldings(s.cpus, e.cpu, c);
      }
    }
  }

  // ---------------------------------------------------------------------------------------
  // Packets that the entry did not route are not in order.

  const IDLE := Softnet([], [], Free, 0, 0)

  lemma {:induction false} RunSplit(s: State, a: seq<Event>, b: seq<Event>, maxBacklog: nat)
    ensures Run(s, a + b, maxBacklog) == Run(Run(s, a, maxBacklog), b, maxBacklog)
    decreases |a|
  {
    hide Step;
    if a == [] {
      assert a + b == b;
    } else {
      assert (a + b)[1..] == a[1..] + b;
      RunSplit(Step(s, a[0], maxBacklog), a[1..], b, maxBacklog);
    }
  }

  lemma RunThree(s: State, a: Event, b: Event, c: Event, maxBacklog: nat)
    ensures Run(s, [a, b, c], maxBacklog) == Step(Step(Step(s, a, maxBacklog), b, maxBacklog), c, maxBacklog)
  {
    hide Step;
    var es := [a, b, c];
    assert es[1..] == [b, c] && [b, c][1..] == [c] && [c][1..] == [];
    var t := Step(s, a, maxBacklog);
    assert Run(s, es, maxBacklog) == Run(t, [b, c], maxBacklog);
    var u := Step(t, b, maxBacklog);
    assert Run(t, [b, c], maxBacklog) == Run(u, [c], maxBacklog);
    assert Run(Step(u, c, maxBacklog), [], maxBacklog) == Step(u, c, maxBacklog);
  }

  /** A CPU takes the only packet of its backlog and finishes it. */
  lemma WorkOne(s: State, cpu: nat, item: Item, head: int, tail: int, maxBacklog: nat)
    requires cpu < |s.cpus| && s.cpus[cpu] == Softnet([item], [], Free, head, tail)
    ensures Run(s, [Splice(cpu), Dequeue(cpu), Finish(cpu)], maxBacklog)
         == s.(cpus := s.cpus[cpu := Softnet([], [], Finished, head, tail)], done := s.done + [item])
  {
    RunThree(s, Splice(cpu), Dequeue(cpu), Finish(cpu), maxBacklog);
    var t := s.(cpus := s.cpus[cpu := Softnet([], [item], Free, head, tail)]);
    assert Step(s, Splice(cpu), maxBacklog) == t;
    var u := s.(cpus := s.cpus[cpu := Softnet([], [], Busy(item), head, tail)]);
    assert [item][1..] == [];
    assert Step(t, Dequeue(cpu), maxBacklog).cpus == u.cpus;
  }

  const RECEIVE_TWO := [Receive(0, None, 0), Enqueue(false), Receive(0, Some(1), 0)] + [Enqueue(false)]

  lemma TwoReceived()
    ensures var s := State([IDLE, IDLE], [Flow(None, 0)], Nothing, 0, []);
      && Quiet(s)
      && Run(s, RECEIVE_TWO, 1000)
         == State([Softnet([Item(0, 0, false)], [], Free, 0, 1), Softnet([Item(1, 0, true)], [], Free, 0, 1)],
                  [Flow(Some(1), 1)], Nothing, 2, [])
  {
    var s := State([IDLE, IDLE], [Flow(None, 0)], Nothing, 0, []);
    var a, b := Item(0, 0, false), Item(1, 0, true);
    var t := State([IDLE, IDLE], [Flow(None, 0)], Routed(a, 0), 1, []);
    var u := State([Softnet([a], [], Free, 0, 1), IDLE], [Flow(None, 0)], Nothing, 1, []);
    var v := State(u.cpus, [Flow(Some(1), 0)], Routed(b, 1), 2, []);
    assert Step(s, Receive(0, None, 0), 1000) == t by {
      assert s.table[0 := Flow(None, 0)] == s.table;
    }
    FirstEnqueued(t, u, a);
    assert Step(u, Receive(0, Some(1), 0), 1000) == v;
    LastEnqueued(v, a, b);
    hide *;
    RunThree(s, Receive(0, None, 0), Enqueue(false), Receive(0, Some(1), 0), 1000);
    RunSplit(s, [Receive(0, None, 0), Enqueue(false), Receive(0, Some(1), 0)], [Enqueue(false)], 1000);
  }

  lemma FirstEnqueued(t: State, u: State, a: Item)
    requires !a.tracked && t == State([IDLE, IDLE], [Flow(None, 0)], Routed(a, 0), 1, [])
    requires u == State([Softnet([a], [], Free, 0, 1), IDLE], [Flow(None, 0)], Nothing, 1, [])
    ensures Step(t, Enqueue(false), 1000) == u
  {
    assert Pushed(IDLE, a) == Softnet([a], [], Free, 0, 1) by { assert [] + [a] == [a]; }
    assert [IDLE, IDLE][0 := Softnet([a], [], Free, 0, 1)] == [Softnet([a], [], Free, 0, 1), IDLE];
  }

  lemma LastEnqueued(v: State, a: Item, b: Item)
    requires b.tracked && b.slot == 0
    requires v == State([Softnet([a], [], Free, 0, 1), IDLE], [Flow(Some(1), 0)], Routed(b, 1), 2, [])
    ensures Run(v, [Enqueue(false)], 1000)
         == State([Softnet([a], [], Free, 0, 1), Softnet([b], [], Free, 0, 1)], [Flow(Some(1), 1)], Nothing, 2, [])
  {
    var w := Step(v, Enqueue(false), 1000);
    assert Pushed(IDLE, b) == Softnet([b], [], Free, 0, 1) by { assert [] + [b] == [b]; }
    assert w.cpus == [Softnet([a], [], Free, 0, 1), Softnet([b], [], Free, 0, 1)];
    assert w.table == [Flow(Some(1), 1)];
    assert [Enqueue(false)][1..] == [];
  }

  /** Two packets of one entry: while it has no CPU the first goes to CPU 0; then the entry gets
      CPU 1, which takes the second and finishes it before CPU 0 starts. */
  lemma UnroutedOvertaken()
    ensures var s := State([IDLE, IDLE], [Flow(None, 0)], Nothing, 0, []);
      var es := RECEIVE_TWO + [Splice(1), Dequeue(1), Finish(1)] + [Splice(0), Dequeue(0), Finish(0)];
      && Quiet(s) && Run(s, es, 1000).done == [Item(1, 0, true), Item(0, 0, false)]
  {
    var s := State([IDLE, IDLE], [Flow(None, 0)], Nothing, 0, []);
    TwoReceived();
    var t := Run(s, RECEIVE_TWO, 1000);
    hide Run, Step, Quiet;
    WorkOne(t, 1, Item(1, 0, true), 0, 1, 1000);
    RunSplit(s, RECEIVE_TWO, [Splice(1), Dequeue(1), Finish(1)], 1000);
    var u := Run(t, [Splice(1), Dequeue(1), Finish(1)], 1000);
    WorkOne(u, 0, Item(0, 0, false), 0, 1, 1000);
    RunSplit(s, RECEIVE_TWO + [Splice(1), Dequeue(1), Finish(1)], [Splice(0), Dequeue(0), Finish(0)], 1000);
  }

  // ---------------------------------------------------------------------------------------
  // In every state, the order of a packet and later ones is certain only if its entry has a CPU.

  lemma RunFirst(s: State, e: Event, es: seq<Event>, maxBacklog: nat)
    ensures Run(s, [e] + es, maxBacklog) == Run(Step(s, e, maxBacklog), es, maxBacklog)
    ensures Run(s, [], maxBacklog) == s
  {
    hide Step;
    assert ([e] + es)[1..] == es;
  }

  /** What a CPU has to do until it has finished its backlog. */
  function Effort(c: Softnet): nat {
    4 * |c.input| + 3 * |c.process| + if c.work.Busy? then 2 else if c.work.Finished? then 1 else 0
  }

  function NextWork(c: Softnet, cpu: nat): Event {
    if c.work.Finished? then Advance(cpu)
    else if c.work.Busy? then Finish(cpu)
    else if c.process != [] then Dequeue(cpu)
    else Splice(cpu)
  }

  lemma WorkStep(s: State, cpu: nat, maxBacklog: nat)
    requires cpu < |s.cpus| && Effort(s.cpus[cpu]) > 0
    ensures var t := Step(s, NextWork(s.cpus[cpu], cpu), maxBacklog);
      && |t.cpus| == |s.cpus| && t == s.(cpus := s.cpus[cpu := t.cpus[cpu]], done := t.done)
      && Effort(t.cpus[cpu]) < Effort(s.cpus[cpu]) && t.done + Line(t.cpus[cpu]) == s.done + Line(s.cpus[cpu])
  {
    var c := s.cpus[cpu];
    if c.work.Busy? {
      assert s.done + [c.work.item] + (c.process + c.input) == s.done + ([c.work.item] + c.process + c.input);
    } else if c.work.Free? && c.process != [] {
      DequeuedLine(c);
    }
  }

  /** A CPU left to itself finishes its backlog in order, and nothing else happens. */
  lemma {:induction false} Drain(s: State, cpu: nat, maxBacklog: nat) returns (es: seq<Event>)
    requires cpu < |s.cpus|
    ensures var t := Run(s, es, maxBacklog);
      && |t.cpus| == |s.cpus| && t == s.(cpus := s.cpus[cpu := t.cpus[cpu]], done := s.done + Line(s.cpus[cpu]))
      && t.cpus[cpu].input == [] && t.cpus[cpu].process == [] && t.cpus[cpu].work.Free?
    decreases Effort(s.cpus[cpu])
  {
    var c := s.cpus[cpu];
    if Effort(c) == 0 {
      es := [];
      RunFirst(s, Splice(cpu), [], maxBacklog);
      assert s.cpus[cpu := c] == s.cpus && s.done + Line(c) == s.done;
    } else {
      hide Step, Run, Line;
      WorkStep(s, cpu, maxBacklog);
      var t := Step(s, NextWork(c, cpu), maxBacklog);
      var more := Drain(t, cpu, maxBacklog);
      es := [NextWork(c, cpu)] + more;
      RunFirst(s, NextWork(c, cpu), more, maxBacklog);
    }
  }

  /** A packet of the same entry that arrived after `p` has finished before it. */
  ghost predicate Overtaken(done: seq<Item>, p: Item) {
    exists i, j :: 0 <= i < j < |done| && done[j] == p && done[i].slot == p.slot && p.id < done[i].id
  }

  /** `p` is about to be queued on one CPU, and its entry has none: another CPU gets the entry,
      and finishes the next packet before the first CPU finishes `p`. */
  lemma Overtaking(t: State, other: nat, maxBacklog: nat) returns (es: seq<Event>)
    requires t.pending.Routed? && !t.pending.item.tracked && t.pending.cpu < |t.cpus| && other < |t.cpus| && other != t.pending.cpu
    requires t.pending.item.slot < |t.table| && t.table[t.pending.item.slot].cpu.None? && t.pending.item.id < t.arrived
    requires Room(t.cpus[t.pending.cpu], maxBacklog)
    ensures Overtaken(Run(t, es, maxBacklog).done, t.pending.item)
  {
    var p, cpu, slot := t.pending.item, t.pending.cpu, t.pending.item.slot;
    hide Step, Run, Line, Overtaken;
    FirstQueued(t, maxBacklog);
    var a := Step(t, Enqueue(false), maxBacklog);
    var drained := Drain(a, other, maxBacklog);
    var b := Run(a, drained, maxBacklog);
    SecondQueued(b, slot, other, cpu, maxBacklog);
    var c := Step(b, Receive(slot, Some(other), cpu), maxBacklog);
    var d := Step(c, Enqueue(false), maxBacklog);
    var second := Drain(d, other, maxBacklog);
    var e := Run(d, second, maxBacklog);
    var first := Drain(e, cpu, maxBacklog);
    var f := Run(e, first, maxBacklog);
    es := [Enqueue(false)] + (drained + ([Receive(slot, Some(other), cpu)] + ([Enqueue(false)] + (second + first))));
    RunFirst(t, Enqueue(false), drained + ([Receive(slot, Some(other), cpu)] + ([Enqueue(false)] + (second + first))), maxBacklog);
    RunSplit(a, drained, [Receive(slot, Some(other), cpu)] + ([Enqueue(false)] + (second + first)), maxBacklog);
    RunFirst(b, Receive(slot, Some(other), cpu), [Enqueue(false)] + (second + first), maxBacklog);
    RunFirst(c, Enqueue(false), second + first, maxBacklog);
    RunSplit(d, second, first, maxBacklog);
    var q := Item(b.arrived, slot, true);
    assert e.done == (a.done + Line(a.cpus[other])) + [q];
    assert Line(e.cpus[cpu]) == Line(t.cpus[cpu]) + [p];
    OvertakenBy(a.done + Line(a.cpus[other]), q, Line(t.cpus[cpu]), p);
  }

  lemma OvertakenBy(before: seq<Item>, q: Item, between: seq<Item>, p: Item)
    requires q.slot == p.slot && p.id < q.id
    ensures Overtaken(before + [q] + (between + [p]), p)
  {
    var done := before + [q] + (between + [p]);
    assert done[|before|] == q && done[|done| - 1] == p;
  }

  lemma FirstQueued(t: State, maxBacklog: nat)
    requires t.pending.Routed? && !t.pending.item.tracked && t.pending.cpu < |t.cpus| && Room(t.cpus[t.pending.cpu], maxBacklog)
    ensures var a := Step(t, Enqueue(false), maxBacklog);
      && a == t.(cpus := t.cpus[t.pending.cpu := a.cpus[t.pending.cpu]], pending := Nothing) && |a.cpus| == |t.cpus|
      && Line(a.cpus[t.pending.cpu]) == Line(t.cpus[t.pending.cpu]) + [t.pending.item]
  {
    var c, item := t.cpus[t.pending.cpu], t.pending.item;
    assert Line(Pushed(c, item)) == Line(c) + [item];
  }

  lemma SecondQueued(b: State, slot: nat, other: nat, fallback: nat, maxBacklog: nat)
    requires b.pending.Nothing? && slot < |b.table| && b.table[slot].cpu.None? && other < |b.cpus| && fallback < |b.cpus|
    requires b.cpus[other].input == [] && b.cpus[other].process == [] && b.cpus[other].work.Free?
    ensures var d := Step(Step(b, Receive(slot, Some(other), fallback), maxBacklog), Enqueue(false), maxBacklog);
      && |d.cpus| == |b.cpus| && d.done == b.done && d.pending.Nothing?
      && d.cpus == b.cpus[other := d.cpus[other]] && Line(d.cpus[other]) == [Item(b.arrived, slot, true)]
  {
    var c := Step(b, Receive(slot, Some(other), fallback), maxBacklog);
    assert c.table[slot].cpu == Some(other) && c.pending == Routed(Item(b.arrived, slot, true), other);
    assert Line(Pushed(b.cpus[other], c.pending.item)) == [c.pending.item];
  }

  /** From every state with an idle receive path and at least two CPUs, and for every packet that
      the CPU chosen for it has room for: no later packet of its entry can finish before it, in
      any interleaving, if and only if the entry has a CPU after the test in get_rps_cpu. */
  lemma OrderedIff(s: State, slot: nat, desired: Option<nat>, fallback: nat, maxBacklog: nat)
    requires Inv(s, maxBacklog) && Young(s) && 2 * maxBacklog + 3 < HALF - 1 && s.pending.Nothing? && |s.cpus| >= 2
    requires slot < |s.table| && fallback < |s.cpus| && Room(s.cpus[fallback], maxBacklog)
    requires (desired.Some? ==> desired.value < |s.cpus|) && (s.table[slot].cpu.Some? ==> s.table[slot].cpu.value < |s.cpus|)
    ensures var t := Step(s, Receive(slot, desired, fallback), maxBacklog);
      && t.pending.Routed? && t.pending.item.slot == slot && t.pending.item.id == s.arrived
      && (t.table[slot].cpu.Some? <==> forall es: seq<Event> :: !Overtaken(Run(t, es, maxBacklog).done, t.pending.item))
  {
    var t := Step(s, Receive(slot, desired, fallback), maxBacklog);
    var p := t.pending.item;
    ReceiveKeeps(s, slot, desired, fallback, maxBacklog);
    StepYoung(s, Receive(slot, desired, fallback), maxBacklog);
    hide Run, Inv, Young, Overtaken, Steer;
    if t.table[slot].cpu.Some? {
      forall es: seq<Event>
        ensures !Overtaken(Run(t, es, maxBacklog).done, p)
      {
        RunKeeps(t, es, maxBacklog);
        RunYoung(t, es, maxBacklog);
        DoneInOrder(Run(t, es, maxBacklog), p, maxBacklog);
      }
    } else {
      var other := if fallback == 0 then 1 else 0;
      var es := Overtaking(t, other, maxBacklog);
      assert Overtaken(Run(t, es, maxBacklog).done, p);
    }
  }

  lemma DoneInOrder(s: State, p: Item, maxBacklog: nat)
    requires Inv(s, maxBacklog) && Young(s) && p.tracked
    ensures !Overtaken(s.done, p)
  {
    hide CpuOk, Queued, Waiting;
    forall i, j | 0 <= i < j < |s.done| && s.done[j] == p && s.done[i].slot == p.slot
      ensures s.done[i].id < p.id
    {
      assert if s.done[i].tracked then Related(s.done[i], s.done[j]) else Mixed(s.done[i], s.done[j]);
    }
  }

  // ---------------------------------------------------------------------------------------
  // The code.

  lemma RunSnoc(s: State, es: seq<Event>, e: Event, maxBacklog: nat)
    ensures Run(s, es + [e], maxBacklog) == Step(Run(s, es, maxBacklog), e, maxBacklog)
  {
    hide Step;
    RunSplit(s, es, [e], maxBacklog);
    assert [e][1..] == [];
    assert Run(Step(Run(s, es, maxBacklog), e, maxBacklog), [], maxBacklog) == Step(Run(s, es, maxBacklog), e, maxBacklog);
  }

  class Receiver {
    const maxBacklog: nat
    var cpus: seq<Softnet>
    var table: seq<Flow>
    var pending: Pending
    var arrived: nat
    var done: seq<Item>

    ghost function Abs(): State
      reads this
    {
      State(cpus, table, pending, arrived, done)
    }

    constructor (cpus: seq<Softnet>, table: seq<Flow>, maxBacklog: nat)
      ensures this.maxBacklog == maxBacklog && Abs() == State(cpus, table, Nothing, 0, [])
    {
      this.maxBacklog, this.cpus, this.table := maxBacklog, cpus, table;
      pending, arrived, done := Nothing, 0, [];
    }

    /** set_rps_cpu. */
    method SetRpsCpu(slot: nat, nextCpu: Option<nat>)
      requires slot < |table| && (nextCpu.Some? ==> nextCpu.value < |cpus|)
      modifies this`table
      ensures table == old(table)[slot := MovedTo(cpus, old(table)[slot], nextCpu)]
    {
      if nextCpu.Some? {
        table := table[slot := table[slot].(lastQtail := cpus[nextCpu.value].head)];
      }
      table := table[slot := table[slot].(cpu := nextCpu)];
    }

    /** get_rps_cpu for a packet with a hash, on a queue with a flow table. */
    method GetRpsCpu(slot: nat, nextCpu: Option<nat>, fallback: nat)
      requires pending.Nothing? && slot < |table| && fallback < |cpus|
      requires (nextCpu.Some? ==> nextCpu.value < |cpus|) && (table[slot].cpu.Some? ==> table[slot].cpu.value < |cpus|)
      modifies this
      ensures Abs() == Step(old(Abs()), Receive(slot, nextCpu, fallback), maxBacklog)
    {
      var tcpu := table[slot].cpu;
      if tcpu != nextCpu
         && (tcpu.None? || Mod32.Diff(cpus[tcpu.value].head, table[slot].lastQtail) >= 0) {
        tcpu := nextCpu;
        SetRpsCpu(slot, nextCpu);
      }
      assert table == old(table)[slot := Steer(cpus, old(table)[slot], nextCpu)];
      pending := if tcpu.Some? then Routed(Item(arrived, slot, true), tcpu.value)
                 else Routed(Item(arrived, slot, false), fallback);
      arrived := arrived + 1;
    }

    /** enqueue_to_backlog for the packet under way. */
    method EnqueueToBacklog(limited: bool) returns (queued: bool)
      requires pending.Routed? && pending.cpu < |cpus| && (pending.item.tracked ==> pending.item.slot < |table|)
      modifies this
      ensures Abs() == Step(old(Abs()), Enqueue(limited), maxBacklog)
      ensures queued <==> !limited && |old(cpus)[old(pending).cpu].input| <= maxBacklog
    {
      var Routed(item, cpu) := pending;
      pending := Nothing;
      if |cpus[cpu].input| <= maxBacklog && !limited {
        var sd := cpus[cpu];
        sd := sd.(input := sd.input + [item]);
        sd := sd.(tail := Wrap(sd.tail + 1));
        cpus := cpus[cpu := sd];
        if item.tracked {
          table := table[item.slot := table[item.slot].(lastQtail := sd.tail)];
        }
        return true;
      }
      return false;
    }

    /** A step of this CPU, recorded in `es`. */
    ghost method Record(s: State, es: seq<Event>, was: State, e: Event) returns (es': seq<Event>)
      requires was == Run(s, es, maxBacklog) && Abs() == Step(was, e, maxBacklog)
      ensures es' == es + [e] && Abs() == Run(s, es', maxBacklog)
    {
      hide Run, Step;
      RunSnoc(s, es, e, maxBacklog);
      es' := es + [e];
    }

    /** One packet of process_queue goes through protocol processing. */
    method ProcessOne(cpu: nat, ghost s: State, ghost es: seq<Event>) returns (ghost es': seq<Event>)
      requires cpu < |cpus| && cpus[cpu].work.Free? && cpus[cpu].process != []
      requires Abs() == Run(s, es, maxBacklog)
      modifies this`cpus, this`done
      ensures es' == es + [Dequeue(cpu)] + [Finish(cpu)] + [Advance(cpu)] && Abs() == Run(s, es', maxBacklog)
      ensures |cpus| == |old(cpus)| && cpus[cpu].work.Free? && |done| == |old(done)| + 1
      ensures cpus[cpu].process == old(cpus)[cpu].process[1..] && cpus[cpu].input == old(cpus)[cpu].input
    {
      hide Run;
      ghost var was := Abs();
      var skb := cpus[cpu].process[0];
      cpus := cpus[cpu := cpus[cpu].(process := cpus[cpu].process[1..], work := Busy(skb))];
      es' := Record(s, es, was, Dequeue(cpu));
      was := Abs();
      done := done + [skb];
      cpus := cpus[cpu := cpus[cpu].(work := Finished)];
      es' := Record(s, es', was, Finish(cpu));
      was := Abs();
      cpus := cpus[cpu := cpus[cpu].(work := Free, head := Wrap(cpus[cpu].head + 1))];
      es' := Record(s, es', was, Advance(cpu));
    }

    /** process_backlog without interference: it is a run of steps of this CPU that finishes
        `work` packets, and leaves nothing behind if that is less than its quota. */
    method ProcessBacklog(cpu: nat, quota: nat) returns (work: nat, ghost es: seq<Event>)
      requires cpu < |cpus| && cpus[cpu].work.Free? && quota > 0
      modifies this`cpus, this`done
      ensures Abs() == Run(old(Abs()), es, maxBacklog)
      ensures forall i :: 0 <= i < |es| ==> es[i] in {Splice(cpu), Dequeue(cpu), Finish(cpu), Advance(cpu)}
      ensures work <= quota && |done| == |old(done)| + work
      ensures |cpus| == |old(cpus)| && (work < quota ==> cpus[cpu].process == [] && cpus[cpu].input == [])
    {
      hide Run, Step;
      ghost var s := Abs();
      work, es := 0, [];
      RunNone(s, maxBacklog);
      while true
        invariant |cpus| == |old(cpus)| && cpus[cpu].work.Free? && work < quota && |done| == |old(done)| + work
        invariant Abs() == Run(s, es, maxBacklog)
        invariant forall i :: 0 <= i < |es| ==> es[i] in {Splice(cpu), Dequeue(cpu), Finish(cpu), Advance(cpu)}
        decreases |cpus[cpu].process| + |cpus[cpu].input|, |cpus[cpu].input|
      {
        ghost var p0, in0 := |cpus[cpu].process|, cpus[cpu].input;
        while cpus[cpu].process != []
          invariant |cpus| == |old(cpus)| && |cpus[cpu].process| <= p0 && cpus[cpu].input == in0
          invariant cpus[cpu].work.Free? && work < quota && |done| == |old(done)| + work
          invariant Abs() == Run(s, es, maxBacklog)
          invariant forall i :: 0 <= i < |es| ==> es[i] in {Splice(cpu), Dequeue(cpu), Finish(cpu), Advance(cpu)}
          decreases |cpus[cpu].process|
        {
          es := ProcessOne(cpu, s, es);
          work := work + 1;
          if work >= quota {
            return;
          }
        }
        if cpus[cpu].input == [] {
          return;
        }
        es := SpliceInput(cpu, s, es);
      }
    }

    method SpliceInput(cpu: nat, ghost s: State, ghost es: seq<Event>) returns (ghost es': seq<Event>)
      requires cpu < |cpus| && cpus[cpu].process == [] && Abs() == Run(s, es, maxBacklog)
      modifies this`cpus
      ensures es' == es + [Splice(cpu)] && Abs() == Run(s, es', maxBacklog)
      ensures cpus == old(cpus)[cpu := old(cpus)[cpu].(process := old(cpus)[cpu].input, input := [])]
    {
      hide Run;
      ghost var was := Abs();
      cpus := cpus[cpu := cpus[cpu].(process := cpus[cpu].input, input := [])];
      es' := Record(s, es, was, Splice(cpu));
    }
  }

  lemma RunNone(s: State, maxBacklog: nat)
    ensures Run(s, [], maxBacklog) == s
  {
  }
}
