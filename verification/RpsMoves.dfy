/**
  When an entry of the flow table follows its reader to another CPU: as soon as the CPU it has
  has finished and counted everything up to the last packet that the entry sent there, and no
  sooner, although the counters that are compared are 32-bit words that wrap.
 */
module RpsMoves {
  import opened Serial
  import opened Wrappers
  import opened Rps

  /** What a CPU finishes in a run, in order. */
  ghost function Served(s: State, es: seq<Event>, cpu: nat, maxBacklog: nat): seq<Item>
    decreases |es|
  {
    if es == [] then []
    else
      (if es[0] == Finish(cpu) && cpu < |s.cpus| && s.cpus[cpu].work.Busy? then [s.cpus[cpu].work.item] else [])
      + Served(Step(s, es[0], maxBacklog), es[1..], cpu, maxBacklog)
  }

  /** A packet is finished and not yet counted. */
  ghost function Uncounted(c: Softnet): nat {
    if c.work.Finished? then 1 else 0
  }

  /** How many packets a CPU counts in a run. */
  ghost function Counts(s: State, es: seq<Event>, cpu: nat, maxBacklog: nat): int
    requires cpu < |s.cpus| && cpu < |Run(s, es, maxBacklog).cpus|
  {
    |Served(s, es, cpu, maxBacklog)| + Uncounted(s.cpus[cpu]) - Uncounted(Run(s, es, maxBacklog).cpus[cpu])
  }

  lemma StepServes(s: State, e: Event, cpu: nat, maxBacklog: nat) returns (more: seq<Item>)
    requires cpu < |s.cpus|
    ensures var t := Step(s, e, maxBacklog);
      var now := Served(s, [e], cpu, maxBacklog);
      && |t.cpus| == |s.cpus| && |t.table| == |s.table|
      && now + Line(t.cpus[cpu]) == Line(s.cpus[cpu]) + more
      && Wrap(t.cpus[cpu].head) == Wrap(s.cpus[cpu].head + |now| + Uncounted(s.cpus[cpu]) - Uncounted(t.cpus[cpu]))
  {
    hide Steer, Line, Wrap, Pushed;
    var c, d := s.cpus[cpu], Step(s, e, maxBacklog).cpus[cpu];
    more := [];
    assert [e][1..] == [];
    assert Line(c) + [] == Line(c) && [] + Line(d) == Line(d);
    if d != c {
      match e
      case Other(_, id) =>
        more := [Item(id, |s.table|, false)];
        PushedLineIs(c, more[0]);
      case Enqueue(_) =>
        more := [s.pending.item];
        PushedLineIs(c, more[0]);
      case _ => WorkServes(s, e, cpu, maxBacklog);
    }
  }

  lemma WorkServes(s: State, e: Event, cpu: nat, maxBacklog: nat)
    requires cpu < |s.cpus| && e in {Splice(cpu), Dequeue(cpu), Finish(cpu), Advance(cpu)}
    ensures var c, d, now := s.cpus[cpu], Step(s, e, maxBacklog).cpus[cpu], Served(s, [e], cpu, maxBacklog);
      && now + Line(d) == Line(c)
      && Wrap(d.head) == Wrap(c.head + |now| + Uncounted(c) - Uncounted(d))
  {
    hide Wrap;
    var c := s.cpus[cpu];
    assert [e][1..] == [];
    if e.Dequeue? && c.work.Free? && c.process != [] {
      DequeuedLine(c);
    }
    WrapShift(c.head + 1, 0);
    FinishedLine(c);
  }

  lemma FinishedLine(c: Softnet)
    ensures c.work.Busy? ==> [c.work.item] + Line(c.(work := Finished)) == Line(c)
  {
    if c.work.Busy? {
      assert [c.work.item] + (c.process + c.input) == [c.work.item] + c.process + c.input;
    }
  }

  lemma PushedLineIs(c: Softnet, item: Item)
    ensures Line(Pushed(c, item)) == Line(c) + [item] && Pushed(c, item).head == c.head && Pushed(c, item).work == c.work
  {
  }

  /** A CPU finishes what is in its line in order, and its counter says how much. */
  lemma {:induction false} RunServes(s: State, es: seq<Event>, cpu: nat, maxBacklog: nat) returns (more: seq<Item>)
    requires cpu < |s.cpus|
    ensures var t := Run(s, es, maxBacklog);
      && |t.cpus| == |s.cpus| && |t.table| == |s.table|
      && Served(s, es, cpu, maxBacklog) + Line(t.cpus[cpu]) == Line(s.cpus[cpu]) + more
      && Wrap(t.cpus[cpu].head) == Wrap(s.cpus[cpu].head + Counts(s, es, cpu, maxBacklog))
    decreases |es|
  {
    hide Step, Line, Wrap;
    if es == [] {
      more := [];
      assert Line(s.cpus[cpu]) + more == Line(s.cpus[cpu]);
      assert [] + Line(s.cpus[cpu]) == Line(s.cpus[cpu]);
    } else {
      var u := Step(s, es[0], maxBacklog);
      var first := StepServes(s, es[0], cpu, maxBacklog);
      var rest := RunServes(u, es[1..], cpu, maxBacklog);
      ServedFirst(s, es, cpu, maxBacklog);
      more := first + rest;
      var now, later := Served(s, [es[0]], cpu, maxBacklog), Served(u, es[1..], cpu, maxBacklog);
      assert now + later + Line(Run(u, es[1..], maxBacklog).cpus[cpu]) == now + (later + Line(Run(u, es[1..], maxBacklog).cpus[cpu]));
      assert now + (Line(u.cpus[cpu]) + rest) == (now + Line(u.cpus[cpu])) + rest;
      assert (Line(s.cpus[cpu]) + first) + rest == Line(s.cpus[cpu]) + more;
      HeadSum(u.cpus[cpu].head, s.cpus[cpu].head, |now| + Uncounted(s.cpus[cpu]) - Uncounted(u.cpus[cpu]),
              Counts(u, es[1..], cpu, maxBacklog));
    }
  }

  lemma ServedFirst(s: State, es: seq<Event>, cpu: nat, maxBacklog: nat)
    requires es != []
    ensures Served(s, es, cpu, maxBacklog)
         == Served(s, [es[0]], cpu, maxBacklog) + Served(Step(s, es[0], maxBacklog), es[1..], cpu, maxBacklog)
  {
    hide Step;
    assert [es[0]][1..] == [];
    assert Served(Step(s, es[0], maxBacklog), [], cpu, maxBacklog) == [];
  }

  lemma HeadSum(u: int, s: int, a: int, b: int)
    requires Wrap(u) == Wrap(s + a)
    ensures Wrap(u + b) == Wrap(s + a + b)
  {
    WrapShift(u, b);
    WrapShift(s + a, b);
  }

  // ---------------------------------------------------------------------------------------

  /** The entry records a place `n` packets ahead of the head of its CPU, which then counts `k`. */
  lemma TestDecides(head: int, head': int, last: int, n: int, k: int)
    requires Wrap(last) == Wrap(head + n) && Wrap(head') == Wrap(head + k) && -HALF <= k - n < HALF
    ensures Mod32.Diff(head', last) >= 0 <==> k >= n
  {
    DiffOfWrapped(head + k, head + n);
    WrapShift(head' - last, 0);
    WrapShift(head', last);
    WrapShift(head + k, head + n);
    WrapShift(head', 0);
    DiffWrapped(head', last);
    DiffWrapped(head + k, head + n);
  }

  lemma DiffWrapped(x: int, y: int)
    ensures Mod32.Diff(x, y) == Mod32.Diff(Wrap(x), Wrap(y))
  {
    var w: int := Wrap(y);
    WrapShift(x, -w);
    WrapShift(x, y);
    assert Wrap(Wrap(x) - Wrap(y)) == Wrap(x - Wrap(y)) == Wrap(x - y);
  }

  /** The entry has CPU `c`, and the place it records is `n` packets ahead of what the CPU had
      counted in `u`: it moves if and only if the CPU has counted `n` packets since. */
  lemma MovesAfter(u: State, es: seq<Event>, c: nat, n: int, slot: nat, desired: Option<nat>, fallback: nat, maxBacklog: nat)
    requires c < |u.cpus| && fallback < |u.cpus| && (desired.Some? ==> desired.value < |u.cpus|) && desired != Some(c)
    requires slot < |u.table| && u.table[slot].cpu == Some(c) && Wrap(u.table[slot].lastQtail) == Wrap(u.cpus[c].head + n)
    requires slot < |Run(u, es, maxBacklog).table| && Run(u, es, maxBacklog).table[slot] == u.table[slot]
    requires c < |Run(u, es, maxBacklog).cpus| && -HALF <= Counts(u, es, c, maxBacklog) - n < HALF
    requires Run(u, es, maxBacklog).pending.Nothing?
    ensures var t := Run(u, es, maxBacklog);
      var v := Step(t, Receive(slot, desired, fallback), maxBacklog);
      && slot < |v.table| && v.pending.Routed?
      && if Counts(u, es, c, maxBacklog) >= n
         then v.table[slot].cpu == desired
              && v.pending == Routed(Item(t.arrived, slot, desired.Some?), if desired.Some? then desired.value else fallback)
              && (desired.Some? ==> v.table[slot].lastQtail == v.cpus[desired.value].head)
         else v.table == t.table && v.pending == Routed(Item(t.arrived, slot, true), c)
  {
    hide Run, Served, Line, Wrap, Arith.Diff;
    var more := RunServes(u, es, c, maxBacklog);
    var t := Run(u, es, maxBacklog);
    TestDecides(u.cpus[c].head, t.cpus[c].head, t.table[slot].lastQtail, n, Counts(u, es, c, maxBacklog));
    assert t.table[slot := t.table[slot]] == t.table;
  }

  /** A packet of an entry is put on the backlog of the CPU of the entry, and then anything may
      happen but that the entry changes.  A reader on another CPU takes the entry with it if and
      only if everything up to the packet is finished and counted; otherwise entry and packets
      stay with the CPU. */
  lemma MovesIff(s: State, es: seq<Event>, desired: Option<nat>, fallback: nat, maxBacklog: nat)
    requires Inv(s, maxBacklog) && 2 * maxBacklog + 3 < HALF - 1
    requires s.pending.Routed? && s.pending.item.tracked && Room(s.cpus[s.pending.cpu], maxBacklog)
    requires fallback < |s.cpus| && (desired.Some? ==> desired.value < |s.cpus|) && desired != Some(s.pending.cpu)
    requires var u, slot := Step(s, Enqueue(false), maxBacklog), s.pending.item.slot;
      var t := Run(u, es, maxBacklog);
      && t.pending.Nothing? && slot < |t.table| && slot < |u.table| && t.table[slot] == u.table[slot] && s.pending.cpu < |u.cpus|
      && |Served(u, es, s.pending.cpu, maxBacklog)| < |Line(u.cpus[s.pending.cpu])| + HALF
    ensures var u, slot, c := Step(s, Enqueue(false), maxBacklog), s.pending.item.slot, s.pending.cpu;
      var t := Run(u, es, maxBacklog);
      var v, line, served := Step(t, Receive(slot, desired, fallback), maxBacklog), Line(u.cpus[c]), Served(u, es, c, maxBacklog);
      && line == Line(s.cpus[c]) + [s.pending.item] && slot < |v.table| && c < |t.cpus|
      && if |line| + Uncounted(t.cpus[c]) <= |served|
         then line <= served && v.table[slot].cpu == desired
              && v.pending == Routed(Item(t.arrived, slot, desired.Some?), if desired.Some? then desired.value else fallback)
         else v.table == t.table && v.pending == Routed(Item(t.arrived, slot, true), c)
  {
    var u, slot, c := Step(s, Enqueue(false), maxBacklog), s.pending.item.slot, s.pending.cpu;
    EnqueuedMark(s, maxBacklog);
    hide Run, Step, Served, Line, Wrap, Inv;
    var more := RunServes(u, es, c, maxBacklog);
    var line, served, left := Line(u.cpus[c]), Served(u, es, c, maxBacklog), Line(Run(u, es, maxBacklog).cpus[c]);
    if |line| <= |served| {
      assert (served + left)[..|line|] == (line + more)[..|line|];
      assert served[..|line|] == line;
    }
    MovesAfter(u, es, c, |line| + Uncounted(u.cpus[c]), slot, desired, fallback, maxBacklog);
  }

  lemma EnqueuedMark(s: State, maxBacklog: nat)
    requires Inv(s, maxBacklog) && 2 * maxBacklog + 3 < HALF - 1
    requires s.pending.Routed? && s.pending.item.tracked && Room(s.cpus[s.pending.cpu], maxBacklog)
    ensures var u, slot, c := Step(s, Enqueue(false), maxBacklog), s.pending.item.slot, s.pending.cpu;
      && |u.cpus| == |s.cpus| && slot < |u.table| && u.table[slot].cpu == Some(c)
      && Line(u.cpus[c]) == Line(s.cpus[c]) + [s.pending.item] && |Line(u.cpus[c])| <= 2 * maxBacklog + 4
      && Wrap(u.table[slot].lastQtail) == Wrap(u.cpus[c].head + |Line(u.cpus[c])| + Uncounted(u.cpus[c]))
  {
    var c := s.cpus[s.pending.cpu];
    assert CpuOk(s, s.pending.cpu, maxBacklog);
    LineLength(c, maxBacklog);
    PushedLineIs(c, s.pending.item);
    hide Line, Ordered, Precedes, Below, Home, Marked, Wrap;
    var f, n := Uncounted(c), |Line(c)|;
    WrapShift(c.head + f, n);
    WrapShift(c.head + f + n, 1);
    WrapShift(c.head + f + n + 1, 0);
  }

  /** An entry that has moved to a CPU without sending it a packet may move on at once. */
  lemma MovesOn(t: State, es: seq<Event>, slot: nat, d: nat, fallback: nat, desired: Option<nat>, fallback': nat, maxBacklog: nat)
    requires t.pending.Nothing? && slot < |t.table| && d < |t.cpus| && fallback < |t.cpus| && t.table[slot].cpu.None?
    requires fallback' < |t.cpus| && (desired.Some? ==> desired.value < |t.cpus|) && desired != Some(d)
    requires var v := Step(t, Receive(slot, Some(d), fallback), maxBacklog);
      var w := Run(v, es, maxBacklog);
      && w.pending.Nothing? && slot < |w.table| && slot < |v.table| && w.table[slot] == v.table[slot]
      && |Served(v, es, d, maxBacklog)| < HALF - 1
    ensures var w := Run(Step(t, Receive(slot, Some(d), fallback), maxBacklog), es, maxBacklog);
      var x := Step(w, Receive(slot, desired, fallback'), maxBacklog);
      && slot < |x.table| && x.table[slot].cpu == desired
      && x.pending == Routed(Item(w.arrived, slot, desired.Some?), if desired.Some? then desired.value else fallback')
  {
    var v := Step(t, Receive(slot, Some(d), fallback), maxBacklog);
    assert v.table[slot] == Flow(Some(d), t.cpus[d].head) && v.cpus == t.cpus;
    hide Run, Step, Served, Line, Wrap;
    var more := RunServes(v, es, d, maxBacklog);
    CountsGrow(v, es, d, maxBacklog);
    MovesAfter(v, es, d, 0, slot, desired, fallback', maxBacklog);
  }

  lemma {:induction false} CountsGrow(s: State, es: seq<Event>, cpu: nat, maxBacklog: nat)
    requires cpu < |s.cpus| && cpu < |Run(s, es, maxBacklog).cpus|
    ensures Counts(s, es, cpu, maxBacklog) >= 0
    decreases |es|
  {
    hide Step;
    if es == [] {
    } else {
      StepCounts(s, es[0], cpu, maxBacklog);
      ServedFirst(s, es, cpu, maxBacklog);
      CountsGrow(Step(s, es[0], maxBacklog), es[1..], cpu, maxBacklog);
    }
  }

  lemma StepCounts(s: State, e: Event, cpu: nat, maxBacklog: nat)
    requires cpu < |s.cpus|
    ensures var t := Step(s, e, maxBacklog);
      |t.cpus| == |s.cpus| && |Served(s, [e], cpu, maxBacklog)| + Uncounted(s.cpus[cpu]) >= Uncounted(t.cpus[cpu])
  {
    hide Wrap, Steer;
    assert [e][1..] == [];
  }

  /** An entry without a CPU takes that of the reader, and one that has it already keeps it. */
  lemma Settles(t: State, slot: nat, desired: Option<nat>, fallback: nat, maxBacklog: nat)
    requires t.pending.Nothing? && slot < |t.table| && fallback < |t.cpus| && (desired.Some? ==> desired.value < |t.cpus|)
    requires t.table[slot].cpu.None? || t.table[slot].cpu == desired
    ensures var v := Step(t, Receive(slot, desired, fallback), maxBacklog);
      && slot < |v.table| && v.table[slot].cpu == desired && v == t.(table := v.table, arrived := t.arrived + 1, pending := v.pending)
      && v.table == t.table[slot := v.table[slot]]
      && v.pending == Routed(Item(t.arrived, slot, desired.Some?), if desired.Some? then desired.value else fallback)
  {
  }
}
