/**
  The fixed pool of out-of-order queues of one NAPI instance: a queue is either in the pool or
  belongs to one entry of the list of flows.  Each queue runs through the events of module
  GroQueue; here it is which queue, and where it is afterwards.
 */
module GroPool {
  import opened Serial
  import opened GroQueue

  const MAX_GRO_SKBS: int := 8
  const FLUSH_TIMEOUT: nat := 100000

  /** A queue head: flow hash and age, which survive in the pool, and the flow it serves. */
  datatype QueueHead = QueueHead(hash: int, age: int, key: int, flow: Flow)

  predicate Idle(h: QueueHead) {
    h.flow.s.q == []
  }

  /** The history of a queue that starts over with the sequence number of its next packet. */
  function NewLife(sn: int): Flow {
    Flow(Queue(sn, [], []), 0, [])
  }

  /** In a new life, the first packet with payload is held, whatever its number. */
  lemma NewLifeHolds(p: Pkt, differs: bool)
    requires 0 <= p.sn < M32
    ensures var f := Step(Mod32, NewLife(p.sn), Arrive(p, differs));
      if !differs && p.len > 0 then f == Flow(Queue(p.sn, [p], []), p.len, [])
      else f.s.q == [] && f.s.done == [] && f.normal == [p]
  {
    DiffOfWrapped(p.sn, p.sn);
  }

  /** The pool as the first `n` queues are put into it. */
  function Down(n: nat): (r: seq<nat>)
    ensures |r| == n
    ensures forall i :: 0 <= i < |r| ==> r[i] < n
  {
    if n == 0 then [] else [n - 1] + Down(n - 1)
  }

  lemma {:induction false} DownDistinct(n: nat, x: nat)
    ensures multiset(Down(n))[x] <= 1
    ensures x >= n ==> multiset(Down(n))[x] == 0
  {
    if n == 0 {
    } else {
      DownDistinct(n - 1, x);
    }
  }

  /** Every queue is exactly once in the pool or in the list of flows. */
  ghost predicate Partition(pool: seq<nat>, list: seq<nat>) {
    multiset(pool) + multiset(list) == multiset(Down(9))
  }

  function RemoveAt(s: seq<nat>, k: nat): (r: seq<nat>)
    requires k < |s|
    ensures |r| == |s| - 1
  {
    s[..k] + s[k + 1..]
  }

  lemma RemoveAtKeeps(s: seq<nat>, k: nat)
    requires k < |s|
    ensures multiset(RemoveAt(s, k)) + multiset{s[k]} == multiset(s)
  {
    assert s == s[..k] + [s[k]] + s[k + 1..];
  }

  lemma PartitionSizes(pool: seq<nat>, list: seq<nat>)
    requires Partition(pool, list)
    ensures |pool| + |list| == 9
    ensures forall i :: 0 <= i < |pool| ==> pool[i] <= 8
    ensures forall i :: 0 <= i < |list| ==> list[i] <= 8
  {
    hide Down;
    var all := Down(9);
    assert |multiset(pool) + multiset(list)| == |multiset(all)|;
    assert forall i :: 0 <= i < |pool| ==> pool[i] in multiset(all);
    assert forall i :: 0 <= i < |list| ==> list[i] in multiset(all);
  }

  lemma TwoPlaces(s: seq<nat>, i: nat, j: nat)
    requires i < j < |s| && s[i] == s[j]
    ensures multiset(s)[s[i]] >= 2
  {
    var a, b := s[..j], s[j..];
    assert s == a + b && a[i] == s[i] && b[0] == s[i];
    assert s[i] in multiset(a) && s[i] in multiset(b);
  }

  lemma NoTwice(s: seq<nat>, i: nat, j: nat)
    requires multiset(s) == multiset(Down(9)) && i < j < |s|
    ensures s[i] != s[j]
  {
    hide Down;
    DownDistinct(9, s[i]);
    if s[i] == s[j] {
      TwoPlaces(s, i, j);
    }
  }

  /** No queue is in two places. */
  lemma PartitionDistinct(pool: seq<nat>, list: seq<nat>)
    requires Partition(pool, list)
    ensures forall i, j :: 0 <= i < j < |pool| ==> pool[i] != pool[j]
    ensures forall i, j :: 0 <= i < j < |list| ==> list[i] != list[j]
    ensures forall i, j :: 0 <= i < |pool| && 0 <= j < |list| ==> pool[i] != list[j]
  {
    var s, n := pool + list, |pool|;
    assert multiset(s) == multiset(Down(9));
    hide *;
    forall i, j | 0 <= i < j < n
      ensures pool[i] != pool[j]
    {
      NoTwice(s, i, j);
    }
    forall i, j | 0 <= i < j < |list|
      ensures list[i] != list[j]
    {
      NoTwice(s, n + i, n + j);
    }
    forall i, j | 0 <= i < n && 0 <= j < |list|
      ensures pool[i] != list[j]
    {
      NoTwice(s, i, n + j);
    }
  }

  ghost predicate AllIdle(heads: seq<QueueHead>, pool: seq<nat>) {
    forall i :: 0 <= i < |pool| ==> pool[i] < |heads| && Idle(heads[pool[i]])
  }

  ghost predicate AllBusy(heads: seq<QueueHead>, list: seq<nat>) {
    forall i :: 0 <= i < |list| ==> list[i] < |heads| && !Idle(heads[list[i]])
  }

  lemma RemoveAtAll(heads: seq<QueueHead>, s: seq<nat>, k: nat)
    requires k < |s|
    ensures AllIdle(heads, s) ==> AllIdle(heads, RemoveAt(s, k))
    ensures AllBusy(heads, s) ==> AllBusy(heads, RemoveAt(s, k))
  {
    hide Idle;
  }

  /** A queue that does not occur in `s` changes. */
  lemma OtherChanges(heads: seq<QueueHead>, s: seq<nat>, q: nat, h: QueueHead)
    requires q < |heads| && forall i :: 0 <= i < |s| ==> s[i] != q
    ensures AllIdle(heads, s) ==> AllIdle(heads[q := h], s)
    ensures AllBusy(heads, s) ==> AllBusy(heads[q := h], s)
  {
    hide Idle;
  }

  lemma StaysIdle(heads: seq<QueueHead>, s: seq<nat>, q: nat, h: QueueHead)
    requires q < |heads| && Idle(h) && AllIdle(heads, s)
    ensures AllIdle(heads[q := h], s)
  {
    hide Idle;
  }

  lemma RemoveAtDistinct(s: seq<nat>, k: nat)
    requires k < |s| && forall i, j :: 0 <= i < j < |s| ==> s[i] != s[j]
    ensures forall i :: 0 <= i < |s| - 1 ==> RemoveAt(s, k)[i] != s[k]
  {
  }

  lemma PartitionFront(pool: seq<nat>, list: seq<nat>, k: nat)
    requires Partition(pool, list) && k < |pool|
    ensures Partition([pool[k]] + RemoveAt(pool, k), list)
  {
    RemoveAtKeeps(pool, k);
    hide RemoveAt, Down;
  }

  lemma PartitionTake(pool: seq<nat>, list: seq<nat>, k: nat)
    requires Partition(pool, list) && k < |pool|
    ensures Partition(RemoveAt(pool, k), [pool[k]] + list)
    ensures forall i :: 0 <= i < |pool| - 1 ==> RemoveAt(pool, k)[i] != pool[k]
    ensures forall i :: 0 <= i < |list| ==> list[i] != pool[k]
  {
    PartitionDistinct(pool, list);
    RemoveAtDistinct(pool, k);
    RemoveAtKeeps(pool, k);
    MultisetTake(pool, list, k);
  }

  lemma MultisetTake(pool: seq<nat>, list: seq<nat>, k: nat)
    requires k < |pool|
    ensures multiset(RemoveAt(pool, k)) + multiset([pool[k]] + list) == multiset(pool) + multiset(list)
  {
    RemoveAtKeeps(pool, k);
  }

  lemma PartitionSwap(pool: seq<nat>, list: seq<nat>)
    requires Partition(pool, list)
    ensures Partition(list, pool)
  {
    hide Down;
  }

  lemma ConsAll(heads: seq<QueueHead>, q: nat, s: seq<nat>)
    requires q < |heads|
    ensures Idle(heads[q]) && AllIdle(heads, s) ==> AllIdle(heads, [q] + s)
    ensures !Idle(heads[q]) && AllBusy(heads, s) ==> AllBusy(heads, [q] + s)
  {
    hide Idle;
  }

  lemma StaysBusy(heads: seq<QueueHead>, s: seq<nat>, q: nat, h: QueueHead)
    requires q < |heads| && !Idle(h) && AllBusy(heads, s)
    ensures AllBusy(heads[q := h], s)
  {
    hide Idle;
  }

  /** The entries of `ids` that still hold packets, in order. */
  function Survivors(heads: seq<QueueHead>, ids: seq<nat>): (r: seq<nat>)
    requires forall i :: 0 <= i < |ids| ==> ids[i] < |heads|
  {
    if ids == [] then []
    else (if Idle(heads[ids[0]]) then [] else [ids[0]]) + Survivors(heads, ids[1..])
  }

  /** The other entries of `ids`, in order. */
  function Released(heads: seq<QueueHead>, ids: seq<nat>): (r: seq<nat>)
    requires forall i :: 0 <= i < |ids| ==> ids[i] < |heads|
  {
    if ids == [] then []
    else (if Idle(heads[ids[0]]) then [ids[0]] else []) + Released(heads, ids[1..])
  }

  /** A change of a queue in front of `ids`. */
  lemma {:induction false} SplitSame(heads: seq<QueueHead>, ids: seq<nat>, q: nat, h: QueueHead)
    requires q < |heads| && forall i :: 0 <= i < |ids| ==> ids[i] < |heads| && ids[i] != q
    ensures Survivors(heads[q := h], ids) == Survivors(heads, ids)
    ensures Released(heads[q := h], ids) == Released(heads, ids)
  {
    hide Idle;
    if ids == [] {
    } else {
      SplitSame(heads, ids[1..], q, h);
    }
  }

  lemma SplitCons(heads: seq<QueueHead>, q: nat, ids: seq<nat>)
    requires q < |heads| && forall i :: 0 <= i < |ids| ==> ids[i] < |heads|
    ensures Survivors(heads, [q] + ids) == (if Idle(heads[q]) then [] else [q]) + Survivors(heads, ids)
    ensures Released(heads, [q] + ids) == (if Idle(heads[q]) then [q] else []) + Released(heads, ids)
  {
    hide Idle;
    assert ([q] + ids)[1..] == ids;
  }

  lemma DropMiddle(a: seq<nat>, q: nat, s: seq<nat>)
    ensures RemoveAt(a + [q] + s, |a|) == a + s && (a + [q] + s)[|a|] == q && a + [q] + s == a + ([q] + s)
  {
  }

  ghost predicate FlushedOne(was: QueueHead, h: QueueHead, now: int) {
    h.flow == Step(Mod32, was.flow, Timer(now, FLUSH_TIMEOUT))
  }

  /** napi_gro_flush has dealt with the flows `rest` and not with those of `front`. */
  ghost predicate Flushed(was: seq<QueueHead>, heads: seq<QueueHead>, front: seq<nat>, rest: seq<nat>, now: int,
                          list: seq<nat>, pool0: seq<nat>, pool: seq<nat>) {
    && |was| == |heads| == 9 && (forall i :: 0 <= i < |front| ==> front[i] < 9)
    && (forall i :: 0 <= i < |rest| ==> rest[i] < 9 && FlushedOne(was[rest[i]], heads[rest[i]], now))
    && (forall q :: 0 <= q < 9 && q !in rest ==> heads[q] == was[q])
    && list == front + Survivors(heads, rest)
    && pool == Released(heads, rest) + pool0
  }

  lemma FlushedStart(heads: seq<QueueHead>, l: seq<nat>, now: int, pool: seq<nat>)
    requires |heads| == 9 && forall j :: 0 <= j < |l| ==> l[j] < 9
    ensures Flushed(heads, heads, l, [], now, l, pool, pool)
  {
  }

  lemma FlushedLast(was: seq<QueueHead>, heads: seq<QueueHead>, front: seq<nat>, rest: seq<nat>, now: int,
                    list: seq<nat>, pool0: seq<nat>, pool: seq<nat>)
    requires Flushed(was, heads, front, rest, now, list, pool0, pool) && front != []
    ensures |front| <= |list| && list[|front| - 1] == front[|front| - 1] < 9
  {
  }

  /** The last of `front` is flushed. */
  lemma FlushedNext(was: seq<QueueHead>, heads: seq<QueueHead>, a: seq<nat>, q: nat, rest: seq<nat>, now: int,
                    list: seq<nat>, pool0: seq<nat>, pool: seq<nat>, h: QueueHead)
    requires Flushed(was, heads, a + [q], rest, now, list, pool0, pool)
    requires q < 9 && q !in rest && FlushedOne(heads[q], h, now)
    ensures |a| < |list|
    ensures Flushed(was, heads[q := h], a, [q] + rest, now, if Idle(h) then RemoveAt(list, |a|) else list,
                    pool0, (if Idle(h) then [q] else []) + pool)
  {
    hide Idle, FlushedOne, Survivors, Released, RemoveAt;
    assert forall i :: 0 <= i < |a| ==> a[i] == (a + [q])[i];
    SplitSame(heads, rest, q, h);
    SplitCons(heads[q := h], q, rest);
    DropMiddle(a, q, Survivors(heads, rest));
  }

  lemma DownNext(n: nat)
    ensures Down(n + 1) == [n] + Down(n)
  {
  }

  lemma StartPartition()
    ensures Partition(Down(9), [])
  {
  }

  class Napi {
    var heads: seq<QueueHead>
    /** out_of_order_queue_list, first element in front. */
    var pool: seq<nat>
    /** gro_list, youngest flow in front. */
    var list: seq<nat>
    /** gro_count. */
    var count: int

    ghost predicate Parts()
      reads this`heads, this`pool, this`list
    {
      |heads| == 9 && Partition(pool, list) && AllIdle(heads, pool) && AllBusy(heads, list)
    }

    ghost predicate Valid()
      reads this
    {
      Parts() && count == |list| <= MAX_GRO_SKBS
    }

    /** netif_napi_add. */
    constructor ()
      ensures Valid() && list == []
      ensures forall i :: 0 <= i < 9 ==> heads[i] == QueueHead(0, 0, 0, NewLife(0))
    {
      hide Partition, Down;
      heads := seq(9, _ => QueueHead(0, 0, 0, NewLife(0)));
      list, count, pool := [], 0, Down(0);
      new;
      var i := 0;
      while i <= MAX_GRO_SKBS
        invariant i <= 9 && pool == Down(i) && list == [] && count == 0
        invariant heads == seq(9, _ => QueueHead(0, 0, 0, NewLife(0)))
      {
        DownNext(i);
        pool := [i] + pool;
        i := i + 1;
      }
      StartPartition();
    }

    /** The entry of a flow in the list of flows. */
    method FindFlow(key: int) returns (i: nat)
      requires Valid()
      ensures i <= |list| && (i < |list| ==> list[i] < 9 && heads[list[i]].key == key)
      ensures forall j :: 0 <= j < i ==> list[j] < 9 && heads[list[j]].key != key
    {
      hide Partition, Idle;
      i := 0;
      while i < |list| && heads[list[i]].key != key
        invariant i <= |list|
        invariant forall j :: 0 <= j < i ==> list[j] < 9 && heads[list[j]].key != key
      {
        i := i + 1;
      }
    }

    method FindQueue(hash: int) returns (k: nat)
      requires Valid()
      ensures k <= |pool| && (k < |pool| ==> pool[k] < 9 && heads[pool[k]].hash == hash)
      ensures forall i :: 0 <= i < k ==> pool[i] < 9 && heads[pool[i]].hash != hash
    {
      hide Partition, Idle;
      k := 0;
      while k < |pool| && heads[pool[k]].hash != hash
        invariant k <= |pool|
        invariant forall i :: 0 <= i < k ==> heads[pool[i]].hash != hash
      {
        k := k + 1;
      }
    }

    /** The idle queue at index `k` of the pool changes and stays idle. */
    method SetIdle(k: nat, h: QueueHead)
      requires Parts() && k < |pool| && pool[k] < 9 && Idle(h)
      modifies this`heads
      ensures Parts() && heads == old(heads)[pool[k] := h]
    {
      hide Partition, AllBusy, AllIdle;
      PartitionTake(pool, list, k);
      OtherChanges(heads, list, pool[k], h);
      StaysIdle(heads, pool, pool[k], h);
      heads := heads[pool[k] := h];
    }

    /** napi_get_tcp_ofo_queue: the queue that served `hash` before, or else the one that has been
        in the pool for longest, which is reset.  There always is one. */
    method GetQueue(hash: int) returns (k: nat)
      requires Valid()
      modifies this`heads
      ensures Valid() && k < |pool| && pool[k] < 9
      ensures forall i :: 0 <= i < k ==> pool[i] < 9 && old(heads)[pool[i]].hash != hash
      ensures if old(heads)[pool[k]].hash == hash then heads == old(heads)
              else k == |pool| - 1 && heads == old(heads)[pool[k] := QueueHead(0, 0, 0, NewLife(0))]
    {
      hide Partition, AllIdle, AllBusy;
      PartitionSizes(pool, list);
      k := FindQueue(hash);
      if k == |pool| {
        k := |pool| - 1;
        SetIdle(k, QueueHead(0, 0, 0, NewLife(0)));
      }
    }

    /** The queue at index `k` of the pool goes to the front of it. */
    method MoveToFront(k: nat)
      requires Parts() && k < |pool|
      modifies this`pool
      ensures Parts() && pool == [old(pool)[k]] + RemoveAt(old(pool), k)
    {
      hide Partition, AllBusy, Idle;
      PartitionFront(pool, list, k);
      RemoveAtAll(heads, pool, k);
      pool := [pool[k]] + RemoveAt(pool, k);
    }

    /** The queue at index `k` of the pool, which now holds a packet, serves a new flow. */
    method TakeOut(k: nat, h: QueueHead)
      requires Parts() && k < |pool| && pool[k] < 9 && !Idle(h)
      modifies this`heads, this`pool, this`list
      ensures Parts() && pool == RemoveAt(old(pool), k) && list == [old(pool)[k]] + old(list)
      ensures heads == old(heads)[old(pool)[k] := h] && old(pool)[k] !in old(list)
    {
      hide Partition, Idle, RemoveAt, AllIdle, AllBusy;
      var q := pool[k];
      PartitionTake(pool, list, k);
      RemoveAtAll(heads, pool, k);
      OtherChanges(heads, list, q, h);
      OtherChanges(heads, RemoveAt(pool, k), q, h);
      ConsAll(heads[q := h], q, list);
      heads := heads[q := h];
      list := [q] + list;
      pool := RemoveAt(pool, k);
    }

    /** The queue of the flow at index `i` of the list, now idle, goes back to the pool. */
    method PutBack(i: nat, h: QueueHead)
      requires Parts() && i < |list| && list[i] < 9 && Idle(h)
      modifies this`heads, this`pool, this`list
      ensures Parts() && pool == [old(list)[i]] + old(pool) && list == RemoveAt(old(list), i)
      ensures heads == old(heads)[old(list)[i] := h]
    {
      hide Partition, Idle, RemoveAt, AllIdle, AllBusy;
      var q := list[i];
      PartitionSwap(pool, list);
      PartitionTake(list, pool, i);
      PartitionSwap(RemoveAt(list, i), [q] + pool);
      RemoveAtAll(heads, list, i);
      OtherChanges(heads, pool, q, h);
      OtherChanges(heads, RemoveAt(list, i), q, h);
      ConsAll(heads[q := h], q, pool);
      heads := heads[q := h];
      pool := [q] + pool;
      list := RemoveAt(list, i);
    }

    // -------------------------------------------------------------------------------------

    /** The oldest flow gives its place up when there are too many. */
    method EvictLast(jiffies: int)
      requires Parts() && |list| == MAX_GRO_SKBS + 1
      modifies this`heads, this`pool, this`list
      ensures Parts() && list == old(list)[..MAX_GRO_SKBS] && old(list)[MAX_GRO_SKBS] < 9
      ensures var q := old(list)[MAX_GRO_SKBS];
        && heads == old(heads)[q := heads[q]]
        && heads[q].flow == Step(Mod32, old(heads)[q].flow, Evict)
    {
      hide Partition, Complete;
      var q := list[MAX_GRO_SKBS];
      CompleteAllEmpties(Mod32, heads[q].flow.s, 0);
      PutBack(MAX_GRO_SKBS, heads[q].(flow := Step(Mod32, heads[q].flow, Evict), age := jiffies));
    }

    /** A packet of a flow that is not in the list. */
    method ReceiveFirst(key: int, hash: int, p: Pkt, differs: bool, jiffies: int) returns (ghost q: nat, ghost base: Flow)
      requires Valid()
      modifies this
      ensures Valid() && q < 9 && q in old(pool)
      ensures base == (if old(heads)[q].hash == hash && old(heads)[q].age != 0 then old(heads)[q].flow
                       else NewLife(p.sn))
      ensures heads[q].flow == Step(Mod32, base, Arrive(p, differs)) && heads[q].hash == hash
      ensures list == if Idle(heads[q]) then old(list)
                      else [q] + if |old(list)| < MAX_GRO_SKBS then old(list) else old(list)[..MAX_GRO_SKBS - 1]
      ensures forall i :: 0 <= i < 9 && i != q ==>
                || heads[i] == old(heads)[i]
                || (|old(list)| == MAX_GRO_SKBS && i == old(list)[MAX_GRO_SKBS - 1] && !Idle(heads[q])
                    && heads[i].flow == Step(Mod32, old(heads)[i].flow, Evict))
    {
      hide Partition, Complete, AllIdle, AllBusy;
      var k := GetQueue(hash);
      q := pool[k];
      var h := heads[pool[k]];
      if h.age == 0 {
        h := h.(flow := NewLife(p.sn));
      }
      base := h.flow;
      h := h.(flow := Step(Mod32, h.flow, Arrive(p, differs)), hash := hash, key := key);
      if Idle(h) {
        SetIdle(k, h.(age := jiffies));
        MoveToFront(k);
      } else {
        TakeOut(k, h);
        if count >= MAX_GRO_SKBS {
          EvictLast(jiffies);
        } else {
          count := count + 1;
        }
      }
    }

    method SetBusy(i: nat, h: QueueHead)
      requires Parts() && i < |list| && list[i] < 9 && !Idle(h)
      modifies this`heads
      ensures Parts() && heads == old(heads)[list[i] := h]
    {
      hide Partition, AllBusy, AllIdle;
      PartitionSwap(pool, list);
      PartitionTake(list, pool, i);
      OtherChanges(heads, pool, list[i], h);
      StaysBusy(heads, list, list[i], h);
      heads := heads[list[i] := h];
    }

    /** The flow at index `i` of the list goes through event `e`, and loses its place if nothing
        is left of it. */
    method Feed(i: nat, e: Event, jiffies: int)
      requires Valid() && i < |list| && list[i] < 9
      modifies this
      ensures Valid()
      ensures var q := old(list)[i];
        && q < |heads| && heads == old(heads)[q := heads[q]]
        && heads[q].flow == Step(Mod32, old(heads)[q].flow, e)
        && list == (if Idle(heads[q]) then RemoveAt(old(list), i) else old(list))
        && pool == (if Idle(heads[q]) then [q] else []) + old(pool)
    {
      hide Partition, Step, AllIdle, AllBusy;
      var q := list[i];
      var h := heads[q].(flow := Step(Mod32, heads[q].flow, e));
      if Idle(h) {
        PutBack(i, h.(age := jiffies));
        count := count - 1;
      } else {
        SetBusy(i, h);
      }
      assert [] + old(pool) == old(pool);
    }

    /** dev_gro_receive: the packet becomes an event of the queue of its flow; without one, of
        the pooled queue that served its hash before, or else of one that starts a new life. */
    method DevGroReceive(key: int, hash: int, p: Pkt, differs: bool, jiffies: int)
        returns (found: bool, ghost q: nat, ghost base: Flow, ghost at: nat)
      requires Valid()
      modifies this
      ensures Valid() && q < 9 && at <= |old(list)| && (found <==> at < |old(list)|)
      ensures list == if found then (if Idle(heads[q]) then RemoveAt(old(list), at) else old(list))
                      else if Idle(heads[q]) then old(list)
                      else [q] + if |old(list)| < MAX_GRO_SKBS then old(list) else old(list)[..MAX_GRO_SKBS - 1]
      ensures if found then q == old(list)[at] && old(heads)[q].key == key && base == old(heads)[q].flow
              else q in old(pool) && base == (if old(heads)[q].hash == hash && old(heads)[q].age != 0
                                              then old(heads)[q].flow else NewLife(p.sn))
      ensures !found ==> forall j :: 0 <= j < |old(list)| ==> old(list)[j] < 9 && old(heads)[old(list)[j]].key != key
      ensures heads[q].flow == Step(Mod32, base, Arrive(p, differs))
      ensures forall i :: 0 <= i < 9 && i != q ==>
                || heads[i] == old(heads)[i]
                || (!found && |old(list)| == MAX_GRO_SKBS && i == old(list)[MAX_GRO_SKBS - 1] && !Idle(heads[q])
                    && heads[i].flow == Step(Mod32, old(heads)[i].flow, Evict))
    {
      hide Step, Partition, AllIdle, AllBusy, Idle, RemoveAt;
      var i := FindFlow(key);
      at := i;
      found := i < |list|;
      if found {
        q, base := list[i], heads[list[i]].flow;
        Feed(i, Arrive(p, differs), jiffies);
      } else {
        q, base := ReceiveFirst(key, hash, p, differs, jiffies);
      }
    }

    /** napi_gro_flush: from the oldest flow on, up to one of the `recent` ones. */
    method NapiGroFlush(now: int, jiffies: int, recent: set<nat>) returns (ghost n: nat)
      requires Valid()
      modifies this
      ensures Valid() && n <= |old(list)|
      ensures n > 0 ==> old(list)[n - 1] in recent
      ensures forall j :: n <= j < |old(list)| ==> old(list)[j] !in recent
      ensures Flushed(old(heads), heads, old(list)[..n], old(list)[n..], now, list, old(pool), pool)
    {
      hide Partition, Step, Idle, AllIdle, AllBusy, Flushed, FlushedOne, RemoveAt;
      PartitionSizes(pool, list);
      PartitionDistinct(pool, list);
      ghost var l, was, p0 := list, heads, pool;
      n := |list|;
      assert l[..n] == l && l[n..] == [];
      FlushedStart(heads, list, now, pool);
      var i := |list|;
      while i > 0
        invariant Valid() && i == n <= |l|
        invariant forall j :: n <= j < |l| ==> l[j] !in recent
        invariant Flushed(was, heads, l[..n], l[n..], now, list, p0, pool)
        decreases i
      {
        FlushedLast(was, heads, l[..n], l[n..], now, list, p0, pool);
        if list[i - 1] in recent {
          return;
        }
        ghost var q := l[n - 1];
        assert l[..n] == l[..n - 1] + [q] && l[n - 1..] == [q] + l[n..];
        FlushTurn(i - 1, l, now, jiffies, was, p0);
        i, n := i - 1, n - 1;
      }
    }

    /** One turn of the loop of napi_gro_flush. */
    method FlushTurn(i: nat, ghost l: seq<nat>, now: int, jiffies: int, ghost was: seq<QueueHead>, ghost p0: seq<nat>)
      requires Valid() && i < |l| && forall i, j :: 0 <= i < j < |l| ==> l[i] != l[j]
      requires Flushed(was, heads, l[..i + 1], l[i + 1..], now, list, p0, pool)
      modifies this
      ensures Valid() && Flushed(was, heads, l[..i], l[i..], now, list, p0, pool)
    {
      hide Partition, Step, Idle, AllIdle, AllBusy, Flushed, FlushedOne, RemoveAt;
      ghost var q := l[i];
      FlushedLast(was, heads, l[..i + 1], l[i + 1..], now, list, p0, pool);
      assert l[..i + 1] == l[..i] + [q] && l[i..] == [q] + l[i + 1..] && q !in l[i + 1..];
      ghost var heads0, list0, pool0 := heads, list, pool;
      Feed(i, Timer(now, FLUSH_TIMEOUT), jiffies);
      FedIsFlushed(heads0[q], heads[q], now);
      FlushedNext(was, heads0, l[..i], q, l[i + 1..], now, list0, p0, pool0, heads[q]);
    }
  }

  lemma FedIsFlushed(was: QueueHead, h: QueueHead, now: int)
    requires h.flow == Step(Mod32, was.flow, Timer(now, FLUSH_TIMEOUT))
    ensures FlushedOne(was, h, now)
  {
  }
}
