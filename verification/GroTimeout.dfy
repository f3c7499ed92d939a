/**
  Which packets leave a queue by a timed flush: the shortest run from the front behind which all
  packets are young and the first one starts beyond everything that has been completed.
 */
module GroTimeout {
  import opened Serial
  import opened SkbData
  import opened SkbGro
  import opened GroQueue

  /** Where the stream has got to when `q` has been completed from `next` on. */
  ghost function Reached(next: int, q: seq<Pkt>): int
    decreases |q|
  {
    if q == [] then next else Reached(if next < q[0].sn + q[0].len then q[0].sn + q[0].len else next, q[1..])
  }

  lemma {:induction false} ReachedIsMax(next: int, q: seq<Pkt>)
    ensures next <= Reached(next, q) && forall i :: 0 <= i < |q| ==> q[i].sn + q[i].len <= Reached(next, q)
    ensures Reached(next, q) == next || exists i :: 0 <= i < |q| && Reached(next, q) == q[i].sn + q[i].len
    decreases |q|
  {
    if q == [] {
    } else {
      var rest, n := q[1..], if next < q[0].sn + q[0].len then q[0].sn + q[0].len else next;
      ReachedIsMax(n, rest);
      forall i | 0 <= i < |q|
        ensures q[i].sn + q[i].len <= Reached(next, q)
      {
        if i > 0 { assert q[i] == rest[i - 1]; }
      }
      if Reached(next, q) != n {
        var i :| 0 <= i < |rest| && Reached(n, rest) == rest[i].sn + rest[i].len;
        assert q[i + 1] == rest[i];
      }
    }
  }

  /** The packets from index `k` on may stay. */
  ghost predicate MayStay(s: Queue, now: int, timeout: nat, k: nat)
    requires k <= |s.q|
  {
    k < |s.q| ==>
      && timeout > 0 && (forall i :: k <= i < |s.q| ==> Young(s.q[i], now, timeout))
      && Reached(s.next, s.q[..k]) < s.q[k].sn
  }

  /** The first `k` packets have been completed. */
  ghost function Popped(s: Queue, k: nat): Queue
    requires k <= |s.q|
  {
    Queue(Reached(s.next, s.q[..k]), s.q[k..], s.done + s.q[..k])
  }

  lemma {:induction false} PopManyIs(s: Queue, k: nat)
    requires k <= |s.q|
    ensures PopMany(Exact, s, k) == Popped(s, k)
    decreases k
  {
    if k == 0 {
      assert s.done + [] == s.done;
    } else {
      PopManyIs(PopHead(Exact, s), k - 1);
      PopOne(s, k);
    }
  }

  lemma PopOne(s: Queue, k: nat)
    requires 0 < k <= |s.q|
    ensures Popped(PopHead(Exact, s), k - 1) == Popped(s, k)
    ensures Reached(PopHead(Exact, s).next, PopHead(Exact, s).q[..k - 1]) == Reached(s.next, s.q[..k])
  {
    assert s.q[..k][1..] == s.q[1..][..k - 1];
    assert s.done + [s.q[0]] + s.q[1..][..k - 1] == s.done + s.q[..k];
  }

  lemma {:induction false} PopInSequenceIs(s: Queue) returns (k: nat)
    ensures k <= |s.q| && PopInSequence(Exact, s) == Popped(s, k)
    ensures k < |s.q| ==> Reached(s.next, s.q[..k]) < s.q[k].sn
    ensures forall j :: 0 <= j < k ==> s.q[j].sn <= Reached(s.next, s.q[..j])
    decreases |s.q|
  {
    hide Reached, Popped;
    ReachedNone(s);
    if s.q == [] || s.next < s.q[0].sn {
      k := 0;
    } else {
      var t := PopHead(Exact, s);
      var n := PopInSequenceIs(t);
      k := n + 1;
      PopOne(s, k);
      forall j | 0 <= j < k
        ensures s.q[j].sn <= Reached(s.next, s.q[..j])
      {
        if j > 0 { PopOne(s, j); }
      }
    }
  }

  lemma ReachedNone(s: Queue)
    ensures Reached(s.next, s.q[..0]) == s.next && Popped(s, 0) == s
  {
    assert s.done + [] == s.done;
  }

  lemma {:induction false} ReachedConcat(next: int, a: seq<Pkt>, b: seq<Pkt>)
    ensures Reached(next, a + b) == Reached(Reached(next, a), b)
    decreases |a|
  {
    if a == [] {
      assert a + b == b;
    } else {
      assert (a + b)[1..] == a[1..] + b;
      ReachedConcat(if next < a[0].sn + a[0].len then a[0].sn + a[0].len else next, a[1..], b);
    }
  }

  /** In every state, a timed flush completes the shortest run of packets behind which the others
      may stay; each packet that leaves does so because it or one behind it is too old, or
      because it starts at or before what has been completed. */
  lemma CompletesLeast(s: Queue, now: int, timeout: nat) returns (k: nat)
    ensures k <= |s.q|
    ensures Complete(Exact, s, now, timeout) == Queue(Reached(s.next, s.q[..k]), s.q[k..], s.done + s.q[..k])
    ensures MayStay(s, now, timeout, k) && forall j :: 0 <= j < k ==> !MayStay(s, now, timeout, j)
    ensures timeout > 0 ==> forall i :: 0 <= i < k ==> TooOld(s, now, timeout, i, k) || s.q[i].sn <= Reached(s.next, s.q[..i])
  {
    hide Young, PopMany, PopInSequence, MayStay, Reached, Popped;
    var n := Expired(s.q, now, timeout);
    PopManyIs(s, n);
    PoppedTwice(s, n, 0);
    var m := PopInSequenceIs(Popped(s, n));
    k := n + m;
    PoppedTwice(s, n, m);
    PoppedIs(s, k);
    InSequence(s, n, m);
    Least(s, now, timeout, n, k);
  }

  lemma PoppedIs(s: Queue, k: nat)
    requires k <= |s.q|
    ensures Popped(s, k) == Queue(Reached(s.next, s.q[..k]), s.q[k..], s.done + s.q[..k])
  {
  }

  /** What the second loop finds, in terms of the queue before the first one. */
  lemma InSequence(s: Queue, n: nat, m: nat)
    requires n <= |s.q| && var t := Popped(s, n);
      && m <= |t.q| && (m < |t.q| ==> Reached(t.next, t.q[..m]) < t.q[m].sn)
      && forall j :: 0 <= j < m ==> t.q[j].sn <= Reached(t.next, t.q[..j])
    ensures n + m < |s.q| ==> Reached(s.next, s.q[..n + m]) < s.q[n + m].sn
    ensures forall j :: n <= j < n + m ==> s.q[j].sn <= Reached(s.next, s.q[..j])
  {
    hide Reached;
    forall j | n <= j < n + m
      ensures s.q[j].sn <= Reached(s.next, s.q[..j])
    {
      PoppedTwice(s, n, j - n);
      assert Popped(s, n).q[j - n] == s.q[j];
    }
    PoppedTwice(s, n, m);
  }

  ghost predicate TooOld(s: Queue, now: int, timeout: nat, i: nat, k: nat)
    requires k <= |s.q|
  {
    exists j :: i <= j < k && !Young(s.q[j], now, timeout)
  }

  /** What is known of the two loops. */
  lemma Least(s: Queue, now: int, timeout: nat, n: nat, k: nat)
    requires n <= k <= |s.q| && (forall i :: n <= i < |s.q| ==> Young(s.q[i], now, timeout))
    requires if timeout == 0 then n == |s.q| else n > 0 ==> !Young(s.q[n - 1], now, timeout)
    requires k < |s.q| ==> Reached(s.next, s.q[..k]) < s.q[k].sn
    requires forall j :: n <= j < k ==> s.q[j].sn <= Reached(s.next, s.q[..j])
    ensures MayStay(s, now, timeout, k) && forall j :: 0 <= j < k ==> !MayStay(s, now, timeout, j)
    ensures timeout > 0 ==> forall i :: 0 <= i < k ==> TooOld(s, now, timeout, i, k) || s.q[i].sn <= Reached(s.next, s.q[..i])
  {
    hide Young, Reached;
  }

  lemma PoppedTwice(s: Queue, n: nat, m: nat)
    requires n <= |s.q| && m <= |s.q[n..]|
    ensures |Popped(s, n).q| == |s.q| - n && Popped(Popped(s, n), m) == Popped(s, n + m)
  {
    assert s.q[..n + m] == s.q[..n] + s.q[n..][..m];
    assert s.q[n..][m..] == s.q[n + m..];
    ReachedConcat(s.next, s.q[..n], s.q[n..][..m]);
    assert s.done + s.q[..n] + s.q[n..][..m] == s.done + s.q[..n + m];
  }

  /** A timed flush leaves a queue as it is, if and only if all its packets are young and the
      first one starts beyond seq_next. */
  lemma UnchangedIff(s: Queue, now: int, timeout: nat)
    requires timeout > 0 && s.q != []
    ensures Complete(Exact, s, now, timeout) == s
      <==> (forall i :: 0 <= i < |s.q| ==> Young(s.q[i], now, timeout)) && s.next < s.q[0].sn
  {
    hide Young, Complete;
    var k := CompletesLeast(s, now, timeout);
    assert s.done + [] == s.done && s.q[..0] == [];
    if k > 0 {
      assert |s.q[k..]| < |s.q|;
      assert !MayStay(s, now, timeout, 0);
    }
  }

  /** Young is younger than the timeout, while the clock does not go round once. */
  lemma YoungMeans(p: Pkt, now: int, timeout: nat)
    requires p.ts <= now < p.ts + 0x1_0000_0000_0000_0000
    ensures Young(p, now, timeout) <==> now < p.ts + timeout
  {
  }
}
