/**
  The page fragment allocator of skbuff.c (__netdev_alloc_frag) as a state machine over its
  atomic operations.  Fragments are carved off a page one behind the other; instead of taking a
  reference for each, the allocator owns a large number of references to its page (the bias)
  and gives one away with every fragment.  Users take and drop references on other CPUs at any
  time, between any two operations of the allocator.
 */
module PageFrag {
  import opened Wrappers

  const PAGE_SIZE: int := 4096
  const MAX_BIAS: int := 32768

  /** A reference to a fragment held by a user; copies of a reference have its `id`. */
  datatype Ref = Ref(id: nat, page: nat, off: nat, size: nat)

  /** A (compound) page with its reference count. */
  datatype Page = Page(count: int, size: nat, freed: bool)

  /** Where the allocator is in serving a request for so many bytes. */
  datatype Pc =
    | Idle
    | Refill(want: nat)
    | Check(want: nat)
    | Drop(want: nat)
    | Revive(want: nat)
    | Rewind(want: nat)
    | Carve(want: nat)

  /** `page`, `offset`, `size` and `bias` are the per-CPU cache. */
  datatype State = State(pages: seq<Page>, page: Option<nat>, offset: nat, size: nat, bias: int,
                         pc: Pc, live: seq<Ref>, next: nat)

  datatype Event =
    | Request(want: nat)
    | Allocate(order: Option<nat>)
    | Go
    | Get(i: nat)
    | Put(i: nat)

  /** PAGE_SIZE << order. */
  function Bytes(order: nat): nat {
    if order == 0 then 4096 else if order == 1 then 8192 else if order == 2 then 16384 else 32768
  }

  predicate HasPage(s: State) {
    s.page.Some? && s.page.value < |s.pages|
  }

  function SetCount(s: State, count: int): seq<Page>
    requires HasPage(s)
  {
    s.pages[s.page.value := s.pages[s.page.value].(count := count)]
  }

  function Count(s: State): int
    requires HasPage(s)
  {
    s.pages[s.page.value].count
  }

  function Requested(s: State, want: nat): State {
    s.(pc := if s.page.None? then Refill(want) else if s.offset + want > s.size then Check(want) else Carve(want))
  }

  /** A new page of the given order, or no memory at all. */
  function Allocated(s: State, order: Option<nat>): State
    requires s.pc.Refill?
  {
    match order
    case None => s.(page := None, pc := Idle)
    case Some(o) =>
      s.(pages := s.pages + [Page(1 + (MAX_BIAS - 1), Bytes(o), false)], page := Some(|s.pages|),
         offset := 0, size := Bytes(o), bias := MAX_BIAS,
         pc := if s.pc.want > Bytes(o) then Check(s.pc.want) else Carve(s.pc.want))
  }

  /** The next operation of the allocator on its page. */
  function Going(s: State): State
    requires HasPage(s)
  {
    match s.pc
    case Check(want) => s.(pc := if Count(s) != s.bias then Drop(want) else Rewind(want))
    case Drop(want) =>
      s.(pages := SetCount(s, Count(s) - s.bias), pc := if Count(s) - s.bias == 0 then Revive(want) else Refill(want))
    case Revive(want) => s.(pages := SetCount(s, MAX_BIAS), bias := MAX_BIAS, offset := 0, pc := Carve(want))
    case Rewind(want) =>
      s.(pages := SetCount(s, Count(s) + (MAX_BIAS - s.bias)), bias := MAX_BIAS, offset := 0, pc := Carve(want))
    case Carve(want) =>
      s.(live := s.live + [Ref(s.next, s.page.value, s.offset, want)], next := s.next + 1,
         offset := s.offset + want, bias := s.bias - 1, pc := Idle)
    case _ => s
  }

  /** put_page: the last reference frees the page. */
  function Putting(s: State, i: nat): State
    requires i < |s.live| && s.live[i].page < |s.pages|
  {
    var p := s.live[i].page;
    var c := s.pages[p].count - 1;
    s.(pages := s.pages[p := s.pages[p].(count := c, freed := c == 0)], live := s.live[..i] + s.live[i + 1..])
  }

  function Getting(s: State, i: nat): State
    requires i < |s.live| && s.live[i].page < |s.pages|
  {
    var p := s.live[i].page;
    s.(pages := s.pages[p := s.pages[p].(count := s.pages[p].count + 1)], live := s.live + [s.live[i]])
  }

  function Step(s: State, e: Event): State {
    match e
    case Request(want) => if s.pc.Idle? then Requested(s, want) else s
    case Allocate(order) => if s.pc.Refill? then Allocated(s, order) else s
    case Go => if HasPage(s) then Going(s) else s
    case Get(i) => if i < |s.live| && s.live[i].page < |s.pages| then Getting(s, i) else s
    case Put(i) => if i < |s.live| && s.live[i].page < |s.pages| then Putting(s, i) else s
  }

  function Run(s: State, es: seq<Event>): State
    decreases |es|
  {
    if es == [] then s else Run(Step(s, es[0]), es[1..])
  }

  // ---------------------------------------------------------------------------------------

  /** The references users hold to page `p`. */
  function Refs(live: seq<Ref>, p: nat): nat {
    if live == [] then 0 else (if live[0].page == p then 1 else 0) + Refs(live[1..], p)
  }

  /** The allocator owns its references to the page, except after it has dropped them. */
  predicate Owning(s: State) {
    HasPage(s) && !s.pc.Refill? && !s.pc.Revive?
  }

  function Owned(s: State, p: nat): int {
    if Owning(s) && s.page.value == p then s.bias else 0
  }

  ghost predicate CountsOk(s: State) {
    forall p :: 0 <= p < |s.pages| ==> s.pages[p].count == Refs(s.live, p) + Owned(s, p)
  }

  predicate RefOk(pages: seq<Page>, next: nat, r: Ref) {
    r.page < |pages| && !pages[r.page].freed && r.size > 0 && r.off + r.size <= pages[r.page].size && r.id < next
  }

  /** Two references are copies of each other, or their fragments do not overlap. */
  predicate Apart(a: Ref, b: Ref) {
    if a.id == b.id then a == b
    else a.page != b.page || a.off + a.size <= b.off || b.off + b.size <= a.off
  }

  ghost predicate LiveOk(s: State) {
    && (forall i :: 0 <= i < |s.live| ==> RefOk(s.pages, s.next, s.live[i]))
    && (forall i, j :: 0 <= i < |s.live| && 0 <= j < |s.live| ==> Apart(s.live[i], s.live[j]))
  }

  /** All live fragments of the current page lie before the offset. */
  ghost predicate Below(live: seq<Ref>, p: nat, offset: nat) {
    forall i :: 0 <= i < |live| && live[i].page == p ==> live[i].off + live[i].size <= offset
  }

  ghost predicate CacheOk(s: State) {
    && (s.page.Some? ==> HasPage(s))
    && (Owning(s) ==>
          var p := s.pages[s.page.value];
          && !p.freed && s.size == p.size && PAGE_SIZE <= s.size <= MAX_BIAS && s.offset <= s.size
          && 2 * (MAX_BIAS - s.bias) <= s.offset && s.bias <= MAX_BIAS && Below(s.live, s.page.value, s.offset))
  }

  ghost predicate PcOk(s: State) {
    match s.pc
    case Idle => true
    case Refill(want) => 2 <= want <= PAGE_SIZE
    case Check(want) => 2 <= want <= PAGE_SIZE && HasPage(s)
    case Drop(want) => 2 <= want <= PAGE_SIZE && HasPage(s)
    case Revive(want) => 2 <= want <= PAGE_SIZE && HasPage(s) && Count(s) == 0 && !s.pages[s.page.value].freed
                         && s.size == s.pages[s.page.value].size && PAGE_SIZE <= s.size <= MAX_BIAS
    case Rewind(want) => 2 <= want <= PAGE_SIZE && HasPage(s) && Count(s) == s.bias
    case Carve(want) => 2 <= want <= PAGE_SIZE && HasPage(s) && s.offset + want <= s.size
  }

  ghost predicate Inv(s: State) {
    CountsOk(s) && LiveOk(s) && CacheOk(s) && PcOk(s)
  }

  lemma {:induction false} RefsConcat(a: seq<Ref>, b: seq<Ref>, p: nat)
    ensures Refs(a + b, p) == Refs(a, p) + Refs(b, p)
  {
    if a == [] {
      assert a + b == b;
    } else {
      assert (a + b)[1..] == a[1..] + b;
      RefsConcat(a[1..], b, p);
    }
  }

  lemma RefsOne(r: Ref, p: nat)
    ensures Refs([r], p) == if r.page == p then 1 else 0
  {
  }

  lemma {:induction false} RefsNone(live: seq<Ref>, p: nat)
    ensures Refs(live, p) == 0 <==> forall i :: 0 <= i < |live| ==> live[i].page != p
  {
    if live == [] {
    } else {
      RefsNone(live[1..], p);
      assert forall i :: 0 < i < |live| ==> live[i] == live[1..][i - 1];
    }
  }

  lemma RefsRemove(live: seq<Ref>, i: nat, p: nat)
    requires i < |live|
    ensures Refs(live[..i] + live[i + 1..], p) == Refs(live, p) - if live[i].page == p then 1 else 0
  {
    assert live == live[..i] + [live[i]] + live[i + 1..];
    RefsConcat(live[..i] + [live[i]], live[i + 1..], p);
    RefsConcat(live[..i], [live[i]], p);
    RefsConcat(live[..i], live[i + 1..], p);
    RefsOne(live[i], p);
  }

  // ---------------------------------------------------------------------------------------
  // Users.

  lemma GetKeeps(s: State, i: nat)
    requires Inv(s)
    ensures Inv(Step(s, Get(i)))
  {
    if i < |s.live| {
      hide Apart, RefOk;
      var t, r := Step(s, Get(i)), s.live[i];
      GetCounts(s, i);
      assert RefOk(s.pages, s.next, r);
      SamePages(s, t);
      assert forall a :: 0 <= a < |t.live| ==> t.live[a] == if a < |s.live| then s.live[a] else r;
      GetCache(s, i);
    }
  }

  lemma SamePages(s: State, t: State)
    requires |t.pages| == |s.pages| && t.next == s.next
    requires forall p :: 0 <= p < |s.pages| ==> t.pages[p].size == s.pages[p].size && t.pages[p].freed == s.pages[p].freed
    ensures forall r :: RefOk(s.pages, s.next, r) ==> RefOk(t.pages, t.next, r)
  {
  }

  lemma GetCounts(s: State, i: nat)
    requires CountsOk(s) && i < |s.live| && s.live[i].page < |s.pages|
    ensures CountsOk(Getting(s, i))
  {
    var t := Getting(s, i);
    forall p | 0 <= p < |t.pages|
      ensures t.pages[p].count == Refs(t.live, p) + Owned(t, p)
    {
      RefsConcat(s.live, [s.live[i]], p);
      RefsOne(s.live[i], p);
    }
  }

  lemma GetCache(s: State, i: nat)
    requires Inv(s) && i < |s.live|
    ensures CacheOk(Step(s, Get(i))) && PcOk(Step(s, Get(i)))
  {
    hide Apart, Refs;
    CountIsRefs(s, i);
  }

  /** The page of a live reference is counted at least once more than the allocator owns. */
  lemma CountIsRefs(s: State, i: nat)
    requires CountsOk(s) && i < |s.live| && s.live[i].page < |s.pages|
    ensures s.pages[s.live[i].page].count > Owned(s, s.live[i].page)
  {
    RefsNone(s.live, s.live[i].page);
  }

  lemma PutKeeps(s: State, i: nat)
    requires Inv(s)
    ensures Inv(Step(s, Put(i)))
  {
    if i < |s.live| {
      PutCounts(s, i);
      PutLive(s, i);
      PutCache(s, i);
    }
  }

  lemma PutCounts(s: State, i: nat)
    requires CountsOk(s) && i < |s.live| && s.live[i].page < |s.pages|
    ensures CountsOk(Putting(s, i))
  {
    var t := Putting(s, i);
    forall p | 0 <= p < |t.pages|
      ensures t.pages[p].count == Refs(t.live, p) + Owned(t, p)
    {
      RefsRemove(s.live, i, p);
    }
  }

  lemma RemovedIndex(live: seq<Ref>, i: nat)
    requires i < |live|
    ensures var r := live[..i] + live[i + 1..];
      forall a :: 0 <= a < |r| ==> r[a] == live[if a < i then a else a + 1]
  {
  }

  lemma PutLive(s: State, i: nat)
    requires CountsOk(s) && LiveOk(s) && i < |s.live| && CacheOk(s)
    ensures LiveOk(Step(s, Put(i)))
  {
    hide Apart;
    var t, p := Step(s, Put(i)), s.live[i].page;
    RemovedIndex(s.live, i);
    RefsRemove(s.live, i, p);
    RefsNone(t.live, p);
    OwnedPositive(s, p);
  }

  lemma OwnedPositive(s: State, p: nat)
    requires CacheOk(s)
    ensures Owned(s, p) >= 0 && (Owning(s) && s.page.value == p ==> Owned(s, p) > 0)
  {
  }

  lemma PutCache(s: State, i: nat)
    requires Inv(s) && i < |s.live|
    ensures CacheOk(Step(s, Put(i))) && PcOk(Step(s, Put(i)))
  {
    hide Apart, Refs;
    RemovedIndex(s.live, i);
    CountIsRefs(s, i);
    OwnedPositive(s, s.live[i].page);
  }

  // ---------------------------------------------------------------------------------------
  // The allocator.

  ghost predicate Proper(e: Event) {
    e.Request? ==> 2 <= e.want <= PAGE_SIZE
  }

  lemma RequestKeeps(s: State, want: nat)
    requires Inv(s) && 2 <= want <= PAGE_SIZE
    ensures Inv(Step(s, Request(want)))
  {
    hide Apart, Refs, RefOk;
  }

  lemma AllocateKeeps(s: State, order: Option<nat>)
    requires Inv(s)
    ensures Inv(Step(s, Allocate(order)))
  {
    hide Apart, Refs;
    if s.pc.Refill? {
      var t := Step(s, Allocate(order));
      RefsNone(s.live, |s.pages|);
      forall p | 0 <= p < |t.pages|
        ensures t.pages[p].count == Refs(t.live, p) + Owned(t, p)
      {
      }
    }
  }

  lemma GoKeeps(s: State)
    requires Inv(s)
    ensures Inv(Step(s, Go))
  {
    hide Apart, Refs;
    match s.pc
    case Check(_) =>
    case Drop(want) => DropKeeps(s);
    case Revive(want) => ResetKeeps(s);
    case Rewind(want) => ResetKeeps(s);
    case Carve(want) => CarveKeeps(s);
    case _ =>
  }

  lemma DropKeeps(s: State)
    requires Inv(s) && s.pc.Drop?
    ensures Inv(Step(s, Go))
  {
    hide Apart, Refs;
    var t := Step(s, Go);
    SamePages(s, t);
    assert CountsOk(t);
  }

  /** Before the offset goes back to 0, no fragment of the page is live. */
  lemma UnusedBeforeReset(s: State)
    requires Inv(s) && (s.pc.Revive? || s.pc.Rewind?)
    ensures HasPage(s) && Refs(s.live, s.page.value) == 0
    ensures forall i :: 0 <= i < |s.live| ==> s.live[i].page != s.page.value
  {
    hide Apart;
    RefsNone(s.live, s.page.value);
  }

  lemma ResetKeeps(s: State)
    requires Inv(s) && (s.pc.Revive? || s.pc.Rewind?)
    ensures Inv(Step(s, Go)) && Step(s, Go).offset == 0 && Step(s, Go).page == s.page
  {
    hide Apart, Refs;
    var t := Step(s, Go);
    UnusedBeforeReset(s);
    SamePages(s, t);
    assert CountsOk(t);
  }

  lemma CarveKeeps(s: State)
    requires Inv(s) && s.pc.Carve?
    ensures Inv(Step(s, Go))
  {
    var t, p := Step(s, Go), s.page.value;
    var r := t.live[|s.live|];
    forall q | 0 <= q < |t.pages|
      ensures t.pages[q].count == Refs(t.live, q) + Owned(t, q)
    {
      RefsConcat(s.live, [r], q);
      RefsOne(r, q);
    }
    CarveLive(s, r);
    hide Apart, Refs;
    assert forall a :: 0 <= a < |t.live| ==> t.live[a] == if a < |s.live| then s.live[a] else r;
  }

  lemma CarveLive(s: State, r: Ref)
    requires Inv(s) && s.pc.Carve? && r == Ref(s.next, s.page.value, s.offset, s.pc.want)
    ensures LiveOk(Step(s, Go))
  {
    hide Refs;
    var t := Step(s, Go);
    assert RefOk(t.pages, t.next, r);
    forall i | 0 <= i < |s.live|
      ensures Apart(s.live[i], r) && Apart(r, s.live[i]) && RefOk(t.pages, t.next, s.live[i])
    {
      assert RefOk(s.pages, s.next, s.live[i]);
    }
    assert forall a :: 0 <= a < |t.live| ==> t.live[a] == if a < |s.live| then s.live[a] else r;
  }

  // ---------------------------------------------------------------------------------------
  // Any interleaving.

  lemma StepKeeps(s: State, e: Event)
    requires Inv(s) && Proper(e)
    ensures Inv(Step(s, e))
  {
    hide Inv, Step;
    match e
    case Request(want) => RequestKeeps(s, want);
    case Allocate(order) => AllocateKeeps(s, order);
    case Go => GoKeeps(s);
    case Get(i) => GetKeeps(s, i);
    case Put(i) => PutKeeps(s, i);
  }

  const START := State([], None, 0, 0, 0, Idle, [], 0)

  lemma {:induction false} RunKeeps(s: State, es: seq<Event>)
    requires Inv(s) && forall i :: 0 <= i < |es| ==> Proper(es[i])
    ensures Inv(Run(s, es))
    decreases |es|
  {
    hide Inv, Step;
    if es == [] {
    } else {
      StepKeeps(s, es[0]);
      RunKeeps(Step(s, es[0]), es[1..]);
    }
  }

  /** In every interleaving, for requests of 2 bytes to a page: the references that users hold to
      a page are its count less what the allocator owns, no page with a live fragment has been
      freed, and different fragments do not overlap. */
  lemma FragmentsAreSafe(es: seq<Event>, i: nat, j: nat)
    requires forall k :: 0 <= k < |es| ==> Proper(es[k])
    requires i < |Run(START, es).live| && j < |Run(START, es).live|
    ensures var s := Run(START, es);
      var a, b := s.live[i], s.live[j];
      && a.page < |s.pages| && s.pages[a.page].count == Refs(s.live, a.page) + Owned(s, a.page)
      && !s.pages[a.page].freed && a.off + a.size <= s.pages[a.page].size
      && (a.id != b.id && a.page == b.page ==> a.off + a.size <= b.off || b.off + b.size <= a.off)
  {
    hide Run, Refs, Owned, CacheOk, PcOk;
    StartInv();
    RunKeeps(START, es);
    assert RefOk(Run(START, es).pages, Run(START, es).next, Run(START, es).live[i]);
    assert Apart(Run(START, es).live[i], Run(START, es).live[j]);
  }

  lemma StartInv()
    ensures Inv(START)
  {
  }

  // ---------------------------------------------------------------------------------------
  // Nothing leaks, and no page is given up while it can be used again.

  /** A page without references is freed, or about to be used again. */
  ghost predicate NoLeak(s: State) {
    forall p :: 0 <= p < |s.pages| && s.pages[p].count == 0 ==> s.pages[p].freed || (s.page == Some(p) && s.pc.Revive?)
  }

  lemma CountsPositive(s: State, p: nat)
    requires Inv(s) && p < |s.pages|
    ensures s.pages[p].count >= Refs(s.live, p) && (Owning(s) && s.page.value == p ==> s.pages[p].count > 0)
  {
  }

  lemma {:induction false} RefsLive(live: seq<Ref>, i: nat)
    requires i < |live|
    ensures Refs(live, live[i].page) > 0
  {
    if i == 0 {
    } else {
      RefsLive(live[1..], i - 1);
    }
  }

  lemma StepLeaksNothing(s: State, e: Event)
    requires Inv(s) && NoLeak(s)
    ensures NoLeak(Step(s, e))
  {
    hide Refs, CountsOk, LiveOk, CacheOk;
    forall p | 0 <= p < |s.pages|
      ensures s.pages[p].count >= Refs(s.live, p) && (Owning(s) && s.page.value == p ==> s.pages[p].count > 0)
    {
      CountsPositive(s, p);
    }
    if (e.Get? || e.Put?) && e.i < |s.live| {
      RefsLive(s.live, e.i);
    }
  }

  lemma {:induction false} RunLeaksNothing(s: State, es: seq<Event>)
    requires Inv(s) && NoLeak(s) && forall i :: 0 <= i < |es| ==> Proper(es[i])
    ensures NoLeak(Run(s, es))
    decreases |es|
  {
    hide Inv, Step, NoLeak;
    if es == [] {
    } else {
      StepKeeps(s, es[0]);
      StepLeaksNothing(s, es[0]);
      RunLeaksNothing(Step(s, es[0]), es[1..]);
    }
  }

  /** In every interleaving, a page is freed if and only if neither a user nor the allocator refers
      to it. */
  lemma FreedIff(es: seq<Event>, p: nat)
    requires forall k :: 0 <= k < |es| ==> Proper(es[k])
    requires p < |Run(START, es).pages|
    ensures var s := Run(START, es);
      s.pages[p].freed <==> Refs(s.live, p) == 0 && !(s.page == Some(p) && !s.pc.Refill?)
  {
    hide Run, Refs;
    StartInv();
    RunKeeps(START, es);
    RunLeaksNothing(START, es);
    var s := Run(START, es);
    if Refs(s.live, p) > 0 {
      var i := SomeRef(s.live, p);
      assert RefOk(s.pages, s.next, s.live[i]);
    }
  }

  lemma {:induction false} SomeRef(live: seq<Ref>, p: nat) returns (i: nat)
    requires Refs(live, p) > 0
    ensures i < |live| && live[i].page == p
  {
    if live[0].page == p {
      i := 0;
    } else {
      i := SomeRef(live[1..], p);
      i := i + 1;
    }
  }

  /** When the page is used up: it is used again from its start if and only if no user refers to it
      at the first look at its count, or at the second, which gives it up. */
  lemma ReusedIff(s: State)
    requires Inv(s) && (s.pc.Check? || s.pc.Drop?)
    ensures HasPage(s)
    ensures var unused := Refs(s.live, s.page.value) == 0;
      Step(s, Go).pc == if s.pc.Check? then (if unused then Rewind(s.pc.want) else Drop(s.pc.want))
                        else if unused then Revive(s.pc.want) else Refill(s.pc.want)
    ensures var t := Step(s, Go);
      t.pc.Rewind? || t.pc.Revive? ==> Step(t, Go) == Step(t, Go).(page := s.page, offset := 0, pc := Carve(s.pc.want))
  {
    hide Refs;
  }

  // ---------------------------------------------------------------------------------------
  // The code, without interference by users.

  lemma {:induction false} RunSnoc(s: State, es: seq<Event>, e: Event)
    ensures Run(s, es + [e]) == Step(Run(s, es), e)
    decreases |es|
  {
    hide Step;
    if es == [] {
      assert [] + [e] == [e] && [e][1..] == [];
    } else {
      assert (es + [e])[1..] == es[1..] + [e];
      RunSnoc(Step(s, es[0]), es[1..], e);
    }
  }

  class AllocCache {
    var pages: seq<Page>
    var page: Option<nat>
    var offset: nat
    var size: nat
    var bias: int
    var live: seq<Ref>
    var next: nat
    ghost var pc: Pc

    ghost function Abs(): State
      reads this
    {
      State(pages, page, offset, size, bias, pc, live, next)
    }

    constructor ()
      ensures Abs() == START
    {
      pages, page, offset, size, bias, live, next, pc := [], None, 0, 0, 0, [], 0, Idle;
    }

    method AtomicAdd(n: int) returns (count: int)
      requires page.Some? && page.value < |pages|
      modifies this`pages
      ensures count == old(pages)[page.value].count + n
      ensures pages == old(pages)[page.value := old(pages)[page.value].(count := count)]
    {
      count := pages[page.value].count + n;
      pages := pages[page.value := pages[page.value].(count := count)];
    }

    /** The refill loop: the largest page that can be had. */
    method TakePage(available: seq<bool>, ghost s: State, ghost es: seq<Event>) returns (ok: bool, ghost es': seq<Event>)
      requires |available| == 4 && pc.Refill? && Abs() == Run(s, es)
      modifies this
      ensures Abs() == Run(s, es') && live == old(live)
      ensures ok ==> size == if available[3] then 8 * PAGE_SIZE else if available[2] then 4 * PAGE_SIZE
                             else if available[1] then 2 * PAGE_SIZE else PAGE_SIZE
      ensures ok ==> page == Some(|old(pages)|) && offset == 0 && |pages| == |old(pages)| + 1 && next == old(next)
      ensures if ok then true in available && size >= PAGE_SIZE && HasPage(Abs())
                         && pc == (if old(pc).want > size then Check(old(pc).want) else Carve(old(pc).want))
              else true !in available && pc == Idle && page == None
    {
      ghost var was := Abs();
      var order := 3;
      while order >= 0
        invariant -1 <= order <= 3 && Abs() == was
        invariant forall o :: order < o < 4 ==> !available[o]
      {
        if available[order] {
          break;
        }
        order := order - 1;
      }
      if order < 0 {
        page := None;
        pc := Idle;
        RunSnoc(s, es, Allocate(None));
        es' := es + [Allocate(None)];
        return false, es';
      }
      page := Some(|pages|);
      pages := pages + [Page(1, Bytes(order), false)];
      size := Bytes(order);
      var c := AtomicAdd(MAX_BIAS - 1);
      bias := MAX_BIAS;
      offset := 0;
      pc := if pc.want > size then Check(pc.want) else Carve(pc.want);
      RunSnoc(s, es, Allocate(Some(order)));
      es' := es + [Allocate(Some(order))];
      ok := true;
    }

    /** One operation, of the allocator or of a user. */
    ghost method Record(was: State, s: State, es: seq<Event>, e: Event) returns (es': seq<Event>)
      requires was == Run(s, es) && Abs() == Step(was, e)
      ensures es' == es + [e] && Abs() == Run(s, es')
    {
      RunSnoc(s, es, e);
      es' := es + [e];
    }

    /** put_page by a user. */
    method PutPage(i: nat)
      requires i < |live| && live[i].page < |pages|
      modifies this`pages, this`live
      ensures Abs() == Step(old(Abs()), Put(i)) && |pages| == |old(pages)|
    {
      var p := live[i].page;
      pages := pages[p := pages[p].(count := pages[p].count - 1)];
      pages := pages[p := pages[p].(freed := pages[p].count == 0)];
      live := live[..i] + live[i + 1..];
    }

    /** Users on other CPUs drop the references with these indices, one after the other. */
    method UsersDrop(drops: seq<nat>, ghost s: State, ghost es: seq<Event>) returns (ghost es': seq<Event>)
      requires Abs() == Run(s, es)
      modifies this`pages, this`live
      ensures Abs() == Run(s, es') && |pages| == |old(pages)|
    {
      hide Run, Step;
      es' := es;
      var k := 0;
      while k < |drops|
        invariant k <= |drops| && Abs() == Run(s, es') && |pages| == |old(pages)|
      {
        if drops[k] < |live| && live[drops[k]].page < |pages| {
          ghost var was := Abs();
          PutPage(drops[k]);
          es' := Record(was, s, es', Put(drops[k]));
        }
        k := k + 1;
      }
    }

    /** The request does not fit behind the offset: use the page from the start if nobody else
        does, or else leave it to its users and take another one.  Between the two looks at the
        reference count, users may drop references. */
    method MakeRoom(available: seq<bool>, drops: seq<nat>, ghost s: State, ghost es: seq<Event>)
        returns (ok: bool, ghost es': seq<Event>)
      requires |available| == 4 && pc.Check? && pc.want <= PAGE_SIZE && HasPage(Abs()) && Abs() == Run(s, es)
      requires size >= PAGE_SIZE
      modifies this
      ensures Abs() == Run(s, es')
      ensures if ok then pc == Carve(old(pc).want) && HasPage(Abs()) else true !in available && pc == Idle && page == None
      ensures ok ==> offset == 0 && next == old(next) && page in {old(page), Some(|old(pages)|)}
      ensures old(pages)[old(page).value].count == old(bias) ==> ok && page == old(page) && |pages| == |old(pages)|
    {
      hide Run;
      ghost var was := Abs();
      es' := es;
      if pages[page.value].count != bias {
        pc := Drop(pc.want);
        es' := Record(was, s, es', Go);
        es' := UsersDrop(drops, s, es');
        was := Abs();
        var c := AtomicAdd(-bias);
        if c != 0 {
          pc := Refill(pc.want);
          es' := Record(was, s, es', Go);
          ok, es' := TakePage(available, s, es');
          return;
        }
        pc := Revive(pc.want);
        es' := Record(was, s, es', Go);
        was := Abs();
        pages := pages[page.value := pages[page.value].(count := MAX_BIAS)];
      } else {
        pc := Rewind(pc.want);
        es' := Record(was, s, es', Go);
        was := Abs();
        var c := AtomicAdd(MAX_BIAS - bias);
      }
      bias := MAX_BIAS;
      offset := 0;
      pc := Carve(pc.want);
      es' := Record(was, s, es', Go);
      ok := true;
    }

    /** __netdev_alloc_frag: a run of the steps above, that ends with a new fragment unless no
        page of any order can be had. */
    method NetdevAllocFrag(want: nat, available: seq<bool>, drops: seq<nat>) returns (frag: Option<Ref>, ghost es: seq<Event>)
      requires Inv(Abs()) && pc.Idle? && 2 <= want <= PAGE_SIZE && |available| == 4
      modifies this
      ensures Abs() == Run(old(Abs()), es) && pc.Idle?
      ensures match frag
              case Some(r) => live != [] && live[|live| - 1] == r && r.size == want
              case None => true !in available && page == None
      ensures old(page).Some? && old(offset) + want <= old(size) ==>
                frag == Some(Ref(old(next), old(page).value, old(offset), want)) && pages == old(pages) && page == old(page)
      ensures old(page).Some? && old(offset) + want > old(size) && old(pages)[old(page).value].count == old(bias) ==>
                frag == Some(Ref(old(next), old(page).value, 0, want)) && |pages| == |old(pages)| && page == old(page)
      ensures frag.Some? && (old(page).None? || old(offset) + want > old(size)) ==>
                frag.value.off == 0 && frag.value.page in {if old(page).Some? then old(page).value else |old(pages)|, |old(pages)|}
    {
      hide Run;
      ghost var s := Abs();
      RunNone(s);
      var ok := true;
      if page.None? {
        pc := Refill(want);
        es := Record(s, s, [], Request(want));
        ok, es := TakePage(available, s, es);
      } else if offset + want > size {
        pc := Check(want);
        es := Record(s, s, [], Request(want));
        ok, es := MakeRoom(available, drops, s, es);
      } else {
        pc := Carve(want);
        es := Record(s, s, [], Request(want));
      }
      if !ok {
        return None, es;
      }
      var r;
      r, es := CarveFrag(want, s, es);
      frag := Some(r);
    }

    /** The fragment is taken at the offset, with one of the references that the bias stands for. */
    method CarveFrag(want: nat, ghost s: State, ghost es: seq<Event>) returns (r: Ref, ghost es': seq<Event>)
      requires pc == Carve(want) && HasPage(Abs()) && Abs() == Run(s, es)
      modifies this`live, this`next, this`offset, this`bias, this`pc
      ensures Abs() == Run(s, es') && pc.Idle?
      ensures r == Ref(old(next), page.value, old(offset), want) && live == old(live) + [r]
    {
      hide Run;
      ghost var was := Abs();
      r := Ref(next, page.value, offset, want);
      live := live + [r];
      next := next + 1;
      offset := offset + want;
      bias := bias - 1;
      pc := Idle;
      es' := Record(was, s, es, Go);
    }
  }

  lemma RunNone(s: State)
    ensures Run(s, []) == s
  {
  }
}
