/** The server's cache of attached System V segments: at most MAX_ATTACHED of them,
    the least recently used one detached to make room. */
module SegmentCache {
  import opened Sets

  const MAX_ATTACHED: nat := 20

  /** What `shmat` returns when it fails. */
  const NOWHERE := -1

  datatype Option<T> = None | Some(value: T)

  datatype Slot = Slot(shmid: int, addr: int, time: int)

  // ---------- which segments a cache should hold ----------

  /** The number (from 1) of the last call that asked for `id`, 0 if there was none. */
  function LastUse(calls: seq<int>, id: int): nat {
    if calls == [] then 0
    else if calls[|calls| - 1] == id then |calls|
    else LastUse(calls[..|calls| - 1], id)
  }

  lemma {:induction false} LastUseIsLast(calls: seq<int>, id: int)
    ensures var n := LastUse(calls, id);
            n <= |calls| && (n > 0 ==> calls[n - 1] == id) && forall m :: n <= m < |calls| ==> calls[m] != id
  {
    if calls != [] && calls[|calls| - 1] != id {
      LastUseIsLast(calls[..|calls| - 1], id);
    }
  }

  /** `cached` are the most recently used segments: a segment was dropped only when
      the cache is full of segments all used after it.  An entry -1 in `calls` stands
      for a call whose attach failed. */
  ghost predicate MostRecent(calls: seq<int>, cached: set<int>) {
    && |cached| <= MAX_ATTACHED && -1 !in cached
    && (forall id :: id in cached ==> LastUse(calls, id) > 0)
    && (forall id, c :: c in cached && id !in cached && id != -1 ==> LastUse(calls, id) < LastUse(calls, c))
    && (forall id :: LastUse(calls, id) > 0 && id !in cached && id != -1 ==> |cached| == MAX_ATTACHED)
  }

  /** There is only one such set. */
  lemma {:induction false} MostRecentUnique(calls: seq<int>, a: set<int>, b: set<int>)
    requires MostRecent(calls, a) && MostRecent(calls, b)
    ensures a == b
  {
    var onlyA, onlyB := a - b, b - a;
    assert a == a * b + onlyA && b == a * b + onlyB;
    if onlyA != {} {
      var x := Pick(onlyA);
      if onlyB != {} {
        var y := Pick(onlyB);
        assert false;
      }
      assert false;
    } else if onlyB != {} {
      var y := Pick(onlyB);
      assert false;
    }
  }

  // ---------- the cache's own records ----------

  /** Auxiliary view of the cache: the number of calls since the last cleanup, when each
      segment was last asked for, the clock at the cleanup, and the cached segments' slots. */
  datatype View = View(calls: nat, use: map<int, nat>, base: nat, slotOf: map<int, nat>)

  /** No two segments were last used in the same call. */
  ghost predicate UsesOk(v: View) {
    && (forall id :: id in v.use ==> 0 < v.use[id] <= v.calls)
    && (forall x, y :: x in v.use && y in v.use && v.use[x] == v.use[y] ==> x == y)
  }

  /** Every cached address is an attached address of the segment it is cached for. */
  ghost predicate Coherent(slots: seq<Slot>, attached: map<int, int>) {
    forall i :: 0 <= i < |slots| && slots[i].shmid != -1 ==>
      slots[i].addr in attached && attached[slots[i].addr] == slots[i].shmid
  }

  /** The slots and the map agree, and each slot carries the time of its segment's last use. */
  ghost predicate Indexed(slots: seq<Slot>, v: View) {
    && (forall i :: 0 <= i < |slots| && slots[i].shmid != -1 ==>
          && slots[i].shmid in v.slotOf && v.slotOf[slots[i].shmid] == i
          && slots[i].shmid in v.use && slots[i].time == v.base + v.use[slots[i].shmid])
    && (forall id :: id in v.slotOf ==> id != -1 && v.slotOf[id] < |slots| && slots[v.slotOf[id]].shmid == id)
  }

  /** A segment that was used but is not cached left a full cache, and everything in
      it was used later. */
  ghost predicate DroppedInOrder(slots: seq<Slot>, v: View) {
    forall id, i :: id in v.use && id !in v.slotOf && 0 <= i < |slots| ==>
      slots[i].shmid != -1 && v.base + v.use[id] < slots[i].time
  }

  /** Nothing is attached beside what is cached. */
  ghost predicate AllCached(slots: seq<Slot>, attached: map<int, int>, v: View) {
    forall a :: a in attached ==>
      attached[a] in v.slotOf && v.slotOf[attached[a]] < |slots| && slots[v.slotOf[attached[a]]].addr == a
  }

  ghost predicate Consistent(slots: seq<Slot>, clock: int, attached: map<int, int>, v: View) {
    && |slots| == MAX_ATTACHED && clock == v.base + v.calls
    && UsesOk(v) && Indexed(slots, v) && DroppedInOrder(slots, v)
    && Coherent(slots, attached) && NOWHERE !in attached
    && AllCached(slots, attached, v)
  }

  function Called(v: View, id: int): (v': View)
    ensures UsesOk(v) ==> UsesOk(v')
  {
    v.(calls := v.calls + 1, use := v.use[id := v.calls + 1])
  }

  /** A hit. */
  lemma {:induction false} HitOk(slots: seq<Slot>, clock: int, attached: map<int, int>, v: View, i: nat, slots': seq<Slot>)
    requires Consistent(slots, clock, attached, v) && i < |slots| && slots[i].shmid != -1
    requires slots' == slots[i := slots[i].(time := clock + 1)]
    ensures Consistent(slots', clock + 1, attached, Called(v, slots[i].shmid))
  {
  }

  /** A miss that takes a free slot. */
  lemma {:induction false} FillOk(slots: seq<Slot>, clock: int, attached: map<int, int>, v: View, i: nat, id: int, addr: int,
               slots': seq<Slot>)
    requires Consistent(slots, clock, attached, v)
    requires i < |slots| && slots[i].shmid == -1 && id != -1 && id !in v.slotOf
    requires addr !in attached && addr != NOWHERE
    requires slots' == slots[i := Slot(id, addr, clock + 1)]
    ensures Consistent(slots', clock + 1, attached[addr := id], Called(v, id).(slotOf := v.slotOf[id := i]))
  {
    assert forall x :: x in v.use ==> x in v.slotOf by {
      assert slots[i].shmid == -1;
    }
    var v' := Called(v, id).(slotOf := v.slotOf[id := i]);
    var attached' := attached[addr := id];
    assert Coherent(slots', attached[addr := id]);
    assert Indexed(slots', v');
    assert DroppedInOrder(slots', v');
    forall a | a in attached'
      ensures attached'[a] in v'.slotOf && v'.slotOf[attached'[a]] < |slots'| && slots'[v'.slotOf[attached'[a]]].addr == a
    {
      if a != addr {
        assert attached'[a] == attached[a];
        assert v.slotOf[attached[a]] != i;
      }
    }
  }

  function Evicted(v: View, victim: int, id: int, i: nat): View {
    Called(v, id).(slotOf := (v.slotOf - {victim})[id := i])
  }

  lemma {:induction false} EvictIndexed(slots: seq<Slot>, v: View, i: nat, id: int, addr: int)
    requires Indexed(slots, v) && i < |slots| && slots[i].shmid != -1 && id != -1 && id !in v.slotOf
    ensures Indexed(slots[i := Slot(id, addr, v.base + v.calls + 1)], Evicted(v, slots[i].shmid, id, i))
  {
  }

  lemma {:induction false} EvictDropped(slots: seq<Slot>, v: View, i: nat, id: int, addr: int)
    requires Indexed(slots, v) && DroppedInOrder(slots, v) && i < |slots| && id != -1 && id !in v.slotOf
    requires UsesOk(v)
    requires forall j :: 0 <= j < |slots| ==> slots[j].shmid != -1 && slots[i].time <= slots[j].time
    ensures DroppedInOrder(slots[i := Slot(id, addr, v.base + v.calls + 1)], Evicted(v, slots[i].shmid, id, i))
  {
    forall j | 0 <= j < |slots| && j != i
      ensures slots[i].time < slots[j].time
    {
      assert slots[j].shmid != slots[i].shmid;
    }
  }

  lemma {:induction false} EvictAttached(slots: seq<Slot>, attached: map<int, int>, v: View, i: nat, id: int, addr: int, time: int)
    requires Indexed(slots, v) && Coherent(slots, attached) && AllCached(slots, attached, v)
    requires i < |slots| && slots[i].shmid != -1 && id !in v.slotOf && addr !in attached - {slots[i].addr}
    ensures var slots', attached' := slots[i := Slot(id, addr, time)], (attached - {slots[i].addr})[addr := id];
            Coherent(slots', attached') && AllCached(slots', attached', Evicted(v, slots[i].shmid, id, i))
  {
    var slots', attached' := slots[i := Slot(id, addr, time)], (attached - {slots[i].addr})[addr := id];
    forall j | 0 <= j < |slots| && j != i && slots[j].shmid != -1
      ensures slots[j].addr != slots[i].addr && slots[j].addr != addr
    {
      assert slots[j].shmid != slots[i].shmid;
    }
    forall a | a in attached' && a != addr
      ensures v.slotOf[attached[a]] != i
    {
    }
  }

  /** A miss in a full cache: the slot with the smallest time is reused. */
  lemma {:induction false} EvictOk(slots: seq<Slot>, clock: int, attached: map<int, int>, v: View, i: nat, id: int, addr: int,
                slots': seq<Slot>)
    requires Consistent(slots, clock, attached, v) && i < |slots| && id != -1 && id !in v.slotOf
    requires forall j :: 0 <= j < |slots| ==> slots[j].shmid != -1 && slots[i].time <= slots[j].time
    requires addr !in attached - {slots[i].addr} && addr != NOWHERE
    requires slots' == slots[i := Slot(id, addr, clock + 1)]
    ensures Consistent(slots', clock + 1, (attached - {slots[i].addr})[addr := id], Evicted(v, slots[i].shmid, id, i))
  {
    hide Indexed, DroppedInOrder, Coherent, AllCached;
    EvictIndexed(slots, v, i, id, addr);
    EvictDropped(slots, v, i, id, addr);
    EvictAttached(slots, attached, v, i, id, addr, clock + 1);
  }

  // ---------- the records mean what they should ----------

  /** `v.use` is the last use of every segment in the calls since the cleanup. */
  ghost predicate Tied(calls: seq<int>, v: View) {
    && v.calls == |calls| && -1 !in v.use
    && forall id :: id != -1 ==> LastUse(calls, id) == if id in v.use then v.use[id] else 0
  }

  lemma {:induction false} TiedCall(calls: seq<int>, v: View, id: int)
    requires Tied(calls, v)
    ensures id != -1 ==> Tied(calls + [id], Called(v, id))
    ensures Tied(calls + [-1], v.(calls := v.calls + 1))
  {
    assert (calls + [id])[..|calls|] == calls;
    assert (calls + [-1])[..|calls|] == calls;
  }

  ghost function IdsBelow(slots: seq<Slot>, n: nat): set<int>
    requires n <= |slots|
  {
    set i | 0 <= i < n && slots[i].shmid != -1 :: slots[i].shmid
  }

  lemma {:induction false} NewId(slots: seq<Slot>, v: View, n: nat)
    requires Indexed(slots, v) && n < |slots| && slots[n].shmid != -1
    ensures slots[n].shmid !in IdsBelow(slots, n)
  {
  }

  lemma {:induction false} CountIds(slots: seq<Slot>, v: View, n: nat)
    requires Indexed(slots, v) && n <= |slots|
    ensures |IdsBelow(slots, n)| <= n
    ensures |IdsBelow(slots, n)| == n <==> forall i :: 0 <= i < n ==> slots[i].shmid != -1
  {
    if n == 0 {
      assert IdsBelow(slots, 0) == {};
    } else {
      CountIds(slots, v, n - 1);
      var id := slots[n - 1].shmid;
      if id == -1 {
        assert IdsBelow(slots, n) == IdsBelow(slots, n - 1);
      } else {
        NewId(slots, v, n - 1);
        assert IdsBelow(slots, n) == IdsBelow(slots, n - 1) + {id};
        hide Indexed;
      }
    }
  }

  lemma {:induction false} CachedIds(slots: seq<Slot>, v: View)
    requires Indexed(slots, v)
    ensures v.slotOf.Keys == IdsBelow(slots, |slots|)
  {
    forall id | id in v.slotOf
      ensures id in IdsBelow(slots, |slots|)
    {
      assert slots[v.slotOf[id]].shmid == id;
    }
  }

  lemma {:induction false} InjectiveSize(m: map<int, int>, s: set<int>)
    requires forall a :: a in m ==> m[a] in s
    requires forall a, b :: a in m && b in m && m[a] == m[b] ==> a == b
    ensures |m| <= |s|
    decreases |m|
  {
    if |m.Keys| > 0 {
      var a := Pick(m.Keys);
      var rest := m - {a};
      assert m.Keys == rest.Keys + {a};
      InjectiveSize(rest, s - {m[a]});
      assert s == (s - {m[a]}) + {m[a]};
    }
  }

  /** A consistent cache holds the most recently used segments, and no more segments
      than that are attached. */
  lemma {:induction false} HoldsMostRecent(slots: seq<Slot>, clock: int, attached: map<int, int>, calls: seq<int>, v: View)
    requires Consistent(slots, clock, attached, v) && Tied(calls, v)
    ensures MostRecent(calls, v.slotOf.Keys) && |attached| <= |v.slotOf| <= MAX_ATTACHED
    ensures attached.Values == v.slotOf.Keys
  {
    var cached := v.slotOf.Keys;
    CountIds(slots, v, |slots|);
    CachedIds(slots, v);
    forall id, c | c in cached && id !in cached && id != -1
      ensures LastUse(calls, id) < LastUse(calls, c)
    {
      assert slots[v.slotOf[c]].shmid == c;
    }
    InjectiveSize(attached, cached);
    AttachedAreCached(slots, clock, attached, v);
  }

  /** What is attached is what is cached. */
  lemma {:induction false} AttachedAreCached(slots: seq<Slot>, clock: int, attached: map<int, int>, v: View)
    requires Consistent(slots, clock, attached, v)
    ensures attached.Values == v.slotOf.Keys
  {
    hide UsesOk, DroppedInOrder;
    forall a | a in attached
      ensures attached[a] in v.slotOf
    {
    }
    assert attached.Values <= v.slotOf.Keys;
    forall c | c in v.slotOf
      ensures c in attached.Values
    {
      assert slots[v.slotOf[c]].shmid == c;
      assert slots[v.slotOf[c]].addr in attached && attached[slots[v.slotOf[c]].addr] == c;
    }
  }

  lemma {:induction false} Above(xs: set<int>) returns (a: int)
    ensures a >= 0 && forall x :: x in xs ==> x < a
    decreases |xs|
  {
    if xs == {} {
      a := 0;
    } else {
      var x := Pick(xs);
      var b := Above(xs - {x});
      a := if b > x then b else x + 1;
      assert forall y :: y in xs ==> y == x || y in xs - {x};
    }
  }

  /** There is always an address that is not taken. */
  lemma {:induction false} AddressAvailable(attached: map<int, int>)
    ensures exists a :: a !in attached && a != NOWHERE
  {
    var a := Above(attached.Keys);
    assert a !in attached;
  }

  lemma {:induction false} SlotOfAddress(slots: seq<Slot>, clock: int, attached: map<int, int>, v: View, a: int) returns (i: nat)
    requires Consistent(slots, clock, attached, v) && a in attached
    ensures i < |slots| && slots[i].shmid == attached[a] != -1 && slots[i].addr == a
  {
    i := v.slotOf[attached[a]];
  }

  lemma {:induction false} AllFree(slots: seq<Slot>, clock: int, attached: map<int, int>, v: View, slots': seq<Slot>)
    requires Consistent(slots, clock, attached, v) && |slots'| == |slots|
    requires forall i :: 0 <= i < |slots| ==> slots[i].shmid == slots'[i].shmid == -1
    ensures Consistent(slots', clock, attached, v)
  {
    forall a | a in attached
      ensures false
    {
      var i := SlotOfAddress(slots, clock, attached, v, a);
      assert false;
    }
  }

  lemma {:induction false} TimesPositive(slots: seq<Slot>, clock: int, attached: map<int, int>, v: View)
    requires Consistent(slots, clock, attached, v)
    ensures |slots| == MAX_ATTACHED && forall i :: 0 <= i < |slots| && slots[i].shmid != -1 ==> slots[i].time > 0
  {
  }

  /** A failed attach after an eviction: the slot still names the evicted segment. */
  lemma {:induction false} FailedEviction(slots: seq<Slot>, clock: int, attached: map<int, int>, v: View, i: nat, slots': seq<Slot>)
    requires Consistent(slots, clock, attached, v) && i < |slots| && slots[i].shmid != -1
    requires slots' == slots[i := slots[i].(addr := NOWHERE)]
    ensures !Coherent(slots', attached - {slots[i].addr})
  {
    assert slots'[i].shmid != -1 && slots'[i].addr == NOWHERE;
  }

  lemma {:induction false} NothingAttached(slots: seq<Slot>, clock: int, attached: map<int, int>, v: View, rest: map<int, int>)
    requires Consistent(slots, clock, attached, v)
    requires forall a :: a in rest ==> a in attached
    requires forall a, j :: a in rest && 0 <= j < |slots| && slots[j].shmid != -1 ==> a != slots[j].addr
    ensures rest == map[] && clock >= 0 && |slots| == MAX_ATTACHED
  {
    forall a | a in rest
      ensures false
    {
      var j := SlotOfAddress(slots, clock, attached, v, a);
      assert false;
    }
  }

  lemma {:induction false} NoneCached(slots: seq<Slot>, clock: nat)
    requires |slots| == MAX_ATTACHED && forall i :: 0 <= i < |slots| ==> slots[i].shmid == -1
    ensures Consistent(slots, clock, map[], View(0, map[], clock, map[]))
  {
  }

  /** After slot `i` is emptied, what is still attached belongs to other slots. */
  lemma {:induction false} OthersElsewhere(slots: seq<Slot>, clock: int, attached: map<int, int>, v: View, i: nat, a: int)
    requires Consistent(slots, clock, attached, v) && i < |slots|
    requires a in attached && (slots[i].shmid != -1 ==> a != slots[i].addr)
    ensures attached[a] in v.slotOf && i != v.slotOf[attached[a]] < |slots|
  {
    var id := attached[a];
    assert id in v.slotOf && slots[v.slotOf[id]].addr == a;
    assert slots[v.slotOf[id]].shmid == id;
  }

  /** A failed attach for a free slot only advances the clock. */
  lemma {:induction false} FailOk(slots: seq<Slot>, clock: int, attached: map<int, int>, v: View, i: nat, slots': seq<Slot>)
    requires Consistent(slots, clock, attached, v) && i < |slots| && slots[i].shmid == -1
    requires slots' == slots[i := slots[i].(addr := NOWHERE)]
    ensures Consistent(slots', clock + 1, attached, v.(calls := v.calls + 1))
  {
    assert forall x :: x in v.use ==> x in v.slotOf by {
      assert slots[i].shmid == -1;
    }
    assert Indexed(slots', v.(calls := v.calls + 1));
    forall a | a in attached
      ensures v.slotOf[attached[a]] != i
    {
      OthersElsewhere(slots, clock, attached, v, i, a);
    }
  }

  /** The addresses of the segments that stay cached survive an eviction. */
  lemma {:induction false} KeptByEviction(slots: seq<Slot>, clock: int, attached: map<int, int>, v: View, i: nat, id: int)
    requires Consistent(slots, clock, attached, v) && i < |slots| && slots[i].shmid != -1
    requires id !in v.slotOf
    ensures forall a :: a in attached && attached[a] in Evicted(v, slots[i].shmid, id, i).slotOf ==> a != slots[i].addr
  {
    forall a | a in attached && a == slots[i].addr
      ensures attached[a] == slots[i].shmid
    {
    }
  }

  lemma {:induction false} ValidIsCoherent(slots: seq<Slot>, clock: int, attached: map<int, int>, v: View)
    requires Consistent(slots, clock, attached, v)
    ensures Coherent(slots, attached)
  {
  }

  lemma {:induction false} HitCoherent(slots: seq<Slot>, clock: int, attached: map<int, int>, v: View, i: nat)
    requires Consistent(slots, clock, attached, v) && i < |slots| && slots[i].shmid != -1
    ensures slots[i].addr in attached && attached[slots[i].addr] == slots[i].shmid
  {
  }

  lemma {:induction false} Lookup(slots: seq<Slot>, clock: int, attached: map<int, int>, v: View, id: int)
    requires Consistent(slots, clock, attached, v) && id != -1
    ensures id in v.slotOf <==> exists i :: 0 <= i < |slots| && slots[i].shmid == id
  {
    if id in v.slotOf {
      assert slots[v.slotOf[id]].shmid == id;
    }
  }

  /** The cache is full exactly when no slot is free. */
  lemma {:induction false} SizeTellsFull(slots: seq<Slot>, clock: int, attached: map<int, int>, v: View)
    requires Consistent(slots, clock, attached, v)
    ensures |v.slotOf.Keys| == MAX_ATTACHED <==> forall i :: 0 <= i < |slots| ==> slots[i].shmid != -1
    ensures |v.slotOf.Keys| <= MAX_ATTACHED
  {
    CachedIds(slots, v);
    CountIds(slots, v, |slots|);
  }

  class Cache {
    const slots: array<Slot>
    var clock: int
    var first: bool
    /** The kernel's side: the segments attached through the cache, by address. */
    var attached: map<int, int>
    /** The calls since the last cleanup. */
    ghost var calls: seq<int>
    ghost var view: View

    /** The slots as the code means them: before the first call all are free. */
    ghost function Slots(): (ss: seq<Slot>)
      reads this, slots
      ensures |ss| == slots.Length
    {
      if first then seq(slots.Length, _ => Slot(-1, 0, 0)) else slots[..]
    }

    ghost predicate Valid()
      reads this, slots
    {
      Consistent(Slots(), clock, attached, view) && Tied(calls, view)
    }

    ghost function Cached(): set<int>
      reads this
    {
      view.slotOf.Keys
    }

    constructor ()
      ensures Valid() && Cached() == {} && calls == [] && attached == map[] && fresh(slots)
    {
      slots := new Slot[MAX_ATTACHED](_ => Slot(0, 0, 0));
      clock, first, attached, calls, view := 0, true, map[], [], View(0, map[], 0, map[]);
    }

    /** The slot that holds `shmid`, else the first free one (or -1) in `avail`. */
    method Search(shmid: int) returns (hit: int, avail: int)
      ensures -1 <= hit < slots.Length && -1 <= avail < slots.Length
      ensures hit != -1 ==> slots[hit].shmid == shmid
      ensures hit == -1 ==> forall i :: 0 <= i < slots.Length ==> slots[i].shmid != shmid
      ensures hit == -1 && avail != -1 ==> slots[avail].shmid == -1 && forall i :: 0 <= i < avail ==> slots[i].shmid != -1
      ensures hit == -1 && avail == -1 ==> forall i :: 0 <= i < slots.Length ==> slots[i].shmid != -1
    {
      avail := -1;
      for i := 0 to slots.Length
        invariant -1 <= avail < i
        invariant forall j :: 0 <= j < i ==> slots[j].shmid != shmid
        invariant avail != -1 ==> slots[avail].shmid == -1 && forall j :: 0 <= j < avail ==> slots[j].shmid != -1
        invariant avail == -1 ==> forall j :: 0 <= j < i ==> slots[j].shmid != -1
      {
        if slots[i].shmid == shmid {
          return i, avail;
        }
        if slots[i].shmid == -1 && avail == -1 {
          avail := i;
        }
      }
      hit := -1;
    }

    /** The scan for the smallest time in a full table; -1 marks "none seen yet". */
    method Oldest() returns (avail: nat)
      requires slots.Length > 0 && forall i :: 0 <= i < slots.Length ==> slots[i].time > 0
      ensures avail < slots.Length
      ensures forall i :: 0 <= i < slots.Length ==> slots[avail].time <= slots[i].time
    {
      var oldest := -1;
      avail := 0;
      for i := 0 to slots.Length
        invariant i == 0 ==> oldest == -1
        invariant i > 0 ==> avail < i && oldest == slots[avail].time
        invariant forall j :: 0 <= j < i ==> slots[avail].time <= slots[j].time
      {
        if oldest == -1 || slots[i].time < oldest {
          oldest, avail := slots[i].time, i;
        }
      }
    }

    /** The first call marks every slot free. */
    method Start()
      requires Valid()
      modifies this, slots
      ensures Valid() && !first
      ensures attached == old(attached) && calls == old(calls) && view == old(view)
    {
      hide Consistent;
      if first {
        ghost var was := Slots();
        for i := 0 to slots.Length
          invariant first && clock == old(clock)
          invariant attached == old(attached) && calls == old(calls) && view == old(view)
          invariant forall j :: 0 <= j < i ==> slots[j].shmid == -1
        {
          slots[i] := slots[i].(shmid := -1);
        }
        first := false;
        AllFree(was, clock, attached, view, slots[..]);
      }
    }

    /** `shmat`: a free address of the kernel's choice, or failure. */
    method Attach(shmid: int, ok: bool) returns (addr: int)
      modifies this`attached
      ensures ok ==> addr != NOWHERE && addr !in old(attached) && attached == old(attached)[addr := shmid]
      ensures !ok ==> addr == NOWHERE && attached == old(attached)
    {
      if !ok {
        return NOWHERE;
      }
      AddressAvailable(attached);
      addr :| addr !in attached && addr != NOWHERE;
      attached := attached[addr := shmid];
    }

    /** The final cleanup detaches everything. */
    method CleanUp()
      requires Valid() && !first
      modifies this, slots
      ensures Valid() && !first && Cached() == {} && calls == [] && attached == map[]
    {
      hide Consistent;
      ghost var was, wasAttached := slots[..], attached;
      for i := 0 to slots.Length
        invariant !first && clock == old(clock) && view == old(view)
        invariant forall j :: 0 <= j < i ==> slots[j].shmid == -1
        invariant forall j :: i <= j < slots.Length ==> slots[j] == was[j]
        invariant forall a :: a in attached ==> a in wasAttached && attached[a] == wasAttached[a]
        invariant forall a, j :: a in attached && 0 <= j < i && was[j].shmid != -1 ==> a != was[j].addr
      {
        if slots[i].shmid != -1 {
          attached := attached - {slots[i].addr};
          slots[i] := slots[i].(shmid := -1);
        }
      }
      NothingAttached(was, clock, wasAttached, view, attached);
      calls, view := [], View(0, map[], clock, map[]);
      NoneCached(slots[..], clock);
    }

    /** A miss: `avail` is a free slot, or -1 when the table is full. */
    method Load(shmid: int, free: int, ok: bool) returns (r: Option<int>)
      requires !first && shmid != -1 && shmid !in Cached() && -1 <= free < slots.Length
      requires Consistent(slots[..], clock - 1, attached, view) && Tied(calls, view)
      requires free != -1 ==> slots[free].shmid == -1
      requires free == -1 ==> forall i :: 0 <= i < slots.Length ==> slots[i].shmid != -1
      modifies this, slots
      ensures !first && (ok || free != -1 ==> Valid())
      ensures calls == old(calls) + [if ok then shmid else -1]
      ensures ok ==> r.Some? && r.value in attached && attached[r.value] == shmid && shmid in Cached()
      ensures forall a :: a in old(attached) && old(attached)[a] in Cached() ==>
                (ok || free != -1 ==> a in attached && attached[a] == old(attached)[a])
      ensures !ok ==> r == None && Cached() == old(Cached())
      ensures !ok && free == -1 ==> !Coherent(slots[..], attached)
    {
      hide Consistent, Coherent;
      ghost var was, wasAttached := slots[..], attached;
      TiedCall(calls, view, shmid);
      TimesPositive(was, clock - 1, attached, view);
      var avail := free;
      if avail == -1 {
        avail := Oldest();
        attached := attached - {slots[avail].addr};
        KeptByEviction(was, clock - 1, wasAttached, view, avail, shmid);
      }
      ghost var victim := was[avail].shmid;
      var addr := Attach(shmid, ok);
      slots[avail] := slots[avail].(addr := addr);
      if addr == NOWHERE {
        assert slots[..] == was[avail := was[avail].(addr := NOWHERE)];
        if free != -1 {
          FailOk(was, clock - 1, wasAttached, view, avail, slots[..]);
        } else {
          FailedEviction(was, clock - 1, wasAttached, view, avail, slots[..]);
        }
        calls, view := calls + [-1], view.(calls := view.calls + 1);
        return None;
      }
      slots[avail] := slots[avail].(time := clock, shmid := shmid);
      assert slots[..] == was[avail := Slot(shmid, addr, clock)];
      if free == -1 {
        EvictOk(was, clock - 1, wasAttached, view, avail, shmid, addr, slots[..]);
        view := Evicted(view, victim, shmid, avail);
      } else {
        FillOk(was, clock - 1, wasAttached, view, avail, shmid, addr, slots[..]);
        view := Called(view, shmid).(slotOf := view.slotOf[shmid := avail]);
      }
      calls := calls + [shmid];
      return Some(addr);
    }

    /** `getaddr`.  `ok` says whether the attach, should one be needed, succeeds. */
    method GetAddr(shmid: int, ok: bool) returns (r: Option<int>)
      requires Valid()
      modifies this, slots
      // the final cleanup detaches everything
      ensures shmid == -1 ==> r == None && Valid() && calls == [] && attached == map[]
      // otherwise the address is a currently attached one of this very segment
      ensures shmid != -1 && (ok || shmid in old(Cached())) ==>
                && r.Some? && r.value in attached && attached[r.value] == shmid
                && Valid() && calls == old(calls) + [shmid] && shmid in Cached()
      // and the cache holds the most recently used segments, nothing else being attached
      ensures Valid() ==> MostRecent(calls, Cached()) && attached.Values == Cached() && |attached| <= |Cached()| <= MAX_ATTACHED
      ensures shmid != -1 && shmid in old(Cached()) ==> attached == old(attached) && Cached() == old(Cached())
      // segments that stay cached stay where they are
      ensures Valid() ==>
                forall a :: a in old(attached) && old(attached)[a] in Cached() ==> a in attached && attached[a] == old(attached)[a]
      // a failed attach leaves a coherent cache exactly when nothing had to be evicted for it
      ensures shmid != -1 && shmid !in old(Cached()) && !ok ==>
                && r == None && Cached() == old(Cached())
                && (Coherent(slots[..], attached) <==> |old(Cached())| < MAX_ATTACHED)
                && (|old(Cached())| < MAX_ATTACHED ==> Valid())
    {
      hide Consistent, Coherent, MostRecent, Tied;
      Start();
      if shmid == -1 {
        CleanUp();
        HoldsMostRecent(slots[..], clock, attached, calls, view);
        return None;
      }
      ghost var was, before := slots[..], view;
      SizeTellsFull(was, clock, attached, view);
      clock := clock + 1;
      var hit, avail := Search(shmid);
      Lookup(was, clock - 1, attached, view, shmid);
      if hit != -1 {
        slots[hit] := slots[hit].(time := clock);
        assert slots[..] == was[hit := was[hit].(time := clock)];
        HitOk(was, clock - 1, attached, view, hit, slots[..]);
        TiedCall(calls, view, shmid);
        calls, view := calls + [shmid], Called(view, shmid);
        r := Some(slots[hit].addr);
        HitCoherent(was, clock - 1, attached, before, hit);
      } else {
        r := Load(shmid, avail, ok);
      }
      if Valid() {
        HoldsMostRecent(slots[..], clock, attached, calls, view);
        ValidIsCoherent(slots[..], clock, attached, view);
      }
    }
  }
}
