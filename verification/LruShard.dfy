/** The LRU cache shard (cache/lru_cache.cc): an intrusive doubly linked list with
    two priority pools, the hash table, reference counts and byte accounting. The
    mutex makes every method atomic. */
module LruShard {
  import opened LruTable

  function Charges(s: seq<LRUHandle>): nat {
    if s == [] then 0 else s[0].charge + Charges(s[1..])
  }

  lemma {:induction false} ChargesConcat(a: seq<LRUHandle>, b: seq<LRUHandle>)
    ensures Charges(a + b) == Charges(a) + Charges(b)
  {
    if a == [] {
      assert a + b == b;
    } else {
      ChargesConcat(a[1..], b);
      assert (a + b)[1..] == a[1..] + b;
    }
  }

  lemma ChargesSplit(s: seq<LRUHandle>, i: nat)
    requires i <= |s|
    ensures Charges(s) == Charges(s[..i]) + Charges(s[i..])
  {
    ChargesConcat(s[..i], s[i..]);
    assert s == s[..i] + s[i..];
  }

  lemma ChargesRemove(s: seq<LRUHandle>, i: nat)
    requires i < |s|
    ensures Charges(s) == Charges(s[..i] + s[i + 1..]) + s[i].charge
  {
    ChargesSplit(s, i);
    ChargesConcat(s[..i], s[i + 1..]);
    assert s[i..][1..] == s[i + 1..];
  }

  lemma ChargesInsert(s: seq<LRUHandle>, i: nat, e: LRUHandle)
    requires i <= |s|
    ensures Charges(s[..i] + [e] + s[i..]) == Charges(s) + e.charge
  {
    ChargesSplit(s, i);
    ChargesConcat(s[..i] + [e], s[i..]);
    ChargesConcat(s[..i], [e]);
  }

  ghost predicate Distinct(s: seq<LRUHandle>) {
    forall i, j | 0 <= i < j < |s| :: s[i] != s[j]
  }

  function Without(s: seq<LRUHandle>, e: LRUHandle): seq<LRUHandle> {
    if s == [] then [] else if s[0] == e then s[1..] else [s[0]] + Without(s[1..], e)
  }

  lemma WithoutFirst(s: seq<LRUHandle>)
    requires s != []
    ensures Without(s, s[0]) == s[1..]
  {
  }

  lemma {:induction false} WithoutAt(s: seq<LRUHandle>, i: nat)
    requires i < |s| && forall j | 0 <= j < i :: s[j] != s[i]
    ensures Without(s, s[i]) == s[..i] + s[i + 1..]
  {
    if i > 0 {
      WithoutAt(s[1..], i - 1);
    }
  }

  lemma DistinctFirst(s: seq<LRUHandle>, i: nat)
    requires Distinct(s) && i < |s|
    ensures Without(s, s[i]) == s[..i] + s[i + 1..]
  {
    WithoutAt(s, i);
  }

  lemma DistinctInsert(s: seq<LRUHandle>, i: nat, e: LRUHandle)
    requires Distinct(s) && i <= |s| && e !in s
    ensures Distinct(s[..i] + [e] + s[i..])
  {
  }

  lemma DistinctRemove(s: seq<LRUHandle>, i: nat)
    requires Distinct(s) && i < |s|
    ensures Distinct(s[..i] + s[i + 1..]) && s[i] !in s[..i] + s[i + 1..]
  {
  }

  function Succ(i: nat, n: nat): nat {
    if i + 1 >= n then 0 else i + 1
  }

  function Pred(i: nat, n: nat): nat
    requires n > 0
  {
    if i == 0 then n - 1 else i - 1
  }

  /** The next pointers of the nodes run around ring. */
  ghost predicate Forward(ring: seq<LRUHandle>)
    reads ring`next
  {
    forall i {:trigger ring[i].next} | 0 <= i < |ring| :: ring[i].next == ring[Succ(i, |ring|)]
  }

  ghost predicate Backward(ring: seq<LRUHandle>)
    reads ring`prev
  {
    forall i {:trigger ring[i].prev} | 0 <= i < |ring| :: ring[i].prev == ring[Pred(i, |ring|)]
  }

  /** The pointers of the nodes run around ring in both directions. */
  ghost predicate Linked(ring: seq<LRUHandle>)
    reads ring`next, ring`prev
  {
    |ring| > 0 && Distinct(ring) && Forward(ring) && Backward(ring)
  }

  /** e->prev->next = e->next; e->next = nullptr; */
  method UnlinkForward(ghost ring: seq<LRUHandle>, ghost i: nat, e: LRUHandle, a: LRUHandle, b: LRUHandle)
    requires Distinct(ring) && Forward(ring) && 0 < i < |ring| && ring[i] == e
    requires ring[i - 1] == a && ring[Succ(i, |ring|)] == b
    modifies ring`next
    ensures Forward(ring[..i] + ring[i + 1..]) && e.next == null
  {
    a.next := b;
    e.next := null;
    ghost var r := ring[..i] + ring[i + 1..];
    forall j {:trigger r[j].next} | 0 <= j < |r| ensures r[j].next == r[Succ(j, |r|)] {
      ghost var k := if j < i then j else j + 1;
      assert r[j] == ring[k];
      assert old(ring[k].next) == ring[Succ(k, |ring|)];
    }
  }

  /** e->next->prev = e->prev; e->prev = nullptr; */
  method UnlinkBackward(ghost ring: seq<LRUHandle>, ghost i: nat, e: LRUHandle, a: LRUHandle, b: LRUHandle)
    requires Distinct(ring) && Backward(ring) && 0 < i < |ring| && ring[i] == e
    requires ring[i - 1] == a && ring[Succ(i, |ring|)] == b
    modifies ring`prev
    ensures Backward(ring[..i] + ring[i + 1..]) && e.prev == null
  {
    b.prev := a;
    e.prev := null;
    ghost var r := ring[..i] + ring[i + 1..];
    forall j {:trigger r[j].prev} | 0 <= j < |r| ensures r[j].prev == r[Pred(j, |r|)] {
      ghost var k := if j < i then j else j + 1;
      assert r[j] == ring[k];
      assert old(ring[k].prev) == ring[Pred(k, |ring|)];
    }
  }

  /** Take node i out of the ring. */
  method Unlink(ghost ring: seq<LRUHandle>, ghost i: nat, e: LRUHandle)
    requires Linked(ring) && 0 < i < |ring| && ring[i] == e
    modifies ring`next, ring`prev
    ensures Linked(ring[..i] + ring[i + 1..]) && e.next == null && e.prev == null
  {
    assert e.next == ring[Succ(i, |ring|)] && e.prev == ring[i - 1];
    hide Forward, Backward, Distinct;
    var a: LRUHandle := e.prev;
    var b: LRUHandle := e.next;
    DistinctRemove(ring, i);
    UnlinkBackward(ring, i, e, a, b);
    UnlinkForward(ring, i, e, a, b);
  }

  method LinkForward(ghost ring: seq<LRUHandle>, ghost i: nat, a: LRUHandle, b: LRUHandle, e: LRUHandle)
    requires Distinct(ring) && Forward(ring) && i < |ring| && ring[i] == a && ring[Succ(i, |ring|)] == b && e !in ring
    modifies ring`next, e`next
    ensures Forward(ring[..i + 1] + [e] + ring[i + 1..])
  {
    e.next := b;
    a.next := e;
    ghost var r := ring[..i + 1] + [e] + ring[i + 1..];
    assert r[i + 1] == e;
    forall j {:trigger r[j].next} | 0 <= j < |r| ensures r[j].next == r[Succ(j, |r|)] {
      if j != i + 1 {
        ghost var k := if j <= i then j else j - 1;
        assert r[j] == ring[k];
        assert old(ring[k].next) == ring[Succ(k, |ring|)];
      }
    }
  }

  method LinkBackward(ghost ring: seq<LRUHandle>, ghost i: nat, a: LRUHandle, b: LRUHandle, e: LRUHandle)
    requires Distinct(ring) && Backward(ring) && i < |ring| && ring[i] == a && ring[Succ(i, |ring|)] == b && e !in ring
    modifies ring`prev, e`prev
    ensures Backward(ring[..i + 1] + [e] + ring[i + 1..])
  {
    e.prev := a;
    b.prev := e;
    ghost var r := ring[..i + 1] + [e] + ring[i + 1..];
    assert r[i + 1] == e;
    forall j {:trigger r[j].prev} | 0 <= j < |r| ensures r[j].prev == r[Pred(j, |r|)] {
      if j != i + 1 {
        ghost var k := if j <= i then j else j - 1;
        assert r[j] == ring[k];
        assert old(ring[k].prev) == ring[Pred(k, |ring|)];
      }
    }
  }

  /** Link e in right after node i of the ring. */
  method LinkAfter(ghost ring: seq<LRUHandle>, ghost i: nat, a: LRUHandle, e: LRUHandle)
    requires Linked(ring) && i < |ring| && ring[i] == a && e !in ring
    modifies ring`next, ring`prev, e`next, e`prev
    ensures Linked(ring[..i + 1] + [e] + ring[i + 1..])
  {
    assert a.next == ring[Succ(i, |ring|)];
    hide Forward, Backward, Distinct;
    var b: LRUHandle := a.next;
    DistinctInsert(ring, i + 1, e);
    LinkForward(ring, i, a, b, e);
    LinkBackward(ring, i, a, b, e);
  }

  lemma RingAt(lru: LRUHandle, chain: seq<LRUHandle>, i: nat)
    requires Linked([lru] + chain) && i < |chain|
    ensures Distinct([lru] + chain) && Distinct(chain) && chain[i] != lru
    ensures chain[i].prev == ([lru] + chain)[i] && ([lru] + chain)[i].next == chain[i]
  {
    var ring := [lru] + chain;
    assert ring[0] != ring[i + 1] == chain[i];
    assert chain == ring[1..];
    assert ring[i].next == ring[Succ(i, |ring|)];
    assert ring[i + 1].prev == ring[Pred(i + 1, |ring|)];
  }

  /** The list after e joins it: at the new end of its pool. */
  function Joined(chain: seq<LRUHandle>, low: nat, high: bool, e: LRUHandle): seq<LRUHandle> {
    if high || low > |chain| then chain + [e] else chain[..low] + [e] + chain[low..]
  }

  lemma JoinedMembers(chain: seq<LRUHandle>, low: nat, high: bool, e: LRUHandle)
    ensures forall x | x in Joined(chain, low, high, e) :: x in chain || x == e
  {
  }

  lemma OneLess(held: multiset<LRUHandle>, h: LRUHandle)
    requires h in held
    ensures held[h := 0][h := held[h] - 1] == held - multiset{h} &&
            (held[h] == 1 ==> held[h := 0] == held - multiset{h})
    ensures h in held - multiset{h} <==> held[h] > 1
  {
  }

  lemma PutBack(held: multiset<LRUHandle>, h: LRUHandle)
    ensures held[h := 0][h := held[h]] == held && (held[h] == 0 ==> held[h := 0] == held) &&
            (h in held <==> held[h] > 0)
  {
  }

  lemma RemoveAt(lru: LRUHandle, chain: seq<LRUHandle>, i: nat)
    requires Linked([lru] + chain) && i < |chain|
    ensures Distinct([lru] + chain)
    ensures Without(chain, chain[i]) == chain[..i] + chain[i + 1..] && chain[i] !in Without(chain, chain[i])
  {
    hide Linked, Without, Distinct;
    RingAt(lru, chain, i);
    DistinctFirst(chain, i);
    DistinctRemove(chain, i);
  }

  lemma RingWithout(lru: LRUHandle, chain: seq<LRUHandle>, i: nat)
    requires i < |chain|
    ensures var ring := [lru] + chain;
            ring[i + 1] == chain[i] && ring[..i + 1] + ring[i + 2..] == [lru] + (chain[..i] + chain[i + 1..])
  {
  }

  lemma RingWith(lru: LRUHandle, chain: seq<LRUHandle>, i: nat, e: LRUHandle)
    requires i <= |chain|
    ensures var ring := [lru] + chain;
            ring[..i + 1] + [e] + ring[i + 1..] == [lru] + (chain[..i] + [e] + chain[i..])
  {
  }

  lemma RingEnds(lru: LRUHandle, chain: seq<LRUHandle>)
    requires Linked([lru] + chain)
    ensures if chain == [] then lru.next == lru else lru.next == chain[0] != lru
    ensures lru.prev == ([lru] + chain)[|chain|]
  {
    var ring := [lru] + chain;
    assert chain != [] ==> ring[0] != ring[1];
    assert ring[0].next == ring[Succ(0, |ring|)];
    assert ring[0].prev == ring[Pred(0, |ring|)];
  }

  /** Low-priority entries are the old end of the list, low of them, up to lowPri;
      highUsage is the charge of the rest. */
  ghost predicate Pooled(lru: LRUHandle, chain: seq<LRUHandle>, low: nat, lowPri: LRUHandle, highUsage: int)
    reads chain`inHighPriPool
  {
    && low <= |chain| && lowPri == ([lru] + chain)[low]
    && (forall i | 0 <= i < |chain| :: chain[i].inHighPriPool <==> i >= low)
    && highUsage == Charges(chain[low..])
  }

  function AfterRemoval(low: nat, i: nat): nat {
    if i < low then low - 1 else low
  }

  lemma RemovalCharges(chain: seq<LRUHandle>, low: nat, i: nat)
    requires i < |chain| && low <= |chain|
    ensures var rest := chain[..i] + chain[i + 1..];
            && Charges(rest) + chain[i].charge == Charges(chain)
            && Charges(chain[low..]) == Charges(rest[AfterRemoval(low, i)..]) + if i < low then 0 else chain[i].charge
  {
    ChargesRemove(chain, i);
    var rest := chain[..i] + chain[i + 1..];
    if i < low {
      assert rest[low - 1..] == chain[low..];
    } else {
      ChargesRemove(chain[low..], i - low);
      assert rest[low..] == chain[low..][..i - low] + chain[low..][i - low + 1..];
    }
  }

  lemma RemovalMark(lru: LRUHandle, chain: seq<LRUHandle>, low: nat, i: nat)
    requires Distinct([lru] + chain) && i < |chain| && low <= |chain|
    ensures var ring := [lru] + chain;
            var mark := if ring[low] == chain[i] then ring[i] else ring[low];
            mark == ([lru] + (chain[..i] + chain[i + 1..]))[AfterRemoval(low, i)]
  {
    assert ([lru] + chain)[i + 1] == chain[i];
  }

  lemma PooledRemove(lru: LRUHandle, chain: seq<LRUHandle>, low: nat, lowPri: LRUHandle, highUsage: int, i: nat)
    requires Pooled(lru, chain, low, lowPri, highUsage) && Distinct([lru] + chain) && i < |chain|
    ensures var e := chain[i];
            Pooled(lru, chain[..i] + chain[i + 1..], AfterRemoval(low, i),
                   if lowPri == e then ([lru] + chain)[i] else lowPri,
                   if e.inHighPriPool then highUsage - e.charge else highUsage)
  {
    hide Charges, Distinct;
    RemovalCharges(chain, low, i);
    RemovalMark(lru, chain, low, i);
  }

  lemma PooledHigh(lru: LRUHandle, chain: seq<LRUHandle>, low: nat, lowPri: LRUHandle, highUsage: int, e: LRUHandle)
    requires Pooled(lru, chain, low, lowPri, highUsage) && e.inHighPriPool
    ensures Charges(chain + [e]) == Charges(chain) + e.charge
    ensures Pooled(lru, chain + [e], low, lowPri, highUsage + e.charge)
  {
    ChargesConcat(chain, [e]);
    ChargesConcat(chain[low..], [e]);
    assert (chain + [e])[low..] == chain[low..] + [e];
  }

  lemma PooledLow(lru: LRUHandle, chain: seq<LRUHandle>, low: nat, lowPri: LRUHandle, highUsage: int, e: LRUHandle)
    requires Pooled(lru, chain, low, lowPri, highUsage) && !e.inHighPriPool
    ensures var longer := chain[..low] + [e] + chain[low..];
            Charges(longer) == Charges(chain) + e.charge && Pooled(lru, longer, low + 1, e, highUsage)
  {
    ChargesInsert(chain, low, e);
    var longer := chain[..low] + [e] + chain[low..];
    assert longer[low + 1..] == chain[low..];
  }

  /** How many of the oldest entries have to go to bring usage down to the capacity. */
  function Evictions(chain: seq<LRUHandle>, usage: int, capacity: nat): nat {
    if usage <= capacity || chain == [] then 0 else 1 + Evictions(chain[1..], usage - chain[0].charge, capacity)
  }

  lemma {:induction false} EvictionsMade(c0: seq<LRUHandle>, usage: int, capacity: nat, gone: seq<LRUHandle>,
                                         rest: seq<LRUHandle>)
    requires c0 == gone + rest && (usage - Charges(gone) > capacity ==> rest == [])
    requires gone != [] ==> usage - Charges(gone) + gone[|gone| - 1].charge > capacity
    ensures Evictions(c0, usage, capacity) == |gone|
  {
    if gone != [] {
      ChargesSplit(gone, |gone| - 1);
      ChargesOne(gone[|gone| - 1]);
      assert gone[|gone| - 1..] == [gone[|gone| - 1]];
      assert c0[1..] == gone[1..] + rest;
      EvictionsMade(c0[1..], usage - c0[0].charge, capacity, gone[1..], rest);
    }
  }

  ghost predicate HighFrom(chain: seq<LRUHandle>, low: nat)
    reads chain`inHighPriPool
  {
    low <= |chain| && forall i | 0 <= i < |chain| :: chain[i].inHighPriPool <==> i >= low
  }

  /** The charge of the high-priority entries left when the n oldest entries are gone. */
  function HighLeft(chain: seq<LRUHandle>, low: nat, n: nat): nat
  {
    var from := if n > low then n else low;
    if from <= |chain| then Charges(chain[from..]) else 0
  }

  lemma HighBefore(lru: LRUHandle, chain: seq<LRUHandle>, low: nat, lowPri: LRUHandle, highUsage: int)
    requires Pooled(lru, chain, low, lowPri, highUsage)
    ensures HighFrom(chain, low)
  {
  }

  lemma HighAfter(lru: LRUHandle, c0: seq<LRUHandle>, low0: nat, gone: seq<LRUHandle>, chain: seq<LRUHandle>, low: nat,
                  lowPri: LRUHandle, highUsage: int)
    requires c0 == gone + chain && HighFrom(c0, low0) && Pooled(lru, chain, low, lowPri, highUsage)
    ensures highUsage == HighLeft(c0, low0, |gone|)
  {
    hide Charges;
    LowAfter(lru, c0, low0, gone, chain, low, lowPri, highUsage);
    assert chain[low..] == c0[|gone| + low..];
  }

  lemma LowAfter(lru: LRUHandle, c0: seq<LRUHandle>, low0: nat, gone: seq<LRUHandle>, chain: seq<LRUHandle>, low: nat,
                 lowPri: LRUHandle, highUsage: int)
    requires c0 == gone + chain && HighFrom(c0, low0) && Pooled(lru, chain, low, lowPri, highUsage)
    ensures |gone| + low == if |gone| > low0 then |gone| else low0
  {
    hide Charges;
    var n := |gone|;
    if low < |chain| {
      assert chain[low] == c0[n + low];
    }
    if low > 0 {
      assert chain[low - 1] == c0[n + low - 1];
    }
  }

  lemma AllDistinct(s: seq<LRUHandle>, i: nat)
    requires Distinct(s) && i < |s|
    ensures forall j | 0 <= j < |s| && j != i :: s[j] != s[i]
  {
  }

  lemma PooledShift(lru: LRUHandle, chain: seq<LRUHandle>, low: nat, lowPri: LRUHandle, highUsage: int)
    requires Pooled(lru, chain, low, lowPri, highUsage) && highUsage > 0
    ensures low < |chain| && highUsage - chain[low].charge == Charges(chain[low + 1..])
  {
    assert Charges(chain[|chain|..]) == 0;
    assert chain[low..][1..] == chain[low + 1..];
  }

  // ---- who refers to which entry ----------------------------------------------------

  ghost predicate Mapped(h: LRUHandle, m: Contents) {
    h.Id() in m && m[h.Id()] == h
  }

  /** An entry on the list: in the table, and only the cache refers to it. */
  ghost predicate Idle(h: LRUHandle, m: Contents)
    reads h`inCache, h`refs
  {
    h.inCache && h.refs == 1 && Mapped(h, m)
  }

  /** A live entry off the list: referred to from outside, and by the cache exactly
      while it is in the table. */
  ghost predicate Pinned(h: LRUHandle, held: multiset<LRUHandle>, m: Contents)
    reads h`inCache, h`refs, h`next, h`prev
  {
    && h in held && h.refs == held[h] + (if h.inCache then 1 else 0)
    && h.next == null && h.prev == null && (h.inCache <==> Mapped(h, m))
  }

  /** Entries on the list are idle, the other live ones pinned; the table maps live
      entries only; no entry is in two places and no freed entry is in any. */
  ghost predicate Sound(lru: LRUHandle, chain: seq<LRUHandle>, pinned: seq<LRUHandle>,
                        held: multiset<LRUHandle>, freed: set<LRUHandle>, m: Contents)
    reads chain`inCache, chain`refs, pinned`inCache, pinned`refs, pinned`next, pinned`prev
  {
    && (forall h | h in chain :: Idle(h, m) && h != lru)
    && (forall h | h in pinned :: Pinned(h, held, m) && h !in chain && h != lru)
    && Distinct(pinned) && Distinct(chain) && (forall h | h in held :: h in pinned)
    && (forall h | h in freed :: h !in chain && h !in pinned)
    && (forall id | id in m :: m[id].Id() == id && (m[id] in chain || m[id] in pinned))
  }

  lemma {:induction false} WithoutMembers(s: seq<LRUHandle>, e: LRUHandle)
    requires Distinct(s)
    ensures Distinct(Without(s, e)) && forall h :: h in Without(s, e) <==> h in s && h != e
  {
    if e in s {
      var i :| 0 <= i < |s| && s[i] == e;
      DistinctFirst(s, i);
    } else {
      WithoutNone(s, e);
    }
  }

  lemma {:induction false} WithoutNone(s: seq<LRUHandle>, e: LRUHandle)
    requires e !in s
    ensures Without(s, e) == s
  {
    if s != [] {
      WithoutNone(s[1..], e);
    }
  }

  lemma StartsEmpty(lru: LRUHandle)
    ensures Sound(lru, [], [], multiset{}, {}, map[]) && Pooled(lru, [], 0, lru, 0)
  {
  }

  lemma NoneOnTheList(lru: LRUHandle, chain: seq<LRUHandle>, pinned: seq<LRUHandle>,
                      held: multiset<LRUHandle>, freed: set<LRUHandle>, m: Contents)
    requires Sound(lru, chain, pinned, held, freed, m)
    ensures forall i | 0 <= i < |pinned| :: pinned[i] !in [lru] + chain
    ensures forall i | 0 <= i < |[lru] + chain| :: ([lru] + chain)[i] !in pinned
  {
    assert forall i | 0 <= i < |pinned| :: pinned[i] in pinned;
    assert forall i | 0 <= i < |chain| :: chain[i] in chain;
  }

  lemma OffTheList(lru: LRUHandle, chain: seq<LRUHandle>, pinned: seq<LRUHandle>,
                   held: multiset<LRUHandle>, freed: set<LRUHandle>, m: Contents, e: LRUHandle)
    requires Linked([lru] + chain) && Sound(lru, Without(chain, e), pinned, held, freed, m) && e in chain &&
             e !in pinned
    ensures forall i | 0 <= i < |pinned| :: pinned[i] !in [lru] + chain
    ensures forall i | 0 <= i < |[lru] + chain| :: ([lru] + chain)[i] !in pinned
  {
    assert chain == ([lru] + chain)[1..];
    WithoutMembers(chain, e);
    assert forall i | 0 <= i < |pinned| :: pinned[i] in pinned;
    assert forall i | 0 <= i < |chain| :: chain[i] in chain;
  }

  lemma TakeIdle(lru: LRUHandle, chain: seq<LRUHandle>, pinned: seq<LRUHandle>,
                 held: multiset<LRUHandle>, freed: set<LRUHandle>, m: Contents, e: LRUHandle)
    requires Sound(lru, chain, pinned, held, freed, m) && e in chain
    ensures Idle(e, m) && e != lru && e !in pinned && e !in held && e !in freed
    ensures e !in Without(chain, e) && Sound(lru, Without(chain, e), pinned, held, freed, m - {e.Id()})
  {
    WithoutMembers(chain, e);
    var rest, m' := Without(chain, e), m - {e.Id()};
    forall h | h in rest ensures Idle(h, m') && h != lru {
      assert Idle(h, m);
    }
    forall h | h in pinned ensures Pinned(h, held, m') && h !in rest && h != lru {
      assert Pinned(h, held, m);
    }
    forall id | id in m' ensures m'[id].Id() == id && (m'[id] in rest || m'[id] in pinned) {
    }
  }

  lemma TakePinned(lru: LRUHandle, chain: seq<LRUHandle>, pinned: seq<LRUHandle>,
                   held: multiset<LRUHandle>, freed: set<LRUHandle>, m: Contents, e: LRUHandle)
    requires Sound(lru, chain, pinned, held, freed, m) && e in pinned
    ensures Pinned(e, held, m) && e !in chain && e !in freed && e != lru
    ensures e !in Without(pinned, e)
    ensures Sound(lru, chain, Without(pinned, e), held[e := 0], freed, if e.inCache then m - {e.Id()} else m)
  {
    WithoutMembers(pinned, e);
    var rest, m' := Without(pinned, e), if e.inCache then m - {e.Id()} else m;
    forall h | h in chain ensures Idle(h, m') && h != lru {
      assert Idle(h, m);
    }
    forall h | h in rest ensures Pinned(h, held[e := 0], m') && h !in chain && h != lru {
      assert Pinned(h, held, m);
    }
    forall id | id in m' ensures m'[id].Id() == id && (m'[id] in chain || m'[id] in rest) {
    }
  }

  lemma PutIdle(lru: LRUHandle, chain: seq<LRUHandle>, pinned: seq<LRUHandle>,
                held: multiset<LRUHandle>, freed: set<LRUHandle>, m: Contents, e: LRUHandle, i: nat)
    requires Sound(lru, chain, pinned, held, freed, m) && i <= |chain|
    requires e !in chain && e !in pinned && e !in freed && e != lru && e.inCache && e.refs == 1 && e.Id() !in m
    ensures Sound(lru, chain[..i] + [e] + chain[i..], pinned, held, freed, m[e.Id() := e])
  {
    DistinctInsert(chain, i, e);
    var longer := chain[..i] + [e] + chain[i..];
    assert longer[i] == e;
    assert chain == chain[..i] + chain[i..];
    assert forall h :: h in longer <==> h in chain || h == e;
  }

  lemma PutJoined(lru: LRUHandle, chain: seq<LRUHandle>, pinned: seq<LRUHandle>, held: multiset<LRUHandle>,
                  freed: set<LRUHandle>, m: Contents, e: LRUHandle, low: nat, high: bool)
    requires Sound(lru, chain, pinned, held, freed, m) && low <= |chain|
    requires e !in chain && e !in pinned && e !in freed && e != lru && e.inCache && e.refs == 1 && e.Id() !in m
    ensures Sound(lru, Joined(chain, low, high, e), pinned, held, freed, m[e.Id() := e])
  {
    hide Sound;
    PutIdle(lru, chain, pinned, held, freed, m, e, if high then |chain| else low);
    assert chain[..|chain|] + [e] + chain[|chain|..] == chain + [e];
  }

  lemma PutPinned(lru: LRUHandle, chain: seq<LRUHandle>, pinned: seq<LRUHandle>, held: multiset<LRUHandle>,
                  freed: set<LRUHandle>, m: Contents, e: LRUHandle, n: nat)
    requires Sound(lru, chain, pinned, held, freed, m)
    requires e !in chain && e !in pinned && e !in freed && e != lru && e.next == null && e.prev == null
    requires n > 0 && e.refs == n + (if e.inCache then 1 else 0)
    requires if e.inCache then e.Id() !in m else !Mapped(e, m)
    ensures Sound(lru, chain, pinned + [e], held[e := n], freed, if e.inCache then m[e.Id() := e] else m)
  {
  }

  lemma PutFreed(lru: LRUHandle, chain: seq<LRUHandle>, pinned: seq<LRUHandle>,
                 held: multiset<LRUHandle>, freed: set<LRUHandle>, m: Contents, e: LRUHandle)
    requires Sound(lru, chain, pinned, held, freed, m) && e !in chain && e !in pinned
    ensures Sound(lru, chain, pinned, held, freed + {e}, m)
  {
  }

  function PoolCapacity(capacity: nat, ratio: real): (r: real)
    requires ratio >= 0.0
    ensures r >= 0.0
  {
    capacity as real * ratio
  }

  class LRUCacheShard {
    const lru: LRUHandle               // dummy head: next is the oldest entry, prev the newest
    const table: LRUHandleTable
    var lowPri: LRUHandle              // lru_low_pri_
    var capacity: nat
    var strict: bool                   // strict_capacity_limit_
    var ratio: real                    // high_pri_pool_ratio_
    var highCapacity: real             // high_pri_pool_capacity_
    var usage: int
    var lruUsage: int
    var highUsage: int                 // high_pri_pool_usage_
    ghost var chain: seq<LRUHandle>    // the LRU list from oldest to newest
    ghost var low: nat                 // how many of them are in the low-priority pool
    ghost var pinned: seq<LRUHandle>   // the live entries off the list
    ghost var held: multiset<LRUHandle>// one per reference held outside the cache
    ghost var freed: set<LRUHandle>    // what Free was called on

    ghost function Ring(): seq<LRUHandle>
      reads this`chain
    {
      [lru] + chain
    }

    ghost predicate Pools()
      reads this`chain, this`low, this`lowPri, this`highUsage, chain`inHighPriPool
    {
      Pooled(lru, chain, low, lowPri, highUsage)
    }

    ghost predicate ListValid()
      reads this`chain, this`low, this`lowPri, this`highUsage, this`lruUsage
      reads lru`next, lru`prev, chain`next, chain`prev, chain`inHighPriPool
    {
      Linked(Ring()) && Pools() && lruUsage == Charges(chain)
    }

    ghost predicate Counted()
      reads this`usage, this`lruUsage, this`pinned, this`capacity, this`ratio, this`highCapacity
    {
      usage == lruUsage + Charges(pinned) && ratio >= 0.0 && highCapacity == PoolCapacity(capacity, ratio)
    }

    ghost predicate Core()
      reads this, lru, chain, pinned, table, table.list
    {
      ListValid() && table.Valid() && Counted() && Sound(lru, chain, pinned, held, freed, table.contents)
    }

    /** The high-priority pool is within its share of the capacity. */
    ghost predicate PoolFits()
      reads this`highUsage, this`highCapacity
    {
      highUsage as real <= highCapacity
    }

    /** The invariant between calls: over capacity, nothing evictable is left. */
    ghost predicate Valid()
      reads this, lru, chain, pinned, table, table.list
    {
      Core() && (usage > capacity ==> chain == [])
    }

    constructor (capacity: nat, strict: bool, ratio: real)
      requires ratio >= 0.0
      ensures Valid() && chain == [] && pinned == [] && table.contents == map[] && held == multiset{} && freed == {}
      ensures this.capacity == capacity && this.strict == strict && this.ratio == ratio && usage == 0 && PoolFits()
      ensures fresh(lru) && fresh(table) && fresh(table.list)
    {
      hide LRUHandleTable.Valid, Sound, Pooled, PoolCapacity;
      this.capacity, this.strict, this.ratio := capacity, strict, ratio;
      this.highCapacity := PoolCapacity(capacity, ratio);
      usage, lruUsage, highUsage, chain, low := 0, 0, 0, [], 0;
      pinned, held, freed := [], multiset{}, {};
      var dummy := new LRUHandle(0, 0, 0, false, 0);
      var empty := new LRUHandleTable();
      lru, lowPri, table := dummy, dummy, empty;
      new;
      lru.next, lru.prev := lru, lru;
      StartsEmpty(lru);
    }

    /** The accounting side of LRU_Remove, for entry i of the list. */
    method LeavePools(ghost i: nat, e: LRUHandle, before: LRUHandle)
      requires Distinct(Ring()) && Pools() && lruUsage == Charges(chain)
      requires i < |chain| && chain[i] == e && before == Ring()[i]
      modifies this`lowPri, this`lruUsage, this`highUsage, this`chain, this`low
      ensures Pools() && lruUsage == Charges(chain) == old(lruUsage) - e.charge
      ensures chain == old(chain[..i] + chain[i + 1..]) && highUsage <= old(highUsage)
    {
      hide Charges, Distinct, Pooled;
      RemovalCharges(chain, 0, i);
      PooledRemove(lru, chain, low, lowPri, highUsage, i);
      if lowPri == e {
        lowPri := before;
      }
      lruUsage := lruUsage - e.charge;
      if e.inHighPriPool {
        highUsage := highUsage - e.charge;
      }
      low := AfterRemoval(low, i);
      chain := chain[..i] + chain[i + 1..];
    }

    /** The pointer side of LRU_Remove. */
    method UnlinkAt(ghost i: nat, e: LRUHandle) returns (before: LRUHandle)
      requires Linked(Ring()) && i < |chain| && chain[i] == e
      modifies Ring()`next, Ring()`prev
      ensures Linked([lru] + (chain[..i] + chain[i + 1..])) && before == Ring()[i] && e.next == null && e.prev == null
    {
      hide Linked, Distinct;
      RingAt(lru, chain, i);
      RingWithout(lru, chain, i);
      before := e.prev;
      Unlink([lru] + chain, i + 1, e);
    }

    method LRU_Remove(e: LRUHandle)
      requires ListValid() && e in chain
      modifies this`lowPri, this`lruUsage, this`highUsage, this`chain, this`low
      modifies Ring()`next, Ring()`prev
      ensures ListValid() && e.next == null && e.prev == null
      ensures chain == Without(old(chain), e) && e !in chain && lruUsage == old(lruUsage) - e.charge
      ensures highUsage <= old(highUsage)
    {
      hide Linked, Charges, Without, Distinct, Pooled;
      ghost var i :| 0 <= i < |chain| && chain[i] == e;
      RemoveAt(lru, chain, i);
      var before := UnlinkAt(i, e);
      LeavePools(i, e, before);
    }

    /** The oldest high-priority entry becomes the newest low-priority one. */
    method OverflowOne()
      requires Linked(Ring()) && Pools() && highUsage > 0
      modifies this`lowPri, this`highUsage, this`low, chain`inHighPriPool
      ensures Linked(Ring()) && Pools() && low == old(low) + 1 <= |chain| &&
              highUsage == old(highUsage) - chain[low - 1].charge
    {
      hide Linked, Distinct, Charges;
      PooledShift(lru, chain, low, lowPri, highUsage);
      RingAt(lru, chain, low);
      AllDistinct(chain, low);
      lowPri := lowPri.next;
      assert lowPri != lru;
      lowPri.inHighPriPool := false;
      highUsage := highUsage - lowPri.charge;
      low := low + 1;
    }

    /** Overflow the oldest high-priority entries into the low-priority pool. The
        dummy head is never reached. */
    method MaintainPoolSize()
      requires Linked(Ring()) && Pools() && highCapacity >= 0.0
      modifies this`lowPri, this`highUsage, this`low, chain`inHighPriPool
      ensures Linked(Ring()) && Pools() && PoolFits() && old(low) <= low <= |chain|
      ensures if low == old(low) then highUsage == old(highUsage)
              else !old(PoolFits()) && (highUsage + chain[low - 1].charge) as real > highCapacity
    {
      hide Linked;
      PooledAt(lru, chain, low, lowPri, highUsage);
      hide Pooled;
      while highUsage as real > highCapacity
        invariant Linked(Ring()) && Pools() && old(low) <= low <= |chain|
        invariant if low == old(low) then highUsage == old(highUsage)
                  else !old(PoolFits()) && (highUsage + chain[low - 1].charge) as real > highCapacity
        decreases |chain| - low
      {
        OverflowOne();
      }
    }

    method PushHigh(e: LRUHandle)
      requires Linked(Ring()) && Pools() && highCapacity >= 0.0 && e !in Ring()
      modifies this`lowPri, this`highUsage, this`chain, this`low
      modifies Ring()`next, Ring()`prev, chain`inHighPriPool, e`next, e`prev, e`inHighPriPool
      ensures Linked(Ring()) && Pools() && PoolFits()
      ensures chain == old(chain) + [e] && Charges(chain) == Charges(old(chain)) + e.charge
      ensures (old(highUsage) + e.charge) as real <= highCapacity ==> highUsage == old(highUsage) + e.charge
    {
      hide Linked, Distinct, Charges, Pooled;
      RingEnds(lru, chain);
      RingWith(lru, chain, |chain|, e);
      assert chain[..|chain|] + [e] + chain[|chain|..] == chain + [e];
      LinkAfter([lru] + chain, |chain|, lru.prev, e);
      e.inHighPriPool := true;
      PooledHigh(lru, chain, low, lowPri, highUsage, e);
      highUsage := highUsage + e.charge;
      chain := chain + [e];
      MaintainPoolSize();
    }

    method PushLow(e: LRUHandle)
      requires Linked(Ring()) && Pools() && e !in Ring()
      modifies this`lowPri, this`chain, this`low
      modifies Ring()`next, Ring()`prev, e`next, e`prev, e`inHighPriPool
      ensures Linked(Ring()) && Pools()
      ensures old(low) <= |old(chain)| && chain == old(chain[..low] + [e] + chain[low..])
      ensures Charges(chain) == Charges(old(chain)) + e.charge
    {
      hide Linked, Distinct, Charges, Pooled;
      PooledAt(lru, chain, low, lowPri, highUsage);
      RingWith(lru, chain, low, e);
      LinkAfter([lru] + chain, low, lowPri, e);
      e.inHighPriPool := false;
      PooledLow(lru, chain, low, lowPri, highUsage, e);
      lowPri := e;
      chain := chain[..low] + [e] + chain[low..];
      low := low + 1;
    }

    predicate GoesHigh(e: LRUHandle)
      reads this`ratio, e`hasHit
    {
      ratio > 0.0 && (e.highPri || e.hasHit)
    }

    /** A high-priority entry that fits into its pool stays there. */
    twostate predicate PoolGrows(e: LRUHandle)
      reads this`highUsage, this`highCapacity, this`ratio, e`hasHit
    {
      GoesHigh(e) && (old(highUsage) + e.charge) as real <= highCapacity ==> highUsage == old(highUsage) + e.charge
    }

    /** New or released entries go to the new end of their pool. */
    method LRU_Insert(e: LRUHandle)
      requires ListValid() && highCapacity >= 0.0 && e !in Ring()
      modifies this`lowPri, this`lruUsage, this`highUsage, this`chain, this`low
      modifies Ring()`next, Ring()`prev, chain`inHighPriPool, e`next, e`prev, e`inHighPriPool
      ensures ListValid() && lruUsage == old(lruUsage) + e.charge
      ensures chain == Joined(old(chain), old(low), GoesHigh(e), e)
      ensures GoesHigh(e) || old(PoolFits()) ==> PoolFits()
      ensures PoolGrows(e)
    {
      hide Linked, Distinct, Charges, Pooled;
      PooledAt(lru, chain, low, lowPri, highUsage);
      if GoesHigh(e) {
        PushHigh(e);
      } else {
        PushLow(e);
      }
      lruUsage := lruUsage + e.charge;
    }

    // ---- entries leaving and joining the list ----------------------------------------

    /** LRU_Remove, when the other entries are in order without e. */
    method Detach(e: LRUHandle, ghost m: Contents)
      requires ListValid() && e in chain && e !in pinned
      requires Sound(lru, Without(chain, e), pinned, held, freed, m)
      modifies this`lowPri, this`lruUsage, this`highUsage, this`chain, this`low
      modifies Ring()`next, Ring()`prev
      ensures ListValid() && chain == Without(old(chain), e) && lruUsage == old(lruUsage) - e.charge
      ensures Sound(lru, chain, pinned, held, freed, m) && e !in chain && e.next == null && e.prev == null
      ensures highUsage <= old(highUsage)
    {
      hide Linked, Distinct, Charges, Pooled, Sound;
      OffTheList(lru, chain, pinned, held, freed, m, e);
      ghost var rest := Without(chain, e);
      assert Sound(lru, rest, pinned, held, freed, m);
      LRU_Remove(e);
      assert Sound(lru, rest, pinned, held, freed, m);
    }

    /** LRU_Insert of an entry that has become idle. */
    method Attach(e: LRUHandle)
      requires ListValid() && highCapacity >= 0.0 && Idle(e, table.contents)
      requires Sound(lru, chain, pinned, held, freed, table.contents - {e.Id()})
      requires e != lru && e !in chain && e !in pinned && e !in freed
      modifies this`lowPri, this`lruUsage, this`highUsage, this`chain, this`low
      modifies Ring()`next, Ring()`prev, chain`inHighPriPool, e`next, e`prev, e`inHighPriPool
      ensures ListValid() && Sound(lru, chain, pinned, held, freed, table.contents)
      ensures lruUsage == old(lruUsage) + e.charge
      ensures chain == Joined(old(chain), old(low), GoesHigh(e), e)
      ensures GoesHigh(e) || old(PoolFits()) ==> PoolFits()
      ensures PoolGrows(e)
    {
      hide Linked, Distinct, Charges, Pooled, Sound;
      ghost var m := table.contents - {e.Id()};
      ghost var before, at := chain, low;
      PooledAt(lru, chain, low, lowPri, highUsage);
      NoneOnTheList(lru, chain, pinned, held, freed, m);
      LRU_Insert(e);
      assert Sound(lru, before, pinned, held, freed, m);
      PutJoined(lru, before, pinned, held, freed, m, e, at, GoesHigh(e));
      assert m[e.Id() := e] == table.contents;
    }

    /** The cache gives up its reference to a detached entry nobody else refers to. */
    method Retire(e: LRUHandle)
      requires ListValid() && table.Valid() && Sound(lru, chain, pinned, held, freed, table.contents - {e.Id()})
      requires Idle(e, table.contents) && e != lru && e !in chain && e !in pinned
      modifies this`usage, e`inCache, e`refs, table`elems, table`contents, table.list
      ensures ListValid() && table.Valid() && Sound(lru, chain, pinned, held, freed, table.contents)
      ensures table.contents == old(table.contents) - {e.Id()} && usage == old(usage) - e.charge
      ensures e.refs == 0 && !e.inCache
    {
      hide Linked, Charges, Pooled, Sound, LRUHandleTable.Valid;
      ghost var m := table.contents - {e.Id()};
      var _ := table.Remove(e.Id());
      assert table.contents == m;
      assert Sound(lru, chain, pinned, held, freed, m);
      e.inCache := false;
      e.refs := e.refs - 1;
      assert Sound(lru, chain, pinned, held, freed, m);
      usage := usage - e.charge;
    }

    /** Call the deleter and free the memory: legal once per entry, when nobody but
        possibly the cache that never published it refers to it. */
    method Free(e: LRUHandle)
      requires (e.refs == 1 && e.inCache) || (e.refs == 0 && !e.inCache)
      requires Core() && e !in chain && e !in pinned && e !in freed
      modifies this`freed
      ensures Core() && freed == old(freed) + {e}
    {
      hide Linked, Charges, Pooled, Sound, PoolCapacity, LRUHandleTable.Valid;
      PutFreed(lru, chain, pinned, held, freed, table.contents, e);
      freed := freed + {e};
    }

    // ---- eviction ------------------------------------------------------------------

    /** Takes the oldest idle entry out of the list and the table. */
    method DropOldest() returns (e: LRUHandle)
      requires Core() && chain != []
      modifies this`lowPri, this`lruUsage, this`highUsage, this`chain, this`low, this`usage
      modifies Ring()`next, Ring()`prev, chain`refs, chain`inCache, table`elems, table`contents, table.list
      ensures Core() && e == old(chain)[0] && chain == old(chain)[1..]
      ensures table.contents == old(table.contents) - {e.Id()} && usage == old(usage) - e.charge
      ensures e.refs == 0 && !e.inCache && e !in chain && e !in freed && e !in pinned
      ensures highUsage <= old(highUsage)
    {
      hide Linked, Distinct, Charges, Pooled, Sound, PoolCapacity, LRUHandleTable.Valid, Without, Mapped;
      RingEnds(lru, chain);
      e := lru.next;
      WithoutFirst(chain);
      TakeIdle(lru, chain, pinned, held, freed, table.contents, e);
      Detach(e, table.contents - {e.Id()});
      Retire(e);
    }

    /** Eviction has taken deleted off the old end of list c0. */
    ghost predicate Evicted(c0: seq<LRUHandle>, m0: Contents, u0: int, charge: nat, deleted: seq<LRUHandle>)
      reads this`chain, this`pinned, this`usage, this`capacity, table`contents, deleted`refs, deleted`inCache
    {
      && c0 == deleted + chain && usage == u0 - Charges(deleted) && table.contents == Drop(m0, deleted)
      && (deleted != [] ==> usage + deleted[|deleted| - 1].charge + charge > capacity)
      && Dead(deleted) && Distinct(deleted) && (forall h | h in deleted :: h !in chain && h !in pinned)
    }

    method EvictOne(ghost c0: seq<LRUHandle>, ghost m0: Contents, ghost u0: int, ghost charge: nat,
                    deleted: seq<LRUHandle>)
      returns (r: seq<LRUHandle>)
      requires Core() && chain != [] && Evicted(c0, m0, u0, charge, deleted) && usage + charge > capacity
      modifies this`lowPri, this`lruUsage, this`highUsage, this`chain, this`low, this`usage
      modifies ([lru] + c0)`next, ([lru] + c0)`prev, c0`refs, c0`inCache, table`elems, table`contents, table.list
      ensures Core() && Evicted(c0, m0, u0, charge, r) && |chain| < old(|chain|)
      ensures highUsage <= old(highUsage)
      ensures r != []
    {
      hide Linked, Pooled, Sound, PoolCapacity, LRUHandleTable.Valid, Drop, Charges;
      Suffix(lru, c0, chain, deleted);
      DropOne(lru, chain, pinned, held, freed, table.contents, m0, deleted);
      var e := DropOldest();
      ChargesConcat(deleted, [e]);
      ChargesOne(e);
      assert Dead(deleted);
      r := deleted + [e];
    }

    /** The oldest entries go, until the charge fits or none is left, and not one more than
        needed. */
    method EvictFromLRU(charge: nat) returns (deleted: seq<LRUHandle>)
      requires Core()
      modifies this`lowPri, this`lruUsage, this`highUsage, this`chain, this`low, this`usage
      modifies Ring()`next, Ring()`prev, chain`refs, chain`inCache, table`elems, table`contents, table.list
      ensures Core() && Evicted(old(chain), old(table.contents), old(usage), charge, deleted)
      ensures usage + charge <= capacity || chain == []
      ensures usage - lruUsage == old(usage - lruUsage)
      ensures forall h | h in deleted :: h !in freed
      ensures highUsage <= old(highUsage)
      ensures deleted == [] ==> highUsage == old(highUsage)
    {
      hide Linked, Pooled, Sound, PoolCapacity, LRUHandleTable.Valid, Drop, LRUCacheShard.Evicted;
      NoneFreed(lru, chain, pinned, held, freed, table.contents);
      deleted := [];
      ghost var c0, m0, u0 := chain, table.contents, usage;
      NothingEvicted(charge);
      while usage + charge > capacity && lru.next != lru
        invariant Core() && Evicted(c0, m0, u0, charge, deleted)
        invariant highUsage <= old(highUsage) && (deleted == [] ==> highUsage == old(highUsage))
        decreases |chain|
      {
        RingEnds(lru, chain);
        deleted := EvictOne(c0, m0, u0, charge, deleted);
      }
      RingEnds(lru, chain);
      EvictedWas(c0, m0, u0, charge, deleted);
    }

    lemma NothingEvicted(charge: nat)
      ensures Evicted(chain, table.contents, usage, charge, [])
    {
    }

    lemma EvictedWas(c0: seq<LRUHandle>, m0: Contents, u0: int, charge: nat, deleted: seq<LRUHandle>)
      requires Evicted(c0, m0, u0, charge, deleted)
      ensures forall h | h in deleted :: h in c0
    {
    }

    // ---- the operations --------------------------------------------------------------

    /** Free what was evicted, outside the mutex in the source. */
    method FreeAll(list: seq<LRUHandle>)
      requires Core() && Freeable(list)
      modifies this`freed
      ensures Core() && freed == old(freed) + set h | h in list
    {
      hide LRUCacheShard.Core;
      for i := 0 to |list|
        invariant Core() && freed == old(freed) + set h | h in list[..i]
      {
        assert list[i] !in list[..i];
        Free(list[i]);
        assert list[..i + 1] == list[..i] + [list[i]];
      }
      assert list[..|list|] == list;
    }

    /** What SetCapacity does under the mutex. */
    method Resize(capacity: nat) returns (gone: seq<LRUHandle>)
      requires Valid()
      modifies this`capacity, this`highCapacity
      modifies this`lowPri, this`lruUsage, this`highUsage, this`chain, this`low, this`usage
      modifies Ring()`next, Ring()`prev, chain`refs, chain`inCache, table`elems, table`contents, table.list
      ensures Core() && this.capacity == capacity && highCapacity == PoolCapacity(capacity, ratio)
      ensures Evicted(old(chain), old(table.contents), old(usage), 0, gone) && (usage > capacity ==> chain == [])
      ensures forall h | h in gone :: h !in freed
      ensures usage - lruUsage == old(usage - lruUsage) && (if chain == [] then lruUsage == 0 else lruUsage >= 0)
      ensures highUsage == HighLeft(old(chain), old(low), |gone|) <= old(highUsage)
    {
      hide Linked, Pooled, Sound, PoolCapacity, LRUHandleTable.Valid, Drop, HighFrom, HighLeft, LRUCacheShard.Evicted;
      ghost var c0, m0, u0, low0 := chain, table.contents, usage, low;
      HighBefore(lru, chain, low, lowPri, highUsage);
      this.capacity := capacity;
      highCapacity := PoolCapacity(capacity, ratio);
      gone := EvictFromLRU(0);
      assert HighFrom(c0, low0);
      EvictedFront(c0, m0, u0, 0, gone);
      HighAfter(lru, c0, low0, gone, chain, low, lowPri, highUsage);
      if chain == [] {
        EmptyListIsFree();
      }
    }

    lemma EvictedFront(c0: seq<LRUHandle>, m0: Contents, u0: int, charge: nat, gone: seq<LRUHandle>)
      requires Evicted(c0, m0, u0, charge, gone)
      ensures c0 == gone + chain
    {
    }

    lemma EvictedCount(c0: seq<LRUHandle>, m0: Contents, u0: int, gone: seq<LRUHandle>)
      requires Evicted(c0, m0, u0, 0, gone) && (usage > capacity ==> chain == [])
      ensures |gone| == Evictions(c0, u0, capacity)
    {
      EvictionsMade(c0, u0, capacity, gone, chain);
    }

    /** Shrinks to the new capacity: over it, nothing evictable is left. Exactly as many of the
        oldest entries go as it takes. What is in use alone decides whether usage is then
        within the capacity, and the high-priority entries left alone whether their pool is
        within its new share. */
    method SetCapacity(capacity: nat) returns (gone: seq<LRUHandle>)
      requires Valid()
      modifies this`capacity, this`highCapacity, this`freed
      modifies this`lowPri, this`lruUsage, this`highUsage, this`chain, this`low, this`usage
      modifies Ring()`next, Ring()`prev, chain`refs, chain`inCache, table`elems, table`contents, table.list
      ensures Valid() && this.capacity == capacity && freed == old(freed) + set h | h in gone
      ensures Evicted(old(chain), old(table.contents), old(usage), 0, gone)
      ensures |gone| == Evictions(old(chain), old(usage), capacity) && highUsage <= old(highUsage)
      ensures usage <= capacity <==> old(usage - lruUsage) <= capacity
      ensures PoolFits() <==> HighLeft(old(chain), old(low), |gone|) as real <= PoolCapacity(capacity, ratio)
    {
      hide Linked, Pooled, Sound, PoolCapacity, LRUHandleTable.Valid, Drop, Evictions, HighLeft, Charges;
      ghost var c0, m0, u0 := chain, table.contents, usage;
      gone := Resize(capacity);
      EvictedCount(c0, m0, u0, gone);
      FreeAll(gone);
    }

    /** Every idle entry off the list, oldest first. */
    method DropAll() returns (gone: seq<LRUHandle>)
      requires Core()
      modifies this`lowPri, this`lruUsage, this`highUsage, this`chain, this`low, this`usage
      modifies Ring()`next, Ring()`prev, chain`refs, chain`inCache, table`elems, table`contents, table.list
      ensures Core() && chain == [] && Evicted(old(chain), old(table.contents), old(usage), capacity + 1, gone)
      ensures forall h | h in gone :: h !in freed
      ensures highUsage <= old(highUsage)
    {
      hide Linked, Pooled, Sound, PoolCapacity, LRUHandleTable.Valid, Drop, LRUCacheShard.Evicted;
      NoneFreed(lru, chain, pinned, held, freed, table.contents);
      gone := [];
      ghost var c0, m0, u0, all := chain, table.contents, usage, capacity + 1;
      NothingEvicted(all);
      while lru.next != lru
        invariant Core() && Evicted(c0, m0, u0, all, gone) && highUsage <= old(highUsage)
        decreases |chain|
      {
        RingEnds(lru, chain);
        gone := EvictOne(c0, m0, u0, all, gone);
      }
      RingEnds(lru, chain);
      EvictedWas(c0, m0, u0, all, gone);
    }

    method EraseUnRefEntries() returns (gone: seq<LRUHandle>)
      requires Valid()
      modifies this`freed
      modifies this`lowPri, this`lruUsage, this`highUsage, this`chain, this`low, this`usage
      modifies Ring()`next, Ring()`prev, chain`refs, chain`inCache, table`elems, table`contents, table.list
      ensures Valid() && chain == [] && gone == old(chain) && freed == old(freed) + set h | h in gone
      ensures usage == old(usage) - Charges(gone) && table.contents == Drop(old(table.contents), gone) && Dead(gone)
      ensures highUsage <= old(highUsage)
    {
      hide Linked, Pooled, Sound, PoolCapacity, LRUHandleTable.Valid, Drop, LRUCacheShard.ListValid;
      gone := DropAll();
      FreeAll(gone);
    }

    method SetStrictCapacityLimit(strict: bool)
      requires Valid()
      modifies this`strict
      ensures Valid() && this.strict == strict
    {
      hide Linked, Pooled, Sound, PoolCapacity, LRUHandleTable.Valid, LRUCacheShard.ListValid, Charges;
      this.strict := strict;
    }

    method SetHighPriorityPoolRatio(ratio: real)
      requires Valid() && ratio >= 0.0
      modifies this`ratio, this`highCapacity, this`lowPri, this`highUsage, this`low, chain`inHighPriPool
      ensures Valid() && this.ratio == ratio && PoolFits() && low >= old(low)
    {
      hide Linked, Pooled, Sound, PoolCapacity, LRUHandleTable.Valid;
      this.ratio := ratio;
      highCapacity := PoolCapacity(capacity, ratio);
      MaintainPoolSize();
    }

    /** What the table maps besides h. */
    ghost function Others(h: LRUHandle): Contents
      reads h`inCache, table`contents
    {
      if h.inCache then table.contents - {h.Id()} else table.contents
    }

    /** Ghost: entry h is out of the bookkeeping while it is being changed. */
    ghost method Unpin(h: LRUHandle)
      requires Sound(lru, chain, pinned, held, freed, table.contents) && h in pinned
      modifies this`pinned, this`held
      ensures Pinned(h, old(held), table.contents) && h != lru && h !in chain && h !in pinned && h !in freed
      ensures held == old(held)[h := 0] && Charges(pinned) == Charges(old(pinned)) - h.charge
      ensures Sound(lru, chain, pinned, held, freed, Others(h))
      ensures forall x | x in pinned :: x in old(pinned)
    {
      hide Sound;
      WithoutSubset(pinned, h);
      TakePinned(lru, chain, pinned, held, freed, table.contents, h);
      ChargesWithout(pinned, h);
      pinned := Without(pinned, h);
      held := held[h := 0];
    }

    /** Ghost: entry h is back, with n references from outside. */
    ghost method Pin(h: LRUHandle, n: nat, m: Contents)
      requires Sound(lru, chain, pinned, held, freed, m)
      requires h != lru && h !in chain && h !in pinned && h !in freed && h.next == null && h.prev == null
      requires n > 0 && h.refs == n + (if h.inCache then 1 else 0)
      requires if h.inCache then h.Id() !in m else !Mapped(h, m)
      modifies this`pinned, this`held
      ensures Sound(lru, chain, pinned, held, freed, if h.inCache then m[h.Id() := h] else m)
      ensures pinned == old(pinned) + [h] && held == old(held)[h := n] &&
              Charges(pinned) == Charges(old(pinned)) + h.charge
    {
      hide Sound;
      PutPinned(lru, chain, pinned, held, freed, m, h, n);
      ChargesConcat(pinned, [h]);
      ChargesOne(h);
      pinned := pinned + [h];
      held := held[h := n];
    }

    ghost method Repin(h: LRUHandle, n: nat)
      requires Sound(lru, chain, pinned, held, freed, Others(h)) && (h.inCache <==> Mapped(h, table.contents))
      requires h != lru && h !in chain && h !in pinned && h !in freed && h.next == null && h.prev == null
      requires n > 0 && h.refs == n + (if h.inCache then 1 else 0)
      modifies this`pinned, this`held
      ensures Sound(lru, chain, pinned, held, freed, table.contents)
      ensures pinned == old(pinned) + [h] && held == old(held)[h := n] &&
              Charges(pinned) == Charges(old(pinned)) + h.charge
    {
      hide Sound, Charges;
      Pin(h, n, Others(h));
      assert h.inCache ==> Others(h)[h.Id() := h] == table.contents;
    }

    /** The first outside reference: the entry leaves the list. */
    method RefIdle(h: LRUHandle)
      requires Core() && h in chain
      modifies this`lowPri, this`lruUsage, this`highUsage, this`chain, this`low, this`pinned, this`held
      modifies Ring()`next, Ring()`prev, h`refs
      ensures Core() && held == old(held) + multiset{h} && chain == Without(old(chain), h)
      ensures h.refs == old(h.refs) + 1
      ensures highUsage <= old(highUsage)
    {
      hide Linked, Pooled, Sound, PoolCapacity, LRUHandleTable.Valid, Charges, Distinct, LRUCacheShard.ListValid,
           Without, Mapped;
      ghost var m := table.contents - {h.Id()};
      TakeIdle(lru, chain, pinned, held, freed, table.contents, h);
      Detach(h, m);
      h.refs := h.refs + 1;
      assert ListValid();
      assert Sound(lru, chain, pinned, held, freed, m);
      Repin(h, 1);
    }

    method RefPinned(h: LRUHandle)
      requires Core() && h in pinned
      modifies this`pinned, this`held, h`refs
      ensures Core() && held == old(held) + multiset{h} && h.refs == old(h.refs) + 1
    {
      hide Linked, Pooled, Sound, PoolCapacity, LRUHandleTable.Valid, Charges, Distinct, LRUCacheShard.ListValid;
      ghost var n := held[h];
      Unpin(h);
      h.refs := h.refs + 1;
      Repin(h, n + 1);
    }

    method Lookup(id: Ident) returns (h: LRUHandle?)
      requires Valid()
      modifies this`lowPri, this`lruUsage, this`highUsage, this`chain, this`low, this`pinned, this`held
      modifies Ring()`next, Ring()`prev, table.contents.Values`refs, table.contents.Values`hasHit
      ensures Valid() && h == if id in table.contents then table.contents[id] else null
      ensures if h == null then held == old(held) && chain == old(chain) && pinned == old(pinned)
              else held == old(held) + multiset{h} && chain == Without(old(chain), h) && h.hasHit
      ensures highUsage <= old(highUsage)
    {
      hide Linked, Pooled, Sound, PoolCapacity, LRUHandleTable.Valid, Charges, Distinct, Without;
      h := table.Lookup(id);
      if h != null {
        assert h in table.contents.Values;
        LiveInTable(lru, chain, pinned, held, freed, table.contents, h);
        assert h.inCache;
        if h.refs == 1 {
          RefIdle(h);
        } else {
          WithoutNone(chain, h);
          RefPinned(h);
        }
        h.hasHit := true;
      }
    }

    /** For a handle held outside, or an idle entry, which then leaves the list. */
    method Ref(h: LRUHandle) returns (ok: bool)
      requires Valid() && (h in held || h in chain)
      modifies this`lowPri, this`lruUsage, this`highUsage, this`chain, this`low, this`pinned, this`held
      modifies Ring()`next, Ring()`prev, h`refs
      ensures Valid() && ok && held == old(held) + multiset{h} && chain == Without(old(chain), h)
      ensures highUsage <= old(highUsage)
    {
      hide Linked, Pooled, Sound, PoolCapacity, LRUHandleTable.Valid, Charges, Distinct, Without;
      InUse(lru, chain, pinned, held, freed, table.contents, h);
      if h.inCache && h.refs == 1 {
        RefIdle(h);
      } else {
        WithoutNone(chain, h);
        RefPinned(h);
      }
      return true;
    }

    /** Only the cache still refers to h: drop it when the cache is full or on request,
        else put it on the list. */
    method Settle(h: LRUHandle, force: bool) returns (last: bool)
      requires ListValid() && table.Valid() && Sound(lru, chain, pinned, held, freed, table.contents - {h.Id()})
      requires Idle(h, table.contents) && h != lru && h !in chain && h !in pinned && h !in freed
      requires usage == lruUsage + Charges(pinned) + h.charge && (usage > capacity ==> chain == [])
      requires ratio >= 0.0 && highCapacity == PoolCapacity(capacity, ratio)
      modifies this`lowPri, this`lruUsage, this`highUsage, this`chain, this`low, this`usage
      modifies Ring()`next, Ring()`prev, chain`inHighPriPool, table`elems, table`contents, table.list
      modifies h`refs, h`inCache, h`next, h`prev, h`inHighPriPool
      ensures Valid() && (last <==> old(usage) > capacity || force)
      ensures usage == old(usage) - (if last then h.charge else 0)
      ensures table.contents == if last then old(table.contents) - {h.Id()} else old(table.contents)
      ensures last ==> h.refs == 0 && !h.inCache && h !in chain
      ensures chain == if last then old(chain) else Joined(old(chain), old(low), GoesHigh(h), h)
      ensures old(PoolFits()) ==> PoolFits()
      ensures !last ==> PoolGrows(h)
    {
      hide Linked, Pooled, Sound, PoolCapacity, LRUHandleTable.Valid, Charges, Distinct, Joined;
      last := usage > capacity || force;
      if last {
        RingEnds(lru, chain);
        assert usage > capacity ==> lru.next == lru;
        Retire(h);
      } else {
        Attach(h);
      }
    }

    /** Unref of an entry held outside, which is then out of the bookkeeping. */
    method Unref(h: LRUHandle) returns (zero: bool)
      requires Core() && h in held
      modifies this`pinned, this`held, h`refs
      ensures ListValid() && table.Valid() && Sound(lru, chain, pinned, held, freed, Others(h))
      ensures h != lru && h !in chain && h !in pinned && h !in freed && h.next == null && h.prev == null
      ensures held == old(held)[h := 0] && usage == lruUsage + Charges(pinned) + h.charge
      ensures h.refs + 1 == old(held)[h] + (if h.inCache then 1 else 0) && (h.inCache <==> Mapped(h, table.contents))
      ensures zero <==> h.refs == 0
    {
      hide Linked, Pooled, Sound, PoolCapacity, LRUHandleTable.Valid, Charges, Distinct, LRUCacheShard.ListValid;
      HeldIsPinned(lru, chain, pinned, held, freed, table.contents, h);
      Unpin(h);
      h.refs := h.refs - 1;
      zero := h.refs == 0;
    }

    /** The reference dropped was not the last but one to a cached entry: the entry stays
        pinned, or nobody refers to it any more. */
    method Leave(h: LRUHandle, ghost n: nat, zero: bool)
      requires ListValid() && table.Valid() && Sound(lru, chain, pinned, held, freed, Others(h))
      requires h != lru && h !in chain && h !in pinned && h !in freed && h.next == null && h.prev == null
      requires usage == lruUsage + Charges(pinned) + h.charge && ratio >= 0.0 &&
               highCapacity == PoolCapacity(capacity, ratio)
      requires h.refs == n + (if h.inCache then 1 else 0) && (h.inCache <==> Mapped(h, table.contents))
      requires (zero <==> h.refs == 0) && !(h.refs == 1 && h.inCache)
      modifies this`pinned, this`held, this`usage
      ensures Core() && held == (if zero then old(held) else old(held)[h := n]) && (zero ==> pinned == old(pinned))
      ensures usage == old(usage) - if zero then h.charge else 0
    {
      hide Linked, Pooled, Sound, PoolCapacity, LRUHandleTable.Valid, Charges, Distinct, LRUCacheShard.ListValid;
      if zero {
        usage := usage - h.charge;
      } else {
        Repin(h, n);
      }
    }

    /** What Release does under the mutex. */
    method DropRef(h: LRUHandle, force: bool) returns (last: bool)
      requires Valid() && h in held
      modifies this`lowPri, this`lruUsage, this`highUsage, this`chain, this`low, this`pinned, this`held, this`usage
      modifies Ring()`next, Ring()`prev, chain`inHighPriPool, table`elems, table`contents, table.list
      modifies h`refs, h`inCache, h`next, h`prev, h`inHighPriPool
      ensures Valid() && held == old(held) - multiset{h}
      ensures last <==> old(held)[h] == 1 && (!old(h.inCache) || old(usage) > capacity || force)
      ensures usage == old(usage) - (if last then h.charge else 0)
      ensures table.contents == if last && old(h.inCache) then old(table.contents) - {h.Id()} else old(table.contents)
      ensures last ==> h.refs == 0 && !h.inCache && h !in chain && h !in pinned && h !in freed
      ensures chain == if last || h in held then old(chain) else Joined(old(chain), old(low), GoesHigh(h), h)
      ensures old(PoolFits()) ==> PoolFits()
      ensures !last && h !in held ==> PoolGrows(h)
    {
      hide Linked, Pooled, Sound, PoolCapacity, LRUHandleTable.Valid, Charges, Distinct, Joined,
           LRUCacheShard.ListValid;
      ghost var n := held[h];
      OneLess(held, h);
      last := Unref(h);
      if h.refs == 1 && h.inCache {
        last := Settle(h, force);
      } else {
        Leave(h, n - 1, last);
      }
    }

    method Release(h: LRUHandle?, force: bool) returns (last: bool)
      requires Valid() && (h != null ==> h in held)
      modifies this`lowPri, this`lruUsage, this`highUsage, this`chain, this`low, this`pinned, this`held, this`usage
      modifies this`freed, Ring()`next, Ring()`prev, chain`inHighPriPool, table`elems, table`contents, table.list
      modifies if h == null then {} else {h}
      ensures Valid() && (h == null ==> !last && unchanged(this) && unchanged(table))
      ensures h != null ==>
        && held == old(held) - multiset{h} && freed == old(freed) + (if last then {h} else {})
        && (last <==> old(held)[h] == 1 && (!old(h.inCache) || old(usage) > capacity || force))
        && usage == old(usage) - (if last then h.charge else 0)
        && table.contents == (if last && old(h.inCache) then old(table.contents) - {h.Id()} else old(table.contents))
        && chain == (if last || h in held then old(chain) else Joined(old(chain), old(low), GoesHigh(h), h))
        && (!last && h !in held ==> PoolGrows(h))
      ensures old(PoolFits()) ==> PoolFits()
    {
      hide LRUCacheShard.Core;
      if h == null {
        return false;
      }
      last := DropRef(h, force);
      if last {
        Free(h);
      }
    }

    /** Entry h, which n outside references keep alive, is out of the bookkeeping and
        everything else is in order for table contents m. */
    ghost predicate Out(h: LRUHandle, n: nat, m: Contents)
      reads this`chain, this`pinned, this`held, this`freed, h`refs, h`next, h`prev
      reads chain`inCache, chain`refs, pinned`inCache, pinned`refs, pinned`next, pinned`prev
    {
      WithoutSubset(chain, h);
      && h != lru && h !in pinned && h !in freed && h.refs == n + 1
      && (if n == 0 then h in chain && h !in Without(chain, h) else h !in chain && h.next == null && h.prev == null)
      && Sound(lru, if n == 0 then Without(chain, h) else chain, pinned, held, freed, m)
    }

    /** Ghost: takes cached entry h out of the bookkeeping. */
    ghost method TakeOut(h: LRUHandle) returns (n: nat)
      requires Sound(lru, chain, pinned, held, freed, table.contents) && h in table.contents.Values
      modifies this`pinned, this`held
      ensures n == old(held)[h] && h.inCache && Out(h, n, table.contents - {h.Id()}) && held == old(held)[h := 0]
      ensures Charges(pinned) == Charges(old(pinned)) - if n == 0 then 0 else h.charge
      ensures (n > 0 ==> h in old(pinned)) && forall x | x in pinned :: x in old(pinned)
    {
      hide Sound, Charges;
      LiveInTable(lru, chain, pinned, held, freed, table.contents, h);
      n := held[h];
      if h.refs == 1 {
        TakeIdle(lru, chain, pinned, held, freed, table.contents, h);
      } else {
        Unpin(h);
      }
    }

    /** The table has stopped mapping h: the cache's reference goes. */
    method Forget(h: LRUHandle, ghost n: nat, ghost m: Contents) returns (last: bool)
      requires ListValid() && Out(h, n, m) && h.Id() !in m
      modifies this`lowPri, this`lruUsage, this`highUsage, this`chain, this`low, this`pinned, this`held, this`usage
      modifies Ring()`next, Ring()`prev, h`inCache, h`refs
      ensures ListValid() && Sound(lru, chain, pinned, held, freed, m) && !h.inCache && h.refs == n
      ensures (last <==> n == 0) && held == if last then old(held) else old(held)[h := n]
      ensures chain == if last then Without(old(chain), h) else old(chain)
      ensures last ==> h !in chain && h !in pinned && h !in freed
      ensures if last
              then usage == old(usage) - h.charge && lruUsage == old(lruUsage) - h.charge && pinned == old(pinned)
              else usage == old(usage) && lruUsage == old(lruUsage) &&
                   Charges(pinned) == Charges(old(pinned)) + h.charge
      ensures forall x | x in pinned :: x in old(pinned) || x == h
      ensures forall x | x in chain :: x in old(chain)
      ensures highUsage <= old(highUsage)
    {
      hide Linked, Pooled, Sound, PoolCapacity, LRUHandleTable.Valid, Charges, Distinct, LRUCacheShard.ListValid,
           Without;
      h.inCache := false;
      h.refs := h.refs - 1;
      last := h.refs == 0;
      if last {
        usage := usage - h.charge;
        WithoutSubset(chain, h);
        Detach(h, m);
      } else {
        Pin(h, n, m);
      }
    }

    /** What Erase does under the mutex once the table has given up h. */
    method EraseFound(h: LRUHandle, ghost n: nat) returns (last: bool)
      requires ListValid() && table.Valid() && ratio >= 0.0 && highCapacity == PoolCapacity(capacity, ratio)
      requires Out(h, n, table.contents) && h.Id() !in table.contents
      requires usage == lruUsage + Charges(pinned) + (if n == 0 then 0 else h.charge)
      modifies this`lowPri, this`lruUsage, this`highUsage, this`chain, this`low, this`pinned, this`held, this`usage
      modifies Ring()`next, Ring()`prev, h`inCache, h`refs
      ensures Core() && usage <= old(usage) && (last <==> n == 0) &&
              held == if last then old(held) else old(held)[h := n]
      ensures chain == if last then Without(old(chain), h) else old(chain)
      ensures last ==> h in old(chain) && !h.inCache && h.refs == 0 && h !in chain && h !in pinned && h !in freed
      ensures highUsage <= old(highUsage)
    {
      hide Linked, Pooled, Sound, PoolCapacity, LRUHandleTable.Valid, Charges, Distinct, LRUCacheShard.ListValid;
      last := Forget(h, n, table.contents);
    }

    method Erase(id: Ident)
      requires Valid()
      modifies this`lowPri, this`lruUsage, this`highUsage, this`chain, this`low, this`pinned, this`held, this`usage
      modifies this`freed, Ring()`next, Ring()`prev, table`elems, table`contents, table.list
      modifies table.contents.Values`inCache, table.contents.Values`refs
      ensures Valid() && held == old(held) && table.contents == old(table.contents) - {id} && usage <= old(usage)
      ensures if id in old(table.contents) && old(table.contents)[id] !in held
              then freed == old(freed) + {old(table.contents)[id]} &&
                   chain == Without(old(chain), old(table.contents)[id])
              else freed == old(freed) && chain == old(chain)
      ensures highUsage <= old(highUsage)
    {
      hide Linked, Pooled, Sound, PoolCapacity, LRUHandleTable.Valid, Charges, Distinct, LRUCacheShard.ListValid,
           LRUCacheShard.Out, Without;
      ghost var n := 0;
      if id in table.contents {
        ghost var was := table.contents[id];
        assert was in table.contents.Values;
        IdInTable(lru, chain, pinned, held, freed, table.contents, id);
        n := TakeOut(was);
        assert Out(was, n, table.contents - {id});
      }
      var e := table.Remove(id);
      if e != null {
        assert Out(e, n, table.contents);
        var last := EraseFound(e, n);
        if last {
          Free(e);
        }
      } else {
        assert table.contents == old(table.contents);
      }
    }

    /** The entry a new one under this id displaces and, unless held outside, frees. */
    ghost function Displaced(id: Ident): LRUHandle?
      reads table`contents, this`held
    {
      Unheld(table.contents, held, id)
    }

    /** Puts e into the table; what it displaces is out of the bookkeeping. */
    method Swap(e: LRUHandle) returns (displaced: LRUHandle?, ghost n: nat)
      requires Core() && e != lru && e !in chain && e !in pinned
      modifies this`pinned, this`held, table`list, table`length, table`elems, table`contents, table.list
      ensures ListValid() && table.Valid() && table.contents == old(table.contents)[e.Id() := e] && e !in pinned
      ensures table.list == old(table.list) || fresh(table.list)
      ensures displaced == if e.Id() in old(table.contents) then old(table.contents)[e.Id()] else null
      ensures if displaced == null
              then held == old(held) && pinned == old(pinned) &&
                   Sound(lru, chain, pinned, held, freed, table.contents - {e.Id()})
              else displaced in old(table.contents.Values) && displaced != e && displaced.Id() == e.Id() &&
                   n == old(held)[displaced] && Out(displaced, n, table.contents - {e.Id()}) &&
                   held == old(held)[displaced := 0] && (n > 0 ==> displaced in old(pinned)) &&
                   Charges(pinned) == Charges(old(pinned)) - if n == 0 then 0 else displaced.charge
      ensures forall x | x in pinned :: x in old(pinned)
    {
      hide Linked, Pooled, Sound, PoolCapacity, LRUHandleTable.Valid, Charges, Distinct, LRUCacheShard.ListValid,
           LRUCacheShard.Out;
      NotInTable(lru, chain, pinned, held, freed, table.contents, e);
      ghost var m := table.contents - {e.Id()};
      n := 0;
      if e.Id() in table.contents {
        ghost var was := table.contents[e.Id()];
        assert was in table.contents.Values;
        IdInTable(lru, chain, pinned, held, freed, table.contents, e.Id());
        n := TakeOut(was);
      } else {
        assert m == table.contents;
      }
      displaced := table.Insert(e);
      if displaced != null {
        assert Out(displaced, n, m);
      } else {
        assert Sound(lru, chain, pinned, held, freed, m);
      }
      assert table.contents - {e.Id()} == m;
    }

    /** Entry e takes its place in the table. */
    method Publish(e: LRUHandle) returns (dead: LRUHandle?)
      requires Core() && e != lru && e !in chain && e !in pinned && e !in freed
      modifies this`lowPri, this`lruUsage, this`highUsage, this`chain, this`low, this`pinned, this`held, this`usage
      modifies Ring()`next, Ring()`prev, table`list, table`length, table`elems, table`contents, table.list
      modifies table.contents.Values`inCache, table.contents.Values`refs
      ensures ListValid() && table.Valid() && Sound(lru, chain, pinned, held, freed, table.contents - {e.Id()})
      ensures table.contents == old(table.contents)[e.Id() := e] && e !in chain && e !in pinned
      ensures table.list == old(table.list) || fresh(table.list)
      ensures held == old(held) && dead == old(Displaced(e.Id())) && dead != e
      ensures usage == lruUsage + Charges(pinned) + e.charge
      ensures usage == old(usage) + e.charge - if dead == null then 0 else dead.charge
      ensures if dead == null then chain == old(chain) else chain == Without(old(chain), dead)
      ensures dead != null ==> dead.refs == 0 && !dead.inCache && dead !in chain && dead !in pinned && dead !in freed
      ensures unchanged(e) && forall x | x in pinned :: x in old(pinned)
      ensures forall i | 0 <= i < |chain| :: chain[i] in old(chain)
      ensures highUsage <= old(highUsage)
    {
      hide Linked, Pooled, Sound, PoolCapacity, LRUHandleTable.Valid, Charges, Distinct, LRUCacheShard.ListValid,
           Without, LRUCacheShard.Out, Unheld;
      UnheldIs(table.contents, held, e.Id());
      var displaced, n := Swap(e);
      usage := usage + e.charge;
      dead := null;
      if displaced != null {
        assert Out(displaced, n, table.contents - {e.Id()});
        PutBack(old(held), displaced);
        var last := Forget(displaced, n, table.contents - {e.Id()});
        if last {
          dead := displaced;
        }
      }
    }

    /** The new entry, in the table, goes to the list or to whoever asked for it. */
    method Place(e: LRUHandle, want: bool)
      requires ListValid() && table.Valid() && Sound(lru, chain, pinned, held, freed, table.contents - {e.Id()})
      requires Mapped(e, table.contents) && e != lru && e !in chain && e !in pinned && e !in freed && e !in held
      requires e.inCache && e.refs == (if want then 2 else 1) && e.next == null && e.prev == null
      requires usage == lruUsage + Charges(pinned) + e.charge
      requires ratio >= 0.0 && highCapacity == PoolCapacity(capacity, ratio)
      modifies this`lowPri, this`lruUsage, this`highUsage, this`chain, this`low, this`pinned, this`held
      modifies Ring()`next, Ring()`prev, chain`inHighPriPool, e`next, e`prev, e`inHighPriPool
      ensures Core() && held == if want then old(held) + multiset{e} else old(held)
      ensures chain == if want then old(chain) else Joined(old(chain), old(low), GoesHigh(e), e)
      ensures forall x | x in pinned || x in chain :: x in old(pinned) || x in old(chain) || x == e
      ensures old(PoolFits()) ==> PoolFits()
    {
      hide Linked, Pooled, Sound, PoolCapacity, LRUHandleTable.Valid, Charges, Distinct, LRUCacheShard.ListValid,
           Joined;
      JoinedMembers(chain, low, GoesHigh(e), e);
      if !want {
        Attach(e);
      } else {
        Repin(e, 1);
      }
    }

    /** A new entry that fits, or that its caller insists on, enters the cache. */
    method Admit(e: LRUHandle, want: bool) returns (dead: LRUHandle?)
      requires Core() && e != lru && e !in chain && e !in pinned && e !in freed
      requires e.inCache && e.refs == (if want then 2 else 1) && e.next == null && e.prev == null
      requires usage + e.charge <= capacity || (want && chain == [])
      modifies this`lowPri, this`lruUsage, this`highUsage, this`chain, this`low, this`pinned, this`held, this`usage
      modifies Ring()`next, Ring()`prev, chain`inHighPriPool
      modifies table`list, table`length, table`elems, table`contents, table.list
      modifies table.contents.Values`inCache, table.contents.Values`refs, e`next, e`prev, e`inHighPriPool
      ensures Valid() && table.contents == old(table.contents)[e.Id() := e]
      ensures table.list == old(table.list) || fresh(table.list)
      ensures held == (if want then old(held) + multiset{e} else old(held)) && dead == old(Displaced(e.Id())) &&
              dead != e
      ensures usage == old(usage) + e.charge - if dead == null then 0 else dead.charge
      ensures dead != null ==> dead.refs == 0 && !dead.inCache && dead !in chain && dead !in pinned && dead !in freed
      ensures forall x | x in pinned || x in chain :: x in old(pinned) || x in old(chain) || x == e
      ensures old(PoolFits()) ==> PoolFits()
    {
      hide Linked, Pooled, Sound, PoolCapacity, LRUHandleTable.Valid, Charges, Distinct, Without,
           LRUCacheShard.ListValid, LRUCacheShard.Core, LRUCacheShard.Displaced, Mapped;
      Outside(e);
      dead := Publish(e);
      assert chain != [] ==> chain[0] in old(chain);
      assert Mapped(e, table.contents) by { InTable(e); }
      SubRing(lru, chain, old(chain));
      Place(e, want);
    }

    lemma Outside(e: LRUHandle)
      requires Core() && e !in chain && e !in pinned
      ensures e !in table.contents.Values && e !in held && ratio >= 0.0 && highCapacity == PoolCapacity(capacity, ratio)
    {
    }

    lemma InTable(e: LRUHandle)
      requires e.Id() in table.contents && table.contents[e.Id()] == e
      ensures Mapped(e, table.contents)
    {
    }

    lemma Unmapped(hs: seq<LRUHandle>)
      requires Core() && forall h | h in hs :: h !in chain && h !in pinned
      ensures forall h | h in hs :: h !in table.contents.Values
    {
    }

    lemma EmptyListIsFree()
      requires ListValid() && chain == []
      ensures lruUsage == 0
    {
    }

    /** The insertion is refused: what is pinned leaves no room, and either the limit is
        strict or nobody asked for a handle. */
    ghost predicate Refused(charge: nat, want: bool)
      reads this`usage, this`lruUsage, this`capacity, this`strict
    {
      usage - lruUsage + charge > capacity && (strict || !want)
    }

    /** Insertion after eviction, under the mutex. */
    method InsertEvicted(e: LRUHandle, want: bool) returns (ok: bool, dead: LRUHandle?)
      requires Core() && e != lru && e !in chain && e !in pinned && e !in freed
      requires e.inCache && e.refs == (if want then 2 else 1) && e.next == null && e.prev == null
      requires usage + e.charge <= capacity || chain == []
      modifies this`lowPri, this`lruUsage, this`highUsage, this`chain, this`low, this`pinned, this`held, this`usage
      modifies Ring()`next, Ring()`prev, chain`inHighPriPool
      modifies table`list, table`length, table`elems, table`contents, table.list
      modifies table.contents.Values`inCache, table.contents.Values`refs, e`next, e`prev, e`inHighPriPool
      ensures Valid() && (ok <==> !(old(Refused(e.charge, want)) && want))
      ensures table.list == old(table.list) || fresh(table.list)
      ensures table.contents == WithEntry(old(table.contents), old(Refused(e.charge, want)), e)
      ensures held == HeldWith(old(held), old(Refused(e.charge, want)), want, e)
      ensures dead == DeadAfter(old(table.contents), old(held), old(Refused(e.charge, want)), want, e)
      ensures dead != null ==> (dead.refs == 1 && dead.inCache) || (dead.refs == 0 && !dead.inCache)
      ensures dead != null ==> dead !in chain && dead !in pinned && dead !in freed
      ensures strict && old(usage) <= capacity ==> usage <= capacity
      ensures forall x | x in pinned || x in chain :: x in old(pinned) || x in old(chain) || x == e
      ensures old(PoolFits()) ==> PoolFits()
    {
      hide Linked, Pooled, Sound, PoolCapacity, LRUHandleTable.Valid, Charges, Distinct, LRUCacheShard.ListValid;
      if chain == [] {
        EmptyListIsFree();
      }
      if usage - lruUsage + e.charge > capacity && (strict || !want) {
        ok, dead := !want, if want then null else e;
      } else {
        dead := Admit(e, want);
        ok := true;
      }
    }

    /** gone is the shortest run of oldest entries whose eviction makes room for charge,
        or all of them. */
    ghost predicate JustEnough(c0: seq<LRUHandle>, u0: int, charge: nat, gone: seq<LRUHandle>)
      reads this`capacity
    {
      && gone <= c0 && (u0 - Charges(gone) + charge <= capacity || gone == c0)
      && (gone != [] ==> u0 - Charges(gone) + gone[|gone| - 1].charge + charge > capacity)
    }

    ghost predicate Freeable(list: seq<LRUHandle>)
      reads this`chain, this`pinned, this`freed, list`refs, list`inCache
    {
      && Distinct(list)
      && (forall h | h in list :: (h.refs == 1 && h.inCache) || (h.refs == 0 && !h.inCache))
      && (forall h | h in list :: h !in chain && h !in pinned && h !in freed)
    }

    /** What Insert does under the mutex; dead is what else is to be freed. */
    method EvictAndInsert(e: LRUHandle, want: bool) returns (ok: bool, dead: LRUHandle?, gone: seq<LRUHandle>)
      requires Valid() && e != lru && e !in chain && e !in pinned && e !in freed
      requires e.inCache && e.refs == (if want then 2 else 1) && e.next == null && e.prev == null
      modifies this`lowPri, this`lruUsage, this`highUsage, this`chain, this`low, this`pinned, this`held, this`usage
      modifies Ring()`next, Ring()`prev, chain`inHighPriPool, chain`refs, chain`inCache
      modifies table`list, table`length, table`elems, table`contents, table.list
      modifies table.contents.Values`inCache, table.contents.Values`refs, e`next, e`prev, e`inHighPriPool
      ensures Valid() && (ok <==> !(old(Refused(e.charge, want)) && want))
      ensures table.list == old(table.list) || fresh(table.list)
      ensures JustEnough(old(chain), old(usage), e.charge, gone)
      ensures table.contents == WithEntry(Drop(old(table.contents), gone), old(Refused(e.charge, want)), e)
      ensures held == HeldWith(old(held), old(Refused(e.charge, want)), want, e)
      ensures dead == DeadAfter(Drop(old(table.contents), gone), old(held), old(Refused(e.charge, want)), want, e)
      ensures strict && old(usage) <= capacity ==> usage <= capacity
      ensures Freeable(gone) && (dead != null ==> dead !in gone && dead !in chain && dead !in pinned && dead !in freed)
      ensures dead != null ==> (dead.refs == 1 && dead.inCache) || (dead.refs == 0 && !dead.inCache)
      ensures old(PoolFits()) ==> PoolFits()
    {
      hide Charges, Drop, LRUCacheShard.Core, WithEntry, HeldWith, DeadAfter;
      gone := EvictFromLRU(e.charge);
      Suffix(lru, old(chain), chain, gone);
      Unmapped(gone);
      DropValues(old(table.contents), gone);
      DeadAfterIn(table.contents, held, Refused(e.charge, want), want, e);
      ok, dead := InsertEvicted(e, want);
      assert Dead(gone);
    }

    /** gone is what was evicted, dead what else was freed: the entry that was displaced,
        unless it is held outside, or the new entry, if it was refused without a complaint. */
    method Insert(id: Ident, charge: nat, highPri: bool, want: bool)
      returns (ok: bool, h: LRUHandle?, gone: seq<LRUHandle>, ghost dead: LRUHandle?)
      requires Valid()
      modifies this`lowPri, this`lruUsage, this`highUsage, this`chain, this`low, this`pinned, this`held, this`usage
      modifies this`freed, Ring()`next, Ring()`prev, chain`inHighPriPool, chain`refs, chain`inCache
      modifies table`list, table`length, table`elems, table`contents, table.list
      modifies table.contents.Values`inCache, table.contents.Values`refs
      ensures Valid() && (ok <==> !(old(Refused(charge, want)) && want))
      ensures table.list == old(table.list) || fresh(table.list)
      ensures JustEnough(old(chain), old(usage), charge, gone)
      ensures freed == old(freed) + (set x | x in gone) + if dead == null then {} else {dead}
      ensures if old(Refused(charge, want))
              then h == null && table.contents == Drop(old(table.contents), gone) && held == old(held) &&
                   if want then dead == null else dead != null && fresh(dead)
              else id in table.contents && table.contents[id].charge == charge &&
                   table.contents[id].highPri == highPri &&
                   fresh(table.contents[id]) &&
                   table.contents == Drop(old(table.contents), gone)[id := table.contents[id]] &&
                   dead == Unheld(Drop(old(table.contents), gone), old(held), id) &&
                   if want then h == table.contents[id] && held == old(held) + multiset{h}
                   else h == null && held == old(held)
      ensures strict && old(usage) <= capacity ==> usage <= capacity
      ensures old(PoolFits()) ==> PoolFits()
    {
      hide Charges, Distinct, Drop, Unheld, LRUCacheShard.Core;
      var e := new LRUHandle(id.key, id.hash, charge, highPri, if want then 2 else 1);
      var last: LRUHandle?;
      ok, last, gone := EvictAndInsert(e, want);
      h := if ok && want then e else null;
      dead := last;
      FreeAll(gone);
      if last != null {
        Free(last);
      }
    }
  }

  function Unheld(m: Contents, held: multiset<LRUHandle>, id: Ident): LRUHandle? {
    if id in m && m[id] !in held then m[id] else null
  }

  lemma UnheldIs(m: Contents, held: multiset<LRUHandle>, id: Ident)
    ensures Unheld(m, held, id) == if id in m && held[m[id]] == 0 then m[id] else null
  {
  }

  // What an insertion of e makes of the table, of the references held outside, and which
  // entry it frees besides those evicted: e itself if it was refused and nobody asked for
  // a handle, else the entry it displaces, unless that is held outside.

  function WithEntry(m: Contents, refused: bool, e: LRUHandle): Contents {
    if refused then m else m[e.Id() := e]
  }

  function HeldWith(held: multiset<LRUHandle>, refused: bool, want: bool, e: LRUHandle): multiset<LRUHandle> {
    if refused || !want then held else held + multiset{e}
  }

  function DeadAfter(m: Contents, held: multiset<LRUHandle>, refused: bool, want: bool, e: LRUHandle): LRUHandle? {
    if !refused then Unheld(m, held, e.Id()) else if want then null else e
  }

  lemma DeadAfterIn(m: Contents, held: multiset<LRUHandle>, refused: bool, want: bool, e: LRUHandle)
    ensures var dead := DeadAfter(m, held, refused, want, e);
            dead == null || dead == e || dead in m.Values
  {
  }

  lemma DropValues(m: Contents, hs: seq<LRUHandle>)
    ensures Drop(m, hs).Values <= m.Values
  {
  }

  lemma SubRing(lru: LRUHandle, chain: seq<LRUHandle>, c0: seq<LRUHandle>)
    requires forall i | 0 <= i < |chain| :: chain[i] in c0
    ensures forall i | 0 <= i < |[lru] + chain| :: ([lru] + chain)[i] in [lru] + c0
  {
    assert ([lru] + c0)[0] == lru;
    assert forall i | 0 <= i < |c0| :: c0[i] == ([lru] + c0)[i + 1];
  }

  lemma {:induction false} WithoutSubset(s: seq<LRUHandle>, e: LRUHandle)
    ensures forall h | h in Without(s, e) :: h in s
    ensures forall i | 0 <= i < |Without(s, e)| :: Without(s, e)[i] in s
  {
    if s != [] && s[0] != e {
      WithoutSubset(s[1..], e);
    }
  }

  lemma NotInTable(lru: LRUHandle, chain: seq<LRUHandle>, pinned: seq<LRUHandle>,
                   held: multiset<LRUHandle>, freed: set<LRUHandle>, m: Contents, h: LRUHandle)
    requires Sound(lru, chain, pinned, held, freed, m) && h !in chain && h !in pinned
    ensures h !in m.Values && h !in held
  {
  }

  lemma IdInTable(lru: LRUHandle, chain: seq<LRUHandle>, pinned: seq<LRUHandle>,
                  held: multiset<LRUHandle>, freed: set<LRUHandle>, m: Contents, id: Ident)
    requires Sound(lru, chain, pinned, held, freed, m) && id in m
    ensures m[id].Id() == id
  {
  }

  lemma LiveInTable(lru: LRUHandle, chain: seq<LRUHandle>, pinned: seq<LRUHandle>,
                    held: multiset<LRUHandle>, freed: set<LRUHandle>, m: Contents, h: LRUHandle)
    requires Sound(lru, chain, pinned, held, freed, m) && h in m.Values
    ensures h.inCache && h in (if h.refs == 1 then chain else pinned) && (h.refs != 1 ==> h !in chain)
  {
    assert h in chain ==> Idle(h, m);
    assert h in pinned ==> Pinned(h, held, m);
  }

  lemma InUse(lru: LRUHandle, chain: seq<LRUHandle>, pinned: seq<LRUHandle>,
              held: multiset<LRUHandle>, freed: set<LRUHandle>, m: Contents, h: LRUHandle)
    requires Sound(lru, chain, pinned, held, freed, m) && (h in held || h in chain)
    ensures if h.inCache && h.refs == 1 then h in chain else h in pinned && h !in chain
  {
    assert h in chain ==> Idle(h, m);
    assert h in pinned ==> Pinned(h, held, m);
  }

  lemma HeldIsPinned(lru: LRUHandle, chain: seq<LRUHandle>, pinned: seq<LRUHandle>,
                     held: multiset<LRUHandle>, freed: set<LRUHandle>, m: Contents, h: LRUHandle)
    requires Sound(lru, chain, pinned, held, freed, m) && h in held
    ensures h in pinned && h !in chain && h != lru && Pinned(h, held, m)
  {
  }

  lemma Suffix(lru: LRUHandle, c0: seq<LRUHandle>, chain: seq<LRUHandle>, deleted: seq<LRUHandle>)
    requires c0 == deleted + chain
    ensures forall i | 0 <= i < |chain| :: chain[i] in c0
    ensures forall i | 0 <= i < |[lru] + chain| :: ([lru] + chain)[i] in [lru] + c0
  {
    assert forall i | 0 <= i < |chain| :: chain[i] == c0[|deleted| + i];
    assert forall i | 0 < i < |[lru] + chain| :: ([lru] + chain)[i] == ([lru] + c0)[|deleted| + i];
    assert ([lru] + c0)[0] == lru;
  }

  lemma {:induction false} ChargesWithout(s: seq<LRUHandle>, e: LRUHandle)
    requires e in s
    ensures Charges(Without(s, e)) + e.charge == Charges(s)
  {
    if s[0] != e {
      ChargesWithout(s[1..], e);
    }
  }

  lemma NoneFreed(lru: LRUHandle, chain: seq<LRUHandle>, pinned: seq<LRUHandle>,
                  held: multiset<LRUHandle>, freed: set<LRUHandle>, m: Contents)
    requires Sound(lru, chain, pinned, held, freed, m)
    ensures forall h | h in chain :: h !in freed
  {
  }

  lemma ChargesOne(e: LRUHandle)
    ensures Charges([e]) == e.charge
  {
  }

  /** The table without the given entries. */
  function Drop(m: Contents, hs: seq<LRUHandle>): Contents {
    map id | id in m && m[id] !in hs :: m[id]
  }

  lemma DropOne(lru: LRUHandle, chain: seq<LRUHandle>, pinned: seq<LRUHandle>,
                held: multiset<LRUHandle>, freed: set<LRUHandle>, m: Contents, m0: Contents, hs: seq<LRUHandle>)
    requires Sound(lru, chain, pinned, held, freed, m) && chain != [] && m == Drop(m0, hs)
    ensures m - {chain[0].Id()} == Drop(m0, hs + [chain[0]])
  {
    assert Idle(chain[0], m);
  }

  ghost predicate Dead(hs: seq<LRUHandle>)
    reads hs`refs, hs`inCache
  {
    forall h | h in hs :: h.refs == 0 && !h.inCache
  }

  lemma PooledAt(lru: LRUHandle, chain: seq<LRUHandle>, low: nat, lowPri: LRUHandle, highUsage: int)
    requires Pooled(lru, chain, low, lowPri, highUsage)
    ensures low <= |chain| && lowPri == ([lru] + chain)[low]
  {
  }
}
