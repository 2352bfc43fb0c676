/** Whole runs of the LRU shard: any series of calls by a client that releases only what
    it holds. */
module LruRuns {
  import opened LruTable
  import opened LruShard

  /** Release and Ref name a handle by its position among those the client holds. */
  datatype Op =
    | Lookup(id: Ident)
    | Insert(id: Ident, charge: nat, highPri: bool, want: bool)
    | Ref(hand: nat)
    | Release(hand: nat, force: bool)
    | Erase(id: Ident)
    | EraseUnRefEntries
    | SetCapacity(capacity: nat)
    | SetStrictCapacityLimit(strict: bool)
    | SetHighPriorityPoolRatio(ratio: real)

  /** The capacity in force after ops. */
  function CapacityAfter(capacity: nat, ops: seq<Op>): nat {
    if ops == [] then capacity
    else
      var last := ops[|ops| - 1];
      if last.SetCapacity? then last.capacity else CapacityAfter(capacity, ops[..|ops| - 1])
  }

  predicate Shrinks(op: Op, capacity: nat) {
    op.SetCapacity? && op.capacity < capacity
  }

  /** No call goes below the capacity in force. */
  predicate NeverShrinks(capacity: nat, ops: seq<Op>) {
    ops == [] ||
    (var before := ops[..|ops| - 1];
     NeverShrinks(capacity, before) && !Shrinks(ops[|ops| - 1], CapacityAfter(capacity, before)))
  }

  /** Calls after which the high-priority pool is within its share, whatever it was. */
  predicate Restores(op: Op) {
    op.EraseUnRefEntries? || op == SetCapacity(0) || (op.SetHighPriorityPoolRatio? && op.ratio >= 0.0)
  }

  /** No call goes below the capacity in force without one that restores the pool later. */
  predicate PoolKept(capacity: nat, ops: seq<Op>) {
    ops == [] ||
    (var before := ops[..|ops| - 1];
     var last := ops[|ops| - 1];
     Restores(last) || (PoolKept(capacity, before) && !Shrinks(last, CapacityAfter(capacity, before))))
  }

  predicate TurnsLimitOff(ops: seq<Op>) {
    exists i :: 0 <= i < |ops| && ops[i] == SetStrictCapacityLimit(false)
  }

  /** What the shard can reach from one call to the next: entries of the table before the
      call, handles the client had, and entries made during the call. */
  twostate predicate Reaches(shard: LRUCacheShard, hands: seq<LRUHandle>, new r: seq<LRUHandle>)
    reads shard, shard.table
  {
    && shard.held == multiset(r) && (shard.table.list == old(shard.table.list) || fresh(shard.table.list))
    && (forall h | h in r :: h in hands || fresh(h) || h in old(shard.table.contents).Values)
    && (forall id | id in shard.table.contents ::
          fresh(shard.table.contents[id]) || shard.table.contents[id] in old(shard.table.contents).Values)
  }

  function Dropped(hands: seq<LRUHandle>, i: nat): seq<LRUHandle>
    requires i < |hands|
  {
    hands[..i] + hands[i + 1..]
  }

  lemma DroppedOne(hands: seq<LRUHandle>, i: nat)
    requires i < |hands|
    ensures multiset(Dropped(hands, i)) == multiset(hands) - multiset{hands[i]}
    ensures forall h | h in Dropped(hands, i) :: h in hands
  {
    assert hands == hands[..i] + [hands[i]] + hands[i + 1..];
  }

  method DoLookup(shard: LRUCacheShard, hands: seq<LRUHandle>, id: Ident) returns (r: seq<LRUHandle>)
    requires shard.Valid() && shard.held == multiset(hands)
    modifies shard, shard.lru, shard.chain, shard.table.contents.Values
    ensures shard.Valid() && Reaches(shard, hands, r)
    ensures old(shard.PoolFits()) ==> shard.PoolFits()
    ensures shard.strict == old(shard.strict) && shard.capacity == old(shard.capacity) &&
            shard.usage == old(shard.usage)
  {
    hide LRUCacheShard.Valid;
    var h := shard.Lookup(id);
    r := if h == null then hands else hands + [h];
  }

  method DoInsert(shard: LRUCacheShard, hands: seq<LRUHandle>, op: Op) returns (r: seq<LRUHandle>)
    requires shard.Valid() && shard.held == multiset(hands) && op.Insert?
    modifies shard, shard.lru, shard.chain, shard.table, shard.table.list, shard.table.contents.Values
    ensures shard.Valid() && Reaches(shard, hands, r)
    ensures old(shard.PoolFits()) ==> shard.PoolFits()
    ensures shard.strict == old(shard.strict) && shard.capacity == old(shard.capacity)
    ensures shard.strict && old(shard.usage <= shard.capacity) ==> shard.usage <= shard.capacity
  {
    hide LRUCacheShard.Valid, LRUCacheShard.JustEnough, Drop, Unheld;
    var ok, h, gone, dead := shard.Insert(op.id, op.charge, op.highPri, op.want);
    DropValues(old(shard.table.contents), gone);
    r := if h == null then hands else hands + [h];
  }

  method DoRelease(shard: LRUCacheShard, hands: seq<LRUHandle>, i: nat, force: bool) returns (r: seq<LRUHandle>)
    requires shard.Valid() && shard.held == multiset(hands)
    modifies shard, shard.lru, shard.chain, shard.table, shard.table.list, hands
    ensures shard.Valid() && Reaches(shard, hands, r)
    ensures old(shard.PoolFits()) ==> shard.PoolFits()
    ensures shard.strict == old(shard.strict) && shard.capacity == old(shard.capacity) &&
            shard.usage <= old(shard.usage)
  {
    hide LRUCacheShard.Valid;
    if i < |hands| {
      DroppedOne(hands, i);
      var last := shard.Release(hands[i], force);
      r := Dropped(hands, i);
    } else {
      var last := shard.Release(null, force);
      r := hands;
    }
  }

  method DoRef(shard: LRUCacheShard, hands: seq<LRUHandle>, i: nat) returns (r: seq<LRUHandle>)
    requires shard.Valid() && shard.held == multiset(hands)
    modifies shard, shard.lru, shard.chain, hands
    ensures shard.Valid() && Reaches(shard, hands, r)
    ensures old(shard.PoolFits()) ==> shard.PoolFits()
    ensures shard.strict == old(shard.strict) && shard.capacity == old(shard.capacity) &&
            shard.usage == old(shard.usage)
  {
    hide LRUCacheShard.Valid;
    r := hands;
    if i < |hands| {
      var ok := shard.Ref(hands[i]);
      r := hands + [hands[i]];
    }
  }

  method DoErase(shard: LRUCacheShard, hands: seq<LRUHandle>, id: Ident)
    requires shard.Valid() && shard.held == multiset(hands)
    modifies shard, shard.lru, shard.chain, shard.table, shard.table.list, shard.table.contents.Values
    ensures shard.Valid() && Reaches(shard, hands, hands)
    ensures old(shard.PoolFits()) ==> shard.PoolFits()
    ensures shard.strict == old(shard.strict) && shard.capacity == old(shard.capacity) &&
            shard.usage <= old(shard.usage)
  {
    hide LRUCacheShard.Valid;
    shard.Erase(id);
  }

  method DoEraseUnRef(shard: LRUCacheShard, hands: seq<LRUHandle>)
    requires shard.Valid() && shard.held == multiset(hands)
    modifies shard, shard.lru, shard.chain, shard.table, shard.table.list
    ensures shard.Valid() && Reaches(shard, hands, hands) && shard.PoolFits()
    ensures shard.strict == old(shard.strict) && shard.capacity == old(shard.capacity) &&
            shard.usage <= old(shard.usage)
  {
    hide LRUCacheShard.Valid, Charges;
    var gone := shard.EraseUnRefEntries();
    NothingInPool(shard);
  }

  /** An empty pool is within any share. */
  lemma NothingInPool(shard: LRUCacheShard)
    requires shard.Valid() && (shard.chain == [] || shard.capacity == 0)
    ensures shard.PoolFits()
  {
    ChargesSplit(shard.chain, shard.low);
  }

  lemma WiderShare(capacity: nat, more: nat, ratio: real)
    requires capacity <= more && ratio >= 0.0
    ensures PoolCapacity(capacity, ratio) <= PoolCapacity(more, ratio)
  {
  }

  /** The pool is within its new share exactly when the high-priority entries left are; it
      always is when the capacity does not shrink, or shrinks to nothing. */
  method DoSetCapacity(shard: LRUCacheShard, hands: seq<LRUHandle>, capacity: nat)
    requires shard.Valid() && shard.held == multiset(hands)
    modifies shard, shard.lru, shard.chain, shard.table, shard.table.list
    ensures shard.Valid() && Reaches(shard, hands, hands)
    ensures shard.strict == old(shard.strict) && shard.capacity == capacity
    ensures var n := Evictions(old(shard.chain), old(shard.usage), capacity);
            shard.PoolFits() <==>
            HighLeft(old(shard.chain), old(shard.low), n) as real <= PoolCapacity(capacity, old(shard.ratio))
    ensures (old(shard.PoolFits()) && capacity >= old(shard.capacity)) || capacity == 0 ==> shard.PoolFits()
    ensures old(shard.usage) <= capacity ==> shard.usage <= capacity
  {
    hide LRUCacheShard.Valid, Charges, Drop, Evictions, HighLeft, PoolCapacity;
    PoolShare(shard);
    if capacity >= shard.capacity {
      WiderShare(shard.capacity, capacity, shard.ratio);
    }
    var gone := shard.SetCapacity(capacity);
    DropValues(old(shard.table.contents), gone);
    PoolShare(shard);
    if capacity == 0 {
      NothingInPool(shard);
    }
  }

  /** One call. */
  method Perform(shard: LRUCacheShard, hands: seq<LRUHandle>, op: Op) returns (r: seq<LRUHandle>)
    requires shard.Valid() && shard.held == multiset(hands)
    modifies shard, shard.lru, shard.chain, hands, shard.table, shard.table.list, shard.table.contents.Values
    ensures shard.Valid() && Reaches(shard, hands, r)
    ensures shard.strict == if op.SetStrictCapacityLimit? then op.strict else old(shard.strict)
    ensures shard.capacity == if op.SetCapacity? then op.capacity else old(shard.capacity)
    ensures Restores(op) || (old(shard.PoolFits()) && !Shrinks(op, old(shard.capacity))) ==> shard.PoolFits()
    ensures shard.strict && old(shard.usage <= shard.capacity) && !Shrinks(op, old(shard.capacity)) ==>
              shard.usage <= shard.capacity
  {
    hide LRUCacheShard.Valid;
    r := hands;
    match op {
      case Lookup(id) => r := DoLookup(shard, hands, id);
      case Insert(_, _, _, _) => r := DoInsert(shard, hands, op);
      case Ref(i) => r := DoRef(shard, hands, i);
      case Release(i, force) => r := DoRelease(shard, hands, i, force);
      case Erase(id) => DoErase(shard, hands, id);
      case EraseUnRefEntries => DoEraseUnRef(shard, hands);
      case SetCapacity(capacity) => DoSetCapacity(shard, hands, capacity);
      case SetStrictCapacityLimit(strict) => shard.SetStrictCapacityLimit(strict);
      case SetHighPriorityPoolRatio(ratio) =>
        if ratio >= 0.0 {
          shard.SetHighPriorityPoolRatio(ratio);
        }
    }
  }

  /** The shard made by the run, and all it can reach, is new. */
  twostate predicate Made(new shard: LRUCacheShard, new hands: seq<LRUHandle>)
    reads shard, shard.table
  {
    && fresh(shard) && fresh(shard.lru) && fresh(shard.table) && fresh(shard.table.list)
    && (forall i | 0 <= i < |hands| :: fresh(hands[i])) && (forall h | h in shard.table.contents.Values :: fresh(h))
  }

  lemma ListInTable(shard: LRUCacheShard)
    requires shard.Valid()
    ensures forall i | 0 <= i < |shard.chain| :: shard.chain[i] in shard.table.contents.Values
  {
    forall h | h in shard.chain ensures h in shard.table.contents.Values {
      assert Idle(h, shard.table.contents);
    }
  }

  lemma OneMoreOp(capacity: nat, ops: seq<Op>, i: nat)
    requires i < |ops|
    ensures CapacityAfter(capacity, ops[..i + 1]) ==
            if ops[i].SetCapacity? then ops[i].capacity else CapacityAfter(capacity, ops[..i])
    ensures NeverShrinks(capacity, ops[..i + 1]) ==>
              NeverShrinks(capacity, ops[..i]) && !Shrinks(ops[i], CapacityAfter(capacity, ops[..i]))
    ensures PoolKept(capacity, ops[..i + 1]) ==>
              Restores(ops[i]) || (PoolKept(capacity, ops[..i]) && !Shrinks(ops[i], CapacityAfter(capacity, ops[..i])))
  {
    assert ops[..i + 1][..i] == ops[..i];
  }

  /** In every run the shard's invariant holds after every call. With the strict limit on
      from the start and never off, usage never exceeds a capacity that never shrinks. The
      high-priority pool is within its share, strict or not, unless the capacity has shrunk
      since the pool was last restored. */
  method Run(capacity: nat, strict: bool, ratio: real, ops: seq<Op>)
    returns (shard: LRUCacheShard, hands: seq<LRUHandle>)
    requires ratio >= 0.0
    ensures shard.Valid() && shard.held == multiset(hands) && shard.capacity == CapacityAfter(capacity, ops)
    ensures strict && !TurnsLimitOff(ops) && NeverShrinks(capacity, ops) ==> shard.usage <= shard.capacity
    ensures PoolKept(capacity, ops) ==> shard.PoolFits()
  {
    hide LRUCacheShard.Valid, LRUCacheShard.PoolFits, NeverShrinks, PoolKept, CapacityAfter, Restores, Shrinks;
    NoOps(capacity, ops);
    shard := new LRUCacheShard(capacity, strict, ratio);
    hands := [];
    for i := 0 to |ops|
      invariant shard.Valid() && shard.held == multiset(hands) && Made(shard, hands)
      invariant strict && !TurnsLimitOff(ops) ==> shard.strict
      invariant shard.capacity == CapacityAfter(capacity, ops[..i])
      invariant PoolKept(capacity, ops[..i]) ==> shard.PoolFits()
      invariant strict && !TurnsLimitOff(ops) && NeverShrinks(capacity, ops[..i]) ==> shard.usage <= shard.capacity
    {
      ListInTable(shard);
      OneMoreOp(capacity, ops, i);
      assert forall i | 0 <= i < |shard.chain| :: fresh(shard.chain[i]);
      hands := Perform(shard, hands, ops[i]);
      forall j | 0 <= j < |hands| ensures fresh(hands[j]) {
        assert hands[j] in hands;
      }
    }
    assert ops[..|ops|] == ops;
  }

  lemma NoOps(capacity: nat, ops: seq<Op>)
    ensures CapacityAfter(capacity, ops[..0]) == capacity
  {
  }

  lemma FirstIn(s: seq<LRUHandle>)
    ensures s == [] || s[0] in s
  {
  }

  /** h is idle and nothing else is in the cache. */
  lemma OnlyEntry(shard: LRUCacheShard, h: LRUHandle)
    requires shard.Valid() && shard.held == multiset{} && shard.chain == [h]
    ensures shard.usage == h.charge
  {
    assert forall x | x in shard.pinned :: Pinned(x, shard.held, shard.table.contents);
    FirstIn(shard.pinned);
    ChargesOne(h);
  }

  /** h is in use and nothing else is in the cache. */
  lemma OnlyHandle(shard: LRUCacheShard, id: Ident, h: LRUHandle)
    requires shard.Valid() && shard.table.contents == map[id := h] && h in shard.held
    ensures shard.chain == [] && shard.highUsage == 0 && h.inCache
  {
    var m := shard.table.contents;
    HeldIsPinned(shard.lru, shard.chain, shard.pinned, shard.held, shard.freed, m, h);
    assert id in m && m[id].Id() == id;
    assert forall x | x in shard.chain :: Idle(x, m);
    FirstIn(shard.chain);
  }

  lemma PoolShare(shard: LRUCacheShard)
    requires shard.Valid()
    ensures shard.highCapacity == PoolCapacity(shard.capacity, shard.ratio) && shard.ratio >= 0.0
    ensures if shard.chain == [] then shard.lruUsage == 0 else shard.lruUsage >= 0
  {
  }

  /** One high-priority entry in use, which fits into the pool. */
  method FillPool(id: Ident, capacity: nat, ratio: real, charge: nat) returns (shard: LRUCacheShard, h: LRUHandle)
    requires ratio > 0.0 && charge <= capacity
    ensures fresh(shard) && fresh(shard.lru) && fresh(shard.table) && fresh(shard.table.list) && fresh(h)
    ensures shard.Valid() && shard.chain == [] && shard.highUsage == 0 && shard.held == multiset{h}
    ensures shard.highCapacity == PoolCapacity(capacity, ratio) && shard.ratio == ratio && shard.usage <= shard.capacity
    ensures h.charge == charge && h.highPri && h.inCache
  {
    hide LRUCacheShard.Valid, Charges, Unheld, LRUCacheShard.JustEnough, LRUCacheShard.Displaced, PoolCapacity;
    shard := new LRUCacheShard(capacity, true, ratio);
    PoolShare(shard);
    var ok, made, gone, dead := shard.Insert(id, charge, true, true);
    h := made;
    assert shard.table.contents == map[id := h];
    OnlyHandle(shard, id, h);
    PoolShare(shard);
  }

  /** It is released into the pool. */
  method ReleaseIntoPool(shard: LRUCacheShard, h: LRUHandle)
    requires shard.Valid() && shard.chain == [] && shard.highUsage == 0 && shard.held == multiset{h}
    requires h.charge as real <= shard.highCapacity && shard.ratio > 0.0 && shard.usage <= shard.capacity
    requires h.highPri && h.inCache
    modifies shard, shard.lru, shard.table, shard.table.list, h
    ensures shard.Valid() && shard.chain == [h] && shard.held == multiset{} && shard.highUsage == h.charge
    ensures shard.ratio == old(shard.ratio) && shard.table.list == old(shard.table.list)
  {
    hide LRUCacheShard.Valid;
    var last := shard.Release(h, false);
  }

  lemma AllInPool(shard: LRUCacheShard, h: LRUHandle)
    requires shard.Valid() && shard.chain == [h] && shard.highUsage == h.charge > 0
    ensures shard.low == 0
  {
  }

  /** The entry is within the new capacity, so it stays, but it is more than the new share. */
  method ShrinkPool(shard: LRUCacheShard, h: LRUHandle, smaller: nat)
    requires shard.Valid() && shard.chain == [h] && shard.held == multiset{} && shard.highUsage == h.charge
    requires PoolCapacity(smaller, shard.ratio) < h.charge as real <= smaller as real && shard.ratio >= 0.0
    modifies shard, shard.lru, shard.table, shard.table.list, h
    ensures shard.Valid() && !shard.PoolFits()
  {
    hide LRUCacheShard.Valid, LRUCacheShard.Evicted;
    OnlyEntry(shard, h);
    AllInPool(shard, h);
    ChargesOne(h);
    assert [h][0..] == [h];
    var gone := shard.SetCapacity(smaller);
  }

  /** Wherever an entry fits into the pool and into the smaller capacity but not into the
      pool's share of that, three calls leave the pool over its share. */
  method ShrinkingOverfillsPool(id: Ident, capacity: nat, smaller: nat, ratio: real, charge: nat)
    returns (shard: LRUCacheShard)
    requires ratio > 0.0 && charge <= capacity && charge as real <= PoolCapacity(capacity, ratio)
    requires PoolCapacity(smaller, ratio) < charge as real <= smaller as real
    ensures shard.Valid() && !shard.PoolFits()
  {
    hide LRUCacheShard.Valid, LRUCacheShard.PoolFits, PoolCapacity;
    var h;
    shard, h := FillPool(id, capacity, ratio, charge);
    ReleaseIntoPool(shard, h);
    ShrinkPool(shard, h, smaller);
  }

  /** For one, an entry of 5 in a pool of half of 10, and then of 6. */
  method HalfOfTenThenOfSix(id: Ident) returns (shard: LRUCacheShard)
    ensures shard.Valid() && !shard.PoolFits()
  {
    hide LRUCacheShard.Valid, LRUCacheShard.PoolFits;
    shard := ShrinkingOverfillsPool(id, 10, 6, 0.5, 5);
  }
}
