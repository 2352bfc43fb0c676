/** Safety of the CLOCK shard over every interleaving. */
module ClockSafety {
  import opened Wrappers
  import opened ClockCache
  import opened Counting

  // ---- counting references ---------------------------------------------------------

  lemma InReferrers(s: State, h: Hid, o: Owner)
    ensures o in Referrers(s, h) <==> RefOf(s, o) == Some(h)
  {
  }

  lemma ReferrersDelta(s: State, s': State, h: Hid, x: Owner, y: Owner)
    requires x != y
    requires forall o | o != x && o != y :: RefOf(s', o) == RefOf(s, o)
    ensures |Referrers(s', h)| + One(RefOf(s, x) == Some(h)) + One(RefOf(s, y) == Some(h))
         == |Referrers(s, h)| + One(RefOf(s', x) == Some(h)) + One(RefOf(s', y) == Some(h))
  {
    hide RefOf, Referrers;
    var a, b := Referrers(s, h), Referrers(s', h);
    forall o ensures (o in a <==> RefOf(s, o) == Some(h)) && (o in b <==> RefOf(s', o) == Some(h)) {
      InReferrers(s, h, o);
      InReferrers(s', h, o);
    }
    assert a - {x} - {y} == b - {x} - {y};
    SameButTwo(a, b, x, y);
  }

  lemma InDuties(s: State, h: Hid, t: Tid)
    ensures t in Duties(s, h) <==> DutyOf(s, t) == Some(h)
  {
  }

  lemma DutiesDelta(s: State, s': State, h: Hid, t: Tid)
    requires forall u | u != t :: DutyOf(s', u) == DutyOf(s, u)
    ensures |Duties(s', h)| + One(DutyOf(s, t) == Some(h)) == |Duties(s, h)| + One(DutyOf(s', t) == Some(h))
  {
    hide DutyOf, Duties;
    var a, b := Duties(s, h), Duties(s', h);
    forall u ensures (u in a <==> DutyOf(s, u) == Some(h)) && (u in b <==> DutyOf(s', u) == Some(h)) {
      InDuties(s, h, u);
      InDuties(s', h, u);
    }
    assert a - {t} == b - {t};
    SameButOne(a, b, t);
  }

  /** A reference keeps its handle's count up. */
  lemma ReferrerCounts(s: State, o: Owner)
    requires RefsExact(s) && RefOf(s, o).Some?
    ensures RefOf(s, o).value < |s.handles| && s.handles[RefOf(s, o).value].refs > 0
  {
    hide RefOf, Referrers;
    var h := RefOf(s, o).value;
    InReferrers(s, h, o);
    assert o in Referrers(s, h);
  }

  /** Whoever is responsible for a handle is alone, and the handle is idle. */
  lemma DutyIsAlone(s: State, t: Tid)
    requires OnePlace(s) && DutyOf(s, t).Some?
    ensures var h := DutyOf(s, t).value;
            && h < |s.handles| && !s.handles[h].inCache && s.handles[h].refs == 0
            && h !in s.recycle && (forall u | DutyOf(s, u) == Some(h) :: u == t)
  {
    hide PcDuty;
    var h := DutyOf(s, t).value;
    InDuties(s, h, t);
    RemoveCard(Duties(s, h), t);
    forall u | u != t ensures DutyOf(s, u) != Some(h) {
      InDuties(s, h, u);
      if DutyOf(s, u) == Some(h) {
        PairCard(Duties(s, h), t, u);
      }
    }
    assert h in s.recycle ==> multiset(s.recycle)[h] > 0;
  }

  lemma BinIsIdle(s: State, h: Hid)
    requires OnePlace(s) && h in s.recycle
    ensures h < |s.handles| && !s.handles[h].inCache && s.handles[h].refs == 0 && multiset(s.recycle)[h] == 1
  {
    assert multiset(s.recycle)[h] > 0;
  }

  // ---- what the code asserts -----------------------------------------------------------

  /** The assertions in Unref, RecycleHandle, TryEvict and EvictFromCache, and what
      flags.store relies on. */
  predicate Legal(s: State, t: Tid, a: Act)
    requires Ready(s, t, a)
  {
    a.Go? ==>
      match s.pcs[t]
      case Dropping(h, _) => s.handles[h].refs > 0
      case Recycling(h) => IdleHandle(s, h)
      case Reclaim(h, _) => IdleHandle(s, h)
      case EvictErase(_, pos, _) =>
        IdleHandle(s, pos) && s.handles[pos].ckey in s.table && s.table[s.handles[pos].ckey] == pos
      case EvictReclaim(_, pos, _) => IdleHandle(s, pos)
      case Filled(_, h) => IdleHandle(s, h)
      case _ => true
  }

  /** Unused, out of the bin, and its current value not yet deleted. */
  predicate IdleHandle(s: State, h: Hid)
    requires h < |s.handles|
  {
    !s.handles[h].inCache && s.handles[h].refs == 0 && h !in s.recycle && (h, s.handles[h].gen) !in s.freed
  }

  lemma HolderIs(s: State, t: Tid)
    requires MutexExact(s) && t in s.pcs && InLock(s.pcs[t])
    ensures Holder(s) == s.pcs[t] && s.mutex == Some(t)
  {
  }

  lemma DutyIdle(s: State, t: Tid)
    requires OnePlace(s) && GensExact(s) && DutyOf(s, t).Some?
    ensures DutyOf(s, t).value < |s.handles| && IdleHandle(s, DutyOf(s, t).value)
  {
    hide OnePlace;
    DutyIsAlone(s, t);
  }

  lemma EnabledIsReady(s: State, t: Tid, a: Act)
    requires Inv(s) && Enabled(s, t, a)
    ensures Ready(s, t, a)
  {
    hide RefsExact, OnePlace, TableExact, UsageExact, MutexExact;
  }

  lemma StepLegal(s: State, t: Tid, a: Act)
    requires Inv(s) && Ready(s, t, a)
    ensures Legal(s, t, a)
  {
    hide RefsExact, OnePlace, UsageExact, GensExact, Bounds;
    if a.Go? {
      match s.pcs[t] {
        case Dropping(h, _) => ReferrerCounts(s, CarriedBy(t));
        case Recycling(h) => DutyIdle(s, t);
        case Reclaim(h, _) => DutyIdle(s, t);
        case EvictErase(_, pos, _) => DutyIdle(s, t); HolderIs(s, t);
        case EvictReclaim(_, pos, _) => DutyIdle(s, t);
        case Filled(_, h) => DutyIdle(s, t);
        case _ =>
      }
    }
  }

  // ---- references --------------------------------------------------------------------------

  function PcOf(s: State, t: Tid): Pc {
    if t in s.pcs then s.pcs[t] else Idle
  }

  function RefsAfter(s: State, e: Effect, h: Hid): int {
    if e.handle.Set? && e.handle.h == h then e.handle.x.refs
    else if e.handle.Append? && h == |s.handles| then e.handle.x.refs
    else if h < |s.handles| then s.handles[h].refs else 0
  }

  function HeldGain(s: State, e: Effect, h: Hid): int {
    match e.held
    case NoHeld => 0
    case Give(r, ref) => if ref.h == h then 1 else 0
    case Take(r) => if r in s.held && s.held[r].h == h then -1 else 0
  }

  /** The references that appear at handle h are the ones its count gains. */
  predicate RefBalance(s: State, t: Tid, e: Effect, h: Hid) {
    RefsAfter(s, e, h) + One(PcRef(PcOf(s, t)) == Some(h))
    == (if h < |s.handles| then s.handles[h].refs else 0) + One(PcRef(e.pc) == Some(h)) + HeldGain(s, e, h)
  }

  predicate HeldFits(s: State, e: Effect) {
    && (e.held.Give? ==>
          e.held.r !in s.held && e.held.ref.h < |s.handles| && e.held.ref.gen == s.handles[e.held.ref.h].gen)
    && (e.held.Take? ==> e.held.r in s.held)
    && (PcRef(e.pc).Some? ==> PcRef(e.pc).value < |s.handles|)
  }

  lemma IdleHasNothing()
    ensures PcRef(Idle) == None && PcDuty(Idle) == None
  {
  }

  lemma ApplyRefFrame(s: State, t: Tid, e: Effect, o: Owner)
    requires Fits(s, e) && o != CarriedBy(t)
    requires e.held.Give? ==> o != HeldBy(e.held.r)
    requires e.held.Take? ==> o != HeldBy(e.held.r)
    ensures RefOf(Apply(s, t, e), o) == RefOf(s, o)
  {
    hide PcRef;
  }

  lemma ApplyRefs(s: State, t: Tid, e: Effect)
    requires RefsExact(s) && Fits(s, e) && HeldFits(s, e)
    requires forall h | 0 <= h <= |s.handles| :: RefBalance(s, t, e, h)
    ensures RefsExact(Apply(s, t, e))
  {
    hide PcRef, Referrers;
    var s' := Apply(s, t, e);
    var x, y := CarriedBy(t), HeldBy(match e.held case NoHeld => 0 case Give(r, _) => r case Take(r) => r);
    IdleHasNothing();
    forall o | o != x && o != y ensures RefOf(s', o) == RefOf(s, o) {
      ApplyRefFrame(s, t, e, o);
    }
    forall h | 0 <= h < |s'.handles| ensures s'.handles[h].refs == |Referrers(s', h)| {
      assert RefBalance(s, t, e, h);
      ReferrersDelta(s, s', h, x, y);
      if h == |s.handles| {
        NobodyRefers(s, h);
      }
    }
  }

  lemma NobodyRefers(s: State, h: Hid)
    requires RefsExact(s) && h >= |s.handles|
    ensures Referrers(s, h) == {}
  {
    hide RefOf, Referrers;
    forall o ensures o !in Referrers(s, h) {
      InReferrers(s, h, o);
    }
  }

  lemma BeginRefs(s: State, t: Tid, a: Act, h: Hid)
    requires Ready(s, t, a) && !a.Go?
    requires GensExact(s)
    ensures var e := BeginEffect(s, t, a); RefBalance(s, t, e, h) && HeldFits(s, e)
  {
  }

  lemma FreeRefs(s: State, t: Tid, r: Rid, h: Hid)
    requires t in s.pcs && FreePc(s.pcs[t]) && PcReady(s, s.pcs[t]) && r !in s.held
    ensures var e := FreeEffect(s, s.pcs[t], r); RefBalance(s, t, e, h) && HeldFits(s, e)
  {
  }

  lemma EraseRefs(s: State, t: Tid, h: Hid)
    requires t in s.pcs && ErasePc(s.pcs[t]) && PcBound(s, s.pcs[t])
    ensures var e := EraseEffect(s, s.pcs[t]); RefBalance(s, t, e, h) && HeldFits(s, e)
  {
  }

  lemma EvictRefs(s: State, t: Tid, h: Hid)
    requires t in s.pcs && EvictPc(s.pcs[t]) && PcReady(s, s.pcs[t])
    ensures var e := EvictEffect(s, s.pcs[t]); RefBalance(s, t, e, h) && HeldFits(s, e)
  {
  }

  lemma InsertRefs(s: State, t: Tid, r: Rid, h: Hid)
    requires t in s.pcs && InsertPc(s.pcs[t]) && PcReady(s, s.pcs[t]) && BinInRange(s) && r !in s.held
    requires s.pcs[t].Filled? ==> s.handles[s.pcs[t].h].refs == 0
    ensures var e := InsertEffect(s, s.pcs[t], r); RefBalance(s, t, e, h) && HeldFits(s, e)
  {
  }

  // ---- one place for every handle --------------------------------------------------------------

  function UsesAfter(s: State, e: Effect, h: Hid): nat {
    if e.handle.Set? && e.handle.h == h then Uses(e.handle.x)
    else if e.handle.Append? && h == |s.handles| then Uses(e.handle.x)
    else if h < |s.handles| then Uses(s.handles[h]) else 0
  }

  function BinGain(s: State, e: Effect, h: Hid): int
    requires Fits(s, e)
  {
    match e.bin
    case NoBin => 0
    case Push(h2) => if h2 == h then 1 else 0
    case Pop => if s.recycle[|s.recycle| - 1] == h then -1 else 0
  }

  /** A handle that stops being in one place turns up in exactly one other. */
  predicate PlaceBalance(s: State, t: Tid, e: Effect, h: Hid)
    requires Fits(s, e)
  {
    UsesAfter(s, e, h) + One(PcDuty(e.pc) == Some(h)) + BinGain(s, e, h)
    == (if h < |s.handles| then Uses(s.handles[h]) + One(PcDuty(PcOf(s, t)) == Some(h))
        else One(e.handle.Append? && h == |s.handles|))
  }

  predicate DutyFits(s: State, e: Effect) {
    PcDuty(e.pc).Some? ==> PcDuty(e.pc).value < |s.handles| + One(e.handle.Append?)
  }

  lemma ApplyPlace(s: State, t: Tid, e: Effect)
    requires OnePlace(s) && Fits(s, e)
    requires forall h | 0 <= h <= |s.handles| :: PlaceBalance(s, t, e, h)
    requires DutyFits(s, e)
    ensures OnePlace(Apply(s, t, e))
  {
    hide PcDuty, Uses, PlaceBalance, Duties;
    var s' := Apply(s, t, e);
    forall u | u != t ensures DutyOf(s', u) == DutyOf(s, u) {
    }
    ApplyBin(s, t, e);
    forall h | 0 <= h < |s'.handles| ensures Uses(s'.handles[h]) + |Duties(s', h)| + multiset(s'.recycle)[h] == 1 {
      assert PlaceBalance(s, t, e, h);
      ApplyPlaceAt(s, t, e, h);
    }
  }

  lemma ApplyPlaceAt(s: State, t: Tid, e: Effect, h: Hid)
    requires OnePlace(s) && Fits(s, e) && PlaceBalance(s, t, e, h) && h < |Apply(s, t, e).handles|
    requires forall u | u != t :: DutyOf(Apply(s, t, e), u) == DutyOf(s, u)
    ensures var s' := Apply(s, t, e);
            Uses(s'.handles[h]) + |Duties(s', h)| + multiset(s'.recycle)[h] == 1
  {
    hide PcDuty, Uses, Duties, BinInRange;
    IdleHasNothing();
    DutiesDelta(s, Apply(s, t, e), h, t);
    BinCount(s, t, e, h);
    if h == |s.handles| {
      NobodyOwes(s, h);
    }
  }

  lemma ApplyBin(s: State, t: Tid, e: Effect)
    requires BinInRange(s) && Fits(s, e)
    ensures BinInRange(Apply(s, t, e))
  {
  }

  lemma BinCount(s: State, t: Tid, e: Effect, h: Hid)
    requires Fits(s, e)
    ensures multiset(Apply(s, t, e).recycle)[h] == multiset(s.recycle)[h] + BinGain(s, e, h)
  {
    if e.bin.Pop? {
      var n := |s.recycle| - 1;
      assert s.recycle == s.recycle[..n] + [s.recycle[n]];
    }
  }

  lemma NobodyOwes(s: State, h: Hid)
    requires OnePlace(s) && h >= |s.handles|
    ensures Duties(s, h) == {} && multiset(s.recycle)[h] == 0
  {
    hide PcDuty, Uses;
    assert h !in s.recycle;
  }

  lemma BeginPlace(s: State, t: Tid, a: Act, h: Hid)
    requires Ready(s, t, a) && !a.Go?
    ensures var e := BeginEffect(s, t, a); Fits(s, e) && PlaceBalance(s, t, e, h) && DutyFits(s, e)
  {
  }

  lemma FreePlace(s: State, t: Tid, r: Rid, h: Hid)
    requires t in s.pcs && FreePc(s.pcs[t]) && PcReady(s, s.pcs[t])
    requires s.pcs[t].Dropping? ==> s.handles[s.pcs[t].h].refs > 0
    requires PcDuty(s.pcs[t]).Some? ==> PcDuty(s.pcs[t]).value < |s.handles|
    ensures var e := FreeEffect(s, s.pcs[t], r); Fits(s, e) && PlaceBalance(s, t, e, h) && DutyFits(s, e)
  {
  }

  lemma ErasePlace(s: State, t: Tid, h: Hid)
    requires t in s.pcs && ErasePc(s.pcs[t]) && PcReady(s, s.pcs[t])
    ensures var e := EraseEffect(s, s.pcs[t]); Fits(s, e) && PlaceBalance(s, t, e, h) && DutyFits(s, e)
  {
  }

  lemma EvictPlace(s: State, t: Tid, h: Hid)
    requires t in s.pcs && EvictPc(s.pcs[t]) && PcReady(s, s.pcs[t])
    ensures var e := EvictEffect(s, s.pcs[t]); Fits(s, e) && PlaceBalance(s, t, e, h) && DutyFits(s, e)
  {
  }

  lemma InsertPlace(s: State, t: Tid, r: Rid, h: Hid)
    requires t in s.pcs && InsertPc(s.pcs[t]) && PcReady(s, s.pcs[t]) && BinInRange(s)
    requires s.pcs[t].Filled? ==> Uses(s.handles[s.pcs[t].h]) == 0
    ensures var e := InsertEffect(s, s.pcs[t], r); Fits(s, e) && PlaceBalance(s, t, e, h) && DutyFits(s, e)
  {
  }

  lemma NextRefs(s: State, t: Tid, a: Act)
    requires RefsExact(s) && GensExact(s) && Bounds(s) && Ready(s, t, a) && BinInRange(s) && Legal(s, t, a)
    ensures RefsExact(Next(s, t, a))
    ensures HeldFits(s, EffectOf(s, t, a))
  {
    hide RefBalance, RefsExact, HeldFits, Apply, GensExact;
    var e := EffectOf(s, t, a);
    EffectFits(s, t, a);
    forall h | 0 <= h <= |s.handles| ensures RefBalance(s, t, e, h) && HeldFits(s, e) {
      EffectRefs(s, t, a, h);
    }
    EffectRefs(s, t, a, 0);
    ApplyRefs(s, t, e);
  }

  lemma EffectRefs(s: State, t: Tid, a: Act, h: Hid)
    requires GensExact(s) && Bounds(s) && Ready(s, t, a) && BinInRange(s) && Legal(s, t, a)
    ensures RefBalance(s, t, EffectOf(s, t, a), h) && HeldFits(s, EffectOf(s, t, a))
  {
    hide BeginEffect, FreeEffect, EraseEffect, EvictEffect, InsertEffect, RefBalance, HeldFits, GensExact;
    if !a.Go? {
      BeginRefs(s, t, a, h);
    } else if FreePc(s.pcs[t]) {
      FreeRefs(s, t, a.r, h);
    } else if ErasePc(s.pcs[t]) {
      EraseRefs(s, t, h);
    } else if EvictPc(s.pcs[t]) {
      EvictRefs(s, t, h);
    } else {
      InsertRefs(s, t, a.r, h);
    }
  }

  lemma EffectPlace(s: State, t: Tid, a: Act, h: Hid)
    requires Ready(s, t, a) && BinInRange(s) && Legal(s, t, a)
    requires PcDuty(PcOf(s, t)).Some? ==> PcDuty(PcOf(s, t)).value < |s.handles|
    ensures var e := EffectOf(s, t, a); Fits(s, e) && PlaceBalance(s, t, e, h) && DutyFits(s, e)
  {
    hide BeginEffect, FreeEffect, EraseEffect, EvictEffect, InsertEffect, PlaceBalance, Fits, PcDuty, DutyFits;
    if !a.Go? {
      BeginPlace(s, t, a, h);
    } else if FreePc(s.pcs[t]) {
      FreePlace(s, t, a.r, h);
    } else if ErasePc(s.pcs[t]) {
      ErasePlace(s, t, h);
    } else if EvictPc(s.pcs[t]) {
      EvictPlace(s, t, h);
    } else {
      InsertPlace(s, t, a.r, h);
    }
  }

  lemma NextPlace(s: State, t: Tid, a: Act)
    requires OnePlace(s) && Ready(s, t, a) && Legal(s, t, a)
    ensures OnePlace(Next(s, t, a))
  {
    hide PlaceBalance, Apply, Duties, PcDuty, Uses, DutyFits;
    var e := EffectOf(s, t, a);
    IdleHasNothing();
    assert DutyOf(s, t).Some? ==> DutyOf(s, t).value < |s.handles|;
    EffectFits(s, t, a);
    forall h | 0 <= h <= |s.handles| ensures PlaceBalance(s, t, e, h) {
      EffectPlace(s, t, a, h);
    }
    EffectPlace(s, t, a, 0);
    ApplyPlace(s, t, e);
  }

  // ---- the mutex ------------------------------------------------------------------------------------

  predicate LockFits(s: State, t: Tid, e: Effect) {
    match e.lock
    case KeepLock => InLock(e.pc) == InLock(PcOf(s, t))
    case TakeLock => InLock(e.pc) && s.mutex.None?
    case DropLock => !InLock(e.pc) && InLock(PcOf(s, t))
  }

  lemma BeginLock(s: State, t: Tid, a: Act)
    requires Ready(s, t, a) && !a.Go?
    ensures var e := BeginEffect(s, t, a); LockFits(s, t, e)
  {
  }

  lemma FreeLock(s: State, t: Tid, r: Rid)
    requires Ready(s, t, Go(r)) && t in s.pcs && FreePc(s.pcs[t]) && PcReady(s, s.pcs[t])
    ensures var e := FreeEffect(s, s.pcs[t], r); LockFits(s, t, e)
  {
  }

  lemma EraseLock(s: State, t: Tid)
    requires t in s.pcs && ErasePc(s.pcs[t]) && PcReady(s, s.pcs[t])
    ensures var e := EraseEffect(s, s.pcs[t]); LockFits(s, t, e)
  {
  }

  lemma EvictLock(s: State, t: Tid)
    requires t in s.pcs && EvictPc(s.pcs[t]) && PcReady(s, s.pcs[t])
    ensures var e := EvictEffect(s, s.pcs[t]); LockFits(s, t, e)
  {
  }

  lemma InsertLock(s: State, t: Tid, r: Rid)
    requires t in s.pcs && InsertPc(s.pcs[t]) && PcReady(s, s.pcs[t]) && BinInRange(s)
    ensures var e := InsertEffect(s, s.pcs[t], r); LockFits(s, t, e)
  {
  }

  lemma EffectLock(s: State, t: Tid, a: Act)
    requires Ready(s, t, a) && BinInRange(s)
    ensures LockFits(s, t, EffectOf(s, t, a))
  {
    hide BeginEffect, FreeEffect, EraseEffect, EvictEffect, InsertEffect, LockFits;
    if !a.Go? {
      BeginLock(s, t, a);
    } else if FreePc(s.pcs[t]) {
      FreeLock(s, t, a.r);
    } else if ErasePc(s.pcs[t]) {
      EraseLock(s, t);
    } else if EvictPc(s.pcs[t]) {
      EvictLock(s, t);
    } else {
      InsertLock(s, t, a.r);
    }
  }

  lemma ApplyMutex(s: State, t: Tid, e: Effect)
    requires MutexExact(s) && Fits(s, e) && LockFits(s, t, e)
    ensures MutexExact(Apply(s, t, e))
  {
    hide InLock;
    assert !InLock(Idle) by { IdleIsFree(); }
  }

  lemma IdleIsFree()
    ensures !InLock(Idle)
  {
  }

  // ---- fillings -------------------------------------------------------------------------------------

  predicate GenFits(s: State, e: Effect)
    requires Fits(s, e)
  {
    && (e.handle.Append? ==> e.bin.NoBin?)
    && (e.bin.Pop? ==>
          && e.held.NoHeld? && e.handle.Set? && e.handle.h == s.recycle[|s.recycle| - 1]
          && e.handle.x.gen == s.handles[e.handle.h].gen + 1)
    && (e.handle.Set? && !e.bin.Pop? ==> e.handle.x.gen == s.handles[e.handle.h].gen)
    && (e.handle.Set? && e.bin.NoBin? ==> e.handle.x.value == s.handles[e.handle.h].value)
    && (e.bin.Pop? || e.handle.Append? ==> e.handle.x.value.Some?)
  }

  lemma BeginGen(s: State, t: Tid, a: Act)
    requires Ready(s, t, a) && !a.Go?
    ensures var e := BeginEffect(s, t, a); Fits(s, e) && GenFits(s, e)
  {
  }

  lemma FreeGen(s: State, t: Tid, r: Rid)
    requires t in s.pcs && FreePc(s.pcs[t]) && PcReady(s, s.pcs[t])
    ensures var e := FreeEffect(s, s.pcs[t], r); Fits(s, e) && GenFits(s, e)
  {
  }

  lemma EraseGen(s: State, t: Tid)
    requires t in s.pcs && ErasePc(s.pcs[t]) && PcReady(s, s.pcs[t])
    ensures var e := EraseEffect(s, s.pcs[t]); Fits(s, e) && GenFits(s, e)
  {
  }

  lemma EvictGen(s: State, t: Tid)
    requires t in s.pcs && EvictPc(s.pcs[t]) && PcReady(s, s.pcs[t])
    ensures var e := EvictEffect(s, s.pcs[t]); Fits(s, e) && GenFits(s, e)
  {
  }

  lemma InsertGen(s: State, t: Tid, r: Rid)
    requires t in s.pcs && InsertPc(s.pcs[t]) && PcReady(s, s.pcs[t]) && BinInRange(s)
    ensures var e := InsertEffect(s, s.pcs[t], r); Fits(s, e) && GenFits(s, e)
  {
  }

  lemma EffectGen(s: State, t: Tid, a: Act)
    requires Ready(s, t, a) && BinInRange(s)
    ensures Fits(s, EffectOf(s, t, a)) && GenFits(s, EffectOf(s, t, a))
  {
    hide BeginEffect, FreeEffect, EraseEffect, EvictEffect, InsertEffect, Fits, GenFits;
    if !a.Go? {
      BeginGen(s, t, a);
    } else if FreePc(s.pcs[t]) {
      FreeGen(s, t, a.r);
    } else if ErasePc(s.pcs[t]) {
      EraseGen(s, t);
    } else if EvictPc(s.pcs[t]) {
      EvictGen(s, t);
    } else {
      InsertGen(s, t, a.r);
    }
  }

  lemma InBin(a: seq<Hid>, h: Hid)
    requires a != []
    ensures h in a[..|a| - 1] <==> multiset(a)[h] > One(a[|a| - 1] == h)
  {
    var n := |a| - 1;
    assert a == a[..n] + [a[n]];
  }

  lemma NoClientOnBin(s: State, h: Hid, r: Rid)
    requires RefsExact(s) && OnePlace(s) && h in s.recycle && r in s.held
    ensures s.held[r].h != h
  {
    hide RefsExact, OnePlace;
    BinIsIdle(s, h);
    ReferrerCounts(s, HeldBy(r));
  }

  lemma ApplyFreed(s: State, t: Tid, e: Effect, h: Hid)
    requires OnePlace(s) && GensExact(s) && Fits(s, e) && GenFits(s, e) && h < |Apply(s, t, e).handles|
    ensures var s' := Apply(s, t, e);
            ((h, s'.handles[h].gen) in s'.freed <==> h in s'.recycle) &&
            (s'.handles[h].value.None? <==> h in s'.recycle)
  {
    hide OnePlace;
    if e.bin.Pop? {
      InBin(s.recycle, h);
      BinIsIdle(s, s.recycle[|s.recycle| - 1]);
      if h in s.recycle {
        BinIsIdle(s, h);
      }
    }
    if h == |s.handles| {
      NotInBin(s, h);
    }
  }

  lemma ApplyHeld(s: State, t: Tid, e: Effect, r: Rid)
    requires RefsExact(s) && OnePlace(s) && GensExact(s) && Fits(s, e) && HeldFits(s, e) && GenFits(s, e)
    requires r in Apply(s, t, e).held
    ensures var s' := Apply(s, t, e);
            s'.held[r].h < |s'.handles| && s'.held[r].gen == s'.handles[s'.held[r].h].gen
  {
    hide RefsExact, OnePlace, PcRef;
    if e.bin.Pop? {
      NoClientOnBin(s, s.recycle[|s.recycle| - 1], r);
    }
  }

  lemma ApplyGens(s: State, t: Tid, e: Effect)
    requires RefsExact(s) && OnePlace(s) && GensExact(s) && Fits(s, e) && HeldFits(s, e) && GenFits(s, e)
    ensures GensExact(Apply(s, t, e))
  {
    hide RefsExact, OnePlace, PcRef, HeldFits;
    var s' := Apply(s, t, e);
    forall h | 0 <= h < |s'.handles|
      ensures ((h, s'.handles[h].gen) in s'.freed <==> h in s'.recycle) &&
              (s'.handles[h].value.None? <==> h in s'.recycle)
    {
      ApplyFreed(s, t, e, h);
    }
    forall r | r in s'.held ensures s'.held[r].h < |s'.handles| && s'.held[r].gen == s'.handles[s'.held[r].h].gen {
      ApplyHeld(s, t, e, r);
    }
  }

  lemma NotInBin(s: State, h: Hid)
    requires OnePlace(s) && h >= |s.handles|
    ensures h !in s.recycle
  {
  }

  // ---- the table ---------------------------------------------------------------------------------------

  function HolderAfter(s: State, t: Tid, e: Effect): Pc {
    match e.lock
    case KeepLock => if InLock(PcOf(s, t)) then e.pc else Holder(s)
    case TakeLock => e.pc
    case DropLock => Idle
  }

  lemma HolderStep(s: State, t: Tid, e: Effect)
    requires MutexExact(s) && Fits(s, e) && LockFits(s, t, e)
    ensures Holder(Apply(s, t, e)) == HolderAfter(s, t, e)
  {
    hide InLock;
    assert !InLock(Idle) by { IdleIsFree(); }
  }

  /** Steps outside the mutex leave keys, in-cache bits, charges, table and bin alone. */
  predicate Quiet(s: State, t: Tid, e: Effect) {
    && e.lock.KeepLock? && !InLock(PcOf(s, t)) && e.table.NoTable? && e.bin.NoBin? && e.added == 0 && e.head.None?
    && !e.handle.Append?
    && (e.handle.Set? ==>
          && e.handle.h < |s.handles|
          && var x, y := s.handles[e.handle.h], e.handle.x;
             x.ckey == y.ckey && x.inCache == y.inCache && x.charge == y.charge)
  }

  /** Taking the mutex writes nothing else, except that EraseUnRefEntries empties
      the table and SetCapacity stores the capacity. */
  predicate Grabs(s: State, e: Effect) {
    && e.lock.TakeLock? && e.handle.NoHandle? && e.bin.NoBin? && e.added == 0 && e.head.None?
    && (e.pc.Recycling? || e.pc.EraseLocked? || e.pc.Evicting? || e.pc.Evicted? || e.pc == Clearing(0))
    && (if e.pc.Clearing? then e.table.ClearTable? else e.table.NoTable?)
    && (e.pc.Evicting? ==> e.pc.seen == s.usage && s.usage != 0 && e.pc.pos == s.head)
  }

  lemma BeginKind(s: State, t: Tid, a: Act)
    requires Ready(s, t, a) && !a.Go?
    ensures var e := BeginEffect(s, t, a); Quiet(s, t, e) || Grabs(s, e)
  {
  }

  lemma FreeKind(s: State, t: Tid, r: Rid)
    requires t in s.pcs && FreePc(s.pcs[t]) && PcReady(s, s.pcs[t])
    ensures var e := FreeEffect(s, s.pcs[t], r); Quiet(s, t, e) || Grabs(s, e)
  {
  }

  lemma QuietTable(s: State, t: Tid, e: Effect)
    requires TableExact(s) && MutexExact(s) && Fits(s, e) && LockFits(s, t, e) && Quiet(s, t, e)
    ensures TableExact(Apply(s, t, e))
  {
    hide InLock, MutexExact;
    HolderStep(s, t, e);
    var s' := Apply(s, t, e);
    forall h | 0 <= h < |s'.handles| ensures LinkedAt(s', h) {
      assert LinkedAt(s, h);
    }
    forall k | k in s'.table ensures EntryAt(s', k) {
      assert EntryAt(s, k);
    }
  }

  lemma GrabTable(s: State, t: Tid, e: Effect)
    requires TableExact(s) && MutexExact(s) && Fits(s, e) && LockFits(s, t, e) && Grabs(s, e)
    ensures TableExact(Apply(s, t, e))
  {
    hide InLock, MutexExact;
    HolderStep(s, t, e);
    var s' := Apply(s, t, e);
    assert Holder(s) == Idle;
    forall h | 0 <= h < |s'.handles| ensures LinkedAt(s', h) {
      assert LinkedAt(s, h);
    }
    forall k | k in s'.table ensures EntryAt(s', k) {
      assert EntryAt(s, k);
    }
  }

  /** The mutex holder's step and what it knows. */
  predicate Holding(s: State, t: Tid) {
    t in s.pcs && InLock(s.pcs[t]) && Holder(s) == s.pcs[t] && PcBound(s, s.pcs[t]) && HolderKnows(s)
  }

  predicate RecyclePc(pc: Pc) {
    pc.Recycling? || pc.Reclaim?
  }

  /** What the other lemmas establish about the mutex holder's next state. */
  predicate Lands(s: State, t: Tid, e: Effect) {
    && Holding(s, t) && Fits(s, e) && Holder(Apply(s, t, e)) == HolderAfter(s, t, e)
    && (PcDuty(s.pcs[t]).Some? ==> PcDuty(s.pcs[t]).value < |s.handles| && !s.handles[PcDuty(s.pcs[t]).value].inCache)
  }

  lemma RecycleLinked(s: State, t: Tid, h: Hid)
    requires t in s.pcs && ErasePc(s.pcs[t]) && RecyclePc(s.pcs[t]) && h < |s.handles| && LinkedAt(s, h)
    requires PcReady(s, s.pcs[t]) && Lands(s, t, EraseEffect(s, s.pcs[t]))
    ensures LinkedAt(Apply(s, t, EraseEffect(s, s.pcs[t])), h)
  {
  }

  lemma UnlinkLinked(s: State, t: Tid, h: Hid)
    requires t in s.pcs && ErasePc(s.pcs[t]) && !RecyclePc(s.pcs[t]) && h < |s.handles| && LinkedAt(s, h)
    requires PcReady(s, s.pcs[t]) && Lands(s, t, EraseEffect(s, s.pcs[t]))
    ensures LinkedAt(Apply(s, t, EraseEffect(s, s.pcs[t])), h)
  {
  }

  lemma EraseEntry(s: State, t: Tid, k: CacheKey)
    requires t in s.pcs && ErasePc(s.pcs[t]) && PcReady(s, s.pcs[t]) && Lands(s, t, EraseEffect(s, s.pcs[t]))
    requires k in Apply(s, t, EraseEffect(s, s.pcs[t])).table
    requires k in s.table ==> EntryAt(s, k)
    ensures EntryAt(Apply(s, t, EraseEffect(s, s.pcs[t])), k)
  {
  }

  lemma EraseKnows(s: State, t: Tid)
    requires t in s.pcs && ErasePc(s.pcs[t]) && PcReady(s, s.pcs[t]) && Lands(s, t, EraseEffect(s, s.pcs[t]))
    requires forall k | k in s.table :: EntryAt(s, k)
    ensures HolderKnows(Apply(s, t, EraseEffect(s, s.pcs[t])))
  {
  }

  lemma EvictLinked(s: State, t: Tid, h: Hid)
    requires t in s.pcs && EvictPc(s.pcs[t]) && PcReady(s, s.pcs[t]) && Lands(s, t, EvictEffect(s, s.pcs[t]))
    requires h < |s.handles| && LinkedAt(s, h)
    ensures LinkedAt(Apply(s, t, EvictEffect(s, s.pcs[t])), h)
  {
  }

  lemma EvictEntry(s: State, t: Tid, k: CacheKey)
    requires t in s.pcs && EvictPc(s.pcs[t]) && PcReady(s, s.pcs[t]) && Lands(s, t, EvictEffect(s, s.pcs[t]))
    requires k in Apply(s, t, EvictEffect(s, s.pcs[t])).table && EntryAt(s, k)
    ensures EntryAt(Apply(s, t, EvictEffect(s, s.pcs[t])), k)
  {
  }

  lemma EvictKnows(s: State, t: Tid)
    requires t in s.pcs && EvictPc(s.pcs[t]) && PcReady(s, s.pcs[t]) && Lands(s, t, EvictEffect(s, s.pcs[t]))
    requires forall h | 0 <= h < |s.handles| :: LinkedAt(s, h)
    ensures HolderKnows(Apply(s, t, EvictEffect(s, s.pcs[t])))
  {
    if s.pcs[t].Evicting? {
      assert LinkedAt(s, s.pcs[t].pos);
    }
  }

  lemma InsertLinked(s: State, t: Tid, r: Rid, h: Hid)
    requires t in s.pcs && InsertPc(s.pcs[t]) && PcReady(s, s.pcs[t]) && BinInRange(s) &&
             Lands(s, t, InsertEffect(s, s.pcs[t], r))
    requires h < |Apply(s, t, InsertEffect(s, s.pcs[t], r)).handles| && (h < |s.handles| ==> LinkedAt(s, h))
    requires s.recycle != [] ==> !s.handles[s.recycle[|s.recycle| - 1]].inCache
    ensures LinkedAt(Apply(s, t, InsertEffect(s, s.pcs[t], r)), h)
  {
  }

  lemma InsertEntry(s: State, t: Tid, r: Rid, k: CacheKey)
    requires t in s.pcs && InsertPc(s.pcs[t]) && PcReady(s, s.pcs[t]) && BinInRange(s) &&
             Lands(s, t, InsertEffect(s, s.pcs[t], r))
    requires k in Apply(s, t, InsertEffect(s, s.pcs[t], r)).table && (k in s.table ==> EntryAt(s, k))
    requires s.recycle != [] ==> !s.handles[s.recycle[|s.recycle| - 1]].inCache
    ensures EntryAt(Apply(s, t, InsertEffect(s, s.pcs[t], r)), k)
  {
  }

  lemma InsertKnows(s: State, t: Tid, r: Rid)
    requires t in s.pcs && InsertPc(s.pcs[t]) && PcReady(s, s.pcs[t]) && BinInRange(s) &&
             Lands(s, t, InsertEffect(s, s.pcs[t], r))
    requires forall k | k in s.table :: EntryAt(s, k)
    ensures HolderKnows(Apply(s, t, InsertEffect(s, s.pcs[t], r)))
  {
    if s.pcs[t].Stored? && s.pcs[t].job.ckey in s.table {
      assert EntryAt(s, s.pcs[t].job.ckey);
    }
    if s.pcs[t].Filled? && s.pcs[t].job.ckey in s.table {
      assert EntryAt(s, s.pcs[t].job.ckey);
    }
  }

  lemma HolderLands(s: State, t: Tid, a: Act)
    requires OnePlace(s) && TableExact(s) && MutexExact(s) && Bounds(s) && Ready(s, t, a) && a.Go? && InLock(s.pcs[t])
    ensures Fits(s, EffectOf(s, t, a)) && Lands(s, t, EffectOf(s, t, a))
  {
    hide OnePlace, EffectOf, PcDuty, PcHandle, HolderKnows, Fits;
    EffectFitsNow(s, t, a);
    EffectLockNow(s, t, a);
    HolderIs(s, t);
    HolderStep(s, t, EffectOf(s, t, a));
    if PcDuty(s.pcs[t]).Some? {
      DutyIsAlone(s, t);
    }
  }

  lemma EffectFitsNow(s: State, t: Tid, a: Act)
    requires OnePlace(s) && Ready(s, t, a)
    ensures BinInRange(s) && Fits(s, EffectOf(s, t, a))
  {
    hide EffectOf, PcDuty;
    EffectFits(s, t, a);
  }

  lemma EffectLockNow(s: State, t: Tid, a: Act)
    requires OnePlace(s) && Ready(s, t, a)
    ensures BinInRange(s) && LockFits(s, t, EffectOf(s, t, a))
  {
    hide EffectOf, PcDuty, LockFits;
    EffectLock(s, t, a);
  }

  lemma EraseTable(s: State, t: Tid, r: Rid)
    requires OnePlace(s) && TableExact(s) && MutexExact(s) && Bounds(s) && Ready(s, t, Go(r)) && ErasePc(s.pcs[t])
    ensures BinInRange(s) && TableExact(Next(s, t, Go(r)))
  {
    hide OnePlace, EraseEffect, LinkedAt, EntryAt, HolderKnows, MutexExact, Bounds;
    EffectFitsNow(s, t, Go(r));
    HolderLands(s, t, Go(r));
    var s' := Next(s, t, Go(r));
    ErasePoints(s, t);
    forall h | 0 <= h < |s'.handles| ensures LinkedAt(s', h) {
      if RecyclePc(s.pcs[t]) { RecycleLinked(s, t, h); } else { UnlinkLinked(s, t, h); }
    }
    forall k | k in s'.table ensures EntryAt(s', k) {
      EraseEntry(s, t, k);
    }
    EraseKnows(s, t);
  }

  lemma ErasePoints(s: State, t: Tid)
    requires t in s.pcs && ErasePc(s.pcs[t]) && PcReady(s, s.pcs[t]) && Fits(s, EraseEffect(s, s.pcs[t]))
    ensures |Apply(s, t, EraseEffect(s, s.pcs[t])).handles| == |s.handles|
  {
  }

  lemma EvictTable(s: State, t: Tid, r: Rid)
    requires OnePlace(s) && TableExact(s) && MutexExact(s) && Bounds(s) && Ready(s, t, Go(r)) && EvictPc(s.pcs[t])
    ensures BinInRange(s) && TableExact(Next(s, t, Go(r)))
  {
    hide OnePlace, EvictEffect, LinkedAt, EntryAt, HolderKnows, MutexExact, Bounds;
    EffectFitsNow(s, t, Go(r));
    HolderLands(s, t, Go(r));
    var s' := Next(s, t, Go(r));
    EvictPoints(s, t);
    forall h | 0 <= h < |s'.handles| ensures LinkedAt(s', h) {
      EvictLinked(s, t, h);
    }
    forall k | k in s'.table ensures EntryAt(s', k) {
      EvictKeys(s, t, k);
      EvictEntry(s, t, k);
    }
    EvictKnows(s, t);
  }

  lemma EvictPoints(s: State, t: Tid)
    requires t in s.pcs && EvictPc(s.pcs[t]) && PcReady(s, s.pcs[t]) && Fits(s, EvictEffect(s, s.pcs[t]))
    ensures |Apply(s, t, EvictEffect(s, s.pcs[t])).handles| == |s.handles|
  {
  }

  lemma EvictKeys(s: State, t: Tid, k: CacheKey)
    requires t in s.pcs && EvictPc(s.pcs[t]) && PcReady(s, s.pcs[t]) && Fits(s, EvictEffect(s, s.pcs[t]))
    requires k in Apply(s, t, EvictEffect(s, s.pcs[t])).table
    ensures k in s.table
  {
  }

  lemma InsertTable(s: State, t: Tid, r: Rid)
    requires OnePlace(s) && TableExact(s) && MutexExact(s) && Bounds(s) && Ready(s, t, Go(r)) && InsertPc(s.pcs[t])
    ensures BinInRange(s) && TableExact(Next(s, t, Go(r)))
  {
    hide OnePlace, InsertEffect, LinkedAt, EntryAt, HolderKnows, MutexExact, Bounds;
    EffectFitsNow(s, t, Go(r));
    HolderLands(s, t, Go(r));
    var s' := Next(s, t, Go(r));
    if s.recycle != [] {
      BinIsIdle(s, s.recycle[|s.recycle| - 1]);
    }
    forall h | 0 <= h < |s'.handles| ensures LinkedAt(s', h) {
      InsertLinked(s, t, r, h);
    }
    forall k | k in s'.table ensures EntryAt(s', k) {
      InsertEntry(s, t, r, k);
    }
    InsertKnows(s, t, r);
  }

  lemma NextTable(s: State, t: Tid, a: Act)
    requires OnePlace(s) && TableExact(s) && MutexExact(s) && Bounds(s) && Ready(s, t, a)
    ensures BinInRange(s) && TableExact(Next(s, t, a))
  {
    hide OnePlace, TableExact, MutexExact, Bounds, BeginEffect, FreeEffect, EraseEffect, EvictEffect, InsertEffect,
         LockFits, Quiet, Grabs, Fits, Apply;
    EffectFitsNow(s, t, a);
    EffectLockNow(s, t, a);
    var e := EffectOf(s, t, a);
    if a.Go? && ErasePc(s.pcs[t]) {
      EraseTable(s, t, a.r);
    } else if a.Go? && EvictPc(s.pcs[t]) {
      EvictTable(s, t, a.r);
    } else if a.Go? && InsertPc(s.pcs[t]) {
      InsertTable(s, t, a.r);
    } else {
      OutsideKind(s, t, a);
      if Quiet(s, t, e) { QuietTable(s, t, e); } else { GrabTable(s, t, e); }
    }
  }

  lemma OutsideKind(s: State, t: Tid, a: Act)
    requires Ready(s, t, a) && BinInRange(s) && (a.Go? ==> FreePc(s.pcs[t]))
    ensures Quiet(s, t, EffectOf(s, t, a)) || Grabs(s, EffectOf(s, t, a))
  {
    hide BeginEffect, FreeEffect, Quiet, Grabs;
    if a.Go? { FreeKind(s, t, a.r); } else { BeginKind(s, t, a); }
  }

  // ---- usage_ -------------------------------------------------------------------------------------------

  lemma {:induction false} TotalSame(s: State, s': State, n: nat)
    requires n <= |s.handles| && n <= |s'.handles|
    requires forall h | 0 <= h < n :: Weight(s', h) == Weight(s, h)
    ensures Total(s', n) == Total(s, n)
  {
    hide Weight;
    if n > 0 {
      TotalSame(s, s', n - 1);
    }
  }

  lemma {:induction false} TotalDelta(s: State, s': State, n: nat, c: Hid)
    requires c < n <= |s.handles| && n <= |s'.handles|
    requires forall h | 0 <= h < n && h != c :: Weight(s', h) == Weight(s, h)
    ensures Total(s', n) + Weight(s, c) == Total(s, n) + Weight(s', c)
  {
    hide Weight;
    if c == n - 1 {
      TotalSame(s, s', n - 1);
    } else {
      TotalDelta(s, s', n - 1, c);
    }
  }

  /** The one handle whose contribution to usage_ a step changes. */
  function Changed(e: Effect): Option<Hid> {
    if e.bin.Push? then Some(e.bin.h) else if e.table.Link? then Some(e.table.h) else None
  }

  /** Weights and usage_ move together. */
  predicate WeightStep(s: State, t: Tid, e: Effect, h: Hid)
    requires Fits(s, e) && h < |Apply(s, t, e).handles|
  {
    var s' := Apply(s, t, e);
    if h >= |s.handles| then Weight(s', h) == 0 && Changed(e) != Some(h)
    else if Changed(e) == Some(h) then Weight(s', h) - Weight(s, h) == s'.usage - s.usage
    else Weight(s', h) == Weight(s, h)
  }

  predicate ChangedFits(s: State, e: Effect)
    requires Fits(s, e)
  {
    if Changed(e).Some? then Changed(e).value < |s.handles| else e.added == 0
  }

  lemma ApplyUsage(s: State, t: Tid, e: Effect)
    requires UsageExact(s) && Fits(s, e) && ChangedFits(s, e)
    requires forall h | 0 <= h < |Apply(s, t, e).handles| :: WeightStep(s, t, e, h)
    ensures UsageExact(Apply(s, t, e))
  {
    hide Weight;
    var s' := Apply(s, t, e);
    var n := |s.handles|;
    forall h | 0 <= h < n && Changed(e) != Some(h) ensures Weight(s', h) == Weight(s, h) {
      assert WeightStep(s, t, e, h);
    }
    if Changed(e).Some? {
      assert WeightStep(s, t, e, Changed(e).value);
      TotalDelta(s, s', n, Changed(e).value);
    } else {
      TotalSame(s, s', n);
    }
    if e.handle.Append? {
      assert WeightStep(s, t, e, n);
    }
  }

  lemma QuietWeight(s: State, t: Tid, e: Effect, h: Hid)
    requires MutexExact(s) && Fits(s, e) && LockFits(s, t, e) && (Quiet(s, t, e) || Grabs(s, e))
    requires h < |Apply(s, t, e).handles|
    ensures WeightStep(s, t, e, h) && ChangedFits(s, e)
  {
    hide InLock, MutexExact;
    HolderStep(s, t, e);
    if Grabs(s, e) {
      NobodyHolds(s);
    }
  }

  lemma NobodyHolds(s: State)
    requires s.mutex.None?
    ensures Holder(s) == Idle
  {
  }

  lemma EraseWeight(s: State, t: Tid, h: Hid)
    requires t in s.pcs && ErasePc(s.pcs[t]) && PcReady(s, s.pcs[t]) && Lands(s, t, EraseEffect(s, s.pcs[t]))
    requires RecyclePc(s.pcs[t]) ==> s.pcs[t].h !in s.recycle
    requires h < |Apply(s, t, EraseEffect(s, s.pcs[t])).handles|
    ensures WeightStep(s, t, EraseEffect(s, s.pcs[t]), h) && ChangedFits(s, EraseEffect(s, s.pcs[t]))
  {
  }

  lemma EvictWeight(s: State, t: Tid, h: Hid)
    requires t in s.pcs && EvictPc(s.pcs[t]) && PcReady(s, s.pcs[t]) && Lands(s, t, EvictEffect(s, s.pcs[t]))
    requires s.pcs[t].EvictReclaim? ==> s.pcs[t].pos !in s.recycle
    requires h < |Apply(s, t, EvictEffect(s, s.pcs[t])).handles|
    ensures WeightStep(s, t, EvictEffect(s, s.pcs[t]), h) && ChangedFits(s, EvictEffect(s, s.pcs[t]))
  {
  }

  lemma InsertWeightAt(s: State, t: Tid, r: Rid, h: Hid)
    requires t in s.pcs && InsertPc(s.pcs[t]) && PcReady(s, s.pcs[t]) && BinInRange(s) &&
             Lands(s, t, InsertEffect(s, s.pcs[t], r))
    requires h < |Apply(s, t, InsertEffect(s, s.pcs[t], r)).handles|
    requires s.recycle != [] ==>
             (h in s.recycle[..|s.recycle| - 1] <==> h in s.recycle && h != s.recycle[|s.recycle| - 1])
    requires s.pcs[t].Linking? ==> s.pcs[t].h !in s.recycle
    ensures WeightStep(s, t, InsertEffect(s, s.pcs[t], r), h)
  {
  }

  lemma InsertChanges(s: State, t: Tid, r: Rid)
    requires t in s.pcs && InsertPc(s.pcs[t]) && PcReady(s, s.pcs[t]) && BinInRange(s) &&
             Lands(s, t, InsertEffect(s, s.pcs[t], r))
    ensures ChangedFits(s, InsertEffect(s, s.pcs[t], r))
  {
  }

  lemma InsertWeight(s: State, t: Tid, r: Rid, h: Hid)
    requires t in s.pcs && InsertPc(s.pcs[t]) && PcReady(s, s.pcs[t]) && BinInRange(s) &&
             Lands(s, t, InsertEffect(s, s.pcs[t], r))
    requires h < |Apply(s, t, InsertEffect(s, s.pcs[t], r)).handles|
    requires s.recycle != [] ==>
             (h in s.recycle[..|s.recycle| - 1] <==> h in s.recycle && h != s.recycle[|s.recycle| - 1])
    requires s.pcs[t].Linking? ==> s.pcs[t].h !in s.recycle
    ensures WeightStep(s, t, InsertEffect(s, s.pcs[t], r), h) && ChangedFits(s, InsertEffect(s, s.pcs[t], r))
  {
    hide InsertEffect, Apply, WeightStep, ChangedFits, Lands, PcReady;
    InsertWeightAt(s, t, r, h);
    InsertChanges(s, t, r);
  }

  lemma PoppedOut(s: State, h: Hid)
    requires OnePlace(s) && s.recycle != []
    ensures h in s.recycle[..|s.recycle| - 1] <==> h in s.recycle && h != s.recycle[|s.recycle| - 1]
  {
    hide Uses, Duties;
    InBin(s.recycle, h);
    BinIsIdle(s, s.recycle[|s.recycle| - 1]);
    assert h in s.recycle <==> multiset(s.recycle)[h] > 0;
  }

  lemma InUseNotInBin(s: State, h: Hid)
    requires OnePlace(s) && h < |s.handles| && s.handles[h].inCache
    ensures h !in s.recycle
  {
    hide OnePlace;
    if h in s.recycle {
      BinIsIdle(s, h);
    }
  }

  lemma NextWeight(s: State, t: Tid, a: Act, h: Hid)
    requires OnePlace(s) && TableExact(s) && MutexExact(s) && Bounds(s) && Ready(s, t, a)
    requires BinInRange(s) && h < |Next(s, t, a).handles|
    ensures Fits(s, EffectOf(s, t, a)) && WeightStep(s, t, EffectOf(s, t, a), h) && ChangedFits(s, EffectOf(s, t, a))
  {
    hide OnePlace, MutexExact, Bounds, BeginEffect, FreeEffect, EraseEffect, EvictEffect, InsertEffect, LockFits,
         Quiet, Grabs, Fits, Apply, WeightStep, ChangedFits, LinkedAt, EntryAt, Lands;
    EffectFitsNow(s, t, a);
    EffectLockNow(s, t, a);
    if a.Go? && InLock(s.pcs[t]) {
      HolderLands(s, t, a);
      HolderIs(s, t);
      if PcDuty(s.pcs[t]).Some? {
        DutyIsAlone(s, t);
      }
      if ErasePc(s.pcs[t]) {
        EraseWeight(s, t, h);
      } else if EvictPc(s.pcs[t]) {
        EvictWeight(s, t, h);
      } else {
        if s.recycle != [] {
          PoppedOut(s, h);
        }
        if s.pcs[t].Linking? {
          InUseNotInBin(s, s.pcs[t].h);
        }
        InsertWeight(s, t, a.r, h);
      }
    } else {
      OutsideKind(s, t, a);
      QuietWeight(s, t, EffectOf(s, t, a), h);
    }
  }

  lemma NextUsage(s: State, t: Tid, a: Act)
    requires Inv(s) && Ready(s, t, a)
    ensures UsageExact(Next(s, t, a))
  {
    hide RefsExact, OnePlace, TableExact, UsageExact, MutexExact, GensExact, Bounds, Apply, EffectOf, WeightStep,
         ChangedFits;
    EffectFitsNow(s, t, a);
    var s' := Next(s, t, a);
    forall h | 0 <= h < |s'.handles|
      ensures WeightStep(s, t, EffectOf(s, t, a), h) && ChangedFits(s, EffectOf(s, t, a)) {
      NextWeight(s, t, a, h);
    }
    if |s'.handles| == 0 {
      EmptyChange(s, t, a);
    } else {
      NextWeight(s, t, a, 0);
    }
    ApplyUsage(s, t, EffectOf(s, t, a));
  }

  lemma EmptyChange(s: State, t: Tid, a: Act)
    requires Ready(s, t, a) && BinInRange(s) && Fits(s, EffectOf(s, t, a)) && |Next(s, t, a).handles| == 0
    ensures ChangedFits(s, EffectOf(s, t, a))
  {
  }

  // ---- bounds -----------------------------------------------------------------------------------------------

  predicate BoundFits(s: State, e: Effect) {
    var n := |s.handles| + One(e.handle.Append?);
    && (PcHandle(e.pc).Some? ==> PcHandle(e.pc).value < n)
    && (e.pc.Unsetting? || e.pc.Reclaim? ==> e.pc.k.InsertNext? ==> e.pc.k.h < n)
    && (e.head.Some? ==> e.head.value < |s.handles|)
  }

  lemma BeginBound(s: State, t: Tid, a: Act)
    requires Ready(s, t, a) && !a.Go?
    requires forall k | k in s.table :: EntryAt(s, k)
    requires forall r | r in s.held :: s.held[r].h < |s.handles|
    requires s.usage != 0 ==> s.head < |s.handles|
    ensures BoundFits(s, BeginEffect(s, t, a))
  {
    if a.Lookup? && a.ckey in s.table {
      assert EntryAt(s, a.ckey);
    }
  }

  lemma FreeBound(s: State, pc: Pc, r: Rid)
    requires FreePc(pc) && PcReady(s, pc) && (PcDuty(pc).Some? ==> PcDuty(pc).value < |s.handles|)
    ensures BoundFits(s, FreeEffect(s, pc, r))
  {
  }

  lemma EraseBound(s: State, pc: Pc)
    requires ErasePc(pc) && PcBound(s, pc)
    requires forall k | k in s.table :: EntryAt(s, k)
    ensures BoundFits(s, EraseEffect(s, pc))
  {
    if pc.EraseLocked? && pc.ckey in s.table {
      assert EntryAt(s, pc.ckey);
    }
  }

  lemma EvictBound(s: State, pc: Pc)
    requires EvictPc(pc) && PcBound(s, pc)
    ensures BoundFits(s, EvictEffect(s, pc))
  {
  }

  lemma InsertBound(s: State, pc: Pc, r: Rid)
    requires InsertPc(pc) && PcBound(s, pc) && BinInRange(s)
    requires forall k | k in s.table :: EntryAt(s, k)
    ensures BoundFits(s, InsertEffect(s, pc, r))
  {
    if pc.Stored? && pc.job.Put? && pc.job.ckey in s.table {
      assert EntryAt(s, pc.job.ckey);
    }
  }

  /** If anything is charged, there is a handle to sweep. */
  lemma UsageMeansHandles(s: State)
    requires UsageExact(s) && (s.head < |s.handles| || s.head == 0)
    ensures s.usage != 0 ==> s.head < |s.handles|
  {
  }

  lemma EffectBound(s: State, t: Tid, a: Act)
    requires Inv(s) && Ready(s, t, a)
    ensures BinInRange(s) && BoundFits(s, EffectOf(s, t, a))
  {
    hide RefsExact, MutexExact, UsageExact, Duties, Uses, PcDuty, EntryAt, LinkedAt, HolderKnows, BoundFits,
         BeginEffect, FreeEffect, EraseEffect, EvictEffect, InsertEffect;
    if !a.Go? {
      UsageMeansHandles(s);
      BeginBound(s, t, a);
    } else if FreePc(s.pcs[t]) {
      assert DutyOf(s, t).Some? ==> DutyOf(s, t).value < |s.handles|;
      FreeBound(s, s.pcs[t], a.r);
    } else if ErasePc(s.pcs[t]) {
      EraseBound(s, s.pcs[t]);
    } else if EvictPc(s.pcs[t]) {
      EvictBound(s, s.pcs[t]);
    } else {
      InsertBound(s, s.pcs[t], a.r);
    }
  }

  /** The usage_ value the sweep remembers is still the true one. */
  predicate SeenFits(s: State, t: Tid, e: Effect)
    requires Fits(s, e)
  {
    && (e.pc.Evicting? || e.pc.EvictClear? ==> e.pc.seen == Apply(s, t, e).usage)
    && (!InLock(PcOf(s, t)) && e.lock.KeepLock? ==> Apply(s, t, e).usage == s.usage)
  }

  lemma EvictSeen(s: State, t: Tid)
    requires t in s.pcs && EvictPc(s.pcs[t]) && PcReady(s, s.pcs[t]) && Fits(s, EvictEffect(s, s.pcs[t]))
    requires s.pcs[t].Evicting? || s.pcs[t].EvictClear? ==> s.pcs[t].seen == s.usage
    ensures SeenFits(s, t, EvictEffect(s, s.pcs[t]))
  {
  }

  lemma EraseSeen(s: State, t: Tid)
    requires t in s.pcs && ErasePc(s.pcs[t]) && PcReady(s, s.pcs[t]) && Fits(s, EraseEffect(s, s.pcs[t]))
    ensures SeenFits(s, t, EraseEffect(s, s.pcs[t]))
  {
  }

  lemma InsertSeen(s: State, t: Tid, r: Rid)
    requires t in s.pcs && InsertPc(s.pcs[t]) && PcReady(s, s.pcs[t]) && BinInRange(s) &&
             Fits(s, InsertEffect(s, s.pcs[t], r))
    ensures SeenFits(s, t, InsertEffect(s, s.pcs[t], r))
  {
  }

  lemma OutsideSeen(s: State, t: Tid, a: Act)
    requires Ready(s, t, a) && BinInRange(s) && (a.Go? ==> FreePc(s.pcs[t])) && Fits(s, EffectOf(s, t, a))
    ensures SeenFits(s, t, EffectOf(s, t, a))
  {
    hide BeginEffect, FreeEffect;
    OutsideKind(s, t, a);
    if a.Go? { FreeNoSweep(s, s.pcs[t], a.r); } else { BeginSweep(s, t, a); }
  }

  lemma FreeNoSweep(s: State, pc: Pc, r: Rid)
    requires FreePc(pc) && PcReady(s, pc)
    ensures var e := FreeEffect(s, pc, r); !e.pc.Evicting? && !e.pc.EvictClear?
  {
  }

  lemma BeginSweep(s: State, t: Tid, a: Act)
    requires Ready(s, t, a) && !a.Go?
    ensures var e := BeginEffect(s, t, a);
            && !e.pc.EvictClear? && (e.pc.Evicting? ==> e.pc.seen == s.usage)
            && e.added == 0 && e.bin.NoBin?
  {
  }

  lemma EffectSeen(s: State, t: Tid, a: Act)
    requires OnePlace(s) && MutexExact(s) && Bounds(s) && Ready(s, t, a)
    ensures BinInRange(s) && Fits(s, EffectOf(s, t, a)) && SeenFits(s, t, EffectOf(s, t, a))
  {
    hide OnePlace, MutexExact, BeginEffect, FreeEffect, EraseEffect, EvictEffect, InsertEffect, SeenFits, Fits;
    EffectFitsNow(s, t, a);
    if a.Go? && InLock(s.pcs[t]) {
      HolderIs(s, t);
      if ErasePc(s.pcs[t]) {
        EraseSeen(s, t);
      } else if EvictPc(s.pcs[t]) {
        EvictSeen(s, t);
      } else {
        InsertSeen(s, t, a.r);
      }
    } else {
      OutsideSeen(s, t, a);
    }
  }

  lemma ApplyBounds(s: State, t: Tid, e: Effect)
    requires Bounds(s) && MutexExact(s) && Fits(s, e) && BoundFits(s, e) && SeenFits(s, t, e) && LockFits(s, t, e)
    ensures Bounds(Apply(s, t, e))
  {
    hide InLock, MutexExact;
    HolderStep(s, t, e);
    var s' := Apply(s, t, e);
    forall u | u in s'.pcs ensures PcBound(s', s'.pcs[u]) {
      if u != t {
        assert PcBound(s, s.pcs[u]);
      }
    }
  }

  // ---- every run ------------------------------------------------------------------------------------------------

  lemma StepKeepsInv(s: State, t: Tid, a: Act)
    requires Inv(s) && Enabled(s, t, a)
    ensures Ready(s, t, a) && BinInRange(s) && Legal(s, t, a) && Inv(Next(s, t, a))
  {
    hide RefsExact, OnePlace, TableExact, UsageExact, MutexExact, GensExact, Bounds, Apply, EffectOf, Legal, LockFits,
         GenFits, HeldFits, BoundFits, SeenFits, Enabled, Ready;
    EnabledIsReady(s, t, a);
    EffectFitsNow(s, t, a);
    EffectLockNow(s, t, a);
    StepLegal(s, t, a);
    NextRefs(s, t, a);
    NextPlace(s, t, a);
    NextTable(s, t, a);
    NextUsage(s, t, a);
    var e := EffectOf(s, t, a);
    ApplyMutex(s, t, e);
    EffectGen(s, t, a);
    ApplyGens(s, t, e);
    EffectBound(s, t, a);
    EffectSeen(s, t, a);
    ApplyBounds(s, t, e);
  }

  lemma InitInv(s: State)
    requires Init(s)
    ensures Inv(s)
  {
  }

  datatype Move = Move(t: Tid, a: Act)

  /** A run: enabled steps taken one after another from an empty shard. What a step
      on a missing handle would do is left open. */
  ghost predicate IsRun(r: seq<State>, ms: seq<Move>) {
    && |r| == |ms| + 1
    && Init(r[0])
    && (forall i | 0 <= i < |ms| ::
          && Enabled(r[i], ms[i].t, ms[i].a)
          && (Ready(r[i], ms[i].t, ms[i].a) && BinInRange(r[i]) ==> r[i + 1] == Next(r[i], ms[i].t, ms[i].a)))
  }

  lemma {:induction false} RunKeepsInv(r: seq<State>, ms: seq<Move>, i: nat)
    requires IsRun(r, ms) && i < |r|
    ensures Inv(r[i])
  {
    hide Inv, Init, Ready, Enabled, Next, Legal, BinInRange;
    if i == 0 {
      InitInv(r[0]);
    } else {
      RunKeepsInv(r, ms, i - 1);
      assert Enabled(r[i - 1], ms[i - 1].t, ms[i - 1].a);
      StepKeepsInv(r[i - 1], ms[i - 1].t, ms[i - 1].a);
    }
  }

  /** Every assertion of the code holds at every step of every run: a dropped
      reference exists, a recycled handle is idle and recycled for the first time
      since it was filled, an evicted entry is in the table. */
  lemma EveryStepLegal(r: seq<State>, ms: seq<Move>, i: nat)
    requires IsRun(r, ms) && i < |ms|
    ensures Ready(r[i], ms[i].t, ms[i].a) && BinInRange(r[i]) && Legal(r[i], ms[i].t, ms[i].a)
    ensures r[i + 1] == Next(r[i], ms[i].t, ms[i].a)
  {
    hide Inv, Init, Ready, Enabled, Next, Legal, BinInRange;
    RunKeepsInv(r, ms, i);
    assert Enabled(r[i], ms[i].t, ms[i].a);
    StepKeepsInv(r[i], ms[i].t, ms[i].a);
  }

  /** Exactly-once recycling: every handle is in use, or one call alone is about to
      recycle (or publish) it, or it is in the bin, once. */
  lemma RecycledExactlyOnce(r: seq<State>, ms: seq<Move>, i: nat, h: Hid)
    requires IsRun(r, ms) && i < |r| && h < |r[i].handles|
    ensures Uses(r[i].handles[h]) + |Duties(r[i], h)| + multiset(r[i].recycle)[h] == 1
    ensures r[i].handles[h].refs == |Referrers(r[i], h)|
  {
    hide TableExact, UsageExact, MutexExact, GensExact, Bounds, Init;
    RunKeepsInv(r, ms, i);
  }

  /** Whenever the mutex is free, the table maps exactly the in-cache handles by
      their key, and usage_ is the total charge of the handles out of the bin. */
  lemma QuiescentShard(r: seq<State>, ms: seq<Move>, i: nat)
    requires IsRun(r, ms) && i < |r| && r[i].mutex.None?
    ensures forall h | 0 <= h < |r[i].handles| && r[i].handles[h].inCache ::
              r[i].handles[h].ckey in r[i].table && r[i].table[r[i].handles[h].ckey] == h
    ensures forall k | k in r[i].table ::
              r[i].table[k] < |r[i].handles| && r[i].handles[r[i].table[k]].inCache &&
              r[i].handles[r[i].table[k]].ckey == k
    ensures r[i].usage == ChargeOutOfBin(r[i], |r[i].handles|)
  {
    hide RefsExact, OnePlace, MutexExact, GensExact, Bounds, Init;
    RunKeepsInv(r, ms, i);
    NobodyHolds(r[i]);
    forall h | 0 <= h < |r[i].handles| && r[i].handles[h].inCache
      ensures r[i].handles[h].ckey in r[i].table && r[i].table[r[i].handles[h].ckey] == h
    {
      assert LinkedAt(r[i], h);
    }
    forall k | k in r[i].table
      ensures r[i].table[k] < |r[i].handles| && r[i].handles[r[i].table[k]].inCache &&
              r[i].handles[r[i].table[k]].ckey == k
    {
      assert EntryAt(r[i], k);
    }
    TotalIsCharge(r[i], |r[i].handles|);
  }

  function ChargeOutOfBin(s: State, n: nat): nat
    requires n <= |s.handles|
  {
    if n == 0 then 0 else ChargeOutOfBin(s, n - 1) + if n - 1 in s.recycle then 0 else s.handles[n - 1].charge
  }

  lemma {:induction false} TotalIsCharge(s: State, n: nat)
    requires n <= |s.handles| && Holder(s) == Idle
    ensures Total(s, n) == ChargeOutOfBin(s, n)
  {
    if n > 0 {
      TotalIsCharge(s, n - 1);
    }
  }

  // ---- a held reference is stable ---------------------------------------------------------------------------------

  /** As long as a filling has not gone to its deleter, no step changes what the
      client sees through the handle. */
  lemma FillingStable(s: State, t: Tid, a: Act, h: Hid)
    requires Ready(s, t, a) && BinInRange(s) && h < |s.handles|
    ensures var s' := Next(s, t, a);
            && h < |s'.handles| && s.handles[h].gen <= s'.handles[h].gen && s.freed <= s'.freed
            && (s'.handles[h].gen == s.handles[h].gen && (h, s.handles[h].gen) !in s'.freed ==>
                  && s'.handles[h].ckey == s.handles[h].ckey
                  && s'.handles[h].value == s.handles[h].value && s'.handles[h].charge == s.handles[h].charge)
  {
    EffectFits(s, t, a);
    EffectGen(s, t, a);
    ContentKept(s, t, a);
  }

  /** Outside a refill and a recycling, only flag bits of a handle are written. */
  lemma ContentKept(s: State, t: Tid, a: Act)
    requires Ready(s, t, a) && BinInRange(s)
    ensures var e := EffectOf(s, t, a);
            e.handle.Set? && e.handle.h < |s.handles| && e.bin.NoBin? ==>
              var x, y := s.handles[e.handle.h], e.handle.x;
              x.ckey == y.ckey && x.value == y.value && x.charge == y.charge
  {
  }

  /** Reference stability: while a client holds a reference, from its return to its
      release, the handle keeps its key, value and charge, and the value has not
      been given to its deleter. */
  lemma {:induction false} HeldReferenceIsStable(r: seq<State>, ms: seq<Move>, i: nat, j: nat, c: Rid)
    requires IsRun(r, ms) && i <= j < |r| && c in r[i].held
    requires forall m | i <= m <= j :: c in r[m].held && r[m].held[c] == r[i].held[c]
    ensures var h := r[i].held[c].h;
            && h < |r[i].handles| && h < |r[j].handles|
            && r[j].handles[h].ckey == r[i].handles[h].ckey
            && r[j].handles[h].value == r[i].handles[h].value && r[j].handles[h].charge == r[i].handles[h].charge
            && (h, r[i].held[c].gen) !in r[j].freed
    decreases j
  {
    hide RefsExact, OnePlace, TableExact, UsageExact, MutexExact, Bounds, Init, Next, Ready, Enabled, Legal, BinInRange;
    RunKeepsInv(r, ms, j);
    var h := r[i].held[c].h;
    assert c in r[j].held && r[j].held[c] == r[i].held[c];
    HeldNotFreed(r[j], c);
    if i < j {
      HeldReferenceIsStable(r, ms, i, j - 1, c);
      RunKeepsInv(r, ms, j - 1);
      assert r[j - 1].held[c] == r[i].held[c];
      EveryStepLegal(r, ms, j - 1);
      FillingStable(r[j - 1], ms[j - 1].t, ms[j - 1].a, h);
    }
  }

  lemma HeldNotFreed(s: State, c: Rid)
    requires RefsExact(s) && OnePlace(s) && GensExact(s) && c in s.held
    ensures s.held[c].h < |s.handles| && s.held[c].gen == s.handles[s.held[c].h].gen
    ensures (s.held[c].h, s.held[c].gen) !in s.freed
  {
    hide RefsExact, OnePlace;
    var h := s.held[c].h;
    ReferrerCounts(s, HeldBy(c));
    if h in s.recycle {
      BinIsIdle(s, h);
    }
  }

  /** A successful Lookup hands out the entry it was asked for. */
  lemma LookupFindsItsKey(s: State, t: Tid, r: Rid)
    requires Inv(s) && Enabled(s, t, Go(r)) && s.pcs[t].Checking?
    ensures Ready(s, t, Go(r)) && BinInRange(s)
    ensures var s' := Next(s, t, Go(r));
            r in s'.held ==>
              && s'.held[r].h < |s'.handles|
              && s'.handles[s'.held[r].h].ckey == s.pcs[t].ckey && s'.handles[s'.held[r].h].value.Some?
  {
    hide RefsExact, OnePlace, TableExact, UsageExact, MutexExact, Bounds;
    EnabledIsReady(s, t, Go(r));
    EffectFitsNow(s, t, Go(r));
    ReferrerCounts(s, CarriedBy(t));
    if s.pcs[t].h in s.recycle {
      BinIsIdle(s, s.pcs[t].h);
    }
  }
}
