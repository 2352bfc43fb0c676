/** The CLOCK cache shard (cache/clock_cache.cc) as atomic steps of any number of
    threads. The in-cache bit, the usage bit and the reference count of a handle
    change together in one atomic word; Lookup, Ref and Release run without the
    mutex, everything else holds it. Memory orders are sequentially consistent,
    and pinned_usage_ is absent. */
module ClockCache {
  import opened Wrappers

  type Tid = nat
  type Hid = nat        // position of a handle in list_
  type Rid = nat        // a reference in the hands of client code

  datatype CacheKey = CacheKey(key: int, hash: nat)

  /** What key.clear() leaves behind. */
  const EMPTY_KEY := 0

  /** gen counts how often the handle has been filled. */
  datatype Handle = Handle(ckey: CacheKey, value: Option<int>, charge: nat, inCache: bool, usage: bool, refs: int,
                           gen: nat)

  /** EvictFromCache runs for an insertion or for SetCapacity. */
  datatype Job = Resize | Put(ckey: CacheKey, value: int, charge: nat, hold: bool)

  /** What follows UnsetInCache. */
  datatype Cont = EraseDone | InsertNext(job: Job, h: Hid) | ClearNext(i: nat)

  datatype Pc =
    | Idle
    | Found(ckey: CacheKey, h: Hid)            // Lookup read the table
    | Checking(ckey: CacheKey, h: Hid)         // Ref succeeded; key to be re-checked
    | Marking(h: Hid, force: bool)             // Release: usage bit comes next
    | Dropping(h: Hid, force: bool)            // fetch_sub comes next
    | WantRecycle(h: Hid)                      // dropped the last reference of an erased entry
    | Recycling(h: Hid)                        // ... and got the mutex
    | ReadKey(h: Hid)                          // force_erase reads the key after its Unref
    | WantErase(ckey: CacheKey)
    | EraseLocked(ckey: CacheKey)
    | Unsetting(h: Hid, k: Cont)               // out of the table; in-cache bit comes next
    | Reclaim(h: Hid, k: Cont)                 // bit cleared, no references; RecycleHandle next
    | Evicting(job: Job, pos: nat, second: bool, seen: int)
    | EvictErase(job: Job, pos: nat, second: bool)     // CAS to 0 succeeded; table erase next
    | EvictReclaim(job: Job, pos: nat, second: bool)   // RecycleHandle next
    | EvictClear(job: Job, pos: nat, second: bool, seen: int)   // CAS failed; usage bit reset next
    | Evicted(job: Job, ok: bool)
    | Filled(job: Job, h: Hid)                 // handle filled; flags.store next
    | Stored(job: Job, h: Hid)                 // flags stored; old entry for the key next
    | Linking(job: Job, h: Hid)                // table insert and usage next
    | Clearing(i: nat)                         // EraseUnRefEntries at handle i

  datatype HeldRef = HeldRef(h: Hid, gen: nat)

  datatype State = State(
    handles: seq<Handle>,                      // list_
    table: map<CacheKey, Hid>,
    recycle: seq<Hid>,
    usage: int,
    capacity: nat,
    strict: bool,
    head: nat,
    mutex: Option<Tid>,
    pcs: map<Tid, Pc>,
    held: map<Rid, HeldRef>,                   // references returned to client code
    freed: set<(Hid, nat)>)                    // (handle, gen) whose value went to its deleter

  datatype Act =
    | Start                                    // a thread appears
    | Lookup(ckey: CacheKey)
    | RefAgain(r: Rid, r2: Rid)                // Ref() on a handle the client already holds
    | Release(r: Rid, force: bool)
    | Erase(ckey: CacheKey)
    | InsertLock(job: Job)
    | ResizeLock(capacity: nat)
    | ClearLock
    | Go(r: Rid)                               // the next atomic step of the running call

  predicate FreePc(pc: Pc) {
    pc.Found? || pc.Checking? || pc.Marking? || pc.Dropping? || pc.WantRecycle? || pc.ReadKey? || pc.WantErase?
  }

  /** The thread holds the mutex. */
  predicate InLock(pc: Pc) {
    !pc.Idle? && !FreePc(pc)
  }

  /** The thread is at the point in its code where the action comes next. */
  predicate Enabled(s: State, t: Tid, a: Act) {
    if a.Start? then t !in s.pcs
    else
      && t in s.pcs
      && match a
         case Start => false
         case Go(r) =>
           !s.pcs[t].Idle? && (s.pcs[t].WantRecycle? || s.pcs[t].WantErase? ==> s.mutex.None?) && r !in s.held
         case Lookup(k) => s.pcs[t].Idle?
         case RefAgain(r, r2) => s.pcs[t].Idle? && r in s.held && r2 !in s.held
         case Release(r, force) => s.pcs[t].Idle? && r in s.held
         case Erase(k) => s.pcs[t].Idle?
         case InsertLock(job) => s.pcs[t].Idle? && s.mutex.None? && job.Put?
         case ResizeLock(cap) => s.pcs[t].Idle? && s.mutex.None?
         case ClearLock => s.pcs[t].Idle? && s.mutex.None?
  }

  /** The handle the step dereferences. */
  function Deref(s: State, t: Tid, a: Act): Option<Hid>
    requires Enabled(s, t, a)
  {
    match a
    case RefAgain(r, _) => Some(s.held[r].h)
    case Go(_) => PcHandle(s.pcs[t])
    case _ => None
  }

  function PcHandle(pc: Pc): Option<Hid> {
    match pc
    case Found(_, h) => Some(h)
    case Checking(_, h) => Some(h)
    case Marking(h, _) => Some(h)
    case Dropping(h, _) => Some(h)
    case Recycling(h) => Some(h)
    case ReadKey(h) => Some(h)
    case Unsetting(h, _) => Some(h)
    case Reclaim(h, _) => Some(h)
    case Evicting(_, pos, _, _) => Some(pos)
    case EvictErase(_, pos, _) => Some(pos)
    case EvictReclaim(_, pos, _) => Some(pos)
    case EvictClear(_, pos, _, _) => Some(pos)
    case Filled(_, h) => Some(h)
    case Stored(_, h) => Some(h)
    case Linking(_, h) => Some(h)
    case _ => None
  }

  predicate PcReady(s: State, pc: Pc) {
    PcHandle(pc).Some? ==> PcHandle(pc).value < |s.handles|
  }

  /** The step can be taken: it is next, and the handle it looks at exists. */
  predicate Ready(s: State, t: Tid, a: Act) {
    Enabled(s, t, a) && (Deref(s, t, a).Some? ==> Deref(s, t, a).value < |s.handles|)
  }

  predicate BinInRange(s: State) {
    forall i | 0 <= i < |s.recycle| :: s.recycle[i] < |s.handles|
  }

  predicate ErasePc(pc: Pc) {
    pc.Recycling? || pc.EraseLocked? || pc.Unsetting? || pc.Reclaim? || pc.Clearing?
  }

  predicate EvictPc(pc: Pc) {
    pc.Evicting? || pc.EvictErase? || pc.EvictReclaim? || pc.EvictClear?
  }

  predicate InsertPc(pc: Pc) {
    pc.Evicted? || pc.Filled? || pc.Stored? || pc.Linking?
  }

  predicate Holds(job: Job) {
    job.Put? && job.hold
  }

  // ---- what one step writes ----------------------------------------------------------

  datatype HandleWrite = NoHandle | Set(h: Hid, x: Handle) | Append(x: Handle)

  datatype HeldWrite = NoHeld | Give(r: Rid, ref: HeldRef) | Take(r: Rid)

  datatype TableWrite = NoTable | Link(k: CacheKey, h: Hid) | Unlink(k: CacheKey) | ClearTable

  /** Push is RecycleHandle: the value goes to its deleter, the handle to the bin,
      and its charge leaves usage_. */
  datatype BinWrite = NoBin | Push(h: Hid) | Pop

  datatype LockWrite = KeepLock | TakeLock | DropLock

  /** The acting thread's next position, and its writes to shared state. */
  datatype Effect = Effect(
    pc: Pc,
    handle: HandleWrite,
    held: HeldWrite,
    table: TableWrite,
    bin: BinWrite,
    added: nat,               // usage_.fetch_add
    lock: LockWrite,
    capacity: Option<nat>,
    head: Option<nat>)

  function Moves(pc: Pc): Effect {
    Effect(pc, NoHandle, NoHeld, NoTable, NoBin, 0, KeepLock, None, None)
  }

  function Unlocks(): Effect {
    Moves(Idle).(lock := DropLock)
  }

  predicate Fits(s: State, e: Effect) {
    && (e.handle.Set? ==> e.handle.h < |s.handles|)
    && (e.bin.Push? ==> e.bin.h < |s.handles| && e.handle == Set(e.bin.h, Cleared(s.handles[e.bin.h])))
    && (e.bin.Pop? ==> s.recycle != [])
  }

  /** RecycleHandle clears key, value and deleter. */
  function Cleared(x: Handle): Handle {
    x.(ckey := CacheKey(EMPTY_KEY, x.ckey.hash), value := None)
  }

  function Recycles(s: State, h: Hid, e: Effect): Effect
    requires h < |s.handles|
  {
    e.(handle := Set(h, Cleared(s.handles[h])), bin := Push(h))
  }

  function Apply(s: State, t: Tid, e: Effect): State
    requires Fits(s, e)
  {
    State(
      match e.handle case NoHandle => s.handles case Set(h, x) => s.handles[h := x] case Append(x) => s.handles + [x],
      match e.table
      case NoTable => s.table
      case Link(k, h) => s.table[k := h]
      case Unlink(k) => s.table - {k}
      case ClearTable => map[],
      match e.bin case NoBin => s.recycle case Push(h) => s.recycle + [h] case Pop => s.recycle[..|s.recycle| - 1],
      s.usage + e.added - (if e.bin.Push? then s.handles[e.bin.h].charge else 0),
      if e.capacity.Some? then e.capacity.value else s.capacity,
      s.strict,
      if e.head.Some? then e.head.value else s.head,
      match e.lock case KeepLock => s.mutex case TakeLock => Some(t) case DropLock => None,
      s.pcs[t := e.pc],
      match e.held case NoHeld => s.held case Give(r, ref) => s.held[r := ref] case Take(r) => s.held - {r},
      if e.bin.Push? then s.freed + {(e.bin.h, s.handles[e.bin.h].gen)} else s.freed)
  }

  // ---- the steps -----------------------------------------------------------------------

  /** Where the sweep goes after looking at pos; it gives up after going round twice. */
  function Advance(s: State, job: Job, pos: nat, second: bool, seen: int): Pc {
    var next := if pos + 1 >= |s.handles| then 0 else pos + 1;
    if next == s.head && second then Evicted(job, false)
    else Evicting(job, next, second || next == s.head, seen)
  }

  function Charge(job: Job): nat {
    if job.Put? then job.charge else 0
  }

  /** EvictFromCache reads usage_ and decides whether to sweep at all. */
  function StartEvict(s: State, job: Job, capacity: nat): Pc {
    if s.usage == 0 then Evicted(job, Charge(job) <= capacity) else Evicting(job, s.head, false, s.usage)
  }

  /** A call begins. */
  function BeginEffect(s: State, t: Tid, a: Act): Effect
    requires Ready(s, t, a) && !a.Go?
  {
    match a
    case Start => Moves(Idle)
    case Lookup(k) => Moves(if k in s.table then Found(k, s.table[k]) else Idle)
    case RefAgain(r, r2) =>
      var h := s.held[r].h;
      var x := s.handles[h];
      if x.inCache
      then Moves(Idle).(handle := Set(h, x.(refs := x.refs + 1)), held := Give(r2, HeldRef(h, x.gen)))
      else Moves(Idle)
    case Release(r, force) => Moves(Marking(s.held[r].h, force)).(held := Take(r))
    case Erase(k) => Moves(WantErase(k))
    case InsertLock(job) => Moves(StartEvict(s, job, s.capacity)).(lock := TakeLock)
    case ResizeLock(cap) => Moves(StartEvict(s, Resize, cap)).(lock := TakeLock, capacity := Some(cap))
    case ClearLock => Moves(Clearing(0)).(lock := TakeLock, table := ClearTable)
  }

  /** The steps that need no mutex, and the two lock acquisitions that follow them. */
  function FreeEffect(s: State, pc: Pc, r: Rid): Effect
    requires FreePc(pc) && PcReady(s, pc)
  {
    match pc
    case Found(k, h) =>
      var x := s.handles[h];
      if x.inCache then Moves(Checking(k, h)).(handle := Set(h, x.(refs := x.refs + 1))) else Moves(Idle)
    case Checking(k, h) =>
      if s.handles[h].ckey == k then Moves(Idle).(held := Give(r, HeldRef(h, s.handles[h].gen)))
      else Moves(Dropping(h, false))
    case Marking(h, force) =>
      Moves(Dropping(h, force)).(handle := Set(h, s.handles[h].(usage := true)))
    case Dropping(h, force) =>
      var x := s.handles[h];
      Moves(if x.refs == 1 && !x.inCache then WantRecycle(h) else if force then ReadKey(h) else Idle)
        .(handle := Set(h, x.(refs := x.refs - 1)))
    case WantRecycle(h) => Moves(Recycling(h)).(lock := TakeLock)
    case ReadKey(h) => Moves(WantErase(s.handles[h].ckey))
    case WantErase(k) => Moves(EraseLocked(k)).(lock := TakeLock)
  }

  function Continue(k: Cont): Effect {
    match k
    case EraseDone => Unlocks()
    case InsertNext(job, h) => Moves(Linking(job, h))
    case ClearNext(i) => Moves(Clearing(i + 1))
  }

  /** Erasing entries and recycling handles, under the mutex. */
  function EraseEffect(s: State, pc: Pc): Effect
    requires ErasePc(pc) && PcReady(s, pc)
  {
    match pc
    case Recycling(h) => Recycles(s, h, Unlocks())
    case EraseLocked(k) =>
      if k in s.table then Moves(Unsetting(s.table[k], EraseDone)).(table := Unlink(k)) else Unlocks()
    case Unsetting(h, k) =>
      var x := s.handles[h];
      (if x.inCache && x.refs == 0 then Moves(Reclaim(h, k)) else Continue(k)).(handle := Set(h, x.(inCache := false)))
    case Reclaim(h, k) => Recycles(s, h, Continue(k))
    case Clearing(i) => if i < |s.handles| then Moves(Unsetting(i, ClearNext(i))) else Unlocks()
  }

  /** The sweep of EvictFromCache, under the mutex. */
  function EvictEffect(s: State, pc: Pc): Effect
    requires EvictPc(pc) && PcReady(s, pc)
  {
    match pc
    case Evicting(job, pos, second, seen) =>
      var x := s.handles[pos];
      if seen + Charge(job) <= s.capacity then Moves(Evicted(job, true)).(head := Some(pos))
      else if x.inCache && !x.usage && x.refs == 0 then
        Moves(EvictErase(job, pos, second)).(handle := Set(pos, x.(inCache := false)))
      else Moves(EvictClear(job, pos, second, seen))
    case EvictErase(job, pos, second) =>
      Moves(EvictReclaim(job, pos, second)).(table := Unlink(s.handles[pos].ckey))
    case EvictReclaim(job, pos, second) =>
      Recycles(s, pos, Moves(Advance(s, job, pos, second, s.usage - s.handles[pos].charge)))
    case EvictClear(job, pos, second, seen) =>
      Moves(Advance(s, job, pos, second, seen)).(handle := Set(pos, s.handles[pos].(usage := false)))
  }

  /** Fill a handle from the bin, or a new one. Its flags stay zero for now. */
  function FillEffect(s: State, job: Job): Effect
    requires job.Put? && BinInRange(s)
  {
    if s.recycle != [] then
      var h := s.recycle[|s.recycle| - 1];
      var x := s.handles[h];
      Moves(Filled(job, h))
        .(handle := Set(h, x.(ckey := job.ckey, value := Some(job.value), charge := job.charge, gen := x.gen + 1)),
          bin := Pop)
    else
      Moves(Filled(job, |s.handles|))
        .(handle := Append(Handle(job.ckey, Some(job.value), job.charge, false, false, 0, 1)))
  }

  /** The rest of Insert, under the mutex. */
  function InsertEffect(s: State, pc: Pc, r: Rid): Effect
    requires InsertPc(pc) && PcReady(s, pc) && BinInRange(s)
  {
    match pc
    case Evicted(job, ok) =>
      if job.Resize? || (!ok && (s.strict || !job.hold)) then Unlocks() else FillEffect(s, job)
    case Filled(job, h) =>
      Moves(Stored(job, h))
        .(handle := Set(h, s.handles[h].(inCache := true, usage := false, refs := if Holds(job) then 1 else 0)))
    case Stored(job, h) =>
      if job.Put? && job.ckey in s.table then
        Moves(Unsetting(s.table[job.ckey], InsertNext(job, h))).(table := Unlink(job.ckey))
      else Moves(Linking(job, h))
    case Linking(job, h) =>
      var x := s.handles[h];
      Unlocks().(table := Link(x.ckey, h), added := x.charge,
                 held := if Holds(job) then Give(r, HeldRef(h, x.gen)) else NoHeld)
  }

  function EffectOf(s: State, t: Tid, a: Act): Effect
    requires Ready(s, t, a) && BinInRange(s)
  {
    if !a.Go? then BeginEffect(s, t, a)
    else
      var pc := s.pcs[t];
      if FreePc(pc) then FreeEffect(s, pc, a.r)
      else if ErasePc(pc) then EraseEffect(s, pc)
      else if EvictPc(pc) then EvictEffect(s, pc)
      else InsertEffect(s, pc, a.r)
  }

  lemma EffectFits(s: State, t: Tid, a: Act)
    requires Ready(s, t, a) && BinInRange(s)
    ensures Fits(s, EffectOf(s, t, a))
  {
  }

  function Next(s: State, t: Tid, a: Act): State
    requires Ready(s, t, a) && BinInRange(s)
  {
    EffectFits(s, t, a);
    Apply(s, t, EffectOf(s, t, a))
  }

  // ---- who holds what -------------------------------------------------------------

  datatype Owner = HeldBy(r: Rid) | CarriedBy(t: Tid)

  /** The handle a running call has a reference on. */
  function PcRef(pc: Pc): Option<Hid> {
    match pc
    case Checking(_, h) => Some(h)
    case Marking(h, _) => Some(h)
    case Dropping(h, _) => Some(h)
    case Stored(job, h) => if Holds(job) then Some(h) else None
    case Linking(job, h) => if Holds(job) then Some(h) else None
    case Unsetting(_, k) => if k.InsertNext? && Holds(k.job) then Some(k.h) else None
    case Reclaim(_, k) => if k.InsertNext? && Holds(k.job) then Some(k.h) else None
    case _ => None
  }

  /** The handle a running call alone must still recycle, or put into use. */
  function PcDuty(pc: Pc): Option<Hid> {
    match pc
    case WantRecycle(h) => Some(h)
    case Recycling(h) => Some(h)
    case Reclaim(h, _) => Some(h)
    case EvictErase(_, pos, _) => Some(pos)
    case EvictReclaim(_, pos, _) => Some(pos)
    case Filled(_, h) => Some(h)
    case _ => None
  }

  /** The handle being inserted whose charge usage_ does not count yet. */
  function PcJoining(pc: Pc): Option<Hid> {
    match pc
    case Filled(_, h) => Some(h)
    case Stored(_, h) => Some(h)
    case Linking(_, h) => Some(h)
    case Unsetting(_, k) => if k.InsertNext? then Some(k.h) else None
    case Reclaim(_, k) => if k.InsertNext? then Some(k.h) else None
    case _ => None
  }

  function RefOf(s: State, o: Owner): Option<Hid> {
    match o
    case HeldBy(r) => if r in s.held then Some(s.held[r].h) else None
    case CarriedBy(t) => if t in s.pcs then PcRef(s.pcs[t]) else None
  }

  function DutyOf(s: State, t: Tid): Option<Hid> {
    if t in s.pcs then PcDuty(s.pcs[t]) else None
  }

  ghost function Referrers(s: State, h: Hid): set<Owner> {
    (set r | r in s.held && RefOf(s, HeldBy(r)) == Some(h) :: HeldBy(r))
    + (set t | t in s.pcs && RefOf(s, CarriedBy(t)) == Some(h) :: CarriedBy(t))
  }

  ghost function Duties(s: State, h: Hid): set<Tid> {
    set t | t in s.pcs && DutyOf(s, t) == Some(h)
  }

  function Uses(x: Handle): nat {
    if x.inCache || x.refs != 0 then 1 else 0
  }

  /** The call that holds the mutex. */
  function Holder(s: State): Pc {
    if s.mutex.Some? && s.mutex.value in s.pcs then s.pcs[s.mutex.value] else Idle
  }

  // ---- invariants -------------------------------------------------------------------

  ghost predicate RefsExact(s: State) {
    && (forall h | 0 <= h < |s.handles| :: s.handles[h].refs == |Referrers(s, h)|)
    && (forall o :: RefOf(s, o).Some? ==> RefOf(s, o).value < |s.handles|)
  }

  /** Every handle is in use, or one call alone is responsible for it, or it lies
      in the recycle bin once. */
  ghost predicate OnePlace(s: State) {
    && (forall h | 0 <= h < |s.handles| :: Uses(s.handles[h]) + |Duties(s, h)| + multiset(s.recycle)[h] == 1)
    && (forall t :: DutyOf(s, t).Some? ==> DutyOf(s, t).value < |s.handles|)
    && BinInRange(s)
  }

  /** In cache, but not in the table while its own insertion or erasure is under way. */
  predicate Unlinked(s: State, h: Hid) {
    match Holder(s)
    case Stored(_, h2) => h == h2
    case Linking(_, h2) => h == h2
    case Unsetting(h2, k) => h == h2 || (k.InsertNext? && h == k.h) || (k.ClearNext? && h > k.i)
    case Reclaim(_, k) => (k.InsertNext? && h == k.h) || (k.ClearNext? && h > k.i)
    case Clearing(i) => h >= i
    case _ => false
  }

  predicate LinkedAt(s: State, h: Hid)
    requires h < |s.handles|
  {
    var x := s.handles[h];
    x.inCache ==> (x.ckey in s.table && s.table[x.ckey] == h) || Unlinked(s, h)
  }

  predicate EntryAt(s: State, k: CacheKey)
    requires k in s.table
  {
    var h := s.table[k];
    && h < |s.handles| && s.handles[h].ckey == k
    && (s.handles[h].inCache || (Holder(s).EvictErase? && Holder(s).pos == h))
  }

  /** What the mutex holder knows about its own handles. */
  predicate HolderKnows(s: State) {
    match Holder(s)
    case EvictErase(_, pos, _) =>
      pos < |s.handles| && s.handles[pos].ckey in s.table && s.table[s.handles[pos].ckey] == pos
    case Filled(job, h) => h < |s.handles| && job.Put? && s.handles[h].ckey == job.ckey
    case Stored(job, h) =>
      && h < |s.handles| && job.Put? && s.handles[h].ckey == job.ckey && s.handles[h].inCache
      && (job.ckey in s.table ==> s.table[job.ckey] != h)
    case Linking(job, h) => Joins(s, job, h)
    case Unsetting(h, k) =>
      && (k.InsertNext? ==> Joins(s, k.job, k.h) && h != k.h)
      && (k.ClearNext? ==> s.table == map[] && h == k.i)
      && h < |s.handles| && (s.handles[h].ckey in s.table ==> s.table[s.handles[h].ckey] != h)
    case Reclaim(h, k) =>
      (k.InsertNext? ==> Joins(s, k.job, k.h) && h != k.h) && (k.ClearNext? ==> s.table == map[] && h == k.i)
    case Clearing(i) => s.table == map[]
    case _ => true
  }

  predicate Joins(s: State, job: Job, h: Hid) {
    && h < |s.handles| && job.Put? && s.handles[h].ckey == job.ckey && s.handles[h].inCache
    && job.ckey !in s.table
  }

  ghost predicate TableExact(s: State) {
    && (forall h | 0 <= h < |s.handles| :: LinkedAt(s, h))
    && (forall k | k in s.table :: EntryAt(s, k))
    && HolderKnows(s)
  }

  function Weight(s: State, h: Hid): nat
    requires h < |s.handles|
  {
    if h in s.recycle || PcJoining(Holder(s)) == Some(h) then 0 else s.handles[h].charge
  }

  /** Total weight of the first n handles. */
  function Total(s: State, n: nat): nat
    requires n <= |s.handles|
  {
    if n == 0 then 0 else Total(s, n - 1) + Weight(s, n - 1)
  }

  ghost predicate UsageExact(s: State) {
    s.usage == Total(s, |s.handles|)
  }

  ghost predicate MutexExact(s: State) {
    && (forall t | t in s.pcs :: InLock(s.pcs[t]) <==> s.mutex == Some(t))
    && (s.mutex.Some? ==> s.mutex.value in s.pcs)
  }

  /** Values are handed to their deleter once per filling, and a client's
      reference stays with the filling it was taken on. */
  ghost predicate GensExact(s: State) {
    && (forall h | 0 <= h < |s.handles| :: (h, s.handles[h].gen) in s.freed <==> h in s.recycle)
    && (forall h | 0 <= h < |s.handles| :: s.handles[h].value.None? <==> h in s.recycle)
    && (forall p | p in s.freed :: p.0 < |s.handles| && p.1 <= s.handles[p.0].gen)
    && (forall r | r in s.held :: s.held[r].h < |s.handles| && s.held[r].gen == s.handles[s.held[r].h].gen)
  }

  predicate PcBound(s: State, pc: Pc) {
    && (PcHandle(pc).Some? ==> PcHandle(pc).value < |s.handles|)
    && (pc.Unsetting? || pc.Reclaim? ==> pc.k.InsertNext? ==> pc.k.h < |s.handles|)
  }

  ghost predicate Bounds(s: State) {
    && (s.head < |s.handles| || s.head == 0)
    && (forall t | t in s.pcs :: PcBound(s, s.pcs[t]))
    && (Holder(s).Evicting? || Holder(s).EvictClear? ==> Holder(s).seen == s.usage)
  }

  ghost predicate Inv(s: State) {
    RefsExact(s) && OnePlace(s) && TableExact(s) && UsageExact(s) && MutexExact(s) && GensExact(s) && Bounds(s)
  }

  predicate Init(s: State) {
    && s.handles == [] && s.table == map[] && s.recycle == [] && s.usage == 0 && s.head == 0
    && s.mutex.None? && s.pcs == map[] && s.held == map[] && s.freed == {}
  }
}
