/** The thread-local SuperVersion protocol (db/column_family.cc): readers take a
    cached SuperVersion out of their own slot with one swap and put it back with
    one compare-and-swap, while an installer publishes a new SuperVersion and
    scrapes every slot. One step is one atomic action of one party. */
module SuperVersions {
  import opened Wrappers

  type Tid = nat
  type Sv = nat
  type Eid = nat

  /** What a thread-local slot holds; an untouched slot and kSVObsolete are both
      the null pointer. */
  datatype Slot = InUse | Obsolete | Cached(sv: Sv)

  /** Where a reader is. `since` is the version number when its Get began. */
  datatype Pc =
    | Idle
    | Swapped(found: Option<Sv>, since: nat)   // slot swapped to kSVInUse
    | Stale(sv: Sv, since: nat)                // version check failed; Unref comes next
    | WantLock(dead: Option<Sv>, since: nat)   // about to lock the DB mutex
    | Locked(dead: Option<Sv>, since: nat)     // holds the DB mutex
    | Holding(sv: Sv, since: nat)              // Get has returned
    | Failed(sv: Sv)                           // Return found the slot scraped
    | WantCleanup(sv: Sv)                      // dropped the last reference
    | Cleaning(sv: Sv)                         // holds the DB mutex to clean up
    | Pinning(sv: Sv)                          // GetReferencedSuperVersion took its extra reference
    | PinFailed(sv: Sv)                        // ... and its Return failed
    | Pinned(sv: Sv)                           // ... and is about to hand it out

  /** A reference handed out to other code, e.g. an iterator. */
  datatype Client = Held(sv: Sv) | ClientWant(sv: Sv) | ClientClean(sv: Sv)

  /** Where the installer is; it holds the DB mutex throughout. */
  datatype Install =
    | NoInstall
    | Published(prior: Sv)                       // super_version_ replaced
    | Bumped(prior: Sv)                         // super_version_number_ incremented
    | Scraping(prior: Sv, todo: set<Tid>)       // slots left to scrape
    | Scraped(prior: Sv)                         // all slots scraped
    | CleanPrior(prior: Sv)                    // dropped the last reference to the old one

  datatype Holder = Reader(t: Tid) | ClientCode(e: Eid) | Installer

  datatype Object = Object(refs: int, version: nat, cleanups: nat)

  datatype State = State(
    svs: map<Sv, Object>,
    current: Sv,                               // super_version_
    number: nat,                               // super_version_number_
    mutex: Option<Holder>,
    slots: map<Tid, Slot>,
    pcs: map<Tid, Pc>,
    scraped: map<Tid, Sv>,                     // pointers Scrape returned, not yet unreferenced
    clients: map<Eid, Client>,
    install: Install)

  // ---- atomic steps -----------------------------------------------------------

  datatype ReaderAct =
    | ThreadStart
    | ThreadExit
    | Swap
    | CheckVersion
    | UnrefStale
    | Lock
    | CleanupDead
    | RefCurrent
    | Return
    | UnrefFailed
    | LockCleanup
    | Cleanup
    | Pin
    | UnrefPin
    | HandOut(e: Eid)

  datatype ClientAct = ClientRef | ClientUnref | ClientLock | ClientCleanup

  datatype InstallAct =
    | Publish(v: Sv)
    | Bump
    | ScrapeStart
    | ScrapeSlot(t: Tid)
    | ScrapeDone
    | UnrefScraped(t: Tid)
    | UnrefPrior
    | CleanupPrior

  datatype Step = ByReader(t: Tid, ra: ReaderAct) | ByClient(e: Eid, ca: ClientAct) | ByInstaller(ia: InstallAct)

  /** The reader is at the point in its code where the action comes next. A
      thread exits outside Get/Return and never during a scrape, which holds the
      same ThreadLocalPtr mutex. */
  predicate ReaderEnabled(s: State, t: Tid, a: ReaderAct) {
    if a.ThreadStart? then t !in s.pcs && t !in s.slots
    else
      && t in s.pcs && t in s.slots
      && var pc := s.pcs[t];
         match a
         case ThreadStart => false
         case ThreadExit => pc.Idle? && !s.install.Scraping?
         case Swap => pc.Idle?
         case CheckVersion => pc.Swapped?
         case UnrefStale => pc.Stale?
         case Lock => pc.WantLock? && s.mutex.None?
         case CleanupDead => pc.Locked? && pc.dead.Some?
         case RefCurrent => pc.Locked? && pc.dead.None?
         case Return => pc.Holding? || pc.Pinning?
         case UnrefFailed => pc.Failed?
         case LockCleanup => pc.WantCleanup? && s.mutex.None?
         case Cleanup => pc.Cleaning?
         case Pin => pc.Holding?
         case UnrefPin => pc.PinFailed?
         case HandOut(e) => pc.Pinned? && e !in s.clients
  }

  predicate ClientEnabled(s: State, e: Eid, a: ClientAct) {
    match a
    case ClientRef => e !in s.clients && s.mutex.None?
    case ClientUnref => e in s.clients && s.clients[e].Held?
    case ClientLock => e in s.clients && s.clients[e].ClientWant? && s.mutex.None?
    case ClientCleanup => e in s.clients && s.clients[e].ClientClean?
  }

  predicate InstallEnabled(s: State, a: InstallAct) {
    match a
    case Publish(v) => s.install.NoInstall? && s.mutex.None? && v !in s.svs
    case Bump => s.install.Published?
    case ScrapeStart => s.install.Bumped?
    case ScrapeSlot(t) => s.install.Scraping? && t in s.install.todo && t in s.slots
    case ScrapeDone => s.install.Scraping? && s.install.todo == {}
    case UnrefScraped(t) => s.install.Scraped? && t in s.scraped
    case UnrefPrior => s.install.Scraped? && s.scraped == map[]
    case CleanupPrior => s.install.CleanPrior?
  }

  predicate Enabled(s: State, p: Step) {
    match p
    case ByReader(t, a) => ReaderEnabled(s, t, a)
    case ByClient(e, a) => ClientEnabled(s, e, a)
    case ByInstaller(a) => InstallEnabled(s, a)
  }

  /** The SuperVersion object that a step reads or writes, if any. */
  function Touches(s: State, p: Step): Option<Sv>
    requires Enabled(s, p)
  {
    match p
    case ByReader(t, a) =>
      if a.ThreadExit? then (if s.slots[t].Cached? then Some(s.slots[t].sv) else None)
      else if a.CheckVersion? then s.pcs[t].found
      else if a.CleanupDead? then s.pcs[t].dead
      else if a.RefCurrent? then Some(s.current)
      else if a.UnrefStale? || a.UnrefFailed? || a.Cleanup? || a.Pin? || a.UnrefPin? then Some(s.pcs[t].sv)
      else None
    case ByClient(e, a) =>
      if a.ClientRef? then Some(s.current) else Some(s.clients[e].sv)
    case ByInstaller(a) =>
      match a
      case Bump => Some(s.current)
      case UnrefScraped(t) => Some(s.scraped[t])
      case UnrefPrior => Some(s.install.prior)
      case CleanupPrior => Some(s.install.prior)
      case _ => None
  }

  /** The step can be taken: it is next, and the object it touches exists. */
  predicate Ready(s: State, p: Step) {
    Enabled(s, p) && (Touches(s, p).Some? ==> Touches(s, p).value in s.svs)
  }

  function Refs(s: State, v: Sv, delta: int): State
    requires v in s.svs
  {
    s.(svs := s.svs[v := s.svs[v].(refs := s.svs[v].refs + delta)])
  }

  /** fetch_sub returned 1 */
  predicate LastRef(s: State, v: Sv)
    requires v in s.svs
  {
    s.svs[v].refs == 1
  }

  function CleanedUp(s: State, v: Sv): State
    requires v in s.svs
  {
    s.(svs := s.svs[v := s.svs[v].(cleanups := s.svs[v].cleanups + 1)])
  }

  function At(s: State, t: Tid, pc: Pc): State {
    s.(pcs := s.pcs[t := pc])
  }

  function InSlot(s: State, t: Tid, slot: Slot): State {
    s.(slots := s.slots[t := slot])
  }

  function ReaderNext(s: State, t: Tid, a: ReaderAct): State
    requires Ready(s, ByReader(t, a))
  {
    match a
    case ThreadStart => InSlot(At(s, t, Idle), t, Obsolete)
    case ThreadExit =>
      var s1 := s.(pcs := s.pcs - {t}, slots := s.slots - {t});
      if s.slots[t].Cached? then Refs(s1, s.slots[t].sv, -1) else s1
    case Swap =>
      var found := if s.slots[t].Cached? then Some(s.slots[t].sv) else None;
      InSlot(At(s, t, Swapped(found, s.number)), t, InUse)
    case CheckVersion =>
      var pc := s.pcs[t];
      At(s, t, if pc.found.None? then WantLock(None, pc.since)
               else if s.svs[pc.found.value].version != s.number then Stale(pc.found.value, pc.since)
               else Holding(pc.found.value, pc.since))
    case UnrefStale =>
      var v := s.pcs[t].sv;
      At(Refs(s, v, -1), t, WantLock(if LastRef(s, v) then Some(v) else None, s.pcs[t].since))
    case Lock =>
      At(s, t, Locked(s.pcs[t].dead, s.pcs[t].since)).(mutex := Some(Reader(t)))
    case CleanupDead =>
      At(CleanedUp(s, s.pcs[t].dead.value), t, Locked(None, s.pcs[t].since))
    case RefCurrent =>
      At(Refs(s, s.current, 1), t, Holding(s.current, s.pcs[t].since)).(mutex := None)
    case Return =>
      var pc := s.pcs[t];
      if s.slots[t].InUse? then InSlot(At(s, t, if pc.Holding? then Idle else Pinned(pc.sv)), t, Cached(pc.sv))
      else At(s, t, if pc.Holding? then Failed(pc.sv) else PinFailed(pc.sv))
    case UnrefFailed =>
      var v := s.pcs[t].sv;
      At(Refs(s, v, -1), t, if LastRef(s, v) then WantCleanup(v) else Idle)
    case LockCleanup =>
      At(s, t, Cleaning(s.pcs[t].sv)).(mutex := Some(Reader(t)))
    case Cleanup =>
      At(CleanedUp(s, s.pcs[t].sv), t, Idle).(mutex := None)
    case Pin =>
      At(Refs(s, s.pcs[t].sv, 1), t, Pinning(s.pcs[t].sv))
    case UnrefPin =>
      At(Refs(s, s.pcs[t].sv, -1), t, Pinned(s.pcs[t].sv))
    case HandOut(e) =>
      At(s, t, Idle).(clients := s.clients[e := Held(s.pcs[t].sv)])
  }

  function ClientNext(s: State, e: Eid, a: ClientAct): State
    requires Ready(s, ByClient(e, a))
  {
    match a
    case ClientRef =>
      Refs(s, s.current, 1).(clients := s.clients[e := Held(s.current)])
    case ClientUnref =>
      var v := s.clients[e].sv;
      Refs(s, v, -1).(clients := if LastRef(s, v) then s.clients[e := ClientWant(v)] else s.clients - {e})
    case ClientLock =>
      s.(clients := s.clients[e := ClientClean(s.clients[e].sv)], mutex := Some(ClientCode(e)))
    case ClientCleanup =>
      CleanedUp(s, s.clients[e].sv).(clients := s.clients - {e}, mutex := None)
  }

  function InstallNext(s: State, a: InstallAct): State
    requires Ready(s, ByInstaller(a))
  {
    match a
    case Publish(v) =>
      s.(svs := s.svs[v := Object(1, 0, 0)], current := v, install := Published(s.current), mutex := Some(Installer))
    case Bump =>
      s.(number := s.number + 1, svs := s.svs[s.current := s.svs[s.current].(version := s.number + 1)],
         install := Bumped(s.install.prior))
    case ScrapeStart =>
      s.(install := Scraping(s.install.prior, s.slots.Keys))
    case ScrapeSlot(t) =>
      var s1 := InSlot(s, t, Obsolete).(install := s.install.(todo := s.install.todo - {t}));
      if s.slots[t].Cached? then s1.(scraped := s.scraped[t := s.slots[t].sv]) else s1
    case ScrapeDone =>
      s.(install := Scraped(s.install.prior))
    case UnrefScraped(t) =>
      Refs(s, s.scraped[t], -1).(scraped := s.scraped - {t})
    case UnrefPrior =>
      var v := s.install.prior;
      if LastRef(s, v) then Refs(s, v, -1).(install := CleanPrior(v))
      else Refs(s, v, -1).(install := NoInstall, mutex := None)
    case CleanupPrior =>
      CleanedUp(s, s.install.prior).(install := NoInstall, mutex := None)
  }

  function Next(s: State, p: Step): State
    requires Ready(s, p)
  {
    match p
    case ByReader(t, a) => ReaderNext(s, t, a)
    case ByClient(e, a) => ClientNext(s, e, a)
    case ByInstaller(a) => InstallNext(s, a)
  }

  // ---- who owns a reference -----------------------------------------------------

  datatype Owner =
    | ColumnFamily
    | PriorVersion
    | InSlotOf(t: Tid)
    | ScrapedFrom(t: Tid)
    | CarriedBy(t: Tid)
    | PinnedBy(t: Tid)
    | GivenTo(e: Eid)

  function Carried(pc: Pc): Option<Sv> {
    match pc
    case Swapped(found, _) => found
    case Stale(sv, _) => Some(sv)
    case Holding(sv, _) => Some(sv)
    case Failed(sv) => Some(sv)
    case Pinning(sv) => Some(sv)
    case PinFailed(sv) => Some(sv)
    case _ => None
  }

  function PinOf(pc: Pc): Option<Sv> {
    if pc.Pinning? || pc.PinFailed? || pc.Pinned? then Some(pc.sv) else None
  }

  function Owned(s: State, o: Owner): Option<Sv> {
    match o
    case ColumnFamily => Some(s.current)
    case PriorVersion => if s.install.NoInstall? || s.install.CleanPrior? then None else Some(s.install.prior)
    case InSlotOf(t) => if t in s.slots && s.slots[t].Cached? then Some(s.slots[t].sv) else None
    case ScrapedFrom(t) => if t in s.scraped then Some(s.scraped[t]) else None
    case CarriedBy(t) => if t in s.pcs then Carried(s.pcs[t]) else None
    case PinnedBy(t) => if t in s.pcs then PinOf(s.pcs[t]) else None
    case GivenTo(e) => if e in s.clients && s.clients[e].Held? then Some(s.clients[e].sv) else None
  }

  /** Who still has to clean a dead SuperVersion up. */
  function Cleans(s: State, o: Owner): Option<Sv> {
    match o
    case PriorVersion => if s.install.CleanPrior? then Some(s.install.prior) else None
    case CarriedBy(t) =>
      if t !in s.pcs then None
      else if s.pcs[t].WantLock? || s.pcs[t].Locked? then s.pcs[t].dead
      else if s.pcs[t].WantCleanup? || s.pcs[t].Cleaning? then Some(s.pcs[t].sv)
      else None
    case GivenTo(e) => if e in s.clients && !s.clients[e].Held? then Some(s.clients[e].sv) else None
    case _ => None
  }

  ghost function Tokens(s: State): set<Owner> {
    {ColumnFamily, PriorVersion}
    + (set t | t in s.slots :: InSlotOf(t))
    + (set t | t in s.scraped :: ScrapedFrom(t))
    + (set t | t in s.pcs :: CarriedBy(t))
    + (set t | t in s.pcs :: PinnedBy(t))
    + (set e | e in s.clients :: GivenTo(e))
  }

  ghost function Owners(s: State, v: Sv): set<Owner> {
    set o | o in Tokens(s) && Owned(s, o) == Some(v)
  }

  ghost function Cleaners(s: State, v: Sv): set<Owner> {
    set o | o in Tokens(s) && Cleans(s, o) == Some(v)
  }

  // ---- invariants -----------------------------------------------------------------

  /** refs counts the owners exactly, and nothing owned is unknown. */
  ghost predicate Counted(s: State) {
    && (forall v | v in s.svs :: s.svs[v].refs == |Owners(s, v)|)
    && (forall o :: Owned(s, o).Some? ==> Owned(s, o).value in s.svs)
  }

  /** A SuperVersion without references has been cleaned up once, or exactly one
      party is about to; one with references has neither. */
  ghost predicate CleanedOnce(s: State) {
    && (forall v | v in s.svs :: s.svs[v].cleanups + |Cleaners(s, v)| == if s.svs[v].refs == 0 then 1 else 0)
    && (forall o :: Cleans(s, o).Some? ==> Cleans(s, o).value in s.svs)
  }

  /** The SuperVersion a slot may still cache, or a reader whose slot is in use
      may still carry. */
  predicate FreshFor(s: State, t: Tid, v: Sv) {
    match s.install
    case NoInstall => v == s.current
    case Published(prior) => v == prior
    case Bumped(prior) => v == prior
    case Scraping(prior, todo) => t in todo && v == prior
    case _ => false
  }

  predicate SlotMatches(pc: Pc, slot: Slot) {
    match pc
    case Idle => !slot.InUse?
    case Failed(_) => slot.Obsolete?
    case PinFailed(_) => slot.Obsolete?
    case WantCleanup(_) => slot.Obsolete?
    case Cleaning(_) => slot.Obsolete?
    case Pinned(_) => !slot.InUse?
    case _ => !slot.Cached?
  }

  /** Thread t's slot agrees with where t is, and whatever the slot caches or an
      undisturbed reader carries is fresh. */
  predicate ThreadSafe(s: State, t: Tid)
    requires t in s.pcs && t in s.slots
  {
    && SlotMatches(s.pcs[t], s.slots[t])
    && (s.slots[t].Cached? ==> FreshFor(s, t, s.slots[t].sv))
    && (s.slots[t].InUse? && Carried(s.pcs[t]).Some? ==> FreshFor(s, t, Carried(s.pcs[t]).value))
  }

  ghost predicate SlotsSafe(s: State) {
    && s.slots.Keys == s.pcs.Keys
    && (forall t | t in s.pcs :: ThreadSafe(s, t))
    && (forall t | t in s.scraped :: (s.install.Scraping? || s.install.Scraped?) && s.scraped[t] == s.install.prior)
    && (s.install.Scraping? ==> s.install.todo <= s.slots.Keys && s.install.todo !! s.scraped.Keys)
  }

  ghost predicate MutexHeld(s: State) {
    && (s.install.NoInstall? <==> s.mutex != Some(Installer))
    && (forall t | t in s.pcs :: s.pcs[t].Locked? || s.pcs[t].Cleaning? <==> s.mutex == Some(Reader(t)))
    && (forall e | e in s.clients :: s.clients[e].ClientClean? <==> s.mutex == Some(ClientCode(e)))
    && (forall t | s.mutex == Some(Reader(t)) :: t in s.pcs)
    && (forall e | s.mutex == Some(ClientCode(e)) :: e in s.clients)
  }

  /** What a Get returned was current at some moment since the Get began. */
  predicate ThreadFresh(s: State, t: Tid)
    requires t in s.pcs
  {
    var pc := s.pcs[t];
    && (pc.Holding? ==> pc.sv in s.svs && pc.since <= s.svs[pc.sv].version)
    && (pc.Swapped? || pc.Stale? || pc.WantLock? || pc.Locked? || pc.Holding? ==> pc.since <= s.number)
  }

  /** The SuperVersion that carries the current number. */
  function Numbered(s: State): Sv {
    if s.install.Published? then s.install.prior else s.current
  }

  /** Version numbers are handed out once each, in order. */
  ghost predicate Versioned(s: State) {
    && s.current in s.svs
    && Numbered(s) in s.svs && s.svs[Numbered(s)].version == s.number > 0
    && (!s.install.NoInstall? ==> s.install.prior != s.current)
    && (forall v | v in s.svs :: s.svs[v].version <= s.number)
    && (forall v | v in s.svs :: s.svs[v].version == 0 <==> s.install.Published? && v == s.current)
    && (forall v, w | v in s.svs && w in s.svs && s.svs[v].version == s.svs[w].version :: v == w)
    && (forall t | t in s.pcs :: ThreadFresh(s, t))
  }

  ghost predicate Inv(s: State) {
    Counted(s) && CleanedOnce(s) && SlotsSafe(s) && MutexHeld(s) && Versioned(s)
  }

  /** The column family right after its first SuperVersion was installed. */
  predicate Init(s: State) {
    && s.svs == map[s.current := Object(1, 1, 0)]
    && s.number == 1 && s.mutex.None? && s.install.NoInstall?
    && s.slots == map[] && s.pcs == map[] && s.scraped == map[] && s.clients == map[]
  }
}
