/** Safety of the SuperVersion protocol over every interleaving. */
module SuperVersionSafety {
  import opened Wrappers
  import opened SuperVersions
  import opened Counting

  // ---- counting owners --------------------------------------------------------

  lemma OwnedAreTokens(s: State, o: Owner)
    ensures Owned(s, o).Some? || Cleans(s, o).Some? ==> o in Tokens(s)
  {
  }

  lemma InOwners(s: State, v: Sv, o: Owner)
    ensures o in Owners(s, v) <==> Owned(s, o) == Some(v)
  {
    OwnedAreTokens(s, o);
  }

  lemma InCleaners(s: State, v: Sv, o: Owner)
    ensures o in Cleaners(s, v) <==> Cleans(s, o) == Some(v)
  {
    OwnedAreTokens(s, o);
  }

  /** Owners change only at the three tokens a step touches. */
  lemma OwnersDelta(s: State, s': State, v: Sv, x: Owner, y: Owner, z: Owner)
    requires x != y && y != z && x != z
    requires forall o | o != x && o != y && o != z :: Owned(s', o) == Some(v) <==> Owned(s, o) == Some(v)
    ensures |Owners(s', v)| + One(Owned(s, x) == Some(v)) + One(Owned(s, y) == Some(v)) + One(Owned(s, z) == Some(v))
         == |Owners(s, v)| + One(Owned(s', x) == Some(v)) + One(Owned(s', y) == Some(v)) + One(Owned(s', z) == Some(v))
  {
    hide Owned, Owners;
    var a, b := Owners(s, v), Owners(s', v);
    forall o ensures (o in a <==> Owned(s, o) == Some(v)) && (o in b <==> Owned(s', o) == Some(v)) {
      InOwners(s, v, o);
      InOwners(s', v, o);
    }
    assert a - {x} - {y} - {z} == b - {x} - {y} - {z};
    SameButThree(a, b, x, y, z);
  }

  lemma CleanersDelta(s: State, s': State, v: Sv, x: Owner)
    requires forall o | o != x :: Cleans(s', o) == Some(v) <==> Cleans(s, o) == Some(v)
    ensures |Cleaners(s', v)| + One(Cleans(s, x) == Some(v)) == |Cleaners(s, v)| + One(Cleans(s', x) == Some(v))
  {
    hide Cleans, Cleaners;
    var a, b := Cleaners(s, v), Cleaners(s', v);
    forall o ensures (o in a <==> Cleans(s, o) == Some(v)) && (o in b <==> Cleans(s', o) == Some(v)) {
      InCleaners(s, v, o);
      InCleaners(s', v, o);
    }
    assert a - {x} == b - {x};
    SameButOne(a, b, x);
  }

  /** An owner keeps its SuperVersion referenced. */
  lemma OwnerCounts(s: State, o: Owner)
    requires Counted(s) && Owned(s, o).Some?
    ensures Owned(s, o).value in s.svs && s.svs[Owned(s, o).value].refs > 0
  {
    OwnedAreTokens(s, o);
    assert o in Owners(s, Owned(s, o).value);
  }

  lemma TwoOwnersCount(s: State, o: Owner, q: Owner)
    requires Counted(s) && o != q && Owned(s, o).Some? && Owned(s, o) == Owned(s, q)
    ensures s.svs[Owned(s, o).value].refs > 1
  {
    hide Owned, Owners;
    var v := Owned(s, o).value;
    InOwners(s, v, o);
    InOwners(s, v, q);
    PairCard(Owners(s, v), o, q);
  }

  lemma CleanerWaits(s: State, o: Owner)
    requires CleanedOnce(s) && Cleans(s, o).Some?
    ensures var v := Cleans(s, o).value; v in s.svs && s.svs[v].refs == 0 && s.svs[v].cleanups == 0
  {
    OwnedAreTokens(s, o);
    assert o in Cleaners(s, Cleans(s, o).value);
  }

  // ---- Counted is preserved ------------------------------------------------------

  /** References owned by tokens x, y and z. */
  function Share(s: State, v: Sv, x: Owner, y: Owner, z: Owner): nat {
    One(Owned(s, x) == Some(v)) + One(Owned(s, y) == Some(v)) + One(Owned(s, z) == Some(v))
  }

  /** The slots and the reader's position agree. */
  predicate SlotFits(s: State, t: Tid) {
    t in s.pcs && t in s.slots ==> SlotMatches(s.pcs[t], s.slots[t])
  }

  lemma ReaderFrameGet(s: State, t: Tid, a: ReaderAct, o: Owner)
    requires IsGetAct(a)
    requires Ready(s, ByReader(t, a))
    requires o != InSlotOf(t) && o != CarriedBy(t) && o != PinnedBy(t) && (a.HandOut? ==> o != GivenTo(a.e))
    ensures Owned(ReaderNext(s, t, a), o) == Owned(s, o)
  {
  }

  lemma ReaderFrameUnref(s: State, t: Tid, a: ReaderAct, o: Owner)
    requires IsUnrefAct(a)
    requires Ready(s, ByReader(t, a))
    requires o != InSlotOf(t) && o != CarriedBy(t) && o != PinnedBy(t) && (a.HandOut? ==> o != GivenTo(a.e))
    ensures Owned(ReaderNext(s, t, a), o) == Owned(s, o)
  {
  }

  lemma ReaderFrameReturn(s: State, t: Tid, a: ReaderAct, o: Owner)
    requires !IsGetAct(a) && !IsUnrefAct(a)
    requires Ready(s, ByReader(t, a))
    requires o != InSlotOf(t) && o != CarriedBy(t) && o != PinnedBy(t) && (a.HandOut? ==> o != GivenTo(a.e))
    ensures Owned(ReaderNext(s, t, a), o) == Owned(s, o)
  {
  }

  lemma ReaderFrame(s: State, t: Tid, a: ReaderAct, o: Owner)
    requires Ready(s, ByReader(t, a))
    requires o != InSlotOf(t) && o != CarriedBy(t) && o != PinnedBy(t) && (a.HandOut? ==> o != GivenTo(a.e))
    ensures Owned(ReaderNext(s, t, a), o) == Owned(s, o)
  {
    hide ReaderNext, Ready, Owned;
    if IsGetAct(a) {
      ReaderFrameGet(s, t, a, o);
    } else if IsUnrefAct(a) {
      ReaderFrameUnref(s, t, a, o);
    } else {
      ReaderFrameReturn(s, t, a, o);
    }
  }

  predicate IsGetAct(a: ReaderAct) {
    a.Swap? || a.CheckVersion? || a.UnrefStale? || a.Lock? || a.CleanupDead? || a.RefCurrent?
  }

  lemma GetEffect(s: State, t: Tid, a: ReaderAct, v: Sv)
    requires IsGetAct(a)
    requires Ready(s, ByReader(t, a)) && !a.HandOut? && v in s.svs && SlotFits(s, t)
    ensures var s' := ReaderNext(s, t, a);
            s'.svs.Keys == s.svs.Keys &&
            s'.svs[v].refs + Share(s, v, InSlotOf(t), CarriedBy(t), PinnedBy(t))
            == s.svs[v].refs + Share(s', v, InSlotOf(t), CarriedBy(t), PinnedBy(t))
  {
  }

  predicate IsUnrefAct(a: ReaderAct) {
    a.ThreadExit? || a.UnrefFailed? || a.UnrefPin? || a.Pin?
  }

  lemma UnrefEffect(s: State, t: Tid, a: ReaderAct, v: Sv)
    requires IsUnrefAct(a)
    requires Ready(s, ByReader(t, a)) && v in s.svs && SlotFits(s, t)
    ensures var s' := ReaderNext(s, t, a);
            s'.svs.Keys == s.svs.Keys &&
            s'.svs[v].refs + Share(s, v, InSlotOf(t), CarriedBy(t), PinnedBy(t))
            == s.svs[v].refs + Share(s', v, InSlotOf(t), CarriedBy(t), PinnedBy(t))
  {
  }

  lemma PutBackEffect(s: State, t: Tid, v: Sv)
    requires Ready(s, ByReader(t, Return)) && v in s.svs && SlotFits(s, t)
    ensures var s' := ReaderNext(s, t, Return);
            s'.svs.Keys == s.svs.Keys &&
            s'.svs[v].refs + Share(s, v, InSlotOf(t), CarriedBy(t), PinnedBy(t))
            == s.svs[v].refs + Share(s', v, InSlotOf(t), CarriedBy(t), PinnedBy(t))
  {
  }

  lemma ReturnEffect(s: State, t: Tid, a: ReaderAct, v: Sv)
    requires !IsGetAct(a) && !IsUnrefAct(a) && !a.Return?
    requires Ready(s, ByReader(t, a)) && !a.HandOut? && v in s.svs && SlotFits(s, t)
    ensures var s' := ReaderNext(s, t, a);
            s'.svs.Keys == s.svs.Keys &&
            s'.svs[v].refs + Share(s, v, InSlotOf(t), CarriedBy(t), PinnedBy(t))
            == s.svs[v].refs + Share(s', v, InSlotOf(t), CarriedBy(t), PinnedBy(t))
  {
  }

  lemma ReaderEffect(s: State, t: Tid, a: ReaderAct, v: Sv)
    requires Ready(s, ByReader(t, a)) && !a.HandOut? && v in s.svs && SlotFits(s, t)
    ensures var s' := ReaderNext(s, t, a);
            s'.svs.Keys == s.svs.Keys &&
            s'.svs[v].refs + Share(s, v, InSlotOf(t), CarriedBy(t), PinnedBy(t))
            == s.svs[v].refs + Share(s', v, InSlotOf(t), CarriedBy(t), PinnedBy(t))
  {
    hide ReaderNext, Ready, Share, SlotFits;
    if IsGetAct(a) {
      GetEffect(s, t, a, v);
    } else if IsUnrefAct(a) {
      UnrefEffect(s, t, a, v);
    } else if a.Return? {
      PutBackEffect(s, t, v);
    } else {
      ReturnEffect(s, t, a, v);
    }
  }

  /** What a reader owns after a step, it owned before or is the current one. */
  lemma ReaderSourceGet(s: State, t: Tid, a: ReaderAct, o: Owner)
    requires IsGetAct(a)
    requires Ready(s, ByReader(t, a)) && !a.HandOut?
    requires o == InSlotOf(t) || o == CarriedBy(t) || o == PinnedBy(t)
    ensures var w := Owned(ReaderNext(s, t, a), o);
            w.Some? ==>
              || w == Some(s.current) || w == Owned(s, InSlotOf(t))
              || w == Owned(s, CarriedBy(t)) || w == Owned(s, PinnedBy(t))
  {
  }

  lemma ReaderSourceLater(s: State, t: Tid, a: ReaderAct, o: Owner)
    requires !IsGetAct(a)
    requires Ready(s, ByReader(t, a)) && !a.HandOut?
    requires o == InSlotOf(t) || o == CarriedBy(t) || o == PinnedBy(t)
    ensures var w := Owned(ReaderNext(s, t, a), o);
            w.Some? ==>
              || w == Some(s.current) || w == Owned(s, InSlotOf(t))
              || w == Owned(s, CarriedBy(t)) || w == Owned(s, PinnedBy(t))
  {
  }

  lemma ReaderSource(s: State, t: Tid, a: ReaderAct, o: Owner)
    requires Ready(s, ByReader(t, a)) && !a.HandOut?
    requires o == InSlotOf(t) || o == CarriedBy(t) || o == PinnedBy(t)
    ensures var w := Owned(ReaderNext(s, t, a), o);
            w.Some? ==>
              || w == Some(s.current) || w == Owned(s, InSlotOf(t))
              || w == Owned(s, CarriedBy(t)) || w == Owned(s, PinnedBy(t))
  {
    hide ReaderNext, Ready, Owned;
    if IsGetAct(a) {
      ReaderSourceGet(s, t, a, o);
    } else {
      ReaderSourceLater(s, t, a, o);
    }
  }

  /** The count of one SuperVersion when only tokens x, y and z change. */
  lemma CountFollows(s: State, s': State, v: Sv, x: Owner, y: Owner, z: Owner)
    requires Counted(s) && x != y && y != z && x != z && v in s'.svs && Moved(s, s', v, x, y, z)
    requires forall o | o != x && o != y && o != z :: Owned(s', o) == Owned(s, o)
    ensures s'.svs[v].refs == |Owners(s', v)|
  {
    OwnersDelta(s, s', v, x, y, z);
    if v !in s.svs {
      NobodyOwns(s, v);
    }
    hide Owned, Owners, Share;
  }

  lemma NobodyOwns(s: State, v: Sv)
    requires Counted(s) && v !in s.svs
    ensures Owners(s, v) == {}
  {
    hide Tokens;
  }

  /** A step that only touches tokens x, y and z, and moves as many references as
      it adds to or takes from refs, keeps the counts exact. */
  lemma StepCounted(s: State, s': State, x: Owner, y: Owner, z: Owner)
    requires Counted(s) && x != y && y != z && x != z
    requires forall o | o != x && o != y && o != z :: Owned(s', o) == Owned(s, o)
    requires forall v | v in s'.svs :: Moved(s, s', v, x, y, z)
    requires s.svs.Keys <= s'.svs.Keys
    requires Known(s', x) && Known(s', y) && Known(s', z)
    ensures Counted(s')
  {
    hide Owned, Owners, Share;
    forall v | v in s'.svs ensures s'.svs[v].refs == |Owners(s', v)| {
      CountFollows(s, s', v, x, y, z);
    }
    forall o ensures Known(s', o) {
      if o != x && o != y && o != z {
        CountedKnows(s, o);
      }
    }
  }

  ghost predicate Moved(s: State, s': State, v: Sv, x: Owner, y: Owner, z: Owner)
    requires v in s'.svs
  {
    if v in s.svs then s'.svs[v].refs + Share(s, v, x, y, z) == s.svs[v].refs + Share(s', v, x, y, z)
    else s'.svs[v].refs == Share(s', v, x, y, z)
  }

  predicate Known(s: State, o: Owner) {
    Owned(s, o).Some? ==> Owned(s, o).value in s.svs
  }

  lemma CountedKnows(s: State, o: Owner)
    requires Counted(s)
    ensures Known(s, o)
  {
  }

  lemma ReaderCounted(s: State, t: Tid, a: ReaderAct)
    requires Counted(s) && SlotFits(s, t) && Ready(s, ByReader(t, a)) && !a.HandOut?
    ensures Counted(ReaderNext(s, t, a))
  {
    hide Owned, ReaderNext, Ready, SlotMatches, Share, Counted;
    var s' := ReaderNext(s, t, a);
    var x, y, z := InSlotOf(t), CarriedBy(t), PinnedBy(t);
    forall o | o != x && o != y && o != z ensures Owned(s', o) == Owned(s, o) {
      ReaderFrame(s, t, a, o);
    }
    ReaderKeys(s, t, a);
    forall v | v in s'.svs ensures Moved(s, s', v, x, y, z) {
      ReaderEffect(s, t, a, v);
    }
    CountedKnows(s, x);
    CountedKnows(s, y);
    CountedKnows(s, z);
    CurrentKnown(s);
    ReaderSource(s, t, a, x);
    ReaderSource(s, t, a, y);
    ReaderSource(s, t, a, z);
    StepCounted(s, s', x, y, z);
  }

  lemma CurrentKnown(s: State)
    requires Counted(s)
    ensures s.current in s.svs
  {
    assert Owned(s, ColumnFamily) == Some(s.current);
  }

  lemma ReaderKeys(s: State, t: Tid, a: ReaderAct)
    requires Ready(s, ByReader(t, a))
    ensures ReaderNext(s, t, a).svs.Keys == s.svs.Keys
  {
  }

  lemma HandOutCounted(s: State, t: Tid, e: Eid)
    requires Counted(s) && Ready(s, ByReader(t, HandOut(e)))
    ensures Counted(ReaderNext(s, t, HandOut(e)))
  {
    hide Owned, Share, Counted, ReaderNext, Ready;
    var s' := ReaderNext(s, t, HandOut(e));
    var x, y, z := CarriedBy(t), PinnedBy(t), GivenTo(e);
    forall o | o != x && o != y && o != z ensures Owned(s', o) == Owned(s, o) {
      HandOutFrame(s, t, e, o);
    }
    forall v | v in s'.svs ensures Moved(s, s', v, x, y, z) {
      HandOutEffect(s, t, e, v);
    }
    CountedKnows(s, y);
    HandOutEffect(s, t, e, 0);
    StepCounted(s, s', x, y, z);
  }

  lemma HandOutFrame(s: State, t: Tid, e: Eid, o: Owner)
    requires Ready(s, ByReader(t, HandOut(e))) && o != CarriedBy(t) && o != PinnedBy(t) && o != GivenTo(e)
    ensures Owned(ReaderNext(s, t, HandOut(e)), o) == Owned(s, o)
  {
  }

  lemma HandOutEffect(s: State, t: Tid, e: Eid, v: Sv)
    requires Ready(s, ByReader(t, HandOut(e)))
    ensures var s' := ReaderNext(s, t, HandOut(e));
            && s'.svs == s.svs
            && (v in s'.svs ==> Moved(s, s', v, CarriedBy(t), PinnedBy(t), GivenTo(e)))
            && (Known(s, PinnedBy(t)) ==> Known(s', CarriedBy(t)) && Known(s', PinnedBy(t)) && Known(s', GivenTo(e)))
  {
  }

  lemma ClientCounted(s: State, e: Eid, a: ClientAct)
    requires Counted(s) && Ready(s, ByClient(e, a))
    ensures Counted(ClientNext(s, e, a))
  {
    hide Owned, Share, Counted, ClientNext, Ready;
    var s' := ClientNext(s, e, a);
    var x, y, z := GivenTo(e), ColumnFamily, PriorVersion;
    forall o | o != x ensures Owned(s', o) == Owned(s, o) {
      ClientFrame(s, e, a, o);
    }
    CurrentKnown(s);
    ClientEffect(s, e, a, s.current);
    forall v | v in s'.svs ensures Moved(s, s', v, x, y, z) {
      ClientEffect(s, e, a, v);
    }
    CountedKnows(s, x);
    CountedKnows(s, y);
    CountedKnows(s, z);
    StepCounted(s, s', x, y, z);
  }

  lemma ClientFrame(s: State, e: Eid, a: ClientAct, o: Owner)
    requires Ready(s, ByClient(e, a)) && o != GivenTo(e)
    ensures Owned(ClientNext(s, e, a), o) == Owned(s, o)
  {
  }

  lemma ClientEffect(s: State, e: Eid, a: ClientAct, v: Sv)
    requires Ready(s, ByClient(e, a)) && v in s.svs
    ensures var s' := ClientNext(s, e, a);
            && s'.svs.Keys == s.svs.Keys
            && Moved(s, s', v, GivenTo(e), ColumnFamily, PriorVersion)
            && (Known(s, GivenTo(e)) && s.current in s.svs ==> Known(s', GivenTo(e)))
  {
  }

  /** The tokens an installer action touches. */
  function InstallTokens(a: InstallAct): (Owner, Owner, Owner) {
    if a.ScrapeSlot? then (InSlotOf(a.t), ScrapedFrom(a.t), PriorVersion)
    else if a.UnrefScraped? then (ColumnFamily, PriorVersion, ScrapedFrom(a.t))
    else (ColumnFamily, PriorVersion, ScrapedFrom(0))
  }

  lemma InstallCounted(s: State, a: InstallAct)
    requires Counted(s) && Ready(s, ByInstaller(a))
    requires a.ScrapeSlot? ==> a.t !in s.scraped
    ensures Counted(InstallNext(s, a))
  {
    hide Owned, Share, Counted, InstallNext, Ready;
    var s' := InstallNext(s, a);
    var (x, y, z) := InstallTokens(a);
    forall o | o != x && o != y && o != z ensures Owned(s', o) == Owned(s, o) {
      InstallFrame(s, a, o);
    }
    CountedKnows(s, x);
    CountedKnows(s, y);
    CountedKnows(s, z);
    CurrentKnown(s);
    InstallKnown(s, a);
    forall v | v in s'.svs ensures Moved(s, s', v, x, y, z) {
      if v !in s.svs {
        CountedKnows(s, x);
        CountedKnows(s, y);
        CountedKnows(s, z);
      }
      InstallEffect(s, a, v);
    }
    StepCounted(s, s', x, y, z);
  }

  lemma InstallFrame(s: State, a: InstallAct, o: Owner)
    requires Ready(s, ByInstaller(a))
    requires var (x, y, z) := InstallTokens(a); o != x && o != y && o != z
    ensures Owned(InstallNext(s, a), o) == Owned(s, o)
  {
  }

  lemma InstallKnown(s: State, a: InstallAct)
    requires Ready(s, ByInstaller(a)) && s.current in s.svs
    requires var (x, y, z) := InstallTokens(a); Known(s, x) && Known(s, y) && Known(s, z)
    ensures var s' := InstallNext(s, a);
            var (x, y, z) := InstallTokens(a);
            s.svs.Keys <= s'.svs.Keys && Known(s', x) && Known(s', y) && Known(s', z)
  {
  }

  lemma InstallEffect(s: State, a: InstallAct, v: Sv)
    requires Ready(s, ByInstaller(a)) && v in InstallNext(s, a).svs && s.current in s.svs
    requires a.ScrapeSlot? ==> a.t !in s.scraped
    requires var (x, y, z) := InstallTokens(a); Known(s, x) && Known(s, y) && Known(s, z)
    ensures var (x, y, z) := InstallTokens(a);
            Moved(s, InstallNext(s, a), v, x, y, z)
  {
  }

  // ---- references are dropped and taken legally -------------------------------------

  /** What the assertions in the code claim about the object a reader step
      touches: an Unref finds a reference to drop, thread exit's and the pinning
      Unref are never the last, a Ref never revives a dead object, and Cleanup
      happens once, on a dead one. */
  predicate ReaderLegal(s: State, t: Tid, a: ReaderAct)
    requires Ready(s, ByReader(t, a))
  {
    var touched := Touches(s, ByReader(t, a));
    touched.Some? ==>
      var o := s.svs[touched.value];
      if a.ThreadExit? || a.UnrefPin? then o.refs > 1
      else if a.Cleanup? || a.CleanupDead? then o.refs == 0 && o.cleanups == 0
      else o.refs > 0
  }

  predicate ClientLegal(s: State, e: Eid, a: ClientAct)
    requires Ready(s, ByClient(e, a))
  {
    var o := s.svs[Touches(s, ByClient(e, a)).value];
    if a.ClientRef? || a.ClientUnref? then o.refs > 0 else o.refs == 0 && o.cleanups == 0
  }

  /** Scrape's Unref is never the last one; the installer's own may be. */
  predicate InstallLegal(s: State, a: InstallAct)
    requires Ready(s, ByInstaller(a))
  {
    && (a.UnrefScraped? ==> s.svs[s.scraped[a.t]].refs > 1)
    && (a.UnrefPrior? ==> s.svs[s.install.prior].refs > 0)
    && (a.CleanupPrior? ==> s.svs[s.install.prior].refs == 0 && s.svs[s.install.prior].cleanups == 0)
  }

  lemma ReaderStepLegal(s: State, t: Tid, a: ReaderAct)
    requires Inv(s) && Ready(s, ByReader(t, a))
    ensures ReaderLegal(s, t, a)
  {
    hide Counted, CleanedOnce, Versioned, MutexHeld, ReaderNext;
    match a {
      case ThreadExit =>
        if s.slots[t].Cached? {
          assert ThreadSafe(s, t);
          TwoOwnersCount(s, InSlotOf(t), if s.install.NoInstall? then ColumnFamily else PriorVersion);
        }
      case UnrefPin => TwoOwnersCount(s, CarriedBy(t), PinnedBy(t));
      case Cleanup => CleanerWaits(s, CarriedBy(t));
      case CleanupDead => CleanerWaits(s, CarriedBy(t));
      case RefCurrent => OwnerCounts(s, ColumnFamily);
      case UnrefStale => OwnerCounts(s, CarriedBy(t));
      case UnrefFailed => OwnerCounts(s, CarriedBy(t));
      case Pin => OwnerCounts(s, CarriedBy(t));
      case CheckVersion => if s.pcs[t].found.Some? { OwnerCounts(s, CarriedBy(t)); }
      case _ =>
    }
  }

  lemma ClientStepLegal(s: State, e: Eid, a: ClientAct)
    requires Inv(s) && Ready(s, ByClient(e, a))
    ensures ClientLegal(s, e, a)
  {
    hide Counted, CleanedOnce, Versioned, SlotsSafe;
    match a {
      case ClientRef => OwnerCounts(s, ColumnFamily);
      case ClientUnref => OwnerCounts(s, GivenTo(e));
      case ClientCleanup => CleanerWaits(s, GivenTo(e));
      case ClientLock => CleanerWaits(s, GivenTo(e));
    }
  }

  lemma InstallStepLegal(s: State, a: InstallAct)
    requires Inv(s) && Ready(s, ByInstaller(a))
    ensures InstallLegal(s, a)
  {
    hide Counted, CleanedOnce, Versioned;
    match a {
      case UnrefScraped(t) => TwoOwnersCount(s, ScrapedFrom(t), PriorVersion);
      case UnrefPrior => OwnerCounts(s, PriorVersion);
      case CleanupPrior => CleanerWaits(s, PriorVersion);
      case _ =>
    }
  }

  // ---- CleanedOnce is preserved -------------------------------------------------------

  function CleanShare(s: State, v: Sv, x: Owner): nat {
    One(Cleans(s, x) == Some(v))
  }

  /** At token x, a cleaning duty appears exactly when the last reference goes and
      is discharged exactly by a cleanup. */
  ghost predicate DutyMoved(s: State, s': State, v: Sv, x: Owner)
    requires v in s'.svs
  {
    if v in s.svs then
      s'.svs[v].cleanups + CleanShare(s', v, x) + One(s.svs[v].refs == 0)
      == s.svs[v].cleanups + CleanShare(s, v, x) + One(s'.svs[v].refs == 0)
    else s'.svs[v].cleanups == 0 && CleanShare(s', v, x) == 0 && s'.svs[v].refs != 0
  }

  predicate DutyKnown(s: State, o: Owner) {
    Cleans(s, o).Some? ==> Cleans(s, o).value in s.svs
  }

  lemma StepCleaned(s: State, s': State, x: Owner)
    requires CleanedOnce(s) && s.svs.Keys <= s'.svs.Keys
    requires forall o | o != x :: Cleans(s', o) == Cleans(s, o)
    requires forall v | v in s'.svs :: DutyMoved(s, s', v, x)
    requires DutyKnown(s', x)
    ensures CleanedOnce(s')
  {
    hide Cleans;
    forall v | v in s'.svs ensures s'.svs[v].cleanups + |Cleaners(s', v)| == if s'.svs[v].refs == 0 then 1 else 0 {
      assert DutyMoved(s, s', v, x);
      CleanersDelta(s, s', v, x);
      if v !in s.svs {
        assert Cleaners(s, v) == {};
      }
    }
    forall o ensures DutyKnown(s', o) {
      if o != x {
        assert DutyKnown(s, o);
      }
    }
  }

  lemma ReaderDutyGet(s: State, t: Tid, a: ReaderAct, v: Sv)
    requires IsGetAct(a)
    requires Ready(s, ByReader(t, a)) && ReaderLegal(s, t, a) && v in s.svs
    ensures var s' := ReaderNext(s, t, a);
            s'.svs.Keys == s.svs.Keys && DutyMoved(s, s', v, CarriedBy(t))
  {
  }

  lemma ReaderDutyUnref(s: State, t: Tid, a: ReaderAct, v: Sv)
    requires IsUnrefAct(a)
    requires Ready(s, ByReader(t, a)) && ReaderLegal(s, t, a) && v in s.svs
    ensures var s' := ReaderNext(s, t, a);
            s'.svs.Keys == s.svs.Keys && DutyMoved(s, s', v, CarriedBy(t))
  {
  }

  lemma ReaderDutyReturn(s: State, t: Tid, a: ReaderAct, v: Sv)
    requires !IsGetAct(a) && !IsUnrefAct(a)
    requires Ready(s, ByReader(t, a)) && ReaderLegal(s, t, a) && v in s.svs
    ensures var s' := ReaderNext(s, t, a);
            s'.svs.Keys == s.svs.Keys && DutyMoved(s, s', v, CarriedBy(t))
  {
  }

  lemma ReaderDuty(s: State, t: Tid, a: ReaderAct, v: Sv)
    requires Ready(s, ByReader(t, a)) && ReaderLegal(s, t, a) && v in s.svs
    ensures var s' := ReaderNext(s, t, a);
            s'.svs.Keys == s.svs.Keys && DutyMoved(s, s', v, CarriedBy(t))
  {
    hide ReaderNext, Ready, ReaderLegal, DutyMoved;
    if IsGetAct(a) {
      ReaderDutyGet(s, t, a, v);
    } else if IsUnrefAct(a) {
      ReaderDutyUnref(s, t, a, v);
    } else {
      ReaderDutyReturn(s, t, a, v);
    }
  }

  lemma ReaderDutyFrameGet(s: State, t: Tid, a: ReaderAct, o: Owner)
    requires IsGetAct(a)
    requires Ready(s, ByReader(t, a)) && o != CarriedBy(t)
    ensures Cleans(ReaderNext(s, t, a), o) == Cleans(s, o)
  {
  }

  lemma ReaderDutyFrameLater(s: State, t: Tid, a: ReaderAct, o: Owner)
    requires !IsGetAct(a)
    requires Ready(s, ByReader(t, a)) && o != CarriedBy(t)
    ensures Cleans(ReaderNext(s, t, a), o) == Cleans(s, o)
  {
  }

  lemma ReaderDutyFrame(s: State, t: Tid, a: ReaderAct, o: Owner)
    requires Ready(s, ByReader(t, a)) && o != CarriedBy(t)
    ensures Cleans(ReaderNext(s, t, a), o) == Cleans(s, o)
  {
    hide ReaderNext, Ready, Cleans;
    if IsGetAct(a) {
      ReaderDutyFrameGet(s, t, a, o);
    } else {
      ReaderDutyFrameLater(s, t, a, o);
    }
  }

  lemma ReaderDutyKnown(s: State, t: Tid, a: ReaderAct)
    requires Ready(s, ByReader(t, a)) && DutyKnown(s, CarriedBy(t))
    ensures DutyKnown(ReaderNext(s, t, a), CarriedBy(t))
  {
  }

  lemma ReaderCleaned(s: State, t: Tid, a: ReaderAct)
    requires Inv(s) && Ready(s, ByReader(t, a))
    ensures CleanedOnce(ReaderNext(s, t, a))
  {
    hide Cleans, ReaderNext, Ready, ReaderLegal, Counted, SlotsSafe, Versioned, MutexHeld, DutyMoved, DutyKnown;
    var s' := ReaderNext(s, t, a);
    ReaderStepLegal(s, t, a);
    ReaderKeys(s, t, a);
    forall o | o != CarriedBy(t) ensures Cleans(s', o) == Cleans(s, o) {
      ReaderDutyFrame(s, t, a, o);
    }
    forall v | v in s'.svs ensures DutyMoved(s, s', v, CarriedBy(t)) {
      ReaderDuty(s, t, a, v);
    }
    CleanedKnows(s, CarriedBy(t));
    ReaderDutyKnown(s, t, a);
    StepCleaned(s, s', CarriedBy(t));
  }

  lemma CleanedKnows(s: State, o: Owner)
    requires CleanedOnce(s)
    ensures DutyKnown(s, o)
  {
  }

  lemma ClientDuty(s: State, e: Eid, a: ClientAct, v: Sv)
    requires Ready(s, ByClient(e, a)) && ClientLegal(s, e, a) && v in s.svs
    ensures var s' := ClientNext(s, e, a);
            s'.svs.Keys == s.svs.Keys && DutyMoved(s, s', v, GivenTo(e))
  {
  }

  lemma ClientDutyFrame(s: State, e: Eid, a: ClientAct, o: Owner)
    requires Ready(s, ByClient(e, a)) && o != GivenTo(e)
    ensures Cleans(ClientNext(s, e, a), o) == Cleans(s, o)
    ensures DutyKnown(s, GivenTo(e)) ==> DutyKnown(ClientNext(s, e, a), GivenTo(e))
  {
  }

  lemma ClientCleaned(s: State, e: Eid, a: ClientAct)
    requires Inv(s) && Ready(s, ByClient(e, a))
    ensures CleanedOnce(ClientNext(s, e, a))
  {
    hide Cleans, ClientNext, Ready, ClientLegal, Counted, SlotsSafe, MutexHeld, DutyMoved, DutyKnown;
    var s' := ClientNext(s, e, a);
    ClientStepLegal(s, e, a);
    ClientDuty(s, e, a, s.current);
    forall o | o != GivenTo(e) ensures Cleans(s', o) == Cleans(s, o) {
      ClientDutyFrame(s, e, a, o);
    }
    forall v | v in s'.svs ensures DutyMoved(s, s', v, GivenTo(e)) {
      ClientDuty(s, e, a, v);
    }
    CleanedKnows(s, GivenTo(e));
    ClientDutyFrame(s, e, a, ColumnFamily);
    StepCleaned(s, s', GivenTo(e));
  }

  lemma InstallDuty(s: State, a: InstallAct, v: Sv)
    requires Ready(s, ByInstaller(a)) && InstallLegal(s, a) && v in InstallNext(s, a).svs
    ensures DutyMoved(s, InstallNext(s, a), v, PriorVersion)
    ensures s.svs.Keys <= InstallNext(s, a).svs.Keys
  {
  }

  lemma InstallDutyFrame(s: State, a: InstallAct, o: Owner)
    requires Ready(s, ByInstaller(a)) && o != PriorVersion
    ensures Cleans(InstallNext(s, a), o) == Cleans(s, o)
    ensures DutyKnown(s, PriorVersion) ==> DutyKnown(InstallNext(s, a), PriorVersion)
  {
  }

  lemma InstallCleaned(s: State, a: InstallAct)
    requires Inv(s) && Ready(s, ByInstaller(a))
    ensures CleanedOnce(InstallNext(s, a))
  {
    hide Cleans, InstallNext, Ready, InstallLegal, Counted, SlotsSafe, MutexHeld, DutyMoved, DutyKnown;
    var s' := InstallNext(s, a);
    InstallStepLegal(s, a);
    InstallGrows(s, a);
    forall o | o != PriorVersion ensures Cleans(s', o) == Cleans(s, o) {
      InstallDutyFrame(s, a, o);
    }
    forall v | v in s'.svs ensures DutyMoved(s, s', v, PriorVersion) {
      InstallDuty(s, a, v);
    }
    CleanedKnows(s, PriorVersion);
    InstallDutyFrame(s, a, ColumnFamily);
    StepCleaned(s, s', PriorVersion);
  }

  lemma InstallGrows(s: State, a: InstallAct)
    requires Ready(s, ByInstaller(a))
    ensures s.svs.Keys <= InstallNext(s, a).svs.Keys
  {
  }

  /** No step ever touches an object that does not exist. */
  lemma EnabledIsReady(s: State, p: Step)
    requires Inv(s) && Enabled(s, p)
    ensures Ready(s, p)
  {
    hide Counted, CleanedOnce, SlotsSafe, MutexHeld, Versioned;
    CurrentKnown(s);
    match p {
      case ByReader(t, a) =>
        CountedKnows(s, CarriedBy(t));
        CountedKnows(s, InSlotOf(t));
        CleanedKnows(s, CarriedBy(t));
      case ByClient(e, a) =>
        CountedKnows(s, GivenTo(e));
        CleanedKnows(s, GivenTo(e));
      case ByInstaller(a) =>
        CountedKnows(s, PriorVersion);
        CleanedKnows(s, PriorVersion);
        if a.UnrefScraped? {
          CountedKnows(s, ScrapedFrom(a.t));
        }
    }
  }

  // ---- SlotsSafe is preserved ------------------------------------------------------------

  lemma ReaderOthersGet(s: State, t: Tid, a: ReaderAct, u: Tid)
    requires IsGetAct(a)
    requires Ready(s, ByReader(t, a)) && u != t
    ensures var s' := ReaderNext(s, t, a);
            && (u in s'.pcs <==> u in s.pcs) && (u in s'.slots <==> u in s.slots)
            && (u in s.pcs ==> s'.pcs[u] == s.pcs[u]) && (u in s.slots ==> s'.slots[u] == s.slots[u])
  {
  }

  lemma ReaderOthersLater(s: State, t: Tid, a: ReaderAct, u: Tid)
    requires !IsGetAct(a)
    requires Ready(s, ByReader(t, a)) && u != t
    ensures var s' := ReaderNext(s, t, a);
            && (u in s'.pcs <==> u in s.pcs) && (u in s'.slots <==> u in s.slots)
            && (u in s.pcs ==> s'.pcs[u] == s.pcs[u]) && (u in s.slots ==> s'.slots[u] == s.slots[u])
  {
  }

  lemma ReaderOthers(s: State, t: Tid, a: ReaderAct, u: Tid)
    requires Ready(s, ByReader(t, a)) && u != t
    ensures var s' := ReaderNext(s, t, a);
            && (u in s'.pcs <==> u in s.pcs) && (u in s'.slots <==> u in s.slots)
            && (u in s.pcs ==> s'.pcs[u] == s.pcs[u]) && (u in s.slots ==> s'.slots[u] == s.slots[u])
  {
    hide ReaderNext, Ready;
    if IsGetAct(a) {
      ReaderOthersGet(s, t, a, u);
    } else {
      ReaderOthersLater(s, t, a, u);
    }
  }

  lemma ReaderSelfSafeGet(s: State, t: Tid, a: ReaderAct)
    requires IsGetAct(a)
    requires Ready(s, ByReader(t, a)) && t in ReaderNext(s, t, a).pcs
    requires s.install.NoInstall? <==> s.mutex != Some(Installer)
    requires t in s.pcs ==> (s.pcs[t].Locked? || s.pcs[t].Cleaning? <==> s.mutex == Some(Reader(t)))
    requires t in s.pcs ==> t in s.slots && ThreadSafe(s, t)
    ensures var s' := ReaderNext(s, t, a);
            t in s'.slots && ThreadSafe(s', t)
  {
  }

  lemma ReaderSelfSafeUnref(s: State, t: Tid, a: ReaderAct)
    requires IsUnrefAct(a)
    requires Ready(s, ByReader(t, a)) && t in ReaderNext(s, t, a).pcs
    requires s.install.NoInstall? <==> s.mutex != Some(Installer)
    requires t in s.pcs ==> (s.pcs[t].Locked? || s.pcs[t].Cleaning? <==> s.mutex == Some(Reader(t)))
    requires t in s.pcs ==> t in s.slots && ThreadSafe(s, t)
    ensures var s' := ReaderNext(s, t, a);
            t in s'.slots && ThreadSafe(s', t)
  {
  }

  lemma ReaderSelfSafeReturn(s: State, t: Tid, a: ReaderAct)
    requires !IsGetAct(a) && !IsUnrefAct(a)
    requires Ready(s, ByReader(t, a)) && t in ReaderNext(s, t, a).pcs
    requires s.install.NoInstall? <==> s.mutex != Some(Installer)
    requires t in s.pcs ==> (s.pcs[t].Locked? || s.pcs[t].Cleaning? <==> s.mutex == Some(Reader(t)))
    requires t in s.pcs ==> t in s.slots && ThreadSafe(s, t)
    ensures var s' := ReaderNext(s, t, a);
            t in s'.slots && ThreadSafe(s', t)
  {
  }

  lemma ReaderSelfSafe(s: State, t: Tid, a: ReaderAct)
    requires Ready(s, ByReader(t, a)) && t in ReaderNext(s, t, a).pcs
    requires s.install.NoInstall? <==> s.mutex != Some(Installer)
    requires t in s.pcs ==> (s.pcs[t].Locked? || s.pcs[t].Cleaning? <==> s.mutex == Some(Reader(t)))
    requires t in s.pcs ==> t in s.slots && ThreadSafe(s, t)
    ensures var s' := ReaderNext(s, t, a);
            t in s'.slots && ThreadSafe(s', t)
  {
    hide ReaderNext, Ready, ThreadSafe;
    if IsGetAct(a) {
      ReaderSelfSafeGet(s, t, a);
    } else if IsUnrefAct(a) {
      ReaderSelfSafeUnref(s, t, a);
    } else {
      ReaderSelfSafeReturn(s, t, a);
    }
  }

  lemma ReaderSlotsFrameGet(s: State, t: Tid, a: ReaderAct)
    requires IsGetAct(a)
    requires Ready(s, ByReader(t, a)) && s.slots.Keys == s.pcs.Keys
    ensures var s' := ReaderNext(s, t, a);
            && s'.slots.Keys == s'.pcs.Keys && s'.install == s.install && s'.scraped == s.scraped
            && s'.current == s.current && s'.number == s.number
            && (s.install.Scraping? ==> s.slots.Keys <= s'.slots.Keys)
  {
  }

  lemma ReaderSlotsFrameLater(s: State, t: Tid, a: ReaderAct)
    requires !IsGetAct(a)
    requires Ready(s, ByReader(t, a)) && s.slots.Keys == s.pcs.Keys
    ensures var s' := ReaderNext(s, t, a);
            && s'.slots.Keys == s'.pcs.Keys && s'.install == s.install && s'.scraped == s.scraped
            && s'.current == s.current && s'.number == s.number
            && (s.install.Scraping? ==> s.slots.Keys <= s'.slots.Keys)
  {
  }

  lemma ReaderSlotsFrame(s: State, t: Tid, a: ReaderAct)
    requires Ready(s, ByReader(t, a)) && s.slots.Keys == s.pcs.Keys
    ensures var s' := ReaderNext(s, t, a);
            && s'.slots.Keys == s'.pcs.Keys && s'.install == s.install && s'.scraped == s.scraped
            && s'.current == s.current && s'.number == s.number
            && (s.install.Scraping? ==> s.slots.Keys <= s'.slots.Keys)
  {
    hide ReaderNext, Ready;
    if IsGetAct(a) {
      ReaderSlotsFrameGet(s, t, a);
    } else {
      ReaderSlotsFrameLater(s, t, a);
    }
  }

  lemma ReaderSlotsSafe(s: State, t: Tid, a: ReaderAct)
    requires SlotsSafe(s) && MutexHeld(s) && Ready(s, ByReader(t, a))
    ensures SlotsSafe(ReaderNext(s, t, a))
  {
    hide ReaderNext, Ready, ThreadSafe;
    ReaderSlotsFrame(s, t, a);
    var s' := ReaderNext(s, t, a);
    forall u | u in s'.pcs ensures ThreadSafe(s', u) {
      if u == t {
        ReaderSelfSafe(s, t, a);
      } else {
        ReaderOthers(s, t, a, u);
        SafeFrame(s, s', u);
      }
    }
  }

  lemma SafeFrame(s: State, s': State, u: Tid)
    requires u in s.pcs && u in s.slots && u in s'.pcs && u in s'.slots
    requires s'.pcs[u] == s.pcs[u] && s'.slots[u] == s.slots[u] && s'.install == s.install && s'.current == s.current
    requires ThreadSafe(s, u)
    ensures ThreadSafe(s', u)
  {
  }

  lemma ClientSlotsSafe(s: State, e: Eid, a: ClientAct)
    requires SlotsSafe(s) && Ready(s, ByClient(e, a))
    ensures SlotsSafe(ClientNext(s, e, a))
  {
    var s' := ClientNext(s, e, a);
    assert s'.slots == s.slots && s'.pcs == s.pcs && s'.install == s.install && s'.current == s.current &&
           s'.scraped == s.scraped;
    forall u | u in s'.pcs ensures ThreadSafe(s', u) {
      assert ThreadSafe(s, u);
    }
  }

  lemma InstallThreadSafe(s: State, a: InstallAct, u: Tid)
    requires Ready(s, ByInstaller(a)) && u in s.pcs && u in s.slots && ThreadSafe(s, u)
    ensures var s' := InstallNext(s, a);
            u in s'.pcs && u in s'.slots && ThreadSafe(s', u)
  {
  }

  lemma InstallSlotsSafe(s: State, a: InstallAct)
    requires SlotsSafe(s) && Ready(s, ByInstaller(a))
    ensures SlotsSafe(InstallNext(s, a))
  {
    hide ThreadSafe, SlotMatches;
    var s' := InstallNext(s, a);
    forall u | u in s'.pcs ensures u in s'.slots && ThreadSafe(s', u) {
      InstallThreadSafe(s, a, u);
    }
    if a.ScrapeSlot? && s.slots[a.t].Cached? {
      CachedIsFresh(s, a.t);
    }
  }

  lemma CachedIsFresh(s: State, t: Tid)
    requires SlotsSafe(s) && t in s.slots && s.slots[t].Cached?
    ensures FreshFor(s, t, s.slots[t].sv)
  {
    assert ThreadSafe(s, t);
  }

  // ---- MutexHeld is preserved ---------------------------------------------------------------

  lemma ReaderMutexSelfGet(s: State, t: Tid, a: ReaderAct)
    requires IsGetAct(a)
    requires Ready(s, ByReader(t, a)) && (s.mutex == Some(Reader(t)) ==> t in s.pcs)
    requires t in s.pcs ==> (s.pcs[t].Locked? || s.pcs[t].Cleaning? <==> s.mutex == Some(Reader(t)))
    ensures var s' := ReaderNext(s, t, a);
            && (s'.mutex == s.mutex || s'.mutex == None || s'.mutex == Some(Reader(t)))
            && (s'.mutex != s.mutex ==> s.mutex == None || s.mutex == Some(Reader(t)))
            && (t in s'.pcs ==> (s'.pcs[t].Locked? || s'.pcs[t].Cleaning? <==> s'.mutex == Some(Reader(t))))
            && (t !in s'.pcs ==> s'.mutex == s.mutex != Some(Reader(t)))
            && s'.install == s.install
  {
  }

  lemma ReaderMutexSelfReturn(s: State, t: Tid, a: ReaderAct)
    requires !IsGetAct(a)
    requires Ready(s, ByReader(t, a)) && (s.mutex == Some(Reader(t)) ==> t in s.pcs)
    requires t in s.pcs ==> (s.pcs[t].Locked? || s.pcs[t].Cleaning? <==> s.mutex == Some(Reader(t)))
    ensures var s' := ReaderNext(s, t, a);
            && (s'.mutex == s.mutex || s'.mutex == None || s'.mutex == Some(Reader(t)))
            && (s'.mutex != s.mutex ==> s.mutex == None || s.mutex == Some(Reader(t)))
            && (t in s'.pcs ==> (s'.pcs[t].Locked? || s'.pcs[t].Cleaning? <==> s'.mutex == Some(Reader(t))))
            && (t !in s'.pcs ==> s'.mutex == s.mutex != Some(Reader(t)))
            && s'.install == s.install
  {
  }

  lemma ReaderMutexSelf(s: State, t: Tid, a: ReaderAct)
    requires Ready(s, ByReader(t, a)) && (s.mutex == Some(Reader(t)) ==> t in s.pcs)
    requires t in s.pcs ==> (s.pcs[t].Locked? || s.pcs[t].Cleaning? <==> s.mutex == Some(Reader(t)))
    ensures var s' := ReaderNext(s, t, a);
            && (s'.mutex == s.mutex || s'.mutex == None || s'.mutex == Some(Reader(t)))
            && (s'.mutex != s.mutex ==> s.mutex == None || s.mutex == Some(Reader(t)))
            && (t in s'.pcs ==> (s'.pcs[t].Locked? || s'.pcs[t].Cleaning? <==> s'.mutex == Some(Reader(t))))
            && (t !in s'.pcs ==> s'.mutex == s.mutex != Some(Reader(t)))
            && s'.install == s.install
  {
    hide ReaderNext, Ready;
    if IsGetAct(a) {
      ReaderMutexSelfGet(s, t, a);
    } else {
      ReaderMutexSelfReturn(s, t, a);
    }
  }

  lemma ReaderMutexClients(s: State, t: Tid, a: ReaderAct, e: Eid)
    requires Ready(s, ByReader(t, a))
    ensures var s' := ReaderNext(s, t, a);
            if e in s.clients then e in s'.clients && s'.clients[e] == s.clients[e]
            else e in s'.clients ==> !s'.clients[e].ClientClean?
  {
  }

  lemma ReaderMutex(s: State, t: Tid, a: ReaderAct)
    requires MutexHeld(s) && Ready(s, ByReader(t, a))
    ensures MutexHeld(ReaderNext(s, t, a))
  {
    hide ReaderNext, Ready;
    var s' := ReaderNext(s, t, a);
    ReaderMutexSelf(s, t, a);
    forall u | u != t ensures (u in s'.pcs <==> u in s.pcs) && (u in s.pcs ==> s'.pcs[u] == s.pcs[u]) {
      ReaderOthers(s, t, a, u);
    }
    forall e ensures if e in s.clients then e in s'.clients && s'.clients[e] == s.clients[e]
                     else e in s'.clients ==> !s'.clients[e].ClientClean? {
      ReaderMutexClients(s, t, a, e);
    }
  }

  lemma ClientMutex(s: State, e: Eid, a: ClientAct)
    requires MutexHeld(s) && Ready(s, ByClient(e, a))
    ensures MutexHeld(ClientNext(s, e, a))
  {
  }

  lemma InstallMutex(s: State, a: InstallAct)
    requires MutexHeld(s) && Ready(s, ByInstaller(a))
    ensures MutexHeld(InstallNext(s, a))
  {
  }

  // ---- Versioned is preserved ----------------------------------------------------------------

  lemma ReaderVersions(s: State, t: Tid, a: ReaderAct, v: Sv)
    requires Ready(s, ByReader(t, a)) && v in s.svs
    ensures v in ReaderNext(s, t, a).svs && ReaderNext(s, t, a).svs[v].version == s.svs[v].version
  {
  }

  lemma ReaderSelfFreshGet(s: State, t: Tid, a: ReaderAct)
    requires IsGetAct(a)
    requires Ready(s, ByReader(t, a)) && t in ReaderNext(s, t, a).pcs
    requires s.current in s.svs && (s.install.NoInstall? ==> s.svs[s.current].version == s.number)
    requires s.install.NoInstall? <==> s.mutex != Some(Installer)
    requires t in s.pcs ==> (s.pcs[t].Locked? || s.pcs[t].Cleaning? <==> s.mutex == Some(Reader(t)))
    requires t in s.pcs ==> ThreadFresh(s, t)
    ensures ThreadFresh(ReaderNext(s, t, a), t)
  {
  }

  lemma ReaderSelfFreshReturn(s: State, t: Tid, a: ReaderAct)
    requires !IsGetAct(a)
    requires Ready(s, ByReader(t, a)) && t in ReaderNext(s, t, a).pcs
    requires s.current in s.svs && (s.install.NoInstall? ==> s.svs[s.current].version == s.number)
    requires s.install.NoInstall? <==> s.mutex != Some(Installer)
    requires t in s.pcs ==> (s.pcs[t].Locked? || s.pcs[t].Cleaning? <==> s.mutex == Some(Reader(t)))
    requires t in s.pcs ==> ThreadFresh(s, t)
    ensures ThreadFresh(ReaderNext(s, t, a), t)
  {
  }

  lemma ReaderSelfFresh(s: State, t: Tid, a: ReaderAct)
    requires Ready(s, ByReader(t, a)) && t in ReaderNext(s, t, a).pcs
    requires s.current in s.svs && (s.install.NoInstall? ==> s.svs[s.current].version == s.number)
    requires s.install.NoInstall? <==> s.mutex != Some(Installer)
    requires t in s.pcs ==> (s.pcs[t].Locked? || s.pcs[t].Cleaning? <==> s.mutex == Some(Reader(t)))
    requires t in s.pcs ==> ThreadFresh(s, t)
    ensures ThreadFresh(ReaderNext(s, t, a), t)
  {
    hide ReaderNext, Ready, ThreadFresh;
    if IsGetAct(a) {
      ReaderSelfFreshGet(s, t, a);
    } else {
      ReaderSelfFreshReturn(s, t, a);
    }
  }

  lemma FreshFrame(s: State, s': State, u: Tid)
    requires u in s.pcs && u in s'.pcs && s'.pcs[u] == s.pcs[u] && s'.number >= s.number
    requires forall v | v in s.svs :: v in s'.svs && s'.svs[v].version >= s.svs[v].version
    requires ThreadFresh(s, u)
    ensures ThreadFresh(s', u)
  {
  }

  lemma ReaderVersioned(s: State, t: Tid, a: ReaderAct)
    requires SlotsSafe(s) && MutexHeld(s) && Versioned(s) && Ready(s, ByReader(t, a))
    ensures Versioned(ReaderNext(s, t, a))
  {
    hide ReaderNext, Ready, ThreadFresh, ThreadSafe;
    var s' := ReaderNext(s, t, a);
    ReaderSlotsFrame(s, t, a);
    ReaderKeys(s, t, a);
    forall v | v in s.svs ensures v in s'.svs && s'.svs[v].version == s.svs[v].version {
      ReaderVersions(s, t, a, v);
    }
    forall u | u in s'.pcs ensures ThreadFresh(s', u) {
      if u == t {
        ReaderSelfFresh(s, t, a);
      } else {
        ReaderOthers(s, t, a, u);
        FreshFrame(s, s', u);
      }
    }
  }

  lemma ClientVersions(s: State, e: Eid, a: ClientAct, v: Sv)
    requires Ready(s, ByClient(e, a)) && v in s.svs
    ensures var s' := ClientNext(s, e, a);
            && s'.svs.Keys == s.svs.Keys && s'.svs[v].version == s.svs[v].version
            && s'.current == s.current && s'.number == s.number && s'.install == s.install && s'.pcs == s.pcs
  {
  }

  lemma ClientVersioned(s: State, e: Eid, a: ClientAct)
    requires Versioned(s) && Ready(s, ByClient(e, a))
    ensures Versioned(ClientNext(s, e, a))
  {
    hide ClientNext, Ready;
    var s' := ClientNext(s, e, a);
    ClientVersions(s, e, a, s.current);
    forall v | v in s.svs ensures v in s'.svs && s'.svs[v].version == s.svs[v].version {
      ClientVersions(s, e, a, v);
    }
    forall u | u in s'.pcs ensures ThreadFresh(s', u) {
      assert ThreadFresh(s, u);
    }
  }

  lemma InstallVersions(s: State, a: InstallAct, v: Sv)
    requires Ready(s, ByInstaller(a)) && v in InstallNext(s, a).svs && s.current in s.svs
    ensures var s' := InstallNext(s, a);
            && s.svs.Keys <= s'.svs.Keys
            && s'.svs[v].version == (if a.Bump? && v == s.current then s.number + 1
                                     else if v in s.svs then s.svs[v].version else 0)
            && s'.current == (if a.Publish? then a.v else s.current)
            && s'.number == (if a.Bump? then s.number + 1 else s.number)
            && s'.pcs == s.pcs
            && (v !in s.svs ==> a.Publish? && v == a.v)
  {
  }

  lemma InstallVersioned(s: State, a: InstallAct)
    requires Versioned(s) && Ready(s, ByInstaller(a))
    ensures Versioned(InstallNext(s, a))
  {
    hide ThreadFresh;
    var s' := InstallNext(s, a);
    InstallGrows(s, a);
    InstallVersions(s, a, s.current);
    forall v | v in s'.svs
      ensures s'.svs[v].version == if a.Bump? && v == s.current then s.number + 1
                                   else if v in s.svs then s.svs[v].version else 0
      ensures v !in s.svs ==> a.Publish? && v == a.v
    {
      InstallVersions(s, a, v);
    }
    forall u | u in s'.pcs ensures ThreadFresh(s', u) {
      InstallThreadFresh(s, a, u);
    }
  }

  lemma InstallThreadFresh(s: State, a: InstallAct, u: Tid)
    requires Ready(s, ByInstaller(a)) && Versioned(s) && u in s.pcs
    ensures u in InstallNext(s, a).pcs && ThreadFresh(InstallNext(s, a), u)
  {
    hide InstallNext, Ready, ThreadFresh;
    InstallLeavesThreads(s, a);
    InstallGrows(s, a);
    InstallVersions(s, a, s.current);
    var s' := InstallNext(s, a);
    forall v | v in s.svs ensures v in s'.svs && s'.svs[v].version >= s.svs[v].version {
      InstallVersions(s, a, v);
    }
    FreshFrame(s, s', u);
  }

  // ---- every run -------------------------------------------------------------------------------

  /** The claims of the code's assertions about a step. */
  predicate Legal(s: State, p: Step)
    requires Ready(s, p)
  {
    match p
    case ByReader(t, a) => ReaderLegal(s, t, a)
    case ByClient(e, a) => ClientLegal(s, e, a)
    case ByInstaller(a) => InstallLegal(s, a)
  }

  lemma StepKeepsInv(s: State, p: Step)
    requires Inv(s) && Enabled(s, p)
    ensures Ready(s, p) && Legal(s, p) && Inv(Next(s, p))
  {
    hide Counted, CleanedOnce, MutexHeld, Versioned, ReaderNext, ClientNext, InstallNext, Ready, Enabled,
         ReaderLegal, ClientLegal, InstallLegal, ThreadSafe, SlotMatches;
    EnabledIsReady(s, p);
    match p {
      case ByReader(t, a) =>
        ReaderStepLegal(s, t, a);
        if a.HandOut? {
          HandOutCounted(s, t, a.e);
        } else {
          SlotsFit(s, t);
          ReaderCounted(s, t, a);
        }
        ReaderCleaned(s, t, a);
        ReaderSlotsSafe(s, t, a);
        ReaderMutex(s, t, a);
        ReaderVersioned(s, t, a);
      case ByClient(e, a) =>
        ClientStepLegal(s, e, a);
        ClientCounted(s, e, a);
        ClientCleaned(s, e, a);
        ClientSlotsSafe(s, e, a);
        ClientMutex(s, e, a);
        ClientVersioned(s, e, a);
      case ByInstaller(a) =>
        InstallStepLegal(s, a);
        if a.ScrapeSlot? {
          ScrapeOnce(s, a);
        }
        InstallCounted(s, a);
        InstallCleaned(s, a);
        InstallSlotsSafe(s, a);
        InstallMutex(s, a);
        InstallVersioned(s, a);
    }
  }

  lemma SlotsFit(s: State, t: Tid)
    requires SlotsSafe(s)
    ensures SlotFits(s, t)
  {
    if t in s.pcs {
      assert ThreadSafe(s, t);
    }
  }

  lemma ScrapeOnce(s: State, a: InstallAct)
    requires SlotsSafe(s) && Ready(s, ByInstaller(a)) && a.ScrapeSlot?
    ensures a.t !in s.scraped
  {
  }

  lemma InitInv(s: State)
    requires Init(s)
    ensures Inv(s)
  {
    forall v | v in s.svs ensures Owners(s, v) == {ColumnFamily} && Cleaners(s, v) == {} {
      assert forall o | o in Tokens(s) :: o == ColumnFamily || o == PriorVersion;
    }
  }

  /** A run: enabled steps taken one after another from the initial state. What a
      step on a missing object would do is left open. */
  ghost predicate IsRun(r: seq<State>, ps: seq<Step>) {
    && |r| == |ps| + 1
    && Init(r[0])
    && (forall i | 0 <= i < |ps| :: Enabled(r[i], ps[i]) && (Ready(r[i], ps[i]) ==> r[i + 1] == Next(r[i], ps[i])))
  }

  lemma {:induction false} RunKeepsInv(r: seq<State>, ps: seq<Step>, i: nat)
    requires IsRun(r, ps) && i < |r|
    ensures Inv(r[i])
  {
    hide Inv, Init, Ready, Enabled, Next, Legal;
    if i == 0 {
      InitInv(r[0]);
    } else {
      RunKeepsInv(r, ps, i - 1);
      assert Enabled(r[i - 1], ps[i - 1]);
      StepKeepsInv(r[i - 1], ps[i - 1]);
    }
  }

  /** Reference conservation: in every reachable state each count is exact, a
      SuperVersion that anyone can still reach has not been cleaned up, and a
      dropped one is cleaned up exactly once, by one party. */
  lemma ReferencesConserved(r: seq<State>, ps: seq<Step>, i: nat, v: Sv)
    requires IsRun(r, ps) && i < |r| && v in r[i].svs
    ensures r[i].svs[v].refs == |Owners(r[i], v)|
    ensures r[i].svs[v].cleanups > 0 ==> Owners(r[i], v) == {} && Cleaners(r[i], v) == {}
    ensures r[i].svs[v].refs == 0 <==> r[i].svs[v].cleanups + |Cleaners(r[i], v)| == 1
    ensures r[i].svs[v].cleanups <= 1
  {
    hide SlotsSafe, MutexHeld, Versioned, Init;
    RunKeepsInv(r, ps, i);
  }

  /** Every assertion about references that the code makes holds at every step,
      and no step touches an object that does not exist. */
  lemma EveryStepLegal(r: seq<State>, ps: seq<Step>, i: nat)
    requires IsRun(r, ps) && i < |ps|
    ensures Ready(r[i], ps[i]) && Legal(r[i], ps[i])
  {
    hide Inv, Init, Ready, Enabled, Next, Legal;
    RunKeepsInv(r, ps, i);
    assert Enabled(r[i], ps[i]);
    StepKeepsInv(r[i], ps[i]);
  }

  /** Slot safety: outside an install a slot is in use, obsolete, or caches the
      current SuperVersion; Swap never finds kSVInUse, and a compare-and-swap that
      fails in Return has found kSVObsolete. */
  lemma SlotsStaySafe(r: seq<State>, ps: seq<Step>, i: nat, t: Tid)
    requires IsRun(r, ps) && i < |r| && t in r[i].slots
    ensures r[i].install.NoInstall? && r[i].slots[t].Cached? ==> r[i].slots[t].sv == r[i].current
    ensures t in r[i].pcs
    ensures r[i].pcs[t].Idle? ==> !r[i].slots[t].InUse?
    ensures r[i].pcs[t].Holding? || r[i].pcs[t].Pinning? ==> r[i].slots[t].InUse? || r[i].slots[t].Obsolete?
  {
    hide Counted, CleanedOnce, MutexHeld, Versioned, Init;
    RunKeepsInv(r, ps, i);
    assert ThreadSafe(r[i], t);
  }

  // ---- freshness over a run ------------------------------------------------------------------------

  predicate InGet(pc: Pc) {
    pc.Swapped? || pc.Stale? || pc.WantLock? || pc.Locked? || pc.Holding?
  }

  lemma SinceKept(s: State, p: Step, t: Tid)
    requires Ready(s, p) && p != ByReader(t, Swap)
    requires t in Next(s, p).pcs && InGet(Next(s, p).pcs[t])
    ensures t in s.pcs && InGet(s.pcs[t]) && Next(s, p).pcs[t].since == s.pcs[t].since
  {
    hide ReaderNext, ClientNext, InstallNext, Ready;
    match p {
      case ByReader(u, a) => ReaderSinceKept(s, u, a, t);
      case ByClient(e, a) => ClientLeavesThreads(s, e, a);
      case ByInstaller(a) => InstallLeavesThreads(s, a);
    }
  }

  lemma ClientLeavesThreads(s: State, e: Eid, a: ClientAct)
    requires Ready(s, ByClient(e, a))
    ensures ClientNext(s, e, a).pcs == s.pcs
  {
  }

  lemma InstallLeavesThreads(s: State, a: InstallAct)
    requires Ready(s, ByInstaller(a))
    ensures InstallNext(s, a).pcs == s.pcs
  {
  }

  lemma ReaderSinceKept(s: State, u: Tid, a: ReaderAct, t: Tid)
    requires Ready(s, ByReader(u, a)) && (u != t || !a.Swap?)
    requires t in ReaderNext(s, u, a).pcs && InGet(ReaderNext(s, u, a).pcs[t])
    ensures t in s.pcs && InGet(s.pcs[t]) && ReaderNext(s, u, a).pcs[t].since == s.pcs[t].since
  {
  }

  lemma {:induction false} SinceIsStart(r: seq<State>, ps: seq<Step>, i: nat, j: nat, t: Tid)
    requires IsRun(r, ps) && i < j < |r| && ps[i] == ByReader(t, Swap)
    requires forall m | i < m < j :: ps[m] != ByReader(t, Swap)
    requires t in r[j].pcs && InGet(r[j].pcs[t])
    ensures r[j].pcs[t].since == r[i].number
    decreases j
  {
    hide Init, Ready, Enabled, Legal;
    EveryStepLegal(r, ps, j - 1);
    assert r[j] == Next(r[j - 1], ps[j - 1]);
    if j > i + 1 {
      SinceKept(r[j - 1], ps[j - 1], t);
      SinceIsStart(r, ps, i, j - 1, t);
    }
  }

  lemma VersionsStay(s: State, p: Step, v: Sv)
    requires Versioned(s) && Ready(s, p) && v in s.svs && s.svs[v].version > 0
    ensures v in Next(s, p).svs && Next(s, p).svs[v].version == s.svs[v].version
    ensures s.number <= Next(s, p).number <= s.number + 1
  {
    hide ReaderNext, ClientNext, InstallNext, ThreadFresh, Ready;
    match p {
      case ByReader(t, a) => ReaderVersions(s, t, a, v); ReaderNumber(s, t, a);
      case ByClient(e, a) => ClientVersions(s, e, a, v);
      case ByInstaller(a) =>
        InstallGrows(s, a);
        InstallVersions(s, a, v);
        if a.Bump? {
          BumpIsPublished(s, a);
        }
    }
  }

  lemma ReaderNumber(s: State, t: Tid, a: ReaderAct)
    requires Ready(s, ByReader(t, a))
    ensures ReaderNext(s, t, a).number == s.number
  {
  }

  lemma BumpIsPublished(s: State, a: InstallAct)
    requires Ready(s, ByInstaller(a)) && a.Bump?
    ensures s.install.Published?
  {
  }

  lemma {:induction false} VersionsStayOverRun(r: seq<State>, ps: seq<Step>, k: nat, j: nat, v: Sv)
    requires IsRun(r, ps) && k <= j < |r| && v in r[k].svs && r[k].svs[v].version > 0
    ensures v in r[j].svs && r[j].svs[v].version == r[k].svs[v].version
    decreases j
  {
    hide Init, Ready, Enabled, Legal, Next, Counted, CleanedOnce, SlotsSafe, MutexHeld, Versioned;
    if k < j {
      VersionsStayOverRun(r, ps, k, j - 1, v);
      RunKeepsInv(r, ps, j - 1);
      EveryStepLegal(r, ps, j - 1);
      VersionsStay(r[j - 1], ps[j - 1], v);
    }
  }

  /** The version number passes through every value between two moments. */
  lemma {:induction false} NumberPasses(r: seq<State>, ps: seq<Step>, i: nat, j: nat, n: nat) returns (k: nat)
    requires IsRun(r, ps) && i <= j < |r| && r[i].number <= n <= r[j].number
    ensures i <= k <= j && r[k].number == n
    decreases j
  {
    hide Init, Ready, Enabled, Legal, Next, Counted, CleanedOnce, SlotsSafe, MutexHeld;
    if r[j].number == n {
      k := j;
    } else {
      RunKeepsInv(r, ps, j - 1);
      EveryStepLegal(r, ps, j - 1);
      VersionsStay(r[j - 1], ps[j - 1], Numbered(r[j - 1]));
      k := NumberPasses(r, ps, i, j - 1, n);
    }
  }

  /** Freshness: what a Get returns carried the current version number at some
      moment between the Get's swap and its return. */
  lemma GetWasCurrent(r: seq<State>, ps: seq<Step>, i: nat, j: nat, t: Tid) returns (k: nat)
    requires IsRun(r, ps) && i < j < |r| && ps[i] == ByReader(t, Swap)
    requires forall m | i < m < j :: ps[m] != ByReader(t, Swap)
    requires t in r[j].pcs && r[j].pcs[t].Holding?
    ensures i <= k <= j
    ensures Numbered(r[k]) == r[j].pcs[t].sv
  {
    hide Init, Ready, Enabled, Legal, Next, Counted, CleanedOnce, SlotsSafe, MutexHeld;
    SinceIsStart(r, ps, i, j, t);
    RunKeepsInv(r, ps, j);
    assert ThreadFresh(r[j], t);
    var v := r[j].pcs[t].sv;
    k := NumberPasses(r, ps, i, j, r[j].svs[v].version);
    RunKeepsInv(r, ps, k);
    VersionsStayOverRun(r, ps, k, j, Numbered(r[k]));
  }
}
