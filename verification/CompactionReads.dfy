/** Compaction keeps the meaning of the data: every read at a live snapshot or
    at the tip gives the same answer before and after. */
module CompactionReads {
  import opened Wrappers
  import opened Lsm
  import opened LevelCursors
  import opened CompactionRules

  // ---- snapshot stripes ---------------------------------------------------

  ghost predicate Ascending(ss: seq<nat>) {
    && (forall i, j | 0 <= i < j < |ss| :: ss[i] <= ss[j])
    && (forall i | 0 <= i < |ss| :: ss[i] <= MAX_SEQUENCE)
  }

  /** A live point in time sees n exactly when it is at or above n's stripe. */
  lemma {:induction false} StripeSees(ss: seq<nat>, n: nat, s: nat)
    requires Ascending(ss) && n <= MAX_SEQUENCE && (s in ss || s == MAX_SEQUENCE)
    ensures n <= s <==> Stripe(ss, n) <= s
    ensures n <= Stripe(ss, n)
    ensures ss != [] ==> ss[0] <= Stripe(ss, n)
  {
    if ss != [] && n > ss[0] {
      assert s in ss ==> s == ss[0] || s in ss[1..];
      StripeSees(ss[1..], n, if s in ss[1..] then s else MAX_SEQUENCE);
    }
  }

  lemma {:induction false} StripeMonotone(ss: seq<nat>, m: nat, n: nat)
    requires Ascending(ss) && m <= n <= MAX_SEQUENCE
    ensures Stripe(ss, m) <= Stripe(ss, n)
  {
    if ss != [] {
      StripeSees(ss, n, MAX_SEQUENCE);
      if m > ss[0] {
        StripeMonotone(ss[1..], m, n);
      }
    }
  }

  lemma StripeEarliest(c: Config, n: nat)
    requires n <= MAX_SEQUENCE
    ensures n <= c.Earliest() <==> Stripe(c.snapshots, n) == c.Earliest()
    ensures c.Earliest() <= Stripe(c.snapshots, n)
    ensures n <= c.Earliest() ==> Prev(c.snapshots, n) == 0
  {
    StripeSees(c.snapshots, n, MAX_SEQUENCE);
  }

  /** The peek-ahead test decides whether an older version shares the stripe. */
  lemma {:induction false} PrevDecidesStripe(ss: seq<nat>, m: nat, n: nat)
    requires Ascending(ss) && m <= n <= MAX_SEQUENCE
    requires 0 in ss ==> m > 0
    ensures AfterPrev(Prev(ss, n), m) <==> Stripe(ss, m) == Stripe(ss, n)
  {
    if ss != [] && n > ss[0] {
      StripeSees(ss, n, MAX_SEQUENCE);
      if |ss| > 1 && ss[1] < n {
        PrevDecidesStripe(ss[1..], m, n);
        PrevNotSmall(ss[1..], n);
      }
    }
  }

  lemma {:induction false} PrevNotSmall(ss: seq<nat>, n: nat)
    requires Ascending(ss) && ss != [] && ss[0] < n
    ensures ss[0] <= Prev(ss, n) < n
  {
    if |ss| > 1 && ss[1] < n {
      PrevNotSmall(ss[1..], n);
    }
  }

  /** Above 0, "no previous snapshot" means the stripe just above 0. */
  lemma {:induction false} PrevZero(ss: seq<nat>, n: nat)
    requires Ascending(ss) && 0 < n <= MAX_SEQUENCE
    ensures Prev(ss, n) == 0 <==> Stripe(ss, n) == Stripe(ss, 1)
  {
    if ss != [] && n > ss[0] {
      StripeSees(ss, n, MAX_SEQUENCE);
      PrevNotSmall(ss, n);
      if ss[0] == 0 {
        PrevZero(ss[1..], n);
      }
    }
  }

  lemma ZeroStripe(c: Config)
    requires 0 in c.snapshots
    ensures c.Earliest() == 0 && Stripe(c.snapshots, 0) == 0 && Stripe(c.snapshots, 1) > 0
  {
    StripeSees(c.snapshots, 1, MAX_SEQUENCE);
  }

  // ---- what one turn consumes ---------------------------------------------

  function Taken(rest: seq<Entry>, t: Turn): (n: nat)
    requires |t.next.rest| < |rest|
    ensures 0 < n <= |rest|
  {
    |rest| - |t.next.rest|
  }

  /** A turn consumes versions of one user key and outputs the first, if any;
      afterwards the iterator remembers that key's stripe. */
  ghost predicate Shape(c: Config, rest: seq<Entry>, t: Turn, first: Entry, stripe: nat, prev: nat) {
    && |t.next.rest| < |rest|
    && t.next.rest == rest[Taken(rest, t)..]
    && (forall i | 0 <= i < Taken(rest, t) :: rest[i].key == rest[0].key)
    && (forall i | 0 < i < Taken(rest, t) :: AfterPrev(prev, rest[i].sn))
    && (t.output.Some? ==> t.output.value == first)
    && (if t.next.hasKey then t.next.key == rest[0].key && t.next.stripe == stripe
        else t.next.rest == [] || t.next.rest[0].key != rest[0].key)
    && (t.next.clear ==>
          && t.next.hasKey && t.output.Some? && Taken(rest, t) == 1 && rest[0].sn > c.writeConflict
          && |rest| > 1 && rest[1].key == rest[0].key && AfterPrev(prev, rest[1].sn))
  }

  lemma SingleDeleteShape(c: Config, st: State, prev: nat)
    requires st.rest != [] && st.hasKey && st.key == st.rest[0].key && !st.clear
    ensures Shape(c, st.rest, SingleDeleteTurn(c, st, prev), st.rest[0], st.stripe, prev)
  {
    hide Settings.NotBeyond, Settings.Earliest, Settings.Valid;
  }

  lemma BottomDeleteShape(c: Config, st: State, prev: nat)
    requires st.rest != [] && st.hasKey && st.key == st.rest[0].key && !st.clear
    ensures Shape(c, st.rest, BottomDeleteTurn(st, prev), st.rest[0], st.stripe, prev)
    ensures !BottomDeleteTurn(st, prev).next.clear
  {
    hide Settings.Valid;
  }

  lemma StepShape(c: Config, st: State)
    requires st.rest != []
    ensures var e := st.rest[0];
            Shape(c, st.rest, Step(c, st), if st.clear then e.(value := "") else e,
                  Stripe(c.snapshots, e.sn), Prev(c.snapshots, e.sn))
    ensures Step(c, st).next.clear ==> st.rest[0].kind.SingleDelete? && !st.clear
  {
    hide Settings.NotBeyond, Settings.Bottommost, Settings.Earliest, Settings.Valid, SingleDeleteTurn,
         BottomDeleteTurn, Stripe, Prev;
    if !st.clear {
      SingleDeleteShape(c, Arrive(c, st), Prev(c.snapshots, st.rest[0].sn));
      BottomDeleteShape(c, Arrive(c, st), Prev(c.snapshots, st.rest[0].sn));
    }
  }

  lemma {:induction false} EmitNoKey(c: Config, st: State, k: UserKey)
    requires NoKey(st.rest, k)
    ensures NoKey(Emit(c, st), k)
    decreases |st.rest|
  {
    if st.rest != [] {
      StepShape(c, st);
      EmitNoKey(c, Step(c, st).next, k);
    }
  }

  // ---- the loop invariant -------------------------------------------------

  ghost predicate Inv(c: Config, st: State) {
    && Sorted(st.rest)
    && (forall i | 0 <= i < |st.rest| :: st.rest[i].sn <= MAX_SEQUENCE)
    && (st.hasKey ==> forall i | 0 <= i < |st.rest| ::
          && st.key <= st.rest[i].key
          && (st.rest[i].key == st.key ==> Stripe(c.snapshots, st.rest[i].sn) <= st.stripe))
    && (st.clear ==>
          && st.rest != [] && st.hasKey && st.rest[0].key == st.key && st.stripe > c.Earliest()
          && (Stripe(c.snapshots, st.rest[0].sn) == st.stripe || AcrossZero(c, st.rest[0], st.stripe)))
  }

  /** 0 also means "no snapshot", so a record at 0 passes for one of the stripe just above
      a snapshot at 0. */
  predicate AcrossZero(c: Config, e: Entry, stripe: nat) {
    0 in c.snapshots && e.sn == 0 && stripe == Stripe(c.snapshots, 1)
  }

  /** The peek-ahead test decides whether an older version shares the stripe, except
      across 0. */
  lemma PeekDecidesStripe(c: Config, e: Entry, older: Entry)
    requires older.sn < e.sn <= MAX_SEQUENCE
    ensures var stripe := Stripe(c.snapshots, e.sn);
            AfterPrev(Prev(c.snapshots, e.sn), older.sn) <==>
              Stripe(c.snapshots, older.sn) == stripe || AcrossZero(c, older, stripe)
  {
    if 0 in c.snapshots && older.sn == 0 {
      ZeroStripe(c);
      PrevZero(c.snapshots, e.sn);
      StripeSees(c.snapshots, e.sn, MAX_SEQUENCE);
    } else {
      PrevDecidesStripe(c.snapshots, older.sn, e.sn);
    }
  }

  lemma InvStep(c: Config, st: State)
    requires Inv(c, st) && st.rest != [] && c.Earliest() <= c.writeConflict
    ensures Inv(c, Step(c, st).next)
  {
    hide Step, Stripe, Prev, Settings.Earliest;
    StepShape(c, st);
    var e := st.rest[0];
    var next := Step(c, st).next;
    forall i | 0 <= i < |next.rest| && next.rest[i].key == e.key
      ensures Stripe(c.snapshots, next.rest[i].sn) <= Stripe(c.snapshots, e.sn)
    {
      StripeMonotone(c.snapshots, next.rest[i].sn, e.sn);
    }
    if next.clear {
      PeekDecidesStripe(c, e, st.rest[1]);
      StripeEarliest(c, e.sn);
    }
  }

  /** In the earliest stripe every further version of a decided key is dropped. */
  lemma QuietStep(c: Config, st: State)
    requires Inv(c, st) && c.Earliest() <= c.writeConflict && st.rest != []
    requires st.hasKey && !st.clear && st.stripe == c.Earliest() && c.NotBeyond(st.key)
    requires st.rest[0].key == st.key
    ensures var t := Step(c, st);
            && t.output.None? && !t.next.clear
            && if t.next.hasKey then t.next.key == st.key && t.next.stripe == c.Earliest()
               else NoKey(t.next.rest, st.key)
  {
    hide Stripe, Prev, Settings.NotBeyond, Settings.Valid, Settings.Bottommost, SkipStripe;
    StripeEarliest(c, st.rest[0].sn);
  }

  /** Once a key has been decided in the earliest stripe and nothing older lies
      beyond, no further version of it comes out. */
  lemma {:induction false} QuietTail(c: Config, st: State)
    requires Inv(c, st) && c.Earliest() <= c.writeConflict
    requires st.hasKey && !st.clear && st.stripe == c.Earliest() && c.NotBeyond(st.key)
    ensures NoKey(Emit(c, st), st.key)
    decreases |st.rest|
  {
    hide Step, Settings.NotBeyond, Settings.Valid;
    if st.rest != [] {
      var next := Step(c, st).next;
      if st.rest[0].key != st.key {
        EmitNoKey(c, st, st.key);
      } else {
        QuietStep(c, st);
        InvStep(c, st);
        if next.hasKey {
          QuietTail(c, next);
        } else {
          EmitNoKey(c, next, st.key);
        }
      }
    }
  }

  // ---- reads --------------------------------------------------------------

  lemma ReadCons(x: Entry, es: seq<Entry>, b: seq<Entry>, k: UserKey, s: nat)
    ensures Read([x] + es, b, k, s) ==
            if x.key == k && x.sn <= s then Answer(Some(x)) else Read(es, b, k, s)
  {
    assert ([x] + es)[1..] == es;
  }

  lemma ReadSkip(es: seq<Entry>, n: nat, b: seq<Entry>, k: UserKey, s: nat)
    requires n <= |es| && forall i | 0 <= i < n :: es[i].key != k || es[i].sn > s
    ensures Read(es, b, k, s) == Read(es[n..], b, k, s)
  {
    LookSkip(es, n, k, s);
  }

  lemma ReadNothing(es: seq<Entry>, b: seq<Entry>, k: UserKey, s: nat)
    requires NoKey(es, k) && NoKey(b, k)
    ensures Read(es, b, k, s) == None
  {
    LookNoKey(es, k, s);
    LookNoKey(b, k, s);
  }

  /** A history whose newest visible record is a SingleDelete reads as absent. */
  lemma ReadAbsent(es: seq<Entry>, b: seq<Entry>, k: UserKey, s: nat)
    requires var h := History(es + b, k);
             h == [] || (h[0].kind.SingleDelete? && h[0].key == k && h[0].sn <= s)
    ensures Read(es, b, k, s) == None
  {
    LookConcat(es, b, k, s);
    LookHistory(es + b, k, s);
  }

  lemma {:induction false} HistorySuffix(rest: seq<Entry>, n: nat, b: seq<Entry>, k: UserKey)
    requires n <= |rest| && forall i | 0 <= i < n :: rest[i].key == k
    ensures History(rest + b, k) == rest[..n] + History(rest[n..] + b, k)
    decreases n
  {
    if n == 0 {
      assert rest[0..] == rest;
    } else {
      HistorySuffix(rest[1..], n - 1, b, k);
      assert (rest + b)[1..] == rest[1..] + b;
      assert rest[1..][n - 1..] == rest[n..];
      assert rest[..n] == [rest[0]] + rest[1..][..n - 1];
    }
  }

  lemma {:induction false} HistoryPass(rest: seq<Entry>, n: nat, b: seq<Entry>, k: UserKey)
    requires n <= |rest| && forall i | 0 <= i < n :: rest[i].key != k
    ensures History(rest + b, k) == History(rest[n..] + b, k)
    decreases n
  {
    if n == 0 {
      assert rest[0..] == rest;
    } else {
      HistoryPass(rest[1..], n - 1, b, k);
      assert (rest + b)[1..] == rest[1..] + b;
      assert rest[1..][n - 1..] == rest[n..];
    }
  }

  /** How a key may be written: with Puts and Deletes, or with Puts and
      SingleDeletes taking turns (alt). */
  ghost predicate KeyUse(h: seq<Entry>, alt: bool) {
    && Descending(h)
    && (if alt then Alternates(h) else NoSingleDelete(h))
  }

  ghost predicate HasKey(es: seq<Entry>, k: UserKey) {
    exists i | 0 <= i < |es| :: es[i].key == k
  }

  /** Everything the read theorem assumes about key k at a loop state. */
  ghost predicate Ready(c: Config, st: State, b: seq<Entry>, k: UserKey, alt: bool) {
    && Inv(c, st)
    && c.Earliest() <= c.writeConflict
    && KeyUse(History(st.rest + b, k), alt)
    && (HasKey(st.rest, k) && c.NotBeyond(k) ==> NoKey(b, k))
    && (alt && st.hasKey && st.key == k && !st.clear && st.rest != [] && st.rest[0].key == k && st.rest[0].kind.Put? ==>
          Stripe(c.snapshots, st.rest[0].sn) < st.stripe)
    && (st.clear && st.key == k ==> alt && st.rest[0].kind.Put?)
  }

  /** Reads already decided by records that have gone by. */
  predicate Covered(st: State, k: UserKey, s: nat, alt: bool) {
    st.hasKey && st.key == k && s >= st.stripe && (st.clear || !alt)
  }

  lemma EmitUnfold(c: Config, st: State)
    requires st.rest != []
    ensures var t := Step(c, st);
            Emit(c, st) == if t.output.Some? then [Prepare(c, t.output.value)] + Emit(c, t.next) else Emit(c, t.next)
  {
  }

  /** All the versions a turn consumes belong to one stripe, except across 0. */
  lemma StepStripe(c: Config, st: State)
    requires Inv(c, st) && st.rest != []
    ensures var t := Step(c, st);
            var stripe := Stripe(c.snapshots, st.rest[0].sn);
            forall i | 0 <= i < Taken(st.rest, t) ::
              Stripe(c.snapshots, st.rest[i].sn) == stripe || (i > 0 && AcrossZero(c, st.rest[i], stripe))
  {
    hide Step, Stripe, Prev;
    StepShape(c, st);
    var t := Step(c, st);
    forall i | 0 < i < Taken(st.rest, t)
      ensures var stripe := Stripe(c.snapshots, st.rest[0].sn);
              Stripe(c.snapshots, st.rest[i].sn) == stripe || AcrossZero(c, st.rest[i], stripe)
    {
      PeekDecidesStripe(c, st.rest[0], st.rest[i]);
    }
  }

  /** What a read above 0 cannot see of a turn's first version, it cannot see of the rest. */
  lemma StepUnseen(c: Config, st: State, s: nat)
    requires Inv(c, st) && st.rest != [] && c.Live(s) && (0 in c.snapshots ==> s > 0) && st.rest[0].sn > s
    ensures forall i | 0 <= i < Taken(st.rest, Step(c, st)) :: st.rest[i].sn > s
  {
    hide Step, Stripe, Prev;
    StepStripe(c, st);
    StripeSees(c.snapshots, st.rest[0].sn, s);
    StripeSees(c.snapshots, 1, s);
    forall i | 0 <= i < Taken(st.rest, Step(c, st)) ensures st.rest[i].sn > s {
      StripeSees(c.snapshots, st.rest[i].sn, s);
    }
  }

  // ---- records at sequence number 0 -----------------------------------------

  predicate ZeroPut(e: Entry, k: UserKey) {
    e.key == k && e.sn == 0 && e.kind.Put?
  }

  /** With a snapshot at 0, the run outputs k's Put at 0, if there is one, as it is. */
  ghost predicate ZeroKept(c: Config, st: State, k: UserKey)
    decreases |st.rest|
  {
    0 in c.snapshots && st.rest != [] ==>
      var t := Step(c, st);
      && (forall i | 0 <= i < Taken(st.rest, t) && ZeroPut(st.rest[i], k) :: t.output == Some(st.rest[i]))
      && ZeroKept(c, t.next, k)
  }

  lemma ZeroEnds(h: seq<Entry>, j: nat)
    requires Descending(h) && j < |h| && h[j].sn == 0
    ensures j == |h| - 1
  {
    var last := |h| - 1;
    assert j < last ==> h[j].sn > h[last].sn;
  }

  /** A version at 0 is the last of its key. */
  lemma ZeroIsLast(c: Config, st: State, b: seq<Entry>, k: UserKey, alt: bool, i: nat)
    requires Ready(c, st, b, k, alt) && i < |st.rest| && st.rest[i].key == k && st.rest[i].sn == 0
    ensures NoKey(st.rest[i + 1..], k) && NoKey(b, k)
  {
    HistoryConcat(st.rest, b, k);
    HistoryIn(st.rest, k, i);
    var h, g := History(st.rest, k), History(b, k);
    var j :| 0 <= j < |h| && h[j] == st.rest[i];
    assert (h + g)[j] == h[j];
    ZeroEnds(h + g, j);
    HistoryNoKey(b, k);
  }

  /** Why a SingleDelete may be dropped: a second one follows, its Put goes with
      it, or nothing older is left. */
  ghost predicate SingleDeleteGone(c: Config, rest: seq<Entry>, n: nat) {
    && 0 < n <= |rest|
    && (|| (n == 1 && |rest| > 1 && rest[1].key == rest[0].key && rest[1].kind.SingleDelete?)
        || (n == 2 && rest[1].key == rest[0].key && !rest[1].kind.SingleDelete?)
        || (n == 1 && NoKey(rest[1..], rest[0].key) && c.NotBeyond(rest[0].key)))
  }

  lemma SingleDeleteDropped(c: Config, st: State, prev: nat)
    requires Sorted(st.rest) && st.rest != []
    requires SingleDeleteTurn(c, st, prev).output.None?
    ensures SingleDeleteGone(c, st.rest, Taken(st.rest, SingleDeleteTurn(c, st, prev)))
    ensures SingleDeleteTurn(c, st, prev).next.clear == st.clear
  {
    hide Settings.NotBeyond, Settings.Earliest, Settings.Valid;
  }

  /** Why a Put or Delete may be dropped: hidden by a newer version in its
      stripe, or a Delete with nothing left to hide. */
  ghost predicate VersionGone(c: Config, st: State, next: State)
    requires st.rest != []
  {
    var e := st.rest[0];
    || LastStripe(st) == Stripe(c.snapshots, e.sn)
    || (e.kind.Delete? && c.NotBeyond(e.key) && ((e.sn <= c.Earliest() && next.hasKey) || NoKey(next.rest, e.key)))
  }

  lemma BottomDeleteDropped(st: State, prev: nat)
    requires Sorted(st.rest) && st.rest != []
    requires BottomDeleteTurn(st, prev).output.None?
    ensures NoKey(BottomDeleteTurn(st, prev).next.rest, st.rest[0].key)
    ensures BottomDeleteTurn(st, prev).next.clear == st.clear
  {
  }

  lemma WhyDropped(c: Config, st: State)
    requires Sorted(st.rest) && st.rest != [] && Step(c, st).output.None?
    ensures var t := Step(c, st);
            && !st.clear && !t.next.clear
            && if st.rest[0].kind.SingleDelete? then SingleDeleteGone(c, st.rest, Taken(st.rest, t))
               else VersionGone(c, st, t.next)
  {
    hide Stripe, Prev, Settings.Valid, Settings.Earliest, SingleDeleteTurn, BottomDeleteTurn;
    var at := Arrive(c, st);
    var prev := Prev(c.snapshots, st.rest[0].sn);
    if st.rest[0].kind.SingleDelete? {
      SingleDeleteDropped(c, at, prev);
    } else if BottomDeleteTurn(at, prev).output.None? {
      BottomDeleteDropped(at, prev);
    }
  }

  lemma KeyUseSuffix(newer: seq<Entry>, h: seq<Entry>, alt: bool)
    requires KeyUse(newer + h, alt)
    ensures KeyUse(h, alt)
  {
    var n := |newer|;
    assert forall i | 0 <= i < |h| :: h[i] == (newer + h)[n + i];
    forall i | 0 < i < |h| ensures alt ==> h[i - 1].kind != h[i].kind {
      assert h[i] == (newer + h)[n + i] && h[i - 1] == (newer + h)[n + i - 1];
    }
  }

  lemma ReadyStep(c: Config, st: State, b: seq<Entry>, k: UserKey, alt: bool)
    requires Ready(c, st, b, k, alt) && st.rest != []
    ensures Ready(c, Step(c, st).next, b, k, alt)
  {
    hide Step, Settings.NotBeyond, Stripe, Prev, Settings.Earliest;
    InvStep(c, st);
    StepShape(c, st);
    var t := Step(c, st);
    var n := Taken(st.rest, t);
    if HasKey(t.next.rest, k) {
      var i :| 0 <= i < |t.next.rest| && t.next.rest[i].key == k;
      assert st.rest[n + i].key == k;
    }
    if st.rest[0].key == k {
      HistorySuffix(st.rest, n, b, k);
      KeyUseSuffix(st.rest[..n], History(t.next.rest + b, k), alt);
      if alt {
        AltReadyStep(c, st, b, k);
      } else if t.next.clear {
        NewestUse(c, st, b, k, alt);
      }
    } else {
      HistoryPass(st.rest, n, b, k);
    }
  }

  lemma AltReadyStep(c: Config, st: State, b: seq<Entry>, k: UserKey)
    requires Ready(c, st, b, k, true) && st.rest != [] && st.rest[0].key == k
    ensures var next := Step(c, st).next;
            && (next.clear ==> next.rest[0].kind.Put?)
            && (next.hasKey && !next.clear && next.rest != [] && next.rest[0].key == k && next.rest[0].kind.Put? ==>
                  Stripe(c.snapshots, next.rest[0].sn) < next.stripe)
  {
    hide Stripe, Prev, Settings.NotBeyond, Settings.Earliest, Settings.Bottommost, BottomDeleteTurn;
    var t := Step(c, st);
    var n := Taken(st.rest, t);
    StepShape(c, st);
    if n < |st.rest| && st.rest[n].key == k {
      HistorySuffix(st.rest, n + 1, b, k);
      var h := History(st.rest + b, k);
      assert h[n] == st.rest[n] && h[n - 1] == st.rest[n - 1] && h[0] == st.rest[0];
      PeekDecidesStripe(c, st.rest[0], st.rest[n]);
      StripeMonotone(c.snapshots, st.rest[n].sn, st.rest[0].sn);
    }
  }

  // ---- one turn keeps the reads it has not yet decided ----------------------

  /** A turn that outputs its record. */
  lemma OutputKeepsRead(c: Config, st: State, b: seq<Entry>, k: UserKey, s: nat, alt: bool)
    requires Ready(c, st, b, k, alt) && c.Live(s) && !Covered(st, k, s, alt) && (0 in c.snapshots ==> s > 0)
    requires st.rest != [] && st.rest[0].key == k && Step(c, st).output.Some?
    requires var next := Step(c, st).next;
             !Covered(next, k, s, alt) ==> Read(Emit(c, next), b, k, s) == Read(next.rest, b, k, s)
    ensures Read(Emit(c, st), b, k, s) == Read(st.rest, b, k, s)
  {
    hide Step, Emit, Stripe, Prev, Settings.NotBeyond, Settings.Bottommost;
    var e := st.rest[0];
    var t := Step(c, st);
    var n := Taken(st.rest, t);
    EmitUnfold(c, st);
    StepShape(c, st);
    StripeSees(c.snapshots, e.sn, s);
    StripeEarliest(c, e.sn);
    EarliestIsLeast(c, s);
    ReadCons(Prepare(c, t.output.value), Emit(c, t.next), b, k, s);
    if e.sn > s {
      StepUnseen(c, st, s);
      ReadSkip(st.rest, n, b, k, s);
    } else if st.clear {
      StripeSees(c.snapshots, 1, s);
    }
  }

  lemma EarliestIsLeast(c: Config, s: nat)
    requires c.Live(s)
    ensures c.Earliest() <= s
  {
  }

  /** A turn that drops versions the read cannot see anyway. */
  lemma UnseenDropKeepsRead(c: Config, st: State, b: seq<Entry>, k: UserKey, s: nat, alt: bool)
    requires Ready(c, st, b, k, alt) && c.Live(s) && !Covered(st, k, s, alt) && (0 in c.snapshots ==> s > 0)
    requires st.rest != [] && st.rest[0].key == k && Step(c, st).output.None? && st.rest[0].sn > s
    requires var next := Step(c, st).next;
             !Covered(next, k, s, alt) ==> Read(Emit(c, next), b, k, s) == Read(next.rest, b, k, s)
    ensures Read(Emit(c, st), b, k, s) == Read(st.rest, b, k, s)
  {
    hide Step, Emit, Stripe, Prev, Settings.NotBeyond, Settings.Bottommost;
    var t := Step(c, st);
    var n := Taken(st.rest, t);
    EmitUnfold(c, st);
    StepShape(c, st);
    StripeSees(c.snapshots, st.rest[0].sn, s);
    StepUnseen(c, st, s);
    ReadSkip(st.rest, n, b, k, s);
  }

  /** A visible Put or Delete is only dropped when the answer is absent anyway. */
  lemma VersionDropKeepsRead(c: Config, st: State, b: seq<Entry>, k: UserKey, s: nat, alt: bool)
    requires Ready(c, st, b, k, alt) && c.Live(s) && !Covered(st, k, s, alt)
    requires st.rest != [] && st.rest[0].key == k && Step(c, st).output.None? && st.rest[0].sn <= s
    requires !st.rest[0].kind.SingleDelete? && (0 in c.snapshots ==> st.rest[0].sn > 0)
    ensures Read(Emit(c, st), b, k, s) == Read(st.rest, b, k, s)
  {
    hide Step, Emit, Stripe, Prev, Settings.NotBeyond, Settings.Bottommost;
    var e := st.rest[0];
    var next := Step(c, st).next;
    EmitUnfold(c, st);
    StepShape(c, st);
    WhyDropped(c, st);
    StripeSees(c.snapshots, e.sn, s);
    StripeEarliest(c, e.sn);
    HistorySuffix(st.rest, 1, b, k);
    NotHidden(c, st, b, k, s, alt);
    assert HasKey(st.rest, k);
    if next.hasKey && e.sn <= c.Earliest() {
      InvStep(c, st);
      QuietTail(c, next);
    } else {
      EmitNoKey(c, next, k);
    }
    ReadNothing(Emit(c, next), b, k, s);
  }

  /** A version at 0 that is dropped under a snapshot at 0 is a Delete, and nothing is
      underneath. */
  lemma ZeroDropKeepsRead(c: Config, st: State, b: seq<Entry>, k: UserKey, s: nat, alt: bool)
    requires Ready(c, st, b, k, alt) && ZeroKept(c, st, k) && 0 in c.snapshots
    requires st.rest != [] && st.rest[0].key == k && Step(c, st).output.None? && st.rest[0].sn == 0
    requires !st.rest[0].kind.SingleDelete?
    ensures Read(Emit(c, st), b, k, s) == Read(st.rest, b, k, s)
  {
    hide Step, Emit, Settings.NotBeyond, Settings.Bottommost;
    var next := Step(c, st).next;
    EmitUnfold(c, st);
    StepShape(c, st);
    ZeroIsLast(c, st, b, k, alt, 0);
    assert !ZeroPut(st.rest[0], k);
    EmitNoKey(c, next, k);
    ReadNothing(Emit(c, next), b, k, s);
  }

  /** An undecided visible version is not hidden by a newer one. */
  lemma NotHidden(c: Config, st: State, b: seq<Entry>, k: UserKey, s: nat, alt: bool)
    requires Ready(c, st, b, k, alt) && c.Live(s) && !Covered(st, k, s, alt)
    requires st.rest != [] && st.rest[0].key == k && st.rest[0].sn <= s && !st.rest[0].kind.SingleDelete?
    requires !st.clear && (0 in c.snapshots ==> st.rest[0].sn > 0)
    ensures LastStripe(st) != Stripe(c.snapshots, st.rest[0].sn)
    ensures alt ==> st.rest[0].kind.Put?
  {
    var e := st.rest[0];
    StripeSees(c.snapshots, e.sn, s);
    StripeListed(c.snapshots, e.sn);
    HistorySuffix(st.rest, 1, b, k);
    assert History(st.rest + b, k)[0] == e;
  }

  lemma {:induction false} StripeListed(ss: seq<nat>, n: nat)
    ensures Stripe(ss, n) in ss || Stripe(ss, n) == MAX_SEQUENCE
  {
    if ss != [] && n > ss[0] {
      StripeListed(ss[1..], n);
    }
  }

  /** A visible SingleDelete is only dropped when what is left reads as absent. */
  lemma SingleDeleteDropKeepsRead(c: Config, st: State, b: seq<Entry>, k: UserKey, s: nat)
    requires Ready(c, st, b, k, true) && c.Live(s) && !Covered(st, k, s, true)
    requires st.rest != [] && st.rest[0].key == k && Step(c, st).output.None? && st.rest[0].sn <= s
    requires st.rest[0].kind.SingleDelete?
    requires var next := Step(c, st).next;
             !Covered(next, k, s, true) ==> Read(Emit(c, next), b, k, s) == Read(next.rest, b, k, s)
    ensures Read(Emit(c, st), b, k, s) == Read(st.rest, b, k, s)
  {
    hide Step, Emit, Stripe, Prev, Settings.NotBeyond, Settings.Bottommost;
    var t := Step(c, st);
    var n := Taken(st.rest, t);
    EmitUnfold(c, st);
    StepShape(c, st);
    WhyDropped(c, st);
    HistorySuffix(st.rest, n, b, k);
    HistoryConcat(t.next.rest, b, k);
    HistoryNoKey(t.next.rest, k);
    HistoryNoKey(b, k);
    HistoryKeys(t.next.rest + b, k);
    var h := History(st.rest + b, k);
    var g := History(t.next.rest + b, k);
    assert HasKey(st.rest, k);
    assert h == st.rest[..n] + g;
    assert h[0] == st.rest[0];
    if g != [] {
      assert h[n] == g[0] && h[n - 1] == st.rest[n - 1];
    }
    ReadAbsent(t.next.rest, b, k, s);
  }

  lemma {:induction false} HistoryKeys(es: seq<Entry>, k: UserKey)
    ensures forall i | 0 <= i < |History(es, k)| :: History(es, k)[i].key == k
  {
    if es != [] {
      HistoryKeys(es[1..], k);
    }
  }

  lemma OtherKeyKeepsRead(c: Config, st: State, b: seq<Entry>, k: UserKey, s: nat)
    requires st.rest != [] && st.rest[0].key != k
    requires var next := Step(c, st).next;
             Read(Emit(c, next), b, k, s) == Read(next.rest, b, k, s)
    ensures Read(Emit(c, st), b, k, s) == Read(st.rest, b, k, s)
  {
    hide Step, Emit, Settings.NotBeyond, Settings.Bottommost;
    var t := Step(c, st);
    EmitUnfold(c, st);
    StepShape(c, st);
    ReadSkip(st.rest, Taken(st.rest, t), b, k, s);
    if t.output.Some? {
      ReadCons(Prepare(c, t.output.value), Emit(c, t.next), b, k, s);
    }
  }

  lemma {:induction false} LookFinds(es: seq<Entry>, k: UserKey, s: nat)
    ensures var o := Look(es, k, s);
            if o.Some? then o.value in es && o.value.key == k && o.value.sn <= s
            else forall i | 0 <= i < |es| && es[i].key == k :: es[i].sn > s
  {
    if es != [] {
      LookFinds(es[1..], k, s);
      assert forall i | 0 < i < |es| :: es[i] == es[1..][i - 1];
    }
  }

  /** What the output shows at 0 was at 0 before. */
  lemma ZeroOutputFrom(c: Config, st: State, k: UserKey, x: Entry)
    requires 0 in c.snapshots && x in Emit(c, st) && x.key == k && x.sn == 0
    ensures exists i :: 0 <= i < |st.rest| && st.rest[i].key == k && st.rest[i].sn == 0 && st.rest[i].kind == x.kind
  {
    ZeroStripe(c);
    var j :| 0 <= j < |Emit(c, st)| && Emit(c, st)[j] == x;
    EmitFrom(c, st, j);
  }

  lemma {:induction false} KeptIsOutput(c: Config, st: State, k: UserKey, i: nat)
    requires 0 in c.snapshots && ZeroKept(c, st, k) && i < |st.rest| && ZeroPut(st.rest[i], k)
    ensures st.rest[i] in Emit(c, st)
    decreases |st.rest|
  {
    hide Step, Settings.NotBeyond;
    EmitUnfold(c, st);
    StepShape(c, st);
    var t := Step(c, st);
    var n := Taken(st.rest, t);
    if i < n {
      assert Prepare(c, st.rest[i]) == st.rest[i];
      assert Emit(c, st)[0] == st.rest[i];
    } else {
      assert t.next.rest[i - n] == st.rest[i];
      KeptIsOutput(c, t.next, k, i - n);
    }
  }

  lemma SortedZeroIsOne(es: seq<Entry>, k: UserKey, x: Entry, y: Entry)
    requires Sorted(es) && x in es && y in es && x.key == y.key == k && x.sn == y.sn
    ensures x == y
  {
  }

  /** Reads at a snapshot at 0, when k's Put at 0 comes through. */
  lemma EmitKeepsZeroRead(c: Config, st: State, b: seq<Entry>, k: UserKey, alt: bool)
    requires Ready(c, st, b, k, alt) && 0 in c.snapshots && ZeroKept(c, st, k)
    ensures Read(Emit(c, st), b, k, 0) == Read(st.rest, b, k, 0)
  {
    hide Step, Emit, Ready, ZeroKept;
    ReadyIsInv(c, st, b, k, alt);
    var out := Emit(c, st);
    var x, y := Look(st.rest, k, 0), Look(out, k, 0);
    LookFinds(st.rest, k, 0);
    LookFinds(out, k, 0);
    EmitSorted(c, st);
    if y.Some? {
      ZeroOutputFrom(c, st, k, y.value);
    }
    if x.Some? {
      var i :| 0 <= i < |st.rest| && st.rest[i] == x.value;
      ZeroIsLast(c, st, b, k, alt, i);
      LookNoKey(b, k, 0);
      if ZeroPut(x.value, k) {
        KeptIsOutput(c, st, k, i);
        SortedZeroIsOne(out, k, x.value, y.value);
      } else if y.Some? {
        ZeroOutputKind(c, st, k, x.value, y.value);
      }
    }
  }

  lemma ZeroOutputKind(c: Config, st: State, k: UserKey, x: Entry, y: Entry)
    requires Inv(c, st) && 0 in c.snapshots
    requires x in st.rest && x.key == k && x.sn == 0 && y in Emit(c, st) && y.key == k && y.sn == 0
    ensures x.kind == y.kind
  {
    hide Step, Emit;
    ZeroOutputFrom(c, st, k, y);
    var i :| 0 <= i < |st.rest| && st.rest[i].key == k && st.rest[i].sn == 0 && st.rest[i].kind == y.kind;
    SortedZeroIsOne(st.rest, k, x, st.rest[i]);
  }

  lemma ReadyIsInv(c: Config, st: State, b: seq<Entry>, k: UserKey, alt: bool)
    requires Ready(c, st, b, k, alt)
    ensures Inv(c, st) && c.Earliest() <= c.writeConflict
  {
  }

  /** From any loop state on, the output answers every undecided read as the
      remaining input would, if k's Put at 0 comes through. */
  lemma {:induction false} EmitKeepsReads(c: Config, st: State, b: seq<Entry>, k: UserKey, s: nat, alt: bool)
    requires Ready(c, st, b, k, alt) && c.Live(s) && !Covered(st, k, s, alt) && ZeroKept(c, st, k)
    ensures Read(Emit(c, st), b, k, s) == Read(st.rest, b, k, s)
    decreases |st.rest|
  {
    hide Step, Ready, Read;
    if 0 in c.snapshots && s == 0 {
      EmitKeepsZeroRead(c, st, b, k, alt);
    } else if st.rest != [] {
      var next := Step(c, st).next;
      ReadyStep(c, st, b, k, alt);
      if !Covered(next, k, s, alt) {
        ZeroKeptStep(c, st, k);
        EmitKeepsReads(c, next, b, k, s, alt);
      }
      if st.rest[0].key != k {
        StepShape(c, st);
        OtherKeyKeepsRead(c, st, b, k, s);
      } else if Step(c, st).output.Some? {
        OutputKeepsRead(c, st, b, k, s, alt);
      } else if st.rest[0].sn > s {
        UnseenDropKeepsRead(c, st, b, k, s, alt);
      } else if st.rest[0].kind.SingleDelete? {
        NewestUse(c, st, b, k, alt);
        SingleDeleteDropKeepsRead(c, st, b, k, s);
      } else if 0 in c.snapshots && st.rest[0].sn == 0 {
        ZeroDropKeepsRead(c, st, b, k, s, alt);
      } else {
        VersionDropKeepsRead(c, st, b, k, s, alt);
      }
    }
  }

  lemma ZeroKeptStep(c: Config, st: State, k: UserKey)
    requires ZeroKept(c, st, k) && st.rest != []
    ensures ZeroKept(c, Step(c, st).next, k)
  {
  }

  lemma NewestUse(c: Config, st: State, b: seq<Entry>, k: UserKey, alt: bool)
    requires Ready(c, st, b, k, alt) && st.rest != [] && st.rest[0].key == k && st.rest[0].kind.SingleDelete?
    ensures alt
  {
    HistorySuffix(st.rest, 1, b, k);
    assert History(st.rest + b, k)[0] == st.rest[0];
  }

  // ---- the theorems ---------------------------------------------------------

  /** A compaction (or flush) over input, with the older data b underneath. */
  ghost predicate Job(c: Config, input: seq<Entry>, b: seq<Entry>) {
    && Sorted(input)
    && (forall i | 0 <= i < |input| :: input[i].sn <= MAX_SEQUENCE)
    && c.Earliest() <= c.writeConflict
    && (c.compaction.Some? ==>
          && b == c.compaction.value.Below()
          && (forall i | 0 <= i < |input| ::
               c.compaction.value.smallestUserKey <= input[i].key <= c.compaction.value.largestUserKey))
  }

  lemma StartReady(c: Config, input: seq<Entry>, b: seq<Entry>, k: UserKey, alt: bool)
    requires Job(c, input, b) && KeyUse(History(input + b, k), alt)
    ensures Ready(c, Start(input), b, k, alt)
  {
    if HasKey(input, k) && c.NotBeyond(k) {
      NotBeyondIsSafe(c.compaction.value, k);
    }
  }

  /** Every output record stands for an input record; a squashed sequence number
      means there is nothing underneath. */
  lemma {:induction false} EmitFrom(c: Config, st: State, j: nat)
    requires j < |Emit(c, st)|
    ensures exists i :: 0 <= i < |st.rest| && StandsFor(c, Emit(c, st)[j], st.rest[i])
    decreases |st.rest|
  {
    hide Step, Settings.NotBeyond;
    EmitUnfold(c, st);
    StepShape(c, st);
    var t := Step(c, st);
    var n := Taken(st.rest, t);
    if t.output.Some? && j == 0 {
      assert StandsFor(c, Emit(c, st)[j], st.rest[0]);
    } else {
      var j' := if t.output.Some? then j - 1 else j;
      EmitFrom(c, t.next, j');
      var i :| 0 <= i < |t.next.rest| && StandsFor(c, Emit(c, t.next)[j'], t.next.rest[i]);
      assert StandsFor(c, Emit(c, st)[j], st.rest[n + i]);
    }
  }

  ghost predicate StandsFor(c: Config, x: Entry, e: Entry) {
    && x.key == e.key && x.kind == e.kind
    && (x.sn == e.sn || (x.sn == 0 && c.Bottommost() && e.sn <= c.Earliest()))
  }

  /** No version of a key follows the one whose sequence number was squashed. */
  lemma SquashedIsLast(c: Config, st: State)
    requires Inv(c, st) && c.Earliest() <= c.writeConflict && st.rest != []
    requires var o := Step(c, st).output; o.Some? && c.ZeroEligible(o.value)
    ensures NoKey(Emit(c, Step(c, st).next), st.rest[0].key)
  {
    hide Step, Emit, Stripe, Prev;
    StepShape(c, st);
    InvStep(c, st);
    StripeEarliest(c, st.rest[0].sn);
    var next := Step(c, st).next;
    if next.hasKey {
      QuietTail(c, next);
    } else {
      EmitNoKey(c, next, st.rest[0].key);
    }
  }

  lemma {:induction false} EmitSorted(c: Config, st: State)
    requires Inv(c, st) && c.Earliest() <= c.writeConflict
    ensures Sorted(Emit(c, st))
    decreases |st.rest|
  {
    hide Step, Settings.NotBeyond, Settings.Bottommost, Stripe, Prev;
    if st.rest != [] {
      var t := Step(c, st);
      EmitUnfold(c, st);
      StepShape(c, st);
      InvStep(c, st);
      EmitSorted(c, t.next);
      if t.output.Some? {
        if c.ZeroEligible(t.output.value) {
          SquashedIsLast(c, st);
        }
        var tail := Emit(c, t.next);
        forall j | 0 <= j < |tail| ensures Before(Prepare(c, t.output.value), tail[j]) {
          EmitFrom(c, t.next, j);
        }
      }
    }
  }

  /** The output is strictly sorted in internal-key order. */
  lemma CompactionOutputSorted(c: Config, input: seq<Entry>, b: seq<Entry>)
    requires Job(c, input, b)
    ensures Sorted(Compacted(c, input))
  {
    EmitSorted(c, Start(input));
  }

  // ---- what survives can be compacted again ---------------------------------

  /** The surviving history starts with the same kind of record, if it starts at
      all. */
  ghost predicate SameTurn(before: seq<Entry>, after: seq<Entry>) {
    && (before == [] ==> after == [])
    && (before != [] && after != [] ==> before[0].kind == after[0].kind)
  }

  lemma AlternatesCons(e: Entry, h: seq<Entry>)
    requires Alternates(h) && !e.kind.Delete? && (h != [] ==> h[0].kind != e.kind)
    ensures Alternates([e] + h)
  {
    var g := [e] + h;
    forall i | 0 < i < |g| ensures g[i - 1].kind != g[i].kind {
      if i > 1 {
        assert g[i] == h[i - 1] && g[i - 1] == h[i - 2];
      }
    }
  }

  /** One turn on key k, given what the rest of the run does. */
  lemma AlternatesTurn(c: Config, st: State, b: seq<Entry>, k: UserKey, tail: seq<Entry>)
    requires Ready(c, st, b, k, true) && st.rest != [] && st.rest[0].key == k
    requires var t := Step(c, st);
             Alternates(History(tail + b, k)) && SameTurn(History(t.next.rest + b, k), History(tail + b, k))
    ensures var t := Step(c, st);
            var out := if t.output.Some? then [Prepare(c, t.output.value)] + tail else tail;
            Alternates(History(out + b, k)) && SameTurn(History(st.rest + b, k), History(out + b, k))
  {
    hide Step, Settings.NotBeyond, Stripe, Prev;
    var t := Step(c, st);
    var n := Taken(st.rest, t);
    StepShape(c, st);
    AlternatingTurn(c, st, b, k);
    HistorySuffix(st.rest, n, b, k);
    var h := History(st.rest + b, k);
    var h' := History(t.next.rest + b, k);
    assert h == st.rest[..n] + h' && h[0] == st.rest[0];
    if h' != [] {
      assert h[n] == h'[0] && h[n - 1] == st.rest[n - 1];
    }
    if t.output.Some? {
      assert ([Prepare(c, t.output.value)] + tail + b)[1..] == tail + b;
      AlternatesCons(Prepare(c, t.output.value), History(tail + b, k));
    }
  }

  lemma {:induction false} EmitAlternates(c: Config, st: State, b: seq<Entry>, k: UserKey)
    requires Ready(c, st, b, k, true)
    ensures Alternates(History(Emit(c, st) + b, k))
    ensures SameTurn(History(st.rest + b, k), History(Emit(c, st) + b, k))
    decreases |st.rest|
  {
    hide Step, Settings.NotBeyond, Stripe, Prev;
    if st.rest == [] {
      assert Emit(c, st) + b == b && st.rest + b == b;
    } else {
      var t := Step(c, st);
      EmitUnfold(c, st);
      StepShape(c, st);
      ReadyStep(c, st, b, k, true);
      EmitAlternates(c, t.next, b, k);
      var tail := Emit(c, t.next);
      if st.rest[0].key != k {
        if t.output.Some? {
          assert ([Prepare(c, t.output.value)] + tail + b)[1..] == tail + b;
        }
        HistoryPass(st.rest, Taken(st.rest, t), b, k);
      } else {
        AlternatesTurn(c, st, b, k, tail);
      }
    }
  }

  lemma AlternatingPair(rest: seq<Entry>, b: seq<Entry>, k: UserKey)
    requires Alternates(History(rest + b, k)) && |rest| > 1 && rest[0].key == rest[1].key == k
    ensures rest[0].kind != rest[1].kind && !rest[1].kind.Delete?
  {
    HistorySuffix(rest, 2, b, k);
    var h := History(rest + b, k);
    assert h[0] == rest[0] && h[1] == rest[1];
  }

  /** On an alternating key a turn outputs one record, drops a SingleDelete with
      its Put, or drops a last record. */
  lemma AlternatingTurn(c: Config, st: State, b: seq<Entry>, k: UserKey)
    requires Ready(c, st, b, k, true) && st.rest != [] && st.rest[0].key == k
    ensures var t := Step(c, st);
            var n := Taken(st.rest, t);
            if t.output.Some? then n == 1
            else
              || (n == 2 && st.rest[0].kind.SingleDelete? && st.rest[1].kind.Put?)
              || (n == 1 && History(t.next.rest + b, k) == [])
  {
    hide Stripe, Prev, Settings.NotBeyond, Settings.Earliest, Emit;
    var t := Step(c, st);
    var n := Taken(st.rest, t);
    StepShape(c, st);
    HistorySuffix(st.rest, n, b, k);
    var h := History(st.rest + b, k);
    assert h[0] == st.rest[0];
    assert HasKey(st.rest, k);
    if |st.rest| > 1 && st.rest[1].key == k {
      AlternatingPair(st.rest, b, k);
    }
    if t.output.None? {
      WhyDropped(c, st);
      HistoryConcat(t.next.rest, b, k);
      HistoryNoKey(t.next.rest, k);
      HistoryNoKey(b, k);
      if st.rest[0].kind.Put? && 0 in c.snapshots && st.rest[0].sn == 0 {
        ZeroIsLast(c, st, b, k, true, 0);
      } else if st.rest[0].kind.Put? {
        NotHidden(c, st, b, k, MAX_SEQUENCE, true);
      }
    }
  }

  lemma {:induction false} HistoryFrom(es: seq<Entry>, k: UserKey, i: nat) returns (j: nat)
    requires i < |History(es, k)|
    ensures i <= j < |es| && es[j] == History(es, k)[i] && es[j].key == k
  {
    if es[0].key == k && i == 0 {
      j := 0;
    } else {
      var rec := HistoryFrom(es[1..], k, if es[0].key == k then i - 1 else i);
      j := rec + 1;
    }
  }

  lemma {:induction false} SortedHistoryDescends(es: seq<Entry>, k: UserKey)
    requires Sorted(es)
    ensures Descending(History(es, k))
  {
    if es != [] {
      SortedHistoryDescends(es[1..], k);
      if es[0].key == k {
        var h := History(es[1..], k);
        forall i | 0 <= i < |h| ensures es[0].sn > h[i].sn {
          var j := HistoryFrom(es[1..], k, i);
        }
      }
    }
  }

  lemma SurvivorsDescend(c: Config, input: seq<Entry>, b: seq<Entry>, k: UserKey)
    requires Job(c, input, b) && Descending(History(input + b, k))
    ensures Descending(History(Compacted(c, input) + b, k))
  {
    hide Emit, Settings.NotBeyond;
    var out := Compacted(c, input);
    var hi, ho, hb := History(input, k), History(out, k), History(b, k);
    CompactionOutputSorted(c, input, b);
    SortedHistoryDescends(out, k);
    HistoryConcat(out, b, k);
    HistoryConcat(input, b, k);
    forall i, j | 0 <= i < |ho| && 0 <= j < |hb| ensures ho[i].sn > hb[j].sn {
      var p := HistoryFrom(out, k, i);
      EmitFrom(c, Start(input), p);
      var q :| 0 <= q < |input| && StandsFor(c, out[p], input[q]);
      HistoryIn(input, k, q);
      var r :| 0 <= r < |hi| && hi[r] == input[q];
      assert (hi + hb)[r] == input[q] && (hi + hb)[|hi| + j] == hb[j];
      if c.Bottommost() {
        BottommostHidesNothing(c, input, b, k, q);
      }
    }
    assert forall i | 0 <= i < |hb| :: hb[i] == (hi + hb)[|hi| + i];
    DescendingConcat(ho, hb);
  }

  lemma BottommostHidesNothing(c: Config, input: seq<Entry>, b: seq<Entry>, k: UserKey, q: nat)
    requires Job(c, input, b) && c.Bottommost() && q < |input| && input[q].key == k
    ensures History(b, k) == []
  {
    NotBeyondIsSafe(c.compaction.value, k);
    HistoryNoKey(b, k);
  }

  lemma DescendingConcat(g: seq<Entry>, h: seq<Entry>)
    requires Descending(g) && Descending(h)
    requires forall i, j | 0 <= i < |g| && 0 <= j < |h| :: g[i].sn > h[j].sn
    ensures Descending(g + h)
  {
  }

  /** What is left of a well-used key is again well used, so the output can be
      the input of the next compaction. */
  lemma CompactionPreservesKeyUse(c: Config, input: seq<Entry>, b: seq<Entry>, k: UserKey, alt: bool)
    requires Job(c, input, b) && KeyUse(History(input + b, k), alt)
    ensures KeyUse(History(Compacted(c, input) + b, k), alt)
  {
    hide Emit, Settings.NotBeyond, Settings.Valid;
    SurvivorsDescend(c, input, b, k);
    if alt {
      StartReady(c, input, b, k, alt);
      EmitAlternates(c, Start(input), b, k);
    } else {
      SurvivorsNotSingleDelete(c, input, b, k);
    }
  }

  lemma SurvivorsNotSingleDelete(c: Config, input: seq<Entry>, b: seq<Entry>, k: UserKey)
    requires NoSingleDelete(History(input + b, k))
    ensures NoSingleDelete(History(Compacted(c, input) + b, k))
  {
    hide Emit, Settings.NotBeyond, Settings.Valid;
    var out := Compacted(c, input);
    var h := History(out + b, k);
    forall i | 0 <= i < |h| ensures !h[i].kind.SingleDelete? {
      var p := HistoryFrom(out + b, k, i);
      if p < |out| {
        EmitFrom(c, Start(input), p);
        var q :| 0 <= q < |input| && StandsFor(c, out[p], input[q]);
        assert (input + b)[q] == input[q];
        HistoryIn(input + b, k, q);
      } else {
        var q := |input| + (p - |out|);
        assert (input + b)[q] == (out + b)[p];
        HistoryIn(input + b, k, q);
      }
    }
  }

  // ---- PrepareOutput's assertion --------------------------------------------

  /** A SingleDelete that a writer may conflict with, in the stripe just above 0, and right
      below it a Delete of the same key at 0 that PrepareOutput would squash. */
  predicate MixedPair(c: Config, d: Entry, e: Entry) {
    && d.key == e.key && d.kind.SingleDelete? && e.kind.Delete? && e.sn == 0 < d.sn
    && d.sn > c.writeConflict && AfterPrev(Prev(c.snapshots, d.sn), 0) && c.ZeroEligible(e)
  }

  ghost predicate MixedAtZero(c: Config, es: seq<Entry>) {
    0 in c.snapshots && exists i :: 0 < i < |es| && MixedPair(c, es[i - 1], es[i])
  }

  /** A record whose value is about to be cleared at 0 is no Delete to squash. */
  ghost predicate ClearsPut(c: Config, st: State) {
    0 in c.snapshots && st.clear && st.rest != [] && st.rest[0].sn == 0 && c.ZeroEligible(st.rest[0]) ==>
      !st.rest[0].kind.Delete?
  }

  lemma SquashedIsPut(c: Config, st: State)
    requires Inv(c, st) && ClearsPut(c, st) && c.Earliest() <= c.writeConflict && st.rest != []
    requires st.clear ==> !st.rest[0].kind.SingleDelete?
    requires var o := Step(c, st).output; o.Some? && c.ZeroEligible(o.value)
    ensures Step(c, st).output.value.kind.Put?
  {
    hide Stripe, Prev, Settings.Valid, Compaction.Bottommost, SkipStripe;
    StripeEarliest(c, st.rest[0].sn);
  }

  /** Every record the run is about to squash is a Put. */
  ghost predicate OnlyPutsSquashed(c: Config, st: State)
    decreases |st.rest|
  {
    st.rest == [] ||
    (var t := Step(c, st);
     && (t.output.Some? && c.ZeroEligible(t.output.value) ==> t.output.value.kind.Put?)
     && OnlyPutsSquashed(c, t.next))
  }

  /** From any loop state on, the assertion in PrepareOutput holds. */
  lemma {:induction false} EmitSquashesPuts(c: Config, st: State)
    requires Inv(c, st) && c.Earliest() <= c.writeConflict && !MixedAtZero(c, st.rest) && ClearsPut(c, st)
    requires st.clear && st.rest != [] ==> !st.rest[0].kind.SingleDelete?
    ensures OnlyPutsSquashed(c, st)
    decreases |st.rest|
  {
    hide Step, Stripe, Prev, Settings.ZeroEligible;
    if st.rest != [] {
      var t := Step(c, st);
      StepShape(c, st);
      InvStep(c, st);
      if t.output.Some? && c.ZeroEligible(t.output.value) {
        SquashedIsPut(c, st);
      }
      var n := Taken(st.rest, t);
      assert forall i | 0 <= i < |t.next.rest| :: t.next.rest[i] == st.rest[n + i];
      if t.next.clear {
        ClearIsNoSingleDelete(c, st);
        assert Before(st.rest[0], st.rest[1]);
        assert 0 in c.snapshots ==> !MixedPair(c, st.rest[0], st.rest[1]);
      }
      EmitSquashesPuts(c, t.next);
    }
  }

  lemma ClearIsNoSingleDelete(c: Config, st: State)
    requires st.rest != [] && Step(c, st).next.clear
    ensures |st.rest| > 1 && Step(c, st).next.rest == st.rest[1..] && !st.rest[1].kind.SingleDelete?
  {
    hide Stripe, Prev, Settings.Valid, Settings.NotBeyond, Settings.Bottommost, SkipStripe;
  }

  /** The assertion in PrepareOutput holds throughout, whatever mix of Puts, Deletes and
      SingleDeletes the input has, short of a mixed pair at 0 with a snapshot at 0. */
  lemma SquashAssertionHolds(c: Config, input: seq<Entry>, b: seq<Entry>)
    requires Job(c, input, b) && !MixedAtZero(c, input)
    ensures OnlyPutsSquashed(c, Start(input))
  {
    EmitSquashesPuts(c, Start(input));
  }

  ghost predicate ProperUse(h: seq<Entry>) {
    KeyUse(h, false) || KeyUse(h, true)
  }

  /** On keys in proper use the assertion holds without exception. */
  lemma ProperUseSquashesPuts(c: Config, input: seq<Entry>, b: seq<Entry>)
    requires Job(c, input, b) && forall k :: ProperUse(History(input + b, k))
    ensures OnlyPutsSquashed(c, Start(input))
  {
    hide Job, Emit, OnlyPutsSquashed;
    forall i | 0 < i < |input| ensures !MixedPair(c, input[i - 1], input[i]) {
      if MixedPair(c, input[i - 1], input[i]) {
        NoMixedUse(input + b, input[i].key, i);
      }
    }
    SquashAssertionHolds(c, input, b);
  }

  lemma NoMixedUse(es: seq<Entry>, k: UserKey, i: nat)
    requires 0 < i < |es| && es[i - 1].key == es[i].key == k && ProperUse(History(es, k))
    ensures !(es[i - 1].kind.SingleDelete? && es[i].kind.Delete?)
  {
    HistoryIn(es, k, i - 1);
    HistoryIn(es, k, i);
  }

  lemma MixedKeys(c: Config, d: Entry, e: Entry)
    requires MixedPair(c, d, e)
    ensures d.key == e.key
  {
  }

  /** A turn on one key stops before another. */
  lemma TakenBeforeKey(rest: seq<Entry>, n: nat, i: nat)
    requires 0 < n <= |rest| && i < |rest| && (forall j | 0 <= j < n :: rest[j].key == rest[0].key)
    requires rest[i].key != rest[0].key
    ensures n <= i
  {
  }

  /** The pair at the front: the SingleDelete comes out, and the Delete is squashed. */
  lemma PairIsKept(c: Config, st: State)
    requires !st.clear && |st.rest| > 1 && MixedPair(c, st.rest[0], st.rest[1])
    requires !(st.hasKey && st.key == st.rest[0].key)
    ensures !OnlyPutsSquashed(c, st)
  {
    hide Stripe, Prev, Settings.Valid, Settings.NotBeyond, Settings.Bottommost, SkipStripe, BottomDeleteTurn;
    var t := Step(c, st);
    assert t.next.clear && t.next.rest[0] == st.rest[1];
    var u := Step(c, t.next);
    assert u.output == Some(st.rest[1].(value := ""));
  }

  /** From any state before a mixed pair whose key has no newer version, the assertion fails. */
  lemma {:induction false} MixedPairFails(c: Config, st: State, i: nat)
    requires Inv(c, st) && c.Earliest() <= c.writeConflict && 0 < i < |st.rest|
    requires MixedPair(c, st.rest[i - 1], st.rest[i]) && !(st.hasKey && st.key == st.rest[i].key)
    requires forall j | 0 <= j < i - 1 :: st.rest[j].key != st.rest[i].key
    ensures !OnlyPutsSquashed(c, st)
    decreases |st.rest|
  {
    hide Step, Stripe, Prev, MixedPair;
    var t := Step(c, st);
    StepShape(c, st);
    InvStep(c, st);
    MixedKeys(c, st.rest[i - 1], st.rest[i]);
    if i == 1 {
      PairIsKept(c, st);
    } else {
      var n := Taken(st.rest, t);
      TakenBeforeKey(st.rest, n, i - 1);
      assert t.next.rest[i - n] == st.rest[i] && t.next.rest[i - n - 1] == st.rest[i - 1];
      MixedPairFails(c, t.next, i - n);
    }
  }

  /** So the exception cannot be left out: without newer versions of its key, every mixed pair
      makes the run squash a Delete. */
  lemma SquashAssertionFails(c: Config, input: seq<Entry>, b: seq<Entry>, i: nat)
    requires Job(c, input, b) && 0 < i < |input| && MixedPair(c, input[i - 1], input[i])
    requires forall j | 0 <= j < i - 1 :: input[j].key != input[i].key
    ensures !OnlyPutsSquashed(c, Start(input))
  {
    MixedPairFails(c, Start(input), i);
  }
}
