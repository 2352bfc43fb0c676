/** The main read theorem and exactly when it holds. The source uses snapshot 0 to mean
    "no snapshot" as well, so with a snapshot at 0 a Put at sequence number 0 may be lost;
    the theorem says for which inputs, and that nothing else ever is. */
module LiveReads {
  import opened Wrappers
  import opened Lsm
  import opened LevelCursors
  import opened CompactionRules
  import opened CompactionReads

  // ---- reads survive exactly when the Put at 0 does ---------------------------------------

  lemma {:induction false} NotKeptNotOutput(c: Config, st: State, b: seq<Entry>, k: UserKey, alt: bool) returns (i: nat)
    requires Ready(c, st, b, k, alt) && !ZeroKept(c, st, k)
    ensures i < |st.rest| && ZeroPut(st.rest[i], k) && st.rest[i] !in Emit(c, st)
    decreases |st.rest|
  {
    hide Step, Ready, Prepare, Emit;
    var t := Step(c, st);
    EmitUnfold(c, st);
    if j :| 0 <= j < Taken(st.rest, t) && ZeroPut(st.rest[j], k) && t.output != Some(st.rest[j]) {
      i := j;
      NotOutputNow(c, st, b, k, alt, j);
    } else {
      ReadyStep(c, st, b, k, alt);
      var m := NotKeptNotOutput(c, t.next, b, k, alt);
      i := Taken(st.rest, t) + m;
      assert st.rest[i] == t.next.rest[m] by {
        StepShape(c, st);
      }
      OutputIsNewer(c, st, b, k, alt, i);
    }
  }

  lemma NotOutputNow(c: Config, st: State, b: seq<Entry>, k: UserKey, alt: bool, j: nat)
    requires Ready(c, st, b, k, alt) && 0 in c.snapshots && st.rest != []
    requires var t := Step(c, st);
             j < Taken(st.rest, t) && ZeroPut(st.rest[j], k) && t.output != Some(st.rest[j])
    ensures var t := Step(c, st);
            && st.rest[j] !in Emit(c, t.next)
            && (t.output.Some? ==> Prepare(c, t.output.value) != st.rest[j])
  {
    hide Step, Ready, Emit, Prepare;
    var t := Step(c, st);
    ReadyIsInv(c, st, b, k, alt);
    StepShape(c, st);
    ZeroIsLast(c, st, b, k, alt, j);
    var n := Taken(st.rest, t);
    assert forall m | 0 <= m < |t.next.rest| :: t.next.rest[m] == st.rest[j + 1..][n - j - 1 + m];
    EmitNoKey(c, t.next, k);
    if t.output.Some? {
      ZeroSquash(c, st, j);
    }
  }

  /** Squashing cannot turn a turn's output into another record at 0. */
  lemma ZeroSquash(c: Config, st: State, j: nat)
    requires 0 in c.snapshots && Sorted(st.rest) && st.rest != [] && Step(c, st).output.Some?
    requires j < Taken(st.rest, Step(c, st)) && st.rest[j].sn == 0 && Step(c, st).output != Some(st.rest[j])
    ensures Prepare(c, Step(c, st).output.value) != st.rest[j]
  {
    ZeroStripe(c);
  }

  lemma OutputIsNewer(c: Config, st: State, b: seq<Entry>, k: UserKey, alt: bool, i: nat)
    requires Ready(c, st, b, k, alt) && 0 in c.snapshots && st.rest != []
    requires Taken(st.rest, Step(c, st)) <= i < |st.rest| && ZeroPut(st.rest[i], k)
    ensures var o := Step(c, st).output; o.Some? ==> Prepare(c, o.value) != st.rest[i]
  {
    hide Step;
    ZeroStripe(c);
    StepShape(c, st);
  }

  /** For a proper use of k, all live reads survive iff k's Put at 0, if any, comes through. */
  lemma ReadsIffKept(c: Config, input: seq<Entry>, b: seq<Entry>, k: UserKey, alt: bool)
    requires Job(c, input, b) && KeyUse(History(input + b, k), alt)
    ensures (forall s | c.Live(s) :: Read(Compacted(c, input), b, k, s) == Read(input, b, k, s)) <==>
            ZeroKept(c, Start(input), k)
  {
    hide Emit, Job, KeyUse, Ready, Read;
    var st := Start(input);
    StartReady(c, input, b, k, alt);
    if ZeroKept(c, st, k) {
      forall s | c.Live(s) ensures Read(Compacted(c, input), b, k, s) == Read(input, b, k, s) {
        EmitKeepsReads(c, st, b, k, s, alt);
      }
    } else {
      var i := NotKeptNotOutput(c, st, b, k, alt);
      LostChangesRead(c, st, b, k, alt, i);
      assert c.Live(0);
    }
  }

  lemma LostChangesRead(c: Config, st: State, b: seq<Entry>, k: UserKey, alt: bool, i: nat)
    requires Ready(c, st, b, k, alt) && 0 in c.snapshots && i < |st.rest| && ZeroPut(st.rest[i], k)
    requires st.rest[i] !in Emit(c, st)
    ensures Read(Emit(c, st), b, k, 0) != Read(st.rest, b, k, 0)
  {
    hide Emit, Ready;
    ReadyIsInv(c, st, b, k, alt);
    ZeroIsLast(c, st, b, k, alt, i);
    LookFinds(st.rest, k, 0);
    SortedZeroIsOne(st.rest, k, st.rest[i], Look(st.rest, k, 0).value);
    LookFinds(Emit(c, st), k, 0);
    LookNoKey(b, k, 0);
    var y := Look(Emit(c, st), k, 0);
    if y.Some? {
      ZeroOutputKind(c, st, k, st.rest[i], y.value);
    }
  }

  // ---- the exact condition ------------------------------------------------------------------

  /** n lies in the stripe just above 0. */
  predicate JustAboveZero(c: Config, n: nat) {
    n > 0 && Stripe(c.snapshots, n) == Stripe(c.snapshots, 1)
  }

  /** Version i is the newest of the stripe just above 0 (the version before the first has
      stripe above) and a Delete that the bottommost rule handles. */
  predicate SkipsAt(c: Config, h: seq<Entry>, above: nat, i: nat)
    requires i < |h|
  {
    && h[i].kind.Delete? && c.NotNeeded(h[i].sn) && JustAboveZero(c, h[i].sn)
    && Stripe(c.snapshots, 1) != if i == 0 then above else Stripe(c.snapshots, h[i - 1].sn)
  }

  ghost predicate Skipped(c: Config, h: seq<Entry>, above: nat) {
    c.Bottommost() && exists i :: 0 <= i < |h| && SkipsAt(c, h, above, i)
  }

  /** The history ends in a Put at 0 that a snapshot at 0 reads. */
  predicate EndsAtZero(c: Config, h: seq<Entry>) {
    0 in c.snapshots && h != [] && h[|h| - 1].sn == 0 && h[|h| - 1].kind.Put?
  }

  /** When the run comes to record d, another version of its key has been output. */
  ghost predicate OutputBefore(c: Config, st: State, d: Entry)
    decreases |st.rest|
  {
    st.rest != [] &&
    if st.rest[0] == d then st.hasKey && st.key == d.key && st.outputted
    else OutputBefore(c, Step(c, st).next, d)
  }

  /** SingleDelete d, in the stripe just above 0, takes the Put e at 0 for its own: it drops
      both, or keeps both and clears the Put's value. */
  ghost predicate SwallowsFrom(c: Config, st: State, d: Entry, e: Entry) {
    && d.kind.SingleDelete? && JustAboveZero(c, d.sn)
    && (e.value != "" || d.sn <= c.writeConflict || OutputBefore(c, st, d))
  }

  /** The stripe of k's last version to go by, 0 before the first. */
  function Above(st: State, k: UserKey): nat {
    if st.hasKey && st.key == k then st.stripe else 0
  }

  lemma HistoryTaken(rest: seq<Entry>, n: nat, k: UserKey)
    requires n <= |rest| && forall i | 0 <= i < n :: rest[i].key == k
    ensures History(rest, k) == rest[..n] + History(rest[n..], k)
  {
    HistorySuffix(rest, n, [], k);
    assert rest + [] == rest && rest[n..] + [] == rest[n..];
  }

  lemma HistoryPassed(rest: seq<Entry>, n: nat, k: UserKey)
    requires n <= |rest| && forall i | 0 <= i < n :: rest[i].key != k
    ensures History(rest, k) == History(rest[n..], k)
  {
    HistoryPass(rest, n, [], k);
    assert rest + [] == rest && rest[n..] + [] == rest[n..];
  }

  ghost predicate HasSmaller(es: seq<Entry>, k: UserKey) {
    exists i :: 0 <= i < |es| && es[i].key < k
  }

  /** k's oldest versions are a SingleDelete in the stripe just above 0 and its Put, and the
      pair is dropped or the Put has a value to clear. The pair is dropped if no writer can
      conflict with the SingleDelete or has_outputted_key_ is set, which every output of k
      does but the very first of a run: with two newer versions of k it is set, and with one
      exactly if a record of a smaller key came out before, which HasSmaller says. */
  ghost predicate Swallowed(c: Config, input: seq<Entry>, k: UserKey) {
    var h := History(input, k);
    && |h| > 1 && h[|h| - 2].kind.SingleDelete? && JustAboveZero(c, h[|h| - 2].sn)
    && (|| h[|h| - 1].value != ""
        || h[|h| - 2].sn <= c.writeConflict
        || |h| > 3
        || (|h| == 3 && HasSmaller(Compacted(c, input), k)))
  }

  /** With a snapshot at 0, the oldest version of k is a Put at 0 and it is the only one,
      or a Delete that the bottommost rule handles is the newest in the stripe just above 0,
      or a SingleDelete in that stripe takes the Put for its own. */
  ghost predicate ZeroLost(c: Config, input: seq<Entry>, k: UserKey) {
    var h := History(input, k);
    EndsAtZero(c, h) && (|h| == 1 || Skipped(c, h, 0) || Swallowed(c, input, k))
  }

  // ---- Puts and Deletes -----------------------------------------------------------------------

  ghost predicate LostFrom(c: Config, h: seq<Entry>, above: nat) {
    EndsAtZero(c, h) && ((|h| == 1 && above == 0) || Skipped(c, h, above))
  }

  /** Without SingleDeletes only the bottommost rule takes several versions. */
  lemma ManyTaken(c: Config, st: State)
    requires st.rest != [] && !st.clear && !st.rest[0].kind.SingleDelete? && Taken(st.rest, Step(c, st)) > 1
    ensures st.rest[0].kind.Delete? && c.Bottommost() && c.NotNeeded(st.rest[0].sn)
    ensures LastStripe(st) != Stripe(c.snapshots, st.rest[0].sn)
  {
    hide Stripe, Prev, Settings.Valid, Settings.NotBeyond, Settings.Bottommost, Settings.NotNeeded, SkipStripe;
  }

  /** The bottommost rule just above 0 takes everything that is left of the key. */
  lemma SkipTakesAll(c: Config, st: State)
    requires Sorted(st.rest) && st.rest != [] && !st.clear && st.rest[0].kind.Delete? && 0 in c.snapshots
    requires c.Bottommost() && c.NotNeeded(st.rest[0].sn) && JustAboveZero(c, st.rest[0].sn)
    requires st.rest[0].sn <= MAX_SEQUENCE && LastStripe(st) != Stripe(c.snapshots, st.rest[0].sn)
    ensures NoKey(Step(c, st).next.rest, st.rest[0].key)
  {
    ZeroStripe(c);
    PrevZero(c.snapshots, st.rest[0].sn);
    hide Stripe, Prev, Settings.Valid, Settings.NotBeyond, Settings.Bottommost, Settings.NotNeeded;
  }

  lemma LonePutAtZero(c: Config, st: State, k: UserKey)
    requires 0 in c.snapshots && st.rest != [] && ZeroPut(st.rest[0], k)
    ensures var o := Step(c, st).output;
            o == Some(st.rest[0]) <==> if st.clear then st.rest[0].value == "" else Above(st, k) != 0
  {
    ZeroStripe(c);
    hide Prev, Settings.Valid, Settings.NotBeyond, Settings.Bottommost, Settings.NotNeeded, SkipStripe;
  }

  /** A turn on another key changes nothing about k. */
  lemma PassTurn(c: Config, st: State, b: seq<Entry>, k: UserKey, alt: bool)
    requires Ready(c, st, b, k, alt) && st.rest != [] && st.rest[0].key != k
    ensures var next := Step(c, st).next;
            && ZeroKept(c, st, k) == ZeroKept(c, next, k)
            && History(next.rest, k) == History(st.rest, k)
            && (History(st.rest, k) != [] ==> Above(st, k) == 0 && Above(next, k) == 0)
            && !(st.clear && st.key == k) && !(next.clear && next.key == k)
  {
    hide Step;
    var t := Step(c, st);
    StepShape(c, st);
    HistoryPassed(st.rest, Taken(st.rest, t), k);
    if History(st.rest, k) != [] {
      var i := HistoryFrom(st.rest, k, 0);
      assert st.rest[0].key < k;
    }
  }

  /** A turn on k that consumes no Put at 0: what is left, and when the Put at 0 is still
      to come. */
  lemma EarlyTurn(c: Config, st: State, b: seq<Entry>, k: UserKey, alt: bool)
    requires Ready(c, st, b, k, alt) && st.rest != [] && st.rest[0].key == k
    requires forall i | 0 <= i < Taken(st.rest, Step(c, st)) :: !ZeroPut(st.rest[i], k)
    ensures var t := Step(c, st);
            var n := Taken(st.rest, t);
            var h, g := History(st.rest, k), History(t.next.rest, k);
            && ZeroKept(c, st, k) == ZeroKept(c, t.next, k)
            && h == st.rest[..n] + g
            && EndsAtZero(c, h) == EndsAtZero(c, g)
            && (EndsAtZero(c, g) ==> Above(t.next, k) == Stripe(c.snapshots, st.rest[0].sn) > 0 && t.next.hasKey)
            && (EndsAtZero(c, g) ==> t.next.rest != [] && t.next.rest[0].key == k)
            && (EndsAtZero(c, g) ==> forall i | 0 <= i < n :: st.rest[i].sn > 0)
  {
    hide Step, Stripe, Prev, KeyUse;
    var t := Step(c, st);
    var n := Taken(st.rest, t);
    StepShape(c, st);
    HistoryTaken(st.rest, n, k);
    var g := History(t.next.rest, k);
    if EndsAtZero(c, g) {
      KeyRunsOn(st.rest, n, k);
      StripeSees(c.snapshots, st.rest[0].sn, MAX_SEQUENCE);
    }
  }

  lemma KeyRunsOn(es: seq<Entry>, n: nat, k: UserKey)
    requires Sorted(es) && 0 < n <= |es| && (forall i | 0 <= i < n :: es[i].key == k) && History(es[n..], k) != []
    ensures n < |es| && es[n].key == k && forall i | 0 <= i < n :: es[i].sn > 0
  {
    var j := HistoryFrom(es[n..], k, 0);
    assert es[n..][j] == es[n + j] && Before(es[n - 1], es[n]) && es[n].key <= es[n + j].key;
    forall i | 0 <= i < n ensures es[i].sn > 0 {
      assert Before(es[i], es[n + j]);
    }
  }

  /** A turn that consumes the Put at 0 is the last on k. */
  lemma LastTurn(c: Config, st: State, b: seq<Entry>, k: UserKey, alt: bool, i: nat)
    requires Ready(c, st, b, k, alt) && st.rest != []
    requires i < Taken(st.rest, Step(c, st)) && ZeroPut(st.rest[i], k) && 0 in c.snapshots
    ensures var t := Step(c, st);
            && i == Taken(st.rest, t) - 1
            && History(st.rest, k) == st.rest[..i + 1]
            && ZeroKept(c, st, k) == (t.output == Some(st.rest[i]))
            && (i > 0 ==> JustAboveZero(c, st.rest[0].sn))
  {
    hide Step, Stripe, Prev;
    var t := Step(c, st);
    var n := Taken(st.rest, t);
    StepShape(c, st);
    if i + 1 < n {
      KeyFollows(st.rest, i + 1);
    }
    ZeroIsLast(c, st, b, k, alt, i);
    assert st.rest[i + 1..] == t.next.rest;
    HistoryTaken(st.rest, n, k);
    HistoryNoKey(t.next.rest, k);
    assert st.rest[..n] + [] == st.rest[..n];
    NoKeyKept(c, t.next, k);
    if i > 0 {
      assert Before(st.rest[0], st.rest[i]);
      PrevZero(c.snapshots, st.rest[0].sn);
    }
  }

  lemma KeyFollows(es: seq<Entry>, i: nat)
    requires i < |es|
    ensures !NoKey(es[i..], es[i].key)
  {
    assert es[i..][0] == es[i];
  }

  lemma {:induction false} NoKeyKept(c: Config, st: State, k: UserKey)
    requires NoKey(st.rest, k)
    ensures ZeroKept(c, st, k)
    decreases |st.rest|
  {
    hide Step;
    if st.rest != [] {
      StepShape(c, st);
      NoKeyKept(c, Step(c, st).next, k);
    }
  }

  /** Taking versions of one stripe off the front leaves the newest of every other stripe. */
  lemma SkippedStep(c: Config, newer: seq<Entry>, g: seq<Entry>, above: nat)
    requires newer != []
    requires forall i | 0 <= i < |newer| :: Stripe(c.snapshots, newer[i].sn) == Stripe(c.snapshots, newer[0].sn)
    ensures Skipped(c, newer + g, above) <==>
            (c.Bottommost() && SkipsAt(c, newer + g, above, 0)) || Skipped(c, g, Stripe(c.snapshots, newer[0].sn))
  {
    hide Stripe, Settings.NotNeeded, Settings.Bottommost, Settings.Valid;
    var h := newer + g;
    var n := |newer|;
    var stripe := Stripe(c.snapshots, newer[0].sn);
    forall i | n <= i < |h| ensures SkipsAt(c, h, above, i) == SkipsAt(c, g, stripe, i - n) {
      assert h[i] == g[i - n];
      assert h[i - 1] == if i == n then newer[n - 1] else g[i - n - 1];
    }
    forall i | 0 < i < n ensures !SkipsAt(c, h, above, i) {
      assert h[i] == newer[i] && h[i - 1] == newer[i - 1];
    }
    if Skipped(c, g, stripe) {
      var i :| 0 <= i < |g| && SkipsAt(c, g, stripe, i);
      assert SkipsAt(c, h, above, n + i);
    }
  }

  lemma PlainTurn(c: Config, st: State, b: seq<Entry>, k: UserKey)
    requires Ready(c, st, b, k, false) && st.rest != [] && st.rest[0].key == k && 0 in c.snapshots
    requires forall i | 0 <= i < Taken(st.rest, Step(c, st)) :: !ZeroPut(st.rest[i], k)
    ensures var next := Step(c, st).next;
            LostFrom(c, History(st.rest, k), Above(st, k)) == LostFrom(c, History(next.rest, k), Above(next, k))
  {
    hide Step, Stripe, Prev, Settings.NotNeeded, Settings.Bottommost, Settings.Valid, Skipped;
    EarlyTurn(c, st, b, k, false);
    var t := Step(c, st);
    var n := Taken(st.rest, t);
    var h, g := History(st.rest, k), History(t.next.rest, k);
    if EndsAtZero(c, g) {
      StepStripe(c, st);
      assert forall i | 0 <= i < n :: st.rest[..n][i] == st.rest[i];
      SkippedStep(c, st.rest[..n], g, Above(st, k));
      NoSkipNow(c, st, b, k);
    }
  }

  lemma NoSkipNow(c: Config, st: State, b: seq<Entry>, k: UserKey)
    requires Ready(c, st, b, k, false) && st.rest != [] && st.rest[0].key == k && 0 in c.snapshots
    requires History(Step(c, st).next.rest, k) != []
    ensures var h := History(st.rest, k);
            h != [] && !(c.Bottommost() && SkipsAt(c, h, Above(st, k), 0))
  {
    hide Step, Stripe, Prev, Settings.NotNeeded, Settings.Bottommost;
    HistoryTaken(st.rest, 1, k);
    var h := History(st.rest, k);
    assert h[0] == st.rest[0];
    if c.Bottommost() && SkipsAt(c, h, Above(st, k), 0) {
      SkipTakesAll(c, st);
      HistoryNoKey(Step(c, st).next.rest, k);
    }
  }

  /** From any loop state on: which Puts at 0 of a key written with Puts and Deletes come
      through. */
  lemma {:induction false} KeptIffPlain(c: Config, st: State, b: seq<Entry>, k: UserKey)
    requires Ready(c, st, b, k, false)
    ensures ZeroKept(c, st, k) <==> !LostFrom(c, History(st.rest, k), Above(st, k))
    decreases |st.rest|
  {
    hide Step, Ready, Skipped, ZeroKept;
    if st.rest == [] || 0 !in c.snapshots {
      NothingLost(c, st, k);
    } else if st.rest[0].key != k {
      PassTurn(c, st, b, k, false);
      ReadyStep(c, st, b, k, false);
      KeptIffPlain(c, Step(c, st).next, b, k);
    } else if i :| 0 <= i < Taken(st.rest, Step(c, st)) && ZeroPut(st.rest[i], k) {
      LastPlainTurn(c, st, b, k, i);
    } else {
      EarlyTurn(c, st, b, k, false);
      PlainTurn(c, st, b, k);
      ReadyStep(c, st, b, k, false);
      KeptIffPlain(c, Step(c, st).next, b, k);
    }
  }

  lemma NothingLost(c: Config, st: State, k: UserKey)
    requires st.rest == [] || 0 !in c.snapshots
    ensures ZeroKept(c, st, k) && !EndsAtZero(c, History(st.rest, k))
  {
  }

  lemma LastPlainTurn(c: Config, st: State, b: seq<Entry>, k: UserKey, i: nat)
    requires Ready(c, st, b, k, false) && st.rest != [] && 0 in c.snapshots
    requires i < Taken(st.rest, Step(c, st)) && ZeroPut(st.rest[i], k)
    ensures ZeroKept(c, st, k) <==> !LostFrom(c, History(st.rest, k), Above(st, k))
  {
    hide Step, Stripe, Prev, Settings.NotNeeded, Settings.Bottommost, Settings.Valid;
    LastTurn(c, st, b, k, false, i);
    StepShape(c, st);
    var h := History(st.rest, k);
    assert h[i] == st.rest[i] && h[0] == st.rest[0];
    if st.rest[0].kind.SingleDelete? {
      NewestUse(c, st, b, k, false);
    } else if i == 0 {
      LonePutAtZero(c, st, k);
    } else {
      ManyTaken(c, st);
      assert SkipsAt(c, h, Above(st, k), 0);
      assert Before(st.rest[0], st.rest[i]);
    }
  }

  // ---- Puts and SingleDeletes taking turns ----------------------------------------------------

  ghost predicate AlternatingLost(c: Config, st: State, k: UserKey) {
    var h := History(st.rest, k);
    && EndsAtZero(c, h)
    && if |h| == 1 then (if st.clear && st.key == k then h[0].value != "" else Above(st, k) == 0)
       else SwallowsFrom(c, st, h[|h| - 2], h[|h| - 1])
  }

  /** A SingleDelete goes with its Put only if the key was output before or no writer can
      still conflict with it. */
  lemma PairDropped(c: Config, st: State)
    requires st.rest != [] && !st.clear && st.rest[0].kind.SingleDelete? && Taken(st.rest, Step(c, st)) > 1
    ensures OutputBefore(c, st, st.rest[0]) || st.rest[0].sn <= c.writeConflict
  {
    hide Stripe, Prev, Settings.Valid, Settings.NotBeyond, Settings.Bottommost, Settings.NotNeeded, SkipStripe;
  }

  /** A SingleDelete output above the Put at 0 leaves it to be cleared exactly when it lies
      in the stripe just above 0. */
  lemma ClearsNext(c: Config, st: State)
    requires st.rest != [] && !st.clear && st.rest[0].kind.SingleDelete? && 0 in c.snapshots
    requires 0 < st.rest[0].sn <= MAX_SEQUENCE && |st.rest| > 1 && ZeroPut(st.rest[1], st.rest[0].key)
    requires Step(c, st).output.Some?
    ensures var next := Step(c, st).next;
            && next.clear == JustAboveZero(c, st.rest[0].sn)
            && (next.clear ==> next.key == st.rest[0].key)
            && (next.clear ==> !OutputBefore(c, st, st.rest[0]) && st.rest[0].sn > c.writeConflict)
  {
    PrevZero(c.snapshots, st.rest[0].sn);
    hide Stripe, Prev, Settings.Valid, Settings.NotBeyond, Settings.Bottommost, Settings.NotNeeded, SkipStripe;
  }

  lemma LastAlternatingTurn(c: Config, st: State, b: seq<Entry>, k: UserKey, i: nat)
    requires Ready(c, st, b, k, true) && st.rest != [] && 0 in c.snapshots
    requires i < Taken(st.rest, Step(c, st)) && ZeroPut(st.rest[i], k)
    ensures ZeroKept(c, st, k) <==> !AlternatingLost(c, st, k)
  {
    hide Step, Stripe, Prev, Settings.NotNeeded, Settings.Bottommost, Settings.Valid, OutputBefore;
    LastTurn(c, st, b, k, true, i);
    StepShape(c, st);
    var h := History(st.rest, k);
    assert h[i] == st.rest[i] && h[0] == st.rest[0];
    if i == 0 {
      LonePutAtZero(c, st, k);
    } else {
      AlternatingTurn(c, st, b, k);
      PairDropped(c, st);
    }
  }

  lemma OutputBeforeNext(c: Config, st: State, d: Entry)
    requires st.rest != [] && st.rest[0] != d
    ensures OutputBefore(c, st, d) == OutputBefore(c, Step(c, st).next, d)
  {
  }

  lemma EarlyAlternatingTurn(c: Config, st: State, b: seq<Entry>, k: UserKey)
    requires Ready(c, st, b, k, true) && st.rest != [] && st.rest[0].key == k && 0 in c.snapshots
    requires forall i | 0 <= i < Taken(st.rest, Step(c, st)) :: !ZeroPut(st.rest[i], k)
    ensures AlternatingLost(c, st, k) == AlternatingLost(c, Step(c, st).next, k)
  {
    hide Step, Stripe, Prev, Settings.NotNeeded, Settings.Bottommost, Settings.Valid, OutputBefore;
    EarlyTurn(c, st, b, k, true);
    var t := Step(c, st);
    var n := Taken(st.rest, t);
    var h, g := History(st.rest, k), History(t.next.rest, k);
    if EndsAtZero(c, g) {
      assert h[|h| - 1] == g[|g| - 1];
      if |g| == 1 {
        BeforeLastTurn(c, st, b, k);
      } else {
        assert h[|h| - 2] == g[|g| - 2];
        StepShape(c, st);
        NewerDiffers(c, st, k, t.next.rest, |g| - 2);
        OutputBeforeNext(c, st, g[|g| - 2]);
      }
    }
  }

  lemma NewerDiffers(c: Config, st: State, k: UserKey, later: seq<Entry>, i: nat)
    requires Sorted(st.rest) && |later| < |st.rest| && later == st.rest[|st.rest| - |later|..]
    requires i < |History(later, k)|
    ensures History(later, k)[i] != st.rest[0]
  {
    var j := HistoryFrom(later, k, i);
    assert Before(st.rest[0], st.rest[|st.rest| - |later| + j]);
  }

  lemma BeforeLastTurn(c: Config, st: State, b: seq<Entry>, k: UserKey)
    requires Ready(c, st, b, k, true) && st.rest != [] && st.rest[0].key == k && 0 in c.snapshots
    requires forall i | 0 <= i < Taken(st.rest, Step(c, st)) :: !ZeroPut(st.rest[i], k)
    requires var g := History(Step(c, st).next.rest, k); EndsAtZero(c, g) && |g| == 1
    ensures AlternatingLost(c, st, k) == AlternatingLost(c, Step(c, st).next, k)
  {
    hide Step, Stripe, Prev, Settings.NotNeeded, Settings.Bottommost, Settings.Valid, OutputBefore;
    EarlyTurn(c, st, b, k, true);
    StepShape(c, st);
    var t := Step(c, st);
    var n := Taken(st.rest, t);
    var h, g := History(st.rest, k), History(t.next.rest, k);
    AlternatesAt(st.rest, b, k, n);
    AlternatingTurn(c, st, b, k);
    HistoryConcat(t.next.rest, b, k);
    HistoryTaken(t.next.rest, 1, k);
    assert n == 1 && h == [st.rest[0], st.rest[1]];
    ClearsNext(c, st);
  }

  lemma AlternatesAt(es: seq<Entry>, b: seq<Entry>, k: UserKey, n: nat)
    requires Alternates(History(es + b, k)) && 0 < n < |History(es, k)|
    ensures var h := History(es, k); h[n].kind != h[n - 1].kind && !h[n].kind.Delete? && !h[n - 1].kind.Delete?
  {
    HistoryConcat(es, b, k);
    var h, g := History(es, k), History(es + b, k);
    assert g[n] == h[n] && g[n - 1] == h[n - 1];
  }

  /** From any loop state on: which Puts at 0 of an alternating key come through. */
  lemma {:induction false} KeptIffAlternating(c: Config, st: State, b: seq<Entry>, k: UserKey)
    requires Ready(c, st, b, k, true)
    ensures ZeroKept(c, st, k) <==> !AlternatingLost(c, st, k)
    decreases |st.rest|
  {
    hide Step, Ready, ZeroKept, OutputBefore;
    if st.rest == [] || 0 !in c.snapshots {
      NothingLost(c, st, k);
    } else if st.rest[0].key != k {
      PassTurn(c, st, b, k, true);
      ReadyStep(c, st, b, k, true);
      KeptIffAlternating(c, Step(c, st).next, b, k);
      var h := History(st.rest, k);
      if |h| > 1 {
        HistoryKeys(st.rest, k);
        OutputBeforeNext(c, st, h[|h| - 2]);
      }
    } else if i :| 0 <= i < Taken(st.rest, Step(c, st)) && ZeroPut(st.rest[i], k) {
      LastAlternatingTurn(c, st, b, k, i);
    } else {
      EarlyTurn(c, st, b, k, true);
      EarlyAlternatingTurn(c, st, b, k);
      ReadyStep(c, st, b, k, true);
      KeptIffAlternating(c, Step(c, st).next, b, k);
    }
  }

  // ---- when a newer version of an alternating key has been output ------------------------------

  /** The history of k from st on: at least two records, the oldest two a SingleDelete d that
      a writer may conflict with and a Put at 0. */
  ghost predicate EndsInPair(c: Config, st: State, k: UserKey) {
    var h := History(st.rest, k);
    EndsAtZero(c, h) && |h| > 1 && h[|h| - 2].kind.SingleDelete? && h[|h| - 2].sn > c.writeConflict
  }

  ghost function LastSingleDelete(st: State, k: UserKey): Entry
    requires |History(st.rest, k)| > 1
  {
    History(st.rest, k)[|History(st.rest, k)| - 2]
  }

  /** A turn on k before d leaves the pair in place. */
  lemma PairStays(c: Config, st: State, b: seq<Entry>, k: UserKey)
    requires Ready(c, st, b, k, true) && st.rest != [] && st.rest[0].key == k && EndsInPair(c, st, k)
    requires st.rest[0] != LastSingleDelete(st, k)
    ensures var t := Step(c, st);
            && EndsInPair(c, t.next, k) && LastSingleDelete(t.next, k) == LastSingleDelete(st, k)
            && t.next.hasKey && t.next.key == k
            && |History(t.next.rest, k)| == |History(st.rest, k)| - Taken(st.rest, t)
            && st.rest[0].sn > c.writeConflict
  {
    hide Step, Stripe, Prev, Settings.NotNeeded, Settings.Bottommost, Settings.Valid;
    StepShape(c, st);
    AlternatingTurn(c, st, b, k);
    var t := Step(c, st);
    var n := Taken(st.rest, t);
    var h, g := History(st.rest, k), History(t.next.rest, k);
    HistoryConcat(t.next.rest, b, k);
    HistoryTaken(st.rest, n, k);
    assert h == st.rest[..n] + g && h[0] == st.rest[0];
    SortedHistoryDescends(st.rest, k);
    assert |h| > 2;
    if n == 2 {
      assert h[1] == st.rest[1];
    }
    assert |g| > 1;
    assert h[|h| - 2] == g[|g| - 2] && h[|h| - 1] == g[|g| - 1];
    var j := HistoryFrom(t.next.rest, k, 0);
    assert t.next.rest[0].key == k;
  }

  /** Until the pair is reached, the first turn on k outputs, and so does the next if that was
      the run's first output. */
  lemma TurnOutputs(c: Config, st: State, b: seq<Entry>, k: UserKey)
    requires Ready(c, st, b, k, true) && st.rest != [] && st.rest[0].key == k && EndsInPair(c, st, k)
    requires st.rest[0] != LastSingleDelete(st, k)
    ensures var t := Step(c, st);
            var was := st.hasKey && st.key == k && st.outputted;
            && (!was ==> t.output.Some? && Taken(st.rest, t) == 1 && !t.next.first)
            && t.next.outputted == (was || !st.first)
            && (!st.first ==> !t.next.first)
  {
    PairStays(c, st, b, k);
    AlternatingTurn(c, st, b, k);
    HistoryConcat(Step(c, st).next.rest, b, k);
    hide Stripe, Prev, Settings.Valid, Settings.NotBeyond, Settings.Bottommost, Settings.NotNeeded, SkipStripe,
         History, Inv, KeyUse;
  }

  /** Once inside k, past the run's first output. */
  lemma {:induction false} OutputInside(c: Config, st: State, b: seq<Entry>, k: UserKey)
    requires Ready(c, st, b, k, true) && EndsInPair(c, st, k) && !st.first && st.hasKey && st.key == k
    requires st.rest != [] && st.rest[0].key == k
    ensures OutputBefore(c, st, LastSingleDelete(st, k)) <==> st.outputted || |History(st.rest, k)| > 2
    decreases |st.rest|
  {
    hide Step, Ready;
    var d := LastSingleDelete(st, k);
    if st.rest[0] == d {
      OnlyPairLeft(c, st, b, k);
    } else {
      var next := Step(c, st).next;
      ReadyStep(c, st, b, k, true);
      PairStays(c, st, b, k);
      TurnOutputs(c, st, b, k);
      KeyInFront(c, next, b, k);
      OutputInside(c, next, b, k);
      MoreThanPair(c, st, b, k);
    }
  }

  lemma OnlyPairLeft(c: Config, st: State, b: seq<Entry>, k: UserKey)
    requires Ready(c, st, b, k, true) && EndsInPair(c, st, k) && st.rest != []
    requires st.rest[0] == LastSingleDelete(st, k)
    ensures |History(st.rest, k)| == 2
  {
    var h := History(st.rest, k);
    SortedHistoryDescends(st.rest, k);
    var i := HistoryFrom(st.rest, k, |h| - 2);
    HistoryTaken(st.rest, 1, k);
    assert h[0] == st.rest[0];
  }

  lemma MoreThanPair(c: Config, st: State, b: seq<Entry>, k: UserKey)
    requires Ready(c, st, b, k, true) && EndsInPair(c, st, k) && st.rest != []
    requires st.rest[0].key == k && st.rest[0] != LastSingleDelete(st, k)
    ensures |History(st.rest, k)| > 2
  {
    HistoryTaken(st.rest, 1, k);
    assert History(st.rest, k)[0] == st.rest[0];
  }

  lemma KeyInFront(c: Config, st: State, b: seq<Entry>, k: UserKey)
    requires Ready(c, st, b, k, true) && EndsInPair(c, st, k) && st.hasKey && st.key == k
    ensures st.rest != [] && st.rest[0].key == k
  {
    var i := HistoryFrom(st.rest, k, 0);
  }

  lemma HasSmallerCons(x: Entry, es: seq<Entry>, k: UserKey)
    ensures HasSmaller([x] + es, k) <==> x.key < k || HasSmaller(es, k)
  {
    var xs := [x] + es;
    assert xs[0] == x;
    if i :| 0 <= i < |es| && es[i].key < k {
      assert xs[i + 1] == es[i];
    }
  }

  lemma FirstAfter(c: Config, st: State)
    requires st.rest != []
    ensures Step(c, st).next.first == (st.first && Step(c, st).output.None?)
  {
    hide Stripe, Prev, Settings.Valid, Settings.NotBeyond, Settings.Bottommost, Settings.NotNeeded, SkipStripe;
  }

  lemma NoSmallerLeft(c: Config, st: State, k: UserKey)
    requires Sorted(st.rest) && st.rest != [] && st.rest[0].key >= k
    ensures !HasSmaller(Emit(c, st), k)
  {
    forall i | 0 <= i < |Emit(c, st)| ensures Emit(c, st)[i].key >= k {
      EmitFrom(c, st, i);
    }
  }

  /** Before k is reached. */
  lemma {:induction false} OutputAhead(c: Config, st: State, b: seq<Entry>, k: UserKey)
    requires Ready(c, st, b, k, true) && EndsInPair(c, st, k) && !(st.hasKey && st.key == k)
    ensures var n := |History(st.rest, k)|;
            OutputBefore(c, st, LastSingleDelete(st, k)) <==>
              n > 3 || (n == 3 && (!st.first || HasSmaller(Emit(c, st), k)))
    decreases |st.rest|
  {
    hide Step, Ready, HasSmaller, Emit;
    var d := LastSingleDelete(st, k);
    var next := Step(c, st).next;
    ReadyStep(c, st, b, k, true);
    if st.rest[0].key != k {
      PassTurn(c, st, b, k, true);
      PassTurnFirst(c, st, b, k);
      OutputAhead(c, next, b, k);
    } else if st.rest[0] == d {
      OnlyPairLeft(c, st, b, k);
    } else {
      PairStays(c, st, b, k);
      TurnOutputs(c, st, b, k);
      KeyInFront(c, next, b, k);
      OutputInside(c, next, b, k);
      ReadyIsInv(c, st, b, k, true);
      NoSmallerLeft(c, st, k);
      MoreThanPair(c, st, b, k);
    }
  }

  lemma PassTurnFirst(c: Config, st: State, b: seq<Entry>, k: UserKey)
    requires Ready(c, st, b, k, true) && EndsInPair(c, st, k) && st.rest != [] && st.rest[0].key != k
    ensures var next := Step(c, st).next;
            && !(next.hasKey && next.key == k)
            && ((!st.first || HasSmaller(Emit(c, st), k)) <==> (!next.first || HasSmaller(Emit(c, next), k)))
            && LastSingleDelete(st, k) != st.rest[0]
  {
    hide Step, HasSmaller, Emit, Stripe, Prev;
    StepShape(c, st);
    FirstAfter(c, st);
    EmitUnfold(c, st);
    var t := Step(c, st);
    if t.output.Some? {
      HasSmallerCons(Prepare(c, t.output.value), Emit(c, t.next), k);
    }
    HistoryKeys(st.rest, k);
    var i := HistoryFrom(st.rest, k, 0);
    assert st.rest[0].key < k;
  }

  // ---- the theorems -----------------------------------------------------------------------------

  lemma KeptIff(c: Config, input: seq<Entry>, b: seq<Entry>, k: UserKey, alt: bool)
    requires Job(c, input, b) && KeyUse(History(input + b, k), alt)
    ensures ZeroKept(c, Start(input), k) <==> !ZeroLost(c, input, k)
  {
    hide Emit, Job, ZeroKept, OutputBefore, Settings.NotNeeded, Settings.Bottommost, Settings.Valid;
    StartReady(c, input, b, k, alt);
    var h := History(input, k);
    var st := Start(input);
    HistoryConcat(input, b, k);
    assert forall i | 0 <= i < |h| :: History(input + b, k)[i] == h[i];
    if alt {
      KeptIffAlternating(c, st, b, k);
      if EndsInPair(c, st, k) {
        OutputAhead(c, st, b, k);
      }
    } else {
      KeptIffPlain(c, st, b, k);
    }
  }

  /** All live reads of k survive a compaction or flush exactly when no Put at 0 is lost. */
  lemma LiveReadsSurviveIff(c: Config, input: seq<Entry>, b: seq<Entry>, k: UserKey, alt: bool)
    requires Job(c, input, b) && KeyUse(History(input + b, k), alt)
    ensures (forall s | c.Live(s) :: Read(Compacted(c, input), b, k, s) == Read(input, b, k, s)) <==>
            !ZeroLost(c, input, k)
  {
    hide *;
    KeptIff(c, input, b, k, alt);
    ReadsIffKept(c, input, b, k, alt);
  }

  ghost predicate NewestIsZeroPut(input: seq<Entry>, k: UserKey, i: nat)
    requires i < |input|
  {
    ZeroPut(input[i], k) && forall j | 0 <= j < i :: input[j].key != k
  }

  /** A flush of Puts and Deletes loses a read only where the newest record of the key is a
      Put at 0 under a snapshot at 0. */
  lemma FlushKeepsReadsIff(c: Config, input: seq<Entry>, b: seq<Entry>, k: UserKey)
    requires Job(c, input, b) && KeyUse(History(input + b, k), false) && c.compaction.None?
    ensures (forall s | c.Live(s) :: Read(Compacted(c, input), b, k, s) == Read(input, b, k, s)) <==>
            !(0 in c.snapshots && exists i :: 0 <= i < |input| && NewestIsZeroPut(input, k, i))
  {
    hide Emit, Job, Read;
    LiveReadsSurviveIff(c, input, b, k, false);
    FlushLoses(c, input, b, k);
  }

  lemma FlushLoses(c: Config, input: seq<Entry>, b: seq<Entry>, k: UserKey)
    requires Job(c, input, b) && KeyUse(History(input + b, k), false) && c.compaction.None?
    ensures ZeroLost(c, input, k) <==> 0 in c.snapshots && exists i :: 0 <= i < |input| && NewestIsZeroPut(input, k, i)
  {
    hide Emit;
    var h := History(input, k);
    HistoryConcat(input, b, k);
    assert forall i | 0 <= i < |h| :: History(input + b, k)[i] == h[i];
    if EndsAtZero(c, h) && |h| == 1 {
      var i := HistoryFrom(input, k, 0);
      FirstOfHistory(input, k, i);
      assert NewestIsZeroPut(input, k, i);
    }
    assert !c.Bottommost() && !Swallowed(c, input, k);
    if i :| 0 <= i < |input| && NewestIsZeroPut(input, k, i) {
      StartReady(c, input, b, k, false);
      ZeroIsLast(c, Start(input), b, k, false, i);
      OnlyOne(input, k, i);
    }
  }

  lemma FirstOfHistory(input: seq<Entry>, k: UserKey, i: nat)
    requires Sorted(input) && i < |input| && History(input, k) == [input[i]]
    ensures forall j | 0 <= j < i :: input[j].key != k
  {
    forall j | 0 <= j < i ensures input[j].key != k {
      assert Before(input[j], input[i]);
      if input[j].key == k {
        HistoryIn(input, k, j);
      }
    }
  }

  lemma OnlyOne(input: seq<Entry>, k: UserKey, i: nat)
    requires i < |input| && input[i].key == k && (forall j | 0 <= j < i :: input[j].key != k)
    requires NoKey(input[i + 1..], k)
    ensures History(input, k) == [input[i]]
  {
    HistoryPassed(input, i, k);
    HistoryTaken(input[i..], 1, k);
    assert input[i..][1..] == input[i + 1..];
    HistoryNoKey(input[i + 1..], k);
  }

  /** Every read at a live snapshot or at the tip gives the same answer before and after. */
  lemma CompactionPreservesReads(c: Config, input: seq<Entry>, b: seq<Entry>, k: UserKey, s: nat, alt: bool)
    requires Job(c, input, b) && c.Live(s) && KeyUse(History(input + b, k), alt) && !ZeroLost(c, input, k)
    ensures Read(Compacted(c, input), b, k, s) == Read(input, b, k, s)
  {
    hide *;
    LiveReadsSurviveIff(c, input, b, k, alt);
  }

  // ---- the limits, at concrete inputs --------------------------------------------------------

  const ZERO_ONLY: seq<nat> := [0]

  /** A newer Put protects the one at 0: a flush of both loses nothing. */
  lemma NewerPutProtects()
    ensures var input := [Entry(1, 5, Put, "new"), Entry(1, 0, Put, "old")];
            Compacted(Settings(ZERO_ONLY, 0, None, 0), input) == input
  {
  }

  /** A SingleDelete does not: a flush drops the pair, or keeps it without the value. */
  lemma SingleDeleteTakesPutAtZero()
    ensures var input := [Entry(1, 5, SingleDelete, ""), Entry(1, 0, Put, "old")];
            && Read(input, [], 1, 0) == Some("old")
            && Read(Compacted(Settings(ZERO_ONLY, 5, None, 0), input), [], 1, 0) == None
            && Read(Compacted(Settings(ZERO_ONLY, 0, None, 0), input), [], 1, 0) == Some("")
  {
  }

  /** Nor does a Delete, where nothing lies below the output level. */
  lemma BottommostDeleteTakesPutAtZero()
    ensures var input := [Entry(1, 5, Delete, ""), Entry(1, 0, Put, "old")];
            var c := Settings(ZERO_ONLY, 0, Some(Compaction(true, 1, [[], []], 0, 0, 9, false, false)), 0);
            && Read(input, [], 1, 0) == Some("old")
            && Compacted(c, input) == []
  {
  }

  /** A SingleDelete above a Delete at 0, which no correct use of the key writes, makes the
      run squash a Delete. */
  lemma MixedKeySquashesDelete()
    ensures var input := [Entry(1, 5, SingleDelete, ""), Entry(1, 0, Delete, "")];
            var c := Settings(ZERO_ONLY, 0, Some(Compaction(true, 1, [[], []], 0, 0, 9, false, false)), 0);
            MixedAtZero(c, input) && !OnlyPutsSquashed(c, Start(input))
  {
    var input := [Entry(1, 5, SingleDelete, ""), Entry(1, 0, Delete, "")];
    assert input[0].key == input[1].key;
  }
}
