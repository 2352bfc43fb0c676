/** Splitting a compaction by key range (db/compaction_job.cc): what each
    subcompaction writes, and why the split cannot be seen from outside. */
module Subcompactions {
  import opened Wrappers
  import opened Lsm
  import opened LevelCursors
  import opened CompactionRules
  import opened CompactionIteration
  import opened CompactionReads
  import opened LiveReads

  // ---- one key range --------------------------------------------------------

  predicate AtOrAfter(k: UserKey, start: Option<UserKey>) {
    start.Some? ==> start.value <= k
  }

  predicate Below(k: UserKey, end: Option<UserKey>) {
    end.Some? ==> k < end.value
  }

  /** Index of the first record, from i on, at or after start. */
  function SeekIndex(input: seq<Entry>, start: Option<UserKey>, i: nat): (p: nat)
    requires i <= |input|
    ensures i <= p <= |input|
    ensures p < |input| ==> AtOrAfter(input[p].key, start)
    ensures forall j | i <= j < p :: !AtOrAfter(input[j].key, start)
    decreases |input| - i
  {
    if i == |input| || AtOrAfter(input[i].key, start) then i else SeekIndex(input, start, i + 1)
  }

  function SeekTo(input: seq<Entry>, start: Option<UserKey>): seq<Entry> {
    input[SeekIndex(input, start, 0)..]
  }

  /** Output up to the first record at or beyond end. */
  function TakeBelow(out: seq<Entry>, end: Option<UserKey>): seq<Entry> {
    if out == [] || !Below(out[0].key, end) then [] else [out[0]] + TakeBelow(out[1..], end)
  }

  function SubOutput(c: Config, input: seq<Entry>, start: Option<UserKey>, end: Option<UserKey>): seq<Entry> {
    TakeBelow(Compacted(c, SeekTo(input, start)), end)
  }

  /** The key loop of ProcessKeyValueCompaction: the iterator runs on past the
      end of the range, and the loop stops it. */
  method ProcessKeyValueCompaction(c: Config, input: Stream, start: Option<UserKey>, end: Option<UserKey>)
    returns (out: seq<Entry>)
    ensures out == SubOutput(c, input, start, end)
  {
    hide Emit, TakeBelow, CursorsBehind, SeekTo, SeekIndex, Settings.Valid, CompactionIterator.Remaining;
    SeekAscends(input, start);
    var sub: Stream := SeekTo(input, start);
    var it := new CompactionIterator(c, sub);
    it.SeekToFirst();
    out := [];
    ghost var more := if it.valid then [it.ikey] + it.Remaining() else [];
    while it.valid
      invariant it.Valid() && it.c == c && fresh(it) && fresh(it.levelPtrs)
      invariant more == if it.valid then [it.ikey] + it.Remaining() else []
      invariant Compacted(c, sub) == out + more
      invariant forall i | 0 <= i < |out| :: Below(out[i].key, end)
      decreases |more|
    {
      if end.Some? && it.ikey.key >= end.value {
        break;
      }
      MoveOne(out, it.ikey, it.Remaining(), end);
      out := out + [it.ikey];
      it.Next();
      more := more[1..];
    }
    TakeBelowSplit(out, more, end);
  }

  lemma MoveOne(out: seq<Entry>, x: Entry, rest: seq<Entry>, end: Option<UserKey>)
    requires (forall i | 0 <= i < |out| :: Below(out[i].key, end)) && Below(x.key, end)
    ensures out + ([x] + rest) == (out + [x]) + rest && ([x] + rest)[1..] == rest
    ensures forall i | 0 <= i < |out + [x]| :: Below((out + [x])[i].key, end)
  {
  }

  lemma SeekAscends(input: Stream, start: Option<UserKey>)
    ensures KeysAscend(SeekTo(input, start))
  {
  }

  lemma {:induction false} TakeBelowSplit(a: seq<Entry>, b: seq<Entry>, end: Option<UserKey>)
    requires forall i | 0 <= i < |a| :: Below(a[i].key, end)
    requires b == [] || !Below(b[0].key, end)
    ensures TakeBelow(a + b, end) == a
  {
    if a == [] {
      assert a + b == b;
    } else {
      assert (a + b)[1..] == a[1..] + b;
      TakeBelowSplit(a[1..], b, end);
    }
  }

  // ---- key ranges do not interact --------------------------------------------

  predicate NoSingleDeletes(es: seq<Entry>) {
    forall i | 0 <= i < |es| :: !es[i].kind.SingleDelete?
  }

  lemma BottomDeleteSame(st1: State, st2: State, prev: nat)
    requires st1.rest == st2.rest != []
    ensures var t1, t2 := BottomDeleteTurn(st1, prev), BottomDeleteTurn(st2, prev);
            && t1.output == t2.output && t1.next.rest == t2.next.rest
            && t1.next.clear == st1.clear && t2.next.clear == st2.clear
            && t1.next.hasKey == st1.hasKey && t2.next.hasKey == st2.hasKey
            && t1.next.key == st1.key && t2.next.key == st2.key && t1.next.stripe == st1.stripe &&
               t2.next.stripe == st2.stripe
  {
    hide SkipStripe;
  }

  lemma StepSame(c: Config, st1: State, st2: State)
    requires st1.rest == st2.rest != [] && !st1.rest[0].kind.SingleDelete? && !st1.clear && !st2.clear
    requires LastStripe(st1) == LastStripe(st2)
    ensures var t1, t2 := Step(c, st1), Step(c, st2);
            && t1.output == t2.output && t1.next.rest == t2.next.rest && !t1.next.clear && !t2.next.clear
            && t1.next.hasKey && t2.next.hasKey && t1.next.key == t2.next.key && t1.next.stripe == t2.next.stripe
  {
    hide Stripe, Prev, SingleDeleteTurn, BottomDeleteTurn, Settings.Valid, Settings.NotBeyond, Settings.Bottommost,
         Settings.Earliest;
    BottomDeleteSame(Arrive(c, st1), Arrive(c, st2), Prev(c.snapshots, st1.rest[0].sn));
  }

  /** Without SingleDeletes the only memory that matters is the stripe of the
      current user key. */
  lemma {:induction false} EmitSame(c: Config, st1: State, st2: State)
    requires st1.rest == st2.rest && NoSingleDeletes(st1.rest) && !st1.clear && !st2.clear
    requires st1.rest == [] || LastStripe(st1) == LastStripe(st2)
    ensures Emit(c, st1) == Emit(c, st2)
    decreases |st1.rest|
  {
    hide Step, Settings.Valid;
    if st1.rest != [] {
      StepSame(c, st1, st2);
      StepShape(c, st1);
      EmitSame(c, Step(c, st1).next, Step(c, st2).next);
    }
  }

  lemma {:induction false} SkipStripeAppend(a: seq<Entry>, b: seq<Entry>, i: nat, k: UserKey, prev: nat)
    requires i <= |a| && NoKey(b, k)
    ensures SkipStripe(a + b, i, k, prev) == SkipStripe(a, i, k, prev)
    decreases |a| - i
  {
    if i < |a| {
      SkipStripeAppend(a, b, i + 1, k, prev);
    } else if b != [] {
      assert (a + b)[i] == b[0];
    }
  }

  ghost predicate KeysBelow(a: seq<Entry>, b: seq<Entry>) {
    forall i, j | 0 <= i < |a| && 0 <= j < |b| :: a[i].key < b[j].key
  }

  lemma AppendAt(a: seq<Entry>, b: seq<Entry>, n: nat)
    requires n <= |a|
    ensures (a + b)[n..] == a[n..] + b
    ensures n < |a| ==> (a + b)[n] == a[n]
    ensures n == |a| && b != [] ==> (a + b)[n] == b[0]
  {
  }

  lemma FirstBelow(a: seq<Entry>, b: seq<Entry>)
    requires a != [] && KeysBelow(a, b)
    ensures NoKey(b, a[0].key) && (b != [] ==> b[0].key != a[0].key)
  {
  }

  lemma BottomDeleteAppend(st: State, b: seq<Entry>, prev: nat)
    requires st.rest != [] && KeysBelow(st.rest, b)
    ensures var t := BottomDeleteTurn(st, prev);
            BottomDeleteTurn(st.(rest := st.rest + b), prev) == t.(next := t.next.(rest := t.next.rest + b))
  {
    hide KeysBelow, NoKey, SkipStripe;
    var e, whole := st.rest[0], st.rest + b;
    FirstBelow(st.rest, b);
    SkipStripeAppend(st.rest, b, 1, e.key, prev);
    AppendAt(st.rest, b, SkipStripe(st.rest, 1, e.key, prev));
    assert whole[0] == e;
  }

  /** One turn does not notice records of larger user keys behind its input. */
  lemma StepAppend(c: Config, st: State, b: seq<Entry>)
    requires st.rest != [] && !st.clear && !st.rest[0].kind.SingleDelete? && KeysBelow(st.rest, b)
    ensures var t := Step(c, st);
            Step(c, st.(rest := st.rest + b)) == t.(next := t.next.(rest := t.next.rest + b))
  {
    hide Stripe, Prev, SingleDeleteTurn, BottomDeleteTurn, KeysBelow, Settings.Valid, Settings.NotBeyond,
         Settings.Bottommost, Settings.Earliest;
    var e := st.rest[0];
    BottomDeleteAppend(Arrive(c, st), b, Prev(c.snapshots, e.sn));
    assert (st.rest + b)[1..] == st.rest[1..] + b;
  }

  lemma {:induction false} EmitAppend(c: Config, st: State, b: seq<Entry>)
    requires NoSingleDeletes(st.rest) && NoSingleDeletes(b) && !st.clear && KeysBelow(st.rest, b)
    requires st.hasKey ==> NoKey(b, st.key)
    ensures Emit(c, st.(rest := st.rest + b)) == Emit(c, st) + Compacted(c, b)
    decreases |st.rest|
  {
    hide Step, Settings.Valid;
    if st.rest == [] {
      assert st.rest + b == b;
      EmitSame(c, st.(rest := b), Start(b));
    } else {
      var next := Step(c, st).next;
      StepAppend(c, st, b);
      StepShape(c, st);
      EmitUnfold(c, st);
      EmitUnfold(c, st.(rest := st.rest + b));
      NoClearWithoutSingleDelete(c, st);
      EmitAppend(c, next, b);
    }
  }

  lemma NoClearWithoutSingleDelete(c: Config, st: State)
    requires st.rest != [] && !st.clear && !st.rest[0].kind.SingleDelete?
    ensures !Step(c, st).next.clear
  {
  }

  lemma CompactedAppend(c: Config, a: seq<Entry>, b: seq<Entry>)
    requires NoSingleDeletes(a) && NoSingleDeletes(b) && KeysBelow(a, b)
    ensures Compacted(c, a + b) == Compacted(c, a) + Compacted(c, b)
  {
    EmitAppend(c, Start(a), b);
  }

  function GroupLength(input: seq<Entry>, i: nat): (n: nat)
    requires 0 < i <= |input|
    ensures i <= n <= |input|
    ensures forall j | i <= j < n :: input[j].key == input[0].key
    ensures n < |input| ==> input[n].key != input[0].key
    decreases |input| - i
  {
    if i < |input| && input[i].key == input[0].key then GroupLength(input, i + 1) else i
  }

  /** Each user key compacted on its own. */
  function ByUserKey(c: Config, input: seq<Entry>): seq<Entry> {
    if input == [] then []
    else
      var n := GroupLength(input, 1);
      Compacted(c, input[..n]) + ByUserKey(c, input[n..])
  }

  /** On Puts and Deletes the iterator treats every user key independently. */
  lemma {:induction false} CompactionIsPerUserKey(c: Config, input: seq<Entry>)
    requires Sorted(input) && NoSingleDeletes(input)
    ensures Compacted(c, input) == ByUserKey(c, input)
  {
    hide Emit;
    if input == [] {
      EmptyRun(c);
    } else {
      var n := GroupLength(input, 1);
      assert input == input[..n] + input[n..];
      CompactedAppend(c, input[..n], input[n..]);
      CompactionIsPerUserKey(c, input[n..]);
    }
  }

  lemma EmptyRun(c: Config)
    ensures Compacted(c, []) == []
  {
  }

  // ---- the whole split --------------------------------------------------------

  /** Start and end of subcompaction i, as Prepare hands them out. */
  function StartOf(bounds: seq<UserKey>, i: nat): Option<UserKey>
    requires i <= |bounds|
  {
    if i == 0 then None else Some(bounds[i - 1])
  }

  function EndOf(bounds: seq<UserKey>, i: nat): Option<UserKey>
    requires i <= |bounds|
  {
    if i == |bounds| then None else Some(bounds[i])
  }

  /** The outputs of subcompactions i, i + 1, ... in order. */
  function SplitOutput(c: Config, input: seq<Entry>, bounds: seq<UserKey>, i: nat): seq<Entry>
    requires i <= |bounds|
    decreases |bounds| - i
  {
    SubOutput(c, input, StartOf(bounds, i), EndOf(bounds, i))
    + if i < |bounds| then SplitOutput(c, input, bounds, i + 1) else []
  }

  ghost predicate StrictlyIncreasing(ks: seq<UserKey>) {
    forall i, j | 0 <= i < j < |ks| :: ks[i] < ks[j]
  }

  lemma SeekIndexFurther(input: seq<Entry>, start: Option<UserKey>, k: UserKey)
    requires Sorted(input) && (start.Some? ==> start.value < k)
    ensures var p, q := SeekIndex(input, start, 0), SeekIndex(input, Some(k), 0);
            && p <= q
            && (forall i | p <= i < q :: input[i].key < k)
            && (forall i | q <= i < |input| :: k <= input[i].key)
  {
    hide SeekIndex;
    var p, q := SeekIndex(input, start, 0), SeekIndex(input, Some(k), 0);
    assert q < p ==> AtOrAfter(input[q].key, start);
    forall i | q <= i < |input| ensures k <= input[i].key {
      assert i > q ==> Before(input[q], input[i]);
    }
  }

  lemma SliceKeys(input: seq<Entry>, p: nat, q: nat, k: UserKey)
    requires p <= q <= |input|
    requires (forall i | p <= i < q :: input[i].key < k) && (forall i | q <= i < |input| :: k <= input[i].key)
    ensures input[p..] == input[p..q] + input[q..] && input[p..][..q - p] == input[p..q]
    ensures forall i | 0 <= i < q - p :: input[p..][i].key < k
    ensures forall i | 0 <= i < |input| - q :: k <= input[q..][i].key
  {
  }

  /** Seeking further: the part that is passed over lies below the new start. */
  lemma SeekFurther(input: seq<Entry>, start: Option<UserKey>, k: UserKey)
    requires Sorted(input) && (start.Some? ==> start.value < k)
    ensures var x := SeekTo(input, start);
            var y := SeekTo(input, Some(k));
            && |y| <= |x| && x == x[..|x| - |y|] + y
            && (forall i | 0 <= i < |x| - |y| :: x[i].key < k)
            && (forall i | 0 <= i < |y| :: k <= y[i].key)
  {
    hide SeekIndex, Sorted;
    SeekIndexFurther(input, start, k);
    SliceKeys(input, SeekIndex(input, start, 0), SeekIndex(input, Some(k), 0), k);
  }

  lemma {:induction false} TakeAll(out: seq<Entry>)
    ensures TakeBelow(out, None) == out
  {
    if out != [] {
      TakeAll(out[1..]);
    }
  }

  lemma CompactedKeys(c: Config, input: seq<Entry>, j: nat)
    requires j < |Compacted(c, input)|
    ensures exists i :: 0 <= i < |input| && input[i].key == Compacted(c, input)[j].key
  {
    EmitFrom(c, Start(input), j);
  }

  /** Cutting the output off at a key is compacting what lies below it. */
  lemma CutAtKey(c: Config, a: seq<Entry>, y: seq<Entry>, k: UserKey)
    requires (forall j | 0 <= j < |a| :: a[j].key < k) && (forall j | 0 <= j < |y| :: k <= y[j].key)
    ensures TakeBelow(Compacted(c, a) + Compacted(c, y), Some(k)) == Compacted(c, a)
  {
    hide Emit, TakeBelow, Settings.Valid;
    forall j | 0 <= j < |Compacted(c, a)| ensures Compacted(c, a)[j].key < k {
      CompactedKeys(c, a, j);
    }
    if Compacted(c, y) != [] {
      CompactedKeys(c, y, 0);
    }
    TakeBelowSplit(Compacted(c, a), Compacted(c, y), Some(k));
  }

  lemma AppendPuts(c: Config, x: seq<Entry>, y: seq<Entry>, k: UserKey)
    requires NoSingleDeletes(x) && |y| <= |x| && x == x[..|x| - |y|] + y
    requires (forall j | 0 <= j < |x| - |y| :: x[j].key < k) && (forall j | 0 <= j < |y| :: k <= y[j].key)
    ensures TakeBelow(Compacted(c, x), Some(k)) + Compacted(c, y) == Compacted(c, x)
  {
    hide Emit, TakeBelow, Settings.Valid;
    var a := x[..|x| - |y|];
    assert forall j | 0 <= j < |y| :: y[j] == x[|x| - |y| + j];
    CompactedAppend(c, a, y);
    CutAtKey(c, a, y, k);
  }

  /** On Puts and Deletes, any split writes exactly what one run would write. */
  lemma {:induction false} SplitIsInvisible(c: Config, input: seq<Entry>, bounds: seq<UserKey>, i: nat)
    requires Sorted(input) && NoSingleDeletes(input) && StrictlyIncreasing(bounds) && i <= |bounds|
    ensures SplitOutput(c, input, bounds, i) == Compacted(c, SeekTo(input, StartOf(bounds, i)))
    decreases |bounds| - i
  {
    hide Emit, TakeBelow, SeekIndex, Compacted, Settings.Valid;
    var x := SeekTo(input, StartOf(bounds, i));
    if i == |bounds| {
      TakeAll(Compacted(c, x));
    } else {
      SplitIsInvisible(c, input, bounds, i + 1);
      SeekFurther(input, StartOf(bounds, i), bounds[i]);
      AppendPuts(c, x, SeekTo(input, Some(bounds[i])), bounds[i]);
    }
  }

  /** All subcompactions of a job, their outputs taken in key order. */
  method RunSubcompactions(c: Config, input: Stream, bounds: seq<UserKey>) returns (out: seq<Entry>)
    ensures out == SplitOutput(c, input, bounds, 0)
  {
    hide SubOutput, SplitOutput, Settings.Valid, KeysAscend;
    out := [];
    ghost var total := SplitOutput(c, input, bounds, 0);
    for i := 0 to |bounds|
      invariant total == out + SplitOutput(c, input, bounds, i)
    {
      SplitUnfold(c, input, bounds, i);
      var part := ProcessKeyValueCompaction(c, input, StartOf(bounds, i), EndOf(bounds, i));
      Reassociate(out, part, SplitOutput(c, input, bounds, i + 1));
      out := out + part;
    }
    SplitUnfold(c, input, bounds, |bounds|);
    var part := ProcessKeyValueCompaction(c, input, StartOf(bounds, |bounds|), EndOf(bounds, |bounds|));
    out := out + part;
  }

  lemma SplitUnfold(c: Config, input: seq<Entry>, bounds: seq<UserKey>, i: nat)
    requires i <= |bounds|
    ensures SplitOutput(c, input, bounds, i) ==
            SubOutput(c, input, StartOf(bounds, i), EndOf(bounds, i))
            + if i < |bounds| then SplitOutput(c, input, bounds, i + 1) else []
  {
  }

  lemma Reassociate(a: seq<Entry>, b: seq<Entry>, c: seq<Entry>)
    ensures a + (b + c) == (a + b) + c
  {
  }

  lemma {:induction false} LookTakeBelow(out: seq<Entry>, end: Option<UserKey>, k: UserKey, s: nat)
    requires KeysAscend(out) && Below(k, end)
    ensures Look(TakeBelow(out, end), k, s) == Look(out, k, s)
  {
    if out != [] {
      if Below(out[0].key, end) {
        LookTakeBelow(out[1..], end, k, s);
        assert ([out[0]] + TakeBelow(out[1..], end))[1..] == TakeBelow(out[1..], end);
      } else {
        assert forall i | 0 <= i < |out| :: out[0].key <= out[i].key;
        LookNoKey(out, k, s);
      }
    }
  }

  lemma {:induction false} TakeBelowBounds(out: seq<Entry>, end: Option<UserKey>)
    ensures TakeBelow(out, end) <= out
    ensures forall i | 0 <= i < |TakeBelow(out, end)| :: Below(TakeBelow(out, end)[i].key, end)
  {
    if out != [] && Below(out[0].key, end) {
      TakeBelowBounds(out[1..], end);
    }
  }

  /** Later subcompactions only write keys at or after their own start. */
  lemma {:induction false} SplitKeys(c: Config, input: seq<Entry>, bounds: seq<UserKey>, i: nat)
    requires Sorted(input) && StrictlyIncreasing(bounds) && 0 < i <= |bounds|
    ensures forall j | 0 <= j < |SplitOutput(c, input, bounds, i)| ::
              bounds[i - 1] <= SplitOutput(c, input, bounds, i)[j].key
    decreases |bounds| - i
  {
    hide Emit, TakeBelow, SeekIndex, Settings.Valid;
    var x := SeekTo(input, StartOf(bounds, i));
    var part := TakeBelow(Compacted(c, x), EndOf(bounds, i));
    TakeBelowBounds(Compacted(c, x), EndOf(bounds, i));
    SeekFurther(input, None, bounds[i - 1]);
    forall j | 0 <= j < |part| ensures bounds[i - 1] <= part[j].key {
      assert part[j] == Compacted(c, x)[j];
      CompactedKeys(c, x, j);
    }
    if i < |bounds| {
      SplitKeys(c, input, bounds, i + 1);
    }
  }

  lemma SuffixJob(c: Config, input: seq<Entry>, b: seq<Entry>, n: nat)
    requires Job(c, input, b) && n <= |input|
    ensures Job(c, input[n..], b)
  {
    hide Compaction.Below, Settings.Valid;
    assert forall i | 0 <= i < |input[n..]| :: input[n..][i] == input[n + i];
  }

  /** The subcompaction, counting from i, that k belongs to. */
  function Owner(bounds: seq<UserKey>, i: nat, k: UserKey): (j: nat)
    requires i <= |bounds|
    ensures i <= j <= |bounds|
    decreases |bounds| - i
  {
    if i < |bounds| && bounds[i] <= k then Owner(bounds, i + 1, k) else i
  }

  /** What the subcompaction that k belongs to reads. */
  function OwnInput(input: seq<Entry>, bounds: seq<UserKey>, k: UserKey): seq<Entry> {
    SeekTo(input, StartOf(bounds, Owner(bounds, 0, k)))
  }

  lemma OwnPieceReads(out: seq<Entry>, end: Option<UserKey>, later: seq<Entry>, b: seq<Entry>, k: UserKey, s: nat)
    requires Sorted(out) && Below(k, end) && NoKey(later, k)
    ensures Read(TakeBelow(out, end) + later, b, k, s) == Read(out, b, k, s)
  {
    hide TakeBelow, Look;
    LookTakeBelow(out, end, k, s);
    LookConcat(TakeBelow(out, end), later, k, s);
    LookNoKey(later, k, s);
  }

  lemma OtherPieceReads(out: seq<Entry>, end: Option<UserKey>, later: seq<Entry>, b: seq<Entry>, k: UserKey, s: nat)
    requires !Below(k, end)
    ensures Read(TakeBelow(out, end) + later, b, k, s) == Read(later, b, k, s)
  {
    hide TakeBelow, Look;
    TakeBelowBounds(out, end);
    LookConcat(TakeBelow(out, end), later, k, s);
    LookNoKey(TakeBelow(out, end), k, s);
  }

  /** From subcompaction i on, the combined output reads like the output of the one that k
      belongs to. */
  lemma {:induction false} SplitReadsAsOwner(c: Config, input: seq<Entry>, b: seq<Entry>, bounds: seq<UserKey>, i: nat,
                                             k: UserKey, s: nat)
    requires Job(c, input, b) && StrictlyIncreasing(bounds) && i <= |bounds|
    ensures Read(SplitOutput(c, input, bounds, i), b, k, s) ==
            Read(Compacted(c, SeekTo(input, StartOf(bounds, Owner(bounds, i, k)))), b, k, s)
    decreases |bounds| - i
  {
    hide Emit, TakeBelow, SeekIndex, Job, Settings.Valid, Read, Compacted;
    JobSorted(c, input, b);
    var end := EndOf(bounds, i);
    var x := SeekTo(input, StartOf(bounds, i));
    SuffixJob(c, input, b, SeekIndex(input, StartOf(bounds, i), 0));
    CompactionOutputSorted(c, x, b);
    var later := if i < |bounds| then SplitOutput(c, input, bounds, i + 1) else [];
    if Below(k, end) {
      if i < |bounds| {
        SplitKeys(c, input, bounds, i + 1);
      }
      OwnPieceReads(Compacted(c, x), end, later, b, k, s);
    } else {
      OtherPieceReads(Compacted(c, x), end, later, b, k, s);
      SplitReadsAsOwner(c, input, b, bounds, i + 1, k, s);
    }
  }

  lemma JobSorted(c: Config, input: seq<Entry>, b: seq<Entry>)
    requires Job(c, input, b)
    ensures Sorted(input)
  {
  }

  lemma {:induction false} OwnerStart(bounds: seq<UserKey>, i: nat, k: UserKey)
    requires i <= |bounds| && AtOrAfter(k, StartOf(bounds, i))
    ensures AtOrAfter(k, StartOf(bounds, Owner(bounds, i, k)))
    decreases |bounds| - i
  {
    if i < |bounds| && bounds[i] <= k {
      OwnerStart(bounds, i + 1, k);
    }
  }

  /** The owner sees everything the job has on k. */
  lemma OwnInputIsAll(c: Config, input: seq<Entry>, b: seq<Entry>, bounds: seq<UserKey>, k: UserKey, s: nat)
    requires Job(c, input, b)
    ensures var x := OwnInput(input, bounds, k);
            && Job(c, x, b) && History(x + b, k) == History(input + b, k)
            && Read(x, b, k, s) == Read(input, b, k, s)
  {
    hide Job, SeekIndex, Settings.Valid;
    JobSorted(c, input, b);
    OwnerStart(bounds, 0, k);
    var p := SeekIndex(input, StartOf(bounds, Owner(bounds, 0, k)), 0);
    SuffixJob(c, input, b, p);
    HistoryPass(input, p, b, k);
    ReadSkip(input, p, b, k, s);
  }

  /** However a job is split, every live read of the combined output is the read of the
      input, SingleDeletes included, exactly when the subcompaction that k belongs to loses
      no Put at 0. */
  lemma SplitReadsSurviveIff(c: Config, input: seq<Entry>, b: seq<Entry>, bounds: seq<UserKey>, k: UserKey, alt: bool)
    requires Job(c, input, b) && StrictlyIncreasing(bounds) && KeyUse(History(input + b, k), alt)
    ensures (forall s | c.Live(s) :: Read(SplitOutput(c, input, bounds, 0), b, k, s) == Read(input, b, k, s)) <==>
            !ZeroLost(c, OwnInput(input, bounds, k), k)
  {
    hide Emit, Job, KeyUse, Read, SplitOutput, ZeroLost, SeekIndex, Settings.Valid;
    var x := OwnInput(input, bounds, k);
    OwnInputIsAll(c, input, b, bounds, k, 0);
    LiveReadsSurviveIff(c, x, b, k, alt);
    forall s ensures Read(SplitOutput(c, input, bounds, 0), b, k, s) == Read(Compacted(c, x), b, k, s)
             ensures Read(x, b, k, s) == Read(input, b, k, s) {
      SplitReadsAsOwner(c, input, b, bounds, 0, k, s);
      OwnInputIsAll(c, input, b, bounds, k, s);
    }
  }

  /** Every live read survives every split in which the subcompaction that k belongs to loses
      no Put at 0. */
  lemma SplitPreservesReads(c: Config, input: seq<Entry>, b: seq<Entry>, bounds: seq<UserKey>, k: UserKey, s: nat,
                            alt: bool)
    requires Job(c, input, b) && c.Live(s) && StrictlyIncreasing(bounds) && KeyUse(History(input + b, k), alt)
    requires !ZeroLost(c, OwnInput(input, bounds, k), k)
    ensures Read(SplitOutput(c, input, bounds, 0), b, k, s) == Read(input, b, k, s)
  {
    hide *;
    SplitReadsSurviveIff(c, input, b, bounds, k, alt);
  }
}
