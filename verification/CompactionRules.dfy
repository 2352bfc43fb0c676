/** The record-by-record rules of CompactionIterator as pure functions: what one
    turn of NextFromInput's loop does, and the output a whole run produces. */
module CompactionRules {
  import opened Wrappers
  import opened Lsm
  import opened LevelCursors

  datatype Settings = Settings(
    snapshots: seq<nat>,
    writeConflict: nat,               // earliest_write_conflict_snapshot_
    compaction: Option<Compaction>,   // None during a flush
    preserveDeletesSeqnum: nat)
  {
    ghost predicate Valid() {
      && (forall i, j | 0 <= i < j < |snapshots| :: snapshots[i] <= snapshots[j])
      && (forall i | 0 <= i < |snapshots| :: snapshots[i] <= MAX_SEQUENCE)
      && (compaction.Some? ==> compaction.value.Valid())
    }

    predicate LevelsExist() {
      compaction.Some? ==> compaction.value.outputLevel < |compaction.value.levels|
    }

    function Earliest(): nat {
      if snapshots == [] then MAX_SEQUENCE else snapshots[0]
    }

    /** A point in time some reader may still use. */
    predicate Live(s: nat) {
      s in snapshots || s == MAX_SEQUENCE
    }

    predicate Bottommost()
      requires LevelsExist()
    {
      compaction.Some? && compaction.value.Bottommost()
    }

    predicate NotBeyond(k: UserKey)
      requires LevelsExist()
    {
      compaction.Some? && compaction.value.NotBeyond(k)
    }

    /** ikeyNotNeededForIncrementalSnapshot */
    predicate NotNeeded(sn: nat) {
      compaction.Some? ==> !compaction.value.preserveDeletes || sn < preserveDeletesSeqnum
    }

    /** The test PrepareOutput makes before squashing a sequence number. */
    predicate ZeroEligible(e: Entry)
      requires LevelsExist()
    {
      && Bottommost()
      && !compaction.value.allowIngestBehind
      && NotNeeded(e.sn)
      && e.sn <= Earliest()
      && compaction.value.largestUserKey != e.key
    }
  }

  type Config = c: Settings | c.Valid() witness Settings([], 0, None, 0)

  /** The earliest snapshot that sees sequence number n. */
  function Stripe(ss: seq<nat>, n: nat): nat {
    if ss == [] then MAX_SEQUENCE else if n <= ss[0] then ss[0] else Stripe(ss[1..], n)
  }

  /** The latest snapshot that does not see n, or 0 when there is none. */
  function Prev(ss: seq<nat>, n: nat): nat {
    if ss == [] || n <= ss[0] then 0
    else if |ss| > 1 && ss[1] < n then Prev(ss[1..], n)
    else ss[0]
  }

  predicate AfterPrev(prev: nat, n: nat) {
    prev == 0 || n > prev
  }

  /** How many of es, from index i on, are versions of k newer than prev. */
  function SkipStripe(es: seq<Entry>, i: nat, k: UserKey, prev: nat): (n: nat)
    requires i <= |es|
    ensures i <= n <= |es|
    ensures forall j | i <= j < n :: es[j].key == k && AfterPrev(prev, es[j].sn)
    ensures n < |es| ==> es[n].key != k || !AfterPrev(prev, es[n].sn)
    decreases |es| - i
  {
    if i < |es| && es[i].key == k && AfterPrev(prev, es[i].sn) then SkipStripe(es, i + 1, k, prev) else i
  }

  /** The iterator between two turns of its loop. */
  datatype State = State(
    rest: seq<Entry>,     // input not yet consumed
    hasKey: bool,
    key: UserKey,
    stripe: nat,          // current_user_key_snapshot_
    outputted: bool,      // has_outputted_key_
    clear: bool,          // clear_and_output_next_key_
    first: bool)          // still inside SeekToFirst, which does not record its output

  function Start(input: seq<Entry>): State {
    State(input, false, 0, 0, false, false, true)
  }

  datatype Turn = Turn(next: State, output: Option<Entry>)

  function Emitting(st: State, rest: seq<Entry>, e: Entry): Turn {
    Turn(st.(rest := rest, outputted := st.outputted || !st.first, first := false), Some(e))
  }

  function Dropping(st: State, rest: seq<Entry>): Turn {
    Turn(st.(rest := rest), None)
  }

  /** The SingleDelete rules; st already describes the record's own key and stripe. */
  function SingleDeleteTurn(c: Config, st: State, prev: nat): (t: Turn)
    requires st.rest != []
    ensures |t.next.rest| < |st.rest|
  {
    var e := st.rest[0];
    if |st.rest| > 1 && st.rest[1].key == e.key then
      var next := st.rest[1];
      if AfterPrev(prev, next.sn) then
        if next.kind.SingleDelete? then
          Dropping(st, st.rest[1..])
        else if st.outputted || e.sn <= c.writeConflict then
          Dropping(st, st.rest[2..])
        else
          Emitting(st.(clear := true), st.rest[1..], e)
      else
        Emitting(st, st.rest[1..], e)
    else if e.sn <= c.Earliest() && c.NotBeyond(e.key) then
      Dropping(st.(hasKey := false), st.rest[1..])
    else
      Emitting(st.(hasKey := false), st.rest[1..], e)
  }

  /** The bottommost-level rule for a Delete that some snapshot cannot see. */
  function BottomDeleteTurn(st: State, prev: nat): (t: Turn)
    requires st.rest != []
    ensures |t.next.rest| < |st.rest|
  {
    var e := st.rest[0];
    var n := SkipStripe(st.rest, 1, e.key, prev);
    if n < |st.rest| && st.rest[n].key == e.key then
      Emitting(st, st.rest[n..], e)
    else
      Dropping(st, st.rest[n..])
  }

  /** The state after the record at the front has been recognised as a new user
      key or another version of the current one. */
  function Arrive(c: Config, st: State): State
    requires st.rest != []
  {
    var e := st.rest[0];
    var same := st.hasKey && st.key == e.key;
    st.(hasKey := true, key := e.key, stripe := Stripe(c.snapshots, e.sn), outputted := same && st.outputted)
  }

  function LastStripe(st: State): nat
    requires st.rest != []
  {
    if st.hasKey && st.key == st.rest[0].key then st.stripe else 0
  }

  /** One turn of the loop. */
  function Step(c: Config, st: State): (t: Turn)
    requires st.rest != []
    ensures |t.next.rest| < |st.rest|
  {
    var e := st.rest[0];
    var at := Arrive(c, st);
    var prev := Prev(c.snapshots, e.sn);
    if st.clear then
      Emitting(at.(clear := false), st.rest[1..], e.(value := ""))
    else if e.kind.SingleDelete? then
      SingleDeleteTurn(c, at, prev)
    else if LastStripe(st) == at.stripe then
      Dropping(at, st.rest[1..])
    else if e.kind.Delete? && c.compaction.Some? && e.sn <= c.Earliest() && c.NotNeeded(e.sn) && c.NotBeyond(e.key) then
      Dropping(at, st.rest[1..])
    else if e.kind.Delete? && c.Bottommost() && c.NotNeeded(e.sn) then
      BottomDeleteTurn(at, prev)
    else
      Emitting(at, st.rest[1..], e)
  }

  function Prepare(c: Config, e: Entry): Entry
  {
    if c.ZeroEligible(e) then e.(sn := 0) else e
  }

  /** Everything the iterator still outputs from st on. */
  function Emit(c: Config, st: State): seq<Entry>
    decreases |st.rest|
  {
    if st.rest == [] then []
    else
      var t := Step(c, st);
      if t.output.Some? then [Prepare(c, t.output.value)] + Emit(c, t.next) else Emit(c, t.next)
  }

  function Compacted(c: Config, input: seq<Entry>): seq<Entry>
  {
    Emit(c, Start(input))
  }
}
