/** Universal-style compactions in flight: picks, flushes, installs and failures of any
    number of compactions, in any order. */
module UniversalRuns {
  import opened UniversalPicks

  /** A sorted run and the ages of the data in it: every flush is one age. */
  datatype Live = Live(level: nat, newest: nat, oldest: nat, size: nat, compensated: nat)

  /** The list of runs, newest first, with the runs of one compaction in one segment. */
  datatype Segment = Idle(run: Live) | InFlight(runs: seq<Live>, outputLevel: nat)

  datatype State = State(segs: seq<Segment>, age: nat)

  function RunsIn(x: Segment): seq<Live> {
    if x.Idle? then [x.run] else x.runs
  }

  datatype Tagged = Tagged(run: Live, busy: bool)

  function Tag(x: Segment): (r: seq<Tagged>)
    ensures |r| == |RunsIn(x)|
    ensures forall t | 0 <= t < |r| :: r[t] == Tagged(RunsIn(x)[t], x.InFlight?)
  {
    seq(|RunsIn(x)|, t requires 0 <= t < |RunsIn(x)| => Tagged(RunsIn(x)[t], x.InFlight?))
  }

  /** The runs in list order. */
  function Flat(segs: seq<Segment>): seq<Tagged> {
    if segs == [] then [] else Flat(segs[..|segs| - 1]) + Tag(segs[|segs| - 1])
  }

  /** The list as the picker sees it; file counts from the front, where level 0 is. */
  function View(segs: seq<Segment>): (r: seq<Run>)
    ensures |r| == |Flat(segs)|
    ensures forall i | 0 <= i < |r| :: r[i] == SeenAt(Flat(segs)[i], i)
  {
    seq(|Flat(segs)|, i requires 0 <= i < |Flat(segs)| => SeenAt(Flat(segs)[i], i))
  }

  function SeenAt(x: Tagged, i: nat): Run {
    Run(x.run.level, i, x.run.size, x.run.compensated, x.busy)
  }

  // ---- steps ------------------------------------------------------------------------------

  /** Install says whether anything was left to write. */
  datatype Step =
    | Flush(size: nat, compensated: nat)
    | Choose(from: nat, to: nat, outputLevel: nat)
    | Install(k: nat, size: nat, compensated: nat, empty: bool)
    | Fail(k: nat)

  /** Segments from..to-1, which are idle, are the runs of a safe pick. */
  ghost predicate Choosable(segs: seq<Segment>, numLevels: nat, from: nat, to: nat, outputLevel: nat) {
    && from < to <= |segs| && (forall i | from <= i < to :: segs[i].Idle?)
    && var start := |Flat(segs[..from])|;
       SafePick(View(segs), numLevels, Pick(start, start + to - from, outputLevel))
  }

  ghost predicate Enabled(s: State, numLevels: nat, p: Step) {
    match p
    case Flush(_, _) => true
    case Choose(from, to, out) => Choosable(s.segs, numLevels, from, to, out)
    case Install(k, _, _, _) => k < |s.segs| && s.segs[k].InFlight? && s.segs[k].runs != []
    case Fail(k) => k < |s.segs| && s.segs[k].InFlight?
  }

  function IdleRuns(segs: seq<Segment>): seq<Live>
    requires forall i | 0 <= i < |segs| :: segs[i].Idle?
  {
    seq(|segs|, i requires 0 <= i < |segs| => segs[i].run)
  }

  function Each(runs: seq<Live>): seq<Segment> {
    seq(|runs|, i requires 0 <= i < |runs| => Idle(runs[i]))
  }

  ghost function Next(s: State, numLevels: nat, p: Step): State
    requires Enabled(s, numLevels, p)
  {
    match p
    case Flush(size, compensated) =>
      State([Idle(Live(0, s.age, s.age, size, compensated))] + s.segs, s.age + 1)
    case Choose(from, to, out) =>
      s.(segs := s.segs[..from] + [InFlight(IdleRuns(s.segs[from..to]), out)] + s.segs[to..])
    case Install(k, size, compensated, empty) =>
      var x := s.segs[k];
      var merged := Live(x.outputLevel, x.runs[0].newest, x.runs[|x.runs| - 1].oldest, size, compensated);
      s.(segs := s.segs[..k] + (if empty then [] else [Idle(merged)]) + s.segs[k + 1..])
    case Fail(k) =>
      s.(segs := s.segs[..k] + Each(s.segs[k].runs) + s.segs[k + 1..])
  }

  // ---- the invariant -------------------------------------------------------------------------

  /** A newer run on level l and an older one on level m are in search order. */
  predicate Above(l: nat, m: nat) {
    if m == 0 then l == 0 else l < m
  }

  predicate Newer(r: Live, q: Live) {
    r.oldest > q.newest && Above(r.level, q.level)
  }

  /** Where the runs of a segment are or are going to be. */
  ghost predicate Precedes(x: Segment, y: Segment) {
    forall t, u | 0 <= t < |RunsIn(x)| && 0 <= u < |RunsIn(y)| ::
      && Newer(RunsIn(x)[t], RunsIn(y)[u])
      && (x.InFlight? ==> Above(x.outputLevel, RunsIn(y)[u].level))
  }

  ghost predicate SegmentOk(x: Segment, age: nat) {
    && RunsIn(x) != []
    && (forall t | 0 <= t < |RunsIn(x)| ::
          RunsIn(x)[t].oldest <= RunsIn(x)[t].newest < age && (x.InFlight? ==> RunsIn(x)[t].level <= x.outputLevel))
    && (forall t, u | 0 <= t < u < |RunsIn(x)| :: Newer(RunsIn(x)[t], RunsIn(x)[u]))
  }

  ghost predicate Inv(s: State) {
    && (forall i | 0 <= i < |s.segs| :: SegmentOk(s.segs[i], s.age))
    && (forall i, j | 0 <= i < j < |s.segs| :: Precedes(s.segs[i], s.segs[j]))
  }

  /** A block of segments gives way to others: what comes before precedes them, and they
      precede what comes after. */
  lemma Replaced(s: State, from: nat, to: nat, mid: seq<Segment>)
    requires Inv(s) && from <= to <= |s.segs|
    requires forall m | 0 <= m < |mid| :: SegmentOk(mid[m], s.age)
    requires forall m, n | 0 <= m < n < |mid| :: Precedes(mid[m], mid[n])
    requires forall i, m | 0 <= i < from && 0 <= m < |mid| :: Precedes(s.segs[i], mid[m])
    requires forall m, j | 0 <= m < |mid| && to <= j < |s.segs| :: Precedes(mid[m], s.segs[j])
    ensures Inv(s.(segs := s.segs[..from] + mid + s.segs[to..]))
  {
    hide SegmentOk, Precedes;
    var segs := s.segs[..from] + mid + s.segs[to..];
    var d := to - from - |mid|;
    assert forall i | 0 <= i < from :: segs[i] == s.segs[i];
    assert forall i | from <= i < from + |mid| :: segs[i] == mid[i - from];
    assert forall i | from + |mid| <= i < |segs| :: segs[i] == s.segs[i + d];
  }

  lemma FlushKeepsInv(s: State, size: nat, compensated: nat)
    requires Inv(s)
    ensures Inv(Next(s, 1, Flush(size, compensated)))
  {
    var s' := Next(s, 1, Flush(size, compensated));
    assert forall i | 0 < i < |s'.segs| :: s'.segs[i] == s.segs[i - 1];
    forall i | 0 <= i < |s'.segs| ensures SegmentOk(s'.segs[i], s'.age) {
      assert i > 0 ==> SegmentOk(s.segs[i - 1], s.age);
    }
    forall i, j | 0 <= i < j < |s'.segs| ensures Precedes(s'.segs[i], s'.segs[j]) {
      if i > 0 {
        assert Precedes(s.segs[i - 1], s.segs[j - 1]);
      } else {
        assert SegmentOk(s.segs[j - 1], s.age);
      }
    }
  }

  lemma InstallKeepsInv(s: State, k: nat, size: nat, compensated: nat, empty: bool)
    requires Inv(s) && Enabled(s, 1, Install(k, size, compensated, empty))
    ensures Inv(Next(s, 1, Install(k, size, compensated, empty)))
  {
    var x := s.segs[k];
    var merged := Idle(Live(x.outputLevel, x.runs[0].newest, x.runs[|x.runs| - 1].oldest, size, compensated));
    assert SegmentOk(x, s.age);
    assert SegmentOk(merged, s.age) by {
      assert |x.runs| > 1 ==> Newer(x.runs[0], x.runs[|x.runs| - 1]);
    }
    forall i | 0 <= i < k ensures Precedes(s.segs[i], merged) {
      MergedAfter(s.segs[i], x, merged);
    }
    forall j | k < j < |s.segs| ensures Precedes(merged, s.segs[j]) {
      MergedBefore(x, s.segs[j], merged);
    }
    Replaced(s, k, k + 1, if empty then [] else [merged]);
  }

  lemma MergedAfter(y: Segment, x: Segment, merged: Segment)
    requires Precedes(y, x) && x.InFlight? && x.runs != [] && merged.Idle? && merged.run.level == x.outputLevel
    requires x.runs[0].level <= x.outputLevel && merged.run.newest == x.runs[0].newest
    ensures Precedes(y, merged)
  {
    forall t | 0 <= t < |RunsIn(y)|
      ensures Newer(RunsIn(y)[t], merged.run) && (y.InFlight? ==> Above(y.outputLevel, merged.run.level)) {
      assert Newer(RunsIn(y)[t], RunsIn(x)[0]);
    }
  }

  lemma MergedBefore(x: Segment, y: Segment, merged: Segment)
    requires Precedes(x, y) && x.InFlight? && x.runs != [] && merged.Idle? && merged.run.level == x.outputLevel
    requires merged.run.oldest == x.runs[|x.runs| - 1].oldest
    ensures Precedes(merged, y)
  {
    forall u | 0 <= u < |RunsIn(y)| ensures Newer(merged.run, RunsIn(y)[u]) {
      assert Newer(RunsIn(x)[|x.runs| - 1], RunsIn(y)[u]);
    }
  }

  lemma FailKeepsInv(s: State, k: nat)
    requires Inv(s) && Enabled(s, 1, Fail(k))
    ensures Inv(Next(s, 1, Fail(k)))
  {
    var x := s.segs[k];
    var mid := Each(x.runs);
    assert SegmentOk(x, s.age);
    forall m | 0 <= m < |mid| ensures SegmentOk(mid[m], s.age) {
      assert RunsIn(x)[m] == mid[m].run;
    }
    forall m, n | 0 <= m < n < |mid| ensures Precedes(mid[m], mid[n]) {
      assert Newer(RunsIn(x)[m], RunsIn(x)[n]);
    }
    forall i, m | 0 <= i < k && 0 <= m < |mid| ensures Precedes(s.segs[i], mid[m]) {
      assert Precedes(s.segs[i], x);
      assert RunsIn(x)[m] == mid[m].run;
    }
    forall m, j | 0 <= m < |mid| && k < j < |s.segs| ensures Precedes(mid[m], s.segs[j]) {
      assert Precedes(x, s.segs[j]);
      assert RunsIn(x)[m] == mid[m].run;
    }
    Replaced(s, k, k + 1, mid);
  }

  // ---- what the picker sees ----------------------------------------------------------------

  lemma FlatLast(segs: seq<Segment>, k: nat)
    requires k < |segs|
    ensures Flat(segs[..k + 1]) == Flat(segs[..k]) + Tag(segs[k])
  {
    assert segs[..k + 1][..k] == segs[..k];
  }

  lemma {:induction false} FlatPrefix(segs: seq<Segment>, k: nat, n: nat)
    requires k <= n <= |segs|
    ensures Flat(segs[..k]) <= Flat(segs[..n])
    decreases n
  {
    hide Flat;
    if k < n {
      FlatPrefix(segs, k, n - 1);
      FlatLast(segs, n - 1);
    }
  }

  lemma FlatAt(segs: seq<Segment>, k: nat, t: nat)
    requires k < |segs| && t < |RunsIn(segs[k])|
    ensures var at := |Flat(segs[..k])| + t;
            at < |Flat(segs)| && Flat(segs)[at] == Tagged(RunsIn(segs[k])[t], segs[k].InFlight?)
  {
    hide Flat;
    FlatLast(segs, k);
    FlatPrefix(segs, k + 1, |segs|);
    assert segs[..|segs|] == segs;
    assert Flat(segs)[|Flat(segs[..k])| + t] == Flat(segs[..k + 1])[|Flat(segs[..k])| + t];
  }

  /** Where position at of the list comes from. */
  lemma {:induction false} FlatFrom(segs: seq<Segment>, n: nat, at: nat) returns (k: nat, t: nat)
    requires n <= |segs| && at < |Flat(segs[..n])|
    ensures k < n && t < |RunsIn(segs[k])| && at == |Flat(segs[..k])| + t
    decreases n
  {
    hide Flat;
    if n == 0 {
      FlatNothing(segs);
      assert false;
    } else {
      FlatLast(segs, n - 1);
      if at < |Flat(segs[..n - 1])| {
        k, t := FlatFrom(segs, n - 1, at);
      } else {
        k, t := n - 1, at - |Flat(segs[..n - 1])|;
      }
    }
  }

  lemma FlatNothing(segs: seq<Segment>)
    ensures Flat(segs[..0]) == []
  {
  }

  /** Any two runs of the list are in order, by age and by place. */
  lemma InOrder(s: State, i: nat, j: nat)
    requires Inv(s) && i < j < |Flat(s.segs)|
    ensures Newer(Flat(s.segs)[i].run, Flat(s.segs)[j].run)
  {
    hide Flat;
    assert s.segs[..|s.segs|] == s.segs;
    var k, t := FlatFrom(s.segs, |s.segs|, i);
    var m, u := FlatFrom(s.segs, |s.segs|, j);
    FlatAt(s.segs, k, t);
    FlatAt(s.segs, m, u);
    assert SegmentOk(s.segs[k], s.age);
    if m < k {
      FlatLast(s.segs, m);
      FlatPrefix(s.segs, m + 1, k);
      assert false;
    } else if k < m {
      assert Precedes(s.segs[k], s.segs[m]);
    }
  }

  /** Newest first: the data of any run is newer than that of every run a search comes to
      later. */
  lemma ListInAgeOrder(s: State)
    requires Inv(s)
    ensures AgeOrder(View(s.segs))
    ensures forall i, j | 0 <= i < j < |Flat(s.segs)| :: Flat(s.segs)[i].run.oldest > Flat(s.segs)[j].run.newest
  {
    hide Flat, View, Inv;
    forall i, j | 0 <= i < j < |Flat(s.segs)| ensures Newer(Flat(s.segs)[i].run, Flat(s.segs)[j].run) {
      InOrder(s, i, j);
    }
  }

  // ---- choosing ------------------------------------------------------------------------------

  lemma {:induction false} IdlePositions(segs: seq<Segment>, from: nat, m: nat)
    requires from + m <= |segs| && forall i | from <= i < from + m :: segs[i].Idle?
    ensures |Flat(segs[..from + m])| == |Flat(segs[..from])| + m
    decreases m
  {
    hide Flat;
    if m > 0 {
      IdlePositions(segs, from, m - 1);
      FlatLast(segs, from + m - 1);
    }
  }

  /** The block as one segment. */
  lemma ChosenOk(s: State, numLevels: nat, from: nat, to: nat, out: nat)
    requires Inv(s) && Choosable(s.segs, numLevels, from, to, out)
    ensures SegmentOk(InFlight(IdleRuns(s.segs[from..to]), out), s.age)
  {
    hide Flat, View;
    var x := InFlight(IdleRuns(s.segs[from..to]), out);
    forall m | 0 <= m < to - from
      ensures x.runs[m].oldest <= x.runs[m].newest < s.age && x.runs[m].level <= out {
      assert SegmentOk(s.segs[from + m], s.age) && x.runs[m] == RunsIn(s.segs[from + m])[0];
      IdlePositions(s.segs, from, m);
      FlatAt(s.segs, from + m, 0);
    }
    forall m, n | 0 <= m < n < to - from ensures Newer(x.runs[m], x.runs[n]) {
      assert Precedes(s.segs[from + m], s.segs[from + n]);
      assert x.runs[m] == RunsIn(s.segs[from + m])[0] && x.runs[n] == RunsIn(s.segs[from + n])[0];
    }
  }

  /** The output level is above every older run. */
  lemma ChosenAbove(s: State, numLevels: nat, from: nat, to: nat, out: nat, j: nat, u: nat)
    requires Inv(s) && Choosable(s.segs, numLevels, from, to, out) && to <= j < |s.segs| && u < |RunsIn(s.segs[j])|
    ensures Above(out, RunsIn(s.segs[j])[u].level)
  {
    hide Flat, View;
    assert SegmentOk(s.segs[to], s.age) && SegmentOk(s.segs[j], s.age);
    IdlePositions(s.segs, from, to - from);
    FlatAt(s.segs, to, 0);
    var first := RunsIn(s.segs[to])[0];
    assert Above(out, first.level);
    if j > to {
      assert Precedes(s.segs[to], s.segs[j]);
    }
    assert (j == to && u == 0) || Newer(first, RunsIn(s.segs[j])[u]);
  }

  lemma ChosenAfter(s: State, from: nat, to: nat, out: nat, i: nat)
    requires Inv(s) && i < from < to <= |s.segs| && forall m | from <= m < to :: s.segs[m].Idle?
    ensures Precedes(s.segs[i], InFlight(IdleRuns(s.segs[from..to]), out))
  {
    var x, y := InFlight(IdleRuns(s.segs[from..to]), out), s.segs[i];
    forall t, m | 0 <= t < |RunsIn(y)| && 0 <= m < |RunsIn(x)|
      ensures Newer(RunsIn(y)[t], RunsIn(x)[m]) && (y.InFlight? ==> Above(y.outputLevel, RunsIn(x)[m].level)) {
      assert Precedes(y, s.segs[from + m]) && RunsIn(x)[m] == RunsIn(s.segs[from + m])[0];
    }
  }

  lemma ChosenBefore(s: State, numLevels: nat, from: nat, to: nat, out: nat, j: nat)
    requires Inv(s) && Choosable(s.segs, numLevels, from, to, out) && to <= j < |s.segs|
    ensures Precedes(InFlight(IdleRuns(s.segs[from..to]), out), s.segs[j])
  {
    hide Flat, View, SafePick;
    var x, y := InFlight(IdleRuns(s.segs[from..to]), out), s.segs[j];
    forall m, u | 0 <= m < |RunsIn(x)| && 0 <= u < |RunsIn(y)|
      ensures Newer(RunsIn(x)[m], RunsIn(y)[u]) && Above(out, RunsIn(y)[u].level) {
      assert Precedes(s.segs[from + m], y) && RunsIn(x)[m] == RunsIn(s.segs[from + m])[0];
      ChosenAbove(s, numLevels, from, to, out, j, u);
    }
  }

  lemma ChooseKeepsInv(s: State, numLevels: nat, from: nat, to: nat, out: nat)
    requires Inv(s) && Choosable(s.segs, numLevels, from, to, out)
    ensures Inv(Next(s, numLevels, Choose(from, to, out)))
  {
    hide Flat, View, SafePick, Precedes, SegmentOk;
    var x := InFlight(IdleRuns(s.segs[from..to]), out);
    ChosenOk(s, numLevels, from, to, out);
    forall i | 0 <= i < from ensures Precedes(s.segs[i], x) {
      ChosenAfter(s, from, to, out, i);
    }
    forall j | to <= j < |s.segs| ensures Precedes(x, s.segs[j]) {
      ChosenBefore(s, numLevels, from, to, out, j);
    }
    Replaced(s, from, to, [x]);
  }

  lemma {:induction false} IdleBlock(segs: seq<Segment>, k: nat, n: nat)
    requires k <= |segs| && |Flat(segs[..k])| + n <= |Flat(segs)|
    requires forall i | 0 <= i < |segs| :: RunsIn(segs[i]) != []
    requires forall at | |Flat(segs[..k])| <= at < |Flat(segs[..k])| + n :: !Flat(segs)[at].busy
    ensures k + n <= |segs| && forall i | k <= i < k + n :: segs[i].Idle?
    decreases n
  {
    hide Flat;
    assert segs[..|segs|] == segs;
    if n > 0 {
      assert k < |segs|;
      FlatAt(segs, k, 0);
      FlatLast(segs, k);
      IdleBlock(segs, k + 1, n - 1);
    }
  }

  /** Every safe pick of what the picker sees can be chosen. */
  lemma SafePickIsChoosable(s: State, numLevels: nat, p: Pick) returns (from: nat, to: nat)
    requires Inv(s) && SafePick(View(s.segs), numLevels, p)
    ensures Choosable(s.segs, numLevels, from, to, p.outputLevel)
    ensures |Flat(s.segs[..from])| == p.start && to - from == p.after - p.start
  {
    hide Flat, View;
    assert s.segs[..|s.segs|] == s.segs;
    var t;
    from, t := FlatFrom(s.segs, |s.segs|, p.start);
    FlatAt(s.segs, from, t);
    assert !View(s.segs)[p.start].beingCompacted;
    forall i | 0 <= i < |s.segs| ensures RunsIn(s.segs[i]) != [] {
      assert SegmentOk(s.segs[i], s.age);
    }
    forall at | p.start <= at < p.after ensures !Flat(s.segs)[at].busy {
      assert !View(s.segs)[at].beingCompacted;
    }
    to := from + p.after - p.start;
    IdleBlock(s.segs, from, p.after - p.start);
  }

  // ---- the levels behind the list ------------------------------------------------------------

  /** The levels the list stands for: its runs of level 0 are the files of level 0 in order,
      every other run is a whole level, and the files of compactions in flight are busy. */
  ghost predicate StandsFor(segs: seq<Segment>, levels: seq<Level>) {
    && levels != []
    && (forall i | 0 <= i < |Flat(segs)| :: Stands(levels, SeenAt(Flat(segs)[i], i)))
    && |levels[0]| <= |Flat(segs)| && (forall f | 0 <= f < |levels[0]| :: Flat(segs)[f].run.level == 0)
    && (forall l | 1 <= l < |levels| && levels[l] != [] :: OnLevel(segs, l))
  }

  ghost predicate OnLevel(segs: seq<Segment>, l: nat) {
    exists i :: 0 <= i < |Flat(segs)| && Flat(segs)[i].run.level == l
  }

  /** The picker's view of the list is a list of the sorted runs of those levels. */
  lemma ViewIsSortedRuns(s: State, levels: seq<Level>)
    requires Inv(s) && StandsFor(s.segs, levels)
    ensures RunsOf(levels, |levels|, View(s.segs))
  {
    hide Flat, View, Inv, Stands, AgeOrder;
    ListInAgeOrder(s);
    var runs := View(s.segs);
    forall i | 0 <= i < |runs| ensures Stands(levels, runs[i]) && runs[i].level < |levels| {
      StandsInRange(levels, runs[i]);
    }
    forall l | 1 <= l < |levels| && levels[l] != [] ensures HasLevel(runs, l) {
      assert OnLevel(s.segs, l);
      var i :| 0 <= i < |Flat(s.segs)| && Flat(s.segs)[i].run.level == l;
      assert runs[i].level == l;
    }
  }

  lemma StandsInRange(levels: seq<Level>, r: Run)
    requires Stands(levels, r)
    ensures r.level < |levels|
  {
  }

  /** Past level 0 the levels of a list of sorted runs ascend strictly. */
  lemma BelowLevel0(levels: seq<Level>, runs: seq<Run>, i: nat)
    requires levels != [] && RunsOf(levels, |levels|, runs) && |levels[0]| <= i < |runs|
    ensures 0 < runs[i].level < |levels| && levels[runs[i].level] != []
    ensures forall j | 0 <= j < i :: runs[j].level < runs[i].level
  {
    assert Stands(levels, runs[i]);
    assert |levels[0]| > 0 ==> runs[|levels[0]| - 1].file == |levels[0]| - 1;
  }

  lemma LevelListed(levels: seq<Level>, runs: seq<Run>, l: nat) returns (j: nat)
    requires levels != [] && RunsOf(levels, |levels|, runs) && 0 < l < |levels| && levels[l] != []
    ensures |levels[0]| <= j < |runs| && runs[j].level == l
  {
    assert HasLevel(runs, l);
    hide RunsOf;
    j :| 0 <= j < |runs| && runs[j].level == l;
    if j < |levels[0]| {
      FirstLevel(levels, runs, j);
    }
  }

  /** There is one list of sorted runs: level by level. */
  lemma {:induction false} SameLevelAt(levels: seq<Level>, a: seq<Run>, b: seq<Run>, i: nat)
    requires levels != [] && RunsOf(levels, |levels|, a) && RunsOf(levels, |levels|, b) && i < |a|
    ensures i < |b| && a[i].level == b[i].level
    decreases i
  {
    hide RunsOf, Stands;
    if i < |levels[0]| {
      FirstLevel(levels, a, i);
      FirstLevel(levels, b, i);
    } else {
      BelowLevel0(levels, a, i);
      var j := LevelListed(levels, b, a[i].level);
      if j < i {
        SameLevelAt(levels, a, b, j);
      } else if j > i {
        BelowLevel0(levels, b, i);
        BelowLevel0(levels, b, j);
        var k := LevelListed(levels, a, b[i].level);
        if k < i {
          SameLevelAt(levels, a, b, k);
        } else if k > i {
          BelowLevel0(levels, a, k);
        }
      }
    }
  }

  lemma FirstLevel(levels: seq<Level>, runs: seq<Run>, i: nat)
    requires levels != [] && RunsOf(levels, |levels|, runs) && i < |levels[0]|
    ensures i < |runs| && runs[i].level == 0 && runs[i].beingCompacted == levels[0][i].beingCompacted
  {
    assert Stands(levels, runs[i]);
  }

  lemma SameRunAt(levels: seq<Level>, a: seq<Run>, b: seq<Run>, i: nat)
    requires levels != [] && RunsOf(levels, |levels|, a) && RunsOf(levels, |levels|, b) && i < |a|
    ensures i < |b| && a[i].level == b[i].level && a[i].beingCompacted == b[i].beingCompacted
  {
    SameLevelAt(levels, a, b, i);
    if i < |levels[0]| {
      FirstLevel(levels, a, i);
      FirstLevel(levels, b, i);
    } else {
      BelowLevel0(levels, a, i);
      assert Stands(levels, a[i]) && Stands(levels, b[i]);
    }
  }

  predicate Alike(r: Run, q: Run) {
    r.level == q.level && r.beingCompacted == q.beingCompacted
  }

  lemma SafeForBoth(a: seq<Run>, b: seq<Run>, numLevels: nat, p: Pick)
    requires |a| == |b| && (forall i | 0 <= i < |a| :: Alike(a[i], b[i])) && SafePick(a, numLevels, p)
    ensures SafePick(b, numLevels, p)
  {
    forall i | p.start <= i < p.after ensures !b[i].beingCompacted && b[i].level <= p.outputLevel {
      assert Alike(a[i], b[i]);
    }
    assert p.after < |a| ==> Alike(a[p.after], b[p.after]);
  }

  /** A safe pick from the sorted runs of the levels behind a list can be chosen from the
      list. */
  lemma PickIsChoosable(s: State, levels: seq<Level>, runs: seq<Run>, p: Pick) returns (from: nat, to: nat)
    requires Inv(s) && StandsFor(s.segs, levels) && RunsOf(levels, |levels|, runs) && SafePick(runs, |levels|, p)
    ensures Choosable(s.segs, |levels|, from, to, p.outputLevel)
    ensures |Flat(s.segs[..from])| == p.start && to - from == p.after - p.start
  {
    hide Flat, View, Inv, RunsOf, StandsFor, Choosable;
    ViewIsSortedRuns(s, levels);
    var view := View(s.segs);
    StandsForSome(s, levels);
    if |runs| < |view| {
      SameRunAt(levels, view, runs, |runs|);
    } else if |view| < |runs| {
      SameRunAt(levels, runs, view, |view|);
    }
    forall i | 0 <= i < |runs| ensures Alike(runs[i], view[i]) {
      SameRunAt(levels, runs, view, i);
    }
    SafeForBoth(runs, view, |levels|, p);
    from, to := SafePickIsChoosable(s, |levels|, p);
  }

  lemma StandsForSome(s: State, levels: seq<Level>)
    requires StandsFor(s.segs, levels)
    ensures levels != []
  {
  }

  // ---- whole runs ------------------------------------------------------------------------------

  lemma StepKeepsInv(s: State, numLevels: nat, p: Step)
    requires Inv(s) && Enabled(s, numLevels, p)
    ensures Inv(Next(s, numLevels, p))
  {
    hide Inv, Choosable;
    match p
    case Flush(size, compensated) => FlushKeepsInv(s, size, compensated);
    case Choose(from, to, out) => ChooseKeepsInv(s, numLevels, from, to, out);
    case Install(k, size, compensated, empty) => InstallKeepsInv(s, k, size, compensated, empty);
    case Fail(k) => FailKeepsInv(s, k);
  }

  ghost predicate Behaviour(states: seq<State>, steps: seq<Step>, numLevels: nat) {
    && |states| == |steps| + 1 && states[0] == State([], 0)
    && (forall i | 0 <= i < |steps| ::
          Enabled(states[i], numLevels, steps[i]) && states[i + 1] == Next(states[i], numLevels, steps[i]))
  }

  lemma {:induction false} RunKeepsInv(states: seq<State>, steps: seq<Step>, numLevels: nat, n: nat)
    requires Behaviour(states, steps, numLevels) && n < |states|
    ensures Inv(states[n])
  {
    hide Enabled, Next;
    if n > 0 {
      RunKeepsInv(states, steps, numLevels, n - 1);
      StepKeepsInv(states[n - 1], numLevels, steps[n - 1]);
    }
  }

  /** However flushes, picks, installs and failures interleave, the list is in age order in
      every state, by place and by data. */
  lemma AgeOrderAlways(states: seq<State>, steps: seq<Step>, numLevels: nat, n: nat)
    requires Behaviour(states, steps, numLevels) && n < |states|
    ensures AgeOrder(View(states[n].segs))
    ensures var all := Flat(states[n].segs);
            forall i, j | 0 <= i < j < |all| :: all[i].run.oldest > all[j].run.newest
  {
    hide *;
    RunKeepsInv(states, steps, numLevels, n);
    ListInAgeOrder(states[n]);
  }

  /** While a compaction is in flight, no other run is on its output level below 0 and no
      other compaction writes to it. */
  lemma OutputStaysFree(states: seq<State>, steps: seq<Step>, numLevels: nat, n: nat, k: nat, i: nat)
    requires Behaviour(states, steps, numLevels) && n < |states|
    requires k < |states[n].segs| && i < |states[n].segs| && i != k
    requires states[n].segs[k].InFlight? && states[n].segs[k].outputLevel > 0
    ensures var out := states[n].segs[k].outputLevel;
            var x := states[n].segs[i];
            (forall t | 0 <= t < |RunsIn(x)| :: RunsIn(x)[t].level != out) && (x.InFlight? ==> x.outputLevel != out)
  {
    hide Behaviour;
    RunKeepsInv(states, steps, numLevels, n);
    var s := states[n];
    var job, x := s.segs[k], s.segs[i];
    assert SegmentOk(job, s.age) && SegmentOk(x, s.age);
    if i < k {
      assert Precedes(x, job);
      forall t | 0 <= t < |RunsIn(x)| ensures RunsIn(x)[t].level < job.outputLevel {
        assert Newer(RunsIn(x)[t], RunsIn(job)[0]);
      }
      assert x.InFlight? ==> Above(x.outputLevel, RunsIn(job)[0].level);
    } else {
      assert Precedes(job, x);
      forall t | 0 <= t < |RunsIn(x)| ensures RunsIn(x)[t].level > job.outputLevel {
        assert Newer(RunsIn(job)[0], RunsIn(x)[t]);
      }
      assert RunsIn(x)[0].level > job.outputLevel;
    }
  }

  // ---- every state stands for some levels --------------------------------------------------------

  ghost predicate InRange(x: Segment, numLevels: nat) {
    && (forall t | 0 <= t < |RunsIn(x)| :: RunsIn(x)[t].level < numLevels)
    && (x.InFlight? ==> x.outputLevel < numLevels)
  }

  lemma {:induction false} RunStaysInRange(states: seq<State>, steps: seq<Step>, numLevels: nat, n: nat, i: nat)
    requires Behaviour(states, steps, numLevels) && n < |states| && numLevels > 0 && i < |states[n].segs|
    ensures InRange(states[n].segs[i], numLevels)
  {
    if n > 0 {
      var s, p := states[n - 1], steps[n - 1];
      forall j | 0 <= j < |s.segs| ensures InRange(s.segs[j], numLevels) {
        RunStaysInRange(states, steps, numLevels, n - 1, j);
      }
      StepStaysInRange(s, numLevels, p, i);
    }
  }

  lemma ChosenInRange(segs: seq<Segment>, numLevels: nat, out: nat)
    requires (forall i | 0 <= i < |segs| :: segs[i].Idle? && InRange(segs[i], numLevels)) && out < numLevels
    ensures InRange(InFlight(IdleRuns(segs), out), numLevels)
  {
    var x := InFlight(IdleRuns(segs), out);
    forall t | 0 <= t < |RunsIn(x)| ensures RunsIn(x)[t].level < numLevels {
      assert InRange(segs[t], numLevels) && RunsIn(x)[t] == RunsIn(segs[t])[0];
    }
  }

  lemma StepStaysInRange(s: State, numLevels: nat, p: Step, i: nat)
    requires Enabled(s, numLevels, p) && numLevels > 0 && i < |Next(s, numLevels, p).segs|
    requires forall j | 0 <= j < |s.segs| :: InRange(s.segs[j], numLevels)
    ensures InRange(Next(s, numLevels, p).segs[i], numLevels)
  {
    hide Flat, View;
    match p
    case Flush(_, _) =>
      assert i > 0 ==> Next(s, numLevels, p).segs[i] == s.segs[i - 1];
    case Choose(from, to, out) =>
      ChosenInRange(s.segs[from..to], numLevels, out);
    case Install(k, _, _, _) =>
      assert InRange(s.segs[k], numLevels);
    case Fail(k) =>
      assert InRange(s.segs[k], numLevels);
      assert forall t | 0 <= t < |s.segs[k].runs| :: Each(s.segs[k].runs)[t].run == RunsIn(s.segs[k])[t];
  }

  lemma ListInRange(states: seq<State>, steps: seq<Step>, numLevels: nat, n: nat, at: nat)
    requires Behaviour(states, steps, numLevels) && n < |states| && numLevels > 0 && at < |Flat(states[n].segs)|
    ensures Flat(states[n].segs)[at].run.level < numLevels
  {
    hide Flat, Behaviour;
    var segs := states[n].segs;
    assert segs[..|segs|] == segs;
    var k, t := FlatFrom(segs, |segs|, at);
    FlatAt(segs, k, t);
    RunStaysInRange(states, steps, numLevels, n, k);
  }

  /** How many runs are on level 0: they come first. */
  lemma {:induction false} Level0First(all: seq<Tagged>, n: nat) returns (z: nat)
    requires n <= |all| && forall i, j | 0 <= i < j < |all| :: Above(all[i].run.level, all[j].run.level)
    ensures z <= n && forall i | 0 <= i < n :: all[i].run.level == 0 <==> i < z
  {
    z := 0;
    if n > 0 {
      z := Level0First(all, n - 1);
      if all[n - 1].run.level == 0 {
        z := n;
      }
    }
  }

  function AsFile(x: Tagged): File {
    File(x.run.size, x.run.compensated, x.busy)
  }

  /** The run of level l, if there is one, as a level of one file. */
  function LevelOf(all: seq<Tagged>, l: nat): Level {
    if all == [] then [] else if all[0].run.level == l then [AsFile(all[0])] else LevelOf(all[1..], l)
  }

  lemma {:induction false} LevelOfRun(all: seq<Tagged>, l: nat)
    ensures LevelOf(all, l) != [] ==> exists i :: 0 <= i < |all| && all[i].run.level == l
  {
    if all != [] && all[0].run.level != l {
      LevelOfRun(all[1..], l);
      if i :| 0 <= i < |all[1..]| && all[1..][i].run.level == l {
        assert all[i + 1].run.level == l;
      }
    }
  }

  lemma {:induction false} LevelOfIt(all: seq<Tagged>, i: nat)
    requires i < |all| && forall j | 0 <= j < i :: all[j].run.level != all[i].run.level
    ensures LevelOf(all, all[i].run.level) == [AsFile(all[i])]
  {
    if i > 0 {
      LevelOfIt(all[1..], i - 1);
    }
  }

  /** The levels with one file for each run. */
  function LevelsOf(all: seq<Tagged>, z: nat, numLevels: nat): seq<Level>
    requires z <= |all|
  {
    seq(numLevels, l requires l >= 0 =>
      if l == 0 then seq(z, i requires 0 <= i < z => AsFile(all[i])) else LevelOf(all, l))
  }

  /** Every reachable state stands for some levels, so every pick the picker makes from them
      is a step. */
  lemma LevelsBehind(states: seq<State>, steps: seq<Step>, numLevels: nat, n: nat) returns (levels: seq<Level>)
    requires Behaviour(states, steps, numLevels) && n < |states| && numLevels > 0
    ensures |levels| == numLevels && StandsFor(states[n].segs, levels)
  {
    hide Flat, Behaviour, Inv, LevelOf;
    var s := states[n];
    var all := Flat(s.segs);
    RunKeepsInv(states, steps, numLevels, n);
    forall i, j | 0 <= i < j < |all| ensures Above(all[i].run.level, all[j].run.level) {
      InOrder(s, i, j);
    }
    var z := Level0First(all, |all|);
    levels := LevelsOf(all, z, numLevels);
    forall i | 0 <= i < |all| ensures Stands(levels, SeenAt(all[i], i)) {
      ListInRange(states, steps, numLevels, n, i);
      StandsThere(all, z, numLevels, i);
    }
    forall l | 1 <= l < |levels| && levels[l] != [] ensures OnLevel(s.segs, l) {
      LevelOfRun(all, l);
    }
  }

  lemma StandsThere(all: seq<Tagged>, z: nat, numLevels: nat, i: nat)
    requires i < |all| && all[i].run.level < numLevels && z <= |all|
    requires forall j, k | 0 <= j < k < |all| :: Above(all[j].run.level, all[k].run.level)
    requires forall j | 0 <= j < |all| :: all[j].run.level == 0 <==> j < z
    ensures Stands(LevelsOf(all, z, numLevels), SeenAt(all[i], i))
  {
    var levels := LevelsOf(all, z, numLevels);
    if all[i].run.level > 0 {
      LevelOfIt(all, i);
      var files := levels[all[i].run.level];
      assert files == [AsFile(all[i])];
      assert files[0].beingCompacted == all[i].busy;
    } else {
      assert levels[0][i] == AsFile(all[i]);
    }
  }
}
