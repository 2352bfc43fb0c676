/** Universal-style run selection (db/compaction_picker_universal.cc). Sorted runs are
    listed from newest to oldest: the files of level 0, then every nonempty level. */
module UniversalPicks {
  import opened Wrappers

  datatype File = File(size: nat, compensated: nat, beingCompacted: bool)

  /** file is the position on level 0, for a run of level 0. */
  datatype Run = Run(level: nat, file: nat, size: nat, compensated: nat, beingCompacted: bool)

  datatype StopStyle = SimilarSize | TotalSize

  datatype Options = Options(minMergeWidth: nat, maxMergeWidth: nat, stopStyle: StopStyle, sizeRatio: nat,
                             maxSizeAmplification: nat, trivialMove: bool, trigger: nat)

  type Level = seq<File>

  ghost predicate PositiveSizes(levels: seq<Level>) {
    forall l, i | 0 <= l < |levels| && 0 <= i < |levels[l]| :: levels[l][i].compensated > 0
  }

  /** Without trivial moves, compactions take whole levels, which the source asserts. */
  ghost predicate Uniform(levels: seq<Level>) {
    forall l, i, j | 1 <= l < |levels| && 0 <= i < |levels[l]| && 0 <= j < |levels[l]| ::
      levels[l][i].beingCompacted == levels[l][j].beingCompacted
  }

  /** From newest to oldest: level 0 first, then one run per level, levels ascending. */
  ghost predicate AgeOrder(runs: seq<Run>) {
    forall i, j | 0 <= i < j < |runs| ::
      if runs[j].level == 0 then runs[i].level == 0 && runs[i].file < runs[j].file else runs[i].level < runs[j].level
  }

  ghost predicate Busy(files: Level) {
    exists i :: 0 <= i < |files| && files[i].beingCompacted
  }

  /** Run r stands for a level-0 file or a whole level, and is busy iff some file is. */
  ghost predicate Stands(levels: seq<Level>, r: Run) {
    && r.level < |levels|
    && (if r.level == 0 then r.file < |levels[0]| && r.beingCompacted == levels[0][r.file].beingCompacted
        else levels[r.level] != [] && (r.beingCompacted <==> Busy(levels[r.level])))
  }

  /** The runs in age order, standing for all files below level limit. */
  ghost predicate RunsOf(levels: seq<Level>, limit: nat, runs: seq<Run>)
    requires |levels| > 0
  {
    && AgeOrder(runs) && (forall i | 0 <= i < |runs| :: Stands(levels, runs[i]) && runs[i].level < limit)
    && (forall l | 1 <= l < limit && l < |levels| && levels[l] != [] :: HasLevel(runs, l))
    && |levels[0]| <= |runs| && (forall f | 0 <= f < |levels[0]| :: runs[f].level == 0 && runs[f].file == f)
  }

  ghost predicate HasLevel(runs: seq<Run>, l: nat) {
    exists i :: 0 <= i < |runs| && runs[i].level == l
  }

  method SummarizeLevel(files: Level, trivialMove: bool) returns (size: nat, compensated: nat, busy: bool)
    requires !trivialMove ==> forall i, j | 0 <= i < |files| && 0 <= j < |files| ::
               files[i].beingCompacted == files[j].beingCompacted
    requires forall i | 0 <= i < |files| :: files[i].compensated > 0
    ensures busy <==> Busy(files)
    ensures compensated > 0 <==> files != []
  {
    size, compensated, busy := 0, 0, false;
    var isFirst := true;
    for i := 0 to |files|
      invariant isFirst <==> i == 0
      invariant compensated > 0 <==> i > 0
      invariant busy <==> exists j :: 0 <= j < i && files[j].beingCompacted
    {
      compensated := compensated + files[i].compensated;
      size := size + files[i].size;
      if trivialMove {
        if files[i].beingCompacted {
          busy := true;
        }
      } else {
        assert isFirst || files[i].beingCompacted == files[i - 1].beingCompacted;
      }
      if isFirst {
        busy := files[i].beingCompacted;
        isFirst := false;
      }
    }
  }

  lemma AddOldest(runs: seq<Run>, r: Run)
    requires AgeOrder(runs) && r.level > 0 && forall i | 0 <= i < |runs| :: runs[i].level < r.level
    ensures AgeOrder(runs + [r])
  {
  }

  lemma AddLevel(levels: seq<Level>, level: nat, runs: seq<Run>, r: Run)
    requires 1 <= level < |levels| && RunsOf(levels, level, runs) && r.level == level && Stands(levels, r)
    ensures RunsOf(levels, level + 1, runs + [r])
  {
    hide Stands, AgeOrder;
    var more := runs + [r];
    AddOldest(runs, r);
    assert more[|runs|] == r && forall i | 0 <= i < |runs| :: more[i] == runs[i];
    forall i | 0 <= i < |more| ensures Stands(levels, more[i]) && more[i].level < level + 1 {
      assert i < |runs| ==> Stands(levels, runs[i]) && runs[i].level < level;
    }
    forall l | 1 <= l < level + 1 && levels[l] != [] ensures HasLevel(more, l) {
      if l < level {
        assert HasLevel(runs, l);
        var i :| 0 <= i < |runs| && runs[i].level == l;
        assert more[i].level == l;
      }
    }
    forall f | 0 <= f < |levels[0]| ensures more[f].level == 0 && more[f].file == f {
      assert more[f] == runs[f];
    }
  }

  method CalculateSortedRuns(levels: seq<Level>, trivialMove: bool) returns (runs: seq<Run>)
    requires |levels| > 0 && PositiveSizes(levels) && (!trivialMove ==> Uniform(levels))
    ensures RunsOf(levels, |levels|, runs)
  {
    hide Busy;
    runs := [];
    for f := 0 to |levels[0]|
      invariant |runs| == f
      invariant forall i | 0 <= i < f :: runs[i].level == 0 && runs[i].file == i && Stands(levels, runs[i])
    {
      var meta := levels[0][f];
      runs := runs + [Run(0, f, meta.size, meta.compensated, meta.beingCompacted)];
    }
    for level := 1 to |levels|
      invariant RunsOf(levels, level, runs)
    {
      var size, compensated, busy := SummarizeLevel(levels[level], trivialMove);
      if compensated > 0 {
        AddLevel(levels, level, runs, Run(level, 0, size, compensated, busy));
        runs := runs + [Run(level, 0, size, compensated, busy)];
      }
    }
  }

  // ---- what a pick must satisfy -------------------------------------------------------

  /** Runs start..after-1, to be merged into outputLevel. */
  datatype Pick = Pick(start: nat, after: nat, outputLevel: nat)

  /** A contiguous block with nothing being compacted, whose output level is at or below
      every picked run and strictly above the next older run that is not on level 0. */
  ghost predicate SafePick(runs: seq<Run>, numLevels: nat, p: Pick) {
    && p.start < p.after <= |runs| && p.outputLevel < numLevels
    && (forall i | p.start <= i < p.after :: !runs[i].beingCompacted && runs[i].level <= p.outputLevel)
    && (p.after < |runs| ==>
         if runs[p.after].level == 0 then p.outputLevel == 0 else p.outputLevel < runs[p.after].level)
  }

  /** The merged run takes the place of the block. */
  function Merged(runs: seq<Run>, p: Pick): seq<Run>
    requires p.start < p.after <= |runs|
  {
    runs[..p.start] + [Run(p.outputLevel, runs[p.start].file, 0, 0, false)] + runs[p.after..]
  }

  /** The runs left and the merged run are still in age order, so no version is moved past
      an older or a newer one. */
  lemma PickKeepsAgeOrder(runs: seq<Run>, numLevels: nat, p: Pick)
    requires AgeOrder(runs) && SafePick(runs, numLevels, p)
    ensures AgeOrder(Merged(runs, p))
  {
  }

  /** Runs left behind are on higher levels if newer and on lower ones if older, so nothing
      but picked runs is on an output level below 0. */
  lemma OutputLevelIsFree(runs: seq<Run>, numLevels: nat, p: Pick, i: nat)
    requires AgeOrder(runs) && SafePick(runs, numLevels, p) && i < |runs| && p.outputLevel > 0
    ensures i < p.start ==> runs[i].level < p.outputLevel
    ensures p.after <= i ==> p.outputLevel < runs[i].level
  {
    assert runs[p.start].level <= p.outputLevel;
    assert i < p.start ==> runs[i].level < runs[p.start].level || runs[p.start].level == runs[i].level == 0;
    assert p.after < i ==> runs[p.after].level <= runs[i].level;
  }

  // ---- picking by size ratio or run count ------------------------------------------------

  const UINT_MAX := 4294967295

  /** size, increased by ratio percent, is still smaller than next. */
  predicate Dwarfed(size: nat, next: nat, ratio: nat) {
    size as real * (100.0 + ratio as real) / 100.0 < next as real
  }

  predicate Stops(size: nat, next: Run, ratio: nat, style: StopStyle) {
    next.beingCompacted || Dwarfed(size, next.size, ratio) || (style.SimilarSize? && Dwarfed(next.size, size, ratio))
  }

  /** How many runs a candidate of count runs and the given size grows to from run i. */
  function Extent(runs: seq<Run>, i: nat, count: nat, size: nat, max: nat, ratio: nat, style: StopStyle): nat
    requires i <= |runs|
    decreases |runs| - i
  {
    if i == |runs| || count >= max || Stops(size, runs[i], ratio, style) then count
    else Extent(runs, i + 1, count + 1,
                if style.SimilarSize? then runs[i].compensated else size + runs[i].compensated, max, ratio, style)
  }

  lemma {:induction false} ExtentBlock(runs: seq<Run>, i: nat, count: nat, size: nat, max: nat, ratio: nat,
                                       style: StopStyle)
    requires i <= |runs|
    ensures var n := Extent(runs, i, count, size, max, ratio, style);
            count <= n && i + n - count <= |runs| && forall j | i <= j < i + n - count :: !runs[j].beingCompacted
    decreases |runs| - i
  {
    if !(i == |runs| || count >= max || Stops(size, runs[i], ratio, style)) {
      ExtentBlock(runs, i + 1, count + 1,
                  if style.SimilarSize? then runs[i].compensated else size + runs[i].compensated, max, ratio, style);
    }
  }

  /** Extent of the candidate that starts at run s. */
  function Reach(runs: seq<Run>, s: nat, max: nat, ratio: nat, style: StopStyle): nat
    requires s < |runs|
  {
    if runs[s].beingCompacted then 0 else Extent(runs, s + 1, 1, runs[s].compensated, max, ratio, style)
  }

  function Min(a: nat, b: nat): nat {
    if a < b then a else b
  }

  function Max(a: nat, b: nat): nat {
    if a > b then a else b
  }

  /** The level the block's output goes to. */
  function OutputLevel(runs: seq<Run>, after: nat, numLevels: nat): int
    requires after <= |runs|
  {
    if after == |runs| then numLevels - 1
    else if runs[after].level == 0 then 0
    else runs[after].level - 1
  }

  /** The newest candidate wide enough, if there is one. */
  method PickToReduceSortedRuns(runs: seq<Run>, numLevels: nat, o: Options, ratio: nat, maxFiles: nat)
    returns (p: Option<Pick>)
    requires AgeOrder(runs) && forall i | 0 <= i < |runs| :: runs[i].level < numLevels
    ensures p.None? <==> forall s | 0 <= s < |runs| ::
              Reach(runs, s, Min(o.maxMergeWidth, maxFiles), ratio, o.stopStyle) < Max(o.minMergeWidth, 2)
    ensures p.Some? ==> SafePick(runs, numLevels, p.value) && p.value.after - p.value.start >= Max(o.minMergeWidth, 2)
    ensures p.Some? ==>
      p.value.after - p.value.start == Reach(runs, p.value.start, Min(o.maxMergeWidth, maxFiles), ratio, o.stopStyle)
    ensures p.Some? ==> forall s | 0 <= s < p.value.start ::
              Reach(runs, s, Min(o.maxMergeWidth, maxFiles), ratio, o.stopStyle) < Max(o.minMergeWidth, 2)
  {
    hide Dwarfed, Stops;
    var max, minWidth := Min(o.maxMergeWidth, maxFiles), Max(o.minMergeWidth, 2);
    var loop := 0;
    while loop < |runs|
      invariant loop <= |runs|
      invariant forall s | 0 <= s < loop :: Reach(runs, s, max, ratio, o.stopStyle) < minWidth
    {
      while loop < |runs| && runs[loop].beingCompacted
        invariant loop <= |runs|
        invariant forall s | 0 <= s < loop :: Reach(runs, s, max, ratio, o.stopStyle) < minWidth
      {
        loop := loop + 1;
      }
      if loop == |runs| {
        break;
      }
      var count, size: nat := 1, runs[loop].compensated;
      var i := loop + 1;
      ExtentBlock(runs, i, 1, size, max, ratio, o.stopStyle);
      while count < max && i < |runs| && !Stops(size, runs[i], ratio, o.stopStyle)
        invariant i == loop + count <= |runs|
        invariant Extent(runs, i, count, size, max, ratio, o.stopStyle) == Reach(runs, loop, max, ratio, o.stopStyle)
        decreases |runs| - i
      {
        size := if o.stopStyle.SimilarSize? then runs[i].compensated else size + runs[i].compensated;
        count := count + 1;
        i := i + 1;
      }
      if count >= minWidth {
        return Some(Pick(loop, loop + count, OutputLevel(runs, loop + count, numLevels)));
      }
      loop := loop + 1;
    }
    p := None;
  }

  // ---- picking to reduce size amplification ------------------------------------------------

  function TotalCompensated(runs: seq<Run>, from: nat, to: nat): nat
    requires from <= to <= |runs|
  {
    if from == to then 0 else TotalCompensated(runs, from, to - 1) + runs[to - 1].compensated
  }

  /** Everything from run s on is idle and runs before s are busy. */
  ghost predicate IdleFrom(runs: seq<Run>, s: nat) {
    && s + 1 < |runs| && (forall i | 0 <= i < s :: runs[i].beingCompacted)
    && (forall i | s <= i < |runs| :: !runs[i].beingCompacted)
  }

  lemma OneIdleFrom(runs: seq<Run>, s: nat, t: nat)
    requires IdleFrom(runs, s) && IdleFrom(runs, t)
    ensures s == t
  {
    var first := if s < t then s else t;
    assert runs[first].beingCompacted <==> !(s == t);
  }

  /** The runs from s on, the oldest apart, exceed the oldest by the allowed percentage. */
  predicate Amplified(runs: seq<Run>, s: nat, percent: nat)
    requires s < |runs|
  {
    TotalCompensated(runs, s, |runs| - 1) * 100 >= percent * runs[|runs| - 1].size
  }

  method PickToReduceSizeAmp(runs: seq<Run>, numLevels: nat, o: Options) returns (p: Option<Pick>)
    requires AgeOrder(runs) && runs != [] && forall i | 0 <= i < |runs| :: runs[i].level < numLevels
    ensures p.Some? <==> exists s: nat :: IdleFrom(runs, s) && Amplified(runs, s, o.maxSizeAmplification)
    ensures p.Some? ==> SafePick(runs, numLevels, p.value) && IdleFrom(runs, p.value.start) &&
                        p.value.after == |runs| && p.value.outputLevel == numLevels - 1
  {
    if runs[|runs| - 1].beingCompacted {
      return None;
    }
    var start := 0;
    while start < |runs| - 1 && runs[start].beingCompacted
      invariant start <= |runs| - 1
      invariant forall i | 0 <= i < start :: runs[i].beingCompacted
    {
      start := start + 1;
    }
    if start == |runs| - 1 {
      return None;
    }
    var size := 0;
    for loop := start to |runs| - 1
      invariant forall i | start <= i < loop :: !runs[i].beingCompacted
      invariant size == TotalCompensated(runs, start, loop)
    {
      if runs[loop].beingCompacted {
        return None;
      }
      size := size + runs[loop].compensated;
    }
    assert IdleFrom(runs, start);
    forall s: nat | IdleFrom(runs, s) ensures s == start {
      OneIdleFrom(runs, s, start);
    }
    if size * 100 < o.maxSizeAmplification * runs[|runs| - 1].size {
      return None;
    }
    p := Some(Pick(start, |runs|, numLevels - 1));
  }

  // ---- the whole choice ----------------------------------------------------------------

  function CountIdle(runs: seq<Run>, n: nat): nat
    requires n <= |runs|
  {
    if n == 0 then 0 else CountIdle(runs, n - 1) + if runs[n - 1].beingCompacted then 0 else 1
  }

  /** The newer runs amplify the oldest beyond the limit, and all that takes part is idle. */
  ghost predicate TooAmplified(runs: seq<Run>, percent: nat) {
    exists s: nat :: IdleFrom(runs, s) && Amplified(runs, s, percent)
  }

  /** Some candidate grows wide enough. */
  ghost predicate HasCandidate(runs: seq<Run>, o: Options, ratio: nat, maxFiles: nat) {
    exists s :: 0 <= s < |runs| &&
                Reach(runs, s, Min(o.maxMergeWidth, maxFiles), ratio, o.stopStyle) >= Max(o.minMergeWidth, 2)
  }

  /** Size amplification first, then size ratio, then the number of runs. */
  method PickCompaction(levels: seq<Level>, o: Options) returns (runs: seq<Run>, p: Option<Pick>)
    requires |levels| > 0 && PositiveSizes(levels) && (!o.trivialMove ==> Uniform(levels))
    ensures RunsOf(levels, |levels|, runs)
    ensures p.Some? ==> SafePick(runs, |levels|, p.value)
    ensures p.Some? <==>
            && runs != [] && |runs| >= o.trigger
            && (|| TooAmplified(runs, o.maxSizeAmplification)
                || HasCandidate(runs, o, o.sizeRatio, UINT_MAX)
                || (var idle := CountIdle(runs, |runs|);
                    idle > o.trigger && HasCandidate(runs, o, UINT_MAX, idle - o.trigger + 1)))
  {
    hide RunsOf, Reach, SafePick, Amplified, IdleFrom;
    runs := CalculateSortedRuns(levels, o.trivialMove);
    RunsFacts(levels, runs);
    p := None;
    if |runs| == 0 || |runs| < o.trigger {
      return;
    }
    p := PickToReduceSizeAmp(runs, |levels|, o);
    if p.None? {
      p := PickToReduceSortedRuns(runs, |levels|, o, o.sizeRatio, UINT_MAX);
      if p.None? {
        var idle: nat := 0;
        for i := 0 to |runs|
          invariant idle == CountIdle(runs, i)
        {
          if !runs[i].beingCompacted {
            idle := idle + 1;
          }
        }
        if idle > o.trigger {
          p := PickToReduceSortedRuns(runs, |levels|, o, UINT_MAX, idle - o.trigger + 1);
        }
      }
    }
  }

  lemma RunsFacts(levels: seq<Level>, runs: seq<Run>)
    requires |levels| > 0 && RunsOf(levels, |levels|, runs)
    ensures AgeOrder(runs) && forall i | 0 <= i < |runs| :: runs[i].level < |levels|
  {
  }

  // ---- the input files ---------------------------------------------------------------------

  datatype InputLevel = InputLevel(level: nat, files: seq<nat>)

  /** File f of level l belongs to a picked run. */
  ghost predicate Picked(runs: seq<Run>, from: nat, to: nat, l: nat, f: nat)
    requires to <= |runs|
  {
    exists i :: from <= i < to && runs[i].level == l && (l == 0 ==> runs[i].file == f)
  }

  ghost predicate Listed(inputs: seq<InputLevel>, l: nat, f: nat) {
    exists k :: 0 <= k < |inputs| && inputs[k].level == l && f in inputs[k].files
  }

  /** Inputs so far: the files of runs from..to-1, level base + k in slot k. */
  ghost predicate Collected(levels: seq<Level>, runs: seq<Run>, from: nat, to: nat, base: nat, inputs: seq<InputLevel>)
    requires to <= |runs|
  {
    && |inputs| == |levels| && (forall k | 0 <= k < |inputs| :: inputs[k].level == base + k)
    && (forall k, f: nat | 0 <= k < |inputs| :: f in inputs[k].files <==>
          base + k < |levels| && f < |levels[base + k]| && Picked(runs, from, to, base + k, f))
  }

  lemma CollectOne(levels: seq<Level>, runs: seq<Run>, from: nat, i: nat, base: nat, inputs: seq<InputLevel>,
                   more: seq<InputLevel>)
    requires |levels| > 0 && RunsOf(levels, |levels|, runs) && from <= i < |runs| && base == runs[from].level
    requires Collected(levels, runs, from, i, base, inputs)
    requires base <= runs[i].level < base + |inputs| && runs[i].level < |levels|
    requires var k := runs[i].level - base;
             more == inputs[k := InputLevel(inputs[k].level, inputs[k].files + FilesOf(levels, runs[i]))]
    ensures Collected(levels, runs, from, i + 1, base, more)
  {
    hide Picked, RunsOf;
    RunStands(levels, runs, i);
    forall k, f: nat | 0 <= k < |more|
      ensures f in more[k].files <==>
              base + k < |levels| && f < |levels[base + k]| && Picked(runs, from, i + 1, base + k, f)
    {
      assert f in inputs[k].files <==>
             base + k < |levels| && f < |levels[base + k]| && Picked(runs, from, i, base + k, f);
      PickedOneMore(runs, from, i, base + k, f);
      FilesOfRun(levels, runs[i], f);
    }
  }

  /** Positions of the files a run stands for. */
  function FilesOf(levels: seq<Level>, r: Run): seq<nat>
    requires r.level < |levels|
  {
    if r.level == 0 then [r.file] else seq(|levels[r.level]|, j requires j >= 0 => j)
  }

  lemma FilesOfRun(levels: seq<Level>, r: Run, f: nat)
    requires r.level < |levels|
    ensures f in FilesOf(levels, r) <==> if r.level == 0 then f == r.file else f < |levels[r.level]|
  {
    if r.level > 0 && f < |levels[r.level]| {
      assert FilesOf(levels, r)[f] == f;
    }
  }

  lemma RunStands(levels: seq<Level>, runs: seq<Run>, i: nat)
    requires |levels| > 0 && RunsOf(levels, |levels|, runs) && i < |runs|
    ensures Stands(levels, runs[i])
  {
  }

  lemma StartIsHighest(runs: seq<Run>, s: nat, i: nat)
    requires AgeOrder(runs) && s <= i < |runs|
    ensures runs[s].level <= runs[i].level
  {
  }

  lemma PickedOneMore(runs: seq<Run>, from: nat, i: nat, l: nat, f: nat)
    requires from <= i < |runs|
    ensures Picked(runs, from, i + 1, l, f) <==>
            Picked(runs, from, i, l, f) || (runs[i].level == l && (l == 0 ==> runs[i].file == f))
  {
    if Picked(runs, from, i, l, f) {
      var j :| from <= j < i && runs[j].level == l && (l == 0 ==> runs[j].file == f);
      assert runs[j].level == l;
    }
  }

  /** The compaction's inputs are exactly the files of the picked runs. */
  method CollectInputs(levels: seq<Level>, runs: seq<Run>, p: Pick) returns (inputs: seq<InputLevel>)
    requires |levels| > 0 && RunsOf(levels, |levels|, runs) && SafePick(runs, |levels|, p)
    ensures Collected(levels, runs, p.start, p.after, runs[p.start].level, inputs)
    ensures forall l: nat, f: nat | l < |levels| && f < |levels[l]| ::
              Listed(inputs, l, f) <==> Picked(runs, p.start, p.after, l, f)
    ensures forall l: nat, f: nat | Listed(inputs, l, f) ::
              l < |levels| && f < |levels[l]| && !levels[l][f].beingCompacted
  {
    hide Picked, RunsOf, Listed;
    RunsFacts(levels, runs);
    var base := runs[p.start].level;
    NothingCollected(levels, runs, p.start, base);
    inputs := seq(|levels|, k requires k >= 0 => InputLevel(base + k, []));
    for i := p.start to p.after
      invariant Collected(levels, runs, p.start, i, base, inputs)
    {
      ghost var before := inputs;
      StartIsHighest(runs, p.start, i);
      var k := runs[i].level - base;
      inputs := inputs[k := InputLevel(inputs[k].level, inputs[k].files + FilesOf(levels, runs[i]))];
      CollectOne(levels, runs, p.start, i, base, before, inputs);
    }
    forall l: nat, f: nat | l < |levels| && f < |levels[l]|
      ensures Listed(inputs, l, f) <==> Picked(runs, p.start, p.after, l, f)
    {
      ListedIsPicked(levels, runs, p, inputs, l, f);
    }
    forall l: nat, f: nat | Listed(inputs, l, f)
      ensures l < |levels| && f < |levels[l]| && !levels[l][f].beingCompacted {
      ListedIsIdle(levels, runs, p, inputs, l, f);
    }
  }

  lemma NothingCollected(levels: seq<Level>, runs: seq<Run>, from: nat, base: nat)
    requires from <= |runs|
    ensures Collected(levels, runs, from, from, base, seq(|levels|, k requires k >= 0 => InputLevel(base + k, [])))
  {
  }

  lemma ListedIsPicked(levels: seq<Level>, runs: seq<Run>, p: Pick, inputs: seq<InputLevel>, l: nat, f: nat)
    requires |levels| > 0 && RunsOf(levels, |levels|, runs) && SafePick(runs, |levels|, p) && l < |levels| &&
             f < |levels[l]|
    requires Collected(levels, runs, p.start, p.after, runs[p.start].level, inputs)
    ensures Listed(inputs, l, f) <==> Picked(runs, p.start, p.after, l, f)
  {
    var base := runs[p.start].level;
    if Picked(runs, p.start, p.after, l, f) {
      var i :| p.start <= i < p.after && runs[i].level == l && (l == 0 ==> runs[i].file == f);
      assert base <= l;
      assert f in inputs[l - base].files;
    }
  }

  lemma ListedIsIdle(levels: seq<Level>, runs: seq<Run>, p: Pick, inputs: seq<InputLevel>, l: nat, f: nat)
    requires |levels| > 0 && RunsOf(levels, |levels|, runs) && SafePick(runs, |levels|, p) && Listed(inputs, l, f)
    requires Collected(levels, runs, p.start, p.after, runs[p.start].level, inputs)
    ensures l < |levels| && f < |levels[l]| && !levels[l][f].beingCompacted
  {
    var i :| p.start <= i < p.after && runs[i].level == l && (l == 0 ==> runs[i].file == f);
    assert Stands(levels, runs[i]);
  }
}
