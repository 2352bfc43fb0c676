/** Level-style picks, CompactRange and releases (db/compaction_picker.cc,
    db/compaction.cc). A file is known by the identity of its metadata object, on which
    the source keeps the being_compacted flag. The storage a pick looks at may be any;
    the searches for overlapping files are parameters with a contract. */
module ExclusivePicks {
  import opened Wrappers
  import opened CleanCuts

  /** smallest and largest are the boundary keys of the inputs. */
  datatype Compaction = Compaction(inputs: seq<InputFiles>, outputLevel: nat, smallest: int, largest: int)

  // ---- the invariant ------------------------------------------------------------------

  ghost predicate HasInput(inputs: seq<InputFiles>, f: File) {
    exists k :: 0 <= k < |inputs| && f in inputs[k].files
  }

  ghost predicate HullAll(inputs: seq<InputFiles>, lo: int, hi: int) {
    && (forall f | HasInput(inputs, f) :: lo <= f.smallest && f.largest <= hi)
    && (exists f :: HasInput(inputs, f) && f.smallest == lo) && (exists f :: HasInput(inputs, f) && f.largest == hi)
  }

  /** Levels ascend, files are on their level and none is listed twice. Levels after the
      first may contribute nothing. */
  ghost predicate InputsOk(inputs: seq<InputFiles>) {
    && inputs != [] && inputs[0].files != [] && (forall k | 0 <= k < |inputs| :: Distinct(inputs[k].files))
    && (forall k, f | 0 <= k < |inputs| && f in inputs[k].files :: f.level == inputs[k].level)
    && (forall j, k | 0 <= j < k < |inputs| :: inputs[j].level < inputs[k].level)
  }

  ghost predicate CompactionOk(c: Compaction) {
    InputsOk(c.inputs) && HullAll(c.inputs, c.smallest, c.largest) && c.smallest <= c.largest
  }

  predicate OverlapsRange(c: Compaction, lo: int, hi: int) {
    lo <= c.largest && c.smallest <= hi
  }

  /** Two running compactions share no file and, writing to the same level below 0, no key. */
  ghost predicate Exclusive(c: Compaction, d: Compaction) {
    && (forall f | HasInput(c.inputs, f) :: !HasInput(d.inputs, f))
    && (c.outputLevel == d.outputLevel != 0 ==> !OverlapsRange(c, d.smallest, d.largest))
  }

  ghost predicate InOne(running: set<Compaction>, f: File) {
    exists c | c in running :: HasInput(c.inputs, f)
  }

  ghost predicate Inv(running: set<Compaction>, level0: set<Compaction>, busy: set<File>) {
    && (forall c | c in running :: CompactionOk(c))
    && (forall c, d | c in running && d in running && c != d :: Exclusive(c, d))
    && (forall f :: f in busy <==> InOne(running, f))
    && (forall c :: c in level0 <==> c in running && CompactionOk(c) && c.inputs[0].level == 0)
  }

  predicate AreFilesInCompaction(files: seq<File>, busy: set<File>) {
    exists f | f in files :: f in busy
  }

  /** A level-0 file is being compacted only while a level-0 compaction runs. */
  lemma BusyLevel0(running: set<Compaction>, level0: set<Compaction>, busy: set<File>, f: File)
    requires Inv(running, level0, busy) && f in busy && f.level == 0
    ensures level0 != {}
  {
  }

  /** What the invariant says of any two files being compacted at once by different
      compactions: they differ, both are flagged and, when the compactions write to the
      same level below 0, they share no key. */
  lemma RunningCompactionsAreExclusive(running: set<Compaction>, level0: set<Compaction>, busy: set<File>,
                                       c: Compaction, d: Compaction, f: File, g: File)
    requires Inv(running, level0, busy) && c in running && d in running && c != d
    requires HasInput(c.inputs, f) && HasInput(d.inputs, g)
    ensures f != g && f in busy && g in busy
    ensures c.outputLevel == d.outputLevel != 0 ==> f.largest < g.smallest || g.largest < f.smallest
  {
    hide HasInput, InputsOk;
    assert Exclusive(c, d) && CompactionOk(c) && CompactionOk(d);
    assert InOne(running, f) && InOne(running, g);
  }

  // ---- key ranges -------------------------------------------------------------------------

  method GetRange(inputs: InputFiles) returns (lo: int, hi: int)
    requires inputs.files != [] && (inputs.level > 0 ==> Sorted(inputs.files))
    ensures Hull(inputs.files, lo, hi)
  {
    var files := inputs.files;
    lo, hi := files[0].smallest, files[0].largest;
    if inputs.level == 0 {
      for i := 0 to |files|
        invariant forall j | 0 <= j < i :: lo <= files[j].smallest && files[j].largest <= hi
        invariant (exists f | f in files :: f.smallest == lo) && (exists f | f in files :: f.largest == hi)
      {
        if i == 0 {
          lo, hi := files[i].smallest, files[i].largest;
        } else {
          if files[i].smallest < lo {
            lo := files[i].smallest;
          }
          if files[i].largest > hi {
            hi := files[i].largest;
          }
        }
      }
    } else {
      hi := files[|files| - 1].largest;
    }
  }

  /** The boundary keys of a compaction's inputs. */
  method GetBoundaryKeys(inputs: seq<InputFiles>) returns (lo: int, hi: int)
    requires InputsOk(inputs) && forall k | 0 <= k < |inputs| && inputs[k].level > 0 :: Sorted(inputs[k].files)
    ensures HullAll(inputs, lo, hi)
  {
    lo, hi := GetRange(inputs[0]);
    HullStart(inputs, lo, hi);
    for k := 1 to |inputs|
      invariant HullAll(inputs[..k], lo, hi)
    {
      if inputs[k].files == [] {
        HullSkip(inputs, k, lo, hi);
      } else {
        var a, b := GetRange(inputs[k]);
        HullMore(inputs, k, lo, hi, a, b);
        lo, hi := if a < lo then a else lo, if b > hi then b else hi;
      }
    }
    assert inputs[..|inputs|] == inputs;
  }

  lemma HasInputMore(inputs: seq<InputFiles>, k: nat, f: File)
    requires k < |inputs|
    ensures HasInput(inputs[..k + 1], f) <==> HasInput(inputs[..k], f) || f in inputs[k].files
  {
    var shorter, longer := inputs[..k], inputs[..k + 1];
    if HasInput(shorter, f) {
      var j :| 0 <= j < |shorter| && f in shorter[j].files;
      assert f in longer[j].files;
    }
    if f in inputs[k].files {
      assert f in longer[k].files;
    }
  }

  lemma HullStart(inputs: seq<InputFiles>, lo: int, hi: int)
    requires inputs != [] && Hull(inputs[0].files, lo, hi)
    ensures HullAll(inputs[..1], lo, hi)
  {
    forall f ensures HasInput(inputs[..1], f) <==> f in inputs[0].files {
      HasInputMore(inputs, 0, f);
      assert inputs[..0] == [];
    }
  }

  lemma HullSkip(inputs: seq<InputFiles>, k: nat, lo: int, hi: int)
    requires k < |inputs| && HullAll(inputs[..k], lo, hi) && inputs[k].files == []
    ensures HullAll(inputs[..k + 1], lo, hi)
  {
    hide HasInput;
    forall f ensures HasInput(inputs[..k + 1], f) <==> HasInput(inputs[..k], f) {
      HasInputMore(inputs, k, f);
    }
  }

  lemma HullMore(inputs: seq<InputFiles>, k: nat, lo: int, hi: int, a: int, b: int)
    requires k < |inputs| && HullAll(inputs[..k], lo, hi) && Hull(inputs[k].files, a, b)
    ensures HullAll(inputs[..k + 1], if a < lo then a else lo, if b > hi then b else hi)
  {
    hide HasInput;
    var longer := inputs[..k + 1];
    forall f ensures HasInput(longer, f) <==> HasInput(inputs[..k], f) || f in inputs[k].files {
      HasInputMore(inputs, k, f);
    }
  }

  // ---- one compaction more, one less ----------------------------------------------------------

  function AllFiles(inputs: seq<InputFiles>): set<File> {
    set k, f | 0 <= k < |inputs| && f in inputs[k].files :: f
  }

  lemma AllFilesAreInputs(inputs: seq<InputFiles>, f: File)
    ensures f in AllFiles(inputs) <==> HasInput(inputs, f)
  {
  }

  /** No running compaction writes to this level, below 0, within lo..hi. */
  ghost predicate RangeFree(running: set<Compaction>, lo: int, hi: int, level: nat) {
    level != 0 ==> forall c | c in running && c.outputLevel == level :: !OverlapsRange(c, lo, hi)
  }

  lemma RegisterKeepsInv(running: set<Compaction>, level0: set<Compaction>, busy: set<File>, c: Compaction)
    requires Inv(running, level0, busy) && CompactionOk(c) && RangeFree(running, c.smallest, c.largest, c.outputLevel)
    requires forall f | HasInput(c.inputs, f) :: f !in busy
    ensures c !in running
    ensures Inv(running + {c}, if c.inputs[0].level == 0 then level0 + {c} else level0, busy + AllFiles(c.inputs))
  {
    hide HasInput, InputsOk;
    var more := running + {c};
    var marked := busy + AllFiles(c.inputs);
    var g :| HasInput(c.inputs, g) && g.smallest == c.smallest;
    assert c in running ==> InOne(running, g);
    forall d, e | d in more && e in more && d != e ensures Exclusive(d, e) {
      forall f | HasInput(d.inputs, f) ensures !HasInput(e.inputs, f) {
        assert d in running ==> InOne(running, f);
        assert e in running && HasInput(e.inputs, f) ==> InOne(running, f);
        assert d in running && e in running ==> Exclusive(d, e);
      }
      assert d in running && e in running ==> Exclusive(d, e);
    }
    forall f ensures f in marked <==> InOne(more, f) {
      AllFilesAreInputs(c.inputs, f);
      OneMore(running, c, f);
    }
  }

  lemma OneMore(running: set<Compaction>, c: Compaction, f: File)
    ensures InOne(running + {c}, f) <==> InOne(running, f) || HasInput(c.inputs, f)
  {
  }

  lemma ReleaseKeepsInv(running: set<Compaction>, level0: set<Compaction>, busy: set<File>, c: Compaction)
    requires Inv(running, level0, busy) && c in running
    ensures AllFiles(c.inputs) <= busy
    ensures Inv(running - {c}, level0 - {c}, busy - AllFiles(c.inputs))
  {
    hide HasInput, InputsOk, HullAll;
    var fewer := running - {c};
    forall f ensures f in AllFiles(c.inputs) ==> f in busy {
      AllFilesAreInputs(c.inputs, f);
      assert f in AllFiles(c.inputs) ==> InOne(running, f);
    }
    forall f ensures f in busy - AllFiles(c.inputs) <==> InOne(fewer, f) {
      AllFilesAreInputs(c.inputs, f);
      if InOne(fewer, f) {
        var d :| d in fewer && HasInput(d.inputs, f);
        assert Exclusive(d, c);
      }
    }
  }

  // ---- the picker -------------------------------------------------------------------------------

  function Total(files: seq<File>): nat {
    if files == [] then 0 else files[0].size + Total(files[1..])
  }

  /** Bytes written per file that goes away when the first k + 1 files become one. */
  function Work(files: seq<File>, k: nat): int
    requires 0 < k < |files|
  {
    Total(files[..k + 1]) / k
  }

  /** What the version offers a pick: levels due by score, their files by priority and
      where to start among them, and the lists of marked files. */
  datatype Hints = Hints(due: seq<nat>, order: seq<seq<nat>>, next: seq<nat>, marked: seq<File>, random: nat,
                         bottommost: seq<File>, expired: seq<File>, lastNonEmpty: nat,
                         nvm: bool, trigger: nat, limit: nat)

  ghost predicate ListedIn(vs: Storage, busy: set<File>, files: seq<File>, below: nat) {
    forall i | 0 <= i < |files| ::
      files[i].level < below && files[i].level < |vs.levels| && files[i] in vs.levels[files[i].level] &&
      files[i] !in busy
  }

  /** The lists of marked files leave out files being compacted, as the source asserts. */
  ghost predicate HintsOk(vs: Storage, busy: set<File>, h: Hints) {
    && (forall i | 0 <= i < |h.due| :: h.due[i] + 1 < |vs.levels|)
    && |h.order| == |h.next| == |vs.levels| && h.lastNonEmpty < |vs.levels|
    && (forall l, i | 0 <= l < |h.order| && 0 <= i < |h.order[l]| :: h.order[l][i] < |vs.levels[l]|)
    && ListedIn(vs, busy, h.marked, |vs.levels| - 1) && ListedIn(vs, busy, h.bottommost, |vs.levels|)
    && ListedIn(vs, busy, h.expired, h.lastNonEmpty + 1) && (h.marked != [] ==> h.random < |h.marked|)
  }

  /** The first files of a pick. */
  datatype Start = Start(outputLevel: nat, inputs: InputFiles)

  lemma PartsDistinct(vs: Storage, a: InputFiles, b: InputFiles)
    requires PartOf(vs, a.level, a.files) && PartOf(vs, b.level, b.files)
    ensures Distinct(a.files) && Distinct(b.files)
  {
  }

  /** If inputs was a clean cut, r is one too and contains it; on level 0, it contains it. */
  ghost predicate StillClean(vs: Storage, inputs: InputFiles, r: InputFiles)
    requires inputs.level < |vs.levels|
  {
    && (inputs.level == 0 || CleanCut(vs, inputs.level, inputs.files) ==> Contains(r.files, inputs.files))
    && (inputs.level > 0 && CleanCut(vs, inputs.level, inputs.files) ==> CleanCut(vs, inputs.level, r.files))
  }

  class CompactionPicker {
    var running: set<Compaction>         // compactions_in_progress_
    var level0Running: set<Compaction>   // level0_compactions_in_progress_
    var beingCompacted: set<File>        // files whose being_compacted flag is up

    ghost predicate Valid()
      reads this
    {
      Inv(running, level0Running, beingCompacted)
    }

    constructor ()
      ensures Valid() && running == {} && beingCompacted == {}
    {
      running, level0Running, beingCompacted := {}, {}, {};
    }

    predicate Busy(files: seq<File>)
      reads this
    {
      AreFilesInCompaction(files, beingCompacted)
    }

    predicate RangeOverlapWithCompaction(lo: int, hi: int, level: nat)
      reads this
    {
      exists c | c in running :: c.outputLevel == level && OverlapsRange(c, lo, hi)
    }

    method FilesRangeOverlapWithCompaction(inputs: seq<InputFiles>, level: nat) returns (r: bool)
      requires InputsOk(inputs) && forall k | 0 <= k < |inputs| && inputs[k].level > 0 :: Sorted(inputs[k].files)
      ensures forall lo, hi | HullAll(inputs, lo, hi) :: r <==> RangeOverlapWithCompaction(lo, hi, level)
    {
      var lo, hi := GetBoundaryKeys(inputs);
      forall a, b | HullAll(inputs, a, b) ensures a == lo && b == hi {
        OneHull(inputs, lo, hi, a, b);
      }
      r := RangeOverlapWithCompaction(lo, hi, level);
    }

    /** Grow the inputs until no neighbour shares a boundary, and no further; give up if one
        is busy. */
    method ExpandInputsToCleanCut(vs: Storage, inputs: InputFiles) returns (ok: bool, r: InputFiles)
      requires WellFormed(vs) && inputs.files != [] && PartOf(vs, inputs.level, inputs.files)
      ensures r.level == inputs.level && r.files != [] && PartOf(vs, r.level, r.files)
      ensures if r.level == 0 then ok && r == inputs
              else LeastCut(vs, r.level, inputs.files, r.files) && (ok <==> !Busy(r.files))
    {
      hide WellFormed, CleanCut, Inside;
      r := inputs;
      if r.level == 0 {
        return true, r;
      }
      var grew := true;
      InsideItself(vs, r.level, r.files);
      while grew
        invariant r.level == inputs.level && r.files != [] && PartOf(vs, r.level, r.files)
        invariant Contains(r.files, inputs.files) && Inside(vs, r.level, inputs.files, r.files)
        invariant !grew ==> CleanCut(vs, r.level, r.files)
        decreases if grew then |vs.levels[inputs.level]| - |r.files| + 1 else 0
      {
        var size := |r.files|;
        var lo, hi := GetRange(r);
        GrowOnce(vs, r.level, inputs.files, r.files, lo, hi);
        r := InputFiles(r.level, vs.overlap(r.level, Some(lo), Some(hi)));
        grew := |r.files| > size;
      }
      ok := !Busy(r.files);
    }

    /** Files of the output level that meet the inputs, and more files of the input level if
        that brings in no more of the output level. */
    method SetupOtherInputs(vs: Storage, inputs: InputFiles, outputLevel: nat, limit: nat)
      returns (ok: bool, r: InputFiles, out: InputFiles)
      requires WellFormed(vs) && inputs.files != [] && PartOf(vs, inputs.level, inputs.files) && !Busy(inputs.files)
      requires inputs.level <= outputLevel < |vs.levels|
      ensures out.level == outputLevel && (inputs.level == outputLevel ==> ok && r == inputs && out.files == [])
      ensures ok ==> r.level == inputs.level && r.files != [] && PartOf(vs, r.level, r.files) && !Busy(r.files)
      ensures ok ==> PartOf(vs, outputLevel, out.files) && !Busy(out.files)
      ensures ok && inputs.level < outputLevel ==>
                Takes(vs, r.files, outputLevel, out.files) && CleanCut(vs, outputLevel, out.files)
      ensures ok ==> StillClean(vs, inputs, r)
    {
      hide WellFormed, CleanCut, Hull, Takes, Sorted, Distinct, Inside, TakesLeast;
      r, out, ok := inputs, InputFiles(outputLevel, []), true;
      NothingIsPart(vs, outputLevel);
      if inputs.level == outputLevel {
        return;
      }
      var lo, hi := GetRange(inputs);
      out := InputFiles(outputLevel, vs.overlap(outputLevel, Some(lo), Some(hi)));
      OverlapIsPart(vs, outputLevel, Some(lo), Some(hi));
      if Busy(out.files) {
        return false, r, out;
      }
      if out.files != [] {
        ok, out := ExpandInputsToCleanCut(vs, out);
        LeastTaken(vs, inputs.files, outputLevel, lo, hi, out.files);
        FoundTouches(vs, inputs.files, outputLevel, lo, hi, out.files);
        if ok {
          r := ExpandStart(vs, inputs, out, limit);
        }
      } else {
        NothingTaken(vs, inputs.files, outputLevel, lo, hi);
      }
    }

    /** Other files of the input level in place of inputs: idle, and out is still all that
        is taken from the output level. */
    ghost predicate Grown(vs: Storage, inputs: InputFiles, out: InputFiles, r: InputFiles)
      reads this
    {
      && r.level == inputs.level < |vs.levels| && out.level < |vs.levels|
      && r.files != [] && PartOf(vs, r.level, r.files) && !Busy(r.files)
      && Takes(vs, r.files, out.level, out.files) && StillClean(vs, inputs, r)
    }

    method ExpandStart(vs: Storage, inputs: InputFiles, out: InputFiles, limit: nat) returns (r: InputFiles)
      requires WellFormed(vs) && inputs.files != [] && PartOf(vs, inputs.level, inputs.files) && !Busy(inputs.files)
      requires out.files != [] && PartOf(vs, out.level, out.files) && inputs.level < out.level
      requires TakesLeast(vs, inputs.files, out.level, out.files) && Touches(inputs.files, out.files)
      ensures Grown(vs, inputs, out, r)
    {
      hide WellFormed, AreFilesInCompaction, Touches, Hull, CleanCut, Takes, Sorted, Distinct;
      r := inputs;
      var lo1, hi1 := RangeOf(vs, inputs);
      var lo2, hi2 := RangeOf(vs, out);
      var lo, hi := if lo1 < lo2 then lo1 else lo2, if hi1 < hi2 then hi2 else hi1;
      var expand, expanded := TryOverlapping(vs, inputs, out, lo1, hi1, lo, hi, limit);
      if !expand {
        expanded := InputFiles(inputs.level, vs.clean(inputs.level, Some(lo), Some(hi)));
        CleanKeeps(vs, inputs.level, inputs.files, lo1, hi1, lo, hi);
        HullsIntersect(inputs.files, out.files, lo1, hi1, lo2, hi2);
        expand := |expanded.files| > |inputs.files| && Total(out.files) + Total(expanded.files) < limit &&
                  !Busy(expanded.files);
        if expand {
          BetweenTaken(vs, inputs.files, out.level, out.files, lo1, hi1, lo2, hi2, expanded.files);
        }
      }
      if expand {
        r := expanded;
      }
    }

    method RangeOf(vs: Storage, inputs: InputFiles) returns (lo: int, hi: int)
      requires inputs.files != [] && PartOf(vs, inputs.level, inputs.files)
      ensures Hull(inputs.files, lo, hi)
    {
      lo, hi := GetRange(inputs);
    }

    /** All the input-level files within the outermost keys, grown to a clean cut, if they
        bring in no more of the output level. */
    method TryOverlapping(vs: Storage, inputs: InputFiles, out: InputFiles, ghost lo1: int, ghost hi1: int,
                          lo: int, hi: int, limit: nat) returns (expand: bool, expanded: InputFiles)
      requires WellFormed(vs) && inputs.files != [] && PartOf(vs, inputs.level, inputs.files)
      requires PartOf(vs, out.level, out.files) && inputs.level < out.level
      requires TakesLeast(vs, inputs.files, out.level, out.files) && Touches(inputs.files, out.files)
      requires Hull(inputs.files, lo1, hi1) && lo <= lo1 && hi1 <= hi
      ensures expand ==> Grown(vs, inputs, out, expanded)
    {
      hide WellFormed, AreFilesInCompaction, Touches, Hull, CleanCut, Takes, Sorted, Distinct, Inside;
      expanded := InputFiles(inputs.level, vs.overlap(inputs.level, Some(lo), Some(hi)));
      OverlapIsPart(vs, inputs.level, Some(lo), Some(hi));
      InRangeFound(vs, inputs.level, inputs.files, lo1, hi1, lo, hi);
      assert inputs.files[0] in expanded.files;
      var expandedSize := Total(expanded.files);
      var clean;
      clean, expanded := ExpandInputsToCleanCut(vs, expanded);
      expand := false;
      if clean && |expanded.files| > |inputs.files| && Total(out.files) + expandedSize < limit &&
         !Busy(expanded.files) {
        var lo3, hi3 := RangeOf(vs, expanded);
        var more := InputFiles(out.level, vs.overlap(out.level, Some(lo3), Some(hi3)));
        OverlapIsPart(vs, out.level, Some(lo3), Some(hi3));
        WiderFinds(vs, inputs.files, out.level, out.files, expanded.files, lo3, hi3);
        if !Busy(more.files) {
          var ok;
          ok, more := ExpandInputsToCleanCut(vs, more);
          TakenByWider(vs, expanded.files, out.level, lo3, hi3, more.files);
          expand := ok && |more.files| == |out.files|;
          if expand {
            PartsDistinct(vs, out, more);
            NoMoreTaken(vs, inputs.files, expanded.files, out.level, out.files, more.files);
          }
        }
      }
    }

    /** The Compaction constructor and RegisterCompaction: mark the inputs and list it. */
    method Register(inputs: seq<InputFiles>, outputLevel: nat) returns (c: Compaction)
      requires Valid() && InputsOk(inputs)
      requires forall k | 0 <= k < |inputs| && inputs[k].level > 0 :: Sorted(inputs[k].files)
      requires forall k | 0 <= k < |inputs| :: !AreFilesInCompaction(inputs[k].files, beingCompacted)
      requires forall k, f | 0 <= k < |inputs| && f in inputs[k].files :: f.smallest <= f.largest
      requires forall lo, hi | HullAll(inputs, lo, hi) :: RangeFree(running, lo, hi, outputLevel)
      modifies this
      ensures Valid() && c !in old(running) && running == old(running) + {c}
      ensures c.inputs == inputs && c.outputLevel == outputLevel
      ensures beingCompacted == old(beingCompacted) + AllFiles(inputs) && old(beingCompacted) !! AllFiles(inputs)
    {
      hide Inv, InputsOk, HullAll, Sorted, AllFiles, AreFilesInCompaction, RangeFree;
      NoInputBusy(inputs, beingCompacted);
      var lo, hi := GetBoundaryKeys(inputs);
      HullOrdered(inputs, lo, hi);
      c := Compaction(inputs, outputLevel, lo, hi);
      RegisterKeepsInv(running, level0Running, beingCompacted, c);
      beingCompacted := beingCompacted + AllFiles(inputs);
      if inputs[0].level == 0 {
        level0Running := level0Running + {c};
      }
      running := running + {c};
    }

    /** The test against running compactions, where the source makes it, and registration. */
    method Launch(vs: Storage, inputs: InputFiles, out: InputFiles, test: bool) returns (c: Option<Compaction>)
      requires Valid() && WellFormed(vs) && inputs.files != [] && PartOf(vs, inputs.level, inputs.files)
      requires !Busy(inputs.files) && !Busy(out.files) && out.level < |vs.levels| && (test || out.level == 0)
      requires out.files != [] ==> PartOf(vs, out.level, out.files) && inputs.level < out.level
      requires inputs.level < out.level ==> Takes(vs, inputs.files, out.level, out.files)
      modifies this
      ensures Valid() && (c.None? ==> unchanged(this))
      ensures c.Some? ==> c.value !in old(running) && running == old(running) + {c.value} &&
                          c.value.outputLevel == out.level && c.value.inputs != [] && c.value.inputs[0] == inputs &&
                          beingCompacted == old(beingCompacted) + AllFiles(c.value.inputs) &&
                          old(beingCompacted) !! AllFiles(c.value.inputs) && OutputTaken(vs, c.value)
    {
      hide Inv, Sorted, AllFiles, WellFormed, AreFilesInCompaction, Distinct, OutputTaken, Takes;
      c := None;
      var all := if out.files == [] then [inputs] else [inputs, out];
      PicksOk(vs, inputs, out, all);
      if test {
        var taken := FilesRangeOverlapWithCompaction(all, out.level);
        if taken {
          return;
        }
      }
      var made := Register(all, out.level);
      TakenAreInputs(vs, inputs, out, made);
      c := Some(made);
    }

    method ReleaseCompactionFiles(c: Compaction)
      requires Valid() && c in running
      modifies this
      ensures Valid() && running == old(running) - {c} && beingCompacted == old(beingCompacted) - AllFiles(c.inputs)
    {
      ReleaseKeepsInv(running, level0Running, beingCompacted, c);
      beingCompacted := beingCompacted - AllFiles(c.inputs);
      level0Running := level0Running - {c};
      running := running - {c};
    }

    // ---- automatic picks ---------------------------------------------------------------------

    /** First files of a pick: idle, or on level 0 with no level-0 compaction running. */
    ghost predicate StartOk(vs: Storage, s: Start)
      reads this
    {
      var l := s.inputs.level;
      && s.inputs.files != [] && PartOf(vs, l, s.inputs.files) && l <= s.outputLevel < |vs.levels|
      && (if l == 0 && s.outputLevel != 0 then level0Running == {} else !Busy(s.inputs.files))
    }

    function NextLevel(vs: Storage, l: nat): nat {
      if l == 0 then vs.baseLevel else l + 1
    }

    /** A pick that starts from one idle file. */
    method StartFrom(vs: Storage, f: File, outputLevel: nat) returns (s: Option<Start>)
      requires WellFormed(vs) && f.level < |vs.levels| && f in vs.levels[f.level] && f !in beingCompacted
      requires f.level <= outputLevel < |vs.levels| && (f.level == 0 && outputLevel != 0 ==> level0Running == {})
      ensures s.Some? ==> StartOk(vs, s.value) && s.value.outputLevel == outputLevel && s.value.inputs.level == f.level
    {
      OneFile(vs, f);
      var ok, inputs := ExpandInputsToCleanCut(vs, InputFiles(f.level, [f]));
      s := if ok then Some(Start(outputLevel, inputs)) else None;
    }

    /** No running compaction writes to the output level within the range of the start, and
        what it will take from there is idle. */
    ghost predicate Unopposed(vs: Storage, s: Start)
      requires s.outputLevel < |vs.levels|
      reads this
    {
      && (forall lo, hi | Hull(s.inputs.files, lo, hi) :: !RangeOverlapWithCompaction(lo, hi, s.outputLevel))
      && exists out :: TakesLeast(vs, s.inputs.files, s.outputLevel, out) && !Busy(out)
    }

    /** Files to start from f with: f alone on level 0, else the least clean cut with it. */
    static ghost predicate StartCut(vs: Storage, f: File, cut: seq<File>)
      requires f.level < |vs.levels|
    {
      if f.level == 0 then cut == [f] else LeastCut(vs, f.level, [f], cut)
    }

    ghost predicate CutSuits(vs: Storage, cut: InputFiles, outputLevel: nat)
      requires outputLevel < |vs.levels|
      reads this
    {
      !Busy(cut.files) && Unopposed(vs, Start(outputLevel, cut))
    }

    /** A pick can start from f: neither f nor a file that must come along is busy, and
        nothing on the output level is in the way. */
    ghost predicate Suits(vs: Storage, f: File, outputLevel: nat)
      requires f.level < |vs.levels| && outputLevel < |vs.levels|
      reads this
    {
      f !in beingCompacted &&
      exists cut :: StartCut(vs, f, cut) && CutSuits(vs, InputFiles(f.level, cut), outputLevel)
    }

    lemma SameCutSuits(vs: Storage, level: nat, a: seq<File>, b: seq<File>, outputLevel: nat)
      requires Contains(a, b) && Contains(b, a) && outputLevel < |vs.levels|
      requires CutSuits(vs, InputFiles(level, a), outputLevel)
      ensures CutSuits(vs, InputFiles(level, b), outputLevel)
    {
      hide TakesLeast, Hull;
      SameHulls(a, b);
      var out :| TakesLeast(vs, a, outputLevel, out) && !Busy(out);
      SameTakesLeast(vs, a, b, outputLevel, out);
    }

    /** All ways to start from f suit, or none does. */
    lemma OneCut(vs: Storage, f: File, cut: seq<File>, outputLevel: nat)
      requires f.level < |vs.levels| && outputLevel < |vs.levels| && f !in beingCompacted && StartCut(vs, f, cut)
      ensures Suits(vs, f, outputLevel) <==> CutSuits(vs, InputFiles(f.level, cut), outputLevel)
    {
      hide LeastCut, CompactionPicker.CutSuits;
      forall other | StartCut(vs, f, other) && CutSuits(vs, InputFiles(f.level, other), outputLevel)
        ensures CutSuits(vs, InputFiles(f.level, cut), outputLevel) {
        if f.level > 0 {
          LeastIsOne(vs, f.level, [f], cut, other);
        }
        SameCutSuits(vs, f.level, other, cut, outputLevel);
      }
    }

    /** One file of the loop in PickFileToCompact. */
    method TryFile(vs: Storage, f: File, outputLevel: nat) returns (s: Option<Start>)
      requires WellFormed(vs) && f.level < outputLevel < |vs.levels| && f in vs.levels[f.level]
      requires f.level == 0 ==> level0Running == {}
      ensures s.Some? <==> Suits(vs, f, outputLevel)
      ensures s.Some? ==> StartOk(vs, s.value) && s.value.outputLevel == outputLevel && Unopposed(vs, s.value)
      ensures s.Some? ==> s.value.inputs.level == f.level && StartCut(vs, f, s.value.inputs.files)
    {
      hide WellFormed, TakesLeast, InputsOk, HullAll, LeastCut, Hull;
      s := None;
      if f in beingCompacted {
        return;
      }
      OneFile(vs, f);
      var ok, inputs := ExpandInputsToCleanCut(vs, InputFiles(f.level, [f]));
      OneCut(vs, f, inputs.files, outputLevel);
      if !ok {
        return;
      }
      InputsOfOne(vs, inputs);
      HullOfOne(inputs);
      var taken := FilesRangeOverlapWithCompaction([inputs], outputLevel);
      if taken {
        var lo, hi := RangeOf(vs, inputs);
        assert RangeOverlapWithCompaction(lo, hi, outputLevel);
        return;
      }
      var free := OutputFree(vs, inputs, outputLevel);
      if free {
        s := Some(Start(outputLevel, inputs));
      }
    }

    /** The first file in the given order, from next on, that a pick can start from. */
    method PickFileToCompact(vs: Storage, level: nat, outputLevel: nat, order: seq<nat>, next: nat)
      returns (s: Option<Start>)
      requires WellFormed(vs) && level < outputLevel < |vs.levels|
      requires forall i | 0 <= i < |order| :: order[i] < |vs.levels[level]|
      ensures s.Some? ==> StartOk(vs, s.value) && s.value.outputLevel == outputLevel && Unopposed(vs, s.value)
      ensures s.Some? <==> !(level == 0 && level0Running != {}) && SuitableFrom(vs, level, outputLevel, order, next)
      ensures s.Some? ==> exists i :: StartsAt(vs, level, outputLevel, order, next, i, s.value.inputs.files)
    {
      hide WellFormed, AreFilesInCompaction, CompactionPicker.Suits, CompactionPicker.StartCut,
           CompactionPicker.StartOk, CompactionPicker.Unopposed;
      s := None;
      if level == 0 && level0Running != {} {
        return;
      }
      var cmp := next;
      while s.None? && cmp < |order|
        invariant s.None? ==> forall i | next <= i < cmp && i < |order| :: !SuitsAt(vs, level, outputLevel, order, i)
        invariant s.Some? ==>
                    && next < cmp <= |order|
                    && StartsAt(vs, level, outputLevel, order, next, cmp - 1, s.value.inputs.files)
        invariant s.Some? ==> StartOk(vs, s.value) && s.value.outputLevel == outputLevel && Unopposed(vs, s.value)
        decreases |order| - cmp
      {
        FileOk(vs, level, vs.levels[level][order[cmp]]);
        s := TryFile(vs, vs.levels[level][order[cmp]], outputLevel);
        cmp := cmp + 1;
      }
    }

    ghost predicate SuitsAt(vs: Storage, level: nat, outputLevel: nat, order: seq<nat>, i: nat)
      reads this
    {
      && level < |vs.levels| && outputLevel < |vs.levels| && i < |order| && order[i] < |vs.levels[level]|
      && vs.levels[level][order[i]].level == level && Suits(vs, vs.levels[level][order[i]], outputLevel)
    }

    ghost predicate SuitableFrom(vs: Storage, level: nat, outputLevel: nat, order: seq<nat>, next: nat)
      reads this
    {
      exists i :: next <= i && SuitsAt(vs, level, outputLevel, order, i)
    }

    /** Position i is the first that suits, and files are those to start with. */
    ghost predicate StartsAt(vs: Storage, level: nat, outputLevel: nat, order: seq<nat>, next: nat, i: nat,
                             files: seq<File>)
      reads this
    {
      && next <= i && SuitsAt(vs, level, outputLevel, order, i) && StartCut(vs, vs.levels[level][order[i]], files)
      && (forall j | next <= j < i :: !SuitsAt(vs, level, outputLevel, order, j))
    }

    /** Whether the output-level files that meet the inputs, grown to a clean cut, are idle. */
    method OutputFree(vs: Storage, inputs: InputFiles, outputLevel: nat) returns (ok: bool)
      requires WellFormed(vs) && inputs.files != [] && PartOf(vs, inputs.level, inputs.files) &&
               0 < outputLevel < |vs.levels|
      ensures ok <==> exists out :: TakesLeast(vs, inputs.files, outputLevel, out) && !Busy(out)
    {
      hide WellFormed, CleanCut, Hull, Takes, Sorted, Distinct, Inside;
      var lo, hi := GetRange(inputs);
      var out := InputFiles(outputLevel, vs.overlap(outputLevel, Some(lo), Some(hi)));
      OverlapIsPart(vs, outputLevel, Some(lo), Some(hi));
      ok := true;
      if out.files != [] {
        ok, out := ExpandInputsToCleanCut(vs, out);
      }
      OneLeast(vs, inputs.files, outputLevel, lo, hi, out.files);
      if !ok {
        forall other | TakesLeast(vs, inputs.files, outputLevel, other) ensures Busy(other) {
          BusyPart(other, out.files, beingCompacted);
        }
      }
    }

    /** The longest span of idle level-0 files from the newest on for which the work per
        deleted file does not grow. */
    method PickIntraL0Compaction(vs: Storage, trigger: nat) returns (s: Option<Start>)
      requires WellFormed(vs)
      ensures s.Some? ==> StartOk(vs, s.value) && s.value.outputLevel == 0 && s.value.inputs.level == 0
      ensures s.Some? ==> var n := |s.value.inputs.files|;
                          && 4 <= n <= |vs.levels[0]| && s.value.inputs.files == vs.levels[0][..n]
                          && LongestSpan(vs.levels[0], beingCompacted, n)
    {
      LevelIsPart(vs, 0);
      hide WellFormed, Work;
      var files := vs.levels[0];
      s := None;
      if |files| < trigger + 2 || files[0] in beingCompacted {
        return;
      }
      var span := SpanOf(files);
      if span >= 4 {
        PartPrefix(vs, 0, files, span);
        s := Some(Start(0, InputFiles(0, files[..span])));
      }
    }

    /** n is the longest prefix of idle files over which the work per deleted file never
        grows. */
    static ghost predicate LongestSpan(files: seq<File>, busy: set<File>, n: nat) {
      && 0 < n <= |files| && (forall i | 0 <= i < n :: files[i] !in busy)
      && (forall k | 2 <= k < n :: Work(files, k) <= Work(files, k - 1))
      && (n < |files| ==> files[n] in busy || (n > 1 && Work(files, n) > Work(files, n - 1)))
    }

    method SpanOf(files: seq<File>) returns (span: nat)
      requires files != [] && files[0] !in beingCompacted
      ensures LongestSpan(files, beingCompacted, span)
    {
      hide Total;
      TotalFirst(files);
      var bytes, perFile: Option<int> := files[0].size, None;
      span := 1;
      while span < |files|
        invariant 1 <= span <= |files| && bytes == Total(files[..span])
        invariant forall i | 0 <= i < span :: files[i] !in beingCompacted
        invariant perFile == if span == 1 then None else Some(Work(files, span - 1))
        invariant forall k | 2 <= k < span :: Work(files, k) <= Work(files, k - 1)
      {
        TotalOneMore(files, span);
        bytes := bytes + files[span].size;
        var now := bytes / span;
        assert now == Work(files, span);
        if files[span] in beingCompacted || (perFile.Some? && now > perFile.value) {
          break;
        }
        perFile := Some(now);
        span := span + 1;
      }
    }

    method PickFilesMarkedForCompaction(vs: Storage, marked: seq<File>, random: nat) returns (s: Option<Start>)
      requires WellFormed(vs) && ListedIn(vs, beingCompacted, marked, |vs.levels| - 1) &&
               (marked != [] ==> random < |marked|)
      ensures s.Some? ==> StartOk(vs, s.value)
    {
      s := None;
      if marked == [] {
        return;
      }
      s := StartMarked(vs, marked[random]);
      var i := 0;
      while s.None? && i < |marked|
        invariant s.Some? ==> StartOk(vs, s.value)
      {
        s := StartMarked(vs, marked[i]);
        i := i + 1;
      }
    }

    method StartMarked(vs: Storage, f: File) returns (s: Option<Start>)
      requires WellFormed(vs) && f.level + 1 < |vs.levels| && f in vs.levels[f.level] && f !in beingCompacted
      ensures s.Some? ==> StartOk(vs, s.value)
    {
      s := None;
      if !(f.level == 0 && level0Running != {}) {
        s := StartFrom(vs, f, NextLevel(vs, f.level));
      }
    }

    method PickBottommost(vs: Storage, files: seq<File>) returns (s: Option<Start>)
      requires WellFormed(vs) && ListedIn(vs, beingCompacted, files, |vs.levels|)
      ensures s.Some? ==> StartOk(vs, s.value)
    {
      s := None;
      var i := 0;
      while s.None? && i < |files|
        invariant s.Some? ==> StartOk(vs, s.value)
      {
        s := StartFrom(vs, files[i], files[i].level);
        i := i + 1;
      }
    }

    method PickExpiredTtlFiles(vs: Storage, files: seq<File>, lastNonEmpty: nat) returns (s: Option<Start>)
      requires WellFormed(vs) && ListedIn(vs, beingCompacted, files, lastNonEmpty + 1) && lastNonEmpty < |vs.levels|
      ensures s.Some? ==> StartOk(vs, s.value)
    {
      s := None;
      var i := 0;
      while s.None? && i < |files|
        invariant s.Some? ==> StartOk(vs, s.value)
      {
        if files[i].level != lastNonEmpty {
          s := StartMarked(vs, files[i]);
        }
        i := i + 1;
      }
    }

    method SetupInitialFiles(vs: Storage, h: Hints) returns (s: Option<Start>)
      requires WellFormed(vs) && HintsOk(vs, beingCompacted, h)
      ensures s.Some? ==> StartOk(vs, s.value)
    {
      s := None;
      var skippedL0ToBase := false;
      var i := 0;
      while s.None? && i < |h.due|
        invariant s.Some? ==> StartOk(vs, s.value)
      {
        var level := h.due[i];
        if !(h.nvm && level == 0) && !(skippedL0ToBase && level == vs.baseLevel) {
          s := PickFileToCompact(vs, level, NextLevel(vs, level), h.order[level], h.next[level]);
          if s.None? && level == 0 {
            skippedL0ToBase := true;
            s := PickIntraL0Compaction(vs, h.trigger);
          }
        }
        i := i + 1;
      }
      if s.None? {
        s := PickFilesMarkedForCompaction(vs, h.marked, h.random);
      }
      if s.None? {
        s := PickBottommost(vs, h.bottommost);
      }
      if s.None? {
        s := PickExpiredTtlFiles(vs, h.expired, h.lastNonEmpty);
      }
    }

    /** The rest of a pick once its first files are set: other level-0 files, files of the
        output level, and the check against running compactions. */
    method CompletePick(vs: Storage, s: Start, limit: nat) returns (c: Option<Compaction>)
      requires Valid() && WellFormed(vs) && StartOk(vs, s)
      modifies this
      ensures Valid() && (c.None? ==> unchanged(this))
      ensures c.Some? ==> c.value !in old(running) && running == old(running) + {c.value} &&
                          c.value.outputLevel == s.outputLevel &&
                          beingCompacted == old(beingCompacted) + AllFiles(c.value.inputs) &&
                          old(beingCompacted) !! AllFiles(c.value.inputs) && OutputTaken(vs, c.value)
    {
      hide Inv, Sorted, AllFiles, WellFormed, AreFilesInCompaction, Distinct, OutputTaken, Takes, CleanCut;
      c := None;
      var inputs := s.inputs;
      if inputs.level == 0 && s.outputLevel != 0 {
        var lo, hi := GetRange(inputs);
        MeetsItself(vs, inputs, lo, hi);
        inputs := InputFiles(0, vs.overlap(0, Some(lo), Some(hi)));
        OverlapIsPart(vs, 0, Some(lo), Some(hi));
        Level0Free(vs, running, beingCompacted, inputs.files);
        lo, hi := GetRange(inputs);
        if Busy(vs.overlap(s.outputLevel, Some(lo), Some(hi))) {
          return;
        }
      }
      var out := InputFiles(s.outputLevel, []);
      NoneBusy(beingCompacted);
      if s.outputLevel != 0 {
        var ok;
        ok, inputs, out := SetupOtherInputs(vs, inputs, s.outputLevel, limit);
        if !ok {
          return;
        }
      }
      c := Launch(vs, inputs, out, s.outputLevel != 0);
    }

    method PickCompaction(vs: Storage, h: Hints) returns (c: Option<Compaction>)
      requires Valid() && WellFormed(vs) && HintsOk(vs, beingCompacted, h)
      modifies this
      ensures Valid() && (c.None? ==> unchanged(this))
      ensures c.Some? ==> c.value !in old(running) && running == old(running) + {c.value} &&
                          beingCompacted == old(beingCompacted) + AllFiles(c.value.inputs) &&
                          old(beingCompacted) !! AllFiles(c.value.inputs) && OutputTaken(vs, c.value)
    {
      hide Inv, HintsOk, WellFormed, AllFiles, OutputTaken;
      c := None;
      var s := SetupInitialFiles(vs, h);
      if s.Some? {
        c := CompletePick(vs, s.value, h.limit);
      }
    }

    // ---- manual compaction ------------------------------------------------------------------

    /** How many of the files to take in one shot, when their total reaches the limit. */
    method CutAtLimit(files: seq<File>, limit: nat) returns (n: nat)
      requires files != []
      ensures 1 <= n <= |files| && (n < |files| ==> Total(files[..n]) >= limit && Total(files[..n - 1]) < Max(limit, 1))
    {
      var total := 0;
      n := |files|;
      for i := 0 to |files| - 1
        invariant total == Total(files[..i]) && (i > 0 ==> total < limit)
      {
        TotalOneMore(files, i);
        total := total + files[i].size;
        if total >= limit {
          return i + 1;
        }
      }
    }

    /** The input-level files of a manual compaction, and where the next one goes on: all that
        meet the range or as many as the limit allows, grown to a clean cut. */
    method RangeStart(vs: Storage, level: nat, begin: Option<int>, end: Option<int>, limit: nat)
      returns (ok: bool, inputs: InputFiles, resume: Option<int>)
      requires WellFormed(vs) && level < |vs.levels| && vs.overlap(level, begin, end) != []
      ensures inputs.level == level && inputs.files != [] && PartOf(vs, level, inputs.files)
      ensures if level == 0 then ok else CleanCut(vs, level, inputs.files) && (ok <==> !Busy(inputs.files))
      ensures Covered(vs, level, begin, end, inputs.files, resume)
    {
      hide WellFormed, CleanCut, AreFilesInCompaction, Sorted, Distinct, Inside, Hull, Covered;
      var found := vs.overlap(level, begin, end);
      OverlapIsPart(vs, level, begin, end);
      var n := |found|;
      if level > 0 {
        n := CutAtLimit(found, limit);
      }
      PartPrefix(vs, level, found, n);
      ok, inputs := ExpandInputsToCleanCut(vs, InputFiles(level, found[..n]));
      resume := None;
      if n < |found| {
        var lo, hi := RangeOf(vs, inputs);
        resume := NextSmallest(vs.levels[level], hi);
        CoversPrefix(vs, level, begin, end, n, inputs.files, lo, hi);
      } else {
        assert found[..n] == found;
        CoversAll(vs, level, begin, end, inputs.files, resume);
      }
    }

    /** CompactRange on one input level: a conflict is reported when something is running.
        What meets the range and is not compacted starts at resume or later. */
    method CompactRange(vs: Storage, inputLevel: nat, outputLevel: nat, begin: Option<int>, end: Option<int>,
                        limit: nat)
      returns (c: Option<Compaction>, conflict: bool, resume: Option<int>)
      requires Valid() && WellFormed(vs) && inputLevel <= outputLevel < |vs.levels|
      modifies this
      ensures Valid() && (c.None? ==> unchanged(this)) && (conflict ==> c.None?)
      ensures c.None? && !conflict ==> forall f | f in vs.levels[inputLevel] :: !Meets(f, begin, end)
      ensures c.Some? ==> c.value !in old(running) && running == old(running) + {c.value} &&
                          c.value.outputLevel == outputLevel && c.value.inputs != [] &&
                          Covered(vs, inputLevel, begin, end, c.value.inputs[0].files, resume) &&
                          beingCompacted == old(beingCompacted) + AllFiles(c.value.inputs) &&
                          old(beingCompacted) !! AllFiles(c.value.inputs) && OutputTaken(vs, c.value)
    {
      hide Inv, Sorted, AllFiles, WellFormed, AreFilesInCompaction, Distinct, OutputTaken, Takes, CleanCut, Covered;
      c, conflict, resume := None, false, None;
      if vs.overlap(inputLevel, begin, end) == [] {
        NothingFound(vs, inputLevel, begin, end);
        return;
      }
      if inputLevel == 0 && level0Running != {} {
        return None, true, None;
      }
      var ok, inputs;
      ok, inputs, resume := RangeStart(vs, inputLevel, begin, end, limit);
      if !ok {
        return None, true, resume;
      }
      if inputLevel == 0 {
        Level0Free(vs, running, beingCompacted, inputs.files);
      }
      ghost var first := inputs;
      var out := InputFiles(outputLevel, []);
      if inputLevel != outputLevel {
        ok, inputs, out := SetupOtherInputs(vs, inputs, outputLevel, limit);
        if !ok {
          return None, true, resume;
        }
        StaysCovered(vs, inputLevel, begin, end, first, inputs, resume);
      }
      if Busy(inputs.files) || Busy(out.files) {
        return None, true, resume;
      }
      c := Launch(vs, inputs, out, true);
      conflict := c.None?;
    }

    /** CompactRange over all levels, for universal style: every file goes into one level, which
        the caller has set. */
    method CompactAllLevels(vs: Storage, outputLevel: nat) returns (c: Option<Compaction>, conflict: bool)
      requires Valid() && WellFormed(vs)
      modifies this
      ensures Valid() && (c.None? ==> unchanged(this)) && (conflict ==> c.None?)
      ensures c.None? && !conflict ==> forall l | 0 <= l < |vs.levels| :: vs.levels[l] == []
      ensures c.Some? ==> c.value !in old(running) && running == old(running) + {c.value} &&
                          c.value.outputLevel == outputLevel &&
                          (forall l, f | 0 <= l < |vs.levels| && f in vs.levels[l] :: HasInput(c.value.inputs, f)) &&
                          beingCompacted == old(beingCompacted) + AllFiles(c.value.inputs) &&
                          old(beingCompacted) !! AllFiles(c.value.inputs)
    {
      hide Inv, Sorted, AllFiles, AreFilesInCompaction, Distinct, HasInput, HullAll, InputsOk;
      c, conflict := None, false;
      var start := 0;
      while start < |vs.levels| && vs.levels[start] == []
        invariant start <= |vs.levels| && forall l | 0 <= l < start :: vs.levels[l] == []
      {
        start := start + 1;
      }
      if start == |vs.levels| {
        return;
      }
      if start == 0 && level0Running != {} {
        return None, true;
      }
      var inputs: seq<InputFiles> := [];
      for l := start to |vs.levels|
        invariant |inputs| == l - start && forall k | 0 <= k < |inputs| ::
          inputs[k] == InputFiles(start + k, vs.levels[start + k]) && !Busy(inputs[k].files)
      {
        if Busy(vs.levels[l]) {
          return None, true;
        }
        inputs := inputs + [InputFiles(l, vs.levels[l])];
      }
      AllLevelsOk(vs, start, inputs);
      var taken := FilesRangeOverlapWithCompaction(inputs, outputLevel);
      if taken {
        return None, true;
      }
      var made := Register(inputs, outputLevel);
      c := Some(made);
    }
  }

  function Max(a: nat, b: nat): nat {
    if a > b then a else b
  }

  lemma TotalFirst(files: seq<File>)
    requires files != []
    ensures Total(files[..1]) == files[0].size
  {
    assert files[..1][1..] == [];
  }

  lemma {:induction false} TotalOneMore(files: seq<File>, i: nat)
    requires i < |files|
    ensures Total(files[..i + 1]) == Total(files[..i]) + files[i].size
  {
    if i > 0 {
      TotalOneMore(files[1..], i - 1);
      assert files[..i + 1][1..] == files[1..][..i] && files[..i][1..] == files[1..][..i - 1];
    } else {
      assert files[..1][1..] == [] && files[..0] == [];
    }
  }

  lemma MeetsItself(vs: Storage, inputs: InputFiles, lo: int, hi: int)
    requires WellFormed(vs) && inputs.files != [] && PartOf(vs, inputs.level, inputs.files) &&
             Hull(inputs.files, lo, hi)
    ensures vs.overlap(inputs.level, Some(lo), Some(hi)) != []
  {
    FoundAgain(vs, inputs.level, inputs.files, lo, hi);
    assert inputs.files[0] in inputs.files;
  }

  lemma Level0Free(vs: Storage, running: set<Compaction>, busy: set<File>, files: seq<File>)
    requires WellFormed(vs) && PartOf(vs, 0, files) && Inv(running, {}, busy)
    ensures !AreFilesInCompaction(files, busy)
  {
    hide Inv;
    forall f | f in files ensures f !in busy {
      FileOk(vs, 0, f);
      if f in busy {
        BusyLevel0(running, {}, busy, f);
      }
    }
  }

  lemma PicksOk(vs: Storage, inputs: InputFiles, out: InputFiles, all: seq<InputFiles>)
    requires WellFormed(vs) && inputs.files != [] && PartOf(vs, inputs.level, inputs.files)
    requires out.files != [] ==> PartOf(vs, out.level, out.files) && inputs.level < out.level
    requires all == if out.files == [] then [inputs] else [inputs, out]
    ensures InputsOk(all) && forall k | 0 <= k < |all| && all[k].level > 0 :: Sorted(all[k].files)
    ensures forall k, f | 0 <= k < |all| && f in all[k].files :: f.smallest <= f.largest
  {
    forall f | f in inputs.files ensures f.level == inputs.level && f.smallest <= f.largest {
      FileOk(vs, inputs.level, f);
    }
    forall f | f in out.files ensures f.level == out.level && f.smallest <= f.largest {
      FileOk(vs, out.level, f);
    }
  }

  lemma InputsOfOne(vs: Storage, inputs: InputFiles)
    requires WellFormed(vs) && inputs.files != [] && PartOf(vs, inputs.level, inputs.files)
    ensures InputsOk([inputs])
  {
    forall f | f in inputs.files ensures f.level == inputs.level {
      FileOk(vs, inputs.level, f);
    }
  }

  lemma HullOfOne(inputs: InputFiles)
    ensures forall lo, hi :: HullAll([inputs], lo, hi) <==> Hull(inputs.files, lo, hi)
  {
    var all := [inputs];
    forall f ensures HasInput(all, f) <==> f in inputs.files {
      assert all[0] == inputs;
    }
  }

  lemma NoneBusy(busy: set<File>)
    ensures !AreFilesInCompaction([], busy)
  {
  }

  lemma BusyPart(bigger: seq<File>, files: seq<File>, busy: set<File>)
    requires Contains(bigger, files) && AreFilesInCompaction(files, busy)
    ensures AreFilesInCompaction(bigger, busy)
  {
  }

  /** Every file of the output level with a key within the range of the first inputs is an
      input too. */
  ghost predicate OutputTaken(vs: Storage, c: Compaction) {
    c.inputs != [] && c.inputs[0].level < c.outputLevel < |vs.levels| ==>
      forall lo, hi, f |
        Hull(c.inputs[0].files, lo, hi) && f in vs.levels[c.outputLevel] && Meets(f, Some(lo), Some(hi)) ::
        HasInput(c.inputs, f)
  }

  lemma TakenAreInputs(vs: Storage, inputs: InputFiles, out: InputFiles, c: Compaction)
    requires out.level < |vs.levels| && c.inputs == (if out.files == [] then [inputs] else [inputs, out])
    requires c.outputLevel == out.level && (inputs.level < out.level ==> Takes(vs, inputs.files, out.level, out.files))
    ensures OutputTaken(vs, c)
  {
    forall f | f in out.files ensures HasInput(c.inputs, f) {
      assert f in c.inputs[1].files;
    }
  }

  lemma NothingFound(vs: Storage, l: nat, begin: Option<int>, end: Option<int>)
    requires WellFormed(vs) && l < |vs.levels| && vs.overlap(l, begin, end) == []
    ensures forall f | f in vs.levels[l] :: !Meets(f, begin, end)
  {
    assert OverlapOk(vs, l, begin, end);
  }

  lemma StaysCovered(vs: Storage, l: nat, begin: Option<int>, end: Option<int>, inputs: InputFiles, r: InputFiles,
                     resume: Option<int>)
    requires l == inputs.level < |vs.levels| && Covered(vs, l, begin, end, inputs.files, resume)
    requires StillClean(vs, inputs, r) && (l > 0 ==> CleanCut(vs, l, inputs.files))
    ensures Covered(vs, l, begin, end, r.files, resume)
  {
  }

  lemma AllLevelsOk(vs: Storage, start: nat, inputs: seq<InputFiles>)
    requires WellFormed(vs) && start < |vs.levels| && vs.levels[start] != [] && |inputs| == |vs.levels| - start
    requires forall l | 0 <= l < start :: vs.levels[l] == []
    requires forall k | 0 <= k < |inputs| :: inputs[k] == InputFiles(start + k, vs.levels[start + k])
    ensures InputsOk(inputs) && forall k | 0 <= k < |inputs| && inputs[k].level > 0 :: Sorted(inputs[k].files)
    ensures forall k, f | 0 <= k < |inputs| && f in inputs[k].files :: f.smallest <= f.largest
    ensures forall l, f | 0 <= l < |vs.levels| && f in vs.levels[l] :: HasInput(inputs, f)
  {
    forall k | 0 <= k < |inputs| ensures PartOf(vs, start + k, inputs[k].files) {
      LevelIsPart(vs, start + k);
    }
    forall l, f | 0 <= l < |vs.levels| && f in vs.levels[l] ensures HasInput(inputs, f) {
      assert f in inputs[l - start].files;
    }
    forall k, f | 0 <= k < |inputs| && f in inputs[k].files
      ensures f.level == inputs[k].level && f.smallest <= f.largest {
      FileOk(vs, start + k, f);
    }
  }

  lemma NoInputBusy(inputs: seq<InputFiles>, busy: set<File>)
    requires forall k | 0 <= k < |inputs| :: !AreFilesInCompaction(inputs[k].files, busy)
    ensures (forall f | HasInput(inputs, f) :: f !in busy) && busy !! AllFiles(inputs)
  {
  }

  lemma HullOrdered(inputs: seq<InputFiles>, lo: int, hi: int)
    requires HullAll(inputs, lo, hi)
    requires forall k, f | 0 <= k < |inputs| && f in inputs[k].files :: f.smallest <= f.largest
    ensures lo <= hi
  {
  }

  lemma OneHull(inputs: seq<InputFiles>, lo: int, hi: int, a: int, b: int)
    requires HullAll(inputs, lo, hi) && HullAll(inputs, a, b)
    ensures lo == a && hi == b
  {
  }
}
