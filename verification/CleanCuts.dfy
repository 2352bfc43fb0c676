/** The files a compaction takes, and clean cuts (db/compaction_picker.cc,
    db/version_set.cc): no user key is in a file that is taken and in one of the same level
    that is left behind. The two searches over a level are parameters with a contract. */
module CleanCuts {
  import opened Wrappers

  datatype File = File(id: nat, level: nat, smallest: int, largest: int, size: nat)

  datatype InputFiles = InputFiles(level: nat, files: seq<File>)

  /** overlap and clean stand for GetOverlappingInputs and GetCleanInputsWithinInterval. */
  datatype Storage = Storage(levels: seq<seq<File>>, baseLevel: nat,
                             overlap: (nat, Option<int>, Option<int>) -> seq<File>,
                             clean: (nat, Option<int>, Option<int>) -> seq<File>)

  ghost predicate Sorted(files: seq<File>) {
    forall i, j | 0 <= i < j < |files| :: files[i].smallest <= files[j].smallest && files[i].largest <= files[j].largest
  }

  ghost predicate Distinct(files: seq<File>) {
    forall i, j | 0 <= i < j < |files| :: files[i] != files[j]
  }

  /** files are files of level l, each once and, below level 0, in key order. */
  ghost predicate PartOf(vs: Storage, l: nat, files: seq<File>) {
    && l < |vs.levels| && (forall f | f in files :: f in vs.levels[l])
    && Distinct(files) && |files| <= |vs.levels[l]| && (l > 0 ==> Sorted(files))
  }

  predicate Meets(f: File, lo: Option<int>, hi: Option<int>) {
    (lo.Some? ==> lo.value <= f.largest) && (hi.Some? ==> f.smallest <= hi.value)
  }

  /** lo..hi is the tightest range that contains all files. */
  ghost predicate Hull(files: seq<File>, lo: int, hi: int) {
    && (forall f | f in files :: lo <= f.smallest && f.largest <= hi)
    && (exists f | f in files :: f.smallest == lo) && (exists f | f in files :: f.largest == hi)
  }

  ghost predicate Contains(bigger: seq<File>, files: seq<File>) {
    forall f | f in files :: f in bigger
  }

  /** No other file of the level has a key within the range of these. */
  ghost predicate CleanCut(vs: Storage, l: nat, files: seq<File>)
    requires l < |vs.levels|
  {
    Takes(vs, files, l, files)
  }

  /** out has every file of level l with a key within the range of files. */
  ghost predicate Takes(vs: Storage, files: seq<File>, l: nat, out: seq<File>)
    requires l < |vs.levels|
  {
    forall lo, hi, f | Hull(files, lo, hi) && f in vs.levels[l] && Meets(f, Some(lo), Some(hi)) :: f in out
  }

  ghost predicate Within(files: seq<File>, lo: Option<int>, hi: Option<int>) {
    forall f | f in files :: (lo.Some? ==> lo.value <= f.smallest) && (hi.Some? ==> f.largest <= hi.value)
  }

  /** The search for overlapping files finds them all and, below level 0, no others; on
      level 0 it goes on to files that overlap those it has found. */
  ghost predicate OverlapOk(vs: Storage, l: nat, lo: Option<int>, hi: Option<int>)
    requires l < |vs.levels|
  {
    var found := vs.overlap(l, lo, hi);
    && PartOf(vs, l, found)
    && (forall f | f in vs.levels[l] && Meets(f, lo, hi) :: f in found)
    && (l > 0 ==> forall f | f in found :: Meets(f, lo, hi))
  }

  /** The other search finds the largest clean cut within an interval, below level 0 only. */
  ghost predicate CleanOk(vs: Storage, l: nat, lo: Option<int>, hi: Option<int>)
    requires l < |vs.levels|
  {
    var found := vs.clean(l, lo, hi);
    && PartOf(vs, l, found)
    && (if l == 0 then found == [] else CleanCut(vs, l, found) && Within(found, lo, hi))
    && (forall s | l > 0 && PartOf(vs, l, s) && CleanCut(vs, l, s) && Within(s, lo, hi) :: Contains(found, s))
  }

  ghost predicate WellFormed(vs: Storage) {
    && 0 < vs.baseLevel < |vs.levels|
    && (forall l, i | 0 <= l < |vs.levels| && 0 <= i < |vs.levels[l]| ::
          vs.levels[l][i].level == l && vs.levels[l][i].smallest <= vs.levels[l][i].largest)
    && (forall l | 0 <= l < |vs.levels| :: PartOf(vs, l, vs.levels[l]))
    && (forall l, lo, hi | 0 <= l < |vs.levels| :: OverlapOk(vs, l, lo, hi))
    && (forall l, lo, hi | 0 <= l < |vs.levels| :: CleanOk(vs, l, lo, hi))
  }

  lemma FileOk(vs: Storage, l: nat, f: File)
    requires WellFormed(vs) && l < |vs.levels| && f in vs.levels[l]
    ensures f.level == l && f.smallest <= f.largest
  {
  }

  lemma OneFile(vs: Storage, f: File)
    requires WellFormed(vs) && f.level < |vs.levels| && f in vs.levels[f.level]
    ensures PartOf(vs, f.level, [f])
  {
  }

  lemma PartPrefix(vs: Storage, l: nat, files: seq<File>, n: nat)
    requires PartOf(vs, l, files) && n <= |files|
    ensures PartOf(vs, l, files[..n])
  {
  }

  lemma OverlapIsPart(vs: Storage, l: nat, lo: Option<int>, hi: Option<int>)
    requires WellFormed(vs) && l < |vs.levels|
    ensures PartOf(vs, l, vs.overlap(l, lo, hi))
  {
    assert OverlapOk(vs, l, lo, hi);
  }

  // ---- hulls --------------------------------------------------------------------------------

  lemma {:induction false} HullExists(files: seq<File>) returns (lo: int, hi: int)
    requires files != []
    ensures Hull(files, lo, hi)
  {
    var f := files[0];
    lo, hi := f.smallest, f.largest;
    if |files| > 1 {
      var a, b := HullExists(files[1..]);
      lo, hi := if a < lo then a else lo, if b > hi then b else hi;
      var g :| g in files[1..] && g.smallest == a;
      var h :| h in files[1..] && h.largest == b;
      assert g in files && h in files && f in files;
    }
  }

  lemma SameHull(files: seq<File>, lo: int, hi: int, a: int, b: int)
    requires Hull(files, lo, hi) && Hull(files, a, b)
    ensures lo == a && hi == b
  {
  }

  lemma HullInside(bigger: seq<File>, files: seq<File>, lo: int, hi: int, a: int, b: int)
    requires Contains(bigger, files) && Hull(bigger, lo, hi) && Hull(files, a, b)
    ensures lo <= a && b <= hi
  {
  }

  lemma {:induction false} DistinctCard(files: seq<File>)
    requires Distinct(files)
    ensures |set f | f in files| == |files|
  {
    if files != [] {
      var rest := files[1..];
      DistinctCard(rest);
      assert (set f | f in files) == (set f | f in rest) + {files[0]};
    }
  }

  lemma SameSet(files: seq<File>, bigger: seq<File>)
    requires Distinct(files) && Distinct(bigger) && Contains(bigger, files) && |bigger| <= |files|
    ensures Contains(files, bigger)
  {
    DistinctCard(files);
    DistinctCard(bigger);
    var x, y := set f | f in files, set f | f in bigger;
    assert x <= y;
    Counted(x, y);
    forall f | f in bigger ensures f in files {
      assert f in y;
    }
  }

  lemma Counted(x: set<File>, y: set<File>)
    requires x <= y && |y| <= |x|
    ensures x == y
  {
    assert |y - x| == |y| - |x|;
  }

  // ---- growing to a clean cut -------------------------------------------------------------

  /** What is within the range of some files of a level is found by a search over it. */
  lemma FoundAgain(vs: Storage, l: nat, files: seq<File>, lo: int, hi: int)
    requires WellFormed(vs) && PartOf(vs, l, files) && Hull(files, lo, hi)
    ensures Contains(vs.overlap(l, Some(lo), Some(hi)), files)
    ensures Takes(vs, files, l, vs.overlap(l, Some(lo), Some(hi)))
  {
    assert OverlapOk(vs, l, Some(lo), Some(hi));
    forall f | f in files ensures f in vs.overlap(l, Some(lo), Some(hi)) {
      FileOk(vs, l, f);
      assert Meets(f, Some(lo), Some(hi));
    }
    forall a, b, f | Hull(files, a, b) && f in vs.levels[l] && Meets(f, Some(a), Some(b))
      ensures f in vs.overlap(l, Some(lo), Some(hi)) {
      SameHull(files, lo, hi, a, b);
    }
  }

  /** A search that finds no more than before has found a clean cut. */
  lemma NoGrowthIsClean(vs: Storage, l: nat, files: seq<File>, lo: int, hi: int)
    requires WellFormed(vs) && PartOf(vs, l, files) && Hull(files, lo, hi)
    requires |vs.overlap(l, Some(lo), Some(hi))| <= |files|
    ensures CleanCut(vs, l, vs.overlap(l, Some(lo), Some(hi)))
  {
    var found := vs.overlap(l, Some(lo), Some(hi));
    FoundAgain(vs, l, files, lo, hi);
    OverlapIsPart(vs, l, Some(lo), Some(hi));
    SameSet(files, found);
    forall a, b, f | Hull(found, a, b) && f in vs.levels[l] && Meets(f, Some(a), Some(b)) ensures f in found {
      assert Hull(files, a, b);
    }
  }

  /** A clean cut that contains some files contains what a search over their range finds. */
  lemma StaysInside(vs: Storage, l: nat, files: seq<File>, lo: int, hi: int, cut: seq<File>)
    requires WellFormed(vs) && 0 < l < |vs.levels| && Hull(files, lo, hi)
    requires CleanCut(vs, l, cut) && Contains(cut, files)
    ensures Contains(cut, vs.overlap(l, Some(lo), Some(hi)))
  {
    var g :| g in files && g.smallest == lo;
    assert cut != [];
    var a, b := HullExists(cut);
    HullInside(cut, files, a, b, lo, hi);
    assert OverlapOk(vs, l, Some(lo), Some(hi));
    forall f | f in vs.overlap(l, Some(lo), Some(hi)) ensures f in cut {
      assert Meets(f, Some(a), Some(b));
    }
  }

  /** r is the least clean cut of its level that contains files. */
  ghost predicate LeastCut(vs: Storage, l: nat, files: seq<File>, r: seq<File>)
    requires l < |vs.levels|
  {
    Contains(r, files) && CleanCut(vs, l, r) && Inside(vs, l, files, r)
  }

  /** r is part of every clean cut that contains files. */
  ghost predicate Inside(vs: Storage, l: nat, files: seq<File>, r: seq<File>)
    requires l < |vs.levels|
  {
    forall cut | CleanCut(vs, l, cut) && Contains(cut, files) :: Contains(cut, r)
  }

  lemma LeastIsOne(vs: Storage, l: nat, files: seq<File>, r: seq<File>, q: seq<File>)
    requires l < |vs.levels| && LeastCut(vs, l, files, r) && LeastCut(vs, l, files, q)
    ensures Contains(r, q) && Contains(q, r)
  {
    hide CleanCut;
  }

  lemma SameHulls(a: seq<File>, b: seq<File>)
    requires Contains(a, b) && Contains(b, a)
    ensures forall lo, hi :: Hull(a, lo, hi) <==> Hull(b, lo, hi)
  {
  }

  lemma InsideGrows(vs: Storage, l: nat, start: seq<File>, files: seq<File>, lo: int, hi: int)
    requires WellFormed(vs) && 0 < l < |vs.levels| && Hull(files, lo, hi) && Inside(vs, l, start, files)
    ensures Inside(vs, l, start, vs.overlap(l, Some(lo), Some(hi)))
  {
    hide CleanCut;
    forall cut | CleanCut(vs, l, cut) && Contains(cut, start) ensures Contains(cut, vs.overlap(l, Some(lo), Some(hi))) {
      StaysInside(vs, l, files, lo, hi, cut);
    }
  }

  /** One round of growing. */
  lemma GrowOnce(vs: Storage, l: nat, start: seq<File>, files: seq<File>, lo: int, hi: int)
    requires WellFormed(vs) && l > 0 && files != [] && PartOf(vs, l, files) && Hull(files, lo, hi)
    requires Contains(files, start) && Inside(vs, l, start, files)
    ensures var found := vs.overlap(l, Some(lo), Some(hi));
            && found != [] && PartOf(vs, l, found) && Contains(found, start) && Inside(vs, l, start, found)
            && (|found| <= |files| ==> CleanCut(vs, l, found))
  {
    hide WellFormed, CleanCut, Inside, Hull;
    OverlapIsPart(vs, l, Some(lo), Some(hi));
    FoundAgain(vs, l, files, lo, hi);
    assert files[0] in files;
    InsideGrows(vs, l, start, files, lo, hi);
    if |vs.overlap(l, Some(lo), Some(hi))| <= |files| {
      NoGrowthIsClean(vs, l, files, lo, hi);
    }
  }

  // ---- files of the output level ----------------------------------------------------------

  /** What a compaction of files takes from level l. */
  ghost predicate TakesLeast(vs: Storage, files: seq<File>, l: nat, out: seq<File>)
    requires l < |vs.levels|
  {
    && Takes(vs, files, l, out) && CleanCut(vs, l, out)
    && (forall cut | CleanCut(vs, l, cut) && Takes(vs, files, l, cut) :: Contains(cut, out))
  }

  lemma LeastTaken(vs: Storage, files: seq<File>, l: nat, lo: int, hi: int, out: seq<File>)
    requires WellFormed(vs) && 0 < l < |vs.levels| && Hull(files, lo, hi)
    requires LeastCut(vs, l, vs.overlap(l, Some(lo), Some(hi)), out)
    ensures TakesLeast(vs, files, l, out)
  {
    var found := vs.overlap(l, Some(lo), Some(hi));
    assert OverlapOk(vs, l, Some(lo), Some(hi));
    forall a, b, f | Hull(files, a, b) && f in vs.levels[l] && Meets(f, Some(a), Some(b)) ensures f in out {
      SameHull(files, lo, hi, a, b);
    }
    forall cut | CleanCut(vs, l, cut) && Takes(vs, files, l, cut) ensures Contains(cut, out) {
      forall f | f in found ensures f in cut {
        assert Meets(f, Some(lo), Some(hi));
      }
    }
  }

  lemma SameTakes(vs: Storage, a: seq<File>, b: seq<File>, l: nat, out: seq<File>)
    requires l < |vs.levels| && forall lo, hi :: Hull(a, lo, hi) <==> Hull(b, lo, hi)
    ensures Takes(vs, a, l, out) <==> Takes(vs, b, l, out)
  {
    hide Hull;
  }

  lemma SameTakesLeast(vs: Storage, a: seq<File>, b: seq<File>, l: nat, out: seq<File>)
    requires l < |vs.levels| && (forall lo, hi :: Hull(a, lo, hi) <==> Hull(b, lo, hi)) && TakesLeast(vs, a, l, out)
    ensures TakesLeast(vs, b, l, out)
  {
    hide Hull, Takes, CleanCut, Contains;
    SameTakes(vs, a, b, l, out);
    forall cut | CleanCut(vs, l, cut) && Takes(vs, b, l, cut) ensures Contains(cut, out) {
      SameTakes(vs, a, b, l, cut);
    }
  }

  /** What a search finds, grown to a clean cut, is the only least choice. */
  lemma OneLeast(vs: Storage, files: seq<File>, l: nat, lo: int, hi: int, out: seq<File>)
    requires WellFormed(vs) && 0 < l < |vs.levels| && Hull(files, lo, hi)
    requires var found := vs.overlap(l, Some(lo), Some(hi)); found == out == [] || LeastCut(vs, l, found, out)
    ensures TakesLeast(vs, files, l, out)
    ensures forall other | TakesLeast(vs, files, l, other) :: Contains(other, out)
  {
    if out == [] && vs.overlap(l, Some(lo), Some(hi)) == [] {
      NothingTaken(vs, files, l, lo, hi);
    } else {
      LeastTaken(vs, files, l, lo, hi, out);
    }
  }

  /** More files of the input level that bring in no more of the output level. */
  lemma NoMoreTaken(vs: Storage, files: seq<File>, expanded: seq<File>, l: nat, out: seq<File>, more: seq<File>)
    requires l < |vs.levels| && Contains(expanded, files) && files != []
    requires TakesLeast(vs, files, l, out) && CleanCut(vs, l, more) && Takes(vs, expanded, l, more)
    requires Distinct(out) && Distinct(more) && |more| == |out|
    ensures Takes(vs, expanded, l, out)
  {
    assert files[0] in expanded;
    var a, b := HullExists(expanded);
    var lo, hi := HullExists(files);
    HullInside(expanded, files, a, b, lo, hi);
    forall x, y, f | Hull(files, x, y) && f in vs.levels[l] && Meets(f, Some(x), Some(y)) ensures f in more {
      SameHull(files, lo, hi, x, y);
      assert Meets(f, Some(a), Some(b));
    }
    assert Takes(vs, files, l, more);
    SameSet(out, more);
  }

  lemma WithinHull(files: seq<File>, lo: int, hi: int, a: int, b: int)
    requires Within(files, Some(lo), Some(hi)) && Hull(files, a, b)
    ensures lo <= a && b <= hi
  {
  }

  /** Files of the input level between the outermost keys of what is taken bring in no more
      of the output level. */
  lemma BetweenTaken(vs: Storage, files: seq<File>, l: nat, out: seq<File>, lo1: int, hi1: int, lo2: int, hi2: int,
                     expanded: seq<File>)
    requires WellFormed(vs) && l < |vs.levels| && Hull(files, lo1, hi1) && Hull(out, lo2, hi2) && lo2 <= hi1 &&
             lo1 <= hi2
    requires Takes(vs, files, l, out) && CleanCut(vs, l, out)
    requires Within(expanded, Some(if lo1 < lo2 then lo1 else lo2), Some(if hi1 < hi2 then hi2 else hi1))
    ensures Takes(vs, expanded, l, out)
  {
    hide WellFormed, Hull, Within;
    forall x, y, f | Hull(expanded, x, y) && f in vs.levels[l] && Meets(f, Some(x), Some(y)) ensures f in out {
      WithinHull(expanded, if lo1 < lo2 then lo1 else lo2, if hi1 < hi2 then hi2 else hi1, x, y);
      FileOk(vs, l, f);
      if f.largest < lo1 || hi1 < f.smallest {
        assert Meets(f, Some(lo2), Some(hi2));
      } else {
        assert Meets(f, Some(lo1), Some(hi1));
      }
    }
  }

  // ---- growing the inputs ------------------------------------------------------------------

  lemma InsideItself(vs: Storage, l: nat, files: seq<File>)
    requires l < |vs.levels|
    ensures Inside(vs, l, files, files) && Contains(files, files)
  {
  }

  /** Some file of out has a key within the range of files. */
  ghost predicate Touches(files: seq<File>, out: seq<File>) {
    exists lo, hi, f :: Hull(files, lo, hi) && f in out && Meets(f, Some(lo), Some(hi))
  }

  lemma FoundTouches(vs: Storage, files: seq<File>, l: nat, lo: int, hi: int, out: seq<File>)
    requires WellFormed(vs) && 0 < l < |vs.levels| && Hull(files, lo, hi)
    requires vs.overlap(l, Some(lo), Some(hi)) != [] && Contains(out, vs.overlap(l, Some(lo), Some(hi)))
    ensures Touches(files, out)
  {
    var f := vs.overlap(l, Some(lo), Some(hi))[0];
    assert OverlapOk(vs, l, Some(lo), Some(hi));
    assert Meets(f, Some(lo), Some(hi)) && f in out;
  }

  lemma NothingTaken(vs: Storage, files: seq<File>, l: nat, lo: int, hi: int)
    requires WellFormed(vs) && l < |vs.levels| && Hull(files, lo, hi) && vs.overlap(l, Some(lo), Some(hi)) == []
    ensures Takes(vs, files, l, []) && CleanCut(vs, l, [])
  {
    assert OverlapOk(vs, l, Some(lo), Some(hi));
    forall a, b, f | Hull(files, a, b) && f in vs.levels[l] && Meets(f, Some(a), Some(b)) ensures f in [] {
      SameHull(files, lo, hi, a, b);
    }
  }

  lemma HullsIntersect(files: seq<File>, out: seq<File>, lo1: int, hi1: int, lo2: int, hi2: int)
    requires Touches(files, out) && Hull(files, lo1, hi1) && Hull(out, lo2, hi2)
    ensures lo2 <= hi1 && lo1 <= hi2
  {
    var lo, hi, f :| Hull(files, lo, hi) && f in out && Meets(f, Some(lo), Some(hi));
    SameHull(files, lo, hi, lo1, hi1);
  }

  /** A wider search over the output level finds something too. */
  lemma WiderFinds(vs: Storage, files: seq<File>, l: nat, out: seq<File>, expanded: seq<File>, a: int, b: int)
    requires WellFormed(vs) && PartOf(vs, l, out) && Touches(files, out) && Contains(expanded, files) &&
             Hull(expanded, a, b)
    ensures vs.overlap(l, Some(a), Some(b)) != []
  {
    var lo, hi, f :| Hull(files, lo, hi) && f in out && Meets(f, Some(lo), Some(hi));
    HullInside(expanded, files, a, b, lo, hi);
    assert OverlapOk(vs, l, Some(a), Some(b));
    assert Meets(f, Some(a), Some(b));
  }

  /** Files within an interval are found by a search over it. */
  lemma InRangeFound(vs: Storage, l: nat, files: seq<File>, lo: int, hi: int, a: int, b: int)
    requires WellFormed(vs) && PartOf(vs, l, files) && Hull(files, lo, hi) && a <= lo && hi <= b
    ensures Contains(vs.overlap(l, Some(a), Some(b)), files)
  {
    assert OverlapOk(vs, l, Some(a), Some(b));
    forall f | f in files ensures f in vs.overlap(l, Some(a), Some(b)) {
      FileOk(vs, l, f);
      assert Meets(f, Some(a), Some(b));
    }
  }

  /** A clean cut within an interval is part of the largest one. */
  lemma CleanKeeps(vs: Storage, l: nat, files: seq<File>, lo: int, hi: int, a: int, b: int)
    requires WellFormed(vs) && PartOf(vs, l, files) && Hull(files, lo, hi) && a <= lo && hi <= b
    ensures var found := vs.clean(l, Some(a), Some(b));
            && PartOf(vs, l, found)
            && if l == 0 then found == []
               else Within(found, Some(a), Some(b)) && CleanCut(vs, l, found) &&
                    (CleanCut(vs, l, files) ==> Contains(found, files))
  {
    assert CleanOk(vs, l, Some(a), Some(b));
    assert Within(files, Some(a), Some(b));
  }

  lemma TakenByWider(vs: Storage, files: seq<File>, l: nat, lo: int, hi: int, out: seq<File>)
    requires WellFormed(vs) && l < |vs.levels| && Hull(files, lo, hi) &&
             Contains(out, vs.overlap(l, Some(lo), Some(hi)))
    ensures Takes(vs, files, l, out)
  {
    assert OverlapOk(vs, l, Some(lo), Some(hi));
    forall a, b, f | Hull(files, a, b) && f in vs.levels[l] && Meets(f, Some(a), Some(b)) ensures f in out {
      SameHull(files, lo, hi, a, b);
    }
  }

  lemma LevelIsPart(vs: Storage, l: nat)
    requires WellFormed(vs) && l < |vs.levels|
    ensures PartOf(vs, l, vs.levels[l])
  {
  }

  lemma NothingIsPart(vs: Storage, l: nat)
    requires l < |vs.levels|
    ensures PartOf(vs, l, [])
  {
  }

  // ---- where a manual compaction goes on ----------------------------------------------------

  /** The smallest key of the first file beyond hi. */
  function NextSmallest(files: seq<File>, hi: int): Option<int> {
    if files == [] then None
    else if files[0].smallest > hi then Some(files[0].smallest)
    else NextSmallest(files[1..], hi)
  }

  lemma {:induction false} NextIsFirst(files: seq<File>, hi: int, f: File)
    requires Sorted(files) && f in files && f.smallest > hi
    ensures var next := NextSmallest(files, hi); next.Some? && next.value <= f.smallest
  {
    var i :| 0 <= i < |files| && files[i] == f;
    if files[0].smallest <= hi {
      assert files[1..][i - 1] == f;
      NextIsFirst(files[1..], hi, f);
    }
  }

  /** Every file of the level that meets the range is among these or starts at resume or
      later. */
  ghost predicate Covered(vs: Storage, l: nat, begin: Option<int>, end: Option<int>, files: seq<File>,
                          resume: Option<int>)
    requires l < |vs.levels|
  {
    forall f | f in vs.levels[l] && Meets(f, begin, end) :: f in files || (resume.Some? && resume.value <= f.smallest)
  }

  lemma CoversAll(vs: Storage, l: nat, begin: Option<int>, end: Option<int>, files: seq<File>, resume: Option<int>)
    requires WellFormed(vs) && l < |vs.levels| && Contains(files, vs.overlap(l, begin, end))
    ensures Covered(vs, l, begin, end, files, resume)
  {
    assert OverlapOk(vs, l, begin, end);
  }

  /** The first n files found, grown to a clean cut, leave only files beyond them. */
  lemma CoversPrefix(vs: Storage, l: nat, begin: Option<int>, end: Option<int>, n: nat, files: seq<File>, lo: int,
                     hi: int)
    requires WellFormed(vs) && 0 < l < |vs.levels| && 0 < n <= |vs.overlap(l, begin, end)|
    requires Contains(files, vs.overlap(l, begin, end)[..n]) && CleanCut(vs, l, files) && Hull(files, lo, hi)
    ensures Covered(vs, l, begin, end, files, NextSmallest(vs.levels[l], hi))
  {
    var found := vs.overlap(l, begin, end);
    assert OverlapOk(vs, l, begin, end);
    forall f | f in vs.levels[l] && Meets(f, begin, end) && f !in files
      ensures var next := NextSmallest(vs.levels[l], hi); next.Some? && next.value <= f.smallest {
      FileOk(vs, l, f);
      var i :| 0 <= i < |found| && found[i] == f;
      assert found[..n][0] == found[0];
      assert lo <= found[0].smallest <= f.smallest;
      assert !Meets(f, Some(lo), Some(hi));
      assert PartOf(vs, l, vs.levels[l]);
      NextIsFirst(vs.levels[l], hi, f);
    }
  }
}
