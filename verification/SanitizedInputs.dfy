/** The closure of a user-given set of compaction inputs
    (SanitizeCompactionInputFilesForAllLevels in db/compaction_picker.cc). Files are
    known by number; on level 0 they are listed from newest to oldest, on every other
    level by key. */
module SanitizedInputs {
  datatype SstFile = SstFile(number: nat, smallest: int, largest: int, beingCompacted: bool)

  type Level = seq<SstFile>

  /** A registered compaction: where it writes, and the hull of its inputs. */
  datatype Running = Running(outputLevel: nat, smallest: int, largest: int)

  predicate Within(k: int, lo: int, hi: int) {
    lo <= k <= hi
  }

  /** Whether two key ranges meet, with the source's branches. */
  predicate HaveOverlappingKeyRanges(aSmallest: int, aLargest: int, b: SstFile)
    ensures aSmallest <= aLargest && b.smallest <= b.largest ==>
              (HaveOverlappingKeyRanges(aSmallest, aLargest, b) <==>
               exists k :: Within(k, aSmallest, aLargest) && Within(k, b.smallest, b.largest))
  {
    MeetsAtAKey(aSmallest, aLargest, b);
    if aSmallest >= b.smallest && aSmallest <= b.largest then true
    else if aSmallest < b.smallest && aLargest >= b.smallest then true
    else if aLargest <= b.largest then aLargest >= b.smallest
    else aSmallest <= b.largest
  }

  predicate Meets(lo: int, hi: int, f: SstFile) {
    lo <= f.largest && f.smallest <= hi
  }

  lemma MeetsAtAKey(lo: int, hi: int, f: SstFile)
    ensures lo <= hi && f.smallest <= f.largest ==>
              (Meets(lo, hi, f) <==> exists k :: Within(k, lo, hi) && Within(k, f.smallest, f.largest))
  {
    if lo <= hi && f.smallest <= f.largest && Meets(lo, hi, f) {
      var k := if lo <= f.smallest then f.smallest else lo;
      assert Within(k, lo, hi) && Within(k, f.smallest, f.largest);
    }
  }

  // ---- what the column family promises ----------------------------------------------

  ghost predicate SortedLevel(files: Level) {
    forall i, j | 0 <= i < j < |files| :: files[i].largest <= files[j].smallest
  }

  ghost predicate Ranges(files: Level) {
    forall i | 0 <= i < |files| :: files[i].smallest <= files[i].largest
  }

  ghost predicate Numbered(levels: seq<Level>) {
    forall l, i, m, j | 0 <= l < |levels| && 0 <= i < |levels[l]| && 0 <= m < |levels| && 0 <= j < |levels[m]| ::
      levels[l][i].number == levels[m][j].number ==> l == m && i == j
  }

  /** Levels below 0 are sorted (neighbours may share a user key) and no number is
      used twice. */
  ghost predicate WellFormed(levels: seq<Level>) {
    && Numbered(levels)
    && (forall l | 0 <= l < |levels| :: Ranges(levels[l]))
    && (forall l | 0 < l < |levels| :: SortedLevel(levels[l]))
  }

  // ---- closed sets ------------------------------------------------------------------

  /** Some chosen file on levels below n starts at or before key k. */
  ghost predicate StartsBy(levels: seq<Level>, n: nat, chosen: set<nat>, k: int) {
    exists l, i | 0 <= l < n && l < |levels| && 0 <= i < |levels[l]| ::
      levels[l][i].number in chosen && levels[l][i].smallest <= k
  }

  /** Some chosen file on levels below n ends at or after key k. */
  ghost predicate ReachesTo(levels: seq<Level>, n: nat, chosen: set<nat>, k: int) {
    exists l, i | 0 <= l < n && l < |levels| && 0 <= i < |levels[l]| ::
      levels[l][i].number in chosen && k <= levels[l][i].largest
  }

  /** The hull of the chosen files on levels below n meets f. */
  ghost predicate HullMeets(levels: seq<Level>, n: nat, chosen: set<nat>, f: SstFile) {
    StartsBy(levels, n, chosen, f.largest) && ReachesTo(levels, n, chosen, f.smallest)
  }

  ghost predicate LevelClosed(levels: seq<Level>, l: nat, chosen: set<nat>)
    requires l < |levels|
  {
    forall i | 0 <= i < |levels[l]| && HullMeets(levels, l + 1, chosen, levels[l][i]) :: levels[l][i].number in chosen
  }

  /** With output below level 0, everything older than a chosen level-0 file is chosen;
      else everything between two chosen ones. */
  ghost predicate Level0Closed(files: Level, out: nat, chosen: set<nat>) {
    forall i, j | 0 <= i < j < |files| && files[i].number in chosen ::
      (out > 0 || exists k | j <= k < |files| :: files[k].number in chosen) ==> files[j].number in chosen
  }

  ghost predicate Closed(levels: seq<Level>, out: nat, chosen: set<nat>)
    requires out < |levels|
  {
    Level0Closed(levels[0], out, chosen) && forall l | 1 <= l <= out :: LevelClosed(levels, l, chosen)
  }

  lemma ClosedTakes(levels: seq<Level>, out: nat, chosen: set<nat>, l: nat, i: nat, m: nat, j: nat)
    requires out < |levels| && Closed(levels, out, chosen) && l <= m && 1 <= m <= out
    requires i < |levels[l]| && levels[l][i].number in chosen && j < |levels[m]|
    requires Meets(levels[l][i].smallest, levels[l][i].largest, levels[m][j])
    ensures levels[m][j].number in chosen
  {
    assert LevelClosed(levels, m, chosen);
    assert StartsBy(levels, m + 1, chosen, levels[m][j].largest);
    assert ReachesTo(levels, m + 1, chosen, levels[m][j].smallest);
  }

  /** What the closure is for: a file left behind on the levels taking part that
      shares a key with a chosen file is newer than it. */
  lemma NothingOlderLeftBehind(levels: seq<Level>, out: nat, chosen: set<nat>, l: nat, i: nat, m: nat, j: nat, k: int)
    requires 0 < out < |levels| && Closed(levels, out, chosen)
    requires l <= out && i < |levels[l]| && levels[l][i].number in chosen
    requires m <= out && j < |levels[m]| && levels[m][j].number !in chosen
    requires Within(k, levels[l][i].smallest, levels[l][i].largest) &&
             Within(k, levels[m][j].smallest, levels[m][j].largest)
    ensures m < l || (m == l == 0 && j < i)
  {
    if m >= l && m > 0 {
      ClosedTakes(levels, out, chosen, l, i, m, j);
    }
  }

  // ---- the operation ----------------------------------------------------------------

  datatype Status = Ok | FileBusy | RangeBusy

  /** Every closed set that contains the input contains the file. */
  ghost predicate Needed(levels: seq<Level>, out: nat, input: set<nat>, number: nat)
    requires out < |levels|
  {
    forall t: set<nat> | Closed(levels, out, t) && input <= t :: number in t
  }

  ghost predicate AllNeeded(levels: seq<Level>, out: nat, input: set<nat>, chosen: set<nat>)
    requires out < |levels|
  {
    input <= chosen && forall n | n in chosen :: Needed(levels, out, input, n)
  }

  /** Some file that any closed set must contain is being compacted. */
  ghost predicate Blocked(levels: seq<Level>, out: nat, input: set<nat>)
    requires out < |levels|
  {
    exists l, i | 0 <= l <= out && 0 <= i < |levels[l]| ::
      levels[l][i].beingCompacted && Needed(levels, out, input, levels[l][i].number)
  }

  /** Include files first..last of a level. */
  method IncludeRange(files: Level, first: nat, last: nat, chosen: set<nat>) returns (ok: bool, r: set<nat>)
    requires first <= last < |files|
    ensures ok ==> r == chosen + set i | first <= i <= last :: files[i].number
    ensures ok <==> forall i | first <= i <= last :: !files[i].beingCompacted
  {
    r := chosen;
    for f := first to last + 1
      invariant r == chosen + set i | first <= i < f :: files[i].number
      invariant forall i | first <= i < f :: !files[i].beingCompacted
    {
      if files[f].beingCompacted {
        return false, r;
      }
      r := r + {files[f].number};
    }
    ok := true;
  }

  /** Include the files of a level that meet the hull. */
  method IncludeOverlapping(files: Level, lo: int, hi: int, chosen: set<nat>) returns (ok: bool, r: set<nat>)
    requires lo <= hi && Ranges(files)
    ensures ok ==> r == chosen + set i | 0 <= i < |files| && Meets(lo, hi, files[i]) :: files[i].number
    ensures ok <==> forall i | 0 <= i < |files| && Meets(lo, hi, files[i]) :: !files[i].beingCompacted
  {
    r := chosen;
    for f := 0 to |files|
      invariant r == chosen + set i | 0 <= i < f && Meets(lo, hi, files[i]) :: files[i].number
      invariant forall i | 0 <= i < f && Meets(lo, hi, files[i]) :: !files[i].beingCompacted
    {
      MeetsAtAKey(lo, hi, files[f]);
      if HaveOverlappingKeyRanges(lo, hi, files[f]) {
        if files[f].beingCompacted {
          return false, r;
        }
        r := r + {files[f].number};
      }
    }
    ok := true;
  }

  /** First and last chosen position of a level; none when last is negative. */
  method Span(files: Level, chosen: set<nat>) returns (first: nat, last: int)
    ensures -1 <= last < |files|
    ensures last < 0 ==> forall i | 0 <= i < |files| :: files[i].number !in chosen
    ensures last >= 0 ==> first <= last && files[first].number in chosen && files[last].number in chosen
    ensures last >= 0 ==> forall i | 0 <= i < |files| && files[i].number in chosen :: first <= i <= last
  {
    first, last := |files|, -1;
    for f := 0 to |files|
      invariant -1 <= last < f
      invariant last < 0 ==> first == |files| && forall i | 0 <= i < f :: files[i].number !in chosen
      invariant last >= 0 ==> first <= last && files[first].number in chosen && files[last].number in chosen
      invariant last >= 0 ==> forall i | 0 <= i < f && files[i].number in chosen :: first <= i <= last
    {
      if files[f].number in chosen {
        first := if f < first then f else first;
        last := if f > last then f else last;
      }
    }
  }

  /** Grow first..last while a neighbour shares the boundary key. */
  method Extend(files: Level, first: nat, last: nat) returns (a: nat, b: nat)
    requires SortedLevel(files) && Ranges(files) && first <= last < |files|
    ensures a <= first && last <= b < |files|
    ensures forall i | 0 <= i < a :: files[i].largest < files[a].smallest
    ensures forall i | b < i < |files| :: files[b].largest < files[i].smallest
    ensures forall i | a <= i < first :: files[i + 1].smallest <= files[i].largest
    ensures forall i | last < i <= b :: files[i].smallest <= files[i - 1].largest
  {
    a, b := first, last;
    while a > 0 && files[a - 1].largest >= files[a].smallest
      invariant a <= first
      invariant forall i | a <= i < first :: files[i + 1].smallest <= files[i].largest
    {
      a := a - 1;
    }
    while b < |files| - 1 && files[b + 1].smallest <= files[b].largest
      invariant last <= b < |files|
      invariant forall i | last < i <= b :: files[i].smallest <= files[i - 1].largest
    {
      b := b + 1;
    }
  }

  /** Smallest and largest key of files first..last and of lo..hi. */
  method WidenToRange(files: Level, first: nat, last: nat, lo0: int, hi0: int) returns (lo: int, hi: int)
    requires first <= last < |files|
    ensures lo <= lo0 && hi0 <= hi
    ensures forall i | first <= i <= last :: lo <= files[i].smallest && files[i].largest <= hi
    ensures lo == lo0 || exists i | first <= i <= last :: files[i].smallest == lo
    ensures hi == hi0 || exists i | first <= i <= last :: files[i].largest == hi
  {
    lo, hi := lo0, hi0;
    for f := first to last + 1
      invariant lo <= lo0 && hi0 <= hi
      invariant forall i | first <= i < f :: lo <= files[i].smallest && files[i].largest <= hi
      invariant lo == lo0 || exists i | first <= i < f :: files[i].smallest == lo
      invariant hi == hi0 || exists i | first <= i < f :: files[i].largest == hi
    {
      if lo > files[f].smallest {
        lo := files[f].smallest;
      }
      if hi < files[f].largest {
        hi := files[f].largest;
      }
    }
  }

  // ---- minimality -------------------------------------------------------------------

  /** The positions that level l contributes when first and last are its outermost
      chosen files. */
  ghost predicate Spread(files: Level, out: nat, l: nat, first: nat, last: nat, a: nat, b: nat) {
    && a <= first <= last <= b < |files|
    && (l == 0 ==> a == first && b == if out > 0 then |files| - 1 else last)
    && (l > 0 ==> (forall i | a <= i < first :: files[i + 1].smallest <= files[i].largest) &&
                  (forall i | last < i <= b :: files[i].smallest <= files[i - 1].largest))
  }

  lemma {:induction false} SpreadIn(levels: seq<Level>, out: nat, t: set<nat>, l: nat, first: nat, last: nat,
                                    a: nat, b: nat, x: nat)
    requires WellFormed(levels) && l <= out < |levels| && Closed(levels, out, t)
    requires Spread(levels[l], out, l, first, last, a, b) && a <= x <= b
    requires levels[l][first].number in t && levels[l][last].number in t
    ensures levels[l][x].number in t
    decreases if x < first then first - x else x - first
  {
    var files := levels[l];
    if l == 0 {
      if x != first {
        assert files[first].number in t && first < x < |files|;
        assert out == 0 ==> x <= last < |files| && files[last].number in t;
      }
    } else {
      assert LevelClosed(levels, l, t) && SortedLevel(files) && Ranges(files);
      if x < first {
        SpreadIn(levels, out, t, l, first, last, a, b, x + 1);
        HullMeetsBy(levels, l, t, x + 1, x + 1, x);
      } else if x > last {
        SpreadIn(levels, out, t, l, first, last, a, b, x - 1);
        HullMeetsBy(levels, l, t, x - 1, x - 1, x);
      } else {
        HullMeetsBy(levels, l, t, first, last, x);
      }
    }
  }

  lemma HullMeetsBy(levels: seq<Level>, l: nat, t: set<nat>, i: nat, j: nat, x: nat)
    requires l < |levels| && i < |levels[l]| && j < |levels[l]| && x < |levels[l]|
    requires levels[l][i].number in t && levels[l][j].number in t
    requires levels[l][i].smallest <= levels[l][x].largest && levels[l][x].smallest <= levels[l][j].largest
    ensures HullMeets(levels, l + 1, t, levels[l][x])
  {
  }

  lemma RangeNeeded(levels: seq<Level>, out: nat, input: set<nat>, chosen: set<nat>, l: nat, first: nat, last: nat,
                    a: nat, b: nat, x: nat)
    requires WellFormed(levels) && l <= out < |levels| && AllNeeded(levels, out, input, chosen)
    requires Spread(levels[l], out, l, first, last, a, b) && a <= x <= b
    requires levels[l][first].number in chosen && levels[l][last].number in chosen
    ensures Needed(levels, out, input, levels[l][x].number)
  {
    forall t: set<nat> | Closed(levels, out, t) && input <= t ensures levels[l][x].number in t {
      assert Needed(levels, out, input, levels[l][first].number) && Needed(levels, out, input, levels[l][last].number);
      SpreadIn(levels, out, t, l, first, last, a, b, x);
    }
  }

  lemma OverlapNeeded(levels: seq<Level>, out: nat, input: set<nat>, chosen: set<nat>, l: nat, lo: int, hi: int, m: nat,
                      x: nat)
    requires l <= m <= out < |levels| && 1 <= m && AllNeeded(levels, out, input, chosen)
    requires StartsBy(levels, l + 1, chosen, lo) && ReachesTo(levels, l + 1, chosen, hi)
    requires x < |levels[m]| && Meets(lo, hi, levels[m][x])
    ensures Needed(levels, out, input, levels[m][x].number)
  {
    var la, ia :| 0 <= la < l + 1 && 0 <= ia < |levels[la]| && levels[la][ia].number in chosen &&
                  levels[la][ia].smallest <= lo;
    var lb, ib :| 0 <= lb < l + 1 && 0 <= ib < |levels[lb]| && levels[lb][ib].number in chosen &&
                  hi <= levels[lb][ib].largest;
    forall t: set<nat> | Closed(levels, out, t) && input <= t ensures levels[m][x].number in t {
      assert Needed(levels, out, input, levels[la][ia].number) && Needed(levels, out, input, levels[lb][ib].number);
      assert LevelClosed(levels, m, t);
      assert StartsBy(levels, m + 1, t, levels[m][x].largest);
      assert ReachesTo(levels, m + 1, t, levels[m][x].smallest);
    }
  }

  // ---- one level ----------------------------------------------------------------------

  ghost predicate HullIs(levels: seq<Level>, n: nat, chosen: set<nat>, any: bool, lo: int, hi: int) {
    && (any ==> lo <= hi)
    && (forall k :: StartsBy(levels, n, chosen, k) <==> any && lo <= k)
    && (forall k :: ReachesTo(levels, n, chosen, k) <==> any && k <= hi)
  }

  ghost predicate Covered(files: Level, lo: int, hi: int, chosen: set<nat>) {
    forall i | 0 <= i < |files| && Meets(lo, hi, files[i]) :: files[i].number in chosen
  }

  ghost predicate NoneBusy(files: Level, chosen: set<nat>) {
    forall i | 0 <= i < |files| && files[i].number in chosen :: !files[i].beingCompacted
  }

  function From1(l: nat): nat {
    if l == 0 then 1 else l
  }

  /** Levels below n are finished; lo..hi is the hull of what they contribute, and the
      levels from n on already contribute whatever meets it. */
  ghost predicate Done(levels: seq<Level>, out: nat, input: set<nat>, n: nat, chosen: set<nat>, any: bool, lo: int,
                       hi: int)
    requires n <= out + 1 <= |levels|
  {
    && AllNeeded(levels, out, input, chosen) && HullIs(levels, n, chosen, any, lo, hi)
    && (n > 0 ==> Level0Closed(levels[0], out, chosen))
    && (forall l | 1 <= l < n :: LevelClosed(levels, l, chosen))
    && (forall l | 0 <= l < n :: NoneBusy(levels[l], chosen))
    && (forall l | From1(n) <= l <= out && any :: Covered(levels[l], lo, hi, chosen))
  }

  /** The choice grew from c to d by files on levels l and below only. */
  ghost predicate GrewFrom(levels: seq<Level>, l: nat, c: set<nat>, d: set<nat>) {
    c <= d && forall j, i | 0 <= j < l && j < |levels| && 0 <= i < |levels[j]| && levels[j][i].number in d ::
      levels[j][i].number in c
  }

  lemma GrewKeeps(levels: seq<Level>, l: nat, c: set<nat>, d: set<nat>, n: nat, k: int)
    requires GrewFrom(levels, l, c, d) && n <= l
    ensures StartsBy(levels, n, c, k) <==> StartsBy(levels, n, d, k)
    ensures ReachesTo(levels, n, c, k) <==> ReachesTo(levels, n, d, k)
  {
  }

  lemma GrewKeepsLevel(levels: seq<Level>, l: nat, c: set<nat>, d: set<nat>, n: nat)
    requires GrewFrom(levels, l, c, d) && n < l && n < |levels| && LevelClosed(levels, n, c)
    ensures LevelClosed(levels, n, d)
  {
    forall i | 0 <= i < |levels[n]| && HullMeets(levels, n + 1, d, levels[n][i]) ensures levels[n][i].number in d {
      GrewKeeps(levels, l, c, d, n + 1, levels[n][i].largest);
      GrewKeeps(levels, l, c, d, n + 1, levels[n][i].smallest);
    }
  }

  lemma HullStep(levels: seq<Level>, l: nat, d: set<nat>, any: bool, lo0: int, hi0: int, lo: int, hi: int)
    requires l < |levels| && HullIs(levels, l, d, any, lo0, hi0) && lo <= hi && (any ==> lo <= lo0 && hi0 <= hi)
    requires forall i | 0 <= i < |levels[l]| && levels[l][i].number in d ::
               lo <= levels[l][i].smallest && levels[l][i].largest <= hi
    requires (any && lo == lo0) || exists i | 0 <= i < |levels[l]| ::
               levels[l][i].number in d && levels[l][i].smallest == lo
    requires (any && hi == hi0) || exists i | 0 <= i < |levels[l]| ::
               levels[l][i].number in d && levels[l][i].largest == hi
    ensures HullIs(levels, l + 1, d, true, lo, hi)
  {
    var n := l + 1;
    forall k ensures StartsBy(levels, n, d, k) <==> lo <= k {
      assert StartsBy(levels, l, d, k) <==> any && lo0 <= k;
    }
    forall k ensures ReachesTo(levels, n, d, k) <==> k <= hi {
      assert ReachesTo(levels, l, d, k) <==> any && k <= hi0;
    }
  }

  lemma SkipLevel(levels: seq<Level>, out: nat, input: set<nat>, l: nat, c: set<nat>, any: bool, lo: int, hi: int)
    requires l <= out < |levels| && Done(levels, out, input, l, c, any, lo, hi)
    requires forall i | 0 <= i < |levels[l]| :: levels[l][i].number !in c
    ensures Done(levels, out, input, l + 1, c, any, lo, hi)
  {
    var n := l + 1;
    forall k ensures StartsBy(levels, n, c, k) <==> any && lo <= k {
      assert StartsBy(levels, n, c, k) <==> StartsBy(levels, l, c, k);
    }
    forall k ensures ReachesTo(levels, n, c, k) <==> any && k <= hi {
      assert ReachesTo(levels, n, c, k) <==> ReachesTo(levels, l, c, k);
    }
    if l >= 1 {
      assert any ==> Covered(levels[l], lo, hi, c);
      assert LevelClosed(levels, l, c);
    }
  }

  /** A file of level l outside a..b that meets the widened hull lies within it. */
  lemma Inside(files: Level, c: set<nat>, any: bool, lo0: int, hi0: int, lo: int, hi: int,
               first: nat, last: nat, a: nat, b: nat, i: nat)
    requires SortedLevel(files) && Ranges(files) && a <= first <= last <= b < |files| && i < |files|
    requires any ==> lo0 <= hi0 && Covered(files, lo0, hi0, c)
    requires forall j | 0 <= j < |files| && files[j].number in c :: first <= j <= last
    requires forall j | 0 <= j < a :: files[j].largest < files[a].smallest
    requires forall j | b < j < |files| :: files[b].largest < files[j].smallest
    requires lo == if any && lo0 < files[a].smallest then lo0 else files[a].smallest
    requires hi == if any && hi0 > files[b].largest then hi0 else files[b].largest
    requires a <= i <= b || Meets(lo, hi, files[i])
    ensures lo <= files[i].smallest && files[i].largest <= hi
  {
    assert any ==> Meets(lo0, hi0, files[i]) ==> first <= i <= last;
  }

  lemma LevelDone(levels: seq<Level>, out: nat, input: set<nat>, l: nat, c: set<nat>, any: bool, lo0: int, hi0: int,
                  d: set<nat>, lo: int, hi: int)
    requires l <= out < |levels| && Done(levels, out, input, l, c, any, lo0, hi0)
    requires GrewFrom(levels, l, c, d) && AllNeeded(levels, out, input, d)
    requires lo <= hi && (any ==> lo <= lo0 && hi0 <= hi)
    requires forall i | 0 <= i < |levels[l]| && levels[l][i].number in d ::
               lo <= levels[l][i].smallest && levels[l][i].largest <= hi
    requires (any && lo == lo0) || exists i | 0 <= i < |levels[l]| ::
               levels[l][i].number in d && levels[l][i].smallest == lo
    requires (any && hi == hi0) || exists i | 0 <= i < |levels[l]| ::
               levels[l][i].number in d && levels[l][i].largest == hi
    requires l == 0 ==> Level0Closed(levels[0], out, d)
    requires NoneBusy(levels[l], d) && forall m | From1(l) <= m <= out :: Covered(levels[m], lo, hi, d)
    ensures Done(levels, out, input, l + 1, d, true, lo, hi)
  {
    hide StartsBy, ReachesTo, AllNeeded;
    forall k
      ensures (StartsBy(levels, l, d, k) <==> any && lo0 <= k) && (ReachesTo(levels, l, d, k) <==> any && k <= hi0) {
      GrewKeeps(levels, l, c, d, l, k);
    }
    HullStep(levels, l, d, any, lo0, hi0, lo, hi);
    forall n | 1 <= n < l + 1 ensures LevelClosed(levels, n, d) {
      if n < l {
        GrewKeepsLevel(levels, l, c, d, n);
      } else {
        assert Covered(levels[l], lo, hi, d);
      }
    }
    forall n | 0 <= n < l + 1 ensures NoneBusy(levels[n], d) {
      if n < l {
        assert NoneBusy(levels[n], c);
      }
    }
  }

  lemma GrewByRange(levels: seq<Level>, l: nat, c: set<nat>, d: set<nat>, a: nat, b: nat)
    requires Numbered(levels) && l < |levels| && a <= b < |levels[l]|
    requires d == c + set i | a <= i <= b :: levels[l][i].number
    ensures GrewFrom(levels, l, c, d)
    ensures forall i | 0 <= i < |levels[l]| && levels[l][i].number in d :: levels[l][i].number in c || a <= i <= b
    ensures forall i | a <= i <= b :: levels[l][i].number in d
  {
  }

  lemma GrewByOverlap(levels: seq<Level>, l: nat, c: set<nat>, d: set<nat>, lo: int, hi: int, m: nat)
    requires Numbered(levels) && l <= m < |levels|
    requires d == c + set i | 0 <= i < |levels[m]| && Meets(lo, hi, levels[m][i]) :: levels[m][i].number
    ensures GrewFrom(levels, l, c, d) && Covered(levels[m], lo, hi, d)
    ensures forall i | 0 <= i < |levels[l]| && levels[l][i].number in d ::
              levels[l][i].number in c || (m == l && Meets(lo, hi, levels[l][i]))
  {
  }

  /** Include, on every level from max(l, 1) to the output level, what meets lo..hi. */
  method IncludeBelow(levels: seq<Level>, out: nat, ghost input: set<nat>, l: nat, c: set<nat>, lo: int, hi: int)
    returns (ok: bool, d: set<nat>)
    requires WellFormed(levels) && l <= out < |levels| && lo <= hi && AllNeeded(levels, out, input, c)
    requires StartsBy(levels, l + 1, c, lo) && ReachesTo(levels, l + 1, c, hi)
    ensures !ok ==> Blocked(levels, out, input)
    ensures ok ==> GrewFrom(levels, From1(l), c, d) && AllNeeded(levels, out, input, d)
    ensures ok ==> forall m | From1(l) <= m <= out :: Covered(levels[m], lo, hi, d)
    ensures ok ==> forall i | 0 <= i < |levels[l]| && levels[l][i].number in d ::
              levels[l][i].number in c || (l > 0 && Meets(lo, hi, levels[l][i]) && !levels[l][i].beingCompacted)
  {
    hide Needed, StartsBy, ReachesTo, Closed;
    d := c;
    for m := From1(l) to out + 1
      invariant GrewFrom(levels, From1(l), c, d) && AllNeeded(levels, out, input, d)
      invariant forall n | From1(l) <= n < m :: Covered(levels[n], lo, hi, d)
      invariant forall i | 0 <= i < |levels[l]| && levels[l][i].number in d ::
              levels[l][i].number in c || (0 < l < m && Meets(lo, hi, levels[l][i]) && !levels[l][i].beingCompacted)
    {
      ghost var before := d;
      forall i | 0 <= i < |levels[m]| && Meets(lo, hi, levels[m][i])
        ensures Needed(levels, out, input, levels[m][i].number) {
        OverlapNeeded(levels, out, input, c, l, lo, hi, m, i);
      }
      ok, d := IncludeOverlapping(levels[m], lo, hi, d);
      if !ok {
        return;
      }
      GrewByOverlap(levels, From1(l), before, d, lo, hi, m);
      GrewByOverlap(levels, l, before, d, lo, hi, m);
    }
    ok := true;
  }

  /** lo..hi is the hull lo0..hi0 (if any) widened to the chosen files of a level. */
  ghost predicate Widened(files: Level, d: set<nat>, any: bool, lo0: int, hi0: int, lo: int, hi: int) {
    && lo <= hi && (any ==> lo <= lo0 && hi0 <= hi)
    && ((any && lo == lo0) || exists i | 0 <= i < |files| :: files[i].number in d && files[i].smallest == lo)
    && ((any && hi == hi0) || exists i | 0 <= i < |files| :: files[i].number in d && files[i].largest == hi)
  }

  lemma HullReached(levels: seq<Level>, l: nat, c: set<nat>, d: set<nat>, any: bool, lo0: int, hi0: int, lo: int,
                    hi: int)
    requires l < |levels| && HullIs(levels, l, c, any, lo0, hi0) && c <= d &&
             Widened(levels[l], d, any, lo0, hi0, lo, hi)
    ensures StartsBy(levels, l + 1, d, lo) && ReachesTo(levels, l + 1, d, hi)
  {
    assert any ==> StartsBy(levels, l, c, lo0) && ReachesTo(levels, l, c, hi0);
  }

  lemma NeedRange(levels: seq<Level>, out: nat, input: set<nat>, l: nat, c: set<nat>, d: set<nat>, a: nat, b: nat)
    requires l <= out < |levels| && a <= b < |levels[l]| && AllNeeded(levels, out, input, c)
    requires d == c + set i | a <= i <= b :: levels[l][i].number
    requires forall x | a <= x <= b :: Needed(levels, out, input, levels[l][x].number)
    ensures AllNeeded(levels, out, input, d)
  {
  }

  lemma BlockCloses(files: Level, out: nat, d: set<nat>, a: nat, b: nat)
    requires a <= b < |files| && (out > 0 ==> b == |files| - 1)
    requires forall i | 0 <= i < |files| :: files[i].number in d <==> a <= i <= b
    ensures Level0Closed(files, out, d)
  {
  }

  lemma SortedEnds(files: Level, a: nat, first: nat, last: nat, b: nat)
    requires SortedLevel(files) && Ranges(files) && a <= first <= last <= b < |files|
    ensures files[a].smallest <= files[first].smallest <= files[first].largest <= files[b].largest
    ensures files[a].smallest <= files[b].largest
  {
  }

  /** What level l itself contributes, once first and last are its outermost chosen files. */
  method OwnFiles(levels: seq<Level>, out: nat, ghost input: set<nat>, l: nat, c: set<nat>, any: bool, lo0: int,
                  hi0: int, first: nat, last: nat)
    returns (ok: bool, d: set<nat>, lo: int, hi: int)
    requires WellFormed(levels) && l <= out < |levels| && AllNeeded(levels, out, input, c)
    requires any ==> lo0 <= hi0 && (l > 0 ==> Covered(levels[l], lo0, hi0, c))
    requires first <= last < |levels[l]| && levels[l][first].number in c && levels[l][last].number in c
    requires forall i | 0 <= i < |levels[l]| && levels[l][i].number in c :: first <= i <= last
    ensures !ok ==> Blocked(levels, out, input)
    ensures ok ==> GrewFrom(levels, l, c, d) && AllNeeded(levels, out, input, d) && NoneBusy(levels[l], d)
    ensures ok ==> Widened(levels[l], d, any, lo0, hi0, lo, hi) && (l == 0 ==> Level0Closed(levels[0], out, d))
    ensures ok ==> forall i |
                     0 <= i < |levels[l]| && (levels[l][i].number in d || (l > 0 && Meets(lo, hi, levels[l][i]))) ::
              lo <= levels[l][i].smallest && levels[l][i].largest <= hi
  {
    hide Needed, Numbered, Closed, StartsBy, ReachesTo, SortedLevel, AllNeeded, Level0Closed, Covered;
    var files := levels[l];
    lo, hi := if any then lo0 else files[first].smallest, if any then hi0 else files[first].largest;
    var a, b := first, last;
    if l != 0 {
      a, b := Extend(files, first, last);
    } else if out > 0 {
      b := |files| - 1;
    }
    forall x | a <= x <= b ensures Needed(levels, out, input, levels[l][x].number) {
      RangeNeeded(levels, out, input, c, l, first, last, a, b, x);
    }
    ok, d := IncludeRange(files, a, b, c);
    if !ok {
      return;
    }
    GrewByRange(levels, l, c, d, a, b);
    NeedRange(levels, out, input, l, c, d, a, b);
    if l == 0 {
      lo, hi := WidenToRange(files, a, b, lo, hi);
      BlockCloses(files, out, d, a, b);
    } else {
      SortedEnds(files, a, first, last, b);
      lo := if lo > files[a].smallest then files[a].smallest else lo;
      hi := if hi < files[b].largest then files[b].largest else hi;
      forall i | 0 <= i < |files| && (files[i].number in d || Meets(lo, hi, files[i]))
        ensures lo <= files[i].smallest && files[i].largest <= hi
      {
        Inside(files, c, any, lo0, hi0, lo, hi, first, last, a, b, i);
      }
    }
  }

  /** One round of the outer loop. */
  method SanitizeLevel(levels: seq<Level>, out: nat, ghost input: set<nat>, l: nat, c: set<nat>, any: bool, lo: int,
                       hi: int)
    returns (ok: bool, d: set<nat>, any': bool, lo': int, hi': int)
    requires WellFormed(levels) && l <= out < |levels| && Done(levels, out, input, l, c, any, lo, hi)
    ensures !ok ==> Blocked(levels, out, input)
    ensures ok ==> Done(levels, out, input, l + 1, d, any', lo', hi')
    ensures ok && !any' ==> !any && lo' == lo && hi' == hi
  {
    hide StartsBy, ReachesTo, Needed, LevelClosed, Numbered, AllNeeded, Level0Closed;
    var first, last := Span(levels[l], c);
    any' := any || last >= 0;
    if last < 0 {
      SkipLevel(levels, out, input, l, c, any, lo, hi);
      return true, c, any', lo, hi;
    }
    ok, d, lo', hi' := OwnFiles(levels, out, input, l, c, any, lo, hi, first, last);
    if !ok {
      return;
    }
    ghost var own := d;
    HullReached(levels, l, c, d, any, lo, hi, lo', hi');
    ok, d := IncludeBelow(levels, out, input, l, d, lo', hi');
    if !ok {
      return;
    }
    assert GrewFrom(levels, l, c, d);
    if l == 0 {
      SameLevel0(levels[0], out, own, d);
    }
    LevelDone(levels, out, input, l, c, any, lo, hi, d, lo', hi');
  }

  lemma SameLevel0(files: Level, out: nat, c: set<nat>, d: set<nat>)
    requires Level0Closed(files, out, c) && c <= d
    requires forall i | 0 <= i < |files| && files[i].number in d :: files[i].number in c
    ensures Level0Closed(files, out, d)
  {
  }

  /** What it means for the result to be the least closed superset of the input. */
  ghost predicate LeastClosed(levels: seq<Level>, out: nat, input: set<nat>, chosen: set<nat>)
    requires out < |levels|
  {
    && Closed(levels, out, chosen) && input <= chosen
    && forall t: set<nat> | Closed(levels, out, t) && input <= t :: chosen <= t
  }

  ghost predicate SomeChosen(levels: seq<Level>, n: nat, chosen: set<nat>) {
    exists l, i | 0 <= l < n && l < |levels| && 0 <= i < |levels[l]| :: levels[l][i].number in chosen
  }

  lemma SomeIsAny(levels: seq<Level>, n: nat, chosen: set<nat>, any: bool, lo: int, hi: int)
    requires HullIs(levels, n, chosen, any, lo, hi)
    ensures SomeChosen(levels, n, chosen) <==> any
  {
    assert StartsBy(levels, n, chosen, lo) <==> any;
    if l, i :| 0 <= l < n && l < |levels| && 0 <= i < |levels[l]| && levels[l][i].number in chosen {
      assert StartsBy(levels, n, chosen, levels[l][i].smallest);
    }
  }

  /** A running compaction writes to the output level in the range of the choice; with
      nothing chosen the source probes with empty strings for keys. */
  ghost predicate Contended(levels: seq<Level>, out: nat, chosen: set<nat>, running: seq<Running>, emptyKey: int)
    requires out < |levels|
  {
    exists i | 0 <= i < |running| :: running[i].outputLevel == out &&
      if SomeChosen(levels, out + 1, chosen)
      then StartsBy(levels, out + 1, chosen, running[i].largest) &&
           ReachesTo(levels, out + 1, chosen, running[i].smallest)
      else running[i].smallest <= emptyKey <= running[i].largest
  }

  method RangeOverlapWithCompaction(running: seq<Running>, smallest: int, largest: int, level: nat) returns (r: bool)
    ensures r <==> exists i | 0 <= i < |running| ::
              running[i].outputLevel == level && smallest <= running[i].largest && running[i].smallest <= largest
  {
    for i := 0 to |running|
      invariant forall j | 0 <= j < i ::
                  !(running[j].outputLevel == level && smallest <= running[j].largest && running[j].smallest <= largest)
    {
      if running[i].outputLevel == level && smallest <= running[i].largest && largest >= running[i].smallest {
        return true;
      }
    }
    r := false;
  }

  /** On success the result is the least closed superset of the input, none of its files
      on the levels taking part is being compacted, and no running compaction writes
      into its range. It fails exactly when one of these cannot be had. */
  method SanitizeForAllLevels(levels: seq<Level>, out: nat, input: set<nat>, running: seq<Running>, emptyKey: int)
    returns (status: Status, chosen: set<nat>)
    requires WellFormed(levels) && out < |levels|
    ensures status.FileBusy? <==> Blocked(levels, out, input)
    ensures !status.FileBusy? ==>
              LeastClosed(levels, out, input, chosen) && forall l | 0 <= l <= out :: NoneBusy(levels[l], chosen)
    ensures !status.FileBusy? ==> (status.RangeBusy? <==> Contended(levels, out, chosen, running, emptyKey))
  {
    hide StartsBy, ReachesTo, LevelClosed, Level0Closed, Numbered;
    chosen := input;
    var any, lo, hi := false, emptyKey, emptyKey;
    NothingDone(levels, out, input, lo, hi);
    for l := 0 to out + 1
      invariant Done(levels, out, input, l, chosen, any, lo, hi)
      invariant !any ==> lo == hi == emptyKey
    {
      var ok;
      ok, chosen, any, lo, hi := SanitizeLevel(levels, out, input, l, chosen, any, lo, hi);
      if !ok {
        return FileBusy, chosen;
      }
    }
    SomeIsAny(levels, out + 1, chosen, any, lo, hi);
    var busy := RangeOverlapWithCompaction(running, lo, hi, out);
    status := if busy then RangeBusy else Ok;
  }

  lemma NothingDone(levels: seq<Level>, out: nat, input: set<nat>, lo: int, hi: int)
    requires out < |levels|
    ensures Done(levels, out, input, 0, input, false, lo, hi)
  {
  }
}
