/** Choosing the split points of a compaction (GenSubcompactionBoundaries). The
    size oracle stands for VersionSet::ApproximateSize. */
module SubcompactionBoundaries {
  import opened Lsm
  import opened Subcompactions
  import opened ExclusivePicks
  import CleanCuts

  // ---- candidates: keys of the input files ---------------------------------------------------

  type Files = seq<CleanCuts.File>

  /** A key where some of the files starts or ends. */
  ghost predicate EdgeOf(files: Files, x: UserKey) {
    exists i :: 0 <= i < |files| && EdgeAt(files[i], x)
  }

  predicate EdgeAt(f: CleanCuts.File, x: UserKey) {
    x == f.smallest || x == f.largest
  }

  /** Keys lo and hi are among ks, and the files lie between them. */
  ghost predicate Bracket(files: Files, ks: seq<UserKey>, lo: UserKey, hi: UserKey) {
    lo in ks && hi in ks && forall i | 0 <= i < |files| :: lo <= files[i].smallest && files[i].largest <= hi
  }

  ghost predicate Edges(files: Files, ks: seq<UserKey>) {
    forall j | 0 <= j < |ks| :: EdgeOf(files, ks[j])
  }

  /** The keys are edges of the files, and no file reaches beyond the outermost. */
  ghost predicate Spans(files: Files, ks: seq<UserKey>) {
    Edges(files, ks) && (files == [] || exists lo, hi :: Bracket(files, ks, lo, hi))
  }

  lemma OneMoreEdge(files: Files, ks: seq<UserKey>, i: nat, x: UserKey)
    requires Edges(files, ks) && i < |files| && EdgeAt(files[i], x)
    ensures Edges(files, ks + [x])
  {
  }

  /** The keys of all files, for level 0. */
  method AllEdges(files: Files) returns (ks: seq<UserKey>)
    requires files != []
    ensures Spans(files, ks)
  {
    ks := [];
    ghost var lo, hi := files[0].smallest, files[0].largest;
    for i := 0 to |files|
      invariant Edges(files, ks) && (i > 0 ==> Bracket(files[..i], ks, lo, hi))
    {
      hide Edges;
      OneMoreEdge(files, ks, i, files[i].smallest);
      OneMoreEdge(files, ks + [files[i].smallest], i, files[i].largest);
      BracketMore(files, ks, lo, hi, i);
      ks := ks + [files[i].smallest] + [files[i].largest];
      if i == 0 || files[i].smallest < lo {
        lo := files[i].smallest;
      }
      if i == 0 || files[i].largest > hi {
        hi := files[i].largest;
      }
    }
    assert files[..|files|] == files;
  }

  lemma BracketMore(files: Files, ks: seq<UserKey>, lo: UserKey, hi: UserKey, i: nat)
    requires i < |files| && (i > 0 ==> Bracket(files[..i], ks, lo, hi))
    ensures var f := files[i];
            Bracket(files[..i + 1], ks + [f.smallest] + [f.largest],
                    if i == 0 || f.smallest < lo then f.smallest else lo,
                    if i == 0 || f.largest > hi then f.largest else hi)
  {
    assert forall j | 0 <= j < i :: files[..i + 1][j] == files[..i][j];
  }

  /** The outermost keys and, on the output level, where each file starts. */
  method OuterEdges(files: Files, isOutput: bool) returns (ks: seq<UserKey>)
    requires files != [] && CleanCuts.Sorted(files)
    ensures Spans(files, ks)
  {
    var lo, hi := files[0].smallest, files[|files| - 1].largest;
    OneMoreEdge(files, [], 0, lo);
    OneMoreEdge(files, [lo], |files| - 1, hi);
    ks := [] + [lo] + [hi];
    if isOutput {
      for i := 1 to |files|
        invariant Edges(files, ks) && lo in ks && hi in ks
      {
        OneMoreEdge(files, ks, i, files[i].smallest);
        ks := ks + [files[i].smallest];
      }
    }
    assert Bracket(files, ks, lo, hi);
  }

  /** The keys one input level contributes. */
  method LevelCandidates(level: nat, files: Files, isOutput: bool) returns (ks: seq<UserKey>)
    requires files != [] && (level > 0 ==> CleanCuts.Sorted(files))
    ensures Spans(files, ks)
  {
    if level == 0 {
      ks := AllEdges(files);
    } else {
      ks := OuterEdges(files, isOutput);
    }
  }

  /** The input files on levels up to the output level, of the first n input levels. */
  function Considered(inputs: seq<CleanCuts.InputFiles>, n: nat, outputLevel: nat): Files
    requires n <= |inputs|
  {
    if n == 0 then []
    else
      var last := inputs[n - 1];
      Considered(inputs, n - 1, outputLevel) + (if last.level <= outputLevel then last.files else [])
  }

  lemma EdgesMore(files: Files, ks: seq<UserKey>, more: Files, moreKs: seq<UserKey>)
    requires Edges(files, ks) && Edges(more, moreKs)
    ensures Edges(files + more, ks + moreKs)
  {
    var all, keys := files + more, ks + moreKs;
    forall j | 0 <= j < |keys| ensures EdgeOf(all, keys[j]) {
      if j < |ks| {
        assert EdgeOf(files, ks[j]);
        var i :| 0 <= i < |files| && EdgeAt(files[i], ks[j]);
        assert EdgeAt(all[i], keys[j]);
      } else {
        assert EdgeOf(more, moreKs[j - |ks|]);
        var i :| 0 <= i < |more| && EdgeAt(more[i], moreKs[j - |ks|]);
        assert EdgeAt(all[|files| + i], keys[j]);
      }
    }
  }

  lemma SpansMore(files: Files, ks: seq<UserKey>, more: Files, moreKs: seq<UserKey>)
    requires Spans(files, ks) && Spans(more, moreKs) && more != []
    ensures Spans(files + more, ks + moreKs)
  {
    EdgesMore(files, ks, more, moreKs);
    hide Edges;
    var a, b :| Bracket(more, moreKs, a, b);
    if files == [] {
      assert Bracket(files + more, ks + moreKs, a, b);
    } else {
      var lo, hi :| Bracket(files, ks, lo, hi);
      assert Bracket(files + more, ks + moreKs, if lo < a then lo else a, if hi > b then hi else b);
    }
  }

  method CollectCandidates(inputs: seq<CleanCuts.InputFiles>, outputLevel: nat) returns (ks: seq<UserKey>)
    requires forall k | 0 <= k < |inputs| && inputs[k].level > 0 :: CleanCuts.Sorted(inputs[k].files)
    ensures Spans(Considered(inputs, |inputs|, outputLevel), ks)
  {
    hide Spans;
    ks := [];
    NothingSpans();
    for k := 0 to |inputs|
      invariant Spans(Considered(inputs, k, outputLevel), ks)
    {
      var files := inputs[k].files;
      if inputs[k].level <= outputLevel && files != [] {
        var more := LevelCandidates(inputs[k].level, files, inputs[k].level == outputLevel);
        SpansMore(Considered(inputs, k, outputLevel), ks, files, more);
        ks := ks + more;
      } else {
        assert Considered(inputs, k + 1, outputLevel) == Considered(inputs, k, outputLevel);
      }
    }
  }

  lemma NothingSpans()
    ensures Spans([], [])
  {
  }

  lemma {:induction false} ConsideredAreInputs(inputs: seq<CleanCuts.InputFiles>, n: nat, outputLevel: nat,
                                               f: CleanCuts.File)
    requires n <= |inputs|
    ensures f in Considered(inputs, n, outputLevel) <==>
            exists k :: 0 <= k < n && inputs[k].level <= outputLevel && f in inputs[k].files
  {
    if n > 0 {
      ConsideredAreInputs(inputs, n - 1, outputLevel, f);
    }
  }

  lemma AllConsidered(c: Compaction, f: CleanCuts.File)
    requires forall k | 0 <= k < |c.inputs| :: c.inputs[k].level <= c.outputLevel
    ensures f in Considered(c.inputs, |c.inputs|, c.outputLevel) <==> HasInput(c.inputs, f)
  {
    ConsideredAreInputs(c.inputs, |c.inputs|, c.outputLevel, f);
  }

  /** The compaction's own range: the first and the last candidate are its boundary keys. */
  lemma SpansCompaction(c: Compaction, ks: seq<UserKey>)
    requires CompactionOk(c) && (forall k | 0 <= k < |c.inputs| :: c.inputs[k].level <= c.outputLevel)
    requires forall f | HasInput(c.inputs, f) :: f.smallest <= f.largest
    requires Spans(Considered(c.inputs, |c.inputs|, c.outputLevel), ks)
    ensures c.smallest in ks && c.largest in ks && forall x | x in ks :: c.smallest <= x <= c.largest
  {
    hide HasInput, InputsOk, Considered;
    var files := Considered(c.inputs, |c.inputs|, c.outputLevel);
    forall f ensures f in files <==> HasInput(c.inputs, f) {
      AllConsidered(c, f);
    }
    forall x | x in ks ensures c.smallest <= x <= c.largest {
      var j :| 0 <= j < |ks| && ks[j] == x;
      assert EdgeOf(files, ks[j]);
      var i :| 0 <= i < |files| && EdgeAt(files[i], x);
      assert files[i] in files;
    }
    var f :| HasInput(c.inputs, f) && f.smallest == c.smallest;
    var g :| HasInput(c.inputs, g) && g.largest == c.largest;
    assert f in files && g in files;
    var lo, hi :| Bracket(files, ks, lo, hi);
    assert lo <= c.smallest && c.largest <= hi;
  }

  // ---- sorting ------------------------------------------------------------------------------

  function Insert(k: UserKey, ks: seq<UserKey>): (r: seq<UserKey>)
    requires StrictlyIncreasing(ks)
    ensures StrictlyIncreasing(r) && r != []
    ensures r[0] == k || (ks != [] && r[0] == ks[0] < k)
    ensures forall x :: x in r <==> x == k || x in ks
  {
    if ks == [] || k < ks[0] then [k] + ks
    else if k == ks[0] then ks
    else
      assert ks == [ks[0]] + ks[1..];
      var tail := Insert(k, ks[1..]);
      assert forall i | 0 <= i < |tail| :: tail[i] in tail;
      [ks[0]] + tail
  }

  /** std::sort followed by std::unique. */
  function SortedUnique(ks: seq<UserKey>): (r: seq<UserKey>)
    ensures StrictlyIncreasing(r)
    ensures forall x :: x in r <==> x in ks
  {
    if ks == [] then [] else Insert(ks[0], SortedUnique(ks[1..]))
  }

  type SizeOracle = (UserKey, UserKey) -> nat

  /** Approximate data between bounds[i] and bounds[j]. */
  function RangeTotal(size: SizeOracle, bounds: seq<UserKey>, i: nat, j: nat): nat
    requires i <= j < |bounds|
  {
    if i == j then 0 else RangeTotal(size, bounds, i, j - 1) + size(bounds[j - 1], bounds[j])
  }

  function Sum(ns: seq<nat>): nat {
    if ns == [] then 0 else ns[0] + Sum(ns[1..])
  }

  /** Where piece m starts, as an index into bounds. */
  function Cut(cuts: seq<nat>, n: nat, m: nat): nat
    requires m <= |cuts| + 1 && n > 0
  {
    if m == 0 then 0 else if m <= |cuts| then cuts[m - 1] else n - 1
  }

  /** The pieces follow one another, and each size is what its piece covers. */
  ghost predicate Pieces(size: SizeOracle, bounds: seq<UserKey>, cuts: seq<nat>, boundaries: seq<UserKey>,
                         sizes: seq<nat>) {
    && bounds != []
    && |boundaries| == |cuts| && |sizes| == |cuts| + 1
    && (forall m | 0 <= m < |cuts| :: 0 < cuts[m] < |bounds| - 1 && boundaries[m] == bounds[cuts[m]])
    && (forall m, n | 0 <= m < n < |cuts| :: cuts[m] < cuts[n])
    && (forall m | 0 <= m < |sizes| :: Piece(size, bounds, cuts, sizes, m))
  }

  ghost predicate Piece(size: SizeOracle, bounds: seq<UserKey>, cuts: seq<nat>, sizes: seq<nat>, m: nat)
    requires bounds != [] && m < |sizes| == |cuts| + 1
  {
    && Cut(cuts, |bounds|, m) <= Cut(cuts, |bounds|, m + 1) < |bounds|
    && sizes[m] == RangeTotal(size, bounds, Cut(cuts, |bounds|, m), Cut(cuts, |bounds|, m + 1))
  }

  lemma {:induction false} RangeTotalSplit(size: SizeOracle, bounds: seq<UserKey>, i: nat, j: nat, k: nat)
    requires i <= j <= k < |bounds|
    ensures RangeTotal(size, bounds, i, k) == RangeTotal(size, bounds, i, j) + RangeTotal(size, bounds, j, k)
    decreases k
  {
    if j < k {
      RangeTotalSplit(size, bounds, i, j, k - 1);
    }
  }

  /** The pieces' sizes add up to the whole. */
  lemma {:induction false} PiecesConserve(size: SizeOracle, bounds: seq<UserKey>, cuts: seq<nat>,
                                          boundaries: seq<UserKey>, sizes: seq<nat>, m: nat)
    requires Pieces(size, bounds, cuts, boundaries, sizes) && m <= |sizes|
    ensures Cut(cuts, |bounds|, m) < |bounds|
    ensures Sum(sizes[m..]) == RangeTotal(size, bounds, Cut(cuts, |bounds|, m), |bounds| - 1)
    decreases |sizes| - m
  {
    if m < |sizes| {
      assert Piece(size, bounds, cuts, sizes, m);
      PiecesConserve(size, bounds, cuts, boundaries, sizes, m + 1);
      assert sizes[m..][1..] == sizes[m + 1..];
      RangeTotalSplit(size, bounds, Cut(cuts, |bounds|, m), Cut(cuts, |bounds|, m + 1), |bounds| - 1);
    }
  }

  function Ceil(x: real): int {
    -((-x).Floor)
  }

  function Min3(a: int, b: int, c: int): int {
    var m := if a < b then a else b;
    if m < c then m else c
  }

  ghost predicate CutPoints(bounds: seq<UserKey>, cuts: seq<nat>, boundaries: seq<UserKey>, last: nat) {
    && last < |bounds|
    && |boundaries| == |cuts|
    && last == (if cuts == [] then 0 else cuts[|cuts| - 1])
    && (forall m | 0 <= m < |cuts| :: 0 < cuts[m] <= last && boundaries[m] == bounds[cuts[m]])
    && (forall m, q | 0 <= m < q < |cuts| :: cuts[m] < cuts[q])
  }

  ghost predicate PieceSize(size: SizeOracle, bounds: seq<UserKey>, cuts: seq<nat>, sizes: seq<nat>, m: nat)
    requires bounds != [] && m < |sizes| == |cuts|
  {
    && Cut(cuts, |bounds|, m) <= cuts[m] < |bounds|
    && sizes[m] == RangeTotal(size, bounds, Cut(cuts, |bounds|, m), cuts[m])
  }

  ghost predicate PieceSizes(size: SizeOracle, bounds: seq<UserKey>, cuts: seq<nat>, sizes: seq<nat>) {
    bounds != [] && |sizes| == |cuts| && forall m | 0 <= m < |cuts| :: PieceSize(size, bounds, cuts, sizes, m)
  }

  /** The pieces closed so far, the last of them ending at index last. */
  ghost predicate Closed(size: SizeOracle, bounds: seq<UserKey>, cuts: seq<nat>, boundaries: seq<UserKey>,
                         sizes: seq<nat>, last: nat)
  {
    CutPoints(bounds, cuts, boundaries, last) && PieceSizes(size, bounds, cuts, sizes)
  }

  lemma CloseOne(size: SizeOracle, bounds: seq<UserKey>, cuts: seq<nat>, boundaries: seq<UserKey>, sizes: seq<nat>,
                 last: nat, i: nat)
    requires Closed(size, bounds, cuts, boundaries, sizes, last) && last < i < |bounds|
    ensures Closed(size, bounds, cuts + [i], boundaries + [bounds[i]], sizes + [RangeTotal(size, bounds, last, i)], i)
  {
    hide PieceSizes, RangeTotal;
    SizeOne(size, bounds, cuts, sizes, last, i);
  }

  lemma SizeOne(size: SizeOracle, bounds: seq<UserKey>, cuts: seq<nat>, sizes: seq<nat>, last: nat, i: nat)
    requires PieceSizes(size, bounds, cuts, sizes) && last <= i < |bounds|
    requires last == if cuts == [] then 0 else cuts[|cuts| - 1]
    ensures PieceSizes(size, bounds, cuts + [i], sizes + [RangeTotal(size, bounds, last, i)])
  {
    hide RangeTotal;
    var cuts', sizes' := cuts + [i], sizes + [RangeTotal(size, bounds, last, i)];
    forall m | 0 <= m < |cuts'| ensures PieceSize(size, bounds, cuts', sizes', m) {
      if m < |cuts| {
        assert PieceSize(size, bounds, cuts, sizes, m);
        assert sizes'[m] == sizes[m] && Cut(cuts', |bounds|, m) == Cut(cuts, |bounds|, m) && cuts'[m] == cuts[m];
      } else {
        assert cuts != [] ==> cuts'[m - 1] == cuts[m - 1];
        assert Cut(cuts', |bounds|, m) == last && cuts'[m] == i;
      }
    }
  }

  lemma CloseLast(size: SizeOracle, bounds: seq<UserKey>, cuts: seq<nat>, boundaries: seq<UserKey>, sizes: seq<nat>,
                  last: nat)
    requires Closed(size, bounds, cuts, boundaries, sizes, last) && last < |bounds| - 1
    ensures Pieces(size, bounds, cuts, boundaries, sizes + [RangeTotal(size, bounds, last, |bounds| - 1)])
  {
    hide RangeTotal;
    var sizes' := sizes + [RangeTotal(size, bounds, last, |bounds| - 1)];
    assert Cut(cuts, |bounds|, |sizes|) == last;
    forall m | 0 <= m < |sizes'| ensures Piece(size, bounds, cuts, sizes', m) {
      if m < |sizes| {
        assert PieceSize(size, bounds, cuts, sizes, m);
        assert sizes'[m] == sizes[m] && Cut(cuts, |bounds|, m + 1) == cuts[m];
      }
    }
    assert forall m | 0 <= m < |cuts| :: 0 < cuts[m] < |bounds| - 1 && boundaries[m] == bounds[cuts[m]];
    assert |boundaries| == |cuts| && |sizes'| == |cuts| + 1;
    assert Pieces(size, bounds, cuts, boundaries, sizes');
  }

  /** Greedily close a piece whenever it has reached the mean size. */
  method GroupRanges(size: SizeOracle, bounds: seq<UserKey>, subcompactions: nat, mean: real)
    returns (boundaries: seq<UserKey>, sizes: seq<nat>, ghost cuts: seq<nat>)
    requires 1 < subcompactions < |bounds|
    ensures Pieces(size, bounds, cuts, boundaries, sizes)
    ensures |boundaries| < |sizes| <= subcompactions
    ensures forall m | 0 <= m < |boundaries| :: sizes[m] as real >= mean
  {
    hide Pieces, Closed;
    var n := |bounds| - 1;
    var left := subcompactions;
    var sum := 0;
    ghost var last := 0;
    boundaries, sizes, cuts := [], [], [];
    StartClosed(size, bounds);
    for i := 0 to n - 1
      invariant last <= i && sum == RangeTotal(size, bounds, last, i)
      invariant 1 <= left <= subcompactions && |sizes| == subcompactions - left
      invariant Closed(size, bounds, cuts, boundaries, sizes, last)
      invariant forall m | 0 <= m < |sizes| :: sizes[m] as real >= mean
    {
      sum := sum + size(bounds[i], bounds[i + 1]);
      if left != 1 && sum as real >= mean {
        CloseOne(size, bounds, cuts, boundaries, sizes, last, i + 1);
        boundaries := boundaries + [bounds[i + 1]];
        sizes := sizes + [sum];
        cuts := cuts + [i + 1];
        left := left - 1;
        sum := 0;
        last := i + 1;
      }
    }
    CloseLast(size, bounds, cuts, boundaries, sizes, last);
    ClosedLengths(size, bounds, cuts, boundaries, sizes, last);
    sizes := sizes + [sum + size(bounds[n - 1], bounds[n])];
  }

  lemma StartClosed(size: SizeOracle, bounds: seq<UserKey>)
    requires bounds != []
    ensures Closed(size, bounds, [], [], [], 0)
  {
  }

  lemma ClosedLengths(size: SizeOracle, bounds: seq<UserKey>, cuts: seq<nat>, boundaries: seq<UserKey>, sizes: seq<nat>,
                      last: nat)
    requires Closed(size, bounds, cuts, boundaries, sizes, last)
    ensures |boundaries| == |sizes|
  {
  }

  lemma OnePiece(size: SizeOracle, bounds: seq<UserKey>)
    requires bounds != []
    ensures Pieces(size, bounds, [], [], [RangeTotal(size, bounds, 0, |bounds| - 1)])
  {
    hide RangeTotal;
    assert Piece(size, bounds, [], [RangeTotal(size, bounds, 0, |bounds| - 1)], 0);
  }

  lemma PiecesIncrease(size: SizeOracle, bounds: seq<UserKey>, cuts: seq<nat>, boundaries: seq<UserKey>,
                       sizes: seq<nat>)
    requires Pieces(size, bounds, cuts, boundaries, sizes) && StrictlyIncreasing(bounds)
    ensures StrictlyIncreasing(boundaries) && |sizes| == |boundaries| + 1
  {
    forall m, n | 0 <= m < n < |boundaries| ensures boundaries[m] < boundaries[n] {
      assert boundaries[m] == bounds[cuts[m]] && boundaries[n] == bounds[cuts[n]];
    }
  }

  /** The boundaries increase strictly and cut the candidate range into pieces
      whose sizes add up to the whole; there are never more pieces than allowed,
      and every piece but the last carries at least an even share. */
  method SplitCandidates(size: SizeOracle, candidates: seq<UserKey>, maxSubcompactions: nat, maxFileSize: nat)
    returns (boundaries: seq<UserKey>, sizes: seq<nat>, ghost cuts: seq<nat>)
    requires candidates != [] && maxFileSize > 0
    ensures Pieces(size, SortedUnique(candidates), cuts, boundaries, sizes)
    ensures StrictlyIncreasing(boundaries)
    ensures var bounds := SortedUnique(candidates);
            |sizes| == |boundaries| + 1 && Sum(sizes) == RangeTotal(size, bounds, 0, |bounds| - 1)
    ensures |sizes| == 1 || |sizes| <= maxSubcompactions
    ensures forall m | 0 <= m < |boundaries| :: sizes[m] as real * maxSubcompactions as real >= Sum(sizes) as real
  {
    hide SortedUnique, Pieces, Sum;
    var bounds := SortedUnique(candidates);
    assert candidates[0] in bounds;
    var n := |bounds| - 1;                 // number of ranges
    var total := 0;
    for i := 0 to n
      invariant total == RangeTotal(size, bounds, 0, i)
    {
      total := total + size(bounds[i], bounds[i + 1]);
    }
    var maxOutputFiles := Ceil(total as real / 0.8 / maxFileSize as real);
    var subcompactions := Min3(n, maxSubcompactions, maxOutputFiles);
    if subcompactions > 1 {
      boundaries, sizes, cuts := GroupRanges(size, bounds, subcompactions, total as real / subcompactions as real);
      MeanBound(total, subcompactions, maxSubcompactions, sizes[..|boundaries|]);
    } else {
      boundaries, sizes, cuts := [], [total], [];
      OnePiece(size, bounds);
    }
    PiecesIncrease(size, bounds, cuts, boundaries, sizes);
    PiecesConserve(size, bounds, cuts, boundaries, sizes, 0);
    assert sizes[0..] == sizes;
  }

  /** The first and the last candidate in order. */
  lemma OutermostKeys(ks: seq<UserKey>, lo: UserKey, hi: UserKey)
    requires lo in ks && hi in ks && forall x | x in ks :: lo <= x <= hi
    ensures var bounds := SortedUnique(ks); bounds != [] && bounds[0] == lo && bounds[|bounds| - 1] == hi
  {
    var bounds := SortedUnique(ks);
    var i :| 0 <= i < |bounds| && bounds[i] == lo;
    var j :| 0 <= j < |bounds| && bounds[j] == hi;
    assert bounds[0] in ks && bounds[|bounds| - 1] in ks;
  }

  /** The pieces cover the compaction's whole range, from its smallest to its largest key. */
  method GenSubcompactionBoundaries(size: SizeOracle, c: Compaction, maxSubcompactions: nat, maxFileSize: nat)
    returns (boundaries: seq<UserKey>, sizes: seq<nat>, ghost bounds: seq<UserKey>, ghost cuts: seq<nat>)
    requires CompactionOk(c) && c.inputs[0].level <= c.outputLevel && maxFileSize > 0
    requires forall k | 0 <= k < |c.inputs| && c.inputs[k].level > 0 :: CleanCuts.Sorted(c.inputs[k].files)
    requires forall f | HasInput(c.inputs, f) :: f.smallest <= f.largest
    ensures Pieces(size, bounds, cuts, boundaries, sizes) && StrictlyIncreasing(bounds) &&
            StrictlyIncreasing(boundaries)
    ensures Spans(Considered(c.inputs, |c.inputs|, c.outputLevel), bounds)
    ensures (forall k | 0 <= k < |c.inputs| :: c.inputs[k].level <= c.outputLevel) ==>
              bounds[0] == c.smallest && bounds[|bounds| - 1] == c.largest
    ensures |sizes| == |boundaries| + 1 && Sum(sizes) == RangeTotal(size, bounds, 0, |bounds| - 1)
    ensures |sizes| == 1 || |sizes| <= maxSubcompactions
    ensures forall m | 0 <= m < |boundaries| :: sizes[m] as real * maxSubcompactions as real >= Sum(sizes) as real
  {
    hide SortedUnique, Pieces, Sum, Spans, HullAll, Considered;
    var candidates := CollectCandidates(c.inputs, c.outputLevel);
    SomeCandidate(c, candidates);
    if forall k | 0 <= k < |c.inputs| :: c.inputs[k].level <= c.outputLevel {
      SpansCompaction(c, candidates);
      OutermostKeys(candidates, c.smallest, c.largest);
    }
    boundaries, sizes, cuts := SplitCandidates(size, candidates, maxSubcompactions, maxFileSize);
    bounds := SortedUnique(candidates);
    SameSpan(Considered(c.inputs, |c.inputs|, c.outputLevel), candidates, bounds);
  }

  lemma SomeCandidate(c: Compaction, ks: seq<UserKey>)
    requires CompactionOk(c) && c.inputs[0].level <= c.outputLevel &&
             Spans(Considered(c.inputs, |c.inputs|, c.outputLevel), ks)
    ensures ks != []
  {
    var f := c.inputs[0].files[0];
    ConsideredAreInputs(c.inputs, |c.inputs|, c.outputLevel, f);
    assert f in c.inputs[0].files;
  }

  lemma SameEdges(files: Files, ks: seq<UserKey>, other: seq<UserKey>)
    requires Edges(files, ks) && forall x | x in other :: x in ks
    ensures Edges(files, other)
  {
    forall j | 0 <= j < |other| ensures EdgeOf(files, other[j]) {
      assert other[j] in other;
      var i :| 0 <= i < |ks| && ks[i] == other[j];
      assert EdgeOf(files, ks[i]);
    }
  }

  lemma SameSpan(files: Files, ks: seq<UserKey>, other: seq<UserKey>)
    requires Spans(files, ks) && (forall x | x in other :: x in ks) && (forall x | x in ks :: x in other)
    ensures Spans(files, other)
  {
    SameEdges(files, ks, other);
    hide Edges;
    if files != [] {
      var lo, hi :| Bracket(files, ks, lo, hi);
      assert Bracket(files, other, lo, hi);
    }
  }

  lemma MeanBound(total: nat, subcompactions: nat, maxSubcompactions: nat, sizes: seq<nat>)
    requires 1 < subcompactions <= maxSubcompactions
    requires forall m | 0 <= m < |sizes| :: sizes[m] as real >= total as real / subcompactions as real
    ensures forall m | 0 <= m < |sizes| :: sizes[m] as real * maxSubcompactions as real >= total as real
  {
    forall m | 0 <= m < |sizes| ensures sizes[m] as real * maxSubcompactions as real >= total as real {
      var x, n, k := sizes[m] as real, subcompactions as real, maxSubcompactions as real;
      calc {
        total as real;
        total as real / n * n;
      <=
        x * n;
      <=
        x * k;
      }
    }
  }
}
