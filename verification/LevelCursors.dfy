/** Compaction's view of the files it does not rewrite, and the cursor-based
    test for data beyond the output level (db/compaction.cc). */
module LevelCursors {
  import opened Lsm

  datatype FileMeta = FileMeta(smallest: UserKey, largest: UserKey, entries: seq<Entry>) {
    predicate Covers(k: UserKey) {
      smallest <= k <= largest
    }

    predicate Overlaps(lo: UserKey, hi: UserKey) {
      smallest <= hi && lo <= largest
    }

    /** The file's metadata bounds its contents. */
    ghost predicate Bounded() {
      forall i | 0 <= i < |entries| :: Covers(entries[i].key)
    }
  }

  /** Files of a level above zero: both boundary keys never decrease. */
  ghost predicate OrderedFiles(files: seq<FileMeta>) {
    forall i, j | 0 <= i < j < |files| :: files[i].smallest <= files[j].smallest && files[i].largest <= files[j].largest
  }

  datatype Compaction = Compaction(
    levelStyle: bool,
    outputLevel: nat,
    levels: seq<seq<FileMeta>>,   // every level of the input version
    lastL0Input: nat,             // index in level 0 of the oldest input, when the output is level 0
    smallestUserKey: UserKey,
    largestUserKey: UserKey,
    allowIngestBehind: bool,
    preserveDeletes: bool)
  {
    ghost predicate Valid() {
      && outputLevel < |levels|
      && (outputLevel == 0 ==> lastL0Input < |levels[0]|)
      && (forall l | 0 < l < |levels| :: OrderedFiles(levels[l]))
      && (forall l, i | 0 <= l < |levels| && 0 <= i < |levels[l]| :: levels[l][i].Bounded())
    }

    /** IsBottommostLevel, with RangeMightExistAfterSortedRun unfolded. */
    predicate Bottommost()
      requires outputLevel < |levels|
    {
      && (outputLevel == 0 ==> lastL0Input + 1 == |levels[0]|)
      && (forall l | outputLevel < l < |levels| ::
            && (outputLevel == 0 ==> levels[l] == [])
            && (forall i | 0 <= i < |levels[l]| :: !levels[l][i].Overlaps(smallestUserKey, largestUserKey)))
    }

    /** The full scan that the moving cursors stand for. */
    predicate NotBeyond(k: UserKey)
      requires outputLevel < |levels|
    {
      || Bottommost()
      || (outputLevel != 0 && levelStyle &&
          forall l | outputLevel < l < |levels| :: forall i | 0 <= i < |levels[l]| :: !levels[l][i].Covers(k))
    }

    /** Older data in search order: older level-0 files, then deeper levels. */
    function Below(): seq<Entry>
      requires outputLevel < |levels| && (outputLevel == 0 ==> lastL0Input < |levels[0]|)
    {
      (if outputLevel == 0 then Contents(levels[0][lastL0Input + 1..]) else [])
      + LevelContents(levels[outputLevel + 1..])
    }
  }

  function Contents(files: seq<FileMeta>): seq<Entry> {
    if files == [] then [] else files[0].entries + Contents(files[1..])
  }

  function LevelContents(levels: seq<seq<FileMeta>>): seq<Entry> {
    if levels == [] then [] else Contents(levels[0]) + LevelContents(levels[1..])
  }

  lemma {:induction false} ContentsNoKey(files: seq<FileMeta>, k: UserKey)
    requires forall i | 0 <= i < |files| :: files[i].Bounded() && !files[i].Covers(k)
    ensures NoKey(Contents(files), k)
  {
    if files != [] {
      assert files[0].Bounded() && !files[0].Covers(k);
      ContentsNoKey(files[1..], k);
    }
  }

  lemma {:induction false} LevelContentsNoKey(levels: seq<seq<FileMeta>>, k: UserKey)
    requires forall l, i | 0 <= l < |levels| && 0 <= i < |levels[l]| ::
               levels[l][i].Bounded() && !levels[l][i].Covers(k)
    ensures NoKey(LevelContents(levels), k)
  {
    if levels != [] {
      ContentsNoKey(levels[0], k);
      forall l, i | 0 <= l < |levels[1..]| && 0 <= i < |levels[1..][l]|
        ensures levels[1..][l][i].Bounded() && !levels[1..][l][i].Covers(k)
      {
        assert levels[1..][l] == levels[l + 1];
      }
      LevelContentsNoKey(levels[1..], k);
    }
  }

  /** The answer "not beyond" is safe: no older record of the key survives the
      compaction, so a tombstone for it hides nothing. */
  lemma NotBeyondIsSafe(c: Compaction, k: UserKey)
    requires c.Valid() && c.NotBeyond(k)
    requires c.smallestUserKey <= k <= c.largestUserKey
    ensures NoKey(c.Below(), k)
  {
    var deeper: seq<seq<FileMeta>> := c.levels[c.outputLevel + 1..];
    forall l, i | 0 <= l < |deeper| && 0 <= i < |deeper[l]|
      ensures deeper[l][i].Bounded() && !deeper[l][i].Covers(k)
    {
      var m := c.outputLevel + 1 + l;
      assert deeper[l] == c.levels[m];
      assert c.levels[m][i].Bounded();
      if c.Bottommost() {
        assert !c.levels[m][i].Overlaps(c.smallestUserKey, c.largestUserKey);
      }
    }
    LevelContentsNoKey(deeper, k);
    if c.outputLevel == 0 {
      assert c.levels[0][c.lastL0Input + 1..] == [];
    }
  }

  /** Every file a cursor has passed ends before k. */
  ghost predicate CursorsBehind(c: Compaction, ptrs: seq<nat>, k: UserKey) {
    && |ptrs| == |c.levels|
    && (forall l | c.outputLevel < l < |c.levels| ::
          && ptrs[l] <= |c.levels[l]|
          && (forall i | 0 <= i < ptrs[l] :: c.levels[l][i].largest < k))
  }

  /** One level's cursor step: afterwards the cursor stands at the first file
      that does not end before k, and that file alone decides the level. */
  method AdvanceCursor(files: seq<FileMeta>, start: nat, k: UserKey) returns (p: nat, found: bool)
    requires OrderedFiles(files) && start <= |files|
    requires forall i | 0 <= i < start :: files[i].largest < k
    ensures start <= p <= |files|
    ensures forall i | 0 <= i < p :: files[i].largest < k
    ensures found <==> exists i | 0 <= i < |files| :: files[i].Covers(k)
  {
    p := start;
    found := false;
    while p < |files|
      invariant start <= p <= |files|
      invariant forall i | 0 <= i < p :: files[i].largest < k
    {
      if k <= files[p].largest {
        found := k >= files[p].smallest;
        if !found {
          assert forall i | p <= i < |files| :: files[i].smallest > k;
        }
        return;
      }
      p := p + 1;
    }
  }

  method KeyNotExistsBeyondOutputLevel(c: Compaction, k: UserKey, ptrs: array<nat>) returns (absent: bool)
    requires c.Valid() && CursorsBehind(c, ptrs[..], k)
    modifies ptrs
    ensures absent == c.NotBeyond(k)
    ensures CursorsBehind(c, ptrs[..], k)
  {
    if c.Bottommost() {
      return true;
    } else if c.outputLevel != 0 && c.levelStyle {
      var lvl := c.outputLevel + 1;
      while lvl < |c.levels|
        invariant c.outputLevel < lvl <= |c.levels|
        invariant CursorsBehind(c, ptrs[..], k)
        invariant forall l | c.outputLevel < l < lvl :: forall i | 0 <= i < |c.levels[l]| :: !c.levels[l][i].Covers(k)
      {
        assert ptrs[..][lvl] == ptrs[lvl];
        var p, found := AdvanceCursor(c.levels[lvl], ptrs[lvl], k);
        ptrs[lvl] := p;
        if found {
          return false;
        }
        lvl := lvl + 1;
      }
      return true;
    }
    return false;
  }

  lemma CursorsStayBehind(c: Compaction, ptrs: seq<nat>, k: UserKey, k': UserKey)
    requires CursorsBehind(c, ptrs, k) && k <= k'
    ensures CursorsBehind(c, ptrs, k')
  {
  }

  /** Fresh cursors answer any nondecreasing series of keys exactly as a full
      scan of the deeper levels would. */
  method ProbeAll(c: Compaction, keys: seq<UserKey>) returns (answers: seq<bool>)
    requires c.Valid()
    requires forall i, j | 0 <= i < j < |keys| :: keys[i] <= keys[j]
    ensures |answers| == |keys|
    ensures forall i | 0 <= i < |keys| :: answers[i] <==> c.NotBeyond(keys[i])
  {
    var ptrs := new nat[|c.levels|](_ => 0);
    answers := [];
    for n := 0 to |keys|
      invariant |answers| == n
      invariant n < |keys| ==> CursorsBehind(c, ptrs[..], keys[n])
      invariant forall i | 0 <= i < n :: answers[i] <==> c.NotBeyond(keys[i])
    {
      var b := KeyNotExistsBeyondOutputLevel(c, keys[n], ptrs);
      answers := answers + [b];
      if n + 1 < |keys| {
        CursorsStayBehind(c, ptrs[..], keys[n], keys[n + 1]);
      }
    }
  }
}
