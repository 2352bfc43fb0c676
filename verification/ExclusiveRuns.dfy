/** Whole runs of level-style picks, manual compactions and releases. */
module ExclusiveRuns {
  import opened Wrappers
  import opened CleanCuts
  import opened ExclusivePicks

  /** Each call looks at a storage of its own, so anything may have been flushed or
      installed in between; Release names a running compaction by its position. */
  datatype Op =
    | Pick(vs: Storage, hints: Hints)
    | Manual(vs: Storage, inputLevel: nat, outputLevel: nat, begin: Option<int>, end: Option<int>, limit: nat)
    | ManualAll(vs: Storage, outputLevel: nat)
    | Release(index: nat)

  ghost predicate OpOk(op: Op) {
    match op
    case Pick(vs, hints) => WellFormed(vs) && HintsOk(vs, {}, hints)
    case Manual(vs, inputLevel, outputLevel, _, _, _) => WellFormed(vs) && inputLevel <= outputLevel < |vs.levels|
    case ManualAll(vs, _) => WellFormed(vs)
    case Release(_) => true
  }

  /** Recomputing the scores leaves files being compacted out of a list of marked ones. */
  function Unmarked(files: seq<File>, busy: set<File>): seq<File> {
    if files == [] then []
    else (if files[0] in busy then [] else [files[0]]) + Unmarked(files[1..], busy)
  }

  lemma {:induction false} UnmarkedListed(vs: Storage, busy: set<File>, files: seq<File>, below: nat)
    requires ListedIn(vs, {}, files, below)
    ensures ListedIn(vs, busy, Unmarked(files, busy), below)
  {
    if files != [] {
      UnmarkedListed(vs, busy, files[1..], below);
      var rest := Unmarked(files[1..], busy);
      var all := Unmarked(files, busy);
      forall i | 0 <= i < |all| ensures (all[i] == files[0] && files[0] !in busy) || all[i] in rest {
      }
    }
  }

  function Recomputed(h: Hints, busy: set<File>): Hints {
    var marked := Unmarked(h.marked, busy);
    h.(marked := marked, random := if marked == [] then 0 else h.random % |marked|,
       bottommost := Unmarked(h.bottommost, busy), expired := Unmarked(h.expired, busy))
  }

  lemma RecomputedOk(vs: Storage, h: Hints, busy: set<File>)
    requires HintsOk(vs, {}, h)
    ensures HintsOk(vs, busy, Recomputed(h, busy))
  {
    hide ListedIn, Unmarked;
    UnmarkedListed(vs, busy, h.marked, |vs.levels| - 1);
    UnmarkedListed(vs, busy, h.bottommost, |vs.levels|);
    UnmarkedListed(vs, busy, h.expired, h.lastNonEmpty + 1);
  }

  ghost predicate Lists(list: seq<Compaction>, running: set<Compaction>) {
    && (forall c :: c in list <==> c in running)
    && (forall i, j | 0 <= i < j < |list| :: list[i] != list[j])
  }

  lemma ListOneMore(list: seq<Compaction>, running: set<Compaction>, c: Compaction)
    requires Lists(list, running) && c !in running
    ensures Lists(list + [c], running + {c})
  {
  }

  lemma ListOneLess(list: seq<Compaction>, running: set<Compaction>, n: nat)
    requires Lists(list, running) && n < |list|
    ensures Lists(list[..n] + list[n + 1..], running - {list[n]})
  {
    var rest := list[..n] + list[n + 1..];
    forall c ensures c in rest <==> c in list && c != list[n] {
      if c in list && c != list[n] {
        var i :| 0 <= i < |list| && list[i] == c;
        assert rest[if i < n then i else i - 1] == c;
      }
    }
  }

  /** After every run: a file is flagged iff it is an input of a running compaction, no file
      is an input of two, and compactions that write to the same level below 0 have
      disjoint key ranges. */
  method Run(ops: seq<Op>) returns (picker: CompactionPicker, list: seq<Compaction>)
    requires forall i | 0 <= i < |ops| :: OpOk(ops[i])
    ensures picker.Valid() && Lists(list, picker.running)
    ensures forall f :: f in picker.beingCompacted <==> InOne(picker.running, f)
    ensures forall i, j | 0 <= i < j < |list| :: Exclusive(list[i], list[j])
  {
    hide WellFormed, HintsOk, Inv, Lists;
    picker := new CompactionPicker();
    list := [];
    StartsEmpty();
    for n := 0 to |ops|
      invariant fresh(picker) && picker.Valid() && Lists(list, picker.running)
    {
      var c: Option<Compaction> := None;
      match ops[n] {
        case Pick(vs, hints) =>
          RecomputedOk(vs, hints, picker.beingCompacted);
          ListSoFar(list, picker.running);
          c := picker.PickCompaction(vs, Recomputed(hints, picker.beingCompacted));
        case Manual(vs, inputLevel, outputLevel, begin, end, limit) =>
          ListSoFar(list, picker.running);
          var conflict, resume;
          c, conflict, resume := picker.CompactRange(vs, inputLevel, outputLevel, begin, end, limit);
        case ManualAll(vs, outputLevel) =>
          ListSoFar(list, picker.running);
          var conflict;
          c, conflict := picker.CompactAllLevels(vs, outputLevel);
        case Release(index) =>
          if index < |list| {
            ListOneLess(list, picker.running, index);
            ListedRuns(list, picker.running, index);
            picker.ReleaseCompactionFiles(list[index]);
            list := list[..index] + list[index + 1..];
          }
      }
      if c.Some? {
        list := list + [c.value];
      }
    }
    RunIsExclusive(picker, list);
  }

  lemma StartsEmpty()
    ensures Lists([], {})
  {
  }

  lemma ListedRuns(list: seq<Compaction>, running: set<Compaction>, i: nat)
    requires Lists(list, running) && i < |list|
    ensures list[i] in running
  {
  }

  lemma ListSoFar(list: seq<Compaction>, running: set<Compaction>)
    requires Lists(list, running)
    ensures forall c | c !in running :: Lists(list + [c], running + {c})
  {
    hide Lists;
    forall c | c !in running ensures Lists(list + [c], running + {c}) {
      ListOneMore(list, running, c);
    }
  }

  lemma RunIsExclusive(picker: CompactionPicker, list: seq<Compaction>)
    requires picker.Valid() && Lists(list, picker.running)
    ensures forall f :: f in picker.beingCompacted <==> InOne(picker.running, f)
    ensures forall i, j | 0 <= i < j < |list| :: Exclusive(list[i], list[j])
  {
    hide InOne, Exclusive, CompactionOk;
    forall i, j | 0 <= i < j < |list| ensures Exclusive(list[i], list[j]) {
      assert list[i] in picker.running && list[j] in picker.running && list[i] != list[j];
    }
  }
}
