/** Bookkeeping of column compactions (Compaction::AddInputDeletions in
    db/compaction.cc): each takes a run of keys off the front of some level-0 rows,
    and a row is consumed piece by piece by many compactions. Which keys a column takes
    is an arbitrary choice here, limited to keys the row still has. */
module ColumnCompaction {
  import opened Wrappers

  /** A row on NVM: its keys in order. */
  datatype FileEntry = FileEntry(filenum: nat, keys: seq<int>)

  /** Its level-0 metadata. */
  datatype FileMeta = FileMeta(number: nat, size: int, smallest: int, largest: int, firstKeyIndex: nat)

  /** How many keys, of which total size, a column takes from a row. */
  datatype Part = Part(file: FileEntry, meta: FileMeta, keysNum: nat, keysSize: nat)

  datatype InputLevel = InputLevel(level: nat, numbers: seq<nat>)

  datatype FileRef = FileRef(level: nat, number: nat)

  /** The edit: files to delete, then level-0 files to add, by number. */
  datatype Edit = Edit(deleted: set<FileRef>, added: map<nat, FileMeta>)

  predicate Finishes(p: Part) {
    p.meta.firstKeyIndex + p.keysNum == |p.file.keys|
  }

  /** The part asks for no more than is left. */
  predicate Fits(p: Part) {
    p.meta.firstKeyIndex + p.keysNum <= |p.file.keys|
  }

  ghost predicate Rows(parts: seq<Part>) {
    && (forall i | 0 <= i < |parts| :: Fits(parts[i]) && parts[i].meta.number == parts[i].file.filenum)
    && (forall i, j | 0 <= i < j < |parts| :: parts[i].file.filenum != parts[j].file.filenum)
  }

  /** The row's metadata once the part is gone. */
  function Shrunk(p: Part): (m: FileMeta)
    requires Fits(p) && !Finishes(p)
  {
    FileMeta(p.meta.number, p.meta.size - p.keysSize, p.file.keys[p.meta.firstKeyIndex + p.keysNum], p.meta.largest,
             p.meta.firstKeyIndex + p.keysNum)
  }

  /** The edit takes the row off level 0 and, unless the part finishes it, puts the rest
      back; finished lists it once if it does. */
  ghost predicate RowEdited(p: Part, edit: Edit, finished: seq<nat>)
    requires Fits(p)
  {
    var n := p.file.filenum;
    && FileRef(0, n) in edit.deleted
    && (if Finishes(p) then n !in edit.added && multiset(finished)[n] == 1
        else n !in finished && n in edit.added && edit.added[n] == Shrunk(p))
  }

  ghost predicate IsRow(parts: seq<Part>, n: nat) {
    exists i :: 0 <= i < |parts| && parts[i].file.filenum == n
  }

  /** What the edit says about each row, and nothing about any other level-0 file. */
  ghost predicate EditsRows(parts: seq<Part>, edit: Edit, finished: seq<nat>)
    requires Rows(parts)
  {
    && (forall n | n in edit.added || n in finished || FileRef(0, n) in edit.deleted :: IsRow(parts, n))
    && (forall i | 0 <= i < |parts| :: RowEdited(parts[i], edit, finished))
  }

  /** A plain compaction deletes all its inputs; a column compaction deletes its inputs
      below level 0 and replaces or removes its rows. */
  method AddInputDeletions(inputs: seq<InputLevel>, column: Option<seq<Part>>) returns (edit: Edit, finished: seq<nat>)
    requires column.Some? ==> Rows(column.value)
    ensures column.None? ==> edit.added == map[] && finished == []
    ensures forall l, n | l > 0 || column.None? ::
              FileRef(l, n) in edit.deleted <==>
              exists w :: 0 <= w < |inputs| && inputs[w].level == l && n in inputs[w].numbers
    ensures column.Some? ==> EditsRows(column.value, edit, finished)
  {
    var deleted: set<FileRef> := {};
    var skip0 := column.Some?;
    for which := 0 to |inputs|
      invariant forall l, n :: FileRef(l, n) in deleted <==>
                  exists w :: 0 <= w < which && inputs[w].level == l && n in inputs[w].numbers && !(skip0 && l == 0)
    {
      if !(skip0 && inputs[which].level == 0) {
        ghost var before := deleted;
        for i := 0 to |inputs[which].numbers|
          invariant forall l, n :: FileRef(l, n) in deleted <==>
                      FileRef(l, n) in before || (l == inputs[which].level && n in inputs[which].numbers[..i])
        {
          deleted := deleted + {FileRef(inputs[which].level, inputs[which].numbers[i])};
        }
      }
    }
    edit, finished := Edit(deleted, map[]), [];
    if column.None? {
      return;
    }
    var parts := column.value;
    ghost var plain := deleted;
    for i := 0 to |parts|
      invariant Rows(parts[..i]) && EditsRows(parts[..i], edit, finished)
      invariant forall l, n | l > 0 :: FileRef(l, n) in edit.deleted <==> FileRef(l, n) in plain
    {
      ghost var e0, f0 := edit, finished;
      var p := parts[i];
      if Finishes(p) {
        edit := edit.(deleted := edit.deleted + {FileRef(0, p.file.filenum)});
        finished := finished + [p.file.filenum];
      } else {
        edit := Edit(edit.deleted + {FileRef(0, p.file.filenum)}, edit.added[p.file.filenum := Shrunk(p)]);
      }
      EditsOneMore(parts, i, e0, f0, edit, finished);
    }
    assert parts[..|parts|] == parts;
  }

  lemma EditsOneMore(parts: seq<Part>, i: nat, e0: Edit, f0: seq<nat>, e: Edit, f: seq<nat>)
    requires Rows(parts) && i < |parts| && Rows(parts[..i]) && EditsRows(parts[..i], e0, f0)
    requires var p := parts[i];
             && e.deleted == e0.deleted + {FileRef(0, p.file.filenum)}
             && (if Finishes(p) then e.added == e0.added && f == f0 + [p.file.filenum]
                 else e.added == e0.added[p.file.filenum := Shrunk(p)] && f == f0)
    ensures Rows(parts[..i + 1]) && EditsRows(parts[..i + 1], e, f)
  {
    hide RowEdited;
    var number := parts[i].file.filenum;
    var shorter, longer := parts[..i], parts[..i + 1];
    assert !IsRow(shorter, number);
    assert IsRow(longer, number) by {
      assert longer[i].file.filenum == number;
    }
    forall n | IsRow(shorter, n) ensures IsRow(longer, n) {
      var j :| 0 <= j < |shorter| && shorter[j].file.filenum == n;
      assert longer[j].file.filenum == n;
    }
    forall j | 0 <= j < |longer| ensures RowEdited(longer[j], e, f) {
      if j < i {
        assert longer[j] == shorter[j];
        OtherRow(longer[j], parts[i], e0, f0, e, f);
      } else {
        ThisRow(parts[i], e0, f0, e, f);
      }
    }
  }

  lemma ThisRow(p: Part, e0: Edit, f0: seq<nat>, e: Edit, f: seq<nat>)
    requires Fits(p) && p.file.filenum !in f0 && p.file.filenum !in e0.added
    requires e.deleted == e0.deleted + {FileRef(0, p.file.filenum)}
    requires if Finishes(p) then e.added == e0.added && f == f0 + [p.file.filenum]
             else e.added == e0.added[p.file.filenum := Shrunk(p)] && f == f0
    ensures RowEdited(p, e, f)
  {
  }

  lemma OtherRow(q: Part, p: Part, e0: Edit, f0: seq<nat>, e: Edit, f: seq<nat>)
    requires Fits(p) && Fits(q) && q.file.filenum != p.file.filenum && RowEdited(q, e0, f0)
    requires e.deleted == e0.deleted + {FileRef(0, p.file.filenum)}
    requires if Finishes(p) then e.added == e0.added && f == f0 + [p.file.filenum]
             else e.added == e0.added[p.file.filenum := Shrunk(p)] && f == f0
    ensures RowEdited(q, e, f)
  {
  }

  // ---- whole runs -------------------------------------------------------------------

  /** Keys lo..hi-1 of a row, taken by one compaction, of the given size. */
  datatype Slice = Slice(lo: nat, hi: nat, size: nat)

  /** rows: every row ever flushed, with its size; l0: level 0; slices: what has been
      taken off each row, in order; dropped: rows reported finished. */
  datatype Db = Db(rows: map<nat, FileEntry>, sizes: map<nat, nat>, l0: map<nat, FileMeta>,
                   slices: map<nat, seq<Slice>>, dropped: seq<nat>)

  datatype Step = Flush(row: FileEntry, size: nat) | Column(parts: seq<Part>, edit: Edit, finished: seq<nat>)

  /** A flush brings a new nonempty row; a column compaction takes at most what is left
      from rows as level 0 has them, and applies the edit that AddInputDeletions gives. */
  ghost predicate Enabled(db: Db, s: Step) {
    match s
    case Flush(row, size) => row.filenum !in db.rows && row.keys != []
    case Column(parts, edit, finished) =>
      && Rows(parts) && EditsRows(parts, edit, finished)
      && forall i | 0 <= i < |parts| ::
           var n := parts[i].file.filenum;
           n in db.l0 && n in db.rows && parts[i].file == db.rows[n] && parts[i].meta == db.l0[n]
  }

  function PartOf(parts: seq<Part>, n: nat): Option<Part> {
    if parts == [] then None
    else if parts[0].file.filenum == n then Some(parts[0])
    else PartOf(parts[1..], n)
  }

  function Took(slices: seq<Slice>, part: Option<Part>): seq<Slice> {
    match part
    case None => slices
    case Some(p) => slices + [Slice(p.meta.firstKeyIndex, p.meta.firstKeyIndex + p.keysNum, p.keysSize)]
  }

  /** Deletions first, then additions, as version edits are applied. */
  function Edited(l0: map<nat, FileMeta>, edit: Edit): map<nat, FileMeta> {
    (map n | n in l0 && FileRef(0, n) !in edit.deleted :: l0[n]) + edit.added
  }

  ghost function Next(db: Db, s: Step): Db {
    match s
    case Flush(row, size) =>
      if row.keys == [] then db
      else Db(db.rows[row.filenum := row], db.sizes[row.filenum := size],
              db.l0[row.filenum := FileMeta(row.filenum, size, row.keys[0], row.keys[|row.keys| - 1], 0)],
              db.slices[row.filenum := []], db.dropped)
    case Column(parts, edit, finished) =>
      db.(l0 := Edited(db.l0, edit), dropped := db.dropped + finished,
          slices := map n | n in db.slices :: Took(db.slices[n], PartOf(parts, n)))
  }

  ghost predicate Valid(db: Db, run: seq<Step>)
    decreases |run|
  {
    run == [] || (Enabled(db, run[0]) && Valid(Next(db, run[0]), run[1..]))
  }

  ghost function Final(db: Db, run: seq<Step>): Db
    decreases |run|
  {
    if run == [] then db else Final(Next(db, run[0]), run[1..])
  }

  /** The slices start at 0 and each begins where the previous ended. */
  ghost predicate Tiles(slices: seq<Slice>, upTo: nat) {
    if slices == [] then upTo == 0
    else var z := slices[|slices| - 1]; z.lo <= z.hi == upTo && Tiles(slices[..|slices| - 1], z.lo)
  }

  function Taken(slices: seq<Slice>): nat {
    if slices == [] then 0 else Taken(slices[..|slices| - 1]) + slices[|slices| - 1].size
  }

  /** The keys that went through compactions, in the order they did. */
  function KeysOf(row: FileEntry, slices: seq<Slice>): seq<int> {
    if slices == [] then []
    else
      var z := slices[|slices| - 1];
      KeysOf(row, slices[..|slices| - 1]) + if z.lo <= z.hi <= |row.keys| then row.keys[z.lo..z.hi] else []
  }

  /** Row n: on level 0 with the metadata of what is left, or gone with nothing left. */
  ghost predicate RowOk(db: Db, n: nat) {
    && n in db.rows && n in db.sizes && n in db.slices && db.rows[n].filenum == n && db.rows[n].keys != []
    && var row := db.rows[n];
       if n in db.l0
       then var m := db.l0[n];
            && m.number == n && m.firstKeyIndex < |row.keys| && Tiles(db.slices[n], m.firstKeyIndex)
            && m.smallest == row.keys[m.firstKeyIndex] && m.largest == row.keys[|row.keys| - 1]
            && m.size == db.sizes[n] - Taken(db.slices[n]) && n !in db.dropped
       else Tiles(db.slices[n], |row.keys|) && multiset(db.dropped)[n] == 1
  }

  ghost predicate Inv(db: Db) {
    && (forall n | n in db.rows :: RowOk(db, n))
    && (forall n | n in db.l0 || n in db.slices || n in db.dropped :: n in db.rows)
  }

  lemma {:induction false} PartOfFound(parts: seq<Part>, i: nat)
    requires i < |parts| && forall j | 0 <= j < i :: parts[j].file.filenum != parts[i].file.filenum
    ensures PartOf(parts, parts[i].file.filenum) == Some(parts[i])
  {
    if i > 0 {
      PartOfFound(parts[1..], i - 1);
    }
  }

  lemma {:induction false} PartOfNone(parts: seq<Part>, n: nat)
    requires !IsRow(parts, n)
    ensures PartOf(parts, n) == None
  {
    if parts != [] {
      assert parts[0].file.filenum != n;
      forall i | 0 <= i < |parts[1..]| ensures parts[1..][i].file.filenum != n {
        assert parts[1..][i] == parts[i + 1];
      }
      PartOfNone(parts[1..], n);
    }
  }

  lemma TouchedRow(db: Db, s: Step, p: Part)
    requires s.Column? && Fits(p) && RowEdited(p, s.edit, s.finished)
    requires var n := p.file.filenum;
             n in db.l0 && RowOk(db, n) && p.file == db.rows[n] && p.meta == db.l0[n] && PartOf(s.parts, n) == Some(p)
    ensures RowOk(Next(db, s), p.file.filenum)
  {
    var n := p.file.filenum;
    var took := Took(db.slices[n], Some(p));
    assert took[..|took| - 1] == db.slices[n];
    assert Tiles(took, p.meta.firstKeyIndex + p.keysNum);
    assert multiset(db.dropped + s.finished)[n] == multiset(db.dropped)[n] + multiset(s.finished)[n];
    var next := Next(db, s);
    assert next.slices[n] == took;
    if Finishes(p) {
      assert n !in next.l0;
    } else {
      assert next.l0[n] == Shrunk(p);
      assert n !in next.dropped;
    }
  }

  lemma UntouchedRow(db: Db, s: Step, n: nat)
    requires s.Column? && RowOk(db, n) && PartOf(s.parts, n) == None
    requires FileRef(0, n) !in s.edit.deleted && n !in s.edit.added && n !in s.finished
    ensures RowOk(Next(db, s), n)
  {
    assert multiset(db.dropped + s.finished)[n] == multiset(db.dropped)[n] + multiset(s.finished)[n];
  }

  lemma ColumnKeepsRow(db: Db, s: Step, n: nat)
    requires s.Column? && Enabled(db, s) && Inv(db) && n in db.rows
    ensures RowOk(Next(db, s), n)
  {
    hide RowOk, RowEdited, Next, PartOf;
    if i :| 0 <= i < |s.parts| && s.parts[i].file.filenum == n {
      PartOfFound(s.parts, i);
      TouchedRow(db, s, s.parts[i]);
    } else {
      assert !IsRow(s.parts, n);
      PartOfNone(s.parts, n);
      UntouchedRow(db, s, n);
    }
  }

  lemma StepKeepsInv(db: Db, s: Step)
    requires Enabled(db, s) && Inv(db)
    ensures Inv(Next(db, s))
  {
    var next := Next(db, s);
    forall n | n in next.rows ensures RowOk(next, n) {
      if s.Column? {
        ColumnKeepsRow(db, s, n);
      } else {
        assert n in db.rows ==> RowOk(db, n);
      }
    }
    if s.Column? {
      forall n | n in next.l0 || n in next.slices || n in next.dropped ensures n in next.rows {
        assert n in s.edit.added || n in s.finished ==> IsRow(s.parts, n);
      }
    }
  }

  lemma {:induction false} TilesGiveKeys(row: FileEntry, slices: seq<Slice>, upTo: nat)
    requires Tiles(slices, upTo) && upTo <= |row.keys|
    ensures KeysOf(row, slices) == row.keys[..upTo]
  {
    if slices != [] {
      var z := slices[|slices| - 1];
      TilesGiveKeys(row, slices[..|slices| - 1], z.lo);
    }
  }

  /** After any run of flushes and column compactions, from any state in order: a row on
      level 0 has had exactly the keys before first_key_index compacted, each once and
      in order, and its metadata describes the rest; a row that left level 0 has had
      all its keys compacted once and in order and was reported finished once. */
  lemma {:induction false} EveryRowIsTiled(db: Db, run: seq<Step>, n: nat)
    requires Inv(db) && Valid(db, run) && n in Final(db, run).rows
    ensures var end := Final(db, run);
            && RowOk(end, n)
            && KeysOf(end.rows[n], end.slices[n]) ==
                 if n in end.l0 then end.rows[n].keys[..end.l0[n].firstKeyIndex] else end.rows[n].keys
    decreases |run|
  {
    if run == [] {
      assert RowOk(db, n);
      var row := db.rows[n];
      TilesGiveKeys(row, db.slices[n], if n in db.l0 then db.l0[n].firstKeyIndex else |row.keys|);
      assert row.keys[..|row.keys|] == row.keys;
    } else {
      StepKeepsInv(db, run[0]);
      EveryRowIsTiled(Next(db, run[0]), run[1..], n);
    }
  }
}
