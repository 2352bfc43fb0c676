/** The iterator itself (db/compaction_iterator.cc): fields updated turn by turn
    over a cursor on sorted input, proved against CompactionRules.Emit. The
    snapshot checker, compaction filter, merges and range tombstones are absent. */
module CompactionIteration {
  import opened Wrappers
  import opened Lsm
  import opened LevelCursors
  import opened CompactionRules

  ghost predicate KeysAscend(es: seq<Entry>) {
    forall i, j | 0 <= i < j < |es| :: es[i].key <= es[j].key
  }

  type Stream = es: seq<Entry> | KeysAscend(es) witness []

  /** Where the search for a stripe stops determines both ends of the stripe. */
  lemma {:induction false} StripeAt(ss: seq<nat>, n: nat, i: nat)
    requires i <= |ss| && (forall j | 0 <= j < i :: ss[j] < n) && (i < |ss| ==> n <= ss[i])
    ensures Stripe(ss, n) == if i < |ss| then ss[i] else MAX_SEQUENCE
    ensures Prev(ss, n) == if i == 0 then 0 else ss[i - 1]
  {
    if i > 0 {
      StripeAt(ss[1..], n, i - 1);
    }
  }

  class CompactionIterator {
    const c: Config
    const input: Stream
    const visibleAtTip: bool := c.snapshots == []
    const earliestSnapshot: nat := if c.snapshots == [] then MAX_SEQUENCE else c.snapshots[0]
    const bottommostLevel: bool := c.compaction.Some? && c.compaction.value.Bottommost()
    const levelPtrs: array<nat>
    var pos: nat                       // input_
    var valid: bool
    var atNext: bool
    var ikey: Entry                    // ikey_ together with value_
    var hasCurrentUserKey: bool
    var currentUserKey: UserKey
    var currentUserKeySnapshot: nat
    var hasOutputtedKey: bool
    var clearAndOutputNextKey: bool

    ghost predicate Valid()
      reads this, levelPtrs
    {
      && pos <= |input|
      && (valid && !atNext ==> pos < |input|)
      && CursorsReady()
    }

    ghost predicate CursorsReady()
      reads this, levelPtrs
    {
      c.compaction.Some? && pos < |input| ==> CursorsBehind(c.compaction.value, levelPtrs[..], input[pos].key)
    }

    /** The loop state that the fields stand for. */
    ghost function Abs(first: bool): State
      reads this
      requires pos <= |input|
    {
      State(input[pos..], hasCurrentUserKey, currentUserKey, currentUserKeySnapshot,
            hasOutputtedKey, clearAndOutputNextKey, first)
    }

    /** The state the next call of NextFromInput starts from, once the current
        output has been recorded (or not, inside SeekToFirst). */
    ghost function After(recorded: bool): State
      reads this
      requires pos <= |input| && (!atNext ==> pos < |input|)
    {
      Abs(false).(rest := input[if atNext then pos else pos + 1..], outputted := hasOutputtedKey || recorded)
    }

    /** What is still to come after the current output. */
    ghost function Remaining(): seq<Entry>
      reads this, levelPtrs
      requires Valid() && valid
    {
      Emit(c, After(false))
    }

    constructor (c: Config, input: Stream)
      ensures Valid() && !valid && this.c == c && this.input == input
      ensures Abs(true) == Start(input)
      ensures fresh(levelPtrs)
    {
      this.c := c;
      this.input := input;
      levelPtrs := new nat[if c.compaction.Some? then |c.compaction.value.levels| else 0](_ => 0);
      pos := 0;
      valid := false;
      atNext := false;
      ikey := Entry(0, 0, Put, "");
      hasCurrentUserKey := false;
      currentUserKey := 0;
      currentUserKeySnapshot := 0;
      hasOutputtedKey := false;
      clearAndOutputNextKey := false;
    }

    method FindEarliestVisibleSnapshot(n: nat) returns (cur: nat, prev: nat)
      requires Valid() && c.snapshots != []
      ensures cur == Stripe(c.snapshots, n) && prev == Prev(c.snapshots, n)
    {
      var i := 0;
      while i < |c.snapshots| && c.snapshots[i] < n
        invariant 0 <= i <= |c.snapshots|
        invariant forall j | 0 <= j < i :: c.snapshots[j] < n
      {
        i := i + 1;
      }
      StripeAt(c.snapshots, n, i);
      prev := if i == 0 then 0 else c.snapshots[i - 1];
      cur := if i < |c.snapshots| then c.snapshots[i] else MAX_SEQUENCE;
    }

    /** input_->Next() */
    method Advance()
      requires Valid() && pos < |input| && !valid
      modifies this`pos
      ensures Valid() && pos == old(pos) + 1
      ensures old(CursorsReady()) ==> CursorsReady()
    {
      pos := pos + 1;
      if c.compaction.Some? && pos < |input| {
        CursorsStayBehind(c.compaction.value, levelPtrs[..], input[pos - 1].key, input[pos].key);
      }
    }

    method NotBeyondOutput() returns (absent: bool)
      requires Valid() && c.compaction.Some?
      requires CursorsBehind(c.compaction.value, levelPtrs[..], ikey.key)
      requires pos < |input| ==> ikey.key <= input[pos].key
      modifies levelPtrs
      ensures Valid()
      ensures absent == c.NotBeyond(ikey.key)
    {
      absent := KeyNotExistsBeyondOutputLevel(c.compaction.value, ikey.key, levelPtrs);
      if pos < |input| {
        CursorsStayBehind(c.compaction.value, levelPtrs[..], ikey.key, input[pos].key);
      }
    }

    /** The SingleDelete branch: peek at the next record and decide. */
    method HandleSingleDelete(prev: nat, ghost first: bool)
      requires Valid() && !valid && !atNext && pos < |input| && ikey == input[pos]
      modifies this`pos, this`valid, this`atNext, this`hasCurrentUserKey, this`clearAndOutputNextKey, levelPtrs
      ensures Valid() && pos > old(pos)
      ensures var t := SingleDeleteTurn(c, old(Abs(first)), prev);
              if valid then atNext && t == Turn(After(!first), Some(ikey)) else !atNext && t == Turn(Abs(first), None)
    {
      hide CursorsBehind, Compaction.NotBeyond, Settings.Valid;
      ghost var st := Abs(first);
      Advance();
      assert input[pos..] == st.rest[1..];
      if pos < |input| && ikey.key == input[pos].key {
        var next := input[pos];
        if prev == 0 || next.sn > prev {
          if next.kind.SingleDelete? {
          } else if hasOutputtedKey || ikey.sn <= c.writeConflict {
            Advance();
            assert input[pos..] == st.rest[2..];
          } else {
            valid := true;
            clearAndOutputNextKey := true;
          }
        } else {
          valid := true;
        }
      } else {
        hasCurrentUserKey := false;
        var drop := false;
        if c.compaction.Some? && ikey.sn <= earliestSnapshot {
          drop := NotBeyondOutput();
        }
        if !drop {
          valid := true;
        }
      }
      if valid {
        atNext := true;
      }
    }

    /** The bottommost Delete branch: skip the rest of the stripe. */
    method HandleBottomDelete(prev: nat, ghost first: bool)
      requires Valid() && !valid && !atNext && pos < |input| && ikey == input[pos]
      modifies this`pos, this`valid, this`atNext
      ensures Valid() && pos > old(pos)
      ensures var t := BottomDeleteTurn(old(Abs(first)), prev);
              if valid then atNext && t == Turn(After(!first), Some(ikey)) else !atNext && t == Turn(Abs(first), None)
    {
      hide CursorsBehind;
      ghost var st := Abs(first);
      Advance();
      while pos < |input| && ikey.key == input[pos].key && (prev == 0 || input[pos].sn > prev)
        invariant Valid() && !valid && !atNext && old(pos) < pos <= |input|
        invariant SkipStripe(st.rest, 1, ikey.key, prev) == SkipStripe(st.rest, pos - old(pos), ikey.key, prev)
      {
        Advance();
      }
      assert input[pos..] == st.rest[pos - old(pos)..];
      if pos < |input| && ikey.key == input[pos].key {
        valid := true;
        atNext := true;
      }
    }

    /** Look at the record under the cursor: note whether its user key is new and
        find the stripe it belongs to. */
    method Recognise(ghost first: bool) returns (lastSnapshot: nat, prevSnapshot: nat)
      requires Valid() && pos < |input|
      modifies this`ikey, this`currentUserKey, this`hasCurrentUserKey, this`hasOutputtedKey, this`currentUserKeySnapshot
      ensures ikey == input[pos] && Abs(first) == Arrive(c, old(Abs(first)))
      ensures lastSnapshot == LastStripe(old(Abs(first))) && prevSnapshot == Prev(c.snapshots, ikey.sn)
    {
      ikey := input[pos];
      if !hasCurrentUserKey || ikey.key != currentUserKey {
        currentUserKey := ikey.key;
        hasCurrentUserKey := true;
        hasOutputtedKey := false;
        currentUserKeySnapshot := 0;
      }
      lastSnapshot := currentUserKeySnapshot;
      prevSnapshot := 0;
      if visibleAtTip {
        currentUserKeySnapshot := earliestSnapshot;
      } else {
        currentUserKeySnapshot, prevSnapshot := FindEarliestVisibleSnapshot(ikey.sn);
      }
    }

    /** One turn of NextFromInput's loop. */
    method ProcessRecord(ghost first: bool)
      requires Valid() && !valid && !atNext && pos < |input|
      modifies this, levelPtrs
      ensures Valid() && (valid || pos > old(pos))
      ensures Step(c, old(Abs(first))) == if valid then Turn(After(!first), Some(ikey)) else Turn(Abs(first), None)
      ensures !valid ==> !atNext
    {
      hide SingleDeleteTurn, BottomDeleteTurn, Stripe, Prev, Arrive, LastStripe, CursorsBehind, Compaction.NotBeyond,
           Compaction.Bottommost, Settings.Valid;
      var lastSnapshot, prevSnapshot := Recognise(first);
      if clearAndOutputNextKey {
        ikey := ikey.(value := "");
        valid := true;
        clearAndOutputNextKey := false;
      } else if ikey.kind.SingleDelete? {
        HandleSingleDelete(prevSnapshot, first);
      } else if lastSnapshot == currentUserKeySnapshot {
        Advance();
      } else {
        var obsolete := false;
        if c.compaction.Some? && ikey.kind.Delete? && ikey.sn <= earliestSnapshot && c.NotNeeded(ikey.sn) {
          obsolete := NotBeyondOutput();
        }
        if obsolete {
          Advance();
        } else if ikey.kind.Delete? && bottommostLevel && c.NotNeeded(ikey.sn) {
          HandleBottomDelete(prevSnapshot, first);
        } else {
          valid := true;
        }
      }
    }

    method NextFromInput(ghost first: bool)
      requires Valid()
      modifies this, levelPtrs
      ensures Valid()
      ensures valid ==> Emit(c, old(Abs(first))) == [Prepare(c, ikey)] + Emit(c, After(!first))
      ensures !valid ==> Emit(c, old(Abs(first))) == []
    {
      atNext := false;
      valid := false;
      ghost var whole := Emit(c, Abs(first));
      while !valid && pos < |input|
        invariant Valid()
        invariant !valid ==> !atNext && whole == Emit(c, Abs(first))
        invariant valid ==> whole == [Prepare(c, ikey)] + Emit(c, After(!first))
        decreases |input| - pos, !valid
      {
        ProcessRecord(first);
      }
    }

    method PrepareOutput()
      requires Valid()
      modifies this`ikey
      ensures ikey == if valid then Prepare(c, old(ikey)) else old(ikey)
    {
      if c.compaction.Some? && !c.compaction.value.allowIngestBehind && c.NotNeeded(ikey.sn) &&
         bottommostLevel && valid && ikey.sn <= earliestSnapshot && c.compaction.value.largestUserKey != ikey.key {
        ikey := ikey.(sn := 0);
      }
    }

    method SeekToFirst()
      requires Valid() && Abs(true) == Start(input)
      modifies this, levelPtrs
      ensures Valid()
      ensures Compacted(c, input) == if valid then [ikey] + Remaining() else []
    {
      hide Emit;
      NextFromInput(true);
      PrepareOutput();
    }

    method Next()
      requires Valid() && valid
      modifies this, levelPtrs
      ensures Valid()
      ensures old(Remaining()) == if valid then [ikey] + Remaining() else []
    {
      hide Emit;
      ghost var rest := After(false);
      valid := false;
      if !atNext {
        Advance();
      }
      assert Abs(false) == rest;
      NextFromInput(false);
      if valid {
        hasOutputtedKey := true;
      }
      PrepareOutput();
    }
  }

  /** The compaction loop over the iterator collects exactly Compacted. */
  method Drain(c: Config, input: Stream) returns (out: seq<Entry>)
    ensures out == Compacted(c, input)
  {
    hide Emit;
    var it := new CompactionIterator(c, input);
    it.SeekToFirst();
    out := [];
    while it.valid
      invariant it.Valid() && it.c == c && fresh(it) && fresh(it.levelPtrs)
      invariant Compacted(c, input) == out + if it.valid then [it.ikey] + it.Remaining() else []
      decreases if it.valid then |it.Remaining()| + 1 else 0
    {
      out := out + [it.ikey];
      it.Next();
    }
  }
}
