/** The LRU cache's handles and its chained hash table (cache/lru_cache.h,
    cache/lru_cache.cc). A bucket's chain, linked through next_hash in the source,
    is the sequence of its handles. */
module LruTable {
  /** What the table compares. */
  datatype Ident = Ident(key: int, hash: nat)

  /** A cache entry. Key, hash, charge and priority never change. */
  class LRUHandle {
    const key: int
    const hash: nat
    const charge: nat
    const highPri: bool
    var refs: nat
    var inCache: bool
    var inHighPriPool: bool
    var hasHit: bool
    var next: LRUHandle?
    var prev: LRUHandle?

    constructor (key: int, hash: nat, charge: nat, highPri: bool, refs: nat)
      ensures this.key == key && this.hash == hash && this.charge == charge && this.highPri == highPri
      ensures this.refs == refs && inCache && !inHighPriPool && !hasHit && next == null && prev == null
    {
      this.key, this.hash, this.charge, this.highPri := key, hash, charge, highPri;
      this.refs, inCache, inHighPriPool, hasHit, next, prev := refs, true, false, false, null, null;
    }

    function Id(): Ident {
      Ident(key, hash)
    }
  }

  type Contents = map<Ident, LRUHandle>

  /** Every handle in the buckets is in m, and sits where its hash says. */
  ghost predicate Placed(b: seq<seq<LRUHandle>>, m: Contents) {
    forall i, j | 0 <= i < |b| && 0 <= j < |b[i]| ::
      b[i][j].hash % |b| == i && b[i][j].Id() in m && m[b[i][j].Id()] == b[i][j]
  }

  ghost predicate NoRepeats(b: seq<seq<LRUHandle>>) {
    forall i, j, k | 0 <= i < |b| && 0 <= j < k < |b[i]| :: b[i][j] != b[i][k]
  }

  ghost predicate Complete(b: seq<seq<LRUHandle>>, m: Contents)
    requires |b| > 0
  {
    forall id | id in m :: m[id].Id() == id && m[id] in b[id.hash % |b|]
  }

  /** Buckets b hold exactly the handles of m, each once and where its hash says. */
  ghost predicate Holds(b: seq<seq<LRUHandle>>, m: Contents) {
    |b| > 0 && Placed(b, m) && NoRepeats(b) && Complete(b, m)
  }

  function Total(b: seq<seq<LRUHandle>>): nat {
    if b == [] then 0 else |b[0]| + Total(b[1..])
  }

  ghost predicate PowerOfTwo(n: nat) {
    n == 1 || (n > 1 && n % 2 == 0 && PowerOfTwo(n / 2))
  }

  /** Position of the entry with this id in a chain, or the chain's length. */
  function Find(chain: seq<LRUHandle>, id: Ident): (p: nat)
    ensures p <= |chain|
    ensures p < |chain| ==> chain[p].Id() == id
    ensures forall j | 0 <= j < p :: chain[j].Id() != id
  {
    if chain == [] || chain[0].Id() == id then 0 else 1 + Find(chain[1..], id)
  }

  lemma {:induction false} TotalUpdate(b: seq<seq<LRUHandle>>, i: nat, c: seq<LRUHandle>)
    requires i < |b|
    ensures Total(b[i := c]) + |b[i]| == Total(b) + |c|
  {
    if i > 0 {
      TotalUpdate(b[1..], i - 1, c);
      assert b[i := c][1..] == b[1..][i - 1 := c];
    } else {
      assert b[i := c][1..] == b[1..];
    }
  }

  /** In a well-formed table, the chain position tells membership. */
  lemma FindIsLookup(b: seq<seq<LRUHandle>>, m: Contents, id: Ident)
    requires Holds(b, m)
    ensures var c := b[id.hash % |b|];
            var p := Find(c, id);
            if id in m then p < |c| && c[p] == m[id] else p == |c|
  {
    var c := b[id.hash % |b|];
    if id in m {
      var j :| 0 <= j < |c| && c[j] == m[id];
      assert c[j].Id() == id;
    }
  }

  lemma HoldsReplace(b: seq<seq<LRUHandle>>, m: Contents, h: LRUHandle)
    requires Holds(b, m) && h.Id() in m && h !in m.Values
    ensures var i := h.hash % |b|;
            var p := Find(b[i], h.Id());
            p < |b[i]| && Holds(b[i := b[i][p := h]], m[h.Id() := h])
  {
    FindIsLookup(b, m, h.Id());
    var i := h.hash % |b|;
    var p := Find(b[i], h.Id());
    var c := b[i][p := h];
    var b', m' := b[i := c], m[h.Id() := h];
    forall j | 0 <= j < |b[i]| ensures b[i][j] != h {
      assert m[b[i][j].Id()] == b[i][j];
    }
    forall id | id in m' ensures m'[id].Id() == id && m'[id] in b'[id.hash % |b'|] {
      if id == h.Id() {
        assert c[p] == h;
      } else {
        var q :| 0 <= q < |b[id.hash % |b|]| && b[id.hash % |b|][q] == m[id];
        assert b'[id.hash % |b|][q] == m[id];
      }
    }
    forall k, j | 0 <= k < |b'| && 0 <= j < |b'[k]|
      ensures b'[k][j].hash % |b'| == k && b'[k][j].Id() in m' && m'[b'[k][j].Id()] == b'[k][j]
    {
      if !(k == i && j == p) {
        assert b'[k][j] == b[k][j];
      }
    }
  }

  lemma HoldsAppend(b: seq<seq<LRUHandle>>, m: Contents, h: LRUHandle)
    requires Holds(b, m) && h.Id() !in m
    ensures var i := h.hash % |b|;
            Holds(b[i := b[i] + [h]], m[h.Id() := h])
  {
    HoldsAdd(b, m, h, b[h.hash % |b|] + [h]);
  }

  lemma HoldsPrepend(b: seq<seq<LRUHandle>>, m: Contents, h: LRUHandle)
    requires Holds(b, m) && h.Id() !in m
    ensures var i := h.hash % |b|;
            Holds(b[i := [h] + b[i]], m[h.Id() := h])
  {
    HoldsAdd(b, m, h, [h] + b[h.hash % |b|]);
  }

  lemma HoldsAdd(b: seq<seq<LRUHandle>>, m: Contents, h: LRUHandle, c: seq<LRUHandle>)
    requires Holds(b, m) && h.Id() !in m
    requires c == b[h.hash % |b|] + [h] || c == [h] + b[h.hash % |b|]
    ensures Holds(b[h.hash % |b| := c], m[h.Id() := h])
  {
    var i := h.hash % |b|;
    var b', m' := b[i := c], m[h.Id() := h];
    forall j | 0 <= j < |b[i]| ensures b[i][j] != h && b[i][j] in c {
      assert b[i][j].Id() in m;
      assert c[j] == b[i][j] || c[j + 1] == b[i][j];
    }
    assert forall j | 0 <= j < |c| :: c[j] == h || c[j] in b[i];
    forall id | id in m' ensures m'[id].Id() == id && m'[id] in b'[id.hash % |b'|] {
    }
  }

  lemma HoldsRemove(b: seq<seq<LRUHandle>>, m: Contents, id: Ident)
    requires Holds(b, m) && id in m
    ensures var i := id.hash % |b|;
            var p := Find(b[i], id);
            p < |b[i]| && b[i][p] == m[id] && Holds(b[i := b[i][..p] + b[i][p + 1..]], m - {id})
  {
    hide Placed, NoRepeats, Complete;
    FindIsLookup(b, m, id);
    var i := id.hash % |b|;
    var p := Find(b[i], id);
    var c := b[i][..p] + b[i][p + 1..];
    RemovePlaced(b, m, i, p);
    RemoveNoRepeats(b, i, p);
    RemoveComplete(b, m, i, p);
  }

  lemma RemovePlaced(b: seq<seq<LRUHandle>>, m: Contents, i: nat, p: nat)
    requires Placed(b, m) && NoRepeats(b) && i < |b| && p < |b[i]|
    ensures Placed(b[i := b[i][..p] + b[i][p + 1..]], m - {b[i][p].Id()})
  {
    var c := b[i][..p] + b[i][p + 1..];
    var b': seq<seq<LRUHandle>> := b[i := c];
    var m' := m - {b[i][p].Id()};
    forall k, j | 0 <= k < |b'| && 0 <= j < |b'[k]|
      ensures b'[k][j].hash % |b'| == k && b'[k][j].Id() in m' && m'[b'[k][j].Id()] == b'[k][j]
    {
      var q := if k == i && j >= p then j + 1 else j;
      assert b'[k][j] == b[k][q];
      assert m[b[k][q].Id()] == b[k][q] && m[b[i][p].Id()] == b[i][p];
    }
  }

  lemma RemoveNoRepeats(b: seq<seq<LRUHandle>>, i: nat, p: nat)
    requires NoRepeats(b) && i < |b| && p < |b[i]|
    ensures NoRepeats(b[i := b[i][..p] + b[i][p + 1..]])
  {
  }

  lemma RemoveComplete(b: seq<seq<LRUHandle>>, m: Contents, i: nat, p: nat)
    requires |b| > 0 && Complete(b, m) && i < |b| && p < |b[i]|
    ensures Complete(b[i := b[i][..p] + b[i][p + 1..]], m - {b[i][p].Id()})
  {
    var c := b[i][..p] + b[i][p + 1..];
    var b': seq<seq<LRUHandle>> := b[i := c];
    var m' := m - {b[i][p].Id()};
    forall id | id in m' ensures m'[id].Id() == id && m'[id] in b'[id.hash % |b'|] {
      var r :| 0 <= r < |b[id.hash % |b|]| && b[id.hash % |b|][r] == m[id];
      if id.hash % |b| == i {
        assert c[if r < p then r else r - 1] == m[id];
      }
    }
  }

  // ---- rehashing ------------------------------------------------------------------

  /** Rehashing has reached position j of bucket i of b: done holds exactly the
      handles before that position. */
  ghost predicate Rehashed(b: seq<seq<LRUHandle>>, i: nat, j: nat, done: Contents, m: Contents) {
    && (forall id | id in done :: id in m && done[id] == m[id])
    && (forall k, l | 0 <= k < |b| && 0 <= l < |b[k]| :: b[k][l].Id() in done <==> (k < i || (k == i && l < j)))
  }

  lemma RehashOne(b: seq<seq<LRUHandle>>, i: nat, j: nat, done: Contents, m: Contents)
    requires Holds(b, m) && Rehashed(b, i, j, done, m) && i < |b| && j < |b[i]|
    ensures b[i][j].Id() !in done && Rehashed(b, i, j + 1, done[b[i][j].Id() := b[i][j]], m)
  {
    var h := b[i][j];
    forall k, l | 0 <= k < |b| && 0 <= l < |b[k]| && b[k][l].Id() == h.Id() ensures k == i && l == j {
      assert m[b[k][l].Id()] == b[k][l] && m[h.Id()] == h;
      assert k == i;
    }
  }

  lemma RehashNextBucket(b: seq<seq<LRUHandle>>, i: nat, done: Contents, m: Contents)
    requires i < |b| && Rehashed(b, i, |b[i]|, done, m)
    ensures Rehashed(b, i + 1, 0, done, m)
  {
  }

  lemma RehashedAll(b: seq<seq<LRUHandle>>, done: Contents, m: Contents)
    requires Holds(b, m) && Rehashed(b, |b|, 0, done, m)
    ensures done == m
  {
    forall id | id in m ensures id in done {
      var j :| 0 <= j < |b[id.hash % |b|]| && b[id.hash % |b|][j] == m[id];
      assert b[id.hash % |b|][j].Id() in done;
    }
  }

  lemma StartRehash(b: seq<seq<LRUHandle>>, n: seq<seq<LRUHandle>>, m: Contents)
    requires |n| > 0 && forall i | 0 <= i < |n| :: n[i] == []
    ensures Rehashed(b, 0, 0, map[], m) && Holds(n, map[])
  {
  }

  lemma {:induction false} EmptyBuckets(b: seq<seq<LRUHandle>>)
    requires forall i | 0 <= i < |b| :: b[i] == []
    ensures Total(b) == 0
  {
    if b != [] {
      EmptyBuckets(b[1..]);
    }
  }

  class LRUHandleTable {
    var list: array<seq<LRUHandle>>
    var length: nat
    var elems: nat
    ghost var contents: Contents

    /** The table is the finite map contents; its size is a power of two, at least
        16 and at least the number of entries. */
    ghost predicate Valid()
      reads this, list
    {
      && list.Length == length >= 16 && PowerOfTwo(length)
      && elems == |contents| == Total(list[..]) && elems <= length
      && Holds(list[..], contents)
    }

    constructor ()
      ensures Valid() && contents == map[] && fresh(list)
    {
      list := new seq<LRUHandle>[16](_ => []);
      length, elems := 16, 0;
      contents := map[];
      new;
      EmptyBuckets(list[..]);
    }

    method FindPointer(id: Ident) returns (b: nat, p: nat)
      requires Valid()
      ensures b == id.hash % length && p == Find(list[b], id)
    {
      b := id.hash % length;
      p := 0;
      while p < |list[b]| && list[b][p].Id() != id
        invariant p <= |list[b]|
        invariant forall j | 0 <= j < p :: list[b][j].Id() != id
      {
        p := p + 1;
      }
    }

    method Lookup(id: Ident) returns (h: LRUHandle?)
      requires Valid()
      ensures if id in contents then h == contents[id] else h == null
    {
      var b, p := FindPointer(id);
      assert list[..][b] == list[b];
      FindIsLookup(list[..], contents, id);
      h := if p < |list[b]| then list[b][p] else null;
    }

    method Insert(h: LRUHandle) returns (displaced: LRUHandle?)
      requires Valid() && h !in contents.Values
      modifies this`list, this`length, this`elems, this`contents, list
      ensures Valid() && contents == old(contents)[h.Id() := h]
      ensures displaced == if h.Id() in old(contents) then old(contents)[h.Id()] else null
      ensures list == old(list) || fresh(list)
    {
      hide Placed, NoRepeats, Complete, Total, Find, PowerOfTwo;
      var b, p := FindPointer(h.Id());
      ghost var was := list[..];
      assert was[b] == list[b];
      FindIsLookup(was, contents, h.Id());
      if p < |list[b]| {
        displaced := list[b][p];
        HoldsReplace(was, contents, h);
        TotalUpdate(was, b, was[b][p := h]);
        list[b] := list[b][p := h];
        assert list[..] == was[b := was[b][p := h]];
        contents := contents[h.Id() := h];
      } else {
        displaced := null;
        HoldsAppend(was, contents, h);
        TotalUpdate(was, b, was[b] + [h]);
        list[b] := list[b] + [h];
        assert list[..] == was[b := was[b] + [h]];
        contents := contents[h.Id() := h];
        elems := elems + 1;
        if elems > length {
          Resize();
        }
      }
    }

    method Remove(id: Ident) returns (h: LRUHandle?)
      requires Valid()
      modifies this`elems, this`contents, list
      ensures Valid() && contents == old(contents) - {id}
      ensures h == if id in old(contents) then old(contents)[id] else null
    {
      hide Placed, NoRepeats, Complete, Total, Find, PowerOfTwo;
      var b, p := FindPointer(id);
      ghost var was := list[..];
      assert was[b] == list[b];
      FindIsLookup(was, contents, id);
      if p < |list[b]| {
        h := list[b][p];
        HoldsRemove(was, contents, id);
        TotalUpdate(was, b, was[b][..p] + was[b][p + 1..]);
        list[b] := list[b][..p] + list[b][p + 1..];
        assert list[..] == was[b := was[b][..p] + was[b][p + 1..]];
        contents := contents - {id};
        elems := elems - 1;
      } else {
        h := null;
        assert contents - {id} == contents;
      }
    }

    /** The smallest power of two from 16 up that leaves a third of the table free. */
    static method NewLength(elems: nat) returns (n: nat)
      ensures PowerOfTwo(n) && n >= 16 && 2 * n >= 3 * elems
      ensures n > 16 ==> n < 3 * elems
    {
      n := 16;
      assert PowerOfTwo(8) by { assert PowerOfTwo(4) by { assert PowerOfTwo(2); } }
      while n as real < elems as real * 1.5
        invariant PowerOfTwo(n) && n >= 16 && (n > 16 ==> n < 3 * elems)
        decreases 3 * elems - 2 * n
      {
        n := n * 2;
      }
    }

    method Resize()
      requires list.Length == length >= 16 && elems == |contents| == Total(list[..])
      requires Holds(list[..], contents)
      modifies this`list, this`length
      ensures Valid() && contents == old(contents) && fresh(list)
    {
      hide Placed, NoRepeats, Complete, Total, PowerOfTwo, Rehashed;
      var newLength := NewLength(elems);
      var newList := new seq<LRUHandle>[newLength](_ => []);
      ghost var b := list[..];
      ghost var done: Contents := map[];
      var count := 0;
      EmptyBuckets(newList[..]);
      StartRehash(b, newList[..], contents);
      for i := 0 to length
        invariant Rehashed(b, i, 0, done, contents) && Holds(newList[..], done)
        invariant count == |done| == Total(newList[..])
        invariant fresh(newList) && newList.Length == newLength && b == list[..] && unchanged(this) && unchanged(list)
      {
        var chain := list[i];
        ghost var j := 0;
        while chain != []
          invariant j <= |b[i]| && chain == b[i][j..]
          invariant Rehashed(b, i, j, done, contents) && Holds(newList[..], done)
          invariant count == |done| == Total(newList[..])
          invariant fresh(newList) && newList.Length == newLength && b == list[..] && unchanged(this) && unchanged(list)
          decreases |chain|
        {
          var h := chain[0];
          var k := h.hash % newLength;
          ghost var was := newList[..];
          RehashOne(b, i, j, done, contents);
          HoldsPrepend(was, done, h);
          TotalUpdate(was, k, [h] + was[k]);
          newList[k] := [h] + newList[k];
          assert newList[..] == was[k := [h] + was[k]];
          done := done[h.Id() := h];
          count := count + 1;
          j := j + 1;
          chain := chain[1..];
        }
        RehashNextBucket(b, i, done, contents);
      }
      RehashedAll(b, done, contents);
      assert elems == count;
      list := newList;
      length := newLength;
    }
  }
}
