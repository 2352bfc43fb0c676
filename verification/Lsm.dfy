/** Internal keys, point reads and key histories: the vocabulary shared by the
    compaction modules. User keys are integers: a compaction touches finitely
    many user keys, and only their order matters. */
module Lsm {
  import opened Wrappers

  type UserKey = int
  type Value = string

  /** kMaxSequenceNumber; a read at the tip sees everything up to it. */
  const MAX_SEQUENCE: nat := 0xff_ffff_ffff_ffff

  datatype Kind = Put | Delete | SingleDelete

  datatype Entry = Entry(key: UserKey, sn: nat, kind: Kind, value: Value)

  /** Internal-key order: user key ascending, then sequence number descending. */
  predicate Before(a: Entry, b: Entry) {
    a.key < b.key || (a.key == b.key && a.sn > b.sn)
  }

  ghost predicate Sorted(es: seq<Entry>) {
    forall i, j | 0 <= i < j < |es| :: Before(es[i], es[j])
  }

  ghost predicate NoKey(es: seq<Entry>, k: UserKey) {
    forall i | 0 <= i < |es| :: es[i].key != k
  }

  /** The record a point lookup of k at snapshot s stops at: the first match in
      search order. */
  function Look(es: seq<Entry>, k: UserKey, s: nat): Option<Entry> {
    if es == [] then None
    else if es[0].key == k && es[0].sn <= s then Some(es[0])
    else Look(es[1..], k, s)
  }

  /** What the user sees for that record: tombstones read as absent. */
  function Answer(o: Option<Entry>): Option<Value> {
    match o
    case None => None
    case Some(e) => if e.kind.Put? then Some(e.value) else None
  }

  /** A read over newer data placed in front of older data. */
  function Read(newer: seq<Entry>, older: seq<Entry>, k: UserKey, s: nat): Option<Value> {
    var o := Look(newer, k, s);
    Answer(if o.Some? then o else Look(older, k, s))
  }

  /** All versions of k, newest first. */
  function History(es: seq<Entry>, k: UserKey): seq<Entry> {
    if es == [] then []
    else if es[0].key == k then [es[0]] + History(es[1..], k)
    else History(es[1..], k)
  }

  ghost predicate Descending(h: seq<Entry>) {
    forall i, j | 0 <= i < j < |h| :: h[i].sn > h[j].sn
  }

  predicate NoSingleDelete(h: seq<Entry>) {
    forall i | 0 <= i < |h| :: !h[i].kind.SingleDelete?
  }

  /** Puts and SingleDeletes take turns. */
  predicate Alternates(h: seq<Entry>) {
    && (forall i | 0 <= i < |h| :: !h[i].kind.Delete?)
    && (forall i | 0 < i < |h| :: h[i - 1].kind != h[i].kind)
  }

  lemma {:induction false} LookNoKey(es: seq<Entry>, k: UserKey, s: nat)
    requires NoKey(es, k)
    ensures Look(es, k, s) == None
  {
    if es != [] {
      assert NoKey(es[1..], k);
      LookNoKey(es[1..], k, s);
    }
  }

  /** Entries that a read at s cannot see may be dropped from the front. */
  lemma {:induction false} LookSkip(es: seq<Entry>, n: nat, k: UserKey, s: nat)
    requires n <= |es|
    requires forall i | 0 <= i < n :: es[i].key != k || es[i].sn > s
    ensures Look(es, k, s) == Look(es[n..], k, s)
  {
    if n > 0 {
      LookSkip(es[1..], n - 1, k, s);
      assert es[1..][n - 1..] == es[n..];
    } else {
      assert es[0..] == es;
    }
  }

  lemma {:induction false} HistoryNoKey(es: seq<Entry>, k: UserKey)
    ensures NoKey(es, k) <==> History(es, k) == []
  {
    if es != [] {
      HistoryNoKey(es[1..], k);
      assert NoKey(es, k) <==> es[0].key != k && NoKey(es[1..], k);
    }
  }

  lemma {:induction false} HistoryConcat(a: seq<Entry>, b: seq<Entry>, k: UserKey)
    ensures History(a + b, k) == History(a, k) + History(b, k)
  {
    if a == [] {
      assert a + b == b;
    } else {
      HistoryConcat(a[1..], b, k);
      assert (a + b)[1..] == a[1..] + b;
    }
  }

  lemma {:induction false} HistoryIn(es: seq<Entry>, k: UserKey, i: nat)
    requires i < |es| && es[i].key == k
    ensures es[i] in History(es, k)
  {
    if i > 0 {
      HistoryIn(es[1..], k, i - 1);
    }
  }

  /** A lookup only depends on the history of its key. */
  lemma {:induction false} LookHistory(es: seq<Entry>, k: UserKey, s: nat)
    ensures Look(es, k, s) == Look(History(es, k), k, s)
  {
    if es != [] {
      LookHistory(es[1..], k, s);
      if es[0].key == k {
        assert History(es, k)[1..] == History(es[1..], k);
      }
    }
  }

  lemma {:induction false} LookConcat(a: seq<Entry>, b: seq<Entry>, k: UserKey, s: nat)
    ensures Look(a + b, k, s) == if Look(a, k, s).Some? then Look(a, k, s) else Look(b, k, s)
  {
    if a == [] {
      assert a + b == b;
    } else {
      LookConcat(a[1..], b, k, s);
      assert (a + b)[1..] == a[1..] + b;
    }
  }
}
