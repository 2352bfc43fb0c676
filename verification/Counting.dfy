/** Counting in finite sets, for the reference-count arguments. */
module Counting {
  function One(b: bool): nat {
    if b then 1 else 0
  }

  lemma RemoveCard<T>(a: set<T>, x: T)
    ensures |a| == |a - {x}| + One(x in a)
  {
    if x !in a {
      assert a - {x} == a;
    }
  }

  lemma PairCard<T>(a: set<T>, x: T, y: T)
    requires x != y && x in a && y in a
    ensures |a| >= 2
  {
    RemoveCard(a, x);
    RemoveCard(a - {x}, y);
  }

  /** Two sets that agree except perhaps on x. */
  lemma SameButOne<T>(a: set<T>, b: set<T>, x: T)
    requires a - {x} == b - {x}
    ensures |a| + One(x in b) == |b| + One(x in a)
  {
    RemoveCard(a, x);
    RemoveCard(b, x);
  }

  lemma SameButTwo<T>(a: set<T>, b: set<T>, x: T, y: T)
    requires x != y && a - {x} - {y} == b - {x} - {y}
    ensures |a| + One(x in b) + One(y in b) == |b| + One(x in a) + One(y in a)
  {
    SameButOne(a - {x}, b - {x}, y);
    RemoveCard(a, x);
    RemoveCard(b, x);
  }

  lemma SameButThree<T>(a: set<T>, b: set<T>, x: T, y: T, z: T)
    requires x != y && y != z && x != z && a - {x} - {y} - {z} == b - {x} - {y} - {z}
    ensures |a| + One(x in b) + One(y in b) + One(z in b) == |b| + One(x in a) + One(y in a) + One(z in a)
  {
    SameButTwo(a - {x}, b - {x}, y, z);
    RemoveCard(a, x);
    RemoveCard(b, x);
  }
}
