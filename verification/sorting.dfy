/**
  The orderings the serialiser sorts by (unsigned property numbers, rank codes, and
  byte-wise ordered strings) and a sort that stands for Go's sort.Slice and
  sort.Strings. Go's sort is not stable, so nothing here promises an order among
  elements with equal keys; the contract is "sorted, and a permutation".
 */
module Sorting {
  import opened Text

  /** A sort key: a number (property number or rank code) or a string. */
  datatype Key = Number(n: int) | Word(w: string)

  predicate KeyLeq(a: Key, b: Key) {
    match (a, b)
    case (Number(x), Number(y)) => x <= y
    case (Word(x), Word(y)) => TextLeq(x, y)
    case (Number(_), Word(_)) => true
    case (Word(_), Number(_)) => false
  }

  lemma KeyLeqTotal(a: Key, b: Key)
    ensures KeyLeq(a, b) || KeyLeq(b, a)
  {
    if a.Word? && b.Word? {
      TextLessTotal(a.w, b.w);
    }
  }

  lemma KeyLeqTransitive(a: Key, b: Key, c: Key)
    requires KeyLeq(a, b) && KeyLeq(b, c)
    ensures KeyLeq(a, c)
  {
    if a.Word? && b.Word? && c.Word? && a.w != b.w && b.w != c.w {
      TextLessTransitive(a.w, b.w, c.w);
    }
  }

  lemma KeyLeqAntisymmetric(a: Key, b: Key)
    requires KeyLeq(a, b) && KeyLeq(b, a)
    ensures a == b
  {
    if a.Word? && b.Word? && a.w != b.w {
      TextLessAsymmetric(a.w, b.w);
    }
  }

  predicate SortedBy<T>(xs: seq<T>, key: T -> Key) {
    forall i, j :: 0 <= i < j < |xs| ==> KeyLeq(key(xs[i]), key(xs[j]))
  }

  lemma SortedConcat<T>(a: seq<T>, b: seq<T>, key: T -> Key)
    requires SortedBy(a, key) && SortedBy(b, key)
    requires forall i, j :: 0 <= i < |a| && 0 <= j < |b| ==> KeyLeq(key(a[i]), key(b[j]))
    ensures SortedBy(a + b, key)
  {
    assert forall i :: |a| <= i < |a + b| ==> (a + b)[i] == b[i - |a|];
  }

  /** Inserts x before the first element whose key is not below it. */
  function Insert<T>(x: T, xs: seq<T>, key: T -> Key): (r: seq<T>)
    requires SortedBy(xs, key)
    ensures SortedBy(r, key)
    ensures multiset(r) == multiset(xs) + multiset{x}
  {
    if |xs| == 0 then [x]
    else if KeyLeq(key(x), key(xs[0])) then
      assert forall j :: 0 < j < |xs| ==> KeyLeq(key(xs[0]), key(xs[j]));
      forall j | 0 < j < |xs|
        ensures KeyLeq(key(x), key(xs[j]))
      {
        KeyLeqTransitive(key(x), key(xs[0]), key(xs[j]));
      }
      assert xs == [xs[0]] + xs[1..];
      [x] + xs
    else
      var tail := Insert(x, xs[1..], key);
      KeyLeqTotal(key(x), key(xs[0]));
      forall j | 0 <= j < |tail|
        ensures KeyLeq(key(xs[0]), key(tail[j]))
      {
        assert tail[j] in multiset(xs[1..]) + multiset{x};
        if tail[j] != x {
          assert tail[j] in xs[1..];
          var m :| 0 <= m < |xs[1..]| && xs[1..][m] == tail[j];
          assert xs[m + 1] == tail[j];
        }
      }
      assert xs == [xs[0]] + xs[1..];
      [xs[0]] + tail
  }

  /** An insertion sort: one of the orders Go's sort may produce. */
  function SortBy<T>(xs: seq<T>, key: T -> Key): (r: seq<T>)
    ensures SortedBy(r, key)
    ensures multiset(r) == multiset(xs)
  {
    if |xs| == 0 then []
    else
      assert xs == [xs[0]] + xs[1..];
      Insert(xs[0], SortBy(xs[1..], key), key)
  }

  /** Elements with equal keys are equal: the keys of a Go map identify its entries. */
  ghost predicate KeysIdentify<T>(xs: seq<T>, key: T -> Key) {
    forall x, y :: x in xs && y in xs && key(x) == key(y) ==> x == y
  }

  /**
    Two sorted permutations of a sequence whose keys identify its elements are equal:
    with distinct keys the order is fully determined.
   */
  lemma {:induction false} SortedUnique<T>(a: seq<T>, b: seq<T>, key: T -> Key)
    requires SortedBy(a, key) && SortedBy(b, key)
    requires multiset(a) == multiset(b)
    requires KeysIdentify(a, key)
    ensures a == b
    decreases |a|
  {
    assert |b| == |multiset(b)| == |multiset(a)| == |a|;
    if |a| > 0 {
      SameHead(a, b, key);
      TailMultiset(a, b);
      SortedTail(a, key);
      SortedTail(b, key);
      KeysIdentifyTail(a, key);
      SortedUnique(a[1..], b[1..], key);
      assert a == [a[0]] + a[1..];
      assert b == [b[0]] + b[1..];
    }
  }

  lemma TailMultiset<T>(a: seq<T>, b: seq<T>)
    requires |a| > 0 && |b| > 0 && a[0] == b[0] && multiset(a) == multiset(b)
    ensures multiset(a[1..]) == multiset(b[1..])
  {
    assert a == [a[0]] + a[1..];
    assert b == [b[0]] + b[1..];
    assert multiset(a[1..]) == multiset(a) - multiset{a[0]};
    assert multiset(b[1..]) == multiset(b) - multiset{b[0]};
  }

  lemma SortedTail<T>(a: seq<T>, key: T -> Key)
    requires |a| > 0 && SortedBy(a, key)
    ensures SortedBy(a[1..], key)
  {
    assert forall i :: 0 <= i < |a| - 1 ==> a[1..][i] == a[i + 1];
  }

  lemma KeysIdentifyTail<T>(a: seq<T>, key: T -> Key)
    requires |a| > 0 && KeysIdentify(a, key)
    ensures KeysIdentify(a[1..], key)
  {
    forall x, y | x in a[1..] && y in a[1..] && key(x) == key(y)
      ensures x == y
    {
      assert x in a && y in a;
    }
  }

  lemma SameHead<T>(a: seq<T>, b: seq<T>, key: T -> Key)
    requires |a| > 0 && |b| > 0
    requires SortedBy(a, key) && SortedBy(b, key)
    requires multiset(a) == multiset(b)
    requires KeysIdentify(a, key)
    ensures a[0] == b[0]
  {
    assert a[0] in multiset(b);
    var k :| 0 <= k < |b| && b[k] == a[0];
    assert b[0] in multiset(a);
    var m :| 0 <= m < |a| && a[m] == b[0];
    assert KeyLeq(key(b[0]), key(a[0])) by {
      if k > 0 {
        assert KeyLeq(key(b[0]), key(b[k]));
      }
    }
    assert KeyLeq(key(a[0]), key(b[0])) by {
      if m > 0 {
        assert KeyLeq(key(a[0]), key(a[m]));
      }
    }
    KeyLeqAntisymmetric(key(a[0]), key(b[0]));
    assert b[0] in a;
  }

  /** The sort's result depends only on the multiset it is given, when keys identify elements. */
  lemma SortIndependentOfOrder<T>(xs: seq<T>, ys: seq<T>, key: T -> Key)
    requires multiset(xs) == multiset(ys)
    requires KeysIdentify(xs, key)
    ensures SortBy(xs, key) == SortBy(ys, key)
  {
    var a, b := SortBy(xs, key), SortBy(ys, key);
    forall x, y | x in a && y in a && key(x) == key(y)
      ensures x == y
    {
      assert x in multiset(xs) && y in multiset(xs);
    }
    SortedUnique(a, b, key);
  }
}
