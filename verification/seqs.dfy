/** Generic sequence combinators and the facts about them the serialiser proofs rely on. */
module Seqs {

  function Map<A, B>(f: A -> B, xs: seq<A>): (r: seq<B>)
    ensures |r| == |xs|
  {
    if |xs| == 0 then [] else [f(xs[0])] + Map(f, xs[1..])
  }

  function Filter<A>(p: A -> bool, xs: seq<A>): (r: seq<A>)
    ensures |r| <= |xs|
    ensures forall i :: 0 <= i < |r| ==> p(r[i])
  {
    if |xs| == 0 then []
    else if p(xs[0]) then [xs[0]] + Filter(p, xs[1..])
    else Filter(p, xs[1..])
  }

  /** Filter keeps elements of its input only. */
  lemma {:induction false} FilterMember<A>(p: A -> bool, xs: seq<A>, x: A)
    requires x in Filter(p, xs)
    ensures x in xs && p(x)
  {
    if x != xs[0] {
      FilterMember(p, xs[1..], x);
    }
  }

  lemma ConcatAssociative<A>(a: seq<A>, b: seq<A>, c: seq<A>)
    ensures a + (b + c) == (a + b) + c
  {
  }

  lemma ConcatEmpty<A>(a: seq<A>)
    ensures a + [] == a && [] + a == a
  {
  }

  /** Two sequences completed to the same whole by empty prefixes are equal. */
  lemma ConcatEmptyPrefixes<A>(a: seq<A>, x: seq<A>, b: seq<A>, y: seq<A>, c: seq<A>)
    requires |a| == 0 && |b| == 0 && a + x == c && b + y == c
    ensures x == y
  {
    assert a + x == x && b + y == y;
  }

  lemma TailOfConcat<A>(a: seq<A>, b: seq<A>)
    requires |a| > 0
    ensures (a + b)[0] == a[0] && (a + b)[1..] == a[1..] + b
  {
  }

  lemma SliceOfConcat<A>(a: seq<A>, b: seq<A>, i: nat, j: nat, lo: nat, hi: nat)
    requires i <= j <= |b| && lo == |a| + i && hi == |a| + j
    ensures (a + b)[..|a|] == a
    ensures (a + b)[lo..hi] == b[i..j]
  {
    assert forall t :: 0 <= t < j - i ==> (a + b)[lo..hi][t] == b[i..j][t];
  }

  lemma SplitAt<A>(ys: seq<A>, k: nat)
    requires k < |ys|
    ensures ys == ys[..k] + [ys[k]] + ys[k + 1..]
  {
  }

  lemma MapConcat<A, B>(f: A -> B, xs: seq<A>, ys: seq<A>)
    ensures Map(f, xs + ys) == Map(f, xs) + Map(f, ys)
  {
    if |xs| > 0 {
      assert (xs + ys)[1..] == xs[1..] + ys;
      MapConcat(f, xs[1..], ys);
    } else {
      assert xs + ys == ys;
    }
  }

  lemma MapIndex<A, B>(f: A -> B, xs: seq<A>, i: nat)
    requires i < |xs|
    ensures Map(f, xs)[i] == f(xs[i])
  {
    if i > 0 {
      MapIndex(f, xs[1..], i - 1);
    }
  }

  lemma FilterConcat<A>(p: A -> bool, xs: seq<A>, ys: seq<A>)
    ensures Filter(p, xs + ys) == Filter(p, xs) + Filter(p, ys)
  {
    if |xs| > 0 {
      assert (xs + ys)[1..] == xs[1..] + ys;
      FilterConcat(p, xs[1..], ys);
    } else {
      assert xs + ys == ys;
    }
  }

  /** Applying a function to two permutations of each other gives permutations of each other. */
  lemma {:induction false} MapPermutation<A, B>(f: A -> B, xs: seq<A>, ys: seq<A>)
    requires multiset(xs) == multiset(ys)
    ensures multiset(Map(f, xs)) == multiset(Map(f, ys))
    decreases |xs|
  {
    if |xs| == 0 {
      assert |ys| == |multiset(ys)| == 0;
    } else {
      var x := xs[0];
      assert x in multiset(ys) by {
        assert x in multiset(xs);
      }
      var k :| 0 <= k < |ys| && ys[k] == x;
      var ys1, ys2 := ys[..k], ys[k + 1..];
      RemoveOne(xs, ys, k);
      MapPermutation(f, xs[1..], ys1 + ys2);
      MapSplit(f, ys1, x, ys2);
      assert ys == ys1 + [x] + ys2;
      MapHead(f, xs);
    }
  }

  lemma MapHead<A, B>(f: A -> B, xs: seq<A>)
    requires |xs| > 0
    ensures multiset(Map(f, xs)) == multiset(Map(f, xs[1..])) + multiset{f(xs[0])}
  {
    assert Map(f, xs) == [f(xs[0])] + Map(f, xs[1..]);
  }

  lemma RemoveOne<A>(xs: seq<A>, ys: seq<A>, k: nat)
    requires |xs| > 0 && k < |ys| && ys[k] == xs[0]
    requires multiset(xs) == multiset(ys)
    ensures multiset(xs[1..]) == multiset(ys[..k] + ys[k + 1..])
  {
    assert xs == [xs[0]] + xs[1..];
    assert multiset(xs) == multiset{xs[0]} + multiset(xs[1..]);
    assert ys == ys[..k] + [ys[k]] + ys[k + 1..];
    assert multiset(ys) == multiset(ys[..k]) + multiset{ys[k]} + multiset(ys[k + 1..]);
    assert multiset(ys[..k] + ys[k + 1..]) == multiset(ys[..k]) + multiset(ys[k + 1..]);
    assert multiset(xs[1..]) == multiset(xs) - multiset{xs[0]};
    assert multiset(ys) - multiset{ys[k]} == multiset(ys[..k]) + multiset(ys[k + 1..]);
  }

  lemma MapSplit<A, B>(f: A -> B, ys1: seq<A>, x: A, ys2: seq<A>)
    ensures multiset(Map(f, ys1 + [x] + ys2)) == multiset(Map(f, ys1 + ys2)) + multiset{f(x)}
  {
    MapConcat(f, ys1 + [x], ys2);
    MapConcat(f, ys1, [x]);
    MapConcat(f, ys1, ys2);
  }
}
