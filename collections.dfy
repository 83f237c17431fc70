/** Sequence and map building blocks shared by the board: an order-preserving
    filter (JavaScript's `Array.prototype.filter`) and the map that a loop of
    `obj[key(x)] = val(x)` assignments leaves behind (last write wins). */
module Collections {

  /** The elements of `s` that satisfy `p`, in their original order. */
  function Filter<T>(s: seq<T>, p: T -> bool): (r: seq<T>)
    ensures |r| <= |s|
  {
    if s == [] then [] else (if p(s[0]) then [s[0]] else []) + Filter(s[1..], p)
  }

  /** The filter keeps exactly the elements that satisfy `p`: everything it
      returns is an element of `s` satisfying `p`, and every such element is
      returned. */
  lemma {:induction false} FilterMembers<T>(s: seq<T>, p: T -> bool)
    ensures forall x :: x in Filter(s, p) ==> x in s && p(x)
    ensures forall i :: 0 <= i < |s| && p(s[i]) ==> s[i] in Filter(s, p)
  {
    if s != [] {
      FilterMembers(s[1..], p);
      assert Filter(s, p) == (if p(s[0]) then [s[0]] else []) + Filter(s[1..], p);
      forall i | 1 <= i < |s| ensures s[i] == s[1..][i - 1] { }
    }
  }

  /** Filtering distributes over concatenation: the kept elements of `a` come
      first, in order, followed by the kept elements of `b`. Together with the
      one-element case this pins down that the order of the input is kept. */
  lemma {:induction false} FilterConcat<T>(a: seq<T>, b: seq<T>, p: T -> bool)
    ensures Filter(a + b, p) == Filter(a, p) + Filter(b, p)
  {
    if a == [] {
      assert a + b == b;
    } else {
      var c := a + b;
      assert c[0] == a[0];
      assert c[1..] == a[1..] + b;
      FilterConcat(a[1..], b, p);
      var head := if p(a[0]) then [a[0]] else [];
      assert Filter(c, p) == head + Filter(a[1..] + b, p);
      assert Filter(a, p) == head + Filter(a[1..], p);
    }
  }

  lemma FilterSingleton<T>(x: T, p: T -> bool)
    ensures Filter([x], p) == if p(x) then [x] else []
  {
    assert [x][1..] == [];
  }

  /** Filtering keeps every occurrence of a kept element and none of the others. */
  lemma {:induction false} FilterMultiset<T>(s: seq<T>, p: T -> bool)
    ensures forall x :: multiset(Filter(s, p))[x] == if p(x) then multiset(s)[x] else 0
  {
    if s != [] {
      FilterMultiset(s[1..], p);
      assert s == [s[0]] + s[1..];
    }
  }

  /** The filtered result depends only on the multiset of the input, not on
      its order: each step takes the first element of `a` out of `b`. */
  lemma {:induction false} FilterPermutation<T>(a: seq<T>, b: seq<T>, p: T -> bool)
    requires multiset(a) == multiset(b)
    ensures multiset(Filter(a, p)) == multiset(Filter(b, p))
    ensures |Filter(a, p)| == |Filter(b, p)|
    decreases |a|
  {
    if a == [] {
      assert |b| == |multiset(b)| == 0;
    } else {
      var x := a[0];
      assert x in multiset(b);
      var k :| 0 <= k < |b| && b[k] == x;
      var before, after := b[..k], b[k + 1..];
      assert b == before + [x] + after;
      RemoveFirst(a, before, after);
      FilterPermutation(a[1..], before + after, p);
      FilterRemoveOne(before, x, after, p);
      FilterRemoveOne([], x, a[1..], p);
      assert [] + [x] + a[1..] == a;
      assert [] + a[1..] == a[1..];
    }
  }

  /** Removing the first element of `a` and one equal element of a permutation
      of `a` leaves two permutations of each other. */
  lemma RemoveFirst<T>(a: seq<T>, before: seq<T>, after: seq<T>)
    requires a != []
    requires multiset(a) == multiset(before + [a[0]] + after)
    ensures multiset(a[1..]) == multiset(before + after)
  {
    var x, tail, rest := a[0], a[1..], before + after;
    assert a == [x] + tail;
    assert multiset(before + [x] + after) == multiset(before) + multiset{x} + multiset(after);
    assert multiset(rest) == multiset(before) + multiset(after);
    forall y ensures multiset(tail)[y] == multiset(rest)[y] {
      assert multiset(a)[y] == multiset{x}[y] + multiset(tail)[y];
    }
  }

  /** Taking `x` out of the middle of a sequence takes its filtered part out
      of the filtered result. */
  lemma FilterRemoveOne<T>(before: seq<T>, x: T, after: seq<T>, p: T -> bool)
    ensures multiset(Filter(before + [x] + after, p))
         == multiset(Filter([x], p)) + multiset(Filter(before + after, p))
    ensures |Filter(before + [x] + after, p)| == |Filter([x], p)| + |Filter(before + after, p)|
  {
    FilterConcat(before, [x], p);
    FilterConcat(before + [x], after, p);
    FilterConcat(before, after, p);
    var fb, fx, fa := Filter(before, p), Filter([x], p), Filter(after, p);
    assert multiset(fb + fx + fa) == multiset(fb) + multiset(fx) + multiset(fa);
    assert multiset(fb + fa) == multiset(fb) + multiset(fa);
  }

  /** The positions of `s` whose element satisfies `p`. */
  function IndicesWhere<T>(s: seq<T>, p: T -> bool): set<int>
  {
    set i | 0 <= i < |s| && p(s[i])
  }

  /** The filter keeps exactly one element per matching position. */
  lemma {:induction false} FilterLengthIsMatchCount<T>(s: seq<T>, p: T -> bool)
    ensures |Filter(s, p)| == |IndicesWhere(s, p)|
  {
    if s != [] {
      var n := |s| - 1;
      var front := s[..n];
      assert s == front + [s[n]];
      FilterConcat(front, [s[n]], p);
      FilterLengthIsMatchCount(front, p);
      assert Filter([s[n]], p) == (if p(s[n]) then [s[n]] else []) + Filter([], p);
      var before := IndicesWhere(front, p);
      assert n !in before;
      if p(s[n]) {
        assert IndicesWhere(s, p) == before + {n};
      } else {
        assert IndicesWhere(s, p) == before;
      }
    }
  }

  /** The map left by assigning `m[key(x)] := val(x)` for every `x` of `s`,
      from first to last. */
  function LastWins<T, K, V>(s: seq<T>, key: T -> K, val: T -> V): (m: map<K, V>)
    ensures forall i :: 0 <= i < |s| ==> key(s[i]) in m
    ensures forall k :: k in m ==> exists i :: 0 <= i < |s| && key(s[i]) == k
  {
    if s == [] then map[]
    else
      var n := |s| - 1;
      var m0 := LastWins(s[..n], key, val);
      assert forall i :: 0 <= i < n ==> s[..n][i] == s[i];
      m0[key(s[n]) := val(s[n])]
  }

  /** An element that no later element shadows decides the value of its key. */
  lemma {:induction false} LastWinsLast<T, K, V>(s: seq<T>, key: T -> K, val: T -> V, i: int)
    requires 0 <= i < |s|
    requires forall j :: i < j < |s| ==> key(s[j]) != key(s[i])
    ensures LastWins(s, key, val)[key(s[i])] == val(s[i])
  {
    var n := |s| - 1;
    var m0 := LastWins(s[..n], key, val);
    assert LastWins(s, key, val) == m0[key(s[n]) := val(s[n])];
    if i < n {
      var front := s[..n];
      assert front[i] == s[i];
      assert key(s[n]) != key(s[i]);
      forall j | i < j < |front| ensures key(front[j]) != key(front[i]) {
        assert front[j] == s[j];
      }
      LastWinsLast(front, key, val, i);
    }
  }

  /** The position of the last element of `s` whose key is `k`, or -1. */
  function LastIndexOf<T, K(==)>(s: seq<T>, key: T -> K, k: K): (r: int)
    ensures -1 <= r < |s|
    ensures r >= 0 ==> key(s[r]) == k
    ensures forall j :: 0 <= j < |s| && key(s[j]) == k ==> j <= r
  {
    if s == [] then -1
    else if key(s[|s| - 1]) == k then |s| - 1
    else
      var n := |s| - 1;
      assert forall j :: 0 <= j < n ==> s[..n][j] == s[j];
      LastIndexOf(s[..n], key, k)
  }

  /** Every value in the map comes from the last element carrying its key. */
  lemma LastWinsSource<T, K, V>(s: seq<T>, key: T -> K, val: T -> V, k: K)
    requires k in LastWins(s, key, val)
    ensures exists i :: 0 <= i < |s| && key(s[i]) == k && LastWins(s, key, val)[k] == val(s[i])
                        && forall j :: i < j < |s| ==> key(s[j]) != k
  {
    var i := LastIndexOf(s, key, k);
    LastWinsLast(s, key, val, i);
  }

  /** `LastWinsSource` for every key of the map at once. */
  lemma LastWinsSources<T, K, V>(s: seq<T>, key: T -> K, val: T -> V)
    ensures forall k :: k in LastWins(s, key, val) ==>
              exists i :: 0 <= i < |s| && key(s[i]) == k && LastWins(s, key, val)[k] == val(s[i])
                          && forall j :: i < j < |s| ==> key(s[j]) != k
  {
    forall k | k in LastWins(s, key, val)
      ensures exists i :: 0 <= i < |s| && key(s[i]) == k && LastWins(s, key, val)[k] == val(s[i])
                          && forall j :: i < j < |s| ==> key(s[j]) != k
    {
      LastWinsSource(s, key, val, k);
    }
  }
}
