/**
 * The JavaScript array built-ins the dashboard's components call: `map`, `filter`,
 * `slice(0, end)`, the stable `sort` with a descending numeric comparator
 * (`(a, b) => key(b) - key(a)`), and `reduce` for a sum.
 */
module JsArray {

  // ---------------------------------------------------------------------------
  // map, filter
  // ---------------------------------------------------------------------------

  /** `s.map(f)`. */
  function MapSeq<A, B>(s: seq<A>, f: A -> B): (r: seq<B>)
    ensures |r| == |s|
    ensures forall i :: 0 <= i < |s| ==> r[i] == f(s[i])
  {
    seq(|s|, i requires 0 <= i < |s| => f(s[i]))
  }

  /** `s.filter(p)`: the elements satisfying `p`, in their original order. */
  function Filter<T>(s: seq<T>, p: T -> bool): (r: seq<T>)
    ensures |r| <= |s|
    ensures forall i :: 0 <= i < |r| ==> p(r[i])
  {
    if s == [] then [] else (if p(s[0]) then [s[0]] else []) + Filter(s[1..], p)
  }

  /** `a` can be obtained from `b` by deleting elements, without reordering. */
  predicate IsSubsequence<T(==)>(a: seq<T>, b: seq<T>)
    decreases |b|
  {
    if a == [] then true
    else if b == [] then false
    else if a[0] == b[0] then IsSubsequence(a[1..], b[1..])
    else IsSubsequence(a, b[1..])
  }

  /** `filter` keeps exactly the elements that satisfy the predicate. */
  lemma {:induction false} FilterMembership<T>(s: seq<T>, p: T -> bool, x: T)
    ensures x in Filter(s, p) <==> x in s && p(x)
  {
    if s != [] {
      FilterMembership(s[1..], p, x);
      assert s == [s[0]] + s[1..];
    }
  }

  /** `filter` deletes elements and never reorders them. */
  lemma {:induction false} FilterIsSubsequence<T>(s: seq<T>, p: T -> bool)
    ensures IsSubsequence(Filter(s, p), s)
  {
    if s != [] {
      FilterIsSubsequence(s[1..], p);
      if p(s[0]) {
        assert Filter(s, p) == [s[0]] + Filter(s[1..], p);
      } else {
        assert Filter(s, p) == Filter(s[1..], p);
        SubsequenceOfTail(Filter(s[1..], p), s);
      }
    }
  }

  /** Every list is a subsequence of itself. */
  lemma {:induction false} SubsequenceReflexive<T>(s: seq<T>)
    ensures IsSubsequence(s, s)
  {
    if s != [] {
      SubsequenceReflexive(s[1..]);
    }
  }

  /** A subsequence of the tail is a subsequence of the whole. */
  lemma {:induction false} SubsequenceOfTail<T>(a: seq<T>, b: seq<T>)
    requires b != [] && IsSubsequence(a, b[1..])
    ensures IsSubsequence(a, b)
    decreases |b|, 0
  {
    if a != [] && a[0] == b[0] {
      // a[1..] is a subsequence of b[1..] because a is.
      SubsequenceDropHead(a, b[1..]);
    }
  }

  /** Dropping the head of a subsequence keeps it a subsequence. */
  lemma {:induction false} SubsequenceDropHead<T>(a: seq<T>, b: seq<T>)
    requires a != [] && IsSubsequence(a, b)
    ensures IsSubsequence(a[1..], b)
    decreases |b|, 1
  {
    assert b != [];
    if a[0] == b[0] {
      if a[1..] != [] {
        SubsequenceOfTail(a[1..], b);
      }
    } else {
      SubsequenceDropHead(a, b[1..]);
      if a[1..] != [] {
        SubsequenceOfTail(a[1..], b);
      }
    }
  }

  /** Filtering a list extended by one element extends the result by that element when it passes. */
  lemma {:induction false} FilterSnoc<T>(s: seq<T>, x: T, p: T -> bool)
    ensures Filter(s + [x], p) == Filter(s, p) + (if p(x) then [x] else [])
  {
    if s == [] {
      assert [] + [x] == [x];
    } else {
      FilterSnoc(s[1..], x, p);
      assert (s + [x])[1..] == s[1..] + [x];
    }
  }

  /** `map` distributes over concatenation. */
  lemma MapSeqAppend<A, B>(a: seq<A>, b: seq<A>, f: A -> B)
    ensures MapSeq(a + b, f) == MapSeq(a, f) + MapSeq(b, f)
  {
  }

  /** A filter that every element passes returns its input. */
  lemma {:induction false} FilterAll<T>(s: seq<T>, p: T -> bool)
    requires forall i :: 0 <= i < |s| ==> p(s[i])
    ensures Filter(s, p) == s
  {
    if s != [] {
      FilterAll(s[1..], p);
    }
  }

  // ---------------------------------------------------------------------------
  // slice(0, end)
  // ---------------------------------------------------------------------------

  /** Where `slice(0, end)` stops on an array of length `len`: a negative `end` counts from the back. */
  function SliceEnd(len: nat, end: int): (k: nat)
    ensures k <= len
    ensures 0 <= end ==> k == (if end < len then end else len)
    ensures end < 0 ==> k == (if len + end < 0 then 0 else len + end)
  {
    if end < 0 then (if len + end < 0 then 0 else len + end)
    else if end < len then end else len
  }

  /** `s.slice(0, end)`. */
  function Take<T>(s: seq<T>, end: int): (r: seq<T>)
    ensures r <= s
    ensures |r| == SliceEnd(|s|, end)
  {
    s[..SliceEnd(|s|, end)]
  }

  // ---------------------------------------------------------------------------
  // Stable descending sort
  // ---------------------------------------------------------------------------

  /** The keys never increase along `s`. */
  predicate SortedDesc<T>(s: seq<T>, key: T -> int) {
    forall i, j :: 0 <= i < j < |s| ==> key(s[i]) >= key(s[j])
  }

  /** The elements of `s` whose key is `v`, in order. */
  function WithKey<T>(s: seq<T>, key: T -> int, v: int): seq<T> {
    if s == [] then [] else (if key(s[0]) == v then [s[0]] else []) + WithKey(s[1..], key, v)
  }

  /** Puts `x` in front of the first element of `s` whose key is not larger than its own. */
  function InsertDesc<T>(x: T, s: seq<T>, key: T -> int): (r: seq<T>)
    ensures |r| == |s| + 1
  {
    if s == [] || key(x) >= key(s[0]) then [x] + s else [s[0]] + InsertDesc(x, s[1..], key)
  }

  /**
   * `s.sort((a, b) => key(b) - key(a))`: ECMAScript's sort is stable, so
   * elements with equal keys keep their relative order.
   */
  function SortDesc<T>(s: seq<T>, key: T -> int): (r: seq<T>)
    ensures |r| == |s|
  {
    if s == [] then [] else InsertDesc(s[0], SortDesc(s[1..], key), key)
  }

  lemma {:induction false} InsertDescPermutes<T>(x: T, s: seq<T>, key: T -> int)
    ensures multiset(InsertDesc(x, s, key)) == multiset(s) + multiset{x}
    ensures |InsertDesc(x, s, key)| == |s| + 1
  {
    if s != [] && key(x) < key(s[0]) {
      InsertDescPermutes(x, s[1..], key);
      assert s == [s[0]] + s[1..];
    }
  }

  /** Every key in `s` is at most `b`. */
  predicate KeysAtMost<T>(s: seq<T>, key: T -> int, b: int) {
    forall i :: 0 <= i < |s| ==> key(s[i]) <= b
  }

  lemma {:induction false} InsertDescKeysAtMost<T>(x: T, s: seq<T>, key: T -> int, b: int)
    requires KeysAtMost(s, key, b) && key(x) <= b
    ensures KeysAtMost(InsertDesc(x, s, key), key, b)
  {
    if s != [] && key(x) < key(s[0]) {
      InsertDescKeysAtMost(x, s[1..], key, b);
    }
  }

  lemma {:induction false} InsertDescSorted<T>(x: T, s: seq<T>, key: T -> int)
    requires SortedDesc(s, key)
    ensures SortedDesc(InsertDesc(x, s, key), key)
  {
    if s != [] && key(x) < key(s[0]) {
      InsertDescSorted(x, s[1..], key);
      InsertDescKeysAtMost(x, s[1..], key, key(s[0]));
    }
  }

  lemma WithKeyCons<T>(y: T, t: seq<T>, key: T -> int, v: int)
    ensures WithKey([y] + t, key, v) == (if key(y) == v then [y] else []) + WithKey(t, key, v)
  {
    assert ([y] + t)[1..] == t;
  }

  lemma {:induction false} InsertDescWithKey<T>(x: T, s: seq<T>, key: T -> int, v: int)
    ensures WithKey(InsertDesc(x, s, key), key, v) == (if key(x) == v then [x] else []) + WithKey(s, key, v)
  {
    if s != [] && key(x) < key(s[0]) {
      InsertDescWithKey(x, s[1..], key, v);
      WithKeyCons(s[0], InsertDesc(x, s[1..], key), key, v);
    } else {
      WithKeyCons(x, s, key, v);
    }
  }

  /** The sorted array is a permutation of the input, ordered by key, largest first. */
  lemma {:induction false} SortDescCorrect<T>(s: seq<T>, key: T -> int)
    ensures |SortDesc(s, key)| == |s|
    ensures multiset(SortDesc(s, key)) == multiset(s)
    ensures SortedDesc(SortDesc(s, key), key)
  {
    if s != [] {
      SortDescCorrect(s[1..], key);
      InsertDescPermutes(s[0], SortDesc(s[1..], key), key);
      InsertDescSorted(s[0], SortDesc(s[1..], key), key);
      assert s == [s[0]] + s[1..];
    }
  }

  /** Stability: for every key, the elements with that key appear in their input order. */
  lemma {:induction false} SortDescStable<T>(s: seq<T>, key: T -> int, v: int)
    ensures WithKey(SortDesc(s, key), key, v) == WithKey(s, key, v)
  {
    if s != [] {
      SortDescStable(s[1..], key, v);
      SortDescCorrect(s[1..], key);
      InsertDescWithKey(s[0], SortDesc(s[1..], key), key, v);
    }
  }

  /** No element occurs twice. */
  predicate Distinct<T(==)>(s: seq<T>) {
    forall i, j :: 0 <= i < j < |s| ==> s[i] != s[j]
  }

  lemma {:induction false} InsertDescDistinct<T>(x: T, s: seq<T>, key: T -> int)
    requires Distinct(s) && x !in s
    ensures Distinct(InsertDesc(x, s, key))
  {
    if s != [] && key(x) < key(s[0]) {
      InsertDescDistinct(x, s[1..], key);
      InsertDescPermutes(x, s[1..], key);
      var t := InsertDesc(x, s[1..], key);
      forall j | 0 <= j < |t| ensures t[j] != s[0] {
        assert t[j] in multiset(t);
        assert s[0] !in s[1..];
      }
    }
  }

  /** Sorting a list without repetitions produces none. */
  lemma {:induction false} SortDescDistinct<T>(s: seq<T>, key: T -> int)
    requires Distinct(s)
    ensures Distinct(SortDesc(s, key))
  {
    if s != [] {
      SortDescDistinct(s[1..], key);
      SortDescCorrect(s[1..], key);
      assert s[0] !in s[1..];
      assert s[0] !in multiset(SortDesc(s[1..], key));
      InsertDescDistinct(s[0], SortDesc(s[1..], key), key);
    }
  }

  // ---------------------------------------------------------------------------
  // reduce((acc, x) => acc + key(x), 0)
  // ---------------------------------------------------------------------------

  /**
   * `s.reduce((acc, x) => acc + key(x), 0)`. Integer addition is associative,
   * so summing from the front gives the same value as the left fold.
   */
  function SumBy<T>(s: seq<T>, key: T -> int): int {
    if s == [] then 0 else key(s[0]) + SumBy(s[1..], key)
  }

  lemma {:induction false} InsertDescSum<T>(x: T, s: seq<T>, key: T -> int)
    ensures SumBy(InsertDesc(x, s, key), key) == key(x) + SumBy(s, key)
  {
    if s != [] && key(x) < key(s[0]) {
      InsertDescSum(x, s[1..], key);
    }
  }

  /** Sorting does not change the total. */
  lemma {:induction false} SortDescSum<T>(s: seq<T>, key: T -> int)
    ensures SumBy(SortDesc(s, key), key) == SumBy(s, key)
  {
    if s != [] {
      SortDescSum(s[1..], key);
      InsertDescSum(s[0], SortDesc(s[1..], key), key);
    }
  }
}
