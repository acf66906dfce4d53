/**
 * The two collection operations every query and list of the application is made of:
 * filtering (SQL `WHERE`, LINQ `Where`) and stable sorting by a key (SQL `ORDER BY`,
 * LINQ `OrderBy`/`ThenBy`). Keys are sequences of integers compared lexicographically,
 * so a composite `ORDER BY a, b` and a string compared by code points are both keys.
 */
module Seqs {

  /** The elements of `s` satisfying `p`, in the order of `s`. */
  function Filter<T(!new)>(s: seq<T>, p: T -> bool): (r: seq<T>)
    ensures |r| <= |s|
    ensures forall x :: x in r <==> x in s && p(x)
  {
    if s == [] then [] else (if p(s[0]) then [s[0]] else []) + Filter(s[1..], p)
  }

  /** `a` is `b` with some elements removed and the rest left in order. */
  predicate IsSubsequence<T(==)>(a: seq<T>, b: seq<T>)
    decreases |b|
  {
    a == [] || (b != [] && if a[0] == b[0] then IsSubsequence(a[1..], b[1..]) else IsSubsequence(a, b[1..]))
  }

  /** Filtering a sequence extended by one element: the loop step of a filtering `foreach`. */
  lemma {:induction false} FilterAppend<T(!new)>(s: seq<T>, x: T, p: T -> bool)
    ensures Filter(s + [x], p) == Filter(s, p) + (if p(x) then [x] else [])
  {
    if s == [] {
      assert [x][1..] == [];
    } else {
      var t := s + [x];
      var h := if p(s[0]) then [s[0]] else [];
      assert t[0] == s[0] && t[1..] == s[1..] + [x];
      FilterAppend(s[1..], x, p);
      assert Filter(t, p) == h + (Filter(s[1..], p) + (if p(x) then [x] else []));
      assert Filter(s, p) == h + Filter(s[1..], p);
    }
  }

  /** The elements satisfying `p`, counted from the end. */
  function CountBack<T>(s: seq<T>, p: T -> bool): nat
  {
    if s == [] then 0 else CountBack(s[..|s| - 1], p) + (if p(s[|s| - 1]) then 1 else 0)
  }

  /** Counting from the end gives the same number as counting from the front. */
  lemma {:induction false} CountBackIsCount<T(!new)>(s: seq<T>, p: T -> bool)
    ensures CountBack(s, p) == Count(s, p)
  {
    if s != [] {
      var init, x := s[..|s| - 1], s[|s| - 1];
      CountBackIsCount(init, p);
      assert s == init + [x];
      CountAppend(init, x, p);
    }
  }

  /** Counting one more element adds one exactly when it satisfies `p`. */
  lemma CountAppend<T(!new)>(s: seq<T>, x: T, p: T -> bool)
    ensures Count(s + [x], p) == Count(s, p) + if p(x) then 1 else 0
  {
    FilterAppend(s, x, p);
  }

  /** A filter keeps the order of what it keeps. */
  lemma {:induction false} FilterIsSubsequence<T(!new)>(s: seq<T>, p: T -> bool)
    ensures IsSubsequence(Filter(s, p), s)
  {
    if s != [] {
      FilterIsSubsequence(s[1..], p);
      if p(s[0]) {
        assert Filter(s, p) == [s[0]] + Filter(s[1..], p);
        assert Filter(s, p)[1..] == Filter(s[1..], p);
      } else {
        assert Filter(s, p) == Filter(s[1..], p);
      }
    }
  }

  /** A filter that every element passes keeps the whole sequence. */
  lemma {:induction false} FilterAll<T(!new)>(s: seq<T>, p: T -> bool)
    requires forall i :: 0 <= i < |s| ==> p(s[i])
    ensures Filter(s, p) == s
  {
    if s != [] {
      FilterAll(s[1..], p);
    }
  }

  /** Two successive filters are one filter by the conjunction. */
  lemma {:induction false} FilterFilter<T(!new)>(s: seq<T>, p: T -> bool, q: T -> bool, pq: T -> bool)
    requires forall x :: pq(x) == (p(x) && q(x))
    ensures Filter(Filter(s, p), q) == Filter(s, pq)
  {
    if s != [] {
      FilterFilter(s[1..], p, q, pq);
      assert Filter(s, pq) == (if pq(s[0]) then [s[0]] else []) + Filter(s[1..], pq);
      if p(s[0]) {
        assert Filter(s, p) == [s[0]] + Filter(s[1..], p);
        assert Filter(s, p)[1..] == Filter(s[1..], p);
      } else {
        assert Filter(s, p) == Filter(s[1..], p);
      }
    }
  }

  /** Filtering by two predicates that agree everywhere gives the same sequence. */
  lemma {:induction false} FilterExt<T(!new)>(s: seq<T>, p: T -> bool, q: T -> bool)
    requires forall x :: p(x) == q(x)
    ensures Filter(s, p) == Filter(s, q)
  {
    if s != [] {
      FilterExt(s[1..], p, q);
    }
  }

  /** The number of elements of `s` satisfying `p`: SQL `COUNT(*)`. */
  function Count<T(!new)>(s: seq<T>, p: T -> bool): (n: nat)
    ensures n <= |s|
    ensures n > 0 <==> exists i :: 0 <= i < |s| && p(s[i])
    ensures n == |Filter(s, p)|
  {
    if s == [] then 0
    else
      assert forall i :: 0 < i < |s| ==> s[i] == s[1..][i - 1];
      assert forall i :: 0 <= i < |s| - 1 ==> s[1..][i] == s[i + 1];
      (if p(s[0]) then 1 else 0) + Count(s[1..], p)
  }

  /** A relation holding between every ordered pair of `s` holds between every ordered
      pair of a filter of `s`. */
  lemma {:induction false} FilterPairwise<T(!new)>(s: seq<T>, p: T -> bool, rel: (T, T) -> bool)
    requires forall i, j :: 0 <= i < j < |s| ==> rel(s[i], s[j])
    ensures var r := Filter(s, p); forall i, j :: 0 <= i < j < |r| ==> rel(r[i], r[j])
  {
    if s != [] {
      var t := s[1..];
      forall i, j | 0 <= i < j < |t| ensures rel(t[i], t[j]) {
        assert t[i] == s[i + 1] && t[j] == s[j + 1];
      }
      FilterPairwise(t, p, rel);
      var r := Filter(s, p);
      if !p(s[0]) {
        assert r == Filter(t, p);
      } else {
        assert r == [s[0]] + Filter(t, p);
        forall i, j | 0 <= i < j < |r| ensures rel(r[i], r[j]) {
          if i == 0 {
            assert r[j] in Filter(t, p);
            var k :| 0 <= k < |t| && t[k] == r[j];
            assert rel(s[0], s[k + 1]);
          } else {
            assert r[i] == Filter(t, p)[i - 1] && r[j] == Filter(t, p)[j - 1];
          }
        }
      }
    }
  }

  /** Lexicographic order on keys; a proper prefix comes first. */
  predicate LexLe(a: seq<int>, b: seq<int>)
    decreases |a|
  {
    a == [] || (b != [] && (a[0] < b[0] || (a[0] == b[0] && LexLe(a[1..], b[1..]))))
  }

  lemma {:induction false} LexLeTotal(a: seq<int>, b: seq<int>)
    ensures LexLe(a, b) || LexLe(b, a)
    decreases |a|
  {
    if a != [] && b != [] && a[0] == b[0] {
      LexLeTotal(a[1..], b[1..]);
    }
  }

  lemma {:induction false} LexLeTrans(a: seq<int>, b: seq<int>, c: seq<int>)
    requires LexLe(a, b) && LexLe(b, c)
    ensures LexLe(a, c)
    decreases |a|
  {
    if a != [] && a[0] == b[0] && b[0] == c[0] {
      LexLeTrans(a[1..], b[1..], c[1..]);
    }
  }

  /** On one-element keys the order is the order of integers. */
  lemma LexLeSingle(x: int, y: int)
    ensures LexLe([x], [y]) <==> x <= y
  {
    assert [x][1..] == [];
  }

  /** On two-element keys the order is `ORDER BY first, second`. */
  lemma LexLePair(x1: int, x2: int, y1: int, y2: int)
    ensures LexLe([x1, x2], [y1, y2]) <==> x1 < y1 || (x1 == y1 && x2 <= y2)
  {
    assert [x1, x2][1..] == [x2];
    assert [y1, y2][1..] == [y2];
    LexLeSingle(x2, y2);
  }

  predicate SortedByKey<T>(s: seq<T>, key: T -> seq<int>)
  {
    forall i, j :: 0 <= i < j < |s| ==> LexLe(key(s[i]), key(s[j]))
  }

  /** Inserts `x` after every leading element whose key is at most `x`'s. */
  function InsertByKey<T>(x: T, s: seq<T>, key: T -> seq<int>): (r: seq<T>)
    ensures multiset(r) == multiset(s) + multiset{x}
    ensures |r| == |s| + 1
  {
    if s == [] then [x]
    else if LexLe(key(s[0]), key(x)) then
      assert s == [s[0]] + s[1..];
      [s[0]] + InsertByKey(x, s[1..], key)
    else [x] + s
  }

  lemma {:induction false} InsertSorted<T>(x: T, s: seq<T>, key: T -> seq<int>)
    requires SortedByKey(s, key)
    ensures SortedByKey(InsertByKey(x, s, key), key)
  {
    if s == [] {
    } else if LexLe(key(s[0]), key(x)) {
      var t := s[1..];
      assert SortedByKey(t, key) by {
        assert forall i :: 0 <= i < |t| ==> t[i] == s[i + 1];
      }
      InsertSorted(x, t, key);
      InsertAfterHead(x, s, key);
    } else {
      InsertBeforeHead(x, s, key);
    }
  }

  /** The step of `InsertSorted` where `x` goes after the first element. */
  lemma InsertAfterHead<T>(x: T, s: seq<T>, key: T -> seq<int>)
    requires s != [] && LexLe(key(s[0]), key(x)) && SortedByKey(s, key)
    requires SortedByKey(InsertByKey(x, s[1..], key), key)
    ensures SortedByKey(InsertByKey(x, s, key), key)
  {
    var r := InsertByKey(x, s, key);
    var t := s[1..];
    var r' := InsertByKey(x, t, key);
    assert r == [s[0]] + r';
    forall j | 0 < j < |r| ensures LexLe(key(s[0]), key(r[j])) {
      assert r[j] == r'[j - 1];
      assert r[j] in multiset(r');
      if r[j] == x {
      } else {
        assert r[j] in multiset(t);
        var k :| 0 <= k < |t| && t[k] == r[j];
        assert s[k + 1] == r[j];
      }
    }
    forall i, j | 0 <= i < j < |r| ensures LexLe(key(r[i]), key(r[j])) {
      if i > 0 {
        assert r[i] == r'[i - 1] && r[j] == r'[j - 1];
      }
    }
  }

  /** The step of `InsertSorted` where `x` goes before the first element. */
  lemma InsertBeforeHead<T>(x: T, s: seq<T>, key: T -> seq<int>)
    requires s != [] && !LexLe(key(s[0]), key(x)) && SortedByKey(s, key)
    ensures SortedByKey(InsertByKey(x, s, key), key)
  {
    var r := InsertByKey(x, s, key);
    LexLeTotal(key(s[0]), key(x));
    forall i, j | 0 <= i < j < |r| ensures LexLe(key(r[i]), key(r[j])) {
      if i == 0 {
        assert r[j] == s[j - 1];
        if j > 1 {
          LexLeTrans(key(x), key(s[0]), key(s[j - 1]));
        }
      } else {
        assert r[i] == s[i - 1] && r[j] == s[j - 1];
      }
    }
  }

  /** Stable insertion sort: the model of `ORDER BY key` and of `OrderBy(key)`. */
  function SortByKey<T>(s: seq<T>, key: T -> seq<int>): (r: seq<T>)
    ensures multiset(r) == multiset(s)
    ensures |r| == |s|
  {
    if s == [] then []
    else
      assert s == s[..|s| - 1] + [s[|s| - 1]];
      InsertByKey(s[|s| - 1], SortByKey(s[..|s| - 1], key), key)
  }

  lemma {:induction false} SortSorted<T>(s: seq<T>, key: T -> seq<int>)
    ensures SortedByKey(SortByKey(s, key), key)
  {
    if s != [] {
      SortSorted(s[..|s| - 1], key);
      InsertSorted(s[|s| - 1], SortByKey(s[..|s| - 1], key), key);
    }
  }

  /** Sorting keeps exactly the elements of the input. */
  lemma SortMembers<T(!new)>(s: seq<T>, key: T -> seq<int>)
    ensures forall x :: x in SortByKey(s, key) <==> x in s
  {
    var r := SortByKey(s, key);
    forall x ensures x in r <==> x in s {
      assert x in r <==> x in multiset(r);
      assert x in s <==> x in multiset(s);
    }
  }

  /** Sorting then filtering gives a sorted sequence of the input's elements that pass. */
  lemma SortThenFilter<T(!new)>(s: seq<T>, p: T -> bool, key: T -> seq<int>)
    ensures SortedByKey(Filter(SortByKey(s, key), p), key)
    ensures forall x :: x in Filter(SortByKey(s, key), p) <==> x in s && p(x)
  {
    SortSorted(s, key);
    SortMembers(s, key);
    FilterPairwise(SortByKey(s, key), p, (a, b) => LexLe(key(a), key(b)));
  }

  /** Filtering then sorting gives a sorted sequence of exactly the input's elements that pass. */
  lemma FilterThenSort<T(!new)>(s: seq<T>, p: T -> bool, key: T -> seq<int>)
    ensures SortedByKey(SortByKey(Filter(s, p), key), key)
    ensures forall x :: x in SortByKey(Filter(s, p), key) <==> x in s && p(x)
  {
    SortSorted(Filter(s, p), key);
    SortMembers(Filter(s, p), key);
  }

  /** The set of keys of the elements of `s`. */
  function KeySet<T(==), K>(s: seq<T>, key: T -> K): set<K>
  {
    set x | x in s :: key(x)
  }

  lemma KeySetAppend<T, K>(s: seq<T>, x: T, key: T -> K)
    ensures KeySet(s + [x], key) == KeySet(s, key) + {key(x)}
  {
    assert x in s + [x];
    forall y | y in s ensures y in s + [x] { }
    forall y | y in s + [x] && y != x ensures y in s { }
  }

  /** The first element of each key, in the order of `s`: LINQ's `Distinct` when the key
      is the element itself, and the loop filling a dictionary with `ContainsKey`
      otherwise. */
  function FirstPerKey<T(==), K(==)>(s: seq<T>, key: T -> K): seq<T>
  {
    if s == [] then []
    else
      var p, x := s[..|s| - 1], s[|s| - 1];
      FirstPerKey(p, key) + (if key(x) in KeySet(p, key) then [] else [x])
  }

  /** It has exactly the keys of `s`, each once. */
  lemma {:induction false} FirstPerKeyKeys<T, K>(s: seq<T>, key: T -> K)
    ensures KeySet(FirstPerKey(s, key), key) == KeySet(s, key)
    ensures var r := FirstPerKey(s, key); forall i, j :: 0 <= i < j < |r| ==> key(r[i]) != key(r[j])
  {
    if s != [] {
      var p, x := s[..|s| - 1], s[|s| - 1];
      assert s == p + [x];
      FirstPerKeyKeys(p, key);
      KeySetAppend(p, x, key);
      var r' := FirstPerKey(p, key);
      if key(x) !in KeySet(p, key) {
        KeySetAppend(r', x, key);
        var r := r' + [x];
        forall i, j | 0 <= i < j < |r| ensures key(r[i]) != key(r[j]) {
          if j == |r'| {
            assert r[i] in r';
          }
        }
      }
    }
  }

  /** `x` occurs in `s` with no element of the same key before it. */
  ghost predicate FirstOfKeyIn<T, K>(x: T, s: seq<T>, key: T -> K)
  {
    exists i :: 0 <= i < |s| && s[i] == x && forall k :: 0 <= k < i ==> key(s[k]) != key(x)
  }

  /** Each element it keeps is the first of its key in `s`. */
  lemma {:induction false} FirstPerKeyFirst<T, K>(s: seq<T>, key: T -> K)
    ensures forall j :: 0 <= j < |FirstPerKey(s, key)| ==> FirstOfKeyIn(FirstPerKey(s, key)[j], s, key)
  {
    if s != [] {
      var p, x := s[..|s| - 1], s[|s| - 1];
      FirstPerKeyFirst(p, key);
      var r' := FirstPerKey(p, key);
      var r := FirstPerKey(s, key);
      forall j | 0 <= j < |r| ensures FirstOfKeyIn(r[j], s, key) {
        if j < |r'| {
          assert r[j] == r'[j];
          FirstOfKeyExtend(r'[j], p, x, key);
        } else {
          assert r[j] == x;
          FirstOfKeyNew(p, x, key);
        }
      }
    }
  }

  /** The first of its key in `p` stays the first of its key in `p + [x]`. */
  lemma FirstOfKeyExtend<T, K>(y: T, p: seq<T>, x: T, key: T -> K)
    requires FirstOfKeyIn(y, p, key)
    ensures FirstOfKeyIn(y, p + [x], key)
  {
    var i :| 0 <= i < |p| && p[i] == y && forall k :: 0 <= k < i ==> key(p[k]) != key(y);
    assert (p + [x])[i] == y;
    assert forall k :: 0 <= k < i ==> (p + [x])[k] == p[k];
  }

  /** An element whose key `p` lacks is the first of its key in `p + [x]`. */
  lemma FirstOfKeyNew<T, K>(p: seq<T>, x: T, key: T -> K)
    requires key(x) !in KeySet(p, key)
    ensures FirstOfKeyIn(x, p + [x], key)
  {
    var s := p + [x];
    forall k | 0 <= k < |p| ensures key(s[k]) != key(x) {
      assert s[k] == p[k] && p[k] in p;
    }
    assert s[|p|] == x;
  }

  /** Every element of the result comes from `s`. */
  lemma {:induction false} FirstPerKeyFrom<T, K>(s: seq<T>, key: T -> K)
    ensures forall x :: x in FirstPerKey(s, key) ==> x in s
  {
    if s != [] {
      var p := s[..|s| - 1];
      FirstPerKeyFrom(p, key);
      assert forall y :: y in p ==> y in s;
    }
  }

  /** Pairwise distinct elements occur once each. */
  lemma {:induction false} DistinctOnce<T>(s: seq<T>)
    requires forall i, j :: 0 <= i < j < |s| ==> s[i] != s[j]
    ensures forall x :: multiset(s)[x] <= 1
  {
    if s != [] {
      var t := s[1..];
      assert s == [s[0]] + t;
      assert forall i, j :: 0 <= i < j < |t| ==> t[i] == s[i + 1] && t[j] == s[j + 1];
      DistinctOnce(t);
      assert s[0] !in t;
    }
  }

  /** An element found at two positions occurs at least twice. */
  lemma RepeatTwice<T>(s: seq<T>, i: int, j: int)
    requires 0 <= i < j < |s| && s[i] == s[j]
    ensures multiset(s)[s[i]] >= 2
  {
    assert s == s[..j] + s[j..];
    assert s[i] in s[..j] && s[j] in s[j..];
    assert multiset(s) == multiset(s[..j]) + multiset(s[j..]);
  }

  /** The largest element of a sequence of integers, or 0 for the empty one:
      SQLite's `MAX(id)` before `INTEGER PRIMARY KEY` adds one. */
  function MaxOr0(s: seq<int>): (m: int)
    ensures m >= 0
    ensures forall i :: 0 <= i < |s| ==> s[i] <= m
  {
    if s == [] then 0 else var m := MaxOr0(s[1..]); if s[0] > m then s[0] else m
  }
}
