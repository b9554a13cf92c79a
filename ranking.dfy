/**
 The ranking behind get_top_values: the (field, value) pairs of a hash, sorted
 by value from high to low by a stable sort, then cut to the first `n`.

 `StableSortDesc` is an insertion sort; `StableSortUnique` shows that any
 arrangement that is non-increasing and keeps the original order among equal
 values is this one, so it is the arrangement Python's `sorted(...,
 reverse=True)` produces as well.
 */
module Ranking {

  /** The field names of a hash snapshot. */
  function Fields<F>(h: seq<(F, int)>): set<F>
  {
    set e | e in h :: e.0
  }

  /** No field name occurs twice, as in every Redis hash. */
  ghost predicate DistinctFields<F>(h: seq<(F, int)>)
  {
    forall i, j :: 0 <= i < j < |h| ==> h[i].0 != h[j].0
  }

  /** Values never increase from left to right. */
  predicate SortedDesc<F>(s: seq<(F, int)>)
  {
    forall i, j :: 0 <= i < j < |s| ==> s[i].1 >= s[j].1
  }

  /** The entries with value `c`, in their order: the relative order a stable sort must keep. */
  function WithCount<F>(s: seq<(F, int)>, c: int): seq<(F, int)>
  {
    if s == [] then []
    else (if s[0].1 == c then [s[0]] else []) + WithCount(s[1..], c)
  }

  lemma {:induction false} WithCountCons<F>(x: (F, int), s: seq<(F, int)>, c: int)
    ensures WithCount([x] + s, c) == (if x.1 == c then [x] else []) + WithCount(s, c)
  {
    assert ([x] + s)[0] == x;
    assert ([x] + s)[1..] == s;
  }

  lemma DistinctCons<F>(x: (F, int), s: seq<(F, int)>)
    requires DistinctFields(s) && x.0 !in Fields(s)
    ensures DistinctFields([x] + s)
  {
    var t := [x] + s;
    forall i, j | 0 <= i < j < |t| ensures t[i].0 != t[j].0 {
      if i == 0 {
        assert t[j] == s[j - 1];
        assert t[j] in s;
      } else {
        assert t[i] == s[i - 1] && t[j] == s[j - 1];
      }
    }
  }

  /** Places x before the first entry whose value is not above x's. */
  function Insert<F>(x: (F, int), s: seq<(F, int)>): seq<(F, int)>
  {
    if s == [] then [x]
    else if s[0].1 > x.1 then [s[0]] + Insert(x, s[1..])
    else [x] + s
  }

  lemma TailDistinct<F>(s: seq<(F, int)>)
    requires s != [] && DistinctFields(s)
    ensures DistinctFields(s[1..]) && s[0].0 !in Fields(s[1..])
  {
    forall i, j | 0 <= i < j < |s[1..]| ensures s[1..][i].0 != s[1..][j].0 {
      assert s[1..][i] == s[i + 1] && s[1..][j] == s[j + 1];
    }
    forall e | e in s[1..] ensures e.0 != s[0].0 {
      var k :| 0 <= k < |s[1..]| && s[1..][k] == e;
      assert s[k + 1] == e;
    }
  }

  lemma TailSorted<F>(s: seq<(F, int)>)
    requires s != [] && SortedDesc(s)
    ensures SortedDesc(s[1..]) && forall e :: e in s[1..] ==> e.1 <= s[0].1
  {
    forall i, j | 0 <= i < j < |s[1..]| ensures s[1..][i].1 >= s[1..][j].1 {
      assert s[1..][i] == s[i + 1] && s[1..][j] == s[j + 1];
    }
    forall e | e in s[1..] ensures e.1 <= s[0].1 {
      var k :| 0 <= k < |s[1..]| && s[1..][k] == e;
      assert s[k + 1] == e;
    }
  }

  lemma ConsSorted<F>(x: (F, int), s: seq<(F, int)>)
    requires SortedDesc(s) && forall e :: e in s ==> e.1 <= x.1
    ensures SortedDesc([x] + s)
  {
    var r := [x] + s;
    forall i, j | 0 <= i < j < |r| ensures r[i].1 >= r[j].1 {
      if i == 0 {
        assert r[j] == s[j - 1];
        assert r[j] in s;
      } else {
        assert r[i] == s[i - 1] && r[j] == s[j - 1];
      }
    }
  }

  /** Insertion adds x to the entries and loses none. */
  lemma {:induction false} InsertPerm<F>(x: (F, int), s: seq<(F, int)>)
    ensures multiset(Insert(x, s)) == multiset(s) + multiset{x}
    decreases |s|
  {
    if s != [] && s[0].1 > x.1 {
      InsertPerm(x, s[1..]);
      assert s == [s[0]] + s[1..];
    }
  }

  lemma InsertElements<F>(x: (F, int), s: seq<(F, int)>)
    ensures forall e :: e in Insert(x, s) <==> e in s || e == x
    ensures Fields(Insert(x, s)) == Fields(s) + {x.0}
  {
    InsertPerm(x, s);
    var r := Insert(x, s);
    forall e ensures e in r <==> e in s || e == x {
      assert e in r <==> e in multiset(r);
      assert e in s <==> e in multiset(s);
    }
    FieldsPlus(r, s, x);
  }

  lemma FieldsPlus<F>(r: seq<(F, int)>, s: seq<(F, int)>, x: (F, int))
    requires forall e :: e in r <==> e in s || e == x
    ensures Fields(r) == Fields(s) + {x.0}
  {
    forall f | f in Fields(r) ensures f in Fields(s) + {x.0} {
      var e :| e in r && e.0 == f;
    }
    forall f | f in Fields(s) ensures f in Fields(r) {
      var e :| e in s && e.0 == f;
    }
    assert x in r;
  }

  lemma InsertBound<F>(x: (F, int), t: seq<(F, int)>, b: int)
    requires x.1 <= b && forall e :: e in t ==> e.1 <= b
    ensures forall e :: e in Insert(x, t) ==> e.1 <= b
  {
    InsertElements(x, t);
  }

  /** Insertion into a non-increasing sequence keeps it non-increasing. */
  lemma {:induction false} InsertSorted<F>(x: (F, int), s: seq<(F, int)>)
    requires SortedDesc(s)
    ensures SortedDesc(Insert(x, s))
    decreases |s|
  {
    if s == [] {
    } else if s[0].1 > x.1 {
      TailSorted(s);
      InsertSorted(x, s[1..]);
      InsertBound(x, s[1..], s[0].1);
      ConsSorted(s[0], Insert(x, s[1..]));
    } else {
      TailSorted(s);
      assert forall e :: e in s ==> e.1 <= x.1 by {
        forall e | e in s ensures e.1 <= x.1 {
          if e != s[0] {
            assert e in s[1..] by { assert s == [s[0]] + s[1..]; }
          }
        }
      }
      ConsSorted(x, s);
    }
  }

  /** Insertion puts x first among the entries of its value and leaves the other values' order alone. */
  lemma {:induction false} InsertStable<F>(x: (F, int), s: seq<(F, int)>, c: int)
    ensures WithCount(Insert(x, s), c) == (if x.1 == c then [x] else []) + WithCount(s, c)
    decreases |s|
  {
    if s == [] {
      assert Insert(x, s) == [x] + [];
      WithCountCons(x, [], c);
    } else if s[0].1 > x.1 {
      InsertStable(x, s[1..], c);
      WithCountCons(s[0], Insert(x, s[1..]), c);
      WithCountCons(s[0], s[1..], c);
      assert s == [s[0]] + s[1..];
    } else {
      WithCountCons(x, s, c);
    }
  }

  /** Inserting a new field into a hash snapshot keeps the fields distinct. */
  lemma {:induction false} InsertDistinct<F>(x: (F, int), s: seq<(F, int)>)
    requires DistinctFields(s) && x.0 !in Fields(s)
    ensures DistinctFields(Insert(x, s))
    decreases |s|
  {
    if s == [] {
      assert Insert(x, s) == [x] + [];
      DistinctCons(x, []);
    } else if s[0].1 > x.1 {
      TailDistinct(s);
      assert s == [s[0]] + s[1..];
      assert x.0 !in Fields(s[1..]);
      InsertDistinct(x, s[1..]);
      InsertElements(x, s[1..]);
      DistinctCons(s[0], Insert(x, s[1..]));
    } else {
      DistinctCons(x, s);
    }
  }

  lemma MultisetFields<F>(a: seq<(F, int)>, b: seq<(F, int)>)
    requires multiset(a) == multiset(b)
    ensures Fields(a) == Fields(b)
  {
    forall e ensures e in a <==> e in b {
      assert e in a <==> e in multiset(a);
      assert e in b <==> e in multiset(b);
    }
  }

  /** The stable descending sort: a non-increasing permutation that keeps the order among equal values. */
  function StableSortDesc<F>(s: seq<(F, int)>): (r: seq<(F, int)>)
    ensures |r| == |s| && multiset(r) == multiset(s)
    ensures SortedDesc(r)
    ensures forall c :: WithCount(r, c) == WithCount(s, c)
    ensures DistinctFields(s) ==> DistinctFields(r)
    decreases |s|
  {
    if s == [] then []
    else
      var t := StableSortDesc(s[1..]);
      SortStep(s, t);
      Insert(s[0], t)
  }

  /** Inserting the first pair into the sorted rest sorts the whole. */
  lemma SortStep<F>(s: seq<(F, int)>, t: seq<(F, int)>)
    requires s != []
    requires |t| == |s[1..]| && multiset(t) == multiset(s[1..]) && SortedDesc(t)
    requires forall c :: WithCount(t, c) == WithCount(s[1..], c)
    requires DistinctFields(s[1..]) ==> DistinctFields(t)
    ensures |Insert(s[0], t)| == |s| && multiset(Insert(s[0], t)) == multiset(s)
    ensures SortedDesc(Insert(s[0], t))
    ensures forall c :: WithCount(Insert(s[0], t), c) == WithCount(s, c)
    ensures DistinctFields(s) ==> DistinctFields(Insert(s[0], t))
  {
    InsertPerm(s[0], t);
    InsertSorted(s[0], t);
    assert s == [s[0]] + s[1..];
    assert |multiset(Insert(s[0], t))| == |multiset(s)|;
    if DistinctFields(s) {
      TailDistinct(s);
      MultisetFields(t, s[1..]);
      InsertDistinct(s[0], t);
    }
    forall c ensures WithCount(Insert(s[0], t), c) == WithCount(s, c) {
      InsertStable(s[0], t, c);
      WithCountCons(s[0], s[1..], c);
    }
  }

  lemma {:induction false} WithCountNonEmpty<F>(s: seq<(F, int)>, c: int)
    requires WithCount(s, c) != []
    ensures exists i :: 0 <= i < |s| && s[i].1 == c
    decreases |s|
  {
    if s[0].1 != c {
      WithCountNonEmpty(s[1..], c);
      var i :| 0 <= i < |s[1..]| && s[1..][i].1 == c;
      assert s[i + 1].1 == c;
    }
  }

  lemma WithCountHead<F>(s: seq<(F, int)>)
    ensures s != [] ==> WithCount(s, s[0].1) == [s[0]] + WithCount(s[1..], s[0].1)
  {
  }

  /** Only the empty sequence has no entries of any value. */
  lemma EmptyWithCount<F>(s: seq<(F, int)>)
    requires forall c :: WithCount(s, c) == []
    ensures s == []
  {
    if s != [] {
      WithCountHead(s);
    }
  }

  /**
   A non-increasing arrangement that keeps the order among equal values is
   unique: the insertion sort above and Python's `sorted(..., reverse=True)`
   give the same sequence.
   */
  lemma {:induction false} StableSortUnique<F>(a: seq<(F, int)>, b: seq<(F, int)>)
    requires SortedDesc(a) && SortedDesc(b)
    requires forall c :: WithCount(a, c) == WithCount(b, c)
    ensures a == b
    decreases |a| + |b|
  {
    if a == [] {
      EmptyWithCount(b);
    } else if b == [] {
      EmptyWithCount(a);
    } else {
      HeadsAgree(a, b);
      TailSorted(a);
      TailSorted(b);
      StableSortUnique(a[1..], b[1..]);
      assert a == [a[0]] + a[1..] && b == [b[0]] + b[1..];
    }
  }

  /** Two such arrangements start with the same entry, and agree on what follows it. */
  lemma HeadsAgree<F>(a: seq<(F, int)>, b: seq<(F, int)>)
    requires a != [] && b != [] && SortedDesc(a) && SortedDesc(b)
    requires forall c :: WithCount(a, c) == WithCount(b, c)
    ensures a[0] == b[0]
    ensures forall c :: WithCount(a[1..], c) == WithCount(b[1..], c)
  {
    var m, n := a[0].1, b[0].1;
    assert m <= n by { TopValue(b, m); assert WithCount(b, m) == WithCount(a, m); }
    assert n <= m by { TopValue(a, n); assert WithCount(a, n) == WithCount(b, n); }
    var wa, wb := WithCount(a, m), WithCount(b, m);
    assert wa == [a[0]] + WithCount(a[1..], m);
    assert wb == [b[0]] + WithCount(b[1..], m);
    assert wa[0] == a[0] && wb[0] == b[0];
    assert WithCount(a[1..], m) == wa[1..] && WithCount(b[1..], m) == wb[1..];
    forall c ensures WithCount(a[1..], c) == WithCount(b[1..], c) {
      if c != m {
        assert WithCount(a, c) == WithCount(a[1..], c);
        assert WithCount(b, c) == WithCount(b[1..], c);
      }
    }
  }

  /** A value that occurs in a non-increasing arrangement is at most its first value. */
  lemma TopValue<F>(s: seq<(F, int)>, c: int)
    requires s != [] && SortedDesc(s) && WithCount(s, c) != []
    ensures c <= s[0].1
  {
    WithCountNonEmpty(s, c);
    var i :| 0 <= i < |s| && s[i].1 == c;
    if i > 0 { assert s[0].1 >= s[i].1; }
  }

  function Min(a: int, b: int): int
  {
    if a <= b then a else b
  }

  /** Python's `s[:n]`: the first n entries, or for a negative n all but the last -n. */
  function Take<F>(s: seq<(F, int)>, n: int): (r: seq<(F, int)>)
    ensures r <= s
    ensures n >= 0 ==> |r| == Min(n, |s|)
    ensures n < 0 ==> |r| == if |s| + n > 0 then |s| + n else 0
  {
    if n >= 0 then s[..Min(n, |s|)]
    else if |s| + n > 0 then s[..|s| + n] else []
  }

  /** get_top_values on a hash snapshot: [] for an empty hash, else the first n of the stable descending sort. */
  function TopValues<F>(h: seq<(F, int)>, n: int): (r: seq<(F, int)>)
    ensures h == [] ==> r == []
    ensures n >= 0 ==> |r| == Min(n, |h|)
    ensures SortedDesc(r)
    ensures forall e :: e in r ==> e in h
    ensures DistinctFields(h) ==> DistinctFields(r)
  {
    if h == [] then []
    else
      var s := StableSortDesc(h);
      var r := Take(s, n);
      assert forall i :: 0 <= i < |r| ==> r[i] == s[i];
      assert forall e :: e in r ==> e in h by {
        forall e | e in r ensures e in h {
          assert e in s;
          assert e in multiset(s);
        }
      }
      r
  }

  lemma {:induction false} WithCountPrefix<F>(s: seq<(F, int)>, k: nat, c: int)
    requires k <= |s|
    ensures WithCount(s[..k], c) <= WithCount(s, c)
    decreases k
  {
    if k > 0 {
      assert s[..k][0] == s[0] && s[..k][1..] == s[1..][..k - 1];
      WithCountPrefix(s[1..], k - 1, c);
    }
  }

  /** Among entries with equal values, the result keeps the hash's own order: ties come out as a prefix of the tied fields in iteration order. */
  lemma TopValuesStable<F>(h: seq<(F, int)>, n: int, c: int)
    ensures WithCount(TopValues(h, n), c) <= WithCount(h, c)
  {
    if h != [] {
      var s := StableSortDesc(h);
      var k := |Take(s, n)|;
      assert Take(s, n) == s[..k];
      WithCountPrefix(s, k, c);
    }
  }

  lemma MultisetSplit<F>(s: seq<(F, int)>, k: nat, x: (F, int))
    requires k <= |s| && multiset(s)[x] > multiset(s[..k])[x]
    ensures exists j :: k <= j < |s| && s[j] == x
  {
    assert s == s[..k] + s[k..];
    assert multiset(s) == multiset(s[..k]) + multiset(s[k..]);
    assert x in multiset(s[k..]);
    assert x in s[k..];
    var j :| 0 <= j < |s[k..]| && s[k..][j] == x;
    assert s[k + j] == x;
  }

  /** Nothing left out of the result outranks anything in it. */
  lemma TopValuesDominate<F>(h: seq<(F, int)>, n: int, x: (F, int), y: (F, int))
    requires y in TopValues(h, n)
    requires multiset(h)[x] > multiset(TopValues(h, n))[x]
    ensures y.1 >= x.1
  {
    var s := StableSortDesc(h);
    var k := |Take(s, n)|;
    assert TopValues(h, n) == s[..k];
    MultisetSplit(s, k, x);
    var j :| k <= j < |s| && s[j] == x;
    var i :| 0 <= i < k && s[..k][i] == y;
    assert s[i] == y;
  }

  /** A three-product ranking: {1: 5, 2: 9, 3: 2}, top two. */
  lemma TopTwoExample()
    ensures TopValues([(1, 5), (2, 9), (3, 2)], 2) == [(2, 9), (1, 5)]
  {
    var ranked: seq<(int, int)> := [(2, 9), (1, 5), (3, 2)];
    SortExample();
    assert Take(ranked, 2) == ranked[..2] == [(2, 9), (1, 5)];
  }

  /** The stable sort of the example hash. */
  lemma SortExample()
    ensures StableSortDesc([(1, 5), (2, 9), (3, 2)]) == [(2, 9), (1, 5), (3, 2)]
  {
    var h: seq<(int, int)> := [(1, 5), (2, 9), (3, 2)];
    assert h[1..] == [(2, 9), (3, 2)];
    SortRestExample();
    InsertExample();
  }

  /** The stable sort of the example hash without its first pair, which is sorted already. */
  lemma SortRestExample()
    ensures StableSortDesc([(2, 9), (3, 2)]) == [(2, 9), (3, 2)]
  {
    var t2: seq<(int, int)> := [(2, 9), (3, 2)];
    var t3: seq<(int, int)> := [(3, 2)];
    var none: seq<(int, int)> := [];
    assert t2[1..] == t3 && t3[1..] == none;
    assert StableSortDesc(t3) == Insert((3, 2), none) == t3;
    assert Insert((2, 9), t3) == t2;
  }

  /** Inserting (1, 5) into the sorted rest of the example hash. */
  lemma InsertExample()
    ensures Insert((1, 5), [(2, 9), (3, 2)]) == [(2, 9), (1, 5), (3, 2)]
  {
    var t2: seq<(int, int)> := [(2, 9), (3, 2)];
    var t3: seq<(int, int)> := [(3, 2)];
    assert t2[1..] == t3;
    assert Insert((1, 5), t3) == [(1, 5)] + t3;
    assert Insert((1, 5), t2) == [(2, 9)] + [(1, 5)] + t3;
  }
}
