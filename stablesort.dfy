/**
 * Python's `list.sort(key=key, reverse=True)`: a stable sort into descending
 * key order, where elements with equal keys keep their original order. A
 * stable sort by a key has exactly one possible result, so the insertion
 * sort below yields what the interpreter's own sort yields.
 */
module StableSort {

  predicate SortedDesc<T>(s: seq<T>, key: T -> int) {
    forall i, j :: 0 <= i < j < |s| ==> key(s[i]) >= key(s[j])
  }

  /** Every key in `s` is at most `bound`. */
  predicate AllAtMost<T>(s: seq<T>, key: T -> int, bound: int) {
    forall i :: 0 <= i < |s| ==> key(s[i]) <= bound
  }

  /** Puts `x` in front of the first element whose key is not larger than its own. */
  function Insert<T>(x: T, t: seq<T>, key: T -> int): (r: seq<T>)
    ensures |r| == |t| + 1
    ensures multiset(r) == multiset(t) + multiset{x}
  {
    if t == [] || key(x) >= key(t[0]) then [x] + t
    else
      assert t == [t[0]] + t[1..];
      [t[0]] + Insert(x, t[1..], key)
  }

  /** `sorted(s, key=key, reverse=True)`. */
  function SortDesc<T>(s: seq<T>, key: T -> int): (r: seq<T>)
    ensures |r| == |s|
    ensures multiset(r) == multiset(s)
  {
    if s == [] then []
    else
      assert s == [s[0]] + s[1..];
      Insert(s[0], SortDesc(s[1..], key), key)
  }

  /** The elements of `s` whose key is `k`, in their order in `s`. */
  function Where<T>(s: seq<T>, key: T -> int, k: int): (r: seq<T>)
    ensures |r| <= |s|
  {
    if s == [] then []
    else
      assert s == [s[0]] + s[1..];
      (if key(s[0]) == k then [s[0]] else []) + Where(s[1..], key, k)
  }

  /** `Where` keeps exactly the elements of the key class. */
  lemma {:induction false} WhereMembers<T>(s: seq<T>, key: T -> int, k: int)
    ensures forall i :: 0 <= i < |Where(s, key, k)| ==> key(Where(s, key, k)[i]) == k
    ensures forall i :: 0 <= i < |Where(s, key, k)| ==> Where(s, key, k)[i] in s
    ensures forall i :: 0 <= i < |s| && key(s[i]) == k ==> s[i] in Where(s, key, k)
  {
    if s != [] {
      WhereMembers(s[1..], key, k);
      assert s == [s[0]] + s[1..];
    }
  }

  lemma {:induction false} InsertAtMost<T>(x: T, t: seq<T>, key: T -> int, bound: int)
    requires AllAtMost(t, key, bound) && key(x) <= bound
    ensures AllAtMost(Insert(x, t, key), key, bound)
  {
    if !(t == [] || key(x) >= key(t[0])) {
      InsertAtMost(x, t[1..], key, bound);
    }
  }

  lemma {:induction false} InsertSorted<T>(x: T, t: seq<T>, key: T -> int)
    requires SortedDesc(t, key)
    ensures SortedDesc(Insert(x, t, key), key)
  {
    if !(t == [] || key(x) >= key(t[0])) {
      InsertSorted(x, t[1..], key);
      InsertAtMost(x, t[1..], key, key(t[0]));
    }
  }

  /** The result of the sort is in descending key order. */
  lemma {:induction false} SortSorted<T>(s: seq<T>, key: T -> int)
    ensures SortedDesc(SortDesc(s, key), key)
  {
    if s != [] {
      SortSorted(s[1..], key);
      InsertSorted(s[0], SortDesc(s[1..], key), key);
    }
  }

  lemma WhereCons<T>(x: T, t: seq<T>, key: T -> int, k: int)
    ensures Where([x] + t, key, k) == (if key(x) == k then [x] else []) + Where(t, key, k)
  {
    assert ([x] + t)[0] == x;
    assert ([x] + t)[1..] == t;
  }

  lemma InsertCons<T>(x: T, y: T, t: seq<T>, key: T -> int)
    requires key(x) < key(y)
    ensures Insert(x, [y] + t, key) == [y] + Insert(x, t, key)
  {
    assert ([y] + t)[0] == y;
    assert ([y] + t)[1..] == t;
  }

  /** Selecting one key class commutes with inserting into a sorted list. */
  lemma {:induction false} WhereInsert<T>(x: T, t: seq<T>, key: T -> int, key2: T -> int, k: int)
    requires SortedDesc(t, key)
    ensures Where(Insert(x, t, key), key2, k)
         == if key2(x) == k then Insert(x, Where(t, key2, k), key) else Where(t, key2, k)
  {
    if t == [] || key(x) >= key(t[0]) {
      WhereInsertFront(x, t, key, key2, k);
    } else {
      var t' := t[1..];
      assert SortedDesc(t', key);
      WhereInsert(x, t', key, key2, k);
      WhereInsertBehind(x, t, key, key2, k);
    }
  }

  /** `x` goes in front of `t`: so it does in front of the key class of `t`. */
  lemma WhereInsertFront<T>(x: T, t: seq<T>, key: T -> int, key2: T -> int, k: int)
    requires SortedDesc(t, key)
    requires t == [] || key(x) >= key(t[0])
    ensures Where(Insert(x, t, key), key2, k)
         == if key2(x) == k then Insert(x, Where(t, key2, k), key) else Where(t, key2, k)
  {
    var w := Where(t, key2, k);
    assert Insert(x, t, key) == [x] + t;
    WhereCons(x, t, key2, k);
    if key2(x) == k && w != [] {
      WhereMembers(t, key2, k);
      assert w[0] in t;
      var j :| 0 <= j < |t| && t[j] == w[0];
      assert key(t[j]) <= key(t[0]);
      assert Insert(x, w, key) == [x] + w;
    }
  }

  /** `x` goes behind the head of `t`: the step from the claim for the tail to the claim for `t`. */
  lemma WhereInsertBehind<T>(x: T, t: seq<T>, key: T -> int, key2: T -> int, k: int)
    requires t != [] && key(x) < key(t[0])
    requires Where(Insert(x, t[1..], key), key2, k)
         == if key2(x) == k then Insert(x, Where(t[1..], key2, k), key) else Where(t[1..], key2, k)
    ensures Where(Insert(x, t, key), key2, k)
         == if key2(x) == k then Insert(x, Where(t, key2, k), key) else Where(t, key2, k)
  {
    var y, t' := t[0], t[1..];
    assert t == [y] + t';
    var rest := Insert(x, t', key);
    var w' := Where(t', key2, k);
    var here := if key2(y) == k then [y] else [];
    InsertCons(x, y, t', key);
    assert Insert(x, t, key) == [y] + rest;
    WhereCons(y, rest, key2, k);
    assert Where(Insert(x, t, key), key2, k) == here + Where(rest, key2, k);
    WhereCons(y, t', key2, k);
    assert Where(t, key2, k) == here + w';
    if key2(x) == k {
      assert Where(rest, key2, k) == Insert(x, w', key);
      if key2(y) == k {
        InsertCons(x, y, w', key);
        assert Insert(x, here + w', key) == here + Insert(x, w', key);
      } else {
        assert here + w' == w';
        assert here + Insert(x, w', key) == Insert(x, w', key);
      }
    } else {
      assert Where(rest, key2, k) == w';
    }
  }

  /** Stability: the elements of one key class come out of the sort in the order the sort gives them alone. */
  lemma {:induction false} WhereSort<T>(s: seq<T>, key: T -> int, key2: T -> int, k: int)
    ensures Where(SortDesc(s, key), key2, k) == SortDesc(Where(s, key2, k), key)
  {
    if s != [] {
      var s' := s[1..];
      var sorted := SortDesc(s', key);
      assert SortDesc(s, key) == Insert(s[0], sorted, key);
      SortSorted(s', key);
      WhereInsert(s[0], sorted, key, key2, k);
      WhereSort(s', key, key2, k);
      var w := Where(s', key2, k);
      assert Where(s, key2, k) == (if key2(s[0]) == k then [s[0]] else []) + w;
      if key2(s[0]) == k {
        assert ([s[0]] + w)[0] == s[0];
        assert ([s[0]] + w)[1..] == w;
        assert SortDesc([s[0]] + w, key) == Insert(s[0], SortDesc(w, key), key);
      } else {
        assert Where(s, key2, k) == w;
      }
    }
  }

  /** Sorting a list whose elements all have the same key leaves it unchanged. */
  lemma {:induction false} SortKeyConstant<T>(s: seq<T>, key: T -> int, c: int)
    requires forall i :: 0 <= i < |s| ==> key(s[i]) == c
    ensures SortDesc(s, key) == s
  {
    if s != [] {
      SortKeyConstant(s[1..], key, c);
      assert s == [s[0]] + s[1..];
    }
  }

  /** The head of the sorted list has the largest key, and it is the first element of the input that has this key. */
  lemma SortHead<T>(s: seq<T>, key: T -> int)
    requires s != []
    ensures SortDesc(s, key)[0] in s
    ensures forall i :: 0 <= i < |s| ==> key(s[i]) <= key(SortDesc(s, key)[0])
    ensures Where(s, key, key(SortDesc(s, key)[0])) != []
    ensures SortDesc(s, key)[0] == Where(s, key, key(SortDesc(s, key)[0]))[0]
  {
    var r := SortDesc(s, key);
    var h := r[0];
    assert h in multiset(r);
    assert h in multiset(s);
    SortSorted(s, key);
    forall i | 0 <= i < |s| ensures key(s[i]) <= key(h) {
      assert s[i] in multiset(s);
      assert s[i] in multiset(r);
      var j :| 0 <= j < |r| && r[j] == s[i];
      assert j == 0 || key(r[0]) >= key(r[j]);
    }
    var m := key(h);
    var w := Where(s, key, m);
    WhereSort(s, key, key, m);
    WhereMembers(s, key, m);
    SortKeyConstant(w, key, m);
    assert r == [h] + r[1..];
    WhereCons(h, r[1..], key, m);
    assert Where(r, key, m) == [h] + Where(r[1..], key, m);
    assert w == [h] + Where(r[1..], key, m);
  }

  /** The first element of `s` lying in key class `a` of `k1` and key class `b` of `k2`, by its index. */
  lemma {:induction false} WhereWhereHead<T>(s: seq<T>, k1: T -> int, a: int, k2: T -> int, b: int)
    requires Where(Where(s, k1, a), k2, b) != []
    ensures exists i :: 0 <= i < |s| && s[i] == Where(Where(s, k1, a), k2, b)[0]
              && k1(s[i]) == a && k2(s[i]) == b
              && forall j :: 0 <= j < i ==> !(k1(s[j]) == a && k2(s[j]) == b)
  {
    assert s != [];
    var w1 := Where(s[1..], k1, a);
    if k1(s[0]) == a && k2(s[0]) == b {
      assert Where(s, k1, a) == [s[0]] + w1;
      WhereCons(s[0], w1, k2, b);
    } else {
      if k1(s[0]) == a {
        assert Where(s, k1, a) == [s[0]] + w1;
        WhereCons(s[0], w1, k2, b);
      } else {
        assert Where(s, k1, a) == [] + w1;
        assert [] + w1 == w1;
      }
      assert Where(Where(s, k1, a), k2, b) == Where(w1, k2, b);
      WhereWhereHead(s[1..], k1, a, k2, b);
      var i :| 0 <= i < |s[1..]| && s[1..][i] == Where(w1, k2, b)[0]
              && k1(s[1..][i]) == a && k2(s[1..][i]) == b
              && forall j :: 0 <= j < i ==> !(k1(s[1..][j]) == a && k2(s[1..][j]) == b);
      assert s[i + 1] == s[1..][i];
      forall j | 0 <= j < i + 1 ensures !(k1(s[j]) == a && k2(s[j]) == b) {
        if j > 0 {
          assert s[j] == s[1..][j - 1];
        }
      }
    }
  }

  /** Sorting by `k2` and then by `k1` puts first an element that is maximal for `k1` and, among those sharing its `k1`, for `k2`. */
  lemma LexHeadBound<T>(s: seq<T>, k1: T -> int, k2: T -> int)
    requires s != []
    ensures var b := SortDesc(SortDesc(s, k2), k1)[0];
      forall j :: 0 <= j < |s| ==> k1(s[j]) < k1(b) || (k1(s[j]) == k1(b) && k2(s[j]) <= k2(b))
  {
    var s1 := SortDesc(s, k2);
    var b := SortDesc(s1, k1)[0];
    SortHead(s1, k1);
    var m := k1(b);
    WhereSort(s, k2, k1, m);
    var w := Where(s, k1, m);
    assert |SortDesc(w, k2)| == |w|;
    assert b == SortDesc(w, k2)[0];
    SortHead(w, k2);
    WhereMembers(s, k1, m);
    forall j | 0 <= j < |s| ensures k1(s[j]) < m || (k1(s[j]) == m && k2(s[j]) <= k2(b)) {
      assert s[j] in multiset(s);
      assert s[j] in multiset(s1);
      var k :| 0 <= k < |s1| && s1[k] == s[j];
      assert k1(s1[k]) <= m;
      if k1(s[j]) == m {
        assert s[j] in w;
        var l :| 0 <= l < |w| && w[l] == s[j];
        assert k2(w[l]) <= k2(b);
      }
    }
  }

  /** ... and that element is the earliest in `s` with exactly its two keys. */
  lemma LexHeadEarliest<T>(s: seq<T>, k1: T -> int, k2: T -> int) returns (i: int)
    requires s != []
    ensures var b := SortDesc(SortDesc(s, k2), k1)[0];
      0 <= i < |s| && s[i] == b && forall j :: 0 <= j < i ==> !(k1(s[j]) == k1(b) && k2(s[j]) == k2(b))
  {
    var s1 := SortDesc(s, k2);
    var b := SortDesc(s1, k1)[0];
    SortHead(s1, k1);
    var m := k1(b);
    WhereSort(s, k2, k1, m);
    var w := Where(s, k1, m);
    assert |SortDesc(w, k2)| == |w|;
    assert b == SortDesc(w, k2)[0];
    SortHead(w, k2);
    WhereWhereHead(s, k1, m, k2, k2(b));
    i :| 0 <= i < |s| && s[i] == b && forall j :: 0 <= j < i ==> !(k1(s[j]) == k1(b) && k2(s[j]) == k2(b));
  }

  /** No element ranked strictly lower by the primary key than some element of the list comes first. */
  lemma LexHeadNotDominated<T>(s: seq<T>, k1: T -> int, k2: T -> int, a: T, b: T)
    requires a in s && k1(a) > k1(b)
    ensures SortDesc(SortDesc(s, k2), k1)[0] != b
  {
    LexHeadBound(s, k1, k2);
    var j :| 0 <= j < |s| && s[j] == a;
    assert k1(s[j]) <= k1(SortDesc(SortDesc(s, k2), k1)[0]);
  }

  /** `[f(x) for x in s]`. */
  function Map<A, B>(s: seq<A>, f: A -> B): (r: seq<B>)
    ensures |r| == |s| && forall i :: 0 <= i < |s| ==> r[i] == f(s[i])
  {
    seq(|s|, i requires 0 <= i < |s| => f(s[i]))
  }

  lemma MapAppend<A, B>(s: seq<A>, t: seq<A>, f: A -> B)
    ensures Map(s + t, f) == Map(s, f) + Map(t, f)
  {
  }

  lemma MapCons<A, B>(x: A, t: seq<A>, f: A -> B)
    ensures Map([x] + t, f) == [f(x)] + Map(t, f)
  {
    assert Map([x] + t, f)[1..] == Map(t, f);
  }

  lemma {:induction false} InsertMap<A, B>(x: A, t: seq<A>, f: A -> B, ka: A -> int, kb: B -> int)
    requires forall y :: kb(f(y)) == ka(y)
    ensures Insert(f(x), Map(t, f), kb) == Map(Insert(x, t, ka), f)
  {
    MapCons(x, t, f);
    if t != [] {
      var u := Map(t, f);
      assert u[0] == f(t[0]) && kb(u[0]) == ka(t[0]) && kb(f(x)) == ka(x);
      if ka(x) < ka(t[0]) {
        InsertMap(x, t[1..], f, ka, kb);
        assert t == [t[0]] + t[1..];
        MapCons(t[0], t[1..], f);
        MapCons(t[0], Insert(x, t[1..], ka), f);
        assert u[1..] == Map(t[1..], f);
        assert Insert(f(x), u, kb) == [u[0]] + Insert(f(x), u[1..], kb);
      }
    }
  }

  /** Sorting decorated elements by a key read off the decoration is sorting the plain elements by that key. */
  lemma {:induction false} SortMap<A, B>(s: seq<A>, f: A -> B, ka: A -> int, kb: B -> int)
    requires forall y :: kb(f(y)) == ka(y)
    ensures SortDesc(Map(s, f), kb) == Map(SortDesc(s, ka), f)
  {
    if s != [] {
      SortMap(s[1..], f, ka, kb);
      assert Map(s, f)[1..] == Map(s[1..], f);
      InsertMap(s[0], SortDesc(s[1..], ka), f, ka, kb);
    }
  }
}
