/**
 * Python list operations over `seq`: `list.index`, `list.remove`, and the
 * "order-preserving sublist" relation that filters and removals keep.
 */
module Seqs {

  lemma ConcatAssoc<T>(x: seq<T>, y: seq<T>, z: seq<T>)
    ensures (x + y) + z == x + (y + z)
  {
  }

  lemma SplitAround<T>(s: seq<T>, i: int)
    requires 0 <= i < |s|
    ensures s == (s[..i] + [s[i]]) + s[i + 1..]
  {
  }

  /** `a` is `b` with some elements deleted, the rest kept in their order. */
  predicate IsSubsequence<T(==)>(a: seq<T>, b: seq<T>)
    decreases |b|
  {
    if a == [] then true
    else if b == [] then false
    else if a[0] == b[0] then IsSubsequence(a[1..], b[1..])
    else IsSubsequence(a, b[1..])
  }

  lemma {:induction false} SubsequenceRefl<T>(a: seq<T>)
    ensures IsSubsequence(a, a)
  {
    if a != [] {
      SubsequenceRefl(a[1..]);
    }
  }

  /** Deleting one more element in front keeps a subsequence. */
  lemma {:induction false} SubsequenceWeaken<T>(a: seq<T>, b: seq<T>)
    requires b != [] && IsSubsequence(a, b[1..])
    ensures IsSubsequence(a, b)
    decreases |b|, 0
  {
    if a != [] && a[0] == b[0] {
      SubsequenceDropHead(a, b[1..]);
    }
  }

  lemma {:induction false} SubsequenceDropHead<T>(a: seq<T>, b: seq<T>)
    requires a != [] && IsSubsequence(a, b)
    ensures IsSubsequence(a[1..], b)
    decreases |b|, 1
  {
    if a[0] == b[0] {
      SubsequenceWeaken(a[1..], b);
    } else {
      SubsequenceDropHead(a, b[1..]);
      SubsequenceWeaken(a[1..], b);
    }
  }

  lemma SubsequenceCons<T>(x: T, a: seq<T>, b: seq<T>)
    requires IsSubsequence(a, b)
    ensures IsSubsequence([x] + a, [x] + b)
  {
    assert ([x] + a)[1..] == a;
    assert ([x] + b)[1..] == b;
  }

  lemma SubsequenceSkip<T>(x: T, a: seq<T>, b: seq<T>)
    requires IsSubsequence(a, b)
    ensures IsSubsequence(a, [x] + b)
  {
    assert ([x] + b)[1..] == b;
    SubsequenceWeaken(a, [x] + b);
  }

  lemma {:induction false} SubsequenceTrans<T>(a: seq<T>, b: seq<T>, c: seq<T>)
    requires IsSubsequence(a, b) && IsSubsequence(b, c)
    ensures IsSubsequence(a, c)
    decreases |c|
  {
    if a != [] {
      assert b != [] && c != [];
      if b[0] == c[0] {
        if a[0] == b[0] {
          SubsequenceTrans(a[1..], b[1..], c[1..]);
        } else {
          SubsequenceTrans(a, b[1..], c[1..]);
          SubsequenceWeaken(a, c);
        }
      } else {
        SubsequenceTrans(a, b, c[1..]);
        SubsequenceWeaken(a, c);
      }
    }
  }

  /** Putting anything in front of the original keeps a subsequence. */
  lemma {:induction false} SubsequencePrefix<T>(a: seq<T>, b: seq<T>, c: seq<T>)
    requires IsSubsequence(a, c)
    ensures IsSubsequence(a, b + c)
    decreases |b|
  {
    if b == [] {
      assert b + c == c;
    } else {
      SubsequencePrefix(a, b[1..], c);
      assert (b + c)[1..] == b[1..] + c;
      SubsequenceWeaken(a, b + c);
    }
  }

  /** Subsequences of two pieces, joined, form a subsequence of the joined pieces. */
  lemma {:induction false} SubsequenceAppend<T>(a: seq<T>, b: seq<T>, c: seq<T>, d: seq<T>)
    requires IsSubsequence(a, b) && IsSubsequence(c, d)
    ensures IsSubsequence(a + c, b + d)
    decreases |b|
  {
    if a == [] {
      assert a + c == c;
      SubsequencePrefix(c, b, d);
    } else {
      assert b != [];
      assert (a + c)[0] == a[0] && (a + c)[1..] == a[1..] + c;
      assert (b + d)[0] == b[0] && (b + d)[1..] == b[1..] + d;
      if a[0] == b[0] {
        SubsequenceAppend(a[1..], b[1..], c, d);
      } else {
        SubsequenceAppend(a, b[1..], c, d);
      }
    }
  }

  /** A subsequence holds no element its original does not. */
  lemma {:induction false} SubsequenceMembers<T>(a: seq<T>, b: seq<T>)
    requires IsSubsequence(a, b)
    ensures forall i :: 0 <= i < |a| ==> a[i] in b
    decreases |b|
  {
    if a != [] {
      if a[0] == b[0] {
        SubsequenceMembers(a[1..], b[1..]);
        forall i | 0 < i < |a| ensures a[i] in b {
          assert a[1..][i - 1] == a[i];
          assert a[i] in b[1..];
        }
      } else {
        SubsequenceMembers(a, b[1..]);
      }
    }
  }

  /** `s.index(x)`: the first position of `x`. */
  function IndexOf<T(==)>(s: seq<T>, x: T): (i: nat)
    requires x in s
    ensures i < |s| && s[i] == x
    ensures forall j :: 0 <= j < i ==> s[j] != x
  {
    if s[0] == x then 0 else 1 + IndexOf(s[1..], x)
  }

  /** Two members have the same first index exactly when they are equal. */
  lemma IndexOfInjective<T>(s: seq<T>, x: T, y: T)
    requires x in s && y in s
    ensures IndexOf(s, x) == IndexOf(s, y) <==> x == y
  {
    var i, j := IndexOf(s, x), IndexOf(s, y);
    assert s[i] == x && s[j] == y;
  }

  /** `s.remove(x)` when `x in s`, and `s` itself otherwise: the first occurrence of `x` deleted. */
  function RemoveFirst<T(==)>(s: seq<T>, x: T): (r: seq<T>)
    ensures x in s ==> |r| == |s| - 1
    ensures x !in s ==> r == s
  {
    if s == [] then []
    else if s[0] == x then s[1..]
    else [s[0]] + RemoveFirst(s[1..], x)
  }

  /** Exactly one occurrence of `x` goes, when there is one: as multisets, `s` less `x`. */
  lemma {:induction false} RemoveFirstMultiset<T>(s: seq<T>, x: T)
    ensures multiset(RemoveFirst(s, x)) == multiset(s) - multiset{x}
  {
    if s != [] {
      assert s == [s[0]] + s[1..];
      if s[0] != x {
        RemoveFirstMultiset(s[1..], x);
      }
    }
  }

  /** The elements before the first `x` stay in place; those after it move up by one. */
  lemma {:induction false} RemoveFirstShape<T>(s: seq<T>, x: T, i: int)
    requires 0 <= i < |s| && s[i] == x && x !in s[..i]
    ensures RemoveFirst(s, x) == s[..i] + s[i + 1..]
  {
    if i == 0 {
      assert s[..0] + s[1..] == s[1..];
    } else {
      assert s[..i][0] == s[0];
      assert s[1..][..i - 1] == s[1..i];
      RemoveFirstShape(s[1..], x, i - 1);
      RemoveFirstShapeCons(s, x, i);
    }
  }

  lemma RemoveFirstShapeCons<T>(s: seq<T>, x: T, i: int)
    requires 0 < i < |s| && s[0] != x
    requires RemoveFirst(s[1..], x) == s[1..][..i - 1] + s[1..][i..]
    ensures RemoveFirst(s, x) == s[..i] + s[i + 1..]
  {
    var a, b := s[1..][..i - 1], s[1..][i..];
    assert RemoveFirst(s, x) == [s[0]] + (a + b);
    ConcatAssoc([s[0]], a, b);
    assert s[..i] == [s[0]] + a;
    assert s[i + 1..] == b;
  }

  /** What `remove` leaves is a subsequence of the original. */
  lemma {:induction false} RemoveFirstSubsequence<T>(s: seq<T>, x: T)
    ensures IsSubsequence(RemoveFirst(s, x), s)
  {
    if s != [] {
      if s[0] == x {
        SubsequenceRefl(s[1..]);
        SubsequenceWeaken(s[1..], s);
      } else {
        RemoveFirstSubsequence(s[1..], x);
        assert s == [s[0]] + s[1..];
        SubsequenceCons(s[0], RemoveFirst(s[1..], x), s[1..]);
      }
    }
  }
}
