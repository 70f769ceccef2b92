/** Sequence operations the components use on their lists: the list `filter`
    of JavaScript arrays, removal of one id, and the reference notions
    (order-preserving subsequence, duplicate-freeness) their lemmas are stated in. */
module Sequences {

  /** The elements of `s` that satisfy `p`, in their original order
      (JavaScript's `Array.prototype.filter`). */
  function Filter<T>(s: seq<T>, p: T -> bool): (r: seq<T>)
    ensures |r| <= |s|
    ensures forall i :: 0 <= i < |r| ==> r[i] in s && p(r[i])
    ensures forall i :: 0 <= i < |s| && p(s[i]) ==> s[i] in r
  {
    if s == [] then []
    else if p(s[0]) then [s[0]] + Filter(s[1..], p)
    else Filter(s[1..], p)
  }

  /** The test `x => x !== a`. */
  function Differs<T(==)>(a: T): T -> bool
  {
    x => x != a
  }

  /** `s` with every occurrence of `a` removed (`s.filter(x => x !== a)`). */
  function Without<T(==)>(s: seq<T>, a: T): (r: seq<T>)
    ensures a !in r
    ensures forall i :: 0 <= i < |s| && s[i] != a ==> s[i] in r
  {
    Filter(s, Differs(a))
  }

  /** `a` can be obtained from `b` by deleting elements, without reordering. */
  predicate IsSubsequence<T(==)>(a: seq<T>, b: seq<T>)
    decreases |b|
  {
    a == [] ||
    (b != [] && ((a[0] == b[0] && IsSubsequence(a[1..], b[1..])) || IsSubsequence(a, b[1..])))
  }

  /** No element occurs twice. */
  predicate NoDup<T(==)>(s: seq<T>)
  {
    forall i, j :: 0 <= i < j < |s| ==> s[i] != s[j]
  }

  /** The filter never adds or duplicates: it keeps exactly the occurrences of
      the elements that satisfy `p`. */
  lemma {:induction false} FilterMultiset<T>(s: seq<T>, p: T -> bool, x: T)
    ensures multiset(Filter(s, p))[x] == if p(x) then multiset(s)[x] else 0
  {
    if s != [] {
      FilterMultiset(s[1..], p, x);
      assert s == [s[0]] + s[1..];
      assert multiset(s) == multiset([s[0]]) + multiset(s[1..]);
    }
  }

  /** The filter never reorders. */
  lemma {:induction false} FilterSubsequence<T>(s: seq<T>, p: T -> bool)
    ensures IsSubsequence(Filter(s, p), s)
  {
    if s != [] {
      FilterSubsequence(s[1..], p);
      var r := Filter(s, p);
      if p(s[0]) {
        assert r[0] == s[0] && r[1..] == Filter(s[1..], p);
      } else if r != [] {
        assert r == Filter(s[1..], p);
      }
    }
  }

  /** When every element satisfies `p`, the filter is the identity. */
  lemma {:induction false} FilterKeepsAll<T>(s: seq<T>, p: T -> bool)
    requires forall i :: 0 <= i < |s| ==> p(s[i])
    ensures Filter(s, p) == s
  {
    if s != [] {
      FilterKeepsAll(s[1..], p);
      assert s == [s[0]] + s[1..];
    }
  }

  /** The filter distributes over concatenation. */
  lemma {:induction false} FilterConcat<T>(a: seq<T>, b: seq<T>, p: T -> bool)
    ensures Filter(a + b, p) == Filter(a, p) + Filter(b, p)
  {
    if a == [] {
      assert a + b == b;
    } else {
      FilterConcat(a[1..], b, p);
      assert (a + b)[0] == a[0] && (a + b)[1..] == a[1..] + b;
    }
  }

  /** The filter preserves duplicate-freeness. */
  lemma {:induction false} FilterNoDup<T>(s: seq<T>, p: T -> bool)
    requires NoDup(s)
    ensures NoDup(Filter(s, p))
  {
    if s != [] {
      assert NoDup(s[1..]) by {
        forall i, j | 0 <= i < j < |s[1..]| ensures s[1..][i] != s[1..][j] {
          assert s[1..][i] == s[i + 1] && s[1..][j] == s[j + 1];
        }
      }
      FilterNoDup(s[1..], p);
      if p(s[0]) {
        var t := Filter(s[1..], p);
        assert s[0] !in s[1..] by {
          forall k | 0 <= k < |s[1..]| ensures s[1..][k] != s[0] {
            assert s[1..][k] == s[k + 1];
          }
        }
        assert s[0] !in t;
        var r := [s[0]] + t;
        forall i, j | 0 <= i < j < |r| ensures r[i] != r[j] {
          assert r[j] == t[j - 1];
          if i > 0 { assert r[i] == t[i - 1]; }
        }
      }
    }
  }

  /** A subsequence has no more occurrences of anything than the whole. */
  lemma {:induction false} SubsequenceMultiset<T>(a: seq<T>, b: seq<T>)
    requires IsSubsequence(a, b)
    ensures multiset(a) <= multiset(b)
    decreases |b|
  {
    if a != [] {
      assert b == [b[0]] + b[1..];
      if a[0] == b[0] && IsSubsequence(a[1..], b[1..]) {
        SubsequenceMultiset(a[1..], b[1..]);
        assert a == [a[0]] + a[1..];
      } else {
        SubsequenceMultiset(a, b[1..]);
      }
    }
  }

  /** The filter is THE order-preserving subsequence of `s` made of the
      elements that satisfy `p`: any subsequence with the same occurrences is it. */
  lemma {:induction false} FilterUnique<T>(r: seq<T>, s: seq<T>, p: T -> bool)
    requires IsSubsequence(r, s)
    requires forall x :: multiset(r)[x] == if p(x) then multiset(s)[x] else 0
    ensures r == Filter(s, p)
    decreases |s|
  {
    if s == [] {
      assert r == [];
    } else {
      var x := s[0];
      assert s == [x] + s[1..];
      assert multiset(s) == multiset([x]) + multiset(s[1..]);
      if p(x) {
        // r must use its head to match s's head: otherwise it misses an occurrence of x.
        assert multiset(r)[x] == multiset(s[1..])[x] + 1;
        if r != [] && r[0] == x && IsSubsequence(r[1..], s[1..]) {
          assert r == [x] + r[1..];
          assert multiset(r) == multiset([x]) + multiset(r[1..]);
          FilterUnique(r[1..], s[1..], p);
        } else {
          assert r != [] ==> IsSubsequence(r, s[1..]);
          SubsequenceMultiset(r, s[1..]);
          assert false;
        }
      } else {
        assert x !in r by { assert multiset(r)[x] == 0; }
        assert r != [] ==> r[0] in r && r[0] != x;
        assert r != [] ==> IsSubsequence(r, s[1..]);
        assert r == [] ==> IsSubsequence(r, s[1..]);
        forall y ensures multiset(r)[y] == if p(y) then multiset(s[1..])[y] else 0 {
          if y == x {
            assert multiset(r)[y] == 0;
          }
        }
        FilterUnique(r, s[1..], p);
      }
    }
  }

  /** Every element of `s` is either `a` or survives in `Without(s, a)`. */
  lemma {:induction false} WithoutCount<T>(s: seq<T>, a: T)
    ensures |s| == |Without(s, a)| + multiset(s)[a]
  {
    if s != [] {
      WithoutCount(s[1..], a);
      assert s == [s[0]] + s[1..];
      assert multiset(s) == multiset([s[0]]) + multiset(s[1..]);
    }
  }

  /** In a list without duplicates, removing an element that occurs at
      position `k` removes just that position. */
  lemma WithoutAt<T>(s: seq<T>, k: nat)
    requires NoDup(s) && k < |s|
    ensures Without(s, s[k]) == s[..k] + s[k + 1..]
  {
    var a, p := s[k], Differs(s[k]);
    var before, after := s[..k], s[k + 1..];
    assert s == before + [a] + after;
    FilterConcat(before + [a], after, p);
    FilterConcat(before, [a], p);
    assert Filter([a], p) == [];
    forall i | 0 <= i < |before| ensures p(before[i]) {
      assert before[i] == s[i];
    }
    forall i | 0 <= i < |after| ensures p(after[i]) {
      assert after[i] == s[k + 1 + i];
    }
    FilterKeepsAll(before, p);
    FilterKeepsAll(after, p);
  }
}
