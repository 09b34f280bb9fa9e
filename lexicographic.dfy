/** Python's ordering of `str` values (code point by code point, a proper
    prefix first) and `sorted` on a list of strings. */
module Lexicographic {

  /** `a <= b` on Python strings. */
  predicate Le(a: string, b: string)
  {
    a == [] || (b != [] && (a[0] < b[0] || (a[0] == b[0] && Le(a[1..], b[1..]))))
  }

  /** `a` precedes `b` at index `k`: they agree before `k` and `a` has the
      smaller code point there. */
  predicate DiffersFirstAt(a: string, b: string, k: nat)
  {
    k < |a| && k < |b| && a[..k] == b[..k] && a[k] < b[k]
  }

  /** The usual definition of the order: `a <= b` exactly when `a` is a
      prefix of `b` or the first difference has the smaller code point in
      `a`. */
  lemma {:induction false} LeMeans(a: string, b: string)
    ensures Le(a, b) <==> (|a| <= |b| && a == b[..|a|]) || exists k: nat :: DiffersFirstAt(a, b, k)
  {
    if a != [] && b != [] {
      LeMeans(a[1..], b[1..]);
      if a[0] == b[0] {
        if |a[1..]| <= |b[1..]| && a[1..] == b[1..][..|a[1..]|] {
          assert a == b[..|a|] by {
            assert a == [a[0]] + a[1..];
            assert b[..|a|] == [b[0]] + b[1..][..|a[1..]|];
          }
        }
        if |a| <= |b| && a == b[..|a|] {
          assert a[1..] == b[1..][..|a[1..]|];
        }
        if k: nat :| DiffersFirstAt(a[1..], b[1..], k) {
          assert a[..k + 1] == [a[0]] + a[1..][..k];
          assert b[..k + 1] == [b[0]] + b[1..][..k];
          assert DiffersFirstAt(a, b, k + 1);
        }
        if k: nat :| DiffersFirstAt(a, b, k) {
          assert k != 0;
          assert a[..k][1..] == a[1..][..k - 1] && b[..k][1..] == b[1..][..k - 1];
          assert DiffersFirstAt(a[1..], b[1..], k - 1);
        }
      } else if a[0] < b[0] {
        assert DiffersFirstAt(a, b, 0);
      } else {
        forall k: nat | 0 < k < |a| && k < |b|
          ensures a[..k][0] == a[0] && b[..k][0] == b[0]
        {
        }
        assert |a| <= |b| ==> b[..|a|][0] == b[0];
      }
    }
  }

  lemma {:induction false} LeTotal(a: string, b: string)
    ensures Le(a, b) || Le(b, a)
  {
    if a != [] && b != [] && a[0] == b[0] {
      LeTotal(a[1..], b[1..]);
    }
  }

  lemma {:induction false} LeAntisymmetric(a: string, b: string)
    requires Le(a, b) && Le(b, a)
    ensures a == b
  {
    if a != [] && b != [] {
      LeAntisymmetric(a[1..], b[1..]);
      assert a == [a[0]] + a[1..] && b == [b[0]] + b[1..];
    }
  }

  lemma {:induction false} LeTransitive(a: string, b: string, c: string)
    requires Le(a, b) && Le(b, c)
    ensures Le(a, c)
  {
    if a != [] && b != [] && c != [] && a[0] == b[0] && b[0] == c[0] {
      LeTransitive(a[1..], b[1..], c[1..]);
    }
  }

  /** Neighbouring elements are in order. */
  predicate Sorted(s: seq<string>)
  {
    forall i :: 0 < i < |s| ==> Le(s[i - 1], s[i])
  }

  /** Inserts `x` before the first element it does not exceed. */
  function Insert(x: string, s: seq<string>): (r: seq<string>)
    ensures multiset(r) == multiset(s) + multiset{x}
    ensures |r| == |s| + 1
    ensures r[0] == x || (s != [] && r[0] == s[0])
  {
    if s == [] then [x]
    else if Le(x, s[0]) then [x] + s
    else
      assert s == [s[0]] + s[1..];
      [s[0]] + Insert(x, s[1..])
  }

  /** `sorted(composers)`. */
  function SortStrings(s: seq<string>): (r: seq<string>)
    ensures multiset(r) == multiset(s)
    ensures |r| == |s|
  {
    if s == [] then []
    else
      assert s == [s[0]] + s[1..];
      Insert(s[0], SortStrings(s[1..]))
  }

  lemma {:induction false} InsertSorted(x: string, s: seq<string>)
    requires Sorted(s)
    ensures Sorted(Insert(x, s))
  {
    if s != [] && !Le(x, s[0]) {
      LeTotal(x, s[0]);
      InsertSorted(x, s[1..]);
      var t := Insert(x, s[1..]);
      assert Insert(x, s) == [s[0]] + t;
      assert Le(s[0], t[0]) by {
        if t[0] != x {
          assert s[1..] != [] && t[0] == s[1];
        }
      }
    }
  }

  /** `sorted` returns its input in ascending order (and, by its own
      contract, as a permutation of the input). */
  lemma {:induction false} SortStringsSorted(s: seq<string>)
    ensures Sorted(SortStrings(s))
  {
    if s != [] {
      SortStringsSorted(s[1..]);
      InsertSorted(s[0], SortStrings(s[1..]));
    }
  }

  lemma {:induction false} SortedHeadIsLeast(s: seq<string>, j: nat)
    requires Sorted(s) && j < |s|
    ensures Le(s[0], s[j])
  {
    if j == 0 {
      LeTotal(s[0], s[0]);
    } else {
      SortedHeadIsLeast(s, j - 1);
      LeTransitive(s[0], s[j - 1], s[j]);
    }
  }

  lemma MultisetTail(s: seq<string>)
    requires s != []
    ensures multiset(s[1..]) == multiset(s) - multiset{s[0]}
  {
    assert s == [s[0]] + s[1..];
  }

  /** Two ascending lists holding the same strings start with the same one. */
  lemma SortedPermutationSameHead(a: seq<string>, b: seq<string>)
    requires Sorted(a) && Sorted(b) && a != []
    requires multiset(a) == multiset(b)
    ensures b != [] && a[0] == b[0]
  {
    assert a[0] in multiset(b);
    var j :| 0 <= j < |b| && b[j] == a[0];
    assert b[0] in multiset(a);
    var i :| 0 <= i < |a| && a[i] == b[0];
    SortedHeadIsLeast(a, i);
    SortedHeadIsLeast(b, j);
    LeAntisymmetric(a[0], b[0]);
  }

  /** Two ascending lists holding the same strings are equal. */
  lemma {:induction false} SortedPermutationUnique(a: seq<string>, b: seq<string>)
    requires Sorted(a) && Sorted(b)
    requires multiset(a) == multiset(b)
    ensures a == b
  {
    if a == [] {
      assert |b| == |multiset(b)| == 0;
    } else {
      SortedPermutationSameHead(a, b);
      MultisetTail(a);
      MultisetTail(b);
      SortedPermutationUnique(a[1..], b[1..]);
      assert a == [a[0]] + a[1..] && b == [b[0]] + b[1..];
    }
  }

  /** `sorted` gives the same list for any ordering of the same labels. */
  lemma SortStringsOrderInsensitive(a: seq<string>, b: seq<string>)
    requires multiset(a) == multiset(b)
    ensures SortStrings(a) == SortStrings(b)
  {
    SortStringsSorted(a);
    SortStringsSorted(b);
    SortedPermutationUnique(SortStrings(a), SortStrings(b));
  }
}
