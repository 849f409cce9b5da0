/** Values and sequence operations shared by the whole model: JavaScript's
    `undefined`/`null` become `None`, array `filter`/`map` become `Filter`/`Map`,
    and `[...new Set(xs)]` becomes `Distinct`. */
module Common {

  datatype Option<T> = None | Some(value: T)

  datatype Result<T, E> = Success(value: T) | Failure(error: E)

  /** `s.filter(p)`: the elements of `s` that satisfy `p`, in their original order. */
  function Filter<T(!new)>(s: seq<T>, p: T -> bool): (r: seq<T>)
    ensures |r| <= |s|
    ensures forall x :: x in r <==> x in s && p(x)
  {
    if s == [] then []
    else (if p(s[0]) then [s[0]] else []) + Filter(s[1..], p)
  }

  /** `s.map(f)`. */
  function Map<T, U>(s: seq<T>, f: T -> U): (r: seq<U>)
    ensures |r| == |s|
    ensures forall i :: 0 <= i < |s| ==> r[i] == f(s[i])
  {
    if s == [] then [] else [f(s[0])] + Map(s[1..], f)
  }

  /** `a` can be obtained from `b` by deleting elements: it keeps their order. */
  predicate IsSubsequence<T(==)>(a: seq<T>, b: seq<T>)
    decreases |a| + |b|
  {
    if a == [] then true
    else if b == [] then false
    else (a[0] == b[0] && IsSubsequence(a[1..], b[1..])) || IsSubsequence(a, b[1..])
  }

  predicate NoDuplicates<T(==)>(s: seq<T>) {
    forall i, j :: 0 <= i < j < |s| ==> s[i] != s[j]
  }

  /** `[...new Set(s)]`: the first occurrence of every element, in order. */
  function Distinct<T(==,!new)>(s: seq<T>): (r: seq<T>)
    ensures forall x :: x in r <==> x in s
    ensures NoDuplicates(r)
  {
    if s == [] then []
    else
      var init := Distinct(s[..|s| - 1]);
      var last := s[|s| - 1];
      assert s == s[..|s| - 1] + [last];
      if last in init then init else init + [last]
  }

  lemma {:induction false} FilterIsSubsequence<T(!new)>(s: seq<T>, p: T -> bool)
    ensures IsSubsequence(Filter(s, p), s)
  {
    if s != [] {
      FilterIsSubsequence(s[1..], p);
      var rest := Filter(s[1..], p);
      if p(s[0]) {
        assert Filter(s, p) == [s[0]] + rest;
        assert ([s[0]] + rest)[1..] == rest;
      } else {
        assert Filter(s, p) == rest;
      }
    }
  }

  lemma {:induction false} MapKeepsSubsequence<T, U>(a: seq<T>, b: seq<T>, f: T -> U)
    requires IsSubsequence(a, b)
    ensures IsSubsequence(Map(a, f), Map(b, f))
    decreases |a| + |b|
  {
    if a != [] {
      assert b != [];
      assert Map(b, f)[1..] == Map(b[1..], f);
      if a[0] == b[0] && IsSubsequence(a[1..], b[1..]) {
        MapKeepsSubsequence(a[1..], b[1..], f);
        assert Map(a, f)[1..] == Map(a[1..], f);
      } else {
        MapKeepsSubsequence(a, b[1..], f);
      }
    }
  }

  lemma {:induction false} FilterAppend<T(!new)>(a: seq<T>, b: seq<T>, p: T -> bool)
    ensures Filter(a + b, p) == Filter(a, p) + Filter(b, p)
  {
    if a == [] {
      assert a + b == b;
    } else {
      assert (a + b)[1..] == a[1..] + b;
      FilterAppend(a[1..], b, p);
    }
  }

  lemma {:induction false} MapAppend<T, U>(a: seq<T>, b: seq<T>, f: T -> U)
    ensures Map(a + b, f) == Map(a, f) + Map(b, f)
  {
  }

  /** Filtering by two predicates in turn is filtering once by their conjunction. */
  lemma {:induction false} FilterTwice<T(!new)>(s: seq<T>, p: T -> bool, q: T -> bool, both: T -> bool)
    requires forall x :: both(x) == (p(x) && q(x))
    ensures Filter(Filter(s, p), q) == Filter(s, both)
  {
    if s != [] {
      FilterTwice(s[1..], p, q, both);
      var rest := Filter(s[1..], p);
      if p(s[0]) {
        assert Filter(s, p) == [s[0]] + rest;
        assert ([s[0]] + rest)[1..] == rest;
      } else {
        assert Filter(s, p) == rest;
      }
    }
  }

  /** A filter that every element of `s` passes changes nothing. */
  lemma {:induction false} FilterKeepsAll<T(!new)>(s: seq<T>, p: T -> bool)
    requires forall x :: x in s ==> p(x)
    ensures Filter(s, p) == s
  {
    if s != [] {
      FilterKeepsAll(s[1..], p);
    }
  }

  /** A filter that no element of `s` passes leaves nothing. */
  lemma {:induction false} FilterNone<T(!new)>(s: seq<T>, p: T -> bool)
    requires forall x :: x in s ==> !p(x)
    ensures Filter(s, p) == []
  {
    if s != [] {
      FilterNone(s[1..], p);
    }
  }

  lemma FilterSingleton<T(!new)>(x: T, p: T -> bool)
    ensures Filter([x], p) == if p(x) then [x] else []
  {
    assert [x][1..] == [];
  }

  /** Two filters that agree on the elements of `s` select the same elements. */
  lemma {:induction false} FilterAgree<T(!new)>(s: seq<T>, p: T -> bool, q: T -> bool)
    requires forall x :: x in s ==> p(x) == q(x)
    ensures Filter(s, p) == Filter(s, q)
  {
    if s != [] {
      FilterAgree(s[1..], p, q);
    }
  }

  lemma {:induction false} FilterKeepsNoDuplicates<T(!new)>(s: seq<T>, p: T -> bool)
    requires NoDuplicates(s)
    ensures NoDuplicates(Filter(s, p))
  {
    if s != [] {
      assert NoDuplicates(s[1..]) by {
        forall i, j | 0 <= i < j < |s[1..]| ensures s[1..][i] != s[1..][j] {
          assert s[1..][i] == s[i + 1] && s[1..][j] == s[j + 1];
        }
      }
      FilterKeepsNoDuplicates(s[1..], p);
      var rest := Filter(s[1..], p);
      if p(s[0]) {
        assert s[0] !in s[1..] by {
          forall j | 0 <= j < |s[1..]| ensures s[1..][j] != s[0] {
            assert s[1..][j] == s[j + 1];
          }
        }
        assert s[0] !in rest;
        var r := [s[0]] + rest;
        forall i, j | 0 <= i < j < |r| ensures r[i] != r[j] {
          if i == 0 {
            assert r[j] == rest[j - 1] && r[j] in rest;
          } else {
            assert r[i] == rest[i - 1] && r[j] == rest[j - 1];
          }
        }
      }
    }
  }

  lemma {:induction false} NoDuplicatesCountsOnce<T>(s: seq<T>, x: T)
    requires NoDuplicates(s)
    ensures multiset(s)[x] <= 1
  {
    if s != [] {
      assert NoDuplicates(s[1..]) by {
        forall i, j | 0 <= i < j < |s[1..]| ensures s[1..][i] != s[1..][j] {
          assert s[1..][i] == s[i + 1] && s[1..][j] == s[j + 1];
        }
      }
      NoDuplicatesCountsOnce(s[1..], x);
      assert s == [s[0]] + s[1..];
      if x == s[0] {
        assert x !in s[1..] by {
          forall j | 0 <= j < |s[1..]| ensures s[1..][j] != x {
            assert s[1..][j] == s[j + 1];
          }
        }
      }
    }
  }

  /** Reordering a sequence without duplicates cannot create one. */
  lemma PermutationKeepsNoDuplicates<T>(s: seq<T>, t: seq<T>)
    requires NoDuplicates(s) && multiset(s) == multiset(t)
    ensures NoDuplicates(t)
  {
    forall i, j | 0 <= i < j < |t| ensures t[i] != t[j] {
      if t[i] == t[j] {
        assert t == t[..i] + [t[i]] + t[i + 1..j] + [t[j]] + t[j + 1..];
        assert multiset(t)[t[i]] >= 2;
        NoDuplicatesCountsOnce(s, t[i]);
        assert false;
      }
    }
  }
}
