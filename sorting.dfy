/** `Array.prototype.sort()` with no comparator, on strings: ascending in
    the lexicographic order of their characters. */
module Sorting {

  /** `a < b` on JavaScript strings: a proper prefix comes first, otherwise
      the first differing character decides. */
  predicate Less(a: string, b: string) {
    if a == [] then b != []
    else if b == [] then false
    else if a[0] == b[0] then Less(a[1..], b[1..])
    else a[0] < b[0]
  }

  predicate LessEq(a: string, b: string) {
    a == b || Less(a, b)
  }

  lemma {:induction false} LessIrreflexive(a: string)
    ensures !Less(a, a)
  {
    if a != [] {
      LessIrreflexive(a[1..]);
    }
  }

  lemma {:induction false} LessTotal(a: string, b: string)
    ensures a == b || Less(a, b) || Less(b, a)
  {
    if a != [] && b != [] && a[0] == b[0] {
      LessTotal(a[1..], b[1..]);
      if a[1..] == b[1..] {
        assert a == [a[0]] + a[1..] && b == [b[0]] + b[1..];
      }
    }
  }

  lemma {:induction false} LessAsymmetric(a: string, b: string)
    ensures !(Less(a, b) && Less(b, a))
  {
    if a != [] && b != [] && a[0] == b[0] {
      LessAsymmetric(a[1..], b[1..]);
    }
  }

  lemma {:induction false} LessTransitive(a: string, b: string, c: string)
    requires Less(a, b) && Less(b, c)
    ensures Less(a, c)
  {
    if a != [] && a[0] == b[0] && b[0] == c[0] {
      LessTransitive(a[1..], b[1..], c[1..]);
    }
  }

  lemma LessEqTransitive(a: string, b: string, c: string)
    requires LessEq(a, b) && LessEq(b, c)
    ensures LessEq(a, c)
  {
    if a != b && b != c {
      LessTransitive(a, b, c);
    }
  }

  predicate Sorted(s: seq<string>) {
    forall i, j :: 0 <= i < j < |s| ==> LessEq(s[i], s[j])
  }

  /** The step of insertion sort that keeps the head in front: `head` is at
      most every element of `tail` when it is at most `x` and at most every
      element `tail` was built from. */
  lemma InsertBehind(head: string, x: string, s: seq<string>, tail: seq<string>)
    requires Sorted(s) && s != [] && head == s[0]
    requires LessEq(head, x) && Sorted(tail)
    requires multiset(tail) == multiset(s[1..]) + multiset{x}
    ensures Sorted([head] + tail)
  {
    var r := [head] + tail;
    forall i, j | 0 <= i < j < |r| ensures LessEq(r[i], r[j]) {
      if i == 0 {
        var y := r[j];
        assert y == tail[j - 1];
        assert y in multiset(tail);
        if y != x {
          assert y in multiset(s[1..]);
          var k :| 0 <= k < |s[1..]| && s[1..][k] == y;
          assert s[k + 1] == y;
        }
      } else {
        assert r[i] == tail[i - 1] && r[j] == tail[j - 1];
      }
    }
  }

  /** Inserts `x` into the sorted `s` before the first element not below it. */
  function Insert(x: string, s: seq<string>): (r: seq<string>)
    requires Sorted(s)
    ensures Sorted(r)
    ensures multiset(r) == multiset(s) + multiset{x}
  {
    if s == [] then [x]
    else if LessEq(x, s[0]) then
      assert Sorted([x] + s) by {
        forall j | 0 <= j < |s| ensures LessEq(x, s[j]) {
          LessEqTransitive(x, s[0], s[j]);
        }
      }
      assert multiset([x] + s) == multiset(s) + multiset{x};
      [x] + s
    else
      var tail := Insert(x, s[1..]);
      LessTotal(x, s[0]);
      InsertBehind(s[0], x, s, tail);
      assert s == [s[0]] + s[1..];
      [s[0]] + tail
  }

  /** `s.sort()`: a sorted permutation of `s`. */
  function Sort(s: seq<string>): (r: seq<string>)
    ensures Sorted(r)
    ensures multiset(r) == multiset(s)
  {
    if s == [] then []
    else
      assert s == [s[0]] + s[1..];
      Insert(s[0], Sort(s[1..]))
  }

  predicate StrictlyAscending(s: seq<string>) {
    forall i, j :: 0 <= i < j < |s| ==> Less(s[i], s[j])
  }

  /** Sorted and free of duplicates means strictly ascending. */
  lemma SortedDistinctAscending(s: seq<string>)
    requires Sorted(s)
    requires forall i, j :: 0 <= i < j < |s| ==> s[i] != s[j]
    ensures StrictlyAscending(s)
  {
  }

  /** A strictly ascending sequence is fixed by its members: two with the
      same members are equal. */
  lemma {:induction false} AscendingUnique(s: seq<string>, t: seq<string>)
    requires StrictlyAscending(s) && StrictlyAscending(t)
    requires forall x :: x in s <==> x in t
    ensures s == t
  {
    assert s != [] ==> s[0] in t;
    assert t != [] ==> t[0] in s;
    if s != [] && t != [] {
      var k :| 0 <= k < |t| && t[k] == s[0];
      var m :| 0 <= m < |s| && s[m] == t[0];
      LessAsymmetric(s[0], t[0]);
      assert k == 0 || m == 0;
      LessIrreflexive(s[0]);
      forall x ensures x in s[1..] ==> x in t[1..] {
        if x in s[1..] {
          var i :| 0 <= i < |s[1..]| && s[1..][i] == x;
          assert Less(s[0], s[i + 1]);
          assert x in t;
          assert t == [t[0]] + t[1..];
        }
      }
      forall x ensures x in t[1..] ==> x in s[1..] {
        if x in t[1..] {
          var i :| 0 <= i < |t[1..]| && t[1..][i] == x;
          assert Less(t[0], t[i + 1]);
          assert x in s;
          assert s == [s[0]] + s[1..];
        }
      }
      AscendingUnique(s[1..], t[1..]);
      assert s == [s[0]] + s[1..] && t == [t[0]] + t[1..];
    }
  }
}
