/**
 * The ordering that `Array.prototype.sort` produces with a comparator: a sorted
 * permutation of its input. The comparators used in this code base say "x goes before y"
 * through a strict weak order `less`; `Sort` is an insertion sort on sequences that
 * keeps equal elements in their input order, as the standard requires of the built-in.
 */
module Sorting {

  /** `less` is asymmetric and its complement is transitive. */
  ghost predicate StrictWeakOrder<T(!new)>(less: (T, T) -> bool) {
    && (forall x, y :: less(x, y) ==> !less(y, x))
    && (forall x, y, z :: !less(x, y) && !less(y, z) ==> !less(x, z))
  }

  /** No later element goes strictly before an earlier one. */
  predicate Sorted<T>(s: seq<T>, less: (T, T) -> bool) {
    forall i, j :: 0 <= i < j < |s| ==> !less(s[j], s[i])
  }

  /** Put `x` before the first element of `s` that does not go strictly before it. */
  function Insert<T>(x: T, s: seq<T>, less: (T, T) -> bool): (r: seq<T>)
    ensures multiset(r) == multiset(s) + multiset{x}
    ensures |r| == |s| + 1
  {
    if s == [] then [x]
    else if less(s[0], x) then
      assert s == [s[0]] + s[1..];
      [s[0]] + Insert(x, s[1..], less)
    else [x] + s
  }

  function Sort<T>(s: seq<T>, less: (T, T) -> bool): (r: seq<T>)
    ensures multiset(r) == multiset(s)
    ensures |r| == |s|
  {
    if s == [] then []
    else
      assert s == [s[0]] + s[1..];
      Insert(s[0], Sort(s[1..], less), less)
  }

  /** An element that no element of a sorted list goes before can head it. */
  lemma ConsSorted<T>(a: T, t: seq<T>, less: (T, T) -> bool)
    requires Sorted(t, less)
    requires forall j :: 0 <= j < |t| ==> !less(t[j], a)
    ensures Sorted([a] + t, less)
  {
    var r := [a] + t;
    assert forall i :: 1 <= i < |r| ==> r[i] == t[i - 1];
  }

  lemma {:induction false} InsertSorted<T(!new)>(x: T, s: seq<T>, less: (T, T) -> bool)
    requires StrictWeakOrder(less)
    requires Sorted(s, less)
    ensures Sorted(Insert(x, s, less), less)
  {
    if s != [] {
      if less(s[0], x) {
        var t := Insert(x, s[1..], less);
        InsertSorted(x, s[1..], less);
        assert forall e :: e in multiset(t) ==> e == x || e in multiset(s[1..]);
        forall j | 0 <= j < |t|
          ensures !less(t[j], s[0])
        {
          assert t[j] in multiset(t);
          if t[j] != x {
            assert t[j] in s[1..];
            var k :| 0 <= k < |s[1..]| && s[1..][k] == t[j];
            assert s[k + 1] == t[j];
          }
        }
        ConsSorted(s[0], t, less);
      } else {
        forall j | 0 <= j < |s|
          ensures !less(s[j], x)
        {
          if j > 0 {
            assert !less(s[j], s[0]);
          }
        }
      }
    }
  }

  /** The result is ordered by `less`. */
  lemma {:induction false} SortSorted<T(!new)>(s: seq<T>, less: (T, T) -> bool)
    requires StrictWeakOrder(less)
    ensures Sorted(Sort(s, less), less)
  {
    if s != [] {
      SortSorted(s[1..], less);
      InsertSorted(s[0], Sort(s[1..], less), less);
    }
  }

  /** Sorting an ordered sequence changes nothing: the sort keeps equal elements in place. */
  lemma {:induction false} SortOfSorted<T(!new)>(s: seq<T>, less: (T, T) -> bool)
    requires Sorted(s, less)
    ensures Sort(s, less) == s
  {
    if s != [] {
      assert Sorted(s[1..], less) by {
        forall i, j | 0 <= i < j < |s[1..]|
          ensures !less(s[1..][j], s[1..][i])
        {
          assert s[1..][j] == s[j + 1] && s[1..][i] == s[i + 1];
        }
      }
      SortOfSorted(s[1..], less);
      if |s| > 1 {
        assert !less(s[1], s[0]);
        assert s[1..][0] == s[1];
      }
      assert [s[0]] + s[1..] == s;
    }
  }

  /** Sorting twice is sorting once. */
  lemma SortIdempotent<T(!new)>(s: seq<T>, less: (T, T) -> bool)
    requires StrictWeakOrder(less)
    ensures Sort(Sort(s, less), less) == Sort(s, less)
  {
    SortSorted(s, less);
    SortOfSorted(Sort(s, less), less);
  }

  // ---------------------------------------------------------------- string order

  /** JavaScript's `<` on strings: lexicographic on characters, a proper prefix first. */
  predicate LexLess(a: string, b: string)
    decreases |a|
  {
    if a == [] then b != []
    else if b == [] then false
    else if a[0] != b[0] then a[0] < b[0]
    else LexLess(a[1..], b[1..])
  }

  lemma {:induction false} LexLessIrreflexive(a: string)
    ensures !LexLess(a, a)
  {
    if a != [] {
      LexLessIrreflexive(a[1..]);
    }
  }

  lemma {:induction false} LexLessAsymmetric(a: string, b: string)
    ensures LexLess(a, b) ==> !LexLess(b, a)
  {
    if a != [] && b != [] && a[0] == b[0] {
      LexLessAsymmetric(a[1..], b[1..]);
    }
  }

  lemma {:induction false} LexLessTransitive(a: string, b: string, c: string)
    requires LexLess(a, b) && LexLess(b, c)
    ensures LexLess(a, c)
  {
    if a != [] && b != [] && c != [] && a[0] == b[0] && b[0] == c[0] {
      LexLessTransitive(a[1..], b[1..], c[1..]);
    }
  }

  /** Two different strings are always ordered one way or the other. */
  lemma {:induction false} LexLessTotal(a: string, b: string)
    ensures a == b || LexLess(a, b) || LexLess(b, a)
  {
    if a != [] && b != [] && a[0] == b[0] {
      LexLessTotal(a[1..], b[1..]);
      if a[1..] == b[1..] {
        assert a == [a[0]] + a[1..] && b == [b[0]] + b[1..];
      }
    }
  }

  /** Not going after one another is transitive for `LexLess`. */
  lemma LexNotLessTransitive(a: string, b: string, c: string)
    requires !LexLess(a, b) && !LexLess(b, c)
    ensures !LexLess(a, c)
  {
    LexLessTotal(a, b);
    LexLessTotal(b, c);
    if a != b && b != c {
      LexLessTransitive(c, b, a);
      LexLessAsymmetric(c, a);
    }
  }
}
