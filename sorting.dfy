/**
 * Sorting by a string key, as Python's `sorted` (key: the string itself) and
 * pandas' `sort_values` (key: one column) do it. The definition is an
 * insertion sort; what callers may rely on is only what its contract states:
 * the result is ordered by the key and is a permutation of the input.
 */
module Sorting {
  import opened Strings

  ghost predicate SortedBy<T>(s: seq<T>, key: T -> string) {
    forall i, j :: 0 <= i < j < |s| ==> LessEq(key(s[i]), key(s[j]))
  }

  /** A sorted sequence stays sorted below an element no greater than any of it. */
  lemma SortedCons<T>(x: T, s: seq<T>, key: T -> string)
    requires SortedBy(s, key)
    requires forall y :: y in s ==> LessEq(key(x), key(y))
    ensures SortedBy([x] + s, key)
  {
    forall i, j | 0 <= i < j < |[x] + s| ensures LessEq(key(([x] + s)[i]), key(([x] + s)[j])) {
      if i > 0 {
        assert ([x] + s)[i] == s[i - 1] && ([x] + s)[j] == s[j - 1];
      } else {
        assert ([x] + s)[j] in s;
      }
    }
  }

  function Insert<T>(x: T, s: seq<T>, key: T -> string): (r: seq<T>)
    requires SortedBy(s, key)
    ensures SortedBy(r, key)
    ensures multiset(r) == multiset(s) + multiset{x}
    decreases |s|
  {
    if s == [] then [x]
    else if LessEq(key(x), key(s[0])) then
      assert forall y :: y in s ==> LessEq(key(x), key(y)) by {
        forall y | y in s ensures LessEq(key(x), key(y)) {
          var k :| 0 <= k < |s| && s[k] == y;
          if k > 0 { LessEqTransitive(key(x), key(s[0]), key(y)); }
        }
      }
      SortedCons(x, s, key);
      [x] + s
    else
      LessEqTotal(key(x), key(s[0]));
      assert s == [s[0]] + s[1..];
      var rest := Insert(x, s[1..], key);
      assert forall y :: y in rest ==> LessEq(key(s[0]), key(y)) by {
        forall y | y in rest ensures LessEq(key(s[0]), key(y)) {
          assert y in multiset(rest);
          if y != x {
            assert y in multiset(s[1..]);
            var k :| 0 <= k < |s[1..]| && s[1..][k] == y;
            assert s[k + 1] == y;
          }
        }
      }
      SortedCons(s[0], rest, key);
      [s[0]] + rest
  }

  /** The rows (or names) ordered by `key`; a permutation of `s`. */
  function SortBy<T>(s: seq<T>, key: T -> string): (r: seq<T>)
    ensures SortedBy(r, key)
    ensures multiset(r) == multiset(s)
    decreases |s|
  {
    if s == [] then []
    else
      assert s == [s[0]] + s[1..];
      Insert(s[0], SortBy(s[1..], key), key)
  }
}
