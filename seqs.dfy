/** Facts about sequences shared by the catalogue and the display filter. */
module Seqs {
  import opened Wrappers

  predicate NoDuplicates<T(==)>(s: seq<T>) {
    forall i, j :: 0 <= i < j < |s| ==> s[i] != s[j]
  }

  /** Index of the first occurrence of `x` in `s`, or `|s|` when there is none. */
  function FirstIndex<T(==)>(s: seq<T>, x: T): (i: nat)
    ensures i <= |s|
    ensures i < |s| <==> x in s
    ensures i < |s| ==> s[i] == x
    ensures forall j :: 0 <= j < i ==> s[j] != x
  {
    if s == [] then 0
    else if s[0] == x then 0
    else 1 + FirstIndex(s[1..], x)
  }

  /** Appending an element changes no first occurrence that already exists. */
  lemma FirstIndexAppend<T>(s: seq<T>, y: T, x: T)
    ensures x in s ==> FirstIndex(s + [y], x) == FirstIndex(s, x)
    ensures x !in s && x == y ==> FirstIndex(s + [y], x) == |s|
  {
    var a, b := FirstIndex(s + [y], x), FirstIndex(s, x);
    if x in s {
      assert (s + [y])[b] == x;
      assert a <= b;
      assert a < |s| && s[a] == (s + [y])[a];
    } else if x == y {
      assert (s + [y])[|s|] == x;
      assert forall j :: 0 <= j < |s| ==> (s + [y])[j] == s[j];
    }
  }

  /**
   * The distinct elements of `s` in order of first appearance, as pandas'
   * Series.unique() and an insertion-ordered dictionary's keys give them.
   */
  function Unique<T(==)>(s: seq<T>): (u: seq<T>)
    ensures forall i :: 0 <= i < |u| ==> u[i] in s
    ensures forall i :: 0 <= i < |s| ==> s[i] in u
    ensures NoDuplicates(u)
    ensures forall a, b :: 0 <= a < b < |u| ==> FirstIndex(s, u[a]) < FirstIndex(s, u[b])
    decreases |s|
  {
    if s == [] then []
    else
      var p, x := s[..|s| - 1], s[|s| - 1];
      assert s == p + [x];
      var u := Unique(p);
      forall y | y in p ensures FirstIndex(s, y) == FirstIndex(p, y) {
        FirstIndexAppend(p, x, y);
      }
      if x in u then u
      else
        FirstIndexAppend(p, x, x);
        u + [x]
  }

  /** Unique(s + [x]) extends Unique(s) exactly when `x` is new. */
  lemma UniqueAppend<T>(s: seq<T>, x: T)
    ensures Unique(s + [x]) == if x in s then Unique(s) else Unique(s) + [x]
  {
    assert (s + [x])[..|s|] == s;
  }

  /** The last present element of `s`, if any. */
  function LastSome<T>(s: seq<Option<T>>): Option<T>
    decreases |s|
  {
    if s == [] then None
    else if s[|s| - 1].Some? then s[|s| - 1]
    else LastSome(s[..|s| - 1])
  }

  /** LastSome is None exactly when every element is, and otherwise some element after which all are None. */
  lemma {:induction false} LastSomeIsLast<T>(s: seq<Option<T>>)
    ensures LastSome(s).None? <==> forall i :: 0 <= i < |s| ==> s[i].None?
    ensures LastSome(s).Some? ==>
      exists j :: 0 <= j < |s| && s[j] == LastSome(s) && forall k :: j < k < |s| ==> s[k].None?
    decreases |s|
  {
    if s != [] {
      var p := s[..|s| - 1];
      LastSomeIsLast(p);
      assert forall i :: 0 <= i < |p| ==> p[i] == s[i];
      if s[|s| - 1].None? && LastSome(p).Some? {
        var j :| 0 <= j < |p| && p[j] == LastSome(p) && forall k :: j < k < |p| ==> p[k].None?;
        assert s[j] == LastSome(s);
      }
    }
  }

  /** `f` applied to each element: a column picked from a sequence of records. */
  function Map<T, U>(s: seq<T>, f: T -> U): (r: seq<U>)
    ensures |r| == |s|
    ensures forall k :: 0 <= k < |s| ==> r[k] == f(s[k])
  {
    seq(|s|, k requires 0 <= k < |s| => f(s[k]))
  }

  /**
   * The elements of `s` that satisfy `p`, in order (a boolean-mask
   * selection): every copy of a selected element and no copy of any other.
   */
  function Where<T(!new)>(s: seq<T>, p: T -> bool): (r: seq<T>)
    ensures |r| <= |s|
    ensures forall k :: 0 <= k < |r| ==> r[k] in s && p(r[k])
    ensures forall k :: 0 <= k < |s| && p(s[k]) ==> s[k] in r
    ensures forall x {:trigger multiset(r)[x]} :: multiset(r)[x] == if p(x) then multiset(s)[x] else 0
    decreases |s|
  {
    if s == [] then []
    else
      var rest := Where(s[1..], p);
      assert forall k :: 1 <= k < |s| ==> s[k] == s[1..][k - 1];
      assert s == [s[0]] + s[1..];
      (if p(s[0]) then [s[0]] else []) + rest
  }

  /** `sub` is `s` with some elements left out: an ascending map of indices picks it. */
  ghost predicate InOrder<T>(sub: seq<T>, s: seq<T>, idx: seq<nat>) {
    && |idx| == |sub|
    && (forall a :: 0 <= a < |idx| ==> idx[a] < |s| && s[idx[a]] == sub[a])
    && (forall a, b :: 0 <= a < b < |idx| ==> idx[a] < idx[b])
  }

  /** Each index moved one place to the right. */
  function Shift(idx: seq<nat>): (r: seq<nat>)
    ensures |r| == |idx| && forall a :: 0 <= a < |r| ==> r[a] == idx[a] + 1
  {
    seq(|idx|, a requires 0 <= a < |idx| => idx[a] + 1)
  }

  lemma InOrderTail<T>(sub: seq<T>, s: seq<T>, idx: seq<nat>)
    requires s != [] && InOrder(sub, s[1..], idx)
    ensures InOrder(sub, s, Shift(idx))
  {
    forall a | 0 <= a < |idx| ensures s[Shift(idx)[a]] == sub[a] {
      assert s[idx[a] + 1] == s[1..][idx[a]];
    }
  }

  lemma InOrderCons<T>(sub: seq<T>, s: seq<T>, idx: seq<nat>)
    requires s != [] && InOrder(sub, s[1..], idx)
    ensures InOrder([s[0]] + sub, s, [0] + Shift(idx))
  {
    InOrderTail(sub, s, idx);
  }

  /** The indices of `s` that the selection picks, in ascending order. */
  lemma {:induction false} WhereIndices<T(!new)>(s: seq<T>, p: T -> bool) returns (idx: seq<nat>)
    ensures InOrder(Where(s, p), s, idx)
    decreases |s|
  {
    if s == [] {
      idx := [];
    } else {
      var tail := WhereIndices(s[1..], p);
      InOrderTail(Where(s[1..], p), s, tail);
      if p(s[0]) {
        InOrderCons(Where(s[1..], p), s, tail);
        idx := [0] + Shift(tail);
      } else {
        idx := Shift(tail);
      }
    }
  }

  /** The selection keeps the order of `s`. */
  lemma WhereInOrder<T(!new)>(s: seq<T>, p: T -> bool)
    ensures exists idx :: InOrder(Where(s, p), s, idx)
  {
    var idx := WhereIndices(s, p);
  }

  lemma {:induction false} WhereAppend<T(!new)>(a: seq<T>, b: seq<T>, p: T -> bool)
    ensures Where(a + b, p) == Where(a, p) + Where(b, p)
    decreases |a|
  {
    if a == [] {
      assert a + b == b;
    } else {
      assert (a + b)[0] == a[0] && (a + b)[1..] == a[1..] + b;
      WhereAppend(a[1..], b, p);
    }
  }

  /** The selection from a permutation is a permutation of the selection. */
  lemma WherePermutation<T(!new)>(a: seq<T>, b: seq<T>, p: T -> bool)
    requires multiset(a) == multiset(b)
    ensures multiset(Where(a, p)) == multiset(Where(b, p))
  {
  }

  /** Conditions that agree on every element select the same elements. */
  lemma {:induction false} WhereSame<T(!new)>(s: seq<T>, p: T -> bool, q: T -> bool)
    requires forall x :: p(x) == q(x)
    ensures Where(s, p) == Where(s, q)
    decreases |s|
  {
    if s != [] {
      WhereSame(s[1..], p, q);
    }
  }

  /** Selecting by `p` and then by `q` is selecting once by both. */
  lemma {:induction false} WhereWhere<T(!new)>(s: seq<T>, p: T -> bool, q: T -> bool, both: T -> bool)
    requires forall x :: both(x) == (p(x) && q(x))
    ensures Where(Where(s, p), q) == Where(s, both)
    decreases |s|
  {
    if s != [] {
      WhereWhere(s[1..], p, q, both);
      var w := Where(s, p);
      if p(s[0]) {
        assert w == [s[0]] + Where(s[1..], p);
        assert w[0] == s[0] && w[1..] == Where(s[1..], p);
        assert Where(w, q) == (if q(s[0]) then [s[0]] else []) + Where(w[1..], q);
      } else {
        assert w == Where(s[1..], p);
      }
    }
  }

  /** Selecting with a condition every element meets keeps the whole sequence. */
  lemma {:induction false} WhereAll<T(!new)>(s: seq<T>, p: T -> bool)
    requires forall x :: x in s ==> p(x)
    ensures Where(s, p) == s
    decreases |s|
  {
    if s != [] {
      WhereAll(s[1..], p);
      assert s == [s[0]] + s[1..];
    }
  }

  /** Selecting with a condition no element meets keeps nothing. */
  lemma {:induction false} WhereNone<T(!new)>(s: seq<T>, p: T -> bool)
    requires forall x :: x in s ==> !p(x)
    ensures Where(s, p) == []
    decreases |s|
  {
    if s != [] {
      WhereNone(s[1..], p);
    }
  }
}
