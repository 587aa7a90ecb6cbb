/**
 * The Python `str` operations the catalogue builder relies on, with Python's
 * semantics: `startswith`, `replace`, `strip`, `split`, `join`, the
 * code-point ordering used by `sorted`, and case-insensitive containment.
 */
module Strings {
  import opened Seqs

  /** Python's `str.isspace()` for one character (what `strip()` removes). */
  const Whitespace: set<char> := {
    '\U{9}', '\U{A}', '\U{B}', '\U{C}', '\U{D}',
    '\U{1C}', '\U{1D}', '\U{1E}', '\U{1F}', '\U{20}',
    '\U{85}', '\U{A0}', '\U{1680}',
    '\U{2000}', '\U{2001}', '\U{2002}', '\U{2003}', '\U{2004}', '\U{2005}',
    '\U{2006}', '\U{2007}', '\U{2008}', '\U{2009}', '\U{200A}',
    '\U{2028}', '\U{2029}', '\U{202F}', '\U{205F}', '\U{3000}'}

  predicate IsSpace(c: char) {
    c in Whitespace
  }

  predicate StartsWith(s: string, prefix: string) {
    |prefix| <= |s| && s[..|prefix|] == prefix
  }

  /** Python's `s.replace(pat, rep)`: every non-overlapping match, left to right. */
  function Replace(s: string, pat: string, rep: string): string
    requires pat != []
    decreases |s|
  {
    if |s| < |pat| then s
    else if s[..|pat|] == pat then rep + Replace(s[|pat|..], pat, rep)
    else [s[0]] + Replace(s[1..], pat, rep)
  }

  function Other(c: char): char -> bool {
    (x: char) => x != c
  }

  /**
   * Replacing a character by nothing removes every occurrence of it and
   * keeps every other character, in order: it is the selection of the
   * characters that differ from it.
   */
  lemma {:induction false} ReplaceRemoves(s: string, c: char)
    ensures c !in Replace(s, [c], [])
    ensures forall x :: x in Replace(s, [c], []) ==> x in s
    ensures Replace(s, [c], []) == Where(s, Other(c))
    decreases |s|
  {
    if |s| >= 1 {
      ReplaceRemoves(s[1..], c);
      assert Where(s, Other(c)) == (if s[0] != c then [s[0]] else []) + Where(s[1..], Other(c));
      if s[..1] != [c] {
        assert s[0] != c;
      }
    }
  }

  /** A prefix that cannot start a match is copied unchanged. */
  lemma {:induction false} ReplaceCharAfter(p: string, s: string, c: char)
    requires c !in p
    ensures Replace(p + s, [c], []) == p + Replace(s, [c], [])
    decreases |p|
  {
    if p != [] {
      assert (p + s)[..1] == [p[0]] != [c];
      assert (p + s)[1..] == p[1..] + s;
      assert Replace(p + s, [c], []) == [p[0]] + Replace(p[1..] + s, [c], []);
      ReplaceCharAfter(p[1..], s, c);
      assert p == [p[0]] + p[1..];
    } else {
      assert p + s == s;
    }
  }

  /** A string without any match of `pat` is left as it is. */
  lemma {:induction false} ReplaceAbsent(s: string, pat: string, rep: string)
    requires pat != []
    requires !Contains(s, pat)
    ensures Replace(s, pat, rep) == s
    decreases |s|
  {
    if |s| >= |pat| {
      assert !OccursAt(s, pat, 0);
      assert s[0..0 + |pat|] == s[..|pat|];
      assert !Contains(s[1..], pat) by {
        forall k | 0 <= k <= |s[1..]| - |pat| && OccursAt(s[1..], pat, k) ensures OccursAt(s, pat, k + 1) {
          assert s[1..][k..k + |pat|] == s[k + 1..k + 1 + |pat|];
        }
      }
      ReplaceAbsent(s[1..], pat, rep);
      assert s == [s[0]] + s[1..];
    }
  }

  /** Python's `lstrip()`: a suffix of `s` that starts with no whitespace. */
  function LStrip(s: string): string
    decreases |s|
  {
    if s != [] && IsSpace(s[0]) then LStrip(s[1..]) else s
  }

  /** `lstrip()` drops a leading run of whitespace and keeps the rest. */
  lemma {:induction false} LStripSuffix(s: string)
    ensures |LStrip(s)| <= |s| && LStrip(s) == s[|s| - |LStrip(s)|..]
    ensures forall k :: 0 <= k < |s| - |LStrip(s)| ==> IsSpace(s[k])
    ensures LStrip(s) == [] || !IsSpace(LStrip(s)[0])
    decreases |s|
  {
    if s != [] && IsSpace(s[0]) {
      LStripSuffix(s[1..]);
      assert forall k :: 1 <= k < |s| ==> s[k] == s[1..][k - 1];
    }
  }

  /** Python's `rstrip()`: a prefix of `s` that ends with no whitespace. */
  function RStrip(s: string): string
    decreases |s|
  {
    if s != [] && IsSpace(s[|s| - 1]) then RStrip(s[..|s| - 1]) else s
  }

  /** `rstrip()` drops a trailing run of whitespace and keeps the rest. */
  lemma {:induction false} RStripPrefix(s: string)
    ensures |RStrip(s)| <= |s| && RStrip(s) == s[..|RStrip(s)|]
    ensures forall k :: |RStrip(s)| <= k < |s| ==> IsSpace(s[k])
    ensures RStrip(s) == [] || !IsSpace(RStrip(s)[|RStrip(s)| - 1])
    decreases |s|
  {
    if s != [] && IsSpace(s[|s| - 1]) {
      RStripPrefix(s[..|s| - 1]);
    }
  }

  /** A prefix or a suffix holds only characters of the whole. */
  lemma SliceMembers(s: string, i: nat, j: nat)
    requires i <= j <= |s|
    ensures forall x :: x in s[i..j] ==> x in s
  {
    forall x | x in s[i..j] ensures x in s {
      var k :| 0 <= k < j - i && s[i..j][k] == x;
      assert s[i + k] == x;
    }
  }

  /** `s[i..j]` is surrounded by nothing but whitespace. */
  predicate SpaceAround(s: string, i: int, j: int) {
    && 0 <= i <= j <= |s|
    && (forall k :: 0 <= k < i ==> IsSpace(s[k]))
    && (forall k :: j <= k < |s| ==> IsSpace(s[k]))
  }

  /**
   * Python's `strip()`: the slice of `s` left once the whitespace before and
   * after it is dropped; it neither starts nor ends with whitespace.
   */
  function Strip(s: string): (r: string)
    ensures forall x :: x in r ==> x in s
    ensures r == [] || (!IsSpace(r[0]) && !IsSpace(r[|r| - 1]))
    ensures exists i, j :: SpaceAround(s, i, j) && r == s[i..j]
  {
    var l := LStrip(s);
    var r := RStrip(l);
    LStripSuffix(s);
    RStripPrefix(l);
    SliceMembers(s, |s| - |l|, |s|);
    SliceMembers(l, 0, |r|);
    assert r != [] ==> r[0] == l[0];
    var i := |s| - |l|;
    assert r == s[i..i + |r|];
    assert forall k :: i + |r| <= k < |s| ==> s[k] == l[k - i];
    assert SpaceAround(s, i, i + |r|);
    r
  }

  /** A string with no surrounding whitespace is its own strip. */
  lemma StripTrimmed(s: string)
    requires s == [] || (!IsSpace(s[0]) && !IsSpace(s[|s| - 1]))
    ensures Strip(s) == s
  {
  }

  /** Left-stripping stops at a leading non-space. */
  lemma LStripNonSpace(p: string, s: string)
    requires p != [] && !IsSpace(p[0])
    ensures LStrip(p + s) == p + s
  {
    assert (p + s)[0] == p[0];
  }

  /** A leading whitespace character does not survive stripping. */
  lemma StripLeadingSpace(c: char, s: string)
    requires IsSpace(c)
    ensures Strip([c] + s) == Strip(s)
  {
    assert ([c] + s)[1..] == s;
  }

  /** Right-stripping never reaches into a prefix that ends with a non-space. */
  lemma {:induction false} RStripAfter(p: string, s: string)
    requires p != [] && !IsSpace(p[|p| - 1])
    ensures RStrip(p + s) == p + RStrip(s)
    decreases |s|
  {
    if s == [] {
      assert p + s == p;
    } else if IsSpace(s[|s| - 1]) {
      assert (p + s)[..|p + s| - 1] == p + s[..|s| - 1];
      RStripAfter(p, s[..|s| - 1]);
    }
  }

  /** Number of occurrences of `c` in `s`. */
  function Count(s: string, c: char): nat
    decreases |s|
  {
    if s == [] then 0 else (if s[0] == c then 1 else 0) + Count(s[1..], c)
  }

  lemma {:induction false} CountAppend(a: string, b: string, c: char)
    ensures Count(a + b, c) == Count(a, c) + Count(b, c)
    decreases |a|
  {
    if a != [] {
      assert (a + b)[1..] == a[1..] + b;
      assert (a + b)[0] == a[0];
      assert Count(a + b, c) == (if a[0] == c then 1 else 0) + Count(a[1..] + b, c);
      CountAppend(a[1..], b, c);
    } else {
      assert a + b == b;
    }
  }

  lemma {:induction false} CountAbsent(s: string, c: char)
    requires c !in s
    ensures Count(s, c) == 0
    decreases |s|
  {
    if s != [] {
      CountAbsent(s[1..], c);
    }
  }

  /** Python's `sep.join(parts)`. */
  function Join(parts: seq<string>, sep: string): string
    decreases |parts|
  {
    if parts == [] then []
    else if |parts| == 1 then parts[0]
    else parts[0] + sep + Join(parts[1..], sep)
  }

  /**
   * Python's `s.split(sep)` for a one-character separator: always at least
   * one piece, one more than the separators, none containing the separator,
   * and joining the pieces with the separator gives `s` back.
   */
  function Split(s: string, sep: char): (pieces: seq<string>)
    ensures |pieces| == Count(s, sep) + 1
    ensures forall k :: 0 <= k < |pieces| ==> sep !in pieces[k]
    ensures Join(pieces, [sep]) == s
    decreases |s|
  {
    if s == [] then [[]]
    else
      var rest := Split(s[1..], sep);
      assert s == [s[0]] + s[1..];
      if s[0] == sep then
        var r := [[]] + rest;
        assert r[1..] == rest;
        r
      else
        var r := [[s[0]] + rest[0]] + rest[1..];
        assert r[1..] == rest[1..];
        assert |rest| > 1 ==> Join(rest, [sep]) == rest[0] + [sep] + Join(rest[1..], [sep]);
        assert forall k :: 1 <= k < |r| ==> r[k] == rest[k];
        r
  }

  /** A string without the separator is a single piece. */
  lemma SplitWhole(s: string, sep: char)
    requires sep !in s
    ensures Split(s, sep) == [s]
  {
    CountAbsent(s, sep);
  }

  /** The text up to the first separator is the first piece. */
  lemma {:induction false} SplitAtSeparator(a: string, b: string, sep: char)
    requires sep !in a
    ensures Split(a + [sep] + b, sep) == [a] + Split(b, sep)
    decreases |a|
  {
    if a == [] {
      assert a + [sep] + b == [sep] + b;
      assert ([sep] + b)[1..] == b;
    } else {
      assert (a + [sep] + b)[1..] == a[1..] + [sep] + b;
      assert (a + [sep] + b)[0] == a[0];
      SplitAtSeparator(a[1..], b, sep);
      assert [a[0]] + a[1..] == a;
    }
  }

  /** A leading non-separator character belongs to the first piece. */
  lemma SplitCons(c: char, s: string, sep: char)
    requires c != sep
    ensures Split([c] + s, sep) == [[c] + Split(s, sep)[0]] + Split(s, sep)[1..]
  {
    assert ([c] + s)[1..] == s;
  }

  /** The list comprehension `[item.strip() for item in pieces]`. */
  function StripAll(pieces: seq<string>): (r: seq<string>)
    ensures |r| == |pieces|
    ensures forall k :: 0 <= k < |r| ==> r[k] == Strip(pieces[k])
  {
    seq(|pieces|, k requires 0 <= k < |pieces| => Strip(pieces[k]))
  }

  /**
   * Joining names with ", " and splitting the text on "," gives back the
   * names, up to surrounding whitespace, when no name contains a comma.
   */
  lemma {:induction false} SplitJoined(names: seq<string>)
    requires names != []
    requires forall k :: 0 <= k < |names| ==> ',' !in names[k]
    ensures StripAll(Split(Join(names, ", "), ',')) == StripAll(names)
    decreases |names|
  {
    if |names| == 1 {
      SplitWhole(names[0], ',');
    } else {
      var ps := Split(Join(names[1..], ", "), ',');
      SplitJoinedStep(names);
      SplitJoined(names[1..]);
      StripLeadingSpace(' ', ps[0]);
      StripAllCons(names[0], [[' '] + ps[0]] + ps[1..]);
      StripAllCons([' '] + ps[0], ps[1..]);
      StripAllCons(ps[0], ps[1..]);
      assert [ps[0]] + ps[1..] == ps;
      StripAllCons(names[0], names[1..]);
      assert [names[0]] + names[1..] == names;
    }
  }

  lemma SplitJoinedStep(names: seq<string>)
    requires |names| >= 2 && ',' !in names[0]
    ensures var ps := Split(Join(names[1..], ", "), ',');
      Split(Join(names, ", "), ',') == [names[0]] + ([[' '] + ps[0]] + ps[1..])
  {
    JoinStep(names, ", ");
    SplitAfterSeparator(names[0], Join(names[1..], ", "));
  }

  lemma JoinStep(names: seq<string>, sep: string)
    requires |names| >= 2
    ensures Join(names, sep) == names[0] + sep + Join(names[1..], sep)
  {
  }

  /** A comma followed by a space: the space opens the next piece. */
  lemma SplitAfterSeparator(a: string, tail: string)
    requires ',' !in a
    ensures var ps := Split(tail, ',');
      Split(a + ", " + tail, ',') == [a] + ([[' '] + ps[0]] + ps[1..])
  {
    assert a + ", " + tail == a + [','] + ([' '] + tail);
    SplitAtSeparator(a, [' '] + tail, ',');
    SplitCons(' ', tail, ',');
  }

  lemma StripAllCons(x: string, xs: seq<string>)
    ensures StripAll([x] + xs) == [Strip(x)] + StripAll(xs)
  {
    assert forall k :: 1 <= k < |xs| + 1 ==> ([x] + xs)[k] == xs[k - 1];
  }

  /** Whether `part` occurs in `text` starting at position `k`. */
  predicate OccursAt(text: string, part: string, k: int) {
    0 <= k && k + |part| <= |text| && text[k..k + |part|] == part
  }

  /** Whether `part` occurs in `text` as a contiguous substring. */
  predicate Contains(text: string, part: string) {
    exists k | 0 <= k <= |text| - |part| :: OccursAt(text, part, k)
  }

  function LowerChar(c: char): char {
    if 'A' <= c <= 'Z' then (c as int + 32) as char else c
  }

  function Lower(s: string): (r: string)
    ensures |r| == |s|
  {
    seq(|s|, k requires 0 <= k < |s| => LowerChar(s[k]))
  }

  /** Case-insensitive substring test (ASCII letters fold). */
  predicate ContainsIgnoringCase(text: string, part: string) {
    Contains(Lower(text), Lower(part))
  }

  /** Python's `<=` on `str`: lexicographic on code points. */
  predicate LessEq(a: string, b: string)
    decreases |a|
  {
    if a == [] then true
    else if b == [] then false
    else if a[0] != b[0] then a[0] < b[0]
    else LessEq(a[1..], b[1..])
  }

  lemma {:induction false} LessEqTotal(a: string, b: string)
    ensures LessEq(a, b) || LessEq(b, a)
    decreases |a|
  {
    if a != [] && b != [] && a[0] == b[0] {
      LessEqTotal(a[1..], b[1..]);
    }
  }

  lemma {:induction false} LessEqTransitive(a: string, b: string, c: string)
    requires LessEq(a, b) && LessEq(b, c)
    ensures LessEq(a, c)
    decreases |a|
  {
    if a != [] && b != [] && c != [] && a[0] == b[0] == c[0] {
      LessEqTransitive(a[1..], b[1..], c[1..]);
    }
  }

  lemma {:induction false} LessEqAntisymmetric(a: string, b: string)
    requires LessEq(a, b) && LessEq(b, a)
    ensures a == b
    decreases |a|
  {
    if a != [] && b != [] {
      LessEqAntisymmetric(a[1..], b[1..]);
      assert a == [a[0]] + a[1..] && b == [b[0]] + b[1..];
    }
  }
}
