/** The handful of Python string operations the tool relies on: substring
    search (`sub in s`), `str.split(sep)`, and `sorted` on a list of strings
    (code-point lexicographic order). */
module Strings {
  import opened Wrappers

  // ---------------------------------------------------------------------------
  // Substring search
  // ---------------------------------------------------------------------------

  /** Reference definition: `sub` occurs in `s` starting at index `i`. */
  ghost predicate OccursAt(s: string, sub: string, i: int) {
    0 <= i && i + |sub| <= |s| && s[i..i + |sub|] == sub
  }

  /** The index of the first occurrence of `sub` in `s` at or after `from`. */
  function FindFrom(s: string, sub: string, from: nat): (r: Option<nat>)
    ensures r.Some? ==> from <= r.value && OccursAt(s, sub, r.value)
    ensures r.Some? ==> forall j :: from <= j < r.value ==> !OccursAt(s, sub, j)
    ensures r.None? ==> forall j :: from <= j ==> !OccursAt(s, sub, j)
    decreases |s| - from
  {
    if from + |sub| > |s| then None
    else if s[from..from + |sub|] == sub then Some(from)
    else FindFrom(s, sub, from + 1)
  }

  /** The index of the first occurrence of `sub` in `s`, which `str.split` and `in` rely on. */
  function Find(s: string, sub: string): (r: Option<nat>)
    ensures r.Some? ==> OccursAt(s, sub, r.value)
    ensures r.Some? ==> forall j :: 0 <= j < r.value ==> !OccursAt(s, sub, j)
    ensures r.None? ==> forall j :: !OccursAt(s, sub, j)
  {
    FindFrom(s, sub, 0)
  }

  /** Python's `sub in s`. */
  function Contains(s: string, sub: string): (b: bool)
    ensures b <==> exists i :: OccursAt(s, sub, i)
  {
    Find(s, sub).Some?
  }

  /** A one-character string occurs exactly when the character does. */
  lemma ContainsChar(s: string, c: char)
    ensures Contains(s, [c]) <==> c in s
  {
    if c in s {
      var k :| 0 <= k < |s| && s[k] == c;
      assert OccursAt(s, [c], k);
    }
    if Contains(s, [c]) {
      var k :| OccursAt(s, [c], k);
      assert s[k] == s[k..k + 1][0] == c;
    }
  }

  /** A one-character string occurs at `k` exactly when the character is there. */
  lemma OccursChar(s: string, c: char, k: int)
    ensures OccursAt(s, [c], k) <==> 0 <= k < |s| && s[k] == c
  {
    if 0 <= k < |s| {
      assert s[k..k + 1] == [s[k]];
    }
  }

  /** An occurrence inside a prefix of `s` is an occurrence in `s`. */
  lemma OccursInPrefix(s: string, n: nat, sub: string, i: int)
    requires n <= |s| && OccursAt(s[..n], sub, i)
    ensures OccursAt(s, sub, i)
  {
    assert s[..n][i..i + |sub|] == s[i..i + |sub|];
  }

  /** An occurrence of `sub` inside an occurrence of `outer` is an occurrence in `s`. */
  lemma OccursTransitive(s: string, outer: string, i: int, sub: string, j: int)
    requires OccursAt(s, outer, i) && OccursAt(outer, sub, j)
    ensures OccursAt(s, sub, i + j)
  {
    forall k | 0 <= k < |sub| ensures s[i + j + k] == sub[k] {
      assert s[i..i + |outer|][j + k] == outer[j + k];
      assert outer[j..j + |sub|][k] == sub[k];
    }
  }

  // ---------------------------------------------------------------------------
  // str.split(sep) and its inverse, sep.join(parts)
  // ---------------------------------------------------------------------------

  /** `sep.join(parts)`. */
  function Join(parts: seq<string>, sep: string): string
    requires |parts| >= 1
  {
    if |parts| == 1 then parts[0] else parts[0] + sep + Join(parts[1..], sep)
  }

  /** Python's `s.split(sep)` for a non-empty separator (Python raises
      `ValueError` on an empty one): the pieces between the non-overlapping
      occurrences of `sep`, scanning left to right. */
  function Split(s: string, sep: string): (parts: seq<string>)
    requires |sep| > 0
    ensures |parts| >= 1
    ensures |parts| > 1 <==> Find(s, sep).Some?
    decreases |s|
  {
    match Find(s, sep)
    case None => [s]
    case Some(i) => [s[..i]] + Split(s[i + |sep|..], sep)
  }

  /** The pieces, joined with the separator, give back `s`. */
  lemma {:induction false} SplitJoin(s: string, sep: string)
    requires |sep| > 0
    ensures Join(Split(s, sep), sep) == s
    decreases |s|
  {
    match Find(s, sep)
    case None =>
      assert Split(s, sep) == [s];
    case Some(i) =>
      var rest := s[i + |sep|..];
      var parts := Split(s, sep);
      assert parts == [s[..i]] + Split(rest, sep);
      assert parts[0] == s[..i] && parts[1..] == Split(rest, sep);
      assert Join(parts, sep) == s[..i] + sep + Join(Split(rest, sep), sep);
      SplitJoin(rest, sep);
      assert s[i..i + |sep|] == sep;
      assert s == s[..i] + s[i..i + |sep|] + rest;
  }

  /** There is more than one piece exactly when `s` contains the separator,
      and no piece contains it. */
  lemma {:induction false} SplitPieces(s: string, sep: string)
    requires |sep| > 0
    ensures |Split(s, sep)| > 1 <==> Contains(s, sep)
    ensures forall k :: 0 <= k < |Split(s, sep)| ==> !Contains(Split(s, sep)[k], sep)
    decreases |s|
  {
    match Find(s, sep)
    case None =>
    case Some(i) =>
      var rest := s[i + |sep|..];
      SplitPieces(rest, sep);
      SplitHeadFree(s, sep);
      assert Split(s, sep) == [s[..i]] + Split(rest, sep);
  }

  /** The first piece does not contain the separator. */
  lemma SplitHeadFree(s: string, sep: string)
    requires |sep| > 0
    ensures !Contains(Split(s, sep)[0], sep)
  {
    match Find(s, sep)
    case None =>
    case Some(i) =>
      forall j | OccursAt(s[..i], sep, j) ensures false {
        OccursInPrefix(s, i, sep, j);
      }
  }

  /** The text of `s` before the first occurrence of `sub`, or all of `s`
      when it does not occur. */
  function UpTo(s: string, sub: string): (r: string)
    ensures |r| <= |s| && r == s[..|r|]
    ensures |r| == |s| || OccursAt(s, sub, |r|)
    ensures forall j :: 0 <= j < |r| ==> !OccursAt(s, sub, j)
  {
    match Find(s, sub)
    case None => s
    case Some(i) => s[..i]
  }

  /** The first piece of a split is the text before the first separator. */
  lemma SplitHeadUpTo(s: string, sep: string)
    requires |sep| > 0
    ensures Split(s, sep)[0] == UpTo(s, sep)
  {
  }

  /** The second piece of a split is the text between the first separator
      and the next one. */
  lemma SplitSecondUpTo(s: string, sep: string)
    requires |sep| > 0 && Find(s, sep).Some?
    ensures Find(s, sep).value + |sep| <= |s|
    ensures |Split(s, sep)| > 1
    ensures Split(s, sep)[1] == UpTo(s[Find(s, sep).value + |sep|..], sep)
  {
    var rest := s[Find(s, sep).value + |sep|..];
    assert Split(s, sep)[1] == Split(rest, sep)[0];
    SplitHeadUpTo(rest, sep);
  }

  /** An occurrence that lies inside a stretch `t` of `s` is an occurrence in `t`. */
  lemma OccursWithin(s: string, k: nat, t: string, sub: string, j: nat)
    requires k + |t| <= |s| && s[k..k + |t|] == t
    ensures OccursAt(s, sub, k + j) && j + |sub| <= |t| ==> OccursAt(t, sub, j)
  {
    if OccursAt(s, sub, k + j) && j + |sub| <= |t| {
      forall i | 0 <= i < |sub| ensures t[j + i] == sub[i] {
        assert t[j + i] == s[k..k + |t|][j + i] == s[k + j + i];
        assert s[k + j + i] == s[k + j..k + j + |sub|][i];
      }
    }
  }

  /** An occurrence in a suffix of `s` is an occurrence in `s`. */
  lemma OccursInSuffix(s: string, k: nat, sub: string, j: int)
    requires k <= |s| && OccursAt(s[k..], sub, j)
    ensures OccursAt(s, sub, k + j)
  {
    assert s[k..][j..j + |sub|] == s[k + j..k + j + |sub|];
  }

  /** An occurrence of `sub` that covers index `k` puts `s[k]` in `sub`. */
  lemma OccursCovers(s: string, sub: string, p: int, k: int)
    requires p <= k < p + |sub|
    ensures OccursAt(s, sub, p) ==> s[k] in sub
  {
    if OccursAt(s, sub, p) {
      assert s[k] == s[p..p + |sub|][k - p] == sub[k - p];
    }
  }

  // ---------------------------------------------------------------------------
  // Python's string order and sorted()
  // ---------------------------------------------------------------------------

  /** `a <= b` on Python strings: code-point lexicographic order, a proper
      prefix coming first. Characters compare by code point. */
  predicate Below(a: string, b: string)
    decreases |a|
  {
    |a| == 0 || (|b| > 0 && (a[0] < b[0] || (a[0] == b[0] && Below(a[1..], b[1..]))))
  }

  lemma {:induction false} BelowReflexive(a: string)
    ensures Below(a, a)
    decreases |a|
  {
    if |a| > 0 { BelowReflexive(a[1..]); }
  }

  lemma {:induction false} BelowAntisymmetric(a: string, b: string)
    requires Below(a, b) && Below(b, a)
    ensures a == b
    decreases |a|
  {
    if |a| > 0 {
      BelowAntisymmetric(a[1..], b[1..]);
      assert a == [a[0]] + a[1..] && b == [b[0]] + b[1..];
    }
  }

  lemma {:induction false} BelowTransitive(a: string, b: string, c: string)
    requires Below(a, b) && Below(b, c)
    ensures Below(a, c)
    decreases |a|
  {
    if |a| > 0 && a[0] == b[0] && b[0] == c[0] {
      BelowTransitive(a[1..], b[1..], c[1..]);
    }
  }

  lemma {:induction false} BelowTotal(a: string, b: string)
    ensures Below(a, b) || Below(b, a)
    decreases |a|
  {
    if |a| > 0 && |b| > 0 && a[0] == b[0] {
      BelowTotal(a[1..], b[1..]);
    }
  }

  ghost predicate Sorted(s: seq<string>) {
    forall i, j :: 0 <= i < j < |s| ==> Below(s[i], s[j])
  }

  /** Prepending an element below every element keeps a list sorted. */
  lemma SortedCons(h: string, t: seq<string>)
    requires Sorted(t)
    requires forall y :: y in t ==> Below(h, y)
    ensures Sorted([h] + t)
  {
    forall i, j | 0 <= i < j < |t| + 1 ensures Below(([h] + t)[i], ([h] + t)[j]) {
      assert ([h] + t)[j] == t[j - 1];
      if i > 0 { assert ([h] + t)[i] == t[i - 1]; }
    }
  }

  /** Inserts `x` before the first element it is below. */
  function Insert(x: string, s: seq<string>): (r: seq<string>)
    ensures multiset(r) == multiset(s) + multiset{x}
  {
    if s == [] then [x]
    else if Below(x, s[0]) then [x] + s
    else
      assert s == [s[0]] + s[1..];
      [s[0]] + Insert(x, s[1..])
  }

  lemma {:induction false} InsertSorted(x: string, s: seq<string>)
    requires Sorted(s)
    ensures Sorted(Insert(x, s))
    decreases |s|
  {
    if s == [] {
    } else if Below(x, s[0]) {
      forall y | y in s ensures Below(x, y) {
        var j :| 0 <= j < |s| && s[j] == y;
        if j > 0 { BelowTransitive(x, s[0], s[j]); }
      }
      SortedCons(x, s);
    } else {
      var tail := Insert(x, s[1..]);
      InsertSorted(x, s[1..]);
      BelowTotal(x, s[0]);
      forall y | y in tail ensures Below(s[0], y) {
        assert y in multiset(tail);
        if y != x {
          assert y in multiset(s[1..]);
          var k :| 0 <= k < |s[1..]| && s[1..][k] == y;
          assert s[k + 1] == y;
        }
      }
      SortedCons(s[0], tail);
    }
  }

  /** Python's `sorted` on a list of strings. */
  function Sort(s: seq<string>): (r: seq<string>)
    ensures Sorted(r)
    ensures multiset(r) == multiset(s)
    ensures forall x :: x in r <==> x in s
  {
    if s == [] then []
    else
      assert s == [s[0]] + s[1..];
      var rest := Sort(s[1..]);
      InsertSorted(s[0], rest);
      var r := Insert(s[0], rest);
      assert multiset(r) == multiset(s);
      assert forall x :: x in r <==> x in multiset(r);
      r
  }

  /** The head of a sorted list is below every element of it. */
  lemma SortedHeadBelow(s: seq<string>, y: string)
    requires Sorted(s) && y in s
    ensures Below(s[0], y)
  {
    var j :| 0 <= j < |s| && s[j] == y;
    if j == 0 { BelowReflexive(y); }
  }

  lemma SortedTail(s: seq<string>)
    requires Sorted(s) && |s| > 0
    ensures Sorted(s[1..])
  {
    forall i, j | 0 <= i < j < |s| - 1 ensures Below(s[1..][i], s[1..][j]) {
      assert s[1..][i] == s[i + 1] && s[1..][j] == s[j + 1];
    }
  }

  /** A sorted arrangement of a list is unique, so `Sort` is exactly what
      Python's `sorted` returns. */
  lemma {:induction false} SortedPermutationUnique(a: seq<string>, b: seq<string>)
    requires Sorted(a) && Sorted(b) && multiset(a) == multiset(b)
    ensures a == b
    decreases |a|
  {
    if |a| == 0 {
      assert |b| == |multiset(b)| == 0;
    } else {
      assert |b| == |multiset(b)| == |multiset(a)| == |a|;
      assert a[0] in multiset(b) && b[0] in multiset(a);
      SortedHeadBelow(b, a[0]);
      SortedHeadBelow(a, b[0]);
      BelowAntisymmetric(a[0], b[0]);
      assert a == [a[0]] + a[1..] && b == [b[0]] + b[1..];
      assert multiset(a) == multiset{a[0]} + multiset(a[1..]);
      assert multiset(b) == multiset{a[0]} + multiset(b[1..]);
      assert multiset(a[1..]) == multiset(a) - multiset{a[0]};
      assert multiset(b[1..]) == multiset(b) - multiset{a[0]};
      SortedTail(a);
      SortedTail(b);
      SortedPermutationUnique(a[1..], b[1..]);
    }
  }

  // ---------------------------------------------------------------------------
  // List comprehensions with a condition
  // ---------------------------------------------------------------------------

  /** `[x for x in s if keep(x)]`. */
  function Filter(keep: string -> bool, s: seq<string>): (r: seq<string>)
    ensures forall x :: x in r <==> x in s && keep(x)
  {
    if s == [] then [] else (if keep(s[0]) then [s[0]] else []) + Filter(keep, s[1..])
  }

  /** Concatenation regroups. Stated once as a lemma so that a proof can
      regroup a concatenation without the solver searching for it. */
  lemma AppendAssoc<T>(a: seq<T>, b: seq<T>, c: seq<T>)
    ensures (a + b) + c == a + (b + c)
  {
  }

  lemma {:induction false} FilterAppend(keep: string -> bool, a: seq<string>, b: seq<string>)
    ensures Filter(keep, a + b) == Filter(keep, a) + Filter(keep, b)
    decreases |a|
  {
    if a != [] {
      assert (a + b)[0] == a[0] && (a + b)[1..] == a[1..] + b;
      FilterAppend(keep, a[1..], b);
      var h := if keep(a[0]) then [a[0]] else [];
      calc {
        Filter(keep, a + b);
        h + Filter(keep, a[1..] + b);
        h + (Filter(keep, a[1..]) + Filter(keep, b));
        (h + Filter(keep, a[1..])) + Filter(keep, b);
      }
    } else {
      assert a + b == b;
    }
  }

  /** A filtered sorted list is still sorted. */
  lemma {:induction false} FilterSorted(keep: string -> bool, s: seq<string>)
    requires Sorted(s)
    ensures Sorted(Filter(keep, s))
    decreases |s|
  {
    if s != [] {
      FilterSorted(keep, s[1..]);
      var tail := Filter(keep, s[1..]);
      forall j | 0 <= j < |tail| ensures Below(s[0], tail[j]) {
        assert tail[j] in tail;
        var k :| 0 <= k < |s[1..]| && s[1..][k] == tail[j];
        assert s[k + 1] == tail[j];
      }
    }
  }

  /** Inserting one element changes the number kept by at most that element. */
  lemma {:induction false} FilterInsertCount(keep: string -> bool, x: string, s: seq<string>)
    ensures |Filter(keep, Insert(x, s))| == |Filter(keep, s)| + (if keep(x) then 1 else 0)
    decreases |s|
  {
    if s != [] && !Below(x, s[0]) {
      FilterInsertCount(keep, x, s[1..]);
      assert Insert(x, s)[1..] == Insert(x, s[1..]);
    }
  }

  /** Sorting does not change how many elements a condition keeps. */
  lemma {:induction false} FilterSortCount(keep: string -> bool, s: seq<string>)
    ensures |Filter(keep, Sort(s))| == |Filter(keep, s)|
    decreases |s|
  {
    if s != [] {
      FilterSortCount(keep, s[1..]);
      FilterInsertCount(keep, s[0], Sort(s[1..]));
    }
  }
}
