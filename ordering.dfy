/**
 * Python's ordering of strings (code point by code point, a proper prefix
 * first) and `sorted` over a list of strings.
 */
module Ordering {

  /** `a < b` on Python strings. */
  predicate Less(a: string, b: string)
    decreases |a|
  {
    |b| > 0 && (|a| == 0 || a[0] < b[0] || (a[0] == b[0] && Less(a[1..], b[1..])))
  }

  predicate LessEq(a: string, b: string)
  {
    a == b || Less(a, b)
  }

  lemma {:induction false} LessIrreflexive(a: string)
    ensures !Less(a, a)
    decreases |a|
  {
    if |a| > 0 {
      LessIrreflexive(a[1..]);
    }
  }

  lemma {:induction false} LessTotal(a: string, b: string)
    ensures a == b || Less(a, b) || Less(b, a)
    decreases |a|
  {
    if |a| > 0 && |b| > 0 && a[0] == b[0] {
      LessTotal(a[1..], b[1..]);
      if a[1..] == b[1..] {
        assert a == [a[0]] + a[1..] && b == [b[0]] + b[1..];
      }
    }
  }

  lemma {:induction false} LessTransitive(a: string, b: string, c: string)
    requires Less(a, b) && Less(b, c)
    ensures Less(a, c)
    decreases |a|
  {
    if |a| > 0 && a[0] == b[0] && b[0] == c[0] {
      LessTransitive(a[1..], b[1..], c[1..]);
    }
  }

  lemma LessAsymmetric(a: string, b: string)
    requires Less(a, b)
    ensures !Less(b, a)
  {
    if Less(b, a) {
      LessTransitive(a, b, a);
      LessIrreflexive(a);
    }
  }

  lemma LessEqAntisymmetric(a: string, b: string)
    ensures LessEq(a, b) && LessEq(b, a) ==> a == b
  {
    if Less(a, b) {
      LessAsymmetric(a, b);
    }
  }

  predicate Sorted(s: seq<string>)
  {
    forall i, j :: 0 <= i < j < |s| ==> LessEq(s[i], s[j])
  }

  /** `x` placed before the first element of the sorted `s` that is not smaller than it. */
  function InsertSorted(x: string, s: seq<string>): (r: seq<string>)
    requires Sorted(s)
    ensures Sorted(r)
    ensures multiset(r) == multiset(s) + multiset{x}
    ensures |r| == |s| + 1
  {
    if |s| == 0 then [x]
    else if LessEq(x, s[0]) then
      LessEqChain(x, s);
      [x] + s
    else
      var rest := InsertSorted(x, s[1..]);
      LessTotal(x, s[0]);
      InsertedAfter(x, s, rest);
      assert s == [s[0]] + s[1..];
      [s[0]] + rest
  }

  lemma LessEqTransitive(a: string, b: string, c: string)
    requires LessEq(a, b) && LessEq(b, c)
    ensures LessEq(a, c)
  {
    if Less(a, b) && Less(b, c) {
      LessTransitive(a, b, c);
    }
  }

  lemma LessEqChain(x: string, s: seq<string>)
    requires Sorted(s) && |s| > 0 && LessEq(x, s[0])
    ensures Sorted([x] + s)
  {
    forall j | 0 < j < |s| + 1
      ensures LessEq(x, ([x] + s)[j])
    {
      if j > 1 {
        LessEqTransitive(x, s[0], s[j - 1]);
      }
    }
    assert forall i, j :: 0 < i < j < |s| + 1 ==> ([x] + s)[i] == s[i - 1] && ([x] + s)[j] == s[j - 1];
  }

  lemma InsertedAfter(x: string, s: seq<string>, rest: seq<string>)
    requires Sorted(s) && |s| > 0 && Less(s[0], x)
    requires Sorted(rest) && multiset(rest) == multiset(s[1..]) + multiset{x}
    ensures Sorted([s[0]] + rest)
  {
    forall j | 0 <= j < |rest|
      ensures LessEq(s[0], rest[j])
    {
      assert rest[j] in multiset(rest);
      if rest[j] == x {
      } else {
        assert rest[j] in multiset(s[1..]);
        var k :| 0 <= k < |s[1..]| && s[1..][k] == rest[j];
        assert s[k + 1] == rest[j];
      }
    }
    assert forall i, j :: 0 < i < j < |rest| + 1 ==> ([s[0]] + rest)[i] == rest[i - 1] && ([s[0]] + rest)[j] == rest[j - 1];
  }

  /** `sorted(ss)`: the same strings, in ascending order. */
  function Sort(ss: seq<string>): (r: seq<string>)
    ensures Sorted(r)
    ensures multiset(r) == multiset(ss)
    ensures |r| == |ss|
  {
    if |ss| == 0 then []
    else
      assert ss == ss[..|ss| - 1] + [ss[|ss| - 1]];
      InsertSorted(ss[|ss| - 1], Sort(ss[..|ss| - 1]))
  }

  /** Taking the same first element off two rearrangements of each other leaves rearrangements. */
  lemma SameTails<T>(a: seq<T>, b: seq<T>)
    requires |a| > 0 && |b| > 0 && a[0] == b[0] && multiset(a) == multiset(b)
    ensures multiset(a[1..]) == multiset(b[1..])
  {
    assert a == [a[0]] + a[1..];
    assert b == [b[0]] + b[1..];
    calc {
      multiset(a[1..]);
      multiset(a) - multiset{a[0]};
      multiset(b) - multiset{b[0]};
      multiset(b[1..]);
    }
  }

  lemma SameHeadAndTail<T>(a: seq<T>, b: seq<T>)
    requires |a| > 0 && |b| > 0 && a[0] == b[0] && a[1..] == b[1..]
    ensures a == b
  {
    assert a == [a[0]] + a[1..];
    assert b == [b[0]] + b[1..];
  }

  /** Two sorted arrangements of the same strings are equal: the sorted order of a multiset is unique. */
  lemma {:induction false} SortedUnique(a: seq<string>, b: seq<string>)
    requires Sorted(a) && Sorted(b) && multiset(a) == multiset(b)
    ensures a == b
    decreases |a|
  {
    if |a| > 0 {
      SortedStringHeads(a, b);
      SameTails(a, b);
      SortedUnique(a[1..], b[1..]);
      SameHeadAndTail(a, b);
    }
  }

  /** Two sorted arrangements of the same non-empty strings begin with the same, smallest, string. */
  lemma SortedStringHeads(a: seq<string>, b: seq<string>)
    requires Sorted(a) && Sorted(b) && multiset(a) == multiset(b) && |a| > 0
    ensures |b| == |a| && a[0] == b[0]
    ensures Sorted(a[1..]) && Sorted(b[1..])
  {
    assert |b| == |multiset(b)| == |a|;
    assert b[0] in multiset(a);
    assert a[0] in multiset(b);
    var i :| 0 <= i < |a| && a[i] == b[0];
    var j :| 0 <= j < |b| && b[j] == a[0];
    assert LessEq(a[0], a[i]) && LessEq(b[0], b[j]);
    LessEqAntisymmetric(a[0], b[0]);
    assert forall x, y :: 0 <= x < y < |a| - 1 ==> a[1..][x] == a[x + 1] && a[1..][y] == a[y + 1];
    assert forall x, y :: 0 <= x < y < |b| - 1 ==> b[1..][x] == b[x + 1] && b[1..][y] == b[y + 1];
  }

  // --- Pairs of strings, compared as Python compares tuples.

  /** `p < q` on two pairs of strings: by the first strings, ties broken by the second. */
  predicate PairLess(p: (string, string), q: (string, string))
  {
    Less(p.0, q.0) || (p.0 == q.0 && Less(p.1, q.1))
  }

  predicate PairLessEq(p: (string, string), q: (string, string))
  {
    p == q || PairLess(p, q)
  }

  lemma PairLessEqTotal(p: (string, string), q: (string, string))
    ensures PairLessEq(p, q) || PairLessEq(q, p)
  {
    LessTotal(p.0, q.0);
    LessTotal(p.1, q.1);
  }

  lemma PairLessEqTransitive(p: (string, string), q: (string, string), r: (string, string))
    requires PairLessEq(p, q) && PairLessEq(q, r)
    ensures PairLessEq(p, r)
  {
    if PairLess(p, q) && PairLess(q, r) {
      if Less(p.0, q.0) && Less(q.0, r.0) {
        LessTransitive(p.0, q.0, r.0);
      } else if p.0 == q.0 && q.0 == r.0 {
        LessTransitive(p.1, q.1, r.1);
      }
    }
  }

  lemma PairLessEqAntisymmetric(p: (string, string), q: (string, string))
    ensures PairLessEq(p, q) && PairLessEq(q, p) ==> p == q
  {
    if PairLess(p, q) && PairLess(q, p) {
      if Less(p.0, q.0) {
        LessAsymmetric(p.0, q.0);
      } else if Less(q.0, p.0) {
        LessAsymmetric(q.0, p.0);
      } else {
        LessAsymmetric(p.1, q.1);
      }
    }
  }

  predicate PairsSorted(s: seq<(string, string)>)
  {
    forall i, j :: 0 <= i < j < |s| ==> PairLessEq(s[i], s[j])
  }

  /** `x` placed before the first pair of the sorted `s` that is not smaller than it. */
  function InsertPair(x: (string, string), s: seq<(string, string)>): (r: seq<(string, string)>)
    requires PairsSorted(s)
    ensures PairsSorted(r)
    ensures multiset(r) == multiset(s) + multiset{x}
    ensures |r| == |s| + 1
  {
    if |s| == 0 then [x]
    else if PairLessEq(x, s[0]) then
      PairChain(x, s);
      [x] + s
    else
      var rest := InsertPair(x, s[1..]);
      PairLessEqTotal(x, s[0]);
      PairInsertedAfter(x, s, rest);
      assert s == [s[0]] + s[1..];
      [s[0]] + rest
  }

  lemma PairChain(x: (string, string), s: seq<(string, string)>)
    requires PairsSorted(s) && |s| > 0 && PairLessEq(x, s[0])
    ensures PairsSorted([x] + s)
  {
    forall j | 0 < j < |s| + 1
      ensures PairLessEq(x, ([x] + s)[j])
    {
      if j > 1 {
        PairLessEqTransitive(x, s[0], s[j - 1]);
      }
    }
    assert forall i, j :: 0 < i < j < |s| + 1 ==> ([x] + s)[i] == s[i - 1] && ([x] + s)[j] == s[j - 1];
  }

  lemma PairInsertedAfter(x: (string, string), s: seq<(string, string)>, rest: seq<(string, string)>)
    requires PairsSorted(s) && |s| > 0 && PairLessEq(s[0], x)
    requires PairsSorted(rest) && multiset(rest) == multiset(s[1..]) + multiset{x}
    ensures PairsSorted([s[0]] + rest)
  {
    forall j | 0 <= j < |rest|
      ensures PairLessEq(s[0], rest[j])
    {
      assert rest[j] in multiset(rest);
      if rest[j] != x {
        assert rest[j] in multiset(s[1..]);
        var k :| 0 <= k < |s[1..]| && s[1..][k] == rest[j];
        assert s[k + 1] == rest[j];
      }
    }
    assert forall i, j :: 0 < i < j < |rest| + 1 ==> ([s[0]] + rest)[i] == rest[i - 1] && ([s[0]] + rest)[j] == rest[j - 1];
  }

  /** `sorted(ps)` on a list of pairs: the same pairs, in ascending order. */
  function SortPairs(ps: seq<(string, string)>): (r: seq<(string, string)>)
    ensures PairsSorted(r)
    ensures multiset(r) == multiset(ps)
    ensures |r| == |ps|
  {
    if |ps| == 0 then []
    else
      assert ps == ps[..|ps| - 1] + [ps[|ps| - 1]];
      InsertPair(ps[|ps| - 1], SortPairs(ps[..|ps| - 1]))
  }

  lemma DropHeadPair(s: seq<(string, string)>)
    requires |s| > 0
    ensures multiset(s[1..]) == multiset(s) - multiset{s[0]}
  {
    assert s == [s[0]] + s[1..];
  }

  /** Two sorted arrangements of the same pairs are equal. */
  lemma {:induction false} PairsSortedUnique(a: seq<(string, string)>, b: seq<(string, string)>)
    requires PairsSorted(a) && PairsSorted(b) && multiset(a) == multiset(b)
    ensures a == b
    decreases |a|
  {
    if |a| > 0 {
      SortedHeads(a, b);
      SameTails(a, b);
      PairsSortedUnique(a[1..], b[1..]);
      SameHeadAndTail(a, b);
    }
  }

  /** Two sorted arrangements of the same non-empty pairs begin with the same, smallest, pair. */
  lemma SortedHeads(a: seq<(string, string)>, b: seq<(string, string)>)
    requires PairsSorted(a) && PairsSorted(b) && multiset(a) == multiset(b) && |a| > 0
    ensures |b| == |a| && a[0] == b[0]
    ensures PairsSorted(a[1..]) && PairsSorted(b[1..])
  {
    assert |b| == |multiset(b)| == |a|;
    assert b[0] in multiset(a);
    assert a[0] in multiset(b);
    var i :| 0 <= i < |a| && a[i] == b[0];
    var j :| 0 <= j < |b| && b[j] == a[0];
    assert PairLessEq(a[0], a[i]) && PairLessEq(b[0], b[j]);
    PairLessEqAntisymmetric(a[0], b[0]);
    assert forall x, y :: 0 <= x < y < |a| - 1 ==> a[1..][x] == a[x + 1] && a[1..][y] == a[y + 1];
    assert forall x, y :: 0 <= x < y < |b| - 1 ==> b[1..][x] == b[x + 1] && b[1..][y] == b[y + 1];
  }
}
