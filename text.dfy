/**
 * The string operations of Python that the modelled code relies on:
 * `sub in s`, `s.find`, `s.split(sep)`, `s.split(sep, 1)`, `sep.join`,
 * `s.replace`, suffix tests, `int(s)` and `str(n)`.
 */
module Text {
  import opened Wrappers

  /** `sub` occurs in `s` starting at index `i`. */
  predicate OccursAt(s: string, sub: string, i: int)
  {
    0 <= i && i + |sub| <= |s| && s[i..i + |sub|] == sub
  }

  lemma ShiftOccurs(s: string, sub: string)
    requires |s| > 0
    ensures forall j :: 0 <= j ==> (OccursAt(s[1..], sub, j) ==> OccursAt(s, sub, j + 1))
    ensures forall j :: 1 <= j ==> (OccursAt(s, sub, j) ==> OccursAt(s[1..], sub, j - 1))
  {
    forall j | 0 <= j && j + |sub| <= |s[1..]|
      ensures OccursAt(s[1..], sub, j) <==> OccursAt(s, sub, j + 1)
    {
      assert s[1..][j..j + |sub|] == s[j + 1..j + 1 + |sub|];
    }
  }

  /** Python's `s.find(sub)`: the index of the first occurrence, or -1. */
  function Find(s: string, sub: string): (r: int)
    requires |sub| > 0
    ensures r == -1 || OccursAt(s, sub, r)
    ensures forall j :: 0 <= j && (r == -1 || j < r) ==> !OccursAt(s, sub, j)
    decreases |s|
  {
    if |s| < |sub| then -1
    else if s[..|sub|] == sub then 0
    else
      var k := Find(s[1..], sub);
      ShiftOccurs(s, sub);
      assert !OccursAt(s, sub, 0) by { assert s[0..|sub|] == s[..|sub|]; }
      if k == -1 then -1 else k + 1
  }

  /** Python's `sub in s`. */
  predicate Contains(s: string, sub: string)
    requires |sub| > 0
  {
    Find(s, sub) != -1
  }

  lemma ContainsIff(s: string, sub: string)
    requires |sub| > 0
    ensures Contains(s, sub) <==> exists i :: OccursAt(s, sub, i)
  {
  }

  /** A prefix holds an occurrence only where the whole string does. */
  lemma PrefixOccurs(s: string, n: int, sub: string, j: int)
    requires 0 <= n <= |s|
    requires OccursAt(s[..n], sub, j)
    ensures OccursAt(s, sub, j) && j + |sub| <= n
  {
    assert s[..n][j..j + |sub|] == s[j..j + |sub|];
  }

  /** Joining with `sep` between consecutive parts (Python's `sep.join(parts)`). */
  function Join(parts: seq<string>, sep: string): string
  {
    if |parts| == 0 then ""
    else if |parts| == 1 then parts[0]
    else parts[0] + sep + Join(parts[1..], sep)
  }

  /** Joining from position `k` on: the part at `k`, the separator, and the join of the rest. */
  lemma JoinStep(parts: seq<string>, k: int, sep: string)
    requires 0 <= k < |parts| - 1
    ensures Join(parts[k..], sep) == parts[k] + sep + Join(parts[k + 1..], sep)
  {
    assert parts[k..][1..] == parts[k + 1..];
  }

  lemma JoinThree(x: string, y: string, z: string, sep: string)
    ensures Join([x, y, z], sep) == x + sep + y + sep + z
  {
    var parts := [x, y, z];
    assert parts[1..] == [y, z] && parts[1..][1..] == [z];
    assert Join([y, z], sep) == y + sep + z;
  }

  /**
   * Python's `s.split(sep)`: the pieces between the non-overlapping
   * occurrences of `sep`, taken from the left.
   */
  function Split(s: string, sep: string): (parts: seq<string>)
    requires |sep| > 0
    ensures |parts| >= 1
    ensures Join(parts, sep) == s
    ensures forall k :: 0 <= k < |parts| ==> !Contains(parts[k], sep)
    ensures var i := Find(s, sep); if i == -1 then parts == [s] else parts[0] == s[..i]
    decreases |s|
  {
    var i := Find(s, sep);
    if i == -1 then [s]
    else
      var rest := Split(s[i + |sep|..], sep);
      var head := s[..i];
      HeadBeforeFirst(s, sep, i);
      JoinCons(head, rest, sep);
      [head] + rest
  }

  /** The text before the first occurrence of `sep` holds none. */
  lemma HeadBeforeFirst(s: string, sep: string, i: int)
    requires |sep| > 0 && i == Find(s, sep) && i != -1
    ensures !Contains(s[..i], sep)
    ensures s == s[..i] + sep + s[i + |sep|..]
  {
    var r := Find(s[..i], sep);
    if r != -1 {
      PrefixOccurs(s, i, sep, r);
    }
    ThreePieces(s, i, i + |sep|);
  }

  lemma ThreePieces(s: string, i: int, j: int)
    requires 0 <= i <= j <= |s|
    ensures s == s[..i] + s[i..j] + s[j..]
  {
  }

  /** Joining a part in front of a nonempty list puts one separator between them. */
  lemma JoinCons(head: string, rest: seq<string>, sep: string)
    requires |rest| > 0
    ensures Join([head] + rest, sep) == head + sep + Join(rest, sep)
  {
    assert ([head] + rest)[1..] == rest;
  }

  /** Python's `s.split(sep, 1)` unpacked into two names: fails unless `sep` occurs. */
  function SplitOnce(s: string, sep: string): (r: Result<(string, string)>)
    requires |sep| > 0
    ensures r.Ok? <==> Contains(s, sep)
    ensures r.Ok? ==> r.value.0 + sep + r.value.1 == s && !Contains(r.value.0, sep)
  {
    var i := Find(s, sep);
    if i == -1 then Err(ValueError("not enough values to unpack"))
    else
      HeadBeforeFirst(s, sep, i);
      Ok((s[..i], s[i + |sep|..]))
  }

  /**
   * Splitting a joined sequence gives the parts back, when no part holds the
   * separator and no part ends in a character of the separator (so no
   * occurrence straddles a part and the separator after it).
   */
  predicate CleanPart(p: string, sep: string)
    requires |sep| > 0
  {
    !Contains(p, sep) && (|p| > 0 ==> p[|p| - 1] !in sep)
  }

  lemma FindAfterCleanPart(p: string, sep: string, rest: string)
    requires |sep| > 0 && CleanPart(p, sep)
    ensures Find(p + sep + rest, sep) == |p|
  {
    var s := p + sep + rest;
    assert OccursAt(s, sep, |p|) by {
      assert s[|p|..|p| + |sep|] == sep;
    }
    forall j | 0 <= j < |p|
      ensures !OccursAt(s, sep, j)
    {
      if OccursAt(s, sep, j) {
        if j + |sep| <= |p| {
          assert p[j..j + |sep|] == s[j..j + |sep|];
          assert OccursAt(p, sep, j);
        }
      }
    }
  }

  lemma {:induction false} SplitJoin(parts: seq<string>, sep: string)
    requires |sep| > 0 && |parts| >= 1
    requires forall k :: 0 <= k < |parts| ==> CleanPart(parts[k], sep)
    ensures Split(Join(parts, sep), sep) == parts
    decreases |parts|
  {
    if |parts| == 1 {
    } else {
      var rest := Join(parts[1..], sep);
      FindAfterCleanPart(parts[0], sep, rest);
      SplitJoin(parts[1..], sep);
      var s := parts[0] + sep + rest;
      assert s[..|parts[0]|] == parts[0];
      assert s[|parts[0]| + |sep|..] == rest;
    }
  }

  /** Joining two non-empty runs of parts puts one separator between their joins. */
  lemma {:induction false} JoinAppend(a: seq<string>, b: seq<string>, sep: string)
    requires |a| > 0 && |b| > 0
    ensures Join(a + b, sep) == Join(a, sep) + sep + Join(b, sep)
    decreases |a|
  {
    if |a| > 1 {
      JoinAppend(a[1..], b, sep);
      assert (a + b)[1..] == a[1..] + b;
    }
  }

  /** A join ends with its last part. */
  lemma {:induction false} JoinEndsWithLast(parts: seq<string>, sep: string)
    requires |parts| >= 1
    ensures EndsWith(Join(parts, sep), parts[|parts| - 1])
    decreases |parts|
  {
    if |parts| > 1 {
      JoinEndsWithLast(parts[1..], sep);
      var rest := Join(parts[1..], sep);
      var last := parts[|parts| - 1];
      assert parts[1..][|parts[1..]| - 1] == last;
      assert (parts[0] + sep + rest)[|parts[0] + sep + rest| - |last|..] == rest[|rest| - |last|..];
    }
  }

  /** `s` ends with `suffix`; `s[-4:] == "date"` is this test for a four-letter suffix. */
  predicate EndsWith(s: string, suffix: string)
  {
    |suffix| <= |s| && s[|s| - |suffix|..] == suffix
  }

  /**
   * Python's `s[-n:]` for n >= 1: the last n characters, or all of `s` when
   * shorter.  For n == 0 this gives the empty text, whereas Python's `s[-0:]`
   * is all of `s`; the only use, `key[-4:]`, never takes n == 0.
   */
  function LastChars(s: string, n: nat): (r: string)
    ensures |r| == if n <= |s| then n else |s|
    ensures EndsWith(s, r)
  {
    if n <= |s| then s[|s| - n..] else s
  }

  lemma LastCharsTest(s: string, suffix: string)
    ensures (LastChars(s, |suffix|) == suffix) <==> EndsWith(s, suffix)
  {
  }

  /** Python's `s.startswith(prefix)`. */
  predicate StartsWith(s: string, prefix: string)
  {
    |prefix| <= |s| && s[..|prefix|] == prefix
  }

  predicate IsDigit(c: char) { '0' <= c <= '9' }

  function DigitValue(c: char): (d: nat)
    requires IsDigit(c)
    ensures d < 10
  {
    (c as int) - ('0' as int)
  }

  function DigitChar(d: nat): (c: char)
    requires d < 10
    ensures IsDigit(c) && DigitValue(c) == d
  {
    (('0' as int) + d) as char
  }

  /** The value of a nonempty string of decimal digits, most significant first. */
  function DigitsValue(s: string): nat
    requires forall i :: 0 <= i < |s| ==> IsDigit(s[i])
  {
    if |s| == 0 then 0 else 10 * DigitsValue(s[..|s| - 1]) + DigitValue(s[|s| - 1])
  }

  /** The decimal digits of n, without leading zeros (`str(n)` for n >= 0). */
  function NatToString(n: nat): (s: string)
    ensures |s| >= 1
    ensures forall i :: 0 <= i < |s| ==> IsDigit(s[i])
    ensures DigitsValue(s) == n
    ensures n > 0 ==> s[0] != '0'
  {
    if n < 10 then [DigitChar(n)]
    else
      var s := NatToString(n / 10) + [DigitChar(n % 10)];
      assert s[..|s| - 1] == NatToString(n / 10);
      s
  }

  /** Python's `str(n)` for an int. */
  function IntToString(n: int): (s: string)
    ensures |s| >= 1
    ensures n >= 0 ==> s == NatToString(n)
    ensures n < 0 ==> s == "-" + NatToString(-n)
  {
    if n >= 0 then NatToString(n) else "-" + NatToString(-n)
  }

  /** The ASCII characters Python's `str.strip()` and `int()` treat as whitespace. */
  predicate IsSpace(c: char)
  {
    c == ' ' || c == '\t' || c == '\n' || c == '\r' || c == '\U{0b}' || c == '\U{0c}' ||
    c == '\U{1c}' || c == '\U{1d}' || c == '\U{1e}' || c == '\U{1f}'
  }

  predicate AllSpace(s: string)
  {
    forall k :: 0 <= k < |s| ==> IsSpace(s[k])
  }

  /** `r` sits at position `i` of `s` with nothing but whitespace around it. */
  predicate StrippedAt(s: string, r: string, i: int)
  {
    0 <= i && i + |r| <= |s| && s[i..i + |r|] == r && AllSpace(s[..i]) && AllSpace(s[i + |r|..])
  }

  /** Python's `s.strip()` for ASCII whitespace. */
  function Strip(s: string): (r: string)
    ensures |r| <= |s|
    ensures |r| > 0 ==> !IsSpace(r[0]) && !IsSpace(r[|r| - 1])
    decreases |s|
  {
    if |s| > 0 && IsSpace(s[0]) then Strip(s[1..])
    else if |s| > 0 && IsSpace(s[|s| - 1]) then Strip(s[..|s| - 1])
    else s
  }

  /**
   * What `strip` leaves: the text inside the surrounding whitespace, which
   * neither begins nor ends with whitespace; nothing is left of a text that
   * is all whitespace.
   */
  lemma {:induction false} StripMeaning(s: string)
    ensures exists i :: StrippedAt(s, Strip(s), i)
    ensures |Strip(s)| > 0 ==> !IsSpace(Strip(s)[0]) && !IsSpace(Strip(s)[|Strip(s)| - 1])
    ensures |Strip(s)| == 0 ==> AllSpace(s)
    decreases |s|
  {
    if |s| > 0 && IsSpace(s[0]) {
      assert Strip(s) == Strip(s[1..]);
      StripMeaning(s[1..]);
      StrippedLeft(s, Strip(s[1..]));
    } else if |s| > 0 && IsSpace(s[|s| - 1]) {
      assert Strip(s) == Strip(s[..|s| - 1]);
      StripMeaning(s[..|s| - 1]);
      StrippedRight(s, s[..|s| - 1], Strip(s[..|s| - 1]));
    } else {
      assert Strip(s) == s;
      assert s[0..0 + |s|] == s && s[..0] == [] && s[|s|..] == [];
      assert StrippedAt(s, s, 0);
    }
  }

  lemma StrippedLeft(s: string, r: string)
    requires |s| > 0 && IsSpace(s[0])
    requires exists i :: StrippedAt(s[1..], r, i)
    requires |r| == 0 ==> AllSpace(s[1..])
    ensures exists i :: StrippedAt(s, r, i)
    ensures |r| == 0 ==> AllSpace(s)
  {
    var i :| StrippedAt(s[1..], r, i);
    assert s[i + 1..i + 1 + |r|] == s[1..][i..i + |r|];
    assert s[..i + 1] == [s[0]] + s[1..][..i];
    assert s[i + 1 + |r|..] == s[1..][i + |r|..];
    assert StrippedAt(s, r, i + 1);
    if |r| == 0 {
      assert s == [s[0]] + s[1..];
    }
  }

  lemma StrippedRight(s: string, t: string, r: string)
    requires |s| > 0 && IsSpace(s[|s| - 1]) && t == s[..|s| - 1]
    requires exists i :: StrippedAt(t, r, i)
    requires |r| == 0 ==> AllSpace(t)
    ensures exists i :: StrippedAt(s, r, i)
    ensures |r| == 0 ==> AllSpace(s)
  {
    var i :| StrippedAt(t, r, i);
    assert s[i..i + |r|] == t[i..i + |r|];
    assert s[..i] == t[..i];
    assert s[i + |r|..] == t[i + |r|..] + [s[|s| - 1]];
    assert StrippedAt(s, r, i);
    if |r| == 0 {
      assert s == t + [s[|s| - 1]];
    }
  }

  predicate AllDigits(s: string)
  {
    forall i :: 0 <= i < |s| ==> IsDigit(s[i])
  }

  /** An optional sign followed by one or more decimal digits. */
  predicate IsNumeral(t: string)
  {
    (|t| >= 1 && AllDigits(t)) || (|t| >= 2 && (t[0] == '-' || t[0] == '+') && AllDigits(t[1..]))
  }

  /**
   * Python's `int(s)` on a string: surrounding whitespace, then an optional
   * sign, then one or more decimal digits, read in base ten; anything else
   * is a ValueError.
   */
  function ParseInt(s: string): (r: Result<int>)
    ensures r.Ok? ==> |Strip(s)| >= 1
  {
    var t := Strip(s);
    if |t| >= 2 && (t[0] == '-' || t[0] == '+') && AllDigits(t[1..]) then
      var v: int := DigitsValue(t[1..]);
      Ok(if t[0] == '-' then -v else v)
    else if |t| >= 1 && AllDigits(t) then Ok(DigitsValue(t))
    else Err(ValueError("invalid literal for int()"))
  }

  /**
   * `int` accepts exactly the numerals inside surrounding whitespace and
   * gives their value in base ten, negated after a minus sign.
   */
  lemma ParseIntMeaning(s: string)
    ensures ParseInt(s).Ok? <==> IsNumeral(Strip(s))
    ensures ParseInt(s).Err? ==> ParseInt(s).error == ValueError("invalid literal for int()")
    ensures ParseInt(s).Ok? && Strip(s)[0] == '-' ==> ParseInt(s).value == -(DigitsValue(Strip(s)[1..]) as int)
    ensures ParseInt(s).Ok? && Strip(s)[0] == '+' ==> ParseInt(s).value == DigitsValue(Strip(s)[1..])
    ensures ParseInt(s).Ok? && IsDigit(Strip(s)[0]) ==> ParseInt(s).value == DigitsValue(Strip(s))
  {
  }

  lemma NoSpaceInDigits(s: string)
    requires AllDigits(s)
    ensures forall i :: 0 <= i < |s| ==> !IsSpace(s[i])
  {
  }

  lemma StripNoSpace(s: string)
    requires forall i :: 0 <= i < |s| ==> !IsSpace(s[i])
    ensures Strip(s) == s
  {
  }

  /** `int(str(n)) == n` for every int. */
  lemma ParseIntToString(n: int)
    ensures ParseInt(IntToString(n)) == Ok(n)
  {
    var s := IntToString(n);
    assert forall i :: 0 <= i < |s| ==> !IsSpace(s[i]);
    StripNoSpace(s);
    if n < 0 {
      assert s[1..] == NatToString(-n);
    }
  }

  /** The number of characters of `s` equal to `c`. */
  function CountChar(s: string, c: char): (n: nat)
    ensures n <= |s|
  {
    if |s| == 0 then 0 else CountChar(s[..|s| - 1], c) + (if s[|s| - 1] == c then 1 else 0)
  }

  /** Occurrences cannot exist when a character of `sub` is missing from `s`. */
  lemma AbsentChar(s: string, sub: string, c: char)
    requires |sub| > 0 && c in sub && c !in s
    ensures !Contains(s, sub)
  {
  }

  /** Occurrences in a concatenation, when neither side holds one and none straddles the seam. */
  lemma NotContainsConcat(a: string, b: string, sep: string)
    requires |sep| > 0 && !Contains(a, sep) && !Contains(b, sep)
    requires |a| == 0 || |b| == 0 || a[|a| - 1] !in sep || b[0] !in sep
    ensures !Contains(a + b, sep)
  {
    var s := a + b;
    forall j | 0 <= j
      ensures !OccursAt(s, sep, j)
    {
      if j + |sep| > |s| {
      } else if j + |sep| <= |a| {
        assert a[j..j + |sep|] == s[j..j + |sep|];
        assert !OccursAt(a, sep, j);
      } else if j >= |a| {
        assert b[j - |a|..j - |a| + |sep|] == s[j..j + |sep|];
        assert !OccursAt(b, sep, j - |a|);
      } else {
        assert s[|a| - 1] == a[|a| - 1] && s[|a|] == b[0];
        assert s[j..j + |sep|][|a| - 1 - j] == a[|a| - 1];
        assert s[j..j + |sep|][|a| - j] == b[0];
      }
    }
  }

  /**
   * Python's `s.replace(target, repl)`: scanning from the left, every
   * occurrence of `target` is replaced and scanning resumes after it, so the
   * replaced occurrences do not overlap.
   */
  function Replace(s: string, target: string, repl: string): string
    requires |target| > 0
    decreases |s|
  {
    if |s| < |target| then s
    else if s[..|target|] == target then repl + Replace(s[|target|..], target, repl)
    else [s[0]] + Replace(s[1..], target, repl)
  }

  /** Nothing changes where the target does not occur. */
  lemma {:induction false} ReplaceAbsent(s: string, target: string, repl: string)
    requires |target| > 0 && !Contains(s, target)
    ensures Replace(s, target, repl) == s
    decreases |s|
  {
    if |s| >= |target| {
      assert !OccursAt(s, target, 0);
      assert s[0..|target|] == s[..|target|];
      ShiftOccurs(s, target);
      assert !Contains(s[1..], target) by {
        var k := Find(s[1..], target);
        assert k == -1 || OccursAt(s, target, k + 1);
      }
      ReplaceAbsent(s[1..], target, repl);
      assert s == [s[0]] + s[1..];
    }
  }

  /** Replacing by something no longer never makes the text longer. */
  lemma {:induction false} ReplaceShrinks(s: string, target: string, repl: string)
    requires |target| > 0 && |repl| <= |target|
    ensures |Replace(s, target, repl)| <= |s|
    decreases |s|
  {
    if |s| >= |target| {
      if s[..|target|] == target {
        ReplaceShrinks(s[|target|..], target, repl);
      } else {
        ReplaceShrinks(s[1..], target, repl);
      }
    }
  }

  /** Replacing by something strictly shorter shortens every text that holds the target. */
  lemma {:induction false} ReplaceDrops(s: string, target: string, repl: string)
    requires |target| > 0 && |repl| < |target| && Contains(s, target)
    ensures |Replace(s, target, repl)| < |s|
    decreases |s|
  {
    if s[..|target|] == target {
      ReplaceShrinks(s[|target|..], target, repl);
    } else {
      var k := Find(s, target);
      assert k != 0 by { assert s[0..|target|] == s[..|target|]; }
      ShiftOccurs(s, target);
      assert OccursAt(s[1..], target, k - 1);
      assert Contains(s[1..], target);
      ReplaceDrops(s[1..], target, repl);
    }
  }

  /** Replacing in a concatenation replaces in each side, when no occurrence can straddle the seam. */
  lemma {:induction false} ReplaceConcat(a: string, b: string, target: string, repl: string)
    requires |target| > 0
    requires |a| == 0 || |b| == 0 || a[|a| - 1] !in target || b[0] !in target
    ensures Replace(a + b, target, repl) == Replace(a, target, repl) + Replace(b, target, repl)
    decreases |a|
  {
    var s := a + b;
    if |a| == 0 {
      assert s == b;
    } else if |a| >= |target| && a[..|target|] == target {
      assert s[..|target|] == target;
      assert s[|target|..] == a[|target|..] + b;
      ReplaceConcat(a[|target|..], b, target, repl);
    } else {
      NoMatchAtStart(a, b, target);
      DropFirst(a, b);
      ReplaceConcat(a[1..], b, target, repl);
      ReplaceHead(a, target, repl);
      ConsConcat(a[0], Replace(a[1..], target, repl), Replace(b, target, repl));
    }
  }

  /** A text that does not start with the target keeps its first letter. */
  lemma ReplaceHead(a: string, target: string, repl: string)
    requires |target| > 0 && |a| > 0 && !(|a| >= |target| && a[..|target|] == target)
    ensures Replace(a, target, repl) == [a[0]] + Replace(a[1..], target, repl)
  {
    if |a| < |target| {
      assert a == [a[0]] + a[1..];
    }
  }

  lemma ConsConcat(x: char, p: string, q: string)
    ensures [x] + p + q == [x] + (p + q)
  {
  }

  /** When `a` does not start with the target, neither does `a + b`, unless an occurrence straddles the seam. */
  lemma NoMatchAtStart(a: string, b: string, target: string)
    requires |target| > 0 && |a| > 0
    requires |b| == 0 || a[|a| - 1] !in target || b[0] !in target
    requires !(|a| >= |target| && a[..|target|] == target)
    ensures !(|a + b| >= |target| && (a + b)[..|target|] == target)
  {
    var s := a + b;
    if |s| >= |target| {
      if |a| >= |target| {
        assert s[..|target|] == a[..|target|];
      } else {
        assert s[..|target|][|a| - 1] == a[|a| - 1];
        assert s[..|target|][|a|] == b[0];
      }
    }
  }

  lemma DropFirst(a: string, b: string)
    requires |a| > 0
    ensures (a + b)[1..] == a[1..] + b
  {
  }

  /** `s.replace(target, repl)` applied to every element. */
  function ReplaceEach(ss: seq<string>, target: string, repl: string): (r: seq<string>)
    requires |target| > 0
    ensures |r| == |ss|
    ensures forall k :: 0 <= k < |ss| ==> r[k] == Replace(ss[k], target, repl)
  {
    if |ss| == 0 then [] else [Replace(ss[0], target, repl)] + ReplaceEach(ss[1..], target, repl)
  }

  /** A join of nonempty parts starts with the first character of the first part and ends with the last of the last part. */
  lemma {:induction false} JoinEdges(parts: seq<string>, sep: string)
    requires |parts| > 0 && forall k :: 0 <= k < |parts| ==> |parts[k]| > 0
    ensures var j := Join(parts, sep);
            |j| > 0 && j[0] == parts[0][0] && j[|j| - 1] == parts[|parts| - 1][|parts[|parts| - 1]| - 1]
    decreases |parts|
  {
    if |parts| > 1 {
      JoinEdges(parts[1..], sep);
    }
  }

  /** The characters at both ends of a text are outside `cs`. */
  predicate EdgesOutside(p: string, cs: string)
  {
    |p| > 0 && p[0] !in cs && p[|p| - 1] !in cs
  }

  /** Replacing in a join replaces in every part and in the separator, when no occurrence can straddle a seam. */
  lemma {:induction false} ReplaceJoin(parts: seq<string>, sep: string, target: string, repl: string)
    requires |target| > 0
    requires forall k :: 0 <= k < |parts| ==> EdgesOutside(parts[k], target)
    ensures Replace(Join(parts, sep), target, repl) == Join(ReplaceEach(parts, target, repl), Replace(sep, target, repl))
    decreases |parts|
  {
    if |parts| == 0 {
      ReplaceAbsent("", target, repl);
    } else if |parts| > 1 {
      var rest := Join(parts[1..], sep);
      JoinEdges(parts[1..], sep);
      assert Join(parts, sep) == parts[0] + (sep + rest);
      ReplaceConcat(parts[0], sep + rest, target, repl);
      ReplaceConcat(sep, rest, target, repl);
      ReplaceJoin(parts[1..], sep, target, repl);
      assert ReplaceEach(parts, target, repl)[1..] == ReplaceEach(parts[1..], target, repl);
    }
  }
}
