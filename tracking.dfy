/**
 * The cage-number and option rules of labbookdb/report/tracking.py:
 * `further_cages`, which finds the next open cage number and the numbers
 * skipped below it, and the `level` default of `treatment_onsets`.
 */
module Tracking {
  import opened Wrappers
  import Text

  /** The cage numbers as the loop sees them: ascending, without repeats. */
  predicate StrictlyAscending(s: seq<int>)
  {
    forall i, j :: 0 <= i < j < |s| ==> s[i] < s[j]
  }

  /** The numbers `lo`, `lo + 1`, ..., `hi - 1`. */
  function Range(lo: int, hi: int): (r: seq<int>)
    ensures |r| == (if lo < hi then hi - lo else 0)
    ensures forall k :: 0 <= k < |r| ==> r[k] == lo + k
    decreases hi - lo
  {
    if lo >= hi then [] else [lo] + Range(lo + 1, hi)
  }

  /**
   * The inner `while` loop from the number `n` on: numbers absent from the
   * cages are collected until a present one or `last` is reached.
   */
  function Scan(cages: seq<int>, n: int, last: int): (r: seq<int>)
    ensures forall k :: 0 <= k < |r| ==> r[k] == n + k && r[k] !in cages && r[k] < last
    decreases last - n
  {
    if n >= last then []
    else if n !in cages then [n] + Scan(cages, n + 1, last)
    else []
  }

  /** The skipped numbers after scanning from each of the first `i` cages, in loop order. */
  function SkippedUpTo(cages: seq<int>, i: int, last: int): seq<int>
    requires 0 <= i <= |cages|
  {
    if i == 0 then [] else SkippedUpTo(cages, i - 1, last) + Scan(cages, cages[i - 1] + 1, last)
  }

  /** What `further_cages` prints: the next open number, and the skipped numbers or "None". */
  datatype CageReport = CageReport(next: int, skipped: seq<int>)

  /**
   * `further_cages` on the cage numbers in the order `list(set(...))` lists
   * them, which Python does not promise to be ascending: the next open
   * cage follows the last one listed, and each cage is followed by the
   * absent numbers up to the next present one or the last cage listed.
   */
  method FurtherCages(cages: seq<int>) returns (r: Result<CageReport>)
    ensures r.Err? <==> |cages| == 0
    ensures r.Err? ==> r.error == IndexError
    ensures r.Ok? ==> r.value.next == cages[|cages| - 1] + 1
    ensures r.Ok? ==> r.value.skipped == SkippedUpTo(cages, |cages|, cages[|cages| - 1])
  {
    if |cages| == 0 {
      return Err(IndexError);
    }
    var last := cages[|cages| - 1];
    var skipped: seq<int> := [];
    for i := 0 to |cages|
      invariant skipped == SkippedUpTo(cages, i, last)
    {
      var cage := cages[i];
      var increment := 1;
      while true
        invariant skipped + Scan(cages, cage + increment, last) == SkippedUpTo(cages, i + 1, last)
        decreases last - (cage + increment)
      {
        if cage + increment >= last {
          assert Scan(cages, cage + increment, last) == [];
          assert skipped + [] == skipped;
          break;
        }
        if cage + increment !in cages {
          skipped := skipped + [cage + increment];
          increment := increment + 1;
        } else {
          assert skipped + [] == skipped;
          break;
        }
      }
    }
    return Ok(CageReport(last + 1, skipped));
  }

  /** The text printed for the skipped numbers: "None" when there are none. */
  function SkippedText(skipped: seq<int>): (r: seq<string>)
    ensures |skipped| == 0 <==> r == ["None"]
  {
    if |skipped| == 0 then ["None"]
    else
      var r := NumberTexts(skipped);
      assert r[0] != "None" by {
        assert r[0][0] == '-' || Text.IsDigit(r[0][0]);
      }
      r
  }

  function NumberTexts(ns: seq<int>): (r: seq<string>)
    ensures |r| == |ns| && forall k :: 0 <= k < |ns| ==> r[k] == Text.IntToString(ns[k])
  {
    if |ns| == 0 then [] else [Text.IntToString(ns[0])] + NumberTexts(ns[1..])
  }

  /** Between two consecutive cages the scan collects exactly the numbers between them. */
  lemma {:induction false} ScanBetween(cages: seq<int>, i: int, n: int, last: int)
    requires StrictlyAscending(cages) && 0 <= i < |cages| - 1 && cages[|cages| - 1] == last
    requires cages[i] < n <= cages[i + 1]
    ensures Scan(cages, n, last) == Range(n, cages[i + 1])
    decreases cages[i + 1] - n
  {
    if n < cages[i + 1] {
      Between(cages, i, n);
      assert n < last by {
        assert cages[i + 1] <= last;
      }
      ScanBetween(cages, i, n + 1, last);
    } else {
      assert n in cages by {
        assert cages[i + 1] == n;
      }
    }
  }

  /**
   * The skipped numbers are the gaps between consecutive cages, in order:
   * scanning from the last cage finds nothing.
   */
  lemma {:induction false} SkippedAreGaps(cages: seq<int>, i: int)
    requires StrictlyAscending(cages) && |cages| > 0 && 1 <= i <= |cages|
    ensures SkippedUpTo(cages, i, cages[|cages| - 1]) == Gaps(cages, i)
  {
    var last := cages[|cages| - 1];
    if i > 1 {
      SkippedAreGaps(cages, i - 1);
      ScanBetweenFrom(cages, i - 1, last);
      ScanStep(cages, i, last);
    } else {
      ScanBetweenFrom(cages, 0, last);
      assert SkippedUpTo(cages, 1, last) == [] + Scan(cages, cages[0] + 1, last);
    }
  }

  /** One more cage adds the same numbers to the scan and to the gaps. */
  lemma ScanStep(cages: seq<int>, i: int, last: int)
    requires 1 < i <= |cages|
    requires SkippedUpTo(cages, i - 1, last) == Gaps(cages, i - 1)
    requires Scan(cages, cages[i - 1] + 1, last) == if i < |cages| then Range(cages[i - 1] + 1, cages[i]) else []
    ensures SkippedUpTo(cages, i, last) == Gaps(cages, i)
  {
  }

  /** Scanning from cage `i` gives the gap up to the next cage, or nothing after the last. */
  lemma ScanBetweenFrom(cages: seq<int>, i: int, last: int)
    requires StrictlyAscending(cages) && 0 <= i < |cages| && cages[|cages| - 1] == last
    ensures Scan(cages, cages[i] + 1, last) == if i < |cages| - 1 then Range(cages[i] + 1, cages[i + 1]) else []
  {
    if i < |cages| - 1 {
      ScanBetween(cages, i, cages[i] + 1, last);
    }
  }

  /** The gaps after each of the first `i` cages: the numbers strictly between consecutive cages. */
  function Gaps(cages: seq<int>, i: int): seq<int>
    requires 1 <= i <= |cages|
  {
    if i == 1 then (if |cages| > 1 then Range(cages[0] + 1, cages[1]) else [])
    else Gaps(cages, i - 1) + (if i < |cages| then Range(cages[i - 1] + 1, cages[i]) else [])
  }

  /**
   * The gaps after the first `i` cages are ascending and hold exactly the
   * absent numbers between the first cage and the cage after them (the
   * last cage, once all are taken).
   */
  lemma {:induction false} GapsMeaning(cages: seq<int>, i: int)
    requires StrictlyAscending(cages) && 1 <= i <= |cages|
    ensures StrictlyAscending(Gaps(cages, i))
    ensures i < |cages| ==> forall n :: n in Gaps(cages, i) <==> cages[0] < n < cages[i] && n !in cages
    ensures i == |cages| ==> forall n :: n in Gaps(cages, i) <==> cages[0] < n < cages[|cages| - 1] && n !in cages
  {
    if i == 1 {
      if |cages| > 1 {
        RangeMembers(cages, 0, Range(cages[0] + 1, cages[1]));
      }
    } else {
      GapsMeaning(cages, i - 1);
      if i < |cages| {
        GapsStep(cages, i);
      } else {
        assert Gaps(cages, i) == Gaps(cages, i - 1) + [];
      }
    }
  }

  /** Adding the gap after cage `i - 1` extends the absent numbers up to cage `i`. */
  lemma GapsStep(cages: seq<int>, i: int)
    requires StrictlyAscending(cages) && 2 <= i < |cages|
    requires StrictlyAscending(Gaps(cages, i - 1))
    requires forall n :: n in Gaps(cages, i - 1) <==> cages[0] < n < cages[i - 1] && n !in cages
    ensures StrictlyAscending(Gaps(cages, i))
    ensures forall n :: n in Gaps(cages, i) <==> cages[0] < n < cages[i] && n !in cages
  {
    var before := Gaps(cages, i - 1);
    var gap := Range(cages[i - 1] + 1, cages[i]);
    assert Gaps(cages, i) == before + gap;
    RangeMembers(cages, i - 1, gap);
    assert forall x, y :: 0 <= x < |before| && 0 <= y < |gap| ==> before[x] < gap[y] by {
      forall x, y | 0 <= x < |before| && 0 <= y < |gap|
        ensures before[x] < gap[y]
      {
        // instantiates the description of `before`, which is triggered on membership in the cages
        assert before[x] in before && before[x] !in cages;
        assert gap[y] in gap;
      }
    }
    AppendAscending(before, gap);
    assert cages[0] < cages[i - 1] && cages[i - 1] in cages;
    forall n
      ensures n in before + gap <==> cages[0] < n < cages[i] && n !in cages
    {
      if n in before {
        assert n !in cages && cages[i - 1] < cages[i];
      } else if n in gap {
        assert cages[0] < cages[i - 1] < n;
      }
    }
  }

  /** A number strictly between two consecutive cages is not a cage. */
  lemma Between(cages: seq<int>, i: int, n: int)
    requires StrictlyAscending(cages) && 0 <= i < |cages| - 1 && cages[i] < n < cages[i + 1]
    ensures n !in cages
  {
    forall k | 0 <= k < |cages|
      ensures cages[k] != n
    {
      if k < i {
        assert cages[k] < cages[i];
      } else if k > i + 1 {
        assert cages[i + 1] < cages[k];
      }
    }
  }

  /** The numbers strictly between cage `i` and cage `i + 1`, ascending. */
  lemma RangeMembers(cages: seq<int>, i: int, r: seq<int>)
    requires StrictlyAscending(cages) && 0 <= i < |cages| - 1
    requires r == Range(cages[i] + 1, cages[i + 1])
    ensures StrictlyAscending(r)
    ensures forall n :: n in r <==> cages[i] < n < cages[i + 1]
    ensures forall n :: n in r ==> n !in cages
  {
    forall n | cages[i] < n < cages[i + 1]
      ensures n in r
    {
      assert r[n - cages[i] - 1] == n;
    }
    forall k | 0 <= k < |r|
      ensures r[k] !in cages
    {
      Between(cages, i, r[k]);
    }
    assert forall n :: n in r ==> exists k :: 0 <= k < |r| && r[k] == n;
  }

  lemma AppendAscending(a: seq<int>, b: seq<int>)
    requires StrictlyAscending(a) && StrictlyAscending(b)
    requires forall x, y :: 0 <= x < |a| && 0 <= y < |b| ==> a[x] < b[y]
    ensures StrictlyAscending(a + b)
  {
  }

  /** One number added to an ascending list without repeats, keeping it so. */
  function AddSorted(x: int, r: seq<int>): (t: seq<int>)
    requires StrictlyAscending(r)
    ensures StrictlyAscending(t)
    ensures forall y :: y in t <==> y == x || y in r
    decreases |r|
  {
    if |r| == 0 then [x]
    else if x < r[0] then [x] + r
    else if x == r[0] then r
    else
      var rest := AddSorted(x, r[1..]);
      assert forall k :: 0 <= k < |rest| ==> r[0] < rest[k] by {
        forall k | 0 <= k < |rest|
          ensures r[0] < rest[k]
        {
          assert rest[k] in rest;
          if rest[k] != x {
            var j :| 0 <= j < |r[1..]| && r[1..][j] == rest[k];
            assert r[j + 1] == rest[k];
          }
        }
      }
      assert r == [r[0]] + r[1..];
      [r[0]] + rest
  }

  /** `sorted(set(cages))`: the distinct cage numbers in ascending order. */
  function SortedSet(cages: seq<int>): (s: seq<int>)
    ensures StrictlyAscending(s)
    ensures forall y :: y in s <==> y in cages
    ensures |s| == 0 <==> |cages| == 0
  {
    if |cages| == 0 then []
    else
      var s := AddSorted(cages[|cages| - 1], SortedSet(cages[..|cages| - 1]));
      assert cages == cages[..|cages| - 1] + [cages[|cages| - 1]];
      assert cages[|cages| - 1] in s;
      s
  }

  /** The first entry of an ascending list is its least and the last its greatest. */
  lemma AscendingEnds(s: seq<int>, y: int)
    requires StrictlyAscending(s) && y in s
    ensures s[0] <= y <= s[|s| - 1]
  {
    var k :| 0 <= k < |s| && s[k] == y;
    if 0 < k < |s| - 1 {
      assert s[0] < s[k] < s[|s| - 1];
    }
  }

  /**
   * `further_cages` as evidently intended, on `sorted(set(...))`: the next
   * open cage follows the largest cage, and the skipped numbers ascend and
   * are exactly the unused numbers between the smallest and the largest.
   */
  method FurtherCagesSorted(cages: seq<int>) returns (r: Result<CageReport>)
    ensures r.Err? <==> |cages| == 0
    ensures r.Ok? ==> r.value.next - 1 in cages && forall c :: c in cages ==> c < r.value.next
    ensures r.Ok? ==> StrictlyAscending(r.value.skipped)
    ensures r.Ok? ==> var s := SortedSet(cages);
                      forall n :: n in r.value.skipped <==> s[0] < n < s[|s| - 1] && n !in cages
  {
    var s := SortedSet(cages);
    r := FurtherCages(s);
    if r.Ok? {
      SkippedMeaning(s);
      forall c | c in cages
        ensures c < r.value.next
      {
        AscendingEnds(s, c);
      }
    }
  }

  /**
   * The order `list(set(...))` gives {1, 8} in CPython is [8, 1]: the
   * loop then reports 2 as the next open cage, below the existing cage 8,
   * and skips nothing, where the ascending order gives 9 and 2 to 7.
   */
  lemma UnorderedCages()
    ensures var listed := [8, 1];
            listed[|listed| - 1] + 1 == 2 && SkippedUpTo(listed, |listed|, listed[|listed| - 1]) == []
    ensures SortedSet([8, 1]) == [1, 8]
  {
    var listed := [8, 1];
    assert Scan(listed, 9, 1) == [] && Scan(listed, 2, 1) == [];
    assert SkippedUpTo(listed, 2, 1) == SkippedUpTo(listed, 1, 1) + Scan(listed, 2, 1);
    assert SortedSet([8]) == [8] by {
      assert [8][..0] == [];
    }
    assert [8, 1][..1] == [8];
  }

  /**
   * What `further_cages` reports about the skipped numbers: they are in
   * ascending order, so none is reported twice, and they are exactly the
   * numbers absent from the cages between the first cage and the last.
   */
  lemma SkippedMeaning(cages: seq<int>)
    requires StrictlyAscending(cages) && |cages| > 0
    ensures var skipped := SkippedUpTo(cages, |cages|, cages[|cages| - 1]);
            StrictlyAscending(skipped) &&
            forall n :: n in skipped <==> cages[0] < n < cages[|cages| - 1] && n !in cages
  {
    SkippedAreGaps(cages, |cages|);
    GapsMeaning(cages, |cages|);
  }

  /** The query `treatment_onsets` runs for a level. */
  datatype Onsets = AnimalTreatments(codes: seq<string>)

  /**
   * `treatment_onsets`: an empty level means "animal"; the cage level names
   * an undefined variable, and any other level leaves the result unbound.
   */
  function TreatmentOnsets(level: string, codes: seq<string>): (r: Result<Onsets>)
    ensures r.Ok? <==> level == "" || level == "animal"
    ensures r.Ok? ==> r.value == AnimalTreatments(codes)
    ensures level == "cage" ==> r == Err(NameError("cage_treatments"))
  {
    var level := if level == "" then "animal" else level;
    if level == "animal" then Ok(AnimalTreatments(codes))
    else if level == "cage" then Err(NameError("cage_treatments"))
    else Err(NameError("df"))
  }
}
