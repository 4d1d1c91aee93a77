/**
 * `next_cages_info` of db/utilities.py: the cage number to give an
 * incoming cage, and the numbers skipped below it.  Each existing cage
 * whose successor is free contributes that successor; the last of these is
 * the next cage.
 */
module CageNumbers {
  import opened Wrappers
  import opened Tracking

  /** What `next_cages_info` returns: the next cage alone, or with the skipped numbers below it. */
  datatype NextCages = Next(cage: int) | NextAndSkipped(cage: int, skipped: seq<int>)

  /** The successor of every cage in `seen`, in order, when that successor is not one of `cages`. */
  function FreeSuccessors(seen: seq<int>, cages: seq<int>): (r: seq<int>)
    ensures |r| <= |seen|
    ensures forall k :: 0 <= k < |r| ==> r[k] !in cages
  {
    if |seen| == 0 then []
    else
      var c := seen[|seen| - 1];
      FreeSuccessors(seen[..|seen| - 1], cages) + (if c + 1 !in cages then [c + 1] else [])
  }

  /**
   * The `for` loop and the slicing after it, over the existing cages in the
   * order the set iterates them, which Python does not promise to be
   * ascending.  With no cages the list of skipped numbers is empty and
   * taking its last element fails; otherwise the next cage is the last
   * free successor in that order.
   */
  method NextCagesInfo(cages: seq<int>, returnSkipped: bool) returns (r: Result<NextCages>)
    ensures r.Err? <==> |cages| == 0
    ensures r.Err? ==> r.error == IndexError
    ensures r.Ok? ==> var free := FreeSuccessors(cages, cages);
                      |free| > 0 && r.value.cage == free[|free| - 1]
    ensures r.Ok? ==> (r.value.NextAndSkipped? <==> returnSkipped && |FreeSuccessors(cages, cages)| > 1)
    ensures r.Ok? && r.value.NextAndSkipped? ==>
              r.value.skipped + [r.value.cage] == FreeSuccessors(cages, cages)
  {
    var skipped: seq<int> := [];
    for i := 0 to |cages|
      invariant skipped == FreeSuccessors(cages[..i], cages)
    {
      assert cages[..i + 1] == cages[..i] + [cages[i]];
      FreeSuccessorsSnoc(cages[..i], cages[i], cages);
      if cages[i] + 1 !in cages {
        skipped := skipped + [cages[i] + 1];
      }
    }
    assert cages[..|cages|] == cages;
    if |skipped| == 0 {
      if |cages| > 0 {
        SomeSuccessorFree(cages);
      }
      return Err(IndexError);
    }
    var next := skipped[|skipped| - 1];
    if |skipped| > 1 && returnSkipped {
      assert skipped[..|skipped| - 1] + [next] == skipped;
      return Ok(NextAndSkipped(next, skipped[..|skipped| - 1]));
    } else {
      return Ok(Next(next));
    }
  }

  /** The successor of the largest cage is free, so some successor is reported. */
  lemma SomeSuccessorFree(cages: seq<int>)
    requires |cages| > 0
    ensures |FreeSuccessors(cages, cages)| > 0
  {
    var s := SortedSet(cages);
    var top := s[|s| - 1];
    assert top in s;
    assert top + 1 !in cages by {
      if top + 1 in cages {
        AscendingEnds(s, top + 1);
      }
    }
    FreeSuccessorsMeaning(cages, cages);
    assert top + 1 in FreeSuccessors(cages, cages);
  }

  /** `n` is free and follows one of `cages`: a number the loop collects. */
  predicate FollowsCage(n: int, cages: seq<int>)
  {
    n - 1 in cages && n !in cages
  }

  /**
   * `next_cages_info` as evidently intended, iterating the cages in
   * ascending order: the next cage follows the largest; the skipped
   * numbers are returned exactly when asked for and some free successor
   * lies below the next cage, and they are then all of those, ascending.
   */
  method NextCagesInfoSorted(cages: seq<int>, returnSkipped: bool) returns (r: Result<NextCages>)
    ensures r.Err? <==> |cages| == 0
    ensures r.Err? ==> r.error == IndexError
    ensures r.Ok? ==> r.value.cage - 1 in cages && forall c :: c in cages ==> c < r.value.cage
    ensures r.Ok? ==> (r.value.NextAndSkipped? <==>
                        returnSkipped && exists n :: n < r.value.cage && FollowsCage(n, cages))
    ensures r.Ok? && r.value.NextAndSkipped? ==>
              StrictlyAscending(r.value.skipped + [r.value.cage]) &&
              forall n :: n in r.value.skipped <==> n < r.value.cage && FollowsCage(n, cages)
  {
    var s := SortedSet(cages);
    r := NextCagesInfo(s, returnSkipped);
    if r.Ok? {
      SortedOutcome(s, cages, returnSkipped, r.value);
    }
  }

  /**
   * What the loop and the slicing give over the cages in ascending order,
   * each once: the next cage follows the largest; the skipped numbers come
   * exactly when asked for and one is free below the next cage, and they
   * are then all of those, ascending.
   */
  lemma SortedOutcome(s: seq<int>, cages: seq<int>, returnSkipped: bool, v: NextCages)
    requires StrictlyAscending(s) && |s| > 0 && forall y :: y in s <==> y in cages
    requires var free := FreeSuccessors(s, s);
             |free| > 0 && v.cage == free[|free| - 1] &&
             (v.NextAndSkipped? <==> returnSkipped && |free| > 1) &&
             (v.NextAndSkipped? ==> v.skipped + [v.cage] == free)
    ensures v.cage - 1 in cages && forall c :: c in cages ==> c < v.cage
    ensures v.NextAndSkipped? <==> returnSkipped && exists n :: n < v.cage && FollowsCage(n, cages)
    ensures v.NextAndSkipped? ==>
              StrictlyAscending(v.skipped + [v.cage]) &&
              forall n :: n in v.skipped <==> n < v.cage && FollowsCage(n, cages)
  {
    var free := FreeSuccessors(s, s);
    AscendingSuccessors(s, cages);
    BelowLast(free, cages);
    if v.NextAndSkipped? {
      assert v.skipped == free[..|free| - 1];
    }
  }

  /**
   * Over the distinct cages in ascending order, the free successors
   * ascend, the last follows the largest cage and so exceeds every cage,
   * and they are exactly the numbers that follow a cage and are free.
   */
  lemma AscendingSuccessors(s: seq<int>, cages: seq<int>)
    requires StrictlyAscending(s) && |s| > 0 && forall y :: y in s <==> y in cages
    ensures var free := FreeSuccessors(s, s);
            StrictlyAscending(free) && |free| > 0 && free[|free| - 1] == s[|s| - 1] + 1 &&
            free[|free| - 1] - 1 in cages && (forall c :: c in cages ==> c < free[|free| - 1]) &&
            forall n :: n in free <==> FollowsCage(n, cages)
  {
    LastIsNext(s);
    forall c | c in cages
      ensures c < s[|s| - 1] + 1
    {
      AscendingEnds(s, c);
    }
    FreeSuccessorsAscending(s, s);
    forall n
      ensures n in FreeSuccessors(s, s) <==> FollowsCage(n, cages)
    {
      FreeSuccessorsMeaning(s, s);
    }
  }

  /**
   * In an ascending list of the free successors of some cages, the
   * elements before the last are exactly the free successors below it,
   * and there are some exactly when one lies below it.
   */
  lemma BelowLast(free: seq<int>, cages: seq<int>)
    requires StrictlyAscending(free) && |free| > 0
    requires forall n :: n in free <==> FollowsCage(n, cages)
    ensures forall n :: n in free[..|free| - 1] <==> n < free[|free| - 1] && FollowsCage(n, cages)
    ensures |free| > 1 <==> exists n :: n < free[|free| - 1] && FollowsCage(n, cages)
  {
    var front, next := free[..|free| - 1], free[|free| - 1];
    forall n
      ensures n in front <==> n < next && FollowsCage(n, cages)
    {
      if n in front {
        var k :| 0 <= k < |front| && front[k] == n;
        assert free[k] == n && free[k] < next;
        assert n in free;
      }
      if n < next && FollowsCage(n, cages) {
        assert n in free;
        var k :| 0 <= k < |free| && free[k] == n;
        assert front[k] == n;
      }
    }
    if |free| > 1 {
      var n := front[0];
      assert n in front;
      assert n < next && FollowsCage(n, cages);
    }
    if exists n :: n < next && FollowsCage(n, cages) {
      var n :| n < next && FollowsCage(n, cages);
      assert n in front;
      assert |front| > 0;
    }
  }

  /** The set {1, 8} iterates as [8, 1] in CPython: the next cage is then 2, with 9 skipped. */
  lemma UnorderedSuccessors()
    ensures FreeSuccessors([8, 1], [8, 1]) == [9, 2]
  {
    assert [8, 1][..1] == [8] && [8][..0] == [];
  }

  /** One more cage seen adds its successor when that is free. */
  lemma FreeSuccessorsSnoc(seen: seq<int>, c: int, cages: seq<int>)
    ensures FreeSuccessors(seen + [c], cages) == FreeSuccessors(seen, cages) + (if c + 1 !in cages then [c + 1] else [])
  {
    var longer := seen + [c];
    assert longer[|longer| - 1] == c;
    assert longer[..|longer| - 1] == seen;
  }

  /** Each number reported is free and follows a cage: the first free number after a run of cages. */
  lemma {:induction false} FreeSuccessorsMeaning(seen: seq<int>, cages: seq<int>)
    ensures forall n :: n in FreeSuccessors(seen, cages) <==> n - 1 in seen && n !in cages
  {
    if |seen| > 0 {
      var front := seen[..|seen| - 1];
      FreeSuccessorsMeaning(front, cages);
      assert seen == front + [seen[|seen| - 1]];
    }
  }

  /** The numbers are reported in ascending order, so none twice. */
  lemma {:induction false} FreeSuccessorsAscending(seen: seq<int>, cages: seq<int>)
    requires StrictlyAscending(seen)
    ensures StrictlyAscending(FreeSuccessors(seen, cages))
  {
    if |seen| > 0 {
      var front := seen[..|seen| - 1];
      FreeSuccessorsAscending(front, cages);
      FreeSuccessorsMeaning(front, cages);
      var tail := FreeSuccessors(front, cages);
      forall k | 0 <= k < |tail|
        ensures tail[k] < seen[|seen| - 1] + 1
      {
        assert tail[k] in tail;
        var j :| 0 <= j < |front| && front[j] == tail[k] - 1;
      }
    }
  }

  /** The successor of the highest cage is always free, and is reported last. */
  lemma LastIsNext(cages: seq<int>)
    requires StrictlyAscending(cages) && |cages| > 0
    ensures |FreeSuccessors(cages, cages)| > 0
    ensures FreeSuccessors(cages, cages)[|FreeSuccessors(cages, cages)| - 1] == cages[|cages| - 1] + 1
  {
    var top := cages[|cages| - 1];
    assert cages[..|cages| - 1] + [top] == cages;
    assert top + 1 !in cages by {
      forall k | 0 <= k < |cages|
        ensures cages[k] != top + 1
      {
        if k < |cages| - 1 {
          assert cages[k] < top;
        }
      }
    }
  }
}
