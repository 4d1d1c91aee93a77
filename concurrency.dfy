/**
 * `concurrent_cagetreatment` of labbookdb/report/utilities.py: the rows of
 * a table of cage treatments are kept only when the treatment began while
 * the animal was housed in the cage, and before the animal's death.
 */
module Concurrency {
  import opened Wrappers
  import opened DateTimes

  /** A date cell of a table; `None` is pandas' missing value NaT. */
  type Cell = Option<DateTime>

  /** `a <= b` on two cells: false as soon as either is NaT. */
  predicate AtOrBefore(a: Cell, b: Cell)
  {
    a.Some? && b.Some? && !Before(b.value, a.value)
  }

  /** `a == b` on two cells: NaT equals nothing, itself included. */
  predicate SameDate(a: Cell, b: Cell)
  {
    a.Some? && b.Some? && a.value == b.value
  }

  /** A row of the treatment table. */
  datatype Row = Row(animal: int, deathDate: Cell, stayStart: Cell, treatmentStart: Cell, treatmentEnd: Cell, protocol: string)

  /** A row of the cage-stay table. */
  datatype StayRow = StayRow(animal: int, start: Cell, end: Cell)

  /** Whether stay row `i` is a stay of `subject` that began on `start`. */
  predicate StayMatches(stays: seq<StayRow>, i: int, subject: int, start: Cell)
    requires 0 <= i < |stays|
  {
    stays[i].animal == subject && SameDate(stays[i].start, start)
  }

  /** The position of the first stay of `subject` that began on `start`, or -1. */
  function FirstStay(stays: seq<StayRow>, subject: int, start: Cell, lo: int): (r: int)
    requires 0 <= lo <= |stays|
    ensures r == -1 || lo <= r < |stays|
    ensures r == -1 <==> forall i :: lo <= i < |stays| ==> !StayMatches(stays, i, subject, start)
    ensures r != -1 ==> StayMatches(stays, r, subject, start) &&
                        forall i :: lo <= i < r ==> !StayMatches(stays, i, subject, start)
    decreases |stays| - lo
  {
    if lo == |stays| then -1
    else if StayMatches(stays, lo, subject, start) then lo
    else FirstStay(stays, subject, start, lo + 1)
  }

  /** The end of the first stay of `subject` that began on `start`; `None` when there is none (the `[0]` fails). */
  function StayEnd(stays: seq<StayRow>, subject: int, start: Cell): Option<Cell>
  {
    var i := FirstStay(stays, subject, start, 0);
    if i == -1 then None else Some(stays[i].end)
  }

  /** The treatment start of the first row of `subject` whose stay began on `start`. */
  function TreatmentStart(df: seq<Row>, subject: int, start: Cell): (r: Option<Cell>)
    ensures r.None? <==> forall k :: 0 <= k < |df| ==> !(df[k].animal == subject && SameDate(df[k].stayStart, start))
  {
    if |df| == 0 then None
    else if df[0].animal == subject && SameDate(df[0].stayStart, start) then Some(df[0].treatmentStart)
    else
      var r := TreatmentStart(df[1..], subject, start);
      assert forall k :: 1 <= k < |df| ==> df[k] == df[1..][k - 1];
      r
  }

  /** The death date on the first row of `subject`. */
  function DeathDate(df: seq<Row>, subject: int): (r: Option<Cell>)
    ensures r.None? <==> forall k :: 0 <= k < |df| ==> df[k].animal != subject
  {
    if |df| == 0 then None
    else if df[0].animal == subject then Some(df[0].deathDate)
    else
      var r := DeathDate(df[1..], subject);
      assert forall k :: 1 <= k < |df| ==> df[k] == df[1..][k - 1];
      r
  }

  /**
   * Whether the rows of `subject` whose stay began on `start` are dropped:
   * the treatment began on or before the stay began, on or after it ended,
   * or on or after the death date.  The treatment end is not consulted.
   */
  function Drops(df: seq<Row>, stays: seq<StayRow>, subject: int, start: Cell): (r: Result<bool>)
    ensures r.Err? <==> StayEnd(stays, subject, start).None? || TreatmentStart(df, subject, start).None? || DeathDate(df, subject).None?
    ensures r.Err? ==> r.error == IndexError
  {
    match StayEnd(stays, subject, start)
    case None => Err(IndexError)
    case Some(end) =>
      match TreatmentStart(df, subject, start)
      case None => Err(IndexError)
      case Some(begun) =>
        match DeathDate(df, subject)
        case None => Err(IndexError)
        case Some(death) =>
          Ok(AtOrBefore(begun, start) || AtOrBefore(end, begun) || AtOrBefore(death, begun))
  }

  /** The decision for row `k`, made for the group of rows it belongs to. */
  function RowDrops(df: seq<Row>, stays: seq<StayRow>, k: int): Result<bool>
    requires 0 <= k < |df|
  {
    Drops(df, stays, df[k].animal, df[k].stayStart)
  }

  /** The decision for every row. */
  function Decisions(df: seq<Row>, stays: seq<StayRow>, n: int): (r: seq<Result<bool>>)
    requires 0 <= n <= |df|
    ensures |r| == n && forall k :: 0 <= k < n ==> r[k] == RowDrops(df, stays, k)
  {
    if n == 0 then [] else Decisions(df, stays, n - 1) + [RowDrops(df, stays, n - 1)]
  }

  /** The rows among the first `n` that are not dropped, in order. */
  function Kept(df: seq<Row>, dec: seq<Result<bool>>, n: int): seq<Row>
    requires 0 <= n <= |df| == |dec|
  {
    if n == 0 then []
    else Kept(df, dec, n - 1) + (if dec[n - 1] == Ok(true) then [] else [df[n - 1]])
  }

  /**
   * The table `concurrent_cagetreatment` returns: a failed lookup for any
   * row is an IndexError; otherwise the rows not dropped.
   */
  function Concurrent(df: seq<Row>, stays: seq<StayRow>): Result<seq<Row>>
  {
    var dec := Decisions(df, stays, |df|);
    if forall k :: 0 <= k < |df| ==> dec[k].Ok? then Ok(Kept(df, dec, |df|))
    else Err(IndexError)
  }

  /** `df['Animal_id'].unique()`: each animal once, in order of first appearance. */
  function Unique(df: seq<Row>, n: int): (r: seq<int>)
    requires 0 <= n <= |df|
    ensures forall a :: a in r <==> exists k :: 0 <= k < n && df[k].animal == a
    ensures forall i, j :: 0 <= i < j < |r| ==> r[i] != r[j]
  {
    if n == 0 then []
    else
      var front := Unique(df, n - 1);
      if df[n - 1].animal in front then front else front + [df[n - 1].animal]
  }

  /** The positions of the rows of `subject`, ascending. */
  function RowsOf(df: seq<Row>, subject: int, n: int): (r: seq<int>)
    requires 0 <= n <= |df|
    ensures forall k :: k in r <==> 0 <= k < n && df[k].animal == subject
    ensures forall j :: 0 <= j < |r| ==> 0 <= r[j] < |df|
  {
    if n == 0 then []
    else RowsOf(df, subject, n - 1) + (if df[n - 1].animal == subject then [n - 1] else [])
  }

  /** The positions of the rows of `subject` whose stay began on `start`: the rows the source drops together. */
  function Group(df: seq<Row>, subject: int, start: Cell, n: int): (r: seq<int>)
    requires 0 <= n <= |df|
    ensures forall k :: k in r <==> 0 <= k < n && df[k].animal == subject && SameDate(df[k].stayStart, start)
  {
    if n == 0 then []
    else Group(df, subject, start, n - 1) + (if df[n - 1].animal == subject && SameDate(df[n - 1].stayStart, start) then [n - 1] else [])
  }

  /** `df.drop(drop)`: the rows among the first `n` whose position is not listed. */
  function Without(df: seq<Row>, drop: seq<int>, n: int): seq<Row>
    requires 0 <= n <= |df|
  {
    if n == 0 then [] else Without(df, drop, n - 1) + (if n - 1 in drop then [] else [df[n - 1]])
  }

  /** Whether row `k` has been dropped by the time the loops have seen the `subjects` and the `starts` of the current subject. */
  predicate Covered(df: seq<Row>, dec: seq<Result<bool>>, k: int, done: seq<int>, subject: int, starts: seq<Cell>)
    requires 0 <= k < |df| == |dec|
  {
    dec[k] == Ok(true) &&
    (df[k].animal in done || (df[k].animal == subject && df[k].stayStart in starts))
  }

  /**
   * The nested loops over each animal and each of its stays, which collect
   * the positions of the rows to drop, and the single drop after them.
   */
  method ConcurrentCageTreatment(df: seq<Row>, stays: seq<StayRow>) returns (r: Result<seq<Row>>)
    ensures r == Concurrent(df, stays)
  {
    ghost var dec := Decisions(df, stays, |df|);
    var dropIdx: seq<int> := [];
    var subjects := Unique(df, |df|);
    for s := 0 to |subjects|
      invariant forall k :: 0 <= k < |df| && df[k].animal in subjects[..s] ==> dec[k].Ok?
      invariant forall k :: k in dropIdx <==> 0 <= k < |df| && Covered(df, dec, k, subjects[..s], -1, [])
    {
      var subject := subjects[s];
      assert subject !in subjects[..s];
      var next := DropStays(df, stays, dec, subject, subjects[..s], dropIdx);
      if next.Err? {
        return Err(IndexError);
      }
      dropIdx := next.value;
      SliceNext(subjects, s);
    }
    assert subjects[..|subjects|] == subjects;
    r := Ok(Without(df, dropIdx, |df|));
    WithoutIsKept(df, dec, dropIdx, |df|);
  }

  /**
   * The inner loop, over the stay start of each row of `subject`: the
   * lookups of the stay end, the treatment start and the death date, and
   * the positions of the group added to `dropIdx` when it is dropped.
   */
  method DropStays(df: seq<Row>, stays: seq<StayRow>, ghost dec: seq<Result<bool>>, subject: int,
                   ghost done: seq<int>, dropIdx: seq<int>) returns (r: Result<seq<int>>)
    requires dec == Decisions(df, stays, |df|)
    requires subject !in done
    requires forall k :: k in dropIdx <==> 0 <= k < |df| && Covered(df, dec, k, done, -1, [])
    ensures r.Err? ==> r.error == IndexError && exists k :: 0 <= k < |df| && df[k].animal == subject && !dec[k].Ok?
    ensures r.Ok? ==> forall k :: 0 <= k < |df| && df[k].animal == subject ==> dec[k].Ok?
    ensures r.Ok? ==> forall k :: k in r.value <==> 0 <= k < |df| && Covered(df, dec, k, done + [subject], -1, [])
  {
    var dropped := dropIdx;
    var rows := RowsOf(df, subject, |df|);
    var starts: seq<Cell> := [];
    for t := 0 to |rows|
      invariant starts == StartsOf(df, rows, t)
      invariant forall j :: 0 <= j < t ==> dec[rows[j]].Ok?
      invariant Listed(df, dec, dropped, done, subject, starts)
    {
      var stayStart := df[rows[t]].stayStart;
      assert rows[t] in rows;
      var next := DropRow(df, stays, dec, rows[t], subject, done, starts, dropped);
      if next.Err? {
        return Err(IndexError);
      }
      dropped := next.value;
      starts := starts + [stayStart];
    }
    SubjectDone(df, dec, dropped, done, subject, rows, starts);
    return Ok(dropped);
  }

  /** `dropped` lists exactly the rows dropped so far. */
  ghost predicate Listed(df: seq<Row>, dec: seq<Result<bool>>, dropped: seq<int>, done: seq<int>, subject: int, starts: seq<Cell>)
    requires |dec| == |df|
  {
    forall k :: k in dropped <==> 0 <= k < |df| && Covered(df, dec, k, done, subject, starts)
  }

  /** One pass of the inner loop, for the row at position `k` of `subject`. */
  method DropRow(df: seq<Row>, stays: seq<StayRow>, ghost dec: seq<Result<bool>>, k: int, subject: int,
                 ghost done: seq<int>, ghost starts: seq<Cell>, dropped: seq<int>) returns (r: Result<seq<int>>)
    requires dec == Decisions(df, stays, |df|)
    requires 0 <= k < |df| && df[k].animal == subject
    requires subject !in done
    requires Listed(df, dec, dropped, done, subject, starts)
    ensures r.Err? <==> !dec[k].Ok?
    ensures r.Err? ==> r.error == IndexError
    ensures r.Ok? ==> Listed(df, dec, r.value, done, subject, starts + [df[k].stayStart])
  {
    r := DropGroup(df, stays, dec, k, subject, df[k].stayStart, dropped);
    if r.Ok? {
      GroupStep(df, stays, dec, k, dropped, done, subject, starts, df[k].stayStart);
    }
  }

  /**
   * One pass of the inner loop: the lookups of the stay end, the treatment
   * start and the death date, and the positions of the group added to
   * `dropped` when it is dropped.
   */
  method DropGroup(df: seq<Row>, stays: seq<StayRow>, ghost dec: seq<Result<bool>>, ghost k: int,
                   subject: int, stayStart: Cell, dropped: seq<int>) returns (r: Result<seq<int>>)
    requires dec == Decisions(df, stays, |df|)
    requires 0 <= k < |df| && df[k].animal == subject && df[k].stayStart == stayStart
    ensures r.Err? <==> dec[k].Err?
    ensures r.Err? ==> r.error == IndexError
    ensures r.Ok? ==> r.value == if dec[k] == Ok(true) then dropped + Group(df, subject, stayStart, |df|) else dropped
  {
    assert dec[k] == Drops(df, stays, subject, stayStart);
    var stayEnd := StayEnd(stays, subject, stayStart);
    if stayEnd.None? {
      return Err(IndexError);
    }
    var treatmentStart := TreatmentStart(df, subject, stayStart);
    if treatmentStart.None? {
      return Err(IndexError);
    }
    var deathDate := DeathDate(df, subject);
    if deathDate.None? {
      return Err(IndexError);
    }
    if AtOrBefore(treatmentStart.value, stayStart) || AtOrBefore(stayEnd.value, treatmentStart.value) {
      return Ok(dropped + Group(df, subject, stayStart, |df|));
    } else if AtOrBefore(deathDate.value, treatmentStart.value) {
      return Ok(dropped + Group(df, subject, stayStart, |df|));
    }
    return Ok(dropped);
  }

  /** The stay starts of the first `t` listed rows. */
  function StartsOf(df: seq<Row>, rows: seq<int>, t: int): (r: seq<Cell>)
    requires 0 <= t <= |rows| && forall j :: 0 <= j < |rows| ==> 0 <= rows[j] < |df|
    ensures |r| == t && forall j :: 0 <= j < t ==> r[j] == df[rows[j]].stayStart
  {
    if t == 0 then [] else StartsOf(df, rows, t - 1) + [df[rows[t - 1]].stayStart]
  }

  /**
   * One pass of the inner loop: the rows of the group of `start` are listed
   * for dropping exactly when the decision for that group is to drop.
   */
  lemma {:induction false} GroupStep(df: seq<Row>, stays: seq<StayRow>, dec: seq<Result<bool>>, k0: int, dropIdx: seq<int>,
                  done: seq<int>, subject: int, starts: seq<Cell>, start: Cell)
    requires dec == Decisions(df, stays, |df|)
    requires 0 <= k0 < |df| && df[k0].animal == subject && df[k0].stayStart == start && dec[k0].Ok?
    requires subject !in done
    requires forall k :: k in dropIdx <==> 0 <= k < |df| && Covered(df, dec, k, done, subject, starts)
    ensures var next := if dec[k0] == Ok(true) then dropIdx + Group(df, subject, start, |df|) else dropIdx;
            forall k :: k in next <==> 0 <= k < |df| && Covered(df, dec, k, done, subject, starts + [start])
  {
    var group := Group(df, subject, start, |df|);
    var next := if dec[k0] == Ok(true) then dropIdx + group else dropIdx;
    assert start.Some? by {
      assert StayEnd(stays, subject, start).Some?;
      var i := FirstStay(stays, subject, start, 0);
      assert StayMatches(stays, i, subject, start);
    }
    forall k | 0 <= k < |df|
      ensures k in next <==> Covered(df, dec, k, done, subject, starts + [start])
    {
      if df[k].animal == subject && df[k].stayStart == start {
        assert dec[k] == dec[k0];
        assert SameDate(df[k].stayStart, start);
        assert k in group;
      } else {
        assert k !in group;
      }
    }
  }

  /**
   * After the inner loop every row of the subject has had its group
   * decided, so the subject joins the animals that are done.
   */
  lemma SubjectDone(df: seq<Row>, dec: seq<Result<bool>>, dropIdx: seq<int>, done: seq<int>, subject: int,
                    rows: seq<int>, starts: seq<Cell>)
    requires |dec| == |df|
    requires rows == RowsOf(df, subject, |df|)
    requires starts == StartsOf(df, rows, |rows|)
    requires forall j :: 0 <= j < |rows| ==> dec[rows[j]].Ok?
    requires forall k :: k in dropIdx <==> 0 <= k < |df| && Covered(df, dec, k, done, subject, starts)
    ensures forall k :: 0 <= k < |df| && df[k].animal == subject ==> dec[k].Ok?
    ensures forall k :: k in dropIdx <==> 0 <= k < |df| && Covered(df, dec, k, done + [subject], -1, [])
  {
    SubjectRowsDecided(df, dec, subject, rows, starts);
    forall k | 0 <= k < |df|
      ensures Covered(df, dec, k, done, subject, starts) <==> Covered(df, dec, k, done + [subject], -1, [])
    {
      assert df[k].animal in done + [subject] <==> df[k].animal in done || df[k].animal == subject;
    }
  }

  /** Every row of the subject is among the rows the inner loop visited. */
  lemma SubjectRowsDecided(df: seq<Row>, dec: seq<Result<bool>>, subject: int, rows: seq<int>, starts: seq<Cell>)
    requires |dec| == |df|
    requires rows == RowsOf(df, subject, |df|)
    requires starts == StartsOf(df, rows, |rows|)
    requires forall j :: 0 <= j < |rows| ==> dec[rows[j]].Ok?
    ensures forall k :: 0 <= k < |df| && df[k].animal == subject ==> dec[k].Ok? && df[k].stayStart in starts
  {
    forall k | 0 <= k < |df| && df[k].animal == subject
      ensures dec[k].Ok? && df[k].stayStart in starts
    {
      assert k in rows;
      var j :| 0 <= j < |rows| && rows[j] == k;
      assert starts[j] == df[k].stayStart;
    }
  }

  lemma SliceNext(xs: seq<int>, s: int)
    requires 0 <= s < |xs|
    ensures xs[..s + 1] == xs[..s] + [xs[s]]
  {
  }

  /** Dropping the listed positions leaves the kept rows, when exactly the dropped rows are listed. */
  lemma {:induction false} WithoutIsKept(df: seq<Row>, dec: seq<Result<bool>>, drop: seq<int>, n: int)
    requires 0 <= n <= |df| == |dec|
    requires forall k :: 0 <= k < n ==> (k in drop <==> dec[k] == Ok(true))
    ensures Without(df, drop, n) == Kept(df, dec, n)
  {
    if n > 0 {
      WithoutIsKept(df, dec, drop, n - 1);
    }
  }

  /**
   * The table fails exactly when some row's stay is missing from the stay
   * table (a NaT stay start matches no stay); the other two lookups always
   * find the row itself.
   */
  lemma ConcurrentFails(df: seq<Row>, stays: seq<StayRow>)
    ensures Concurrent(df, stays).Err? <==>
            exists k :: 0 <= k < |df| && StayEnd(stays, df[k].animal, df[k].stayStart).None?
  {
    var dec := Decisions(df, stays, |df|);
    forall k | 0 <= k < |df|
      ensures dec[k].Err? <==> StayEnd(stays, df[k].animal, df[k].stayStart).None?
    {
      if StayEnd(stays, df[k].animal, df[k].stayStart).Some? {
        var i := FirstStay(stays, df[k].animal, df[k].stayStart, 0);
        assert StayMatches(stays, i, df[k].animal, df[k].stayStart);
        assert SameDate(df[k].stayStart, df[k].stayStart);
        assert TreatmentStart(df, df[k].animal, df[k].stayStart).Some?;
        assert DeathDate(df, df[k].animal).Some?;
      }
    }
  }

  /**
   * A kept row is a row of the input whose group is not dropped, and every
   * such row is kept; the rows keep their order (`Kept` filters in place).
   */
  lemma ConcurrentKeeps(df: seq<Row>, stays: seq<StayRow>, row: Row)
    requires Concurrent(df, stays).Ok?
    ensures row in Concurrent(df, stays).value <==>
            row in df && Drops(df, stays, row.animal, row.stayStart) == Ok(false)
  {
    var dec := Decisions(df, stays, |df|);
    KeptMembers(df, dec, |df|, row);
    if row in df {
      var k :| 0 <= k < |df| && df[k] == row;
      assert dec[k] == Drops(df, stays, row.animal, row.stayStart);
    }
  }

  lemma {:induction false} KeptMembers(df: seq<Row>, dec: seq<Result<bool>>, n: int, row: Row)
    requires 0 <= n <= |df| == |dec|
    ensures row in Kept(df, dec, n) <==> exists k :: 0 <= k < n && df[k] == row && dec[k] != Ok(true)
  {
    if n > 0 {
      KeptMembers(df, dec, n - 1, row);
    }
  }

  /**
   * When a row is the first of its animal, the decision for its group uses
   * its own treatment start and death date: the group is dropped exactly
   * when the treatment began on or before the stay began, on or after the
   * stay ended, or on or after the death.
   */
  lemma FirstRowDecides(df: seq<Row>, stays: seq<StayRow>, k: int)
    requires 0 <= k < |df| && forall j :: 0 <= j < k ==> df[j].animal != df[k].animal
    requires StayEnd(stays, df[k].animal, df[k].stayStart).Some?
    ensures var r := df[k];
            var end := StayEnd(stays, r.animal, r.stayStart).value;
            Drops(df, stays, r.animal, r.stayStart) ==
              Ok(AtOrBefore(r.treatmentStart, r.stayStart) || AtOrBefore(end, r.treatmentStart) ||
                 AtOrBefore(r.deathDate, r.treatmentStart))
  {
    var r := df[k];
    var i := FirstStay(stays, r.animal, r.stayStart, 0);
    assert StayMatches(stays, i, r.animal, r.stayStart);
    FirstLookups(df, k);
  }

  /** Both lookups stop at the first row of the animal. */
  lemma {:induction false} FirstLookups(df: seq<Row>, k: int)
    requires 0 <= k < |df| && forall j :: 0 <= j < k ==> df[j].animal != df[k].animal
    requires df[k].stayStart.Some?
    ensures TreatmentStart(df, df[k].animal, df[k].stayStart) == Some(df[k].treatmentStart)
    ensures DeathDate(df, df[k].animal) == Some(df[k].deathDate)
  {
    if k > 0 {
      assert forall j :: 0 <= j < k - 1 ==> df[1..][j] == df[j + 1];
      FirstLookups(df[1..], k - 1);
    }
  }

  /** A row with its treatment end date blanked. */
  function WithoutEnd(r: Row): Row
  {
    r.(treatmentEnd := None)
  }

  /**
   * The treatment end dates are never consulted: two tables that differ only
   * in them fail alike, and otherwise keep the same rows.
   */
  lemma EndsIgnored(df: seq<Row>, df2: seq<Row>, stays: seq<StayRow>)
    requires |df2| == |df| && forall k :: 0 <= k < |df| ==> WithoutEnd(df2[k]) == WithoutEnd(df[k])
    ensures Concurrent(df, stays).Ok? <==> Concurrent(df2, stays).Ok?
    ensures Concurrent(df, stays).Ok? ==>
              |Concurrent(df, stays).value| == |Concurrent(df2, stays).value| &&
              forall i :: 0 <= i < |Concurrent(df, stays).value| ==>
                WithoutEnd(Concurrent(df, stays).value[i]) == WithoutEnd(Concurrent(df2, stays).value[i])
  {
    var dec := Decisions(df, stays, |df|);
    var dec2 := Decisions(df2, stays, |df2|);
    forall k | 0 <= k < |df|
      ensures dec[k] == dec2[k]
    {
      assert df2[k].animal == df[k].animal && df2[k].stayStart == df[k].stayStart;
      LookupsIgnoreEnds(df, df2, df[k].animal, df[k].stayStart);
    }
    assert dec == dec2;
    KeptIgnoresEnds(df, df2, dec, |df|);
  }

  lemma {:induction false} LookupsIgnoreEnds(df: seq<Row>, df2: seq<Row>, subject: int, start: Cell)
    requires |df2| == |df| && forall k :: 0 <= k < |df| ==> WithoutEnd(df2[k]) == WithoutEnd(df[k])
    ensures TreatmentStart(df, subject, start) == TreatmentStart(df2, subject, start)
    ensures DeathDate(df, subject) == DeathDate(df2, subject)
  {
    if |df| > 0 {
      assert WithoutEnd(df2[0]) == WithoutEnd(df[0]);
      LookupsIgnoreEnds(df[1..], df2[1..], subject, start);
    }
  }

  lemma {:induction false} KeptIgnoresEnds(df: seq<Row>, df2: seq<Row>, dec: seq<Result<bool>>, n: int)
    requires |df2| == |df| == |dec| && 0 <= n <= |df|
    requires forall k :: 0 <= k < |df| ==> WithoutEnd(df2[k]) == WithoutEnd(df[k])
    ensures |Kept(df, dec, n)| == |Kept(df2, dec, n)|
    ensures forall i :: 0 <= i < |Kept(df, dec, n)| ==> WithoutEnd(Kept(df, dec, n)[i]) == WithoutEnd(Kept(df2, dec, n)[i])
  {
    if n > 0 {
      KeptIgnoresEnds(df, df2, dec, n - 1);
    }
  }
}
