/**
 * `forced_swim` and `sucrose_preference` of labbookdb/report/behaviour.py:
 * the tables of time windows the immobility is summed over, the t-test
 * windows read from column names such as "2 to 4", and the name a plotted
 * table is saved under.
 */
module Behaviour {
  import opened Wrappers
  import opened Text
  import opened Paths

  const OneMinute := "Interval [1 min]"
  const TwoMinutes := "Interval [2 min]"

  /** The heading the time-course plots use: an empty heading means one-minute intervals. */
  function TimeLabel(timeLabel: string): (r: string)
    ensures timeLabel != "" ==> r == timeLabel
    ensures r != ""
  {
    if timeLabel == "" then OneMinute else timeLabel
  }

  /**
   * `count` windows of `width` seconds, numbered from 1, each starting where
   * the one before it ends, the first at second 0.
   */
  ghost predicate Tiles(table: map<int, (int, int)>, count: int, width: int)
  {
    (forall k :: k in table <==> 1 <= k <= count) &&
    (forall k :: k in table ==> table[k] == (width * (k - 1), width * k))
  }

  /**
   * The windows of a time-course plot for the heading: six one-minute or three
   * two-minute windows over the six minutes of the test.  Any other heading
   * leaves the table unbound, so plotting it is a NameError.
   */
  function IntervalTable(heading: string): (r: Result<map<int, (int, int)>>)
    ensures r.Err? <==> heading != OneMinute && heading != TwoMinutes
    ensures r.Err? ==> r.error == NameError("plottable_df")
    ensures heading == OneMinute ==> Tiles(r.value, 6, 60)
    ensures heading == TwoMinutes ==> Tiles(r.value, 3, 120)
  {
    if heading == OneMinute then
      var table := map[1 := (0, 60), 2 := (60, 120), 3 := (120, 180), 4 := (180, 240), 5 := (240, 300), 6 := (300, 360)];
      LiteralTiles(table, 6, 60);
      Ok(table)
    else if heading == TwoMinutes then
      var table := map[1 := (0, 120), 2 := (120, 240), 3 := (240, 360)];
      LiteralTiles(table, 3, 120);
      Ok(table)
    else Err(NameError("plottable_df"))
  }

  /** A table written out window by window tiles, when each listed window is the expected one. */
  lemma LiteralTiles(table: map<int, (int, int)>, count: int, width: int)
    requires 0 <= count <= 6
    requires forall k :: k in table <==> 1 <= k <= count
    requires 1 <= count ==> table[1] == (0, width)
    requires 2 <= count ==> table[2] == (width, 2 * width)
    requires 3 <= count ==> table[3] == (2 * width, 3 * width)
    requires 4 <= count ==> table[4] == (3 * width, 4 * width)
    requires 5 <= count ==> table[5] == (4 * width, 5 * width)
    requires 6 <= count ==> table[6] == (5 * width, 6 * width)
    ensures Tiles(table, count, width)
  {
    forall k | k in table
      ensures table[k] == (width * (k - 1), width * k)
    {
      assert k == 1 || k == 2 || k == 3 || k == 4 || k == 5 || k == 6;
    }
  }

  /**
   * Every second from the start of the test to the end of the last window
   * lies in exactly one window of a tiling table.
   */
  lemma TilesCover(table: map<int, (int, int)>, count: int, width: int, t: int)
    requires width > 0 && Tiles(table, count, width)
    requires 0 <= t < count * width
    ensures exists k :: k in table && table[k].0 <= t < table[k].1
    ensures forall k, j :: k in table && j in table && table[k].0 <= t < table[k].1 && table[j].0 <= t < table[j].1 ==> k == j
  {
    var q := t / width;
    DivBounds(t, width);
    assert 0 <= q by {
      if q < 0 {
        MulLeq(width, q, -1);
      }
    }
    assert q < count by {
      if q >= count {
        MulLeq(width, count, q);
      }
    }
    assert q + 1 in table;
    assert width * (q + 1) == width * q + width;
    forall k1, k2 | k1 in table && k2 in table && table[k1].0 <= t < table[k1].1 && table[k2].0 <= t < table[k2].1
      ensures k1 == k2
    {
      Window(width, k1, t);
      Window(width, k2, t);
    }
  }

  /** The window numbered `k` holds `t` only when `k` is `t / width + 1`. */
  lemma Window(width: int, k: int, t: int)
    requires width > 0 && width * (k - 1) <= t < width * k
    ensures k == t / width + 1
  {
    var q := t / width;
    DivBounds(t, width);
    if q < k - 1 {
      MulLeq(width, q + 1, k - 1);
    } else if q > k - 1 {
      MulLeq(width, k, q);
    }
  }

  /** Euclidean division: `t` lies between two consecutive multiples of `width`. */
  lemma DivBounds(t: int, width: int)
    requires width > 0
    ensures width * (t / width) <= t < width * (t / width) + width
  {
  }

  lemma MulLeq(a: int, b: int, c: int)
    requires a > 0 && b <= c
    ensures a * b <= a * c
  {
    assert a * c - a * b == a * (c - b);
  }

  /** Both time-course tables cover the six minutes of the test, from second 0 to second 360. */
  lemma TablesCoverTest(heading: string, t: int)
    requires heading == OneMinute || heading == TwoMinutes
    requires 0 <= t < 360
    ensures exists k :: k in IntervalTable(heading).value && IntervalTable(heading).value[k].0 <= t < IntervalTable(heading).value[k].1
  {
    if heading == OneMinute {
      TilesCover(IntervalTable(heading).value, 6, 60, t);
    } else {
      TilesCover(IntervalTable(heading).value, 3, 120, t);
    }
  }

  const Separator := " to "

  /**
   * The t-test window a column name such as "2 to 4" names: the name must
   * split at " to " into exactly two parts, each an integer number of
   * minutes; the window is given in seconds.
   */
  function ColumnPeriod(name: string): (r: Result<(int, int)>)
    ensures r.Ok? ==> r.value.0 % 60 == 0 && r.value.1 % 60 == 0
  {
    var parts := Split(name, Separator);
    if |parts| < 2 then Err(ValueError("not enough values to unpack"))
    else if |parts| > 2 then Err(ValueError("too many values to unpack"))
    else
      match ParseInt(parts[0])
      case Err(e) => Err(e)
      case Ok(start) =>
        match ParseInt(parts[1])
        case Err(e) => Err(e)
        case Ok(end) => Ok((start * 60, end * 60))
  }

  /**
   * A column name gives a window exactly when it splits into two parts that
   * both read as integers, and the window is those minutes in seconds; too
   * many parts, or the first part that does not read, gives the error; a
   * name without the separator has too few parts.
   */
  lemma ColumnPeriodMeaning(name: string)
    ensures !Contains(name, Separator) ==> ColumnPeriod(name) == Err(ValueError("not enough values to unpack"))
    ensures var parts := Split(name, Separator);
            ColumnPeriod(name).Ok? <==> |parts| == 2 && ParseInt(parts[0]).Ok? && ParseInt(parts[1]).Ok?
    ensures var parts := Split(name, Separator);
            ColumnPeriod(name).Ok? ==> ColumnPeriod(name).value == (ParseInt(parts[0]).value * 60, ParseInt(parts[1]).value * 60)
    ensures |Split(name, Separator)| < 2 ==> ColumnPeriod(name) == Err(ValueError("not enough values to unpack"))
    ensures |Split(name, Separator)| > 2 ==> ColumnPeriod(name) == Err(ValueError("too many values to unpack"))
    ensures var parts := Split(name, Separator);
            |parts| == 2 && ParseInt(parts[0]).Err? ==> ColumnPeriod(name) == Err(ParseInt(parts[0]).error)
    ensures var parts := Split(name, Separator);
            |parts| == 2 && ParseInt(parts[0]).Ok? && ParseInt(parts[1]).Err? ==> ColumnPeriod(name) == Err(ParseInt(parts[1]).error)
  {
    var parts := Split(name, Separator);
    if |parts| >= 2 {
      SeparatorBetween(parts, Separator);
    }
  }

  /** A text joined from two or more parts holds the separator. */
  lemma SeparatorBetween(parts: seq<string>, sep: string)
    requires |sep| > 0 && |parts| >= 2
    ensures Contains(Join(parts, sep), sep)
  {
    var s := Join(parts, sep);
    assert s == parts[0] + sep + Join(parts[1..], sep);
    assert OccursAt(s, sep, |parts[0]|) by {
      assert s[|parts[0]|..|parts[0]| + |sep|] == sep;
    }
    ContainsIff(s, sep);
  }

  /** No text ending in a digit and without a space straddles or holds the separator. */
  lemma IntStringCleanPart(n: int)
    ensures CleanPart(IntToString(n), Separator)
  {
    var s := IntToString(n);
    var digits := if n >= 0 then NatToString(n) else NatToString(-n);
    assert s[|s| - 1] == digits[|digits| - 1];
    assert ' ' !in s by {
      forall i | 0 <= i < |s|
        ensures s[i] != ' '
      {
        if n < 0 && i > 0 {
          assert s[i] == digits[i - 1];
        }
      }
    }
    AbsentChar(s, Separator, ' ');
  }

  /** The column name written for a window in minutes is read back as that window in seconds. */
  lemma ColumnPeriodRoundTrip(start: int, end: int)
    ensures ColumnPeriod(IntToString(start) + Separator + IntToString(end)) == Ok((start * 60, end * 60))
  {
    var parts := [IntToString(start), IntToString(end)];
    IntStringCleanPart(start);
    IntStringCleanPart(end);
    assert Join(parts, Separator) == IntToString(start) + Separator + IntToString(end) by {
      assert parts[1..] == [IntToString(end)];
    }
    SplitJoin(parts, Separator);
    ParseIntToString(start);
    ParseIntToString(end);
  }

  /** A name with three numbers in it has one part too many. */
  lemma ColumnPeriodTooMany(a: int, b: int, c: int)
    ensures ColumnPeriod(IntToString(a) + Separator + IntToString(b) + Separator + IntToString(c))
            == Err(ValueError("too many values to unpack"))
  {
    var parts := [IntToString(a), IntToString(b), IntToString(c)];
    IntStringCleanPart(a);
    IntStringCleanPart(b);
    IntStringCleanPart(c);
    JoinThree(IntToString(a), IntToString(b), IntToString(c), Separator);
    SplitJoin(parts, Separator);
  }

  /**
   * The dictionary of t-test windows the loop builds: every column in turn,
   * the first name that cannot be read ending the loop with its error.
   */
  function Periods(columns: seq<string>): (r: Result<map<string, (int, int)>>)
    ensures r.Ok? <==> forall i :: 0 <= i < |columns| ==> ColumnPeriod(columns[i]).Ok?
    ensures r.Ok? ==> r.value.Keys == (set c | c in columns) && forall c :: c in r.value ==> ColumnPeriod(c) == Ok(r.value[c])
    ensures r.Err? ==> exists i :: 0 <= i < |columns| && ColumnPeriod(columns[i]) == Err(r.error) &&
                                   forall j :: 0 <= j < i ==> ColumnPeriod(columns[j]).Ok?
  {
    CollectContents(columns, ColumnPeriod);
    CollectFirstError(columns, ColumnPeriod);
    Collect(columns, ColumnPeriod)
  }

  /** The same loop for any way `read` of reading a column name. */
  function Collect(columns: seq<string>, read: string -> Result<(int, int)>): (r: Result<map<string, (int, int)>>)
    ensures r.Ok? <==> forall i :: 0 <= i < |columns| ==> read(columns[i]).Ok?
  {
    if |columns| == 0 then Ok(map[])
    else
      var front := columns[..|columns| - 1];
      var last := columns[|columns| - 1];
      assert forall i :: 0 <= i < |front| ==> front[i] == columns[i];
      match Collect(front, read)
      case Err(e) => Err(e)
      case Ok(m) =>
        match read(last)
        case Err(e) => Err(e)
        case Ok(p) => Ok(m[last := p])
  }

  lemma {:induction false} CollectContents(columns: seq<string>, read: string -> Result<(int, int)>)
    ensures var r := Collect(columns, read);
            r.Ok? ==> r.value.Keys == (set c | c in columns) && forall c :: c in r.value ==> read(c) == Ok(r.value[c])
  {
    if |columns| > 0 && Collect(columns, read).Ok? {
      var front := columns[..|columns| - 1];
      var last := columns[|columns| - 1];
      CollectContents(front, read);
      assert columns == front + [last];
      assert (set c | c in columns) == (set c | c in front) + {last};
    }
  }

  lemma {:induction false} CollectFirstError(columns: seq<string>, read: string -> Result<(int, int)>)
    ensures var r := Collect(columns, read);
            r.Err? ==> exists i :: 0 <= i < |columns| && read(columns[i]) == Err(r.error) &&
                                   forall j :: 0 <= j < i ==> read(columns[j]).Ok?
  {
    if |columns| > 0 && Collect(columns, read).Err? {
      var front := columns[..|columns| - 1];
      assert forall i :: 0 <= i < |front| ==> front[i] == columns[i];
      if Collect(front, read).Err? {
        CollectFirstError(front, read);
        var i :| 0 <= i < |front| && read(front[i]) == Err(Collect(front, read).error) &&
                 forall j :: 0 <= j < i ==> read(front[j]).Ok?;
        assert read(columns[i]) == Err(Collect(columns, read).error);
      } else {
        assert read(columns[|columns| - 1]) == Err(Collect(columns, read).error);
      }
    }
  }

  /** The t-test branch, which fills `periods` one column name at a time. */
  method TtestPeriods(columns: seq<string>) returns (r: Result<map<string, (int, int)>>)
    ensures r == Periods(columns)
  {
    r := CollectPeriods(columns);
  }

  /** The loop itself, against the general `Collect` that `Periods` is an instance of. */
  method CollectPeriods(columns: seq<string>) returns (r: Result<map<string, (int, int)>>)
    ensures r == Collect(columns, ColumnPeriod)
  {
    var periods: map<string, (int, int)> := map[];
    for i := 0 to |columns|
      invariant Collect(columns[..i], ColumnPeriod) == Ok(periods)
    {
      var period := ColumnPeriod(columns[i]);
      if period.Err? {
        FirstErrorStands(columns, i, ColumnPeriod);
        return Err(period.error);
      }
      CollectExtend(columns[..i], columns[i], ColumnPeriod, periods);
      assert columns[..i + 1] == columns[..i] + [columns[i]];
      periods := periods[columns[i] := period.value];
    }
    assert columns[..|columns|] == columns;
    return Ok(periods);
  }

  /** One more name that reads adds its window to the map. */
  lemma CollectExtend(columns: seq<string>, x: string, read: string -> Result<(int, int)>, m: map<string, (int, int)>)
    requires Collect(columns, read) == Ok(m) && read(x).Ok?
    ensures Collect(columns + [x], read) == Ok(m[x := read(x).value])
  {
    assert (columns + [x])[..|columns|] == columns;
  }

  /** Once a column name fails after names that all read, the whole loop fails with its error. */
  lemma FirstErrorStands(columns: seq<string>, i: int, read: string -> Result<(int, int)>)
    requires 0 <= i < |columns| && read(columns[i]).Err?
    requires Collect(columns[..i], read).Ok?
    ensures Collect(columns, read) == Err(read(columns[i]).error)
  {
    assert forall j :: 0 <= j < i ==> columns[..i][j] == columns[j];
    var r := Collect(columns, read);
    assert r.Err?;
    CollectFirstError(columns, read);
    var i' :| 0 <= i' < |columns| && read(columns[i']) == Err(r.error) &&
              forall j :: 0 <= j < i' ==> read(columns[j]).Ok?;
    assert i' == i;
  }

  /** The table a forced swim plot is drawn from. */
  datatype Plan =
    | Minutes(windows: map<int, (int, int)>, heading: string)   // a time course: numbered windows under the time heading
    | Columns(periods: map<string, (int, int)>)                // a t-test: windows named by the column names

  /**
   * The table `forced_swim` plots: time courses take their windows from the
   * (defaulted) time heading, the t-test from the column names; any other
   * plot style plots nothing.
   */
  function ForcedSwimPlan(plotStyle: string, timeLabel: string, columns: seq<string>): (r: Result<Option<Plan>>)
    ensures plotStyle in {"tsplot", "pointplot"} ==>
              (r.Ok? <==> timeLabel in {"", OneMinute, TwoMinutes}) &&
              (r.Ok? ==> r.value.Some? && r.value.value.Minutes? && r.value.value.heading == TimeLabel(timeLabel))
    ensures plotStyle in {"tsplot", "pointplot"} && timeLabel in {"", OneMinute} ==> Tiles(r.value.value.windows, 6, 60)
    ensures plotStyle in {"tsplot", "pointplot"} && timeLabel == TwoMinutes ==> Tiles(r.value.value.windows, 3, 120)
    ensures plotStyle == "ttest" ==>
              (r.Ok? <==> forall i :: 0 <= i < |columns| ==> ColumnPeriod(columns[i]).Ok?) &&
              (r.Ok? ==> r.value.Some? && r.value.value.Columns? && r.value.value.periods.Keys == set c | c in columns)
    ensures plotStyle !in {"tsplot", "pointplot", "ttest"} ==> r == Ok(None)
  {
    if plotStyle in {"tsplot", "pointplot"} then
      var heading := TimeLabel(timeLabel);
      match IntervalTable(heading)
      case Err(e) => Err(e)
      case Ok(windows) => Ok(Some(Minutes(windows, heading)))
    else if plotStyle == "ttest" then
      match Periods(columns)
      case Err(e) => Err(e)
      case Ok(periods) => Ok(Some(Columns(periods)))
    else Ok(None)
  }

  /** An empty time heading plots exactly what the one-minute heading plots. */
  lemma EmptyLabelIsOneMinute(plotStyle: string, columns: seq<string>)
    ensures ForcedSwimPlan(plotStyle, "", columns) == ForcedSwimPlan(plotStyle, OneMinute, columns)
  {
  }

  /**
   * The file a plotted table is written to: none for an empty `save_df`,
   * otherwise the name with the `.csv` suffix rule applied.
   */
  function SavedName(saveDf: string): (r: Option<string>)
    ensures r.None? <==> saveDf == ""
    ensures r.Some? ==> (EndsWith(r.value, ".csv") || EndsWith(r.value, ".CSV")) && StartsWith(r.value, saveDf)
    ensures r.Some? && (EndsWith(saveDf, ".csv") || EndsWith(saveDf, ".CSV")) ==> r.value == saveDf
  {
    if saveDf == "" then None
    else
      CsvPathIdempotent(saveDf);
      Some(CsvPath(saveDf))
  }

  /**
   * The end of `forced_swim`: the file the table is saved to.  Asking to
   * save when no table was plotted reads the unbound table, a NameError.
   */
  function ForcedSwimSaved(plotStyle: string, timeLabel: string, columns: seq<string>, saveDf: string): (r: Result<Option<string>>)
    ensures ForcedSwimPlan(plotStyle, timeLabel, columns).Err? ==> r == Err(ForcedSwimPlan(plotStyle, timeLabel, columns).error)
    ensures saveDf == "" && ForcedSwimPlan(plotStyle, timeLabel, columns).Ok? ==> r == Ok(None)
    ensures saveDf != "" && plotStyle !in {"tsplot", "pointplot", "ttest"} ==> r == Err(NameError("plottable_df"))
    ensures r.Ok? && r.value.Some? ==> plotStyle in {"tsplot", "pointplot", "ttest"} && r.value == SavedName(saveDf)
  {
    match ForcedSwimPlan(plotStyle, timeLabel, columns)
    case Err(e) => Err(e)
    case Ok(plan) =>
      if saveDf == "" then Ok(None)
      else if plan.None? then Err(NameError("plottable_df"))
      else Ok(SavedName(saveDf))
  }
}
