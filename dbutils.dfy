/**
 * The display helpers of labbookdb/db/utils.py: `dt_format`, which gives
 * the text of a date, and `arange_by_date`, which orders records by their
 * dates.
 */
module DbUtils {
  import opened Wrappers
  import opened Text
  import opened DateTimes
  import opened Ordering
  import Classes

  /** `dt_format` of the display helpers: "NO DATE", the date of a midnight datetime, or the full datetime. */
  function DateText(d: Option<Moment>): (r: string)
    ensures r == "NO DATE" <==> d.None?
    ensures d.Some? && IsMidnight(d.value) ==> r == DateString(d.value)
    ensures d.Some? && !IsMidnight(d.value) ==> r == ToString(d.value)
  {
    match d
    case None => "NO DATE"
    case Some(dt) =>
      var r := if IsMidnight(dt) then DateString(dt) else ToString(dt);
      Classes.ShownDigits(dt);
      assert IsDigit(r[0]);
      r
  }

  /**
   * The two `dt_format`s show a present date the same way; they differ only
   * in the text for a missing one.
   */
  lemma DtFormatsAgree(d: Option<Moment>)
    ensures d.Some? ==> DateText(d) == Classes.Shown(Classes.DtFormat(d))
    ensures d.None? ==> DateText(d) == "NO DATE" && Classes.Shown(Classes.DtFormat(d)) == "ONGOING"
  {
  }

  /** An attribute of a record: absent from its class, or present and possibly empty. */
  datatype Field = Absent | Held(value: Option<Moment>)

  /** A record to arrange: its `__str__` and its `date` and `start_date` attributes. */
  datatype Dated = Dated(text: string, date: Field, startDate: Field)

  predicate AllHeld(fs: seq<Field>)
  {
    forall k :: 0 <= k < |fs| ==> fs[k].Held?
  }

  function Dates(items: seq<Dated>): (r: seq<Field>)
    ensures |r| == |items| && forall k :: 0 <= k < |items| ==> r[k] == items[k].date
  {
    if |items| == 0 then [] else [items[0].date] + Dates(items[1..])
  }

  function StartDates(items: seq<Dated>): (r: seq<Field>)
    ensures |r| == |items| && forall k :: 0 <= k < |items| ==> r[k] == items[k].startDate
  {
    if |items| == 0 then [] else [items[0].startDate] + StartDates(items[1..])
  }

  function Texts(items: seq<Dated>): (r: seq<string>)
    ensures |r| == |items| && forall k :: 0 <= k < |items| ==> r[k] == items[k].text
  {
    if |items| == 0 then [] else [items[0].text] + Texts(items[1..])
  }

  /** The shown text of each field, all of which are present. */
  function FieldTexts(fs: seq<Field>): (r: seq<string>)
    requires AllHeld(fs)
    ensures |r| == |fs| && forall k :: 0 <= k < |fs| ==> r[k] == DateText(fs[k].value)
  {
    if |fs| == 0 then [] else [DateText(fs[0].value)] + FieldTexts(fs[1..])
  }

  /**
   * The sort keys: the shown `date` of every record; when some record has
   * no `date`, the shown `start_date` of every record instead; when some
   * record has neither, the lookup of its `start_date` fails.
   */
  function SortKeys(items: seq<Dated>): (r: Result<seq<string>>)
    ensures r.Ok? ==> |r.value| == |items|
    ensures r.Err? <==> !AllHeld(Dates(items)) && !AllHeld(StartDates(items))
    ensures r.Err? ==> r.error == AttributeError("start_date")
    ensures AllHeld(Dates(items)) ==> r == Ok(FieldTexts(Dates(items)))
    ensures !AllHeld(Dates(items)) && AllHeld(StartDates(items)) ==> r == Ok(FieldTexts(StartDates(items)))
  {
    if AllHeld(Dates(items)) then Ok(FieldTexts(Dates(items)))
    else if AllHeld(StartDates(items)) then Ok(FieldTexts(StartDates(items)))
    else Err(AttributeError("start_date"))
  }

  /** Python's `zip` of two lists of the same length. */
  function Zip(xs: seq<string>, ys: seq<string>): (r: seq<(string, string)>)
    requires |xs| == |ys|
    ensures |r| == |xs| && forall k :: 0 <= k < |xs| ==> r[k] == (xs[k], ys[k])
  {
    if |xs| == 0 then [] else [(xs[0], ys[0])] + Zip(xs[1..], ys[1..])
  }

  /** The second components, in order. */
  function Seconds(ps: seq<(string, string)>): (r: seq<string>)
    ensures |r| == |ps| && forall k :: 0 <= k < |ps| ==> r[k] == ps[k].1
  {
    if |ps| == 0 then [] else [ps[0].1] + Seconds(ps[1..])
  }

  /**
   * `arange_by_date`: the records' texts, ordered by the shown date and,
   * between equal dates, by the text.
   */
  function ArangeByDate(items: seq<Dated>): (r: Result<seq<string>>)
    ensures r.Err? <==> SortKeys(items).Err?
    ensures r.Ok? ==> |r.value| == |items|
    ensures r.Ok? ==> multiset(r.value) == multiset(Texts(items))
  {
    match SortKeys(items)
    case Err(e) => Err(e)
    case Ok(keys) =>
      var pairs := Zip(keys, Texts(items));
      var sorted := SortPairs(pairs);
      SecondsPermutation(sorted, pairs);
      assert Seconds(pairs) == Texts(items);
      Ok(Seconds(sorted))
  }

  /**
   * The arrangement is the only one possible: whatever sorted order of the
   * (date, text) pairs is taken, its texts are the result.  So the result
   * does not depend on the order the records came in.
   */
  lemma ArangeIsSortedOrder(items: seq<Dated>, p: seq<(string, string)>)
    requires SortKeys(items).Ok?
    requires PairsSorted(p) && multiset(p) == multiset(Zip(SortKeys(items).value, Texts(items)))
    ensures ArangeByDate(items) == Ok(Seconds(p))
  {
    var pairs := Zip(SortKeys(items).value, Texts(items));
    PairsSortedUnique(p, SortPairs(pairs));
  }

  /**
   * In the result, the texts follow the order of their dates: the pairs
   * the texts were taken from are sorted, and pair up each text with the
   * date of a record holding that text.
   */
  lemma ArangeOrdered(items: seq<Dated>)
    requires SortKeys(items).Ok?
    ensures var keys := SortKeys(items).value;
            var p := SortPairs(Zip(keys, Texts(items)));
            ArangeByDate(items) == Ok(Seconds(p)) && PairsSorted(p) &&
            forall k :: 0 <= k < |p| ==> exists j :: 0 <= j < |items| && p[k] == (keys[j], items[j].text)
  {
    var keys := SortKeys(items).value;
    var pairs := Zip(keys, Texts(items));
    var p := SortPairs(pairs);
    assert ArangeByDate(items) == Ok(Seconds(p));
    ZippedDrawn(keys, items, p);
  }

  /** Every pair of a rearrangement of the zipped keys and texts is the key and text of one record. */
  lemma ZippedDrawn(keys: seq<string>, items: seq<Dated>, p: seq<(string, string)>)
    requires |keys| == |items|
    requires multiset(p) == multiset(Zip(keys, Texts(items)))
    ensures forall k :: 0 <= k < |p| ==> exists j :: 0 <= j < |items| && p[k] == (keys[j], items[j].text)
  {
    var texts := Texts(items);
    forall k | 0 <= k < |p|
      ensures exists j :: 0 <= j < |items| && p[k] == (keys[j], items[j].text)
    {
      assert p[k] in multiset(p);
      var j := ZipIndex(keys, texts, p[k]);
      assert texts[j] == items[j].text;
    }
  }

  /** A pair drawn from zipped sequences sits at one position of both. */
  lemma ZipIndex(xs: seq<string>, ys: seq<string>, x: (string, string)) returns (j: int)
    requires |xs| == |ys| && x in multiset(Zip(xs, ys))
    ensures 0 <= j < |xs| && x == (xs[j], ys[j])
  {
    var pairs := Zip(xs, ys);
    assert x in pairs;
    j :| 0 <= j < |pairs| && pairs[j] == x;
  }

  /** Rearranging pairs rearranges their second components the same way. */
  lemma {:induction false} SecondsPermutation(a: seq<(string, string)>, b: seq<(string, string)>)
    requires multiset(a) == multiset(b)
    ensures multiset(Seconds(a)) == multiset(Seconds(b))
    decreases |a|
  {
    if |a| == 0 {
      assert |b| == |multiset(b)| == 0;
    } else {
      assert a[0] in multiset(b);
      var i :| 0 <= i < |b| && b[i] == a[0];
      var rest := b[..i] + b[i + 1..];
      RemoveAt(b, i);
      DropHeadPair(a);
      SecondsPermutation(a[1..], rest);
      assert Seconds(a) == [a[0].1] + Seconds(a[1..]);
    }
  }

  /** Taking one pair out of a sequence takes its second component out of the seconds. */
  lemma RemoveAt(b: seq<(string, string)>, i: int)
    requires 0 <= i < |b|
    ensures multiset(b[..i] + b[i + 1..]) == multiset(b) - multiset{b[i]}
    ensures multiset(Seconds(b)) == multiset(Seconds(b[..i] + b[i + 1..])) + multiset{b[i].1}
  {
    Around(b, i);
    SecondsAround(b[..i], b[i], b[i + 1..]);
  }

  lemma Around(b: seq<(string, string)>, i: int)
    requires 0 <= i < |b|
    ensures b == b[..i] + ([b[i]] + b[i + 1..])
    ensures multiset(b[..i] + b[i + 1..]) == multiset(b) - multiset{b[i]}
  {
    assert b[i..] == [b[i]] + b[i + 1..];
    assert b == b[..i] + b[i..];
  }

  lemma SecondsAround(front: seq<(string, string)>, x: (string, string), back: seq<(string, string)>)
    ensures multiset(Seconds(front + ([x] + back))) == multiset(Seconds(front + back)) + multiset{x.1}
  {
    SecondsAppend(front, [x] + back);
    SecondsAppend([x], back);
    SecondsAppend(front, back);
  }

  lemma SecondsAppend(a: seq<(string, string)>, b: seq<(string, string)>)
    ensures Seconds(a + b) == Seconds(a) + Seconds(b)
  {
    assert forall k :: 0 <= k < |a| + |b| ==> (a + b)[k].1 == (Seconds(a) + Seconds(b))[k];
  }
}
