/**
 * Python's `datetime.datetime` as far as the modelled code uses it: the
 * constructor called as `datetime(*[int(i) for i in s.split(",")])`, `str()`
 * of a datetime and of its date, the time-of-day test, and comparison.
 */
module DateTimes {
  import opened Wrappers
  import opened Text

  datatype DateTime = DateTime(year: int, month: int, day: int, hour: int, minute: int, second: int, micro: int)

  predicate IsLeap(y: int)
  {
    y % 4 == 0 && (y % 100 != 0 || y % 400 == 0)
  }

  function DaysInMonth(y: int, m: int): (d: int)
    requires 1 <= m <= 12
    ensures 28 <= d <= 31
  {
    if m == 2 then (if IsLeap(y) then 29 else 28)
    else if m == 4 || m == 6 || m == 9 || m == 11 then 30
    else 31
  }

  /** The ranges `datetime()` checks: years 1 to 9999 and the usual calendar and clock. */
  predicate Valid(dt: DateTime)
  {
    1 <= dt.year <= 9999 && 1 <= dt.month <= 12 && 1 <= dt.day <= DaysInMonth(dt.year, dt.month) &&
    0 <= dt.hour < 24 && 0 <= dt.minute < 60 && 0 <= dt.second < 60 && 0 <= dt.micro < 1000000
  }

  /** The argument at position i, or the default 0 of the optional time arguments. */
  function ArgOrZero(xs: seq<int>, i: nat): int
  {
    if i < |xs| then xs[i] else 0
  }

  /**
   * `datetime(*xs)`: year, month and day are required, hour, minute, second
   * and microsecond are optional; fewer than three or more than seven integer
   * arguments are a TypeError, values out of range a ValueError.
   */
  function FromInts(xs: seq<int>): (r: Result<DateTime>)
    ensures r.Ok? <==> 3 <= |xs| <= 7 && Valid(Padded(xs))
    ensures r.Ok? ==> Valid(r.value)
    ensures r.Ok? ==> forall i :: 0 <= i < |xs| ==> Fields(r.value)[i] == xs[i]
    ensures r.Ok? ==> forall i :: |xs| <= i < 7 ==> Fields(r.value)[i] == 0
    ensures (|xs| < 3 || |xs| > 7) ==> r.Err? && r.error.TypeError?
  {
    if |xs| < 3 || |xs| > 7 then Err(TypeError("datetime() takes from 3 to 7 integer arguments"))
    else
      var dt := Padded(xs);
      if Valid(dt) then Ok(dt) else Err(ValueError("datetime field out of range"))
  }

  /** The datetime whose fields are `xs`, then zeros. */
  function Padded(xs: seq<int>): DateTime
  {
    DateTime(ArgOrZero(xs, 0), ArgOrZero(xs, 1), ArgOrZero(xs, 2), ArgOrZero(xs, 3), ArgOrZero(xs, 4), ArgOrZero(xs, 5), ArgOrZero(xs, 6))
  }

  function Fields(dt: DateTime): (f: seq<int>)
    ensures |f| == 7
  {
    [dt.year, dt.month, dt.day, dt.hour, dt.minute, dt.second, dt.micro]
  }

  /** `[int(i) for i in parts]`: the first part that is not an integer is a ValueError. */
  function ParseInts(parts: seq<string>): (r: Result<seq<int>>)
    ensures r.Ok? ==> |r.value| == |parts| && forall i :: 0 <= i < |parts| ==> ParseInt(parts[i]) == Ok(r.value[i])
    ensures r.Err? ==> exists i :: 0 <= i < |parts| && ParseInt(parts[i]).Err?
  {
    if |parts| == 0 then Ok([])
    else
      match ParseInt(parts[0])
      case Err(e) => Err(e)
      case Ok(v) =>
        match ParseInts(parts[1..])
        case Err(e) => assert ParseInt(parts[1..][0]).Err? || exists i :: 1 <= i < |parts| && ParseInt(parts[i]).Err?; Err(e)
        case Ok(vs) => Ok([v] + vs)
  }

  /** `datetime(*[int(i) for i in s.split(",")])`, the date syntax of identifier expressions and parameters. */
  function ParseCommaDate(s: string): (r: Result<DateTime>)
    ensures r.Ok? ==> Valid(r.value) && 3 <= |Split(s, ",")| <= 7
    ensures |Split(s, ",")| > 7 ==> r.Err?
  {
    match ParseInts(Split(s, ","))
    case Err(e) => Err(e)
    case Ok(xs) => FromInts(xs)
  }

  /** The comma form of a datetime with all seven fields written out. */
  function CommaForm(dt: DateTime): string
  {
    Join(IntStrings(Fields(dt)), ",")
  }

  function IntStrings(xs: seq<int>): (r: seq<string>)
    ensures |r| == |xs| && forall i :: 0 <= i < |xs| ==> r[i] == IntToString(xs[i])
  {
    if |xs| == 0 then [] else [IntToString(xs[0])] + IntStrings(xs[1..])
  }

  lemma IntStringClean(n: int)
    ensures CleanPart(IntToString(n), ",")
  {
    var s := IntToString(n);
    assert ',' !in s by {
      if n < 0 {
        assert s == "-" + NatToString(-n);
      }
    }
    AbsentChar(s, ",", ',');
  }

  /** Every valid datetime is read back from its comma form. */
  lemma ParseCommaForm(dt: DateTime)
    requires Valid(dt)
    ensures ParseCommaDate(CommaForm(dt)) == Ok(dt)
  {
    var parts := IntStrings(Fields(dt));
    forall k | 0 <= k < |parts|
      ensures CleanPart(parts[k], ",")
    {
      IntStringClean(Fields(dt)[k]);
    }
    SplitJoin(parts, ",");
    forall k | 0 <= k < |parts|
      ensures ParseInt(parts[k]) == Ok(Fields(dt)[k])
    {
      ParseIntToString(Fields(dt)[k]);
    }
    ParseIntsOf(parts, Fields(dt));
  }

  lemma {:induction false} ParseIntsOf(parts: seq<string>, xs: seq<int>)
    requires |parts| == |xs| && forall k :: 0 <= k < |parts| ==> ParseInt(parts[k]) == Ok(xs[k])
    ensures ParseInts(parts) == Ok(xs)
    decreases |parts|
  {
    if |parts| > 0 {
      ParseIntsOf(parts[1..], xs[1..]);
      assert [xs[0]] + xs[1..] == xs;
    }
  }

  /** `str(n)` padded on the left with zeros to `width` digits (`%02d`, `%04d`, `%06d`). */
  function ZeroPad(n: nat, width: nat): (s: string)
    ensures |s| == if |NatToString(n)| >= width then |NatToString(n)| else width
    ensures forall i :: 0 <= i < |s| ==> IsDigit(s[i])
  {
    var digits := NatToString(n);
    if |digits| >= width then digits else Zeros(width - |digits|) + digits
  }

  function Zeros(k: nat): (s: string)
    ensures |s| == k && forall i :: 0 <= i < k ==> s[i] == '0'
  {
    if k == 0 then "" else "0" + Zeros(k - 1)
  }

  lemma NatToStringShort(n: nat, width: nat)
    requires width >= 1 && n < Pow10(width)
    ensures |NatToString(n)| <= width
  {
    if n >= 10 {
      NatToStringShort(n / 10, width - 1);
    }
  }

  function Pow10(k: nat): (p: nat)
    ensures p >= 1
  {
    if k == 0 then 1 else 10 * Pow10(k - 1)
  }

  /** `str(dt.date())`: `YYYY-MM-DD`. */
  function DateString(dt: DateTime): string
    requires Valid(dt)
  {
    ZeroPad(dt.year, 4) + "-" + ZeroPad(dt.month, 2) + "-" + ZeroPad(dt.day, 2)
  }

  /** `str(dt)`: `YYYY-MM-DD HH:MM:SS`, followed by `.ffffff` when the microseconds are not zero. */
  function ToString(dt: DateTime): string
    requires Valid(dt)
  {
    DateString(dt) + " " + ZeroPad(dt.hour, 2) + ":" + ZeroPad(dt.minute, 2) + ":" + ZeroPad(dt.second, 2) +
    (if dt.micro == 0 then "" else "." + ZeroPad(dt.micro, 6))
  }

  /** Both renderings have fixed widths, and the full one begins with the date. */
  lemma ToStringShape(dt: DateTime)
    requires Valid(dt)
    ensures |DateString(dt)| == 10
    ensures |ToString(dt)| == if dt.micro == 0 then 19 else 26
    ensures ToString(dt)[..10] == DateString(dt)
  {
    NatToStringShort(dt.year, 4);
    NatToStringShort(dt.month, 2);
    NatToStringShort(dt.day, 2);
    NatToStringShort(dt.hour, 2);
    NatToStringShort(dt.minute, 2);
    NatToStringShort(dt.second, 2);
    NatToStringShort(dt.micro, 6);
  }

  /** A datetime the database can hold. */
  type Moment = dt: DateTime | Valid(dt) witness DateTime(1, 1, 1, 0, 0, 0, 0)

  /** `dt.time() == datetime.time(0, 0, 0)`. */
  predicate IsMidnight(dt: DateTime)
  {
    dt.hour == 0 && dt.minute == 0 && dt.second == 0 && dt.micro == 0
  }

  /** `a < b` on datetimes: field by field from the year down. */
  predicate Before(a: DateTime, b: DateTime)
  {
    FieldsBefore(Fields(a), Fields(b))
  }

  predicate FieldsBefore(x: seq<int>, y: seq<int>)
    requires |x| == |y|
  {
    |x| > 0 && (x[0] < y[0] || (x[0] == y[0] && FieldsBefore(x[1..], y[1..])))
  }

  lemma {:induction false} FieldsBeforeTotal(x: seq<int>, y: seq<int>)
    requires |x| == |y|
    ensures x == y || FieldsBefore(x, y) || FieldsBefore(y, x)
    ensures !(FieldsBefore(x, y) && FieldsBefore(y, x))
    ensures !FieldsBefore(x, x)
    decreases |x|
  {
    if |x| > 0 {
      FieldsBeforeTotal(x[1..], y[1..]);
      FieldsBeforeTotal(x[1..], x[1..]);
      if x[0] == y[0] && x[1..] == y[1..] {
        assert x == [x[0]] + x[1..] && y == [y[0]] + y[1..];
      }
    }
  }

  lemma {:induction false} FieldsBeforeTransitive(x: seq<int>, y: seq<int>, z: seq<int>)
    requires |x| == |y| == |z| && FieldsBefore(x, y) && FieldsBefore(y, z)
    ensures FieldsBefore(x, z)
    decreases |x|
  {
    if x[0] == y[0] && y[0] == z[0] {
      FieldsBeforeTransitive(x[1..], y[1..], z[1..]);
    }
  }

  /** Datetime comparison is a strict total order. */
  lemma BeforeIsStrictTotalOrder(a: DateTime, b: DateTime, c: DateTime)
    ensures !Before(a, a)
    ensures a == b || Before(a, b) || Before(b, a)
    ensures Before(a, b) && Before(b, c) ==> Before(a, c)
  {
    FieldsBeforeTotal(Fields(a), Fields(b));
    FieldsBeforeTotal(Fields(a), Fields(a));
    if Before(a, b) && Before(b, c) {
      FieldsBeforeTransitive(Fields(a), Fields(b), Fields(c));
    }
  }
}
