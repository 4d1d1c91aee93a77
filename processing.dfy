/**
 * `rounded_days` of labbookdb/report/processing.py: the whole days of a
 * time span, rounded up when its remaining seconds reach half a day.
 */
module Processing {

  /**
   * A `datetime.timedelta` in its normalised form: whole days (possibly
   * negative), then seconds and microseconds within the day.
   */
  datatype Span = Span(days: int, seconds: int, microseconds: int)

  predicate Normalised(t: Span)
  {
    0 <= t.seconds < 86400 && 0 <= t.microseconds < 1000000
  }

  /**
   * `days`, plus one when `seconds / 43199.5 >= 1`; the division is taken
   * exactly, as a real number.
   */
  function RoundedDays(t: Span): (r: int)
    requires Normalised(t)
    ensures r == t.days || r == t.days + 1
    ensures r == t.days + 1 <==> t.seconds >= 43200
  {
    if t.seconds as real / 43199.5 >= 1.0 then t.days + 1 else t.days
  }

  /**
   * The result is the span's length in whole seconds rounded to the nearest
   * day, half a day rounding up; the microseconds play no part.
   */
  lemma RoundedDaysNearest(t: Span)
    requires Normalised(t)
    ensures RoundedDays(t) == (t.days * 86400 + t.seconds + 43200) / 86400
  {
    var total := t.days * 86400 + t.seconds + 43200;
    var q := if t.seconds >= 43200 then t.days + 1 else t.days;
    assert total == q * 86400 + (total - q * 86400);
    assert 0 <= total - q * 86400 < 86400;
    DivUnique(total, q);
  }

  lemma DivUnique(total: int, q: int)
    requires 0 <= total - q * 86400 < 86400
    ensures total / 86400 == q
  {
  }

  /** A whole number of days is returned unchanged. */
  lemma WholeDays(days: int, microseconds: int)
    requires 0 <= microseconds < 1000000
    ensures RoundedDays(Span(days, 0, microseconds)) == days
  {
  }
}
