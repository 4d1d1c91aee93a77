/**
 * `double_entry` of the older revision: whether an animal already holds a
 * given value in a given column.
 */
module Conflicts {
  import opened Wrappers
  import opened Schema
  import opened Store
  import opened Resolution

  /** Python's name for the type of a value, as a concatenation error shows it. */
  function TypeName(v: Value): string
  {
    match v
    case Int(_) => "int"
    case Str(_) => "str"
    case Date(_) => "datetime.datetime"
    case Refs(_) => "list"
  }

  /**
   * `double_entry`: true when some animal has `field == value`, after the
   * conflict is printed by concatenating the value to text; false stands for
   * the `None` returned otherwise.
   */
  function DoubleEntry(db: Tables, field: string, value: Value): (r: Result<bool>)
    ensures Kind(AnimalLegacy, field) == NoAttr ==> r == Err(AttributeError(field))
    ensures r.Ok? ==> field in AnimalLegacy.columns
    ensures r == Ok(false) <==> field in AnimalLegacy.columns && Select(RowsOf(db, AnimalLegacy), [Eq(field, value)]) == []
  {
    match EqualityFilter(AnimalLegacy, field, value)
    case Err(e) => Err(e)
    case Ok(f) =>
      if Select(RowsOf(db, AnimalLegacy), [f]) == [] then Ok(false)
      else if value.Str? then Ok(true)
      else Err(TypeError("can only concatenate str (not \"" + TypeName(value) + "\") to str"))
  }

  /** A record passes the one equality filter exactly when it holds a matching value in the column. */
  lemma SatisfiesEquality(r: Row, field: string, value: Value)
    ensures SatisfiesAll(r, [Eq(field, value)]) <==> field in r && ValueMatches(r[field], value)
  {
    var fs := [Eq(field, value)];
    if field in r && ValueMatches(r[field], value) {
      assert forall k :: 0 <= k < |fs| ==> fs[k] == Eq(field, value);
    }
    if SatisfiesAll(r, fs) {
      assert Satisfies(r, fs[0]);
    }
  }

  /**
   * The conflict is reported exactly when the column exists, the value is
   * text, and some animal holds a matching value; a match on a value that is
   * not text fails while the conflict is printed.
   */
  lemma DoubleEntryMeaning(db: Tables, field: string, value: Value)
    ensures DoubleEntry(db, field, value) == Ok(true) <==>
              field in AnimalLegacy.columns && value.Str? &&
              exists k :: 0 <= k < |RowsOf(db, AnimalLegacy)| && field in RowsOf(db, AnimalLegacy)[k] &&
                          ValueMatches(RowsOf(db, AnimalLegacy)[k][field], value)
    ensures DoubleEntry(db, field, value).Err? && field in AnimalLegacy.columns ==> !value.Str?
  {
    var rows := RowsOf(db, AnimalLegacy);
    var ids := Select(rows, [Eq(field, value)]);
    if exists k :: 0 <= k < |rows| && field in rows[k] && ValueMatches(rows[k][field], value) {
      var k :| 0 <= k < |rows| && field in rows[k] && ValueMatches(rows[k][field], value);
      SatisfiesEquality(rows[k], field, value);
      assert RowId(rows[k]) in ids;
    } else if ids != [] {
      assert ids[0] in ids;
      var k :| 0 <= k < |rows| && SatisfiesAll(rows[k], [Eq(field, value)]) && RowId(rows[k]) == ids[0];
      SatisfiesEquality(rows[k], field, value);
    }
  }

  /** An animal `add_generic` has just committed with a text value is reported as a double entry of that value. */
  lemma InsertedIsDoubleEntry(db: Tables, row: Row, field: string, s: string)
    requires field in AnimalLegacy.columns && field != "id"
    requires field in row && row[field] == Str(s)
    requires Insert(db, AnimalLegacy, row).1.Some?
    ensures DoubleEntry(Insert(db, AnimalLegacy, row).0, field, Str(s)) == Ok(true)
  {
    var rows := RowsOf(db, AnimalLegacy);
    var full := Completed(rows, AnimalLegacy, row);
    var db' := Insert(db, AnimalLegacy, row).0;
    assert RowsOf(db', AnimalLegacy) == rows + [full];
    assert RowsOf(db', AnimalLegacy)[|rows|] == full;
    assert full[field] == Str(s);
    DoubleEntryMeaning(db', field, Str(s));
  }
}
