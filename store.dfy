/**
 * The database the resolver and the constructor work against: one sequence
 * of records per table, kept in insertion order, and the two operations the
 * modelled code needs from it: selecting the ids of the records that pass a
 * chain of filters, and `add_to_db` (insert and commit, with a uniqueness
 * violation reported as a warning instead of an error).
 */
module Store {
  import opened Wrappers
  import opened Text
  import opened Schema

  type Tables = map<string, seq<Row>>

  function RowsOf(db: Tables, et: EntityType): seq<Row>
  {
    if et.table in db then db[et.table] else []
  }

  function RowId(r: Row): int
  {
    if "id" in r && r["id"].Int? then r["id"].i else 0
  }

  /** A query filter: `cls.field == value`, or `cls.field.contains(record)` on a collection. */
  datatype Filter = Eq(field: string, value: Value) | Has(field: string, id: int)

  /**
   * SQLite's `=` between a stored value and a bound one: equal values match,
   * and a text operand is compared with an integer column by the column's
   * numeric affinity, an integer operand with a text column by its decimal form.
   */
  predicate ValueMatches(stored: Value, q: Value)
  {
    stored == q ||
    (stored.Int? && q.Str? && ParseInt(q.s) == Ok(stored.i)) ||
    (stored.Str? && q.Int? && stored.s == IntToString(q.i))
  }

  predicate Satisfies(r: Row, f: Filter)
  {
    match f
    case Eq(field, v) => field in r && ValueMatches(r[field], v)
    case Has(field, id) => field in r && r[field].Refs? && id in r[field].ids
  }

  predicate SatisfiesAll(r: Row, fs: seq<Filter>)
  {
    forall k :: 0 <= k < |fs| ==> Satisfies(r, fs[k])
  }

  /** The ids of the records passing every filter, in table order. */
  function Select(rows: seq<Row>, fs: seq<Filter>): (ids: seq<int>)
    ensures |ids| <= |rows|
    ensures forall x :: x in ids <==> exists k :: 0 <= k < |rows| && SatisfiesAll(rows[k], fs) && RowId(rows[k]) == x
  {
    if |rows| == 0 then []
    else
      var rest := Select(rows[1..], fs);
      assert forall k :: 1 <= k < |rows| ==> rows[k] == rows[1..][k - 1];
      if SatisfiesAll(rows[0], fs) then [RowId(rows[0])] + rest else rest
  }

  /** Chaining one more filter can only remove ids. */
  lemma {:induction false} SelectNarrows(rows: seq<Row>, fs: seq<Filter>, more: seq<Filter>)
    ensures forall x :: x in Select(rows, fs + more) ==> x in Select(rows, fs)
  {
    forall x | x in Select(rows, fs + more)
      ensures x in Select(rows, fs)
    {
      var k :| 0 <= k < |rows| && SatisfiesAll(rows[k], fs + more) && RowId(rows[k]) == x;
      assert forall j :: 0 <= j < |fs| ==> (fs + more)[j] == fs[j];
    }
  }

  /** The id SQLite gives a new record: one more than the largest in the table. */
  function NextId(rows: seq<Row>): (n: int)
    ensures n >= 1
    ensures forall k :: 0 <= k < |rows| ==> RowId(rows[k]) < n
  {
    if |rows| == 0 then 1
    else
      var m := NextId(rows[..|rows| - 1]);
      assert forall k :: 0 <= k < |rows| - 1 ==> rows[k] == rows[..|rows| - 1][k];
      if RowId(rows[|rows| - 1]) + 1 > m then RowId(rows[|rows| - 1]) + 1 else m
  }

  /** The columns whose values must be unique in the table: the primary key and the declared ones. */
  function UniqueColumns(et: EntityType): seq<string>
  {
    ["id"] + et.unique
  }

  /** The new record clashes with an existing one on a unique column that both set. */
  predicate Clashes(rows: seq<Row>, et: EntityType, row: Row)
  {
    exists k, c :: 0 <= k < |rows| && c in UniqueColumns(et) && c in rows[k] && c in row && rows[k][c] == row[c]
  }

  /** The insert defaults, for the columns the record leaves unset. */
  function WithDefaults(row: Row, defaults: seq<(string, Default)>): (r: Row)
    ensures forall c :: c in row ==> c in r && r[c] == row[c]
    ensures forall c :: c in r && c !in row ==> exists k :: 0 <= k < |defaults| && defaults[k].0 == c
    decreases |defaults|
  {
    if |defaults| == 0 then row
    else
      var (c, d) := defaults[0];
      var row' := if c in row then row
                  else match d
                       case Constant(v) => row[c := v]
                       case CopyOf(src) => if src in row then row[c := row[src]] else row;
      WithDefaults(row', defaults[1..])
  }

  /** The record as stored: defaults filled in and an id given when the record has none. */
  function Completed(rows: seq<Row>, et: EntityType, row: Row): (r: Row)
    ensures "id" in r && r["id"].Int?
  {
    var full := WithDefaults(row, et.defaults);
    if "id" in full && full["id"].Int? then full else full["id" := Int(NextId(rows))]
  }

  /**
   * A Substance inserted with a `name` and no `long_name` is stored with its
   * name as its long name; a `long_name` that is given is kept.
   */
  lemma SubstanceLongName(rows: seq<Row>, row: Row)
    requires "name" in row
    ensures var r := Completed(rows, SubstanceLegacy, row);
            "long_name" in r && r["long_name"] == (if "long_name" in row then row["long_name"] else row["name"])
  {
    var once := if "long_name" in row then row else row["long_name" := row["name"]];
    assert WithDefaults(row, SubstanceLegacy.defaults) == WithDefaults(once, SubstanceLegacy.defaults[1..]);
  }

  /**
   * `add_to_db`: insert the record and commit.  A uniqueness violation is
   * rolled back and answered with no id (the warning is printed, not raised).
   */
  function Insert(db: Tables, et: EntityType, row: Row): (Tables, Option<int>)
  {
    var rows := RowsOf(db, et);
    var full := Completed(rows, et, row);
    if Clashes(rows, et, full) then (db, None)
    else (db[et.table := rows + [full]], Some(RowId(full)))
  }

  lemma InsertOutcome(db: Tables, et: EntityType, row: Row)
    ensures var (db', id) := Insert(db, et, row);
            var full := Completed(RowsOf(db, et), et, row);
            (id.None? <==> Clashes(RowsOf(db, et), et, full)) &&
            (id.None? ==> db' == db) &&
            (id.Some? ==> RowsOf(db', et) == RowsOf(db, et) + [full] && id.value == RowId(full) &&
                          forall t :: t in db && t != et.table ==> t in db' && db'[t] == db[t])
  {
  }

  /** The records of every table are only ever appended to. */
  predicate Extends(db: Tables, db': Tables)
  {
    forall t :: t in db ==> t in db' && |db[t]| <= |db'[t]| && db'[t][..|db[t]|] == db[t]
  }

  lemma ExtendsTransitive(a: Tables, b: Tables, c: Tables)
    requires Extends(a, b) && Extends(b, c)
    ensures Extends(a, c)
  {
    forall t | t in a
      ensures t in c && |a[t]| <= |c[t]| && c[t][..|a[t]|] == a[t]
    {
      assert c[t][..|b[t]|][..|a[t]|] == c[t][..|a[t]|];
    }
  }

  lemma ExtendsKeepsRows(db: Tables, db': Tables)
    requires Extends(db, db')
    ensures forall t, j :: t in db && 0 <= j < |db[t]| ==> t in db' && j < |db'[t]| && db'[t][j] == db[t][j]
  {
    forall t, j | t in db && 0 <= j < |db[t]|
      ensures t in db' && j < |db'[t]| && db'[t][j] == db[t][j]
    {
      assert db'[t][..|db[t]|][j] == db'[t][j];
    }
  }

  lemma InsertExtends(db: Tables, et: EntityType, row: Row)
    ensures Extends(db, Insert(db, et, row).0)
  {
    var rows := RowsOf(db, et);
    var full := Completed(rows, et, row);
    if !Clashes(rows, et, full) && et.table in db {
      assert (rows + [full])[..|rows|] == rows;
    }
  }

  /** The position of the first record with the given id, or -1 when there is none. */
  function IndexOf(rows: seq<Row>, id: int): (k: int)
    ensures -1 <= k < |rows|
    ensures k >= 0 ==> RowId(rows[k]) == id && forall j :: 0 <= j < k ==> RowId(rows[j]) != id
    ensures k == -1 ==> forall j :: 0 <= j < |rows| ==> RowId(rows[j]) != id
  {
    if |rows| == 0 then -1
    else if RowId(rows[0]) == id then 0
    else
      var k := IndexOf(rows[1..], id);
      assert forall j :: 1 <= j < |rows| ==> rows[j] == rows[1..][j - 1];
      if k == -1 then -1 else k + 1
  }

  /** The edited record clashes with another record of its table on a unique column that both set. */
  predicate ClashesOther(rows: seq<Row>, k: int, et: EntityType, row: Row)
  {
    exists j, c :: 0 <= j < |rows| && j != k && c in UniqueColumns(et) && c in rows[j] && c in row && rows[j][c] == row[c]
  }

  /**
   * `commit_and_close` after an edit: the record at position `k` is
   * replaced, unless that violates uniqueness, which is rolled back and
   * answered with a warning (the flag is false).
   */
  function Commit(db: Tables, et: EntityType, k: int, row: Row): (r: (Tables, bool))
    requires 0 <= k < |RowsOf(db, et)|
    ensures r.1 <==> !ClashesOther(RowsOf(db, et), k, et, row)
    ensures !r.1 ==> r.0 == db
    ensures r.1 ==> RowsOf(r.0, et) == RowsOf(db, et)[k := row]
    ensures forall t :: t in db ==> t in r.0 && |r.0[t]| == |db[t]|
    ensures forall t :: t in db && t != et.table ==> r.0[t] == db[t]
  {
    var rows := RowsOf(db, et);
    if ClashesOther(rows, k, et, row) then (db, false)
    else (db[et.table := rows[k := row]], true)
  }

  /** Stands in for the SQLite database behind a session. */
  class Database {
    var tables: Tables

    constructor(initial: Tables)
      ensures tables == initial
    {
      tables := initial;
    }

    /** `add_to_db`: insert and commit, returning the new id, or no id after a uniqueness violation. */
    method AddToDb(et: EntityType, row: Row) returns (id: Option<int>)
      modifies this
      ensures (tables, id) == Insert(old(tables), et, row)
    {
      var rows := RowsOf(tables, et);
      var full := Completed(rows, et, row);
      if Clashes(rows, et, full) {
        id := None;
      } else {
        tables := tables[et.table := rows + [full]];
        id := Some(RowId(full));
      }
    }

    /** `commit_and_close` after the record at position `k` was edited. */
    method CommitEdit(et: EntityType, k: int, row: Row) returns (stored: bool)
      requires 0 <= k < |RowsOf(tables, et)|
      modifies this
      ensures (tables, stored) == Commit(old(tables), et, k, row)
    {
      var rows := RowsOf(tables, et);
      stored := !ClashesOther(rows, k, et, row);
      if stored {
        tables := tables[et.table := rows[k := row]];
      }
    }
  }
}
