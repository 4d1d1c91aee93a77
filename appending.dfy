/**
 * `append_parameter` (current revision): an existing record, named by an
 * identifier expression, is edited key by key and committed.  A text value
 * is assigned (a key ending in `date` parsed first), and a list value is
 * appended to the collection the attribute already holds: a dictionary
 * becomes a new record, a string contributes every record it resolves to.
 */
module Appending {
  import opened Wrappers
  import opened Text
  import opened Schema
  import opened Store
  import opened Resolution
  import opened Construction

  /** The record to edit: its class and its position in the class's table. */
  datatype Located = Located(et: EntityType, index: int)

  /**
   * `get_related_ids(...)[0][0]` and the query for that id: the first
   * record the expression names.
   */
  function Target(db: Tables, reg: Registry, s: string): (r: Result<Located>)
    ensures ResolveIds(db, reg, Current, s).Err? ==> r == Err(ResolveIds(db, reg, Current, s).error)
    ensures r.Ok? ==> ResolveIds(db, reg, Current, s).Ok? && r.value.et == reg[CategoryOf(s)].entity
    ensures r.Ok? ==> 0 <= r.value.index < |RowsOf(db, r.value.et)| &&
                      RowId(RowsOf(db, r.value.et)[r.value.index]) == ResolveIds(db, reg, Current, s).value[0]
  {
    match ResolveIds(db, reg, Current, s)
    case Err(e) => Err(e)
    case Ok(ids) =>
      var et := reg[CategoryOf(s)].entity;
      var k := IndexOf(RowsOf(db, et), ids[0]);
      if k < 0 then Err(IndexError) else Ok(Located(et, k))
  }

  /**
   * `getattr(obj, key)` for a list value: the ids of the collection the
   * attribute holds, or none when it holds something without `append`.
   */
  function Collection(et: EntityType, record: Row, key: string): (r: Result<Option<seq<int>>>)
    ensures r.Err? <==> key !in record && Kind(et, key) == NoAttr
    ensures r.Err? ==> r.error == AttributeError(key)
    ensures key in record && record[key].Refs? ==> r == Ok(Some(record[key].ids))
    ensures key in record && !record[key].Refs? ==> r == Ok(None)
    ensures key !in record && r.Ok? ==> (r.value.Some? <==> Kind(et, key) == ToMany)
  {
    if key in record then
      if record[key].Refs? then Ok(Some(record[key].ids)) else Ok(None)
    else
      match Kind(et, key)
      case NoAttr => Err(AttributeError(key))
      case ToMany => Ok(Some([]))
      case _ => Ok(None)
  }

  /** What one element of a list value gives to `append`. */
  datatype Contribution = Ids(ids: seq<int>) | Unsaved | Nothing

  /**
   * One element of a list value: a dictionary is created by `add_generic`
   * (committed at once; a uniqueness violation leaves it unsaved), a
   * string gives every record it resolves to, anything else is skipped.
   */
  function AppendItem(db: Tables, reg: Registry, item: Item): (r: (Tables, Result<Contribution>))
    ensures r.1.Ok? ==> (r.1.value.Nothing? <==> item.OtherItem?)
    ensures r.1.Ok? && item.Child? ==> r.1.value.Unsaved? || |r.1.value.ids| == 1
    ensures !item.Child? ==> r.0 == db
  {
    match item
    case Child(t) =>
      (match Create(db, reg, Current, t)
       case (db', Err(e)) => (db', Err(e))
       case (db', Ok(c)) => if c.id.None? then (db', Ok(Unsaved)) else (db', Ok(Ids([c.id.value]))))
    case Expr(s) =>
      (match ResolveIds(db, reg, Current, s)
       case Err(e) => (db, Err(e))
       case Ok(ids) => (db, Ok(Ids(ids))))
    case OtherItem => (db, Ok(Nothing))
  }

  /**
   * The loop over a list value: each contribution appended to the
   * collection.  Appending to an attribute that is not a collection fails;
   * an unsaved child leaves the session rolled back, so its next use fails.
   */
  function AppendItems(db: Tables, reg: Registry, items: seq<Item>, coll: Option<seq<int>>): (r: (Tables, Result<Option<seq<int>>>))
    ensures r.1.Ok? ==> r.1.value.Some? == coll.Some?
    ensures r.1.Ok? && coll.Some? ==> |coll.value| <= |r.1.value.value| && r.1.value.value[..|coll.value|] == coll.value
    decreases |items|
  {
    if |items| == 0 then (db, Ok(coll))
    else
      match AppendItem(db, reg, items[0])
      case (db', Err(e)) => (db', Err(e))
      case (db', Ok(Nothing)) => AppendItems(db', reg, items[1..], coll)
      case (db', Ok(Unsaved)) =>
        if coll.None? then (db', Err(AttributeError("append"))) else (db', Err(RolledBack))
      case (db', Ok(Ids(ids))) =>
        if coll.None? then (db', Err(AttributeError("append")))
        else
          var r := AppendItems(db', reg, items[1..], Some(coll.value + ids));
          if r.1.Ok? then
            assert r.1.value.value[..|coll.value|] == r.1.value.value[..|coll.value + ids|][..|coll.value|];
            r
          else r
  }

  /**
   * One key of the edit.  Text holding both `:` and `.` was meant to be
   * resolved, but that branch names an undefined variable; an int fails the
   * `in` test; a datetime is not iterable.
   */
  function AppendKey(db: Tables, reg: Registry, et: EntityType, key: string, v: Param, record: Row): (r: (Tables, Result<Row>))
    ensures v.PInt? ==> r == (db, Err(TypeError("argument of type 'int' is not iterable")))
    ensures v.PStr? && Contains(v.s, ":") && Contains(v.s, ".") ==> r == (db, Err(NameError("i")))
    ensures v.PStr? && !(Contains(v.s, ":") && Contains(v.s, ".")) && !EndsWith(key, "date") ==> r == (db, SetAttr(et, record, key, Str(v.s)))
    ensures r.1.Ok? ==> forall c :: c in record ==> c in r.1.value
    ensures r.1.Ok? ==> forall c :: c in r.1.value ==> c in record || c == key
    ensures r.1.Ok? ==> forall c :: c in record && c != key ==> r.1.value[c] == record[c]
  {
    match v
    case PInt(_) => (db, Err(TypeError("argument of type 'int' is not iterable")))
    case PStr(s) =>
      if Contains(s, ":") && Contains(s, ".") then (db, Err(NameError("i")))
      else
        (match DateStep(key, v)
         case Err(e) => (db, Err(e))
         case Ok(v') => (db, SetAttr(et, record, key, Scalar(v'))))
    case PDate(_) =>
      (match Collection(et, record, key)
       case Err(e) => (db, Err(e))
       case Ok(_) => (db, Err(TypeError("'datetime.datetime' object is not iterable"))))
    case PList(items) =>
      match Collection(et, record, key)
      case Err(e) => (db, Err(e))
      case Ok(coll) =>
        match AppendItems(db, reg, items, coll)
        case (db', Err(e)) => (db', Err(e))
        case (db', Ok(None)) => (db', Ok(record))
        case (db', Ok(Some(ids))) => (db', Ok(record[key := Refs(ids)]))
  }

  /** The loop over the keys of the dictionary, in insertion order. */
  function AppendKeys(db: Tables, reg: Registry, et: EntityType, es: seq<Entry>, record: Row): (r: (Tables, Result<Row>))
    ensures r.1.Ok? ==> forall c :: c in record ==> c in r.1.value
    ensures r.1.Ok? ==> forall c :: c in r.1.value ==> c in record || c in Keys(es)
    ensures r.1.Ok? ==> forall c :: c in record && c !in Keys(es) ==> r.1.value[c] == record[c]
    decreases |es|
  {
    if |es| == 0 then (db, Ok(record))
    else
      match AppendKey(db, reg, et, es[0].key, es[0].value, record)
      case (db', Err(e)) => (db', Err(e))
      case (db', Ok(record')) =>
        assert Keys(es) == [es[0].key] + Keys(es[1..]);
        AppendKeys(db', reg, et, es[1..], record')
  }

  /**
   * `append_parameter`: the database after the call (children committed,
   * then the edited record) and whether the edit was stored, which it is
   * not after a uniqueness violation (a warning is printed instead).
   */
  function Append(db: Tables, reg: Registry, s: string, params: Tree): (r: (Tables, Result<bool>))
  {
    match Target(db, reg, s)
    case Err(e) => (db, Err(e))
    case Ok(loc) =>
      var record := RowsOf(db, loc.et)[loc.index];
      match AppendKeys(db, reg, loc.et, params.entries, record)
      case (db', Err(e)) => (db', Err(e))
      case (db', Ok(edited)) =>
        AppendKeysExtends(db, reg, loc.et, params.entries, record);
        var (db'', stored) := Commit(db', loc.et, loc.index, Persisted(loc.et, edited));
        (db'', Ok(stored))
  }

  // --- The edit as the source runs it.

  /**
   * `append_parameter`: find the record, edit it key by key on the shared
   * session, then commit.
   */
  method AppendParameter(db: Database, reg: Registry, s: string, params: Tree) returns (r: Result<bool>)
    modifies db
    ensures (db.tables, r) == Append(old(db.tables), reg, s, params)
  {
    var ids := GetRelatedIds(db, reg, Current, s);
    if ids.Err? {
      return Err(ids.error);
    }
    var et := reg[CategoryOf(s)].entity;
    var k := IndexOf(RowsOf(db.tables, et), ids.value[0]);
    if k < 0 {
      return Err(IndexError);
    }
    var record := RowsOf(db.tables, et)[k];
    ghost var before := db.tables;
    var edited := EditKeys(db, reg, et, params.entries, record);
    if edited.Err? {
      return Err(edited.error);
    }
    AppendKeysExtends(before, reg, et, params.entries, record);
    var stored := db.CommitEdit(et, k, Persisted(et, edited.value));
    r := Ok(stored);
  }

  lemma AppendKeysUnfold(db: Tables, reg: Registry, et: EntityType, es: seq<Entry>, record: Row)
    requires |es| > 0
    ensures var (db', step) := AppendKey(db, reg, et, es[0].key, es[0].value, record);
            AppendKeys(db, reg, et, es, record)
            == if step.Err? then (db', Err(step.error)) else AppendKeys(db', reg, et, es[1..], step.value)
  {
  }

  /** The loop over the keys of the dictionary. */
  method EditKeys(db: Database, reg: Registry, et: EntityType, es: seq<Entry>, record0: Row) returns (r: Result<Row>)
    modifies db
    ensures (db.tables, r) == AppendKeys(old(db.tables), reg, et, es, record0)
  {
    var record := record0;
    var i := 0;
    while i < |es|
      invariant 0 <= i <= |es|
      invariant AppendKeys(old(db.tables), reg, et, es, record0) == AppendKeys(db.tables, reg, et, es[i..], record)
    {
      assert es[i..][0] == es[i] && es[i..][1..] == es[i + 1..];
      ghost var before := db.tables;
      AppendKeysUnfold(before, reg, et, es[i..], record);
      var step := EditKey(db, reg, et, es[i].key, es[i].value, record);
      assert (db.tables, step) == AppendKey(before, reg, et, es[i].key, es[i].value, record);
      if step.Err? {
        return Err(step.error);
      }
      record := step.value;
      i := i + 1;
    }
    r := Ok(record);
  }

  /** One key: assigned, or appended to when its value is a list. */
  method EditKey(db: Database, reg: Registry, et: EntityType, key: string, v: Param, record: Row) returns (r: Result<Row>)
    modifies db
    ensures (db.tables, r) == AppendKey(old(db.tables), reg, et, key, v, record)
  {
    match v
    case PInt(_) =>
      r := Err(TypeError("argument of type 'int' is not iterable"));
    case PStr(s) =>
      if Contains(s, ":") && Contains(s, ".") {
        return Err(NameError("i"));
      }
      var converted := DateStep(key, v);
      if converted.Err? {
        return Err(converted.error);
      }
      r := SetAttr(et, record, key, Scalar(converted.value));
    case PDate(_) =>
      var coll := Collection(et, record, key);
      if coll.Err? {
        return Err(coll.error);
      }
      r := Err(TypeError("'datetime.datetime' object is not iterable"));
    case PList(items) =>
      var coll := Collection(et, record, key);
      if coll.Err? {
        return Err(coll.error);
      }
      var appended := AppendEntries(db, reg, items, coll.value);
      if appended.Err? {
        return Err(appended.error);
      }
      if appended.value.None? {
        r := Ok(record);
      } else {
        r := Ok(record[key := Refs(appended.value.value)]);
      }
  }

  /** The loop over a list value, appending to the collection as it goes. */
  method AppendEntries(db: Database, reg: Registry, items: seq<Item>, coll0: Option<seq<int>>) returns (r: Result<Option<seq<int>>>)
    modifies db
    ensures (db.tables, r) == AppendItems(old(db.tables), reg, items, coll0)
  {
    var coll := coll0;
    var i := 0;
    while i < |items|
      invariant 0 <= i <= |items|
      invariant AppendItems(old(db.tables), reg, items, coll0) == AppendItems(db.tables, reg, items[i..], coll)
    {
      assert items[i..][1..] == items[i + 1..];
      ghost var before := db.tables;
      var c := AppendEntry(db, reg, items[i]);
      AppendItemsUnfold(before, reg, items[i..], coll, db.tables, c);
      if c.Err? {
        return Err(c.error);
      }
      if !c.value.Nothing? {
        if coll.None? {
          return Err(AttributeError("append"));
        }
        if c.value.Unsaved? {
          return Err(RolledBack);
        }
        var appended := AppendEach(coll.value, c.value.ids);
        coll := Some(appended);
      }
      i := i + 1;
    }
    r := Ok(coll);
  }

  /** One element of a list value: a dictionary added by `add_generic` on the same session, a string resolved. */
  method AppendEntry(db: Database, reg: Registry, item: Item) returns (r: Result<Contribution>)
    modifies db
    ensures (db.tables, r) == AppendItem(old(db.tables), reg, item)
  {
    match item
    case Child(t) =>
      var created := AddGeneric(db, reg, Current, t);
      if created.Err? {
        return Err(created.error);
      }
      if created.value.id.None? {
        r := Ok(Unsaved);
      } else {
        r := Ok(Ids([created.value.id.value]));
      }
    case Expr(s) =>
      var ids := GetRelatedIds(db, reg, Current, s);
      if ids.Err? {
        return Err(ids.error);
      }
      r := Ok(Ids(ids.value));
    case OtherItem =>
      r := Ok(Nothing);
  }

  /** `for related_entry_id in ids: set_attribute.append(...)`. */
  method AppendEach(coll: seq<int>, ids: seq<int>) returns (r: seq<int>)
    ensures r == coll + ids
  {
    r := coll;
    var j := 0;
    while j < |ids|
      invariant 0 <= j <= |ids|
      invariant r == coll + ids[..j]
    {
      r := r + [ids[j]];
      j := j + 1;
    }
    assert ids[..j] == ids;
  }

  lemma AppendItemsUnfold(db: Tables, reg: Registry, items: seq<Item>, coll: Option<seq<int>>, db': Tables, c: Result<Contribution>)
    requires |items| > 0 && (db', c) == AppendItem(db, reg, items[0])
    ensures AppendItems(db, reg, items, coll)
            == if c.Err? then (db', Err(c.error))
               else if c.value.Nothing? then AppendItems(db', reg, items[1..], coll)
               else if coll.None? then (db', Err(AttributeError("append")))
               else if c.value.Unsaved? then (db', Err(RolledBack))
               else AppendItems(db', reg, items[1..], Some(coll.value + c.value.ids))
  {
  }

  // --- Records are never removed.

  lemma AppendItemExtends(db: Tables, reg: Registry, item: Item)
    ensures Extends(db, AppendItem(db, reg, item).0)
  {
    if item.Child? {
      CreateExtends(db, reg, Current, item.tree);
    } else {
      ExtendsReflexive(db);
    }
  }

  lemma {:induction false} AppendItemsExtends(db: Tables, reg: Registry, items: seq<Item>, coll: Option<seq<int>>)
    ensures Extends(db, AppendItems(db, reg, items, coll).0)
    decreases |items|
  {
    if |items| == 0 {
      ExtendsReflexive(db);
    } else {
      var (db', c) := AppendItem(db, reg, items[0]);
      AppendItemExtends(db, reg, items[0]);
      if c.Ok? && (c.value.Nothing? || (coll.Some? && c.value.Ids?)) {
        var coll' := if c.value.Nothing? then coll else Some(coll.value + c.value.ids);
        AppendItemsExtends(db', reg, items[1..], coll');
        ExtendsTransitive(db, db', AppendItems(db', reg, items[1..], coll').0);
      }
    }
  }

  lemma {:induction false} AppendKeysExtends(db: Tables, reg: Registry, et: EntityType, es: seq<Entry>, record: Row)
    ensures Extends(db, AppendKeys(db, reg, et, es, record).0)
    decreases |es|
  {
    if |es| == 0 {
      ExtendsReflexive(db);
    } else {
      var v := es[0].value;
      var (db', step) := AppendKey(db, reg, et, es[0].key, v, record);
      if v.PList? && Collection(et, record, es[0].key).Ok? {
        AppendItemsExtends(db, reg, v.items, Collection(et, record, es[0].key).value);
      } else {
        ExtendsReflexive(db);
      }
      if step.Ok? {
        AppendKeysExtends(db', reg, et, es[1..], step.value);
        ExtendsTransitive(db, db', AppendKeys(db', reg, et, es[1..], step.value).0);
      }
    }
  }

  // --- A list of expressions: every id, where `add_generic` keeps the first.

  /** All the ids the expressions resolve to, one expression after the other, or the first failure. */
  function AllIds(db: Tables, reg: Registry, items: seq<Item>): (r: Result<seq<int>>)
    requires AllExpressions(items)
    ensures r.Ok? ==> |r.value| >= |items|
  {
    if |items| == 0 then Ok([])
    else
      match ResolveIds(db, reg, Current, items[0].expr)
      case Err(e) => Err(e)
      case Ok(ids) =>
        assert forall k :: 1 <= k < |items| ==> items[k] == items[1..][k - 1];
        match AllIds(db, reg, items[1..])
        case Err(e) => Err(e)
        case Ok(rest) => Ok(ids + rest)
  }

  lemma AppendExpressionStep(db: Tables, reg: Registry, items: seq<Item>, coll: seq<int>)
    requires |items| > 0 && items[0].Expr?
    ensures ResolveIds(db, reg, Current, items[0].expr).Err? ==>
              AppendItems(db, reg, items, Some(coll)) == (db, Err(ResolveIds(db, reg, Current, items[0].expr).error))
    ensures ResolveIds(db, reg, Current, items[0].expr).Ok? ==>
              AppendItems(db, reg, items, Some(coll)) == AppendItems(db, reg, items[1..], Some(coll + ResolveIds(db, reg, Current, items[0].expr).value))
  {
  }

  lemma AllIdsStep(db: Tables, reg: Registry, items: seq<Item>)
    requires |items| > 0 && AllExpressions(items)
    ensures AllExpressions(items[1..])
    ensures ResolveIds(db, reg, Current, items[0].expr).Err? ==>
              AllIds(db, reg, items) == Err(ResolveIds(db, reg, Current, items[0].expr).error)
    ensures ResolveIds(db, reg, Current, items[0].expr).Ok? ==>
              AllIds(db, reg, items) == match AllIds(db, reg, items[1..])
                                        case Ok(rest) => Ok(ResolveIds(db, reg, Current, items[0].expr).value + rest)
                                        case Err(e) => Err(e)
  {
    assert forall k :: 1 <= k < |items| ==> items[k] == items[1..][k - 1];
  }

  /**
   * Appending a list of expressions to a collection leaves the database as
   * it is and adds, in list order, every record each expression names.
   */
  lemma {:induction false} AppendExpressions(db: Tables, reg: Registry, items: seq<Item>, coll: seq<int>)
    requires AllExpressions(items)
    ensures AllIds(db, reg, items).Ok? ==> AppendItems(db, reg, items, Some(coll)) == (db, Ok(Some(coll + AllIds(db, reg, items).value)))
    ensures AllIds(db, reg, items).Err? ==> AppendItems(db, reg, items, Some(coll)) == (db, Err(AllIds(db, reg, items).error))
    decreases |items|
  {
    if |items| == 0 {
      assert coll + [] == coll;
    } else {
      AppendExpressionStep(db, reg, items, coll);
      AllIdsStep(db, reg, items);
      var res := ResolveIds(db, reg, Current, items[0].expr);
      if res.Ok? {
        AppendExpressions(db, reg, items[1..], coll + res.value);
        AppendExpressionsJoin(AppendItems(db, reg, items[1..], Some(coll + res.value)), db, coll, res.value, AllIds(db, reg, items[1..]));
      }
    }
  }

  /** The inductive step of `AppendExpressions`, on the values alone. */
  lemma AppendExpressionsJoin(tail: (Tables, Result<Option<seq<int>>>), db: Tables, coll: seq<int>, ids: seq<int>, rest: Result<seq<int>>)
    requires rest.Ok? ==> tail == (db, Ok(Some(coll + ids + rest.value)))
    ensures rest.Ok? ==> tail == (db, Ok(Some(coll + (ids + rest.value))))
  {
    if rest.Ok? {
      assert coll + ids + rest.value == coll + (ids + rest.value);
    }
  }

  lemma FirstIdsStep(db: Tables, reg: Registry, items: seq<Item>)
    requires |items| > 0 && AllExpressions(items)
    ensures AllExpressions(items[1..])
    ensures FirstIds(db, reg, Current, items).Ok? <==>
              ResolveIds(db, reg, Current, items[0].expr).Ok? && FirstIds(db, reg, Current, items[1..]).Ok?
    ensures FirstIds(db, reg, Current, items).Ok? ==>
              FirstIds(db, reg, Current, items).value
              == [ResolveIds(db, reg, Current, items[0].expr).value[0]] + FirstIds(db, reg, Current, items[1..]).value
  {
    assert forall k :: 1 <= k < |items| ==> items[k] == items[1..][k - 1];
  }

  lemma {:induction false} FirstIdsAmongAll(db: Tables, reg: Registry, items: seq<Item>)
    requires AllExpressions(items)
    ensures FirstIds(db, reg, Current, items).Ok? <==> AllIds(db, reg, items).Ok?
    ensures FirstIds(db, reg, Current, items).Ok? ==>
              forall k :: 0 <= k < |items| ==> FirstIds(db, reg, Current, items).value[k] in AllIds(db, reg, items).value
    decreases |items|
  {
    if |items| > 0 {
      AllIdsStep(db, reg, items);
      FirstIdsStep(db, reg, items);
      FirstIdsAmongAll(db, reg, items[1..]);
      var res := ResolveIds(db, reg, Current, items[0].expr);
      var first := FirstIds(db, reg, Current, items);
      if res.Ok? && first.Ok? {
        var firstRest := FirstIds(db, reg, Current, items[1..]).value;
        var rest := AllIds(db, reg, items[1..]).value;
        HeadAmong(res.value, firstRest, rest);
      }
    }
  }

  /** The first of some ids, followed by members of `rest`, are all among those ids and `rest`. */
  lemma HeadAmong(ids: seq<int>, firstRest: seq<int>, rest: seq<int>)
    requires |ids| > 0
    requires forall k :: 0 <= k < |firstRest| ==> firstRest[k] in rest
    ensures forall k :: 0 <= k < |firstRest| + 1 ==> ([ids[0]] + firstRest)[k] in ids + rest
  {
    forall k | 0 <= k < |firstRest| + 1
      ensures ([ids[0]] + firstRest)[k] in ids + rest
    {
      if k == 0 {
        assert (ids + rest)[0] == ids[0];
      } else {
        assert ([ids[0]] + firstRest)[k] == firstRest[k - 1];
      }
    }
  }

  // --- The edit touches one record, and in it only the keys given.

  /**
   * `append_parameter` changes no record but the one it edits; the edited
   * record keeps every column the dictionary does not name, and a
   * uniqueness violation leaves it as it was.  Records created for list
   * values stay committed whatever the outcome.
   */
  lemma AppendEditsOneRecord(db: Tables, reg: Registry, s: string, params: Tree, loc: Located, db2: Tables, res: Result<bool>)
    requires Target(db, reg, s) == Ok(loc)
    requires (db2, res) == Append(db, reg, s, params)
    ensures forall t :: t in db ==> t in db2 && |db[t]| <= |db2[t]|
    ensures forall t, j :: t in db && 0 <= j < |db[t]| && (t != loc.et.table || j != loc.index) ==> db2[t][j] == db[t][j]
    ensures res == Ok(false) ==> RowsOf(db2, loc.et)[loc.index] == RowsOf(db, loc.et)[loc.index]
    ensures res == Ok(true) ==>
              forall c :: c in RowsOf(db, loc.et)[loc.index] && c !in Keys(params.entries) && Kind(loc.et, c) != NoAttr ==>
                c in RowsOf(db2, loc.et)[loc.index] && RowsOf(db2, loc.et)[loc.index][c] == RowsOf(db, loc.et)[loc.index][c]
  {
    var record := RowsOf(db, loc.et)[loc.index];
    var (db', edited) := AppendKeys(db, reg, loc.et, params.entries, record);
    AppendKeysExtends(db, reg, loc.et, params.entries, record);
    ExtendsKeepsRows(db, db');
    if edited.Ok? {
      CommitOutcome(db, db', loc.et, loc.index, edited.value, Keys(params.entries));
    }
  }

  /**
   * Committing an edit of record `k` over a database that only grew since
   * it was read: the other records stay, and the attributes the edit did
   * not name keep their values when it is stored.
   */
  lemma CommitOutcome(db: Tables, db': Tables, et: EntityType, k: int, edited: Row, keys: seq<string>)
    requires Extends(db, db') && 0 <= k < |RowsOf(db, et)|
    requires forall c :: c in RowsOf(db, et)[k] && c !in keys ==> c in edited && edited[c] == RowsOf(db, et)[k][c]
    ensures 0 <= k < |RowsOf(db', et)|
    ensures var (db2, stored) := Commit(db', et, k, Persisted(et, edited));
            var record := RowsOf(db, et)[k];
            (forall t :: t in db ==> t in db2 && |db[t]| <= |db2[t]|) &&
            (forall t, j :: t in db && 0 <= j < |db[t]| && (t != et.table || j != k) ==> db2[t][j] == db[t][j]) &&
            (!stored ==> RowsOf(db2, et)[k] == record) &&
            (stored ==> forall c :: c in record && c !in keys && Kind(et, c) != NoAttr ==>
                          c in RowsOf(db2, et)[k] && RowsOf(db2, et)[k][c] == record[c])
  {
    ExtendsKeepsRows(db, db');
  }
}
