/**
 * `add_generic`, `append_parameter` and `double_entry`: records built from a
 * parameter dictionary and committed to the database.
 *
 * A parameter dictionary names its class under `CATEGORY`; every other key
 * is an attribute.  A key ending in `date` has its value parsed as a
 * datetime from comma-separated integers (and the dictionary is updated in
 * place); a key ending in `_id` holds an identifier expression that is
 * resolved to a foreign key (the current revision takes an int as given);
 * a list creates its dictionaries as new records and resolves its strings
 * to existing ones; anything else is assigned as given.  The current
 * revision visits the keys in sorted order, the older one in insertion
 * order.
 */
module Construction {
  import opened Wrappers
  import opened Text
  import opened Schema
  import opened Store
  import opened Resolution
  import Ordering
  import DateTimes
  import Classes

  /** A value as `json.loads` gives it (floats and null left out), or a datetime the date conversion put in its place. */
  datatype Param = PInt(i: int) | PStr(s: string) | PDate(dt: DateTimes.DateTime) | PList(items: seq<Item>)

  /** An element of a list value: a dictionary describing a new record, an expression naming existing ones, or anything else. */
  datatype Item = Child(tree: Tree) | Expr(expr: string) | OtherItem

  datatype Entry = Entry(key: string, value: Param)

  /** A parameter dictionary, its keys in insertion order. */
  datatype Tree = Tree(entries: seq<Entry>)

  // --- Sizes, the termination measure of the recursion through child dictionaries.

  function ParamSize(p: Param): nat
    decreases p
  {
    match p
    case PList(items) => 1 + ItemsSize(items)
    case _ => 1
  }

  function ItemsSize(items: seq<Item>): nat
    decreases items
  {
    if |items| == 0 then 0 else ItemSize(items[0]) + ItemsSize(items[1..])
  }

  function ItemSize(item: Item): nat
    decreases item
  {
    match item
    case Child(t) => 1 + EntriesSize(t.entries)
    case _ => 1
  }

  function EntriesSize(es: seq<Entry>): nat
    decreases es
  {
    if |es| == 0 then 0 else 1 + ParamSize(es[0].value) + EntriesSize(es[1..])
  }

  lemma {:induction false} ItemSizeBound(items: seq<Item>, k: int)
    requires 0 <= k < |items|
    ensures ItemSize(items[k]) <= ItemsSize(items)
  {
    if k > 0 {
      ItemSizeBound(items[1..], k - 1);
    }
  }

  // --- The dictionary operations.

  function Keys(es: seq<Entry>): (ks: seq<string>)
    ensures |ks| == |es| && forall k :: 0 <= k < |es| ==> ks[k] == es[k].key
  {
    if |es| == 0 then [] else [es[0].key] + Keys(es[1..])
  }

  /** `d[key]`: the value under the key. */
  function Lookup(es: seq<Entry>, key: string): (v: Param)
    requires key in Keys(es)
    ensures ParamSize(v) < EntriesSize(es)
  {
    if es[0].key == key then es[0].value else Lookup(es[1..], key)
  }

  /** `d[key] = v` for a key already present: the value changes, the position does not. */
  function Update(es: seq<Entry>, key: string, v: Param): (r: seq<Entry>)
    requires key in Keys(es)
    ensures Keys(r) == Keys(es)
    ensures Lookup(r, key) == v
    ensures ParamSize(v) <= ParamSize(Lookup(es, key)) ==> EntriesSize(r) <= EntriesSize(es)
  {
    if es[0].key == key then [Entry(key, v)] + es[1..]
    else
      var rest := Update(es[1..], key, v);
      assert ([es[0]] + rest)[1..] == rest;
      [es[0]] + rest
  }

  /** `d.pop(key, None)`. */
  function Without(es: seq<Entry>, key: string): (r: seq<Entry>)
    ensures key !in Keys(r)
    ensures EntriesSize(r) <= EntriesSize(es)
    ensures key in Keys(es) ==> EntriesSize(r) < EntriesSize(es)
    ensures forall k :: k in Keys(r) ==> k in Keys(es)
  {
    if |es| == 0 then []
    else
      var rest := Without(es[1..], key);
      if es[0].key == key then rest
      else
        assert ([es[0]] + rest)[1..] == rest;
        [es[0]] + rest
  }

  /** A dictionary has each key once, and so has every dictionary inside it. */
  predicate Distinct(ks: seq<string>)
  {
    forall i, j :: 0 <= i < j < |ks| ==> ks[i] != ks[j]
  }

  // --- One attribute.

  /** The class a `CATEGORY` value names. */
  function CategoryClass(reg: Registry, p: Param): (r: Result<EntityType>)
    ensures r.Ok? <==> p.PStr? && p.s in reg
    ensures r.Ok? ==> r.value == reg[p.s].entity
    ensures p.PStr? && p.s !in reg ==> r == Err(KeyError(p.s))
  {
    match p
    case PStr(s) => if s in reg then Ok(reg[s].entity) else Err(KeyError(s))
    case PInt(i) => Err(KeyError(IntToString(i)))
    case PDate(dt) => Err(KeyError(Shown(Date(dt))))
    case PList(_) => Err(TypeError("unhashable type: 'list'"))
  }

  /** The order the keys are visited in: `sorted` in the current revision, insertion order in the older one. */
  function KeyOrder(rev: Revision, keys: seq<string>): (r: seq<string>)
    ensures multiset(r) == multiset(keys)
    ensures forall k :: 0 <= k < |r| ==> r[k] in keys
    ensures rev.Current? ==> Ordering.Sorted(r)
    ensures rev.Legacy? ==> r == keys
  {
    var r := if rev.Current? then Ordering.Sort(keys) else keys;
    SameMembers(r, keys);
    r
  }

  lemma SameMembers(a: seq<string>, b: seq<string>)
    requires multiset(a) == multiset(b)
    ensures forall k :: 0 <= k < |a| ==> a[k] in b
  {
    forall k | 0 <= k < |a|
      ensures a[k] in b
    {
      assert a[k] in multiset(a);
    }
  }

  /** The date conversion of a key ending in `date`: `datetime(*[int(i) for i in value.split(",")])`. */
  function DateStep(key: string, v: Param): (r: Result<Param>)
    ensures !EndsWith(key, "date") ==> r == Ok(v)
    ensures EndsWith(key, "date") && r.Ok? ==> v.PStr? && r.value.PDate? && DateTimes.ParseCommaDate(v.s) == Ok(r.value.dt)
    ensures EndsWith(key, "date") && !v.PStr? ==> r == Err(AttributeError("split"))
  {
    if !EndsWith(key, "date") then Ok(v)
    else
      match v
      case PStr(s) =>
        (match DateTimes.ParseCommaDate(s)
         case Err(e) => Err(e)
         case Ok(dt) => Ok(PDate(dt)))
      case _ => Err(AttributeError("split"))
  }

  /** The value `setattr` receives for a scalar parameter. */
  function Scalar(p: Param): Value
    requires !p.PList?
  {
    match p
    case PInt(i) => Int(i)
    case PStr(s) => Str(s)
    case PDate(dt) => Date(dt)
  }

  /** `setattr(obj, key, v)`, running the class's validator on a validated column. */
  function SetAttr(et: EntityType, record: Row, key: string, v: Value): (r: Result<Row>)
    ensures key !in et.emailColumns ==> r == Ok(record[key := v])
    ensures key in et.emailColumns ==> r.Ok? == Classes.ValidateEmail(v).Ok?
    ensures r.Ok? ==> r.value == record[key := v]
  {
    if key in et.emailColumns then
      match Classes.ValidateEmail(v)
      case Err(e) => Err(e)
      case Ok(v') => Ok(record[key := v'])
    else Ok(record[key := v])
  }

  /** `for input_value in ids: setattr(obj, key, input_value)`: the last id is what remains. */
  function SetEach(record: Row, key: string, ids: seq<int>): (r: Row)
    ensures |ids| == 0 ==> r == record
    ensures |ids| > 0 ==> r == record[key := Int(ids[|ids| - 1])]
    decreases |ids|
  {
    if |ids| == 0 then record else SetEach(record[key := Int(ids[0])], key, ids[1..])
  }

  /**
   * The object under construction: its attributes, the ids the last
   * resolved `_id` key gave (`input_values`, which outlives its iteration)
   * and the parameter dictionary as it stands.
   */
  datatype Build = Build(record: Row, inputValues: Option<seq<int>>, params: seq<Entry>)

  /**
   * A key ending in `_id`: the expression is resolved and the attribute set
   * to each id in turn.  A `ValueError` from the resolver is caught, after
   * which the loop runs over the ids of the previous `_id` key, or fails
   * when there was none.
   */
  function IdStep(db: Tables, reg: Registry, rev: Revision, key: string, v: Param, b: Build): (r: Result<Build>)
    ensures r.Ok? ==> r.value.params == b.params
  {
    match v
    case PStr(s) =>
      (match ResolveIds(db, reg, rev, s)
       case Ok(ids) => Ok(b.(record := SetEach(b.record, key, ids), inputValues := Some(ids)))
       case Err(ValueError(_)) =>
         (match b.inputValues
          case None => Err(NameError("input_values"))
          case Some(stale) => Ok(b.(record := SetEach(b.record, key, stale))))
       case Err(e) => Err(e))
    case _ => Err(AttributeError("split"))
  }

  /** The transaction a failed commit leaves behind refuses the session's next use. */
  const RolledBack := InvalidRequest("this session's transaction has been rolled back due to a previous exception during flush")

  // --- The record builder, as functions of the database.

  /** What a successful `add_generic` gives back: the record, its id (none after a uniqueness violation) and the dictionary as the call leaves it. */
  datatype Created = Created(record: Row, id: Option<int>, params: Tree)

  /** The columns and relationships of the record; other attributes live on the object only. */
  function Persisted(et: EntityType, record: Row): (r: Row)
    ensures forall c :: c in r <==> c in record && Kind(et, c) != NoAttr
    ensures forall c :: c in r ==> r[c] == record[c]
  {
    map c | c in record && Kind(et, c) != NoAttr :: record[c]
  }

  /**
   * `add_generic`: the database after the call (children and the record
   * committed) and the outcome.
   */
  function Create(db: Tables, reg: Registry, rev: Revision, t: Tree): (r: (Tables, Result<Created>))
    decreases EntriesSize(t.entries), 3
  {
    if "CATEGORY" !in Keys(t.entries) then (db, Err(KeyError("CATEGORY")))
    else
      match CategoryClass(reg, Lookup(t.entries, "CATEGORY"))
      case Err(e) => (db, Err(e))
      case Ok(et) =>
        var es := Without(t.entries, "CATEGORY");
        var order := KeyOrder(rev, Keys(es));
        match SetKeys(db, reg, rev, EntriesSize(t.entries), et, order, Build(map[], None, es))
        case (db', Err(e)) => (db', Err(e))
        case (db', Ok(b)) =>
          var (db'', id) := Insert(db', et, Persisted(et, b.record));
          (db'', Ok(Created(b.record, id, Tree(b.params))))
  }

  /** The loop over the keys, in the order given. */
  function SetKeys(db: Tables, reg: Registry, rev: Revision, bound: nat, et: EntityType, keys: seq<string>, b: Build): (r: (Tables, Result<Build>))
    requires EntriesSize(b.params) < bound
    requires forall k :: 0 <= k < |keys| ==> keys[k] in Keys(b.params)
    ensures r.1.Ok? ==> Keys(r.1.value.params) == Keys(b.params) && EntriesSize(r.1.value.params) <= EntriesSize(b.params)
    decreases bound, 2, |keys|
  {
    if |keys| == 0 then (db, Ok(b))
    else
      match SetKey(db, reg, rev, bound, et, keys[0], b)
      case (db', Err(e)) => (db', Err(e))
      case (db', Ok(b')) => SetKeys(db', reg, rev, bound, et, keys[1..], b')
  }

  lemma SetKeysUnfold(db: Tables, reg: Registry, rev: Revision, bound: nat, et: EntityType, keys: seq<string>, b: Build)
    requires EntriesSize(b.params) < bound
    requires forall k :: 0 <= k < |keys| ==> keys[k] in Keys(b.params)
    requires |keys| > 0
    ensures var (db', step) := SetKey(db, reg, rev, bound, et, keys[0], b);
            SetKeys(db, reg, rev, bound, et, keys, b)
            == if step.Err? then (db', Err(step.error)) else SetKeys(db', reg, rev, bound, et, keys[1..], step.value)
  {
  }

  /** One key of the dictionary: the date conversion, then the value assigned. */
  function SetKey(db: Tables, reg: Registry, rev: Revision, bound: nat, et: EntityType, key: string, b: Build): (r: (Tables, Result<Build>))
    requires EntriesSize(b.params) < bound
    requires key in Keys(b.params)
    ensures r.1.Ok? ==> Keys(r.1.value.params) == Keys(b.params) && EntriesSize(r.1.value.params) <= EntriesSize(b.params)
    decreases bound, 1, 1
  {
    var v := Lookup(b.params, key);
    match DateStep(key, v)
    case Err(e) => (db, Err(e))
    case Ok(v') =>
      var b' := if EndsWith(key, "date") then b.(params := Update(b.params, key, v')) else b;
      Assign(db, reg, rev, bound, et, key, v', b')
  }

  /** The value of a key assigned: an `_id` expression resolved, a list of entries, or the value as it is. */
  function Assign(db: Tables, reg: Registry, rev: Revision, bound: nat, et: EntityType, key: string, v: Param, b: Build): (r: (Tables, Result<Build>))
    requires ParamSize(v) < bound
    ensures r.1.Ok? ==> r.1.value.params == b.params
    decreases bound, 1, 0
  {
    if EndsWith(key, "_id") && (rev.Legacy? || !v.PInt?) then
      (db, IdStep(db, reg, rev, key, v, b))
    else if v.PList? then
      match Related(db, reg, rev, bound, v.items, [])
      case (db', Err(e)) => (db', Err(e))
      case (db', Ok(ids)) =>
        (match SetAttr(et, b.record, key, Refs(ids))
         case Err(e) => (db', Err(e))
         case Ok(record) => (db', Ok(b.(record := record))))
    else
      match SetAttr(et, b.record, key, Scalar(v))
      case Err(e) => (db, Err(e))
      case Ok(record) => (db, Ok(b.(record := record)))
  }

  /**
   * The entries of a list value, one per dictionary or string and in list
   * order, after the ones already collected.
   */
  function Related(db: Tables, reg: Registry, rev: Revision, bound: nat, items: seq<Item>, acc: seq<int>): (r: (Tables, Result<seq<int>>))
    requires ItemsSize(items) < bound
    decreases bound, 0, |items|
  {
    if |items| == 0 then (db, Ok(acc))
    else
      ItemSizeBound(items, 0);
      match ItemEntry(db, reg, rev, bound, items[0])
      case (db', Err(e)) => (db', Err(e))
      case (db', Ok(None)) => Related(db', reg, rev, bound, items[1..], acc)
      case (db', Ok(Some(id))) => Related(db', reg, rev, bound, items[1..], acc + [id])
  }

  /**
   * One element of a list value: a dictionary is created as a new record
   * (committed at once), a string contributes the first record it resolves
   * to, anything else contributes nothing.
   */
  function ItemEntry(db: Tables, reg: Registry, rev: Revision, bound: nat, item: Item): (r: (Tables, Result<Option<int>>))
    requires ItemSize(item) < bound
    ensures r.1.Ok? ==> (r.1.value.Some? <==> !item.OtherItem?)
    ensures !item.Child? ==> r.0 == db
    decreases bound, 0, 0
  {
    match item
    case Child(t) =>
      (match Create(db, reg, rev, t)
       case (db', Err(e)) => (db', Err(e))
       case (db', Ok(c)) => if c.id.None? then (db', Err(RolledBack)) else (db', Ok(Some(c.id.value))))
    case Expr(s) =>
      (match ResolveIds(db, reg, rev, s)
       case Err(e) => (db, Err(e))
       case Ok(ids) => (db, Ok(Some(ids[0]))))
    case OtherItem => (db, Ok(None))
  }

  // --- The record builder as the source runs it.

  /**
   * `add_generic`: a fresh object gets its attributes key by key; children
   * are created by recursive calls on the same session and committed at
   * once; the object is committed at the end.
   */
  method AddGeneric(db: Database, reg: Registry, rev: Revision, t: Tree) returns (r: Result<Created>)
    modifies db
    ensures (db.tables, r) == Create(old(db.tables), reg, rev, t)
    decreases EntriesSize(t.entries), 3
  {
    if "CATEGORY" !in Keys(t.entries) {
      return Err(KeyError("CATEGORY"));
    }
    var category := CategoryClass(reg, Lookup(t.entries, "CATEGORY"));
    if category.Err? {
      return Err(category.error);
    }
    var et := category.value;
    var es := Without(t.entries, "CATEGORY");
    var keys := KeyOrder(rev, Keys(es));
    var built := AssignKeys(db, reg, rev, EntriesSize(t.entries), et, keys, Build(map[], None, es));
    if built.Err? {
      return Err(built.error);
    }
    var id := db.AddToDb(et, Persisted(et, built.value.record));
    r := Ok(Created(built.value.record, id, Tree(built.value.params)));
  }

  /** The loop over the keys. */
  method AssignKeys(db: Database, reg: Registry, rev: Revision, bound: nat, et: EntityType, keys: seq<string>, b0: Build) returns (r: Result<Build>)
    requires EntriesSize(b0.params) < bound
    requires forall k :: 0 <= k < |keys| ==> keys[k] in Keys(b0.params)
    modifies db
    ensures (db.tables, r) == SetKeys(old(db.tables), reg, rev, bound, et, keys, b0)
    decreases bound, 2, 0
  {
    var b := b0;
    var i := 0;
    while i < |keys|
      invariant 0 <= i <= |keys|
      invariant EntriesSize(b.params) < bound && Keys(b.params) == Keys(b0.params)
      invariant SetKeys(old(db.tables), reg, rev, bound, et, keys, b0) == SetKeys(db.tables, reg, rev, bound, et, keys[i..], b)
    {
      assert keys[i..][0] == keys[i] && keys[i..][1..] == keys[i + 1..];
      ghost var before := db.tables;
      SetKeysUnfold(before, reg, rev, bound, et, keys[i..], b);
      var step := AssignKey(db, reg, rev, bound, et, keys[i], b);
      assert (db.tables, step) == SetKey(before, reg, rev, bound, et, keys[i], b);
      if step.Err? {
        return Err(step.error);
      }
      b := step.value;
      i := i + 1;
    }
    r := Ok(b);
  }

  /** The body of the key loop for one key. */
  method AssignKey(db: Database, reg: Registry, rev: Revision, bound: nat, et: EntityType, key: string, b: Build) returns (r: Result<Build>)
    requires EntriesSize(b.params) < bound
    requires key in Keys(b.params)
    modifies db
    ensures (db.tables, r) == SetKey(old(db.tables), reg, rev, bound, et, key, b)
    decreases bound, 1, 0
  {
    var converted := DateStep(key, Lookup(b.params, key));
    if converted.Err? {
      return Err(converted.error);
    }
    var v := converted.value;
    var params := b.params;
    if EndsWith(key, "date") {
      params := Update(params, key, v);
    }
    if EndsWith(key, "_id") && (rev.Legacy? || !v.PInt?) {
      r := AssignIds(db, reg, rev, key, v, b.(params := params));
    } else if v.PList? {
      var entries := RelatedEntries(db, reg, rev, bound, v.items);
      if entries.Err? {
        return Err(entries.error);
      }
      var record := SetAttr(et, b.record, key, Refs(entries.value));
      if record.Err? {
        return Err(record.error);
      }
      r := Ok(Build(record.value, b.inputValues, params));
    } else {
      var record := SetAttr(et, b.record, key, Scalar(v));
      if record.Err? {
        return Err(record.error);
      }
      r := Ok(Build(record.value, b.inputValues, params));
    }
  }

  /** A key ending in `_id`: resolve, then set the attribute to each id in turn. */
  method AssignIds(db: Database, reg: Registry, rev: Revision, key: string, v: Param, b: Build) returns (r: Result<Build>)
    ensures r == IdStep(db.tables, reg, rev, key, v, b)
  {
    if !v.PStr? {
      return Err(AttributeError("split"));
    }
    var resolved := GetRelatedIds(db, reg, rev, v.s);
    var inputValues := b.inputValues;
    if resolved.Ok? {
      inputValues := Some(resolved.value);
    } else if !resolved.error.ValueError? {
      return Err(resolved.error);
    } else if inputValues.None? {
      return Err(NameError("input_values"));
    }
    var ids := inputValues.value;
    var record := b.record;
    var i := 0;
    while i < |ids|
      invariant 0 <= i <= |ids|
      invariant SetEach(b.record, key, ids) == SetEach(record, key, ids[i..])
    {
      assert ids[i..][1..] == ids[i + 1..];
      record := record[key := Int(ids[i])];
      i := i + 1;
    }
    r := Ok(Build(record, inputValues, b.params));
  }

  /** The list branch: `related_entries` built by `append`, one entry per dictionary or string. */
  method RelatedEntries(db: Database, reg: Registry, rev: Revision, bound: nat, items: seq<Item>) returns (r: Result<seq<int>>)
    requires ItemsSize(items) < bound
    modifies db
    ensures (db.tables, r) == Related(old(db.tables), reg, rev, bound, items, [])
    decreases bound, 0, 1
  {
    var entries: seq<int> := [];
    var i := 0;
    while i < |items|
      invariant 0 <= i <= |items|
      invariant ItemsSize(items[i..]) < bound
      invariant Related(old(db.tables), reg, rev, bound, items, []) == Related(db.tables, reg, rev, bound, items[i..], entries)
    {
      assert items[i..][1..] == items[i + 1..];
      assert items[i..][0] == items[i];
      ItemSizeBound(items[i..], 0);
      var entry := AddEntry(db, reg, rev, bound, items[i]);
      if entry.Err? {
        return Err(entry.error);
      }
      if entry.value.Some? {
        entries := entries + [entry.value.value];
      }
      i := i + 1;
    }
    r := Ok(entries);
  }

  /** One element of the list: a dictionary added by a recursive `add_generic`, a string resolved. */
  method AddEntry(db: Database, reg: Registry, rev: Revision, bound: nat, item: Item) returns (r: Result<Option<int>>)
    requires ItemSize(item) < bound
    modifies db
    ensures (db.tables, r) == ItemEntry(old(db.tables), reg, rev, bound, item)
    decreases bound, 0, 0
  {
    match item
    case Child(t) =>
      var created := AddGeneric(db, reg, rev, t);
      if created.Err? {
        return Err(created.error);
      }
      if created.value.id.None? {
        return Err(RolledBack);
      }
      r := Ok(Some(created.value.id.value));
    case Expr(s) =>
      var ids := GetRelatedIds(db, reg, rev, s);
      if ids.Err? {
        return Err(ids.error);
      }
      r := Ok(Some(ids.value[0]));
    case OtherItem =>
      r := Ok(None);
  }

  // --- Properties of the record builder.

  /** Records are only ever added: whatever the outcome, every table keeps its rows. */
  lemma {:induction false} CreateExtends(db: Tables, reg: Registry, rev: Revision, t: Tree)
    ensures Extends(db, Create(db, reg, rev, t).0)
    decreases EntriesSize(t.entries), 3
  {
    if "CATEGORY" in Keys(t.entries) && CategoryClass(reg, Lookup(t.entries, "CATEGORY")).Ok? {
      var et := CategoryClass(reg, Lookup(t.entries, "CATEGORY")).value;
      var es := Without(t.entries, "CATEGORY");
      var order := KeyOrder(rev, Keys(es));
      var (db', res) := SetKeys(db, reg, rev, EntriesSize(t.entries), et, order, Build(map[], None, es));
      SetKeysExtends(db, reg, rev, EntriesSize(t.entries), et, order, Build(map[], None, es));
      if res.Ok? {
        InsertExtends(db', et, Persisted(et, res.value.record));
        ExtendsTransitive(db, db', Insert(db', et, Persisted(et, res.value.record)).0);
      }
    } else {
      ExtendsReflexive(db);
    }
  }

  lemma ExtendsReflexive(db: Tables)
    ensures Extends(db, db)
  {
    forall t | t in db
      ensures db[t][..|db[t]|] == db[t]
    {
    }
  }

  lemma {:induction false} SetKeysExtends(db: Tables, reg: Registry, rev: Revision, bound: nat, et: EntityType, keys: seq<string>, b: Build)
    requires EntriesSize(b.params) < bound
    requires forall k :: 0 <= k < |keys| ==> keys[k] in Keys(b.params)
    ensures Extends(db, SetKeys(db, reg, rev, bound, et, keys, b).0)
    decreases bound, 2, |keys|
  {
    if |keys| == 0 {
      ExtendsReflexive(db);
    } else {
      var (db', step) := SetKey(db, reg, rev, bound, et, keys[0], b);
      SetKeyExtends(db, reg, rev, bound, et, keys[0], b);
      if step.Ok? {
        SetKeysExtends(db', reg, rev, bound, et, keys[1..], step.value);
        ExtendsTransitive(db, db', SetKeys(db', reg, rev, bound, et, keys[1..], step.value).0);
      }
    }
  }

  lemma {:induction false} SetKeyExtends(db: Tables, reg: Registry, rev: Revision, bound: nat, et: EntityType, key: string, b: Build)
    requires EntriesSize(b.params) < bound
    requires key in Keys(b.params)
    ensures Extends(db, SetKey(db, reg, rev, bound, et, key, b).0)
    decreases bound, 1, 1
  {
    var converted := DateStep(key, Lookup(b.params, key));
    SetKeyAssigns(db, reg, rev, bound, et, key, b);
    if converted.Ok? {
      var b' := if EndsWith(key, "date") then b.(params := Update(b.params, key, converted.value)) else b;
      AssignExtends(db, reg, rev, bound, et, key, converted.value, b');
    } else {
      ExtendsReflexive(db);
    }
  }

  /** One key is the date conversion followed by the assignment of what it gives. */
  lemma SetKeyAssigns(db: Tables, reg: Registry, rev: Revision, bound: nat, et: EntityType, key: string, b: Build)
    requires EntriesSize(b.params) < bound
    requires key in Keys(b.params)
    ensures var converted := DateStep(key, Lookup(b.params, key));
            converted.Err? ==> SetKey(db, reg, rev, bound, et, key, b) == (db, Err(converted.error))
    ensures var converted := DateStep(key, Lookup(b.params, key));
            converted.Ok? ==>
              (ParamSize(converted.value) < bound &&
               SetKey(db, reg, rev, bound, et, key, b)
               == Assign(db, reg, rev, bound, et, key, converted.value,
                         if EndsWith(key, "date") then b.(params := Update(b.params, key, converted.value)) else b))
  {
  }

  lemma {:induction false} AssignExtends(db: Tables, reg: Registry, rev: Revision, bound: nat, et: EntityType, key: string, v: Param, b: Build)
    requires ParamSize(v) < bound
    ensures Extends(db, Assign(db, reg, rev, bound, et, key, v, b).0)
    decreases bound, 1, 0
  {
    if !(EndsWith(key, "_id") && (rev.Legacy? || !v.PInt?)) && v.PList? {
      RelatedExtends(db, reg, rev, bound, v.items, []);
    } else {
      ExtendsReflexive(db);
    }
  }

  lemma {:induction false} RelatedExtends(db: Tables, reg: Registry, rev: Revision, bound: nat, items: seq<Item>, acc: seq<int>)
    requires ItemsSize(items) < bound
    ensures Extends(db, Related(db, reg, rev, bound, items, acc).0)
    decreases bound, 0, |items|
  {
    if |items| == 0 {
      ExtendsReflexive(db);
    } else {
      ItemSizeBound(items, 0);
      var (db', e) := ItemEntry(db, reg, rev, bound, items[0]);
      ItemEntryExtends(db, reg, rev, bound, items[0]);
      if e.Ok? {
        var acc' := if e.value.Some? then acc + [e.value.value] else acc;
        RelatedExtends(db', reg, rev, bound, items[1..], acc');
        ExtendsTransitive(db, db', Related(db', reg, rev, bound, items[1..], acc').0);
      }
    }
  }

  lemma {:induction false} ItemEntryExtends(db: Tables, reg: Registry, rev: Revision, bound: nat, item: Item)
    requires ItemSize(item) < bound
    ensures Extends(db, ItemEntry(db, reg, rev, bound, item).0)
    decreases bound, 0, 0
  {
    if item.Child? {
      CreateExtends(db, reg, rev, item.tree);
    } else {
      ExtendsReflexive(db);
    }
  }

  /** The items of a list that contribute an entry: dictionaries and strings. */
  function Listed(items: seq<Item>): (n: nat)
    ensures n <= |items|
  {
    if |items| == 0 then 0 else (if items[0].OtherItem? then 0 else 1) + Listed(items[1..])
  }

  /** A list value gives exactly one entry per dictionary or string, after the ones already collected. */
  lemma {:induction false} RelatedOnePerItem(db: Tables, reg: Registry, rev: Revision, bound: nat, items: seq<Item>, acc: seq<int>)
    requires ItemsSize(items) < bound
    ensures var r := Related(db, reg, rev, bound, items, acc).1;
            r.Ok? ==> |r.value| == |acc| + Listed(items) && r.value[..|acc|] == acc
    decreases |items|
  {
    if |items| > 0 {
      ItemSizeBound(items, 0);
      var (db', e) := ItemEntry(db, reg, rev, bound, items[0]);
      if e.Ok? {
        var acc' := if e.value.Some? then acc + [e.value.value] else acc;
        RelatedOnePerItem(db', reg, rev, bound, items[1..], acc');
        var r := Related(db', reg, rev, bound, items[1..], acc').1;
        if r.Ok? {
          assert r.value[..|acc|] == r.value[..|acc'|][..|acc|];
        }
      }
    }
  }

  predicate AllExpressions(items: seq<Item>)
  {
    forall k :: 0 <= k < |items| ==> items[k].Expr?
  }

  /** The first id each expression resolves to, or the first failure. */
  function FirstIds(db: Tables, reg: Registry, rev: Revision, items: seq<Item>): (r: Result<seq<int>>)
    requires AllExpressions(items)
    ensures r.Ok? ==> |r.value| == |items|
  {
    if |items| == 0 then Ok([])
    else
      match ResolveIds(db, reg, rev, items[0].expr)
      case Err(e) => Err(e)
      case Ok(ids) =>
        assert forall k :: 1 <= k < |items| ==> items[k] == items[1..][k - 1];
        match FirstIds(db, reg, rev, items[1..])
        case Err(e) => Err(e)
        case Ok(rest) => Ok([ids[0]] + rest)
  }

  /** The list succeeds exactly when every expression resolves, and then holds the first id of each. */
  lemma FirstIdsMeaning(db: Tables, reg: Registry, rev: Revision, items: seq<Item>)
    requires AllExpressions(items)
    ensures FirstIds(db, reg, rev, items).Ok? <==> forall k :: 0 <= k < |items| ==> ResolveIds(db, reg, rev, items[k].expr).Ok?
    ensures FirstIds(db, reg, rev, items).Ok? ==>
              forall k :: 0 <= k < |items| ==> FirstIds(db, reg, rev, items).value[k] == ResolveIds(db, reg, rev, items[k].expr).value[0]
  {
    FirstIdsValues(db, reg, rev, items);
    if forall k :: 0 <= k < |items| ==> ResolveIds(db, reg, rev, items[k].expr).Ok? {
      FirstIdsSucceed(db, reg, rev, items);
    }
  }

  lemma FirstIdsCons(db: Tables, reg: Registry, rev: Revision, items: seq<Item>)
    requires |items| > 0 && AllExpressions(items)
    ensures AllExpressions(items[1..])
    ensures forall k :: 1 <= k < |items| ==> items[k] == items[1..][k - 1]
    ensures ResolveIds(db, reg, rev, items[0].expr).Err? ==> FirstIds(db, reg, rev, items) == Err(ResolveIds(db, reg, rev, items[0].expr).error)
    ensures ResolveIds(db, reg, rev, items[0].expr).Ok? && FirstIds(db, reg, rev, items[1..]).Err? ==>
              FirstIds(db, reg, rev, items) == Err(FirstIds(db, reg, rev, items[1..]).error)
    ensures ResolveIds(db, reg, rev, items[0].expr).Ok? && FirstIds(db, reg, rev, items[1..]).Ok? ==>
              FirstIds(db, reg, rev, items) == Ok([ResolveIds(db, reg, rev, items[0].expr).value[0]] + FirstIds(db, reg, rev, items[1..]).value)
  {
    assert forall k :: 1 <= k < |items| ==> items[k] == items[1..][k - 1];
  }

  /** When every expression resolves, so does the list. */
  lemma {:induction false} FirstIdsSucceed(db: Tables, reg: Registry, rev: Revision, items: seq<Item>)
    requires AllExpressions(items)
    requires forall k :: 0 <= k < |items| ==> ResolveIds(db, reg, rev, items[k].expr).Ok?
    ensures FirstIds(db, reg, rev, items).Ok?
  {
    if |items| > 0 {
      FirstIdsCons(db, reg, rev, items);
      FirstIdsSucceed(db, reg, rev, items[1..]);
    }
  }

  /** A list that succeeds had every expression resolve, and holds the first id of each. */
  lemma FirstIdsValues(db: Tables, reg: Registry, rev: Revision, items: seq<Item>)
    requires AllExpressions(items)
    ensures FirstIds(db, reg, rev, items).Ok? ==>
              forall k :: 0 <= k < |items| ==> ResolveIds(db, reg, rev, items[k].expr).Ok? &&
                                               FirstIds(db, reg, rev, items).value[k] == ResolveIds(db, reg, rev, items[k].expr).value[0]
  {
    if FirstIds(db, reg, rev, items).Ok? {
      forall k | 0 <= k < |items|
        ensures ResolveIds(db, reg, rev, items[k].expr).Ok? &&
                FirstIds(db, reg, rev, items).value[k] == ResolveIds(db, reg, rev, items[k].expr).value[0]
      {
        FirstIdAt(db, reg, rev, items, k);
      }
    }
  }

  lemma {:induction false} FirstIdAt(db: Tables, reg: Registry, rev: Revision, items: seq<Item>, k: nat)
    requires AllExpressions(items) && FirstIds(db, reg, rev, items).Ok? && k < |items|
    ensures ResolveIds(db, reg, rev, items[k].expr).Ok? &&
            FirstIds(db, reg, rev, items).value[k] == ResolveIds(db, reg, rev, items[k].expr).value[0]
    decreases k
  {
    if k == 0 {
      FirstIdHead(db, reg, rev, items);
    } else {
      FirstIdLater(db, reg, rev, items, k);
      FirstIdAt(db, reg, rev, items[1..], k - 1);
    }
  }

  lemma FirstIdHead(db: Tables, reg: Registry, rev: Revision, items: seq<Item>)
    requires AllExpressions(items) && FirstIds(db, reg, rev, items).Ok? && 0 < |items|
    ensures ResolveIds(db, reg, rev, items[0].expr).Ok? &&
            FirstIds(db, reg, rev, items).value[0] == ResolveIds(db, reg, rev, items[0].expr).value[0]
  {
    FirstIdsCons(db, reg, rev, items);
  }

  /** A later position of the list holds what the same position of its tail held. */
  lemma FirstIdLater(db: Tables, reg: Registry, rev: Revision, items: seq<Item>, k: nat)
    requires AllExpressions(items) && FirstIds(db, reg, rev, items).Ok? && 0 < k < |items|
    ensures AllExpressions(items[1..]) && FirstIds(db, reg, rev, items[1..]).Ok?
    ensures items[k] == items[1..][k - 1]
    ensures FirstIds(db, reg, rev, items).value[k] == FirstIds(db, reg, rev, items[1..]).value[k - 1]
  {
    assert forall j :: 1 <= j < |items| ==> items[j] == items[1..][j - 1];
  }

  /**
   * A list of expressions leaves the database as it is and contributes, in
   * list order, the first id each expression resolves to; it fails exactly
   * when one of them does not resolve.
   */
  lemma {:induction false} RelatedExpressions(db: Tables, reg: Registry, rev: Revision, bound: nat, items: seq<Item>, acc: seq<int>)
    requires ItemsSize(items) < bound
    requires AllExpressions(items)
    ensures Related(db, reg, rev, bound, items, acc)
            == (db, match FirstIds(db, reg, rev, items) case Ok(ids) => Ok(acc + ids) case Err(e) => Err(e))
    decreases |items|
  {
    if |items| > 0 {
      ItemSizeBound(items, 0);
      assert AllExpressions(items[1..]) by {
        forall k | 0 <= k < |items| - 1 ensures items[1..][k].Expr? {
          assert items[1..][k] == items[k + 1];
        }
      }
      var res := ResolveIds(db, reg, rev, items[0].expr);
      assert items[0] == Expr(items[0].expr);
      if res.Ok? {
        assert ItemEntry(db, reg, rev, bound, items[0]) == (db, Ok(Some(res.value[0])));
        var rest := FirstIds(db, reg, rev, items[1..]);
        RelatedExpressions(db, reg, rev, bound, items[1..], acc + [res.value[0]]);
        if rest.Ok? {
          assert acc + [res.value[0]] + rest.value == acc + ([res.value[0]] + rest.value);
        }
      }
    } else {
      assert acc + [] == acc;
    }
  }

  /** A key ending in `_id`: the attribute ends up holding the last id the expression resolves to. */
  lemma IdLastWins(db: Tables, reg: Registry, rev: Revision, bound: nat, et: EntityType, key: string, b: Build, s: string, ids: seq<int>)
    requires EntriesSize(b.params) < bound
    requires key in Keys(b.params) && Lookup(b.params, key) == PStr(s)
    requires EndsWith(key, "_id")
    requires ResolveIds(db, reg, rev, s) == Ok(ids)
    ensures SetKey(db, reg, rev, bound, et, key, b)
            == (db, Ok(Build(b.record[key := Int(ids[|ids| - 1])], Some(ids), b.params)))
  {
    IdNotDate(key);
  }

  lemma IdNotDate(key: string)
    requires EndsWith(key, "_id")
    ensures !EndsWith(key, "date")
  {
    assert key[|key| - 1] == 'd';
  }

  /**
   * The resolver's `ValueError` is caught and the loop runs over the ids
   * the previous `_id` key left behind; with no previous key the name is
   * unbound.
   */
  lemma StaleInputValues(db: Tables, reg: Registry, rev: Revision, bound: nat, et: EntityType, key: string, b: Build, s: string, reason: string)
    requires EntriesSize(b.params) < bound
    requires key in Keys(b.params) && Lookup(b.params, key) == PStr(s)
    requires EndsWith(key, "_id")
    requires ResolveIds(db, reg, rev, s) == Err(ValueError(reason))
    ensures b.inputValues.None? ==> SetKey(db, reg, rev, bound, et, key, b) == (db, Err(NameError("input_values")))
    ensures b.inputValues.Some? && |b.inputValues.value| > 0 ==>
              SetKey(db, reg, rev, bound, et, key, b)
              == (db, Ok(b.(record := b.record[key := Int(b.inputValues.value[|b.inputValues.value| - 1])])))
  {
    IdNotDate(key);
  }

  /** An int under a key ending in `_id` is taken as the id in the current revision and fails to split in the older one. */
  lemma IntIdByRevision(db: Tables, reg: Registry, bound: nat, et: EntityType, key: string, b: Build, i: int)
    requires EntriesSize(b.params) < bound
    requires key in Keys(b.params) && Lookup(b.params, key) == PInt(i)
    requires EndsWith(key, "_id") && key !in et.emailColumns
    ensures SetKey(db, reg, Current, bound, et, key, b) == (db, Ok(b.(record := b.record[key := Int(i)])))
    ensures SetKey(db, reg, Legacy, bound, et, key, b) == (db, Err(AttributeError("split")))
  {
    IdNotDate(key);
  }

  /** A key ending in `date`: the value is parsed, assigned, and written back into the dictionary. */
  lemma DateKey(db: Tables, reg: Registry, rev: Revision, bound: nat, et: EntityType, key: string, b: Build, s: string, dt: DateTimes.DateTime)
    requires EntriesSize(b.params) < bound
    requires key in Keys(b.params) && Lookup(b.params, key) == PStr(s)
    requires EndsWith(key, "date") && key !in et.emailColumns
    requires DateTimes.ParseCommaDate(s) == Ok(dt)
    ensures SetKey(db, reg, rev, bound, et, key, b)
            == (db, Ok(Build(b.record[key := Date(dt)], b.inputValues, Update(b.params, key, PDate(dt)))))
  {
    var b' := b.(params := Update(b.params, key, PDate(dt)));
    DateKeyStep(db, reg, rev, bound, et, key, b, s, dt);
    DateNotId(key);
    AssignScalar(db, reg, rev, bound, et, key, PDate(dt), b');
    assert Scalar(PDate(dt)) == Date(dt);
  }

  /** The parsed date is what the key goes on to assign, with the dictionary already rewritten. */
  lemma DateKeyStep(db: Tables, reg: Registry, rev: Revision, bound: nat, et: EntityType, key: string, b: Build, s: string, dt: DateTimes.DateTime)
    requires EntriesSize(b.params) < bound
    requires key in Keys(b.params) && Lookup(b.params, key) == PStr(s)
    requires EndsWith(key, "date")
    requires DateTimes.ParseCommaDate(s) == Ok(dt)
    ensures ParamSize(PDate(dt)) < bound
    ensures SetKey(db, reg, rev, bound, et, key, b)
            == Assign(db, reg, rev, bound, et, key, PDate(dt), b.(params := Update(b.params, key, PDate(dt))))
  {
    assert DateStep(key, PStr(s)) == Ok(PDate(dt));
    SetKeyAssigns(db, reg, rev, bound, et, key, b);
  }

  /** A plain value on an attribute that is neither an `_id` key nor validated is assigned as it is. */
  lemma AssignScalar(db: Tables, reg: Registry, rev: Revision, bound: nat, et: EntityType, key: string, v: Param, b: Build)
    requires ParamSize(v) < bound
    requires !EndsWith(key, "_id") && !v.PList? && key !in et.emailColumns
    ensures Assign(db, reg, rev, bound, et, key, v, b) == (db, Ok(b.(record := b.record[key := Scalar(v)])))
  {
  }

  /** A date that does not parse fails the call with the parser's error. */
  lemma DateKeyFails(db: Tables, reg: Registry, rev: Revision, bound: nat, et: EntityType, key: string, b: Build, s: string, e: Error)
    requires EntriesSize(b.params) < bound
    requires key in Keys(b.params) && Lookup(b.params, key) == PStr(s)
    requires EndsWith(key, "date")
    requires DateTimes.ParseCommaDate(s) == Err(e)
    ensures SetKey(db, reg, rev, bound, et, key, b) == (db, Err(e))
  {
    assert DateStep(key, PStr(s)) == Err(e);
  }

  lemma DateNotId(key: string)
    requires EndsWith(key, "date")
    ensures !EndsWith(key, "_id")
  {
    assert key[|key| - 1] == 'e';
  }

  /** A dictionary holding only `CATEGORY` still creates and commits a record, with only the insert defaults. */
  lemma OnlyCategory(db: Tables, reg: Registry, rev: Revision, category: string)
    requires category in reg
    ensures var et := reg[category].entity;
            var (db', id) := Insert(db, et, map[]);
            Create(db, reg, rev, Tree([Entry("CATEGORY", PStr(category))])) == (db', Ok(Created(map[], id, Tree([]))))
  {
    var es := [Entry("CATEGORY", PStr(category))];
    assert Keys(es) == ["CATEGORY"];
    assert Without(es, "CATEGORY") == [];
    assert Keys([]) == [];
    assert Ordering.Sort([]) == [];
    assert Persisted(reg[category].entity, map[]) == map[];
  }

  /** The call leaves `CATEGORY` popped from the dictionary, so passing the same dictionary again fails. */
  lemma CreateNotRepeatable(db: Tables, reg: Registry, rev: Revision, t: Tree, db2: Tables)
    ensures Create(db, reg, rev, t).1.Ok? ==> Create(db2, reg, rev, Create(db, reg, rev, t).1.value.params) == (db2, Err(KeyError("CATEGORY")))
  {
    CreatedWithoutCategory(db, reg, rev, t);
  }

  /** A successful call hands back the dictionary without its `CATEGORY`. */
  lemma CreatedWithoutCategory(db: Tables, reg: Registry, rev: Revision, t: Tree)
    ensures Create(db, reg, rev, t).1.Ok? ==> "CATEGORY" !in Keys(Create(db, reg, rev, t).1.value.params.entries)
  {
    if "CATEGORY" in Keys(t.entries) && CategoryClass(reg, Lookup(t.entries, "CATEGORY")).Ok? {
      var et := CategoryClass(reg, Lookup(t.entries, "CATEGORY")).value;
      var es := Without(t.entries, "CATEGORY");
      var built := SetKeys(db, reg, rev, EntriesSize(t.entries), et, KeyOrder(rev, Keys(es)), Build(map[], None, es)).1;
      assert built.Ok? ==> Keys(built.value.params) == Keys(es);
    }
  }
}
