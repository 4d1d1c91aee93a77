/**
 * The query compiler of labbookdb/db/query.py: `get_df` turns column,
 * join and filter specifications into a query over the mapped classes
 * registered in `allowed_classes`, and `add_all_columns` projects every
 * column of one class.  The compiled query is described by a value; running
 * it against the database is not part of the model.
 *
 * Two pieces of state are changed in place: the class registry, where every
 * three-part column specification registers an aliased class that stays
 * registered after the call, and the caller's filter lists, whose date
 * values are replaced by parsed dates.
 */
module Queries {
  import opened Wrappers
  import opened Text
  import opened Schema
  import opened Resolution
  import DateTimes

  /** A projected attribute, labelled as it appears in the result table. */
  datatype Column = Column(heading: string, source: string, attribute: string)

  /** One argument of a join: a registered class, or a relationship attribute of one. */
  datatype Target = ClassTarget(name: string) | AttributeTarget(name: string, attribute: string)

  /** One join call, inner or outer, with its arguments. */
  datatype Join = Join(outer: bool, targets: seq<Target>)

  /**
   * One filter call: an equality on a single value, a disjunction of
   * equalities on the values, or the disjunction of no values at all.
   */
  datatype Condition =
    | Equals(source: string, attribute: string, value: Value)
    | AnyOf(source: string, attribute: string, values: seq<Value>)
    | Empty

  datatype Query = Query(columns: seq<Column>, joins: seq<Join>, conditions: seq<Condition>)

  /** The outcome of `get_df`: the registry and the filter lists afterwards, and the query or the error. */
  datatype Compiled = Compiled(classes: Registry, filters: seq<seq<Value>>, query: Result<Query>)

  /** The name under which a three-part specification registers its aliased class. */
  function AliasName(first: string, second: string): string
  {
    first + "_" + second
  }

  // --- Columns

  /** The columns of `attrs` of the class registered as `name`, each labelled `<name>_<attribute>`. */
  function Labelled(name: string, attrs: seq<string>): (r: seq<Column>)
    ensures |r| == |attrs|
    ensures forall k :: 0 <= k < |attrs| ==> r[k] == Column(name + "_" + attrs[k], name, attrs[k])
  {
    if |attrs| == 0 then [] else [Column(name + "_" + attrs[0], name, attrs[0])] + Labelled(name, attrs[1..])
  }

  /** `add_all_columns`: every column of a registered class, in mapper order. */
  function AllColumns(reg: Registry, name: string): (r: Result<seq<Column>>)
    ensures name !in reg <==> r == Err(KeyError(name))
    ensures r.Ok? ==> |r.value| == |reg[name].entity.columns|
    ensures r.Ok? ==> forall k :: 0 <= k < |r.value| ==>
              r.value[k].heading == name + "_" + reg[name].entity.columns[k] && r.value[k].source == name &&
              r.value[k].attribute == reg[name].entity.columns[k]
  {
    if name !in reg then Err(KeyError(name)) else Ok(Labelled(name, reg[name].entity.columns))
  }

  /** `getattr(allowed_classes[name], attr).label(heading)`. */
  function Attribute(reg: Registry, name: string, attr: string, heading: string): (r: Result<Column>)
    ensures r.Ok? <==> name in reg && Kind(reg[name].entity, attr) != NoAttr
    ensures r.Ok? ==> r.value == Column(heading, name, attr)
    ensures name in reg && Kind(reg[name].entity, attr) == NoAttr ==> r == Err(AttributeError(attr))
  {
    if name !in reg then Err(KeyError(name))
    else if Kind(reg[name].entity, attr) == NoAttr then Err(AttributeError(attr))
    else Ok(Column(heading, name, attr))
  }

  /**
   * The columns one specification adds: all columns of a class for a
   * one-part tuple, one attribute for a two-part tuple, and for a three-part
   * tuple an aliased class registered first, then all of its columns or the
   * one named; tuples of other lengths add nothing.
   */
  function ColumnStep(reg: Registry, spec: seq<string>): (r: (Registry, Result<seq<Column>>))
    ensures |spec| != 3 ==> r.0 == reg
    ensures |spec| == 3 && spec[1] !in reg ==> r == (reg, Err(KeyError(spec[1])))
    ensures |spec| == 3 && spec[1] in reg ==>
              r.0 == reg[AliasName(spec[0], spec[1]) := ClassRef(reg[spec[1]].entity, Some(AliasName(spec[0], spec[1])))]
  {
    if |spec| == 1 then (reg, AllColumns(reg, spec[0]))
    else if |spec| == 2 then
      (reg, match Attribute(reg, spec[0], spec[1], spec[0] + "_" + spec[1])
            case Err(e) => Err(e)
            case Ok(c) => Ok([c]))
    else if |spec| == 3 then
      if spec[1] !in reg then (reg, Err(KeyError(spec[1])))
      else
        var alias := AliasName(spec[0], spec[1]);
        var reg' := reg[alias := ClassRef(reg[spec[1]].entity, Some(alias))];
        if spec[2] == "" then (reg', AllColumns(reg', alias))
        else
          (reg', match Attribute(reg', alias, spec[2], alias + "_" + spec[2])
                 case Err(e) => Err(e)
                 case Ok(c) => Ok([c]))
    else (reg, Ok([]))
  }

  /** The column loop of `get_df` from `specs` on, after `acc` has been collected. */
  function ColumnsFrom(reg: Registry, specs: seq<seq<string>>, acc: seq<Column>): (r: (Registry, Result<seq<Column>>))
    decreases |specs|
  {
    if |specs| == 0 then (reg, Ok(acc))
    else
      var (reg', cs) := ColumnStep(reg, specs[0]);
      match cs
      case Err(e) => (reg', Err(e))
      case Ok(c) => ColumnsFrom(reg', specs[1..], acc + c)
  }

  function Columns(reg: Registry, specs: seq<seq<string>>): (Registry, Result<seq<Column>>)
  {
    ColumnsFrom(reg, specs, [])
  }

  /** `key` is the alias name of one of the three-part specifications. */
  predicate AliasOf(specs: seq<seq<string>>, key: string)
  {
    exists k :: 0 <= k < |specs| && |specs[k]| == 3 && AliasName(specs[k][0], specs[k][1]) == key
  }

  /** Every column is labelled `<source>_<attribute>` and its source is registered. */
  predicate WellLabelled(reg: Registry, cols: seq<Column>)
  {
    forall k :: 0 <= k < |cols| ==> cols[k].heading == cols[k].source + "_" + cols[k].attribute && cols[k].source in reg
  }

  /**
   * The registry only grows: whatever the outcome, every class stays
   * registered, and an entry is new or changed only under the alias name of
   * a three-part specification, where it is an alias of that name.
   */
  lemma {:induction false} ColumnsRegistry(reg: Registry, specs: seq<seq<string>>, acc: seq<Column>)
    ensures reg.Keys <= ColumnsFrom(reg, specs, acc).0.Keys
    ensures forall key :: key in ColumnsFrom(reg, specs, acc).0 && (key !in reg || ColumnsFrom(reg, specs, acc).0[key] != reg[key]) ==>
              AliasOf(specs, key) && ColumnsFrom(reg, specs, acc).0[key].alias == Some(key)
    decreases |specs|
  {
    if |specs| > 0 {
      var (reg', cs) := ColumnStep(reg, specs[0]);
      if cs.Ok? {
        ColumnsRegistry(reg', specs[1..], acc + cs.value);
        var fin := ColumnsFrom(reg, specs, acc).0;
        forall key | key in fin && (key !in reg || fin[key] != reg[key])
          ensures AliasOf(specs, key) && fin[key].alias == Some(key)
        {
          if key in reg' && fin[key] == reg'[key] {
            assert |specs[0]| == 3 && AliasName(specs[0][0], specs[0][1]) == key;
          } else {
            var k :| 0 <= k < |specs[1..]| && |specs[1..][k]| == 3 && AliasName(specs[1..][k][0], specs[1..][k][1]) == key;
            assert specs[k + 1] == specs[1..][k];
          }
        }
      }
    }
  }

  /** A successful column loop labels every column after its source, and every source stays registered. */
  lemma {:induction false} ColumnsWellLabelled(reg: Registry, specs: seq<seq<string>>, acc: seq<Column>)
    requires WellLabelled(reg, acc)
    requires ColumnsFrom(reg, specs, acc).1.Ok?
    ensures WellLabelled(ColumnsFrom(reg, specs, acc).0, ColumnsFrom(reg, specs, acc).1.value)
    ensures acc <= ColumnsFrom(reg, specs, acc).1.value
    decreases |specs|
  {
    if |specs| > 0 {
      var (reg', cs) := ColumnStep(reg, specs[0]);
      var acc' := acc + cs.value;
      assert reg.Keys <= reg'.Keys;
      assert WellLabelled(reg', acc') by {
        forall k | |acc| <= k < |acc'|
          ensures acc'[k].heading == acc'[k].source + "_" + acc'[k].attribute && acc'[k].source in reg'
        {
          assert acc'[k] == cs.value[k - |acc|];
        }
      }
      ColumnsWellLabelled(reg', specs[1..], acc');
      ColumnsRegistry(reg', specs[1..], acc');
      assert acc <= acc';
    }
  }

  /** A one-part specification projects every column of the class, in order, labelled `<class>_<column>`. */
  lemma OneClassColumns(reg: Registry, name: string)
    requires name in reg
    ensures Columns(reg, [[name]]).1.Ok?
    ensures |Columns(reg, [[name]]).1.value| == |reg[name].entity.columns|
    ensures forall k :: 0 <= k < |reg[name].entity.columns| ==>
              Columns(reg, [[name]]).1.value[k] == Column(name + "_" + reg[name].entity.columns[k], name, reg[name].entity.columns[k])
  {
    var cs := Labelled(name, reg[name].entity.columns);
    assert ColumnStep(reg, [name]) == (reg, Ok(cs));
    assert [[name]][1..] == [];
    assert Columns(reg, [[name]]) == ColumnsFrom(reg, [], [] + cs);
    assert [] + cs == cs;
  }

  /**
   * A three-part specification registers the alias `<first>_<second>` of the
   * second class, and projects the named attribute of the alias labelled
   * `<first>_<second>_<third>`.
   */
  lemma AliasedColumn(reg: Registry, first: string, second: string, attr: string)
    requires second in reg && attr != ""
    requires Kind(reg[second].entity, attr) != NoAttr
    ensures AliasName(first, second) in Columns(reg, [[first, second, attr]]).0
    ensures Columns(reg, [[first, second, attr]]).0[AliasName(first, second)] == ClassRef(reg[second].entity, Some(AliasName(first, second)))
    ensures Columns(reg, [[first, second, attr]]).1 == Ok([Column(first + "_" + second + "_" + attr, AliasName(first, second), attr)])
  {
    var spec := [first, second, attr];
    var alias := AliasName(first, second);
    var reg' := reg[alias := ClassRef(reg[second].entity, Some(alias))];
    var c := Column(alias + "_" + attr, alias, attr);
    assert ColumnStep(reg, spec) == (reg', Ok([c]));
    assert [spec][1..] == [];
    assert Columns(reg, [spec]) == ColumnsFrom(reg', [], [] + [c]);
    assert [] + [c] == [c];
    assert alias + "_" + attr == first + "_" + second + "_" + attr;
  }

  // --- Joins

  /**
   * One join argument: `Class.attribute` when the text holds a period, which
   * must split into exactly two names, else a registered class.
   */
  function JoinTarget(reg: Registry, s: string): (r: Result<Target>)
    ensures r.Ok? && r.value.ClassTarget? ==> !Contains(s, ".") && r.value.name == s && s in reg
    ensures r.Ok? && r.value.AttributeTarget? ==>
              Contains(s, ".") && r.value.name + "." + r.value.attribute == s &&
              !Contains(r.value.name, ".") && !Contains(r.value.attribute, ".") &&
              r.value.name in reg && Kind(reg[r.value.name].entity, r.value.attribute) != NoAttr
    ensures !Contains(s, ".") ==> (r.Ok? <==> s in reg)
  {
    if Contains(s, ".") then
      var parts := Split(s, ".");
      if |parts| != 2 then Err(ValueError("too many values to unpack (expected 2)"))
      else if parts[0] !in reg then Err(KeyError(parts[0]))
      else if Kind(reg[parts[0]].entity, parts[1]) == NoAttr then Err(AttributeError(parts[1]))
      else
        assert Text.Join(parts, ".") == parts[0] + "." + Text.Join(parts[1..], ".");
        Ok(AttributeTarget(parts[0], parts[1]))
    else if s !in reg then Err(KeyError(s))
    else Ok(ClassTarget(s))
  }

  /** `Class.attribute` written out for a registered class and one of its attributes is read back as that attribute. */
  lemma AttributeTargetRoundTrip(reg: Registry, name: string, attr: string)
    requires !Contains(name, ".") && !Contains(attr, ".")
    requires name in reg && Kind(reg[name].entity, attr) != NoAttr
    ensures JoinTarget(reg, name + "." + attr) == Ok(AttributeTarget(name, attr))
  {
    var s := name + "." + attr;
    forall p | p in [name, attr]
      ensures CleanPart(p, ".")
    {
      if |p| > 0 && p[|p| - 1] == '.' {
        assert OccursAt(p, ".", |p| - 1);
        ContainsIff(p, ".");
      }
    }
    SplitJoin([name, attr], ".");
    assert Text.Join([name, attr], ".") == s;
    assert OccursAt(s, ".", |name|);
    ContainsIff(s, ".");
  }

  /** The arguments of one join, in order; the first that cannot be resolved fails the call. */
  function JoinTargets(reg: Registry, entry: seq<string>): (r: Result<seq<Target>>)
    ensures r.Ok? <==> forall k :: 0 <= k < |entry| ==> JoinTarget(reg, entry[k]).Ok?
    ensures r.Ok? ==> |r.value| == |entry| && forall k :: 0 <= k < |entry| ==> r.value[k] == JoinTarget(reg, entry[k]).value
  {
    if |entry| == 0 then Ok([])
    else
      match JoinTarget(reg, entry[0])
      case Err(e) => Err(e)
      case Ok(t) =>
        match JoinTargets(reg, entry[1..])
        case Err(e) =>
          assert exists k :: 0 <= k < |entry[1..]| && JoinTarget(reg, entry[1..][k]).Err?;
          Err(e)
        case Ok(ts) => Ok([t] + ts)
  }

  /** The join loop of `get_df`: every join is outer when `outer` is set, and inner otherwise. */
  function Joins(reg: Registry, entries: seq<seq<string>>, outer: bool): (r: Result<seq<Join>>)
    ensures r.Ok? ==> |r.value| == |entries|
    ensures r.Ok? ==> forall k :: 0 <= k < |entries| ==> r.value[k].outer == outer && JoinTargets(reg, entries[k]) == Ok(r.value[k].targets)
  {
    if |entries| == 0 then Ok([])
    else
      match JoinTargets(reg, entries[0])
      case Err(e) => Err(e)
      case Ok(ts) =>
        match Joins(reg, entries[1..], outer)
        case Err(e) => Err(e)
        case Ok(js) => Ok([Join(outer, ts)] + js)
  }

  // --- Filters

  /** The class a filter names: `allowed_classes[value]`. */
  function ClassKey(reg: Registry, v: Value): (r: Result<string>)
    ensures r.Ok? <==> v.Str? && v.s in reg
    ensures r.Ok? ==> r.value == v.s
  {
    match v
    case Str(s) => if s in reg then Ok(s) else Err(KeyError(s))
    case Refs(_) => Err(TypeError("unhashable type: 'list'"))
    case _ => Err(KeyError(Shown(v)))
  }

  /** A parser of date text; the filter loop uses `datetime(*[int(a) for a in text.split(",")])`. */
  type Parser = string -> Result<DateTimes.DateTime>

  /** One value converted by `parse`: a value that is not text has no `split`. */
  function ConvertOne(v: Value, parse: Parser): (r: Result<Value>)
    ensures r.Ok? <==> v.Str? && parse(v.s).Ok?
    ensures r.Ok? ==> r.value == Date(parse(v.s).value)
  {
    match v
    case Str(s) =>
      (match parse(s)
       case Err(e) => Err(e)
       case Ok(dt) => Ok(Date(dt)))
    case _ => Err(AttributeError("split"))
  }

  /**
   * The in-place date conversion of a filter's values, value by value: the
   * values afterwards and the error of the first one that is not date text.
   */
  function ConvertDates(vs: seq<Value>, parse: Parser): (r: (seq<Value>, Option<Error>))
    ensures |r.0| == |vs|
  {
    if |vs| == 0 then (vs, None)
    else
      match ConvertOne(vs[0], parse)
      case Err(e) => (vs, Some(e))
      case Ok(d) =>
        var (rest, err) := ConvertDates(vs[1..], parse);
        ([d] + rest, err)
  }

  /** A conversion without error turns every value into the date it spells. */
  lemma {:induction false} ConvertDatesMeaning(vs: seq<Value>, parse: Parser)
    requires ConvertDates(vs, parse).1.None?
    ensures forall k :: 0 <= k < |vs| ==> ConvertOne(vs[k], parse) == Ok(ConvertDates(vs, parse).0[k])
    decreases |vs|
  {
    if |vs| > 0 {
      var rest := ConvertDates(vs[1..], parse).0;
      ConvertDatesMeaning(vs[1..], parse);
      forall k | 1 <= k < |vs|
        ensures ConvertOne(vs[k], parse) == Ok(ConvertDates(vs, parse).0[k])
      {
        assert vs[k] == vs[1..][k - 1] && ConvertDates(vs, parse).0[k] == rest[k - 1];
      }
    }
  }

  /**
   * The conversion goes value by value: when the values of `a` convert
   * without error, converting `a + b` converts them and then goes on with
   * `b`, whose failure leaves them converted.
   */
  lemma {:induction false} ConvertDatesAppend(a: seq<Value>, b: seq<Value>, parse: Parser)
    requires ConvertDates(a, parse).1.None?
    ensures ConvertDates(a + b, parse) == (ConvertDates(a, parse).0 + ConvertDates(b, parse).0, ConvertDates(b, parse).1)
    decreases |a|
  {
    if |a| == 0 {
      assert a + b == b;
      assert ConvertDates(a, parse).0 + ConvertDates(b, parse).0 == ConvertDates(b, parse).0;
    } else {
      assert (a + b)[0] == a[0] && (a + b)[1..] == a[1..] + b;
      ConvertDatesAppend(a[1..], b, parse);
      var d := ConvertOne(a[0], parse).value;
      assert [d] + (ConvertDates(a[1..], parse).0 + ConvertDates(b, parse).0) == ConvertDates(a, parse).0 + ConvertDates(b, parse).0;
    }
  }

  /** The conversion of a list with at least one value, unfolded once. */
  lemma ConvertDatesStep(vs: seq<Value>, parse: Parser)
    requires |vs| > 0
    ensures ConvertOne(vs[0], parse).Err? ==> ConvertDates(vs, parse) == (vs, Some(ConvertOne(vs[0], parse).error))
    ensures ConvertOne(vs[0], parse).Ok? ==>
              ConvertDates(vs, parse) == ([ConvertOne(vs[0], parse).value] + ConvertDates(vs[1..], parse).0, ConvertDates(vs[1..], parse).1)
  {
  }

  /** A filter whose attribute name ends in `date` and whose first value is text has its values parsed. */
  predicate ConvertsDates(spec: seq<Value>)
  {
    |spec| >= 3 && spec[1].Str? && EndsWith(spec[1].s, "date") && spec[2].Str?
  }

  /**
   * The filter call of a (converted) filter list of at least two entries:
   * one equality for three entries, else a disjunction over the values; the
   * disjunction of no values looks nothing up.
   */
  function ConditionOf(reg: Registry, spec: seq<Value>): (r: Result<Condition>)
    requires |spec| >= 2
    ensures |spec| == 2 ==> r == Ok(Empty)
    ensures r.Ok? && |spec| > 2 ==> ClassKey(reg, spec[0]).Ok? && spec[1].Str? && spec[1].s in reg[spec[0].s].entity.columns
    ensures r.Ok? && |spec| == 3 ==> r.value == Equals(spec[0].s, spec[1].s, spec[2])
    ensures r.Ok? && |spec| > 3 ==> r.value == AnyOf(spec[0].s, spec[1].s, spec[2..])
  {
    if |spec| == 2 then Ok(Empty)
    else
      match ClassKey(reg, spec[0])
      case Err(e) => Err(e)
      case Ok(name) =>
        if !spec[1].Str? then Err(TypeError("attribute name must be string"))
        else
          match EqualityFilter(reg[name].entity, spec[1].s, spec[2])
          case Err(e) => Err(e)
          case Ok(_) =>
            if |spec| == 3 then Ok(Equals(name, spec[1].s, spec[2]))
            else Ok(AnyOf(name, spec[1].s, spec[2..]))
  }

  /**
   * One pass of the filter loop: the filter list afterwards and its
   * condition, none for an empty list.
   */
  function FilterStep(reg: Registry, spec: seq<Value>, parse: Parser): (r: (seq<Value>, Result<Option<Condition>>))
    ensures |r.0| == |spec|
    ensures |spec| == 0 <==> r == (spec, Ok(None))
    ensures !ConvertsDates(spec) ==> r.0 == spec
    ensures ConvertsDates(spec) ==> r.0[..2] == spec[..2] && r.0[2..] == ConvertDates(spec[2..], parse).0
  {
    if |spec| == 0 then (spec, Ok(None))
    else if |spec| == 1 then (spec, Err(IndexError))
    else if spec[1].Int? || spec[1].Date? then (spec, Err(TypeError("object is not subscriptable")))
    else if spec[1].Str? && EndsWith(spec[1].s, "date") && |spec| == 2 then (spec, Err(IndexError))
    else if ConvertsDates(spec) then
      var (vs, err) := ConvertDates(spec[2..], parse);
      var spec' := spec[..2] + vs;
      assert spec'[..2] == spec[..2] && spec'[2..] == vs;
      if err.Some? then (spec', Err(err.value))
      else
        (spec', match ConditionOf(reg, spec')
                case Err(e) => Err(e)
                case Ok(c) => Ok(Some(c)))
    else
      (spec, match ConditionOf(reg, spec)
             case Err(e) => Err(e)
             case Ok(c) => Ok(Some(c)))
  }

  /**
   * The filter loop of `get_df` from `specs` on, after the lists `done` have
   * been processed into `acc`: the filter lists afterwards (those after a
   * failure untouched) and the conditions.
   */
  function FiltersFrom(reg: Registry, specs: seq<seq<Value>>, done: seq<seq<Value>>, acc: seq<Condition>, parse: Parser): (r: (seq<seq<Value>>, Result<seq<Condition>>))
    ensures |r.0| == |done| + |specs| && r.0[..|done|] == done
    decreases |specs|
  {
    if |specs| == 0 then (done, Ok(acc))
    else
      var (spec', c) := FilterStep(reg, specs[0], parse);
      match c
      case Err(e) => (done + [spec'] + specs[1..], Err(e))
      case Ok(None) =>
        var r := FiltersFrom(reg, specs[1..], done + [spec'], acc, parse);
        assert r.0[..|done|] == r.0[..|done + [spec']|][..|done|];
        r
      case Ok(Some(x)) =>
        var r := FiltersFrom(reg, specs[1..], done + [spec'], acc + [x], parse);
        assert r.0[..|done|] == r.0[..|done + [spec']|][..|done|];
        r
  }

  function Filters(reg: Registry, specs: seq<seq<Value>>, parse: Parser): (seq<seq<Value>>, Result<seq<Condition>>)
  {
    FiltersFrom(reg, specs, [], [], parse)
  }

  /** How many filter lists are not empty. */
  function NonEmpty(specs: seq<seq<Value>>): (n: nat)
    ensures n <= |specs|
  {
    if |specs| == 0 then 0 else (if |specs[0]| == 0 then 0 else 1) + NonEmpty(specs[1..])
  }

  /** Empty filter lists are skipped: every other list adds exactly one condition, in order. */
  lemma {:induction false} FiltersCount(reg: Registry, specs: seq<seq<Value>>, done: seq<seq<Value>>, acc: seq<Condition>, parse: Parser)
    requires FiltersFrom(reg, specs, done, acc, parse).1.Ok?
    ensures |FiltersFrom(reg, specs, done, acc, parse).1.value| == |acc| + NonEmpty(specs)
    ensures acc <= FiltersFrom(reg, specs, done, acc, parse).1.value
    decreases |specs|
  {
    if |specs| > 0 {
      var (spec', c) := FilterStep(reg, specs[0], parse);
      if c.value.None? {
        FiltersCount(reg, specs[1..], done + [spec'], acc, parse);
      } else {
        FiltersCount(reg, specs[1..], done + [spec'], acc + [c.value.value], parse);
      }
    }
  }

  /**
   * After a successful call every filter list whose attribute ends in `date`
   * and whose first value was text holds the parsed dates in place of all of
   * its values; every other list is unchanged.
   */
  lemma {:induction false} FiltersConverted(reg: Registry, specs: seq<seq<Value>>, done: seq<seq<Value>>, acc: seq<Condition>, parse: Parser)
    requires FiltersFrom(reg, specs, done, acc, parse).1.Ok?
    ensures forall k :: 0 <= k < |specs| ==> ConvertedFrom(specs[k], FiltersFrom(reg, specs, done, acc, parse).0[|done| + k], parse)
    decreases |specs|
  {
    if |specs| > 0 {
      var (spec', c) := FilterStep(reg, specs[0], parse);
      var done' := done + [spec'];
      var acc' := if c.value.Some? then acc + [c.value.value] else acc;
      FiltersFromStep(reg, specs, done, acc, parse);
      var r := FiltersFrom(reg, specs[1..], done', acc', parse).0;
      FiltersConverted(reg, specs[1..], done', acc', parse);
      FilterStepConverted(reg, specs[0], parse);
      assert r[..|done'|] == done';
      assert r[|done|] == r[..|done'|][|done|] == spec';
      ConvertedShift(specs, r, |done|, parse);
    }
  }

  /** The head list converted at position `d`, and the tail lists from `d + 1` on. */
  lemma ConvertedShift(specs: seq<seq<Value>>, whole: seq<seq<Value>>, d: nat, parse: Parser)
    requires 0 < |specs| && d + |specs| <= |whole|
    requires ConvertedFrom(specs[0], whole[d], parse)
    requires forall k :: 0 <= k < |specs| - 1 ==> ConvertedFrom(specs[1..][k], whole[d + 1 + k], parse)
    ensures forall k :: 0 <= k < |specs| ==> ConvertedFrom(specs[k], whole[d + k], parse)
  {
    forall k | 0 < k < |specs|
      ensures ConvertedFrom(specs[k], whole[d + k], parse)
    {
      assert specs[k] == specs[1..][k - 1] && d + k == d + 1 + (k - 1);
    }
  }

  /** A successful first filter list: the rest are taken with it done and its condition, if any, kept. */
  lemma FiltersFromStep(reg: Registry, specs: seq<seq<Value>>, done: seq<seq<Value>>, acc: seq<Condition>, parse: Parser)
    requires |specs| > 0 && FilterStep(reg, specs[0], parse).1.Ok?
    ensures var (spec', c) := FilterStep(reg, specs[0], parse);
            FiltersFrom(reg, specs, done, acc, parse)
            == FiltersFrom(reg, specs[1..], done + [spec'], if c.value.Some? then acc + [c.value.value] else acc, parse)
  {
  }

  /**
   * What one filter list becomes: itself, unless its attribute ends in
   * `date`, when its values are the dates they spell.
   */
  predicate ConvertedFrom(spec: seq<Value>, spec': seq<Value>, parse: Parser)
  {
    (!ConvertsDates(spec) ==> spec' == spec) &&
    (ConvertsDates(spec) ==>
       |spec'| == |spec| && spec'[..2] == spec[..2] &&
       forall j :: 2 <= j < |spec| ==> ConvertOne(spec[j], parse) == Ok(spec'[j]))
  }

  lemma FilterStepConverted(reg: Registry, spec: seq<Value>, parse: Parser)
    requires FilterStep(reg, spec, parse).1.Ok?
    ensures ConvertedFrom(spec, FilterStep(reg, spec, parse).0, parse)
  {
    if ConvertsDates(spec) {
      var spec' := FilterStep(reg, spec, parse).0;
      var (vs, err) := ConvertDates(spec[2..], parse);
      assert err.None?;
      ConvertDatesMeaning(spec[2..], parse);
      forall j | 2 <= j < |spec|
        ensures ConvertOne(spec[j], parse) == Ok(spec'[j])
      {
        assert spec[j] == spec[2..][j - 2] && spec'[j] == spec'[2..][j - 2];
      }
    }
  }

  /**
   * The conversion happens once: a filter list left behind by a successful
   * pass holds dates, so passing it again changes nothing and yields the
   * same condition.
   */
  lemma FilterStepRepeat(reg: Registry, spec: seq<Value>, parse: Parser)
    requires FilterStep(reg, spec, parse).1.Ok?
    ensures FilterStep(reg, FilterStep(reg, spec, parse).0, parse) == FilterStep(reg, spec, parse)
  {
    if ConvertsDates(spec) {
      var spec' := FilterStep(reg, spec, parse).0;
      var (vs, err) := ConvertDates(spec[2..], parse);
      assert err.None?;
      ConvertDatesMeaning(spec[2..], parse);
      assert spec'[2] == vs[0] && ConvertOne(spec[2..][0], parse) == Ok(vs[0]);
      assert !ConvertsDates(spec');
    }
  }

  /** A second call on the filter lists a successful call left behind changes none of them and adds the same conditions. */
  lemma {:induction false} FiltersRepeat(reg: Registry, specs: seq<seq<Value>>, done: seq<seq<Value>>, acc: seq<Condition>, parse: Parser)
    requires FiltersFrom(reg, specs, done, acc, parse).1.Ok?
    ensures FiltersFrom(reg, FiltersFrom(reg, specs, done, acc, parse).0[|done|..], done, acc, parse) == FiltersFrom(reg, specs, done, acc, parse)
    decreases |specs|
  {
    var r := FiltersFrom(reg, specs, done, acc, parse);
    if |specs| == 0 {
      assert r.0[|done|..] == [];
    } else {
      var (spec', c) := FilterStep(reg, specs[0], parse);
      var done' := done + [spec'];
      var acc' := if c.value.Some? then acc + [c.value.value] else acc;
      assert r == FiltersFrom(reg, specs[1..], done', acc', parse);
      FiltersRepeat(reg, specs[1..], done', acc', parse);
      FilterStepRepeat(reg, specs[0], parse);
      var again := r.0[|done|..];
      assert again[0] == spec' by {
        assert r.0[..|done'|] == done';
      }
      assert again[1..] == r.0[|done'|..];
    }
  }

  /** A filter whose attribute does not end in `date` and that names a column gives one equality for one value and a disjunction for more. */
  lemma ColumnFilter(reg: Registry, name: string, attr: string, values: seq<Value>, parse: Parser)
    requires name in reg && attr in reg[name].entity.columns && !EndsWith(attr, "date")
    requires |values| >= 1
    ensures FilterStep(reg, [Str(name), Str(attr)] + values, parse) ==
              ([Str(name), Str(attr)] + values,
               Ok(Some(if |values| == 1 then Equals(name, attr, values[0]) else AnyOf(name, attr, values))))
  {
    var spec := [Str(name), Str(attr)] + values;
    assert spec[2..] == values;
    assert !ConvertsDates(spec);
    assert ConditionOf(reg, spec).Ok?;
  }

  // --- The whole call

  /**
   * `get_df` up to the query it builds: columns, then joins over the
   * registry as the columns left it, then filters.  The aliases registered
   * before a failure stay registered, and filters are converted only once
   * the columns and joins were built.
   */
  function Compile(reg: Registry, colSpecs: seq<seq<string>>, joinSpecs: seq<seq<string>>, filters: seq<seq<Value>>, outer: bool, parse: Parser): (r: Compiled)
    ensures r.classes == Columns(reg, colSpecs).0
    ensures |r.filters| == |filters|
    ensures r.query.Ok? ==> Joins(r.classes, joinSpecs, outer) == Ok(r.query.value.joins)
    ensures r.query.Ok? ==> Columns(reg, colSpecs).1 == Ok(r.query.value.columns)
    ensures r.query.Ok? ==> Filters(r.classes, filters, parse) == (r.filters, Ok(r.query.value.conditions))
  {
    var (reg', cols) := Columns(reg, colSpecs);
    match cols
    case Err(e) => Compiled(reg', filters, Err(e))
    case Ok(cs) =>
      match Joins(reg', joinSpecs, outer)
      case Err(e) => Compiled(reg', filters, Err(e))
      case Ok(js) =>
        var (filters', conds) := Filters(reg', filters, parse);
        match conds
        case Err(e) => Compiled(reg', filters', Err(e))
        case Ok(fs) => Compiled(reg', filters', Ok(Query(cs, js, fs)))
  }

  /**
   * A compiled query: its columns are labelled after their registered
   * sources, all of its joins are of the one kind asked for, and every
   * non-empty filter list adds exactly one condition.
   */
  lemma CompiledQuery(reg: Registry, colSpecs: seq<seq<string>>, joinSpecs: seq<seq<string>>, filters: seq<seq<Value>>, outer: bool, parse: Parser)
    requires Compile(reg, colSpecs, joinSpecs, filters, outer, parse).query.Ok?
    ensures WellLabelled(Compile(reg, colSpecs, joinSpecs, filters, outer, parse).classes, Compile(reg, colSpecs, joinSpecs, filters, outer, parse).query.value.columns)
    ensures forall k :: 0 <= k < |Compile(reg, colSpecs, joinSpecs, filters, outer, parse).query.value.joins| ==>
              Compile(reg, colSpecs, joinSpecs, filters, outer, parse).query.value.joins[k].outer == outer
    ensures |Compile(reg, colSpecs, joinSpecs, filters, outer, parse).query.value.joins| == |joinSpecs|
    ensures |Compile(reg, colSpecs, joinSpecs, filters, outer, parse).query.value.conditions| == NonEmpty(filters)
  {
    ColumnsWellLabelled(reg, colSpecs, []);
    FiltersCount(Columns(reg, colSpecs).0, filters, [], [], parse);
  }

  // --- The imperative compiler

  /** The module-level registry `allowed_classes`, which `get_df` extends with aliases. */
  class QueryCompiler {
    var classes: Registry

    constructor(reg: Registry)
      ensures classes == reg
    {
      classes := reg;
    }

    /** `add_all_columns`: appends every column of the class to `cols`. */
    method AddAllColumns(cols: seq<Column>, name: string) returns (r: Result<seq<Column>>)
      ensures AllColumns(classes, name).Err? ==> r == AllColumns(classes, name)
      ensures AllColumns(classes, name).Ok? ==> r == Ok(cols + AllColumns(classes, name).value)
    {
      if name !in classes {
        return Err(KeyError(name));
      }
      var attrs := classes[name].entity.columns;
      var out := cols;
      var i := 0;
      while i < |attrs|
        invariant 0 <= i <= |attrs|
        invariant out == cols + Labelled(name, attrs[..i])
      {
        assert Labelled(name, attrs[..i + 1]) == Labelled(name, attrs[..i]) + [Column(name + "_" + attrs[i], name, attrs[i])];
        out := out + [Column(name + "_" + attrs[i], name, attrs[i])];
        i := i + 1;
      }
      assert attrs[..i] == attrs;
      return Ok(out);
    }

    /** `getattr(...).label(...)` on a registered class. */
    method LabelAttribute(name: string, attr: string, heading: string) returns (r: Result<Column>)
      ensures r == Attribute(classes, name, attr, heading)
    {
      if name !in classes {
        return Err(KeyError(name));
      }
      if Kind(classes[name].entity, attr) == NoAttr {
        return Err(AttributeError(attr));
      }
      return Ok(Column(heading, name, attr));
    }

    /** The column loop: registers the aliases and collects the columns. */
    method SelectColumns(specs: seq<seq<string>>) returns (r: Result<seq<Column>>)
      modifies this
      ensures (classes, r) == Columns(old(classes), specs)
    {
      var cols: seq<Column> := [];
      var i := 0;
      while i < |specs|
        invariant 0 <= i <= |specs|
        invariant ColumnsFrom(classes, specs[i..], cols) == Columns(old(classes), specs)
      {
        var spec := specs[i];
        ghost var step := ColumnStep(classes, spec);
        ColumnsFromStep(classes, specs[i..], cols);
        assert specs[i..][0] == spec && specs[i..][1..] == specs[i + 1..];
        var added: seq<Column> := [];
        if |spec| == 1 {
          var all := AddAllColumns(cols, spec[0]);
          if all.Err? {
            return Err(all.error);
          }
          added := all.value[|cols|..];
          assert all.value == cols + added;
        } else if |spec| == 2 {
          var c := LabelAttribute(spec[0], spec[1], spec[0] + "_" + spec[1]);
          if c.Err? {
            return Err(c.error);
          }
          added := [c.value];
        } else if |spec| == 3 {
          if spec[1] !in classes {
            return Err(KeyError(spec[1]));
          }
          var alias := AliasName(spec[0], spec[1]);
          classes := classes[alias := ClassRef(classes[spec[1]].entity, Some(alias))];
          if spec[2] == "" {
            var all := AddAllColumns(cols, alias);
            added := all.value[|cols|..];
            assert all.value == cols + added;
          } else {
            var c := LabelAttribute(alias, spec[2], alias + "_" + spec[2]);
            if c.Err? {
              return Err(c.error);
            }
            added := [c.value];
          }
        }
        assert step == (classes, Ok(added));
        cols := cols + added;
        i := i + 1;
      }
      assert specs[i..] == [];
      return Ok(cols);
    }

    /** The join loop, over the registry as the column loop left it. */
    method BuildJoins(entries: seq<seq<string>>, outer: bool) returns (r: Result<seq<Join>>)
      ensures r == Joins(classes, entries, outer)
    {
      var joins: seq<Join> := [];
      var i := 0;
      JoinsAfterBounds(classes, entries, outer, []);
      while i < |entries|
        invariant 0 <= i <= |entries|
        invariant Joins(classes, entries, outer) == JoinsAfter(classes, entries, outer, i, joins)
      {
        JoinsStep(classes, entries, outer, i, joins);
        var targets := JoinParameters(entries[i]);
        if targets.Err? {
          return Err(targets.error);
        }
        joins := joins + [Join(outer, targets.value)];
        i := i + 1;
      }
      JoinsAfterBounds(classes, entries, outer, joins);
      return Ok(joins);
    }

    /** The arguments of one join. */
    method JoinParameters(entry: seq<string>) returns (r: Result<seq<Target>>)
      ensures r == JoinTargets(classes, entry)
    {
      var targets: seq<Target> := [];
      var i := 0;
      JoinTargetsAfterBounds(classes, entry, []);
      while i < |entry|
        invariant 0 <= i <= |entry|
        invariant JoinTargets(classes, entry) == JoinTargetsAfter(classes, entry, i, targets)
      {
        var t := JoinTarget(classes, entry[i]);
        JoinTargetsStep(classes, entry, i, targets);
        if t.Err? {
          return Err(t.error);
        }
        targets := targets + [t.value];
        i := i + 1;
      }
      JoinTargetsAfterBounds(classes, entry, targets);
      return Ok(targets);
    }

    /**
     * `get_df` up to the query: the registry keeps the aliases the columns
     * registered, and the caller's filter lists are converted in place.
     */
    method GetDf(colSpecs: seq<seq<string>>, joinSpecs: seq<seq<string>>, filters: array<seq<Value>>, outer: bool)
      returns (r: Result<Query>)
      modifies this, filters
      ensures Compiled(classes, filters[..], r) == Compile(old(classes), colSpecs, joinSpecs, old(filters[..]), outer, DateTimes.ParseCommaDate)
    {
      var cols := SelectColumns(colSpecs);
      if cols.Err? {
        return Err(cols.error);
      }
      var joins := BuildJoins(joinSpecs, outer);
      if joins.Err? {
        return Err(joins.error);
      }
      var conds := ApplyFilters(filters, DateTimes.ParseCommaDate);
      if conds.Err? {
        return Err(conds.error);
      }
      return Ok(Query(cols.value, joins.value, conds.value));
    }

    /** The filter loop over the caller's filter lists. */
    method ApplyFilters(filters: array<seq<Value>>, parse: Parser) returns (r: Result<seq<Condition>>)
      modifies filters
      ensures (filters[..], r) == Filters(classes, old(filters[..]), parse)
    {
      var conds: seq<Condition> := [];
      var i := 0;
      while i < filters.Length
        invariant 0 <= i <= filters.Length
        invariant filters[i..] == old(filters[i..])
        invariant FiltersFrom(classes, filters[i..], filters[..i], conds, parse) == Filters(classes, old(filters[..]), parse)
      {
        ghost var before := filters[..];
        assert before[i..][1..] == before[i + 1..];
        var c := FilterEntry(filters, i, parse);
        assert filters[..i + 1] == before[..i] + [filters[i]];
        assert filters[i + 1..] == before[i + 1..];
        if c.Err? {
          assert filters[..] == before[..i] + [filters[i]] + before[i + 1..];
          return Err(c.error);
        }
        if c.value.Some? {
          conds := conds + [c.value.value];
        }
        i := i + 1;
      }
      assert filters[..i] == filters[..];
      return Ok(conds);
    }

    /** One pass of the filter loop: converts the list's dates in place and returns its condition. */
    method FilterEntry(filters: array<seq<Value>>, i: int, parse: Parser) returns (c: Result<Option<Condition>>)
      requires 0 <= i < filters.Length
      modifies filters
      ensures filters[..] == old(filters[..])[i := FilterStep(classes, old(filters[i]), parse).0]
      ensures c == FilterStep(classes, old(filters[i]), parse).1
    {
      var spec := filters[i];
      if |spec| == 0 {
        return Ok(None);
      }
      if |spec| == 1 {
        return Err(IndexError);
      }
      if spec[1].Int? || spec[1].Date? {
        return Err(TypeError("object is not subscriptable"));
      }
      if spec[1].Str? && EndsWith(spec[1].s, "date") && |spec| == 2 {
        return Err(IndexError);
      }
      if ConvertsDates(spec) {
        var err := ConvertInPlace(filters, i, parse);
        if err.Some? {
          return Err(err.value);
        }
        assert filters[i] == spec[..2] + ConvertDates(spec[2..], parse).0;
      }
      var cond := ConditionOf(classes, filters[i]);
      if cond.Err? {
        return Err(cond.error);
      }
      return Ok(Some(cond.value));
    }

    /** Replaces the values of filter list `i`, one by one, by the dates they spell. */
    method ConvertInPlace(filters: array<seq<Value>>, i: int, parse: Parser) returns (err: Option<Error>)
      requires 0 <= i < filters.Length && |filters[i]| >= 2
      modifies filters
      ensures filters[..] == old(filters[..])[i := old(filters[i])[..2] + ConvertDates(old(filters[i])[2..], parse).0]
      ensures err == ConvertDates(old(filters[i])[2..], parse).1
    {
      ghost var spec := filters[i];
      var n := |filters[i]| - 2;
      var ix := 0;
      while ix < n
        invariant 0 <= ix <= n
        invariant filters[..] == old(filters[..])[i := filters[i]]
        invariant ConvertedUpTo(spec, filters[i], ix, parse)
      {
        var v := filters[i][2 + ix];
        var d := ConvertOne(v, parse);
        if d.Err? {
          ConvertStops(spec, filters[i], ix, parse);
          return Some(d.error);
        }
        ConvertAdvances(spec, filters[i], ix, parse);
        filters[i] := filters[i][2 + ix := d.value];
        ix := ix + 1;
      }
      ConvertEnds(spec, filters[i], parse);
      return None;
    }
  }

  /** `cur` is the filter list `spec` with its first `ix` values converted by `parse` and the others untouched. */
  predicate ConvertedUpTo(spec: seq<Value>, cur: seq<Value>, ix: int, parse: Parser)
  {
    |cur| == |spec| && 0 <= ix && 2 + ix <= |spec| &&
    cur[..2] == spec[..2] && cur[2 + ix..] == spec[2 + ix..] &&
    ConvertDates(spec[2..2 + ix], parse) == (cur[2..2 + ix], None)
  }

  /** Converting the next value keeps the list converted one further. */
  lemma ConvertAdvances(spec: seq<Value>, cur: seq<Value>, ix: int, parse: Parser)
    requires ConvertedUpTo(spec, cur, ix, parse) && 2 + ix < |spec|
    requires ConvertOne(cur[2 + ix], parse).Ok?
    ensures ConvertedUpTo(spec, cur[2 + ix := ConvertOne(cur[2 + ix], parse).value], ix + 1, parse)
  {
    var v := spec[2 + ix];
    assert cur[2 + ix] == cur[2 + ix..][0] == v;
    var cur' := cur[2 + ix := ConvertOne(v, parse).value];
    ConvertDatesAppend(spec[2..2 + ix], [v], parse);
    assert spec[2..2 + ix + 1] == spec[2..2 + ix] + [v];
    ConvertDatesStep([v], parse);
    assert [v][1..] == [];
    var d := ConvertOne(v, parse).value;
    assert ConvertDates([v], parse) == ([d] + [], None);
    assert [d] + [] == [d];
    assert ConvertDates(spec[2..2 + ix + 1], parse) == (cur[2..2 + ix] + [d], None);
    assert cur'[..2] == cur[..2];
    assert cur'[2..2 + ix + 1] == cur[2..2 + ix] + [ConvertOne(v, parse).value];
    assert cur'[2 + ix + 1..] == cur[2 + ix + 1..];
    assert cur[2 + ix + 1..] == cur[2 + ix..][1..];
    assert spec[2 + ix + 1..] == spec[2 + ix..][1..];
  }

  /** A value that does not convert stops the conversion with its error, the converted ones kept. */
  lemma ConvertStops(spec: seq<Value>, cur: seq<Value>, ix: int, parse: Parser)
    requires ConvertedUpTo(spec, cur, ix, parse) && 2 + ix < |spec|
    requires ConvertOne(cur[2 + ix], parse).Err?
    ensures cur == spec[..2] + ConvertDates(spec[2..], parse).0
    ensures ConvertDates(spec[2..], parse).1 == Some(ConvertOne(cur[2 + ix], parse).error)
  {
    var v := spec[2 + ix];
    assert cur[2 + ix] == cur[2 + ix..][0] == v;
    ConvertDatesAppend(spec[2..2 + ix], spec[2 + ix..], parse);
    assert spec[2..] == spec[2..2 + ix] + spec[2 + ix..];
    ConvertDatesStep(spec[2 + ix..], parse);
    assert cur == cur[..2] + cur[2..2 + ix] + cur[2 + ix..];
  }

  /** A list converted all the way is the conversion of its values. */
  lemma ConvertEnds(spec: seq<Value>, cur: seq<Value>, parse: Parser)
    requires ConvertedUpTo(spec, cur, |spec| - 2, parse)
    ensures cur == spec[..2] + ConvertDates(spec[2..], parse).0
    ensures ConvertDates(spec[2..], parse).1 == None
  {
    assert spec[2..2 + (|spec| - 2)] == spec[2..];
    assert cur == cur[..2] + cur[2..2 + (|spec| - 2)];
  }

  /** The column loop past one more specification. */
  lemma ColumnsFromStep(reg: Registry, specs: seq<seq<string>>, acc: seq<Column>)
    requires |specs| > 0
    ensures ColumnStep(reg, specs[0]).1.Err? ==> ColumnsFrom(reg, specs, acc) == (ColumnStep(reg, specs[0]).0, Err(ColumnStep(reg, specs[0]).1.error))
    ensures ColumnStep(reg, specs[0]).1.Ok? ==> ColumnsFrom(reg, specs, acc) == ColumnsFrom(ColumnStep(reg, specs[0]).0, specs[1..], acc + ColumnStep(reg, specs[0]).1.value)
  {
  }

  /** The join loop past `i` entries, with `done` built so far. */
  function JoinsAfter(reg: Registry, entries: seq<seq<string>>, outer: bool, i: int, done: seq<Join>): Result<seq<Join>>
    requires 0 <= i <= |entries|
  {
    match Joins(reg, entries[i..], outer)
    case Err(e) => Err(e)
    case Ok(js) => Ok(done + js)
  }

  lemma JoinsAfterBounds(reg: Registry, entries: seq<seq<string>>, outer: bool, done: seq<Join>)
    ensures JoinsAfter(reg, entries, outer, 0, []) == Joins(reg, entries, outer)
    ensures JoinsAfter(reg, entries, outer, |entries|, done) == Ok(done)
  {
    assert entries[0..] == entries && entries[|entries|..] == [] && done + [] == done;
    if Joins(reg, entries, outer).Ok? {
      assert [] + Joins(reg, entries, outer).value == Joins(reg, entries, outer).value;
    }
  }

  lemma JoinsStep(reg: Registry, entries: seq<seq<string>>, outer: bool, i: int, done: seq<Join>)
    requires 0 <= i < |entries|
    ensures JoinTargets(reg, entries[i]).Err? ==> JoinsAfter(reg, entries, outer, i, done) == Err(JoinTargets(reg, entries[i]).error)
    ensures JoinTargets(reg, entries[i]).Ok? ==>
              JoinsAfter(reg, entries, outer, i, done) == JoinsAfter(reg, entries, outer, i + 1, done + [Join(outer, JoinTargets(reg, entries[i]).value)])
  {
    assert entries[i..][1..] == entries[i + 1..];
    if JoinTargets(reg, entries[i]).Ok? && Joins(reg, entries[i + 1..], outer).Ok? {
      var j := Join(outer, JoinTargets(reg, entries[i]).value);
      var js := Joins(reg, entries[i + 1..], outer).value;
      assert done + ([j] + js) == done + [j] + js;
    }
  }

  /** The argument loop of one join past `i` arguments, with `done` resolved so far. */
  function JoinTargetsAfter(reg: Registry, entry: seq<string>, i: int, done: seq<Target>): Result<seq<Target>>
    requires 0 <= i <= |entry|
  {
    match JoinTargets(reg, entry[i..])
    case Err(e) => Err(e)
    case Ok(ts) => Ok(done + ts)
  }

  lemma JoinTargetsAfterBounds(reg: Registry, entry: seq<string>, done: seq<Target>)
    ensures JoinTargetsAfter(reg, entry, 0, []) == JoinTargets(reg, entry)
    ensures JoinTargetsAfter(reg, entry, |entry|, done) == Ok(done)
  {
    assert entry[0..] == entry && entry[|entry|..] == [] && done + [] == done;
    if JoinTargets(reg, entry).Ok? {
      assert [] + JoinTargets(reg, entry).value == JoinTargets(reg, entry).value;
    }
  }

  lemma JoinTargetsStep(reg: Registry, entry: seq<string>, i: int, done: seq<Target>)
    requires 0 <= i < |entry|
    ensures JoinTarget(reg, entry[i]).Err? ==> JoinTargetsAfter(reg, entry, i, done) == Err(JoinTarget(reg, entry[i]).error)
    ensures JoinTarget(reg, entry[i]).Ok? ==> JoinTargetsAfter(reg, entry, i, done) == JoinTargetsAfter(reg, entry, i + 1, done + [JoinTarget(reg, entry[i]).value])
  {
    assert entry[i..][1..] == entry[i + 1..];
    if JoinTarget(reg, entry[i]).Ok? && JoinTargets(reg, entry[i + 1..]).Ok? {
      var ts := JoinTargets(reg, entry[i + 1..]).value;
      assert done + ([JoinTarget(reg, entry[i]).value] + ts) == done + [JoinTarget(reg, entry[i]).value] + ts;
    }
  }
}
