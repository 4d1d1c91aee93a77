/**
 * The identifier-expression resolver: `Category:field.value&&field.value`.
 *
 * The category is the text before the first `:`, the rest is split on `&&`
 * into conditions, and each condition on its first `.` into a field and a
 * value.  A value that contains `:` is itself an expression, resolved first;
 * its ids become filters on the field.  Any other value is compared with the
 * field, after parsing a date from comma-separated integers when the field
 * name ends in `date`.  The filters are chained, so every condition must
 * hold; no matching record is an error naming the last value, the last field
 * and the category.
 *
 * Two revisions exist.  The current one (`get_related_ids`) unwraps one level
 * of escaped separators in every value (`&#&` becomes `&&`, then `&##&`
 * becomes `&#&`) and, when a nested expression is matched against a
 * collection, falls back to a membership test.  The older one
 * (`get_related_id`) does neither.
 */
module Resolution {
  import opened Wrappers
  import opened Text
  import DateTimes
  import opened Schema
  import opened Store

  datatype Revision = Current | Legacy

  /** The text before the first `:`, or all of it (`s.split(":", 1)[0]`). */
  function CategoryOf(s: string): (c: string)
    ensures !Contains(c, ":")
    ensures Contains(s, ":") ==> c + ":" + s[Find(s, ":") + 1..] == s
    ensures !Contains(s, ":") ==> c == s
  {
    var i := Find(s, ":");
    if i == -1 then s
    else
      assert !Contains(s[..i], ":") by {
        var k := Find(s[..i], ":");
        if k != -1 {
          PrefixOccurs(s, i, ":", k);
        }
      }
      assert s == s[..i] + ":" + s[i + 1..];
      s[..i]
  }

  /** One level of escape unwrapping: every `&#&` becomes `&&`, then every `&##&` becomes `&#&`. */
  function Unwrap(v: string): (r: string)
    ensures |r| <= |v|
  {
    ReplaceShrinks(v, "&#&", "&&");
    var once := Replace(v, "&#&", "&&");
    ReplaceShrinks(once, "&##&", "&#&");
    Replace(once, "&##&", "&#&")
  }

  /** The value as the resolver matches it: unwrapped in the current revision when it holds an escape. */
  function Unescaped(rev: Revision, v: string): (r: string)
    ensures |r| <= |v|
  {
    if rev.Current? && (Contains(v, "&#&") || Contains(v, "&##&")) then Unwrap(v) else v
  }

  /** The test before unwrapping changes nothing: a value without escapes is left as it is by `Unwrap`. */
  lemma UnescapeGuardRedundant(v: string)
    ensures Unescaped(Current, v) == Unwrap(v)
  {
    if !(Contains(v, "&#&") || Contains(v, "&##&")) {
      ReplaceAbsent(v, "&#&", "&&");
      ReplaceAbsent(v, "&##&", "&#&");
    }
  }

  /** `getattr(cls, field) == value`: only a column can be compared with a value. */
  function EqualityFilter(et: EntityType, field: string, v: Value): (r: Result<Filter>)
    ensures r.Ok? <==> field in et.columns
    ensures r.Ok? ==> r.value == Eq(field, v)
    ensures Kind(et, field) == NoAttr ==> r == Err(AttributeError(field))
  {
    match Kind(et, field)
    case ColumnAttr => Ok(Eq(field, v))
    case NoAttr => Err(AttributeError(field))
    case _ => Err(InvalidRequest("a relationship cannot be compared with a value"))
  }

  /** A literal value: a date parsed from comma-separated integers when the field name ends in `date`, else the text. */
  function LiteralValue(field: string, text: string): (r: Result<Value>)
    ensures !EndsWith(field, "date") ==> r == Ok(Str(text))
    ensures EndsWith(field, "date") && r.Ok? ==> r.value.Date? && DateTimes.Valid(r.value.dt) && DateTimes.ParseCommaDate(text) == Ok(r.value.dt)
  {
    if EndsWith(field, "date") then
      match DateTimes.ParseCommaDate(text)
      case Err(e) => Err(e)
      case Ok(dt) => Ok(Date(dt))
    else Ok(Str(text))
  }

  /** The filter a literal condition adds, with the value as the error message shows it. */
  function LiteralStep(et: EntityType, field: string, text: string): (r: Result<(Filter, string)>)
    ensures r.Ok? ==> LiteralValue(field, text).Ok? && r.value.0 == Eq(field, LiteralValue(field, text).value)
  {
    match LiteralValue(field, text)
    case Err(e) => Err(e)
    case Ok(v) =>
      match EqualityFilter(et, field, v)
      case Err(e) => Err(e)
      case Ok(f) => Ok((f, Shown(v)))
  }

  function EqualityFilters(field: string, ids: seq<int>): (fs: seq<Filter>)
    ensures |fs| == |ids| && forall k :: 0 <= k < |ids| ==> fs[k] == Eq(field, Int(ids[k]))
  {
    if |ids| == 0 then [] else [Eq(field, Int(ids[0]))] + EqualityFilters(field, ids[1..])
  }

  /**
   * The filters the ids of a nested expression add on `field`: one equality
   * per id on a column.  In the current revision a collection that cannot be
   * compared is tested for containing the one matched record; more than one
   * record is passed to `contains` as extra arguments and fails.  A date
   * field fails, because the id is an int and has no `split`.
   */
  function NestedFilters(rev: Revision, et: EntityType, field: string, ids: seq<int>): (r: Result<seq<Filter>>)
    requires |ids| > 0
    ensures r.Ok? ==> !EndsWith(field, "date") && |r.value| == |ids|
    ensures r.Ok? && field in et.columns ==> r.value == EqualityFilters(field, ids)
    ensures r.Ok? && field !in et.columns ==> rev.Current? && Kind(et, field) == ToMany && |ids| == 1 && r.value == [Has(field, ids[0])]
  {
    if EndsWith(field, "date") then Err(AttributeError("split"))
    else
      match Kind(et, field)
      case ColumnAttr => Ok(EqualityFilters(field, ids))
      case NoAttr => Err(AttributeError(field))
      case ToMany =>
        if rev.Legacy? then Err(InvalidRequest("a collection cannot be compared with a value"))
        else if |ids| == 1 then Ok([Has(field, ids[0])])
        else Err(TypeError("contains() takes one record"))
      case ToOne => Err(InvalidRequest("a relationship cannot be compared with a value"))
  }

  /** The query built so far: its filters, and the last value and field, for the error message. */
  datatype Progress = Progress(filters: seq<Filter>, lastValue: string, lastField: string)

  const Start := Progress([], "", "")

  /** The text of the error raised when no record matches; other errors carry their own text. */
  function Message(err: Error): (r: string)
    ensures |r| > 0 <==> err.NotFound?
  {
    match err
    case NotFound(v, f, c) =>
      "No entry was found with a value of \"" + v + "\" on the \"" + f + "\" column of the \"" + c + "\" CATEGORY, in the database."
    case _ => ""
  }

  /** Running the query: the matching ids, or the error naming the last value, field and category. */
  function Finish(db: Tables, category: string, et: EntityType, p: Progress): (r: Result<seq<int>>)
    ensures r.Ok? ==> r.value == Select(RowsOf(db, et), p.filters) && |r.value| > 0
    ensures r.Err? ==> r.error == NotFound(p.lastValue, p.lastField, category) && Select(RowsOf(db, et), p.filters) == []
  {
    var ids := Select(RowsOf(db, et), p.filters);
    if ids == [] then Err(NotFound(p.lastValue, p.lastField, category)) else Ok(ids)
  }

  lemma JoinPartShorter(parts: seq<string>, sep: string, k: int)
    requires 0 <= k < |parts|
    ensures |parts[k]| <= |Join(parts, sep)|
  {
    if k > 0 {
      JoinPartShorter(parts[1..], sep, k - 1);
    }
  }

  lemma SplitPartsShorter(s: string, sep: string)
    requires |sep| > 0
    ensures forall k :: 0 <= k < |Split(s, sep)| ==> |Split(s, sep)[k]| <= |s|
  {
    forall k | 0 <= k < |Split(s, sep)|
      ensures |Split(s, sep)[k]| <= |s|
    {
      JoinPartShorter(Split(s, sep), sep, k);
    }
  }

  /** `get_related_ids` (current revision) and `get_related_id` (older revision) as a function of the database. */
  function ResolveIds(db: Tables, reg: Registry, rev: Revision, s: string): (r: Result<seq<int>>)
    ensures r.Ok? ==> |r.value| > 0
    ensures CategoryOf(s) !in reg ==> r == Err(KeyError(CategoryOf(s)))
    ensures CategoryOf(s) in reg && !Contains(s, ":") ==> r == Err(IndexError)
    decreases |s|, 1
  {
    var category := CategoryOf(s);
    if category !in reg then Err(KeyError(category))
    else if !Contains(s, ":") then Err(IndexError)
    else
      var rest := s[Find(s, ":") + 1..];
      SplitPartsShorter(rest, "&&");
      var conds := Split(rest, "&&");
      match CollectConds(db, reg, rev, |s|, reg[category].entity, conds, Start)
      case Err(e) => Err(e)
      case Ok(p) => Finish(db, category, reg[category].entity, p)
  }

  /** The conditions, left to right: each one resolved and turned into filters. */
  function CollectConds(db: Tables, reg: Registry, rev: Revision, budget: nat, et: EntityType, conds: seq<string>, p: Progress): Result<Progress>
    requires forall k :: 0 <= k < |conds| ==> |conds[k]| < budget
    decreases budget, 1, |conds|
  {
    if |conds| == 0 then Ok(p)
    else
      match ConditionStep(db, reg, rev, budget, et, conds[0], p)
      case Err(e) => Err(e)
      case Ok(p') => CollectConds(db, reg, rev, budget, et, conds[1..], p')
  }

  /**
   * One condition `field.value`: split on the first `.`, unescaped, then
   * resolved as a nested expression when it holds `:` and compared as a
   * literal otherwise.
   */
  function ConditionStep(db: Tables, reg: Registry, rev: Revision, budget: nat, et: EntityType, cond: string, p: Progress): (r: Result<Progress>)
    requires |cond| < budget
    ensures r.Ok? ==> |r.value.filters| >= |p.filters| && r.value.filters[..|p.filters|] == p.filters
    decreases budget, 0, 1
  {
    match SplitOnce(cond, ".")
    case Err(e) => Err(e)
    case Ok((field, raw)) =>
      assert field + "." + raw == cond;
      ValueStep(db, reg, rev, budget, et, field, Unescaped(rev, raw), p)
  }

  /** The unescaped value of a condition: a nested expression when it holds `:`, a literal otherwise. */
  function ValueStep(db: Tables, reg: Registry, rev: Revision, budget: nat, et: EntityType, field: string, value: string, p: Progress): (r: Result<Progress>)
    requires |value| < budget
    ensures r.Ok? ==> |r.value.filters| >= |p.filters| && r.value.filters[..|p.filters|] == p.filters
    decreases budget, 0, 0
  {
    if Contains(value, ":") then
      match ResolveIds(db, reg, rev, value)
      case Err(e) => Err(e)
      case Ok(ids) =>
        match NestedFilters(rev, et, field, ids)
        case Err(e) => Err(e)
        case Ok(fs) => Ok(Progress(p.filters + fs, IntToString(ids[|ids| - 1]), field))
    else
      match LiteralStep(et, field, value)
      case Err(e) => Err(e)
      case Ok((f, shown)) => Ok(Progress(p.filters + [f], shown, field))
  }

  /**
   * The resolver as a method: the query is rebuilt condition by condition
   * and the nested expressions are resolved by recursive calls.  It reads
   * the database and changes nothing.
   */
  method GetRelatedIds(db: Database, reg: Registry, rev: Revision, s: string) returns (r: Result<seq<int>>)
    ensures r == ResolveIds(db.tables, reg, rev, s)
    decreases |s|, 1
  {
    var category := CategoryOf(s);
    if category !in reg {
      return Err(KeyError(category));
    }
    if !Contains(s, ":") {
      return Err(IndexError);
    }
    var et := reg[category].entity;
    var rest := s[Find(s, ":") + 1..];
    SplitPartsShorter(rest, "&&");
    var conds := Split(rest, "&&");
    var p := Start;
    var i := 0;
    while i < |conds|
      invariant 0 <= i <= |conds|
      invariant CollectConds(db.tables, reg, rev, |s|, et, conds, Start) == CollectConds(db.tables, reg, rev, |s|, et, conds[i..], p)
    {
      assert conds[i..][0] == conds[i] && conds[i..][1..] == conds[i + 1..];
      var next := ResolveCondition(db, reg, rev, |s|, et, conds[i], p);
      if next.Err? {
        return Err(next.error);
      }
      p := next.value;
      i := i + 1;
    }
    r := Finish(db.tables, category, et, p);
  }

  /** One condition, as the loop body of the resolver handles it. */
  method ResolveCondition(db: Database, reg: Registry, rev: Revision, budget: nat, et: EntityType, cond: string, p: Progress)
    returns (r: Result<Progress>)
    requires |cond| < budget
    ensures r == ConditionStep(db.tables, reg, rev, budget, et, cond, p)
    decreases budget, 0, 2
  {
    var parts := SplitOnce(cond, ".");
    if parts.Err? {
      return Err(parts.error);
    }
    var field := parts.value.0;
    var value := parts.value.1;
    assert field + "." + value == cond;
    ghost var raw := value;
    if rev.Current? && (Contains(value, "&#&") || Contains(value, "&##&")) {
      value := Replace(value, "&#&", "&&");
      value := Replace(value, "&##&", "&#&");
    }
    assert value == Unescaped(rev, raw);
    r := ResolveValue(db, reg, rev, budget, et, field, value, p);
  }

  /** A nested expression is resolved by a recursive call, a literal compared as it is. */
  method ResolveValue(db: Database, reg: Registry, rev: Revision, budget: nat, et: EntityType, field: string, value: string, p: Progress)
    returns (r: Result<Progress>)
    requires |value| < budget
    ensures r == ValueStep(db.tables, reg, rev, budget, et, field, value, p)
    decreases budget, 0, 1
  {
    if Contains(value, ":") {
      r := ResolveNested(db, reg, rev, budget, et, field, value, p);
    } else {
      var step := LiteralStep(et, field, value);
      if step.Err? {
        return Err(step.error);
      }
      r := Ok(Progress(p.filters + [step.value.0], step.value.1, field));
    }
  }

  /** A nested expression: its ids are resolved by a recursive call and become filters on the field. */
  method ResolveNested(db: Database, reg: Registry, rev: Revision, budget: nat, et: EntityType, field: string, value: string, p: Progress)
    returns (r: Result<Progress>)
    requires |value| < budget && Contains(value, ":")
    ensures r == ValueStep(db.tables, reg, rev, budget, et, field, value, p)
    decreases budget, 0, 0
  {
    var nested := GetRelatedIds(db, reg, rev, value);
    if nested.Err? {
      return Err(nested.error);
    }
    var ids := nested.value;
    var fs := FiltersForIds(rev, et, field, ids);
    if fs.Err? {
      return Err(fs.error);
    }
    r := Ok(Progress(p.filters + fs.value, IntToString(ids[|ids| - 1]), field));
  }

  /** The loop over the ids of a nested expression, adding one filter per id. */
  method FiltersForIds(rev: Revision, et: EntityType, field: string, ids: seq<int>) returns (r: Result<seq<Filter>>)
    requires |ids| > 0
    ensures r == NestedFilters(rev, et, field, ids)
  {
    ghost var spec := NestedFilters(rev, et, field, ids);
    var fs: seq<Filter> := [];
    var j := 0;
    while j < |ids|
      invariant 0 <= j <= |ids|
      invariant j > 0 ==> spec.Ok?
      invariant spec.Ok? ==> |spec.value| == |ids| && fs == spec.value[..j]
    {
      if EndsWith(field, "date") {
        return Err(AttributeError("split"));
      }
      var kind := Kind(et, field);
      if kind == ColumnAttr {
        fs := fs + [Eq(field, Int(ids[j]))];
      } else if kind == NoAttr {
        return Err(AttributeError(field));
      } else if kind == ToMany && rev.Current? {
        if |ids| != 1 {
          return Err(TypeError("contains() takes one record"));
        }
        fs := fs + [Has(field, ids[0])];
      } else if kind == ToMany {
        return Err(InvalidRequest("a collection cannot be compared with a value"));
      } else {
        return Err(InvalidRequest("a relationship cannot be compared with a value"));
      }
      j := j + 1;
    }
    assert fs == spec.value;
    r := Ok(fs);
  }
}
