/**
 * Identifier expressions as trees, and what the resolver makes of them.
 *
 * An expression names a category and a list of conditions; a condition
 * compares a field with a literal or with the records a nested expression
 * selects.  Written out, the conditions of an expression at nesting depth k
 * are separated by the k-th separator: `&&` at the top, `&#&` one level
 * down and `&##&` two levels down.  The resolver splits the top level on
 * `&&` and unwraps one level of escapes in every value before resolving it
 * (`&#&` becomes `&&`, `&##&` becomes `&#&`), so the written form of a tree
 * of depth at most two is read back as the same tree: `RoundTrip` states that
 * resolving the text gives what evaluating the tree gives.
 */
module Expressions {
  import opened Wrappers
  import opened Text
  import opened Schema
  import opened Store
  import opened Resolution
  import Literals

  datatype Expr = Expr(category: string, conds: seq<Cond>)
  datatype Cond = Cond(field: string, value: Term)
  datatype Term = Lit(text: string) | Nested(expr: Expr)

  /** How many expressions are nested inside one another below `e`. */
  function Depth(e: Expr): nat
    decreases e
  {
    CondsDepth(e.conds)
  }

  function CondsDepth(cs: seq<Cond>): nat
    decreases cs
  {
    if |cs| == 0 then 0
    else
      var d := match cs[0].value case Lit(_) => 0 case Nested(inner) => 1 + Depth(inner);
      var rest := CondsDepth(cs[1..]);
      if d > rest then d else rest
  }

  /** A category or field name: none of the characters the syntax uses. */
  predicate NameOk(s: string)
  {
    forall i :: 0 <= i < |s| ==> s[i] != ':' && s[i] != '.' && s[i] != '&' && s[i] != '#'
  }

  /** A literal value: it may hold `.`, but no `:` and no character of a separator. */
  predicate TextOk(s: string)
  {
    forall i :: 0 <= i < |s| ==> s[i] != ':' && s[i] != '&' && s[i] != '#'
  }

  /** Every name and literal is plain and every expression has at least one condition. */
  predicate WellFormed(e: Expr)
    decreases e
  {
    NameOk(e.category) && |e.conds| > 0 && CondsOk(e.conds)
  }

  predicate CondsOk(cs: seq<Cond>)
    decreases cs
  {
    |cs| == 0 ||
    (NameOk(cs[0].field) &&
     (match cs[0].value case Lit(t) => TextOk(t) case Nested(inner) => WellFormed(inner)) &&
     CondsOk(cs[1..]))
  }

  /** The separators by nesting depth. */
  const Separators: seq<string> := ["&&", "&#&", "&##&"]

  /** The written form of `e`, its conditions separated by `seps[0]` and those nested k deep by `seps[k]`. */
  function Render(e: Expr, seps: seq<string>): string
    requires Depth(e) < |seps|
    decreases e
  {
    e.category + ":" + Join(RenderConds(e.conds, seps[1..]), seps[0])
  }

  /** A condition written out, as `field.value`. */
  function RenderCond(c: Cond, inner: seq<string>): string
    requires CondsDepth([c]) <= |inner|
    decreases c, 1
  {
    c.field + "." + RenderValue(c, inner)
  }

  /** The value of a condition written out: a literal as it is, a nested expression with the separators one level down. */
  function RenderValue(c: Cond, inner: seq<string>): string
    requires CondsDepth([c]) <= |inner|
    decreases c, 0
  {
    match c.value case Lit(t) => t case Nested(x) => Render(x, inner)
  }

  /** The conditions written out. */
  function RenderConds(cs: seq<Cond>, inner: seq<string>): (parts: seq<string>)
    requires CondsDepth(cs) <= |inner|
    ensures |parts| == |cs|
    decreases cs
  {
    if |cs| == 0 then []
    else
      assert CondsDepth([cs[0]]) <= CondsDepth(cs);
      [RenderCond(cs[0], inner)] + RenderConds(cs[1..], inner)
  }

  /**
   * The meaning of an expression tree: its category looked up, then the
   * conditions left to right, each adding the filters it stands for, then
   * the query run.  The steps are those of the resolver, applied to the tree
   * instead of to text.
   */
  function Eval(db: Tables, reg: Registry, rev: Revision, e: Expr): (r: Result<seq<int>>)
    ensures r.Ok? ==> |r.value| > 0
    decreases e
  {
    if e.category !in reg then Err(KeyError(e.category))
    else
      var et := reg[e.category].entity;
      match EvalConds(db, reg, rev, et, e.conds, Start)
      case Err(err) => Err(err)
      case Ok(p) => Finish(db, e.category, et, p)
  }

  function EvalConds(db: Tables, reg: Registry, rev: Revision, et: EntityType, cs: seq<Cond>, p: Progress): Result<Progress>
    decreases cs
  {
    if |cs| == 0 then Ok(p)
    else
      match EvalCond(db, reg, rev, et, cs[0], p)
      case Err(err) => Err(err)
      case Ok(p') => EvalConds(db, reg, rev, et, cs[1..], p')
  }

  /** One condition: a literal adds its equality, a nested expression the filters its ids stand for. */
  function EvalCond(db: Tables, reg: Registry, rev: Revision, et: EntityType, c: Cond, p: Progress): (r: Result<Progress>)
    ensures r.Ok? ==> |r.value.filters| > |p.filters| && r.value.filters[..|p.filters|] == p.filters && r.value.lastField == c.field
    decreases c
  {
    match c.value
    case Lit(t) =>
      (match LiteralStep(et, c.field, t)
       case Err(err) => Err(err)
       case Ok((f, shown)) => Ok(Progress(p.filters + [f], shown, c.field)))
    case Nested(x) =>
      (match Eval(db, reg, rev, x)
       case Err(err) => Err(err)
       case Ok(ids) =>
         match NestedFilters(rev, et, c.field, ids)
         case Err(err) => Err(err)
         case Ok(fs) => Ok(Progress(p.filters + fs, IntToString(ids[|ids| - 1]), c.field)))
  }

  // --- Facts about written expressions.

  /** Characters at both ends of a written expression or condition are not separator characters. */
  predicate Edged(p: string)
  {
    |p| > 0 && p[0] != '&' && p[0] != '#' && p[|p| - 1] != '&' && p[|p| - 1] != '#'
  }

  lemma {:induction false} RenderEdged(e: Expr, seps: seq<string>)
    requires WellFormed(e) && Depth(e) < |seps|
    ensures Edged(Render(e, seps))
    decreases e, 1
  {
    var parts := RenderConds(e.conds, seps[1..]);
    RenderCondsEdged(e.conds, seps[1..]);
    JoinEdges(parts, seps[0]);
    var j := Join(parts, seps[0]);
    var s := e.category + ":" + j;
    assert s[|s| - 1] == j[|j| - 1];
    if |e.category| > 0 {
      assert s[0] == e.category[0];
    }
  }

  lemma {:induction false} RenderCondsEdged(cs: seq<Cond>, inner: seq<string>)
    requires CondsOk(cs) && CondsDepth(cs) <= |inner|
    ensures forall k :: 0 <= k < |cs| ==> Edged(RenderConds(cs, inner)[k])
    decreases cs, 0
  {
    if |cs| > 0 {
      var parts := RenderConds(cs, inner);
      RenderCondsEdged(cs[1..], inner);
      assert parts[1..] == RenderConds(cs[1..], inner);
      assert CondsDepth([cs[0]]) <= CondsDepth(cs);
      var v := RenderValue(cs[0], inner);
      if cs[0].value.Nested? {
        RenderEdged(cs[0].value.expr, inner);
      }
      var p := cs[0].field + "." + v;
      assert parts == [RenderCond(cs[0], inner)] + RenderConds(cs[1..], inner);
      assert parts[0] == p;
      if |v| > 0 {
        assert p[|p| - 1] == v[|v| - 1];
      }
      if |cs[0].field| > 0 {
        assert p[0] == cs[0].field[0];
      }
    }
  }

  /** A target made of separator characters, starting with `&`. */
  predicate Marks(t: string)
  {
    |t| > 0 && t[0] == '&' && forall i :: 0 <= i < |t| ==> t[i] == '&' || t[i] == '#'
  }

  lemma EdgedOutside(p: string, t: string)
    requires Edged(p) && Marks(t)
    ensures EdgesOutside(p, t)
  {
  }

  /** Text without `&` holds no separator and is left alone by every replacement of one. */
  lemma PlainReplace(s: string, t: string, repl: string)
    requires Marks(t) && forall i :: 0 <= i < |s| ==> s[i] != '&'
    ensures Replace(s, t, repl) == s
  {
    AbsentChar(s, t, '&');
    ReplaceAbsent(s, t, repl);
  }

  /** Replacing a separator in a written expression replaces it in the list of separators. */
  lemma {:induction false} ReplaceRender(e: Expr, seps: seq<string>, t: string, repl: string)
    requires WellFormed(e) && Depth(e) < |seps| && Marks(t)
    ensures Replace(Render(e, seps), t, repl) == Render(e, ReplaceEach(seps, t, repl))
    decreases e, 1
  {
    var seps' := ReplaceEach(seps, t, repl);
    assert seps'[1..] == ReplaceEach(seps[1..], t, repl);
    var parts := RenderConds(e.conds, seps[1..]);
    var head := e.category + ":";
    var j := Join(parts, seps[0]);
    RenderCondsEdged(e.conds, seps[1..]);
    forall k | 0 <= k < |parts|
      ensures EdgesOutside(parts[k], t)
    {
      EdgedOutside(parts[k], t);
    }
    ReplaceConcat(head, j, t, repl);
    PlainReplace(head, t, repl);
    ReplaceJoin(parts, seps[0], t, repl);
    ReplaceRenderConds(e.conds, seps[1..], t, repl);
  }

  lemma {:induction false} ReplaceRenderConds(cs: seq<Cond>, inner: seq<string>, t: string, repl: string)
    requires CondsOk(cs) && CondsDepth(cs) <= |inner| && Marks(t)
    ensures ReplaceEach(RenderConds(cs, inner), t, repl) == RenderConds(cs, ReplaceEach(inner, t, repl))
    decreases cs, 0
  {
    if |cs| > 0 {
      var inner' := ReplaceEach(inner, t, repl);
      assert CondsDepth([cs[0]]) <= CondsDepth(cs);
      var v := RenderValue(cs[0], inner);
      var head := cs[0].field + ".";
      ReplaceConcat(head, v, t, repl);
      PlainReplace(head, t, repl);
      if cs[0].value.Nested? {
        ReplaceRender(cs[0].value.expr, inner, t, repl);
      } else {
        PlainReplace(v, t, repl);
      }
      var v' := RenderValue(cs[0], inner');
      assert Replace(v, t, repl) == v';
      ReplaceRenderConds(cs[1..], inner, t, repl);
      var parts := RenderConds(cs, inner);
      assert parts == [RenderCond(cs[0], inner)] + RenderConds(cs[1..], inner);
      assert parts == [head + v] + RenderConds(cs[1..], inner);
      assert RenderConds(cs, inner') == [RenderCond(cs[0], inner')] + RenderConds(cs[1..], inner');
      assert RenderConds(cs, inner') == [head + v'] + RenderConds(cs[1..], inner');
      assert ReplaceEach(parts, t, repl)[1..] == ReplaceEach(parts[1..], t, repl);
    }
  }

  // --- The separators, one level down.

  lemma SeparatorConstants()
    ensures Replace("&#&", "&#&", "&&") == "&&"
    ensures Replace("&##&", "&#&", "&&") == "&##&"
    ensures Replace("&&", "&##&", "&#&") == "&&"
    ensures Replace("&##&", "&##&", "&#&") == "&#&"
    ensures Replace("&#&", "&&", "") == "&#&"
    ensures Replace("&##&", "&&", "") == "&##&"
  {
    assert "&##&"[..3][2] != "&#&"[2];
    assert "&##&"[1..][..3][0] != "&#&"[0];
    assert "&#&"[..2][1] != "&&"[1];
    assert "&#&"[1..][..2][0] != "&&"[0];
    assert "&##&"[..2][1] != "&&"[1];
    assert "&##&"[1..][..2][0] != "&&"[0];
    assert "&##&"[1..][1..][..2][0] != "&&"[0];
  }

  /** Unwrapping the separators below the top gives the separators one level up. */
  lemma UnwrapSeparators(n: nat)
    requires 1 <= n <= |Separators|
    ensures ReplaceEach(ReplaceEach(Separators[1..n], "&#&", "&&"), "&##&", "&#&") == Separators[..n - 1]
  {
    SeparatorConstants();
  }

  /** The separators below the top hold no `&&`. */
  lemma LowerSeparatorsClean(n: nat)
    requires 1 <= n <= |Separators|
    ensures ReplaceEach(Separators[1..n], "&&", "") == Separators[1..n]
  {
    SeparatorConstants();
  }

  /** The escapes of a written expression one level down unwrap to the expression written one level up. */
  lemma UnwrapRender(e: Expr, n: nat)
    requires WellFormed(e) && 1 <= n <= |Separators| && Depth(e) < n - 1
    ensures Unescaped(Current, Render(e, Separators[1..n])) == Render(e, Separators[..n - 1])
  {
    var s := Render(e, Separators[1..n]);
    ReplaceRender(e, Separators[1..n], "&#&", "&&");
    ReplaceRender(e, ReplaceEach(Separators[1..n], "&#&", "&&"), "&##&", "&#&");
    UnwrapSeparators(n);
    UnescapeGuardRedundant(s);
  }

  /** The conditions written one level down hold no `&&`, so the top-level split keeps them whole. */
  lemma LowerPartsClean(cs: seq<Cond>, n: nat)
    requires CondsOk(cs) && 1 <= n <= |Separators| && CondsDepth(cs) <= n - 1
    ensures forall k :: 0 <= k < |cs| ==> CleanPart(RenderConds(cs, Separators[1..n])[k], "&&")
  {
    var parts := RenderConds(cs, Separators[1..n]);
    ReplaceRenderConds(cs, Separators[1..n], "&&", "");
    LowerSeparatorsClean(n);
    RenderCondsEdged(cs, Separators[1..n]);
    forall k | 0 <= k < |cs|
      ensures CleanPart(parts[k], "&&")
    {
      if Contains(parts[k], "&&") {
        ReplaceDrops(parts[k], "&&", "");
      }
    }
  }

  /** The category of a written expression is read back, and the text after its `:` is the joined conditions. */
  lemma CategoryOfRender(cat: string, rest: string)
    requires NameOk(cat)
    ensures Contains(cat + ":" + rest, ":")
    ensures CategoryOf(cat + ":" + rest) == cat
    ensures var s := cat + ":" + rest; s[Find(s, ":") + 1..] == rest
  {
    var s := cat + ":" + rest;
    assert CleanPart(cat, ":") by {
      assert forall i :: 0 <= i < |cat| ==> cat[i] != ':';
      AbsentChar(cat, ":", ':');
    }
    FindAfterCleanPart(cat, ":", rest);
    assert s[..|cat|] == cat;
    assert s[|cat| + 1..] == rest;
  }

  /** A condition `field.value` is split back into its field and value. */
  lemma SplitCondition(field: string, v: string)
    requires NameOk(field)
    ensures SplitOnce(field + "." + v, ".") == Ok((field, v))
  {
    var s := field + "." + v;
    assert CleanPart(field, ".") by {
      assert forall i :: 0 <= i < |field| ==> field[i] != '.';
      AbsentChar(field, ".", '.');
    }
    FindAfterCleanPart(field, ".", v);
    assert s[..|field|] == field;
    assert s[|field| + 1..] == v;
  }

  /** A literal holds no `:` and no escape, so it is compared as it is written. */
  lemma LiteralKept(t: string)
    requires TextOk(t)
    ensures !Contains(t, ":") && Unescaped(Current, t) == t
  {
    assert forall i :: 0 <= i < |t| ==> t[i] != ':';
    AbsentChar(t, ":", ':');
    PlainReplace(t, "&#&", "&&");
    PlainReplace(t, "&##&", "&#&");
    UnescapeGuardRedundant(t);
  }

  /**
   * Resolving the written form of a well-formed expression of depth at most
   * two gives exactly what evaluating the tree gives: the separators, the
   * escapes and the first-`.` split reproduce the tree's structure.
   */
  lemma {:induction false} RoundTrip(db: Tables, reg: Registry, e: Expr, n: nat)
    requires WellFormed(e) && 1 <= n <= |Separators| && Depth(e) < n
    ensures ResolveIds(db, reg, Current, Render(e, Separators[..n])) == Eval(db, reg, Current, e)
    decreases e, 1
  {
    var seps := Separators[..n];
    assert seps[1..] == Separators[1..n];
    var parts := RenderConds(e.conds, seps[1..]);
    var rest := Join(parts, "&&");
    var s := Render(e, seps);
    CategoryOfRender(e.category, rest);
    if e.category in reg {
      LowerPartsClean(e.conds, n);
      SplitJoin(parts, "&&");
      SplitPartsShorter(rest, "&&");
      var et := reg[e.category].entity;
      CondsRoundTrip(db, reg, |s|, et, e.conds, n, Start);
    }
  }

  lemma {:induction false} CondsRoundTrip(db: Tables, reg: Registry, budget: nat, et: EntityType, cs: seq<Cond>, n: nat, p: Progress)
    requires CondsOk(cs) && 1 <= n <= |Separators| && CondsDepth(cs) < n
    requires forall k :: 0 <= k < |cs| ==> |RenderConds(cs, Separators[1..n])[k]| < budget
    ensures CollectConds(db, reg, Current, budget, et, RenderConds(cs, Separators[1..n]), p)
            == EvalConds(db, reg, Current, et, cs, p)
    decreases cs, 0
  {
    if |cs| > 0 {
      var parts := RenderConds(cs, Separators[1..n]);
      assert parts[1..] == RenderConds(cs[1..], Separators[1..n]);
      assert CondsDepth([cs[0]]) <= CondsDepth(cs);
      assert |parts[0]| < budget;
      CondRoundTrip(db, reg, budget, et, cs[0], n, p);
      match EvalCond(db, reg, Current, et, cs[0], p) {
        case Err(_) =>
        case Ok(p') => CondsRoundTrip(db, reg, budget, et, cs[1..], n, p');
      }
    }
  }

  lemma {:induction false} CondRoundTrip(db: Tables, reg: Registry, budget: nat, et: EntityType, c: Cond, n: nat, p: Progress)
    requires CondsOk([c]) && 1 <= n <= |Separators| && CondsDepth([c]) < n
    requires |RenderCond(c, Separators[1..n])| < budget
    ensures ConditionStep(db, reg, Current, budget, et, RenderCond(c, Separators[1..n]), p)
            == EvalCond(db, reg, Current, et, c, p)
    decreases c, 1
  {
    match c.value {
      case Lit(t) =>
        SplitCondition(c.field, t);
        LiteralKept(t);
      case Nested(x) =>
        NestedRoundTrip(db, reg, budget, et, c, n, p);
    }
  }

  lemma {:induction false} NestedRoundTrip(db: Tables, reg: Registry, budget: nat, et: EntityType, c: Cond, n: nat, p: Progress)
    requires c.value.Nested? && CondsOk([c]) && 1 <= n <= |Separators| && CondsDepth([c]) < n
    requires |RenderCond(c, Separators[1..n])| < budget
    ensures ConditionStep(db, reg, Current, budget, et, RenderCond(c, Separators[1..n]), p)
            == EvalCond(db, reg, Current, et, c, p)
    decreases c, 0
  {
    NestedShape(c, n);
    RoundTrip(db, reg, c.value.expr, n - 1);
    NestedStepAgrees(db, reg, budget, et, c, n, p);
  }

  /** When the unwrapped nested text resolves as the nested expression evaluates, the condition's step is the evaluation's. */
  lemma NestedStepAgrees(db: Tables, reg: Registry, budget: nat, et: EntityType, c: Cond, n: nat, p: Progress)
    requires c.value.Nested? && CondsOk([c]) && 2 <= n <= |Separators| && CondsDepth([c]) < n
    requires |RenderCond(c, Separators[1..n])| < budget
    requires Depth(c.value.expr) < n - 1
    requires ResolveIds(db, reg, Current, Render(c.value.expr, Separators[..n - 1])) == Eval(db, reg, Current, c.value.expr)
    ensures ConditionStep(db, reg, Current, budget, et, RenderCond(c, Separators[1..n]), p)
            == EvalCond(db, reg, Current, et, c, p)
  {
    NestedConditionText(db, reg, budget, et, c, n, p);
    NestedSameStep(db, reg, budget, et, c, Render(c.value.expr, Separators[..n - 1]), p);
  }

  /** The expression nested in a condition is well formed and one level shallower. */
  lemma NestedShape(c: Cond, n: nat)
    requires c.value.Nested? && CondsOk([c]) && CondsDepth([c]) < n
    ensures WellFormed(c.value.expr) && 2 <= n && Depth(c.value.expr) < n - 1
  {
    assert [c][1..] == [];
  }

  /** A nested value that resolves as its expression evaluates takes the same step as the condition. */
  lemma NestedSameStep(db: Tables, reg: Registry, budget: nat, et: EntityType, c: Cond, w: string, p: Progress)
    requires c.value.Nested? && Contains(w, ":") && |w| < budget
    requires ResolveIds(db, reg, Current, w) == Eval(db, reg, Current, c.value.expr)
    ensures ValueStep(db, reg, Current, budget, et, c.field, w, p) == EvalCond(db, reg, Current, et, c, p)
  {
  }

  /** A nested condition read back: its field, and its value unwrapped one level, which holds a `:`. */
  lemma NestedConditionText(db: Tables, reg: Registry, budget: nat, et: EntityType, c: Cond, n: nat, p: Progress)
    requires c.value.Nested? && CondsOk([c]) && 1 <= n <= |Separators| && CondsDepth([c]) < n
    requires |RenderCond(c, Separators[1..n])| < budget
    ensures var w := Render(c.value.expr, Separators[..n - 1]);
            Contains(w, ":") && |w| < budget &&
            ConditionStep(db, reg, Current, budget, et, RenderCond(c, Separators[1..n]), p)
            == ValueStep(db, reg, Current, budget, et, c.field, w, p)
  {
    var x := c.value.expr;
    var v := Render(x, Separators[1..n]);
    var up := Separators[..n - 1];
    var w := Render(x, up);
    SplitCondition(c.field, v);
    UnwrapRender(x, n);
    CategoryOfRender(x.category, Join(RenderConds(x.conds, up[1..]), up[0]));
    assert RenderCond(c, Separators[1..n]) == c.field + "." + v;
  }

  // --- What evaluation promises.

  lemma {:induction false} EvalCondsAppend(db: Tables, reg: Registry, rev: Revision, et: EntityType, cs: seq<Cond>, c: Cond, p: Progress)
    ensures EvalConds(db, reg, rev, et, cs + [c], p)
            == match EvalConds(db, reg, rev, et, cs, p) case Err(err) => Err(err) case Ok(q) => EvalCond(db, reg, rev, et, c, q)
    decreases cs
  {
    if |cs| == 0 {
      assert cs + [c] == [c];
      assert [c][1..] == [];
    } else {
      assert (cs + [c])[0] == cs[0] && (cs + [c])[1..] == cs[1..] + [c];
      match EvalCond(db, reg, rev, et, cs[0], p) {
        case Err(_) =>
        case Ok(p') => EvalCondsAppend(db, reg, rev, et, cs[1..], c, p');
      }
    }
  }

  /**
   * The conditions are a conjunction: one more condition can only remove
   * records from the result, and when it leaves some, the expression
   * without it had found them too.
   */
  lemma AddingConditionNarrows(db: Tables, reg: Registry, rev: Revision, category: string, cs: seq<Cond>, c: Cond)
    requires Eval(db, reg, rev, Expr(category, cs + [c])).Ok?
    ensures Eval(db, reg, rev, Expr(category, cs)).Ok?
    ensures forall x :: x in Eval(db, reg, rev, Expr(category, cs + [c])).value ==> x in Eval(db, reg, rev, Expr(category, cs)).value
  {
    var et := reg[category].entity;
    EvalCondsAppend(db, reg, rev, et, cs, c, Start);
    var q := EvalConds(db, reg, rev, et, cs, Start).value;
    var q' := EvalCond(db, reg, rev, et, c, q).value;
    assert EvalConds(db, reg, rev, et, cs + [c], Start) == Ok(q');
    FinishNarrows(db, category, et, q, q');
  }

  /** Running a query whose filters extend another's finds a subset of its ids. */
  lemma FinishNarrows(db: Tables, category: string, et: EntityType, q: Progress, q': Progress)
    requires |q'.filters| >= |q.filters| && q'.filters[..|q.filters|] == q.filters
    requires Finish(db, category, et, q').Ok?
    ensures Finish(db, category, et, q).Ok?
    ensures forall x :: x in Finish(db, category, et, q').value ==> x in Finish(db, category, et, q).value
  {
    var more := q'.filters[|q.filters|..];
    assert q'.filters == q.filters + more;
    SelectNarrows(RowsOf(db, et), q.filters, more);
    var ids := Finish(db, category, et, q').value;
    assert ids[0] in Select(RowsOf(db, et), q.filters + more);
  }

  // --- The two queries of labbookdb/tests/test_query.py, against a database without external identifiers.

  const DatabaseCondition := Cond("database", Lit("ETH/AIC/cdb"))
  const IdentifierCondition := Cond("identifier", Lit("275511"))

  /** Both conditions on the external identifier: the inner `&&` escaped as `&#&`. */
  const BothInner := Expr("AnimalExternalIdentifier", [DatabaseCondition, IdentifierCondition])
  const BothOnIdentifier := Expr("Animal", [Cond("external_ids", Nested(BothInner))])

  /** The same text with a plain `&&`: the second condition lands on the animal. */
  const DatabaseOnly := Expr("AnimalExternalIdentifier", [DatabaseCondition])
  const SplitAcross := Expr("Animal", [Cond("external_ids", Nested(DatabaseOnly)), IdentifierCondition])

  lemma ScenarioShapes()
    ensures CondsOk([IdentifierCondition]) && CondsOk([DatabaseCondition])
    ensures CondsDepth([IdentifierCondition]) == 0 && CondsDepth([DatabaseCondition]) == 0
    ensures WellFormed(BothInner) && Depth(BothInner) == 0
    ensures WellFormed(DatabaseOnly) && Depth(DatabaseOnly) == 0
    ensures WellFormed(BothOnIdentifier) && Depth(BothOnIdentifier) == 1
    ensures WellFormed(SplitAcross) && Depth(SplitAcross) == 1
  {
    ScenarioLeaves();
    ScenarioInner();
    assert NameOk("Animal") && NameOk("external_ids");
    assert CondsOk([Cond("external_ids", Nested(BothInner))]);
    var c := Cond("external_ids", Nested(DatabaseOnly));
    assert [c, IdentifierCondition][1..] == [IdentifierCondition];
  }

  /** The two literal conditions of the scenario are plain and unnested. */
  lemma ScenarioLeaves()
    ensures CondsOk([IdentifierCondition]) && CondsOk([DatabaseCondition])
    ensures CondsDepth([IdentifierCondition]) == 0 && CondsDepth([DatabaseCondition]) == 0
  {
    assert NameOk("database") && NameOk("identifier") && TextOk("ETH/AIC/cdb") && TextOk("275511");
    assert [IdentifierCondition][1..] == [] && [DatabaseCondition][1..] == [];
  }

  /** The two expressions on the external identifier are well formed and unnested. */
  lemma ScenarioInner()
    requires CondsOk([IdentifierCondition]) && CondsOk([DatabaseCondition])
    requires CondsDepth([IdentifierCondition]) == 0 && CondsDepth([DatabaseCondition]) == 0
    ensures WellFormed(BothInner) && Depth(BothInner) == 0
    ensures WellFormed(DatabaseOnly) && Depth(DatabaseOnly) == 0
  {
    assert NameOk("AnimalExternalIdentifier");
    assert [DatabaseCondition, IdentifierCondition][1..] == [IdentifierCondition];
  }

  lemma RenderEscapedScenario()
    ensures Depth(BothOnIdentifier) < 2
    ensures Render(BothOnIdentifier, Separators[..2])
            == "Animal:external_ids.AnimalExternalIdentifier:database.ETH/AIC/cdb&#&identifier.275511"
  {
    ScenarioShapes();
    ScenarioConditions();
    var parts := RenderConds(BothInner.conds, []);
    assert [DatabaseCondition, IdentifierCondition][1..] == [IdentifierCondition];
    assert parts == ["database.ETH/AIC/cdb", "identifier.275511"];
    assert parts[1..] == ["identifier.275511"];
    var j := Join(parts, "&#&");
    assert Join(parts[1..], "&#&") == "identifier.275511";
    assert j == "database.ETH/AIC/cdb" + "&#&" + "identifier.275511";
    var x := Render(BothInner, ["&#&"]);
    assert ["&#&"][1..] == [];
    assert x == "AnimalExternalIdentifier" + ":" + j;
    var c := Cond("external_ids", Nested(BothInner));
    assert Separators[..2][1..] == ["&#&"];
    assert RenderCond(c, ["&#&"]) == "external_ids" + "." + x;
    assert [c][1..] == [];
    assert RenderConds([c], ["&#&"]) == ["external_ids" + "." + x];
    assert BothOnIdentifier.conds == [c];
    assert Join(["external_ids" + "." + x], "&&") == "external_ids" + "." + x;
    var r := Render(BothOnIdentifier, Separators[..2]);
    assert r == "Animal" + ":" + ("external_ids" + "." + x);
    assert r == "Animal" + ":" + ("external_ids" + "." + ("AnimalExternalIdentifier" + ":" + ("database.ETH/AIC/cdb" + "&#&" + "identifier.275511")));
    Literals.EscapedQuery();
  }

  lemma RenderPlainScenario()
    ensures Depth(SplitAcross) < 2
    ensures Render(SplitAcross, Separators[..2])
            == "Animal:external_ids.AnimalExternalIdentifier:database.ETH/AIC/cdb&&identifier.275511"
  {
    ScenarioShapes();
    ScenarioConditions();
    var x := Render(DatabaseOnly, ["&#&"]);
    assert ["&#&"][1..] == [];
    assert x == "AnimalExternalIdentifier" + ":" + "database.ETH/AIC/cdb";
    var c := Cond("external_ids", Nested(DatabaseOnly));
    assert Separators[..2][1..] == ["&#&"];
    assert [c, IdentifierCondition][1..] == [IdentifierCondition];
    var parts := RenderConds([c, IdentifierCondition], ["&#&"]);
    assert RenderCond(c, ["&#&"]) == "external_ids" + "." + x;
    assert RenderConds([IdentifierCondition], ["&#&"]) == ["identifier.275511"] by {
      assert [IdentifierCondition][1..] == [];
    }
    assert parts == ["external_ids" + "." + x, "identifier.275511"];
    assert parts[1..] == ["identifier.275511"];
    assert SplitAcross.conds == [c, IdentifierCondition];
    assert Join(parts[1..], "&&") == "identifier.275511";
    var r := Render(SplitAcross, Separators[..2]);
    assert r == "Animal" + ":" + ("external_ids" + "." + x + "&&" + "identifier.275511");
    Literals.PlainQuery();
  }

  lemma ScenarioConditions()
    ensures RenderCond(DatabaseCondition, []) == "database.ETH/AIC/cdb"
    ensures RenderCond(IdentifierCondition, []) == "identifier.275511"
    ensures RenderCond(IdentifierCondition, ["&#&"]) == "identifier.275511"
    ensures RenderConds([IdentifierCondition], []) == ["identifier.275511"]
    ensures RenderConds([DatabaseCondition], []) == ["database.ETH/AIC/cdb"]
  {
    assert [IdentifierCondition][1..] == [] && [DatabaseCondition][1..] == [];
  }

  /** The two literal conditions on an external identifier, each one equality. */
  lemma ScenarioSteps()
    ensures LiteralStep(AnimalExternalIdentifierCurrent, "database", "ETH/AIC/cdb")
            == Ok((Eq("database", Str("ETH/AIC/cdb")), "ETH/AIC/cdb"))
    ensures LiteralStep(AnimalExternalIdentifierCurrent, "identifier", "275511")
            == Ok((Eq("identifier", Str("275511")), "275511"))
  {
    assert "database"[4..][0] != "date"[0];
    assert "identifier"[6..][0] != "date"[0];
    assert AnimalExternalIdentifierCurrent.columns[1] == "database";
    assert AnimalExternalIdentifierCurrent.columns[2] == "identifier";
  }

  lemma EvalEscapedScenario(db: Tables)
    requires RowsOf(db, AnimalExternalIdentifierCurrent) == []
    ensures Eval(db, CurrentRegistry, Current, BothOnIdentifier) == Err(NotFound("275511", "identifier", "AnimalExternalIdentifier"))
  {
    var et := AnimalExternalIdentifierCurrent;
    var inner := BothInner;
    ScenarioSteps();
    var p1 := Progress([Eq("database", Str("ETH/AIC/cdb"))], "ETH/AIC/cdb", "database");
    var p2 := Progress(p1.filters + [Eq("identifier", Str("275511"))], "275511", "identifier");
    assert EvalCond(db, CurrentRegistry, Current, et, DatabaseCondition, Start) == Ok(p1);
    assert EvalCond(db, CurrentRegistry, Current, et, IdentifierCondition, p1) == Ok(p2);
    assert inner.conds == [DatabaseCondition, IdentifierCondition];
    assert inner.conds[1..] == [IdentifierCondition];
    assert [IdentifierCondition][1..] == [];
    assert EvalConds(db, CurrentRegistry, Current, et, [IdentifierCondition], p1) == Ok(p2);
    assert EvalConds(db, CurrentRegistry, Current, et, inner.conds, Start) == Ok(p2);
    var e := NotFound("275511", "identifier", "AnimalExternalIdentifier");
    assert Eval(db, CurrentRegistry, Current, inner) == Err(e);
    var c := Cond("external_ids", Nested(inner));
    assert BothOnIdentifier.conds == [c];
    assert EvalCond(db, CurrentRegistry, Current, AnimalCurrent, c, Start) == Err(e);
    assert EvalConds(db, CurrentRegistry, Current, AnimalCurrent, [c], Start) == Err(e);
  }

  lemma EvalPlainScenario(db: Tables)
    requires RowsOf(db, AnimalExternalIdentifierCurrent) == []
    ensures Eval(db, CurrentRegistry, Current, SplitAcross) == Err(NotFound("ETH/AIC/cdb", "database", "AnimalExternalIdentifier"))
  {
    var et := AnimalExternalIdentifierCurrent;
    var lone := DatabaseOnly;
    ScenarioSteps();
    var p1 := Progress([Eq("database", Str("ETH/AIC/cdb"))], "ETH/AIC/cdb", "database");
    assert EvalCond(db, CurrentRegistry, Current, et, DatabaseCondition, Start) == Ok(p1);
    assert lone.conds == [DatabaseCondition];
    assert [DatabaseCondition][1..] == [];
    assert EvalConds(db, CurrentRegistry, Current, et, lone.conds, Start) == Ok(p1);
    var e := NotFound("ETH/AIC/cdb", "database", "AnimalExternalIdentifier");
    assert Eval(db, CurrentRegistry, Current, lone) == Err(e);
    var c := Cond("external_ids", Nested(lone));
    assert SplitAcross.conds == [c, IdentifierCondition];
    assert EvalCond(db, CurrentRegistry, Current, AnimalCurrent, c, Start) == Err(e);
    assert EvalConds(db, CurrentRegistry, Current, AnimalCurrent, SplitAcross.conds, Start) == Err(e);
  }

  /**
   * With `&#&` both conditions apply to the external identifier, and the
   * error names the last of them; with a plain `&&` the second condition is
   * split off to the animal and the nested query fails on the first.
   */
  lemma SeparatorScenarios(db: Tables)
    requires RowsOf(db, AnimalExternalIdentifierCurrent) == []
    ensures ResolveIds(db, CurrentRegistry, Current, "Animal:external_ids.AnimalExternalIdentifier:database.ETH/AIC/cdb&#&identifier.275511")
            == Err(NotFound("275511", "identifier", "AnimalExternalIdentifier"))
    ensures ResolveIds(db, CurrentRegistry, Current, "Animal:external_ids.AnimalExternalIdentifier:database.ETH/AIC/cdb&&identifier.275511")
            == Err(NotFound("ETH/AIC/cdb", "database", "AnimalExternalIdentifier"))
  {
    ScenarioShapes();
    RenderEscapedScenario();
    RoundTrip(db, CurrentRegistry, BothOnIdentifier, 2);
    EvalEscapedScenario(db);
    RenderPlainScenario();
    RoundTrip(db, CurrentRegistry, SplitAcross, 2);
    EvalPlainScenario(db);
  }
}
