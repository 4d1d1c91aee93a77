# LabbookDB: record resolution, construction and reporting rules

LabbookDB keeps a laboratory's animals, cages, treatments, measurements
and protocols in an SQLite database. Records are located and linked
through *identifier expressions*:

    Category:field.value&&field.value

A value that contains `:` is itself an expression. It is resolved first,
and its ids become filters on the field.

This project models the part of the system that turns those expressions
and parameter dictionaries into database effects. It covers:

- **Resolution.** The resolver `get_related_ids` (`Resolution`), in both
  revisions:
  - the current one in `labbookdb/db/add.py`, with one level of escaped
    separators (`&#&`, `&##&`) and the membership fallback for
    collections;
  - the older `get_related_id` in `db/add.py` and
    `labbookdb/db/query.py`.

  The resolver is a function of the database, a method that rebuilds
  the query condition by condition, and a round trip from a structured
  expression through its rendering (`Expressions`).
- **The store.** Selection by chained filters, `add_to_db`, and
  `commit_and_close` with uniqueness violations answered by a warning
  (`Store`).
- **Record creation.** `add_generic` (`Construction`):
  - `CATEGORY` lookup and pop;
  - sorted keys in the current revision, dictionary order in the older
    one;
  - date parsing;
  - `_id` keys resolved to the last matching id;
  - lists of nested dictionaries and expressions becoming related
    records;
  - e-mail validation;
  - the final insert.
- **Editing a record.** `append_parameter` (`Appending`): the record is
  located by an expression and edited key by key, and related records
  are appended to collections.
- **Duplicate check.** `double_entry` (`Conflicts`).
- **Queries.** `get_df` (`Queries`): column specifications with aliased
  classes, join specifications and filter lists with in-place date
  conversion. It is modelled as a `QueryCompiler` class over a registry
  that it extends, with the filters in an array.
- **Display.** The display strings of the mapped classes and `dt_format`
  (`Classes`, `DbUtils`), and `arange_by_date`.
- **Reporting helpers.**
  - `further_cages` and `treatment_onsets` (`Tracking`);
  - `next_cages_info` (`CageNumbers`);
  - the `save_as` and `save_df` path rules (`Paths`);
  - `rounded_days` (`Processing`);
  - `concurrent_cagetreatment` (`Concurrency`);
  - the interval tables and `"a to b"` period parsing of `forced_swim`
    (`Behaviour`).

The database is a map from table name to the sequence of its rows (`Store.Tables`).
A row is a map from attribute name to value. The mapped classes are `Schema.EntityType`
values, looked up through a registry that stands for `allowed_classes`
(see "Left out" on the name `ALLOWED_CLASSES`).
Python exceptions are `Err` values of `Wrappers.Error`: `KeyError`,
`IndexError`, `AttributeError`, `TypeError`, `ValueError`, `NameError` and
the resolver's "No entry was found" exception.

## Model

| member | source | states |
|---|---|---|
| Resolution.CategoryOf | labbookdb/db/add.py:80 | the category holds no `:`, is followed by `:` and the rest of the expression when there is one, and is the whole text otherwise |
| Resolution.Unwrap | labbookdb/db/add.py:87-89 | unwrapping the escaped separators never lengthens a value |
| Resolution.Unescaped | labbookdb/db/add.py:87-89 | the value a condition is matched with is never longer than the raw value, in either revision |
| Resolution.UnescapeGuardRedundant | labbookdb/db/add.py:87-89 | the `"&#&" in value or "&##&" in value` guard changes nothing: unwrapping unconditionally gives the same value |
| Resolution.EqualityFilter | labbookdb/db/add.py:104 | `getattr(cls, field) == value` succeeds exactly when the field is a column, yields that equality, and raises AttributeError for an unknown attribute |
| Resolution.LiteralValue | labbookdb/db/add.py:102-103 | a field not ending in `date` is compared with the text as it is; a `date` field's value is a valid datetime parsed from the comma-separated integers |
| Resolution.LiteralStep | labbookdb/db/add.py:101-104 | a literal condition adds the equality filter on the converted value |
| Resolution.EqualityFilters | labbookdb/db/add.py:92-98 | a nested expression's ids become one equality filter per id, in order |
| Resolution.NestedFilters | labbookdb/db/add.py:90-100 | a nested expression succeeds only on a field not ending in `date`; on a column it gives the equality filters; otherwise only the current revision's `contains` fallback applies, on a to-many relationship with one id |
| Resolution.FiltersForIds | labbookdb/db/add.py:90-100 | the loop over the nested ids computes exactly the nested filters |
| Resolution.Finish | labbookdb/db/add.py:105-112 | the result is the nonempty list of ids selected by the chained filters; an empty selection is the "No entry was found" error naming the last value, field and category |
| Resolution.Message | labbookdb/db/add.py:111-112 | a message is produced exactly for the "No entry was found" error |
| Resolution.ResolveIds | labbookdb/db/add.py:79-115 | a successful resolution returns at least one id; an unknown category is a KeyError; an expression without `:` is an IndexError |
| Resolution.ConditionStep | labbookdb/db/add.py:82-89 | each condition only adds filters to those already chained |
| Resolution.ValueStep | labbookdb/db/add.py:90-104 | a nested or literal value only adds filters to those already chained |
| Resolution.GetRelatedIds | labbookdb/db/add.py:79-115 | the method that rebuilds the query computes exactly the resolver's result and leaves the database unchanged |
| Resolution.ResolveCondition | labbookdb/db/add.py:82-89 | the method for one condition computes exactly `ConditionStep` |
| Resolution.ResolveValue | labbookdb/db/add.py:90-104 | the method for one value computes exactly `ValueStep` |
| Resolution.ResolveNested | labbookdb/db/add.py:90-100 | the nested-expression branch as a method, resolving the nested ids by a recursive call, computes exactly `ValueStep` |
| Expressions.RoundTrip | labbookdb/db/add.py:79-104 | for every well-formed expression nested less deeply than the available separator levels, resolving its rendering gives its evaluation: the escaping of `&&` per level is undone exactly |
| Expressions.CondsRoundTrip | labbookdb/db/add.py:82-104 | resolving the rendered conditions gives the same result as evaluating the conditions themselves |
| Expressions.CondRoundTrip | labbookdb/db/add.py:83-104 | resolving one rendered condition gives the same result as evaluating the condition |
| Expressions.UnwrapRender | labbookdb/db/add.py:87-89 | unwrapping a rendered nested expression yields its rendering one level down |
| Expressions.ReplaceRender | labbookdb/db/add.py:88-89 | replacing a separator mark in a rendering gives the rendering with that mark replaced in every separator |
| Expressions.CategoryOfRender | labbookdb/db/add.py:80 | the category of a rendering is the expression's category |
| Expressions.SplitCondition | labbookdb/db/add.py:83 | a rendered condition splits on its first `.` into its field and its rendered value |
| Expressions.LiteralKept | labbookdb/db/add.py:87-89 | a literal value without separators passes unwrapping unchanged |
| Expressions.EvalCondsAppend | labbookdb/db/add.py:82-104 | evaluating conditions one after another chains their filters |
| Expressions.AddingConditionNarrows | labbookdb/db/add.py:82-104 | adding a condition to an expression can only remove ids from its result |
| Expressions.ScenarioShapes | labbookdb/tests/test_query.py:3-10 | the two expressions of the separator test are well formed and nested within the available levels |
| Expressions.RenderEscapedScenario | labbookdb/tests/test_query.py:6 | the nested-identifier expression renders as the test's `&#&` string |
| Expressions.RenderPlainScenario | labbookdb/tests/test_query.py:9 | the two-condition expression renders as the test's `&&` string |
| Expressions.ScenarioConditions | labbookdb/tests/test_query.py:3-10 | the test's conditions render as `database.ETH/AIC/cdb` and `identifier.275511`, unchanged by one level of escaping |
| Expressions.ScenarioSteps | labbookdb/tests/test_query.py:3-10 | each test condition is a plain equality filter on a column of the identifier class |
| Expressions.EvalEscapedScenario | labbookdb/tests/test_query.py:6-7 | on a database without a matching identifier, the `&#&` form fails naming value `275511`, field `identifier` and category `AnimalExternalIdentifier`: both conditions reach the nested class |
| Expressions.EvalPlainScenario | labbookdb/tests/test_query.py:9-10 | on a database without identifier records, the `&&` form fails naming `ETH/AIC/cdb`, `database` and `AnimalExternalIdentifier`: the nested query carries only the `database` condition, and that matches nothing |
| Expressions.SeparatorScenarios | labbookdb/tests/test_query.py:3-10 | the resolver gives these two different outcomes for the two literal test strings |
| Literals.EscapedQuery | labbookdb/tests/test_query.py:6 | the rendered pieces of the escaped expression concatenate to the literal test string |
| Literals.PlainQuery | labbookdb/tests/test_query.py:9 | the rendered pieces of the plain expression concatenate to the literal test string |
| Store.Select | labbookdb/db/add.py:104-110 | an id is returned exactly when some record of the table passes every chained filter and has that id |
| Store.SelectNarrows | labbookdb/db/add.py:82-104 | chaining more filters can only remove ids |
| Store.NextId | labbookdb/db/add.py:60-65 | a new record's id is positive and above every id in its table |
| Store.WithDefaults | db/common_classes.py:106 | insert defaults keep every given value and only add columns that have a default |
| Store.Completed | labbookdb/db/add.py:60-65 | the stored record always has an integer id |
| Store.SubstanceLongName | db/common_classes.py:106 | a Substance stored without a `long_name` gets its `name` as long name; a given long name is kept |
| Store.InsertOutcome | labbookdb/db/add.py:60-66 | `add_to_db` gives no id exactly when the record clashes on a unique column, and then leaves the database as it was; otherwise the completed record is appended and the other tables are unchanged |
| Store.Insert | labbookdb/db/add.py:42-66 | no contract of its own: `add_to_db` on the table value; `InsertOutcome` and `InsertExtends` state its outcome |
| Store.Clashes | labbookdb/db/add.py:60-63 | no contract of its own: the IntegrityError condition, a shared value on a unique column; `InsertOutcome` states that it decides the rollback |
| Store.InsertExtends | labbookdb/db/add.py:60-66 | inserting only appends records |
| Store.ExtendsTransitive | labbookdb/db/add.py:60-66 | append-only growth composes over successive commits |
| Store.IndexOf | labbookdb/db/add.py:141 | the first record with the id, or none when no record has it |
| Store.Commit | labbookdb/db/add.py:258-261 | the edit is stored exactly when it clashes with no other record on a unique column; a clash rolls back to the old tables; table sizes never change |
| Store.Database.AddToDb | labbookdb/db/add.py:42-66 | the database method inserts and commits exactly as `Insert` |
| Store.Database.CommitEdit | labbookdb/db/add.py:246-263 | the database method commits an edit exactly as `Commit` |
| Schema.RelationKind | labbookdb/db/add.py:97-100 | a name is a relationship exactly when the class declares it |
| Schema.Kind | labbookdb/db/add.py:98-104 | `getattr` finds a column exactly for the class's columns and nothing exactly when the name is neither a column nor a relationship |
| Construction.Update | labbookdb/db/add.py:210 | writing a key back keeps the set and order of keys and stores the new value |
| Construction.Without | labbookdb/db/add.py:205 | `pop("CATEGORY")` removes the key, keeps the other keys and shrinks the dictionary |
| Construction.CategoryClass | labbookdb/db/add.py:200 | the class is found exactly for a registered category name; an unregistered one is a KeyError |
| Construction.KeyOrder | labbookdb/db/add.py:208 | keys are visited as a permutation of the dictionary's keys: sorted in the current revision, in dictionary order in the older one |
| Construction.DateStep | labbookdb/db/add.py:209-210 | a `date` key's value is replaced by the parsed datetime, a non-string fails `split`, other keys are left alone |
| Construction.SetAttr | labbookdb/db/base_classes.py:51-54 | `setattr` stores the value, except that a validated e-mail column rejects a value without `@` |
| Construction.SetEach | labbookdb/db/add.py:216-219 | setting the attribute once per id leaves the last id |
| Construction.IdStep | labbookdb/db/add.py:211-219 | resolving an `_id` key never changes the dictionary |
| Construction.AssignIds | labbookdb/db/add.py:211-219 | the `_id` loop as a method computes exactly `IdStep` |
| Construction.Persisted | labbookdb/db/add.py:240 | only mapped attributes reach the insert, with their values |
| Construction.SetKeys | labbookdb/db/add.py:208-238 | assigning every key keeps the dictionary's keys and never grows it |
| Construction.SetKey | labbookdb/db/add.py:208-238 | assigning one key keeps the dictionary's keys and never grows it |
| Construction.Assign | labbookdb/db/add.py:211-238 | assigning a value leaves the dictionary unchanged |
| Construction.ItemEntry | labbookdb/db/add.py:223-232 | a dictionary or an expression contributes a related record, anything else contributes nothing; only a dictionary changes the database |
| Construction.AddGeneric | labbookdb/db/add.py:170-244 | the method computes exactly the state and result of `Create` |
| Construction.Create | labbookdb/db/add.py:170-244 | no contract of its own: `add_generic` on the table value; `CreateExtends`, `IdLastWins`, `FirstIdsMeaning` and `OnlyCategory` state its properties, and `AddGeneric` is proved equal to it |
| Construction.AssignKeys | labbookdb/db/add.py:208-238 | the key loop as a method computes exactly `SetKeys` |
| Construction.AssignKey | labbookdb/db/add.py:209-238 | one iteration as a method computes exactly `SetKey` |
| Construction.RelatedEntries | labbookdb/db/add.py:221-235 | the list loop as a method computes exactly `Related` |
| Construction.Related | labbookdb/db/add.py:221-235 | no contract of its own: the list loop of `add_generic`, one entry per dictionary or expression after those collected, stopping at the first error; `RelatedOnePerItem`, `RelatedExpressions` and `RelatedExtends` state its properties |
| Construction.AddEntry | labbookdb/db/add.py:223-232 | one list item as a method computes exactly `ItemEntry` |
| Construction.CreateExtends | labbookdb/db/add.py:170-244 | `add_generic`, nested creations included, only appends records |
| Construction.SetKeysExtends | labbookdb/db/add.py:208-238 | the key loop only appends records |
| Construction.SetKeyExtends | labbookdb/db/add.py:208-238 | one key only appends records |
| Construction.AssignExtends | labbookdb/db/add.py:211-238 | one assignment only appends records |
| Construction.RelatedExtends | labbookdb/db/add.py:221-235 | building the related list only appends records |
| Construction.ItemEntryExtends | labbookdb/db/add.py:223-232 | one list item only appends records |
| Construction.SetKeyAssigns | labbookdb/db/add.py:209-238 | a key is first date-converted, written back and then assigned, or the conversion's error is the result |
| Construction.RelatedOnePerItem | labbookdb/db/add.py:221-235 | the related list has one entry per dictionary or expression item |
| Construction.FirstIds | labbookdb/db/add.py:227-232 | taking `[0][0]` of each expression gives one id per expression |
| Construction.FirstIdsMeaning | labbookdb/db/add.py:227-232 | the first ids exist exactly when every expression resolves, and each is the first id its expression resolves to |
| Construction.RelatedExpressions | labbookdb/db/add.py:221-232 | a list of expressions becomes the list of their first ids, or the first resolution error, with the database unchanged |
| Construction.IdLastWins | labbookdb/db/add.py:211-219 | an `_id` expression sets the attribute to the last id it resolves to |
| Construction.StaleInputValues | labbookdb/db/add.py:212-216 | a caught ValueError leaves `input_values` unbound on the first `_id` key and reuses the previous key's ids afterwards |
| Construction.IntIdByRevision | labbookdb/db/add.py:211 | an integer under an `_id` key is taken as the id by the current revision and fails to `split` in the older one |
| Construction.DateKey | labbookdb/db/add.py:209-210 | a parsed date is both assigned and written back into the dictionary |
| Construction.AssignScalar | labbookdb/db/add.py:236-238 | a plain value is assigned as it is |
| Construction.DateKeyFails | labbookdb/db/add.py:209-210 | a date that does not parse fails the call with the parser's error |
| Construction.OnlyCategory | labbookdb/db/add.py:201-207 | a dictionary with only `CATEGORY` still inserts a record with just the defaults |
| Construction.CreateNotRepeatable | labbookdb/db/add.py:205 | the popped dictionary cannot be passed to `add_generic` again: the second call is a KeyError on `CATEGORY` |
| Appending.Target | labbookdb/db/add.py:139-141 | the record to edit is located through the current resolver, in the class of the expression's category; resolution errors propagate |
| Appending.Collection | labbookdb/db/add.py:157 | `getattr` on the record gives its collection, nothing for a scalar, and AttributeError exactly for an unknown attribute |
| Appending.AppendItem | labbookdb/db/add.py:158-167 | a dictionary adds one new record, an expression its ids, anything else nothing; only a dictionary changes the database |
| Appending.AppendItems | labbookdb/db/add.py:158-167 | appending keeps the existing collection as a prefix |
| Appending.AppendKey | labbookdb/db/add.py:143-167 | an integer value raises the `in` TypeError, an expression with `:` and `.` hits the unbound `i`, a plain string is set; only that key changes |
| Appending.AppendKeys | labbookdb/db/add.py:143-167 | editing keeps every attribute that no key names |
| Appending.AppendParameter | labbookdb/db/add.py:117-168 | the method computes exactly the state and result of `Append` |
| Appending.Append | labbookdb/db/add.py:117-168 | no contract of its own: `append_parameter` on the table value; `AppendEditsOneRecord` states its effect, and `AppendParameter` is proved equal to it |
| Appending.EditKeys | labbookdb/db/add.py:143-167 | the key loop as a method computes exactly `AppendKeys` |
| Appending.EditKey | labbookdb/db/add.py:144-167 | one key as a method computes exactly `AppendKey` |
| Appending.AppendEntries | labbookdb/db/add.py:158-167 | the list loop as a method computes exactly `AppendItems` |
| Appending.AppendEntry | labbookdb/db/add.py:159-167 | one list item as a method computes exactly `AppendItem` |
| Appending.AppendEach | labbookdb/db/add.py:165-167 | appending ids one by one gives the collection followed by the ids |
| Appending.AllIds | labbookdb/db/add.py:162-167 | every expression contributes at least one id |
| Appending.AppendExpressions | labbookdb/db/add.py:162-167 | a list of expressions appends all their ids in order, or fails with the first resolution error, leaving the database unchanged |
| Appending.FirstIdsAmongAll | labbookdb/db/add.py:227-232 | `add_generic`'s first ids exist exactly when `append_parameter`'s ids do, and each is among them |
| Appending.AppendItemExtends | labbookdb/db/add.py:158-167 | one list item only appends records |
| Appending.AppendItemsExtends | labbookdb/db/add.py:158-167 | the list loop only appends records |
| Appending.AppendKeysExtends | labbookdb/db/add.py:143-167 | the key loop only appends records |
| Appending.AppendEditsOneRecord | labbookdb/db/add.py:117-168 | `append_parameter` only appends records apart from the one edited; a rolled-back commit leaves that record as it was; a stored one keeps its attributes that no key names |
| Conflicts.DoubleEntry | db/add.py:176-185 | an unknown field is an AttributeError; the answer is "no conflict" exactly when the field is a column and no Animal matches the value |
| Conflicts.SatisfiesEquality | db/add.py:178 | the conflict query's single filter holds exactly when the record's field matches the value |
| Conflicts.DoubleEntryMeaning | db/add.py:178-183 | a conflict is reported exactly when some Animal's field matches a text value; on a column, only a non-text value fails the message concatenation |
| Conflicts.InsertedIsDoubleEntry | db/add.py:176-183 | after an Animal is inserted, checking one of its text fields reports a conflict |
| Queries.Labelled | labbookdb/db/query.py:115-117 | one column per attribute, labelled `class_attribute` |
| Queries.AllColumns | labbookdb/db/query.py:106-117 | an unknown class is a KeyError; otherwise one labelled column per mapped column |
| Queries.Attribute | labbookdb/db/query.py:175 | a two-element column exists exactly for a known class's attribute, carries the given label, and is an AttributeError otherwise |
| Queries.ColumnStep | labbookdb/db/query.py:170-182 | only a three-element specification changes the registry, by adding the aliased class under `first_second` |
| Queries.ColumnsRegistry | labbookdb/db/query.py:176-182 | column specifications only add aliases, and each new entry is an alias named by a three-element specification |
| Queries.Columns | labbookdb/db/query.py:170-182 | no contract of its own: the column loop of `get_df`; `ColumnsRegistry`, `ColumnsWellLabelled`, `OneClassColumns` and `AliasedColumn` state its properties |
| Queries.ColumnsWellLabelled | labbookdb/db/query.py:170-182 | every selected column is labelled with its class and attribute, and the class is registered |
| Queries.OneClassColumns | labbookdb/db/query.py:172-173 | a one-element specification selects every column of the class, labelled |
| Queries.AliasedColumn | labbookdb/db/query.py:176-182 | a three-element specification registers the alias and selects its attribute labelled `first_second_attribute` |
| Queries.JoinTarget | labbookdb/db/query.py:187-192 | a name without `.` is a registered class; a dotted name splits into a registered class and one of its attributes |
| Queries.AttributeTargetRoundTrip | labbookdb/db/query.py:188-190 | `class.attribute` parses back into that class and attribute |
| Queries.JoinTargets | labbookdb/db/query.py:186-193 | a join entry parses exactly when each element does, element by element |
| Queries.Joins | labbookdb/db/query.py:184-200 | one join per entry, with the parsed targets and the outer flag |
| Queries.ClassKey | labbookdb/db/query.py:208 | a filter's class must be a registered name |
| Queries.ConvertOne | labbookdb/db/query.py:206 | a filter value converts exactly when it is text that parses, to that date |
| Queries.ConvertDates | labbookdb/db/query.py:205-206 | conversion keeps the number of values |
| Queries.ConvertDatesMeaning | labbookdb/db/query.py:205-206 | when conversion succeeds, each value is that value's conversion |
| Queries.ConvertDatesAppend | labbookdb/db/query.py:205-206 | converting a concatenation converts each part |
| Queries.ConditionOf | labbookdb/db/query.py:207-210 | three elements give an equality, more give a disjunction over the values, on a column of a registered class |
| Queries.FilterStep | labbookdb/db/query.py:202-210 | an empty filter is skipped; the list is rewritten in place only by converting the values after a `date` attribute |
| Queries.FiltersFrom | labbookdb/db/query.py:202-210 | every filter list is kept in position, rewritten or not |
| Queries.Filters | labbookdb/db/query.py:202-210 | no contract of its own: the filter loop of `get_df`; `FiltersFrom`, `FiltersCount`, `FiltersConverted` and `FiltersRepeat` state its properties |
| Queries.FiltersCount | labbookdb/db/query.py:202-210 | one condition per nonempty filter |
| Queries.FiltersConverted | labbookdb/db/query.py:204-206 | each filter list is left as it was or has its values converted to dates |
| Queries.FilterStepRepeat | labbookdb/db/query.py:204-206 | processing a filter list that was already rewritten in place gives the same result again |
| Queries.FiltersRepeat | labbookdb/db/query.py:202-210 | running the filters again on the lists they rewrote gives the same lists and conditions |
| Queries.ColumnFilter | labbookdb/db/query.py:207-210 | a filter on a non-date attribute gives its equality or disjunction unconverted |
| Queries.Compile | labbookdb/db/query.py:119-215 | the compiled query's columns, joins and conditions are those of the column, join and filter specifications, over the extended registry |
| Queries.CompiledQuery | labbookdb/db/query.py:170-210 | a compiled query's columns are well labelled, it has one join per join entry and one condition per nonempty filter |
| Queries.QueryCompiler.AddAllColumns | labbookdb/db/query.py:106-117 | the method appends all labelled columns of the class, or fails as `AllColumns` |
| Queries.QueryCompiler.LabelAttribute | labbookdb/db/query.py:175 | the method computes exactly `Attribute` |
| Queries.QueryCompiler.SelectColumns | labbookdb/db/query.py:170-182 | the column loop updates the registry and computes the columns exactly as `Columns` |
| Queries.QueryCompiler.BuildJoins | labbookdb/db/query.py:184-193 | the join loop computes exactly `Joins` |
| Queries.QueryCompiler.JoinParameters | labbookdb/db/query.py:186-193 | the inner loop computes exactly `JoinTargets` |
| Queries.QueryCompiler.GetDf | labbookdb/db/query.py:119-215 | `get_df` leaves the registry and the caller's filter lists exactly as `Compile` says, with comma-separated dates |
| Queries.QueryCompiler.ApplyFilters | labbookdb/db/query.py:202-210 | the filter loop rewrites the array and computes the conditions exactly as `Filters` |
| Queries.QueryCompiler.FilterEntry | labbookdb/db/query.py:203-210 | one filter rewrites only its own array slot |
| Queries.QueryCompiler.ConvertInPlace | labbookdb/db/query.py:205-206 | the `enumerate` loop converts the slot's values in place exactly as `ConvertDates` |
| Ordering.LessIrreflexive | labbookdb/db/add.py:208 | string order is irreflexive |
| Ordering.LessTotal | labbookdb/db/add.py:208 | string order is total |
| Ordering.LessTransitive | labbookdb/db/add.py:208 | string order is transitive |
| Ordering.InsertSorted | labbookdb/db/add.py:208 | insertion keeps a list sorted and adds exactly one element |
| Ordering.Sort | labbookdb/db/add.py:208 | `sorted` returns a sorted permutation |
| Ordering.SortedUnique | labbookdb/db/add.py:208 | there is only one sorted permutation |
| Ordering.SortPairs | labbookdb/db/utils.py:9 | sorting pairs returns a sorted permutation |
| Ordering.PairsSortedUnique | labbookdb/db/utils.py:9 | there is only one sorted permutation of pairs |
| Ordering.SortedHeads | labbookdb/db/utils.py:9 | two sorted permutations start with the same pair |
| Classes.ValidateEmail | labbookdb/db/base_classes.py:51-54 | an address is accepted unchanged exactly when it contains `@`; text without one fails the assertion |
| Classes.DtFormat | labbookdb/db/base_classes.py:7-13 | a missing date shows as ONGOING, a midnight date as its day, any other date in full |
| Classes.ShownDate | labbookdb/db/base_classes.py:10-13 | a midnight date shows as the full timestamp without ` 00:00:00` |
| Classes.ShownDigits | labbookdb/db/base_classes.py:10-13 | a shown date starts and ends with a digit and has at least ten characters |
| Classes.EndsOngoing | labbookdb/db/base_classes.py:8-9 | a display ends in ONGOING exactly when its date is missing |
| Classes.ProtocolStr | labbookdb/db/base_classes.py:109-111 | `Protocol(code: …)` with the code between the fixed parts |
| Classes.MeasurementStr | labbookdb/db/base_classes.py:130-132 | `type(date: …)` with the formatted date between the fixed parts |
| Classes.TreatmentStr | labbookdb/db/common_classes.py:299-301 | a treatment without a protocol fails on `code`; otherwise the protocol and start are shown, ending in ONGOING exactly when there is no end |
| Classes.OperationStr | labbookdb/db/common_classes.py:321-323 | `Operation(date: types)` with the protocol types joined by `; ` |
| Classes.OperationTypesBack | labbookdb/db/common_classes.py:321-323 | the protocol types can be read back from the display |
| Classes.CageStayStr | labbookdb/db/common_classes.py:389-391 | shows the cage id and the start, ending in ONGOING exactly when there is no start |
| Classes.IdentifierList | labbookdb/db/common_classes.py:393 | one `identifier(database)` per external identifier |
| Classes.AnimalLine | labbookdb/db/common_classes.py:393 | no contract of its own: the text for one animal, its id, its `identifier(database)` list and its start date; `ReportAnimals` states its place in the report |
| Classes.ReportAnimals | labbookdb/db/common_classes.py:392-393 | one line per animal in the stay |
| Classes.ReportAnimalsDefect | labbookdb/db/common_classes.py:393 | as written, `report_animals` fails with a TypeError exactly when the stay has animals and a start date |
| Classes.ReportAnimalsAsWritten | labbookdb/db/common_classes.py:392-393 | no contract of its own: `report_animals` as written, a TypeError naming the date type for a stay with animals and a start date; `ReportAnimalsDefect` states when it fails |
| Classes.LocalShown | labbookdb/db/common_classes.py:408-411 | the local id when it is set and nonempty, the numeric id otherwise |
| Classes.StayBlocks | labbookdb/db/common_classes.py:414 | as evidently intended (see Findings): one block per stay, in order, each the stay's animal lines from the corrected `report_animals` joined by newline and tab |
| Classes.CageStr | labbookdb/db/common_classes.py:407-414 | as evidently intended (see Findings): the display is the heading with id, location and shown local id, followed by the stay blocks joined by newline and tab, and nothing else |
| Classes.CageLines | labbookdb/db/common_classes.py:407-414 | as evidently intended (see Findings): when every stay houses an animal, the display is its heading followed by one line per housed animal |
| Classes.StayBlocksAsWritten | labbookdb/db/common_classes.py:414 | as written, the first stay whose `report_animals` fails ends the list comprehension with its TypeError |
| Classes.StayBlocksDefect | labbookdb/db/common_classes.py:414 | as written, the stay blocks are built exactly when no stay has both an animal and a start date, and are then the corrected blocks; otherwise the error is a TypeError |
| Classes.CageStrAsWritten | labbookdb/db/common_classes.py:407-414 | as written, `Cage.__str__` fails with the first failing stay's TypeError |
| Classes.CageStrDefect | labbookdb/db/common_classes.py:407-414 | as written, a cage is displayed exactly when none of its stays has both an animal and a start date, and then as the corrected display; otherwise the error is a TypeError |
| Classes.BlocksFlatten | labbookdb/db/common_classes.py:414 | joining the joined blocks gives the flat list of animal lines |
| Classes.FMRIStrAlwaysFails | labbookdb/db/common_classes.py:167 | as written, every fMRI measurement's display fails on the missing `irregularities` attribute |
| Classes.FMRIStrAsWritten | labbookdb/db/common_classes.py:161-167 | no contract of its own: `FMRIMeasurement.__str__` as written, failing on the undeclared `irregularities`; `FMRIStrAlwaysFails` states that it always fails |
| Classes.FMRIStr | labbookdb/db/common_classes.py:161-174 | the display starts with the date, shows the temperature only when nonzero and the stimulations only when present, and ends in NONRESPONDENT for a nonrespondent |
| Classes.FMRIMarkIff | labbookdb/db/common_classes.py:167-169 | the NONRESPONDENT mark appears exactly when an irregularity reports no response |
| Classes.GenotypeRepr | labbookdb/db/base_classes.py:27-29 | `<Genotype(code='…', construct='…` with the code, ending in `')>` |
| Classes.GenotypeReprFields | labbookdb/db/base_classes.py:27-29 | code, construct and zygosity can be read back from the representation |
| Classes.GenotypeLabels | db/common_classes.py:313 | one `construct zygosity` label per genotype; a missing part fails the concatenation |
| Classes.SolutionReprs | db/common_classes.py:313 | one solution per treatment; a missing protocol fails on `solution` |
| Classes.AnimalRepr | db/common_classes.py:311-313 | the representation succeeds exactly when the genotype labels and solutions do, and shows the ids, genotypes and treatments |
| DbUtils.DateText | labbookdb/db/utils.py:12-18 | NO DATE exactly for a missing date, the day at midnight, the full timestamp otherwise |
| DbUtils.DtFormatsAgree | labbookdb/db/utils.py:12-18 | the two `dt_format`s agree on present dates and differ only in the missing-date text |
| DbUtils.SortKeys | labbookdb/db/utils.py:5-8 | sort by `date` when every item has one, else by `start_date`; an AttributeError when neither applies |
| DbUtils.ArangeByDate | labbookdb/db/utils.py:3-10 | the result is a permutation of the items' texts, and fails exactly when the keys do |
| DbUtils.ArangeIsSortedOrder | labbookdb/db/utils.py:9 | the result is the texts of the sorted (date, text) pairs |
| DbUtils.ArangeOrdered | labbookdb/db/utils.py:9 | the result lists the texts in order of their date keys |
| DbUtils.SecondsPermutation | labbookdb/db/utils.py:9 | permuting pairs permutes their texts |
| Tracking.FurtherCages | labbookdb/report/tracking.py:219-234 | as written (see Findings), over the cages in any order: no cages is an IndexError; otherwise the next cage follows the last cage listed, and the skipped numbers are those the loop collects |
| Tracking.UnorderedCages | labbookdb/report/tracking.py:219-234 | the set {1, 8} listed as [8, 1] gives next cage 2 and no skipped numbers, where the sorted listing is [1, 8] |
| Tracking.FurtherCagesSorted | labbookdb/report/tracking.py:219-234 | as evidently intended (see Findings): no cages is an IndexError; otherwise the next cage follows the largest cage and exceeds every cage, and the skipped numbers ascend and are exactly the unused numbers strictly between the smallest and the largest cage |
| Tracking.SortedSet | labbookdb/report/tracking.py:219 | the distinct cage numbers in ascending order: the same members, empty only when there are no cages |
| Tracking.AddSorted | labbookdb/report/tracking.py:219 | inserting a number into an ascending list keeps it ascending and adds exactly that number |
| Tracking.AscendingEnds | labbookdb/report/tracking.py:219 | every member of an ascending list lies between its first and last element |
| Tracking.SkippedText | labbookdb/report/tracking.py:236-237 | an empty list is reported as `None` |
| Tracking.ScanBetween | labbookdb/report/tracking.py:225-234 | the inner loop collects the numbers up to the next existing cage |
| Tracking.Scan | labbookdb/report/tracking.py:226-234 | the inner loop collects consecutive numbers from its start, none of them a cage and all below the last cage |
| Tracking.SkippedAreGaps | labbookdb/report/tracking.py:225-234 | the skipped numbers are the gaps between consecutive cages |
| Tracking.GapsMeaning | labbookdb/report/tracking.py:225-234 | the gaps ascend and are exactly the missing numbers between the smallest and the last cage |
| Tracking.SkippedMeaning | labbookdb/report/tracking.py:225-234 | the skipped numbers ascend and are exactly the unused numbers between the smallest and the largest cage |
| Tracking.TreatmentOnsets | labbookdb/report/tracking.py:148-154 | the animal level, also by default, gives the animal treatments; the cage level fails on the undefined `cage_treatments` |
| CageNumbers.NextCagesInfo | db/utilities.py:33-43 | as written (see Findings), over the cages in any order: no cages is an IndexError; otherwise the next cage is the last free successor in iteration order; the skipped list is returned exactly when asked and more than one free successor exists, and it is the free successors without the last |
| CageNumbers.SomeSuccessorFree | db/utilities.py:33-36 | with at least one cage, the successor of the largest is free, so some number is collected |
| CageNumbers.UnorderedSuccessors | db/utilities.py:33-43 | the set {1, 8} iterated as [8, 1] collects [9, 2], so the next cage is 2 with 9 skipped |
| CageNumbers.NextCagesInfoSorted | db/utilities.py:33-43 | as evidently intended (see Findings): no cages is an IndexError; otherwise the next cage follows an existing cage and exceeds every cage; the skipped list is returned exactly when asked for and some free successor of a cage lies below the next cage, and it then ascends and holds exactly those free successors |
| CageNumbers.SortedOutcome | db/utilities.py:33-43 | over the distinct cages in ascending order, the loop and the slicing give a next cage that follows the largest cage, and a skipped list exactly when asked for and some free successor lies below the next cage, holding exactly those, ascending |
| CageNumbers.AscendingSuccessors | db/utilities.py:33-38 | over the distinct cages in ascending order, the collected numbers ascend, the last follows the largest cage and exceeds every cage, and a number is collected exactly when it follows a cage and is free |
| CageNumbers.BelowLast | db/utilities.py:39-43 | the numbers the slice `[:-1]` keeps are exactly the collected numbers below the last, and it keeps some exactly when one exists |
| CageNumbers.FreeSuccessorsMeaning | db/utilities.py:33-36 | a number is collected exactly when it follows an existing cage and is not itself a cage |
| CageNumbers.FreeSuccessors | db/utilities.py:33-36 | at most one number per cage seen, none of them a cage; `FreeSuccessorsMeaning` states which numbers |
| CageNumbers.FreeSuccessorsAscending | db/utilities.py:33-36 | the collected numbers ascend |
| CageNumbers.LastIsNext | db/utilities.py:33-38 | over cages in ascending order, the last collected number is the successor of the largest cage |
| Paths.LastIndex | labbookdb/report/tracking.py:120 | the last occurrence of a character, or none |
| Paths.Extension | labbookdb/report/tracking.py:120 | `splitext`'s extension is empty or a dotted suffix of the last path component |
| Paths.OutputFormat | labbookdb/report/tracking.py:119-127 | no name prints; `.html` and `.tsv` choose their writers; `.csv` or no extension writes CSV; anything else only warns |
| Paths.CsvPath | labbookdb/report/tracking.py:282-284 | a path keeps a `.csv`/`.CSV` ending and otherwise gets `.csv` appended |
| Paths.CsvPathIdempotent | labbookdb/report/tracking.py:282-284 | adding the ending twice changes nothing, and the path is a prefix of the result |
| Paths.CsvPathIsCsv | labbookdb/report/tracking.py:119-125 | a path completed by the save rule is written as CSV |
| Processing.RoundedDays | labbookdb/report/processing.py:2-6 | the days, plus one exactly when at least half a day of seconds remains |
| Processing.RoundedDaysNearest | labbookdb/report/processing.py:2-6 | the result is the duration rounded to the nearest day, halves up |
| Processing.WholeDays | labbookdb/report/processing.py:2-6 | whole days are not rounded up |
| Concurrency.FirstStay | labbookdb/report/utilities.py:33 | the first stay of the animal that began on the date, or none |
| Concurrency.TreatmentStart | labbookdb/report/utilities.py:34 | the lookup fails exactly when no row matches the animal and stay start |
| Concurrency.DeathDate | labbookdb/report/utilities.py:35 | the lookup fails exactly when the animal has no row |
| Concurrency.Decisions | labbookdb/report/utilities.py:38-41 | one drop decision per row, made for its group |
| Concurrency.Unique | labbookdb/report/utilities.py:31 | each animal once |
| Concurrency.RowsOf | labbookdb/report/utilities.py:32 | the positions of the animal's rows |
| Concurrency.Group | labbookdb/report/utilities.py:39 | the positions of the rows of one animal and stay start |
| Concurrency.ConcurrentCageTreatment | labbookdb/report/utilities.py:30-44 | the nested loops and the drop compute exactly `Concurrent` |
| Concurrency.DropStays | labbookdb/report/utilities.py:32-41 | after an animal's stays the dropped positions are the decided drops of the animals seen |
| Concurrency.DropGroup | labbookdb/report/utilities.py:33-41 | one stay either fails its lookup or drops its whole group exactly when decided |
| Concurrency.GroupStep | labbookdb/report/utilities.py:38-41 | the dropped set grows by the group exactly when it is to be dropped |
| Concurrency.SubjectDone | labbookdb/report/utilities.py:31-41 | when an animal is done, all its rows are decided |
| Concurrency.SubjectRowsDecided | labbookdb/report/utilities.py:32 | every row of the animal is visited through its stay start |
| Concurrency.WithoutIsKept | labbookdb/report/utilities.py:42 | dropping the collected positions keeps exactly the rows not to be dropped, in order |
| Concurrency.ConcurrentFails | labbookdb/report/utilities.py:33 | the function fails exactly when some row's stay cannot be found |
| Concurrency.Concurrent | labbookdb/report/utilities.py:30-44 | no contract of its own: `concurrent_cagetreatment` as a value; `ConcurrentFails`, `ConcurrentKeeps` and `EndsIgnored` state its properties |
| Concurrency.Drops | labbookdb/report/utilities.py:33-41 | the decision for a group fails, with an IndexError, exactly when the stay, the treatment start or the death date cannot be looked up |
| Concurrency.ConcurrentKeeps | labbookdb/report/utilities.py:30-44 | a row is kept exactly when its group is not dropped |
| Concurrency.FirstRowDecides | labbookdb/report/utilities.py:38-41 | a group is dropped exactly when its treatment began at or before the stay began, at or after it ended, or at or after death, read from the animal's first rows |
| Concurrency.FirstLookups | labbookdb/report/utilities.py:34-35 | for an animal's first row, the lookups return that row's own treatment start and death date |
| Concurrency.EndsIgnored | labbookdb/report/utilities.py:36-41 | treatment end dates never influence which rows are kept |
| Concurrency.LookupsIgnoreEnds | labbookdb/report/utilities.py:34-35 | the lookups do not read treatment end dates |
| Concurrency.KeptIgnoresEnds | labbookdb/report/utilities.py:42 | the kept rows differ only in treatment end dates when the input does |
| Behaviour.TimeLabel | labbookdb/report/behaviour.py:95-96 | an empty label becomes the one-minute label; any other label is kept |
| Behaviour.IntervalTable | labbookdb/report/behaviour.py:97-102 | the one-minute label gives six 60-second windows, the two-minute label three 120-second windows; any other label leaves the table unbound |
| Behaviour.LiteralTiles | labbookdb/report/behaviour.py:98-101 | the literal tables are consecutive equal windows from zero |
| Behaviour.TilesCover | labbookdb/report/behaviour.py:98-101 | every second of the session falls in exactly one window |
| Behaviour.Window | labbookdb/report/behaviour.py:98-101 | the window of a second is its quotient by the width, plus one |
| Behaviour.TablesCoverTest | labbookdb/report/behaviour.py:97-102 | both tables cover the six-minute test |
| Behaviour.ColumnPeriod | labbookdb/report/behaviour.py:110-113 | parsed bounds are whole minutes in seconds; `ColumnPeriodMeaning` states when it succeeds |
| Behaviour.ColumnPeriodMeaning | labbookdb/report/behaviour.py:110-112 | a column name gives a window exactly when it splits at ` to ` into two parts that both read as integers, and then the window is those minutes in seconds; fewer parts (a name without ` to `) are "not enough values", more are "too many values", and otherwise the first part that does not read gives its error |
| Behaviour.SeparatorBetween | labbookdb/report/behaviour.py:110 | joined parts contain the separator |
| Behaviour.IntStringCleanPart | labbookdb/report/behaviour.py:110 | a number's text never contains ` to ` |
| Behaviour.ColumnPeriodRoundTrip | labbookdb/report/behaviour.py:110-113 | `"a to b"` parses to `a*60` and `b*60` seconds |
| Behaviour.ColumnPeriodTooMany | labbookdb/report/behaviour.py:110 | three parts are too many to unpack |
| Behaviour.Periods | labbookdb/report/behaviour.py:108-113 | the periods exist exactly when every column parses; they map each column to its period, or carry the first column's error |
| Behaviour.TtestPeriods | labbookdb/report/behaviour.py:108-113 | the loop computes exactly `Periods` |
| Behaviour.CollectPeriods | labbookdb/report/behaviour.py:108-113 | the loop keeps its map equal to reading the names seen so far, so it ends with the error of the first name that does not read, or with every name's window |
| Behaviour.FirstErrorStands | labbookdb/report/behaviour.py:108-113 | the first column that does not parse decides the error |
| Behaviour.ForcedSwimPlan | labbookdb/report/behaviour.py:94-114 | time-course styles get the interval windows, `ttest` gets the parsed periods, other styles plan nothing |
| Behaviour.EmptyLabelIsOneMinute | labbookdb/report/behaviour.py:95-96 | no label behaves as the one-minute label |
| Behaviour.SavedName | labbookdb/report/behaviour.py:120-123 | nothing is saved for an empty name; otherwise the name, before path normalisation, keeps or gets a CSV ending |
| Behaviour.ForcedSwimSaved | labbookdb/report/behaviour.py:120-124 | errors of the plan propagate; saving after an unknown style hits the unbound data frame; a save goes to `SavedName` |
| DateTimes.FromInts | labbookdb/db/add.py:103 | `datetime(*ints)` succeeds exactly for three to seven integers forming a valid date, with later fields zero; a wrong count is a TypeError |
| DateTimes.ParseInts | labbookdb/db/add.py:103 | the integers exist exactly when every part parses, each being its part's value |
| DateTimes.ParseCommaForm | labbookdb/db/add.py:102-103 | writing a valid datetime's fields with commas and parsing gives the datetime back |
| DateTimes.ParseCommaDate | labbookdb/db/add.py:102-103 | a parsed date is a valid datetime written as three to seven comma-separated parts; more than seven parts fail |
| DateTimes.IntStringClean | labbookdb/db/add.py:103 | a number's text contains no comma |
| DateTimes.ParseIntsOf | labbookdb/db/add.py:103 | parts that each parse give their values |
| DateTimes.ZeroPad | labbookdb/db/utils.py:16-18 | padding gives digits, at least the width |
| DateTimes.ToStringShape | labbookdb/db/utils.py:16-18 | `str(date)` has ten characters and `str(datetime)` 19, or 26 with microseconds, beginning with the date |
| DateTimes.FieldsBeforeTotal | labbookdb/report/utilities.py:38-41 | field-wise comparison is a strict total order |
| DateTimes.BeforeIsStrictTotalOrder | labbookdb/report/utilities.py:38-41 | datetime comparison is irreflexive, total and transitive |
| Text.Find | labbookdb/db/add.py:87 | the first occurrence of a substring, or none |
| Text.ContainsIff | labbookdb/db/add.py:87 | `in` on strings holds exactly when the substring occurs somewhere |
| Text.Split | labbookdb/db/add.py:82 | the parts rejoin to the text and none contains the separator; without an occurrence the text is the only part, and otherwise the first part is the text before the leftmost occurrence |
| Text.HeadBeforeFirst | labbookdb/db/add.py:82-83 | the text before the leftmost occurrence of the separator holds none, and the text is that head, the separator and the rest |
| Text.JoinCons | labbookdb/db/add.py:82 | joining a part in front of a nonempty list puts exactly one separator between them |
| Text.SplitOnce | labbookdb/db/add.py:83 | `split(".", 1)` unpacks exactly when the separator occurs, into a first part without it and the rest |
| Text.SplitJoin | labbookdb/db/add.py:82 | splitting joined separator-free parts gives the parts back |
| Text.Join | labbookdb/db/common_classes.py:414 | no contract of its own: `sep.join(parts)`; `SplitJoin`, `JoinAppend` and `JoinStep` state how it splits back and composes |
| Text.JoinAppend | labbookdb/db/common_classes.py:414 | joining two nonempty runs of parts puts one separator between their joins |
| Text.LastCharsTest | labbookdb/db/add.py:209 | `key[-4:] == "date"` is the `date` ending |
| Text.LastChars | labbookdb/db/add.py:209 | `key[-n:]` has `n` characters, or the whole key when shorter, and is an ending of the key |
| Text.NatToString | labbookdb/db/add.py:112 | decimal digits without a leading zero, denoting the number |
| Text.IntToString | labbookdb/db/add.py:112 | a minus sign before the digits of a negative number |
| Text.Strip | labbookdb/report/behaviour.py:111-112 | stripping never lengthens, and a nonempty result begins and ends with a non-space; `StripMeaning` states what is removed |
| Text.StripMeaning | labbookdb/report/behaviour.py:111-112 | the result sits inside the text with only whitespace around it and begins and ends with a non-space, so no more whitespace could be removed; an empty result means the text was all whitespace |
| Text.ParseInt | labbookdb/report/behaviour.py:111-112 | `int()` succeeds only on text that strips to something nonempty; `ParseIntMeaning` states exactly when and with which value |
| Text.ParseIntMeaning | labbookdb/report/behaviour.py:111-112 | `int()` succeeds exactly when the stripped text is an optionally signed, nonempty run of decimal digits; its value is the digits read in base ten, negated after `-`; anything else is the "invalid literal" ValueError |
| Text.ParseIntToString | labbookdb/report/behaviour.py:111-112 | `int(str(n)) == n` |
| Text.ReplaceAbsent | labbookdb/db/add.py:88-89 | replacing an absent substring changes nothing |
| Text.Replace | labbookdb/db/add.py:88-89 | no contract of its own: `str.replace`, left to right without overlaps; the `Replace…` lemmas state its properties |
| Text.ReplaceShrinks | labbookdb/db/add.py:88-89 | replacing with something no longer never lengthens |
| Text.ReplaceConcat | labbookdb/db/add.py:88-89 | replacement distributes over a concatenation whose seam does not cut the target |
| Text.ReplaceEach | labbookdb/db/add.py:88-89 | replacement part by part |
| Text.ReplaceJoin | labbookdb/db/add.py:88-89 | replacing in a joined text replaces in each part and in the separator |

## Left out

- Sessions, engines, `load_session`, `session.close()` and
  `engine.dispose()` are not modelled. The database is a value the
  operations read and return, or a `Store.Database` object they update.
- Construction.Create, Construction.AddGeneric, Appending.Append and
  Appending.AppendParameter: every `add_to_db` and commit is modelled as
  independent. In the source one session is shared, so the commit that
  stores a nested dictionary child (`labbookdb/db/add.py:158-161`,
  `:224-234`, committing at `:60-63`) also flushes the parent's pending
  attribute edits and, in `add_generic`, a parent already added. Those
  intermediate commits of nested children are not modelled: the edited
  record changes only at the final commit, and a rolled-back final
  commit leaves it as it was.
- JSON decoding of string parameters is not modelled. The parameter
  dictionary arrives already decoded, as `Construction.Tree`.
- The `print` calls are left out: the "Setting …" traces, the `CATEGORY`
  attribute listing, the double-entry warnings, the `further_cages`
  report and the save-format warning. Their only effect is output.
- Reading data frames with pandas, `dropna`, `tolist` and `int()` on
  numpy values are not modelled. The cage numbers, the treatment table
  and the stay table arrive as sequences.
- Plotting (`behaviopy`, `formatting.plottable_sums`, `plotting.*`) and
  writing files are not modelled. `forced_swim` is modelled up to the
  plan of windows and the saved file name.
- Behaviour.SavedName, Behaviour.ForcedSwimSaved, Paths.CsvPath: the
  `.csv` test runs on the name as given. The source first applies
  `expanduser` and `abspath`, which are not modelled. `abspath` drops a
  trailing `/` or `/.` and resolves `..`, so for a name ending in `.csv/`,
  `.csv/.` or `x.csv/y/..` the source adds no suffix, while the model
  appends `.csv` (`table.csv/` gives `table.csv/.csv`; the source saves
  `<cwd>/table.csv`). The working directory and the home directory are
  not part of the model.
- Missing-value semantics: pandas' NaT is `None`, and every comparison
  with it is false.
- Floating point: `rounded_days` divides by 43199.5. The model compares
  integer seconds with 43200, which is equivalent for whole seconds.
- The registry of categories is a parameter. Only the registered
  classes' columns, unique columns, relationships and defaults are
  described.
- The failing imports are not modelled. As written, importing
  `labbookdb/db/add.py` stops at its first line of imports from the
  package:
  - `labbookdb/db/add.py:15` runs `from .common_classes import *`, and
    `labbookdb/db/common_classes.py:313` names
    `operations_irregularities_association`, where `:31` defines
    `oprations_irregularities_association`: a NameError;
  - `labbookdb/db/query.py:27` names `FMRIAnimalPreparationProtocol` and
    `:42` names `Weight`, neither of them defined: a NameError;
  - `labbookdb/db/add.py:16` imports `ALLOWED_CLASSES`, where
    `labbookdb/db/query.py:17` defines only `allowed_classes`: an
    ImportError, also at `labbookdb/introspection/schema.py:4`.

  The model treats all three as corrected: the registry is a parameter,
  and every operation of `labbookdb/db/add.py` is modelled as it would
  run once the names resolve.
- SQLAlchemy's own behaviour is reduced to what the modelled code
  observes:
  - filters are `Eq` or `Has`;
  - uniqueness on the primary key and declared unique columns;
  - insert defaults;
  - e-mail validation;
  - append-only inserts.

  Foreign-key enforcement, cascades and the `onupdate` hook of
  `Substance.long_name` are not modelled.
- `get_df`'s `sql_query.statement` and `read_sql_query` are not
  modelled. The model produces the compiled columns, joins and
  conditions, not rows.
- The older resolver's `groupby(level=0).first()` deduplication of
  polymorphic result columns is not modelled. Its ids are the selected
  ids.
- `update_parameter` in `db/add.py:88-104` is not modelled. It calls
  `get_related_id` with two arguments instead of three, so it can only
  fail with a TypeError.
- Resolution.NestedFilters: the `contains(*objects)` fallback is modelled
  for one related id, on a to-many relationship; with several ids, or on
  a to-one relationship, the model reports an error.
- Resolution.Message: its contract states only that a message is
  produced exactly for the "No entry was found" error. The wording, with
  the value, field and category in it, is not pinned by a lemma, because
  proving the concatenation equal to a literal of some 130 characters
  is a character-by-character sequence equality that exceeds the
  resource limit this project is verified under (one of the two messages
  of `labbookdb/tests/test_query.py:7-10` needs more than twice that
  limit). `Expressions.SeparatorScenarios` pins the value, field and
  category those two messages are built from.
- Tracking.FurtherCages, CageNumbers.NextCagesInfo: the order in which
  Python lists a `set` is a parameter, the sequence of cages; which order
  CPython picks for given numbers is not modelled.
- CageNumbers.NextCagesInfo: its column read and the `"animals_"` +
  cage-code column name are not modelled.
- Classes.IdentifierList, Classes.ReportAnimals,
  Classes.ReportAnimalsAsWritten, Classes.ReportAnimalsDefect: an
  external identifier's `identifier` and `database` are always text in
  the model. Both columns are nullable
  (`labbookdb/db/common_classes.py:50-51`), and a `None` in either makes
  the `+` at `labbookdb/db/common_classes.py:393` raise a TypeError; that
  path is not modelled, so `ReportAnimalsDefect`'s "exactly when" covers
  only the start-date TypeError.
- Construction.Create, Construction.AddGeneric, Appending.Append,
  Appending.AppendKey: parameter values are integers, text, dates and
  lists (`Construction.Param`). Floats and `None` are not modelled. A
  float in `append_parameter` passes the type test at
  `labbookdb/db/add.py:145` and then raises a TypeError at the `in` test
  on `:146`. In `add_generic` a float under a key ending in `date` fails
  with AttributeError at `.split` (`:210`), before any `setattr`; a float
  under a key ending in `_id` fails with AttributeError at `.split` in
  `get_related_ids` (`:80`), which the `except ValueError` of `:211-213`
  does not catch; under any other key it is stored as it is.
- Construction.ItemEntry, Construction.AddEntry, Appending.AppendItems,
  Appending.AppendEntries: a nested dictionary child whose insert clashes
  ends the whole call with the rolled-back error. In the source
  `add_to_db` (`labbookdb/db/add.py:60-66`) catches the IntegrityError
  and prints a warning, the child's id is `None`, and the loop goes on;
  a later `get_related_ids` closes the session (`:113`), so the final
  commit clashes again and the call returns `None`. That continuation is
  not modelled.
- Concurrency.ConcurrentCageTreatment: the `protect_duplicates`
  parameter is not modelled, because the call that uses it is commented
  out. Row positions stand for the data frame's index.
- Appending.AppendKey: the branch for an expression with `:` and `.`
  fails on the undefined name `i`. It is modelled as that NameError, so
  the related-record assignment after it is not modelled.
- Tracking.TreatmentOnsets: the cage level references an undefined
  `cage_treatments`. It is modelled as that NameError, and the selection
  it would call is not modelled.
- Classes.AnimalRepr: quotes inside list elements are shown as plain
  `'…'` items, without Python's escaping of embedded quotes.
- Text.ParseInt, Text.Strip, Text.ParseIntMeaning, Text.StripMeaning:
  `int()` is modelled on ASCII digits with an
  optional sign, and both strip the ten ASCII characters Python treats as
  whitespace (space, `\t`, `\n`, `\r`, `\x0b`, `\x0c` and `\x1c` to
  `\x1f`). Underscores, non-ASCII digits and non-ASCII whitespace are not
  modelled.
- Error messages are reduced to the exception class and the attribute or
  name involved. The wording of a TypeError is not part of the model.

## Findings

| source | as written | input that shows it | evidently intended | confidence | as-written member | corrected member |
|---|---|---|---|---|---|---|
| labbookdb/db/common_classes.py:167 | `FMRIMeasurement.__str__` reads `self.irregularities`, but neither `FMRIMeasurement` nor `Measurement` declares that relationship (only `Operation` does) | any fMRI measurement, for example one with no temperature and no stimulations | mark a measurement NONRESPONDENT when one of its irregularities reports a failed response | medium, not executed | Classes.FMRIStrAsWritten (Classes.FMRIStrAlwaysFails) | Classes.FMRIStr (Classes.FMRIMarkIff) |
| labbookdb/report/tracking.py:219 | `further_cages` walks `list(set(...))`, taking the last cage listed as the largest, but Python does not list a set of integers in ascending order in general | the cages {1, 8}, which CPython lists as [8, 1]: the next cage is reported as 2, with nothing skipped | walk `sorted(set(...))`, so that the next cage follows the largest and the skipped numbers are the unused ones below it | medium, not executed | Tracking.FurtherCages (Tracking.UnorderedCages) | Tracking.FurtherCagesSorted |
| db/utilities.py:34 | `next_cages_info` walks the set of cages itself and takes the last free successor met as the next cage | the cages {1, 8}, which CPython iterates as [8, 1]: the result is 2 with 9 skipped | iterate in ascending order, so that the next cage follows the largest and the skipped numbers are all the free successors below it | medium, not executed | CageNumbers.NextCagesInfo (CageNumbers.UnorderedSuccessors) | CageNumbers.NextCagesInfoSorted |
| labbookdb/db/common_classes.py:393 | `report_animals` concatenates a string with `dt_format(self.start_date)`, which is a `date` or `datetime` for any stay with a start date | a stay with one animal and a start date, or a cage holding such a stay | one line per animal, ending with the formatted start date, in the stay's and the cage's display | high, not executed | Classes.ReportAnimalsAsWritten (Classes.ReportAnimalsDefect), Classes.CageStrAsWritten (Classes.CageStrDefect) | Classes.ReportAnimals, Classes.StayBlocks, Classes.CageStr (Classes.CageLines) |

