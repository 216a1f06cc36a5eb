/**
 * What `parseSelectStatement` promises about the query it builds: which
 * statements become a `FindQuery` and which an aggregation, the errors it
 * raises, and the order and contents of the pipeline stages.
 */
module StatementLemmas {

  import opened Php
  import Leaf
  import Reducer
  import Select
  import opened QueryModel
  import opened Statement

  // ---------------------------------------------------------------------
  // The stages

  /** The operator a one-key stage document names. */
  function StageName(v: V): string {
    if v.Obj? && |v.fields| == 1 then v.fields[0].0 else ""
  }

  /** The place of each stage after `$match` and `$group`. */
  function Rank(name: string): nat {
    if name == "$project" then 0
    else if name == "$match" then 1
    else if name == "$sort" then 2
    else if name == "$skip" then 3
    else if name == "$limit" then 4
    else 5
  }

  /** What each optional stage holds. */
  function StageBody(name: string, project: Fields, having: Fields, sort: Option<Fields>, skip: int, limit: int): V {
    if name == "$project" then Obj(project)
    else if name == "$match" then Obj(having)
    else if name == "$sort" then OptionalFields(sort)
    else if name == "$skip" then Int(skip)
    else Int(limit)
  }

  /** The stage names, in pipeline order. */
  function Names(ps: seq<V>): (names: seq<string>)
    ensures |names| == |ps|
    ensures forall i :: 0 <= i < |ps| ==> names[i] == StageName(ps[i])
  {
    if ps == [] then [] else Names(ps[..|ps| - 1]) + [StageName(ps[|ps| - 1])]
  }

  /** Stages after the first two, in `Rank` order, each once at most, each with its own body. */
  predicate WellOrdered(tail: seq<V>, project: Fields, having: Fields, sort: Option<Fields>, skip: int, limit: int) {
    (forall i, j :: 0 <= i < j < |tail| ==> Rank(StageName(tail[i])) < Rank(StageName(tail[j]))) &&
    (forall i :: 0 <= i < |tail| ==>
      (Rank(StageName(tail[i])) < 5 &&
       tail[i] == Stage(StageName(tail[i]), StageBody(StageName(tail[i]), project, having, sort, skip, limit))))
  }

  /** An optional stage to add: whether its clause applies, and its name. */
  type Step = (bool, string)

  /** The stages the steps add, in order, each with the body its name calls for. */
  function Steps(steps: seq<Step>, project: Fields, having: Fields, sort: Option<Fields>, skip: int, limit: int)
    : seq<V>
  {
    if steps == [] then []
    else
      var s := steps[|steps| - 1];
      Steps(steps[..|steps| - 1], project, having, sort, skip, limit)
      + OptionalStage(s.0, s.1, StageBody(s.1, project, having, sort, skip, limit))
  }

  /** The names of the steps that apply. */
  function Applying(steps: seq<Step>): seq<string> {
    if steps == [] then []
    else
      var s := steps[|steps| - 1];
      Applying(steps[..|steps| - 1]) + if s.0 then [s.1] else []
  }

  predicate RankedSteps(steps: seq<Step>) {
    (forall i, j :: 0 <= i < j < |steps| ==> Rank(steps[i].1) < Rank(steps[j].1)) &&
    (forall i :: 0 <= i < |steps| ==> Rank(steps[i].1) < 5)
  }

  lemma {:induction false} StepsOrdered(steps: seq<Step>, project: Fields, having: Fields, sort: Option<Fields>,
                                        skip: int, limit: int)
    requires RankedSteps(steps)
    ensures var t := Steps(steps, project, having, sort, skip, limit);
      WellOrdered(t, project, having, sort, skip, limit) &&
      Names(t) == Applying(steps) &&
      (steps != [] ==> forall i :: 0 <= i < |t| ==> Rank(StageName(t[i])) <= Rank(steps[|steps| - 1].1))
    decreases |steps|
  {
    if steps != [] {
      var init := steps[..|steps| - 1];
      var s := steps[|steps| - 1];
      assert RankedSteps(init);
      StepsOrdered(init, project, having, sort, skip, limit);
      var tail := Steps(init, project, having, sort, skip, limit);
      if init != [] {
        assert Rank(init[|init| - 1].1) < Rank(s.1);
      }
      OptionalStageOrdered(tail, s.0, s.1, project, having, sort, skip, limit);
    }
  }

  lemma OptionalStageOrdered(tail: seq<V>, present: bool, name: string, project: Fields, having: Fields,
                             sort: Option<Fields>, skip: int, limit: int)
    requires WellOrdered(tail, project, having, sort, skip, limit)
    requires Rank(name) < 5 && forall i :: 0 <= i < |tail| ==> Rank(StageName(tail[i])) < Rank(name)
    ensures var t := tail + OptionalStage(present, name, StageBody(name, project, having, sort, skip, limit));
      WellOrdered(t, project, having, sort, skip, limit) &&
      (forall i :: 0 <= i < |t| ==> Rank(StageName(t[i])) <= Rank(name)) &&
      Names(t) == Names(tail) + if present then [name] else []
  {
    var t := tail + OptionalStage(present, name, StageBody(name, project, having, sort, skip, limit));
    if present {
      assert t[|tail|] == Stage(name, StageBody(name, project, having, sort, skip, limit));
      assert StageName(t[|tail|]) == name;
    } else {
      assert t == tail;
    }
  }

  /** The five optional stages of `parseSelectStatement`, in the order it adds them. */
  function TailSteps(project: Fields, having: Fields, sort: Option<Fields>, skip: int, limit: int): seq<Step> {
    [(project != [], "$project"), (having != [], "$match"), (sort.Some?, "$sort"), (skip != 0, "$skip"),
     (limit != 0, "$limit")]
  }

  /** `PipelineTail` adds the five steps one after the other. */
  lemma TailStepsUnfold(project: Fields, having: Fields, sort: Option<Fields>, skip: int, limit: int)
    ensures Steps(TailSteps(project, having, sort, skip, limit), project, having, sort, skip, limit)
         == PipelineTail(project, having, sort, skip, limit)
  {
    var steps := TailSteps(project, having, sort, skip, limit);
    var p := OptionalStage(project != [], "$project", Obj(project));
    var h := OptionalStage(having != [], "$match", Obj(having));
    var o := OptionalStage(sort.Some?, "$sort", OptionalFields(sort));
    var k := OptionalStage(skip != 0, "$skip", Int(skip));
    assert steps[..1][..0] == [];
    assert Steps(steps[..1], project, having, sort, skip, limit) == p;
    assert steps[..2][..1] == steps[..1];
    assert Steps(steps[..2], project, having, sort, skip, limit) == p + h;
    assert steps[..3][..2] == steps[..2];
    assert Steps(steps[..3], project, having, sort, skip, limit) == p + h + o;
    assert steps[..4][..3] == steps[..3];
    assert Steps(steps[..4], project, having, sort, skip, limit) == p + h + o + k;
    assert steps[..4] == steps[..|steps| - 1];
  }

  /** The names of the steps that apply, one by one. */
  lemma TailStepsApplying(project: Fields, having: Fields, sort: Option<Fields>, skip: int, limit: int)
    ensures var names := Applying(TailSteps(project, having, sort, skip, limit));
      ("$project" in names <==> project != []) &&
      ("$match" in names <==> having != []) &&
      ("$sort" in names <==> sort.Some?) &&
      ("$skip" in names <==> skip != 0) &&
      ("$limit" in names <==> limit != 0)
  {
    var steps := TailSteps(project, having, sort, skip, limit);
    var p: seq<string> := if project != [] then ["$project"] else [];
    var h: seq<string> := if having != [] then ["$match"] else [];
    var o: seq<string> := if sort.Some? then ["$sort"] else [];
    var k: seq<string> := if skip != 0 then ["$skip"] else [];
    var l: seq<string> := if limit != 0 then ["$limit"] else [];
    AppliedPrefix(steps, 5);
    assert steps[..5] == steps;
    assert AppliedNames(steps, 1) == p;
    assert AppliedNames(steps, 2) == p + h;
    assert AppliedNames(steps, 3) == p + h + o;
    assert AppliedNames(steps, 4) == p + h + o + k;
    assert AppliedNames(steps, 5) == p + h + o + k + l;
    InFive("$project", p, h, o, k, l);
    InFive("$match", p, h, o, k, l);
    InFive("$sort", p, h, o, k, l);
    InFive("$skip", p, h, o, k, l);
    InFive("$limit", p, h, o, k, l);
  }

  lemma InFive<T>(x: T, a: seq<T>, b: seq<T>, c: seq<T>, d: seq<T>, e: seq<T>)
    ensures x in a + b + c + d + e <==> x in a || x in b || x in c || x in d || x in e
  {
  }

  /** The names the first `k` steps contribute, written out. */
  function AppliedNames(steps: seq<Step>, k: nat): seq<string>
    requires k <= |steps|
  {
    if k == 0 then [] else AppliedNames(steps, k - 1) + (if steps[k - 1].0 then [steps[k - 1].1] else [])
  }

  lemma {:induction false} AppliedPrefix(steps: seq<Step>, k: nat)
    requires k <= |steps|
    ensures Applying(steps[..k]) == AppliedNames(steps, k)
  {
    if k > 0 {
      AppliedPrefix(steps, k - 1);
      assert steps[..k][..k - 1] == steps[..k - 1];
    }
  }

  /** The stages after `$group` come in `Rank` order, each exactly when its clause applies. */
  lemma PipelineTailShape(project: Fields, having: Fields, sort: Option<Fields>, skip: int, limit: int)
    ensures var tail := PipelineTail(project, having, sort, skip, limit);
      WellOrdered(tail, project, having, sort, skip, limit) &&
      ("$project" in Names(tail) <==> project != []) &&
      ("$match" in Names(tail) <==> having != []) &&
      ("$sort" in Names(tail) <==> sort.Some?) &&
      ("$skip" in Names(tail) <==> skip != 0) &&
      ("$limit" in Names(tail) <==> limit != 0)
  {
    var steps := TailSteps(project, having, sort, skip, limit);
    assert RankedSteps(steps);
    StepsOrdered(steps, project, having, sort, skip, limit);
    TailStepsUnfold(project, having, sort, skip, limit);
    TailStepsApplying(project, having, sort, skip, limit);
  }

  /**
   * The pipeline is `$match` on the filter, `$group`, then whichever of
   * `$project`, the HAVING `$match`, `$sort`, `$skip` and `$limit` apply, in
   * that order.
   */
  lemma PipelineShape(filter: Fields, groupBy: Option<Fields>, grouping: Select.Grouping, projection: Option<Fields>,
                      having: Fields, sort: Option<Fields>, skip: int, limit: int)
    ensures var ps := Pipelines(filter, groupBy, grouping, projection, having, sort, skip, limit);
      var project := FinalProject(projection, grouping.projects);
      |ps| >= 2 &&
      ps[0] == Stage("$match", if filter == [] then EmptyObject else Obj(filter)) &&
      ps[1] == Stage("$group", Obj(GroupDocument(groupBy, grouping.results))) &&
      WellOrdered(ps[2..], project, having, sort, skip, limit) &&
      ("$project" in Names(ps[2..]) <==> project != []) &&
      ("$match" in Names(ps[2..]) <==> having != []) &&
      ("$sort" in Names(ps[2..]) <==> sort.Some?) &&
      ("$skip" in Names(ps[2..]) <==> skip != 0) &&
      ("$limit" in Names(ps[2..]) <==> limit != 0)
  {
    var ps := Pipelines(filter, groupBy, grouping, projection, having, sort, skip, limit);
    var project := FinalProject(projection, grouping.projects);
    var tail := PipelineTail(project, having, sort, skip, limit);
    var head := [Stage("$match", if filter == [] then EmptyObject else Obj(filter)),
                 Stage("$group", Obj(GroupDocument(groupBy, grouping.results)))];
    assert ps == head + tail;
    PipelineTailShape(project, having, sort, skip, limit);
    assert ps[2..] == tail;
  }

  /** The `$group` document's first key is `_id`; the accumulators follow. */
  lemma GroupDocumentKeys(groupBy: Option<Fields>, results: Fields, k: string)
    ensures |Keys(GroupDocument(groupBy, results))| > 0 && Keys(GroupDocument(groupBy, results))[0] == "_id"
    ensures HasKey(GroupDocument(groupBy, results), k) <==> k == "_id" || HasKey(results, k)
    ensures !HasKey(results, "_id") ==> Get(GroupDocument(groupBy, results), "_id") == Some(OptionalFields(groupBy))
    ensures UniqueKeys(results) && HasKey(results, k) ==> Get(GroupDocument(groupBy, results), k) == Get(results, k)
  {
    var a := [("_id", OptionalFields(groupBy))];
    MergeGet(a, results, k);
    MergeGet(a, results, "_id");
    assert Keys(a) == ["_id"];
  }

  // ---------------------------------------------------------------------
  // The `$project` stage

  /** Every selected column is a key of the grouped projection, read from `_id`. */
  lemma GroupedProjectionEntries(fields: seq<string>, k: string)
    ensures HasKey(GroupedProjection(fields), k) <==> k in fields
    ensures k in fields ==> Get(GroupedProjection(fields), k) == Some(IdPath(k))
    ensures UniqueKeys(GroupedProjection(fields))
  {
    Select.PutEachKeys(fields, Select.Always, Same, IdPath, k);
    if k in fields {
      var i :| 0 <= i < |fields| && fields[i] == k;
      assert Select.Always(fields[i]) && Same(fields[i]) == k;
      GetEntry(GroupedProjection(fields), k);
      Select.PutEachEntries(fields, Select.Always, Same, IdPath);
    }
  }

  /** A `$project` that shows anything says what `_id` is: set by a column, or hidden with 0. */
  lemma ProjectShowsId(projection: Option<Fields>, additional: Fields)
    ensures FinalProject(projection, additional) != [] ==> IsSet(FinalProject(projection, additional), "_id")
    ensures FinalProject(projection, additional) == [] <==> Select.ProjectedKeys(projection) == [] && additional == []
  {
    var grouped := GroupedProjection(Select.ProjectedKeys(projection));
    var project := Merge(grouped, additional);
    if !IsSet(project, "_id") && project != [] {
      PutGet(project, "_id", Int(0), "_id");
    }
    if Select.ProjectedKeys(projection) != [] {
      var k := Select.ProjectedKeys(projection)[0];
      GroupedProjectionEntries(Select.ProjectedKeys(projection), k);
      MergeGet(grouped, additional, k);
    }
    if additional != [] {
      var k := additional[0].0;
      assert Keys(additional)[0] == k;
      MergeGet(grouped, additional, k);
    }
    if project == [] {
      assert Keys(project) == [];
    }
  }

  /** A selected column no aggregate projection overrides is read from the group key. */
  lemma GroupedColumnProjected(projection: Option<Fields>, additional: Fields, k: string)
    requires k in Select.ProjectedKeys(projection) && !HasKey(additional, k)
    ensures Get(FinalProject(projection, additional), k) == Some(IdPath(k))
  {
    var grouped := GroupedProjection(Select.ProjectedKeys(projection));
    var project := Merge(grouped, additional);
    GroupedProjectionEntries(Select.ProjectedKeys(projection), k);
    MergeGet(grouped, additional, k);
    PutGet(project, "_id", Int(0), k);
  }

  /** An aggregate projection (a call's alias or text) wins over a column of the same name. */
  lemma AggregateProjected(projection: Option<Fields>, additional: Fields, k: string)
    requires UniqueKeys(additional) && HasKey(additional, k) && k != "_id"
    ensures Get(FinalProject(projection, additional), k) == Get(additional, k)
  {
    var grouped := GroupedProjection(Select.ProjectedKeys(projection));
    var project := Merge(grouped, additional);
    MergeGet(grouped, additional, k);
    PutGet(project, "_id", Int(0), k);
  }

  // ---------------------------------------------------------------------
  // Find query or aggregation

  /** The select list calls no function exactly when `parseSelectFields` reports no functions. */
  lemma NoCalls(exprs: seq<Select.SelectExpr>)
    ensures Select.FunctionsOf(exprs) == [] <==> forall i :: 0 <= i < |exprs| ==> !Select.CallsFunction(exprs[i])
  {
    var fs := Select.FunctionsOf(exprs);
    if fs != [] {
      Select.FunctionsOfItems(exprs, fs[0]);
    }
    forall i | 0 <= i < |exprs| && Select.CallsFunction(exprs[i])
      ensures fs != []
    {
      Select.FunctionsOfItems(exprs, exprs[i]);
    }
  }

  /**
   * Unfolds the statement past the WHERE clause and the select list into its
   * find or aggregation branch; FindOrAggregate states the choice in terms of
   * the statement.
   */
  lemma Dispatch(st: SelectStatement, leaf: Reducer.LeafConversion, convert: Select.Converter,
                 filter: Fields, fields: Select.SelectFields)
    requires st.from != [] && Where(st.where, leaf) == Ok(filter) && Select.SelectFieldsSpec(st.exprs) == Ok(fields)
    ensures SelectStatementSpec(st, leaf, convert) ==
      if st.group == [] && fields.functions.None? then FindSpec(st, filter, fields)
      else AggregateSpec(st, filter, fields, leaf, convert)
  {
  }

  /** A validated select list whose calls and HAVING convert is an aggregation over the pipeline. */
  lemma AggregateDispatch(st: SelectStatement, filter: Fields, fields: Select.SelectFields,
                          leaf: Reducer.LeafConversion, convert: Select.Converter,
                          grouping: Select.Grouping, having: Fields)
    requires st.from != []
    requires !Rejected(Select.InvalidOf(Select.ProjectedKeys(fields.projection), GroupMap(st.group)))
    requires Select.SelectFunctionsSpec(fields.functions, convert) == Ok(grouping)
    requires Where(st.having, leaf) == Ok(having)
    ensures AggregateSpec(st, filter, fields, leaf, convert)
         == Ok(Some(Aggregate(st.from[0],
                              Pipelines(filter, Select.NonEmpty(Select.GroupByOf(st.group)), grouping, fields.projection,
                                        having, Select.NonEmpty(Select.SortOf(st.order)),
                                        Select.ParseLimit(st.limit).0, Select.ParseLimit(st.limit).1),
                              Select.ParseHint(st.indexHints))))
  {
  }

  /**
   * An aggregation that validates and converts is the pipeline of its
   * parts: the WHERE filter, the GROUP BY map, the converted calls, the
   * projected columns, HAVING, ORDER BY and LIMIT.
   */
  lemma AggregateQuery(st: SelectStatement, leaf: Reducer.LeafConversion, convert: Select.Converter,
                       filter: Fields, grouping: Select.Grouping, having: Fields)
    requires st.from != [] && Where(st.where, leaf) == Ok(filter) && st.exprs != []
    requires st.group != [] || exists j :: 0 <= j < |st.exprs| && Select.CallsFunction(st.exprs[j])
    requires !Rejected(Select.InvalidOf(Keys(Select.ProjectionOf(st.exprs)), GroupMap(st.group)))
    requires Select.SelectFunctionsSpec(Select.SelectFieldsSpec(st.exprs).value.functions, convert) == Ok(grouping)
    requires Where(st.having, leaf) == Ok(having)
    ensures SelectStatementSpec(st, leaf, convert)
         == Ok(Some(Aggregate(st.from[0],
                              Pipelines(filter, Select.NonEmpty(Select.GroupByOf(st.group)), grouping,
                                        Select.NonEmpty(Select.ProjectionOf(st.exprs)), having,
                                        Select.NonEmpty(Select.SortOf(st.order)),
                                        Select.ParseLimit(st.limit).0, Select.ParseLimit(st.limit).1),
                              Select.ParseHint(st.indexHints))))
  {
    NoCalls(st.exprs);
    var fields := Select.SelectFieldsSpec(st.exprs).value;
    Dispatch(st, leaf, convert, filter, fields);
    assert Select.ProjectedKeys(fields.projection) == Keys(Select.ProjectionOf(st.exprs));
    AggregateDispatch(st, filter, fields, leaf, convert, grouping, having);
  }

  /** The clauses are checked in order: no table, then a bad WHERE, then an empty select list. */
  lemma ErrorPrecedence(st: SelectStatement, leaf: Reducer.LeafConversion, convert: Select.Converter)
    ensures st.from == [] ==> SelectStatementSpec(st, leaf, convert) == Ok(None)
    ensures st.from != [] && Where(st.where, leaf).Err? ==>
      SelectStatementSpec(st, leaf, convert) == Err(Where(st.where, leaf).fault)
    ensures st.from != [] && Where(st.where, leaf).Ok? && st.exprs == [] ==>
      SelectStatementSpec(st, leaf, convert) == Err(InvalidSelectStatement("Invalid SELECT statement"))
  {
  }

  lemma AggregateSpecOk(st: SelectStatement, filter: Fields, fields: Select.SelectFields,
                        leaf: Reducer.LeafConversion, convert: Select.Converter)
    requires st.from != [] && AggregateSpec(st, filter, fields, leaf, convert).Ok?
    ensures var q := AggregateSpec(st, filter, fields, leaf, convert).value;
      q.Some? && q.value.Aggregate? && q.value.collection == st.from[0] && q.value.hint == Select.ParseHint(st.indexHints)
  {
  }

  /** A translated statement queries its first table with its first index hint. */
  lemma CollectionAndHint(st: SelectStatement, leaf: Reducer.LeafConversion, convert: Select.Converter)
    requires st.from != [] && SelectStatementSpec(st, leaf, convert).Ok?
    ensures var q := SelectStatementSpec(st, leaf, convert).value;
      q.Some? && q.value.collection == st.from[0] && q.value.hint == Select.ParseHint(st.indexHints)
  {
    var filter := Where(st.where, leaf).value;
    var fields := Select.SelectFieldsSpec(st.exprs).value;
    Dispatch(st, leaf, convert, filter, fields);
    if !(st.group == [] && fields.functions.None?) {
      AggregateSpecOk(st, filter, fields, leaf, convert);
    }
  }

  /** A query comes out a `FindQuery` exactly when nothing is grouped and nothing is called. */
  lemma FindOrAggregate(st: SelectStatement, leaf: Reducer.LeafConversion, convert: Select.Converter)
    requires SelectStatementSpec(st, leaf, convert).Ok? && SelectStatementSpec(st, leaf, convert).value.Some?
    ensures var q := SelectStatementSpec(st, leaf, convert).value.value;
      q.FindQuery? <==> st.group == [] && forall i :: 0 <= i < |st.exprs| ==> !Select.CallsFunction(st.exprs[i])
    ensures SelectStatementSpec(st, leaf, convert).value.value.FindQuery? ==> st.having == []
  {
    NoCalls(st.exprs);
    var filter := Where(st.where, leaf).value;
    var fields := Select.SelectFieldsSpec(st.exprs).value;
    Dispatch(st, leaf, convert, filter, fields);
    if !(st.group == [] && fields.functions.None?) {
      AggregateSpecOk(st, filter, fields, leaf, convert);
    }
  }

  /**
   * A select list of plain columns without GROUP BY or HAVING is a find:
   * the columns are the projection, ORDER BY the sort, LIMIT the skip and limit.
   */
  lemma PlainSelectIsFind(st: SelectStatement, leaf: Reducer.LeafConversion, convert: Select.Converter, filter: Fields)
    requires st.from != [] && Where(st.where, leaf) == Ok(filter) && st.exprs != []
    requires st.group == [] && st.having == []
    requires forall i :: 0 <= i < |st.exprs| ==> !Select.CallsFunction(st.exprs[i])
    ensures SelectStatementSpec(st, leaf, convert).Ok?
    ensures var q := SelectStatementSpec(st, leaf, convert).value;
      q.Some? && q.value.FindQuery? && q.value.collection == st.from[0] && q.value.filter == filter &&
      q.value.projection == Select.NonEmpty(Select.ProjectionOf(st.exprs)) &&
      q.value.sort == Select.NonEmpty(Select.SortOf(st.order)) &&
      q.value.hint == Select.ParseHint(st.indexHints)
    ensures var q := SelectStatementSpec(st, leaf, convert).value.value;
      (st.limit.None? ==> q.skip == 0 && q.limit == 0) &&
      (st.limit.Some? ==> q.skip == st.limit.value.offset && q.limit == st.limit.value.rowCount)
  {
    NoCalls(st.exprs);
    Dispatch(st, leaf, convert, filter, Select.SelectFieldsSpec(st.exprs).value);
  }

  /** The options a plain find hands the driver: `SELECT * FROM t LIMIT 20, 10` skips 20 and returns 10. */
  lemma PlainSelectOptions(st: SelectStatement, leaf: Reducer.LeafConversion, convert: Select.Converter,
                           filter: Fields, offset: int, rowCount: int, q: Query)
    requires st.from != [] && Where(st.where, leaf) == Ok(filter) && st.exprs != []
    requires st.group == [] && st.having == []
    requires forall i :: 0 <= i < |st.exprs| ==> !Select.CallsFunction(st.exprs[i])
    requires st.limit == Some(Select.Limit(offset, rowCount))
    requires SelectStatementSpec(st, leaf, convert) == Ok(Some(q))
    ensures q.FindQuery?
    ensures Get(GetOptions(q), "skip") == Some(NonZero(offset)) && Get(GetOptions(q), "limit") == Some(NonZero(rowCount))
  {
    PlainSelectIsFind(st, leaf, convert, filter);
  }

  /** HAVING needs GROUP BY or a function call. */
  lemma HavingNeedsGroupBy(st: SelectStatement, leaf: Reducer.LeafConversion, convert: Select.Converter)
    requires st.from != [] && Where(st.where, leaf).Ok? && st.exprs != []
    requires st.group == [] && st.having != []
    requires forall i :: 0 <= i < |st.exprs| ==> !Select.CallsFunction(st.exprs[i])
    ensures SelectStatementSpec(st, leaf, convert) == Err(InvalidSelectStatement("Cannot use having without group by"))
  {
    NoCalls(st.exprs);
    var filter := Where(st.where, leaf).value;
    var fields := Select.SelectFieldsSpec(st.exprs).value;
    Dispatch(st, leaf, convert, filter, fields);
  }

  // ---------------------------------------------------------------------
  // Validation of the select list against GROUP BY

  lemma GroupMapKeys(group: seq<string>, k: string)
    ensures HasKey(GroupMap(group), k) <==> exists j :: 0 <= j < |group| && Select.GroupKey(group[j]) == k
  {
    Select.GroupByKeys(group, k);
  }

  /**
   * In an aggregation, a selected column that is no GROUP BY column is an
   * error naming it (unless it is `_id`).
   */
  lemma UngroupedColumnRejected(st: SelectStatement, leaf: Reducer.LeafConversion, convert: Select.Converter, i: nat)
    requires st.from != [] && Where(st.where, leaf).Ok? && st.exprs != []
    requires st.group != [] || exists j :: 0 <= j < |st.exprs| && Select.CallsFunction(st.exprs[j])
    requires i < |st.exprs| && Select.Projects(st.exprs[i])
    requires Select.Renamed(Leaf.GetStringValue(st.exprs[i].expr)) != "_id"
    requires forall j :: 0 <= j < |st.group| ==> Select.GroupKey(st.group[j]) != Select.Renamed(Leaf.GetStringValue(st.exprs[i].expr))
    ensures var r := SelectStatementSpec(st, leaf, convert);
      r.Err? && r.fault.InvalidSelectField? &&
      Select.Renamed(Leaf.GetStringValue(st.exprs[i].expr)) in r.fault.fields
  {
    NoCalls(st.exprs);
    var filter := Where(st.where, leaf).value;
    var fields := Select.SelectFieldsSpec(st.exprs).value;
    Dispatch(st, leaf, convert, filter, fields);
    UngroupedInvalid(st.exprs, st.group, i);
    var invalid := Select.InvalidOf(Keys(Select.ProjectionOf(st.exprs)), GroupMap(st.group));
    assert Select.ProjectedKeys(fields.projection) == Keys(Select.ProjectionOf(st.exprs));
    assert AggregateSpec(st, filter, fields, leaf, convert) == Err(InvalidSelectField(Keys(invalid)));
  }

  /** The validation step of UngroupedColumnRejected: the column is reported and the select list is rejected. */
  lemma UngroupedInvalid(exprs: seq<Select.SelectExpr>, group: seq<string>, i: nat)
    requires i < |exprs| && Select.Projects(exprs[i])
    requires Select.Renamed(Leaf.GetStringValue(exprs[i].expr)) != "_id"
    requires forall j :: 0 <= j < |group| ==> Select.GroupKey(group[j]) != Select.Renamed(Leaf.GetStringValue(exprs[i].expr))
    ensures var invalid := Select.InvalidOf(Keys(Select.ProjectionOf(exprs)), GroupMap(group));
      Rejected(invalid) && Select.Renamed(Leaf.GetStringValue(exprs[i].expr)) in Keys(invalid)
  {
    var name := Leaf.GetStringValue(exprs[i].expr);
    var k := Select.Renamed(name);
    var columns := Keys(Select.ProjectionOf(exprs));
    Select.ProjectionKeys(exprs, name);
    var n :| 0 <= n < |columns| && columns[n] == name;
    GroupMapKeys(group, k);
    var invalid := Select.InvalidOf(columns, GroupMap(group));
    Select.InvalidKeys(columns, GroupMap(group), k);
    RejectedByOtherKey(invalid, k);
  }

  /** A report naming any column other than `_id` rejects the select list. */
  lemma RejectedByOtherKey(invalid: Fields, k: string)
    requires HasKey(invalid, k) && k != "_id"
    ensures Rejected(invalid)
  {
    if |invalid| == 1 {
      assert Keys(invalid) == [invalid[0].0];
      if HasKey(invalid, "_id") {
        assert false;
      }
    }
  }

  /**
   * A grouped select list whose every column is a GROUP BY column passes
   * validation: the outcome is the aggregation, unless a call or HAVING fails.
   */
  lemma GroupedColumnsAccepted(st: SelectStatement, leaf: Reducer.LeafConversion, convert: Select.Converter)
    requires st.from != [] && Where(st.where, leaf).Ok? && st.exprs != [] && st.group != []
    requires forall i :: 0 <= i < |st.exprs| && Select.Projects(st.exprs[i]) ==>
      exists j :: 0 <= j < |st.group| && Leaf.GetStringValue(st.group[j]) == Leaf.GetStringValue(st.exprs[i].expr)
    requires Select.SelectFunctionsSpec(Select.SelectFieldsSpec(st.exprs).value.functions, convert).Ok?
    requires Where(st.having, leaf).Ok?
    ensures var r := SelectStatementSpec(st, leaf, convert);
      r.Ok? && r.value.Some? && r.value.value.Aggregate? && r.value.value.collection == st.from[0]
  {
    var grouping := Select.SelectFunctionsSpec(Select.SelectFieldsSpec(st.exprs).value.functions, convert).value;
    var having := Where(st.having, leaf).value;
    Select.GroupedColumnsAreValid(st.exprs, st.group);
    assert GroupMap(st.group) == Select.GroupByOf(st.group);
    AggregateQuery(st, leaf, convert, Where(st.where, leaf).value, grouping, having);
  }

  /** A find branch that succeeds yields a `FindQuery`. */
  lemma FindSpecIsFind(st: SelectStatement, filter: Fields, fields: Select.SelectFields)
    requires st.from != []
    ensures FindSpec(st, filter, fields).Ok? ==>
      FindSpec(st, filter, fields).value.Some? && FindSpec(st, filter, fields).value.value.FindQuery?
  {
  }

  /** An aggregation's stages: the WHERE filter, the grouping, then the optional stages in their order. */
  lemma AggregateSpecStages(st: SelectStatement, filter: Fields, fields: Select.SelectFields,
                            leaf: Reducer.LeafConversion, convert: Select.Converter)
    requires st.from != [] && AggregateSpec(st, filter, fields, leaf, convert).Ok?
    ensures Where(st.having, leaf).Ok?
    ensures var q := AggregateSpec(st, filter, fields, leaf, convert).value;
      q.Some? && q.value.Aggregate? &&
      var ps := q.value.pipelines;
      |ps| >= 2 && ps[0] == Stage("$match", if filter == [] then EmptyObject else Obj(filter)) &&
      StageName(ps[1]) == "$group" &&
      (forall i, j :: 0 <= i < j < |ps[2..]| ==> Rank(StageName(ps[2..][i])) < Rank(StageName(ps[2..][j]))) &&
      ("$sort" in Names(ps[2..]) <==> st.order != []) &&
      ("$skip" in Names(ps[2..]) <==> st.limit.Some? && st.limit.value.offset != 0) &&
      ("$limit" in Names(ps[2..]) <==> st.limit.Some? && st.limit.value.rowCount != 0) &&
      ("$match" in Names(ps[2..]) <==> Where(st.having, leaf).value != [])
  {
    AggregateSpecUnfold(st, filter, fields, leaf, convert);
    PipelineOrder(filter, Select.NonEmpty(Select.GroupByOf(st.group)),
                  Select.SelectFunctionsSpec(fields.functions, convert).value, fields.projection,
                  Where(st.having, leaf).value, st.order, st.limit);
  }

  /** The pipeline's stages for the clauses as the statement states them. */
  lemma PipelineOrder(filter: Fields, groupBy: Option<Fields>, grouping: Select.Grouping, projection: Option<Fields>,
                      having: Fields, order: seq<Select.Order>, limit: Option<Select.Limit>)
    ensures var bounds := Select.ParseLimit(limit);
      var ps := Pipelines(filter, groupBy, grouping, projection, having, Select.NonEmpty(Select.SortOf(order)),
                          bounds.0, bounds.1);
      |ps| >= 2 && ps[0] == Stage("$match", if filter == [] then EmptyObject else Obj(filter)) &&
      StageName(ps[1]) == "$group" &&
      (forall i, j :: 0 <= i < j < |ps[2..]| ==> Rank(StageName(ps[2..][i])) < Rank(StageName(ps[2..][j]))) &&
      ("$sort" in Names(ps[2..]) <==> order != []) &&
      ("$skip" in Names(ps[2..]) <==> limit.Some? && limit.value.offset != 0) &&
      ("$limit" in Names(ps[2..]) <==> limit.Some? && limit.value.rowCount != 0) &&
      ("$match" in Names(ps[2..]) <==> having != [])
  {
    var bounds := Select.ParseLimit(limit);
    SortPresent(order);
    PipelineShape(filter, groupBy, grouping, projection, having, Select.NonEmpty(Select.SortOf(order)),
                  bounds.0, bounds.1);
  }

  lemma AggregateSpecUnfold(st: SelectStatement, filter: Fields, fields: Select.SelectFields,
                            leaf: Reducer.LeafConversion, convert: Select.Converter)
    requires st.from != [] && AggregateSpec(st, filter, fields, leaf, convert).Ok?
    ensures Where(st.having, leaf).Ok? && Select.SelectFunctionsSpec(fields.functions, convert).Ok?
    ensures var bounds := Select.ParseLimit(st.limit);
      AggregateSpec(st, filter, fields, leaf, convert).value ==
      Some(Aggregate(st.from[0],
                     Pipelines(filter, Select.NonEmpty(Select.GroupByOf(st.group)),
                               Select.SelectFunctionsSpec(fields.functions, convert).value, fields.projection,
                               Where(st.having, leaf).value, Select.NonEmpty(Select.SortOf(st.order)), bounds.0, bounds.1),
                     Select.ParseHint(st.indexHints)))
  {
  }

  lemma SortPresent(order: seq<Select.Order>)
    ensures Select.NonEmpty(Select.SortOf(order)).Some? <==> order != []
  {
    Select.PutEachEmpty(order, Select.Always, Select.SortKey, Select.Direction);
    if order != [] {
      assert Select.Always(order[0]);
    }
  }

  /** An aggregation's stages: the WHERE filter, the grouping, then the optional stages in their order. */
  lemma AggregateStages(st: SelectStatement, leaf: Reducer.LeafConversion, convert: Select.Converter, q: Query)
    requires SelectStatementSpec(st, leaf, convert) == Ok(Some(q)) && q.Aggregate?
    ensures Where(st.where, leaf).Ok? && Where(st.having, leaf).Ok?
    ensures var ps := q.pipelines;
      var filter := Where(st.where, leaf).value;
      |ps| >= 2 && ps[0] == Stage("$match", if filter == [] then EmptyObject else Obj(filter)) &&
      StageName(ps[1]) == "$group" &&
      (forall i, j :: 0 <= i < j < |ps[2..]| ==> Rank(StageName(ps[2..][i])) < Rank(StageName(ps[2..][j]))) &&
      ("$sort" in Names(ps[2..]) <==> st.order != []) &&
      ("$skip" in Names(ps[2..]) <==> st.limit.Some? && st.limit.value.offset != 0) &&
      ("$limit" in Names(ps[2..]) <==> st.limit.Some? && st.limit.value.rowCount != 0) &&
      ("$match" in Names(ps[2..]) <==> Where(st.having, leaf).value != [])
  {
    var filter := Where(st.where, leaf).value;
    var fields := Select.SelectFieldsSpec(st.exprs).value;
    Dispatch(st, leaf, convert, filter, fields);
    FindSpecIsFind(st, filter, fields);
    if !(st.group == [] && fields.functions.None?) {
      AggregateSpecStages(st, filter, fields, leaf, convert);
    }
  }

  // ---------------------------------------------------------------------
  // The registry and `parse`

  /** A second instance seeds nothing new: builders registered earlier, defaults included, stay. */
  lemma SeedingIsIdempotent(existing: Leaf.Registry, date: Leaf.Builder, objectId: Leaf.Builder,
                            date2: Leaf.Builder, objectId2: Leaf.Builder)
    ensures Seeded(Seeded(existing, date, objectId), date2, objectId2) == Seeded(existing, date, objectId)
  {
    var once := Seeded(existing, date, objectId);
    var twice := Seeded(once, date2, objectId2);
    assert twice.Keys == once.Keys;
  }

  /** Removing a builder just added restores the registry, when the name was free. */
  lemma RemoveUndoesAdd(builders: Leaf.Registry, name: string, builder: Leaf.Builder)
    requires name !in builders
    ensures builders[name := builder] - {name} == builders
  {
    var after := builders[name := builder] - {name};
    assert after.Keys == builders.Keys;
  }

  /** Only SELECT statements translate; anything else is an error naming what it was. */
  lemma OnlySelectTranslates(p: Parsed, leaf: Reducer.LeafConversion, convert: Select.Converter)
    ensures ParseSpec(p, leaf, convert).Ok? ==> p.SelectOf?
    ensures p.NoStatement? ==> ParseSpec(p, leaf, convert) == Err(InvalidSqlQuery)
    ensures p.OtherStatement? ==> ParseSpec(p, leaf, convert) == Err(NotSupportStatement(p.kind))
    ensures p.SelectOf? ==> ParseSpec(p, leaf, convert) == SelectStatementSpec(p.statement, leaf, convert)
  {
  }
}
