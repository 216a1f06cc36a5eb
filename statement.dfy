/**
 * `SqlToMongodbQuery` itself: its registry of inline-function builders,
 * `parse`, and the assembly of a SELECT statement into a `FindQuery` or an
 * aggregation pipeline.
 */
module Statement {

  import opened Php
  import opened Strings
  import Leaf
  import Reducer
  import Select
  import opened QueryModel

  /** The parts of a SELECT statement the translator reads. */
  datatype SelectStatement = SelectStatement(
    from: seq<string>,
    where: seq<Reducer.Condition>,
    exprs: seq<Select.SelectExpr>,
    group: seq<string>,
    having: seq<Reducer.Condition>,
    order: seq<Select.Order>,
    limit: Option<Select.Limit>,
    indexHints: seq<seq<Select.IndexName>>)

  /** The first statement the SQL parser found in the text, if any. */
  datatype Parsed =
    | NoStatement
    | SelectOf(statement: SelectStatement)
    /** Any other kind of statement, named by its class. */
    | OtherStatement(kind: string)

  // ---------------------------------------------------------------------
  // The registry

  /** The constructor's seeding: `date`, `ObjectId` and `Id` are added when absent. */
  function Seeded(existing: Leaf.Registry, date: Leaf.Builder, objectId: Leaf.Builder): (r: Leaf.Registry)
    ensures r.Keys == existing.Keys + {"date", "ObjectId", "Id"}
    ensures forall k :: k in existing ==> r[k] == existing[k]
    ensures "date" !in existing ==> r["date"] == date
    ensures "ObjectId" !in existing ==> r["ObjectId"] == objectId
    ensures "Id" !in existing ==> r["Id"] == objectId
  {
    var withDate := if "date" in existing then existing else existing["date" := date];
    var withObjectId := if "ObjectId" in withDate then withDate else withDate["ObjectId" := objectId];
    if "Id" in withObjectId then withObjectId else withObjectId["Id" := objectId]
  }

  // ---------------------------------------------------------------------
  // parseWhere, parseHaving

  /** An absent clause is the empty filter; any other is reduced. */
  function Where(cs: seq<Reducer.Condition>, leaf: Reducer.LeafConversion): Result<Fields> {
    if cs == [] then Ok([]) else Reducer.Reduce(cs, leaf)
  }

  // ---------------------------------------------------------------------
  // The pipeline

  /** A pipeline stage `[$name => $value]`. */
  function Stage(name: string, value: V): V {
    Obj([(name, value)])
  }

  function OptionalStage(present: bool, name: string, value: V): seq<V> {
    if present then [Stage(name, value)] else []
  }

  function Same(field: string): string {
    field
  }

  /** A selected column read back from the group key. */
  function IdPath(field: string): V {
    Str("$_id." + Select.Dotted(field))
  }

  /** `$project[$field] = '$_id.' . strtr($field, ...)` for each selected column. */
  function GroupedProjection(fields: seq<string>): Fields {
    Select.PutEach(fields, Select.Always, Same, IdPath)
  }

  /** The `$project` map: grouped columns, then the aggregate projections, `_id` hidden unless set. */
  function FinalProject(projection: Option<Fields>, additional: Fields): Fields {
    var project := Merge(GroupedProjection(Select.ProjectedKeys(projection)), additional);
    if !IsSet(project, "_id") && project != [] then Put(project, "_id", Int(0)) else project
  }

  /** The `$group` stage's document: `_id` first, then the accumulators. */
  function GroupDocument(groupBy: Option<Fields>, results: Fields): Fields {
    Merge([("_id", OptionalFields(groupBy))], results)
  }

  /** The aggregation pipeline, stage by stage. */
  function Pipelines(filter: Fields, groupBy: Option<Fields>, grouping: Select.Grouping, projection: Option<Fields>,
                     having: Fields, sort: Option<Fields>, skip: int, limit: int): seq<V>
  {
    [Stage("$match", if filter == [] then EmptyObject else Obj(filter)),
     Stage("$group", Obj(GroupDocument(groupBy, grouping.results)))]
    + PipelineTail(FinalProject(projection, grouping.projects), having, sort, skip, limit)
  }

  /** The stages after `$group`, each added only when its clause produced something. */
  function PipelineTail(project: Fields, having: Fields, sort: Option<Fields>, skip: int, limit: int): seq<V> {
    OptionalStage(project != [], "$project", Obj(project))
    + OptionalStage(having != [], "$match", Obj(having))
    + OptionalStage(sort.Some?, "$sort", OptionalFields(sort))
    + OptionalStage(skip != 0, "$skip", Int(skip))
    + OptionalStage(limit != 0, "$limit", Int(limit))
  }

  /** Some column outside GROUP BY is selected; `_id` alone is let through. */
  predicate Rejected(invalid: Fields) {
    |invalid| > 0 && !(|invalid| == 1 && IsSet(invalid, "_id"))
  }

  // ---------------------------------------------------------------------
  // parseSelectStatement, parse

  /** The grouping map `validateSelect` compares against: empty without GROUP BY. */
  function GroupMap(group: seq<string>): Fields {
    var groupBy := Select.NonEmpty(Select.GroupByOf(group));
    if groupBy.Some? then groupBy.value else []
  }

  /** `parseSelectStatement`: nothing without a table; otherwise a find or an aggregation. */
  function SelectStatementSpec(st: SelectStatement, leaf: Reducer.LeafConversion, convert: Select.Converter)
    : Result<Option<Query>>
  {
    if st.from == [] then Ok(None)
    else
      var filter :- Where(st.where, leaf);
      var fields :- Select.SelectFieldsSpec(st.exprs);
      if st.group == [] && fields.functions.None? then FindSpec(st, filter, fields)
      else AggregateSpec(st, filter, fields, leaf, convert)
  }

  /** Without GROUP BY and calls: a `FindQuery`, provided there is no HAVING. */
  function FindSpec(st: SelectStatement, filter: Fields, fields: Select.SelectFields): Result<Option<Query>>
    requires st.from != []
  {
    if st.having != [] then Err(InvalidSelectStatement("Cannot use having without group by"))
    else
      var bounds := Select.ParseLimit(st.limit);
      Ok(Some(FindQuery(st.from[0], filter, fields.projection, Select.NonEmpty(Select.SortOf(st.order)),
                        bounds.1, bounds.0, Select.ParseHint(st.indexHints))))
  }

  /** With GROUP BY or calls: the select list is validated, then the pipeline is built. */
  function AggregateSpec(st: SelectStatement, filter: Fields, fields: Select.SelectFields,
                         leaf: Reducer.LeafConversion, convert: Select.Converter): Result<Option<Query>>
    requires st.from != []
  {
    var invalid := Select.InvalidOf(Select.ProjectedKeys(fields.projection), GroupMap(st.group));
    if Rejected(invalid) then Err(InvalidSelectField(Keys(invalid)))
    else GroupedSpec(st, filter, fields, leaf, convert)
  }

  lemma AggregateValidated(st: SelectStatement, filter: Fields, fields: Select.SelectFields,
                           leaf: Reducer.LeafConversion, convert: Select.Converter)
    requires st.from != []
    ensures var invalid := Select.InvalidOf(Select.ProjectedKeys(fields.projection), GroupMap(st.group));
      AggregateSpec(st, filter, fields, leaf, convert) ==
      if Rejected(invalid) then Err(InvalidSelectField(Keys(invalid))) else GroupedSpec(st, filter, fields, leaf, convert)
  {
  }

  /** A validated aggregation: the accumulators, the HAVING filter, then the pipeline. */
  function GroupedSpec(st: SelectStatement, filter: Fields, fields: Select.SelectFields,
                       leaf: Reducer.LeafConversion, convert: Select.Converter): Result<Option<Query>>
    requires st.from != []
  {
    var grouping :- Select.SelectFunctionsSpec(fields.functions, convert);
    var having :- Where(st.having, leaf);
    var bounds := Select.ParseLimit(st.limit);
    Ok(Some(Aggregate(st.from[0],
                      Pipelines(filter, Select.NonEmpty(Select.GroupByOf(st.group)), grouping, fields.projection,
                                having, Select.NonEmpty(Select.SortOf(st.order)), bounds.0, bounds.1),
                      Select.ParseHint(st.indexHints))))
  }

  function ParseSpec(p: Parsed, leaf: Reducer.LeafConversion, convert: Select.Converter): Result<Option<Query>> {
    match p
    case NoStatement => Err(InvalidSqlQuery)
    case SelectOf(st) => SelectStatementSpec(st, leaf, convert)
    case OtherStatement(kind) => Err(NotSupportStatement(kind))
  }

  /** The `foreach` over the selected columns. */
  method ProjectGrouped(fields: seq<string>) returns (project: Fields)
    ensures project == GroupedProjection(fields)
  {
    project := [];
    for i := 0 to |fields|
      invariant project == GroupedProjection(fields[..i])
    {
      assert fields[..i + 1][..i] == fields[..i];
      project := Put(project, fields[i], Str("$_id." + Select.Dotted(fields[i])));
    }
    assert fields[..|fields|] == fields;
  }

  /** The `$project` map, built as `parseSelectStatement` builds it. */
  method BuildProject(projection: Option<Fields>, additional: Fields) returns (project: Fields)
    ensures project == FinalProject(projection, additional)
  {
    project := ProjectGrouped(Select.ProjectedKeys(projection));
    project := Merge(project, additional);
    if !IsSet(project, "_id") && project != [] {
      project := Put(project, "_id", Int(0));
    }
  }

  /** One `if (...) $pipelines[] = [...]` of `parseSelectStatement`. */
  method AddStage(pipelines: seq<V>, present: bool, name: string, value: V) returns (r: seq<V>)
    ensures r == pipelines + OptionalStage(present, name, value)
  {
    r := pipelines;
    if present {
      r := r + [Stage(name, value)];
    }
  }

  method AssemblePipelines(filter: Fields, groupBy: Option<Fields>, grouping: Select.Grouping,
                           projection: Option<Fields>, having: Fields, sort: Option<Fields>, skip: int, limit: int)
    returns (pipelines: seq<V>)
    ensures pipelines == Pipelines(filter, groupBy, grouping, projection, having, sort, skip, limit)
  {
    var head := [Stage("$match", if filter == [] then EmptyObject else Obj(filter)),
                 Stage("$group", Obj(Merge([("_id", OptionalFields(groupBy))], grouping.results)))];
    var project := BuildProject(projection, grouping.projects);
    var tail := AddStage([], project != [], "$project", Obj(project));
    assert tail == OptionalStage(project != [], "$project", Obj(project));
    tail := AddStage(tail, having != [], "$match", Obj(having));
    tail := AddStage(tail, sort.Some?, "$sort", OptionalFields(sort));
    tail := AddStage(tail, skip != 0, "$skip", Int(skip));
    tail := AddStage(tail, limit != 0, "$limit", Int(limit));
    assert tail == PipelineTail(project, having, sort, skip, limit);
    assert head == [Stage("$match", if filter == [] then EmptyObject else Obj(filter)),
                    Stage("$group", Obj(GroupDocument(groupBy, grouping.results)))];
    pipelines := head + tail;
  }

  /** The translator; its `builders` are the class's static registry of inline functions. */
  class Translator {

    var builders: Leaf.Registry

    /** `existing` is the registry as earlier instances left it. */
    constructor(existing: Leaf.Registry, date: Leaf.Builder, objectId: Leaf.Builder)
      ensures builders == Seeded(existing, date, objectId)
    {
      builders := existing;
      new;
      if "date" !in builders {
        AddInlineFunctionBuilder("date", date);
      }
      if "ObjectId" !in builders {
        AddInlineFunctionBuilder("ObjectId", objectId);
      }
      if "Id" !in builders {
        AddInlineFunctionBuilder("Id", objectId);
      }
    }

    /** `addInlineFunctionBuilder`: a later builder replaces an earlier one of the same name. */
    method AddInlineFunctionBuilder(name: string, builder: Leaf.Builder)
      modifies this
      ensures builders == old(builders)[name := builder]
    {
      builders := builders[name := builder];
    }

    /** `removeInlineFunctionBuilder`. */
    method RemoveInlineFunctionBuilder(name: string)
      modifies this
      ensures builders == old(builders) - {name}
    {
      builders := builders - {name};
    }

    method ParseWhere(cs: seq<Reducer.Condition>, salt: string) returns (r: Result<Fields>)
      ensures r == Where(cs, Reducer.LeafOf(builders, salt))
    {
      if cs == [] {
        return Ok([]);
      }
      r := Reducer.ParseWhereConditions(cs, builders, salt);
    }

    /**
     * `parseSelectStatement`. `salt` stands for the `time().rand()` prefix
     * of placeholders, `hash` for `md5(json_encode(...))` and `before` for
     * `str_before`.
     */
    method ParseSelectStatement(st: SelectStatement, salt: string, hash: V -> string, before: string -> string)
      returns (r: Result<Option<Query>>)
      ensures r == SelectStatementSpec(st, Reducer.LeafOf(builders, salt), Select.ConverterOf(hash, before))
    {
      if st.from == [] {
        return Ok(None);
      }
      var filter := ParseWhere(st.where, salt);
      if filter.Err? {
        return Err(filter.fault);
      }
      var fields := Select.ParseSelectFields(st.exprs);
      if fields.Err? {
        return Err(fields.fault);
      }
      if st.group == [] && fields.value.functions.None? {
        r := ParseFind(st, filter.value, fields.value);
      } else {
        r := ParseAggregate(st, filter.value, fields.value, salt, hash, before);
      }
    }

    /** The find branch of `parseSelectStatement`: no GROUP BY and no calls. */
    method ParseFind(st: SelectStatement, filter: Fields, fields: Select.SelectFields) returns (r: Result<Option<Query>>)
      requires st.from != []
      ensures r == FindSpec(st, filter, fields)
    {
      var sort := Select.ParseSort(st.order);
      var bounds := Select.ParseLimit(st.limit);
      var hint := Select.ParseHint(st.indexHints);
      if st.having != [] {
        return Err(InvalidSelectStatement("Cannot use having without group by"));
      }
      return Ok(Some(FindQuery(st.from[0], filter, fields.projection, sort, bounds.1, bounds.0, hint)));
    }

    /** The aggregation branch of `parseSelectStatement`. */
    method ParseAggregate(st: SelectStatement, filter: Fields, fields: Select.SelectFields,
                          salt: string, hash: V -> string, before: string -> string)
      returns (r: Result<Option<Query>>)
      requires st.from != []
      ensures r == AggregateSpec(st, filter, fields, Reducer.LeafOf(builders, salt), Select.ConverterOf(hash, before))
    {
      ghost var leaf, convert := Reducer.LeafOf(builders, salt), Select.ConverterOf(hash, before);
      var groupBy := Select.ParseGroupBy(st.group);
      var groupMap := if groupBy.Some? then groupBy.value else [];
      assert groupMap == GroupMap(st.group);
      var invalid := Select.ValidateSelect(fields.projection, groupMap);
      AggregateValidated(st, filter, fields, leaf, convert);
      if Rejected(invalid) {
        return Err(InvalidSelectField(Keys(invalid)));
      }
      r := ParseGrouped(st, filter, fields, groupBy, salt, hash, before);
    }

    /** The pipeline of a validated aggregation. */
    method ParseGrouped(st: SelectStatement, filter: Fields, fields: Select.SelectFields, groupBy: Option<Fields>,
                        salt: string, hash: V -> string, before: string -> string)
      returns (r: Result<Option<Query>>)
      requires st.from != [] && groupBy == Select.NonEmpty(Select.GroupByOf(st.group))
      ensures r == GroupedSpec(st, filter, fields, Reducer.LeafOf(builders, salt), Select.ConverterOf(hash, before))
    {
      var projection := fields.projection;
      var sort := Select.ParseSort(st.order);
      var bounds := Select.ParseLimit(st.limit);
      var hint := Select.ParseHint(st.indexHints);
      var grouping := Select.ParseSelectFunctions(fields.functions, hash, before);
      if grouping.Err? {
        return Err(grouping.fault);
      }
      var having := ParseWhere(st.having, salt);
      if having.Err? {
        return Err(having.fault);
      }
      var pipelines := AssemblePipelines(filter, groupBy, grouping.value, projection, having.value,
                                         sort, bounds.0, bounds.1);
      r := Ok(Some(Aggregate(st.from[0], pipelines, hint)));
    }

    /** `parse`: only SELECT statements are translated. */
    method Parse(p: Parsed, salt: string, hash: V -> string, before: string -> string)
      returns (r: Result<Option<Query>>)
      ensures r == ParseSpec(p, Reducer.LeafOf(builders, salt), Select.ConverterOf(hash, before))
    {
      match p
      case NoStatement =>
        r := Err(InvalidSqlQuery);
      case SelectOf(st) =>
        r := ParseSelectStatement(st, salt, hash, before);
      case OtherStatement(kind) =>
        r := Err(NotSupportStatement(kind));
    }
  }
}
