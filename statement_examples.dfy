/**
 * Whole statements worked through the model, one per documented example:
 * the statement as the SQL parser hands it over, and the query that comes
 * out. The WHERE and HAVING reductions and the call conversion stay
 * parameters, so each example holds for every filter they produce.
 */
module StatementExamples {

  import opened Php
  import Leaf
  import Reducer
  import Select
  import opened QueryModel
  import opened Statement
  import StatementLemmas

  function Column(name: string): Select.SelectExpr {
    Select.SelectExpr(name, None, None)
  }

  /** A plain, unquoted column is projected under its own name. */
  lemma PlainColumn(name: string)
    requires |name| > 0 && name[0] !in Leaf.Quotes && name != "0" && name != "*"
    ensures Select.Projects(Column(name)) && Select.ProjectedName(Column(name)) == name
    ensures !Select.CallsFunction(Column(name))
  {
  }

  /** The projection of two plain columns, built one column at a time. */
  lemma TwoColumns(a: string, b: string)
    requires |a| > 0 && a[0] !in Leaf.Quotes && a != "0" && a != "*"
    requires |b| > 0 && b[0] !in Leaf.Quotes && b != "0" && b != "*" && a != b
    ensures Select.ProjectionOf([Column(a), Column(b)]) == [(a, Int(1)), (b, Int(1))]
    ensures Select.FunctionsOf([Column(a), Column(b)]) == []
  {
    PlainColumn(a);
    PlainColumn(b);
    Select.PutEachSnoc([], Column(a), Select.Projects, Select.ProjectedName, Select.Included);
    assert [] + [Column(a)] == [Column(a)];
    Select.PutEachSnoc([Column(a)], Column(b), Select.Projects, Select.ProjectedName, Select.Included);
    assert [Column(a)] + [Column(b)] == [Column(a), Column(b)];
    assert [Column(a), Column(b)][..1] == [Column(a)] && [Column(a)][..0] == [];
    StatementLemmas.NoCalls([Column(a), Column(b)]);
  }

  lemma OneColumn(a: string)
    requires |a| > 0 && a[0] !in Leaf.Quotes && a != "0" && a != "*"
    ensures Select.ProjectionOf([Column(a)]) == [(a, Int(1))]
    ensures Select.FunctionsOf([Column(a)]) == []
  {
    PlainColumn(a);
    Select.PutEachSnoc([], Column(a), Select.Projects, Select.ProjectedName, Select.Included);
    assert [] + [Column(a)] == [Column(a)];
    StatementLemmas.NoCalls([Column(a)]);
  }

  /** GROUP BY one plain column without dots: `_id` is `{column: "$column"}`. */
  lemma GroupOn(a: string)
    requires |a| > 0 && a[0] !in Leaf.Quotes && '.' !in a
    ensures GroupMap([a]) == [(a, Str("$" + a))]
    ensures Select.NonEmpty(Select.GroupByOf([a])) == Some([(a, Str("$" + a))])
  {
    Select.DottedRemovesDots(a);
    Select.PutEachSnoc([], a, Select.Always, Select.GroupKey, Select.GroupPath);
    assert [] + [a] == [a];
  }

  /** `SELECT * FROM users`: the whole collection, with every option at its default. */
  lemma SelectStar(leaf: Reducer.LeafConversion, convert: Select.Converter)
    ensures SelectStatementSpec(SelectStatement(["users"], [], [Column("*")], [], [], [], None, []), leaf, convert)
         == Ok(Some(FindQuery("users", [])))
  {
    var exprs := [Column("*")];
    assert exprs[..0] == [];
    assert Select.ProjectionOf(exprs) == [];
    assert Select.FunctionsOf(exprs) == [];
    assert Select.SortOf([]) == [];
  }

  /** `SELECT id, name FROM users`: both columns projected. */
  lemma SelectColumns(leaf: Reducer.LeafConversion, convert: Select.Converter)
    ensures SelectStatementSpec(SelectStatement(["users"], [], [Column("id"), Column("name")], [], [], [], None, []),
                                leaf, convert)
         == Ok(Some(FindQuery("users", [], Some([("id", Int(1)), ("name", Int(1))]))))
  {
    TwoColumns("id", "name");
  }

  /**
   * `SELECT id, name FROM users USE INDEX index_name WHERE ... ORDER BY
   * created_at DESC LIMIT 20`: the options the driver receives.
   */
  lemma FindOptions(where: seq<Reducer.Condition>, filter: Fields, leaf: Reducer.LeafConversion,
                    convert: Select.Converter)
    requires Where(where, leaf) == Ok(filter)
    ensures var st := SelectStatement(["users"], where, [Column("id"), Column("name")], [], [],
                                      [Select.Order("created_at", "DESC")], Some(Select.Limit(0, 20)),
                                      [[Select.IndexName(None, "index_name")]]);
      var r := SelectStatementSpec(st, leaf, convert);
      r.Ok? && r.value.Some? && r.value.value.FindQuery? &&
      GetOptions(r.value.value)
        == [("skip", Null), ("limit", Int(20)), ("projection", Obj([("id", Int(1)), ("name", Int(1))])),
            ("sort", Obj([("created_at", Int(-1))])), ("hint", Str("index_name"))]
  {
    var order := [Select.Order("created_at", "DESC")];
    TwoColumns("id", "name");
    assert order[..0] == [];
    assert Select.SortOf(order) == [("created_at", Int(-1))];
  }

  /**
   * `SELECT user_id FROM logs WHERE ... GROUP BY user_id`: three stages,
   * the filter, the group on `user_id`, and the column read back from `_id`.
   */
  lemma GroupedColumn(where: seq<Reducer.Condition>, filter: Fields, leaf: Reducer.LeafConversion,
                      convert: Select.Converter)
    requires Where(where, leaf) == Ok(filter)
    ensures SelectStatementSpec(SelectStatement(["logs"], where, [Column("user_id")], ["user_id"], [], [], None, []),
                                leaf, convert)
         == Ok(Some(Aggregate("logs", [
              Stage("$match", if filter == [] then EmptyObject else Obj(filter)),
              Stage("$group", Obj([("_id", Obj([("user_id", Str("$user_id"))]))])),
              Stage("$project", Obj([("user_id", Str("$_id.user_id")), ("_id", Int(0))]))])))
  {
    GroupedColumnQuery(where, filter, leaf, convert);
    UserIdPipeline(filter);
  }

  lemma GroupedColumnQuery(where: seq<Reducer.Condition>, filter: Fields, leaf: Reducer.LeafConversion,
                           convert: Select.Converter)
    requires Where(where, leaf) == Ok(filter)
    ensures SelectStatementSpec(SelectStatement(["logs"], where, [Column("user_id")], ["user_id"], [], [], None, []),
                                leaf, convert)
         == Ok(Some(Aggregate("logs", Pipelines(filter, Select.NonEmpty(Select.GroupByOf(["user_id"])),
                                                Select.Grouping([], []), Select.NonEmpty(Select.ProjectionOf([Column("user_id")])),
                                                [], Select.NonEmpty(Select.SortOf([])), 0, 0))))
  {
    var st := SelectStatement(["logs"], where, [Column("user_id")], ["user_id"], [], [], None, []);
    UserIdAccepted(convert);
    StatementLemmas.AggregateQuery(st, leaf, convert, filter, Select.Grouping([], []), []);
  }

  /** Selecting the grouped column alone passes validation and computes no accumulator. */
  lemma UserIdAccepted(convert: Select.Converter)
    ensures !Rejected(Select.InvalidOf(Keys(Select.ProjectionOf([Column("user_id")])), GroupMap(["user_id"])))
    ensures Select.SelectFunctionsSpec(Select.SelectFieldsSpec([Column("user_id")]).value.functions, convert)
         == Ok(Select.Grouping([], []))
  {
    OneColumn("user_id");
    UserIdGroupMap();
    UserIdValid();
    assert Keys([("user_id", Int(1))]) == ["user_id"];
    UserIdNoCalls(convert);
  }

  lemma UserIdGroupMap()
    ensures GroupMap(["user_id"]) == [("user_id", Str("$user_id"))]
  {
    UserIdUndotted();
    GroupOn("user_id");
    UserIdDollar();
  }

  lemma UserIdNoCalls(convert: Select.Converter)
    ensures Select.SelectFunctionsSpec(Select.SelectFieldsSpec([Column("user_id")]).value.functions, convert)
         == Ok(Select.Grouping([], []))
  {
    OneColumn("user_id");
  }

  lemma UserIdValid()
    ensures Select.InvalidOf(["user_id"], [("user_id", Str("$user_id"))]) == []
  {
    UserIdUndotted();
    Select.PutEachOne("user_id", f => !HasKey([("user_id", Str("$user_id"))], Select.Renamed(f)),
                      Select.Renamed, Select.Flag);
  }

  lemma UserIdPipeline(filter: Fields)
    ensures Pipelines(filter, Select.NonEmpty(Select.GroupByOf(["user_id"])), Select.Grouping([], []),
                      Select.NonEmpty(Select.ProjectionOf([Column("user_id")])), [], Select.NonEmpty(Select.SortOf([])), 0, 0)
         == [Stage("$match", if filter == [] then EmptyObject else Obj(filter)),
             Stage("$group", Obj([("_id", Obj([("user_id", Str("$user_id"))]))])),
             Stage("$project", Obj([("user_id", Str("$_id.user_id")), ("_id", Int(0))]))]
  {
    var groupBy := [("user_id", Str("$user_id"))];
    UserIdGroup();
    OneColumn("user_id");
    assert Select.NonEmpty([("user_id", Int(1))]) == Some([("user_id", Int(1))]);
    UserIdProject();
    assert Select.SortOf([]) == [];
    GroupAndProject(filter, groupBy, Some([("user_id", Int(1))]),
                    [("user_id", Str("$_id.user_id")), ("_id", Int(0))]);
  }

  /** A grouping with no accumulators and nothing after it but the projection. */
  lemma GroupAndProject(filter: Fields, groupBy: Fields, projection: Option<Fields>, project: Fields)
    requires FinalProject(projection, []) == project && project != []
    ensures Pipelines(filter, Some(groupBy), Select.Grouping([], []), projection, [], None, 0, 0)
         == [Stage("$match", if filter == [] then EmptyObject else Obj(filter)),
             Stage("$group", Obj([("_id", Obj(groupBy))])),
             Stage("$project", Obj(project))]
  {
    ProjectOnlyTail(project);
    assert GroupDocument(Some(groupBy), []) == [("_id", Obj(groupBy))];
  }

  /** Only a `$project` stage follows `$group` when nothing else is asked for. */
  lemma ProjectOnlyTail(project: Fields)
    requires project != []
    ensures PipelineTail(project, [], None, 0, 0) == [Stage("$project", Obj(project))]
  {
  }

  lemma UserIdGroup()
    ensures Select.NonEmpty(Select.GroupByOf(["user_id"])) == Some([("user_id", Str("$user_id"))])
  {
    UserIdUndotted();
    GroupOn("user_id");
    UserIdDollar();
  }

  lemma UserIdDollar()
    ensures "$" + "user_id" == "$user_id"
  {
  }

  /** The grouped column is read back from `_id`, and `_id` itself is hidden. */
  lemma UserIdProject()
    ensures FinalProject(Some([("user_id", Int(1))]), []) == [("user_id", Str("$_id.user_id")), ("_id", Int(0))]
  {
    var grouped := [("user_id", Str("$_id.user_id"))];
    UserIdReadBack();
    assert Select.ProjectedKeys(Some([("user_id", Int(1))])) == ["user_id"];
    assert Merge(grouped, []) == grouped;
    assert !IsSet(grouped, "_id");
    assert Put(grouped, "_id", Int(0)) == [("user_id", Str("$_id.user_id")), ("_id", Int(0))];
  }

  lemma UserIdReadBack()
    ensures GroupedProjection(["user_id"]) == [("user_id", Str("$_id.user_id"))]
  {
    Select.PutEachOne("user_id", Select.Always, Same, IdPath);
    UserIdPath();
  }

  lemma UserIdPath()
    ensures IdPath("user_id") == Str("$_id.user_id")
  {
    UserIdUndotted();
    UserIdConcat();
  }

  lemma UserIdUndotted()
    ensures '.' !in "user_id" && Select.Dotted("user_id") == "user_id"
  {
    assert '.' !in "user_id";
    Select.DottedRemovesDots("user_id");
  }

  lemma UserIdConcat()
    ensures "$_id." + "user_id" == "$_id.user_id"
  {
  }

  /** `SELECT user_id, name FROM logs WHERE ... GROUP BY user_id`: `name` is not grouped. */
  lemma UngroupedName(where: seq<Reducer.Condition>, filter: Fields, leaf: Reducer.LeafConversion,
                      convert: Select.Converter)
    requires Where(where, leaf) == Ok(filter)
    ensures SelectStatementSpec(SelectStatement(["logs"], where, [Column("user_id"), Column("name")], ["user_id"],
                                                [], [], None, []), leaf, convert)
         == Err(InvalidSelectField(["name"]))
  {
    var st := SelectStatement(["logs"], where, [Column("user_id"), Column("name")], ["user_id"], [], [], None, []);
    var fields := Select.SelectFields(Some([("user_id", Int(1)), ("name", Int(1))]), None);
    TwoColumns("user_id", "name");
    StatementLemmas.Dispatch(st, leaf, convert, filter, fields);
    NameRejected(st, filter, leaf, convert);
  }

  lemma NameRejected(st: SelectStatement, filter: Fields, leaf: Reducer.LeafConversion, convert: Select.Converter)
    requires st == SelectStatement(["logs"], st.where, [Column("user_id"), Column("name")], ["user_id"], [], [], None, [])
    ensures AggregateSpec(st, filter, Select.SelectFields(Some([("user_id", Int(1)), ("name", Int(1))]), None), leaf, convert)
         == Err(InvalidSelectField(["name"]))
  {
    UserIdGroup();
    assert GroupMap(["user_id"]) == [("user_id", Str("$user_id"))];
    assert Select.ProjectedKeys(Some([("user_id", Int(1)), ("name", Int(1))])) == ["user_id", "name"];
    NameInvalid();
    assert Rejected([("name", Int(1))]);
    assert Keys([("name", Int(1))]) == ["name"];
  }

  lemma NameInvalid()
    ensures Select.InvalidOf(["user_id", "name"], [("user_id", Str("$user_id"))]) == [("name", Int(1))]
  {
    var groupBy := [("user_id", Str("$user_id"))];
    var keep := f => !HasKey(groupBy, Select.Renamed(f));
    UserIdValid();
    NameUngrouped();
    Select.PutEachSnoc(["user_id"], "name", keep, Select.Renamed, Select.Flag);
    assert ["user_id"] + ["name"] == ["user_id", "name"];
    assert Put([], "name", Int(1)) == [("name", Int(1))];
  }

  lemma NameUngrouped()
    ensures Select.Renamed("name") == "name" && !HasKey([("user_id", Str("$user_id"))], "name")
  {
    assert '.' !in "name";
    assert Keys([("user_id", Str("$user_id"))]) == ["user_id"];
  }
}
