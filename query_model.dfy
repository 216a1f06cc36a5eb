/**
 * The two results of a translation (`Model\FindQuery`, `Model\Aggregate`,
 * both `Model\Query`s with a collection and an optional index hint) and the
 * options array a `FindQuery` hands to the MongoDB driver.
 */
module QueryModel {

  import opened Php

  datatype Query =
    | FindQuery(
        collection: string,
        filter: Fields,
        projection: Option<Fields> := None,
        sort: Option<Fields> := None,
        limit: int := 0,
        skip: int := 0,
        hint: Option<string> := None)
    | Aggregate(collection: string, pipelines: seq<V>, hint: Option<string> := None)

  function OptionalFields(f: Option<Fields>): V {
    if f.Some? then Obj(f.value) else Null
  }

  function OptionalString(s: Option<string>): V {
    if s.Some? then Str(s.value) else Null
  }

  /** `$n ?: null` for an int: zero is falsy. */
  function NonZero(n: int): (v: V)
    ensures v == Null <==> n == 0
    ensures v != Null ==> v == Int(n)
  {
    if n == 0 then Null else Int(n)
  }

  /** `FindQuery::getOptions()`. */
  function GetOptions(q: Query): (opts: Fields)
    requires q.FindQuery?
    ensures Keys(opts) == ["skip", "limit", "projection", "sort", "hint"]
    ensures Get(opts, "skip") == Some(NonZero(q.skip))
    ensures Get(opts, "limit") == Some(NonZero(q.limit))
    ensures Get(opts, "projection") == Some(OptionalFields(q.projection))
    ensures Get(opts, "sort") == Some(OptionalFields(q.sort))
    ensures Get(opts, "hint") == Some(OptionalString(q.hint))
  {
    OptionsRead(NonZero(q.skip), NonZero(q.limit), OptionalFields(q.projection), OptionalFields(q.sort),
                OptionalString(q.hint));
    [("skip", NonZero(q.skip)),
     ("limit", NonZero(q.limit)),
     ("projection", OptionalFields(q.projection)),
     ("sort", OptionalFields(q.sort)),
     ("hint", OptionalString(q.hint))]
  }

  /** Each option is read back under its own key. */
  lemma OptionsRead(skip: V, limit: V, projection: V, sort: V, hint: V)
    ensures var opts := [("skip", skip), ("limit", limit), ("projection", projection), ("sort", sort), ("hint", hint)];
      Keys(opts) == ["skip", "limit", "projection", "sort", "hint"] &&
      Get(opts, "skip") == Some(skip) && Get(opts, "limit") == Some(limit) &&
      Get(opts, "projection") == Some(projection) && Get(opts, "sort") == Some(sort) && Get(opts, "hint") == Some(hint)
  {
    var opts := [("skip", skip), ("limit", limit), ("projection", projection), ("sort", sort), ("hint", hint)];
    OptionKeys(skip, limit, projection, sort, hint);
    var later := [("projection", projection), ("sort", sort), ("hint", hint)];
    LaterOptionsRead(projection, sort, hint);
    assert opts[1..] == [("limit", limit)] + later;
    assert opts[1..][1..] == later;
    assert Get(opts, "limit") == Get(opts[1..], "limit");
    assert Get(opts, "projection") == Get(opts[1..], "projection") == Get(later, "projection");
    assert Get(opts, "sort") == Get(opts[1..], "sort") == Get(later, "sort");
    assert Get(opts, "hint") == Get(opts[1..], "hint") == Get(later, "hint");
  }

  lemma OptionKeys(skip: V, limit: V, projection: V, sort: V, hint: V)
    ensures Keys([("skip", skip), ("limit", limit), ("projection", projection), ("sort", sort), ("hint", hint)])
         == ["skip", "limit", "projection", "sort", "hint"]
  {
    var ks := Keys([("skip", skip), ("limit", limit), ("projection", projection), ("sort", sort), ("hint", hint)]);
    assert ks[0] == "skip" && ks[1] == "limit" && ks[2] == "projection" && ks[3] == "sort" && ks[4] == "hint";
  }

  lemma LaterOptionsRead(projection: V, sort: V, hint: V)
    ensures var opts := [("projection", projection), ("sort", sort), ("hint", hint)];
      Get(opts, "projection") == Some(projection) && Get(opts, "sort") == Some(sort) && Get(opts, "hint") == Some(hint)
  {
    var opts := [("projection", projection), ("sort", sort), ("hint", hint)];
    assert opts[1..][1..] == opts[2..];
    assert Get(opts[2..], "hint") == Some(hint);
  }

  /** A `FindQuery` built with only a collection and a filter takes the documented defaults. */
  lemma FindQueryDefaults(collection: string, filter: Fields)
    ensures var q := FindQuery(collection, filter);
      q.projection == None && q.sort == None && q.limit == 0 && q.skip == 0 && q.hint == None
    ensures GetOptions(FindQuery(collection, filter))
         == [("skip", Null), ("limit", Null), ("projection", Null), ("sort", Null), ("hint", Null)]
  {
  }

  /** The options lose nothing: two find queries on the same collection and filter with equal options are equal. */
  lemma {:induction false} OptionsDetermineQuery(p: Query, q: Query)
    requires p.FindQuery? && q.FindQuery?
    requires p.collection == q.collection && p.filter == q.filter
    requires GetOptions(p) == GetOptions(q)
    ensures p == q
  {
    assert GetOptions(p)[0].1 == NonZero(p.skip) && GetOptions(q)[0].1 == NonZero(q.skip);
    assert GetOptions(p)[1].1 == NonZero(p.limit) && GetOptions(q)[1].1 == NonZero(q.limit);
    assert GetOptions(p)[2].1 == OptionalFields(p.projection);
    assert GetOptions(q)[2].1 == OptionalFields(q.projection);
    assert GetOptions(p)[3].1 == OptionalFields(p.sort) && GetOptions(q)[3].1 == OptionalFields(q.sort);
    assert GetOptions(p)[4].1 == OptionalString(p.hint) && GetOptions(q)[4].1 == OptionalString(q.hint);
  }
}
