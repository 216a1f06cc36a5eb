/**
 * How `SqlToMongodbQuery` combines two filters: `mergeSubFilterForAndOperator`
 * for AND, the `$or` branch of `parseWhereConditions` for OR, and
 * `hasOnlyFilter`, which both rely on.
 */
module FilterMerge {

  import opened Php
  import opened Strings

  /** `hasOnlyFilter`: the filter has exactly one entry, the set key `k`. */
  predicate HasOnlyFilter(f: Fields, k: string) {
    |f| == 1 && IsSet(f, k)
  }

  /** `['$and' => [$filter, $subFilter]]`. */
  function AndOf(f: Fields, s: Fields): Fields {
    [("$and", Arr([Obj(f), Obj(s)]))]
  }

  /** The value under a key known to be present. */
  function At(f: Fields, k: string): V
    requires HasKey(f, k)
  {
    Get(f, k).value
  }

  /** `array_keys(array_intersect_key($f, $s))`: `f`'s keys that `s` also has, in `f`'s order. */
  function CommonKeys(f: Fields, s: Fields): (ks: seq<string>)
    ensures forall k :: k in ks <==> HasKey(f, k) && HasKey(s, k)
    ensures forall k :: k in ks ==> HasKey(f, k) && HasKey(s, k)
  {
    if f == [] then []
    else (if HasKey(s, f[0].0) then [f[0].0] else []) + CommonKeys(f[1..], s)
  }

  /** A PHP array: a list or a string-keyed map. */
  predicate IsArray(v: V) {
    v.Obj? || v.Arr?
  }

  /** The list positions of `xs` as PHP keys. */
  function Positions(xs: seq<V>, from: nat): (r: Fields)
    ensures |r| == |xs|
    ensures forall i :: 0 <= i < |xs| ==> r[i] == (IntToString(from + i), xs[i])
    decreases |xs|
  {
    if xs == [] then [] else [(IntToString(from), xs[0])] + Positions(xs[1..], from + 1)
  }

  /** A PHP array's entries, a list's keyed by position. */
  function Entries(v: V): Fields
    requires IsArray(v)
  {
    if v.Obj? then v.fields else Positions(v.items, 0)
  }

  /** `count(array_intersect_key($a, $b))`. */
  function IntersectCount(a: V, b: V): nat
    requires IsArray(a) && IsArray(b)
  {
    |CommonKeys(Entries(a), Entries(b))|
  }

  /**
   * `array_merge($a, $b)`: two lists are concatenated, two maps merged key
   * by key. A list merged with a map keeps the list's positions as keys.
   */
  function ArrayMerge(a: V, b: V): (r: V)
    requires IsArray(a) && IsArray(b)
    ensures IsArray(r)
  {
    if a.Arr? && b.Arr? then Arr(a.items + b.items)
    else Obj(Merge(Entries(a), Entries(b)))
  }

  /**
   * The items of a `$and` / `$or` entry. Those entries are lists whenever
   * the translator built them; any other value is a PHP type error for
   * `array_merge`, `[]=` and the spread operator.
   */
  function ListItems(v: V): (r: Result<seq<V>>)
    ensures r.Ok? <==> v.Arr?
    ensures v.Arr? ==> r.value == v.items
  {
    if v.Arr? then Ok(v.items) else Err(TypeError)
  }

  /**
   * `mergeSubFilterForAndOperator($filter, $subFilter)`. When the two
   * filters share one key, the values under it are merged if they have no
   * operator in common; `array_intersect_key` raises a TypeError when one
   * of them is not an array (`a = 1 AND a = 2`). With `fallBack` set, that
   * case is combined with `$and` like the others.
   */
  function MergeAndWith(f: Fields, s: Fields, fallBack: bool): Result<Fields> {
    if f == [] then Ok(s)
    else if IsSet(f, "$and") then
      var current :- ListItems(At(f, "$and"));
      if HasOnlyFilter(s, "$and") then
        var more :- ListItems(At(s, "$and"));
        Ok(Put(f, "$and", Arr(current + more)))
      else
        Ok(Put(f, "$and", Arr(current + [Obj(s)])))
    else
      var common := CommonKeys(f, s);
      if |common| == 0 then Ok(Merge(f, s))
      else if |common| == 1 then
        var key := common[0];
        var a := At(f, key);
        var b := At(s, key);
        if !(IsArray(a) && IsArray(b)) then
          (if fallBack then Ok(AndOf(f, s)) else Err(TypeError))
        else if IntersectCount(a, b) == 0 && |s| == 1 then Ok(Put(f, key, ArrayMerge(a, b)))
        else if IntersectCount(a, b) == 0 && |f| == 1 then Ok(Put(s, key, ArrayMerge(b, a)))
        else Ok(AndOf(f, s))
      else Ok(AndOf(f, s))
  }

  /** `mergeSubFilterForAndOperator` as written; `parseWhereConditions` uses this one. */
  function MergeAndAsWritten(f: Fields, s: Fields): Result<Fields> {
    MergeAndWith(f, s, false)
  }

  /** The AND merge as intended: a repeated scalar field is combined with `$and`. */
  function MergeAnd(f: Fields, s: Fields): Result<Fields> {
    MergeAndWith(f, s, true)
  }

  /** The OR step of `parseWhereConditions`: `$or` lists are flattened, never nested. */
  function MergeOr(f: Fields, s: Fields): Result<Fields> {
    if HasOnlyFilter(f, "$or") then
      var current :- ListItems(At(f, "$or"));
      if HasOnlyFilter(s, "$or") then
        var more :- ListItems(At(s, "$or"));
        Ok([("$or", Arr(current + more))])
      else
        Ok(Put(f, "$or", Arr(current + [Obj(s)])))
    else if HasOnlyFilter(s, "$or") then
      var more :- ListItems(At(s, "$or"));
      Ok([("$or", Arr([Obj(f)] + more))])
    else
      Ok([("$or", Arr([Obj(f), Obj(s)]))])
  }

  // ---------------------------------------------------------------------
  // The repeated-field finding

  /** As written, `a = 1 AND a = 2` ends in a TypeError. */
  lemma RepeatedScalarFieldAsWritten(k: string, x: V, y: V)
    requires !IsArray(x) && k != "$and"
    ensures MergeAndAsWritten([(k, x)], [(k, y)]) == Err(TypeError)
  {
    var f := [(k, x)];
    var s := [(k, y)];
    assert CommonKeys(f, s) == [k];
  }

  /** The corrected merge combines the two filters with `$and`. */
  lemma RepeatedScalarField(k: string, x: V, y: V)
    requires !IsArray(x) && k != "$and"
    ensures MergeAnd([(k, x)], [(k, y)]) == Ok(AndOf([(k, x)], [(k, y)]))
  {
    var f := [(k, x)];
    var s := [(k, y)];
    assert CommonKeys(f, s) == [k];
  }

  /** The two merges differ only where the written one raises the TypeError. */
  lemma MergeAndAgrees(f: Fields, s: Fields)
    ensures MergeAndAsWritten(f, s).Ok? ==> MergeAnd(f, s) == MergeAndAsWritten(f, s)
    ensures MergeAndAsWritten(f, s) != MergeAnd(f, s) ==>
      MergeAndAsWritten(f, s) == Err(TypeError) && MergeAnd(f, s) == Ok(AndOf(f, s))
  {
  }
}
