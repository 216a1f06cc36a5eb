/**
 * The SELECT-statement helpers of `SqlToMongodbQuery`: splitting the select
 * list into projected columns and aggregate calls, the GROUP BY, ORDER BY,
 * LIMIT and index-hint clauses, the check that only grouped columns are
 * selected, and the translation of aggregate calls (alone or inside
 * arithmetic) into `$group` accumulators and `$project` entries.
 */
module Select {

  import opened Php
  import opened Strings
  import Leaf
  import Helpers
  import MongoExpression
  import GroupByArithmetic

  /** An item of the select list: its text, the function it calls (if any) and its alias. */
  datatype SelectExpr = SelectExpr(expr: string, functionName: Option<string>, alias: Option<string>)

  /** An ORDER BY item: the sorted expression and its direction keyword. */
  datatype Order = Order(expr: string, kind: string)

  /** A LIMIT clause. */
  datatype Limit = Limit(offset: int, rowCount: int)

  /** An index named in a USE/FORCE INDEX hint: a column, or the text it prints as. */
  datatype IndexName = IndexName(column: Option<string>, text: string)

  /** `SPECIAL_DOT_CHAR`, which stands for a dot in the keys of `$group._id`. */
  const SpecialDot := "__"

  /** `strtr($field, ['.' => SPECIAL_DOT_CHAR])`. */
  function Dotted(field: string): string {
    StrTr(field, [(".", SpecialDot)])
  }

  lemma {:induction false} DottedRemovesDots(s: string)
    ensures '.' !in Dotted(s)
    ensures '.' !in s ==> Dotted(s) == s
    decreases |s|
  {
    if s != [] {
      DottedRemovesDots(s[1..]);
      if s[0] == '.' {
        assert LongestMatch(s, [(".", SpecialDot)]) == Some((".", SpecialDot));
        assert Dotted(s) == SpecialDot + Dotted(s[1..]);
      } else {
        assert !StartsWith(s, ".");
        assert LongestMatch(s, [(".", SpecialDot)]) == None;
        assert Dotted(s) == [s[0]] + Dotted(s[1..]);
      }
    }
  }

  // ---------------------------------------------------------------------
  // The keyed loops: `foreach ($xs as $x) if (keep) $m[key] = value;`

  /** The map such a loop builds from a prefix of its input. */
  function PutEach<T>(xs: seq<T>, keep: T -> bool, key: T -> string, value: T -> V): Fields {
    if xs == [] then []
    else
      var x := xs[|xs| - 1];
      var m := PutEach(xs[..|xs| - 1], keep, key, value);
      if keep(x) then Put(m, key(x), value(x)) else m
  }

  /** `Put` adds its key to the keys. */
  /** One more item: the loop's last step. */
  lemma PutEachSnoc<T>(xs: seq<T>, x: T, keep: T -> bool, key: T -> string, value: T -> V)
    ensures PutEach(xs + [x], keep, key, value)
         == if keep(x) then Put(PutEach(xs, keep, key, value), key(x), value(x)) else PutEach(xs, keep, key, value)
  {
    assert (xs + [x])[..|xs|] == xs;
  }

  /** A one-item loop. */
  lemma PutEachOne<T>(x: T, keep: T -> bool, key: T -> string, value: T -> V)
    ensures PutEach([x], keep, key, value) == if keep(x) then [(key(x), value(x))] else []
  {
    PutEachSnoc([], x, keep, key, value);
    assert [] + [x] == [x];
  }

  lemma HasKeyPut(m: Fields, k: string, v: V, j: string)
    ensures HasKey(Put(m, k, v), j) <==> HasKey(m, j) || j == k
  {
    assert Keys(Put(m, k, v)) == if HasKey(m, k) then Keys(m) else Keys(m) + [k];
  }

  /** Every entry of `Put(m, k, v)` is an entry of `m` or the new one. */
  lemma {:induction false} PutEntries(m: Fields, k: string, v: V)
    ensures forall p :: p in Put(m, k, v) ==> p in m || p == (k, v)
    decreases |m|
  {
    if m != [] && m[0].0 != k {
      PutEntries(m[1..], k, v);
      assert Put(m, k, v) == [m[0]] + Put(m[1..], k, v);
      assert forall p :: p in m[1..] ==> p in m;
    }
  }

  /** The keys are those of the kept items; each appears once. */
  lemma {:induction false} PutEachKeys<T>(xs: seq<T>, keep: T -> bool, key: T -> string, value: T -> V, k: string)
    ensures HasKey(PutEach(xs, keep, key, value), k) <==> exists i :: 0 <= i < |xs| && keep(xs[i]) && key(xs[i]) == k
    ensures UniqueKeys(PutEach(xs, keep, key, value))
    decreases |xs|
  {
    if xs != [] {
      var front := xs[..|xs| - 1];
      var x := xs[|xs| - 1];
      PutEachKeys(front, keep, key, value, k);
      var m := PutEach(front, keep, key, value);
      if keep(x) {
        HasKeyPut(m, key(x), value(x), k);
      }
      if HasKey(m, k) {
        var i :| 0 <= i < |front| && keep(front[i]) && key(front[i]) == k;
        assert xs[i] == front[i];
      }
      if exists i :: 0 <= i < |xs| && keep(xs[i]) && key(xs[i]) == k {
        var i :| 0 <= i < |xs| && keep(xs[i]) && key(xs[i]) == k;
        if i < |front| {
          assert front[i] == xs[i];
        }
      }
    }
  }

  /** Each entry holds the key and value of a kept item. */
  lemma {:induction false} PutEachEntries<T>(xs: seq<T>, keep: T -> bool, key: T -> string, value: T -> V)
    ensures forall p :: p in PutEach(xs, keep, key, value) ==>
      exists i :: 0 <= i < |xs| && keep(xs[i]) && p == (key(xs[i]), value(xs[i]))
    decreases |xs|
  {
    if xs != [] {
      var front := xs[..|xs| - 1];
      var x := xs[|xs| - 1];
      PutEachEntries(front, keep, key, value);
      var m := PutEach(front, keep, key, value);
      if keep(x) {
        PutEntries(m, key(x), value(x));
      }
      forall p | p in PutEach(xs, keep, key, value)
        ensures exists i :: 0 <= i < |xs| && keep(xs[i]) && p == (key(xs[i]), value(xs[i]))
      {
        if p in m {
          var i :| 0 <= i < |front| && keep(front[i]) && p == (key(front[i]), value(front[i]));
          assert xs[i] == front[i];
        } else {
          assert keep(xs[|xs| - 1]) && p == (key(xs[|xs| - 1]), value(xs[|xs| - 1]));
        }
      }
    }
  }

  /** A key kept more than once holds the value of its last item. */
  lemma {:induction false} PutEachLast<T>(xs: seq<T>, keep: T -> bool, key: T -> string, value: T -> V, i: nat)
    requires i < |xs| && keep(xs[i])
    requires forall j :: i < j < |xs| && keep(xs[j]) ==> key(xs[j]) != key(xs[i])
    ensures Get(PutEach(xs, keep, key, value), key(xs[i])) == Some(value(xs[i]))
    decreases |xs|
  {
    var front := xs[..|xs| - 1];
    var x := xs[|xs| - 1];
    if keep(x) {
      PutGet(PutEach(front, keep, key, value), key(x), value(x), key(xs[i]));
    }
    if i < |xs| - 1 {
      assert front[i] == xs[i];
      PutEachLast(front, keep, key, value, i);
    }
  }

  /** `PutEach` is empty exactly when no item is kept. */
  lemma PutEachEmpty<T>(xs: seq<T>, keep: T -> bool, key: T -> string, value: T -> V)
    ensures PutEach(xs, keep, key, value) == [] <==> forall i :: 0 <= i < |xs| ==> !keep(xs[i])
  {
    var m := PutEach(xs, keep, key, value);
    if m != [] {
      PutEachKeys(xs, keep, key, value, m[0].0);
      assert HasKey(m, m[0].0);
    }
    if exists i :: 0 <= i < |xs| && keep(xs[i]) {
      var i :| 0 <= i < |xs| && keep(xs[i]);
      PutEachKeys(xs, keep, key, value, key(xs[i]));
    }
  }

  // ---------------------------------------------------------------------
  // parseSelectFields

  /** `if ($expression->function)`. */
  predicate CallsFunction(e: SelectExpr) {
    e.functionName.Some? && Truthy(e.functionName.value)
  }

  /** A plain column that goes into the projection: no call, not empty, not `*`. */
  predicate Projects(e: SelectExpr) {
    !CallsFunction(e) && Truthy(e.expr) && e.expr != "*"
  }

  /** The projected name: the column without its quotes. */
  function ProjectedName(e: SelectExpr): string {
    Leaf.GetStringValue(e.expr)
  }

  function Included(e: SelectExpr): V {
    Int(1)
  }

  /** The projection built from the select list. */
  function ProjectionOf(exprs: seq<SelectExpr>): Fields {
    PutEach(exprs, Projects, ProjectedName, Included)
  }

  /** The items that call a function, in select-list order. */
  function FunctionsOf(exprs: seq<SelectExpr>): seq<SelectExpr> {
    if exprs == [] then []
    else
      var e := exprs[|exprs| - 1];
      FunctionsOf(exprs[..|exprs| - 1]) + if CallsFunction(e) then [e] else []
  }

  /** `empty($m) ? null : $m`. */
  function NonEmpty(m: Fields): (r: Option<Fields>)
    ensures r.None? <==> m == []
  {
    if m == [] then None else Some(m)
  }

  datatype SelectFields = SelectFields(projection: Option<Fields>, functions: Option<seq<SelectExpr>>)

  function SelectFieldsSpec(exprs: seq<SelectExpr>): Result<SelectFields> {
    if exprs == [] then Err(InvalidSelectStatement("Invalid SELECT statement"))
    else
      var fs := FunctionsOf(exprs);
      Ok(SelectFields(NonEmpty(ProjectionOf(exprs)), if fs == [] then None else Some(fs)))
  }

  method ParseSelectFields(exprs: seq<SelectExpr>) returns (r: Result<SelectFields>)
    ensures r == SelectFieldsSpec(exprs)
  {
    if exprs == [] {
      return Err(InvalidSelectStatement("Invalid SELECT statement"));
    }
    var projection: Fields := [];
    var functions: seq<SelectExpr> := [];
    for i := 0 to |exprs|
      invariant projection == ProjectionOf(exprs[..i])
      invariant functions == FunctionsOf(exprs[..i])
    {
      assert exprs[..i + 1][..i] == exprs[..i];
      var e := exprs[i];
      if CallsFunction(e) {
        functions := functions + [e];
        continue;
      }
      if Truthy(e.expr) && e.expr != "*" {
        projection := Put(projection, Leaf.GetStringValue(e.expr), Int(1));
      }
    }
    assert exprs[..|exprs|] == exprs;
    r := Ok(SelectFields(NonEmpty(projection), if functions == [] then None else Some(functions)));
  }

  /** The projection names each plain column once, unquoted, with the value 1. */
  lemma ProjectionKeys(exprs: seq<SelectExpr>, k: string)
    ensures HasKey(ProjectionOf(exprs), k) <==>
      exists i :: 0 <= i < |exprs| && Projects(exprs[i]) && Leaf.GetStringValue(exprs[i].expr) == k
    ensures UniqueKeys(ProjectionOf(exprs))
    ensures forall p :: p in ProjectionOf(exprs) ==> p.1 == Int(1)
  {
    PutEachKeys(exprs, Projects, ProjectedName, Included, k);
    PutEachEntries(exprs, Projects, ProjectedName, Included);
  }

  /** The function calls are exactly the items that call a function. */
  lemma {:induction false} FunctionsOfItems(exprs: seq<SelectExpr>, e: SelectExpr)
    ensures e in FunctionsOf(exprs) <==> e in exprs && CallsFunction(e)
    decreases |exprs|
  {
    if exprs != [] {
      var front := exprs[..|exprs| - 1];
      FunctionsOfItems(front, e);
      assert exprs == front + [exprs[|exprs| - 1]];
    }
  }

  // ---------------------------------------------------------------------
  // parseGroupBy

  function Always<T>(x: T): bool {
    true
  }

  /** The `_id` key of a grouped column: unquoted, dots replaced. */
  function GroupKey(g: string): string {
    Dotted(Leaf.GetStringValue(g))
  }

  /** The value under it: the column's path. */
  function GroupPath(g: string): V {
    Str("$" + Leaf.GetStringValue(g))
  }

  function GroupByOf(group: seq<string>): Fields {
    PutEach(group, Always, GroupKey, GroupPath)
  }

  method ParseGroupBy(group: seq<string>) returns (r: Option<Fields>)
    ensures r == NonEmpty(GroupByOf(group))
    ensures r.None? <==> group == []
  {
    var groupBy: Fields := [];
    for i := 0 to |group|
      invariant groupBy == GroupByOf(group[..i])
      invariant i > 0 ==> groupBy != []
    {
      PutEachPrefix(group, GroupKey, GroupPath, i);
      var field := Leaf.GetStringValue(group[i]);
      groupBy := Put(groupBy, Dotted(field), Str("$" + field));
    }
    PutEachPrefix(group, GroupKey, GroupPath, |group|);
    r := NonEmpty(groupBy);
  }

  /** One more item kept unconditionally: the loop's step, which always leaves a key. */
  lemma PutEachPrefix<T>(xs: seq<T>, key: T -> string, value: T -> V, i: nat)
    requires i <= |xs|
    ensures i < |xs| ==>
      PutEach(xs[..i + 1], Always, key, value) == Put(PutEach(xs[..i], Always, key, value), key(xs[i]), value(xs[i]))
    ensures i < |xs| ==> PutEach(xs[..i + 1], Always, key, value) != []
    ensures i == |xs| ==> xs[..i] == xs
  {
    if i < |xs| {
      assert xs[..i + 1] == xs[..i] + [xs[i]];
      PutEachSnoc(xs[..i], xs[i], Always, key, value);
      var m := PutEach(xs[..i + 1], Always, key, value);
      assert key(xs[i]) in Keys(m);
    }
  }

  /** The `_id` keys are the grouped columns, unquoted and with dots replaced; none holds a dot. */
  lemma GroupByKeys(group: seq<string>, k: string)
    ensures HasKey(GroupByOf(group), k) <==>
      exists i :: 0 <= i < |group| && Dotted(Leaf.GetStringValue(group[i])) == k
    ensures HasKey(GroupByOf(group), k) ==> '.' !in k
    ensures UniqueKeys(GroupByOf(group))
  {
    PutEachKeys(group, Always, GroupKey, GroupPath, k);
    if HasKey(GroupByOf(group), k) {
      var i :| 0 <= i < |group| && GroupKey(group[i]) == k;
      DottedRemovesDots(Leaf.GetStringValue(group[i]));
    }
  }

  // ---------------------------------------------------------------------
  // validateSelect

  /** A selected column as `validateSelect` looks it up: dots replaced when it has any. */
  function Renamed(field: string): string {
    if '.' in field then Dotted(field) else field
  }

  function Flag(field: string): V {
    Int(1)
  }

  /** `$invalidSelect`: the renamed columns that are no group key. */
  function InvalidOf(fields: seq<string>, groupBy: Fields): Fields {
    PutEach(fields, f => !HasKey(groupBy, Renamed(f)), Renamed, Flag)
  }

  function ProjectedKeys(projection: Option<Fields>): seq<string> {
    if projection.Some? then Keys(projection.value) else []
  }

  method ValidateSelect(projection: Option<Fields>, groupBy: Fields) returns (invalid: Fields)
    ensures invalid == InvalidOf(ProjectedKeys(projection), groupBy)
  {
    var fields := ProjectedKeys(projection);
    invalid := [];
    for i := 0 to |fields|
      invariant invalid == InvalidOf(fields[..i], groupBy)
    {
      InvalidOfPrefix(fields, i, groupBy);
      var field := fields[i];
      if '.' in field {
        field := Dotted(field);
      }
      if !HasKey(groupBy, field) {
        invalid := Put(invalid, field, Int(1));
      }
    }
    InvalidOfPrefix(fields, |fields|, groupBy);
  }

  /** One more column of the loop: reported, renamed, unless it is a group key. */
  lemma InvalidOfPrefix(fields: seq<string>, i: nat, groupBy: Fields)
    requires i <= |fields|
    ensures i < |fields| ==>
      InvalidOf(fields[..i + 1], groupBy)
      == (if HasKey(groupBy, Renamed(fields[i])) then InvalidOf(fields[..i], groupBy)
          else Put(InvalidOf(fields[..i], groupBy), Renamed(fields[i]), Int(1)))
    ensures i == |fields| ==> fields[..i] == fields
  {
    if i < |fields| {
      assert fields[..i + 1] == fields[..i] + [fields[i]];
      PutEachSnoc(fields[..i], fields[i], f => !HasKey(groupBy, Renamed(f)), Renamed, Flag);
    }
  }

  /** A column is reported exactly when, renamed, it is not a group key. */
  lemma InvalidKeys(fields: seq<string>, groupBy: Fields, k: string)
    ensures HasKey(InvalidOf(fields, groupBy), k) <==>
      !HasKey(groupBy, k) && exists i :: 0 <= i < |fields| && Renamed(fields[i]) == k
  {
    PutEachKeys(fields, f => !HasKey(groupBy, Renamed(f)), Renamed, Flag, k);
  }

  /** Selecting only columns that are grouped by is never reported. */
  lemma GroupedColumnsAreValid(exprs: seq<SelectExpr>, group: seq<string>)
    requires forall i :: 0 <= i < |exprs| && Projects(exprs[i]) ==>
      exists j :: 0 <= j < |group| && Leaf.GetStringValue(group[j]) == Leaf.GetStringValue(exprs[i].expr)
    ensures InvalidOf(Keys(ProjectionOf(exprs)), GroupByOf(group)) == []
  {
    var fields := Keys(ProjectionOf(exprs));
    var groupBy := GroupByOf(group);
    forall n | 0 <= n < |fields| ensures HasKey(groupBy, Renamed(fields[n])) {
      var f := fields[n];
      assert HasKey(ProjectionOf(exprs), f);
      ProjectionKeys(exprs, f);
      var i :| 0 <= i < |exprs| && Projects(exprs[i]) && Leaf.GetStringValue(exprs[i].expr) == f;
      var j :| 0 <= j < |group| && Leaf.GetStringValue(group[j]) == f;
      DottedRemovesDots(f);
      GroupByKeys(group, Dotted(f));
    }
    PutEachEmpty(fields, f => !HasKey(groupBy, Renamed(f)), Renamed, Flag);
  }

  // ---------------------------------------------------------------------
  // parseSort, parseLimit, parseHint

  /** `DESC` sorts downwards; any other direction upwards. */
  function Direction(o: Order): V {
    if o.kind == "DESC" then Int(-1) else Int(1)
  }

  function SortKey(o: Order): string {
    o.expr
  }

  function SortOf(order: seq<Order>): Fields {
    PutEach(order, Always, SortKey, Direction)
  }

  method ParseSort(order: seq<Order>) returns (r: Option<Fields>)
    ensures r == NonEmpty(SortOf(order))
    ensures r.None? <==> order == []
  {
    if order == [] {
      return None;
    }
    var sort: Fields := [];
    for i := 0 to |order|
      invariant sort == SortOf(order[..i])
      invariant i > 0 ==> sort != []
    {
      PutEachPrefix(order, SortKey, Direction, i);
      sort := Put(sort, order[i].expr, Direction(order[i]));
    }
    PutEachPrefix(order, SortKey, Direction, |order|);
    r := Some(sort);
  }

  /**
   * An expression sorted more than once takes the direction of its last
   * ORDER BY item; one that is not in ORDER BY is not sorted on.
   */
  lemma SortDirections(order: seq<Order>, k: string)
    ensures forall i :: (0 <= i < |order| && order[i].expr == k &&
                         (forall j :: i < j < |order| ==> order[j].expr != k)) ==>
      Get(SortOf(order), k) == Some(Direction(order[i]))
    ensures (forall j :: 0 <= j < |order| ==> order[j].expr != k) ==> Get(SortOf(order), k) == None
  {
    forall i | 0 <= i < |order| && order[i].expr == k && (forall j :: i < j < |order| ==> order[j].expr != k)
      ensures Get(SortOf(order), k) == Some(Direction(order[i]))
    {
      PutEachLast(order, Always, SortKey, Direction, i);
    }
    PutEachKeys(order, Always, SortKey, Direction, k);
  }

  /** `[$skip, $limit]`: no LIMIT clause is `[0, 0]`. */
  function ParseLimit(limit: Option<Limit>): (r: (int, int))
    ensures limit.None? ==> r == (0, 0)
    ensures limit.Some? ==> r == (limit.value.offset, limit.value.rowCount)
  {
    if limit.None? then (0, 0) else (limit.value.offset, limit.value.rowCount)
  }

  /** The first index of the first hint, by column name or printed text. */
  function ParseHint(hints: seq<seq<IndexName>>): (r: Option<string>)
    ensures r.None? <==> hints == [] || hints[0] == []
  {
    if hints == [] || hints[0] == [] then None
    else
      var index := hints[0][0];
      Some(if index.column.Some? then index.column.value else index.text)
  }

  // ---------------------------------------------------------------------
  // isMathExpression and the order of aggregate calls

  const MathChars: set<char> := {'+', '-', '*', '/', '%'}

  /** `preg_match('/[+\-*\/%]/', $expr) === 1`. */
  predicate IsMathExpression(s: string) {
    exists i :: 0 <= i < |s| && s[i] in MathChars
  }

  predicate IsMath(e: SelectExpr) {
    IsMathExpression(e.expr)
  }

  /** The `usort` comparator of `parseSelectFunctions`. */
  function Compare(a: SelectExpr, b: SelectExpr): int {
    (if IsMath(a) then 1 else -1) + (if IsMath(b) then -1 else 1)
  }

  predicate SortedByCompare(es: seq<SelectExpr>) {
    forall i, j :: 0 <= i < j < |es| ==> Compare(es[i], es[j]) <= 0
  }

  /** The items of one kind (arithmetic or not), in their order. */
  function OfKind(es: seq<SelectExpr>, math: bool): seq<SelectExpr> {
    if es == [] then []
    else
      var e := es[|es| - 1];
      OfKind(es[..|es| - 1], math) + if IsMath(e) == math then [e] else []
  }

  /**
   * The calls in the order PHP 8's stable `usort` leaves them with that
   * comparator: plain calls first, then arithmetic ones, each in select-list
   * order (`StableSortIsMathLast`).
   */
  function MathLast(es: seq<SelectExpr>): seq<SelectExpr> {
    OfKind(es, false) + OfKind(es, true)
  }

  lemma {:induction false} OfKindClass(es: seq<SelectExpr>, math: bool)
    ensures forall e :: e in OfKind(es, math) ==> IsMath(e) == math
    decreases |es|
  {
    if es != [] {
      OfKindClass(es[..|es| - 1], math);
    }
  }

  lemma OfKindUniform(es: seq<SelectExpr>, math: bool)
    requires forall i :: 0 <= i < |es| ==> IsMath(es[i]) == math
    ensures OfKind(es, math) == es && OfKind(es, !math) == []
  {
    OfKindAll(es, math);
    OfKindNone(es, !math);
  }

  lemma {:induction false} OfKindAll(es: seq<SelectExpr>, math: bool)
    requires forall i :: 0 <= i < |es| ==> IsMath(es[i]) == math
    ensures OfKind(es, math) == es
    decreases |es|
  {
    if es != [] {
      var front := es[..|es| - 1];
      OfKindAll(front, math);
      assert es == front + [es[|es| - 1]];
    }
  }

  lemma {:induction false} OfKindNone(es: seq<SelectExpr>, math: bool)
    requires forall i :: 0 <= i < |es| ==> IsMath(es[i]) != math
    ensures OfKind(es, math) == []
    decreases |es|
  {
    if es != [] {
      OfKindNone(es[..|es| - 1], math);
    }
  }

  lemma {:induction false} OfKindMultiset(es: seq<SelectExpr>)
    ensures multiset(OfKind(es, false)) + multiset(OfKind(es, true)) == multiset(es)
    decreases |es|
  {
    if es != [] {
      var front := es[..|es| - 1];
      OfKindMultiset(front);
      assert es == front + [es[|es| - 1]];
    }
  }

  /** A sequence sorted by the comparator is its plain items followed by its arithmetic ones. */
  lemma {:induction false} SortedSplits(r: seq<SelectExpr>)
    requires SortedByCompare(r)
    ensures r == OfKind(r, false) + OfKind(r, true)
    decreases |r|
  {
    if r != [] {
      var front := r[..|r| - 1];
      var x := r[|r| - 1];
      SortedFront(r);
      SortedSplits(front);
      assert r == front + [x];
      if !IsMath(x) {
        PlainBeforePlain(r, front);
        OfKindUniform(front, false);
      }
    }
  }

  lemma SortedFront(r: seq<SelectExpr>)
    requires SortedByCompare(r) && r != []
    ensures SortedByCompare(r[..|r| - 1])
  {
    var front := r[..|r| - 1];
    forall i, j | 0 <= i < j < |front| ensures Compare(front[i], front[j]) <= 0 {
      assert front[i] == r[i] && front[j] == r[j];
    }
  }

  /** In a sorted sequence ending with a plain call, every item is plain. */
  lemma PlainBeforePlain(r: seq<SelectExpr>, front: seq<SelectExpr>)
    requires SortedByCompare(r) && r != [] && !IsMath(r[|r| - 1]) && front == r[..|r| - 1]
    ensures forall i :: 0 <= i < |front| ==> !IsMath(front[i])
  {
    forall i | 0 <= i < |front| ensures !IsMath(front[i]) {
      assert Compare(r[i], r[|r| - 1]) <= 0;
    }
  }

  /** `MathLast` is sorted by the comparator, a permutation, and keeps each kind's order. */
  lemma MathLastIsStableSort(es: seq<SelectExpr>)
    ensures SortedByCompare(MathLast(es))
    ensures multiset(MathLast(es)) == multiset(es)
    ensures OfKind(MathLast(es), false) == OfKind(es, false)
    ensures OfKind(MathLast(es), true) == OfKind(es, true)
  {
    var plain := OfKind(es, false);
    var math := OfKind(es, true);
    MathLastSorted(es);
    OfKindMultiset(es);
    OfKindClass(es, false);
    OfKindClass(es, true);
    assert forall i :: 0 <= i < |plain| ==> plain[i] in plain;
    assert forall i :: 0 <= i < |math| ==> math[i] in math;
    OfKindUniform(plain, false);
    OfKindUniform(math, true);
    OfKindAppend(plain, math, false);
    OfKindAppend(plain, math, true);
  }

  lemma MathLastSorted(es: seq<SelectExpr>)
    ensures SortedByCompare(MathLast(es))
  {
    var plain := OfKind(es, false);
    var math := OfKind(es, true);
    var r := MathLast(es);
    OfKindClass(es, false);
    OfKindClass(es, true);
    forall i, j | 0 <= i < j < |r| ensures Compare(r[i], r[j]) <= 0 {
      if j < |plain| {
        assert r[i] in plain && r[j] in plain;
      } else if i >= |plain| {
        assert r[i] == math[i - |plain|] && r[j] == math[j - |plain|];
        assert r[i] in math && r[j] in math;
      } else {
        assert r[i] in plain;
        assert r[j] == math[j - |plain|];
        assert r[j] in math;
      }
    }
  }

  lemma {:induction false} OfKindAppend(a: seq<SelectExpr>, b: seq<SelectExpr>, math: bool)
    ensures OfKind(a + b, math) == OfKind(a, math) + OfKind(b, math)
    decreases |b|
  {
    if b == [] {
      assert a + b == a;
    } else {
      var front := b[..|b| - 1];
      assert (a + b)[..|a + b| - 1] == a + front;
      OfKindAppend(a, front, math);
    }
  }

  /** Any ordering sorted by the comparator that keeps each kind's order is `MathLast`. */
  lemma StableSortIsMathLast(es: seq<SelectExpr>, r: seq<SelectExpr>)
    requires SortedByCompare(r)
    requires OfKind(r, false) == OfKind(es, false) && OfKind(r, true) == OfKind(es, true)
    ensures r == MathLast(es)
  {
    SortedSplits(r);
  }

  // ---------------------------------------------------------------------
  // convertSelectExpression

  /** An entry of the `fields` list `convertSelectExpression` returns. */
  datatype FieldData =
    /** A call without arithmetic: the item itself, alias included. */
    | Aliased(alias: Option<string>, expr: string, functionName: string, field: string)
    /** An operand of an arithmetic item. */
    | Operand(expr: string, functionName: string, field: string)
    /** A hoisted aggregate node, kept as a ready-made expression. */
    | Custom(expr: string, expression: V)

  /** `['math' => ..., 'expression' => ..., 'fields' => ...]`; `expression` is Null without arithmetic. */
  datatype Conversion = Conversion(math: bool, expression: V, fields: seq<FieldData>)

  /** `'$' . trim(str_replace_first($function, '', $expr), '() ')`: the column a call reads. */
  function ArgumentField(callee: string, expr: string): (r: Result<string>)
    ensures r.Err? <==> callee == []
  {
    var inner :- Helpers.StrReplaceFirst(callee, "", expr);
    Ok("$" + Trim(inner, {'(', ')', ' '}))
  }

  /** `is_numeric($value)` on a leaf of the expression tree. */
  predicate NumericLeaf(v: V) {
    v.Int? || v.Num? || (v.Str? && IsNumeric(v.s))
  }

  /** `floatval` when the numeral has a decimal point, `intval` otherwise. */
  function NumberValue(v: V): V
    requires NumericLeaf(v)
  {
    if v.Str? then Leaf.NumberOf(v.s) else v
  }

  /** PHP's string conversion of a non-numeric leaf; other objects cannot be converted. */
  function LeafText(v: V): Result<string> {
    match v
    case Str(s) => Ok(s)
    case Null => Ok("")
    case Bool(b) => Ok(if b then "1" else "")
    case _ => Err(TypeError)
  }

  /** The leaf rewrite both walks make: numbers are cast, anything else becomes a `$` path. */
  function MarkLeaf(v: V): Result<V> {
    if NumericLeaf(v) then Ok(NumberValue(v))
    else
      var s :- LeafText(v);
      Ok(Str("$" + s))
  }

  /** `array_walk_recursive` with the leaf rewrite, as the hoisting callback does it. */
  function MarkLeaves(v: V): Result<V>
    decreases v, 1
  {
    match v
    case Obj(fields) =>
      var fs :- MarkEntries(fields);
      Ok(Obj(fs))
    case Arr(items) =>
      var xs :- MarkItems(items);
      Ok(Arr(xs))
    case _ => MarkLeaf(v)
  }

  function MarkEntry(entry: (string, V)): Result<V>
    decreases entry, 0
  {
    MarkLeaves(entry.1)
  }

  function MarkEntries(fields: seq<(string, V)>): Result<seq<(string, V)>>
    decreases fields, 0
  {
    if fields == [] then Ok([])
    else
      var head :- MarkEntry(fields[0]);
      var tail :- MarkEntries(fields[1..]);
      Ok([(fields[0].0, head)] + tail)
  }

  function MarkItems(items: seq<V>): Result<seq<V>>
    decreases items, 0
  {
    if items == [] then Ok([])
    else
      var head :- MarkLeaves(items[0]);
      var tail :- MarkItems(items[1..]);
      Ok([head] + tail)
  }

  /** `array_key_exists($name, $fields)`: `$fields` is keyed by each entry's `expr`. */
  predicate Listed(table: seq<FieldData>, name: string) {
    exists i :: 0 <= i < |table| && table[i].expr == name
  }

  /** `$fields[$d['expr']] = $d`: replaces the entry in place, or appends. */
  function Enter(table: seq<FieldData>, d: FieldData): seq<FieldData> {
    if table == [] then [d]
    else if table[0].expr == d.expr then [d] + table[1..]
    else [table[0]] + Enter(table[1..], d)
  }

  /** The callback's entries for the hoisted aggregate nodes, in the order they were hoisted. */
  function HoistedFields(table: seq<FieldData>, hoisted: seq<(string, V)>): Result<seq<FieldData>>
    decreases |hoisted|
  {
    if hoisted == [] then Ok(table)
    else
      var payload :- MarkLeaves(hoisted[0].1);
      HoistedFields(Enter(table, Custom(hoisted[0].0, payload)), hoisted[1..])
  }

  /** A walked tree and the `$fields` table after the walk. */
  datatype Walked = Walked(value: V, table: seq<FieldData>)

  /**
   * The final `array_walk_recursive` on one leaf: a new operand name is
   * entered with the function `str_before($value, '(')` names (`before`).
   */
  function WalkLeaf(v: V, table: seq<FieldData>, before: string -> string): Result<Walked> {
    if NumericLeaf(v) then Ok(Walked(NumberValue(v), table))
    else if v.Null? then
      // `array_key_exists` looks null up as "" and `'$'.null` is "$"; an unlisted
      // null reaches `str_replace_first`, whose `string $subject` refuses it.
      if Listed(table, "") then Ok(Walked(Str("$"), table)) else Err(TypeError)
    else
      var s :- LeafText(v);
      if Listed(table, s) then Ok(Walked(Str("$" + s), table))
      else
        var callee := before(s);
        var field :- ArgumentField(callee, s);
        Ok(Walked(Str("$" + s), table + [Operand(s, callee, field)]))
  }

  function WalkTree(v: V, table: seq<FieldData>, before: string -> string): Result<Walked>
    decreases v, 1
  {
    match v
    case Obj(fields) =>
      var w :- WalkEntries(fields, table, before);
      Ok(Walked(Obj(w.0), w.1))
    case Arr(items) =>
      var w :- WalkItems(items, table, before);
      Ok(Walked(Arr(w.0), w.1))
    case _ => WalkLeaf(v, table, before)
  }

  function WalkEntry(entry: (string, V), table: seq<FieldData>, before: string -> string): Result<Walked>
    decreases entry, 0
  {
    WalkTree(entry.1, table, before)
  }

  function WalkEntries(fields: seq<(string, V)>, table: seq<FieldData>, before: string -> string)
    : Result<(seq<(string, V)>, seq<FieldData>)>
    decreases fields, 0
  {
    if fields == [] then Ok(([], table))
    else
      var head :- WalkEntry(fields[0], table, before);
      var tail :- WalkEntries(fields[1..], head.table, before);
      Ok(([(fields[0].0, head.value)] + tail.0, tail.1))
  }

  function WalkItems(items: seq<V>, table: seq<FieldData>, before: string -> string)
    : Result<(seq<V>, seq<FieldData>)>
    decreases items, 0
  {
    if items == [] then Ok(([], table))
    else
      var head :- WalkTree(items[0], table, before);
      var tail :- WalkItems(items[1..], head.table, before);
      Ok(([head.value] + tail.0, tail.1))
  }

  /**
   * `convertSelectExpression`. `hash` stands for `md5(json_encode(...))` in
   * the hoisting step and `before` for `str_before($value, '(')`.
   */
  function ConvertSelectExpression(e: SelectExpr, hash: V -> string, before: string -> string)
    : Result<Conversion>
  {
    var expression :- MongoExpression.ConvertSpec(e.expr);
    ConvertParsed(e, expression, hash, before)
  }

  /** The rest of `convertSelectExpression`, once the item's text is an expression tree. */
  function ConvertParsed(e: SelectExpr, expression: V, hash: V -> string, before: string -> string)
    : Result<Conversion>
  {
    if !(expression.Obj? || expression.Arr?) then
      match e.functionName
      case None => Err(TypeError)
      case Some(callee) =>
        var field :- ArgumentField(callee, e.expr);
        Ok(Conversion(false, Null, [Aliased(e.alias, e.expr, callee, field)]))
    else
      var c := GroupByArithmetic.Convert(expression, hash);
      var table :- HoistedFields([], c.hoisted);
      var w :- WalkTree(c.value, table, before);
      Ok(Conversion(true, w.value, w.table))
  }

  /** The walk only ever appends to the table. */
  lemma {:induction false} WalkExtendsTable(v: V, table: seq<FieldData>, before: string -> string)
    requires WalkTree(v, table, before).Ok?
    ensures table <= WalkTree(v, table, before).value.table
    decreases v, 1
  {
    match v
    case Obj(fields) => WalkEntriesExtendTable(fields, table, before);
    case Arr(items) => WalkItemsExtendTable(items, table, before);
    case _ =>
  }

  lemma {:induction false} WalkEntryExtendsTable(entry: (string, V), table: seq<FieldData>, before: string -> string)
    requires WalkEntry(entry, table, before).Ok?
    ensures table <= WalkEntry(entry, table, before).value.table
    decreases entry, 0
  {
    WalkExtendsTable(entry.1, table, before);
  }

  lemma {:induction false} WalkEntriesExtendTable(fields: seq<(string, V)>, table: seq<FieldData>,
                                                  before: string -> string)
    requires WalkEntries(fields, table, before).Ok?
    ensures table <= WalkEntries(fields, table, before).value.1
    decreases fields, 0
  {
    if fields != [] {
      var head := WalkEntry(fields[0], table, before).value;
      WalkEntryExtendsTable(fields[0], table, before);
      WalkEntriesExtendTable(fields[1..], head.table, before);
    }
  }

  lemma {:induction false} WalkItemsExtendTable(items: seq<V>, table: seq<FieldData>, before: string -> string)
    requires WalkItems(items, table, before).Ok?
    ensures table <= WalkItems(items, table, before).value.1
    decreases items, 0
  {
    if items != [] {
      var head := WalkTree(items[0], table, before).value;
      WalkExtendsTable(items[0], table, before);
      WalkItemsExtendTable(items[1..], head.table, before);
    }
  }

  /** A text leaf becomes a `$` path and is listed in the table afterwards. */
  lemma WalkListsLeaf(s: string, table: seq<FieldData>, before: string -> string)
    requires !IsNumeric(s) && WalkTree(Str(s), table, before).Ok?
    ensures WalkTree(Str(s), table, before).value.value == Str("$" + s)
    ensures Listed(WalkTree(Str(s), table, before).value.table, s)
  {
    var t := WalkTree(Str(s), table, before).value.table;
    if !Listed(table, s) {
      assert t[|table|].expr == s;
    }
  }

  /**
   * A missing operand, which the evaluator leaves as null, is never read as
   * a column: unless an entry is keyed "" the walk fails with a TypeError.
   */
  lemma NullLeaf(table: seq<FieldData>, before: string -> string)
    ensures WalkTree(Null, table, before).Err? <==> !Listed(table, "")
    ensures !Listed(table, "") ==> WalkTree(Null, table, before) == Err(TypeError)
    ensures Listed(table, "") ==> WalkTree(Null, table, before) == Ok(Walked(Str("$"), table))
  {
  }

  /**
   * `-SUM(x)`: the subtraction's left operand is missing, so the item's
   * conversion fails with a TypeError whatever `str_before` returns.
   */
  lemma NegatedCallFails(e: SelectExpr, t: string, hash: V -> string, before: string -> string)
    ensures ConvertParsed(e, MongoExpression.Node("-", Null, Str(t)), hash, before) == Err(TypeError)
  {
    var tree := MongoExpression.Node("-", Null, Str(t));
    assert MongoExpression.OperatorTagAsWritten("-") == "$subtract";
    NegationSettled(t);
    GroupByArithmetic.SettledUnchanged(tree, hash);
    assert HoistedFields([], []) == Ok([]);
    NullLeaf([], before);
    assert WalkItems([Null, Str(t)], [], before) == Err(TypeError);
    assert WalkTree(Arr([Null, Str(t)]), [], before) == Err(TypeError);
    assert WalkEntry(tree.fields[0], [], before) == Err(TypeError);
    assert WalkEntries(tree.fields, [], before) == Err(TypeError);
  }

  lemma NegationSettled(t: string)
    ensures GroupByArithmetic.Settled(Obj([("$subtract", Arr([Null, Str(t)]))]))
  {
    var items := [Null, Str(t)];
    assert GroupByArithmetic.SettledItems(items[1..][1..]);
    assert GroupByArithmetic.SettledItems(items[1..]);
    assert GroupByArithmetic.SettledItems(items);
    assert GroupByArithmetic.SettledEntry(("$subtract", Arr(items)));
    assert ToLower("$subtract") == "$subtract";
  }

  // ---------------------------------------------------------------------
  // parseSelectFunctions

  const Accumulators: set<string> := {"sum", "avg", "min", "max"}

  /** `{$cond: [{$ne: [{$type: field}, 'missing']}, 1, 0]}`: 1 for each row that has the field. */
  function CountPresent(field: string): V {
    Obj([("$cond", Arr([Obj([("$ne", Arr([Obj([("$type", Str(field))]), Str("missing")]))]), Int(1), Int(0)]))])
  }

  /**
   * The `$group` accumulator for one entry, chosen by the lower-cased
   * function name; `custom` entries carry their own expression.
   */
  function Accumulator(d: FieldData): (r: Result<V>)
    ensures r.Err? <==> !d.Custom? && ToLower(d.functionName) !in Accumulators + {"count", "custom"}
    ensures r.Err? ==> r.fault == NotSupportAggregateFunction(ToLower(d.functionName))
    ensures d.Custom? ==> r == Ok(d.expression)
  {
    if d.Custom? then Ok(d.expression)
    else
      var name := ToLower(d.functionName);
      if name == "count" then Ok(Obj([("$sum", if d.field == "$*" then Int(1) else CountPresent(d.field))]))
      else if name in Accumulators then Ok(Obj([("$" + name, Str(d.field))]))
      else if name == "custom" then Ok(Null)
      else Err(NotSupportAggregateFunction(name))
  }

  /** The accumulator does not depend on the case the function name is written in. */
  lemma AccumulatorIgnoresCase(d: FieldData, callee: string)
    requires !d.Custom? && ToLower(callee) == ToLower(d.functionName)
    ensures Accumulator(d.(functionName := callee)) == Accumulator(d)
  {
  }

  /** The `$group` accumulators and the `$project` entries built so far. */
  datatype Grouping = Grouping(results: Fields, projects: Fields)

  /** `$alias ?? $expr`. */
  function AliasOr(alias: Option<string>, expr: string): string {
    if alias.Some? then alias.value else expr
  }

  /** The inner `foreach` body for one entry: the first accumulator for a name is kept. */
  function AddField(g: Grouping, d: FieldData): Result<Grouping> {
    var projects := if d.Aliased? then Put(g.projects, AliasOr(d.alias, d.expr), Str("$" + d.expr)) else g.projects;
    if HasKey(g.results, d.expr) then Ok(Grouping(g.results, projects))
    else
      var acc :- Accumulator(d);
      Ok(Grouping(Put(g.results, d.expr, acc), projects))
  }

  function AddFields(g: Grouping, ds: seq<FieldData>): Result<Grouping>
    decreases |ds|
  {
    if ds == [] then Ok(g)
    else
      var h :- AddField(g, ds[0]);
      AddFields(h, ds[1..])
  }

  /** What `convertSelectExpression` makes of a call. */
  type Converter = SelectExpr -> Result<Conversion>

  function ConverterOf(hash: V -> string, before: string -> string): Converter {
    e => ConvertSelectExpression(e, hash, before)
  }

  /** The outer `foreach` body for one call. */
  function AddExpression(g: Grouping, e: SelectExpr, convert: Converter): Result<Grouping> {
    var c :- convert(e);
    var g1 := if c.math then g.(projects := Put(g.projects, AliasOr(e.alias, e.expr), c.expression)) else g;
    AddFields(g1, c.fields)
  }

  function AddExpressions(g: Grouping, es: seq<SelectExpr>, convert: Converter): Result<Grouping>
    decreases |es|
  {
    if es == [] then Ok(g)
    else
      var h :- AddExpression(g, es[0], convert);
      AddExpressions(h, es[1..], convert)
  }

  function SelectFunctionsSpec(functions: Option<seq<SelectExpr>>, convert: Converter): Result<Grouping> {
    if functions.None? || functions.value == [] then Ok(Grouping([], []))
    else AddExpressions(Grouping([], []), MathLast(functions.value), convert)
  }

  method AddFieldsLoop(g: Grouping, ds: seq<FieldData>) returns (r: Result<Grouping>)
    ensures r == AddFields(g, ds)
  {
    var results := g.results;
    var projects := g.projects;
    for i := 0 to |ds|
      invariant AddFields(g, ds) == AddFields(Grouping(results, projects), ds[i..])
    {
      var d := ds[i];
      assert ds[i..][0] == d && ds[i..][1..] == ds[i + 1..];
      if d.Aliased? {
        projects := Put(projects, AliasOr(d.alias, d.expr), Str("$" + d.expr));
      }
      if HasKey(results, d.expr) {
        continue;
      }
      var acc := Accumulator(d);
      if acc.Err? {
        return Err(acc.fault);
      }
      results := Put(results, d.expr, acc.value);
    }
    assert ds[|ds|..] == [];
    r := Ok(Grouping(results, projects));
  }

  /** `parseSelectFunctions`: the `$group` accumulators and the extra `$project` entries. */
  method ParseSelectFunctions(functions: Option<seq<SelectExpr>>, hash: V -> string, before: string -> string)
    returns (r: Result<Grouping>)
    ensures r == SelectFunctionsSpec(functions, ConverterOf(hash, before))
  {
    if functions.None? || functions.value == [] {
      return Ok(Grouping([], []));
    }
    var sorted := MathLast(functions.value);
    r := AddExpressionsLoop(sorted, hash, before);
  }

  /** The outer `foreach` over the sorted calls, stopping at the first failure. */
  method AddExpressionsLoop(es: seq<SelectExpr>, hash: V -> string, before: string -> string)
    returns (r: Result<Grouping>)
    ensures r == AddExpressions(Grouping([], []), es, ConverterOf(hash, before))
  {
    var g := Grouping([], []);
    for j := 0 to |es|
      invariant AddExpressions(Grouping([], []), es, ConverterOf(hash, before)) ==
        AddExpressions(g, es[j..], ConverterOf(hash, before))
    {
      assert es[j..][0] == es[j] && es[j..][1..] == es[j + 1..];
      var next := AddExpressionStep(g, es[j], hash, before);
      if next.Err? {
        return Err(next.fault);
      }
      g := next.value;
    }
    assert es[|es|..] == [];
    r := Ok(g);
  }

  /** One pass of the outer `foreach`: convert the call, then add its fields. */
  method AddExpressionStep(g: Grouping, e: SelectExpr, hash: V -> string, before: string -> string)
    returns (r: Result<Grouping>)
    ensures r == AddExpression(g, e, ConverterOf(hash, before))
  {
    var c := ConvertSelectExpression(e, hash, before);
    assert c == ConverterOf(hash, before)(e);
    if c.Err? {
      return Err(c.fault);
    }
    var g1 := g;
    if c.value.math {
      g1 := g.(projects := Put(g.projects, AliasOr(e.alias, e.expr), c.value.expression));
    }
    r := AddFieldsLoop(g1, c.value.fields);
  }

  /** Once a name has an accumulator, later entries never replace it; new names come from the entries. */
  lemma {:induction false} FirstAccumulatorWins(g: Grouping, ds: seq<FieldData>, k: string)
    requires AddFields(g, ds).Ok?
    ensures HasKey(g.results, k) ==> Get(AddFields(g, ds).value.results, k) == Get(g.results, k)
    ensures HasKey(AddFields(g, ds).value.results, k) <==>
      HasKey(g.results, k) || exists i :: 0 <= i < |ds| && ds[i].expr == k
    decreases |ds|
  {
    if ds != [] {
      var h := AddField(g, ds[0]).value;
      assert AddFields(g, ds) == AddFields(h, ds[1..]);
      FieldKeepsAccumulators(g, ds[0], k);
      FirstAccumulatorWins(h, ds[1..], k);
      ExprInTail(ds, k);
    }
  }

  /** One entry: an existing accumulator stays, and the entry's name is added. */
  lemma FieldKeepsAccumulators(g: Grouping, d: FieldData, k: string)
    requires AddField(g, d).Ok?
    ensures HasKey(g.results, k) ==> Get(AddField(g, d).value.results, k) == Get(g.results, k)
    ensures HasKey(AddField(g, d).value.results, k) <==> HasKey(g.results, k) || d.expr == k
  {
    if !HasKey(g.results, d.expr) {
      PutGet(g.results, d.expr, Accumulator(d).value, k);
    }
  }

  /** A name is among the entries when it is the first one's or among the rest. */
  lemma ExprInTail(ds: seq<FieldData>, k: string)
    requires ds != []
    ensures (exists i :: 0 <= i < |ds| && ds[i].expr == k) <==>
      ds[0].expr == k || exists i :: 0 <= i < |ds[1..]| && ds[1..][i].expr == k
  {
    if exists i :: 0 <= i < |ds[1..]| && ds[1..][i].expr == k {
      var i :| 0 <= i < |ds[1..]| && ds[1..][i].expr == k;
      assert ds[i + 1].expr == k;
    }
    if exists i :: 0 <= i < |ds| && ds[i].expr == k {
      var i :| 0 <= i < |ds| && ds[i].expr == k;
      if i > 0 {
        assert ds[1..][i - 1].expr == k;
      }
    }
  }

  /** The same over whole calls: the first call that computes a name decides its accumulator. */
  lemma {:induction false} EarlierCallsKeepAccumulators(g: Grouping, es: seq<SelectExpr>, convert: Converter, k: string)
    requires AddExpressions(g, es, convert).Ok? && HasKey(g.results, k)
    ensures Get(AddExpressions(g, es, convert).value.results, k) == Get(g.results, k)
    decreases |es|
  {
    if es != [] {
      var c := convert(es[0]).value;
      var g1 := if c.math then g.(projects := Put(g.projects, AliasOr(es[0].alias, es[0].expr), c.expression)) else g;
      FirstAccumulatorWins(g1, c.fields, k);
      var h := AddExpression(g, es[0], convert).value;
      EarlierCallsKeepAccumulators(h, es[1..], convert, k);
    }
  }

  /** A one-item list is already in order. */
  lemma MathLastSingle(e: SelectExpr)
    ensures MathLast([e]) == [e]
  {
    var one := [e];
    assert one[..|one| - 1] == [];
    if IsMath(e) {
      assert OfKind(one, false) == [] && OfKind(one, true) == [e];
    } else {
      assert OfKind(one, false) == [e] && OfKind(one, true) == [];
    }
  }

  /** A call without arithmetic is one entry: the call itself, alias included. */
  lemma PlainCall(e: SelectExpr, callee: string, v: V, field: string, hash: V -> string, before: string -> string)
    requires e.functionName == Some(callee)
    requires !v.Obj? && !v.Arr?
    requires ArgumentField(callee, e.expr) == Ok(field)
    ensures ConvertParsed(e, v, hash, before) == Ok(PlainEntry(e, callee, field))
  {
  }

  /** A single call contributes exactly its entries. */
  lemma SingleCallSteps(e: SelectExpr, d: FieldData, convert: Converter)
    requires convert(e) == Ok(Conversion(false, Null, [d]))
    ensures AddExpressions(Grouping([], []), [e], convert) == AddField(Grouping([], []), d)
  {
    var g := Grouping([], []);
    assert [e][1..] == [] && [d][1..] == [];
    assert AddExpression(g, e, convert) == AddFields(g, [d]);
    if AddField(g, d).Ok? {
      assert AddFields(g, [d]) == AddFields(AddField(g, d).value, []);
    }
  }

  /** The entry of a plain call `e`, once converted. */
  function PlainEntry(e: SelectExpr, callee: string, field: string): Conversion {
    Conversion(false, Null, [Aliased(e.alias, e.expr, callee, field)])
  }

  /**
   * A single call without arithmetic, such as `SUM(price) AS total`: one
   * accumulator under the call's text, and a projection of the alias (or
   * the text) onto it.
   */
  lemma SingleAggregate(e: SelectExpr, callee: string, field: string, convert: Converter)
    requires convert(e) == Ok(PlainEntry(e, callee, field))
    requires ToLower(callee) in Accumulators
    ensures SelectFunctionsSpec(Some([e]), convert) ==
      Ok(Grouping([(e.expr, Obj([("$" + ToLower(callee), Str(field))]))],
                  [(AliasOr(e.alias, e.expr), Str("$" + e.expr))]))
  {
    MathLastSingle(e);
    var d := Aliased(e.alias, e.expr, callee, field);
    SingleCallSteps(e, d, convert);
    PlainAccumulator(d);
    FirstAliased(d, Obj([("$" + ToLower(callee), Str(field))]));
  }

  /** `sum`, `avg`, `min` and `max` in any case accumulate the field under the lower-case operator. */
  lemma PlainAccumulator(d: FieldData)
    requires !d.Custom? && ToLower(d.functionName) in Accumulators
    ensures Accumulator(d) == Ok(Obj([("$" + ToLower(d.functionName), Str(d.field))]))
  {
  }

  /** The first aliased entry into an empty grouping: its accumulator and its projection. */
  lemma FirstAliased(d: FieldData, acc: V)
    requires d.Aliased? && Accumulator(d) == Ok(acc)
    ensures AddField(Grouping([], []), d) == Ok(Grouping([(d.expr, acc)], [(AliasOr(d.alias, d.expr), Str("$" + d.expr))]))
  {
  }

  /** `COUNT(column)` counts the rows that have the column. */
  lemma SingleCount(e: SelectExpr, callee: string, field: string, convert: Converter)
    requires convert(e) == Ok(PlainEntry(e, callee, field))
    requires ToLower(callee) == "count" && field != "$*"
    ensures SelectFunctionsSpec(Some([e]), convert) ==
      Ok(Grouping([(e.expr, Obj([("$sum", CountPresent(field))]))],
                  [(AliasOr(e.alias, e.expr), Str("$" + e.expr))]))
  {
    MathLastSingle(e);
    var d := Aliased(e.alias, e.expr, callee, field);
    SingleCallSteps(e, d, convert);
  }

  /** A call to a function that is no aggregate is refused, with the name in lower case. */
  lemma UnsupportedAggregate(e: SelectExpr, callee: string, field: string, convert: Converter)
    requires convert(e) == Ok(PlainEntry(e, callee, field))
    requires ToLower(callee) !in Accumulators + {"count", "custom"}
    ensures SelectFunctionsSpec(Some([e]), convert) == Err(NotSupportAggregateFunction(ToLower(callee)))
  {
    MathLastSingle(e);
    SingleCallSteps(e, Aliased(e.alias, e.expr, callee, field), convert);
  }
}
