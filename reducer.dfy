/**
 * `parseWhereConditions`: the flat list of conditions the SQL parser hands
 * over for a WHERE or HAVING clause (leaves such as `age > 5`, and the
 * connectives `AND` / `OR`) is reduced to one MongoDB filter. `OR` splits
 * the list at bracket depth 0, a leaf that opens a bracket starts a run
 * that is reduced on its own, every other connective is ignored, so
 * neighbouring pieces are combined with the AND merge.
 */
module Reducer {

  import opened Php
  import opened Strings
  import opened Leaf
  import opened FilterMerge

  /** One node of the parser's condition list. */
  datatype Condition = Condition(isOperator: bool, expr: string, identifiers: seq<string>)

  /** `substr_count` of `c` summed over the identifiers. */
  function IdsCount(ids: seq<string>, c: char): nat {
    if ids == [] then 0 else CountChar(ids[0], c) + IdsCount(ids[1..], c)
  }

  /**
   * `getBracketsDiff`: opening minus closing brackets of the expression,
   * not counting the brackets inside its identifiers (quoted literals,
   * column names).
   */
  function BracketsDiff(c: Condition): int {
    (CountChar(c.expr, '(') - IdsCount(c.identifiers, '('))
      - (CountChar(c.expr, ')') - IdsCount(c.identifiers, ')'))
  }

  /** The measure that shrinks on every recursive reduction: one per node plus its text. */
  function TotalLen(cs: seq<Condition>): nat {
    if cs == [] then 0 else |cs[0].expr| + 1 + TotalLen(cs[1..])
  }

  lemma {:induction false} TotalLenConcat(a: seq<Condition>, b: seq<Condition>)
    ensures TotalLen(a + b) == TotalLen(a) + TotalLen(b)
    decreases |a|
  {
    if a != [] {
      assert (a + b)[1..] == a[1..] + b;
      TotalLenConcat(a[1..], b);
    } else {
      assert a + b == b;
    }
  }

  /** A run of nodes costs no more than the whole list, and less when it leaves one out. */
  lemma TotalLenSlice(cs: seq<Condition>, i: nat, j: nat)
    requires i <= j <= |cs|
    ensures TotalLen(cs[i..j]) <= TotalLen(cs)
    ensures i > 0 ==> TotalLen(cs[i..j]) < TotalLen(cs)
  {
    var front, mid, back := cs[..i], cs[i..j], cs[j..];
    SliceThree(cs, i, j);
    TotalLenConcat(front + mid, back);
    TotalLenConcat(front, mid);
    if i > 0 {
      assert TotalLen(front) > 0;
    }
  }

  /** `substr($expr, 1)`: the opening bracket of a run dropped. */
  function DropFirst(s: string): (r: string)
    ensures |r| == if s == [] then 0 else |s| - 1
  {
    if s == [] then [] else s[1..]
  }

  /** `substr($expr, 0, strlen($expr) - 1)`: the closing bracket of a run dropped. */
  function DropLast(s: string): (r: string)
    ensures |r| == if s == [] then 0 else |s| - 1
  {
    if s == [] then [] else s[..|s| - 1]
  }

  function Opened(c: Condition): Condition {
    c.(expr := DropFirst(c.expr))
  }

  function Closed(c: Condition): Condition {
    c.(expr := DropLast(c.expr))
  }

  predicate IsOr(c: Condition) {
    c.isOperator && c.expr == "OR"
  }

  /**
   * The inner loop after an `OR` at position `i - 1`: the nodes up to the
   * next `OR` at bracket depth 0 (only leaves count towards the depth),
   * and the last position visited.
   */
  function OrCollect(cs: seq<Condition>, i: nat, depth: int, skip: nat): (seq<Condition>, nat)
    requires i <= |cs|
    decreases |cs| - i
  {
    if i == |cs| then ([], skip)
    else if IsOr(cs[i]) && depth == 0 then ([], i)
    else
      var next := if cs[i].isOperator then depth else depth + BracketsDiff(cs[i]);
      var rest := OrCollect(cs, i + 1, next, i);
      ([cs[i]] + rest.0, rest.1)
  }

  /** The `OR` branch takes the nodes that follow it, up to the next `OR` at depth 0 or the end. */
  lemma {:induction false} OrCollectSlice(cs: seq<Condition>, i: nat, depth: int, skip: nat)
    requires i <= |cs|
    ensures var r := OrCollect(cs, i, depth, skip);
      i + |r.0| <= |cs| && r.0 == cs[i..i + |r.0|] &&
      (i + |r.0| < |cs| ==> IsOr(cs[i + |r.0|]) && r.1 == i + |r.0|)
    decreases |cs| - i
  {
    if i < |cs| && !(IsOr(cs[i]) && depth == 0) {
      var next := if cs[i].isOperator then depth else depth + BracketsDiff(cs[i]);
      OrCollectSlice(cs, i + 1, next, i);
      var rest := OrCollect(cs, i + 1, next, i);
      assert OrCollect(cs, i, depth, skip) == ([cs[i]] + rest.0, rest.1);
      SliceCons(cs, i, |rest.0|);
    } else if i < |cs| {
      assert OrCollect(cs, i, depth, skip) == ([], i);
    } else {
      assert OrCollect(cs, i, depth, skip) == ([], skip);
    }
  }

  /** A slice is its first element followed by the rest of the slice. */
  lemma SliceCons<T>(xs: seq<T>, i: nat, n: nat)
    requires i + 1 + n <= |xs|
    ensures xs[i..i + 1 + n] == [xs[i]] + xs[i + 1..i + 1 + n]
  {
  }

  /** The `OR` branch's sub-list and where the outer loop resumes. */
  function OrRun(cs: seq<Condition>, start: nat): (r: (seq<Condition>, nat))
    requires 0 < start <= |cs|
    ensures start + |r.0| <= |cs| && r.0 == cs[start..start + |r.0|]
    ensures TotalLen(r.0) < TotalLen(cs)
  {
    var (sub, skip) := OrCollect(cs, start, 0, 0);
    OrCollectSlice(cs, start, 0, 0);
    TotalLenSlice(cs, start, start + |sub|);
    (sub, if skip == |cs| - 1 then skip + 1 else skip)
  }

  /**
   * The inner loop after a leaf that leaves brackets open: the nodes up to
   * the leaf that brings the depth back to 0, that one with its last
   * character dropped, and the position after the last node visited.
   */
  function GroupCollect(cs: seq<Condition>, i: nat, depth: int, skip: nat): (seq<Condition>, nat)
    requires i <= |cs|
    decreases |cs| - i
  {
    if i == |cs| then ([], skip)
    else
      var next := depth + BracketsDiff(cs[i]);
      if !cs[i].isOperator && next == 0 then ([Closed(cs[i])], i + 1)
      else
        var rest := GroupCollect(cs, i + 1, next, i + 1);
        ([cs[i]] + rest.0, rest.1)
  }

  /** A bracketed run is no longer than the nodes it is taken from. */
  lemma {:induction false} GroupCollectLen(cs: seq<Condition>, i: nat, depth: int, skip: nat)
    requires i <= |cs|
    ensures TotalLen(GroupCollect(cs, i, depth, skip).0) <= TotalLen(cs[i..])
    decreases |cs| - i
  {
    if i < |cs| {
      var next := depth + BracketsDiff(cs[i]);
      assert cs[i..] == [cs[i]] + cs[i + 1..];
      TotalLenConcat([cs[i]], cs[i + 1..]);
      if !(!cs[i].isOperator && next == 0) {
        GroupCollectLen(cs, i + 1, next, i + 1);
        TotalLenConcat([cs[i]], GroupCollect(cs, i + 1, next, i + 1).0);
      } else {
        assert TotalLen([Closed(cs[i])]) == |DropLast(cs[i].expr)| + 1;
      }
    }
  }

  /** The expression of a balanced leaf: trimmed, and its brackets stripped when it starts with one. */
  function LeafExpr(expr: string): string {
    var t := Trim(expr, TrimDefault);
    if StartsWith(t, "(") then Trim(t, {' ', '(', ')'}) else t
  }

  /** The filter fragment of a balanced leaf. */
  function LeafFilter(c: Condition, reg: Registry, salt: string): Fields {
    ConvertOperatorSpec(c.identifiers, LeafExpr(c.expr), reg, salt)
  }

  /**
   * How a balanced leaf becomes a filter fragment. The reduction is stated
   * for any such conversion; the translator uses `LeafOf`.
   */
  type LeafConversion = Condition -> Fields

  /** `convertOperator($condition->identifiers, $expr)` with the translator's registry and salt. */
  function LeafOf(reg: Registry, salt: string): LeafConversion {
    c => LeafFilter(c, reg, salt)
  }

  /** `parseWhereConditions($conditions)`. */
  function Reduce(cs: seq<Condition>, leaf: LeafConversion): Result<Fields>
    decreases TotalLen(cs), 1, 0
  {
    ReduceFrom(cs, 0, 0, [], leaf)
  }

  /**
   * The main loop from position `index` on, with the `skipToIndex` cursor
   * and the filter built so far. A bracketed run whose sub-list is no
   * smaller than the list itself is reduced by PHP on the very same
   * input again and again; that is `Diverges`.
   */
  function ReduceFrom(cs: seq<Condition>, index: nat, skip: nat, filter: Fields, leaf: LeafConversion): Result<Fields>
    requires index <= |cs|
    decreases TotalLen(cs), 0, |cs| - index
  {
    if index == |cs| then Ok(filter)
    else if skip > 0 && index < skip then ReduceFrom(cs, index + 1, skip, filter, leaf)
    else
      var c := cs[index];
      if c.isOperator then
        if c.expr == "OR" then
          var (sub, next) := OrRun(cs, index + 1);
          var subFilter :- Reduce(sub, leaf);
          var merged :- MergeOr(filter, subFilter);
          ReduceFrom(cs, index + 1, next, merged, leaf)
        else ReduceFrom(cs, index + 1, 0, filter, leaf)
      else if BracketsDiff(c) == 0 then
        var merged :- MergeAndAsWritten(filter, leaf(c));
        ReduceFrom(cs, index + 1, 0, merged, leaf)
      else
        var (rest, next) := GroupCollect(cs, index + 1, BracketsDiff(c), 0);
        var sub := [Opened(c)] + rest;
        if TotalLen(sub) < TotalLen(cs) then
          var subFilter :- Reduce(sub, leaf);
          var merged :- MergeAndAsWritten(filter, subFilter);
          ReduceFrom(cs, index + 1, next, merged, leaf)
        else Err(Diverges)
  }

  // ---------------------------------------------------------------------
  // The loops

  /** The loop collecting the nodes of an `OR` branch. */
  method CollectOr(cs: seq<Condition>, start: nat) returns (sub: seq<Condition>, skip: nat)
    requires 0 < start <= |cs|
    ensures sub == OrRun(cs, start).0 && skip == OrRun(cs, start).1
  {
    sub, skip := [], 0;
    var depth := 0;
    var i := start;
    while i < |cs|
      invariant start <= i <= |cs|
      invariant OrCollect(cs, start, 0, 0).0 == sub + OrCollect(cs, i, depth, skip).0
      invariant OrCollect(cs, start, 0, 0).1 == OrCollect(cs, i, depth, skip).1
      decreases |cs| - i
    {
      ghost var ahead := OrCollect(cs, i, depth, skip);
      skip := i;
      assert OrCollect(cs, i, depth, skip) == ahead;
      if cs[i].isOperator {
        if cs[i].expr == "OR" && depth == 0 {
          assert ahead == ([], i);
          break;
        }
      } else {
        depth := depth + BracketsDiff(cs[i]);
      }
      ghost var after := OrCollect(cs, i + 1, depth, i);
      assert ahead == ([cs[i]] + after.0, after.1);
      ConcatAssoc(sub, [cs[i]], after.0);
      sub := sub + [cs[i]];
      i := i + 1;
    }
    if skip == |cs| - 1 {
      skip := skip + 1;
    }
  }

  /** The loop collecting the nodes of a bracketed run. */
  method CollectGroup(cs: seq<Condition>, start: nat, open: int) returns (rest: seq<Condition>, skip: nat)
    requires start <= |cs|
    ensures rest == GroupCollect(cs, start, open, 0).0 && skip == GroupCollect(cs, start, open, 0).1
  {
    rest, skip := [], 0;
    var depth := open;
    var i := start;
    while i < |cs|
      invariant start <= i <= |cs|
      invariant GroupCollect(cs, start, open, 0).0 == rest + GroupCollect(cs, i, depth, skip).0
      invariant GroupCollect(cs, start, open, 0).1 == GroupCollect(cs, i, depth, skip).1
      decreases |cs| - i
    {
      ghost var ahead := GroupCollect(cs, i, depth, skip);
      skip := i + 1;
      depth := depth + BracketsDiff(cs[i]);
      if !cs[i].isOperator && depth == 0 {
        assert ahead == ([Closed(cs[i])], i + 1);
        rest := rest + [Closed(cs[i])];
        break;
      }
      ghost var after := GroupCollect(cs, i + 1, depth, skip);
      assert ahead == ([cs[i]] + after.0, after.1);
      ConcatAssoc(rest, [cs[i]], after.0);
      rest := rest + [cs[i]];
      i := i + 1;
    }
  }

  /** The `OR` branch of the main loop: the sub-filter of the branch is OR-merged into `filter`. */
  method OrStep(cs: seq<Condition>, index: nat, filter: Fields, reg: Registry, salt: string)
    returns (r: Result<(Fields, nat)>)
    requires index < |cs| && IsOr(cs[index])
    ensures r.Err? ==> ReduceFrom(cs, index, 0, filter, LeafOf(reg, salt)) == Err(r.fault)
    ensures r.Ok? ==> ReduceFrom(cs, index, 0, filter, LeafOf(reg, salt)) == ReduceFrom(cs, index + 1, r.value.1, r.value.0, LeafOf(reg, salt))
    decreases TotalLen(cs), 0
  {
    var sub, next := CollectOr(cs, index + 1);
    var subFilter := ParseWhereConditions(sub, reg, salt);
    if subFilter.Err? {
      return Err(subFilter.fault);
    }
    var merged := MergeOr(filter, subFilter.value);
    if merged.Err? {
      return Err(merged.fault);
    }
    return Ok((merged.value, next));
  }

  /** A balanced leaf: its filter fragment is AND-merged into `filter`. */
  method LeafStep(cs: seq<Condition>, index: nat, filter: Fields, reg: Registry, salt: string)
    returns (r: Result<Fields>)
    requires index < |cs| && !cs[index].isOperator && BracketsDiff(cs[index]) == 0
    ensures r.Err? ==> ReduceFrom(cs, index, 0, filter, LeafOf(reg, salt)) == Err(r.fault)
    ensures r.Ok? ==> ReduceFrom(cs, index, 0, filter, LeafOf(reg, salt)) == ReduceFrom(cs, index + 1, 0, r.value, LeafOf(reg, salt))
  {
    var condition := cs[index];
    var leaf := ConvertOperator(condition.identifiers, LeafExpr(condition.expr), reg, salt);
    r := MergeAndAsWritten(filter, leaf);
  }

  /** A leaf that opens brackets: the run it starts is reduced alone and AND-merged into `filter`. */
  method GroupStep(cs: seq<Condition>, index: nat, filter: Fields, reg: Registry, salt: string)
    returns (r: Result<(Fields, nat)>)
    requires index < |cs| && !cs[index].isOperator && BracketsDiff(cs[index]) != 0
    ensures r.Err? ==> ReduceFrom(cs, index, 0, filter, LeafOf(reg, salt)) == Err(r.fault)
    ensures r.Ok? ==> ReduceFrom(cs, index, 0, filter, LeafOf(reg, salt)) == ReduceFrom(cs, index + 1, r.value.1, r.value.0, LeafOf(reg, salt))
    decreases TotalLen(cs), 0
  {
    var condition := cs[index];
    var rest, next := CollectGroup(cs, index + 1, BracketsDiff(condition));
    var sub := [Opened(condition)] + rest;
    if TotalLen(sub) >= TotalLen(cs) {
      return Err(Diverges);
    }
    var subFilter := ParseWhereConditions(sub, reg, salt);
    if subFilter.Err? {
      return Err(subFilter.fault);
    }
    var merged := MergeAndAsWritten(filter, subFilter.value);
    if merged.Err? {
      return Err(merged.fault);
    }
    return Ok((merged.value, next));
  }

  /** `parseWhereConditions`, as the index loop with its `skipToIndex` cursor. */
  method ParseWhereConditions(cs: seq<Condition>, reg: Registry, salt: string) returns (r: Result<Fields>)
    ensures r == Reduce(cs, LeafOf(reg, salt))
    decreases TotalLen(cs), 2
  {
    var filter: Fields := [];
    var skipToIndex: nat := 0;
    var index := 0;
    while index < |cs|
      invariant index <= |cs|
      invariant ReduceFrom(cs, index, skipToIndex, filter, LeafOf(reg, salt)) == Reduce(cs, LeafOf(reg, salt))
      decreases |cs| - index
    {
      var step := ConditionStep(cs, index, skipToIndex, filter, reg, salt);
      if step.Err? {
        return Err(step.fault);
      }
      filter, skipToIndex := step.value.0, step.value.1;
      index := index + 1;
    }
    return Ok(filter);
  }

  /** One pass of the loop body at `index`: the filter and cursor it leaves for the next index. */
  method ConditionStep(cs: seq<Condition>, index: nat, skipToIndex: nat, filter: Fields, reg: Registry, salt: string)
    returns (r: Result<(Fields, nat)>)
    requires index < |cs|
    ensures r.Err? ==> ReduceFrom(cs, index, skipToIndex, filter, LeafOf(reg, salt)) == Err(r.fault)
    ensures r.Ok? ==>
      ReduceFrom(cs, index, skipToIndex, filter, LeafOf(reg, salt))
      == ReduceFrom(cs, index + 1, r.value.1, r.value.0, LeafOf(reg, salt))
    decreases TotalLen(cs), 1
  {
    var condition := cs[index];
    if skipToIndex > 0 && index < skipToIndex {
      return Ok((filter, skipToIndex));
    }
    if condition.isOperator {
      if condition.expr == "OR" {
        r := OrStep(cs, index, filter, reg, salt);
      } else {
        r := Ok((filter, 0));
      }
    } else if BracketsDiff(condition) == 0 {
      var merged := LeafStep(cs, index, filter, reg, salt);
      if merged.Err? {
        return Err(merged.fault);
      }
      r := Ok((merged.value, 0));
    } else {
      r := GroupStep(cs, index, filter, reg, salt);
    }
  }
}
