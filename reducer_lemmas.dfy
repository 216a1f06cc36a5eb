/**
 * What `parseWhereConditions` computes, stated against the reference
 * meaning of filters: connectives other than `OR` are ignored, so a run
 * without `OR` means the conjunction of its leaves; `OR` at depth 0 splits
 * the list into a disjunction; a bracketed run is reduced on its own, so
 * brackets override that precedence; and brackets inside identifiers do
 * not count towards the depth.
 */
module ReducerLemmas {

  import opened Php
  import opened Strings
  import opened Leaf
  import opened FilterMerge
  import opened FilterSemantics
  import opened Reducer

  // ---------------------------------------------------------------------
  // Bracket depth

  lemma {:induction false} CountCharConcat(a: string, b: string, c: char)
    ensures CountChar(a + b, c) == CountChar(a, c) + CountChar(b, c)
    decreases |a|
  {
    if a != [] {
      assert (a + b)[1..] == a[1..] + b;
      CountCharConcat(a[1..], b, c);
    } else {
      assert a + b == b;
    }
  }

  lemma {:induction false} IdsCountAppend(ids: seq<string>, id: string, c: char)
    ensures IdsCount(ids + [id], c) == IdsCount(ids, c) + CountChar(id, c)
    decreases |ids|
  {
    if ids != [] {
      assert (ids + [id])[1..] == ids[1..] + [id];
      IdsCountAppend(ids[1..], id, c);
    } else {
      assert [id][1..] == [];
    }
  }

  /**
   * An identifier's brackets do not count: a quoted literal such as
   * `'Mozilla/5.0 (X11; Linux)'` leaves the depth of its node unchanged.
   */
  lemma IdentifierBracketsIgnored(isOperator: bool, p: string, id: string, q: string, ids: seq<string>)
    ensures BracketsDiff(Condition(isOperator, p + id + q, ids + [id])) == BracketsDiff(Condition(isOperator, p + q, ids))
  {
    CountCharConcat(p + id, q, '(');
    CountCharConcat(p, id, '(');
    CountCharConcat(p, q, '(');
    CountCharConcat(p + id, q, ')');
    CountCharConcat(p, id, ')');
    CountCharConcat(p, q, ')');
    IdsCountAppend(ids, id, '(');
    IdsCountAppend(ids, id, ')');
  }

  /** An opening bracket in front adds one to the depth. */
  lemma OpenBracket(isOperator: bool, x: string, ids: seq<string>)
    ensures BracketsDiff(Condition(isOperator, "(" + x, ids)) == BracketsDiff(Condition(isOperator, x, ids)) + 1
  {
    CountCharConcat("(", x, '(');
    CountCharConcat("(", x, ')');
  }

  /** A closing bracket at the end takes one from the depth. */
  lemma CloseBracket(isOperator: bool, y: string, ids: seq<string>)
    ensures BracketsDiff(Condition(isOperator, y + ")", ids)) == BracketsDiff(Condition(isOperator, y, ids)) - 1
  {
    CountCharConcat(y, ")", '(');
    CountCharConcat(y, ")", ')');
  }

  // ---------------------------------------------------------------------
  // Runs without OR

  /** A connective other than `OR`, or a leaf with balanced brackets. */
  predicate Simple(c: Condition) {
    if c.isOperator then c.expr != "OR" else BracketsDiff(c) == 0
  }

  predicate AllSimple(cs: seq<Condition>) {
    forall k :: 0 <= k < |cs| ==> Simple(cs[k])
  }

  /** The leaves of `cs` AND-merged into `filter` one after the other. */
  function AndChain(filter: Fields, cs: seq<Condition>, leaf: LeafConversion): Result<Fields>
    decreases |cs|
  {
    if cs == [] then Ok(filter)
    else if cs[0].isOperator then AndChain(filter, cs[1..], leaf)
    else
      var merged :- MergeAndAsWritten(filter, leaf(cs[0]));
      AndChain(merged, cs[1..], leaf)
  }

  /** Every leaf's filter fragment holds. */
  predicate LeavesHold(m: Atom, cs: seq<Condition>, leaf: LeafConversion)
    decreases |cs|
  {
    cs == [] || ((cs[0].isOperator || Holds(m, leaf(cs[0]))) && LeavesHold(m, cs[1..], leaf))
  }

  /** Every leaf's filter fragment is well-formed. */
  predicate LeavesWellFormed(cs: seq<Condition>, leaf: LeafConversion) {
    forall k :: 0 <= k < |cs| && !cs[k].isOperator ==> WellFormed(leaf(cs[k]))
  }

  /** The main loop runs over a segment without `OR` as an AND chain. */
  lemma {:induction false} SimpleSegment(cs: seq<Condition>, i: nat, j: nat, filter: Fields, leaf: LeafConversion)
    requires i <= j <= |cs| && AllSimple(cs[i..j])
    ensures var r := AndChain(filter, cs[i..j], leaf);
      ReduceFrom(cs, i, 0, filter, leaf) == if r.Ok? then ReduceFrom(cs, j, 0, r.value, leaf) else r
    decreases j - i
  {
    if i < j {
      var seg := cs[i..j];
      assert seg[0] == cs[i] && seg[1..] == cs[i + 1..j];
      assert Simple(seg[0]);
      var rest := cs[i + 1..j];
      assert AllSimple(rest) by {
        forall k | 0 <= k < |rest| ensures Simple(rest[k]) {
          assert rest[k] == seg[k + 1];
        }
      }
      if cs[i].isOperator {
        SimpleSegment(cs, i + 1, j, filter, leaf);
      } else {
        var merged := MergeAndAsWritten(filter, leaf(cs[i]));
        if merged.Ok? {
          SimpleSegment(cs, i + 1, j, merged.value, leaf);
        }
      }
    } else {
      assert cs[i..j] == [];
    }
  }

  lemma LeavesWellFormedTail(cs: seq<Condition>, leaf: LeafConversion)
    requires cs != [] && LeavesWellFormed(cs, leaf)
    ensures LeavesWellFormed(cs[1..], leaf)
  {
    forall k | 0 <= k < |cs[1..]| && !cs[1..][k].isOperator ensures WellFormed(leaf(cs[1..][k])) {
      assert cs[1..][k] == cs[k + 1];
    }
  }

  /**
   * An AND chain over well-formed leaves either ends in the TypeError of a
   * repeated scalar field, or means all of them.
   */
  lemma {:induction false} AndChainMeaning(m: Atom, filter: Fields, cs: seq<Condition>, leaf: LeafConversion)
    requires WellFormed(filter) && LeavesWellFormed(cs, leaf)
    ensures var r := AndChain(filter, cs, leaf);
      r.Ok? ==> (WellFormed(r.value) && (Holds(m, r.value) <==> Holds(m, filter) && LeavesHold(m, cs, leaf)))
    ensures AndChain(filter, cs, leaf).Err? ==> AndChain(filter, cs, leaf) == Err(TypeError)
    decreases |cs|
  {
    if cs != [] {
      LeavesWellFormedTail(cs, leaf);
      if cs[0].isOperator {
        AndChainMeaning(m, filter, cs[1..], leaf);
      } else {
        var fragment := leaf(cs[0]);
        MergeAndAsWrittenConjunction(m, filter, fragment);
        if MergeAndAsWritten(filter, fragment).Ok? {
          AndChainMeaning(m, MergeAndAsWritten(filter, fragment).value, cs[1..], leaf);
        }
      }
    }
  }

  /** Any field two leaves share holds an array (an operator map) in both: `a > 1 AND a < 5`, not `a = 1 AND a = 2`. */
  ghost predicate FieldsRepeatAsArrays(cs: seq<Condition>, leaf: LeafConversion) {
    forall i, j :: 0 <= i < j < |cs| && !cs[i].isOperator && !cs[j].isOperator ==>
      ArraysWhereShared(leaf(cs[i]), leaf(cs[j]))
  }

  /** Any field `filter` shares with a leaf holds an array in both. */
  ghost predicate FilterMeetsAsArrays(filter: Fields, cs: seq<Condition>, leaf: LeafConversion) {
    forall j :: 0 <= j < |cs| && !cs[j].isOperator ==> ArraysWhereShared(filter, leaf(cs[j]))
  }

  /** The chain succeeds when no field is repeated with a scalar. */
  lemma {:induction false} AndChainSucceeds(filter: Fields, cs: seq<Condition>, leaf: LeafConversion)
    requires WellFormed(filter) && LeavesWellFormed(cs, leaf)
    requires FilterMeetsAsArrays(filter, cs, leaf) && FieldsRepeatAsArrays(cs, leaf)
    ensures AndChain(filter, cs, leaf).Ok?
    decreases |cs|
  {
    if cs != [] {
      var rest := cs[1..];
      LeavesWellFormedTail(cs, leaf);
      assert FieldsRepeatAsArrays(rest, leaf) by {
        forall i, j | 0 <= i < j < |rest| && !rest[i].isOperator && !rest[j].isOperator
          ensures ArraysWhereShared(leaf(rest[i]), leaf(rest[j]))
        {
          assert rest[i] == cs[i + 1] && rest[j] == cs[j + 1];
        }
      }
      if cs[0].isOperator {
        assert FilterMeetsAsArrays(filter, rest, leaf) by {
          forall j | 0 <= j < |rest| && !rest[j].isOperator ensures ArraysWhereShared(filter, leaf(rest[j])) {
            assert rest[j] == cs[j + 1];
          }
        }
        AndChainSucceeds(filter, rest, leaf);
      } else {
        var fragment := leaf(cs[0]);
        MergeAndAsWrittenSucceeds(filter, fragment);
        var merged := MergeAndAsWritten(filter, fragment).value;
        assert FilterMeetsAsArrays(merged, rest, leaf) by {
          forall j | 0 <= j < |rest| && !rest[j].isOperator ensures ArraysWhereShared(merged, leaf(rest[j])) {
            assert rest[j] == cs[j + 1];
            MergeAndKeepsArrays(filter, fragment, leaf(rest[j]));
          }
        }
        AndChainSucceeds(merged, rest, leaf);
      }
    }
  }

  /** From the empty filter, only the leaves themselves can clash. */
  lemma ChainFromEmpty(cs: seq<Condition>, leaf: LeafConversion)
    requires LeavesWellFormed(cs, leaf) && FieldsRepeatAsArrays(cs, leaf)
    ensures AndChain([], cs, leaf).Ok?
  {
    AndChainSucceeds([], cs, leaf);
  }

  /**
   * Without `OR` and unbalanced brackets, the conditions mean the
   * conjunction of their leaves: `AND` is implicit, and any other
   * connective is ignored. The reduction fails only with the TypeError of
   * a field repeated with a scalar, and succeeds when fields repeat with
   * operator maps only.
   */
  lemma ConjunctionOfLeaves(m: Atom, cs: seq<Condition>, leaf: LeafConversion)
    requires AllSimple(cs) && LeavesWellFormed(cs, leaf)
    ensures Reduce(cs, leaf).Ok? ==>
      (WellFormed(Reduce(cs, leaf).value) && (Holds(m, Reduce(cs, leaf).value) <==> LeavesHold(m, cs, leaf)))
    ensures Reduce(cs, leaf).Err? ==> Reduce(cs, leaf) == Err(TypeError)
    ensures FieldsRepeatAsArrays(cs, leaf) ==> Reduce(cs, leaf).Ok?
  {
    SimpleReduces(cs, leaf);
    AndChainMeaning(m, [], cs, leaf);
    if FieldsRepeatAsArrays(cs, leaf) {
      ChainFromEmpty(cs, leaf);
    }
  }

  /** `a = 1 AND a = 2`: the second leaf repeats a scalar field, and PHP raises a TypeError. */
  lemma RepeatedScalarLeaves(x: Condition, c: Condition, y: Condition, k: string, v: V, w: V, leaf: LeafConversion)
    requires !x.isOperator && !y.isOperator && BracketsDiff(x) == 0 && BracketsDiff(y) == 0
    requires c.isOperator && c.expr != "OR"
    requires leaf(x) == [(k, v)] && leaf(y) == [(k, w)] && !IsArray(v) && k != "$and"
    ensures Reduce([x, c, y], leaf) == Err(TypeError)
  {
    assert AllSimple([x, c, y]);
    SimpleReduces([x, c, y], leaf);
    assert [x, c, y][1..] == [c, y] && [c, y][1..] == [y];
    assert MergeAndAsWritten([], [(k, v)]) == Ok([(k, v)]);
    RepeatedScalarFieldAsWritten(k, v, w);
    assert AndChain([(k, v)], [y], leaf) == Err(TypeError);
    assert AndChain([(k, v)], [c, y], leaf) == Err(TypeError);
  }

  // ---------------------------------------------------------------------
  // OR at depth 0

  /** With no `OR` ahead, the `OR` branch takes everything to the end. */
  lemma {:induction false} OrCollectToEnd(cs: seq<Condition>, i: nat, depth: int, skip: nat)
    requires i <= |cs| && forall k :: i <= k < |cs| ==> !IsOr(cs[k])
    ensures OrCollect(cs, i, depth, skip) == (cs[i..], if i < |cs| then |cs| - 1 else skip)
    decreases |cs| - i
  {
    if i < |cs| {
      var next := if cs[i].isOperator then depth else depth + BracketsDiff(cs[i]);
      OrCollectToEnd(cs, i + 1, next, i);
      assert cs[i..] == [cs[i]] + cs[i + 1..];
    }
  }

  /** Past the skip cursor, the cursor no longer matters. */
  lemma SkipPassed(cs: seq<Condition>, index: nat, skip: nat, filter: Fields, leaf: LeafConversion)
    requires index <= |cs| && skip <= index
    ensures ReduceFrom(cs, index, skip, filter, leaf) == ReduceFrom(cs, index, 0, filter, leaf)
  {
  }

  /** A cursor beyond the end skips every remaining node. */
  lemma {:induction false} SkipToEnd(cs: seq<Condition>, index: nat, skip: nat, filter: Fields, leaf: LeafConversion)
    requires 0 < index <= |cs| <= skip
    ensures ReduceFrom(cs, index, skip, filter, leaf) == Ok(filter)
    decreases |cs| - index
  {
    if index < |cs| {
      SkipToEnd(cs, index + 1, skip, filter, leaf);
    }
  }

  /**
   * `A OR B`, with no `OR` inside `A` or `B`, reduces to the OR merge of
   * the two AND chains, or to the first chain's failure.
   */
  lemma OrOfSimpleRuns(a: seq<Condition>, o: Condition, b: seq<Condition>, leaf: LeafConversion)
    requires AllSimple(a) && IsOr(o) && AllSimple(b)
    ensures var cs := a + [o] + b;
      var fa := AndChain([], a, leaf);
      var fb := AndChain([], b, leaf);
      Reduce(cs, leaf) == if fa.Err? then fa else if fb.Err? then fb else MergeOr(fa.value, fb.value)
  {
    var cs := a + [o] + b;
    var fa := AndChain([], a, leaf);
    assert cs[0..|a|] == a;
    SimpleSegment(cs, 0, |a|, [], leaf);
    if fa.Ok? {
      OrBranchToEnd(a, o, b, fa.value, leaf);
    }
  }

  /** At an `OR` followed by a run without `OR`, the rest is that run, reduced and merged in. */
  lemma OrBranchToEnd(a: seq<Condition>, o: Condition, b: seq<Condition>, filter: Fields, leaf: LeafConversion)
    requires IsOr(o) && AllSimple(b)
    ensures var fb := AndChain([], b, leaf);
      ReduceFrom(a + [o] + b, |a|, 0, filter, leaf) == if fb.Err? then fb else MergeOr(filter, fb.value)
  {
    var cs := a + [o] + b;
    assert cs[|a|] == o;
    OrRunToEnd(a, o, b);
    var run := OrRun(cs, |a| + 1);
    SimpleReduces(b, leaf);
    var fb := AndChain([], b, leaf);
    if fb.Ok? {
      var merged := MergeOr(filter, fb.value);
      if merged.Ok? {
        if b != [] {
          SkipToEnd(cs, |a| + 1, run.1, merged.value, leaf);
        }
        assert ReduceFrom(cs, |a| + 1, run.1, merged.value, leaf) == merged;
      }
    }
  }

  /** The `OR` branch runs to the end when no `OR` follows it. */
  lemma OrRunToEnd(a: seq<Condition>, o: Condition, b: seq<Condition>)
    requires AllSimple(b)
    ensures OrRun(a + [o] + b, |a| + 1).0 == b
    ensures b != [] ==> OrRun(a + [o] + b, |a| + 1).1 == |a| + 1 + |b|
  {
    var cs := a + [o] + b;
    forall k | |a| + 1 <= k < |cs| ensures !IsOr(cs[k]) {
      assert cs[k] == b[k - |a| - 1];
      assert Simple(b[k - |a| - 1]);
    }
    OrCollectToEnd(cs, |a| + 1, 0, 0);
    assert cs[|a| + 1..] == b;
  }

  /** A run without `OR` or brackets reduces to its AND chain. */
  lemma SimpleReduces(b: seq<Condition>, leaf: LeafConversion)
    requires AllSimple(b)
    ensures Reduce(b, leaf) == AndChain([], b, leaf)
  {
    assert b[0..|b|] == b;
    SimpleSegment(b, 0, |b|, [], leaf);
  }

  /**
   * `A OR B` means that every leaf of `A` holds or every leaf of `B` does:
   * `OR` at depth 0 separates two conjunctions, combined in one `$or`.
   * The reduction fails only with the TypeError of a field repeated with a
   * scalar inside a run, and succeeds when fields repeat with operator maps
   * only.
   */
  lemma DisjunctionOfRuns(m: Atom, a: seq<Condition>, o: Condition, b: seq<Condition>, leaf: LeafConversion)
    requires AllSimple(a) && IsOr(o) && AllSimple(b)
    requires LeavesWellFormed(a, leaf) && LeavesWellFormed(b, leaf)
    ensures var r := Reduce(a + [o] + b, leaf);
      r.Ok? ==> (WellFormed(r.value) && HasOnlyFilter(r.value, "$or") &&
        (Holds(m, r.value) <==> LeavesHold(m, a, leaf) || LeavesHold(m, b, leaf)))
    ensures Reduce(a + [o] + b, leaf).Err? ==> Reduce(a + [o] + b, leaf) == Err(TypeError)
    ensures FieldsRepeatAsArrays(a, leaf) && FieldsRepeatAsArrays(b, leaf) ==> Reduce(a + [o] + b, leaf).Ok?
  {
    AndChainMeaning(m, [], a, leaf);
    AndChainMeaning(m, [], b, leaf);
    OrOfSimpleRuns(a, o, b, leaf);
    var fa, fb := AndChain([], a, leaf), AndChain([], b, leaf);
    if fa.Ok? && fb.Ok? {
      MergeOrDisjunction(m, fa.value, fb.value);
    }
    if FieldsRepeatAsArrays(a, leaf) && FieldsRepeatAsArrays(b, leaf) {
      ChainFromEmpty(a, leaf);
      ChainFromEmpty(b, leaf);
    }
  }

  // ---------------------------------------------------------------------
  // Brackets

  /**
   * `(x OR y) AND …`: the bracketed run is reduced on its own, so it means
   * `(x or y) and` the rest, while without the brackets `AND` binds tighter.
   * The `$or` of the run meets the tail on arrays only, so only a field
   * repeated with a scalar inside the tail can fail.
   */
  lemma BracketedOr(m: Atom, x: Condition, o: Condition, y: Condition, tail: seq<Condition>, leaf: LeafConversion)
    requires !x.isOperator && !y.isOperator && BracketsDiff(x) == 0 && BracketsDiff(y) == 0
    requires IsOr(o) && BracketsDiff(o) == 0 && AllSimple(tail)
    requires LeavesWellFormed([x, y] + tail, leaf)
    ensures var cs := [x.(expr := "(" + x.expr), o, y.(expr := y.expr + ")")] + tail;
      var r := Reduce(cs, leaf);
      (r.Ok? ==> (WellFormed(r.value) &&
        (Holds(m, r.value) <==> (LeavesHold(m, [x], leaf) || LeavesHold(m, [y], leaf)) && LeavesHold(m, tail, leaf)))) &&
      (r.Err? ==> r == Err(TypeError)) &&
      (FieldsRepeatAsArrays(tail, leaf) ==> r.Ok?)
  {
    var cs := [x.(expr := "(" + x.expr), o, y.(expr := y.expr + ")")] + tail;
    PairLeavesWellFormed(x, y, tail, leaf);
    assert [x] + [o] + [y] == [x, o, y];
    DisjunctionOfRuns(m, [x], o, [y], leaf);
    var g := Reduce([x, o, y], leaf).value;
    BracketedHead(x, o, y, tail, leaf);
    assert cs[3..|cs|] == tail;
    SimpleSegment(cs, 3, |cs|, g, leaf);
    AndChainMeaning(m, g, tail, leaf);
    if FieldsRepeatAsArrays(tail, leaf) {
      assert FilterMeetsAsArrays(g, tail, leaf) by {
        forall j | 0 <= j < |tail| && !tail[j].isOperator ensures ArraysWhereShared(g, leaf(tail[j])) {
          OrOnlySharesArrays(g, leaf(tail[j]));
        }
      }
      AndChainSucceeds(g, tail, leaf);
    }
  }

  lemma PairLeavesWellFormed(x: Condition, y: Condition, tail: seq<Condition>, leaf: LeafConversion)
    requires LeavesWellFormed([x, y] + tail, leaf)
    ensures LeavesWellFormed([x], leaf) && LeavesWellFormed([y], leaf) && LeavesWellFormed(tail, leaf)
  {
    assert ([x, y] + tail)[0] == x;
    assert ([x, y] + tail)[1] == y;
    forall k | 0 <= k < |tail| && !tail[k].isOperator ensures WellFormed(leaf(tail[k])) {
      assert ([x, y] + tail)[k + 2] == tail[k];
    }
  }

  /** The bracketed run `(x OR y)` is collected and reduced as one group, then the cursor moves past it. */
  lemma BracketedHead(x: Condition, o: Condition, y: Condition, tail: seq<Condition>, leaf: LeafConversion)
    requires !x.isOperator && !y.isOperator && BracketsDiff(x) == 0 && BracketsDiff(y) == 0
    requires IsOr(o) && BracketsDiff(o) == 0
    requires Reduce([x, o, y], leaf).Ok?
    ensures var cs := [x.(expr := "(" + x.expr), o, y.(expr := y.expr + ")")] + tail;
      ReduceFrom(cs, 0, 0, [], leaf) == ReduceFrom(cs, 3, 0, Reduce([x, o, y], leaf).value, leaf)
  {
    var x0, y0 := x.(expr := "(" + x.expr), y.(expr := y.expr + ")");
    var cs := [x0, o, y0] + tail;
    OpenBracket(false, x.expr, x.identifiers);
    CloseBracket(false, y.expr, y.identifiers);
    assert Opened(x0) == x by { assert ("(" + x.expr)[1..] == x.expr; }
    assert Closed(y0) == y by { assert (y.expr + ")")[..|y.expr + ")"| - 1] == y.expr; }
    assert cs[0] == x0 && cs[1] == o && cs[2] == y0;
    assert BracketsDiff(x0) == 1;
    assert GroupCollect(cs, 2, 1, 2) == ([y], 3);
    assert GroupCollect(cs, 1, 1, 0) == ([cs[1]] + GroupCollect(cs, 2, 1, 2).0, 3);
    assert [o] + [y] == [o, y];
    var sub := [x, o, y];
    assert [Opened(x0)] + [o, y] == sub;
    assert TotalLen(sub) < TotalLen(cs) by {
      TotalLenThree(x0, o, y0);
      TotalLenThree(x, o, y);
      TotalLenConcat([x0, o, y0], tail);
    }
    var g := Reduce(sub, leaf).value;
    assert MergeAndAsWritten([], g) == Ok(g);
    assert ReduceFrom(cs, 0, 0, [], leaf) == ReduceFrom(cs, 1, 3, g, leaf);
    assert ReduceFrom(cs, 1, 3, g, leaf) == ReduceFrom(cs, 3, 3, g, leaf);
    SkipPassed(cs, 3, 3, g, leaf);
  }

  lemma TotalLenThree(a: Condition, b: Condition, c: Condition)
    ensures TotalLen([a, b, c]) == |a.expr| + |b.expr| + |c.expr| + 3
  {
    assert [a, b, c][1..] == [b, c];
    assert [b, c][1..] == [c];
    assert [c][1..] == [];
    assert TotalLen([c]) == |c.expr| + 1;
    assert TotalLen([b, c]) == |b.expr| + |c.expr| + 2;
  }

  /** The same leaves without the brackets: `x OR (y AND …)`. */
  lemma UnbracketedOr(m: Atom, x: Condition, o: Condition, y: Condition, tail: seq<Condition>, leaf: LeafConversion)
    requires !x.isOperator && !y.isOperator && BracketsDiff(x) == 0 && BracketsDiff(y) == 0
    requires IsOr(o) && AllSimple(tail)
    requires LeavesWellFormed([x, y] + tail, leaf)
    ensures var cs := [x, o, y] + tail;
      var r := Reduce(cs, leaf);
      (r.Ok? ==> (WellFormed(r.value) &&
        (Holds(m, r.value) <==> LeavesHold(m, [x], leaf) || (LeavesHold(m, [y], leaf) && LeavesHold(m, tail, leaf))))) &&
      (r.Err? ==> r == Err(TypeError)) &&
      (FieldsRepeatAsArrays([y] + tail, leaf) ==> r.Ok?)
  {
    assert [x, o, y] + tail == [x] + [o] + ([y] + tail);
    assert LeavesWellFormed([x], leaf) by { assert ([x, y] + tail)[0] == x; }
    assert LeavesWellFormed([y] + tail, leaf) by {
      forall k | 0 <= k < |[y] + tail| && !([y] + tail)[k].isOperator
        ensures WellFormed(leaf(([y] + tail)[k]))
      {
        assert ([x, y] + tail)[k + 1] == ([y] + tail)[k];
      }
    }
    assert AllSimple([y] + tail) by {
      forall k | 0 <= k < |[y] + tail| ensures Simple(([y] + tail)[k]) {
        if k > 0 { assert ([y] + tail)[k] == tail[k - 1]; }
      }
    }
    DisjunctionOfRuns(m, [x], o, [y] + tail, leaf);
    assert ([y] + tail)[1..] == tail;
    assert [y][1..] == [];
  }

  // ---------------------------------------------------------------------
  // Divergence

  lemma TotalLenZero(cs: seq<Condition>)
    ensures TotalLen(cs) == 0 <==> cs == []
  {
  }

  /** A bracketed run as long as the nodes it is taken from is those very nodes. */
  lemma {:induction false} GroupCollectFull(cs: seq<Condition>, i: nat, depth: int, skip: nat)
    requires i <= |cs|
    ensures TotalLen(GroupCollect(cs, i, depth, skip).0) == TotalLen(cs[i..]) ==> GroupCollect(cs, i, depth, skip).0 == cs[i..]
    decreases |cs| - i
  {
    if i < |cs| {
      var next := depth + BracketsDiff(cs[i]);
      assert cs[i..] == [cs[i]] + cs[i + 1..];
      TotalLenConcat([cs[i]], cs[i + 1..]);
      TotalLenZero(cs[i + 1..]);
      if !(!cs[i].isOperator && next == 0) {
        var rest := GroupCollect(cs, i + 1, next, i + 1).0;
        GroupCollectLen(cs, i + 1, next, i + 1);
        GroupCollectFull(cs, i + 1, next, i + 1);
        TotalLenConcat([cs[i]], rest);
      } else {
        assert TotalLen([Closed(cs[i])]) == |DropLast(cs[i].expr)| + 1;
        assert |DropLast(cs[i].expr)| == |cs[i].expr| ==> Closed(cs[i]) == cs[i];
      }
    } else {
      assert cs[i..] == [];
    }
  }

  /**
   * The reduction reports `Diverges` only where PHP recurses into the very
   * list it is reducing: a bracketed run at position 0 that spans the whole
   * list and drops no character (an empty node whose depth comes from its
   * identifiers alone), so the recursive call repeats the call itself.
   */
  lemma DivergesOnlyOnItself(cs: seq<Condition>, index: nat)
    requires index < |cs| && !cs[index].isOperator && BracketsDiff(cs[index]) != 0
    ensures var sub := [Opened(cs[index])] + GroupCollect(cs, index + 1, BracketsDiff(cs[index]), 0).0;
      TotalLen(sub) >= TotalLen(cs) ==> index == 0 && sub == cs
  {
    var c := cs[index];
    var rest := GroupCollect(cs, index + 1, BracketsDiff(c), 0).0;
    var sub := [Opened(c)] + rest;
    if TotalLen(sub) >= TotalLen(cs) {
      DivergesTight(cs, index);
      GroupCollectFull(cs, index + 1, BracketsDiff(c), 0);
      assert cs == [c] + cs[1..];
    }
  }

  /** Only a run at position 0 that drops nothing can be as long as the whole list. */
  lemma DivergesTight(cs: seq<Condition>, index: nat)
    requires index < |cs| && !cs[index].isOperator
    requires var rest := GroupCollect(cs, index + 1, BracketsDiff(cs[index]), 0).0;
      TotalLen([Opened(cs[index])] + rest) >= TotalLen(cs)
    ensures index == 0 && Opened(cs[index]) == cs[index]
    ensures TotalLen(GroupCollect(cs, index + 1, BracketsDiff(cs[index]), 0).0) == TotalLen(cs[index + 1..])
  {
    var c := cs[index];
    var rest := GroupCollect(cs, index + 1, BracketsDiff(c), 0).0;
    GroupCollectLen(cs, index + 1, BracketsDiff(c), 0);
    TotalLenAround(cs, index);
    TotalLenCons(Opened(c), rest);
    TotalLenZero(cs[..index]);
    assert |DropFirst(c.expr)| == |c.expr| ==> Opened(c) == c;
  }

  /** The length of a list counted around one of its nodes. */
  lemma TotalLenAround(cs: seq<Condition>, index: nat)
    requires index < |cs|
    ensures TotalLen(cs) == TotalLen(cs[..index]) + |cs[index].expr| + 1 + TotalLen(cs[index + 1..])
  {
    assert cs == cs[..index] + cs[index..];
    TotalLenConcat(cs[..index], cs[index..]);
    assert cs[index..] == [cs[index]] + cs[index + 1..];
    TotalLenConcat([cs[index]], cs[index + 1..]);
  }

  lemma TotalLenCons(c: Condition, rest: seq<Condition>)
    ensures TotalLen([c] + rest) == |c.expr| + 1 + TotalLen(rest)
  {
    assert ([c] + rest)[1..] == rest;
  }
}
