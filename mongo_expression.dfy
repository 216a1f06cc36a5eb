/**
 * `Lib\MongoExpressionConverter`: evaluates the postfix tokens of an
 * arithmetic expression into a tree of MongoDB arithmetic operators, each
 * node a one-key array `{tag: [left, right]}` and each leaf the operand
 * token as a string.
 */
module MongoExpression {

  import opened Php
  import opened Postfix
  import opened Strings

  /** The names MongoDB gives its five arithmetic aggregation operators. */
  const ArithmeticOperators: set<string> := {"$add", "$subtract", "$multiply", "$divide", "$mod"}

  /** The `OPERATORS` table exactly as written (`*` is tagged `$multiple`). */
  function OperatorTagAsWritten(op: string): string
    requires IsOperator(op)
  {
    if op == "+" then "$add"
    else if op == "-" then "$subtract"
    else if op == "*" then "$multiple"
    else if op == "/" then "$divide"
    else "$mod"
  }

  /** The table as it was meant, with `*` tagged `$multiply`, the operator MongoDB has. */
  function OperatorTag(op: string): (tag: string)
    requires IsOperator(op)
    ensures tag in ArithmeticOperators
    ensures op != "*" ==> tag == OperatorTagAsWritten(op)
  {
    if op == "*" then "$multiply" else OperatorTagAsWritten(op)
  }

  /** As written, multiplication is tagged with a name MongoDB does not know. */
  lemma MultiplyTagAsWritten()
    ensures OperatorTagAsWritten("*") !in ArithmeticOperators
    ensures forall op :: IsOperator(op) && op != "*" ==> OperatorTagAsWritten(op) in ArithmeticOperators
  {
  }

  /** The table as written names each operator differently, so a tree can be read back. */
  lemma OperatorTagInjective(a: string, b: string)
    requires IsOperator(a) && IsOperator(b) && OperatorTagAsWritten(a) == OperatorTagAsWritten(b)
    ensures a == b
  {
  }

  /** `[OPERATORS[op] => [left, right]]`. */
  function Node(op: string, left: V, right: V): V
    requires IsOperator(op)
  {
    Obj([(OperatorTagAsWritten(op), Arr([left, right]))])
  }

  /** One token: an operator pops the right then the left operand (null when missing) and pushes a node. */
  function EvalStep(stack: seq<V>, token: string): (r: seq<V>)
    ensures IsOperator(token) ==> |r| == (if |stack| >= 2 then |stack| - 1 else 1)
    ensures !IsOperator(token) ==> r == stack + [Str(token)]
  {
    if IsOperator(token) then
      var right := if |stack| >= 1 then stack[|stack| - 1] else Null;
      var left := if |stack| >= 2 then stack[|stack| - 2] else Null;
      var below := if |stack| >= 2 then stack[..|stack| - 2] else [];
      below + [Node(token, left, right)]
    else stack + [Str(token)]
  }

  function EvalFrom(stack: seq<V>, tokens: seq<string>): seq<V>
    decreases |tokens|
  {
    if tokens == [] then stack else EvalFrom(EvalStep(stack, tokens[0]), tokens[1..])
  }

  /** The value `convert` returns for the postfix tokens: the last stack item, or null. */
  function Evaluate(tokens: seq<string>): V {
    var stack := EvalFrom([], tokens);
    if stack == [] then Null else stack[|stack| - 1]
  }

  /** The token loop of `convert`. */
  method EvaluatePostfix(tokens: seq<string>) returns (r: V)
    ensures r == Evaluate(tokens)
  {
    var stack: seq<V> := [];
    for n := 0 to |tokens|
      invariant EvalFrom(stack, tokens[n..]) == EvalFrom([], tokens)
    {
      var token := tokens[n];
      assert tokens[n..][1..] == tokens[n + 1..];
      ghost var before := stack;
      assert EvalFrom(before, tokens[n..]) == EvalFrom(EvalStep(before, token), tokens[n + 1..]);
      if IsOperator(token) {
        var right := Null;
        if |stack| > 0 {
          right := stack[|stack| - 1];
          stack := stack[..|stack| - 1];
        }
        var left := Null;
        if |stack| > 0 {
          left := stack[|stack| - 1];
          stack := stack[..|stack| - 1];
        }
        stack := stack + [Node(token, left, right)];
        assert |before| >= 2 ==> before[..|before| - 1][..|before| - 2] == before[..|before| - 2];
        assert stack == EvalStep(before, token);
        continue;
      }
      stack := stack + [Str(token)];
    }
    assert tokens[|tokens|..] == [];
    r := if stack == [] then Null else stack[|stack| - 1];
  }

  /** The whole conversion: the shunting-yard pass, then evaluation. */
  function ConvertSpec(expression: string): Result<V> {
    var postfix :- Postfix.ConvertSpec(expression);
    Ok(Evaluate(postfix))
  }

  method Convert(expression: string) returns (r: Result<V>)
    ensures r == ConvertSpec(expression)
  {
    var postfix := Postfix.Convert(expression);
    if postfix.Err? {
      return Err(postfix.fault);
    }
    var v := EvaluatePostfix(postfix.value);
    r := Ok(v);
  }

  // ---------------------------------------------------------------------------
  // Well-formed postfix input

  /** Every operator finds two items on a stack that starts `h` high. */
  predicate WellFormedFrom(h: nat, tokens: seq<string>)
    decreases |tokens|
  {
    tokens == [] ||
    (if IsOperator(tokens[0]) then h >= 2 && WellFormedFrom(h - 1, tokens[1..])
     else WellFormedFrom(h + 1, tokens[1..]))
  }

  function HeightAfter(h: nat, tokens: seq<string>): nat
    decreases |tokens|
  {
    if tokens == [] then h
    else if IsOperator(tokens[0]) then HeightAfter(if h >= 1 then h - 1 else 0, tokens[1..])
    else HeightAfter(h + 1, tokens[1..])
  }

  /** Postfix for a single expression: balanced, leaving exactly one item. */
  predicate WellFormed(tokens: seq<string>) {
    WellFormedFrom(0, tokens) && HeightAfter(0, tokens) == 1
  }

  function OperandTokens(tokens: seq<string>): seq<string> {
    if tokens == [] then []
    else (if IsOperator(tokens[0]) then [] else [tokens[0]]) + OperandTokens(tokens[1..])
  }

  function OperatorCount(tokens: seq<string>): nat {
    if tokens == [] then 0 else (if IsOperator(tokens[0]) then 1 else 0) + OperatorCount(tokens[1..])
  }

  /** The leaves of a tree, left to right. */
  function Leaves(v: V): seq<string> {
    match v
    case Str(s) => [s]
    case Obj(fields) =>
      if |fields| == 1 && fields[0].1.Arr? && |fields[0].1.items| == 2
      then Leaves(fields[0].1.items[0]) + Leaves(fields[0].1.items[1])
      else []
    case _ => []
  }

  /** The operator nodes of a tree. */
  function InternalNodes(v: V): nat {
    match v
    case Obj(fields) =>
      if |fields| == 1 && fields[0].1.Arr? && |fields[0].1.items| == 2
      then 1 + InternalNodes(fields[0].1.items[0]) + InternalNodes(fields[0].1.items[1])
      else 0
    case _ => 0
  }

  function AllLeaves(stack: seq<V>): seq<string> {
    if stack == [] then [] else AllLeaves(stack[..|stack| - 1]) + Leaves(stack[|stack| - 1])
  }

  function AllInternal(stack: seq<V>): nat {
    if stack == [] then 0 else AllInternal(stack[..|stack| - 1]) + InternalNodes(stack[|stack| - 1])
  }

  lemma NodeParts(op: string, l: V, r: V)
    requires IsOperator(op)
    ensures Leaves(Node(op, l, r)) == Leaves(l) + Leaves(r)
    ensures InternalNodes(Node(op, l, r)) == 1 + InternalNodes(l) + InternalNodes(r)
  {
    var f := [(OperatorTagAsWritten(op), Arr([l, r]))];
    assert Node(op, l, r) == Obj(f);
    PairLeaves(f, l, r);
    PairNodes(f, l, r);
  }

  lemma PairLeaves(f: Fields, l: V, r: V)
    requires |f| == 1 && f[0].1 == Arr([l, r])
    ensures Leaves(Obj(f)) == Leaves(l) + Leaves(r)
  {
    assert f[0].1.items[0] == l && f[0].1.items[1] == r;
  }

  lemma PairNodes(f: Fields, l: V, r: V)
    requires |f| == 1 && f[0].1 == Arr([l, r])
    ensures InternalNodes(Obj(f)) == 1 + InternalNodes(l) + InternalNodes(r)
  {
    assert f[0].1.items[0] == l && f[0].1.items[1] == r;
  }

  lemma AllLeavesSnoc(stack: seq<V>, v: V)
    ensures AllLeaves(stack + [v]) == AllLeaves(stack) + Leaves(v)
    ensures AllInternal(stack + [v]) == AllInternal(stack) + InternalNodes(v)
  {
    assert (stack + [v])[..|stack|] == stack;
  }

  lemma NodeReplacesOperands(below: seq<V>, op: string, l: V, r: V)
    requires IsOperator(op)
    ensures AllLeaves(below + [Node(op, l, r)]) == AllLeaves(below + [l, r])
    ensures AllInternal(below + [Node(op, l, r)]) == AllInternal(below + [l, r]) + 1
  {
    NodeParts(op, l, r);
    AllLeavesSnoc(below, Node(op, l, r));
    PairOnStack(below, l, r);
    ConcatAssoc(AllLeaves(below), Leaves(l), Leaves(r));
  }

  lemma PairOnStack(below: seq<V>, l: V, r: V)
    ensures AllLeaves(below + [l, r]) == AllLeaves(below) + Leaves(l) + Leaves(r)
    ensures AllInternal(below + [l, r]) == AllInternal(below) + InternalNodes(l) + InternalNodes(r)
  {
    AllLeavesSnoc(below, l);
    AllLeavesSnoc(below + [l], r);
    assert below + [l] + [r] == below + [l, r];
  }

  lemma LastTwo(s: seq<V>)
    requires |s| >= 2
    ensures s == s[..|s| - 2] + [s[|s| - 2], s[|s| - 1]]
  {
  }

  lemma EvalStepOperator(stack: seq<V>, op: string)
    requires IsOperator(op) && |stack| >= 2
    ensures EvalStep(stack, op) == stack[..|stack| - 2] + [Node(op, stack[|stack| - 2], stack[|stack| - 1])]
  {
  }

  lemma OperatorStepLeaves(stack: seq<V>, op: string)
    requires IsOperator(op) && |stack| >= 2
    ensures AllLeaves(EvalStep(stack, op)) == AllLeaves(stack)
    ensures AllInternal(EvalStep(stack, op)) == AllInternal(stack) + 1
  {
    var n := |stack|;
    EvalStepOperator(stack, op);
    LastTwo(stack);
    NodeReplacesOperands(stack[..n - 2], op, stack[n - 2], stack[n - 1]);
  }

  lemma StepKeepsLeaves(stack: seq<V>, token: string)
    requires !IsOperator(token) || |stack| >= 2
    ensures AllLeaves(EvalStep(stack, token)) == AllLeaves(stack) + OperandTokens([token])
  {
    if IsOperator(token) {
      OperatorStepKeepsLeaves(stack, token);
    } else {
      OperandStepLeaves(stack, token);
    }
  }

  lemma OperatorStepKeepsLeaves(stack: seq<V>, op: string)
    requires IsOperator(op) && |stack| >= 2
    ensures AllLeaves(EvalStep(stack, op)) == AllLeaves(stack) + OperandTokens([op])
  {
    OperatorStepLeaves(stack, op);
    OneToken(op);
    assert AllLeaves(stack) + [] == AllLeaves(stack);
  }

  lemma OperandStepLeaves(stack: seq<V>, token: string)
    requires !IsOperator(token)
    ensures AllLeaves(EvalStep(stack, token)) == AllLeaves(stack) + OperandTokens([token])
  {
    OneToken(token);
    AllLeavesSnoc(stack, Str(token));
  }

  lemma StepCountsNodes(stack: seq<V>, token: string)
    requires !IsOperator(token) || |stack| >= 2
    ensures AllInternal(EvalStep(stack, token)) == AllInternal(stack) + OperatorCount([token])
  {
    OneToken(token);
    if IsOperator(token) {
      OperatorStepLeaves(stack, token);
    } else {
      AllLeavesSnoc(stack, Str(token));
    }
  }

  lemma OperandTokensCons(tokens: seq<string>)
    requires tokens != []
    ensures OperandTokens(tokens) == OperandTokens([tokens[0]]) + OperandTokens(tokens[1..])
    ensures OperatorCount(tokens) == OperatorCount([tokens[0]]) + OperatorCount(tokens[1..])
  {
    OneToken(tokens[0]);
  }

  lemma OneToken(t: string)
    ensures OperandTokens([t]) == if IsOperator(t) then [] else [t]
    ensures OperatorCount([t]) == if IsOperator(t) then 1 else 0
  {
    assert [t][1..] == [];
  }

  lemma {:induction false} EvalFromHeight(stack: seq<V>, tokens: seq<string>)
    requires WellFormedFrom(|stack|, tokens)
    ensures |EvalFrom(stack, tokens)| == HeightAfter(|stack|, tokens)
    decreases |tokens|
  {
    if tokens != [] {
      EvalFromHeight(EvalStep(stack, tokens[0]), tokens[1..]);
    }
  }

  /** On well-formed input the stack carries every operand once, in order. */
  lemma {:induction false} EvalFromKeepsLeaves(stack: seq<V>, tokens: seq<string>)
    requires WellFormedFrom(|stack|, tokens)
    ensures AllLeaves(EvalFrom(stack, tokens)) == AllLeaves(stack) + OperandTokens(tokens)
    decreases |tokens|
  {
    if tokens != [] {
      var next := EvalStep(stack, tokens[0]);
      StepKeepsLeaves(stack, tokens[0]);
      OperandTokensCons(tokens);
      EvalFromKeepsLeaves(next, tokens[1..]);
    }
  }

  /** On well-formed input every operator leaves one node. */
  lemma {:induction false} EvalFromCountsNodes(stack: seq<V>, tokens: seq<string>)
    requires WellFormedFrom(|stack|, tokens)
    ensures AllInternal(EvalFrom(stack, tokens)) == AllInternal(stack) + OperatorCount(tokens)
    decreases |tokens|
  {
    if tokens != [] {
      var next := EvalStep(stack, tokens[0]);
      StepCountsNodes(stack, tokens[0]);
      OperandTokensCons(tokens);
      EvalFromCountsNodes(next, tokens[1..]);
    }
  }

  /**
   * For well-formed postfix the tree's leaves are the operand tokens in order
   * and it has one internal node per operator.
   */
  lemma EvaluateWellFormed(tokens: seq<string>)
    requires WellFormed(tokens)
    ensures Leaves(Evaluate(tokens)) == OperandTokens(tokens)
    ensures InternalNodes(Evaluate(tokens)) == OperatorCount(tokens)
  {
    EvalFromHeight([], tokens);
    EvalFromKeepsLeaves([], tokens);
    EvalFromCountsNodes([], tokens);
    var s := EvalFrom([], tokens);
    assert s == [] + [s[0]];
    AllLeavesSnoc([], s[0]);
    assert AllLeaves([]) == [] && AllInternal([]) == 0;
    assert AllLeaves(s) == Leaves(s[0]) && AllInternal(s) == InternalNodes(s[0]);
    assert Evaluate(tokens) == s[0];
  }

  /** A lone operand comes back as the bare string, not an array. */
  lemma SingleOperand(token: string)
    requires !IsOperator(token)
    ensures Evaluate([token]) == Str(token)
  {
    assert [token][1..] == [];
    assert EvalFrom([], [token]) == EvalFrom([Str(token)], []) == [Str(token)];
  }

  /** An operator short of operands uses null for each missing one. */
  lemma MissingOperandsAreNull(op: string, token: string)
    requires IsOperator(op) && !IsOperator(token)
    ensures Evaluate([op]) == Node(op, Null, Null)
    ensures Evaluate([token, op]) == Node(op, Null, Str(token))
  {
    assert [op][1..] == [];
    assert [token, op][1..] == [op];
    assert EvalFrom([], [op]) == EvalFrom([Node(op, Null, Null)], []);
    assert EvalFrom([], [token, op]) == EvalFrom([Str(token)], [op]);
    assert EvalFrom([Str(token)], [op]) == EvalFrom([Node(op, Null, Str(token))], []);
  }

  lemma {:induction false} EvalFromAppend(stack: seq<V>, a: seq<string>, b: seq<string>)
    ensures EvalFrom(stack, a + b) == EvalFrom(EvalFrom(stack, a), b)
    decreases |a|
  {
    if a == [] {
      assert a + b == b;
    } else {
      assert (a + b)[0] == a[0] && (a + b)[1..] == a[1..] + b;
      EvalFromAppend(EvalStep(stack, a[0]), a[1..], b);
    }
  }

  /** Well-formed input never reaches below the items it found on the stack. */
  lemma {:induction false} EvalFromFrame(below: seq<V>, stack: seq<V>, tokens: seq<string>)
    requires WellFormedFrom(|stack|, tokens)
    ensures EvalFrom(below + stack, tokens) == below + EvalFrom(stack, tokens)
    decreases |tokens|
  {
    if tokens != [] {
      var t := tokens[0];
      var s := below + stack;
      if IsOperator(t) {
        assert s[|s| - 1] == stack[|stack| - 1] && s[|s| - 2] == stack[|stack| - 2];
        assert s[..|s| - 2] == below + stack[..|stack| - 2];
      }
      assert EvalStep(s, t) == below + EvalStep(stack, t);
      EvalFromFrame(below, EvalStep(stack, t), tokens[1..]);
    }
  }

  lemma WellFormedOne(stack: seq<V>, tokens: seq<string>)
    requires WellFormed(tokens)
    ensures EvalFrom(stack, tokens) == stack + [Evaluate(tokens)]
  {
    EvalFromHeight([], tokens);
    WellFormedFromMore(0, |stack|, tokens);
    EvalFromFrame(stack, [], tokens);
    assert stack + [] == stack;
  }

  lemma {:induction false} WellFormedFromMore(h: nat, extra: nat, tokens: seq<string>)
    requires WellFormedFrom(h, tokens)
    ensures WellFormedFrom(h + extra, tokens)
    decreases |tokens|
  {
    if tokens != [] {
      if IsOperator(tokens[0]) {
        WellFormedFromMore(h - 1, extra, tokens[1..]);
      } else {
        WellFormedFromMore(h + 1, extra, tokens[1..]);
      }
    }
  }

  lemma {:induction false} HeightAfterMore(h: nat, extra: nat, tokens: seq<string>)
    requires WellFormedFrom(h, tokens)
    ensures HeightAfter(h + extra, tokens) == HeightAfter(h, tokens) + extra
    decreases |tokens|
  {
    if tokens != [] {
      if IsOperator(tokens[0]) {
        HeightAfterMore(h - 1, extra, tokens[1..]);
      } else {
        HeightAfterMore(h + 1, extra, tokens[1..]);
      }
    }
  }

  lemma {:induction false} WellFormedFromConcat(h: nat, a: seq<string>, b: seq<string>)
    requires WellFormedFrom(h, a) && WellFormedFrom(HeightAfter(h, a), b)
    ensures WellFormedFrom(h, a + b) && HeightAfter(h, a + b) == HeightAfter(HeightAfter(h, a), b)
    decreases |a|
  {
    if a == [] {
      assert a + b == b;
    } else {
      assert (a + b)[0] == a[0] && (a + b)[1..] == a[1..] + b;
      if IsOperator(a[0]) {
        WellFormedFromConcat(h - 1, a[1..], b);
      } else {
        WellFormedFromConcat(h + 1, a[1..], b);
      }
    }
  }

  /** Two well-formed operands followed by an operator form a well-formed expression. */
  lemma WellFormedAppend(a: seq<string>, b: seq<string>, op: string)
    requires WellFormed(a) && WellFormed(b) && IsOperator(op)
    ensures WellFormed(a + b + [op])
  {
    WellFormedFromMore(0, 1, b);
    HeightAfterMore(0, 1, b);
    WellFormedFromConcat(0, a, b);
    assert [op][1..] == [];
    assert WellFormedFrom(1, []) && HeightAfter(1, []) == 1;
    assert WellFormedFrom(2, [op]);
    assert HeightAfter(2, [op]) == 1;
    WellFormedFromConcat(0, a + b, [op]);
  }

  /**
   * The operand popped second is the left one: postfix `a b op` for two
   * well-formed operands gives `{tag: [a, b]}`.
   */
  lemma SecondPoppedIsLeft(a: seq<string>, b: seq<string>, op: string)
    requires WellFormed(a) && WellFormed(b) && IsOperator(op)
    ensures Evaluate(a + b + [op]) == Node(op, Evaluate(a), Evaluate(b))
  {
    EvalFromAppend([], a + b, [op]);
    EvalFromAppend([], a, b);
    WellFormedOne([], a);
    assert [] + [Evaluate(a)] == [Evaluate(a)];
    WellFormedOne([Evaluate(a)], b);
    assert [op][1..] == [];
  }
}
