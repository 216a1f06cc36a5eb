/**
 * The worked example of `PostfixConverter` and `MongoExpressionConverter`:
 * `sum(cost) / (sum(impressions) / 1000 + sum(clicks)) * 100000`, from its
 * token list to the postfix order and the `$divide`/`$add`/`$multiple` tree
 * that the converter's table builds (the test expects `$multiply` at the root).
 */
module PostfixExamples {

  import opened Php
  import opened Postfix
  import opened Strings
  import PostfixLemmas
  import MongoExpression

  /** The tokens of the example expression before any bracket is collapsed. */
  function RawTokens(): seq<string> {
    ["sum", "(", "cost", ")", "/", "(", "sum", "(", "impressions", ")", "/", "1000", "+",
     "sum", "(", "clicks", ")", ")", "*", "100000"]
  }

  /** The same tokens once every call has been glued back into one operand. */
  function CallTokens(): seq<string> {
    ["sum(cost)", "/", "(", "sum(impressions)", "/", "1000", "+", "sum(clicks)", ")", "*", "100000"]
  }

  /** The postfix order the converter produces for the example. */
  function ExamplePostfix(): seq<string> {
    ["sum(cost)", "sum(impressions)", "1000", "/", "sum(clicks)", "+", "/", "100000", "*"]
  }

  // ---------------------------------------------------------------------------
  // normalizeTokens on the example

  lemma NormalizeSnoc(ts: seq<string>, t: string)
    ensures NormalizeTokensSpec(ts + [t]) == NormalizeStep(NormalizeTokensSpec(ts), t)
  {
    assert (ts + [t])[..|ts|] == ts;
  }

  /** Tokens other than ")" are simply pushed. */
  lemma {:induction false} PushRun(ts: seq<string>, run: seq<string>)
    requires ")" !in run
    ensures NormalizeTokensSpec(ts + run) == NormalizeTokensSpec(ts) + run
    decreases |run|
  {
    if run != [] {
      var init, last := run[..|run| - 1], run[|run| - 1];
      LastOfRun(run);
      PushRun(ts, init);
      NormalizeSnoc(ts + init, last);
      ConcatAssoc(ts, init, [last]);
      ConcatAssoc(NormalizeTokensSpec(ts), init, [last]);
    } else {
      assert ts + run == ts;
    }
  }

  lemma LastOfRun(run: seq<string>)
    requires run != [] && ")" !in run
    ensures run == run[..|run| - 1] + [run[|run| - 1]]
    ensures ")" !in run[..|run| - 1] && run[|run| - 1] != ")"
  {
    assert run[|run| - 1] in run;
    assert forall t :: t in run[..|run| - 1] ==> t in run;
  }

  /** A run of pushed tokens that ends `name ( arg`, closed by ")", leaves the call as one token. */
  lemma GlueCall(q: seq<string>, run: seq<string>, below: seq<string>, name: string, arg: string, call: string)
    requires ")" !in run && IsOperand(name) && !IsOperator(arg) && arg != "("
    requires call == name + "(" + arg + ")"
    requires NormalizeTokensSpec(q) + run == below + [name, "("] + [arg]
    ensures NormalizeTokensSpec(q + run + [")"]) == below + [call]
  {
    PushRun(q, run);
    NormalizeSnoc(q + run, ")");
    assert PostfixLemmas.NoOperator([arg]) && "(" !in [arg];
    PostfixLemmas.CallCollapses(below, name, [arg]);
    assert Concat([arg]) == arg;
  }

  /** `sum ( cost )` becomes `sum(cost)`. */
  lemma GluedCost()
    ensures NormalizeTokensSpec(["sum", "(", "cost", ")"]) == ["sum(cost)"]
  {
    GlueCall([], ["sum", "(", "cost"], [], "sum", "cost", "sum(cost)");
    assert [] + ["sum", "(", "cost"] + [")"] == ["sum", "(", "cost", ")"];
  }

  /** The second call, inside the bracket, is glued the same way. */
  lemma GluedImpressions()
    ensures NormalizeTokensSpec(["sum", "(", "cost", ")", "/", "(", "sum", "(", "impressions", ")"])
         == ["sum(cost)", "/", "(", "sum(impressions)"]
  {
    var q := ["sum", "(", "cost", ")"];
    var run := ["/", "(", "sum", "(", "impressions"];
    GluedCost();
    GlueCall(q, run, ["sum(cost)", "/", "("], "sum", "impressions", "sum(impressions)");
    assert q + run + [")"] == ["sum", "(", "cost", ")", "/", "(", "sum", "(", "impressions", ")"];
  }

  /** And the third. */
  lemma GluedClicks()
    ensures NormalizeTokensSpec(RawTokens()[..17])
         == ["sum(cost)", "/", "(", "sum(impressions)", "/", "1000", "+", "sum(clicks)"]
  {
    var q := ["sum", "(", "cost", ")", "/", "(", "sum", "(", "impressions", ")"];
    var run := ["/", "1000", "+", "sum", "(", "clicks"];
    GluedImpressions();
    GlueCall(q, run, ["sum(cost)", "/", "(", "sum(impressions)", "/", "1000", "+"], "sum", "clicks", "sum(clicks)");
    ClicksSplit();
  }

  lemma ClicksSplit()
    ensures ["sum", "(", "cost", ")", "/", "(", "sum", "(", "impressions", ")"] + ["/", "1000", "+", "sum", "(", "clicks"]
          + [")"] == RawTokens()[..17]
  {
  }

  /** The bracket around `... / 1000 + sum(clicks)` holds operators, so it is kept. */
  lemma GroupKept()
    ensures NormalizeTokensSpec(RawTokens()[..18])
         == ["sum(cost)", "/", "(", "sum(impressions)", "/", "1000", "+", "sum(clicks)", ")"]
  {
    var q := RawTokens()[..17];
    var below := ["sum(cost)", "/"];
    var args := ClicksGroup();
    GluedClicks();
    ClicksGroupParts();
    NormalizeSnoc(q, ")");
    PostfixLemmas.OperatorGroupRestored(below, args);
    RawPrefix(17);
  }

  /** The operands and operators inside the bracket of the example. */
  function ClicksGroup(): seq<string> {
    ["sum(impressions)", "/", "1000", "+", "sum(clicks)"]
  }

  lemma ClicksGroupParts()
    ensures ["sum(cost)", "/", "(", "sum(impressions)", "/", "1000", "+", "sum(clicks)"]
         == ["sum(cost)", "/"] + ["("] + ClicksGroup()
    ensures ["sum(cost)", "/"] + ["("] + ClicksGroup() + [")"]
         == ["sum(cost)", "/", "(", "sum(impressions)", "/", "1000", "+", "sum(clicks)", ")"]
    ensures !PostfixLemmas.NoOperator(ClicksGroup()) && "(" !in ClicksGroup()
  {
    var args := ClicksGroup();
    assert args[1] == "/" && IsOperator(args[1]) && args[1] in args;
    assert |args[0]| > 1 && |args[2]| > 1 && |args[4]| > 1 && args[3] == "+";
  }

  lemma RawPrefix(k: nat)
    requires k < |RawTokens()|
    ensures RawTokens()[..k] + [RawTokens()[k]] == RawTokens()[..k + 1]
  {
  }

  /** `normalizeTokens` glues `sum ( cost )` into `sum(cost)` and keeps the bracketed sum. */
  lemma CallsGlued()
    ensures NormalizeTokensSpec(RawTokens()) == CallTokens()
  {
    var q := RawTokens()[..18];
    GroupKept();
    PushRun(q, ["*", "100000"]);
    assert q + ["*", "100000"] == RawTokens();
  }

  // ---------------------------------------------------------------------------
  // The shunting-yard pass on the example

  lemma ShuntSnoc(ts: seq<string>, t: string, s: Shunt, next: Shunt)
    requires ShuntPrefix(ts) == Ok(s) && ShuntStep(s, t) == Ok(next)
    ensures ShuntPrefix(ts + [t]) == Ok(next)
  {
    assert (ts + [t])[..|ts|] == ts;
  }

  /** The shunting state after each prefix of the glued tokens. */
  function Trace(k: nat): Shunt
    requires k <= 11
  {
    var a, b, c := "sum(cost)", "sum(impressions)", "sum(clicks)";
    if k == 0 then Shunt([], [])
    else if k == 1 then Shunt([], [a])
    else if k == 2 then Shunt(["/"], [a])
    else if k == 3 then Shunt(["(", "/"], [a])
    else if k == 4 then Shunt(["(", "/"], [a, b])
    else if k == 5 then Shunt(["/", "(", "/"], [a, b])
    else if k == 6 then Shunt(["/", "(", "/"], [a, b, "1000"])
    else if k == 7 then Shunt(["+", "(", "/"], [a, b, "1000", "/"])
    else if k == 8 then Shunt(["+", "(", "/"], [a, b, "1000", "/", c])
    else if k == 9 then Shunt(["/"], [a, b, "1000", "/", c, "+"])
    else if k == 10 then Shunt(["*"], [a, b, "1000", "/", c, "+", "/"])
    else Shunt(["*"], [a, b, "1000", "/", c, "+", "/", "100000"])
  }

  /** "+" evicts the inner "/" and stops at "(". */
  lemma PlusEvictsQuotient()
    ensures ShuntStep(Trace(6), "+") == Ok(Trace(7))
  {
    var a, b := "sum(cost)", "sum(impressions)";
    assert ["/", "(", "/"][1..] == ["(", "/"] && [a, b, "1000"] + ["/"] == [a, b, "1000", "/"];
    var moved := Shunt(["(", "/"], [a, b, "1000", "/"]);
    assert Evict("+", Trace(6)) == Evict("+", moved);
    assert Evict("+", moved) == moved;
    assert ["+"] + ["(", "/"] == ["+", "(", "/"];
  }

  /** ")" emits "+" and drops the "(". */
  lemma CloseEmitsSum()
    ensures ShuntStep(Trace(8), ")") == Ok(Trace(9))
  {
    var a, b, c := "sum(cost)", "sum(impressions)", "sum(clicks)";
    assert ["+", "(", "/"][1..] == ["(", "/"] && [a, b, "1000", "/", c] + ["+"] == [a, b, "1000", "/", c, "+"];
    assert PopToOpen(Trace(8)) == PopToOpen(Shunt(["(", "/"], [a, b, "1000", "/", c, "+"]));
  }

  /** "*" evicts the outer "/". */
  lemma TimesEvictsQuotient()
    ensures ShuntStep(Trace(9), "*") == Ok(Trace(10))
  {
    var a, b, c := "sum(cost)", "sum(impressions)", "sum(clicks)";
    assert ["/"][1..] == [] && [a, b, "1000", "/", c, "+"] + ["/"] == [a, b, "1000", "/", c, "+", "/"];
    var moved := Shunt([], [a, b, "1000", "/", c, "+", "/"]);
    assert Evict("*", Trace(9)) == Evict("*", moved);
    assert Evict("*", moved) == moved;
    assert ["*"] + [] == ["*"];
  }

  /** An operand is appended to the output; "(" and an operator over an empty stack or a "(" are pushed. */
  lemma PlainSteps(k: nat)
    requires k < 11 && k != 6 && k != 8 && k != 9
    ensures ShuntStep(Trace(k), CallTokens()[k]) == Ok(Trace(k + 1))
  {
    if k == 1 {
      assert CallTokens()[k] == "/" && Evict("/", Trace(1)) == Trace(1);
      assert ["/"] + [] == ["/"];
    } else if k == 4 {
      assert CallTokens()[k] == "/" && Evict("/", Trace(4)) == Trace(4);
      assert ["/"] + ["(", "/"] == ["/", "(", "/"];
    } else if k == 2 {
      assert CallTokens()[k] == "(" && ["("] + ["/"] == ["(", "/"];
    } else {
      var t := CallTokens()[k];
      assert !IsOperator(t) && t != "(" && t != ")";
      assert Trace(k).output + [t] == Trace(k + 1).output;
      assert Trace(k).stack == Trace(k + 1).stack;
    }
  }

  lemma TraceStep(k: nat)
    requires k < 11
    ensures ShuntStep(Trace(k), CallTokens()[k]) == Ok(Trace(k + 1))
  {
    if k == 6 {
      PlusEvictsQuotient();
    } else if k == 8 {
      CloseEmitsSum();
    } else if k == 9 {
      TimesEvictsQuotient();
    } else {
      PlainSteps(k);
    }
  }

  lemma CallPrefixSnoc(k: nat)
    requires k < 11
    ensures CallTokens()[..k] + [CallTokens()[k]] == CallTokens()[..k + 1]
  {
  }

  /** The shunting pass follows the trace token by token. */
  lemma {:induction false} ShuntedUpTo(k: nat)
    requires k <= 11
    ensures ShuntPrefix(CallTokens()[..k]) == Ok(Trace(k))
    decreases k
  {
    if k == 0 {
      assert CallTokens()[..0] == [];
    } else {
      ShuntedUpTo(k - 1);
      TraceStep(k - 1);
      ShuntSnoc(CallTokens()[..k - 1], CallTokens()[k - 1], Trace(k - 1), Trace(k));
      CallPrefixSnoc(k - 1);
    }
  }

  /** The shunting-yard pass over the glued tokens yields the postfix order. */
  lemma ExampleShunted()
    ensures ShuntSpec(CallTokens()) == Ok(ExamplePostfix())
  {
    ShuntedUpTo(11);
    assert CallTokens()[..11] == CallTokens();
    assert ["sum(cost)", "sum(impressions)", "1000", "/", "sum(clicks)", "+", "/", "100000"] + ["*"] == ExamplePostfix();
  }

  // ---------------------------------------------------------------------------
  // The tree `MongoExpressionConverter::convert` builds from the postfix order

  /** A node written the way the converter's expected output spells it. */
  function Op(tag: string, left: V, right: V): V {
    Obj([(tag, Arr([left, right]))])
  }

  lemma WellFormedOperand(t: string)
    requires !IsOperator(t)
    ensures MongoExpression.WellFormed([t]) && MongoExpression.Evaluate([t]) == Str(t)
  {
    MongoExpression.SingleOperand(t);
  }

  lemma WellFormedNode(a: seq<string>, b: seq<string>, op: string)
    requires MongoExpression.WellFormed(a) && MongoExpression.WellFormed(b) && IsOperator(op)
    ensures MongoExpression.WellFormed(a + b + [op])
  {
    MongoExpression.WellFormedAppend(a, b, op);
  }

  /** `sum(impressions) / 1000 + sum(clicks)`, the bracketed sum. */
  lemma InnerSum()
    ensures MongoExpression.WellFormed(ExamplePostfix()[1..6])
    ensures MongoExpression.Evaluate(ExamplePostfix()[1..6])
         == Op("$add", Op("$divide", Str("sum(impressions)"), Str("1000")), Str("sum(clicks)"))
  {
    var quotient := ["sum(impressions)"] + ["1000"] + ["/"];
    WellFormedOperand("sum(impressions)");
    WellFormedOperand("1000");
    WellFormedOperand("sum(clicks)");
    MongoExpression.SecondPoppedIsLeft(["sum(impressions)"], ["1000"], "/");
    WellFormedNode(["sum(impressions)"], ["1000"], "/");
    MongoExpression.SecondPoppedIsLeft(quotient, ["sum(clicks)"], "+");
    WellFormedNode(quotient, ["sum(clicks)"], "+");
    InnerSplit();
  }

  lemma InnerSplit()
    ensures ["sum(impressions)"] + ["1000"] + ["/"] + ["sum(clicks)"] + ["+"] == ExamplePostfix()[1..6]
  {
  }

  /** `sum(cost) / (...)`, before the final multiplication. */
  lemma OuterQuotient()
    ensures MongoExpression.WellFormed(ExamplePostfix()[..7])
    ensures MongoExpression.Evaluate(ExamplePostfix()[..7])
         == Op("$divide", Str("sum(cost)"),
               Op("$add", Op("$divide", Str("sum(impressions)"), Str("1000")), Str("sum(clicks)")))
  {
    var inner := ExamplePostfix()[1..6];
    InnerSum();
    WellFormedOperand("sum(cost)");
    MongoExpression.SecondPoppedIsLeft(["sum(cost)"], inner, "/");
    WellFormedNode(["sum(cost)"], inner, "/");
    QuotientSplit();
  }

  lemma QuotientSplit()
    ensures ["sum(cost)"] + ExamplePostfix()[1..6] + ["/"] == ExamplePostfix()[..7]
  {
  }

  /**
   * The example evaluates to the `$divide` / `$add` tree of its expected
   * output, under a root tagged `$multiple` where the test expects `$multiply`.
   */
  lemma ExampleTree()
    ensures MongoExpression.Evaluate(ExamplePostfix())
         == Op("$multiple",
               Op("$divide", Str("sum(cost)"),
                  Op("$add", Op("$divide", Str("sum(impressions)"), Str("1000")), Str("sum(clicks)"))),
               Str("100000"))
  {
    var quotient := ExamplePostfix()[..7];
    OuterQuotient();
    WellFormedOperand("100000");
    MongoExpression.SecondPoppedIsLeft(quotient, ["100000"], "*");
    OuterSplit();
  }

  lemma OuterSplit()
    ensures ExamplePostfix()[..7] + ["100000"] + ["*"] == ExamplePostfix()
  {
  }
}
