/**
 * src/Lib/PostfixConverter.php: an arithmetic expression string becomes a
 * list of tokens in postfix order. `name(args)` without an operator inside
 * is kept as one token; everything else goes through a shunting-yard pass.
 *
 * In the source the stack of `normalizeTokens` has its top at the END of the
 * array (array_pop / `[]=`), and the stack of `convert` has its top at INDEX 0
 * (array_shift / array_unshift); the model keeps both conventions.
 */
module Postfix {

  import opened Php
  import opened Strings

  predicate IsOperator(t: string) {
    t == "+" || t == "-" || t == "*" || t == "/" || t == "%"
  }

  predicate IsBracket(t: string) {
    t == "(" || t == ")"
  }

  predicate IsOperand(t: string) {
    !IsOperator(t) && !IsBracket(t)
  }

  /** `getPriority`: 2 for `* / %`, 1 for `+ -`, 0 for anything else (including "("). */
  function Priority(op: string): (p: nat)
    ensures p == 2 <==> (op == "*" || op == "/" || op == "%")
    ensures p == 1 <==> (op == "+" || op == "-")
    ensures p <= 2 && (p == 0 <==> !IsOperator(op))
  {
    if op == "*" || op == "/" || op == "%" then 2
    else if op == "+" || op == "-" then 1
    else 0
  }

  // ---------------------------------------------------------------------------
  // normalizeExpression / convertExpressionToListToken

  /** The characters the spacing regex of line 31 surrounds with spaces. */
  predicate SpacedAsWritten(c: char) {
    c == '+' || c == '-' || c == '*' || c == '/' || c == '(' || c == ')'
  }

  /** The same set with `%`, the fifth operator of `isOperator` and `getPriority`. */
  predicate Spaced(c: char) {
    SpacedAsWritten(c) || c == '%'
  }

  predicate SpacedBy(c: char, withMod: bool) {
    if withMod then Spaced(c) else SpacedAsWritten(c)
  }

  /** `preg_replace('/ /', '', $e)`. */
  function RemoveBlanks(s: string): (r: string)
    ensures ' ' !in r
  {
    if s == [] then [] else (if s[0] == ' ' then [] else [s[0]]) + RemoveBlanks(s[1..])
  }

  /** `preg_replace('/(...)/', ' $1 ', $e)` for the character class `spaced`. */
  function SpaceAround(s: string, withMod: bool): string {
    if s == [] then []
    else
      (if SpacedBy(s[0], withMod) then [' ', s[0], ' '] else [s[0]])
      + SpaceAround(s[1..], withMod)
  }

  function NormalizeWith(e: string, withMod: bool): string {
    Trim(Collapse(SpaceAround(RemoveBlanks(e), withMod)), TrimDefault)
  }

  /** `normalizeExpression` exactly as written: `%` is not spaced. */
  function NormalizeExpressionAsWritten(e: string): string {
    NormalizeWith(e, false)
  }

  /** `normalizeExpression` with `%` spaced like the other operators. */
  function NormalizeExpression(e: string): string {
    NormalizeWith(e, true)
  }

  /** `convertExpressionToListToken` as written. */
  function ListTokensAsWritten(e: string): seq<string> {
    Split(NormalizeExpressionAsWritten(e), " ")
  }

  /** `convertExpressionToListToken` on the corrected normalisation. */
  function ListTokens(e: string): (ts: seq<string>)
    ensures |ts| >= 1
  {
    Split(NormalizeExpression(e), " ")
  }

  // ---------------------------------------------------------------------------
  // normalizeTokens

  /** Where the inner `while` of lines 49-58 stops: what is left, what was popped and whether an operator was seen. */
  datatype Popped = Popped(rest: seq<string>, tmp: seq<string>, found: bool)

  function PopGroup(stack: seq<string>, tmp: seq<string>, found: bool): (p: Popped)
    ensures |p.rest| <= |stack|
    decreases |stack|
  {
    if stack == [] then Popped(stack, tmp, found)
    else
      var item := stack[|stack| - 1];
      if item == "(" then Popped(stack[..|stack| - 1], tmp + [item], found)
      else PopGroup(stack[..|stack| - 1], tmp + [item], found || IsOperator(item))
  }

  function Reverse(s: seq<string>): (r: seq<string>)
    ensures |r| == |s|
    ensures forall i :: 0 <= i < |s| ==> r[i] == s[|s| - 1 - i]
  {
    if s == [] then [] else Reverse(s[1..]) + [s[0]]
  }

  /** `join($parts)`: the strings concatenated. */
  function Concat(parts: seq<string>): string {
    if parts == [] then [] else parts[0] + Concat(parts[1..])
  }

  /** `array_shift` then `array_pop` on the popped items (each a no-op on an empty array). */
  function DropEnds(tmp: seq<string>): seq<string> {
    if |tmp| >= 2 then tmp[1..|tmp| - 1] else []
  }

  /** What a `)` token does to the stack (lines 46-74). */
  function CloseGroup(stack: seq<string>): seq<string> {
    var p := PopGroup(stack, [")"], false);
    if p.found then p.rest + Reverse(p.tmp)
    else if p.rest == [] then
      // array_pop on an empty stack yields null, which is neither an operator nor a bracket
      [Concat(Reverse(p.tmp))]
    else
      var prev := p.rest[|p.rest| - 1];
      var below := p.rest[..|p.rest| - 1];
      if IsOperator(prev) || IsBracket(prev) then below + [prev] + [Concat(Reverse(DropEnds(p.tmp)))]
      else below + [Concat(Reverse(p.tmp + [prev]))]
  }

  function NormalizeStep(stack: seq<string>, token: string): seq<string> {
    if token == ")" then CloseGroup(stack) else stack + [token]
  }

  /** The stack after `normalizeTokens` has consumed `tokens`. */
  function NormalizeTokensSpec(tokens: seq<string>): seq<string> {
    if tokens == [] then []
    else NormalizeStep(NormalizeTokensSpec(tokens[..|tokens| - 1]), tokens[|tokens| - 1])
  }

  method NormalizeTokens(tokens: seq<string>) returns (stack: seq<string>)
    ensures stack == NormalizeTokensSpec(tokens)
  {
    stack := [];
    for n := 0 to |tokens|
      invariant stack == NormalizeTokensSpec(tokens[..n])
    {
      assert tokens[..n + 1][..n] == tokens[..n];
      var token := tokens[n];
      if token == ")" {
        stack := ApplyClose(stack);
        continue;
      }
      stack := stack + [token];
    }
    assert tokens[..|tokens|] == tokens;
  }

  /** The body of the `)` branch: pop back to the matching "(", then glue or keep the group. */
  method ApplyClose(start: seq<string>) returns (stack: seq<string>)
    ensures stack == CloseGroup(start)
  {
    stack := start;
    var foundOperator := false;
    var tmpArray := [")"];
    while stack != []
      invariant PopGroup(start, [")"], false) == PopGroup(stack, tmpArray, foundOperator)
      decreases |stack|
    {
      var item := stack[|stack| - 1];
      stack := stack[..|stack| - 1];
      tmpArray := tmpArray + [item];
      if item == "(" {
        break;
      }
      if IsOperator(item) {
        foundOperator := true;
      }
    }
    if !foundOperator {
      if stack == [] {
        stack := [Concat(Reverse(tmpArray))];
      } else {
        var previousItem := stack[|stack| - 1];
        stack := stack[..|stack| - 1];
        if IsOperator(previousItem) || IsBracket(previousItem) {
          stack := stack + [previousItem] + [Concat(Reverse(DropEnds(tmpArray)))];
        } else {
          stack := stack + [Concat(Reverse(tmpArray + [previousItem]))];
        }
      }
    } else {
      stack := stack + Reverse(tmpArray);
    }
  }

  // ---------------------------------------------------------------------------
  // convert: the shunting-yard pass (stack top at index 0)

  datatype Shunt = Shunt(stack: seq<string>, output: seq<string>)

  /** Lines 91-93: emit every stacked operator whose priority is at least the token's. */
  function Evict(token: string, s: Shunt): (r: Shunt)
    ensures |r.stack| <= |s.stack|
    decreases |s.stack|
  {
    if s.stack != [] && Priority(token) <= Priority(s.stack[0])
    then Evict(token, Shunt(s.stack[1..], s.output + [s.stack[0]]))
    else s
  }

  /**
   * Lines 104-106: emit up to the nearest "(" and drop it. With no "(" left the
   * PHP loop shifts null off the empty stack forever.
   */
  function PopToOpen(s: Shunt): (r: Result<Shunt>)
    decreases |s.stack|
  {
    if s.stack == [] then Err(Diverges)
    else if s.stack[0] == "(" then Ok(Shunt(s.stack[1..], s.output))
    else PopToOpen(Shunt(s.stack[1..], s.output + [s.stack[0]]))
  }

  function ShuntStep(s: Shunt, token: string): Result<Shunt> {
    if IsOperator(token) then
      var e := Evict(token, s);
      Ok(Shunt([token] + e.stack, e.output))
    else if token == "(" then Ok(Shunt([token] + s.stack, s.output))
    else if token == ")" then PopToOpen(s)
    else Ok(Shunt(s.stack, s.output + [token]))
  }

  function ShuntPrefix(tokens: seq<string>): Result<Shunt> {
    if tokens == [] then Ok(Shunt([], []))
    else
      match ShuntPrefix(tokens[..|tokens| - 1])
      case Err(f) => Err(f)
      case Ok(s) => ShuntStep(s, tokens[|tokens| - 1])
  }

  /** Once a prefix diverges, so does every longer input. */
  lemma ShuntPrefixErrSticks(tokens: seq<string>, n: nat)
    requires n <= |tokens| && ShuntPrefix(tokens[..n]) == Err(Diverges)
    ensures ShuntPrefix(tokens) == Err(Diverges)
    decreases |tokens| - n
  {
    if n < |tokens| {
      assert tokens[..n + 1][..n] == tokens[..n];
      ShuntPrefixErrSticks(tokens, n + 1);
    } else {
      assert tokens[..n] == tokens;
    }
  }

  /** The postfix list for normalised tokens: the output, then the leftover stack from the top down. */
  function ShuntSpec(tokens: seq<string>): Result<seq<string>> {
    match ShuntPrefix(tokens)
    case Err(f) => Err(f)
    case Ok(s) => Ok(s.output + s.stack)
  }

  /** `PostfixConverter::convert`, as a function of the expression string. */
  function ConvertSpec(expression: string): Result<seq<string>> {
    ShuntSpec(NormalizeTokensSpec(ListTokensAsWritten(expression)))
  }

  method Convert(expression: string) returns (r: Result<seq<string>>)
    ensures r == ConvertSpec(expression)
  {
    var tokens := ListTokensAsWritten(expression);
    tokens := NormalizeTokens(tokens);
    r := Shunting(tokens);
  }

  method Shunting(tokens: seq<string>) returns (r: Result<seq<string>>)
    ensures r == ShuntSpec(tokens)
  {
    var stack: seq<string> := [];
    var output: seq<string> := [];
    for n := 0 to |tokens|
      invariant ShuntPrefix(tokens[..n]) == Ok(Shunt(stack, output))
    {
      assert tokens[..n + 1][..n] == tokens[..n];
      var token := tokens[n];
      if IsOperator(token) {
        while stack != [] && Priority(token) <= Priority(stack[0])
          invariant Evict(token, Shunt(stack, output)) == Evict(token, ShuntPrefix(tokens[..n]).value)
          decreases |stack|
        {
          output := output + [stack[0]];
          stack := stack[1..];
        }
        stack := [token] + stack;
        continue;
      }
      if token == "(" {
        stack := [token] + stack;
        continue;
      }
      if token == ")" {
        while true
          invariant PopToOpen(Shunt(stack, output)) == PopToOpen(ShuntPrefix(tokens[..n]).value)
          decreases |stack|
        {
          if stack == [] {
            // PHP: array_shift on an empty array gives null, and null != '(' holds forever
            assert tokens[..n + 1][..n] == tokens[..n];
            ShuntPrefixErrSticks(tokens, n + 1);
            return Err(Diverges);
          }
          var item := stack[0];
          stack := stack[1..];
          if item == "(" {
            break;
          }
          output := output + [item];
        }
        continue;
      }
      output := output + [token];
    }
    assert tokens[..|tokens|] == tokens;
    r := Ok(output + stack);
  }
}
