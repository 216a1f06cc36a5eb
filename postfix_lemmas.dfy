/**
 * What `PostfixConverter` promises: the shape of the token list, the three
 * ways a `)` rewrites the stack in `normalizeTokens`, and that the
 * shunting-yard pass is a reordering with operands kept in order.
 */
module PostfixLemmas {

  import opened Php
  import opened Strings
  import opened Postfix

  // ---------------------------------------------------------------------------
  // Tokenising

  /** Every spaced character of `s` has a blank on each side that exists. */
  ghost predicate Isolated(s: string, withMod: bool) {
    forall i :: 0 <= i < |s| && SpacedBy(s[i], withMod) ==>
      (i > 0 ==> s[i - 1] == ' ') && (i + 1 < |s| ==> s[i + 1] == ' ')
  }

  lemma IsolatedSlice(s: string, a: nat, b: nat, withMod: bool)
    requires a <= b <= |s| && Isolated(s, withMod)
    ensures Isolated(s[a..b], withMod)
  {
    var t := s[a..b];
    forall i | 0 <= i < |t| && SpacedBy(t[i], withMod)
      ensures (i > 0 ==> t[i - 1] == ' ') && (i + 1 < |t| ==> t[i + 1] == ' ')
    {
      assert t[i] == s[a + i];
    }
  }

  lemma IsolatedConcat(a: string, b: string, withMod: bool)
    requires Isolated(a, withMod) && Isolated(b, withMod)
    requires a != [] && b != [] && SpacedBy(a[|a| - 1], withMod) ==> b[0] == ' '
    requires a != [] && b != [] && SpacedBy(b[0], withMod) ==> a[|a| - 1] == ' '
    ensures Isolated(a + b, withMod)
  {
    var s := a + b;
    forall i | 0 <= i < |s| && SpacedBy(s[i], withMod)
      ensures (i > 0 ==> s[i - 1] == ' ') && (i + 1 < |s| ==> s[i + 1] == ' ')
    {
      if i < |a| {
        assert s[i] == a[i];
        if i + 1 < |a| { assert s[i + 1] == a[i + 1]; }
        if i > 0 { assert s[i - 1] == a[i - 1]; }
      } else {
        assert s[i] == b[i - |a|];
        if i > |a| { assert s[i - 1] == b[i - 1 - |a|]; }
        if i + 1 < |s| { assert s[i + 1] == b[i + 1 - |a|]; }
      }
    }
  }

  lemma {:induction false} SpaceAroundIsolated(s: string, withMod: bool)
    ensures Isolated(SpaceAround(s, withMod), withMod)
    ensures var r := SpaceAround(s, withMod); r != [] ==> !SpacedBy(r[0], withMod)
    decreases |s|
  {
    if s != [] {
      var piece: string := if SpacedBy(s[0], withMod) then [' ', s[0], ' '] else [s[0]];
      SpaceAroundIsolated(s[1..], withMod);
      IsolatedConcat(piece, SpaceAround(s[1..], withMod), withMod);
    }
  }

  lemma {:induction false} CollapseIsolated(s: string, withMod: bool)
    requires Isolated(s, withMod)
    ensures Isolated(Collapse(s), withMod)
    decreases |s|
  {
    if s == [] {
    } else if IsSpace(s[0]) {
      var rest := SkipSpaces(s[1..]);
      TailIsolated(s, |s| - |rest|, withMod);
      CollapseIsolated(rest, withMod);
      IsolatedConcat([' '], Collapse(rest), withMod);
    } else {
      TailIsolated(s, 1, withMod);
      CollapseIsolated(s[1..], withMod);
      KeptCharIsolated(s, Collapse(s[1..]), withMod);
    }
  }

  lemma TailIsolated(s: string, a: nat, withMod: bool)
    requires a <= |s| && Isolated(s, withMod)
    ensures Isolated(s[a..], withMod)
  {
    IsolatedSlice(s, a, |s|, withMod);
    assert s[a..|s|] == s[a..];
  }

  /** A kept first character in front of the collapsed rest stays isolated. */
  lemma KeptCharIsolated(s: string, c: string, withMod: bool)
    requires s != [] && !IsSpace(s[0]) && Isolated(s, withMod) && Isolated(c, withMod)
    requires c == [] <==> |s| == 1
    requires |s| > 1 ==> c[0] == (if IsSpace(s[1]) then ' ' else s[1])
    ensures Isolated([s[0]] + c, withMod)
  {
    assert !(|s| > 1 && SpacedBy(s[1], withMod));
    IsolatedConcat([s[0]], c, withMod);
  }

  lemma TrimIsolated(s: string, cs: set<char>, withMod: bool)
    requires Isolated(s, withMod)
    ensures Isolated(Trim(s, cs), withMod)
  {
    var l := TrimLeft(s, cs);
    IsolatedSlice(s, |s| - |l|, |s|, withMod);
    IsolatedSlice(l, 0, |TrimRight(l, cs)|, withMod);
  }

  lemma {:induction false} SplitIsolated(s: string, withMod: bool)
    requires Isolated(s, withMod)
    ensures forall p :: p in Split(s, " ") ==> Isolated(p, withMod)
    decreases |s|
  {
    match Find(s, " ")
    case None =>
    case Some(i) =>
      var rest := s[i + 1..];
      IsolatedSlice(s, 0, i, withMod);
      IsolatedSlice(s, i + 1, |s|, withMod);
      assert s[i + 1..|s|] == rest;
      SplitIsolated(rest, withMod);
      assert Split(s, " ") == [s[..i]] + Split(rest, " ");
      forall p | p in Split(s, " ") ensures Isolated(p, withMod) {
        if p != s[..i] {
          assert p in Split(rest, " ");
        }
      }
  }

  lemma LoneSpaced(p: string, c: char, withMod: bool)
    requires Isolated(p, withMod) && ' ' !in p && SpacedBy(c, withMod) && c in p
    ensures p == [c]
  {
    forall k | 0 <= k < |p|
      ensures SpacedBy(p[k], withMod) ==> k == 0 && k + 1 == |p|
    {
      if k > 0 { assert p[k - 1] in p; }
      if k + 1 < |p| { assert p[k + 1] in p; }
    }
    var j :| 0 <= j < |p| && p[j] == c;
  }

  lemma IsolatedTokens(n: string, withMod: bool)
    requires Isolated(n, withMod)
    ensures forall t :: t in Split(n, " ") ==> ' ' !in t
    ensures forall t, c :: t in Split(n, " ") && SpacedBy(c, withMod) && c in t ==> t == [c]
  {
    SplitIsolated(n, withMod);
    SplitPartsAvoidSeparator(n, ' ');
    forall t, c | t in Split(n, " ") && SpacedBy(c, withMod) && c in t
      ensures t == [c]
    {
      LoneSpaced(t, c, withMod);
    }
  }

  lemma NormalizedIsolated(e: string, withMod: bool)
    ensures Isolated(NormalizeWith(e, withMod), withMod)
  {
    var a := SpaceAround(RemoveBlanks(e), withMod);
    SpaceAroundIsolated(RemoveBlanks(e), withMod);
    CollapseIsolated(a, withMod);
    TrimIsolated(Collapse(a), TrimDefault, withMod);
  }

  /**
   * After `normalizeExpression` and `explode(' ', ...)` no token holds a blank,
   * and a token holding one of the spaced characters is that character alone.
   */
  lemma TokensIsolated(e: string, withMod: bool)
    ensures forall t :: t in Split(NormalizeWith(e, withMod), " ") ==> ' ' !in t
    ensures forall t, c :: t in Split(NormalizeWith(e, withMod), " ") && SpacedBy(c, withMod) && c in t ==> t == [c]
  {
    NormalizedIsolated(e, withMod);
    IsolatedTokens(NormalizeWith(e, withMod), withMod);
  }

  /** The corrected tokeniser isolates every operator and bracket, `%` included. */
  lemma ListTokensSeparateOperators(e: string)
    ensures forall t :: t in ListTokens(e) ==> ' ' !in t
    ensures forall t, c :: t in ListTokens(e) && Spaced(c) && c in t ==> t == [c]
  {
    TokensIsolated(e, true);
  }

  // ---------------------------------------------------------------------------
  // `%` between two operands (the spacing regex of line 31 leaves it out)

  /** A character no step of `normalizeExpression` touches. */
  predicate Plain(c: char) {
    !IsSpace(c) && !Spaced(c) && c !in TrimDefault
  }

  predicate AllPlain(s: string) {
    forall i :: 0 <= i < |s| ==> Plain(s[i])
  }

  lemma {:induction false} RemoveBlanksPlain(s: string)
    requires forall i :: 0 <= i < |s| ==> s[i] != ' '
    ensures RemoveBlanks(s) == s
  {
    if s != [] {
      RemoveBlanksPlain(s[1..]);
    }
  }

  lemma {:induction false} SpaceAroundAppend(a: string, b: string, withMod: bool)
    ensures SpaceAround(a + b, withMod) == SpaceAround(a, withMod) + SpaceAround(b, withMod)
  {
    if a != [] {
      Uncons(a, b);
      SpaceAroundAppend(a[1..], b, withMod);
      var h := if SpacedBy(a[0], withMod) then [' ', a[0], ' '] else [a[0]];
      assert SpaceAround(a + b, withMod) == h + SpaceAround(a[1..] + b, withMod);
      assert SpaceAround(a, withMod) == h + SpaceAround(a[1..], withMod);
      ConcatAssoc(h, SpaceAround(a[1..], withMod), SpaceAround(b, withMod));
    } else {
      assert a + b == b;
    }
  }

  lemma {:induction false} SpaceAroundPlain(s: string, withMod: bool)
    requires AllPlain(s)
    ensures SpaceAround(s, withMod) == s
  {
    if s != [] {
      SpaceAroundPlain(s[1..], withMod);
    }
  }

  lemma CollapseBlank(t: string)
    requires t != [] && !IsSpace(t[0])
    ensures Collapse(" " + t) == " " + Collapse(t)
  {
    assert (" " + t)[1..] == t;
  }

  lemma TrimPlainEnds(s: string)
    requires s != [] && s[0] !in TrimDefault && s[|s| - 1] !in TrimDefault
    ensures Trim(s, TrimDefault) == s
  {
  }

  lemma PlainNoBlank(a: string)
    requires AllPlain(a)
    ensures ' ' !in a
    ensures forall i :: 0 <= i < |a| ==> !IsSpace(a[i]) && a[i] != ' '
  {
    forall i | 0 <= i < |a| ensures a[i] != ' ' {
      assert Plain(a[i]);
    }
  }

  lemma BlankModuloBlank(b: string)
    requires RemoveBlanks(b) == b
    ensures RemoveBlanks(" % " + b) == "%" + b
  {
    var t1 := " " + b;
    var t2 := "%" + t1;
    var t3 := " " + t2;
    assert RemoveBlanks(t1) == b by { assert t1[1..] == b; }
    assert RemoveBlanks(t2) == "%" + b by { assert t2[1..] == t1; }
    assert RemoveBlanks(t3) == "%" + b by { assert t3[1..] == t2; }
    assert t3 == " % " + b;
  }

  /** Both tokenisers drop the blanks of `a % b` to `a%b`. */
  lemma ModuloBlanksRemoved(a: string, b: string)
    requires AllPlain(a) && AllPlain(b)
    ensures RemoveBlanks(a + " % " + b) == a + "%" + b
  {
    PlainNoBlank(a);
    PlainNoBlank(b);
    RemoveBlanksPlain(a);
    RemoveBlanksPlain(b);
    BlankModuloBlank(b);
    RemoveBlanksAppend(a, " % " + b);
    assert a + " % " + b == a + (" % " + b);
    assert a + ("%" + b) == a + "%" + b;
  }

  lemma ModuloSpacing(a: string, b: string, withMod: bool)
    requires AllPlain(a) && AllPlain(b)
    ensures SpaceAround(a + "%" + b, withMod) == if withMod then a + " % " + b else a + "%" + b
  {
    var pct: string := if withMod then " % " else "%";
    ConcatAssoc(a, "%", b);
    SpaceAroundAppend(a, "%" + b, withMod);
    SpacedModulo(b, withMod);
    SpaceAroundPlain(a, withMod);
    ConcatAssoc(a, pct, b);
  }

  lemma SpacedModulo(b: string, withMod: bool)
    requires AllPlain(b)
    ensures SpaceAround("%" + b, withMod) == (if withMod then " % " else "%") + b
  {
    SpaceAroundAppend("%", b, withMod);
    SpaceAroundPlain(b, withMod);
    assert SpaceAround("%", withMod) == if withMod then " % " else "%";
  }

  lemma GluedUnchanged(a: string, b: string)
    requires a != [] && b != [] && AllPlain(a) && AllPlain(b)
    ensures Split(Trim(Collapse(a + "%" + b), TrimDefault), " ") == [a + "%" + b]
  {
    var g := a + "%" + b;
    PlainNoBlank(a);
    PlainNoBlank(b);
    forall i | 0 <= i < |g| ensures !IsSpace(g[i]) && g[i] != ' ' {
      if i < |a| { assert g[i] == a[i]; } else if i > |a| { assert g[i] == b[i - |a| - 1]; }
    }
    CollapseNoSpace(g, []);
    assert g + [] == g;
    assert g[0] == a[0] && g[|g| - 1] == b[|b| - 1];
    assert Plain(a[0]) && Plain(b[|b| - 1]);
    TrimPlainEnds(g);
    SplitNone(g, ' ');
  }

  lemma SeparatedCollapsed(a: string, b: string)
    requires AllPlain(a) && AllPlain(b) && b != []
    ensures Collapse(a + " % " + b) == a + " % " + b
  {
    PlainNoBlank(a);
    SeparatedTailCollapsed(b);
    CollapseNoSpace(a, " % " + b);
    ConcatAssoc(a, " % ", b);
  }

  lemma SeparatedTailCollapsed(b: string)
    requires AllPlain(b) && b != []
    ensures Collapse(" % " + b) == " % " + b
  {
    PlainNoBlank(b);
    var t1 := " " + b;
    var t2 := "%" + t1;
    var t3 := " " + t2;
    assert Collapse(b) == b by {
      CollapseNoSpace(b, []);
      assert b + [] == b;
    }
    assert Collapse(t1) == t1 by { CollapseBlank(b); }
    assert Collapse(t2) == t2 by { CollapseNoSpace("%", t1); }
    assert Collapse(t3) == t3 by { CollapseBlank(t2); }
    SeparatedLiteral(b);
  }

  lemma SeparatedLiteral(b: string)
    ensures " " + ("%" + (" " + b)) == " % " + b
    ensures " " + ("%" + " " + b) == " % " + b
  {
  }

  lemma SeparatedSplit(a: string, b: string)
    requires ' ' !in a && ' ' !in b
    ensures Split(a + " % " + b, " ") == [a, "%", b]
  {
    var t := "%" + " " + b;
    assert Split(t, " ") == ["%", b] by {
      SplitNone(b, ' ');
      SplitAt("%", ' ', b);
    }
    SplitAt(a, ' ', t);
    ConcatAssoc(a, " ", t);
    SeparatedLiteral(b);
    ConcatAssoc(a, " % ", b);
  }

  lemma SeparatedUnchanged(a: string, b: string)
    requires a != [] && b != [] && AllPlain(a) && AllPlain(b)
    ensures Split(Trim(Collapse(a + " % " + b), TrimDefault), " ") == [a, "%", b]
  {
    var n := a + " % " + b;
    SeparatedCollapsed(a, b);
    assert n[0] == a[0] && n[|n| - 1] == b[|b| - 1];
    assert Plain(a[0]) && Plain(b[|b| - 1]);
    TrimPlainEnds(n);
    PlainNoBlank(a);
    PlainNoBlank(b);
    SeparatedSplit(a, b);
  }

  /** As written, `a % b` between plain operands stays one token `a%b`. */
  lemma ModuloGluedAsWritten(a: string, b: string)
    requires a != [] && b != [] && AllPlain(a) && AllPlain(b)
    ensures ListTokensAsWritten(a + " % " + b) == [a + "%" + b]
  {
    ModuloBlanksRemoved(a, b);
    ModuloSpacing(a, b, false);
    GluedUnchanged(a, b);
  }

  /** With `%` spaced like the other operators, `a % b` gives the three tokens. */
  lemma ModuloSeparated(a: string, b: string)
    requires a != [] && b != [] && AllPlain(a) && AllPlain(b)
    ensures ListTokens(a + " % " + b) == [a, "%", b]
  {
    ModuloBlanksRemoved(a, b);
    ModuloSpacing(a, b, true);
    SeparatedUnchanged(a, b);
  }

  lemma {:induction false} RemoveBlanksAppend(a: string, b: string)
    ensures RemoveBlanks(a + b) == RemoveBlanks(a) + RemoveBlanks(b)
  {
    if a != [] {
      assert (a + b)[1..] == a[1..] + b;
      RemoveBlanksAppend(a[1..], b);
    } else {
      assert a + b == b;
    }
  }

  // ---------------------------------------------------------------------------
  // Helpers on token lists

  lemma ReverseAppend(a: seq<string>, b: seq<string>)
    ensures Reverse(a + b) == Reverse(b) + Reverse(a)
  {
  }

  lemma ReverseReverse(a: seq<string>)
    ensures Reverse(Reverse(a)) == a
  {
  }

  lemma {:induction false} ConcatAppend(a: seq<string>, b: seq<string>)
    ensures Concat(a + b) == Concat(a) + Concat(b)
  {
    if a != [] {
      assert (a + b)[1..] == a[1..] + b;
      ConcatAppend(a[1..], b);
    } else {
      assert a + b == b;
    }
  }

  predicate NoOperator(args: seq<string>) {
    forall t :: t in args ==> !IsOperator(t)
  }

  /** Popping `args` (which hold no "(") moves them, last first, onto the popped items. */
  lemma {:induction false} PopGroupThrough(below: seq<string>, args: seq<string>, tmp: seq<string>, found: bool)
    requires "(" !in args
    ensures PopGroup(below + args, tmp, found)
         == PopGroup(below, tmp + Reverse(args), found || !NoOperator(args))
    decreases |args|
  {
    if args != [] {
      var last := args[|args| - 1];
      var init := args[..|args| - 1];
      assert (below + args)[..|below + args| - 1] == below + init;
      assert args == init + [last];
      ReverseAppend(init, [last]);
      assert tmp + [last] + Reverse(init) == tmp + Reverse(args);
      PopGroupThrough(below, init, tmp + [last], found || IsOperator(last));
    } else {
      assert below + args == below;
      assert tmp + Reverse(args) == tmp;
    }
  }

  lemma ConcatReverseGroup(name: string, args: seq<string>)
    ensures Concat(Reverse([")"] + Reverse(args) + ["(", name])) == name + "(" + Concat(args) + ")"
  {
    ReverseGroup(name, args);
    ConcatCall(name, args);
  }

  /** The popped items, read back in source order. */
  lemma ReverseGroup(name: string, args: seq<string>)
    ensures Reverse([")"] + Reverse(args) + ["(", name]) == [name, "("] + args + [")"]
  {
    ReverseAppend([")"] + Reverse(args), ["(", name]);
    ReverseAppend([")"], Reverse(args));
    ReverseReverse(args);
    assert Reverse(["(", name]) == [name, "("];
    assert Reverse([")"]) == [")"];
  }

  lemma ConcatCall(name: string, args: seq<string>)
    ensures Concat([name, "("] + args + [")"]) == name + "(" + Concat(args) + ")"
  {
    ConcatAppend([name, "("] + args, [")"]);
    ConcatAppend([name, "("], args);
    assert Concat([name, "("]) == name + "(";
    assert Concat([")"]) == ")";
  }

  // ---------------------------------------------------------------------------
  // normalizeTokens: what a `)` does

  /** Popping down to the "(" above `base`: what `PopGroup` returns for `base + ["("] + args`. */
  lemma PopToBracket(base: seq<string>, args: seq<string>)
    requires "(" !in args
    ensures PopGroup(base + ["("] + args, [")"], false)
         == Popped(base, [")"] + Reverse(args) + ["("], !NoOperator(args))
  {
    PopGroupThrough(base + ["("], args, [")"], false);
    var top := base + ["("];
    assert top[|top| - 1] == "(" && top[..|top| - 1] == base;
  }

  /** `name ( args )` without an operator inside becomes the one token `name(args)`. */
  lemma CallCollapses(below: seq<string>, name: string, args: seq<string>)
    requires IsOperand(name) && NoOperator(args) && "(" !in args
    ensures CloseGroup(below + [name, "("] + args) == below + [name + "(" + Concat(args) + ")"]
  {
    assert below + [name, "("] + args == (below + [name]) + ["("] + args;
    PopToBracket(below + [name], args);
    var rest := below + [name];
    assert rest[|rest| - 1] == name && rest[..|rest| - 1] == below;
    assert [")"] + Reverse(args) + ["("] + [name] == [")"] + Reverse(args) + ["(", name];
    ConcatReverseGroup(name, args);
  }

  /** A group without an operator after an operator or bracket loses its parentheses. */
  lemma RedundantGroupUnwrapped(below: seq<string>, prev: string, args: seq<string>)
    requires (IsOperator(prev) || IsBracket(prev)) && NoOperator(args) && "(" !in args
    ensures CloseGroup(below + [prev, "("] + args) == below + [prev, Concat(args)]
  {
    assert below + [prev, "("] + args == (below + [prev]) + ["("] + args;
    PopToBracket(below + [prev], args);
    var rest := below + [prev];
    assert rest[|rest| - 1] == prev && rest[..|rest| - 1] == below;
    var tmp := [")"] + Reverse(args) + ["("];
    assert DropEnds(tmp) == Reverse(args);
    ReverseReverse(args);
  }

  lemma ReverseBracketed(args: seq<string>)
    ensures Reverse([")"] + Reverse(args) + ["("]) == ["("] + args + [")"]
  {
    ReverseAppend([")"] + Reverse(args), ["("]);
    ReverseAppend([")"], Reverse(args));
    ReverseReverse(args);
  }

  /** At the bottom of the stack nothing precedes the group, and its parentheses stay. */
  lemma BottomGroupKeepsBrackets(args: seq<string>)
    requires NoOperator(args) && "(" !in args
    ensures CloseGroup(["("] + args) == ["(" + Concat(args) + ")"]
  {
    assert ["("] + args == [] + ["("] + args;
    PopToBracket([], args);
    var tmp := [")"] + Reverse(args) + ["("];
    assert PopGroup(["("] + args, [")"], false) == Popped([], tmp, false);
    ReverseBracketed(args);
    ConcatAppend(["("] + args, [")"]);
    ConcatAppend(["("], args);
    assert Concat(["("]) == "(" && Concat([")"]) == ")";
  }

  /** A group with an operator inside is put back as it was, brackets included. */
  lemma OperatorGroupRestored(below: seq<string>, args: seq<string>)
    requires !NoOperator(args) && "(" !in args
    ensures CloseGroup(below + ["("] + args) == below + ["("] + args + [")"]
  {
    PopToBracket(below, args);
    var tmp := [")"] + Reverse(args) + ["("];
    CloseFound(below + ["("] + args, Popped(below, tmp, true));
    ReverseBracketed(args);
    BracketedAssoc(below, args);
  }

  lemma CloseFound(stack: seq<string>, p: Popped)
    requires PopGroup(stack, [")"], false) == p && p.found
    ensures CloseGroup(stack) == p.rest + Reverse(p.tmp)
  {
  }

  lemma BracketedAssoc(below: seq<string>, args: seq<string>)
    ensures below + (["("] + args + [")"]) == below + ["("] + args + [")"]
  {
  }

  // ---------------------------------------------------------------------------
  // The shunting-yard pass

  function Strip(ts: seq<string>): seq<string> {
    if ts == [] then [] else (if IsBracket(ts[0]) then [] else [ts[0]]) + Strip(ts[1..])
  }

  function Operands(ts: seq<string>): seq<string> {
    if ts == [] then [] else (if IsOperand(ts[0]) then [ts[0]] else []) + Operands(ts[1..])
  }

  lemma {:induction false} StripAppend(a: seq<string>, b: seq<string>)
    ensures Strip(a + b) == Strip(a) + Strip(b)
  {
    if a != [] {
      assert (a + b)[1..] == a[1..] + b;
      StripAppend(a[1..], b);
    } else {
      assert a + b == b;
    }
  }

  lemma {:induction false} OperandsAppend(a: seq<string>, b: seq<string>)
    ensures Operands(a + b) == Operands(a) + Operands(b)
  {
    if a != [] {
      assert (a + b)[1..] == a[1..] + b;
      OperandsAppend(a[1..], b);
    } else {
      assert a + b == b;
    }
  }

  lemma OperatorsNotBrackets(ts: seq<string>)
    requires forall t :: t in ts ==> IsOperator(t)
    ensures "(" !in ts && ")" !in ts
  {
    assert !IsOperator("(") && !IsOperator(")");
  }

  lemma {:induction false} OperatorsOnly(ts: seq<string>)
    requires forall t :: t in ts ==> IsOperator(t)
    ensures Strip(ts) == ts && Operands(ts) == []
  {
    if ts != [] {
      assert ts[0] in ts;
      OperatorsOnly(ts[1..]);
    }
  }

  /** What holds of the shunting state after a prefix of the tokens. */
  ghost predicate ShuntInv(s: Shunt, done: seq<string>) {
    (forall t :: t in s.stack ==> IsOperator(t) || t == "(")
    && "(" !in s.output && ")" !in s.output
    && multiset(s.output) + multiset(Strip(s.stack)) == multiset(Strip(done))
    && Operands(s.output) == Operands(done)
    && multiset(s.stack)["("] + multiset(done)[")"] == multiset(done)["("]
  }

  lemma {:induction false} EvictShape(token: string, s: Shunt)
    requires IsOperator(token)
    ensures var r := Evict(token, s); var k := |s.stack| - |r.stack|;
      r.stack == s.stack[k..] && r.output == s.output + s.stack[..k]
      && (forall t :: t in s.stack[..k] ==> Priority(token) <= Priority(t))
      && (r.stack != [] ==> Priority(r.stack[0]) < Priority(token))
    decreases |s.stack|
  {
    if s.stack != [] && Priority(token) <= Priority(s.stack[0]) {
      var s' := Shunt(s.stack[1..], s.output + [s.stack[0]]);
      EvictShape(token, s');
      var r := Evict(token, s');
      assert Evict(token, s) == r;
      EvictCons(token, s.stack, s.output, r.stack, r.output, |s.stack| - |r.stack|);
    } else {
      assert Evict(token, s) == s;
      NothingEvicted(s.stack, s.output);
    }
  }

  lemma NothingEvicted(stack: seq<string>, out: seq<string>)
    ensures stack[0..] == stack && out + stack[..0] == out && stack[..0] == []
  {
  }

  /** One more evicted item in front of the ones evicted after it. */
  lemma EvictCons(token: string, stack: seq<string>, out: seq<string>, rest: seq<string>, emitted: seq<string>, k: nat)
    requires 1 <= k <= |stack| && Priority(token) <= Priority(stack[0])
    requires rest == stack[1..][k - 1..] && emitted == (out + [stack[0]]) + stack[1..][..k - 1]
    requires forall t :: t in stack[1..][..k - 1] ==> Priority(token) <= Priority(t)
    ensures rest == stack[k..] && emitted == out + stack[..k]
    ensures forall t :: t in stack[..k] ==> Priority(token) <= Priority(t)
  {
    SliceCons(stack, k);
    ConcatAssoc(out, [stack[0]], stack[1..][..k - 1]);
  }

  lemma SliceCons(xs: seq<string>, k: nat)
    requires 1 <= k <= |xs|
    ensures xs[..k] == [xs[0]] + xs[1..][..k - 1] && xs[k..] == xs[1..][k - 1..]
  {
  }

  /**
   * Before an operator is pushed, the maximal run of stacked items of at least
   * its priority is emitted, top first; what stays on top has lower priority.
   */
  lemma EvictEmitsHigherPriority(token: string, s: Shunt)
    requires IsOperator(token)
    ensures var r := Evict(token, s);
      exists k :: (0 <= k <= |s.stack| && r.stack == s.stack[k..] && r.output == s.output + s.stack[..k]
                   && (forall t :: t in s.stack[..k] ==> Priority(token) <= Priority(t))
                   && (r.stack != [] ==> Priority(r.stack[0]) < Priority(token)))
  {
    EvictShape(token, s);
    var r := Evict(token, s);
    var k := |s.stack| - |r.stack|;
    assert r.stack == s.stack[k..] && r.output == s.output + s.stack[..k];
  }

  lemma {:induction false} PopToOpenShape(s: Shunt)
    ensures PopToOpen(s).Err? <==> "(" !in s.stack
    ensures PopToOpen(s).Err? ==> PopToOpen(s) == Err(Diverges)
    ensures PopToOpen(s).Ok? ==>
      var r := PopToOpen(s).value; var k := |s.stack| - |r.stack| - 1;
      0 <= k < |s.stack| && s.stack[k] == "(" && "(" !in s.stack[..k]
      && r.stack == s.stack[k + 1..] && r.output == s.output + s.stack[..k]
    decreases |s.stack|
  {
    if s.stack != [] && s.stack[0] != "(" {
      var s' := Shunt(s.stack[1..], s.output + [s.stack[0]]);
      PopToOpenShape(s');
      assert s.stack == [s.stack[0]] + s'.stack;
      assert PopToOpen(s) == PopToOpen(s');
      if PopToOpen(s').Ok? {
        var r := PopToOpen(s').value;
        PopPastOne(s.stack[0], s'.stack, s.output, r.stack, r.output);
      }
    } else if s.stack != [] {
      assert PopToOpen(s) == Ok(Shunt(s.stack[1..], s.output));
      PopAtTop(s.stack, s.output);
    }
  }

  /** The bracket on top of the stack: it is dropped and nothing moves. */
  lemma PopAtTop(stack: seq<string>, out: seq<string>)
    requires stack != [] && stack[0] == "("
    ensures "(" !in stack[..0] && stack[1..] == stack[0 + 1..] && out == out + stack[..0]
  {
    assert stack[..0] == [];
  }

  /** Popping one operator before the bracket is found: the bracket's position moves by one. */
  lemma PopPastOne(x: string, stack: seq<string>, out: seq<string>, rs: seq<string>, ro: seq<string>)
    requires x != "("
    requires var k := |stack| - |rs| - 1;
      0 <= k < |stack| && stack[k] == "(" && "(" !in stack[..k]
      && rs == stack[k + 1..] && ro == out + [x] + stack[..k]
    ensures var st := [x] + stack; var k := |st| - |rs| - 1;
      0 <= k < |st| && st[k] == "(" && "(" !in st[..k]
      && rs == st[k + 1..] && ro == out + st[..k]
  {
    var st := [x] + stack;
    var k := |stack| - |rs| - 1;
    assert st[..k + 1] == [x] + stack[..k];
    assert st[k + 2..] == stack[k + 1..];
    ConcatAssoc(out, [x], stack[..k]);
  }

  /** Moving the operators `moved` from the top of the stack to the output keeps the invariant's sums. */
  lemma MoveOperators(out: seq<string>, moved: seq<string>, kept: seq<string>)
    requires forall t :: t in moved ==> IsOperator(t)
    ensures multiset(out + moved) + multiset(Strip(kept)) == multiset(out) + multiset(Strip(moved + kept))
    ensures Operands(out + moved) == Operands(out)
  {
    OperatorsOnly(moved);
    StripAppend(moved, kept);
    OperandsAppend(out, moved);
  }

  /** Emitting the operators `moved` and pushing the operator `token` keeps the token sum. */
  lemma PushOperatorSum(out: seq<string>, moved: seq<string>, kept: seq<string>, done: seq<string>, token: string)
    requires IsOperator(token) && forall t :: t in moved ==> IsOperator(t)
    requires multiset(out) + multiset(Strip(moved + kept)) == multiset(Strip(done))
    ensures multiset(out + moved) + multiset(Strip([token] + kept)) == multiset(Strip(done + [token]))
  {
    MoveOperators(out, moved, kept);
    StripAppend([token], kept);
    StripAppend(done, [token]);
    OperatorsOnly([token]);
    AddToBoth(multiset(out + moved), multiset([token]), multiset(Strip(kept)), multiset(Strip(done)));
  }

  /** Adding one multiset to both sides of a sum keeps it. */
  lemma AddToBoth<T>(x: multiset<T>, t: multiset<T>, k: multiset<T>, d: multiset<T>)
    requires x + k == d
    ensures x + (t + k) == d + t
  {
  }

  lemma PushOperatorCount(moved: seq<string>, kept: seq<string>, done: seq<string>, token: string)
    requires IsOperator(token) && forall t :: t in moved ==> IsOperator(t)
    requires multiset(moved + kept)["("] + multiset(done)[")"] == multiset(done)["("]
    ensures multiset([token] + kept)["("] + multiset(done + [token])[")"] == multiset(done + [token])["("]
  {
    OperatorsNotBrackets(moved);
    OperatorsNotBrackets([token]);
    assert multiset(moved + kept) == multiset(moved) + multiset(kept);
    assert multiset([token] + kept) == multiset([token]) + multiset(kept);
    assert multiset(done + [token]) == multiset(done) + multiset([token]);
  }

  lemma ShuntOperatorInv(s: Shunt, done: seq<string>, token: string)
    requires ShuntInv(s, done) && IsOperator(token)
    ensures ShuntInv(ShuntStep(s, token).value, done + [token])
  {
    EvictShape(token, s);
    var e := Evict(token, s);
    var k := |s.stack| - |e.stack|;
    var moved := s.stack[..k];
    TakeDrop(s.stack, k);
    assert ShuntStep(s, token) == Ok(Shunt([token] + e.stack, e.output));
    EvictedOperators(moved, e.stack, token);
    PushedInv(s.output, moved, e.stack, done, token);
  }

  /** What the eviction moves is operators only; what it keeps is still operators and "(". */
  lemma EvictedOperators(moved: seq<string>, kept: seq<string>, token: string)
    requires IsOperator(token)
    requires forall t :: t in moved + kept ==> IsOperator(t) || t == "("
    requires forall t :: t in moved ==> Priority(token) <= Priority(t)
    ensures forall t :: t in moved ==> IsOperator(t)
    ensures forall t :: t in kept ==> IsOperator(t) || t == "("
  {
    forall t | t in moved ensures IsOperator(t) {
      assert t in moved + kept;
    }
    forall t | t in kept ensures IsOperator(t) || t == "(" {
      assert t in moved + kept;
    }
  }

  /** Emitting the operators `moved` and pushing `token` keeps the shunting invariant. */
  lemma PushedInv(out: seq<string>, moved: seq<string>, kept: seq<string>, done: seq<string>, token: string)
    requires ShuntInv(Shunt(moved + kept, out), done) && IsOperator(token)
    requires forall t :: t in moved ==> IsOperator(t)
    requires forall t :: t in kept ==> IsOperator(t) || t == "("
    ensures ShuntInv(Shunt([token] + kept, out + moved), done + [token])
  {
    var r := Shunt([token] + kept, out + moved);
    assert "(" !in r.output && ")" !in r.output by {
      OperatorsNotBrackets(moved);
    }
    PushOperatorSum(out, moved, kept, done, token);
    assert Operands(r.output) == Operands(done + [token]) by {
      MoveOperators(out, moved, kept);
      OperandsAppend(done, [token]);
      OperatorsOnly([token]);
    }
    PushOperatorCount(moved, kept, done, token);
  }

  lemma ShuntOpenInv(s: Shunt, done: seq<string>)
    requires ShuntInv(s, done)
    ensures ShuntInv(ShuntStep(s, "(").value, done + ["("])
  {
    var r := ShuntStep(s, "(").value;
    assert r == Shunt(["("] + s.stack, s.output);
    StripAppend(["("], s.stack);
    StripAppend(done, ["("]);
    OperandsAppend(done, ["("]);
    assert Strip(["("]) == [] && Operands(["("]) == [];
    assert forall t :: t in r.stack ==> IsOperator(t) || t == "(";
    assert multiset(r.output) + multiset(Strip(r.stack)) == multiset(Strip(done + ["("]));
    assert Operands(r.output) == Operands(done + ["("]);
    assert multiset(r.stack)["("] + multiset(done + ["("])[")"] == multiset(done + ["("])["("];
  }

  /** Emitting the operators `moved` and dropping the "(" below them keeps the token sum. */
  lemma CloseSum(out: seq<string>, moved: seq<string>, rest: seq<string>, done: seq<string>)
    requires forall t :: t in moved ==> IsOperator(t)
    requires multiset(out) + multiset(Strip(moved + (["("] + rest))) == multiset(Strip(done))
    ensures multiset(out + moved) + multiset(Strip(rest)) == multiset(Strip(done + [")"]))
  {
    calc {
      multiset(out + moved) + multiset(Strip(rest));
      { StripAppend(["("], rest); assert Strip(["("]) == []; }
      multiset(out + moved) + multiset(Strip(["("] + rest));
      { MoveOperators(out, moved, ["("] + rest); }
      multiset(out) + multiset(Strip(moved + (["("] + rest)));
      multiset(Strip(done));
      { StripAppend(done, [")"]); assert Strip([")"]) == []; assert Strip(done) + [] == Strip(done); }
      multiset(Strip(done + [")"]));
    }
  }

  lemma CloseCount(moved: seq<string>, rest: seq<string>, done: seq<string>)
    requires forall t :: t in moved ==> IsOperator(t)
    requires multiset(moved + (["("] + rest))["("] + multiset(done)[")"] == multiset(done)["("]
    ensures multiset(rest)["("] + multiset(done + [")"])[")"] == multiset(done + [")"])["("]
  {
    OperatorsNotBrackets(moved);
    var m := multiset(moved + (["("] + rest));
    assert m == multiset(moved) + multiset(["("]) + multiset(rest);
    assert m["("] == multiset(rest)["("] + 1;
    var d := multiset(done + [")"]);
    assert d == multiset(done) + multiset([")"]);
    assert d[")"] == multiset(done)[")"] + 1;
    assert d["("] == multiset(done)["("];
  }

  lemma CloseInv(s: Shunt, moved: seq<string>, rest: seq<string>, done: seq<string>)
    requires ShuntInv(s, done) && s.stack == moved + (["("] + rest) && "(" !in moved
    ensures ShuntInv(Shunt(rest, s.output + moved), done + [")"])
  {
    ClosedOperators(moved, rest);
    ClosedInv(s.output, moved, rest, done);
  }

  /** Above the nearest "(" the stack holds operators only; below it, operators and "(". */
  lemma ClosedOperators(moved: seq<string>, rest: seq<string>)
    requires forall t :: t in moved + (["("] + rest) ==> IsOperator(t) || t == "("
    requires "(" !in moved
    ensures forall t :: t in moved ==> IsOperator(t)
    ensures forall t :: t in rest ==> IsOperator(t) || t == "("
  {
    forall t | t in moved ensures IsOperator(t) {
      assert t in moved + (["("] + rest);
    }
    forall t | t in rest ensures IsOperator(t) || t == "(" {
      assert t in moved + (["("] + rest);
    }
  }

  /** Emitting the operators `moved` and dropping the "(" below them keeps the shunting invariant. */
  lemma ClosedInv(out: seq<string>, moved: seq<string>, rest: seq<string>, done: seq<string>)
    requires ShuntInv(Shunt(moved + (["("] + rest), out), done)
    requires forall t :: t in moved ==> IsOperator(t)
    requires forall t :: t in rest ==> IsOperator(t) || t == "("
    ensures ShuntInv(Shunt(rest, out + moved), done + [")"])
  {
    assert "(" !in out + moved && ")" !in out + moved by {
      OperatorsNotBrackets(moved);
    }
    CloseSum(out, moved, rest, done);
    assert Operands(out + moved) == Operands(done + [")"]) by {
      MoveOperators(out, moved, ["("] + rest);
      OperandsAppend(done, [")"]);
      assert Operands([")"]) == [];
    }
    CloseCount(moved, rest, done);
  }

  lemma CloseStepPops(s: Shunt)
    ensures ShuntStep(s, ")") == PopToOpen(s)
  {
    assert !IsOperator(")");
  }

  lemma PopToOpenSplit(s: Shunt)
    requires PopToOpen(s).Ok?
    ensures var r := PopToOpen(s).value; var k := |s.stack| - |r.stack| - 1;
      0 <= k < |s.stack| && s.stack == s.stack[..k] + (["("] + r.stack)
      && r == Shunt(r.stack, s.output + s.stack[..k]) && "(" !in s.stack[..k]
  {
    PopToOpenShape(s);
    var r := PopToOpen(s).value;
    var k := |s.stack| - |r.stack| - 1;
    SplitAround(s.stack, k);
  }

  lemma ShuntCloseInv(s: Shunt, done: seq<string>)
    requires ShuntInv(s, done) && PopToOpen(s).Ok?
    ensures ShuntInv(PopToOpen(s).value, done + [")"])
  {
    PopToOpenSplit(s);
    var r := PopToOpen(s).value;
    var k := |s.stack| - |r.stack| - 1;
    CloseInv(s, s.stack[..k], r.stack, done);
  }

  lemma ShuntOperandInv(s: Shunt, done: seq<string>, token: string)
    requires ShuntInv(s, done) && IsOperand(token)
    ensures ShuntInv(ShuntStep(s, token).value, done + [token])
  {
    StripAppend(done, [token]);
    OperandsAppend(done, [token]);
    OperandsAppend(s.output, [token]);
    assert Strip([token]) == [token] && Operands([token]) == [token];
  }

  lemma ShuntStepInv(s: Shunt, done: seq<string>, token: string)
    requires ShuntInv(s, done) && ShuntStep(s, token).Ok?
    ensures ShuntInv(ShuntStep(s, token).value, done + [token])
  {
    if IsOperator(token) {
      ShuntOperatorInv(s, done, token);
    } else if token == "(" {
      ShuntOpenInv(s, done);
    } else if token == ")" {
      CloseStepPops(s);
      ShuntCloseInv(s, done);
    } else {
      ShuntOperandInv(s, done, token);
    }
  }

  lemma {:induction false} ShuntPrefixInv(tokens: seq<string>)
    requires ShuntPrefix(tokens).Ok?
    ensures ShuntInv(ShuntPrefix(tokens).value, tokens)
  {
    if tokens != [] {
      var init := tokens[..|tokens| - 1];
      assert tokens == init + [tokens[|tokens| - 1]];
      ShuntPrefixInv(init);
      ShuntStepInv(ShuntPrefix(init).value, init, tokens[|tokens| - 1]);
    }
  }

  /**
   * With as many "(" as ")" tokens and no unmatched ")", the postfix list is a
   * reordering of the tokens without brackets, and the operands keep their order.
   */
  lemma ShuntPermutes(tokens: seq<string>)
    requires ShuntSpec(tokens).Ok?
    requires multiset(tokens)["("] == multiset(tokens)[")"]
    ensures var out := ShuntSpec(tokens).value;
      "(" !in out && ")" !in out
      && multiset(out) == multiset(Strip(tokens))
      && Operands(out) == Operands(tokens)
  {
    ShuntPrefixInv(tokens);
    FlushedStack(ShuntPrefix(tokens).value, tokens);
  }

  /** Once every "(" is matched, the stack holds operators only and is flushed after the output. */
  lemma FlushedStack(s: Shunt, done: seq<string>)
    requires ShuntInv(s, done) && multiset(done)["("] == multiset(done)[")"]
    ensures var out := s.output + s.stack;
      "(" !in out && ")" !in out
      && multiset(out) == multiset(Strip(done))
      && Operands(out) == Operands(done)
  {
    assert "(" !in s.stack by {
      assert multiset(s.stack)["("] == 0;
    }
    assert forall t :: t in s.stack ==> IsOperator(t);
    OperatorsOnly(s.stack);
    OperandsAppend(s.output, s.stack);
    assert multiset(s.output + s.stack) == multiset(s.output) + multiset(s.stack);
  }

  /** An unmatched ")" makes the PHP loop spin forever. */
  lemma UnmatchedCloseDiverges(tokens: seq<string>)
    requires multiset(tokens)[")"] > multiset(tokens)["("]
    ensures ShuntSpec(tokens) == Err(Diverges)
  {
    if ShuntPrefix(tokens).Ok? {
      ShuntPrefixInv(tokens);
    } else {
      ShuntPrefixFails(tokens);
    }
  }

  lemma {:induction false} ShuntPrefixFails(tokens: seq<string>)
    ensures ShuntPrefix(tokens).Err? ==> ShuntPrefix(tokens) == Err(Diverges)
  {
    if tokens != [] {
      var init := tokens[..|tokens| - 1];
      ShuntPrefixFails(init);
      if ShuntPrefix(init).Ok? {
        PopToOpenShape(ShuntPrefix(init).value);
      }
    }
  }
}
