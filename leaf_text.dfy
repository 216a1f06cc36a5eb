/**
 * The text layer of `convertOperator` and `parseValueForInQuery` on whole
 * expressions: quoted identifiers are hidden behind their placeholder keys
 * and come back unchanged, operators written without blanks (`age>=12`) are
 * cut into the same tokens as spaced ones, an operator character inside a
 * quoted literal is left alone, a comma inside a quoted literal does not
 * split an IN list, and a builder call inside an IN list reaches its
 * builder. The first half holds the facts about `str_replace`, `strtr`,
 * `preg_replace` and `explode` these rest on.
 */
module LeafText {

  import opened Php
  import opened Strings
  import opened Leaf
  import opened LeafLemmas

  // ---------------------------------------------------------------------
  // Concatenation, proved apart from the string facts that make it costly

  lemma EmptyPrefix<T>(s: seq<T>)
    ensures [] + s == s && s + [] == s && [] + s + [] == s
  {
  }

  lemma Couple<T>(a: T, b: T)
    ensures [a] + [b] == [a, b]
  {
  }

  lemma Triple<T>(a: T, b: T, c: T)
    ensures [a] + ([b] + [c]) == [a, b, c]
  {
  }

  /** Dropping a first character `trim` removes. */
  lemma TrimLeftDrop(c: char, s: string, cs: set<char>)
    requires c in cs
    ensures TrimLeft([c] + s, cs) == TrimLeft(s, cs)
  {
    assert ([c] + s)[1..] == s;
  }

  /** A first character `trim` keeps stops it. */
  lemma TrimLeftStop(s: string, cs: set<char>)
    requires s != [] && s[0] !in cs
    ensures TrimLeft(s, cs) == s
  {
  }

  /** Dropping a last character `trim` removes. */
  lemma TrimRightDrop(s: string, c: char, cs: set<char>)
    requires c in cs
    ensures TrimRight(s + [c], cs) == TrimRight(s, cs)
  {
    assert (s + [c])[..|s|] == s;
  }

  /** A last character `trim` keeps stops it. */
  lemma TrimRightStop(s: string, cs: set<char>)
    requires s != [] && s[|s| - 1] !in cs
    ensures TrimRight(s, cs) == s
  {
  }

  // ---------------------------------------------------------------------
  // strtr

  /** No non-empty key of `pairs` occurs anywhere in `s`. */
  predicate Fresh(s: string, pairs: seq<(string, string)>) {
    forall j, p :: 0 <= j < |s| && p in pairs && p.0 != [] ==> !StartsWith(s[j..], p.0)
  }

  /** Text in which no key occurs comes out of `strtr` unchanged. */
  lemma {:induction false} StrTrFresh(s: string, pairs: seq<(string, string)>)
    requires Fresh(s, pairs)
    ensures StrTr(s, pairs) == s
    decreases |s|
  {
    if s != [] {
      assert LongestMatch(s, pairs).None? by {
        assert s[0..] == s;
      }
      assert Fresh(s[1..], pairs) by {
        forall j | 0 <= j < |s[1..]| ensures s[1..][j..] == s[j + 1..] {}
      }
      StrTrFresh(s[1..], pairs);
    }
  }

  /** Two texts that start with the same keys have the same longest match. */
  lemma {:induction false} LongestMatchSame(s: string, t: string, pairs: seq<(string, string)>)
    requires forall p :: p in pairs && p.0 != [] ==> (StartsWith(s, p.0) <==> StartsWith(t, p.0))
    ensures LongestMatch(s, pairs) == LongestMatch(t, pairs)
  {
    if pairs != [] {
      LongestMatchSame(s, t, pairs[1..]);
    }
  }

  /** A key avoiding the first character of `t` starts `a + t` exactly when it starts `a`. */
  lemma StartsBefore(a: string, t: string, k: string)
    requires t != [] && t[0] !in k
    ensures StartsWith(a + t, k) <==> StartsWith(a, k)
  {
    if |a| < |k| <= |a + t| {
      assert (a + t)[..|k|][|a|] == t[0];
    }
    if StartsWith(a, k) {
      assert (a + t)[..|k|] == a[..|k|];
    }
  }

  /**
   * `strtr` works on the two sides of a character no key contains
   * separately: no key can reach across it.
   */
  lemma {:induction false} StrTrBefore(a: string, t: string, pairs: seq<(string, string)>)
    requires t != [] && forall p :: p in pairs ==> t[0] !in p.0
    ensures StrTr(a + t, pairs) == StrTr(a, pairs) + StrTr(t, pairs)
    decreases |a|
  {
    if a != [] {
      forall p | p in pairs && p.0 != []
        ensures StartsWith(a + t, p.0) <==> StartsWith(a, p.0)
      {
        StartsBefore(a, t, p.0);
      }
      LongestMatchSame(a + t, a, pairs);
      match LongestMatch(a, pairs)
      case Some(p) =>
        DropBefore(a, t, |p.0|);
        StrTrBefore(a[|p.0|..], t, pairs);
        assert StrTr(a + t, pairs) == p.1 + StrTr(a[|p.0|..] + t, pairs);
        ConcatAssoc(p.1, StrTr(a[|p.0|..], pairs), StrTr(t, pairs));
      case None =>
        DropBefore(a, t, 1);
        StrTrBefore(a[1..], t, pairs);
        assert StrTr(a + t, pairs) == [a[0]] + StrTr(a[1..] + t, pairs);
        ConcatAssoc([a[0]], StrTr(a[1..], pairs), StrTr(t, pairs));
    } else {
      EmptyPrefix(t);
    }
  }

  lemma DropBefore<T>(a: seq<T>, t: seq<T>, n: nat)
    requires n <= |a|
    ensures (a + t)[n..] == a[n..] + t
  {
  }

  /** Characters that start no key are copied through. */
  lemma {:induction false} StrTrLeft(a: string, t: string, pairs: seq<(string, string)>)
    requires forall p :: p in pairs && p.0 != [] ==> p.0[0] !in a
    ensures StrTr(a + t, pairs) == a + StrTr(t, pairs)
    decreases |a|
  {
    if a != [] {
      assert LongestMatch(a + t, pairs).None? by {
        forall p | p in pairs && p.0 != [] ensures !StartsWith(a + t, p.0) {
          if |p.0| <= |a + t| {
            assert (a + t)[..|p.0|][0] == a[0];
          }
        }
      }
      assert (a + t)[0] == a[0] && (a + t)[1..] == a[1..] + t;
      StrTrLeft(a[1..], t, pairs);
      assert StrTr(a + t, pairs) == [a[0]] + StrTr(a[1..] + t, pairs);
      ConcatAssoc([a[0]], a[1..], StrTr(t, pairs));
      assert [a[0]] + a[1..] == a;
    } else {
      EmptyPrefix(t);
    }
  }

  // ---------------------------------------------------------------------
  // str_replace

  /** Characters that cannot start the search text are copied through. */
  lemma {:induction false} ReplaceLeft(a: string, t: string, search: string, rep: string)
    requires search != [] && search[0] !in a
    ensures Replace(a + t, search, rep) == a + Replace(t, search, rep)
    decreases |a|
  {
    if a != [] {
      assert !StartsWith(a + t, search) by {
        if |search| <= |a + t| {
          assert (a + t)[..|search|][0] == a[0];
        }
      }
      assert (a + t)[1..] == a[1..] + t;
      ReplaceLeft(a[1..], t, search, rep);
    } else {
      assert a + t == t;
    }
  }

  /** No occurrence reaches across a character the search text does not contain. */
  lemma {:induction false} ReplaceBefore(a: string, t: string, search: string, rep: string)
    requires search != [] && t != [] && t[0] !in search
    ensures Replace(a + t, search, rep) == Replace(a, search, rep) + Replace(t, search, rep)
    decreases |a|
  {
    if a != [] {
      StartsBefore(a, t, search);
      if StartsWith(a, search) {
        var rest := a[|search|..];
        assert (a + t)[|search|..] == rest + t;
        ReplaceBefore(rest, t, search, rep);
        assert Replace(a + t, search, rep) == rep + Replace(rest + t, search, rep);
        ConcatAssoc(rep, Replace(rest, search, rep), Replace(t, search, rep));
      } else {
        assert (a + t)[0] == a[0] && (a + t)[1..] == a[1..] + t;
        ReplaceBefore(a[1..], t, search, rep);
        assert Replace(a + t, search, rep) == [a[0]] + Replace(a[1..] + t, search, rep);
        ConcatAssoc([a[0]], Replace(a[1..], search, rep), Replace(t, search, rep));
      }
    } else {
      EmptyPrefix(t);
    }
  }

  /** Text the search does not occur in is left as it is. */
  lemma {:induction false} ReplaceAbsent(s: string, search: string, rep: string)
    requires forall j :: 0 <= j <= |s| ==> !StartsWith(s[j..], search)
    ensures Replace(s, search, rep) == s
    decreases |s|
  {
    if s != [] && search != [] {
      assert s[0..] == s;
      forall j | 0 <= j <= |s[1..]| ensures !StartsWith(s[1..][j..], search) {
        assert s[1..][j..] == s[j + 1..];
      }
      ReplaceAbsent(s[1..], search, rep);
    }
  }

  /** The `str_contains` guard of `replaceOperators` changes nothing: `str_replace` alone does the same. */
  lemma SpaceIsReplace(s: string, op: string)
    ensures SpaceOperator(s, op) == Replace(s, op, " " + op + " ")
  {
    if !Contains(s, op) {
      ReplaceAbsent(s, op, " " + op + " ");
    }
  }

  // ---------------------------------------------------------------------
  // preg_replace('!\s+!', ' ', …)

  lemma {:induction false} SkipSpacesBefore(a: string, t: string)
    requires t != [] && !IsSpace(t[0])
    ensures SkipSpaces(a + t) == SkipSpaces(a) + t
    decreases |a|
  {
    if a != [] {
      assert (a + t)[0] == a[0];
      if IsSpace(a[0]) {
        assert (a + t)[1..] == a[1..] + t;
        SkipSpacesBefore(a[1..], t);
      }
    } else {
      assert a + t == t;
    }
  }

  /** A run of white space ends at a character that is not one. */
  lemma {:induction false} CollapseBefore(a: string, t: string)
    requires t != [] && !IsSpace(t[0])
    ensures Collapse(a + t) == Collapse(a) + Collapse(t)
    decreases |a|
  {
    if a != [] {
      assert (a + t)[0] == a[0];
      assert (a + t)[1..] == a[1..] + t;
      if IsSpace(a[0]) {
        var r := SkipSpaces(a[1..]);
        SkipSpacesBefore(a[1..], t);
        CollapseBefore(r, t);
        assert Collapse(a + t) == [' '] + Collapse(r + t);
        ConcatAssoc([' '], Collapse(r), Collapse(t));
      } else {
        CollapseBefore(a[1..], t);
        assert Collapse(a + t) == [a[0]] + Collapse(a[1..] + t);
        ConcatAssoc([a[0]], Collapse(a[1..]), Collapse(t));
      }
    } else {
      EmptyPrefix(t);
    }
  }

  // ---------------------------------------------------------------------
  // Operator spacing between two words

  /** The characters `replaceOperators` puts blanks around. */
  const OperatorChars: set<char> := {'<', '=', '>', '!'}

  /** A column name, a numeral or a placeholder key: no white space, operator character or quote. */
  predicate Word(w: string) {
    w != [] && forall i :: 0 <= i < |w| ==> !IsSpace(w[i]) && w[i] !in OperatorChars && w[i] !in Quotes
  }

  /** Search text of operator characters and blanks that starts with an operator character. */
  predicate OperatorText(o: string) {
    o != [] && o[0] in OperatorChars && forall i :: 0 <= i < |o| ==> o[i] in OperatorChars || o[i] == ' '
  }

  /** The three rewriting passes of `normalizeExpr` between hiding and `preg_replace`. */
  function Spaced(x: string): string {
    ReplaceOperatorsSpec(GlueSpec(ReplaceOperatorsSpec(x, Operators1), Split2), Operators2)
  }

  /** Occurrences of operator text lie strictly between two words. */
  lemma ReplaceBetween(a: string, x: string, b: string, search: string, rep: string)
    requires Word(a) && Word(b) && OperatorText(search)
    ensures Replace(a + x + b, search, rep) == a + Replace(x, search, rep) + b
  {
    ReplaceLeft(a, x + b, search, rep);
    ReplaceBefore(x, b, search, rep);
    ReplaceLeft(b, [], search, rep);
    EmptyPrefix(b);
    ConcatAssoc(a, x, b);
    ConcatAssoc(a, Replace(x, search, rep), b);
  }

  lemma {:induction false} SpaceBetween(a: string, x: string, b: string, ops: seq<string>)
    requires Word(a) && Word(b) && forall o :: o in ops ==> OperatorText(o)
    ensures ReplaceOperatorsSpec(a + x + b, ops) == a + ReplaceOperatorsSpec(x, ops) + b
    decreases |ops|
  {
    if ops != [] {
      SpaceIsReplace(a + x + b, ops[0]);
      SpaceIsReplace(x, ops[0]);
      ReplaceBetween(a, x, b, ops[0], " " + ops[0] + " ");
      SpaceBetween(a, SpaceOperator(x, ops[0]), b, ops[1..]);
    }
  }

  lemma {:induction false} GlueBetween(a: string, x: string, b: string, ops: seq<string>)
    requires Word(a) && Word(b) && forall o :: o in ops ==> OperatorText(o)
    ensures GlueSpec(a + x + b, ops) == a + GlueSpec(x, ops) + b
    decreases |ops|
  {
    if ops != [] {
      var glued := Replace(ops[0], " ", "");
      ReplaceBetween(a, x, b, ops[0], glued);
      GlueBetween(a, Replace(x, ops[0], glued), b, ops[1..]);
    }
  }

  lemma Operators1Text()
    ensures forall o :: o in Operators1 ==> OperatorText(o)
  {
  }

  lemma Split2Text()
    ensures forall o :: o in Split2 ==> OperatorText(o)
  {
  }

  lemma Operators2Text()
    ensures forall o :: o in Operators2 ==> OperatorText(o)
  {
  }

  /** The operator passes leave the two words around the operator text alone. */
  lemma SpacedBetween(a: string, x: string, b: string)
    requires Word(a) && Word(b)
    ensures Spaced(a + x + b) == a + Spaced(x) + b
  {
    Operators1Text();
    Split2Text();
    Operators2Text();
    SpaceBetween(a, x, b, Operators1);
    var e1 := ReplaceOperatorsSpec(x, Operators1);
    GlueBetween(a, e1, b, Split2);
    SpaceBetween(a, GlueSpec(e1, Split2), b, Operators2);
  }

  /** Text lacking one of the search text's characters holds no occurrence of it. */
  lemma Unchanged(x: string, o: string, rep: string, i: nat)
    requires i < |o| && o[i] !in x
    ensures Replace(x, o, rep) == x
  {
    forall j | 0 <= j <= |x| ensures !StartsWith(x[j..], o) {
      if |o| <= |x[j..]| {
        assert x[j..][..|o|][i] == x[j + i];
      }
    }
    ReplaceAbsent(x, o, rep);
  }

  /** The one occurrence of the search text is replaced. */
  lemma Once(u: string, o: string, v: string, rep: string, i: nat)
    requires o != [] && o[0] !in u && i < |o| && o[i] !in v
    ensures Replace(u + o + v, o, rep) == u + rep + v
  {
    ReplaceLeft(u, o + v, o, rep);
    assert (o + v)[..|o|] == o && (o + v)[|o|..] == v;
    Unchanged(v, o, rep, i);
    assert u + o + v == u + (o + v);
  }

  /** Four `str_replace` calls in a row, each result given. */
  lemma Chain4(x: string, o1: string, r1: string, o2: string, r2: string, o3: string, r3: string, o4: string, r4: string,
               y1: string, y2: string, y3: string, y4: string)
    requires Replace(x, o1, r1) == y1 && Replace(y1, o2, r2) == y2 && Replace(y2, o3, r3) == y3 && Replace(y3, o4, r4) == y4
    ensures Replace(Replace(Replace(Replace(x, o1, r1), o2, r2), o3, r3), o4, r4) == y4
  {
  }

  /** Three `str_replace` calls in a row, each result given. */
  lemma Chain3(x: string, o1: string, r1: string, o2: string, r2: string, o3: string, r3: string,
               y1: string, y2: string, y3: string)
    requires Replace(x, o1, r1) == y1 && Replace(y1, o2, r2) == y2 && Replace(y2, o3, r3) == y3
    ensures Replace(Replace(Replace(x, o1, r1), o2, r2), o3, r3) == y3
  {
  }

  /** `Once` on literal text: the text and the result given whole. */
  lemma OnceTo(u: string, o: string, v: string, rep: string, i: nat, x: string, y: string)
    requires o != [] && o[0] !in u && i < |o| && o[i] !in v
    requires u + o + v == x && u + rep + v == y
    ensures Replace(x, o, rep) == y
  {
    Once(u, o, v, rep, i);
  }

  /** One round of `replaceOperators` is `str_replace` with the spaced operator. */
  lemma PassStep(x: string, ops: seq<string>)
    requires ops != []
    ensures ReplaceOperatorsSpec(x, ops) == ReplaceOperatorsSpec(Replace(x, ops[0], " " + ops[0] + " "), ops[1..])
  {
    SpaceIsReplace(x, ops[0]);
  }

  lemma Pass1(x: string)
    ensures ReplaceOperatorsSpec(x, Operators1) == Replace(Replace(Replace(x, "<", " < "), "=", " = "), ">", " > ")
  {
    var ops := Operators1;
    var x1 := Replace(x, "<", " < ");
    var x2 := Replace(x1, "=", " = ");
    Operators1Tails();
    PassStepTo(x, ops, " < ");
    PassStepTo(x1, ops[1..], " = ");
    PassStepTo(x2, ops[1..][1..], " > ");
  }

  /** One step of the spacing loop, the spaced spelling given. */
  lemma PassStepTo(x: string, ops: seq<string>, spaced: string)
    requires ops != [] && " " + ops[0] + " " == spaced
    ensures ReplaceOperatorsSpec(x, ops) == ReplaceOperatorsSpec(Replace(x, ops[0], spaced), ops[1..])
  {
    PassStep(x, ops);
  }

  lemma Operators1Tails()
    ensures Operators1[0] == "<" && Operators1[1..][0] == "=" && Operators1[1..][1..] == [">"]
    ensures " " + "<" + " " == " < " && " " + "=" + " " == " = " && " " + ">" + " " == " > "
  {
  }

  lemma Operators2Tails()
    ensures Operators2[0] == "<=" && Operators2[1..][0] == ">=" && Operators2[1..][1..][0] == "<>"
    ensures Operators2[1..][1..][1..] == ["!="]
    ensures " " + "<=" + " " == " <= " && " " + ">=" + " " == " >= "
    ensures " " + "<>" + " " == " <> " && " " + "!=" + " " == " != "
  {
  }

  lemma Glue(x: string)
    ensures GlueSpec(x, Split2) == Replace(Replace(Replace(Replace(x, "<  =", "<="), ">  =", ">="), "! =", "!="), "<  >", "<>")
  {
    var x1 := Replace(x, "<  =", "<=");
    var x2 := Replace(x1, ">  =", ">=");
    var x3 := Replace(x2, "! =", "!=");
    var x4 := Replace(x3, "<  >", "<>");
    GlueWords();
    Split2Tails();
    GlueStep(x, Split2, "<=");
    GlueStep(x1, Split2[1..], ">=");
    GlueStep(x2, Split2[1..][1..], "!=");
    GlueStep(x3, Split2[1..][1..][1..], "<>");
  }

  /** One step of the glueing loop. */
  lemma GlueStep(x: string, ops: seq<string>, glued: string)
    requires ops != [] && Replace(ops[0], " ", "") == glued
    ensures GlueSpec(x, ops) == GlueSpec(Replace(x, ops[0], glued), ops[1..])
  {
  }

  /** The split spellings without their blanks. */
  lemma GlueWords()
    ensures Replace("<  =", " ", "") == "<=" && Replace(">  =", " ", "") == ">="
    ensures Replace("! =", " ", "") == "!=" && Replace("<  >", " ", "") == "<>"
  {
    Unblank('<', '=');
    Unblank('>', '=');
    Unblank('<', '>');
    UnblankOne('!', '=');
  }

  /** Two characters with two blanks between them, the blanks removed. */
  lemma Unblank(c: char, d: char)
    requires c != ' ' && d != ' '
    ensures Replace([c, ' ', ' ', d], " ", "") == [c, d]
  {
    var s := [c, ' ', ' ', d];
    assert s[1..] == [' ', ' ', d] && s[1..][1..] == [' ', d] && s[1..][1..][1..] == [d];
    assert [d][1..] == [];
    assert Replace([d], " ", "") == [d];
    assert Replace([' ', d], " ", "") == [d];
    assert Replace([' ', ' ', d], " ", "") == [d];
  }

  /** Two characters with one blank between them, the blank removed. */
  lemma UnblankOne(c: char, d: char)
    requires c != ' ' && d != ' '
    ensures Replace([c, ' ', d], " ", "") == [c, d]
  {
    var s := [c, ' ', d];
    assert s[1..] == [' ', d] && s[1..][1..] == [d];
    assert [d][1..] == [];
    assert Replace([d], " ", "") == [d];
    assert Replace([' ', d], " ", "") == [d];
  }

  lemma Split2Tails()
    ensures Split2[0] == "<  =" && Split2[1..][0] == ">  =" && Split2[1..][1..][0] == "! ="
    ensures Split2[1..][1..][1..] == ["<  >"] && Split2[1..][1..][1..][1..] == []
  {
  }

  lemma Pass2(x: string)
    ensures ReplaceOperatorsSpec(x, Operators2)
      == Replace(Replace(Replace(Replace(x, "<=", " <= "), ">=", " >= "), "<>", " <> "), "!=", " != ")
  {
    var ops := Operators2;
    var x1 := Replace(x, "<=", " <= ");
    var x2 := Replace(x1, ">=", " >= ");
    var x3 := Replace(x2, "<>", " <> ");
    Operators2Tails();
    PassStepTo(x, ops, " <= ");
    PassStepTo(x1, ops[1..], " >= ");
    PassStepTo(x2, ops[1..][1..], " <> ");
    PassStepTo(x3, ops[1..][1..][1..], " != ");
  }


  /** One or two blanks. */
  predicate Blanks(m: string) {
    1 <= |m| <= 2 && forall i :: 0 <= i < |m| ==> m[i] == ' '
  }

  /** A run of one or two blanks becomes one blank. */
  lemma CollapseBlanks(m: string)
    requires Blanks(m)
    ensures Collapse(m) == " "
  {
    assert IsSpace(m[0]) && SkipSpaces(m[1..]) == [];
  }

  /** Runs of blanks around a blank-free operator become single blanks. */
  lemma CollapseAround(m: string, op: string, n: string)
    requires Blanks(m) && Blanks(n)
    requires op != [] && forall i :: 0 <= i < |op| ==> !IsSpace(op[i])
    ensures Collapse(m + op + n) == " " + op + " "
  {
    ConcatAssoc(m, op, n);
    CollapseBefore(m, op + n);
    CollapseNoSpace(op, n);
    CollapseBlanks(m);
    CollapseBlanks(n);
    ConcatAssoc(" ", op, " ");
  }

  /** The steps of `Pass1Lt`, each `str_replace` proved on its own. */
  lemma Pass1LtStep1()
    ensures Replace("<", "<", " < ") == " < "
  {
    OnceTo("", "<", "", " < ", 0, "<", " < ");
  }

  lemma Pass1LtStep2()
    ensures Replace(" < ", "=", " = ") == " < "
  {
    Unchanged(" < ", "=", " = ", 0);
  }

  lemma Pass1LtStep3()
    ensures Replace(" < ", ">", " > ") == " < "
  {
    Unchanged(" < ", ">", " > ", 0);
  }

  lemma Pass1Lt()
    ensures Replace(Replace(Replace("<", "<", " < "), "=", " = "), ">", " > ") == " < "
  {
    Pass1LtStep1();
    Pass1LtStep2();
    Pass1LtStep3();
    Chain3("<", "<", " < ", "=", " = ", ">", " > ", " < ", " < ", " < ");
  }

  /** The steps of `GlueLt`, each `str_replace` proved on its own. */
  lemma GlueLtStep1()
    ensures Replace(" < ", "<  =", "<=") == " < "
  {
    Unchanged(" < ", "<  =", "<=", 3);
  }

  lemma GlueLtStep2()
    ensures Replace(" < ", ">  =", ">=") == " < "
  {
    Unchanged(" < ", ">  =", ">=", 0);
  }

  lemma GlueLtStep3()
    ensures Replace(" < ", "! =", "!=") == " < "
  {
    Unchanged(" < ", "! =", "!=", 0);
  }

  lemma GlueLtStep4()
    ensures Replace(" < ", "<  >", "<>") == " < "
  {
    Unchanged(" < ", "<  >", "<>", 3);
  }

  lemma GlueLt()
    ensures Replace(Replace(Replace(Replace(" < ", "<  =", "<="), ">  =", ">="), "! =", "!="), "<  >", "<>") == " < "
  {
    GlueLtStep1();
    GlueLtStep2();
    GlueLtStep3();
    GlueLtStep4();
    Chain4(" < ", "<  =", "<=", ">  =", ">=", "! =", "!=", "<  >", "<>", " < ", " < ", " < ", " < ");
  }

  /** The steps of `Pass2Lt`, each `str_replace` proved on its own. */
  lemma Pass2LtStep1()
    ensures Replace(" < ", "<=", " <= ") == " < "
  {
    Unchanged(" < ", "<=", " <= ", 1);
  }

  lemma Pass2LtStep2()
    ensures Replace(" < ", ">=", " >= ") == " < "
  {
    Unchanged(" < ", ">=", " >= ", 0);
  }

  lemma Pass2LtStep3()
    ensures Replace(" < ", "<>", " <> ") == " < "
  {
    Unchanged(" < ", "<>", " <> ", 1);
  }

  lemma Pass2LtStep4()
    ensures Replace(" < ", "!=", " != ") == " < "
  {
    Unchanged(" < ", "!=", " != ", 0);
  }

  lemma Pass2Lt()
    ensures Replace(Replace(Replace(Replace(" < ", "<=", " <= "), ">=", " >= "), "<>", " <> "), "!=", " != ") == " < "
  {
    Pass2LtStep1();
    Pass2LtStep2();
    Pass2LtStep3();
    Pass2LtStep4();
    Chain4(" < ", "<=", " <= ", ">=", " >= ", "<>", " <> ", "!=", " != ", " < ", " < ", " < ", " < ");
  }

  /** The three rewriting passes on the operator alone. */
  lemma TraceLt()
    ensures Replace(Replace(Replace("<", "<", " < "), "=", " = "), ">", " > ") == " < "
    ensures Replace(Replace(Replace(Replace(" < ", "<  =", "<="), ">  =", ">="), "! =", "!="), "<  >", "<>") == " < "
    ensures Replace(Replace(Replace(Replace(" < ", "<=", " <= "), ">=", " >= "), "<>", " <> "), "!=", " != ") == " < "
  {
    Pass1Lt();
    GlueLt();
    Pass2Lt();
  }

  /** The steps of `Pass1Gt`, each `str_replace` proved on its own. */
  lemma Pass1GtStep1()
    ensures Replace(">", "<", " < ") == ">"
  {
    Unchanged(">", "<", " < ", 0);
  }

  lemma Pass1GtStep2()
    ensures Replace(">", "=", " = ") == ">"
  {
    Unchanged(">", "=", " = ", 0);
  }

  lemma Pass1GtStep3()
    ensures Replace(">", ">", " > ") == " > "
  {
    OnceTo("", ">", "", " > ", 0, ">", " > ");
  }

  lemma Pass1Gt()
    ensures Replace(Replace(Replace(">", "<", " < "), "=", " = "), ">", " > ") == " > "
  {
    Pass1GtStep1();
    Pass1GtStep2();
    Pass1GtStep3();
    Chain3(">", "<", " < ", "=", " = ", ">", " > ", ">", ">", " > ");
  }

  /** The steps of `GlueGt`, each `str_replace` proved on its own. */
  lemma GlueGtStep1()
    ensures Replace(" > ", "<  =", "<=") == " > "
  {
    Unchanged(" > ", "<  =", "<=", 0);
  }

  lemma GlueGtStep2()
    ensures Replace(" > ", ">  =", ">=") == " > "
  {
    Unchanged(" > ", ">  =", ">=", 3);
  }

  lemma GlueGtStep3()
    ensures Replace(" > ", "! =", "!=") == " > "
  {
    Unchanged(" > ", "! =", "!=", 0);
  }

  lemma GlueGtStep4()
    ensures Replace(" > ", "<  >", "<>") == " > "
  {
    Unchanged(" > ", "<  >", "<>", 0);
  }

  lemma GlueGt()
    ensures Replace(Replace(Replace(Replace(" > ", "<  =", "<="), ">  =", ">="), "! =", "!="), "<  >", "<>") == " > "
  {
    GlueGtStep1();
    GlueGtStep2();
    GlueGtStep3();
    GlueGtStep4();
    Chain4(" > ", "<  =", "<=", ">  =", ">=", "! =", "!=", "<  >", "<>", " > ", " > ", " > ", " > ");
  }

  /** The steps of `Pass2Gt`, each `str_replace` proved on its own. */
  lemma Pass2GtStep1()
    ensures Replace(" > ", "<=", " <= ") == " > "
  {
    Unchanged(" > ", "<=", " <= ", 0);
  }

  lemma Pass2GtStep2()
    ensures Replace(" > ", ">=", " >= ") == " > "
  {
    Unchanged(" > ", ">=", " >= ", 1);
  }

  lemma Pass2GtStep3()
    ensures Replace(" > ", "<>", " <> ") == " > "
  {
    Unchanged(" > ", "<>", " <> ", 0);
  }

  lemma Pass2GtStep4()
    ensures Replace(" > ", "!=", " != ") == " > "
  {
    Unchanged(" > ", "!=", " != ", 0);
  }

  lemma Pass2Gt()
    ensures Replace(Replace(Replace(Replace(" > ", "<=", " <= "), ">=", " >= "), "<>", " <> "), "!=", " != ") == " > "
  {
    Pass2GtStep1();
    Pass2GtStep2();
    Pass2GtStep3();
    Pass2GtStep4();
    Chain4(" > ", "<=", " <= ", ">=", " >= ", "<>", " <> ", "!=", " != ", " > ", " > ", " > ", " > ");
  }

  /** The three rewriting passes on the operator alone. */
  lemma TraceGt()
    ensures Replace(Replace(Replace(">", "<", " < "), "=", " = "), ">", " > ") == " > "
    ensures Replace(Replace(Replace(Replace(" > ", "<  =", "<="), ">  =", ">="), "! =", "!="), "<  >", "<>") == " > "
    ensures Replace(Replace(Replace(Replace(" > ", "<=", " <= "), ">=", " >= "), "<>", " <> "), "!=", " != ") == " > "
  {
    Pass1Gt();
    GlueGt();
    Pass2Gt();
  }

  /** The steps of `Pass1Eq`, each `str_replace` proved on its own. */
  lemma Pass1EqStep1()
    ensures Replace("=", "<", " < ") == "="
  {
    Unchanged("=", "<", " < ", 0);
  }

  lemma Pass1EqStep2()
    ensures Replace("=", "=", " = ") == " = "
  {
    OnceTo("", "=", "", " = ", 0, "=", " = ");
  }

  lemma Pass1EqStep3()
    ensures Replace(" = ", ">", " > ") == " = "
  {
    Unchanged(" = ", ">", " > ", 0);
  }

  lemma Pass1Eq()
    ensures Replace(Replace(Replace("=", "<", " < "), "=", " = "), ">", " > ") == " = "
  {
    Pass1EqStep1();
    Pass1EqStep2();
    Pass1EqStep3();
    Chain3("=", "<", " < ", "=", " = ", ">", " > ", "=", " = ", " = ");
  }

  /** The steps of `GlueEq`, each `str_replace` proved on its own. */
  lemma GlueEqStep1()
    ensures Replace(" = ", "<  =", "<=") == " = "
  {
    Unchanged(" = ", "<  =", "<=", 0);
  }

  lemma GlueEqStep2()
    ensures Replace(" = ", ">  =", ">=") == " = "
  {
    Unchanged(" = ", ">  =", ">=", 0);
  }

  lemma GlueEqStep3()
    ensures Replace(" = ", "! =", "!=") == " = "
  {
    Unchanged(" = ", "! =", "!=", 0);
  }

  lemma GlueEqStep4()
    ensures Replace(" = ", "<  >", "<>") == " = "
  {
    Unchanged(" = ", "<  >", "<>", 0);
  }

  lemma GlueEq()
    ensures Replace(Replace(Replace(Replace(" = ", "<  =", "<="), ">  =", ">="), "! =", "!="), "<  >", "<>") == " = "
  {
    GlueEqStep1();
    GlueEqStep2();
    GlueEqStep3();
    GlueEqStep4();
    Chain4(" = ", "<  =", "<=", ">  =", ">=", "! =", "!=", "<  >", "<>", " = ", " = ", " = ", " = ");
  }

  /** The steps of `Pass2Eq`, each `str_replace` proved on its own. */
  lemma Pass2EqStep1()
    ensures Replace(" = ", "<=", " <= ") == " = "
  {
    Unchanged(" = ", "<=", " <= ", 0);
  }

  lemma Pass2EqStep2()
    ensures Replace(" = ", ">=", " >= ") == " = "
  {
    Unchanged(" = ", ">=", " >= ", 0);
  }

  lemma Pass2EqStep3()
    ensures Replace(" = ", "<>", " <> ") == " = "
  {
    Unchanged(" = ", "<>", " <> ", 0);
  }

  lemma Pass2EqStep4()
    ensures Replace(" = ", "!=", " != ") == " = "
  {
    Unchanged(" = ", "!=", " != ", 0);
  }

  lemma Pass2Eq()
    ensures Replace(Replace(Replace(Replace(" = ", "<=", " <= "), ">=", " >= "), "<>", " <> "), "!=", " != ") == " = "
  {
    Pass2EqStep1();
    Pass2EqStep2();
    Pass2EqStep3();
    Pass2EqStep4();
    Chain4(" = ", "<=", " <= ", ">=", " >= ", "<>", " <> ", "!=", " != ", " = ", " = ", " = ", " = ");
  }

  /** The three rewriting passes on the operator alone. */
  lemma TraceEq()
    ensures Replace(Replace(Replace("=", "<", " < "), "=", " = "), ">", " > ") == " = "
    ensures Replace(Replace(Replace(Replace(" = ", "<  =", "<="), ">  =", ">="), "! =", "!="), "<  >", "<>") == " = "
    ensures Replace(Replace(Replace(Replace(" = ", "<=", " <= "), ">=", " >= "), "<>", " <> "), "!=", " != ") == " = "
  {
    Pass1Eq();
    GlueEq();
    Pass2Eq();
  }

  /** The steps of `Pass1Le`, each `str_replace` proved on its own. */
  lemma Pass1LeStep1()
    ensures Replace("<=", "<", " < ") == " < ="
  {
    OnceTo("", "<", "=", " < ", 0, "<=", " < =");
  }

  lemma Pass1LeStep2()
    ensures Replace(" < =", "=", " = ") == " <  = "
  {
    OnceTo(" < ", "=", "", " = ", 0, " < =", " <  = ");
  }

  lemma Pass1LeStep3()
    ensures Replace(" <  = ", ">", " > ") == " <  = "
  {
    Unchanged(" <  = ", ">", " > ", 0);
  }

  lemma Pass1Le()
    ensures Replace(Replace(Replace("<=", "<", " < "), "=", " = "), ">", " > ") == " <  = "
  {
    Pass1LeStep1();
    Pass1LeStep2();
    Pass1LeStep3();
    Chain3("<=", "<", " < ", "=", " = ", ">", " > ", " < =", " <  = ", " <  = ");
  }

  /** The steps of `GlueLe`, each `str_replace` proved on its own. */
  lemma GlueLeStep1()
    ensures Replace(" <  = ", "<  =", "<=") == " <= "
  {
    OnceTo(" ", "<  =", " ", "<=", 0, " <  = ", " <= ");
  }

  lemma GlueLeStep2()
    ensures Replace(" <= ", ">  =", ">=") == " <= "
  {
    Unchanged(" <= ", ">  =", ">=", 0);
  }

  lemma GlueLeStep3()
    ensures Replace(" <= ", "! =", "!=") == " <= "
  {
    Unchanged(" <= ", "! =", "!=", 0);
  }

  lemma GlueLeStep4()
    ensures Replace(" <= ", "<  >", "<>") == " <= "
  {
    Unchanged(" <= ", "<  >", "<>", 3);
  }

  lemma GlueLe()
    ensures Replace(Replace(Replace(Replace(" <  = ", "<  =", "<="), ">  =", ">="), "! =", "!="), "<  >", "<>") == " <= "
  {
    GlueLeStep1();
    GlueLeStep2();
    GlueLeStep3();
    GlueLeStep4();
    Chain4(" <  = ", "<  =", "<=", ">  =", ">=", "! =", "!=", "<  >", "<>", " <= ", " <= ", " <= ", " <= ");
  }

  /** The steps of `Pass2Le`, each `str_replace` proved on its own. */
  lemma Pass2LeStep1()
    ensures Replace(" <= ", "<=", " <= ") == "  <=  "
  {
    OnceTo(" ", "<=", " ", " <= ", 0, " <= ", "  <=  ");
  }

  lemma Pass2LeStep2()
    ensures Replace("  <=  ", ">=", " >= ") == "  <=  "
  {
    Unchanged("  <=  ", ">=", " >= ", 0);
  }

  lemma Pass2LeStep3()
    ensures Replace("  <=  ", "<>", " <> ") == "  <=  "
  {
    Unchanged("  <=  ", "<>", " <> ", 1);
  }

  lemma Pass2LeStep4()
    ensures Replace("  <=  ", "!=", " != ") == "  <=  "
  {
    Unchanged("  <=  ", "!=", " != ", 0);
  }

  lemma Pass2Le()
    ensures Replace(Replace(Replace(Replace(" <= ", "<=", " <= "), ">=", " >= "), "<>", " <> "), "!=", " != ") == "  <=  "
  {
    Pass2LeStep1();
    Pass2LeStep2();
    Pass2LeStep3();
    Pass2LeStep4();
    Chain4(" <= ", "<=", " <= ", ">=", " >= ", "<>", " <> ", "!=", " != ", "  <=  ", "  <=  ", "  <=  ", "  <=  ");
  }

  /** The three rewriting passes on the operator alone. */
  lemma TraceLe()
    ensures Replace(Replace(Replace("<=", "<", " < "), "=", " = "), ">", " > ") == " <  = "
    ensures Replace(Replace(Replace(Replace(" <  = ", "<  =", "<="), ">  =", ">="), "! =", "!="), "<  >", "<>") == " <= "
    ensures Replace(Replace(Replace(Replace(" <= ", "<=", " <= "), ">=", " >= "), "<>", " <> "), "!=", " != ") == "  <=  "
  {
    Pass1Le();
    GlueLe();
    Pass2Le();
  }

  /** The steps of `Pass1Ge`, each `str_replace` proved on its own. */
  lemma Pass1GeStep1()
    ensures Replace(">=", "<", " < ") == ">="
  {
    Unchanged(">=", "<", " < ", 0);
  }

  lemma Pass1GeStep2()
    ensures Replace(">=", "=", " = ") == "> = "
  {
    OnceTo(">", "=", "", " = ", 0, ">=", "> = ");
  }

  lemma Pass1GeStep3()
    ensures Replace("> = ", ">", " > ") == " >  = "
  {
    OnceTo("", ">", " = ", " > ", 0, "> = ", " >  = ");
  }

  lemma Pass1Ge()
    ensures Replace(Replace(Replace(">=", "<", " < "), "=", " = "), ">", " > ") == " >  = "
  {
    Pass1GeStep1();
    Pass1GeStep2();
    Pass1GeStep3();
    Chain3(">=", "<", " < ", "=", " = ", ">", " > ", ">=", "> = ", " >  = ");
  }

  /** The steps of `GlueGe`, each `str_replace` proved on its own. */
  lemma GlueGeStep1()
    ensures Replace(" >  = ", "<  =", "<=") == " >  = "
  {
    Unchanged(" >  = ", "<  =", "<=", 0);
  }

  lemma GlueGeStep2()
    ensures Replace(" >  = ", ">  =", ">=") == " >= "
  {
    OnceTo(" ", ">  =", " ", ">=", 0, " >  = ", " >= ");
  }

  lemma GlueGeStep3()
    ensures Replace(" >= ", "! =", "!=") == " >= "
  {
    Unchanged(" >= ", "! =", "!=", 0);
  }

  lemma GlueGeStep4()
    ensures Replace(" >= ", "<  >", "<>") == " >= "
  {
    Unchanged(" >= ", "<  >", "<>", 0);
  }

  lemma GlueGe()
    ensures Replace(Replace(Replace(Replace(" >  = ", "<  =", "<="), ">  =", ">="), "! =", "!="), "<  >", "<>") == " >= "
  {
    GlueGeStep1();
    GlueGeStep2();
    GlueGeStep3();
    GlueGeStep4();
    Chain4(" >  = ", "<  =", "<=", ">  =", ">=", "! =", "!=", "<  >", "<>", " >  = ", " >= ", " >= ", " >= ");
  }

  /** The steps of `Pass2Ge`, each `str_replace` proved on its own. */
  lemma Pass2GeStep1()
    ensures Replace(" >= ", "<=", " <= ") == " >= "
  {
    Unchanged(" >= ", "<=", " <= ", 0);
  }

  lemma Pass2GeStep2()
    ensures Replace(" >= ", ">=", " >= ") == "  >=  "
  {
    OnceTo(" ", ">=", " ", " >= ", 0, " >= ", "  >=  ");
  }

  lemma Pass2GeStep3()
    ensures Replace("  >=  ", "<>", " <> ") == "  >=  "
  {
    Unchanged("  >=  ", "<>", " <> ", 0);
  }

  lemma Pass2GeStep4()
    ensures Replace("  >=  ", "!=", " != ") == "  >=  "
  {
    Unchanged("  >=  ", "!=", " != ", 0);
  }

  lemma Pass2Ge()
    ensures Replace(Replace(Replace(Replace(" >= ", "<=", " <= "), ">=", " >= "), "<>", " <> "), "!=", " != ") == "  >=  "
  {
    Pass2GeStep1();
    Pass2GeStep2();
    Pass2GeStep3();
    Pass2GeStep4();
    Chain4(" >= ", "<=", " <= ", ">=", " >= ", "<>", " <> ", "!=", " != ", " >= ", "  >=  ", "  >=  ", "  >=  ");
  }

  /** The three rewriting passes on the operator alone. */
  lemma TraceGe()
    ensures Replace(Replace(Replace(">=", "<", " < "), "=", " = "), ">", " > ") == " >  = "
    ensures Replace(Replace(Replace(Replace(" >  = ", "<  =", "<="), ">  =", ">="), "! =", "!="), "<  >", "<>") == " >= "
    ensures Replace(Replace(Replace(Replace(" >= ", "<=", " <= "), ">=", " >= "), "<>", " <> "), "!=", " != ") == "  >=  "
  {
    Pass1Ge();
    GlueGe();
    Pass2Ge();
  }

  /** The steps of `Pass1Ltgt`, each `str_replace` proved on its own. */
  lemma Pass1LtgtStep1()
    ensures Replace("<>", "<", " < ") == " < >"
  {
    OnceTo("", "<", ">", " < ", 0, "<>", " < >");
  }

  lemma Pass1LtgtStep2()
    ensures Replace(" < >", "=", " = ") == " < >"
  {
    Unchanged(" < >", "=", " = ", 0);
  }

  lemma Pass1LtgtStep3()
    ensures Replace(" < >", ">", " > ") == " <  > "
  {
    OnceTo(" < ", ">", "", " > ", 0, " < >", " <  > ");
  }

  lemma Pass1Ltgt()
    ensures Replace(Replace(Replace("<>", "<", " < "), "=", " = "), ">", " > ") == " <  > "
  {
    Pass1LtgtStep1();
    Pass1LtgtStep2();
    Pass1LtgtStep3();
    Chain3("<>", "<", " < ", "=", " = ", ">", " > ", " < >", " < >", " <  > ");
  }

  /** The steps of `GlueLtgt`, each `str_replace` proved on its own. */
  lemma GlueLtgtStep1()
    ensures Replace(" <  > ", "<  =", "<=") == " <  > "
  {
    Unchanged(" <  > ", "<  =", "<=", 3);
  }

  lemma GlueLtgtStep2()
    ensures Replace(" <  > ", ">  =", ">=") == " <  > "
  {
    Unchanged(" <  > ", ">  =", ">=", 3);
  }

  lemma GlueLtgtStep3()
    ensures Replace(" <  > ", "! =", "!=") == " <  > "
  {
    Unchanged(" <  > ", "! =", "!=", 0);
  }

  lemma GlueLtgtStep4()
    ensures Replace(" <  > ", "<  >", "<>") == " <> "
  {
    OnceTo(" ", "<  >", " ", "<>", 0, " <  > ", " <> ");
  }

  lemma GlueLtgt()
    ensures Replace(Replace(Replace(Replace(" <  > ", "<  =", "<="), ">  =", ">="), "! =", "!="), "<  >", "<>") == " <> "
  {
    GlueLtgtStep1();
    GlueLtgtStep2();
    GlueLtgtStep3();
    GlueLtgtStep4();
    Chain4(" <  > ", "<  =", "<=", ">  =", ">=", "! =", "!=", "<  >", "<>", " <  > ", " <  > ", " <  > ", " <> ");
  }

  /** The steps of `Pass2Ltgt`, each `str_replace` proved on its own. */
  lemma Pass2LtgtStep1()
    ensures Replace(" <> ", "<=", " <= ") == " <> "
  {
    Unchanged(" <> ", "<=", " <= ", 1);
  }

  lemma Pass2LtgtStep2()
    ensures Replace(" <> ", ">=", " >= ") == " <> "
  {
    Unchanged(" <> ", ">=", " >= ", 1);
  }

  lemma Pass2LtgtStep3()
    ensures Replace(" <> ", "<>", " <> ") == "  <>  "
  {
    OnceTo(" ", "<>", " ", " <> ", 0, " <> ", "  <>  ");
  }

  lemma Pass2LtgtStep4()
    ensures Replace("  <>  ", "!=", " != ") == "  <>  "
  {
    Unchanged("  <>  ", "!=", " != ", 0);
  }

  lemma Pass2Ltgt()
    ensures Replace(Replace(Replace(Replace(" <> ", "<=", " <= "), ">=", " >= "), "<>", " <> "), "!=", " != ") == "  <>  "
  {
    Pass2LtgtStep1();
    Pass2LtgtStep2();
    Pass2LtgtStep3();
    Pass2LtgtStep4();
    Chain4(" <> ", "<=", " <= ", ">=", " >= ", "<>", " <> ", "!=", " != ", " <> ", " <> ", "  <>  ", "  <>  ");
  }

  /** The three rewriting passes on the operator alone. */
  lemma TraceLtgt()
    ensures Replace(Replace(Replace("<>", "<", " < "), "=", " = "), ">", " > ") == " <  > "
    ensures Replace(Replace(Replace(Replace(" <  > ", "<  =", "<="), ">  =", ">="), "! =", "!="), "<  >", "<>") == " <> "
    ensures Replace(Replace(Replace(Replace(" <> ", "<=", " <= "), ">=", " >= "), "<>", " <> "), "!=", " != ") == "  <>  "
  {
    Pass1Ltgt();
    GlueLtgt();
    Pass2Ltgt();
  }

  /** The steps of `Pass1Ne`, each `str_replace` proved on its own. */
  lemma Pass1NeStep1()
    ensures Replace("!=", "<", " < ") == "!="
  {
    Unchanged("!=", "<", " < ", 0);
  }

  lemma Pass1NeStep2()
    ensures Replace("!=", "=", " = ") == "! = "
  {
    OnceTo("!", "=", "", " = ", 0, "!=", "! = ");
  }

  lemma Pass1NeStep3()
    ensures Replace("! = ", ">", " > ") == "! = "
  {
    Unchanged("! = ", ">", " > ", 0);
  }

  lemma Pass1Ne()
    ensures Replace(Replace(Replace("!=", "<", " < "), "=", " = "), ">", " > ") == "! = "
  {
    Pass1NeStep1();
    Pass1NeStep2();
    Pass1NeStep3();
    Chain3("!=", "<", " < ", "=", " = ", ">", " > ", "!=", "! = ", "! = ");
  }

  /** The steps of `GlueNe`, each `str_replace` proved on its own. */
  lemma GlueNeStep1()
    ensures Replace("! = ", "<  =", "<=") == "! = "
  {
    Unchanged("! = ", "<  =", "<=", 0);
  }

  lemma GlueNeStep2()
    ensures Replace("! = ", ">  =", ">=") == "! = "
  {
    Unchanged("! = ", ">  =", ">=", 0);
  }

  lemma GlueNeStep3()
    ensures Replace("! = ", "! =", "!=") == "!= "
  {
    OnceTo("", "! =", " ", "!=", 0, "! = ", "!= ");
  }

  lemma GlueNeStep4()
    ensures Replace("!= ", "<  >", "<>") == "!= "
  {
    Unchanged("!= ", "<  >", "<>", 0);
  }

  lemma GlueNe()
    ensures Replace(Replace(Replace(Replace("! = ", "<  =", "<="), ">  =", ">="), "! =", "!="), "<  >", "<>") == "!= "
  {
    GlueNeStep1();
    GlueNeStep2();
    GlueNeStep3();
    GlueNeStep4();
    Chain4("! = ", "<  =", "<=", ">  =", ">=", "! =", "!=", "<  >", "<>", "! = ", "! = ", "!= ", "!= ");
  }

  /** The steps of `Pass2Ne`, each `str_replace` proved on its own. */
  lemma Pass2NeStep1()
    ensures Replace("!= ", "<=", " <= ") == "!= "
  {
    Unchanged("!= ", "<=", " <= ", 0);
  }

  lemma Pass2NeStep2()
    ensures Replace("!= ", ">=", " >= ") == "!= "
  {
    Unchanged("!= ", ">=", " >= ", 0);
  }

  lemma Pass2NeStep3()
    ensures Replace("!= ", "<>", " <> ") == "!= "
  {
    Unchanged("!= ", "<>", " <> ", 0);
  }

  lemma Pass2NeStep4()
    ensures Replace("!= ", "!=", " != ") == " !=  "
  {
    OnceTo("", "!=", " ", " != ", 0, "!= ", " !=  ");
  }

  lemma Pass2Ne()
    ensures Replace(Replace(Replace(Replace("!= ", "<=", " <= "), ">=", " >= "), "<>", " <> "), "!=", " != ") == " !=  "
  {
    Pass2NeStep1();
    Pass2NeStep2();
    Pass2NeStep3();
    Pass2NeStep4();
    Chain4("!= ", "<=", " <= ", ">=", " >= ", "<>", " <> ", "!=", " != ", "!= ", "!= ", "!= ", " !=  ");
  }

  /** The three rewriting passes on the operator alone. */
  lemma TraceNe()
    ensures Replace(Replace(Replace("!=", "<", " < "), "=", " = "), ">", " > ") == "! = "
    ensures Replace(Replace(Replace(Replace("! = ", "<  =", "<="), ">  =", ">="), "! =", "!="), "<  >", "<>") == "!= "
    ensures Replace(Replace(Replace(Replace("!= ", "<=", " <= "), ">=", " >= "), "<>", " <> "), "!=", " != ") == " !=  "
  {
    Pass1Ne();
    GlueNe();
    Pass2Ne();
  }

  /** `Spaced` read off the three passes' results. */
  lemma SpacedChain(x: string, e1: string, e2: string, e3: string)
    requires Replace(Replace(Replace(x, "<", " < "), "=", " = "), ">", " > ") == e1
    requires Replace(Replace(Replace(Replace(e1, "<  =", "<="), ">  =", ">="), "! =", "!="), "<  >", "<>") == e2
    requires Replace(Replace(Replace(Replace(e2, "<=", " <= "), ">=", " >= "), "<>", " <> "), "!=", " != ") == e3
    ensures Spaced(x) == e3
  {
    Pass1(x);
    Glue(e1);
    Pass2(e2);
  }

  /** The blanks the passes leave before an operator: two after a `<` or `>` that the glue step rejoined, one otherwise. */
  function LeftPad(op: string): string {
    if |op| == 2 && op[0] != '!' then "  " else " "
  }

  /** The blanks the passes leave after an operator: two after a two-character operator, one otherwise. */
  function RightPad(op: string): string {
    if |op| == 2 then "  " else " "
  }

  lemma SpacedLt(op: string)
    requires op == "<"
    ensures Spaced(op) == " < "
  {
    TraceLt();
    SpacedChain(op, " < ", " < ", " < ");
  }

  lemma SpacedGt(op: string)
    requires op == ">"
    ensures Spaced(op) == " > "
  {
    TraceGt();
    SpacedChain(op, " > ", " > ", " > ");
  }

  lemma SpacedEq(op: string)
    requires op == "="
    ensures Spaced(op) == " = "
  {
    TraceEq();
    SpacedChain(op, " = ", " = ", " = ");
  }

  lemma SpacedLe(op: string)
    requires op == "<="
    ensures Spaced(op) == "  <=  "
  {
    TraceLe();
    SpacedChain(op, " <  = ", " <= ", "  <=  ");
  }

  lemma SpacedGe(op: string)
    requires op == ">="
    ensures Spaced(op) == "  >=  "
  {
    TraceGe();
    SpacedChain(op, " >  = ", " >= ", "  >=  ");
  }

  lemma SpacedLtgt(op: string)
    requires op == "<>"
    ensures Spaced(op) == "  <>  "
  {
    TraceLtgt();
    SpacedChain(op, " <  > ", " <> ", "  <>  ");
  }

  lemma SpacedNe(op: string)
    requires op == "!="
    ensures Spaced(op) == " !=  "
  {
    TraceNe();
    SpacedChain(op, "! = ", "!= ", " !=  ");
  }

  /** The padded spellings, kept apart from any rewriting so that the solver compares strings only. */
  lemma PadText(op: string)
    requires Comparator(op)
    ensures op == "<" ==> " < " == LeftPad(op) + op + RightPad(op)
    ensures op == ">" ==> " > " == LeftPad(op) + op + RightPad(op)
    ensures op == "=" ==> " = " == LeftPad(op) + op + RightPad(op)
    ensures op == "<=" ==> "  <=  " == LeftPad(op) + op + RightPad(op)
    ensures op == ">=" ==> "  >=  " == LeftPad(op) + op + RightPad(op)
    ensures op == "<>" ==> "  <>  " == LeftPad(op) + op + RightPad(op)
    ensures op == "!=" ==> " !=  " == LeftPad(op) + op + RightPad(op)
  {
  }

  /** Each comparison operator comes out of the three passes as itself between one or two blanks on each side. */
  lemma SpacedOperator(op: string)
    requires Comparator(op)
    ensures Spaced(op) == LeftPad(op) + op + RightPad(op)
  {
    if op == "<" { SpacedLt(op); PadText(op); }
    else if op == ">" { SpacedGt(op); PadText(op); }
    else if op == "=" { SpacedEq(op); PadText(op); }
    else if op == "<=" { SpacedLe(op); PadText(op); }
    else if op == ">=" { SpacedGe(op); PadText(op); }
    else if op == "<>" { SpacedLtgt(op); PadText(op); }
    else { SpacedNe(op); PadText(op); }
  }

  // ---------------------------------------------------------------------
  // A comparison written without blanks

  /** The part every placeholder key starts with. */
  const KeyPrefix: string := "__tmp_identifier_"

  /** Every key is the prefix followed by the salt, the position and the spelling number: a word starting with `_`. */
  lemma KeyShape(salt: string, index: nat, c: char)
    requires AllDigits(salt) && IsDigit(c)
    ensures StartsWith(Key(salt, index, c), KeyPrefix)
    ensures Word(Key(salt, index, c)) && Key(salt, index, c)[0] == '_'
    ensures PlainKey(Key(salt, index, c))
  {
    DigitsRoundTrip(index);
    var k := Key(salt, index, c);
    var d := IntToString(index);
    assert k == KeyPrefix + salt + "_" + d + "_" + [c];
    assert k[..|KeyPrefix|] == KeyPrefix;
    forall i | 0 <= i < |k| ensures PlainChar(k[i]) {
      if i < |KeyPrefix| {
        assert k[i] == KeyPrefix[i];
      } else if i < |KeyPrefix| + |salt| {
        assert k[i] == salt[i - |KeyPrefix|];
      } else if |KeyPrefix| + |salt| + 1 <= i < |KeyPrefix| + |salt| + 1 + |d| {
        assert k[i] == d[i - |KeyPrefix| - |salt| - 1];
      } else if i == |k| - 1 {
        assert k[i] == c;
      } else {
        assert k[i] == '_';
      }
    }
    PlainWord(k);
  }

  /** The characters a key is spelt with. */
  predicate PlainChar(c: char) {
    c == '_' || 'a' <= c <= 'z' || IsDigit(c)
  }

  predicate PlainKey(k: string) {
    k != [] && forall i :: 0 <= i < |k| ==> PlainChar(k[i])
  }

  /** A key is a word: no blank, operator character or quote. */
  lemma PlainWord(k: string)
    requires PlainKey(k)
    ensures Word(k)
  {
  }

  /** A word holds no blank. */
  lemma WordNoBlank(w: string)
    requires Word(w)
    ensures ' ' !in w
  {
    assert IsSpace(' ');
  }

  /** The four keys of the first two positions are pairwise different and equally long. */
  lemma KeysDiffer(salt: string)
    ensures |Key(salt, 0, '1')| == |Key(salt, 0, '2')| == |Key(salt, 1, '1')| == |Key(salt, 1, '2')|
    ensures Key(salt, 0, '1') != Key(salt, 0, '2') && Key(salt, 1, '1') != Key(salt, 1, '2')
    ensures Key(salt, 0, '1') != Key(salt, 1, '1') && Key(salt, 0, '1') != Key(salt, 1, '2')
    ensures Key(salt, 0, '2') != Key(salt, 1, '1') && Key(salt, 0, '2') != Key(salt, 1, '2')
  {
    assert IntToString(0) == "0" && IntToString(1) == "1";
    var at := |KeyPrefix| + |salt| + 1;
    var last := at + 2;
    assert Key(salt, 0, '1')[at] == '0' && Key(salt, 0, '1')[last] == '1';
    assert Key(salt, 0, '2')[at] == '0' && Key(salt, 0, '2')[last] == '2';
    assert Key(salt, 1, '1')[at] == '1' && Key(salt, 1, '1')[last] == '1';
    assert Key(salt, 1, '2')[at] == '1' && Key(salt, 1, '2')[last] == '2';
  }

  /** A text starting with a string starts with every prefix of it. */
  lemma StartsTrans(s: string, a: string, b: string)
    requires StartsWith(a, b)
    ensures StartsWith(s, a) ==> StartsWith(s, b)
  {
    if StartsWith(s, a) {
      assert s[..|b|] == s[..|a|][..|b|];
    }
  }

  /** Text that does not hold the key prefix holds no key. */
  lemma NoKeyIn(t: string, pairs: seq<(string, string)>)
    requires !Contains(t, KeyPrefix) && forall p :: p in pairs ==> StartsWith(p.0, KeyPrefix)
    ensures Fresh(t, pairs)
  {
    forall j, p | 0 <= j < |t| && p in pairs && p.0 != []
      ensures !StartsWith(t[j..], p.0)
    {
      assert !StartsWith(t[j..], KeyPrefix);
      StartsTrans(t[j..], p.0, KeyPrefix);
    }
  }

  /** Operator characters only, as every comparison operator is written. */
  predicate OperatorWord(o: string) {
    o != [] && forall i :: 0 <= i < |o| ==> o[i] in OperatorChars
  }

  lemma ComparatorChars(op: string)
    requires Comparator(op)
    ensures OperatorWord(op)
  {
  }

  /** Text of words and operator characters, as `buildReplacers` leaves it when it holds no quote. */
  lemma HideNothing(f: string, op: string, n: string, salt: string)
    requires Word(f) && Word(n) && OperatorWord(op) && !EmptyString(f)
    ensures BuildReplacersSpec([f], f + op + n, salt) == (ReplacersOf(f, salt, 0), f + op + n)
  {
    var pairs := ReplacersOf(f, salt, 0);
    var t := f + op + n;
    assert '\'' !in t && '"' !in t by {
      assert '\'' in Quotes && '"' in Quotes;
    }
    StrTrLeft(t, [], Inverted(pairs));
    assert t + [] == t;
    assert StrTr(t, Inverted(pairs)) == t;
    assert [] + pairs == pairs;
    assert BuildReplacersFrom([f], 1, pairs, t, salt) == (pairs, t);
  }

  /** The blanks left around an operator are one or two. */
  lemma PadBlanks(op: string)
    ensures Blanks(LeftPad(op)) && Blanks(RightPad(op))
  {
  }

  /** `preg_replace('!\s+!', ' ', …)` on `f`, the spaced operator and `n`. */
  lemma CollapseComparison(f: string, op: string, n: string)
    requires Word(f) && Word(n) && OperatorWord(op)
    ensures Collapse(f + (LeftPad(op) + op + RightPad(op)) + n) == f + " " + op + " " + n
  {
    var mid := LeftPad(op) + op + RightPad(op);
    CollapseMiddle(op, n);
    ConcatAssoc(f, mid, n);
    CollapseNoSpace(f, mid + n);
    Regroup(f, " ", op, " ", n);
  }

  /** The padded operator and the word after it. */
  lemma CollapseMiddle(op: string, n: string)
    requires Word(n) && OperatorWord(op)
    ensures Collapse(LeftPad(op) + op + RightPad(op) + n) == " " + op + " " + n
  {
    var mid := LeftPad(op) + op + RightPad(op);
    PadBlanks(op);
    CollapseAround(LeftPad(op), op, RightPad(op));
    CollapseNoSpace(n, []);
    EmptyPrefix(n);
    CollapseBefore(mid, n);
  }

  lemma Regroup(a: string, b: string, c: string, d: string, e: string)
    ensures a + (b + c + d + e) == a + b + c + d + e
  {
  }

  /** Text holding no key's first character comes out of `strtr` unchanged. */
  lemma StrTrUntouched(t: string, pairs: seq<(string, string)>)
    requires forall p :: p in pairs && p.0 != [] ==> p.0[0] !in t
    ensures StrTr(t, pairs) == t
  {
    StrTrLeft(t, [], pairs);
    assert t + [] == t;
  }

  /** The operator and the value of a spaced comparison hold no underscore. */
  lemma NoUnderscore(op: string, n: string)
    requires OperatorWord(op) && '_' !in n
    ensures '_' !in " " + op + " " + n
  {
    var rest := " " + op + " " + n;
    forall i | 0 <= i < |rest| ensures rest[i] != '_' {
      if i == 0 || i == 1 + |op| {
        assert rest[i] == ' ';
      } else if i <= |op| {
        assert rest[i] == op[i - 1];
      } else {
        assert rest[i] == n[i - 2 - |op|];
      }
    }
  }

  /** The keys, found nowhere in the text, restore nothing. */
  lemma RestoreNothing(f: string, op: string, n: string, salt: string)
    requires Word(f) && Word(n) && OperatorWord(op) && AllDigits(salt)
    requires !Contains(f, KeyPrefix) && '_' !in n
    ensures StrTr(f + " " + op + " " + n, ReplacersOf(f, salt, 0)) == f + " " + op + " " + n
  {
    var pairs := ReplacersOf(f, salt, 0);
    var rest := " " + op + " " + n;
    Regroup(f, " ", op, " ", n);
    KeyShape(salt, 0, '1');
    KeyShape(salt, 0, '2');
    WordNoBlank(Key(salt, 0, '1'));
    WordNoBlank(Key(salt, 0, '2'));
    StrTrBefore(f, rest, pairs);
    NoKeyIn(f, pairs);
    StrTrFresh(f, pairs);
    RestUntouched(op, n, pairs);
  }

  /** The spaced operator and value hold no key's first character. */
  lemma RestUntouched(op: string, n: string, pairs: seq<(string, string)>)
    requires OperatorWord(op) && '_' !in n
    requires forall p :: p in pairs && p.0 != [] ==> p.0[0] == '_'
    ensures StrTr(" " + op + " " + n, pairs) == " " + op + " " + n
  {
    NoUnderscore(op, n);
    StrTrUntouched(" " + op + " " + n, pairs);
  }

  /** `explode(' ', …)` on a spaced comparison. */
  lemma SplitComparison(f: string, op: string, n: string)
    requires ' ' !in f && ' ' !in n && OperatorWord(op)
    ensures Split(f + " " + op + " " + n, " ") == [f, op, n]
  {
    OperatorNoBlank(op);
    SplitThree(f, op, n);
  }

  lemma OperatorNoBlank(op: string)
    requires OperatorWord(op)
    ensures ' ' !in op
  {
  }

  /** `explode(' ', …)` of three blank-free words joined by single blanks. */
  lemma SplitThree(f: string, op: string, n: string)
    requires ' ' !in f && ' ' !in op && ' ' !in n
    ensures Split(f + " " + op + " " + n, " ") == [f, op, n]
  {
    ConcatAssoc(f + " ", op, " ");
    ConcatAssoc(f + " ", op + " ", n);
    SplitAt(f, ' ', op + " " + n);
    SplitAt(op, ' ', n);
    SplitNone(n, ' ');
    Triple(f, op, n);
  }

  /**
   * `age>=12` is cut into the same three tokens as `age >= 12`: the
   * operator passes put blanks around the operator wherever it stands and
   * `preg_replace` reduces them to one.
   */
  lemma GluedTokens(f: string, op: string, n: string, salt: string)
    requires Word(f) && Word(n) && Comparator(op) && !EmptyString(f) && '_' !in n
    requires AllDigits(salt) && !Contains(f, KeyPrefix)
    ensures Split(NormalizeExprSpec([f], f + op + n, salt), " ") == [f, op, n]
  {
    ComparatorChars(op);
    HideNothing(f, op, n, salt);
    SpacedBetween(f, op, n);
    SpacedOperator(op);
    CollapseComparison(f, op, n);
    RestoreNothing(f, op, n, salt);
    WordNoBlank(f);
    WordNoBlank(n);
    SplitComparison(f, op, n);
  }

  /** A character of a numeral is none of the characters that end a word. */
  lemma NumeralCharWord(c: char)
    requires NumeralChar(c)
    ensures !IsSpace(c) && c !in OperatorChars && c !in Quotes && c != '_'
  {
  }

  /** A numeral is a word without underscore. */
  lemma NumeralWord(k: int)
    ensures Word(IntToString(k)) && '_' !in IntToString(k)
  {
    var s := IntToString(k);
    IntegerNumeral(k);
    NumericShape(s);
    forall i | 0 <= i < |s| ensures !IsSpace(s[i]) && s[i] !in OperatorChars && s[i] !in Quotes && s[i] != '_' {
      NumeralCharWord(s[i]);
    }
  }

  /** A field name is neither empty nor `0`, which reads as a number. */
  lemma FieldNotEmpty(f: string)
    requires FieldToken(f)
    ensures !EmptyString(f)
  {
    IntegerNumeral(0);
    assert IntToString(0) == "0";
  }

  /** `convertOperator` reads the tokens `explode` cuts from the normalised text. */
  lemma OperatorTokens(ids: seq<string>, e: string, reg: Registry, salt: string, tokens: seq<string>)
    requires Split(NormalizeExprSpec(ids, e, salt), " ") == tokens
    ensures ConvertOperatorSpec(ids, e, reg, salt) == ConvertTokens(ids, tokens, reg, salt)
  {
  }

  /**
   * `convertOperator` on a comparison of a column with an integer, the
   * operator glued to both: `age>=12` gives `{age: {$gte: 12}}`.
   */
  lemma GluedComparison(f: string, op: string, k: int, reg: Registry, salt: string)
    requires Word(f) && FieldToken(f) && Comparator(op)
    requires AllDigits(salt) && !Contains(f, KeyPrefix)
    ensures var r := ConvertOperatorSpec([f], f + op + IntToString(k), reg, salt);
      if op == "=" then r == [(f, Int(k))]
      else if op == "<>" || op == "!=" then r == [(f, Obj([("$ne", Int(k))]))]
      else r == [(f, Obj([(OrderTag(op, false), Int(k))]))]
  {
    NumeralWord(k);
    FieldNotEmpty(f);
    GluedTokens(f, op, IntToString(k), salt);
    OperatorTokens([f], f + op + IntToString(k), reg, salt, [f, op, IntToString(k)]);
    WordNoBlank(f);
    assert FirstId([f]) == f;
    ComparisonFilter([f], f, op, k, reg, salt);
  }

  // ---------------------------------------------------------------------
  // A quoted identifier hidden and put back

  /** The single-quoted spelling of an identifier. */
  function Quoted(x: string): string {
    "'" + x + "'"
  }

  /** No quote of either kind. */
  predicate Unquoted(s: string) {
    '\'' !in s && '"' !in s
  }

  /**
   * `strtr` at a key no other key of the same length equals: the key's
   * replacement, then the rest.
   */
  lemma StrTrAtKey(k: string, v: string, b: string, pairs: seq<(string, string)>)
    requires (k, v) in pairs && k != []
    requires forall p :: p in pairs && p != (k, v) ==> |p.0| == |k| && p.0 != k
    ensures StrTr(k + b, pairs) == v + StrTr(b, pairs)
  {
    var s := k + b;
    assert s[..|k|] == k;
    var m := LongestMatch(s, pairs);
    assert m.Some?;
    assert m.value == (k, v) by {
      assert s[..|m.value.0|] == m.value.0;
    }
    assert s[|k|..] == b;
  }

  /** The two spellings of an identifier only differ in their quotes. */
  lemma SpellingsDiffer(x: string, salt: string, index: nat)
    ensures var inv := Inverted(ReplacersOf(x, salt, index));
      (Quoted(x), Key(salt, index, '1')) in inv &&
      forall p :: p in inv && p != (Quoted(x), Key(salt, index, '1')) ==> |p.0| == |Quoted(x)| && p.0 != Quoted(x)
  {
    var inv := Inverted(ReplacersOf(x, salt, index));
    assert inv == [(Quoted(x), Key(salt, index, '1')), ("\"" + x + "\"", Key(salt, index, '2'))];
    assert ("\"" + x + "\"")[0] != Quoted(x)[0];
  }

  /** The keys of one identifier differ in their last character. */
  lemma KeysOfOne(x: string, salt: string, index: nat)
    ensures var pairs := ReplacersOf(x, salt, index);
      (Key(salt, index, '1'), Quoted(x)) in pairs &&
      forall p :: p in pairs && p != (Key(salt, index, '1'), Quoted(x)) ==> |p.0| == |Key(salt, index, '1')| && p.0 != Key(salt, index, '1')
  {
    var k1, k2 := Key(salt, index, '1'), Key(salt, index, '2');
    assert k1[|k1| - 1] != k2[|k2| - 1];
  }

  /** `buildReplacers`' `strtr` puts the key in place of the single-quoted identifier. */
  lemma HideOne(a: string, x: string, b: string, salt: string, index: nat)
    requires Unquoted(a) && Unquoted(x) && Unquoted(b)
    ensures StrTr(a + Quoted(x) + b, Inverted(ReplacersOf(x, salt, index))) == a + Key(salt, index, '1') + b
  {
    var inv := Inverted(ReplacersOf(x, salt, index));
    var k := Key(salt, index, '1');
    QuoteFirst(x, salt, index);
    ConcatAssoc(a, Quoted(x), b);
    StrTrLeft(a, Quoted(x) + b, inv);
    HideAtStart(x, b, salt, index);
    ConcatAssoc(a, k, b);
  }

  /** The quoted identifier at the start is replaced, the unquoted rest is not. */
  lemma HideAtStart(x: string, b: string, salt: string, index: nat)
    requires Unquoted(b)
    ensures StrTr(Quoted(x) + b, Inverted(ReplacersOf(x, salt, index))) == Key(salt, index, '1') + b
  {
    var inv := Inverted(ReplacersOf(x, salt, index));
    QuoteFirst(x, salt, index);
    SpellingsDiffer(x, salt, index);
    StrTrAtKey(Quoted(x), Key(salt, index, '1'), b, inv);
    StrTrUntouched(b, inv);
  }

  /** The literals `strtr` looks for start with a quote. */
  lemma QuoteFirst(x: string, salt: string, index: nat)
    ensures forall p :: p in Inverted(ReplacersOf(x, salt, index)) ==> p.0 != [] && (p.0[0] == '\'' || p.0[0] == '"')
  {
    assert Inverted(ReplacersOf(x, salt, index)) == [(Quoted(x), Key(salt, index, '1')), ("\"" + x + "\"", Key(salt, index, '2'))];
  }

  /** `normalizeExpr`'s `strtr` puts the single-quoted identifier back in place of its key. */
  lemma RestoreOne(a: string, x: string, b: string, salt: string, index: nat)
    requires '_' !in a && '_' !in b && AllDigits(salt)
    ensures StrTr(a + Key(salt, index, '1') + b, ReplacersOf(x, salt, index)) == a + Quoted(x) + b
  {
    var pairs := ReplacersOf(x, salt, index);
    var k := Key(salt, index, '1');
    KeyShape(salt, index, '1');
    KeyShape(salt, index, '2');
    ConcatAssoc(a, k, b);
    StrTrLeft(a, k + b, pairs);
    RestoreAtStart(x, b, salt, index);
    ConcatAssoc(a, Quoted(x), b);
  }

  /** The key at the start is replaced, the rest holds no key. */
  lemma RestoreAtStart(x: string, b: string, salt: string, index: nat)
    requires '_' !in b && AllDigits(salt)
    ensures StrTr(Key(salt, index, '1') + b, ReplacersOf(x, salt, index)) == Quoted(x) + b
  {
    var pairs := ReplacersOf(x, salt, index);
    KeyShape(salt, index, '1');
    KeyShape(salt, index, '2');
    KeysOfOne(x, salt, index);
    StrTrAtKey(Key(salt, index, '1'), Quoted(x), b, pairs);
    StrTrUntouched(b, pairs);
  }

  /**
   * Hiding a single-quoted identifier behind its key and restoring the key
   * gives the text back, whatever characters the identifier holds.
   */
  lemma HideRestore(a: string, x: string, b: string, salt: string, index: nat)
    requires Unquoted(a) && Unquoted(x) && Unquoted(b)
    requires '_' !in a && '_' !in b && AllDigits(salt)
    ensures var pairs := ReplacersOf(x, salt, index);
      StrTr(StrTr(a + Quoted(x) + b, Inverted(pairs)), pairs) == a + Quoted(x) + b
  {
    HideOne(a, x, b, salt, index);
    RestoreOne(a, x, b, salt, index);
  }

  // ---------------------------------------------------------------------
  // An operator character inside a quoted literal

  /** The quoted spelling of an identifier does not start with that of another. */
  lemma QuotedDistinct(f: string, x: string)
    requires Unquoted(x) && x != f
    ensures !StartsWith(Quoted(x), Quoted(f))
  {
    var s, kf := Quoted(x), Quoted(f);
    if |kf| <= |s| {
      if |f| < |x| {
        assert s[..|kf|][|f| + 1] == x[|f|] && kf[|f| + 1] == '\'';
      } else {
        assert s[..|kf|] == s && s[1..|s| - 1] == x && kf[1..|kf| - 1] == f;
      }
    }
  }

  /** The quoted spelling of one identifier holds no spelling of another. */
  lemma OtherUntouched(f: string, x: string, salt: string)
    requires f != [] && Unquoted(x) && x != f
    ensures StrTr(Quoted(x), Inverted(ReplacersOf(f, salt, 0))) == Quoted(x)
  {
    var inv := Inverted(ReplacersOf(f, salt, 0));
    QuotedNoMatch(f, x, salt);
    QuotedTail(x);
    QuoteFirst(f, salt, 0);
    StrTrLeft(x, "'", inv);
    QuoteAlone(f, salt);
    ConcatAssoc("'", x, "'");
  }

  /** Neither spelling of `f` starts the quoted spelling of another identifier. */
  lemma QuotedNoMatch(f: string, x: string, salt: string)
    requires f != [] && Unquoted(x) && x != f
    ensures LongestMatch(Quoted(x), Inverted(ReplacersOf(f, salt, 0))).None?
  {
    var inv := Inverted(ReplacersOf(f, salt, 0));
    assert inv == [(Quoted(f), Key(salt, 0, '1')), ("\"" + f + "\"", Key(salt, 0, '2'))];
    QuotedDistinct(f, x);
  }

  /** The quoted spelling opens with a quote followed by the rest. */
  lemma QuotedTail(x: string)
    ensures Quoted(x) != [] && Quoted(x)[0] == '\'' && Quoted(x)[1..] == x + "'"
  {
    ConcatAssoc("'", x, "'");
  }

  /** A lone quote is shorter than any spelling. */
  lemma QuoteAlone(f: string, salt: string)
    requires f != []
    ensures StrTr("'", Inverted(ReplacersOf(f, salt, 0))) == "'"
  {
    var inv := Inverted(ReplacersOf(f, salt, 0));
    assert inv == [(Quoted(f), Key(salt, 0, '1')), ("\"" + f + "\"", Key(salt, 0, '2'))];
    assert LongestMatch("'", inv).None?;
  }

  /** `buildReplacers` with a column and a quoted identifier: only the literal is hidden. */
  lemma HideTwo(f: string, op: string, x: string, salt: string)
    requires Word(f) && OperatorWord(op) && Unquoted(x) && x != f
    requires !EmptyString(f) && !EmptyString(x)
    ensures BuildReplacersSpec([f, x], f + op + Quoted(x), salt)
         == (ReplacersOf(f, salt, 0) + ReplacersOf(x, salt, 1), f + op + Key(salt, 1, '1'))
  {
    var ids := [f, x];
    var t := f + op + Quoted(x);
    var r0 := ReplacersOf(f, salt, 0);
    var table := r0 + ReplacersOf(x, salt, 1);
    var hidden := f + op + Key(salt, 1, '1');
    HideColumn(f, op, x, salt);
    HideLiteral(f, op, x, salt);
    assert [] + r0 == r0;
    assert BuildReplacersFrom(ids, 2, table, hidden, salt) == (table, hidden);
    assert BuildReplacersFrom(ids, 1, r0, t, salt) == (table, hidden);
    assert BuildReplacersFrom(ids, 0, [], t, salt) == (table, hidden);
  }

  /** The column's own spellings do not occur in the comparison. */
  lemma HideColumn(f: string, op: string, x: string, salt: string)
    requires Word(f) && OperatorWord(op) && Unquoted(x) && x != f
    ensures StrTr(f + op + Quoted(x), Inverted(ReplacersOf(f, salt, 0))) == f + op + Quoted(x)
  {
    var inv0 := Inverted(ReplacersOf(f, salt, 0));
    assert Unquoted(f + op) by {
      assert '\'' in Quotes && '"' in Quotes;
    }
    QuoteFirst(f, salt, 0);
    StrTrLeft(f + op, Quoted(x), inv0);
    OtherUntouched(f, x, salt);
  }

  /** The literal's spelling is replaced by its first key. */
  lemma HideLiteral(f: string, op: string, x: string, salt: string)
    requires Word(f) && OperatorWord(op) && Unquoted(x)
    ensures StrTr(f + op + Quoted(x), Inverted(ReplacersOf(x, salt, 1))) == f + op + Key(salt, 1, '1')
  {
    assert Unquoted(f + op) by {
      assert '\'' in Quotes && '"' in Quotes;
    }
    HideOne(f + op, x, [], salt, 1);
    assert f + op + Quoted(x) + [] == f + op + Quoted(x);
    assert f + op + Key(salt, 1, '1') + [] == f + op + Key(salt, 1, '1');
  }

  /** The keys of a column and a literal: none holds a blank, each starts with the prefix. */
  lemma TableKeys(f: string, x: string, salt: string)
    requires AllDigits(salt)
    ensures var table := ReplacersOf(f, salt, 0) + ReplacersOf(x, salt, 1);
      forall p :: p in table ==> ' ' !in p.0 && StartsWith(p.0, KeyPrefix) && p.0 != [] && p.0[0] == '_'
  {
    KeyShape(salt, 0, '1');
    KeyShape(salt, 0, '2');
    KeyShape(salt, 1, '1');
    KeyShape(salt, 1, '2');
    WordNoBlank(Key(salt, 0, '1'));
    WordNoBlank(Key(salt, 0, '2'));
    WordNoBlank(Key(salt, 1, '1'));
    WordNoBlank(Key(salt, 1, '2'));
  }

  /** After the column, the literal's key is the only key `strtr` meets. */
  lemma RestoreTail(f: string, op: string, x: string, salt: string)
    requires OperatorWord(op) && AllDigits(salt)
    ensures var table := ReplacersOf(f, salt, 0) + ReplacersOf(x, salt, 1);
      StrTr(" " + op + " " + Key(salt, 1, '1'), table) == " " + op + " " + Quoted(x)
  {
    var table := ReplacersOf(f, salt, 0) + ReplacersOf(x, salt, 1);
    var k := Key(salt, 1, '1');
    var mid := " " + op + " ";
    TableKeys(f, x, salt);
    NoUnderscore(op, []);
    EmptyPrefix(mid);
    StrTrLeft(mid, k, table);
    LiteralKey(f, x, salt);
    EmptyPrefix(k);
    StrTrAtKey(k, Quoted(x), [], table);
    EmptyPrefix(Quoted(x));
  }

  /** The literal's first key is unlike the other three. */
  lemma LiteralKey(f: string, x: string, salt: string)
    ensures var table := ReplacersOf(f, salt, 0) + ReplacersOf(x, salt, 1);
      var k := Key(salt, 1, '1');
      (k, Quoted(x)) in table && forall p :: p in table && p != (k, Quoted(x)) ==> |p.0| == |k| && p.0 != k
  {
    KeysDiffer(salt);
  }

  /** `normalizeExpr`'s `strtr` puts the literal back and leaves the rest. */
  lemma RestoreTwo(f: string, op: string, x: string, salt: string)
    requires Word(f) && OperatorWord(op) && AllDigits(salt) && !Contains(f, KeyPrefix)
    ensures StrTr(f + " " + op + " " + Key(salt, 1, '1'), ReplacersOf(f, salt, 0) + ReplacersOf(x, salt, 1))
         == f + " " + op + " " + Quoted(x)
  {
    var table := ReplacersOf(f, salt, 0) + ReplacersOf(x, salt, 1);
    var k := Key(salt, 1, '1');
    var mid := " " + op + " ";
    TableKeys(f, x, salt);
    assert f + " " + op + " " + k == f + (mid + k);
    StrTrBefore(f, mid + k, table);
    NoKeyIn(f, table);
    StrTrFresh(f, table);
    RestoreTail(f, op, x, salt);
    Regroup(f, " ", op, " ", Quoted(x));
  }

  /** A literal without blanks keeps none when quoted. */
  lemma QuotedNoBlank(x: string)
    requires ' ' !in x
    ensures ' ' !in Quoted(x)
  {
    var s := Quoted(x);
    forall i | 0 <= i < |s| ensures s[i] != ' ' {
      if 0 < i < |s| - 1 {
        assert s[i] == x[i - 1];
      }
    }
  }

  /** `name>'a>b'` is cut into the column, the operator and the whole literal. */
  lemma ProtectedTokens(f: string, op: string, x: string, salt: string)
    requires Word(f) && Comparator(op) && !EmptyString(f) && AllDigits(salt) && !Contains(f, KeyPrefix)
    requires Unquoted(x) && ' ' !in x && x != f && !EmptyString(x)
    ensures Split(NormalizeExprSpec([f, x], f + op + Quoted(x), salt), " ") == [f, op, Quoted(x)]
  {
    var k := Key(salt, 1, '1');
    ComparatorChars(op);
    KeyShape(salt, 1, '1');
    HideTwo(f, op, x, salt);
    SpacedBetween(f, op, k);
    SpacedOperator(op);
    CollapseComparison(f, op, k);
    RestoreTwo(f, op, x, salt);
    WordNoBlank(f);
    QuotedNoBlank(x);
    SplitComparison(f, op, Quoted(x));
  }

  /**
   * `convertOperator` on a column compared with a single-quoted literal
   * that holds operator characters: the literal reaches the filter whole,
   * as a string: `name>'a>=b'` gives `{name: {$gt: 'a>=b'}}`.
   */
  lemma ProtectedLiteral(f: string, op: string, x: string, reg: Registry, salt: string)
    requires Word(f) && FieldToken(f) && Comparator(op) && AllDigits(salt) && !Contains(f, KeyPrefix)
    requires Unquoted(x) && ' ' !in x && x != f && !EmptyString(x)
    ensures var r := ConvertOperatorSpec([f, x], f + op + Quoted(x), reg, salt);
      if op == "=" then r == [(f, Str(x))]
      else if op == "<>" || op == "!=" then r == [(f, Obj([("$ne", Str(x))]))]
      else r == [(f, Obj([(OrderTag(op, false), Str(x))]))]
  {
    FieldNotEmpty(f);
    ProtectedTokens(f, op, x, salt);
    WordNoBlank(f);
    assert Quoted(x) == ['\''] + x + ['\''];
    StringFilter([f, x], f, op, '\'', x, reg, salt);
  }

  // ---------------------------------------------------------------------
  // IN lists: a comma inside a quoted item, a builder call as an item

  /** `trim` with a set holding both outer characters and neither end of the inside. */
  lemma TrimOuter(m: string, cs: set<char>, l: char, r: char)
    requires l in cs && r in cs && m != [] && m[0] !in cs && m[|m| - 1] !in cs
    ensures Trim([l] + m + [r], cs) == m
  {
    var t := m + [r];
    ConcatAssoc([l], m, [r]);
    TrimLeftDrop(l, t, cs);
    assert t[0] == m[0];
    TrimLeftStop(t, cs);
    TrimRightDrop(m, r, cs);
    TrimRightStop(m, cs);
  }

  /** A bare item after the blank that followed a comma. */
  lemma TrimAfterBlank(n: string)
    requires Bare(n)
    ensures Trim(" " + n, TrimDefault) == n
  {
    TrimLeftDrop(' ', n, TrimDefault);
    assert Trim(" " + n, TrimDefault) == TrimRight(TrimLeft(n, TrimDefault), TrimDefault);
    BareTrim(n);
  }

  /** A string whose first character is missing from the text does not occur in it. */
  lemma Absent(s: string, k: string)
    requires k != [] && k[0] !in s
    ensures !Contains(s, k)
  {
    forall j | 0 <= j <= |s| ensures !StartsWith(s[j..], k) {
      if |k| <= |s| - j {
        assert s[j..][..|k|][0] == s[j];
      }
    }
  }

  /** A string starting at some position occurs. */
  lemma Present(s: string, j: nat, k: string)
    requires j <= |s| && StartsWith(s[j..], k)
    ensures Contains(s, k)
  {
  }

  /** Keys that do not occur in an item leave it and its identifiers alone. */
  lemma {:induction false} RestoreAbsent(item: string, subs: seq<string>, table: seq<(string, string)>)
    requires forall p :: p in table ==> !Contains(item, p.0)
    ensures RestoreFrom(item, subs, table) == (subs, item)
    decreases |table|
  {
    if table != [] {
      assert table[0] in table;
      RestoreAbsent(item, subs, table[1..]);
    }
  }

  /** A replacer table whose keys all start with an underscore. */
  predicate KeyTable(table: seq<(string, string)>) {
    forall i :: 0 <= i < |table| ==> table[i].0 != [] && table[i].0[0] == '_'
  }

  lemma TableOfKeys(x: string, salt: string, index: nat)
    requires AllDigits(salt)
    ensures KeyTable(ReplacersOf(x, salt, index))
  {
    KeyShape(salt, index, '1');
    KeyShape(salt, index, '2');
  }

  /** An item without underscores holds no key: restoring leaves it alone. */
  lemma RestoreClean(item: string, subs: seq<string>, table: seq<(string, string)>)
    requires '_' !in item && KeyTable(table)
    ensures RestoreFrom(item, subs, table) == (subs, item)
  {
    forall p | p in table ensures !Contains(item, p.0) {
      var i :| 0 <= i < |table| && table[i] == p;
      Absent(item, p.0);
    }
    RestoreAbsent(item, subs, table);
  }

  /** One step of the restoring loop: a key found in the item is replaced by its literal. */
  lemma RestoreStep(item: string, subs: seq<string>, table: seq<(string, string)>)
    requires table != [] && Contains(item, table[0].0)
    ensures RestoreFrom(item, subs, table)
         == RestoreFrom(Replace(item, table[0].0, table[0].1), subs + [Trim(table[0].1, {'\'', '"'})], table[1..])
  {
  }

  /** An IN item is what its trimmed and restored text makes of it. */
  lemma ItemRestored(item: string, table: seq<(string, string)>, reg: Registry, t: string, subs: seq<string>, r: string)
    requires Trim(item, TrimDefault) == t && RestoreFrom(t, [], table) == (subs, r)
    ensures InItem(item, table, reg) == FinishItem((subs, r), reg)
  {
  }

  /** The first key is found and replaced; nothing is left for the later keys. */
  lemma RestoreFirst(item: string, k: string, v: string, rest: seq<(string, string)>)
    requires Contains(item, k) && '_' !in Replace(item, k, v) && KeyTable(rest)
    ensures RestoreFrom(item, [], [(k, v)] + rest) == ([Trim(v, {'\'', '"'})], Replace(item, k, v))
  {
    var t := [(k, v)] + rest;
    var subs := [Trim(v, {'\'', '"'})];
    assert t[0] == (k, v) && t[1..] == rest;
    EmptyPrefix(subs);
    RestoreStep(item, [], t);
    RestoreClean(Replace(item, k, v), subs, rest);
  }

  /** An item ending in a key gets the key's quoted literal back, and the literal joins its identifiers. */
  lemma RestoreKeyItem(a: string, x: string, salt: string)
    requires AllDigits(salt) && '_' !in a && '_' !in x && Unquoted(x) && x != []
    ensures RestoreFrom(a + Key(salt, 0, '1'), [], ReplacersOf(x, salt, 0)) == ([x], a + Quoted(x))
  {
    var k1 := Key(salt, 0, '1');
    var rest := [(Key(salt, 0, '2'), "\"" + x + "\"")];
    assert ReplacersOf(x, salt, 0) == [(k1, Quoted(x))] + rest;
    KeyShape(salt, 0, '2');
    assert KeyTable(rest);
    KeyInItem(a, x, salt);
    UnderscoreFree(a, x);
    TrimOuter(x, {'\'', '"'}, '\'', '\'');
    assert ['\''] + x + ['\''] == Quoted(x);
    RestoreFirst(a + k1, k1, Quoted(x), rest);
  }

  /** The key is found in the item and replaced by its literal. */
  lemma KeyInItem(a: string, x: string, salt: string)
    requires AllDigits(salt) && '_' !in a
    ensures Contains(a + Key(salt, 0, '1'), Key(salt, 0, '1'))
    ensures Replace(a + Key(salt, 0, '1'), Key(salt, 0, '1'), Quoted(x)) == a + Quoted(x)
  {
    var k1 := Key(salt, 0, '1');
    var item := a + k1;
    KeyShape(salt, 0, '1');
    assert item[|a|..] == k1;
    Present(item, |a|, k1);
    ReplaceLeft(a, k1, k1, Quoted(x));
    EmptyPrefix(k1);
    Once([], k1, [], Quoted(x), 0);
    EmptyPrefix(Quoted(x));
  }

  /** Quoting adds no underscore. */
  lemma UnderscoreFree(a: string, x: string)
    requires '_' !in a && '_' !in x
    ensures '_' !in a + Quoted(x)
  {
    var s := a + Quoted(x);
    forall i | 0 <= i < |s| ensures s[i] != '_' {
      if i < |a| {
        assert s[i] == a[i];
      } else if |a| < i < |s| - 1 {
        assert s[i] == x[i - |a| - 1];
      }
    }
  }

  /** A numeral item is its integer, whatever the table holds. */
  lemma NumeralItem(k: int, table: seq<(string, string)>, reg: Registry)
    requires KeyTable(table)
    ensures InItem(" " + IntToString(k), table, reg) == Int(k)
  {
    var n := IntToString(k);
    IntegerNumeral(k);
    NumeralIsNoWord(n);
    NumeralWord(k);
    TrimAfterBlank(n);
    RestoreClean(n, [], table);
    ItemRestored(" " + n, table, reg, n, [], n);
    BareTrim(n);
    ItemRestored(n, [], reg, n, [], n);
    IntegerItem(k, reg);
  }

  /** `buildReplacers` with one identifier: its pair of keys, and the value `strtr` gives. */
  lemma HideSingle(id: string, value: string, salt: string, hidden: string)
    requires !EmptyString(id) && StrTr(value, Inverted(ReplacersOf(id, salt, 0))) == hidden
    ensures BuildReplacersSpec([id], value, salt) == (ReplacersOf(id, salt, 0), hidden)
  {
    var pairs := ReplacersOf(id, salt, 0);
    assert [] + pairs == pairs;
    assert BuildReplacersFrom([id], 1, pairs, hidden, salt) == (pairs, hidden);
  }

  /** The IN list is cut where its trimmed and hidden text has commas. */
  lemma ItemsOf(value: string, ids: seq<string>, salt: string, trimmed: string, table: seq<(string, string)>, v: string)
    requires Trim(value, {'(', ')', ' '}) == trimmed && BuildReplacersSpec(ids, trimmed, salt) == (table, v)
    ensures InItems(value, ids, salt) == (table, Split(v, ","))
  {
  }

  /** `('a,b', 3)`: the quoted comma is hidden while the list is cut, so it is two items, not three. */
  lemma CommaItems(x: string, k: int, salt: string)
    requires Unquoted(x) && ',' in x && '_' !in x && AllDigits(salt)
    ensures InItems("(" + Quoted(x) + ", " + IntToString(k) + ")", [x], salt)
         == (ReplacersOf(x, salt, 0), [Key(salt, 0, '1'), " " + IntToString(k)])
  {
    var n := IntToString(k);
    var m := Quoted(x) + ", " + n;
    var k1 := Key(salt, 0, '1');
    IntegerNumeral(k);
    CommaTrim(x, n);
    CommaNotEmpty(x);
    CommaHidden(x, n, salt);
    HideSingle(x, m, salt, k1 + [','] + (" " + n));
    ItemsOf("(" + Quoted(x) + ", " + n + ")", [x], salt, m, ReplacersOf(x, salt, 0), k1 + [','] + (" " + n));
    KeyShape(salt, 0, '1');
    KeyNoComma(k1);
    CommaSplit(k1, n);
  }

  /** The brackets around the list go; the numeral's last digit stops the trim. */
  lemma CommaTrim(x: string, n: string)
    requires IsNumeric(n)
    ensures Trim("(" + Quoted(x) + ", " + n + ")", {'(', ')', ' '}) == Quoted(x) + ", " + n
  {
    var m := Quoted(x) + ", " + n;
    NumericShape(n);
    Parenthesised(Quoted(x), ", ", n);
    assert m[|m| - 1] == n[|n| - 1] && NumeralChar(n[|n| - 1]);
    TrimOuter(m, {'(', ')', ' '}, '(', ')');
  }

  lemma Parenthesised(a: string, b: string, c: string)
    ensures "(" + a + b + c + ")" == ['('] + (a + b + c) + [')']
  {
  }

  /** The literal is hidden behind its first key. */
  lemma CommaHidden(x: string, n: string, salt: string)
    requires Unquoted(x) && IsNumeric(n)
    ensures StrTr(Quoted(x) + ", " + n, Inverted(ReplacersOf(x, salt, 0))) == Key(salt, 0, '1') + [','] + (" " + n)
  {
    NumericShape(n);
    assert Unquoted(", " + n) by {
      assert '\'' in Quotes && '"' in Quotes;
      assert forall i :: 0 <= i < |n| ==> NumeralChar(n[i]);
    }
    HideOne([], x, ", " + n, salt, 0);
    EmptyPrefix(Quoted(x));
    ConcatAssoc(Quoted(x), ", ", n);
    EmptyPrefix(Key(salt, 0, '1'));
    CommaBlank(Key(salt, 0, '1'), n);
  }

  lemma CommaBlank(k: string, n: string)
    ensures k + (", " + n) == k + [','] + (" " + n)
  {
    assert ", " == [','] + " ";
    ConcatAssoc([','], " ", n);
    ConcatAssoc(k, [','], " " + n);
  }

  lemma CommaNotEmpty(x: string)
    requires ',' in x
    ensures !EmptyString(x)
  {
    var i :| 0 <= i < |x| && x[i] == ',';
    assert ',' !in "0";
  }

  lemma KeyNoComma(k: string)
    requires PlainKey(k)
    ensures ',' !in k
  {
  }

  /** The hidden list has one comma, the one between the items. */
  lemma CommaSplit(k1: string, n: string)
    requires ',' !in k1 && IsNumeric(n)
    ensures Split(k1 + [','] + (" " + n), ",") == [k1, " " + n]
  {
    NumeralNoComma(n);
    SplitAt(k1, ',', " " + n);
    SplitNone(" " + n, ',');
    Couple(k1, " " + n);
  }

  lemma NumeralNoComma(n: string)
    requires IsNumeric(n)
    ensures ',' !in " " + n
  {
    NumericShape(n);
    assert forall i :: 0 <= i < |n| ==> NumeralChar(n[i]);
  }

  /**
   * `('a,b', 3)` as an IN list: the literal with its comma, then the
   * number. A quoted item still goes through `convertInlineFunction` with
   * itself as identifier, so it is a string unless a builder bears its name.
   */
  lemma CommaInList(x: string, k: int, reg: Registry, salt: string)
    requires Unquoted(x) && ',' in x && '_' !in x && AllDigits(salt)
    ensures ParseValueForInQuerySpec("(" + Quoted(x) + ", " + IntToString(k) + ")", [x], reg, salt)
         == [ConvertInlineFunction(Str(x), [x], reg), Int(k)]
    ensures x !in reg ==>
      ParseValueForInQuerySpec("(" + Quoted(x) + ", " + IntToString(k) + ")", [x], reg, salt) == [Str(x), Int(k)]
  {
    var value := "(" + Quoted(x) + ", " + IntToString(k) + ")";
    var table := ReplacersOf(x, salt, 0);
    var items := [Key(salt, 0, '1'), " " + IntToString(k)];
    CommaItems(x, k, salt);
    assert ParseValueForInQuerySpec(value, [x], reg, salt) == MapItems(items, table, reg);
    MapTwo(items[0], items[1], table, reg);
    QuotedKeyItem(x, salt, reg);
    TableOfKeys(x, salt, 0);
    NumeralItem(k, table, reg);
  }

  lemma MapOne(a: string, table: seq<(string, string)>, reg: Registry)
    ensures MapItems([a], table, reg) == [InItem(a, table, reg)]
  {
    var r := MapItems([a], table, reg);
    assert r[0] == InItem([a][0], table, reg);
  }

  lemma PairOf<T>(r: seq<T>, u: T, v: T)
    requires |r| == 2 && r[0] == u && r[1] == v
    ensures r == [u, v]
  {
  }

  lemma MapTwo(a: string, b: string, table: seq<(string, string)>, reg: Registry)
    ensures MapItems([a, b], table, reg) == [InItem(a, table, reg), InItem(b, table, reg)]
  {
    var r := MapItems([a, b], table, reg);
    assert [a, b][0] == a && [a, b][1] == b;
    PairOf(r, InItem(a, table, reg), InItem(b, table, reg));
  }

  /** The key standing alone for a quoted literal is, once restored, that literal. */
  lemma QuotedKeyItem(x: string, salt: string, reg: Registry)
    requires Unquoted(x) && ',' in x && '_' !in x && AllDigits(salt)
    ensures InItem(Key(salt, 0, '1'), ReplacersOf(x, salt, 0), reg) == ConvertInlineFunction(Str(x), [x], reg)
  {
    var k1 := Key(salt, 0, '1');
    KeyAlone(x, salt);
    ItemRestored(k1, ReplacersOf(x, salt, 0), reg, k1, [x], Quoted(x));
    QuotedItemValue(x);
  }

  /** A key standing alone is already trimmed and restores to its quoted literal. */
  lemma KeyAlone(x: string, salt: string)
    requires Unquoted(x) && x != [] && '_' !in x && AllDigits(salt)
    ensures Trim(Key(salt, 0, '1'), TrimDefault) == Key(salt, 0, '1')
    ensures RestoreFrom(Key(salt, 0, '1'), [], ReplacersOf(x, salt, 0)) == ([x], Quoted(x))
  {
    var k1 := Key(salt, 0, '1');
    KeyShape(salt, 0, '1');
    BareTrim(k1);
    EmptyPrefix(k1);
    EmptyPrefix(Quoted(x));
    RestoreKeyItem([], x, salt);
  }

  /** A quoted literal holding a comma is a string item with itself as identifier. */
  lemma QuotedItemValue(x: string)
    requires Unquoted(x) && ',' in x
    ensures ItemValue(Quoted(x)) == Str(x) && ItemIds([x], Quoted(x)) == [x]
  {
    QuotedBare('\'', x);
    assert ['\''] + x + ['\''] == Quoted(x);
    CommaWord(x);
  }

  /** Text holding a comma is none of the words `true`, `false`, `null`. */
  lemma CommaWord(x: string)
    requires ',' in x
    ensures ToLower(x) != "true" && ToLower(x) != "false" && ToLower(x) != "null"
  {
    var i :| 0 <= i < |x| && x[i] == ',';
    assert ToLower(x)[i] == ',';
  }

  /** A builder name: letters only. */
  predicate BuilderName(g: string) {
    g != [] && forall i :: 0 <= i < |g| ==> Letter(g[i])
  }

  /** `(ObjectId('…'))`: both closing brackets go with the trim, the quote stops it. */
  lemma BuilderTrim(g: string, h: string)
    requires BuilderName(g)
    ensures Trim("(" + g + "(" + Quoted(h) + "))", {'(', ')', ' '}) == g + "(" + Quoted(h)
  {
    LetterIsPlain(g[0]);
    CallTrim(g, h);
  }

  lemma CallTrim(g: string, h: string)
    requires g != [] && g[0] !in {'(', ')', ' '}
    ensures Trim("(" + g + "(" + Quoted(h) + "))", {'(', ')', ' '}) == g + "(" + Quoted(h)
  {
    var cs := {'(', ')', ' '};
    var m := g + "(" + Quoted(h);
    Regroup("(", g, "(", Quoted(h), "))");
    assert (m + "))")[0] == g[0];
    TrimOpening(m + "))", cs);
    assert m[|m| - 1] == '\'';
    TrimClosing(m, cs);
  }

  /** The opening bracket goes, the first character of `t` stays. */
  lemma TrimOpening(t: string, cs: set<char>)
    requires '(' in cs && t != [] && t[0] !in cs
    ensures TrimLeft("(" + t, cs) == t
  {
    assert ("(" + t)[1..] == t;
  }

  /** Both closing brackets go, the last character of `m` stays. */
  lemma TrimClosing(m: string, cs: set<char>)
    requires ')' in cs && m != [] && m[|m| - 1] !in cs
    ensures TrimRight(m + "))", cs) == m
  {
    assert "))" == [')'] + [')'];
    ConcatAssoc(m, [')'], [')']);
    TrimRightDrop(m + [')'], ')', cs);
    TrimRightDrop(m, ')', cs);
    TrimRightStop(m, cs);
  }

  /** The builder item after `buildReplacers`: its literal hidden, and no comma to cut at. */
  lemma BuilderItems(g: string, h: string, salt: string)
    requires BuilderName(g) && Unquoted(h) && !EmptyString(h) && AllDigits(salt)
    ensures InItems("(" + g + "(" + Quoted(h) + "))", [h], salt) == (ReplacersOf(h, salt, 0), [g + "(" + Key(salt, 0, '1')])
  {
    var item := g + "(" + Key(salt, 0, '1');
    BuilderTrim(g, h);
    BuilderHidden(g, h, salt);
    HideSingle(h, g + "(" + Quoted(h), salt, item);
    ItemsOf("(" + g + "(" + Quoted(h) + "))", [h], salt, g + "(" + Quoted(h), ReplacersOf(h, salt, 0), item);
    BuilderNoComma(g, salt);
    SplitNone(item, ',');
  }

  /** The builder's literal is hidden behind its first key. */
  lemma BuilderHidden(g: string, h: string, salt: string)
    requires BuilderName(g) && Unquoted(h)
    ensures StrTr(g + "(" + Quoted(h), Inverted(ReplacersOf(h, salt, 0))) == g + "(" + Key(salt, 0, '1')
  {
    assert Unquoted(g + "(") by {
      forall i | 0 <= i < |g| ensures g[i] !in Quotes {
        LetterIsPlain(g[i]);
      }
    }
    HideOne(g + "(", h, [], salt, 0);
    assert g + "(" + Quoted(h) + [] == g + "(" + Quoted(h);
    assert g + "(" + Key(salt, 0, '1') + [] == g + "(" + Key(salt, 0, '1');
  }

  /** The hidden builder item has no comma. */
  lemma BuilderNoComma(g: string, salt: string)
    requires BuilderName(g) && AllDigits(salt)
    ensures ',' !in g + "(" + Key(salt, 0, '1')
  {
    var k1 := Key(salt, 0, '1');
    KeyShape(salt, 0, '1');
    KeyNoComma(k1);
    var t := g + "(" + k1;
    forall i | 0 <= i < |t| ensures t[i] != ',' {
      if i < |g| {
        assert t[i] == g[i];
      } else if i > |g| {
        assert t[i] == k1[i - |g| - 1];
      }
    }
  }

  /** The first bracket after a bracket-free name is right after it. */
  lemma {:induction false} OpenAfter(g: string, t: string)
    requires '(' !in g
    ensures '(' in g + "(" + t && OpenAt(g + "(" + t) == |g|
  {
    var s := g + "(" + t;
    assert s[|g|] == '(';
    if g != [] {
      assert s[1..] == g[1..] + "(" + t;
      OpenAfter(g[1..], t);
    }
  }

  /** The call in a restored builder item: the text before the bracket is the builder's name. */
  lemma BuilderIds(g: string, h: string)
    requires BuilderName(g)
    ensures ItemIds([h], g + "(" + Quoted(h)) == [g, h]
  {
    var x := g + "(" + Quoted(h);
    LetterIsPlain(g[0]);
    OpenAfter(g, Quoted(h));
    assert x[..|g|] == g;
  }

  /** A builder item is a string to `ItemValue`, never a number or keyword. */
  lemma BuilderValue(g: string, h: string)
    requires BuilderName(g)
    ensures ItemValue(g + "(" + Quoted(h)) == Str(g + "(" + Quoted(h))
  {
    var x := g + "(" + Quoted(h);
    LetterIsPlain(g[0]);
    assert x[0] == g[0] && x[|g|] == '(';
    BracketValue(x, |g|);
  }

  /** Unquoted text with a bracket is a string item: no number, no keyword. */
  lemma BracketValue(x: string, i: nat)
    requires i < |x| && x[i] == '(' && !IsStringValue(x)
    ensures ItemValue(x) == Str(x)
  {
    NumericShape(x);
    assert !NumeralChar(x[i]);
    assert ToLower(x)[i] == '(';
    BracketNoKeyword(ToLower(x), i);
  }

  lemma BracketNoKeyword(s: string, i: nat)
    requires i < |s| && s[i] == '('
    ensures s != "true" && s != "false" && s != "null"
  {
    assert '(' !in "true" && '(' !in "false" && '(' !in "null";
  }

  /**
   * `(ObjectId('…'))` as an IN list: the literal is put back, its text
   * before the bracket names the builder, and the builder gets the literal.
   * Without such a builder the item stays a string, short of the bracket
   * the trim took.
   */
  lemma BuilderInList(g: string, h: string, reg: Registry, salt: string)
    requires BuilderName(g) && Unquoted(h) && !EmptyString(h) && '_' !in h && AllDigits(salt)
    ensures g in reg ==>
      ParseValueForInQuerySpec("(" + g + "(" + Quoted(h) + "))", [h], reg, salt) == [reg[g](Str(h))]
    ensures g !in reg ==>
      ParseValueForInQuerySpec("(" + g + "(" + Quoted(h) + "))", [h], reg, salt) == [Str(g + "(" + Quoted(h))]
  {
    var value := "(" + g + "(" + Quoted(h) + "))";
    var table := ReplacersOf(h, salt, 0);
    var item := g + "(" + Key(salt, 0, '1');
    BuilderItems(g, h, salt);
    assert ParseValueForInQuerySpec(value, [h], reg, salt) == MapItems([item], table, reg);
    MapOne(item, table, reg);
    BuilderItem(g, h, reg, salt);
  }

  /** The builder item: restored, named by its builder, the literal as argument. */
  lemma BuilderItem(g: string, h: string, reg: Registry, salt: string)
    requires BuilderName(g) && Unquoted(h) && h != [] && '_' !in h && AllDigits(salt)
    ensures InItem(g + "(" + Key(salt, 0, '1'), ReplacersOf(h, salt, 0), reg)
         == ConvertInlineFunction(Str(g + "(" + Quoted(h)), [g, h], reg)
  {
    var item := g + "(" + Key(salt, 0, '1');
    var x := g + "(" + Quoted(h);
    BuilderBare(g, salt);
    BareTrim(item);
    assert '_' !in g + "(" by {
      forall i | 0 <= i < |g| ensures g[i] != '_' {
        LetterIsPlain(g[i]);
      }
    }
    RestoreKeyItem(g + "(", h, salt);
    ItemRestored(item, ReplacersOf(h, salt, 0), reg, item, [h], x);
    BuilderIds(g, h);
    BuilderValue(g, h);
  }

  /** The hidden builder item has no blank at either end. */
  lemma BuilderBare(g: string, salt: string)
    requires BuilderName(g) && AllDigits(salt)
    ensures Bare(g + "(" + Key(salt, 0, '1'))
  {
    var k1 := Key(salt, 0, '1');
    KeyShape(salt, 0, '1');
    LetterIsPlain(g[0]);
    assert (g + "(" + k1)[0] == g[0];
    assert PlainChar(k1[|k1| - 1]);
  }
}
