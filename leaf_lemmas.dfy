/**
 * What `convertOperator` promises for the comparisons it is written for:
 * operand order does not matter, `IS [NOT] NULL`, `[NOT] LIKE` and
 * `[NOT] IN` take their MongoDB forms, unknown operators give the empty
 * filter, and value coercion tries its rules in a fixed order.
 */
module LeafLemmas {

  import opened Php
  import opened Strings
  import opened Leaf

  // ---------------------------------------------------------------------
  // Token shapes

  /** A token `trim` leaves alone. */
  predicate Bare(t: string) {
    t != [] && t[0] !in TrimDefault && t[|t| - 1] !in TrimDefault
  }

  /** A token read as a field name: none of the value shapes that cause a swap. */
  predicate FieldToken(f: string) {
    Bare(f) && !IsNumeric(f) && !IsStringValue(f) && !IsInlineFunction(f)
  }

  predicate LowerWord(w: string) {
    forall i :: 0 <= i < |w| ==> 'a' <= w[i] <= 'z'
  }

  predicate NumeralChar(c: char) {
    IsDigit(c) || c == '+' || c == '-' || c == '.'
  }

  lemma BareTrim(t: string)
    requires Bare(t)
    ensures Trim(t, TrimDefault) == t
  {
  }

  lemma LowerFixed(s: string)
    requires forall i :: 0 <= i < |s| ==> !('A' <= s[i] <= 'Z')
    ensures ToLower(s) == s
  {
  }

  predicate Letter(c: char) {
    'a' <= c <= 'z' || 'A' <= c <= 'Z'
  }

  lemma LetterIsPlain(c: char)
    requires Letter(c)
    ensures c !in TrimDefault && c !in Quotes && !NumeralChar(c)
  {
  }

  /** A token spelling a keyword in any case is made of letters only. */
  lemma KeywordShape(w: string, word: string)
    requires ToLower(w) == word && word != [] && LowerWord(word)
    ensures Bare(w) && !IsStringValue(w) && '"' !in w && '\'' !in w && !IsNumeric(w)
  {
    forall i | 0 <= i < |w| ensures Letter(w[i]) {
      assert Lower(w[i]) == word[i];
    }
    LetterIsPlain(w[0]);
    LetterIsPlain(w[|w| - 1]);
    forall i | 0 <= i < |w| ensures w[i] != '"' && w[i] != '\'' {
      LetterIsPlain(w[i]);
    }
    NumericShape(w);
  }

  lemma {:induction false} AllDigitsChars(s: string)
    requires AllDigits(s)
    ensures forall i :: 0 <= i < |s| ==> NumeralChar(s[i])
  {
  }

  /** A numeral is made of digits, at most one sign and a decimal point. */
  lemma NumericShape(s: string)
    ensures IsNumeric(s) ==> s != [] && forall i :: 0 <= i < |s| ==> NumeralChar(s[i])
  {
    if IsNumeric(s) {
      var signed := s != [] && (s[0] == '+' || s[0] == '-');
      var body := if signed then s[1..] else s;
      UnsignedShape(body);
      if signed {
        SignedShape(s);
      }
    }
  }

  lemma UnsignedShape(body: string)
    requires UnsignedNumeral(body)
    ensures body != [] && forall i :: 0 <= i < |body| ==> NumeralChar(body[i])
  {
    match Find(body, ".")
    case None =>
    case Some(k) =>
      forall i | 0 <= i < |body| ensures NumeralChar(body[i]) {
        if i < k { assert body[i] == body[..k][i]; }
        else if i > k { assert body[i] == body[k + 1..][i - k - 1]; }
        else { assert body[k..k + 1][0] == body[k]; }
      }
  }

  lemma SignedShape(s: string)
    requires s != [] && (s[0] == '+' || s[0] == '-')
    requires forall i :: 0 <= i < |s[1..]| ==> NumeralChar(s[1..][i])
    ensures forall i :: 0 <= i < |s| ==> NumeralChar(s[i])
  {
    forall i | 1 <= i < |s| ensures NumeralChar(s[i]) {
      assert s[i] == s[1..][i - 1];
    }
  }

  /** No numeral is quoted, a call, or one of the words `true`, `false`, `null`. */
  lemma NumeralIsNoWord(s: string)
    requires IsNumeric(s)
    ensures Bare(s) && !IsStringValue(s) && !IsInlineFunction(s)
    ensures ToLower(s) != "true" && ToLower(s) != "false" && ToLower(s) != "null"
  {
    NumericShape(s);
    assert NumeralChar(s[0]) && NumeralChar(s[|s| - 1]);
    assert '"' !in s && '\'' !in s by {
      forall i | 0 <= i < |s| ensures s[i] != '"' && s[i] != '\'' {
        assert NumeralChar(s[i]);
      }
    }
    assert ToLower(s)[0] == s[0];
  }

  // ---------------------------------------------------------------------
  // Integer literals

  lemma {:induction false} DigitsRoundTrip(n: nat)
    ensures var s := IntToString(n);
      s != [] && AllDigits(s) && DigitsValue(s) == n && IsDigit(s[0])
    decreases n
  {
    if n >= 10 {
      DigitsRoundTrip(n / 10);
      var p := IntToString(n / 10);
      var s := IntToString(n);
      assert s == p + [('0' as int + n % 10) as char];
      assert s[..|s| - 1] == p;
    }
  }

  /** The numeral PHP prints for an integer reads back as that integer. */
  lemma IntegerNumeral(n: int)
    ensures IsNumeric(IntToString(n))
    ensures NumberOf(IntToString(n)) == Int(n)
  {
    var s := IntToString(n);
    var m := if n < 0 then -n else n;
    DigitsRoundTrip(m);
    var d := IntToString(m);
    AllDigitsChars(d);
    assert '.' !in d by {
      forall i | 0 <= i < |d| ensures d[i] != '.' { assert IsDigit(d[i]); }
    }
    ContainsChar(d, '.');
    if n < 0 {
      assert s == "-" + d && s[1..] == d;
      assert '.' !in s by { assert forall i :: 1 <= i < |s| ==> s[i] == d[i - 1]; }
    }
  }

  // ---------------------------------------------------------------------
  // Coercion order

  /** A quoted value only loses its quotes, whatever it spells (`'12'`, `'true'`, `'null'`). */
  lemma QuotedStaysString(q: char, x: string, op: string, ids: seq<string>, reg: Registry)
    requires q in Quotes
    ensures Coerce([q] + x + [q], op, ids, reg) == Str(x)
  {
    var s := [q] + x + [q];
    assert s[1..|s| - 1] == x;
  }

  /** An integer literal becomes that integer. */
  lemma IntegerValue(n: int, op: string, ids: seq<string>, reg: Registry)
    ensures Coerce(IntToString(n), op, ids, reg) == Int(n)
  {
    IntegerNumeral(n);
    NumeralIsNoWord(IntToString(n));
  }

  /**
   * A bare word that is no keyword and no numeral goes to the inline
   * builders outside IN, and stays a string inside it.
   */
  lemma BareWordValue(w: string, op: string, ids: seq<string>, reg: Registry)
    requires !IsStringValue(w) && !IsNumeric(w)
    requires ToLower(w) != "true" && ToLower(w) != "false" && ToLower(w) != "null"
    ensures op != "in" ==> Coerce(w, op, ids, reg) == ConvertInlineFunction(Str(w), ids, reg)
    ensures op == "in" ==> Coerce(w, op, ids, reg) == Str(w)
  {
  }

  // ---------------------------------------------------------------------
  // Comparisons

  /** The operator with its operands exchanged. */
  function Mirror(op: string): string {
    if op == "<" then ">"
    else if op == ">" then "<"
    else if op == "<=" then ">="
    else if op == ">=" then "<="
    else op
  }

  predicate Ordering(op: string) {
    op == "<" || op == "<=" || op == ">" || op == ">="
  }

  predicate Equality(op: string) {
    op == "=" || op == "<>" || op == "!="
  }

  /** The binary comparisons of SQL. */
  predicate Comparator(op: string) {
    Ordering(op) || Equality(op)
  }

  lemma ComparatorLower(op: string)
    requires Comparator(op)
    ensures ToLower(op) == op
  {
    LowerFixed(op);
  }

  lemma ComparatorNoKeyword(op: string)
    requires Comparator(op)
    ensures op != "not" && op != "is" && op != "in" && op != "like"
  {
  }

  lemma ComparatorBare(op: string)
    requires Comparator(op)
    ensures Bare(op)
  {
  }

  lemma MirrorComparator(op: string)
    requires Comparator(op)
    ensures Comparator(Mirror(op))
  {
  }

  /** Three tokens `a b c`: the operator is `b`; a value-like `a` is swapped to the right. */
  lemma ReadThree(ids: seq<string>, a: string, b: string, c: string)
    requires ' ' !in FirstId(ids) && Bare(a) && Bare(b) && ToLower(b) != "not"
    ensures ReadComparison(ids, [a, b, c])
         == if IsNumeric(a) || IsStringValue(a) || IsInlineFunction(a)
            then Comparison(c, ToLower(b), a, false, true)
            else Comparison(a, ToLower(b), c, false, false)
  {
    var ts := [a, b, c];
    assert Shift(ts) == (a, [b, c]) && Shift([b, c]) == (b, [c]);
    assert Join([c], " ") == c;
    BareTrim(a);
    BareTrim(b);
  }

  /** Four tokens `a NOT op d`: a negated `op`. */
  lemma ReadNot(ids: seq<string>, a: string, b: string, c: string, d: string)
    requires ' ' !in FirstId(ids) && FieldToken(a) && Bare(b) && ToLower(b) == "not"
    ensures ReadComparison(ids, [a, b, c, d]) == Comparison(a, ToLower(c), d, true, false)
  {
    var ts := [a, b, c, d];
    assert Shift(ts) == (a, [b, c, d]) && Shift([b, c, d]) == (b, [c, d]) && Shift([c, d]) == (c, [d]);
    assert Join([d], " ") == d;
    BareTrim(a);
    BareTrim(b);
  }

  /** Four tokens `a IS x d`: negated exactly when `x` is `NOT`. */
  lemma ReadIsFour(ids: seq<string>, a: string, b: string, c: string, d: string)
    requires ' ' !in FirstId(ids) && FieldToken(a) && Bare(b) && ToLower(b) == "is"
    ensures ReadComparison(ids, [a, b, c, d]) == Comparison(a, "is", d, ToLower(c) == "not", false)
  {
    var ts := [a, b, c, d];
    assert Shift(ts) == (a, [b, c, d]) && Shift([b, c, d]) == (b, [c, d]) && Shift([c, d]) == (c, [d]);
    assert Join([d], " ") == d;
    BareTrim(a);
    BareTrim(b);
  }

  /** `convertOperator` once the comparison is read and its value coerced. */
  lemma Unfold(ids: seq<string>, ts: seq<string>, reg: Registry, salt: string, c: Comparison, v: V)
    requires c == ReadComparison(ids, ts) && v == Coerce(c.value, c.operator, ValueIds(ids, c), reg)
    ensures ConvertTokens(ids, ts, reg, salt)
         == BuildFilter(c, v, if c.operator == "in" then ParseValueForInQuerySpec(StringOf(v), ValueIds(ids, c), reg, salt) else [])
  {
  }

  lemma BuildOrder(c: Comparison, v: V, items: seq<V>)
    requires Ordering(c.operator)
    ensures BuildFilter(c, v, items) == [(c.field, Obj([(OrderTag(c.operator, c.reverse), v)]))]
  {
  }

  lemma BuildEquality(c: Comparison, v: V, items: seq<V>)
    requires Equality(c.operator)
    ensures c.operator == "=" ==> BuildFilter(c, v, items) == [(c.field, v)]
    ensures c.operator != "=" ==> BuildFilter(c, v, items) == [(c.field, Obj([("$ne", v)]))]
  {
  }

  lemma BuildIs(c: Comparison, v: V, items: seq<V>)
    requires c.operator == "is"
    ensures BuildFilter(c, v, items) == [(c.field, if c.not then Obj([("$ne", v)]) else v)]
  {
  }

  lemma BuildLike(c: Comparison, v: V, items: seq<V>)
    requires c.operator == "like"
    ensures BuildFilter(c, v, items)
         == [(c.field, if c.not then Obj([("$not", Regex(StringOf(v)))]) else Regex(StringOf(v)))]
  {
  }

  lemma BuildIn(c: Comparison, v: V, items: seq<V>)
    requires c.operator == "in"
    ensures BuildFilter(c, v, items) == [(c.field, Obj([(if c.not then "$nin" else "$in", Arr(items))]))]
  {
  }

  lemma MirrorTag(op: string)
    requires Ordering(op)
    ensures OrderTag(op, true) == OrderTag(Mirror(op), false)
  {
  }

  /** The mirror of an ordering comparison is one, of an equality test the test itself. */
  lemma MirrorKind(op: string)
    requires Comparator(op)
    ensures Ordering(op) <==> Ordering(Mirror(op))
    ensures !Ordering(op) ==> Mirror(op) == op
  {
  }

  /**
   * `12 < age` and `age > 12` give the same filter, `{age: {$gt: 12}}`:
   * a numeral written first is moved to the value side and the comparison
   * mirrored.
   */
  lemma ReversedComparison(ids: seq<string>, n: string, op: string, f: string, reg: Registry, salt: string)
    requires ' ' !in FirstId(ids) && IsNumeric(n) && FieldToken(f) && Comparator(op)
    ensures ConvertTokens(ids, [n, op, f], reg, salt) == ConvertTokens(ids, [f, Mirror(op), n], reg, salt)
  {
    var m := Mirror(op);
    MirrorComparator(op);
    ComparatorLower(op);
    ComparatorLower(m);
    ComparatorNoKeyword(op);
    ComparatorNoKeyword(m);
    ComparatorBare(op);
    ComparatorBare(m);
    NumeralIsNoWord(n);
    ReadThree(ids, n, op, f);
    ReadThree(ids, f, m, n);
    var c1 := Comparison(f, op, n, false, true);
    var c2 := Comparison(f, m, n, false, false);
    var v := NumberOf(n);
    assert Coerce(n, op, ValueIds(ids, c1), reg) == v;
    assert Coerce(n, m, ValueIds(ids, c2), reg) == v;
    Unfold(ids, [n, op, f], reg, salt, c1, v);
    Unfold(ids, [f, m, n], reg, salt, c2, v);
    MirrorKind(op);
    if Ordering(op) {
      MirrorTag(op);
      BuildOrder(c1, v, []);
      BuildOrder(c2, v, []);
    } else {
      BuildEquality(c1, v, []);
      BuildEquality(c2, v, []);
    }
  }

  /** `age > 12` is `{age: {$gt: 12}}`, `age = 12` is `{age: 12}`, `age <> 12` is `{age: {$ne: 12}}`. */
  lemma ComparisonFilter(ids: seq<string>, f: string, op: string, n: int, reg: Registry, salt: string)
    requires ' ' !in FirstId(ids) && FieldToken(f) && Comparator(op)
    ensures var r := ConvertTokens(ids, [f, op, IntToString(n)], reg, salt);
      if op == "=" then r == [(f, Int(n))]
      else if op == "<>" || op == "!=" then r == [(f, Obj([("$ne", Int(n))]))]
      else r == [(f, Obj([(OrderTag(op, false), Int(n))]))]
  {
    var s := IntToString(n);
    ComparatorLower(op);
    ComparatorNoKeyword(op);
    ComparatorBare(op);
    ReadThree(ids, f, op, s);
    var c := Comparison(f, op, s, false, false);
    IntegerValue(n, op, ValueIds(ids, c), reg);
    Unfold(ids, [f, op, s], reg, salt, c, Int(n));
    if Ordering(op) {
      BuildOrder(c, Int(n), []);
    } else {
      BuildEquality(c, Int(n), []);
    }
  }

  /** A column compared with a quoted string: the string without its quotes. */
  lemma StringFilter(ids: seq<string>, f: string, op: string, q: char, x: string, reg: Registry, salt: string)
    requires ' ' !in FirstId(ids) && FieldToken(f) && Comparator(op) && q in Quotes
    ensures var r := ConvertTokens(ids, [f, op, [q] + x + [q]], reg, salt);
      if op == "=" then r == [(f, Str(x))]
      else if op == "<>" || op == "!=" then r == [(f, Obj([("$ne", Str(x))]))]
      else r == [(f, Obj([(OrderTag(op, false), Str(x))]))]
  {
    var s := [q] + x + [q];
    ComparatorLower(op);
    ComparatorNoKeyword(op);
    ComparatorBare(op);
    ReadThree(ids, f, op, s);
    var c := Comparison(f, op, s, false, false);
    QuotedStaysString(q, x, op, ValueIds(ids, c), reg);
    Unfold(ids, [f, op, s], reg, salt, c, Str(x));
    if Ordering(op) {
      BuildOrder(c, Str(x), []);
    } else {
      BuildEquality(c, Str(x), []);
    }
  }

  /** `a IS NOT NULL` (any letter case) is `{a: {$ne: null}}`. */
  lemma IsNotNull(ids: seq<string>, f: string, i: string, n: string, v: string, reg: Registry, salt: string)
    requires ' ' !in FirstId(ids) && FieldToken(f)
    requires ToLower(i) == "is" && ToLower(n) == "not" && ToLower(v) == "null"
    ensures ConvertTokens(ids, [f, i, n, v], reg, salt) == [(f, Obj([("$ne", Null)]))]
  {
    KeywordShape(i, "is");
    KeywordShape(v, "null");
    ReadIsFour(ids, f, i, n, v);
    var c := Comparison(f, "is", v, true, false);
    NullWord(v, "is", ValueIds(ids, c), reg);
    IsFilter(ids, [f, i, n, v], reg, salt, c);
  }

  /** `a IS NULL` is `{a: null}`. */
  lemma IsNull(ids: seq<string>, f: string, i: string, v: string, reg: Registry, salt: string)
    requires ' ' !in FirstId(ids) && FieldToken(f)
    requires ToLower(i) == "is" && ToLower(v) == "null"
    ensures ConvertTokens(ids, [f, i, v], reg, salt) == [(f, Null)]
  {
    KeywordShape(i, "is");
    KeywordShape(v, "null");
    ReadThree(ids, f, i, v);
    var c := Comparison(f, "is", v, false, false);
    NullWord(v, "is", ValueIds(ids, c), reg);
    IsFilter(ids, [f, i, v], reg, salt, c);
  }

  lemma NullWord(v: string, op: string, ids: seq<string>, reg: Registry)
    requires ToLower(v) == "null" && !IsStringValue(v)
    ensures Coerce(v, op, ids, reg) == Null
  {
  }

  /** An IS comparison with the value null: the field equal, or not equal, to null. */
  lemma IsFilter(ids: seq<string>, ts: seq<string>, reg: Registry, salt: string, c: Comparison)
    requires c == ReadComparison(ids, ts) && c.operator == "is"
    requires Coerce(c.value, c.operator, ValueIds(ids, c), reg) == Null
    ensures ConvertTokens(ids, ts, reg, salt) == [(c.field, if c.not then Obj([("$ne", Null)]) else Null)]
  {
    Unfold(ids, ts, reg, salt, c, Null);
    BuildIs(c, Null, []);
  }

  /** `a NOT LIKE 'x'` is `{a: {$not: /x/i}}`. */
  lemma NotLike(ids: seq<string>, f: string, n: string, l: string, q: char, x: string, reg: Registry, salt: string)
    requires ' ' !in FirstId(ids) && FieldToken(f) && q in Quotes
    requires ToLower(n) == "not" && ToLower(l) == "like"
    ensures ConvertTokens(ids, [f, n, l, [q] + x + [q]], reg, salt) == [(f, Obj([("$not", Regex(x))]))]
  {
    KeywordShape(n, "not");
    var p := [q] + x + [q];
    ReadNot(ids, f, n, l, p);
    var c := Comparison(f, "like", p, true, false);
    QuotedStaysString(q, x, "like", ValueIds(ids, c), reg);
    LikeFilter(ids, [f, n, l, p], reg, salt, c, x);
  }

  /** `a LIKE 'x'` is `{a: /x/i}`. */
  lemma Like(ids: seq<string>, f: string, l: string, q: char, x: string, reg: Registry, salt: string)
    requires ' ' !in FirstId(ids) && FieldToken(f) && q in Quotes
    requires ToLower(l) == "like"
    ensures ConvertTokens(ids, [f, l, [q] + x + [q]], reg, salt) == [(f, Regex(x))]
  {
    KeywordShape(l, "like");
    var p := [q] + x + [q];
    ReadThree(ids, f, l, p);
    var c := Comparison(f, "like", p, false, false);
    QuotedStaysString(q, x, "like", ValueIds(ids, c), reg);
    LikeFilter(ids, [f, l, p], reg, salt, c, x);
  }

  /** A LIKE comparison whose value is the string `x`: a case-insensitive regex, negated by NOT. */
  lemma LikeFilter(ids: seq<string>, ts: seq<string>, reg: Registry, salt: string, c: Comparison, x: string)
    requires c == ReadComparison(ids, ts) && c.operator == "like"
    requires Coerce(c.value, c.operator, ValueIds(ids, c), reg) == Str(x)
    ensures ConvertTokens(ids, ts, reg, salt) == [(c.field, if c.not then Obj([("$not", Regex(x))]) else Regex(x))]
  {
    Unfold(ids, ts, reg, salt, c, Str(x));
    BuildLike(c, Str(x), []);
  }

  /** `a NOT IN (…)` is `{a: {$nin: [...]}}` over the parsed list. */
  lemma NotIn(ids: seq<string>, f: string, n: string, i: string, list: string, reg: Registry, salt: string)
    requires ' ' !in FirstId(ids) && FieldToken(f)
    requires ToLower(n) == "not" && ToLower(i) == "in"
    requires !IsStringValue(list) && !IsNumeric(list)
    requires ToLower(list) != "true" && ToLower(list) != "false" && ToLower(list) != "null"
    ensures var c := Comparison(f, "in", list, true, false);
      ConvertTokens(ids, [f, n, i, list], reg, salt)
      == [(f, Obj([("$nin", Arr(ParseValueForInQuerySpec(list, ValueIds(ids, c), reg, salt)))]))]
  {
    KeywordShape(n, "not");
    ReadNot(ids, f, n, i, list);
    var c := Comparison(f, "in", list, true, false);
    BareWordValue(list, "in", ValueIds(ids, c), reg);
    InFilter(ids, [f, n, i, list], reg, salt, c, list);
  }

  /** An IN comparison whose value is the bare list text: `$in`/`$nin` over the parsed list. */
  lemma InFilter(ids: seq<string>, ts: seq<string>, reg: Registry, salt: string, c: Comparison, list: string)
    requires c == ReadComparison(ids, ts) && c.operator == "in"
    requires Coerce(c.value, c.operator, ValueIds(ids, c), reg) == Str(list)
    ensures ConvertTokens(ids, ts, reg, salt)
         == [(c.field, Obj([(if c.not then "$nin" else "$in", Arr(ParseValueForInQuerySpec(list, ValueIds(ids, c), reg, salt)))]))]
  {
    Unfold(ids, ts, reg, salt, c, Str(list));
    BuildIn(c, Str(list), ParseValueForInQuerySpec(list, ValueIds(ids, c), reg, salt));
  }

  /** The filter is empty exactly when the operator is none `convertOperator` knows. */
  lemma UnknownOperatorEmpty(c: Comparison, v: V, items: seq<V>)
    ensures BuildFilter(c, v, items) == [] <==> c.operator !in KnownOperators
  {
  }

  // ---------------------------------------------------------------------
  // IN-list items

  /** Without quoted identifiers to put back, an item is just its value. */
  lemma ItemWithoutTable(item: string, reg: Registry)
    requires Bare(item)
    ensures InItem(item, [], reg) == ItemValue(item)
  {
    BareTrim(item);
    assert RestoreFrom(item, [], []) == ([], item);
  }

  lemma QuotedBare(q: char, x: string)
    requires q in Quotes
    ensures Bare([q] + x + [q]) && IsStringValue([q] + x + [q]) && GetStringValue([q] + x + [q]) == x
  {
    var s := [q] + x + [q];
    assert s[1..|s| - 1] == x;
  }

  /** An integer item becomes that integer. */
  lemma IntegerItem(n: int, reg: Registry)
    ensures InItem(IntToString(n), [], reg) == Int(n)
  {
    var s := IntToString(n);
    IntegerNumeral(n);
    NumeralIsNoWord(s);
    ItemWithoutTable(s, reg);
  }

  /** A quoted item loses its quotes and is not read as a number: `'5'` stays the string `5`. */
  lemma QuotedNumeralItem(q: char, n: int, reg: Registry)
    requires q in Quotes
    ensures InItem([q] + IntToString(n) + [q], [], reg) == Str(IntToString(n))
  {
    var d := IntToString(n);
    var s := [q] + d + [q];
    QuotedBare(q, d);
    IntegerNumeral(n);
    NumeralIsNoWord(d);
    ItemWithoutTable(s, reg);
    assert ItemValue(s) == Str(d);
  }

  /** Unlike a comparison's value, a quoted `'true'` inside IN does become a boolean. */
  lemma QuotedTrueItem(q: char, reg: Registry)
    requires q in Quotes
    ensures InItem([q] + "true" + [q], [], reg) == Bool(true)
  {
    var s := [q] + "true" + [q];
    assert s[1..|s| - 1] == "true";
    LowerFixed("true");
    ItemWithoutTable(s, reg);
    assert ItemValue(s) == Bool(true);
  }
}
