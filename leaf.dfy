/**
 * The translation of one WHERE/HAVING comparison (`a > 1`, `name LIKE 'x%'`,
 * `_id IN (ObjectId('…'), …)`, `a IS NOT NULL`) into a one-key filter:
 * `convertOperator` and the helpers it relies on in `SqlToMongodbQuery`.
 *
 * Quoted literals the SQL parser reported as identifiers are first swapped
 * for placeholder keys (`buildReplacers`) so that operator characters inside
 * them survive the spacing of operators; the keys are put back at the end.
 * The random salt of those keys is a parameter.
 */
module Leaf {

  import opened Php
  import opened Strings

  /** A registered inline-function builder (`date`, `ObjectId`, `Id`, …). */
  type Builder = V -> V

  type Registry = map<string, Builder>

  const Quotes: set<char> := {'"', '\'', '`'}

  predicate IsStringValue(s: string) {
    |s| > 0 && s[0] in Quotes
  }

  /** `substr($s, 1, strlen($s) - 2)` on a quoted value. */
  function GetStringValue(s: string): string {
    if !IsStringValue(s) then s
    else if |s| >= 2 then s[1..|s| - 1]
    else ""
  }

  /** Not a quoted value, yet a quote occurs in it: `date('2020-01-01')`. */
  predicate IsInlineFunction(s: string) {
    !IsStringValue(s) && ('"' in s || '\'' in s)
  }

  /**
   * `convertInlineFunction`: when the first identifier names a registered
   * builder, the builder applied to the second identifier (`null` when
   * there is none); otherwise the value as it is.
   */
  function ConvertInlineFunction(value: V, ids: seq<string>, reg: Registry): (r: V)
    ensures ids == [] || ids[0] !in reg ==> r == value
    ensures ids != [] && ids[0] in reg && |ids| >= 2 ==> r == reg[ids[0]](Str(ids[1]))
    ensures ids != [] && ids[0] in reg && |ids| == 1 ==> r == reg[ids[0]](Null)
  {
    if ids == [] then value
    else if ids[0] in reg then reg[ids[0]](if |ids| >= 2 then Str(ids[1]) else Null)
    else value
  }

  /** PHP's `empty` on a string. */
  predicate EmptyString(s: string) {
    s == "" || s == "0"
  }

  /** A PHP numeral converted by `settype`: a float when it has a decimal point. */
  function NumberOf(s: string): V
    requires IsNumeric(s)
  {
    if '.' in s then Num(s) else (assert !Contains(s, ".") by { ContainsChar(s, '.'); } Int(ToInt(s)))
  }

  // ---------------------------------------------------------------------
  // buildReplacers
  // ---------------------------------------------------------------------

  /** `"__tmp_identifier_{$salt}_{$index}_{$n}"`. */
  function Key(salt: string, index: nat, n: char): string {
    "__tmp_identifier_" + salt + "_" + IntToString(index) + "_" + [n]
  }

  /** The two quoted spellings of an identifier and the keys standing for them. */
  function ReplacersOf(id: string, salt: string, index: nat): seq<(string, string)> {
    [(Key(salt, index, '1'), "'" + id + "'"), (Key(salt, index, '2'), "\"" + id + "\"")]
  }

  /** Flips each (key, literal) pair into the (literal, key) pair `strtr` is given. */
  function Inverted(pairs: seq<(string, string)>): (r: seq<(string, string)>)
    ensures |r| == |pairs|
    ensures forall i :: 0 <= i < |pairs| ==> r[i] == (pairs[i].1, pairs[i].0)
  {
    if pairs == [] then [] else [(pairs[0].1, pairs[0].0)] + Inverted(pairs[1..])
  }

  /** The loop of `buildReplacers` from identifier `i` on. */
  function BuildReplacersFrom(ids: seq<string>, i: nat, table: seq<(string, string)>, value: string, salt: string)
    : (r: (seq<(string, string)>, string))
    decreases |ids| - i
  {
    if i >= |ids| then (table, value)
    else if EmptyString(ids[i]) then BuildReplacersFrom(ids, i + 1, table, value, salt)
    else
      var pairs := ReplacersOf(ids[i], salt, i);
      BuildReplacersFrom(ids, i + 1, table + pairs, StrTr(value, Inverted(pairs)), salt)
  }

  /**
   * `buildReplacers`: the (key, quoted literal) table and the value with
   * every quoted identifier replaced by its key. The keys are distinct per
   * position, so appending to the table is PHP's `$table[$key] = …`.
   */
  function BuildReplacersSpec(ids: seq<string>, value: string, salt: string): (seq<(string, string)>, string) {
    BuildReplacersFrom(ids, 0, [], value, salt)
  }

  /** Without a usable identifier, nothing is replaced. */
  lemma {:induction false} NoIdentifiersNoReplacers(ids: seq<string>, i: nat, value: string, salt: string)
    requires forall j :: i <= j < |ids| ==> EmptyString(ids[j])
    ensures BuildReplacersFrom(ids, i, [], value, salt) == ([], value)
    decreases |ids| - i
  {
    if i < |ids| {
      NoIdentifiersNoReplacers(ids, i + 1, value, salt);
    }
  }

  method BuildReplacers(ids: seq<string>, value: string, salt: string) returns (table: seq<(string, string)>, r: string)
    ensures (table, r) == BuildReplacersSpec(ids, value, salt)
  {
    table := [];
    r := value;
    var i := 0;
    while i < |ids|
      invariant i <= |ids|
      invariant BuildReplacersFrom(ids, i, table, r, salt) == BuildReplacersSpec(ids, value, salt)
      decreases |ids| - i
    {
      if !EmptyString(ids[i]) {
        var pairs := ReplacersOf(ids[i], salt, i);
        r := StrTr(r, Inverted(pairs));
        table := table + pairs;
      }
      i := i + 1;
    }
  }

  // ---------------------------------------------------------------------
  // replaceOperators and normalizeExpr
  // ---------------------------------------------------------------------

  /** One round of `replaceOperators`: blanks around each occurrence of `op`. */
  function SpaceOperator(s: string, op: string): string {
    if Contains(s, op) then Replace(s, op, " " + op + " ") else s
  }

  function ReplaceOperatorsSpec(s: string, ops: seq<string>): string
    decreases |ops|
  {
    if ops == [] then s else ReplaceOperatorsSpec(SpaceOperator(s, ops[0]), ops[1..])
  }

  method ReplaceOperators(s: string, ops: seq<string>) returns (r: string)
    ensures r == ReplaceOperatorsSpec(s, ops)
  {
    r := s;
    for i := 0 to |ops|
      invariant ReplaceOperatorsSpec(r, ops[i..]) == ReplaceOperatorsSpec(s, ops)
    {
      assert ops[i..][1..] == ops[i + 1..];
      if Contains(r, ops[i]) {
        r := Replace(r, ops[i], " " + ops[i] + " ");
      }
    }
  }

  /** The spellings the first spacing round leaves two-character operators in. */
  const Split2: seq<string> := ["<  =", ">  =", "! =", "<  >"]

  const Operators1: seq<string> := ["<", "=", ">"]

  const Operators2: seq<string> := ["<=", ">=", "<>", "!="]

  /** `str_replace($op, str_replace(' ', '', $op), $e)` for each split spelling in turn. */
  function GlueSpec(s: string, ops: seq<string>): string
    decreases |ops|
  {
    if ops == [] then s else GlueSpec(Replace(s, ops[0], Replace(ops[0], " ", "")), ops[1..])
  }

  function NormalizeExprSpec(ids: seq<string>, expr: string, salt: string): string {
    var (table, e0) := BuildReplacersSpec(ids, expr, salt);
    var e1 := ReplaceOperatorsSpec(e0, Operators1);
    var e2 := GlueSpec(e1, Split2);
    var e3 := ReplaceOperatorsSpec(e2, Operators2);
    StrTr(Collapse(e3), table)
  }

  method NormalizeExpr(ids: seq<string>, expr: string, salt: string) returns (r: string)
    ensures r == NormalizeExprSpec(ids, expr, salt)
  {
    var table, e := BuildReplacers(ids, expr, salt);
    e := ReplaceOperators(e, Operators1);
    ghost var e1 := e;
    for i := 0 to |Split2|
      invariant GlueSpec(e, Split2[i..]) == GlueSpec(e1, Split2)
    {
      assert Split2[i..][1..] == Split2[i + 1..];
      e := Replace(e, Split2[i], Replace(Split2[i], " ", ""));
    }
    assert Split2[|Split2|..] == [];
    e := ReplaceOperators(e, Operators2);
    r := StrTr(Collapse(e), table);
  }

  // ---------------------------------------------------------------------
  // convertOperator
  // ---------------------------------------------------------------------

  /** The comparison read off the tokens, before its value is coerced. */
  datatype Comparison = Comparison(field: string, operator: string, value: string, not: bool, reverse: bool)

  /** `array_shift`, with `trim(null)` giving `""` on an empty list. */
  function Shift(ts: seq<string>): (string, seq<string>) {
    if ts == [] then ("", []) else (ts[0], ts[1..])
  }

  /** `array_pop`, with `trim(null)` giving `""` on an empty list. */
  function Pop(ts: seq<string>): (string, seq<string>) {
    if ts == [] then ("", []) else (ts[|ts| - 1], ts[..|ts| - 1])
  }

  /** `$identifiers[0]`, `null` (read as `""`) when there is none. */
  function FirstId(ids: seq<string>): string {
    if ids == [] then "" else ids[0]
  }

  /**
   * The field, operator and value of a tokenised comparison. A first
   * identifier holding a blank means the field is the last token; a field
   * that looks like a value (a numeral, a quoted string, an inline call) is
   * swapped with the value; both cases reverse the comparison.
   */
  function ReadComparison(ids: seq<string>, tokens: seq<string>): Comparison {
    var (f, o, rest, rev) :=
      if ' ' in FirstId(ids) then
        var (f, t1) := Pop(tokens);
        var (o, t2) := Pop(t1);
        (Trim(f, TrimDefault), Trim(o, TrimDefault), t2, true)
      else
        var (f, t1) := Shift(tokens);
        var (o, t2) := Shift(t1);
        (Trim(f, TrimDefault), Trim(o, TrimDefault), t2, false);
    var op := ToLower(o);
    var (operator, not, rest2) :=
      if op == "not" then
        var (o2, t) := Shift(rest);
        (ToLower(o2), true, t)
      else if op == "is" && |tokens| == 4 then
        var (n, t) := Shift(rest);
        (op, ToLower(n) == "not", t)
      else (op, false, rest);
    var value := Join(rest2, " ");
    if IsNumeric(f) || IsStringValue(f) || IsInlineFunction(f) then
      Comparison(value, operator, f, not, true)
    else
      Comparison(f, operator, value, not, rev)
  }

  /** `array_values(array_filter($ids, fn ($s) => $s != $field))`. */
  function Without(ids: seq<string>, field: string): (r: seq<string>)
    ensures forall s :: s in r <==> s in ids && s != field
  {
    if ids == [] then []
    else if ids[0] == field then Without(ids[1..], field)
    else [ids[0]] + Without(ids[1..], field)
  }

  /**
   * The identifiers an inline-call value is built from: the field's name is
   * dropped unless the value is a call on the field itself.
   */
  function ValueIds(ids: seq<string>, c: Comparison): seq<string> {
    if IsInlineFunction(c.value) && !StartsWith(c.value, c.field + "(") then Without(ids, c.field) else ids
  }

  /**
   * The value's coercion, first rule that applies: a quoted string loses its
   * quotes, `true`/`false` become booleans, `null` becomes null, a numeral
   * becomes a number, and outside IN an inline call goes to its builder.
   */
  function Coerce(value: string, operator: string, ids: seq<string>, reg: Registry): V {
    if IsStringValue(value) then Str(GetStringValue(value))
    else if ToLower(value) == "true" || ToLower(value) == "false" then Bool(ToLower(value) == "true")
    else if ToLower(value) == "null" then Null
    else if IsNumeric(value) then NumberOf(value)
    else if operator != "in" then ConvertInlineFunction(Str(value), ids, reg)
    else Str(value)
  }

  /** The string PHP hands to `new Regex(...)` or `trim(...)` for a coerced value. */
  function StringOf(v: V): string {
    match v
    case Str(s) => s
    case Int(i) => IntToString(i)
    case Num(t) => t
    case Bool(b) => if b then "1" else ""
    case Regex(p) => p
    case Opaque(_, p) => StringOf(p)
    case _ => ""
  }

  /** The operators `convertOperator` knows; any other yields the empty filter. */
  const KnownOperators: set<string> := {"<", "<=", ">", ">=", "<>", "!=", "=", "is", "like", "in"}

  /** The MongoDB operator for an ordering comparison, reversed when the operands were swapped. */
  function OrderTag(op: string, reverse: bool): string {
    if op == "<" then (if reverse then "$gt" else "$lt")
    else if op == "<=" then (if reverse then "$gte" else "$lte")
    else if op == ">" then (if reverse then "$lt" else "$gt")
    else (if reverse then "$lte" else "$gte")
  }

  /** The filter for a read and coerced comparison; `items` is the parsed IN list. */
  function BuildFilter(c: Comparison, v: V, items: seq<V>): Fields {
    var op := c.operator;
    if op == "<" || op == "<=" || op == ">" || op == ">=" then [(c.field, Obj([(OrderTag(op, c.reverse), v)]))]
    else if op == "<>" || op == "!=" then [(c.field, Obj([("$ne", v)]))]
    else if op == "=" then [(c.field, v)]
    else if op == "is" then [(c.field, if c.not then Obj([("$ne", v)]) else v)]
    else if op == "like" then
      [(c.field, if c.not then Obj([("$not", Regex(StringOf(v)))]) else Regex(StringOf(v)))]
    else if op == "in" then [(c.field, Obj([(if c.not then "$nin" else "$in", Arr(items))]))]
    else []
  }

  /** `convertOperator` on the blank-separated tokens of a normalised expression. */
  function ConvertTokens(ids: seq<string>, tokens: seq<string>, reg: Registry, salt: string): Fields {
    var c := ReadComparison(ids, tokens);
    var vids := ValueIds(ids, c);
    var v := Coerce(c.value, c.operator, vids, reg);
    BuildFilter(c, v, if c.operator == "in" then ParseValueForInQuerySpec(StringOf(v), vids, reg, salt) else [])
  }

  function ConvertOperatorSpec(ids: seq<string>, expr: string, reg: Registry, salt: string): Fields {
    ConvertTokens(ids, Split(NormalizeExprSpec(ids, expr, salt), " "), reg, salt)
  }

  method ConvertOperator(ids: seq<string>, expr: string, reg: Registry, salt: string) returns (r: Fields)
    ensures r == ConvertOperatorSpec(ids, expr, reg, salt)
  {
    var e := NormalizeExpr(ids, expr, salt);
    var c := ReadComparison(ids, Split(e, " "));
    var vids := ValueIds(ids, c);
    var v := Coerce(c.value, c.operator, vids, reg);
    var items := [];
    if c.operator == "in" {
      items := ParseValueForInQuery(StringOf(v), vids, reg, salt);
    }
    r := BuildFilter(c, v, items);
  }

  // ---------------------------------------------------------------------
  // parseValueForInQuery
  // ---------------------------------------------------------------------

  /**
   * The `foreach ($table …)` loop for one item: each key found in the item
   * is put back and its literal, without quotes, joins the item's identifiers.
   */
  function RestoreFrom(item: string, subs: seq<string>, table: seq<(string, string)>): (seq<string>, string)
    decreases |table|
  {
    if table == [] then (subs, item)
    else if Contains(item, table[0].0) then
      RestoreFrom(Replace(item, table[0].0, table[0].1), subs + [Trim(table[0].1, {'\'', '"'})], table[1..])
    else RestoreFrom(item, subs, table[1..])
  }

  method RestoreItem(item: string, table: seq<(string, string)>) returns (subs: seq<string>, r: string)
    ensures (subs, r) == RestoreFrom(item, [], table)
  {
    subs := [];
    r := item;
    for i := 0 to |table|
      invariant RestoreFrom(r, subs, table[i..]) == RestoreFrom(item, [], table)
    {
      assert table[i..][1..] == table[i + 1..];
      var (key, literal) := table[i];
      if Contains(r, key) {
        subs := subs + [Trim(literal, {'\'', '"'})];
        r := Replace(r, key, literal);
      }
    }
  }

  /** Position of the first `(`. */
  function OpenAt(s: string): (i: nat)
    requires '(' in s
    ensures i < |s| && s[i] == '(' && '(' !in s[..i]
  {
    if s[0] == '(' then 0 else OpenAt(s[1..]) + 1
  }

  /** A call found in an item with a single literal names its builder: `ObjectId('…')`. */
  function ItemIds(subs: seq<string>, x: string): seq<string> {
    if |subs| == 1 && !IsStringValue(x) && '(' in x then [x[..OpenAt(x)]] + subs else subs
  }

  /** The scalar an IN item stands for, before inline calls are built. */
  function ItemValue(x: string): V {
    var v := if IsStringValue(x) then Str(GetStringValue(x)) else if IsNumeric(x) then NumberOf(x) else Str(x);
    var v2 := if v.Str? && (ToLower(v.s) == "true" || ToLower(v.s) == "false") then Bool(ToLower(v.s) == "true") else v;
    if v2.Str? && ToLower(v2.s) == "null" then Null else v2
  }

  /** An item with its literals put back, and the identifiers found in it, as a value. */
  function FinishItem(restored: (seq<string>, string), reg: Registry): V {
    ConvertInlineFunction(ItemValue(restored.1), ItemIds(restored.0, restored.1), reg)
  }

  /** The closure `array_map` applies to one item of an IN list. */
  function InItem(item: string, table: seq<(string, string)>, reg: Registry): V {
    FinishItem(RestoreFrom(Trim(item, TrimDefault), [], table), reg)
  }

  /** The IN list's items: the brackets trimmed, quoted literals protected, split at commas. */
  function InItems(value: string, ids: seq<string>, salt: string): (seq<(string, string)>, seq<string>) {
    var (table, v) := BuildReplacersSpec(ids, Trim(value, {'(', ')', ' '}), salt);
    (table, Split(v, ","))
  }

  /** `array_map` of the item closure over the IN list's items. */
  function MapItems(items: seq<string>, table: seq<(string, string)>, reg: Registry): (r: seq<V>)
    ensures |r| == |items|
    ensures forall k :: 0 <= k < |items| ==> r[k] == InItem(items[k], table, reg)
  {
    seq(|items|, k requires 0 <= k < |items| => InItem(items[k], table, reg))
  }

  function ParseValueForInQuerySpec(value: string, ids: seq<string>, reg: Registry, salt: string): seq<V> {
    var p := InItems(value, ids, salt);
    MapItems(p.1, p.0, reg)
  }

  method ParseValueForInQuery(value: string, ids: seq<string>, reg: Registry, salt: string) returns (r: seq<V>)
    ensures r == ParseValueForInQuerySpec(value, ids, reg, salt)
  {
    var table, v := BuildReplacers(ids, Trim(value, {'(', ')', ' '}), salt);
    r := ConvertItems(Split(v, ","), table, reg);
  }

  /** The `array_map` loop over the items. */
  method ConvertItems(items: seq<string>, table: seq<(string, string)>, reg: Registry) returns (r: seq<V>)
    ensures r == MapItems(items, table, reg)
  {
    r := [];
    for k := 0 to |items|
      invariant r == MapItems(items[..k], table, reg)
    {
      var y := ConvertItem(items[k], table, reg);
      MapItemsPrefix(items, k, table, reg);
      r := r + [y];
    }
    MapItemsPrefix(items, |items|, table, reg);
  }

  /** Mapping one more item of the list appends that item's value. */
  lemma MapItemsPrefix(items: seq<string>, k: nat, table: seq<(string, string)>, reg: Registry)
    requires k <= |items|
    ensures k < |items| ==>
      MapItems(items[..k + 1], table, reg) == MapItems(items[..k], table, reg) + [InItem(items[k], table, reg)]
    ensures k == |items| ==> items[..k] == items
  {
    if k < |items| {
      assert items[..k + 1] == items[..k] + [items[k]];
      MapItemsSnoc(items[..k], items[k], table, reg);
    }
  }

  lemma MapItemsSnoc(items: seq<string>, item: string, table: seq<(string, string)>, reg: Registry)
    ensures MapItems(items + [item], table, reg) == MapItems(items, table, reg) + [InItem(item, table, reg)]
  {
  }

  /** The closure applied to one item: its literals restored, then its value built. */
  method ConvertItem(item: string, table: seq<(string, string)>, reg: Registry) returns (y: V)
    ensures y == InItem(item, table, reg)
  {
    var subs, x := RestoreItem(Trim(item, TrimDefault), table);
    y := FinishItem((subs, x), reg);
  }
}
