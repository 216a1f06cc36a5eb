/**
 * `Lib\GroupByArithmeticConverter`: rewrites an arithmetic tree so that each
 * aggregate node (`{$sum: ...}`, `{$avg: ...}`, `{$min: ...}`, `{$max: ...}`,
 * `{$count: ...}`) is replaced by the name of a field that a `$group` stage
 * will compute. The optional callback that receives each hoisted
 * (name, node) pair becomes the `hoisted` list of the result.
 */
module GroupByArithmetic {

  import opened Php
  import opened Strings

  predicate IsGroupByFunction(key: string) {
    key == "$sum" || key == "$avg" || key == "$min" || key == "$max" || key == "$count"
  }

  /** What `convert` returns, and the callback invocations it made, in order. */
  datatype Converted = Converted(value: V, hoisted: seq<(string, V)>)

  /** The placeholder for an aggregate node whose lower-cased key is `key`. */
  function HoistName(node: V, key: string, hash: V -> string): string {
    if key == "$count" then "count(*)" else "__tmp_expression_" + hash(node)
  }

  /** What the callback receives for that node: `{$sum: 1}` for `$count`, the node itself otherwise. */
  function HoistPayload(node: V, key: string): V {
    if key == "$count" then Obj([("$sum", Int(1))]) else node
  }

  /** The node is a one-key array whose lower-cased key names an aggregate. */
  predicate IsAggregateNode(v: V) {
    v.Obj? && |v.fields| == 1 && IsGroupByFunction(ToLower(v.fields[0].0))
  }

  function HoistOf(node: V, hash: V -> string): (string, V)
    requires IsAggregateNode(node)
  {
    var key := ToLower(node.fields[0].0);
    (HoistName(node, key, hash), HoistPayload(node, key))
  }

  /**
   * `convert($expression, $onConvertGroupBy)`, with `md5(json_encode(...))`
   * as the parameter `hash`. A one-element list has the integer key 0, which
   * is no aggregate name, and comes back as a one-element list: the same as
   * the element-wise case, which is why lists need no separate branch.
   */
  function Convert(e: V, hash: V -> string): (r: Converted)
    ensures !e.Obj? && !e.Arr? ==> r == Converted(e, [])
    ensures IsAggregateNode(e) ==> r == Converted(Str(HoistOf(e, hash).0), [HoistOf(e, hash)])
    decreases e, 1
  {
    match e
    case Obj(fields) =>
      if |fields| == 1 then
        var key := ToLower(fields[0].0);
        if IsGroupByFunction(key) then
          var name := HoistName(e, key, hash);
          Converted(Str(name), [(name, HoistPayload(e, key))])
        else
          var c := ConvertEntry(fields[0], hash);
          Converted(Obj([(key, c.value)]), c.hoisted)
      else ConvertEntries(fields, hash)
    case Arr(items) => ConvertItems(items, hash)
    case _ => Converted(e, [])
  }

  function ConvertEntry(entry: (string, V), hash: V -> string): Converted
    decreases entry, 0
  {
    Convert(entry.1, hash)
  }

  /** The `foreach` of lines 52-58 over an array's values: keys are dropped, order is kept. */
  function ConvertEntries(fields: seq<(string, V)>, hash: V -> string): (r: Converted)
    ensures r.value.Arr? && |r.value.items| == |fields|
    decreases fields, 0
  {
    if fields == [] then Converted(Arr([]), [])
    else
      var head := ConvertEntry(fields[0], hash);
      var tail := ConvertEntries(fields[1..], hash);
      Converted(Arr([head.value] + tail.value.items), head.hoisted + tail.hoisted)
  }

  function ConvertItems(items: seq<V>, hash: V -> string): (r: Converted)
    ensures r.value.Arr? && |r.value.items| == |items|
    decreases items, 0
  {
    if items == [] then Converted(Arr([]), [])
    else
      var head := Convert(items[0], hash);
      var tail := ConvertItems(items[1..], hash);
      Converted(Arr([head.value] + tail.value.items), head.hoisted + tail.hoisted)
  }

  /** A list is mapped element by element, keeping its length and order. */
  lemma {:induction false} ListMappedElementwise(items: seq<V>, hash: V -> string)
    ensures var r := Convert(Arr(items), hash).value;
      r.Arr? && |r.items| == |items| &&
      forall i :: 0 <= i < |items| ==> r.items[i] == Convert(items[i], hash).value
    decreases items
  {
    if items != [] {
      ListMappedElementwise(items[1..], hash);
      var r := ConvertItems(items, hash).value;
      var rest := ConvertItems(items[1..], hash).value;
      assert Convert(Arr(items[1..]), hash).value == rest;
      forall i | 0 <= i < |items| ensures r.items[i] == Convert(items[i], hash).value {
        if i > 0 {
          assert r.items[i] == rest.items[i - 1];
          assert items[1..][i - 1] == items[i];
        }
      }
    }
  }

  // ---------------------------------------------------------------------------
  // Reference traversal: the aggregate nodes, outermost first, left to right

  function AggregateNodes(e: V): seq<V>
    decreases e, 1
  {
    if IsAggregateNode(e) then [e]
    else
      match e
      case Obj(fields) =>
        if |fields| == 1 then EntryAggregates(fields[0]) else FieldsAggregates(fields)
      case Arr(items) => ItemsAggregates(items)
      case _ => []
  }

  function EntryAggregates(entry: (string, V)): seq<V>
    decreases entry, 0
  {
    AggregateNodes(entry.1)
  }

  function FieldsAggregates(fields: seq<(string, V)>): seq<V>
    decreases fields, 0
  {
    if fields == [] then [] else EntryAggregates(fields[0]) + FieldsAggregates(fields[1..])
  }

  function ItemsAggregates(items: seq<V>): seq<V>
    decreases items, 0
  {
    if items == [] then [] else AggregateNodes(items[0]) + ItemsAggregates(items[1..])
  }

  predicate AllAggregates(nodes: seq<V>) {
    forall i :: 0 <= i < |nodes| ==> IsAggregateNode(nodes[i])
  }

  /** The hoist list a sequence of aggregate nodes produces. */
  function HoistsOf(nodes: seq<V>, hash: V -> string): (r: seq<(string, V)>)
    requires AllAggregates(nodes)
    ensures |r| == |nodes| && forall i :: 0 <= i < |nodes| ==> r[i] == HoistOf(nodes[i], hash)
  {
    if nodes == [] then [] else [HoistOf(nodes[0], hash)] + HoistsOf(nodes[1..], hash)
  }

  lemma AggregatesAppend(a: seq<V>, b: seq<V>)
    requires AllAggregates(a) && AllAggregates(b)
    ensures AllAggregates(a + b)
  {
    forall i | 0 <= i < |a + b| ensures IsAggregateNode((a + b)[i]) {
      if i >= |a| { assert (a + b)[i] == b[i - |a|]; }
    }
  }

  lemma HoistsOfAppend(a: seq<V>, b: seq<V>, hash: V -> string)
    requires AllAggregates(a) && AllAggregates(b)
    ensures AllAggregates(a + b)
    ensures HoistsOf(a + b, hash) == HoistsOf(a, hash) + HoistsOf(b, hash)
  {
    AggregatesAppend(a, b);
    var l := HoistsOf(a + b, hash);
    var r := HoistsOf(a, hash) + HoistsOf(b, hash);
    forall i | 0 <= i < |l| ensures l[i] == r[i] {
      if i < |a| { assert (a + b)[i] == a[i]; } else { assert (a + b)[i] == b[i - |a|]; }
    }
  }


  /**
   * The callback runs exactly once per aggregate node, outermost first and
   * left to right, with that node's name and payload; nodes inside a hoisted
   * node are not visited.
   */
  lemma {:induction false} HoistedAreAggregateNodes(e: V, hash: V -> string)
    ensures AllAggregates(AggregateNodes(e))
    ensures Convert(e, hash).hoisted == HoistsOf(AggregateNodes(e), hash)
    decreases e, 1
  {
    if !IsAggregateNode(e) {
      match e
      case Obj(fields) =>
        if |fields| == 1 {
          HoistedAreAggregateNodesEntry(fields[0], hash);
        } else {
          HoistedAreAggregateNodesFields(fields, hash);
        }
      case Arr(items) => HoistedAreAggregateNodesItems(items, hash);
      case _ =>
    }
  }

  lemma {:induction false} HoistedAreAggregateNodesEntry(entry: (string, V), hash: V -> string)
    ensures AllAggregates(EntryAggregates(entry))
    ensures ConvertEntry(entry, hash).hoisted == HoistsOf(EntryAggregates(entry), hash)
    decreases entry, 0
  {
    HoistedAreAggregateNodes(entry.1, hash);
  }

  lemma {:induction false} HoistedAreAggregateNodesFields(fields: seq<(string, V)>, hash: V -> string)
    ensures AllAggregates(FieldsAggregates(fields))
    ensures ConvertEntries(fields, hash).hoisted == HoistsOf(FieldsAggregates(fields), hash)
    decreases fields, 0
  {
    if fields != [] {
      HoistedAreAggregateNodesEntry(fields[0], hash);
      HoistedAreAggregateNodesFields(fields[1..], hash);
      HoistsOfAppend(EntryAggregates(fields[0]), FieldsAggregates(fields[1..]), hash);
    }
  }

  lemma {:induction false} HoistedAreAggregateNodesItems(items: seq<V>, hash: V -> string)
    ensures AllAggregates(ItemsAggregates(items))
    ensures ConvertItems(items, hash).hoisted == HoistsOf(ItemsAggregates(items), hash)
    decreases items, 0
  {
    if items != [] {
      HoistedAreAggregateNodes(items[0], hash);
      HoistedAreAggregateNodesItems(items[1..], hash);
      HoistsOfAppend(AggregateNodes(items[0]), ItemsAggregates(items[1..]), hash);
    }
  }

  /** Structurally equal aggregate nodes are hoisted under the same name. */
  lemma EqualNodesShareName(e: V, hash: V -> string, i: nat, j: nat)
    requires i < |AggregateNodes(e)| && j < |AggregateNodes(e)|
    requires AggregateNodes(e)[i] == AggregateNodes(e)[j]
    ensures |Convert(e, hash).hoisted| == |AggregateNodes(e)|
    ensures Convert(e, hash).hoisted[i].0 == Convert(e, hash).hoisted[j].0
  {
    HoistedAreAggregateNodes(e, hash);
  }

  // ---------------------------------------------------------------------------
  // The rewritten tree

  /**
   * A tree the rewrite leaves as it is: no aggregate node, every one-key
   * array has a lower-case key, and every other array is a list.
   */
  predicate Settled(v: V)
    decreases v, 1
  {
    match v
    case Obj(fields) =>
      |fields| == 1 && ToLower(fields[0].0) == fields[0].0 && !IsGroupByFunction(fields[0].0)
      && SettledEntry(fields[0])
    case Arr(items) => SettledItems(items)
    case _ => true
  }

  predicate SettledEntry(entry: (string, V))
    decreases entry, 0
  {
    Settled(entry.1)
  }

  predicate SettledItems(items: seq<V>)
    decreases items, 0
  {
    items == [] || (Settled(items[0]) && SettledItems(items[1..]))
  }

  lemma {:induction false} LowerIdempotent(s: string)
    ensures ToLower(ToLower(s)) == ToLower(s)
  {
  }

  /** Every aggregate node is gone from the result. */
  lemma {:induction false} ConvertSettles(e: V, hash: V -> string)
    ensures Settled(Convert(e, hash).value)
    decreases e, 1
  {
    match e
    case Obj(fields) =>
      if |fields| == 1 {
        var key := ToLower(fields[0].0);
        if !IsGroupByFunction(key) {
          ConvertSettlesEntry(fields[0], hash);
          LowerIdempotent(fields[0].0);
          var r := Convert(e, hash).value;
          assert r.fields[0] == (key, ConvertEntry(fields[0], hash).value);
        }
      } else {
        ConvertSettlesFields(fields, hash);
      }
    case Arr(items) => ConvertSettlesItems(items, hash);
    case _ =>
  }

  lemma {:induction false} ConvertSettlesEntry(entry: (string, V), hash: V -> string)
    ensures Settled(ConvertEntry(entry, hash).value)
    decreases entry, 0
  {
    ConvertSettles(entry.1, hash);
  }

  lemma {:induction false} ConvertSettlesFields(fields: seq<(string, V)>, hash: V -> string)
    ensures SettledItems(ConvertEntries(fields, hash).value.items)
    decreases fields, 0
  {
    if fields != [] {
      ConvertSettlesEntry(fields[0], hash);
      ConvertSettlesFields(fields[1..], hash);
      var r := ConvertEntries(fields, hash).value.items;
      assert r[0] == ConvertEntry(fields[0], hash).value;
      assert r[1..] == ConvertEntries(fields[1..], hash).value.items;
    }
  }

  lemma {:induction false} ConvertSettlesItems(items: seq<V>, hash: V -> string)
    ensures SettledItems(ConvertItems(items, hash).value.items)
    decreases items, 0
  {
    if items != [] {
      ConvertSettles(items[0], hash);
      ConvertSettlesItems(items[1..], hash);
      var r := ConvertItems(items, hash).value.items;
      assert r[0] == Convert(items[0], hash).value;
      assert r[1..] == ConvertItems(items[1..], hash).value.items;
    }
  }

  /** A settled tree comes back unchanged and nothing is hoisted from it. */
  lemma {:induction false} SettledUnchanged(v: V, hash: V -> string)
    requires Settled(v)
    ensures Convert(v, hash) == Converted(v, [])
    decreases v, 1
  {
    match v
    case Obj(fields) =>
      SettledUnchangedEntry(fields[0], hash);
      assert [(fields[0].0, fields[0].1)] == fields;
    case Arr(items) => SettledUnchangedItems(items, hash);
    case _ =>
  }

  lemma {:induction false} SettledUnchangedEntry(entry: (string, V), hash: V -> string)
    requires SettledEntry(entry)
    ensures ConvertEntry(entry, hash) == Converted(entry.1, [])
    decreases entry, 0
  {
    SettledUnchanged(entry.1, hash);
  }

  lemma {:induction false} SettledUnchangedItems(items: seq<V>, hash: V -> string)
    requires SettledItems(items)
    ensures ConvertItems(items, hash) == Converted(Arr(items), [])
    decreases items, 0
  {
    if items != [] {
      SettledUnchanged(items[0], hash);
      SettledUnchangedItems(items[1..], hash);
      assert [items[0]] + items[1..] == items;
    }
  }

  /** The rewrite is idempotent: a second pass changes nothing and hoists nothing. */
  lemma ConvertIdempotent(e: V, hash: V -> string)
    ensures Convert(Convert(e, hash).value, hash) == Converted(Convert(e, hash).value, [])
  {
    ConvertSettles(e, hash);
    SettledUnchanged(Convert(e, hash).value, hash);
  }
}
