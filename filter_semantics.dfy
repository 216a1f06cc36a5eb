/**
 * A reference meaning for the filters the translator builds, after
 * MongoDB's query semantics: the entries of a filter all hold, `$and` needs
 * every listed filter, `$or` one of them, an operator map `{$gt: 1, $lt: 5}`
 * needs each of its operators, and any other value is an equality test.
 * What a single `field op value` test means for a document is a parameter
 * (`Atom`). Against this meaning, the AND merge is conjunction and the OR
 * merge disjunction.
 */
module FilterSemantics {

  import opened Php
  import opened Strings
  import opened FilterMerge

  /** Whether the document at hand passes `field op value`. */
  type Atom = (string, string, V) -> bool

  /** `{$gt: 1, $lt: 5}`: a non-empty map of query operators. */
  predicate IsOperatorMap(v: V) {
    v.Obj? && v.fields != [] && forall i :: 0 <= i < |v.fields| ==> StartsWith(v.fields[i].0, "$")
  }

  predicate OpsHold(m: Atom, k: string, ops: Fields) {
    forall i :: 0 <= i < |ops| ==> m(k, ops[i].0, ops[i].1)
  }

  predicate HoldsValue(m: Atom, k: string, v: V)
    decreases v, 2
  {
    if k == "$and" then v.Arr? && AllHold(m, v.items)
    else if k == "$or" then v.Arr? && AnyHolds(m, v.items)
    else if IsOperatorMap(v) then OpsHold(m, k, v.fields)
    else m(k, "$eq", v)
  }

  predicate AllHold(m: Atom, items: seq<V>)
    decreases items, 1
  {
    items == [] || (items[0].Obj? && Holds(m, items[0].fields) && AllHold(m, items[1..]))
  }

  predicate AnyHolds(m: Atom, items: seq<V>)
    decreases items, 1
  {
    items != [] && ((items[0].Obj? && Holds(m, items[0].fields)) || AnyHolds(m, items[1..]))
  }

  predicate HoldsEntry(m: Atom, e: (string, V))
    decreases e, 0
  {
    HoldsValue(m, e.0, e.1)
  }

  /** The document passes the filter. */
  predicate Holds(m: Atom, f: Fields)
    decreases f, 1
  {
    f == [] || (HoldsEntry(m, f[0]) && Holds(m, f[1..]))
  }

  /**
   * The shape of the filters the translator builds: unique keys, `$and` and
   * `$or` holding non-empty lists, and a field's value either a scalar or
   * an operator map with unique operators.
   */
  predicate WellFormedEntry(k: string, v: V) {
    if k == "$and" || k == "$or" then v.Arr? && v.items != []
    else !IsArray(v) || (IsOperatorMap(v) && UniqueKeys(v.fields))
  }

  predicate WellFormed(f: Fields) {
    UniqueKeys(f) && forall i :: 0 <= i < |f| ==> WellFormedEntry(f[i].0, f[i].1)
  }

  // ---------------------------------------------------------------------
  // Meaning of the building blocks

  lemma {:induction false} HoldsConcat(m: Atom, a: Fields, b: Fields)
    ensures Holds(m, a + b) <==> Holds(m, a) && Holds(m, b)
    decreases |a|
  {
    if a != [] {
      assert (a + b)[1..] == a[1..] + b;
      HoldsConcat(m, a[1..], b);
    } else {
      assert a + b == b;
    }
  }

  lemma {:induction false} AllHoldConcat(m: Atom, a: seq<V>, b: seq<V>)
    ensures AllHold(m, a + b) <==> AllHold(m, a) && AllHold(m, b)
    decreases |a|
  {
    if a != [] {
      assert (a + b)[1..] == a[1..] + b;
      AllHoldConcat(m, a[1..], b);
    } else {
      assert a + b == b;
    }
  }

  lemma {:induction false} AnyHoldsConcat(m: Atom, a: seq<V>, b: seq<V>)
    ensures AnyHolds(m, a + b) <==> AnyHolds(m, a) || AnyHolds(m, b)
    decreases |a|
  {
    if a != [] {
      assert (a + b)[1..] == a[1..] + b;
      AnyHoldsConcat(m, a[1..], b);
    } else {
      assert a + b == b;
    }
  }

  lemma AllHoldOne(m: Atom, f: Fields)
    ensures AllHold(m, [Obj(f)]) <==> Holds(m, f)
  {
    assert [Obj(f)][1..] == [];
  }

  lemma AnyHoldsOne(m: Atom, f: Fields)
    ensures AnyHolds(m, [Obj(f)]) <==> Holds(m, f)
  {
    assert [Obj(f)][1..] == [];
  }

  lemma HoldsOne(m: Atom, k: string, v: V)
    ensures Holds(m, [(k, v)]) <==> HoldsValue(m, k, v)
  {
    assert [(k, v)][1..] == [];
  }

  /** `['$and' => [$f, $s]]` means both. */
  lemma AndOfHolds(m: Atom, f: Fields, s: Fields)
    ensures Holds(m, AndOf(f, s)) <==> Holds(m, f) && Holds(m, s)
    ensures WellFormed(AndOf(f, s))
  {
    HoldsOne(m, "$and", Arr([Obj(f), Obj(s)]));
    AllHoldOne(m, s);
    assert [Obj(f), Obj(s)][1..] == [Obj(s)];
  }

  /** Replacing the value under a present key by one that adds `x` to its meaning adds `x`. */
  lemma {:induction false} HoldsPut(m: Atom, f: Fields, k: string, v: V, x: bool)
    requires HasKey(f, k)
    requires HoldsValue(m, k, v) <==> HoldsValue(m, k, At(f, k)) && x
    ensures Holds(m, Put(f, k, v)) <==> Holds(m, f) && x
    decreases |f|
  {
    if f[0].0 != k {
      assert HasKey(f[1..], k);
      HoldsPut(m, f[1..], k, v, x);
    }
  }

  /** Every entry of `Put(f, k, v)` is `(k, v)` or an entry of `f`. */
  lemma {:induction false} PutEntries(f: Fields, k: string, v: V)
    ensures forall e :: e in Put(f, k, v) ==> e == (k, v) || e in f
    decreases |f|
  {
    if f != [] && f[0].0 != k {
      PutEntries(f[1..], k, v);
    }
  }

  lemma WellFormedPut(f: Fields, k: string, v: V)
    requires WellFormed(f) && WellFormedEntry(k, v)
    ensures WellFormed(Put(f, k, v))
  {
    PutEntries(f, k, v);
    var r := Put(f, k, v);
    forall i | 0 <= i < |r| ensures WellFormedEntry(r[i].0, r[i].1) {
      assert r[i] in r;
      if r[i] != (k, v) {
        var j :| 0 <= j < |f| && f[j] == r[i];
      }
    }
  }

  lemma HasKeyAppend(a: Fields, e: (string, V), k: string)
    ensures HasKey(a + [e], k) <==> HasKey(a, k) || e.0 == k
  {
    assert Keys(a + [e]) == Keys(a) + [e.0];
  }

  /** No key of `b` is a key of `a`. */
  predicate Disjoint(a: Fields, b: Fields) {
    forall i :: 0 <= i < |b| ==> !HasKey(a, b[i].0)
  }

  lemma DisjointStep(a: Fields, b: Fields)
    requires b != [] && Disjoint(a, b) && UniqueKeys(b)
    ensures Disjoint(a + [b[0]], b[1..])
  {
    var rest := b[1..];
    forall i | 0 <= i < |rest| ensures !HasKey(a + [b[0]], rest[i].0) {
      assert rest[i] == b[i + 1];
      HasKeyAppend(a, b[0], rest[i].0);
    }
  }

  /** `array_merge` of maps without a common key appends. */
  lemma {:induction false} MergeDisjoint(a: Fields, b: Fields)
    requires UniqueKeys(b) && Disjoint(a, b)
    ensures Merge(a, b) == a + b
    decreases |b|
  {
    if b != [] {
      var k, v, rest := b[0].0, b[0].1, b[1..];
      assert b[0] == (k, v);
      var a1 := a + [(k, v)];
      PutAbsent(a, k, v);
      assert Merge(a, b) == Merge(a1, rest);
      DisjointStep(a, b);
      UniqueKeysTail(b);
      MergeDisjoint(a1, rest);
      AppendHead(a, b);
    }
  }

  lemma AppendHead<T>(a: seq<T>, b: seq<T>)
    requires b != []
    ensures a + [b[0]] + b[1..] == a + b
  {
    assert [b[0]] + b[1..] == b;
  }

  lemma {:induction false} PutAbsent(a: Fields, k: string, v: V)
    requires !HasKey(a, k)
    ensures Put(a, k, v) == a + [(k, v)]
    decreases |a|
  {
    if a != [] {
      assert Keys(a) == [a[0].0] + Keys(a[1..]);
      PutAbsent(a[1..], k, v);
    }
  }

  lemma {:induction false} KeysConcat(a: Fields, b: Fields)
    ensures Keys(a + b) == Keys(a) + Keys(b)
  {
  }

  lemma UniqueConcat(a: Fields, b: Fields)
    requires UniqueKeys(a) && UniqueKeys(b) && Disjoint(a, b)
    ensures UniqueKeys(a + b)
  {
    var r := a + b;
    forall i, j | 0 <= i < j < |r| ensures r[i].0 != r[j].0 {
      if i < |a| && j >= |a| {
        assert r[j] == b[j - |a|];
        assert r[i].0 == Keys(a)[i];
      } else if i >= |a| {
        assert r[i] == b[i - |a|] && r[j] == b[j - |a|];
      }
    }
  }

  lemma WellFormedConcat(a: Fields, b: Fields)
    requires WellFormed(a) && WellFormed(b) && Disjoint(a, b)
    ensures WellFormed(a + b)
  {
    UniqueConcat(a, b);
    var r := a + b;
    forall i | 0 <= i < |r| ensures WellFormedEntry(r[i].0, r[i].1) {
      if i >= |a| { assert r[i] == b[i - |a|]; }
    }
  }

  lemma OnlyEntry(f: Fields, k: string)
    requires HasOnlyFilter(f, k)
    ensures f == [(k, At(f, k))]
  {
  }

  /** Two non-empty lists always share position 0. */
  lemma ListsIntersect(a: V, b: V)
    requires a.Arr? && b.Arr? && a.items != [] && b.items != []
    ensures IntersectCount(a, b) > 0
  {
    var ea := Entries(a);
    var eb := Entries(b);
    assert ea[0].0 == IntToString(0) == eb[0].0;
    assert HasKey(eb, ea[0].0) by { assert Keys(eb)[0] == eb[0].0; }
    assert ea[0].0 in CommonKeys(ea, eb) by { assert Keys(ea)[0] == ea[0].0; }
  }

  lemma OpsHoldConcat(m: Atom, k: string, a: Fields, b: Fields)
    ensures OpsHold(m, k, a + b) <==> OpsHold(m, k, a) && OpsHold(m, k, b)
  {
    if OpsHold(m, k, a) && OpsHold(m, k, b) {
      forall i | 0 <= i < |a + b| ensures m(k, (a + b)[i].0, (a + b)[i].1) {
        if i >= |a| { assert (a + b)[i] == b[i - |a|]; }
      }
    }
    if OpsHold(m, k, a + b) {
      forall i | 0 <= i < |a| ensures m(k, a[i].0, a[i].1) {
        assert (a + b)[i] == a[i];
      }
      forall i | 0 <= i < |b| ensures m(k, b[i].0, b[i].1) {
        assert (a + b)[|a| + i] == b[i];
      }
    }
  }

  /**
   * Two operator maps on the same field with no operator in common merge
   * into one map that means both: `{$gt: 1}` and `{$lt: 5}` into
   * `{$gt: 1, $lt: 5}`.
   */
  lemma OperatorMapsMerge(m: Atom, k: string, a: V, b: V)
    requires k != "$and" && k != "$or"
    requires WellFormedEntry(k, a) && WellFormedEntry(k, b) && a.Obj? && b.Obj?
    requires IntersectCount(a, b) == 0
    ensures ArrayMerge(a, b) == Obj(a.fields + b.fields)
    ensures HoldsValue(m, k, ArrayMerge(a, b)) <==> HoldsValue(m, k, a) && HoldsValue(m, k, b)
    ensures WellFormedEntry(k, ArrayMerge(a, b))
  {
    assert CommonKeys(a.fields, b.fields) == [];
    forall i | 0 <= i < |b.fields| ensures !HasKey(a.fields, b.fields[i].0) {
      assert HasKey(b.fields, b.fields[i].0) by { assert Keys(b.fields)[i] == b.fields[i].0; }
    }
    MergeDisjoint(a.fields, b.fields);
    var c := a.fields + b.fields;
    OpsHoldConcat(m, k, a.fields, b.fields);
    assert IsOperatorMap(Obj(c)) by {
      forall i | 0 <= i < |c| ensures StartsWith(c[i].0, "$") {
        if i >= |a.fields| { assert c[i] == b.fields[i - |a.fields|]; }
      }
    }
    UniqueConcat(a.fields, b.fields);
  }

  // ---------------------------------------------------------------------
  // Facts about well-formed filters

  /** The value stored under a key of a well-formed filter has the expected shape. */
  lemma {:induction false} AtWellFormed(f: Fields, k: string)
    requires WellFormed(f) && HasKey(f, k)
    ensures WellFormedEntry(k, At(f, k))
    decreases |f|
  {
    if f[0].0 != k {
      assert HasKey(f[1..], k);
      assert WellFormed(f[1..]) by {
        forall i | 0 <= i < |f[1..]| ensures WellFormedEntry(f[1..][i].0, f[1..][i].1) {
          assert f[1..][i] == f[i + 1];
        }
      }
      AtWellFormed(f[1..], k);
    }
  }

  /** A filter of one entry holding `k` is that entry. */
  lemma SingleEntry(f: Fields, k: string)
    requires |f| == 1 && HasKey(f, k)
    ensures f == [(k, At(f, k))]
  {
    assert Keys(f) == [f[0].0];
  }

  /** With no key in common, `b`'s keys are absent from `a`. */
  lemma NoCommonKeys(a: Fields, b: Fields)
    requires CommonKeys(a, b) == []
    ensures Disjoint(a, b)
  {
    forall i | 0 <= i < |b| ensures !HasKey(a, b[i].0) {
      assert HasKey(b, b[i].0) by { assert Keys(b)[i] == b[i].0; }
    }
  }

  /** Disjointness read from the other side. */
  lemma {:induction false} DisjointCommon(a: Fields, b: Fields)
    requires Disjoint(a, b)
    ensures CommonKeys(b, a) == []
    decreases |b|
  {
    if b != [] {
      assert Disjoint(a, b[1..]) by {
        forall i | 0 <= i < |b[1..]| ensures !HasKey(a, b[1..][i].0) {
          assert b[1..][i] == b[i + 1];
        }
      }
      DisjointCommon(a, b[1..]);
    }
  }

  /** `$or` lists in both filters always share a position, so they are never merged key-wise. */
  lemma OrListsShared(f: Fields, s: Fields, key: string)
    requires WellFormed(f) && WellFormed(s) && HasKey(f, key) && HasKey(s, key)
    ensures key == "$or" ==> IsArray(At(f, key)) && IsArray(At(s, key)) && IntersectCount(At(f, key), At(s, key)) > 0
  {
    if key == "$or" {
      AtWellFormed(f, key);
      AtWellFormed(s, key);
      ListsIntersect(At(f, key), At(s, key));
    }
  }

  // ---------------------------------------------------------------------
  // The AND merge is conjunction

  /** `r` is a well-formed filter that holds exactly when `f` and `s` both do. */
  predicate Conjoins(m: Atom, f: Fields, s: Fields, r: Result<Fields>) {
    r.Ok? && WellFormed(r.value) && (Holds(m, r.value) <==> Holds(m, f) && Holds(m, s))
  }

  /** `r` is a well-formed filter that holds exactly when `f` or `s` does. */
  predicate Disjoins(m: Atom, f: Fields, s: Fields, r: Result<Fields>) {
    r.Ok? && WellFormed(r.value) && (Holds(m, r.value) <==> Holds(m, f) || Holds(m, s))
  }

  /** Into an existing `$and`: the sub-filter, or its own `$and` list, is appended. */
  lemma MergeAndIntoAnd(m: Atom, f: Fields, s: Fields)
    requires WellFormed(f) && WellFormed(s) && f != [] && IsSet(f, "$and")
    ensures Conjoins(m, f, s, MergeAnd(f, s))
  {
    AtWellFormed(f, "$and");
    var current := At(f, "$and").items;
    if HasOnlyFilter(s, "$and") {
      OnlyEntry(s, "$and");
      AtWellFormed(s, "$and");
      var more := At(s, "$and").items;
      HoldsOne(m, "$and", At(s, "$and"));
      AllHoldConcat(m, current, more);
      HoldsPut(m, f, "$and", Arr(current + more), Holds(m, s));
      WellFormedPut(f, "$and", Arr(current + more));
    } else {
      AllHoldConcat(m, current, [Obj(s)]);
      AllHoldOne(m, s);
      HoldsPut(m, f, "$and", Arr(current + [Obj(s)]), Holds(m, s));
      WellFormedPut(f, "$and", Arr(current + [Obj(s)]));
    }
  }

  /** No shared key: the filters are concatenated. */
  lemma MergeAndDisjoint(m: Atom, f: Fields, s: Fields)
    requires WellFormed(f) && WellFormed(s) && |CommonKeys(f, s)| == 0
    ensures Merge(f, s) == f + s
    ensures Conjoins(m, f, s, Ok(Merge(f, s)))
  {
    NoCommonKeys(f, s);
    MergeDisjoint(f, s);
    HoldsConcat(m, f, s);
    WellFormedConcat(f, s);
  }

  /** One shared field whose operator maps have no operator in common, `s` being that field alone. */
  lemma MergeAndIntoFirst(m: Atom, f: Fields, s: Fields, key: string)
    requires WellFormed(f) && WellFormed(s) && HasKey(f, key) && HasKey(s, key) && |s| == 1
    requires key != "$and" && key != "$or"
    requires IsArray(At(f, key)) && IsArray(At(s, key)) && IntersectCount(At(f, key), At(s, key)) == 0
    ensures Conjoins(m, f, s, Ok(Put(f, key, ArrayMerge(At(f, key), At(s, key)))))
  {
    var a, b := At(f, key), At(s, key);
    AtWellFormed(f, key);
    AtWellFormed(s, key);
    SingleEntry(s, key);
    HoldsOne(m, key, b);
    OperatorMapsMerge(m, key, a, b);
    HoldsPut(m, f, key, ArrayMerge(a, b), Holds(m, s));
    WellFormedPut(f, key, ArrayMerge(a, b));
  }

  /** As above with the roles swapped: `f` is the shared field alone. */
  lemma MergeAndIntoSecond(m: Atom, f: Fields, s: Fields, key: string)
    requires WellFormed(f) && WellFormed(s) && HasKey(f, key) && HasKey(s, key) && |f| == 1
    requires key != "$and" && key != "$or"
    requires IsArray(At(f, key)) && IsArray(At(s, key)) && IntersectCount(At(f, key), At(s, key)) == 0
    ensures Conjoins(m, f, s, Ok(Put(s, key, ArrayMerge(At(s, key), At(f, key)))))
  {
    var a, b := At(f, key), At(s, key);
    AtWellFormed(f, key);
    AtWellFormed(s, key);
    SingleEntry(f, key);
    HoldsOne(m, key, a);
    NoCommonKeys(a.fields, b.fields);
    DisjointCommon(a.fields, b.fields);
    OperatorMapsMerge(m, key, b, a);
    HoldsPut(m, s, key, ArrayMerge(b, a), Holds(m, f));
    WellFormedPut(s, key, ArrayMerge(b, a));
  }

  /** The branch of one shared key, in the corrected merge. */
  lemma SharedKeyConjoins(m: Atom, f: Fields, s: Fields)
    requires WellFormed(f) && WellFormed(s) && f != [] && !IsSet(f, "$and")
    requires |CommonKeys(f, s)| == 1
    ensures Conjoins(m, f, s, MergeAnd(f, s))
  {
    var key := CommonKeys(f, s)[0];
    assert key in CommonKeys(f, s);
    var a, b := At(f, key), At(s, key);
    AtWellFormed(f, key);
    AtWellFormed(s, key);
    OrListsShared(f, s, key);
    AndOfHolds(m, f, s);
    if IsArray(a) && IsArray(b) && IntersectCount(a, b) == 0 {
      if |s| == 1 {
        MergeAndIntoFirst(m, f, s, key);
      } else if |f| == 1 {
        MergeAndIntoSecond(m, f, s, key);
      }
    }
  }

  /**
   * For well-formed filters the AND merge never fails, keeps the filter
   * well-formed, and the merged filter matches exactly the documents both
   * filters match.
   */
  lemma MergeAndConjunction(m: Atom, f: Fields, s: Fields)
    requires WellFormed(f) && WellFormed(s)
    ensures MergeAnd(f, s).Ok?
    ensures WellFormed(MergeAnd(f, s).value)
    ensures Holds(m, MergeAnd(f, s).value) <==> Holds(m, f) && Holds(m, s)
  {
    if f == [] {
    } else if IsSet(f, "$and") {
      MergeAndIntoAnd(m, f, s);
    } else if |CommonKeys(f, s)| == 0 {
      MergeAndDisjoint(m, f, s);
    } else if |CommonKeys(f, s)| == 1 {
      SharedKeyConjoins(m, f, s);
    } else {
      AndOfHolds(m, f, s);
    }
  }

  // ---------------------------------------------------------------------
  // The AND merge as written

  /** Wherever `f` and `s` share a key, both hold a PHP array there: an operator map or a list. */
  ghost predicate ArraysWhereShared(f: Fields, s: Fields) {
    forall k :: HasKey(f, k) && HasKey(s, k) ==> IsArray(At(f, k)) && IsArray(At(s, k))
  }

  /**
   * The input `array_intersect_key` rejects: no `$and` to append to, one
   * shared key, and a scalar under it on either side (`a = 1 AND a = 2`).
   */
  predicate ScalarClash(f: Fields, s: Fields) {
    f != [] && !IsSet(f, "$and") && |CommonKeys(f, s)| == 1 &&
    !(IsArray(At(f, CommonKeys(f, s)[0])) && IsArray(At(s, CommonKeys(f, s)[0])))
  }

  /**
   * For well-formed filters the AND merge as written fails exactly on a
   * scalar clash, and then with a TypeError; in particular it succeeds
   * when every shared key holds arrays. When it succeeds, the merged
   * filter is well-formed and matches exactly the documents both match.
   */
  lemma MergeAndAsWrittenConjunction(m: Atom, f: Fields, s: Fields)
    requires WellFormed(f) && WellFormed(s)
    ensures MergeAndAsWritten(f, s).Err? <==> ScalarClash(f, s)
    ensures MergeAndAsWritten(f, s).Err? ==> MergeAndAsWritten(f, s) == Err(TypeError)
    ensures ArraysWhereShared(f, s) ==> MergeAndAsWritten(f, s).Ok?
    ensures MergeAndAsWritten(f, s).Ok? ==> Conjoins(m, f, s, MergeAndAsWritten(f, s))
  {
    MergeAndAgrees(f, s);
    MergeAndConjunction(m, f, s);
    if f != [] && !IsSet(f, "$and") && |CommonKeys(f, s)| == 1 {
      var key := CommonKeys(f, s)[0];
      assert key in CommonKeys(f, s);
    }
  }

  /**
   * The branch of one shared key as written: the values under it are
   * merged when both are arrays, and anything else is a TypeError.
   */
  lemma MergeAndShared(m: Atom, f: Fields, s: Fields)
    requires WellFormed(f) && WellFormed(s) && f != [] && !IsSet(f, "$and")
    requires |CommonKeys(f, s)| == 1
    ensures var key := CommonKeys(f, s)[0];
      MergeAndAsWritten(f, s).Ok? <==> IsArray(At(f, key)) && IsArray(At(s, key))
    ensures MergeAndAsWritten(f, s).Err? ==> MergeAndAsWritten(f, s) == Err(TypeError)
    ensures MergeAndAsWritten(f, s).Ok? ==> Conjoins(m, f, s, MergeAndAsWritten(f, s))
  {
    MergeAndAsWrittenConjunction(m, f, s);
  }

  /** The merge as written succeeds on arrays wherever the filters meet, and keeps the filter well-formed. */
  lemma MergeAndAsWrittenSucceeds(f: Fields, s: Fields)
    requires WellFormed(f) && WellFormed(s)
    ensures ArraysWhereShared(f, s) ==> MergeAndAsWritten(f, s).Ok?
    ensures MergeAndAsWritten(f, s).Ok? ==> WellFormed(MergeAndAsWritten(f, s).value)
  {
    var m: Atom := (k, o, v) => true;
    MergeAndAsWrittenConjunction(m, f, s);
  }

  /** Each value of a merged filter is `f`'s, `s`'s, or an array the merge built. */
  lemma MergedValue(f: Fields, s: Fields, k: string)
    requires WellFormed(s) && MergeAndAsWritten(f, s).Ok? && HasKey(MergeAndAsWritten(f, s).value, k)
    ensures HasKey(f, k) || HasKey(s, k) || k == "$and"
    ensures var v := At(MergeAndAsWritten(f, s).value, k);
      IsArray(v) || (HasKey(f, k) && v == At(f, k)) || (HasKey(s, k) && v == At(s, k))
  {
    if f == [] {
    } else if IsSet(f, "$and") {
      var current := At(f, "$and").items;
      var added := if HasOnlyFilter(s, "$and") then At(s, "$and").items else [Obj(s)];
      PutGet(f, "$and", Arr(current + added), k);
    } else if |CommonKeys(f, s)| == 0 {
      MergeGet(f, s, k);
    } else if |CommonKeys(f, s)| == 1 {
      var key := CommonKeys(f, s)[0];
      var a, b := At(f, key), At(s, key);
      if IntersectCount(a, b) == 0 && |s| == 1 {
        PutGet(f, key, ArrayMerge(a, b), k);
      } else if IntersectCount(a, b) == 0 && |f| == 1 {
        PutGet(s, key, ArrayMerge(b, a), k);
      } else {
        AndOfValue(f, s, k);
      }
    } else {
      AndOfValue(f, s, k);
    }
  }

  lemma AndOfValue(f: Fields, s: Fields, k: string)
    requires HasKey(AndOf(f, s), k)
    ensures k == "$and" && IsArray(At(AndOf(f, s), k))
  {
  }

  /** Merging two filters that hold arrays wherever they meet `t` yields one that does too. */
  lemma MergeAndKeepsArrays(f: Fields, s: Fields, t: Fields)
    requires WellFormed(s) && WellFormed(t) && MergeAndAsWritten(f, s).Ok?
    requires ArraysWhereShared(f, t) && ArraysWhereShared(s, t)
    ensures ArraysWhereShared(MergeAndAsWritten(f, s).value, t)
  {
    var r := MergeAndAsWritten(f, s).value;
    forall k | HasKey(r, k) && HasKey(t, k) ensures IsArray(At(r, k)) && IsArray(At(t, k)) {
      MergedValue(f, s, k);
      if k == "$and" {
        AtWellFormed(t, k);
      }
    }
  }

  /** A filter that is one `$or` list meets any well-formed filter on arrays only. */
  lemma OrOnlySharesArrays(g: Fields, t: Fields)
    requires WellFormed(g) && HasOnlyFilter(g, "$or") && WellFormed(t)
    ensures ArraysWhereShared(g, t)
  {
    forall k | HasKey(g, k) && HasKey(t, k) ensures IsArray(At(g, k)) && IsArray(At(t, k)) {
      SingleEntry(g, "$or");
      assert Keys(g) == ["$or"];
      AtWellFormed(g, k);
      AtWellFormed(t, k);
    }
  }

  // ---------------------------------------------------------------------
  // The OR merge is disjunction

  /** A filter that is one `$or` list. */
  lemma OnlyOr(m: Atom, f: Fields)
    requires WellFormed(f) && HasOnlyFilter(f, "$or")
    ensures f == [("$or", At(f, "$or"))]
    ensures At(f, "$or").Arr? && At(f, "$or").items != []
    ensures Holds(m, f) <==> AnyHolds(m, At(f, "$or").items)
  {
    OnlyEntry(f, "$or");
    AtWellFormed(f, "$or");
    HoldsOne(m, "$or", At(f, "$or"));
  }

  /** A single `$or` entry over a non-empty list is well-formed. */
  lemma OrEntryWellFormed(items: seq<V>)
    requires items != []
    ensures WellFormed([("$or", Arr(items))])
  {
  }

  /**
   * For well-formed filters the OR merge never fails, yields one `$or`
   * list, and the merged filter matches exactly the documents at least one
   * filter matches.
   */
  lemma MergeOrDisjunction(m: Atom, f: Fields, s: Fields)
    requires WellFormed(f) && WellFormed(s)
    ensures MergeOr(f, s).Ok?
    ensures WellFormed(MergeOr(f, s).value) && HasOnlyFilter(MergeOr(f, s).value, "$or")
    ensures Holds(m, MergeOr(f, s).value) <==> Holds(m, f) || Holds(m, s)
  {
    if HasOnlyFilter(f, "$or") {
      OnlyOr(m, f);
      var current := At(f, "$or").items;
      if HasOnlyFilter(s, "$or") {
        OnlyOr(m, s);
        AnyHoldsConcat(m, current, At(s, "$or").items);
        HoldsOne(m, "$or", Arr(current + At(s, "$or").items));
        OrEntryWellFormed(current + At(s, "$or").items);
      } else {
        AnyHoldsConcat(m, current, [Obj(s)]);
        AnyHoldsOne(m, s);
        HoldsOne(m, "$or", Arr(current + [Obj(s)]));
        OrEntryWellFormed(current + [Obj(s)]);
      }
    } else if HasOnlyFilter(s, "$or") {
      OnlyOr(m, s);
      AnyHoldsConcat(m, [Obj(f)], At(s, "$or").items);
      AnyHoldsOne(m, f);
      HoldsOne(m, "$or", Arr([Obj(f)] + At(s, "$or").items));
      OrEntryWellFormed([Obj(f)] + At(s, "$or").items);
    } else {
      AnyHoldsConcat(m, [Obj(f)], [Obj(s)]);
      AnyHoldsOne(m, f);
      AnyHoldsOne(m, s);
      assert [Obj(f)] + [Obj(s)] == [Obj(f), Obj(s)];
      HoldsOne(m, "$or", Arr([Obj(f), Obj(s)]));
      OrEntryWellFormed([Obj(f), Obj(s)]);
    }
  }
}
