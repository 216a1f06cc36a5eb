/**
 * The PHP values the translator builds: scalars, MongoDB BSON objects (kept
 * opaque) and PHP arrays. A PHP array is either a list (`Arr`) or a
 * string-keyed ordered map (`Obj`); an `Obj` keeps insertion order, as PHP
 * arrays do, and its keys are meant to be unique (see `UniqueKeys`).
 */
module Php {

  datatype Option<+T> = None | Some(value: T)

  datatype V =
    | Null
    | Bool(b: bool)
    | Int(i: int)
    /** A PHP float, kept as the numeral it was read from; no float arithmetic is modelled. */
    | Num(text: string)
    | Str(s: string)
    /** `new Regex($pattern, 'i')`: a case-insensitive pattern. */
    | Regex(pattern: string)
    /** A BSON object (UTCDateTime, ObjectId, ...) built by an inline-function builder. */
    | Opaque(kind: string, payload: V)
    | Obj(fields: seq<(string, V)>)
    | Arr(items: seq<V>)
    /** `(object)[]`: an empty stdClass, which is not an empty PHP array. */
    | EmptyObject

  /** The exceptions and PHP runtime errors a translation can end with. */
  datatype Fault =
    | InvalidSqlQuery
    | NotSupportStatement(kind: string)
    | InvalidSelectStatement(message: string)
    | InvalidSelectField(fields: seq<string>)
    | NotSupportAggregateFunction(name: string)
    /** A PHP TypeError or Error raised by a built-in on a value of the wrong type. */
    | TypeError
    /** A PHP ValueError (explode with an empty separator). */
    | ValueError
    /** The PHP code would not terminate on this input (endless loop or recursion). */
    | Diverges

  datatype Result<+T> = Ok(value: T) | Err(fault: Fault) {
    predicate IsFailure() { Err? }
    function PropagateFailure<U>(): Result<U>
      requires Err?
    {
      Err(fault)
    }
    function Extract(): T
      requires Ok?
    {
      value
    }
  }

  type Fields = seq<(string, V)>

  /** The keys of an ordered map, in order. */
  function Keys(m: Fields): (ks: seq<string>)
    ensures |ks| == |m|
    ensures forall i :: 0 <= i < |m| ==> ks[i] == m[i].0
  {
    if m == [] then [] else [m[0].0] + Keys(m[1..])
  }

  predicate HasKey(m: Fields, k: string) {
    k in Keys(m)
  }

  predicate UniqueKeys(m: Fields) {
    forall i, j :: 0 <= i < j < |m| ==> m[i].0 != m[j].0
  }

  /** `$m[$k] ?? null` without the null: the value stored under `k`, if any. */
  function Get(m: Fields, k: string): (r: Option<V>)
    ensures r.Some? <==> HasKey(m, k)
  {
    if m == [] then None else if m[0].0 == k then Some(m[0].1) else Get(m[1..], k)
  }

  /** `isset($m[$k])`: the key is present and its value is not null. */
  predicate IsSet(m: Fields, k: string) {
    Get(m, k).Some? && Get(m, k).value != Null
  }

  /** `$m[$k] = $v`: overwrite in place when the key exists, append otherwise. */
  function Put(m: Fields, k: string, v: V): (r: Fields)
    ensures Keys(r) == if HasKey(m, k) then Keys(m) else Keys(m) + [k]
    ensures UniqueKeys(m) ==> UniqueKeys(r)
  {
    if m == [] then [(k, v)]
    else if m[0].0 == k then [(k, v)] + m[1..]
    else
      var rest := Put(m[1..], k, v);
      PutCons(m, k, rest);
      [m[0]] + rest
  }

  /** `Put`'s step past an entry with another key keeps its promises. */
  lemma PutCons(m: Fields, k: string, rest: Fields)
    requires m != [] && m[0].0 != k
    requires Keys(rest) == if HasKey(m[1..], k) then Keys(m[1..]) else Keys(m[1..]) + [k]
    requires UniqueKeys(m[1..]) ==> UniqueKeys(rest)
    ensures Keys([m[0]] + rest) == if HasKey(m, k) then Keys(m) else Keys(m) + [k]
    ensures UniqueKeys(m) ==> UniqueKeys([m[0]] + rest)
  {
    KeysCons(m[0], rest);
    KeysSplit(m);
    if !HasKey(m, k) {
      KeysAppend(m[0].0, Keys(m[1..]), k);
    }
    if UniqueKeys(m) {
      UniqueKeysTail(m);
      assert m[0].0 !in Keys(rest);
      UniquePrepend(m[0], rest);
    }
  }

  lemma KeysSplit(m: Fields)
    requires m != []
    ensures Keys(m) == [m[0].0] + Keys(m[1..])
  {
  }

  lemma KeysAppend(a: string, ks: seq<string>, k: string)
    ensures [a] + (ks + [k]) == [a] + ks + [k]
  {
  }

  lemma KeysCons(p: (string, V), m: Fields)
    ensures Keys([p] + m) == [p.0] + Keys(m)
  {
    assert ([p] + m)[1..] == m;
  }

  /** `array_merge($a, $b)` on string-keyed arrays: `b`'s entries are put into `a` in order. */
  function Merge(a: Fields, b: Fields): (r: Fields)
    ensures UniqueKeys(a) ==> UniqueKeys(r)
    decreases |b|
  {
    if b == [] then a else Merge(Put(a, b[0].0, b[0].1), b[1..])
  }

  /** `empty($v)` for the values the translator tests. */
  predicate Empty(v: V) {
    match v
    case Null => true
    case Bool(b) => !b
    case Int(i) => i == 0
    case Num(t) => t == "0" || t == "0.0"
    case Str(s) => s == "" || s == "0"
    case Obj(f) => f == []
    case Arr(xs) => xs == []
    case _ => false
  }

  /** PHP's truthiness of a string: "" and "0" are false. */
  predicate Truthy(s: string) {
    s != "" && s != "0"
  }

  lemma {:induction false} PutGet(m: Fields, k: string, v: V, j: string)
    ensures Get(Put(m, k, v), j) == if j == k then Some(v) else Get(m, j)
  {
    if m != [] && m[0].0 != k {
      var rest := Put(m[1..], k, v);
      assert Put(m, k, v) == [m[0]] + rest;
      assert ([m[0]] + rest)[1..] == rest;
      PutGet(m[1..], k, v, j);
    } else if m != [] {
      assert ([(k, v)] + m[1..])[1..] == m[1..];
    }
  }

  lemma UniqueKeysTail(m: Fields)
    requires UniqueKeys(m) && m != []
    ensures UniqueKeys(m[1..]) && !HasKey(m[1..], m[0].0)
  {
  }

  lemma UniquePrepend(p: (string, V), m: Fields)
    requires UniqueKeys(m) && !HasKey(m, p.0)
    ensures UniqueKeys([p] + m)
  {
  }
  /** The entry `Get` finds is one of the map's entries. */
  lemma {:induction false} GetEntry(m: Fields, k: string)
    requires HasKey(m, k)
    ensures (k, Get(m, k).value) in m
    decreases |m|
  {
    if m[0].0 != k {
      assert Keys(m) == [m[0].0] + Keys(m[1..]);
      GetEntry(m[1..], k);
    }
  }

  /** `array_merge`: `b` wins where it has the key, `a` is kept elsewhere, and `a`'s keys keep their places. */
  lemma {:induction false} MergeGet(a: Fields, b: Fields, k: string)
    ensures !HasKey(b, k) ==> Get(Merge(a, b), k) == Get(a, k)
    ensures UniqueKeys(b) && HasKey(b, k) ==> Get(Merge(a, b), k) == Get(b, k)
    ensures HasKey(Merge(a, b), k) <==> HasKey(a, k) || HasKey(b, k)
    ensures Keys(a) <= Keys(Merge(a, b))
    decreases |b|
  {
    if b != [] {
      var a1 := Put(a, b[0].0, b[0].1);
      MergeGet(a1, b[1..], k);
      PutGet(a, b[0].0, b[0].1, k);
      assert Keys(b) == [b[0].0] + Keys(b[1..]);
      if UniqueKeys(b) {
        UniqueKeysTail(b);
      }
    }
  }
}
