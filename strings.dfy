/**
 * The PHP string built-ins the translator relies on, written out over
 * `seq<char>` (ASCII semantics; no multibyte or locale handling).
 */
module Strings {

  import opened Php

  predicate StartsWith(s: string, p: string) {
    |p| <= |s| && s[..|p|] == p
  }

  predicate EndsWith(s: string, p: string) {
    |p| <= |s| && s[|s| - |p|..] == p
  }

  /** `strpos($s, $p)`: the first index at which `p` occurs in `s`. */
  function Find(s: string, p: string): (r: Option<nat>)
    ensures r.Some? ==> r.value + |p| <= |s| && s[r.value..r.value + |p|] == p
    ensures r.Some? ==> StartsWith(s[r.value..], p)
    ensures r.Some? ==> forall j :: 0 <= j < r.value ==> !StartsWith(s[j..], p)
    ensures r.None? ==> forall j :: 0 <= j <= |s| ==> !StartsWith(s[j..], p)
    decreases |s|
  {
    if StartsWith(s, p) then Some(0)
    else if s == [] then None
    else
      var r := Find(s[1..], p);
      FindShift(s, p, r);
      if r.Some? then Some(r.value + 1) else None
  }

  /** The search one character further on, read back in terms of the whole string. */
  lemma FindShift(s: string, p: string, r: Option<nat>)
    requires s != [] && !StartsWith(s, p)
    requires r.Some? ==> r.value < |s| && StartsWith(s[1..][r.value..], p)
    requires r.Some? ==> forall j :: 0 <= j < r.value ==> !StartsWith(s[1..][j..], p)
    requires r.None? ==> forall j :: 0 <= j <= |s| - 1 ==> !StartsWith(s[1..][j..], p)
    ensures r.Some? ==> StartsWith(s[r.value + 1..], p)
    ensures r.Some? ==> forall j :: 0 <= j < r.value + 1 ==> !StartsWith(s[j..], p)
    ensures r.None? ==> forall j :: 0 <= j <= |s| ==> !StartsWith(s[j..], p)
  {
    forall j | 1 <= j <= |s|
      ensures s[j..] == s[1..][j - 1..]
    {
    }
  }

  lemma ConcatAssoc<T>(x: seq<T>, y: seq<T>, z: seq<T>)
    ensures x + y + z == x + (y + z)
  {
  }

  /** A non-empty sequence followed by more: its head, and the rest followed by the more. */
  lemma Uncons<T>(a: seq<T>, t: seq<T>)
    requires a != []
    ensures (a + t)[0] == a[0] && (a + t)[1..] == a[1..] + t && [a[0]] + (a[1..] + t) == a + t
  {
  }

  lemma TakeDrop<T>(xs: seq<T>, k: nat)
    requires k <= |xs|
    ensures xs[..k] + xs[k..] == xs
  {
  }

  lemma SliceThree<T>(xs: seq<T>, i: nat, j: nat)
    requires i <= j <= |xs|
    ensures xs == xs[..i] + xs[i..j] + xs[j..]
  {
  }

  lemma SplitAround<T>(xs: seq<T>, k: nat)
    requires k < |xs|
    ensures xs == xs[..k] + ([xs[k]] + xs[k + 1..])
  {
  }

  /** `str_contains($s, $p)`. */
  predicate Contains(s: string, p: string) {
    Find(s, p).Some?
  }

  /** `substr_count($s, $c)` for a one-character needle. */
  function CountChar(s: string, c: char): nat {
    if s == [] then 0 else (if s[0] == c then 1 else 0) + CountChar(s[1..], c)
  }

  function TrimLeft(s: string, cs: set<char>): (r: string)
    ensures |r| <= |s| && r == s[|s| - |r|..]
    ensures r != [] ==> r[0] !in cs
  {
    if s != [] && s[0] in cs then TrimLeft(s[1..], cs) else s
  }

  function TrimRight(s: string, cs: set<char>): (r: string)
    ensures |r| <= |s| && r == s[..|r|]
    ensures r != [] ==> r[|r| - 1] !in cs
  {
    if s != [] && s[|s| - 1] in cs then TrimRight(s[..|s| - 1], cs) else s
  }

  /** `trim($s, $chars)`. */
  function Trim(s: string, cs: set<char>): string {
    TrimRight(TrimLeft(s, cs), cs)
  }

  /** The characters PHP's `trim` removes by default. */
  const TrimDefault: set<char> := {' ', '\t', '\n', '\r', '\0', '\U{B}'}

  /** The characters of the PCRE class `\s`. */
  predicate IsSpace(c: char) {
    c == ' ' || c == '\t' || c == '\n' || c == '\r' || c == '\U{B}' || c == '\U{C}'
  }

  function SkipSpaces(s: string): (r: string)
    ensures |r| <= |s| && r == s[|s| - |r|..]
    ensures r != [] ==> !IsSpace(r[0])
  {
    if s != [] && IsSpace(s[0]) then SkipSpaces(s[1..]) else s
  }

  /** `preg_replace('!\s+!', ' ', $e)`: every run of white space becomes one blank. */
  function Collapse(s: string): (r: string)
    ensures r == [] <==> s == []
    ensures s != [] && IsSpace(s[0]) ==> r[0] == ' '
    ensures s != [] && !IsSpace(s[0]) ==> r[0] == s[0]
    decreases |s|
  {
    if s == [] then []
    else if IsSpace(s[0]) then [' '] + Collapse(SkipSpaces(s[1..]))
    else [s[0]] + Collapse(s[1..])
  }

  function Lower(c: char): char {
    if 'A' <= c <= 'Z' then (c as int + 32) as char else c
  }

  /** `strtolower($s)` (ASCII). */
  function ToLower(s: string): (r: string)
    ensures |r| == |s|
    ensures forall i :: 0 <= i < |s| ==> r[i] == Lower(s[i])
  {
    seq(|s|, i requires 0 <= i < |s| => Lower(s[i]))
  }

  /** `str_replace($search, $replace, $s)`: every occurrence, left to right, not overlapping. */
  function Replace(s: string, search: string, rep: string): string
    decreases |s|
  {
    if search == [] || s == [] then s
    else if StartsWith(s, search) then rep + Replace(s[|search|..], search, rep)
    else [s[0]] + Replace(s[1..], search, rep)
  }

  /** The entry of `pairs` whose key is the longest one starting `s` (the first of equal length). */
  function LongestMatch(s: string, pairs: seq<(string, string)>): (r: Option<(string, string)>)
    ensures r.Some? ==> r.value in pairs && r.value.0 != [] && StartsWith(s, r.value.0)
    ensures r.None? ==> forall p :: p in pairs && p.0 != [] ==> !StartsWith(s, p.0)
  {
    if pairs == [] then None
    else
      var rest := LongestMatch(s, pairs[1..]);
      if pairs[0].0 != [] && StartsWith(s, pairs[0].0) && (rest.None? || |rest.value.0| <= |pairs[0].0|)
      then Some(pairs[0])
      else rest
  }

  /** `strtr($s, $pairs)`: one left-to-right scan that replaces, at each position, the longest key. */
  function StrTr(s: string, pairs: seq<(string, string)>): string
    decreases |s|
  {
    if s == [] then []
    else
      match LongestMatch(s, pairs)
      case Some(p) => p.1 + StrTr(s[|p.0|..], pairs)
      case None => [s[0]] + StrTr(s[1..], pairs)
  }

  /** `explode($sep, $s)` for a non-empty separator. */
  function Split(s: string, sep: string): (parts: seq<string>)
    requires sep != []
    ensures |parts| >= 1
    decreases |s|
  {
    match Find(s, sep)
    case None => [s]
    case Some(i) => [s[..i]] + Split(s[i + |sep|..], sep)
  }

  /** `implode($sep, $parts)`. */
  function Join(parts: seq<string>, sep: string): string {
    if parts == [] then []
    else if |parts| == 1 then parts[0]
    else parts[0] + sep + Join(parts[1..], sep)
  }

  predicate IsDigit(c: char) {
    '0' <= c <= '9'
  }

  predicate AllDigits(s: string) {
    forall i :: 0 <= i < |s| ==> IsDigit(s[i])
  }

  /**
   * `is_numeric($s)` restricted to plain decimal numerals: an optional sign,
   * digits and at most one decimal point, with at least one digit.
   */
  predicate IsNumeric(s: string) {
    UnsignedNumeral(if s != [] && (s[0] == '+' || s[0] == '-') then s[1..] else s)
  }

  /** What follows the sign: digits, with at most one decimal point among them. */
  predicate UnsignedNumeral(body: string) {
    match Find(body, ".")
    case None => body != [] && AllDigits(body)
    case Some(i) => AllDigits(body[..i]) && AllDigits(body[i + 1..]) && |body| >= 2
  }

  function DigitsValue(s: string): nat
    requires AllDigits(s)
  {
    if s == [] then 0 else DigitsValue(s[..|s| - 1]) * 10 + (s[|s| - 1] as int - '0' as int)
  }

  /** `(int) $s` for a numeral without a decimal point. */
  function ToInt(s: string): int
    requires IsNumeric(s) && !Contains(s, ".")
  {
    if s[0] == '-' then 0 - DigitsValue(s[1..]) as int
    else if s[0] == '+' then DigitsValue(s[1..])
    else DigitsValue(s)
  }

  /** The decimal numeral PHP prints for an integer. */
  function IntToString(n: int): (r: string)
    decreases if n < 0 then 1 - n else n
  {
    if n < 0 then "-" + IntToString(-n)
    else if n < 10 then [('0' as int + n) as char]
    else IntToString(n / 10) + [('0' as int + n % 10) as char]
  }

  lemma ContainsChar(s: string, c: char)
    ensures Contains(s, [c]) <==> c in s
  {
    if Contains(s, [c]) {
      var i := Find(s, [c]).value;
      assert s[i..i + 1] == [c];
      assert s[i] == s[i..i + 1][0];
    }
    if c in s {
      var i :| 0 <= i < |s| && s[i] == c;
      assert s[i..][..1] == [c];
      FindSome(s, [c], i);
    }
  }

  /** `Find` succeeds wherever the pattern occurs. */
  lemma FindSome(s: string, p: string, i: nat)
    requires i <= |s| && StartsWith(s[i..], p)
    ensures Find(s, p).Some?
    decreases i
  {
  }

  /** `Find` returns the first occurrence. */
  lemma FindFirst(s: string, p: string, i: nat)
    requires i + |p| <= |s| && s[i..i + |p|] == p
    requires forall j :: 0 <= j < i ==> !StartsWith(s[j..], p)
    ensures Find(s, p) == Some(i)
  {
    assert StartsWith(s[i..], p) by {
      assert s[i..][..|p|] == s[i..i + |p|];
    }
    var r := Find(s, p);
    if r.None? {
      assert false;
    } else if r.value < i {
      assert false;
    } else if r.value > i {
      assert false;
    }
  }

  lemma JoinTwo(a: string, b: string, sep: string)
    ensures Join([a, b], sep) == a + sep + b
  {
    assert [a, b][1..] == [b];
  }

  lemma SplitPartsAvoidSeparator(s: string, c: char)
    ensures forall p :: p in Split(s, [c]) ==> c !in p
    decreases |s|
  {
    match Find(s, [c])
    case None =>
      CharBeforeFind(s, c, |s|);
      assert s[..|s|] == s;
    case Some(i) =>
      CharBeforeFind(s, c, i);
      assert Split(s, [c]) == [s[..i]] + Split(s[i + 1..], [c]);
      SplitPartsAvoidSeparator(s[i + 1..], c);
  }

  /** No occurrence of a one-character string before `i` means no such character there. */
  lemma CharBeforeFind(s: string, c: char, i: nat)
    requires i <= |s| && forall j :: 0 <= j < i ==> !StartsWith(s[j..], [c])
    ensures c !in s[..i]
  {
    forall j | 0 <= j < i ensures s[..i][j] != c {
      assert !StartsWith(s[j..], [c]);
    }
  }

  lemma {:induction false} JoinSplit(s: string, sep: string)
    requires sep != []
    ensures Join(Split(s, sep), sep) == s
    decreases |s|
  {
    var r := Find(s, sep);
    if r.Some? {
      var i := r.value;
      SplitFound(s, sep, i);
      var rest := s[i + |sep|..];
      JoinSplit(rest, sep);
      JoinCons(s[..i], Split(rest, sep), sep);
    }
  }

  /** A separator found at `i` cuts the first part off. */
  lemma SplitFound(s: string, sep: string, i: nat)
    requires sep != [] && Find(s, sep) == Some(i)
    ensures i + |sep| <= |s| && s == s[..i] + sep + s[i + |sep|..]
    ensures Split(s, sep) == [s[..i]] + Split(s[i + |sep|..], sep)
  {
    CutAround(s, sep, i);
  }

  lemma CutAround<T>(s: seq<T>, sep: seq<T>, i: nat)
    requires i + |sep| <= |s| && s[i..i + |sep|] == sep
    ensures s == s[..i] + sep + s[i + |sep|..]
  {
    assert s == s[..i] + s[i..i + |sep|] + s[i + |sep|..];
  }

  lemma JoinCons(p: string, parts: seq<string>, sep: string)
    requires parts != []
    ensures Join([p] + parts, sep) == p + sep + Join(parts, sep)
  {
    assert ([p] + parts)[1..] == parts;
  }

  /** Text without white space is copied through `preg_replace('!\s+!', ' ', …)`. */
  lemma {:induction false} CollapseNoSpace(a: string, t: string)
    requires forall i :: 0 <= i < |a| ==> !IsSpace(a[i])
    ensures Collapse(a + t) == a + Collapse(t)
  {
    if a != [] {
      Uncons(a, t);
      CollapseNoSpace(a[1..], t);
      ConcatAssoc([a[0]], a[1..], Collapse(t));
      assert [a[0]] + a[1..] == a;
    } else {
      assert a + t == t;
    }
  }

  /** Text free of a one-character separator, followed by it, is the first part `explode` cuts off. */
  lemma SplitAt(a: string, c: char, t: string)
    requires c !in a
    ensures Split(a + [c] + t, [c]) == [a] + Split(t, [c])
  {
    var s := a + [c] + t;
    forall j | 0 <= j < |a| ensures !StartsWith(s[j..], [c]) {
      assert s[j] == a[j];
    }
    assert s[|a|..|a| + 1] == [c];
    FindFirst(s, [c], |a|);
    assert s[..|a|] == a && s[|a| + 1..] == t;
  }

  /** Text free of a one-character separator is one part. */
  lemma SplitNone(a: string, c: char)
    requires c !in a
    ensures Split(a, [c]) == [a]
  {
    forall j | 0 <= j <= |a| ensures !StartsWith(a[j..], [c]) {
      if j < |a| {
        assert a[j..][..1][0] == a[j];
      }
    }
  }
}
