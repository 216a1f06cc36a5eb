/**
 * The global helper `str_replace_first`, which glues the two halves of
 * `explode($search, $subject, 2)` back together with `$replace`.
 */
module Helpers {

  import opened Php
  import opened Strings

  /** `explode($search, $subject, 2)`: PHP 8 raises a ValueError on an empty separator. */
  function ExplodeTwo(search: string, subject: string): (r: Result<seq<string>>)
    ensures search == [] <==> r == Err(ValueError)
    ensures r.Ok? ==> 1 <= |r.value| <= 2
  {
    if search == [] then Err(ValueError)
    else
      match Find(subject, search)
      case None => Ok([subject])
      case Some(i) => Ok([subject[..i], subject[i + |search|..]])
  }

  /** `str_replace_first($search, $replace, $subject)`. */
  function StrReplaceFirst(search: string, replace: string, subject: string): (r: Result<string>)
    ensures search == [] <==> r == Err(ValueError)
  {
    var parts :- ExplodeTwo(search, subject);
    Ok(Join(parts, replace))
  }

  /** When `search` does not occur, the subject comes back untouched. */
  lemma NotFoundUnchanged(search: string, replace: string, subject: string)
    requires search != []
    requires forall j :: 0 <= j <= |subject| ==> !StartsWith(subject[j..], search)
    ensures StrReplaceFirst(search, replace, subject) == Ok(subject)
  {
  }

  /**
   * When `search` occurs, exactly its first occurrence is replaced: the text
   * before it and everything after it (later occurrences included) are kept.
   */
  lemma ReplacesFirstOccurrence(search: string, replace: string, subject: string, i: nat)
    requires search != [] && i + |search| <= |subject| && subject[i..i + |search|] == search
    requires forall j :: 0 <= j < i ==> !StartsWith(subject[j..], search)
    ensures StrReplaceFirst(search, replace, subject)
         == Ok(subject[..i] + replace + subject[i + |search|..])
  {
    FindFirst(subject, search, i);
    JoinTwo(subject[..i], subject[i + |search|..], replace);
  }

  /** Found or not, the length changes by `|replace| - |search|` at most once. */
  lemma ReplaceFirstLength(search: string, replace: string, subject: string)
    requires search != []
    ensures StrReplaceFirst(search, replace, subject).Ok?
    ensures var n := |StrReplaceFirst(search, replace, subject).value|;
      if Contains(subject, search) then n == |subject| - |search| + |replace| else n == |subject|
  {
    match Find(subject, search)
    case None =>
    case Some(i) =>
      JoinTwo(subject[..i], subject[i + |search|..], replace);
  }

  /** Replacing the first occurrence by itself is the identity. */
  lemma ReplaceBySelf(search: string, subject: string)
    requires search != []
    ensures StrReplaceFirst(search, search, subject) == Ok(subject)
  {
    match Find(subject, search)
    case None =>
    case Some(i) =>
      JoinTwo(subject[..i], subject[i + |search|..], search);
      assert subject == subject[..i] + subject[i..i + |search|] + subject[i + |search|..];
  }
}
