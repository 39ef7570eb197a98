/**
 * The few pieces of Python string handling the application relies on:
 * the character classes its regular expressions and `str.isalnum` test,
 * `str.lower`, and substring containment. Characters are classified by
 * their ASCII meaning.
 */
module Strings {
  import opened Wrappers

  predicate IsDigit(c: char) { '0' <= c <= '9' }
  predicate IsUpper(c: char) { 'A' <= c <= 'Z' }
  predicate IsLower(c: char) { 'a' <= c <= 'z' }
  predicate IsAlnum(c: char) { IsDigit(c) || IsUpper(c) || IsLower(c) }
  /** A regular-expression "word" character: what `\w` matches and `\W` does not. */
  predicate IsWordChar(c: char) { IsAlnum(c) || c == '_' }

  /** The single-character classes used with `re.search`: `\d`, `[A-Z]`, `[a-z]`, `\W`. */
  datatype CharClass = Digits | UpperCase | LowerCase | NonWord

  predicate InClass(c: char, k: CharClass)
  {
    match k
    case Digits => IsDigit(c)
    case UpperCase => IsUpper(c)
    case LowerCase => IsLower(c)
    case NonWord => !IsWordChar(c)
  }

  /**
   * `re.search` with a one-character class: the position of the leftmost
   * match, or None when no character of `s` is in the class.
   */
  function ReSearch(s: string, k: CharClass): (r: Option<nat>)
    ensures r.None? <==> forall i :: 0 <= i < |s| ==> !InClass(s[i], k)
    ensures r.Some? ==> r.value < |s| && InClass(s[r.value], k)
    ensures r.Some? ==> forall i :: 0 <= i < r.value ==> !InClass(s[i], k)
  {
    if s == [] then None
    else if InClass(s[0], k) then Some(0)
    else match ReSearch(s[1..], k)
      case None => None
      case Some(j) => Some(j + 1)
  }

  /** `str.isalnum`: non-empty and every character a letter or a digit. */
  predicate IsAlnumString(s: string)
  {
    |s| > 0 && forall i :: 0 <= i < |s| ==> IsAlnum(s[i])
  }

  function LowerChar(c: char): (d: char)
    ensures IsUpper(c) ==> IsLower(d)
    ensures !IsUpper(c) ==> d == c
  {
    if IsUpper(c) then (c as int + 32) as char else c
  }

  /** `str.lower`, restricted to the ASCII letters. */
  function Lower(s: string): (r: string)
    ensures |r| == |s|
    ensures forall i :: 0 <= i < |s| ==> r[i] == LowerChar(s[i])
  {
    seq(|s|, i requires 0 <= i < |s| => LowerChar(s[i]))
  }

  /** `str.lower` is idempotent, so a stored lower-cased email is its own key. */
  lemma LowerIdempotent(s: string)
    ensures Lower(Lower(s)) == Lower(s)
  {
  }

  /** `q` occurs in `s` starting at position `i`. */
  predicate OccursAt(q: string, s: string, i: nat)
  {
    i + |q| <= |s| && s[i..i + |q|] == q
  }

  /** `q in s`: `q` occurs in `s` as a contiguous substring. */
  predicate IsSubstring(q: string, s: string)
  {
    exists i: nat :: i <= |s| && OccursAt(q, s, i)
  }
}
