/** Python's `str.upper`, `str.lower` and `str.title`, restricted to ASCII text. */
module Ascii {

  predicate IsUpper(c: char) { 'A' <= c <= 'Z' }

  predicate IsLower(c: char) { 'a' <= c <= 'z' }

  /** A character that has an upper- and a lower-case form. */
  predicate IsCased(c: char) { IsUpper(c) || IsLower(c) }

  function UpperChar(c: char): char
  {
    if IsLower(c) then (c as int - 32) as char else c
  }

  function LowerChar(c: char): char
  {
    if IsUpper(c) then (c as int + 32) as char else c
  }

  function Upper(s: string): string
  {
    seq(|s|, i requires 0 <= i < |s| => UpperChar(s[i]))
  }

  function Lower(s: string): string
  {
    seq(|s|, i requires 0 <= i < |s| => LowerChar(s[i]))
  }

  /** `str.title()`: a cased character that starts the string or follows an
      uncased one is upper-cased, every other cased character is lower-cased,
      and uncased characters are left alone. */
  function Title(s: string): string
  {
    seq(|s|, i requires 0 <= i < |s| => TitleAt(s, i))
  }

  /** The character `str.title()` puts at position `i` of `s`. */
  function TitleAt(s: string, i: nat): char
    requires i < |s|
  {
    if i == 0 || !IsCased(s[i - 1]) then UpperChar(s[i]) else LowerChar(s[i])
  }

  /** Changing case never changes whether a character is cased. */
  lemma CaseKeepsCasedness(c: char)
    ensures IsCased(UpperChar(c)) == IsCased(c)
    ensures IsCased(LowerChar(c)) == IsCased(c)
    ensures UpperChar(LowerChar(c)) == UpperChar(c)
    ensures LowerChar(UpperChar(c)) == LowerChar(c)
    ensures UpperChar(UpperChar(c)) == UpperChar(c)
    ensures LowerChar(LowerChar(c)) == LowerChar(c)
  {
  }

  /** `title()` is case-insensitive: it reads only the case-folded text. */
  lemma TitleIgnoresCase(s: string)
    ensures Title(Lower(s)) == Title(s)
    ensures Title(Upper(s)) == Title(s)
  {
    forall i | 0 <= i < |s|
      ensures Title(Lower(s))[i] == Title(s)[i]
    {
      TitleAtIgnoresCase(s, Lower(s), i);
    }
    forall i | 0 <= i < |s|
      ensures Title(Upper(s))[i] == Title(s)[i]
    {
      TitleAtIgnoresCase(s, Upper(s), i);
    }
  }

  /** Two strings that agree up to case agree on each titled character. */
  lemma TitleAtIgnoresCase(s: string, t: string, i: nat)
    requires |t| == |s| && i < |s|
    requires forall k :: 0 <= k < |s| ==> t[k] == LowerChar(s[k]) || t[k] == UpperChar(s[k])
    ensures TitleAt(t, i) == TitleAt(s, i)
  {
    CaseKeepsCasedness(s[i]);
    if 0 < i {
      CaseKeepsCasedness(s[i - 1]);
    }
  }

  /** `title()` is idempotent: a titled string is its own title. */
  lemma TitleIdempotent(s: string)
    ensures Title(Title(s)) == Title(s)
  {
    var t := Title(s);
    forall i | 0 <= i < |s|
      ensures Title(t)[i] == t[i]
    {
      TitleAtIgnoresCase(s, t, i);
      CaseKeepsCasedness(s[i]);
    }
  }

  /** `upper()` is case-insensitive too. */
  lemma UpperIgnoresCase(s: string)
    ensures Upper(Lower(s)) == Upper(s)
    ensures Upper(Upper(s)) == Upper(s)
  {
    forall i | 0 <= i < |s|
      ensures Upper(Lower(s))[i] == Upper(s)[i] && Upper(Upper(s))[i] == Upper(s)[i]
    {
      CaseKeepsCasedness(s[i]);
    }
  }

  /** `lower()` is case-insensitive too. */
  lemma LowerIgnoresCase(s: string)
    ensures Lower(Upper(s)) == Lower(s)
    ensures Lower(Lower(s)) == Lower(s)
  {
    forall i | 0 <= i < |s|
      ensures Lower(Upper(s))[i] == Lower(s)[i] && Lower(Lower(s))[i] == Lower(s)[i]
    {
      CaseKeepsCasedness(s[i]);
    }
  }

  /** `s.startswith(prefix)`. */
  predicate StartsWith(s: string, prefix: string)
  {
    prefix <= s
  }
}
