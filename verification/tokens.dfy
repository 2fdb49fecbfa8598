/**
 * Token classification of nyush.c (getTokenType, isBuiltInCommand and the
 * character class of NAME_REGEX).
 */
module Tokens {

  /** token_type (nyush.c:34). PROGRAM is declared there but never produced. */
  datatype TokenKind =
    | BuiltinCd | BuiltinJobs | BuiltinFg | BuiltinExit
    | Arg | Program
    | InputRedirect | OutputTruncate | OutputAppend
    | Unknown

  /** The keywords recognised as built-ins when they open a stage. */
  const Keywords: set<string> := {"cd", "fg", "exit", "jobs"}

  /** The exact operator tokens. */
  const Operators: set<string> := {"<", ">", ">>"}

  /**
   * One member of the bracket expression of NAME_REGEX, read as a POSIX
   * extended regular expression in the C locale: letters, digits and
   * _ \ # $ % & + , . / : ; = ? @ ~ - (a backslash inside brackets is an
   * ordinary member, and the final - is literal).
   */
  predicate IsNameChar(c: char) {
    || ('a' <= c <= 'z') || ('A' <= c <= 'Z') || ('0' <= c <= '9')
    || c in NamePunctuation
  }

  /** The punctuation members of the bracket expression. */
  const NamePunctuation: set<char> :=
    {'_', '\\', '#', '$', '%', '&', '+', ',', '.', '/', ':', ';', '=', '?', '@', '~', '-'}

  /** A token the whole of NAME_REGEX (`^[...]+$`) matches. */
  predicate IsName(s: string) {
    |s| > 0 && forall i :: 0 <= i < |s| ==> IsNameChar(s[i])
  }

  /** isBuiltInCommand (nyush.c:501-506). */
  predicate IsBuiltin(k: TokenKind) {
    k == BuiltinCd || k == BuiltinFg || k == BuiltinExit || k == BuiltinJobs
  }

  /**
   * getTokenType (nyush.c:508-532): operators first, then keywords (only for
   * the first token of a stage), then the name class; anything else is UNKNOWN.
   */
  function Classify(tok: string, first: bool): (k: TokenKind)
    ensures k != Program
    ensures k == InputRedirect <==> tok == "<"
    ensures k == OutputTruncate <==> tok == ">"
    ensures k == OutputAppend <==> tok == ">>"
    ensures k == BuiltinCd <==> first && tok == "cd"
    ensures k == BuiltinFg <==> first && tok == "fg"
    ensures k == BuiltinExit <==> first && tok == "exit"
    ensures k == BuiltinJobs <==> first && tok == "jobs"
    ensures IsBuiltin(k) <==> first && tok in Keywords
    ensures k == Arg <==> IsName(tok) && !(first && tok in Keywords)
    ensures k == Unknown <==> !IsName(tok) && tok !in Operators
  {
    assert tok in Operators ==> !IsNameChar(tok[0]);
    if tok == ">" then OutputTruncate
    else if tok == ">>" then OutputAppend
    else if tok == "<" then InputRedirect
    else if first && tok == "cd" then BuiltinCd
    else if first && tok == "fg" then BuiltinFg
    else if first && tok == "exit" then BuiltinExit
    else if first && tok == "jobs" then BuiltinJobs
    else if IsName(tok) then Arg
    else Unknown
  }

  /**
   * None of the characters the comment at nyush.c:29 means to exclude
   * (space, tab, > < | * ! ` ' ") is in the name class, and neither is ^.
   */
  lemma MetacharactersExcluded(c: char)
    requires c in {' ', '\t', '>', '<', '|', '*', '!', '`', '\'', '"', '^'}
    ensures !IsNameChar(c)
  {
  }

  /** A token holding any character outside the name class is UNKNOWN unless it is an operator. */
  lemma ForeignCharacterUnknown(tok: string, first: bool, i: nat)
    requires i < |tok| && !IsNameChar(tok[i]) && tok !in Operators
    ensures Classify(tok, first) == Unknown
  {
  }
}
