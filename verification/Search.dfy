/** Finding, splitting and replacing substrings, as the string methods of the parsers do. */
module Search {
  import opened Wrappers

  predicate HasPrefix(s: string, p: string) {
    |p| <= |s| && s[..|p|] == p
  }

  /** The position of the first occurrence of `p`. */
  function Find(s: string, p: string): (r: Option<nat>)
    ensures r.Some? ==> r.value + |p| <= |s|
    decreases |s|
  {
    if HasPrefix(s, p) then Some(0)
    else if s == "" then None
    else
      match Find(s[1..], p)
      case None => None
      case Some(i) => Some(i + 1)
  }

  predicate Contains(s: string, p: string) {
    Find(s, p).Some?
  }

  /** `s.split(p)` */
  function SplitOn(s: string, p: string): (parts: seq<string>)
    requires p != ""
    ensures parts != []
    decreases |s|
  {
    match Find(s, p)
    case None => [s]
    case Some(i) => [s[..i]] + SplitOn(s[i + |p|..], p)
  }

  /** `s.replace(p, "", 1)` */
  function RemoveFirst(s: string, p: string): string {
    match Find(s, p)
    case None => s
    case Some(i) => s[..i] + s[i + |p|..]
  }

  /** `s.replace(p, substitute)` */
  function ReplaceAll(s: string, p: string, substitute: string): string
    requires p != ""
    decreases |s|
  {
    if HasPrefix(s, p) then substitute + ReplaceAll(s[|p|..], p, substitute)
    else if s == "" then ""
    else [s[0]] + ReplaceAll(s[1..], p, substitute)
  }

  /** How many occurrences `s.replace(p, ...)` replaces. */
  function Count(s: string, p: string): nat
    requires p != ""
    decreases |s|
  {
    if HasPrefix(s, p) then 1 + Count(s[|p|..], p)
    else if s == "" then 0
    else Count(s[1..], p)
  }

  function Lower(c: char): char {
    if 'A' <= c <= 'Z' then c - 'A' + 'a' else c
  }

  function Lowered(s: string): (t: string)
    ensures |t| == |s|
  {
    seq(|s|, i requires 0 <= i < |s| => Lower(s[i]))
  }

  lemma {:induction false} PrefixAgrees(s: string, p: string, i: nat)
    requires i < |p|
    ensures HasPrefix(s, p) ==> s[i] == p[i]
  {
    if HasPrefix(s, p) { assert s[i] == s[..|p|][i]; }
  }

  lemma {:induction false} PrefixHasCharacters(s: string, p: string, c: char)
    ensures HasPrefix(s, p) && c in p ==> c in s
  {
    if HasPrefix(s, p) && c in p {
      var i :| 0 <= i < |p| && p[i] == c;
      assert s[i] == s[..|p|][i];
    }
  }

  /** Nothing is replaced in a string that lacks a character of the pattern. */
  lemma {:induction false} NothingToReplace(s: string, p: string, c: char, substitute: string)
    requires c in p && c !in s
    ensures ReplaceAll(s, p, substitute) == s
    decreases |s|
  {
    PrefixHasCharacters(s, p, c);
    if s != "" { NothingToReplace(s[1..], p, c, substitute); }
  }

  lemma {:induction false} NothingToFind(s: string, p: string, c: char)
    requires c in p && c !in s
    ensures Find(s, p) == None
    decreases |s|
  {
    PrefixHasCharacters(s, p, c);
    if s != "" { NothingToFind(s[1..], p, c); }
  }

  lemma {:induction false} FindExtends(s: string, t: string, p: string)
    requires Find(s, p).Some?
    ensures Find(s + t, p) == Find(s, p)
    decreases |s|
  {
    if HasPrefix(s, p) {
      assert (s + t)[..|p|] == s[..|p|];
    } else {
      if HasPrefix(s + t, p) { ShorterPrefix(s, t, p); }
      assert (s + t)[1..] == s[1..] + t;
      FindExtends(s[1..], t, p);
    }
  }

  lemma {:induction false} ShorterPrefix(s: string, t: string, p: string)
    requires |p| <= |s|
    ensures HasPrefix(s + t, p) <==> HasPrefix(s, p)
  {
    assert (s + t)[..|p|] == s[..|p|];
  }

  lemma {:induction false} FoundAt(s: string, p: string)
    requires Find(s, p).Some?
    ensures var i := Find(s, p).value; s[i..i + |p|] == p
    decreases |s|
  {
    if !HasPrefix(s, p) {
      FoundAt(s[1..], p);
      var i := Find(s[1..], p).value;
      assert s[1..][i..i + |p|] == s[i + 1..i + 1 + |p|];
    }
  }

  lemma {:induction false} AbsentIsKept(s: string, p: string, substitute: string)
    requires p != "" && !Contains(s, p)
    ensures ReplaceAll(s, p, substitute) == s
    decreases |s|
  {
    if s != "" { AbsentIsKept(s[1..], p, substitute); }
  }
}
