/** Text as the judge compares it: lower case, words separated by single spaces. */
module Normalised {
  import opened Text
  import opened Paths
  import opened Search

  function WordLength(s: string): (n: nat)
    ensures n <= |s|
  {
    if s == "" || IsSpace(s[0]) then 0 else 1 + WordLength(s[1..])
  }

  /** `s.split()` */
  function Words(s: string): seq<string>
    decreases |s|
  {
    LStripSplits(s);
    var t := LStrip(s);
    if t == "" then [] else [t[..WordLength(t)]] + Words(t[WordLength(t)..])
  }

  function Norm(s: string): string {
    Join(Words(Lowered(Strip(s))), ' ')
  }

  // ---------- What normalising keeps ----------

  /** A character that no step of normalising touches. */
  predicate Steady(c: char) {
    !IsSpace(c) && !('A' <= c <= 'Z') && !('a' <= c <= 'z')
  }

  lemma {:induction false} LoweredKeeps(s: string, c: char)
    requires Steady(c)
    ensures c in Lowered(s) <==> c in s
  {
    if c in s {
      var i :| 0 <= i < |s| && s[i] == c;
      assert Lowered(s)[i] == c;
    }
  }

  lemma {:induction false} StripKeeps(s: string, c: char)
    requires Steady(c)
    ensures c in Strip(s) <==> c in s
  {
    var before, after := StripSplits(s);
  }

  lemma {:induction false} WordsKeep(s: string, c: char)
    requires Steady(c)
    ensures c in Join(Words(s), ' ') <==> c in s
    decreases |s|
  {
    LStripSplits(s);
    var t := LStrip(s);
    var blank := s[..|s| - |t|];
    assert s == blank + t;
    if t != "" {
      var w := WordLength(t);
      var rest := Words(t[w..]);
      WordsKeep(t[w..], c);
      assert t == t[..w] + t[w..];
      assert ([t[..w]] + rest)[1..] == rest;
    }
  }

  lemma {:induction false} NormKeeps(s: string, c: char)
    requires Steady(c)
    ensures c in Norm(s) <==> c in s
  {
    StripKeeps(s, c);
    LoweredKeeps(Strip(s), c);
    WordsKeep(Lowered(Strip(s)), c);
  }

  // ---------- When two texts are the same ----------

  /** The same character, or the upper and the lower case of one letter. */
  predicate SameLetter(c: char, d: char) {
    || c == d
    || ('A' <= c <= 'Z' && d as int == c as int + 32)
    || ('A' <= d <= 'Z' && c as int == d as int + 32)
  }

  predicate SameButCase(v: string, w: string) {
    |v| == |w| && forall i :: 0 <= i < |v| ==> SameLetter(v[i], w[i])
  }

  lemma {:induction false} LowerIff(c: char, d: char)
    ensures Lower(c) == Lower(d) <==> SameLetter(c, d)
  {
  }

  lemma {:induction false} LoweredIff(v: string, w: string)
    ensures Lowered(v) == Lowered(w) <==> SameButCase(v, w)
  {
    if |v| == |w| {
      forall i | 0 <= i < |v| ensures Lowered(v)[i] == Lowered(w)[i] <==> SameLetter(v[i], w[i]) {
        LowerIff(v[i], w[i]);
      }
    }
  }

  predicate IsWord(w: string) {
    w != "" && forall i :: 0 <= i < |w| ==> !IsSpace(w[i])
  }

  lemma {:induction false} WordLengthIs(w: string, rest: string)
    requires IsWord(w) && (rest == "" || IsSpace(rest[0]))
    ensures WordLength(w + rest) == |w|
  {
    if |w| == 1 {
      assert (w + rest)[1..] == rest;
    } else {
      assert (w + rest)[1..] == w[1..] + rest;
      WordLengthIs(w[1..], rest);
    }
  }

  /** Words are what blanks separate: together with `WordsOfBlank` this says what they are. */
  lemma {:induction false} WordsOfText(blank: string, w: string, rest: string)
    requires Blank(blank) && IsWord(w) && (rest == "" || IsSpace(rest[0]))
    ensures Words(blank + w + rest) == [w] + Words(rest)
  {
    LStripPast(blank, w + rest);
    assert blank + w + rest == blank + (w + rest);
    WordLengthIs(w, rest);
    assert (w + rest)[..|w|] == w && (w + rest)[|w|..] == rest;
  }

  lemma {:induction false} WordsOfBlank(s: string)
    requires Blank(s)
    ensures Words(s) == []
  {
    LStripSplits(s);
  }

  /** Every text is blank, or begins with a word after blanks. */
  lemma {:induction false} FirstWord(s: string) returns (blank: string, w: string, rest: string)
    requires !Blank(s)
    ensures s == blank + w + rest && Blank(blank) && IsWord(w) && (rest == "" || IsSpace(rest[0])) && |rest| < |s|
  {
    LStripSplits(s);
    var t := LStrip(s);
    WordAtFront(t);
    var n := WordLength(t);
    blank, w, rest := s[..|s| - |t|], t[..n], t[n..];
    assert t == w + rest && s == blank + t;
  }

  lemma {:induction false} LowerKeepsSpace(c: char)
    ensures IsSpace(Lower(c)) <==> IsSpace(c)
  {
  }

  lemma {:induction false} WordAtFront(s: string)
    ensures forall i :: 0 <= i < WordLength(s) ==> !IsSpace(s[i])
    ensures WordLength(s) < |s| ==> IsSpace(s[WordLength(s)])
  {
    if s != "" && !IsSpace(s[0]) {
      WordAtFront(s[1..]);
      forall i | 0 <= i < WordLength(s) ensures !IsSpace(s[i]) {
        if i > 0 { assert s[i] == s[1..][i - 1]; }
      }
    }
  }

  function LoweredAll(words: seq<string>): (r: seq<string>)
    ensures |r| == |words|
  {
    seq(|words|, i requires 0 <= i < |words| => Lowered(words[i]))
  }

  lemma {:induction false} LoweredConcat(s: string, t: string, u: string)
    ensures Lowered(s + t + u) == Lowered(s) + Lowered(t) + Lowered(u)
  {
  }

  lemma {:induction false} LoweredAllCons(w: string, words: seq<string>)
    ensures LoweredAll([w] + words) == [Lowered(w)] + LoweredAll(words)
  {
  }

  lemma {:induction false} LoweredSpaces(s: string)
    ensures Blank(s) ==> Blank(Lowered(s))
    ensures IsWord(s) ==> IsWord(Lowered(s))
  {
    forall i | 0 <= i < |s| ensures IsSpace(Lowered(s)[i]) <==> IsSpace(s[i]) {
      LowerKeepsSpace(s[i]);
    }
  }

  lemma {:induction false} WordsOfLowered(s: string)
    ensures Words(Lowered(s)) == LoweredAll(Words(s))
    decreases |s|
  {
    if Blank(s) {
      LoweredSpaces(s);
      WordsOfBlank(s);
      WordsOfBlank(Lowered(s));
    } else {
      var blank, w, rest := FirstWord(s);
      LoweredSpaces(blank);
      LoweredSpaces(w);
      LoweredConcat(blank, w, rest);
      if rest != "" { LowerKeepsSpace(rest[0]); }
      WordsOfText(blank, w, rest);
      WordsOfText(Lowered(blank), Lowered(w), Lowered(rest));
      WordsOfLowered(rest);
      LoweredAllCons(w, Words(rest));
    }
  }

  lemma {:induction false} WordsPastBlank(before: string, s: string)
    requires Blank(before)
    ensures Words(before + s) == Words(s)
  {
    if Blank(s) {
      WordsOfBlank(s);
      WordsOfBlank(before + s);
    } else {
      var blank, w, rest := FirstWord(s);
      WordsOfText(blank, w, rest);
      WordsOfText(before + blank, w, rest);
      assert before + s == before + blank + w + rest;
    }
  }

  lemma {:induction false} WordsBeforeBlank(s: string, after: string)
    requires Blank(after)
    ensures Words(s + after) == Words(s)
    decreases |s|
  {
    if Blank(s) {
      WordsOfBlank(s);
      WordsOfBlank(s + after);
    } else {
      var blank, w, rest := FirstWord(s);
      WordsOfText(blank, w, rest);
      WordsOfText(blank, w, rest + after);
      WordsBeforeBlank(rest, after);
      assert s + after == blank + w + (rest + after);
    }
  }

  lemma {:induction false} WordsOfStripped(s: string)
    ensures Words(Strip(s)) == Words(s)
  {
    var before, after := StripSplits(s);
    WordsBeforeBlank(before + Strip(s), after);
    WordsPastBlank(before, Strip(s));
  }

  lemma {:induction false} WordsAreWords(s: string, i: nat)
    requires i < |Words(s)|
    ensures IsWord(Words(s)[i])
    decreases |s|
  {
    if Blank(s) {
      WordsOfBlank(s);
    } else {
      var blank, w, rest := FirstWord(s);
      WordsOfText(blank, w, rest);
      if i > 0 { WordsAreWords(rest, i - 1); }
    }
  }

  lemma {:induction false} SplitJoined(words: seq<string>)
    requires words != [] && forall i :: 0 <= i < |words| ==> IsWord(words[i])
    ensures Split(Join(words, ' '), ' ') == words
  {
    assert forall c :: c in words[0] ==> !IsSpace(c);
    if |words| == 1 {
      SplitLast(words[0], ' ');
    } else {
      SplitJoined(words[1..]);
      SplitAt(words[0], ' ', Join(words[1..], ' '));
    }
  }

  lemma {:induction false} JoinedWordsDiffer(v: seq<string>, w: seq<string>)
    requires forall i :: 0 <= i < |v| ==> IsWord(v[i])
    requires forall i :: 0 <= i < |w| ==> IsWord(w[i])
    requires Join(v, ' ') == Join(w, ' ')
    ensures v == w
  {
    if v != [] { SplitJoined(v); }
    if w != [] { SplitJoined(w); }
    assert v != [] ==> |Join(v, ' ')| >= |v[0]| > 0;
    assert w != [] ==> |Join(w, ' ')| >= |w[0]| > 0;
  }

  predicate SameWords(v: seq<string>, w: seq<string>) {
    |v| == |w| && forall i :: 0 <= i < |v| ==> SameButCase(v[i], w[i])
  }

  lemma {:induction false} LoweredAllIff(v: seq<string>, w: seq<string>)
    ensures LoweredAll(v) == LoweredAll(w) <==> SameWords(v, w)
  {
    if |v| == |w| {
      forall i | 0 <= i < |v| ensures LoweredAll(v)[i] == LoweredAll(w)[i] <==> SameButCase(v[i], w[i]) {
        LoweredIff(v[i], w[i]);
      }
    }
  }

  /** Two texts are the same to the judge exactly when their words are, in order, up to the case of
      the letters A to Z. */
  lemma {:induction false} NormIff(s: string, t: string)
    ensures Norm(s) == Norm(t) <==> SameWords(Words(s), Words(t))
  {
    WordsOfNormal(s, Words(s));
    WordsOfNormal(t, Words(t));
    LoweredAllIff(Words(s), Words(t));
    if Norm(s) == Norm(t) { JoinedWordsDiffer(LoweredAll(Words(s)), LoweredAll(Words(t))); }
  }

  lemma {:induction false} WordsOfNormal(s: string, words: seq<string>)
    requires words == Words(s)
    ensures Norm(s) == Join(LoweredAll(words), ' ')
    ensures forall i :: 0 <= i < |words| ==> IsWord(LoweredAll(words)[i])
  {
    WordsOfStripped(s);
    WordsOfLowered(Strip(s));
    forall i | 0 <= i < |words| ensures IsWord(LoweredAll(words)[i]) {
      WordsAreWords(s, i);
      LoweredSpaces(words[i]);
    }
  }
}
