/** The string operations the parsers and the chunker rely on. */
module Text {

  /** Characters `str.strip` and `str.split` treat as whitespace. */
  predicate IsSpace(c: char) {
    || c == ' ' || '\t' <= c <= '\r' || '\U{1C}' <= c <= '\U{1F}' || c == '\U{85}' || c == '\U{A0}'
    || c == '\U{1680}' || '\U{2000}' <= c <= '\U{200A}' || '\U{2028}' <= c <= '\U{2029}'
    || c == '\U{202F}' || c == '\U{205F}' || c == '\U{3000}'
  }

  /** Their code points, as Python's `str.isspace` has them. */
  lemma {:induction false} SpaceIff(c: char)
    ensures IsSpace(c) <==>
      c as int in {9, 10, 11, 12, 13, 28, 29, 30, 31, 32, 133, 160, 5760, 8192, 8193, 8194, 8195, 8196, 8197, 8198,
                   8199, 8200, 8201, 8202, 8232, 8233, 8239, 8287, 12288}
  {
  }

  predicate Trimmed(s: string) {
    s == "" || (!IsSpace(s[0]) && !IsSpace(s[|s| - 1]))
  }

  predicate Blank(s: string) {
    forall i :: 0 <= i < |s| ==> IsSpace(s[i])
  }

  function LStrip(s: string): string {
    if s != "" && IsSpace(s[0]) then LStrip(s[1..]) else s
  }

  function RStrip(s: string): string {
    if s != "" && IsSpace(s[|s| - 1]) then RStrip(s[..|s| - 1]) else s
  }

  function Strip(s: string): string {
    RStrip(LStrip(s))
  }

  lemma {:induction false} LStripSplits(s: string)
    ensures |LStrip(s)| <= |s|
    ensures s[|s| - |LStrip(s)|..] == LStrip(s) && Blank(s[..|s| - |LStrip(s)|])
    ensures LStrip(s) == "" || !IsSpace(LStrip(s)[0])
  {
    if s != "" && IsSpace(s[0]) {
      LStripSplits(s[1..]);
      var k := |s| - |LStrip(s)|;
      forall i | 0 <= i < k ensures IsSpace(s[i]) {
        assert i > 0 ==> s[i] == s[1..][..k - 1][i - 1];
      }
    }
  }

  lemma {:induction false} RStripSplits(s: string)
    ensures |RStrip(s)| <= |s|
    ensures s[..|RStrip(s)|] == RStrip(s) && Blank(s[|RStrip(s)|..])
    ensures RStrip(s) == "" || !IsSpace(RStrip(s)[|RStrip(s)| - 1])
  {
    if s != "" && IsSpace(s[|s| - 1]) {
      var n := |s| - 1;
      RStripSplits(s[..n]);
      var k := |RStrip(s)|;
      forall i | k <= i < |s| ensures IsSpace(s[i]) {
        assert i < n ==> s[i] == s[..n][k..][i - k];
      }
    }
  }

  /** `Strip` removes blank ends and nothing else. */
  lemma {:induction false} StripSplits(s: string) returns (before: string, after: string)
    ensures s == before + Strip(s) + after && Blank(before) && Blank(after) && Trimmed(Strip(s))
  {
    var left := LStrip(s);
    LStripSplits(s);
    RStripSplits(left);
    before, after := s[..|s| - |left|], left[|Strip(s)|..];
    assert s == before + left && left == Strip(s) + after;
    if Strip(s) != "" {
      assert Strip(s)[0] == left[0];
    }
  }

  lemma {:induction false} StripTrimmed(s: string)
    requires Trimmed(s)
    ensures Strip(s) == s
  {
  }

  lemma {:induction false} StripBlank(s: string)
    requires Blank(s)
    ensures Strip(s) == ""
  {
    if s != "" { StripBlank(s[1..]); }
  }

  /** The same trimmed core between blank ends is what `Strip` returns. */
  lemma {:induction false} StripUnique(before: string, core: string, after: string)
    requires Blank(before) && Blank(after) && Trimmed(core)
    ensures Strip(before + core + after) == core
  {
    var s := before + core + after;
    if core == "" {
      StripBlank(s);
    } else {
      LStripPast(before, core + after);
      assert s == before + (core + after);
      RStripPast(core, after);
    }
  }

  lemma {:induction false} LStripPast(before: string, rest: string)
    requires Blank(before) && rest != "" && !IsSpace(rest[0])
    ensures LStrip(before + rest) == rest
  {
    if before == "" {
      assert before + rest == rest;
    } else {
      assert (before + rest)[1..] == before[1..] + rest;
      LStripPast(before[1..], rest);
    }
  }

  lemma {:induction false} RStripPast(rest: string, after: string)
    requires Blank(after) && rest != "" && !IsSpace(rest[|rest| - 1])
    ensures RStrip(rest + after) == rest
  {
    if after == "" {
      assert rest + after == rest;
    } else {
      assert (rest + after)[..|rest + after| - 1] == rest + after[..|after| - 1];
      RStripPast(rest, after[..|after| - 1]);
    }
  }

  // ---------- The characters that matter ----------

  /** All non-whitespace characters, in order. */
  function Ink(s: string): string {
    if s == "" then "" else Ink(s[..|s| - 1]) + if IsSpace(s[|s| - 1]) then "" else [s[|s| - 1]]
  }

  lemma {:induction false} InkConcat(s: string, t: string)
    ensures Ink(s + t) == Ink(s) + Ink(t)
  {
    if t == "" {
      assert s + t == s;
    } else {
      assert (s + t)[..|s + t| - 1] == s + t[..|t| - 1];
      InkConcat(s, t[..|t| - 1]);
    }
  }

  lemma {:induction false} InkBlank(s: string)
    requires Blank(s)
    ensures Ink(s) == ""
  {
    if s != "" { InkBlank(s[..|s| - 1]); }
  }

  lemma {:induction false} InkStrip(s: string)
    ensures Ink(Strip(s)) == Ink(s)
  {
    var before, after := StripSplits(s);
    InkConcat(before + Strip(s), after);
    InkConcat(before, Strip(s));
    InkBlank(before);
    InkBlank(after);
  }

  lemma {:induction false} InklessIsBlank(s: string)
    requires Ink(s) == ""
    ensures Blank(s)
  {
    if s != "" { InklessIsBlank(s[..|s| - 1]); }
  }

  lemma {:induction false} StripKeepsInk(s: string, i: nat)
    requires i < |s| && !IsSpace(s[i])
    ensures Strip(s) != ""
  {
    if Strip(s) == "" {
      InkStrip(s);
      InklessIsBlank(s);
    }
  }

  function Flatten(parts: seq<string>): string {
    if parts == [] then "" else parts[0] + Flatten(parts[1..])
  }
}
