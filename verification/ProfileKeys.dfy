/** How profile facts are printed, and the two places that compute a fact's key: the judge when
    it looks for an existing record, and the weaver when it stores one. */
module ProfileKeys {
  import opened Wrappers
  import opened Text
  import opened Search

  datatype Fact = Fact(topic: string, subTopic: string, memo: string)

  function Printed(f: Fact): string {
    f.topic + " / " + f.subTopic + " = " + f.memo
  }

  // ---------- Keys ----------

  /** `s.replace(" ", "_").lower()` */
  function Tidy(s: string): (t: string)
    ensures |t| == |s|
  {
    seq(|s|, i requires 0 <= i < |s| => if s[i] == ' ' then '_' else Lower(s[i]))
  }

  /** The key the judge looks for; empty for a fact without topic or sub-topic. */
  function JudgeKey(f: Fact): string {
    var topic, subTopic := Strip(f.topic), Strip(f.subTopic);
    if topic == "" || subTopic == "" then "" else Tidy(topic + "_" + subTopic)
  }

  /** What the weaver stores as `main_content` for a printed fact. */
  function StoredKey(content: string): string {
    match Find(content, " = ")
    case None => ""
    case Some(i) =>
      if Find(content[..i], " / ").None? then "" else Tidy(ReplaceAll(Strip(content[..i]), " / ", "_"))
  }

  /** What the weaver stores as `subcontent`. */
  function StoredMemo(content: string): string {
    match Find(content, " = ")
    case None => Strip(content)
    case Some(i) => if Find(content[..i], " / ").None? then Strip(content) else Strip(content[i + 3..])
  }

  /** The memo the judge reads from a printed fact. */
  function JudgedMemo(content: string): string {
    match Find(content, " = ")
    case None => content
    case Some(i) => Strip(content[i + 3..])
  }

  /** The part of the printed form that names the fact. */
  function Head(f: Fact): string {
    f.topic + " / " + f.subTopic
  }

  predicate Keyed(f: Fact) {
    Strip(f.topic) != "" && Strip(f.subTopic) != ""
  }

  /** The sides that meet at the separator carry no whitespace. */
  predicate MeetsTrimmed(f: Fact) {
    f.topic != "" && !IsSpace(f.topic[|f.topic| - 1]) && f.subTopic != "" && !IsSpace(f.subTopic[0])
  }

  /** The first " = " of the printed form is the printer's own. */
  predicate SplitsAtOwn(f: Fact) {
    !Contains(Head(f) + " =", " = ")
  }

  /** Nothing but the printer's separator is replaced in the head. */
  predicate ReplacesOnce(f: Fact) {
    Count(Strip(Head(f)), " / ") == 1
  }

  /** What a caller can check of a fact before it is printed. */
  predicate KeepsKey(f: Fact) {
    SplitsAtOwn(f) && ReplacesOnce(f) && MeetsTrimmed(f)
  }

  /** The key of a stripped fact, letter by letter: topic and sub-topic with '_' between them and for
      every space, in lower case. */
  lemma {:induction false} JudgeKeyIs(f: Fact, names: string, i: nat)
    requires f.topic != "" && f.subTopic != "" && Trimmed(f.topic) && Trimmed(f.subTopic)
    requires names == f.topic + "_" + f.subTopic && i < |names|
    ensures |JudgeKey(f)| == |names|
    ensures JudgeKey(f)[i] == if 'A' <= names[i] <= 'Z' then names[i] + 32 as char
                              else if names[i] == ' ' then '_' else names[i]
  {
    StripTrimmed(f.topic);
    StripTrimmed(f.subTopic);
  }

  // ---------- Where the printed form splits ----------

  lemma {:induction false} FindOwn(head: string, memo: string)
    requires !Contains(head + " =", " = ")
    ensures Find(head + " = " + memo, " = ") == Some(|head|)
    decreases |head|
  {
    var s, t := head + " =", " " + memo;
    assert head + " = " + memo == s + t;
    if head == "" {
      assert (s + t)[..3] == " = ";
    } else {
      ShorterPrefix(s, t, " = ");
      assert s[1..] == head[1..] + " =" && (s + t)[1..] == head[1..] + " = " + memo;
      FindOwn(head[1..], memo);
    }
  }

  /** An earlier " = " leaves a '=' of the head behind it. */
  lemma {:induction false} FindEarlier(head: string, memo: string) returns (i: nat)
    requires Contains(head + " =", " = ")
    ensures Find(head + " = " + memo, " = ") == Some(i) && i + 1 < |head| && head[i + 1] == '='
  {
    var s, t := head + " =", " " + memo;
    assert head + " = " + memo == s + t;
    i := Find(s, " = ").value;
    FindExtends(s, t, " = ");
    FoundAt(s, " = ");
    assert s[i..i + 3][1] == s[i + 1] == '=';
    assert s[|head|] == ' ';
  }

  // ---------- Counting characters ----------

  function CharCount(s: string, c: char): nat {
    if s == "" then 0 else (if s[0] == c then 1 else 0) + CharCount(s[1..], c)
  }

  lemma {:induction false} CharCountConcat(s: string, t: string, c: char)
    ensures CharCount(s + t, c) == CharCount(s, c) + CharCount(t, c)
  {
    if s == "" {
      assert s + t == t;
    } else {
      assert (s + t)[1..] == s[1..] + t;
      CharCountConcat(s[1..], t, c);
    }
  }

  lemma {:induction false} CharCountBlank(s: string, c: char)
    requires Blank(s) && !IsSpace(c)
    ensures CharCount(s, c) == 0
  {
    if s != "" { CharCountBlank(s[1..], c); }
  }

  lemma {:induction false} CharCountStrip(s: string, c: char)
    requires !IsSpace(c)
    ensures CharCount(Strip(s), c) == CharCount(s, c)
  {
    var before, after := StripSplits(s);
    CharCountConcat(before + Strip(s), after, c);
    CharCountConcat(before, Strip(s), c);
    CharCountBlank(before, c);
    CharCountBlank(after, c);
  }

  lemma {:induction false} CharCountTidy(s: string, c: char)
    requires c == '/' || c == '='
    ensures CharCount(Tidy(s), c) == CharCount(s, c)
  {
    if s != "" {
      CharCountTidy(s[1..], c);
      assert Tidy(s)[1..] == Tidy(s[1..]);
    }
  }

  lemma {:induction false} CharCountReplace(s: string)
    ensures CharCount(ReplaceAll(s, " / ", "_"), '/') + Count(s, " / ") == CharCount(s, '/')
    ensures CharCount(ReplaceAll(s, " / ", "_"), '=') == CharCount(s, '=')
    ensures |ReplaceAll(s, " / ", "_")| + 2 * Count(s, " / ") == |s|
    decreases |s|
  {
    if HasPrefix(s, " / ") {
      var rest := ReplaceAll(s[3..], " / ", "_");
      CharCountReplace(s[3..]);
      SlashSlice(s);
      assert ("_" + rest)[1..] == rest;
    } else if s != "" {
      var rest := ReplaceAll(s[1..], " / ", "_");
      CharCountReplace(s[1..]);
      assert ([s[0]] + rest)[1..] == rest;
    }
  }

  lemma {:induction false} SlashSlice(s: string)
    requires HasPrefix(s, " / ")
    ensures CharCount(s, '/') == 1 + CharCount(s[3..], '/') && CharCount(s, '=') == CharCount(s[3..], '=')
  {
    assert s == " / " + s[3..];
    CharCountConcat(" / ", s[3..], '/');
    CharCountConcat(" / ", s[3..], '=');
    SeparatorCounts();
  }

  lemma {:induction false} SeparatorCounts()
    ensures CharCount(" / ", '/') == 1 && CharCount(" / ", '=') == 0
    ensures CharCount("_", '/') == 0 && CharCount("_", '=') == 0
  {
    assert " / "[1..] == "/ " && "/ "[1..] == " " && " "[1..] == "" && "_"[1..] == "";
  }

  // ---------- Replacing once ----------

  lemma {:induction false} TidyNext(c: char, s: string, t: string)
    requires Tidy(s) == Tidy(t)
    ensures Tidy([c] + s) == Tidy([c] + t)
  {
    TidyFirst(c, s);
    TidyFirst(c, t);
  }

  lemma {:induction false} TidyFirst(c: char, s: string)
    ensures Tidy([c] + s) == [if c == ' ' then '_' else Lower(c)] + Tidy(s)
  {
  }

  lemma {:induction false} CountNone(s: string)
    requires Count(s, " / ") == 0
    ensures ReplaceAll(s, " / ", "_") == s
    decreases |s|
  {
    if s != "" { CountNone(s[1..]); }
  }

  lemma {:induction false} CountSome(a: string, b: string)
    ensures Count(a + " / " + b, " / ") >= 1
    decreases |a|
  {
    var s := a + " / " + b;
    if a == "" {
      assert s[..3] == " / ";
    } else if !HasPrefix(s, " / ") {
      assert s[1..] == a[1..] + " / " + b;
      CountSome(a[1..], b);
    }
  }

  lemma {:induction false} ContainsMiddle(a: string, b: string)
    ensures Contains(a + " / " + b, " / ")
    decreases |a|
  {
    var s := a + " / " + b;
    if a == "" {
      assert s[..3] == " / ";
    } else {
      assert s[1..] == a[1..] + " / " + b;
      ContainsMiddle(a[1..], b);
    }
  }

  /** A single replacement is the separator's, or one that overlaps it and tidies alike. */
  lemma {:induction false} OnceTidies(a: string, b: string)
    requires Count(a + " / " + b, " / ") == 1
    ensures Tidy(ReplaceAll(a + " / " + b, " / ", "_")) == Tidy(a + "_" + b)
    decreases |a|
  {
    var s := a + " / " + b;
    if a == "" {
      assert s[..3] == " / " && s[3..] == b;
      CountNone(b);
      assert a + "_" + b == "_" + b;
    } else if HasPrefix(s, " / ") {
      OverlapTidies(a, b);
    } else {
      assert s[1..] == a[1..] + " / " + b;
      OnceTidies(a[1..], b);
      TidyNext(a[0], ReplaceAll(s[1..], " / ", "_"), a[1..] + "_" + b);
      assert [a[0]] + (a[1..] + "_" + b) == a + "_" + b;
    }
  }

  lemma {:induction false} OverlapTidies(a: string, b: string)
    requires a != "" && HasPrefix(a + " / " + b, " / ") && Count(a + " / " + b, " / ") == 1
    ensures Tidy(ReplaceAll(a + " / " + b, " / ", "_")) == Tidy(a + "_" + b)
  {
    var s := a + " / " + b;
    PrefixAgrees(s, " / ", 0);
    PrefixAgrees(s, " / ", 1);
    PrefixAgrees(s, " / ", 2);
    if |a| >= 3 {
      assert s[3..] == a[3..] + " / " + b;
      CountSome(a[3..], b);
    } else {
      assert a[0] == ' ' && |a| == 2 && a[1] == '/';
      assert s[3..] == "/ " + b;
      CountNone(s[3..]);
      TwoUnderscores(a, b);
    }
  }

  lemma {:induction false} TwoUnderscores(a: string, b: string)
    requires |a| == 2 && a[0] == ' ' && a[1] == '/'
    ensures Tidy("_" + ("/ " + b)) == Tidy(a + "_" + b)
  {
    var x, y := "_" + ("/ " + b), a + "_" + b;
    assert |x| == |y| && forall i :: 3 <= i < |x| ==> x[i] == y[i];
  }

  // ---------- The keys ----------

  /** Where `strip` cuts the two ends of a string. */
  lemma {:induction false} StripEnds(s: string) returns (before: string, core: string, after: string)
    requires Strip(s) != ""
    ensures s == before + core + after && core == Strip(s) && Blank(before) && Blank(after) && Trimmed(core)
    ensures LStrip(s) == core + after && RStrip(s) == before + core
  {
    before, after := StripSplits(s);
    core := Strip(s);
    assert s == before + (core + after);
    LStripPast(before, core + after);
    RStripPast(before + core, after);
  }

  lemma {:induction false} StripJoined(topic: string, subTopic: string)
    requires Strip(topic) != "" && Strip(subTopic) != ""
    ensures Strip(topic + " / " + subTopic) == LStrip(topic) + " / " + RStrip(subTopic)
  {
    var b, t, a := StripEnds(topic);
    var b', t', a' := StripEnds(subTopic);
    CoreBetween(b, t, a + " / " + b', t', a');
    Regroup(b, t, a, " / ", b', t', a');
  }

  lemma {:induction false} Regroup(
      b: string, t: string, a: string, m: string, b': string, t': string, a': string)
    ensures (b + t + a) + m + (b' + t' + a') == b + (t + (a + m + b') + t') + a'
    ensures (t + a) + m + (b' + t') == t + (a + m + b') + t'
  {
  }

  lemma {:induction false} CoreBetween(before: string, left: string, middle: string, right: string, after: string)
    requires Blank(before) && Blank(after) && Trimmed(left) && left != "" && Trimmed(right) && right != ""
    ensures Strip(before + (left + middle + right) + after) == left + middle + right
  {
    var core := left + middle + right;
    assert core[0] == left[0] && core[|core| - 1] == right[|right| - 1];
    StripUnique(before, core, after);
  }

  lemma {:induction false} LastOfJoined(s: string, t: string)
    requires s != ""
    ensures (s + t)[|s + t| - 1] == if t == "" then s[|s| - 1] else t[|t| - 1]
  {
  }

  lemma {:induction false} RightEnd(s: string)
    requires Strip(s) != ""
    ensures |LStrip(s)| >= |Strip(s)|
    ensures LStrip(s) == Strip(s) <==> |LStrip(s)| == |Strip(s)|
    ensures s != "" && (|LStrip(s)| == |Strip(s)| <==> !IsSpace(s[|s| - 1]))
  {
    var before, core, after := StripEnds(s);
    LastOfJoined(before + core, after);
    assert (before + core)[|before + core| - 1] == core[|core| - 1];
    if after == "" { assert core + after == core; }
  }

  lemma {:induction false} LeftEnd(s: string)
    requires Strip(s) != ""
    ensures |RStrip(s)| >= |Strip(s)|
    ensures RStrip(s) == Strip(s) <==> |RStrip(s)| == |Strip(s)|
    ensures s != "" && (|RStrip(s)| == |Strip(s)| <==> !IsSpace(s[0]))
  {
    var before, core, after := StripEnds(s);
    assert s[0] == (before + core)[0] == if before == "" then core[0] else before[0];
    if before == "" { assert before + core == core; }
  }

  /** The stripped head is as long as both stripped names and the separator exactly when no
      whitespace meets the separator. */
  lemma {:induction false} HeadLength(f: Fact)
    requires Keyed(f)
    ensures |Strip(Head(f))| >= |Strip(f.topic)| + 3 + |Strip(f.subTopic)|
    ensures |Strip(Head(f))| == |Strip(f.topic)| + 3 + |Strip(f.subTopic)| <==> MeetsTrimmed(f)
    ensures MeetsTrimmed(f) ==> Strip(Head(f)) == Strip(f.topic) + " / " + Strip(f.subTopic)
  {
    StripJoined(f.topic, f.subTopic);
    RightEnd(f.topic);
    LeftEnd(f.subTopic);
  }

  lemma {:induction false} JudgeKeyCounts(f: Fact, c: char)
    requires Keyed(f) && (c == '/' || c == '=')
    ensures CharCount(JudgeKey(f), c) + (if c == '/' then 1 else 0) == CharCount(Head(f), c)
  {
    var t, u := Strip(f.topic), Strip(f.subTopic);
    CharCountTidy(t + "_" + u, c);
    CharCountConcat(t + "_", u, c);
    CharCountConcat(t, "_", c);
    CharCountStrip(f.topic, c);
    CharCountStrip(f.subTopic, c);
    CharCountConcat(f.topic + " / ", f.subTopic, c);
    CharCountConcat(f.topic, " / ", c);
    SeparatorCounts();
  }

  /** An earlier " = " cuts a '=' out of the stored key that the judge's key has. */
  lemma {:induction false} EarlierSplitDiffers(f: Fact)
    requires Keyed(f) && !SplitsAtOwn(f)
    ensures JudgeKey(f) != StoredKey(Printed(f))
  {
    var head := Head(f);
    var i := FindEarlier(head, f.memo);
    var front := head[..i];
    assert Printed(f) == head + " = " + f.memo && Printed(f)[..i] == front;
    CharCountTidy(ReplaceAll(Strip(front), " / ", "_"), '=');
    CharCountReplace(Strip(front));
    CharCountStrip(front, '=');
    FrontHasFewer(head, i);
    JudgeKeyCounts(f, '=');
  }

  lemma {:induction false} FrontHasFewer(head: string, i: nat)
    requires i + 1 < |head| && head[i + 1] == '='
    ensures CharCount(head[..i], '=') < CharCount(head, '=')
  {
    assert head == head[..i] + head[i..];
    CharCountConcat(head[..i], head[i..], '=');
    assert head[i..][1] == '=' && head[i..][1..][0] == '=';
  }

  lemma {:induction false} OwnSplitStores(f: Fact)
    requires SplitsAtOwn(f)
    ensures StoredKey(Printed(f)) == Tidy(ReplaceAll(Strip(Head(f)), " / ", "_"))
    ensures JudgedMemo(Printed(f)) == StoredMemo(Printed(f)) == Strip(f.memo)
  {
    var head := Head(f);
    FindOwn(head, f.memo);
    assert Printed(f) == head + " = " + f.memo;
    assert Printed(f)[..|head|] == head && Printed(f)[|head| + 3..] == f.memo;
    ContainsMiddle(f.topic, f.subTopic);
  }

  lemma {:induction false} OwnSplitAgreesIff(f: Fact)
    requires Keyed(f) && SplitsAtOwn(f)
    ensures JudgeKey(f) == StoredKey(Printed(f)) <==> ReplacesOnce(f) && MeetsTrimmed(f)
  {
    var head := Strip(Head(f));
    OwnSplitStores(f);
    HeadLength(f);
    CharCountTidy(ReplaceAll(head, " / ", "_"), '/');
    CharCountReplace(head);
    CharCountStrip(Head(f), '/');
    JudgeKeyCounts(f, '/');
    if ReplacesOnce(f) && MeetsTrimmed(f) { OnceTidies(Strip(f.topic), Strip(f.subTopic)); }
  }

  /** For every fact with a topic and a sub-topic: the weaver stores it under the key the judge
      will look for exactly when the print splits at its own " = ", nothing but the separator is
      replaced in the head, and no whitespace touches the separator. */
  lemma {:induction false} KeysAgreeIff(f: Fact)
    requires Keyed(f)
    ensures JudgeKey(f) == StoredKey(Printed(f)) <==> KeepsKey(f)
  {
    if SplitsAtOwn(f) { OwnSplitAgreesIff(f); } else { EarlierSplitDiffers(f); }
  }

  /** Facts as they are extracted, topic and sub-topic stripped: whitespace plays no part. */
  lemma {:induction false} StrippedKeysAgreeIff(f: Fact)
    requires Trimmed(f.topic) && f.topic != "" && Trimmed(f.subTopic) && f.subTopic != ""
    ensures JudgeKey(f) == StoredKey(Printed(f))
       <==> !Contains(Head(f) + " =", " = ") && Count(Head(f), " / ") == 1
  {
    StripTrimmed(f.topic);
    StripTrimmed(f.subTopic);
    KeysAgreeIff(f);
    HeadLength(f);
  }

  /** No separator of the printed form occurs in the topic or the sub-topic. */
  predicate Separable(f: Fact) {
    '/' !in f.topic && '=' !in f.topic && '/' !in f.subTopic && '=' !in f.subTopic
  }

  /** Without '/' and '=' in the names, only whitespace at the separator can part the keys. */
  lemma {:induction false} SeparableKeysAgreeIff(f: Fact)
    requires Keyed(f) && Separable(f)
    ensures SplitsAtOwn(f)
    ensures JudgeKey(f) == StoredKey(Printed(f)) <==> MeetsTrimmed(f)
  {
    KeysAgreeIff(f);
    SeparableSplits(f);
    CharCountReplace(Strip(Head(f)));
    CharCountStrip(Head(f), '/');
    CharCountConcat(f.topic + " / ", f.subTopic, '/');
    CharCountConcat(f.topic, " / ", '/');
    CharCountAbsent(f.topic, '/');
    CharCountAbsent(f.subTopic, '/');
    SeparatorCounts();
    StripJoined(f.topic, f.subTopic);
    CountSome(LStrip(f.topic), RStrip(f.subTopic));
  }

  lemma {:induction false} CharCountAbsent(s: string, c: char)
    requires c !in s
    ensures CharCount(s, c) == 0
  {
    if s != "" { CharCountAbsent(s[1..], c); }
  }

  lemma {:induction false} SeparableSplits(f: Fact)
    requires Separable(f)
    ensures SplitsAtOwn(f)
  {
    var head := Head(f);
    assert '=' !in head;
    if !SplitsAtOwn(f) {
      var i := FindEarlier(head, f.memo);
      assert false;
    }
  }

  lemma {:induction false} CountPast(a: string, rest: string)
    requires '/' !in a
    ensures Count(a + " / " + rest, " / ") == 1 + Count(rest, " / ")
    decreases |a|
  {
    var s := a + " / " + rest;
    if a == "" {
      assert s[..3] == " / " && s[3..] == rest;
    } else {
      PrefixAgrees(s, " / ", 1);
      assert s[1] != '/';
      assert s[1..] == a[1..] + " / " + rest;
      CountPast(a[1..], rest);
    }
  }

  lemma {:induction false} CountWithout(s: string)
    requires '/' !in s
    ensures Count(s, " / ") == 0
    decreases |s|
  {
    PrefixHasCharacters(s, " / ", '/');
    if s != "" { CountWithout(s[1..]); }
  }

  lemma {:induction false} CountThreeNames(a: string, b: string, c: string)
    requires '/' !in a && '/' !in b && '/' !in c
    ensures Count(a + " / " + b + " / " + c, " / ") == 2
  {
    CountPast(a, b + " / " + c);
    CountPast(b, c);
    CountWithout(c);
    assert a + " / " + b + " / " + c == a + " / " + (b + " / " + c);
  }

  lemma {:induction false} JoinedIsTrimmed(a: string, m: string, b: string)
    requires a != "" && b != "" && Trimmed(a) && Trimmed(b)
    ensures Trimmed(a + m + b)
  {
    assert (a + m + b)[0] == a[0];
    LastOfJoined(a + m, b);
  }

  /** A topic made of two names is stored under another key than the judge looks for, although
      it comes stripped. */
  lemma {:induction false} SlashedTopicDiffers(a: string, b: string, f: Fact)
    requires f.topic == a + " / " + b && a != "" && b != "" && f.subTopic != ""
    requires Trimmed(a) && Trimmed(b) && Trimmed(f.subTopic)
    requires '/' !in a && '/' !in b && '/' !in f.subTopic
    ensures StoredKey(Printed(f)) != JudgeKey(f)
  {
    JoinedIsTrimmed(a, " / ", b);
    CountThreeNames(a, b, f.subTopic);
    StrippedKeysAgreeIff(f);
  }

  lemma {:induction false} SlashedTopic() returns (f: Fact)
    ensures f == Fact("food / drink", "tea", "green") && StoredKey(Printed(f)) != JudgeKey(f)
  {
    f := Fact("food / drink", "tea", "green");
    FoodOrDrink();
    SlashedTopicDiffers("food", "drink", f);
  }

  lemma {:induction false} FoodOrDrink()
    ensures "food" + " / " + "drink" == "food / drink"
  {
  }

  /** Whitespace at the separator does it too. */
  lemma {:induction false} SpacedTopic() returns (f: Fact)
    ensures f == Fact("x ", "y", "z") && StoredKey(Printed(f)) != JudgeKey(f)
  {
    f := Fact("x ", "y", "z");
    StripUnique("", "x", " ");
    assert "" + "x" + " " == f.topic;
    StripTrimmed(f.subTopic);
    SeparableKeysAgreeIff(f);
  }
}
