/** Message pairs in a transcript exported by Cursor: sections between "---" rules. */
module CursorTranscript {
  import opened Wrappers
  import opened Text
  import opened Search
  import opened Messages

  datatype State = State(query: Option<string>, pairs: seq<Pair>)

  const Rule: string := "---"
  const UserMark: string := "**User**"
  const CursorMark: string := "**Cursor**"
  const AssistantMark: string := "**Assistant**"

  function Query(section: string): string {
    Strip(RemoveFirst(section, UserMark))
  }

  function Response(section: string): string {
    Strip(RemoveFirst(RemoveFirst(section, CursorMark), AssistantMark))
  }

  function Absorb(st: State, section: string): State {
    var s := Strip(section);
    if s == "" then st
    else if HasPrefix(s, UserMark) then st.(query := Some(Query(s)))
    else if HasPrefix(s, CursorMark) || HasPrefix(s, AssistantMark) then
      if st.query.Some? && st.query.value != "" then State(None, st.pairs + [Pair(st.query.value, Response(s))]) else st
    else st
  }

  function AbsorbAll(st: State, sections: seq<string>): State
    decreases |sections|
  {
    if sections == [] then st else AbsorbAll(Absorb(st, sections[0]), sections[1..])
  }

  function Parsed(text: string): seq<Pair> {
    var sections := SplitOn(text, Rule);
    AbsorbAll(State(None, []), if Contains(sections[0], "Exported on") then sections[1..] else sections).pairs
  }

  method ParseCursorTranscript(text: string) returns (pairs: seq<Pair>)
    ensures pairs == Parsed(text)
  {
    pairs := [];
    var sections := SplitOn(text, Rule);
    if Contains(sections[0], "Exported on") {
      sections := sections[1..];
    }
    var query: Option<string> := None;
    for i := 0 to |sections|
      invariant AbsorbAll(State(query, pairs), sections[i..]) == AbsorbAll(State(None, []), sections)
    {
      assert sections[i..][1..] == sections[i + 1..];
      var section := Strip(sections[i]);
      if section == "" { continue; }
      if HasPrefix(section, UserMark) {
        query := Some(Strip(RemoveFirst(section, UserMark)));
      } else if HasPrefix(section, CursorMark) || HasPrefix(section, AssistantMark) {
        var content := Strip(RemoveFirst(RemoveFirst(section, CursorMark), AssistantMark));
        if query.Some? && query.value != "" {
          pairs := pairs + [Pair(query.value, content)];
          query := None;
        }
      }
    }
  }

  // ---------- Printing ----------

  function UserSection(query: string): string {
    "\n\n" + "**User**" + "\n\n" + query + "\n\n"
  }

  function CursorSection(response: string): string {
    "\n\n" + "**Cursor**" + "\n\n" + response + "\n\n"
  }

  function Body(pairs: seq<Pair>): string {
    if pairs == [] then ""
    else "---" + (UserSection(pairs[0].query) + ("---" + (CursorSection(pairs[0].response) + Body(pairs[1..]))))
  }

  function Sections(pairs: seq<Pair>): seq<string> {
    if pairs == [] then []
    else [UserSection(pairs[0].query), CursorSection(pairs[0].response)] + Sections(pairs[1..])
  }

  /** No rule anywhere in the text. */
  predicate NoRule(s: string) {
    forall i :: 0 <= i && i + 3 <= |s| ==> !(s[i] == '-' && s[i + 1] == '-' && s[i + 2] == '-')
  }

  predicate EndsClear(s: string) {
    s == "" || s[|s| - 1] != '-'
  }

  predicate Plain(p: Pair) {
    p.query != "" && Trimmed(p.query) && NoRule(p.query) && Trimmed(p.response) && NoRule(p.response)
  }

  lemma {:induction false} RuleIsDashes(s: string)
    ensures HasPrefix(s, Rule) <==> |s| >= 3 && s[0] == '-' && s[1] == '-' && s[2] == '-'
  {
    if |s| >= 3 {
      assert s[..3] == [s[0], s[1], s[2]];
      assert Rule == ['-', '-', '-'];
      assert s[..3] == Rule ==> s[..3][0] == '-' && s[..3][1] == '-' && s[..3][2] == '-';
    }
  }

  lemma {:induction false} FindRule(a: string, rest: string)
    requires NoRule(a) && EndsClear(a)
    ensures Find(a + Rule + rest, Rule) == Some(|a|)
    decreases |a|
  {
    var s := a + Rule + rest;
    RuleIsDashes(s);
    if a == "" {
      assert s[0] == '-' && s[1] == '-' && s[2] == '-';
    } else {
      assert forall i :: 0 <= i < |a| ==> s[i] == a[i];
      if |a| <= 3 { assert s[|a| - 1] != '-'; } else { assert !(a[0] == '-' && a[1] == '-' && a[2] == '-'); }
      assert s[1..] == a[1..] + Rule + rest;
      NoRuleTail(a);
      FindRule(a[1..], rest);
    }
  }

  lemma {:induction false} NoRuleTail(a: string)
    requires NoRule(a) && a != ""
    ensures NoRule(a[1..])
  {
    forall i | 0 <= i && i + 3 <= |a[1..]|
      ensures !(a[1..][i] == '-' && a[1..][i + 1] == '-' && a[1..][i + 2] == '-')
    {
      var j := i + 1;
      assert !(a[j] == '-' && a[j + 1] == '-' && a[j + 2] == '-');
    }
  }

  lemma {:induction false} NoRuleNoFind(a: string)
    requires NoRule(a)
    ensures Find(a, Rule) == None
    decreases |a|
  {
    RuleIsDashes(a);
    if |a| >= 3 { assert !(a[0] == '-' && a[1] == '-' && a[2] == '-'); }
    if a != "" {
      NoRuleTail(a);
      NoRuleNoFind(a[1..]);
    }
  }

  /** A text without a rule, between line breaks and after a mark, still has none. */
  lemma {:induction false} SectionHasNoRule(mark: string, text: string)
    requires '-' !in mark && NoRule(text)
    ensures var s := "\n\n" + mark + "\n\n" + text + "\n\n"; NoRule(s) && EndsClear(s)
  {
    var s := "\n\n" + mark + "\n\n" + text + "\n\n";
    var k := |mark| + 4;
    forall i | 0 <= i && i + 3 <= |s| ensures !(s[i] == '-' && s[i + 1] == '-' && s[i + 2] == '-') {
      if i < k {
        assert s[i] == if i < 2 then '\n' else if i < 2 + |mark| then mark[i - 2] else '\n';
      } else if i + 3 <= k + |text| {
        var j := i - k;
        assert s[i] == text[j] && s[i + 1] == text[j + 1] && s[i + 2] == text[j + 2];
      } else {
        assert s[i + 2] == '\n';
      }
    }
  }

  lemma {:induction false} SplitBody(lead: string, pairs: seq<Pair>)
    requires NoRule(lead) && EndsClear(lead) && forall p :: p in pairs ==> Plain(p)
    ensures SplitOn(lead + Body(pairs), Rule) == [lead] + Sections(pairs)
    decreases |pairs|
  {
    if pairs == [] {
      assert lead + Body(pairs) == lead;
      NoRuleNoFind(lead);
    } else {
      var p := pairs[0];
      assert p in pairs && Plain(p);
      var user, cursor := UserSection(p.query), CursorSection(p.response);
      SectionHasNoRule(UserMark, p.query);
      SectionHasNoRule(CursorMark, p.response);
      SplitBody(cursor, pairs[1..]);
      SplitOnce(user, cursor + Body(pairs[1..]));
      SplitOnce(lead, user + (Rule + (cursor + Body(pairs[1..]))));
      assert [user] + ([cursor] + Sections(pairs[1..])) == [user, cursor] + Sections(pairs[1..]);
    }
  }

  lemma {:induction false} SplitOnce(a: string, rest: string)
    requires NoRule(a) && EndsClear(a)
    ensures SplitOn(a + (Rule + rest), Rule) == [a] + SplitOn(rest, Rule)
  {
    FindRule(a, rest);
    assert a + (Rule + rest) == a + Rule + rest;
    assert (a + Rule + rest)[..|a|] == a && (a + Rule + rest)[|a| + 3..] == rest;
  }

  // ---------- What comes back ----------

  /** What is left of a response: the first "**Assistant**" in it is taken for a second mark. */
  function Kept(response: string): string {
    Strip(RemoveFirst("\n\n" + response, AssistantMark))
  }

  lemma {:induction false} MarkFirst(mark: string, rest: string)
    requires mark != ""
    ensures HasPrefix(mark + rest, mark) && RemoveFirst(mark + rest, mark) == rest
  {
    assert (mark + rest)[..|mark|] == mark && (mark + rest)[|mark|..] == rest;
  }

  lemma {:induction false} StripSection(mark: string, text: string)
    requires mark != "" && Trimmed(mark) && text != "" && Trimmed(text)
    ensures Strip("\n\n" + mark + "\n\n" + text + "\n\n") == mark + ("\n\n" + text)
  {
    var core := mark + ("\n\n" + text);
    assert "\n\n" + mark + "\n\n" + text + "\n\n" == "\n\n" + core + "\n\n";
    assert core[0] == mark[0] && core[|core| - 1] == text[|text| - 1];
    StripUnique("\n\n", core, "\n\n");
  }

  lemma {:induction false} StripLineBreaks(text: string)
    requires Trimmed(text)
    ensures Strip("\n\n" + text) == text
  {
    StripUnique("\n\n", text, "");
    assert "\n\n" + text + "" == "\n\n" + text;
  }

  lemma {:induction false} UserIsAbsorbed(st: State, query: string)
    requires query != "" && Trimmed(query)
    ensures Absorb(st, UserSection(query)) == st.(query := Some(query))
  {
    StripSection(UserMark, query);
    MarkFirst(UserMark, "\n\n" + query);
    StripLineBreaks(query);
  }

  /** What follows the mark in a stripped cursor section. */
  function Rest(response: string): string {
    if response == "" then "" else "\n\n" + response
  }

  lemma {:induction false} CursorSectionStrips(response: string)
    requires Trimmed(response)
    ensures Strip(CursorSection(response)) == CursorMark + Rest(response)
  {
    if response == "" {
      assert CursorSection(response) == "\n\n" + CursorMark + "\n\n\n\n";
      StripUnique("\n\n", CursorMark, "\n\n\n\n");
    } else {
      StripSection(CursorMark, response);
    }
  }

  lemma {:induction false} RestIsKept(response: string)
    requires Trimmed(response)
    ensures Strip(RemoveFirst(Rest(response), AssistantMark)) == Kept(response)
  {
    if response == "" {
      NothingToFind("", AssistantMark, 'A');
      NothingToFind("\n\n" + response, AssistantMark, 'A');
      StripBlank("\n\n" + response);
    }
  }

  lemma {:induction false} CursorIsNotUser(rest: string)
    ensures !HasPrefix(CursorMark + rest, UserMark)
  {
    var s := CursorMark + rest;
    assert s[2] == 'C' && UserMark[2] == 'U';
    PrefixAgrees(s, UserMark, 2);
  }

  lemma {:induction false} CursorIsAbsorbed(query: string, pairs: seq<Pair>, response: string)
    requires query != "" && Trimmed(response)
    ensures Absorb(State(Some(query), pairs), CursorSection(response))
            == State(None, pairs + [Pair(query, Kept(response))])
  {
    CursorSectionStrips(response);
    CursorIsNotUser(Rest(response));
    MarkFirst(CursorMark, Rest(response));
    RestIsKept(response);
  }

  /** An answer under the assistant mark counts as well. */
  lemma {:induction false} AssistantIsAbsorbed(query: string, pairs: seq<Pair>, response: string)
    requires query != "" && response != "" && Trimmed(response) && !Contains(response, "**Cursor**")
    ensures Absorb(State(Some(query), pairs), "\n\n" + "**Assistant**" + "\n\n" + response + "\n\n")
            == State(None, pairs + [Pair(query, response)])
  {
    var s := AssistantMark + ("\n\n" + response);
    StripSection(AssistantMark, response);
    AssistantIsNotUser("\n\n" + response);
    ResponseOfAssistant(response, s);
    MarkFirst(AssistantMark, "\n\n" + response);
  }

  lemma {:induction false} AssistantIsNotUser(rest: string)
    ensures !HasPrefix(AssistantMark + rest, UserMark)
  {
    var s := AssistantMark + rest;
    assert s[2] == 'A' && UserMark[2] == 'U';
    PrefixAgrees(s, UserMark, 2);
  }

  lemma {:induction false} ResponseOfAssistant(response: string, s: string)
    requires Trimmed(response) && !Contains(response, CursorMark) && s == AssistantMark + ("\n\n" + response)
    ensures Response(s) == response
  {
    NoCursorMark(response, s);
    MarkFirst(AssistantMark, "\n\n" + response);
    StripLineBreaks(response);
  }

  lemma {:induction false} NoCursorMark(response: string, s: string)
    requires !Contains(response, CursorMark) && s == AssistantMark + ("\n\n" + response)
    ensures RemoveFirst(s, CursorMark) == s
  {
    var front := "**Assistant**\n\n";
    assert s == front + response;
    forall i: nat | i < |front| ensures !HasPrefix(s[i..], CursorMark) {
      if HasPrefix(s[i..], CursorMark) {
        PrefixAgrees(s[i..], CursorMark, 0);
        PrefixAgrees(s[i..], CursorMark, 2);
        CharacterOf(front, response, i);
      }
    }
    FindPast(front, response, CursorMark);
  }

  /** In the mark and the line breaks behind it no '*' has a 'C' two places on. */
  lemma {:induction false} CharacterOf(front: string, rest: string, i: nat)
    requires front == "**Assistant**\n\n" && i < |front| && i + 2 < |front + rest|
    ensures (front + rest)[i] != '*' || (front + rest)[i + 2] != 'C'
  {
    if i + 2 < |front| { assert (front + rest)[i + 2] == front[i + 2]; }
  }

  lemma {:induction false} FindPast(a: string, b: string, p: string)
    requires forall i: nat :: i < |a| ==> !HasPrefix((a + b)[i..], p)
    ensures Contains(a + b, p) <==> Contains(b, p)
  {
    if a == "" {
      assert a + b == b;
    } else {
      assert (a + b)[0..] == a + b && (a + b)[1..] == a[1..] + b;
      forall i: nat | i < |a[1..]| ensures !HasPrefix((a[1..] + b)[i..], p) {
        assert (a[1..] + b)[i..] == (a + b)[i + 1..];
      }
      FindPast(a[1..], b, p);
    }
  }

  function KeptAll(pairs: seq<Pair>): seq<Pair> {
    if pairs == [] then [] else [Pair(pairs[0].query, Kept(pairs[0].response))] + KeptAll(pairs[1..])
  }

  lemma {:induction false} AbsorbTwo(st: State, a: string, b: string, rest: seq<string>)
    ensures AbsorbAll(st, [a, b] + rest) == AbsorbAll(Absorb(Absorb(st, a), b), rest)
  {
    var all := [a, b] + rest;
    assert all[1..][0] == b && all[1..][1..] == rest;
  }

  lemma {:induction false} PairIsAbsorbed(done: seq<Pair>, p: Pair, rest: seq<string>)
    requires Plain(p)
    ensures AbsorbAll(State(None, done), [UserSection(p.query), CursorSection(p.response)] + rest)
         == AbsorbAll(State(None, done + [Pair(p.query, Kept(p.response))]), rest)
  {
    AbsorbTwo(State(None, done), UserSection(p.query), CursorSection(p.response), rest);
    UserIsAbsorbed(State(None, done), p.query);
    CursorIsAbsorbed(p.query, done, p.response);
  }

  lemma {:induction false} SectionsAreAbsorbed(done: seq<Pair>, pairs: seq<Pair>)
    requires forall p :: p in pairs ==> Plain(p)
    ensures AbsorbAll(State(None, done), Sections(pairs)) == State(None, done + KeptAll(pairs))
    decreases |pairs|
  {
    if pairs == [] {
      assert done + [] == done;
    } else {
      var p, rest := pairs[0], pairs[1..];
      assert p in pairs && Plain(p);
      PairIsAbsorbed(done, p, Sections(rest));
      var kept := [Pair(p.query, Kept(p.response))];
      SectionsAreAbsorbed(done + kept, rest);
      assert done + kept + KeptAll(rest) == done + (kept + KeptAll(rest));
    }
  }

  /** The pairs of a printed transcript, in order; only a response that contains the assistant
      mark is changed. */
  lemma {:induction false} PrintedParses(header: string, pairs: seq<Pair>)
    requires Header(header) && forall p :: p in pairs ==> Plain(p)
    ensures Parsed(header + Body(pairs)) == KeptAll(pairs)
  {
    SplitBody(header, pairs);
    assert ([header] + Sections(pairs))[1..] == Sections(pairs);
    SectionsAreAbsorbed([], pairs);
    assert [] + KeptAll(pairs) == KeptAll(pairs);
  }

  lemma {:induction false} FindAfterFirst(s: string, p: string)
    requires s != "" && p != "" && s[0] != p[0]
    ensures Contains(s, p) <==> Contains(s[1..], p)
  {
    PrefixAgrees(s, p, 0);
  }

  lemma {:induction false} FindAfterLineBreaks(s: string)
    ensures Contains("\n\n" + s, AssistantMark) <==> Contains(s, AssistantMark)
  {
    var t := "\n\n" + s;
    assert t[1..][1..] == s;
    FindAfterFirst(t, AssistantMark);
    FindAfterFirst(t[1..], AssistantMark);
  }

  lemma {:induction false} KeptIff(response: string)
    requires Trimmed(response)
    ensures Kept(response) == response <==> !Contains(response, AssistantMark)
  {
    FindAfterLineBreaks(response);
    if Contains(response, AssistantMark) {
      var before, after := StripSplits(RemoveFirst("\n\n" + response, AssistantMark));
    } else {
      StripLineBreaks(response);
    }
  }

  lemma {:induction false} KeptAllIff(pairs: seq<Pair>)
    requires forall p :: p in pairs ==> Plain(p)
    ensures KeptAll(pairs) == pairs <==> forall p :: p in pairs ==> !Contains(p.response, AssistantMark)
  {
    if pairs != [] {
      assert pairs[0] in pairs && Plain(pairs[0]);
      KeptIff(pairs[0].response);
      KeptAllIff(pairs[1..]);
      assert pairs == [pairs[0]] + pairs[1..];
      assert KeptAll(pairs)[0] == Pair(pairs[0].query, Kept(pairs[0].response))
             && KeptAll(pairs)[1..] == KeptAll(pairs[1..]);
    }
  }

  lemma {:induction false} PlainRoundTripIff(header: string, pairs: seq<Pair>)
    requires Header(header) && forall p :: p in pairs ==> Plain(p)
    ensures Parsed(header + Body(pairs)) == pairs <==> forall p :: p in pairs ==> !Contains(p.response, AssistantMark)
  {
    PrintedParses(header, pairs);
    KeptAllIff(pairs);
  }

  // ---------- Counting dashes ----------

  function Dashes(s: string): nat {
    if s == "" then 0 else (if s[0] == '-' then 1 else 0) + Dashes(s[1..])
  }

  lemma {:induction false} DashesConcat(s: string, t: string)
    ensures Dashes(s + t) == Dashes(s) + Dashes(t)
  {
    if s == "" {
      assert s + t == t;
    } else {
      assert (s + t)[1..] == s[1..] + t;
      DashesConcat(s[1..], t);
    }
  }

  lemma {:induction false} DashesNone(s: string)
    requires '-' !in s
    ensures Dashes(s) == 0
  {
    if s != "" { DashesNone(s[1..]); }
  }

  lemma {:induction false} DashesStrip(s: string)
    ensures Dashes(Strip(s)) <= Dashes(s)
  {
    var before, after := StripSplits(s);
    DashesConcat(before + Strip(s), after);
    DashesConcat(before, Strip(s));
  }

  lemma {:induction false} DashesRemoveFirst(s: string, p: string)
    ensures Dashes(RemoveFirst(s, p)) <= Dashes(s)
  {
    if Find(s, p).Some? {
      var i := Find(s, p).value;
      var a, b, c := s[..i], s[i..i + |p|], s[i + |p|..];
      assert s == a + (b + c);
      FewerDashes(a, b, c);
    }
  }

  lemma {:induction false} FewerDashes(a: string, b: string, c: string)
    ensures Dashes(a + c) <= Dashes(a + (b + c))
  {
    DashesConcat(a, b + c);
    DashesConcat(b, c);
    DashesConcat(a, c);
  }

  function SumDashes(parts: seq<string>): nat {
    if parts == [] then 0 else Dashes(parts[0]) + SumDashes(parts[1..])
  }

  lemma {:induction false} RuleDashes(rest: string)
    ensures Dashes(Rule + rest) == 3 + Dashes(rest)
  {
    DashesConcat(Rule, rest);
    assert "---"[1..] == "--" && "--"[1..] == "-" && "-"[1..] == "";
  }

  /** How often the text is cut. */
  function Cuts(s: string): nat {
    |SplitOn(s, Rule)| - 1
  }

  /** Splitting takes three dashes for every cut. */
  lemma {:induction false} SplitDashes(s: string)
    ensures Dashes(s) == SumDashes(SplitOn(s, Rule)) + 3 * Cuts(s)
    decreases |s|
  {
    match Find(s, Rule)
    case None => assert SumDashes([s]) == Dashes(s) + SumDashes([s][1..]);
    case Some(i) =>
      FoundAt(s, Rule);
      assert s == s[..i] + (Rule + s[i + 3..]);
      DashesConcat(s[..i], Rule + s[i + 3..]);
      RuleDashes(s[i + 3..]);
      SplitDashes(s[i + 3..]);
      assert ([s[..i]] + SplitOn(s[i + 3..], Rule))[1..] == SplitOn(s[i + 3..], Rule);
  }

  // ---------- Counting cuts ----------

  /** The cuts of a text that ends clear and of what follows add up. */
  lemma {:induction false} CutsAdd(a: string, b: string)
    requires EndsClear(a)
    ensures Cuts(a + b) == Cuts(a) + Cuts(b)
    decreases |a|
  {
    match Find(a, Rule)
    case None => NoCutInFirst(a, b);
    case Some(i) =>
      FindExtends(a, b, Rule);
      var rest := a[i + 3..];
      assert (a + b)[i + 3..] == rest + b;
      assert rest != "" ==> rest[|rest| - 1] == a[|a| - 1];
      CutsAdd(rest, b);
  }

  lemma {:induction false} NoCutInFirst(a: string, b: string)
    requires EndsClear(a) && Find(a, Rule) == None
    ensures Cuts(a + b) == Cuts(b)
  {
    NothingAcross(a, b);
    match Find(b, Rule)
    case None =>
    case Some(j) => assert (a + b)[|a| + j + 3..] == b[j + 3..];
  }

  /** Without a rule in a text that ends clear, the first rule is the first of what follows. */
  lemma {:induction false} NothingAcross(a: string, b: string)
    requires EndsClear(a) && Find(a, Rule) == None
    ensures Find(a + b, Rule) == match Find(b, Rule) case None => None case Some(j) => Some(|a| + j)
    decreases |a|
  {
    if a == "" {
      assert a + b == b;
    } else {
      NoRuleAcross(a, b);
      assert (a + b)[1..] == a[1..] + b;
      NothingAcross(a[1..], b);
    }
  }

  lemma {:induction false} NoRuleAcross(a: string, b: string)
    requires a != "" && EndsClear(a) && !HasPrefix(a, Rule)
    ensures !HasPrefix(a + b, Rule)
  {
    RuleIsDashes(a);
    RuleIsDashes(a + b);
    if |a| < 3 { assert (a + b)[|a| - 1] == a[|a| - 1]; }
  }

  lemma {:induction false} RuleCuts(rest: string)
    ensures Cuts(Rule + rest) == 1 + Cuts(rest)
  {
    assert (Rule + rest)[..3] == Rule && (Rule + rest)[3..] == rest;
  }

  predicate AllRuleFree(pairs: seq<Pair>) {
    forall p :: p in pairs ==> NoRule(p.query) && NoRule(p.response)
  }

  lemma {:induction false} FindIsRule(s: string)
    ensures Find(s, Rule) == None <==> NoRule(s)
    decreases |s|
  {
    RuleIsDashes(s);
    if s != "" {
      FindIsRule(s[1..]);
      if NoRule(s) {
        NoRuleTail(s);
        if |s| >= 3 { assert !(s[0] == '-' && s[1] == '-' && s[2] == '-'); }
      } else {
        var i :| 0 <= i && i + 3 <= |s| && s[i] == '-' && s[i + 1] == '-' && s[i + 2] == '-';
        if i > 0 {
          var t, j := s[1..], i - 1;
          assert t[j] == '-' && t[j + 1] == '-' && t[j + 2] == '-';
        }
      }
    }
  }

  lemma {:induction false} SectionCuts(mark: string, text: string)
    requires '-' !in mark
    ensures var s := "\n\n" + mark + "\n\n" + text + "\n\n";
            Dashes(s) == Dashes(text) && EndsClear(s)
            && (Cuts(s) == 0 <==> NoRule(text))
  {
    var front, back := "\n\n" + mark + "\n\n", "\n\n";
    var s := front + text + back;
    DashesConcat(front + text, back);
    DashesConcat(front, text);
    DashesNone(front);
    DashesNone(back);
    FindIsRule(s);
    if NoRule(text) {
      SectionHasNoRule(mark, text);
    } else {
      var i :| 0 <= i && i + 3 <= |text| && text[i] == '-' && text[i + 1] == '-' && text[i + 2] == '-';
      var k := |front| + i;
      assert s[k] == text[i] && s[k + 1] == text[i + 1] && s[k + 2] == text[i + 2];
    }
  }

  function PairDashes(pairs: seq<Pair>): nat {
    if pairs == [] then 0 else Dashes(pairs[0].query) + Dashes(pairs[0].response) + PairDashes(pairs[1..])
  }

  /** Cuts within the texts. */
  function TextCuts(pairs: seq<Pair>): nat {
    if pairs == [] then 0
    else Cuts(UserSection(pairs[0].query)) + Cuts(CursorSection(pairs[0].response)) + TextCuts(pairs[1..])
  }

  lemma {:induction false} TextCutsIff(pairs: seq<Pair>)
    ensures TextCuts(pairs) == 0 <==> AllRuleFree(pairs)
  {
    if pairs != [] {
      SectionCuts(UserMark, pairs[0].query);
      SectionCuts(CursorMark, pairs[0].response);
      TextCutsIff(pairs[1..]);
      FirstRuleFree(pairs);
    }
  }

  lemma {:induction false} FirstRuleFree(pairs: seq<Pair>)
    requires pairs != []
    ensures AllRuleFree(pairs)
       <==> NoRule(pairs[0].query) && NoRule(pairs[0].response) && AllRuleFree(pairs[1..])
  {
    assert pairs == [pairs[0]] + pairs[1..];
  }

  lemma {:induction false} BodyDashes(pairs: seq<Pair>)
    ensures Dashes(Body(pairs)) == PairDashes(pairs) + 6 * |pairs|
  {
    if pairs != [] {
      var p, rest := pairs[0], pairs[1..];
      var user, cursor := UserSection(p.query), CursorSection(p.response);
      SectionCuts(UserMark, p.query);
      SectionCuts(CursorMark, p.response);
      BodyDashes(rest);
      RuleDashes(user + (Rule + (cursor + Body(rest))));
      DashesConcat(user, Rule + (cursor + Body(rest)));
      RuleDashes(cursor + Body(rest));
      DashesConcat(cursor, Body(rest));
    }
  }

  /** A printed transcript is cut at its own rules and at those in its texts. */
  lemma {:induction false} BodyCuts(lead: string, pairs: seq<Pair>)
    requires EndsClear(lead)
    ensures Cuts(lead + Body(pairs)) == Cuts(lead) + 2 * |pairs| + TextCuts(pairs)
    decreases |pairs|
  {
    if pairs == [] {
      assert lead + Body(pairs) == lead;
    } else {
      var p, rest := pairs[0], pairs[1..];
      var user, cursor := UserSection(p.query), CursorSection(p.response);
      SectionCuts(UserMark, p.query);
      SectionCuts(CursorMark, p.response);
      BodyCuts(cursor, rest);
      CutsAtRule(user, cursor + Body(rest));
      CutsAtRule(lead, user + (Rule + (cursor + Body(rest))));
    }
  }

  lemma {:induction false} CutsAtRule(a: string, rest: string)
    requires EndsClear(a)
    ensures Cuts(a + (Rule + rest)) == Cuts(a) + 1 + Cuts(rest)
  {
    CutsAdd(a, Rule + rest);
    RuleCuts(rest);
  }

  // ---------- What parsing can return ----------

  function StateDashes(st: State): nat {
    PairDashes(st.pairs) + if st.query.Some? then Dashes(st.query.value) else 0
  }

  lemma {:induction false} PairDashesAppend(pairs: seq<Pair>, p: Pair)
    ensures PairDashes(pairs + [p]) == PairDashes(pairs) + Dashes(p.query) + Dashes(p.response)
  {
    if pairs == [] {
      assert pairs + [p] == [p];
    } else {
      assert (pairs + [p])[1..] == pairs[1..] + [p];
      PairDashesAppend(pairs[1..], p);
    }
  }

  /** Queries are trimmed, and so is everything returned; returned queries are not empty. */
  predicate Returned(st: State) {
    && (st.query.Some? ==> Trimmed(st.query.value))
    && forall p :: p in st.pairs ==> p.query != "" && Trimmed(p.query) && Trimmed(p.response)
  }

  lemma {:induction false} StripIsTrimmed(s: string)
    ensures Trimmed(Strip(s))
  {
    var before, after := StripSplits(s);
  }

  lemma {:induction false} AbsorbBound(st: State, section: string)
    requires Returned(st)
    ensures StateDashes(Absorb(st, section)) <= StateDashes(st) + Dashes(section) && Returned(Absorb(st, section))
  {
    var s := Strip(section);
    DashesStrip(section);
    DashesRemoveFirst(s, UserMark);
    DashesStrip(RemoveFirst(s, UserMark));
    StripIsTrimmed(RemoveFirst(s, UserMark));
    var response := RemoveFirst(RemoveFirst(s, CursorMark), AssistantMark);
    DashesRemoveFirst(s, CursorMark);
    DashesRemoveFirst(RemoveFirst(s, CursorMark), AssistantMark);
    DashesStrip(response);
    StripIsTrimmed(response);
    if st.query.Some? { PairDashesAppend(st.pairs, Pair(st.query.value, Response(s))); }
  }

  lemma {:induction false} AbsorbAllBound(st: State, sections: seq<string>)
    requires Returned(st)
    ensures StateDashes(AbsorbAll(st, sections)) <= StateDashes(st) + SumDashes(sections)
    ensures Returned(AbsorbAll(st, sections))
    decreases |sections|
  {
    if sections != [] {
      AbsorbBound(st, sections[0]);
      AbsorbAllBound(Absorb(st, sections[0]), sections[1..]);
    }
  }

  predicate Header(header: string) {
    Contains(header, "Exported on") && NoRule(header) && EndsClear(header)
  }

  /** A printed transcript always splits off its header. */
  lemma {:induction false} HeaderSplitsOff(header: string, pairs: seq<Pair>)
    requires Header(header)
    ensures SplitOn(header + Body(pairs), Rule)[0] == header
    ensures Cuts(header) == 0
  {
    FindIsRule(header);
    if pairs == [] {
      assert header + Body(pairs) == header;
    } else {
      var body := Body(pairs)[3..];
      assert Body(pairs) == Rule + body;
      SplitOnce(header, body);
    }
  }

  lemma {:induction false} ReturnedBound(header: string, pairs: seq<Pair>)
    requires Header(header)
    ensures var parsed := Parsed(header + Body(pairs));
            && (forall p :: p in parsed ==> p.query != "" && Trimmed(p.query) && Trimmed(p.response))
            && PairDashes(parsed) <= PairDashes(pairs)
            && (!AllRuleFree(pairs) ==> PairDashes(parsed) < PairDashes(pairs))
  {
    var text := header + Body(pairs);
    var sections := SplitOn(text, Rule);
    HeaderSplitsOff(header, pairs);
    AbsorbAllBound(State(None, []), sections[1..]);
    SplitDashes(text);
    BodyCuts(header, pairs);
    BodyDashes(pairs);
    DashesConcat(header, Body(pairs));
    TextCutsIff(pairs);
    assert SumDashes(sections) == Dashes(header) + SumDashes(sections[1..]);
  }

  /** Any printed pairs at all: they come back unchanged exactly when every text is trimmed and
      free of rules, every query is not empty, and no response contains the assistant mark. */
  lemma {:induction false} RoundTripIff(header: string, pairs: seq<Pair>)
    requires Header(header)
    ensures Parsed(header + Body(pairs)) == pairs
       <==> forall p :: p in pairs ==> Plain(p) && !Contains(p.response, "**Assistant**")
  {
    if forall p :: p in pairs ==> Plain(p) {
      PlainRoundTripIff(header, pairs);
    } else {
      ReturnedBound(header, pairs);
    }
  }

  /** What stands before the first rule is a section like any other unless it says "Exported on": a
      transcript that begins with its first question keeps it exactly when the question does not. */
  lemma {:induction false} FirstQuestionIsKeptIff(query: string, response: string)
    requires query != "" && Plain(Pair(query, response)) && !Contains(response, "**Assistant**")
    ensures Parsed(UserSection(query) + ("---" + CursorSection(response)))
         == if Contains(UserSection(query), "Exported on") then [] else [Pair(query, response)]
  {
    var user, cursor := UserSection(query), CursorSection(response);
    SectionHasNoRule(UserMark, query);
    SectionHasNoRule(CursorMark, response);
    SplitOnce(user, cursor);
    NoRuleNoFind(cursor);
    AnswerAlone(State(None, []), cursor, response);
    AbsorbTwo(State(None, []), user, cursor, []);
    assert [user] + [cursor] == [user, cursor] + [] && ([user] + [cursor])[1..] == [cursor];
    UserIsAbsorbed(State(None, []), query);
    CursorIsAbsorbed(query, [], response);
    KeptIff(response);
  }

  /** An answer without a question is dropped. */
  lemma {:induction false} AnswerAlone(st: State, cursor: string, response: string)
    requires st.query == None && Trimmed(response) && cursor == CursorSection(response)
    ensures AbsorbAll(st, [cursor]) == st
  {
    CursorSectionStrips(response);
    CursorIsNotUser(Rest(response));
    MarkFirst(CursorMark, Rest(response));
    assert [cursor][1..] == [];
  }
}
