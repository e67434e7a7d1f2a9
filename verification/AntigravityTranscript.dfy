/** The text of an Antigravity transcript: blocks under "### User Input" and
    "### Planner Response" headings. */
module AntigravityTranscript {
  import opened Wrappers
  import opened Text
  import opened Search
  import opened Messages
  import opened AntigravityTurns

  const Hashes: string := "###"
  const UserInput: string := "User Input"
  const PlannerResponse: string := "Planner Response"

  // ---------- Splitting at headings: (?m)^(###\s+.+)$ ----------

  function SpaceRun(s: string): (n: nat)
    ensures n <= |s|
  {
    if s != "" && IsSpace(s[0]) then 1 + SpaceRun(s[1..]) else 0
  }

  function LineLength(s: string): (n: nat)
    ensures n <= |s|
  {
    if s == "" || s[0] == '\n' then 0 else 1 + LineLength(s[1..])
  }

  /** The last character after the first that is not a line break. */
  function LastNotBreak(s: string): (r: Option<nat>)
    ensures r.Some? ==> r.value < |s|
  {
    if |s| <= 1 then None
    else if s[|s| - 1] != '\n' then Some(|s| - 1)
    else LastNotBreak(s[..|s| - 1])
  }

  /** The length of the heading that starts a line. The whitespace after the hashes may run over
      line breaks; where nothing but whitespace follows, it gives its last character back. */
  function Heading(s: string): (r: Option<nat>)
    ensures r.Some? ==> 0 < r.value <= |s|
  {
    if !HasPrefix(s, Hashes) then None
    else
      var t := s[3..];
      var w := SpaceRun(t);
      if w == 0 then None
      else if w < |t| then Some(3 + w + LineLength(t[w..]))
      else
        match LastNotBreak(t)
        case None => None
        case Some(k) => Some(4 + k)
  }

  /** The texts between headings and the headings, alternating. */
  function Blocks(s: string, lineStart: bool): (blocks: seq<string>)
    ensures blocks != []
    decreases |s|
  {
    if s == "" then [""]
    else if lineStart && Heading(s).Some? then
      var n := Heading(s).value;
      ["", s[..n]] + Blocks(s[n..], false)
    else
      var rest := Blocks(s[1..], s[0] == '\n');
      [[s[0]] + rest[0]] + rest[1..]
  }

  /** `re.match(r"###\s+<name>", block, re.IGNORECASE)` */
  predicate Marks(block: string, name: string) {
    HasPrefix(block, Hashes)
    && var t := block[3..];
       SpaceRun(t) > 0 && HasPrefix(Lowered(t[SpaceRun(t)..]), Lowered(name))
  }

  // ---------- The parser ----------

  function Absorb(st: State, before: Option<string>, block: string): State {
    var b := Strip(block);
    if b == "" then st
    else if Marks(b, UserInput) then Closed(st).(query := None)
    else if Marks(b, PlannerResponse) || before.None? then st
    else
      var heading := Strip(before.value);
      if Marks(heading, UserInput) then Closed(st).(query := Some(b))
      else if Marks(heading, PlannerResponse) then st.(chunks := st.chunks + [b])
      else st
  }

  function Scan(st: State, before: Option<string>, blocks: seq<string>): State
    decreases |blocks|
  {
    if blocks == [] then st else Scan(Absorb(st, before, blocks[0]), Some(blocks[0]), blocks[1..])
  }

  function Parsed(text: string): seq<Pair> {
    Result(Scan(Start, None, Blocks(ReplaceAll(text, "\r\n", "\n"), true)))
  }

  method ParseAntigravityTranscript(text: string) returns (pairs: seq<Pair>)
    ensures pairs == Parsed(text)
  {
    var blocks := Blocks(ReplaceAll(text, "\r\n", "\n"), true);
    var st := ScanBlocks(blocks);
    pairs := st.pairs;
    if st.query.Some? && st.chunks != [] {
      pairs := pairs + [Pair(st.query.value, Strip(JoinBlank(st.chunks)))];
    }
  }

  method ScanBlocks(blocks: seq<string>) returns (st: State)
    ensures st == Scan(Start, None, blocks)
  {
    st := Start;
    ghost var before: Option<string> := None;
    for i := 0 to |blocks|
      invariant before == if i == 0 then None else Some(blocks[i - 1])
      invariant Scan(st, before, blocks[i..]) == Scan(Start, None, blocks)
    {
      assert blocks[i..][1..] == blocks[i + 1..];
      st := AbsorbBlock(st, if i == 0 then None else Some(blocks[i - 1]), blocks[i]);
      before := Some(blocks[i]);
    }
  }

  method AbsorbBlock(start: State, before: Option<string>, block: string) returns (st: State)
    ensures st == Absorb(start, before, block)
  {
    var query, chunks, pairs := start.query, start.chunks, start.pairs;
    var b := Strip(block);
    if b == "" { return start; }
    var heading := if before.Some? then Strip(before.value) else "";
    if Marks(b, UserInput) {
      if query.Some? && chunks != [] {
        pairs := pairs + [Pair(query.value, Strip(JoinBlank(chunks)))];
        chunks := [];
      }
      query := None;
    } else if Marks(b, PlannerResponse) {
    } else if before.Some? {
      if Marks(heading, UserInput) {
        if query.Some? && chunks != [] {
          pairs := pairs + [Pair(query.value, Strip(JoinBlank(chunks)))];
          chunks := [];
        }
        query := Some(b);
      } else if Marks(heading, PlannerResponse) {
        chunks := chunks + [b];
      }
    }
    st := State(query, chunks, pairs);
  }

  // ---------- Printing ----------

  function HeadingOf(t: Turn): string {
    "### " + if t.User? then "User Input" else "Planner Response"
  }

  function ContentOf(t: Turn): string {
    "\n\n" + t.text + "\n\n"
  }

  function Printed(turns: seq<Turn>): string {
    if turns == [] then "" else HeadingOf(turns[0]) + (ContentOf(turns[0]) + Printed(turns[1..]))
  }

  function TurnBlocks(turns: seq<Turn>): seq<string> {
    if turns == [] then [] else [HeadingOf(turns[0]), ContentOf(turns[0])] + TurnBlocks(turns[1..])
  }

  /** No heading starts in the text when `rest` follows it. */
  predicate HeadingFree(s: string, lineStart: bool, rest: string) {
    s == "" || (!(lineStart && Heading(s + rest).Some?) && HeadingFree(s[1..], s[0] == '\n', rest))
  }

  /** No heading starts in any text of the printed turns. */
  predicate TurnsFree(turns: seq<Turn>) {
    turns == [] || (HeadingFree(ContentOf(turns[0]), false, Printed(turns[1..])) && TurnsFree(turns[1..]))
  }

  /** No line of the text starts with "###". */
  predicate Quiet(s: string, lineStart: bool) {
    s == "" || (!(lineStart && HasPrefix(s, Hashes)) && Quiet(s[1..], s[0] == '\n'))
  }

  lemma {:induction false} NotHashes(a: string, b: string)
    requires a != "" && !HasPrefix(a, Hashes) && (a[|a| - 1] == '\n' || (b != "" && b[0] == '\n'))
    ensures !HasPrefix(a + b, Hashes)
  {
    var s := a + b;
    if |a| >= 3 {
      assert s[..3] == a[..3];
    } else {
      var k := if a[|a| - 1] == '\n' then |a| - 1 else |a|;
      assert s[k] == '\n' && Hashes[k] == '#';
      PrefixAgrees(s, Hashes, k);
    }
  }

  lemma {:induction false} QuietThenBreaks(text: string, lineStart: bool)
    requires Quiet(text, lineStart)
    ensures Quiet(text + "\n\n", lineStart)
  {
    if text == "" {
      assert text + "\n\n" == "\n\n" && "\n\n"[1..] == "\n" && "\n"[1..] == "";
      PrefixAgrees("\n\n", Hashes, 0);
      PrefixAgrees("\n", Hashes, 0);
    } else {
      if !HasPrefix(text, Hashes) { NotHashes(text, "\n\n"); }
      assert (text + "\n\n")[1..] == text[1..] + "\n\n";
      QuietThenBreaks(text[1..], text[0] == '\n');
    }
  }

  lemma {:induction false} ContentIsQuiet(text: string)
    requires Quiet(text, true)
    ensures Quiet("\n\n" + text + "\n\n", false)
  {
    QuietThenBreaks(text, true);
    var s := "\n\n" + text + "\n\n";
    assert s[1..] == "\n" + (text + "\n\n") && s[1..][1..] == text + "\n\n";
    PrefixAgrees(s[1..], Hashes, 0);
  }

  /** The blocks with `text` put before the first. */
  function Prefixed(text: string, blocks: seq<string>): seq<string>
    requires blocks != []
  {
    [text + blocks[0]] + blocks[1..]
  }

  lemma {:induction false} PrefixedTwice(a: string, b: string, blocks: seq<string>)
    requires blocks != []
    ensures Prefixed(a, Prefixed(b, blocks)) == Prefixed(a + b, blocks)
  {
    assert a + (b + blocks[0]) == a + b + blocks[0];
  }

  lemma {:induction false} OneCharacter(s: string, lineStart: bool)
    requires s != "" && !(lineStart && Heading(s).Some?)
    ensures Blocks(s, lineStart) == Prefixed([s[0]], Blocks(s[1..], s[0] == '\n'))
  {
  }

  /** Lines in which no heading starts stay one block. */
  lemma {:induction false} FreeIsOneBlock(text: string, lineStart: bool, rest: string)
    requires HeadingFree(text, lineStart, rest) && text != "" && text[|text| - 1] == '\n'
    ensures Blocks(text + rest, lineStart) == Prefixed(text, Blocks(rest, true))
    decreases |text|
  {
    OneCharacter(text + rest, lineStart);
    assert (text + rest)[1..] == text[1..] + rest && (text + rest)[0] == text[0];
    if text[1..] == "" {
      assert text == [text[0]] && text[1..] + rest == rest;
    } else {
      FreeIsOneBlock(text[1..], text[0] == '\n', rest);
      PrefixedTwice([text[0]], text[1..], Blocks(rest, true));
      assert text == [text[0]] + text[1..];
    }
  }

  /** Quiet lines are free of headings, whatever follows them. */
  lemma {:induction false} QuietIsFree(text: string, lineStart: bool, rest: string)
    requires Quiet(text, lineStart) && (text != "" ==> text[|text| - 1] == '\n')
    ensures HeadingFree(text, lineStart, rest)
    decreases |text|
  {
    if text != "" {
      if !HasPrefix(text, Hashes) { NotHashes(text, rest); }
      QuietIsFree(text[1..], text[0] == '\n', rest);
    }
  }

  lemma {:induction false} LineEnds(name: string, rest: string)
    requires '\n' !in name && rest != "" && rest[0] == '\n'
    ensures LineLength(name + rest) == |name|
    decreases |name|
  {
    if name == "" {
      assert name + rest == rest;
    } else {
      assert (name + rest)[1..] == name[1..] + rest;
      LineEnds(name[1..], rest);
    }
  }

  lemma {:induction false} HeadingIsFound(name: string, rest: string)
    requires name != "" && !IsSpace(name[0]) && '\n' !in name && rest != "" && rest[0] == '\n'
    ensures Heading("### " + name + rest) == Some(4 + |name|)
  {
    var s := "### " + name + rest;
    assert s[..3] == Hashes;
    var t := s[3..];
    assert t == " " + (name + rest) && t[1..] == name + rest;
    assert SpaceRun(t[1..]) == 0;
    LineEnds(name, rest);
  }

  lemma {:induction false} HeadingIsBlock(t: Turn, rest: string)
    requires rest != "" && rest[0] == '\n'
    ensures Blocks(HeadingOf(t) + rest, true) == ["", HeadingOf(t)] + Blocks(rest, false)
  {
    var name := if t.User? then UserInput else PlannerResponse;
    HeadingIsFound(name, rest);
    var s := HeadingOf(t) + rest;
    assert s == "### " + name + rest;
    assert s[..|HeadingOf(t)|] == HeadingOf(t) && s[|HeadingOf(t)|..] == rest;
  }

  lemma {:induction false} FreeTurnsAreBlocks(turns: seq<Turn>)
    requires TurnsFree(turns)
    ensures Blocks(Printed(turns), true) == [""] + TurnBlocks(turns)
  {
    if turns != [] {
      var t := turns[0];
      FreeTurnsAreBlocks(turns[1..]);
      FreeIsOneBlock(ContentOf(t), false, Printed(turns[1..]));
      HeadingIsBlock(t, ContentOf(t) + Printed(turns[1..]));
      Gathered(HeadingOf(t), ContentOf(t), TurnBlocks(turns[1..]));
    }
  }

  lemma {:induction false} Gathered(heading: string, content: string, rest: seq<string>)
    ensures ["", heading] + Prefixed(content, [""] + rest) == [""] + ([heading, content] + rest)
  {
    assert content + "" == content;
  }

  lemma {:induction false} GatheredOne(heading: string, rest: seq<string>)
    ensures ["", heading] + rest == [""] + ([heading] + rest)
  {
  }

  // ---------- Headings in the texts ----------

  function HashCount(s: string): nat {
    if s == "" then 0 else (if s[0] == '#' then 1 else 0) + HashCount(s[1..])
  }

  lemma {:induction false} HashCountConcat(s: string, t: string)
    ensures HashCount(s + t) == HashCount(s) + HashCount(t)
  {
    if s == "" {
      assert s + t == t;
    } else {
      assert (s + t)[1..] == s[1..] + t;
      HashCountConcat(s[1..], t);
    }
  }

  /** The '#' characters in the headings of alternating blocks. */
  function HeadingHashes(blocks: seq<string>): nat {
    if |blocks| < 2 then 0 else HashCount(blocks[1]) + HeadingHashes(blocks[2..])
  }

  lemma {:induction false} ThreeHashes(s: string)
    requires HasPrefix(s, Hashes)
    ensures HashCount(s) == 3 + HashCount(s[3..])
  {
    assert s == Hashes + s[3..];
    HashCountConcat(Hashes, s[3..]);
    assert "###"[1..] == "##" && "##"[1..] == "#" && "#"[1..] == "";
  }

  lemma {:induction false} HeadingOfHashes(t: Turn)
    ensures HasPrefix(HeadingOf(t), Hashes) && HashCount(HeadingOf(t)) >= 3
  {
    assert HeadingOf(t)[..3] == Hashes;
    ThreeHashes(HeadingOf(t));
  }

  lemma {:induction false} PrefixedHashes(text: string, blocks: seq<string>)
    requires blocks != []
    ensures HeadingHashes(Prefixed(text, blocks)) == HeadingHashes(blocks)
  {
    if |blocks| >= 2 { assert Prefixed(text, blocks)[2..] == blocks[2..]; }
  }

  lemma {:induction false} PairedHashes(a: string, b: string, blocks: seq<string>)
    ensures HeadingHashes([a, b] + blocks) == HashCount(b) + HeadingHashes(blocks)
  {
    assert ([a, b] + blocks)[2..] == blocks;
  }

  lemma {:induction false} LineIsUnbroken(s: string)
    ensures forall i :: 0 <= i < LineLength(s) ==> s[i] != '\n'
  {
    if s != "" && s[0] != '\n' {
      LineIsUnbroken(s[1..]);
      assert forall i :: 0 < i < LineLength(s) ==> s[i] == s[1..][i - 1];
    }
  }

  lemma {:induction false} RunIsSpace(s: string)
    ensures forall i :: 0 <= i < SpaceRun(s) ==> IsSpace(s[i])
    ensures SpaceRun(s) < |s| ==> !IsSpace(s[SpaceRun(s)])
  {
    if s != "" && IsSpace(s[0]) {
      RunIsSpace(s[1..]);
      assert forall i :: 0 < i < SpaceRun(s) ==> s[i] == s[1..][i - 1];
    }
  }

  /** Where a heading that starts in `c` ends: before a line break in `c`, or, having run over the
      line breaks at the end of `c`, with the heading that follows. */
  lemma {:induction false} HeadingEnds(c: string, rest: seq<Turn>)
    requires c != "" && c[|c| - 1] == '\n' && Heading(c + Printed(rest)).Some?
    ensures var n := Heading(c + Printed(rest)).value;
            HasPrefix((c + Printed(rest))[..n], Hashes) && |c| > 3
            && (n < |c| || (rest == [] && n == |c|) || (rest != [] && n == |c| + |HeadingOf(rest[0])|))
  {
    var s := c + Printed(rest);
    StartsInText(c, Printed(rest), Heading(s).value);
    if SpaceRun(s[3..]) < |s| - 3 {
      if 3 + SpaceRun(s[3..]) < |c| {
        StaysInText(c, Printed(rest), SpaceRun(s[3..]));
      } else {
        HeadingSwallows(c, rest, SpaceRun(s[3..]));
      }
    } else if rest != [] {
      RunStopsAtHash(c, rest);
    }
  }

  lemma {:induction false} StartsInText(c: string, rest: string, n: nat)
    requires c != "" && c[|c| - 1] == '\n' && Heading(c + rest) == Some(n)
    ensures n > 3 && HasPrefix((c + rest)[..n], Hashes) && |c| > 3
  {
    var s := c + rest;
    PrefixAgrees(s, Hashes, 0);
    PrefixAgrees(s, Hashes, 1);
    PrefixAgrees(s, Hashes, 2);
    assert s[..n][..3] == s[..3];
    assert s[|c| - 1] == '\n';
  }

  lemma {:induction false} StaysInText(c: string, rest: string, w: nat)
    requires |c| > 3 && c[|c| - 1] == '\n' && 3 + w < |c|
    ensures 3 + w + LineLength((c + rest)[3..][w..]) < |c|
  {
    var line := (c + rest)[3..][w..];
    LineIsUnbroken(line);
    assert line[|c| - 4 - w] == c[|c| - 1];
  }

  lemma {:induction false} RunStopsAtHash(c: string, rest: seq<Turn>)
    requires |c| >= 3 && rest != []
    ensures SpaceRun((c + Printed(rest))[3..]) <= |c| - 3 < |(c + Printed(rest))[3..]|
  {
    var t := (c + Printed(rest))[3..];
    RunIsSpace(t);
    assert t[|c| - 3] == Printed(rest)[0] == '#';
  }

  lemma {:induction false} HeadingSwallows(c: string, rest: seq<Turn>, w: nat)
    requires |c| > 3 && HasPrefix(c + Printed(rest), Hashes)
    requires w == SpaceRun((c + Printed(rest))[3..]) && w >= |c| - 3 && w < |(c + Printed(rest))[3..]|
    ensures rest != [] && w == |c| - 3 && 3 + w + LineLength((c + Printed(rest))[3..][w..])
            == |c| + |HeadingOf(rest[0])|
  {
    var s := c + Printed(rest);
    var t := s[3..];
    assert rest != [];
    RunStopsAtHash(c, rest);
    assert t[w..] == HeadingOf(rest[0]) + (ContentOf(rest[0]) + Printed(rest[1..]));
    LineEnds(HeadingOf(rest[0]), ContentOf(rest[0]) + Printed(rest[1..]));
  }

  /** Splitting finds at least the printed headings, and more '#' characters in headings as soon
      as one starts in a text. */
  lemma {:induction false} HeadingsFound(c: string, lineStart: bool, rest: seq<Turn>)
    requires c != "" ==> c[|c| - 1] == '\n'
    requires c == "" ==> lineStart || rest == []
    ensures var found := HeadingHashes(Blocks(c + Printed(rest), lineStart));
            found >= 3 * |rest|
            && ((HeadingFree(c, lineStart, Printed(rest)) && TurnsFree(rest)) || found > 3 * |rest|)
    decreases |c| + |Printed(rest)|, 1
  {
    var s := c + Printed(rest);
    if c == "" {
      assert s == Printed(rest);
      if rest != [] {
        HeadingsFoundNext(rest);
      }
    } else if lineStart && Heading(s).Some? {
      HeadingIsExtra(c, rest);
    } else {
      NextCharacter(c, lineStart, Printed(rest));
      HeadingsFound(c[1..], c[0] == '\n', rest);
    }
  }

  lemma {:induction false} NextCharacter(c: string, lineStart: bool, rest: string)
    requires c != "" && !(lineStart && Heading(c + rest).Some?)
    ensures HeadingHashes(Blocks(c + rest, lineStart)) == HeadingHashes(Blocks(c[1..] + rest, c[0] == '\n'))
    ensures HeadingFree(c, lineStart, rest) <==> HeadingFree(c[1..], c[0] == '\n', rest)
  {
    var s := c + rest;
    OneCharacter(s, lineStart);
    assert s[1..] == c[1..] + rest && s[0] == c[0];
    PrefixedHashes([s[0]], Blocks(s[1..], s[0] == '\n'));
  }

  lemma {:induction false} AtHeading(s: string, head: string, tail: string)
    requires Heading(s).Some? && head == s[..Heading(s).value] && tail == s[Heading(s).value..]
    ensures HeadingHashes(Blocks(s, true)) == HashCount(head) + HeadingHashes(Blocks(tail, false))
  {
    PairedHashes("", head, Blocks(tail, false));
  }

  lemma {:induction false} TailOf(c: string, rest: string, n: nat)
    requires n <= |c| && c != "" && c[|c| - 1] == '\n'
    ensures (c + rest)[n..] == c[n..] + rest && (c[n..] != "" ==> c[n..][|c[n..]| - 1] == '\n')
  {
  }

  lemma {:induction false} HeadingIsExtra(c: string, rest: seq<Turn>)
    requires c != "" && c[|c| - 1] == '\n' && Heading(c + Printed(rest)).Some?
    ensures HeadingHashes(Blocks(c + Printed(rest), true)) > 3 * |rest|
    decreases |c| + |Printed(rest)|, 0
  {
    var s := c + Printed(rest);
    var n := Heading(s).value;
    HeadingEnds(c, rest);
    if n <= |c| {
      TailOf(c, Printed(rest), n);
      AtHeading(s, s[..n], c[n..] + Printed(rest));
      ThreeHashes(s[..n]);
      HeadingsFound(c[n..], false, rest);
    } else {
      SwallowedTail(c, rest);
      AtHeading(s, c + HeadingOf(rest[0]), ContentOf(rest[0]) + Printed(rest[1..]));
      SwallowedHashes(c, rest);
      HeadingsFound(ContentOf(rest[0]), false, rest[1..]);
    }
  }

  lemma {:induction false} SwallowedTail(c: string, rest: seq<Turn>)
    requires rest != []
    ensures var s, n := c + Printed(rest), |c| + |HeadingOf(rest[0])|;
            n <= |s| && s[..n] == c + HeadingOf(rest[0]) && s[n..] == ContentOf(rest[0]) + Printed(rest[1..])
  {
    assert c + Printed(rest) == c + HeadingOf(rest[0]) + (ContentOf(rest[0]) + Printed(rest[1..]));
  }

  lemma {:induction false} SwallowedHashes(c: string, rest: seq<Turn>)
    requires rest != [] && HasPrefix(c + Printed(rest), Hashes) && |c| > 3
    ensures HashCount(c + HeadingOf(rest[0])) >= 6
  {
    assert c[..3] == (c + Printed(rest))[..3];
    ThreeHashes(c);
    HeadingOfHashes(rest[0]);
    HashCountConcat(c, HeadingOf(rest[0]));
  }

  lemma {:induction false} HeadingsFoundNext(rest: seq<Turn>)
    requires rest != []
    ensures var found := HeadingHashes(Blocks(Printed(rest), true));
            found >= 3 * |rest| && (TurnsFree(rest) || found > 3 * |rest|)
    decreases |Printed(rest)|, 0
  {
    var t, tail := rest[0], ContentOf(rest[0]) + Printed(rest[1..]);
    HeadingIsBlock(t, tail);
    PairedHashes("", HeadingOf(t), Blocks(tail, false));
    HeadingOfHashes(t);
    HeadingsFound(ContentOf(t), false, rest[1..]);
  }

  lemma {:induction false} TurnBlocksHashes(turns: seq<Turn>)
    ensures HeadingHashes([""] + TurnBlocks(turns)) == 3 * |turns|
  {
    if turns != [] {
      var t := turns[0];
      TurnBlocksHashes(turns[1..]);
      assert [""] + TurnBlocks(turns) == ["", HeadingOf(t)] + ([ContentOf(t)] + TurnBlocks(turns[1..]));
      PairedHashes("", HeadingOf(t), [ContentOf(t)] + TurnBlocks(turns[1..]));
      PrefixedHashes(ContentOf(t), [""] + TurnBlocks(turns[1..]));
      assert Prefixed(ContentOf(t), [""] + TurnBlocks(turns[1..])) == [ContentOf(t)] + TurnBlocks(turns[1..]) by {
        assert ContentOf(t) + "" == ContentOf(t);
      }
      PrintedHeadingHashes(t);
    }
  }

  lemma {:induction false} NamedHeadingHashes(name: string)
    requires '#' !in name
    ensures HashCount("### " + name) == 3
  {
    var head := "### " + name;
    assert head[..3] == Hashes && head[3..] == " " + name && (" " + name)[1..] == name;
    ThreeHashes(head);
    NoHashes(name);
  }

  lemma {:induction false} PrintedHeadingHashes(t: Turn)
    ensures HashCount(HeadingOf(t)) == 3
  {
    NamedHeadingHashes(if t.User? then UserInput else PlannerResponse);
  }

  lemma {:induction false} NoHashes(s: string)
    requires '#' !in s
    ensures HashCount(s) == 0
  {
    if s != "" { NoHashes(s[1..]); }
  }

  /** Splitting at headings gives the printed headings and contents exactly when no heading starts
      in a text. */
  lemma {:induction false} PrintedBlocksIff(turns: seq<Turn>)
    ensures Blocks(Printed(turns), true) == [""] + TurnBlocks(turns) <==> TurnsFree(turns)
  {
    if TurnsFree(turns) {
      FreeTurnsAreBlocks(turns);
    } else {
      HeadingsFoundNext(turns);
      TurnBlocksHashes(turns);
    }
  }

  // ---------- What comes back ----------

  lemma {:induction false} NamedMarks(name: string, other: string)
    requires name != "" && !IsSpace(name[0])
    ensures Marks("### " + name, other) <==> HasPrefix(Lowered(name), Lowered(other))
  {
    var s := "### " + name;
    assert s[..3] == Hashes && s[3..] == " " + name && (" " + name)[1..] == name;
    assert SpaceRun(name) == 0;
  }

  lemma {:induction false} NamesDiffer()
    ensures HasPrefix(Lowered(UserInput), Lowered(UserInput))
    ensures HasPrefix(Lowered(PlannerResponse), Lowered(PlannerResponse))
    ensures !HasPrefix(Lowered(UserInput), Lowered(PlannerResponse))
    ensures !HasPrefix(Lowered(PlannerResponse), Lowered(UserInput))
  {
    var u, p := Lowered(UserInput), Lowered(PlannerResponse);
    assert u[..|u|] == u && p[..|p|] == p;
    assert u[0] == 'u' && p[0] == 'p';
    PrefixAgrees(u, p, 0);
    PrefixAgrees(p, u, 0);
  }

  lemma {:induction false} HeadingMarks(t: Turn)
    ensures Strip(HeadingOf(t)) == HeadingOf(t)
    ensures Marks(HeadingOf(t), UserInput) <==> t.User?
    ensures Marks(HeadingOf(t), PlannerResponse) <==> t.Planner?
  {
    var name := if t.User? then UserInput else PlannerResponse;
    StripTrimmed("### " + name);
    NamesDiffer();
    NamedMarks(name, UserInput);
    NamedMarks(name, PlannerResponse);
  }

  lemma {:induction false} SpaceRunExtends(t: string, u: string)
    requires SpaceRun(t) < |t|
    ensures SpaceRun(t + u) == SpaceRun(t)
  {
    if IsSpace(t[0]) {
      assert (t + u)[1..] == t[1..] + u;
      SpaceRunExtends(t[1..], u);
    }
  }

  /** A text that reads as one of the two headings would start one. */
  lemma {:induction false} MarkStartsHeading(text: string, name: string, u: string)
    requires Marks(text, name) && name != ""
    ensures Heading(text + u).Some?
  {
    var t := text[3..];
    assert (text + u)[..3] == text[..3] && (text + u)[3..] == t + u;
    SpaceRunExtends(t, u);
  }

  lemma {:induction false} FreeTextIsNoMark(t: Turn, name: string, rest: string)
    requires HeadingFree(ContentOf(t), false, rest) && name != ""
    ensures !Marks(t.text, name)
  {
    var u := "\n\n" + rest;
    assert ContentOf(t)[1..] == "\n" + (t.text + "\n\n") && ContentOf(t)[1..][1..] == t.text + "\n\n";
    assert t.text + "\n\n" + rest == t.text + u;
    assert HeadingFree(ContentOf(t)[1..], true, rest);
    assert HeadingFree(ContentOf(t)[1..][1..], true, rest);
    if Marks(t.text, name) { MarkStartsHeading(t.text, name, u); }
  }

  lemma {:induction false} TurnIsAbsorbed(st: State, before: Option<string>, t: Turn, rest: string)
    requires Trimmed(t.text) && HeadingFree(ContentOf(t), false, rest)
    ensures Absorb(Absorb(st, before, HeadingOf(t)), Some(HeadingOf(t)), ContentOf(t)) == TurnStep(st, t)
  {
    HeadingMarks(t);
    StripUnique("\n\n", t.text, "\n\n");
    FreeTextIsNoMark(t, UserInput, rest);
    FreeTextIsNoMark(t, PlannerResponse, rest);
  }

  lemma {:induction false} ScanTwo(st: State, before: Option<string>, a: string, b: string, rest: seq<string>)
    ensures Scan(st, before, [a, b] + rest) == Scan(Absorb(Absorb(st, before, a), Some(a), b), Some(b), rest)
  {
    var all := [a, b] + rest;
    assert all[1..][0] == b && all[1..][1..] == rest;
  }

  lemma {:induction false} ScanTurns(st: State, before: Option<string>, turns: seq<Turn>)
    requires Stripped(turns) && TurnsFree(turns)
    ensures Scan(st, before, TurnBlocks(turns)) == Machine(st, turns)
    decreases |turns|
  {
    if turns != [] {
      var t := turns[0];
      assert t in turns;
      ScanTwo(st, before, HeadingOf(t), ContentOf(t), TurnBlocks(turns[1..]));
      TurnIsAbsorbed(st, before, t, Printed(turns[1..]));
      ScanTurns(TurnStep(st, t), Some(ContentOf(t)), turns[1..]);
    }
  }

  /** No heading starts in what stands before the printed turns. */
  predicate LeadsIn(preamble: string, turns: seq<Turn>) {
    (preamble == "" || preamble[|preamble| - 1] == '\n') && HeadingFree(preamble, true, Printed(turns))
  }

  /** The texts are stripped, and neither a heading nor a carriage return before a line break
      hides in them or in what stands before the first heading. */
  predicate Legible(preamble: string, turns: seq<Turn>) {
    LeadsIn(preamble, turns) && !Contains(preamble + Printed(turns), "\r\n") && Stripped(turns) && TurnsFree(turns)
  }

  lemma {:induction false} PreambleIsBlock(preamble: string, turns: seq<Turn>)
    requires LeadsIn(preamble, turns)
    ensures Blocks(preamble + Printed(turns), true) == Prefixed(preamble, Blocks(Printed(turns), true))
  {
    if preamble == "" {
      assert preamble + Printed(turns) == Printed(turns);
      PrefixedNothing(Blocks(Printed(turns), true));
    } else {
      FreeIsOneBlock(preamble, true, Printed(turns));
    }
  }

  lemma {:induction false} PrefixedNothing(blocks: seq<string>)
    requires blocks != []
    ensures Prefixed("", blocks) == blocks
  {
    assert "" + blocks[0] == blocks[0];
  }

  /** Splitting and scanning give what the turns give, whatever stands before them. */
  lemma {:induction false} PrintedIsScanned(preamble: string, turns: seq<Turn>)
    requires LeadsIn(preamble, turns) && Stripped(turns) && TurnsFree(turns)
    ensures Scan(Start, None, Blocks(preamble + Printed(turns), true)) == Machine(Start, turns)
  {
    FreeTurnsAreBlocks(turns);
    PreambleIsBlock(preamble, turns);
    var blocks := [preamble] + TurnBlocks(turns);
    assert preamble + "" == preamble;
    assert Prefixed(preamble, [""] + TurnBlocks(turns)) == blocks;
    assert blocks[1..] == TurnBlocks(turns);
    assert Absorb(Start, None, preamble) == Start;
    ScanTurns(Start, Some(preamble), turns);
  }

  /** The text parser sees the turns of a printed transcript, whatever stands before them. */
  lemma {:induction false} PrintedParses(preamble: string, turns: seq<Turn>)
    requires Legible(preamble, turns)
    ensures Parsed(preamble + Printed(turns)) == Result(Machine(Start, turns))
  {
    AbsentIsKept(preamble + Printed(turns), "\r\n", "\n");
    PrintedIsScanned(preamble, turns);
  }

  /** A printed transcript parses to the conversation it records exactly when no planner block
      that answers no question comes before a question. */
  lemma {:induction false} TranscriptNeverMixesIff(preamble: string, turns: seq<Turn>)
    requires Legible(preamble, turns)
    ensures Parsed(preamble + Printed(turns)) == Conversation(turns) <==> !Mixes(turns, false)
  {
    PrintedParses(preamble, turns);
    NeverMixesIff(turns);
  }

  // ---------- A condition on each text alone ----------

  predicate Plain(t: Turn) {
    Trimmed(t.text) && Quiet(t.text, true) && '\r' !in t.text
  }

  predicate AllPlain(turns: seq<Turn>) {
    forall t :: t in turns ==> Plain(t)
  }

  lemma {:induction false} PrintedHasNoReturn(turns: seq<Turn>)
    requires AllPlain(turns)
    ensures '\r' !in Printed(turns)
  {
    if turns != [] {
      var t := turns[0];
      assert t in turns && Plain(t);
      PrintedHasNoReturn(turns[1..]);
      assert '\r' !in HeadingOf(t) && '\r' !in ContentOf(t);
    }
  }

  lemma {:induction false} PlainTurnsAreFree(turns: seq<Turn>)
    requires AllPlain(turns)
    ensures TurnsFree(turns)
  {
    if turns != [] {
      var t := turns[0];
      assert t in turns && Plain(t);
      ContentIsQuiet(t.text);
      QuietIsFree(ContentOf(t), false, Printed(turns[1..]));
      PlainTurnsAreFree(turns[1..]);
    }
  }

  /** Texts without a line that starts with "###" and without carriage returns will do. */
  lemma {:induction false} PlainIsLegible(preamble: string, turns: seq<Turn>)
    requires Quiet(preamble, true) && '\r' !in preamble && (preamble == "" || preamble[|preamble| - 1] == '\n')
    requires AllPlain(turns)
    ensures Legible(preamble, turns)
  {
    QuietIsFree(preamble, true, Printed(turns));
    PrintedHasNoReturn(turns);
    NothingToFind(preamble + Printed(turns), "\r\n", '\r');
    PlainTurnsAreFree(turns);
  }

  // ---------- A heading inside an answer ----------

  lemma {:induction false} QuietIsNoMark(text: string, name: string)
    requires Quiet(text, true)
    ensures !Marks(text, name)
  {
  }

  lemma {:induction false} InnerHeadingBlocks(a: string, w: string, b: string)
    requires Quiet(a, true) && w != "" && !IsSpace(w[0]) && '\n' !in w && Quiet(b, true)
    ensures Blocks(("\n\n" + a + "\n") + (("### " + w) + ("\n" + b + "\n\n")), false)
         == ["\n\n" + a + "\n", "### " + w, "\n" + b + "\n\n"]
  {
    var x, h, y := "\n\n" + a + "\n", "### " + w, "\n" + b + "\n\n";
    LineBreaksAreQuiet(a);
    QuietIsFree(x, false, h + y);
    FreeIsOneBlock(x, false, h + y);
    HeadingThenQuiet(w, b);
    assert x + "" == x;
    assert Prefixed(x, ["", h, y]) == [x, h, y];
  }

  lemma {:induction false} HeadingThenQuiet(w: string, b: string)
    requires w != "" && !IsSpace(w[0]) && '\n' !in w && Quiet(b, true)
    ensures Blocks(("### " + w) + ("\n" + b + "\n\n"), true) == ["", "### " + w, "\n" + b + "\n\n"]
  {
    var h, y := "### " + w, "\n" + b + "\n\n";
    HeadingIsFound(w, y);
    assert (h + y)[..|h|] == h && (h + y)[|h|..] == y;
    QuietThenBreaks(b, true);
    assert y[1..] == b + "\n\n";
    QuietIsAlone(y);
    assert ["", h] + [y] == ["", h, y];
  }

  lemma {:induction false} QuietIsAlone(y: string)
    requires Quiet(y, false) && y != "" && y[|y| - 1] == '\n'
    ensures Blocks(y, false) == [y]
  {
    QuietIsFree(y, false, "");
    FreeIsOneBlock(y, false, "");
    assert y + "" == y;
  }

  lemma {:induction false} LineBreaksAreQuiet(a: string)
    requires Quiet(a, true)
    ensures Quiet("\n\n" + a + "\n", false)
  {
    var x := "\n\n" + a + "\n";
    QuietThenBreak(a, true);
    assert x[1..] == "\n" + (a + "\n") && x[1..][1..] == a + "\n";
    PrefixAgrees(x[1..], Hashes, 0);
  }

  lemma {:induction false} QuietThenBreak(text: string, lineStart: bool)
    requires Quiet(text, lineStart)
    ensures Quiet(text + "\n", lineStart)
  {
    if text == "" {
      assert text + "\n" == "\n" && "\n"[1..] == "";
      PrefixAgrees("\n", Hashes, 0);
    } else {
      if !HasPrefix(text, Hashes) { NotHashes(text, "\n"); }
      assert (text + "\n")[1..] == text[1..] + "\n";
      QuietThenBreak(text[1..], text[0] == '\n');
    }
  }

  /** The three blocks of such an answer, scanned after its heading: only the first is kept. */
  lemma {:induction false} InnerHeadingScan(st: State, a: string, w: string, b: string)
    requires Quiet(a, true) && Trimmed(a) && a != "" && Quiet(b, true) && Trimmed(b)
    requires w != "" && Trimmed(w) && !Marks("### " + w, UserInput) && !Marks("### " + w, PlannerResponse)
    ensures var blocks := ["\n\n" + a + "\n", "### " + w, "\n" + b + "\n\n"];
            Scan(st, Some(HeadingOf(Planner(a))), blocks) == st.(chunks := st.chunks + [a])
  {
    var x, h, y := "\n\n" + a + "\n", "### " + w, "\n" + b + "\n\n";
    var kept := st.(chunks := st.chunks + [a]);
    HeadingMarks(Planner(a));
    StripUnique("\n\n", a, "\n");
    StripUnique("\n", b, "\n\n");
    StripTrimmed(h);
    QuietIsNoMark(a, UserInput);
    QuietIsNoMark(a, PlannerResponse);
    QuietIsNoMark(b, UserInput);
    QuietIsNoMark(b, PlannerResponse);
    assert Absorb(st, Some(HeadingOf(Planner(a))), x) == kept;
    assert Absorb(kept, Some(x), h) == kept;
    assert Absorb(kept, Some(h), y) == kept;
    ScanThree(st, Some(HeadingOf(Planner(a))), x, h, y);
  }

  lemma {:induction false} ScanThree(st: State, before: Option<string>, x: string, h: string, y: string)
    ensures Scan(st, before, [x, h, y]) == Absorb(Absorb(Absorb(st, before, x), Some(x), h), Some(h), y)
  {
    ScanTwo(st, before, x, h, [y]);
    assert [x, h] + [y] == [x, h, y] && [y][1..] == [];
  }

  lemma {:induction false} PrintedTwo(u: Turn, p: Turn)
    ensures Printed([u, p]) == HeadingOf(u) + (ContentOf(u) + (HeadingOf(p) + ContentOf(p)))
  {
    assert [u, p][1..] == [p] && [p][1..] == [];
    assert Printed([p]) == HeadingOf(p) + (ContentOf(p) + Printed([]));
    assert ContentOf(p) + "" == ContentOf(p);
  }

  lemma {:induction false} QuietTurnThen(u: Turn, tail: string)
    requires Quiet(u.text, true)
    ensures Blocks(HeadingOf(u) + (ContentOf(u) + tail), true)
         == ["", HeadingOf(u)] + Prefixed(ContentOf(u), Blocks(tail, true))
  {
    ContentIsQuiet(u.text);
    QuietIsFree(ContentOf(u), false, tail);
    HeadingIsBlock(u, ContentOf(u) + tail);
    FreeIsOneBlock(ContentOf(u), false, tail);
  }

  /** The blocks of two turns, the second with a heading of its own. */
  lemma {:induction false} TwoTurnsBlocks(u: Turn, p: Turn, x: string, h: string, y: string)
    requires Quiet(u.text, true)
    requires ContentOf(p) == x + (h + y) && x != "" && x[0] == '\n' && Blocks(x + (h + y), false) == [x, h, y]
    ensures Blocks(Printed([u, p]), true)
         == [""] + ([HeadingOf(u), ContentOf(u)] + ([HeadingOf(p)] + [x, h, y]))
  {
    PrintedTwo(u, p);
    QuietTurnThen(u, HeadingOf(p) + ContentOf(p));
    HeadingIsBlock(p, ContentOf(p));
    GatheredOne(HeadingOf(p), [x, h, y]);
    Gathered(HeadingOf(u), ContentOf(u), [HeadingOf(p)] + [x, h, y]);
  }

  lemma {:induction false} ReplyParts(a: string, h: string, b: string)
    ensures "\n\n" + (a + "\n" + h + "\n" + b) + "\n\n" == ("\n\n" + a + "\n") + (h + ("\n" + b + "\n\n"))
  {
  }

  /** An answer with a heading of its own loses the heading and what follows it. */
  lemma {:induction false} InnerHeadingCutsReply(query: string, a: string, w: string, b: string)
    requires Plain(User(query)) && query != "" && Plain(Planner(a)) && a != "" && Plain(Planner(b))
    requires w != "" && Trimmed(w) && '\n' !in w && '\r' !in w
    requires !Marks("### " + w, UserInput) && !Marks("### " + w, PlannerResponse)
    ensures var reply := a + "\n" + ("### " + w) + "\n" + b;
            Parsed(Printed([User(query), Planner(reply)])) == [Pair(query, a)]
            && a != reply
  {
    var h := "### " + w;
    var x, y := "\n\n" + a + "\n", "\n" + b + "\n\n";
    InnerHeadingBlocks(a, w, b);
    InnerHeadingScan(State(Some(query), [], []), a, w, b);
    ReplyParts(a, h, b);
    CutReply(User(query), Planner(a + "\n" + h + "\n" + b), a, x, h, y);
  }

  lemma {:induction false} CutReply(u: Turn, p: Turn, a: string, x: string, h: string, y: string)
    requires u.User? && p.Planner? && Plain(u) && u.text != "" && Trimmed(a) && '\r' !in p.text
    requires ContentOf(p) == x + (h + y) && x != "" && x[0] == '\n' && Blocks(x + (h + y), false) == [x, h, y]
    requires Scan(State(Some(u.text), [], []), Some(HeadingOf(p)), [x, h, y]) == State(Some(u.text), [a], [])
    ensures Parsed(Printed([u, p])) == [Pair(u.text, a)]
  {
    PrintedTwo(u, p);
    NoReturnInside(u, p, Printed([u, p]));
    TwoTurnsBlocks(u, p, x, h, y);
    TwoTurnsScan(u, p, a, [x, h, y]);
  }

  lemma {:induction false} NoReturnInside(u: Turn, p: Turn, text: string)
    requires text == HeadingOf(u) + (ContentOf(u) + (HeadingOf(p) + ContentOf(p)))
    requires '\r' !in u.text && '\r' !in p.text
    ensures ReplaceAll(text, "\r\n", "\n") == text
  {
    assert '\r' !in HeadingOf(u) && '\r' !in HeadingOf(p) && '\r' !in ContentOf(u) && '\r' !in ContentOf(p);
    NothingToReplace(text, "\r\n", '\r', "\n");
  }

  lemma {:induction false} TwoTurnsScan(u: Turn, p: Turn, a: string, last: seq<string>)
    requires u.User? && p.Planner? && Plain(u) && u.text != "" && Trimmed(a)
    requires Scan(State(Some(u.text), [], []), Some(HeadingOf(p)), last) == State(Some(u.text), [a], [])
    ensures var blocks := [""] + ([HeadingOf(u), ContentOf(u)] + ([HeadingOf(p)] + last));
            Result(Scan(Start, None, blocks)) == [Pair(u.text, a)]
  {
    var tail := [HeadingOf(p)] + last;
    var rest := [HeadingOf(u), ContentOf(u)] + tail;
    var st := State(Some(u.text), [], []);
    assert ([""] + rest)[1..] == rest && tail[1..] == last;
    assert Absorb(Start, None, "") == Start;
    ScanTwo(Start, Some(""), HeadingOf(u), ContentOf(u), tail);
    ContentIsQuiet(u.text);
    QuietIsFree(ContentOf(u), false, "");
    TurnIsAbsorbed(Start, Some(""), u, "");
    assert TurnStep(Start, u) == st;
    HeadingMarks(p);
    assert Absorb(st, Some(ContentOf(u)), HeadingOf(p)) == st;
    StripTrimmed(a);
  }
}
