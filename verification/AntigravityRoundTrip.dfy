/** Exactly when the exchanges of a printed Antigravity transcript come back: an argument that
    counts the '#' characters the parser loses. */
module AntigravityRoundTrip {
  import opened Wrappers
  import opened Text
  import opened Search
  import opened Messages
  import opened AntigravityTurns
  import opened AntigravityTranscript

  // ---------- Counting ----------

  lemma {:induction false} NoHashInBlank(s: string)
    requires Blank(s)
    ensures HashCount(s) == 0
  {
    if s != "" { NoHashInBlank(s[1..]); }
  }

  lemma {:induction false} StripKeepsHashes(s: string)
    ensures HashCount(Strip(s)) == HashCount(s)
  {
    var before, after := StripSplits(s);
    HashCountConcat(before + Strip(s), after);
    HashCountConcat(before, Strip(s));
    NoHashInBlank(before);
    NoHashInBlank(after);
  }

  function SumHashes(parts: seq<string>): nat {
    if parts == [] then 0 else HashCount(parts[0]) + SumHashes(parts[1..])
  }

  lemma {:induction false} SumHashesAppend(parts: seq<string>, last: string)
    ensures SumHashes(parts + [last]) == SumHashes(parts) + HashCount(last)
  {
    if parts == [] {
      assert parts + [last] == [last];
    } else {
      assert (parts + [last])[1..] == parts[1..] + [last];
      SumHashesAppend(parts[1..], last);
    }
  }

  lemma {:induction false} SumHashesPrefixed(text: string, blocks: seq<string>)
    requires blocks != []
    ensures SumHashes(Prefixed(text, blocks)) == HashCount(text) + SumHashes(blocks)
  {
    HashCountConcat(text, blocks[0]);
    assert Prefixed(text, blocks)[1..] == blocks[1..];
  }

  lemma {:induction false} SumHashesPair(a: string, b: string, blocks: seq<string>)
    ensures SumHashes([a, b] + blocks) == HashCount(a) + HashCount(b) + SumHashes(blocks)
  {
    assert ([a, b] + blocks)[1..] == [b] + blocks && ([b] + blocks)[1..] == blocks;
  }

  /** Splitting keeps every character. */
  lemma {:induction false} BlocksKeepHashes(s: string, lineStart: bool)
    ensures SumHashes(Blocks(s, lineStart)) == HashCount(s)
    decreases |s|
  {
    if s != "" {
      if lineStart && Heading(s).Some? {
        var n := Heading(s).value;
        BlocksKeepHashes(s[n..], false);
        SumHashesPair("", s[..n], Blocks(s[n..], false));
        HashCountConcat(s[..n], s[n..]);
        assert s == s[..n] + s[n..];
      } else {
        OneCharacter(s, lineStart);
        BlocksKeepHashes(s[1..], s[0] == '\n');
        SumHashesPrefixed([s[0]], Blocks(s[1..], s[0] == '\n'));
        HashCountConcat([s[0]], s[1..]);
        assert s == [s[0]] + s[1..];
      }
    }
  }

  // ---------- What the scan loses ----------

  /** The block reads as one of the two headings. */
  predicate Reads(block: string) {
    Marks(Strip(block), UserInput) || Marks(Strip(block), PlannerResponse)
  }

  /** A bound for the '#' characters of alternating blocks that get into no pair: a heading is lost
      unless the text before it reads as a heading, and then that text is. */
  function Loss(blocks: seq<string>): nat {
    if |blocks| < 2 then 0
    else (if Reads(blocks[0]) then 3 else HashCount(blocks[1])) + Loss(blocks[2..])
  }

  function PairHashes(p: Pair): nat {
    HashCount(p.query) + HashCount(p.response)
  }

  function PairsHashes(pairs: seq<Pair>): nat {
    if pairs == [] then 0 else PairsHashes(pairs[..|pairs| - 1]) + PairHashes(pairs[|pairs| - 1])
  }

  lemma {:induction false} PairsHashesAppend(pairs: seq<Pair>, p: Pair)
    ensures PairsHashes(pairs + [p]) == PairsHashes(pairs) + PairHashes(p)
  {
    assert (pairs + [p])[..|pairs|] == pairs;
  }

  function QueryHashes(query: Option<string>): nat {
    match query
    case None => 0
    case Some(q) => HashCount(q)
  }

  /** The '#' characters the parser still holds. */
  function HeldHashes(st: State): nat {
    QueryHashes(st.query) + SumHashes(st.chunks) + PairsHashes(st.pairs)
  }

  lemma {:induction false} JoinKeepsHashes(chunks: seq<string>)
    ensures HashCount(JoinBlank(chunks)) == SumHashes(chunks)
  {
    if |chunks| > 1 {
      JoinKeepsHashes(chunks[1..]);
      HashCountConcat(chunks[0], "\n\n" + JoinBlank(chunks[1..]));
      HashCountConcat("\n\n", JoinBlank(chunks[1..]));
      NoHashInBlank("\n\n");
    }
  }

  lemma {:induction false} ClosedHolds(st: State)
    ensures PairsHashes(Closed(st).pairs) + SumHashes(Closed(st).chunks) <= HeldHashes(st)
  {
    if st.query.Some? && st.chunks != [] {
      JoinKeepsHashes(st.chunks);
      StripKeepsHashes(JoinBlank(st.chunks));
      PairsHashesAppend(st.pairs, Pair(st.query.value, Strip(JoinBlank(st.chunks))));
    }
  }

  lemma {:induction false} QueryHolds(st: State, query: Option<string>)
    ensures HeldHashes(Closed(st).(query := query)) <= HeldHashes(st) + QueryHashes(query)
  {
    ClosedHolds(st);
  }

  lemma {:induction false} ChunkHolds(st: State, b: string)
    ensures HeldHashes(st.(chunks := st.chunks + [b])) == HeldHashes(st) + HashCount(b)
  {
    SumHashesAppend(st.chunks, b);
  }

  /** A block is taken only if it does not read as a heading and the one before it does. */
  lemma {:induction false} AbsorbIs(st: State, before: Option<string>, block: string)
    ensures var next, b := Absorb(st, before, block), Strip(block);
            || next == st
            || next == Closed(st).(query := None)
            || (!Reads(block) && before.Some? && Reads(before.value)
                && (next == Closed(st).(query := Some(b)) || next == st.(chunks := st.chunks + [b])))
  {
  }

  lemma {:induction false} AbsorbHolds(st: State, before: Option<string>, block: string)
    ensures HeldHashes(Absorb(st, before, block)) <= HeldHashes(st) + HashCount(block)
    ensures Reads(block) ==> HeldHashes(Absorb(st, before, block)) <= HeldHashes(st)
    ensures before.None? || !Reads(before.value) ==> HeldHashes(Absorb(st, before, block)) <= HeldHashes(st)
  {
    AbsorbIs(st, before, block);
    StripKeepsHashes(block);
    QueryHolds(st, None);
    QueryHolds(st, Some(Strip(block)));
    ChunkHolds(st, Strip(block));
  }

  lemma {:induction false} ReadsHasHashes(block: string)
    requires Reads(block)
    ensures HashCount(block) >= 3
  {
    StripKeepsHashes(block);
    ThreeHashes(Strip(block));
  }

  lemma {:induction false} ScanLoses(st: State, before: Option<string>, blocks: seq<string>)
    ensures HeldHashes(Scan(st, before, blocks)) + Loss(blocks) <= HeldHashes(st) + SumHashes(blocks)
    decreases |blocks|
  {
    if |blocks| >= 2 {
      var a, h, rest := blocks[0], blocks[1], blocks[2..];
      assert blocks == [a, h] + rest;
      ScanTwo(st, before, a, h, rest);
      SumHashesPair(a, h, rest);
      AbsorbHolds(st, before, a);
      AbsorbHolds(Absorb(st, before, a), Some(a), h);
      if Reads(a) { ReadsHasHashes(a); }
      ScanLoses(Absorb(Absorb(st, before, a), Some(a), h), Some(h), rest);
    } else if |blocks| == 1 {
      AbsorbHolds(st, before, blocks[0]);
      assert blocks == [blocks[0]];
      assert Scan(st, before, blocks) == Scan(Absorb(st, before, blocks[0]), Some(blocks[0]), []);
    }
  }

  // ---------- How many headings are found ----------

  /** Every heading of alternating blocks has its three '#' characters. */
  predicate Headed(blocks: seq<string>) {
    |blocks| < 2 || (HashCount(blocks[1]) >= 3 && Headed(blocks[2..]))
  }

  lemma {:induction false} HeadedPrefixed(text: string, blocks: seq<string>)
    requires blocks != [] && Headed(blocks)
    ensures Headed(Prefixed(text, blocks))
  {
    if |blocks| >= 2 { assert Prefixed(text, blocks)[2..] == blocks[2..]; }
  }

  lemma {:induction false} HeadingHasHashes(s: string)
    requires Heading(s).Some?
    ensures HashCount(s[..Heading(s).value]) >= 3
  {
    var n := Heading(s).value;
    PrefixAgrees(s, Hashes, 0);
    assert s[..n][..3] == s[..3];
    ThreeHashes(s[..n]);
  }

  lemma {:induction false} BlocksAreHeaded(s: string, lineStart: bool)
    ensures Headed(Blocks(s, lineStart))
    decreases |s|
  {
    if s != "" {
      if lineStart && Heading(s).Some? {
        var n := Heading(s).value;
        BlocksAreHeaded(s[n..], false);
        HeadingHasHashes(s);
        assert (["", s[..n]] + Blocks(s[n..], false))[2..] == Blocks(s[n..], false);
      } else {
        OneCharacter(s, lineStart);
        BlocksAreHeaded(s[1..], s[0] == '\n');
        HeadedPrefixed([s[0]], Blocks(s[1..], s[0] == '\n'));
      }
    }
  }

  lemma {:induction false} LossAtLeast(blocks: seq<string>)
    requires Headed(blocks)
    ensures Loss(blocks) >= 3 * (|blocks| / 2)
  {
    if |blocks| >= 2 { LossAtLeast(blocks[2..]); }
  }

  lemma {:induction false} TwoMoreBlocks(s: string, tail: string)
    requires Heading(s).Some? && tail == s[Heading(s).value..]
    ensures |Blocks(s, true)| == 2 + |Blocks(tail, false)|
  {
  }

  lemma {:induction false} AsManyBlocks(c: string, lineStart: bool, rest: string)
    requires c != "" && !(lineStart && Heading(c + rest).Some?)
    ensures |Blocks(c + rest, lineStart)| == |Blocks(c[1..] + rest, c[0] == '\n')|
  {
    OneCharacter(c + rest, lineStart);
    assert (c + rest)[1..] == c[1..] + rest && (c + rest)[0] == c[0];
  }

  /** Splitting finds at least as many headings as are printed. */
  lemma {:induction false} EnoughBlocks(c: string, lineStart: bool, rest: seq<Turn>)
    requires c != "" ==> c[|c| - 1] == '\n'
    requires c == "" ==> lineStart || rest == []
    ensures |Blocks(c + Printed(rest), lineStart)| > 2 * |rest|
    decreases |c| + |Printed(rest)|, 1
  {
    if c == "" {
      assert c + Printed(rest) == Printed(rest);
      if rest != [] { EnoughTurns(rest); }
    } else if lineStart && Heading(c + Printed(rest)).Some? {
      EnoughAtHeading(c, rest);
    } else {
      AsManyBlocks(c, lineStart, Printed(rest));
      EnoughBlocks(c[1..], c[0] == '\n', rest);
    }
  }

  lemma {:induction false} EnoughTurns(rest: seq<Turn>)
    requires rest != []
    ensures |Blocks(Printed(rest), true)| > 2 * |rest|
    decreases |Printed(rest)|, 0
  {
    HeadingIsBlock(rest[0], ContentOf(rest[0]) + Printed(rest[1..]));
    EnoughBlocks(ContentOf(rest[0]), false, rest[1..]);
  }

  lemma {:induction false} EnoughAtHeading(c: string, rest: seq<Turn>)
    requires c != "" && c[|c| - 1] == '\n' && Heading(c + Printed(rest)).Some?
    ensures |Blocks(c + Printed(rest), true)| > 2 * |rest|
    decreases |c| + |Printed(rest)|, 0
  {
    var n := Heading(c + Printed(rest)).value;
    HeadingEnds(c, rest);
    if n <= |c| {
      TailOf(c, Printed(rest), n);
      TwoMoreBlocks(c + Printed(rest), c[n..] + Printed(rest));
      EnoughBlocks(c[n..], false, rest);
    } else {
      SwallowedTail(c, rest);
      TwoMoreBlocks(c + Printed(rest), ContentOf(rest[0]) + Printed(rest[1..]));
      EnoughBlocks(ContentOf(rest[0]), false, rest[1..]);
    }
  }

  lemma {:induction false} TailLoss(c: string, rest: seq<Turn>)
    requires c != "" ==> c[|c| - 1] == '\n'
    requires c == "" ==> rest == []
    ensures Loss(Blocks(c + Printed(rest), false)) >= 3 * |rest|
  {
    EnoughBlocks(c, false, rest);
    BlocksAreHeaded(c + Printed(rest), false);
    LossAtLeast(Blocks(c + Printed(rest), false));
  }

  // ---------- The first heading in a text ----------

  /** Where the first heading that starts in `c` starts. */
  lemma {:induction false} FirstHeading(c: string, lineStart: bool, rest: string) returns (k: nat)
    requires !HeadingFree(c, lineStart, rest)
    ensures k < |c| && (if k == 0 then lineStart else c[k - 1] == '\n') && Heading(c[k..] + rest).Some?
    ensures HeadingFree(c[..k], lineStart, c[k..] + rest)
  {
    if lineStart && Heading(c + rest).Some? {
      k := 0;
      assert c[0..] == c;
    } else {
      k := FirstHeading(c[1..], c[0] == '\n', rest);
      assert c[1..][k..] == c[k + 1..] && c[..k + 1][1..] == c[1..][..k];
      assert c[..k + 1] + (c[k + 1..] + rest) == c + rest;
      assert k > 0 ==> c[1..][k - 1] == c[k];
      k := k + 1;
    }
  }

  /** The text before it does not read as a heading, or one would have started earlier. */
  lemma {:induction false} BeforeFirstIsNoMark(text: string, k: nat, rest: string)
    requires Trimmed(text) && 0 < k <= |"\n\n" + text + "\n\n"|
    requires HeadingFree(("\n\n" + text + "\n\n")[..k], false, rest)
    ensures !Reads(("\n\n" + text + "\n\n")[..k])
  {
    var a := ("\n\n" + text + "\n\n")[..k];
    if k <= 2 {
      StripBlank(a);
    } else {
      var p := (text + "\n\n")[..k - 2];
      assert a == "\n\n" + p;
      assert a[1..] == "\n" + p && a[1..][1..] == p && a[1..] != "";
      assert HeadingFree(a[1..], true, rest);
      assert HeadingFree(p, true, rest);
      LineStartIsNoMark(text, p, rest);
      StripPadding(p);
    }
  }

  lemma {:induction false} StripPadding(p: string)
    ensures Strip("\n\n" + p) == Strip(p)
  {
    var before, after := StripSplits(p);
    assert "\n\n" + p == ("\n\n" + before) + Strip(p) + after;
    StripUnique("\n\n" + before, Strip(p), after);
  }

  lemma {:induction false} LineStartIsNoMark(text: string, p: string, rest: string)
    requires Trimmed(text) && p != "" && |p| <= |text + "\n\n"| && p == (text + "\n\n")[..|p|]
    requires HeadingFree(p, true, rest)
    ensures !Reads(p)
  {
    if text == "" {
      StripBlank(p);
    } else {
      assert p[0] == text[0];
      InkFirst(p);
      FrontIsNoMark(p, Strip(p), p[|Strip(p)|..], UserInput, rest);
      FrontIsNoMark(p, Strip(p), p[|Strip(p)|..], PlannerResponse, rest);
    }
  }

  lemma {:induction false} InkFirst(p: string)
    requires p != "" && !IsSpace(p[0])
    ensures |Strip(p)| <= |p| && p == Strip(p) + p[|Strip(p)|..]
  {
    RStripSplits(p);
  }

  lemma {:induction false} FrontIsNoMark(p: string, m: string, w: string, name: string, rest: string)
    requires p != "" && p == m + w && HeadingFree(p, true, rest) && name != ""
    ensures !Marks(m, name)
  {
    assert m + w + rest == m + (w + rest);
    if Marks(m, name) { MarkStartsHeading(m, name, w + rest); }
  }

  // ---------- What printed turns lose ----------

  lemma {:induction false} StartsWithHeading(turns: seq<Turn>)
    ensures Blocks(Printed(turns), true)[0] == ""
  {
    if turns != [] { HeadingIsBlock(turns[0], ContentOf(turns[0]) + Printed(turns[1..])); }
  }

  lemma {:induction false} LossPair(a: string, h: string, blocks: seq<string>)
    ensures Loss([a, h] + blocks) == (if Reads(a) then 3 else HashCount(h)) + Loss(blocks)
  {
    assert ([a, h] + blocks)[2..] == blocks;
  }

  lemma {:induction false} LossPrefixed(text: string, blocks: seq<string>)
    requires blocks != [] && (Reads(text + blocks[0]) <==> Reads(blocks[0]))
    ensures Loss(Prefixed(text, blocks)) == Loss(blocks)
  {
    if |blocks| >= 2 { assert Prefixed(text, blocks)[2..] == blocks[2..]; }
  }

  lemma {:induction false} NothingReads()
    ensures !Reads("")
  {
  }

  /** A text in which no heading starts is passed over. */
  lemma {:induction false} FreeTextLoss(t: Turn, rest: seq<Turn>)
    requires Trimmed(t.text) && HeadingFree(ContentOf(t), false, Printed(rest))
    ensures Loss(Blocks(ContentOf(t) + Printed(rest), false)) == Loss(Blocks(Printed(rest), true))
  {
    FreeIsOneBlock(ContentOf(t), false, Printed(rest));
    StartsWithHeading(rest);
    FreeTextIsNoMark(t, UserInput, Printed(rest));
    FreeTextIsNoMark(t, PlannerResponse, Printed(rest));
    StripUnique("\n\n", t.text, "\n\n");
    NothingReads();
    assert ContentOf(t) + "" == ContentOf(t);
    LossPrefixed(ContentOf(t), Blocks(Printed(rest), true));
  }

  lemma {:induction false} LossAtHeading(a: string, s: string, head: string, tail: string)
    requires Heading(s).Some? && !Reads(a) && head == s[..Heading(s).value] && tail == s[Heading(s).value..]
    ensures Loss(Prefixed(a, Blocks(s, true))) == HashCount(head) + Loss(Blocks(tail, false))
  {
    assert a + "" == a && Prefixed(a, ["", head] + Blocks(tail, false)) == [a, head] + Blocks(tail, false);
    LossPair(a, head, Blocks(tail, false));
  }

  /** A heading that starts in `b` is lost, with what a printed heading it runs into has. */
  lemma {:induction false} HeadingLoss(a: string, b: string, rest: seq<Turn>)
    requires b != "" && b[|b| - 1] == '\n' && Heading(b + Printed(rest)).Some? && !Reads(a)
    ensures Loss(Prefixed(a, Blocks(b + Printed(rest), true))) >= 3 * |rest| + 3
  {
    var s := b + Printed(rest);
    var n := Heading(s).value;
    HeadingEnds(b, rest);
    if n <= |b| {
      HeadingHasHashes(s);
      TailOf(b, Printed(rest), n);
      LossAtHeading(a, s, s[..n], b[n..] + Printed(rest));
      TailLoss(b[n..], rest);
    } else {
      SwallowedTail(b, rest);
      SwallowedHashes(b, rest);
      LossAtHeading(a, s, b + HeadingOf(rest[0]), ContentOf(rest[0]) + Printed(rest[1..]));
      TailLoss(ContentOf(rest[0]), rest[1..]);
    }
  }

  lemma {:induction false} UnfreeTextLoss(t: Turn, rest: seq<Turn>)
    requires Trimmed(t.text) && !HeadingFree(ContentOf(t), false, Printed(rest))
    ensures Loss(Blocks(ContentOf(t) + Printed(rest), false)) >= 3 * |rest| + 3
  {
    var k := FirstHeading(ContentOf(t), false, Printed(rest));
    BeforeFirstIsNoMark(t.text, k, ContentOf(t)[k..] + Printed(rest));
    SplitContentLoss(ContentOf(t), k, rest);
  }

  lemma {:induction false} SplitContentLoss(c: string, k: nat, rest: seq<Turn>)
    requires 0 < k < |c| && c[k - 1] == '\n' && c[|c| - 1] == '\n' && !Reads(c[..k])
    requires HeadingFree(c[..k], false, c[k..] + Printed(rest)) && Heading(c[k..] + Printed(rest)).Some?
    ensures Loss(Blocks(c + Printed(rest), false)) >= 3 * |rest| + 3
  {
    var a, b := c[..k], c[k..];
    assert c == a + b;
    Regrouped(a, b, Printed(rest));
    FreeIsOneBlock(a, false, b + Printed(rest));
    HeadingLoss(a, b, rest);
  }

  lemma {:induction false} Regrouped(a: string, b: string, c: string)
    ensures a + b + c == a + (b + c)
  {
  }

  /** Three '#' characters are lost for every printed heading, and more if one starts in a text. */
  lemma {:induction false} PrintedLoss(turns: seq<Turn>)
    requires Stripped(turns)
    ensures var loss := Loss(Blocks(Printed(turns), true));
            loss >= 3 * |turns| && (TurnsFree(turns) || loss > 3 * |turns|)
  {
    if turns != [] {
      var t, rest := turns[0], turns[1..];
      assert t in turns;
      var tail := ContentOf(t) + Printed(rest);
      HeadingIsBlock(t, tail);
      NothingReads();
      LossPair("", HeadingOf(t), Blocks(tail, false));
      PrintedHeadingHashes(t);
      if HeadingFree(ContentOf(t), false, Printed(rest)) {
        FreeTextLoss(t, rest);
        PrintedLoss(rest);
      } else {
        UnfreeTextLoss(t, rest);
      }
    }
  }

  // ---------- What comes back ----------

  function TextHashes(turns: seq<Turn>): nat {
    if turns == [] then 0 else HashCount(turns[0].text) + TextHashes(turns[1..])
  }

  lemma {:induction false} ContentHashes(t: Turn)
    ensures HashCount(ContentOf(t)) == HashCount(t.text)
  {
    HashCountConcat("\n\n" + t.text, "\n\n");
    HashCountConcat("\n\n", t.text);
    NoHashInBlank("\n\n");
  }

  lemma {:induction false} PrintedHashes(turns: seq<Turn>)
    ensures HashCount(Printed(turns)) == 3 * |turns| + TextHashes(turns)
  {
    if turns != [] {
      var t, rest := turns[0], turns[1..];
      PrintedHashes(rest);
      PrintedHeadingHashes(t);
      ContentHashes(t);
      HashCountConcat(HeadingOf(t), ContentOf(t) + Printed(rest));
      HashCountConcat(ContentOf(t), Printed(rest));
    }
  }

  /** If a heading starts in a text, fewer '#' characters come back than the texts have. */
  lemma {:induction false} UnfreeTurnsLose(turns: seq<Turn>)
    requires Stripped(turns) && !TurnsFree(turns)
    ensures PairsHashes(Result(Scan(Start, None, Blocks(Printed(turns), true)))) < TextHashes(turns)
  {
    var blocks := Blocks(Printed(turns), true);
    PrintedLoss(turns);
    PrintedHashes(turns);
    BlocksKeepHashes(Printed(turns), true);
    ScanLoses(Start, None, blocks);
    ClosedHolds(Scan(Start, None, blocks));
  }

  lemma {:induction false} TextHashesConcat(a: seq<Turn>, b: seq<Turn>)
    ensures TextHashes(a + b) == TextHashes(a) + TextHashes(b)
  {
    if a == [] {
      assert a + b == b;
    } else {
      assert (a + b)[1..] == a[1..] + b;
      TextHashesConcat(a[1..], b);
    }
  }

  lemma {:induction false} RepliesHashes(replies: seq<string>)
    ensures TextHashes(PlannerTurns(replies)) == SumHashes(replies)
  {
    if replies != [] {
      RepliesHashes(replies[1..]);
      assert PlannerTurns(replies)[1..] == PlannerTurns(replies[1..]);
    }
  }

  function ExchangeHashes(xs: seq<Exchange>): nat {
    if xs == [] then 0 else HashCount(xs[0].query) + SumHashes(xs[0].replies) + ExchangeHashes(xs[1..])
  }

  lemma {:induction false} TurnsHashes(xs: seq<Exchange>)
    ensures TextHashes(Turns(xs)) == ExchangeHashes(xs)
  {
    if xs != [] {
      var x, rest := xs[0], Turns(xs[1..]);
      TurnsHashes(xs[1..]);
      RepliesHashes(x.replies);
      TextHashesConcat([User(x.query)] + PlannerTurns(x.replies), rest);
      TextHashesConcat([User(x.query)], PlannerTurns(x.replies));
      assert [User(x.query)][1..] == [];
    }
  }

  lemma {:induction false} PairsHashesConcat(a: seq<Pair>, b: seq<Pair>)
    ensures PairsHashes(a + b) == PairsHashes(a) + PairsHashes(b)
  {
    if b == [] {
      assert a + b == a;
    } else {
      var n := |b| - 1;
      PairsHashesConcat(a, b[..n]);
      assert (a + b)[..|a + b| - 1] == a + b[..n];
    }
  }

  lemma {:induction false} PairsAreExchanges(xs: seq<Exchange>)
    ensures PairsHashes(Pairs(xs)) == ExchangeHashes(xs)
  {
    if xs != [] {
      var p := Pair(xs[0].query, JoinBlank(xs[0].replies));
      PairsAreExchanges(xs[1..]);
      JoinKeepsHashes(xs[0].replies);
      PairsHashesConcat([p], Pairs(xs[1..]));
      PairsHashesAppend([], p);
      assert [] + [p] == [p];
    }
  }

  // ---------- What stands before the first heading ----------

  lemma {:induction false} PreambleIsIgnored(preamble: string, turns: seq<Turn>)
    requires LeadsIn(preamble, turns) && turns != []
    ensures Scan(Start, None, Blocks(preamble + Printed(turns), true))
            == Scan(Start, None, Blocks(Printed(turns), true))
  {
    var t := turns[0];
    var rest := Blocks(ContentOf(t) + Printed(turns[1..]), false);
    HeadingIsBlock(t, ContentOf(t) + Printed(turns[1..]));
    PreambleIsBlock(preamble, turns);
    assert preamble + "" == preamble;
    assert Prefixed(preamble, ["", HeadingOf(t)] + rest) == [preamble, HeadingOf(t)] + rest;
    HeadingOnly(preamble, t, rest);
    HeadingOnly("", t, rest);
  }

  lemma {:induction false} HeadingOnly(preamble: string, t: Turn, rest: seq<string>)
    ensures Scan(Start, None, [preamble, HeadingOf(t)] + rest) == Scan(Start, Some(HeadingOf(t)), rest)
  {
    ScanTwo(Start, None, preamble, HeadingOf(t), rest);
    HeadingMarks(t);
    assert Absorb(Start, None, preamble) == Start;
    assert Absorb(Start, Some(preamble), HeadingOf(t)) == Start;
  }

  lemma {:induction false} ProperIsStripped(xs: seq<Exchange>)
    requires forall x :: x in xs ==> Proper(x)
    ensures Stripped(Turns(xs))
  {
    if xs != [] {
      assert xs[0] in xs;
      ProperIsStripped(xs[1..]);
      RepliesAreStripped(xs[0].replies);
      Uncons(xs);
    }
  }

  lemma {:induction false} RepliesAreStripped(replies: seq<string>)
    requires Solid(replies)
    ensures Stripped(PlannerTurns(replies))
  {
    if replies != [] {
      assert replies[0] in replies;
      RepliesAreStripped(replies[1..]);
    }
  }

  /** The text the parser splits gives the exchanges exactly when no heading starts in a text. */
  lemma {:induction false} ScannedIff(preamble: string, xs: seq<Exchange>)
    requires (forall x :: x in xs ==> Proper(x)) && LeadsIn(preamble, Turns(xs))
    ensures var pairs := Result(Scan(Start, None, Blocks(preamble + Printed(Turns(xs)), true)));
            if TurnsFree(Turns(xs)) then pairs == Pairs(xs) else PairsHashes(pairs) < ExchangeHashes(xs)
  {
    ProperIsStripped(xs);
    if TurnsFree(Turns(xs)) {
      PrintedIsScanned(preamble, Turns(xs));
      IdleMachine([], [], Turns(xs));
      ExchangesComeBack(xs);
      assert [] + Pairs(xs) == Pairs(xs);
    } else {
      PreambleIsIgnored(preamble, Turns(xs));
      UnfreeTurnsLose(Turns(xs));
      TurnsHashes(xs);
    }
  }

  // ---------- Carriage returns ----------

  /** `text.replace("\r\n", "\n")` */
  function Unreturned(s: string): string {
    ReplaceAll(s, "\r\n", "\n")
  }

  lemma {:induction false} StartsReturn(s: string)
    ensures HasPrefix(s, "\r\n") <==> |s| >= 2 && s[0] == '\r' && s[1] == '\n'
  {
    if |s| >= 2 { assert s[..2] == [s[0], s[1]]; }
  }

  /** Both halves of a text are treated apart, unless it is cut within a pair. */
  lemma {:induction false} UnreturnedConcat(a: string, b: string)
    requires a == "" || b == "" || a[|a| - 1] != '\r' || b[0] != '\n'
    ensures Unreturned(a + b) == Unreturned(a) + Unreturned(b)
    decreases |a|
  {
    if a == "" {
      assert a + b == b;
    } else {
      StartsReturn(a);
      StartsReturn(a + b);
      if HasPrefix(a, "\r\n") {
        assert (a + b)[2..] == a[2..] + b;
        UnreturnedConcat(a[2..], b);
      } else {
        assert (a + b)[1..] == a[1..] + b;
        UnreturnedConcat(a[1..], b);
      }
    }
  }

  lemma {:induction false} UnreturnedHashes(s: string)
    ensures HashCount(Unreturned(s)) == HashCount(s)
    decreases |s|
  {
    if s != "" {
      StartsReturn(s);
      if HasPrefix(s, "\r\n") {
        UnreturnedHashes(s[2..]);
        assert s[1..][1..] == s[2..];
        HashCountConcat("\n", Unreturned(s[2..]));
        NoHashInBlank("\n");
      } else {
        UnreturnedHashes(s[1..]);
        HashCountConcat([s[0]], Unreturned(s[1..]));
        assert [s[0]][1..] == "";
      }
    }
  }

  lemma {:induction false} UnreturnedShortens(s: string)
    ensures |Unreturned(s)| <= |s| && (Contains(s, "\r\n") ==> |Unreturned(s)| < |s|)
    decreases |s|
  {
    if s != "" {
      if HasPrefix(s, "\r\n") {
        UnreturnedShortens(s[2..]);
      } else {
        UnreturnedShortens(s[1..]);
      }
    }
  }

  lemma {:induction false} UnreturnedTrims(s: string)
    requires Trimmed(s)
    ensures Trimmed(Unreturned(s)) && (s != "" ==> Unreturned(s) != "")
  {
    if s != "" {
      var n := |s| - 1;
      StartsReturn(s);
      assert Unreturned(s)[0] == s[0];
      assert s == s[..n] + [s[n]];
      UnreturnedConcat(s[..n], [s[n]]);
      OneStays(s[n]);
    }
  }

  lemma {:induction false} OneStays(c: char)
    ensures Unreturned([c]) == [c]
  {
    assert [c][1..] == "" && Unreturned("") == "";
  }

  function CleanTurn(t: Turn): Turn {
    match t
    case User(text) => User(Unreturned(text))
    case Planner(text) => Planner(Unreturned(text))
  }

  function CleanTurns(turns: seq<Turn>): seq<Turn> {
    if turns == [] then [] else [CleanTurn(turns[0])] + CleanTurns(turns[1..])
  }

  function CleanAll(replies: seq<string>): seq<string> {
    if replies == [] then [] else [Unreturned(replies[0])] + CleanAll(replies[1..])
  }

  /** The exchanges with the carriage returns before line breaks dropped. */
  function Cleaned(xs: seq<Exchange>): seq<Exchange> {
    if xs == [] then []
    else [Exchange(Unreturned(xs[0].query), CleanAll(xs[0].replies))] + Cleaned(xs[1..])
  }

  lemma {:induction false} CleanContent(t: Turn)
    requires Trimmed(t.text)
    ensures Unreturned(ContentOf(t)) == ContentOf(CleanTurn(t))
  {
    NothingToReplace("\n\n", "\r\n", '\r', "\n");
    UnreturnedConcat("\n\n" + t.text, "\n\n");
    UnreturnedConcat("\n\n", t.text);
  }

  lemma {:induction false} CleanHeading(t: Turn)
    ensures Unreturned(HeadingOf(t)) == HeadingOf(t) == HeadingOf(CleanTurn(t))
  {
    assert '\r' !in HeadingOf(t);
    NothingToReplace(HeadingOf(t), "\r\n", '\r', "\n");
  }

  lemma {:induction false} CleanPrinted(turns: seq<Turn>)
    requires Stripped(turns)
    ensures Unreturned(Printed(turns)) == Printed(CleanTurns(turns))
  {
    if turns != [] {
      var t, rest := turns[0], turns[1..];
      assert t in turns;
      CleanPrinted(rest);
      CleanHeading(t);
      CleanContent(t);
      UnreturnedConcat(ContentOf(t), Printed(rest));
      UnreturnedConcat(HeadingOf(t), ContentOf(t) + Printed(rest));
    }
  }

  lemma {:induction false} CleanTurnsConcat(a: seq<Turn>, b: seq<Turn>)
    ensures CleanTurns(a + b) == CleanTurns(a) + CleanTurns(b)
  {
    if a == [] {
      assert a + b == b;
    } else {
      assert (a + b)[1..] == a[1..] + b;
      CleanTurnsConcat(a[1..], b);
    }
  }

  lemma {:induction false} CleanPlanners(replies: seq<string>)
    ensures CleanTurns(PlannerTurns(replies)) == PlannerTurns(CleanAll(replies))
  {
    if replies != [] {
      CleanPlanners(replies[1..]);
      assert PlannerTurns(replies)[1..] == PlannerTurns(replies[1..]);
    }
  }

  lemma {:induction false} CleanExchanges(xs: seq<Exchange>)
    ensures CleanTurns(Turns(xs)) == Turns(Cleaned(xs))
  {
    if xs != [] {
      var x, rest := xs[0], Turns(xs[1..]);
      CleanExchanges(xs[1..]);
      CleanPlanners(x.replies);
      CleanTurnsConcat([User(x.query)] + PlannerTurns(x.replies), rest);
      CleanTurnsConcat([User(x.query)], PlannerTurns(x.replies));
      assert [User(x.query)][1..] == [];
    }
  }

  lemma {:induction false} CleanSolid(replies: seq<string>)
    requires Solid(replies)
    ensures Solid(CleanAll(replies)) && SumHashes(CleanAll(replies)) == SumHashes(replies)
  {
    if replies != [] {
      assert replies[0] in replies;
      CleanSolid(replies[1..]);
      UnreturnedTrims(replies[0]);
      UnreturnedHashes(replies[0]);
    }
  }

  lemma {:induction false} CleanedIsProper(xs: seq<Exchange>)
    requires forall x :: x in xs ==> Proper(x)
    ensures (forall x :: x in Cleaned(xs) ==> Proper(x)) && ExchangeHashes(Cleaned(xs)) == ExchangeHashes(xs)
  {
    if xs != [] {
      assert xs[0] in xs;
      CleanedIsProper(xs[1..]);
      UnreturnedTrims(xs[0].query);
      UnreturnedHashes(xs[0].query);
      CleanSolid(xs[0].replies);
    }
  }

  // ---------- Which exchanges a carriage return changes ----------

  predicate NoReturns(texts: seq<string>) {
    texts == [] || (!Contains(texts[0], "\r\n") && NoReturns(texts[1..]))
  }

  /** No text holds a carriage return before a line break. */
  predicate Returnless(xs: seq<Exchange>) {
    xs == [] || (!Contains(xs[0].query, "\r\n") && NoReturns(xs[0].replies) && Returnless(xs[1..]))
  }

  lemma {:induction false} JoinShortens(replies: seq<string>)
    ensures |CleanAll(replies)| == |replies| && |JoinBlank(CleanAll(replies))| <= |JoinBlank(replies)|
    ensures if NoReturns(replies) then CleanAll(replies) == replies
            else |JoinBlank(CleanAll(replies))| < |JoinBlank(replies)|
  {
    if replies != [] {
      JoinShortens(replies[1..]);
      UnreturnedShortens(replies[0]);
      if !Contains(replies[0], "\r\n") { AbsentIsKept(replies[0], "\r\n", "\n"); }
      assert CleanAll(replies)[1..] == CleanAll(replies[1..]);
    }
  }

  lemma {:induction false} FirstPair(xs: seq<Exchange>)
    requires xs != []
    ensures Pairs(xs)[0] == Pair(xs[0].query, JoinBlank(xs[0].replies)) && Pairs(xs)[1..] == Pairs(xs[1..])
  {
  }

  lemma {:induction false} CleanedPairsIff(xs: seq<Exchange>)
    ensures if Returnless(xs) then Cleaned(xs) == xs else Pairs(Cleaned(xs)) != Pairs(xs)
  {
    if xs != [] {
      CleanedPairsIff(xs[1..]);
      UnreturnedShortens(xs[0].query);
      JoinShortens(xs[0].replies);
      if !Contains(xs[0].query, "\r\n") { AbsentIsKept(xs[0].query, "\r\n", "\n"); }
      FirstPair(xs);
      FirstPair(Cleaned(xs));
      assert Cleaned(xs)[1..] == Cleaned(xs[1..]);
    }
  }

  lemma {:induction false} ParsedIsScanned(preamble: string, xs: seq<Exchange>)
    requires forall x :: x in xs ==> Proper(x)
    ensures Parsed(preamble + Printed(Turns(xs)))
         == Result(Scan(Start, None, Blocks(Unreturned(preamble) + Printed(Turns(Cleaned(xs))), true)))
  {
    ProperIsStripped(xs);
    UnreturnedConcat(preamble, Printed(Turns(xs)));
    CleanPrinted(Turns(xs));
    CleanExchanges(xs);
  }

  /** A preamble without a line that starts with "###" leads in whatever follows. */
  lemma {:induction false} QuietLeadsIn(preamble: string, turns: seq<Turn>)
    requires Quiet(preamble, true) && (preamble == "" || preamble[|preamble| - 1] == '\n')
    ensures LeadsIn(preamble, turns)
  {
    QuietIsFree(preamble, true, Printed(turns));
  }

  /** Questions and their answers, printed and parsed, come back as the same pairs, consecutive
      answer blocks joined by a blank line, exactly when no heading starts in a text and no text
      holds a carriage return before a line break. */
  lemma {:induction false} RoundTripIff(preamble: string, xs: seq<Exchange>)
    requires (forall x :: x in xs ==> Proper(x)) && LeadsIn(Unreturned(preamble), Turns(Cleaned(xs)))
    ensures Parsed(preamble + Printed(Turns(xs))) == Pairs(xs) <==> TurnsFree(Turns(xs)) && Returnless(xs)
  {
    CleanedIsProper(xs);
    ParsedIsScanned(preamble, xs);
    ScannedIff(Unreturned(preamble), Cleaned(xs));
    CleanedPairsIff(xs);
    PairsAreExchanges(xs);
  }
}
