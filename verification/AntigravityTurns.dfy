/** The turns of an Antigravity transcript and how its parser groups them into pairs. */
module AntigravityTurns {
  import opened Wrappers
  import opened Text
  import opened Messages

  /** A block under its heading, its text stripped and possibly empty. */
  datatype Turn = User(text: string) | Planner(text: string)

  datatype State = State(query: Option<string>, chunks: seq<string>, pairs: seq<Pair>)

  const Start := State(None, [], [])

  /** `"\n\n".join(chunks)` */
  function JoinBlank(chunks: seq<string>): string {
    if chunks == [] then ""
    else if |chunks| == 1 then chunks[0]
    else chunks[0] + ("\n\n" + JoinBlank(chunks[1..]))
  }

  /** A chunk that comes after others stands behind a blank line. */
  lemma {:induction false} JoinBlankAppend(chunks: seq<string>, last: string)
    ensures JoinBlank(chunks + [last]) == if chunks == [] then last else JoinBlank(chunks) + "\n\n" + last
  {
    if chunks == [] {
      assert chunks + [last] == [last];
    } else {
      assert (chunks + [last])[1..] == chunks[1..] + [last];
      JoinBlankAppend(chunks[1..], last);
      if |chunks| > 1 { assert chunks[1..] != []; }
    }
  }

  function Emit(query: string, chunks: seq<string>): seq<Pair> {
    if chunks == [] then [] else [Pair(query, Strip(JoinBlank(chunks)))]
  }

  /** Write out the open pair, if there is one. */
  function Closed(st: State): State {
    if st.query.Some? && st.chunks != []
    then st.(chunks := [], pairs := st.pairs + Emit(st.query.value, st.chunks))
    else st
  }

  function TurnStep(st: State, t: Turn): State {
    match t
    case User(text) => Closed(st).(query := if text == "" then None else Some(text))
    case Planner(text) => if text == "" then st else st.(chunks := st.chunks + [text])
  }

  /** What the parser does with the turns, one after the other. */
  function Machine(st: State, turns: seq<Turn>): State
    decreases |turns|
  {
    if turns == [] then st else Machine(TurnStep(st, turns[0]), turns[1..])
  }

  function Result(st: State): seq<Pair> {
    Closed(st).pairs
  }

  // ---------- The conversation the turns record ----------

  /** The nonempty planner blocks before the next user block. */
  function Replies(turns: seq<Turn>): seq<string> {
    if turns == [] || turns[0].User? then []
    else if turns[0].text == "" then Replies(turns[1..])
    else [turns[0].text] + Replies(turns[1..])
  }

  function AfterReplies(turns: seq<Turn>): (rest: seq<Turn>)
    ensures |rest| <= |turns|
  {
    if turns == [] || turns[0].User? then turns else AfterReplies(turns[1..])
  }

  /** Every nonempty user block with the planner blocks that follow it, when there are any. */
  function Conversation(turns: seq<Turn>): seq<Pair> {
    if turns == [] then []
    else if turns[0].User? && turns[0].text != "" then
      Emit(turns[0].text, Replies(turns[1..])) + Conversation(turns[1..])
    else Conversation(turns[1..])
  }

  /** A nonempty planner block that answers no question comes before a question: `pending` says
      whether such a block has been seen. */
  predicate Mixes(turns: seq<Turn>, pending: bool)
    decreases |turns|
  {
    turns != []
    && match turns[0]
       case Planner(text) => Mixes(turns[1..], pending || text != "")
       case User(text) =>
         if text == "" then Mixes(turns[1..], pending) else pending || Mixes(AfterReplies(turns[1..]), false)
  }

  // ---------- What the parser makes of them ----------

  /** As `Conversation`, but blocks that answer no question stay and join the next answer. */
  function Observed(turns: seq<Turn>, stray: seq<string>): seq<Pair>
    decreases |turns|
  {
    if turns == [] then []
    else
      match turns[0]
      case Planner(text) => Observed(turns[1..], if text == "" then stray else stray + [text])
      case User(text) =>
        if text == "" then Observed(turns[1..], stray)
        else Emit(text, stray + Replies(turns[1..])) + Observed(AfterReplies(turns[1..]), [])
  }

  lemma {:induction false} OpenMachine(query: string, chunks: seq<string>, done: seq<Pair>, turns: seq<Turn>)
    ensures Result(Machine(State(Some(query), chunks, done), turns))
         == done + Emit(query, chunks + Replies(turns)) + Observed(AfterReplies(turns), [])
    decreases |turns|, 1
  {
    var st := State(Some(query), chunks, done);
    if turns == [] {
      assert chunks + [] == chunks;
    } else if turns[0].Planner? {
      var text := turns[0].text;
      var more := if text == "" then chunks else chunks + [text];
      OpenMachine(query, more, done, turns[1..]);
      assert text != "" ==> more + Replies(turns[1..]) == chunks + ([text] + Replies(turns[1..]));
    } else {
      assert chunks + [] == chunks;
      ClosingStep(query, chunks, done, turns[0]);
      IdleMachine([], done + Emit(query, chunks), turns);
    }
  }

  lemma {:induction false} ClosingStep(query: string, chunks: seq<string>, done: seq<Pair>, t: Turn)
    requires t.User?
    ensures TurnStep(State(Some(query), chunks, done), t) == TurnStep(State(None, [], done + Emit(query, chunks)), t)
  {
    assert done + [] == done;
  }

  lemma {:induction false} IdleMachine(stray: seq<string>, done: seq<Pair>, turns: seq<Turn>)
    ensures Result(Machine(State(None, stray, done), turns)) == done + Observed(turns, stray)
    decreases |turns|, 0
  {
    if turns == [] {
      assert done + [] == done;
    } else {
      var text := turns[0].text;
      if turns[0].Planner? {
        IdleMachine(if text == "" then stray else stray + [text], done, turns[1..]);
      } else if text == "" {
        IdleMachine(stray, done, turns[1..]);
      } else {
        OpenMachine(text, stray, done, turns[1..]);
        Regroup(done, Emit(text, stray + Replies(turns[1..])), Observed(AfterReplies(turns[1..]), []));
      }
    }
  }

  lemma {:induction false} Regroup(a: seq<Pair>, b: seq<Pair>, c: seq<Pair>)
    ensures a + b + c == a + (b + c)
  {
  }

  // ---------- When they agree ----------

  predicate Stripped(turns: seq<Turn>) {
    forall t :: t in turns ==> Trimmed(t.text)
  }

  predicate Solid(chunks: seq<string>) {
    forall c :: c in chunks ==> c != "" && Trimmed(c)
  }

  function Weight(pairs: seq<Pair>): nat {
    if pairs == [] then 0 else 1 + |pairs[0].response| + Weight(pairs[1..])
  }

  lemma {:induction false} WeightConcat(a: seq<Pair>, b: seq<Pair>)
    ensures Weight(a + b) == Weight(a) + Weight(b)
  {
    if a == [] {
      assert a + b == b;
    } else {
      assert (a + b)[1..] == a[1..] + b;
      WeightConcat(a[1..], b);
    }
  }

  lemma {:induction false} SolidTail(chunks: seq<string>)
    requires Solid(chunks) && chunks != []
    ensures Solid(chunks[1..]) && chunks[0] != "" && Trimmed(chunks[0])
  {
    assert chunks[0] in chunks;
    forall c | c in chunks[1..] ensures c in chunks {}
  }

  lemma {:induction false} JoinTrimmed(chunks: seq<string>)
    requires Solid(chunks) && chunks != []
    ensures JoinBlank(chunks) != "" && Trimmed(JoinBlank(chunks))
  {
    SolidTail(chunks);
    if |chunks| > 1 {
      JoinTrimmed(chunks[1..]);
      var rest := JoinBlank(chunks[1..]);
      var all := JoinBlank(chunks);
      assert all[0] == chunks[0][0] && all[|all| - 1] == rest[|rest| - 1];
    }
  }

  lemma {:induction false} JoinGrows(stray: seq<string>, chunks: seq<string>)
    requires Solid(stray) && Solid(chunks) && stray != []
    ensures |JoinBlank(stray + chunks)| > |JoinBlank(chunks)|
  {
    var all := stray + chunks;
    SolidTail(stray);
    assert all[0] == stray[0];
    if |stray| == 1 {
      assert all[1..] == chunks;
    } else {
      assert all[1..] == stray[1..] + chunks;
      JoinGrows(stray[1..], chunks);
    }
  }

  /** Stray blocks make an emitted answer heavier. */
  lemma {:induction false} EmitGrows(query: string, stray: seq<string>, chunks: seq<string>)
    requires Solid(stray) && Solid(chunks)
    ensures if stray == [] then Emit(query, stray + chunks) == Emit(query, chunks)
            else Weight(Emit(query, stray + chunks)) > Weight(Emit(query, chunks))
  {
    if stray == [] {
      assert stray + chunks == chunks;
    } else {
      JoinTrimmed(stray + chunks);
      StripTrimmed(JoinBlank(stray + chunks));
      JoinGrows(stray, chunks);
      if chunks != [] {
        JoinTrimmed(chunks);
        StripTrimmed(JoinBlank(chunks));
      }
    }
  }

  lemma {:induction false} RepliesAreSolid(turns: seq<Turn>)
    requires Stripped(turns)
    ensures Solid(Replies(turns)) && Stripped(AfterReplies(turns))
    ensures Conversation(turns) == Conversation(AfterReplies(turns))
  {
    if turns != [] && turns[0].Planner? {
      assert turns[0] in turns;
      RepliesAreSolid(turns[1..]);
    }
  }

  /** Without mixing the parser reports the conversation; with it, too much text. */
  lemma {:induction false} ObservedAgainstConversation(turns: seq<Turn>, stray: seq<string>)
    requires Stripped(turns) && Solid(stray)
    ensures if Mixes(turns, stray != []) then Weight(Observed(turns, stray)) > Weight(Conversation(turns))
            else Observed(turns, stray) == Conversation(turns)
    decreases |turns|, 0
  {
    if turns != [] {
      var text, rest := turns[0].text, turns[1..];
      assert turns[0] in turns && Stripped(rest);
      if turns[0].Planner? {
        ObservedAgainstConversation(rest, if text == "" then stray else stray + [text]);
      } else if text == "" {
        ObservedAgainstConversation(rest, stray);
      } else {
        QuestionAgainstConversation(text, rest, stray);
      }
    }
  }

  lemma {:induction false} QuestionAgainstConversation(text: string, rest: seq<Turn>, stray: seq<string>)
    requires Stripped(rest) && Solid(stray)
    ensures var observed := Emit(text, stray + Replies(rest)) + Observed(AfterReplies(rest), []);
            var said := Emit(text, Replies(rest)) + Conversation(rest);
            if stray != [] || Mixes(AfterReplies(rest), false) then Weight(observed) > Weight(said)
            else observed == said
    decreases |rest|, 1
  {
    RepliesAreSolid(rest);
    ObservedAgainstConversation(AfterReplies(rest), []);
    EmitGrows(text, stray, Replies(rest));
    WeightConcat(Emit(text, stray + Replies(rest)), Observed(AfterReplies(rest), []));
    WeightConcat(Emit(text, Replies(rest)), Conversation(rest));
  }

  /** The parser reports exactly the conversation when, and only when, no planner block that
      answers no question comes before a question. */
  lemma {:induction false} NeverMixesIff(turns: seq<Turn>)
    requires Stripped(turns)
    ensures Result(Machine(Start, turns)) == Conversation(turns) <==> !Mixes(turns, false)
  {
    IdleMachine([], [], turns);
    assert [] + Observed(turns, []) == Observed(turns, []);
    ObservedAgainstConversation(turns, []);
  }

  lemma {:induction false} TwoJoined(question: string, first: string, second: string)
    requires Trimmed(first) && Trimmed(second) && first != "" && second != ""
    ensures Emit(question, [first] + [second]) == [Pair(question, first + "\n\n" + second)]
  {
    var chunks := [first] + [second];
    assert chunks[0] == first && chunks[1..] == [second];
    assert JoinBlank(chunks) == first + ("\n\n" + second) == first + "\n\n" + second;
    StripTrimmed(first + "\n\n" + second);
  }

  /** A transcript that opens with the agent: its words are put into the answer to a question
      asked only later. */
  lemma {:induction false} MixedTurns(welcome: string, question: string, answer: string)
    requires Trimmed(welcome) && Trimmed(question) && Trimmed(answer)
    requires welcome != "" && question != "" && answer != ""
    ensures var turns := [Planner(welcome), User(question), Planner(answer)];
            Result(Machine(Start, turns)) == [Pair(question, welcome + "\n\n" + answer)]
            && Conversation(turns) == [Pair(question, answer)]
  {
    var turns := [Planner(welcome), User(question), Planner(answer)];
    var t1, t2 := turns[1..], turns[1..][1..];
    assert t1 == [User(question), Planner(answer)] && t2 == [Planner(answer)] && t2[1..] == [];
    var st := State(Some(question), [welcome] + [answer], []);
    assert [] + [welcome] == [welcome];
    assert Machine(Start, turns) == Machine(State(None, [welcome], []), t1)
        == Machine(State(Some(question), [welcome], []), t2) == st;
    TwoJoined(question, welcome, answer);
    assert Replies(t2) == [answer] && AfterReplies(t2) == [];
    StripTrimmed(answer);
    assert Conversation(t2) == [];
  }

  // ---------- Round trip ----------

  datatype Exchange = Exchange(query: string, replies: seq<string>)

  predicate Proper(x: Exchange) {
    x.query != "" && Trimmed(x.query) && x.replies != [] && Solid(x.replies)
  }

  function PlannerTurns(replies: seq<string>): seq<Turn> {
    if replies == [] then [] else [Planner(replies[0])] + PlannerTurns(replies[1..])
  }

  function Turns(exchanges: seq<Exchange>): seq<Turn> {
    if exchanges == [] then []
    else [User(exchanges[0].query)] + PlannerTurns(exchanges[0].replies) + Turns(exchanges[1..])
  }

  function Pairs(exchanges: seq<Exchange>): seq<Pair> {
    if exchanges == [] then []
    else [Pair(exchanges[0].query, JoinBlank(exchanges[0].replies))] + Pairs(exchanges[1..])
  }

  lemma {:induction false} FirstOf(t: Turn, answer: seq<Turn>, rest: seq<Turn>)
    ensures var turns := [t] + answer + rest; turns[0] == t && turns[1..] == answer + rest
  {
  }

  lemma {:induction false} RepliesOfPlanners(replies: seq<string>, rest: seq<Turn>)
    requires Solid(replies) && (rest == [] || rest[0].User?)
    ensures Replies(PlannerTurns(replies) + rest) == replies && AfterReplies(PlannerTurns(replies) + rest) == rest
  {
    if replies == [] {
      assert PlannerTurns(replies) + rest == rest;
    } else {
      SolidTail(replies);
      FirstOf(Planner(replies[0]), PlannerTurns(replies[1..]), rest);
      RepliesOfPlanners(replies[1..], rest);
    }
  }

  /** Questions with their answers, written as turns, come back as pairs, each answer's blocks
      joined by a blank line. */
  lemma {:induction false} ExchangesComeBack(exchanges: seq<Exchange>)
    requires forall x :: x in exchanges ==> Proper(x)
    ensures Observed(Turns(exchanges), []) == Pairs(exchanges)
    decreases |exchanges|
  {
    if exchanges != [] {
      var x, rest := exchanges[0], exchanges[1..];
      assert x in exchanges && Proper(x);
      ExchangesComeBack(rest);
      var turns := Turns(exchanges);
      FirstOf(User(x.query), PlannerTurns(x.replies), Turns(rest));
      RepliesOfPlanners(x.replies, Turns(rest));
      assert [] + x.replies == x.replies;
      JoinTrimmed(x.replies);
      StripTrimmed(JoinBlank(x.replies));
    }
  }
}
