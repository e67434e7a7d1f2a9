/** Dates of events: the 366 date nodes of the graph, and the strings the extraction accepts. */
module EventDates {
  import opened Wrappers
  import opened Text
  import opened Paths
  import opened Search
  import opened Normalised

  predicate IsDigit(c: char) {
    '0' <= c <= '9'
  }

  function Digit(c: char): nat
    requires IsDigit(c)
  {
    c as int - '0' as int
  }

  /** Of a leap year. */
  function DaysInMonth(month: nat): nat {
    if month == 2 then 29
    else if month in {4, 6, 9, 11} then 30
    else 31
  }

  predicate InYear(month: nat, day: nat) {
    1 <= month <= 12 && 1 <= day <= DaysInMonth(month)
  }

  /** There is a date node: "MM-DD" with two digits each. */
  predicate HasNode(date: string) {
    && |date| == 5 && date[2] == '-'
    && IsDigit(date[0]) && IsDigit(date[1]) && IsDigit(date[3]) && IsDigit(date[4])
    && InYear(10 * Digit(date[0]) + Digit(date[1]), 10 * Digit(date[3]) + Digit(date[4]))
  }

  // ---------- What the extraction accepts ----------

  /** The digits of a number, with single underscores between them. */
  function DigitsValue(s: string): Option<nat> {
    if s == "" || !IsDigit(s[|s| - 1]) then None
    else if |s| == 1 then Some(Digit(s[0]))
    else
      var n := |s| - 1;
      match DigitsValue(if s[n - 1] == '_' then s[..n - 1] else s[..n])
      case None => None
      case Some(v) => Some(10 * v + Digit(s[n]))
  }

  /** `int(s)` for a part without '-'. */
  function IntValue(s: string): Option<nat> {
    var t := Strip(s);
    DigitsValue(if t != "" && t[0] == '+' then t[1..] else t)
  }

  /** `_validate_date_format` */
  predicate Accepted(date: string) {
    var parts := Split(date, '-');
    && |date| == 5 && |parts| == 2
    && IntValue(parts[0]).Some? && IntValue(parts[1]).Some?
    && InYear(IntValue(parts[0]).value, IntValue(parts[1]).value)
  }

  method ValidateDateFormat(date: string) returns (valid: bool)
    ensures valid == Accepted(date)
  {
    if date == "" || |date| != 5 { return false; }
    var parts := Split(date, '-');
    if |parts| != 2 { return false; }
    var month, day := IntValue(parts[0]), IntValue(parts[1]);
    if month.None? || day.None? { return false; }
    if month.value < 1 || month.value > 12 { return false; }
    if day.value < 1 || day.value > DaysInMonth(month.value) { return false; }
    return true;
  }

  lemma {:induction false} SplitTwo(a: string, b: string)
    requires '-' !in a && '-' !in b
    ensures Split(a + "-" + b, '-') == [a, b]
  {
    SplitAt(a, '-', b);
    SplitLast(b, '-');
  }

  lemma {:induction false} OneMoreDigit(s: string, c: char)
    requires s != "" && IsDigit(s[|s| - 1]) && DigitsValue(s).Some? && IsDigit(c)
    ensures DigitsValue(s + [c]) == Some(10 * DigitsValue(s).value + Digit(c))
  {
    assert (s + [c])[..|s|] == s;
  }

  lemma {:induction false} TwoDigits(c: char, d: char)
    requires IsDigit(c) && IsDigit(d)
    ensures DigitsValue([c, d]) == IntValue([c, d]) == Some(10 * Digit(c) + Digit(d))
  {
    OneMoreDigit([c], d);
    assert [c] + [d] == [c, d];
    StripTrimmed([c, d]);
  }

  /** Every date with a node is accepted. */
  lemma {:induction false} NodesAreAccepted(date: string)
    requires HasNode(date)
    ensures Accepted(date)
  {
    var a, b := [date[0], date[1]], [date[3], date[4]];
    assert date == a + "-" + b;
    SplitTwo(a, b);
    TwoDigits(date[0], date[1]);
    TwoDigits(date[3], date[4]);
  }

  lemma {:induction false} ThreeDigits(c: char, d: char, e: char)
    requires IsDigit(c) && IsDigit(d) && IsDigit(e)
    ensures IntValue([c, d, e]) == Some(100 * Digit(c) + 10 * Digit(d) + Digit(e))
  {
    TwoDigits(c, d);
    OneMoreDigit([c, d], e);
    assert [c, d] + [e] == [c, d, e];
    StripTrimmed([c, d, e]);
  }

  /** What `int` reads besides plain digits: a plus sign before them, blanks around them, single
      underscores between them. */
  lemma {:induction false} IntForms(c: char, d: char, blank: string)
    requires IsDigit(c) && IsDigit(d) && Blank(blank)
    ensures IntValue(['+', c, d]) == Some(10 * Digit(c) + Digit(d))
    ensures IntValue(blank + [c, d] + blank) == Some(10 * Digit(c) + Digit(d))
    ensures IntValue([c, '_', d]) == Some(10 * Digit(c) + Digit(d))
  {
    TwoDigits(c, d);
    StripTrimmed(['+', c, d]);
    assert ['+', c, d][1..] == [c, d];
    StripUnique(blank, [c, d], blank);
    var s := [c, '_', d];
    StripTrimmed(s);
    assert s[..1] == [c] && DigitsValue([c]) == Some(Digit(c));
    assert DigitsValue(s) == Some(10 * Digit(c) + Digit(d));
  }

  lemma {:induction false} IntRefuses(s: string, i: nat)
    requires Trimmed(s) && i < |s| && !IsDigit(s[i]) && s[i] != '_' && (i > 0 || s[i] != '+')
    ensures IntValue(s) == None
  {
    StripTrimmed(s);
    if s[0] == '+' { NoOtherDigits(s[1..], i - 1); } else { NoOtherDigits(s, i); }
  }

  lemma {:induction false} NoOtherDigits(s: string, i: nat)
    requires i < |s| && !IsDigit(s[i]) && s[i] != '_'
    ensures DigitsValue(s) == None
  {
    var n := |s| - 1;
    if IsDigit(s[n]) {
      if i < n - 1 && s[n - 1] == '_' { NoOtherDigits(s[..n - 1], i); }
      if s[n - 1] != '_' { NoOtherDigits(s[..n], i); }
    }
  }

  /** Not every accepted date has a node. */
  lemma {:induction false} AcceptedWithoutNode() returns (date: string)
    ensures date == "1-005" && Accepted(date) && !HasNode(date)
  {
    var a, b := ['1'], ['0', '0', '5'];
    date := a + "-" + b;
    SplitTwo(a, b);
    StripTrimmed(a);
    ThreeDigits('0', '0', '5');
    assert date[2] == '0';
  }

  lemma {:induction false} DigitsAre(s: string)
    requires DigitsValue(s).Some?
    ensures '|' !in s
  {
    if |s| > 1 {
      var n := |s| - 1;
      if s[n - 1] == '_' {
        DigitsAre(s[..n - 1]);
        assert s == s[..n - 1] + ['_'] + [s[n]];
      } else {
        DigitsAre(s[..n]);
        assert s == s[..n] + [s[n]];
      }
    }
  }

  lemma {:induction false} IntHasNoBar(s: string)
    requires IntValue(s).Some?
    ensures '|' !in s
  {
    var t := Strip(s);
    StripKeeps(s, '|');
    if t != "" && t[0] == '+' {
      DigitsAre(t[1..]);
      assert t == ['+'] + t[1..];
    } else {
      DigitsAre(t);
    }
  }

  /** No accepted date contains the separator of the printed fields. */
  lemma {:induction false} AcceptedHasNoBar(date: string)
    requires Accepted(date)
    ensures '|' !in date
  {
    var parts := Split(date, '-');
    JoinSplit(date, '-');
    IntHasNoBar(parts[0]);
    IntHasNoBar(parts[1]);
    assert parts[1..] == [parts[1]];
    assert date == parts[0] + ['-'] + parts[1];
  }

  lemma {:induction false} NewYear() returns (date: string)
    ensures date == "01-01" && HasNode(date) && Accepted(date) && Trimmed(date)
  {
    date := "01-01";
    NodesAreAccepted(date);
  }

  /** A date is accepted exactly when its five characters are a month and a day with one '-' between
      them, each as `int` reads it. */
  lemma {:induction false} AcceptedIff(date: string)
    ensures Accepted(date) <==>
      |date| == 5
      && exists k :: 0 <= k < 5 && date[k] == '-' && '-' !in date[..k] && '-' !in date[k + 1..]
                     && IntValue(date[..k]).Some? && IntValue(date[k + 1..]).Some?
                     && InYear(IntValue(date[..k]).value, IntValue(date[k + 1..]).value)
  {
    var parts := Split(date, '-');
    if Accepted(date) {
      JoinSplit(date, '-');
      assert parts[1..] == [parts[1]];
      var k := |parts[0]|;
      assert date == parts[0] + ['-'] + parts[1];
      PartsHaveNoSeparator(date, '-', 0);
      PartsHaveNoSeparator(date, '-', 1);
      assert date[..k] == parts[0] && date[k + 1..] == parts[1];
    }
    if |date| == 5 {
      forall k | 0 <= k < 5 && date[k] == '-' && '-' !in date[..k] && '-' !in date[k + 1..]
        ensures parts == [date[..k], date[k + 1..]]
      {
        SplitTwo(date[..k], date[k + 1..]);
        assert date == date[..k] + "-" + date[k + 1..];
      }
    }
  }

  /** The months of the 366 days. */
  lemma {:induction false} DaysOfYear(month: nat, day: nat)
    ensures InYear(month, day) <==>
      1 <= month <= 12 && 1 <= day <= [31, 29, 31, 30, 31, 30, 31, 31, 30, 31, 30, 31][month - 1]
  {
  }

  // ---------- Normalised dates ----------

  lemma {:induction false} TwoWordsHaveSpace(first: string, rest: seq<string>)
    requires rest != []
    ensures ' ' in Join([first] + rest, ' ')
  {
    var words := [first] + rest;
    assert words[1..] == rest;
    assert Join(words, ' ')[|first|] == ' ';
  }

  /** Words joined to a text without a space were one word. */
  lemma {:induction false} OneWord(s: string)
    requires s != "" && Trimmed(s) && ' ' !in Join(Words(s), ' ')
    ensures Join(Words(s), ' ') == s
  {
    assert LStrip(s) == s;
    var n := WordLength(s);
    WordAtFront(s);
    var rest := Words(s[n..]);
    var words := [s[..n]] + rest;
    assert Words(s) == words;
    if n < |s| {
      LastCharacterMakesWord(s[n..]);
      TwoWordsHaveSpace(s[..n], rest);
    }
    assert s[n..] == "" && Words("") == [];
    assert s[..n] == s && words == [s];
  }

  lemma {:induction false} LastCharacterMakesWord(s: string)
    requires s != "" && !IsSpace(s[|s| - 1])
    ensures Words(s) != []
  {
    StripKeepsInk(s, |s| - 1);
  }

  lemma {:induction false} NothingNormal()
    ensures Norm("") == ""
  {
  }

  lemma {:induction false} NormOfDate(date: string)
    requires HasNode(date)
    ensures Norm(date) == date && Trimmed(date)
  {
    StripTrimmed(date);
    assert Lowered(date) == date;
    WordOfDate(date);
  }

  lemma {:induction false} WordOfDate(date: string)
    requires HasNode(date)
    ensures Words(date) == [date]
  {
    WordAtFront(date);
    assert forall c :: c in date ==> !IsSpace(c);
    assert LStrip(date) == date;
    assert WordLength(date) == 5;
    assert date[..5] == date && date[5..] == "";
  }

  lemma {:induction false} LoweredIsDate(s: string, date: string)
    requires HasNode(date) && Lowered(s) == date
    ensures s == date
  {
    assert forall i :: 0 <= i < |s| ==> Lower(s[i]) == date[i];
  }

  /** A trimmed text that normalises to a date is that date. */
  lemma {:induction false} NormIsDate(s: string, date: string)
    requires Trimmed(s) && HasNode(date) && Norm(s) == Norm(date)
    ensures s == date
  {
    NormOfDate(date);
    StripTrimmed(s);
    NothingNormal();
    var t := Lowered(s);
    if s != "" {
      LowerKeepsSpace(s[0]);
      LowerKeepsSpace(s[|s| - 1]);
      assert ' ' !in date;
      OneWord(t);
      LoweredIsDate(s, date);
    }
  }
}
