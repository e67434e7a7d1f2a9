/** The one-line form of a temporal event: six fields joined by " | ". */
module TemporalFields {
  import opened Text
  import opened Paths

  datatype Event = Event(date: string, name: string, desc: string, year: string, time: string, expression: string)

  function Fields(e: Event): seq<string> {
    [e.date, e.name, e.desc, e.year, e.time, e.expression]
  }

  /** `" | ".join(parts)` */
  function JoinBars(parts: seq<string>): string {
    if parts == [] then ""
    else if |parts| == 1 then parts[0]
    else parts[0] + " | " + JoinBars(parts[1..])
  }

  function Printed(e: Event): string {
    JoinBars(Fields(e))
  }

  lemma {:induction false} PrintedIs(date: string, name: string, desc: string, year: string, time: string,
                                     expression: string)
    ensures Printed(Event(date, name, desc, year, time, expression))
         == date + " | " + (name + " | " + (desc + " | " + (year + " | " + (time + " | " + expression))))
  {
    JoinTwo(time, [expression]);
    JoinTwo(year, [time, expression]);
    JoinTwo(desc, [year, time, expression]);
    JoinTwo(name, [desc, year, time, expression]);
    JoinTwo(date, [name, desc, year, time, expression]);
  }

  lemma {:induction false} JoinTwo(first: string, rest: seq<string>)
    requires rest != []
    ensures JoinBars([first] + rest) == first + " | " + JoinBars(rest)
  {
    assert ([first] + rest)[1..] == rest;
  }

  function Field(parts: seq<string>, i: nat): string {
    if i < |parts| then Strip(parts[i]) else ""
  }

  function Parsed(content: string): Event {
    var parts := Split(content, '|');
    Event(Field(parts, 0), Field(parts, 1), Field(parts, 2), Field(parts, 3), Field(parts, 4), Field(parts, 5))
  }

  /** A field that neither contains the separator nor has whitespace around it. */
  predicate Plain(s: string) {
    Trimmed(s) && '|' !in s
  }

  predicate PlainEvent(e: Event) {
    Plain(e.date) && Plain(e.name) && Plain(e.desc) && Plain(e.year) && Plain(e.time) && Plain(e.expression)
  }

  /** The fields as they are extracted: stripped. */
  predicate TrimmedEvent(e: Event) {
    && Trimmed(e.date) && Trimmed(e.name) && Trimmed(e.desc) && Trimmed(e.year) && Trimmed(e.time)
    && Trimmed(e.expression)
  }

  /** No field contains the separator. */
  predicate Unbarred(e: Event) {
    && '|' !in e.date && '|' !in e.name && '|' !in e.desc && '|' !in e.year && '|' !in e.time
    && '|' !in e.expression
  }

  lemma {:induction false} PartIsPlain(parts: seq<string>, i: nat)
    requires forall j :: 0 <= j < |parts| ==> '|' !in parts[j]
    ensures Plain(Field(parts, i))
  {
    if i < |parts| {
      var before, after := StripSplits(parts[i]);
      assert forall c :: c in Strip(parts[i]) ==> c in parts[i];
    }
  }

  lemma {:induction false} StripPadded(before: string, s: string, after: string)
    requires Trimmed(s) && Blank(before) && Blank(after)
    ensures Strip(before + s + after) == s
  {
    StripUnique(before, s, after);
  }

  predicate AllPlain(parts: seq<string>) {
    forall i :: 0 <= i < |parts| ==> Plain(parts[i])
  }

  /** Joined fields split back, each with the spaces of its separators, up to the first field
      that is not plain. */
  lemma {:induction false} JoinedField(before: string, parts: seq<string>, i: nat)
    requires Blank(before) && '|' !in before && i < |parts| && forall j :: 0 <= j <= i ==> Plain(parts[j])
    ensures var split := Split(before + JoinBars(parts), '|');
            && i < |split| && Strip(split[i]) == parts[i]
            && (AllPlain(parts) ==> |split| == |parts|)
    decreases |parts|
  {
    var first, rest := parts[0], parts[1..];
    if rest == [] {
      SplitLast(before + first, '|');
      StripPadded(before, first, "");
      assert before + first + "" == before + first;
    } else {
      var head, tail := before + first + " ", " " + JoinBars(rest);
      assert before + JoinBars(parts) == head + "|" + tail;
      SplitAt(head, '|', tail);
      StripPadded(before, first, " ");
      if i > 0 || Plain(rest[0]) { JoinedField(" ", rest, if i == 0 then 0 else i - 1); }
    }
  }

  /** Date and name come back when neither contains the separator, whatever the other fields do. */
  lemma {:induction false} DateAndNameReadBack(e: Event)
    requires Plain(e.date) && Plain(e.name)
    ensures Parsed(Printed(e)).date == e.date && Parsed(Printed(e)).name == e.name
  {
    assert "" + JoinBars(Fields(e)) == Printed(e);
    JoinedField("", Fields(e), 0);
    JoinedField("", Fields(e), 1);
  }

  lemma {:induction false} PlainReadsBack(e: Event)
    requires PlainEvent(e)
    ensures Parsed(Printed(e)) == e
  {
    var parts := Fields(e);
    assert "" + JoinBars(parts) == Printed(e);
    forall i: nat | i < 6 ensures Field(Split(Printed(e), '|'), i) == parts[i] {
      JoinedField("", parts, i);
    }
  }

  /** An event reads back from its printed form exactly when every field is trimmed and free of
      the separator. */
  lemma {:induction false} ReadsBackIff(e: Event)
    ensures Parsed(Printed(e)) == e <==> PlainEvent(e)
  {
    if PlainEvent(e) { PlainReadsBack(e); }
    ReadBackIsPlain(Printed(e));
  }

  /** Whatever is read back is plain. */
  lemma {:induction false} ReadBackIsPlain(content: string)
    ensures PlainEvent(Parsed(content))
  {
    var parts := Split(content, '|');
    forall j | 0 <= j < |parts| ensures '|' !in parts[j] {
      PartsHaveNoSeparator(content, '|', j);
    }
    forall i: nat ensures Plain(Field(parts, i)) { PartIsPlain(parts, i); }
  }
}
