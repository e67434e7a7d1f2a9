/** Credit estimates for jobs. Token counting, the workflow multiplier and the reservation
    buffer come from configuration and are parameters here. */
module Metering {
  import opened Wrappers

  datatype Message = Message(userQuery: string, agentResponse: string)

  datatype Job =
    | Ingest(message: Message)
    | BatchIngest(messages: seq<Message>)
    | Retrieve(query: string)
    | Other(payload: string)

  datatype Estimate = Estimate(contentTokens: nat, billable: nat, reserved: nat)

  /** The non-empty fields of a message, joined by a line break. */
  function IngestText(m: Message): string {
    if m.userQuery == "" then m.agentResponse
    else if m.agentResponse == "" then m.userQuery
    else m.userQuery + "\n" + m.agentResponse
  }

  function ContentTokens(job: Job, tokens: string -> nat): nat
    decreases if job.BatchIngest? then |job.messages| + 1 else 0
  {
    match job
    case Ingest(m) => tokens(IngestText(m))
    case BatchIngest(ms) =>
      if ms == [] then 0
      else ContentTokens(Ingest(ms[0]), tokens) + ContentTokens(BatchIngest(ms[1..]), tokens)
    case Retrieve(query) => tokens(query)
    case Other(payload) => tokens(payload)
  }

  function Ceiling(x: real): int {
    0 - (0.0 - x).Floor
  }

  lemma {:induction false} CeilingBounds(x: real)
    ensures x <= Ceiling(x) as real < x + 1.0
  {
    var down := (0.0 - x).Floor;
    assert down as real <= 0.0 - x < down as real + 1.0;
    assert Ceiling(x) as real == 0.0 - down as real;
  }

  /** Whole credits for a usage: rounded up, and never less than one. */
  function Charge(usage: real): nat {
    Max(1, Ceiling(usage))
  }

  function EstimateCredits(job: Job, tokens: string -> nat, multiplier: real, buffer: real): Estimate {
    var count := ContentTokens(job, tokens);
    var billable := Charge(count as real * multiplier);
    Estimate(count, billable, Max(billable, Ceiling(billable as real * buffer)))
  }

  lemma {:induction false} BatchTokensAdd(first: seq<Message>, second: seq<Message>, tokens: string -> nat)
    ensures ContentTokens(BatchIngest(first + second), tokens)
            == ContentTokens(BatchIngest(first), tokens) + ContentTokens(BatchIngest(second), tokens)
  {
    if first == [] {
      assert first + second == second;
    } else {
      assert (first + second)[1..] == first[1..] + second;
      BatchTokensAdd(first[1..], second, tokens);
    }
  }

  /** The least whole number of credits, at least `floor`, that covers the usage. */
  predicate LeastCovering(credits: int, usage: real, floor: int) {
    credits >= floor && usage <= credits as real && (credits > floor ==> (credits - 1) as real < usage)
  }

  /** A charge is the least whole number of credits, at least one, that covers the usage. */
  lemma {:induction false} ChargeIsLeast(usage: real)
    ensures LeastCovering(Charge(usage), usage, 1)
  {
    CeilingBounds(usage);
  }

  /** What is counted for an ingest is both fields, a line break between them when both have text,
      and for a batch the sum over its items; a retrieval counts its query. */
  lemma {:induction false} WhatIsCounted(user: string, agent: string, rest: seq<Message>, query: string,
                                         tokens: string -> nat)
    ensures user != "" && agent != "" ==>
              ContentTokens(Ingest(Message(user, agent)), tokens) == tokens(user + "\n" + agent)
    ensures ContentTokens(Ingest(Message(user, "")), tokens) == tokens(user)
    ensures ContentTokens(Ingest(Message("", agent)), tokens) == tokens(agent)
    ensures ContentTokens(BatchIngest([]), tokens) == 0
    ensures ContentTokens(BatchIngest([Message(user, agent)] + rest), tokens)
         == ContentTokens(Ingest(Message(user, agent)), tokens) + ContentTokens(BatchIngest(rest), tokens)
    ensures ContentTokens(Retrieve(query), tokens) == tokens(query)
  {
    assert ([Message(user, agent)] + rest)[1..] == rest;
  }

  /** An estimate bills the least credits, at least one, that cover the counted tokens times the
      multiplier, and reserves the least, at least the bill, that cover the bill times the buffer. */
  lemma {:induction false} EstimateIsLeast(job: Job, tokens: string -> nat, multiplier: real, buffer: real, e: Estimate)
    requires e == EstimateCredits(job, tokens, multiplier, buffer)
    ensures e.contentTokens == ContentTokens(job, tokens)
    ensures LeastCovering(e.billable, e.contentTokens as real * multiplier, 1)
    ensures LeastCovering(e.reserved, e.billable as real * buffer, e.billable)
  {
    MaxIsLeast(e.contentTokens as real * multiplier, 1);
    MaxIsLeast(e.billable as real * buffer, e.billable);
  }

  lemma {:induction false} MaxIsLeast(usage: real, floor: int)
    ensures LeastCovering(Max(floor, Ceiling(usage)), usage, floor)
  {
    CeilingBounds(usage);
  }

  /** A reservation is never below the charge estimated for the same job without the buffer. */
  lemma {:induction false} ReservationCoversCharge(job: Job, tokens: string -> nat, multiplier: real, buffer: real)
    ensures var charge := EstimateCredits(job, tokens, multiplier, 1.0);
            1 <= charge.billable == charge.reserved <= EstimateCredits(job, tokens, multiplier, buffer).reserved
  {
    var usage := ContentTokens(job, tokens) as real * multiplier;
    ChargeIsLeast(usage);
    CeilingBounds(Charge(usage) as real);
  }
}
