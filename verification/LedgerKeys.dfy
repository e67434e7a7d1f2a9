/** Idempotency keys of ledger rows, and why they never collide. */
module LedgerKeys {
  import opened Wrappers
  import opened CreditLots

  /** What a ledger row records; rows about a job name the job. */
  datatype Kind =
    | Grant(source: string, expires: Option<Time>)
    | Reserve(job: string, version: nat)
    | Release(job: string, version: nat)
    | Debit(job: string)
    | Refund(job: string)

  /** Decimal form of a version number, as an f-string prints it. */
  function Decimal(n: nat): string {
    if n < 10 then [Digit(n)] else Decimal(n / 10) + [Digit(n % 10)]
  }

  function Digit(d: nat): char
    requires d < 10
  {
    '0' + d as char
  }

  /** The key a row about a job is stored under; grants bring their own key. */
  function JobKey(kind: Kind): string
    requires !kind.Grant?
  {
    match kind
    case Reserve(job, version) => "reserve:" + job + ":" + Decimal(version)
    case Release(job, version) => "release:" + job + ":" + Decimal(version)
    case Debit(job) => "debit:" + job
    case Refund(job) => "refund:" + job
  }

  /** Keys that cannot be mistaken for a job key. */
  predicate Foreign(key: string) {
    !("reserve:" <= key) && !("release:" <= key) && !("debit:" <= key) && !("refund:" <= key)
  }

  lemma {:induction false} DecimalHasNoColon(n: nat)
    ensures |Decimal(n)| > 0
    ensures forall i :: 0 <= i < |Decimal(n)| ==> Decimal(n)[i] != ':'
  {
    if n >= 10 { DecimalHasNoColon(n / 10); }
  }

  lemma {:induction false} DecimalInjective(m: nat, n: nat)
    requires Decimal(m) == Decimal(n)
    ensures m == n
  {
    DecimalHasNoColon(m / 10);
    DecimalHasNoColon(n / 10);
    var s := Decimal(m);
    assert s[|s| - 1] == Digit(m % 10) == Digit(n % 10);
    if m >= 10 && n >= 10 {
      assert s[..|s| - 1] == Decimal(m / 10) == Decimal(n / 10);
      DecimalInjective(m / 10, n / 10);
    }
  }

  lemma {:induction false} LastColon(job: string, version: nat)
    ensures var s := job + ":" + Decimal(version);
            |job| < |s| && s[|job|] == ':' && forall i :: |job| < i < |s| ==> s[i] != ':'
  {
    DecimalHasNoColon(version);
  }

  /** A job id may itself contain colons; the last colon separates the version. */
  lemma {:induction false} VersionedInjective(job: string, version: nat, job': string, version': nat)
    requires job + ":" + Decimal(version) == job' + ":" + Decimal(version')
    ensures job == job' && version == version'
  {
    var s := job + ":" + Decimal(version);
    LastColon(job, version);
    LastColon(job', version');
    assert job == s[..|job|] == job';
    assert Decimal(version) == s[|job| + 1..] == Decimal(version');
    DecimalInjective(version, version');
  }

  lemma {:induction false} DropPrefix(p: string, s: string, t: string)
    requires p + s == p + t
    ensures s == t
  {
    assert s == (p + s)[|p|..] && t == (p + t)[|p|..];
  }

  /** The third letter of a job key tells the four sorts of row apart. */
  lemma {:induction false} JobKeyTag(k: Kind)
    requires !k.Grant?
    ensures |JobKey(k)| > 2
    ensures JobKey(k)[2] == if k.Reserve? then 's' else if k.Release? then 'l' else if k.Debit? then 'b' else 'f'
  {
  }

  lemma {:induction false} PrefixedInjective(p: string, job: string, version: nat, job': string, version': nat)
    requires p + job + ":" + Decimal(version) == p + job' + ":" + Decimal(version')
    ensures job == job' && version == version'
  {
    var s, s' := job + ":" + Decimal(version), job' + ":" + Decimal(version');
    assert p + job + ":" + Decimal(version) == p + s && p + job' + ":" + Decimal(version') == p + s';
    DropPrefix(p, s, s');
    VersionedInjective(job, version, job', version');
  }

  /** Rows about jobs get distinct keys unless they record the same thing. */
  lemma {:induction false} JobKeyInjective(k: Kind, k': Kind)
    requires !k.Grant? && !k'.Grant? && JobKey(k) == JobKey(k')
    ensures k == k'
  {
    JobKeyTag(k);
    JobKeyTag(k');
    match k {
      case Reserve(j, v) => PrefixedInjective("reserve:", j, v, k'.job, k'.version);
      case Release(j, v) => PrefixedInjective("release:", j, v, k'.job, k'.version);
      case Debit(j) => DropPrefix("debit:", j, k'.job);
      case Refund(j) => DropPrefix("refund:", j, k'.job);
    }
  }

  lemma {:induction false} JobKeyIsNotForeign(k: Kind)
    requires !k.Grant?
    ensures !Foreign(JobKey(k))
  {
    match k {
      case Reserve(j, v) => assert JobKey(k) == "reserve:" + (j + ":" + Decimal(v));
      case Release(j, v) => assert JobKey(k) == "release:" + (j + ":" + Decimal(v));
      case Debit(j) =>
      case Refund(j) =>
    }
  }

  lemma {:induction false} ForeignByFirstLetter(key: string)
    requires key != "" && key[0] !in {'r', 'd'}
    ensures Foreign(key)
  {
  }
}
