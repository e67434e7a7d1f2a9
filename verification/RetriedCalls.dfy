/** Upserts as nested calls, each retried on its own, and the queries such a call may send. */
module RetriedCalls {
  import opened Paths
  import opened CodeGraph
  import opened GraphInvariants
  import opened GraphRetry

  const MaxRetries: nat := 3

  /** A query, or a decorated method with what its body does in order. */
  datatype Call = Query(step: Step) | Retried(body: seq<Call>)

  function Size(c: Call): nat {
    match c
    case Query(_) => 1
    case Retried(body) => 1 + SizeAll(body)
  }

  function SizeAll(body: seq<Call>): nat {
    if body == [] then 0 else 1 + Size(body[0]) + SizeAll(body[1..])
  }

  /** The queries of one clean run. */
  function Clean(c: Call): seq<Step> {
    match c
    case Query(step) => [step]
    case Retried(body) => CleanAll(body)
  }

  function CleanAll(body: seq<Call>): seq<Step> {
    if body == [] then [] else Clean(body[0]) + CleanAll(body[1..])
  }

  /** `trace` is sent by a call that returns. */
  ghost predicate Returns(c: Call, trace: seq<Step>)
    decreases Size(c), 0, 0
  {
    match c
    case Query(step) => trace == [step]
    case Retried(body) => ReturnsWithin(body, trace, MaxRetries)
  }

  /** One of at most `attempts` attempts at the body succeeds. */
  ghost predicate ReturnsWithin(body: seq<Call>, trace: seq<Step>, attempts: nat)
    decreases SizeAll(body), 2, attempts
  {
    attempts > 0
    && (BodyReturns(body, trace)
        || exists k ::
             0 <= k <= |trace| && BodyRaises(body, trace[..k]) && ReturnsWithin(body, trace[k..], attempts - 1))
  }

  ghost predicate BodyReturns(body: seq<Call>, trace: seq<Step>)
    decreases SizeAll(body), 1, 0
  {
    if body == [] then trace == []
    else exists k :: 0 <= k <= |trace| && Returns(body[0], trace[..k]) && BodyReturns(body[1..], trace[k..])
  }

  /** `trace` is sent by a call that raises; a query may have been committed all the same. */
  ghost predicate Raises(c: Call, trace: seq<Step>)
    decreases Size(c), 0, 0
  {
    match c
    case Query(step) => trace == [] || trace == [step]
    case Retried(body) => RaisesWithin(body, trace, MaxRetries)
  }

  /** Every attempt fails, or one fails with an error that is not retried. */
  ghost predicate RaisesWithin(body: seq<Call>, trace: seq<Step>, attempts: nat)
    decreases SizeAll(body), 2, attempts
  {
    attempts > 0
    && (BodyRaises(body, trace)
        || exists k ::
             0 <= k <= |trace| && BodyRaises(body, trace[..k]) && RaisesWithin(body, trace[k..], attempts - 1))
  }

  ghost predicate BodyRaises(body: seq<Call>, trace: seq<Step>)
    decreases SizeAll(body), 1, 0
  {
    body != []
    && (Raises(body[0], trace)
        || exists k :: 0 <= k <= |trace| && Returns(body[0], trace[..k]) && BodyRaises(body[1..], trace[k..]))
  }

  // ---------- What a returning call has sent ----------

  predicate Within(trace: seq<Step>, steps: seq<Step>) {
    forall s :: s in trace ==> s in steps
  }

  lemma {:induction false} WithinSplit(trace: seq<Step>, k: nat, steps: seq<Step>)
    requires k <= |trace| && Within(trace[..k], steps) && Within(trace[k..], steps)
    ensures Within(trace, steps)
  {
    assert trace == trace[..k] + trace[k..];
  }

  lemma {:induction false} ReturnsCovers(c: Call, trace: seq<Step>)
    requires Returns(c, trace)
    ensures Covers(trace, Clean(c))
    decreases Size(c), 0, 0
  {
    match c
    case Query(step) => EmbedsItself([step]);
    case Retried(body) => ReturnsWithinCovers(body, trace, MaxRetries);
  }

  lemma {:induction false} ReturnsWithinCovers(body: seq<Call>, trace: seq<Step>, attempts: nat)
    requires ReturnsWithin(body, trace, attempts)
    ensures Covers(trace, CleanAll(body))
    decreases SizeAll(body), 2, attempts
  {
    if BodyReturns(body, trace) {
      BodyReturnsCovers(body, trace);
    } else {
      var k :| 0 <= k <= |trace| && BodyRaises(body, trace[..k]) && ReturnsWithin(body, trace[k..], attempts - 1);
      BodyRaisesWithin(body, trace[..k]);
      ReturnsWithinCovers(body, trace[k..], attempts - 1);
      CoversRetry(trace[..k], trace[k..], CleanAll(body));
      assert trace == trace[..k] + trace[k..];
    }
  }

  lemma {:induction false} BodyReturnsCovers(body: seq<Call>, trace: seq<Step>)
    requires BodyReturns(body, trace)
    ensures Covers(trace, CleanAll(body))
    decreases SizeAll(body), 1, 0
  {
    if body != [] {
      var k :| 0 <= k <= |trace| && Returns(body[0], trace[..k]) && BodyReturns(body[1..], trace[k..]);
      ReturnsCovers(body[0], trace[..k]);
      BodyReturnsCovers(body[1..], trace[k..]);
      CoversConcat(trace[..k], Clean(body[0]), trace[k..], CleanAll(body[1..]));
      assert trace == trace[..k] + trace[k..];
    }
  }

  lemma {:induction false} RaisesWithinSteps(c: Call, trace: seq<Step>)
    requires Raises(c, trace)
    ensures Within(trace, Clean(c))
    decreases Size(c), 0, 0
  {
    if c.Retried? { RetriesWithinSteps(c.body, trace, MaxRetries); }
  }

  lemma {:induction false} RetriesWithinSteps(body: seq<Call>, trace: seq<Step>, attempts: nat)
    requires RaisesWithin(body, trace, attempts)
    ensures Within(trace, CleanAll(body))
    decreases SizeAll(body), 2, attempts
  {
    if BodyRaises(body, trace) {
      BodyRaisesWithin(body, trace);
    } else {
      var k :| 0 <= k <= |trace| && BodyRaises(body, trace[..k]) && RaisesWithin(body, trace[k..], attempts - 1);
      BodyRaisesWithin(body, trace[..k]);
      RetriesWithinSteps(body, trace[k..], attempts - 1);
      WithinSplit(trace, k, CleanAll(body));
    }
  }

  lemma {:induction false} BodyRaisesWithin(body: seq<Call>, trace: seq<Step>)
    requires BodyRaises(body, trace)
    ensures Within(trace, CleanAll(body))
    decreases SizeAll(body), 1, 0
  {
    if Raises(body[0], trace) {
      RaisesWithinSteps(body[0], trace);
    } else {
      var k :| 0 <= k <= |trace| && Returns(body[0], trace[..k]) && BodyRaises(body[1..], trace[k..]);
      ReturnsCovers(body[0], trace[..k]);
      BodyRaisesWithin(body[1..], trace[k..]);
      WithinSplit(trace, k, CleanAll(body));
    }
  }

  // ---------- The upserts ----------

  function RepositoryCall(org: string, repo: string): Call {
    Retried([Query(Merge(Repo(org, repo)))])
  }

  function DirectoryCall(org: string, repo: string, path: string, props: Props): Call
    decreases |path|, 1
  {
    Retried([RepositoryCall(org, repo), Query(MergeSet(Dir(org, repo, path), props)), LinkCall(org, repo, path)])
  }

  function LinkCall(org: string, repo: string, path: string): Call
    decreases |path|, 0
  {
    if AtTop(path) then Retried([Query(Link(Repo(org, repo), ContainsDir, Dir(org, repo, path)))])
    else
      ParentIsShorter(path);
      Retried([DirectoryCall(org, repo, ParentPath(path), PlainDir),
               Query(Link(Dir(org, repo, ParentPath(path)), ContainsDir, Dir(org, repo, path)))])
  }

  /** A leaf's own query, then the decorated method that links it to its parent. */
  function LeafCall(above: Call, leaf: Node, props: Props): Call
    requires Hangs(leaf)
  {
    var e := ParentEdge(leaf);
    Retried([above, Query(MergeSet(leaf, props)), Retried([Query(Link(e.from, e.relation, e.to))])])
  }

  function FileCall(org: string, repo: string, path: string, props: Props): Call {
    LeafCall(DirectoryCall(org, repo, FileDirectory(path), PlainDir), CodeGraph.Node.File(org, repo, path), props)
  }

  function UpsertCall(op: Operation): Call
    requires IsUpsert(op)
  {
    match op
    case UpsertRepository(org, repo) => RepositoryCall(org, repo)
    case UpsertDirectory(org, repo, path, props) => DirectoryCall(org, repo, path, props)
    case UpsertFile(org, repo, path, props) => FileCall(org, repo, path, props)
    case UpsertSymbol(org, repo, path, name, signature, language, props) =>
      LeafCall(FileCall(org, repo, path, FileProps(language, "", 0, [], 0, "")),
               Symbol(org, repo, path, name, signature), props)
  }

  lemma {:induction false} CleanOne(a: Call)
    ensures CleanAll([a]) == Clean(a)
  {
    assert [a][1..] == [];
    assert Clean(a) + [] == Clean(a);
  }

  lemma {:induction false} CleanTwo(a: Call, b: Call)
    ensures CleanAll([a, b]) == Clean(a) + Clean(b)
  {
    assert [a, b][1..] == [b];
    CleanOne(b);
  }

  lemma {:induction false} CleanThree(a: Call, b: Call, c: Call)
    ensures CleanAll([a, b, c]) == Clean(a) + (Clean(b) + Clean(c))
  {
    assert [a, b, c][1..] == [b, c];
    CleanTwo(b, c);
  }

  lemma {:induction false} LinkCallIsClean(org: string, repo: string, path: string)
    ensures Clean(LinkCall(org, repo, path)) == LinkSteps(org, repo, path)
    decreases |path|, 0
  {
    if AtTop(path) {
      CleanOne(Query(Link(Repo(org, repo), ContainsDir, Dir(org, repo, path))));
    } else {
      ParentIsShorter(path);
      DirectoryCallIsClean(org, repo, ParentPath(path), PlainDir);
      CleanTwo(DirectoryCall(org, repo, ParentPath(path), PlainDir),
               Query(Link(Dir(org, repo, ParentPath(path)), ContainsDir, Dir(org, repo, path))));
    }
  }

  lemma {:induction false} DirectoryCallIsClean(org: string, repo: string, path: string, props: Props)
    ensures Clean(DirectoryCall(org, repo, path, props)) == DirSteps(org, repo, path, props)
    decreases |path|, 1
  {
    var merge, mergeSet := Merge(Repo(org, repo)), MergeSet(Dir(org, repo, path), props);
    CleanOne(Query(merge));
    LinkCallIsClean(org, repo, path);
    CleanThree(RepositoryCall(org, repo), Query(mergeSet), LinkCall(org, repo, path));
    assert [merge] + ([mergeSet] + LinkSteps(org, repo, path)) == [merge, mergeSet] + LinkSteps(org, repo, path);
  }

  lemma {:induction false} LeafCallIsClean(above: Call, leaf: Node, props: Props)
    requires Hangs(leaf)
    ensures var e := ParentEdge(leaf);
            Clean(LeafCall(above, leaf, props))
            == Clean(above) + [MergeSet(leaf, props), Link(e.from, e.relation, e.to)]
  {
    var e := ParentEdge(leaf);
    var mergeSet, link := MergeSet(leaf, props), Link(e.from, e.relation, e.to);
    CleanOne(Query(link));
    CleanThree(above, Query(mergeSet), Retried([Query(link)]));
    assert [mergeSet] + [link] == [mergeSet, link];
  }

  lemma {:induction false} UpsertCallIsClean(op: Operation)
    requires IsUpsert(op)
    ensures Clean(UpsertCall(op)) == UpsertSteps(op)
  {
    match op
    case UpsertRepository(org, repo) => CleanOne(Query(Merge(Repo(org, repo))));
    case UpsertDirectory(org, repo, path, props) => DirectoryCallIsClean(org, repo, path, props);
    case UpsertFile(org, repo, path, props) => FileCallIsClean(org, repo, path, props);
    case UpsertSymbol(org, repo, path, name, signature, language, props) =>
      var file := FileProps(language, "", 0, [], 0, "");
      FileCallIsClean(org, repo, path, file);
      LeafCallIsClean(FileCall(org, repo, path, file), Symbol(org, repo, path, name, signature), props);
  }

  lemma {:induction false} FileCallIsClean(org: string, repo: string, path: string, props: Props)
    ensures Clean(FileCall(org, repo, path, props)) == FileSteps(org, repo, path, props)
  {
    DirectoryCallIsClean(org, repo, FileDirectory(path), PlainDir);
    LeafCallIsClean(DirectoryCall(org, repo, FileDirectory(path), PlainDir), CodeGraph.Node.File(org, repo, path),
                    props);
  }

  /** Whatever failures the nested calls of an upsert met, at whatever depth they were retried,
      an upsert that returns leaves the graph of one clean call. */
  lemma {:induction false} RetriedUpsertIsClean(g: Graph, op: Operation, trace: seq<Step>)
    requires IsUpsert(op) && Returns(UpsertCall(op), trace)
    ensures Run(g, trace) == Perform(g, op)
  {
    ReturnsCovers(UpsertCall(op), trace);
    UpsertCallIsClean(op);
    UpsertSurvivesRetries(g, op, trace);
  }

  // ---------- How often ----------

  predicate AllAre(trace: seq<Step>, s: Step) {
    forall i :: 0 <= i < |trace| ==> trace[i] == s
  }

  lemma {:induction false} OneQuery(s: Step, trace: seq<Step>)
    ensures BodyReturns([Query(s)], trace) <==> trace == [s]
    ensures BodyRaises([Query(s)], trace) <==> trace == [] || trace == [s]
  {
    assert [Query(s)][1..] == [];
    if trace == [s] { assert trace[..1] == [s] && trace[1..] == []; }
    if BodyReturns([Query(s)], trace) {
      var k :| 0 <= k <= |trace| && Returns(Query(s), trace[..k]) && BodyReturns([], trace[k..]);
      assert trace == trace[..k] + trace[k..];
    }
  }

  lemma {:induction false} AttemptsIff(s: Step, trace: seq<Step>, attempts: nat)
    ensures ReturnsWithin([Query(s)], trace, attempts) <==> 1 <= |trace| <= attempts && AllAre(trace, s)
  {
    OneQuery(s, trace);
    if attempts > 0 {
      forall k | 0 <= k <= |trace| && BodyRaises([Query(s)], trace[..k])
        && ReturnsWithin([Query(s)], trace[k..], attempts - 1)
        ensures 1 <= |trace| <= attempts && AllAre(trace, s)
      {
        OneQuery(s, trace[..k]);
        AttemptsIff(s, trace[k..], attempts - 1);
        assert trace == trace[..k] + trace[k..];
      }
      if 1 < |trace| <= attempts && AllAre(trace, s) {
        OneQuery(s, trace[..1]);
        AttemptsIff(s, trace[1..], attempts - 1);
        assert trace[..1] == [s];
      }
    }
  }

  /** A decorated query is sent one, two or three times before it returns. */
  lemma {:induction false} ThreeTries(s: Step, trace: seq<Step>)
    ensures Returns(Retried([Query(s)]), trace) <==> trace in {[s], [s, s], [s, s, s]}
  {
    AttemptsIff(s, trace, 3);
    if 1 <= |trace| <= 3 && AllAre(trace, s) {
      assert trace == if |trace| == 1 then [s] else if |trace| == 2 then [s, s] else [s, s, s];
    }
  }
}
