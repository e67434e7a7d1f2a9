/** Upserts that raise after all their retries: which of them leave nodes behind that deletion of
    the repository misses. */
module RaisedUpserts {
  import opened Wrappers
  import opened Paths
  import opened CodeGraph
  import opened GraphInvariants
  import opened GraphRetry
  import opened GraphCrash
  import opened RetriedCalls

  // ---------- Traces of upsert queries ----------

  function LinkOf(n: Node): Step
    requires Hangs(n)
  {
    var e := ParentEdge(n);
    Link(e.from, e.relation, e.to)
  }

  /** A query an upsert in the repository may send. */
  predicate UpsertStep(s: Step, org: string, repo: string) {
    match s
    case Merge(n) => n == Repo(org, repo)
    case MergeSet(n, _) => Hangs(n) && Owned(n, org, repo)
    case Link(_, _, to) => Hangs(to) && Owned(to, org, repo) && s == LinkOf(to)
  }

  predicate UpsertTrace(trace: seq<Step>, org: string, repo: string) {
    forall s :: s in trace ==> UpsertStep(s, org, repo)
  }

  /** A node was new, has been written, and its link was never sent. */
  predicate HalfDone(g: Graph, trace: seq<Step>) {
    exists s :: s in trace && s.MergeSet? && Hangs(s.node) && s.node !in g.nodes && LinkOf(s.node) !in trace
  }

  lemma {:induction false} TraceRuns(g: Graph, trace: seq<Step>, org: string, repo: string)
    requires Linked(g) && UpsertTrace(trace, org, repo) && Ready(g.nodes.Keys, trace)
    ensures var h := Run(g, trace);
            Linked(h) && h.nodes.Keys == g.nodes.Keys + Written(trace) && h.edges == g.edges + LinkEdges(trace)
  {
    if trace != [] {
      var n := |trace| - 1;
      Unsnoc(trace);
      OneMoreStep(trace[..n], trace[n], trace);
      assert forall s :: s in trace[..n] ==> s in trace;
      TraceRuns(g, trace[..n], org, repo);
      LastRuns(g.edges, Run(g, trace[..n]), trace[..n], trace[n], trace, org, repo);
      assert trace[n] in trace;
    }
  }

  lemma {:induction false} LastRuns(edges: set<Edge>, h: Graph, steps: seq<Step>, s: Step, all: seq<Step>, org: string,
                                    repo: string)
    requires Linked(h) && UpsertStep(s, org, repo) && h.edges == edges + LinkEdges(steps)
    requires s.Link? ==> s.from in h.nodes && s.to in h.nodes
    requires forall x :: x in all <==> x in steps || x == s
    ensures Linked(Apply(h, s)) && Apply(h, s).nodes.Keys == h.nodes.Keys + (if s.Link? then {} else {s.node})
    ensures Apply(h, s).edges == edges + LinkEdges(all)
  {
    assert LinkEdges(all) == LinkEdges(steps) + (if s.Link? then {Edge(s.from, s.relation, s.to)} else {});
  }

  /** A trace of upsert queries leaves something that deletion misses exactly when it leaves a new
      node without its link. */
  lemma {:induction false} HalfDoneIff(g: Graph, trace: seq<Step>, org: string, repo: string)
    requires Sound(g) && UpsertTrace(trace, org, repo) && Ready(g.nodes.Keys, trace)
    ensures Orphaned(Run(g, trace), org, repo) <==> HalfDone(g, trace)
  {
    TraceRuns(g, trace, org, repo);
    if HalfDone(g, trace) {
      var s :| s in trace && s.MergeSet? && Hangs(s.node) && s.node !in g.nodes && LinkOf(s.node) !in trace;
      assert UpsertStep(s, org, repo);
      RunAdds(g, trace, s.node);
      UnlinkedIsMissed(Run(g, trace), s.node);
    } else {
      WholeIsAttached(g, trace, org, repo);
      SoundLeavesNone(Run(g, trace), org, repo);
    }
  }

  lemma {:induction false} WholeIsAttached(g: Graph, trace: seq<Step>, org: string, repo: string)
    requires Sound(g) && UpsertTrace(trace, org, repo) && !HalfDone(g, trace)
    requires var h := Run(g, trace);
             h.nodes.Keys == g.nodes.Keys + Written(trace) && h.edges == g.edges + LinkEdges(trace)
    ensures Attached(Run(g, trace), {})
  {
    forall n | n in Run(g, trace).nodes && Hangs(n) ensures ParentEdge(n) in Run(g, trace).edges {
      if n !in g.nodes {
        var s :| s in trace && !s.Link? && s.node == n;
        assert UpsertStep(s, org, repo);
        assert LinkOf(n) in trace;
      }
    }
  }

  // ---------- Upserts send such traces ----------

  lemma {:induction false} DirStepsAreUpserts(org: string, repo: string, path: string, props: Props)
    ensures UpsertTrace(DirSteps(org, repo, path, props), org, repo)
    decreases |path|
  {
    if !AtTop(path) {
      ParentIsShorter(path);
      DirStepsAreUpserts(org, repo, ParentPath(path), PlainDir);
    }
  }

  lemma {:induction false} LeafStepsAreUpserts(steps: seq<Step>, leaf: Node, props: Props, org: string, repo: string)
    requires UpsertTrace(steps, org, repo) && Hangs(leaf) && Owned(leaf, org, repo)
    ensures UpsertTrace(steps + [MergeSet(leaf, props), LinkOf(leaf)], org, repo)
  {
  }

  lemma {:induction false} FileStepsAreUpserts(org: string, repo: string, path: string, props: Props)
    ensures UpsertTrace(FileSteps(org, repo, path, props), org, repo)
  {
    DirStepsAreUpserts(org, repo, FileDirectory(path), PlainDir);
    LeafStepsAreUpserts(DirSteps(org, repo, FileDirectory(path), PlainDir), CodeGraph.Node.File(org, repo, path), props,
                        org, repo);
  }

  function OrgOf(op: Operation): string
    requires IsUpsert(op)
  {
    op.org
  }

  function RepoOf(op: Operation): string
    requires IsUpsert(op)
  {
    op.repo
  }

  lemma {:induction false} StepsAreUpserts(op: Operation)
    requires IsUpsert(op)
    ensures UpsertTrace(UpsertSteps(op), OrgOf(op), RepoOf(op))
  {
    match op
    case UpsertRepository(_, _) =>
    case UpsertDirectory(org, repo, path, props) => DirStepsAreUpserts(org, repo, path, props);
    case UpsertFile(org, repo, path, props) => FileStepsAreUpserts(org, repo, path, props);
    case UpsertSymbol(org, repo, path, name, signature, language, props) =>
      var file := FileProps(language, "", 0, [], 0, "");
      FileStepsAreUpserts(org, repo, path, file);
      LeafStepsAreUpserts(FileSteps(org, repo, path, file), Symbol(org, repo, path, name, signature), props, org, repo);
  }

  // ---------- Links come after their nodes, whatever is retried ----------

  /** Run with `base` written, no query of the call links a node not yet written. */
  predicate Orderly(base: set<Node>, c: Call)
    decreases Size(c), 0
  {
    match c
    case Query(s) => s.Link? ==> s.from in base && s.to in base
    case Retried(body) => AllOrderly(base, body)
  }

  predicate AllOrderly(base: set<Node>, body: seq<Call>)
    decreases SizeAll(body), 1
  {
    body == [] || (Orderly(base, body[0]) && AllOrderly(base + Written(Clean(body[0])), body[1..]))
  }

  lemma {:induction false} OrderlyMore(base: set<Node>, more: set<Node>, c: Call)
    requires Orderly(base, c) && base <= more
    ensures Orderly(more, c)
    decreases Size(c), 0
  {
    if c.Retried? { AllOrderlyMore(base, more, c.body); }
  }

  lemma {:induction false} AllOrderlyMore(base: set<Node>, more: set<Node>, body: seq<Call>)
    requires AllOrderly(base, body) && base <= more
    ensures AllOrderly(more, body)
    decreases SizeAll(body), 1
  {
    if body != [] {
      OrderlyMore(base, more, body[0]);
      AllOrderlyMore(base + Written(Clean(body[0])), more + Written(Clean(body[0])), body[1..]);
    }
  }

  lemma {:induction false} ReadySplit(base: set<Node>, trace: seq<Step>, k: nat)
    requires k <= |trace| && Ready(base, trace[..k]) && Ready(base + Written(trace[..k]), trace[k..])
    ensures Ready(base, trace)
  {
    ReadyConcat(base, trace[..k], trace[k..]);
    assert trace == trace[..k] + trace[k..];
  }

  lemma {:induction false} CoveredIsWritten(trace: seq<Step>, steps: seq<Step>)
    requires Covers(trace, steps)
    ensures Written(steps) <= Written(trace)
  {
    forall s | s in steps ensures s in trace { EmbedsElements(steps, trace, s); }
  }

  lemma {:induction false} ReturnsIsReady(base: set<Node>, c: Call, trace: seq<Step>)
    requires Orderly(base, c) && Returns(c, trace)
    ensures Ready(base, trace)
    decreases Size(c), 0, 0
  {
    match c
    case Query(s) => ReadyOne(base, s);
    case Retried(body) => ReturnsWithinIsReady(base, body, trace, MaxRetries);
  }

  lemma {:induction false} ReturnsWithinIsReady(base: set<Node>, body: seq<Call>, trace: seq<Step>, attempts: nat)
    requires AllOrderly(base, body) && ReturnsWithin(body, trace, attempts)
    ensures Ready(base, trace)
    decreases SizeAll(body), 2, attempts
  {
    if BodyReturns(body, trace) {
      BodyReturnsIsReady(base, body, trace);
    } else {
      var k :| 0 <= k <= |trace| && BodyRaises(body, trace[..k]) && ReturnsWithin(body, trace[k..], attempts - 1);
      var more := base + Written(trace[..k]);
      BodyRaisesIsReady(base, body, trace[..k]);
      AllOrderlyMore(base, more, body);
      ReturnsWithinIsReady(more, body, trace[k..], attempts - 1);
      ReadySplit(base, trace, k);
    }
  }

  lemma {:induction false} BodyReturnsIsReady(base: set<Node>, body: seq<Call>, trace: seq<Step>)
    requires AllOrderly(base, body) && BodyReturns(body, trace)
    ensures Ready(base, trace)
    decreases SizeAll(body), 1, 0
  {
    if body != [] {
      var k :| 0 <= k <= |trace| && Returns(body[0], trace[..k]) && BodyReturns(body[1..], trace[k..]);
      FirstReturned(base, body, trace[..k]);
      ReturnsIsReady(base, body[0], trace[..k]);
      BodyReturnsIsReady(base + Written(trace[..k]), body[1..], trace[k..]);
      ReadySplit(base, trace, k);
    }
  }

  /** After the first call has returned the rest is in order. */
  lemma {:induction false} FirstReturned(base: set<Node>, body: seq<Call>, first: seq<Step>)
    requires body != [] && AllOrderly(base, body) && Returns(body[0], first)
    ensures AllOrderly(base + Written(first), body[1..])
  {
    ReturnsCovers(body[0], first);
    CoveredIsWritten(first, Clean(body[0]));
    AllOrderlyMore(base + Written(Clean(body[0])), base + Written(first), body[1..]);
  }

  lemma {:induction false} RaisesIsReady(base: set<Node>, c: Call, trace: seq<Step>)
    requires Orderly(base, c) && Raises(c, trace)
    ensures Ready(base, trace)
    decreases Size(c), 0, 0
  {
    match c
    case Query(s) => ReadyOne(base, s);
    case Retried(body) => RaisesWithinIsReady(base, body, trace, MaxRetries);
  }

  lemma {:induction false} RaisesWithinIsReady(base: set<Node>, body: seq<Call>, trace: seq<Step>, attempts: nat)
    requires AllOrderly(base, body) && RaisesWithin(body, trace, attempts)
    ensures Ready(base, trace)
    decreases SizeAll(body), 2, attempts
  {
    if BodyRaises(body, trace) {
      BodyRaisesIsReady(base, body, trace);
    } else {
      var k :| 0 <= k <= |trace| && BodyRaises(body, trace[..k]) && RaisesWithin(body, trace[k..], attempts - 1);
      var more := base + Written(trace[..k]);
      BodyRaisesIsReady(base, body, trace[..k]);
      AllOrderlyMore(base, more, body);
      RaisesWithinIsReady(more, body, trace[k..], attempts - 1);
      ReadySplit(base, trace, k);
    }
  }

  lemma {:induction false} BodyRaisesIsReady(base: set<Node>, body: seq<Call>, trace: seq<Step>)
    requires AllOrderly(base, body) && BodyRaises(body, trace)
    ensures Ready(base, trace)
    decreases SizeAll(body), 1, 0
  {
    if Raises(body[0], trace) {
      RaisesIsReady(base, body[0], trace);
    } else {
      var k :| 0 <= k <= |trace| && Returns(body[0], trace[..k]) && BodyRaises(body[1..], trace[k..]);
      FirstReturned(base, body, trace[..k]);
      ReturnsIsReady(base, body[0], trace[..k]);
      BodyRaisesIsReady(base + Written(trace[..k]), body[1..], trace[k..]);
      ReadySplit(base, trace, k);
    }
  }

  // ---------- Upserts are orderly ----------

  lemma {:induction false} OrderlyTwo(base: set<Node>, a: Call, b: Call)
    requires Orderly(base, a) && Orderly(base + Written(Clean(a)), b)
    ensures AllOrderly(base, [a, b])
  {
    assert [a, b][1..] == [b] && [b][1..] == [];
  }

  lemma {:induction false} OrderlyThree(base: set<Node>, a: Call, b: Call, c: Call)
    requires Orderly(base, a) && Orderly(base + Written(Clean(a)), b)
    requires Orderly(base + Written(Clean(a)) + Written(Clean(b)), c)
    ensures AllOrderly(base, [a, b, c])
  {
    assert [a, b, c][1..] == [b, c];
    OrderlyTwo(base + Written(Clean(a)), b, c);
  }

  lemma {:induction false} OrderlyLink(base: set<Node>, s: Step)
    requires s.Link? && s.from in base && s.to in base
    ensures Orderly(base, Retried([Query(s)]))
  {
    assert [Query(s)][1..] == [];
  }

  lemma {:induction false} RepositoryOrderly(base: set<Node>, org: string, repo: string)
    ensures Orderly(base, RepositoryCall(org, repo)) && Repo(org, repo) in Written(Clean(RepositoryCall(org, repo)))
  {
    var merge := Merge(Repo(org, repo));
    assert [Query(merge)][1..] == [];
    CleanOne(Query(merge));
    assert merge in [merge];
  }

  lemma {:induction false} DirectoryOrderly(base: set<Node>, org: string, repo: string, path: string, props: Props)
    ensures Orderly(base, DirectoryCall(org, repo, path, props))
    ensures Dir(org, repo, path) in Written(Clean(DirectoryCall(org, repo, path, props)))
    decreases |path|, 1
  {
    var mergeSet := MergeSet(Dir(org, repo, path), props);
    var a, b := RepositoryCall(org, repo), Query(mergeSet);
    var both := base + Written(Clean(a)) + Written(Clean(b));
    RepositoryOrderly(base, org, repo);
    assert mergeSet in Clean(b);
    LinkOrderly(both, org, repo, path);
    OrderlyThree(base, a, b, LinkCall(org, repo, path));
    DirectoryCallIsClean(org, repo, path, props);
    DirStepsReady(org, repo, path, props, {});
  }

  lemma {:induction false} LinkOrderly(base: set<Node>, org: string, repo: string, path: string)
    requires Repo(org, repo) in base && Dir(org, repo, path) in base
    ensures Orderly(base, LinkCall(org, repo, path))
    decreases |path|, 0
  {
    if AtTop(path) {
      OrderlyLink(base, Link(Repo(org, repo), ContainsDir, Dir(org, repo, path)));
    } else {
      ParentIsShorter(path);
      var above := DirectoryCall(org, repo, ParentPath(path), PlainDir);
      DirectoryOrderly(base, org, repo, ParentPath(path), PlainDir);
      OrderlyTwo(base, above, Query(Link(Dir(org, repo, ParentPath(path)), ContainsDir, Dir(org, repo, path))));
    }
  }

  lemma {:induction false} LeafOrderly(base: set<Node>, above: Call, leaf: Node, props: Props)
    requires Hangs(leaf) && Orderly(base, above) && Parent(leaf) in Written(Clean(above))
    ensures Orderly(base, LeafCall(above, leaf, props)) && leaf in Written(Clean(LeafCall(above, leaf, props)))
  {
    var mergeSet := MergeSet(leaf, props);
    assert mergeSet in Clean(Query(mergeSet));
    OrderlyLink(base + Written(Clean(above)) + Written(Clean(Query(mergeSet))), LinkOf(leaf));
    OrderlyThree(base, above, Query(mergeSet), Retried([Query(LinkOf(leaf))]));
    LeafCallIsClean(above, leaf, props);
    assert mergeSet in Clean(LeafCall(above, leaf, props));
  }

  lemma {:induction false} UpsertIsOrderly(base: set<Node>, op: Operation)
    requires IsUpsert(op)
    ensures Orderly(base, UpsertCall(op))
  {
    match op
    case UpsertRepository(org, repo) => RepositoryOrderly(base, org, repo);
    case UpsertDirectory(org, repo, path, props) => DirectoryOrderly(base, org, repo, path, props);
    case UpsertFile(org, repo, path, props) => FileOrderly(base, org, repo, path, props);
    case UpsertSymbol(org, repo, path, name, signature, language, props) =>
      var file := FileProps(language, "", 0, [], 0, "");
      FileOrderly(base, org, repo, path, file);
      LeafOrderly(base, FileCall(org, repo, path, file), Symbol(org, repo, path, name, signature), props);
  }

  lemma {:induction false} FileOrderly(base: set<Node>, org: string, repo: string, path: string, props: Props)
    ensures Orderly(base, FileCall(org, repo, path, props))
    ensures CodeGraph.Node.File(org, repo, path) in Written(Clean(FileCall(org, repo, path, props)))
  {
    DirectoryOrderly(base, org, repo, FileDirectory(path), PlainDir);
    LeafOrderly(base, DirectoryCall(org, repo, FileDirectory(path), PlainDir), CodeGraph.Node.File(org, repo, path),
                props);
  }

  /** An upsert that raises, after whatever retries at whatever depth, leaves something that
      deletion of the repository misses exactly when it has written a new node whose link it never
      sent. */
  lemma {:induction false} RaisedUpsertOrphansIff(g: Graph, op: Operation, trace: seq<Step>)
    requires Sound(g) && IsUpsert(op) && Raises(UpsertCall(op), trace)
    ensures Orphaned(Run(g, trace), OrgOf(op), RepoOf(op)) <==> HalfDone(g, trace)
  {
    RaisesWithinSteps(UpsertCall(op), trace);
    UpsertCallIsClean(op);
    StepsAreUpserts(op);
    assert forall s :: s in trace ==> s in UpsertSteps(op);
    UpsertIsOrderly(g.nodes.Keys, op);
    RaisesIsReady(g.nodes.Keys, UpsertCall(op), trace);
    HalfDoneIff(g, trace, OrgOf(op), RepoOf(op));
  }
}
