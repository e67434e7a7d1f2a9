/** Retrying an upsert: every query is committed on its own, so a failed attempt leaves part
    of its work behind, and each nested call may itself have been retried. */
module GraphRetry {
  import opened Wrappers
  import opened Paths
  import opened CodeGraph
  import opened GraphInvariants

  /** `steps` occurs in `trace` in order, possibly with other steps in between. */
  predicate Embeds(steps: seq<Step>, trace: seq<Step>) {
    steps == []
    || (trace != []
        && var n := |trace| - 1;
           Embeds(steps, trace[..n])
           || (steps[|steps| - 1] == trace[n] && Embeds(steps[..|steps| - 1], trace[..n])))
  }

  /** A trace of an upsert that in the end succeeded: only its own queries were sent, some more
      than once, and all of them were sent in order. */
  predicate Covers(trace: seq<Step>, steps: seq<Step>) {
    (forall s :: s in trace ==> s in steps) && Embeds(steps, trace)
  }

  lemma {:induction false} EmbedsItself(steps: seq<Step>)
    ensures Embeds(steps, steps)
  {
    if steps != [] { EmbedsItself(steps[..|steps| - 1]); }
  }

  lemma {:induction false} EmbedsElements(steps: seq<Step>, trace: seq<Step>, s: Step)
    requires Embeds(steps, trace) && s in steps
    ensures s in trace
  {
    var n := |trace| - 1;
    if Embeds(steps, trace[..n]) {
      EmbedsElements(steps, trace[..n], s);
    } else if s != steps[|steps| - 1] {
      EmbedsElements(steps[..|steps| - 1], trace[..n], s);
    }
  }

  lemma {:induction false} EmbedsLater(steps: seq<Step>, before: seq<Step>, trace: seq<Step>)
    requires Embeds(steps, trace)
    ensures Embeds(steps, before + trace)
  {
    if steps != [] {
      var n := |trace| - 1;
      assert (before + trace)[..|before| + n] == before + trace[..n];
      if Embeds(steps, trace[..n]) {
        EmbedsLater(steps, before, trace[..n]);
      } else {
        EmbedsLater(steps[..|steps| - 1], before, trace[..n]);
      }
    }
  }

  lemma {:induction false} EmbedsConcat(a: seq<Step>, b: seq<Step>, s: seq<Step>, t: seq<Step>)
    requires Embeds(a, s) && Embeds(b, t)
    ensures Embeds(a + b, s + t)
    decreases |t|
  {
    if t == [] {
      assert a + b == a && s + t == s;
    } else {
      var n := |t| - 1;
      assert (s + t)[..|s| + n] == s + t[..n];
      if Embeds(b, t[..n]) {
        EmbedsConcat(a, b, s, t[..n]);
      } else {
        EmbedsConcat(a, b[..|b| - 1], s, t[..n]);
        assert (a + b)[..|a + b| - 1] == a + b[..|b| - 1];
      }
    }
  }

  /** A call whose parts were each retried until they succeeded. */
  lemma {:induction false} CoversConcat(s: seq<Step>, a: seq<Step>, t: seq<Step>, b: seq<Step>)
    requires Covers(s, a) && Covers(t, b)
    ensures Covers(s + t, a + b)
  {
    EmbedsConcat(a, b, s, t);
  }

  /** A call that failed part way and was then made again. */
  lemma {:induction false} CoversRetry(failed: seq<Step>, trace: seq<Step>, steps: seq<Step>)
    requires forall s :: s in failed ==> s in steps
    requires Covers(trace, steps)
    ensures Covers(failed + trace, steps)
  {
    EmbedsLater(steps, failed, trace);
  }

  // ---------- What a trace does ----------

  function Written(steps: seq<Step>): set<Node> {
    set s | s in steps && !s.Link? :: s.node
  }

  function LinkEdges(steps: seq<Step>): set<Edge> {
    set s | s in steps && s.Link? :: Edge(s.from, s.relation, s.to)
  }

  /** No node is given two different sets of properties. */
  predicate Consistent(steps: seq<Step>) {
    forall a, b :: a in steps && b in steps && a.MergeSet? && b.MergeSet? && a.node == b.node ==> a.props == b.props
  }

  /** A node is linked only after it has been written, here or in `base`. */
  predicate Ready(base: set<Node>, steps: seq<Step>) {
    steps == []
    || (var n := |steps| - 1;
        Ready(base, steps[..n])
        && (steps[n].Link? ==>
              steps[n].from in base + Written(steps[..n]) && steps[n].to in base + Written(steps[..n])))
  }

  predicate Repeatable(steps: seq<Step>) {
    Consistent(steps) && Ready({}, steps)
  }

  /** What a trace does to the nodes, whatever the order of its steps. */
  predicate NodesAfter(g: Graph, steps: seq<Step>, h: Graph) {
    && h.nodes.Keys == g.nodes.Keys + Written(steps)
    && (forall s :: s in steps && s.MergeSet? ==> h.nodes[s.node] == s.props)
    && (forall n :: n in h.nodes && (forall s :: s in steps && s.MergeSet? ==> s.node != n) ==>
          h.nodes[n] == if n in g.nodes then g.nodes[n] else NoProps)
  }

  lemma {:induction false} TraceNodes(g: Graph, trace: seq<Step>)
    requires Consistent(trace)
    ensures NodesAfter(g, trace, Run(g, trace))
    ensures g.edges <= Run(g, trace).edges <= g.edges + LinkEdges(trace)
  {
    if trace != [] {
      var n := |trace| - 1;
      TraceNodes(g, trace[..n]);
      Unsnoc(trace);
      OneMoreStep(trace[..n], trace[n], trace);
      var before := Run(g, trace[..n]);
      NodesAfterOne(g, trace[..n], before, trace[n], trace, Run(g, trace));
      EdgesAfterOne(before, trace[n], Run(g, trace));
    }
  }

  lemma {:induction false} OneMoreStep(steps: seq<Step>, s: Step, all: seq<Step>)
    requires all == steps + [s]
    ensures forall x :: x in all <==> x in steps || x == s
    ensures Written(all) == Written(steps) + if s.Link? then {} else {s.node}
  {
    assert all[|steps|] == s;
    assert forall x :: x in all <==> x in steps || x == s;
  }

  lemma {:induction false} NodesAfterOne(g: Graph, steps: seq<Step>, h: Graph, s: Step, all: seq<Step>, h': Graph)
    requires Consistent(all) && NodesAfter(g, steps, h) && h' == Apply(h, s)
    requires forall x :: x in all <==> x in steps || x == s
    requires Written(all) == Written(steps) + if s.Link? then {} else {s.node}
    ensures NodesAfter(g, all, h')
  {
    assert h'.nodes.Keys == h.nodes.Keys + if s.Link? then {} else {s.node};
    forall x | x in all && x.MergeSet? ensures x.node in h'.nodes && h'.nodes[x.node] == x.props {
      SetStays(g, steps, h, s, all, h', x);
    }
  }

  lemma {:induction false} SetStays(g: Graph, steps: seq<Step>, h: Graph, s: Step, all: seq<Step>, h': Graph, x: Step)
    requires Consistent(all) && NodesAfter(g, steps, h) && h' == Apply(h, s)
    requires forall y :: y in all <==> y in steps || y == s
    requires x in all && x.MergeSet?
    ensures x.node in h'.nodes && h'.nodes[x.node] == x.props
  {
    assert s in all;
    if x != s { assert x.node in Written(steps); }
  }

  lemma {:induction false} EdgesAfterOne(h: Graph, s: Step, h': Graph)
    requires h' == Apply(h, s)
    ensures h.edges <= h'.edges <= h.edges + if s.Link? then {Edge(s.from, s.relation, s.to)} else {}
  {
  }

  lemma {:induction false} TraceEdges(g: Graph, steps: seq<Step>, trace: seq<Step>)
    requires Embeds(steps, trace) && Ready({}, steps)
    ensures LinkEdges(steps) <= Run(g, trace).edges && Written(steps) <= Run(g, trace).nodes.Keys
    decreases |trace|
  {
    if steps != [] {
      var n, k := |trace| - 1, |steps| - 1;
      if Embeds(steps, trace[..n]) {
        TraceEdges(g, steps, trace[..n]);
      } else {
        TraceEdges(g, steps[..k], trace[..n]);
        assert steps == steps[..k] + [steps[k]];
      }
    }
  }

  /** However a repeatable sequence of queries was cut short, repeated and resumed, the graph
      ends as after one clean run. */
  lemma {:induction false} RetryIsHarmless(g: Graph, steps: seq<Step>, trace: seq<Step>)
    requires Repeatable(steps) && Covers(trace, steps)
    ensures Run(g, trace) == Run(g, steps)
  {
    forall s ensures s in trace <==> s in steps {
      if s in steps { EmbedsElements(steps, trace, s); }
    }
    assert Consistent(trace);
    TraceNodes(g, trace);
    TraceNodes(g, steps);
    TraceEdges(g, steps, trace);
    EmbedsItself(steps);
    TraceEdges(g, steps, steps);
    assert Written(trace) == Written(steps) && LinkEdges(trace) == LinkEdges(steps);
    SameNodes(g, steps, trace, Run(g, steps), Run(g, trace));
  }

  lemma {:induction false} SameNodes(g: Graph, steps: seq<Step>, trace: seq<Step>, h: Graph, h': Graph)
    requires forall s :: s in trace <==> s in steps
    requires NodesAfter(g, steps, h) && NodesAfter(g, trace, h')
    ensures h.nodes == h'.nodes
  {
    assert Written(trace) == Written(steps);
    forall n | n in h.nodes ensures h'.nodes[n] == h.nodes[n] {
      if s :| s in steps && s.MergeSet? && s.node == n {
        assert h.nodes[n] == s.props && h'.nodes[n] == s.props;
      }
    }
  }

  // ---------- Upserts are repeatable ----------

  lemma {:induction false} ReadyConcat(base: set<Node>, a: seq<Step>, b: seq<Step>)
    requires Ready(base, a) && Ready(base + Written(a), b)
    ensures Ready(base, a + b)
  {
    if b == [] {
      assert a + b == a;
    } else {
      var n := |b| - 1;
      ReadyConcat(base, a, b[..n]);
      assert (a + b)[..|a| + n] == a + b[..n];
      assert Written(a + b[..n]) == Written(a) + Written(b[..n]);
    }
  }

  lemma {:induction false} ReadyOne(base: set<Node>, s: Step)
    requires s.Link? ==> s.from in base && s.to in base
    ensures Ready(base, [s])
  {
    assert [s][..0] == [];
  }

  lemma {:induction false} LinkStepsReady(org: string, repo: string, path: string, base: set<Node>)
    requires {Repo(org, repo), Dir(org, repo, path)} <= base
    ensures Ready(base, LinkSteps(org, repo, path))
    decreases |path|, 0
  {
    var d := Dir(org, repo, path);
    if AtTop(path) {
      ReadyOne(base, Link(Repo(org, repo), ContainsDir, d));
    } else {
      ParentIsShorter(path);
      var steps := DirSteps(org, repo, ParentPath(path), PlainDir);
      var link := Link(Dir(org, repo, ParentPath(path)), ContainsDir, d);
      DirStepsReady(org, repo, ParentPath(path), PlainDir, base);
      ReadyOne(base + Written(steps), link);
      ReadyConcat(base, steps, [link]);
    }
  }

  lemma {:induction false} DirStepsReady(org: string, repo: string, path: string, props: Props, base: set<Node>)
    ensures Ready(base, DirSteps(org, repo, path, props))
    ensures Dir(org, repo, path) in Written(DirSteps(org, repo, path, props))
    decreases |path|, 1
  {
    var merge, mergeSet := Merge(Repo(org, repo)), MergeSet(Dir(org, repo, path), props);
    ReadyOne(base, merge);
    ReadyOne(base + Written([merge]), mergeSet);
    ReadyConcat(base, [merge], [mergeSet]);
    assert [merge] + [mergeSet] == [merge, mergeSet];
    assert merge in [merge, mergeSet] && mergeSet in [merge, mergeSet];
    LinkStepsReady(org, repo, path, base + Written([merge, mergeSet]));
    ReadyConcat(base, [merge, mergeSet], LinkSteps(org, repo, path));
    assert DirSteps(org, repo, path, props)[1] == mergeSet;
  }

  /** Linking sets only shorter directories, and only to their defaults. */
  predicate SetsPlainDirsBelow(steps: seq<Step>, length: nat) {
    forall s :: s in steps && s.MergeSet? ==> s.node.Dir? && s.props == PlainDir && |s.node.path| < length
  }

  lemma {:induction false} LinkStepsPlain(org: string, repo: string, path: string)
    ensures SetsPlainDirsBelow(LinkSteps(org, repo, path), |path|)
    decreases |path|
  {
    if !AtTop(path) {
      ParentIsShorter(path);
      LinkStepsPlain(org, repo, ParentPath(path));
    }
  }

  lemma {:induction false} DirStepsRepeatable(org: string, repo: string, path: string, props: Props)
    ensures Repeatable(DirSteps(org, repo, path, props))
  {
    DirStepsReady(org, repo, path, props, {});
    LinkStepsPlain(org, repo, path);
  }

  /** A leaf that `steps` does not set is set and linked after them. */
  lemma {:induction false} LeafRepeatable(steps: seq<Step>, leaf: Node, props: Props)
    requires Repeatable(steps) && Hangs(leaf) && Parent(leaf) in Written(steps)
    requires forall s :: s in steps && s.MergeSet? ==> s.node != leaf
    ensures var e := ParentEdge(leaf);
            var all := steps + [MergeSet(leaf, props), Link(e.from, e.relation, e.to)];
            Repeatable(all) && leaf in Written(all)
  {
    var e := ParentEdge(leaf);
    var mergeSet, link := MergeSet(leaf, props), Link(e.from, e.relation, e.to);
    var last := [mergeSet, link];
    ReadyOne({} + Written(steps), mergeSet);
    assert mergeSet in [mergeSet];
    ReadyOne({} + Written(steps) + Written([mergeSet]), link);
    ReadyConcat({} + Written(steps), [mergeSet], [link]);
    assert [mergeSet] + [link] == last;
    ReadyConcat({}, steps, last);
    assert (steps + last)[|steps|] == mergeSet;
  }

  lemma {:induction false} FileStepsRepeatable(org: string, repo: string, path: string, props: Props)
    ensures Repeatable(FileSteps(org, repo, path, props))
    ensures CodeGraph.Node.File(org, repo, path) in Written(FileSteps(org, repo, path, props))
    ensures forall s :: s in FileSteps(org, repo, path, props) && s.MergeSet? ==> s.node.Dir? || s.node.File?
  {
    var steps := DirSteps(org, repo, FileDirectory(path), PlainDir);
    DirectoryIsReady(org, repo, FileDirectory(path), steps);
    LeafRepeatable(steps, CodeGraph.Node.File(org, repo, path), props);
  }

  lemma {:induction false} DirectoryIsReady(org: string, repo: string, path: string, steps: seq<Step>)
    requires steps == DirSteps(org, repo, path, PlainDir)
    ensures Repeatable(steps) && Dir(org, repo, path) in Written(steps)
    ensures forall s :: s in steps && s.MergeSet? ==> s.node.Dir?
  {
    DirStepsRepeatable(org, repo, path, PlainDir);
    DirStepsReady(org, repo, path, PlainDir, {});
    LinkStepsPlain(org, repo, path);
  }

  lemma {:induction false} SymbolStepsRepeatable(org: string, repo: string, path: string, name: string,
                                                 signature: string, language: string, props: Props)
    ensures Repeatable(SymbolSteps(org, repo, path, name, signature, language, props))
  {
    var file := FileProps(language, "", 0, [], 0, "");
    FileStepsRepeatable(org, repo, path, file);
    LeafRepeatable(FileSteps(org, repo, path, file), Symbol(org, repo, path, name, signature), props);
  }

  predicate IsUpsert(op: Operation) {
    op.UpsertRepository? || op.UpsertDirectory? || op.UpsertFile? || op.UpsertSymbol?
  }

  function UpsertSteps(op: Operation): seq<Step>
    requires IsUpsert(op)
  {
    match op
    case UpsertRepository(org, repo) => [Merge(Repo(org, repo))]
    case UpsertDirectory(org, repo, path, props) => DirSteps(org, repo, path, props)
    case UpsertFile(org, repo, path, props) => FileSteps(org, repo, path, props)
    case UpsertSymbol(org, repo, path, name, signature, language, props) =>
      SymbolSteps(org, repo, path, name, signature, language, props)
  }

  /** An upsert that is retried, at any depth and any number of times, until it succeeds leaves
      the same graph as one clean call. */
  lemma {:induction false} UpsertSurvivesRetries(g: Graph, op: Operation, trace: seq<Step>)
    requires IsUpsert(op) && Covers(trace, UpsertSteps(op))
    ensures Run(g, trace) == Perform(g, op)
  {
    match op {
      case UpsertRepository(org, repo) => ReadyOne({}, Merge(Repo(org, repo)));
      case UpsertDirectory(org, repo, path, props) => DirStepsRepeatable(org, repo, path, props);
      case UpsertFile(org, repo, path, props) => FileStepsRepeatable(org, repo, path, props);
      case UpsertSymbol(org, repo, path, name, signature, language, props) =>
        SymbolStepsRepeatable(org, repo, path, name, signature, language, props);
    }
    RetryIsHarmless(g, UpsertSteps(op), trace);
  }

  /** In particular: an attempt that stopped anywhere, then the whole upsert. */
  lemma {:induction false} PartialThenWhole(g: Graph, op: Operation, done: nat)
    requires IsUpsert(op) && done <= |UpsertSteps(op)|
    ensures Perform(Run(g, UpsertSteps(op)[..done]), op) == Perform(g, op)
  {
    var steps := UpsertSteps(op);
    EmbedsItself(steps);
    CoversRetry(steps[..done], steps, steps);
    UpsertSurvivesRetries(g, op, steps[..done] + steps);
    RunConcat(g, steps[..done], steps);
  }
}
