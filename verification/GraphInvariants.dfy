/** What every run of the code graph's operations keeps: directories, files and symbols
    form a forest rooted at the repositories, and no edge leaves its repository. */
module GraphInvariants {
  import opened Paths
  import opened CodeGraph

  /** Directories, files and symbols hang below another node. */
  predicate Hangs(n: Node) {
    n.Dir? || n.File? || n.Symbol?
  }

  predicate Owned(n: Node, org: string, repo: string) {
    !n.Annotation? && n.org == org && n.repo == repo
  }

  function Parent(n: Node): Node
    requires Hangs(n)
  {
    match n
    case Dir(org, repo, path) => if AtTop(path) then Repo(org, repo) else Dir(org, repo, ParentPath(path))
    case File(org, repo, path) => Dir(org, repo, FileDirectory(path))
    case Symbol(org, repo, path, _, _) => CodeGraph.Node.File(org, repo, path)
  }

  function ParentEdge(n: Node): Edge
    requires Hangs(n)
  {
    Edge(Parent(n), if n.Dir? then ContainsDir else if n.File? then ContainsFile else Defines, n)
  }

  function Rank(n: Node): nat {
    match n
    case Dir(_, _, path) => |path| + 1
    case File(_, _, path) => |path| + 3
    case Symbol(_, _, path, _, _) => |path| + 4
    case _ => 0
  }

  lemma {:induction false} ParentRanksLower(n: Node)
    requires Hangs(n)
    ensures Rank(Parent(n)) < Rank(n)
    ensures !Parent(n).Annotation? && Owned(Parent(n), n.org, n.repo)
  {
    match n
    case Dir(_, _, path) => if !AtTop(path) { ParentIsShorter(path); }
    case File(_, _, path) => FileDirectoryLength(path);
    case Symbol(_, _, _, _, _) =>
  }

  lemma {:induction false} FileDirectoryLength(path: string)
    ensures |FileDirectory(path)| <= |path| + 1
  {
    var parts := Split(path, '/');
    JoinSplit(path, '/');
    if |parts| >= 2 { JoinLast(parts, '/'); }
  }

  /** What an edge of each relation may join. */
  predicate WellFormed(e: Edge) {
    match e.relation
    case Annotates => e.from.Annotation? && (e.to.Symbol? || e.to.File?)
    case ContainsDir => e.to.Dir? && e == ParentEdge(e.to)
    case ContainsFile => e.to.File? && e == ParentEdge(e.to)
    case Defines => e.to.Symbol? && e == ParentEdge(e.to)
    case Imports => e.from.File? && e.to.File? && Owned(e.to, e.from.org, e.from.repo)
    case _ => e.from.Symbol? && e.to.Symbol? && Owned(e.to, e.from.org, e.from.repo)
  }

  predicate Linked(g: Graph) {
    forall e :: e in g.edges ==> e.from in g.nodes && e.to in g.nodes && WellFormed(e)
  }

  /** Every node that hangs is linked to its parent, but for those in `loose`. */
  predicate Attached(g: Graph, loose: set<Node>) {
    forall n :: n in g.nodes && Hangs(n) && n !in loose ==> ParentEdge(n) in g.edges
  }

  predicate Sound(g: Graph) {
    Linked(g) && Attached(g, {})
  }

  // ---------- Upserts ----------

  lemma {:induction false} LinkAttaches(g: Graph, d: Node, loose: set<Node>, after: Graph)
    requires Linked(g) && Attached(g, loose) && d.Dir? && d in g.nodes && Parent(d) in g.nodes
    requires after == Run(g, [Link(Parent(d), ContainsDir, d)])
    ensures Linked(after) && Attached(after, loose - {d}) && after.nodes == g.nodes
  {
    RunOne(g, Link(Parent(d), ContainsDir, d));
    assert after.edges == g.edges + {ParentEdge(d)};
  }

  lemma {:induction false} LinkStepsAttach(g: Graph, org: string, repo: string, path: string, loose: set<Node>)
    requires Linked(g) && Attached(g, loose)
    requires Repo(org, repo) in g.nodes && Dir(org, repo, path) in g.nodes
    ensures var g' := Run(g, LinkSteps(org, repo, path));
            Linked(g') && Attached(g', loose - {Dir(org, repo, path)}) && g.nodes.Keys <= g'.nodes.Keys
    decreases |path|, 0
  {
    var d := Dir(org, repo, path);
    if AtTop(path) {
      LinkAttaches(g, d, loose, Run(g, LinkSteps(org, repo, path)));
    } else {
      ParentIsShorter(path);
      DirStepsAttach(g, org, repo, ParentPath(path), PlainDir, loose);
      var steps := DirSteps(org, repo, ParentPath(path), PlainDir);
      RunConcat(g, steps, [Link(Parent(d), ContainsDir, d)]);
      LinkAttaches(Run(g, steps), d, loose - {Parent(d)}, Run(g, LinkSteps(org, repo, path)));
    }
  }

  lemma {:induction false} DirStepsAttach(g: Graph, org: string, repo: string, path: string, props: Props,
                                          loose: set<Node>)
    requires Linked(g) && Attached(g, loose)
    ensures var g' := Run(g, DirSteps(org, repo, path, props));
            Linked(g') && Attached(g', loose - {Dir(org, repo, path)})
            && g.nodes.Keys + {Repo(org, repo), Dir(org, repo, path)} <= g'.nodes.Keys
    decreases |path|, 1
  {
    var d := Dir(org, repo, path);
    var merge, mergeSet := Merge(Repo(org, repo)), MergeSet(d, props);
    RunTwo(g, [], merge, mergeSet);
    assert [] + [merge, mergeSet] == [merge, mergeSet];
    RunOne(g, merge);
    RunOne(Run(g, [merge]), mergeSet);
    var g2 := Run(g, [merge, mergeSet]);
    assert Attached(g2, loose + {d});
    LinkStepsAttach(g2, org, repo, path, loose + {d});
    RunConcat(g, [merge, mergeSet], LinkSteps(org, repo, path));
    assert loose + {d} - {d} == loose - {d};
  }

  /** Setting a node and linking it to its parent ends with it attached. */
  lemma {:induction false} LeafAttaches(g: Graph, leaf: Node, props: Props)
    requires Hangs(leaf) && Linked(g) && Attached(g, {}) && Parent(leaf) in g.nodes
    ensures var e := ParentEdge(leaf);
            Sound(Run(Run(g, [MergeSet(leaf, props)]), [Link(e.from, e.relation, e.to)]))
    ensures var e := ParentEdge(leaf);
            leaf in Run(Run(g, [MergeSet(leaf, props)]), [Link(e.from, e.relation, e.to)]).nodes
  {
    var e := ParentEdge(leaf);
    RunOne(g, MergeSet(leaf, props));
    var g1 := Apply(g, MergeSet(leaf, props));
    assert Linked(g1) && Attached(g1, {leaf});
    RunOne(g1, Link(e.from, e.relation, e.to));
    var g2 := g1.(edges := g1.edges + {e});
    assert e == Edge(e.from, e.relation, e.to);
    assert Linked(g2) && Attached(g2, {});
  }

  lemma {:induction false} FileStepsAttach(g: Graph, org: string, repo: string, path: string, props: Props)
    requires Sound(g)
    ensures var g' := Run(g, FileSteps(org, repo, path, props));
            Sound(g') && CodeGraph.Node.File(org, repo, path) in g'.nodes
  {
    var f := CodeGraph.Node.File(org, repo, path);
    var steps := DirSteps(org, repo, FileDirectory(path), PlainDir);
    DirStepsAttach(g, org, repo, FileDirectory(path), PlainDir, {});
    assert {} - {Parent(f)} == {};
    LeafAttaches(Run(g, steps), f, props);
    RunTwo(g, steps, MergeSet(f, props), Link(Parent(f), ContainsFile, f));
  }

  lemma {:induction false} SymbolStepsAttach(g: Graph, org: string, repo: string, path: string, name: string,
                                             signature: string, language: string, props: Props)
    requires Sound(g)
    ensures Sound(Run(g, SymbolSteps(org, repo, path, name, signature, language, props)))
  {
    var s := Symbol(org, repo, path, name, signature);
    var file := FileProps(language, "", 0, [], 0, "");
    var steps := FileSteps(org, repo, path, file);
    FileStepsAttach(g, org, repo, path, file);
    LeafAttaches(Run(g, steps), s, props);
    RunTwo(g, steps, MergeSet(s, props), Link(Parent(s), Defines, s));
  }

  // ---------- Runs ----------

  datatype Operation =
    | UpsertRepository(org: string, repo: string)
    | UpsertDirectory(org: string, repo: string, path: string, props: Props)
    | UpsertFile(org: string, repo: string, path: string, props: Props)
    | UpsertSymbol(org: string, repo: string, path: string, name: string, signature: string, language: string,
                   props: Props)
    | AddSymbolEdge(relation: Relation, org: string, repo: string, name: string, path: string, target: string,
                    targetPath: string)
    | AddImportsEdge(org: string, repo: string, path: string, targetPath: string)
    | CreateAnnotation(id: nat, props: Props, org: string, repo: string, path: string, name: string)
    | DeleteRepository(org: string, repo: string)

  /** The graph after one call, as `CodeGraphClient` leaves it. */
  function Perform(g: Graph, op: Operation): Graph {
    match op
    case UpsertRepository(org, repo) => Run(g, [Merge(Repo(org, repo))])
    case UpsertDirectory(org, repo, path, props) => Run(g, DirSteps(org, repo, path, props))
    case UpsertFile(org, repo, path, props) => Run(g, FileSteps(org, repo, path, props))
    case UpsertSymbol(org, repo, path, name, signature, language, props) =>
      Run(g, SymbolSteps(org, repo, path, name, signature, language, props))
    case AddSymbolEdge(relation, org, repo, name, path, target, targetPath) =>
      if relation !in {Calls, Inherits, Implements} then g
      else LinkAll(g, SymbolsNamed(g, org, repo, name, path), relation, SymbolsNamed(g, org, repo, target, targetPath))
    case AddImportsEdge(org, repo, path, targetPath) =>
      LinkAll(g, FilesAt(g, org, repo, path), Imports, FilesAt(g, org, repo, targetPath))
    case CreateAnnotation(id, props, org, repo, path, name) => Annotate(g, id, props, org, repo, path, name)
    case DeleteRepository(org, repo) => Delete(g, org, repo)
  }

  function PerformAll(ops: seq<Operation>): Graph {
    if ops == [] then Empty else Perform(PerformAll(ops[..|ops| - 1]), ops[|ops| - 1])
  }

  /** Every graph the operations can build is sound. */
  lemma {:induction false} EveryGraphIsSound(ops: seq<Operation>)
    ensures Sound(PerformAll(ops))
  {
    if ops != [] {
      EveryGraphIsSound(ops[..|ops| - 1]);
      PerformKeepsSound(PerformAll(ops[..|ops| - 1]), ops[|ops| - 1]);
    }
  }

  lemma {:induction false} PerformKeepsSound(g: Graph, op: Operation)
    requires Sound(g)
    ensures Sound(Perform(g, op))
  {
    match op
    case UpsertRepository(org, repo) => RunOne(g, Merge(Repo(org, repo)));
    case UpsertDirectory(org, repo, path, props) =>
      DirStepsAttach(g, org, repo, path, props, {});
      assert {} - {Dir(org, repo, path)} == {};
    case UpsertFile(org, repo, path, props) => FileStepsAttach(g, org, repo, path, props);
    case UpsertSymbol(org, repo, path, name, signature, language, props) =>
      SymbolStepsAttach(g, org, repo, path, name, signature, language, props);
    case AddSymbolEdge(relation, org, repo, name, path, target, targetPath) =>
      if relation in {Calls, Inherits, Implements} {
        RelateKeepsSound(g, relation, org, repo, name, path, target, targetPath);
      }
    case AddImportsEdge(org, repo, path, targetPath) =>
      ImportKeepsSound(g, org, repo, path, targetPath);
    case CreateAnnotation(id, props, org, repo, path, name) => AnnotateKeepsSound(g, id, props, org, repo, path, name);
    case DeleteRepository(org, repo) => DeleteKeepsSound(g, org, repo);
  }

  lemma {:induction false} LinkAllKeepsSound(g: Graph, sources: set<Node>, relation: Relation, targets: set<Node>)
    requires Sound(g) && sources <= g.nodes.Keys && targets <= g.nodes.Keys
    requires forall a, b :: a in sources && b in targets ==> WellFormed(Edge(a, relation, b))
    ensures Sound(LinkAll(g, sources, relation, targets))
  {
    assert Linked(LinkAll(g, sources, relation, targets));
  }

  lemma {:induction false} RelateKeepsSound(g: Graph, relation: Relation, org: string, repo: string, name: string,
                                            path: string, target: string, targetPath: string)
    requires Sound(g) && relation in {Calls, Inherits, Implements}
    ensures Sound(LinkAll(g, SymbolsNamed(g, org, repo, name, path), relation,
                          SymbolsNamed(g, org, repo, target, targetPath)))
  {
    LinkAllKeepsSound(g, SymbolsNamed(g, org, repo, name, path), relation,
                      SymbolsNamed(g, org, repo, target, targetPath));
  }

  lemma {:induction false} ImportKeepsSound(g: Graph, org: string, repo: string, path: string, targetPath: string)
    requires Sound(g)
    ensures Sound(LinkAll(g, FilesAt(g, org, repo, path), Imports, FilesAt(g, org, repo, targetPath)))
  {
    FilesKeepSound(g, org, repo, FilesAt(g, org, repo, path), FilesAt(g, org, repo, targetPath));
  }

  lemma {:induction false} FilesKeepSound(g: Graph, org: string, repo: string, sources: set<Node>, targets: set<Node>)
    requires Sound(g) && sources <= g.nodes.Keys && targets <= g.nodes.Keys
    requires forall n :: n in sources || n in targets ==> n.File? && Owned(n, org, repo)
    ensures Sound(LinkAll(g, sources, Imports, targets))
  {
    forall a, b | a in sources && b in targets ensures WellFormed(Edge(a, Imports, b)) {
      assert a.File? && b.File?;
    }
    LinkAllKeepsSound(g, sources, Imports, targets);
  }

  lemma {:induction false} AnnotationKeepsSound(g: Graph, id: nat, props: Props)
    requires Sound(g)
    ensures Sound(g.(nodes := g.nodes[Annotation(id) := props]))
  {
  }

  lemma {:induction false} AnnotatesKeepsSound(g: Graph, id: nat, targets: set<Node>)
    requires Sound(g) && Annotation(id) in g.nodes && targets <= g.nodes.Keys
    requires forall n :: n in targets ==> n.Symbol? || n.File?
    ensures Sound(LinkAll(g, {Annotation(id)}, Annotates, targets))
  {
    var sources := {Annotation(id)};
    forall a, b | a in sources && b in targets ensures WellFormed(Edge(a, Annotates, b)) {
      assert a == Annotation(id);
    }
    LinkAllKeepsSound(g, sources, Annotates, targets);
  }

  lemma {:induction false} AnnotateKeepsSound(g: Graph, id: nat, props: Props, org: string, repo: string,
                                              path: string, name: string)
    requires Sound(g)
    ensures Sound(Annotate(g, id, props, org, repo, path, name))
  {
    var g1 := g.(nodes := g.nodes[Annotation(id) := props]);
    AnnotationKeepsSound(g, id, props);
    AnnotatesKeepsSound(g1, id, SymbolsNamed(g1, org, repo, name, path));
    AnnotatesKeepsSound(g1, id, FilesAt(g1, org, repo, path));
  }

  // ---------- Deletion ----------

  lemma {:induction false} ClosureIsClosed(edges: set<Edge>, reached: set<Node>)
    ensures reached <= Closure(edges, reached)
    ensures Successors(edges, Closure(edges, reached)) <= Closure(edges, reached)
    decreases |Targets(edges) - reached|
  {
    var next := reached + Successors(edges, reached);
    if next != reached {
      GrowingReach(edges, reached);
      ClosureIsClosed(edges, next);
    }
  }

  lemma {:induction false} GrowingReach(edges: set<Edge>, reached: set<Node>)
    ensures var next := reached + Successors(edges, reached);
            next != reached ==> |Targets(edges) - next| < |Targets(edges) - reached|
  {
    var next := reached + Successors(edges, reached);
    if next != reached {
      var n :| n in Successors(edges, reached) && n !in reached;
      assert n in Targets(edges) - reached && n !in Targets(edges) - next;
      SmallerSet(Targets(edges) - next, Targets(edges) - reached);
    }
  }

  predicate Joined(edges: set<Edge>, a: Node, b: Node) {
    exists e :: e in edges && e.from == a && e.to == b
  }

  /** `path` follows edges from its first node to its last. */
  predicate IsPath(edges: set<Edge>, path: seq<Node>) {
    var n := |path| - 1;
    n > 0 ==> IsPath(edges, path[..n]) && Joined(edges, path[n - 1], path[n])
  }

  predicate Leads(edges: set<Edge>, from: Node, path: seq<Node>, to: Node) {
    |path| >= 2 && path[0] == from && path[|path| - 1] == to && IsPath(edges, path)
  }

  /** The descendants of a node are exactly the nodes some nonempty path of edges leads to. */
  lemma {:induction false} DescendantsArePathEnds(edges: set<Edge>, root: Node, n: Node)
    ensures n in Descendants(edges, root) <==> exists path :: Leads(edges, root, path, n)
  {
    var start := Successors(edges, {root});
    if n in Descendants(edges, root) {
      forall m | m in start ensures exists path :: Leads(edges, root, path, m) {
        assert Joined(edges, root, m);
        assert Leads(edges, root, [root, m], m);
      }
      ReachedByPath(edges, root, start, n);
    }
    if path :| Leads(edges, root, path, n) {
      PathStaysInside(edges, root, path);
    }
  }

  lemma {:induction false} ReachedByPath(edges: set<Edge>, root: Node, reached: set<Node>, n: Node)
    requires forall m :: m in reached ==> exists path :: Leads(edges, root, path, m)
    requires n in Closure(edges, reached)
    ensures exists path :: Leads(edges, root, path, n)
    decreases |Targets(edges) - reached|
  {
    var next := reached + Successors(edges, reached);
    if next != reached {
      GrowingReach(edges, reached);
      forall m | m in Successors(edges, reached) ensures exists path :: Leads(edges, root, path, m) {
        var e :| e in edges && e.from in reached && e.to == m;
        var path :| Leads(edges, root, path, e.from);
        LeadsOn(edges, root, path, e);
      }
      ReachedByPath(edges, root, next, n);
    }
  }

  lemma {:induction false} LeadsOn(edges: set<Edge>, root: Node, path: seq<Node>, e: Edge)
    requires Leads(edges, root, path, e.from) && e in edges
    ensures Leads(edges, root, path + [e.to], e.to)
  {
    assert (path + [e.to])[..|path|] == path;
    assert Joined(edges, e.from, e.to);
  }

  lemma {:induction false} PathStaysInside(edges: set<Edge>, root: Node, path: seq<Node>)
    requires |path| >= 2 && path[0] == root && IsPath(edges, path)
    ensures path[|path| - 1] in Descendants(edges, root)
  {
    ClosureIsClosed(edges, Successors(edges, {root}));
    var n := |path| - 1;
    if n > 1 {
      PathStaysInside(edges, root, path[..n]);
    }
    var e :| e in edges && e.from == path[n - 1] && e.to == path[n];
  }

  /** Edges stay inside a repository, so no path leaves it. */
  lemma {:induction false} PathStaysInRepository(g: Graph, path: seq<Node>, org: string, repo: string)
    requires Linked(g) && path != [] && IsPath(g.edges, path) && Owned(path[0], org, repo)
    ensures Owned(path[|path| - 1], org, repo)
  {
    var n := |path| - 1;
    if n > 0 {
      PathStaysInRepository(g, path[..n], org, repo);
      var e :| e in g.edges && e.from == path[n - 1] && e.to == path[n];
      if Hangs(e.to) { ParentRanksLower(e.to); }
    }
  }

  /** The containment path from the repository down to a node. */
  function RootPath(n: Node): (path: seq<Node>)
    ensures path != [] && path[|path| - 1] == n
    decreases Rank(n)
  {
    if Hangs(n) then ParentRanksLower(n); RootPath(Parent(n)) + [n] else [n]
  }

  /** Each node after the first hangs from the one before it, by an edge of the graph. */
  predicate Chain(g: Graph, path: seq<Node>) {
    forall i :: 0 < i < |path| ==>
      Hangs(path[i]) && path[i - 1] == Parent(path[i]) && ParentEdge(path[i]) in g.edges
  }

  lemma {:induction false} ChainGrows(g: Graph, path: seq<Node>, n: Node)
    requires Chain(g, path) && path != [] && Hangs(n) && path[|path| - 1] == Parent(n) && ParentEdge(n) in g.edges
    ensures Chain(g, path + [n])
  {
  }

  /** In a sound graph every node that hangs is contained, step by step, in its repository. */
  lemma {:induction false} RootedAtRepository(g: Graph, n: Node)
    requires Sound(g) && n in g.nodes && !n.Annotation?
    ensures RootPath(n)[0] == Repo(n.org, n.repo)
    ensures Chain(g, RootPath(n))
    ensures forall m :: m in RootPath(n) ==> m in g.nodes
    decreases Rank(n)
  {
    if Hangs(n) {
      ParentRanksLower(n);
      assert ParentEdge(n) in g.edges;
      RootedAtRepository(g, Parent(n));
      ChainGrows(g, RootPath(Parent(n)), n);
    }
  }

  lemma {:induction false} ChainIsPath(g: Graph, path: seq<Node>)
    requires Chain(g, path)
    ensures IsPath(g.edges, path)
  {
    var n := |path| - 1;
    if n > 0 {
      ChainIsPath(g, path[..n]);
      assert ParentEdge(path[n]) in g.edges;
    }
  }

  lemma {:induction false} OwnedIsDescendant(g: Graph, n: Node)
    requires Sound(g) && n in g.nodes && Hangs(n)
    ensures Repo(n.org, n.repo) in g.nodes && n in Descendants(g.edges, Repo(n.org, n.repo))
  {
    RootedAtRepository(g, n);
    var path := RootPath(n);
    assert path[0] in path;
    ChainIsPath(g, path);
    assert Leads(g.edges, Repo(n.org, n.repo), path, n);
    DescendantsArePathEnds(g.edges, Repo(n.org, n.repo), n);
  }

  lemma {:induction false} DescendantIsOwned(g: Graph, org: string, repo: string, n: Node)
    requires Linked(g) && n in Descendants(g.edges, Repo(org, repo))
    ensures Owned(n, org, repo)
  {
    DescendantsArePathEnds(g.edges, Repo(org, repo), n);
    var path :| Leads(g.edges, Repo(org, repo), path, n);
    PathStaysInRepository(g, path, org, repo);
  }

  /** Deleting a repository removes its node and everything that belongs to it, with their
      edges, and nothing else: no annotation and no node of another repository. */
  lemma {:induction false} DeleteIsExact(g: Graph, org: string, repo: string)
    requires Sound(g)
    ensures Delete(g, org, repo)
         == Graph(map n | n in g.nodes && !Owned(n, org, repo) :: g.nodes[n],
                  set e | e in g.edges && !Owned(e.from, org, repo) && !Owned(e.to, org, repo))
  {
    var root := Repo(org, repo);
    forall n | n in g.nodes && Owned(n, org, repo)
      ensures root in g.nodes && (n == root || n in Descendants(g.edges, root))
    {
      if Hangs(n) { OwnedIsDescendant(g, n); }
    }
    forall n | n in Descendants(g.edges, root) ensures Owned(n, org, repo) {
      DescendantIsOwned(g, org, repo, n);
    }
    if root !in g.nodes {
      assert forall n :: n in g.nodes ==> !Owned(n, org, repo);
    }
  }

  /** Deletion never reaches outside the repository, even where a crash left nodes unlinked. */
  lemma {:induction false} DeleteSparesOthers(g: Graph, org: string, repo: string, n: Node)
    requires Linked(g) && n in g.nodes && !Owned(n, org, repo)
    ensures n in Delete(g, org, repo).nodes && Delete(g, org, repo).nodes[n] == g.nodes[n]
  {
    if n in Descendants(g.edges, Repo(org, repo)) {
      DescendantIsOwned(g, org, repo, n);
    }
  }

  lemma {:induction false} DeleteKeepsSound(g: Graph, org: string, repo: string)
    requires Sound(g)
    ensures Sound(Delete(g, org, repo))
  {
    DeleteIsExact(g, org, repo);
    var g' := Delete(g, org, repo);
    forall n | n in g'.nodes && Hangs(n) ensures ParentEdge(n) in g'.edges {
      ParentRanksLower(n);
      assert ParentEdge(n) in g.edges;
    }
  }

  // ---------- Forest ----------

  /** A directory, file or symbol has exactly one containing edge. */
  lemma {:induction false} OneParent(g: Graph, n: Node)
    requires Sound(g) && n in g.nodes && Hangs(n)
    ensures (set e | e in g.edges && e.to == n && e.relation in {ContainsDir, ContainsFile, Defines}) == {ParentEdge(n)}
  {
    assert ParentEdge(n) in g.edges;
  }

  /** Containment edges only: what the directory tree is made of. */
  function Containment(g: Graph): set<Edge> {
    set e | e in g.edges && e.relation in {ContainsDir, ContainsFile, Defines}
  }

  /** Containment has no cycles. */
  lemma {:induction false} NoContainmentCycle(g: Graph, path: seq<Node>)
    requires Linked(g) && IsPath(Containment(g), path) && |path| >= 2
    ensures Rank(path[0]) < Rank(path[|path| - 1]) && path[0] != path[|path| - 1]
  {
    var n := |path| - 1;
    if n > 1 { NoContainmentCycle(g, path[..n]); }
    var e :| e in Containment(g) && e.from == path[n - 1] && e.to == path[n];
    ParentRanksLower(e.to);
  }
}
