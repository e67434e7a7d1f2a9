/** What an upsert leaves in the graph, read off the path: which directories, which edges, which
    properties. */
module GraphEffects {
  import opened Paths
  import opened CodeGraph

  /** The node is the directory `path` or a directory above it. */
  predicate OnTheWay(n: Node, org: string, repo: string, path: string) {
    n.Dir? && n.org == org && n.repo == repo && (n.path == path || Encloses(n.path, path))
  }

  /** Directory `path` hangs in the directory it lies in, or in the repository if it lies in none. */
  ghost predicate HangsIn(path: string, n: Node, org: string, repo: string) {
    || (n == Repo(org, repo) && forall i :: !StartsName(path, i))
    || (n.Dir? && n.org == org && n.repo == repo && Holds(n.path, path))
  }

  /** An edge to a directory on the way from where that directory hangs. */
  ghost predicate ChainEdge(e: Edge, org: string, repo: string, path: string) {
    e.relation == ContainsDir && OnTheWay(e.to, org, repo, path) && HangsIn(e.to.path, e.from, org, repo)
  }

  /** `after` has the repository, the directory with these properties, all directories above it
      with none, the edges between them, and beyond that what `before` has. */
  ghost predicate ChainAdded(before: Graph, after: Graph, org: string, repo: string, path: string, props: Props) {
    && (forall e :: e in after.edges <==> e in before.edges || ChainEdge(e, org, repo, path))
    && (forall n :: n in after.nodes <==> n in before.nodes || n == Repo(org, repo) || OnTheWay(n, org, repo, path))
    && (forall n :: n in after.nodes ==>
          after.nodes[n] == if n == Dir(org, repo, path) then props
                            else if OnTheWay(n, org, repo, path) then DirProps("", [], 0, 0)
                            else if n in before.nodes then before.nodes[n] else NoProps)
  }

  /** Upserting a directory adds the chain of directories down to it, and nothing else. */
  lemma {:induction false} DirectoryLeaves(g: Graph, org: string, repo: string, path: string, props: Props,
                                           after: Graph)
    requires after == Run(g, DirSteps(org, repo, path, props))
    ensures ChainAdded(g, after, org, repo, path, props)
    decreases |path|
  {
    var made := FirstSteps(g, org, repo, path, props);
    ParentPathIs(path);
    if AtTop(path) {
      RunOne(made, Link(Repo(org, repo), ContainsDir, Dir(org, repo, path)));
      TopLinked(g, made, org, repo, path, props, after);
    } else {
      ParentIsShorter(path);
      var parent := ParentPath(path);
      var steps := DirSteps(org, repo, parent, PlainDir);
      var link := Link(Dir(org, repo, parent), ContainsDir, Dir(org, repo, path));
      RunConcat(made, steps, [link]);
      RunOne(Run(made, steps), link);
      DirectoryLeaves(made, org, repo, parent, PlainDir, Run(made, steps));
      BelowLinked(g, made, Run(made, steps), org, repo, path, parent, props, after);
    }
  }

  /** The repository and the directory itself come first. */
  lemma {:induction false} FirstSteps(g: Graph, org: string, repo: string, path: string, props: Props)
    returns (made: Graph)
    ensures made == Apply(Apply(g, Merge(Repo(org, repo))), MergeSet(Dir(org, repo, path), props))
    ensures Run(g, DirSteps(org, repo, path, props)) == Run(made, LinkSteps(org, repo, path))
  {
    var x, y := Merge(Repo(org, repo)), MergeSet(Dir(org, repo, path), props);
    made := Apply(Apply(g, x), y);
    RunConcat(g, [x, y], LinkSteps(org, repo, path));
    assert [x, y] == [x] + [y];
    RunConcat(g, [x], [y]);
    RunOne(g, x);
    RunOne(Apply(g, x), y);
  }

  lemma {:induction false} TopLinked(g: Graph, made: Graph, org: string, repo: string, path: string, props: Props,
                                     after: Graph)
    requires made == Apply(Apply(g, Merge(Repo(org, repo))), MergeSet(Dir(org, repo, path), props))
    requires after == Apply(made, Link(Repo(org, repo), ContainsDir, Dir(org, repo, path)))
    requires forall i :: !StartsName(path, i)
    ensures ChainAdded(g, after, org, repo, path, props)
  {
  }

  lemma {:induction false} BelowLinked(g: Graph, made: Graph, linked: Graph, org: string, repo: string, path: string,
                                       parent: string, props: Props, after: Graph)
    requires made == Apply(Apply(g, Merge(Repo(org, repo))), MergeSet(Dir(org, repo, path), props))
    requires Holds(parent, path)
    requires ChainAdded(made, linked, org, repo, parent, PlainDir)
    requires after == Apply(linked, Link(Dir(org, repo, parent), ContainsDir, Dir(org, repo, path)))
    ensures ChainAdded(g, after, org, repo, path, props)
  {
    forall e ensures e in after.edges <==> e in g.edges || ChainEdge(e, org, repo, path) {
      ChainEdgeStep(e, org, repo, path, parent);
    }
    forall n
      ensures n in after.nodes <==> n in g.nodes || n == Repo(org, repo) || OnTheWay(n, org, repo, path)
      ensures n in after.nodes ==>
                after.nodes[n] == if n == Dir(org, repo, path) then props
                                  else if OnTheWay(n, org, repo, path) then DirProps("", [], 0, 0)
                                  else if n in g.nodes then g.nodes[n] else NoProps
    {
      OnTheWayStep(n, org, repo, path, parent);
    }
  }

  lemma {:induction false} OnTheWayStep(n: Node, org: string, repo: string, path: string, parent: string)
    requires Holds(parent, path)
    ensures OnTheWay(n, org, repo, path) <==> n == Dir(org, repo, path) || OnTheWay(n, org, repo, parent)
    ensures !OnTheWay(Dir(org, repo, path), org, repo, parent)
  {
    if n.Dir? { EnclosingStep(parent, path, n.path); }
  }

  lemma {:induction false} ChainEdgeStep(e: Edge, org: string, repo: string, path: string, parent: string)
    requires Holds(parent, path)
    ensures ChainEdge(e, org, repo, path)
       <==> ChainEdge(e, org, repo, parent) || e == Edge(Dir(org, repo, parent), ContainsDir, Dir(org, repo, path))
  {
    OnTheWayStep(e.to, org, repo, path, parent);
    if e.from.Dir? { EnclosingStep(parent, path, e.from.path); }
  }

  /** Upserting a file adds the chain down to the directory its path names, and then the file with
      its properties in that directory, and nothing else. */
  lemma {:induction false} FileLeaves(g: Graph, org: string, repo: string, path: string, dir: string, props: Props,
                                      after: Graph)
    returns (chained: Graph)
    requires after == Run(g, FileSteps(org, repo, path, props)) && IsDirectoryOf(dir, path)
    ensures ChainAdded(g, chained, org, repo, dir, DirProps("", [], 0, 0))
    ensures after.nodes == chained.nodes[File(org, repo, path) := props]
    ensures after.edges == chained.edges + {Edge(Dir(org, repo, dir), ContainsFile, File(org, repo, path))}
  {
    FileDirectoryIs(path, dir);
    var steps := DirSteps(org, repo, dir, PlainDir);
    chained := Run(g, steps);
    DirectoryLeaves(g, org, repo, dir, PlainDir, chained);
    var leaf := File(org, repo, path);
    LeafLeaves(g, steps, MergeSet(leaf, props), Link(Dir(org, repo, dir), ContainsFile, leaf));
  }

  lemma {:induction false} LeafLeaves(g: Graph, steps: seq<Step>, write: Step, link: Step)
    requires write.MergeSet? && link.Link? && link.to == write.node && link.from in Run(g, steps).nodes
    ensures var before, after := Run(g, steps), Run(g, steps + [write, link]);
            && after.nodes == before.nodes[write.node := write.props]
            && after.edges == before.edges + {Edge(link.from, link.relation, link.to)}
  {
    RunTwo(g, steps, write, link);
    RunOne(Run(g, steps), write);
    RunOne(Apply(Run(g, steps), write), link);
  }

  /** Upserting a symbol upserts its file with the language and nothing more, and then adds the
      symbol with its properties, defined by that file. */
  lemma {:induction false} SymbolLeaves(g: Graph, org: string, repo: string, path: string, dir: string, name: string,
                                        signature: string, language: string, props: Props, after: Graph)
    returns (chained: Graph)
    requires after == Run(g, SymbolSteps(org, repo, path, name, signature, language, props)) && IsDirectoryOf(dir, path)
    ensures ChainAdded(g, chained, org, repo, dir, DirProps("", [], 0, 0))
    ensures var file, symbol := File(org, repo, path), Symbol(org, repo, path, name, signature);
            && after.nodes == chained.nodes[file := FileProps(language, "", 0, [], 0, "")][symbol := props]
            && after.edges
               == chained.edges + {Edge(Dir(org, repo, dir), ContainsFile, file), Edge(file, Defines, symbol)}
  {
    var file, symbol := File(org, repo, path), Symbol(org, repo, path, name, signature);
    var fileProps := FileProps(language, "", 0, [], 0, "");
    var steps := FileSteps(org, repo, path, fileProps);
    chained := FileLeaves(g, org, repo, path, dir, fileProps, Run(g, steps));
    LeafLeaves(g, steps, MergeSet(symbol, props), Link(file, Defines, symbol));
  }
}
