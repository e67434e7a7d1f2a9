/** The code knowledge graph: Repository, Directory, File and Symbol nodes, annotations,
    and the queries that change them. */
module CodeGraph {
  import opened Paths

  datatype Node =
    | Repo(org: string, repo: string)
    | Dir(org: string, repo: string, path: string)
    | File(org: string, repo: string, path: string)
    | Symbol(org: string, repo: string, path: string, name: string, signature: string)
    | Annotation(id: nat)

  datatype Props =
    | NoProps
    | DirProps(summary: string, languages: seq<string>, fileCount: int, totalSymbols: int)
    | FileProps(language: string, summary: string, symbolCount: int, symbolNames: seq<string>, totalLines: int,
                commit: string)
    | SymbolProps(attributes: map<string, string>)
    | AnnotationProps(content: string, status: string)

  datatype Relation = ContainsDir | ContainsFile | Defines | Calls | Imports | Inherits | Implements | Annotates

  datatype Edge = Edge(from: Node, relation: Relation, to: Node)

  datatype Graph = Graph(nodes: map<Node, Props>, edges: set<Edge>)

  const Empty := Graph(map[], {})
  const PlainDir := DirProps("", [], 0, 0)

  /** One query of an upsert; each is committed on its own. */
  datatype Step =
    | Merge(node: Node)
    | MergeSet(node: Node, props: Props)
    | Link(from: Node, relation: Relation, to: Node)

  function Apply(g: Graph, s: Step): Graph {
    match s
    case Merge(n) => if n in g.nodes then g else g.(nodes := g.nodes[n := NoProps])
    case MergeSet(n, props) => g.(nodes := g.nodes[n := props])
    case Link(from, relation, to) =>
      if from in g.nodes && to in g.nodes then g.(edges := g.edges + {Edge(from, relation, to)}) else g
  }

  function Run(g: Graph, steps: seq<Step>): Graph {
    if steps == [] then g else Apply(Run(g, steps[..|steps| - 1]), steps[|steps| - 1])
  }

  lemma {:induction false} RunConcat(g: Graph, first: seq<Step>, second: seq<Step>)
    ensures Run(g, first + second) == Run(Run(g, first), second)
  {
    if second == [] {
      assert first + second == first;
    } else {
      var n := |second| - 1;
      assert (first + second)[..|first| + n] == first + second[..n];
      RunConcat(g, first, second[..n]);
    }
  }

  lemma {:induction false} RunOne(g: Graph, s: Step)
    ensures Run(g, [s]) == Apply(g, s)
  {
    assert [s][..0] == [];
  }

  // ---------- The steps of an upsert ----------

  function DirSteps(org: string, repo: string, path: string, props: Props): seq<Step>
    decreases |path|, 1
  {
    [Merge(Repo(org, repo)), MergeSet(Dir(org, repo, path), props)] + LinkSteps(org, repo, path)
  }

  function LinkSteps(org: string, repo: string, path: string): seq<Step>
    decreases |path|, 0
  {
    if AtTop(path) then [Link(Repo(org, repo), ContainsDir, Dir(org, repo, path))]
    else
      ParentIsShorter(path);
      DirSteps(org, repo, ParentPath(path), PlainDir)
      + [Link(Dir(org, repo, ParentPath(path)), ContainsDir, Dir(org, repo, path))]
  }

  function FileSteps(org: string, repo: string, path: string, props: Props): seq<Step> {
    DirSteps(org, repo, FileDirectory(path), PlainDir)
    + [MergeSet(File(org, repo, path), props),
       Link(Dir(org, repo, FileDirectory(path)), ContainsFile, File(org, repo, path))]
  }

  function SymbolSteps(org: string, repo: string, path: string, name: string, signature: string, language: string,
                       props: Props): seq<Step> {
    FileSteps(org, repo, path, FileProps(language, "", 0, [], 0, ""))
    + [MergeSet(Symbol(org, repo, path, name, signature), props),
       Link(File(org, repo, path), Defines, Symbol(org, repo, path, name, signature))]
  }

  // ---------- Other queries ----------

  predicate IsSymbol(n: Node, org: string, repo: string, name: string, path: string) {
    n.Symbol? && n.org == org && n.repo == repo && n.name == name && n.path == path
  }

  /** The symbols a query by name and file matches, whatever their signature. */
  function SymbolsNamed(g: Graph, org: string, repo: string, name: string, path: string): set<Node> {
    set n | n in g.nodes && IsSymbol(n, org, repo, name, path)
  }

  function FilesAt(g: Graph, org: string, repo: string, path: string): set<Node> {
    set n | n in g.nodes && n == File(org, repo, path)
  }

  function LinkAll(g: Graph, sources: set<Node>, relation: Relation, targets: set<Node>): Graph {
    g.(edges := g.edges + (set a, b | a in sources && b in targets :: Edge(a, relation, b)))
  }

  function Successors(edges: set<Edge>, from: set<Node>): set<Node> {
    set e | e in edges && e.from in from :: e.to
  }

  function Targets(edges: set<Edge>): set<Node> {
    set e | e in edges :: e.to
  }

  /** All nodes reached from `reached` by following edges. */
  function Closure(edges: set<Edge>, reached: set<Node>): set<Node>
    decreases |Targets(edges) - reached|
  {
    var next := reached + Successors(edges, reached);
    if next == reached then reached
    else
      (assert Successors(edges, reached) <= Targets(edges);
       assert Targets(edges) - next < Targets(edges) - reached by {
         var n :| n in Successors(edges, reached) && n !in reached;
         assert n in Targets(edges) - reached && n !in Targets(edges) - next;
       }
       SmallerSet(Targets(edges) - next, Targets(edges) - reached);
       Closure(edges, next))
  }

  lemma {:induction false} SmallerSet(a: set<Node>, b: set<Node>)
    requires a < b
    ensures |a| < |b|
  {
    var n :| n in b && n !in a;
    SubsetSize(a, b - {n});
  }

  lemma {:induction false} SubsetSize(a: set<Node>, b: set<Node>)
    requires a <= b
    ensures |a| <= |b|
  {
    if a != {} {
      var n :| n in a;
      SubsetSize(a - {n}, b - {n});
    }
  }

  /** `(r)-[*]->(n)`: what a path of one or more edges from `node` leads to. */
  function Descendants(edges: set<Edge>, node: Node): set<Node> {
    Closure(edges, Successors(edges, {node}))
  }

  /** `DETACH DELETE`: the nodes go, and every edge at one of them. */
  function Remove(g: Graph, doomed: set<Node>): Graph {
    Graph(g.nodes - doomed, set e | e in g.edges && e.from !in doomed && e.to !in doomed)
  }

  function Delete(g: Graph, org: string, repo: string): Graph {
    var root := Repo(org, repo);
    if root !in g.nodes then g else Remove(g, {root} + Descendants(g.edges, root))
  }

  // ---------- The client ----------

  class CodeGraphClient {
    var nodes: map<Node, Props>
    var edges: set<Edge>

    constructor ()
      ensures Stored() == Empty
    {
      nodes, edges := map[], {};
    }

    function Stored(): Graph
      reads this
    {
      Graph(nodes, edges)
    }

    /** Send one query to the database. */
    method Query(s: Step)
      modifies this
      ensures Stored() == Run(old(Stored()), [s])
    {
      RunOne(Stored(), s);
      match s {
        case Merge(n) =>
          if n !in nodes {
            nodes := nodes[n := NoProps];
          }
        case MergeSet(n, props) => nodes := nodes[n := props];
        case Link(from, relation, to) =>
          if from in nodes && to in nodes {
            edges := edges + {Edge(from, relation, to)};
          }
      }
    }

    method UpsertRepository(org: string, repo: string)
      modifies this
      ensures Stored() == Run(old(Stored()), [Merge(Repo(org, repo))])
    {
      Query(Merge(Repo(org, repo)));
    }

    method UpsertDirectory(org: string, repo: string, path: string, props: Props)
      modifies this
      ensures Stored() == Run(old(Stored()), DirSteps(org, repo, path, props))
      decreases |path|, 1
    {
      ghost var g := Stored();
      var first, second := Merge(Repo(org, repo)), MergeSet(Dir(org, repo, path), props);
      UpsertRepository(org, repo);
      Query(second);
      LinkDirectoryToParent(org, repo, path);
      RunConcat(g, [first], [second]);
      assert [first] + [second] == [first, second];
      RunConcat(g, [first, second], LinkSteps(org, repo, path));
    }

    method LinkDirectoryToParent(org: string, repo: string, path: string)
      modifies this
      ensures Stored() == Run(old(Stored()), LinkSteps(org, repo, path))
      decreases |path|, 0
    {
      ghost var g := Stored();
      var parts := Split(RStripSlash(path), '/');
      if |parts| <= 1 {
        Query(Link(Repo(org, repo), ContainsDir, Dir(org, repo, path)));
      } else {
        var parent := Join(parts[..|parts| - 1], '/') + "/";
        ParentIsShorter(path);
        UpsertDirectory(org, repo, parent, PlainDir);
        Query(Link(Dir(org, repo, parent), ContainsDir, Dir(org, repo, path)));
        RunConcat(g, DirSteps(org, repo, parent, PlainDir),
                  [Link(Dir(org, repo, parent), ContainsDir, Dir(org, repo, path))]);
      }
    }

    method UpsertFile(org: string, repo: string, path: string, props: Props)
      modifies this
      ensures Stored() == Run(old(Stored()), FileSteps(org, repo, path, props))
    {
      ghost var g := Stored();
      var dir := FileDirectory(path);
      UpsertDirectory(org, repo, dir, PlainDir);
      var merge := MergeSet(File(org, repo, path), props);
      var link := Link(Dir(org, repo, dir), ContainsFile, File(org, repo, path));
      Query(merge);
      Query(link);
      RunTwo(g, DirSteps(org, repo, dir, PlainDir), merge, link);
    }

    method UpsertSymbol(org: string, repo: string, path: string, name: string, signature: string, language: string,
                        props: Props)
      modifies this
      ensures Stored() == Run(old(Stored()), SymbolSteps(org, repo, path, name, signature, language, props))
    {
      ghost var g := Stored();
      var file := FileProps(language, "", 0, [], 0, "");
      UpsertFile(org, repo, path, file);
      var merge := MergeSet(Symbol(org, repo, path, name, signature), props);
      var link := Link(File(org, repo, path), Defines, Symbol(org, repo, path, name, signature));
      Query(merge);
      Query(link);
      RunTwo(g, FileSteps(org, repo, path, file), merge, link);
    }

    /** Merge an edge for every pair of matched nodes, one at a time. */
    method MergeEdges(sources: set<Node>, relation: Relation, targets: set<Node>)
      modifies this
      ensures nodes == old(nodes)
      ensures forall e ::
        e in edges <==> e in old(edges) || (e.from in sources && e.relation == relation && e.to in targets)
    {
      var left := sources;
      while left != {}
        invariant nodes == old(nodes) && left <= sources
        invariant forall e :: e in edges <==>
          e in old(edges) || (e.from in sources - left && e.relation == relation && e.to in targets)
        decreases left
      {
        var a :| a in left;
        MergeEdgesFrom(a, relation, targets);
        left := left - {a};
      }
    }

    method MergeEdgesFrom(source: Node, relation: Relation, targets: set<Node>)
      modifies this
      ensures nodes == old(nodes)
      ensures forall e ::
        e in edges <==> e in old(edges) || (e.from == source && e.relation == relation && e.to in targets)
    {
      var left := targets;
      while left != {}
        invariant nodes == old(nodes) && left <= targets
        invariant forall e :: e in edges <==>
          e in old(edges) || (e.from == source && e.relation == relation && e.to in targets - left)
        decreases left
      {
        var b :| b in left;
        edges := edges + {Edge(source, relation, b)};
        left := left - {b};
      }
    }

    /** CALLS, INHERITS and IMPLEMENTS edges: afterwards every symbol of the first name and file is
        joined to every symbol of the second, whatever their signatures, and nothing else is new. */
    method AddSymbolEdge(
        relation: Relation, org: string, repo: string, from: string, fromFile: string, to: string, toFile: string)
      requires relation in {Calls, Inherits, Implements}
      modifies this
      ensures nodes == old(nodes)
      ensures forall e :: e in edges <==>
        e in old(edges)
        || (e.relation == relation && e.from in nodes && e.to in nodes
            && e.from.Symbol? && e.from == Symbol(org, repo, fromFile, from, e.from.signature)
            && e.to.Symbol? && e.to == Symbol(org, repo, toFile, to, e.to.signature))
      ensures Stored() == LinkAll(old(Stored()), SymbolsNamed(Stored(), org, repo, from, fromFile), relation,
                                  SymbolsNamed(Stored(), org, repo, to, toFile))
    {
      var callers := SymbolsNamed(Stored(), org, repo, from, fromFile);
      var callees := SymbolsNamed(Stored(), org, repo, to, toFile);
      MergeEdges(callers, relation, callees);
    }

    /** Afterwards the two files are joined, when both exist, and nothing else is new. */
    method AddImportsEdge(org: string, repo: string, importer: string, imported: string)
      modifies this
      ensures nodes == old(nodes)
      ensures forall e :: e in edges <==>
        e in old(edges)
        || (e == Edge(File(org, repo, importer), Imports, File(org, repo, imported)) && e.from in nodes
            && e.to in nodes)
      ensures Stored() == LinkAll(old(Stored()), FilesAt(Stored(), org, repo, importer), Imports,
                                  FilesAt(Stored(), org, repo, imported))
    {
      MergeEdges(FilesAt(Stored(), org, repo, importer), Imports, FilesAt(Stored(), org, repo, imported));
    }

    /** Create an annotation and link it to what it is about: all symbols of the name in the file,
        or else the file. */
    method CreateAnnotation(id: nat, props: Props, org: string, repo: string, file: string, symbol: string)
      modifies this
      ensures nodes == old(nodes)[Annotation(id) := props]
      ensures forall e :: e in edges <==>
        e in old(edges)
        || (e.from == Annotation(id) && e.relation == Annotates && e.to in nodes && file != "" && repo != ""
            && if symbol != "" then e.to.Symbol? && e.to == Symbol(org, repo, file, symbol, e.to.signature)
               else e.to == File(org, repo, file))
      ensures Stored() == Annotate(old(Stored()), id, props, org, repo, file, symbol)
    {
      nodes := nodes[Annotation(id) := props];
      if symbol != "" && repo != "" && file != "" {
        MergeEdgesFrom(Annotation(id), Annotates, SymbolsNamed(Stored(), org, repo, symbol, file));
      } else if file != "" && repo != "" {
        MergeEdgesFrom(Annotation(id), Annotates, FilesAt(Stored(), org, repo, file));
      }
    }

    method DeleteRepository(org: string, repo: string)
      modifies this
      ensures Stored() == Delete(old(Stored()), org, repo)
    {
      var root := Repo(org, repo);
      if root in nodes {
        var doomed := {root} + Descendants(edges, root);
        nodes, edges := nodes - doomed, set e | e in edges && e.from !in doomed && e.to !in doomed;
      }
    }
  }

  function Annotate(g: Graph, id: nat, props: Props, org: string, repo: string, file: string, symbol: string): Graph {
    var g' := g.(nodes := g.nodes[Annotation(id) := props]);
    if symbol != "" && repo != "" && file != "" then
      LinkAll(g', {Annotation(id)}, Annotates, SymbolsNamed(g', org, repo, symbol, file))
    else if file != "" && repo != "" then
      LinkAll(g', {Annotation(id)}, Annotates, FilesAt(g', org, repo, file))
    else g'
  }

  lemma {:induction false} RunTwo(g: Graph, steps: seq<Step>, x: Step, y: Step)
    ensures Run(g, steps + [x, y]) == Run(Run(Run(g, steps), [x]), [y])
  {
    RunConcat(g, steps, [x, y]);
    assert [x, y] == [x] + [y];
    RunConcat(Run(g, steps), [x], [y]);
  }
}
