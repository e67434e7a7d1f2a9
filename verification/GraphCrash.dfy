/** Which crashes of an upsert leave nodes behind that deletion of the repository misses. */
module GraphCrash {
  import opened Paths
  import opened CodeGraph
  import opened GraphInvariants
  import opened GraphRetry

  /** Deleting the repository leaves something of it behind. */
  ghost predicate Orphaned(g: Graph, org: string, repo: string) {
    exists n :: n in Delete(g, org, repo).nodes && Owned(n, org, repo)
  }

  lemma {:induction false} SoundLeavesNone(g: Graph, org: string, repo: string)
    requires Sound(g)
    ensures !Orphaned(g, org, repo)
  {
    DeleteIsExact(g, org, repo);
  }

  lemma {:induction false} DescendantHasEdge(edges: set<Edge>, root: Node, n: Node)
    requires n in Descendants(edges, root)
    ensures exists e :: e in edges && e.to == n
  {
    DescendantsArePathEnds(edges, root, n);
    var path :| Leads(edges, root, path, n);
    assert Joined(edges, path[|path| - 2], path[|path| - 1]);
  }

  /** A node that no edge leads to is missed. */
  lemma {:induction false} UnlinkedIsMissed(g: Graph, n: Node)
    requires n in g.nodes && Hangs(n) && forall e :: e in g.edges ==> e.to != n
    ensures Orphaned(g, n.org, n.repo)
  {
    var root := Repo(n.org, n.repo);
    if n in Descendants(g.edges, root) { DescendantHasEdge(g.edges, root, n); }
    assert n in Delete(g, n.org, n.repo).nodes && Owned(n, n.org, n.repo);
  }

  // ---------- Prefixes of a run ----------

  lemma {:induction false} PrefixOfFirst(a: seq<Step>, b: seq<Step>, k: nat)
    requires k <= |a|
    ensures (a + b)[..k] == a[..k]
  {
  }

  lemma {:induction false} PrefixPastFirst(g: Graph, a: seq<Step>, b: seq<Step>, k: nat)
    requires |a| <= k <= |a| + |b|
    ensures Run(g, (a + b)[..k]) == Run(Run(g, a), b[..k - |a|])
  {
    assert (a + b)[..k] == a + b[..k - |a|];
    RunConcat(g, a, b[..k - |a|]);
  }

  predicate LinksTo(steps: seq<Step>, n: Node) {
    exists s :: s in steps && s.Link? && s.to == n
  }

  /** Nodes and edges a run adds come from its own queries. */
  lemma {:induction false} RunAdds(g: Graph, steps: seq<Step>, n: Node)
    requires Linked(g) && n !in g.nodes && !LinksTo(steps, n)
    ensures forall e :: e in Run(g, steps).edges ==> e.to != n
    ensures n in Run(g, steps).nodes <==> n in Written(steps)
  {
    if steps != [] {
      var k := |steps| - 1;
      assert steps == steps[..k] + [steps[k]];
      assert forall s :: s in steps[..k] ==> s in steps;
      RunAdds(g, steps[..k], n);
      assert steps[k] in steps;
    }
  }

  // ---------- Directories ----------

  /** Linking a directory links only it and directories above it. */
  lemma {:induction false} LinksAreShort(org: string, repo: string, path: string, props: Props)
    ensures forall s :: s in DirSteps(org, repo, path, props) && s.Link? ==> s.to.Dir? && |s.to.path| <= |path|
    decreases |path|
  {
    if !AtTop(path) {
      ParentIsShorter(path);
      LinksAreShort(org, repo, ParentPath(path), PlainDir);
    }
  }

  /** The directory's own link is the last of its queries. */
  lemma {:induction false} OwnLinkIsLast(org: string, repo: string, path: string, props: Props, k: nat)
    requires 2 <= k < |DirSteps(org, repo, path, props)|
    ensures var done := DirSteps(org, repo, path, props)[..k];
            !LinksTo(done, Dir(org, repo, path)) && Dir(org, repo, path) in Written(done)
  {
    var start := [Merge(Repo(org, repo)), MergeSet(Dir(org, repo, path), props)];
    var done := DirSteps(org, repo, path, props)[..k];
    assert done[1] == start[1];
    if !AtTop(path) {
      ParentIsShorter(path);
      var above := DirSteps(org, repo, ParentPath(path), PlainDir);
      LinksAreShort(org, repo, ParentPath(path), PlainDir);
      assert forall s :: s in done ==> s in start || s in above;
    } else {
      assert done == start;
    }
  }

  lemma {:induction false} StartKeepsSound(g: Graph, org: string, repo: string, path: string, props: Props)
    requires Sound(g)
    ensures Sound(Run(g, [Merge(Repo(org, repo))]))
    ensures var g2 := Run(g, [Merge(Repo(org, repo)), MergeSet(Dir(org, repo, path), props)]);
            Dir(org, repo, path) in g.nodes ==> Sound(g2) && g2.nodes.Keys == g.nodes.Keys + {Repo(org, repo)}
  {
    var merge, mergeSet := Merge(Repo(org, repo)), MergeSet(Dir(org, repo, path), props);
    RunOne(g, merge);
    assert Linked(Apply(g, merge)) && Attached(Apply(g, merge), {});
    RunTwo(g, [], merge, mergeSet);
    assert [] + [merge, mergeSet] == [merge, mergeSet];
    RunOne(Apply(g, merge), mergeSet);
    if Dir(org, repo, path) in g.nodes {
      var g2 := Apply(Apply(g, merge), mergeSet);
      assert Linked(g2) && Attached(g2, {});
    }
  }

  /** In a sound graph that has the directory, no part of its upsert can do harm. */
  lemma {:induction false} KnownDirectoryStaysSound(
      g: Graph, org: string, repo: string, path: string, props: Props, k: nat)
    requires Sound(g) && Dir(org, repo, path) in g.nodes && k <= |DirSteps(org, repo, path, props)|
    ensures Sound(Run(g, DirSteps(org, repo, path, props)[..k]))
    decreases |path|
  {
    var start := [Merge(Repo(org, repo)), MergeSet(Dir(org, repo, path), props)];
    var steps := DirSteps(org, repo, path, props);
    if k == |steps| {
      assert steps[..k] == steps;
      PerformKeepsSound(g, UpsertDirectory(org, repo, path, props));
    } else if k < 2 {
      StartKeepsSound(g, org, repo, path, props);
      assert k == 0 ==> steps[..k] == [];
      assert k == 1 ==> steps[..k] == [start[0]];
    } else {
      var g2 := Run(g, start);
      StartKeepsSound(g, org, repo, path, props);
      PrefixPastFirst(g, start, LinkSteps(org, repo, path), k);
      if AtTop(path) {
        assert LinkSteps(org, repo, path)[..k - 2] == [];
      } else {
        ParentIsShorter(path);
        var above := DirSteps(org, repo, ParentPath(path), PlainDir);
        assert ParentEdge(Dir(org, repo, path)) in g.edges;
        assert Dir(org, repo, ParentPath(path)) in g.nodes;
        var link := Link(Dir(org, repo, ParentPath(path)), ContainsDir, Dir(org, repo, path));
        PrefixOfFirst(above, [link], k - 2);
        KnownDirectoryStaysSound(g2, org, repo, ParentPath(path), PlainDir, k - 2);
      }
    }
  }

  /** A directory upsert that stops after `k` queries leaves something deletion misses exactly
      when it had begun with a new directory and not come to its end. */
  lemma {:induction false} DirectoryCrashIff(g: Graph, org: string, repo: string, path: string, props: Props, k: nat)
    requires Sound(g) && k <= |DirSteps(org, repo, path, props)|
    ensures Orphaned(Run(g, DirSteps(org, repo, path, props)[..k]), org, repo)
       <==> 2 <= k < |DirSteps(org, repo, path, props)| && Dir(org, repo, path) !in g.nodes
  {
    var d, steps := Dir(org, repo, path), DirSteps(org, repo, path, props);
    if d in g.nodes {
      KnownDirectoryStaysSound(g, org, repo, path, props, k);
      SoundLeavesNone(Run(g, steps[..k]), org, repo);
    } else if 2 <= k < |steps| {
      OwnLinkIsLast(org, repo, path, props, k);
      RunAdds(g, steps[..k], d);
      UnlinkedIsMissed(Run(g, steps[..k]), d);
    } else {
      DirectoryEndsStaySound(g, org, repo, path, props, k);
      SoundLeavesNone(Run(g, steps[..k]), org, repo);
    }
  }

  lemma {:induction false} DirectoryEndsStaySound(
      g: Graph, org: string, repo: string, path: string, props: Props, k: nat)
    requires Sound(g) && (k < 2 || k == |DirSteps(org, repo, path, props)|)
    requires k <= |DirSteps(org, repo, path, props)|
    ensures Sound(Run(g, DirSteps(org, repo, path, props)[..k]))
  {
    var steps := DirSteps(org, repo, path, props);
    if k == |steps| {
      assert steps[..k] == steps;
      PerformKeepsSound(g, UpsertDirectory(org, repo, path, props));
    } else {
      StartKeepsSound(g, org, repo, path, props);
      assert k == 0 ==> steps[..k] == [];
      assert k == 1 ==> steps[..k] == [Merge(Repo(org, repo))];
    }
  }

  // ---------- Files and symbols ----------

  /** After `first`, which leaves the graph sound, a leaf is set and then linked: stopping in
      between harms exactly when the leaf is new. */
  lemma {:induction false} LeafCrashIff(g: Graph, first: seq<Step>, leaf: Node, props: Props, k: nat)
    requires Hangs(leaf) && Linked(g) && Sound(Run(g, first)) && Parent(leaf) in Run(g, first).nodes
    requires leaf !in Written(first) && !LinksTo(first, leaf)
    requires |first| < k <= |first| + 2
    ensures var e := ParentEdge(leaf);
            Orphaned(Run(g, (first + [MergeSet(leaf, props), Link(e.from, e.relation, e.to)])[..k]), leaf.org,
                     leaf.repo)
            <==> k == |first| + 1 && leaf !in g.nodes
  {
    var e := ParentEdge(leaf);
    var mergeSet, link := MergeSet(leaf, props), Link(e.from, e.relation, e.to);
    var g1 := Run(g, first);
    PrefixPastFirst(g, first, [mergeSet, link], k);
    if k == |first| + 2 {
      assert [mergeSet, link][..2] == [mergeSet] + [link];
      RunConcat(g1, [mergeSet], [link]);
      LeafAttaches(g1, leaf, props);
      SoundLeavesNone(Run(g, (first + [mergeSet, link])[..k]), leaf.org, leaf.repo);
    } else {
      assert [mergeSet, link][..1] == [mergeSet];
      RunOne(g1, mergeSet);
      if leaf in g.nodes {
        RunKeepsNodes(g, first);
        SetKeepsSound(g1, leaf, props);
        SoundLeavesNone(Apply(g1, mergeSet), leaf.org, leaf.repo);
      } else {
        RunAdds(g, first, leaf);
        UnlinkedIsMissed(Apply(g1, mergeSet), leaf);
      }
    }
  }

  lemma {:induction false} SetKeepsSound(g: Graph, n: Node, props: Props)
    requires Sound(g) && n in g.nodes
    ensures Sound(Apply(g, MergeSet(n, props)))
  {
    assert Linked(Apply(g, MergeSet(n, props)));
  }

  lemma {:induction false} RunKeepsNodes(g: Graph, steps: seq<Step>)
    ensures g.nodes.Keys <= Run(g, steps).nodes.Keys
  {
    if steps != [] { RunKeepsNodes(g, steps[..|steps| - 1]); }
  }

  /** What a directory upsert writes and links are repositories and directories. */
  lemma {:induction false} DirStepsTouchDirs(org: string, repo: string, path: string, props: Props)
    ensures forall s :: s in DirSteps(org, repo, path, props) ==> !s.Link? ==> s.node.Repo? || s.node.Dir?
    ensures forall s :: s in DirSteps(org, repo, path, props) && s.Link? ==> s.to.Dir?
    decreases |path|
  {
    if !AtTop(path) {
      ParentIsShorter(path);
      DirStepsTouchDirs(org, repo, ParentPath(path), PlainDir);
    }
  }

  /** The same for a file upsert: the harm is done by a new directory or by a new file. */
  lemma {:induction false} FileCrashIff(g: Graph, org: string, repo: string, path: string, props: Props, k: nat)
    requires Sound(g) && k <= |FileSteps(org, repo, path, props)|
    ensures var dir := FileDirectory(path);
            var n := |DirSteps(org, repo, dir, PlainDir)|;
            Orphaned(Run(g, FileSteps(org, repo, path, props)[..k]), org, repo)
            <==> (2 <= k < n && Dir(org, repo, dir) !in g.nodes)
                 || (k == n + 1 && CodeGraph.Node.File(org, repo, path) !in g.nodes)
  {
    var f, first := CodeGraph.Node.File(org, repo, path), DirSteps(org, repo, FileDirectory(path), PlainDir);
    var last := [MergeSet(f, props), Link(Parent(f), ContainsFile, f)];
    assert FileSteps(org, repo, path, props) == first + last;
    if k <= |first| {
      PrefixOfFirst(first, last, k);
      DirectoryCrashIff(g, org, repo, FileDirectory(path), PlainDir, k);
    } else {
      PerformKeepsSound(g, UpsertDirectory(org, repo, FileDirectory(path), PlainDir));
      DirStepsAttach(g, org, repo, FileDirectory(path), PlainDir, {});
      DirStepsTouchDirs(org, repo, FileDirectory(path), PlainDir);
      LeafCrashIff(g, first, f, props, k);
    }
  }

  lemma {:induction false} FileStepsTouchFiles(org: string, repo: string, path: string, props: Props)
    ensures forall s :: s in FileSteps(org, repo, path, props) ==> !s.Link? ==> !s.node.Symbol?
    ensures forall s :: s in FileSteps(org, repo, path, props) && s.Link? ==> !s.to.Symbol?
  {
    DirStepsTouchDirs(org, repo, FileDirectory(path), PlainDir);
  }

  /** And for a symbol upsert: a new directory, a new file or a new symbol. */
  lemma {:induction false} SymbolCrashIff(
      g: Graph, org: string, repo: string, path: string, name: string, signature: string, language: string,
      props: Props, k: nat)
    requires Sound(g) && k <= |SymbolSteps(org, repo, path, name, signature, language, props)|
    ensures var dir := FileDirectory(path);
            var n := |DirSteps(org, repo, dir, PlainDir)|;
            Orphaned(Run(g, SymbolSteps(org, repo, path, name, signature, language, props)[..k]), org, repo)
            <==> (2 <= k < n && Dir(org, repo, dir) !in g.nodes)
                 || (k == n + 1 && CodeGraph.Node.File(org, repo, path) !in g.nodes)
                 || (k == n + 3 && Symbol(org, repo, path, name, signature) !in g.nodes)
  {
    var s, file := Symbol(org, repo, path, name, signature), FileProps(language, "", 0, [], 0, "");
    var first := FileSteps(org, repo, path, file);
    var last := [MergeSet(s, props), Link(Parent(s), Defines, s)];
    assert SymbolSteps(org, repo, path, name, signature, language, props) == first + last;
    if k <= |first| {
      PrefixOfFirst(first, last, k);
      FileCrashIff(g, org, repo, path, file, k);
    } else {
      FileStepsAttach(g, org, repo, path, file);
      FileStepsTouchFiles(org, repo, path, file);
      LeafCrashIff(g, first, s, props, k);
    }
  }

  /** For example, a new directory whose link was never sent. */
  lemma {:induction false} CrashLeavesOrphan()
    ensures Orphaned(Run(Empty, DirSteps("org", "repo", "src/", PlainDir)[..2]), "org", "repo")
  {
    assert Sound(Empty);
    DirectoryCrashIff(Empty, "org", "repo", "src/", PlainDir, 2);
  }
}
