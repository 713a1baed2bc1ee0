/** The TypeScript project graph. */
module ProjectGraph {
  import opened Wrappers
  import opened Sorting

  // Discovery, closures, root selection and the worlds built from them
  // (assets/typescript-project-model.js). The compiler is an arbitrary `parse`;
  // paths are ordered by an arbitrary total order.

  /** A repository path, of a configuration file or of a source file. */
  type Path = string

  datatype Project = Project(configReads: seq<Path>, references: seq<Path>, selectedSourceFiles: seq<Path>)

  type Graph = Path -> seq<Path>

  // ---------------------------------------------------------------------
  // Reachability
  // ---------------------------------------------------------------------

  ghost predicate Steps(graph: Graph, walk: seq<Path>, i: nat) {
    0 < i < |walk| && walk[i] in graph(walk[i - 1])
  }

  ghost predicate IsWalk(graph: Graph, walk: seq<Path>) {
    walk != [] && forall i: nat :: 0 < i < |walk| ==> Steps(graph, walk, i)
  }

  /** A walk without its last node. */
  lemma Shorter(graph: Graph, walk: seq<Path>, a: Path, b: Path)
    requires Connects(graph, walk, a, b) && |walk| > 1
    ensures Connects(graph, walk[..|walk| - 1], a, walk[|walk| - 2]) && b in graph(walk[|walk| - 2])
  {
    var shorter := walk[..|walk| - 1];
    forall i: nat | 0 < i < |shorter| ensures Steps(graph, shorter, i) {
      assert Steps(graph, walk, i);
    }
    assert Steps(graph, walk, |walk| - 1);
  }

  ghost predicate Connects(graph: Graph, walk: seq<Path>, a: Path, b: Path) {
    IsWalk(graph, walk) && walk[0] == a && walk[|walk| - 1] == b
  }

  ghost predicate Reachable(graph: Graph, a: Path, b: Path) {
    exists walk :: Connects(graph, walk, a, b)
  }

  lemma ReachesItself(graph: Graph, a: Path)
    ensures Reachable(graph, a, a)
  {
    assert Connects(graph, [a], a, a);
  }

  lemma ReachesNext(graph: Graph, a: Path, b: Path, c: Path)
    requires Reachable(graph, a, b) && c in graph(b)
    ensures Reachable(graph, a, c)
  {
    var walk :| Connects(graph, walk, a, b);
    var longer := walk + [c];
    forall i: nat | 0 < i < |longer| ensures Steps(graph, longer, i) {
      if i < |walk| {
        assert Steps(graph, walk, i);
      }
    }
    assert Connects(graph, longer, a, c);
  }

  lemma {:induction false} WalkJoins(graph: Graph, a: Path, walk: seq<Path>, b: Path, c: Path)
    requires Reachable(graph, a, b) && Connects(graph, walk, b, c)
    ensures Reachable(graph, a, c)
    decreases |walk|
  {
    if |walk| > 1 {
      var n := |walk| - 1;
      Shorter(graph, walk, b, c);
      WalkJoins(graph, a, walk[..n], b, walk[n - 1]);
      ReachesNext(graph, a, walk[n - 1], c);
    }
  }

  lemma ReachesOn(graph: Graph, a: Path, b: Path, c: Path)
    requires Reachable(graph, a, b) && Reachable(graph, b, c)
    ensures Reachable(graph, a, c)
  {
    var walk :| Connects(graph, walk, b, c);
    WalkJoins(graph, a, walk, b, c);
  }

  /** The last step into a node reached from elsewhere. */
  lemma LastStep(graph: Graph, a: Path, b: Path) returns (before: Path)
    requires Reachable(graph, a, b) && a != b
    ensures Reachable(graph, a, before) && b in graph(before)
  {
    var walk :| Connects(graph, walk, a, b);
    var n := |walk| - 1;
    Shorter(graph, walk, a, b);
    before := walk[n - 1];
    assert Connects(graph, walk[..n], a, before);
  }

  ghost predicate Closed(graph: Graph, nodes: set<Path>) {
    forall a, b :: a in nodes && b in graph(a) ==> b in nodes
  }

  lemma {:induction false} ClosedKeepsWalk(graph: Graph, nodes: set<Path>, walk: seq<Path>, a: Path, b: Path)
    requires Closed(graph, nodes) && a in nodes && Connects(graph, walk, a, b)
    ensures b in nodes
    decreases |walk|
  {
    if |walk| > 1 {
      var n := |walk| - 1;
      Shorter(graph, walk, a, b);
      ClosedKeepsWalk(graph, nodes, walk[..n], a, walk[n - 1]);
    }
  }

  lemma ClosedKeepsReachable(graph: Graph, nodes: set<Path>, a: Path, b: Path)
    requires Closed(graph, nodes) && a in nodes && Reachable(graph, a, b)
    ensures b in nodes
  {
    var walk :| Connects(graph, walk, a, b);
    ClosedKeepsWalk(graph, nodes, walk, a, b);
  }

  // ---------------------------------------------------------------------
  // Discovery
  // ---------------------------------------------------------------------

  type Parser = Path -> Option<Project>

  /** The references the compiler reports; a file it cannot parse has none. */
  function Parsed(parse: Parser): Graph {
    c => match parse(c) { case Some(project) => project.references case None => [] }
  }

  ghost predicate Needed(parse: Parser, inputs: seq<Path>, config: Path) {
    exists input :: input in inputs && Reachable(Parsed(parse), input, config)
  }

  ghost predicate Inside(nodes: set<Path>, configs: seq<Path>) {
    forall c :: c in configs ==> c in nodes
  }

  /** The needed configurations as a set: all of them lie in the file tree. */
  lemma NeededSet(parse: Parser, inputs: seq<Path>, files: set<Path>) returns (needed: set<Path>)
    requires Closed(Parsed(parse), files) && Inside(files, inputs)
    ensures forall c :: c in needed <==> Needed(parse, inputs, c)
    ensures Closed(Parsed(parse), needed) && Inside(needed, inputs)
  {
    var graph := Parsed(parse);
    needed := set c | c in files && Needed(parse, inputs, c);
    forall c | Needed(parse, inputs, c) ensures c in files {
      var input :| input in inputs && Reachable(graph, input, c);
      ClosedKeepsReachable(graph, files, input, c);
    }
    forall a, b | a in needed && b in graph(a) ensures b in needed {
      var input :| input in inputs && Reachable(graph, input, a);
      ReachesNext(graph, input, a, b);
    }
    forall c | c in inputs ensures c in needed {
      ReachesItself(graph, c);
    }
  }

  /** The projects found so far, each as parsed; every input and every reference is found or queued. */
  ghost predicate Frontier(parse: Parser, inputs: seq<Path>, projects: map<Path, Project>, queue: seq<Path>) {
    && (forall c :: c in projects ==> parse(c) == Some(projects[c]))
    && (forall c :: c in inputs ==> c in projects || c in queue)
    && (forall c, r :: c in projects && r in projects[c].references ==> r in projects || r in queue)
  }

  /** With nothing left to do, every needed configuration has been found. */
  lemma FrontierDone(parse: Parser, inputs: seq<Path>, projects: map<Path, Project>)
    requires Frontier(parse, inputs, projects, [])
    ensures forall c :: Needed(parse, inputs, c) ==> c in projects
  {
    assert Closed(Parsed(parse), projects.Keys) by {
      forall a, b | a in projects.Keys && b in Parsed(parse)(a) ensures b in projects.Keys {
        assert b in projects[a].references;
      }
    }
    forall c | Needed(parse, inputs, c) ensures c in projects {
      var input :| input in inputs && Reachable(Parsed(parse), input, c);
      ClosedKeepsReachable(Parsed(parse), projects.Keys, input, c);
    }
  }

  /** The references of a new project that still have to be visited join the queue. */
  method Enqueue(projects: map<Path, Project>, queue: seq<Path>, references: seq<Path>) returns (longer: seq<Path>)
    ensures forall c :: c in longer <==> c in queue || (c in references && c !in projects)
  {
    longer := queue;
    for i := 0 to |references|
      invariant forall c :: c in longer <==> c in queue || (c in references[..i] && c !in projects)
    {
      if references[i] !in projects {
        longer := longer + [references[i]];
      }
      assert references[..i + 1] == references[..i] + [references[i]];
    }
  }

  lemma Shrinks(smaller: set<Path>, larger: set<Path>)
    requires smaller < larger
    ensures |smaller| < |larger|
  {
    var extra :| extra in larger && extra !in smaller;
    assert smaller <= larger - {extra};
    NoLarger(smaller, larger - {extra});
  }

  lemma {:induction false} NoLarger(smaller: set<Path>, larger: set<Path>)
    requires smaller <= larger
    ensures |smaller| <= |larger|
    decreases smaller
  {
    if smaller != {} {
      var x :| x in smaller;
      NoLarger(smaller - {x}, larger - {x});
    }
  }

  /** A configuration met before adds nothing. */
  lemma SkipKnown(parse: Parser, inputs: seq<Path>, projects: map<Path, Project>, queue: seq<Path>)
    requires queue != [] && queue[0] in projects && Frontier(parse, inputs, projects, queue)
    ensures Frontier(parse, inputs, projects, queue[1..])
  {
    assert queue == [queue[0]] + queue[1..];
  }

  /** The projects in the order they were found, each once. */
  ghost predicate Lists(order: seq<Path>, projects: map<Path, Project>) {
    IsDistinct(order) && forall c :: c in order <==> c in projects
  }

  /** One new configuration: recorded, and its unknown references queued in order. */
  method Visit(parse: Parser, leq: (Path, Path) -> bool, inputs: seq<Path>, ghost needed: set<Path>,
               projects: map<Path, Project>, order: seq<Path>, queue: seq<Path>, project: Project)
    returns (grown: map<Path, Project>, extended: seq<Path>, longer: seq<Path>)
    requires TotalOrder(leq) && Closed(Parsed(parse), needed) && Lists(order, projects)
    requires queue != [] && queue[0] !in projects && parse(queue[0]) == Some(project)
    requires Frontier(parse, inputs, projects, queue) && Inside(needed, queue) && projects.Keys <= needed
    ensures Frontier(parse, inputs, grown, longer) && Inside(needed, longer)
    ensures projects.Keys < grown.Keys <= needed && Lists(extended, grown)
  {
    grown := projects[queue[0] := project];
    extended := order + [queue[0]];
    var unsorted := Enqueue(grown, queue[1..], project.references);
    SortKeepsValues(leq, unsorted);
    longer := Sort(leq, unsorted);
    assert forall r :: r in project.references ==> r in Parsed(parse)(queue[0]);
  }

  lemma FewerLeft(nodes: set<Path>, before: set<Path>, found: set<Path>)
    requires before < found <= nodes
    ensures |nodes - found| < |nodes - before|
  {
    var x :| x in found && x !in before;
    assert x in nodes - before && x !in nodes - found;
    Shrinks(nodes - found, nodes - before);
  }

  /** The discovery loop, within any set closed under references that holds the inputs. */
  method DiscoverWithin(parse: Parser, leq: (Path, Path) -> bool, inputs: seq<Path>, ghost needed: set<Path>)
    returns (result: Result<(map<Path, Project>, seq<Path>), Path>)
    requires TotalOrder(leq) && Closed(Parsed(parse), needed) && Inside(needed, inputs)
    ensures result.Failure? ==> result.error in needed && parse(result.error).None?
    ensures result.Success? ==>
      var (projects, order) := result.value;
      Frontier(parse, inputs, projects, []) && projects.Keys <= needed && Lists(order, projects)
  {
    var projects: map<Path, Project>, order: seq<Path> := map[], [];
    var queue := inputs;
    while queue != []
      invariant Frontier(parse, inputs, projects, queue) && Inside(needed, queue) && projects.Keys <= needed
      invariant Lists(order, projects)
      decreases |needed - projects.Keys|, |queue|
    {
      var config := queue[0];
      if config in projects {
        SkipKnown(parse, inputs, projects, queue);
        queue := queue[1..];
      } else {
        var parsed := parse(config);
        if parsed.None? {
          return Failure(config);
        }
        ghost var before := projects.Keys;
        projects, order, queue := Visit(parse, leq, inputs, needed, projects, order, queue, parsed.value);
        FewerLeft(needed, before, projects.Keys);
      }
    }
    return Success((projects, order));
  }

  /** Discovery fails exactly when some needed configuration does not parse; otherwise it
      returns exactly the needed configurations, each as parsed, and the order they were
      found in. `files` is the finite file tree that all references stay in. */
  method Discover(parse: Parser, leq: (Path, Path) -> bool, inputs: seq<Path>, ghost files: set<Path>)
    returns (result: Result<(map<Path, Project>, seq<Path>), Path>)
    requires TotalOrder(leq) && Closed(Parsed(parse), files) && Inside(files, inputs)
    ensures result.Failure? <==> exists c :: Needed(parse, inputs, c) && parse(c).None?
    ensures result.Success? ==>
      var (projects, order) := result.value;
      && (forall c :: c in projects <==> Needed(parse, inputs, c))
      && (forall c :: c in projects ==> parse(c) == Some(projects[c]))
      && Lists(order, projects)
  {
    ghost var needed := NeededSet(parse, inputs, files);
    result := DiscoverWithin(parse, leq, inputs, needed);
    if result.Success? {
      FrontierDone(parse, inputs, result.value.0);
    }
  }

  // ---------------------------------------------------------------------
  // Closures
  // ---------------------------------------------------------------------

  /** The reference graph of the projects found. */
  function Links(projects: map<Path, Project>): Graph {
    c => if c in projects then projects[c].references else []
  }

  function Elements(configs: seq<Path>): set<Path> {
    set c | c in configs
  }

  ghost predicate AllReached(graph: Graph, root: Path, configs: seq<Path>) {
    forall c :: c in configs ==> Reachable(graph, root, c)
  }

  /** The part of the closure found so far and what is still on the stack. */
  ghost predicate Explored(graph: Graph, root: Path, closure: seq<Path>, pending: seq<Path>) {
    && (root in closure || root in pending)
    && (forall c, r :: c in closure && r in graph(c) ==> r in closure || r in pending)
  }

  lemma ExploredDone(graph: Graph, root: Path, closure: seq<Path>)
    requires Explored(graph, root, closure, [])
    ensures forall c :: Reachable(graph, root, c) ==> c in closure
  {
    assert Closed(graph, Elements(closure));
    forall c | Reachable(graph, root, c) ensures c in closure {
      ClosedKeepsReachable(graph, Elements(closure), root, c);
    }
  }

  /** The search for a closure: what is found is reached and parsed, and nothing is lost. */
  ghost predicate Searching(projects: map<Path, Project>, root: Path, closure: seq<Path>, pending: seq<Path>) {
    var graph := Links(projects);
    && Explored(graph, root, closure, pending)
    && AllReached(graph, root, closure) && AllReached(graph, root, pending)
    && Elements(closure) <= projects.Keys
  }

  lemma SearchStarts(projects: map<Path, Project>, root: Path)
    ensures Searching(projects, root, [], [root])
  {
    ReachesItself(Links(projects), root);
  }

  lemma PopKnown(projects: map<Path, Project>, root: Path, closure: seq<Path>, pending: seq<Path>)
    requires pending != [] && pending[|pending| - 1] in closure && Searching(projects, root, closure, pending)
    ensures Searching(projects, root, closure, pending[..|pending| - 1])
  {
    assert pending == pending[..|pending| - 1] + [pending[|pending| - 1]];
  }

  lemma ExploreMore(graph: Graph, root: Path, closure: seq<Path>, pending: seq<Path>)
    requires pending != [] && Explored(graph, root, closure, pending) && AllReached(graph, root, pending)
    ensures var n := |pending| - 1;
            && Explored(graph, root, closure + [pending[n]], pending[..n] + graph(pending[n]))
            && AllReached(graph, root, pending[..n] + graph(pending[n]))
  {
    var n := |pending| - 1;
    assert pending == pending[..n] + [pending[n]];
    forall c | c in pending[..n] + graph(pending[n]) ensures Reachable(graph, root, c) {
      if c !in pending[..n] {
        ReachesNext(graph, root, pending[n], c);
      }
    }
  }

  lemma OneMoreElement(nodes: set<Path>, closure: seq<Path>, c: Path)
    requires Elements(closure) <= nodes && c in nodes && c !in closure
    ensures Elements(closure + [c]) <= nodes && |nodes - Elements(closure + [c])| < |nodes - Elements(closure)|
  {
    assert Elements(closure + [c]) == Elements(closure) + {c};
    FewerLeft(nodes, Elements(closure), Elements(closure + [c]));
  }

  lemma PopNew(projects: map<Path, Project>, root: Path, closure: seq<Path>, pending: seq<Path>)
    requires pending != [] && Searching(projects, root, closure, pending)
    requires pending[|pending| - 1] !in closure && pending[|pending| - 1] in projects
    ensures var n := |pending| - 1;
            Searching(projects, root, closure + [pending[n]], pending[..n] + projects[pending[n]].references)
    ensures |projects.Keys - Elements(closure + [pending[|pending| - 1]])| < |projects.Keys - Elements(closure)|
  {
    var n := |pending| - 1;
    assert pending[n] in pending;
    ExploreMore(Links(projects), root, closure, pending);
    OneMoreElement(projects.Keys, closure, pending[n]);
  }

  lemma SearchDone(projects: map<Path, Project>, root: Path, closure: seq<Path>)
    requires Searching(projects, root, closure, [])
    ensures forall c :: c in closure <==> Reachable(Links(projects), root, c)
    ensures forall c :: Reachable(Links(projects), root, c) ==> c in projects
  {
    ExploredDone(Links(projects), root, closure);
    forall c | c in closure ensures c in projects {
      assert c in Elements(closure);
    }
  }

  /** `closureFor`: it fails exactly when a reference leads to a configuration that was not
      parsed; otherwise it lists, in order and once each, exactly what the root reaches. */
  method ClosureFor(projects: map<Path, Project>, leq: (Path, Path) -> bool, root: Path)
    returns (result: Result<seq<Path>, Path>)
    requires TotalOrder(leq)
    ensures result.Failure? <==> exists c :: Reachable(Links(projects), root, c) && c !in projects
    ensures result.Success? ==>
      && IsSorted(leq, result.value) && IsDistinct(result.value)
      && forall c :: c in result.value <==> Reachable(Links(projects), root, c)
  {
    var closure: seq<Path> := [];
    var pending := [root];
    SearchStarts(projects, root);
    while pending != []
      invariant Searching(projects, root, closure, pending)
      decreases |projects.Keys - Elements(closure)|, |pending|
    {
      var n := |pending| - 1;
      var current := pending[n];
      if current in closure {
        PopKnown(projects, root, closure, pending);
        pending := pending[..n];
      } else {
        if current !in projects {
          assert current in pending;
          return Failure(current);
        }
        PopNew(projects, root, closure, pending);
        closure := closure + [current];
        pending := pending[..n] + projects[current].references;
      }
    }
    SearchDone(projects, root, closure);
    SortedUniqueLists(leq, closure);
    return Success(SortedUnique(leq, closure));
  }

  /** After discovery no reference leaves the projects, so no closure ever meets an unparsed one. */
  lemma DiscoveredIsClosed(parse: Parser, inputs: seq<Path>, projects: map<Path, Project>)
    requires forall c :: c in projects <==> Needed(parse, inputs, c)
    requires forall c :: c in projects ==> parse(c) == Some(projects[c])
    ensures Closed(Links(projects), projects.Keys)
    ensures forall root, c :: root in projects && Reachable(Links(projects), root, c) ==> c in projects
  {
    forall a, b | a in projects.Keys && b in Links(projects)(a) ensures b in projects.Keys {
      var input :| input in inputs && Reachable(Parsed(parse), input, a);
      ReachesNext(Parsed(parse), input, a, b);
      assert Needed(parse, inputs, b);
    }
    forall root, c | root in projects && Reachable(Links(projects), root, c) ensures c in projects {
      ClosedKeepsReachable(Links(projects), projects.Keys, root, c);
    }
  }

  // ---------------------------------------------------------------------
  // Roots
  // ---------------------------------------------------------------------

  predicate IsReferenced(projects: map<Path, Project>, config: Path) {
    exists other :: other in projects && config in projects[other].references
  }

  /** Read by another project's parse, as the base it extends. */
  predicate IsExtended(projects: map<Path, Project>, config: Path) {
    config in projects && exists other :: other in projects && other != config && config in projects[other].configReads
  }

  predicate IsRoot(projects: map<Path, Project>, config: Path) {
    config in projects && !IsReferenced(projects, config) && !IsExtended(projects, config)
  }

  /** In some root's world. */
  ghost predicate Covered(projects: map<Path, Project>, config: Path) {
    exists root :: IsRoot(projects, root) && Reachable(Links(projects), root, config)
  }

  /** Everything that leads to it, it leads back to. */
  ghost predicate IsSource(graph: Graph, config: Path) {
    forall other :: Reachable(graph, other, config) ==> Reachable(graph, config, other)
  }

  ghost predicate IsAcyclic(graph: Graph) {
    forall a, b :: b in graph(a) ==> !Reachable(graph, b, a)
  }

  lemma FirstStep(graph: Graph, a: Path, b: Path)
    requires Reachable(graph, a, b) && a != b
    ensures graph(a) != []
  {
    var walk :| Connects(graph, walk, a, b);
    assert Steps(graph, walk, 1);
  }

  lemma LinksStartInside(projects: map<Path, Project>, other: Path, config: Path)
    requires config in projects && Reachable(Links(projects), other, config)
    ensures other in projects
  {
    if other != config {
      FirstStep(Links(projects), other, config);
    }
  }

  lemma LeadingIsReferencing(projects: map<Path, Project>, other: Path, config: Path)
    requires Reachable(Links(projects), other, config) && other != config
    ensures IsReferenced(projects, config)
  {
    var before := LastStep(Links(projects), other, config);
    assert before in projects && config in projects[before].references;
  }

  /** Nothing but a root leads to a root. */
  lemma OnlyItselfLeadsToRoot(projects: map<Path, Project>, other: Path, root: Path)
    requires IsRoot(projects, root) && Reachable(Links(projects), other, root)
    ensures other == root
  {
    if other != root {
      LeadingIsReferencing(projects, other, root);
    }
  }

  ghost function Ancestors(projects: map<Path, Project>, config: Path): set<Path> {
    set a | a in projects && Reachable(Links(projects), a, config)
  }

  lemma FewerAncestors(projects: map<Path, Project>, ancestor: Path, config: Path)
    requires config in projects
    requires Reachable(Links(projects), ancestor, config) && !Reachable(Links(projects), config, ancestor)
    ensures Ancestors(projects, ancestor) < Ancestors(projects, config)
  {
    var graph := Links(projects);
    forall a | a in Ancestors(projects, ancestor) ensures a in Ancestors(projects, config) {
      ReachesOn(graph, a, ancestor, config);
    }
    ReachesItself(graph, config);
    assert config in Ancestors(projects, config) && config !in Ancestors(projects, ancestor);
  }

  /** Walking back always ends in a source. */
  lemma {:induction false} SourceAbove(projects: map<Path, Project>, config: Path) returns (source: Path)
    requires config in projects
    ensures source in projects && IsSource(Links(projects), source) && Reachable(Links(projects), source, config)
    decreases Ancestors(projects, config)
  {
    var graph := Links(projects);
    if IsSource(graph, config) {
      source := config;
      ReachesItself(graph, config);
    } else {
      var ancestor :| Reachable(graph, ancestor, config) && !Reachable(graph, config, ancestor);
      LinksStartInside(projects, ancestor, config);
      FewerAncestors(projects, ancestor, config);
      source := SourceAbove(projects, ancestor);
      ReachesOn(graph, source, ancestor, config);
    }
  }

  lemma RootSourceCovers(projects: map<Path, Project>, config: Path)
    requires config in projects
    requires forall c :: c in projects && IsSource(Links(projects), c) ==> IsRoot(projects, c)
    ensures Covered(projects, config)
  {
    var source := SourceAbove(projects, config);
    assert IsRoot(projects, source);
  }

  lemma CoveredSourceIsRoot(projects: map<Path, Project>, source: Path)
    requires Covered(projects, source) && IsSource(Links(projects), source)
    ensures IsRoot(projects, source)
  {
    var root :| IsRoot(projects, root) && Reachable(Links(projects), root, source);
    OnlyItselfLeadsToRoot(projects, source, root);
  }

  /** Every project lies in some root's world exactly when every source of the reference
      graph is itself a root: neither on a reference cycle nor extended by another. */
  lemma EveryProjectIsCoveredExactlyWhen(projects: map<Path, Project>)
    ensures (forall c :: c in projects ==> Covered(projects, c))
       <==> (forall c :: c in projects && IsSource(Links(projects), c) ==> IsRoot(projects, c))
  {
    if forall c :: c in projects && IsSource(Links(projects), c) ==> IsRoot(projects, c) {
      forall c | c in projects ensures Covered(projects, c) {
        RootSourceCovers(projects, c);
      }
    } else {
      var c :| c in projects && IsSource(Links(projects), c) && !IsRoot(projects, c);
      if Covered(projects, c) {
        CoveredSourceIsRoot(projects, c);
      }
    }
  }

  lemma AcyclicSources(projects: map<Path, Project>, config: Path)
    requires IsAcyclic(Links(projects)) && config in projects
    ensures IsSource(Links(projects), config) <==> !IsReferenced(projects, config)
  {
    var graph := Links(projects);
    if IsReferenced(projects, config) {
      var other :| other in projects && config in projects[other].references;
      ReachesItself(graph, other);
      ReachesNext(graph, other, other, config);
      assert config in graph(other);
    } else {
      forall other | Reachable(graph, other, config) ensures Reachable(graph, config, other) {
        if other == config {
          ReachesItself(graph, config);
        } else {
          LeadingIsReferencing(projects, other, config);
        }
      }
    }
  }

  /** With acyclic references, every project lies in some root's world exactly when no
      unreferenced project is extended by another. */
  lemma AcyclicProjectsAreCoveredExactlyWhen(projects: map<Path, Project>)
    requires IsAcyclic(Links(projects))
    ensures (forall c :: c in projects ==> Covered(projects, c))
       <==> (forall c :: c in projects && !IsReferenced(projects, c) ==> !IsExtended(projects, c))
  {
    EveryProjectIsCoveredExactlyWhen(projects);
    forall c | c in projects ensures IsSource(Links(projects), c) <==> !IsReferenced(projects, c) {
      AcyclicSources(projects, c);
    }
  }

  /** Nothing outside a closed set is in a world when all roots are inside it. */
  lemma OutsideIsLeftOut(projects: map<Path, Project>, inside: set<Path>, config: Path)
    requires Closed(Links(projects), inside) && config !in inside
    requires forall c :: IsRoot(projects, c) ==> c in inside
    ensures !Covered(projects, config)
  {
    if Covered(projects, config) {
      var root :| IsRoot(projects, root) && Reachable(Links(projects), root, config);
      ClosedKeepsReachable(Links(projects), inside, root, config);
    }
  }

  /** A reference cycle nobody leads into lies in no world, though another project is a root. */
  lemma CycleIsLeftOut(a: Path, b: Path, r: Path) returns (projects: map<Path, Project>)
    requires a != b && b != r && r != a
    ensures projects == map[a := Project([a], [b], []), b := Project([b], [a], []), r := Project([r], [], [])]
    ensures IsRoot(projects, r) && !Covered(projects, a) && !Covered(projects, b)
  {
    projects := map[a := Project([a], [b], []), b := Project([b], [a], []), r := Project([r], [], [])];
    assert b in projects[a].references && a in projects[b].references;
    assert IsReferenced(projects, a) && IsReferenced(projects, b);
    OutsideIsLeftOut(projects, {r}, a);
    OutsideIsLeftOut(projects, {r}, b);
  }

  /** So does a base configuration that is only extended, never referenced. */
  lemma ExtendedBaseIsLeftOut(app: Path, base: Path) returns (projects: map<Path, Project>)
    requires app != base
    ensures projects == map[app := Project([app, base], [], []), base := Project([base], [], [])]
    ensures IsRoot(projects, app) && !Covered(projects, base)
  {
    projects := map[app := Project([app, base], [], []), base := Project([base], [], [])];
    assert base in projects[app].configReads;
    assert IsExtended(projects, base);
    OutsideIsLeftOut(projects, {app}, base);
  }

  // ---------------------------------------------------------------------
  // Worlds
  // ---------------------------------------------------------------------

  datatype World = World(rootConfig: Option<Path>, configClosure: seq<Path>, rootSourceFiles: seq<Path>,
                         selectedSourceFiles: seq<Path>, ignoredSourceFiles: seq<Path>)

  datatype ProjectError = NoRoot | NotParsed(config: Path)

  ghost predicate Selects(projects: map<Path, Project>, root: Path, source: Path) {
    exists c :: c in projects && Reachable(Links(projects), root, c) && source in projects[c].selectedSourceFiles
  }

  ghost predicate Configured(projects: map<Path, Project>, source: Path) {
    exists root :: IsRoot(projects, root) && Selects(projects, root, source)
  }

  function Without(sources: seq<Path>, dropped: seq<Path>): seq<Path> {
    if sources == [] then []
    else (if sources[0] in dropped then [] else [sources[0]]) + Without(sources[1..], dropped)
  }

  /** The sources no root's world selects, in order. */
  ghost function Unconfigured(projects: map<Path, Project>, sources: seq<Path>): seq<Path> {
    if sources == [] then []
    else (if Configured(projects, sources[0]) then [] else [sources[0]]) + Unconfigured(projects, sources[1..])
  }

  lemma {:induction false} WithoutConfigured(projects: map<Path, Project>, sources: seq<Path>, configured: seq<Path>)
    requires forall s :: s in configured <==> Configured(projects, s)
    ensures Without(sources, configured) == Unconfigured(projects, sources)
  {
    if sources != [] {
      WithoutConfigured(projects, sources[1..], configured);
    }
  }

  lemma {:induction false} UnconfiguredLists(projects: map<Path, Project>, sources: seq<Path>, source: Path)
    ensures source in Unconfigured(projects, sources) <==> source in sources && !Configured(projects, source)
  {
    if sources != [] {
      UnconfiguredLists(projects, sources[1..], source);
      assert sources == [sources[0]] + sources[1..];
    }
  }

  /** Leaving sources out keeps the others, in order. */
  lemma {:induction false} WithoutKeepsOthers(leq: (Path, Path) -> bool, sources: seq<Path>, dropped: seq<Path>)
    ensures forall s :: s in Without(sources, dropped) <==> s in sources && s !in dropped
    ensures IsSorted(leq, sources) ==> IsSorted(leq, Without(sources, dropped))
    ensures IsDistinct(sources) ==> IsDistinct(Without(sources, dropped))
  {
    if sources != [] {
      var rest := Without(sources[1..], dropped);
      WithoutKeepsOthers(leq, sources[1..], dropped);
      assert sources == [sources[0]] + sources[1..];
      forall k | 0 <= k < |rest|
        ensures IsSorted(leq, sources) ==> leq(sources[0], rest[k])
        ensures IsDistinct(sources) ==> sources[0] != rest[k]
      {
        assert rest[k] in sources[1..];
      }
    }
  }

  /** The world of one root: exactly the configurations it reaches, and exactly their sources. */
  ghost predicate IsWorldOf(projects: map<Path, Project>, leq: (Path, Path) -> bool, sources: seq<Path>,
                            root: Path, world: World) {
    && world.rootConfig == Some(root)
    && IsSorted(leq, world.configClosure) && IsDistinct(world.configClosure)
    && (forall c :: c in world.configClosure <==> Reachable(Links(projects), root, c))
    && IsSorted(leq, world.selectedSourceFiles) && IsDistinct(world.selectedSourceFiles)
    && (forall s :: s in world.selectedSourceFiles <==> Selects(projects, root, s))
    && world.rootSourceFiles == world.selectedSourceFiles
    && world.ignoredSourceFiles == Without(sources, world.selectedSourceFiles)
  }

  /** The sources selected by a list of projects, as `flatMap` gathers them. */
  method Gather(projects: map<Path, Project>, closure: seq<Path>) returns (selected: seq<Path>)
    requires forall c :: c in closure ==> c in projects
    ensures forall s :: s in selected <==> exists c :: c in closure && c in projects && s in projects[c].selectedSourceFiles
  {
    selected := [];
    for i := 0 to |closure|
      invariant forall s :: s in selected <==>
        exists c :: c in closure[..i] && c in projects && s in projects[c].selectedSourceFiles
    {
      assert closure[..i + 1] == closure[..i] + [closure[i]];
      selected := selected + projects[closure[i]].selectedSourceFiles;
    }
    assert closure[..|closure|] == closure;
  }

  method ConfiguredWorld(projects: map<Path, Project>, leq: (Path, Path) -> bool, sources: seq<Path>, root: Path)
    returns (world: World)
    requires TotalOrder(leq) && Closed(Links(projects), projects.Keys) && root in projects
    ensures IsWorldOf(projects, leq, sources, root, world)
  {
    var closure := ClosureFor(projects, leq, root);
    forall c | Reachable(Links(projects), root, c) ensures c in projects {
      ClosedKeepsReachable(Links(projects), projects.Keys, root, c);
    }
    var gathered := Gather(projects, closure.value);
    SortedUniqueLists(leq, gathered);
    var selected := SortedUnique(leq, gathered);
    forall s ensures s in selected <==> Selects(projects, root, s) {
    }
    world := World(Some(root), closure.value, selected, selected, Without(sources, selected));
  }

  /** The roots, each once, in order. */
  ghost predicate AreRoots(projects: map<Path, Project>, leq: (Path, Path) -> bool, roots: seq<Path>) {
    IsSorted(leq, roots) && IsDistinct(roots) && forall c :: c in roots <==> IsRoot(projects, c)
  }

  /** Root selection: the unreferenced, unextended projects, in order. */
  method SelectRoots(projects: map<Path, Project>, leq: (Path, Path) -> bool, order: seq<Path>) returns (roots: seq<Path>)
    requires TotalOrder(leq) && Lists(order, projects)
    ensures AreRoots(projects, leq, roots)
  {
    var kept: seq<Path> := [];
    for i := 0 to |order|
      invariant IsDistinct(kept) && forall c :: c in kept <==> c in order[..i] && IsRoot(projects, c)
    {
      assert order[..i + 1] == order[..i] + [order[i]];
      if IsRoot(projects, order[i]) {
        kept := kept + [order[i]];
      }
    }
    assert order[..|order|] == order;
    SortKeepsDistinct(leq, kept);
    roots := Sort(leq, kept);
  }

  /** The compiler's own choice of sources for a list of loose files. */
  type LooseSelection = seq<Path> -> seq<Path>

  function LooseWorlds(loose: LooseSelection, sources: seq<Path>, left: seq<Path>): seq<World> {
    if left == [] then [] else [World(None, [], left, loose(left), Without(sources, loose(left)))]
  }

  /** There is a loose world exactly when sources are left; these are its roots, it selects
      what the compiler makes of them, and ignores the other sources. */
  lemma LooseWorldsAre(leq: (Path, Path) -> bool, loose: LooseSelection, sources: seq<Path>, left: seq<Path>)
    ensures var worlds := LooseWorlds(loose, sources, left);
            && (worlds == [] <==> left == []) && |worlds| <= 1
            && forall w :: w in worlds ==>
                 && w.rootConfig.None? && w.configClosure == [] && w.rootSourceFiles == left
                 && w.selectedSourceFiles == loose(left)
                 && (forall s :: s in w.ignoredSourceFiles <==> s in sources && s !in loose(left))
                 && (IsSorted(leq, sources) ==> IsSorted(leq, w.ignoredSourceFiles))
  {
    WithoutKeepsOthers(leq, sources, loose(left));
  }

  /** The sources left over are in their order. */
  lemma {:induction false} UnconfiguredKeepsOrder(leq: (Path, Path) -> bool, projects: map<Path, Project>, sources: seq<Path>)
    ensures IsSorted(leq, sources) ==> IsSorted(leq, Unconfigured(projects, sources))
    ensures IsDistinct(sources) ==> IsDistinct(Unconfigured(projects, sources))
  {
    if sources != [] {
      var rest := Unconfigured(projects, sources[1..]);
      UnconfiguredKeepsOrder(leq, projects, sources[1..]);
      forall k | 0 <= k < |rest|
        ensures IsSorted(leq, sources) ==> leq(sources[0], rest[k])
        ensures IsDistinct(sources) ==> sources[0] != rest[k]
      {
        UnconfiguredLists(projects, sources[1..], rest[k]);
      }
    }
  }

  ghost predicate AreWorldsOf(projects: map<Path, Project>, leq: (Path, Path) -> bool, sources: seq<Path>,
                              roots: seq<Path>, worlds: seq<World>) {
    |worlds| == |roots| && forall i :: 0 <= i < |roots| ==> IsWorldOf(projects, leq, sources, roots[i], worlds[i])
  }

  ghost predicate Gathered(projects: map<Path, Project>, roots: seq<Path>, configured: seq<Path>) {
    forall s :: s in configured <==> exists root :: root in roots && Selects(projects, root, s)
  }

  lemma GatheredGrows(projects: map<Path, Project>, roots: seq<Path>, configured: seq<Path>, root: Path, more: seq<Path>)
    requires Gathered(projects, roots, configured) && forall s :: s in more <==> Selects(projects, root, s)
    ensures Gathered(projects, roots + [root], configured + more)
  {
    forall s ensures s in configured + more <==> exists r :: r in roots + [root] && Selects(projects, r, s) {
      if s in configured {
        var r :| r in roots && Selects(projects, r, s);
        assert r in roots + [root];
      } else if s in more {
        assert root in roots + [root];
      }
    }
  }

  lemma GatheredIsConfigured(projects: map<Path, Project>, roots: seq<Path>, configured: seq<Path>)
    requires Gathered(projects, roots, configured) && forall c :: c in roots <==> IsRoot(projects, c)
    ensures forall s :: s in configured <==> Configured(projects, s)
  {
    forall s ensures s in configured <==> Configured(projects, s) {
      if Configured(projects, s) {
        var root :| IsRoot(projects, root) && Selects(projects, root, s);
        assert root in roots;
      }
    }
  }

  /** One world per root, and all the sources they select. */
  method ConfiguredWorlds(projects: map<Path, Project>, leq: (Path, Path) -> bool, sources: seq<Path>, roots: seq<Path>)
    returns (worlds: seq<World>, configured: seq<Path>)
    requires TotalOrder(leq) && Closed(Links(projects), projects.Keys) && forall c :: c in roots ==> c in projects
    ensures AreWorldsOf(projects, leq, sources, roots, worlds) && Gathered(projects, roots, configured)
  {
    worlds, configured := [], [];
    for i := 0 to |roots|
      invariant AreWorldsOf(projects, leq, sources, roots[..i], worlds) && Gathered(projects, roots[..i], configured)
    {
      var world := ConfiguredWorld(projects, leq, sources, roots[i]);
      GatheredGrows(projects, roots[..i], configured, roots[i], world.selectedSourceFiles);
      assert roots[..i + 1] == roots[..i] + [roots[i]];
      worlds := worlds + [world];
      configured := configured + world.selectedSourceFiles;
    }
    assert roots[..|roots|] == roots;
  }

  /** World assembly: it fails exactly when there are projects but no root. Otherwise there
      is one world per root, in order, followed by a loose world for the sources that none
      of them selects, if there are any. */
  method BuildWorlds(projects: map<Path, Project>, leq: (Path, Path) -> bool, order: seq<Path>, sources: seq<Path>,
                     loose: LooseSelection)
    returns (result: Result<seq<World>, ProjectError>, ghost roots: seq<Path>)
    requires TotalOrder(leq) && Lists(order, projects) && Closed(Links(projects), projects.Keys)
    ensures AreRoots(projects, leq, roots)
    ensures result.Failure? <==> projects != map[] && roots == []
    ensures result.Failure? ==> result.error == NoRoot
    ensures result.Success? ==>
      && |roots| <= |result.value|
      && AreWorldsOf(projects, leq, sources, roots, result.value[..|roots|])
      && result.value[|roots|..] == LooseWorlds(loose, sources, Unconfigured(projects, sources))
  {
    var selected := SelectRoots(projects, leq, order);
    roots := selected;
    if selected != [] {
      RootsNeedProjects(projects, selected);
    }
    if projects == map[] {
      NothingConfigured(projects, sources);
      return Success(LooseWorlds(loose, sources, sources)), roots;
    }
    if selected == [] {
      return Failure(NoRoot), roots;
    }
    var worlds, configured := ConfiguredWorlds(projects, leq, sources, selected);
    GatheredIsConfigured(projects, selected, configured);
    WithoutConfigured(projects, sources, configured);
    var left := LooseWorlds(loose, sources, Without(sources, configured));
    assert (worlds + left)[..|roots|] == worlds && (worlds + left)[|roots|..] == left;
    return Success(worlds + left), roots;
  }

  lemma {:induction false} NothingConfigured(projects: map<Path, Project>, sources: seq<Path>)
    requires projects == map[]
    ensures Unconfigured(projects, sources) == sources
  {
    if sources != [] {
      NothingConfigured(projects, sources[1..]);
      assert !Configured(projects, sources[0]);
    }
  }

  lemma RootsNeedProjects(projects: map<Path, Project>, roots: seq<Path>)
    requires roots != [] && forall c :: c in roots ==> IsRoot(projects, c)
    ensures projects != map[]
  {
    assert IsRoot(projects, roots[0]);
  }

  lemma CoveredIsConfigured(projects: map<Path, Project>, config: Path, source: Path)
    requires config in projects && Covered(projects, config) && source in projects[config].selectedSourceFiles
    ensures Configured(projects, source)
  {
    var root :| IsRoot(projects, root) && Reachable(Links(projects), root, config);
    assert Selects(projects, root, source);
  }

  lemma ConfiguredBy(projects: map<Path, Project>, source: Path) returns (config: Path)
    requires Configured(projects, source)
    ensures config in projects && Covered(projects, config) && source in projects[config].selectedSourceFiles
  {
    var root :| IsRoot(projects, root) && Selects(projects, root, source);
    config :| config in projects && Reachable(Links(projects), root, config)
              && source in projects[config].selectedSourceFiles;
  }

  /** A source is left loose exactly when no project that lies in a world selects it. */
  lemma {:induction false} LooseMeansUnselected(projects: map<Path, Project>, sources: seq<Path>, source: Path)
    requires source in sources
    ensures source in Unconfigured(projects, sources)
       <==> forall c :: c in projects && Covered(projects, c) ==> source !in projects[c].selectedSourceFiles
  {
    UnconfiguredLists(projects, sources, source);
    if Configured(projects, source) {
      var config := ConfiguredBy(projects, source);
    } else {
      forall c | c in projects && Covered(projects, c) ensures source !in projects[c].selectedSourceFiles {
        if source in projects[c].selectedSourceFiles {
          CoveredIsConfigured(projects, c, source);
        }
      }
    }
  }

  /** The whole script, from sorted input configurations to worlds. It fails exactly when a
      needed configuration does not parse, or all projects exist but none is a root. */
  method ProjectModel(parse: Parser, leq: (Path, Path) -> bool, configs: seq<Path>, sourceFiles: seq<Path>,
                      loose: LooseSelection, ghost files: set<Path>)
    returns (result: Result<seq<World>, ProjectError>, ghost projects: map<Path, Project>, ghost roots: seq<Path>)
    requires TotalOrder(leq) && Closed(Parsed(parse), files) && Inside(files, configs)
    ensures result.Failure? && result.error.NotParsed? ==>
      exists c :: Needed(parse, SortedUnique(leq, configs), c) && parse(c).None?
    ensures result.Success? || result.error.NoRoot? ==>
      && (forall c :: c in projects <==> Needed(parse, SortedUnique(leq, configs), c))
      && (forall c :: c in projects ==> parse(c) == Some(projects[c]))
    ensures result.Failure? && result.error.NoRoot? ==> projects != map[] && forall c :: !IsRoot(projects, c)
    ensures result.Success? ==>
      var sources := SortedUnique(leq, sourceFiles);
      && AreRoots(projects, leq, roots)
      && (projects != map[] ==> roots != []) && |roots| <= |result.value|
      && AreWorldsOf(projects, leq, sources, roots, result.value[..|roots|])
      && result.value[|roots|..] == LooseWorlds(loose, sources, Unconfigured(projects, sources))
  {
    var inputs := SortedUnique(leq, configs);
    SortedUniqueLists(leq, configs);
    projects, roots := map[], [];
    var discovered := Discover(parse, leq, inputs, files);
    if discovered.Failure? {
      return Failure(NotParsed(discovered.error)), projects, roots;
    }
    var (found, order) := discovered.value;
    projects := found;
    DiscoveredIsClosed(parse, inputs, found);
    result, roots := BuildWorlds(found, leq, order, SortedUnique(leq, sourceFiles), loose);
  }
}
