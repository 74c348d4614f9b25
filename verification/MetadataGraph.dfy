/** The Cargo metadata graph a host build is bound to (`scripts/cargo_build_evidence.py`):
    a worklist walk over dependencies that are not only development dependencies. */
module MetadataGraph {

  import opened Wrappers

  type Identity = string

  datatype Package = Package(id: Identity, name: string, source: Option<string>)
  /** `kinds` holds each dependency kind; Cargo writes a normal dependency's kind as null. */
  datatype Dependency = Dependency(pkg: Identity, kinds: seq<Option<string>>)
  datatype Node = Node(id: Identity, deps: seq<Dependency>)
  datatype Metadata = Metadata(packages: seq<Package>, workspaceMembers: seq<Identity>, nodes: seq<Node>)

  datatype GraphError = DuplicatePackage | NoHostPackage | DuplicateNode | IncompleteGraph
  datatype Graph = Graph(root: Identity, reachable: set<Identity>)

  const HOST_PACKAGE := "roc-gui-host"

  predicate IsHost(package: Package) {
    package.name == HOST_PACKAGE && package.source == None
  }

  /** Some kind of the dependency is not a development dependency. */
  predicate Built(dependency: Dependency) {
    exists k :: 0 <= k < |dependency.kinds| && dependency.kinds[k] != Some("dev")
  }

  ghost predicate Distinct(ids: seq<Identity>) {
    forall i, j | 0 <= i < j < |ids| :: ids[i] != ids[j]
  }

  function Members(ids: seq<Identity>): set<Identity> {
    set i | 0 <= i < |ids| :: ids[i]
  }

  function PackageIds(packages: seq<Package>): seq<Identity> {
    seq(|packages|, i requires 0 <= i < |packages| => packages[i].id)
  }

  function NodeIds(nodes: seq<Node>): seq<Identity> {
    seq(|nodes|, i requires 0 <= i < |nodes| => nodes[i].id)
  }

  ghost predicate DistinctPackages(metadata: Metadata) {
    Distinct(PackageIds(metadata.packages))
  }

  ghost predicate DistinctNodes(metadata: Metadata) {
    Distinct(NodeIds(metadata.nodes))
  }

  /** `root` is the identity of the one host package, and the workspace lists it. */
  ghost predicate HostRoot(metadata: Metadata, root: Identity) {
    && root in metadata.workspaceMembers
    && (exists i :: 0 <= i < |metadata.packages| && IsHost(metadata.packages[i]) && metadata.packages[i].id == root)
    && OneHostAtMost(metadata.packages)
  }

  ghost predicate Edge(metadata: Metadata, from: Identity, to: Identity) {
    exists n, d :: 0 <= n < |metadata.nodes| && metadata.nodes[n].id == from &&
      0 <= d < |metadata.nodes[n].deps| && metadata.nodes[n].deps[d].pkg == to && Built(metadata.nodes[n].deps[d])
  }

  /** A walk along built dependencies. */
  ghost predicate IsPath(metadata: Metadata, path: seq<Identity>) {
    path != [] && forall i | 0 < i < |path| :: Edge(metadata, path[i - 1], path[i])
  }

  ghost predicate Reaches(metadata: Metadata, root: Identity, identity: Identity) {
    exists path :: IsPath(metadata, path) && path[0] == root && path[|path| - 1] == identity
  }

  /** Some node and some package carry the identity. */
  predicate Described(metadata: Metadata, identity: Identity) {
    identity in Members(NodeIds(metadata.nodes)) && identity in Members(PackageIds(metadata.packages))
  }

  lemma ReachesSelf(metadata: Metadata, root: Identity)
    ensures Reaches(metadata, root, root)
  {
    assert IsPath(metadata, [root]);
  }

  lemma ReachesStep(metadata: Metadata, root: Identity, from: Identity, to: Identity)
    requires Reaches(metadata, root, from) && Edge(metadata, from, to)
    ensures Reaches(metadata, root, to)
  {
    var path :| IsPath(metadata, path) && path[0] == root && path[|path| - 1] == from;
    var longer := path + [to];
    assert IsPath(metadata, longer) by {
      forall i | 0 < i < |longer| ensures Edge(metadata, longer[i - 1], longer[i]) {
        if i < |path| {
          assert Edge(metadata, path[i - 1], path[i]);
        }
      }
    }
  }

  /** A set that holds the root and the targets of its own edges holds everything reachable. */
  lemma {:induction false} ClosedHoldsReachable(
    metadata: Metadata, root: Identity, closed: set<Identity>, path: seq<Identity>)
    requires root in closed
    requires forall from, to | from in closed && Edge(metadata, from, to) :: to in closed
    requires IsPath(metadata, path) && path[0] == root
    ensures path[|path| - 1] in closed
  {
    if |path| > 1 {
      var shorter := path[..|path| - 1];
      assert forall i | 0 < i < |shorter| :: Edge(metadata, shorter[i - 1], path[i]);
      ClosedHoldsReachable(metadata, root, closed, shorter);
      assert Edge(metadata, path[|path| - 2], path[|path| - 1]);
    }
  }

  /** What the walk has done: everything visited is reachable and described, everything pending is
      reachable, and every edge out of the visited leads to the visited or the pending. */
  ghost predicate Walking(metadata: Metadata, root: Identity, visited: set<Identity>, pending: seq<Identity>) {
    && (forall v | v in visited :: Described(metadata, v) && Reaches(metadata, root, v))
    && (forall p | p in pending :: Reaches(metadata, root, p))
    && (root in visited || root in pending)
    && forall from, to | from in visited && Edge(metadata, from, to) :: to in visited || to in pending
  }

  /** The last occurrence of a pending identity is dropped: it was visited already. */
  lemma SkipVisited(metadata: Metadata, root: Identity, visited: set<Identity>, pending: seq<Identity>)
    requires Walking(metadata, root, visited, pending)
    requires pending != [] && pending[|pending| - 1] in visited
    ensures Walking(metadata, root, visited, pending[..|pending| - 1])
  {
    assert pending == pending[..|pending| - 1] + [pending[|pending| - 1]];
  }

  lemma Visit(metadata: Metadata, root: Identity, visited: set<Identity>, pending: seq<Identity>,
              successors: seq<Identity>)
    requires Walking(metadata, root, visited, pending)
    requires pending != [] && Described(metadata, pending[|pending| - 1])
    requires forall to :: to in successors <==> Edge(metadata, pending[|pending| - 1], to)
    ensures Walking(metadata, root, visited + {pending[|pending| - 1]}, pending[..|pending| - 1] + successors)
  {
    var last, rest := pending[|pending| - 1], pending[..|pending| - 1];
    assert pending == rest + [last];
    forall p | p in rest + successors ensures Reaches(metadata, root, p) {
      if p in successors {
        ReachesStep(metadata, root, last, p);
      }
    }
  }

  /** The loop comprehension of the walk: the targets of a node's built dependencies, in order. */
  function BuiltTargets(deps: seq<Dependency>): (targets: seq<Identity>)
    ensures forall to :: to in targets <==>
              exists d :: 0 <= d < |deps| && deps[d].pkg == to && Built(deps[d])
  {
    if deps == [] then []
    else
      assert deps == [deps[0]] + deps[1..];
      (if Built(deps[0]) then [deps[0].pkg] else []) + BuiltTargets(deps[1..])
  }

  /** The dictionary of packages by identity; a later package of the same identity would win. */
  function PackageIndex(packages: seq<Package>): map<Identity, Package> {
    if packages == [] then map[]
    else
      var last := |packages| - 1;
      PackageIndex(packages[..last])[packages[last].id := packages[last]]
  }

  function NodeIndex(nodes: seq<Node>): map<Identity, Node> {
    if nodes == [] then map[]
    else
      var last := |nodes| - 1;
      NodeIndex(nodes[..last])[nodes[last].id := nodes[last]]
  }

  lemma {:induction false} PackageIndexKeys(packages: seq<Package>)
    ensures PackageIndex(packages).Keys == Members(PackageIds(packages))
  {
    if packages != [] {
      var last := |packages| - 1;
      PackageIndexKeys(packages[..last]);
      assert PackageIds(packages)[..last] == PackageIds(packages[..last]);
      MembersSnoc(PackageIds(packages));
    }
  }

  lemma {:induction false} NodeIndexKeys(nodes: seq<Node>)
    ensures NodeIndex(nodes).Keys == Members(NodeIds(nodes))
    ensures forall id | id in NodeIndex(nodes) ::
              exists n :: 0 <= n < |nodes| && nodes[n] == NodeIndex(nodes)[id] && nodes[n].id == id
  {
    if nodes != [] {
      var last := |nodes| - 1;
      NodeIndexKeys(nodes[..last]);
      assert NodeIds(nodes)[..last] == NodeIds(nodes[..last]);
      MembersSnoc(NodeIds(nodes));
      forall id | id in NodeIndex(nodes)
        ensures exists n :: 0 <= n < |nodes| && nodes[n] == NodeIndex(nodes)[id] && nodes[n].id == id
      {
        if id != nodes[last].id {
          var n :| 0 <= n < last && nodes[..last][n] == NodeIndex(nodes[..last])[id] && nodes[..last][n].id == id;
          assert nodes[n] == NodeIndex(nodes)[id];
        }
      }
    }
  }

  lemma MembersSnoc(ids: seq<Identity>)
    requires ids != []
    ensures Members(ids) == Members(ids[..|ids| - 1]) + {ids[|ids| - 1]}
  {
    var last := |ids| - 1;
    assert ids == ids[..last] + [ids[last]];
    forall id | id in Members(ids) ensures id in Members(ids[..last]) + {ids[last]} {
      var i :| 0 <= i <= last && ids[i] == id;
      if i < last {
        assert ids[..last][i] == id;
      }
    }
  }

  lemma DistinctSnoc(ids: seq<Identity>)
    requires ids != []
    ensures Distinct(ids) <==> Distinct(ids[..|ids| - 1]) && ids[|ids| - 1] !in Members(ids[..|ids| - 1])
  {
    var last := |ids| - 1;
    var rest := ids[..last];
    if ids[last] in Members(rest) {
      var i :| 0 <= i < last && rest[i] == ids[last];
      assert ids[i] == ids[last];
    } else {
      assert forall i | 0 <= i < last :: ids[i] == rest[i] && rest[i] in Members(rest);
    }
  }

  /** The size test of the source is a test for duplicate identities. */
  lemma {:induction false} SizeTest(ids: seq<Identity>)
    ensures |Members(ids)| <= |ids|
    ensures |Members(ids)| == |ids| <==> Distinct(ids)
  {
    if ids != [] {
      SizeTest(ids[..|ids| - 1]);
      MembersSnoc(ids);
      DistinctSnoc(ids);
    }
  }

  lemma PackageSizeTest(metadata: Metadata)
    ensures |PackageIndex(metadata.packages)| == |metadata.packages| <==> DistinctPackages(metadata)
  {
    SizeTest(PackageIds(metadata.packages));
    PackageIndexKeys(metadata.packages);
  }

  lemma NodeSizeTest(metadata: Metadata)
    ensures |NodeIndex(metadata.nodes)| == |metadata.nodes| <==> DistinctNodes(metadata)
  {
    SizeTest(NodeIds(metadata.nodes));
    NodeIndexKeys(metadata.nodes);
  }

  lemma IndexesDescribe(metadata: Metadata, identity: Identity)
    ensures Described(metadata, identity) <==>
            identity in NodeIndex(metadata.nodes) && identity in PackageIndex(metadata.packages)
  {
    NodeIndexKeys(metadata.nodes);
    PackageIndexKeys(metadata.packages);
  }

  lemma TargetsAreEdges(metadata: Metadata, identity: Identity)
    requires DistinctNodes(metadata) && identity in NodeIndex(metadata.nodes)
    ensures forall to :: to in BuiltTargets(NodeIndex(metadata.nodes)[identity].deps) <==> Edge(metadata, identity, to)
  {
    NodeIndexKeys(metadata.nodes);
    var node := NodeIndex(metadata.nodes)[identity];
    var n :| 0 <= n < |metadata.nodes| && metadata.nodes[n] == node && metadata.nodes[n].id == identity;
    forall i | 0 <= i < |metadata.nodes| && metadata.nodes[i].id == identity ensures i == n {
      assert NodeIds(metadata.nodes)[i] == NodeIds(metadata.nodes)[n];
    }
  }

  /** The worklist of `metadata_graph`, from an admitted root. */
  method Walk(metadata: Metadata, root: Identity) returns (result: Result<set<Identity>, GraphError>)
    requires DistinctNodes(metadata)
    ensures result == Err(IncompleteGraph) || result.Ok?
    ensures result.Err? <==> exists lost :: Reaches(metadata, root, lost) && !Described(metadata, lost)
    ensures result.Ok? ==> forall identity :: identity in result.value <==> Reaches(metadata, root, identity)
  {
    var packages, nodes := PackageIndex(metadata.packages), NodeIndex(metadata.nodes);
    var reachable, pending := {}, [root];
    ReachesSelf(metadata, root);
    while pending != []
      invariant Walking(metadata, root, reachable, pending)
      invariant reachable <= nodes.Keys
      decreases nodes.Keys - reachable, |pending|
    {
      var identity := pending[|pending| - 1];
      if identity in reachable {
        SkipVisited(metadata, root, reachable, pending);
        pending := pending[..|pending| - 1];
        continue;
      }
      IndexesDescribe(metadata, identity);
      if identity !in nodes || identity !in packages {
        return Err(IncompleteGraph);
      }
      var targets := BuiltTargets(nodes[identity].deps);
      TargetsAreEdges(metadata, identity);
      Visit(metadata, root, reachable, pending, targets);
      reachable := reachable + {identity};
      pending := pending[..|pending| - 1] + targets;
    }
    WalkIsExact(metadata, root, reachable);
    result := Ok(reachable);
  }

  lemma WalkIsExact(metadata: Metadata, root: Identity, visited: set<Identity>)
    requires Walking(metadata, root, visited, [])
    ensures forall identity :: identity in visited <==> Reaches(metadata, root, identity)
    ensures forall identity :: Reaches(metadata, root, identity) ==> Described(metadata, identity)
  {
    forall identity | Reaches(metadata, root, identity) ensures identity in visited {
      var path :| IsPath(metadata, path) && path[0] == root && path[|path| - 1] == identity;
      ClosedHoldsReachable(metadata, root, visited, path);
    }
  }

  function Hosts(packages: seq<Package>): (hosts: seq<Package>)
    ensures forall h | h in hosts :: IsHost(h)
  {
    if packages == [] then []
    else
      var last := |packages| - 1;
      Hosts(packages[..last]) + (if IsHost(packages[last]) then [packages[last]] else [])
  }

  ghost predicate HasHost(packages: seq<Package>) {
    exists i :: 0 <= i < |packages| && IsHost(packages[i])
  }

  ghost predicate OneHostAtMost(packages: seq<Package>) {
    forall i, j | 0 <= i < j < |packages| :: !(IsHost(packages[i]) && IsHost(packages[j]))
  }

  lemma HasHostSnoc(packages: seq<Package>)
    requires packages != []
    ensures HasHost(packages) <==> HasHost(packages[..|packages| - 1]) || IsHost(packages[|packages| - 1])
  {
    var last := |packages| - 1;
    if HasHost(packages) && !IsHost(packages[last]) {
      var i :| 0 <= i < |packages| && IsHost(packages[i]);
      assert IsHost(packages[..last][i]);
    }
  }

  lemma OneHostSnoc(packages: seq<Package>)
    requires packages != []
    ensures OneHostAtMost(packages) <==>
            && OneHostAtMost(packages[..|packages| - 1])
            && !(IsHost(packages[|packages| - 1]) && HasHost(packages[..|packages| - 1]))
  {
    var last := |packages| - 1;
    var rest := packages[..last];
    assert forall i | 0 <= i < last :: rest[i] == packages[i];
    if !OneHostAtMost(packages) && OneHostAtMost(rest) {
      var i, j :| 0 <= i < j < |packages| && IsHost(packages[i]) && IsHost(packages[j]);
      assert IsHost(rest[i]);
    }
  }

  lemma {:induction false} HostCount(packages: seq<Package>)
    ensures |Hosts(packages)| == 0 <==> !HasHost(packages)
    ensures |Hosts(packages)| <= 1 <==> OneHostAtMost(packages)
    ensures forall h :: h in Hosts(packages) ==> h in packages
  {
    if packages != [] {
      HostCount(packages[..|packages| - 1]);
      HasHostSnoc(packages);
      OneHostSnoc(packages);
    }
  }

  lemma HostTest(metadata: Metadata)
    requires |Hosts(metadata.packages)| == 1
    ensures forall root :: HostRoot(metadata, root) <==>
              root == Hosts(metadata.packages)[0].id && root in metadata.workspaceMembers
  {
    HostCount(metadata.packages);
    var host := Hosts(metadata.packages)[0];
    assert host in Hosts(metadata.packages);
    var h :| 0 <= h < |metadata.packages| && metadata.packages[h] == host;
    forall i | 0 <= i < |metadata.packages| && IsHost(metadata.packages[i])
      ensures metadata.packages[i].id == host.id
    {
      assert i == h;
    }
  }

  /** `metadata_graph`: each refusal exactly when its fault is the first one present, and otherwise
      the identities reachable from the host package. */
  method MetadataGraph(metadata: Metadata) returns (result: Result<Graph, GraphError>)
    ensures result == Err(DuplicatePackage) <==> !DistinctPackages(metadata)
    ensures result == Err(NoHostPackage) <==>
            DistinctPackages(metadata) && !exists root :: HostRoot(metadata, root)
    ensures result == Err(DuplicateNode) <==>
            DistinctPackages(metadata) && (exists root :: HostRoot(metadata, root)) && !DistinctNodes(metadata)
    ensures result == Err(IncompleteGraph) <==>
            && DistinctPackages(metadata) && DistinctNodes(metadata)
            && exists root, lost ::
                 HostRoot(metadata, root) && Reaches(metadata, root, lost) && !Described(metadata, lost)
    ensures result.Ok? ==>
              && HostRoot(metadata, result.value.root)
              && forall identity :: identity in result.value.reachable <==>
                                    Reaches(metadata, result.value.root, identity)
  {
    PackageSizeTest(metadata);
    if |PackageIndex(metadata.packages)| != |metadata.packages| {
      return Err(DuplicatePackage);
    }
    var hosts := Hosts(metadata.packages);
    if |hosts| != 1 || hosts[0].id !in metadata.workspaceMembers {
      NoHost(metadata);
      return Err(NoHostPackage);
    }
    var root := hosts[0].id;
    HostTest(metadata);
    assert HostRoot(metadata, root);
    NodeSizeTest(metadata);
    if |NodeIndex(metadata.nodes)| != |metadata.nodes| {
      return Err(DuplicateNode);
    }
    var reachable := Walk(metadata, root);
    result := match reachable
      case Ok(identities) => Ok(Graph(root, identities))
      case Err(error) => Err(error);
  }

  lemma NoHost(metadata: Metadata)
    requires |Hosts(metadata.packages)| != 1 || Hosts(metadata.packages)[0].id !in metadata.workspaceMembers
    ensures !exists root :: HostRoot(metadata, root)
  {
    var hosts := Hosts(metadata.packages);
    HostCount(metadata.packages);
    if |hosts| == 1 {
      HostTest(metadata);
    }
  }
}
