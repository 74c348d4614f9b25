/** Which dependencies a walk follows and which package it starts from, by what changing them changes. */
module GraphLaws {

  import opened Wrappers
  import opened MetadataGraph

  ghost predicate SameEdges(a: Metadata, b: Metadata) {
    forall from, to :: Edge(a, from, to) <==> Edge(b, from, to)
  }

  lemma SameEdgesReachAlike(a: Metadata, b: Metadata, root: Identity)
    requires SameEdges(a, b)
    ensures forall identity :: Reaches(a, root, identity) <==> Reaches(b, root, identity)
  {
    forall path ensures IsPath(a, path) <==> IsPath(b, path) {
    }
    forall identity ensures Reaches(a, root, identity) <==> Reaches(b, root, identity) {
      if path :| IsPath(a, path) && path[0] == root && path[|path| - 1] == identity {
        assert IsPath(b, path);
      }
      if path :| IsPath(b, path) && path[0] == root && path[|path| - 1] == identity {
        assert IsPath(a, path);
      }
    }
  }

  /** A node with one dependency more. */
  function WithDependency(metadata: Metadata, n: nat, dependency: Dependency): Metadata
    requires n < |metadata.nodes|
  {
    var node := metadata.nodes[n];
    metadata.(nodes := metadata.nodes[n := node.(deps := node.deps + [dependency])])
  }

  lemma EdgesWith(metadata: Metadata, n: nat, dependency: Dependency)
    requires n < |metadata.nodes|
    ensures forall from, to :: Edge(WithDependency(metadata, n, dependency), from, to) <==>
              || Edge(metadata, from, to)
              || (from == metadata.nodes[n].id && to == dependency.pkg && Built(dependency))
  {
    var more := WithDependency(metadata, n, dependency);
    assert more.nodes[n].id == metadata.nodes[n].id;
    assert more.nodes[n].deps[|metadata.nodes[n].deps|] == dependency;
    forall from, to ensures Edge(more, from, to) <==>
        || Edge(metadata, from, to)
        || (from == metadata.nodes[n].id && to == dependency.pkg && Built(dependency))
    {
      if Edge(metadata, from, to) {
        var m, d :| 0 <= m < |metadata.nodes| && metadata.nodes[m].id == from &&
                    0 <= d < |metadata.nodes[m].deps| && metadata.nodes[m].deps[d].pkg == to &&
                    Built(metadata.nodes[m].deps[d]);
        assert more.nodes[m].id == from && more.nodes[m].deps[d] == metadata.nodes[m].deps[d];
      }
      if Edge(more, from, to) {
        var m, d :| 0 <= m < |more.nodes| && more.nodes[m].id == from && 0 <= d < |more.nodes[m].deps| &&
                    more.nodes[m].deps[d].pkg == to && Built(more.nodes[m].deps[d]);
        if d < |metadata.nodes[m].deps| {
          assert more.nodes[m].deps[d] == metadata.nodes[m].deps[d] && metadata.nodes[m].id == from;
        }
      }
    }
  }

  /** A dependency that is only a development dependency, or of no kind at all, is as good as none: adding it to
      any node changes nothing that is reached. */
  lemma DevelopmentDoesNotMatter(metadata: Metadata, root: Identity, n: nat, dependency: Dependency)
    requires n < |metadata.nodes|
    requires forall kind | kind in dependency.kinds :: kind == Some("dev")
    ensures forall identity ::
              Reaches(WithDependency(metadata, n, dependency), root, identity) <==> Reaches(metadata, root, identity)
  {
    assert forall k | 0 <= k < |dependency.kinds| :: dependency.kinds[k] in dependency.kinds;
    EdgesWith(metadata, n, dependency);
    SameEdgesReachAlike(metadata, WithDependency(metadata, n, dependency), root);
  }

  lemma {:induction false} PathKept(a: Metadata, b: Metadata, path: seq<Identity>)
    requires IsPath(a, path) && forall from, to | Edge(a, from, to) :: Edge(b, from, to)
    ensures IsPath(b, path)
  {
  }

  lemma ReachedFurther(metadata: Metadata, root: Identity, path: seq<Identity>, i: nat)
    requires i < |path| && Reaches(metadata, root, path[0])
    requires forall k | 0 < k < |path| :: Edge(metadata, path[k - 1], path[k])
    ensures Reaches(metadata, root, path[i])
  {
    if i > 0 {
      ReachedFurther(metadata, root, path, i - 1);
      ReachesStep(metadata, root, path[i - 1], path[i]);
    }
  }

  /** One that is of any other kind besides, null for a normal one, makes everything reachable that is reachable
      from its package, once its node is; and nothing else. */
  lemma {:induction false} AnyOtherKindIsFollowed(
    metadata: Metadata, root: Identity, n: nat, dependency: Dependency, kind: Option<string>, identity: Identity)
    requires n < |metadata.nodes| && kind in dependency.kinds && kind != Some("dev")
    ensures Reaches(WithDependency(metadata, n, dependency), root, identity) <==>
              || Reaches(metadata, root, identity)
              || (Reaches(metadata, root, metadata.nodes[n].id) && Reaches(metadata, dependency.pkg, identity))
  {
    var more, from, to := WithDependency(metadata, n, dependency), metadata.nodes[n].id, dependency.pkg;
    EdgesWith(metadata, n, dependency);
    forall source | Reaches(metadata, source, identity) ensures Reaches(more, source, identity) {
      var path :| IsPath(metadata, path) && path[0] == source && path[|path| - 1] == identity;
      PathKept(metadata, more, path);
    }
    if Reaches(metadata, root, from) && Reaches(metadata, to, identity) {
      var path :| IsPath(metadata, path) && path[0] == root && path[|path| - 1] == from;
      PathKept(metadata, more, path);
      ReachesStep(more, root, from, to);
      var onward :| IsPath(metadata, onward) && onward[0] == to && onward[|onward| - 1] == identity;
      ReachedFurther(more, root, onward, |onward| - 1);
    }
    if Reaches(more, root, identity) {
      var path :| IsPath(more, path) && path[0] == root && path[|path| - 1] == identity;
      FollowedOnce(metadata, more, root, from, to, path);
    }
  }

  lemma {:induction false} FollowedOnce(
    metadata: Metadata, more: Metadata, root: Identity, from: Identity, to: Identity, path: seq<Identity>)
    requires IsPath(more, path) && path[0] == root
    requires forall f, t | Edge(more, f, t) :: Edge(metadata, f, t) || (f == from && t == to)
    ensures var last := path[|path| - 1];
            Reaches(metadata, root, last) || (Reaches(metadata, root, from) && Reaches(metadata, to, last))
  {
    if |path| == 1 {
      ReachesSelf(metadata, root);
    } else {
      var last, shorter := path[|path| - 1], path[..|path| - 1];
      var before := shorter[|shorter| - 1];
      assert forall i | 0 < i < |shorter| :: Edge(more, shorter[i - 1], path[i]);
      FollowedOnce(metadata, more, root, from, to, shorter);
      assert Edge(more, path[|path| - 2], path[|path| - 1]);
      ReachesSelf(metadata, to);
      if Edge(metadata, before, last) {
        if Reaches(metadata, root, before) {
          ReachesStep(metadata, root, before, last);
        } else {
          ReachesStep(metadata, to, before, last);
        }
      }
    }
  }

  /** A package of another name, or one that comes from a registry, is never taken for the host, whatever its
      place in the list. */
  lemma NamesakeIsNotHost(metadata: Metadata, before: nat, package: Package, root: Identity)
    requires before <= |metadata.packages| && (package.name != "roc-gui-host" || package.source.Some?)
    ensures var packages := metadata.packages[..before] + [package] + metadata.packages[before..];
            HostRoot(metadata.(packages := packages), root) <==> HostRoot(metadata, root)
  {
    var packages := metadata.packages[..before] + [package] + metadata.packages[before..];
    assert !IsHost(packages[before]);
    assert forall i | 0 <= i < before :: packages[i] == metadata.packages[i];
    assert forall i | before <= i < |metadata.packages| :: packages[i + 1] == metadata.packages[i];
    assert forall i | before < i < |packages| :: packages[i] == metadata.packages[i - 1];
  }

  /** A package of that name from the workspace is the host exactly when it is listed and there is no other. */
  lemma WorkspaceNamesakeIsHost(metadata: Metadata, id: Identity, root: Identity)
    ensures var packages := metadata.packages + [Package(id, "roc-gui-host", None)];
            HostRoot(metadata.(packages := packages), root) <==>
              root == id && id in metadata.workspaceMembers && forall r :: !SomeHost(metadata.packages, r)
  {
    var host := Package(id, "roc-gui-host", None);
    var packages := metadata.packages + [host];
    var last := |metadata.packages|;
    assert packages[last] == host && IsHost(packages[last]);
    if HostRoot(metadata.(packages := packages), root) {
      forall i | 0 <= i < last ensures !IsHost(metadata.packages[i]) {
        assert packages[i] == metadata.packages[i];
      }
    }
    if forall r :: !SomeHost(metadata.packages, r) {
      forall i | 0 <= i < last ensures !IsHost(packages[i]) {
        assert !SomeHost(metadata.packages, metadata.packages[i].id);
      }
    }
  }

  ghost predicate SomeHost(packages: seq<Package>, id: Identity) {
    exists i :: 0 <= i < |packages| && IsHost(packages[i]) && packages[i].id == id
  }
}
