/** Revocation is final: what a run's history says was taken away, the registry never gives back. */
module GrantRevocation {

  import opened Wrappers
  import opened Grants
  import opened GrantLineage
  import opened GrantRuns

  /** The step revokes the family of `root` through a member it found: a held grant, of whatever kind,
      whose chain of parents ends at `root`. */
  ghost predicate RevokesFamily(w: World, e: Event, root: GrantId) {
    exists id ::
      && id in w.state.grants && Descends(w.log, id, root)
      && (e == MarkRevoked(id) || e == MarkKindRevoked(root.kind))
  }

  /** Step `i` revoked the family, and its kind was not forgotten between then and step `n`. */
  ghost predicate RevokedAt(worlds: seq<World>, events: seq<Event>, root: GrantId, i: int, n: int) {
    && 0 <= i < n <= |events| == |worlds| - 1
    && RevokesFamily(worlds[i], events[i], root)
    && forall k | i < k < n :: events[k] != ForgetKind(root.kind)
  }

  ghost predicate RevokedSince(worlds: seq<World>, events: seq<Event>, root: GrantId, n: int) {
    exists i :: RevokedAt(worlds, events, root, i, n)
  }

  /** A logged grant's walk ends at its stored root and nowhere else. */
  lemma LoggedDescends(log: Log, grant: Grant, root: GrantId)
    requires Lineage(log) && Logged(log, grant)
    ensures Descends(log, grant.id, root) <==> grant.root == root
  {
    var i :| 0 <= i < |log| && SameAuthority(log[i], grant);
    StoredRootIsWalked(log, i, root);
  }

  /** The roots a marking step takes are those of the families it found a member of. */
  lemma TakingIsRevoking(w: World, e: Event, root: GrantId)
    requires Traced(w)
    ensures root in Taking(w.state, e) <==> RevokesFamily(w, e, root)
  {
    forall id | id in w.state.grants
      ensures Descends(w.log, id, root) <==> w.state.grants[id].root == root
    {
      LoggedDescends(w.log, w.state.grants[id], root);
    }
    if root in Taking(w.state, e) {
      if e.MarkRevoked? {
        assert RevokesFamily(w, e, root);
      } else {
        var id :| id in w.state.grants && w.state.grants[id].root == root && e == MarkKindRevoked(root.kind);
        assert Descends(w.log, id, root);
      }
    }
  }

  lemma DurableStep(s: State, e: Event, root: GrantId)
    ensures root in NextState(s, e).revokedRoots <==>
              root in Taking(s, e) || (root in s.revokedRoots && e != ForgetKind(root.kind))
  {
  }

  /** One step's effect on the durable set. */
  lemma RevokedRootsStep(w: World, e: Event, w': World, root: GrantId)
    requires Traced(w) && Step(w, e, w')
    ensures root in w'.state.revokedRoots <==>
              RevokesFamily(w, e, root) || (root in w.state.revokedRoots && e != ForgetKind(root.kind))
  {
    TakingIsRevoking(w, e, root);
    DurableStep(w.state, e, root);
  }

  lemma EarlierHolds(worlds: seq<World>, events: seq<Event>, root: GrantId, i: int, n: int)
    requires RevokedAt(worlds, events, root, i, n) && i < n - 1
    ensures RevokedAt(worlds, events, root, i, n - 1) && events[n - 1] != ForgetKind(root.kind)
  {
  }

  lemma LaterHolds(worlds: seq<World>, events: seq<Event>, root: GrantId, i: int, n: int)
    requires RevokedAt(worlds, events, root, i, n - 1) && n <= |events| && events[n - 1] != ForgetKind(root.kind)
    ensures RevokedAt(worlds, events, root, i, n)
  {
  }

  lemma RevokedStays(worlds: seq<World>, events: seq<Event>, root: GrantId, n: nat)
    requires 0 < n <= |events| == |worlds| - 1
    requires RevokedSince(worlds, events, root, n - 1) && events[n - 1] != ForgetKind(root.kind)
    ensures RevokedSince(worlds, events, root, n)
  {
    var i :| RevokedAt(worlds, events, root, i, n - 1);
    LaterHolds(worlds, events, root, i, n);
  }

  lemma RevokedWas(worlds: seq<World>, events: seq<Event>, root: GrantId, n: nat)
    requires 0 < n <= |events| == |worlds| - 1
    requires RevokedSince(worlds, events, root, n) && !RevokesFamily(worlds[n - 1], events[n - 1], root)
    ensures RevokedSince(worlds, events, root, n - 1) && events[n - 1] != ForgetKind(root.kind)
  {
    var i :| RevokedAt(worlds, events, root, i, n);
    EarlierHolds(worlds, events, root, i, n);
  }

  lemma RevokedSinceStep(worlds: seq<World>, events: seq<Event>, root: GrantId, n: nat)
    requires 0 < n <= |events| == |worlds| - 1
    ensures RevokedSince(worlds, events, root, n) <==>
            || RevokesFamily(worlds[n - 1], events[n - 1], root)
            || (RevokedSince(worlds, events, root, n - 1) && events[n - 1] != ForgetKind(root.kind))
  {
    if RevokesFamily(worlds[n - 1], events[n - 1], root) {
      assert RevokedAt(worlds, events, root, n - 1, n);
    } else if RevokedSince(worlds, events, root, n) {
      RevokedWas(worlds, events, root, n);
    } else if RevokedSince(worlds, events, root, n - 1) && events[n - 1] != ForgetKind(root.kind) {
      RevokedStays(worlds, events, root, n);
    }
  }

  /** The same recurrence, for the durable set. */
  lemma RevokedRootsRecur(worlds: seq<World>, events: seq<Event>, root: GrantId, n: nat)
    requires IsRun(worlds, events) && 0 < n <= |events|
    ensures root in worlds[n].state.revokedRoots <==>
              || RevokesFamily(worlds[n - 1], events[n - 1], root)
              || (root in worlds[n - 1].state.revokedRoots && events[n - 1] != ForgetKind(root.kind))
  {
    RunTraced(worlds, events, n - 1);
    RevokedRootsStep(worlds[n - 1], events[n - 1], worlds[n], root);
  }

  /** The durable set is the history: it holds exactly the roots revoked and not forgotten since. */
  lemma {:induction false} RevokedRootsAreHistory(worlds: seq<World>, events: seq<Event>, root: GrantId, n: nat)
    requires IsRun(worlds, events) && n <= |events|
    ensures root in worlds[n].state.revokedRoots <==> RevokedSince(worlds, events, root, n)
  {
    if n == 0 {
      assert worlds[0] == START;
    } else {
      RevokedRootsAreHistory(worlds, events, root, n - 1);
      RevokedSinceStep(worlds, events, root, n);
      RevokedRootsRecur(worlds, events, root, n);
    }
  }

  /** Each outcome of an operation, exactly: unknown when no grant is held; revoked when a family it
      descends from was revoked since its kind was last forgotten; lacking when it is live without the
      rights; and otherwise the held grant. */
  lemma AcceptedExactly(worlds: seq<World>, events: seq<Event>, n: nat, id: GrantId, needs: Rights)
    requires IsRun(worlds, events) && n <= |events|
    ensures var w := worlds[n];
            var outcome := Acceptance(w.state, id, needs);
            && (outcome == Err(Unknown) <==> id !in w.state.grants)
            && (outcome == Err(Revoked) <==>
                  id in w.state.grants &&
                  exists root :: Descends(w.log, id, root) && RevokedSince(worlds, events, root, n))
            && (outcome.Ok? <==>
                  && id in w.state.grants && needs <= w.state.grants[id].rights
                  && forall root | Descends(w.log, id, root) :: !RevokedSince(worlds, events, root, n))
            && (outcome.Ok? ==> outcome.value == w.state.grants[id] && !outcome.value.revoked)
  {
    var w := worlds[n];
    RunTraced(worlds, events, n);
    if id in w.state.grants {
      var grant := w.state.grants[id];
      LoggedDescends(w.log, grant, grant.root);
      RevokedRootsAreHistory(worlds, events, grant.root, n);
      forall root | Descends(w.log, id, root) ensures root == grant.root {
        LoggedDescends(w.log, grant, root);
      }
    }
  }

  /** A copy derives exactly when it carries the right to, and no family it descends from was revoked
      since: however long the caller held it, and whether or not its handle was released. */
  lemma DerivesExactly(worlds: seq<World>, events: seq<Event>, n: nat, copy: Grant)
    requires IsRun(worlds, events) && n <= |events| && copy in worlds[n].copies
    ensures Derives(worlds[n].state, copy) <==>
              && Derive in copy.rights
              && forall root | Descends(worlds[n].log, copy.id, root) :: !RevokedSince(worlds, events, root, n)
  {
    var w := worlds[n];
    RunTraced(worlds, events, n);
    LoggedDescends(w.log, copy, copy.root);
    RevokedRootsAreHistory(worlds, events, copy.root, n);
    forall root | Descends(w.log, copy.id, root) ensures root == copy.root {
      LoggedDescends(w.log, copy, root);
    }
  }

  /** Once a family is revoked, and until its kind is forgotten: no operation on any of its handles is
      accepted or remembered, no copy of any of its members derives, every held member is flagged, and
      revoking it again, through any member or by kind, flags no member of it. */
  lemma RevocationIsFinal(worlds: seq<World>, events: seq<Event>, n: nat, root: GrantId)
    requires IsRun(worlds, events) && n <= |events| && RevokedSince(worlds, events, root, n)
    ensures var w := worlds[n];
            && (forall id, needs | Descends(w.log, id, root) :: Acceptance(w.state, id, needs).Err?)
            && (forall id | Descends(w.log, id, root) :: Remembrance(w.state, id).Err?)
            && (forall copy | copy in w.copies && Descends(w.log, copy.id, root) :: !Derives(w.state, copy))
            && (forall id | id in w.state.grants && Descends(w.log, id, root) :: w.state.grants[id].revoked)
            && NewlyFlagged(w.state.grants, {root}) == {} && Marked(w.state, {root}).revoked == w.state.revoked
  {
    var w := worlds[n];
    RunTraced(worlds, events, n);
    RevokedRootsAreHistory(worlds, events, root, n);
    forall id | id in w.state.grants && Descends(w.log, id, root) ensures w.state.grants[id].root == root {
      LoggedDescends(w.log, w.state.grants[id], root);
    }
    forall copy | copy in w.copies && Descends(w.log, copy.id, root) ensures copy.root == root {
      LoggedDescends(w.log, copy, root);
    }
  }

  /** Origins are inherited: on every run a held grant, and every copy, has the origin of the root grant
      it descends from, so provisioned authority never yields a grant claiming a person's choice. */
  lemma OriginsAreInherited(worlds: seq<World>, events: seq<Event>, n: nat, grant: Grant)
    requires IsRun(worlds, events) && n <= |events|
    requires || grant in worlds[n].copies
             || (grant.id in worlds[n].state.grants && worlds[n].state.grants[grant.id] == grant)
    ensures exists r :: 0 <= r < |worlds[n].log| &&
              var source := worlds[n].log[r];
              source.id == grant.root && source.parent == None && source.origin == grant.origin
  {
    var log := worlds[n].log;
    RunTraced(worlds, events, n);
    var i :| 0 <= i < |log| && SameAuthority(log[i], grant);
    var chain := ChainExists(log, i);
    ChainEndsAtStoredRoot(log, chain);
    assert log[chain[|chain| - 1]].id == grant.root;
  }
}
