/** Remembering reaches the whole family, and what keeps a family's lifetimes alike. */
module GrantLifetimes {

  import opened Grants
  import opened GrantLineage
  import opened GrantRuns

  /** Held members of one family share one lifetime. */
  ghost predicate Uniform(s: State) {
    forall a, b | a in s.grants && b in s.grants && s.grants[a].root == s.grants[b].root ::
      s.grants[a].lifetime == s.grants[b].lifetime
  }

  /** A root that is remembered takes every held member of its family with it, and no other grant. */
  lemma RememberReachesFamily(s: State, id: GrantId)
    requires Remembrance(s, id).Ok?
    ensures Kept(s, id).grants.Keys == s.grants.Keys
    ensures forall g | g in s.grants ::
              Kept(s, id).grants[g] == if s.grants[g].root == s.grants[id].root
                                       then s.grants[g].(lifetime := Remembered) else s.grants[g]
    ensures Uniform(s) ==> Uniform(Kept(s, id))
  {
  }

  /** Every held member of a copy's family has the lifetime the copy was taken with. */
  ghost predicate Agrees(s: State, copy: Grant) {
    forall g | g in s.grants && s.grants[g].root == copy.root :: s.grants[g].lifetime == copy.lifetime
  }

  /** A derivation keeps the families alike exactly when the copy it came from agrees with the members still
      held, whether or not the copy's own handle is: a copy taken before its family was remembered derives a
      child that is not. */
  lemma DerivationUniformExactly(w: World, id: GrantId, rights: Rights, parent: Grant)
    requires Traced(w) && Uniform(w.state) && Enabled(w, RecordDescendant(id, rights, parent))
    requires Derives(w.state, parent)
    ensures Uniform(RecordedDescendant(w.state, id, rights, parent)) <==> Agrees(w.state, parent)
  {
    var before, after := w.state.grants, RecordedDescendant(w.state, id, rights, parent).grants;
    assert id !in before by {
      if id in before {
        LoggedRoot(w.log, before[id]);
      }
    }
    assert after[id].lifetime == parent.lifetime && after[id].root == parent.root;
    forall g | g in before ensures g in after && after[g] == before[g] {
    }
    if Agrees(w.state, parent) {
      forall a, b | a in after && b in after && after[a].root == after[b].root
        ensures after[a].lifetime == after[b].lifetime
      {
        assert a != id ==> after[a] == before[a];
        assert b != id ==> after[b] == before[b];
      }
    }
  }

  lemma NewRootUniform(w: World, id: GrantId, rights: Rights, origin: Origin, lifetime: Lifetime)
    requires Traced(w) && Uniform(w.state) && !LoggedId(w.log, id)
    ensures Uniform(RecordedRoot(w.state, id, rights, origin, lifetime))
  {
    forall g | g in w.state.grants ensures g != id && w.state.grants[g].root != id {
      LoggedRoot(w.log, w.state.grants[g]);
    }
  }

  /** A step that rewrites only flags, or drops grants, keeps families alike. */
  lemma LifetimesKept(before: State, after: State)
    requires Uniform(before)
    requires forall g | g in after.grants :: g in before.grants && after.grants[g].root == before.grants[g].root
                                             && after.grants[g].lifetime == before.grants[g].lifetime
    ensures Uniform(after)
  {
  }

  /** Every other step keeps families alike. */
  lemma OtherStepsUniform(w: World, e: Event)
    requires Traced(w) && Uniform(w.state) && Enabled(w, e) && !e.RecordDescendant?
    ensures Uniform(NextState(w.state, e))
  {
    match e
    case RecordRoot(id, rights, origin, lifetime) => NewRootUniform(w, id, rights, origin, lifetime);
    case Remember(id) =>
      if Remembrance(w.state, id).Ok? {
        RememberReachesFamily(w.state, id);
      }
    case _ => LifetimesKept(w.state, NextState(w.state, e));
  }

  /** A derivation that succeeds from a copy out of date with its family. */
  ghost predicate Diverges(s: State, e: Event) {
    e.RecordDescendant? && Derives(s, e.parent) && !Agrees(s, e.parent)
  }

  lemma StepUniformExactly(w: World, e: Event, w': World)
    requires Traced(w) && Uniform(w.state) && Step(w, e, w')
    ensures Uniform(w'.state) <==> !Diverges(w.state, e)
  {
    if e.RecordDescendant? {
      if Derives(w.state, e.parent) {
        DerivationUniformExactly(w, e.id, e.rights, e.parent);
      }
    } else {
      OtherStepsUniform(w, e);
    }
  }

  /** On every run: the held members of each family share one lifetime throughout, exactly when no step
      derives from a copy out of date with its family. */
  lemma AlwaysUniformExactly(worlds: seq<World>, events: seq<Event>)
    requires IsRun(worlds, events)
    ensures (forall n | 0 <= n < |worlds| :: Uniform(worlds[n].state)) <==>
            (forall i | 0 <= i < |events| :: !Diverges(worlds[i].state, events[i]))
  {
    if forall n | 0 <= n < |worlds| :: Uniform(worlds[n].state) {
      forall i | 0 <= i < |events| ensures !Diverges(worlds[i].state, events[i]) {
        RunTraced(worlds, events, i);
        StepUniformExactly(worlds[i], events[i], worlds[i + 1]);
      }
    } else if forall i | 0 <= i < |events| :: !Diverges(worlds[i].state, events[i]) {
      for n := 0 to |events|
        invariant forall m | 0 <= m <= n :: Uniform(worlds[m].state)
      {
        RunTraced(worlds, events, n);
        StepUniformExactly(worlds[n], events[n], worlds[n + 1]);
      }
    }
  }

  /** A copy accepted before its root was remembered, and used after the root's handle was released beside
      a remembered sibling, leaves a family with two lifetimes. */
  lemma StaleCopyDiverges()
    ensures exists w :: Reached(w) && !Uniform(w.state)
  {
    var root, sibling, child := GrantId(Directory, 0), GrantId(Document, 0), GrantId(Document, 1);
    var copy := RootGrant(root, {Derive}, TrustedSelection(Brokered), Session);
    var w := SiblingDerived(root, sibling, copy);
    assert w.log[0].id == root && w.log[1].id == sibling;
    NextReached(w, Remember(root));
    var kept := Next(w, Remember(root));
    assert Remembrance(w.state, root).Ok?;
    NextReached(kept, Release(root));
    var released := Next(kept, Release(root));
    assert released.state.grants[sibling].lifetime == Remembered && released.log == w.log;
    NextReached(released, RecordDescendant(child, {}, copy));
    var derived := Next(released, RecordDescendant(child, {}, copy));
    assert derived.state.grants[sibling].lifetime == Remembered && derived.state.grants[child].lifetime == Session;
    assert derived.state.grants[sibling].root == derived.state.grants[child].root;
  }

  lemma RootRecorded(root: GrantId) returns (w: World, grant: Grant)
    ensures Reached(w) && w.log == [grant] && w.state.grants == map[root := grant] && w.copies == {}
    ensures grant == RootGrant(root, {Derive}, TrustedSelection(Brokered), Session)
    ensures w.state.revokedRoots == {} && w.state.withdrawn == multiset{}
  {
    grant := RootGrant(root, {Derive}, TrustedSelection(Brokered), Session);
    StartReached();
    NextReached(START, RecordRoot(root, {Derive}, TrustedSelection(Brokered), Session));
    w := Next(START, RecordRoot(root, {Derive}, TrustedSelection(Brokered), Session));
  }

  /** A root is recorded and accepted, and a sibling derives from the copy. */
  lemma SiblingDerived(root: GrantId, sibling: GrantId, copy: Grant) returns (w: World)
    requires root != sibling && copy == RootGrant(root, {Derive}, TrustedSelection(Brokered), Session)
    ensures Reached(w) && w.log == [copy, ChildGrant(sibling, {}, copy)] && w.copies == {copy}
    ensures w.state.grants == map[root := copy, sibling := ChildGrant(sibling, {}, copy)]
    ensures w.state.revokedRoots == {}
  {
    var recorded, _ := RootRecorded(root);
    var accepted := Next(recorded, Accept(root, {}));
    NextReached(recorded, Accept(root, {}));
    assert accepted.copies == {copy} && accepted.log == [copy] && accepted.log[0].id == root;
    w := Next(accepted, RecordDescendant(sibling, {}, copy));
    NextReached(accepted, RecordDescendant(sibling, {}, copy));
  }
}
