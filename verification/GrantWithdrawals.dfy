/** What the two revocations tell the recent list to forget: `revoke` goes by the grant it was given, and
    `revoke_kind` by the root grants still held. */
module GrantWithdrawals {

  import opened Wrappers
  import opened Grants
  import opened GrantLineage
  import opened GrantFamilies
  import opened GrantRuns
  import opened GrantLifetimes

  /** The roots one `revoke` after another pushes, once for each call through a remembered grant. */
  function PushedEach(grants: map<GrantId, Grant>, ids: seq<GrantId>): multiset<GrantId>
    requires forall id | id in ids :: id in grants
  {
    if ids == [] then multiset{}
    else
      var last := grants[ids[|ids| - 1]];
      PushedEach(grants, ids[..|ids| - 1]) + if last.lifetime == Remembered then multiset{last.root} else multiset{}
  }

  lemma {:induction false} RevokedEachPushes(s: State, ids: seq<GrantId>)
    requires forall id | id in ids :: id in s.grants
    ensures RevokedEach(s, ids).withdrawn == s.withdrawn + PushedEach(s.grants, ids)
  {
    if ids != [] {
      var rest, last := ids[..|ids| - 1], ids[|ids| - 1];
      assert ids == rest + [last];
      RevokedEachPushes(s, rest);
      RevokedEachMarks(s, rest);
      var done := RevokedEach(s, rest);
      assert done.grants == Flag(s.grants, RootsOf(s.grants, rest));
      assert done.grants[last].lifetime == s.grants[last].lifetime && done.grants[last].root == s.grants[last].root;
      assert done.withdrawn + TargetRemembered(done, last) == RevokedEach(s, ids).withdrawn;
    }
  }

  /** The `i`th call goes through a remembered grant of the family of `root`. */
  predicate Through(grants: map<GrantId, Grant>, ids: seq<GrantId>, i: int, root: GrantId) {
    0 <= i < |ids| && ids[i] in grants && grants[ids[i]].lifetime == Remembered && grants[ids[i]].root == root
  }

  ghost predicate Once(grants: map<GrantId, Grant>, ids: seq<GrantId>, root: GrantId) {
    forall i, j :: Through(grants, ids, i, root) && Through(grants, ids, j, root) ==> i == j
  }

  lemma ThroughLast(grants: map<GrantId, Grant>, ids: seq<GrantId>, root: GrantId)
    requires ids != []
    ensures var rest, hit := ids[..|ids| - 1], Through(grants, ids, |ids| - 1, root);
            && ((exists i :: Through(grants, ids, i, root)) <==> hit || exists i :: Through(grants, rest, i, root))
            && (Once(grants, ids, root) <==>
                  Once(grants, rest, root) && !(hit && exists i :: Through(grants, rest, i, root)))
  {
    var rest, n := ids[..|ids| - 1], |ids| - 1;
    forall i | i != n ensures Through(grants, ids, i, root) <==> Through(grants, rest, i, root) {
    }
    assert !Through(grants, rest, n, root);
    if i :| Through(grants, rest, i, root) {
      assert Through(grants, ids, i, root) && i != n;
    }
    if i, j :| Through(grants, rest, i, root) && Through(grants, rest, j, root) && i != j {
      assert Through(grants, ids, i, root) && Through(grants, ids, j, root);
    }
  }

  lemma {:induction false} PushedThrough(grants: map<GrantId, Grant>, ids: seq<GrantId>, root: GrantId)
    requires forall id | id in ids :: id in grants
    ensures PushedEach(grants, ids)[root] > 0 <==> exists i :: Through(grants, ids, i, root)
    ensures PushedEach(grants, ids)[root] <= 1 <==> Once(grants, ids, root)
  {
    if ids != [] {
      var rest, last := ids[..|ids| - 1], ids[|ids| - 1];
      assert last in ids && forall id | id in rest :: id in ids;
      PushedThrough(grants, rest, root);
      ThroughLast(grants, ids, root);
      assert PushedEach(grants, ids)[root] ==
             PushedEach(grants, rest)[root] + if Through(grants, ids, |ids| - 1, root) then 1 else 0;
    }
  }

  /** The root grant is held, remembered and not flagged. */
  predicate Pending(s: State, root: GrantId) {
    root in s.grants && s.grants[root].root == root && s.grants[root].lifetime == Remembered && !s.grants[root].revoked
  }

  /** Only a root grant is its own root. */
  lemma RootIsItsOwn(w: World, id: GrantId)
    requires Traced(w) && id in w.state.grants
    ensures w.state.grants[id].parent == None <==> w.state.grants[id].root == id
  {
    var grant := w.state.grants[id];
    var i :| 0 <= i < |w.log| && SameAuthority(w.log[i], grant);
    var chain := ChainExists(w.log, i);
    ChainEndsAtStoredRoot(w.log, chain);
    var last := chain[|chain| - 1];
    if last != i {
      DistinctEntries(w.log, last, i);
    }
    assert SoundEntry(w.log[..i], w.log[i]);
  }

  lemma KindPushes(w: World, kind: Kind, root: GrantId)
    requires Traced(w)
    ensures root in KindRemembered(w.state.grants, kind) <==> Pending(w.state, root) && root.kind == kind
  {
    if root in w.state.grants {
      RootIsItsOwn(w, root);
    }
  }

  /** Every call through a remembered grant finds its family's root held, remembered and not flagged. */
  ghost predicate RootsPending(s: State, ids: seq<GrantId>) {
    forall i, root | Through(s.grants, ids, i, root) :: Pending(s, root)
  }

  /** Every such root of the kind has a call through a remembered grant of its family. */
  ghost predicate RootsReached(s: State, ids: seq<GrantId>, kind: Kind) {
    forall root | Pending(s, root) && root.kind == kind :: exists i :: Through(s.grants, ids, i, root)
  }

  lemma ThroughKind(s: State, ids: seq<GrantId>, kind: Kind, i: int, root: GrantId)
    requires Represents(s.grants, ids, kind) && Through(s.grants, ids, i, root)
    ensures root.kind == kind
  {
    assert ids[i] in ids;
  }

  /** `revoke_kind` and `revoke` on representatives of each family push the same roots exactly when each
      remembered representative's root is held, remembered and not flagged, and each such root has a
      remembered representative. */
  lemma KindWithdrawsSameRootsExactly(w: World, ids: seq<GrantId>, kind: Kind)
    requires Traced(w) && Represents(w.state.grants, ids, kind)
    ensures (forall root :: root in PushedEach(w.state.grants, ids) <==> root in KindRemembered(w.state.grants, kind))
            <==> RootsPending(w.state, ids) && RootsReached(w.state, ids, kind)
  {
    forall root
      ensures root in PushedEach(w.state.grants, ids) <==> exists i :: Through(w.state.grants, ids, i, root)
      ensures root in KindRemembered(w.state.grants, kind) <==> Pending(w.state, root) && root.kind == kind
    {
      PushedThrough(w.state.grants, ids, root);
      KindPushes(w, kind, root);
    }
    forall i, root | Through(w.state.grants, ids, i, root) ensures root.kind == kind {
      ThroughKind(w.state, ids, kind, i, root);
    }
  }

  // On runs, a remembered member's root is remembered while it is held.

  ghost predicate RootRemembered(s: State, grant: Grant) {
    grant.lifetime == Remembered && grant.root in s.grants ==> s.grants[grant.root].lifetime == Remembered
  }

  ghost predicate RootsRemembered(w: World) {
    && (forall id | id in w.state.grants :: RootRemembered(w.state, w.state.grants[id]))
    && forall copy | copy in w.copies :: RootRemembered(w.state, copy)
  }

  /** A root that is held is its own root. */
  lemma HeldRoot(w: World, grant: Grant)
    requires Traced(w) && Logged(w.log, grant) && grant.root in w.state.grants
    ensures w.state.grants[grant.root].root == grant.root
  {
    var i :| 0 <= i < |w.log| && SameAuthority(w.log[i], grant);
    var chain := ChainExists(w.log, i);
    ChainEndsAtStoredRoot(w.log, chain);
    var last := chain[|chain| - 1];
    var j :| 0 <= j < |w.log| && SameAuthority(w.log[j], w.state.grants[grant.root]);
    assert w.log[last].id == grant.root && w.log[j].id == grant.root;
    if j < last {
      DistinctEntries(w.log, j, last);
    } else if last < j {
      DistinctEntries(w.log, last, j);
    }
  }

  /** Roots of grants already recorded are not new. */
  lemma RootIsNotNew(w: World, id: GrantId, grant: Grant)
    requires Traced(w) && !LoggedId(w.log, id) && Logged(w.log, grant)
    ensures grant.root != id
  {
    LoggedRoot(w.log, grant);
  }

  /** A new grant, whose own root is remembered if it is, disturbs no other. */
  lemma RecordKeepsRoots(w: World, e: Event, grant: Grant)
    requires Traced(w) && RootsRemembered(w) && Enabled(w, e) && (e.RecordRoot? || e.RecordDescendant?)
    requires grant.id == e.id && Next(w, e).state.grants == w.state.grants[e.id := grant]
    requires RootRemembered(Next(w, e).state, grant)
    ensures RootsRemembered(Next(w, e))
  {
    forall g | (g in w.copies || (g.id in w.state.grants && w.state.grants[g.id] == g))
      ensures RootRemembered(Next(w, e).state, g)
    {
      RootIsNotNew(w, e.id, g);
    }
    forall id | id in Next(w, e).state.grants
      ensures RootRemembered(Next(w, e).state, Next(w, e).state.grants[id])
    {
      assert id != e.id ==> w.state.grants[id].id == id;
    }
  }

  lemma RecordingRemembers(w: World, e: Event)
    requires Traced(w) && RootsRemembered(w) && Enabled(w, e) && (e.RecordRoot? || e.RecordDescendant?)
    ensures RootsRemembered(Next(w, e))
  {
    if e.RecordRoot? {
      RecordKeepsRoots(w, e, RootGrant(e.id, e.rights, e.origin, e.lifetime));
    } else if Derives(w.state, e.parent) {
      RootIsNotNew(w, e.id, e.parent);
      RecordKeepsRoots(w, e, ChildGrant(e.id, e.rights, e.parent));
    }
  }

  /** A step that only drops grants, or changes flags, and takes copies of what is held. */
  lemma LifetimesRemembers(w: World, w': World)
    requires RootsRemembered(w)
    requires forall g | g in w'.state.grants ::
               && g in w.state.grants && w'.state.grants[g].root == w.state.grants[g].root
               && w'.state.grants[g].lifetime == w.state.grants[g].lifetime
    requires forall copy | copy in w'.copies ::
               copy in w.copies || (copy.id in w.state.grants && copy == w.state.grants[copy.id])
    ensures RootsRemembered(w')
  {
    forall g | g in w'.state.grants ensures RootRemembered(w'.state, w'.state.grants[g]) {
      assert RootRemembered(w.state, w.state.grants[g]);
    }
    forall copy | copy in w'.copies ensures RootRemembered(w'.state, copy) {
      assert RootRemembered(w.state, copy);
    }
  }

  lemma RememberingRemembers(w: World, id: GrantId)
    requires Traced(w) && RootsRemembered(w)
    ensures RootsRemembered(Next(w, Remember(id)))
  {
    var s, after := w.state, Next(w, Remember(id));
    if Remembrance(s, id).Ok? {
      var root := s.grants[id].root;
      assert after.state.grants == Keep(s.grants, root);
      forall g | g in s.grants ensures RootRemembered(after.state, after.state.grants[g]) {
        KeptRoot(w, root, s.grants[g]);
      }
      forall copy | copy in w.copies ensures RootRemembered(after.state, copy) {
        KeptRoot(w, root, copy);
      }
      KeptRoot(w, root, s.grants[id]);
    }
  }

  /** Keeping a family keeps its root, if it is held. */
  lemma KeptRoot(w: World, root: GrantId, grant: Grant)
    requires Traced(w) && Logged(w.log, grant) && RootRemembered(w.state, grant)
    ensures var kept := Keep(w.state.grants, root);
            && (grant.lifetime == Remembered || grant.root == root) && grant.root in kept ==>
                 kept[grant.root].lifetime == Remembered
  {
    if grant.root in w.state.grants {
      HeldRoot(w, grant);
    }
  }

  lemma CopiesAreHeld(w: World, e: Event)
    requires Traced(w) && Enabled(w, e) && !e.Remember?
    ensures forall copy | copy in Next(w, e).copies ::
              copy in w.copies || (copy.id in w.state.grants && copy == w.state.grants[copy.id])
  {
  }

  lemma GrantsAreKept(w: World, e: Event)
    requires Traced(w) && Enabled(w, e) && !e.Remember? && !e.RecordRoot? && !e.RecordDescendant?
    ensures forall g | g in Next(w, e).state.grants ::
              && g in w.state.grants && Next(w, e).state.grants[g].root == w.state.grants[g].root
              && Next(w, e).state.grants[g].lifetime == w.state.grants[g].lifetime
  {
  }

  lemma NextRemembers(w: World, e: Event)
    requires Traced(w) && RootsRemembered(w) && Enabled(w, e)
    ensures RootsRemembered(Next(w, e))
  {
    match e
    case RecordRoot(_, _, _, _) => RecordingRemembers(w, e);
    case RecordDescendant(_, _, _) => RecordingRemembers(w, e);
    case Remember(id) => RememberingRemembers(w, id);
    case _ =>
      CopiesAreHeld(w, e);
      GrantsAreKept(w, e);
      LifetimesRemembers(w, Next(w, e));
  }

  lemma StepRemembers(w: World, e: Event, w': World)
    requires Traced(w) && RootsRemembered(w) && Step(w, e, w')
    ensures RootsRemembered(w')
  {
    NextRemembers(w, e);
  }

  /** On every run: the root of a remembered member, or copy of one, is remembered for as long as it is held. */
  lemma {:induction false} RunRootsRemembered(worlds: seq<World>, events: seq<Event>, n: nat)
    requires IsRun(worlds, events) && n <= |events|
    ensures RootsRemembered(worlds[n])
  {
    if n > 0 {
      RunRootsRemembered(worlds, events, n - 1);
      RunTraced(worlds, events, n - 1);
      StepRemembers(worlds[n - 1], events[n - 1], worlds[n]);
    }
  }

  /** Every call through a remembered grant finds its family's root held, and the family not revoked. */
  ghost predicate RootsHeld(s: State, ids: seq<GrantId>) {
    forall i, root | Through(s.grants, ids, i, root) :: root in s.grants && root !in s.revokedRoots
  }

  lemma HeldIsPending(w: World, ids: seq<GrantId>)
    requires Traced(w) && RootsRemembered(w)
    ensures RootsPending(w.state, ids) <==> RootsHeld(w.state, ids)
  {
    forall i, root | Through(w.state.grants, ids, i, root) && root in w.state.grants
      ensures Pending(w.state, root) <==> root !in w.state.revokedRoots
    {
      HeldRoot(w, w.state.grants[ids[i]]);
    }
  }

  /** Where families' lifetimes are alike, a root that is held has a remembered representative. */
  lemma UniformReaches(w: World, ids: seq<GrantId>, kind: Kind)
    requires Traced(w) && Uniform(w.state) && Represents(w.state.grants, ids, kind)
    ensures RootsReached(w.state, ids, kind)
  {
    forall root | Pending(w.state, root) && root.kind == kind
      ensures exists i :: Through(w.state.grants, ids, i, root)
    {
      assert root in RootsOf(w.state.grants, ids);
      var i :| 0 <= i < |ids| && w.state.grants[ids[i]].root == root;
      assert Through(w.state.grants, ids, i, root);
    }
  }

  /** The two leave one and the same registry exactly when they push the same roots as often. */
  lemma PushesDecide(s: State, ids: seq<GrantId>, kind: Kind)
    requires Represents(s.grants, ids, kind)
    ensures RevokedEach(s, ids) == RevokedKindMark(s, kind) <==>
              PushedEach(s.grants, ids) == multiset(KindRemembered(s.grants, kind))
  {
    KindIsEveryFamily(s, ids, kind);
    RevokedEachPushes(s, ids);
    var each, kinds := PushedEach(s.grants, ids), multiset(KindRemembered(s.grants, kind));
    var a, b := RevokedEach(s, ids), RevokedKindMark(s, kind);
    assert a.withdrawn == s.withdrawn + each && b.withdrawn == s.withdrawn + kinds;
    assert a.withdrawn - s.withdrawn == each && b.withdrawn - s.withdrawn == kinds;
    assert a == a.(withdrawn := s.withdrawn).(withdrawn := a.withdrawn);
    assert b == b.(withdrawn := s.withdrawn).(withdrawn := b.withdrawn);
  }

  /** So `revoke_kind` and those calls of `revoke` leave one and the same registry exactly when, besides, no
      family is revoked through two remembered representatives. */
  lemma KindIsEveryFamilyExactly(w: World, ids: seq<GrantId>, kind: Kind)
    requires Traced(w) && Represents(w.state.grants, ids, kind)
    ensures RevokedEach(w.state, ids) == RevokedKindMark(w.state, kind) <==>
              && RootsPending(w.state, ids) && RootsReached(w.state, ids, kind)
              && forall root :: Once(w.state.grants, ids, root)
  {
    PushesDecide(w.state, ids, kind);
    KindWithdrawsSameRootsExactly(w, ids, kind);
    var each := PushedEach(w.state.grants, ids);
    forall root ensures each[root] <= 1 <==> Once(w.state.grants, ids, root) {
      PushedThrough(w.state.grants, ids, root);
    }
    SameMultiset(each, KindRemembered(w.state.grants, kind));
  }

  /** So on every run it is enough that each remembered representative's root is held and its family not
      revoked already, that each remembered root held and not revoked has such a representative, and, for the
      whole registry, that no family is revoked through two. */
  lemma RunsWithdrawAlikeExactly(
    worlds: seq<World>, events: seq<Event>, n: nat, ids: seq<GrantId>, kind: Kind)
    requires IsRun(worlds, events) && n <= |events| && Represents(worlds[n].state.grants, ids, kind)
    ensures var s := worlds[n].state;
            && ((forall root :: root in PushedEach(s.grants, ids) <==> root in KindRemembered(s.grants, kind)) <==>
                  RootsHeld(s, ids) && RootsReached(s, ids, kind))
            && (RevokedEach(s, ids) == RevokedKindMark(s, kind) <==>
                  RootsHeld(s, ids) && RootsReached(s, ids, kind) && forall root :: Once(s.grants, ids, root))
  {
    RunTraced(worlds, events, n);
    RunRootsRemembered(worlds, events, n);
    HeldIsPending(worlds[n], ids);
    KindWithdrawsSameRootsExactly(worlds[n], ids, kind);
    KindIsEveryFamilyExactly(worlds[n], ids, kind);
  }

  lemma SameMultiset(m: multiset<GrantId>, s: set<GrantId>)
    ensures m == multiset(s) <==> (forall x :: x in m <==> x in s) && forall x :: m[x] <= 1
  {
    if (forall x :: x in m <==> x in s) && forall x :: m[x] <= 1 {
      forall x ensures m[x] == multiset(s)[x] {
      }
    }
    if m == multiset(s) {
      assert forall x :: multiset(s)[x] <= 1;
    }
  }

  /** A root remembered, derived from and released: revoking its family through the child tells the recent
      list to forget it, and revoking its kind does not. */
  lemma KindForgetsReleasedRoot()
    ensures exists w: World, child: GrantId, root: GrantId ::
              && Reached(w) && Represents(w.state.grants, [child], root.kind)
              && RevokedEach(w.state, [child]).withdrawn == multiset{root}
              && RevokedKindMark(w.state, root.kind).withdrawn == multiset{}
  {
    var root, child := GrantId(Directory, 0), GrantId(Document, 0);
    var w, grant := RootReleased(root, child);
    var s := w.state;
    assert [child][..0] == [] && RevokedEach(s, []) == s;
    assert RevokedEach(s, [child]) == RevokedMark(s, child);
    assert RevokedEach(s, [child]).withdrawn == multiset{root};
    assert child in [child] && RootsOf(s.grants, [child]) == {root};
    assert KindRemembered(s.grants, Directory) == {};
  }

  lemma RootReleased(root: GrantId, child: GrantId) returns (w: World, grant: Grant)
    requires root != child
    ensures Reached(w) && w.state.grants == map[child := grant] && w.state.withdrawn == multiset{}
    ensures grant.root == root && grant.parent.Some? && grant.lifetime == Remembered
  {
    var kept, copy := RootKept(root);
    assert kept.log[0].id == root;
    NextReached(kept, RecordDescendant(child, {}, copy));
    var derived := Next(kept, RecordDescendant(child, {}, copy));
    grant := ChildGrant(child, {}, copy);
    assert derived.state.grants == map[root := copy, child := grant];
    NextReached(derived, Release(root));
    w := Next(derived, Release(root));
  }

  /** A root recorded and remembered, and the copy its caller then holds. */
  lemma RootKept(root: GrantId) returns (w: World, copy: Grant)
    ensures Reached(w) && w.state.grants == map[root := copy] && w.copies == {copy} && |w.log| == 1
    ensures w.log[0].id == root && w.state.withdrawn == multiset{} && w.state.revokedRoots == {}
    ensures copy == RootGrant(root, {Derive}, TrustedSelection(Brokered), Remembered)
  {
    var recorded, given := RootRecorded(root);
    copy := given.(lifetime := Remembered);
    NextReached(recorded, Remember(root));
    w := Next(recorded, Remember(root));
    assert w.state.grants == map[root := copy];
  }
}
