/** Revoking by kind and revoking family by family agree. */
module GrantFamilies {

  import opened Grants

  function RootsOf(grants: map<GrantId, Grant>, ids: seq<GrantId>): set<GrantId>
    requires forall id | id in ids :: id in grants
  {
    set id | id in ids :: grants[id].root
  }

  /** One call of `revoke` after another, in the order given. */
  function RevokedEach(s: State, ids: seq<GrantId>): State {
    if ids == [] then s else RevokedMark(RevokedEach(s, ids[..|ids| - 1]), ids[|ids| - 1])
  }

  /** `ids` names held members of families rooted in `kind`, and at least one of each such family. */
  ghost predicate Represents(grants: map<GrantId, Grant>, ids: seq<GrantId>, kind: Kind) {
    && (forall id | id in ids :: id in grants && grants[id].root.kind == kind)
    && forall g | g in grants && grants[g].root.kind == kind ::
         grants[g].root in RootsOf(grants, ids)
  }

  lemma FlagTwice(grants: map<GrantId, Grant>, a: set<GrantId>, b: set<GrantId>)
    ensures Flag(Flag(grants, a), b) == Flag(grants, a + b)
    ensures |NewlyFlagged(grants, a)| + |NewlyFlagged(Flag(grants, a), b)| == |NewlyFlagged(grants, a + b)|
  {
    var first, second := NewlyFlagged(grants, a), NewlyFlagged(Flag(grants, a), b);
    assert first + second == NewlyFlagged(grants, a + b);
    assert first !! second;
  }

  /** Marking two sets of roots one after the other is marking their union: nothing is counted twice. */
  lemma MarkedTwice(s: State, a: set<GrantId>, b: set<GrantId>)
    ensures Marked(Marked(s, a), b) == Marked(s, a + b)
  {
    FlagTwice(s.grants, a, b);
    assert s.revokedRoots + a + b == s.revokedRoots + (a + b);
  }

  /** A second revocation of a family, through any of its members, counts nothing. */
  lemma RepeatCountsNothing(s: State, a: set<GrantId>, b: set<GrantId>)
    requires b <= a
    ensures Marked(Marked(s, a), b) == Marked(s, a)
  {
    MarkedTwice(s, a, b);
    assert a + b == a;
  }

  lemma {:induction false} RevokedEachMarks(s: State, ids: seq<GrantId>)
    requires forall id | id in ids :: id in s.grants
    ensures RevokedEach(s, ids).(withdrawn := s.withdrawn) == Marked(s, RootsOf(s.grants, ids))
  {
    if ids == [] {
      assert Flag(s.grants, {}) == s.grants && NewlyFlagged(s.grants, {}) == {};
      assert s.revokedRoots + {} == s.revokedRoots;
    } else {
      var rest, last := ids[..|ids| - 1], ids[|ids| - 1];
      assert ids == rest + [last];
      RevokedEachMarks(s, rest);
      var done := RevokedEach(s, rest);
      assert done.grants == Flag(s.grants, RootsOf(s.grants, rest));
      assert done.grants[last].root == s.grants[last].root;
      MarkedTwice(s, RootsOf(s.grants, rest), {s.grants[last].root});
      assert RootsOf(s.grants, rest) + {s.grants[last].root} == RootsOf(s.grants, ids);
    }
  }

  lemma RepresentedRoots(grants: map<GrantId, Grant>, ids: seq<GrantId>, kind: Kind)
    requires Represents(grants, ids, kind)
    ensures RootsOf(grants, ids) == KindRoots(grants, kind)
  {
  }

  /** `revoke_kind` leaves the flags, the revoked roots and the counters that `revoke` leaves when called
      on representatives of each family of that kind, in any order and any number of times. What the recent
      list is told to forget can differ, and exactly when is said beside it in `GrantWithdrawals`. */
  lemma KindIsEveryFamily(s: State, ids: seq<GrantId>, kind: Kind)
    requires Represents(s.grants, ids, kind)
    ensures RevokedEach(s, ids).(withdrawn := s.withdrawn) == RevokedKindMark(s, kind).(withdrawn := s.withdrawn)
  {
    RevokedEachMarks(s, ids);
    RepresentedRoots(s.grants, ids, kind);
  }

  /** What a revocation by kind does to each grant, whatever its own kind. */
  lemma KindReachesEveryKind(s: State, kind: Kind, id: GrantId)
    requires id in s.grants
    ensures var after := RevokedKindMark(s, kind);
            && id in after.grants
            && after.grants[id] ==
                 if s.grants[id].root.kind == kind then s.grants[id].(revoked := true) else s.grants[id]
  {
  }
}
