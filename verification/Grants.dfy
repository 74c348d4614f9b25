/** The grant registry (`crates/host/src/grant.rs`): what every resource handle may do, where its
    authority came from, and whether it still holds. */
module Grants {

  import opened Wrappers

  datatype Kind =
    | AppData | Assets | Audio | Clipboard | Device | Directory | Document | Http | Process | Sqlite
    | SystemMonitor | Tcp | Watch

  /** Handle numbers are local to a kind, so a number alone identifies nothing. */
  datatype GrantId = GrantId(kind: Kind, number: nat)

  datatype Enforcement = Brokered | ConsentOnly

  datatype Origin =
    | TrustedSelection(enforcement: Enforcement)
    | Dropped(enforcement: Enforcement)
    | Provisioned
    | Automatic

  datatype Lifetime = Session | Remembered

  datatype Right = Read | Write | List | Derive | Connect | Capture

  /** The bits of the source's rights mask. */
  type Rights = set<Right>

  datatype Grant = Grant(
    id: GrantId,
    rights: Rights,
    origin: Origin,
    lifetime: Lifetime,
    parent: Option<GrantId>,
    root: GrantId,
    revoked: bool)

  datatype Refusal = Unknown | Revoked | LacksRights

  /** The registry as a value. The roots waiting for the recent list are counted, not ordered: a
      revocation by kind pushes them in hash order. */
  datatype State = State(
    grants: map<GrantId, Grant>,
    revokedRoots: set<GrantId>,
    recorded: nat,
    released: nat,
    revoked: nat,
    denied: nat,
    withdrawn: multiset<GrantId>)

  const EMPTY := State(map[], {}, 0, 0, 0, 0, multiset{})

  function RootGrant(id: GrantId, rights: Rights, origin: Origin, lifetime: Lifetime): Grant {
    Grant(id, rights, origin, lifetime, None, id, false)
  }

  function RecordedRoot(s: State, id: GrantId, rights: Rights, origin: Origin, lifetime: Lifetime): State {
    s.(recorded := s.recorded + 1, grants := s.grants[id := RootGrant(id, rights, origin, lifetime)])
  }

  /** Whether a copy of a grant may derive a child now. */
  predicate Derives(s: State, parent: Grant) {
    Derive in parent.rights && parent.root !in s.revokedRoots
  }

  function ChildGrant(id: GrantId, rights: Rights, parent: Grant): Grant {
    Grant(id, rights, parent.origin, parent.lifetime, Some(parent.id), parent.root, false)
  }

  function RecordedDescendant(s: State, id: GrantId, rights: Rights, parent: Grant): State {
    if Derives(s, parent) then
      s.(recorded := s.recorded + 1, grants := s.grants[id := ChildGrant(id, rights, parent)])
    else s
  }

  predicate Withheld(s: State, grant: Grant) {
    grant.revoked || grant.root in s.revokedRoots
  }

  function Acceptance(s: State, id: GrantId, needs: Rights): Result<Grant, Refusal> {
    if id !in s.grants then Err(Unknown)
    else if Withheld(s, s.grants[id]) then Err(Revoked)
    else if !(needs <= s.grants[id].rights) then Err(LacksRights)
    else Ok(s.grants[id])
  }

  function Accepted(s: State, id: GrantId, needs: Rights): State {
    if Acceptance(s, id, needs).Err? then s.(denied := s.denied + 1) else s
  }

  /** The held grants descending from one of `roots` whose flag is still clear. */
  function NewlyFlagged(grants: map<GrantId, Grant>, roots: set<GrantId>): set<GrantId> {
    set id | id in grants && grants[id].root in roots && !grants[id].revoked
  }

  function Flag(grants: map<GrantId, Grant>, roots: set<GrantId>): map<GrantId, Grant> {
    map id | id in grants :: if grants[id].root in roots then grants[id].(revoked := true) else grants[id]
  }

  /** What both revocations do to a set of roots. */
  function Marked(s: State, roots: set<GrantId>): State {
    s.(revokedRoots := s.revokedRoots + roots,
       grants := Flag(s.grants, roots),
       revoked := s.revoked + |NewlyFlagged(s.grants, roots)|)
  }

  /** The roots a revocation of `id` takes, and those of them the recent list must forget. */
  function TargetRoots(s: State, id: GrantId): set<GrantId> {
    if id in s.grants then {s.grants[id].root} else {}
  }

  function TargetRemembered(s: State, id: GrantId): multiset<GrantId> {
    if id in s.grants && s.grants[id].lifetime == Remembered then multiset{s.grants[id].root} else multiset{}
  }

  function RevokedMark(s: State, id: GrantId): State {
    Marked(s, TargetRoots(s, id)).(withdrawn := s.withdrawn + TargetRemembered(s, id))
  }

  function KindRoots(grants: map<GrantId, Grant>, kind: Kind): set<GrantId> {
    set id | id in grants && grants[id].root.kind == kind :: grants[id].root
  }

  predicate WithdrawsRemembering(grant: Grant, kind: Kind) {
    grant.root.kind == kind && grant.parent == None && grant.lifetime == Remembered && !grant.revoked
  }

  function KindRemembered(grants: map<GrantId, Grant>, kind: Kind): set<GrantId> {
    set id | id in grants && WithdrawsRemembering(grants[id], kind)
  }

  function RevokedKindMark(s: State, kind: Kind): State {
    Marked(s, KindRoots(s.grants, kind)).(withdrawn := s.withdrawn + multiset(KindRemembered(s.grants, kind)))
  }

  function Taken(s: State): State {
    s.(withdrawn := multiset{})
  }

  function Released(s: State, id: GrantId): State {
    if id in s.grants then s.(grants := s.grants - {id}, released := s.released + 1) else s
  }

  function Remembrance(s: State, id: GrantId): Result<Grant, Refusal> {
    if id !in s.grants then Err(Unknown)
    else if Withheld(s, s.grants[id]) then Err(Revoked)
    else if s.grants[id].parent.Some? || s.grants[id].origin == Automatic then Err(LacksRights)
    else Ok(s.grants[id].(lifetime := Remembered))
  }

  function Keep(grants: map<GrantId, Grant>, root: GrantId): map<GrantId, Grant> {
    map id | id in grants :: if grants[id].root == root then grants[id].(lifetime := Remembered) else grants[id]
  }

  function Kept(s: State, id: GrantId): State {
    if Remembrance(s, id).Ok? then s.(grants := Keep(s.grants, s.grants[id].root)) else s
  }

  predicate Outlives(id: GrantId, grant: Grant, kind: Kind) {
    id.kind != kind && grant.root.kind != kind
  }

  function Forgotten(s: State, kind: Kind): State {
    s.(grants := map id | id in s.grants && Outlives(id, s.grants[id], kind) :: s.grants[id],
       revokedRoots := set root | root in s.revokedRoots && root.kind != kind)
  }

  // The flagging loop, over any part of the registry.

  /** `after` is `before` with the flags of the visited grants of `roots` set. */
  ghost predicate Flagging(
    before: map<GrantId, Grant>, after: map<GrantId, Grant>, visited: set<GrantId>, roots: set<GrantId>) {
    && after.Keys == before.Keys
    && forall id | id in before :: after[id] ==
         if id in visited && before[id].root in roots then before[id].(revoked := true) else before[id]
  }

  ghost function FlaggedSoFar(
    before: map<GrantId, Grant>, visited: set<GrantId>, roots: set<GrantId>): set<GrantId> {
    NewlyFlagged(before, roots) * visited
  }

  /** One turn of the flagging loop. */
  function FlagOne(grants: map<GrantId, Grant>, roots: set<GrantId>, id: GrantId): map<GrantId, Grant>
    requires id in grants
  {
    if grants[id].root in roots && !grants[id].revoked then grants[id := grants[id].(revoked := true)] else grants
  }

  lemma FlaggingStep(
    before: map<GrantId, Grant>, after: map<GrantId, Grant>, visited: set<GrantId>, roots: set<GrantId>, id: GrantId)
    requires Flagging(before, after, visited, roots) && id in before && id !in visited
    ensures Flagging(before, FlagOne(after, roots, id), visited + {id}, roots)
    ensures (after[id].root in roots && !after[id].revoked) == (id in NewlyFlagged(before, roots))
    ensures |FlaggedSoFar(before, visited + {id}, roots)| ==
            |FlaggedSoFar(before, visited, roots)| + if id in NewlyFlagged(before, roots) then 1 else 0
  {
    var so := FlaggedSoFar(before, visited, roots);
    assert FlaggedSoFar(before, visited + {id}, roots) ==
           if id in NewlyFlagged(before, roots) then so + {id} else so;
  }

  /** The invariant of the flagging loop, with `todo` still to visit. */
  ghost predicate FlagLoop(
    before: map<GrantId, Grant>, after: map<GrantId, Grant>, todo: set<GrantId>, roots: set<GrantId>, count: nat) {
    && todo <= before.Keys
    && Flagging(before, after, before.Keys - todo, roots)
    && count == |FlaggedSoFar(before, before.Keys - todo, roots)|
  }

  lemma FlagLoopStep(
    before: map<GrantId, Grant>, after: map<GrantId, Grant>, todo: set<GrantId>, roots: set<GrantId>, count: nat,
    id: GrantId)
    requires FlagLoop(before, after, todo, roots, count) && id in todo
    ensures id in after
    ensures FlagLoop(before, FlagOne(after, roots, id), todo - {id}, roots,
                     if after[id].root in roots && !after[id].revoked then count + 1 else count)
  {
    FlaggingStep(before, after, before.Keys - todo, roots, id);
    assert before.Keys - (todo - {id}) == before.Keys - todo + {id};
  }

  lemma FlagLoopDone(before: map<GrantId, Grant>, after: map<GrantId, Grant>, roots: set<GrantId>, count: nat)
    requires FlagLoop(before, after, {}, roots, count)
    ensures after == Flag(before, roots) && count == |NewlyFlagged(before, roots)|
  {
    assert before.Keys - {} == before.Keys;
    assert FlaggedSoFar(before, before.Keys, roots) == NewlyFlagged(before, roots);
  }

  /** The process-wide registry, updated in place under its lock. */
  class Registry {
    var grants: map<GrantId, Grant>
    var revokedRoots: set<GrantId>
    var recorded: nat
    var released: nat
    var revoked: nat
    var denied: nat
    var withdrawnRemembered: seq<GrantId>

    ghost function Value(): State
      reads this
    {
      State(grants, revokedRoots, recorded, released, revoked, denied, multiset(withdrawnRemembered))
    }

    constructor ()
      ensures Value() == EMPTY
    {
      grants, revokedRoots, withdrawnRemembered := map[], {}, [];
      recorded, released, revoked, denied := 0, 0, 0, 0;
    }

    method RecordRoot(kind: Kind, number: nat, rights: Rights, origin: Origin, lifetime: Lifetime)
      modifies this
      ensures Value() == RecordedRoot(old(Value()), GrantId(kind, number), rights, origin, lifetime)
    {
      var id := GrantId(kind, number);
      recorded := recorded + 1;
      grants := grants[id := Grant(id, rights, origin, lifetime, None, id, false)];
    }

    method RecordDescendant(kind: Kind, number: nat, rights: Rights, parent: Grant) returns (derived: bool)
      modifies this
      ensures derived == Derives(old(Value()), parent)
      ensures Value() == RecordedDescendant(old(Value()), GrantId(kind, number), rights, parent)
    {
      if Derive !in parent.rights {
        return false;
      }
      var id := GrantId(kind, number);
      if parent.root in revokedRoots {
        return false;
      }
      recorded := recorded + 1;
      grants := grants[id := Grant(id, rights, parent.origin, parent.lifetime, Some(parent.id), parent.root, false)];
      derived := true;
    }

    method Accept(kind: Kind, number: nat, needs: Rights) returns (outcome: Result<Grant, Refusal>)
      modifies this
      ensures outcome == Acceptance(old(Value()), GrantId(kind, number), needs)
      ensures Value() == Accepted(old(Value()), GrantId(kind, number), needs)
    {
      var id := GrantId(kind, number);
      if id !in grants {
        outcome := Err(Unknown);
      } else if grants[id].revoked || grants[id].root in revokedRoots {
        outcome := Err(Revoked);
      } else if !(needs <= grants[id].rights) {
        outcome := Err(LacksRights);
      } else {
        outcome := Ok(grants[id]);
      }
      if outcome.Err? {
        denied := denied + 1;
      }
    }

    /** The first critical section of `revoke`. */
    method MarkRevoked(kind: Kind, number: nat) returns (count: nat)
      modifies this
      ensures Value() == RevokedMark(old(Value()), GrantId(kind, number))
      ensures count == revoked - old(revoked)
    {
      var id := GrantId(kind, number);
      if id !in grants {
        assert Flag(grants, {}) == grants && NewlyFlagged(grants, {}) == {};
        return 0;
      }
      var target := grants[id];
      count := Mark({target.root}, if target.lifetime == Remembered then [target.root] else []);
    }

    /** What both critical sections do: record the roots, queue the remembered ones, flag the families. */
    method Mark(roots: set<GrantId>, remembered: seq<GrantId>) returns (count: nat)
      modifies this
      ensures Value() == Marked(old(Value()), roots).(withdrawn := old(Value()).withdrawn + multiset(remembered))
      ensures count == revoked - old(revoked)
    {
      withdrawnRemembered := withdrawnRemembered + remembered;
      revokedRoots := revokedRoots + roots;
      count := FlagFamilies(roots);
      revoked := revoked + count;
    }

    /** The flagging loop of both revocations: every grant of `roots`, of whatever kind. */
    method FlagFamilies(roots: set<GrantId>) returns (count: nat)
      modifies this`grants
      ensures grants == Flag(old(grants), roots)
      ensures count == |NewlyFlagged(old(grants), roots)|
    {
      count := 0;
      var todo := grants.Keys;
      assert FlaggedSoFar(grants, {}, roots) == {};
      while todo != {}
        invariant FlagLoop(old(grants), grants, todo, roots, count)
        decreases todo
      {
        var id :| id in todo;
        FlagLoopStep(old(grants), grants, todo, roots, count, id);
        if grants[id].root in roots && !grants[id].revoked {
          grants := grants[id := grants[id].(revoked := true)];
          count := count + 1;
        }
        todo := todo - {id};
      }
      FlagLoopDone(old(grants), grants, roots, count);
    }

    /** The first critical section of `revoke_kind`. */
    method MarkKindRevoked(kind: Kind) returns (count: nat)
      modifies this
      ensures Value() == RevokedKindMark(old(Value()), kind)
      ensures count == revoked - old(revoked)
    {
      var roots := KindRoots(grants, kind);
      var remembered := Listed(KindRemembered(grants, kind));
      count := Mark(roots, remembered);
    }

    /** Some order of a set of roots: the order a hash map yields them in. */
    static method Listed(roots: set<GrantId>) returns (list: seq<GrantId>)
      ensures multiset(list) == multiset(roots)
    {
      list := [];
      var todo := roots;
      while todo != {}
        invariant todo <= roots
        invariant multiset(list) == multiset(roots - todo)
      {
        var root :| root in todo;
        assert roots - (todo - {root}) == (roots - todo) + {root};
        list, todo := list + [root], todo - {root};
      }
      assert roots - todo == roots;
    }

    method TakeWithdrawnRemembered() returns (roots: seq<GrantId>)
      modifies this
      ensures roots == old(withdrawnRemembered) && Value() == Taken(old(Value()))
    {
      roots := withdrawnRemembered;
      withdrawnRemembered := [];
    }

    /** `revoke`, when nothing interleaves with it: `handed` is what the recent list is told to forget. */
    method Revoke(kind: Kind, number: nat) returns (count: nat, handed: seq<GrantId>)
      modifies this
      ensures Value() == Taken(RevokedMark(old(Value()), GrantId(kind, number)))
      ensures count == revoked - old(revoked)
      ensures multiset(handed) == RevokedMark(old(Value()), GrantId(kind, number)).withdrawn
    {
      count := MarkRevoked(kind, number);
      handed := TakeWithdrawnRemembered();
    }

    /** `revoke_kind`, when nothing interleaves with it. */
    method RevokeKind(kind: Kind) returns (count: nat, handed: seq<GrantId>)
      modifies this
      ensures Value() == Taken(RevokedKindMark(old(Value()), kind))
      ensures count == revoked - old(revoked)
      ensures multiset(handed) == RevokedKindMark(old(Value()), kind).withdrawn
    {
      count := MarkKindRevoked(kind);
      handed := TakeWithdrawnRemembered();
    }

    method IsRevoked(kind: Kind, number: nat) returns (answer: bool)
      ensures answer == (GrantId(kind, number) in grants && Withheld(Value(), grants[GrantId(kind, number)]))
    {
      var id := GrantId(kind, number);
      answer := id in grants && (grants[id].revoked || grants[id].root in revokedRoots);
    }

    method Release(kind: Kind, number: nat)
      modifies this
      ensures Value() == Released(old(Value()), GrantId(kind, number))
    {
      var id := GrantId(kind, number);
      if id in grants {
        grants := grants - {id};
        released := released + 1;
      }
    }

    method Remember(kind: Kind, number: nat) returns (outcome: Result<Grant, Refusal>)
      modifies this
      ensures outcome == Remembrance(old(Value()), GrantId(kind, number))
      ensures Value() == Kept(old(Value()), GrantId(kind, number))
    {
      var id := GrantId(kind, number);
      if id !in grants {
        return Err(Unknown);
      }
      var grant := grants[id];
      if grant.revoked || grant.root in revokedRoots {
        return Err(Revoked);
      }
      if grant.parent.Some? || grant.origin == Automatic {
        return Err(LacksRights);
      }
      var todo := grants.Keys;
      while todo != {}
        invariant todo <= old(grants).Keys == grants.Keys
        invariant forall k | k in grants :: grants[k] ==
                    if k !in todo && old(grants)[k].root == grant.root
                    then old(grants)[k].(lifetime := Remembered) else old(grants)[k]
        invariant revokedRoots == old(revokedRoots) && withdrawnRemembered == old(withdrawnRemembered)
        invariant (recorded, released, revoked, denied) == old((recorded, released, revoked, denied))
      {
        var held :| held in todo;
        if grants[held].root == grant.root {
          grants := grants[held := grants[held].(lifetime := Remembered)];
        }
        todo := todo - {held};
      }
      assert grants == Keep(old(grants), grant.root);
      outcome := Ok(grant.(lifetime := Remembered));
    }

    method ForgetKind(kind: Kind)
      modifies this
      ensures Value() == Forgotten(old(Value()), kind)
    {
      grants := map id | id in grants && Outlives(id, grants[id], kind) :: grants[id];
      revokedRoots := set root | root in revokedRoots && root.kind != kind;
      assert Value().grants == Forgotten(old(Value()), kind).grants;
      assert Value().revokedRoots == Forgotten(old(Value()), kind).revokedRoots;
    }
  }
}
