/** Runs of the registry: any interleaving of its critical sections, with the copies of grants that
    callers keep, and a history that survives release and forgetting. */
module GrantRuns {

  import opened Grants
  import opened GrantLineage

  /** One critical section each. A revocation is three: it marks, then takes the withdrawn roots, then
      hands them to the recent list. */
  datatype Event =
    | RecordRoot(id: GrantId, rights: Rights, origin: Origin, lifetime: Lifetime)
    | RecordDescendant(id: GrantId, rights: Rights, parent: Grant)
    | Accept(id: GrantId, needs: Rights)
    | Enumerate
    | MarkRevoked(id: GrantId)
    | MarkKindRevoked(kind: Kind)
    | TakeWithdrawn(call: nat)
    | HandOver(call: nat)
    | Release(id: GrantId)
    | Remember(id: GrantId)
    | ForgetKind(kind: Kind)

  /** How far a revocation in progress has come. */
  datatype Call = Marking | Carrying(roots: multiset<GrantId>) | Finished

  /** The registry, and what the run remembers beside it: the history, the copies callers hold, the
      grants forgotten, the grants ever flagged, the revocations begun, and the remembered roots pushed
      for the recent list and handed to it. */
  datatype World = World(
    state: State,
    log: Log,
    copies: set<Grant>,
    forgotten: nat,
    flagged: set<GrantId>,
    calls: seq<Call>,
    pushed: multiset<GrantId>,
    handed: multiset<GrantId>)

  const START := World(EMPTY, [], {}, 0, {}, [], multiset{}, multiset{})

  /** The roots a marking step takes. */
  function Taking(s: State, e: Event): set<GrantId> {
    match e
    case MarkRevoked(id) => TargetRoots(s, id)
    case MarkKindRevoked(kind) => KindRoots(s.grants, kind)
    case _ => {}
  }

  function Pushing(s: State, e: Event): multiset<GrantId> {
    match e
    case MarkRevoked(id) => TargetRemembered(s, id)
    case MarkKindRevoked(kind) => multiset(KindRemembered(s.grants, kind))
    case _ => multiset{}
  }

  /** Handle numbers are never reused, a parent is a copy some earlier step returned, and a revocation
      takes its steps in order. */
  ghost predicate Enabled(w: World, e: Event) {
    match e
    case RecordRoot(id, _, _, _) => !LoggedId(w.log, id)
    case RecordDescendant(id, _, parent) => !LoggedId(w.log, id) && parent in w.copies
    case TakeWithdrawn(call) => call < |w.calls| && w.calls[call] == Marking
    case HandOver(call) => call < |w.calls| && w.calls[call].Carrying?
    case _ => true
  }

  function NextState(s: State, e: Event): State {
    match e
    case RecordRoot(id, rights, origin, lifetime) => RecordedRoot(s, id, rights, origin, lifetime)
    case RecordDescendant(id, rights, parent) => RecordedDescendant(s, id, rights, parent)
    case Accept(id, needs) => Accepted(s, id, needs)
    case Enumerate => s
    case MarkRevoked(id) => RevokedMark(s, id)
    case MarkKindRevoked(kind) => RevokedKindMark(s, kind)
    case TakeWithdrawn(_) => Taken(s)
    case HandOver(_) => s
    case Release(id) => Released(s, id)
    case Remember(id) => Kept(s, id)
    case ForgetKind(kind) => Forgotten(s, kind)
  }

  function NextLog(w: World, e: Event): Log {
    match e
    case RecordRoot(id, rights, origin, lifetime) => w.log + [RootGrant(id, rights, origin, lifetime)]
    case RecordDescendant(id, rights, parent) =>
      if Derives(w.state, parent) then w.log + [ChildGrant(id, rights, parent)] else w.log
    case _ => w.log
  }

  function NextCopies(w: World, e: Event): set<Grant> {
    match e
    case Accept(id, needs) =>
      if Acceptance(w.state, id, needs).Ok? then w.copies + {Acceptance(w.state, id, needs).value} else w.copies
    case Remember(id) =>
      if Remembrance(w.state, id).Ok? then w.copies + {Remembrance(w.state, id).value} else w.copies
    case Enumerate => w.copies + w.state.grants.Values
    case _ => w.copies
  }

  function NextCalls(w: World, e: Event): seq<Call>
    requires Enabled(w, e)
  {
    match e
    case MarkRevoked(_) => w.calls + [Marking]
    case MarkKindRevoked(_) => w.calls + [Marking]
    case TakeWithdrawn(call) => w.calls[call := Carrying(w.state.withdrawn)]
    case HandOver(call) => w.calls[call := Finished]
    case _ => w.calls
  }

  function Next(w: World, e: Event): World
    requires Enabled(w, e)
  {
    var s := NextState(w.state, e);
    World(
      s,
      NextLog(w, e),
      NextCopies(w, e),
      if e.ForgetKind? then w.forgotten + |w.state.grants.Keys - s.grants.Keys| else w.forgotten,
      w.flagged + NewlyFlagged(w.state.grants, Taking(w.state, e)),
      NextCalls(w, e),
      w.pushed + Pushing(w.state, e),
      if e.HandOver? then w.handed + w.calls[e.call].roots else w.handed)
  }

  ghost predicate Step(w: World, e: Event, w': World) {
    Enabled(w, e) && w' == Next(w, e)
  }

  ghost predicate IsRun(worlds: seq<World>, events: seq<Event>) {
    && |worlds| == |events| + 1
    && worlds[0] == START
    && forall i | 0 <= i < |events| :: Step(worlds[i], events[i], worlds[i + 1])
  }

  /** A world some run ends in. */
  ghost predicate Reached(w: World) {
    exists worlds: seq<World>, events: seq<Event> :: IsRun(worlds, events) && worlds[|events|] == w
  }

  lemma StartReached()
    ensures Reached(START)
  {
    var worlds, events: seq<Event> := [START], [];
    assert IsRun(worlds, events) && worlds[|events|] == START;
  }

  lemma RunGrows(worlds: seq<World>, events: seq<Event>, e: Event, w: World)
    requires IsRun(worlds, events) && Step(worlds[|events|], e, w)
    ensures IsRun(worlds + [w], events + [e])
  {
    var longer, more := worlds + [w], events + [e];
    forall i | 0 <= i < |more| ensures Step(longer[i], more[i], longer[i + 1]) {
      if i < |events| {
        assert longer[i] == worlds[i] && longer[i + 1] == worlds[i + 1] && more[i] == events[i];
      } else {
        assert longer[i] == worlds[|events|] && longer[i + 1] == w && more[i] == e;
      }
    }
  }

  lemma NextReached(w: World, e: Event)
    requires Reached(w) && Enabled(w, e)
    ensures Reached(Next(w, e))
  {
    var worlds: seq<World>, events: seq<Event> :| IsRun(worlds, events) && worlds[|events|] == w;
    var next := Next(w, e);
    RunGrows(worlds, events, e, next);
    assert (worlds + [next])[|events + [e]|] == next;
  }

  // What the held grants and the copies have to do with the history.

  /** Everything about a grant but its lifetime and its flag is fixed when it is recorded. */
  predicate SameAuthority(a: Grant, b: Grant) {
    a.id == b.id && a.rights == b.rights && a.origin == b.origin && a.parent == b.parent && a.root == b.root
  }

  ghost predicate Logged(log: Log, grant: Grant) {
    exists i :: 0 <= i < |log| && SameAuthority(log[i], grant)
  }

  ghost predicate HeldLogged(log: Log, grants: map<GrantId, Grant>) {
    forall id | id in grants :: grants[id].id == id && Logged(log, grants[id])
  }

  ghost predicate CopiesLogged(log: Log, copies: set<Grant>) {
    forall grant | grant in copies :: Logged(log, grant)
  }

  ghost predicate RevokedLogged(log: Log, roots: set<GrantId>) {
    forall root | root in roots :: LoggedId(log, root)
  }

  /** The flag of a held grant is its root's membership in the durable set. */
  ghost predicate FlagsAgree(s: State) {
    forall id | id in s.grants :: s.grants[id].revoked <==> s.grants[id].root in s.revokedRoots
  }

  ghost predicate Traced(w: World) {
    && Lineage(w.log)
    && HeldLogged(w.log, w.state.grants)
    && CopiesLogged(w.log, w.copies)
    && RevokedLogged(w.log, w.state.revokedRoots)
    && FlagsAgree(w.state)
  }

  lemma LoggedLater(log: Log, more: Log, grant: Grant)
    requires Logged(log, grant)
    ensures Logged(log + more, grant)
  {
    var i :| 0 <= i < |log| && SameAuthority(log[i], grant);
    assert (log + more)[i] == log[i];
  }

  lemma LoggedRoot(log: Log, grant: Grant)
    requires Lineage(log) && Logged(log, grant)
    ensures LoggedId(log, grant.root) && LoggedId(log, grant.id)
  {
    var i :| 0 <= i < |log| && SameAuthority(log[i], grant);
    RootIsLogged(log, i);
  }

  lemma AllLoggedLater(w: World, grant: Grant)
    requires Traced(w) && SoundEntry(w.log, grant)
    ensures Lineage(w.log + [grant])
    ensures HeldLogged(w.log + [grant], w.state.grants[grant.id := grant])
    ensures CopiesLogged(w.log + [grant], w.copies)
    ensures RevokedLogged(w.log + [grant], w.state.revokedRoots)
  {
    LineageSnoc(w.log, grant);
    var longer := w.log + [grant];
    assert longer[|w.log|] == grant;
    forall g: Grant | Logged(w.log, g) ensures Logged(longer, g) {
      LoggedLater(w.log, [grant], g);
    }
    forall id | LoggedId(w.log, id) ensures LoggedId(longer, id) {
      var i :| 0 <= i < |w.log| && w.log[i].id == id;
      assert longer[i].id == id;
    }
  }

  lemma RecordRootTraced(w: World, e: Event)
    requires Traced(w) && Enabled(w, e) && e.RecordRoot?
    ensures Traced(Next(w, e))
  {
    var grant := RootGrant(e.id, e.rights, e.origin, e.lifetime);
    AllLoggedLater(w, grant);
    assert e.id !in w.state.revokedRoots;
  }

  lemma RecordDescendantTraced(w: World, e: Event)
    requires Traced(w) && Enabled(w, e) && e.RecordDescendant?
    ensures Traced(Next(w, e))
  {
    if Derives(w.state, e.parent) {
      var grant := ChildGrant(e.id, e.rights, e.parent);
      var i :| 0 <= i < |w.log| && SameAuthority(w.log[i], e.parent);
      assert HasParentIn(w.log, grant);
      AllLoggedLater(w, grant);
    }
  }

  /** A change of lifetime or of the flag keeps a grant in the history. */
  lemma LoggedAlike(log: Log, a: Grant, b: Grant)
    requires Logged(log, a) && SameAuthority(a, b)
    ensures Logged(log, b)
  {
    var i :| 0 <= i < |log| && SameAuthority(log[i], a);
    assert SameAuthority(log[i], b);
  }

  lemma FlagLogged(log: Log, grants: map<GrantId, Grant>, roots: set<GrantId>)
    requires HeldLogged(log, grants)
    ensures HeldLogged(log, Flag(grants, roots))
  {
    forall id | id in grants ensures Logged(log, Flag(grants, roots)[id]) {
      LoggedAlike(log, grants[id], Flag(grants, roots)[id]);
    }
  }

  /** A marking step takes roots of held grants only. */
  lemma TakenLogged(w: World, e: Event)
    requires Traced(w)
    ensures RevokedLogged(w.log, Taking(w.state, e))
  {
    forall id | id in w.state.grants ensures LoggedId(w.log, w.state.grants[id].root) {
      LoggedRoot(w.log, w.state.grants[id]);
    }
  }

  lemma MarkTraced(w: World, e: Event)
    requires Traced(w) && Enabled(w, e) && (e.MarkRevoked? || e.MarkKindRevoked?)
    ensures Traced(Next(w, e))
  {
    var roots := Taking(w.state, e);
    TakenLogged(w, e);
    FlagLogged(w.log, w.state.grants, roots);
    assert NextState(w.state, e).grants == Flag(w.state.grants, roots);
    assert NextState(w.state, e).revokedRoots == w.state.revokedRoots + roots;
  }

  /** Steps that only drop held grants. */
  lemma DropTraced(w: World, e: Event)
    requires Traced(w) && Enabled(w, e) && (e.Release? || e.ForgetKind?)
    ensures Traced(Next(w, e))
  {
    var s := NextState(w.state, e);
    assert forall id | id in s.grants :: id in w.state.grants && s.grants[id] == w.state.grants[id];
    assert s.revokedRoots <= w.state.revokedRoots;
  }

  lemma CopyTraced(w: World, e: Event)
    requires Traced(w) && Enabled(w, e) && (e.Accept? || e.Enumerate? || e.TakeWithdrawn? || e.HandOver?)
    ensures Traced(Next(w, e))
  {
  }

  lemma KeepLogged(log: Log, grants: map<GrantId, Grant>, root: GrantId)
    requires HeldLogged(log, grants)
    ensures HeldLogged(log, Keep(grants, root))
  {
    forall id | id in grants ensures Logged(log, Keep(grants, root)[id]) {
      LoggedAlike(log, grants[id], Keep(grants, root)[id]);
    }
  }

  lemma RememberTraced(w: World, e: Event)
    requires Traced(w) && Enabled(w, e) && e.Remember?
    ensures Traced(Next(w, e))
  {
    var s := w.state;
    if Remembrance(s, e.id).Ok? {
      KeepLogged(w.log, s.grants, s.grants[e.id].root);
      LoggedAlike(w.log, s.grants[e.id], Remembrance(s, e.id).value);
    }
  }

  lemma NextTraced(w: World, e: Event)
    requires Traced(w) && Enabled(w, e)
    ensures Traced(Next(w, e))
  {
    match e
    case RecordRoot(_, _, _, _) => RecordRootTraced(w, e);
    case RecordDescendant(_, _, _) => RecordDescendantTraced(w, e);
    case Accept(_, _) => CopyTraced(w, e);
    case Enumerate => CopyTraced(w, e);
    case MarkRevoked(_) => MarkTraced(w, e);
    case MarkKindRevoked(_) => MarkTraced(w, e);
    case TakeWithdrawn(_) => CopyTraced(w, e);
    case HandOver(_) => CopyTraced(w, e);
    case Release(_) => DropTraced(w, e);
    case Remember(_) => RememberTraced(w, e);
    case ForgetKind(_) => DropTraced(w, e);
  }

  lemma StepTraced(w: World, e: Event, w': World)
    requires Traced(w) && Step(w, e, w')
    ensures Traced(w')
  {
    NextTraced(w, e);
  }

  /** On every run: the history is a lineage, every held grant and every copy a caller still holds is an
      entry of it, and every held grant is flagged exactly when its root was revoked. */
  lemma {:induction false} RunTraced(worlds: seq<World>, events: seq<Event>, n: nat)
    requires IsRun(worlds, events) && n <= |events|
    ensures Traced(worlds[n])
  {
    if n > 0 {
      RunTraced(worlds, events, n - 1);
      StepTraced(worlds[n - 1], events[n - 1], worlds[n]);
    }
  }
}
