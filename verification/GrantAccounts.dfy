/** The registry's accounts over whole runs: every grant recorded is held, released or forgotten; no
    grant is counted revoked twice; and every remembered root withdrawn reaches the recent list once
    for each time it was pushed. */
module GrantAccounts {

  import opened Grants
  import opened GrantLineage
  import opened GrantRuns

  ghost predicate Recorded(w: World) {
    w.state.recorded == |w.log| == |w.state.grants.Keys| + w.state.released + w.forgotten
  }

  /** The flags still held are those of `flagged`, a set of recorded grants as large as the counter says. */
  ghost predicate CountedOnce(w: World) {
    && w.state.revoked == |w.flagged|
    && (forall id | id in w.flagged :: LoggedId(w.log, id))
    && forall id | id in w.state.grants :: w.state.grants[id].revoked <==> id in w.flagged
  }

  lemma HeldIdsLogged(w: World, id: GrantId)
    requires Traced(w) && id in w.state.grants
    ensures LoggedId(w.log, id)
  {
    LoggedRoot(w.log, w.state.grants[id]);
  }

  /** Recording adds one held grant. */
  lemma RecordAddsOne(w: World, e: Event)
    requires Traced(w) && Recorded(w) && Enabled(w, e) && (e.RecordRoot? || e.RecordDescendant?)
    ensures Recorded(Next(w, e))
  {
    if e.RecordRoot? {
      NewKey(w, e.id, RootGrant(e.id, e.rights, e.origin, e.lifetime));
    } else {
      NewKey(w, e.id, ChildGrant(e.id, e.rights, e.parent));
    }
  }

  lemma ReleaseDropsOne(w: World, id: GrantId)
    requires Recorded(w)
    ensures Recorded(Next(w, Release(id)))
  {
    if id in w.state.grants {
      assert (w.state.grants - {id}).Keys == w.state.grants.Keys - {id};
    }
  }

  lemma ForgetDropsSome(w: World, kind: Kind)
    requires Recorded(w)
    ensures Recorded(Next(w, ForgetKind(kind)))
  {
    SubsetSize(w.state.grants.Keys, Forgotten(w.state, kind).grants.Keys);
  }

  lemma SubsetSize(all: set<GrantId>, some: set<GrantId>)
    requires some <= all
    ensures |all| == |some| + |all - some|
  {
    assert all == some + (all - some);
  }

  lemma RewriteKeepsKeys(s: State, e: Event)
    requires e.MarkRevoked? || e.MarkKindRevoked? || e.Remember?
    ensures NextState(s, e).grants.Keys == s.grants.Keys
  {
  }

  lemma NextRecorded(w: World, e: Event)
    requires Traced(w) && Recorded(w) && Enabled(w, e)
    ensures Recorded(Next(w, e))
  {
    match e
    case RecordRoot(_, _, _, _) => RecordAddsOne(w, e);
    case RecordDescendant(_, _, _) => RecordAddsOne(w, e);
    case Release(id) => ReleaseDropsOne(w, id);
    case ForgetKind(kind) => ForgetDropsSome(w, kind);
    case MarkRevoked(_) => RewriteKeepsKeys(w.state, e);
    case MarkKindRevoked(_) => RewriteKeepsKeys(w.state, e);
    case Remember(_) => RewriteKeepsKeys(w.state, e);
    case _ =>
  }

  lemma NewKey(w: World, id: GrantId, grant: Grant)
    requires Traced(w) && !LoggedId(w.log, id)
    ensures id !in w.state.grants && |w.state.grants[id := grant].Keys| == |w.state.grants.Keys| + 1
  {
    if id in w.state.grants {
      HeldIdsLogged(w, id);
    }
    assert w.state.grants[id := grant].Keys == w.state.grants.Keys + {id};
  }

  lemma LoggedIdLater(log: Log, more: Log, id: GrantId)
    requires LoggedId(log, id)
    ensures LoggedId(log + more, id)
  {
    var i :| 0 <= i < |log| && log[i].id == id;
    assert (log + more)[i].id == id;
  }

  lemma FlaggedLater(w: World, e: Event)
    requires CountedOnce(w) && Enabled(w, e)
    ensures forall id | id in w.flagged :: LoggedId(NextLog(w, e), id)
  {
    forall id | id in w.flagged ensures LoggedId(NextLog(w, e), id) {
      match e
      case RecordRoot(r, rights, origin, lifetime) =>
        LoggedIdLater(w.log, [RootGrant(r, rights, origin, lifetime)], id);
      case RecordDescendant(r, rights, parent) => LoggedIdLater(w.log, [ChildGrant(r, rights, parent)], id);
      case _ =>
    }
  }

  /** A marking step counts exactly the grants it flags, none of which was flagged before. */
  lemma MarkCountsOnce(w: World, roots: set<GrantId>)
    requires Traced(w) && CountedOnce(w)
    ensures var newly := NewlyFlagged(w.state.grants, roots);
            && |w.flagged + newly| == |w.flagged| + |newly|
            && (forall id | id in newly :: LoggedId(w.log, id))
            && forall id | id in w.state.grants ::
                 Flag(w.state.grants, roots)[id].revoked <==> id in w.flagged + newly
  {
    var newly := NewlyFlagged(w.state.grants, roots);
    assert newly !! w.flagged;
    forall id | id in newly ensures LoggedId(w.log, id) {
      HeldIdsLogged(w, id);
    }
  }

  lemma NextCountedOnce(w: World, e: Event)
    requires Traced(w) && CountedOnce(w) && Enabled(w, e)
    ensures CountedOnce(Next(w, e))
  {
    if e.MarkRevoked? || e.MarkKindRevoked? {
      MarkCountsOnce(w, Taking(w.state, e));
      RewriteKeepsKeys(w.state, e);
    } else {
      FlaggedLater(w, e);
      NothingFlagged(w, e);
    }
  }

  lemma NothingFlagged(w: World, e: Event)
    requires Traced(w) && CountedOnce(w) && Enabled(w, e) && !e.MarkRevoked? && !e.MarkKindRevoked?
    ensures Next(w, e).flagged == w.flagged && Next(w, e).state.revoked == w.state.revoked
    ensures forall id | id in Next(w, e).state.grants :: Next(w, e).state.grants[id].revoked <==> id in w.flagged
  {
    assert NewlyFlagged(w.state.grants, {}) == {};
    assert w.flagged + {} == w.flagged;
    var after := NextState(w.state, e).grants;
    forall id | id in after ensures after[id].revoked <==> id in w.flagged {
      FlagUnchanged(w, e, id);
    }
  }

  lemma FlagUnchanged(w: World, e: Event, id: GrantId)
    requires CountedOnce(w) && Enabled(w, e) && !e.MarkRevoked? && !e.MarkKindRevoked?
    requires id in NextState(w.state, e).grants
    ensures NextState(w.state, e).grants[id].revoked <==> id in w.flagged
  {
  }

  lemma StepCounted(w: World, e: Event, w': World)
    requires Traced(w) && Recorded(w) && CountedOnce(w) && Step(w, e, w')
    ensures Recorded(w') && CountedOnce(w')
  {
    NextRecorded(w, e);
    NextCountedOnce(w, e);
  }

  lemma {:induction false} RunCounted(worlds: seq<World>, events: seq<Event>, n: nat)
    requires IsRun(worlds, events) && n <= |events|
    ensures Recorded(worlds[n]) && CountedOnce(worlds[n])
  {
    if n > 0 {
      RunCounted(worlds, events, n - 1);
      RunTraced(worlds, events, n - 1);
      StepCounted(worlds[n - 1], events[n - 1], worlds[n]);
    }
  }

  /** On every run: recorded grants are held, released or forgotten, and the revoked counter is the
      number of different grants ever flagged. */
  lemma Accounts(worlds: seq<World>, events: seq<Event>, n: nat)
    requires IsRun(worlds, events) && n <= |events|
    ensures var s := worlds[n].state;
            && s.recorded == |s.grants| + s.released + worlds[n].forgotten
            && s.revoked == |worlds[n].flagged| <= s.recorded
            && forall id | id in s.grants :: s.grants[id].revoked <==> s.grants[id].root in s.revokedRoots
  {
    RunCounted(worlds, events, n);
    RunTraced(worlds, events, n);
    FlaggedFew(worlds[n].log, worlds[n].flagged);
  }

  lemma {:induction false} FlaggedFew(log: Log, ids: set<GrantId>)
    requires forall id | id in ids :: LoggedId(log, id)
    ensures |ids| <= |log|
  {
    if log == [] {
      if id :| id in ids {
        assert LoggedId(log, id);
      }
    } else {
      var last := log[|log| - 1].id;
      forall id | id in ids - {last} ensures LoggedId(log[..|log| - 1], id) {
        var i :| 0 <= i < |log| && log[i].id == id;
        assert log[..|log| - 1][i].id == id;
      }
      FlaggedFew(log[..|log| - 1], ids - {last});
    }
  }

  /** The operations refused in the first `n` steps. */
  ghost function Refusals(worlds: seq<World>, events: seq<Event>, n: nat): nat
    requires n <= |events| && n <= |worlds|
  {
    if n == 0 then 0
    else
      var w, e := worlds[n - 1], events[n - 1];
      Refusals(worlds, events, n - 1) + if e.Accept? && Acceptance(w.state, e.id, e.needs).Err? then 1 else 0
  }

  lemma DeniedStep(w: World, e: Event, w': World)
    requires Step(w, e, w')
    ensures w'.state.denied == w.state.denied + if e.Accept? && Acceptance(w.state, e.id, e.needs).Err? then 1 else 0
  {
  }

  /** Only a refused operation is counted denied: not a question, not a refused derivation or remembrance. */
  lemma {:induction false} DeniedAreRefusals(worlds: seq<World>, events: seq<Event>, n: nat)
    requires IsRun(worlds, events) && n <= |events|
    ensures worlds[n].state.denied == Refusals(worlds, events, n)
  {
    if n > 0 {
      DeniedAreRefusals(worlds, events, n - 1);
      DeniedStep(worlds[n - 1], events[n - 1], worlds[n]);
    }
  }

  // Withdrawn remembered roots, under every interleaving of revocations.

  function Carried(calls: seq<Call>): multiset<GrantId> {
    if calls == [] then multiset{}
    else
      var last := calls[|calls| - 1];
      Carried(calls[..|calls| - 1]) + Load(last)
  }

  function Load(call: Call): multiset<GrantId> {
    if call.Carrying? then call.roots else multiset{}
  }

  lemma SumInAnyOrder(a: multiset<GrantId>, b: multiset<GrantId>, c: multiset<GrantId>)
    ensures a + b + c == a + c + b == a + (b + c)
  {
  }

  lemma {:induction false} CarriedUpdate(calls: seq<Call>, i: nat, call: Call)
    requires i < |calls|
    ensures Carried(calls[i := call]) + Load(calls[i]) == Carried(calls) + Load(call)
  {
    var last := |calls| - 1;
    if i == last {
      assert calls[i := call][..last] == calls[..last];
    } else {
      assert calls[i := call][..last] == calls[..last][i := call];
      CarriedUpdate(calls[..last], i, call);
      assert Carried(calls[i := call]) == Carried(calls[..last][i := call]) + Load(calls[last]);
      SumInAnyOrder(Carried(calls[..last][i := call]), Load(calls[last]), Load(calls[i]));
      SumInAnyOrder(Carried(calls[..last]), Load(calls[last]), Load(call));
    }
  }

  lemma {:induction false} NothingCarried(calls: seq<Call>)
    requires forall i | 0 <= i < |calls| :: calls[i] == Finished
    ensures Carried(calls) == multiset{}
  {
    if calls != [] {
      NothingCarried(calls[..|calls| - 1]);
    }
  }

  ghost predicate SomeMarking(calls: seq<Call>) {
    exists i :: 0 <= i < |calls| && calls[i] == Marking
  }

  /** Every root pushed is handed over, still pending, or carried by a revocation between its last two
      steps; and while any is pending, some revocation has yet to take it. */
  ghost predicate Delivering(w: World) {
    && w.pushed == w.handed + w.state.withdrawn + Carried(w.calls)
    && (w.state.withdrawn != multiset{} ==> SomeMarking(w.calls))
  }

  lemma MarkDelivers(w: World, e: Event)
    requires Delivering(w) && Enabled(w, e) && (e.MarkRevoked? || e.MarkKindRevoked?)
    ensures Delivering(Next(w, e))
  {
    var calls := w.calls + [Marking];
    assert calls[..|w.calls|] == w.calls;
    assert calls[|w.calls|] == Marking;
    assert Carried(calls) == Carried(w.calls);
    SumInAnyOrder(w.handed + w.state.withdrawn, Carried(w.calls), Pushing(w.state, e));
    SumInAnyOrder(w.handed, w.state.withdrawn, Pushing(w.state, e));
  }

  lemma TakenSum(
    handed: multiset<GrantId>, withdrawn: multiset<GrantId>, carried: multiset<GrantId>, after: multiset<GrantId>)
    requires after + multiset{} == carried + withdrawn
    ensures handed + withdrawn + carried == handed + multiset{} + after
  {
    SumInAnyOrder(handed, carried, withdrawn);
    assert handed + multiset{} == handed && after + multiset{} == after;
  }

  lemma TakeDelivers(w: World, e: Event)
    requires Delivering(w) && Enabled(w, e) && e.TakeWithdrawn?
    ensures Delivering(Next(w, e))
  {
    CarriedUpdate(w.calls, e.call, Carrying(w.state.withdrawn));
    TakenSum(w.handed, w.state.withdrawn, Carried(w.calls), Carried(NextCalls(w, e)));
  }

  lemma HandOverDelivers(w: World, e: Event)
    requires Delivering(w) && Enabled(w, e) && e.HandOver?
    ensures Delivering(Next(w, e))
  {
    CarriedUpdate(w.calls, e.call, Finished);
    SumInAnyOrder(w.handed, w.calls[e.call].roots, w.state.withdrawn);
    SumInAnyOrder(w.handed + w.state.withdrawn, w.calls[e.call].roots, Carried(NextCalls(w, e)));
    SumInAnyOrder(w.handed + w.state.withdrawn, Carried(NextCalls(w, e)), w.calls[e.call].roots);
    if SomeMarking(w.calls) {
      var i :| 0 <= i < |w.calls| && w.calls[i] == Marking;
      assert w.calls[e.call := Finished][i] == Marking;
    }
  }

  lemma NextDelivers(w: World, e: Event)
    requires Delivering(w) && Enabled(w, e)
    ensures Delivering(Next(w, e))
  {
    match e
    case MarkRevoked(_) => MarkDelivers(w, e);
    case MarkKindRevoked(_) => MarkDelivers(w, e);
    case TakeWithdrawn(_) => TakeDelivers(w, e);
    case HandOver(_) => HandOverDelivers(w, e);
    case _ => OtherDelivers(w, e);
  }

  lemma OtherDelivers(w: World, e: Event)
    requires Delivering(w) && Enabled(w, e)
    requires !e.MarkRevoked? && !e.MarkKindRevoked? && !e.TakeWithdrawn? && !e.HandOver?
    ensures Delivering(Next(w, e))
  {
    assert Next(w, e).calls == w.calls && Next(w, e).state.withdrawn == w.state.withdrawn;
    assert Next(w, e).pushed == w.pushed && Next(w, e).handed == w.handed;
  }

  lemma StepDelivers(w: World, e: Event, w': World)
    requires Delivering(w) && Step(w, e, w')
    ensures Delivering(w')
  {
    NextDelivers(w, e);
  }

  lemma {:induction false} RunDelivers(worlds: seq<World>, events: seq<Event>, n: nat)
    requires IsRun(worlds, events) && n <= |events|
    ensures Delivering(worlds[n])
  {
    if n > 0 {
      RunDelivers(worlds, events, n - 1);
      StepDelivers(worlds[n - 1], events[n - 1], worlds[n]);
    }
  }

  /** On every interleaving: no root is lost or delivered twice; and when no revocation is in progress,
      nothing is pending and exactly what was pushed was handed over. */
  lemma WithdrawnAreDelivered(worlds: seq<World>, events: seq<Event>, n: nat)
    requires IsRun(worlds, events) && n <= |events|
    ensures var w := worlds[n];
            && w.pushed == w.handed + w.state.withdrawn + Carried(w.calls)
            && ((forall i | 0 <= i < |w.calls| :: w.calls[i] == Finished) ==>
                  w.state.withdrawn == multiset{} && w.handed == w.pushed)
  {
    RunDelivers(worlds, events, n);
    if forall i | 0 <= i < |worlds[n].calls| :: worlds[n].calls[i] == Finished {
      NothingCarried(worlds[n].calls);
    }
  }
}
