/** What the registry answers, in terms of what it was told: the rights and origins grants were recorded with,
    the families revoked, and the kinds forgotten. */
module GrantOutcomes {

  import opened Wrappers
  import opened Grants
  import opened GrantLineage
  import opened GrantRuns
  import opened GrantRevocation

  /** The step records a grant `id` with these rights. */
  ghost predicate Records(w: World, e: Event, id: GrantId, rights: Rights) {
    || (e.RecordRoot? && e.id == id && e.rights == rights)
    || (e.RecordDescendant? && e.id == id && e.rights == rights && Derives(w.state, e.parent))
  }

  ghost predicate HasEntry(log: Log, entry: Grant) {
    exists k :: 0 <= k < |log| && log[k] == entry
  }

  lemma EntryStays(w: World, e: Event, w': World, entry: Grant)
    requires Step(w, e, w') && HasEntry(w.log, entry)
    ensures HasEntry(w'.log, entry)
  {
    var k :| 0 <= k < |w.log| && w.log[k] == entry;
    assert w'.log[k] == entry;
  }

  lemma EntryIsMade(w: World, e: Event, w': World, id: GrantId, rights: Rights) returns (entry: Grant)
    requires Step(w, e, w') && Records(w, e, id, rights)
    ensures HasEntry(w'.log, entry) && entry.id == id && entry.rights == rights
    ensures e.RecordRoot? ==> entry.parent == None && entry.origin == e.origin && entry.lifetime == e.lifetime
    ensures e.RecordDescendant? ==>
              && entry.parent == Some(e.parent.id) && entry.origin == e.parent.origin
              && entry.lifetime == e.parent.lifetime
  {
    entry := w'.log[|w.log|];
  }

  /** The history says what was recorded, from then on. */
  lemma {:induction false} RecordedIsLogged(
    worlds: seq<World>, events: seq<Event>, i: nat, n: nat, id: GrantId, rights: Rights) returns (entry: Grant)
    requires IsRun(worlds, events) && i < n <= |events| && Records(worlds[i], events[i], id, rights)
    ensures HasEntry(worlds[n].log, entry) && entry.id == id && entry.rights == rights
    ensures events[i].RecordRoot? ==> entry.parent == None && entry.origin == events[i].origin
    ensures events[i].RecordDescendant? ==>
              entry.parent == Some(events[i].parent.id) && entry.origin == events[i].parent.origin
  {
    assert Step(worlds[n - 1], events[n - 1], worlds[n]);
    if n == i + 1 {
      entry := EntryIsMade(worlds[i], events[i], worlds[n], id, rights);
    } else {
      entry := RecordedIsLogged(worlds, events, i, n - 1, id, rights);
      EntryStays(worlds[n - 1], events[n - 1], worlds[n], entry);
    }
  }

  /** A grant or copy has what its entry has. */
  lemma EntryIsAuthority(log: Log, entry: Grant, grant: Grant)
    requires Lineage(log) && HasEntry(log, entry) && Logged(log, grant) && entry.id == grant.id
    ensures SameAuthority(entry, grant)
  {
    var k :| 0 <= k < |log| && log[k] == entry;
    var j :| 0 <= j < |log| && SameAuthority(log[j], grant);
    if k < j {
      DistinctEntries(log, k, j);
    } else if j < k {
      DistinctEntries(log, j, k);
    }
  }

  ghost predicate Live(worlds: seq<World>, events: seq<Event>, n: nat, id: GrantId)
    requires n < |worlds|
  {
    forall root | Descends(worlds[n].log, id, root) :: !RevokedSince(worlds, events, root, n)
  }

  /** An operation is accepted exactly when its grant is held, no family it descends from was revoked since, and
      it needs no right but those the grant was recorded with; and it lacks rights exactly when it needs more. */
  lemma AcceptedAsRecorded(
    worlds: seq<World>, events: seq<Event>, i: nat, n: nat, id: GrantId, rights: Rights, needs: Rights)
    requires IsRun(worlds, events) && i < n <= |events| && Records(worlds[i], events[i], id, rights)
    ensures var outcome, held := Acceptance(worlds[n].state, id, needs), id in worlds[n].state.grants;
            && (outcome.Ok? <==> held && Live(worlds, events, n, id) && needs <= rights)
            && (outcome == Err(LacksRights) <==> held && Live(worlds, events, n, id) && !(needs <= rights))
  {
    var w := worlds[n];
    AcceptedExactly(worlds, events, n, id, needs);
    if id in w.state.grants {
      RunTraced(worlds, events, n);
      var entry := RecordedIsLogged(worlds, events, i, n, id, rights);
      EntryIsAuthority(w.log, entry, w.state.grants[id]);
    }
  }

  /** A copy derives exactly when its grant was recorded with the right to, and no family it descends from was
      revoked since. */
  lemma DerivesAsRecorded(
    worlds: seq<World>, events: seq<Event>, i: nat, n: nat, copy: Grant, rights: Rights)
    requires IsRun(worlds, events) && i < n <= |events| && Records(worlds[i], events[i], copy.id, rights)
    requires copy in worlds[n].copies
    ensures Derives(worlds[n].state, copy) <==> Derive in rights && Live(worlds, events, n, copy.id)
  {
    DerivesExactly(worlds, events, n, copy);
    RunTraced(worlds, events, n);
    var entry := RecordedIsLogged(worlds, events, i, n, copy.id, rights);
    EntryIsAuthority(worlds[n].log, entry, copy);
  }

  /** The grant was given by a person or by provisioning, not derived and not automatic. */
  ghost predicate GivenFromOutside(log: Log, id: GrantId) {
    exists k :: 0 <= k < |log| && log[k].id == id && log[k].parent == None && log[k].origin != Automatic
  }

  lemma GivenIsHeld(w: World, id: GrantId)
    requires Traced(w) && id in w.state.grants
    ensures GivenFromOutside(w.log, id) <==>
              w.state.grants[id].parent == None && w.state.grants[id].origin != Automatic
    ensures w.state.grants[id].parent == None ==> w.state.grants[id].root == id
  {
    var grant := w.state.grants[id];
    var j :| 0 <= j < |w.log| && SameAuthority(w.log[j], grant);
    assert SoundEntry(w.log[..j], w.log[j]);
    if GivenFromOutside(w.log, id) {
      var k :| 0 <= k < |w.log| && w.log[k].id == id && w.log[k].parent == None && w.log[k].origin != Automatic;
      EntryIsAuthority(w.log, w.log[k], grant);
    }
  }

  /** A grant can be remembered exactly when it is held, was given from outside, and was not revoked since;
      otherwise it is unknown, or its family was revoked, or it is derived or automatic, in that order. */
  lemma RememberedExactly(worlds: seq<World>, events: seq<Event>, n: nat, id: GrantId)
    requires IsRun(worlds, events) && n <= |events|
    ensures var w := worlds[n];
            var outcome, held := Remembrance(w.state, id), id in w.state.grants;
            && (outcome.Ok? <==> held && GivenFromOutside(w.log, id) && !RevokedSince(worlds, events, id, n))
            && (outcome == Err(Unknown) <==> !held)
            && (outcome == Err(Revoked) <==> held && !Live(worlds, events, n, id))
            && (outcome == Err(LacksRights) <==>
                  held && Live(worlds, events, n, id) && !GivenFromOutside(w.log, id))
  {
    var w := worlds[n];
    RunTraced(worlds, events, n);
    if id in w.state.grants {
      var grant := w.state.grants[id];
      GivenIsHeld(w, id);
      RevokedRootsAreHistory(worlds, events, grant.root, n);
      RevokedRootsAreHistory(worlds, events, id, n);
      LoggedDescends(w.log, grant, grant.root);
      forall root | Descends(w.log, id, root) ensures root == grant.root {
        LoggedDescends(w.log, grant, root);
      }
    }
  }

  /** Forgetting a kind ends exactly the grants of that kind and those descending from a root of it, whatever
      their own kind, and leaves the others as they were. */
  lemma ForgottenExactly(worlds: seq<World>, events: seq<Event>, n: nat, kind: Kind, id: GrantId)
    requires IsRun(worlds, events) && n <= |events|
    ensures var w, after := worlds[n], Forgotten(worlds[n].state, kind);
            && (id in after.grants <==>
                  && id in w.state.grants && id.kind != kind
                  && forall root | Descends(w.log, id, root) :: root.kind != kind)
            && (id in after.grants ==> after.grants[id] == w.state.grants[id])
  {
    var w := worlds[n];
    RunTraced(worlds, events, n);
    if id in w.state.grants {
      LoggedDescends(w.log, w.state.grants[id], w.state.grants[id].root);
      forall root | Descends(w.log, id, root) ensures root == w.state.grants[id].root {
        LoggedDescends(w.log, w.state.grants[id], root);
      }
    }
  }
}
