/** Where authority comes from: the history of every grant ever recorded, and the chain of parents
    that each grant's stored root stands for. */
module GrantLineage {

  import opened Wrappers
  import opened Grants

  /** Every grant ever recorded, oldest first, as it was recorded. Releasing and forgetting remove
      nothing from it. */
  type Log = seq<Grant>

  ghost predicate LoggedId(log: Log, id: GrantId) {
    exists i :: 0 <= i < |log| && log[i].id == id
  }

  /** An earlier grant is the parent of `grant`, of the same family and the same origin. */
  ghost predicate HasParentIn(log: Log, grant: Grant) {
    exists j :: 0 <= j < |log| && grant.parent == Some(log[j].id) &&
                log[j].root == grant.root && log[j].origin == grant.origin
  }

  ghost predicate SoundEntry(log: Log, grant: Grant) {
    && !LoggedId(log, grant.id)
    && !grant.revoked
    && if grant.parent == None then grant.root == grant.id else HasParentIn(log, grant)
  }

  /** No handle number is used twice, and every entry is a root or derives from an entry before it. */
  ghost predicate Lineage(log: Log) {
    forall i | 0 <= i < |log| :: SoundEntry(log[..i], log[i])
  }

  lemma LineageSnoc(log: Log, grant: Grant)
    requires Lineage(log) && SoundEntry(log, grant)
    ensures Lineage(log + [grant])
  {
    var longer := log + [grant];
    forall i | 0 <= i < |longer| ensures SoundEntry(longer[..i], longer[i]) {
      if i < |log| {
        assert longer[..i] == log[..i];
      } else {
        assert longer[..i] == log;
      }
    }
  }

  lemma DistinctEntries(log: Log, i: nat, j: nat)
    requires Lineage(log) && i < j < |log|
    ensures log[i].id != log[j].id
  {
    assert SoundEntry(log[..j], log[j]);
    assert log[..j][i] == log[i];
  }

  /** A walk from a grant along its parents, by position in the history, to a grant without one. */
  ghost predicate IsChain(log: Log, chain: seq<nat>) {
    && chain != []
    && (forall k | 0 <= k < |chain| :: chain[k] < |log|)
    && (forall k | 0 < k < |chain| :: log[chain[k - 1]].parent == Some(log[chain[k]].id))
    && log[chain[|chain| - 1]].parent == None
  }

  /** The parent of a grant is one grant, recorded before it. */
  lemma ParentIsEarlier(log: Log, i: nat, j: nat)
    requires Lineage(log) && i < |log| && j < |log| && log[i].parent == Some(log[j].id)
    ensures j < i && log[j].root == log[i].root && log[j].origin == log[i].origin
  {
    assert SoundEntry(log[..i], log[i]);
    var p :| 0 <= p < i && log[i].parent == Some(log[..i][p].id) &&
             log[..i][p].root == log[i].root && log[..i][p].origin == log[i].origin;
    if p < j {
      DistinctEntries(log, p, j);
    } else if j < p {
      DistinctEntries(log, j, p);
    }
  }

  lemma {:induction false} ChainExists(log: Log, i: nat) returns (chain: seq<nat>)
    requires Lineage(log) && i < |log|
    ensures IsChain(log, chain) && chain[0] == i
  {
    if log[i].parent == None {
      chain := [i];
    } else {
      assert SoundEntry(log[..i], log[i]);
      var j :| 0 <= j < i && log[i].parent == Some(log[..i][j].id);
      var rest := ChainExists(log, j);
      chain := [i] + rest;
    }
  }

  /** Every walk along parents goes strictly back in the history, so it repeats no grant; it ends at a
      root grant whose identity is the root stored in every grant on it; and they all have one origin. */
  lemma {:induction false} ChainEndsAtStoredRoot(log: Log, chain: seq<nat>)
    requires Lineage(log) && IsChain(log, chain)
    ensures forall a, b | 0 <= a < b < |chain| :: chain[b] < chain[a]
    ensures forall k | 0 <= k < |chain| :: log[chain[k]].root == log[chain[|chain| - 1]].id
    ensures forall k | 0 <= k < |chain| :: log[chain[k]].origin == log[chain[|chain| - 1]].origin
  {
    if |chain| == 1 {
      assert SoundEntry(log[..chain[0]], log[chain[0]]);
    } else {
      var rest := chain[1..];
      assert forall k | 0 < k < |rest| :: log[rest[k - 1]].parent == Some(log[rest[k]].id) by {
        assert forall k | 0 < k < |rest| :: rest[k] == chain[k + 1] && rest[k - 1] == chain[k];
      }
      ChainEndsAtStoredRoot(log, rest);
      ParentIsEarlier(log, chain[0], chain[1]);
      assert forall k | 0 < k < |chain| :: chain[k] == rest[k - 1];
    }
  }

  /** The grant recorded as `id` descends, parent by parent, from the root grant `root`. */
  ghost predicate Descends(log: Log, id: GrantId, root: GrantId) {
    exists chain :: IsChain(log, chain) && log[chain[0]].id == id && log[chain[|chain| - 1]].id == root
  }

  /** The stored root is exactly where the walk ends. */
  lemma StoredRootIsWalked(log: Log, i: nat, root: GrantId)
    requires Lineage(log) && i < |log|
    ensures Descends(log, log[i].id, root) <==> log[i].root == root
  {
    var chain := ChainExists(log, i);
    ChainEndsAtStoredRoot(log, chain);
    if Descends(log, log[i].id, root) {
      var other :| IsChain(log, other) && log[other[0]].id == log[i].id && log[other[|other| - 1]].id == root;
      ChainEndsAtStoredRoot(log, other);
      if other[0] < i {
        DistinctEntries(log, other[0], i);
      } else if i < other[0] {
        DistinctEntries(log, i, other[0]);
      }
    }
  }

  lemma RootIsLogged(log: Log, i: nat)
    requires Lineage(log) && i < |log|
    ensures LoggedId(log, log[i].root)
  {
    var chain := ChainExists(log, i);
    ChainEndsAtStoredRoot(log, chain);
  }
}
