/** Listing the registry (`enumerate` in `crates/host/src/grant.rs`): the same registry always reads the same. */
module GrantListing {

  import opened Grants

  /** Kinds compare in the order they are declared. */
  function Rank(kind: Kind): nat {
    match kind
    case AppData => 0
    case Assets => 1
    case Audio => 2
    case Clipboard => 3
    case Device => 4
    case Directory => 5
    case Document => 6
    case Http => 7
    case Process => 8
    case Sqlite => 9
    case SystemMonitor => 10
    case Tcp => 11
    case Watch => 12
  }

  predicate Below(a: GrantId, b: GrantId) {
    Rank(a.kind) < Rank(b.kind) || (a.kind == b.kind && a.number < b.number)
  }

  /** Identities are totally ordered. */
  lemma BelowIsTotal(a: GrantId, b: GrantId, c: GrantId)
    ensures Below(a, b) || Below(b, a) || a == b
    ensures !(Below(a, b) && Below(b, a)) && !Below(a, a)
    ensures Below(a, b) && Below(b, c) ==> Below(a, c)
  {
  }

  ghost predicate Ascends(list: seq<Grant>) {
    forall i, j | 0 <= i < j < |list| :: Below(list[i].id, list[j].id)
  }

  ghost predicate Lists(list: seq<Grant>, grants: map<GrantId, Grant>, ids: set<GrantId>) {
    && Ascends(list)
    && (forall id | id in ids :: id in grants && grants[id] in list)
    && forall g | g in list :: g.id in ids && g.id in grants && grants[g.id] == g
  }

  /** One grant put in its place among those before it. */
  function Insert(list: seq<Grant>, g: Grant): seq<Grant> {
    if list == [] || Below(list[|list| - 1].id, g.id) then list + [g]
    else Insert(list[..|list| - 1], g) + [list[|list| - 1]]
  }

  lemma {:induction false} InsertMembers(list: seq<Grant>, g: Grant, x: Grant)
    ensures x in Insert(list, g) <==> x in list || x == g
  {
    if !(list == [] || Below(list[|list| - 1].id, g.id)) {
      InsertMembers(list[..|list| - 1], g, x);
      assert list == list[..|list| - 1] + [list[|list| - 1]];
    }
  }

  lemma {:induction false} InsertAscends(list: seq<Grant>, g: Grant)
    requires Ascends(list) && forall x | x in list :: x.id != g.id
    ensures Ascends(Insert(list, g))
  {
    if list != [] {
      var last, rest := list[|list| - 1], list[..|list| - 1];
      BelowIsTotal(last.id, g.id, g.id);
      if Below(last.id, g.id) {
        forall i | 0 <= i < |list| ensures Below(list[i].id, g.id) {
          BelowIsTotal(list[i].id, last.id, g.id);
        }
      } else {
        InsertAscends(rest, g);
        var inserted := Insert(rest, g);
        forall i | 0 <= i < |inserted| ensures Below(inserted[i].id, last.id) {
          InsertMembers(rest, g, inserted[i]);
          assert inserted[i] in inserted;
        }
      }
    }
  }

  /** `enumerate`: every held grant, by identity. */
  method Enumerate(grants: map<GrantId, Grant>) returns (list: seq<Grant>)
    requires forall id | id in grants :: grants[id].id == id
    ensures Lists(list, grants, grants.Keys)
  {
    list := [];
    var todo := grants.Keys;
    while todo != {}
      invariant todo <= grants.Keys && Lists(list, grants, grants.Keys - todo)
      decreases todo
    {
      var id :| id in todo;
      InsertAscends(list, grants[id]);
      forall x ensures x in Insert(list, grants[id]) <==> x in list || x == grants[id] {
        InsertMembers(list, grants[id], x);
      }
      list := Insert(list, grants[id]);
      todo := todo - {id};
    }
    assert grants.Keys - {} == grants.Keys;
  }

  lemma WithoutLast(a: seq<Grant>, g: Grant)
    requires Ascends(a) && |a| > 0
    ensures g in a[..|a| - 1] <==> g in a && g != a[|a| - 1]
  {
    var last := |a| - 1;
    assert a == a[..last] + [a[last]];
    if a[last] in a[..last] {
      BelowIsTotal(a[last].id, a[last].id, a[last].id);
    }
  }

  lemma SameLast(a: seq<Grant>, b: seq<Grant>)
    requires Ascends(a) && Ascends(b) && (forall g :: g in a <==> g in b) && |a| > 0 && |b| > 0
    ensures a[|a| - 1] == b[|b| - 1]
  {
    var x, y := a[|a| - 1], b[|b| - 1];
    assert x in b && y in a;
    BelowIsTotal(x.id, y.id, x.id);
  }

  /** There is one such listing. */
  lemma {:induction false} ListingIsUnique(a: seq<Grant>, b: seq<Grant>)
    requires Ascends(a) && Ascends(b) && forall g :: g in a <==> g in b
    ensures a == b
  {
    assert |a| > 0 ==> a[0] in a;
    assert |b| > 0 ==> b[0] in b;
    if |a| > 0 && |b| > 0 {
      var x := a[|a| - 1];
      var before, before' := a[..|a| - 1], b[..|b| - 1];
      SameLast(a, b);
      assert a == before + [x] && b == before' + [x];
      forall g ensures g in before <==> g in before' {
        WithoutLast(a, g);
        WithoutLast(b, g);
      }
      ListingIsUnique(before, before');
    }
  }
}
