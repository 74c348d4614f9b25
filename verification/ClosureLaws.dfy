/** What a lazy link guarantees: every member pulled was needed, nothing needed was left, and, when no
    name has two definitions, the result is the least closed set whatever the order of the members. */
module ClosureLaws {

  import opened LinkClosure

  ghost predicate DefinedBy(ms: seq<Member>, n: Symbol) {
    exists i :: 0 <= i < |ms| && n in Defines(ms[i])
  }

  ghost predicate ReferencedBy(ms: seq<Member>, n: Symbol) {
    exists i :: 0 <= i < |ms| && n in References(ms[i])
  }

  function ImportsOf(ms: seq<Member>): seq<Entry> {
    if ms == [] then []
    else ImportsOf(ms[..|ms| - 1]) + if ms[|ms| - 1].Import? then [ms[|ms| - 1].entry] else []
  }

  ghost predicate AllPositions(archives: Archives, pulled: seq<Position>) {
    forall p | p in pulled :: IsPosition(archives, p)
  }

  /** The members linked, in the order they were: the roots, then those pulled. */
  function LinkedMembers(roots: seq<Member>, archives: Archives, pulled: seq<Position>): seq<Member>
    requires AllPositions(archives, pulled)
  {
    if pulled == [] then roots
    else LinkedMembers(roots, archives, pulled[..|pulled| - 1]) + [At(archives, pulled[|pulled| - 1])]
  }

  lemma NamesSnoc(ms: seq<Member>, m: Member, n: Symbol)
    ensures DefinedBy(ms + [m], n) <==> DefinedBy(ms, n) || n in Defines(m)
    ensures ReferencedBy(ms + [m], n) <==> ReferencedBy(ms, n) || n in References(m)
  {
    var longer := ms + [m];
    assert longer[|ms|] == m;
    if i :| 0 <= i < |ms| && n in Defines(ms[i]) {
      assert longer[i] == ms[i];
    }
    if i :| 0 <= i < |ms| && n in References(ms[i]) {
      assert longer[i] == ms[i];
    }
  }

  /** The running link knows exactly the names its members define and reference, and their imports. */
  lemma {:induction false} LinkedNames(ms: seq<Member>)
    ensures forall n :: n in Linked(ms).defined <==> DefinedBy(ms, n)
    ensures forall n :: n in Linked(ms).undefined <==> ReferencedBy(ms, n)
    ensures Linked(ms).imports == ImportsOf(ms) && Linked(ms).pulled == []
  {
    if ms != [] {
      var rest, last := ms[..|ms| - 1], ms[|ms| - 1];
      assert ms == rest + [last];
      LinkedNames(rest);
      forall n {
        NamesSnoc(rest, last, n);
      }
    }
  }

  /** The member pulled at step `k` defines a name that what was linked before it references and does
      not define. */
  ghost predicate Justified(roots: seq<Member>, archives: Archives, pulled: seq<Position>, k: nat)
    requires AllPositions(archives, pulled) && k < |pulled|
  {
    exists n ::
      && n in Defines(At(archives, pulled[k]))
      && ReferencedBy(LinkedMembers(roots, archives, pulled[..k]), n)
      && !DefinedBy(LinkedMembers(roots, archives, pulled[..k]), n)
  }

  ghost predicate NoRepeats(pulled: seq<Position>) {
    forall j, k | 0 <= j < k < |pulled| :: pulled[j] != pulled[k]
  }

  ghost predicate Sound(roots: seq<Member>, archives: Archives, l: Link) {
    && AllPositions(archives, l.pulled)
    && NoRepeats(l.pulled)
    && l == Linked(LinkedMembers(roots, archives, l.pulled)).(pulled := l.pulled)
    && forall k | 0 <= k < |l.pulled| :: Justified(roots, archives, l.pulled, k)
  }

  lemma PullSound(roots: seq<Member>, archives: Archives, l: Link, p: Position)
    requires Sound(roots, archives, l) && IsPosition(archives, p) && Wanted(l, archives, p)
    ensures Sound(roots, archives, Pull(l, archives, p))
  {
    var ms, longer := LinkedMembers(roots, archives, l.pulled), l.pulled + [p];
    assert longer[..|l.pulled|] == l.pulled;
    LinkedNames(ms);
    var grown := LinkedMembers(roots, archives, longer);
    assert grown == ms + [At(archives, p)];
    assert grown[..|ms|] == ms;
    forall k | 0 <= k < |longer| ensures Justified(roots, archives, longer, k) {
      if k < |l.pulled| {
        assert Justified(roots, archives, l.pulled, k);
        assert longer[..k] == l.pulled[..k];
      } else {
        var n :| n in Defines(At(archives, p)) * Unresolved(l);
        assert longer[..k] == l.pulled;
      }
    }
  }

  lemma VisitSound(roots: seq<Member>, archives: Archives, l: Link, p: Position)
    requires Sound(roots, archives, l) && IsPosition(archives, p)
    ensures Sound(roots, archives, Visit(l, archives, p))
  {
    if Wanted(l, archives, p) {
      PullSound(roots, archives, l, p);
    }
  }

  lemma {:induction false} ScanSound(roots: seq<Member>, archives: Archives, l: Link, a: nat, i: nat)
    requires Sound(roots, archives, l)
    requires a < |archives| ==> i <= |archives[a]|
    ensures Sound(roots, archives, Scan(l, archives, a, i))
    decreases |archives| - a, if a < |archives| then |archives[a]| - i else 0
  {
    if a < |archives| {
      if i == |archives[a]| {
        ScanSound(roots, archives, l, a + 1, 0);
        assert Scan(l, archives, a, i) == Scan(l, archives, a + 1, 0);
      } else {
        var visited := Visit(l, archives, Position(a, i));
        VisitSound(roots, archives, l, Position(a, i));
        ScanSound(roots, archives, visited, a, i + 1);
        assert Scan(l, archives, a, i) == Scan(visited, archives, a, i + 1);
      }
    }
  }

  /** A pass that pulled nothing wanted nothing. */
  lemma {:induction false} IdleScan(l: Link, archives: Archives, a: nat, i: nat, p: Position)
    requires a < |archives| ==> i <= |archives[a]|
    requires Scan(l, archives, a, i) == l
    requires IsPosition(archives, p) && (p.archive > a || (p.archive == a && p.index >= i))
    ensures !Wanted(l, archives, p)
    decreases |archives| - a, if a < |archives| then |archives[a]| - i else 0
  {
    if i == |archives[a]| {
      IdleScan(l, archives, a + 1, 0, p);
    } else {
      var visited := Visit(l, archives, Position(a, i));
      assert visited.pulled <= l.pulled;
      if p != Position(a, i) {
        IdleScan(l, archives, a, i + 1, p);
      }
    }
  }

  lemma {:induction false} SaturateSound(roots: seq<Member>, archives: Archives, l: Link)
    requires Sound(roots, archives, l)
    ensures Sound(roots, archives, Saturate(l, archives))
    ensures forall p | IsPosition(archives, p) :: !Wanted(Saturate(l, archives), archives, p)
    decreases Untaken(archives, l)
  {
    var r := Scan(l, archives, 0, 0);
    if r == l {
      forall p | IsPosition(archives, p) ensures !Wanted(l, archives, p) {
        IdleScan(l, archives, 0, 0, p);
      }
    } else {
      ScanProgress(l, archives);
      ScanSound(roots, archives, l, 0, 0);
      SaturateSound(roots, archives, r);
    }
  }

  /** On every input: the imports are those of the members linked, the unresolved names are those they
      reference and do not define, every pulled member was pulled once and for a name missing at the
      time, and no member left behind defines an unresolved name. */
  lemma ClosureIsSound(roots: seq<Member>, archives: Archives)
    ensures var c := Closure(roots, archives);
            && AllPositions(archives, c.pulled) && NoRepeats(c.pulled)
            && (forall k | 0 <= k < |c.pulled| :: Justified(roots, archives, c.pulled, k))
            && var ms := LinkedMembers(roots, archives, c.pulled);
               && c.imports == ImportsOf(ms)
               && (forall n :: n in Unresolved(c) <==> ReferencedBy(ms, n) && !DefinedBy(ms, n))
               && forall p | IsPosition(archives, p) && p !in c.pulled ::
                    Defines(At(archives, p)) * Unresolved(c) == {}
  {
    var c := Closure(roots, archives);
    assert Linked(roots) == Linked(roots).(pulled := []) by {
      LinkedNames(roots);
    }
    assert Sound(roots, archives, Linked(roots)) by {
      LinkedNames(roots);
    }
    SaturateSound(roots, archives, Linked(roots));
    LinkedNames(LinkedMembers(roots, archives, c.pulled));
  }
}
