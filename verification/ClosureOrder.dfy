/** The lazy link as a least fixpoint, and its independence of the order of members. */
module ClosureOrder {

  import opened LinkClosure
  import opened ClosureLaws

  /** The roots and the members at `taken`, as values. */
  ghost function Values(roots: seq<Member>, archives: Archives, taken: set<Position>): set<Member> {
    (set m | m in roots) + set p | p in taken && IsPosition(archives, p) :: At(archives, p)
  }

  ghost predicate ReferencedIn(ms: set<Member>, n: Symbol) {
    exists m :: m in ms && n in References(m)
  }

  ghost predicate DefinedIn(ms: set<Member>, n: Symbol) {
    exists m :: m in ms && n in Defines(m)
  }

  /** The roots and every archive member. */
  ghost function AllMembers(roots: seq<Member>, archives: Archives): set<Member> {
    Values(roots, archives, Positions(archives))
  }

  /** The member defines a name something in `ms` references. */
  ghost predicate Needed(m: Member, ms: set<Member>) {
    exists n :: n in Defines(m) && ReferencedIn(ms, n)
  }

  /** A set of members, the roots among them, that holds every member defining a name one of it references. */
  ghost predicate Closed(roots: seq<Member>, archives: Archives, ms: set<Member>) {
    && (forall m | m in roots :: m in ms) && ms <= AllMembers(roots, archives)
    && forall m | m in AllMembers(roots, archives) && Needed(m, ms) :: m in ms
  }

  /** The members of every closed set. */
  ghost function Least(roots: seq<Member>, archives: Archives): set<Member> {
    set m | m in AllMembers(roots, archives) && forall ms | Closed(roots, archives, ms) :: m in ms
  }

  /** No name that a member of the least closed set references is defined by two different members. */
  ghost predicate UniquelyNeeded(roots: seq<Member>, archives: Archives) {
    forall m, m', n |
      && m in AllMembers(roots, archives) && m' in AllMembers(roots, archives)
      && n in Defines(m) && n in Defines(m') && ReferencedIn(Least(roots, archives), n) :: m == m'
  }

  lemma LeastIsClosed(roots: seq<Member>, archives: Archives)
    ensures Closed(roots, archives, Least(roots, archives))
    ensures forall ms | Closed(roots, archives, ms) :: Least(roots, archives) <= ms
  {
    var least := Least(roots, archives);
    forall m | m in AllMembers(roots, archives) && Needed(m, least) ensures m in least {
      var n :| n in Defines(m) && ReferencedIn(least, n);
      forall ms | Closed(roots, archives, ms) ensures m in ms {
        var user :| user in least && n in References(user);
        assert user in ms;
        assert Needed(m, ms);
      }
    }
  }

  ghost function Taken(pulled: seq<Position>): set<Position> {
    set p | p in pulled
  }

  lemma TakenGrows(roots: seq<Member>, archives: Archives, pulled: seq<Position>, p: Position)
    requires IsPosition(archives, p)
    ensures Values(roots, archives, Taken(pulled + [p])) == Values(roots, archives, Taken(pulled)) + {At(archives, p)}
  {
    assert Taken(pulled + [p]) == Taken(pulled) + {p};
  }

  lemma {:induction false} LinkedValues(roots: seq<Member>, archives: Archives, pulled: seq<Position>, m: Member)
    requires AllPositions(archives, pulled)
    ensures m in LinkedMembers(roots, archives, pulled) <==> m in Values(roots, archives, Taken(pulled))
  {
    if pulled != [] {
      var rest, last := pulled[..|pulled| - 1], pulled[|pulled| - 1];
      assert pulled == rest + [last];
      LinkedValues(roots, archives, rest, m);
      TakenGrows(roots, archives, rest, last);
    } else {
      assert Taken(pulled) == {};
    }
  }

  lemma LinkedValueNames(roots: seq<Member>, archives: Archives, pulled: seq<Position>, n: Symbol)
    requires AllPositions(archives, pulled)
    ensures ReferencedBy(LinkedMembers(roots, archives, pulled), n) <==>
              ReferencedIn(Values(roots, archives, Taken(pulled)), n)
    ensures DefinedBy(LinkedMembers(roots, archives, pulled), n) <==>
              DefinedIn(Values(roots, archives, Taken(pulled)), n)
  {
    var ms := LinkedMembers(roots, archives, pulled);
    forall m ensures m in ms <==> m in Values(roots, archives, Taken(pulled)) {
      LinkedValues(roots, archives, pulled, m);
    }
  }

  /** The members a link links, as values. */
  ghost function LinkedSet(roots: seq<Member>, archives: Archives): set<Member> {
    Values(roots, archives, Taken(Closure(roots, archives).pulled))
  }

  /** Everything pulled is in every closed set, whether or not names are uniquely defined. */
  lemma {:induction false} PulledIsNeeded(
    roots: seq<Member>, archives: Archives, pulled: seq<Position>, closed: set<Member>, k: nat)
    requires AllPositions(archives, pulled) && k <= |pulled|
    requires forall j | 0 <= j < |pulled| :: Justified(roots, archives, pulled, j)
    requires Closed(roots, archives, closed)
    ensures Values(roots, archives, Taken(pulled[..k])) <= closed
  {
    if k > 0 {
      var before, p := pulled[..k - 1], pulled[k - 1];
      PulledIsNeeded(roots, archives, pulled, closed, k - 1);
      assert Justified(roots, archives, pulled, k - 1);
      var n :| n in Defines(At(archives, p)) && ReferencedBy(LinkedMembers(roots, archives, before), n);
      LinkedValueNames(roots, archives, before, n);
      var m :| m in Values(roots, archives, Taken(before)) && n in References(m);
      assert m in closed && Needed(At(archives, p), closed);
      assert p in pulled && At(archives, p) in AllMembers(roots, archives);
      assert pulled[..k] == before + [p];
      TakenGrows(roots, archives, before, p);
    }
  }

  /** The members a link links are in every closed set; and when no name needed has two definitions, they
      are the least closed set. */
  lemma ClosureIsLeast(roots: seq<Member>, archives: Archives)
    ensures forall ms | Closed(roots, archives, ms) :: LinkedSet(roots, archives) <= ms
    ensures UniquelyNeeded(roots, archives) ==> LinkedSet(roots, archives) == Least(roots, archives)
  {
    var c := Closure(roots, archives);
    ClosureIsSound(roots, archives);
    assert c.pulled[..|c.pulled|] == c.pulled;
    forall ms | Closed(roots, archives, ms) ensures LinkedSet(roots, archives) <= ms {
      PulledIsNeeded(roots, archives, c.pulled, ms, |c.pulled|);
    }
    LeastIsClosed(roots, archives);
    if UniquelyNeeded(roots, archives) {
      LinkedSetIsClosed(roots, archives);
    }
  }

  lemma LinkedSetIsClosed(roots: seq<Member>, archives: Archives)
    requires UniquelyNeeded(roots, archives) && LinkedSet(roots, archives) <= Least(roots, archives)
    ensures Closed(roots, archives, LinkedSet(roots, archives))
  {
    var linked := LinkedSet(roots, archives);
    forall m | m in AllMembers(roots, archives) && Needed(m, linked) ensures m in linked {
      var n :| n in Defines(m) && ReferencedIn(linked, n);
      if m !in linked {
        LeftBehind(roots, archives, m, n);
        var m' :| m' in linked && n in Defines(m');
        var user :| user in linked && n in References(user);
        assert user in Least(roots, archives) && m' in Least(roots, archives);
        assert ReferencedIn(Least(roots, archives), n);
      }
    }
  }

  /** A member left behind defines no name the link references and nothing linked defines. */
  lemma LeftBehind(roots: seq<Member>, archives: Archives, m: Member, n: Symbol)
    requires m in AllMembers(roots, archives) && m !in LinkedSet(roots, archives)
    requires n in Defines(m) && ReferencedIn(LinkedSet(roots, archives), n)
    ensures DefinedIn(LinkedSet(roots, archives), n)
  {
    var c := Closure(roots, archives);
    ClosureIsSound(roots, archives);
    LinkedValueNames(roots, archives, c.pulled, n);
    var p :| IsPosition(archives, p) && At(archives, p) == m;
    assert p !in c.pulled by {
      assert p in Taken(c.pulled) ==> m in LinkedSet(roots, archives);
    }
    assert n !in Defines(At(archives, p)) * Unresolved(c);
  }

  // Reordering.

  ghost predicate InArchives(archives: Archives, m: Member) {
    exists p :: IsPosition(archives, p) && At(archives, p) == m
  }

  /** The same members, in whatever order and however divided into archives. */
  ghost predicate SameMembers(roots: seq<Member>, archives: Archives, roots': seq<Member>, archives': Archives) {
    && (forall m :: m in roots <==> m in roots')
    && forall m :: InArchives(archives, m) <==> InArchives(archives', m)
  }

  /** Which sets are closed does not depend on the order. */
  lemma SameLeast(roots: seq<Member>, archives: Archives, roots': seq<Member>, archives': Archives)
    requires SameMembers(roots, archives, roots', archives')
    ensures AllMembers(roots, archives) == AllMembers(roots', archives')
    ensures Least(roots, archives) == Least(roots', archives')
  {
    forall m ensures m in AllMembers(roots, archives) <==> m in AllMembers(roots', archives') {
      MemberSomewhere(roots, archives, m);
      MemberSomewhere(roots', archives', m);
    }
    forall ms ensures Closed(roots, archives, ms) <==> Closed(roots', archives', ms) {
    }
  }

  lemma MemberSomewhere(roots: seq<Member>, archives: Archives, m: Member)
    ensures m in AllMembers(roots, archives) <==> m in roots || InArchives(archives, m)
  {
    if InArchives(archives, m) {
      var p :| IsPosition(archives, p) && At(archives, p) == m;
      assert p in Positions(archives);
    }
  }

  lemma {:induction false} ImportsAreValues(ms: seq<Member>, entry: Entry)
    ensures entry in ImportsOf(ms) <==> Import(entry) in ms
  {
    if ms != [] {
      assert ms == ms[..|ms| - 1] + [ms[|ms| - 1]];
      ImportsAreValues(ms[..|ms| - 1], entry);
    }
  }

  lemma ResultOfValues(roots: seq<Member>, archives: Archives, ms: set<Member>)
    requires ms == LinkedSet(roots, archives)
    ensures forall entry :: entry in Closure(roots, archives).imports <==> Import(entry) in ms
    ensures forall n :: n in Unresolved(Closure(roots, archives)) <==> ReferencedIn(ms, n) && !DefinedIn(ms, n)
  {
    var c := Closure(roots, archives);
    ClosureIsSound(roots, archives);
    forall entry ensures entry in c.imports <==> Import(entry) in ms {
      ImportsAreValues(LinkedMembers(roots, archives, c.pulled), entry);
      LinkedValues(roots, archives, c.pulled, Import(entry));
    }
    forall n ensures n in Unresolved(c) <==> ReferencedIn(ms, n) && !DefinedIn(ms, n) {
      LinkedValueNames(roots, archives, c.pulled, n);
    }
  }

  /** When no name the least closed set references has two definitions, the members linked, the imports named
      and the names left unresolved are the same for every order of the roots, the archives and their
      members, and however often a member is repeated. */
  lemma OrderDoesNotMatter(roots: seq<Member>, archives: Archives, roots': seq<Member>, archives': Archives)
    requires SameMembers(roots, archives, roots', archives') && UniquelyNeeded(roots, archives)
    ensures var c, c' := Closure(roots, archives), Closure(roots', archives');
            && LinkedSet(roots, archives) == LinkedSet(roots', archives')
            && (forall entry :: entry in c.imports <==> entry in c'.imports)
            && Unresolved(c) == Unresolved(c')
  {
    SameLeast(roots, archives, roots', archives');
    ClosureIsLeast(roots, archives);
    ClosureIsLeast(roots', archives');
    ResultOfValues(roots, archives, Least(roots, archives));
    ResultOfValues(roots', archives', Least(roots, archives));
  }

  /** Without unique definitions the order can matter: of two members defining one missing name, the
      first is pulled, and only one of them references a name nobody supplies. */
  lemma OrderCanMatter()
    ensures var root := Object({}, {"x"});
            var plain, needy := Object({"x"}, {}), Object({"x"}, {"y"});
            && SameMembers([root], [[plain, needy]], [root], [[needy, plain]])
            && Unresolved(Closure([root], [[plain, needy]])) == {}
            && Unresolved(Closure([root], [[needy, plain]])) == {"y"}
  {
    var root := Object({}, {"x"});
    var plain, needy := Object({"x"}, {}), Object({"x"}, {"y"});
    TwoMembers(root, plain, needy);
    TwoMembers(root, needy, plain);
    forall m ensures InArchives([[plain, needy]], m) <==> InArchives([[needy, plain]], m) {
      assert At([[plain, needy]], Position(0, 0)) == At([[needy, plain]], Position(0, 1)) == plain;
      assert At([[plain, needy]], Position(0, 1)) == At([[needy, plain]], Position(0, 0)) == needy;
    }
  }

  /** The link of one root against two members that both define the one name it references. */
  lemma TwoMembers(root: Member, first: Member, second: Member)
    requires root == Object({}, {"x"})
    requires first.Object? && second.Object? && first.definitions == second.definitions == {"x"}
    requires "x" !in first.references
    ensures Unresolved(Closure([root], [[first, second]])) == first.references
  {
    var archives := [[first, second]];
    var p, q := Position(0, 0), Position(0, 1);
    var l := Linked([root]);
    assert [root][..0] == [] && Linked([]) == Link({}, {}, [], []);
    assert l == Add(Linked([root][..0]), root);
    assert {} + root.definitions == {} && {} + root.references == {"x"};
    assert l == Link({}, {"x"}, [], []);
    var l1 := Pull(l, archives, p);
    assert "x" in Defines(first) * Unresolved(l);
    assert Unresolved(l1) == first.references;
    assert !Wanted(l1, archives, p) && !Wanted(l1, archives, q);
    assert Scan(l, archives, 0, 0) == Scan(l1, archives, 0, 1) == Scan(l1, archives, 0, 2) == l1;
    assert Scan(l1, archives, 0, 0) == Scan(l1, archives, 0, 1) == l1;
    assert l1 != l;
    assert Saturate(l, archives) == Saturate(l1, archives) == l1;
  }
}
