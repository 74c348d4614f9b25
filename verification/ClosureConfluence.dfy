/** Exactly when a lazy link comes out the same for every order: every order follows one path of pulls to its
    end, every such path is some order's, and the ends agree exactly when the forks on the way rejoin. */
module ClosureConfluence {

  import opened LinkClosure
  import opened ClosureLaws
  import opened ClosureOrder

  ghost predicate MissingIn(ms: set<Member>, n: Symbol) {
    ReferencedIn(ms, n) && !DefinedIn(ms, n)
  }

  /** A link holding `ms` would pull `m`. */
  ghost predicate WantedIn(all: set<Member>, ms: set<Member>, m: Member) {
    m in all && exists n :: n in Defines(m) && MissingIn(ms, n)
  }

  /** Members pulled one after another, each wanted when it is. */
  ghost predicate IsPath(all: set<Member>, ms: set<Member>, path: seq<Member>)
    decreases |path|
  {
    path == [] || (WantedIn(all, ms, path[0]) && IsPath(all, ms + {path[0]}, path[1..]))
  }

  ghost function End(ms: set<Member>, path: seq<Member>): set<Member>
    decreases |path|
  {
    if path == [] then ms else End(ms + {path[0]}, path[1..])
  }

  ghost predicate Reaches(all: set<Member>, ms: set<Member>, end: set<Member>) {
    exists path :: IsPath(all, ms, path) && End(ms, path) == end
  }

  ghost predicate Final(all: set<Member>, ms: set<Member>) {
    forall m | m in all :: !WantedIn(all, ms, m)
  }

  /** A link holding `ms` can end with `end`. */
  ghost predicate EndsAt(all: set<Member>, ms: set<Member>, end: set<Member>) {
    Reaches(all, ms, end) && Final(all, end)
  }

  // Paths.

  lemma ReachesItself(all: set<Member>, ms: set<Member>)
    ensures Reaches(all, ms, ms)
  {
    assert IsPath(all, ms, []) && End(ms, []) == ms;
  }

  lemma ReachesByPulling(all: set<Member>, ms: set<Member>, m: Member, end: set<Member>)
    requires WantedIn(all, ms, m) && Reaches(all, ms + {m}, end)
    ensures Reaches(all, ms, end)
  {
    var path :| IsPath(all, ms + {m}, path) && End(ms + {m}, path) == end;
    var longer := [m] + path;
    assert longer[1..] == path;
    assert IsPath(all, ms, longer) && End(ms, longer) == end;
  }

  lemma {:induction false} PathThen(all: set<Member>, ms: set<Member>, path: seq<Member>, end: set<Member>)
    requires IsPath(all, ms, path) && Reaches(all, End(ms, path), end)
    ensures Reaches(all, ms, end)
    decreases |path|
  {
    if path != [] {
      PathThen(all, ms + {path[0]}, path[1..], end);
      ReachesByPulling(all, ms, path[0], end);
    }
  }

  lemma ReachesThen(all: set<Member>, ms: set<Member>, middle: set<Member>, end: set<Member>)
    requires Reaches(all, ms, middle) && Reaches(all, middle, end)
    ensures Reaches(all, ms, end)
  {
    var path :| IsPath(all, ms, path) && End(ms, path) == middle;
    PathThen(all, ms, path, end);
  }

  /** A wanted member is not linked yet. */
  lemma WantedIsNew(all: set<Member>, ms: set<Member>, m: Member)
    requires WantedIn(all, ms, m)
    ensures m !in ms && all - (ms + {m}) < all - ms
  {
    assert m in all - ms;
  }

  /** Every link ends somewhere. */
  lemma {:induction false} SomeEnd(all: set<Member>, ms: set<Member>) returns (end: set<Member>)
    ensures EndsAt(all, ms, end)
    decreases all - ms
  {
    if Final(all, ms) {
      end := ms;
      ReachesItself(all, ms);
    } else {
      var m :| m in all && WantedIn(all, ms, m);
      WantedIsNew(all, ms, m);
      end := SomeEnd(all, ms + {m});
      ReachesByPulling(all, ms, m, end);
    }
  }

  // Forks.

  /** `m` supplies every missing name that `m'` does, so that once it is pulled nothing yet asks for `m'`. */
  ghost predicate Shadows(ms: set<Member>, m: Member, m': Member) {
    forall n | n in Defines(m') && MissingIn(ms, n) :: n in Defines(m)
  }

  ghost predicate Rejoin(all: set<Member>, a: set<Member>, b: set<Member>) {
    exists ms :: Reaches(all, a, ms) && Reaches(all, b, ms)
  }

  /** Whenever one of two wanted members shadows the other, the links that pull the one and the other can
      still come together. */
  ghost predicate ForksRejoin(all: set<Member>, ms: set<Member>) {
    forall m, m' | WantedIn(all, ms, m) && WantedIn(all, ms, m') && Shadows(ms, m, m') ::
      Rejoin(all, ms + {m}, ms + {m'})
  }

  ghost predicate AllForksRejoin(all: set<Member>, from: set<Member>) {
    forall ms | Reaches(all, from, ms) :: ForksRejoin(all, ms)
  }

  ghost predicate OneEnd(all: set<Member>, from: set<Member>) {
    forall a, b | EndsAt(all, from, a) && EndsAt(all, from, b) :: a == b
  }

  lemma StillWanted(all: set<Member>, ms: set<Member>, m: Member, m': Member)
    requires WantedIn(all, ms, m') && !Shadows(ms, m, m')
    ensures WantedIn(all, ms + {m}, m')
  {
    var n :| n in Defines(m') && MissingIn(ms, n) && n !in Defines(m);
    var user :| user in ms && n in References(user);
    assert user in ms + {m};
    assert MissingIn(ms + {m}, n);
  }

  /** A fork where neither member shadows the other rejoins by pulling both. */
  lemma ForkRejoins(all: set<Member>, ms: set<Member>, m: Member, m': Member)
    requires WantedIn(all, ms, m) && WantedIn(all, ms, m') && ForksRejoin(all, ms)
    ensures Rejoin(all, ms + {m}, ms + {m'})
  {
    if Shadows(ms, m', m) {
      assert Rejoin(all, ms + {m'}, ms + {m});
    } else if !Shadows(ms, m, m') {
      StillWanted(all, ms, m, m');
      StillWanted(all, ms, m', m);
      var both := ms + {m} + {m'};
      assert ms + {m'} + {m} == both;
      ReachesItself(all, both);
      ReachesByPulling(all, ms + {m}, m', both);
      ReachesByPulling(all, ms + {m'}, m, both);
    }
  }

  lemma ForksRejoinLater(all: set<Member>, from: set<Member>, m: Member)
    requires AllForksRejoin(all, from) && WantedIn(all, from, m)
    ensures AllForksRejoin(all, from + {m})
  {
    forall ms | Reaches(all, from + {m}, ms) ensures ForksRejoin(all, ms) {
      ReachesByPulling(all, from, m, ms);
    }
  }

  lemma FirstPull(all: set<Member>, from: set<Member>, end: set<Member>) returns (m: Member)
    requires EndsAt(all, from, end) && !Final(all, from)
    ensures WantedIn(all, from, m) && EndsAt(all, from + {m}, end)
  {
    var path :| IsPath(all, from, path) && End(from, path) == end;
    m := path[0];
    assert IsPath(all, from + {m}, path[1..]) && End(from + {m}, path[1..]) == end;
  }

  lemma OnlyItself(all: set<Member>, from: set<Member>, end: set<Member>)
    requires EndsAt(all, from, end) && Final(all, from)
    ensures end == from
  {
    var path :| IsPath(all, from, path) && End(from, path) == end;
    assert path == [];
  }

  /** Forks that rejoin one by one rejoin for good: two ends of one link are the same. */
  lemma {:induction false} RejoiningEndsAgree(all: set<Member>, from: set<Member>, a: set<Member>, b: set<Member>)
    requires AllForksRejoin(all, from) && EndsAt(all, from, a) && EndsAt(all, from, b)
    ensures a == b
    decreases all - from
  {
    if Final(all, from) {
      OnlyItself(all, from, a);
      OnlyItself(all, from, b);
    } else {
      var m := FirstPull(all, from, a);
      var m' := FirstPull(all, from, b);
      ReachesItself(all, from);
      ForkRejoins(all, from, m, m');
      var ms :| Reaches(all, from + {m}, ms) && Reaches(all, from + {m'}, ms);
      var end := SomeEnd(all, ms);
      ReachesThen(all, from + {m}, ms, end);
      ReachesThen(all, from + {m'}, ms, end);
      ForksRejoinLater(all, from, m);
      ForksRejoinLater(all, from, m');
      WantedIsNew(all, from, m);
      WantedIsNew(all, from, m');
      RejoiningEndsAgree(all, from + {m}, a, end);
      RejoiningEndsAgree(all, from + {m'}, b, end);
    }
  }

  /** Every way to link ends with the same members exactly when every fork rejoins. */
  lemma OneEndExactly(all: set<Member>, from: set<Member>)
    ensures OneEnd(all, from) <==> AllForksRejoin(all, from)
  {
    if AllForksRejoin(all, from) {
      forall a, b | EndsAt(all, from, a) && EndsAt(all, from, b) ensures a == b {
        RejoiningEndsAgree(all, from, a, b);
      }
    }
    if OneEnd(all, from) {
      forall ms, m, m' | Reaches(all, from, ms) && WantedIn(all, ms, m) && WantedIn(all, ms, m')
        ensures Rejoin(all, ms + {m}, ms + {m'})
      {
        var a := EndThrough(all, from, ms, m);
        var b := EndThrough(all, from, ms, m');
        assert a == b;
      }
    }
  }

  lemma EndThrough(all: set<Member>, from: set<Member>, ms: set<Member>, m: Member) returns (end: set<Member>)
    requires Reaches(all, from, ms) && WantedIn(all, ms, m)
    ensures EndsAt(all, from, end) && Reaches(all, ms + {m}, end)
  {
    end := SomeEnd(all, ms + {m});
    ReachesByPulling(all, ms, m, end);
    ReachesThen(all, from, ms, end);
  }

  // Orders and paths.

  ghost function RootSet(roots: seq<Member>): set<Member> {
    set m | m in roots
  }

  /** What a sound link misses is what its members miss. */
  lemma MissesValues(roots: seq<Member>, archives: Archives, l: Link, n: Symbol)
    requires Sound(roots, archives, l)
    ensures n in Unresolved(l) <==> MissingIn(Values(roots, archives, Taken(l.pulled)), n)
  {
    LinkedNames(LinkedMembers(roots, archives, l.pulled));
    LinkedValueNames(roots, archives, l.pulled, n);
  }

  lemma WantsValues(roots: seq<Member>, archives: Archives, l: Link, p: Position)
    requires Sound(roots, archives, l) && IsPosition(archives, p)
    ensures Wanted(l, archives, p) <==>
              WantedIn(AllMembers(roots, archives), Values(roots, archives, Taken(l.pulled)), At(archives, p))
  {
    var ms, m := Values(roots, archives, Taken(l.pulled)), At(archives, p);
    assert p in Positions(archives);
    if n :| n in Defines(m) * Unresolved(l) {
      MissesValues(roots, archives, l, n);
    }
    if WantedIn(AllMembers(roots, archives), ms, m) {
      var n :| n in Defines(m) && MissingIn(ms, n);
      MissesValues(roots, archives, l, n);
      assert n in Defines(m) * Unresolved(l);
      assert p !in l.pulled by {
        assert p in Taken(l.pulled) ==> m in ms;
      }
    }
  }

  /** Every order's link is a path to an end. */
  lemma {:induction false} PulledIsPath(roots: seq<Member>, archives: Archives, pulled: seq<Position>, k: nat)
    requires AllPositions(archives, pulled) && k <= |pulled|
    requires forall j | 0 <= j < |pulled| :: Justified(roots, archives, pulled, j)
    ensures Reaches(AllMembers(roots, archives), Values(roots, archives, Taken(pulled[..k])),
                    Values(roots, archives, Taken(pulled)))
    decreases |pulled| - k
  {
    var all, ms := AllMembers(roots, archives), Values(roots, archives, Taken(pulled[..k]));
    if k == |pulled| {
      assert pulled[..k] == pulled;
      ReachesItself(all, ms);
    } else {
      var p := pulled[k];
      PulledIsPath(roots, archives, pulled, k + 1);
      assert pulled[..k + 1] == pulled[..k] + [p];
      TakenGrows(roots, archives, pulled[..k], p);
      assert Justified(roots, archives, pulled, k);
      var n :| && n in Defines(At(archives, p)) && ReferencedBy(LinkedMembers(roots, archives, pulled[..k]), n)
               && !DefinedBy(LinkedMembers(roots, archives, pulled[..k]), n);
      LinkedValueNames(roots, archives, pulled[..k], n);
      assert p in pulled && p in Positions(archives);
      ReachesByPulling(all, ms, At(archives, p), Values(roots, archives, Taken(pulled)));
    }
  }

  lemma LinkEnds(roots: seq<Member>, archives: Archives)
    ensures EndsAt(AllMembers(roots, archives), RootSet(roots), LinkedSet(roots, archives))
  {
    var c, all, linked := Closure(roots, archives), AllMembers(roots, archives), LinkedSet(roots, archives);
    ClosureIsSound(roots, archives);
    PulledIsPath(roots, archives, c.pulled, 0);
    assert Values(roots, archives, Taken([])) == RootSet(roots);
    forall m | m in all ensures !WantedIn(all, linked, m) {
      if WantedIn(all, linked, m) {
        var n :| n in Defines(m) && MissingIn(linked, n);
        WantedIsNew(all, linked, m);
        LeftBehind(roots, archives, m, n);
      }
    }
  }

  // An order for a path.

  lemma {:induction false} QuietScan(l: Link, archives: Archives, a: nat, i: nat)
    requires a < |archives| ==> i <= |archives[a]|
    requires forall p | IsPosition(archives, p) && p.archive >= a :: !Wanted(l, archives, p)
    ensures Scan(l, archives, a, i) == l
    decreases |archives| - a, if a < |archives| then |archives[a]| - i else 0
  {
    if a < |archives| {
      if i == |archives[a]| {
        QuietScan(l, archives, a + 1, 0);
      } else {
        assert !Wanted(l, archives, Position(a, i));
        QuietScan(l, archives, a, i + 1);
      }
    }
  }

  lemma FinalIsQuiet(roots: seq<Member>, archives: Archives, l: Link)
    requires Sound(roots, archives, l)
    requires Final(AllMembers(roots, archives), Values(roots, archives, Taken(l.pulled)))
    ensures forall p | IsPosition(archives, p) :: !Wanted(l, archives, p)
    ensures forall a | 0 <= a <= |archives| :: Scan(l, archives, a, 0) == l
  {
    forall p | IsPosition(archives, p) ensures !Wanted(l, archives, p) {
      WantsValues(roots, archives, l, p);
      assert p in Positions(archives);
    }
    forall a | 0 <= a <= |archives| ensures Scan(l, archives, a, 0) == l {
      QuietScan(l, archives, a, 0);
    }
  }

  /** The first pass over an archive that lists a path to an end follows it. */
  lemma {:induction false} ScanFollows(roots: seq<Member>, archives: Archives, l: Link, i: nat)
    requires |archives| > 0 && i <= |archives[0]| && Sound(roots, archives, l)
    requires IsPath(AllMembers(roots, archives), Values(roots, archives, Taken(l.pulled)), archives[0][i..])
    requires Final(AllMembers(roots, archives), End(Values(roots, archives, Taken(l.pulled)), archives[0][i..]))
    ensures var r := Scan(l, archives, 0, i);
            && Sound(roots, archives, r)
            && Values(roots, archives, Taken(r.pulled)) ==
                 End(Values(roots, archives, Taken(l.pulled)), archives[0][i..])
    decreases |archives[0]| - i
  {
    var rest, p := archives[0][i..], Position(0, i);
    if i == |archives[0]| {
      assert rest == [];
      FinalIsQuiet(roots, archives, l);
      assert Scan(l, archives, 0, i) == Scan(l, archives, 1, 0);
    } else {
      assert rest[0] == At(archives, p) && rest[1..] == archives[0][i + 1..];
      WantsValues(roots, archives, l, p);
      PullSound(roots, archives, l, p);
      TakenGrows(roots, archives, l.pulled, p);
      ScanFollows(roots, archives, Pull(l, archives, p), i + 1);
      assert Scan(l, archives, 0, i) == Scan(Pull(l, archives, p), archives, 0, i + 1);
    }
  }

  lemma StartSound(roots: seq<Member>, archives: Archives)
    ensures Sound(roots, archives, Linked(roots))
    ensures Values(roots, archives, Taken(Linked(roots).pulled)) == RootSet(roots)
  {
    LinkedNames(roots);
    assert Linked(roots) == Linked(roots).(pulled := []);
  }

  lemma LinkFollows(roots: seq<Member>, archives: Archives)
    requires |archives| > 0 && IsPath(AllMembers(roots, archives), RootSet(roots), archives[0])
    requires Final(AllMembers(roots, archives), End(RootSet(roots), archives[0]))
    ensures LinkedSet(roots, archives) == End(RootSet(roots), archives[0])
  {
    var l := Linked(roots);
    StartSound(roots, archives);
    assert archives[0][0..] == archives[0];
    ScanFollows(roots, archives, l, 0);
    var r := Scan(l, archives, 0, 0);
    FinalIsQuiet(roots, archives, r);
    assert Saturate(r, archives) == r;
    ScanProgress(l, archives);
    assert Saturate(l, archives) == r;
  }

  /** A path goes through archive members: a root supplies nothing that is missing. */
  lemma {:induction false} PathInArchives(
    roots: seq<Member>, archives: Archives, ms: set<Member>, path: seq<Member>, k: nat)
    requires RootSet(roots) <= ms && IsPath(AllMembers(roots, archives), ms, path) && k < |path|
    ensures InArchives(archives, path[k])
    decreases k
  {
    if k == 0 {
      WantedIsNew(AllMembers(roots, archives), ms, path[0]);
      MemberSomewhere(roots, archives, path[0]);
    } else {
      PathInArchives(roots, archives, ms + {path[0]}, path[1..], k - 1);
    }
  }

  lemma PathAsArchive(roots: seq<Member>, archives: Archives, path: seq<Member>)
    requires IsPath(AllMembers(roots, archives), RootSet(roots), path)
    ensures SameMembers(roots, archives, roots, [path] + archives)
  {
    var more := [path] + archives;
    forall m ensures InArchives(archives, m) <==> InArchives(more, m) {
      if InArchives(archives, m) {
        var p :| IsPosition(archives, p) && At(archives, p) == m;
        assert At(more, Position(p.archive + 1, p.index)) == m;
      }
      if InArchives(more, m) {
        var p :| IsPosition(more, p) && At(more, p) == m;
        if p.archive == 0 {
          PathInArchives(roots, archives, RootSet(roots), path, p.index);
        } else {
          assert At(archives, Position(p.archive - 1, p.index)) == m;
        }
      }
    }
  }

  /** Every end is some order's: the one that lists a path to it first. */
  lemma EndIsLinked(roots: seq<Member>, archives: Archives, end: set<Member>) returns (archives': Archives)
    requires EndsAt(AllMembers(roots, archives), RootSet(roots), end)
    ensures SameMembers(roots, archives, roots, archives') && LinkedSet(roots, archives') == end
  {
    var path :| IsPath(AllMembers(roots, archives), RootSet(roots), path) && End(RootSet(roots), path) == end;
    archives' := [path] + archives;
    PathAsArchive(roots, archives, path);
    SameLeast(roots, archives, roots, archives');
    LinkFollows(roots, archives');
  }

  /** Every order of the same members links the same ones. */
  ghost predicate OrderFree(roots: seq<Member>, archives: Archives) {
    forall roots', archives' | SameMembers(roots, archives, roots', archives') ::
      LinkedSet(roots', archives') == LinkedSet(roots, archives)
  }

  /** The order of the members does not matter exactly when, wherever a link can get to and one of two
      members it wants shadows the other, pulling the one or the other can still lead to the same link. */
  lemma OrderFreeExactly(roots: seq<Member>, archives: Archives)
    ensures OrderFree(roots, archives) <==> AllForksRejoin(AllMembers(roots, archives), RootSet(roots))
  {
    var all, from := AllMembers(roots, archives), RootSet(roots);
    OneEndExactly(all, from);
    LinkEnds(roots, archives);
    if OneEnd(all, from) {
      forall roots', archives' | SameMembers(roots, archives, roots', archives')
        ensures LinkedSet(roots', archives') == LinkedSet(roots, archives)
      {
        SameLeast(roots, archives, roots', archives');
        assert RootSet(roots') == from;
        LinkEnds(roots', archives');
      }
    }
    if OrderFree(roots, archives) {
      forall a, b | EndsAt(all, from, a) && EndsAt(all, from, b) ensures a == b {
        var one := EndIsLinked(roots, archives, a);
        var other := EndIsLinked(roots, archives, b);
      }
    }
  }
}
