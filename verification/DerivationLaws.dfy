/** What the derivation owes its inputs: told of the host, the startup object, the runtime archives, the UCRT
    and native libraries and the application's own, and not of how they are linked. */
module DerivationLaws {

  import opened Wrappers
  import opened LinkClosure
  import opened ClosureLaws
  import opened ClosureOrder
  import opened ClosureConfluence
  import opened ImportDerivation

  /** The member is one the link reads: of the host, the startup object, a runtime archive or a UCRT library. */
  ghost predicate IsRead(inputs: Inputs, m: Member) {
    || m in inputs.host || m in inputs.startup || m in inputs.ucrt
    || exists a :: 0 <= a < |inputs.runtime| && m in inputs.runtime[a]
  }

  ghost predicate DefinedInInputs(inputs: Inputs, n: Symbol) {
    exists m :: IsRead(inputs, m) && n in Defines(m)
  }

  /** An object of the host, or the startup object, references the name. */
  ghost predicate ReferencedAtRoot(inputs: Inputs, n: Symbol) {
    exists m :: (m in inputs.host || m in inputs.startup) && m.Object? && n in m.references
  }

  /** Some member the link reads references the name. */
  ghost predicate ReferencedInInputs(inputs: Inputs, n: Symbol) {
    exists m :: IsRead(inputs, m) && m.Object? && n in m.references
  }

  /** A library member imports the name. */
  ghost predicate SuppliesAt(libraries: seq<Option<seq<Member>>>, l: int, i: int, n: Symbol) {
    && 0 <= l < |libraries| && libraries[l].Some? && 0 <= i < |libraries[l].value|
    && libraries[l].value[i].Import? && n in Defines(libraries[l].value[i])
  }

  ghost predicate LibrarySupplies(libraries: seq<Option<seq<Member>>>, n: Symbol) {
    exists l, i :: SuppliesAt(libraries, l, i, n)
  }

  /** The linker defines the name itself, or the application is to. */
  predicate DefinedLater(n: Symbol) {
    n == "__ImageBase" || n == "__CTOR_LIST__" || n == "__DTOR_LIST__" || "roc_" <= n
  }

  /** A UCRT library's imports name the DLL, in any case. */
  ghost predicate IsUcrtDll(inputs: Inputs, dll: string) {
    exists m :: m in inputs.ucrt && m.Import? && Lower(m.entry.dll) == Lower(dll)
  }

  // DLL names.

  predicate SameLetter(a: char, b: char) {
    || a == b
    || ('A' <= a <= 'Z' && b as int == a as int + 32)
    || ('A' <= b <= 'Z' && a as int == b as int + 32)
  }

  /** Two names are one key exactly when they differ at most in the case of ASCII letters. */
  lemma LowerIgnoresCase(a: string, b: string)
    ensures Lower(a) == Lower(b) <==> |a| == |b| && forall i | 0 <= i < |a| :: SameLetter(a[i], b[i])
  {
    if Lower(a) == Lower(b) {
      assert |a| == |Lower(a)| == |Lower(b)| == |b|;
      forall i | 0 <= i < |a| ensures SameLetter(a[i], b[i]) {
        assert Lower(a)[i] == Lower(b)[i];
      }
    }
    if |a| == |b| && forall i | 0 <= i < |a| :: SameLetter(a[i], b[i]) {
      assert forall i | 0 <= i < |a| :: Lower(a)[i] == Lower(b)[i];
    }
  }

  /** Two imports are one requirement exactly when they have one symbol, and DLL names that differ at most so. */
  lemma SameKeyExactly(e: Entry, f: Entry)
    ensures KeyOf(e) == KeyOf(f) <==>
              && e.symbol == f.symbol && |e.dll| == |f.dll|
              && forall i | 0 <= i < |e.dll| :: SameLetter(e.dll[i], f.dll[i])
  {
    LowerIgnoresCase(e.dll, f.dll);
  }

  // What is linked.

  lemma {:induction false} ObjectsAre(ms: seq<Member>, m: Member)
    ensures m in Objects(ms) <==> m in ms && m.Object?
    ensures m in ShortImports(ms) <==> m in ms && m.Import?
  {
    if ms != [] {
      assert ms == ms[..|ms| - 1] + [ms[|ms| - 1]];
      ObjectsAre(ms[..|ms| - 1], m);
    }
  }

  lemma RootsAre(inputs: Inputs, m: Member)
    ensures m in Roots(inputs) <==> (m in inputs.host && m.Object?) || m in inputs.startup
  {
    ObjectsAre(inputs.host, m);
  }

  /** A member read is a root or somewhere in the archives searched. */
  lemma ReadIsSearched(inputs: Inputs, m: Member)
    ensures IsRead(inputs, m) <==> m in Roots(inputs) || InArchives(Searched(inputs), m)
  {
    var archives, last := Searched(inputs), |inputs.runtime| + 1;
    RootsAre(inputs, m);
    ObjectsAre(inputs.host, m);
    assert archives[0] == ShortImports(inputs.host) && archives[last] == inputs.ucrt && |archives| == last + 1;
    assert forall a | 0 <= a < |inputs.runtime| :: archives[a + 1] == inputs.runtime[a];
    if m in ShortImports(inputs.host) {
      var i :| 0 <= i < |archives[0]| && archives[0][i] == m;
      assert At(archives, Position(0, i)) == m;
    }
    if m in inputs.ucrt {
      var i :| 0 <= i < |archives[last]| && archives[last][i] == m;
      assert At(archives, Position(last, i)) == m;
    }
    if a :| 0 <= a < |inputs.runtime| && m in inputs.runtime[a] {
      var i :| 0 <= i < |archives[a + 1]| && archives[a + 1][i] == m;
      assert At(archives, Position(a + 1, i)) == m;
    }
    if InArchives(archives, m) {
      var p :| IsPosition(archives, p) && At(archives, p) == m;
      assert p.archive == 0 || p.archive == last || archives[p.archive] == inputs.runtime[p.archive - 1];
    }
  }

  lemma LinkedIsRead(inputs: Inputs, pulled: seq<Position>, m: Member)
    requires AllPositions(Searched(inputs), pulled)
    requires m in LinkedMembers(Roots(inputs), Searched(inputs), pulled)
    ensures IsRead(inputs, m)
  {
    LinkedValues(Roots(inputs), Searched(inputs), pulled, m);
    ReadIsSearched(inputs, m);
    if m !in Roots(inputs) {
      var p :| p in Taken(pulled) && IsPosition(Searched(inputs), p) && At(Searched(inputs), p) == m;
    }
  }

  lemma {:induction false} RootsAreLinked(roots: seq<Member>, archives: Archives, pulled: seq<Position>, m: Member)
    requires AllPositions(archives, pulled) && m in roots
    ensures m in LinkedMembers(roots, archives, pulled)
  {
    LinkedValues(roots, archives, pulled, m);
  }

  /** A name the link leaves unresolved is referenced by a member read and defined by none. */
  lemma UnresolvedIsUndefined(inputs: Inputs, n: Symbol)
    requires n in Unresolved(LinkOf(inputs))
    ensures !DefinedInInputs(inputs, n) && ReferencedInInputs(inputs, n)
  {
    var c, roots, archives := LinkOf(inputs), Roots(inputs), Searched(inputs);
    ClosureIsSound(roots, archives);
    var ms := LinkedMembers(roots, archives, c.pulled);
    forall m | IsRead(inputs, m) ensures n !in Defines(m) {
      ReadIsSearched(inputs, m);
      LinkedValues(roots, archives, c.pulled, m);
      if m in ms {
        var i :| 0 <= i < |ms| && ms[i] == m;
        assert n !in Defines(ms[i]);
      } else {
        var p :| IsPosition(archives, p) && At(archives, p) == m;
        assert p !in Taken(c.pulled);
        assert n !in Defines(At(archives, p)) * Unresolved(c);
      }
    }
    var i :| 0 <= i < |ms| && n in References(ms[i]);
    LinkedIsRead(inputs, c.pulled, ms[i]);
  }

  /** A name a root references is defined by a member read, or left unresolved. */
  lemma RootNamesAreKnown(inputs: Inputs, n: Symbol)
    requires ReferencedAtRoot(inputs, n)
    ensures DefinedInInputs(inputs, n) || n in Unresolved(LinkOf(inputs))
  {
    var c, roots, archives := LinkOf(inputs), Roots(inputs), Searched(inputs);
    ClosureIsSound(roots, archives);
    var ms := LinkedMembers(roots, archives, c.pulled);
    var m :| (m in inputs.host || m in inputs.startup) && m.Object? && n in m.references;
    RootsAre(inputs, m);
    RootsAreLinked(roots, archives, c.pulled, m);
    var i :| 0 <= i < |ms| && ms[i] == m;
    assert n in References(ms[i]);
    if DefinedBy(ms, n) {
      var j :| 0 <= j < |ms| && n in Defines(ms[j]);
      LinkedIsRead(inputs, c.pulled, ms[j]);
    }
  }

  // What the libraries supply.

  lemma {:induction false} FirstSupplierConcat(a: seq<Entry>, b: seq<Entry>, n: Symbol)
    ensures FirstSupplier(a + b, n) == if FirstSupplier(a, n).Some? then FirstSupplier(a, n) else FirstSupplier(b, n)
  {
    if a == [] {
      assert a + b == b;
    } else {
      assert (a + b)[1..] == a[1..] + b;
      FirstSupplierConcat(a[1..], b, n);
    }
  }

  /** The import is the first of a list of members that defines the name. */
  ghost predicate FirstIn(ms: seq<Member>, i: int, n: Symbol) {
    && 0 <= i < |ms| && ms[i].Import? && n in Defines(ms[i])
    && forall j | 0 <= j < i :: !(ms[j].Import? && n in Defines(ms[j]))
  }

  lemma {:induction false} FirstOfMembers(ms: seq<Member>, n: Symbol) returns (i: int)
    ensures var first := FirstSupplier(ImportsOf(ms), n);
            if first.Some? then FirstIn(ms, i, n) && ms[i].entry == first.value
            else forall j | 0 <= j < |ms| :: !(ms[j].Import? && n in Defines(ms[j]))
  {
    if ms == [] {
      i := 0;
    } else {
      var rest, last := ms[..|ms| - 1], ms[|ms| - 1];
      i := FirstOfMembers(rest, n);
      assert forall j | 0 <= j < |rest| :: rest[j] == ms[j];
      FirstSupplierConcat(ImportsOf(rest), if last.Import? then [last.entry] else [], n);
      if FirstSupplier(ImportsOf(rest), n).None? {
        i := |ms| - 1;
      }
    }
  }

  lemma RestSupplies(libraries: seq<Option<seq<Member>>>, n: Symbol)
    requires libraries != []
    ensures var rest := libraries[..|libraries| - 1];
            forall l, i | l < |rest| :: SuppliesAt(libraries, l, i, n) <==> SuppliesAt(rest, l, i, n)
  {
    assert forall k | 0 <= k < |libraries| - 1 :: libraries[..|libraries| - 1][k] == libraries[k];
  }

  /** The first import of the first library that supplies a name, in order. */
  ghost predicate IsFirstSupply(libraries: seq<Option<seq<Member>>>, l: int, i: int, n: Symbol) {
    && SuppliesAt(libraries, l, i, n)
    && forall l', i' | SuppliesAt(libraries, l', i', n) :: l < l' || (l == l' && i <= i')
  }

  lemma StaysFirst(libraries: seq<Option<seq<Member>>>, l: int, i: int, n: Symbol)
    requires libraries != [] && IsFirstSupply(libraries[..|libraries| - 1], l, i, n)
    ensures IsFirstSupply(libraries, l, i, n)
  {
    RestSupplies(libraries, n);
  }

  lemma FirstInLast(libraries: seq<Option<seq<Member>>>, i: int, n: Symbol)
    requires libraries != [] && !LibrarySupplies(libraries[..|libraries| - 1], n)
    requires libraries[|libraries| - 1].Some? && FirstIn(libraries[|libraries| - 1].value, i, n)
    ensures IsFirstSupply(libraries, |libraries| - 1, i, n)
  {
    RestSupplies(libraries, n);
  }

  lemma NoneInLast(libraries: seq<Option<seq<Member>>>, n: Symbol)
    requires libraries != [] && !LibrarySupplies(libraries[..|libraries| - 1], n)
    requires forall l, i | l == |libraries| - 1 :: !SuppliesAt(libraries, l, i, n)
    ensures !LibrarySupplies(libraries, n)
  {
    RestSupplies(libraries, n);
  }

  /** The first provider of a name is the first import of the first library that supplies it. */
  lemma {:induction false} FirstProvider(libraries: seq<Option<seq<Member>>>, n: Symbol) returns (l: int, i: int)
    ensures var first := FirstSupplier(Supplies(libraries), n);
            if first.Some? then IsFirstSupply(libraries, l, i, n) && libraries[l].value[i].entry == first.value
            else !LibrarySupplies(libraries, n)
  {
    if libraries == [] {
      l, i := 0, 0;
    } else {
      var rest, last := libraries[..|libraries| - 1], libraries[|libraries| - 1];
      l, i := FirstProvider(rest, n);
      FirstSupplierConcat(Supplies(rest), if last.Some? then ImportsOf(last.value) else [], n);
      if FirstSupplier(Supplies(rest), n).Some? {
        StaysFirst(libraries, l, i, n);
        assert libraries[l] == rest[l];
      } else if last.Some? {
        l := |libraries| - 1;
        i := FirstOfMembers(last.value, n);
        if FirstSupplier(ImportsOf(last.value), n).Some? {
          FirstInLast(libraries, i, n);
        } else {
          NoneInLast(libraries, n);
        }
      } else {
        NoneInLast(libraries, n);
      }
    }
  }

  lemma SupplierIsLibrary(inputs: Inputs, n: Symbol)
    ensures FirstSupplier(Supplies(inputs.libraries), n).Some? <==> LibrarySupplies(inputs.libraries, n)
  {
    var l, i := FirstProvider(inputs.libraries, n);
    if FirstSupplier(Supplies(inputs.libraries), n).Some? {
      assert SuppliesAt(inputs.libraries, l, i, n);
    }
  }

  lemma ExcusedIsLater(n: Symbol)
    ensures Excused(n) <==> DefinedLater(n)
  {
  }

  // What a derivation answers.

  /** A derivation that finds names without a supplier names only names that some member read references, and
      that no member read defines, no library supplies, and neither the linker nor the application will. */
  lemma NoSupplierIsTrue(inputs: Inputs, result: Result<Requirements, DeriveError>, n: Symbol)
    requires Derived(inputs, result) && result.Err? && result.error.NoSupplier? && n in result.error.names
    ensures ReferencedInInputs(inputs, n) && !DefinedInInputs(inputs, n)
    ensures !LibrarySupplies(inputs.libraries, n) && !DefinedLater(n)
  {
    UnresolvedIsUndefined(inputs, n);
    SupplierIsLibrary(inputs, n);
    ExcusedIsLater(n);
  }

  /** And one that succeeds leaves no name of a root without a definition or a supplier. */
  lemma RootNamesAreSupplied(inputs: Inputs, result: Result<Requirements, DeriveError>, n: Symbol)
    requires Derived(inputs, result) && result.Ok? && ReferencedAtRoot(inputs, n)
    ensures DefinedInInputs(inputs, n) || LibrarySupplies(inputs.libraries, n) || DefinedLater(n)
  {
    RootNamesAreKnown(inputs, n);
    SupplierIsLibrary(inputs, n);
    ExcusedIsLater(n);
    assert n in Unresolved(LinkOf(inputs)) ==> n !in Missing(inputs);
  }

  lemma UcrtDllsAre(inputs: Inputs, dll: string)
    ensures Lower(dll) in UcrtDlls(inputs) <==> IsUcrtDll(inputs, dll)
  {
  }

  /** The import a linked object needs, or a member read supplies in its place. */
  ghost predicate SuppliedIn(inputs: Inputs, requirements: Requirements, n: Symbol) {
    || (exists m :: IsRead(inputs, m) && m.Object? && n in Defines(m))
    || (exists m :: IsRead(inputs, m) && m.Import? && n in Defines(m) &&
                    (KeyOf(m.entry) in requirements || IsUcrtDll(inputs, m.entry.dll)))
    || (exists e :: FirstSupplier(Supplies(inputs.libraries), n) == Some(e) &&
                    KeyOf(e) in requirements && requirements[KeyOf(e)] == TypeOf(e))
    || DefinedLater(n)
  }

  /** When a derivation succeeds, every name a linked object references is defined by an object, by an import
      that is required or names a UCRT DLL, by its first native provider, which is then required, or by the
      linker or the application. */
  lemma EveryNameIsSupplied(inputs: Inputs, result: Result<Requirements, DeriveError>, n: Symbol)
    requires Derived(inputs, result) && result.Ok?
    ensures AllPositions(Searched(inputs), LinkOf(inputs).pulled)
    ensures ReferencedBy(LinkedMembers(Roots(inputs), Searched(inputs), LinkOf(inputs).pulled), n) ==>
              SuppliedIn(inputs, result.value, n)
  {
    var c := LinkOf(inputs);
    ClosureIsSound(Roots(inputs), Searched(inputs));
    ExcusedIsLater(n);
    var ms := LinkedMembers(Roots(inputs), Searched(inputs), c.pulled);
    if ReferencedBy(ms, n) && !Excused(n) {
      if DefinedBy(ms, n) {
        var i :| 0 <= i < |ms| && n in Defines(ms[i]);
        LinkedIsRead(inputs, c.pulled, ms[i]);
        if ms[i].Import? {
          LinkedImportIsRequired(inputs, result, ms[i].entry);
        }
      } else {
        assert n in Unresolved(c) && n !in Missing(inputs);
        var supplier := FirstSupplier(Supplies(inputs.libraries), n);
        assert supplier.value in HostImports(inputs) && supplier.value in Required(inputs);
      }
    }
  }

  /** An import that is linked is required, unless its DLL is a UCRT one. */
  lemma LinkedImportIsRequired(inputs: Inputs, result: Result<Requirements, DeriveError>, e: Entry)
    requires Derived(inputs, result) && result.Ok?
    requires AllPositions(Searched(inputs), LinkOf(inputs).pulled)
    requires Import(e) in LinkedMembers(Roots(inputs), Searched(inputs), LinkOf(inputs).pulled)
    ensures KeyOf(e) in result.value || IsUcrtDll(inputs, e.dll)
  {
    ClosureIsSound(Roots(inputs), Searched(inputs));
    ImportsAreValues(LinkedMembers(Roots(inputs), Searched(inputs), LinkOf(inputs).pulled), e);
    NamedMembers(LinkOf(inputs).imports, UcrtDlls(inputs), e);
    UcrtDllsAre(inputs, e.dll);
    if !IsUcrtDll(inputs, e.dll) {
      assert e in HostImports(inputs) && e in Required(inputs);
    }
  }

  lemma {:induction false} AllImportsAre(archives: Archives, e: Entry)
    ensures e in AllImports(archives) <==> exists a :: 0 <= a < |archives| && Import(e) in archives[a]
  {
    if archives != [] {
      var rest, last := archives[..|archives| - 1], archives[|archives| - 1];
      assert forall a | 0 <= a < |rest| :: rest[a] == archives[a];
      AllImportsAre(rest, e);
      ImportsAreValues(last, e);
      assert Import(e) in last ==> Import(e) in archives[|archives| - 1];
    }
  }

  /** When a derivation succeeds, every import of the application's own is required, with its type. */
  lemma ApplicationImportsAreRequired(inputs: Inputs, result: Result<Requirements, DeriveError>, a: nat, e: Entry)
    requires Derived(inputs, result) && result.Ok?
    requires a < |inputs.applicationAbi| && Import(e) in inputs.applicationAbi[a]
    ensures KeyOf(e) in result.value && result.value[KeyOf(e)] == TypeOf(e)
  {
    AllImportsAre(inputs.applicationAbi, e);
    assert e in Required(inputs);
  }

  /** Why an import is required: it is read, names no UCRT DLL, and is part of the startup object or defines a
      name a member read references; or it is the first provider of a name that a member read references and
      none defines; or it is one of the application's own. */
  ghost predicate HasReason(inputs: Inputs, e: Entry) {
    || (&& IsRead(inputs, Import(e)) && !IsUcrtDll(inputs, e.dll)
        && (Import(e) in inputs.startup || exists n :: n in Defines(Import(e)) && ReferencedInInputs(inputs, n)))
    || (exists n :: FirstSupplier(Supplies(inputs.libraries), n) == Some(e) &&
                    ReferencedInInputs(inputs, n) && !DefinedInInputs(inputs, n))
    || (exists a :: 0 <= a < |inputs.applicationAbi| && Import(e) in inputs.applicationAbi[a])
  }

  /** Nothing is required without a reason. */
  lemma NothingElseIsRequired(inputs: Inputs, result: Result<Requirements, DeriveError>, key: Key)
    requires Derived(inputs, result) && result.Ok? && key in result.value
    ensures exists e :: KeyOf(e) == key && TypeOf(e) == result.value[key] && HasReason(inputs, e)
  {
    var e :| e in Required(inputs) && KeyOf(e) == key;
    NamedMembers(LinkOf(inputs).imports, UcrtDlls(inputs), e);
    UcrtDllsAre(inputs, e.dll);
    AllImportsAre(inputs.applicationAbi, e);
    if e in LinkOf(inputs).imports && !IsUcrtDll(inputs, e.dll) {
      LinkedImportHasReason(inputs, e);
    } else if e in Provided(Supplies(inputs.libraries), Unresolved(LinkOf(inputs))) {
      var n :| n in Unresolved(LinkOf(inputs)) && FirstSupplier(Supplies(inputs.libraries), n) == Some(e);
      UnresolvedIsUndefined(inputs, n);
    }
    assert HasReason(inputs, e);
  }

  lemma LinkedImportHasReason(inputs: Inputs, e: Entry)
    requires e in LinkOf(inputs).imports
    ensures IsRead(inputs, Import(e))
    ensures Import(e) in inputs.startup || exists n :: n in Defines(Import(e)) && ReferencedInInputs(inputs, n)
  {
    var c, roots, archives := LinkOf(inputs), Roots(inputs), Searched(inputs);
    ClosureIsSound(roots, archives);
    var ms := LinkedMembers(roots, archives, c.pulled);
    ImportsAreValues(ms, e);
    LinkedIsRead(inputs, c.pulled, Import(e));
    RootsAre(inputs, Import(e));
    LinkedValues(roots, archives, c.pulled, Import(e));
    if Import(e) !in inputs.startup {
      var p :| p in Taken(c.pulled) && IsPosition(archives, p) && At(archives, p) == Import(e);
      var k :| 0 <= k < |c.pulled| && c.pulled[k] == p;
      PulledForReference(inputs, k);
    }
  }

  lemma PulledForReference(inputs: Inputs, k: nat)
    requires k < |LinkOf(inputs).pulled| && AllPositions(Searched(inputs), LinkOf(inputs).pulled)
    requires Justified(Roots(inputs), Searched(inputs), LinkOf(inputs).pulled, k)
    ensures exists n :: n in Defines(At(Searched(inputs), LinkOf(inputs).pulled[k])) && ReferencedInInputs(inputs, n)
  {
    var before := LinkOf(inputs).pulled[..k];
    var ms := LinkedMembers(Roots(inputs), Searched(inputs), before);
    var n :| n in Defines(At(Searched(inputs), LinkOf(inputs).pulled[k])) && ReferencedBy(ms, n);
    var i :| 0 <= i < |ms| && n in References(ms[i]);
    LinkedIsRead(inputs, before, ms[i]);
  }

  // What an import supplies, and which of two does.

  /** A link of one object that references a name, against one import. */
  lemma OneImport(n: Symbol, e: Entry)
    ensures Unresolved(Closure([Object({}, {n})], [[Import(e)]])) == if n in Defines(Import(e)) then {} else {n}
  {
    var roots, archives := [Object({}, {n})], [[Import(e)]];
    var c := Closure(roots, archives);
    ClosureIsSound(roots, archives);
    var ms := LinkedMembers(roots, archives, c.pulled);
    forall m ensures m in ms ==> m == roots[0] || m == Import(e) {
      LinkedValues(roots, archives, c.pulled, m);
    }
    RootsAreLinked(roots, archives, c.pulled, roots[0]);
    var i :| 0 <= i < |ms| && ms[i] == roots[0];
    assert n in References(ms[i]);
    assert At(archives, Position(0, 0)) == Import(e);
    if n in Unresolved(c) {
      assert Position(0, 0) in c.pulled ==> n !in Defines(Import(e)) by {
        if Position(0, 0) in c.pulled {
          LinkedValues(roots, archives, c.pulled, Import(e));
          assert Position(0, 0) in Taken(c.pulled);
          var j :| 0 <= j < |ms| && ms[j] == Import(e);
          assert n !in Defines(ms[j]);
        }
      }
      assert Position(0, 0) !in c.pulled ==> n !in Defines(At(archives, Position(0, 0))) * Unresolved(c);
    }
  }

  /** A code import supplies its symbol and its address; a data import has no call thunk and supplies only the
      address; no import supplies another name. */
  lemma ImportSupplies(dll: string, symbol: Symbol, kind: nat, n: Symbol)
    ensures var left := Unresolved(Closure([Object({}, {n})], [[Import(Entry(dll, symbol, kind))]]));
            left == if n == "__imp_" + symbol || (n == symbol && kind % 4 != 1) then {} else {n}
  {
    OneImport(n, Entry(dll, symbol, kind));
    assert |"__imp_" + symbol| == |symbol| + 6;
  }

  lemma {:induction false} SkipEmpty(l: Link, archives: Archives, a: nat, to: nat)
    requires a <= to <= |archives| && forall b | a <= b < to :: archives[b] == []
    ensures Scan(l, archives, a, 0) == Scan(l, archives, to, 0)
    decreases |archives| - a
  {
    if a < to {
      SkipEmpty(l, archives, a + 1, to);
    }
  }

  /** The link takes a name from the first archive that supplies it, whatever the later ones hold. */
  lemma FirstArchiveWins(n: Symbol, archives: Archives, a: nat, first: Entry)
    requires n in Defines(Import(first)) && a < |archives| && archives[a] == [Import(first)]
    requires forall b | 0 <= b < a :: archives[b] == []
    ensures Closure([Object({}, {n})], archives).imports == [first]
  {
    var root, p := Object({}, {n}), Position(a, 0);
    var l := Link({}, {n}, [], []);
    assert [root][..0] == [] && Linked([]) == Link({}, {}, [], []);
    assert Linked([root]) == Add(Linked([root][..0]), root);
    assert {} + root.definitions == {} && {} + root.references == {n};
    var l1 := Pull(l, archives, p);
    assert n in Defines(At(archives, p)) * Unresolved(l);
    assert Unresolved(l1) == {} && l1.imports == [first];
    QuietScan(l1, archives, a, 1);
    QuietScan(l1, archives, 0, 0);
    SkipEmpty(l, archives, 0, a);
    assert Scan(l, archives, a, 0) == Scan(l1, archives, a, 1) == l1;
    ScanProgress(l, archives);
    assert Saturate(l1, archives) == l1 && Saturate(l, archives) == l1;
  }

  /** The host's own import of a name is taken before any runtime archive's or UCRT library's. */
  lemma HostImportWins(n: Symbol, first: Entry, runtime: Archives, ucrt: seq<Member>)
    requires n in Defines(Import(first))
    ensures LinkOf(Inputs([Object({}, {n}), Import(first)], [], runtime, ucrt, [], [])).imports == [first]
  {
    var root := Object({}, {n});
    var host: seq<Member> := [root, Import(first)];
    assert host[..1] == [root] && [root][..0] == [];
    assert Objects([root]) == [root] && ShortImports([root]) == [];
    assert Objects(host) == [root] && ShortImports(host) == [Import(first)];
    var inputs := Inputs(host, [], runtime, ucrt, [], []);
    assert Roots(inputs) == [root];
    FirstArchiveWins(n, Searched(inputs), 0, first);
  }

  /** A runtime archive's import of a name is taken before a UCRT library's. */
  lemma RuntimeWins(n: Symbol, first: Entry, runtime: Archives, ucrt: seq<Member>)
    requires n in Defines(Import(first))
    ensures LinkOf(Inputs([Object({}, {n})], [], [[Import(first)]] + runtime, ucrt, [], [])).imports == [first]
  {
    var root := Object({}, {n});
    assert [root][..0] == [] && Objects([root]) == [root] && ShortImports([root]) == [];
    var inputs := Inputs([root], [], [[Import(first)]] + runtime, ucrt, [], []);
    assert Roots(inputs) == [root];
    FirstArchiveWins(n, Searched(inputs), 1, first);
  }
}
