/** Why a derivation refuses an import: what its error says is true of the inputs. */
module DerivationFaults {

  import opened Wrappers
  import opened LinkClosure
  import opened ImportDerivation
  import opened DerivationLaws

  /** The inputs a source stands for hold the import. */
  ghost predicate IsOffered(inputs: Inputs, source: Source, e: Entry) {
    match source
    case Host => IsRead(inputs, Import(e))
    case NativeLibrary =>
      exists l :: 0 <= l < |inputs.libraries| && inputs.libraries[l].Some? && Import(e) in inputs.libraries[l].value
    case ApplicationAbi => exists a :: 0 <= a < |inputs.applicationAbi| && Import(e) in inputs.applicationAbi[a]
  }

  ghost predicate Offered(inputs: Inputs, e: Entry) {
    IsOffered(inputs, Host, e) || IsOffered(inputs, NativeLibrary, e) || IsOffered(inputs, ApplicationAbi, e)
  }

  /** One name of one DLL, as code and as data. */
  predicate Clash(e: Entry, f: Entry) {
    && Lower(e.dll) == Lower(f.dll) && e.symbol == f.symbol
    && ((e.kind % 4 == 0 && f.kind % 4 == 1) || (e.kind % 4 == 1 && f.kind % 4 == 0))
  }

  lemma NamedIsOffered(inputs: Inputs, e: Entry)
    requires e in Named(LinkOf(inputs).imports, UcrtDlls(inputs))
    ensures IsOffered(inputs, Host, e)
  {
    NamedMembers(LinkOf(inputs).imports, UcrtDlls(inputs), e);
    LinkedImportHasReason(inputs, e);
  }

  lemma ProvidedIsOffered(inputs: Inputs, names: set<Symbol>, e: Entry)
    requires e in Provided(Supplies(inputs.libraries), names)
    ensures IsOffered(inputs, NativeLibrary, e)
  {
    var n :| n in names && FirstSupplier(Supplies(inputs.libraries), n) == Some(e);
    var l, i := FirstProvider(inputs.libraries, n);
    assert inputs.libraries[l].value[i] == Import(e);
  }

  lemma HostIsOffered(inputs: Inputs, e: Entry)
    requires e in HostImports(inputs)
    ensures Offered(inputs, e)
  {
    if e in Named(LinkOf(inputs).imports, UcrtDlls(inputs)) {
      NamedIsOffered(inputs, e);
    } else {
      ProvidedIsOffered(inputs, Unresolved(LinkOf(inputs)), e);
    }
  }

  lemma FaultIsTrue(entries: set<Entry>, e: Entry, source: Source, error: DeriveError)
    requires Consistent(entries) && FaultOf(entries, e, source) == Some(error)
    ensures !error.NoSupplier? && error.entry == e && error.source == source
    ensures error.UnsupportedType? <==> e.kind % 4 > 1
    ensures error.CodeAndData? ==> exists f :: f in entries && Clash(e, f)
  {
  }

  /** The error is true: it names an import of the inputs it says it is from, whose type is neither code nor data
      exactly when the error says so, and which otherwise clashes with one of the inputs. */
  ghost predicate IsTrue(inputs: Inputs, error: DeriveError)
    requires !error.NoSupplier?
  {
    && IsOffered(inputs, error.source, error.entry)
    && (error.UnsupportedType? <==> error.entry.kind % 4 > 1)
    && (error.CodeAndData? ==> exists f :: Offered(inputs, f) && Clash(error.entry, f))
  }

  lemma NamedFault(inputs: Inputs, i: int, error: DeriveError)
    requires FaultsAt({}, Named(LinkOf(inputs).imports, UcrtDlls(inputs)), Host, i, error)
    ensures !error.NoSupplier? && IsTrue(inputs, error)
  {
    var named := Named(LinkOf(inputs).imports, UcrtDlls(inputs));
    FaultIsTrue(With({}, named[..i]), named[i], Host, error);
    NamedIsOffered(inputs, named[i]);
    forall f | f in With({}, named[..i]) ensures Offered(inputs, f) {
      NamedIsOffered(inputs, f);
    }
  }

  lemma ProvidedFault(inputs: Inputs, n: Symbol, error: DeriveError)
    requires FaultsFor(With({}, Named(LinkOf(inputs).imports, UcrtDlls(inputs))), Supplies(inputs.libraries),
                       Unresolved(LinkOf(inputs)), n, error)
    ensures !error.NoSupplier? && IsTrue(inputs, error)
  {
    var names, supplies := Unresolved(LinkOf(inputs)), Supplies(inputs.libraries);
    var before := Before(names, n);
    var entries := With({}, Named(LinkOf(inputs).imports, UcrtDlls(inputs))) + Provided(supplies, before);
    var e := FirstSupplier(supplies, n).value;
    FaultIsTrue(entries, e, NativeLibrary, error);
    assert e in Provided(supplies, names);
    ProvidedIsOffered(inputs, names, e);
    forall f | f in entries ensures Offered(inputs, f) {
      if f in Provided(supplies, before) {
        ProvidedIsOffered(inputs, before, f);
      } else {
        NamedIsOffered(inputs, f);
      }
    }
  }

  lemma ApplicationIsOffered(inputs: Inputs, e: Entry)
    requires e in AllImports(inputs.applicationAbi)
    ensures IsOffered(inputs, ApplicationAbi, e)
  {
    AllImportsAre(inputs.applicationAbi, e);
  }

  lemma ApplicationFault(inputs: Inputs, i: int, error: DeriveError)
    requires FaultsAt(HostImports(inputs), AllImports(inputs.applicationAbi), ApplicationAbi, i, error)
    ensures !error.NoSupplier? && IsTrue(inputs, error)
  {
    var list := AllImports(inputs.applicationAbi);
    var entries := With(HostImports(inputs), list[..i]);
    FaultIsTrue(entries, list[i], ApplicationAbi, error);
    ApplicationIsOffered(inputs, list[i]);
    forall f | f in entries ensures Offered(inputs, f) {
      if f in HostImports(inputs) {
        HostIsOffered(inputs, f);
      } else {
        ApplicationIsOffered(inputs, f);
      }
    }
  }

  /** Whenever a derivation refuses an import, what it says of it is true of the inputs; so it refuses none when
      all of theirs are code or data and no two clash. */
  lemma RefusalIsTrue(inputs: Inputs, result: Result<Requirements, DeriveError>)
    requires Derived(inputs, result) && result.Err? && !result.error.NoSupplier?
    ensures IsTrue(inputs, result.error)
  {
    var error, named := result.error, Named(LinkOf(inputs).imports, UcrtDlls(inputs));
    if !Consistent(With({}, named)) {
      var i :| FaultsAt({}, named, Host, i, error);
      NamedFault(inputs, i, error);
    } else if !Consistent(HostImports(inputs)) {
      var n :| FaultsFor(With({}, named), Supplies(inputs.libraries), Unresolved(LinkOf(inputs)), n, error);
      ProvidedFault(inputs, n, error);
    } else {
      var i :| FaultsAt(HostImports(inputs), AllImports(inputs.applicationAbi), ApplicationAbi, i, error);
      ApplicationFault(inputs, i, error);
    }
  }

  /** And when it succeeds, the types it requires are code or data, and are those of the application's imports. */
  lemma TypesAreTrue(inputs: Inputs, result: Result<Requirements, DeriveError>, key: Key)
    requires Derived(inputs, result) && result.Ok? && key in result.value
    ensures result.value[key] == 0 || result.value[key] == 1
    ensures forall e | IsOffered(inputs, ApplicationAbi, e) && KeyOf(e) == key :: e.kind % 4 == result.value[key]
  {
    assert exists e :: e in Required(inputs) && KeyOf(e) == key;
    forall e | IsOffered(inputs, ApplicationAbi, e) && KeyOf(e) == key ensures e.kind % 4 == result.value[key] {
      AllImportsAre(inputs.applicationAbi, e);
      assert e in Required(inputs);
    }
  }

  /** So no two of those clash when it succeeds. */
  lemma NoneClash(inputs: Inputs, result: Result<Requirements, DeriveError>, e: Entry, f: Entry)
    requires Derived(inputs, result) && result.Ok?
    requires IsOffered(inputs, ApplicationAbi, e) && IsOffered(inputs, ApplicationAbi, f)
    ensures !Clash(e, f)
  {
    AllImportsAre(inputs.applicationAbi, e);
    AllImportsAre(inputs.applicationAbi, f);
    assert e in Required(inputs) && f in Required(inputs);
    if Clash(e, f) {
      LowerIgnoresCase(e.dll, f.dll);
      SameKeyExactly(e, f);
    }
  }

  // Which refusal comes first.

  lemma SameHost(inputs: Inputs, libraries: seq<Option<seq<Member>>>, applicationAbi: Archives)
    ensures var other := inputs.(libraries := libraries, applicationAbi := applicationAbi);
            LinkOf(other) == LinkOf(inputs) && UcrtDlls(other) == UcrtDlls(inputs)
  {
  }

  /** An import of the host's own is refused whatever the libraries and the application's imports are. */
  lemma HostComesFirst(
    inputs: Inputs, error: DeriveError, libraries: seq<Option<seq<Member>>>, applicationAbi: Archives)
    requires Derived(inputs, Err(error)) && !error.NoSupplier? && error.source == Host
    ensures Derived(inputs.(libraries := libraries, applicationAbi := applicationAbi), Err(error))
  {
    var other, named := inputs.(libraries := libraries, applicationAbi := applicationAbi),
                        Named(LinkOf(inputs).imports, UcrtDlls(inputs));
    SameHost(inputs, libraries, applicationAbi);
    if Consistent(With({}, named)) {
      NotOfHost(inputs, error);
    }
    var i :| FaultsAt({}, named, Host, i, error);
    InconsistentLater(With({}, named), HostImports(other));
    assert FirstBadHostImport(other, error);
  }

  lemma NotOfHost(inputs: Inputs, error: DeriveError)
    requires Derived(inputs, Err(error)) && !error.NoSupplier?
    requires Consistent(With({}, Named(LinkOf(inputs).imports, UcrtDlls(inputs))))
    ensures error.source != Host
  {
    var named := Named(LinkOf(inputs).imports, UcrtDlls(inputs));
    if !Consistent(HostImports(inputs)) {
      var n :| FaultsFor(With({}, named), Supplies(inputs.libraries), Unresolved(LinkOf(inputs)), n, error);
    } else {
      var i :| FaultsAt(HostImports(inputs), AllImports(inputs.applicationAbi), ApplicationAbi, i, error);
    }
  }

  /** What the link and its libraries are refused for, names without a supplier too, comes before anything the
      application's own imports could be refused for. */
  lemma ApplicationComesLast(inputs: Inputs, error: DeriveError, applicationAbi: Archives)
    requires Derived(inputs, Err(error)) && (error.NoSupplier? || error.source != ApplicationAbi)
    ensures Derived(inputs.(applicationAbi := applicationAbi), Err(error))
  {
    var other := inputs.(applicationAbi := applicationAbi);
    SameHost(inputs, inputs.libraries, applicationAbi);
    assert inputs.(libraries := inputs.libraries, applicationAbi := applicationAbi) == other;
    assert HostImports(other) == HostImports(inputs) && Missing(other) == Missing(inputs);
    if Consistent(HostImports(inputs)) && Missing(inputs) == {} {
      assert false;
    }
  }

  /** A refusal for names without a supplier leaves out no name of a host object or of the startup object that
      has none. */
  lemma NoneIsLeftOut(inputs: Inputs, names: set<Symbol>, n: Symbol)
    requires Derived(inputs, Err(NoSupplier(names))) && ReferencedAtRoot(inputs, n)
    ensures n in names <==>
              !DefinedInInputs(inputs, n) && !LibrarySupplies(inputs.libraries, n) && !DefinedLater(n)
  {
    RootNamesAreKnown(inputs, n);
    SupplierIsLibrary(inputs, n);
    ExcusedIsLater(n);
    if n in Unresolved(LinkOf(inputs)) {
      UnresolvedIsUndefined(inputs, n);
    }
  }
}
