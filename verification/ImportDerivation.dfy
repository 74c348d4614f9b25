/** Which imports a Windows link of the host needs (`scripts/windows_link_imports.py`): those its link
    names, those its first native provider supplies, and the application's own; or a refusal. */
module ImportDerivation {

  import opened Wrappers
  import opened LinkClosure
  import opened ClosureLaws

  const LINKER_DEFINED: set<Symbol> := {"__ImageBase", "__CTOR_LIST__", "__DTOR_LIST__"}
  const APPLICATION_PREFIX := "roc_"

  /** DLL names are ASCII, and named without regard to case. */
  function LowerChar(c: char): char {
    if 'A' <= c <= 'Z' then c - 'A' + 'a' else c
  }

  function Lower(name: string): string {
    seq(|name|, i requires 0 <= i < |name| => LowerChar(name[i]))
  }

  datatype Key = Key(dll: string, symbol: Symbol)

  type Requirements = map<Key, nat>

  /** Where an import comes from, as an error names it. */
  datatype Source = Host | NativeLibrary | ApplicationAbi

  datatype DeriveError =
    | UnsupportedType(entry: Entry, source: Source)
    | CodeAndData(entry: Entry, source: Source)
    | NoSupplier(names: set<Symbol>)

  function KeyOf(e: Entry): Key {
    Key(Lower(e.dll), e.symbol)
  }

  function TypeOf(e: Entry): nat {
    e.kind % 4
  }

  predicate Supported(e: Entry) {
    TypeOf(e) == IMPORT_CODE || TypeOf(e) == IMPORT_DATA
  }

  /** Every import is code or data, and no import is both. */
  ghost predicate Consistent(entries: set<Entry>) {
    && (forall e | e in entries :: Supported(e))
    && forall e, f | e in entries && f in entries && KeyOf(e) == KeyOf(f) :: TypeOf(e) == TypeOf(f)
  }

  /** The requirements are exactly the keys and types of a consistent set of imports. */
  ghost predicate Holds(requirements: Requirements, entries: set<Entry>) {
    && Consistent(entries)
    && (forall e | e in entries :: KeyOf(e) in requirements && requirements[KeyOf(e)] == TypeOf(e))
    && forall key | key in requirements :: exists e :: e in entries && KeyOf(e) == key
  }

  /** Why an import cannot join a consistent set, if it cannot. */
  ghost function FaultOf(entries: set<Entry>, e: Entry, source: Source): Option<DeriveError> {
    if !Supported(e) then Some(UnsupportedType(e, source))
    else if exists f :: f in entries && KeyOf(f) == KeyOf(e) && TypeOf(f) != TypeOf(e) then Some(CodeAndData(e, source))
    else None
  }

  /** `require`: an import joins the requirements, or is refused for its own type or for another's. */
  method Require(requirements: Requirements, entry: Entry, source: Source, ghost entries: set<Entry>)
    returns (result: Result<Requirements, DeriveError>)
    requires Holds(requirements, entries)
    ensures result.Ok? <==> Consistent(entries + {entry})
    ensures result.Ok? ==> FaultOf(entries, entry, source) == None && Holds(result.value, entries + {entry})
    ensures result.Err? ==> FaultOf(entries, entry, source) == Some(result.error)
  {
    var kind := entry.kind % 4;
    if kind != IMPORT_CODE && kind != IMPORT_DATA {
      assert !Supported(entry);
      return Err(UnsupportedType(entry, source));
    }
    var key := KeyOf(entry);
    var kept := if key in requirements then requirements else requirements[key := kind];
    if kept[key] != kind {
      ghost var e :| e in entries && KeyOf(e) == key;
      return Err(CodeAndData(entry, source));
    }
    RequireHolds(requirements, entry, entries);
    result := Ok(kept);
  }

  lemma RequireHolds(requirements: Requirements, entry: Entry, entries: set<Entry>)
    requires Holds(requirements, entries) && Supported(entry)
    requires KeyOf(entry) in requirements ==> requirements[KeyOf(entry)] == TypeOf(entry)
    ensures Holds(requirements[KeyOf(entry) := TypeOf(entry)], entries + {entry})
  {
    var kept := requirements[KeyOf(entry) := TypeOf(entry)];
    forall key | key in kept ensures exists e :: e in entries + {entry} && KeyOf(e) == key {
      if key == KeyOf(entry) {
        assert entry in entries + {entry};
      } else {
        var e :| e in entries && KeyOf(e) == key;
        assert e in entries + {entry};
      }
    }
    assert forall e | e in entries + {entry} :: kept[KeyOf(e)] == TypeOf(e);
    assert Consistent(entries + {entry}) by {
      forall e, f | e in entries + {entry} && f in entries + {entry} && KeyOf(e) == KeyOf(f)
        ensures TypeOf(e) == TypeOf(f)
      {
        assert kept[KeyOf(e)] == TypeOf(e) && kept[KeyOf(f)] == TypeOf(f);
      }
    }
  }

  lemma InconsistentLater(entries: set<Entry>, more: set<Entry>)
    requires !Consistent(entries) && entries <= more
    ensures !Consistent(more)
  {
  }

  /** `entries` and those of a list. */
  ghost function With(entries: set<Entry>, list: seq<Entry>): set<Entry> {
    entries + set e | e in list
  }

  lemma WithStep(entries: set<Entry>, list: seq<Entry>, i: nat)
    requires i < |list|
    ensures With(entries, list[..i + 1]) == With(entries, list[..i]) + {list[i]}
    ensures With(entries, list[..i + 1]) <= With(entries, list)
  {
    assert list[..i + 1] == list[..i] + [list[i]];
  }

  /** The `i`th import of a list is the first that cannot join those before it. */
  ghost predicate FaultsAt(entries: set<Entry>, list: seq<Entry>, source: Source, i: int, error: DeriveError) {
    && 0 <= i < |list| && Consistent(With(entries, list[..i]))
    && FaultOf(With(entries, list[..i]), list[i], source) == Some(error)
  }

  /** Every import of a list, in order. */
  method RequireAll(requirements: Requirements, list: seq<Entry>, source: Source, ghost entries: set<Entry>)
    returns (result: Result<Requirements, DeriveError>)
    requires Holds(requirements, entries)
    ensures result.Ok? <==> Consistent(With(entries, list))
    ensures result.Ok? ==> Holds(result.value, With(entries, list))
    ensures result.Err? ==> exists i :: FaultsAt(entries, list, source, i, result.error)
  {
    var kept := requirements;
    assert With(entries, list[..0]) == entries;
    for i := 0 to |list|
      invariant Holds(kept, With(entries, list[..i]))
    {
      WithStep(entries, list, i);
      var next := Require(kept, list[i], source, With(entries, list[..i]));
      if next.Err? {
        InconsistentLater(With(entries, list[..i + 1]), With(entries, list));
        assert FaultsAt(entries, list, source, i, next.error);
        return next;
      }
      kept := next.value;
    }
    assert list[..|list|] == list;
    result := Ok(kept);
  }

  // Providers.

  /** The first import, in order, that defines a name. */
  function FirstSupplier(entries: seq<Entry>, n: Symbol): Option<Entry> {
    if entries == [] then None
    else if n in Defines(Import(entries[0])) then Some(entries[0])
    else FirstSupplier(entries[1..], n)
  }

  /** What the native libraries supply, in rustc's order; a file that is not an archive supplies nothing. */
  function Supplies(libraries: seq<Option<seq<Member>>>): seq<Entry> {
    if libraries == [] then []
    else
      var last := libraries[|libraries| - 1];
      Supplies(libraries[..|libraries| - 1]) + if last.Some? then ImportsOf(last.value) else []
  }

  ghost predicate Provides(providers: map<Symbol, Entry>, entries: seq<Entry>) {
    && (forall n :: n in providers <==> FirstSupplier(entries, n).Some?)
    && forall n | n in providers :: FirstSupplier(entries, n) == Some(providers[n])
  }

  lemma {:induction false} FirstSupplierSnoc(entries: seq<Entry>, e: Entry, n: Symbol)
    ensures FirstSupplier(entries + [e], n) ==
              if FirstSupplier(entries, n).Some? then FirstSupplier(entries, n)
              else if n in Defines(Import(e)) then Some(e) else None
  {
    if entries == [] {
      assert [e][1..] == [];
    } else {
      assert (entries + [e])[1..] == entries[1..] + [e];
      FirstSupplierSnoc(entries[1..], e, n);
    }
  }

  /** `providers.setdefault` for each name of one import. */
  method Supply(providers: map<Symbol, Entry>, e: Entry, ghost entries: seq<Entry>)
    returns (supplied: map<Symbol, Entry>)
    requires Provides(providers, entries)
    ensures Provides(supplied, entries + [e])
  {
    supplied := providers;
    var names := Defines(Import(e));
    var todo := names;
    while todo != {}
      invariant todo <= names
      invariant forall n :: n in supplied <==> n in providers || n in names - todo
      invariant forall n | n in supplied :: supplied[n] == if n in providers then providers[n] else e
    {
      var name :| name in todo;
      if name !in supplied {
        supplied := supplied[name := e];
      }
      todo := todo - {name};
    }
    forall n {
      FirstSupplierSnoc(entries, e, n);
    }
  }

  /** `provider_imports`: each name's first provider. */
  method ProviderImports(libraries: seq<Option<seq<Member>>>) returns (providers: map<Symbol, Entry>)
    ensures Provides(providers, Supplies(libraries))
  {
    providers := map[];
    for l := 0 to |libraries|
      invariant Provides(providers, Supplies(libraries[..l]))
    {
      assert libraries[..l + 1][..l] == libraries[..l];
      if libraries[l].Some? {
        var members := libraries[l].value;
        ghost var before := Supplies(libraries[..l]);
        assert before + [] == before;
        for m := 0 to |members|
          invariant Provides(providers, before + ImportsOf(members[..m]))
        {
          assert members[..m + 1][..m] == members[..m];
          if members[m].Import? {
            providers := Supply(providers, members[m].entry, before + ImportsOf(members[..m]));
            assert before + ImportsOf(members[..m]) + [members[m].entry] == before + ImportsOf(members[..m + 1]);
          } else {
            assert ImportsOf(members[..m + 1]) == ImportsOf(members[..m]);
          }
        }
        assert members[..|members|] == members;
      } else {
        assert Supplies(libraries[..l + 1]) == Supplies(libraries[..l]);
      }
    }
    assert libraries[..|libraries|] == libraries;
  }

  // Deriving.

  /** The classified members the derivation reads: of the host archive, the startup object, the runtime
      archives, the UCRT import libraries, the native libraries in rustc's order, and the libraries whose
      complete exports the application may import. */
  datatype Inputs = Inputs(
    host: seq<Member>, startup: seq<Member>, runtime: Archives, ucrt: seq<Member>,
    libraries: seq<Option<seq<Member>>>, applicationAbi: Archives)

  function Objects(ms: seq<Member>): seq<Member> {
    if ms == [] then []
    else Objects(ms[..|ms| - 1]) + if ms[|ms| - 1].Object? then [ms[|ms| - 1]] else []
  }

  function ShortImports(ms: seq<Member>): seq<Member> {
    if ms == [] then []
    else ShortImports(ms[..|ms| - 1]) + if ms[|ms| - 1].Import? then [ms[|ms| - 1]] else []
  }

  function Roots(inputs: Inputs): seq<Member> {
    Objects(inputs.host) + inputs.startup
  }

  function Searched(inputs: Inputs): Archives {
    [ShortImports(inputs.host)] + inputs.runtime + [inputs.ucrt]
  }

  function LinkOf(inputs: Inputs): Link {
    Closure(Roots(inputs), Searched(inputs))
  }

  function UcrtDlls(inputs: Inputs): set<string> {
    set m | m in inputs.ucrt && m.Import? :: Lower(m.entry.dll)
  }

  /** The imports of a link that no UCRT DLL supplies. */
  function Named(imports: seq<Entry>, ucrt: set<string>): seq<Entry> {
    if imports == [] then []
    else
      var last := imports[|imports| - 1];
      Named(imports[..|imports| - 1], ucrt) + if Lower(last.dll) !in ucrt then [last] else []
  }

  /** The first providers of a set of unresolved names. */
  ghost function Provided(entries: seq<Entry>, names: set<Symbol>): set<Entry> {
    set n | n in names && FirstSupplier(entries, n).Some? :: FirstSupplier(entries, n).value
  }

  predicate Excused(n: Symbol) {
    n in LINKER_DEFINED || APPLICATION_PREFIX <= n
  }

  function Leftover(entries: seq<Entry>, names: set<Symbol>): set<Symbol> {
    set n | n in names && FirstSupplier(entries, n).None? && !Excused(n)
  }

  function AllImports(archives: Archives): seq<Entry> {
    if archives == [] then [] else AllImports(archives[..|archives| - 1]) + ImportsOf(archives[|archives| - 1])
  }

  /** What the link and its providers require. */
  ghost function HostImports(inputs: Inputs): set<Entry> {
    With({}, Named(LinkOf(inputs).imports, UcrtDlls(inputs)))
    + Provided(Supplies(inputs.libraries), Unresolved(LinkOf(inputs)))
  }

  /** The names nothing supplies. */
  function Missing(inputs: Inputs): set<Symbol> {
    Leftover(Supplies(inputs.libraries), Unresolved(LinkOf(inputs)))
  }

  ghost function Required(inputs: Inputs): set<Entry> {
    With(HostImports(inputs), AllImports(inputs.applicationAbi))
  }

  lemma {:induction false} NamedMembers(imports: seq<Entry>, ucrt: set<string>, e: Entry)
    ensures e in Named(imports, ucrt) <==> e in imports && Lower(e.dll) !in ucrt
  {
    if imports != [] {
      assert imports == imports[..|imports| - 1] + [imports[|imports| - 1]];
      NamedMembers(imports[..|imports| - 1], ucrt, e);
    }
  }

  // Names in order.

  /** Strings as Python sorts them, by their first differing character. */
  predicate AtMost(a: string, b: string) {
    a == "" || (b != "" && (a[0] < b[0] || (a[0] == b[0] && AtMost(a[1..], b[1..]))))
  }

  lemma {:induction false} AtMostTotal(a: string, b: string)
    ensures AtMost(a, b) || AtMost(b, a)
    ensures AtMost(a, b) && AtMost(b, a) ==> a == b
  {
    if a != "" && b != "" && a[0] == b[0] {
      AtMostTotal(a[1..], b[1..]);
      assert a == [a[0]] + a[1..] && b == [b[0]] + b[1..];
    }
  }

  lemma {:induction false} AtMostThen(a: string, b: string, c: string)
    requires AtMost(a, b) && AtMost(b, c)
    ensures AtMost(a, c)
  {
    if a != "" && a[0] == b[0] == c[0] {
      AtMostThen(a[1..], b[1..], c[1..]);
    }
  }

  ghost predicate IsLeast(name: Symbol, names: set<Symbol>) {
    name in names && forall m | m in names :: AtMost(name, m)
  }

  lemma {:induction false} LeastExists(names: set<Symbol>)
    requires names != {}
    ensures exists name :: IsLeast(name, names)
  {
    var name :| name in names;
    AtMostTotal(name, name);
    if names != {name} {
      LeastExists(names - {name});
      var other :| IsLeast(other, names - {name});
      AtMostTotal(name, other);
      if AtMost(name, other) {
        forall m | m in names ensures AtMost(name, m) {
          if m != name {
            AtMostThen(name, other, m);
          }
        }
        assert IsLeast(name, names);
      } else {
        assert IsLeast(other, names);
      }
    } else {
      assert IsLeast(name, names);
    }
  }

  /** The names sorted before `n`. */
  ghost function Before(names: set<Symbol>, n: Symbol): set<Symbol> {
    set m | m in names && m != n && AtMost(m, n)
  }

  /** The first provider of `n` is the first, in the order of the names, that cannot join those before it. */
  ghost predicate FaultsFor(
    entries: set<Entry>, supplies: seq<Entry>, names: set<Symbol>, n: Symbol, error: DeriveError) {
    && n in names && FirstSupplier(supplies, n).Some?
    && Consistent(entries + Provided(supplies, Before(names, n)))
    && FaultOf(entries + Provided(supplies, Before(names, n)), FirstSupplier(supplies, n).value, NativeLibrary)
       == Some(error)
  }

  lemma BeforeLeast(names: set<Symbol>, todo: set<Symbol>, n: Symbol)
    requires todo <= names && IsLeast(n, todo)
    requires forall d, t | d in names - todo && t in todo :: AtMost(d, t)
    ensures Before(names, n) == names - todo
  {
    forall m | m in todo && AtMost(m, n) ensures m == n {
      AtMostTotal(m, n);
    }
  }

  method LeastOf(names: set<Symbol>) returns (name: Symbol)
    requires names != {}
    ensures IsLeast(name, names)
  {
    LeastExists(names);
    name :| name in names && forall m | m in names :: AtMost(name, m);
  }

  /** The loop over the unresolved names, sorted. */
  method ResolveNames(
    requirements: Requirements, providers: map<Symbol, Entry>, unresolved: set<Symbol>,
    ghost entries: set<Entry>, ghost supplies: seq<Entry>)
    returns (result: Result<Requirements, DeriveError>)
    requires Holds(requirements, entries) && Provides(providers, supplies)
    ensures var all, left := entries + Provided(supplies, unresolved), Leftover(supplies, unresolved);
            if !Consistent(all)
            then result.Err? && exists n :: FaultsFor(entries, supplies, unresolved, n, result.error)
            else if left != {} then result == Err(NoSupplier(left))
            else result.Ok? && Holds(result.value, all)
  {
    var kept, leftover: set<Symbol> := requirements, {};
    var todo := unresolved;
    assert Provided(supplies, {}) == {} && entries + {} == entries;
    while todo != {}
      invariant todo <= unresolved
      invariant forall d, t | d in unresolved - todo && t in todo :: AtMost(d, t)
      invariant Holds(kept, entries + Provided(supplies, unresolved - todo))
      invariant leftover == Leftover(supplies, unresolved - todo)
    {
      var name := LeastOf(todo);
      ghost var done := unresolved - todo;
      BeforeLeast(unresolved, todo, name);
      ResolveStep(entries, supplies, done, name);
      assert unresolved - (todo - {name}) == done + {name};
      if name in providers {
        var next := Require(kept, providers[name], NativeLibrary, entries + Provided(supplies, done));
        if next.Err? {
          ProvidedGrows(entries, supplies, done + {name}, unresolved);
          assert FaultsFor(entries, supplies, unresolved, name, next.error);
          return next;
        }
        kept := next.value;
      } else if name !in LINKER_DEFINED && !(APPLICATION_PREFIX <= name) {
        leftover := leftover + {name};
      }
      todo := todo - {name};
    }
    assert unresolved - {} == unresolved;
    result := if leftover != {} then Err(NoSupplier(leftover)) else Ok(kept);
  }

  lemma ResolveStep(entries: set<Entry>, supplies: seq<Entry>, done: set<Symbol>, name: Symbol)
    ensures var supplier := FirstSupplier(supplies, name);
            && entries + Provided(supplies, done + {name}) ==
                 entries + Provided(supplies, done) + (if supplier.Some? then {supplier.value} else {})
            && Leftover(supplies, done + {name}) ==
                 Leftover(supplies, done) + if supplier.None? && !Excused(name) then {name} else {}
  {
  }

  lemma ProvidedGrows(entries: set<Entry>, supplies: seq<Entry>, some: set<Symbol>, all: set<Symbol>)
    requires some <= all && !Consistent(entries + Provided(supplies, some))
    ensures !Consistent(entries + Provided(supplies, all))
  {
    InconsistentLater(entries + Provided(supplies, some), entries + Provided(supplies, all));
  }

  /** The first import of the host or of its native libraries that cannot join those before it: the link's
      in the order it names them, then the providers of unresolved names in the order of the names. */
  ghost predicate FirstBadHostImport(inputs: Inputs, error: DeriveError) {
    var named, link := Named(LinkOf(inputs).imports, UcrtDlls(inputs)), LinkOf(inputs);
    if !Consistent(With({}, named)) then exists i :: FaultsAt({}, named, Host, i, error)
    else exists n :: FaultsFor(With({}, named), Supplies(inputs.libraries), Unresolved(link), n, error)
  }

  /** Exactly the required imports, or the refusal that applies first and the import it names. */
  ghost predicate Derived(inputs: Inputs, result: Result<Requirements, DeriveError>) {
    if !Consistent(HostImports(inputs)) then
      result.Err? && !result.error.NoSupplier? && FirstBadHostImport(inputs, result.error)
    else if Missing(inputs) != {} then result == Err(NoSupplier(Missing(inputs)))
    else if !Consistent(Required(inputs)) then
      && result.Err? && !result.error.NoSupplier?
      && exists i ::
           FaultsAt(HostImports(inputs), AllImports(inputs.applicationAbi), ApplicationAbi, i, result.error)
    else result.Ok? && Holds(result.value, Required(inputs))
  }

  /** The decision of `derive`. */
  method Derive(inputs: Inputs) returns (result: Result<Requirements, DeriveError>)
    ensures Derived(inputs, result)
  {
    var roots, archives := Roots(inputs), Searched(inputs);
    var imports, unresolved, _ := LinkMembers(roots, archives);
    var named := Named(imports, UcrtDlls(inputs));
    var required := RequireAll(map[], named, Host, {});
    if required.Err? {
      InconsistentLater(With({}, named), HostImports(inputs));
      return required;
    }
    var providers := ProviderImports(inputs.libraries);
    var resolved := ResolveNames(required.value, providers, unresolved, With({}, named), Supplies(inputs.libraries));
    if resolved.Err? {
      return resolved;
    }
    result := RequireAll(resolved.value, AllImports(inputs.applicationAbi), ApplicationAbi, HostImports(inputs));
  }
}
