/** The lazy archive link of `scripts/windows_link_imports.py`: which archive members a link pulls, which
    imports it names, and which names it leaves undefined. */
module LinkClosure {

  type Symbol = string

  /** A short import: its DLL, its symbol, and the type word of its header. */
  datatype Entry = Entry(dll: string, symbol: Symbol, kind: nat)

  datatype Member =
    | Object(definitions: set<Symbol>, references: set<Symbol>)
    | Import(entry: Entry)

  const IMPORT_CODE := 0
  const IMPORT_DATA := 1

  /** The names a short import defines: a data import has no call thunk. */
  function ImportSymbols(symbol: Symbol, kind: nat): set<Symbol> {
    if kind % 4 == IMPORT_DATA then {"__imp_" + symbol} else {symbol, "__imp_" + symbol}
  }

  function Defines(m: Member): set<Symbol> {
    match m
    case Object(definitions, _) => definitions
    case Import(entry) => ImportSymbols(entry.symbol, entry.kind)
  }

  function References(m: Member): set<Symbol> {
    match m
    case Object(_, references) => references
    case Import(_) => {}
  }

  type Archives = seq<seq<Member>>

  datatype Position = Position(archive: nat, index: nat)

  predicate IsPosition(archives: Archives, p: Position) {
    p.archive < |archives| && p.index < |archives[p.archive]|
  }

  function At(archives: Archives, p: Position): Member
    requires IsPosition(archives, p)
  {
    archives[p.archive][p.index]
  }

  function Positions(archives: Archives): set<Position> {
    set a, i | 0 <= a < |archives| && 0 <= i < |archives[a]| :: Position(a, i)
  }

  /** A link in progress: the names defined and referenced so far, the imports in order, and the
      positions pulled in order. */
  datatype Link = Link(defined: set<Symbol>, undefined: set<Symbol>, imports: seq<Entry>, pulled: seq<Position>)

  function Unresolved(l: Link): set<Symbol> {
    l.undefined - l.defined
  }

  function Add(l: Link, m: Member): Link {
    match m
    case Object(definitions, references) =>
      l.(defined := l.defined + definitions, undefined := l.undefined + references)
    case Import(entry) => l.(defined := l.defined + Defines(m), imports := l.imports + [entry])
  }

  function Linked(roots: seq<Member>): Link {
    if roots == [] then Link({}, {}, [], []) else Add(Linked(roots[..|roots| - 1]), roots[|roots| - 1])
  }

  predicate Wanted(l: Link, archives: Archives, p: Position)
    requires IsPosition(archives, p)
  {
    p !in l.pulled && Defines(At(archives, p)) * Unresolved(l) != {}
  }

  function Pull(l: Link, archives: Archives, p: Position): Link
    requires IsPosition(archives, p)
  {
    Add(l, At(archives, p)).(pulled := l.pulled + [p])
  }

  function Visit(l: Link, archives: Archives, p: Position): Link
    requires IsPosition(archives, p)
  {
    if Wanted(l, archives, p) then Pull(l, archives, p) else l
  }

  /** One pass over the archives, from member `i` of archive `a` to the end. */
  function Scan(l: Link, archives: Archives, a: nat, i: nat): (r: Link)
    requires a < |archives| ==> i <= |archives[a]|
    ensures l.pulled <= r.pulled
    ensures |r.pulled| == |l.pulled| ==> r == l
    ensures forall p | p in r.pulled[|l.pulled|..] :: p in Positions(archives) && p !in l.pulled
    decreases |archives| - a, if a < |archives| then |archives[a]| - i else 0
  {
    if a >= |archives| then l
    else if i == |archives[a]| then Scan(l, archives, a + 1, 0)
    else Scan(Visit(l, archives, Position(a, i)), archives, a, i + 1)
  }

  function Untaken(archives: Archives, l: Link): set<Position> {
    Positions(archives) - set p | p in l.pulled
  }

  lemma ScanProgress(l: Link, archives: Archives)
    ensures Scan(l, archives, 0, 0) != l ==> Untaken(archives, Scan(l, archives, 0, 0)) < Untaken(archives, l)
  {
    var r := Scan(l, archives, 0, 0);
    if r != l {
      var p := r.pulled[|l.pulled|];
      assert p in r.pulled[|l.pulled|..];
      assert p in Untaken(archives, l) && p !in Untaken(archives, r);
    }
  }

  /** Passes until one pulls nothing. */
  function Saturate(l: Link, archives: Archives): Link
    decreases Untaken(archives, l)
  {
    ScanProgress(l, archives);
    var r := Scan(l, archives, 0, 0);
    if r == l then l else Saturate(r, archives)
  }

  function Closure(roots: seq<Member>, archives: Archives): Link {
    Saturate(Linked(roots), archives)
  }

  /** The link of `link_closure`, updated in place as members are added. */
  class Linker {
    var defined: set<Symbol>
    var undefined: set<Symbol>
    var imports: seq<Entry>
    var taken: set<Position>
    ghost var pulled: seq<Position>

    ghost function Value(): Link
      reads this
    {
      Link(defined, undefined, imports, pulled)
    }

    ghost predicate Valid()
      reads this
    {
      taken == set p | p in pulled
    }

    constructor ()
      ensures Valid() && Value() == Link({}, {}, [], [])
    {
      defined, undefined, imports, taken, pulled := {}, {}, [], {}, [];
    }

    method AddMember(m: Member)
      modifies this`defined, this`undefined, this`imports
      ensures Value() == Add(old(Value()), m)
    {
      match m
      case Object(definitions, references) =>
        defined := defined + definitions;
        undefined := undefined + references;
      case Import(entry) =>
        defined := defined + Defines(m);
        imports := imports + [entry];
    }

    /** One pass over the archives, in order. */
    method Pass(archives: Archives) returns (progress: bool)
      requires Valid()
      modifies this
      ensures Valid() && Value() == Scan(old(Value()), archives, 0, 0)
      ensures progress == (Value() != old(Value()))
    {
      progress := false;
      for a := 0 to |archives|
        invariant Valid() && Scan(Value(), archives, a, 0) == Scan(old(Value()), archives, 0, 0)
        invariant if progress then |pulled| > |old(pulled)| else Value() == old(Value())
      {
        for i := 0 to |archives[a]|
          invariant Valid() && Scan(Value(), archives, a, i) == Scan(old(Value()), archives, 0, 0)
          invariant if progress then |pulled| > |old(pulled)| else Value() == old(Value())
        {
          var pulling := VisitMember(archives, Position(a, i));
          progress := progress || pulling;
        }
      }
    }

    method VisitMember(archives: Archives, p: Position) returns (pulling: bool)
      requires Valid() && IsPosition(archives, p)
      modifies this
      ensures Valid() && Value() == Visit(old(Value()), archives, p)
      ensures pulled == if pulling then old(pulled) + [p] else old(pulled)
      ensures !pulling ==> Value() == old(Value())
    {
      var member := At(archives, p);
      pulling := p !in taken && Defines(member) * (undefined - defined) != {};
      if pulling {
        taken := taken + {p};
        AddMember(member);
        pulled := pulled + [p];
      }
    }
  }

  /** `link_closure`: the imports named and the names left undefined. */
  method LinkMembers(roots: seq<Member>, archives: Archives)
    returns (imports: seq<Entry>, unresolved: set<Symbol>, ghost pulled: seq<Position>)
    ensures imports == Closure(roots, archives).imports
    ensures unresolved == Unresolved(Closure(roots, archives))
    ensures pulled == Closure(roots, archives).pulled
  {
    var linker := new Linker();
    for r := 0 to |roots|
      invariant linker.Valid() && linker.Value() == Linked(roots[..r])
    {
      assert roots[..r + 1][..r] == roots[..r];
      linker.AddMember(roots[r]);
    }
    assert roots[..|roots|] == roots;
    var progress := true;
    while progress
      invariant linker.Valid() && Saturate(linker.Value(), archives) == Closure(roots, archives)
      invariant !progress ==> linker.Value() == Closure(roots, archives)
      decreases Untaken(archives, linker.Value()), progress
    {
      ScanProgress(linker.Value(), archives);
      progress := linker.Pass(archives);
    }
    return linker.imports, linker.undefined - linker.defined, linker.pulled;
  }
}
