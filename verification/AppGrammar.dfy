/** What the header reader accepts, as a grammar: bracketed lists before the first top-level record, and in that
    record one dependency on a platform. */
module AppGrammar {

  import opened Wrappers
  import opened AppHeader

  // Bracketed text as a tree.

  /** Tokens and bracketed groups, one after another. */
  datatype Items =
    | Nothing
    | Mark(token: string, next: Items)
    | Group(open: string, inner: Items, close: string, next: Items)

  predicate Paired(open: string, close: string) {
    (open == "[" && close == "]") || (open == "{" && close == "}") || (open == "(" && close == ")")
  }

  predicate IsBracket(token: string) {
    token == "[" || token == "]" || token == "{" || token == "}" || token == "(" || token == ")"
  }

  predicate Shaped(items: Items) {
    match items
    case Nothing => true
    case Mark(token, next) => !IsBracket(token) && Shaped(next)
    case Group(open, inner, close, next) => Paired(open, close) && Shaped(inner) && Shaped(next)
  }

  function Flat(items: Items): seq<string> {
    match items
    case Nothing => []
    case Mark(token, next) => [token] + Flat(next)
    case Group(open, inner, close, next) => [open] + (Flat(inner) + ([close] + Flat(next)))
  }

  /** No record at the top level. */
  predicate NoRecord(items: Items) {
    match items
    case Nothing => true
    case Mark(_, next) => NoRecord(next)
    case Group(open, _, _, next) => open != "{" && NoRecord(next)
  }

  function Append(items: Items, more: Items): Items {
    match items
    case Nothing => more
    case Mark(token, next) => Mark(token, Append(next, more))
    case Group(open, inner, close, next) => Group(open, inner, close, Append(next, more))
  }

  /** `: platform`, and what follows. */
  function Dependency(next: Items): Items {
    Mark(":", Mark("platform", next))
  }

  /** A dependency on a platform follows these items in the record. */
  ghost predicate IsPart(record: Items, part: Items) {
    exists next :: record == Append(part, Dependency(next))
  }

  /** An app header: what comes before its record, the record up to its one platform, that, and the rest of it. */
  datatype Header = Header(before: Items, part: Items, literal: string, rest: Items)

  function Record(h: Header): Items {
    Append(h.part, Dependency(Mark(h.literal, h.rest)))
  }

  /** The tokens are a header's, and then any others. */
  ghost predicate IsHeader(h: Header, tokens: seq<string>, others: seq<string>) {
    && tokens == ["app"] + (Flat(h.before) + (["{"] + (Flat(Record(h)) + (["}"] + others))))
    && Shaped(h.before) && NoRecord(h.before) && Shaped(Record(h)) && IsLiteral(h.literal)
    && forall part | IsPart(Record(h), part) :: part == h.part
  }

  /** The place of its literal among its tokens. */
  function Place(h: Header): nat {
    1 + |Flat(h.before)| + 1 + |Flat(h.part)| + 2
  }

  // Appending.

  lemma {:induction false} AppendNothing(items: Items)
    ensures Append(items, Nothing) == items
  {
    match items
    case Nothing =>
    case Mark(_, next) => AppendNothing(next);
    case Group(_, _, _, next) => AppendNothing(next);
  }

  lemma {:induction false} AppendTwice(a: Items, b: Items, c: Items)
    ensures Append(Append(a, b), c) == Append(a, Append(b, c))
  {
    match a
    case Nothing =>
    case Mark(_, next) => AppendTwice(next, b, c);
    case Group(_, _, _, next) => AppendTwice(next, b, c);
  }

  lemma {:induction false} FlatAppend(a: Items, b: Items)
    ensures Flat(Append(a, b)) == Flat(a) + Flat(b)
  {
    match a
    case Nothing =>
    case Mark(_, next) => FlatAppend(next, b);
    case Group(open, inner, close, next) =>
      FlatAppend(next, b);
      GroupAndMore([open], Flat(inner), [close], Flat(next), Flat(b));
  }

  lemma GroupAndMore<T>(a: seq<T>, b: seq<T>, c: seq<T>, d: seq<T>, e: seq<T>)
    ensures a + (b + (c + (d + e))) == a + (b + (c + d)) + e
  {
  }

  lemma {:induction false} ShapedAppend(a: Items, b: Items)
    ensures Shaped(Append(a, b)) <==> Shaped(a) && Shaped(b)
    ensures NoRecord(Append(a, b)) <==> NoRecord(a) && NoRecord(b)
  {
    match a
    case Nothing =>
    case Mark(_, next) => ShapedAppend(next, b);
    case Group(_, _, _, next) => ShapedAppend(next, b);
  }

  // Where the dependencies on a platform are.

  /** No dependency on a platform among these, after a colon or not. */
  predicate Platformless(items: Items, colon: bool) {
    match items
    case Nothing => true
    case Mark(token, next) => !(colon && token == "platform") && Platformless(next, token == ":")
    case Group(_, _, _, next) => Platformless(next, false)
  }

  lemma {:induction false} PartAfter(token: string, items: Items, part: Items)
    requires IsPart(items, part)
    ensures IsPart(Mark(token, items), Mark(token, part))
  {
    var next :| items == Append(part, Dependency(next));
    assert Append(Mark(token, part), Dependency(next)) == Mark(token, items);
  }

  lemma {:induction false} SomePart(items: Items, colon: bool) returns (part: Items)
    requires !Platformless(items, colon)
    ensures IsPart(items, part) || (colon && items.Mark? && items.token == "platform")
  {
    match items
    case Mark(token, next) =>
      if colon && token == "platform" {
        part := Nothing;
      } else {
        part := SomePart(next, token == ":");
        if IsPart(next, part) {
          PartAfter(token, next, part);
          part := Mark(token, part);
        } else {
          part := Nothing;
          assert items == Append(part, Dependency(next.next));
        }
      }
    case Group(open, inner, close, next) =>
      part := SomePart(next, false);
      var more :| next == Append(part, Dependency(more));
      part := Group(open, inner, close, part);
      assert Append(part, Dependency(more)) == items;
  }

  lemma {:induction false} NotPart(items: Items, colon: bool, part: Items)
    requires Platformless(items, colon)
    ensures !IsPart(items, part)
  {
    if next :| items == Append(part, Dependency(next)) {
      match items
      case Mark(token, more) =>
        if !part.Nothing? {
          assert more == Append(part.next, Dependency(next));
          NotPart(more, token == ":", part.next);
        }
      case Group(_, _, _, more) =>
        assert more == Append(part.next, Dependency(next));
        NotPart(more, false, part.next);
    }
  }

  // Reading what a tree spells.

  /** The token read last: the last of these, or the one before them. */
  function Last(before: Option<string>, tokens: seq<string>): Option<string> {
    if tokens == [] then before else Some(tokens[|tokens| - 1])
  }

  ghost predicate Compact(tokens: seq<string>) {
    forall i | 0 <= i < |tokens| :: !Skipped(tokens[i])
  }

  /** The tokens go on with these. */
  ghost predicate GoesOn(tokens: seq<string>, i: nat, more: seq<string>) {
    i + |more| <= |tokens| && tokens[i..i + |more|] == more
  }

  lemma GoesOnInTurn(tokens: seq<string>, i: nat, first: seq<string>, more: seq<string>, k: nat)
    requires GoesOn(tokens, i, first + more) && k == i + |first|
    ensures GoesOn(tokens, i, first) && GoesOn(tokens, k, more)
  {
    var all := first + more;
    assert tokens[i..k] == tokens[i..i + |all|][..|first|] == first;
    assert tokens[k..k + |more|] == tokens[i..i + |all|][|first|..] == more;
  }

  lemma LastInTurn(before: Option<string>, first: seq<string>, more: seq<string>)
    ensures Last(Last(before, first), more) == Last(before, first + more)
  {
  }

  /** Nothing in the items is taken for a platform or ends the header: they stand before the record or inside a
      bracket that is not it; or in the record with no dependency on a platform. */
  ghost predicate Passed(r: Reader, items: Items) {
    || (!r.record && (r.stack != [] || NoRecord(items)))
    || (r.record && |r.stack| > 1)
    || (r.record && |r.stack| == 1 && Platformless(items, r.previous == Some(":")))
  }

  lemma {:induction false} MarkPasses(tokens: seq<string>, i: nat, r: Reader, token: string, next: Items, k: nat)
    requires Compact(tokens) && GoesOn(tokens, i, [token]) && !IsBracket(token) && Passed(r, Mark(token, next))
    requires k == i + 1
    ensures Read(tokens, i, r) == Read(tokens, k, r.(previous := Some(token)))
    ensures Passed(r.(previous := Some(token)), next)
  {
    assert tokens[i..k][0] == tokens[i];
  }

  lemma {:induction false} OpenPasses(
    tokens: seq<string>, i: nat, r: Reader, items: Items, k: nat, inside: Reader)
    requires Compact(tokens) && items.Group? && GoesOn(tokens, i, [items.open]) && Shaped(items) && Passed(r, items)
    requires k == i + 1 && inside == r.(stack := r.stack + [items.close], previous := Some(items.open))
    ensures Read(tokens, i, r) == Read(tokens, k, inside) && Passed(inside, items.inner)
  {
    assert tokens[i..k][0] == tokens[i];
  }

  lemma {:induction false} ClosePasses(
    tokens: seq<string>, i: nat, r: Reader, items: Items, k: nat, inside: Reader, after: Reader)
    requires Compact(tokens) && items.Group? && GoesOn(tokens, i, [items.close]) && Shaped(items) && Passed(r, items)
    requires inside.stack == r.stack + [items.close] && inside.record == r.record && inside.found == r.found
    requires k == i + 1 && after == r.(previous := Some(items.close))
    ensures Read(tokens, i, inside) == Read(tokens, k, after) && Passed(after, items.next)
  {
    assert tokens[i..k][0] == tokens[i];
    assert inside.stack[..|inside.stack| - 1] == r.stack;
  }

  lemma {:induction false} MarkGoesOn(tokens: seq<string>, i: nat, items: Items, k: nat)
    requires items.Mark? && GoesOn(tokens, i, Flat(items)) && k == i + 1
    ensures GoesOn(tokens, i, [items.token]) && GoesOn(tokens, k, Flat(items.next))
    ensures k + |Flat(items.next)| == i + |Flat(items)|
  {
    GoesOnInTurn(tokens, i, [items.token], Flat(items.next), k);
  }

  lemma {:induction false} MarkLast(before: Option<string>, items: Items)
    requires items.Mark?
    ensures Last(before, Flat(items)) == Last(Some(items.token), Flat(items.next))
  {
    LastInTurn(before, [items.token], Flat(items.next));
  }

  lemma {:induction false} GroupGoesOn(tokens: seq<string>, i: nat, items: Items, j: nat, m: nat, k: nat)
    requires items.Group? && GoesOn(tokens, i, Flat(items))
    requires j == i + 1 && m == j + |Flat(items.inner)| && k == m + 1
    ensures GoesOn(tokens, i, [items.open]) && GoesOn(tokens, j, Flat(items.inner))
    ensures GoesOn(tokens, m, [items.close]) && GoesOn(tokens, k, Flat(items.next))
    ensures k + |Flat(items.next)| == i + |Flat(items)|
  {
    var closing := [items.close] + Flat(items.next);
    GoesOnInTurn(tokens, i, [items.open], Flat(items.inner) + closing, j);
    GoesOnInTurn(tokens, j, Flat(items.inner), closing, m);
    GoesOnInTurn(tokens, m, [items.close], Flat(items.next), k);
  }

  lemma {:induction false} GroupLast(before: Option<string>, items: Items)
    requires items.Group?
    ensures Last(before, Flat(items)) == Last(Some(items.close), Flat(items.next))
  {
    var closing := [items.close] + Flat(items.next);
    LastInTurn(before, [items.open], Flat(items.inner) + closing);
    LastInTurn(Some(items.open), Flat(items.inner), closing);
    LastInTurn(Last(Some(items.open), Flat(items.inner)), [items.close], Flat(items.next));
  }

  /** The reader after these items. */
  function Past(r: Reader, items: Items): Reader {
    r.(previous := Last(r.previous, Flat(items)))
  }

  /** Reading goes past such items, and remembers the last token. */
  lemma {:induction false} ItemsPass(tokens: seq<string>, i: nat, r: Reader, items: Items, k: nat)
    requires Compact(tokens) && GoesOn(tokens, i, Flat(items)) && Shaped(items) && Passed(r, items)
    requires k == i + |Flat(items)|
    ensures k <= |tokens| && Read(tokens, i, r) == Read(tokens, k, Past(r, items))
    decreases items, 1
  {
    match items
    case Nothing =>
    case Mark(token, next) =>
      MarkGoesOn(tokens, i, items, i + 1);
      MarkPasses(tokens, i, r, token, next, i + 1);
      ItemsPass(tokens, i + 1, r.(previous := Some(token)), next, k);
      MarkLast(r.previous, items);
    case Group(open, inner, close, next) =>
      GroupPasses(tokens, i, r, items, i + 1, i + 1 + |Flat(inner)|, i + 2 + |Flat(inner)|, k);
  }

  lemma {:induction false} GroupPasses(
    tokens: seq<string>, i: nat, r: Reader, items: Items, j: nat, m: nat, n: nat, k: nat)
    requires Compact(tokens) && GoesOn(tokens, i, Flat(items)) && Shaped(items) && Passed(r, items)
    requires items.Group? && j == i + 1 && m == j + |Flat(items.inner)| && n == m + 1 && k == i + |Flat(items)|
    ensures k <= |tokens| && Read(tokens, i, r) == Read(tokens, k, Past(r, items))
    decreases items, 0
  {
    var inside := r.(stack := r.stack + [items.close], previous := Some(items.open));
    var after := r.(previous := Some(items.close));
    GroupGoesOn(tokens, i, items, j, m, n);
    OpenPasses(tokens, i, r, items, j, inside);
    ItemsPass(tokens, j, inside, items.inner, m);
    ClosePasses(tokens, m, r, items, n, Past(inside, items.inner), after);
    ItemsPass(tokens, n, after, items.next, k);
    GroupLast(r.previous, items);
  }

  // A header's tokens are read as its.

  lemma {:induction false} PartOfMore(items: Items, part: Items, more: Items)
    requires IsPart(items, part)
    ensures IsPart(Append(items, more), part)
  {
    var next :| items == Append(part, Dependency(next));
    AppendTwice(part, Dependency(next), more);
    assert Append(items, more) == Append(part, Dependency(Append(next, more)));
  }

  lemma {:induction false} PartAhead(first: Items, items: Items, part: Items)
    requires IsPart(items, part)
    ensures IsPart(Append(first, items), Append(first, part))
  {
    var next :| items == Append(part, Dependency(next));
    AppendTwice(first, part, Dependency(next));
    assert Append(first, items) == Append(Append(first, part), Dependency(next));
  }

  lemma {:induction false} PartIsShorter(part: Items, next: Items)
    ensures |Flat(Append(part, Dependency(next)))| == |Flat(part)| + 2 + |Flat(next)|
  {
    FlatAppend(part, Dependency(next));
    assert Flat(Dependency(next)) == [":"] + (["platform"] + Flat(next));
  }

  lemma {:induction false} PartBefore(h: Header, part: Items)
    requires IsPart(h.part, part)
    ensures IsPart(Record(h), part)
  {
    PartOfMore(h.part, part, Dependency(Mark(h.literal, h.rest)));
  }

  lemma {:induction false} PartBehind(h: Header, part: Items, taken: Items)
    requires IsPart(h.rest, part) && taken == Dependency(Mark(h.literal, Nothing))
    ensures IsPart(Record(h), Append(Append(h.part, taken), part))
  {
    PartAhead(Append(h.part, taken), h.rest, part);
    AppendTwice(h.part, taken, h.rest);
    assert Append(Mark(h.literal, Nothing), h.rest) == Mark(h.literal, h.rest);
    assert Append(taken, h.rest) == Dependency(Mark(h.literal, h.rest));
  }

  /** With one dependency on a platform there is none before it and none after. */
  lemma {:induction false} NoneBefore(h: Header)
    requires forall part | IsPart(Record(h), part) :: part == h.part
    ensures Platformless(h.part, false)
  {
    if !Platformless(h.part, false) {
      var part := SomePart(h.part, false);
      var next :| h.part == Append(part, Dependency(next));
      PartIsShorter(part, next);
      PartBefore(h, part);
    }
  }

  lemma {:induction false} NoneAfter(h: Header)
    requires forall part | IsPart(Record(h), part) :: part == h.part
    ensures Platformless(h.rest, false)
  {
    if !Platformless(h.rest, false) {
      var part := SomePart(h.rest, false);
      var taken := Dependency(Mark(h.literal, Nothing));
      FlatAppend(Append(h.part, taken), part);
      PartIsShorter(h.part, Mark(h.literal, Nothing));
      PartBehind(h, part, taken);
    }
  }

  lemma {:induction false} RecordOpens(tokens: seq<string>, i: nat, r: Reader, k: nat, inside: Reader)
    requires Compact(tokens) && GoesOn(tokens, i, ["{"]) && r.stack == [] && !r.record && k == i + 1
    requires inside == Reader(["}"], true, r.found, Some("{"))
    ensures Read(tokens, i, r) == Read(tokens, k, inside)
  {
    assert tokens[i..k][0] == tokens[i];
    assert [] + ["}"] == ["}"];
  }

  lemma {:induction false} PlatformTaken(tokens: seq<string>, i: nat, r: Reader, literal: string, j: nat, k: nat)
    requires Compact(tokens) && GoesOn(tokens, i, ["platform", literal]) && IsLiteral(literal)
    requires r.record && |r.stack| == 1 && r.previous == Some(":") && j == i + 1 && k == i + 2
    ensures Read(tokens, i, r) == Read(tokens, k, r.(found := r.found + [j], previous := Some(literal)))
  {
    assert tokens[i..k][0] == tokens[i] && tokens[i..k][1] == tokens[j];
    assert NextToken(tokens, j) == j;
  }

  lemma {:induction false} RecordCloses(tokens: seq<string>, i: nat, r: Reader)
    requires Compact(tokens) && GoesOn(tokens, i, ["}"]) && r.stack == ["}"] && r.record && |r.found| == 1
    ensures Read(tokens, i, r) == Ok(r.found[0])
  {
    assert tokens[i..i + 1][0] == tokens[i];
    assert r.stack[..0] == [];
    assert ReadOne(tokens, i, r) == Err(Ok(r.found[0]));
  }

  lemma TwoAndMore<T>(a: T, b: T, more: seq<T>)
    ensures [a] + ([b] + more) == [a, b] + more
  {
  }

  /** The tokens of a record, in turn. */
  lemma {:induction false} RecordGoesOn(
    tokens: seq<string>, i: nat, h: Header, colon: nat, platform: nat, rest: nat, close: nat)
    requires GoesOn(tokens, i, Flat(Record(h))) && GoesOn(tokens, close, ["}"])
    requires colon == i + |Flat(h.part)| && platform == colon + 1 && rest == platform + 2
    requires close == i + |Flat(Record(h))|
    ensures GoesOn(tokens, i, Flat(h.part)) && GoesOn(tokens, colon, [":"])
    ensures GoesOn(tokens, platform, ["platform", h.literal]) && GoesOn(tokens, rest, Flat(h.rest))
    ensures close == rest + |Flat(h.rest)|
  {
    var taken := ["platform", h.literal];
    FlatAppend(h.part, Dependency(Mark(h.literal, h.rest)));
    assert Flat(Mark(h.literal, h.rest)) == [h.literal] + Flat(h.rest);
    TwoAndMore("platform", h.literal, Flat(h.rest));
    GoesOnInTurn(tokens, i, Flat(h.part), [":"] + (taken + Flat(h.rest)), colon);
    GoesOnInTurn(tokens, colon, [":"], taken + Flat(h.rest), platform);
    GoesOnInTurn(tokens, platform, taken, Flat(h.rest), rest);
  }

  lemma {:induction false} ColonPasses(tokens: seq<string>, i: nat, r: Reader, k: nat)
    requires Compact(tokens) && GoesOn(tokens, i, [":"]) && k == i + 1
    ensures Read(tokens, i, r) == Read(tokens, k, r.(previous := Some(":")))
  {
    assert tokens[i..k][0] == tokens[i];
  }

  lemma {:induction false} DependencyIsRead(
    tokens: seq<string>, r: Reader, literal: string, colon: nat, platform: nat, at: nat, rest: nat, found: Reader)
    requires Compact(tokens) && GoesOn(tokens, colon, [":"]) && GoesOn(tokens, platform, ["platform", literal])
    requires platform == colon + 1 && at == platform + 1 && rest == platform + 2
    requires r.stack == ["}"] && r.record && r.found == [] && IsLiteral(literal)
    requires found == Reader(["}"], true, [at], Some(literal))
    ensures Read(tokens, colon, r) == Read(tokens, rest, found)
  {
    ColonPasses(tokens, colon, r, platform);
    PlatformTaken(tokens, platform, r.(previous := Some(":")), literal, at, rest);
    assert [] + [at] == [at];
  }

  lemma {:induction false} RecordIsRead(
    tokens: seq<string>, i: nat, h: Header, colon: nat, platform: nat, at: nat, rest: nat, close: nat)
    requires Compact(tokens) && GoesOn(tokens, i, Flat(Record(h))) && GoesOn(tokens, close, ["}"])
    requires colon == i + |Flat(h.part)| && platform == colon + 1 && at == platform + 1 && rest == platform + 2
    requires close == i + |Flat(Record(h))|
    requires Shaped(h.part) && Shaped(h.rest) && Platformless(h.part, false) && Platformless(h.rest, false)
    requires IsLiteral(h.literal)
    ensures Read(tokens, i, Reader(["}"], true, [], Some("{"))) == Ok(at)
  {
    var inside := Reader(["}"], true, [], Some("{"));
    var found := Reader(["}"], true, [at], Some(h.literal));
    RecordGoesOn(tokens, i, h, colon, platform, rest, close);
    ItemsPass(tokens, i, inside, h.part, colon);
    DependencyIsRead(tokens, Past(inside, h.part), h.literal, colon, platform, at, rest, found);
    ItemsPass(tokens, rest, found, h.rest, close);
    RecordCloses(tokens, close, Past(found, h.rest));
  }

  /** The tokens of a header, in turn. */
  lemma {:induction false} HeaderGoesOn(
    h: Header, tokens: seq<string>, others: seq<string>, open: nat, record: nat, close: nat)
    requires tokens == ["app"] + (Flat(h.before) + (["{"] + (Flat(Record(h)) + (["}"] + others))))
    requires open == 1 + |Flat(h.before)| && record == open + 1 && close == record + |Flat(Record(h))|
    ensures tokens[0] == "app"
    ensures GoesOn(tokens, 1, Flat(h.before)) && GoesOn(tokens, open, ["{"])
    ensures GoesOn(tokens, record, Flat(Record(h))) && GoesOn(tokens, close, ["}"])
  {
    var closing := ["}"] + others;
    var recording := Flat(Record(h)) + closing;
    var opening := ["{"] + recording;
    assert tokens == tokens[0..|tokens|];
    GoesOnInTurn(tokens, 0, ["app"], Flat(h.before) + opening, 1);
    GoesOnInTurn(tokens, 1, Flat(h.before), opening, open);
    GoesOnInTurn(tokens, open, ["{"], recording, record);
    GoesOnInTurn(tokens, record, Flat(Record(h)), closing, close);
    GoesOnInTurn(tokens, close, ["}"], others, close + 1);
  }

  lemma {:induction false} RecordShaped(h: Header)
    requires Shaped(Record(h))
    ensures Shaped(h.part) && Shaped(h.rest)
  {
    var record := Append(h.part, Dependency(Mark(h.literal, h.rest)));
    assert record == Record(h);
    ShapedAppend(h.part, Dependency(Mark(h.literal, h.rest)));
    assert Shaped(Mark("platform", Mark(h.literal, h.rest)));
    assert Shaped(Mark(h.literal, h.rest));
  }

  lemma {:induction false} AppStarts(tokens: seq<string>)
    requires Compact(tokens)
    ensures PlatformPiece(tokens) ==
              if tokens == [] || tokens[0] != "app" then Ok(None)
              else
                match Read(tokens, 1, START)
                case Err(error) => Err(error)
                case Ok(k) => Ok(Some(k))
  {
    assert NextToken(tokens, 0) == 0;
  }

  /** Whatever spells a header is accepted, at its literal. */
  lemma {:induction false} HeaderIsAccepted(h: Header, tokens: seq<string>, others: seq<string>)
    requires Compact(tokens) && IsHeader(h, tokens, others)
    ensures PlatformPiece(tokens) == Ok(Some(Place(h)))
  {
    var open := 1 + |Flat(h.before)|;
    var record := open + 1;
    var colon, close := record + |Flat(h.part)|, record + |Flat(Record(h))|;
    HeaderGoesOn(h, tokens, others, open, record, close);
    RecordShaped(h);
    NoneBefore(h);
    NoneAfter(h);
    ItemsPass(tokens, 1, START, h.before, open);
    RecordOpens(tokens, open, Past(START, h.before), record, Reader(["}"], true, [], Some("{")));
    RecordIsRead(tokens, record, h, colon, colon + 1, colon + 2, colon + 3, close);
    AppStarts(tokens);
  }
}
