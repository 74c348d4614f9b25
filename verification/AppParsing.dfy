/** The header reader's answers, told by the grammar: it accepts headers and nothing else, and refuses what it
    says it refuses. */
module AppParsing {

  import opened Wrappers
  import opened AppHeader
  import opened AppGrammar

  // What has been read: the items of each bracket still open, and those of the innermost.

  /** The items before an open bracket, and the bracket. */
  datatype Frame = Frame(items: Items, open: string)

  function Spelled(frames: seq<Frame>, current: Items): seq<string> {
    if frames == [] then Flat(current)
    else
      var last := frames[|frames| - 1];
      Spelled(frames[..|frames| - 1], last.items) + ([last.open] + Flat(current))
  }

  predicate IsOpen(token: string) {
    token == "[" || token == "{" || token == "("
  }

  predicate IsClose(token: string) {
    token == "]" || token == "}" || token == ")"
  }

  /** The items at the top level. */
  function Outermost(frames: seq<Frame>, current: Items): Items {
    if frames == [] then current else frames[0].items
  }

  ghost predicate Framed(frames: seq<Frame>, current: Items) {
    && Shaped(current) && (forall i | 0 <= i < |frames| :: Shaped(frames[i].items) && IsOpen(frames[i].open))
    && NoRecord(Outermost(frames, current))
  }

  predicate InRecord(frames: seq<Frame>) {
    frames != [] && frames[0].open == "{"
  }

  /** The items of the record so far. */
  function RecordSoFar(frames: seq<Frame>, current: Items): Items {
    if |frames| > 1 then frames[1].items else current
  }

  lemma {:induction false} SpelledFurther(frames: seq<Frame>, current: Items, more: Items)
    ensures Spelled(frames, Append(current, more)) == Spelled(frames, current) + Flat(more)
  {
    FlatAppend(current, more);
    if frames != [] {
      var last := frames[|frames| - 1];
      var before := Spelled(frames[..|frames| - 1], last.items);
      assert before + ([last.open] + (Flat(current) + Flat(more))) ==
             before + ([last.open] + Flat(current)) + Flat(more);
    }
  }

  lemma {:induction false} SpelledDeeper(frames: seq<Frame>, current: Items, open: string)
    ensures Spelled(frames + [Frame(current, open)], Nothing) == Spelled(frames, current) + [open]
  {
    var deeper := frames + [Frame(current, open)];
    assert deeper[..|deeper| - 1] == frames;
    assert [open] + [] == [open];
  }

  /** The items after the innermost bracket closes. */
  function Closed(frames: seq<Frame>, current: Items, close: string): Items
    requires frames != []
  {
    var last := frames[|frames| - 1];
    Append(last.items, Group(last.open, current, close, Nothing))
  }

  lemma {:induction false} SpelledClosed(frames: seq<Frame>, current: Items, close: string)
    requires frames != []
    ensures Spelled(frames[..|frames| - 1], Closed(frames, current, close)) == Spelled(frames, current) + [close]
  {
    var last, outer := frames[|frames| - 1], frames[..|frames| - 1];
    var group := Group(last.open, current, close, Nothing);
    SpelledFurther(outer, last.items, group);
    assert [close] + [] == [close];
    assert Flat(group) == [last.open] + (Flat(current) + [close]);
    assert Spelled(outer, last.items) + ([last.open] + (Flat(current) + [close])) ==
           Spelled(outer, last.items) + ([last.open] + Flat(current)) + [close];
  }

  // The dependencies on a platform so far.

  /** A dependency on that literal follows these items in the record. */
  ghost predicate LiteralAt(record: Items, part: Items, literal: string, next: Items) {
    record == Append(part, Dependency(Mark(literal, next))) && IsLiteral(literal)
  }

  ghost predicate HasLiteral(record: Items, part: Items) {
    exists literal, next :: LiteralAt(record, part, literal, next)
  }

  /** The literals found are those of the dependencies there are, in order. */
  ghost predicate Finds(base: nat, record: Items, found: seq<nat>, parts: seq<Items>) {
    && |parts| == |found|
    && (forall i | 0 <= i < |found| :: found[i] == base + |Flat(parts[i])| + 2 && HasLiteral(record, parts[i]))
    && (forall i, j | 0 <= i < j < |parts| :: |Flat(parts[i])| < |Flat(parts[j])|)
    && forall part :: IsPart(record, part) <==> part in parts
  }

  lemma {:induction false} DependencyAppend(literal: string, next: Items, more: Items)
    ensures Append(Dependency(Mark(literal, next)), more) == Dependency(Mark(literal, Append(next, more)))
  {
    assert Append(Mark(literal, next), more) == Mark(literal, Append(next, more));
  }

  lemma {:induction false} LiteralStaysAt(
    record: Items, part: Items, literal: string, next: Items, more: Items, after: Items)
    requires LiteralAt(record, part, literal, next) && after == Append(next, more)
    ensures LiteralAt(Append(record, more), part, literal, after)
  {
    AppendTwice(part, Dependency(Mark(literal, next)), more);
    DependencyAppend(literal, next, more);
  }

  lemma {:induction false} LiteralStays(record: Items, part: Items, more: Items)
    requires HasLiteral(record, part)
    ensures HasLiteral(Append(record, more), part)
  {
    var literal, next :| LiteralAt(record, part, literal, next);
    LiteralStaysAt(record, part, literal, next, more, Append(next, more));
  }

  /** A mark more makes a new dependency only as `platform` after a colon. */
  lemma {:induction false} PartsOfMark(items: Items, token: string, part: Items)
    ensures IsPart(Append(items, Mark(token, Nothing)), part) <==>
              IsPart(items, part) || (token == "platform" && items == Append(part, Mark(":", Nothing)))
  {
    var more := Append(items, Mark(token, Nothing));
    if IsPart(items, part) {
      PartOfMore(items, part, Mark(token, Nothing));
    }
    if token == "platform" && items == Append(part, Mark(":", Nothing)) {
      AppendTwice(part, Mark(":", Nothing), Mark(token, Nothing));
      assert Append(Mark(":", Nothing), Mark(token, Nothing)) == Dependency(Nothing);
    }
    if next :| more == Append(part, Dependency(next)) {
      LastOfPart(items, Mark(token, Nothing), part, next);
    }
  }

  /** A group more makes none. */
  lemma {:induction false} PartsOfGroup(items: Items, group: Items, part: Items)
    requires group.Group? && group.next == Nothing
    ensures IsPart(Append(items, group), part) <==> IsPart(items, part)
  {
    if IsPart(items, part) {
      PartOfMore(items, part, group);
    }
    if next :| Append(items, group) == Append(part, Dependency(next)) {
      LastOfPart(items, group, part, next);
    }
  }

  /** A dependency within items and one more lies within the items, or is made by that one. */
  lemma {:induction false} LastOfPart(items: Items, last: Items, part: Items, next: Items)
    requires Append(items, last) == Append(part, Dependency(next))
    requires (last.Mark? || last.Group?) && last.next == Nothing
    ensures IsPart(items, part) || (last == Mark("platform", Nothing) && items == Append(part, Mark(":", Nothing)))
  {
    match items
    case Nothing =>
      assert false;
    case Mark(token, more) =>
      if part.Nothing? {
        assert Append(more, last) == Mark("platform", next);
        if !more.Nothing? {
          assert items == Append(part, Dependency(more.next));
        }
      } else {
        LastOfPart(more, last, part.next, next);
        if IsPart(more, part.next) {
          PartAfter(token, more, part.next);
        }
      }
    case Group(open, inner, close, more) =>
      LastOfPart(more, last, part.next, next);
      if IsPart(more, part.next) {
        var n :| more == Append(part.next, Dependency(n));
        assert items == Append(part, Dependency(n));
      }
  }

  lemma {:induction false} PartLength(record: Items, part: Items)
    requires HasLiteral(record, part)
    ensures |Flat(part)| + 3 <= |Flat(record)|
  {
    var literal, next :| LiteralAt(record, part, literal, next);
    PartIsShorter(part, Mark(literal, next));
    assert |Flat(Mark(literal, next))| > 0;
  }

  /** A mark that makes no dependency leaves what was found. */
  lemma {:induction false} FindsMark(
    base: nat, record: Items, found: seq<nat>, parts: seq<Items>, token: string, after: Items)
    requires Finds(base, record, found, parts) && after == Append(record, Mark(token, Nothing))
    requires token != "platform" || forall part :: record != Append(part, Mark(":", Nothing))
    ensures Finds(base, after, found, parts)
  {
    forall part ensures IsPart(after, part) <==> part in parts {
      PartsOfMark(record, token, part);
    }
    forall i | 0 <= i < |found| ensures HasLiteral(after, parts[i]) {
      LiteralStays(record, parts[i], Mark(token, Nothing));
    }
  }

  lemma {:induction false} FindsGroup(
    base: nat, record: Items, found: seq<nat>, parts: seq<Items>, group: Items, after: Items)
    requires Finds(base, record, found, parts) && after == Append(record, group)
    requires group.Group? && group.next == Nothing
    ensures Finds(base, after, found, parts)
  {
    forall part ensures IsPart(after, part) <==> part in parts {
      PartsOfGroup(record, group, part);
    }
    forall i | 0 <= i < |found| ensures HasLiteral(after, parts[i]) {
      LiteralStays(record, parts[i], group);
    }
  }

  /** What stands before a colon that ends the items. */
  lemma {:induction false} BeforeColon(items: Items) returns (part: Items)
    requires Shaped(items) && Flat(items) != [] && Flat(items)[|Flat(items)| - 1] == ":"
    ensures items == Append(part, Mark(":", Nothing)) && |Flat(items)| == |Flat(part)| + 1
  {
    match items
    case Mark(token, next) =>
      if next.Nothing? {
        part := Nothing;
      } else {
        assert Flat(items)[|Flat(items)| - 1] == Flat(next)[|Flat(next)| - 1];
        part := BeforeColon(next);
        part := Mark(token, part);
      }
    case Group(open, inner, close, next) =>
      GroupLast(None, items);
      assert next.Nothing? ==> Flat(next) == [];
      part := BeforeColon(next);
      part := Group(open, inner, close, part);
      FlatAppend(part, Mark(":", Nothing));
  }

  lemma {:induction false} EndsInColon(part: Items)
    ensures var tokens := Flat(Append(part, Mark(":", Nothing)));
            tokens != [] && tokens[|tokens| - 1] == ":"
  {
    FlatAppend(part, Mark(":", Nothing));
  }

  /** A dependency taken up with its literal is found. */
  lemma {:induction false} FindsPlatform(
    base: nat, record: Items, found: seq<nat>, parts: seq<Items>, part: Items, literal: string, after: Items, at: nat)
    requires Finds(base, record, found, parts) && record == Append(part, Mark(":", Nothing)) && IsLiteral(literal)
    requires after == Append(record, Mark("platform", Mark(literal, Nothing)))
    requires at == base + |Flat(part)| + 2
    ensures Finds(base, after, found + [at], parts + [part])
  {
    var named := Append(record, Mark("platform", Nothing));
    AppendTwice(record, Mark("platform", Nothing), Mark(literal, Nothing));
    assert after == Append(named, Mark(literal, Nothing));
    FoundAfter(record, named, part, literal, after);
    forall i | 0 <= i < |found| ensures HasLiteral(after, parts[i]) && |Flat(parts[i])| < |Flat(part)| {
      LiteralStays(record, parts[i], Mark("platform", Mark(literal, Nothing)));
      PartLength(record, parts[i]);
      FlatAppend(part, Mark(":", Nothing));
    }
    forall p ensures IsPart(after, p) <==> p in parts + [part] {
      PartsOfMark(record, "platform", p);
      PartsOfMark(named, literal, p);
      if record == Append(p, Mark(":", Nothing)) {
        SameBefore(p, part);
      }
    }
  }

  lemma {:induction false} FoundAfter(record: Items, named: Items, part: Items, literal: string, after: Items)
    requires record == Append(part, Mark(":", Nothing)) && IsLiteral(literal)
    requires after == Append(record, Mark("platform", Mark(literal, Nothing)))
    ensures HasLiteral(after, part)
  {
    AppendTwice(part, Mark(":", Nothing), Mark("platform", Mark(literal, Nothing)));
    assert LiteralAt(after, part, literal, Nothing);
  }

  lemma {:induction false} SameBefore(a: Items, b: Items)
    requires Append(a, Mark(":", Nothing)) == Append(b, Mark(":", Nothing))
    ensures a == b
  {
    match a
    case Nothing =>
      assert b.Mark? ==> Append(b.next, Mark(":", Nothing)) == Nothing;
    case Mark(_, next) =>
      if !b.Nothing? {
        SameBefore(next, b.next);
      }
    case Group(_, _, _, next) => SameBefore(next, b.next);
  }

  // The reader keeps to the grammar.

  /** The reader's closing marks, flag and token before are those of what it has read. */
  ghost predicate Tracks(r: Reader, frames: seq<Frame>, current: Items) {
    && |r.stack| == |frames| && (forall i | 0 <= i < |frames| :: Paired(frames[i].open, r.stack[i]))
    && (r.record <==> InRecord(frames)) && r.previous == Last(None, Spelled(frames, current))
  }

  ghost predicate Found(r: Reader, frames: seq<Frame>, current: Items, parts: seq<Items>) {
    if InRecord(frames) then Finds(2 + |Flat(frames[0].items)|, RecordSoFar(frames, current), r.found, parts)
    else r.found == []
  }

  ghost predicate Parsing(
    tokens: seq<string>, i: nat, r: Reader, frames: seq<Frame>, current: Items, parts: seq<Items>)
  {
    && 1 <= i <= |tokens| && tokens[..i] == ["app"] + Spelled(frames, current)
    && Framed(frames, current) && Tracks(r, frames, current) && Found(r, frames, current, parts)
  }

  lemma OneMore(tokens: seq<string>, i: nat, k: nat, before: seq<string>, token: string)
    requires i < |tokens| && k == i + 1 && tokens[..i] == ["app"] + before && token == tokens[i]
    ensures tokens[..k] == ["app"] + (before + [token])
  {
  }

  lemma {:induction false} SpelledOnce(frames: seq<Frame>, current: Items)
    requires |frames| == 1
    ensures Spelled(frames, current) == Flat(frames[0].items) + ([frames[0].open] + Flat(current))
  {
    var outer := frames[..0];
    assert outer == [] && Spelled(outer, frames[0].items) == Flat(frames[0].items);
    assert frames[..|frames| - 1] == outer;
  }

  /** The items the reader takes for its record's are at one bracket's depth. */
  lemma PreviousInRecord(r: Reader, frames: seq<Frame>, current: Items)
    requires Framed(frames, current) && Tracks(r, frames, current) && InRecord(frames) && |frames| == 1
    ensures r.previous == Some(":") <==> exists part :: current == Append(part, Mark(":", Nothing))
  {
    var spelled := Spelled(frames, current);
    SpelledOnce(frames, current);
    assert spelled[|spelled| - 1] == if Flat(current) == [] then "{" else Flat(current)[|Flat(current)| - 1];
    if r.previous == Some(":") {
      var part := BeforeColon(current);
    }
    if part :| current == Append(part, Mark(":", Nothing)) {
      EndsInColon(part);
    }
  }

  lemma {:induction false} FramedMark(frames: seq<Frame>, current: Items, token: string, after: Items)
    requires Framed(frames, current) && !IsBracket(token) && after == Append(current, Mark(token, Nothing))
    ensures Framed(frames, after)
  {
    ShapedAppend(current, Mark(token, Nothing));
  }

  lemma {:induction false} FoundMark(
    r: Reader, frames: seq<Frame>, current: Items, parts: seq<Items>, token: string, after: Items)
    requires Framed(frames, current) && Tracks(r, frames, current) && Found(r, frames, current, parts)
    requires after == Append(current, Mark(token, Nothing)) && !AtPlatform(r, token)
    ensures Found(r, frames, after, parts)
  {
    if InRecord(frames) && |frames| == 1 {
      PreviousInRecord(r, frames, current);
      FindsMark(2 + |Flat(frames[0].items)|, current, r.found, parts, token, after);
    }
  }

  lemma {:induction false} MarkParsed(
    tokens: seq<string>, i: nat, r: Reader, frames: seq<Frame>, current: Items, parts: seq<Items>, k: nat)
    requires Parsing(tokens, i, r, frames, current, parts) && i < |tokens| && k == i + 1
    requires !IsBracket(tokens[i]) && !AtPlatform(r, tokens[i])
    ensures Parsing(tokens, k, r.(previous := Some(tokens[i])), frames, Append(current, Mark(tokens[i], Nothing)),
                    parts)
  {
    var after := Append(current, Mark(tokens[i], Nothing));
    SpelledFurther(frames, current, Mark(tokens[i], Nothing));
    assert [tokens[i]] + [] == [tokens[i]];
    OneMore(tokens, i, k, Spelled(frames, current), tokens[i]);
    FramedMark(frames, current, tokens[i], after);
    FoundMark(r, frames, current, parts, tokens[i], after);
  }

  lemma {:induction false} NothingFound(base: nat)
    ensures Finds(base, Nothing, [], [])
  {
    forall part ensures !IsPart(Nothing, part) {
      NotPart(Nothing, false, part);
    }
  }

  lemma {:induction false} FoundDeeper(
    r: Reader, frames: seq<Frame>, current: Items, parts: seq<Items>, open: string, next: Reader, parts': seq<Items>)
    requires Found(r, frames, current, parts) && next.found == r.found
    requires parts' == if frames == [] then [] else parts
    ensures Found(next, frames + [Frame(current, open)], Nothing, parts')
  {
    var deeper := frames + [Frame(current, open)];
    if frames == [] {
      NothingFound(2 + |Flat(current)|);
    } else {
      assert deeper[0] == frames[0];
      assert |frames| > 1 ==> deeper[1] == frames[1];
      assert RecordSoFar(deeper, Nothing) == RecordSoFar(frames, current);
    }
  }

  lemma {:induction false} FramedDeeper(frames: seq<Frame>, current: Items, open: string)
    requires Framed(frames, current) && IsOpen(open) && (frames == [] ==> NoRecord(current))
    ensures Framed(frames + [Frame(current, open)], Nothing)
  {
    assert frames != [] ==> (frames + [Frame(current, open)])[0] == frames[0];
  }

  lemma {:induction false} TracksDeeper(
    r: Reader, frames: seq<Frame>, current: Items, open: string, close: string, next: Reader)
    requires Tracks(r, frames, current) && Paired(open, close)
    requires next == Reader(r.stack + [close], r.record || (frames == [] && open == "{"), r.found, Some(open))
    ensures Tracks(next, frames + [Frame(current, open)], Nothing)
  {
    SpelledDeeper(frames, current, open);
    assert frames != [] ==> (frames + [Frame(current, open)])[0] == frames[0];
  }

  lemma {:induction false} OpenParsed(
    tokens: seq<string>, i: nat, r: Reader, frames: seq<Frame>, current: Items, parts: seq<Items>, k: nat,
    close: string, next: Reader, parts': seq<Items>)
    requires Parsing(tokens, i, r, frames, current, parts) && i < |tokens| && k == i + 1
    requires IsOpen(tokens[i]) && Paired(tokens[i], close)
    requires next == Reader(r.stack + [close], r.record || (frames == [] && tokens[i] == "{"), r.found, Some(tokens[i]))
    requires parts' == if frames == [] then [] else parts
    ensures Parsing(tokens, k, next, frames + [Frame(current, tokens[i])], Nothing, parts')
  {
    SpelledDeeper(frames, current, tokens[i]);
    OneMore(tokens, i, k, Spelled(frames, current), tokens[i]);
    FramedDeeper(frames, current, tokens[i]);
    TracksDeeper(r, frames, current, tokens[i], close, next);
    FoundDeeper(r, frames, current, parts, tokens[i], next, parts');
  }

  lemma {:induction false} FramedClosed(frames: seq<Frame>, current: Items, close: string)
    requires Framed(frames, current) && frames != [] && Paired(frames[|frames| - 1].open, close)
    requires |frames| > 1 || !InRecord(frames)
    ensures Framed(frames[..|frames| - 1], Closed(frames, current, close))
  {
    var last := frames[|frames| - 1];
    ShapedAppend(last.items, Group(last.open, current, close, Nothing));
  }

  lemma {:induction false} FoundClosed(
    r: Reader, frames: seq<Frame>, current: Items, parts: seq<Items>, close: string)
    requires Found(r, frames, current, parts) && frames != []
    requires |frames| > 1 || !InRecord(frames)
    ensures Found(r, frames[..|frames| - 1], Closed(frames, current, close), parts)
  {
    var last, outer := frames[|frames| - 1], frames[..|frames| - 1];
    if InRecord(frames) && |frames| == 2 {
      FindsGroup(2 + |Flat(frames[0].items)|, frames[1].items, r.found, parts,
                 Group(last.open, current, close, Nothing), Closed(frames, current, close));
    }
  }

  lemma {:induction false} CloseParsed(
    tokens: seq<string>, i: nat, r: Reader, frames: seq<Frame>, current: Items, parts: seq<Items>, k: nat,
    next: Reader)
    requires Parsing(tokens, i, r, frames, current, parts) && i < |tokens| && k == i + 1
    requires frames != [] && tokens[i] == r.stack[|r.stack| - 1] && (|frames| > 1 || !InRecord(frames))
    requires next == r.(stack := r.stack[..|r.stack| - 1], previous := Some(tokens[i]))
    ensures Parsing(tokens, k, next, frames[..|frames| - 1], Closed(frames, current, tokens[i]), parts)
  {
    SpelledClosed(frames, current, tokens[i]);
    OneMore(tokens, i, k, Spelled(frames, current), tokens[i]);
    FramedClosed(frames, current, tokens[i]);
    FoundClosed(r, frames, current, parts, tokens[i]);
  }

  /** In the record, after a colon, a platform and its literal make a dependency, and leave the reader with it. */
  lemma {:induction false} FoundPlatform(
    r: Reader, frames: seq<Frame>, current: Items, parts: seq<Items>, literal: string, after: Items, at: nat,
    next: Reader) returns (part: Items)
    requires Framed(frames, current) && Tracks(r, frames, current) && Found(r, frames, current, parts)
    requires r.record && |r.stack| == 1 && r.previous == Some(":") && IsLiteral(literal)
    requires after == Append(current, Mark("platform", Mark(literal, Nothing)))
    requires at == |Spelled(frames, current)| + 2 && next.found == r.found + [at]
    ensures Found(next, frames, after, parts + [part]) && Framed(frames, after)
  {
    PreviousInRecord(r, frames, current);
    var before :| current == Append(before, Mark(":", Nothing));
    part := before;
    FlatAppend(part, Mark(":", Nothing));
    SpelledOnce(frames, current);
    assert Shaped(Mark(literal, Nothing));
    ShapedAppend(current, Mark("platform", Mark(literal, Nothing)));
    FindsPlatform(2 + |Flat(frames[0].items)|, current, r.found, parts, part, literal, after, at);
  }

  lemma {:induction false} SpelledPlatform(
    tokens: seq<string>, i: nat, frames: seq<Frame>, current: Items, j: nat, k: nat, after: Items)
    requires j == i + 1 && k == i + 2 <= |tokens| && tokens[..i] == ["app"] + Spelled(frames, current)
    requires tokens[i] == "platform" && after == Append(current, Mark("platform", Mark(tokens[j], Nothing)))
    ensures tokens[..k] == ["app"] + Spelled(frames, after)
    ensures Last(None, Spelled(frames, after)) == Some(tokens[j])
  {
    var spelled, more := Spelled(frames, current), Mark("platform", Mark(tokens[j], Nothing));
    SpelledFurther(frames, current, more);
    assert Flat(Mark(tokens[j], Nothing)) == [tokens[j]];
    assert Flat(more) == ["platform"] + [tokens[j]];
    OneMore(tokens, i, j, spelled, tokens[i]);
    OneMore(tokens, j, k, spelled + ["platform"], tokens[j]);
    assert spelled + ["platform"] + [tokens[j]] == spelled + Flat(more);
  }

  lemma {:induction false} PlatformParsed(
    tokens: seq<string>, i: nat, r: Reader, frames: seq<Frame>, current: Items, parts: seq<Items>, j: nat, k: nat,
    after: Items, next: Reader) returns (part: Items)
    requires Parsing(tokens, i, r, frames, current, parts) && j < |tokens| && j == i + 1 && k == i + 2
    requires AtPlatform(r, tokens[i]) && IsLiteral(tokens[j])
    requires after == Append(current, Mark("platform", Mark(tokens[j], Nothing)))
    requires next == r.(found := r.found + [j], previous := Some(tokens[j]))
    ensures Parsing(tokens, k, next, frames, after, parts + [part])
  {
    assert |tokens[..i]| == i;
    part := FoundPlatform(r, frames, current, parts, tokens[j], after, j, next);
    SpelledPlatform(tokens, i, frames, current, j, k, after);
  }

  // What each answer says.

  /** A bracket closes that is not the innermost open one's. */
  ghost predicate Mismatched(tokens: seq<string>, frames: seq<Frame>, current: Items, others: seq<string>) {
    && Framed(frames, current) && tokens == ["app"] + Spelled(frames, current) + others
    && others != [] && IsClose(others[0]) && (frames == [] || !Paired(frames[|frames| - 1].open, others[0]))
  }

  /** A dependency on a platform in the record is followed by no literal. */
  ghost predicate Unreadable(tokens: seq<string>, before: Items, record: Items, others: seq<string>) {
    && Shaped(before) && NoRecord(before) && Shaped(record)
    && tokens == ["app"] + (Flat(before) + (["{"] + (Flat(Append(record, Dependency(Nothing))) + others)))
    && (others == [] || !IsLiteral(others[0]))
  }

  /** The record has no dependency on a platform, or more than one. */
  ghost predicate Miscounted(tokens: seq<string>, before: Items, record: Items, others: seq<string>) {
    && Shaped(before) && NoRecord(before) && Shaped(record)
    && tokens == ["app"] + (Flat(before) + (["{"] + (Flat(record) + (["}"] + others))))
    && forall part | IsPart(record, part) :: exists other :: IsPart(record, other) && other != part
  }

  /** The tokens end before a record does. */
  ghost predicate Unfinished(tokens: seq<string>, frames: seq<Frame>, current: Items) {
    Framed(frames, current) && tokens == ["app"] + Spelled(frames, current)
  }

  ghost predicate Told(tokens: seq<string>, answer: Result<nat, HeaderError>) {
    match answer
    case Ok(k) => exists h, others :: IsHeader(h, tokens, others) && k == Place(h)
    case Err(Malformed) => exists frames, current, others :: Mismatched(tokens, frames, current, others)
    case Err(NotOneLiteral) => exists before, record, others :: Unreadable(tokens, before, record, others)
    case Err(NotOnePlatform) => exists before, record, others :: Miscounted(tokens, before, record, others)
    case Err(Incomplete) => exists frames, current :: Unfinished(tokens, frames, current)
    case Err(BadReference) => false
  }

  lemma Around(tokens: seq<string>, i: nat)
    requires i < |tokens|
    ensures tokens == tokens[..i] + ([tokens[i]] + tokens[i + 1..])
  {
  }

  lemma RecordAround(a: seq<string>, before: seq<string>, record: seq<string>, others: seq<string>)
    ensures a + (before + (["{"] + record)) + others == a + (before + (["{"] + (record + others)))
  {
  }

  /** The tokens up to the brace that closes the record, and after it. */
  lemma {:induction false} RecordEndsAt(
    tokens: seq<string>, i: nat, r: Reader, frames: seq<Frame>, current: Items, parts: seq<Items>)
    returns (others: seq<string>)
    requires Parsing(tokens, i, r, frames, current, parts) && i < |tokens| && tokens[i] == "}"
    requires InRecord(frames) && |frames| == 1
    ensures tokens == ["app"] + (Flat(frames[0].items) + (["{"] + (Flat(current) + (["}"] + others))))
  {
    others := tokens[i + 1..];
    Around(tokens, i);
    SpelledOnce(frames, current);
    RecordAround(["app"], Flat(frames[0].items), Flat(current), ["}"] + others);
  }

  lemma {:induction false} OnePlatformTold(
    tokens: seq<string>, i: nat, r: Reader, frames: seq<Frame>, current: Items, parts: seq<Items>)
    requires Parsing(tokens, i, r, frames, current, parts) && i < |tokens| && tokens[i] == "}"
    requires InRecord(frames) && |frames| == 1 && |r.found| == 1
    ensures Told(tokens, Ok(r.found[0]))
  {
    var others := RecordEndsAt(tokens, i, r, frames, current, parts);
    assert HasLiteral(current, parts[0]);
    var literal, next :| LiteralAt(current, parts[0], literal, next);
    var h := Header(frames[0].items, parts[0], literal, next);
    assert Record(h) == current;
    assert IsHeader(h, tokens, others) && r.found[0] == Place(h);
  }

  lemma {:induction false} OtherPart(base: nat, record: Items, found: seq<nat>, parts: seq<Items>, part: Items)
    requires Finds(base, record, found, parts) && |found| != 1 && IsPart(record, part)
    ensures exists other :: IsPart(record, other) && other != part
  {
    assert part in parts && parts[0] in parts && parts[1] in parts;
    assert |Flat(parts[0])| < |Flat(parts[1])|;
    assert IsPart(record, parts[0]) && IsPart(record, parts[1]);
  }

  lemma {:induction false} MiscountTold(
    tokens: seq<string>, i: nat, r: Reader, frames: seq<Frame>, current: Items, parts: seq<Items>)
    requires Parsing(tokens, i, r, frames, current, parts) && i < |tokens| && tokens[i] == "}"
    requires InRecord(frames) && |frames| == 1 && |r.found| != 1
    ensures Told(tokens, Err(NotOnePlatform))
  {
    var others := RecordEndsAt(tokens, i, r, frames, current, parts);
    forall part | IsPart(current, part) ensures exists other :: IsPart(current, other) && other != part {
      OtherPart(2 + |Flat(frames[0].items)|, current, r.found, parts, part);
    }
    assert Miscounted(tokens, frames[0].items, current, others);
  }

  lemma {:induction false} MismatchTold(
    tokens: seq<string>, i: nat, r: Reader, frames: seq<Frame>, current: Items, parts: seq<Items>)
    requires Parsing(tokens, i, r, frames, current, parts) && i < |tokens| && IsClose(tokens[i])
    requires r.stack == [] || r.stack[|r.stack| - 1] != tokens[i]
    ensures Told(tokens, Err(Malformed))
  {
    Around(tokens, i);
    assert Mismatched(tokens, frames, current, [tokens[i]] + tokens[i + 1..]);
  }

  /** The record up to `platform` after a colon. */
  lemma {:induction false} DependencyEnds(current: Items, part: Items)
    requires current == Append(part, Mark(":", Nothing)) && Shaped(current)
    ensures Append(current, Mark("platform", Nothing)) == Append(part, Dependency(Nothing)) && Shaped(part)
  {
    AppendTwice(part, Mark(":", Nothing), Mark("platform", Nothing));
    ShapedAppend(part, Mark(":", Nothing));
  }

  lemma {:induction false} UnreadableTold(
    tokens: seq<string>, i: nat, r: Reader, frames: seq<Frame>, current: Items, parts: seq<Items>, j: nat)
    requires Parsing(tokens, i, r, frames, current, parts) && i < |tokens| && j == i + 1
    requires AtPlatform(r, tokens[i]) && (j == |tokens| || !IsLiteral(tokens[j]))
    ensures Told(tokens, Err(NotOneLiteral))
  {
    PreviousInRecord(r, frames, current);
    var part :| current == Append(part, Mark(":", Nothing));
    DependencyEnds(current, part);
    var before, named := frames[0].items, Append(part, Dependency(Nothing));
    assert Flat(Mark("platform", Nothing)) == ["platform"];
    SpelledFurther(frames, current, Mark("platform", Nothing));
    SpelledOnce(frames, named);
    OneMore(tokens, i, j, Spelled(frames, current), tokens[i]);
    SplitAt(tokens, j);
    RecordAround(["app"], Flat(before), Flat(named), tokens[j..]);
    assert Unreadable(tokens, before, part, tokens[j..]);
  }

  lemma SplitAt(tokens: seq<string>, j: nat)
    requires j <= |tokens|
    ensures tokens == tokens[..j] + tokens[j..]
  {
  }

  lemma {:induction false} ReadMore(tokens: seq<string>, i: nat, r: Reader, k: nat, next: Reader)
    requires i < |tokens| && ReadOne(tokens, i, r) == Ok((k, next))
    ensures Read(tokens, i, r) == Read(tokens, k, next)
  {
  }

  lemma {:induction false} EndIsTold(
    tokens: seq<string>, i: nat, r: Reader, frames: seq<Frame>, current: Items, parts: seq<Items>)
    requires Parsing(tokens, i, r, frames, current, parts) && i == |tokens|
    ensures Told(tokens, Read(tokens, i, r))
  {
    assert tokens[..i] == tokens;
    assert Unfinished(tokens, frames, current);
  }

  /** Each answer of the reader is true of the tokens. */
  lemma {:induction false} ReadIsTold(
    tokens: seq<string>, i: nat, r: Reader, frames: seq<Frame>, current: Items, parts: seq<Items>)
    requires Compact(tokens) && Parsing(tokens, i, r, frames, current, parts)
    ensures Told(tokens, Read(tokens, i, r))
    decreases |tokens| - i, 2
  {
    if i == |tokens| {
      EndIsTold(tokens, i, r, frames, current, parts);
    } else if AtPlatform(r, tokens[i]) {
      PlatformIsTold(tokens, i, r, frames, current, parts, i + 1, i + 2);
    } else {
      OtherIsTold(tokens, i, r, frames, current, parts, i + 1);
    }
  }

  lemma {:induction false} PlatformIsTold(
    tokens: seq<string>, i: nat, r: Reader, frames: seq<Frame>, current: Items, parts: seq<Items>, j: nat, k: nat)
    requires Compact(tokens) && Parsing(tokens, i, r, frames, current, parts) && i < |tokens|
    requires AtPlatform(r, tokens[i]) && j == i + 1 && k == i + 2
    ensures Told(tokens, Read(tokens, i, r))
    decreases |tokens| - i, 1
  {
    if j == |tokens| || !IsLiteral(tokens[j]) {
      UnreadableTold(tokens, i, r, frames, current, parts, j);
      NoLiteralRead(tokens, i, r, j);
    } else {
      var next := r.(found := r.found + [j], previous := Some(tokens[j]));
      var after := Append(current, Mark("platform", Mark(tokens[j], Nothing)));
      var part := PlatformParsed(tokens, i, r, frames, current, parts, j, k, after, next);
      LiteralRead(tokens, i, r, j, k, next);
      ReadIsTold(tokens, k, next, frames, after, parts + [part]);
    }
  }

  lemma {:induction false} LiteralRead(tokens: seq<string>, i: nat, r: Reader, j: nat, k: nat, next: Reader)
    requires Compact(tokens) && i < j < |tokens| && j == i + 1 && k == i + 2
    requires AtPlatform(r, tokens[i]) && IsLiteral(tokens[j])
    requires next == r.(found := r.found + [j], previous := Some(tokens[j]))
    ensures Read(tokens, i, r) == Read(tokens, k, next)
  {
    assert NextToken(tokens, j) == j;
    ReadMore(tokens, i, r, k, next);
  }

  lemma {:induction false} NoLiteralRead(tokens: seq<string>, i: nat, r: Reader, j: nat)
    requires Compact(tokens) && i < |tokens| && j == i + 1
    requires AtPlatform(r, tokens[i]) && (j == |tokens| || !IsLiteral(tokens[j]))
    ensures Read(tokens, i, r) == Err(NotOneLiteral)
  {
    assert NextToken(tokens, j) == j;
    assert ReadOne(tokens, i, r) == Err(Err(NotOneLiteral));
  }

  lemma {:induction false} OtherIsTold(
    tokens: seq<string>, i: nat, r: Reader, frames: seq<Frame>, current: Items, parts: seq<Items>, k: nat)
    requires Compact(tokens) && Parsing(tokens, i, r, frames, current, parts) && i < |tokens| && k == i + 1
    requires !AtPlatform(r, tokens[i])
    ensures Told(tokens, Read(tokens, i, r))
    decreases |tokens| - i, 1
  {
    var token := tokens[i];
    if IsOpen(token) {
      var close := if token == "[" then "]" else if token == "{" then "}" else ")";
      var next := Reader(r.stack + [close], r.record || (frames == [] && token == "{"), r.found, Some(token));
      var found: seq<Items> := if frames == [] then [] else parts;
      OpenParsed(tokens, i, r, frames, current, parts, k, close, next, found);
      ReadMore(tokens, i, r, k, next);
      ReadIsTold(tokens, k, next, frames + [Frame(current, token)], Nothing, found);
    } else if IsClose(token) {
      CloseIsTold(tokens, i, r, frames, current, parts, k);
    } else {
      MarkParsed(tokens, i, r, frames, current, parts, k);
      ReadMore(tokens, i, r, k, r.(previous := Some(token)));
      ReadIsTold(tokens, k, r.(previous := Some(token)), frames, Append(current, Mark(token, Nothing)), parts);
    }
  }

  lemma {:induction false} CloseIsTold(
    tokens: seq<string>, i: nat, r: Reader, frames: seq<Frame>, current: Items, parts: seq<Items>, k: nat)
    requires Compact(tokens) && Parsing(tokens, i, r, frames, current, parts) && i < |tokens| && k == i + 1
    requires IsClose(tokens[i])
    ensures Told(tokens, Read(tokens, i, r))
    decreases |tokens| - i, 0
  {
    if r.stack == [] || r.stack[|r.stack| - 1] != tokens[i] {
      MismatchTold(tokens, i, r, frames, current, parts);
      MismatchRead(tokens, i, r);
    } else if |frames| == 1 && InRecord(frames) {
      RecordClosed(tokens, i, r);
      if |r.found| == 1 {
        OnePlatformTold(tokens, i, r, frames, current, parts);
      } else {
        MiscountTold(tokens, i, r, frames, current, parts);
      }
    } else {
      var next := r.(stack := r.stack[..|r.stack| - 1], previous := Some(tokens[i]));
      CloseParsed(tokens, i, r, frames, current, parts, k, next);
      CloseRead(tokens, i, r, k, next);
      ReadIsTold(tokens, k, next, frames[..|frames| - 1], Closed(frames, current, tokens[i]), parts);
    }
  }

  lemma {:induction false} MismatchRead(tokens: seq<string>, i: nat, r: Reader)
    requires Compact(tokens) && i < |tokens| && IsClose(tokens[i])
    requires r.stack == [] || r.stack[|r.stack| - 1] != tokens[i]
    ensures Read(tokens, i, r) == Err(Malformed)
  {
    assert ReadOne(tokens, i, r) == Err(Err(Malformed));
  }

  lemma {:induction false} CloseRead(tokens: seq<string>, i: nat, r: Reader, k: nat, next: Reader)
    requires Compact(tokens) && i < |tokens| && IsClose(tokens[i]) && k == i + 1
    requires r.stack != [] && r.stack[|r.stack| - 1] == tokens[i] && (|r.stack| > 1 || !r.record)
    requires next == r.(stack := r.stack[..|r.stack| - 1], previous := Some(tokens[i]))
    ensures Read(tokens, i, r) == Read(tokens, k, next)
  {
    ReadMore(tokens, i, r, k, next);
  }

  lemma {:induction false} RecordClosed(tokens: seq<string>, i: nat, r: Reader)
    requires Compact(tokens) && i < |tokens| && r.record && r.stack == [tokens[i]] && IsClose(tokens[i])
    ensures Read(tokens, i, r) == if |r.found| == 1 then Ok(r.found[0]) else Err(NotOnePlatform)
  {
    assert r.stack[..0] == [];
    assert ReadOne(tokens, i, r) == Err(if |r.found| == 1 then Ok(r.found[0]) else Err(NotOnePlatform));
  }

  // The theorem, of compact tokens and of a header's pieces.

  /** The reader accepts tokens, at one of them, exactly when they spell a header with its literal there. */
  lemma {:induction false} AcceptedExactly(tokens: seq<string>, k: nat)
    requires Compact(tokens)
    ensures PlatformPiece(tokens) == Ok(Some(k)) <==>
              exists h, others :: IsHeader(h, tokens, others) && k == Place(h)
  {
    AppStarts(tokens);
    if PlatformPiece(tokens) == Ok(Some(k)) {
      StartParses(tokens);
      ReadIsTold(tokens, 1, START, [], Nothing, []);
    }
    if h, others :| IsHeader(h, tokens, others) && k == Place(h) {
      HeaderIsAccepted(h, tokens, others);
    }
  }

  lemma {:induction false} StartParses(tokens: seq<string>)
    requires tokens != [] && tokens[0] == "app"
    ensures Parsing(tokens, 1, START, [], Nothing, [])
  {
    assert tokens[..1] == ["app"];
  }

  /** What is not an app is left alone, and each refusal of one is true of its tokens. */
  lemma {:induction false} RefusalIsTrue(tokens: seq<string>)
    requires Compact(tokens)
    ensures PlatformPiece(tokens) == Ok(None) <==> tokens == [] || tokens[0] != "app"
    ensures PlatformPiece(tokens).Err? ==> Told(tokens, Err(PlatformPiece(tokens).error))
  {
    AppStarts(tokens);
    if tokens != [] && tokens[0] == "app" {
      StartParses(tokens);
      ReadIsTold(tokens, 1, START, [], Nothing, []);
    }
  }
}
