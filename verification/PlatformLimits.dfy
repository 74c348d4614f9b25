/** Where the lens laws stop: smallest headers the reader accepts whose reference cannot be put back, or whose
    rewriting it then refuses. */
module PlatformLimits {

  import opened Wrappers
  import opened AppHeader
  import opened AppHeaderLaws
  import opened PlatformLens

  /** `app[a]{p:platform"..."}`: an app that provides one name and has one dependency. */
  function SmallHeader(reference: string): string {
    "app" + ("[" + ("a" + ("]" + Record(Quoted(reference) + "}"))))
  }

  function Record(rest: string): string {
    "{" + ("p" + (":" + ("platform" + rest)))
  }

  function SmallPieces(reference: string): seq<string> {
    ["app", "[", "a", "]", "{", "p", ":", "platform", Quoted(reference), "}"]
  }

  predicate IsName(name: string) {
    name != "" && IsNameStart(name[0]) && forall i | 0 <= i < |name| :: IsNamePart(name[i])
  }

  lemma {:induction false} NameEndsAt(s: string, k: nat, end: nat)
    requires k <= end <= |s| && (forall i | k <= i < end :: IsNamePart(s[i]))
    requires end < |s| ==> !IsNamePart(s[end])
    ensures NameEnd(s, k) == end
    decreases end - k
  {
    if k < end {
      NameEndsAt(s, k + 1, end);
    }
  }

  lemma LexName(name: string, rest: string)
    requires IsName(name) && (rest != "" ==> !IsNamePart(rest[0]))
    ensures Lex(name + rest) == [name] + Lex(rest)
  {
    var s := name + rest;
    NameEndsAt(s, 1, |name|);
    assert FirstLength(s) == |name|;
    Cut(name, rest);
  }

  lemma LexMark(mark: char, rest: string)
    requires !IsNameStart(mark) && mark != '#' && mark != '"'
    ensures Lex([mark] + rest) == [[mark]] + Lex(rest)
  {
    var s := [mark] + rest;
    assert FirstLength(s) == 1;
    Cut([mark], rest);
  }

  lemma FourAndMore<T>(a: T, b: T, c: T, d: T, more: seq<T>)
    ensures [a] + ([b] + ([c] + ([d] + more))) == [a, b, c, d] + more
  {
  }

  lemma LexRecord(rest: string)
    requires rest != "" ==> !IsNamePart(rest[0])
    ensures Lex(Record(rest)) == ["{", "p", ":", "platform"] + Lex(rest)
  {
    var named := "platform" + rest;
    LexName("platform", rest);
    LexMark(':', named);
    var typed := ":" + named;
    LexName("p", typed);
    LexMark('{', "p" + typed);
    FourAndMore("{", "p", ":", "platform", Lex(rest));
  }

  lemma LexApp(rest: string)
    ensures Lex("app" + ("[" + ("a" + ("]" + rest)))) == ["app", "[", "a", "]"] + Lex(rest)
  {
    LexMark(']', rest);
    var closed := "]" + rest;
    LexName("a", closed);
    LexMark('[', "a" + closed);
    var names := "[" + ("a" + closed);
    LexName("app", names);
    FourAndMore("app", "[", "a", "]", Lex(rest));
  }

  lemma SmallHeaderLexes(reference: string)
    requires Plain(reference)
    ensures Lex(SmallHeader(reference)) == SmallPieces(reference)
  {
    var rest := Quoted(reference) + "}";
    LexQuoted(reference, "}");
    LexMark('}', "");
    assert ['}'] + "" == "}" && Lex("") == [];
    assert Lex(rest) == [Quoted(reference), "}"];
    LexRecord(rest);
    LexApp(Record(rest));
  }

  /** A token that neither names the platform nor ends the header. */
  lemma ReadsMark(pieces: seq<string>, i: nat, r: Reader, next: Reader)
    requires i < |pieces| && !Skipped(pieces[i]) && !AtPlatform(Entering(r, pieces[i]), pieces[i])
    requires ReadMark(Entering(r, pieces[i]), pieces[i]) == Ok(next)
    ensures Read(pieces, i, r) == Read(pieces, i + 1, next)
  {
  }

  lemma ReadsPlatform(pieces: seq<string>, i: nat, r: Reader)
    requires i + 1 < |pieces| && !Skipped(pieces[i]) && AtPlatform(Entering(r, pieces[i]), pieces[i])
    requires !Skipped(pieces[i + 1]) && IsLiteral(pieces[i + 1])
    ensures Read(pieces, i, r) ==
              Read(pieces, i + 2, Entering(r, pieces[i]).(found := r.found + [i + 1], previous := Some(pieces[i + 1])))
  {
    assert NextToken(pieces, i + 1) == i + 1;
  }

  /** The platform of a small header, and the brace that closes its record. */
  lemma PlatformReads(pieces: seq<string>, reference: string)
    requires pieces == SmallPieces(reference) && IsLiteral(Quoted(reference))
    ensures Read(pieces, 7, Reader(["}"], true, [], Some(":"))) == Ok(8)
  {
    ReadsPlatform(pieces, 7, Reader(["}"], true, [], Some(":")));
    assert [] + [8] == [8];
    RecordEnds(pieces, 9, Reader(["}"], true, [8], Some(Quoted(reference))));
  }

  lemma RecordEnds(pieces: seq<string>, i: nat, r: Reader)
    requires i < |pieces| && pieces[i] == "}" && r.stack == ["}"] && r.record && |r.found| == 1
    ensures Read(pieces, i, r) == Ok(r.found[0])
  {
    assert r.stack[..0] == [];
    assert ReadOne(pieces, i, r) == Err(Ok(r.found[0]));
  }

  /** The record of a small header: from its brace to the one that closes it. */
  lemma RecordReads(pieces: seq<string>, reference: string)
    requires pieces == SmallPieces(reference) && IsLiteral(Quoted(reference))
    ensures Read(pieces, 4, Reader([], false, [], Some("]"))) == Ok(8)
  {
    var inside := Reader(["}"], true, [], Some("{"));
    assert [] + [Closing("{")] == ["}"];
    ReadsMark(pieces, 4, Reader([], false, [], Some("]")), inside);
    ReadsMark(pieces, 5, inside, inside.(previous := Some("p")));
    ReadsMark(pieces, 6, inside.(previous := Some("p")), inside.(previous := Some(":")));
    PlatformReads(pieces, reference);
  }

  /** Reading starts after the first token and stops at the closing brace. */
  lemma SmallHeaderReads(pieces: seq<string>, reference: string)
    requires pieces == SmallPieces(reference) && IsLiteral(Quoted(reference))
    ensures Read(pieces, 1, START) == Ok(8)
  {
    var listing := Reader(["]"], false, [], Some("["));
    assert [] + [Closing("[")] == ["]"] && listing.stack[..0] == [];
    ReadsMark(pieces, 1, START, listing);
    ReadsMark(pieces, 2, listing, listing.(previous := Some("a")));
    ReadsMark(pieces, 3, listing.(previous := Some("a")), Reader([], false, [], Some("]")));
    RecordReads(pieces, reference);
  }

  lemma QuotedLiteral(reference: string)
    requires Plain(reference) && '\n' !in reference && reference != ""
    ensures IsLiteral(Quoted(reference))
  {
    assert |reference| > 0;
    assert forall i | 0 < i < |Quoted(reference)| - 1 :: Quoted(reference)[i] == reference[i - 1];
  }

  /** The reader finds the reference of a small header, whatever it holds on its one line. */
  lemma SmallHeaderHas(reference: string)
    requires Plain(reference) && '\n' !in reference && reference != ""
    ensures PlatformSpan(SmallHeader(reference)) == Ok(Some(Span(18, 18 + |reference|)))
  {
    var source, pieces := SmallHeader(reference), SmallPieces(reference);
    SmallHeaderLexes(reference);
    QuotedLiteral(reference);
    SmallHeaderReads(pieces, reference);
    assert NextToken(pieces, 0) == 0;
    assert PlatformPiece(pieces) == Ok(Some(8));
    JoinedParts(source, 8);
    assert pieces[9..] == ["}"] && ["}"][1..] == [];
    assert Join(["}"]) == "}" + Join([]);
    assert |source| == 17 + |reference| + 3;
  }

  lemma SmallHeaderText(reference: string)
    ensures SmallHeader(reference) == "app[a]{p:platform\"" + reference + "\"}"
  {
  }

  /** `app[a]{p:platform"x\ry"}`: a header the reader accepts, whose own reference the rewriter refuses. */
  lemma CarriageReturnIsRefused()
    ensures var source := SmallHeader("x\ry");
            && PlatformSpan(source) == Ok(Some(Span(18, 21))) && source[18..21] == "x\ry"
            && ReplacePlatform(source, "x\ry") == Err(BadReference)
  {
    SmallHeaderHas("x\ry");
    SmallHeaderText("x\ry");
    assert "x\ry"[1] == '\r';
  }

  lemma Between(front: string, middle: string, back: string, other: string)
    ensures var s := front + middle + back;
            s[..|front|] + other + s[|front| + |middle|..] == front + other + back
  {
  }

  lemma SmallHeaderRewrites(reference: string, other: string)
    requires Plain(reference) && '\n' !in reference && reference != "" && Admitted(other)
    ensures ReplacePlatform(SmallHeader(reference), other) == Ok(SmallHeader(other))
  {
    var front, back := "app[a]{p:platform\"", "\"}";
    assert |front| == 18;
    SmallHeaderHas(reference);
    SmallHeaderText(reference);
    SmallHeaderText(other);
    Between(front, reference, back, other);
  }

  /** `app[a]{p:platform"x"}`: a header the reader accepts, and refuses once the rewriter has put in the empty
      reference that it admits. */
  lemma EmptyReferenceIsUnreadable()
    ensures PlatformSpan(SmallHeader("x")) == Ok(Some(Span(18, 19)))
    ensures ReplacePlatform(SmallHeader("x"), "") == Ok(SmallHeader(""))
    ensures PlatformSpan(SmallHeader("")) == Err(NotOneLiteral)
  {
    SmallHeaderHas("x");
    SmallHeaderRewrites("x", "");
    PutGet(SmallHeader("x"), "");
  }
}
