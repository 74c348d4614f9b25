/** The lens laws of `replace_platform` and `app_platform_span` (`scripts/toolchain.py`). */
module PlatformLens {

  import opened Wrappers
  import opened AppHeader
  import opened AppHeaderLaws

  /** An app header with its one platform literal: the text before it, what it holds, and the text after. */
  datatype Header = Header(pieces: seq<string>, k: nat, before: string, reference: string, rest: string)

  ghost predicate Dissects(h: Header, source: string) {
    && h.pieces == Lex(source) && h.k < |h.pieces|
    && PlatformPiece(h.pieces) == Ok(Some(h.k))
    && h.pieces[h.k] == Quoted(h.reference) && Plain(h.reference) && '\n' !in h.reference && h.reference != ""
    && h.before == Join(h.pieces[..h.k]) && Lex(h.rest) == h.pieces[h.k + 1..]
    && source == Holding(h, h.reference)
  }

  /** A header with some reference in it. */
  function Holding(h: Header, reference: string): string {
    h.before + (Quoted(reference) + h.rest)
  }

  /** A text around what stands between its quotes. */
  lemma AroundReference(h: Header, reference: string)
    ensures var s, start := Holding(h, reference), |h.before| + 1;
            && start + |reference| <= |s| && s[start..start + |reference|] == reference
            && s[..start] == h.before + "\"" && s[start + |reference|..] == "\"" + h.rest
  {
    var s, start := Holding(h, reference), |h.before| + 1;
    var front, back := h.before + "\"", "\"" + h.rest;
    assert s == front + (reference + back);
    Cut(front, reference + back);
    Cut(reference, back);
    assert s[start..start + |reference|] == s[start..][..|reference|];
    assert s[start + |reference|..] == s[start..][|reference|..];
  }

  lemma DissectedSpan(h: Header, source: string)
    requires Dissects(h, source)
    ensures PlatformSpan(source) == Ok(Some(Span(|h.before| + 1, |h.before| + 1 + |h.reference|)))
  {
    assert |Quoted(h.reference)| == |h.reference| + 2;
  }

  /** The sources the reader accepts as an app with one platform. */
  predicate HasPlatform(source: string) {
    PlatformSpan(source).Ok? && PlatformSpan(source).value.Some?
  }

  lemma LiteralIsQuoted(piece: string)
    requires IsLiteral(piece)
    ensures var reference := piece[1..|piece| - 1];
            piece == Quoted(reference) && Plain(reference) && '\n' !in reference && reference != ""
  {
    var reference := piece[1..|piece| - 1];
    assert piece == [piece[0]] + reference + [piece[|piece| - 1]];
    assert forall i | 0 <= i < |reference| :: reference[i] == piece[i + 1];
  }

  lemma Dissect(source: string) returns (h: Header)
    requires HasPlatform(source)
    ensures Dissects(h, source)
  {
    var pieces := Lex(source);
    var k := PlatformPiece(pieces).value.value;
    var reference := pieces[k][1..|pieces[k]| - 1];
    h := Header(pieces, k, Join(pieces[..k]), reference, Join(pieces[k + 1..]));
    LiteralIsQuoted(pieces[k]);
    LexSuffix(source, k + 1);
    JoinedParts(source, k);
  }

  lemma JoinedParts(source: string, k: nat)
    requires k < |Lex(source)|
    ensures source == Join(Lex(source)[..k]) + (Lex(source)[k] + Join(Lex(source)[k + 1..]))
  {
    JoinLex(source);
    JoinAround(Lex(source), k);
  }

  lemma ReplacingHolds(h: Header, source: string, reference: string)
    requires Dissects(h, source) && Admitted(reference)
    ensures ReplacePlatform(source, reference) == Ok(Holding(h, reference))
  {
    DissectedSpan(h, source);
    AroundReference(h, h.reference);
    Assembled(h, reference);
  }

  lemma Assembled(h: Header, reference: string)
    ensures h.before + "\"" + reference + ("\"" + h.rest) == Holding(h, reference)
  {
  }

  lemma HoldingLexes(h: Header, source: string, reference: string)
    requires Dissects(h, source) && Plain(reference)
    ensures Lex(Holding(h, reference)) == Put(h.pieces, h.k, Quoted(reference))
  {
    PutSplits(h.pieces, h.k, Quoted(h.reference));
    PutSplits(h.pieces, h.k, Quoted(reference));
    assert Put(h.pieces, h.k, Quoted(h.reference)) == h.pieces;
    LexReplaced(h.before, h.reference, reference, h.rest, h.pieces[..h.k]);
  }

  lemma PutSplits(pieces: seq<string>, k: nat, literal: string)
    requires k < |pieces|
    ensures Put(pieces, k, literal) == pieces[..k] + ([literal] + pieces[k + 1..])
  {
  }

  lemma QuotedIsLiteral(reference: string)
    requires Admitted(reference)
    ensures Plain(reference)
    ensures IsLiteral(Quoted(reference)) <==> reference != ""
  {
    assert |reference| == 0 <==> reference == "";
    assert forall i | 0 < i < |Quoted(reference)| - 1 :: Quoted(reference)[i] in reference;
  }

  /** The reader finds a new literal where the old one was, or refuses one it cannot read. */
  lemma PutReads(pieces: seq<string>, k: nat, reference: string)
    requires PlatformPiece(pieces) == Ok(Some(k))
    ensures k < |pieces|
    ensures PlatformPiece(Put(pieces, k, Quoted(reference))) ==
              if IsLiteral(Quoted(reference)) then Ok(Some(k)) else Err(NotOneLiteral)
  {
    var first := NextToken(pieces, 0);
    LiteralAfterStart(pieces, first + 1, k);
    NextTokenEarlier(pieces, k, Quoted(reference), 0);
    ReadReplaced(pieces, k, reference, first + 1, START);
  }

  lemma HoldingReads(h: Header, source: string, reference: string)
    requires Dissects(h, source) && Admitted(reference)
    ensures PlatformPiece(Lex(Holding(h, reference))) == if reference != "" then Ok(Some(h.k)) else Err(NotOneLiteral)
  {
    QuotedIsLiteral(reference);
    HoldingLexes(h, source, reference);
    PutReads(h.pieces, h.k, reference);
  }

  /** The literal comes after the first token. */
  lemma LiteralAfterStart(pieces: seq<string>, i: nat, k: nat)
    requires i <= |pieces| && Read(pieces, i, START) == Ok(k)
    ensures i <= k
  {
    if k < i {
      ReadFinds(pieces, i, START, k);
    }
  }

  function Rewritten(h: Header, reference: string): Header
    requires h.k < |h.pieces|
  {
    h.(pieces := Put(h.pieces, h.k, Quoted(reference)), reference := reference)
  }

  /** A rewritten header dissects into the same parts around the new reference. */
  lemma HoldingDissects(h: Header, source: string, reference: string)
    requires Dissects(h, source) && Admitted(reference) && reference != ""
    ensures Dissects(Rewritten(h, reference), Holding(h, reference))
  {
    QuotedIsLiteral(reference);
    HoldingLexes(h, source, reference);
    HoldingReads(h, source, reference);
    var pieces := Put(h.pieces, h.k, Quoted(reference));
    assert pieces[..h.k] == h.pieces[..h.k] && pieces[h.k + 1..] == h.pieces[h.k + 1..];
    assert '\n' !in reference;
  }

  /** Reading back what was put: the reference, in the same place, with all text outside it preserved; and
      an empty reference, which the rewriter admits, leaves a header the reader refuses. */
  lemma PutGet(source: string, reference: string)
    requires HasPlatform(source) && Admitted(reference)
    ensures ReplacePlatform(source, reference).Ok?
    ensures var span, put := PlatformSpan(source).value.value, ReplacePlatform(source, reference).value;
            && span.start <= span.end <= |source| && span.start + |reference| <= |put|
            && put[span.start..span.start + |reference|] == reference
            && put[..span.start] == source[..span.start] && put[span.start + |reference|..] == source[span.end..]
            && PlatformSpan(put) ==
                 if reference != "" then Ok(Some(Span(span.start, span.start + |reference|))) else Err(NotOneLiteral)
  {
    var h := Dissect(source);
    DissectedSpan(h, source);
    ReplacingHolds(h, source, reference);
    AroundReference(h, h.reference);
    AroundReference(h, reference);
    if reference != "" {
      HoldingDissects(h, source, reference);
      DissectedSpan(Rewritten(h, reference), Holding(h, reference));
    } else {
      HoldingReads(h, source, reference);
    }
  }

  /** The last put wins. */
  lemma PutPut(source: string, first: string, second: string)
    requires HasPlatform(source) && Admitted(first) && first != "" && Admitted(second)
    ensures ReplacePlatform(source, first).Ok?
    ensures ReplacePlatform(ReplacePlatform(source, first).value, second) == ReplacePlatform(source, second)
  {
    var h := Dissect(source);
    ReplacingHolds(h, source, first);
    ReplacingHolds(h, source, second);
    HoldingDissects(h, source, first);
    ReplacingHolds(Rewritten(h, first), Holding(h, first), second);
  }

  /** Putting back what is read changes nothing, exactly when it holds no carriage return: the reader
      accepts one and the rewriter does not. */
  lemma GetPut(source: string)
    requires HasPlatform(source)
    ensures var span := PlatformSpan(source).value.value;
            && span.start <= span.end <= |source|
            && var current := source[span.start..span.end];
               ReplacePlatform(source, current) == if '\r' in current then Err(BadReference) else Ok(source)
  {
    var h := Dissect(source);
    DissectedSpan(h, source);
    AroundReference(h, h.reference);
    assert Admitted(h.reference) <==> '\r' !in h.reference;
    if Admitted(h.reference) {
      ReplacingHolds(h, source, h.reference);
    }
  }

  /** Replacing leaves a source as it is exactly when it is not an app, or holds that very reference and the
      rewriter admits it. */
  lemma UnchangedExactly(source: string, reference: string)
    ensures ReplacePlatform(source, reference) == Ok(source) <==>
              && PlatformSpan(source).Ok?
              && (PlatformSpan(source).value.Some? ==>
                    var span := PlatformSpan(source).value.value;
                    Admitted(reference) && span.start <= span.end <= |source| &&
                    source[span.start..span.end] == reference)
  {
    if HasPlatform(source) && Admitted(reference) {
      var span := PlatformSpan(source).value.value;
      PutGet(source, reference);
      GetPut(source);
      assert source == source[..span.end] + source[span.end..];
    }
  }

  /** Replacing twice is replacing once, exactly unless an app was given the empty reference; a source that is
      not an app stays one. */
  lemma ReplacedTwice(source: string, reference: string)
    requires ReplacePlatform(source, reference).Ok?
    ensures var once := ReplacePlatform(source, reference).value;
            ReplacePlatform(once, reference) ==
              if HasPlatform(source) && reference == "" then Err(NotOneLiteral) else Ok(once)
  {
    if HasPlatform(source) {
      PutGet(source, reference);
      if reference != "" {
        PutPut(source, reference, reference);
      }
    }
  }
}
