/** The grammar of app headers, told of any source: its white space and comments left out. */
module AppTokens {

  import opened Wrappers
  import opened AppHeader
  import opened AppSeparators
  import opened AppGrammar
  import opened AppParsing

  /** The pieces that are tokens, in order. */
  function Tokens(pieces: seq<string>): seq<string> {
    if pieces == [] then [] else (if Skipped(pieces[0]) then [] else [pieces[0]]) + Tokens(pieces[1..])
  }

  lemma {:induction false} TokensConcat(a: seq<string>, b: seq<string>)
    ensures Tokens(a + b) == Tokens(a) + Tokens(b)
  {
    if a == [] {
      assert a + b == b;
    } else {
      assert (a + b)[1..] == a[1..] + b;
      TokensConcat(a[1..], b);
    }
  }

  lemma {:induction false} TokensAreCompact(pieces: seq<string>)
    ensures Compact(Tokens(pieces)) && |Tokens(pieces)| <= |pieces|
    ensures Compact(pieces) ==> Tokens(pieces) == pieces
  {
    if pieces != [] {
      TokensAreCompact(pieces[1..]);
      assert [pieces[0]] + pieces[1..] == pieces;
    }
  }

  /** A header's pieces without one that is no token. */
  function Without(pieces: seq<string>, j: nat): seq<string>
    requires j < |pieces|
  {
    pieces[..j] + pieces[j + 1..]
  }

  lemma {:induction false} WithoutSkipped(pieces: seq<string>, j: nat)
    requires j < |pieces| && Skipped(pieces[j])
    ensures Tokens(Without(pieces, j)) == Tokens(pieces) && Padded(Without(pieces, j), pieces, j, 1)
  {
    var first, piece, last := pieces[..j], [pieces[j]], pieces[j + 1..];
    assert pieces == first + (piece + last) && piece[1..] == [];
    TokensConcat(first, piece + last);
    TokensConcat(piece, last);
    TokensConcat(first, last);
    assert Tokens(piece) == [];
  }

  /** As many tokens stand before a piece as before where it has moved to. */
  lemma {:induction false} TokensBefore(pieces: seq<string>, j: nat, k: nat)
    requires j < |pieces| && Skipped(pieces[j]) && k < |Without(pieces, j)|
    ensures Moved(k, j, 1) < |pieces|
    ensures Tokens(pieces[..Moved(k, j, 1)]) == Tokens(Without(pieces, j)[..k])
  {
    if k < j {
      assert Without(pieces, j)[..k] == pieces[..k];
    } else {
      var longer := pieces[..k + 1];
      assert Without(pieces, j)[..k] == Without(longer, j);
      WithoutSkipped(longer, j);
    }
  }

  /** What the reader answers of pieces, and of their tokens. */
  ghost predicate SameAnswer(pieces: seq<string>, tokens: seq<string>) {
    var a, b := PlatformPiece(pieces), PlatformPiece(tokens);
    if a.Ok? && a.value.Some? then b == Ok(Some(|Tokens(pieces[..a.value.value])|)) else b == a
  }

  lemma {:induction false} SameAnswerWith(pieces: seq<string>, j: nat)
    requires j < |pieces| && Skipped(pieces[j]) && SameAnswer(Without(pieces, j), Tokens(pieces))
    ensures SameAnswer(pieces, Tokens(pieces))
  {
    var fewer := Without(pieces, j);
    WithoutSkipped(pieces, j);
    PlatformMoved(fewer, pieces, j, 1);
    var a := PlatformPiece(fewer);
    if a.Ok? && a.value.Some? {
      TokensBefore(pieces, j, a.value.value);
    }
  }

  /** White space and comments, wherever they are, make no difference to what is read. */
  lemma {:induction false} TokensAreRead(pieces: seq<string>)
    ensures SameAnswer(pieces, Tokens(pieces))
    decreases |pieces|
  {
    TokensAreCompact(pieces);
    if j :| 0 <= j < |pieces| && Skipped(pieces[j]) {
      WithoutSkipped(pieces, j);
      TokensAreRead(Without(pieces, j));
      SameAnswerWith(pieces, j);
    } else {
      var a := PlatformPiece(pieces);
      if a.Ok? && a.value.Some? {
        TokensAreCompact(pieces[..a.value.value]);
      }
    }
  }

  lemma {:induction false} TokenPlace(pieces: seq<string>, j: nat, k: nat)
    requires j <= k < |pieces| && !Skipped(pieces[j])
    ensures |Tokens(pieces[..j])| <= |Tokens(pieces[..k])|
    ensures |Tokens(pieces[..j])| == |Tokens(pieces[..k])| ==> j == k
  {
    if j < k {
      var piece, between := [pieces[j]], pieces[j + 1..k];
      assert pieces[..k] == pieces[..j] + (piece + between) && piece[1..] == [];
      TokensConcat(pieces[..j], piece + between);
      TokensConcat(piece, between);
      assert Tokens(piece) == piece;
    }
  }

  /** A source has its platform at a piece exactly when its tokens spell a header, and the piece is the token that
      is the header's literal. */
  lemma {:induction false} PlatformExactly(source: string, k: nat)
    ensures PlatformPiece(Lex(source)) == Ok(Some(k)) <==>
              && k < |Lex(source)| && !Skipped(Lex(source)[k])
              && exists h, others :: IsHeader(h, Tokens(Lex(source)), others) && |Tokens(Lex(source)[..k])| == Place(h)
  {
    var pieces := Lex(source);
    var tokens := Tokens(pieces);
    TokensAreCompact(pieces);
    TokensAreRead(pieces);
    var a := PlatformPiece(pieces);
    if a.Ok? && a.value.Some? {
      var at := a.value.value;
      AcceptedExactly(tokens, |Tokens(pieces[..at])|);
      if k < |pieces| && !Skipped(pieces[k]) && |Tokens(pieces[..at])| == |Tokens(pieces[..k])| {
        if at <= k {
          TokenPlace(pieces, at, k);
        } else {
          TokenPlace(pieces, k, at);
        }
      }
    }
    if h, others :| IsHeader(h, tokens, others) && k < |pieces| && |Tokens(pieces[..k])| == Place(h) {
      AcceptedExactly(tokens, Place(h));
    }
  }

  /** A source without a platform is one whose first token is not `app`, or its refusal is true of its tokens. */
  lemma {:induction false} RefusedTruly(source: string)
    ensures PlatformPiece(Lex(source)) == Ok(None) <==>
              Tokens(Lex(source)) == [] || Tokens(Lex(source))[0] != "app"
    ensures PlatformPiece(Lex(source)).Err? ==> Told(Tokens(Lex(source)), Err(PlatformPiece(Lex(source)).error))
  {
    TokensAreCompact(Lex(source));
    TokensAreRead(Lex(source));
    RefusalIsTrue(Tokens(Lex(source)));
  }
}
