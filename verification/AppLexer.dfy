/** The lexer of an app header by the pieces it may cut: comments, closed literals, names, and one character
    otherwise, each as long as it can be. */
module AppLexer {

  import opened Wrappers
  import opened AppHeader
  import opened AppHeaderLaws

  // Characters.

  const UPPER := {
    'A', 'B', 'C', 'D', 'E', 'F', 'G', 'H', 'I', 'J', 'K', 'L', 'M', 'N', 'O', 'P', 'Q', 'R', 'S', 'T', 'U', 'V', 'W',
    'X', 'Y', 'Z'}
  const LOWER := {
    'a', 'b', 'c', 'd', 'e', 'f', 'g', 'h', 'i', 'j', 'k', 'l', 'm', 'n', 'o', 'p', 'q', 'r', 's', 't', 'u', 'v', 'w',
    'x', 'y', 'z'}
  const DIGITS := {'0', '1', '2', '3', '4', '5', '6', '7', '8', '9'}
  /** What Python's regular expressions take for white space in text. */
  const WHITE := {
    0x9, 0xA, 0xB, 0xC, 0xD, 0x1C, 0x1D, 0x1E, 0x1F, 0x20, 0x85, 0xA0, 0x1680, 0x2000, 0x2001, 0x2002, 0x2003, 0x2004,
    0x2005, 0x2006, 0x2007, 0x2008, 0x2009, 0x200A, 0x2028, 0x2029, 0x202F, 0x205F, 0x3000}

  predicate Begins(c: char) {
    c in UPPER || c in LOWER || c == '_'
  }

  predicate GoesOn(c: char) {
    Begins(c) || c in DIGITS || c == '!'
  }

  lemma NamesAre(c: char)
    ensures IsNameStart(c) <==> Begins(c)
    ensures IsNamePart(c) <==> GoesOn(c)
  {
  }

  lemma WhiteIs(c: char)
    ensures IsSpace(c) <==> c as int in WHITE
  {
  }

  // Literals.

  /** What may stand between quotes: any characters, each quote or backslash after a backslash. */
  predicate IsBody(body: string) {
    || body == ""
    || (body[0] != '"' && body[0] != '\\' && IsBody(body[1..]))
    || (body[0] == '\\' && |body| > 1 && IsBody(body[2..]))
  }

  predicate IsClosed(piece: string) {
    |piece| > 1 && piece[0] == piece[|piece| - 1] == '"' && IsBody(piece[1..|piece| - 1])
  }

  /** A scan for the closing quote ends after the first body and its quote, if there is any. */
  lemma {:induction false} ScanExactly(s: string, k: nat, end: nat)
    requires k <= |s|
    ensures StringEnd(s, k) == Some(end) <==> k < end <= |s| && s[end - 1] == '"' && IsBody(s[k..end - 1])
    decreases |s| - k
  {
    if k < |s| && k < end <= |s| {
      var body := s[k..end - 1];
      if s[k] == '\\' && k + 1 < |s| {
        ScanExactly(s, k + 2, end);
        assert |body| > 1 ==> body[2..] == s[k + 2..end - 1];
      } else if s[k] != '"' && s[k] != '\\' {
        ScanExactly(s, k + 1, end);
        assert |body| > 0 ==> body[1..] == s[k + 1..end - 1];
      }
    }
  }

  /** A literal at the start of a text ends where a closed one does. */
  lemma {:induction false} ClosedExactly(s: string, n: nat)
    requires s != "" && s[0] == '"' && n <= |s|
    ensures StringEnd(s, 1) == Some(n) <==> IsClosed(s[..n])
  {
    ScanExactly(s, 1, n);
    if n > 1 {
      assert s[..n][1..n - 1] == s[1..n - 1];
    }
  }

  // Comments and names.

  lemma {:induction false} CommentExactly(s: string, k: nat, end: nat)
    requires k <= end <= |s|
    ensures CommentEnd(s, k) == end <==>
              (forall i | k <= i < end :: s[i] != '\n') && (end < |s| ==> s[end] == '\n')
    decreases end - k
  {
    if k < end && s[k] != '\n' {
      CommentExactly(s, k + 1, end);
    }
  }

  lemma {:induction false} NameExactly(s: string, k: nat, end: nat)
    requires k <= end <= |s|
    ensures NameEnd(s, k) == end <==> (forall i | k <= i < end :: GoesOn(s[i])) && (end < |s| ==> !GoesOn(s[end]))
    decreases end - k
  {
    if k < |s| {
      NamesAre(s[k]);
    }
    if k < end && GoesOn(s[k]) {
      NameExactly(s, k + 1, end);
    }
  }

  // Pieces.

  predicate IsComment(piece: string, rest: string) {
    piece != "" && piece[0] == '#' && '\n' !in piece && (rest != "" ==> rest[0] == '\n')
  }

  predicate IsWholeName(piece: string, rest: string) {
    && piece != "" && Begins(piece[0]) && (forall i | 0 <= i < |piece| :: GoesOn(piece[i]))
    && (rest != "" ==> !GoesOn(rest[0]))
  }

  /** A quote that no later one closes. */
  ghost predicate IsStray(piece: string, rest: string) {
    piece == "\"" && forall n: nat | n <= |rest| :: !IsClosed(piece + rest[..n])
  }

  predicate IsSingle(piece: string) {
    |piece| == 1 && piece[0] != '#' && piece[0] != '"' && !Begins(piece[0])
  }

  /** What may be cut from a text, given the text after it. */
  ghost predicate IsPiece(piece: string, rest: string) {
    || IsComment(piece, rest) || IsClosed(piece) || IsStray(piece, rest)
    || IsWholeName(piece, rest) || IsSingle(piece)
  }

  lemma {:induction false} FirstComment(s: string, n: nat)
    requires s != "" && s[0] == '#' && 0 < n <= |s|
    ensures FirstLength(s) == n <==> IsComment(s[..n], s[n..])
  {
    CommentExactly(s, 1, n);
    assert n < |s| ==> s[n..][0] == s[n];
    assert forall i | 0 <= i < n :: s[..n][i] == s[i];
  }

  lemma {:induction false} FirstName(s: string, n: nat)
    requires s != "" && Begins(s[0]) && 0 < n <= |s|
    ensures FirstLength(s) == n <==> IsWholeName(s[..n], s[n..])
  {
    NamesAre(s[0]);
    NameExactly(s, 1, n);
    assert n < |s| ==> s[n..][0] == s[n];
    assert forall i | 0 <= i < n :: s[..n][i] == s[i];
  }

  lemma {:induction false} FirstQuote(s: string, n: nat)
    requires s != "" && s[0] == '"' && 0 < n <= |s|
    ensures FirstLength(s) == n <==> IsClosed(s[..n]) || IsStray(s[..n], s[n..])
  {
    ClosedExactly(s, n);
    var end := StringEnd(s, 1);
    if end.Some? {
      ClosedExactly(s, end.value);
      if n == 1 {
        assert s[..1] + s[1..][..end.value - 1] == s[..end.value];
      }
    } else if n == 1 {
      forall m: nat | m <= |s[1..]| ensures !IsClosed(s[..1] + s[1..][..m]) {
        ClosedExactly(s, m + 1);
        assert s[..1] + s[1..][..m] == s[..m + 1];
      }
    }
  }

  /** The first piece of a text is as long as the one piece that may be cut from it. */
  lemma {:induction false} FirstExactly(s: string, n: nat)
    requires 0 < n <= |s|
    ensures FirstLength(s) == n <==> IsPiece(s[..n], s[n..])
  {
    NamesAre(s[0]);
    assert s[..n][0] == s[0];
    if s[0] == '#' {
      FirstComment(s, n);
    } else if s[0] == '"' {
      FirstQuote(s, n);
    } else if Begins(s[0]) {
      FirstName(s, n);
    }
  }

  /** Each piece may be cut from the text that it and the pieces after it make up. */
  ghost predicate AreCut(pieces: seq<string>) {
    pieces != [] ==> pieces[0] != "" && IsPiece(pieces[0], Join(pieces[1..])) && AreCut(pieces[1..])
  }

  lemma {:induction false} LexIsCut(s: string)
    ensures AreCut(Lex(s))
    decreases |s|
  {
    if s != "" {
      var n := FirstLength(s);
      FirstExactly(s, n);
      JoinLex(s[n..]);
      LexIsCut(s[n..]);
      Cut([s[..n]], Lex(s[n..]));
    }
  }

  lemma {:induction false} CutIsLexed(pieces: seq<string>)
    requires AreCut(pieces)
    ensures Lex(Join(pieces)) == pieces
  {
    if pieces != [] {
      var piece, rest := pieces[0], Join(pieces[1..]);
      Cut(piece, rest);
      FirstExactly(piece + rest, |piece|);
      CutIsLexed(pieces[1..]);
      Cut([piece], pieces[1..]);
    }
  }

  /** The lexer cuts a text into exactly those pieces, and there is one way to. */
  lemma {:induction false} LexExactly(s: string, pieces: seq<string>)
    ensures Lex(s) == pieces <==> Join(pieces) == s && AreCut(pieces)
  {
    JoinLex(s);
    LexIsCut(s);
    if AreCut(pieces) {
      CutIsLexed(pieces);
    }
  }

  /** White space and comments, and nothing else, are no tokens. */
  lemma {:induction false} SkippedExactly(piece: string)
    requires piece != ""
    ensures Skipped(piece) <==> piece[0] as int in WHITE || piece[0] == '#'
  {
    WhiteIs(piece[0]);
  }
}
