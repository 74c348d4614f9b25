/** White space and comments separate: wherever they are put up to its platform literal, a header is read as it
    was. */
module AppSeparators {

  import opened Wrappers
  import opened AppHeader
  import opened AppHeaderLaws
  import opened PlatformLens
  import opened PlatformLimits

  /** A space, a tab, an end of line, or a comment with its end of line. */
  predicate IsSeparator(sep: string) {
    || sep == " " || sep == "\t" || sep == "\n" || sep == "\r"
    || (|sep| > 1 && sep[0] == '#' && sep[|sep| - 1] == '\n' && forall i | 0 <= i < |sep| - 1 :: sep[i] != '\n')
  }

  // Reading: pieces that are skipped may be added anywhere.

  /** `d` more pieces, all skipped, stand before piece `j`; before them a skipped piece may differ. */
  ghost predicate Padded(pieces: seq<string>, padded: seq<string>, j: nat, d: nat) {
    && j <= |pieces| && |padded| == |pieces| + d
    && (forall m | 0 <= m < j :: padded[m] == pieces[m] || (Skipped(padded[m]) && Skipped(pieces[m])))
    && (forall m | j <= m < j + d :: Skipped(padded[m]))
    && forall m | j + d <= m < |padded| :: padded[m] == pieces[m - d]
  }

  function Moved(i: nat, j: nat, d: nat): nat {
    if i < j then i else i + d
  }

  lemma {:induction false} SkipPadding(padded: seq<string>, i: nat, end: nat)
    requires i <= end <= |padded| && forall m | i <= m < end :: Skipped(padded[m])
    ensures NextToken(padded, i) == NextToken(padded, end)
    decreases |padded| - i
  {
    if i < end {
      SkipPadding(padded, i + 1, end);
    }
  }

  lemma {:induction false} ReadPastPadding(padded: seq<string>, i: nat, end: nat, r: Reader)
    requires i <= end <= |padded| && forall m | i <= m < end :: Skipped(padded[m])
    ensures Read(padded, i, r) == Read(padded, end, r)
    decreases |padded| - i
  {
    if i < end {
      ReadPastPadding(padded, i + 1, end, r);
    }
  }

  /** The place after a piece, and where the piece after it has moved to, have only padding between them. */
  lemma {:induction false} AfterMoved(pieces: seq<string>, padded: seq<string>, j: nat, d: nat, n: nat, at: nat)
    requires Padded(pieces, padded, j, d) && 0 < n <= |pieces| && at == Moved(n - 1, j, d) + 1
    ensures at <= Moved(n, j, d) <= |padded|
    ensures forall m | at <= m < Moved(n, j, d) :: Skipped(padded[m])
  {
  }

  lemma {:induction false} PieceMoved(pieces: seq<string>, padded: seq<string>, j: nat, d: nat, i: nat)
    requires Padded(pieces, padded, j, d) && i < |pieces|
    ensures Moved(i, j, d) < |padded|
    ensures var piece := padded[Moved(i, j, d)];
            piece == pieces[i] || (Skipped(piece) && Skipped(pieces[i]))
  {
  }

  lemma {:induction false} NextMoved(pieces: seq<string>, padded: seq<string>, j: nat, d: nat, i: nat)
    requires Padded(pieces, padded, j, d) && i <= |pieces|
    ensures Moved(i, j, d) <= |padded|
    ensures NextToken(padded, Moved(i, j, d)) == Moved(NextToken(pieces, i), j, d)
    decreases |pieces| - i
  {
    if i < |pieces| {
      PieceMoved(pieces, padded, j, d, i);
      if Skipped(pieces[i]) {
        var at := Moved(i, j, d) + 1;
        AfterMoved(pieces, padded, j, d, i + 1, at);
        SkipPadding(padded, at, Moved(i + 1, j, d));
        NextMoved(pieces, padded, j, d, i + 1);
      }
    }
  }

  /** Readers that agree but for where the literals found have moved to. */
  ghost predicate Shifted(r: Reader, r': Reader, j: nat, d: nat) {
    && r'.stack == r.stack && r'.record == r.record && r'.previous == r.previous
    && |r'.found| == |r.found| && forall x | 0 <= x < |r.found| :: r'.found[x] == Moved(r.found[x], j, d)
  }

  ghost predicate ShiftedEnd(ended: Result<nat, HeaderError>, ended': Result<nat, HeaderError>, j: nat, d: nat) {
    if ended.Ok? then ended' == Ok(Moved(ended.value, j, d)) else ended' == ended
  }

  lemma {:induction false} MarkShifted(r: Reader, r': Reader, j: nat, d: nat, token: string)
    requires Shifted(r, r', j, d)
    ensures var a, b := ReadMark(Entering(r, token), token), ReadMark(Entering(r', token), token);
            if a.Ok? then b.Ok? && Shifted(a.value, b.value, j, d) else b.Err? && ShiftedEnd(a.error, b.error, j, d)
  {
  }

  lemma {:induction false} FoundShifted(r: Reader, r': Reader, j: nat, d: nat, token: string, k: nat, literal: string)
    requires Shifted(r, r', j, d)
    ensures Shifted(Entering(r, token).(found := r.found + [k], previous := Some(literal)),
                    Entering(r', token).(found := r'.found + [Moved(k, j, d)], previous := Some(literal)), j, d)
  {
  }

  lemma {:induction false} LiteralMoved(
    pieces: seq<string>, padded: seq<string>, j: nat, d: nat, i: nat, r: Reader, r': Reader)
    requires Padded(pieces, padded, j, d) && i < |pieces| && Shifted(r, r', j, d)
    ensures var k := NextToken(pieces, i + 1);
            && NextToken(padded, Moved(i, j, d) + 1) == Moved(k, j, d)
            && (k < |pieces| ==> Moved(k, j, d) < |padded| && padded[Moved(k, j, d)] == pieces[k])
            && (k == |pieces| ==> Moved(k, j, d) == |padded|)
  {
    var at := Moved(i, j, d) + 1;
    AfterMoved(pieces, padded, j, d, i + 1, at);
    SkipPadding(padded, at, Moved(i + 1, j, d));
    NextMoved(pieces, padded, j, d, i + 1);
    var k := NextToken(pieces, i + 1);
    if k < |pieces| {
      PieceMoved(pieces, padded, j, d, k);
    }
  }

  lemma {:induction false} OneMoved(
    pieces: seq<string>, padded: seq<string>, j: nat, d: nat, i: nat, r: Reader, r': Reader)
    requires Padded(pieces, padded, j, d) && i < |pieces| && Shifted(r, r', j, d)
    ensures Moved(i, j, d) < |padded|
    ensures var a, b := ReadOne(pieces, i, r), ReadOne(padded, Moved(i, j, d), r');
            if a.Ok? then b.Ok? && b.value.0 == Moved(a.value.0 - 1, j, d) + 1 && Shifted(a.value.1, b.value.1, j, d)
            else b.Err? && ShiftedEnd(a.error, b.error, j, d)
  {
    PieceMoved(pieces, padded, j, d, i);
    var token := pieces[i];
    if !Skipped(token) {
      if AtPlatform(Entering(r, token), token) {
        LiteralMoved(pieces, padded, j, d, i, r, r');
        var k := NextToken(pieces, i + 1);
        if k < |pieces| {
          FoundShifted(r, r', j, d, token, k, pieces[k]);
        }
      } else {
        MarkShifted(r, r', j, d, token);
      }
    }
  }

  /** Whatever a header's pieces say, they say it as well padded. */
  lemma {:induction false} ReadMoved(
    pieces: seq<string>, padded: seq<string>, j: nat, d: nat, i: nat, r: Reader, r': Reader)
    requires Padded(pieces, padded, j, d) && i <= |pieces| && Shifted(r, r', j, d)
    ensures Moved(i, j, d) <= |padded|
    ensures ShiftedEnd(Read(pieces, i, r), Read(padded, Moved(i, j, d), r'), j, d)
    decreases |pieces| - i
  {
    if i < |pieces| {
      OneMoved(pieces, padded, j, d, i, r, r');
      var one, one' := ReadOne(pieces, i, r), ReadOne(padded, Moved(i, j, d), r');
      if one.Ok? {
        var (n, next) := one.value;
        var (at, next') := one'.value;
        AfterMoved(pieces, padded, j, d, n, at);
        ReadPastPadding(padded, at, Moved(n, j, d), next');
        ReadMoved(pieces, padded, j, d, n, next, next');
      }
    }
  }

  ghost predicate SamePlatform(pieces: seq<string>, padded: seq<string>, j: nat, d: nat) {
    var a, b := PlatformPiece(pieces), PlatformPiece(padded);
    if a.Ok? && a.value.Some? then b == Ok(Some(Moved(a.value.value, j, d))) else b == a
  }

  lemma {:induction false} SameFromFirst(
    pieces: seq<string>, padded: seq<string>, j: nat, d: nat, first: nat, first': nat)
    requires NextToken(pieces, 0) == first && NextToken(padded, 0) == first'
    requires first == |pieces| <==> first' == |padded|
    requires first < |pieces| ==> padded[first'] == pieces[first]
    requires first < |pieces| ==> ShiftedEnd(Read(pieces, first + 1, START), Read(padded, first' + 1, START), j, d)
    ensures SamePlatform(pieces, padded, j, d)
  {
  }

  /** Padding moves the platform literal, or leaves the same refusal, or the same no. */
  lemma {:induction false} PlatformMoved(pieces: seq<string>, padded: seq<string>, j: nat, d: nat)
    requires Padded(pieces, padded, j, d)
    ensures SamePlatform(pieces, padded, j, d)
  {
    NextMoved(pieces, padded, j, d, 0);
    SkipPadding(padded, 0, Moved(0, j, d));
    var first := NextToken(pieces, 0);
    if first < |pieces| {
      PieceMoved(pieces, padded, j, d, first);
      var at := Moved(first, j, d) + 1;
      AfterMoved(pieces, padded, j, d, first + 1, at);
      ReadPastPadding(padded, at, Moved(first + 1, j, d), START);
      ReadMoved(pieces, padded, j, d, first + 1, START, START);
    }
    SameFromFirst(pieces, padded, j, d, first, Moved(first, j, d));
  }

  // Lexing: a separator put between two pieces is pieces that are skipped.

  lemma {:induction false} CommentBody(s: string, k: nat)
    requires k <= |s|
    ensures forall i | k <= i < CommentEnd(s, k) :: s[i] != '\n'
    ensures CommentEnd(s, k) < |s| ==> s[CommentEnd(s, k)] == '\n'
    decreases |s| - k
  {
    if k < |s| && s[k] != '\n' {
      CommentBody(s, k + 1);
    }
  }

  lemma {:induction false} CommentEndsAt(s: string, k: nat, end: nat)
    requires k <= end <= |s| && (forall i | k <= i < end :: s[i] != '\n') && (end < |s| ==> s[end] == '\n')
    ensures CommentEnd(s, k) == end
    decreases end - k
  {
    if k < end {
      CommentEndsAt(s, k + 1, end);
    }
  }

  lemma {:induction false} NameBody(s: string, k: nat)
    requires k <= |s|
    ensures forall i | k <= i < NameEnd(s, k) :: IsNamePart(s[i])
    decreases |s| - k
  {
    if k < |s| && IsNamePart(s[k]) {
      NameBody(s, k + 1);
    }
  }

  /** The character cannot continue the piece. */
  predicate Ends(piece: string, c: char) {
    piece != "" && (piece[0] == '#' ==> c == '\n') && (IsNameStart(piece[0]) ==> !IsNamePart(c))
  }

  /** A first piece is the same whatever follows it that cannot continue it. */
  lemma {:induction false} FirstEnds(s: string, t: string, n: nat)
    requires s != "" && FirstLength(s) == n <= |s| && n < |t| && s[..n] == t[..n] && Ends(s[..n], t[n])
    requires s[0] == '"' ==> StringEnd(s, 1).Some?
    ensures FirstLength(t) == n
  {
    assert s[0] == s[..n][0] == t[..n][0] == t[0];
    assert forall i | 0 <= i < n :: s[i] == s[..n][i] == t[..n][i] == t[i];
    if s[0] == '#' {
      CommentBody(s, 1);
      CommentEndsAt(t, 1, n);
    } else if s[0] == '"' {
      StringEndLocal(s, t, 1, n);
    } else if IsNameStart(s[0]) {
      NameBody(s, 1);
      NameEndsAt(t, 1, n);
    }
  }

  ghost predicate NonEmpty(pieces: seq<string>) {
    forall i | 0 <= i < |pieces| :: pieces[i] != ""
  }

  lemma {:induction false} LexNonEmpty(s: string)
    ensures NonEmpty(Lex(s))
    decreases |s|
  {
    if s != "" {
      LexNonEmpty(s[FirstLength(s)..]);
    }
  }

  /** Text that goes on to a plain literal. */
  ghost predicate ReachesLiteral(s: string) {
    exists between, reference, tail :: Plain(reference) && s == between + (Quoted(reference) + tail)
  }

  lemma {:induction false} QuoteCloses(before: string, suffix: string)
    requires before != "" && ReachesLiteral(suffix)
    ensures StringEnd(before + suffix, 1).Some?
  {
    var between, reference, tail :| Plain(reference) && suffix == between + (Quoted(reference) + tail);
    assert before + suffix == (before + between) + (Quoted(reference) + tail);
    QuoteBeforeCloses(before + between, reference, tail);
  }

  /** What the last piece before a boundary needs of the text after it. */
  ghost predicate Follows(pieces: seq<string>, suffix: string, other: string) {
    other != "" && (pieces != [] ==>
                      Ends(pieces[|pieces| - 1], other[0]) || (suffix != "" && other[0] == suffix[0]))
  }

  lemma {:induction false} MoreJoined(pieces: seq<string>)
    requires NonEmpty(pieces)
    ensures |pieces| > 1 ==> Join(pieces[1..]) != ""
  {
    if |pieces| > 1 {
      assert pieces[1..][0] == pieces[1];
    }
  }

  lemma {:induction false} SameFirstPiece(before: string, suffix: string, other: string, pieces: seq<string>, n: nat)
    requires pieces != [] && NonEmpty(pieces) && before != "" && ReachesLiteral(suffix)
    requires Follows(pieces, suffix, other) && FirstLength(before + suffix) == n
    requires n <= |before| && pieces[0] == before[..n] && Join(pieces[1..]) == before[n..]
    ensures FirstLength(before + other) == n
  {
    var s, t := before + suffix, before + other;
    QuoteCloses(before, suffix);
    assert s[..n] == before[..n] == t[..n];
    if n < |before| {
      assert s[..n + 1] == before[..n + 1] == t[..n + 1];
      FirstLocal(s, t, n);
    } else {
      MoreJoined(pieces);
      assert pieces[|pieces| - 1] == pieces[0];
      assert t[n] == other[0];
      if Ends(pieces[0], other[0]) {
        FirstEnds(s, t, n);
      } else {
        assert s[..n + 1] == before + [suffix[0]] == t[..n + 1];
        FirstLocal(s, t, n);
      }
    }
  }

  /** Lexing up to a boundary does not depend on what follows it, if that cannot continue the piece before. */
  lemma {:induction false} LexBefore(
    before: string, suffix: string, other: string, pieces: seq<string>, more: seq<string>)
    requires Join(pieces) == before && Lex(before + suffix) == pieces + more && NonEmpty(pieces)
    requires ReachesLiteral(suffix) && Follows(pieces, suffix, other)
    ensures Lex(before + other) == pieces + Lex(other)
    decreases |pieces|
  {
    if pieces == [] {
      assert before + other == other && [] + Lex(other) == Lex(other);
    } else {
      assert pieces[0] != "" && before != "";
      PieceBefore(before, suffix, pieces, more);
      var n := FirstLength(before + suffix);
      SameFirstPiece(before, suffix, other, pieces, n);
      assert pieces[1..] != [] ==> pieces[1..][|pieces[1..]| - 1] == pieces[|pieces| - 1];
      LexBefore(before[n..], suffix, other, pieces[1..], more);
      LexStep(before, other, n);
      Reassemble(pieces, Lex(other));
    }
  }

  lemma {:induction false} LexComment(comment: string, rest: string)
    requires comment != "" && comment[0] == '#' && (forall i | 0 <= i < |comment| :: comment[i] != '\n')
    requires rest != "" ==> rest[0] == '\n'
    ensures Lex(comment + rest) == [comment] + Lex(rest)
  {
    var s := comment + rest;
    CommentEndsAt(s, 1, |comment|);
    assert FirstLength(s) == |comment|;
    Cut(comment, rest);
  }

  /** The pieces of a separator. */
  function SeparatorPieces(sep: string): seq<string>
    requires IsSeparator(sep)
  {
    if sep[0] == '#' then [sep[..|sep| - 1], "\n"] else [sep]
  }

  lemma {:induction false} LexSeparator(sep: string, rest: string)
    requires IsSeparator(sep)
    ensures Lex(sep + rest) == SeparatorPieces(sep) + Lex(rest)
  {
    if sep[0] == '#' {
      var comment := sep[..|sep| - 1];
      assert sep == comment + "\n" && sep + rest == comment + (['\n'] + rest);
      LexMark('\n', rest);
      LexComment(comment, ['\n'] + rest);
    } else {
      assert sep == [sep[0]];
      LexMark(sep[0], rest);
    }
  }

  /** A source around the boundary before its piece `j`. */
  lemma {:induction false} AroundBoundary(source: string, j: nat)
    requires j <= |Lex(source)|
    ensures var pieces := Lex(source);
            && source == Join(pieces[..j]) + Join(pieces[j..]) && |Join(pieces[..j])| <= |source|
            && source[..|Join(pieces[..j])|] == Join(pieces[..j]) && source[|Join(pieces[..j])|..] == Join(pieces[j..])
            && Lex(Join(pieces[j..])) == pieces[j..] && pieces == pieces[..j] + pieces[j..]
            && NonEmpty(pieces[..j])
  {
    var pieces := Lex(source);
    JoinLex(source);
    JoinConcat(pieces[..j], pieces[j..]);
    assert pieces == pieces[..j] + pieces[j..];
    Cut(Join(pieces[..j]), Join(pieces[j..]));
    LexSuffix(source, j);
    LexNonEmpty(source);
  }

  /** What follows a boundary up to a plain literal goes on to it. */
  lemma {:induction false} BoundaryReachesLiteral(pieces: seq<string>, j: nat, k: nat)
    requires j <= k < |pieces| && IsLiteral(pieces[k])
    ensures ReachesLiteral(Join(pieces[j..])) && Join(pieces[j..]) != ""
  {
    var rest, reference := pieces[j..], pieces[k][1..|pieces[k]| - 1];
    LiteralIsQuoted(pieces[k]);
    JoinAround(rest, k - j);
    assert rest[k - j] == Quoted(reference);
    var between, tail := Join(rest[..k - j]), Join(rest[k - j + 1..]);
    assert Join(rest) == between + (Quoted(reference) + tail);
  }

  /** The piece before the boundary is a comment, and the separator goes on with it. */
  predicate Continues(pieces: seq<string>, j: nat, sep: string)
    requires j <= |pieces| && IsSeparator(sep)
  {
    j > 0 && pieces[j - 1] != "" && pieces[j - 1][0] == '#' && sep[0] != '\n'
  }

  /** A separator between pieces is lexed by itself. */
  lemma {:induction false} LexPut(source: string, j: nat, k: nat, sep: string)
    requires IsSeparator(sep) && j <= k < |Lex(source)| && IsLiteral(Lex(source)[k])
    requires !Continues(Lex(source), j, sep)
    ensures var pieces := Lex(source);
            Lex(Join(pieces[..j]) + (sep + Join(pieces[j..]))) == pieces[..j] + (SeparatorPieces(sep) + pieces[j..])
  {
    var pieces := Lex(source);
    var before, rest := Join(pieces[..j]), Join(pieces[j..]);
    AroundBoundary(source, j);
    BoundaryReachesLiteral(pieces, j, k);
    LexSeparator(sep, rest);
    assert j > 0 ==> pieces[..j][j - 1] == pieces[j - 1];
    LexBefore(before, rest, sep + rest, pieces[..j], pieces[j..]);
  }

  lemma {:induction false} CommentHead(s: string, comment: string, rest: string, more: seq<string>)
    requires comment != "" && comment[0] == '#' && s == comment + rest && Lex(s) == [comment] + more && rest != ""
    ensures (forall i | 0 <= i < |comment| :: comment[i] != '\n') && rest[0] == '\n'
  {
    LexHead(s, comment, more);
    CommentBody(s, 1);
    assert s[|comment|] == rest[0] && forall i | 0 <= i < |comment| :: s[i] == comment[i];
  }

  /** A comment as it is before an end of line. */
  lemma {:induction false} CommentPiece(source: string, j: nat, k: nat)
    requires 0 < j <= k < |Lex(source)| && IsLiteral(Lex(source)[k])
    requires Lex(source)[j - 1] != "" && Lex(source)[j - 1][0] == '#'
    ensures var comment, rest := Lex(source)[j - 1], Join(Lex(source)[j..]);
            && (forall i | 0 <= i < |comment| :: comment[i] != '\n')
            && rest != "" && rest[0] == '\n' && Join(Lex(source)[j - 1..]) == comment + rest
  {
    var pieces := Lex(source);
    var comment, rest := pieces[j - 1], Join(pieces[j..]);
    AroundBoundary(source, j - 1);
    BoundaryReachesLiteral(pieces, j, k);
    var s := Join(pieces[j - 1..]);
    assert pieces[j - 1..][1..] == pieces[j..] && pieces[j - 1..][0] == comment;
    assert pieces[j - 1..] == [comment] + pieces[j..];
    CommentHead(s, comment, rest, pieces[j..]);
  }

  /** The pieces of a comment the separator goes on with. */
  function CommentPieces(comment: string, sep: string): seq<string>
    requires IsSeparator(sep)
  {
    if sep[0] == '#' then [comment + sep[..|sep| - 1], "\n"] else [comment + sep]
  }

  lemma {:induction false} LexCommentOn(comment: string, sep: string, rest: string)
    requires IsSeparator(sep) && sep != "\n" && comment != "" && comment[0] == '#'
    requires (forall i | 0 <= i < |comment| :: comment[i] != '\n') && rest != "" && rest[0] == '\n'
    ensures Lex(comment + (sep + rest)) == CommentPieces(comment, sep) + Lex(rest)
  {
    if sep[0] == '#' {
      var more, line := sep[..|sep| - 1], ['\n'] + rest;
      assert sep == more + ['\n'];
      Regroup(more, ['\n'], rest);
      Regroup(comment, more, line);
      LexMark('\n', rest);
      LexComment(comment + more, line);
    } else {
      Regroup(comment, sep, rest);
      LexComment(comment + sep, rest);
    }
  }

  /** A separator after a comment is lexed as part of it, up to its end of line. */
  lemma {:induction false} LexPutOn(source: string, j: nat, k: nat, sep: string)
    requires IsSeparator(sep) && j <= k < |Lex(source)| && IsLiteral(Lex(source)[k]) && Continues(Lex(source), j, sep)
    ensures var pieces := Lex(source);
            Lex(Join(pieces[..j - 1]) + (pieces[j - 1] + (sep + Join(pieces[j..])))) ==
              pieces[..j - 1] + (CommentPieces(pieces[j - 1], sep) + pieces[j..])
  {
    var pieces := Lex(source);
    var comment, before, rest := pieces[j - 1], Join(pieces[..j - 1]), Join(pieces[j..]);
    CommentPiece(source, j, k);
    AroundBoundary(source, j - 1);
    AroundBoundary(source, j);
    BoundaryReachesLiteral(pieces, j - 1, k);
    LexCommentOn(comment, sep, rest);
    LexBefore(before, comment + rest, comment + (sep + rest), pieces[..j - 1], pieces[j - 1..]);
  }

  /** A source with a separator put before piece `j`. */
  function WithSeparator(source: string, j: nat, sep: string): string
    requires j <= |Lex(source)|
  {
    Join(Lex(source)[..j]) + (sep + Join(Lex(source)[j..]))
  }

  lemma {:induction false} PaddedBy(pieces: seq<string>, j: nat, extra: seq<string>, padded: seq<string>)
    requires j <= |pieces| && padded == pieces[..j] + (extra + pieces[j..])
    requires forall i | 0 <= i < |extra| :: Skipped(extra[i])
    ensures Padded(pieces, padded, j, |extra|)
  {
  }

  lemma {:induction false} PaddedOn(pieces: seq<string>, j: nat, extra: seq<string>, padded: seq<string>)
    requires 0 < j <= |pieces| && |extra| > 0 && padded == pieces[..j - 1] + (extra + pieces[j..])
    requires Skipped(pieces[j - 1]) && forall i | 0 <= i < |extra| :: Skipped(extra[i])
    ensures Padded(pieces, padded, j, |extra| - 1)
  {
  }

  /** The pieces of a source with a separator put into it are its pieces padded. */
  lemma {:induction false} SeparatedIsPadded(source: string, j: nat, k: nat, sep: string) returns (d: nat)
    requires IsSeparator(sep) && j <= k < |Lex(source)| && IsLiteral(Lex(source)[k])
    ensures Padded(Lex(source), Lex(WithSeparator(source, j, sep)), j, d)
  {
    var pieces, other := Lex(source), WithSeparator(source, j, sep);
    if Continues(pieces, j, sep) {
      var comment, before, rest := pieces[j - 1], Join(pieces[..j - 1]), Join(pieces[j..]);
      LexPutOn(source, j, k, sep);
      JoinSnoc(pieces, j);
      Regroup(before, comment, sep + rest);
      PaddedOn(pieces, j, CommentPieces(comment, sep), Lex(other));
      d := |CommentPieces(comment, sep)| - 1;
    } else {
      LexPut(source, j, k, sep);
      PaddedBy(pieces, j, SeparatorPieces(sep), Lex(other));
      d := |SeparatorPieces(sep)|;
    }
  }

  lemma {:induction false} Regroup(a: string, b: string, c: string)
    ensures (a + b) + c == a + (b + c)
  {
  }

  lemma {:induction false} JoinSnoc(pieces: seq<string>, j: nat)
    requires 0 < j <= |pieces|
    ensures Join(pieces[..j]) == Join(pieces[..j - 1]) + pieces[j - 1]
  {
    assert pieces[..j] == pieces[..j - 1] + [pieces[j - 1]] && [pieces[j - 1]][1..] == [];
    JoinConcat(pieces[..j - 1], [pieces[j - 1]]);
    assert Join([pieces[j - 1]]) == pieces[j - 1] + Join([]) == pieces[j - 1];
  }

  lemma {:induction false} PaddedOffset(source: string, other: string, j: nat, d: nat, k: nat)
    requires Padded(Lex(source), Lex(other), j, d) && j <= k < |Lex(source)|
    ensures k + d < |Lex(other)| && Lex(other)[k + d] == Lex(source)[k]
    ensures |source| - Offset(Lex(source), k) == |other| - Offset(Lex(other), k + d)
  {
    AroundBoundary(source, k);
    AroundBoundary(other, k + d);
    assert Lex(other)[k + d..] == Lex(source)[k..];
  }

  lemma {:induction false} AtPiece(source: string, k: nat)
    requires k < |Lex(source)|
    ensures Offset(Lex(source), k) + |Lex(source)[k]| <= |source|
    ensures source[Offset(Lex(source), k)..Offset(Lex(source), k) + |Lex(source)[k]|] == Lex(source)[k]
  {
    var before, piece, rest := Join(Lex(source)[..k]), Lex(source)[k], Join(Lex(source)[k + 1..]);
    JoinedParts(source, k);
    PieceIn(source, before, piece, rest);
  }

  lemma {:induction false} PieceIn(source: string, before: string, piece: string, rest: string)
    requires source == before + (piece + rest)
    ensures |before| + |piece| <= |source| && source[|before|..|before| + |piece|] == piece
  {
  }

  lemma {:induction false} InsidePiece(source: string, at: nat, piece: string)
    requires |piece| >= 2 && at + |piece| <= |source| && source[at..at + |piece|] == piece
    ensures source[at + 1..at + |piece| - 1] == piece[1..|piece| - 1]
  {
    SliceOfSlice(source, at, at + |piece|, 1, |piece| - 1);
  }

  lemma {:induction false} SliceOfSlice(s: string, from: nat, to: nat, a: nat, b: nat)
    requires from <= to <= |s| && a <= b <= to - from
    ensures s[from..to][a..b] == s[from + a..from + b]
  {
    var inner, outer := s[from..to][a..b], s[from + a..from + b];
    assert |inner| == |outer| == b - a;
    assert forall i | 0 <= i < b - a :: inner[i] == s[from..to][a + i] == s[from + (a + i)] == outer[i];
  }

  lemma {:induction false} WithSeparatorIs(source: string, j: nat, sep: string)
    requires j <= |Lex(source)|
    ensures Offset(Lex(source), j) <= |source| && |WithSeparator(source, j, sep)| == |source| + |sep|
    ensures WithSeparator(source, j, sep) == source[..Offset(Lex(source), j)] + sep + source[Offset(Lex(source), j)..]
  {
    AroundBoundary(source, j);
    Regroup(Join(Lex(source)[..j]), sep, Join(Lex(source)[j..]));
  }

  /** The span of a literal piece, and what it holds. */
  lemma {:induction false} LiteralSpan(source: string, k: nat, at: nat)
    requires PlatformPiece(Lex(source)) == Ok(Some(k))
    ensures k < |Lex(source)| && IsLiteral(Lex(source)[k])
    ensures at == Offset(Lex(source), k) ==>
              var literal := Lex(source)[k];
              && PlatformSpan(source) == Ok(Some(Span(at + 1, at + |literal| - 1)))
              && at + |literal| <= |source| && source[at + 1..at + |literal| - 1] == literal[1..|literal| - 1]
  {
    AtPiece(source, k);
    if at == Offset(Lex(source), k) {
      InsidePiece(source, at, Lex(source)[k]);
    }
  }

  /** A source has a platform, and the other has one too, its span `n` further on, holding the same reference. */
  ghost predicate SpanMoved(source: string, other: string, n: nat) {
    && HasPlatform(source)
    && var span := PlatformSpan(source).value.value;
       && PlatformSpan(other) == Ok(Some(Span(span.start + n, span.end + n)))
       && span.start <= span.end <= |source| && span.end + n <= |other|
       && other[span.start + n..span.end + n] == source[span.start..span.end]
  }

  lemma {:induction false} LiteralsMoved(source: string, other: string, k: nat, k': nat, at: nat, n: nat)
    requires PlatformPiece(Lex(source)) == Ok(Some(k)) && PlatformPiece(Lex(other)) == Ok(Some(k'))
    requires Lex(other)[k'] == Lex(source)[k]
    requires at == Offset(Lex(source), k) && at + n == Offset(Lex(other), k')
    ensures SpanMoved(source, other, n)
  {
    LiteralSpan(source, k, at);
    LiteralSpan(other, k', at + n);
  }

  lemma {:induction false} SeparatedSpan(source: string, other: string, j: nat, d: nat, k: nat, n: nat)
    requires Padded(Lex(source), Lex(other), j, d) && SamePlatform(Lex(source), Lex(other), j, d)
    requires PlatformPiece(Lex(source)) == Ok(Some(k)) && j <= k && |other| == |source| + n
    ensures SpanMoved(source, other, n)
  {
    PaddedOffset(source, other, j, d, k);
    LiteralsMoved(source, other, k, k + d, Offset(Lex(source), k), n);
  }

  /** Separators are transparent: put before any piece up to the platform literal, one leaves a source with a
      platform, its span moved by as much, holding the same reference. */
  lemma {:induction false} SeparatorsAreTransparent(source: string, j: nat, sep: string)
    requires HasPlatform(source) && IsSeparator(sep)
    requires j <= PlatformPiece(Lex(source)).value.value
    ensures Offset(Lex(source), j) <= |source|
    ensures var at := Offset(Lex(source), j);
            SpanMoved(source, source[..at] + sep + source[at..], |sep|)
  {
    var k, other := PlatformPiece(Lex(source)).value.value, WithSeparator(source, j, sep);
    WithSeparatorIs(source, j, sep);
    var d := SeparatedIsPadded(source, j, k, sep);
    PlatformMoved(Lex(source), Lex(other), j, d);
    SeparatedSpan(source, other, j, d, k, |sep|);
  }

  // A header as people write it.

  /** `app [State, main] { pf: platform "..." }` */
  function Observatory(reference: string): string {
    "app" + (" " + ("[" + ("State" + ("," + (" " + ("main" + ("]" + SpacedRecord(Quoted(reference) + (" " + "}")))))))))
  }

  function SpacedRecord(rest: string): string {
    " " + ("{" + (" " + ("pf" + (":" + (" " + ("platform" + (" " + rest)))))))
  }

  function ObservatoryPieces(reference: string): seq<string> {
    ["app", " ", "[", "State"]
    + ([",", " ", "main", "]"]
       + ([" ", "{", " ", "pf"] + ([":", " ", "platform", " "] + [Quoted(reference), " ", "}"])))
  }

  lemma {:induction false} ObservatoryText(reference: string)
    ensures Observatory(reference) == "app [State, main] { pf: platform \"" + reference + "\" }"
  {
  }

  lemma {:induction false} LexSpacedRecord(rest: string)
    ensures Lex(SpacedRecord(rest)) == [" ", "{", " ", "pf"] + ([":", " ", "platform", " "] + Lex(rest))
  {
    var spaced := " " + rest;
    LexMark(' ', rest);
    LexName("platform", spaced);
    var named := "platform" + spaced;
    LexMark(' ', named);
    LexMark(':', " " + named);
    FourAndMore(":", " ", "platform", " ", Lex(rest));
    var typed := ":" + (" " + named);
    LexName("pf", typed);
    LexMark(' ', "pf" + typed);
    LexMark('{', " " + ("pf" + typed));
    LexMark(' ', "{" + (" " + ("pf" + typed)));
    FourAndMore(" ", "{", " ", "pf", Lex(typed));
  }

  lemma {:induction false} LexSecondName(rest: string)
    ensures Lex("," + (" " + ("main" + ("]" + rest)))) == [",", " ", "main", "]"] + Lex(rest)
  {
    var closed := "]" + rest;
    LexMark(']', rest);
    LexName("main", closed);
    LexMark(' ', "main" + closed);
    LexMark(',', " " + ("main" + closed));
    FourAndMore(",", " ", "main", "]", Lex(rest));
  }

  lemma {:induction false} LexSpacedApp(rest: string)
    ensures Lex("app" + (" " + ("[" + ("State" + ("," + (" " + ("main" + ("]" + rest)))))))) ==
              ["app", " ", "[", "State"] + ([",", " ", "main", "]"] + Lex(rest))
  {
    var second := "," + (" " + ("main" + ("]" + rest)));
    LexSecondName(rest);
    LexName("State", second);
    var names := "[" + ("State" + second);
    LexMark('[', "State" + second);
    LexMark(' ', names);
    LexName("app", " " + names);
    FourAndMore("app", " ", "[", "State", Lex(second));
  }

  lemma {:induction false} ObservatoryLexes(reference: string)
    requires Plain(reference)
    ensures Lex(Observatory(reference)) == ObservatoryPieces(reference)
  {
    var rest := Quoted(reference) + (" " + "}");
    LexQuoted(reference, " " + "}");
    LexMark(' ', "}");
    LexMark('}', "");
    assert ['}'] + "" == "}" && Lex("") == [];
    assert Lex(rest) == [Quoted(reference), " ", "}"];
    LexSpacedRecord(rest);
    LexSpacedApp(SpacedRecord(rest));
  }

  /** The tokens of the list, and of the record, where they are. */
  ghost predicate NamesAt(pieces: seq<string>) {
    && |pieces| == 19 && pieces[0] == "app" && pieces[1] == " " && pieces[2] == "[" && pieces[3] == "State"
    && pieces[4] == "," && pieces[5] == " " && pieces[6] == "main" && pieces[7] == "]" && pieces[8] == " "
  }

  ghost predicate RecordAt(pieces: seq<string>, literal: string) {
    && |pieces| == 19 && pieces[9] == "{" && pieces[10] == " " && pieces[11] == "pf" && pieces[12] == ":"
    && pieces[13] == " " && PlatformAt(pieces, literal)
  }

  ghost predicate PlatformAt(pieces: seq<string>, literal: string) {
    && |pieces| == 19 && pieces[14] == "platform" && pieces[15] == " " && pieces[16] == literal
    && pieces[17] == " " && pieces[18] == "}"
  }

  lemma {:induction false} PiecesAt(reference: string)
    ensures NamesAt(ObservatoryPieces(reference)) && RecordAt(ObservatoryPieces(reference), Quoted(reference))
  {
  }

  /** Its platform, as the compact record of a small header has it. */
  lemma {:induction false} ObservatoryHas(reference: string)
    requires Plain(reference) && '\n' !in reference && reference != ""
    ensures PlatformSpan(Observatory(reference)) == Ok(Some(Span(34, 34 + |reference|)))
  {
    var source, pieces := Observatory(reference), ObservatoryPieces(reference);
    ObservatoryLexes(reference);
    QuotedLiteral(reference);
    PiecesAt(reference);
    NamesRead(pieces, Quoted(reference));
    FirstIsApp(pieces);
    ObservatoryText(reference);
    LiteralSpan(source, 16, 33);
    JoinedParts(source, 16);
    LastPieces(pieces);
    assert |source| == 33 + |reference| + 4;
  }

  lemma {:induction false} FirstIsApp(pieces: seq<string>)
    requires NamesAt(pieces) && Read(pieces, 1, START) == Ok(16)
    ensures PlatformPiece(pieces) == Ok(Some(16))
  {
    assert NextToken(pieces, 0) == 0;
  }

  lemma {:induction false} LastPieces(pieces: seq<string>)
    requires |pieces| == 19 && pieces[17] == " " && pieces[18] == "}"
    ensures |Join(pieces[17..])| == 2
  {
    assert pieces[17..] == [" ", "}"] && [" ", "}"][1..] == ["}"] && ["}"][1..] == [];
    assert Join(["}"]) == "}" + Join([]) && Join([" ", "}"]) == " " + Join(["}"]);
  }

  lemma {:induction false} ReadsSpace(pieces: seq<string>, i: nat, r: Reader)
    requires i < |pieces| && pieces[i] == " "
    ensures Read(pieces, i, r) == Read(pieces, i + 1, r)
  {
  }

  lemma {:induction false} NamesRead(pieces: seq<string>, literal: string)
    requires NamesAt(pieces) && RecordAt(pieces, literal) && IsLiteral(literal)
    ensures Read(pieces, 1, START) == Ok(16)
  {
    var listing := Reader(["]"], false, [], Some("["));
    assert [] + [Closing("[")] == ["]"];
    ReadsSpace(pieces, 1, START);
    ReadsMark(pieces, 2, START, listing);
    ReadsMark(pieces, 3, listing, listing.(previous := Some("State")));
    ReadsMark(pieces, 4, listing.(previous := Some("State")), listing.(previous := Some(",")));
    ReadsSpace(pieces, 5, listing.(previous := Some(",")));
    SecondNameReads(pieces, literal, listing.(previous := Some(",")));
  }

  lemma {:induction false} SecondNameReads(pieces: seq<string>, literal: string, r: Reader)
    requires NamesAt(pieces) && RecordAt(pieces, literal) && IsLiteral(literal)
    requires r == Reader(["]"], false, [], Some(","))
    ensures Read(pieces, 6, r) == Ok(16)
  {
    var after := Reader([], false, [], Some("]"));
    assert r.stack[..0] == [];
    ReadsMark(pieces, 6, r, r.(previous := Some("main")));
    ReadsMark(pieces, 7, r.(previous := Some("main")), after);
    ReadsSpace(pieces, 8, after);
    SpacedRecordReads(pieces, literal, after);
  }

  lemma {:induction false} SpacedRecordReads(pieces: seq<string>, literal: string, r: Reader)
    requires RecordAt(pieces, literal) && IsLiteral(literal) && r == Reader([], false, [], Some("]"))
    ensures Read(pieces, 9, r) == Ok(16)
  {
    var inside := Reader(["}"], true, [], Some("{"));
    assert [] + [Closing("{")] == ["}"];
    ReadsMark(pieces, 9, r, inside);
    ReadsSpace(pieces, 10, inside);
    ReadsMark(pieces, 11, inside, inside.(previous := Some("pf")));
    ReadsMark(pieces, 12, inside.(previous := Some("pf")), inside.(previous := Some(":")));
    ReadsSpace(pieces, 13, inside.(previous := Some(":")));
    SpacedPlatformReads(pieces, literal, inside.(previous := Some(":")));
  }

  lemma {:induction false} SpacedPlatformReads(pieces: seq<string>, literal: string, r: Reader)
    requires PlatformAt(pieces, literal) && IsLiteral(literal) && r == Reader(["}"], true, [], Some(":"))
    ensures Read(pieces, 14, r) == Ok(16)
  {
    var found := Reader(["}"], true, [16], Some(literal));
    assert NextToken(pieces, 15) == 16 && [] + [16] == [16];
    assert ReadOne(pieces, 14, r) == Ok((17, found));
    ReadsSpace(pieces, 17, found);
    RecordEnds(pieces, 18, found);
  }
}
