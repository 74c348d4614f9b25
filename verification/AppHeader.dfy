/** Reading and rewriting the platform dependency of a Roc app header (`scripts/toolchain.py`). */
module AppHeader {

  import opened Wrappers

  // The lexer: comments, string literals, names and single marks; white space between them is skipped.

  predicate IsSpace(c: char) {
    var u := c as int;
    || 0x09 <= u <= 0x0D || 0x1C <= u <= 0x20 || u == 0x85 || u == 0xA0 || u == 0x1680
    || 0x2000 <= u <= 0x200A || u == 0x2028 || u == 0x2029 || u == 0x202F || u == 0x205F || u == 0x3000
  }

  predicate IsNameStart(c: char) {
    'A' <= c <= 'Z' || 'a' <= c <= 'z' || c == '_'
  }

  predicate IsNamePart(c: char) {
    IsNameStart(c) || '0' <= c <= '9' || c == '!'
  }

  /** Where a string literal scanned from `k` ends, past its closing quote; a backslash takes the next
      character with it, whatever that is. */
  function StringEnd(s: string, k: nat): (end: Option<nat>)
    ensures end.Some? ==> k < end.value <= |s|
    decreases |s| - k
  {
    if k >= |s| then None
    else if s[k] == '"' then Some(k + 1)
    else if s[k] == '\\' then (if k + 1 < |s| then StringEnd(s, k + 2) else None)
    else StringEnd(s, k + 1)
  }

  function CommentEnd(s: string, k: nat): (end: nat)
    requires k <= |s|
    ensures k <= end <= |s|
    decreases |s| - k
  {
    if k == |s| || s[k] == '\n' then k else CommentEnd(s, k + 1)
  }

  function NameEnd(s: string, k: nat): (end: nat)
    requires k <= |s|
    ensures k <= end <= |s|
    decreases |s| - k
  {
    if k == |s| || !IsNamePart(s[k]) then k else NameEnd(s, k + 1)
  }

  /** The length of the first piece of a text: a comment, a closed string literal, a name, or one
      character, which may be white space or the quote of a literal that is never closed. */
  function FirstLength(s: string): (n: nat)
    requires s != ""
    ensures 0 < n <= |s|
  {
    if s[0] == '#' then CommentEnd(s, 1)
    else if s[0] == '"' then
      match StringEnd(s, 1)
      case Some(end) => end
      case None => 1
    else if IsNameStart(s[0]) then NameEnd(s, 1)
    else 1
  }

  function Lex(s: string): seq<string> {
    if s == "" then [] else [s[..FirstLength(s)]] + Lex(s[FirstLength(s)..])
  }

  function Join(pieces: seq<string>): string {
    if pieces == [] then "" else pieces[0] + Join(pieces[1..])
  }

  /** White space and comments are not tokens. */
  predicate Skipped(piece: string) {
    piece == "" || IsSpace(piece[0]) || piece[0] == '#'
  }

  /** The index of the next token at or after `i`, or the end. */
  function NextToken(pieces: seq<string>, i: nat): (j: nat)
    requires i <= |pieces|
    ensures i <= j <= |pieces|
    ensures j < |pieces| ==> !Skipped(pieces[j])
    ensures forall m | i <= m < j :: Skipped(pieces[m])
    decreases |pieces| - i
  {
    if i == |pieces| || !Skipped(pieces[i]) then i else NextToken(pieces, i + 1)
  }

  /** One unescaped, non-empty literal on one line. */
  predicate IsLiteral(piece: string) {
    && |piece| >= 3 && piece[0] == '"' && piece[|piece| - 1] == '"'
    && forall i | 0 < i < |piece| - 1 :: piece[i] != '"' && piece[i] != '\\' && piece[i] != '\n'
  }

  // The reader.

  datatype HeaderError = NotOneLiteral | Malformed | NotOnePlatform | Incomplete | BadReference

  /** The closing marks awaited, whether the header's record has begun, the pieces found to be platform
      literals, and the token before this one. */
  datatype Reader = Reader(stack: seq<string>, record: bool, found: seq<nat>, previous: Option<string>)

  const START := Reader([], false, [], None)

  predicate Opens(token: string) {
    token == "[" || token == "{" || token == "("
  }

  predicate Closes(token: string) {
    token == "]" || token == "}" || token == ")"
  }

  function Closing(token: string): string {
    if token == "[" then "]" else if token == "{" then "}" else ")"
  }

  /** The record has begun once a brace opens outside every bracket. */
  function Entering(r: Reader, token: string): Reader {
    r.(record := r.record || (r.stack == [] && token == "{"))
  }

  predicate AtPlatform(r: Reader, token: string) {
    r.record && |r.stack| == 1 && r.previous == Some(":") && token == "platform"
  }

  /** One token that is not a platform: the reader after it, or how the header ends. */
  function ReadMark(r: Reader, token: string): Result<Reader, Result<nat, HeaderError>> {
    if Opens(token) then Ok(r.(stack := r.stack + [Closing(token)], previous := Some(token)))
    else if Closes(token) then
      if r.stack == [] || r.stack[|r.stack| - 1] != token then Err(Err(Malformed))
      else
        var popped := r.(stack := r.stack[..|r.stack| - 1], previous := Some(token));
        if r.record && popped.stack == [] then
          if |r.found| != 1 then Err(Err(NotOnePlatform)) else Err(Ok(r.found[0]))
        else Ok(popped)
    else Ok(r.(previous := Some(token)))
  }

  /** One token from piece `i` on: where reading goes on and with what, or how the header ends. */
  function ReadOne(pieces: seq<string>, i: nat, r: Reader): (result: Result<(nat, Reader), Result<nat, HeaderError>>)
    requires i < |pieces|
    ensures result.Ok? ==> i < result.value.0 <= |pieces|
  {
    if Skipped(pieces[i]) then Ok((i + 1, r))
    else
      var entered := Entering(r, pieces[i]);
      if AtPlatform(entered, pieces[i]) then
        var j := NextToken(pieces, i + 1);
        if j == |pieces| || !IsLiteral(pieces[j]) then Err(Err(NotOneLiteral))
        else Ok((j + 1, entered.(found := entered.found + [j], previous := Some(pieces[j]))))
      else
        match ReadMark(entered, pieces[i])
        case Err(ended) => Err(ended)
        case Ok(next) => Ok((i + 1, next))
  }

  ghost predicate LiteralsFound(pieces: seq<string>, found: seq<nat>) {
    forall f | f in found :: f < |pieces| && IsLiteral(pieces[f])
  }

  lemma ReadOneFinds(pieces: seq<string>, i: nat, r: Reader)
    requires i < |pieces|
    ensures LiteralsFound(pieces, r.found) ==>
              match ReadOne(pieces, i, r)
              case Ok(next) => LiteralsFound(pieces, next.1.found)
              case Err(Ok(k)) => k < |pieces| && IsLiteral(pieces[k])
              case Err(Err(_)) => true
  {
    assert |r.found| > 0 ==> r.found[0] in r.found;
  }

  /** Reading from piece `i` on: the index of the header's one platform literal. */
  function Read(pieces: seq<string>, i: nat, r: Reader): (result: Result<nat, HeaderError>)
    requires i <= |pieces|
    ensures LiteralsFound(pieces, r.found) && result.Ok? ==> result.value < |pieces| && IsLiteral(pieces[result.value])
    decreases |pieces| - i
  {
    if i == |pieces| then Err(Incomplete)
    else
      ReadOneFinds(pieces, i, r);
      match ReadOne(pieces, i, r)
      case Err(ended) => ended
      case Ok(next) => Read(pieces, next.0, next.1)
  }

  /** The piece that holds the platform literal, when the source is an app. */
  function PlatformPiece(pieces: seq<string>): (result: Result<Option<nat>, HeaderError>)
    ensures result.Ok? && result.value.Some? ==>
              result.value.value < |pieces| && IsLiteral(pieces[result.value.value])
  {
    var first := NextToken(pieces, 0);
    if first == |pieces| || pieces[first] != "app" then Ok(None)
    else
      match Read(pieces, first + 1, START)
      case Err(error) => Err(error)
      case Ok(k) => Ok(Some(k))
  }

  function Offset(pieces: seq<string>, k: nat): nat
    requires k <= |pieces|
  {
    |Join(pieces[..k])|
  }

  datatype Span = Span(start: nat, end: nat)

  /** Between the quotes of a literal piece. */
  function Inside(pieces: seq<string>, k: nat): Span
    requires k < |pieces| && IsLiteral(pieces[k])
  {
    Span(Offset(pieces, k) + 1, Offset(pieces, k) + |pieces[k]| - 1)
  }

  /** The span of the platform literal between its quotes. */
  function PlatformSpan(source: string): Result<Option<Span>, HeaderError> {
    match PlatformPiece(Lex(source))
    case Err(error) => Err(error)
    case Ok(None) => Ok(None)
    case Ok(Some(k)) => Ok(Some(Inside(Lex(source), k)))
  }

  lemma {:induction false} JoinLex(s: string)
    ensures Join(Lex(s)) == s
    decreases |s|
  {
    if s != "" {
      JoinLex(s[FirstLength(s)..]);
    }
  }

  lemma {:induction false} JoinConcat(a: seq<string>, b: seq<string>)
    ensures Join(a + b) == Join(a) + Join(b)
  {
    if a == [] {
      assert a + b == b;
    } else {
      assert (a + b)[1..] == a[1..] + b;
      JoinConcat(a[1..], b);
    }
  }

  /** A joined text around its piece `k`. */
  lemma JoinAround(pieces: seq<string>, k: nat)
    requires k < |pieces|
    ensures Join(pieces) == Join(pieces[..k]) + pieces[k] + Join(pieces[k + 1..])
  {
    assert pieces == pieces[..k] + pieces[k..];
    JoinConcat(pieces[..k], pieces[k..]);
    assert pieces[k..][1..] == pieces[k + 1..];
  }

  lemma SpanInSource(source: string)
    ensures match PlatformSpan(source)
            case Ok(Some(span)) => span.start < span.end < |source|
            case _ => true
  {
    var pieces := Lex(source);
    match PlatformPiece(pieces)
    case Ok(Some(k)) =>
      JoinLex(source);
      JoinAround(pieces, k);
    case _ =>
  }

  /** One token of the loop below that is not a platform: push, pop, or pass. */
  method Mark(r: Reader, token: string) returns (result: Result<Reader, Result<nat, HeaderError>>)
    ensures result == ReadMark(r, token)
  {
    var stack := r.stack;
    if Opens(token) {
      stack := stack + [Closing(token)];
    } else if Closes(token) {
      if stack == [] || stack[|stack| - 1] != token {
        return Err(Err(Malformed));
      }
      stack := stack[..|stack| - 1];
      if r.record && stack == [] {
        if |r.found| != 1 {
          return Err(Err(NotOnePlatform));
        }
        return Err(Ok(r.found[0]));
      }
    }
    result := Ok(r.(stack := stack, previous := Some(token)));
  }

  /** One turn of the loop below. */
  method ReadToken(pieces: seq<string>, i: nat, r: Reader)
    returns (result: Result<(nat, Reader), Result<nat, HeaderError>>)
    requires i < |pieces|
    ensures result == ReadOne(pieces, i, r)
  {
    if Skipped(pieces[i]) {
      return Ok((i + 1, r));
    }
    var reader := r;
    if reader.stack == [] && pieces[i] == "{" {
      reader := reader.(record := true);
    }
    if reader.record && |reader.stack| == 1 && reader.previous == Some(":") && pieces[i] == "platform" {
      var literal := NextToken(pieces, i + 1);
      if literal == |pieces| || !IsLiteral(pieces[literal]) {
        return Err(Err(NotOneLiteral));
      }
      reader := reader.(found := reader.found + [literal], previous := Some(pieces[literal]));
      return Ok((literal + 1, reader));
    }
    var marked := Mark(reader, pieces[i]);
    if marked.Err? {
      return Err(marked.error);
    }
    result := Ok((i + 1, marked.value));
  }

  /** `app_platform_span`: one loop over the tokens. */
  method AppPlatformSpan(source: string) returns (result: Result<Option<Span>, HeaderError>)
    ensures result == PlatformSpan(source)
  {
    var pieces := Lex(source);
    var i := NextToken(pieces, 0);
    if i == |pieces| || pieces[i] != "app" {
      return Ok(None);
    }
    i := i + 1;
    var reader := START;
    ghost var answer := Read(pieces, i, reader);
    while i < |pieces|
      invariant i <= |pieces| && LiteralsFound(pieces, reader.found)
      invariant answer == Read(pieces, i, reader)
      decreases |pieces| - i
    {
      var next := ReadToken(pieces, i, reader);
      ReadOneFinds(pieces, i, reader);
      if next.Err? {
        return match next.error
          case Err(error) => Err(error)
          case Ok(k) => Ok(Some(Inside(pieces, k)));
      }
      i, reader := next.value.0, next.value.1;
    }
    result := Err(Incomplete);
  }

  /** A reference the rewriter admits. */
  predicate Admitted(reference: string) {
    '\\' !in reference && '"' !in reference && '\n' !in reference && '\r' !in reference
  }

  /** `replace_platform`. */
  function ReplacePlatform(source: string, reference: string): Result<string, HeaderError> {
    SpanInSource(source);
    match PlatformSpan(source)
    case Err(error) => Err(error)
    case Ok(None) => Ok(source)
    case Ok(Some(span)) =>
      if !Admitted(reference) then Err(BadReference)
      else Ok(source[..span.start] + reference + source[span.end..])
  }
}
