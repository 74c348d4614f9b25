/** Rewriting the platform reference obeys the laws of a lens: what is put is what is read, the last put
    wins, putting back what was read changes nothing, and nothing outside the literal is touched. */
module AppHeaderLaws {

  import opened Wrappers
  import opened AppHeader

  function Quoted(reference: string): string {
    "\"" + reference + "\""
  }

  /** Text that can stand between quotes: no quote and no backslash. */
  predicate Plain(reference: string) {
    forall i | 0 <= i < |reference| :: reference[i] != '"' && reference[i] != '\\'
  }

  // The lexer is local: replacing a literal by another changes no other piece.

  /** A scan over plain text stops at the first quote after it. */
  lemma {:induction false} PlainEnds(s: string, k: nat, end: nat)
    requires k <= end < |s| && s[end] == '"'
    requires forall i | k <= i < end :: s[i] != '"' && s[i] != '\\'
    ensures StringEnd(s, k) == Some(end + 1)
    decreases end - k
  {
    if k < end {
      PlainEnds(s, k + 1, end);
    }
  }

  lemma QuotedIsFirst(reference: string, rest: string)
    requires Plain(reference)
    ensures FirstLength(Quoted(reference) + rest) == |Quoted(reference)|
  {
    var s := Quoted(reference) + rest;
    assert forall i | 0 <= i < |reference| :: s[i + 1] == reference[i];
    assert s[|reference| + 1] == '"';
    PlainEnds(s, 1, |reference| + 1);
  }

  /** An earlier scan that finds no closing quote would have found this one. */
  lemma {:induction false} UnclosedSpoils(s: string, k: nat, quote: nat)
    requires k <= quote < |s| && s[quote] == '"' && StringEnd(s, k) == None
    ensures StringEnd(s, quote + 1) == None
    decreases quote - k
  {
    if s[k] == '\\' {
      if k + 2 <= quote {
        UnclosedSpoils(s, k + 2, quote);
      }
    } else {
      UnclosedSpoils(s, k + 1, quote);
    }
  }

  /** Where a scan ends depends only on the text up to there. */
  lemma {:induction false} StringEndLocal(s: string, t: string, k: nat, end: nat)
    requires StringEnd(s, k) == Some(end) && end <= |t| && s[..end] == t[..end]
    ensures StringEnd(t, k) == Some(end)
    decreases |s| - k
  {
    assert s[..end][k] == t[..end][k];
    if s[k] == '\\' {
      StringEndLocal(s, t, k + 2, end);
    } else if s[k] != '"' {
      StringEndLocal(s, t, k + 1, end);
    }
  }

  lemma {:induction false} CommentEndLocal(s: string, t: string, k: nat, end: nat)
    requires k <= end < |s| && end < |t| && s[..end + 1] == t[..end + 1] && CommentEnd(s, k) == end
    ensures CommentEnd(t, k) == end
    decreases end - k
  {
    assert s[..end + 1][k] == t[..end + 1][k];
    if k < end {
      CommentEndLocal(s, t, k + 1, end);
    }
  }

  lemma {:induction false} NameEndLocal(s: string, t: string, k: nat, end: nat)
    requires k <= end < |s| && end < |t| && s[..end + 1] == t[..end + 1] && NameEnd(s, k) == end
    ensures NameEnd(t, k) == end
    decreases end - k
  {
    assert s[..end + 1][k] == t[..end + 1][k];
    if k < end {
      NameEndLocal(s, t, k + 1, end);
    }
  }

  /** A first piece depends only on itself and the character after it, unless it is an unclosed quote. */
  lemma FirstLocal(s: string, t: string, n: nat)
    requires s != "" && FirstLength(s) == n && n < |s| && n < |t| && s[..n + 1] == t[..n + 1]
    requires s[0] == '"' ==> StringEnd(s, 1).Some?
    ensures FirstLength(t) == n
  {
    assert s[..n + 1][0] == t[..n + 1][0];
    if s[0] == '#' {
      CommentEndLocal(s, t, 1, n);
    } else if s[0] == '"' {
      assert s[..n] == s[..n + 1][..n] == t[..n + 1][..n] == t[..n];
      StringEndLocal(s, t, 1, n);
    } else if IsNameStart(s[0]) {
      NameEndLocal(s, t, 1, n);
    }
  }

  /** Text before a plain literal: no quote in it stays unclosed. */
  lemma QuoteBeforeCloses(before: string, reference: string, rest: string)
    requires Plain(reference) && before != ""
    ensures StringEnd(before + (Quoted(reference) + rest), 1).Some?
  {
    var s, quote := before + (Quoted(reference) + rest), |before|;
    assert s[quote] == '"';
    assert forall i | 0 <= i < |reference| :: s[quote + 1 + i] == reference[i];
    assert s[quote + 1 + |reference|] == '"';
    PlainEnds(s, quote + 1, quote + 1 + |reference|);
    if StringEnd(s, 1) == None {
      UnclosedSpoils(s, 1, quote);
    }
  }

  lemma Cut<T>(a: seq<T>, b: seq<T>)
    ensures (a + b)[..|a|] == a && (a + b)[|a|..] == b
  {
  }

  lemma CutMiddle<T>(a: seq<T>, b: seq<T>, c: seq<T>)
    ensures (a + b + c)[|a|..] == b + c
  {
  }

  lemma LexHead(s: string, piece: string, more: seq<string>)
    requires s != "" && Lex(s) == [piece] + more
    ensures |piece| == FirstLength(s) && piece == s[..|piece|] && Lex(s[|piece|..]) == more
  {
    Cut([piece], more);
    Cut([s[..FirstLength(s)]], Lex(s[FirstLength(s)..]));
    assert ([piece] + more)[0] == piece;
  }

  /** The first of several pieces that make up `before` lies within it. */
  lemma PieceBefore(before: string, suffix: string, pieces: seq<string>, more: seq<string>)
    requires pieces != [] && Join(pieces) == before && before + suffix != ""
    requires Lex(before + suffix) == pieces + more
    ensures var n := FirstLength(before + suffix);
            && n <= |before| && pieces[0] == before[..n] && Join(pieces[1..]) == before[n..]
            && Lex(before[n..] + suffix) == pieces[1..] + more
  {
    var s, piece := before + suffix, pieces[0];
    Reassemble(pieces, more);
    LexHead(s, piece, pieces[1..] + more);
    Cut(piece, Join(pieces[1..]));
    CutMiddle(piece, Join(pieces[1..]), suffix);
  }

  /** Lexing a text up to a plain literal does not depend on what the literal holds. */
  lemma {:induction false} LexReplaced(before: string, old': string, new': string, rest: string, pieces: seq<string>)
    requires Plain(old') && Plain(new') && Join(pieces) == before
    requires Lex(before + (Quoted(old') + rest)) == pieces + ([Quoted(old')] + Lex(rest))
    ensures Lex(before + (Quoted(new') + rest)) == pieces + ([Quoted(new')] + Lex(rest))
    decreases |pieces|
  {
    if pieces == [] {
      LexQuoted(new', rest);
      assert before + (Quoted(new') + rest) == Quoted(new') + rest;
    } else {
      PieceBefore(before, Quoted(old') + rest, pieces, [Quoted(old')] + Lex(rest));
      var n := FirstLength(before + (Quoted(old') + rest));
      SameFirst(before, old', new', rest, n);
      LexReplaced(before[n..], old', new', rest, pieces[1..]);
      LexStep(before, Quoted(new') + rest, n);
      Reassemble(pieces, [Quoted(new')] + Lex(rest));
    }
  }

  lemma Reassemble(pieces: seq<string>, more: seq<string>)
    requires pieces != []
    ensures [pieces[0]] + (pieces[1..] + more) == pieces + more
  {
  }

  lemma LexQuoted(reference: string, rest: string)
    requires Plain(reference)
    ensures Lex(Quoted(reference) + rest) == [Quoted(reference)] + Lex(rest)
  {
    var t := Quoted(reference) + rest;
    QuotedIsFirst(reference, rest);
    assert t[..|Quoted(reference)|] == Quoted(reference) && t[|Quoted(reference)|..] == rest;
  }

  lemma SameFirst(before: string, old': string, new': string, rest: string, n: nat)
    requires Plain(old') && 0 < n <= |before|
    requires FirstLength(before + (Quoted(old') + rest)) == n
    ensures FirstLength(before + (Quoted(new') + rest)) == n
  {
    var s, t := before + (Quoted(old') + rest), before + (Quoted(new') + rest);
    QuoteBeforeCloses(before, old', rest);
    assert s[..|before| + 1] == t[..|before| + 1] == before + "\"";
    assert s[..n + 1] == s[..|before| + 1][..n + 1] == t[..n + 1];
    FirstLocal(s, t, n);
  }

  lemma LexStep(before: string, suffix: string, n: nat)
    requires 0 < n <= |before| && FirstLength(before + suffix) == n
    ensures Lex(before + suffix) == [before[..n]] + Lex(before[n..] + suffix)
  {
    var s := before + suffix;
    assert s[..n] == before[..n] && s[n..] == before[n..] + suffix;
  }

  lemma {:induction false} LexSuffix(s: string, m: nat)
    requires m <= |Lex(s)|
    ensures Lex(Join(Lex(s)[m..])) == Lex(s)[m..]
    decreases m
  {
    if m == 0 {
      JoinLex(s);
      assert Lex(s)[0..] == Lex(s);
    } else {
      var n := FirstLength(s);
      Cut([s[..n]], Lex(s[n..]));
      LexSuffix(s[n..], m - 1);
      assert Lex(s)[m..] == Lex(s)[1..][m - 1..];
    }
  }

  // The reader is indifferent to what a literal holds.

  /** The pieces with the literal at `k` replaced. */
  function Put(pieces: seq<string>, k: nat, literal: string): seq<string>
    requires k < |pieces|
  {
    pieces[k := literal]
  }

  /** Two readers that differ at most in a previous token that is no colon. */
  predicate Alike(r: Reader, r': Reader) {
    && r.stack == r'.stack && r.record == r'.record && r.found == r'.found
    && (r.previous == Some(":") <==> r'.previous == Some(":"))
  }

  lemma {:induction false} NextTokenLater(pieces: seq<string>, k: nat, literal: string, i: nat)
    requires k < i <= |pieces|
    ensures NextToken(Put(pieces, k, literal), i) == NextToken(pieces, i)
    decreases |pieces| - i
  {
    if i < |pieces| && Skipped(pieces[i]) {
      NextTokenLater(pieces, k, literal, i + 1);
    }
  }

  lemma {:induction false} NextTokenEarlier(pieces: seq<string>, k: nat, literal: string, i: nat)
    requires i <= k < |pieces| && !Skipped(pieces[k]) && !Skipped(literal)
    ensures NextToken(Put(pieces, k, literal), i) == NextToken(pieces, i) <= k
    decreases |pieces| - i
  {
    if Skipped(pieces[i]) {
      NextTokenEarlier(pieces, k, literal, i + 1);
    }
  }

  lemma ReadOneLater(pieces: seq<string>, k: nat, literal: string, i: nat, r: Reader, r': Reader)
    requires k < i < |pieces| && Alike(r, r')
    ensures match (ReadOne(pieces, i, r), ReadOne(Put(pieces, k, literal), i, r'))
            case (Ok(next), Ok(next')) => next.0 == next'.0 && Alike(next.1, next'.1)
            case (Err(ended), Err(ended')) => ended == ended'
            case _ => false
  {
    NextTokenLater(pieces, k, literal, i + 1);
  }

  lemma {:induction false} ReadLater(pieces: seq<string>, k: nat, literal: string, i: nat, r: Reader, r': Reader)
    requires k < i <= |pieces| && Alike(r, r')
    ensures Read(Put(pieces, k, literal), i, r') == Read(pieces, i, r)
    decreases |pieces| - i
  {
    if i < |pieces| {
      ReadOneLater(pieces, k, literal, i, r, r');
      match ReadOne(pieces, i, r)
      case Ok(next) => ReadLater(pieces, k, literal, next.0, next.1, ReadOne(Put(pieces, k, literal), i, r').value.1);
      case Err(_) =>
    }
  }

  ghost predicate FoundBefore(r: Reader, i: nat) {
    forall f | f in r.found :: f < i
  }

  /** What the header's end reports was found before it. */
  lemma {:induction false} ReadFinds(pieces: seq<string>, i: nat, r: Reader, k: nat)
    requires i <= |pieces| && Read(pieces, i, r) == Ok(k) && k < i
    ensures k in r.found
    decreases |pieces| - i
  {
    match ReadOne(pieces, i, r)
    case Ok(next) => ReadFinds(pieces, next.0, next.1, k);
    case Err(_) =>
  }

  /** Reading does not end before the literal it reports, and takes it as a platform's, not in passing. */
  lemma LiteralComesLater(pieces: seq<string>, k: nat, i: nat, r: Reader)
    requires i <= k < |pieces| && IsLiteral(pieces[k]) && FoundBefore(r, i)
    requires Read(pieces, i, r) == Ok(k)
    ensures i < k && ReadOne(pieces, i, r).Ok?
  {
    assert |r.found| > 0 ==> r.found[0] in r.found;
    if i == k && ReadOne(pieces, i, r).Ok? {
      ReadFinds(pieces, k + 1, ReadOne(pieces, i, r).value.1, k);
    }
  }

  /** One token before the literal: the step that takes the literal takes the new one in its place, if it
      can be read at all; every other step is the same. */
  lemma ReadOneEarlier(pieces: seq<string>, k: nat, literal: string, i: nat, r: Reader)
    requires i < k < |pieces| && !Skipped(pieces[k]) && !Skipped(literal) && FoundBefore(r, i)
    requires ReadOne(pieces, i, r).Ok?
    ensures var (j, next) := ReadOne(pieces, i, r).value;
            if j > k then
              && j == k + 1 && next.previous == Some(pieces[k])
              && ReadOne(Put(pieces, k, literal), i, r) ==
                   if IsLiteral(literal) then Ok((k + 1, next.(previous := Some(literal)))) else Err(Err(NotOneLiteral))
            else ReadOne(Put(pieces, k, literal), i, r) == Ok((j, next)) && FoundBefore(next, j)
  {
    NextTokenEarlier(pieces, k, literal, i + 1);
  }

  /** A reader that ends at the literal ends there still when the literal is replaced by one that can be
      read, and refuses the header when it cannot. */
  lemma {:induction false} ReadReplaced(pieces: seq<string>, k: nat, reference: string, i: nat, r: Reader)
    requires i <= k < |pieces| && IsLiteral(pieces[k]) && FoundBefore(r, i)
    requires Read(pieces, i, r) == Ok(k)
    ensures Read(Put(pieces, k, Quoted(reference)), i, r) ==
              if IsLiteral(Quoted(reference)) then Ok(k) else Err(NotOneLiteral)
    decreases k - i
  {
    var literal := Quoted(reference);
    LiteralComesLater(pieces, k, i, r);
    ReadOneEarlier(pieces, k, literal, i, r);
    var (j, next) := ReadOne(pieces, i, r).value;
    if j > k {
      ReadLater(pieces, k, literal, k + 1, next, next.(previous := Some(literal)));
    } else {
      ReadReplaced(pieces, k, reference, j, next);
    }
  }
}
