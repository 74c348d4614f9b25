/** What editing does, told by what one operation does after another: typing in pieces, composing before
    committing, erasing what was typed, replacing all. */
module EditorLaws {

  import opened Wrappers
  import opened TextUnits
  import opened TextInput
  import opened EditorInvariants

  // Splicing.

  lemma {:induction false} Associative(a: Text, b: Text, c: Text)
    ensures a + b + c == a + (b + c)
  {
  }

  /** The text around the boundary between two texts. */
  lemma {:induction false} CutBetween(content: Text, before: Text, rest: Text, k: nat)
    requires content == before + rest && k == Size(Utf8, before)
    ensures IsBoundary(content, k) && Before(content, k) == before && After(content, k) == rest
  {
    assert content[..|before|] == before && content[|before|..] == rest;
    SearchPrefix(Utf8, content, |before|);
  }

  lemma {:induction false} CutAround(content: Text, head: Text, text: Text, tail: Text, start: nat, end: nat)
    requires content == head + text + tail && start == Size(Utf8, head) && end == start + Size(Utf8, text)
    ensures Before(content, start) == head && Before(content, end) == head + text && After(content, end) == tail
    ensures IsBoundary(content, start) && IsBoundary(content, end)
  {
    var front, back := head + text, text + tail;
    assert content == head + back;
    SizeConcat(Utf8, head, text);
    CutBetween(content, head, back, start);
    CutBetween(content, front, tail, end);
  }

  /** What stands before and after a text spliced in is what stood before and after what it replaced. */
  lemma {:induction false} SplicedAround(content: Text, target: Span, text: Text, after: Text, end: nat)
    requires IsBoundary(content, target.start) && IsBoundary(content, target.end)
    requires after == Spliced(content, target, text) && end == target.start + Size(Utf8, text)
    ensures Before(after, target.start) == Before(content, target.start)
    ensures Before(after, end) == Before(content, target.start) + text
    ensures After(after, end) == After(content, target.end)
    ensures IsBoundary(after, target.start) && IsBoundary(after, end)
  {
    SplitAtBoundary(content, target.start);
    CutAround(after, Before(content, target.start), text, After(content, target.end), target.start, end);
  }

  /** A second splice over the first undoes it. */
  lemma {:induction false} SpliceOver(content: Text, target: Span, p: Text, t: Text, after: Text, next: Span)
    requires IsBoundary(content, target.start) && IsBoundary(content, target.end)
    requires after == Spliced(content, target, p) && next == Span(target.start, target.start + Size(Utf8, p))
    ensures Spliced(after, next, t) == Spliced(content, target, t)
  {
    SplicedAround(content, target, p, after, next.end);
  }

  /** A second splice after the first extends it. */
  lemma {:induction false} SpliceAfter(content: Text, target: Span, a: Text, b: Text, after: Text, k: nat)
    requires IsBoundary(content, target.start) && IsBoundary(content, target.end)
    requires after == Spliced(content, target, a) && k == target.start + Size(Utf8, a)
    ensures Spliced(after, Caret(k), b) == Spliced(content, target, a + b)
  {
    SplicedAround(content, target, a, after, k);
    Associative(Before(content, target.start), a, b);
  }

  /** Whether a text may be put at a range: it is one line, and the content it makes fits. */
  ghost predicate Fitting(e: Editor, range: Option<Span>, text: Text) {
    && (forall i | 0 <= i < |text| :: text[i] != 0x0A && text[i] != 0x0D)
    && Size(Utf8, Spliced(e.content, Target(e, range), text)) <= MAX_TEXT_BYTES
  }

  /** An enabled editor whose range runs forwards takes a text exactly when it may be put there. */
  lemma {:induction false} AdmittedExactly(e: Editor, range: Option<Span>, text: Text)
    requires Placed(e.content, Target(e, range))
    ensures Admits(e, Target(e, range), text) <==> Fitting(e, range, text)
  {
    SplicedSize(e.content, Target(e, range), text);
    if forall i | 0 <= i < |text| :: text[i] != 0x0A && text[i] != 0x0D {
      assert OneLine(text);
    }
  }

  /** A disabled editor changes nothing; an enabled one takes a text, whole, exactly when it may be put there,
      and otherwise changes nothing either. */
  lemma {:induction false} TakenExactly(e: Editor, range: Option<Span>, text: Text, selected: Option<Span>)
    requires Placed(e.content, Target(e, range))
    ensures if e.enabled && Fitting(e, range, text) then
              var content := Spliced(e.content, Target(e, range), text);
              && Replaced(e, range, text).sent == e.sent + [Change(content)]
              && Replaced(e, range, text).content == Preedited(e, range, text, selected).content == content
            else Replaced(e, range, text) == Preedited(e, range, text, selected) == e
  {
    AdmittedExactly(e, range, text);
  }

  // Composing.

  /** An editor composing where `e` would put a text at a range: whatever is spliced over its preedit makes the
      content that splicing it there would. */
  ghost predicate ComposingAt(e: Editor, range: Option<Span>, composing: Editor) {
    && e.enabled && Placed(e.content, Target(e, range)) && composing.marked.Some?
    && composing.(content := e.content, selection := e.selection, reversed := e.reversed, marked := e.marked) == e
    && composing.marked.value.start == Target(e, range).start
    && Placed(composing.content, composing.marked.value)
    && forall t :: Spliced(composing.content, composing.marked.value, t) == Spliced(e.content, Target(e, range), t)
  }

  lemma {:induction false} Composing(e: Editor, range: Option<Span>, p: Text, selected: Option<Span>)
    returns (composing: Editor)
    requires e.enabled && Placed(e.content, Target(e, range)) && p != [] && Fitting(e, range, p)
    ensures composing == Preedited(e, range, p, selected) && ComposingAt(e, range, composing)
  {
    var target := Target(e, range);
    AdmittedExactly(e, range, p);
    composing := Preediting(e, target, p, selected);
    var after, next := composing.content, composing.marked.value;
    SplicedAround(e.content, target, p, after, next.end);
    forall t ensures Spliced(after, next, t) == Spliced(e.content, target, t) {
      SpliceOver(e.content, target, p, t, after, next);
    }
  }

  /** An editor that has just committed a content, its caret at an offset. */
  function Committed(e: Editor, content: Text, caret: nat): Editor {
    e.(content := content, selection := Caret(caret), reversed := false, marked := None,
       sent := e.sent + [Change(content)])
  }

  /** An editor that shows a preedit of `text` from an offset. */
  function Showing(e: Editor, content: Text, start: nat, text: Text, selected: Option<Span>): Editor {
    e.(content := content, selection := PreeditSelection(start, text, selected), reversed := false,
       marked := if |text| > 0 then Some(Span(start, start + Size(Utf8, text))) else None)
  }

  lemma {:induction false} Taken(e: Editor, range: Option<Span>, target: Span, text: Text, content: Text, k: nat)
    requires e.enabled && Target(e, range) == target && Placed(e.content, target) && Fitting(e, range, text)
    requires content == Spliced(e.content, target, text) && k == target.start + Size(Utf8, text)
    ensures Replaced(e, range, text) == Committed(e, content, k)
  {
    AdmittedExactly(e, range, text);
  }

  lemma {:induction false} TakenMarked(
    e: Editor, range: Option<Span>, target: Span, text: Text, selected: Option<Span>, content: Text)
    requires e.enabled && Target(e, range) == target && Placed(e.content, target) && Fitting(e, range, text)
    requires content == Spliced(e.content, target, text)
    ensures Preedited(e, range, text, selected) == Showing(e, content, target.start, text, selected)
  {
    AdmittedExactly(e, range, text);
  }

  /** Committing and composing over one content look alike on editors that differ in no more than that. */
  lemma {:induction false} LooksAlike(
    e: Editor, composing: Editor, content: Text, k: nat, start: nat, text: Text, selected: Option<Span>)
    requires composing.(content := e.content, selection := e.selection, reversed := e.reversed, marked := e.marked) == e
    ensures Committed(composing, content, k) == Committed(e, content, k)
    ensures Showing(composing, content, start, text, selected) == Showing(e, content, start, text, selected)
  {
  }

  /** It takes a text as `e` would, to commit it or to compose on. */
  lemma {:induction false} TakesAlike(
    e: Editor, range: Option<Span>, composing: Editor, t: Text, selected: Option<Span>)
    requires ComposingAt(e, range, composing) && Fitting(e, range, t)
    ensures Replaced(composing, None, t) == Replaced(e, range, t)
    ensures Preedited(composing, None, t, selected) == Preedited(e, range, t, selected)
  {
    var target, next := Target(e, range), composing.marked.value;
    var content := Spliced(e.content, target, t);
    assert content == Spliced(composing.content, next, t);
    var k := target.start + Size(Utf8, t);
    Taken(e, range, target, t, content, k);
    Taken(composing, None, next, t, content, k);
    TakenMarked(e, range, target, t, selected, content);
    TakenMarked(composing, None, next, t, selected, content);
    LooksAlike(e, composing, content, k, target.start, t, selected);
  }

  /** Composing leaves no trace: a commit in place of a preedit is a commit without it. */
  lemma {:induction false} ComposingLeavesNoTrace(
    e: Editor, range: Option<Span>, p: Text, selected: Option<Span>, t: Text)
    requires e.enabled && Placed(e.content, Target(e, range)) && p != []
    requires Fitting(e, range, p) && Fitting(e, range, t)
    ensures Replaced(Preedited(e, range, p, selected), None, t) == Replaced(e, range, t)
  {
    var composing := Composing(e, range, p, selected);
    TakesAlike(e, range, composing, t, None);
  }

  /** So does composing again: a preedit in place of a preedit is that preedit alone. */
  lemma {:induction false} PreeditReplacesPreedit(
    e: Editor, range: Option<Span>, p: Text, selected: Option<Span>, q: Text, selected': Option<Span>)
    requires e.enabled && Placed(e.content, Target(e, range)) && p != []
    requires Fitting(e, range, p) && Fitting(e, range, q)
    ensures Preedited(Preedited(e, range, p, selected), None, q, selected') == Preedited(e, range, q, selected')
  {
    var composing := Composing(e, range, p, selected);
    TakesAlike(e, range, composing, q, selected');
  }

  datatype Composition = Composition(text: Text, selected: Option<Span>)

  /** One preedit after another, the first at a range and each later one in place of the last. */
  ghost predicate Composes(e: Editor, range: Option<Span>, preedits: seq<Composition>, editors: seq<Editor>) {
    && |editors| == |preedits| + 1 && editors[0] == e
    && forall i | 0 < i <= |preedits| :: ComposesAt(range, preedits, editors, i)
  }

  ghost predicate ComposesAt(range: Option<Span>, preedits: seq<Composition>, editors: seq<Editor>, i: int) {
    && 0 < i <= |preedits| && i < |editors|
    && var preedit := preedits[i - 1];
       editors[i] == Preedited(editors[i - 1], if i == 1 then range else None, preedit.text, preedit.selected)
  }

  ghost predicate FittingAt(e: Editor, range: Option<Span>, preedits: seq<Composition>, i: int) {
    0 <= i < |preedits| && preedits[i].text != [] && Fitting(e, range, preedits[i].text)
  }

  lemma {:induction false} OnlyLastPreedit(
    e: Editor, range: Option<Span>, preedits: seq<Composition>, editors: seq<Editor>, n: nat)
    requires e.enabled && Placed(e.content, Target(e, range)) && Composes(e, range, preedits, editors)
    requires forall i | 0 <= i < |preedits| :: FittingAt(e, range, preedits, i)
    requires 0 < n <= |preedits|
    ensures editors[n] == Preedited(e, range, preedits[n - 1].text, preedits[n - 1].selected)
  {
    assert ComposesAt(range, preedits, editors, n);
    if n > 1 {
      OnlyLastPreedit(e, range, preedits, editors, n - 1);
      assert FittingAt(e, range, preedits, n - 2) && FittingAt(e, range, preedits, n - 1);
      PreeditReplacesPreedit(e, range, preedits[n - 2].text, preedits[n - 2].selected,
                             preedits[n - 1].text, preedits[n - 1].selected);
    }
  }

  /** However many preedits came before it, a commit is the commit alone. */
  lemma {:induction false} ComposingRunLeavesNoTrace(
    e: Editor, range: Option<Span>, preedits: seq<Composition>, editors: seq<Editor>, t: Text)
    requires e.enabled && Placed(e.content, Target(e, range)) && Composes(e, range, preedits, editors)
    requires forall i | 0 <= i < |preedits| :: FittingAt(e, range, preedits, i)
    requires preedits != [] && Fitting(e, range, t)
    ensures Replaced(editors[|preedits|], None, t) == Replaced(e, range, t)
  {
    var n := |preedits|;
    OnlyLastPreedit(e, range, preedits, editors, n);
    assert FittingAt(e, range, preedits, n - 1);
    ComposingLeavesNoTrace(e, range, preedits[n - 1].text, preedits[n - 1].selected, t);
  }

  /** Unmarking commits the preedit as it stands. */
  lemma {:induction false} UnmarkingCommits(e: Editor, range: Option<Span>, p: Text)
    requires e.enabled && Placed(e.content, Target(e, range)) && p != [] && Fitting(e, range, p)
    ensures Unmarked(Preedited(e, range, p, None)) == Replaced(e, range, p)
  {
    AdmittedExactly(e, range, p);
  }

  /** With no preedit, or disabled, and only then, unmarking changes nothing and sends nothing. */
  lemma {:induction false} NothingToUnmark(e: Editor)
    ensures Unmarked(e) == e <==> e.marked == None || !e.enabled
  {
    assert |e.sent + [Change(e.content)]| > |e.sent|;
  }

  // Typing.

  lemma {:induction false} CommitsTwice(e: Editor, first: Text, k: nat, second: Text, caret: nat)
    ensures Committed(Committed(e, first, k), second, caret).sent == e.sent + [Change(first), Change(second)]
    ensures var twice := Committed(Committed(e, first, k), second, caret);
            twice == Committed(e, second, caret).(sent := twice.sent)
  {
  }

  lemma {:induction false} SecondPiece(content: Text, target: Span, a: Text, b: Text, one: Text, k: nat)
    requires one == Spliced(content, target, a) && k == target.start + Size(Utf8, a)
    requires IsBoundary(content, target.start) && IsBoundary(content, target.end)
    requires forall i | 0 <= i < |a + b| :: (a + b)[i] != 0x0A && (a + b)[i] != 0x0D
    ensures IsBoundary(one, k) && Spliced(one, Caret(k), b) == Spliced(content, target, a + b)
    ensures forall i | 0 <= i < |b| :: b[i] != 0x0A && b[i] != 0x0D
  {
    SplicedAround(content, target, a, one, k);
    SpliceAfter(content, target, a, b, one, k);
    assert forall i | 0 <= i < |b| :: b[i] == (a + b)[|a| + i];
  }

  lemma {:induction false} SecondCommit(e: Editor, one: Text, k: nat, b: Text, both: Text, caret: nat)
    requires caret == k + Size(Utf8, b) && e.enabled && IsBoundary(one, k)
    requires Spliced(one, Caret(k), b) == both && Size(Utf8, both) <= MAX_TEXT_BYTES
    requires forall i | 0 <= i < |b| :: b[i] != 0x0A && b[i] != 0x0D
    ensures Replaced(Committed(e, one, k), None, b) == Committed(Committed(e, one, k), both, caret)
  {
    Taken(Committed(e, one, k), None, Caret(k), b, both, caret);
  }

  /** Typing in pieces is typing at once, but for what is sent on the way: the second piece lands after the
      first. */
  lemma {:induction false} TypingInPieces(e: Editor, range: Option<Span>, a: Text, b: Text)
    requires e.enabled && Placed(e.content, Target(e, range))
    requires Fitting(e, range, a) && Fitting(e, range, a + b)
    ensures var typed, once := Replaced(Replaced(e, range, a), None, b), Replaced(e, range, a + b);
            && typed == once.(sent := typed.sent)
            && typed.sent == e.sent + [Change(Replaced(e, range, a).content), Change(once.content)]
  {
    var target := Target(e, range);
    var one, both := Spliced(e.content, target, a), Spliced(e.content, target, a + b);
    var k, caret := target.start + Size(Utf8, a), target.start + Size(Utf8, a + b);
    SizeConcat(Utf8, a, b);
    Taken(e, range, target, a, one, k);
    Taken(e, range, target, a + b, both, caret);
    SecondPiece(e.content, target, a, b, one, k);
    SecondCommit(e, one, k, b, both, caret);
    CommitsTwice(e, one, k, both, caret);
  }
}
