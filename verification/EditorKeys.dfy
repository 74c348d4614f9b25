/** What the editing keys do, told by what typing then does. */
module EditorKeys {

  import opened Wrappers
  import opened TextUnits
  import opened TextInput
  import opened EditorInvariants
  import opened EditorLaws

  // Grapheme starts.

  ghost predicate Ascending(starts: seq<nat>) {
    forall i, j | 0 <= i < j < |starts| :: starts[i] < starts[j]
  }

  ghost predicate StartsBefore(starts: seq<nat>, offset: nat, i: nat) {
    i in starts && i < offset
  }

  ghost predicate StartsPast(starts: seq<nat>, offset: nat, i: nat) {
    i in starts && i > offset
  }

  /** The key that moves back goes to the greatest grapheme start before the caret, or to the beginning. */
  lemma {:induction false} PreviousIsGreatest(starts: seq<nat>, offset: nat)
    requires Ascending(starts)
    ensures var p := Previous(starts, offset);
            && (forall i: nat | StartsBefore(starts, offset, i) :: i <= p && StartsBefore(starts, offset, p))
            && ((forall i: nat :: !StartsBefore(starts, offset, i)) ==> p == 0)
  {
    if starts != [] {
      var rest, last := starts[..|starts| - 1], starts[|starts| - 1];
      assert starts == rest + [last];
      if last >= offset {
        PreviousIsGreatest(rest, offset);
        assert forall i: nat :: StartsBefore(starts, offset, i) <==> StartsBefore(rest, offset, i);
      } else {
        assert StartsBefore(starts, offset, last);
      }
    }
  }

  /** The key that moves on goes to the least grapheme start past the caret, or to the end. */
  lemma {:induction false} NextIsLeast(starts: seq<nat>, offset: nat, end: nat)
    requires Ascending(starts)
    ensures var n := NextStart(starts, offset, end);
            && (forall i: nat | StartsPast(starts, offset, i) :: n <= i && StartsPast(starts, offset, n))
            && ((forall i: nat :: !StartsPast(starts, offset, i)) ==> n == end)
  {
    if starts != [] {
      var rest := starts[1..];
      assert starts == [starts[0]] + rest;
      if starts[0] <= offset {
        NextIsLeast(rest, offset, end);
        assert forall i: nat :: StartsPast(starts, offset, i) <==> StartsPast(rest, offset, i);
      } else {
        assert StartsPast(starts, offset, starts[0]);
      }
    }
  }

  /** The start before the start past a start is that start. */
  lemma {:induction false} BackAgain(starts: seq<nat>, c: nat, end: nat)
    requires Ascending(starts) && c in starts && c < end && forall i | i in starts :: i < end
    ensures c < NextStart(starts, c, end) && Previous(starts, NextStart(starts, c, end)) == c
  {
    var n := NextStart(starts, c, end);
    NextIsLeast(starts, c, end);
    PreviousIsGreatest(starts, n);
    if forall i: nat :: !StartsPast(starts, c, i) {
      assert n == end;
    }
    assert StartsBefore(starts, n, c);
    var p := Previous(starts, n);
    assert StartsPast(starts, c, p) <==> p > c;
  }

  /** Moving on and back again returns to the grapheme the caret was at. */
  lemma {:induction false} RightThenLeft(e: Editor, starts: seq<nat>)
    requires Ascending(starts) && e.selection == Caret(e.selection.start)
    requires e.selection.start in starts && e.selection.start < Size(Utf8, e.content)
    requires forall i | i in starts :: i < Size(Utf8, e.content)
    ensures var moved := Pressed(e, Right, starts);
            && moved.selection.start == moved.selection.end > e.selection.start
            && Pressed(moved, Left, starts).selection == e.selection
  {
    BackAgain(starts, e.selection.start, Size(Utf8, e.content));
  }

  /** So does selecting on and back. */
  lemma {:induction false} SelectRightThenLeft(e: Editor, starts: seq<nat>)
    requires Ascending(starts) && e.selection == Caret(e.selection.start) && !e.reversed
    requires e.selection.start in starts && e.selection.start < Size(Utf8, e.content)
    requires forall i | i in starts :: i < Size(Utf8, e.content)
    ensures var selecting := Pressed(e, SelectRight, starts);
            && selecting.selection.start == e.selection.start < selecting.selection.end
            && Pressed(selecting, SelectLeft, starts) == e
  {
    BackAgain(starts, e.selection.start, Size(Utf8, e.content));
  }

  /** From a caret, erasing is selecting one grapheme and erasing the selection. */
  lemma {:induction false} ErasingIsSelecting(e: Editor, starts: seq<nat>)
    requires e.enabled && e.selection == Caret(e.selection.start) && !e.reversed
    requires Previous(starts, e.selection.start) < e.selection.start
    requires e.selection.start < NextStart(starts, e.selection.start, Size(Utf8, e.content))
    ensures Pressed(e, Backspace, starts) == Pressed(Pressed(e, SelectLeft, starts), Backspace, starts)
    ensures Pressed(e, Delete, starts) == Pressed(Pressed(e, SelectRight, starts), Delete, starts)
    ensures Pressed(Pressed(e, SelectLeft, starts), Delete, starts) == Pressed(e, Backspace, starts)
  {
  }

  /** With a selection, moving back goes to its start and moving on to its end. */
  lemma {:induction false} MovingCollapses(e: Editor, starts: seq<nat>)
    requires e.selection.start < e.selection.end
    ensures Cursor(Pressed(e, Left, starts)) == e.selection.start
    ensures Cursor(Pressed(e, Right, starts)) == e.selection.end
  {
  }

  // Typing where a key leads.

  lemma {:induction false} WholeAround(content: Text, size: nat)
    requires size == Size(Utf8, content)
    ensures IsBoundary(content, 0) && IsBoundary(content, size)
    ensures Before(content, 0) == [] && After(content, 0) == content
    ensures Before(content, size) == content && After(content, size) == []
  {
    var none: Text := [];
    assert none + content == content && content + none == content;
    CutBetween(content, none, content, 0);
    CutBetween(content, content, none, size);
  }

  lemma {:induction false} Units(t: Text, content: Text)
    ensures [] + t + [] == t && [] + t + content == t + content && content + t + [] == content + t
  {
  }

  lemma {:induction false} SplicedWhole(content: Text, size: nat, t: Text)
    requires size == Size(Utf8, content)
    ensures Placed(content, Span(0, size)) && Placed(content, Caret(0)) && Placed(content, Caret(size))
    ensures Spliced(content, Span(0, size), t) == t
    ensures Spliced(content, Caret(0), t) == t + content && Spliced(content, Caret(size), t) == content + t
  {
    WholeAround(content, size);
    Units(t, content);
  }

  /** Typing at a place a key has led to. */
  lemma {:induction false} TypedThere(e: Editor, span: Span, t: Text, content: Text, k: nat)
    requires e.enabled && e.marked == None && e.selection == span && Placed(e.content, span) && OneLine(t)
    requires content == Spliced(e.content, span, t) && Size(Utf8, content) <= MAX_TEXT_BYTES
    requires k == span.start + Size(Utf8, t)
    ensures Replaced(e, None, t) == Committed(e, content, k)
  {
    assert forall i | 0 <= i < |t| :: t[i] in t;
    Taken(e, None, span, t, content, k);
  }

  /** Selecting all and typing replaces everything. */
  lemma {:induction false} SelectAllReplaces(e: Editor, starts: seq<nat>, t: Text)
    requires e.enabled && e.marked == None && OneLine(t) && Size(Utf8, t) <= MAX_TEXT_BYTES
    ensures var all := Pressed(e, SelectAll, starts);
            Replaced(all, None, t) == Committed(all, t, Size(Utf8, t))
  {
    var size := Size(Utf8, e.content);
    SplicedWhole(e.content, size, t);
    TypedThere(e.(selection := Span(0, size), reversed := false), Span(0, size), t, t, Size(Utf8, t));
  }

  /** A new editor's caret is at the start: typing puts the text first. */
  lemma {:induction false} NewPrepends(value: Text, t: Text)
    requires OneLine(t) && Size(Utf8, t + value) <= MAX_TEXT_BYTES
    ensures Replaced(Initial(value, true), None, t).content == t + value
    ensures Replaced(Initial(value, false), None, t) == Initial(value, false)
  {
    SplicedWhole(value, Size(Utf8, value), t);
    TypedThere(Initial(value, true), Caret(0), t, t + value, Size(Utf8, t));
  }

  /** Going home and typing puts the text first. */
  lemma {:induction false} HomePrepends(e: Editor, starts: seq<nat>, t: Text)
    requires e.enabled && e.marked == None && OneLine(t) && Size(Utf8, t + e.content) <= MAX_TEXT_BYTES
    ensures Replaced(Pressed(e, Home, starts), None, t).content == t + e.content
  {
    SplicedWhole(e.content, Size(Utf8, e.content), t);
    TypedThere(MovedTo(e, 0), Caret(0), t, t + e.content, Size(Utf8, t));
  }

  /** Going to the end and typing puts it last. */
  lemma {:induction false} EndAppends(e: Editor, starts: seq<nat>, t: Text)
    requires e.enabled && e.marked == None && OneLine(t) && Size(Utf8, e.content + t) <= MAX_TEXT_BYTES
    ensures Replaced(Pressed(e, End, starts), None, t).content == e.content + t
  {
    var size := Size(Utf8, e.content);
    SplicedWhole(e.content, size, t);
    TypedThere(MovedTo(e, size), Caret(size), t, e.content + t, size + Size(Utf8, t));
  }

  /** Erasing just after typing one grapheme undoes the typing. */
  lemma {:induction false} BackspaceUndoesTyping(
    e: Editor, range: Option<Span>, c: Text, starts: seq<nat>, typed: Editor, k: nat)
    requires e.enabled && Placed(e.content, Target(e, range)) && c != [] && Fitting(e, range, c)
    requires typed == Replaced(e, range, c) && k == Target(e, range).start + Size(Utf8, c)
    requires Ascending(starts) && Target(e, range).start in starts
    requires forall i | i in starts :: i <= Target(e, range).start || i >= k
    ensures Pressed(typed, Backspace, starts).content == Spliced(e.content, Target(e, range), [])
    ensures Pressed(typed, Backspace, starts).selection == Caret(Target(e, range).start)
  {
    var target := Target(e, range);
    var next := Span(target.start, k);
    var one := Spliced(e.content, target, c);
    SomeSize(c);
    Taken(e, range, target, c, one, k);
    PreviousIsGreatest(starts, k);
    assert StartsBefore(starts, k, target.start);
    SplicedAround(e.content, target, c, one, k);
    SpliceOver(e.content, target, c, [], one, next);
    Erased(typed, target.start, k, Spliced(e.content, target, []), starts);
  }

  lemma {:induction false} SomeSize(c: Text)
    requires c != []
    ensures Size(Utf8, c) > 0
  {
  }

  lemma {:induction false} Erased(e: Editor, from: nat, k: nat, content: Text, starts: seq<nat>)
    requires e.enabled && e.marked == None && e.selection == Caret(k) && !e.reversed
    requires Previous(starts, k) == from < k && Placed(e.content, Span(from, k))
    requires content == Spliced(e.content, Span(from, k), []) && Size(Utf8, e.content) <= MAX_TEXT_BYTES
    ensures Pressed(e, Backspace, starts).content == content
    ensures Pressed(e, Backspace, starts).selection == Caret(from)
  {
    var selecting := SelectedTo(e, from);
    assert selecting.selection == Span(from, k);
    SplicedSize(e.content, Span(from, k), []);
    Taken(selecting, None, Span(from, k), [], content, from);
  }

  /** What was typed over everything is submitted as it is. */
  lemma {:induction false} EnterSubmits(e: Editor, starts: seq<nat>, t: Text)
    requires e.enabled && e.marked == None && OneLine(t) && Size(Utf8, t) <= MAX_TEXT_BYTES
    ensures var typed := Replaced(Pressed(e, SelectAll, starts), None, t);
            Pressed(typed, Enter, starts) == typed.(sent := typed.sent + [Submitted(t)])
  {
    SelectAllReplaces(e, starts, t);
  }

  /** Disabled, the keys that would erase or submit leave everything as it is, the selection too. */
  lemma {:induction false} DisabledKeepsAll(e: Editor, key: Key, starts: seq<nat>)
    requires !e.enabled && (key == Backspace || key == Delete || key == Enter)
    ensures Pressed(e, key, starts) == e
  {
  }

  /** A preedit in progress, or a disabled editor, submits nothing. */
  lemma {:induction false} NothingSubmitted(e: Editor, starts: seq<nat>)
    ensures e.marked.Some? || !e.enabled <==> Pressed(e, Enter, starts) == e
  {
    assert |e.sent + [Submitted(e.content)]| > |e.sent|;
  }

  // Where a preedit is selected.

  /** The selection the platform asked for within a preedit reads back in its own units, from where the preedit
      starts; with none asked, the caret is after the preedit. */
  lemma {:induction false} PreeditSelectionReadsBack(start: nat, text: Text, r: Span, i: nat, j: nat)
    requires i <= |text| && j <= |text|
    requires r.start == Size(Utf16, text[..i]) && r.end == Size(Utf16, text[..j])
    ensures PreeditSelection(start, text, Some(r)) ==
              Span(start + Size(Utf8, text[..i]), start + Size(Utf8, text[..j]))
    ensures PreeditSelection(start, text, None) == Caret(start + Size(Utf8, text))
  {
    SearchPrefix(Utf16, text, i);
    SearchPrefix(Utf16, text, j);
  }
}
