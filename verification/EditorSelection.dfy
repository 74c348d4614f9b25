/** Where selecting leads: the caret walks from grapheme to grapheme and the place it set out from stays. */
module EditorSelection {

  import opened Wrappers
  import opened TextUnits
  import opened TextInput
  import opened EditorInvariants
  import opened EditorLaws
  import opened EditorKeys

  /** Selecting to and fro: the caret's places, one key at a time. */
  ghost predicate Walks(starts: seq<nat>, size: nat, forwards: seq<bool>, places: seq<nat>) {
    && |places| == |forwards| + 1
    && forall i | 0 < i <= |forwards| :: WalksAt(starts, size, forwards, places, i)
  }

  ghost predicate WalksAt(starts: seq<nat>, size: nat, forwards: seq<bool>, places: seq<nat>, i: int) {
    && 0 < i <= |forwards| && i < |places|
    && places[i] == if forwards[i - 1] then NextStart(starts, places[i - 1], size) else Previous(starts, places[i - 1])
  }

  /** The editors the same keys leave. */
  ghost predicate Selects(starts: seq<nat>, forwards: seq<bool>, editors: seq<Editor>) {
    && |editors| == |forwards| + 1
    && forall i | 0 < i <= |forwards| :: SelectsAt(starts, forwards, editors, i)
  }

  ghost predicate SelectsAt(starts: seq<nat>, forwards: seq<bool>, editors: seq<Editor>, i: int) {
    && 0 < i <= |forwards| && i < |editors|
    && editors[i] == Pressed(editors[i - 1], if forwards[i - 1] then SelectRight else SelectLeft, starts)
  }

  /** An editor that selects what lies between two offsets, its caret at the second. */
  function Between(e: Editor, anchor: nat, caret: nat): Editor {
    if anchor <= caret then e.(selection := Span(anchor, caret), reversed := false)
    else e.(selection := Span(caret, anchor), reversed := true)
  }

  lemma SelectsOn(e: Editor, anchor: nat, caret: nat, forward: bool, starts: seq<nat>, size: nat)
    requires size == Size(Utf8, e.content)
    ensures Pressed(Between(e, anchor, caret), if forward then SelectRight else SelectLeft, starts) ==
            Between(e, anchor, if forward then NextStart(starts, caret, size) else Previous(starts, caret))
  {
  }

  /** However a selection is walked from a caret, it is what lies between the caret's first place and its last,
      and nothing else changes. */
  lemma {:induction false} SelectingWalks(
    e: Editor, starts: seq<nat>, forwards: seq<bool>, places: seq<nat>, editors: seq<Editor>, n: nat)
    requires Walks(starts, Size(Utf8, e.content), forwards, places) && Selects(starts, forwards, editors)
    requires editors[0] == e == MovedTo(e, places[0]) && n <= |forwards|
    ensures editors[n] == Between(e, places[0], places[n])
  {
    if n > 0 {
      SelectingWalks(e, starts, forwards, places, editors, n - 1);
      assert SelectsAt(starts, forwards, editors, n) && WalksAt(starts, Size(Utf8, e.content), forwards, places, n);
      SelectsOn(e, places[0], places[n - 1], forwards[n - 1], starts, Size(Utf8, e.content));
    }
  }

  /** Leaving a walk by a key that moves goes to the end of the selection on that side; or, when the walk came
      back to where it set out from, one grapheme on. */
  lemma LeavingAWalk(e: Editor, starts: seq<nat>, anchor: nat, caret: nat)
    ensures var walked, size := Between(e, anchor, caret), Size(Utf8, e.content);
            && Pressed(walked, Left, starts) ==
                 MovedTo(e, if anchor == caret then Previous(starts, caret)
                            else if anchor < caret then anchor else caret)
            && Pressed(walked, Right, starts) ==
                 MovedTo(e, if anchor == caret then NextStart(starts, caret, size)
                            else if anchor < caret then caret else anchor)
  {
  }

  /** Typing over a walk replaces what lies between the two places, whichever comes first. */
  lemma {:induction false} TypingOverAWalk(e: Editor, anchor: nat, caret: nat, t: Text)
    requires e.enabled && e.marked == None && OneLine(t)
    requires IsBoundary(e.content, anchor) && IsBoundary(e.content, caret)
    requires var from, to := if anchor < caret then anchor else caret, if anchor < caret then caret else anchor;
             Size(Utf8, Spliced(e.content, Span(from, to), t)) <= MAX_TEXT_BYTES
    ensures var from, to := if anchor < caret then anchor else caret, if anchor < caret then caret else anchor;
            Replaced(Between(e, anchor, caret), None, t) ==
              Committed(e, Before(e.content, from) + t + After(e.content, to), from + Size(Utf8, t))
  {
    var from, to := if anchor < caret then anchor else caret, if anchor < caret then caret else anchor;
    TypedThere(Between(e, anchor, caret), Span(from, to), t, Spliced(e.content, Span(from, to), t),
               from + Size(Utf8, t));
  }

  /** Selecting all leaves the caret at the end: selecting back from there gives up the last grapheme. */
  lemma SelectAllThenBack(e: Editor, starts: seq<nat>)
    ensures var size := Size(Utf8, e.content);
            && Pressed(e, SelectAll, starts) == Between(e, 0, size)
            && Pressed(Pressed(e, SelectAll, starts), SelectLeft, starts) == Between(e, 0, Previous(starts, size))
  {
  }

  // The side the caret is on.

  /** The caret is said to be at the start only of a selection that holds something. */
  predicate ReversedSelects(e: Editor) {
    e.reversed ==> e.selection.start < e.selection.end
  }

  lemma PressReversedSelects(e: Editor, key: Key, starts: seq<nat>)
    requires ReversedSelects(e)
    ensures ReversedSelects(Pressed(e, key, starts))
  {
  }

  lemma ApplyReversedSelects(e: Editor, op: Operation)
    requires ReversedSelects(e)
    ensures ReversedSelects(Apply(e, op))
  {
    match op
    case Press(key, starts) => PressReversedSelects(e, key, starts);
    case _ =>
  }

  /** On every run of operations, whatever ranges the platform sent. */
  lemma {:induction false} ReversedAlwaysSelects(editors: seq<Editor>, ops: seq<Operation>, n: nat)
    requires IsRun(editors, ops) && n <= |ops|
    ensures ReversedSelects(editors[n])
  {
    if n > 0 {
      ReversedAlwaysSelects(editors, ops, n - 1);
      ApplyReversedSelects(editors[n - 1], ops[n - 1]);
    }
  }

  /** A backwards range is no room: a text put at one is admitted exactly when it is one line and fits besides all
      of the content. */
  lemma BackwardsAdmittedExactly(e: Editor, target: Span, text: Text)
    requires target.start >= target.end
    ensures Admits(e, target, text) <==>
              && (forall i | 0 <= i < |text| :: text[i] != 0x0A && text[i] != 0x0D)
              && Size(Utf8, e.content) + Size(Utf8, text) <= MAX_TEXT_BYTES
  {
    if forall i | 0 <= i < |text| :: text[i] != 0x0A && text[i] != 0x0D {
      assert OneLine(text);
    }
  }
}
