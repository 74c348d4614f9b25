/** Through any sequence of edits, preedits, key presses and answers, the editor stays within its limit
    and its ranges stay ordered and on character boundaries. */
module EditorInvariants {

  import opened Wrappers
  import opened TextUnits
  import opened TextInput

  datatype Operation =
    | Configure(value: Text, enabled: bool)
    | Begin(submitted: Text)
    | Acknowledge(submitted: Text)
    | Replace(range: Option<Span>, text: Text)
    | Preedit(range: Option<Span>, text: Text, selected: Option<Span>)
    | Unmark
    | Press(key: Key, starts: seq<nat>)

  function Apply(e: Editor, op: Operation): Editor {
    match op
    case Configure(value, enabled) => Configured(e, value, enabled)
    case Begin(submitted) => Begun(e, submitted)
    case Acknowledge(submitted) => Acknowledged(e, submitted)
    case Replace(range, text) => Replaced(e, range, text)
    case Preedit(range, text, selected) => Preedited(e, range, text, selected)
    case Unmark => Unmarked(e)
    case Press(key, starts) => Pressed(e, key, starts)
  }

  // What every operation keeps.

  ghost predicate Placed(content: Text, span: Span) {
    span.start <= span.end && IsBoundary(content, span.start) && IsBoundary(content, span.end)
  }

  /** The selection and the preedit start and end on character boundaries, and the preedit runs forwards. */
  ghost predicate Anchored(e: Editor) {
    && IsBoundary(e.content, e.selection.start) && IsBoundary(e.content, e.selection.end)
    && (e.marked.Some? ==> Placed(e.content, e.marked.value))
  }

  predicate WithinLimit(e: Editor) {
    Size(Utf8, e.content) <= MAX_TEXT_BYTES && Size(Utf8, e.controlled) <= MAX_TEXT_BYTES
  }

  predicate SelectionOrdered(e: Editor) {
    e.selection.start <= e.selection.end
  }

  /** Content and controlled value stay within the limit; selection and preedit are ordered ranges that
      start and end on character boundaries. */
  ghost predicate Valid(e: Editor) {
    WithinLimit(e) && Anchored(e) && SelectionOrdered(e)
  }

  /** What the callers owe: values the application may set, and grapheme starts that are character
      boundaries. The ranges the platform sends may be any. */
  ghost predicate Owed(e: Editor, op: Operation) {
    match op
    case Configure(value, _) => Size(Utf8, value) <= MAX_TEXT_BYTES
    case Press(_, starts) => forall i | i in starts :: IsBoundary(e.content, i)
    case _ => true
  }

  /** Every slice a replacement takes is at a boundary, so none of them can panic. */
  lemma TargetPlaced(e: Editor, range: Option<Span>)
    requires Anchored(e)
    ensures IsBoundary(e.content, Target(e, range).start) && IsBoundary(e.content, Target(e, range).end)
    ensures range.Some? && range.value.start <= range.value.end ==> Placed(e.content, Target(e, range))
  {
    if range.Some? {
      LeastBoundary(e.content, range.value.start);
      LeastBoundary(e.content, range.value.end);
      if range.value.start <= range.value.end {
        OffsetsAreOrdered(e.content, range.value.start, range.value.end);
      }
    }
  }

  lemma SplicedSize(content: Text, target: Span, text: Text)
    requires IsBoundary(content, target.start) && IsBoundary(content, target.end)
    ensures Size(Utf8, Spliced(content, target, text)) ==
            target.start + Size(Utf8, text) + Size(Utf8, content) - target.end
  {
    SplitAtBoundary(content, target.start);
    SplitAtBoundary(content, target.end);
    SizeConcat(Utf8, Before(content, target.start), text);
    SizeConcat(Utf8, Before(content, target.start) + text, After(content, target.end));
  }

  /** A boundary of the inserted text is a boundary of the content it was inserted into. */
  lemma SplicedBoundary(content: Text, target: Span, text: Text, b: nat)
    requires IsBoundary(content, target.start) && IsBoundary(text, b)
    ensures IsBoundary(Spliced(content, target, text), target.start + b)
  {
    SplitAtBoundary(content, target.start);
    BoundaryInside(Before(content, target.start), text, After(content, target.end), b);
  }

  lemma EndPlaced(value: Text)
    ensures Placed(value, Caret(Size(Utf8, value)))
  {
    EndsAreBoundaries(value);
  }

  lemma ConfiguredAnchored(e: Editor, value: Text, enabled: bool)
    requires Anchored(e)
    ensures Anchored(Configured(e, value, enabled))
  {
    EndPlaced(value);
  }

  lemma AcknowledgedAnchored(e: Editor, submitted: Text)
    requires Anchored(e)
    ensures Anchored(Acknowledged(e, submitted))
  {
    EndPlaced(e.controlled);
  }

  lemma ReplacedAnchored(e: Editor, range: Option<Span>, text: Text)
    requires Anchored(e)
    ensures Anchored(Replaced(e, range, text))
  {
    TargetPlaced(e, range);
    EndsAreBoundaries(text);
    SplicedBoundary(e.content, Target(e, range), text, Size(Utf8, text));
  }

  lemma PreeditPlaced(content: Text, target: Span, text: Text, selected: Option<Span>)
    requires IsBoundary(content, target.start)
    ensures Placed(Spliced(content, target, text), Span(target.start, target.start + Size(Utf8, text)))
    ensures var selection, after := PreeditSelection(target.start, text, selected), Spliced(content, target, text);
            IsBoundary(after, selection.start) && IsBoundary(after, selection.end)
  {
    EndsAreBoundaries(text);
    SplicedBoundary(content, target, text, 0);
    SplicedBoundary(content, target, text, Size(Utf8, text));
    if selected.Some? {
      var from, to := selected.value.start, selected.value.end;
      LeastBoundary(text, from);
      LeastBoundary(text, to);
      SplicedBoundary(content, target, text, ByteOffset(text, from));
      SplicedBoundary(content, target, text, ByteOffset(text, to));
    }
  }

  lemma PreeditedAnchored(e: Editor, range: Option<Span>, text: Text, selected: Option<Span>)
    requires Anchored(e)
    ensures Anchored(Preedited(e, range, text, selected))
  {
    TargetPlaced(e, range);
    PreeditPlaced(e.content, Target(e, range), text, selected);
  }

  lemma {:induction false} PreviousBoundary(content: Text, starts: seq<nat>, offset: nat)
    requires forall i | i in starts :: IsBoundary(content, i)
    ensures IsBoundary(content, Previous(starts, offset))
  {
    if starts == [] {
      EndsAreBoundaries(content);
    } else {
      PreviousBoundary(content, starts[..|starts| - 1], offset);
      assert starts[|starts| - 1] in starts;
    }
  }

  lemma {:induction false} NextBoundary(content: Text, starts: seq<nat>, offset: nat)
    requires forall i | i in starts :: IsBoundary(content, i)
    ensures IsBoundary(content, NextStart(starts, offset, Size(Utf8, content)))
  {
    if starts == [] {
      EndsAreBoundaries(content);
    } else {
      NextBoundary(content, starts[1..], offset);
      assert starts[0] in starts;
    }
  }

  lemma SelectedAnchored(e: Editor, offset: nat)
    requires Anchored(e) && IsBoundary(e.content, offset)
    ensures Anchored(SelectedTo(e, offset)) && Anchored(MovedTo(e, offset))
  {
  }

  lemma ErasedAnchored(e: Editor, neighbour: nat)
    requires Anchored(e) && IsBoundary(e.content, neighbour)
    ensures Anchored(Replaced(e, None, [])) && Anchored(Replaced(SelectedTo(e, neighbour), None, []))
  {
    SelectedAnchored(e, neighbour);
    ReplacedAnchored(e, None, []);
    ReplacedAnchored(SelectedTo(e, neighbour), None, []);
  }

  lemma PressedAnchored(e: Editor, key: Key, starts: seq<nat>)
    requires Anchored(e) && forall i | i in starts :: IsBoundary(e.content, i)
    ensures Anchored(Pressed(e, key, starts))
  {
    var back, forth := Previous(starts, Cursor(e)), NextStart(starts, Cursor(e), Size(Utf8, e.content));
    PreviousBoundary(e.content, starts, Cursor(e));
    NextBoundary(e.content, starts, Cursor(e));
    match key
    case Left => SelectedAnchored(e, back);
    case Right => SelectedAnchored(e, forth);
    case SelectLeft => SelectedAnchored(e, back);
    case SelectRight => SelectedAnchored(e, forth);
    case Backspace => ErasedAnchored(e, back);
    case Delete => ErasedAnchored(e, forth);
    case Enter =>
    case _ => EndsAreBoundaries(e.content);
  }

  /** Whatever the platform asks for, every range stays on character boundaries. */
  lemma ApplyAnchored(e: Editor, op: Operation)
    requires Anchored(e) && Owed(e, op)
    ensures Anchored(Apply(e, op))
  {
    match op
    case Configure(value, enabled) => ConfiguredAnchored(e, value, enabled);
    case Begin(_) =>
    case Acknowledge(submitted) => AcknowledgedAnchored(e, submitted);
    case Replace(range, text) => ReplacedAnchored(e, range, text);
    case Preedit(range, text, selected) => PreeditedAnchored(e, range, text, selected);
    case Unmark =>
    case Press(key, starts) => PressedAnchored(e, key, starts);
  }

  // Ranges that run backwards.

  /** The limit is checked against the length of the range replaced, which is nothing for one that runs
      backwards, while the splice then repeats the text between its ends. */
  predicate Overfills(e: Editor, range: Option<Span>, text: Text) {
    var target := Target(e, range);
    && e.enabled && Admits(e, target, text) && target.start > target.end
    && Size(Utf8, e.content) + Size(Utf8, text) + (target.start - target.end) > MAX_TEXT_BYTES
  }

  predicate Overflows(e: Editor, op: Operation) {
    match op
    case Replace(range, text) => Overfills(e, range, text)
    case Preedit(range, text, _) => Overfills(e, range, text)
    case _ => false
  }

  /** A replacement or a preedit keeps the limit exactly when its range runs forwards, it is refused, or there
      was room for the repetition too. */
  lemma LimitKeptExactly(e: Editor, range: Option<Span>, text: Text, selected: Option<Span>)
    requires Anchored(e) && WithinLimit(e)
    ensures WithinLimit(Replaced(e, range, text)) <==> !Overfills(e, range, text)
    ensures WithinLimit(Preedited(e, range, text, selected)) <==> !Overfills(e, range, text)
  {
    TargetPlaced(e, range);
    SplicedSize(e.content, Target(e, range), text);
  }

  /** Erasing takes a range that runs forwards. */
  lemma EraseKeepsLimit(e: Editor, neighbour: nat)
    requires Anchored(e) && WithinLimit(e) && IsBoundary(e.content, neighbour)
    ensures var from := if e.selection.start >= e.selection.end then SelectedTo(e, neighbour) else e;
            WithinLimit(Replaced(from, None, []))
  {
    var from := if e.selection.start >= e.selection.end then SelectedTo(e, neighbour) else e;
    SelectedAnchored(e, neighbour);
    assert Anchored(from) && WithinLimit(from) && from.selection.start <= from.selection.end;
    LimitKeptExactly(from, None, [], None);
  }

  lemma PressKeepsLimit(e: Editor, key: Key, starts: seq<nat>)
    requires Anchored(e) && WithinLimit(e) && Owed(e, Press(key, starts))
    ensures WithinLimit(Pressed(e, key, starts))
  {
    match key
    case Backspace =>
      PreviousBoundary(e.content, starts, Cursor(e));
      EraseKeepsLimit(e, Previous(starts, Cursor(e)));
    case Delete =>
      NextBoundary(e.content, starts, Cursor(e));
      EraseKeepsLimit(e, NextStart(starts, Cursor(e), Size(Utf8, e.content)));
    case _ =>
  }

  lemma ApplyWithinLimit(e: Editor, op: Operation)
    requires Anchored(e) && WithinLimit(e) && Owed(e, op)
    ensures WithinLimit(Apply(e, op)) <==> !Overflows(e, op)
  {
    match op
    case Replace(range, text) => LimitKeptExactly(e, range, text, None);
    case Preedit(range, text, selected) => LimitKeptExactly(e, range, text, selected);
    case Press(key, starts) => PressKeepsLimit(e, key, starts);
    case _ =>
  }

  /** The platform places the selection of an admitted preedit backwards. */
  predicate Misorders(e: Editor, op: Operation) {
    && op.Preedit? && e.enabled && Admits(e, Target(e, op.range), op.text)
    && op.selected.Some? && ByteOffset(op.text, op.selected.value.start) > ByteOffset(op.text, op.selected.value.end)
  }

  lemma PressOrdered(e: Editor, key: Key, starts: seq<nat>)
    requires SelectionOrdered(e)
    ensures SelectionOrdered(Pressed(e, key, starts))
  {
    match key
    case Backspace => EraseOrdered(e, Previous(starts, Cursor(e)));
    case Delete => EraseOrdered(e, NextStart(starts, Cursor(e), Size(Utf8, e.content)));
    case _ =>
  }

  lemma EraseOrdered(e: Editor, neighbour: nat)
    requires SelectionOrdered(e)
    ensures SelectionOrdered(Replaced(e, None, [])) && SelectionOrdered(Replaced(SelectedTo(e, neighbour), None, []))
  {
  }

  lemma ApplyOrdered(e: Editor, op: Operation)
    requires SelectionOrdered(e)
    ensures SelectionOrdered(Apply(e, op)) <==> !Misorders(e, op)
  {
    match op
    case Press(key, starts) => PressOrdered(e, key, starts);
    case Replace(range, text) => assert SelectionOrdered(Replaced(e, range, text));
    case _ =>
  }

  // Runs.

  ghost predicate IsRun(editors: seq<Editor>, ops: seq<Operation>) {
    && |editors| == |ops| + 1
    && (exists value, enabled :: Size(Utf8, value) <= MAX_TEXT_BYTES && editors[0] == Initial(value, enabled))
    && forall i | 0 <= i < |ops| :: Owed(editors[i], ops[i]) && editors[i + 1] == Apply(editors[i], ops[i])
  }

  lemma InitialValid(value: Text, enabled: bool)
    requires Size(Utf8, value) <= MAX_TEXT_BYTES
    ensures Valid(Initial(value, enabled))
  {
    EndsAreBoundaries(value);
  }

  /** On every run, after every operation, the selection and the marked range are on character boundaries. */
  lemma {:induction false} RunAnchored(editors: seq<Editor>, ops: seq<Operation>, n: nat)
    requires IsRun(editors, ops) && n <= |ops|
    ensures Anchored(editors[n])
  {
    if n == 0 {
      EndsAreBoundaries(editors[0].content);
    } else {
      RunAnchored(editors, ops, n - 1);
      assert editors[(n - 1) + 1] == Apply(editors[n - 1], ops[n - 1]);
      ApplyAnchored(editors[n - 1], ops[n - 1]);
    }
  }

  /** On every run: the content is within one MiB throughout, exactly when no admitted replacement or preedit
      of the run takes a backwards range it has no room to repeat. */
  lemma AlwaysWithinLimitExactly(editors: seq<Editor>, ops: seq<Operation>)
    requires IsRun(editors, ops)
    ensures (forall n | 0 <= n < |editors| :: WithinLimit(editors[n])) <==>
            (forall i | 0 <= i < |ops| :: !Overflows(editors[i], ops[i]))
  {
    if forall n | 0 <= n < |editors| :: WithinLimit(editors[n]) {
      forall i | 0 <= i < |ops| ensures !Overflows(editors[i], ops[i]) {
        RunAnchored(editors, ops, i);
        ApplyWithinLimit(editors[i], ops[i]);
        assert WithinLimit(editors[i + 1]);
      }
    } else if forall i | 0 <= i < |ops| :: !Overflows(editors[i], ops[i]) {
      for n := 0 to |ops|
        invariant forall m | 0 <= m <= n :: WithinLimit(editors[m])
      {
        RunAnchored(editors, ops, n);
        ApplyWithinLimit(editors[n], ops[n]);
        assert editors[n + 1] == Apply(editors[n], ops[n]);
      }
    }
  }

  /** An operation after which something may no longer hold. */
  predicate Disturbs(e: Editor, op: Operation) {
    Overflows(e, op) || Misorders(e, op)
  }

  lemma ApplyValidExactly(e: Editor, op: Operation)
    requires Valid(e) && Owed(e, op)
    ensures Valid(Apply(e, op)) <==> !Disturbs(e, op)
  {
    ApplyAnchored(e, op);
    ApplyWithinLimit(e, op);
    ApplyOrdered(e, op);
  }

  /** On every run: the content is within one MiB and the selection and the marked range are ordered and on
      character boundaries throughout, exactly when no operation disturbs them. */
  lemma AlwaysValidExactly(editors: seq<Editor>, ops: seq<Operation>)
    requires IsRun(editors, ops)
    ensures (forall n | 0 <= n < |editors| :: Valid(editors[n])) <==>
            (forall i | 0 <= i < |ops| :: !Disturbs(editors[i], ops[i]))
  {
    if forall n | 0 <= n < |editors| :: Valid(editors[n]) {
      forall i | 0 <= i < |ops| ensures !Disturbs(editors[i], ops[i]) {
        ApplyValidExactly(editors[i], ops[i]);
        assert Valid(editors[i + 1]);
      }
    } else if forall i | 0 <= i < |ops| :: !Disturbs(editors[i], ops[i]) {
      InitialValid(editors[0].content, editors[0].enabled);
      for n := 0 to |ops|
        invariant forall m | 0 <= m <= n :: Valid(editors[m])
      {
        ApplyValidExactly(editors[n], ops[n]);
        assert editors[n + 1] == Apply(editors[n], ops[n]);
      }
    }
  }

  /** Ranges that run forwards disturb nothing. */
  lemma ForwardRangesStayValid(editors: seq<Editor>, ops: seq<Operation>, n: nat)
    requires IsRun(editors, ops) && n <= |ops|
    requires forall i | 0 <= i < |ops| :: Forwards(ops[i])
    ensures Valid(editors[n])
  {
    InitialValid(editors[0].content, editors[0].enabled);
    for m := 0 to n
      invariant Valid(editors[m])
    {
      ForwardsUndisturbed(editors[m], ops[m]);
      ApplyValidExactly(editors[m], ops[m]);
      assert editors[m + 1] == Apply(editors[m], ops[m]);
    }
  }

  predicate Ordered(range: Option<Span>) {
    range.Some? ==> range.value.start <= range.value.end
  }

  predicate Forwards(op: Operation) {
    && (op.Replace? || op.Preedit? ==> Ordered(op.range))
    && (op.Preedit? ==> Ordered(op.selected))
  }

  lemma ForwardsUndisturbed(e: Editor, op: Operation)
    requires Valid(e) && Forwards(op)
    ensures !Disturbs(e, op)
  {
    if op.Replace? || op.Preedit? {
      TargetPlaced(e, op.range);
    }
    if op.Preedit? && op.selected.Some? {
      OffsetsAreOrdered(op.text, op.selected.value.start, op.selected.value.end);
    }
  }

  /** A full editor grows past its limit when nothing replaces, or is composed over, the range from 1 back
      to 0. */
  lemma BackwardsRangeOverflows(content: Text)
    requires |content| == MAX_TEXT_BYTES && Ascii(content)
    ensures var e, range := Initial(content, true), Some(Span(1, 0));
            && Valid(e)
            && Size(Utf8, Replaced(e, range, []).content) == MAX_TEXT_BYTES + 1
            && Size(Utf8, Preedited(e, range, [], None).content) == MAX_TEXT_BYTES + 1
  {
    var e := Initial(content, true);
    AsciiSize(Utf8, content);
    AsciiOffset(content, 1);
    AsciiOffset(content, 0);
    InitialValid(content, true);
    TargetPlaced(e, Some(Span(1, 0)));
    assert Target(e, Some(Span(1, 0))) == Span(1, 0);
    SplicedSize(content, Span(1, 0), []);
  }

  /** The platform asks for a preedit selected from its end back to its start, and the selection runs
      backwards. */
  lemma BackwardsSelectionMisorders()
    ensures var e, op := Initial([], true), Preedit(None, [0x61], Some(Span(1, 0)));
            && Valid(e) && Misorders(e, op) && !Overflows(e, op)
            && Apply(e, op).selection == Span(1, 0) && !Valid(Apply(e, op))
  {
    var e := Initial([], true);
    InitialValid([], true);
    AsciiSize(Utf8, [0x61]);
    AsciiOffset([0x61], 0);
    AsciiOffset([0x61], 1);
    assert Target(e, None) == Span(0, 0) && Admits(e, Span(0, 0), [0x61]);
  }
}
