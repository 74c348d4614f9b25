/** The controlled text editor (`crates/host/src/input.rs`): content, selection and preedit, the keyboard
    and input-method operations on them, and the turns in which the application answers an edit. */
module TextInput {

  import opened Wrappers
  import opened TextUnits

  const MAX_TEXT_BYTES := 1024 * 1024

  datatype Span = Span(start: nat, end: nat)

  /** What the editor sends the application: the content after a committed edit, or on submission. */
  datatype Sent = Change(text: Text) | Submitted(text: Text)

  datatype Editor = Editor(
    content: Text,
    controlled: Text,
    inFlightEdit: Option<Text>,
    selection: Span,
    reversed: bool,
    marked: Option<Span>,
    enabled: bool,
    sent: seq<Sent>)

  predicate OneLine(text: Text) {
    0x0A !in text && 0x0D !in text
  }

  /** The length of a range, nothing when it runs backwards. */
  function Length(range: Span): nat {
    if range.start <= range.end then range.end - range.start else 0
  }

  function Caret(offset: nat): Span {
    Span(offset, offset)
  }

  function Initial(value: Text, enabled: bool): Editor {
    Editor(value, value, None, Caret(0), false, None, enabled, [])
  }

  /** The caret goes to the end of a content the application set. */
  function Shown(e: Editor, value: Text): Editor {
    e.(content := value, selection := Caret(Size(Utf8, value)), reversed := false)
  }

  function Configured(e: Editor, value: Text, enabled: bool): Editor {
    var told := e.(enabled := enabled);
    if e.controlled == value then told
    else
      var newerEdit := e.inFlightEdit.Some? && e.content != e.inFlightEdit.value;
      if e.content != value && !newerEdit then Shown(told, value).(controlled := value, marked := None)
      else told.(controlled := value)
  }

  function Begun(e: Editor, submitted: Text): Editor {
    e.(inFlightEdit := Some(submitted))
  }

  function Acknowledged(e: Editor, submitted: Text): Editor {
    var settled := e.(inFlightEdit := None);
    if e.marked.Some? || e.content != submitted || e.content == e.controlled then settled
    else Shown(settled, e.controlled)
  }

  function Cursor(e: Editor): nat {
    if e.reversed then e.selection.start else e.selection.end
  }

  function MovedTo(e: Editor, offset: nat): Editor {
    e.(selection := Caret(offset), reversed := false)
  }

  function Lesser(a: nat, b: nat): nat {
    if a < b then a else b
  }

  function Greater(a: nat, b: nat): nat {
    if a < b then b else a
  }

  function SelectedTo(e: Editor, offset: nat): Editor {
    var anchor := if e.reversed then e.selection.end else e.selection.start;
    e.(selection := Span(Lesser(anchor, offset), Greater(anchor, offset)), reversed := offset < anchor)
  }

  /** The range a replacement takes: the platform's, in UTF-16 units, or the preedit, or the selection. */
  function Target(e: Editor, range: Option<Span>): Span {
    match range
    case Some(r) => Span(ByteOffset(e.content, r.start), ByteOffset(e.content, r.end))
    case None => if e.marked.Some? then e.marked.value else e.selection
  }

  predicate Admits(e: Editor, target: Span, text: Text) {
    OneLine(text) && Size(Utf8, text) <= MAX_TEXT_BYTES - (Size(Utf8, e.content) - Length(target))
  }

  function Spliced(content: Text, target: Span, text: Text): Text {
    Before(content, target.start) + text + After(content, target.end)
  }

  function Replacing(e: Editor, target: Span, text: Text): Editor {
    var content := Spliced(e.content, target, text);
    e.(content := content, selection := Caret(target.start + Size(Utf8, text)), reversed := false, marked := None,
       sent := e.sent + [Change(content)])
  }

  function Replaced(e: Editor, range: Option<Span>, text: Text): Editor {
    var target := Target(e, range);
    if !e.enabled || !Admits(e, target, text) then e else Replacing(e, target, text)
  }

  /** Where the platform asked for the selection within the preedit, or its end. */
  function PreeditSelection(start: nat, text: Text, selected: Option<Span>): Span {
    match selected
    case Some(r) => Span(start + ByteOffset(text, r.start), start + ByteOffset(text, r.end))
    case None => Caret(start + Size(Utf8, text))
  }

  function Preediting(e: Editor, target: Span, text: Text, selected: Option<Span>): Editor {
    e.(content := Spliced(e.content, target, text),
       marked := if |text| > 0 then Some(Span(target.start, target.start + Size(Utf8, text))) else None,
       selection := PreeditSelection(target.start, text, selected),
       reversed := false)
  }

  function Preedited(e: Editor, range: Option<Span>, text: Text, selected: Option<Span>): Editor {
    var target := Target(e, range);
    if !e.enabled || !Admits(e, target, text) then e else Preediting(e, target, text, selected)
  }

  function Unmarked(e: Editor): Editor {
    if e.enabled && e.marked.Some? then e.(marked := None, sent := e.sent + [Change(e.content)]) else e
  }

  function SubmittedFrom(e: Editor): Editor {
    if !e.enabled || e.marked.Some? then e else e.(sent := e.sent + [Submitted(e.content)])
  }

  /** The greatest grapheme start before an offset, or the beginning. `starts` is ascending. */
  function Previous(starts: seq<nat>, offset: nat): nat {
    if starts == [] then 0
    else if starts[|starts| - 1] < offset then starts[|starts| - 1]
    else Previous(starts[..|starts| - 1], offset)
  }

  /** The least grapheme start past an offset, or the end. */
  function NextStart(starts: seq<nat>, offset: nat, end: nat): nat {
    if starts == [] then end else if starts[0] > offset then starts[0] else NextStart(starts[1..], offset, end)
  }

  datatype Key = Left | Right | SelectLeft | SelectRight | SelectAll | Home | End | Backspace | Delete | Enter

  function Pressed(e: Editor, key: Key, starts: seq<nat>): Editor {
    var back, forth := Previous(starts, Cursor(e)), NextStart(starts, Cursor(e), Size(Utf8, e.content));
    var collapsed := e.selection.start >= e.selection.end;
    match key
    case Left => MovedTo(e, if collapsed then back else e.selection.start)
    case Right => MovedTo(e, if collapsed then forth else e.selection.end)
    case SelectLeft => SelectedTo(e, back)
    case SelectRight => SelectedTo(e, forth)
    case SelectAll => e.(selection := Span(0, Size(Utf8, e.content)), reversed := false)
    case Home => MovedTo(e, 0)
    case End => MovedTo(e, Size(Utf8, e.content))
    case Backspace =>
      if !e.enabled then e else Replaced(if collapsed then SelectedTo(e, back) else e, None, [])
    case Delete =>
      if !e.enabled then e else Replaced(if collapsed then SelectedTo(e, forth) else e, None, [])
    case Enter => SubmittedFrom(e)
  }

  /** The editor as an object, updated in place. */
  class TextEditor {
    var content: Text
    var controlled: Text
    var inFlightEdit: Option<Text>
    var selection: Span
    var reversed: bool
    var marked: Option<Span>
    var enabled: bool
    var sent: seq<Sent>

    ghost function Value(): Editor
      reads this
    {
      Editor(content, controlled, inFlightEdit, selection, reversed, marked, enabled, sent)
    }

    constructor (value: Text, enabled: bool)
      requires Size(Utf8, value) <= MAX_TEXT_BYTES
      ensures Value() == Initial(value, enabled)
    {
      content, controlled, inFlightEdit := value, value, None;
      selection, reversed, marked := Span(0, 0), false, None;
      this.enabled := enabled;
      sent := [];
    }

    method Configure(value: Text, enabled: bool)
      requires Size(Utf8, value) <= MAX_TEXT_BYTES
      modifies this
      ensures Value() == Configured(old(Value()), value, enabled)
    {
      if controlled != value {
        controlled := value;
        var newerEdit := inFlightEdit.Some? && content != inFlightEdit.value;
        if content != value && !newerEdit {
          content := value;
          selection := Caret(Size(Utf8, content));
          reversed := false;
          marked := None;
        }
      }
      this.enabled := enabled;
    }

    method Acknowledge(submitted: Text)
      modifies this
      ensures Value() == Acknowledged(old(Value()), submitted)
    {
      inFlightEdit := None;
      if marked.Some? || content != submitted {
        return;
      }
      if content != controlled {
        content := controlled;
        selection := Caret(Size(Utf8, content));
        reversed := false;
      }
    }

    method BeginAcknowledgement(submitted: Text)
      modifies this
      ensures Value() == Begun(old(Value()), submitted)
    {
      inFlightEdit := Some(submitted);
    }

    method MoveTo(offset: nat)
      modifies this
      ensures Value() == MovedTo(old(Value()), offset)
    {
      selection := Span(offset, offset);
      reversed := false;
    }

    method SelectTo(offset: nat)
      modifies this
      ensures Value() == SelectedTo(old(Value()), offset)
    {
      var anchor := if reversed then selection.end else selection.start;
      selection := Span(Lesser(anchor, offset), Greater(anchor, offset));
      reversed := offset < anchor;
    }

    method ReplaceTextInRange(range: Option<Span>, text: Text)
      modifies this
      ensures Value() == Replaced(old(Value()), range, text)
    {
      if enabled {
        var target := ByteRange(range);
        var admitted := Admitted(target, text);
        if admitted {
          Replace(target, text);
        }
      }
    }

    method ReplaceAndMarkTextInRange(range: Option<Span>, text: Text, selected: Option<Span>)
      modifies this
      ensures Value() == Preedited(old(Value()), range, text, selected)
    {
      if enabled {
        var target := ByteRange(range);
        var admitted := Admitted(target, text);
        if admitted {
          Preedit(target, text, selected);
        }
      }
    }

    /** Both replacements refuse a line break, or more text than there is room for. */
    method Admitted(target: Span, text: Text) returns (admitted: bool)
      ensures admitted == Admits(Value(), target, text)
    {
      admitted := !(0x0D in text || 0x0A in text
                    || Size(Utf8, text) > MAX_TEXT_BYTES - (Size(Utf8, content) - Length(target)));
    }

    method Replace(target: Span, text: Text)
      modifies this
      ensures Value() == Replacing(old(Value()), target, text)
    {
      content := Before(content, target.start) + text + After(content, target.end);
      var end := target.start + Size(Utf8, text);
      selection := Span(end, end);
      reversed := false;
      marked := None;
      sent := sent + [Change(content)];
    }

    method Preedit(target: Span, text: Text, selected: Option<Span>)
      modifies this
      ensures Value() == Preediting(old(Value()), target, text, selected)
    {
      content := Before(content, target.start) + text + After(content, target.end);
      marked := if |text| > 0 then Some(Span(target.start, target.start + Size(Utf8, text))) else None;
      selection := SelectionInPreedit(target.start, text, selected);
      reversed := false;
    }

    static method SelectionInPreedit(start: nat, text: Text, selected: Option<Span>) returns (selection: Span)
      ensures selection == PreeditSelection(start, text, selected)
    {
      if selected.Some? {
        var from := ByteOffsetFromUtf16(text, selected.value.start);
        var to := ByteOffsetFromUtf16(text, selected.value.end);
        selection := Span(start + from, start + to);
      } else {
        selection := Caret(start + Size(Utf8, text));
      }
    }

    method ByteRange(range: Option<Span>) returns (target: Span)
      ensures target == Target(Value(), range)
    {
      if range.Some? {
        var start := ByteOffsetFromUtf16(content, range.value.start);
        var end := ByteOffsetFromUtf16(content, range.value.end);
        target := Span(start, end);
      } else {
        target := if marked.Some? then marked.value else selection;
      }
    }

    method UnmarkText()
      modifies this
      ensures Value() == Unmarked(old(Value()))
    {
      if enabled && marked.Some? {
        marked := None;
        sent := sent + [Change(content)];
      }
    }

    /** The key actions; `starts` are the grapheme starts of the content. */
    method Press(key: Key, starts: seq<nat>)
      modifies this
      ensures Value() == Pressed(old(Value()), key, starts)
    {
      var cursor := if reversed then selection.start else selection.end;
      var back, forth := Previous(starts, cursor), NextStart(starts, cursor, Size(Utf8, content));
      var collapsed := selection.start >= selection.end;
      match key
      case Left => MoveTo(if collapsed then back else selection.start);
      case Right => MoveTo(if collapsed then forth else selection.end);
      case SelectLeft => SelectTo(back);
      case SelectRight => SelectTo(forth);
      case SelectAll =>
        selection := Span(0, Size(Utf8, content));
        reversed := false;
      case Home => MoveTo(0);
      case End => MoveTo(Size(Utf8, content));
      case Backspace => Erase(back);
      case Delete => Erase(forth);
      case Enter =>
        if enabled && marked.None? {
          sent := sent + [Submitted(content)];
        }
    }

    method Erase(neighbour: nat)
      modifies this
      ensures var e := old(Value());
              Value() == if !e.enabled then e
                         else
                           var from := if e.selection.start >= e.selection.end then SelectedTo(e, neighbour) else e;
                           Replaced(from, None, [])
    {
      if !enabled {
        return;
      }
      if selection.start >= selection.end {
        SelectTo(neighbour);
      }
      ReplaceTextInRange(None, []);
    }
  }
}
