/** The optimistic edit protocol: the editor shows each edit at once and sends it to the application, which
    answers the edits one turn at a time and may reject them. A preedit is shown and not sent. */
module EditProtocol {

  import opened Wrappers
  import opened TextUnits
  import opened TextInput

  /** An editor, and how many of the values it sent have been answered. */
  datatype Session = Session(editor: Editor, answered: nat)

  datatype Event =
    | Edit(range: Option<Span>, text: Text)
    | Press(key: Key, starts: seq<nat>)
    | Preedit(range: Option<Span>, text: Text, selected: Option<Span>)
    | Unmark
    | Turn(value: Text, enabled: bool)
    | RefusedTurn
    | Configure(value: Text, enabled: bool)

  function Outstanding(s: Session): nat {
    if s.answered <= |s.editor.sent| then |s.editor.sent| - s.answered else 0
  }

  function Oldest(s: Session): Text
    requires Outstanding(s) > 0
  {
    s.editor.sent[s.answered].text
  }

  function Newest(s: Session): Text
    requires Outstanding(s) > 0
  {
    s.editor.sent[|s.editor.sent| - 1].text
  }

  /** What a person should see: the newest value not yet answered, or else what the application holds. */
  function Expected(s: Session): Text {
    if Outstanding(s) > 0 then Newest(s) else s.editor.controlled
  }

  predicate Enabled(s: Session, e: Event) {
    e.Turn? || e.RefusedTurn? ==> Outstanding(s) > 0
  }

  /** A turn answers the oldest value: the editor is told which, configured with the value the application
      now holds, and settled. A turn that never reaches the application only settles. */
  function Next(s: Session, e: Event): Session
    requires Enabled(s, e)
  {
    match e
    case Edit(range, text) => s.(editor := Replaced(s.editor, range, text))
    case Press(key, starts) => s.(editor := Pressed(s.editor, key, starts))
    case Preedit(range, text, selected) => s.(editor := Preedited(s.editor, range, text, selected))
    case Unmark => s.(editor := Unmarked(s.editor))
    case Turn(value, enabled) =>
      var told := Configured(Begun(s.editor, Oldest(s)), value, enabled);
      Session(Acknowledged(told, Oldest(s)), s.answered + 1)
    case RefusedTurn => Session(Acknowledged(s.editor, Oldest(s)), s.answered + 1)
    case Configure(value, enabled) => s.(editor := Configured(s.editor, value, enabled))
  }

  /** Nothing is on screen but what should be, or a preedit in progress. */
  ghost predicate InStep(s: Session) {
    && s.answered <= |s.editor.sent| && s.editor.inFlightEdit == None
    && (s.editor.marked == None ==> s.editor.content == Expected(s))
  }

  /** The application's answers leave a preedit in progress alone. */
  ghost predicate KeepsPreedit(s: Session, e: Event)
    requires Enabled(s, e)
  {
    s.editor.marked.Some? && (e.Turn? || e.RefusedTurn? || e.Configure?) ==>
      Next(s, e).editor.marked == s.editor.marked && Next(s, e).editor.content == s.editor.content
  }

  /** What an admitted preedit of no text leaves, unmarked and unsent. */
  function Emptied(e: Editor, range: Option<Span>): Text {
    Spliced(e.content, Target(e, range), [])
  }

  /** The steps that overwrite what was typed, read off the session before the step. With no preedit: a turn
      for an older value of the same text that the application answers with something else, or a
      configuration outside any turn. With one: a new value, when the screen shows the very text the turn
      answers, or outside any turn. And a preedit that ends empty over a content nobody was sent. */
  predicate Clobbers(s: Session, e: Event)
    requires Enabled(s, e)
  {
    var preediting, shown := s.editor.marked.Some?, s.editor.content;
    match e
    case Turn(value, _) =>
      if preediting then value != s.editor.controlled && value != shown && shown == Oldest(s)
      else Outstanding(s) > 1 && Oldest(s) == Newest(s) && value != Newest(s)
    case RefusedTurn =>
      !preediting && Outstanding(s) > 1 && Oldest(s) == Newest(s) && s.editor.controlled != Newest(s)
    case Configure(value, _) =>
      value != s.editor.controlled && value != shown && (preediting || Outstanding(s) > 0)
    case Preedit(range, text, _) =>
      && text == [] && s.editor.enabled && Admits(s.editor, Target(s.editor, range), [])
      && Emptied(s.editor, range) != Expected(s)
    case _ => false
  }

  /** An edit is shown and sent at once, or refused and changes nothing. */
  lemma EditShownAndSent(e: Editor, range: Option<Span>, text: Text)
    ensures var r := Replaced(e, range, text);
            && r.inFlightEdit == e.inFlightEdit && r.controlled == e.controlled
            && (|| (r.sent == e.sent && r.content == e.content && r.marked == e.marked)
                || (r.sent == e.sent + [Change(r.content)] && r.marked == None))
  {
  }

  lemma KeyShownAndSent(e: Editor, key: Key, starts: seq<nat>)
    ensures var r := Pressed(e, key, starts);
            && r.inFlightEdit == e.inFlightEdit && r.controlled == e.controlled
            && (|| (r.sent == e.sent && r.content == e.content && r.marked == e.marked)
                || (r.sent == e.sent + [Change(r.content)] && r.marked == None)
                || (r.sent == e.sent + [Submitted(r.content)] && r.content == e.content && r.marked == None))
  {
    match key
    case Backspace =>
      EditShownAndSent(SelectedTo(e, Previous(starts, Cursor(e))), None, []);
      EditShownAndSent(e, None, []);
    case Delete =>
      EditShownAndSent(SelectedTo(e, NextStart(starts, Cursor(e), Size(Utf8, e.content))), None, []);
      EditShownAndSent(e, None, []);
    case _ =>
  }

  lemma TypingInStep(s: Session, e: Event)
    requires InStep(s) && (e.Edit? || e.Press? || e.Unmark?)
    ensures InStep(Next(s, e))
  {
    match e
    case Edit(range, text) => EditShownAndSent(s.editor, range, text);
    case Press(key, starts) => KeyShownAndSent(s.editor, key, starts);
    case Unmark =>
  }

  lemma PreeditInStep(s: Session, e: Event)
    requires InStep(s) && e.Preedit?
    ensures InStep(Next(s, e)) <==> !Clobbers(s, e)
  {
    var r := Preedited(s.editor, e.range, e.text, e.selected);
    assert r.sent == s.editor.sent && r.controlled == s.editor.controlled && r.inFlightEdit == None;
    if e.text == [] && s.editor.enabled && Admits(s.editor, Target(s.editor, e.range), []) {
      assert r.marked == None && r.content == Emptied(s.editor, e.range);
    } else {
      assert r.marked.Some? || r == s.editor;
    }
  }

  /** What a turn leaves on screen: the content, unless it is the very text the turn answers, and then
      what the application holds. */
  lemma TurnContent(e: Editor, oldest: Text, value: Text, enabled: bool)
    requires e.marked == None
    ensures var r := Acknowledged(Configured(Begun(e, oldest), value, enabled), oldest);
            && r.sent == e.sent && r.marked == None && r.inFlightEdit == None && r.controlled == value
            && r.content == if e.content == oldest then value else e.content
  {
  }

  /** A turn keeps the preedit on screen exactly when its value is the one held already or the one shown, or
      the screen shows something other than the text the turn answers. */
  lemma TurnKeepsPreeditExactly(s: Session, value: Text, enabled: bool)
    requires Outstanding(s) > 0 && s.editor.marked.Some?
    ensures var after := Next(s, Turn(value, enabled)).editor;
            (after.marked == s.editor.marked && after.content == s.editor.content) <==>
              value == s.editor.controlled || value == s.editor.content || s.editor.content != Oldest(s)
  {
  }

  lemma TurnInStep(s: Session, e: Event)
    requires InStep(s) && e.Turn? && Enabled(s, e)
    ensures InStep(Next(s, e)) && KeepsPreedit(s, e) <==> !Clobbers(s, e)
  {
    if s.editor.marked.Some? {
      TurnKeepsPreeditExactly(s, e.value, e.enabled);
    } else {
      TurnContent(s.editor, Oldest(s), e.value, e.enabled);
    }
  }

  lemma OtherAnswersInStep(s: Session, e: Event)
    requires InStep(s) && (e.RefusedTurn? || e.Configure?) && Enabled(s, e)
    ensures InStep(Next(s, e)) && KeepsPreedit(s, e) <==> !Clobbers(s, e)
  {
  }

  /** A step keeps the display in step, and a preedit in progress, exactly when it does not clobber. */
  lemma StepExactly(s: Session, e: Event)
    requires InStep(s) && Enabled(s, e)
    ensures InStep(Next(s, e)) && KeepsPreedit(s, e) <==> !Clobbers(s, e)
  {
    match e
    case Preedit(_, _, _) => PreeditInStep(s, e);
    case Turn(_, _) => TurnInStep(s, e);
    case RefusedTurn => OtherAnswersInStep(s, e);
    case Configure(_, _) => OtherAnswersInStep(s, e);
    case _ => TypingInStep(s, e);
  }

  // Runs.

  ghost predicate Step(s: Session, e: Event, s': Session) {
    Enabled(s, e) && s' == Next(s, e)
  }

  ghost predicate IsRun(sessions: seq<Session>, events: seq<Event>) {
    && |sessions| == |events| + 1
    && (exists value, enabled :: sessions[0] == Session(Initial(value, enabled), 0))
    && forall i | 0 <= i < |events| :: Step(sessions[i], events[i], sessions[i + 1])
  }

  ghost predicate ClobbersAt(sessions: seq<Session>, events: seq<Event>, i: nat)
    requires i < |events| && i < |sessions|
  {
    Enabled(sessions[i], events[i]) && Clobbers(sessions[i], events[i])
  }

  ghost predicate KeepsPreeditAt(sessions: seq<Session>, events: seq<Event>, i: nat)
    requires i < |events| && i < |sessions|
  {
    Enabled(sessions[i], events[i]) ==> KeepsPreedit(sessions[i], events[i])
  }

  lemma StepAt(sessions: seq<Session>, events: seq<Event>, i: nat)
    requires IsRun(sessions, events) && i < |events| && InStep(sessions[i])
    ensures InStep(sessions[i + 1]) && KeepsPreeditAt(sessions, events, i) <==> !ClobbersAt(sessions, events, i)
  {
    assert Step(sessions[i], events[i], sessions[i + 1]);
    StepExactly(sessions[i], events[i]);
  }

  ghost predicate AllInStep(sessions: seq<Session>) {
    forall n | 0 <= n < |sessions| :: InStep(sessions[n])
  }

  ghost predicate PreeditsKept(sessions: seq<Session>, events: seq<Event>)
    requires |events| <= |sessions|
  {
    forall i: nat | i < |events| :: KeepsPreeditAt(sessions, events, i)
  }

  ghost predicate Unclobbered(sessions: seq<Session>, events: seq<Event>)
    requires |events| <= |sessions|
  {
    forall i: nat | i < |events| :: !ClobbersAt(sessions, events, i)
  }

  lemma {:induction false} UnclobberedInStep(sessions: seq<Session>, events: seq<Event>, n: nat)
    requires IsRun(sessions, events) && n <= |events| && Unclobbered(sessions, events)
    ensures InStep(sessions[n])
  {
    if n > 0 {
      UnclobberedInStep(sessions, events, n - 1);
      assert !ClobbersAt(sessions, events, n - 1);
      StepAt(sessions, events, n - 1);
    }
  }

  /** On every run of typing, preedits, turns and configurations: the editor always shows a preedit in
      progress, or else the newest unanswered value, or else the application's, and no answer disturbs a
      preedit, exactly when no step of the run clobbers. */
  lemma AlwaysInStepExactly(sessions: seq<Session>, events: seq<Event>)
    requires IsRun(sessions, events)
    ensures AllInStep(sessions) && PreeditsKept(sessions, events) <==> Unclobbered(sessions, events)
  {
    if AllInStep(sessions) && PreeditsKept(sessions, events) {
      forall i: nat | i < |events| ensures !ClobbersAt(sessions, events, i) {
        assert KeepsPreeditAt(sessions, events, i);
        StepAt(sessions, events, i);
      }
    }
    if Unclobbered(sessions, events) {
      forall n | 0 <= n < |sessions| ensures InStep(sessions[n]) {
        UnclobberedInStep(sessions, events, n);
      }
      forall i: nat | i < |events| ensures KeepsPreeditAt(sessions, events, i) {
        assert !ClobbersAt(sessions, events, i);
        StepAt(sessions, events, i);
      }
    }
  }

  ghost predicate DistinctOutstanding(s: Session) {
    forall i, j | s.answered <= i < j < |s.editor.sent| :: s.editor.sent[i].text != s.editor.sent[j].text
  }

  /** Without preedits nothing is ever marked. */
  lemma {:induction false} NeverMarked(sessions: seq<Session>, events: seq<Event>, n: nat)
    requires IsRun(sessions, events) && n <= |events|
    requires forall i | 0 <= i < |events| :: !events[i].Preedit?
    ensures sessions[n].editor.marked == None
  {
    if n > 0 {
      NeverMarked(sessions, events, n - 1);
      assert Step(sessions[n - 1], events[n - 1], sessions[n]);
      match events[n - 1]
      case Edit(range, text) => EditShownAndSent(sessions[n - 1].editor, range, text);
      case Press(key, starts) => KeyShownAndSent(sessions[n - 1].editor, key, starts);
      case _ =>
    }
  }

  /** So it does on every run of committed edits where the texts outstanding at each step differ and the
      application configures the editor outside a turn only when nothing is outstanding. */
  lemma DistinctEditsStayInStep(sessions: seq<Session>, events: seq<Event>, n: nat)
    requires IsRun(sessions, events) && n <= |events|
    requires forall i | 0 <= i < |events| :: !events[i].Preedit? && DistinctOutstanding(sessions[i])
    requires forall i | 0 <= i < |events| && events[i].Configure? :: Outstanding(sessions[i]) == 0
    ensures InStep(sessions[n]) && sessions[n].editor.marked == None
  {
    forall i: nat | i < |events| ensures !ClobbersAt(sessions, events, i) {
      assert DistinctOutstanding(sessions[i]);
      assert Step(sessions[i], events[i], sessions[i + 1]);
      NeverMarked(sessions, events, i);
    }
    UnclobberedInStep(sessions, events, n);
    NeverMarked(sessions, events, n);
  }

  // What answers do beside the content.

  /** An answer that leaves what is on screen leaves the caret, the selection and the preedit; one that replaces
      it puts the caret at the end and ends any preedit. */
  lemma AnswerKeepsCaretExactly(s: Session, e: Event)
    requires Enabled(s, e) && (e.Turn? || e.RefusedTurn? || e.Configure?)
    ensures CaretKept(s.editor, Next(s, e).editor)
  {
    match e
    case Turn(value, enabled) =>
      var begun := Begun(s.editor, Oldest(s));
      ConfigureKeepsCaret(begun, value, enabled);
      SettleKeepsCaret(Configured(begun, value, enabled), Oldest(s));
    case RefusedTurn => SettleKeepsCaret(s.editor, Oldest(s));
    case Configure(value, enabled) => ConfigureKeepsCaret(s.editor, value, enabled);
  }

  predicate CaretKept(before: Editor, after: Editor) {
    if after.content == before.content
    then after.selection == before.selection && after.reversed == before.reversed && after.marked == before.marked
    else after.selection == Caret(Size(Utf8, after.content)) && !after.reversed && after.marked == None
  }

  lemma {:induction false} ConfigureKeepsCaret(e: Editor, value: Text, enabled: bool)
    ensures CaretKept(e, Configured(e, value, enabled))
    ensures Configured(e, value, enabled).content == e.content || Configured(e, value, enabled).content ==
              Configured(e, value, enabled).controlled == value
  {
  }

  lemma {:induction false} SettleKeepsCaret(e: Editor, submitted: Text)
    ensures CaretKept(e, Acknowledged(e, submitted))
    ensures e.content == e.controlled ==> Acknowledged(e, submitted) == e.(inFlightEdit := None)
  {
  }

  /** Whether the application last left the editor enabled. */
  function LastEnabled(initially: bool, events: seq<Event>, n: nat): bool
    requires n <= |events|
  {
    if n == 0 then initially
    else
      var e := events[n - 1];
      if e.Turn? || e.Configure? then e.enabled else LastEnabled(initially, events, n - 1)
  }

  ghost predicate EnabledAt(sessions: seq<Session>, events: seq<Event>, i: nat)
    requires i < |events| && |sessions| == |events| + 1
  {
    sessions[i + 1].editor.enabled ==
      if events[i].Turn? || events[i].Configure? then events[i].enabled else sessions[i].editor.enabled
  }

  lemma {:induction false} EnabledFrom(sessions: seq<Session>, events: seq<Event>, n: nat)
    requires |sessions| == |events| + 1 && n <= |events|
    requires forall i: nat | i < |events| :: EnabledAt(sessions, events, i)
    ensures sessions[n].editor.enabled == LastEnabled(sessions[0].editor.enabled, events, n)
  {
    if n > 0 {
      EnabledFrom(sessions, events, n - 1);
      assert EnabledAt(sessions, events, n - 1);
    }
  }

  /** On every run the editor is enabled as the application last said, whatever was typed. */
  lemma EnabledAsTold(sessions: seq<Session>, events: seq<Event>, n: nat)
    requires IsRun(sessions, events) && n <= |events|
    ensures sessions[n].editor.enabled == LastEnabled(sessions[0].editor.enabled, events, n)
  {
    forall i: nat | i < |events| ensures EnabledAt(sessions, events, i) {
      assert Step(sessions[i], events[i], sessions[i + 1]);
      KeepsEnabled(sessions[i], events[i]);
    }
    EnabledFrom(sessions, events, n);
  }

  lemma KeepsEnabled(s: Session, e: Event)
    requires Enabled(s, e)
    ensures Next(s, e).editor.enabled == if e.Turn? || e.Configure? then e.enabled else s.editor.enabled
  {
    match e
    case Press(key, starts) => KeyKeepsEnabled(s.editor, key, starts);
    case _ =>
  }

  lemma KeyKeepsEnabled(e: Editor, key: Key, starts: seq<nat>)
    ensures Pressed(e, key, starts).enabled == e.enabled
    ensures !e.enabled ==> Pressed(e, key, starts).content == e.content && Pressed(e, key, starts).sent == e.sent
  {
  }

  /** While it is disabled, a key, an edit or a preedit changes neither what is on screen nor what was sent. */
  lemma DisabledIsStill(s: Session, e: Event)
    requires !s.editor.enabled && (e.Edit? || e.Press? || e.Preedit? || e.Unmark?)
    ensures Next(s, e).editor.content == s.editor.content && Next(s, e).editor.sent == s.editor.sent
  {
    match e
    case Press(key, starts) => KeyKeepsEnabled(s.editor, key, starts);
    case _ =>
  }

  // Runs that clobber.

  ghost predicate Reached(s: Session) {
    exists sessions: seq<Session>, events: seq<Event> :: IsRun(sessions, events) && sessions[|events|] == s
  }

  lemma StartReached(value: Text, enabled: bool)
    ensures Reached(Session(Initial(value, enabled), 0))
  {
    var sessions, events: seq<Event> := [Session(Initial(value, enabled), 0)], [];
    assert IsRun(sessions, events) && sessions[|events|] == Session(Initial(value, enabled), 0);
  }

  lemma RunGrows(sessions: seq<Session>, events: seq<Event>, e: Event, s: Session)
    requires IsRun(sessions, events) && Step(sessions[|events|], e, s)
    ensures IsRun(sessions + [s], events + [e])
  {
    var longer, more := sessions + [s], events + [e];
    forall i | 0 <= i < |more| ensures Step(longer[i], more[i], longer[i + 1]) {
      if i < |events| {
        assert longer[i] == sessions[i] && longer[i + 1] == sessions[i + 1] && more[i] == events[i];
      } else {
        assert longer[i] == sessions[|events|] && longer[i + 1] == s && more[i] == e;
      }
    }
    assert longer[0] == sessions[0];
  }

  lemma NextReached(s: Session, e: Event)
    requires Reached(s) && Enabled(s, e)
    ensures Reached(Next(s, e))
  {
    var sessions: seq<Session>, events: seq<Event> :| IsRun(sessions, events) && sessions[|events|] == s;
    RunGrows(sessions, events, e, Next(s, e));
    assert (sessions + [Next(s, e)])[|events + [e]|] == Next(s, e);
  }

  lemma AsciiSplice(content: Text, target: Span, text: Text)
    requires Ascii(content) && target.start <= |content| && target.end <= |content|
    ensures Spliced(content, target, text) == content[..target.start] + text + content[target.end..]
  {
    AsciiSearch(Utf8, content, target.start);
    AsciiSearch(Utf8, content, target.end);
  }

  /** An enabled editor over an application that holds nothing, none of whose values is answered. */
  function Typed(content: Text, marked: Option<Span>, sent: seq<Sent>): Session {
    Session(Editor(content, [], None, Caret(|content|), false, marked, true, sent), 0)
  }

  lemma TypedA() returns (s: Session)
    ensures Reached(s) && s == Typed([0x61], None, [Change([0x61])])
  {
    var start := Session(Initial([], true), 0);
    StartReached([], true);
    NextReached(start, Edit(None, [0x61]));
    AsciiSplice([], Caret(0), [0x61]);
    AsciiSize(Utf8, [0x61]);
    AsciiSize(Utf8, []);
    assert Spliced([], Caret(0), [0x61]) == [0x61];
    assert Replaced(start.editor, None, [0x61]) == Replacing(start.editor, Caret(0), [0x61]);
    s := Next(start, Edit(None, [0x61]));
  }

  lemma TypedB(sent: seq<Sent>) returns (s: Session)
    requires Reached(Typed([0x61], None, sent))
    ensures Reached(s) && s == Typed([0x61, 0x62], None, sent + [Change([0x61, 0x62])])
  {
    var before := Typed([0x61], None, sent);
    NextReached(before, Edit(None, [0x62]));
    AsciiSplice([0x61], Caret(1), [0x62]);
    assert [0x61][..1] + [0x62] + [0x61][1..] == [0x61, 0x62];
    AsciiSize(Utf8, [0x61]);
    AsciiSize(Utf8, [0x62]);
    s := Next(before, Edit(None, [0x62]));
  }

  lemma ErasedB(sent: seq<Sent>) returns (s: Session)
    requires Reached(Typed([0x61, 0x62], None, sent))
    ensures Reached(s) && s == Typed([0x61], None, sent + [Change([0x61])])
  {
    var before := Typed([0x61, 0x62], None, sent);
    NextReached(before, Press(Backspace, [0, 1]));
    assert Previous([0, 1], 2) == 1;
    var selected := SelectedTo(before.editor, 1);
    assert selected.selection == Span(1, 2);
    AsciiSplice([0x61, 0x62], Span(1, 2), []);
    assert [0x61, 0x62][..1] + [] + [0x61, 0x62][2..] == [0x61];
    AsciiSize(Utf8, [0x61, 0x62]);
    AsciiSize(Utf8, []);
    assert Replaced(selected, None, []) == Replacing(selected, Span(1, 2), []);
    s := Next(before, Press(Backspace, [0, 1]));
  }

  /** Distinctness is needed because the code compares texts: type a, type b, erase it, and the rejection of
      the first edit erases the third, which is not answered yet. */
  lemma RepeatedTextIsErased() returns (s: Session, after: Session)
    ensures Reached(s) && InStep(s) && s.editor.content == [0x61]
    ensures Outstanding(s) == 3 && Clobbers(s, Turn([], true)) && after == Next(s, Turn([], true))
    ensures after.editor.content == [] && Outstanding(after) == 2 && Newest(after) == [0x61]
  {
    var one := TypedA();
    var two := TypedB([Change([0x61])]);
    s := ErasedB([Change([0x61])] + [Change([0x61, 0x62])]);
    assert s.editor.sent == [Change([0x61]), Change([0x61, 0x62]), Change([0x61])];
    assert Oldest(s) == [0x61];
    TurnContent(s.editor, Oldest(s), [], true);
    after := Next(s, Turn([], true));
  }

  lemma OverA(e: Editor, text: Text)
    requires e == Typed([0x61], None, [Change([0x61])]).editor && (text == [] || text == [0x61])
    ensures Target(e, Some(Span(0, 1))) == Span(0, 1) && Admits(e, Span(0, 1), text)
    ensures Emptied(e, Some(Span(0, 1))) == []
    ensures Preedited(e, Some(Span(0, 1)), text, None) ==
              e.(content := text, marked := if text == [] then None else Some(Span(0, 1)), selection := Caret(|text|))
  {
    AsciiOffset([0x61], 0);
    AsciiOffset([0x61], 1);
    AsciiSize(Utf8, [0x61]);
    AsciiSize(Utf8, text);
    AsciiSplice([0x61], Span(0, 1), text);
    AsciiSplice([0x61], Span(0, 1), []);
    assert [0x61][..0] + text + [0x61][1..] == text && [0x61][..0] + [] + [0x61][1..] == [];
    assert OneLine(text);
    assert Preedited(e, Some(Span(0, 1)), text, None) == Preediting(e, Span(0, 1), text, None);
  }

  lemma PreeditReached(s: Session, range: Option<Span>, text: Text, selected: Option<Span>, after: Editor)
    requires Reached(s) && after == Preedited(s.editor, range, text, selected)
    ensures Reached(s.(editor := after))
  {
    NextReached(s, Preedit(range, text, selected));
  }

  /** A preedit that spells the text being answered again is overwritten by the answer. */
  lemma RepeatedPreeditIsOverwritten() returns (s: Session, after: Session)
    ensures Reached(s) && InStep(s) && s.editor.marked == Some(Span(0, 1)) && s.editor.content == [0x61]
    ensures Outstanding(s) == 1 && Clobbers(s, Turn([0x62], true)) && after == Next(s, Turn([0x62], true))
    ensures after.editor.marked == None && after.editor.content == [0x62]
  {
    var typed := TypedA();
    s := Typed([0x61], Some(Span(0, 1)), [Change([0x61])]);
    OverA(typed.editor, [0x61]);
    PreeditReached(typed, Some(Span(0, 1)), [0x61], None, s.editor);
    assert Oldest(s) == [0x61];
    var told := Configured(Begun(s.editor, [0x61]), [0x62], true);
    assert told == Shown(Begun(s.editor, [0x61]), [0x62]).(controlled := [0x62], marked := None);
    assert Acknowledged(told, [0x61]) == told.(inFlightEdit := None);
    after := Next(s, Turn([0x62], true));
  }

  /** A preedit over a selection, given up, leaves the screen without the text it covered, and nobody told. */
  lemma EmptiedPreeditIsUnsent() returns (s: Session, e: Event)
    ensures Reached(s) && InStep(s) && Outstanding(s) == 1 && Newest(s) == [0x61]
    ensures e.Preedit? && Clobbers(s, e) && Next(s, e).editor.sent == s.editor.sent
    ensures Next(s, e).editor.marked == None && Next(s, e).editor.content == []
  {
    s := TypedA();
    e := Preedit(Some(Span(0, 1)), [], None);
    OverA(s.editor, []);
    assert Newest(s) == [0x61];
  }

  /** A configuration outside any turn replaces an edit that is not answered yet. */
  lemma StrayConfigurationReplaces() returns (s: Session, after: Session)
    ensures Reached(s) && InStep(s) && s.editor.content == [0x61] && Outstanding(s) == 1
    ensures Clobbers(s, Configure([0x62], true)) && after == Next(s, Configure([0x62], true))
    ensures after.editor.content == [0x62] && Outstanding(after) == 1 && Newest(after) == [0x61]
  {
    s := TypedA();
    after := Next(s, Configure([0x62], true));
    assert [0x62] != [0x61];
  }
}
