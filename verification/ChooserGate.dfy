/** The gate in front of the operating system's folder chooser (`crates/host/src/files.rs`):
    one chooser at a time, a cooldown after a refusal, and counters of what became of each. */
module ChooserGate {

  import opened Wrappers

  /** Two seconds, in nanoseconds of the monotonic clock. */
  const REFUSAL_COOLDOWN: nat := 2_000_000_000

  datatype Answer = Chosen | Canceled | Denied | Unavailable

  datatype Gate = Gate(
    portalEnabled: bool,
    chooserCancels: bool,
    inFlight: bool,
    refusalUntil: Option<nat>,
    openings: nat, chosen: nat, canceled: nat, denied: nat, unavailable: nat, suppressed: nat)

  predicate PromptIsAllowed(portalEnabled: bool, inFlight: bool, refusalUntil: Option<nat>, now: nat) {
    portalEnabled && !inFlight && (refusalUntil.Some? ==> refusalUntil.value <= now)
  }

  /** The first critical section of a pick: whether a chooser may open, and the gate it leaves. */
  function Begin(gate: Gate, now: nat): (Gate, bool) {
    if !gate.portalEnabled then (gate, false)
    else if !PromptIsAllowed(true, gate.inFlight, gate.refusalUntil, now) then
      (gate.(suppressed := gate.suppressed + 1), false)
    else (gate.(inFlight := true, openings := gate.openings + 1), true)
  }

  /** The second critical section: the chooser answered. */
  function End(gate: Gate, answer: Answer, now: nat): Gate {
    var closed := gate.(inFlight := false);
    match answer
    case Chosen => closed.(chosen := gate.chosen + 1)
    case Canceled => closed.(canceled := gate.canceled + 1, refusalUntil := Some(now + REFUSAL_COOLDOWN))
    case Denied => closed.(denied := gate.denied + 1, refusalUntil := Some(now + REFUSAL_COOLDOWN))
    case Unavailable => closed.(unavailable := gate.unavailable + 1)
  }

  function Configured(portalEnabled: bool, chooserCancels: bool): Gate {
    Gate(portalEnabled || chooserCancels, chooserCancels, false, None, 0, 0, 0, 0, 0, 0)
  }

  /** The directory a configuration provisions, if any, and whether the system opens it. */
  datatype Path = NoPath | Opens | Unopenable

  datatype ConfigureError = CancelsAndProvisions | CannotGrant

  /** The store's chooser fields. `selection` counts opened, chosen, canceled, denied, unavailable and
      suppressed choosers, then whether a directory was provisioned. */
  class Store {
    var selection: seq<nat>
    var portalEnabled: bool
    var chooserCancels: bool
    var chooserInFlight: bool
    var refusalUntil: Option<nat>

    ghost predicate Valid()
      reads this
    {
      |selection| == 7
    }

    ghost function View(): Gate
      requires Valid()
      reads this
    {
      Gate(portalEnabled, chooserCancels, chooserInFlight, refusalUntil,
                selection[0], selection[1], selection[2], selection[3], selection[4], selection[5])
    }

    constructor ()
      ensures Valid() && View() == Configured(false, false) && selection[6] == 0
    {
      selection := [0, 0, 0, 0, 0, 0, 0];
      portalEnabled, chooserCancels, chooserInFlight, refusalUntil := false, false, false, None;
    }

    method Configure(path: Path, portal: bool, cancels: bool) returns (result: Result<(), ConfigureError>)
      requires Valid()
      modifies this
      ensures Valid()
      ensures result == if cancels && path != NoPath then Err(CancelsAndProvisions)
                        else if path == Unopenable then Err(CannotGrant) else Ok(())
      ensures result.Ok? ==> View() == Configured(portal, cancels) && selection[6] == if path == Opens then 1 else 0
      ensures result.Err? ==> View() == old(View()) && selection == old(selection)
    {
      if cancels && path != NoPath {
        return Err(CancelsAndProvisions);
      }
      if path == Unopenable {
        return Err(CannotGrant);
      }
      selection := [0, 0, 0, 0, 0, 0, 0];
      portalEnabled := portal || cancels;
      chooserCancels := cancels;
      chooserInFlight := false;
      refusalUntil := None;
      if path == Opens {
        selection := selection[6 := 1];
      }
      result := Ok(());
    }

    method BeginPick(now: nat) returns (allowed: bool)
      requires Valid()
      modifies this
      ensures Valid() && (View(), allowed) == Begin(old(View()), now) && selection[6] == old(selection[6])
    {
      if !portalEnabled {
        allowed := false;
      } else if !PromptIsAllowed(true, chooserInFlight, refusalUntil, now) {
        selection := selection[5 := selection[5] + 1];
        allowed := false;
      } else {
        chooserInFlight := true;
        selection := selection[0 := selection[0] + 1];
        allowed := true;
      }
    }

    method EndPick(answer: Answer, now: nat)
      requires Valid()
      modifies this
      ensures Valid() && View() == End(old(View()), answer, now) && selection[6] == old(selection[6])
    {
      chooserInFlight := false;
      match answer
      case Chosen =>
        selection := selection[1 := selection[1] + 1];
      case Canceled =>
        selection := selection[2 := selection[2] + 1];
        refusalUntil := Some(now + REFUSAL_COOLDOWN);
      case Denied =>
        selection := selection[3 := selection[3] + 1];
        refusalUntil := Some(now + REFUSAL_COOLDOWN);
      case Unavailable =>
        selection := selection[4 := selection[4] + 1];
    }
  }

  // Runs: the two critical sections of any number of picks, interleaved in any order. A chooser may answer
  // anything: a pick reads whether choosers cancel before its chooser opens, so the gate may since have been
  // configured otherwise.

  type Pick = nat

  datatype Event =
    | Opening(pick: Pick, now: nat)
    | Answering(pick: Pick, answer: Answer, now: nat)
    | Reconfiguring(portal: bool, cancels: bool)

  /** The gate, the picks whose chooser is on screen, and the last instant read. */
  datatype World = World(gate: Gate, open: set<Pick>, clock: nat)

  ghost predicate Step(w: World, e: Event, w': World) {
    match e
    case Opening(pick, now) =>
      && pick !in w.open && w.clock <= now
      && var (gate, allowed) := Begin(w.gate, now);
         w' == World(gate, if allowed then w.open + {pick} else w.open, now)
    case Answering(pick, answer, now) =>
      && pick in w.open && w.clock <= now
      && w' == World(End(w.gate, answer, now), w.open - {pick}, now)
    case Reconfiguring(portal, cancels) =>
      // The chooser of an unfinished pick stays on screen.
      w' == w.(gate := Configured(portal, cancels))
  }

  ghost predicate IsRun(worlds: seq<World>, events: seq<Event>) {
    && |worlds| == |events| + 1
    && (exists portal, cancels, clock :: worlds[0] == World(Configured(portal, cancels), {}, clock))
    && forall i | 0 <= i < |events| :: Step(worlds[i], events[i], worlds[i + 1])
  }

  /** The flag says whether a chooser is on screen, there is at most one, and every chooser opened
      is accounted for. */
  ghost predicate Conserved(w: World) {
    && (w.gate.inFlight <==> w.open != {})
    && |w.open| <= 1
    && w.gate.openings == w.gate.chosen + w.gate.canceled + w.gate.denied + w.gate.unavailable + |w.open|
  }

  lemma OpeningConserves(w: World, e: Event, w': World)
    requires Step(w, e, w') && e.Opening? && Conserved(w)
    ensures Conserved(w')
  {
    if w.open == {} {
      assert |{} + {e.pick}| == 1;
    }
  }

  lemma AnsweringConserves(w: World, e: Event, w': World)
    requires Step(w, e, w') && e.Answering? && Conserved(w)
    ensures Conserved(w') && w'.open == {}
  {
    assert |w.open - {e.pick}| == 0;
  }

  /** Reconfiguring while a chooser is on screen is the only step that can break the account, and it
      always does. */
  ghost predicate Reset(w: World, e: Event) {
    e.Reconfiguring? && w.open != {}
  }

  lemma {:induction false} ConservedUntil(worlds: seq<World>, events: seq<Event>, n: nat)
    requires IsRun(worlds, events) && n <= |events|
    requires forall i | 0 <= i < n :: !Reset(worlds[i], events[i])
    ensures Conserved(worlds[n])
  {
    if n > 0 {
      ConservedUntil(worlds, events, n - 1);
      assert Step(worlds[n - 1], events[n - 1], worlds[n]);
      match events[n - 1]
      case Opening(_, _) => OpeningConserves(worlds[n - 1], events[n - 1], worlds[n]);
      case Answering(_, _, _) => AnsweringConserves(worlds[n - 1], events[n - 1], worlds[n]);
      case Reconfiguring(_, _) =>
    }
  }

  /** On every interleaving: the flag, the single chooser and the counters agree after every step,
      exactly when no configuration replaced the gate under an open chooser. */
  lemma SingleFlight(worlds: seq<World>, events: seq<Event>)
    requires IsRun(worlds, events)
    ensures (forall i | 0 <= i < |worlds| :: Conserved(worlds[i])) <==>
            (forall i | 0 <= i < |events| :: !Reset(worlds[i], events[i]))
  {
    if forall i | 0 <= i < |events| :: !Reset(worlds[i], events[i]) {
      forall n | 0 <= n < |worlds| ensures Conserved(worlds[n]) {
        ConservedUntil(worlds, events, n);
      }
    } else {
      var i :| 0 <= i < |events| && Reset(worlds[i], events[i]);
      assert Step(worlds[i], events[i], worlds[i + 1]);
      assert !Conserved(worlds[i + 1]);
    }
  }

  /** Reconfiguring under an open chooser lets a second one open. */
  lemma ResetOpensTwo()
    ensures exists worlds: seq<World>, events: seq<Event> :: IsRun(worlds, events) && |worlds[|worlds| - 1].open| == 2
  {
    var gate := Configured(true, false);
    var events := [Opening(0, 0), Reconfiguring(true, false), Opening(1, 0)];
    var worlds := [World(gate, {}, 0), World(Begin(gate, 0).0, {0}, 0), World(gate, {0}, 0),
                   World(Begin(gate, 0).0, {0, 1}, 0)];
    assert Step(worlds[0], events[0], worlds[1]);
    assert Step(worlds[1], events[1], worlds[2]);
    assert Step(worlds[2], events[2], worlds[3]);
    assert worlds[0] == World(Configured(true, false), {}, 0);
    assert IsRun(worlds, events);
    assert {0, 1} == {0} + {1};
  }

  /** The configurations so far that landed under an open chooser. */
  ghost function Resets(worlds: seq<World>, events: seq<Event>, n: nat): nat
    requires n <= |events| && n <= |worlds|
  {
    if n == 0 then 0 else Resets(worlds, events, n - 1) + if Reset(worlds[n - 1], events[n - 1]) then 1 else 0
  }

  lemma StepOpensOne(w: World, e: Event, w': World, resets: nat)
    requires Step(w, e, w') && |w.open| <= resets + if w.gate.inFlight then 1 else 0
    ensures |w'.open| <= resets + (if Reset(w, e) then 1 else 0) + if w'.gate.inFlight then 1 else 0
  {
    match e
    case Opening(pick, _) => assert |w.open + {pick}| == |w.open| + 1;
    case Answering(pick, _, _) => assert |w.open - {pick}| == |w.open| - 1;
    case Reconfiguring(_, _) => assert |w.open| > 0 <==> w.open != {};
  }

  /** Each of them costs at most one chooser more: on every run, those on screen are no more than the
      configurations under an open one, and the one in flight. */
  lemma {:induction false} EachResetOpensOne(worlds: seq<World>, events: seq<Event>, n: nat)
    requires IsRun(worlds, events) && n <= |events|
    ensures |worlds[n].open| <= Resets(worlds, events, n) + if worlds[n].gate.inFlight then 1 else 0
  {
    if n > 0 {
      EachResetOpensOne(worlds, events, n - 1);
      assert Step(worlds[n - 1], events[n - 1], worlds[n]);
      StepOpensOne(worlds[n - 1], events[n - 1], worlds[n], Resets(worlds, events, n - 1));
    }
  }

  ghost predicate Refused(e: Event) {
    e.Answering? && (e.answer == Canceled || e.answer == Denied)
  }

  ghost predicate Admitted(w: World, e: Event) {
    e.Opening? && Begin(w.gate, e.now).1
  }

  /** Until the gate is reconfigured, the cooldown of a refusal is never shortened. */
  lemma {:induction false} CooldownHeld(worlds: seq<World>, events: seq<Event>, i: nat, j: nat)
    requires IsRun(worlds, events) && i < j <= |events| && Refused(events[i])
    requires forall k | i < k < j :: !events[k].Reconfiguring?
    ensures worlds[j].clock >= events[i].now
    ensures worlds[j].gate.refusalUntil.Some?
    ensures worlds[j].gate.refusalUntil.value >= events[i].now + REFUSAL_COOLDOWN
  {
    if j == i + 1 {
      assert Step(worlds[i], events[i], worlds[i + 1]);
    } else {
      CooldownHeld(worlds, events, i, j - 1);
      assert Step(worlds[j - 1], events[j - 1], worlds[j]);
    }
  }

  /** The refusal at step `i` still counts at step `j`: nothing reconfigured the gate in between. */
  ghost predicate RefusedBefore(events: seq<Event>, i: int, j: int) {
    0 <= i < j <= |events| && Refused(events[i]) && forall k | i < k < j :: !events[k].Reconfiguring?
  }

  /** A cooldown is always that of some refusal. */
  lemma {:induction false} CooldownJustified(worlds: seq<World>, events: seq<Event>, j: nat)
    requires IsRun(worlds, events) && j <= |events| && worlds[j].gate.refusalUntil.Some?
    ensures exists i :: RefusedBefore(events, i, j) &&
              worlds[j].gate.refusalUntil.value == events[i].now + REFUSAL_COOLDOWN
  {
    if j > 0 {
      assert Step(worlds[j - 1], events[j - 1], worlds[j]);
      if Refused(events[j - 1]) {
        assert RefusedBefore(events, j - 1, j);
      } else {
        CooldownJustified(worlds, events, j - 1);
        var i :| RefusedBefore(events, i, j - 1) &&
                 worlds[j].gate.refusalUntil.value == events[i].now + REFUSAL_COOLDOWN;
        assert RefusedBefore(events, i, j);
      }
    }
  }

  /** No chooser opens within the cooldown of a refusal, however the picks interleave and whatever a
      reconfiguration before the refusal left open. */
  lemma NoPromptInCooldown(worlds: seq<World>, events: seq<Event>, i: nat, j: nat)
    requires IsRun(worlds, events) && j < |events| && RefusedBefore(events, i, j)
    ensures Admitted(worlds[j], events[j]) ==> events[j].now >= events[i].now + REFUSAL_COOLDOWN
  {
    CooldownHeld(worlds, events, i, j);
  }

  /** While no configuration has landed under an open chooser, one opens exactly when the portal is enabled,
      none is on screen, and every refusal since the last configuration is at least the cooldown old. */
  lemma OpensExactly(worlds: seq<World>, events: seq<Event>, j: nat)
    requires IsRun(worlds, events) && j < |events| && events[j].Opening?
    requires forall i | 0 <= i < j :: !Reset(worlds[i], events[i])
    ensures Admitted(worlds[j], events[j]) <==>
            && worlds[j].gate.portalEnabled
            && worlds[j].open == {}
            && forall i | RefusedBefore(events, i, j) :: events[j].now >= events[i].now + REFUSAL_COOLDOWN
  {
    ConservedUntil(worlds, events, j);
    forall i | RefusedBefore(events, i, j)
      ensures worlds[j].gate.refusalUntil.Some?
      ensures worlds[j].gate.refusalUntil.value >= events[i].now + REFUSAL_COOLDOWN
    {
      CooldownHeld(worlds, events, i, j);
    }
    if worlds[j].gate.refusalUntil.Some? {
      CooldownJustified(worlds, events, j);
    }
  }
}
