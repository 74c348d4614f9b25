/** What the chooser gate holds after any run, read off the run alone: each counter, the flag and the cooldown are
    what happened since the last configuration. */
module GateHistory {

  import opened Wrappers
  import opened ChooserGate

  /** What became of a pick at one step. */
  datatype Fate = Opened | Suppressed | Answered(answer: Answer)

  /** Step `i` put its chooser on screen, was refused one though the portal is enabled, or was that answer. */
  ghost predicate Befell(worlds: seq<World>, events: seq<Event>, i: nat, fate: Fate)
    requires i < |events| && |worlds| == |events| + 1
  {
    match events[i]
    case Opening(pick, _) =>
      if pick in worlds[i + 1].open then fate == Opened
      else fate == Suppressed && worlds[i].gate.portalEnabled
    case Answering(_, answer, _) => fate == Answered(answer)
    case Reconfiguring(_, _) => false
  }

  /** How often it did since the last configuration. */
  ghost function Times(worlds: seq<World>, events: seq<Event>, n: nat, fate: Fate): nat
    requires n <= |events| && |worlds| == |events| + 1
  {
    if n == 0 || events[n - 1].Reconfiguring? then 0
    else Times(worlds, events, n - 1, fate) + if Befell(worlds, events, n - 1, fate) then 1 else 0
  }

  /** The instant of the last refusal since the last configuration. */
  ghost function LastRefusal(events: seq<Event>, n: nat): Option<nat>
    requires n <= |events|
  {
    if n == 0 then None
    else
      match events[n - 1]
      case Reconfiguring(_, _) => None
      case Opening(_, _) => LastRefusal(events, n - 1)
      case Answering(_, answer, now) =>
        if answer.Canceled? || answer.Denied? then Some(now) else LastRefusal(events, n - 1)
  }

  /** Some chooser was put on screen since the last configuration and none has answered since. */
  ghost predicate Unanswered(worlds: seq<World>, events: seq<Event>, i: int, n: nat)
    requires n <= |events| && |worlds| == |events| + 1
  {
    && 0 <= i < n && Befell(worlds, events, i, Opened)
    && forall k | i < k < n :: events[k].Opening?
  }

  /** The gate as the counters of the settings given it and the events since. */
  ghost predicate CountedGate(worlds: seq<World>, events: seq<Event>, n: nat)
    requires n <= |events| && |worlds| == |events| + 1
  {
    var gate := worlds[n].gate;
    && gate.openings == Times(worlds, events, n, Opened)
    && gate.suppressed == Times(worlds, events, n, Suppressed)
    && gate.chosen == Times(worlds, events, n, Answered(Chosen))
    && gate.canceled == Times(worlds, events, n, Answered(Canceled))
    && gate.denied == Times(worlds, events, n, Answered(Denied))
    && gate.unavailable == Times(worlds, events, n, Answered(Unavailable))
  }

  /** A pick put on screen is one the gate admitted. */
  lemma OpenedIsAdmitted(w: World, e: Event, w': World)
    requires Step(w, e, w') && e.Opening?
    ensures e.pick in w'.open <==> Begin(w.gate, e.now).1
  {
  }

  lemma CountsStep(worlds: seq<World>, events: seq<Event>, n: nat)
    requires n < |events| && |worlds| == |events| + 1 && Step(worlds[n], events[n], worlds[n + 1])
    requires CountedGate(worlds, events, n)
    ensures CountedGate(worlds, events, n + 1)
  {
    if events[n].Opening? {
      OpenedIsAdmitted(worlds[n], events[n], worlds[n + 1]);
    }
  }

  /** On every run, each counter is the number of times what it counts happened since the last configuration. */
  lemma {:induction false} CountersExactly(worlds: seq<World>, events: seq<Event>, n: nat)
    requires IsRun(worlds, events) && n <= |events|
    ensures CountedGate(worlds, events, n)
  {
    if n > 0 {
      CountersExactly(worlds, events, n - 1);
      CountsStep(worlds, events, n - 1);
    }
  }

  /** The cooldown ends two seconds after the last refusal since then, and there is none without one. */
  lemma {:induction false} CooldownExactly(worlds: seq<World>, events: seq<Event>, n: nat)
    requires IsRun(worlds, events) && n <= |events|
    ensures match LastRefusal(events, n)
            case None => worlds[n].gate.refusalUntil == None
            case Some(now) => worlds[n].gate.refusalUntil == Some(now + 2_000_000_000)
  {
    if n > 0 {
      CooldownExactly(worlds, events, n - 1);
      assert Step(worlds[n - 1], events[n - 1], worlds[n]);
    }
  }

  /** A chooser is in flight exactly when the last to be put on screen since then has not answered. */
  lemma {:induction false} InFlightExactly(worlds: seq<World>, events: seq<Event>, n: nat)
    requires IsRun(worlds, events) && n <= |events|
    ensures worlds[n].gate.inFlight <==> exists i :: Unanswered(worlds, events, i, n)
  {
    if n > 0 {
      InFlightExactly(worlds, events, n - 1);
      assert Step(worlds[n - 1], events[n - 1], worlds[n]);
      if events[n - 1].Opening? {
        OpenedIsAdmitted(worlds[n - 1], events[n - 1], worlds[n]);
        if worlds[n - 1].gate.inFlight {
          var i :| Unanswered(worlds, events, i, n - 1);
          assert Unanswered(worlds, events, i, n);
        } else if events[n - 1].pick in worlds[n].open {
          assert Unanswered(worlds, events, n - 1, n);
        }
        if i :| Unanswered(worlds, events, i, n) && i < n - 1 {
          assert Unanswered(worlds, events, i, n - 1);
        }
      } else {
        assert forall i :: !Unanswered(worlds, events, i, n);
      }
    }
  }

  /** The settings in force are those of the last configuration: the portal is enabled for a chooser that cancels
      too, and nothing but a configuration changes them. */
  lemma {:induction false} SettingsExactly(worlds: seq<World>, events: seq<Event>, i: nat, n: nat)
    requires IsRun(worlds, events) && i < n <= |events| && events[i].Reconfiguring?
    requires forall k | i < k < n :: !events[k].Reconfiguring?
    ensures worlds[n].gate.portalEnabled <==> events[i].portal || events[i].cancels
    ensures worlds[n].gate.chooserCancels == events[i].cancels
  {
    assert Step(worlds[n - 1], events[n - 1], worlds[n]);
    if n > i + 1 {
      SettingsExactly(worlds, events, i, n - 1);
    }
  }
}
