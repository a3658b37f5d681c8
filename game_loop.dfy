/** The main loop: each frame it takes the batch of events that arrived,
    applies them one by one to the game state and the level, and stops for
    good after the frame in which a quit arrives. Drawing, the clock and the
    random darkness overlay are outside the model; a regeneration of the
    overlay is recorded as an action. */
module GameLoop {
  import opened Types
  import opened Levels

  /** The loop's states; STOPPED ends the loop. */
  datatype State = Running | Overlay | Stopped

  /** The events the loop reads: a quit request, a key press with its key
      code, the timer event that regenerates the darkness overlay, and
      anything else. */
  datatype FrameEvent = Quit | KeyDown(key: int) | GenerateOverlay | OtherEvent

  /** What handling one event asks of the rest of the game. */
  datatype Action = MoveCommand(d: Direction) | RegenerateOverlay

  /** The movement key bindings: key code to direction. */
  type Controls = map<int, Direction>

  /** The rule applied to one event: a quit stops the loop whatever the
      state; while running, a bound key issues its movement and the overlay
      timer regenerates the overlay; in the overlay state events are ignored. */
  function Dispatch(s: State, e: FrameEvent, controls: Controls): (State, Option<Action>)
  {
    var s1 := if e.Quit? then Stopped else s;
    if s1 == Running then
      match e
      case KeyDown(k) => (s1, if k in controls then Some(MoveCommand(controls[k])) else None)
      case GenerateOverlay => (s1, Some(RegenerateOverlay))
      case _ => (s1, None)
    else
      (s1, None)
  }

  function ActionsOf(a: Option<Action>): seq<Action>
  {
    if a.Some? then [a.value] else []
  }

  /** Applying the rule to a batch of events in order: the final state and
      the actions issued. */
  function Drain(s: State, events: seq<FrameEvent>, controls: Controls): (State, seq<Action>)
  {
    if events == [] then (s, [])
    else
      var prev := Drain(s, events[..|events| - 1], controls);
      var step := Dispatch(prev.0, events[|events| - 1], controls);
      (step.0, prev.1 + ActionsOf(step.1))
  }

  /** The frames the loop runs over a finite stream of batches: it runs while
      not stopped and batches remain. The final state, all actions issued, and
      the number of frames run. */
  function Play(s: State, batches: seq<seq<FrameEvent>>, controls: Controls): (State, seq<Action>, nat)
    decreases |batches|
  {
    if s == Stopped || batches == [] then (s, [], 0)
    else
      var drained := Drain(s, batches[0], controls);
      var rest := Play(drained.0, batches[1..], controls);
      (rest.0, drained.1 + rest.1, rest.2 + 1)
  }

  /** The level after the movement commands among `acts`, in order. */
  function ApplyActions(l: LevelState, acts: seq<Action>): (r: LevelState)
    requires Rectangular(l.grid)
    ensures r.grid == l.grid
  {
    if acts == [] then l
    else
      var prev := ApplyActions(l, acts[..|acts| - 1]);
      match acts[|acts| - 1]
      case MoveCommand(d) => Move(prev, d)
      case RegenerateOverlay => prev
  }

  /** The number of overlay regenerations among `acts`. */
  function Regenerations(acts: seq<Action>): nat
  {
    if acts == [] then 0
    else Regenerations(acts[..|acts| - 1]) + (if acts[|acts| - 1].RegenerateOverlay? then 1 else 0)
  }

  // ---------------------------------------------------------------------------
  // Properties of the rule

  /** A quit stops the loop from any state and issues nothing. */
  lemma QuitStops(s: State, controls: Controls)
    ensures Dispatch(s, Quit, controls) == (Stopped, None)
  {
  }

  /** The only change of state the rule makes is to STOPPED, and it makes it
      exactly on a quit (or keeps it once stopped). */
  lemma DispatchTransitions(s: State, e: FrameEvent, controls: Controls)
    ensures Dispatch(s, e, controls).0 == s || Dispatch(s, e, controls).0 == Stopped
    ensures Dispatch(s, e, controls).0 == Stopped <==> s == Stopped || e.Quit?
  {
  }

  /** A movement is issued exactly for a bound key pressed while running, and
      it is the key's direction. */
  lemma MovementIffRunningBoundKey(s: State, e: FrameEvent, controls: Controls, d: Direction)
    ensures Dispatch(s, e, controls).1 == Some(MoveCommand(d))
            <==> s == Running && e.KeyDown? && e.key in controls && controls[e.key] == d
  {
  }

  /** In the overlay state every event but a quit leaves everything as it is. */
  lemma OverlayIgnoresEvents(e: FrameEvent, controls: Controls)
    ensures Dispatch(Overlay, e, controls) == (if e.Quit? then Stopped else Overlay, None)
  {
  }

  /** Once stopped, the rest of a batch has no effect. */
  lemma {:induction false} StoppedIgnoresRest(events: seq<FrameEvent>, controls: Controls)
    ensures Drain(Stopped, events, controls) == (Stopped, [])
  {
    if events != [] {
      StoppedIgnoresRest(events[..|events| - 1], controls);
      assert [] + ActionsOf(None) == [];
    }
  }

  /** A batch drained in the overlay state issues no action. */
  lemma {:induction false} OverlayIssuesNothing(events: seq<FrameEvent>, controls: Controls)
    ensures Drain(Overlay, events, controls).1 == []
    ensures Drain(Overlay, events, controls).0 == Overlay || Drain(Overlay, events, controls).0 == Stopped
  {
    if events != [] {
      OverlayIssuesNothing(events[..|events| - 1], controls);
      assert [] + ActionsOf(None) == [];
    }
  }

  /** Draining a batch either keeps the state or stops, and it stops exactly
      when the state was already STOPPED or the batch holds a quit. */
  lemma {:induction false} DrainStopsIffQuit(s: State, events: seq<FrameEvent>, controls: Controls)
    ensures Drain(s, events, controls).0 == s || Drain(s, events, controls).0 == Stopped
    ensures Drain(s, events, controls).0 == Stopped <==> s == Stopped || Quit in events
  {
    if events != [] {
      var n := |events| - 1;
      DrainStopsIffQuit(s, events[..n], controls);
      assert events == events[..n] + [events[n]];
      assert Quit in events <==> Quit in events[..n] || events[n] == Quit;
    }
  }

  /** The index of the first batch holding a quit, or the number of batches. */
  function FirstQuit(batches: seq<seq<FrameEvent>>): (i: nat)
    ensures i <= |batches|
    ensures forall j :: 0 <= j < i ==> Quit !in batches[j]
    ensures i < |batches| ==> Quit in batches[i]
  {
    if batches == [] then 0
    else if Quit in batches[0] then 0
    else FirstQuit(batches[1..]) + 1
  }

  /** Starting from RUNNING, the loop stops exactly when some batch holds a
      quit, and then it runs exactly up to and including that batch's frame;
      it never enters the overlay state. */
  lemma {:induction false} PlayStopsAfterQuitFrame(batches: seq<seq<FrameEvent>>, controls: Controls)
    ensures Play(Running, batches, controls).0 == Stopped <==> FirstQuit(batches) < |batches|
    ensures Play(Running, batches, controls).0 != Overlay
    ensures Play(Running, batches, controls).2
            == if FirstQuit(batches) < |batches| then FirstQuit(batches) + 1 else |batches|
  {
    if batches != [] {
      DrainStopsIffQuit(Running, batches[0], controls);
      if Quit !in batches[0] {
        PlayStopsAfterQuitFrame(batches[1..], controls);
      }
    }
  }

  /** Applying two runs of actions one after the other is applying them
      joined. */
  lemma {:induction false} ApplyActionsAppend(l: LevelState, a: seq<Action>, b: seq<Action>)
    requires Rectangular(l.grid)
    ensures ApplyActions(l, a + b) == ApplyActions(ApplyActions(l, a), b)
  {
    if b == [] {
      assert a + b == a;
    } else {
      var n := |b| - 1;
      ApplyActionsAppend(l, a, b[..n]);
      assert (a + b)[..|a + b| - 1] == a + b[..n];
    }
  }

  /** One more frame of the loop, seen from the batch it starts at. */
  lemma PlayFrame(s: State, batches: seq<seq<FrameEvent>>, k: nat, controls: Controls)
    requires s != Stopped && k < |batches|
    ensures var drained := Drain(s, batches[k], controls);
            var rest := Play(drained.0, batches[k + 1..], controls);
            Play(s, batches[k..], controls) == (rest.0, drained.1 + rest.1, rest.2 + 1)
  {
    assert batches[k..][1..] == batches[k + 1..];
  }

  // ---------------------------------------------------------------------------
  // The loop itself

  /** The loop's rule on one event, applied to the level. */
  method HandleEvent(level: Level, state: State, event: FrameEvent, controls: Controls)
    returns (next: State, regenerated: nat)
    requires level.Valid()
    modifies level`interactions, level.player`row, level.player`col
    ensures level.Valid()
    ensures next == Dispatch(state, event, controls).0
    ensures regenerated == Regenerations(ActionsOf(Dispatch(state, event, controls).1))
    ensures level.Abstract() == ApplyActions(old(level.Abstract()), ActionsOf(Dispatch(state, event, controls).1))
  {
    next := state;
    regenerated := 0;
    if event.Quit? {
      next := Stopped;
    }
    if next == Running {
      if event.KeyDown? && event.key in controls {
        level.HandleMovement(controls[event.key]);
        assert [MoveCommand(controls[event.key])][..0] == [];
      } else if event.GenerateOverlay? {
        regenerated := 1;
        assert [RegenerateOverlay][..0] == [];
      }
    }
    // a stopped loop and the overlay state ignore the event
  }

  /** Draining one more event is one more step of the rule. */
  lemma DrainSnoc(s: State, events: seq<FrameEvent>, e: FrameEvent, controls: Controls)
    ensures var prev := Drain(s, events, controls);
            var step := Dispatch(prev.0, e, controls);
            Drain(s, events + [e], controls) == (step.0, prev.1 + ActionsOf(step.1))
  {
    assert (events + [e])[..|events|] == events;
  }

  /** The regenerations among joined actions add up. */
  lemma {:induction false} RegenerationsAppend(a: seq<Action>, b: seq<Action>)
    ensures Regenerations(a + b) == Regenerations(a) + Regenerations(b)
  {
    if b == [] {
      assert a + b == a;
    } else {
      var n := |b| - 1;
      RegenerationsAppend(a, b[..n]);
      assert (a + b)[..|a + b| - 1] == a + b[..n];
    }
  }

  /** One frame's pass over its batch of events. */
  method ProcessBatch(level: Level, state: State, events: seq<FrameEvent>, controls: Controls)
    returns (next: State, regenerated: nat)
    requires level.Valid()
    modifies level`interactions, level.player`row, level.player`col
    ensures level.Valid()
    ensures next == Drain(state, events, controls).0
    ensures regenerated == Regenerations(Drain(state, events, controls).1)
    ensures level.Abstract() == ApplyActions(old(level.Abstract()), Drain(state, events, controls).1)
  {
    ghost var start := level.Abstract();
    next := state;
    regenerated := 0;
    var i := 0;
    while i < |events|
      invariant 0 <= i <= |events|
      invariant level.Valid()
      invariant Rectangular(start.grid)
      invariant next == Drain(state, events[..i], controls).0
      invariant regenerated == Regenerations(Drain(state, events[..i], controls).1)
      invariant level.Abstract() == ApplyActions(start, Drain(state, events[..i], controls).1)
    {
      ghost var acts := Drain(state, events[..i], controls).1;
      ghost var issued := ActionsOf(Dispatch(next, events[i], controls).1);
      DrainSnoc(state, events[..i], events[i], controls);
      assert events[..i + 1] == events[..i] + [events[i]];
      ApplyActionsAppend(start, acts, issued);
      RegenerationsAppend(acts, issued);
      var n, r := HandleEvent(level, next, events[i], controls);
      next := n;
      regenerated := regenerated + r;
      i := i + 1;
    }
    assert events[..i] == events;
  }

  /** What remains of the loop after `k` frames, together with what those
      frames did, is the whole run. */
  ghost predicate PlayedSoFar(whole: (State, seq<Action>, nat), s: State, batches: seq<seq<FrameEvent>>,
                              k: nat, done: seq<Action>, controls: Controls)
    requires k <= |batches|
  {
    var rest := Play(s, batches[k..], controls);
    whole == (rest.0, done + rest.1, k + rest.2)
  }

  /** Running one more frame keeps the account of the whole run. */
  lemma PlayAdvance(whole: (State, seq<Action>, nat), s: State, batches: seq<seq<FrameEvent>>,
                    k: nat, done: seq<Action>, controls: Controls)
    requires s != Stopped && k < |batches|
    requires PlayedSoFar(whole, s, batches, k, done, controls)
    ensures var drained := Drain(s, batches[k], controls);
            PlayedSoFar(whole, drained.0, batches, k + 1, done + drained.1, controls)
  {
    var drained := Drain(s, batches[k], controls);
    PlayFrame(s, batches, k, controls);
    var later := Play(drained.0, batches[k + 1..], controls);
    assert done + (drained.1 + later.1) == (done + drained.1) + later.1;
  }

  /** The loop over a finite stream of batches, from RUNNING. */
  method Run(level: Level, batches: seq<seq<FrameEvent>>, controls: Controls)
    returns (state: State, frames: nat)
    requires level.Valid()
    modifies level`interactions, level.player`row, level.player`col
    ensures level.Valid()
    ensures state == Play(Running, batches, controls).0
    ensures frames == Play(Running, batches, controls).2
    ensures level.Abstract() == ApplyActions(old(level.Abstract()), Play(Running, batches, controls).1)
  {
    state := Running;
    frames := 0;
    ghost var start := level.Abstract();
    ghost var done: seq<Action> := [];
    ghost var whole := Play(Running, batches, controls);
    assert batches[frames..] == batches;
    assert done + whole.1 == whole.1;
    while state != Stopped && frames < |batches|
      invariant 0 <= frames <= |batches|
      invariant level.Valid()
      invariant Rectangular(start.grid)
      invariant PlayedSoFar(whole, state, batches, frames, done, controls)
      invariant level.Abstract() == ApplyActions(start, done)
    {
      ghost var drained := Drain(state, batches[frames], controls);
      PlayAdvance(whole, state, batches, frames, done, controls);
      ApplyActionsAppend(start, done, drained.1);
      var next, _ := ProcessBatch(level, state, batches[frames], controls);
      done := done + drained.1;
      state := next;
      frames := frames + 1;
    }
    assert done + [] == done;
  }
}
