/** When writers stop, flipdot_task comes to rest with the framebuffer on the display. */
module Quiescence {
  import opened Columns
  import opened Frames
  import opened Layout
  import opened Schedule
  import opened Devices
  import opened Protocol

  /** A step of flipdot_task itself that does not cut a render short. */
  ghost predicate TaskStep(s: State, a: Action, s': State, slots: seq<Slot>) {
    && Next(s, a, s', slots) && !FailsWrite(s, a) && !Rejects(s, a, slots)
    && (a.Wake? || a.Refuse? || a.Begin? || a.CopyColumn? || a.StartDrawing? || a.Draw? || a.Finish?)
  }

  /** Time passes, or other options are set that can be used and do not leave FULL mode. */
  ghost predicate OutsideStep(s: State, a: Action, s': State, slots: seq<Slot>) {
    && Next(s, a, s', slots)
    && match a
       case Elapse(_, _) => true
       case SetOptions(o) =>
         Usable(o, slots, |s.internal|, s.device.minHold) && (o.mode == s.options.mode || o.mode.Full?)
       case _ => false
  }

  ghost predicate QuietStep(s: State, a: Action, s': State, slots: seq<Slot>) {
    TaskStep(s, a, s', slots) || OutsideStep(s, a, s', slots)
  }

  /** How closely the display follows the private copy once the render in progress, if any, has completed. */
  ghost function Prospect(s: State, slots: seq<Slot>): Fidelity {
    if s.task.Copying? || s.task.Drawing? then ToBeShown(s, slots) else s.shown
  }

  /** The last render that is to come shows its snapshot dot by dot. */
  ghost predicate Syncs(s: State, slots: seq<Slot>) {
    if s.dirty || s.task.Woken? then
      Usable(s.options, slots, |s.internal|, s.device.minHold) && (s.options.mode.Full? || Prospect(s, slots).Exact?)
    else
      Prospect(s, slots).Exact?
  }

  /** The power is on, no write has failed, every change has been flagged and no flag is forgotten. */
  ghost predicate Settling(s: State, slots: seq<Slot>) {
    && Inv(s, slots) && s.powered && !Stuck(s) && s.unflagged == {}
    && (s.missed ==> s.dirty || s.task.Woken?) && Syncs(s, slots)
  }

  ghost predicate AtRest(s: State) {
    Idle(s) && !s.dirty
  }

  /** Which part of its loop flipdot_task still has before it. */
  function Stage(s: State): nat {
    match s.task
    case Woken => 3
    case Copying(_) => 2
    case Drawing(_) => 1
    case Waiting => 0
  }

  /** How many steps it still has inside that part. */
  function Left(s: State): nat {
    match s.task
    case Copying(k) => if k <= |s.framebuffer| then |s.framebuffer| - k else 0
    case Drawing(todo) => |todo|
    case _ => 0
  }

  /** Nearer to rest: the dirty bit is consumed, or the loop has moved on. */
  predicate Nearer(s: State, s': State) {
    || (s.dirty && !s'.dirty)
    || (s.dirty == s'.dirty && (Stage(s') < Stage(s) || (Stage(s') == Stage(s) && Left(s') < Left(s))))
  }

  predicate SameDistance(s: State, s': State) {
    s'.dirty == s.dirty && Stage(s') == Stage(s) && Left(s') == Left(s)
  }

  lemma StepKeepsHold(d: Device, e: Event, d': Device)
    requires ValidDevice(d) && Step(d, e, d')
    ensures d'.minHold == d.minHold
  {
  }

  lemma NextKeepsSize(s: State, a: Action, s': State, slots: seq<Slot>)
    requires Inv(s, slots) && Next(s, a, s', slots)
    ensures s'.device.minHold == s.device.minHold && |s'.internal| == |s.internal|
  {
    hide Displayed, Announcing, FrameProgram, Usable, Acceptable, Step, Fits, Matches, Fatal, WellFormed, NoneRejected;
    if a.Draw? {
      StepKeepsHold(s.device, a.event, a.device);
    } else if a.Elapse? {
      StepKeepsHold(s.device, Waited(a.us), a.device);
    }
  }

  /** Every step of flipdot_task brings it nearer to rest; it changes nothing that a writer wrote. */
  lemma TaskStepSettles(s: State, a: Action, s': State, slots: seq<Slot>)
    requires Settling(s, slots) && TaskStep(s, a, s', slots)
    ensures Settling(s', slots) && Nearer(s, s') && s'.framebuffer == s.framebuffer
  {
    NextKeepsInv(s, a, s', slots);
    NextKeepsSize(s, a, s', slots);
    hide Shape, Announcing, Displayed, Inv, Step, FrameProgram, Usable, WellFormed, NoneRejected, Matches, Fatal;
  }

  /** What happens outside takes it no further from rest. */
  lemma OutsideStepSettles(s: State, a: Action, s': State, slots: seq<Slot>)
    requires Settling(s, slots) && OutsideStep(s, a, s', slots)
    ensures Settling(s', slots) && SameDistance(s, s') && s'.framebuffer == s.framebuffer
  {
    NextKeepsInv(s, a, s', slots);
    NextKeepsSize(s, a, s', slots);
    hide Shape, Announcing, Displayed, Inv, Step, FrameProgram, Usable;
  }

  /** What is left to attempt can be carried out: the device always has a next state. */
  lemma DrawingCanStep(s: State, slots: seq<Slot>) returns (a: Action, s': State)
    requires s.task.Drawing? && ValidDevice(s.device)
    requires WellFormed(JobOf(s, slots)) && NoneRejected(JobOf(s, slots))
    ensures TaskStep(s, a, s', slots)
  {
    hide Step, FrameProgram, Usable, WellFormed, NoneRejected;
    var todo := s.task.todo;
    if todo == [] {
      a, s' := Finish, s.(semaphore := false, task := Waiting, shown := ToBeShown(s, slots));
    } else {
      var e := if todo[0].Write? then Wrote(todo[0].io, true) else Waited(todo[0].us);
      var d := StepTotal(s.device, e);
      a, s' := Draw(e, d), s.(device := d, task := Drawing(todo[1..]));
    }
  }

  lemma CopyingCanStep(s: State, slots: seq<Slot>) returns (a: Action, s': State)
    requires s.task.Copying? && s.task.k <= |s.framebuffer| == |s.internal| && WellFormed(JobOf(s, slots))
    ensures TaskStep(s, a, s', slots)
  {
    hide Step, FrameProgram, Usable, WellFormed;
    var k := s.task.k;
    if k < |s.framebuffer| {
      a, s' := CopyColumn, s.(internal := s.internal[k := s.framebuffer[k]], task := Copying(k + 1));
    } else {
      a, s' := StartDrawing, s.(task := Drawing(FrameProgram(JobOf(s, slots))));
    }
  }

  lemma SettlingRejectsNothing(s: State, slots: seq<Slot>)
    requires Settling(s, slots) && s.task.Drawing?
    ensures WellFormed(JobOf(s, slots)) && NoneRejected(JobOf(s, slots))
  {
    assert AllPanelsDrawable(JobOf(s, slots));
    ReachesAll(JobOf(s, slots), 0);
  }

  /** Short of rest, flipdot_task can always take a step: no guard in Next blocks it. */
  lemma TaskCanStep(s: State, slots: seq<Slot>) returns (a: Action, s': State)
    requires Settling(s, slots) && !AtRest(s)
    ensures TaskStep(s, a, s', slots)
  {
    hide Step, FrameProgram, Drawable, Displayed, NoneRejected, Usable;
    match s.task
    case Waiting =>
      a, s' := Wake, s.(dirty := false, task := Woken);
    case Woken =>
      a, s' := Begin, s.(semaphore := true, snapshot := s.options, old_ := s.internal,
                         internal := seq(|s.internal|, _ => {}), missed := false, task := Copying(0));
    case Copying(_) =>
      a, s' := CopyingCanStep(s, slots);
    case Drawing(_) =>
      SettlingRejectsNothing(s, slots);
      a, s' := DrawingCanStep(s, slots);
  }

  ghost predicate QuietSteps(states: seq<State>, actions: seq<Action>, slots: seq<Slot>) {
    && |states| == |actions| + 1
    && forall i :: 0 <= i < |actions| ==> QuietStep(states[i], actions[i], states[i + 1], slots)
  }

  lemma QuietStepsPrepend(s: State, a: Action, states: seq<State>, actions: seq<Action>, slots: seq<Slot>)
    requires QuietSteps(states, actions, slots) && QuietStep(s, a, states[0], slots)
    ensures QuietSteps([s] + states, [a] + actions, slots)
  {
    hide QuietStep;
    var all, as_ := [s] + states, [a] + actions;
    forall i | 0 <= i < |as_|
      ensures QuietStep(all[i], as_[i], all[i + 1], slots)
    {
      if i > 0 {
        assert all[i] == states[i - 1] && as_[i] == actions[i - 1];
        assert QuietStep(states[i - 1], actions[i - 1], states[i - 1 + 1], slots);
      }
    }
  }

  lemma {:induction false} QuietStepsSettle(states: seq<State>, actions: seq<Action>, slots: seq<Slot>, i: nat)
    requires QuietSteps(states, actions, slots) && Settling(states[0], slots) && i <= |actions|
    ensures Settling(states[i], slots) && states[i].framebuffer == states[0].framebuffer
    decreases i
  {
    hide Settling, TaskStep, OutsideStep, Nearer, SameDistance;
    if i > 0 {
      QuietStepsSettle(states, actions, slots, i - 1);
      assert QuietStep(states[i - 1], actions[i - 1], states[i - 1 + 1], slots);
      if TaskStep(states[i - 1], actions[i - 1], states[i], slots) {
        TaskStepSettles(states[i - 1], actions[i - 1], states[i], slots);
      } else {
        OutsideStepSettles(states[i - 1], actions[i - 1], states[i], slots);
      }
    }
  }

  lemma AtRestShows(s: State, slots: seq<Slot>)
    requires Settling(s, slots) && AtRest(s)
    ensures s.internal == s.framebuffer && Shows(s.device, slots, s.framebuffer, Exact)
  {
    forall x | 0 <= x < |s.framebuffer|
      ensures s.framebuffer[x] == s.internal[x]
    {
      assert Announced(s, x);
    }
  }

  ghost predicate TaskStops(s: State, slots: seq<Slot>) {
    forall a: Action, s': State :: !TaskStep(s, a, s', slots)
  }

  /**
    Once all writers have flagged their changes and stop, however the panels behave and however much time passes where:
    flipdot_task cannot stop short of rest, and where it stops the display shows the framebuffer that the writers left.
   */
  lemma StopsOnlyInSync(states: seq<State>, actions: seq<Action>, slots: seq<Slot>)
    requires QuietSteps(states, actions, slots) && Settling(states[0], slots)
    requires TaskStops(states[|actions|], slots)
    ensures AtRest(states[|actions|])
    ensures Shows(states[|actions|].device, slots, states[0].framebuffer, Exact)
  {
    hide Settling, TaskStep, QuietStep;
    var end := states[|actions|];
    QuietStepsSettle(states, actions, slots, |actions|);
    if !AtRest(end) {
      var a, s' := TaskCanStep(end, slots);
    }
    AtRestShows(end, slots);
  }

  /** It does stop: no endless sequence has it take one step after another, the next one after `n` being number `next(n)`. */
  lemma {:induction false} StepsEnd(states: nat -> State, actions: nat -> Action, next: nat -> nat, slots: seq<Slot>, i: nat, m: nat)
    requires forall n: nat :: QuietStep(states(n), actions(n), states(n + 1), slots)
    requires forall n: nat :: next(n) >= n && TaskStep(states(next(n)), actions(next(n)), states(next(n) + 1), slots)
    requires Settling(states(i), slots) && i <= m && TaskStep(states(m), actions(m), states(m + 1), slots)
    ensures false
    decreases states(i).dirty, Stage(states(i)), Left(states(i)), m - i
  {
    hide Settling, TaskStep, OutsideStep, Stage, Left;
    assert QuietStep(states(i), actions(i), states(i + 1), slots);
    if TaskStep(states(i), actions(i), states(i + 1), slots) {
      TaskStepSettles(states(i), actions(i), states(i + 1), slots);
      StepsEnd(states, actions, next, slots, i + 1, next(i + 1));
    } else {
      OutsideStepSettles(states(i), actions(i), states(i + 1), slots);
      StepsEnd(states, actions, next, slots, i + 1, m);
    }
  }

  /** And so it does come to rest: finitely many steps without a failing write lead there. */
  lemma {:induction false} ComesToRest(s: State, slots: seq<Slot>) returns (states: seq<State>, actions: seq<Action>)
    requires Settling(s, slots)
    ensures QuietSteps(states, actions, slots) && states[0] == s
    ensures Settling(states[|actions|], slots) && AtRest(states[|actions|])
    ensures states[|actions|].framebuffer == s.framebuffer
    ensures Shows(states[|actions|].device, slots, s.framebuffer, Exact)
    decreases s.dirty, Stage(s), Left(s)
  {
    hide Settling, TaskStep, AtRest, Stage, Left;
    if AtRest(s) {
      states, actions := [s], [];
      AtRestShows(s, slots);
    } else {
      var a, s' := TaskCanStep(s, slots);
      TaskStepSettles(s, a, s', slots);
      states, actions := ComesToRest(s', slots);
      QuietStepsPrepend(s, a, states, actions, slots);
      states, actions := [s] + states, [a] + actions;
    }
  }

  // ----- With and without power

  /** Without power: the display is left alone, and the dirty bit is still set, consumed or dropped. */
  ghost predicate Unpowered(s: State, slots: seq<Slot>, d: Device, f: Frame) {
    && Inv(s, slots) && !s.powered && !s.semaphore && (s.task.Waiting? || s.task.Woken?)
    && s.device == d && s.framebuffer == f && (s.dirty || s.task.Woken? || s.missed)
  }

  lemma UnpoweredStays(s: State, a: Action, s': State, slots: seq<Slot>, d: Device, f: Frame)
    requires Unpowered(s, slots, d, f) && QuietStep(s, a, s', slots)
    ensures Unpowered(s', slots, d, f)
  {
    NextKeepsInv(s, a, s', slots);
    if a.Elapse? {
      assert Dark(s.device.io);
      DarkIsFixed(s.device);
      ElapseKeepsDisplayed(s, a, s', slots);
    }
    hide Inv, Step, FrameProgram, Usable;
  }

  lemma {:induction false} UnpoweredSteps(states: seq<State>, actions: seq<Action>, slots: seq<Slot>, d: Device, f: Frame, i: nat)
    requires QuietSteps(states, actions, slots) && Unpowered(states[0], slots, d, f) && i <= |actions|
    ensures Unpowered(states[i], slots, d, f)
    decreases i
  {
    hide Unpowered, QuietStep;
    if i > 0 {
      UnpoweredSteps(states, actions, slots, d, f, i - 1);
      assert QuietStep(states[i - 1], actions[i - 1], states[i - 1 + 1], slots);
      UnpoweredStays(states[i - 1], actions[i - 1], states[i], slots, d, f);
    }
  }

  lemma UnpoweredCanStep(s: State, slots: seq<Slot>, d: Device, f: Frame) returns (a: Action, s': State)
    requires Unpowered(s, slots, d, f) && !AtRest(s)
    ensures TaskStep(s, a, s', slots)
  {
    hide Inv, Step, FrameProgram, Usable;
    if s.task.Waiting? {
      a, s' := Wake, s.(dirty := false, task := Woken);
    } else {
      RefusesExactlyWhen(s, slots);
      a := Refuse;
      s' :| Next(s, Refuse, s', slots);
    }
  }

  lemma UnpoweredStops(s: State, slots: seq<Slot>, d: Device, f: Frame)
    requires Unpowered(s, slots, d, f) && TaskStops(s, slots)
    ensures AtRest(s) && s.missed
  {
    if !AtRest(s) {
      var a, s' := UnpoweredCanStep(s, slots, d, f);
    }
  }

  /** An update is pending: a writer has changed what the display is to show and has set the dirty bit. */
  ghost predicate Pending(s: State, slots: seq<Slot>) {
    && Inv(s, slots) && Idle(s) && s.dirty && s.unflagged == {} && s.shown == Exact
    && Usable(s.options, slots, |s.internal|, s.device.minHold)
    && !Shows(s.device, slots, s.framebuffer, Exact)
  }

  /**
    The pending update of an idle display reaches it exactly when the power is on: in every sequence of steps that
    flipdot_task can take without a failing write, to its end. Without power the dirty bit ends up dropped.
   */
  lemma UpdateShownExactlyWhenPowered(states: seq<State>, actions: seq<Action>, slots: seq<Slot>)
    requires QuietSteps(states, actions, slots) && Pending(states[0], slots)
    requires TaskStops(states[|actions|], slots)
    ensures Shows(states[|actions|].device, slots, states[0].framebuffer, Exact) <==> states[0].powered
    ensures AtRest(states[|actions|]) && (!states[0].powered ==> states[|actions|].missed)
  {
    hide QuietStep, Inv, Shows, Usable, TaskStops;
    var s := states[0];
    if s.powered {
      StopsOnlyInSync(states, actions, slots);
    } else {
      UnpoweredSteps(states, actions, slots, s.device, s.framebuffer, |actions|);
      UnpoweredStops(states[|actions|], slots, s.device, s.framebuffer);
    }
  }

  // ----- A lost update

  lemma StepsJoin(states: seq<State>, actions: seq<Action>, more: seq<State>, moreActions: seq<Action>, slots: seq<Slot>)
    requires Steps(states, actions, slots) && Steps(more, moreActions, slots) && states[|actions|] == more[0]
    ensures Steps(states + more[1..], actions + moreActions, slots)
    ensures (states + more[1..])[|actions + moreActions|] == more[|moreActions|]
  {
    hide Next;
    var all, as_ := states + more[1..], actions + moreActions;
    forall i | 0 <= i < |as_|
      ensures Next(all[i], as_[i], all[i + 1], slots)
    {
      if i >= |actions| {
        var k := i - |actions|;
        assert all[i] == more[k] && all[i + 1] == more[k + 1] && as_[i] == moreActions[k];
      }
    }
  }

  lemma QuietStepsAreSteps(states: seq<State>, actions: seq<Action>, slots: seq<Slot>)
    requires QuietSteps(states, actions, slots)
    ensures Steps(states, actions, slots)
  {
    hide Next;
    forall i | 0 <= i < |actions|
      ensures Next(states[i], actions[i], states[i + 1], slots)
    {
      assert QuietStep(states[i], actions[i], states[i + 1], slots);
    }
  }

  /** From the start, power on and a first render in FULL mode: the display is in sync. */
  lemma FirstRender(s: State, slots: seq<Slot>, width: nat) returns (states: seq<State>, actions: seq<Action>)
    requires Hardware(slots, width) && Init(s, slots, width)
    requires s.options.mode.Full? && Usable(s.options, slots, width, s.device.minHold)
    ensures Steps(states, actions, slots) && states[0] == s
    ensures Settling(states[|actions|], slots) && AtRest(states[|actions|])
    ensures states[|actions|].framebuffer == s.framebuffer
  {
    InitInv(s, slots, width);
    var on := s.(powered := true);
    var flagged := on.(dirty := true, unflagged := on.unflagged - {0});
    NextKeepsInv(s, SetPower(true), on, slots);
    NextKeepsInv(on, SetDirty(0), flagged, slots);
    states, actions := ComesToRest(flagged, slots);
    QuietStepsAreSteps(states, actions, slots);
    StepsJoin([s, on, flagged], [SetPower(true), SetDirty(0)], states, actions, slots);
    states, actions := [s, on, flagged] + states[1..], [SetPower(true), SetDirty(0)] + actions;
  }

  /**
    NoLostUpdate needs its hypothesis on `missed`: every system with a column has a run that ends at rest, powered, in
    sync, with every change flagged, and with a display that is behind the framebuffer.
   */
  lemma UpdateCanBeLost(s: State, slots: seq<Slot>, width: nat) returns (states: seq<State>, actions: seq<Action>)
    requires Hardware(slots, width) && Init(s, slots, width) && width > 0
    requires s.options.mode.Full? && Usable(s.options, slots, width, s.device.minHold)
    ensures IsRun(states, actions, slots, width) && states[0] == s
    ensures var end := states[|actions|];
            && AtRest(end) && end.powered && end.shown == Exact && end.unflagged == {}
            && end.internal != end.framebuffer && Shows(end.device, slots, end.internal, Exact)
  {
    states, actions := FirstRender(s, slots, width);
    var shown := states[|actions|];
    hide Next;
    var off := shown.(powered := false);
    assert Steps([shown, off], [SetPower(false)], slots);
    StepsJoin(states, actions, [shown, off], [SetPower(false)], slots);
    states, actions := states + [off], actions + [SetPower(false)];
    var word: Column := if shown.internal[0] == {} then {0} else {};
    var more, moreActions := RefusalLosesUpdate(off, slots, 0, 0, word);
    StepsJoin(states, actions, more, moreActions, slots);
    states, actions := states + more[1..], actions + moreActions;
  }
}
