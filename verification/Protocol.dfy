/**
  The framebuffer shared between writers and flipdot_task: writers change columns and then set the dirty bit;
  flipdot_task atomically waits for the bit and clears it, copies the frame column by column and draws its private copy.
  Every step below may be interleaved with any other that is enabled, and time may pass between any two of them.
 */
module Protocol {
  import opened Columns
  import opened Frames
  import opened Layout
  import opened Rendering
  import opened Schedule
  import opened Devices
  import opened DrawColumn
  import opened DrawFrame
  import opened Fuse

  /** Where flipdot_task stands: in xEventGroupWaitBits, at the semaphore, copying, or with this left to attempt. */
  datatype Task = Waiting | Woken | Copying(k: nat) | Drawing(todo: seq<Attempt>)

  datatype State = State(
    framebuffer: Frame, internal: Frame, old_: Frame,
    options: Options, snapshot: Options,
    device: Device,
    dirty: bool, powered: bool, semaphore: bool,
    task: Task,
    unflagged: set<nat>,  // writers that changed the framebuffer and have not set the dirty bit since
    missed: bool,         // a dirty bit was consumed while the power was off, and nothing was rendered since
    shown: Fidelity)      // how closely the display is known to follow the private copy

  datatype Action =
    | WriteColumn(writer: nat, x: nat, word: Column)
    | SetDirty(writer: nat)
    | SetOptions(options: Options)
    | SetPower(on: bool)
    | Wake
    | Refuse
    | Begin
    | CopyColumn
    | StartDrawing
    | Draw(event: Event, device: Device)
    | Finish
    | Elapse(us: nat, device: Device)

  /** The fixed part: the panels and the frame width. */
  predicate Hardware(slots: seq<Slot>, width: nat) {
    |slots| <= 5 && width < 256
  }

  /** Options that the setters let through: any delays, and any order of existing panels. */
  predicate Acceptable(o: Options, slots: seq<Slot>, width: nat) {
    |o.delays| == width && InRange(o.order, |slots|)
  }

  /** Options with which a render reaches the whole display with pulses that the device can use. */
  ghost predicate Usable(o: Options, slots: seq<Slot>, width: nat, minHold: nat) {
    && AllDrawable(slots, width) && CoversAll(o.order, |slots|)
    && forall x :: 0 <= x < |o.delays| ==> LongEnough(o.delays[x], minHold)
  }

  function JobOf(s: State, slots: seq<Slot>): Job {
    Job(slots, s.snapshot, s.old_, s.internal)
  }

  /** How closely the display will follow the private copy when the render with the current snapshot completes. */
  ghost function ToBeShown(s: State, slots: seq<Slot>): Fidelity {
    if !Usable(s.snapshot, slots, |s.internal|, s.device.minHold) then Loose
    else if s.snapshot.mode.Full? then Exact
    else s.shown
  }

  ghost predicate Init(s: State, slots: seq<Slot>, width: nat) {
    && s.framebuffer == s.internal == s.old_ == seq(width, _ => {})
    && Acceptable(s.options, slots, width) && s.snapshot == s.options
    && Fits(s.device, slots) && s.device.io == IDLE
    && !s.dirty && !s.powered && !s.semaphore && s.task == Waiting
    && s.unflagged == {} && !s.missed && s.shown == (if AllDrawable(slots, width) then Bright else Loose)
  }

  /** One step of a writer, of a caller of the setters, of flipdot_task, or of time. */
  ghost predicate Next(s: State, a: Action, s': State, slots: seq<Slot>) {
    match a
    case WriteColumn(w, x, word) =>
      x < |s.framebuffer| && s' == s.(framebuffer := s.framebuffer[x := word], unflagged := s.unflagged + {w})
    case SetDirty(w) =>
      s' == s.(dirty := true, unflagged := s.unflagged - {w})
    case SetOptions(o) =>
      Acceptable(o, slots, |s.framebuffer|) && s' == s.(options := o)
    case SetPower(on) =>
      !s.semaphore && s' == s.(powered := on)
    case Wake =>
      s.task == Waiting && s.dirty && s' == s.(dirty := false, task := Woken)
    case Refuse =>
      s.task == Woken && !s.semaphore && !s.powered && s' == s.(task := Waiting, missed := true)
    case Begin =>
      && s.task == Woken && !s.semaphore && s.powered
      && s' == s.(semaphore := true, snapshot := s.options, old_ := s.internal,
                  internal := seq(|s.internal|, _ => {}), missed := false, task := Copying(0))
    case CopyColumn =>
      && s.task.Copying? && s.task.k < |s.framebuffer| == |s.internal|
      && s' == s.(internal := s.internal[s.task.k := s.framebuffer[s.task.k]], task := Copying(s.task.k + 1))
    case StartDrawing =>
      && s.task == Copying(|s.framebuffer|) && WellFormed(JobOf(s, slots))
      && s' == s.(task := Drawing(FrameProgram(JobOf(s, slots))))
    case Draw(e, d') =>
      && s.task.Drawing? && s.task.todo != [] && ValidDevice(s.device)
      && Matches(s.task.todo[0], e) && Step(s.device, e, d')
      && s' == s.(device := d', task := if Fatal(s.task.todo[0], e) then Waiting else Drawing(s.task.todo[1..]))
    case Finish =>
      && s.task == Drawing([]) && WellFormed(JobOf(s, slots))
      && s' == if NoneRejected(JobOf(s, slots)) then s.(semaphore := false, task := Waiting, shown := ToBeShown(s, slots))
               else s.(task := Waiting)
    case Elapse(us, d') =>
      ValidDevice(s.device) && Step(s.device, Waited(us), d') && s' == s.(device := d')
  }

  // ----- The invariant

  ghost predicate Shape(s: State, slots: seq<Slot>) {
    && Hardware(slots, |s.framebuffer|)
    && |s.framebuffer| == |s.internal| == |s.old_|
    && Fits(s.device, slots)
    && Acceptable(s.options, slots, |s.framebuffer|) && Acceptable(s.snapshot, slots, |s.framebuffer|)
  }

  /** Column `x` of the private copy is up to date, or something still announces that it is not. */
  ghost predicate Announced(s: State, x: nat)
    requires x < |s.framebuffer| == |s.internal|
  {
    s.framebuffer[x] == s.internal[x] || s.dirty || s.unflagged != {} || s.missed
  }

  /** How many columns of the private copy flipdot_task vouches for. */
  function Vouched(s: State): nat {
    match s.task
    case Waiting => |s.framebuffer|
    case Woken => 0
    case Copying(k) => k
    case Drawing(_) => |s.framebuffer|
  }

  ghost predicate Announcing(s: State)
    requires |s.framebuffer| == |s.internal|
  {
    Vouched(s) <= |s.framebuffer| && forall x :: 0 <= x < Vouched(s) ==> Announced(s, x)
  }

  /** `from` is `d`, or what time may have made of it. */
  ghost predicate Later(d: Device, from: Device) {
    ValidDevice(d) && (from == d || exists us: nat :: Step(d, Waited(us), from))
  }

  /** An execution of `todo` from `d`, begun at once or after a while. */
  ghost predicate Unfolds(d: Device, states: seq<Device>, events: seq<Event>, todo: seq<Attempt>, ok: bool) {
    |states| == |events| + 1 && Performs(states, events, todo, ok) && Later(d, states[0])
  }

  /** A driver powered by a write is held: a delay comes next. */
  predicate Held(todo: seq<Attempt>) {
    forall i :: 0 <= i < |todo| && todo[i].Write? && !Dark(todo[i].io) ==> i + 1 < |todo| && todo[i + 1].Delay?
  }

  ghost predicate AllAimed(states: seq<Device>, slots: seq<Slot>, frame: Frame) {
    forall i :: 0 <= i < |states| ==> Aimed(states[i], slots, frame)
  }

  /** Nothing is driven, and the display follows the frame as closely as `how` says. */
  ghost predicate Finished(d: Device, slots: seq<Slot>, frame: Frame, how: Fidelity) {
    Fits(d, slots) && Dark(d.io) && (how.Loose? || Shows(d, slots, frame, how))
  }

  /** The frame is on the display, or a write has failed and time does not move a dot. */
  ghost predicate Ended(d: Device, ok: bool, slots: seq<Slot>, frame: Frame, how: Fidelity) {
    if ok then Finished(d, slots, frame, how) else how.Loose? || Fixed(d)
  }

  /** However the rest of the program is executed, its pulses are aimed, and it brings the frame on the display or fails. */
  ghost predicate WillEnd(d: Device, todo: seq<Attempt>, slots: seq<Slot>, frame: Frame, how: Fidelity) {
    forall states: seq<Device>, events: seq<Event>, ok: bool ::
      Unfolds(d, states, events, todo, ok) ==>
        AllAimed(states, slots, frame) && Ended(states[|events|], ok, slots, frame, how)
  }

  /** After a render was cut short. */
  ghost predicate Halted(s: State, slots: seq<Slot>) {
    && Aimed(s.device, slots, s.internal)
    && (ToBeShown(s, slots).Loose? || Fixed(s.device))
  }

  ghost predicate Displayed(s: State, slots: seq<Slot>) {
    match s.task
    case Waiting => if s.semaphore then Halted(s, slots) else Finished(s.device, slots, s.internal, s.shown)
    case Woken => if s.semaphore then Halted(s, slots) else Finished(s.device, slots, s.internal, s.shown)
    case Copying(_) => s.semaphore && Finished(s.device, slots, s.old_, s.shown)
    case Drawing(todo) =>
      s.semaphore && Held(todo) && WillEnd(s.device, todo, slots, s.internal, ToBeShown(s, slots))
  }

  ghost predicate Inv(s: State, slots: seq<Slot>) {
    Shape(s, slots) && Announcing(s) && Displayed(s, slots)
  }

  lemma InitInv(s: State, slots: seq<Slot>, width: nat)
    requires Hardware(slots, width) && Init(s, slots, width)
    ensures Inv(s, slots)
  {
    if AllDrawable(slots, width) {
      forall p | 0 <= p < |slots|
        ensures PanelShows(s.device, slots, s.internal, p, Bright)
      {
        assert Drawable(slots[p], width);
      }
    }
  }

  // ----- Time and the rest of a program

  lemma LaterElapses(d: Device, us: nat, d': Device, from: Device)
    requires ValidDevice(d) && Step(d, Waited(us), d') && Later(d', from)
    ensures Later(d, from)
  {
    if from != d' {
      var t: nat :| Step(d', Waited(t), from);
      WaitsMerge(d, us, d', t, from);
    }
  }

  lemma WillEndElapses(d: Device, us: nat, d': Device, todo: seq<Attempt>, slots: seq<Slot>, frame: Frame, how: Fidelity)
    requires ValidDevice(d) && Step(d, Waited(us), d') && WillEnd(d, todo, slots, frame, how)
    ensures WillEnd(d', todo, slots, frame, how)
  {
    hide Performs, Later, Ended, Step, AllAimed;
    forall states: seq<Device>, events: seq<Event>, ok: bool | Unfolds(d', states, events, todo, ok)
      ensures AllAimed(states, slots, frame) && Ended(states[|events|], ok, slots, frame, how)
    {
      LaterElapses(d, us, d', states[0]);
      assert Unfolds(d, states, events, todo, ok);
    }
  }

  /** One attempt carried out before the rest of a program. */
  lemma PerformsAfter(d: Device, e: Event, states: seq<Device>, events: seq<Event>, todo: seq<Attempt>, ok: bool)
    requires todo != [] && ValidDevice(d) && Matches(todo[0], e) && !Fatal(todo[0], e)
    requires Performs(states, events, todo[1..], ok) && Step(d, e, states[0])
    ensures Performs([d] + states, [e] + events, todo, ok)
    ensures |states| == |events| + 1 && ([d] + states)[|[e] + events|] == states[|events|]
  {
    RunsPrepend(d, e, states, events);
    assert [todo[0]] + todo[1..] == todo;
    assert Executes([todo[0]], [e], true);
    ExecutesThen([todo[0]], [e], todo[1..], events, ok);
  }

  lemma DelayComesFirst(states: seq<Device>, events: seq<Event>, todo: seq<Attempt>, ok: bool)
    requires todo != [] && todo[0].Delay? && Performs(states, events, todo, ok)
    ensures |states| == |events| + 1 > 1 && ValidDevice(states[0])
    ensures events[0].Waited? && Matches(todo[0], events[0]) && Step(states[0], events[0], states[1])
    ensures Performs(states[1..], events[1..], todo[1..], ok)
  {
    hide Step;
    assert Matches(todo[0], events[0]) && Step(states[0], events[0], states[1]);
    assert todo == [todo[0]] + todo[1..];
    PerformsSplit(states, events, [todo[0]], todo[1..], ok);
  }

  /** A program that starts with a delay, begun a while ago: the delay was longer. */
  lemma PerformsEarlier(d: Device, states: seq<Device>, events: seq<Event>, todo: seq<Attempt>, ok: bool)
      returns (states': seq<Device>, events': seq<Event>)
    requires todo != [] && todo[0].Delay? && Unfolds(d, states, events, todo, ok)
    ensures |states'| == |events'| + 1 && Performs(states', events', todo, ok)
    ensures states'[0] == d && states'[1..] == states[1..] && |events| > 0
    ensures states'[|events'|] == states[|events|]
  {
    hide Performs, Step;
    DelayComesFirst(states, events, todo, ok);
    var e := events[0];
    if states[0] != d {
      var t: nat :| Step(d, Waited(t), states[0]);
      WaitsMerge(d, t, states[0], e.us, states[1]);
      e := Waited(if t < e.us then e.us else t);
    }
    PerformsAfter(d, e, states[1..], events[1..], todo, ok);
    states', events' := [d] + states[1..], [e] + events[1..];
  }

  /** Time moves no token and no register. */
  lemma LaterAimed(d: Device, from: Device, slots: seq<Slot>, frame: Frame)
    requires Later(d, from) && Aimed(d, slots, frame)
    ensures Aimed(from, slots, frame)
  {
    if from != d && !Dark(d.io) {
      var us: nat :| Step(d, Waited(us), from);
      var p: nat, k: nat :| AimedAt(d, slots, frame, p, k);
      forall q | 0 <= q < |d.panels|
        ensures from.panels[q].chain == d.panels[q].chain
      {
        assert Driven(d.io, us >= d.minHold, d.panels[q], from.panels[q]);
      }
      var s :| 2 * k - 1 <= s <= 2 * k + 1 && Token(d, p, s);
      assert Token(from, p, s);
      assert AimedAt(from, slots, frame, p, k);
    }
  }

  lemma DarkHolds(d: Device, from: Device)
    requires ValidDevice(d) && Dark(d.io) && Later(d, from)
    ensures from == d
  {
    if from != d {
      var us: nat :| Step(d, Waited(us), from);
      DarkIsFixed(d);
      FixedStays(d, us, from);
    }
  }

  lemma TailAimed(start: Device, rest: seq<Device>, d': Device, states: seq<Device>, slots: seq<Slot>, frame: Frame)
    requires AllAimed([start] + rest, slots, frame) && |rest| > 0 && |states| > 0
    requires rest == states || (rest[0] == d' && rest[1..] == states[1..] && Later(d', states[0]))
    ensures AllAimed(states, slots, frame)
  {
    hide Aimed;
    var all := [start] + rest;
    assert Aimed(all[1], slots, frame);
    if rest[0] == d' && Later(d', states[0]) {
      LaterAimed(d', states[0], slots, frame);
    }
    forall i | 0 <= i < |states|
      ensures Aimed(states[i], slots, frame)
    {
      if i > 0 {
        assert states[i] == states[1..][i - 1] && rest[i] == rest[1..][i - 1] && all[i + 1] == rest[i];
      } else if rest == states {
        assert all[1] == states[0];
      }
    }
  }

  /** Whatever runs from `d'`, or later, after the first attempt of `todo`, runs from `d`, or later, with that attempt. */
  lemma PerformsBefore(d: Device, e: Event, d': Device, todo: seq<Attempt>, states: seq<Device>, events: seq<Event>, ok: bool,
                       slots: seq<Slot>, frame: Frame)
      returns (states': seq<Device>, events': seq<Event>)
    requires todo != [] && Held(todo) && ValidDevice(d) && Matches(todo[0], e) && !Fatal(todo[0], e) && Step(d, e, d')
    requires Unfolds(d', states, events, todo[1..], ok)
    ensures Unfolds(d, states', events', todo, ok) && states'[|events'|] == states[|events|]
    ensures AllAimed(states', slots, frame) ==> AllAimed(states, slots, frame)
  {
    hide Performs, Aimed;
    StepKeepsValid(d, e, d');
    var start, from, e', rest, events1 := d, states[0], e, states, events;
    match e {
    case Waited(us) =>
      if from != d' {
        var t: nat :| Step(d', Waited(t), from);
        WaitsMerge(d, us, d', t, from);
        e' := Waited(if us < t then t else us);
      }
    case Wrote(io, written) =>
      if !written {
        start := from;
      } else if Dark(io) {
        DarkHolds(d', from);
      } else {
        rest, events1 := PerformsEarlier(d', states, events, todo[1..], ok);
      }
    }
    PerformsAfter(start, e', rest, events1, todo, ok);
    states', events' := [start] + rest, [e'] + events1;
    if AllAimed(states', slots, frame) {
      TailAimed(start, rest, d', states, slots, frame);
    }
  }

  /** One attempt executed: what was promised for the whole rest is promised for what is left. */
  lemma WillEndStep(d: Device, e: Event, d': Device, todo: seq<Attempt>, slots: seq<Slot>, frame: Frame, how: Fidelity)
    requires todo != [] && Held(todo) && ValidDevice(d) && Matches(todo[0], e) && !Fatal(todo[0], e) && Step(d, e, d')
    requires WillEnd(d, todo, slots, frame, how)
    ensures WillEnd(d', todo[1..], slots, frame, how)
  {
    hide Ended, Performs, Later, Step, Held, Matches, Fatal, AllAimed;
    forall states: seq<Device>, events: seq<Event>, ok: bool | Unfolds(d', states, events, todo[1..], ok)
      ensures AllAimed(states, slots, frame) && Ended(states[|events|], ok, slots, frame, how)
    {
      var states', events' := PerformsBefore(d, e, d', todo, states, events, ok, slots, frame);
    }
  }

  lemma WillEndNow(d: Device, slots: seq<Slot>, frame: Frame, how: Fidelity)
    requires ValidDevice(d) && WillEnd(d, [], slots, frame, how)
    ensures Finished(d, slots, frame, how)
  {
    assert Unfolds(d, [d], [], [], true);
    assert Ended([d][0], true, slots, frame, how);
  }

  lemma WillEndFails(d: Device, e: Event, d': Device, todo: seq<Attempt>, slots: seq<Slot>, frame: Frame, how: Fidelity)
    requires todo != [] && ValidDevice(d) && Matches(todo[0], e) && Fatal(todo[0], e) && Step(d, e, d')
    requires WillEnd(d, todo, slots, frame, how)
    ensures Aimed(d', slots, frame) && (how.Loose? || Fixed(d'))
  {
    assert Unfolds(d, [d, d'], [e], todo, false);
    assert Ended([d, d'][|[e]|], false, slots, frame, how) && Aimed([d, d'][1], slots, frame);
  }

  /** What is driven now is aimed: some execution of the rest starts here. */
  lemma WillEndAimed(d: Device, todo: seq<Attempt>, slots: seq<Slot>, frame: Frame, how: Fidelity)
    requires ValidDevice(d) && WillEnd(d, todo, slots, frame, how)
    ensures Aimed(d, slots, frame)
  {
    var states, events := CanPerform(d, todo);
    assert Unfolds(d, states, events, todo, true);
    assert Aimed(states[0], slots, frame);
  }

  lemma FrameHolds(job: Job)
    requires WellFormed(job)
    ensures Held(FrameProgram(job))
  {
    hide FrameProgram;
    FramePulses(job);
    var program := FrameProgram(job);
    forall i | 0 <= i < |program| && program[i].Write? && !Dark(program[i].io)
      ensures i + 1 < |program| && program[i + 1].Delay?
    {
      assert PulseAt(program, i);
    }
  }

  lemma FrameEnds(states: seq<Device>, events: seq<Event>, ok: bool, job: Job, how: Fidelity)
    requires |states| > 0 && CanRender(states[0], job, how)
    requires !how.Loose? ==> NoneRejected(job) && CoversAll(job.options.order, |job.slots|)
    requires Performs(states, events, FrameProgram(job), ok)
    ensures |states| == |events| + 1 && AllAimed(states, job.slots, job.new_)
    ensures Ended(states[|events|], ok, job.slots, job.new_, how)
  {
    assert WellFormed(job) && Fits(states[0], job.slots) && Dark(states[0].io);
    LengthOfRun(states, events);
    hide CanRender, NoneRejected, FrameProgram, Runs, Executes, Aimed, Shows, Fixed, Reached, FrameMoment;
    forall i | 0 <= i < |states|
      ensures Aimed(states[i], job.slots, job.new_)
    {
      PulsesAreAimed(states, events, ok, job, i);
    }
    if ok {
      RenderDraws(states, events, job, how);
      if !how.Loose? {
        RenderShowsNewFrame(states, events, job, how);
      }
    } else if !how.Loose? {
      FailedRenderIsFixed(states, events, job, how);
    }
  }

  /** What the display shows, and how the snapshot draws on it, is enough to render to the expected fidelity. */
  lemma SnapshotCanRender(s: State, slots: seq<Slot>)
    requires Shape(s, slots) && Finished(s.device, slots, s.old_, s.shown)
    ensures var job := JobOf(s, slots);
            && CanRender(s.device, job, ToBeShown(s, slots))
            && (!ToBeShown(s, slots).Loose? ==> NoneRejected(job) && CoversAll(job.options.order, |job.slots|))
  {
    var job := JobOf(s, slots);
    assert WellFormed(job);
    if Usable(s.snapshot, slots, |s.internal|, s.device.minHold) {
      assert AllPanelsDrawable(job);
      ReachesAll(job, 0);
    }
  }

  lemma FrameWillEnd(d: Device, job: Job, how: Fidelity)
    requires CanRender(d, job, how)
    requires !how.Loose? ==> NoneRejected(job) && CoversAll(job.options.order, |job.slots|)
    ensures WillEnd(d, FrameProgram(job), job.slots, job.new_, how)
  {
    assert WellFormed(job) && ValidDevice(d) && Dark(d.io);
    hide CanRender, CoversAll, NoneRejected, FrameProgram, AllAimed, Ended, Performs, Later;
    forall states: seq<Device>, events: seq<Event>, ok: bool | Unfolds(d, states, events, FrameProgram(job), ok)
      ensures AllAimed(states, job.slots, job.new_) && Ended(states[|events|], ok, job.slots, job.new_, how)
    {
      DarkHolds(d, states[0]);
      FrameEnds(states, events, ok, job, how);
    }
  }

  // ----- Every step keeps the invariant

  lemma NextKeepsShape(s: State, a: Action, s': State, slots: seq<Slot>)
    requires Inv(s, slots) && Next(s, a, s', slots)
    ensures Shape(s', slots)
  {
    hide Displayed, FrameProgram, Announcing;
    if a.Draw? {
      StepKeepsValid(s.device, a.event, a.device);
    } else if a.Elapse? {
      StepKeepsValid(s.device, Waited(a.us), a.device);
    }
  }

  lemma NextKeepsAnnouncing(s: State, a: Action, s': State, slots: seq<Slot>)
    requires Inv(s, slots) && Next(s, a, s', slots)
    requires |s'.framebuffer| == |s'.internal|
    ensures Announcing(s')
  {
    hide Displayed, FrameProgram, Step, Fits, Acceptable, ToBeShown, WellFormed, NoneRejected, Matches, Fatal;
    forall x | 0 <= x < Vouched(s')
      ensures Announced(s', x)
    {
      if x < Vouched(s) {
        assert Announced(s, x);
      }
      if a.WriteColumn? {
        assert a.writer in s'.unflagged;
      }
    }
  }

  /** Steps that do not concern the device, nor start to draw. */
  lemma OtherKeepsDisplayed(s: State, a: Action, s': State, slots: seq<Slot>)
    requires Inv(s, slots) && Next(s, a, s', slots)
    requires !a.StartDrawing? && !a.Draw? && !a.Finish? && !a.Elapse?
    ensures Displayed(s', slots)
  {
    hide WillEnd, Finished, Fixed, Aimed, Held, Step, FrameProgram, Shape, Announcing, Usable;
  }

  // ----- Runs

  /** A render was cut short inside the panel loop: flipdot_task is back in its loop with the semaphore still taken. */
  predicate Stuck(s: State) {
    s.semaphore && (s.task == Waiting || s.task == Woken)
  }

  lemma ElapseKeepsDisplayed(s: State, a: Action, s': State, slots: seq<Slot>)
    requires Inv(s, slots) && Next(s, a, s', slots) && a.Elapse?
    ensures Displayed(s', slots)
    ensures s'.device.io == s.device.io && (Fixed(s.device) ==> s' == s)
  {
    hide WillEnd, Fixed, Aimed, Held, Shows, Announcing, Usable;
    if Fixed(s.device) {
      FixedStays(s.device, a.us, a.device);
    }
    if s.task.Drawing? {
      WillEndElapses(s.device, a.us, a.device, s.task.todo, slots, s.internal, ToBeShown(s, slots));
    } else if Stuck(s) {
      assert Later(s.device, a.device);
      LaterAimed(s.device, a.device, slots, s.internal);
    } else {
      DarkIsFixed(s.device);
    }
  }

  lemma DrawKeepsDisplayed(s: State, a: Action, s': State, slots: seq<Slot>)
    requires Inv(s, slots) && Next(s, a, s', slots) && a.Draw?
    ensures Displayed(s', slots)
  {
    assert s'.device.minHold == s.device.minHold;
    hide WillEnd, Fixed, Aimed, Step, Finished, Shape, Announcing, Usable;
    var todo, how := s.task.todo, ToBeShown(s, slots);
    if Fatal(todo[0], a.event) {
      WillEndFails(s.device, a.event, a.device, todo, slots, s.internal, how);
    } else {
      WillEndStep(s.device, a.event, a.device, todo, slots, s.internal, how);
    }
  }

  /** compare_partial rejects a panel only if not all panels are drawable. */
  lemma RejectedIsLoose(s: State, slots: seq<Slot>)
    requires WellFormed(JobOf(s, slots)) && !NoneRejected(JobOf(s, slots))
    ensures ToBeShown(s, slots) == Loose
  {
    if AllDrawable(slots, |s.internal|) {
      ReachesAll(JobOf(s, slots), 0);
    }
  }

  lemma FinishKeepsDisplayed(s: State, a: Action, s': State, slots: seq<Slot>)
    requires Inv(s, slots) && Next(s, a, s', slots) && a.Finish?
    ensures Displayed(s', slots)
  {
    hide WillEnd, Fixed, Aimed, Step, Shows, Announcing, Usable, NoneRejected, WellFormed;
    WillEndNow(s.device, slots, s.internal, ToBeShown(s, slots));
    if !NoneRejected(JobOf(s, slots)) {
      RejectedIsLoose(s, slots);
      WillEndAimed(s.device, [], slots, s.internal, Loose);
    }
  }

  lemma StartKeepsDisplayed(s: State, a: Action, s': State, slots: seq<Slot>)
    requires Inv(s, slots) && Next(s, a, s', slots) && a.StartDrawing?
    ensures Displayed(s', slots)
  {
    hide WillEnd, Finished, Fixed, Aimed, Held, Step, FrameProgram, Announcing, Usable, Shape, CanRender, CoversAll, NoneRejected;
    FrameHolds(JobOf(s, slots));
    SnapshotCanRender(s, slots);
    FrameWillEnd(s.device, JobOf(s, slots), ToBeShown(s, slots));
  }

  lemma NextKeepsDisplayed(s: State, a: Action, s': State, slots: seq<Slot>)
    requires Inv(s, slots) && Next(s, a, s', slots)
    ensures Displayed(s', slots)
  {
    hide Inv, Next, Displayed;
    match a
    case StartDrawing =>
      StartKeepsDisplayed(s, a, s', slots);
    case Draw(_, _) =>
      DrawKeepsDisplayed(s, a, s', slots);
    case Finish =>
      FinishKeepsDisplayed(s, a, s', slots);
    case Elapse(_, _) =>
      ElapseKeepsDisplayed(s, a, s', slots);
    case _ =>
      OtherKeepsDisplayed(s, a, s', slots);
  }

  lemma NextKeepsInv(s: State, a: Action, s': State, slots: seq<Slot>)
    requires Inv(s, slots) && Next(s, a, s', slots)
    ensures Inv(s', slots)
  {
    NextKeepsShape(s, a, s', slots);
    hide Displayed, Announced, Next;
    NextKeepsAnnouncing(s, a, s', slots);
    NextKeepsDisplayed(s, a, s', slots);
  }

  ghost predicate Steps(states: seq<State>, actions: seq<Action>, slots: seq<Slot>) {
    && |states| == |actions| + 1
    && forall i :: 0 <= i < |actions| ==> Next(states[i], actions[i], states[i + 1], slots)
  }

  /** A run of the system: any interleaving of enabled steps. */
  ghost predicate IsRun(states: seq<State>, actions: seq<Action>, slots: seq<Slot>, width: nat) {
    Steps(states, actions, slots) && Hardware(slots, width) && Init(states[0], slots, width)
  }

  lemma {:induction false} RunKeepsInv(states: seq<State>, actions: seq<Action>, slots: seq<Slot>, width: nat, i: nat)
    requires IsRun(states, actions, slots, width) && i < |states|
    ensures Inv(states[i], slots)
  {
    hide Inv, Next, Init, Hardware;
    if i == 0 {
      InitInv(states[0], slots, width);
    } else {
      RunKeepsInv(states, actions, slots, width, i - 1);
      assert Next(states[i - 1], actions[i - 1], states[i - 1 + 1], slots);
      NextKeepsInv(states[i - 1], actions[i - 1], states[i], slots);
    }
  }

  /** flipdot_task is idle and no earlier render was cut short by a failed write. */
  ghost predicate Idle(s: State) {
    s.task == Waiting && !s.semaphore
  }

  /**
    No update is lost, however writers race with the copy: when flipdot_task is idle, the dirty bit is clear, every change
    has been flagged, no dirty bit was dropped for lack of power since, and the display is known to show the private copy
    dot by dot, the display and the private copy are the framebuffer.
   */
  lemma NoLostUpdate(states: seq<State>, actions: seq<Action>, slots: seq<Slot>, width: nat, i: nat)
    requires IsRun(states, actions, slots, width) && i < |states|
    requires var s := states[i]; Idle(s) && !s.dirty && s.unflagged == {} && !s.missed && s.shown == Exact
    ensures var s := states[i]; s.internal == s.framebuffer && Shows(s.device, slots, s.framebuffer, Exact)
  {
    RunKeepsInv(states, actions, slots, width, i);
    var s := states[i];
    forall x | 0 <= x < |s.framebuffer|
      ensures s.framebuffer[x] == s.internal[x]
    {
      assert Announced(s, x);
    }
  }

  /** An idle flipdot_task has drawn exactly the snapshot it took, even when writers changed the frame meanwhile. */
  lemma DrawsItsSnapshot(states: seq<State>, actions: seq<Action>, slots: seq<Slot>, width: nat, i: nat)
    requires IsRun(states, actions, slots, width) && i < |states| && Idle(states[i]) && states[i].shown == Exact
    ensures Shows(states[i].device, slots, states[i].internal, Exact)
  {
    RunKeepsInv(states, actions, slots, width, i);
  }

  lemma StuckStays(s: State, a: Action, s': State, slots: seq<Slot>)
    requires Inv(s, slots) && Stuck(s) && Next(s, a, s', slots)
    ensures Stuck(s') && s'.device.io == s.device.io && s'.internal == s.internal && s'.powered == s.powered
    ensures Fixed(s.device) ==> s'.device == s.device
  {
    if a.Elapse? {
      ElapseKeepsDisplayed(s, a, s', slots);
    }
  }

  lemma StuckIsFixed(s: State, slots: seq<Slot>)
    requires Inv(s, slots) && Stuck(s) && !ToBeShown(s, slots).Loose?
    ensures Fixed(s.device)
  {
  }

  /**
    After a render was cut short nothing ever changes on the display side: the semaphore stays taken, so no step renders
    again or switches the power, and what the registers drive stays driven. If the options reached the whole display
    with pulses that were long enough, time does not move a dot either.
   */
  lemma {:induction false} StuckForever(states: seq<State>, actions: seq<Action>, slots: seq<Slot>, width: nat, i: nat, j: nat)
    requires IsRun(states, actions, slots, width) && i <= j < |states| && Stuck(states[i])
    ensures Stuck(states[j]) && states[j].device.io == states[i].device.io
    ensures states[j].internal == states[i].internal && states[j].powered == states[i].powered
    ensures Fixed(states[i].device) || !ToBeShown(states[i], slots).Loose? ==> states[j].device == states[i].device
    decreases j
  {
    hide Next, Init, Hardware, Stuck, Fixed;
    RunKeepsInv(states, actions, slots, width, i);
    if !ToBeShown(states[i], slots).Loose? {
      StuckIsFixed(states[i], slots);
    }
    if i < j {
      StuckForever(states, actions, slots, width, i, j - 1);
      assert Next(states[j - 1], actions[j - 1], states[j - 1 + 1], slots);
      RunKeepsInv(states, actions, slots, width, j - 1);
      StuckStays(states[j - 1], actions[j - 1], states[j], slots);
    }
  }

  ghost predicate FailsWrite(s: State, a: Action) {
    a.Draw? && s.task.Drawing? && s.task.todo != [] && Fatal(s.task.todo[0], a.event)
  }

  /** The panel loop ended at a panel that compare_partial rejects. */
  ghost predicate Rejects(s: State, a: Action, slots: seq<Slot>) {
    a.Finish? && WellFormed(JobOf(s, slots)) && !NoneRejected(JobOf(s, slots))
  }

  lemma RendersWithSemaphore(s: State, slots: seq<Slot>)
    requires Inv(s, slots)
    ensures s.task.Copying? || s.task.Drawing? ==> s.semaphore
  {
  }

  lemma StuckNext(s: State, a: Action, s': State, slots: seq<Slot>)
    requires Next(s, a, s', slots) && !Stuck(s) && (s.task.Copying? || s.task.Drawing? ==> s.semaphore)
    ensures Stuck(s') <==> FailsWrite(s, a) || Rejects(s, a, slots)
  {
    hide Step, FrameProgram, Usable, WellFormed, NoneRejected, Matches, Fatal;
  }

  /** The semaphore is stuck exactly after a failed checked write or a rejected panel: no other step leaves it taken. */
  lemma StuckOnlyByFailure(states: seq<State>, actions: seq<Action>, slots: seq<Slot>, width: nat, i: nat)
    requires IsRun(states, actions, slots, width) && i < |actions| && !Stuck(states[i])
    ensures Stuck(states[i + 1]) <==> FailsWrite(states[i], actions[i]) || Rejects(states[i], actions[i], slots)
  {
    hide Inv, Next, Stuck, FailsWrite, Rejects, Init, Hardware;
    RunKeepsInv(states, actions, slots, width, i);
    RendersWithSemaphore(states[i], slots);
    StuckNext(states[i], actions[i], states[i + 1], slots);
  }

  // ----- The drivers, in every reachable state

  lemma InvAimed(s: State, slots: seq<Slot>)
    requires Inv(s, slots)
    ensures Aimed(s.device, slots, s.internal)
  {
    hide WillEnd, Shows, Fixed, Announcing, Usable;
    if s.task.Drawing? {
      WillEndAimed(s.device, s.task.todo, slots, s.internal, ToBeShown(s, slots));
    }
  }

  /**
    For all options that the setters accept, while writers race and time passes, between renders and after failures:
    what is powered, if anything, meets the one token, at one column of one panel, with the word that the private copy
    has for that column; clear and rows are never powered together.
   */
  lemma AlwaysAimed(states: seq<State>, actions: seq<Action>, slots: seq<Slot>, width: nat, i: nat)
    requires IsRun(states, actions, slots, width) && i < |states|
    ensures Aimed(states[i].device, slots, states[i].internal)
    ensures !(states[i].device.io.clear && states[i].device.io.rows != {})
  {
    RunKeepsInv(states, actions, slots, width, i);
    hide Inv;
    InvAimed(states[i], slots);
  }

  // ----- Dirty bits dropped for lack of power

  /** Exactly a refusal drops a dirty bit, and exactly the next render makes up for it. */
  lemma MissedExactlyWhen(s: State, a: Action, s': State, slots: seq<Slot>)
    requires Next(s, a, s', slots)
    ensures !s.missed ==> (s'.missed <==> a.Refuse?)
    ensures s.missed ==> (!s'.missed <==> a.Begin?)
  {
    hide Step, FrameProgram, Usable;
  }

  predicate Unfollowed(actions: seq<Action>, r: int, i: nat)
    requires i <= |actions|
  {
    0 <= r < i && actions[r].Refuse? && forall m :: r < m < i ==> !actions[m].Begin?
  }

  /** What the field `missed` stands for: a refusal that no render has followed. */
  lemma {:induction false} MissedMeans(states: seq<State>, actions: seq<Action>, slots: seq<Slot>, width: nat, i: nat)
    requires IsRun(states, actions, slots, width) && i < |states|
    ensures states[i].missed <==> exists r :: Unfollowed(actions, r, i)
  {
    hide Next, Hardware;
    if i > 0 {
      MissedMeans(states, actions, slots, width, i - 1);
      assert Next(states[i - 1], actions[i - 1], states[i - 1 + 1], slots);
      MissedExactlyWhen(states[i - 1], actions[i - 1], states[i], slots);
      if actions[i - 1].Refuse? {
        assert Unfollowed(actions, i - 1, i);
      }
      if states[i - 1].missed && !actions[i - 1].Begin? {
        var r :| Unfollowed(actions, r, i - 1);
        assert Unfollowed(actions, r, i);
      }
      if r :| Unfollowed(actions, r, i) {
        assert r < i - 1 ==> Unfollowed(actions, r, i - 1);
      }
    }
  }

  /** flipdot_task refuses exactly when it was woken and finds the power off. */
  lemma RefusesExactlyWhen(s: State, slots: seq<Slot>)
    ensures (exists s' :: Next(s, Refuse, s', slots)) <==> s.task == Woken && !s.semaphore && !s.powered
  {
    if s.task == Woken && !s.semaphore && !s.powered {
      assert Next(s, Refuse, s.(task := Waiting, missed := true), slots);
    }
  }

  /**
    A dropped dirty bit loses an update: with the power off, any writer that changes a column and flags it leaves a
    display that is behind the framebuffer with nothing announcing it, also after the power is back.
   */
  lemma RefusalLosesUpdate(s: State, slots: seq<Slot>, w: nat, x: nat, word: Column)
      returns (states: seq<State>, actions: seq<Action>)
    requires Idle(s) && !s.powered && x < |s.framebuffer| == |s.internal| && word != s.internal[x]
    ensures Steps(states, actions, slots) && states[0] == s
    ensures var end := states[|actions|];
            && Idle(end) && end.powered && !end.dirty && end.unflagged == s.unflagged - {w}
            && end.device == s.device && end.internal == s.internal && end.shown == s.shown
            && end.framebuffer == s.framebuffer[x := word] && end.framebuffer != end.internal
  {
    hide Usable, Step, FrameProgram;
    var written := s.(framebuffer := s.framebuffer[x := word], unflagged := s.unflagged + {w});
    var flagged := written.(dirty := true, unflagged := written.unflagged - {w});
    var woken := flagged.(dirty := false, task := Woken);
    var refused := woken.(task := Waiting, missed := true);
    states := [s, written, flagged, woken, refused, refused.(powered := true)];
    actions := [WriteColumn(w, x, word), SetDirty(w), Wake, Refuse, SetPower(true)];
    assert refused.(powered := true).framebuffer[x] == word;
  }
}
