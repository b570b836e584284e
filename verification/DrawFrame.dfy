/** A whole render on the device: what is shown when it completes, and what holds at every moment on the way. */
module DrawFrame {
  import opened Columns
  import opened Counting
  import opened Frames
  import opened Layout
  import opened Rendering
  import opened Schedule
  import opened Devices
  import opened DrawColumn
  import opened DrawPanel

  /** Every configured pulse lasts at least as long as the device needs. */
  ghost predicate PulsesLongEnough(d: Device, job: Job) {
    forall x :: 0 <= x < |job.options.delays| ==> LongEnough(job.options.delays[x], d.minHold)
  }

  /** Column `j` of panel `q` shows the new word. */
  ghost predicate ShowsNew(d: Device, job: Job, q: nat, j: nat, how: Fidelity)
    requires WellFormed(job) && q < |job.slots| && q < |d.panels| && j < |d.panels[q].dots|
  {
    job.slots[q].x + j < |job.new_| && Agrees(how, job.new_[job.slots[q].x + j], d.panels[q].dots[j])
  }

  /** After some stops: the panels in `done` show the new frame, the others what `first` showed. */
  ghost predicate Progress(first: Device, d: Device, job: Job, done: set<nat>, how: Fidelity)
    requires WellFormed(job) && Fits(first, job.slots)
  {
    && Fits(d, job.slots) && d.minHold == first.minHold
    && forall q, j :: 0 <= q < |job.slots| && 0 <= j < job.slots[q].width ==>
         if q in done then ShowsNew(d, job, q, j, how) else d.panels[q].dots[j] == first.panels[q].dots[j]
  }

  /** The panels at the first `n` positions of the drawing order. */
  ghost function Done(job: Job, n: nat): set<nat>
    requires n <= |job.options.order|
  {
    set p | p in job.options.order[..n]
  }

  /** Where the device stands after `n` stops. */
  ghost predicate After(first: Device, d: Device, job: Job, n: nat, how: Fidelity)
    requires WellFormed(job) && Fits(first, job.slots) && n <= |job.options.order|
  {
    Progress(first, d, job, Done(job, n), how) && Dark(d.io)
  }

  /** Column `k` of the panel at position `n` is in progress: columns drawn before are new, all others untouched. */
  ghost predicate ColumnMoment(first: Device, d: Device, job: Job, n: nat, k: nat, how: Fidelity)
    requires WellFormed(job) && Fits(first, job.slots) && Fits(d, job.slots)
  {
    && n < |job.options.order|
    && var p := job.options.order[n];
    && Drawable(job.slots[p], |job.new_|) && k < job.slots[p].width
    && Addressed(d, p, k, Word(job, p, k))
    && forall q, j :: 0 <= q < |job.slots| && 0 <= j < job.slots[q].width && (q != p || j != k) ==>
         if q in Done(job, n) || (q == p && j < k) then ShowsNew(d, job, q, j, how)
         else d.panels[q].dots[j] == first.panels[q].dots[j]
  }

  /**
    A moment of a render: nothing is driven and some stops are done, or one column is in progress; then the one token
    is at that column and any pulse drives that column, with that column's word.
   */
  ghost predicate FrameMoment(first: Device, d: Device, job: Job, how: Fidelity)
    requires WellFormed(job) && Fits(first, job.slots)
  {
    && Fits(d, job.slots)
    && ((exists n: nat :: n <= |job.options.order| && After(first, d, job, n, how))
        || exists n: nat, k: nat :: ColumnMoment(first, d, job, n, k, how))
  }

  ghost predicate Moments(first: Device, states: seq<Device>, job: Job, how: Fidelity)
    requires WellFormed(job) && Fits(first, job.slots)
  {
    forall i :: 0 <= i < |states| ==> FrameMoment(first, states[i], job, how)
  }

  /**
    What a render may start from: nothing driven; and for the dots to follow the frame, pulses long enough and, in
    DIFFERENTIAL mode, the old frame shown.
   */
  ghost predicate CanRender(d: Device, job: Job, how: Fidelity) {
    && WellFormed(job) && Fits(d, job.slots) && Dark(d.io)
    && (how.Loose? || (PulsesLongEnough(d, job) && (job.options.mode.Full? || Shows(d, job.slots, job.old_, how))))
  }

  lemma ProgressPrepared(first: Device, d: Device, job: Job, done: set<nat>, p: nat, how: Fidelity)
    requires CanRender(first, job, how) && Progress(first, d, job, done, how)
    requires CanDraw(d, job, p)
    ensures Prepared(d, job, p, how)
  {
    forall k | 0 <= k < job.slots[p].width
      ensures DotPrepared(d, job, p, k, how)
    {
      if p in done {
        assert ShowsNew(d, job, p, k, how);
      } else if job.options.mode.Differential? && !how.Loose? {
        assert PanelShows(first, job.slots, job.old_, p, how);
      }
    }
  }

  lemma DrawnIsProgress(first: Device, d: Device, d': Device, job: Job, done: set<nat>, p: nat, how: Fidelity)
    requires WellFormed(job) && Fits(first, job.slots) && Progress(first, d, job, done, how)
    requires CanDraw(d, job, p) && Drawn(d, d', job, p, how)
    ensures Progress(first, d', job, done + {p}, how)
  {
    forall q, j | 0 <= q < |job.slots| && 0 <= j < job.slots[q].width
      ensures if q in done + {p} then ShowsNew(d', job, q, j, how) else d'.panels[q].dots[j] == first.panels[q].dots[j]
    {
      if q == p {
        assert Agrees(how, Word(job, p, j), d'.panels[p].dots[j]);
      } else {
        assert d'.panels[q].dots == d.panels[q].dots;
        if q in done {
          assert ShowsNew(d, job, q, j, how);
        }
      }
    }
  }

  lemma SkippedIsProgress(first: Device, d: Device, job: Job, done: set<nat>, p: nat, how: Fidelity)
    requires CanRender(first, job, how) && Progress(first, d, job, done, how)
    requires CanDraw(d, job, p) && SkipPanel(job, p)
    ensures Progress(first, d, job, done + {p}, how)
  {
    DifferenceZero(job.old_, job.new_, job.slots[p].x, job.slots[p].width);
    assert !how.Loose? ==> PanelShows(first, job.slots, job.old_, p, how);
    forall j | 0 <= j < job.slots[p].width
      ensures ShowsNew(d, job, p, j, how)
    {
      if p in done {
        assert ShowsNew(d, job, p, j, how);
      } else if !how.Loose? {
        assert Agrees(how, job.old_[job.slots[p].x + j], first.panels[p].dots[j]);
      }
    }
  }

  lemma UnstartedIsProgress(first: Device, d: Device, d': Device, job: Job, done: set<nat>, how: Fidelity)
    requires WellFormed(job) && Fits(first, job.slots) && Progress(first, d, job, done, how)
    requires Unstarted(d, d') && ValidDevice(d')
    ensures Progress(first, d', job, done, how)
  {
    forall q, j | 0 <= q < |job.slots| && 0 <= j < job.slots[q].width
      ensures if q in done then ShowsNew(d', job, q, j, how) else d'.panels[q].dots[j] == first.panels[q].dots[j]
    {
      if q in done {
        assert ShowsNew(d, job, q, j, how);
      }
    }
  }

  lemma MomentIsColumnMoment(first: Device, d: Device, d': Device, job: Job, n: nat, k: nat, how: Fidelity)
    requires WellFormed(job) && Fits(first, job.slots) && n < |job.options.order|
    requires Progress(first, d, job, Done(job, n), how) && CanDraw(d, job, job.options.order[n]) && ValidDevice(d')
    requires Moment(d, d', job, job.options.order[n], k, how)
    ensures Fits(d', job.slots) && ColumnMoment(first, d', job, n, k, how)
  {
    var p, done := job.options.order[n], Done(job, n);
    forall q, j | 0 <= q < |job.slots| && 0 <= j < job.slots[q].width && (q != p || j != k)
      ensures if q in done || (q == p && j < k) then ShowsNew(d', job, q, j, how)
              else d'.panels[q].dots[j] == first.panels[q].dots[j]
    {
      if q != p {
        assert d'.panels[q].dots == d.panels[q].dots;
      } else if j < k {
        assert Agrees(how, Word(job, p, j), d'.panels[p].dots[j]);
      }
      if q in done {
        assert ShowsNew(d, job, q, j, how);
      }
    }
  }

  lemma ProgressFits(first: Device, d: Device, job: Job, done: set<nat>, how: Fidelity)
    requires WellFormed(job) && Fits(first, job.slots) && Progress(first, d, job, done, how)
    ensures Fits(d, job.slots)
  {
  }

  lemma MomentIsFrameMoment(first: Device, d: Device, d': Device, job: Job, n: nat, how: Fidelity)
    requires WellFormed(job) && Fits(first, job.slots) && n < |job.options.order|
    requires Progress(first, d, job, Done(job, n), how) && CanDraw(d, job, job.options.order[n]) && ValidDevice(d')
    requires Unstarted(d, d') || exists k: nat :: Moment(d, d', job, job.options.order[n], k, how)
    ensures FrameMoment(first, d', job, how)
  {
    hide Progress, ColumnMoment, Moment, Done;
    if Unstarted(d, d') {
      UnstartedIsProgress(first, d, d', job, Done(job, n), how);
      ProgressFits(first, d', job, Done(job, n), how);
      assert After(first, d', job, n, how);
    } else {
      var k: nat :| Moment(d, d', job, job.options.order[n], k, how);
      MomentIsColumnMoment(first, d, d', job, n, k, how);
    }
  }

  lemma DrawnIsDark(first: Device, d: Device, job: Job, p: nat, how: Fidelity)
    requires CanDraw(first, job, p) && Drawn(first, d, job, p, how)
    ensures Dark(d.io)
  {
  }

  /** One stop of the drawing order. */
  lemma StopDraws(first: Device, states: seq<Device>, events: seq<Event>, ok: bool, job: Job, i: nat, how: Fidelity)
    requires CanRender(first, job, how) && DrawableUpTo(job, i + 1)
    requires Runs(states, events) && Executes(StopProgram(job, i), events, ok)
    requires After(first, states[0], job, i, how)
    ensures Moments(first, states, job, how)
    ensures ok ==> Progress(first, states[|events|], job, Done(job, i) + {job.options.order[i]}, how) && Dark(states[|events|].io)
    ensures !ok && !how.Loose? ==> Fixed(states[|events|])
  {
    hide Runs, Prepared, PanelProgram, Drawn, ShowsNew, Progress, PulsesLongEnough, Done, FrameMoment;
    var p, done := job.options.order[i], Done(job, i);
    LengthOfRun(states, events);
    ProgressFits(first, states[0], job, done, how);
    RunsValid(states, events, 0);
    if SkipPanel(job, p) {
      assert events == [];
      SkippedIsProgress(first, states[0], job, done, p, how);
      MomentIsFrameMoment(first, states[0], states[0], job, i, how);
    } else {
      ProgressPrepared(first, states[0], job, done, p, how);
      PanelDraws(states, events, ok, job, p, how);
      forall s | 0 <= s < |states|
        ensures FrameMoment(first, states[s], job, how)
      {
        RunsValid(states, events, s);
        MomentIsFrameMoment(first, states[0], states[s], job, i, how);
      }
      if ok {
        DrawnIsProgress(first, states[0], states[|events|], job, done, p, how);
        DrawnIsDark(states[0], states[|events|], job, p, how);
      }
    }
  }

  lemma NoStops(first: Device, states: seq<Device>, events: seq<Event>, ok: bool, job: Job, how: Fidelity)
    requires CanRender(first, job, how) && |states| == |events| + 1 && states[0] == first
    requires Performs(states, events, [], ok)
    ensures events == [] && ok && After(first, first, job, 0, how) && Moments(first, states, job, how)
  {
    assert After(first, first, job, 0, how);
  }

  lemma DoneGrows(job: Job, n: nat)
    requires n < |job.options.order|
    ensures Done(job, n + 1) == Done(job, n) + {job.options.order[n]}
  {
    assert job.options.order[..n + 1] == job.options.order[..n] + [job.options.order[n]];
  }

  lemma MomentsJoin(first: Device, states: seq<Device>, m: nat, job: Job, how: Fidelity)
    requires WellFormed(job) && Fits(first, job.slots) && m < |states|
    requires Moments(first, states[..m + 1], job, how) && Moments(first, states[m..], job, how)
    ensures Moments(first, states, job, how)
  {
    hide FrameMoment;
    forall s | 0 <= s < |states|
      ensures FrameMoment(first, states[s], job, how)
    {
      if s <= m {
        assert states[s] == states[..m + 1][s];
      } else {
        assert states[s] == states[m..][s - m];
      }
    }
  }

  /** The stop after `m` events that made the stops before it. */
  lemma NextStop(first: Device, states: seq<Device>, events: seq<Event>, ok: bool, job: Job, i: nat, m: nat, how: Fidelity)
    requires CanRender(first, job, how) && DrawableUpTo(job, i + 1)
    requires m <= |events| && |states| == |events| + 1
    requires Performs(states[m..], events[m..], StopProgram(job, i), ok)
    requires Moments(first, states[..m + 1], job, how) && After(first, states[..m + 1][m], job, i, how)
    ensures Moments(first, states, job, how)
    ensures ok ==> After(first, states[|events|], job, i + 1, how)
    ensures !ok && !how.Loose? ==> Fixed(states[|events|])
  {
    hide Runs, Executes, StopProgram, Progress, Moments, Done;
    assert states[..m + 1][m] == states[m..][0];
    StopDraws(first, states[m..], events[m..], ok, job, i, how);
    DoneGrows(job, i);
    MomentsJoin(first, states, m, job, how);
  }

  lemma {:induction false} OrderDraws(first: Device, states: seq<Device>, events: seq<Event>, ok: bool, job: Job, n: nat, how: Fidelity)
    requires CanRender(first, job, how) && DrawableUpTo(job, n)
    requires Performs(states, events, OrderProgram(job, n), ok) && |states| == |events| + 1 && states[0] == first
    ensures Moments(first, states, job, how)
    ensures ok ==> After(first, states[|events|], job, n, how)
    ensures !ok && !how.Loose? ==> Fixed(states[|events|])
    decreases n
  {
    hide Performs, Moments, StopProgram, After;
    if n == 0 {
      NoStops(first, states, events, ok, job, how);
    } else {
      var before := OrderProgram(job, n - 1);
      PerformsSplit(states, events, before, StopProgram(job, n - 1), ok);
      if !ok && |events| <= |before| {
        OrderDraws(first, states, events, ok, job, n - 1, how);
      } else {
        OrderDraws(first, states[..|before| + 1], events[..|before|], true, job, n - 1, how);
        NextStop(first, states, events, ok, job, n - 1, |before|, how);
      }
    }
  }

  lemma ProgressShows(first: Device, d: Device, job: Job, done: set<nat>, p: nat, how: Fidelity)
    requires WellFormed(job) && Fits(first, job.slots) && Progress(first, d, job, done, how)
    requires p < |job.slots| && p in done && Drawable(job.slots[p], |job.new_|)
    ensures PanelShows(d, job.slots, job.new_, p, how)
  {
    forall j | 0 <= j < job.slots[p].width
      ensures Agrees(how, job.new_[job.slots[p].x + j], d.panels[p].dots[j])
    {
      assert ShowsNew(d, job, p, j, how);
    }
  }

  /** The panels that a render compares and draws: those of the order, up to one that compare_partial rejects. */
  ghost function Reached(job: Job): set<nat>
    requires WellFormed(job)
  {
    Done(job, Reach(job, 0))
  }

  lemma NothingPerformed(states: seq<Device>, events: seq<Event>)
    requires Runs(states, events) && Executes([], events, true)
    ensures events == []
  {
  }

  lemma ReachedDrawable(job: Job, p: nat)
    requires WellFormed(job) && p in Reached(job)
    ensures p < |job.slots| && Drawable(job.slots[p], |job.new_|)
  {
    var n := Reach(job, 0);
    var i :| 0 <= i < n && job.options.order[..n][i] == p;
    assert job.options.order[i] == p;
  }

  /**
    Running all register writes of a completed program, in either mode and in any drawing order, with any subset of
    the dots moved by pulses that are too short: the panels reached show the new frame, the others still show what
    they showed. Repeated panels do no harm. All this is to the fidelity that the render starts with.
   */
  lemma RenderDraws(states: seq<Device>, events: seq<Event>, job: Job, how: Fidelity)
    requires |states| > 0 && CanRender(states[0], job, how)
    requires Runs(states, events) && Executes(FrameProgram(job), events, true)
    ensures Fits(states[|events|], job.slots) && Dark(states[|events|].io) && states[|events|].minHold == states[0].minHold
    ensures forall p :: 0 <= p < |job.slots| && p in Reached(job) ==> PanelShows(states[|events|], job.slots, job.new_, p, how)
    ensures forall p :: 0 <= p < |job.slots| && p !in Reached(job) ==>
              states[|events|].panels[p].dots == states[0].panels[p].dots
    ensures SkipFrame(job) ==> states[|events|] == states[0] && job.old_ == job.new_
  {
    LengthOfRun(states, events);
    hide Runs, Executes, PulsesLongEnough, OrderProgram, Moments;
    var first, end, n := states[0], states[|events|], Reach(job, 0);
    if SkipFrame(job) {
      NothingPerformed(states, events);
      DistanceZero(job.old_, job.new_);
      forall p | 0 <= p < |job.slots| && p in Reached(job)
        ensures PanelShows(end, job.slots, job.new_, p, how)
      {
        ReachedDrawable(job, p);
        assert !how.Loose? ==> PanelShows(first, job.slots, job.old_, p, how);
      }
    } else {
      OrderDraws(first, states, events, true, job, n, how);
      forall p | 0 <= p < |job.slots|
        ensures if p in Reached(job) then PanelShows(end, job.slots, job.new_, p, how)
                else end.panels[p].dots == first.panels[p].dots
      {
        if p in Reached(job) {
          ReachedDrawable(job, p);
          ProgressShows(first, end, job, Done(job, n), p, how);
        } else {
          assert forall j :: 0 <= j < job.slots[p].width ==> end.panels[p].dots[j] == first.panels[p].dots[j];
        }
      }
    }
  }

  /** Nothing is rejected: the whole order is reached. */
  lemma WholeOrderReached(job: Job)
    requires WellFormed(job) && NoneRejected(job) && !SkipFrame(job)
    ensures forall p :: p in job.options.order ==> p in Reached(job)
  {
    assert job.options.order[..|job.options.order|] == job.options.order;
  }

  /** An order that names every panel brings the whole new frame on the display. */
  lemma RenderShowsNewFrame(states: seq<Device>, events: seq<Event>, job: Job, how: Fidelity)
    requires |states| > 0 && CanRender(states[0], job, how) && !how.Loose?
    requires NoneRejected(job) && CoversAll(job.options.order, |job.slots|)
    requires Runs(states, events) && Executes(FrameProgram(job), events, true)
    ensures Shows(states[|events|], job.slots, job.new_, how) && Dark(states[|events|].io)
  {
    hide Runs, Executes, FrameProgram, Reached, PulsesLongEnough, PanelShows;
    RenderDraws(states, events, job, how);
    if !SkipFrame(job) {
      WholeOrderReached(job);
    }
  }

  /**
    The same for the log of a driver: if the bus log grew by a completed render of `job` between `before` and `after`,
    any device behaviour on what was logged ends with the new frame shown.
   */
  lemma LoggedRenderShowsNewFrame(before: seq<Event>, after: seq<Event>, states: seq<Device>, job: Job)
    requires |states| > 0 && CanRender(states[0], job, Exact) && NoneRejected(job) && CoversAll(job.options.order, |job.slots|)
    requires Ran(before, after, FrameProgram(job), true) && Runs(states, after[|before|..])
    ensures Shows(states[|states| - 1], job.slots, job.new_, Exact) && Dark(states[|states| - 1].io)
  {
    RenderShowsNewFrame(states, after[|before|..], job, Exact);
  }

  /** The old and the new frame agree on panel `p`. */
  ghost predicate NothingToChange(job: Job, p: nat)
    requires WellFormed(job) && p < |job.slots|
  {
    job.slots[p].x + job.slots[p].width <= |job.new_| && SameOn(job.old_, job.new_, job.slots[p].x, job.slots[p].width)
  }

  ghost predicate MissesNothing(job: Job)
    requires WellFormed(job)
  {
    forall p :: 0 <= p < |job.slots| && p !in Reached(job) ==> NothingToChange(job, p)
  }

  lemma UnmovedPanelShows(d: Device, d': Device, job: Job, p: nat)
    requires WellFormed(job) && Fits(d, job.slots) && Fits(d', job.slots) && p < |job.slots|
    requires PanelShows(d, job.slots, job.old_, p, Exact) && d'.panels[p].dots == d.panels[p].dots
    ensures PanelShows(d', job.slots, job.new_, p, Exact) <==> NothingToChange(job, p)
  {
    var slot := job.slots[p];
    if PanelShows(d', job.slots, job.new_, p, Exact) {
      forall x | slot.x <= x < slot.x + slot.width
        ensures job.old_[x] == job.new_[x]
      {
        var k := x - slot.x;
        assert Agrees(Exact, job.old_[slot.x + k], d.panels[p].dots[k]);
        assert Agrees(Exact, job.new_[slot.x + k], d'.panels[p].dots[k]);
      }
    }
    if NothingToChange(job, p) {
      forall k | 0 <= k < slot.width
        ensures Agrees(Exact, job.new_[slot.x + k], d'.panels[p].dots[k])
      {
        assert Agrees(Exact, job.old_[slot.x + k], d.panels[p].dots[k]);
      }
    }
  }

  /**
    From a display that shows the old frame, a completed program shows the new frame exactly when the panels that it
    does not reach, for lack of a place in the order or behind a rejected panel, have nothing to change.
   */
  lemma RenderCorrectExactlyWhen(states: seq<Device>, events: seq<Event>, job: Job)
    requires |states| > 0 && CanRender(states[0], job, Exact) && Shows(states[0], job.slots, job.old_, Exact)
    requires Runs(states, events) && Executes(FrameProgram(job), events, true)
    ensures Shows(states[|events|], job.slots, job.new_, Exact) <==> MissesNothing(job)
  {
    LengthOfRun(states, events);
    hide Runs, Executes, FrameProgram, Reached, PulsesLongEnough, SkipFrame;
    RenderDraws(states, events, job, Exact);
    var first, end := states[0], states[|events|];
    forall p | 0 <= p < |job.slots| && p !in Reached(job)
      ensures PanelShows(end, job.slots, job.new_, p, Exact) <==> NothingToChange(job, p)
    {
      assert PanelShows(first, job.slots, job.old_, p, Exact);
      UnmovedPanelShows(first, end, job, p);
    }
  }

  /** And when it does not reach a panel that has something to change, a render can run to its end and not show the new frame. */
  lemma IncompleteOrderFails(d: Device, job: Job) returns (states: seq<Device>, events: seq<Event>)
    requires CanRender(d, job, Exact) && Shows(d, job.slots, job.old_, Exact)
    requires !MissesNothing(job)
    ensures Performs(states, events, FrameProgram(job), true) && states[0] == d
    ensures !Shows(states[|events|], job.slots, job.new_, Exact)
  {
    hide MissesNothing, FrameProgram, Shows;
    states, events := CanPerform(d, FrameProgram(job));
    RenderCorrectExactlyWhen(states, events, job);
  }

  lemma SkippedMoments(states: seq<Device>, events: seq<Event>, ok: bool, job: Job, how: Fidelity)
    requires |states| > 0 && CanRender(states[0], job, how) && Runs(states, events) && Executes([], events, ok)
    ensures ok && Moments(states[0], states, job, how)
  {
    NoStops(states[0], states, events, ok, job, how);
  }

  /**
    At every moment of a render, also one cut short by a failing write: the columns already drawn are new, the columns
    not yet drawn are as before, and pulses only ever meet the one column in progress.
   */
  lemma RenderSafeAtEveryMoment(states: seq<Device>, events: seq<Event>, ok: bool, job: Job, i: nat, how: Fidelity)
    requires |states| > 0 && CanRender(states[0], job, how)
    requires Runs(states, events) && Executes(FrameProgram(job), events, ok) && i < |states|
    ensures FrameMoment(states[0], states[i], job, how)
  {
    LengthOfRun(states, events);
    hide Runs, Executes, OrderProgram, FrameMoment, PulsesLongEnough;
    if SkipFrame(job) {
      SkippedMoments(states, events, ok, job, how);
    } else {
      OrderDraws(states[0], states, events, ok, job, Reach(job, 0), how);
    }
  }

  ghost predicate AimedAt(d: Device, slots: seq<Slot>, f: Frame, p: nat, k: nat) {
    p < |slots| && k < slots[p].width && slots[p].x + k < |f| && Addressed(d, p, k, f[slots[p].x + k])
  }

  /** Nothing is driven, or all that is driven meets the one token, at one column, with that column's word of the frame. */
  ghost predicate Aimed(d: Device, slots: seq<Slot>, f: Frame) {
    Dark(d.io) || exists p: nat, k: nat :: AimedAt(d, slots, f, p, k)
  }

  ghost function Dots(d: Device): seq<seq<Column>> {
    seq(|d.panels|, p requires 0 <= p < |d.panels| => d.panels[p].dots)
  }

  /** `d` is `before` but for the one column that is driven, if any. */
  ghost predicate MovesAtMostOne(before: Device, d: Device, slots: seq<Slot>, f: Frame) {
    || (Dark(d.io) && |d.panels| == |before.panels| && Dots(d) == Dots(before))
    || exists p: nat, k: nat :: AimedAt(d, slots, f, p, k) && Touched(before, d, p, k)
  }

  lemma MomentIsAimed(first: Device, d: Device, job: Job)
    requires WellFormed(job) && Fits(first, job.slots) && FrameMoment(first, d, job, Loose)
    ensures Aimed(d, job.slots, job.new_) && FuseSafe(d.io)
  {
    if !Dark(d.io) {
      var n: nat, k: nat :| ColumnMoment(first, d, job, n, k, Loose);
      assert AimedAt(d, job.slots, job.new_, job.options.order[n], k);
    }
  }

  /**
    For every configured delay, down to zero, and every display to start from: at every moment of a render, also one
    cut short, the one token is where a pulse needs it and the pulse carries that column's word. The columns that the
    render has not come to are untouched.
   */
  lemma PulsesAreAimed(states: seq<Device>, events: seq<Event>, ok: bool, job: Job, i: nat)
    requires |states| > 0 && WellFormed(job) && Fits(states[0], job.slots) && Dark(states[0].io)
    requires Runs(states, events) && Executes(FrameProgram(job), events, ok) && i < |states|
    ensures Aimed(states[i], job.slots, job.new_) && FuseSafe(states[i].io)
    ensures FrameMoment(states[0], states[i], job, Loose)
  {
    hide Runs, Executes, FrameProgram;
    RenderSafeAtEveryMoment(states, events, ok, job, i, Loose);
    MomentIsAimed(states[0], states[i], job);
  }

  lemma DarkMovesNothing(d: Device, e: Event, d': Device)
    requires ValidDevice(d) && Step(d, e, d') && Dark(d'.io)
    ensures |d'.panels| == |d.panels| && Dots(d') == Dots(d)
  {
    if d' != d {
      forall q | 0 <= q < |d.panels|
        ensures d'.panels[q].dots == d.panels[q].dots
      {
        assert forall k :: 0 <= k < |d.panels[q].dots| ==> d'.panels[q].dots[k] == d.panels[q].dots[k];
      }
    }
  }

  lemma AddressedMovesOne(d: Device, e: Event, d': Device, p: nat, k: nat, word: Column)
    requires Exists(d, p, k) && Step(d, e, d') && Addressed(d', p, k, word)
    ensures Touched(d, d', p, k)
  {
    assert Addressed(d', p, k, d'.io.rows);
    StepTouches(d, e, d', p, k);
  }

  lemma AimedMovesAtMostOne(d: Device, e: Event, d': Device, slots: seq<Slot>, f: Frame)
    requires Fits(d, slots) && Step(d, e, d') && Aimed(d', slots, f)
    ensures MovesAtMostOne(d, d', slots, f)
  {
    hide Step, Addressed;
    if Dark(d'.io) {
      DarkMovesNothing(d, e, d');
    } else {
      var p: nat, k: nat :| AimedAt(d', slots, f, p, k);
      AddressedMovesOne(d, e, d', p, k, f[slots[p].x + k]);
    }
  }

  /** And no event of a render moves a dot outside the one column that is driven. */
  lemma EventsMoveAtMostOneColumn(states: seq<Device>, events: seq<Event>, ok: bool, job: Job, i: nat)
    requires |states| > 0 && WellFormed(job) && Fits(states[0], job.slots) && Dark(states[0].io)
    requires Runs(states, events) && Executes(FrameProgram(job), events, ok) && i < |events|
    ensures MovesAtMostOne(states[i], states[i + 1], job.slots, job.new_)
  {
    LengthOfRun(states, events);
    RunsValid(states, events, i);
    assert Step(states[i], events[i], states[i + 1]);
    hide Runs, Executes, FrameProgram, Step;
    PulsesAreAimed(states, events, ok, job, i);
    PulsesAreAimed(states, events, ok, job, i + 1);
    AimedMovesAtMostOne(states[i], events[i], states[i + 1], job.slots, job.new_);
  }

  /** Wherever a failing write cuts a render short, the display stays as it then is, also with a driver left on. */
  lemma FailedRenderIsFixed(states: seq<Device>, events: seq<Event>, job: Job, how: Fidelity)
    requires |states| > 0 && CanRender(states[0], job, how) && !how.Loose?
    requires Runs(states, events) && Executes(FrameProgram(job), events, false)
    ensures Fixed(states[|events|])
  {
    if !SkipFrame(job) {
      OrderDraws(states[0], states, events, false, job, Reach(job, 0), how);
    }
  }

  lemma {:induction false} SameFlips(job: Job, n: nat)
    requires DrawableUpTo(job, n)
    ensures OrderFlips(InMode(job, Full), n) == OrderFlips(InMode(job, Differential), n)
  {
    if n > 0 {
      SameFlips(job, n - 1);
    }
  }

  lemma ReachIgnoresMode(job: Job, mode: Mode, i: nat)
    requires DrawableUpTo(job, i)
    ensures Reach(InMode(job, mode), i) == Reach(job, i)
    decreases |job.options.order| - i
  {
  }

  /** The skips of DIFFERENTIAL mode do not change what is added to pixels_flipped. */
  lemma SameFrameFlips(job: Job)
    requires WellFormed(job)
    ensures FrameFlips(InMode(job, Full)) == FrameFlips(InMode(job, Differential))
  {
    var f, d := InMode(job, Full), InMode(job, Differential);
    ReachIgnoresMode(job, Full, 0);
    ReachIgnoresMode(job, Differential, 0);
    SameFlips(job, Reach(job, 0));
    FrameCountsStops(f);
    FrameCountsStops(d);
  }

  lemma SameReached(job: Job)
    requires WellFormed(job)
    ensures Reached(InMode(job, Full)) == Reached(InMode(job, Differential))
  {
    ReachIgnoresMode(job, Full, 0);
    ReachIgnoresMode(job, Differential, 0);
  }

  lemma SamePanelsSameDots(first: Device, a: Device, b: Device, slots: seq<Slot>, f: Frame, reached: set<nat>)
    requires Fits(first, slots) && Fits(a, slots) && Fits(b, slots)
    requires forall p :: 0 <= p < |slots| && p in reached ==> PanelShows(a, slots, f, p, Exact) && PanelShows(b, slots, f, p, Exact)
    requires forall p :: 0 <= p < |slots| && p !in reached ==> a.panels[p].dots == b.panels[p].dots == first.panels[p].dots
    ensures Dots(a) == Dots(b)
  {
    forall p | 0 <= p < |slots|
      ensures a.panels[p].dots == b.panels[p].dots
    {
      if p in reached {
        assert PanelShows(a, slots, f, p, Exact) && PanelShows(b, slots, f, p, Exact);
      }
    }
  }

  /**
    DIFFERENTIAL is a fast form of FULL: from a display showing the old frame both end with the same display, for
    every drawing order, whichever panels it misses, repeats or has rejected.
   */
  lemma DifferentialRefinesFull(full: seq<Device>, fullEvents: seq<Event>, diff: seq<Device>, diffEvents: seq<Event>, job: Job)
    requires |full| > 0 && |diff| > 0 && full[0] == diff[0]
    requires CanRender(full[0], job, Exact) && Shows(full[0], job.slots, job.old_, Exact)
    requires Runs(full, fullEvents) && Executes(FrameProgram(InMode(job, Full)), fullEvents, true)
    requires Runs(diff, diffEvents) && Executes(FrameProgram(InMode(job, Differential)), diffEvents, true)
    ensures Dots(full[|fullEvents|]) == Dots(diff[|diffEvents|])
    ensures FrameFlips(InMode(job, Full)) == FrameFlips(InMode(job, Differential))
  {
    var f, d := InMode(job, Full), InMode(job, Differential);
    LengthOfRun(full, fullEvents);
    LengthOfRun(diff, diffEvents);
    assert CanRender(full[0], f, Exact) && CanRender(diff[0], d, Exact);
    hide CanRender, Runs, Executes, FrameProgram, FrameFlips, Reached, SkipFrame, Shows;
    SameFrameFlips(job);
    SameReached(job);
    RenderDraws(full, fullEvents, f, Exact);
    RenderDraws(diff, diffEvents, d, Exact);
    SamePanelsSameDots(full[0], full[|fullEvents|], diff[|diffEvents|], job.slots, job.new_, Reached(f));
  }
}
