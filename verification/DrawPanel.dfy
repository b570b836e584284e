/** Selecting a panel and drawing its columns from left to right. */
module DrawPanel {
  import opened Columns
  import opened Schedule
  import opened Devices
  import opened DrawColumn

  /** Panel `p` can be drawn for this job on a device shaped like `d`. */
  ghost predicate CanDraw(d: Device, job: Job, p: nat) {
    && WellFormed(job) && Fits(d, job.slots) && p < |job.slots| && Drawable(job.slots[p], |job.new_|)
  }

  ghost predicate DotPrepared(d: Device, job: Job, p: nat, k: nat, how: Fidelity)
    requires CanDraw(d, job, p) && k < job.slots[p].width
  {
    var x, dots := job.slots[p].x + k, d.panels[p].dots[k];
    how.Loose? ||
    (LongEnough(job.options.delays[x], d.minHold) && Matching(how, job.options.mode, job.old_[x], job.new_[x], dots))
  }

  /**
    Every column of panel `p` agrees with the old or the new word (in FULL mode: anything), and its pulses are long
    enough. Nothing is asked when nothing is to be known of the dots.
   */
  ghost predicate Prepared(d: Device, job: Job, p: nat, how: Fidelity)
    requires CanDraw(d, job, p)
  {
    forall k :: 0 <= k < job.slots[p].width ==> DotPrepared(d, job, p, k, how)
  }

  /** The word the frame holds for column `k` of panel `p`. */
  function Word(job: Job, p: nat, k: nat): Column
    requires WellFormed(job) && p < |job.slots| && Drawable(job.slots[p], |job.new_|) && k < job.slots[p].width
  {
    job.new_[job.slots[p].x + k]
  }

  /** Compared with `first`, panel `p` is new left of column `k` and untouched right of it; all other panels are untouched. */
  ghost predicate DrawnTo(first: Device, d: Device, job: Job, p: nat, k: nat, untouchedFrom: nat, how: Fidelity)
    requires CanDraw(first, job, p)
  {
    && |d.panels| == |first.panels| && d.minHold == first.minHold
    && (forall q :: 0 <= q < |first.panels| ==> |d.panels[q].dots| == |first.panels[q].dots|)
    && (forall q :: 0 <= q < |first.panels| && q != p ==> d.panels[q].dots == first.panels[q].dots)
    && (forall j :: 0 <= j < job.slots[p].width && j < k ==> Agrees(how, Word(job, p, j), d.panels[p].dots[j]))
    && (forall j :: untouchedFrom <= j < job.slots[p].width ==> d.panels[p].dots[j] == first.panels[p].dots[j])
  }

  /** A moment in the drawing of panel `p`: column `k` is in progress, everything else is settled, pulses meet the token. */
  ghost predicate Moment(first: Device, d: Device, job: Job, p: nat, k: nat, how: Fidelity)
    requires CanDraw(first, job, p)
  {
    && k < job.slots[p].width
    && DrawnTo(first, d, job, p, k, k + 1, how)
    && Addressed(d, p, k, Word(job, p, k))
  }

  /** Nothing is driven and no dot has moved since `first`. */
  ghost predicate Unstarted(first: Device, d: Device) {
    && Dark(d.io) && |d.panels| == |first.panels| && d.minHold == first.minHold
    && forall q :: 0 <= q < |first.panels| ==> d.panels[q].dots == first.panels[q].dots
  }

  ghost predicate AllUnstarted(first: Device, states: seq<Device>) {
    forall i :: 0 <= i < |states| ==> Unstarted(first, states[i])
  }

  ghost predicate InProgress(first: Device, states: seq<Device>, job: Job, p: nat, how: Fidelity)
    requires CanDraw(first, job, p)
  {
    forall i :: 0 <= i < |states| ==> Unstarted(first, states[i]) || exists k: nat :: Moment(first, states[i], job, p, k, how)
  }

  /** Where the device stands between two columns. */
  ghost predicate Between(first: Device, d: Device, job: Job, p: nat, n: nat, how: Fidelity)
    requires CanDraw(first, job, p)
  {
    && ValidDevice(d) && DrawnTo(first, d, job, p, n, n, how)
    && Token(d, p, 2 * n - 1)
    && d.io == Io(SelectFor(p, n), true, true, false, {})
  }

  lemma TouchedKeepsDrawn(first: Device, d: Device, d': Device, job: Job, p: nat, k: nat, how: Fidelity)
    requires CanDraw(first, job, p) && k < job.slots[p].width
    requires DrawnTo(first, d, job, p, k, k, how) && Touched(d, d', p, k)
    ensures DrawnTo(first, d', job, p, k, k + 1, how)
    ensures Agrees(how, Word(job, p, k), d'.panels[p].dots[k]) ==> DrawnTo(first, d', job, p, k + 1, k + 1, how)
  {
  }

  lemma OneColumn(first: Device, states: seq<Device>, events: seq<Event>, ok: bool, job: Job, p: nat, k: nat, how: Fidelity)
    requires CanDraw(first, job, p) && Prepared(first, job, p, how) && k < job.slots[p].width
    requires Runs(states, events) && Executes(ColumnOf(job, p, k), events, ok)
    requires Between(first, states[0], job, p, k, how)
    ensures forall i :: 0 <= i < |states| ==> Moment(first, states[i], job, p, k, how)
    ensures ok ==> Between(first, states[|events|], job, p, k + 1, how)
    ensures !ok && !how.Loose? ==> Fixed(states[|events|])
  {
    hide Step, Fixed, Executes, Addressed, Matching, Token, ColumnProgram;
    var x := job.slots[p].x + k;
    assert DotPrepared(first, job, p, k, how);
    ColumnDraws(states, events, ok, p, k, job.options.delays[x], job.options.mode, job.old_[x], job.new_[x], how);
    forall i | 0 <= i < |states|
      ensures Moment(first, states[i], job, p, k, how)
    {
      TouchedKeepsDrawn(first, states[0], states[i], job, p, k, how);
    }
    if ok {
      RunsEndValid(states, events);
      TouchedKeepsDrawn(first, states[0], states[|events|], job, p, k, how);
    }
  }

  lemma NoColumns(first: Device, states: seq<Device>, events: seq<Event>, ok: bool, job: Job, p: nat, how: Fidelity)
    requires |states| == |events| + 1 && CanDraw(first, job, p)
    requires Between(first, states[0], job, p, 0, how)
    requires Executes([], events, ok)
    ensures ok && InProgress(first, states, job, p, how) && Between(first, states[|events|], job, p, 0, how)
  {
    assert states[0].panels[p].dots == first.panels[p].dots;
    assert Unstarted(first, states[0]);
  }

  lemma InProgressJoin(first: Device, states: seq<Device>, m: nat, job: Job, p: nat, k: nat, how: Fidelity)
    requires CanDraw(first, job, p) && m < |states|
    requires InProgress(first, states[..m + 1], job, p, how)
    requires forall i :: 0 <= i < |states[m..]| ==> Moment(first, states[m..][i], job, p, k, how)
    ensures InProgress(first, states, job, p, how)
  {
    forall i | 0 <= i < |states|
      ensures Unstarted(first, states[i]) || exists k: nat :: Moment(first, states[i], job, p, k, how)
    {
      if i <= m {
        assert states[i] == states[..m + 1][i];
      } else {
        assert states[i] == states[m..][i - m];
        assert Moment(first, states[m..][i - m], job, p, k, how);
      }
    }
  }

  /** The column after `m` events that drew the columns before it. */
  lemma NextColumn(first: Device, states: seq<Device>, events: seq<Event>, ok: bool, job: Job, p: nat, k: nat, m: nat, how: Fidelity)
    requires CanDraw(first, job, p) && Prepared(first, job, p, how) && k < job.slots[p].width
    requires m <= |events| && |states| == |events| + 1
    requires InProgress(first, states[..m + 1], job, p, how) && Between(first, states[..m + 1][m], job, p, k, how)
    requires Runs(states[m..], events[m..]) && Executes(ColumnOf(job, p, k), events[m..], ok)
    ensures InProgress(first, states, job, p, how)
    ensures ok ==> Between(first, states[|events|], job, p, k + 1, how)
    ensures !ok && !how.Loose? ==> Fixed(states[|events|])
  {
    assert states[..m + 1][m] == states[m..][0];
    OneColumn(first, states[m..], events[m..], ok, job, p, k, how);
    InProgressJoin(first, states, m, job, p, k, how);
  }

  lemma {:induction false} FirstColumns(first: Device, states: seq<Device>, events: seq<Event>, ok: bool, job: Job, p: nat, n: nat, how: Fidelity)
    requires CanDraw(first, job, p) && Prepared(first, job, p, how) && n <= job.slots[p].width
    requires Runs(states, events) && Executes(ColumnsProgram(job, p, n), events, ok)
    requires Between(first, states[0], job, p, 0, how)
    ensures InProgress(first, states, job, p, how)
    ensures ok ==> Between(first, states[|events|], job, p, n, how)
    ensures !ok && !how.Loose? ==> Fixed(states[|events|])
    decreases n
  {
    hide Executes, ColumnOf, Between, Prepared, InProgress;
    if n == 0 {
      NoColumns(first, states, events, ok, job, p, how);
    } else {
      var before, column := ColumnsProgram(job, p, n - 1), ColumnOf(job, p, n - 1);
      ExecutesSplit(before, column, events, ok);
      if !ok && |events| <= |before| {
        FirstColumns(first, states, events, ok, job, p, n - 1, how);
      } else {
        RunsSplit(states, events, |before|);
        FirstColumns(first, states[..|before| + 1], events[..|before|], true, job, p, n - 1, how);
        NextColumn(first, states, events, ok, job, p, n - 1, |before|, how);
      }
    }
  }

  lemma DarkStep(first: Device, d: Device, e: Event, d': Device)
    requires ValidDevice(d) && Step(d, e, d') && Unstarted(first, d)
    requires e.Wrote? ==> Dark(e.io)
    ensures Unstarted(first, d')
  {
    if d' != d {
      forall q | 0 <= q < |d.panels|
        ensures d'.panels[q].dots == d.panels[q].dots
      {
        assert forall k :: 0 <= k < |d.panels[q].dots| ==> d'.panels[q].dots[k] == d.panels[q].dots[k];
      }
    }
  }

  lemma ResetEmpties(d: Device, io: Io, d': Device, p: nat)
    requires ValidDevice(d) && Step(d, Wrote(io, true), d') && !io.reset
    ensures Token(d', p, -1)
  {
    forall q | 0 <= q < |d.panels|
      ensures Only(d'.panels[q].chain, -1)
    {
      assert d'.panels[q].chain == seq(|d.panels[q].chain|, _ => false);
    }
  }

  lemma WaitKeepsTokens(d: Device, e: Event, d': Device, p: nat)
    requires ValidDevice(d) && Step(d, e, d') && e.Waited? && Token(d, p, -1)
    ensures Token(d', p, -1)
  {
    forall q | 0 <= q < |d.panels|
      ensures d'.panels[q].chain == d.panels[q].chain
    {
    }
  }

  /** The reset empties every chain, whatever was in them, and the select arms exactly one. */
  lemma SelectArms(states: seq<Device>, events: seq<Event>, ok: bool, job: Job, p: nat, how: Fidelity)
    requires |states| > 0 && CanDraw(states[0], job, p) && Dark(states[0].io)
    requires Runs(states, events) && Executes(SelectProgram(p), events, ok)
    ensures AllUnstarted(states[0], states)
    ensures ok ==> Between(states[0], states[|events|], job, p, 0, how)
    ensures !ok && !how.Loose? ==> Fixed(states[|events|])
  {
    var program := SelectProgram(p);
    assert Matches(program[0], events[0]);
    assert Step(states[0], events[0], states[1]);
    DarkStep(states[0], states[0], events[0], states[1]);
    if events[0].ok {
      ResetEmpties(states[0], events[0].io, states[1], p);
    }
    if |events| >= 2 {
      assert !Fatal(program[0], events[0]);
      assert Matches(program[1], events[1]) && Matches(program[2], events[2]);
      assert Step(states[1], events[1], states[2]) && Step(states[2], events[2], states[3]);
      DarkStep(states[0], states[1], events[1], states[2]);
      WaitKeepsTokens(states[1], events[1], states[2], p);
      DarkStep(states[0], states[2], events[2], states[3]);
      if events[2].ok {
        StepHoldsToken(states[2], events[2], states[3], p, -1);
      }
    }
    if |events| >= 4 {
      assert !Fatal(program[2], events[2]);
      assert Matches(program[3], events[3]);
      assert Step(states[3], events[3], states[4]);
      DarkStep(states[0], states[3], events[3], states[4]);
      StepHoldsToken(states[3], events[3], states[4], p, -1);
      StepKeepsValid(states[3], events[3], states[4]);
    }
  }

  /** `d` is `first` with panel `p` showing its part of the new frame. */
  ghost predicate Drawn(first: Device, d: Device, job: Job, p: nat, how: Fidelity)
    requires CanDraw(first, job, p)
  {
    && ValidDevice(d) && Dark(d.io)
    && DrawnTo(first, d, job, p, job.slots[p].width, job.slots[p].width, how)
  }

  lemma UnstartedInProgress(states: seq<Device>, job: Job, p: nat, how: Fidelity)
    requires |states| > 0 && CanDraw(states[0], job, p) && AllUnstarted(states[0], states)
    ensures InProgress(states[0], states, job, p, how)
  {
  }

  lemma UnstartedThenInProgress(states: seq<Device>, m: nat, job: Job, p: nat, how: Fidelity)
    requires m < |states| && CanDraw(states[0], job, p)
    requires AllUnstarted(states[0], states[..m + 1])
    requires InProgress(states[0], states[m..], job, p, how)
    ensures InProgress(states[0], states, job, p, how)
  {
    hide Unstarted, Moment;
    forall i | 0 <= i < |states|
      ensures Unstarted(states[0], states[i]) || exists k: nat :: Moment(states[0], states[i], job, p, k, how)
    {
      if i <= m {
        assert states[i] == states[..m + 1][i];
      } else {
        assert states[i] == states[m..][i - m];
      }
    }
  }

  lemma BetweenIsDrawn(first: Device, d: Device, job: Job, p: nat, how: Fidelity)
    requires CanDraw(first, job, p) && Between(first, d, job, p, job.slots[p].width, how)
    ensures Drawn(first, d, job, p, how)
  {
  }

  /** The columns after the `m` events that selected the panel. */
  lemma ColumnsAfterSelect(states: seq<Device>, events: seq<Event>, ok: bool, job: Job, p: nat, m: nat, how: Fidelity)
    requires m <= |events| && |states| == |events| + 1
    requires CanDraw(states[0], job, p) && Prepared(states[0], job, p, how)
    requires AllUnstarted(states[0], states[..m + 1]) && Between(states[0], states[m], job, p, 0, how)
    requires Performs(states[m..], events[m..], ColumnsProgram(job, p, job.slots[p].width), ok)
    ensures InProgress(states[0], states, job, p, how)
    ensures ok ==> Drawn(states[0], states[|events|], job, p, how)
    ensures !ok && !how.Loose? ==> Fixed(states[|events|])
  {
    hide Runs, Executes, Prepared, ColumnsProgram, Between, Drawn, Fixed, InProgress, AllUnstarted;
    FirstColumns(states[0], states[m..], events[m..], ok, job, p, job.slots[p].width, how);
    UnstartedThenInProgress(states, m, job, p, how);
    assert states[m..][|events| - m] == states[|events|];
    if ok {
      BetweenIsDrawn(states[0], states[|events|], job, p, how);
    }
  }

  /** Drawing one panel: safe at every moment, however it ends; complete when it completes. */
  lemma PanelDraws(states: seq<Device>, events: seq<Event>, ok: bool, job: Job, p: nat, how: Fidelity)
    requires |states| > 0 && CanDraw(states[0], job, p) && Prepared(states[0], job, p, how) && Dark(states[0].io)
    requires Runs(states, events) && Executes(PanelProgram(job, p), events, ok)
    ensures InProgress(states[0], states, job, p, how)
    ensures ok ==> Drawn(states[0], states[|events|], job, p, how)
    ensures !ok && !how.Loose? ==> Fixed(states[|events|])
  {
    hide Runs, Executes, Prepared, SelectProgram, ColumnsProgram, Between, Drawn, Fixed, InProgress, AllUnstarted;
    var select, columns := SelectProgram(p), ColumnsProgram(job, p, job.slots[p].width);
    PerformsSplit(states, events, select, columns, ok);
    if !ok && |events| <= |select| {
      SelectArms(states, events, ok, job, p, how);
      UnstartedInProgress(states, job, p, how);
    } else {
      var m := |select|;
      SelectArms(states[..m + 1], events[..m], true, job, p, how);
      assert states[..m + 1][m] == states[m];
      ColumnsAfterSelect(states, events, ok, job, p, m, how);
    }
  }

  /**
    Whatever the delays and whatever the display shows: while a panel is drawn no other panel is touched, nor any of
    its own columns right of the one in progress, and every pulse meets the one token there.
   */
  lemma PanelPulsesAreAimed(states: seq<Device>, events: seq<Event>, ok: bool, job: Job, p: nat)
    requires |states| > 0 && CanDraw(states[0], job, p) && Dark(states[0].io)
    requires Runs(states, events) && Executes(PanelProgram(job, p), events, ok)
    ensures InProgress(states[0], states, job, p, Loose)
  {
    PanelDraws(states, events, ok, job, p, Loose);
  }
}
