/** How long the rendering functions keep the processor waiting: the sum of all their ets_delay_us calls. */
module Timing {
  import opened Columns
  import opened Frames
  import opened Layout
  import opened Rendering
  import opened Schedule
  import opened Skipping

  /** The three delays inside flipdot_write_registers. */
  const WRITE_US: nat := 300

  function Time(a: Attempt): nat {
    match a
    case Write(_, _) => WRITE_US
    case Delay(us) => us
  }

  function Duration(program: seq<Attempt>): nat {
    if program == [] then 0 else Duration(program[..|program| - 1]) + Time(program[|program| - 1])
  }

  lemma {:induction false} DurationAdds(p: seq<Attempt>, q: seq<Attempt>)
    ensures Duration(p + q) == Duration(p) + Duration(q)
    decreases |q|
  {
    if q == [] {
      assert p + q == p;
    } else {
      DurationAdds(p, q[..|q| - 1]);
      assert (p + q)[..|p + q| - 1] == p + q[..|q| - 1];
    }
  }

  lemma DurationTwo(a: Attempt, b: Attempt)
    ensures Duration([a, b]) == Time(a) + Time(b)
  {
    assert [a][..0] == [] && Duration([a]) == Time(a);
    assert [a, b][..1] == [a];
  }

  lemma DurationThree(a: Attempt, b: Attempt, c: Attempt)
    ensures Duration([a, b, c]) == Time(a) + Time(b) + Time(c)
  {
    DurationTwo(a, b);
    assert [a, b, c][..2] == [a, b];
  }

  lemma DurationFour(a: Attempt, b: Attempt, c: Attempt, d: Attempt)
    ensures Duration([a, b, c, d]) == Time(a) + Time(b) + Time(c) + Time(d)
  {
    DurationThree(a, b, c);
    assert [a, b, c, d][..3] == [a, b, c];
  }

  function ClearTime(d: Delays, skip: bool): nat {
    if skip then WRITE_US + SHORT else 2 * WRITE_US + Micros(d.clear)
  }

  function SetTime(d: Delays, skip: bool): nat {
    3 * WRITE_US + if skip then SHORT else Micros(d.set_)
  }

  lemma ColumnTimeParts(select: set<nat>, d: Delays, mode: Mode, old_: Column, new_: Column)
    ensures Duration(ColumnProgram(select, d, mode, old_, new_))
         == Micros(d.pre) + WRITE_US + ClearTime(d, SkipClear(mode, old_, new_)) + SetTime(d, SkipSet(mode, old_, new_))
  {
    var feed, clear, set_ := FeedProgram(select, d), ClearProgram(d, mode, old_, new_), SetProgram(d, mode, old_, new_);
    DurationAdds(feed + clear, set_);
    DurationAdds(feed, clear);
    DurationTwo(feed[0], feed[1]);
    if SkipClear(mode, old_, new_) {
      DurationTwo(clear[0], clear[1]);
    } else {
      DurationThree(clear[0], clear[1], clear[2]);
    }
    DurationFour(set_[0], set_[1], set_[2], set_[3]);
  }

  /**
    The time of one column in microseconds: the configured delays in units of 50, 300 for every register write, and 100
    in place of a pulse that DIFFERENTIAL mode skips because no dot goes dark, or because none is bright or changes.
   */
  lemma ColumnTime(select: set<nat>, d: Delays, mode: Mode, old_: Column, new_: Column)
    ensures Duration(ColumnProgram(select, d, mode, old_, new_))
         == 50 * d.pre + 300
            + (if mode.Full? || exists b :: b in old_ && b !in new_ then 600 + 50 * d.clear else 400)
            + 900 + (if mode.Differential? && (new_ == {} || old_ == new_) then 100 else 50 * d.set_)
  {
    ColumnTimeParts(select, d, mode, old_, new_);
    FlipsZero(old_, new_);
    if b :| b in old_ && b !in new_ {
      assert b in old_ - new_;
    }
    if b :| b in old_ - new_ {
      assert b in old_ && b !in new_;
    }
  }

  // ----- Time of the log

  lemma DurationOfNothing()
    ensures Duration([]) == 0
  {
  }

  /** Column after column: each adds its own time, with its own delays and words. */
  lemma ColumnsTime(job: Job, p: nat, k: nat)
    requires WellFormed(job) && p < |job.slots| && Drawable(job.slots[p], |job.new_|) && k < job.slots[p].width
    ensures Duration(ColumnsProgram(job, p, 0)) == 0
    ensures var x := job.slots[p].x + k;
            var d, full, old_, new_ := job.options.delays[x], job.options.mode.Full?, job.old_[x], job.new_[x];
            Duration(ColumnsProgram(job, p, k + 1)) ==
              Duration(ColumnsProgram(job, p, k))
              + 50 * d.pre + 1200
              + (if full || exists b :: b in old_ && b !in new_ then 600 + 50 * d.clear else 400)
              + (if !full && (new_ == {} || old_ == new_) then 100 else 50 * d.set_)
  {
    hide Duration, ColumnProgram;
    var x := job.slots[p].x + k;
    DurationOfNothing();
    DurationAdds(ColumnsProgram(job, p, k), ColumnOf(job, p, k));
    ColumnTime(SelectFor(p, k), job.options.delays[x], job.options.mode, job.old_[x], job.new_[x]);
  }

  lemma SelectTime(p: nat)
    ensures Duration(SelectProgram(p)) == 800
  {
    var select := SelectProgram(p);
    DurationFour(select[0], select[1], select[2], select[3]);
  }

  /** Panel after panel: nothing for an unchanged one in DIFFERENTIAL mode, else 800 for the selection and its columns. */
  lemma OrderTime(job: Job, i: nat)
    requires DrawableUpTo(job, i + 1)
    ensures Duration(OrderProgram(job, 0)) == 0
    ensures var p := job.options.order[i];
            Duration(OrderProgram(job, i + 1)) ==
              Duration(OrderProgram(job, i))
              + if job.options.mode.Differential? && !Changes(job, p) then 0
                else 800 + Duration(ColumnsProgram(job, p, job.slots[p].width))
  {
    hide Duration, ColumnsProgram, Changes;
    var p := job.options.order[i];
    DurationOfNothing();
    SkipsExactlyUnchanged(job, p);
    DurationAdds(OrderProgram(job, i), StopProgram(job, i));
    DurationAdds(SelectProgram(p), ColumnsProgram(job, p, job.slots[p].width));
    SelectTime(p);
  }

  lemma SkippedStopIsEmpty(job: Job, i: nat)
    requires DrawableUpTo(job, i + 1) && SkipFrame(job)
    ensures StopProgram(job, i) == []
  {
    hide SkipFrame, SkipPanel, PanelProgram;
    SkippedFrameSkipsAll(job, job.options.order[i]);
  }

  lemma {:induction false} SkippedFrameIsEmpty(job: Job, n: nat)
    requires DrawableUpTo(job, n) && SkipFrame(job)
    ensures OrderProgram(job, n) == []
  {
    hide SkipFrame, StopProgram;
    if n > 0 {
      SkippedFrameIsEmpty(job, n - 1);
      SkippedStopIsEmpty(job, n - 1);
    }
  }

  /** A render takes the time of the panels that its order reaches, the test for an unchanged frame saves nothing more. */
  lemma FrameTime(job: Job)
    requires WellFormed(job)
    ensures Duration(FrameProgram(job)) == Duration(OrderProgram(job, Reach(job, 0)))
  {
    if SkipFrame(job) {
      SkippedFrameIsEmpty(job, Reach(job, 0));
    }
  }

  function LogTime(events: seq<Event>): nat {
    if events == [] then 0
    else LogTime(events[..|events| - 1]) + match events[|events| - 1] case Wrote(_, _) => 300 case Waited(us) => us
  }

  lemma {:induction false} LogTimeIsDuration(program: seq<Attempt>, events: seq<Event>)
    requires OnTime(program, events) && |events| == |program|
    ensures LogTime(events) == Duration(program)
    decreases |program|
  {
    if program != [] {
      var n := |program| - 1;
      assert Logs(program[n], events[n]);
      LogTimeIsDuration(program[..n], events[..n]);
    }
  }

  /** What a driver logs during a completed render takes the time of its program. */
  lemma RenderTakes(before: seq<Event>, after: seq<Event>, job: Job)
    requires WellFormed(job) && Ran(before, after, FrameProgram(job), true)
    ensures LogTime(after[|before|..]) == Duration(OrderProgram(job, Reach(job, 0)))
  {
    hide FrameProgram, LogTime, Duration, OrderProgram;
    FrameTime(job);
    LogTimeIsDuration(FrameProgram(job), after[|before|..]);
  }

  /** What DIFFERENTIAL mode can lose on a column: the short set pulse may be longer than the configured one. */
  lemma ColumnLoss(select: set<nat>, d: Delays, old_: Column, new_: Column)
    ensures d.set_ >= 2 ==>
              Duration(ColumnProgram(select, d, Differential, old_, new_)) <= Duration(ColumnProgram(select, d, Full, old_, new_))
  {
    ColumnTimeParts(select, d, Differential, old_, new_);
    ColumnTimeParts(select, d, Full, old_, new_);
  }

  /** Set pulses are configured to at least 2 counts on all columns of the panel. */
  ghost predicate SetDelaysAtLeast2(job: Job) {
    forall x :: 0 <= x < |job.options.delays| ==> job.options.delays[x].set_ >= 2
  }

  lemma {:induction false} ColumnsNotSlower(job: Job, p: nat, n: nat)
    requires WellFormed(job) && SetDelaysAtLeast2(job)
    requires p < |job.slots| && Drawable(job.slots[p], |job.new_|) && n <= job.slots[p].width
    ensures Duration(ColumnsProgram(InMode(job, Differential), p, n)) <= Duration(ColumnsProgram(InMode(job, Full), p, n))
  {
    hide ColumnProgram, Duration;
    if n > 0 {
      ColumnsNotSlower(job, p, n - 1);
      var x := job.slots[p].x + n - 1;
      DurationAdds(ColumnsProgram(InMode(job, Full), p, n - 1), ColumnOf(InMode(job, Full), p, n - 1));
      DurationAdds(ColumnsProgram(InMode(job, Differential), p, n - 1), ColumnOf(InMode(job, Differential), p, n - 1));
      ColumnLoss(SelectFor(p, n - 1), job.options.delays[x], job.old_[x], job.new_[x]);
    }
  }

  lemma {:induction false} OrderNotSlower(job: Job, n: nat)
    requires AllPanelsDrawable(job) && SetDelaysAtLeast2(job) && n <= |job.options.order|
    ensures DrawableUpTo(InMode(job, Differential), n) && DrawableUpTo(InMode(job, Full), n)
    ensures Duration(OrderProgram(InMode(job, Differential), n)) <= Duration(OrderProgram(InMode(job, Full), n))
  {
    hide SelectProgram, ColumnsProgram, Duration, SetDelaysAtLeast2;
    if n > 0 {
      OrderNotSlower(job, n - 1);
      var p, f, d := job.options.order[n - 1], InMode(job, Full), InMode(job, Differential);
      DurationAdds(OrderProgram(f, n - 1), StopProgram(f, n - 1));
      DurationAdds(OrderProgram(d, n - 1), StopProgram(d, n - 1));
      DurationAdds(SelectProgram(p), ColumnsProgram(f, p, job.slots[p].width));
      DurationAdds(SelectProgram(p), ColumnsProgram(d, p, job.slots[p].width));
      ColumnsNotSlower(job, p, job.slots[p].width);
      DurationOfNothing();
    }
  }

  // ----- The converse

  /** Two frames: column `x` goes dark, every other column loses one dot and keeps one. */
  ghost predicate Worst(job: Job, x: nat) {
    && WellFormed(job) && x < |job.new_|
    && forall i :: 0 <= i < |job.new_| ==>
         if i == x then job.old_[i] == {0} && job.new_[i] == {} else job.old_[i] == {0, 1} && job.new_[i] == {0}
  }

  lemma WorstColumn(select: set<nat>, d: Delays, old_: Column, new_: Column)
    requires (old_ == {0} && new_ == {}) || (old_ == {0, 1} && new_ == {0})
    ensures old_ != new_
    ensures Duration(ColumnProgram(select, d, Differential, old_, new_))
         == Duration(ColumnProgram(select, d, Full, old_, new_)) + if new_ == {} then SHORT - Micros(d.set_) else 0
  {
    assert (if new_ == {} then 0 else 1) in old_ - new_;
    FlipsZero(old_, new_);
    ColumnTimeParts(select, d, Differential, old_, new_);
    ColumnTimeParts(select, d, Full, old_, new_);
  }

  lemma {:induction false} ColumnsWorst(job: Job, p: nat, n: nat, x: nat)
    requires Worst(job, x) && job.options.delays[x].set_ < 2
    requires p < |job.slots| && Drawable(job.slots[p], |job.new_|) && n <= job.slots[p].width
    ensures Duration(ColumnsProgram(InMode(job, Differential), p, n))
         == Duration(ColumnsProgram(InMode(job, Full), p, n))
            + if job.slots[p].x <= x < job.slots[p].x + n then SHORT - Micros(job.options.delays[x].set_) else 0
  {
    hide ColumnProgram, Duration;
    if n > 0 {
      ColumnsWorst(job, p, n - 1, x);
      var y := job.slots[p].x + n - 1;
      DurationAdds(ColumnsProgram(InMode(job, Full), p, n - 1), ColumnOf(InMode(job, Full), p, n - 1));
      DurationAdds(ColumnsProgram(InMode(job, Differential), p, n - 1), ColumnOf(InMode(job, Differential), p, n - 1));
      WorstColumn(SelectFor(p, n - 1), job.options.delays[y], job.old_[y], job.new_[y]);
    }
  }

  /** A panel of the worst frames is never skipped. */
  lemma WorstPanelDrawn(job: Job, p: nat, x: nat)
    requires Worst(job, x) && p < |job.slots| && Drawable(job.slots[p], |job.new_|)
    ensures !SkipPanel(job, p)
  {
    var slot := job.slots[p];
    DifferenceZero(job.old_, job.new_, slot.x, slot.width);
    assert 0 in job.old_[slot.x] && (slot.x == x || 1 in job.old_[slot.x]);
    assert job.old_[slot.x] != job.new_[slot.x];
  }

  /** Column `x` belongs to one of the first `n` panels of the drawing order. */
  ghost predicate Visited(job: Job, x: nat, n: nat)
    requires AllPanelsDrawable(job) && n <= |job.options.order|
  {
    exists i :: 0 <= i < n && Covers(job.slots[job.options.order[i]], x)
  }

  lemma WorstStaysWorst(job: Job, x: nat)
    requires Worst(job, x)
    ensures Worst(InMode(job, Differential), x)
  {
  }

  lemma PanelWorst(job: Job, p: nat, x: nat)
    requires AllPanelsDrawable(job) && Worst(job, x) && job.options.delays[x].set_ < 2 && p < |job.slots|
    ensures !SkipPanel(InMode(job, Differential), p)
    ensures Duration(PanelProgram(InMode(job, Differential), p))
         >= Duration(PanelProgram(InMode(job, Full), p)) + if Covers(job.slots[p], x) then 1 else 0
  {
    hide SelectProgram, ColumnsProgram, Duration, Worst;
    var f, d := InMode(job, Full), InMode(job, Differential);
    WorstStaysWorst(job, x);
    WorstPanelDrawn(d, p, x);
    DurationAdds(SelectProgram(p), ColumnsProgram(f, p, job.slots[p].width));
    DurationAdds(SelectProgram(p), ColumnsProgram(d, p, job.slots[p].width));
    ColumnsWorst(job, p, job.slots[p].width, x);
  }

  lemma {:induction false} OrderWorst(job: Job, n: nat, x: nat)
    requires AllPanelsDrawable(job) && Worst(job, x) && job.options.delays[x].set_ < 2 && n <= |job.options.order|
    ensures DrawableUpTo(InMode(job, Differential), n) && DrawableUpTo(InMode(job, Full), n)
    ensures Duration(OrderProgram(InMode(job, Differential), n))
         >= Duration(OrderProgram(InMode(job, Full), n)) + if Visited(job, x, n) then 1 else 0
  {
    hide PanelProgram, Duration, Worst;
    if n > 0 {
      OrderWorst(job, n - 1, x);
      var p, f, d := job.options.order[n - 1], InMode(job, Full), InMode(job, Differential);
      PanelWorst(job, p, x);
      DurationAdds(OrderProgram(f, n - 1), StopProgram(f, n - 1));
      DurationAdds(OrderProgram(d, n - 1), StopProgram(d, n - 1));
      assert Visited(job, x, n) <==> Visited(job, x, n - 1) || Covers(job.slots[p], x);
    }
  }

  // ----- Both directions

  /** DIFFERENTIAL takes no longer than FULL on the two frames of the job. */
  ghost predicate NotSlower(job: Job)
    requires WellFormed(job)
  {
    Duration(FrameProgram(InMode(job, Differential))) <= Duration(FrameProgram(InMode(job, Full)))
  }

  function WithFrames(job: Job, old_: Frame, new_: Frame): Job {
    job.(old_ := old_, new_ := new_)
  }

  lemma NeverSlower(job: Job)
    requires AllPanelsDrawable(job) && SetDelaysAtLeast2(job)
    ensures NotSlower(job)
  {
    hide Duration, OrderProgram, SetDelaysAtLeast2;
    var f, d, n := InMode(job, Full), InMode(job, Differential), |job.options.order|;
    OrderNotSlower(job, n);
    ReachesAll(f, 0);
    ReachesAll(d, 0);
    DurationOfNothing();
  }

  lemma SometimesSlower(job: Job, x: nat)
    requires AllPanelsDrawable(job) && Worst(job, x) && job.options.delays[x].set_ < 2
    requires Visited(job, x, |job.options.order|)
    ensures !NotSlower(job)
  {
    hide Duration, OrderProgram;
    var f, d, n := InMode(job, Full), InMode(job, Differential), |job.options.order|;
    OrderWorst(job, n, x);
    ReachesAll(f, 0);
    ReachesAll(d, 0);
    DistanceZero(job.old_, job.new_);
    assert 0 in job.old_[x] && 0 !in job.new_[x];
  }

  /**
    For a given layout, order and delays, DIFFERENTIAL is no slower than FULL on all pairs of frames exactly when
    every column has a set delay of at least 2 counts.
   */
  lemma NeverSlowerExactlyWhen(job: Job)
    requires AllPanelsDrawable(job)
    requires forall x: nat :: x < |job.new_| ==> Visited(job, x, |job.options.order|)
    ensures SetDelaysAtLeast2(job) <==>
              forall old_: Frame, new_: Frame :: |old_| == |new_| == |job.new_| ==> NotSlower(WithFrames(job, old_, new_))
  {
    if SetDelaysAtLeast2(job) {
      forall old_: Frame, new_: Frame | |old_| == |new_| == |job.new_|
        ensures NotSlower(WithFrames(job, old_, new_))
      {
        NeverSlower(WithFrames(job, old_, new_));
      }
    } else {
      var x: nat :| x < |job.options.delays| && job.options.delays[x].set_ < 2;
      var old_: Frame := seq(|job.new_|, i => if i == x then {0} else {0, 1});
      var new_: Frame := seq(|job.new_|, i => if i == x then {} else {0});
      var worst := WithFrames(job, old_, new_);
      assert Visited(job, x, |job.options.order|);
      assert Visited(worst, x, |job.options.order|);
      SometimesSlower(worst, x);
    }
  }
}
