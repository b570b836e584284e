/** The pulses in the programs of a render: what is powered at each moment, and what stays powered when a write fails. */
module Fuse {
  import opened Columns
  import opened Rendering
  import opened Schedule
  import opened Devices

  predicate RowsAt(program: seq<Attempt>, i: int) {
    0 <= i < |program| && program[i].Write? && program[i].io.rows != {}
  }

  predicate ClearAt(program: seq<Attempt>, i: int) {
    0 <= i < |program| && program[i].Write? && program[i].io.clear
  }

  /**
    What powers a driver is followed by a delay and by the write that switches everything off; only the one that ends
    a clear pulse is unchecked, and a checked write that also drives nothing comes next.
   */
  predicate PulseAt(program: seq<Attempt>, i: nat)
    requires i < |program|
  {
    var a := program[i];
    a.Write? ==>
      && FuseSafe(a.io)
      && (!Dark(a.io) ==> a.checked && i + 2 < |program| && program[i + 1].Delay? && program[i + 2] == Write(IDLE, !a.io.clear))
      && (!a.checked ==> a.io == IDLE && ClearAt(program, i - 2) && i + 1 < |program|
                         && program[i + 1].Write? && program[i + 1].checked && Dark(program[i + 1].io))
  }

  ghost predicate Pulses(program: seq<Attempt>) {
    forall i :: 0 <= i < |program| ==> PulseAt(program, i)
  }

  lemma NoPulses()
    ensures Pulses([])
  {
  }

  lemma PulsesThen(p: seq<Attempt>, q: seq<Attempt>)
    requires Pulses(p) && Pulses(q)
    ensures Pulses(p + q)
  {
    forall i | 0 <= i < |p + q|
      ensures PulseAt(p + q, i)
    {
      if i < |p| {
        assert PulseAt(p, i);
      } else {
        assert PulseAt(q, i - |p|);
      }
    }
  }

  lemma ColumnPulses(select: set<nat>, d: Delays, mode: Mode, old_: Column, new_: Column)
    ensures Pulses(ColumnProgram(select, d, mode, old_, new_))
  {
    var feed, clear, set_ := FeedProgram(select, d), ClearProgram(d, mode, old_, new_), SetProgram(d, mode, old_, new_);
    assert feed + clear + set_ == feed + (clear + set_);
    PulsesThen(feed, clear + set_);
  }

  lemma {:induction false} ColumnsPulses(job: Job, p: nat, n: nat)
    requires WellFormed(job) && p < |job.slots| && Drawable(job.slots[p], |job.new_|) && n <= job.slots[p].width
    ensures Pulses(ColumnsProgram(job, p, n))
  {
    hide ColumnProgram, Pulses;
    if n == 0 {
      NoPulses();
    } else {
      ColumnsPulses(job, p, n - 1);
      var x := job.slots[p].x + n - 1;
      ColumnPulses(SelectFor(p, n - 1), job.options.delays[x], job.options.mode, job.old_[x], job.new_[x]);
      PulsesThen(ColumnsProgram(job, p, n - 1), ColumnOf(job, p, n - 1));
    }
  }

  lemma StopPulses(job: Job, i: nat)
    requires DrawableUpTo(job, i + 1)
    ensures Pulses(StopProgram(job, i))
  {
    hide ColumnsProgram;
    var p := job.options.order[i];
    ColumnsPulses(job, p, job.slots[p].width);
    PulsesThen(SelectProgram(p), ColumnsProgram(job, p, job.slots[p].width));
  }

  lemma {:induction false} OrderPulses(job: Job, n: nat)
    requires DrawableUpTo(job, n)
    ensures Pulses(OrderProgram(job, n))
  {
    hide StopProgram, Pulses;
    if n == 0 {
      NoPulses();
    } else {
      OrderPulses(job, n - 1);
      StopPulses(job, n - 1);
      PulsesThen(OrderProgram(job, n - 1), StopProgram(job, n - 1));
    }
  }

  lemma FramePulses(job: Job)
    requires WellFormed(job)
    ensures Pulses(FrameProgram(job))
  {
    NoPulses();
    OrderPulses(job, Reach(job, 0));
  }

  /** What is powered after `i` events, none of which was a fatal failure. */
  ghost predicate PoweredAt(io: Io, program: seq<Attempt>, events: seq<Event>, i: nat)
    requires i <= |events|
  {
    && (io.rows != {} <==> RowsAt(program, i - 1) || RowsAt(program, i - 2))
    && (io.clear <==>
        ClearAt(program, i - 1) || ClearAt(program, i - 2)
        || (ClearAt(program, i - 3) && i >= 1 && events[i - 1].Wrote? && !events[i - 1].ok))
  }

  lemma PoweredNext(d: Device, d': Device, program: seq<Attempt>, events: seq<Event>, i: nat)
    requires i < |events| <= |program| && Pulses(program)
    requires ValidDevice(d) && Step(d, events[i], d') && Matches(program[i], events[i]) && !Fatal(program[i], events[i])
    requires PoweredAt(d.io, program, events, i)
    ensures PoweredAt(d'.io, program, events, i + 1)
  {
    assert PulseAt(program, i);
    if i >= 1 {
      assert PulseAt(program, i - 1);
    }
    if i >= 2 {
      assert PulseAt(program, i - 2);
    }
    if i >= 3 {
      assert PulseAt(program, i - 3);
    }
  }

  lemma PoweredFirst(io: Io, program: seq<Attempt>, events: seq<Event>)
    requires Dark(io)
    ensures PoweredAt(io, program, events, 0)
  {
  }

  lemma {:induction false} PoweredAfter(states: seq<Device>, events: seq<Event>, ok: bool, program: seq<Attempt>, i: nat)
    requires Runs(states, events) && Executes(program, events, ok) && Pulses(program) && Dark(states[0].io)
    requires i <= |events| && (!ok ==> i < |events|)
    ensures PoweredAt(states[i].io, program, events, i)
    decreases i
  {
    hide Step, Pulses, Matches, Fatal, PoweredAt;
    if i == 0 {
      PoweredFirst(states[0].io, program, events);
    } else {
      PoweredAfter(states, events, ok, program, i - 1);
      assert Step(states[i - 1], events[i - 1], states[i - 1 + 1]);
      PoweredNext(states[i - 1], states[i], program, events, i - 1);
    }
  }

  /** No pulse is left open at the end. */
  lemma LastPulses(program: seq<Attempt>, i: int)
    requires Pulses(program)
    ensures i >= |program| - 3 ==> !ClearAt(program, i)
    ensures i >= |program| - 2 ==> !RowsAt(program, i)
  {
    if 0 <= i < |program| {
      assert PulseAt(program, i);
      if i + 2 < |program| {
        assert PulseAt(program, i + 2);
      }
    }
  }

  /** Whatever the display showed before, a completed render leaves nothing powered. */
  lemma CompletedIsDark(states: seq<Device>, events: seq<Event>, job: Job)
    requires WellFormed(job) && Runs(states, events) && Executes(FrameProgram(job), events, true)
    requires Dark(states[0].io)
    ensures Dark(states[|events|].io)
  {
    hide Step, FrameProgram, Pulses, RowsAt, ClearAt;
    var program := FrameProgram(job);
    FramePulses(job);
    PoweredAfter(states, events, true, program, |events|);
    LastPulses(program, |events| - 1);
    LastPulses(program, |events| - 2);
    LastPulses(program, |events| - 3);
  }

  /** The failed write is the one that ends a row pulse. */
  predicate RowPulseEndFailed(program: seq<Attempt>, events: seq<Event>) {
    RowsAt(program, |events| - 3)
  }

  /** The failed write is the first one after a clear pulse whose own last write had failed as well. */
  predicate ClearPulseEndFailed(program: seq<Attempt>, events: seq<Event>) {
    && ClearAt(program, |events| - 4)
    && events[|events| - 2].Wrote? && !events[|events| - 2].ok
  }

  /** A checked write does not come right after what powers a driver, nor does it end a clear pulse. */
  lemma FailedIsNoPulse(program: seq<Attempt>, n: nat)
    requires Pulses(program) && n < |program| && program[n].Write? && program[n].checked
    ensures !RowsAt(program, n - 1) && !ClearAt(program, n - 1) && !ClearAt(program, n - 2)
  {
    if n >= 1 {
      assert PulseAt(program, n - 1);
    }
    if n >= 2 {
      assert PulseAt(program, n - 2);
    }
  }

  lemma FailedKeepsIo(states: seq<Device>, events: seq<Event>)
    requires Runs(states, events) && |events| > 0 && events[|events| - 1].Wrote? && !events[|events| - 1].ok
    ensures states[|events|].io == states[|events| - 1].io
  {
    var n := |events| - 1;
    assert Step(states[n], events[n], states[n + 1]);
  }

  /**
    A render cut short by a failing write leaves a driver powered exactly when the failed write is the one that ends a
    row pulse, or the one after a clear pulse whose unchecked last write had failed as well.
   */
  lemma DriverLeftOnExactlyWhen(states: seq<Device>, events: seq<Event>, job: Job)
    requires WellFormed(job) && Runs(states, events) && Executes(FrameProgram(job), events, false)
    requires Dark(states[0].io)
    ensures states[|events|].io.rows != {} <==> RowPulseEndFailed(FrameProgram(job), events)
    ensures states[|events|].io.clear <==> ClearPulseEndFailed(FrameProgram(job), events)
  {
    hide Runs, FrameProgram, Pulses;
    var program, n := FrameProgram(job), |events| - 1;
    FramePulses(job);
    PoweredAfter(states, events, false, program, n);
    FailedIsNoPulse(program, n);
    FailedKeepsIo(states, events);
  }

  lemma RunsAppend(states: seq<Device>, events: seq<Event>, e: Event, d: Device)
    requires Runs(states, events) && ValidDevice(states[|events|]) && Step(states[|events|], e, d)
    ensures Runs(states + [d], events + [e])
  {
    RunsEndValid(states, events);
    var all, es := states + [d], events + [e];
    forall i | 0 <= i < |es|
      ensures ValidDevice(all[i]) && Step(all[i], es[i], all[i + 1])
    {
      if i < |events| {
        assert Step(states[i], events[i], states[i + 1]);
      }
    }
  }

  /** The end of a run after which one more write fails. */
  lemma FailsNext(states: seq<Device>, events: seq<Event>, program: seq<Attempt>)
      returns (states': seq<Device>, events': seq<Event>)
    requires |events| < |program| && Performs(states, events, program[..|events|], true)
    requires program[|events|].Write? && program[|events|].checked
    ensures Performs(states', events', program, false) && |states| == |events| + 1
    ensures |events'| == |events| + 1 && states' == states + [states[|events|]]
  {
    var n := |events|;
    RunsEndValid(states, events);
    var e := Wrote(program[n].io, false);
    RunsAppend(states, events, e, states[n]);
    states', events' := states + [states[n]], events + [e];
    forall i | 0 <= i < n
      ensures Matches(program[i], events[i]) && !Fatal(program[i], events[i])
    {
      assert program[i] == program[..n][i];
    }
  }

  /** And it does happen: every row pulse of every render can be the one that is not ended. */
  lemma RowsCanStayOn(d: Device, job: Job, n: nat) returns (states: seq<Device>, events: seq<Event>)
    requires ValidDevice(d) && Dark(d.io) && WellFormed(job) && RowsAt(FrameProgram(job), n)
    ensures Performs(states, events, FrameProgram(job), false) && states[0] == d
    ensures states[|events|].io.rows == FrameProgram(job)[n].io.rows != {}
  {
    hide FrameProgram;
    var program := FrameProgram(job);
    FramePulses(job);
    assert PulseAt(program, n);
    states, events := CanPerform(d, program[..n + 2]);
    assert Step(states[n], events[n], states[n + 1]) && Step(states[n + 1], events[n + 1], states[n + 2]);
    assert Matches(program[n], events[n]) && !Fatal(program[n], events[n]);
    states, events := FailsNext(states, events, program);
  }

  /** So can every clear pulse, when its own last write fails and the next write too. */
  lemma ClearCanStayOn(d: Device, job: Job, n: nat) returns (states: seq<Device>, events: seq<Event>)
    requires ValidDevice(d) && Dark(d.io) && WellFormed(job) && ClearAt(FrameProgram(job), n)
    ensures Performs(states, events, FrameProgram(job), false) && states[0] == d
    ensures states[|events|].io.clear
  {
    hide FrameProgram;
    var program := FrameProgram(job);
    FramePulses(job);
    assert PulseAt(program, n) && PulseAt(program, n + 2);
    states, events := CanPerform(d, program[..n + 2]);
    assert Matches(program[n], events[n]) && !Fatal(program[n], events[n]);
    assert Step(states[n], events[n], states[n + 1]) && Step(states[n + 1], events[n + 1], states[n + 2]);
    var e, end := Wrote(IDLE, false), states[n + 2];
    RunsEndValid(states, events);
    RunsAppend(states, events, e, end);
    assert program[..n + 2] + [program[n + 2]] == program[..n + 3];
    assert Executes([program[n + 2]], [e], true);
    ExecutesThen(program[..n + 2], events, [program[n + 2]], [e], true);
    states, events := FailsNext(states + [end], events + [e], program);
  }

  lemma {:induction false} SafeRun(states: seq<Device>, events: seq<Event>, ok: bool, program: seq<Attempt>, i: nat)
    requires Pulses(program) && Runs(states, events) && Executes(program, events, ok)
    requires i <= |events| && FuseSafe(states[0].io)
    ensures FuseSafe(states[i].io)
    decreases i
  {
    if i > 0 {
      SafeRun(states, events, ok, program, i - 1);
      assert PulseAt(program, i - 1) && Matches(program[i - 1], events[i - 1]);
      assert Step(states[i - 1], events[i - 1], states[i - 1 + 1]);
    }
  }

  /**
    From any latched state that is safe itself, no state in the course of a render powers both drivers: for every
    frame, mode, order and delay, every behaviour of the device, and every write that fails on the way.
   */
  lemma FuseNeverBlown(states: seq<Device>, events: seq<Event>, ok: bool, job: Job, i: nat)
    requires WellFormed(job) && Runs(states, events) && Executes(FrameProgram(job), events, ok)
    requires i <= |events| && FuseSafe(states[0].io)
    ensures !(states[i].io.clear && states[i].io.rows != {})
  {
    LengthOfRun(states, events);
    hide Runs, Executes, Pulses, FrameProgram;
    FramePulses(job);
    SafeRun(states, events, ok, FrameProgram(job), i);
  }

  /** The errors of exactly those writes are ignored that end a clear pulse; every other failed write ends the render. */
  lemma UncheckedExactlyAfterClear(job: Job, i: nat)
    requires WellFormed(job) && i < |FrameProgram(job)| && FrameProgram(job)[i].Write?
    ensures var program := FrameProgram(job);
            !program[i].checked <==> i >= 2 && program[i - 2].Write? && program[i - 2].io.clear
  {
    hide FrameProgram;
    var program := FrameProgram(job);
    FramePulses(job);
    assert PulseAt(program, i);
    if i >= 2 {
      assert PulseAt(program, i - 2);
    }
  }
}
