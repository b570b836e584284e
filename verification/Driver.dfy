/** flipdot.c: the driver object, its register writes and the rendering functions. */
module Driver {
  import opened Columns
  import opened Errors
  import opened Framebuffers
  import opened Frames
  import opened Layout
  import opened Rendering
  import opened Schedule
  import opened Skipping

  type uint64 = n: nat | n < 0x1_0000_0000_0000_0000

  /** Reduction to unsigned long long. */
  function Wrap64(n: nat): uint64 {
    if n < 0x1_0000_0000_0000_0000 then n else Wrap64(n - 0x1_0000_0000_0000_0000)
  }

  lemma {:induction false} Wrap64Adds(n: nat, m: nat)
    ensures Wrap64(Wrap64(n) + m) == Wrap64(n + m)
    decreases n
  {
    if n >= 0x1_0000_0000_0000_0000 {
      Wrap64Adds(n - 0x1_0000_0000_0000_0000, m);
    }
  }

  lemma ModuloStep(n: nat)
    requires n >= 0x1_0000_0000_0000_0000
    ensures (n - 0x1_0000_0000_0000_0000) % 0x1_0000_0000_0000_0000 == n % 0x1_0000_0000_0000_0000
  {
    var m := n - 0x1_0000_0000_0000_0000;
    var q, r := m / 0x1_0000_0000_0000_0000, m % 0x1_0000_0000_0000_0000;
    assert n == 0x1_0000_0000_0000_0000 * (q + 1) + r;
  }

  lemma {:induction false} Wrap64IsModulo(n: nat)
    ensures Wrap64(n) == n % 0x1_0000_0000_0000_0000
  {
    if n >= 0x1_0000_0000_0000_0000 {
      Wrap64IsModulo(n - 0x1_0000_0000_0000_0000);
      ModuloStep(n);
    }
  }

  /** No panel of the order is empty or ends beyond the frame; none is looked at when DIFFERENTIAL mode finds no change. */
  ghost predicate Passable(job: Job)
    requires WellFormed(job)
  {
    || (job.options.mode.Differential? && job.old_ == job.new_)
    || forall n :: 0 <= n < |job.options.order| ==>
         var slot := job.slots[job.options.order[n]]; 0 < slot.width && slot.x + slot.width <= |job.new_|
  }

  lemma PassableExactlyWhen(job: Job)
    requires WellFormed(job)
    ensures NoneRejected(job) <==> Passable(job)
  {
    DistanceZero(job.old_, job.new_);
    var r := Reach(job, 0);
    if r == |job.options.order| {
      forall n | 0 <= n < |job.options.order|
        ensures Drawable(job.slots[job.options.order[n]], |job.new_|)
      {
      }
    } else {
      assert !Drawable(job.slots[job.options.order[r]], |job.new_|);
    }
  }

  /**
    What flipdot_render does with the snapshots of `job`: its program on the bus, to the end unless a write failed; success
    exactly when no write failed and no panel was rejected; and the flipped pixels counted modulo 2^64.
   */
  ghost predicate Drew(job: Job, log: seq<Event>, log': seq<Event>, flipped: nat, flipped': nat, error: Error) {
    && WellFormed(job)
    && (error == Ok || error == Fail || error == InvalidArg)
    && Ran(log, log', FrameProgram(job), error != Fail)
    && (error != Fail ==> (error == Ok <==> Passable(job)))
    && (error == Ok ==> flipped' == (flipped + FrameFlips(job)) % 0x1_0000_0000_0000_0000)
  }

  lemma {:induction false} ColumnsPrefix(job: Job, panel: nat, n: nat, m: nat)
    requires WellFormed(job) && panel < |job.slots| && Drawable(job.slots[panel], |job.new_|)
    requires n <= m <= job.slots[panel].width
    ensures ColumnsProgram(job, panel, n) <= ColumnsProgram(job, panel, m)
    decreases m
  {
    hide ColumnOf;
    if n < m {
      ColumnsPrefix(job, panel, n, m - 1);
    }
  }

  /** The log after the second of three stages. */
  lemma StageRan(log: seq<Event>, mid: seq<Event>, after: seq<Event>, p: seq<Attempt>, q: seq<Attempt>, r: seq<Attempt>, ok: bool)
    requires Ran(log, mid, p, true) && Ran(mid, after, q, ok)
    ensures if ok then Ran(log, after, p + q, true) else Ran(log, after, p + q + r, false)
  {
    hide Ran;
    RanThen(log, mid, after, p, q, ok);
    if !ok {
      RanAbort(log, after, p + q, p + q + r);
    }
  }

  /** The log after column `x` of a panel, given the log after the columns before it. */
  lemma ColumnRan(log: seq<Event>, before: seq<Event>, after: seq<Event>, job: Job, p: nat, x: nat, select: set<nat>, ok: bool)
    requires WellFormed(job) && p < |job.slots| && Drawable(job.slots[p], |job.new_|) && x < job.slots[p].width
    requires select == SelectFor(p, x)
    requires Ran(log, before, ColumnsProgram(job, p, x), true)
    requires var k := job.slots[p].x + x;
             Ran(before, after, ColumnProgram(select, job.options.delays[k], job.options.mode, job.old_[k], job.new_[k]), ok)
    ensures ok ==> Ran(log, after, ColumnsProgram(job, p, x + 1), true)
    ensures !ok ==> Ran(log, after, ColumnsProgram(job, p, job.slots[p].width), false)
  {
    hide Ran, ColumnProgram;
    RanThen(log, before, after, ColumnsProgram(job, p, x), ColumnOf(job, p, x), ok);
    if !ok {
      ColumnsPrefix(job, p, x + 1, job.slots[p].width);
      RanAbort(log, after, ColumnsProgram(job, p, x + 1), ColumnsProgram(job, p, job.slots[p].width));
    }
  }

  /** Before the first column of a panel. */
  lemma NoColumnsRan(log: seq<Event>, job: Job, p: nat, flipped: uint64)
    requires WellFormed(job) && p < |job.slots| && Drawable(job.slots[p], |job.new_|)
    ensures Ran(log, log, ColumnsProgram(job, p, 0), true)
    ensures Wrap64(flipped + Difference(job.old_, job.new_, job.slots[p].x, 0)) == flipped
  {
    RanNothing(log);
  }

  lemma ColumnCounted(flipped: nat, counted: nat, job: Job, panel: Slot, x: nat)
    requires WellFormed(job) && Drawable(panel, |job.new_|) && x < panel.width
    requires counted == Wrap64(flipped + Difference(job.old_, job.new_, panel.x, x))
    ensures Wrap64(counted + Flips(job.old_[panel.x + x], job.new_[panel.x + x]))
         == Wrap64(flipped + Difference(job.old_, job.new_, panel.x, x + 1))
  {
    Wrap64Adds(flipped + Difference(job.old_, job.new_, panel.x, x), Flips(job.old_[panel.x + x], job.new_[panel.x + x]));
  }

  lemma {:induction false} OrderPrefix(job: Job, n: nat, m: nat)
    requires n <= m && DrawableUpTo(job, m)
    ensures OrderProgram(job, n) <= OrderProgram(job, m)
    decreases m
  {
    hide StopProgram;
    if n < m {
      OrderPrefix(job, n, m - 1);
    }
  }

  /** The log after stop `i` of the drawing order, given the log after the stops before it. */
  lemma StopRan(log: seq<Event>, before: seq<Event>, after: seq<Event>, job: Job, i: nat, ok: bool)
    requires DrawableUpTo(job, i + 1) && Reach(job, i + 1) == Reach(job, 0) && !SkipFrame(job)
    requires Ran(log, before, OrderProgram(job, i), true) && Ran(before, after, StopProgram(job, i), ok)
    ensures ok ==> Ran(log, after, OrderProgram(job, i + 1), true)
    ensures !ok ==> Ran(log, after, FrameProgram(job), false)
  {
    hide Ran, StopProgram;
    RanThen(log, before, after, OrderProgram(job, i), StopProgram(job, i), ok);
    if !ok {
      OrderPrefix(job, i + 1, Reach(job, 0));
      RanAbort(log, after, OrderProgram(job, i + 1), OrderProgram(job, Reach(job, 0)));
    }
  }

  /** The SPI bus and the delay routine. Which transmissions fail is not known to the driver. */
  class Bus {
    /** Everything that happened, oldest first. */
    ghost var log: seq<Event>
    var transmissions: nat
    const fails: nat -> bool

    constructor (fails: nat -> bool)
      ensures log == []
    {
      this.fails := fails;
      transmissions := 0;
      log := [];
    }

    method Transmit(io: Io) returns (ok: bool)
      modifies this
      ensures log == old(log) + [Wrote(io, ok)]
    {
      ok := !fails(transmissions);
      transmissions := transmissions + 1;
      log := log + [Wrote(io, ok)];
    }

    method Delay(us: nat)
      modifies this`log
      ensures log == old(log) + [Waited(us)]
    {
      log := log + [Waited(us)];
    }
  }

  /** calloc, then flipdot_framebuffer_copy */
  method CopyFramebuffer(src: Framebuffer) returns (error: Error, copy: Framebuffer)
    requires src.Valid()
    ensures error == Ok && fresh(copy) && fresh(copy.columns)
    ensures copy.Valid() && copy.width == src.width && copy.Image() == src.Image()
  {
    copy := new Framebuffer.Blank();
    error := copy.CopyFrom(src);
  }

  /** calloc, then flipdot_rendering_options_copy */
  method CopyOptions(src: RenderingOptions) returns (error: Error, copy: RenderingOptions)
    requires src.Valid()
    ensures error == if src.panelCount == 0 then InvalidArg else Ok
    ensures error == Ok ==> fresh(copy) && fresh(copy.panelOrder) && fresh(copy.delayOptions)
    ensures error == Ok ==> copy.Valid() && copy.Value() == src.Value() && copy.width == src.width && copy.panelCount == src.panelCount
  {
    copy := new RenderingOptions.Zeroed();
    error := copy.CopyFrom(src);
  }

  class Flipdot {
    const bus: Bus
    const panels: array<Slot>
    var panelCount: nat
    var width: nat
    var io: Io
    var framebuffer: Framebuffer
    var framebufferInternal: Framebuffer
    var framebufferInternalOld: Framebuffer
    var renderingOptions: RenderingOptions
    var internalRenderingOptions: RenderingOptions
    var powerStatus: bool
    var pixelsFlipped: uint64
    var semaphoreTaken: bool

    /** The public buffer, the last rendered snapshot and the options fit the panels. */
    ghost predicate Valid()
      reads `panelCount, `width, `framebuffer, `framebufferInternal, `renderingOptions
      reads framebuffer, framebufferInternal, renderingOptions, renderingOptions.panelOrder
    {
      && panels.Length == panelCount
      && framebuffer.Valid() && framebuffer.width == width
      && framebufferInternal.Valid() && framebufferInternal.width == width
      && renderingOptions.Valid() && renderingOptions.width == width && renderingOptions.panelCount == panelCount
      && InRange(renderingOptions.panelOrder[..], panelCount)
    }

    ghost function InternalObjects(): set<object>
      reads `framebufferInternal, `framebufferInternalOld, `internalRenderingOptions
      reads framebufferInternal, framebufferInternalOld, internalRenderingOptions
    {
      {panels, framebufferInternal, framebufferInternalOld, internalRenderingOptions,
       framebufferInternal.columns, framebufferInternalOld.columns,
       internalRenderingOptions.panelOrder, internalRenderingOptions.delayOptions}
    }

    /** The private snapshots that a render works on. */
    ghost function CurrentJob(): Job
      reads `framebufferInternal, `framebufferInternalOld, `internalRenderingOptions, InternalObjects()
    {
      Job(panels[..], internalRenderingOptions.Value(), framebufferInternalOld.Image(), framebufferInternal.Image())
    }

    /** The snapshots are in place and fit the panels. */
    ghost predicate Loaded()
      reads `panelCount, `width, `framebufferInternal, `framebufferInternalOld, `internalRenderingOptions, InternalObjects()
    {
      && panels.Length == panelCount > 0
      && framebufferInternal.Valid() && framebufferInternal.width == width
      && framebufferInternalOld.Valid() && framebufferInternalOld.width == width
      && internalRenderingOptions.Valid() && internalRenderingOptions.width == width
      && internalRenderingOptions.panelCount == panelCount
      && WellFormed(CurrentJob())
    }

    constructor (bus: Bus, panels: array<Slot>, width: nat, framebuffer: Framebuffer, framebufferInternal: Framebuffer,
                 options: RenderingOptions)
      ensures this.bus == bus && this.panels == panels && this.panelCount == panels.Length && this.width == width
      ensures this.framebuffer == framebuffer && this.framebufferInternal == framebufferInternal
      ensures this.renderingOptions == options && io == IDLE
      ensures pixelsFlipped == 0 && !powerStatus && !semaphoreTaken
    {
      this.bus, this.panels, this.panelCount, this.width := bus, panels, panels.Length, width;
      this.framebuffer, this.framebufferInternal, this.framebufferInternalOld := framebuffer, framebufferInternal, framebufferInternal;
      this.renderingOptions, this.internalRenderingOptions := options, options;
      io, pixelsFlipped, powerStatus, semaphoreTaken := IDLE, 0, false, false;
    }

    method WriteRegisters() returns (error: Error)
      modifies bus
      ensures io.clear && io.rows != {} ==> error == InvalidArg && bus.log == old(bus.log)
      ensures !(io.clear && io.rows != {}) ==>
        (error == Ok || error == Fail) && bus.log == old(bus.log) + [Wrote(io, error == Ok)]
    {
      if io.clear && io.rows != {} {
        return InvalidArg;
      }
      var ok := bus.Transmit(io);
      error := if ok then Ok else Fail;
    }

    /** flipdot_initialize: lays out the panels, allocates everything and latches the idle state. */
    static method Initialize(bus: Bus, panelCount: nat, panelSize: seq<uint8>) returns (error: Error, flipdot: Flipdot?)
      requires panelCount <= |panelSize| <= 5
      modifies bus
      ensures error == Ok <==> flipdot != null
      ensures error == Ok ==>
        && fresh(flipdot) && flipdot.bus == bus && flipdot.Valid() && !flipdot.semaphoreTaken && !flipdot.powerStatus
        && flipdot.panels[..] == Slots(panelSize[..panelCount])
        && flipdot.width == Start8(panelSize[..panelCount], panelCount)
        && flipdot.pixelsFlipped == 0 && flipdot.io == IDLE
        && flipdot.framebuffer.Image() == flipdot.framebufferInternal.Image() == seq(flipdot.width, _ => {})
        && flipdot.renderingOptions.mode == Full && CoversAll(flipdot.renderingOptions.Value().order, panelCount)
        && (forall i :: 0 <= i < panelCount ==> flipdot.renderingOptions.panelOrder[i] == i)
        && (forall x :: 0 <= x < flipdot.width ==>
              flipdot.renderingOptions.delayOptions[x].pre == 0 && flipdot.renderingOptions.delayOptions[x].clear == 160
              && flipdot.renderingOptions.delayOptions[x].set_ == 160)
        && bus.log == old(bus.log) + [Wrote(IDLE, true)]
      ensures error == InvalidArg <==> panelCount == 0 || Start8(panelSize[..panelCount], panelCount) == 0
    {
      flipdot := null;
      var panels, width := LayOut(panelCount, panelSize);
      var framebuffer, framebufferInternal;
      error, framebuffer := Framebuffer.Init(width);
      if error != Ok {
        return;
      }
      error, framebufferInternal := Framebuffer.Init(width);
      if error != Ok {
        return;
      }
      var options := new RenderingOptions.Zeroed();
      error := options.Initialize(panelCount, width);
      if error != Ok {
        return;
      }
      var candidate := new Flipdot(bus, panels, width, framebuffer, framebufferInternal, options);
      error := candidate.WriteRegisters();
      if error == Ok {
        flipdot := candidate;
      }
    }

    /** From any io state whatsoever; the fuse guard never fires. */
    method SelectPanel(panelIndex: nat) returns (error: Error)
      requires panelIndex < panelCount
      modifies this`io, bus
      ensures error == Ok || error == Fail
      ensures Ran(old(bus.log), bus.log, SelectProgram(panelIndex), error == Ok)
      ensures error == Ok ==> io == Io(SelectOnly(panelIndex), true, true, false, {})
    {
      ghost var program, log := SelectProgram(panelIndex), bus.log;
      RanNothing(log);
      io := Io(NO_SELECT, true, false, false, {});
      error := WriteRegisters();
      RanStep(log, log, [], program[0], Wrote(io, error == Ok));
      if error != Ok {
        RanAbort(log, bus.log, program[..1], program);
        return;
      }
      RanStep(log, bus.log, program[..1], program[1], Waited(SHORT));
      bus.Delay(100);
      assert program[..1] + [program[1]] == program[..2];

      io := io.(select := NO_SELECT - {panelIndex}, reset := true);
      ghost var before := bus.log;
      error := WriteRegisters();
      RanStep(log, before, program[..2], program[2], Wrote(io, error == Ok));
      assert program[..2] + [program[2]] == program[..3];
      if error != Ok {
        RanAbort(log, bus.log, program[..3], program);
        return;
      }
      RanStep(log, bus.log, program[..3], program[3], Waited(SHORT));
      bus.Delay(100);
      assert program[..3] + [program[3]] == program;
    }

    /** The pre cycle and the clock edge that feeds or moves the token. */
    method PreCycle(preDelay: uint16) returns (error: Error)
      requires io.clock && io.reset && !io.clear && io.rows == {}
      modifies this`io, bus
      ensures error == Ok || error == Fail
      ensures forall d: Delays :: d.pre == preDelay ==> Ran(old(bus.log), bus.log, FeedProgram(old(io.select), d), error == Ok)
      ensures io == old(io).(clock := false)
    {
      ghost var log, program := bus.log, FeedProgram(io.select, Delays(preDelay, 0, 0));
      RanNothing(log);
      RanStep(log, log, [], program[0], Waited(Micros(preDelay)));
      bus.Delay(Micros(preDelay));
      io := io.(clock := false);
      ghost var before := bus.log;
      error := WriteRegisters();
      RanStep(log, before, [program[0]], program[1], Wrote(io, error == Ok));
    }

    method ClearCycle(skipClear: bool, clearDelay: uint16) returns (error: Error)
      requires !io.clock && io.reset && !io.clear && io.rows == {}
      modifies this`io, bus
      ensures error == Ok || error == Fail
      ensures forall d: Delays, mode: Mode, old_: Column, new_: Column ::
                d.clear == clearDelay && SkipClear(mode, old_, new_) == skipClear ==>
                  Ran(old(bus.log), bus.log, ClearProgram(d, mode, old_, new_), error == Ok)
      ensures error == Ok ==> io == IDLE
    {
      ghost var log := bus.log;
      RanNothing(log);
      io := io.(select := NO_SELECT, clock := true);
      if !skipClear {
        io := io.(clear := true);
      }
      error := WriteRegisters();
      RanStep(log, log, [], Write(io, true), Wrote(io, error == Ok));
      ghost var after := bus.log;
      if error != Ok {
        if skipClear {
          RanAbort(log, after, [Write(IDLE, true)], [Write(IDLE, true), Delay(SHORT)]);
        } else {
          RanAbort(log, after, [Write(IDLE.(clear := true), true)],
                   [Write(IDLE.(clear := true), true), Delay(Micros(clearDelay)), Write(IDLE, false)]);
        }
        return;
      }
      if !skipClear {
        RanStep(log, after, [Write(io, true)], Delay(Micros(clearDelay)), Waited(Micros(clearDelay)));
        bus.Delay(Micros(clearDelay));
        ghost var held := bus.log;
        ghost var driven := io;
        io := io.(clear := false);
        var ignored := WriteRegisters();
        RanStep(log, held, [Write(driven, true), Delay(Micros(clearDelay))], Write(io, false), Wrote(io, ignored == Ok));
      } else {
        RanStep(log, after, [Write(io, true)], Delay(SHORT), Waited(SHORT));
        bus.Delay(100);
      }
    }

    method SetCycle(column: Column, skipSet: bool, setDelay: uint16) returns (error: Error)
      requires io == IDLE
      modifies this`io, bus
      ensures error == Ok || error == Fail
      ensures forall d: Delays, mode: Mode, old_: Column ::
                d.set_ == setDelay && SkipSet(mode, old_, column) == skipSet ==>
                  Ran(old(bus.log), bus.log, SetProgram(d, mode, old_, column), error == Ok)
      ensures error == Ok ==> io == IDLE
    {
      ghost var log := bus.log;
      ghost var program := [Write(IDLE.(clock := false), true), Write(IDLE.(rows := column), true),
                            Delay(if skipSet then SHORT else Micros(setDelay)), Write(IDLE, true)];
      RanNothing(log);
      io := io.(clock := false);
      error := WriteRegisters();
      RanStep(log, log, [], program[0], Wrote(io, error == Ok));
      if error != Ok {
        RanAbort(log, bus.log, program[..1], program);
        return;
      }
      io := io.(clock := true, rows := column);
      ghost var before := bus.log;
      error := WriteRegisters();
      RanStep(log, before, program[..1], program[1], Wrote(io, error == Ok));
      assert program[..1] + [program[1]] == program[..2];
      if error != Ok {
        RanAbort(log, bus.log, program[..2], program);
        return;
      }
      RanStep(log, bus.log, program[..2], program[2], Waited(program[2].us));
      if !skipSet {
        bus.Delay(Micros(setDelay));
      } else {
        bus.Delay(100);
      }
      assert program[..2] + [program[2]] == program[..3];
      io := io.(rows := {});
      before := bus.log;
      error := WriteRegisters();
      RanStep(log, before, program[..3], program[3], Wrote(io, error == Ok));
      assert program[..3] + [program[3]] == program;
    }

    /** The three cycles of flipdot_render_column. */
    method Cycles(mode: Mode, columnOld: Column, column: Column, pixelsChanged: nat, delays: Delays) returns (error: Error)
      requires io.clock && io.reset && !io.clear && io.rows == {}
      requires pixelsChanged == Flips(columnOld, column)
      modifies this`io, bus
      ensures error == Ok || error == Fail
      ensures Ran(old(bus.log), bus.log, ColumnProgram(old(io.select), delays, mode, columnOld, column), error == Ok)
      ensures error == Ok ==> io == IDLE
    {
      hide Ran, FeedProgram, ClearProgram, SetProgram, Flips;
      var clearNeeded := columnOld - column != {};
      var skipClear := !clearNeeded && mode == Differential;
      var skipSet := (column == {} && mode == Differential) || (pixelsChanged == 0 && mode == Differential);
      ghost var feed := FeedProgram(io.select, delays);
      ghost var clear := ClearProgram(delays, mode, columnOld, column);
      ghost var set_ := SetProgram(delays, mode, columnOld, column);
      ghost var log := bus.log;

      error := PreCycle(delays.pre);
      if error != Ok {
        RanAbort(log, bus.log, feed, feed + clear + set_);
        return;
      }
      ghost var fed := bus.log;
      error := ClearCycle(skipClear, delays.clear);
      StageRan(log, fed, bus.log, feed, clear, set_, error == Ok);
      if error != Ok {
        return;
      }
      ghost var cleared := bus.log;
      error := SetCycle(column, skipSet, delays.set_);
      RanThen(log, cleared, bus.log, feed + clear, set_, error == Ok);
    }

    /** Column x of the display, of which the caller has just selected the panel or drawn the column before. */
    method RenderColumn(x: nat) returns (error: Error)
      requires Loaded() && x < width
      requires io.clock && io.reset && !io.clear && io.rows == {}
      modifies this`io, this`pixelsFlipped, bus
      ensures error == Ok || error == Fail
      ensures var job := CurrentJob();
              Ran(old(bus.log), bus.log,
                  ColumnProgram(old(io.select), job.options.delays[x], job.options.mode, job.old_[x], job.new_[x]), error == Ok)
      ensures error == Ok ==> io == IDLE
      ensures error == Ok ==> pixelsFlipped == Wrap64(old(pixelsFlipped) + Flips(CurrentJob().old_[x], CurrentJob().new_[x]))
    {
      hide Ran, ColumnProgram, Flips, Wrap64;
      var columnOld := framebufferInternalOld.columns[x];
      var column := framebufferInternal.columns[x];
      var pixelsChanged := Flips(columnOld, column);
      error := Cycles(internalRenderingOptions.mode, columnOld, column, pixelsChanged, internalRenderingOptions.delayOptions[x]);
      if error != Ok {
        return;
      }
      pixelsFlipped := Wrap64(pixelsFlipped + pixelsChanged);
    }

    /** The column loop of flipdot_render_panel, after the panel was selected. */
    method RenderColumns(panelIndex: nat, panel: Slot) returns (error: Error)
      requires Loaded() && panelIndex < panelCount && panel == panels[panelIndex] && Drawable(panel, width)
      requires io == Io(SelectOnly(panelIndex), true, true, false, {})
      modifies this`io, this`pixelsFlipped, bus
      ensures error == Ok || error == Fail
      ensures Ran(old(bus.log), bus.log, ColumnsProgram(CurrentJob(), panelIndex, panel.width), error == Ok)
      ensures error == Ok ==>
        var job := CurrentJob();
        pixelsFlipped == Wrap64(old(pixelsFlipped) + Difference(job.old_, job.new_, panel.x, panel.width))
    {
      hide Ran, ColumnProgram, WellFormed, Difference, Wrap64, ColumnsProgram, Flips;
      ghost var job, log, flipped := CurrentJob(), bus.log, pixelsFlipped;
      NoColumnsRan(log, job, panelIndex, flipped);
      var x := 0;
      error := Ok;
      while x < panel.width
        invariant 0 <= x <= panel.width && error == Ok
        invariant CurrentJob() == job
        invariant io == Io(SelectFor(panelIndex, x), true, true, false, {})
        invariant Ran(log, bus.log, ColumnsProgram(job, panelIndex, x), true)
        invariant pixelsFlipped == Wrap64(flipped + Difference(job.old_, job.new_, panel.x, x))
      {
        ghost var before, select, counted := bus.log, io.select, pixelsFlipped;
        error := RenderColumn(panel.x + x);
        ColumnRan(log, before, bus.log, job, panelIndex, x, select, error == Ok);
        if error != Ok {
          return;
        }
        ColumnCounted(flipped, counted, job, panel, x);
        x := x + 1;
      }
    }

    method RenderPanel(panelIndex: nat) returns (error: Error)
      requires Loaded() && panelIndex < panelCount && Drawable(panels[panelIndex], width)
      modifies this`io, this`pixelsFlipped, bus
      ensures error == Ok || error == Fail
      ensures Ran(old(bus.log), bus.log, PanelProgram(CurrentJob(), panelIndex), error == Ok)
      ensures error == Ok ==>
        var job, slot := CurrentJob(), panels[panelIndex];
        pixelsFlipped == Wrap64(old(pixelsFlipped) + Difference(job.old_, job.new_, slot.x, slot.width))
    {
      hide Ran, SelectProgram, ColumnsProgram;
      ghost var job, log, select := CurrentJob(), bus.log, SelectProgram(panelIndex);
      error := SelectPanel(panelIndex);
      if error != Ok {
        RanAbort(log, bus.log, select, PanelProgram(job, panelIndex));
        return;
      }
      ghost var selected := bus.log;
      error := RenderColumns(panelIndex, panels[panelIndex]);
      RanThen(log, selected, bus.log, select, ColumnsProgram(job, panelIndex, panels[panelIndex].width), error == Ok);
    }

    /** The body of the panel loop in flipdot_render: compare, then skip or draw. */
    method RenderStop(i: nat) returns (error: Error)
      requires Loaded() && i < panelCount && DrawableUpTo(CurrentJob(), i)
      modifies this`io, this`pixelsFlipped, bus
      ensures error == InvalidArg <==> !DrawableUpTo(CurrentJob(), i + 1)
      ensures error == InvalidArg ==> bus.log == old(bus.log)
      ensures error != InvalidArg ==>
        && (error == Ok || error == Fail)
        && Ran(old(bus.log), bus.log, StopProgram(CurrentJob(), i), error == Ok)
      ensures error == Ok ==> pixelsFlipped == Wrap64(old(pixelsFlipped) + StopFlips(CurrentJob(), i))
      ensures var job := CurrentJob();
              var p := job.options.order[i];
              && (error == InvalidArg <==> panels[p].width == 0 || panels[p].x + panels[p].width > width)
              && (error != InvalidArg && job.options.mode.Differential? && !Changes(job, p) ==>
                    error == Ok && bus.log == old(bus.log))
              && (error != InvalidArg && (job.options.mode.Full? || Changes(job, p)) ==>
                    Ran(old(bus.log), bus.log, PanelProgram(job, p), error == Ok))
    {
      hide Ran, PanelProgram, Changes;
      ghost var job, log := CurrentJob(), bus.log;
      var currentPanelIndex := internalRenderingOptions.panelOrder[i];
      assert currentPanelIndex == job.options.order[i];
      var currentPanel := panels[currentPanelIndex];
      var pixelsChanged;
      error, pixelsChanged := ComparePartial(framebufferInternal, framebufferInternalOld, currentPanel.x, currentPanel.width);
      if error != Ok {
        return;
      }
      DifferenceSymmetric(job.old_, job.new_, currentPanel.x, currentPanel.width);
      SkipsExactlyUnchanged(job, currentPanelIndex);
      if internalRenderingOptions.mode == Differential && pixelsChanged == 0 {
        RanNothing(log);
        return;
      }
      error := RenderPanel(currentPanelIndex);
    }

    /** The panel loop, after the snapshots were taken. */
    method RenderOrder() returns (error: Error)
      requires Loaded() && !SkipFrame(CurrentJob())
      modifies this`io, this`pixelsFlipped, bus
      ensures error == Ok || error == Fail || error == InvalidArg
      ensures Ran(old(bus.log), bus.log, FrameProgram(CurrentJob()), error != Fail)
      ensures error != Fail ==> (error == Ok <==> NoneRejected(CurrentJob()))
      ensures error == Ok ==> pixelsFlipped == Wrap64(old(pixelsFlipped) + FrameFlips(CurrentJob()))
    {
      hide Ran, StopProgram, StopFlips, Changes, PanelProgram;
      ghost var job, log, flipped := CurrentJob(), bus.log, pixelsFlipped;
      RanNothing(log);
      var i := 0;
      error := Ok;
      while i < panelCount
        invariant 0 <= i <= panelCount && error == Ok
        invariant CurrentJob() == job
        invariant DrawableUpTo(job, i) && Reach(job, i) == Reach(job, 0)
        invariant Ran(log, bus.log, OrderProgram(job, i), true)
        invariant pixelsFlipped == Wrap64(flipped + OrderFlips(job, i))
      {
        ghost var before := bus.log;
        error := RenderStop(i);
        if error == InvalidArg {
          return;
        }
        StopRan(log, before, bus.log, job, i, error == Ok);
        if error != Ok {
          return;
        }
        Wrap64Adds(flipped + OrderFlips(job, i), StopFlips(job, i));
        i := i + 1;
      }
    }

    /** What the next render will work on: the options, the last snapshot and the frame as they are now. */
    ghost function NextJob(): Job
      reads `framebuffer, `framebufferInternal, `renderingOptions, panels
      reads framebuffer, framebufferInternal, renderingOptions
      reads framebuffer.columns, framebufferInternal.columns, renderingOptions.panelOrder, renderingOptions.delayOptions
    {
      Job(panels[..], renderingOptions.Value(), framebufferInternal.Image(), framebuffer.Image())
    }

    /** flipdot_cycle_internal_datastructures: new private copies of options and frame, the old frame kept for the diff. */
    method CycleInternalDatastructures() returns (error: Error)
      requires Valid()
      modifies this`internalRenderingOptions, this`framebufferInternal, this`framebufferInternalOld
      ensures error == if panelCount == 0 then InvalidArg else Ok
      ensures Valid() && (error == Ok ==> Loaded())
      ensures error == Ok ==> CurrentJob() == old(NextJob()) && fresh(framebufferInternal) && fresh(framebufferInternal.columns)
    {
      var options, old_, new_;
      error, options := CopyOptions(renderingOptions);
      internalRenderingOptions := options;
      if error != Ok {
        return;
      }
      error, old_ := CopyFramebuffer(framebufferInternal);
      framebufferInternalOld := old_;
      if error != Ok {
        return;
      }
      error, new_ := CopyFramebuffer(framebuffer);
      framebufferInternal := new_;
      assert InRange(CurrentJob().options.order, panelCount);
    }

    /**
      The current job was executed on the bus since `log`: to its end unless a write failed. It succeeds exactly when
      no write failed and every panel it reached is drawable, and gives the semaphore back only then.
     */
    ghost predicate Rendered(log: seq<Event>, flipped: nat, error: Error)
      requires Loaded()
      reads this, bus, InternalObjects()
    {
      && (error == Ok || error == Fail || error == InvalidArg)
      && Ran(log, bus.log, FrameProgram(CurrentJob()), error != Fail)
      && (error != Fail ==> (error == Ok <==> NoneRejected(CurrentJob())))
      && (error == Ok ==> pixelsFlipped == Wrap64(flipped + FrameFlips(CurrentJob())))
      && (semaphoreTaken <==> error != Ok)
    }

    lemma RenderedDrew(log: seq<Event>, flipped: nat, error: Error)
      requires Loaded() && Rendered(log, flipped, error)
      ensures Drew(CurrentJob(), log, bus.log, flipped, pixelsFlipped, error)
    {
      hide Ran, FrameProgram, FrameFlips, NoneRejected, WellFormed, Passable;
      PassableExactlyWhen(CurrentJob());
      Wrap64IsModulo(flipped + FrameFlips(CurrentJob()));
    }

    /** The part of flipdot_render after the snapshots: compare the frames, then skip the frame or walk the panels. */
    method RenderSnapshot() returns (error: Error)
      requires Loaded() && semaphoreTaken
      modifies `io, `pixelsFlipped, `semaphoreTaken, bus
      ensures Rendered(old(bus.log), old(pixelsFlipped), error)
    {
      hide Ran, OrderProgram, OrderFlips, Difference;
      ghost var job := CurrentJob();
      var pixelsChanged;
      error, pixelsChanged := Compare(framebufferInternal, framebufferInternalOld);
      DifferenceSymmetric(job.old_, job.new_, 0, |job.new_|);
      if internalRenderingOptions.mode == Differential && pixelsChanged == 0 {
        RanNothing(bus.log);
        semaphoreTaken := false;
        return Ok;
      }
      error := RenderOrder();
      if error != Ok {
        return;
      }
      semaphoreTaken := false;
    }

    /** The part of flipdot_render that runs with the semaphore taken and the power on. */
    method RenderPowered() returns (error: Error)
      requires Valid() && semaphoreTaken
      modifies `io, `pixelsFlipped, `semaphoreTaken, `internalRenderingOptions, `framebufferInternal, `framebufferInternalOld, bus
      ensures Valid()
      ensures panelCount == 0 ==> error == InvalidArg && !semaphoreTaken && unchanged(bus)
      ensures panelCount > 0 ==> Loaded() && CurrentJob() == old(NextJob()) && fresh(framebufferInternal)
      ensures panelCount > 0 ==> Rendered(old(bus.log), old(pixelsFlipped), error)
    {
      hide Ran, FrameProgram, FrameFlips, NoneRejected, WellFormed;
      error := CycleInternalDatastructures();
      if error != Ok {
        semaphoreTaken := false;
        return;
      }
      error := RenderSnapshot();
    }

    /**
      flipdot_render. The source waits for the semaphore without limit, so a call made while it is held never
      returns; such calls are excluded here. The errors of the panel loop leave it taken, as in the source.
     */
    method Render() returns (error: Error)
      requires Valid() && !semaphoreTaken
      modifies `io, `pixelsFlipped, `semaphoreTaken, `internalRenderingOptions, `framebufferInternal, `framebufferInternalOld, bus
      ensures Valid()
      ensures !powerStatus ==> error == InvalidState && unchanged(this) && unchanged(bus)
      ensures powerStatus && panelCount == 0 ==> error == InvalidArg && !semaphoreTaken && unchanged(bus)
      ensures powerStatus && panelCount > 0 ==> Loaded() && CurrentJob() == old(NextJob()) && fresh(framebufferInternal)
      ensures powerStatus && panelCount > 0 ==> Rendered(old(bus.log), old(pixelsFlipped), error)
      ensures powerStatus && panelCount > 0 ==>
        && framebufferInternal.Image() == old(framebuffer.Image())
        && framebufferInternalOld.Image() == old(framebufferInternal.Image())
        && internalRenderingOptions.mode == old(renderingOptions.mode)
        && internalRenderingOptions.panelOrder[..] == old(renderingOptions.panelOrder[..])
        && internalRenderingOptions.delayOptions[..] == old(renderingOptions.delayOptions[..])
      ensures powerStatus && panelCount > 0 ==>
        && Drew(Job(panels[..],
                    Options(old(renderingOptions.mode), old(renderingOptions.panelOrder[..]), old(renderingOptions.delayOptions[..])),
                    old(framebufferInternal.Image()), old(framebuffer.Image())),
                old(bus.log), bus.log, old(pixelsFlipped), pixelsFlipped, error)
        && (semaphoreTaken <==> error != Ok)
    {
      hide Ran, FrameProgram, FrameFlips, NoneRejected, WellFormed, Drew;
      semaphoreTaken := true;
      if !powerStatus {
        semaphoreTaken := false;
        return InvalidState;
      }
      error := RenderPowered();
      if panelCount > 0 {
        RenderedDrew(old(bus.log), old(pixelsFlipped), error);
      }
    }

    /** flipdot_set_power; `gpioOk` tells whether the pin could be written. */
    method SetPower(powerStatus: bool, gpioOk: bool) returns (error: Error)
      requires !semaphoreTaken
      modifies this`powerStatus, this`semaphoreTaken
      ensures error == (if gpioOk then Ok else Fail) && !semaphoreTaken
      ensures this.powerStatus == if gpioOk then powerStatus else old(this.powerStatus)
    {
      semaphoreTaken := true;
      error := if gpioOk then Ok else Fail;
      if error == Ok {
        this.powerStatus := powerStatus;
      }
      semaphoreTaken := false;
    }
  }
}
