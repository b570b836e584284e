/**
  The register writes and delays that the rendering functions of flipdot.c attempt, as values, and what it
  means for a log of bus events to be an execution of them.
 */
module Schedule {
  import opened Columns
  import opened Frames
  import opened Layout
  import opened Rendering

  /** flipdot_io_state_t. Select is active low: the listed bits are the panels that are NOT selected. */
  datatype Io = Io(select: set<nat>, clock: bool, reset: bool, clear: bool, rows: Column)

  const NO_SELECT: set<nat> := {0, 1, 2, 3, 4}

  /** `(~(1 << panel)) & 0b00011111` */
  function SelectOnly(panel: nat): set<nat> {
    NO_SELECT - {panel}
  }

  /** Nothing driven, clock and reset released. */
  const IDLE: Io := Io(NO_SELECT, true, true, false, {})

  /** Column clear and row drivers are not powered together. */
  predicate FuseSafe(io: Io) {
    !(io.clear && io.rows != {})
  }

  /** Neither is powered. */
  predicate Dark(io: Io) {
    !io.clear && io.rows == {}
  }

  /** Something the code tries to do; an unchecked write goes on after an error. */
  datatype Attempt = Write(io: Io, checked: bool) | Delay(us: nat)

  /** Something that happened on the bus; a write that is not `ok` latched nothing. */
  datatype Event = Wrote(io: Io, ok: bool) | Waited(us: nat)

  /** A delay may take longer than asked for: the processor can be taken away meanwhile. */
  predicate Matches(a: Attempt, e: Event) {
    match a
    case Write(io, _) => e.Wrote? && e.io == io
    case Delay(us) => e.Waited? && e.us >= us
  }

  predicate Fatal(a: Attempt, e: Event) {
    a.Write? && a.checked && e.Wrote? && !e.ok
  }

  /** `events` is what executing `program` produced; it stops at the first checked write that fails. */
  ghost predicate Executes(program: seq<Attempt>, events: seq<Event>, ok: bool) {
    && |events| <= |program|
    && (forall i :: 0 <= i < |events| ==> Matches(program[i], events[i]))
    && (forall i :: 0 <= i < |events| && (ok || i < |events| - 1) ==> !Fatal(program[i], events[i]))
    && if ok then |events| == |program| else |events| > 0 && Fatal(program[|events| - 1], events[|events| - 1])
  }

  lemma ExecutesThen(p: seq<Attempt>, pe: seq<Event>, q: seq<Attempt>, qe: seq<Event>, ok: bool)
    requires Executes(p, pe, true) && Executes(q, qe, ok)
    ensures Executes(p + q, pe + qe, ok)
  {
    var all, events := p + q, pe + qe;
    forall i | 0 <= i < |events|
      ensures Matches(all[i], events[i]) && (ok || i < |events| - 1 ==> !Fatal(all[i], events[i]))
    {
      if i >= |p| {
        assert all[i] == q[i - |p|] && events[i] == qe[i - |p|];
      }
    }
  }

  lemma ExecutesAbort(p: seq<Attempt>, events: seq<Event>, q: seq<Attempt>)
    requires Executes(p, events, false)
    ensures Executes(p + q, events, false)
  {
  }

  /** An execution of `p + q` either stops inside `p` or runs `p` to its end first. */
  lemma ExecutesSplit(p: seq<Attempt>, q: seq<Attempt>, events: seq<Event>, ok: bool)
    requires Executes(p + q, events, ok)
    ensures if !ok && |events| <= |p| then Executes(p, events, false)
            else |events| >= |p| && Executes(p, events[..|p|], true) && Executes(q, events[|p|..], ok)
  {
    var all := p + q;
    if !ok && |events| <= |p| {
      assert forall i :: 0 <= i < |events| ==> all[i] == p[i];
    } else {
      forall i | 0 <= i < |p|
        ensures Matches(p[i], events[i]) && !Fatal(p[i], events[i])
      {
        assert all[i] == p[i];
      }
      forall i | 0 <= i < |events| - |p|
        ensures Matches(q[i], events[|p|..][i])
        ensures (ok || i < |events| - |p| - 1) ==> !Fatal(q[i], events[|p|..][i])
      {
        assert all[|p| + i] == q[i];
      }
    }
  }

  /** The event that the driver itself causes by an attempt: it asks for exactly the delay. */
  predicate Logs(a: Attempt, e: Event) {
    Matches(a, e) && (a.Delay? ==> e == Waited(a.us))
  }

  ghost predicate OnTime(program: seq<Attempt>, events: seq<Event>) {
    |events| <= |program| && forall i :: 0 <= i < |events| ==> Logs(program[i], events[i])
  }

  /** The part of the log after `before` is an execution of `program`, with the delays that it asks for. */
  ghost predicate Ran(before: seq<Event>, after: seq<Event>, program: seq<Attempt>, ok: bool) {
    && |before| <= |after| && after[..|before|] == before
    && Executes(program, after[|before|..], ok) && OnTime(program, after[|before|..])
  }

  lemma OnTimeThen(p: seq<Attempt>, pe: seq<Event>, q: seq<Attempt>, qe: seq<Event>)
    requires OnTime(p, pe) && OnTime(q, qe) && |pe| == |p|
    ensures OnTime(p + q, pe + qe)
  {
    forall i | 0 <= i < |pe + qe|
      ensures Logs((p + q)[i], (pe + qe)[i])
    {
      if i >= |p| {
        assert (p + q)[i] == q[i - |p|] && (pe + qe)[i] == qe[i - |p|];
      }
    }
  }

  lemma RanNothing(before: seq<Event>)
    ensures Ran(before, before, [], true)
  {
  }

  lemma RanThen(before: seq<Event>, mid: seq<Event>, after: seq<Event>, p: seq<Attempt>, q: seq<Attempt>, ok: bool)
    requires Ran(before, mid, p, true) && Ran(mid, after, q, ok)
    ensures Ran(before, after, p + q, ok)
  {
    ExecutesThen(p, mid[|before|..], q, after[|mid|..], ok);
    OnTimeThen(p, mid[|before|..], q, after[|mid|..]);
    assert after[|before|..] == mid[|before|..] + after[|mid|..];
    assert after[..|before|] == after[..|mid|][..|before|];
  }

  lemma RanStep(before: seq<Event>, mid: seq<Event>, program: seq<Attempt>, a: Attempt, e: Event)
    requires Ran(before, mid, program, true) && Logs(a, e)
    ensures Ran(before, mid + [e], program + [a], !Fatal(a, e))
  {
    assert (mid + [e])[|mid|..] == [e];
    assert Executes([a], [e], !Fatal(a, e));
    assert (mid + [e])[..|mid|] == mid;
    RanThen(before, mid, mid + [e], program, [a], !Fatal(a, e));
  }

  lemma RanAbort(before: seq<Event>, after: seq<Event>, p: seq<Attempt>, program: seq<Attempt>)
    requires Ran(before, after, p, false) && p <= program
    ensures Ran(before, after, program, false)
  {
    ExecutesAbort(p, after[|before|..], program[|p|..]);
    assert program == p + program[|p|..];
  }

  // ----- One column

  /** The clear pulse may be skipped: in DIFFERENTIAL mode, when no dot turns dark. */
  predicate SkipClear(mode: Mode, old_: Column, new_: Column) {
    mode.Differential? && old_ - new_ == {}
  }

  /** The set pulse may be cut short: in DIFFERENTIAL mode, when the column is dark or unchanged. */
  predicate SkipSet(mode: Mode, old_: Column, new_: Column) {
    mode.Differential? && (new_ == {} || Flips(old_, new_) == 0)
  }

  const SHORT: nat := 100

  /** `(uint32_t)counts * 50`, which never overflows. */
  function Micros(counts: uint16): (us: nat)
    ensures us < 0x1_0000_0000
  {
    counts * 50
  }

  function ClearProgram(d: Delays, mode: Mode, old_: Column, new_: Column): seq<Attempt> {
    if SkipClear(mode, old_, new_) then
      [Write(IDLE, true), Delay(SHORT)]
    else
      [Write(IDLE.(clear := true), true), Delay(Micros(d.clear)), Write(IDLE, false)]
  }

  function SetProgram(d: Delays, mode: Mode, old_: Column, new_: Column): seq<Attempt> {
    [Write(IDLE.(clock := false), true),
     Write(IDLE.(rows := new_), true),
     Delay(if SkipSet(mode, old_, new_) then SHORT else Micros(d.set_)),
     Write(IDLE, true)]
  }

  /** `select` is the select pattern left by the caller: the panel's own for its first column, none after. */
  function FeedProgram(select: set<nat>, d: Delays): seq<Attempt> {
    [Delay(Micros(d.pre)), Write(Io(select, false, true, false, {}), true)]
  }

  function ColumnProgram(select: set<nat>, d: Delays, mode: Mode, old_: Column, new_: Column): seq<Attempt> {
    FeedProgram(select, d) + ClearProgram(d, mode, old_, new_) + SetProgram(d, mode, old_, new_)
  }

  // ----- One panel

  /** What one call of flipdot_render works on, after the snapshots are taken. */
  datatype Job = Job(slots: seq<Slot>, options: Options, old_: Frame, new_: Frame)

  function InMode(job: Job, mode: Mode): Job {
    job.(options := job.options.(mode := mode))
  }

  ghost predicate WellFormed(job: Job) {
    && |job.old_| == |job.new_| == |job.options.delays| < 256
    && InRange(job.options.order, |job.slots|)
  }

  function SelectProgram(panel: nat): seq<Attempt> {
    [Write(Io(NO_SELECT, true, false, false, {}), true), Delay(SHORT),
     Write(Io(SelectOnly(panel), true, true, false, {}), true), Delay(SHORT)]
  }

  /** compare_partial accepts the panel. */
  predicate Drawable(slot: Slot, width: nat) {
    0 < slot.width && slot.x + slot.width <= width
  }

  function SelectFor(panel: nat, k: nat): set<nat> {
    if k == 0 then SelectOnly(panel) else NO_SELECT
  }

  function ColumnOf(job: Job, panel: nat, k: nat): seq<Attempt>
    requires WellFormed(job) && panel < |job.slots| && Drawable(job.slots[panel], |job.new_|) && k < job.slots[panel].width
  {
    var x := job.slots[panel].x + k;
    ColumnProgram(SelectFor(panel, k), job.options.delays[x], job.options.mode, job.old_[x], job.new_[x])
  }

  /** The first `n` columns of a panel. */
  function ColumnsProgram(job: Job, panel: nat, n: nat): seq<Attempt>
    requires WellFormed(job) && panel < |job.slots| && Drawable(job.slots[panel], |job.new_|) && n <= job.slots[panel].width
  {
    if n == 0 then [] else ColumnsProgram(job, panel, n - 1) + ColumnOf(job, panel, n - 1)
  }

  function PanelProgram(job: Job, panel: nat): seq<Attempt>
    requires WellFormed(job) && panel < |job.slots| && Drawable(job.slots[panel], |job.new_|)
  {
    SelectProgram(panel) + ColumnsProgram(job, panel, job.slots[panel].width)
  }

  // ----- One frame

  predicate SkipPanel(job: Job, panel: nat)
    requires WellFormed(job) && panel < |job.slots| && Drawable(job.slots[panel], |job.new_|)
  {
    job.options.mode.Differential? && Difference(job.old_, job.new_, job.slots[panel].x, job.slots[panel].width) == 0
  }

  /** The first `n` panels of the drawing order are all drawable. */
  ghost predicate DrawableUpTo(job: Job, n: nat) {
    && WellFormed(job) && n <= |job.options.order|
    && forall i :: 0 <= i < n ==> Drawable(job.slots[job.options.order[i]], |job.new_|)
  }

  /** What is attempted for the panel at position `i` of the drawing order. */
  function StopProgram(job: Job, i: nat): seq<Attempt>
    requires DrawableUpTo(job, i + 1)
  {
    var panel := job.options.order[i];
    if SkipPanel(job, panel) then [] else PanelProgram(job, panel)
  }

  function OrderProgram(job: Job, n: nat): seq<Attempt>
    requires DrawableUpTo(job, n)
  {
    if n == 0 then [] else OrderProgram(job, n - 1) + StopProgram(job, n - 1)
  }

  predicate SkipFrame(job: Job)
    requires WellFormed(job)
  {
    job.options.mode.Differential? && Distance(job.old_, job.new_) == 0
  }

  /** How many panels of the order are processed before one that compare_partial rejects. */
  function Reach(job: Job, i: nat): (n: nat)
    requires DrawableUpTo(job, i)
    ensures DrawableUpTo(job, n) && i <= n
    ensures n < |job.options.order| ==> !Drawable(job.slots[job.options.order[n]], |job.new_|)
    decreases |job.options.order| - i
  {
    if i < |job.options.order| && Drawable(job.slots[job.options.order[i]], |job.new_|) then Reach(job, i + 1) else i
  }

  function FrameProgram(job: Job): seq<Attempt>
    requires WellFormed(job)
  {
    if SkipFrame(job) then [] else OrderProgram(job, Reach(job, 0))
  }

  /** compare_partial rejects no panel that is reached. */
  ghost predicate NoneRejected(job: Job)
    requires WellFormed(job)
  {
    SkipFrame(job) || Reach(job, 0) == |job.options.order|
  }

  predicate AllDrawable(slots: seq<Slot>, width: nat) {
    forall p :: 0 <= p < |slots| ==> Drawable(slots[p], width)
  }

  ghost predicate AllPanelsDrawable(job: Job) {
    WellFormed(job) && AllDrawable(job.slots, |job.new_|)
  }

  lemma ReachesAll(job: Job, i: nat)
    requires AllPanelsDrawable(job) && DrawableUpTo(job, i)
    ensures Reach(job, i) == |job.options.order|
    decreases |job.options.order| - i
  {
  }

  // ----- Counting flipped dots

  function StopFlips(job: Job, i: nat): nat
    requires DrawableUpTo(job, i + 1)
  {
    var panel := job.options.order[i];
    if SkipPanel(job, panel) then 0
    else Difference(job.old_, job.new_, job.slots[panel].x, job.slots[panel].width)
  }

  function OrderFlips(job: Job, n: nat): nat
    requires DrawableUpTo(job, n)
  {
    if n == 0 then 0 else OrderFlips(job, n - 1) + StopFlips(job, n - 1)
  }

  /** What a completed render adds to pixels_flipped. */
  function FrameFlips(job: Job): nat
    requires WellFormed(job)
  {
    if SkipFrame(job) then 0 else OrderFlips(job, Reach(job, 0))
  }
}
