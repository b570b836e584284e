/**
  The panels behind the driver registers, as far as the driver relies on them. These rules are assumptions about
  the hardware (flipdot_gpio.h:66-103, the shift register chain of hardware/driver_board/reverse.sch:125):
   - a register write takes effect at once, when the registers latch;
   - while reset is asserted (low), every chain is empty;
   - a latched clock edge from 1 to 0 shifts every chain by one stage and feeds a token into the chains of the
     selected panels (select bit 0);
   - clear, with a token at stage 2k, darkens column k; rows, with a token at stage 2k+1, brightens dots of column k;
   - a pulse may have moved any of its dots at any time, and has moved all of them once it was held for `minHold`;
   - driving clear and a row together destroys the fuse: nothing is known about the dots afterwards.
 */
module Devices {
  import opened Columns
  import opened Frames
  import opened Layout
  import opened Schedule

  datatype Panel = Panel(chain: seq<bool>, dots: seq<Column>)

  datatype Device = Device(io: Io, panels: seq<Panel>, minHold: nat)

  ghost predicate ValidDevice(d: Device) {
    forall p :: 0 <= p < |d.panels| ==> |d.panels[p].chain| == 2 * |d.panels[p].dots|
  }

  function Shifted(chain: seq<bool>, token: bool): (shifted: seq<bool>)
    ensures |shifted| == |chain|
  {
    if chain == [] then [] else [token] + chain[..|chain| - 1]
  }

  /** The chain of panel `p` after `to` was latched over `from`. */
  function NextChain(from: Io, to: Io, p: nat, chain: seq<bool>): (next: seq<bool>)
    ensures |next| == |chain|
  {
    if !to.reset then seq(|chain|, _ => false)
    else if from.clock && !to.clock then Shifted(chain, p !in to.select)
    else chain
  }

  /** What driving `io` may do to a column whose clear and row stages hold a token as given. */
  ghost predicate DotsMoved(io: Io, held: bool, clearToken: bool, rowToken: bool, before: Column, after: Column) {
    if io.clear && io.rows != {} then true
    else if io.clear && clearToken then after <= before && (held ==> after == {})
    else if io.rows != {} && rowToken then before <= after <= before + io.rows && (held ==> after == before + io.rows)
    else after == before
  }

  ghost predicate Driven(io: Io, held: bool, before: Panel, after: Panel)
    requires |before.chain| == 2 * |before.dots|
  {
    && after.chain == before.chain
    && |after.dots| == |before.dots|
    && forall k :: 0 <= k < |before.dots| ==>
         DotsMoved(io, held, before.chain[2 * k], before.chain[2 * k + 1], before.dots[k], after.dots[k])
  }

  /** `d'` is a device state that may follow `d` on event `e`. */
  ghost predicate Step(d: Device, e: Event, d': Device)
    requires ValidDevice(d)
  {
    && |d'.panels| == |d.panels| && d'.minHold == d.minHold
    && match e
       case Wrote(io, ok) =>
         if !ok then d' == d else
         && d'.io == io
         && forall p :: 0 <= p < |d.panels| ==>
              Driven(io, false, d.panels[p].(chain := NextChain(d.io, io, p, d.panels[p].chain)), d'.panels[p])
       case Waited(us) =>
         && d'.io == d.io
         && forall p :: 0 <= p < |d.panels| ==> Driven(d.io, us >= d.minHold, d.panels[p], d'.panels[p])
  }

  lemma StepKeepsValid(d: Device, e: Event, d': Device)
    requires ValidDevice(d) && Step(d, e, d')
    ensures ValidDevice(d')
    ensures forall p :: 0 <= p < |d.panels| ==> |d'.panels[p].dots| == |d.panels[p].dots|
  {
  }

  /** A panel after a pulse that moved all its dots. */
  ghost function Relaxed(io: Io, panel: Panel): (after: Panel)
    requires |panel.chain| == 2 * |panel.dots|
    ensures Driven(io, true, panel, after) && Driven(io, false, panel, after)
  {
    panel.(dots := seq(|panel.dots|, k requires 0 <= k < |panel.dots| =>
      if io.clear && io.rows != {} then panel.dots[k]
      else if io.clear && panel.chain[2 * k] then {}
      else if io.rows != {} && panel.chain[2 * k + 1] then panel.dots[k] + io.rows
      else panel.dots[k]))
  }

  /** The device never gets stuck: on every event some next state exists. */
  lemma StepTotal(d: Device, e: Event) returns (d': Device)
    requires ValidDevice(d)
    ensures Step(d, e, d')
  {
    match e
    case Wrote(io, ok) =>
      if !ok {
        d' := d;
      } else {
        var panels := seq(|d.panels|, p requires 0 <= p < |d.panels| =>
          d.panels[p].(chain := NextChain(d.io, io, p, d.panels[p].chain)));
        d' := Device(io, panels, d.minHold);
      }
    case Waited(us) =>
      var panels := seq(|d.panels|, p requires 0 <= p < |d.panels| => Relaxed(d.io, d.panels[p]));
      d' := d.(panels := panels);
  }

  /** `states` is a behaviour of the device on `events`. */
  ghost predicate Runs(states: seq<Device>, events: seq<Event>) {
    && |states| == |events| + 1
    && ValidDevice(states[0])
    && forall i :: 0 <= i < |events| ==> ValidDevice(states[i]) && Step(states[i], events[i], states[i + 1])
  }

  lemma LengthOfRun(states: seq<Device>, events: seq<Event>)
    requires Runs(states, events)
    ensures |states| == |events| + 1
  {
  }

  lemma RunsEndValid(states: seq<Device>, events: seq<Event>)
    requires Runs(states, events)
    ensures ValidDevice(states[|events|])
  {
    if |events| > 0 {
      StepKeepsValid(states[|events| - 1], events[|events| - 1], states[|events| - 1 + 1]);
    }
  }

  lemma RunsValid(states: seq<Device>, events: seq<Event>, i: nat)
    requires Runs(states, events) && i <= |events|
    ensures ValidDevice(states[i])
  {
    if i == |events| {
      RunsEndValid(states, events);
    }
  }

  lemma RunsSplit(states: seq<Device>, events: seq<Event>, n: nat)
    requires Runs(states, events) && n <= |events|
    ensures Runs(states[..n + 1], events[..n]) && Runs(states[n..], events[n..])
  {
    if n == |events| && n > 0 {
      StepKeepsValid(states[n - 1], events[n - 1], states[n]);
    }
  }

  lemma RunsPrepend(d: Device, e: Event, states: seq<Device>, events: seq<Event>)
    requires ValidDevice(d) && Runs(states, events) && Step(d, e, states[0])
    ensures Runs([d] + states, [e] + events)
  {
    var all, es := [d] + states, [e] + events;
    forall i | 0 <= i < |es|
      ensures ValidDevice(all[i]) && Step(all[i], es[i], all[i + 1])
    {
      if i > 0 {
        assert all[i] == states[i - 1] && es[i] == events[i - 1];
        assert Step(states[i - 1], events[i - 1], states[i - 1 + 1]);
      }
    }
  }

  /** `states` is a behaviour of the device on `events`, which are an execution of `program`. */
  ghost predicate Performs(states: seq<Device>, events: seq<Event>, program: seq<Attempt>, ok: bool) {
    Runs(states, events) && Executes(program, events, ok)
  }

  /** A behaviour under `p + q` either stops inside `p` or goes through the end of `p`. */
  lemma PerformsSplit(states: seq<Device>, events: seq<Event>, p: seq<Attempt>, q: seq<Attempt>, ok: bool)
    requires Performs(states, events, p + q, ok)
    ensures |states| == |events| + 1
    ensures if !ok && |events| <= |p| then Performs(states, events, p, false)
            else |events| >= |p| && Performs(states[..|p| + 1], events[..|p|], p, true)
                 && Performs(states[|p|..], events[|p|..], q, ok)
  {
    ExecutesSplit(p, q, events, ok);
    if !(!ok && |events| <= |p|) {
      RunsSplit(states, events, |p|);
    }
  }

  /** Every program can be carried out in full on every device: executions and behaviours exist. */
  lemma {:induction false} CanPerform(d: Device, program: seq<Attempt>) returns (states: seq<Device>, events: seq<Event>)
    requires ValidDevice(d)
    ensures Performs(states, events, program, true) && states[0] == d
    decreases |program|
  {
    if program == [] {
      states, events := [d], [];
    } else {
      var e := if program[0].Write? then Wrote(program[0].io, true) else Waited(program[0].us);
      var d' := StepTotal(d, e);
      StepKeepsValid(d, e, d');
      states, events := CanPerform(d', program[1..]);
      RunsPrepend(d, e, states, events);
      assert Executes([program[0]], [e], true);
      ExecutesThen([program[0]], [e], program[1..], events, true);
      assert [program[0]] + program[1..] == program;
      states, events := [d] + states, [e] + events;
    }
  }

  // ----- Tokens

  /** The only token in the chain is at stage `s`; none if `s` is outside. */
  ghost predicate Only(chain: seq<bool>, s: int) {
    forall i :: 0 <= i < |chain| ==> (chain[i] <==> i == s)
  }

  /** Over all panels, the only token is at stage `s` of panel `p`. */
  ghost predicate Token(d: Device, p: nat, s: int) {
    forall q :: 0 <= q < |d.panels| ==> Only(d.panels[q].chain, if q == p then s else -1)
  }

  lemma ShiftMovesToken(chain: seq<bool>, s: int, feed: bool)
    requires Only(chain, s) && -1 <= s && (feed ==> s == -1)
    ensures Only(Shifted(chain, feed), if feed then 0 else if s == -1 then -1 else s + 1)
  {
  }

  /** The widths of the device's panels are those of the layout. */
  ghost predicate Fits(d: Device, slots: seq<Slot>) {
    && ValidDevice(d)
    && |d.panels| == |slots| <= 5
    && forall p :: 0 <= p < |slots| ==> |d.panels[p].dots| == slots[p].width
  }

  /** How closely dots are known to follow a word: exactly, at least bright where the word is, or not at all. */
  datatype Fidelity = Exact | Bright | Loose

  predicate Agrees(how: Fidelity, word: Column, dots: Column) {
    match how
    case Exact => dots == word
    case Bright => word <= dots
    case Loose => true
  }

  ghost predicate PanelShows(d: Device, slots: seq<Slot>, f: Frame, p: nat, how: Fidelity)
    requires Fits(d, slots) && p < |slots|
  {
    && slots[p].x + slots[p].width <= |f|
    && forall k :: 0 <= k < slots[p].width ==> Agrees(how, f[slots[p].x + k], d.panels[p].dots[k])
  }

  /** Every panel shows its part of the frame. */
  ghost predicate Shows(d: Device, slots: seq<Slot>, f: Frame, how: Fidelity) {
    && Fits(d, slots)
    && forall p :: 0 <= p < |slots| ==> PanelShows(d, slots, f, p, how)
  }

  // ----- Time passing

  /** What is driven onto a column can no longer move any of its dots. */
  predicate DotsFixed(io: Io, clearToken: bool, rowToken: bool, dots: Column) {
    && FuseSafe(io)
    && (io.clear && clearToken ==> dots == {})
    && (rowToken ==> io.rows <= dots)
  }

  /** Whatever is driven, the display stays as it is. */
  ghost predicate Fixed(d: Device) {
    && ValidDevice(d)
    && forall p, k :: 0 <= p < |d.panels| && 0 <= k < |d.panels[p].dots| ==>
      DotsFixed(d.io, d.panels[p].chain[2 * k], d.panels[p].chain[2 * k + 1], d.panels[p].dots[k])
  }

  lemma DarkIsFixed(d: Device)
    requires ValidDevice(d) && Dark(d.io)
    ensures Fixed(d)
  {
  }

  lemma FixedStays(d: Device, us: nat, d': Device)
    requires Fixed(d) && Step(d, Waited(us), d')
    ensures d' == d
  {
    forall p | 0 <= p < |d.panels|
      ensures d'.panels[p] == d.panels[p]
    {
      assert Driven(d.io, us >= d.minHold, d.panels[p], d'.panels[p]);
      forall k | 0 <= k < |d.panels[p].dots|
        ensures d'.panels[p].dots[k] == d.panels[p].dots[k]
      {
        assert DotsFixed(d.io, d.panels[p].chain[2 * k], d.panels[p].chain[2 * k + 1], d.panels[p].dots[k]);
      }
    }
  }

  /** One wait after another is a wait of the longer time. */
  lemma WaitsMerge(d: Device, t: nat, mid: Device, u: nat, end: Device)
    requires ValidDevice(d) && Step(d, Waited(t), mid) && ValidDevice(mid) && Step(mid, Waited(u), end)
    ensures Step(d, Waited(if t < u then u else t), end)
  {
    var v := if t < u then u else t;
    forall p | 0 <= p < |d.panels|
      ensures Driven(d.io, v >= d.minHold, d.panels[p], end.panels[p])
    {
      assert Driven(d.io, t >= d.minHold, d.panels[p], mid.panels[p]);
      assert Driven(d.io, u >= d.minHold, mid.panels[p], end.panels[p]);
    }
  }

  /** The dots that a driven column ends with when the fuse is intact. */
  function Pulled(io: Io, clearToken: bool, rowToken: bool, dots: Column): Column {
    if io.clear && clearToken then {} else if rowToken then dots + io.rows else dots
  }

  lemma PulledMoves(io: Io, held: bool, clearToken: bool, rowToken: bool, dots: Column)
    requires FuseSafe(io)
    ensures DotsMoved(io, held, clearToken, rowToken, dots, Pulled(io, clearToken, rowToken, dots))
    ensures DotsFixed(io, clearToken, rowToken, dots) <==> Pulled(io, clearToken, rowToken, dots) == dots
  {
  }

  ghost function PulledPanel(io: Io, panel: Panel): (after: Panel)
    requires |panel.chain| == 2 * |panel.dots|
  {
    panel.(dots := seq(|panel.dots|, k requires 0 <= k < |panel.dots| =>
      Pulled(io, panel.chain[2 * k], panel.chain[2 * k + 1], panel.dots[k])))
  }

  lemma PulledDriven(io: Io, held: bool, panel: Panel)
    requires FuseSafe(io) && |panel.chain| == 2 * |panel.dots|
    ensures Driven(io, held, panel, PulledPanel(io, panel))
    ensures PulledPanel(io, panel) == panel ==>
              forall k :: 0 <= k < |panel.dots| ==> DotsFixed(io, panel.chain[2 * k], panel.chain[2 * k + 1], panel.dots[k])
  {
    hide DotsMoved, DotsFixed, Pulled;
    var after := PulledPanel(io, panel);
    forall k | 0 <= k < |panel.dots|
      ensures DotsMoved(io, held, panel.chain[2 * k], panel.chain[2 * k + 1], panel.dots[k], after.dots[k])
      ensures after == panel ==> DotsFixed(io, panel.chain[2 * k], panel.chain[2 * k + 1], panel.dots[k])
    {
      PulledMoves(io, held, panel.chain[2 * k], panel.chain[2 * k + 1], panel.dots[k]);
    }
  }

  /** A display that is not fixed can move. */
  lemma NotFixedMoves(d: Device, us: nat) returns (d': Device)
    requires ValidDevice(d) && FuseSafe(d.io) && !Fixed(d)
    ensures Step(d, Waited(us), d') && d' != d
  {
    hide Driven, DotsFixed, PulledPanel;
    d' := d.(panels := seq(|d.panels|, p requires 0 <= p < |d.panels| => PulledPanel(d.io, d.panels[p])));
    forall p | 0 <= p < |d.panels|
      ensures Driven(d.io, us >= d.minHold, d.panels[p], d'.panels[p])
    {
      PulledDriven(d.io, us >= d.minHold, d.panels[p]);
    }
    if d' == d {
      forall p | 0 <= p < |d.panels|
        ensures forall k :: 0 <= k < |d.panels[p].dots| ==>
                  DotsFixed(d.io, d.panels[p].chain[2 * k], d.panels[p].chain[2 * k + 1], d.panels[p].dots[k])
      {
        PulledDriven(d.io, true, d.panels[p]);
        assert d'.panels[p] == d.panels[p];
      }
    }
  }

  /** With the fuse intact, time cannot change the display exactly when it is fixed. */
  lemma FixedExactlyWhen(d: Device)
    requires ValidDevice(d) && FuseSafe(d.io)
    ensures Fixed(d) <==> forall us: nat, d': Device :: Step(d, Waited(us), d') ==> d' == d
  {
    if Fixed(d) {
      forall us: nat, d': Device | Step(d, Waited(us), d')
        ensures d' == d
      {
        FixedStays(d, us, d');
      }
    } else {
      var d' := NotFixedMoves(d, 0);
    }
  }
}
