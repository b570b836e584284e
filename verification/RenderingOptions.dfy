/** flipdot_rendering_options_t: mode, per-column delays and panel order, filled and copied in place. */
module Rendering {
  import opened Errors

  type uint16 = n: nat | n < 0x1_0000

  datatype Mode = Full | Differential

  /** Delays in counts of 50 us. */
  datatype Delays = Delays(pre: uint16, clear: uint16, set_: uint16)

  const PRE_DELAY_DEFAULT: uint16 := 0
  const SET_DELAY_DEFAULT: uint16 := 160
  const CLEAR_DELAY_DEFAULT: uint16 := 160

  /** The options as a value. */
  datatype Options = Options(mode: Mode, order: seq<nat>, delays: seq<Delays>)

  predicate InRange(order: seq<nat>, panels: nat) {
    forall i :: 0 <= i < |order| ==> order[i] < panels
  }

  /** Every panel appears in the drawing order at least once. */
  ghost predicate CoversAll(order: seq<nat>, panels: nat) {
    forall p: nat :: p < panels ==> p in order
  }

  class RenderingOptions {
    var width: nat
    var panelCount: nat
    var mode: Mode
    var delayOptions: array<Delays>
    var panelOrder: array<nat>

    ghost predicate Valid()
      reads this
    {
      delayOptions.Length == width && panelOrder.Length == panelCount
    }

    ghost function Value(): Options
      reads this, delayOptions, panelOrder
    {
      Options(mode, panelOrder[..], delayOptions[..])
    }

    /** What calloc leaves behind: no columns, no panels, mode FULL. */
    constructor Zeroed()
      ensures Valid() && Value() == Options(Full, [], []) && panelCount == 0 && width == 0
      ensures fresh(delayOptions) && fresh(panelOrder)
    {
      width, panelCount, mode := 0, 0, Full;
      delayOptions := new Delays[0];
      panelOrder := new nat[0];
    }

    method Initialize(panelCount: nat, width: nat) returns (error: Error)
      modifies this
      ensures error == if panelCount == 0 || width == 0 then InvalidArg else Ok
      ensures error != Ok ==> unchanged(this)
      ensures error == Ok ==>
        && Valid() && this.width == width && this.panelCount == panelCount
        && fresh(delayOptions) && fresh(panelOrder)
        && Value() == Options(old(mode), seq(panelCount, i => i),
                              seq(width, _ => Delays(PRE_DELAY_DEFAULT, CLEAR_DELAY_DEFAULT, SET_DELAY_DEFAULT)))
        && CoversAll(Value().order, panelCount)
      ensures error == Ok ==>
        && mode == old(mode)
        && (forall i :: 0 <= i < panelCount ==> panelOrder[i] == i)
        && forall x :: 0 <= x < width ==> delayOptions[x].pre == 0 && delayOptions[x].clear == 160 && delayOptions[x].set_ == 160
    {
      if panelCount == 0 || width == 0 {
        return InvalidArg;
      }
      this.width, this.panelCount := width, panelCount;
      var zero := Delays(0, 0, 0);
      var delays, order := new Delays[width](_ => zero), new nat[panelCount](_ => 0);
      delayOptions, panelOrder := delays, order;
      var i := 0;
      while i < panelCount
        modifies order
        invariant 0 <= i <= panelCount
        invariant forall k :: 0 <= k < i ==> order[k] == k
      {
        order[i] := i;
        i := i + 1;
      }
      var default := Delays(PRE_DELAY_DEFAULT, CLEAR_DELAY_DEFAULT, SET_DELAY_DEFAULT);
      var x := 0;
      while x < width
        modifies delays
        invariant 0 <= x <= width
        invariant forall k :: 0 <= k < x ==> delays[k] == default
      {
        delays[x] := default;
        x := x + 1;
      }
      assert order[..] == seq(panelCount, i => i);
      assert delays[..] == seq(width, _ => default);
      ghost var drawn := Value().order;
      forall p: nat | p < panelCount
        ensures p in drawn
      {
        assert drawn[p] == p;
      }
      return Ok;
    }

    /** Overwrites these options with a private copy of `src`. */
    method CopyFrom(src: RenderingOptions) returns (error: Error)
      requires src.Valid()
      modifies this
      ensures error == if old(src.panelCount) == 0 then InvalidArg else Ok
      ensures error != Ok ==> unchanged(this)
      ensures error == Ok ==> Valid() && Value() == old(src.Value()) && fresh(delayOptions) && fresh(panelOrder)
      ensures error == Ok ==> width == old(src.width) && panelCount == old(src.panelCount)
      ensures error == Ok ==>
        && mode == old(src.mode) && panelOrder[..] == old(src.panelOrder[..]) && delayOptions[..] == old(src.delayOptions[..])
    {
      if src.panelCount == 0 {
        return InvalidArg;
      }
      var zero := Delays(0, 0, 0);
      var order := new nat[src.panelCount](_ => 0);
      var delays := new Delays[src.width](_ => zero);
      forall i | 0 <= i < src.panelCount {
        order[i] := src.panelOrder[i];
      }
      forall x | 0 <= x < src.width {
        delays[x] := src.delayOptions[x];
      }
      assert order[..] == src.panelOrder[..];
      assert delays[..] == src.delayOptions[..];
      width, panelCount, mode, panelOrder, delayOptions := src.width, src.panelCount, src.mode, order, delays;
      return Ok;
    }
  }
}
