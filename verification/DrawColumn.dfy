/** What one column's register writes do to the device: one token, one column, no other dot. */
module DrawColumn {
  import opened Columns
  import opened Rendering
  import opened Schedule
  import opened Devices

  /** `d'` has the panels of `d`, and all dots agree except possibly column `k` of panel `p`. */
  ghost predicate Touched(d: Device, d': Device, p: nat, k: nat) {
    && |d'.panels| == |d.panels| && d'.minHold == d.minHold
    && (forall q :: 0 <= q < |d.panels| ==> |d'.panels[q].dots| == |d.panels[q].dots|)
    && (forall q, j :: 0 <= q < |d.panels| && 0 <= j < |d.panels[q].dots| && (q != p || j != k) ==>
          d'.panels[q].dots[j] == d.panels[q].dots[j])
  }

  /** There is one token, on panel `p`, and a driven pulse finds it exactly at column `k`. */
  ghost predicate Addressed(d: Device, p: nat, k: nat, word: Column) {
    && FuseSafe(d.io)
    && (exists s :: 2 * k - 1 <= s <= 2 * k + 1 && Token(d, p, s))
    && (d.io.clear ==> Token(d, p, 2 * k))
    && (d.io.rows != {} ==> Token(d, p, 2 * k + 1) && d.io.rows == word)
  }

  ghost predicate Safe(first: Device, states: seq<Device>, p: nat, k: nat, word: Column) {
    forall i :: 0 <= i < |states| ==> Touched(first, states[i], p, k) && Addressed(states[i], p, k, word)
  }

  lemma SafeJoin(first: Device, states: seq<Device>, n: nat, p: nat, k: nat, word: Column)
    requires n < |states|
    requires Safe(first, states[..n + 1], p, k, word) && Safe(states[n], states[n..], p, k, word)
    ensures Safe(first, states, p, k, word)
  {
    forall i | 0 <= i < |states|
      ensures Touched(first, states[i], p, k) && Addressed(states[i], p, k, word)
    {
      if i <= n {
        assert states[i] == states[..n + 1][i];
      } else {
        assert states[i] == states[n..][i - n];
        assert states[..n + 1][n] == states[n];
      }
    }
  }

  /** Column `k` of panel `p` exists. */
  ghost predicate Exists(d: Device, p: nat, k: nat) {
    ValidDevice(d) && p < |d.panels| <= 5 && k < |d.panels[p].dots|
  }

  /** A step driving nothing leaves all dots alone; a step with the one token at column `k` touches only that column. */
  lemma StepTouches(d: Device, e: Event, d': Device, p: nat, k: nat)
    requires Exists(d, p, k) && Step(d, e, d')
    requires Dark(d'.io) || Addressed(d', p, k, d'.io.rows)
    ensures Exists(d', p, k) && Touched(d, d', p, k)
    ensures Dark(d'.io) ==> d'.panels[p].dots[k] == d.panels[p].dots[k]
    ensures d'.io.clear ==> d'.panels[p].dots[k] <= d.panels[p].dots[k]
    ensures d'.io.rows != {} ==> d.panels[p].dots[k] <= d'.panels[p].dots[k] <= d.panels[p].dots[k] + d'.io.rows
    ensures e.Waited? && e.us >= d.minHold && d'.io.clear ==> d'.panels[p].dots[k] == {}
    ensures e.Waited? && e.us >= d.minHold ==>
              d.panels[p].dots[k] + d'.io.rows == d'.panels[p].dots[k] || d'.io.clear
  {
    StepKeepsValid(d, e, d');
    if d' != d {
      forall q, j | 0 <= q < |d.panels| && 0 <= j < |d.panels[q].dots|
        ensures DotsMoved(d'.io, e.Waited? && e.us >= d.minHold, d'.panels[q].chain[2 * j], d'.panels[q].chain[2 * j + 1],
                          d.panels[q].dots[j], d'.panels[q].dots[j])
      {
      }
    }
  }

  /** What is still driven meets only column `k`, where it has moved all it can move. */
  lemma AddressedIsFixed(d: Device, p: nat, k: nat, word: Column)
    requires Exists(d, p, k) && Addressed(d, p, k, word)
    requires (d.io.clear ==> d.panels[p].dots[k] == {}) && d.io.rows <= d.panels[p].dots[k]
    ensures Fixed(d)
  {
    if !Dark(d.io) {
      var s := if d.io.clear then 2 * k else 2 * k + 1;
      forall q, j | 0 <= q < |d.panels| && 0 <= j < |d.panels[q].dots|
        ensures DotsFixed(d.io, d.panels[q].chain[2 * j], d.panels[q].chain[2 * j + 1], d.panels[q].dots[j])
      {
        assert Only(d.panels[q].chain, if q == p then s else -1);
      }
    }
  }

  /** Latching with no clock edge, or a wait, moves no token. */
  lemma StepHoldsToken(d: Device, e: Event, d': Device, p: nat, s: int)
    requires ValidDevice(d) && Step(d, e, d') && Token(d, p, s)
    requires d'.io.reset && (d'.io.clock || !d.io.clock || e.Waited?)
    ensures Token(d', p, s)
  {
    if d' != d {
      forall q | 0 <= q < |d.panels|
        ensures d'.panels[q].chain == d.panels[q].chain
      {
      }
    }
  }

  /** A latched falling clock edge moves the token on, or feeds the first one into the selected panel. */
  lemma StepClocksToken(d: Device, io: Io, d': Device, p: nat, s: int)
    requires ValidDevice(d) && |d.panels| <= 5 && p < |d.panels| && Step(d, Wrote(io, true), d') && Token(d, p, s)
    requires d.io.clock && !io.clock && io.reset
    requires if s == -1 then io.select == SelectOnly(p) else s >= 0 && io.select == NO_SELECT
    ensures Token(d', p, s + 1)
  {
    forall q | 0 <= q < |d.panels|
      ensures Only(d'.panels[q].chain, if q == p then s + 1 else -1)
    {
      assert d'.panels[q].chain == Shifted(d.panels[q].chain, q !in io.select);
      ShiftMovesToken(d.panels[q].chain, if q == p then s else -1, q !in io.select);
    }
  }

  /** One register write with the clock left alone or released, in a column whose token is at stage `s`. */
  lemma Latch(d: Device, e: Event, d': Device, p: nat, k: nat, s: int, word: Column)
    requires Exists(d, p, k) && Step(d, e, d') && Token(d, p, s) && 2 * k - 1 <= s <= 2 * k + 1
    requires Addressed(d, p, k, word)
    requires e.Wrote? && e.io.reset && e.io.clock
    requires Dark(e.io) || (e.io == IDLE.(clear := true) && s == 2 * k) || (e.io == IDLE.(rows := word) && s == 2 * k + 1)
    ensures Exists(d', p, k) && Touched(d, d', p, k) && Addressed(d', p, k, word)
    ensures Token(d', p, s) && d'.io == (if e.ok then e.io else d.io)
    ensures !e.ok ==> d' == d
    ensures e.ok && Dark(e.io) ==> d'.panels[p].dots[k] == d.panels[p].dots[k]
    ensures e.ok && e.io.clear ==> d'.panels[p].dots[k] <= d.panels[p].dots[k]
    ensures e.ok && e.io.rows != {} ==> d.panels[p].dots[k] <= d'.panels[p].dots[k] <= d.panels[p].dots[k] + word
  {
    StepKeepsValid(d, e, d');
    if e.ok {
      StepHoldsToken(d, e, d', p, s);
      StepTouches(d, e, d', p, k);
    }
  }

  /** Time passing in a column. */
  lemma Hold(d: Device, e: Event, d': Device, p: nat, k: nat, s: int, word: Column)
    requires Exists(d, p, k) && Step(d, e, d') && Token(d, p, s) && 2 * k - 1 <= s <= 2 * k + 1
    requires Addressed(d, p, k, word) && d.io.reset
    requires e.Waited?
    ensures Exists(d', p, k) && Touched(d, d', p, k) && Addressed(d', p, k, word)
    ensures Token(d', p, s) && d'.io == d.io
    ensures Dark(d.io) ==> d'.panels[p].dots[k] == d.panels[p].dots[k]
    ensures d.io.clear ==> d'.panels[p].dots[k] <= d.panels[p].dots[k]
    ensures d.io.clear && e.us >= d.minHold ==> d'.panels[p].dots[k] == {}
    ensures d.io.rows != {} ==> d.panels[p].dots[k] <= d'.panels[p].dots[k] <= d.panels[p].dots[k] + d.io.rows
    ensures d.io.rows != {} && e.us >= d.minHold ==> d'.panels[p].dots[k] == d.panels[p].dots[k] + d.io.rows
  {
    StepKeepsValid(d, e, d');
    StepHoldsToken(d, e, d', p, s);
    if d.io.clear {
      StepHoldsToken(d, e, d', p, 2 * k);
    }
    if d.io.rows != {} {
      StepHoldsToken(d, e, d', p, 2 * k + 1);
    }
    StepTouches(d, e, d', p, k);
  }

  /** The falling clock edge that moves the token to the clear stage of column `k`, or feeds it there. */
  lemma FeedEdge(d: Device, e: Event, d': Device, p: nat, k: nat, word: Column)
    requires Exists(d, p, k) && Step(d, e, d') && Token(d, p, 2 * k - 1) && Dark(d.io) && d.io.clock && d.io.reset
    requires e.Wrote? && e.io == Io(SelectFor(p, k), false, true, false, {})
    ensures Exists(d', p, k) && Touched(d, d', p, k) && Addressed(d', p, k, word)
    ensures d'.panels[p].dots[k] == d.panels[p].dots[k]
    ensures if e.ok then Token(d', p, 2 * k) && d'.io == e.io else Fixed(d')
  {
    StepTouches(d, e, d', p, k);
    if e.ok {
      StepClocksToken(d, e.io, d', p, 2 * k - 1);
    } else {
      DarkIsFixed(d');
    }
  }

  lemma FeedMovesToken(states: seq<Device>, events: seq<Event>, ok: bool, p: nat, k: nat, d: Delays, word: Column)
    requires Runs(states, events) && Executes(FeedProgram(SelectFor(p, k), d), events, ok)
    requires Exists(states[0], p, k) && Dark(states[0].io) && states[0].io.clock && states[0].io.reset
    requires Token(states[0], p, 2 * k - 1)
    ensures Safe(states[0], states, p, k, word)
    ensures ok ==> var end := states[|events|];
                   && end.io == Io(SelectFor(p, k), false, true, false, {}) && Token(end, p, 2 * k)
                   && end.panels[p].dots[k] == states[0].panels[p].dots[k]
    ensures !ok ==> Fixed(states[|events|])
  {
    hide Step, Fixed;
    var program := FeedProgram(SelectFor(p, k), d);
    assert Matches(program[0], events[0]);
    assert Step(states[0], events[0], states[1]);
    Hold(states[0], events[0], states[1], p, k, 2 * k - 1, word);
    if |events| == 2 {
      assert Matches(program[1], events[1]);
      assert Step(states[1], events[1], states[2]);
      FeedEdge(states[1], events[1], states[2], p, k, word);
    }
  }

  /** After the clear cycle: the column is dark or, when the pulse was skipped, untouched; clear may still be on. */
  ghost predicate Cleared(first: Device, end: Device, p: nat, k: nat, d: Delays, skip: bool) {
    && Exists(first, p, k) && Exists(end, p, k)
    && Token(end, p, 2 * k) && end.io.(clear := false) == IDLE
    && (skip ==> !end.io.clear && end.panels[p].dots[k] == first.panels[p].dots[k])
    && (!skip && Micros(d.clear) >= first.minHold ==> end.panels[p].dots[k] == {})
  }

  lemma ClearCycleDarkens(states: seq<Device>, events: seq<Event>, ok: bool, p: nat, k: nat, d: Delays, mode: Mode, old_: Column, new_: Column)
    requires Runs(states, events) && Executes(ClearProgram(d, mode, old_, new_), events, ok)
    requires Exists(states[0], p, k) && Dark(states[0].io) && states[0].io.reset && Token(states[0], p, 2 * k)
    ensures Safe(states[0], states, p, k, new_)
    ensures ok ==> Cleared(states[0], states[|events|], p, k, d, SkipClear(mode, old_, new_))
    ensures !ok ==> Fixed(states[|events|])
  {
    hide Step;
    var program := ClearProgram(d, mode, old_, new_);
    assert Matches(program[0], events[0]);
    assert Step(states[0], events[0], states[1]);
    Latch(states[0], events[0], states[1], p, k, 2 * k, new_);
    DarkIsFixed(states[0]);
    if |events| >= 2 {
      assert !Fatal(program[0], events[0]);
      assert Matches(program[1], events[1]);
      assert Step(states[1], events[1], states[2]);
      Hold(states[1], events[1], states[2], p, k, 2 * k, new_);
    }
    if |events| >= 3 {
      assert Matches(program[2], events[2]);
      assert Step(states[2], events[2], states[3]);
      Latch(states[2], events[2], states[3], p, k, 2 * k, new_);
    }
  }

  /** What the set cycle needs: nothing bright that must be dark and, if its pulse may be short, nothing dark that must be bright. */
  predicate Ready(how: Fidelity, mode: Mode, old_: Column, new_: Column, dots: Column) {
    if SkipSet(mode, old_, new_) then Agrees(how, new_, dots)
    else how.Exact? ==> dots <= new_
  }

  /** The falling clock edge that moves the token from the clear stage to the row stage of column `k`. */
  lemma Advance(d: Device, e: Event, d': Device, p: nat, k: nat, word: Column)
    requires Exists(d, p, k) && Step(d, e, d') && Token(d, p, 2 * k) && d.io.(clear := false) == IDLE
    requires e.Wrote? && e.io == IDLE.(clock := false)
    ensures Exists(d', p, k) && Touched(d, d', p, k) && Addressed(d, p, k, word) && Addressed(d', p, k, word)
    ensures e.ok ==> Token(d', p, 2 * k + 1) && d'.io == e.io && d'.panels[p].dots[k] == d.panels[p].dots[k]
  {
    StepKeepsValid(d, e, d');
    if e.ok {
      StepClocksToken(d, e.io, d', p, 2 * k);
      StepTouches(d, e, d', p, k);
    }
  }

  /** The row pulse, from its latch to the latch that ends it. */
  lemma RowPulse(states: seq<Device>, events: seq<Event>, p: nat, k: nat, us: nat, word: Column)
    requires Runs(states, events) && |events| == 3
    requires Exists(states[0], p, k) && Addressed(states[0], p, k, word) && Token(states[0], p, 2 * k + 1)
    requires Dark(states[0].io) && states[0].io.reset
    requires events[0] == Wrote(IDLE.(rows := word), true) && Matches(Delay(us), events[1])
    requires events[2].Wrote? && events[2].io == IDLE
    ensures Safe(states[0], states, p, k, word)
    ensures events[2].ok ==> var first, end := states[0].panels[p].dots[k], states[3].panels[p].dots[k];
                             && Token(states[3], p, 2 * k + 1) && states[3].io == IDLE
                             && first <= end <= first + word
                             && (us >= states[0].minHold ==> end == first + word)
    ensures !events[2].ok && (us >= states[0].minHold || word <= states[0].panels[p].dots[k]) ==> Fixed(states[3])
  {
    hide Step, Fixed;
    assert Step(states[0], events[0], states[1]);
    Latch(states[0], events[0], states[1], p, k, 2 * k + 1, word);
    assert Step(states[1], events[1], states[2]);
    Hold(states[1], events[1], states[2], p, k, 2 * k + 1, word);
    assert Step(states[2], events[2], states[3]);
    Latch(states[2], events[2], states[3], p, k, 2 * k + 1, word);
    if !events[2].ok && (us >= states[0].minHold || word <= states[0].panels[p].dots[k]) {
      AddressedIsFixed(states[3], p, k, word);
    }
  }

  lemma FailedStays(d: Device, e: Event, d': Device)
    requires ValidDevice(d) && Step(d, e, d') && e.Wrote? && !e.ok
    ensures d' == d
  {
  }

  /** What a set pulse leaves, whether it was held long enough or had nothing to do. */
  lemma PulsedIsNew(how: Fidelity, mode: Mode, old_: Column, new_: Column, before: Column, after: Column)
    requires Ready(how, mode, old_, new_, before)
    ensures SkipSet(mode, old_, new_) && !how.Loose? ==> new_ <= before
    ensures before <= after <= before + new_ && (SkipSet(mode, old_, new_) || after == before + new_) ==> Agrees(how, new_, after)
  {
  }

  lemma SetCycleBrightens(states: seq<Device>, events: seq<Event>, ok: bool, p: nat, k: nat, d: Delays, mode: Mode, old_: Column, new_: Column,
                          how: Fidelity)
    requires Runs(states, events) && Executes(SetProgram(d, mode, old_, new_), events, ok)
    requires Exists(states[0], p, k) && Token(states[0], p, 2 * k) && states[0].io.(clear := false) == IDLE
    ensures Safe(states[0], states, p, k, new_)
    ensures ok ==> var first, end := states[0], states[|events|];
                   && Token(end, p, 2 * k + 1) && end.io == IDLE
                   && (Ready(how, mode, old_, new_, first.panels[p].dots[k]) && Micros(d.set_) >= first.minHold ==>
                         Agrees(how, new_, end.panels[p].dots[k]))
    ensures !ok && !how.Loose? && Micros(d.set_) >= states[0].minHold ==>
              Ready(how, mode, old_, new_, states[0].panels[p].dots[k]) ==>
              (states[0].io.clear ==> states[0].panels[p].dots[k] == {}) ==> Fixed(states[|events|])
  {
    hide Step, Fixed, Ready;
    var program := SetProgram(d, mode, old_, new_);
    assert Matches(program[0], events[0]);
    assert Step(states[0], events[0], states[1]);
    Advance(states[0], events[0], states[1], p, k, new_);
    if |events| == 1 && (states[0].io.clear ==> states[0].panels[p].dots[k] == {}) {
      FailedStays(states[0], events[0], states[1]);
      AddressedIsFixed(states[0], p, k, new_);
    }
    if |events| >= 2 {
      assert !Fatal(program[0], events[0]);
      assert Matches(program[1], events[1]);
      RunsSplit(states, events, 1);
      assert Step(states[1], events[1], states[2]);
      if |events| == 2 {
        Latch(states[1], events[1], states[2], p, k, 2 * k + 1, new_);
        DarkIsFixed(states[2]);
      } else {
        assert !Fatal(program[1], events[1]);
        assert Matches(program[2], events[2]) && Matches(program[3], events[3]);
        RowPulse(states[1..], events[1..], p, k, program[2].us, new_);
        assert states[1..][3] == states[4] && events[1..][2] == events[3];
        if Ready(how, mode, old_, new_, states[0].panels[p].dots[k]) {
          PulsedIsNew(how, mode, old_, new_, states[0].panels[p].dots[k], states[4].panels[p].dots[k]);
        }
        SafeJoin(states[0], states, 1, p, k, new_);
      }
    }
  }

  /** The column's two pulses, where not skipped, are held long enough for every dot to move. */
  predicate LongEnough(d: Delays, minHold: nat) {
    Micros(d.clear) >= minHold && Micros(d.set_) >= minHold
  }

  /** What the pulses may start from: in DIFFERENTIAL mode, a column that agrees with the old or the new word. */
  predicate Matching(how: Fidelity, mode: Mode, old_: Column, new_: Column, dots: Column) {
    mode.Full? || Agrees(how, old_, dots) || Agrees(how, new_, dots)
  }

  lemma ReadyAfterClear(how: Fidelity, mode: Mode, old_: Column, new_: Column, before: Column, after: Column)
    requires Matching(how, mode, old_, new_, before)
    requires after == if SkipClear(mode, old_, new_) then before else {}
    ensures Ready(how, mode, old_, new_, after)
  {
    FlipsZero(old_, new_);
    if old_ - new_ == {} {
      forall i | i in old_
        ensures i in new_
      {
        assert i !in old_ - new_;
      }
    }
  }

  /** How the cycles of a column end, with the new word, or with dots that time does not change. */
  ghost predicate ColumnEnds(end: Device, ok: bool, p: nat, k: nat, how: Fidelity, new_: Column) {
    && Exists(end, p, k)
    && if ok then Agrees(how, new_, end.panels[p].dots[k]) else how.Loose? || Fixed(end)
  }

  /** What a cleared column offers to the set cycle. */
  lemma ClearedIsReady(first: Device, mid: Device, p: nat, k: nat, d: Delays, mode: Mode, old_: Column, new_: Column, how: Fidelity)
    requires Cleared(first, mid, p, k, d, SkipClear(mode, old_, new_)) && LongEnough(d, first.minHold)
    requires Matching(how, mode, old_, new_, first.panels[p].dots[k])
    ensures Ready(how, mode, old_, new_, mid.panels[p].dots[k])
    ensures mid.io.clear ==> mid.panels[p].dots[k] == {}
  {
    ReadyAfterClear(how, mode, old_, new_, first.panels[p].dots[k], mid.panels[p].dots[k]);
  }

  lemma SetCycleEnds(states: seq<Device>, events: seq<Event>, ok: bool, p: nat, k: nat, d: Delays, mode: Mode, old_: Column, new_: Column,
                     how: Fidelity)
    requires Runs(states, events) && Executes(SetProgram(d, mode, old_, new_), events, ok)
    requires Exists(states[0], p, k) && Token(states[0], p, 2 * k) && states[0].io.(clear := false) == IDLE
    requires LongEnough(d, states[0].minHold) && Ready(how, mode, old_, new_, states[0].panels[p].dots[k])
    requires states[0].io.clear ==> states[0].panels[p].dots[k] == {}
    ensures ColumnEnds(states[|events|], ok, p, k, how, new_)
  {
    hide Step, Fixed, Ready, SetProgram, Addressed, Token, Agrees;
    SetCycleBrightens(states, events, ok, p, k, d, mode, old_, new_, how);
    RunsEndValid(states, events);
  }

  lemma SameHold(first: Device, states: seq<Device>, n: nat, p: nat, k: nat, word: Column)
    requires Safe(first, states, p, k, word) && n < |states|
    ensures states[n].minHold == first.minHold
  {
  }

  lemma ClearAndSet(states: seq<Device>, events: seq<Event>, ok: bool, p: nat, k: nat, d: Delays, mode: Mode, old_: Column, new_: Column,
                    how: Fidelity)
    requires Runs(states, events)
    requires Executes(ClearProgram(d, mode, old_, new_) + SetProgram(d, mode, old_, new_), events, ok)
    requires Exists(states[0], p, k) && Dark(states[0].io) && states[0].io.reset && Token(states[0], p, 2 * k)
    ensures Safe(states[0], states, p, k, new_)
    ensures ok ==> Token(states[|events|], p, 2 * k + 1) && states[|events|].io == IDLE
    ensures LongEnough(d, states[0].minHold) && Matching(how, mode, old_, new_, states[0].panels[p].dots[k]) ==>
              ColumnEnds(states[|events|], ok, p, k, how, new_)
  {
    hide Step, Fixed, Ready, Matching, Agrees, SetProgram, ClearProgram;
    var clear, set_ := ClearProgram(d, mode, old_, new_), SetProgram(d, mode, old_, new_);
    LengthOfRun(states, events);
    RunsEndValid(states, events);
    ExecutesSplit(clear, set_, events, ok);
    if !ok && |events| <= |clear| {
      ClearCycleDarkens(states, events, ok, p, k, d, mode, old_, new_);
    } else {
      var n := |clear|;
      RunsSplit(states, events, n);
      ClearCycleDarkens(states[..n + 1], events[..n], true, p, k, d, mode, old_, new_);
      assert states[..n + 1][n] == states[n] && states[n..][|events| - n] == states[|events|];
      SetCycleBrightens(states[n..], events[n..], ok, p, k, d, mode, old_, new_, how);
      SafeJoin(states[0], states, n, p, k, new_);
      if LongEnough(d, states[0].minHold) && Matching(how, mode, old_, new_, states[0].panels[p].dots[k]) {
        ClearedIsReady(states[0], states[n], p, k, d, mode, old_, new_, how);
        SameHold(states[0], states, n, p, k, new_);
        SetCycleEnds(states[n..], events[n..], ok, p, k, d, mode, old_, new_, how);
      }
    }
  }

  /**
    One column, all its register writes: whatever fails on the way, at every moment only this column is touched and
    pulses meet the one token at this column; when it completes, the column shows the new word; when a write fails,
    whatever is left driven has nothing more to move.
   */
  lemma ColumnDraws(states: seq<Device>, events: seq<Event>, ok: bool, p: nat, k: nat, d: Delays, mode: Mode, old_: Column, new_: Column,
                    how: Fidelity)
    requires Runs(states, events) && Executes(ColumnProgram(SelectFor(p, k), d, mode, old_, new_), events, ok)
    requires Exists(states[0], p, k) && Dark(states[0].io) && states[0].io.clock && states[0].io.reset
    requires Token(states[0], p, 2 * k - 1)
    ensures Safe(states[0], states, p, k, new_)
    ensures ok ==> Token(states[|events|], p, 2 * k + 1) && states[|events|].io == IDLE
    ensures LongEnough(d, states[0].minHold) && Matching(how, mode, old_, new_, states[0].panels[p].dots[k]) ==>
              ColumnEnds(states[|events|], ok, p, k, how, new_)
  {
    var feed, clear, set_ := FeedProgram(SelectFor(p, k), d), ClearProgram(d, mode, old_, new_), SetProgram(d, mode, old_, new_);
    ExecutesSplit(feed, clear + set_, events, ok);
    assert feed + clear + set_ == feed + (clear + set_);
    if !ok && |events| <= |feed| {
      FeedMovesToken(states, events, ok, p, k, d, new_);
    } else {
      RunsSplit(states, events, |feed|);
      FeedMovesToken(states[..|feed| + 1], events[..|feed|], true, p, k, d, new_);
      assert states[..|feed| + 1][|feed|] == states[|feed|];
      ClearAndSet(states[|feed|..], events[|feed|..], ok, p, k, d, mode, old_, new_, how);
      SafeJoin(states[0], states, |feed|, p, k, new_);
    }
  }
}
