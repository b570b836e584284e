/** What a render leaves out: which panels are selected and which columns are cleared, seen from the writes alone. */
module Skipping {
  import opened Columns
  import opened Frames
  import opened Rendering
  import opened Schedule

  ghost predicate Has(program: seq<Attempt>, what: Attempt -> bool) {
    exists i :: 0 <= i < |program| && what(program[i])
  }

  /** A write that selects panel `p`: the select lines are active low. */
  function Selecting(p: nat): Attempt -> bool {
    (a: Attempt) => a.Write? && p !in a.io.select
  }

  lemma HasThen(p: seq<Attempt>, q: seq<Attempt>, what: Attempt -> bool)
    ensures Has(p + q, what) <==> Has(p, what) || Has(q, what)
  {
    if i :| 0 <= i < |p| && what(p[i]) {
      assert (p + q)[i] == p[i];
    }
    if i :| 0 <= i < |q| && what(q[i]) {
      assert (p + q)[|p| + i] == q[i];
    }
  }

  lemma HasNothing(what: Attempt -> bool)
    ensures !Has([], what)
  {
  }

  ghost predicate PassableUpTo(job: Job, n: nat)
    requires WellFormed(job) && n < |job.options.order|
  {
    forall m :: 0 <= m <= n ==>
      var slot := job.slots[job.options.order[m]]; 0 < slot.width && slot.x + slot.width <= |job.new_|
  }

  /** The drawing order comes to panel `p`: no panel at or before one of its places is empty or ends beyond the frame. */
  ghost predicate ComesTo(job: Job, p: nat)
    requires WellFormed(job)
  {
    exists n :: 0 <= n < |job.options.order| && job.options.order[n] == p && PassableUpTo(job, n)
  }

  /** Some column of panel `p` has another word in the new frame. */
  ghost predicate Changes(job: Job, p: nat)
    requires WellFormed(job) && p < |job.slots|
  {
    exists x :: job.slots[p].x <= x < job.slots[p].x + job.slots[p].width && x < |job.new_| && job.old_[x] != job.new_[x]
  }

  lemma SkipsExactlyUnchanged(job: Job, p: nat)
    requires WellFormed(job) && p < |job.slots| && Drawable(job.slots[p], |job.new_|)
    ensures SkipPanel(job, p) <==> job.options.mode.Differential? && !Changes(job, p)
  {
    DifferenceZero(job.old_, job.new_, job.slots[p].x, job.slots[p].width);
  }

  /** The panels at the first places of the order, until one is rejected. */
  lemma ReachExactlyPassable(job: Job, n: nat)
    requires WellFormed(job) && n < |job.options.order|
    ensures n < Reach(job, 0) <==> PassableUpTo(job, n)
  {
    var r := Reach(job, 0);
    if n < r {
      forall m | 0 <= m <= n
        ensures Drawable(job.slots[job.options.order[m]], |job.new_|)
      {
      }
    } else {
      assert !Drawable(job.slots[job.options.order[r]], |job.new_|);
    }
  }

  // ----- Selected panels

  lemma ColumnSelects(select: set<nat>, d: Delays, mode: Mode, old_: Column, new_: Column, p: nat)
    requires p < 5
    ensures Has(ColumnProgram(select, d, mode, old_, new_), Selecting(p)) <==> p !in select
  {
    var feed, clear, set_ := FeedProgram(select, d), ClearProgram(d, mode, old_, new_), SetProgram(d, mode, old_, new_);
    HasThen(feed + clear, set_, Selecting(p));
    HasThen(feed, clear, Selecting(p));
    assert Has(feed, Selecting(p)) <==> p !in select by {
      assert Selecting(p)(feed[1]) <==> p !in select;
    }
    assert !Has(clear, Selecting(p)) && !Has(set_, Selecting(p));
  }

  lemma {:induction false} ColumnsSelect(job: Job, q: nat, n: nat, p: nat)
    requires WellFormed(job) && q < |job.slots| && Drawable(job.slots[q], |job.new_|) && n <= job.slots[q].width && p < 5
    ensures Has(ColumnsProgram(job, q, n), Selecting(p)) ==> q == p
  {
    hide Has, ColumnProgram;
    if n == 0 {
      HasNothing(Selecting(p));
    } else {
      ColumnsSelect(job, q, n - 1, p);
      var x := job.slots[q].x + n - 1;
      ColumnSelects(SelectFor(q, n - 1), job.options.delays[x], job.options.mode, job.old_[x], job.new_[x], p);
      HasThen(ColumnsProgram(job, q, n - 1), ColumnOf(job, q, n - 1), Selecting(p));
    }
  }

  lemma SelectSelects(q: nat, p: nat)
    requires p < 5
    ensures Has(SelectProgram(q), Selecting(p)) <==> q == p
  {
    assert Selecting(p)(SelectProgram(q)[2]) <==> q == p;
  }

  lemma PanelSelects(job: Job, q: nat, p: nat)
    requires WellFormed(job) && q < |job.slots| && Drawable(job.slots[q], |job.new_|) && p < 5
    ensures Has(PanelProgram(job, q), Selecting(p)) <==> q == p
  {
    hide Has, SelectProgram, ColumnsProgram;
    SelectSelects(q, p);
    ColumnsSelect(job, q, job.slots[q].width, p);
    HasThen(SelectProgram(q), ColumnsProgram(job, q, job.slots[q].width), Selecting(p));
  }

  /** Panel `p` is at position `i` of the order and is not skipped. */
  ghost predicate DrawnAt(job: Job, i: nat, p: nat)
    requires DrawableUpTo(job, i + 1)
  {
    job.options.order[i] == p && !SkipPanel(job, job.options.order[i])
  }

  ghost predicate DrawnAmong(job: Job, n: nat, p: nat)
    requires DrawableUpTo(job, n)
  {
    exists i :: 0 <= i < n && DrawnAt(job, i, p)
  }

  lemma DrawnAmongNext(job: Job, n: nat, p: nat)
    requires DrawableUpTo(job, n + 1)
    ensures DrawnAmong(job, n + 1, p) <==> DrawnAmong(job, n, p) || DrawnAt(job, n, p)
  {
    hide DrawnAt;
    if i :| 0 <= i < n && DrawnAt(job, i, p) {
      assert 0 <= i < n + 1 && DrawnAt(job, i, p);
    }
    if DrawnAt(job, n, p) {
      assert 0 <= n < n + 1;
    }
  }

  lemma StopSelects(job: Job, i: nat, p: nat)
    requires DrawableUpTo(job, i + 1) && p < 5
    ensures Has(StopProgram(job, i), Selecting(p)) <==> DrawnAt(job, i, p)
  {
    hide Has, PanelProgram, SkipPanel;
    HasNothing(Selecting(p));
    PanelSelects(job, job.options.order[i], p);
  }

  lemma {:induction false} OrderSelects(job: Job, n: nat, p: nat)
    requires DrawableUpTo(job, n) && p < 5
    ensures Has(OrderProgram(job, n), Selecting(p)) <==> DrawnAmong(job, n, p)
  {
    hide Has, StopProgram, DrawnAt;
    if n == 0 {
      HasNothing(Selecting(p));
    } else {
      OrderSelects(job, n - 1, p);
      StopSelects(job, n - 1, p);
      DrawnAmongNext(job, n - 1, p);
      HasThen(OrderProgram(job, n - 1), StopProgram(job, n - 1), Selecting(p));
    }
  }

  /** A frame without a change has no panel to draw. */
  lemma SkippedFrameSkipsAll(job: Job, p: nat)
    requires WellFormed(job) && SkipFrame(job) && p < |job.slots| && Drawable(job.slots[p], |job.new_|)
    ensures SkipPanel(job, p)
  {
    DistanceZero(job.old_, job.new_);
    DifferenceZero(job.old_, job.new_, job.slots[p].x, job.slots[p].width);
  }

  lemma HasSelecting(program: seq<Attempt>, p: nat)
    ensures Has(program, Selecting(p)) <==> exists i :: 0 <= i < |program| && program[i].Write? && p !in program[i].io.select
  {
    if Has(program, Selecting(p)) {
      var i :| 0 <= i < |program| && Selecting(p)(program[i]);
      assert program[i].Write? && p !in program[i].io.select;
    }
    if i :| 0 <= i < |program| && program[i].Write? && p !in program[i].io.select {
      assert Selecting(p)(program[i]);
    }
  }

  /** What is drawn is what the order comes to and what has changed. */
  lemma DrawnExactlyChanged(job: Job, p: nat)
    requires WellFormed(job) && p < |job.slots|
    ensures DrawnAmong(job, Reach(job, 0), p) <==> ComesTo(job, p) && (job.options.mode.Full? || Changes(job, p))
  {
    hide PassableUpTo, Changes, SkipPanel;
    var n := Reach(job, 0);
    if i :| 0 <= i < n && DrawnAt(job, i, p) {
      ReachExactlyPassable(job, i);
      SkipsExactlyUnchanged(job, p);
    }
    if ComesTo(job, p) && (job.options.mode.Full? || Changes(job, p)) {
      var i :| 0 <= i < |job.options.order| && job.options.order[i] == p && PassableUpTo(job, i);
      ReachExactlyPassable(job, i);
      SkipsExactlyUnchanged(job, p);
      assert DrawnAt(job, i, p);
    }
  }

  lemma SkippedFrameDrawsNothing(job: Job, n: nat, p: nat)
    requires DrawableUpTo(job, n) && SkipFrame(job)
    ensures !DrawnAmong(job, n, p)
  {
    forall i | 0 <= i < n
      ensures !DrawnAt(job, i, p)
    {
      SkippedFrameSkipsAll(job, job.options.order[i]);
    }
  }

  lemma FrameSelects(job: Job, p: nat)
    requires WellFormed(job) && p < |job.slots| && p < 5
    ensures Has(FrameProgram(job), Selecting(p)) <==> ComesTo(job, p) && (job.options.mode.Full? || Changes(job, p))
  {
    hide Has, OrderProgram, ComesTo, Changes, DrawnAmong, SkipFrame;
    DrawnExactlyChanged(job, p);
    OrderSelects(job, Reach(job, 0), p);
    HasNothing(Selecting(p));
    if SkipFrame(job) {
      SkippedFrameDrawsNothing(job, Reach(job, 0), p);
    }
  }

  /**
    The writes of a render select a panel exactly when the drawing order comes to it and, in DIFFERENTIAL mode, some
    column of it has changed.
   */
  lemma SelectsExactlyChanged(job: Job, p: nat)
    requires WellFormed(job) && p < |job.slots| && p < 5
    ensures (exists i :: 0 <= i < |FrameProgram(job)| && FrameProgram(job)[i].Write? && p !in FrameProgram(job)[i].io.select)
       <==> ComesTo(job, p) && (job.options.mode.Full? || Changes(job, p))
  {
    var program := FrameProgram(job);
    assert Has(program, Selecting(p)) <==> exists i :: 0 <= i < |program| && program[i].Write? && p !in program[i].io.select by {
      HasSelecting(program, p);
    }
    FrameSelects(job, p);
  }

  /** The same for the log of a driver; of a render cut short, only a part of these panels has been selected. */
  lemma LogSelectsExactlyChanged(before: seq<Event>, after: seq<Event>, ok: bool, job: Job, p: nat)
    requires WellFormed(job) && p < |job.slots| && p < 5 && Ran(before, after, FrameProgram(job), ok)
    ensures (exists i :: |before| <= i < |after| && after[i].Wrote? && p !in after[i].io.select) ==>
              ComesTo(job, p) && (job.options.mode.Full? || Changes(job, p))
    ensures ok && ComesTo(job, p) && (job.options.mode.Full? || Changes(job, p)) ==>
              exists i :: |before| <= i < |after| && after[i].Wrote? && p !in after[i].io.select
  {
    hide FrameProgram, ComesTo, Changes;
    SelectsExactlyChanged(job, p);
    var program, events := FrameProgram(job), after[|before|..];
    if i :| |before| <= i < |after| && after[i].Wrote? && p !in after[i].io.select {
      assert events[i - |before|] == after[i] && Matches(program[i - |before|], events[i - |before|]);
    }
    if ok && exists i :: 0 <= i < |program| && program[i].Write? && p !in program[i].io.select {
      var i :| 0 <= i < |program| && program[i].Write? && p !in program[i].io.select;
      assert Matches(program[i], events[i]) && events[i] == after[|before| + i];
    }
  }

  // ----- Cleared columns

  /** How often the column clear driver is powered. */
  function ClearCount(program: seq<Attempt>): nat {
    if program == [] then 0
    else
      var last := program[|program| - 1];
      ClearCount(program[..|program| - 1]) + if last.Write? && last.io.clear then 1 else 0
  }

  lemma {:induction false} ClearCountThen(p: seq<Attempt>, q: seq<Attempt>)
    ensures ClearCount(p + q) == ClearCount(p) + ClearCount(q)
    decreases |q|
  {
    if q == [] {
      assert p + q == p;
    } else {
      ClearCountThen(p, q[..|q| - 1]);
      assert (p + q)[..|p + q| - 1] == p + q[..|q| - 1];
    }
  }

  lemma {:induction false} NothingCleared(program: seq<Attempt>)
    requires forall i :: 0 <= i < |program| && program[i].Write? ==> !program[i].io.clear
    ensures ClearCount(program) == 0
    decreases |program|
  {
    if program != [] {
      NothingCleared(program[..|program| - 1]);
    }
  }

  /** A dot of column `x` goes dark. */
  ghost predicate LosesDot(old_: Column, new_: Column) {
    exists b :: b in old_ && b !in new_
  }

  lemma ClearCycleCount(d: Delays, mode: Mode, old_: Column, new_: Column)
    ensures ClearCount(ClearProgram(d, mode, old_, new_)) == if mode.Full? || LosesDot(old_, new_) then 1 else 0
  {
    var clear := ClearProgram(d, mode, old_, new_);
    if b :| b in old_ && b !in new_ {
      assert b in old_ - new_;
    }
    if b :| b in old_ - new_ {
      assert b in old_ && b !in new_;
    }
    if |clear| == 3 {
      assert clear == [clear[0]] + clear[1..];
      ClearCountThen([clear[0]], clear[1..]);
      NothingCleared(clear[1..]);
      assert [clear[0]][..0] == [] && ClearCount([clear[0]]) == 1;
    } else {
      NothingCleared(clear);
    }
  }

  lemma ColumnClears(select: set<nat>, d: Delays, mode: Mode, old_: Column, new_: Column)
    ensures ClearCount(ColumnProgram(select, d, mode, old_, new_)) == if mode.Full? || LosesDot(old_, new_) then 1 else 0
  {
    hide ClearCount, ClearProgram, LosesDot;
    var feed, clear, set_ := FeedProgram(select, d), ClearProgram(d, mode, old_, new_), SetProgram(d, mode, old_, new_);
    ClearCountThen(feed + clear, set_);
    ClearCountThen(feed, clear);
    NothingCleared(feed);
    NothingCleared(set_);
    ClearCycleCount(d, mode, old_, new_);
  }

  /** The columns among the first `n` of panel `p` that must be cleared. */
  ghost function ToClear(job: Job, p: nat, n: nat): set<nat>
    requires WellFormed(job) && p < |job.slots| && job.slots[p].x + n <= |job.new_|
  {
    set x | job.slots[p].x <= x < job.slots[p].x + n && (job.options.mode.Full? || LosesDot(job.old_[x], job.new_[x]))
  }

  lemma NoneToClear(job: Job, p: nat)
    requires WellFormed(job) && p < |job.slots| && job.slots[p].x <= |job.new_|
    ensures ToClear(job, p, 0) == {}
  {
  }

  lemma NextToClear(job: Job, p: nat, n: nat)
    requires WellFormed(job) && p < |job.slots| && job.slots[p].x + n < |job.new_|
    ensures var x := job.slots[p].x + n;
            |ToClear(job, p, n + 1)| ==
              |ToClear(job, p, n)| + if job.options.mode.Full? || LosesDot(job.old_[x], job.new_[x]) then 1 else 0
  {
    hide LosesDot;
    var x, before := job.slots[p].x + n, ToClear(job, p, n);
    var more := if job.options.mode.Full? || LosesDot(job.old_[x], job.new_[x]) then {x} else {};
    assert ToClear(job, p, n + 1) == before + more;
  }

  lemma {:induction false} ColumnsClear(job: Job, p: nat, n: nat)
    requires WellFormed(job) && p < |job.slots| && Drawable(job.slots[p], |job.new_|) && n <= job.slots[p].width
    ensures ClearCount(ColumnsProgram(job, p, n)) == |ToClear(job, p, n)|
  {
    hide ColumnProgram, ClearCount, LosesDot, ToClear;
    if n == 0 {
      NothingCleared([]);
      NoneToClear(job, p);
    } else {
      var x := job.slots[p].x + n - 1;
      ColumnsClear(job, p, n - 1);
      ColumnClears(SelectFor(p, n - 1), job.options.delays[x], job.options.mode, job.old_[x], job.new_[x]);
      ClearCountThen(ColumnsProgram(job, p, n - 1), ColumnOf(job, p, n - 1));
      NextToClear(job, p, n - 1);
    }
  }

  /**
    Drawing a panel powers the column clear driver once for every column that loses a dot, in FULL mode once for every
    column, and never else.
   */
  lemma ClearsExactlyNeeded(job: Job, p: nat)
    requires WellFormed(job) && p < |job.slots| && Drawable(job.slots[p], |job.new_|)
    ensures var slot := job.slots[p];
            ClearCount(PanelProgram(job, p)) ==
              |set x | slot.x <= x < slot.x + slot.width
                       && (job.options.mode.Full? || exists b :: b in job.old_[x] && b !in job.new_[x])|
  {
    hide ClearCount, ColumnsProgram;
    ClearCountThen(SelectProgram(p), ColumnsProgram(job, p, job.slots[p].width));
    NothingCleared(SelectProgram(p));
    ColumnsClear(job, p, job.slots[p].width);
    var slot := job.slots[p];
    assert ToClear(job, p, slot.width)
        == set x | slot.x <= x < slot.x + slot.width
                   && (job.options.mode.Full? || exists b :: b in job.old_[x] && b !in job.new_[x]);
  }

  /** Of one column, the rows are driven with its new word and no other, also where the pulse is cut short. */
  lemma RowsAreTheNewWord(job: Job, p: nat, k: nat)
    requires WellFormed(job) && p < |job.slots| && Drawable(job.slots[p], |job.new_|) && k < job.slots[p].width
    ensures var program, word := ColumnOf(job, p, k), job.new_[job.slots[p].x + k];
            && (forall i :: 0 <= i < |program| && program[i].Write? && program[i].io.rows != {} ==> program[i].io.rows == word)
            && exists i :: 0 <= i < |program| && program[i].Write? && program[i].io.rows == word
  {
    var x := job.slots[p].x + k;
    var d, old_, new_ := job.options.delays[x], job.old_[x], job.new_[x];
    var before := FeedProgram(SelectFor(p, k), d) + ClearProgram(d, job.options.mode, old_, new_);
    var set_ := SetProgram(d, job.options.mode, old_, new_);
    var program := ColumnOf(job, p, k);
    assert program == before + set_;
    assert program[|before| + 1] == set_[1];
  }
}
