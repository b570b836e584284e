/** What pixels_flipped counts: panel by panel, frame by frame, and over a run of renders. */
module Counting {
  import opened Frames
  import opened Layout
  import opened Rendering
  import opened Driver
  import opened Schedule

  /** Every panel is drawn exactly once. */
  ghost predicate IsPermutation(order: seq<nat>, panels: nat) {
    multiset(order) == multiset(seq(panels, i => i))
  }

  function PanelDifference(job: Job, p: nat): nat
    requires WellFormed(job) && p < |job.slots| && Drawable(job.slots[p], |job.new_|)
  {
    Difference(job.old_, job.new_, job.slots[p].x, job.slots[p].width)
  }

  /** compare_partial summed over the panels named in `order`. */
  function PanelSum(job: Job, order: seq<nat>): nat
    requires AllPanelsDrawable(job) && InRange(order, |job.slots|)
  {
    if order == [] then 0 else PanelSum(job, order[..|order| - 1]) + PanelDifference(job, order[|order| - 1])
  }

  lemma {:induction false} PanelSumRemove(job: Job, order: seq<nat>, i: nat)
    requires AllPanelsDrawable(job) && InRange(order, |job.slots|) && i < |order|
    ensures PanelSum(job, order) == PanelSum(job, order[..i] + order[i + 1..]) + PanelDifference(job, order[i])
  {
    hide AllPanelsDrawable, PanelDifference;
    var last := |order| - 1;
    if i == last {
      assert order[..i] + order[i + 1..] == order[..last];
    } else {
      PanelSumRemove(job, order[..last], i);
      assert (order[..i] + order[i + 1..])[..last - 1] == order[..last][..i] + order[..last][i + 1..];
      assert (order[..i] + order[i + 1..])[last - 1] == order[last];
    }
  }

  /** Two orders with the same panels; taking the last panel of `a` out of both leaves the same panels again. */
  lemma TakeOut(a: seq<nat>, b: seq<nat>) returns (i: nat)
    requires multiset(a) == multiset(b) && |a| > 0
    ensures i < |b| && b[i] == a[|a| - 1]
    ensures multiset(a[..|a| - 1]) == multiset(b[..i] + b[i + 1..])
  {
    var last := |a| - 1;
    assert a == a[..last] + [a[last]];
    assert a[last] in multiset(a);
    i :| 0 <= i < |b| && b[i] == a[last];
    assert b == b[..i] + ([b[i]] + b[i + 1..]);
    assert multiset(b) == multiset(b[..i]) + multiset{b[i]} + multiset(b[i + 1..]);
    assert multiset(b[..i] + b[i + 1..]) == multiset(b) - multiset{b[i]};
    assert multiset(a[..last]) == multiset(a) - multiset{a[last]};
  }

  lemma SamePanelsInRange(a: seq<nat>, b: seq<nat>, panels: nat)
    requires multiset(a) == multiset(b) && InRange(a, panels)
    ensures InRange(b, panels) && |a| == |b|
  {
    assert |multiset(a)| == |a| && |multiset(b)| == |b|;
    forall i | 0 <= i < |b|
      ensures b[i] < panels
    {
      assert b[i] in multiset(b) && b[i] in multiset(a) && b[i] in a;
    }
  }

  lemma {:induction false} PanelSumIgnoresOrder(job: Job, a: seq<nat>, b: seq<nat>)
    requires AllPanelsDrawable(job) && InRange(a, |job.slots|) && InRange(b, |job.slots|)
    requires multiset(a) == multiset(b) && |a| == |b|
    ensures PanelSum(job, a) == PanelSum(job, b)
    decreases |a|
  {
    hide AllPanelsDrawable, PanelDifference;
    if a != [] {
      var i := TakeOut(a, b);
      PanelSumIgnoresOrder(job, a[..|a| - 1], b[..i] + b[i + 1..]);
      PanelSumRemove(job, b, i);
    }
  }

  /** The slots are those of a layout whose widths fill the frame. */
  ghost predicate LaidOut(job: Job, sizes: seq<uint8>) {
    AllPanelsDrawable(job) && job.slots == Slots(sizes) && Start(sizes, |sizes|) == |job.new_|
  }

  lemma NextTile(job: Job, sizes: seq<uint8>, i: nat)
    requires LaidOut(job, sizes) && i < |sizes| && Start(sizes, i + 1) <= |job.new_|
    ensures Difference(job.old_, job.new_, 0, Start(sizes, i + 1))
         == Difference(job.old_, job.new_, 0, Start(sizes, i)) + PanelDifference(job, i)
  {
    NoWrap(sizes, i);
    DifferenceSplits(job.old_, job.new_, 0, Start(sizes, i), sizes[i]);
  }

  lemma {:induction false} PanelsTileFrame(job: Job, sizes: seq<uint8>, n: nat)
    requires LaidOut(job, sizes) && n <= |sizes|
    ensures Start(sizes, n) <= |job.new_|
    ensures PanelSum(job, seq(n, i => i)) == Difference(job.old_, job.new_, 0, Start(sizes, n))
  {
    StartMonotone(sizes, n, |sizes|);
    if n > 0 {
      PanelsTileFrame(job, sizes, n - 1);
      NextTile(job, sizes, n - 1);
      assert seq(n, i => i)[..n - 1] == seq(n - 1, i => i);
    }
  }

  /** For any drawing order that is a permutation, the panel differences add up to the difference of the frames. */
  lemma PanelDifferencesAddUp(job: Job, sizes: seq<uint8>, order: seq<nat>)
    requires LaidOut(job, sizes) && IsPermutation(order, |sizes|)
    ensures InRange(order, |job.slots|) && PanelSum(job, order) == Distance(job.old_, job.new_)
  {
    PanelsTileFrame(job, sizes, |sizes|);
    SamePanelsInRange(seq(|sizes|, i => i), order, |sizes|);
    PanelSumIgnoresOrder(job, seq(|sizes|, i => i), order);
  }

  lemma {:induction false} OrderFlipsIsPanelSum(job: Job, n: nat)
    requires AllPanelsDrawable(job) && n <= |job.options.order|
    ensures DrawableUpTo(job, n)
    ensures OrderFlips(job, n) == PanelSum(job, job.options.order[..n])
  {
    if n > 0 {
      OrderFlipsIsPanelSum(job, n - 1);
      assert job.options.order[..n][..n - 1] == job.options.order[..n - 1];
    }
  }

  /** For any drawing order: panel after panel, what is counted is the dots that differ on that panel. */
  lemma StopCountsPixels(job: Job, i: nat)
    requires DrawableUpTo(job, i + 1)
    ensures OrderFlips(job, 0) == 0
    ensures var slot := job.slots[job.options.order[i]];
            OrderFlips(job, i + 1) ==
              OrderFlips(job, i)
              + |set x: nat, y: nat | slot.x <= x < slot.x + slot.width && y < 16
                                      && Pixel(job.old_, x, y) != Pixel(job.new_, x, y) :: (x, y)|
  {
    hide Pixel;
    var slot := job.slots[job.options.order[i]];
    DifferenceCountsPixels(job.old_, job.new_, slot.x, slot.width);
    assert DifferingPixels(job.old_, job.new_, slot.x, slot.width)
        == set x: nat, y: nat | slot.x <= x < slot.x + slot.width && y < 16
                                && Pixel(job.old_, x, y) != Pixel(job.new_, x, y) :: (x, y);
  }

  lemma {:induction false} UnchangedCountsNothing(job: Job, n: nat)
    requires DrawableUpTo(job, n) && job.old_ == job.new_
    ensures OrderFlips(job, n) == 0
  {
    hide Difference;
    if n > 0 {
      UnchangedCountsNothing(job, n - 1);
      var slot := job.slots[job.options.order[n - 1]];
      DifferenceZero(job.old_, job.new_, slot.x, slot.width);
    }
  }

  /** The test for an unchanged frame has no effect on the count. */
  lemma FrameCountsStops(job: Job)
    requires WellFormed(job)
    ensures FrameFlips(job) == OrderFlips(job, Reach(job, 0))
  {
    if SkipFrame(job) {
      DistanceZero(job.old_, job.new_);
      UnchangedCountsNothing(job, Reach(job, 0));
    }
  }

  /** A completed render, in either mode, adds exactly the number of dots in which the two frames differ. */
  lemma RenderCountsDistance(job: Job, sizes: seq<uint8>)
    requires LaidOut(job, sizes) && IsPermutation(job.options.order, |sizes|)
    ensures FrameFlips(job) == Distance(job.old_, job.new_)
    ensures FrameFlips(job) ==
              |set x: nat, y: nat | x < |job.new_| && y < 16 && Pixel(job.old_, x, y) != Pixel(job.new_, x, y) :: (x, y)|
  {
    DistanceCountsPixels(job.old_, job.new_);
    if !SkipFrame(job) {
      ReachesAll(job, 0);
      OrderFlipsIsPanelSum(job, |job.options.order|);
      assert job.options.order[..|job.options.order|] == job.options.order;
      PanelDifferencesAddUp(job, sizes, job.options.order);
    }
  }

  /** Without any hypothesis on the order: the default one, on a display laid out from panels that are not empty. */
  lemma DefaultOrderCountsPixels(job: Job, sizes: seq<uint8>)
    requires WellFormed(job) && job.slots == Slots(sizes) && Start(sizes, |sizes|) == |job.new_|
    requires forall i :: 0 <= i < |sizes| ==> sizes[i] > 0
    requires job.options.order == seq(|sizes|, i => i)
    ensures FrameFlips(job) ==
              |set x: nat, y: nat | x < |job.new_| && y < 16 && Pixel(job.old_, x, y) != Pixel(job.new_, x, y) :: (x, y)|
  {
    forall p | 0 <= p < |job.slots|
      ensures Drawable(job.slots[p], |job.new_|)
    {
      NoWrap(sizes, p);
    }
    RenderCountsDistance(job, sizes);
  }

  // ----- Runs of renders

  /** Completed renders in a row: each starts from the frame the one before it drew. Options may differ every time. */
  ghost predicate IsRun(jobs: seq<Job>, sizes: seq<uint8>) {
    && (forall i :: 0 <= i < |jobs| ==> LaidOut(jobs[i], sizes) && IsPermutation(jobs[i].options.order, |sizes|))
    && forall i :: 0 < i < |jobs| ==> jobs[i].old_ == jobs[i - 1].new_
  }

  /** The counter before the first render and after each: what every completed render adds to it. */
  ghost predicate Counts(jobs: seq<Job>, counter: seq<uint64>) {
    && |counter| == |jobs| + 1
    && forall i :: 0 <= i < |jobs| && WellFormed(jobs[i]) ==> counter[i + 1] == Wrap64(counter[i] + FrameFlips(jobs[i]))
  }

  /** The sum of the distances between successive rendered frames. */
  function PathLength(jobs: seq<Job>, n: nat): nat
    requires n <= |jobs| && forall i :: 0 <= i < n ==> WellFormed(jobs[i])
  {
    if n == 0 then 0 else assert WellFormed(jobs[n - 1]); PathLength(jobs, n - 1) + Distance(jobs[n - 1].old_, jobs[n - 1].new_)
  }

  /** The distance between the first and the last frame is at most the sum of the distances in between. */
  lemma {:induction false} DistanceWithinPath(jobs: seq<Job>, sizes: seq<uint8>, n: nat)
    requires IsRun(jobs, sizes) && 0 < n <= |jobs|
    ensures |jobs[0].old_| == |jobs[n - 1].new_| && Distance(jobs[0].old_, jobs[n - 1].new_) <= PathLength(jobs, n)
  {
    assert LaidOut(jobs[0], sizes) && LaidOut(jobs[n - 1], sizes);
    if n > 1 {
      DistanceWithinPath(jobs, sizes, n - 1);
      DifferenceTriangle(jobs[0].old_, jobs[n - 1].old_, jobs[n - 1].new_, |jobs[0].old_|);
    }
  }

  lemma {:induction false} CounterFollowsPath(jobs: seq<Job>, counter: seq<uint64>, sizes: seq<uint8>, n: nat)
    requires IsRun(jobs, sizes) && Counts(jobs, counter) && n <= |jobs|
    ensures counter[n] == Wrap64(counter[0] + PathLength(jobs, n))
  {
    hide FrameFlips, Difference, IsPermutation;
    if n > 0 {
      CounterFollowsPath(jobs, counter, sizes, n - 1);
      RenderCountsDistance(jobs[n - 1], sizes);
      assert counter[n - 1 + 1] == Wrap64(counter[n - 1] + FrameFlips(jobs[n - 1]));
      Wrap64Adds(counter[0] + PathLength(jobs, n - 1), Distance(jobs[n - 1].old_, jobs[n - 1].new_));
    }
  }

  /**
    Over any run, pixels_flipped grows by the sum of the distances between successive frames, reduced to 64 bits; as
    long as that does not wrap, it grows by no less than the distance between the first and the last frame.
   */
  lemma RunCountsPathLength(jobs: seq<Job>, counter: seq<uint64>, sizes: seq<uint8>, n: nat)
    requires IsRun(jobs, sizes) && Counts(jobs, counter) && 0 < n <= |jobs|
    ensures counter[n] == (counter[0] + PathLength(jobs, n)) % 0x1_0000_0000_0000_0000
    ensures |jobs[0].old_| == |jobs[n - 1].new_| && Distance(jobs[0].old_, jobs[n - 1].new_) <= PathLength(jobs, n)
    ensures counter[0] + PathLength(jobs, n) < 0x1_0000_0000_0000_0000 ==>
              counter[n] == counter[0] + PathLength(jobs, n) >= counter[0] + Distance(jobs[0].old_, jobs[n - 1].new_)
  {
    CounterFollowsPath(jobs, counter, sizes, n);
    Wrap64IsModulo(counter[0] + PathLength(jobs, n));
    DistanceWithinPath(jobs, sizes, n);
  }
}
