/** Where the panels sit on the display: the loop in flipdot_initialize. */
module Layout {

  type uint8 = n: nat | n < 256

  /** uint8_t addition */
  function Add8(a: uint8, b: uint8): uint8 {
    if a + b < 256 then a + b else a + b - 256
  }

  /** flipdot_panel_t */
  datatype Slot = Slot(width: uint8, x: uint8)

  /** Sum of the first `n` panel widths. */
  function Start(sizes: seq<uint8>, n: nat): nat
    requires n <= |sizes|
  {
    if n == 0 then 0 else Start(sizes, n - 1) + sizes[n - 1]
  }

  /** The same sum in uint8_t arithmetic, as the loop computes it. */
  function Start8(sizes: seq<uint8>, n: nat): uint8
    requires n <= |sizes|
  {
    if n == 0 then 0 else Add8(Start8(sizes, n - 1), sizes[n - 1])
  }

  lemma {:induction false} Start8Exact(sizes: seq<uint8>, n: nat)
    requires n <= |sizes| && Start(sizes, n) <= 255
    ensures Start8(sizes, n) == Start(sizes, n)
  {
    if n > 0 {
      Start8Exact(sizes, n - 1);
    }
  }

  /** The panel record the loop leaves at index `i`; offsets are uint8_t and wrap. */
  function SlotAt(sizes: seq<uint8>, i: nat): Slot
    requires i < |sizes|
  {
    Slot(sizes[i], Start8(sizes, i))
  }

  function Slots(sizes: seq<uint8>): seq<Slot> {
    seq(|sizes|, i requires 0 <= i < |sizes| => SlotAt(sizes, i))
  }

  /** Column `x` belongs to the panel in slot `s`. */
  predicate Covers(s: Slot, x: nat) {
    s.x <= x < s.x + s.width
  }

  predicate Covered(slots: seq<Slot>, x: nat) {
    exists i :: 0 <= i < |slots| && Covers(slots[i], x)
  }

  ghost predicate Inside(slots: seq<Slot>, width: nat) {
    forall i, x: nat :: 0 <= i < |slots| && Covers(slots[i], x) ==> x < width
  }

  ghost predicate Exhaustive(slots: seq<Slot>, width: nat) {
    forall x: nat :: x < width ==> Covered(slots, x)
  }

  ghost predicate Disjoint(slots: seq<Slot>) {
    forall i, j, x: nat :: 0 <= i < |slots| && 0 <= j < |slots| && Covers(slots[i], x) && Covers(slots[j], x) ==> i == j
  }

  /** The panels split the columns 0..width-1 among themselves: none outside, none left out, none shared. */
  ghost predicate Partition(slots: seq<Slot>, width: nat) {
    Inside(slots, width) && Exhaustive(slots, width) && Disjoint(slots)
  }

  lemma {:induction false} StartMonotone(sizes: seq<uint8>, i: nat, j: nat)
    requires i <= j <= |sizes|
    ensures Start(sizes, i) <= Start(sizes, j)
  {
    if i < j {
      StartMonotone(sizes, i, j - 1);
    }
  }

  /** The panel holding column `x` of a display made of the first `n` panels. */
  function PanelOf(sizes: seq<uint8>, n: nat, x: nat): (i: nat)
    requires n <= |sizes| && x < Start(sizes, n)
    ensures i < n && Start(sizes, i) <= x < Start(sizes, i + 1)
  {
    if x >= Start(sizes, n - 1) then n - 1 else PanelOf(sizes, n - 1, x)
  }

  /** The first panel whose end passes 255. */
  lemma {:induction false} FirstOverflow(sizes: seq<uint8>, n: nat) returns (i: nat)
    requires n <= |sizes| && Start(sizes, n) > 255
    ensures i < n && Start(sizes, i) <= 255 < Start(sizes, i + 1)
  {
    if Start(sizes, n - 1) > 255 {
      i := FirstOverflow(sizes, n - 1);
    } else {
      i := n - 1;
    }
  }

  /** Without wrap-around every panel starts where the ones before it end. */
  lemma NoWrap(sizes: seq<uint8>, i: nat)
    requires i < |sizes| && Start(sizes, |sizes|) <= 255
    ensures Start(sizes, i) + sizes[i] <= Start(sizes, |sizes|)
    ensures SlotAt(sizes, i) == Slot(sizes[i], Start(sizes, i))
  {
    StartMonotone(sizes, i, |sizes|);
    StartMonotone(sizes, i + 1, |sizes|);
    Start8Exact(sizes, i);
  }

  lemma SumFitsPartition(sizes: seq<uint8>)
    requires Start(sizes, |sizes|) <= 255
    ensures Partition(Slots(sizes), Start(sizes, |sizes|))
  {
    var slots, total := Slots(sizes), Start(sizes, |sizes|);
    forall i, x: nat | 0 <= i < |slots| && Covers(slots[i], x)
      ensures x < total
    {
      NoWrap(sizes, i);
    }
    forall x: nat | x < total
      ensures Covered(slots, x)
    {
      var i := PanelOf(sizes, |sizes|, x);
      NoWrap(sizes, i);
      assert Covers(slots[i], x);
    }
    forall i, j, x: nat | 0 <= i < |slots| && 0 <= j < |slots| && Covers(slots[i], x) && Covers(slots[j], x)
      ensures i == j
    {
      NoWrap(sizes, i);
      NoWrap(sizes, j);
      if i < j {
        StartMonotone(sizes, i + 1, j);
      } else if j < i {
        StartMonotone(sizes, j + 1, i);
      }
    }
  }

  /** The layout loop produces a partition of the display exactly when the widths sum to at most 255. */
  lemma PartitionExactlyWhenSumFits(sizes: seq<uint8>)
    ensures Partition(Slots(sizes), Start8(sizes, |sizes|)) <==> Start(sizes, |sizes|) <= 255
  {
    if Start(sizes, |sizes|) <= 255 {
      SumFitsPartition(sizes);
      Start8Exact(sizes, |sizes|);
    } else {
      var i := FirstOverflow(sizes, |sizes|);
      Start8Exact(sizes, i);
      assert Covers(Slots(sizes)[i], Start(sizes, i + 1) - 1);
      assert !Inside(Slots(sizes), Start8(sizes, |sizes|));
    }
  }

  /** Where a panel ends, in a byte. */
  function End8(slot: Slot): uint8 {
    (slot.x + slot.width) % 256
  }

  /** Slot `i` starts where the one before it ends. */
  predicate Follows(slots: seq<Slot>, i: nat)
    requires i < |slots|
  {
    if i == 0 then slots[i].x == 0 else slots[i].x == End8(slots[i - 1])
  }

  /** From left to right, in the order of the configuration, every panel starts where the one before it ends. */
  predicate InARow(slots: seq<Slot>, sizes: seq<uint8>, width: nat) {
    && |slots| == |sizes|
    && (forall i :: 0 <= i < |slots| ==> slots[i].width == sizes[i])
    && (forall i :: 0 <= i < |slots| ==> Follows(slots, i))
    && width == if |slots| == 0 then 0 else End8(slots[|slots| - 1])
  }

  lemma Start8Next(sizes: seq<uint8>, i: nat)
    requires i <= |sizes|
    ensures Start8(sizes, i) == if i == 0 then 0 else End8(SlotAt(sizes, i - 1))
  {
  }

  lemma SlotFollows(sizes: seq<uint8>, i: nat)
    requires i < |sizes|
    ensures Follows(Slots(sizes), i)
  {
    hide Start8, End8;
    Start8Next(sizes, i);
    assert Slots(sizes)[i] == SlotAt(sizes, i) && (i > 0 ==> Slots(sizes)[i - 1] == SlotAt(sizes, i - 1));
  }

  lemma SlotsInARow(sizes: seq<uint8>)
    ensures InARow(Slots(sizes), sizes, Start8(sizes, |sizes|))
  {
    hide Start8, Follows, End8;
    forall i | 0 <= i < |sizes|
      ensures Follows(Slots(sizes), i)
    {
      SlotFollows(sizes, i);
    }
    Start8Next(sizes, |sizes|);
  }

  /** The loop at flipdot.c:114-118, with its uint8_t accumulator. */
  method LayOut(panelCount: nat, panelSize: seq<uint8>) returns (panels: array<Slot>, width: uint8)
    requires panelCount <= |panelSize| && panelCount < 256
    ensures fresh(panels) && panels[..] == Slots(panelSize[..panelCount])
    ensures width == Start8(panelSize[..panelCount], panelCount)
    ensures InARow(panels[..], panelSize[..panelCount], width)
    ensures Partition(panels[..], width) <==> Start(panelSize[..panelCount], panelCount) <= 255
  {
    hide InARow, Partition, Start, Add8;
    ghost var sizes := panelSize[..panelCount];
    panels := new Slot[panelCount](_ => Slot(0, 0));
    width := 0;
    var i := 0;
    while i < panelCount
      invariant 0 <= i <= panelCount
      invariant width == Start8(sizes, i)
      invariant forall k :: 0 <= k < i ==> panels[k] == SlotAt(sizes, k)
    {
      panels[i] := Slot(panelSize[i], width);
      width := Add8(width, panelSize[i]);
      i := i + 1;
    }
    assert panels[..] == Slots(sizes);
    SlotsInARow(sizes);
    PartitionExactlyWhenSumFits(sizes);
  }
}
